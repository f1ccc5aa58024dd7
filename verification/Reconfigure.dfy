/** The three processes that take part in a reconfiguration (flowd/privsep.c): one that
    parses the file, the monitor that reads its result and opens the listeners, and the
    client that takes the monitor's configuration over. */
module Reconfigure {
  import opened Privsep
  import F = Filter
  import opened Sequences

  /** What the world answers: the file's configuration if it parses, the descriptor (or -1)
      for each listener, and whether a new pid file can be written. */
  datatype Request = Request(parsed: Option<Conf>, fds: nat -> int, pidWritten: bool)

  // ----- Configurations up to descriptors and counters -----

  function WithFds(c: Conf, fds: nat -> int): (r: Conf)
    ensures |r.listens| == |c.listens|
  {
    c.(listens := seq(|c.listens|, i requires 0 <= i < |c.listens| => c.listens[i].(fd := fds(i))))
  }

  function Closed(c: Conf): Conf {
    WithFds(c, (_: nat) => -1)
  }

  /** A configuration without what monitor and client do not share. */
  function View(c: Conf): Conf {
    Closed(c).(rules := seq(|c.rules|, i requires 0 <= i < |c.rules| => c.rules[i].(counter := F.Counter(0, 0, 0))))
  }

  /** The options that the new configuration takes over from the old. */
  function WithOptions(c: Conf, opts: set<Opt>): Conf {
    c.(opts := c.opts + opts * COMMAND_LINE)
  }

  predicate AllOpened(c: Conf, fds: nat -> int) {
    forall i :: 0 <= i < |c.listens| ==> fds(i) != -1
  }

  /** The requests that install a configuration. */
  predicate Installs(r: Request) {
    r.parsed.Some? && Transferable(r.parsed.value) && AllOpened(r.parsed.value, r.fds)
  }

  function Installed(r: Request, opts: set<Opt>): Conf
    requires Installs(r)
  {
    Closed(WithOptions(r.parsed.value, opts))
  }

  lemma ViewsAgree(c: Conf, fds: nat -> int)
    ensures View(WithFds(c, fds)) == View(Closed(c)) == View(c)
  {
    assert View(WithFds(c, fds)).listens == View(c).listens;
    assert View(Closed(c)).listens == View(c).listens;
  }

  lemma StillTransferable(c: Conf, opts: set<Opt>, fds: nat -> int)
    ensures Transferable(WithFds(WithOptions(c, opts), fds)) <==> Transferable(c)
  {
  }

  lemma PidFileInstalled(r: Request, opts: set<Opt>)
    requires Installs(r)
    ensures Installed(r, opts).pidFile == r.parsed.value.pidFile
  {
  }

  // ----- The monitor -----

  method ReadOk(ch: Channel) returns (ok: Option<bool>)
    modifies ch
    ensures if old(ch.items) != [] && old(ch.items)[0].Ok? then ok == Some(old(ch.items)[0].ok) && ch.items == old(ch.items)[1..]
      else ok == None && ch.items == old(ch.items)
  {
    if ch.items == [] || !ch.items[0].Ok? {
      return None;
    }
    ok := Some(ch.items[0].ok);
    ch.items := ch.items[1..];
  }

  /** child_get_config. */
  method ChildGetConfig(parsed: Option<Conf>, conf: Config) returns (r: Outcome)
    modifies conf
    ensures r == Done <==> parsed.Some? && Transferable(parsed.value)
    ensures conf.Value() == if r == Done then parsed.value else old(conf.Value())
  {
    hide Received, SentItems, Transferable;
    var ch := new Channel();
    ch.Write([Ok(parsed.Some?)]);
    if parsed.Some? {
      var newconf := new Config(parsed.value);
      var sent := newconf.Send(ch);
      assert ch.items[1..] == SentItems(parsed.value);
    }
    var ok := ReadOk(ch);
    if ok != Some(true) {
      return Failed;
    }
    ReceivedSent(parsed.value);
    r := conf.Receive(ch);
  }

  /** read_config. */
  method ReadConfig(parsed: Option<Conf>, conf: Config) returns (r: Outcome)
    modifies conf
    ensures r == Done <==> parsed.Some? && Transferable(parsed.value)
    ensures conf.Value() == if r == Done then WithOptions(parsed.value, old(conf.opts)) else old(conf.Value())
  {
    var opts := conf.opts * COMMAND_LINE;
    r := ChildGetConfig(parsed, conf);
    if r == Done {
      conf.opts := conf.opts + opts;
    }
  }

  /** The listeners of the new configuration are opened, as far as the first that fails. */
  method OpenListeners(conf: Config, fds: nat -> int) returns (ok: bool)
    modifies conf`listens
    ensures ok <==> AllOpened(old(conf.Value()), fds)
    ensures ok ==> conf.Value() == WithFds(old(conf.Value()), fds)
  {
    var i := 0;
    ghost var was := conf.Value();
    while i < |conf.listens|
      invariant 0 <= i <= |conf.listens| == |was.listens| && conf.Value() == was.(listens := conf.listens)
      invariant forall k :: 0 <= k < i ==> fds(k) != -1 && conf.listens[k] == was.listens[k].(fd := fds(k))
      invariant forall k :: i <= k < |was.listens| ==> conf.listens[k] == was.listens[k]
    {
      if fds(i) == -1 {
        return false;
      }
      conf.listens := conf.listens[i := conf.listens[i].(fd := fds(i))];
      i := i + 1;
    }
    assert conf.listens == WithFds(was, fds).listens;
    ok := true;
  }

  method CloseListeners(conf: Config)
    modifies conf`listens
    ensures conf.Value() == Closed(old(conf.Value()))
  {
    var i := 0;
    ghost var was := conf.Value();
    while i < |conf.listens|
      invariant 0 <= i <= |conf.listens| == |was.listens| && conf.Value() == was.(listens := conf.listens)
      invariant forall k :: 0 <= k < i ==> conf.listens[k] == was.listens[k].(fd := -1)
      invariant forall k :: i <= k < |was.listens| ==> conf.listens[k] == was.listens[k]
    {
      conf.listens := conf.listens[i := conf.listens[i].(fd := -1)];
      i := i + 1;
    }
    assert conf.listens == Closed(was).listens;
  }

  lemma ClosedAgain(c: Conf, fds: nat -> int)
    ensures Closed(WithFds(c, fds)) == Closed(c)
  {
    assert Closed(WithFds(c, fds)).listens == Closed(c).listens;
  }

  /** answer_reconfigure: the answer goes to the client, and the monitor's configuration is
      replaced only if the client was told to take it over. */
  method AnswerReconfigure(conf: Config, client: Channel, req: Request) returns (r: Outcome)
    modifies conf, client
    ensures if Installs(req) then
        && conf.Value() == Installed(req, old(conf.opts))
        && client.items == old(client.items) + [Ok(true)] + SentItems(WithFds(WithOptions(req.parsed.value, old(conf.opts)), req.fds))
        && (r == Done <==> old(conf.pidFile) == conf.pidFile || req.pidWritten)
      else
        && conf.Value() == old(conf.Value()) && r != Done
        && (client.items == old(client.items) || client.items == old(client.items) + [Ok(false)])
  {
    hide SentItems, Received, Transferable, Closed, WithFds;
    var newconf := new Config(NO_CONF);
    newconf.opts := conf.opts * COMMAND_LINE;
    ghost var kept := newconf.opts;
    r := ReadConfig(req.parsed, newconf);
    if r == Exited {
      return;
    }
    assert r == Done ==> newconf.Value() == WithOptions(req.parsed.value, conf.opts);
    var ok := OpenListeners(newconf, req.fds);
    ok := ok && r == Done;
    client.Write([Ok(ok)]);
    if !ok {
      return Failed;
    }
    ghost var installed := WithOptions(req.parsed.value, conf.opts);
    StillTransferable(req.parsed.value, conf.opts, req.fds);
    var sent := newconf.Send(client);
    assert sent by { SentWhole(newconf.Value()); }
    CloseListeners(newconf);
    ClosedAgain(installed, req.fds);
    var rewrite := conf.pidFile != newconf.pidFile;
    conf.Replace(newconf);
    if rewrite && !req.pidWritten {
      return Failed;
    }
    r := Done;
  }

  lemma SentWhole(c: Conf)
    requires Transferable(c)
    ensures StringSent(c.logFile, true) && StringSent(c.logSocket, true) && StringSent(c.pidFile, false)
  {
  }

  // ----- The client -----

  /** client_reconfigure, from where it waits for the answer. */
  method TakeOver(conf: Config, monitor: Channel) returns (r: Outcome)
    modifies conf, monitor
    ensures if old(monitor.items) != [] && old(monitor.items)[0] == Ok(true) then
        match Received(old(monitor.items)[1..])
        case Got(c, _) => r == Done && conf.Value() == c
        case _ => r != Done && conf.Value() == old(conf.Value())
      else r != Done && conf.Value() == old(conf.Value())
  {
    hide Received;
    var ok := ReadOk(monitor);
    if ok != Some(true) {
      return Failed;
    }
    r := conf.Receive(monitor);
  }

  // ----- Both -----

  /** Monitor and client. A failed reconfiguration ends both of them. */
  class System {
    const monitor: Config
    const client: Config
    var running: bool

    ghost predicate Valid()
      reads this, monitor, client
    {
      monitor != client && (running ==> View(monitor.Value()) == View(client.Value()))
    }

    /** The fork of privsep_init: the monitor closes its listeners. */
    constructor (c: Conf)
      ensures Valid() && running && fresh(monitor) && fresh(client)
      ensures monitor.Value() == Closed(c) && client.Value() == c
    {
      var parent := new Config(c);
      var child := new Config(c);
      CloseListeners(parent);
      monitor, client, running := parent, child, true;
      new;
      ViewsAgree(c, (_: nat) => -1);
    }

    /** The client filters: the counters of its rules change. */
    method Filter(counters: nat -> F.Counter)
      requires Valid()
      modifies client`rules
      ensures Valid() && monitor.Value() == old(monitor.Value())
      ensures client.Value() == old(client.Value()).(rules := client.rules) && |client.rules| == |old(client.rules)|
      ensures forall i :: 0 <= i < |client.rules| ==> client.rules[i] == RuleEntry(old(client.rules)[i].rule, counters(i))
    {
      var rules := client.rules;
      client.rules := seq(|rules|, i requires 0 <= i < |rules| => rules[i].(counter := counters(i)));
      assert View(client.Value()).rules == View(old(client.Value())).rules;
    }

    method Reconfigure(req: Request)
      requires Valid() && running
      modifies this`running, monitor, client
      ensures Valid()
      ensures running <==> Installs(req) && (req.parsed.value.pidFile == old(monitor.pidFile) || req.pidWritten)
      ensures running ==> monitor.Value() == Installed(req, old(monitor.opts))
      ensures running ==> client.Value() == WithFds(WithOptions(req.parsed.value, old(monitor.opts)), req.fds)
      ensures !Installs(req) ==> monitor.Value() == old(monitor.Value()) && client.Value() == Closed(old(client.Value()))
    {
      hide SentItems, Received, Transferable, Closed, WithFds, View;
      var up := new Channel();
      var down := new Channel();
      ghost var opts := monitor.opts;
      CloseListeners(client);
      up.Write([Item.Reconfigure]);
      var answered := AnswerReconfigure(monitor, down, req);
      ghost var answer := down.items;
      if Installs(req) {
        Answer(req, opts, answer);
      }
      var taken := TakeOver(client, down);
      running := answered == Done && taken == Done;
      if Installs(req) {
        ViewsAgree(WithOptions(req.parsed.value, opts), req.fds);
        assert Installed(req, opts).pidFile == req.parsed.value.pidFile by { PidFileInstalled(req, opts); }
      }
    }
  }

  /** The client receives the configuration that the monitor sent. */
  lemma Answer(req: Request, opts: set<Opt>, items: seq<Item>)
    requires Installs(req)
    requires items == [Ok(true)] + SentItems(WithFds(WithOptions(req.parsed.value, opts), req.fds))
    ensures items[1..] == SentItems(WithFds(WithOptions(req.parsed.value, opts), req.fds))
    ensures Received(items[1..]) == Got(WithFds(WithOptions(req.parsed.value, opts), req.fds), [])
  {
    hide SentItems, Received;
    StillTransferable(req.parsed.value, opts, req.fds);
    ReceivedSent(WithFds(WithOptions(req.parsed.value, opts), req.fds));
  }

  // ----- Runs -----

  /** The monitor's configuration after a number of requests, if it is still there. */
  function AfterAll(c: Conf, reqs: seq<Request>): Option<Conf> {
    if reqs == [] then Some(c)
    else
      var before := AfterAll(c, reqs[..|reqs| - 1]);
      var req := reqs[|reqs| - 1];
      if before.None? || !Installs(req) || (req.parsed.value.pidFile != before.value.pidFile && !req.pidWritten) then None
      else Some(Installed(req, before.value.opts))
  }

  function FileOpts(c: Conf, reqs: seq<Request>): set<Opt> {
    if reqs == [] then c.opts
    else FileOpts(c, reqs[..|reqs| - 1]) + (if reqs[|reqs| - 1].parsed.Some? then reqs[|reqs| - 1].parsed.value.opts else {})
  }

  /** However many reconfigurations succeed, the configuration is the last file's, with its
      lists in their order; of the options, those of the command line that were ever set
      stay set, and the others are the last file's. */
  lemma {:induction false} OptionsKept(c: Conf, reqs: seq<Request>)
    requires AfterAll(c, reqs).Some? && reqs != []
    ensures var last := reqs[|reqs| - 1].parsed;
      && last.Some?
      && AfterAll(c, reqs).value == Closed(last.value).(opts := AfterAll(c, reqs).value.opts)
      && AfterAll(c, reqs).value.opts * COMMAND_LINE == FileOpts(c, reqs) * COMMAND_LINE
      && AfterAll(c, reqs).value.opts - COMMAND_LINE == last.value.opts - COMMAND_LINE
  {
    var before := reqs[..|reqs| - 1];
    var last := reqs[|reqs| - 1];
    if before != [] {
      OptionsKept(c, before);
    }
    var conf := AfterAll(c, before).value;
    assert AfterAll(c, reqs).value == Installed(last, conf.opts);
  }

  /** An option that the configuration started with, or that some file of it set. */
  ghost predicate EverSet(o: Opt, c: Conf, reqs: seq<Request>) {
    o in c.opts || exists k :: 0 <= k < |reqs| && reqs[k].parsed.Some? && o in reqs[k].parsed.value.opts
  }

  lemma {:induction false} FileOptsEver(o: Opt, c: Conf, reqs: seq<Request>)
    ensures o in FileOpts(c, reqs) <==> EverSet(o, c, reqs)
    decreases |reqs|
  {
    if reqs != [] {
      var n := |reqs| - 1;
      FileOptsEver(o, c, reqs[..n]);
      if EverSet(o, c, reqs) && o !in c.opts {
        var k :| 0 <= k < |reqs| && reqs[k].parsed.Some? && o in reqs[k].parsed.value.opts;
        if k < n { assert reqs[..n][k] == reqs[k]; }
      }
    }
  }

  /** By their names: the three options of the command line stay set once they are, and any
      other is as the last file says. */
  lemma OptionsByName(c: Conf, reqs: seq<Request>)
    requires AfterAll(c, reqs).Some? && reqs != []
    ensures reqs[|reqs| - 1].parsed.Some?
    ensures var opts := AfterAll(c, reqs).value.opts; var last := reqs[|reqs| - 1].parsed.value.opts;
      && (DontFork in opts <==> EverSet(DontFork, c, reqs)) && (Verbose in opts <==> EverSet(Verbose, c, reqs))
      && (Insecure in opts <==> EverSet(Insecure, c, reqs)) && forall n :: OtherBit(n) in opts <==> OtherBit(n) in last
  {
    hide AfterAll, FileOpts, EverSet;
    OptionsKept(c, reqs);
    FileOptsEver(DontFork, c, reqs);
    FileOptsEver(Verbose, c, reqs);
    FileOptsEver(Insecure, c, reqs);
    var last := reqs[|reqs| - 1].parsed.value.opts;
    ByName(AfterAll(c, reqs).value.opts, FileOpts(c, reqs), last);
  }

  lemma ByName(opts: set<Opt>, file: set<Opt>, last: set<Opt>)
    requires opts * COMMAND_LINE == file * COMMAND_LINE && opts - COMMAND_LINE == last - COMMAND_LINE
    ensures forall o <- {DontFork, Verbose, Insecure} :: o in opts <==> o in file
    ensures forall n :: OtherBit(n) in opts <==> OtherBit(n) in last
  {
    forall o | o in {DontFork, Verbose, Insecure} ensures o in opts <==> o in file {
      assert o in opts * COMMAND_LINE <==> o in file * COMMAND_LINE;
    }
    forall n ensures OtherBit(n) in opts <==> OtherBit(n) in last {
      assert OtherBit(n) in opts - COMMAND_LINE <==> OtherBit(n) in last - COMMAND_LINE;
    }
  }

  /** A whole life of the two processes: after every request that succeeded they hold the
      same configuration. */
  method Life(c: Conf, reqs: seq<Request>, counters: nat -> nat -> F.Counter) returns (sys: System)
    ensures sys.Valid()
    ensures sys.running <==> AfterAll(Closed(c), reqs).Some?
    ensures sys.running ==> sys.monitor.Value() == AfterAll(Closed(c), reqs).value
    ensures sys.running ==> View(sys.client.Value()) == View(AfterAll(Closed(c), reqs).value)
  {
    hide Closed, View, Installs, Installed, WithFds;
    sys := new System(c);
    var i := 0;
    assert reqs[..0] == [];
    while i < |reqs|
      invariant 0 <= i <= |reqs| && sys.Valid() && fresh(sys) && fresh(sys.monitor) && fresh(sys.client)
      invariant sys.running <==> AfterAll(Closed(c), reqs[..i]).Some?
      invariant sys.running ==> sys.monitor.Value() == AfterAll(Closed(c), reqs[..i]).value
    {
      assert reqs[..i + 1][..i] == reqs[..i];
      if sys.running {
        sys.Filter(counters(i));
        sys.Reconfigure(reqs[i]);
      }
      i := i + 1;
    }
    assert reqs[..i] == reqs;
  }
}
