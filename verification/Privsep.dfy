/** The reconfigure exchange of flowd/privsep.c: a process that parses the configuration
    file, the monitor, and the client that collects, connected by channels of items. */
module Privsep {
  import opened Addr
  import opened FlowRecord
  import F = Filter
  import opened Sequences

  datatype Listen = Listen(addr: XAddr, port: nat, bufsiz: nat, fd: int)
  datatype Device = Device(addr: XAddr, masklen: nat)
  datatype RuleEntry = RuleEntry(rule: F.Rule, counter: F.Counter)

  /** FLOWD_OPT_*. */
  datatype Opt = DontFork | Verbose | Insecure | OtherBit(n: nat)
  const COMMAND_LINE: set<Opt> := {DontFork, Verbose, Insecure}

  /** struct flowd_config, with None for a null string. */
  datatype Conf = Conf(
    logFile: Option<string>, logSocket: Option<string>, bufsiz: nat,
    pidFile: Option<string>, storeMask: Fields, opts: set<Opt>,
    listens: seq<Listen>, rules: seq<RuleEntry>, devices: seq<Device>, groups: seq<XAddr>)

  const NO_CONF := Conf(None, None, 0, None, {}, {}, [], [], [], [])

  /** What goes over a channel. */
  datatype Item =
    | Length(n: nat) | Chars(s: string) | Size(n: nat) | Mask(mask: Fields) | Opts(opts: set<Opt>) | Count(n: nat)
    | ListenItem(l: Listen) | FdItem(fd: int) | RuleItem(r: RuleEntry) | DeviceItem(d: Device) | GroupItem(g: XAddr)
    | Ok(ok: bool) | Reconfigure

  // ----- Sending -----

  function StringItems(s: Option<string>): seq<Item> {
    if s.None? then [Length(0)] else [Length(|s.value|), Chars(s.value)]
  }

  function ListenItems(ls: seq<Listen>): seq<Item> {
    if ls == [] then []
    else [ListenItem(ls[0])] + (if ls[0].fd != -1 then [FdItem(ls[0].fd)] else []) + ListenItems(ls[1..])
  }

  function RuleItems(rs: seq<RuleEntry>): seq<Item> {
    if rs == [] then [] else [RuleItem(rs[0])] + RuleItems(rs[1..])
  }

  function DeviceItems(ds: seq<Device>): seq<Item> {
    if ds == [] then [] else [DeviceItem(ds[0])] + DeviceItems(ds[1..])
  }

  function GroupItems(gs: seq<XAddr>): seq<Item> {
    if gs == [] then [] else [GroupItem(gs[0])] + GroupItems(gs[1..])
  }

  /** privsep_write_string refuses the empty string, and null where it is not allowed. */
  predicate StringSent(s: Option<string>, nullOk: bool) {
    if s.None? then nullOk else s.value != []
  }

  function ListItems(c: Conf): seq<Item> {
    [Count(|c.listens|)] + (ListenItems(c.listens) + ([Count(|c.rules|)] + (RuleItems(c.rules)
    + ([Count(|c.devices|)] + (DeviceItems(c.devices) + ([Count(|c.groups|)] + GroupItems(c.groups)))))))
  }

  /** What send_config writes: as far as the first string that it refuses. */
  function SentItems(c: Conf): seq<Item> {
    if !StringSent(c.logFile, true) then [] else StringItems(c.logFile) + AfterLogFile(c)
  }

  function AfterLogFile(c: Conf): seq<Item> {
    if !StringSent(c.logSocket, true) then [] else StringItems(c.logSocket) + ([Size(c.bufsiz)] + AfterSize(c))
  }

  function AfterSize(c: Conf): seq<Item> {
    if !StringSent(c.pidFile, false) then []
    else StringItems(c.pidFile) + ([Mask(c.storeMask), Opts(c.opts)] + ListItems(c))
  }

  // ----- Receiving -----

  /** The end of a reading step: the process ends, or the step fails, or it has a value. */
  datatype Got<+T> = Exit | Fail | Got(value: T, rest: seq<Item>)

  /** privsep_read_string. */
  function ReadString(items: seq<Item>, nullOk: bool): Got<Option<string>> {
    if items == [] || !items[0].Length? then Exit
    else if nullOk && items[0].n == 0 then Got(None, items[1..])
    else if items[0].n == 0 || items[0].n >= 8192 then Exit
    else if |items| < 2 || !items[1].Chars? then Got(None, items[1..])
    else Got(Some(items[1].s), items[2..])
  }

  function ReadListens(items: seq<Item>, n: nat): (r: Got<seq<Listen>>)
    decreases n
  {
    if n == 0 then Got([], items)
    else if items == [] || !items[0].ListenItem? then Fail
    else if items[0].l.fd == -1 then
      match ReadListens(items[1..], n - 1)
      case Exit => Exit
      case Fail => Fail
      case Got(ls, rest) => Got([items[0].l] + ls, rest)
    else if |items| < 2 || !items[1].FdItem? || items[1].fd == -1 then Fail
    else
      match ReadListens(items[2..], n - 1)
      case Exit => Exit
      case Fail => Fail
      case Got(ls, rest) => Got([items[0].l.(fd := items[1].fd)] + ls, rest)
  }

  function ReadRules(items: seq<Item>, n: nat): (r: Got<seq<RuleEntry>>)
    decreases n
  {
    if n == 0 then Got([], items)
    else if items == [] || !items[0].RuleItem? then Fail
    else
      match ReadRules(items[1..], n - 1)
      case Exit => Exit
      case Fail => Fail
      case Got(rs, rest) => Got([items[0].r] + rs, rest)
  }

  function ReadDevices(items: seq<Item>, n: nat): (r: Got<seq<Device>>)
    decreases n
  {
    if n == 0 then Got([], items)
    else if items == [] || !items[0].DeviceItem? then Fail
    else
      match ReadDevices(items[1..], n - 1)
      case Exit => Exit
      case Fail => Fail
      case Got(ds, rest) => Got([items[0].d] + ds, rest)
  }

  function ReadGroups(items: seq<Item>, n: nat): (r: Got<seq<XAddr>>)
    decreases n
  {
    if n == 0 then Got([], items)
    else if items == [] || !items[0].GroupItem? then Fail
    else
      match ReadGroups(items[1..], n - 1)
      case Exit => Exit
      case Fail => Fail
      case Got(gs, rest) => Got([items[0].g] + gs, rest)
  }

  const MAX_LISTENERS := 8192
  const MAX_ENTRIES := 1024 * 1024

  /** The four lists. */
  function ReceiveLists(c: Conf, items: seq<Item>): Got<Conf> {
    if items == [] || !items[0].Count? || items[0].n == 0 || items[0].n > MAX_LISTENERS then Fail
    else
      match ReadListens(items[1..], items[0].n)
      case Exit => Exit
      case Fail => Fail
      case Got(listens, items1) =>
        if items1 == [] || !items1[0].Count? || items1[0].n > MAX_ENTRIES then Fail
        else
          match ReadRules(items1[1..], items1[0].n)
          case Exit => Exit
          case Fail => Fail
          case Got(rules, items2) =>
            if items2 == [] || !items2[0].Count? || items2[0].n > MAX_ENTRIES then Fail
            else
              match ReadDevices(items2[1..], items2[0].n)
              case Exit => Exit
              case Fail => Fail
              case Got(devices, items3) =>
                if items3 == [] || !items3[0].Count? || items3[0].n > MAX_ENTRIES then Fail
                else
                  match ReadGroups(items3[1..], items3[0].n)
                  case Exit => Exit
                  case Fail => Fail
                  case Got(groups, rest) =>
                    Got(c.(listens := listens, rules := rules, devices := devices, groups := groups), rest)
  }

  /** What comes before the lists. */
  function ReceiveScalars(items: seq<Item>): Got<Conf> {
    match ReadString(items, true)
    case Exit => Exit
    case Fail => Fail
    case Got(logFile, items1) =>
      match ReadString(items1, true)
      case Exit => Exit
      case Fail => Fail
      case Got(logSocket, items2) =>
        if items2 == [] || !items2[0].Size? then Fail
        else
          match ReadString(items2[1..], false)
          case Exit => Exit
          case Fail => Fail
          case Got(pidFile, items3) =>
            if pidFile.None? || |items3| < 2 || !items3[0].Mask? || !items3[1].Opts? then Fail
            else Got(Conf(logFile, logSocket, items2[0].n, pidFile, items3[0].mask, items3[1].opts, [], [], [], []), items3[2..])
  }

  /** recv_config, as far as the new configuration is complete. */
  function Received(items: seq<Item>): Got<Conf> {
    match ReceiveScalars(items)
    case Exit => Exit
    case Fail => Fail
    case Got(c, rest) => ReceiveLists(c, rest)
  }

  // ----- What goes through -----

  predicate StringFits(s: Option<string>, nullOk: bool) {
    if s.None? then nullOk else 0 < |s.value| < 8192
  }

  /** The configurations that come through the exchange. */
  predicate Transferable(c: Conf) {
    && StringFits(c.logFile, true) && StringFits(c.logSocket, true) && StringFits(c.pidFile, false)
    && 0 < |c.listens| <= 8192 && |c.rules| <= 0x10_0000 && |c.devices| <= 0x10_0000 && |c.groups| <= 0x10_0000
  }

  lemma StringThrough(s: Option<string>, nullOk: bool, rest: seq<Item>)
    requires StringSent(s, nullOk)
    ensures if StringFits(s, nullOk) then ReadString(StringItems(s) + rest, nullOk) == Got(s, rest)
      else ReadString(StringItems(s) + rest, nullOk) == Exit
  {
    var items := StringItems(s) + rest;
    if s.Some? {
      assert items[1] == Chars(s.value) && items[2..] == rest;
    } else {
      assert items[1..] == rest;
    }
  }

  lemma OneListen(l: Listen, more: seq<Item>, n: nat)
    ensures ReadListens(OneListenItems(l) + more, n + 1) == match ReadListens(more, n)
      case Exit => Exit
      case Fail => Fail
      case Got(ls, rest) => Got([l] + ls, rest)
  {
    var items := OneListenItems(l) + more;
    if l.fd == -1 {
      assert items[1..] == more;
    } else {
      assert items[2..] == more && l.(fd := l.fd) == l;
    }
  }

  function OneListenItems(l: Listen): seq<Item> {
    [ListenItem(l)] + (if l.fd != -1 then [FdItem(l.fd)] else [])
  }

  lemma Unfolded(ls: seq<Listen>, rest: seq<Item>)
    requires ls != []
    ensures ListenItems(ls) + rest == OneListenItems(ls[0]) + (ListenItems(ls[1..]) + rest)
  {
    assert ListenItems(ls) == OneListenItems(ls[0]) + ListenItems(ls[1..]);
  }

  lemma {:induction false} ListensThrough(ls: seq<Listen>, rest: seq<Item>)
    ensures ReadListens(ListenItems(ls) + rest, |ls|) == Got(ls, rest)
  {
    if ls == [] {
      assert ListenItems(ls) + rest == rest;
    } else {
      hide ReadListens, ListenItems, OneListenItems;
      ListensThrough(ls[1..], rest);
      OneListen(ls[0], ListenItems(ls[1..]) + rest, |ls| - 1);
      Unfolded(ls, rest);
      assert [ls[0]] + ls[1..] == ls;
    }
  }

  lemma {:induction false} RulesThrough(rs: seq<RuleEntry>, rest: seq<Item>)
    ensures ReadRules(RuleItems(rs) + rest, |rs|) == Got(rs, rest)
  {
    if rs == [] {
      assert RuleItems(rs) + rest == rest;
    } else {
      RulesThrough(rs[1..], rest);
      assert (RuleItems(rs) + rest)[1..] == RuleItems(rs[1..]) + rest && [rs[0]] + rs[1..] == rs;
    }
  }

  lemma {:induction false} DevicesThrough(ds: seq<Device>, rest: seq<Item>)
    ensures ReadDevices(DeviceItems(ds) + rest, |ds|) == Got(ds, rest)
  {
    if ds == [] {
      assert DeviceItems(ds) + rest == rest;
    } else {
      DevicesThrough(ds[1..], rest);
      assert (DeviceItems(ds) + rest)[1..] == DeviceItems(ds[1..]) + rest && [ds[0]] + ds[1..] == ds;
    }
  }

  lemma {:induction false} GroupsThrough(gs: seq<XAddr>, rest: seq<Item>)
    ensures ReadGroups(GroupItems(gs) + rest, |gs|) == Got(gs, rest)
  {
    if gs == [] {
      assert GroupItems(gs) + rest == rest;
    } else {
      GroupsThrough(gs[1..], rest);
      assert (GroupItems(gs) + rest)[1..] == GroupItems(gs[1..]) + rest && [gs[0]] + gs[1..] == gs;
    }
  }

  lemma CountFirst(n: nat, items: seq<Item>)
    ensures ([Count(n)] + items)[0] == Count(n) && ([Count(n)] + items)[1..] == items
  {
  }

  predicate ListsFit(c: Conf) {
    0 < |c.listens| <= MAX_LISTENERS && |c.rules| <= MAX_ENTRIES && |c.devices| <= MAX_ENTRIES && |c.groups| <= MAX_ENTRIES
  }

  lemma ListsThrough(b: Conf, c: Conf)
    ensures ReceiveLists(b, ListItems(c)) ==
      if ListsFit(c) then Got(b.(listens := c.listens, rules := c.rules, devices := c.devices, groups := c.groups), []) else Fail
  {
    hide ReadListens, ReadRules, ReadDevices, ReadGroups, ListenItems, RuleItems, DeviceItems, GroupItems;
    var i4 := GroupItems(c.groups);
    var i3 := [Count(|c.groups|)] + i4;
    var i2 := [Count(|c.devices|)] + (DeviceItems(c.devices) + i3);
    var i1 := [Count(|c.rules|)] + (RuleItems(c.rules) + i2);
    assert ListItems(c) == [Count(|c.listens|)] + (ListenItems(c.listens) + i1);
    CountFirst(|c.listens|, ListenItems(c.listens) + i1);
    CountFirst(|c.rules|, RuleItems(c.rules) + i2);
    CountFirst(|c.devices|, DeviceItems(c.devices) + i3);
    CountFirst(|c.groups|, i4);
    ListensThrough(c.listens, i1);
    RulesThrough(c.rules, i2);
    DevicesThrough(c.devices, i3);
    GroupsThrough(c.groups, []);
    assert i4 + [] == i4;
  }

  lemma EndOfItems(nullOk: bool)
    ensures ReadString([], nullOk) == Exit
  {
  }

  /** What is received of a configuration that was sent is that configuration, with every
      list in its order; and it is received exactly when it is transferable. */
  lemma ReceivedSent(c: Conf)
    ensures if Transferable(c) then Received(SentItems(c)) == Got(c, []) else !Received(SentItems(c)).Got?
  {
    hide ReadString, ReceiveLists, ListItems, StringItems;
    EndOfItems(true);
    EndOfItems(false);
    var i3 := [Mask(c.storeMask), Opts(c.opts)] + ListItems(c);
    var i2 := [Size(c.bufsiz)] + AfterSize(c);
    if StringSent(c.logFile, true) {
      StringThrough(c.logFile, true, AfterLogFile(c));
      if StringSent(c.logSocket, true) {
        StringThrough(c.logSocket, true, i2);
        assert i2[1..] == AfterSize(c);
        if StringSent(c.pidFile, false) {
          StringThrough(c.pidFile, false, i3);
          assert i3[2..] == ListItems(c);
          ListsThrough(Conf(c.logFile, c.logSocket, c.bufsiz, c.pidFile, c.storeMask, c.opts, [], [], [], []), c);
        }
      }
    }
  }

  function Prefixed<T>(done: seq<T>, g: Got<seq<T>>): Got<seq<T>> {
    match g
    case Exit => Exit
    case Fail => Fail
    case Got(more, rest) => Got(done + more, rest)
  }

  lemma PrefixedNone<T>(g: Got<seq<T>>)
    ensures Prefixed([], g) == g
  {
    if g.Got? {
      assert [] + g.value == g.value;
    }
  }

  lemma PrefixedAll<T>(done: seq<T>, rest: seq<Item>)
    ensures Prefixed(done, Got([], rest)) == Got(done, rest)
  {
    assert done + [] == done;
  }

  lemma PrefixedOnce<T>(done: seq<T>, x: T, g: Got<seq<T>>)
    ensures Prefixed(done + [x], g) == match g
      case Exit => Exit
      case Fail => Fail
      case Got(more, rest) => Got(done + ([x] + more), rest)
  {
    if g.Got? {
      assert done + [x] + g.value == done + ([x] + g.value);
    }
  }

  // ----- The processes -----

  class Channel {
    var items: seq<Item>

    constructor ()
      ensures items == []
    {
      items := [];
    }

    method Write(more: seq<Item>)
      modifies this
      ensures items == old(items) + more
    {
      items := items + more;
    }

    /** privsep_read_string . */
    method NextString(nullOk: bool) returns (g: Got<Option<string>>)
      modifies this
      ensures g == ReadString(old(items), nullOk)
      ensures g.Got? ==> items == g.rest
    {
      if items == [] || !items[0].Length? {
        return Exit;
      }
      var len := items[0].n;
      if nullOk && len == 0 {
        items := items[1..];
        return Got(None, items);
      }
      if len == 0 || len >= 8192 {
        return Exit;
      }
      items := items[1..];
      if items == [] || !items[0].Chars? {
        return Got(None, items);
      }
      var s := items[0].s;
      items := items[1..];
      g := Got(Some(s), items);
    }

    /** The count before a list. */
    method NextCount(least: nat, most: nat) returns (n: Option<nat>)
      modifies this
      ensures if old(items) == [] || !old(items)[0].Count? || !(least <= old(items)[0].n <= most) then n == None
        else n == Some(old(items)[0].n) && items == old(items)[1..]
    {
      if items == [] || !items[0].Count? || !(least <= items[0].n <= most) {
        return None;
      }
      n := Some(items[0].n);
      items := items[1..];
    }
  }

  /** How an exchange ends for the process that receives. */
  datatype Outcome = Exited | Failed | Done

  class Config {
    var logFile: Option<string>
    var logSocket: Option<string>
    var bufsiz: nat
    var pidFile: Option<string>
    var storeMask: Fields
    var opts: set<Opt>
    var listens: seq<Listen>
    var rules: seq<RuleEntry>
    var devices: seq<Device>
    var groups: seq<XAddr>

    function Value(): Conf
      reads this
    {
      Conf(logFile, logSocket, bufsiz, pidFile, storeMask, opts, listens, rules, devices, groups)
    }

    constructor (c: Conf)
      ensures Value() == c
    {
      logFile, logSocket, bufsiz, pidFile := c.logFile, c.logSocket, c.bufsiz, c.pidFile;
      storeMask, opts := c.storeMask, c.opts;
      listens, rules, devices, groups := c.listens, c.rules, c.devices, c.groups;
    }

    /** replace_conf: the old lists are freed entry by entry, the scalars copied, and the new
        lists moved over, from their last entries to the front. */
    method Replace(newconf: Config)
      requires newconf != this
      modifies this, newconf
      ensures Value() == old(newconf.Value()) && newconf.Value() == NO_CONF
    {
      Clear();
      logFile, logSocket, bufsiz, pidFile := newconf.logFile, newconf.logSocket, newconf.bufsiz, newconf.pidFile;
      storeMask, opts := newconf.storeMask, newconf.opts;
      MoveListens(newconf);
      MoveOthers(newconf);
      newconf.logFile, newconf.logSocket, newconf.bufsiz, newconf.pidFile := None, None, 0, None;
      newconf.storeMask, newconf.opts := {}, {};
    }

    method Clear()
      modifies this`listens, this`rules, this`devices, this`groups
      ensures listens == [] && rules == [] && devices == [] && groups == []
    {
      while listens != [] {
        listens := listens[1..];
      }
      while rules != []
        invariant listens == []
      {
        rules := rules[1..];
      }
      while devices != []
        invariant listens == [] && rules == []
      {
        devices := devices[1..];
      }
      while groups != []
        invariant listens == [] && rules == [] && devices == []
      {
        groups := groups[1..];
      }
    }

    method MoveListens(newconf: Config)
      requires newconf != this && listens == [] && rules == []
      modifies this`listens, this`rules, newconf`listens, newconf`rules
      ensures listens == old(newconf.listens) && newconf.listens == []
      ensures rules == old(newconf.rules) && newconf.rules == []
    {
      while newconf.listens != []
        invariant newconf.listens + listens == old(newconf.listens)
        invariant newconf.rules == old(newconf.rules) && rules == []
        decreases |newconf.listens|
      {
        var n := |newconf.listens| - 1;
        var la := newconf.listens[n];
        newconf.listens := newconf.listens[..n];
        listens := [la] + listens;
      }
      while newconf.rules != []
        invariant newconf.rules + rules == old(newconf.rules)
        invariant listens == old(newconf.listens) && newconf.listens == []
        decreases |newconf.rules|
      {
        var n := |newconf.rules| - 1;
        var fr := newconf.rules[n];
        newconf.rules := newconf.rules[..n];
        rules := [fr] + rules;
      }
    }

    method MoveOthers(newconf: Config)
      requires newconf != this && devices == [] && groups == []
      modifies this`devices, this`groups, newconf`devices, newconf`groups
      ensures devices == old(newconf.devices) && newconf.devices == []
      ensures groups == old(newconf.groups) && newconf.groups == []
    {
      while newconf.devices != []
        invariant newconf.devices + devices == old(newconf.devices)
        invariant newconf.groups == old(newconf.groups) && groups == []
        decreases |newconf.devices|
      {
        var n := |newconf.devices| - 1;
        var ad := newconf.devices[n];
        newconf.devices := newconf.devices[..n];
        devices := [ad] + devices;
      }
      while newconf.groups != []
        invariant newconf.groups + groups == old(newconf.groups)
        invariant devices == old(newconf.devices) && newconf.devices == []
        decreases |newconf.groups|
      {
        var n := |newconf.groups| - 1;
        var jg := newconf.groups[n];
        newconf.groups := newconf.groups[..n];
        groups := [jg] + groups;
      }
    }

    /** The loops of send_config over the four lists. */
    method SendLists(ch: Channel)
      modifies ch
      ensures ch.items == old(ch.items) + ListItems(Value())
    {
      hide ListenItems, RuleItems, DeviceItems, GroupItems;
      ghost var start := ch.items;
      ch.Write([Count(|listens|)]);
      SendListens(ch);
      ch.Write([Count(|rules|)]);
      SendRules(ch);
      ch.Write([Count(|devices|)]);
      SendDevices(ch);
      ch.Write([Count(|groups|)]);
      SendGroups(ch);
      assert ch.items == start + ListItems(Value());
    }

    method SendListens(ch: Channel)
      modifies ch
      ensures ch.items == old(ch.items) + ListenItems(listens)
    {
      var rest := listens;
      while rest != []
        invariant ch.items + ListenItems(rest) == old(ch.items) + ListenItems(listens)
        decreases |rest|
      {
        ghost var before := ch.items;
        ch.Write([ListenItem(rest[0])]);
        if rest[0].fd != -1 {
          ch.Write([FdItem(rest[0].fd)]);
        }
        assert ch.items + ListenItems(rest[1..]) == before + ListenItems(rest);
        rest := rest[1..];
      }
    }

    method SendRules(ch: Channel)
      modifies ch
      ensures ch.items == old(ch.items) + RuleItems(rules)
    {
      var rest := rules;
      while rest != []
        invariant ch.items + RuleItems(rest) == old(ch.items) + RuleItems(rules)
        decreases |rest|
      {
        ghost var before := ch.items;
        ch.Write([RuleItem(rest[0])]);
        assert ch.items + RuleItems(rest[1..]) == before + RuleItems(rest);
        rest := rest[1..];
      }
    }

    method SendDevices(ch: Channel)
      modifies ch
      ensures ch.items == old(ch.items) + DeviceItems(devices)
    {
      var rest := devices;
      while rest != []
        invariant ch.items + DeviceItems(rest) == old(ch.items) + DeviceItems(devices)
        decreases |rest|
      {
        ghost var before := ch.items;
        ch.Write([DeviceItem(rest[0])]);
        assert ch.items + DeviceItems(rest[1..]) == before + DeviceItems(rest);
        rest := rest[1..];
      }
    }

    method SendGroups(ch: Channel)
      modifies ch
      ensures ch.items == old(ch.items) + GroupItems(groups)
    {
      var rest := groups;
      while rest != []
        invariant ch.items + GroupItems(rest) == old(ch.items) + GroupItems(groups)
        decreases |rest|
      {
        ghost var before := ch.items;
        ch.Write([GroupItem(rest[0])]);
        assert ch.items + GroupItems(rest[1..]) == before + GroupItems(rest);
        rest := rest[1..];
      }
    }

    /** send_config, in three parts. */
    method Send(ch: Channel) returns (ok: bool)
      modifies ch
      ensures ch.items == old(ch.items) + SentItems(Value())
      ensures ok <==> StringSent(logFile, true) && StringSent(logSocket, true) && StringSent(pidFile, false)
    {
      hide StringItems, AfterLogFile;
      ghost var start := ch.items;
      if !StringSent(logFile, true) {
        return false;
      }
      ch.Write(StringItems(logFile));
      ok := SendSocket(ch);
      assert ch.items == start + (StringItems(logFile) + AfterLogFile(Value()));
    }

    method SendSocket(ch: Channel) returns (ok: bool)
      modifies ch
      ensures ch.items == old(ch.items) + AfterLogFile(Value())
      ensures ok <==> StringSent(logSocket, true) && StringSent(pidFile, false)
    {
      hide StringItems, AfterSize;
      ghost var start := ch.items;
      if !StringSent(logSocket, true) {
        return false;
      }
      ch.Write(StringItems(logSocket));
      ch.Write([Size(bufsiz)]);
      ok := SendRest(ch);
      assert ch.items == start + (StringItems(logSocket) + ([Size(bufsiz)] + AfterSize(Value())));
    }

    method SendRest(ch: Channel) returns (ok: bool)
      modifies ch
      ensures ch.items == old(ch.items) + AfterSize(Value())
      ensures ok <==> StringSent(pidFile, false)
    {
      hide StringItems, ListItems;
      ghost var start := ch.items;
      if !StringSent(pidFile, false) {
        return false;
      }
      ch.Write(StringItems(pidFile));
      ch.Write([Mask(storeMask)]);
      ch.Write([Opts(opts)]);
      SendLists(ch);
      assert [Mask(storeMask)] + ([Opts(opts)] + ListItems(Value())) == [Mask(storeMask), Opts(opts)] + ListItems(Value());
      ok := true;
    }

    method ReceiveListens(ch: Channel, n: nat) returns (ok: bool)
      requires listens == []
      modifies ch, this`listens
      ensures ReadListens(old(ch.items), n) == if ok then Got(listens, ch.items) else Fail
    {
      var i := 0;
      PrefixedNone(ReadListens(ch.items, n));
      while i < n
        invariant 0 <= i <= n
        invariant ReadListens(old(ch.items), n) == Prefixed(listens, ReadListens(ch.items, n - i))
      {
        if ch.items == [] || !ch.items[0].ListenItem? {
          return false;
        }
        var la := ch.items[0].l;
        PrefixedOnce(listens, la, ReadListens(ch.items[1..], n - i - 1));
        if la.fd == -1 {
          ch.items := ch.items[1..];
        } else {
          if |ch.items| < 2 || !ch.items[1].FdItem? || ch.items[1].fd == -1 {
            return false;
          }
          la := la.(fd := ch.items[1].fd);
          PrefixedOnce(listens, la, ReadListens(ch.items[2..], n - i - 1));
          ch.items := ch.items[2..];
        }
        listens := listens + [la];
        i := i + 1;
      }
      PrefixedAll(listens, ch.items);
      ok := true;
    }

    method ReceiveRules(ch: Channel, n: nat) returns (ok: bool)
      requires rules == []
      modifies ch, this`rules
      ensures ReadRules(old(ch.items), n) == if ok then Got(rules, ch.items) else Fail
    {
      var i := 0;
      PrefixedNone(ReadRules(ch.items, n));
      while i < n
        invariant 0 <= i <= n
        invariant ReadRules(old(ch.items), n) == Prefixed(rules, ReadRules(ch.items, n - i))
      {
        if ch.items == [] || !ch.items[0].RuleItem? {
          return false;
        }
        PrefixedOnce(rules, ch.items[0].r, ReadRules(ch.items[1..], n - i - 1));
        rules := rules + [ch.items[0].r];
        ch.items := ch.items[1..];
        i := i + 1;
      }
      PrefixedAll(rules, ch.items);
      ok := true;
    }

    method ReceiveDevices(ch: Channel, n: nat) returns (ok: bool)
      requires devices == []
      modifies ch, this`devices
      ensures ReadDevices(old(ch.items), n) == if ok then Got(devices, ch.items) else Fail
    {
      var i := 0;
      PrefixedNone(ReadDevices(ch.items, n));
      while i < n
        invariant 0 <= i <= n
        invariant ReadDevices(old(ch.items), n) == Prefixed(devices, ReadDevices(ch.items, n - i))
      {
        if ch.items == [] || !ch.items[0].DeviceItem? {
          return false;
        }
        PrefixedOnce(devices, ch.items[0].d, ReadDevices(ch.items[1..], n - i - 1));
        devices := devices + [ch.items[0].d];
        ch.items := ch.items[1..];
        i := i + 1;
      }
      PrefixedAll(devices, ch.items);
      ok := true;
    }

    method ReceiveGroups(ch: Channel, n: nat) returns (ok: bool)
      requires groups == []
      modifies ch, this`groups
      ensures ReadGroups(old(ch.items), n) == if ok then Got(groups, ch.items) else Fail
    {
      var i := 0;
      PrefixedNone(ReadGroups(ch.items, n));
      while i < n
        invariant 0 <= i <= n
        invariant ReadGroups(old(ch.items), n) == Prefixed(groups, ReadGroups(ch.items, n - i))
      {
        if ch.items == [] || !ch.items[0].GroupItem? {
          return false;
        }
        PrefixedOnce(groups, ch.items[0].g, ReadGroups(ch.items[1..], n - i - 1));
        groups := groups + [ch.items[0].g];
        ch.items := ch.items[1..];
        i := i + 1;
      }
      PrefixedAll(groups, ch.items);
      ok := true;
    }

    /** The first half of recv_config: what comes before the lists. */
    method ReadScalars(ch: Channel) returns (r: Outcome)
      requires Value() == NO_CONF
      modifies this`logFile, this`logSocket, this`bufsiz, this`pidFile, this`storeMask, this`opts, ch
      ensures match ReceiveScalars(old(ch.items))
        case Exit => r == Exited
        case Fail => r == Failed
        case Got(c, rest) => r == Done && Value() == c && ch.items == rest
    {
      hide ReadString;
      var file := ch.NextString(true);
      if !file.Got? {
        return if file.Exit? then Exited else Failed;
      }
      var socket := ch.NextString(true);
      if !socket.Got? {
        return if socket.Exit? then Exited else Failed;
      }
      if ch.items == [] || !ch.items[0].Size? {
        return Failed;
      }
      logFile, logSocket, bufsiz := file.value, socket.value, ch.items[0].n;
      ch.items := ch.items[1..];
      var pid := ch.NextString(false);
      if !pid.Got? {
        return if pid.Exit? then Exited else Failed;
      }
      if pid.value.None? || |ch.items| < 2 || !ch.items[0].Mask? || !ch.items[1].Opts? {
        return Failed;
      }
      pidFile, storeMask, opts := pid.value, ch.items[0].mask, ch.items[1].opts;
      ch.items := ch.items[2..];
      r := Done;
    }

    /** The second half of recv_config: the four lists. */
    method ReadLists(ch: Channel) returns (ok: bool)
      requires listens == [] && rules == [] && devices == [] && groups == []
      modifies this, ch
      ensures ReceiveLists(old(Value()), old(ch.items)) == if ok then Got(Value(), ch.items) else Fail
    {
      hide ReadListens, ReadRules, ReadDevices, ReadGroups;
      var n := ch.NextCount(1, MAX_LISTENERS);
      if n.None? {
        return false;
      }
      ok := ReceiveListens(ch, n.value);
      if !ok {
        return;
      }
      n := ch.NextCount(0, MAX_ENTRIES);
      if n.None? {
        return false;
      }
      ok := ReceiveRules(ch, n.value);
      if !ok {
        return;
      }
      n := ch.NextCount(0, MAX_ENTRIES);
      if n.None? {
        return false;
      }
      ok := ReceiveDevices(ch, n.value);
      if !ok {
        return;
      }
      n := ch.NextCount(0, MAX_ENTRIES);
      if n.None? {
        return false;
      }
      ok := ReceiveGroups(ch, n.value);
    }

    /** recv_config: the configuration is replaced by what comes over the channel, or stays. */
    method Receive(ch: Channel) returns (r: Outcome)
      modifies this, ch
      ensures match Received(old(ch.items))
        case Exit => r == Exited && Value() == old(Value())
        case Fail => r == Failed && Value() == old(Value())
        case Got(c, rest) => r == Done && Value() == c && ch.items == rest
    {
      hide ReceiveLists, ReceiveScalars;
      var newconf := new Config(NO_CONF);
      r := newconf.ReadScalars(ch);
      if r != Done {
        return;
      }
      var ok := newconf.ReadLists(ch);
      if !ok {
        return Failed;
      }
      Replace(newconf);
    }
  }
}
