/** Whole runs of the peer table: packets that arrive, packets that are processed, and
    configurations that change (receive_packet, process_packet and the main loop of
    flowd/flowd.c on flowd/peer.c). */
module PeersRun {
  import opened Addr
  import opened Sequences
  import opened Bytes
  import C = Nf9Collect
  import H = Nf9Handlers
  import Hazards = Nf9Hazards
  import Nf9History
  import Lru
  import opened Peers
  import opened PeerState
  import SplayTree
  import TailQueue

  /** A packet arrives from an address; a NetFlow v9 packet that waited is processed; one of
      a version with fixed records is, with that many records; new devices are in force. */
  datatype Event =
    | Arrive(addr: HostAddr)
    | Packet(addr: HostAddr, pkt: seq<u8>, recvSec: u32, recvUsec: u32)
    | Fixed(addr: HostAddr, flows: nat, version: nat)
    | Reconfigure(allowed: seq<Allowed>)

  /** What the table knows of a sender, and the templates created for it so far. */
  datatype PeerPast = PeerPast(state: C.State, uses: seq<Nf9History.TemplateUse>)

  /** The devices that the configuration allows, the uses and removals of senders so far, and
      the senders that are known. */
  datatype Past = Past(allowed: seq<Allowed>, ops: seq<Lru.Op<HostAddr>>, known: map<HostAddr, PeerPast>)

  const NEW_PEER := PeerPast(C.State([], 0, 0), [])

  ghost function UseIf(addr: HostAddr, used: bool): seq<Lru.Op<HostAddr>> {
    if used then [Lru.Use(addr)] else []
  }

  /** The removals of the senders that are no longer allowed. */
  ghost function Drops(allowed: seq<Allowed>, s: seq<HostAddr>): seq<Lru.Op<HostAddr>> {
    if s == [] then []
    else
      var n := |s| - 1;
      Drops(allowed, s[..n]) + if IsAllowed(allowed, s[n]) then [] else [Lru.Drop(s[n])]
  }

  ghost predicate LimitsOk(lim: C.Limits) {
    lim.maxSources > 0 && lim.maxTemplates > 0
  }

  /** Every known sender's templates are in order, and its lists follow its history. */
  ghost predicate KnownOk(known: map<HostAddr, PeerPast>, lim: C.Limits)
    requires LimitsOk(lim)
  {
    forall a <- known :: PastOk(known[a], lim)
  }

  ghost predicate PastOk(p: PeerPast, lim: C.Limits)
    requires LimitsOk(lim)
  {
    C.StoredOk(p.state.sources, lim) && Nf9History.Follows(p.state.sources, p.uses, lim.maxSources, lim.maxTemplates)
  }

  ghost function Among(known: map<HostAddr, PeerPast>, s: seq<HostAddr>): map<HostAddr, PeerPast> {
    map a | a in known && a in s :: known[a]
  }

  /** What a packet makes of a sender's past; None if the program does not leave it in order. */
  ghost function PastAfter(p: PeerPast, lim: C.Limits, addr: HostAddr, pkt: seq<u8>, recvSec: u32, recvUsec: u32): (r: Option<PeerPast>)
    requires LimitsOk(lim) && PastOk(p, lim)
    ensures r.Some? ==> PastOk(r.value, lim)
  {
    Nf9History.PacketFollows(p.state, lim, pkt, recvSec, recvUsec, addr, p.uses);
    match C.ReadPacket(p.state, lim, pkt, recvSec, recvUsec, addr)
    case Stuck(_) => None
    case Run(st, _, _) => Some(PeerPast(st, p.uses + Nf9History.PacketUsed(p.state, lim, pkt, recvSec, recvUsec, addr)))
  }

  /** A packet read to its end, with records in it. */
  ghost predicate Counts(p: PeerPast, lim: C.Limits, addr: HostAddr, pkt: seq<u8>, recvSec: u32, recvUsec: u32)
    requires LimitsOk(lim) && PastOk(p, lim)
  {
    var r := C.ReadPacket(p.state, lim, pkt, recvSec, recvUsec, addr);
    r.Run? && r.finished && r.flows != []
  }

  /** The table after any events, as long as no packet stops the program. */
  ghost function History(cap: nat, lim: C.Limits, allowed: seq<Allowed>, events: seq<Event>): (r: Option<Past>)
    requires cap > 0 && LimitsOk(lim)
    ensures r.Some? ==> KnownOk(r.value.known, lim)
  {
    if events == [] then Some(Past(allowed, [], map[]))
    else
      match History(cap, lim, allowed, events[..|events| - 1])
      case None => None
      case Some(p) => Next(cap, lim, p, events[|events| - 1])
  }

  ghost function Next(cap: nat, lim: C.Limits, p: Past, e: Event): (r: Option<Past>)
    requires cap > 0 && LimitsOk(lim) && KnownOk(p.known, lim)
    ensures r.Some? ==> KnownOk(r.value.known, lim)
  {
    match e
    case Arrive(addr) => Some(Arrived(cap, lim, p, addr))
    case Packet(addr, pkt, recvSec, recvUsec) =>
      if addr in p.known then Processed(lim, p, addr, pkt, recvSec, recvUsec) else Some(p)
    case Fixed(addr, flows, version) => Some(p.(ops := p.ops + UseIf(addr, addr in Lru.Run(cap, p.ops) && flows > 0)))
    case Reconfigure(allowed) =>
      var ops := p.ops + Drops(allowed, Lru.Run(cap, p.ops));
      Some(Past(allowed, ops, Among(p.known, Lru.Run(cap, ops))))
  }

  ghost function Arrived(cap: nat, lim: C.Limits, p: Past, addr: HostAddr): (r: Past)
    requires cap > 0 && LimitsOk(lim) && KnownOk(p.known, lim)
    ensures KnownOk(r.known, lim)
  {
    var added := addr !in Lru.Run(cap, p.ops) && IsAllowed(p.allowed, addr);
    var ops := p.ops + UseIf(addr, added);
    NewOk(lim);
    Past(p.allowed, ops, Among(if added then p.known[addr := NEW_PEER] else p.known, Lru.Run(cap, ops)))
  }

  ghost function Processed(lim: C.Limits, p: Past, addr: HostAddr, pkt: seq<u8>, recvSec: u32, recvUsec: u32): (r: Option<Past>)
    requires LimitsOk(lim) && KnownOk(p.known, lim) && addr in p.known
    ensures r.Some? ==> KnownOk(r.value.known, lim)
  {
    match PastAfter(p.known[addr], lim, addr, pkt, recvSec, recvUsec)
    case None => None
    case Some(past) =>
      var ops := p.ops + UseIf(addr, Counts(p.known[addr], lim, addr, pkt, recvSec, recvUsec));
      Some(Past(p.allowed, ops, p.known[addr := past]))
  }

  lemma NewOk(lim: C.Limits)
    requires LimitsOk(lim)
    ensures PastOk(NEW_PEER, lim)
  {
    Nf9History.NothingUsed(lim.maxSources, lim.maxTemplates);
  }

  lemma OneMore(cap: nat, ops: seq<Lru.Op<HostAddr>>, op: Lru.Op<HostAddr>)
    requires cap > 0
    ensures Lru.Run(cap, ops + [op]) == Lru.Step(cap, Lru.Run(cap, ops), op)
    ensures forall x <- Lru.Run(cap, ops + [op]) :: x in Lru.Run(cap, ops) || op == Lru.Use(x)
  {
    assert (ops + [op])[..|ops|] == ops;
    var s := Lru.Run(cap, ops);
    forall x | x in Lru.Step(cap, s, op) ensures x in s || op == Lru.Use(x) {
      Lru.WithoutMember(s, op.k, x);
    }
  }

  lemma UseRun(cap: nat, ops: seq<Lru.Op<HostAddr>>, addr: HostAddr, used: bool)
    requires cap > 0
    ensures var s := Lru.Run(cap, ops); var t := Lru.Run(cap, ops + UseIf(addr, used));
      && t == (if used then Lru.Step(cap, s, Lru.Use(addr)) else s)
      && forall x <- t :: x in s || (x == addr && used)
  {
    hide Lru.Run, Lru.Step;
    OneMore(cap, ops, Lru.Use(addr));
    assert ops + [] == ops;
  }

  // ----- Scrubbing -----

  ghost function Survivors(allowed: seq<Allowed>, s: seq<HostAddr>): seq<HostAddr> {
    if s == [] then [] else (if IsAllowed(allowed, s[0]) then [s[0]] else []) + Survivors(allowed, s[1..])
  }

  lemma {:induction false} SurvivorsAppend(allowed: seq<Allowed>, s: seq<HostAddr>, x: HostAddr)
    ensures Survivors(allowed, s + [x]) == Survivors(allowed, s) + if IsAllowed(allowed, x) then [x] else []
  {
    hide IsAllowed;
    var t := s + [x];
    var last := if IsAllowed(allowed, x) then [x] else [];
    if s == [] {
      assert t[0] == x && t[1..] == [];
      assert Survivors(allowed, t[1..]) == [];
    } else {
      SurvivorsAppend(allowed, s[1..], x);
      var first := if IsAllowed(allowed, s[0]) then [s[0]] else [];
      assert t[0] == s[0] && t[1..] == s[1..] + [x];
      assert first + (Survivors(allowed, s[1..]) + last) == first + Survivors(allowed, s[1..]) + last;
    }
  }

  lemma {:induction false} KeptSurvive(allowed: seq<Allowed>, s: seq<Peer>)
    ensures Addrs(Kept(allowed, s)) == Survivors(allowed, Addrs(s))
  {
    hide IsAllowed;
    if s != [] {
      var n := |s| - 1;
      KeptSurvive(allowed, s[..n]);
      SurvivorsAppend(allowed, Addrs(s[..n]), s[n].from);
      assert Addrs(s) == Addrs(s[..n]) + [s[n].from];
    }
  }

  lemma {:induction false} SurvivorsWithout(allowed: seq<Allowed>, s: seq<HostAddr>, k: HostAddr)
    requires !IsAllowed(allowed, k)
    ensures Survivors(allowed, Lru.Without(s, k)) == Survivors(allowed, s)
  {
    hide IsAllowed;
    if s != [] {
      SurvivorsWithout(allowed, s[1..], k);
      if s[0] != k {
        assert Lru.Without(s, k)[1..] == Lru.Without(s[1..], k);
      }
    }
  }

  lemma {:induction false} AllSurvive(allowed: seq<Allowed>, s: seq<HostAddr>)
    requires forall x <- s :: IsAllowed(allowed, x)
    ensures Survivors(allowed, s) == s
  {
    hide IsAllowed;
    if s != [] {
      assert s[0] in s && forall x <- s[1..] :: x in s;
      AllSurvive(allowed, s[1..]);
    }
  }

  /** The removals leave exactly the list that scrubbing leaves. */
  lemma {:induction false} DropsRun(cap: nat, allowed: seq<Allowed>, ops: seq<Lru.Op<HostAddr>>, s: seq<HostAddr>)
    requires cap > 0
    ensures var t := Lru.Run(cap, ops + Drops(allowed, s));
      && Survivors(allowed, t) == Survivors(allowed, Lru.Run(cap, ops))
      && forall x <- t :: x in Lru.Run(cap, ops) && (x in s ==> IsAllowed(allowed, x))
  {
    hide IsAllowed, Lru.Run, Survivors;
    if s == [] {
      assert ops + [] == ops;
    } else {
      var n := |s| - 1;
      DropsRun(cap, allowed, ops, s[..n]);
      var before := ops + Drops(allowed, s[..n]);
      var t := Lru.Run(cap, before);
      assert s == s[..n] + [s[n]];
      if IsAllowed(allowed, s[n]) {
        assert ops + Drops(allowed, s) == before;
      } else {
        assert ops + Drops(allowed, s) == before + [Lru.Drop(s[n])];
        OneMore(cap, before, Lru.Drop(s[n]));
        SurvivorsWithout(allowed, t, s[n]);
        forall x | x in Lru.Without(t, s[n]) ensures x in t && x != s[n] {
          Lru.WithoutMember(t, s[n], x);
        }
      }
    }
  }

  lemma ScrubbedRun(cap: nat, allowed: seq<Allowed>, ops: seq<Lru.Op<HostAddr>>)
    requires cap > 0
    ensures var s := Lru.Run(cap, ops); var t := Lru.Run(cap, ops + Drops(allowed, s));
      t == Survivors(allowed, s) && forall x <- t :: IsAllowed(allowed, x)
  {
    hide IsAllowed, Lru.Run, Survivors;
    var s := Lru.Run(cap, ops);
    DropsRun(cap, allowed, ops, s);
    AllSurvive(allowed, Lru.Run(cap, ops + Drops(allowed, s)));
  }

  /** The senders of the table are distinct, within the bound, strictly ordered by their
      last use, all of them allowed by the configuration in force, and those that are known. */
  ghost predicate TableOk(cap: nat, p: Past)
    requires cap > 0
  {
    var s := Lru.Run(cap, p.ops);
    && Distinct(s) && |s| <= cap && Lru.ByRecency(p.ops, s)
    && (forall x <- s :: IsAllowed(p.allowed, x)) && forall x :: x in s <==> x in p.known
  }

  lemma NextOk(cap: nat, lim: C.Limits, p: Past, e: Event)
    requires cap > 0 && LimitsOk(lim) && KnownOk(p.known, lim) && TableOk(cap, p)
    ensures Next(cap, lim, p, e).Some? ==> TableOk(cap, Next(cap, lim, p, e).value)
  {
    hide IsAllowed, Lru.Run, Lru.Step, Distinct, Lru.ByRecency, PastOk, PastAfter, Counts;
    if Next(cap, lim, p, e).Some? {
      var s := Lru.Run(cap, p.ops);
      Lru.RunInvariant(cap, Next(cap, lim, p, e).value.ops);
      match e
      case Arrive(addr) =>
        UseRun(cap, p.ops, addr, addr !in s && IsAllowed(p.allowed, addr));
        assert forall x <- Lru.Run(cap, Next(cap, lim, p, e).value.ops) :: x in s || x == addr;
      case Packet(addr, pkt, recvSec, recvUsec) =>
        if addr in p.known {
          var used := Counts(p.known[addr], lim, addr, pkt, recvSec, recvUsec);
          UseRun(cap, p.ops, addr, used);
          UseKeeps(cap, p.ops, addr, used);
        }
      case Fixed(addr, flows, _) =>
        UseRun(cap, p.ops, addr, addr in s && flows > 0);
        UseKeeps(cap, p.ops, addr, addr in s && flows > 0);
      case Reconfigure(now) =>
        ScrubbedRun(cap, now, p.ops);
        DropsRun(cap, now, p.ops, s);
    }
  }

  /** A use of a sender that is there keeps all of them. */
  lemma UseKeeps(cap: nat, ops: seq<Lru.Op<HostAddr>>, addr: HostAddr, used: bool)
    requires cap > 0 && (used ==> addr in Lru.Run(cap, ops))
    ensures forall x <- Lru.Run(cap, ops) :: x in Lru.Run(cap, ops + UseIf(addr, used))
  {
    hide Lru.Run;
    UseRun(cap, ops, addr, used);
    var s := Lru.Run(cap, ops);
    forall x | x in s ensures x in Lru.Run(cap, ops + UseIf(addr, used)) {
      Lru.WithoutMember(s, addr, x);
    }
  }

  /** The sources are strictly ordered by their last use, and so are the templates of each
      source; counters are list lengths and within their maxima. */
  ghost predicate Recent(p: PeerPast, lim: C.Limits)
    requires LimitsOk(lim)
  {
    var s := p.state.sources;
    && Lru.ByRecency(Nf9History.SourceUses(p.uses), SourceIds(s)) && |s| <= lim.maxSources
    && forall src <- s :: RecentIn(src, p.uses, lim)
  }

  ghost predicate RecentIn(src: Nf9Source, h: seq<Nf9History.TemplateUse>, lim: C.Limits)
    requires LimitsOk(lim)
  {
    && src.numTemplates == |src.templates| <= lim.maxTemplates
    && Lru.ByRecency(Nf9History.TemplateUses(h, src.id, lim.maxSources), TemplateIds(src.templates))
  }

  /** Every reachable table is in order, and so are the templates of every sender; their
      lists follow the sender's history and are strictly ordered by last use, too. */
  lemma {:induction false} TableInvariant(cap: nat, lim: C.Limits, allowed: seq<Allowed>, events: seq<Event>)
    requires cap > 0 && LimitsOk(lim) && History(cap, lim, allowed, events).Some?
    ensures var p := History(cap, lim, allowed, events).value;
      TableOk(cap, p) && KnownOk(p.known, lim) && forall a <- p.known :: Recent(p.known[a], lim)
  {
    hide Next, TableOk, Nf9History.Follows, Lru.ByRecency, C.StoredOk;
    var p := History(cap, lim, allowed, events).value;
    if events == [] {
      Empty(cap, allowed);
    } else {
      TableInvariant(cap, lim, allowed, events[..|events| - 1]);
      NextOk(cap, lim, History(cap, lim, allowed, events[..|events| - 1]).value, events[|events| - 1]);
    }
    forall a | a in p.known ensures Recent(p.known[a], lim) {
      assert PastOk(p.known[a], lim);
      Nf9History.StrictlyRecent(p.known[a].state.sources, p.known[a].uses, lim.maxSources, lim.maxTemplates);
    }
  }

  lemma Empty(cap: nat, allowed: seq<Allowed>)
    requires cap > 0
    ensures TableOk(cap, Past(allowed, [], map[])) && Lru.Run<HostAddr>(cap, []) == []
  {
  }

  ghost predicate OrderlyEvents(events: seq<Event>) {
    forall e <- events :: e.Packet? ==> Hazards.OrderlyPacket(e.pkt)
  }

  ghost predicate NoneEmpty(p: Past) {
    forall a <- p.known :: Hazards.NoneEmpty(p.known[a].state.sources)
  }

  /** Packets that are in order never stop the program, whatever came before. */
  lemma {:induction false} NeverStopped(cap: nat, lim: C.Limits, allowed: seq<Allowed>, events: seq<Event>)
    requires cap > 0 && LimitsOk(lim) && OrderlyEvents(events)
    ensures History(cap, lim, allowed, events).Some? && NoneEmpty(History(cap, lim, allowed, events).value)
  {
    hide Hazards.OrderlyPacket, Hazards.NoneEmpty, Nf9History.Follows, C.StoredOk, IsAllowed, Lru.Run;
    if events != [] {
      var n := |events| - 1;
      var e := events[n];
      assert e in events && forall x <- events[..n] :: x in events;
      NeverStopped(cap, lim, allowed, events[..n]);
      var p := History(cap, lim, allowed, events[..n]).value;
      NoTemplates();
      if e.Packet? && e.addr in p.known {
        assert PastOk(p.known[e.addr], lim);
        Hazards.OrderlyRuns(p.known[e.addr].state, lim, e.pkt, e.recvSec, e.recvUsec, e.addr);
      }
    }
  }

  lemma NoTemplates()
    ensures Hazards.NoneEmpty([])
  {
  }

  // ----- The program -----

  /** The table in memory is the one of the history. */
  ghost predicate Mirrors(peers: Peers, p: Past, lim: C.Limits)
    reads peers, peers.list, peers.list.dom
  {
    && LimitsOk(lim) && H.LimitsOf(peers) == lim && peers.maxPeers > 0
    && Addrs(peers.list.elems) == Lru.Run(peers.maxPeers, p.ops)
    && forall x <- peers.list.elems :: x in peers.list.dom && x.from in p.known && H.StateOf(x) == p.known[x.from].state
  }

  lemma MirrorsStored(peers: Peers, p: Past, lim: C.Limits)
    requires Mirrors(peers, p, lim) && KnownOk(p.known, lim)
    ensures H.AllStored(peers)
  {
    hide C.StoredOk, Nf9History.Follows;
    forall x | x in peers.list.elems ensures x in peers.list.dom && C.StoredOk(x.nf9, H.LimitsOf(peers)) {
      assert PastOk(p.known[x.from], lim);
    }
  }

  /** The end of receive_packet: the sender is found or made, or the packet is dropped. */
  method Admit(peers: Peers, allowed: seq<Allowed>, addr: HostAddr, ghost ops: seq<Lru.Op<HostAddr>>) returns (peer: Peer?)
    requires peers.Valid() && Addrs(peers.list.elems) == Lru.Run(peers.maxPeers, ops)
    modifies peers, peers.tree, peers.list
    modifies peers.list.dom`left, peers.list.dom`right, peers.list.dom`next, peers.list.dom`prev
    ensures peers.Valid() && (forall x <- peers.list.dom :: x in old(peers.list.dom) || fresh(x))
    ensures var known := addr in old(Addrs(peers.list.elems)); var added := !known && IsAllowed(allowed, addr);
      && Addrs(peers.list.elems) == Lru.Run(peers.maxPeers, ops + UseIf(addr, added))
      && (peer == null <==> !known && !IsAllowed(allowed, addr))
      && (added ==> peer != null && peer.from == addr && H.StateOf(peer) == NEW_PEER.state)
      && forall x <- peers.list.elems :: x in old(peers.list.elems) || (added && x == peer)
  {
    hide Lru.Run, Lru.Step, SplayTree.PeerTree.Valid, TailQueue.PeerList.Valid, IsAllowed, Trimmed, Fronted, Addrs;
    UseRun(peers.maxPeers, ops, addr, addr !in Addrs(peers.list.elems) && IsAllowed(allowed, addr));
    ListFacts(peers.list);
    peer := peers.FindPeer(addr);
    if peer == null {
      peer := peers.NewPeer(allowed, addr);
    } else {
      NotInTable(peers.list.elems, peer);
    }
  }

  /** process_packet, for a version with fixed records: a sender that was evicted while its
      packet waited stays out. */
  method Update(peers: Peers, addr: HostAddr, flows: nat, version: nat, ghost ops: seq<Lru.Op<HostAddr>>)
    requires peers.Valid() && Addrs(peers.list.elems) == Lru.Run(peers.maxPeers, ops)
    modifies peers, peers.tree, peers.list
    modifies peers.list.dom`left, peers.list.dom`right, peers.list.dom`next, peers.list.dom`prev
    modifies peers.list.dom`nflows, peers.list.dom`npackets, peers.list.dom`lastVersion
    ensures peers.Valid() && peers.list.dom == old(peers.list.dom)
    ensures Addrs(peers.list.elems)
      == Lru.Run(peers.maxPeers, ops + UseIf(addr, addr in old(Addrs(peers.list.elems)) && flows > 0))
    ensures forall x <- peers.list.elems :: x in old(peers.list.elems)
  {
    hide Lru.Run, Lru.Step, SplayTree.PeerTree.Valid, TailQueue.PeerList.Valid, IsAllowed, Trimmed, Fronted, Addrs;
    UseRun(peers.maxPeers, ops, addr, addr in Addrs(peers.list.elems) && flows > 0);
    ListFacts(peers.list);
    var peer := peers.FindPeer(addr);
    if peer == null {
      return;
    }
    NotInTable(peers.list.elems, peer);
    if flows > 0 {
      ghost var was := peers.list.elems;
      ghost var k := peers.UpdatePeer(peer, flows, version);
      FrontedIs(was, k);
    }
  }

  lemma NextArrive(cap: nat, lim: C.Limits, p: Past, addr: HostAddr)
    requires cap > 0 && LimitsOk(lim) && KnownOk(p.known, lim)
    ensures var added := addr !in Lru.Run(cap, p.ops) && IsAllowed(p.allowed, addr); var ops := p.ops + UseIf(addr, added);
      Next(cap, lim, p, Arrive(addr)) ==
        Some(Past(p.allowed, ops, Among(if added then p.known[addr := NEW_PEER] else p.known, Lru.Run(cap, ops))))
  {
    hide Lru.Run, IsAllowed, PastOk;
  }

  lemma NextPacket(cap: nat, lim: C.Limits, p: Past, addr: HostAddr, pkt: seq<u8>, recvSec: u32, recvUsec: u32)
    requires cap > 0 && LimitsOk(lim) && KnownOk(p.known, lim)
    ensures var n := Next(cap, lim, p, Packet(addr, pkt, recvSec, recvUsec));
      if addr !in p.known then n == Some(p)
      else
        && C.StoredOk(p.known[addr].state.sources, lim)
        && var r := C.ReadPacket(p.known[addr].state, lim, pkt, recvSec, recvUsec, addr);
           && (n.None? <==> r.Stuck?)
           && (n.Some? ==>
               && n.value.ops == p.ops + UseIf(addr, r.finished && r.flows != [])
               && n.value.known.Keys == p.known.Keys && n.value.known[addr].state == r.state
               && forall a <- p.known :: a != addr ==> n.value.known[a] == p.known[a])
  {
    hide Lru.Run, IsAllowed, C.ReadPacket, Nf9History.Follows, C.StoredOk, Nf9History.PacketUsed;
    if addr in p.known { assert PastOk(p.known[addr], lim); }
  }

  lemma NextReconfigure(cap: nat, lim: C.Limits, p: Past, now: seq<Allowed>)
    requires cap > 0 && LimitsOk(lim) && KnownOk(p.known, lim)
    ensures var ops := p.ops + Drops(now, Lru.Run(cap, p.ops));
      Next(cap, lim, p, Reconfigure(now)) == Some(Past(now, ops, Among(p.known, Lru.Run(cap, ops))))
  {
    hide Lru.Run, Drops, PastOk;
  }

  lemma MirrorsIs(peers: Peers, p: Past, lim: C.Limits)
    requires Mirrors(peers, p, lim)
    ensures LimitsOk(lim) && H.LimitsOf(peers) == lim && peers.maxPeers > 0
    ensures Addrs(peers.list.elems) == Lru.Run(peers.maxPeers, p.ops)
    ensures forall x <- peers.list.elems :: x.from in p.known && H.StateOf(x) == p.known[x.from].state
  {
    hide Lru.Run;
  }

  lemma MirrorsIf(peers: Peers, p: Past, lim: C.Limits)
    requires peers.Valid() && LimitsOk(lim) && H.LimitsOf(peers) == lim && peers.maxPeers > 0
    requires Addrs(peers.list.elems) == Lru.Run(peers.maxPeers, p.ops)
    requires forall x <- peers.list.elems :: x.from in p.known && H.StateOf(x) == p.known[x.from].state
    ensures Mirrors(peers, p, lim)
  {
    hide Lru.Run, SplayTree.PeerTree.Valid, TailQueue.PeerList.Valid;
    ListFacts(peers.list);
  }

  lemma OneAddr(peers: Peers, x: Peer, y: Peer)
    requires peers.Valid() && x in peers.list.elems && y in peers.list.elems && x.from == y.from
    ensures x == y
  {
    hide SplayTree.PeerTree.Valid, TailQueue.PeerList.Valid;
    TreeFacts(peers.tree);
    ListFacts(peers.list);
  }

  method OnArrive(peers: Peers, allowed: seq<Allowed>, addr: HostAddr, ghost p: Past, ghost lim: C.Limits)
    requires peers.Valid() && Mirrors(peers, p, lim) && KnownOk(p.known, lim) && TableOk(peers.maxPeers, p) && p.allowed == allowed
    modifies peers, peers.tree, peers.list
    modifies peers.list.dom`left, peers.list.dom`right, peers.list.dom`next, peers.list.dom`prev
    ensures peers.Valid() && (forall x <- peers.list.dom :: x in old(peers.list.dom) || fresh(x))
    ensures Mirrors(peers, Next(peers.maxPeers, lim, p, Arrive(addr)).value, lim)
  {
    hide Lru.Run, Distinct, Lru.ByRecency, SplayTree.PeerTree.Valid, TailQueue.PeerList.Valid, IsAllowed, PastOk, KnownOk, Next,
         Mirrors, H.LimitsOf, LimitsOk;
    MirrorsIs(peers, p, lim);
    ListFacts(peers.list);
    NextArrive(peers.maxPeers, lim, p, addr);
    ghost var was := peers.list.elems;
    var peer := Admit(peers, allowed, addr, p.ops);
    ListFacts(peers.list);
    ghost var p' := Next(peers.maxPeers, lim, p, Arrive(addr)).value;
    forall x | x in peers.list.elems ensures x.from in p'.known && H.StateOf(x) == p'.known[x.from].state {
      NotInTable(peers.list.elems, x);
      if x in was { NotInTable(was, x); }
    }
    MirrorsIf(peers, p', lim);
  }

  /** process_netflow_v9, for a sender that is known. */
  method ReadKnown(peers: Peers, peer: Peer, pkt: seq<u8>, recvSec: u32, recvUsec: u32, ghost p: Past, ghost lim: C.Limits)
    returns (stopped: bool)
    requires peers.Valid() && Mirrors(peers, p, lim) && H.AllStored(peers) && peer in peers.list.elems
    requires C.StoredOk(p.known[peer.from].state.sources, lim)
    modifies peers.list, peers.list.dom`next, peers.list.dom`prev, peer
    ensures peers.Valid() && peers.list.dom == old(peers.list.dom)
    ensures var r := C.ReadPacket(p.known[peer.from].state, lim, pkt, recvSec, recvUsec, peer.from);
      && (stopped <==> r.Stuck?)
      && (!stopped ==>
          && H.StateOf(peer) == r.state
          && Addrs(peers.list.elems) == Lru.Run(peers.maxPeers, p.ops + UseIf(peer.from, r.finished && r.flows != [])))
  {
    hide Lru.Run, Lru.Step, SplayTree.PeerTree.Valid, TailQueue.PeerList.Valid, C.StoredOk, C.ReadPacket, SourcesOk;
    ghost var r := C.ReadPacket(p.known[peer.from].state, lim, pkt, recvSec, recvUsec, peer.from);
    UseRun(peers.maxPeers, p.ops, peer.from, r.Run? && r.finished && r.flows != []);
    var flows, w := H.ProcessPacket(peers, peer, pkt, recvSec, recvUsec);
    stopped := w.Never?;
  }

  /** process_packet, for version 9. */
  method OnPacket(peers: Peers, addr: HostAddr, pkt: seq<u8>, recvSec: u32, recvUsec: u32, ghost p: Past, ghost lim: C.Limits)
    returns (stopped: bool)
    requires peers.Valid() && Mirrors(peers, p, lim) && KnownOk(p.known, lim) && TableOk(peers.maxPeers, p)
    modifies peers.tree, peers.list, peers.list.dom
    ensures peers.Valid() && peers.list.dom == old(peers.list.dom)
    ensures var p' := Next(peers.maxPeers, lim, p, Packet(addr, pkt, recvSec, recvUsec));
      (stopped <==> p'.None?) && (!stopped ==> Mirrors(peers, p'.value, lim))
  {
    hide Lru.Run, Distinct, Lru.ByRecency, SplayTree.PeerTree.Valid, TailQueue.PeerList.Valid, IsAllowed, C.StoredOk,
         KnownOk, Next, C.ReadPacket, PeerState.SourcesOk, H.AllStored, UseIf, Mirrors, Addrs, H.LimitsOf, LimitsOk;
    MirrorsIs(peers, p, lim);
    NextPacket(peers.maxPeers, lim, p, addr, pkt, recvSec, recvUsec);
    ListFacts(peers.list);
    ghost var was := peers.list.elems;
    var peer := peers.FindPeer(addr);
    MirrorsIf(peers, p, lim);
    if peer == null {
      return false;
    }
    NotInTable(was, peer);
    MirrorsStored(peers, p, lim);
    stopped := ReadKnown(peers, peer, pkt, recvSec, recvUsec, p, lim);
    if stopped {
      return;
    }
    ListFacts(peers.list);
    ghost var p' := Next(peers.maxPeers, lim, p, Packet(addr, pkt, recvSec, recvUsec)).value;
    forall x | x in peers.list.elems ensures x.from in p'.known && H.StateOf(x) == p'.known[x.from].state {
      assert x in was && x.from in p.known;
      if x != peer {
        if x.from == addr { OneAddr(peers, x, peer); }
        assert H.StateOf(x) == old(H.StateOf(x));
      }
    }
    MirrorsIf(peers, p', lim);
  }

  method OnFixed(peers: Peers, addr: HostAddr, flows: nat, version: nat, ghost p: Past, ghost lim: C.Limits)
    requires peers.Valid() && Mirrors(peers, p, lim) && KnownOk(p.known, lim)
    modifies peers, peers.tree, peers.list
    modifies peers.list.dom`left, peers.list.dom`right, peers.list.dom`next, peers.list.dom`prev
    modifies peers.list.dom`nflows, peers.list.dom`npackets, peers.list.dom`lastVersion
    ensures peers.Valid() && peers.list.dom == old(peers.list.dom)
    ensures Mirrors(peers, Next(peers.maxPeers, lim, p, Fixed(addr, flows, version)).value, lim)
  {
    hide Lru.Run, SplayTree.PeerTree.Valid, TailQueue.PeerList.Valid, IsAllowed, PastOk;
    ListFacts(peers.list);
    Update(peers, addr, flows, version, p.ops);
    ListFacts(peers.list);
  }

  /** The main loop after a reconfiguration. */
  method OnReconfigure(peers: Peers, now: seq<Allowed>, ghost p: Past, ghost lim: C.Limits)
    requires peers.Valid() && Mirrors(peers, p, lim) && KnownOk(p.known, lim)
    modifies peers, peers.tree, peers.list
    modifies peers.list.dom`left, peers.list.dom`right, peers.list.dom`next, peers.list.dom`prev
    ensures peers.Valid() && peers.list.dom <= old(peers.list.dom)
    ensures Mirrors(peers, Next(peers.maxPeers, lim, p, Reconfigure(now)).value, lim)
  {
    hide Lru.Run, SplayTree.PeerTree.Valid, TailQueue.PeerList.Valid, IsAllowed, KnownOk, Next, Kept, Survivors, Drops, Addrs, SourcesOk;
    ListFacts(peers.list);
    NextReconfigure(peers.maxPeers, lim, p, now);
    ScrubbedRun(peers.maxPeers, now, p.ops);
    KeptSurvive(now, peers.list.elems);
    KeptAllowed(now, peers.list.elems);
    peers.ScrubPeers(now);
    ListFacts(peers.list);
    forall x | x in peers.list.elems ensures x.from in Addrs(peers.list.elems) {
      NotInTable(peers.list.elems, x);
    }
  }

  method OnEvent(peers: Peers, allowed: seq<Allowed>, e: Event, ghost p: Past, ghost lim: C.Limits)
    returns (allowed': seq<Allowed>, stopped: bool)
    requires peers.Valid() && Mirrors(peers, p, lim) && KnownOk(p.known, lim) && TableOk(peers.maxPeers, p) && p.allowed == allowed
    modifies peers, peers.tree, peers.list, peers.list.dom
    ensures peers.Valid() && (forall x <- peers.list.dom :: x in old(peers.list.dom) || fresh(x))
    ensures var p' := Next(peers.maxPeers, lim, p, e);
      && (stopped <==> p'.None?)
      && (!stopped ==> Mirrors(peers, p'.value, lim) && p'.value.allowed == allowed')
  {
    hide Lru.Run, SplayTree.PeerTree.Valid, TailQueue.PeerList.Valid, IsAllowed, PastOk, PastAfter, Counts, TableOk, KnownOk, Mirrors;
    allowed', stopped := allowed, false;
    match e
    case Arrive(addr) =>
      OnArrive(peers, allowed, addr, p, lim);
    case Packet(addr, pkt, recvSec, recvUsec) =>
      stopped := OnPacket(peers, addr, pkt, recvSec, recvUsec, p, lim);
    case Fixed(addr, flows, version) =>
      OnFixed(peers, addr, flows, version, p, lim);
    case Reconfigure(now) =>
      OnReconfigure(peers, now, p, lim);
      allowed' := now;
  }

  /** Any number of events from the start of the program: it is stopped exactly by a packet
      that the history says stops it, and otherwise the table in memory, the state of every
      sender included, is the one of the history. */
  method Live(maxPeers: nat, maxTemplates: nat, maxSources: nat, maxTemplateLen: nat, allowed0: seq<Allowed>, events: seq<Event>)
    returns (peers: Peers, stopped: bool)
    requires maxPeers > 0 && maxTemplates > 0 && maxSources > 0
    ensures var p := History(maxPeers, C.Limits(maxSources, maxTemplates, maxTemplateLen), allowed0, events);
      && (stopped <==> p.None?)
      && (!stopped ==> peers.Valid() && peers.maxPeers == maxPeers && H.AllStored(peers)
                       && Mirrors(peers, p.value, C.Limits(maxSources, maxTemplates, maxTemplateLen)))
  {
    hide Lru.Run, SplayTree.PeerTree.Valid, TailQueue.PeerList.Valid, IsAllowed, Next, TableOk, KnownOk, H.AllStored;
    peers := new Peers(maxPeers, maxTemplates, maxSources, maxTemplateLen);
    ghost var lim := C.Limits(maxSources, maxTemplates, maxTemplateLen);
    var allowed := allowed0;
    var i := 0;
    stopped := false;
    assert events[..0] == [];
    Empty(maxPeers, allowed0);
    ghost var p := Past(allowed0, [], map[]);
    while i < |events|
      invariant i <= |events| && peers.Valid() && peers.maxPeers == maxPeers && fresh(peers)
      invariant fresh(peers.tree) && fresh(peers.list) && fresh(peers.list.dom)
      invariant History(maxPeers, lim, allowed0, events[..i]) == Some(p) && p.allowed == allowed
      invariant Mirrors(peers, p, lim) && TableOk(maxPeers, p)
    {
      assert events[..i + 1][..i] == events[..i];
      ghost var next := Next(maxPeers, lim, p, events[i]);
      assert History(maxPeers, lim, allowed0, events[..i + 1]) == next;
      NextOk(maxPeers, lim, p, events[i]);
      allowed, stopped := OnEvent(peers, allowed, events[i], p, lim);
      i := i + 1;
      if stopped {
        StaysStopped(maxPeers, lim, allowed0, events, i);
        return;
      }
      p := next.value;
    }
    assert events[..i] == events;
    MirrorsStored(peers, p, lim);
  }

  lemma {:induction false} StaysStopped(cap: nat, lim: C.Limits, allowed: seq<Allowed>, events: seq<Event>, i: nat)
    requires cap > 0 && LimitsOk(lim) && i <= |events| && History(cap, lim, allowed, events[..i]).None?
    ensures History(cap, lim, allowed, events).None?
    decreases |events| - i
  {
    hide Next;
    if i < |events| {
      assert events[..i + 1][..i] == events[..i];
      StaysStopped(cap, lim, allowed, events, i + 1);
    } else {
      assert events[..i] == events;
    }
  }
}
