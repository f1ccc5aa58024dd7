/** Runs of the NetFlow v9 exporter (softflowd/netflow9.c) into a collector whose list of
    templates (flowd/peer.c) is full: which flows are lost, and when that ends. */
module Nf9Crowding {
  import opened Addr
  import opened Bytes
  import opened FlowRecord
  import opened Nf9Collect
  import opened Nf9RoundTrip
  import opened Nf9Wire
  import opened PeerState
  import X = Nf9Export

  // ----- The flows that are not lost -----

  /** The flows between IPv6 addresses. */
  function OnlyV6(flows: seq<Flow>): seq<Flow> {
    if flows == [] then [] else OnlyV6(flows[..|flows| - 1]) + if flows[|flows| - 1].ends.Inet6? then [flows[|flows| - 1]] else []
  }

  lemma {:induction false} OnlyV6In(flows: seq<Flow>)
    ensures forall f <- OnlyV6(flows) :: f in flows && f.ends.Inet6?
    decreases |flows|
  {
    if flows != [] {
      OnlyV6In(flows[..|flows| - 1]);
      assert forall f <- flows[..|flows| - 1] :: f in flows;
    }
  }

  function Kept(flows: seq<Flow>, both: bool): (r: seq<Flow>)
    ensures forall f <- r :: f in flows
  {
    OnlyV6In(flows);
    if both then flows else OnlyV6(flows)
  }

  lemma {:induction false} OnlyV6Concat(a: seq<Flow>, b: seq<Flow>)
    ensures OnlyV6(a + b) == OnlyV6(a) + OnlyV6(b)
    decreases |b|
  {
    if b == [] {
      assert a + b == a;
    } else {
      var n := |b| - 1;
      assert (a + b)[..|a + b| - 1] == a + b[..n];
      OnlyV6Concat(a, b[..n]);
    }
  }

  /** All flows are of the one family, or all of the other. */
  predicate Family(flows: seq<Flow>, v6: bool) {
    forall f <- flows :: f.ends.Inet6? == v6
  }

  lemma LastFamily(flows: seq<Flow>, v6: bool)
    requires flows != []
    ensures Family(flows, v6) <==> Family(flows[..|flows| - 1], v6) && flows[|flows| - 1].ends.Inet6? == v6
  {
    var n := |flows| - 1;
    assert flows[n] in flows;
    assert forall f <- flows :: f in flows[..n] || f == flows[n];
  }

  lemma {:induction false} OneFamily(flows: seq<Flow>, v6: bool)
    requires Family(flows, v6)
    ensures OnlyV6(flows) == if v6 then flows else []
    decreases |flows|
  {
    if flows != [] {
      hide Family;
      var n := |flows| - 1;
      LastFamily(flows, v6);
      OneFamily(flows[..n], v6);
      assert flows[..n] + [flows[n]] == flows;
    }
  }

  lemma LastFlow(flows: seq<Flow>)
    requires flows != [] && forall f <- flows :: Exportable(f)
    ensures var n := |flows| - 1;
      && (forall f <- flows[..n] :: Exportable(f)) && CountRecords([flows[n]]) > 0
      && CountRecords(flows) == CountRecords(flows[..n]) + CountRecords([flows[n]])
  {
    hide Exportable, CountRecords;
    var n := |flows| - 1;
    assert flows[n] in flows;
    assert flows[..n] + [flows[n]] == flows;
    X.CountConcat(flows[..n], [flows[n]]);
    HasRecord(flows[n]);
  }

  lemma HasRecord(f: Flow)
    requires Exportable(f)
    ensures CountRecords([f]) > 0
  {
    assert [f][..0] == [];
  }

  lemma {:induction false} OnlyV6Shorter(flows: seq<Flow>)
    requires forall f <- flows :: Exportable(f)
    ensures CountRecords(OnlyV6(flows)) <= CountRecords(flows)
    ensures CountRecords(OnlyV6(flows)) == CountRecords(flows) <==> Family(flows, true)
    decreases |flows|
  {
    if flows != [] {
      hide CountRecords, Exportable, OnlyV6, Family;
      LastFlow(flows);
      LastFamily(flows, true);
      OnlyV6Shorter(flows[..|flows| - 1]);
      LastV6(flows);
    }
  }

  lemma LastV6(flows: seq<Flow>)
    requires flows != []
    ensures var n := |flows| - 1;
      CountRecords(OnlyV6(flows)) == CountRecords(OnlyV6(flows[..n])) + if flows[n].ends.Inet6? then CountRecords([flows[n]]) else 0
  {
    hide CountRecords;
    var n := |flows| - 1;
    X.CountConcat(OnlyV6(flows[..n]), [flows[n]]);
    assert OnlyV6(flows[..n]) + [] == OnlyV6(flows[..n]);
  }

  lemma KeptConcat(a: seq<Flow>, b: seq<Flow>, both: bool)
    ensures Kept(a + b, both) == Kept(a, both) + Kept(b, both)
  {
    OnlyV6Concat(a, b);
  }

  lemma SetKept(sources: seq<Nf9Source>, s: DataSet, m: Meta)
    requires SetOk(s) && Usable(sources, true)
    ensures forall f <- s.flows :: !f.ends.OtherFamily?
    ensures Gives(sources, s, m) == CollectedAll(Kept(s.flows, Usable(sources, false)), m)
  {
    hide CollectedAll, Usable;
    OneFamily(s.flows, s.v6);
    NoneCollected(m);
  }

  /** With the second template at hand, a packet gives all its flows or those that the second
      template describes. */
  lemma {:induction false} SetsKept(sources: seq<Nf9Source>, sets: seq<DataSet>, m: Meta)
    requires Sized(sets) && Usable(sources, true)
    ensures forall f <- SetFlows(sets) :: !f.ends.OtherFamily?
    ensures CollectedSets(sources, sets, m) == CollectedAll(Kept(SetFlows(sets), Usable(sources, false)), m)
    decreases |sets|
  {
    hide CollectedAll, EncodeSets, EncodeSet, SetLength, SetOk, Usable, SetFlows, Kept, Gives;
    NoneCollected(m);
    if sets == [] {
      NoneKept(Usable(sources, false));
    } else {
      FirstFlows(sets);
      SetsKept(sources, sets[1..], m);
      var s, rest, both := sets[0], SetFlows(sets[1..]), Usable(sources, false);
      assert s in sets;
      SetKept(sources, s, m);
      KeptConcat(s.flows, rest, both);
      CollectedConcat(Kept(s.flows, both), Kept(rest, both), m);
    }
  }

  lemma NoneKept(both: bool)
    ensures Kept([], both) == []
  {
  }

  lemma NoneCollected(m: Meta)
    ensures CollectedAll([], m) == [] && SetFlows([]) == []
  {
  }

  // ----- When a template is back -----

  /** Once both templates have arrived, the next time that they do none is crowded out, as
      long as the list has room for two. */
  lemma NextTime(s: seq<Nf9Source>, lim: Limits)
    requires StoredOk(s, lim) && LimitsOk(lim) && Usable(s, true)
    ensures Crowded(s, lim.maxTemplates) <==> lim.maxTemplates == 1
  {
    hide TemplateRecords, IndexOf, TemplateIndexOf;
    UsableIs(s, true);
    var ts := Known(s);
    var j := TemplateIndexOf(ts, V6_TEMPLATE_ID);
    assert Template(true).id == V6_TEMPLATE_ID;
    assert ts[j].id == V6_TEMPLATE_ID && ts[j] in ts;
  }

  function TemplatePackets(ps: seq<Packet>): nat {
    if ps == [] then 0 else TemplatePackets(ps[..|ps| - 1]) + if ps[|ps| - 1].templates then 1 else 0
  }

  /** Whether the collector has both templates for the last packet of a run, by what it was
      when the run began. */
  predicate BothKnown(ps: seq<Packet>, crowded: bool, max: nat) {
    !crowded || (max > 1 && TemplatePackets(ps) > 1)
  }

  /** The records of a packet whose IPv4 flows may be lost. */
  ghost function KeptOf(p: Packet, both: bool, m: Meta): seq<StoreFlow>
    requires PacketOk(p)
  {
    SizedFlows(p);
    CollectedAll(Kept(SetFlows(p.sets), both), m)
  }

  ghost function KeptRun(ps: seq<Packet>, crowded: bool, max: nat, sec: nat -> u32, usec: nat -> u32, agent: HostAddr): seq<StoreFlow>
    requires forall p <- ps :: PacketOk(p)
  {
    if ps == [] then []
    else
      var n := |ps| - 1;
      KeptRun(ps[..n], crowded, max, sec, usec, agent)
      + KeptOf(ps[n], BothKnown(ps, crowded, max), MetaFor(ps[n], sec(n), usec(n), agent))
  }

  /** The templates in the collector after a run. */
  ghost predicate Holding(s: seq<Nf9Source>, ps: seq<Packet>, crowded: bool, max: nat) {
    Usable(s, true) && Clear(s) && (Usable(s, false) <==> BothKnown(ps, crowded, max))
  }

  lemma LaterHolds(s: seq<Nf9Source>, lim: Limits, ps: seq<Packet>, p: Packet, crowded: bool)
    requires StoredOk(s, lim) && LimitsOk(lim) && (lim.maxTemplates == 1 ==> crowded)
    requires Holding(s, ps, crowded, lim.maxTemplates) && TemplatePackets(ps) > 0
    ensures Holding(Learnt(s, lim, p.templates), ps + [p], crowded, lim.maxTemplates) && TemplatePackets(ps + [p]) > 0
  {
    hide StoredOk, Usable, Crowded, Clear, Stored, Missing;
    assert (ps + [p])[..|ps|] == ps;
    LearntBoth(s, lim);
    NextTime(s, lim);
  }

  lemma PacketKept(st: State, lim: Limits, p: Packet, recvSec: u32, recvUsec: u32, agent: HostAddr, both: bool)
    requires StoredOk(st.sources, lim) && LimitsOk(lim) && PacketOk(p)
    requires var s := Learnt(st.sources, lim, p.templates); Usable(s, true) && Clear(s) && (Usable(s, false) <==> both)
    ensures var r := ReadPacket(st, lim, EncodePacket(p), recvSec, recvUsec, agent);
      && r.Run? && r.finished && r.state.sources == Learnt(st.sources, lim, p.templates)
      && r.flows == KeptOf(p, both, MetaFor(p, recvSec, recvUsec, agent))
  {
    hide StoredOk, ReadPacket, EncodePacket, CollectedSets, Usable, Clear, Missing, CollectedAll, SetFlows, Stored, SetOk, SetLength, CountRecords, Lost;
    PacketRead(st, lim, p, recvSec, recvUsec, agent);
    SizedFlows(p);
    SetsKept(Learnt(st.sources, lim, p.templates), p.sets, MetaFor(p, recvSec, recvUsec, agent));
  }

  /** A run that begins with the templates, whatever templates the collector has: every flow
      arrives but the IPv4 flows of the packets for which the IPv4 template was crowded out.
      It is back with the next packet that carries the templates, unless the list has room
      for one only. */
  lemma {:induction false} RunKept(st: State, lim: Limits, sent: seq<seq<u8>>, ps: seq<Packet>,
                                   sec: nat -> u32, usec: nat -> u32, agent: HostAddr)
    requires StoredOk(st.sources, lim) && LimitsOk(lim) && X.Carry(sent, ps) && ps != [] && ps[0].templates
    ensures forall p <- ps :: PacketOk(p)
    ensures var crowded, max := Crowded(st.sources, lim.maxTemplates), lim.maxTemplates;
            var r := ReadAll(st, lim, sent, sec, usec, agent);
      && r.Run? && r.finished && r.flows == KeptRun(ps, crowded, max, sec, usec, agent)
      && StoredOk(r.state.sources, lim) && Holding(r.state.sources, ps, crowded, max) && TemplatePackets(ps) > 0
    decreases |ps|
  {
    hide StoredOk, LimitsOk, ReadPacket, ReadAll, KeptRun, EncodePacket, CollectedAll, SetFlows, PacketOk, X.Carry, Holding, Learnt, BothKnown, KeptOf, Crowded;
    CarryInit(sent, ps);
    LengthsAgree(sent, ps);
    var n, crowded, max := |ps| - 1, Crowded(st.sources, lim.maxTemplates), lim.maxTemplates;
    assert ps[..n] + [ps[n]] == ps;
    KeptStep(ps, crowded, max, sec, usec, agent);
    ReadStep(st, lim, sent, sec, usec, agent);
    if n == 0 {
      FirstHolds(st.sources, lim, ps[0]);
      HoldingIs(Learnt(st.sources, lim, true), ps, crowded, max);
      PacketKept(st, lim, ps[0], sec(0), usec(0), agent, BothKnown(ps, crowded, max));
      NothingRead(st, lim, sec, usec, agent);
      assert sent[..0] == [];
    } else {
      RunKept(st, lim, sent[..n], ps[..n], sec, usec, agent);
      var st' := ReadAll(st, lim, sent[..n], sec, usec, agent).state;
      OnlyOne(st.sources, max);
      LaterHolds(st'.sources, lim, ps[..n], ps[n], crowded);
      HoldingIs(Learnt(st'.sources, lim, ps[n].templates), ps, crowded, max);
      PacketKept(st', lim, ps[n], sec(n), usec(n), agent, BothKnown(ps, crowded, max));
    }
  }

  lemma KeptStep(ps: seq<Packet>, crowded: bool, max: nat, sec: nat -> u32, usec: nat -> u32, agent: HostAddr)
    requires (forall p <- ps :: PacketOk(p)) && ps != []
    ensures var n := |ps| - 1; var more := KeptOf(ps[n], BothKnown(ps, crowded, max), MetaFor(ps[n], sec(n), usec(n), agent));
      KeptRun(ps, crowded, max, sec, usec, agent) == (if n == 0 then [] else KeptRun(ps[..n], crowded, max, sec, usec, agent)) + more
  {
    hide PacketOk, KeptOf, BothKnown;
  }

  lemma ReadStep(st: State, lim: Limits, pkts: seq<seq<u8>>, sec: nat -> u32, usec: nat -> u32, agent: HostAddr)
    requires StoredOk(st.sources, lim) && LimitsOk(lim) && pkts != []
    ensures var n := |pkts| - 1; var r, r' := ReadAll(st, lim, pkts[..n], sec, usec, agent), ReadAll(st, lim, pkts, sec, usec, agent);
      r.Run? ==> var one := ReadPacket(r.state, lim, pkts[n], sec(n), usec(n), agent);
        one.Run? ==> r' == Run(one.state, r.flows + one.flows, r.finished && one.finished) && StoredOk(one.state.sources, lim)
  {
    hide StoredOk, LimitsOk, ReadPacket;
  }

  lemma OnlyOne(s: seq<Nf9Source>, max: nat)
    ensures max == 1 ==> Crowded(s, max)
  {
  }

  lemma HoldingIs(s: seq<Nf9Source>, ps: seq<Packet>, crowded: bool, max: nat)
    ensures Holding(s, ps, crowded, max) <==> Usable(s, true) && Clear(s) && (Usable(s, false) <==> BothKnown(ps, crowded, max))
  {
    hide Usable, Clear, BothKnown;
  }

  lemma FirstHolds(s: seq<Nf9Source>, lim: Limits, p: Packet)
    requires StoredOk(s, lim) && LimitsOk(lim) && p.templates
    ensures Holding(Learnt(s, lim, true), [p], Crowded(s, lim.maxTemplates), lim.maxTemplates) && TemplatePackets([p]) == 1
  {
    hide StoredOk, LimitsOk, Usable, Clear, Learnt, Crowded, Missing;
    LearntBoth(s, lim);
    assert [p][..0] == [] && TemplatePackets([]) == 0;
  }

  // ----- Exactly when nothing is lost -----

  lemma {:induction false} Shorter(ps: seq<Packet>, crowded: bool, max: nat, sec: nat -> u32, usec: nat -> u32, agent: HostAddr)
    requires forall p <- ps :: PacketOk(p)
    ensures var kept, all := KeptRun(ps, crowded, max, sec, usec, agent), CollectedRun(ps, sec, usec, agent);
      |kept| <= |all| && (kept == all <==> Needless(ps, crowded, max))
    decreases |ps|
  {
    hide CollectedAll, SetFlows, PacketOk, BothKnown, CountRecords, Exportable, Family, KeptOf;
    if ps != [] {
      var n := |ps| - 1;
      Shorter(ps[..n], crowded, max, sec, usec, agent);
      SizedFlows(ps[n]);
      PacketShorter(ps[n], BothKnown(ps, crowded, max), MetaFor(ps[n], sec(n), usec(n), agent));
      NeedlessStep(ps, crowded, max);
      var kept, all := KeptRun(ps[..n], crowded, max, sec, usec, agent), CollectedRun(ps[..n], sec, usec, agent);
      var m := MetaFor(ps[n], sec(n), usec(n), agent);
      Lengths(kept, KeptOf(ps[n], BothKnown(ps, crowded, max), m), all, CollectedAll(SetFlows(ps[n].sets), m));
    }
  }

  /** No packet carries an IPv4 flow while the IPv4 template is crowded out. */
  ghost predicate Needless(ps: seq<Packet>, crowded: bool, max: nat) {
    forall k :: 0 <= k < |ps| ==> BothKnown(ps[..k + 1], crowded, max) || Family(SetFlows(ps[k].sets), true)
  }

  lemma NeedlessStep(ps: seq<Packet>, crowded: bool, max: nat)
    requires ps != []
    ensures var n := |ps| - 1;
      Needless(ps, crowded, max) <==>
        Needless(ps[..n], crowded, max) && (BothKnown(ps, crowded, max) || Family(SetFlows(ps[n].sets), true))
  {
    hide SetFlows, BothKnown, Family;
    var n := |ps| - 1;
    assert ps[..n + 1] == ps;
    assert forall k :: 0 <= k < n ==> ps[..n][..k + 1] == ps[..k + 1] && ps[..n][k] == ps[k];
  }

  lemma PacketShorter(p: Packet, both: bool, m: Meta)
    requires PacketOk(p)
    ensures forall f <- SetFlows(p.sets) :: !f.ends.OtherFamily?
    ensures var kept, all := KeptOf(p, both, m), CollectedAll(SetFlows(p.sets), m);
            var needless := both || Family(SetFlows(p.sets), true);
      |kept| <= |all| && (|kept| == |all| <==> needless) && (needless ==> kept == all)
  {
    hide SetFlows, SetOk, SetLength, Exportable, CollectedAll, CountRecords, OnlyV6, EncodeSets;
    SizedFlows(p);
    assert X.SetsOk(p.sets);
    X.NoSetNoFlow(p.sets);
    OnlyV6Shorter(SetFlows(p.sets));
    if Family(SetFlows(p.sets), true) { OneFamily(SetFlows(p.sets), true); }
  }

  lemma Lengths<T>(a: seq<T>, b: seq<T>, c: seq<T>, d: seq<T>)
    requires |a| <= |c| && |b| <= |d|
    ensures a + b == c + d <==> a == c && b == d
  {
    if a + b == c + d {
      assert |a| == |c|;
      assert (a + b)[..|a|] == a && (c + d)[..|c|] == c && (a + b)[|a|..] == b && (c + d)[|c|..] == d;
    }
  }

  /** A run that begins with the templates arrives whole exactly if none of its packets
      carries an IPv4 flow while the collector has no place for the IPv4 template. */
  lemma RunWhole(st: State, lim: Limits, sent: seq<seq<u8>>, ps: seq<Packet>, sec: nat -> u32, usec: nat -> u32, agent: HostAddr)
    requires StoredOk(st.sources, lim) && LimitsOk(lim) && X.Carry(sent, ps) && ps != [] && ps[0].templates
    ensures forall p <- ps :: PacketOk(p)
    ensures ReadAll(st, lim, sent, sec, usec, agent).Run?
    ensures ReadAll(st, lim, sent, sec, usec, agent).flows == CollectedRun(ps, sec, usec, agent)
      <==> Needless(ps, Crowded(st.sources, lim.maxTemplates), lim.maxTemplates)
  {
    hide StoredOk, LimitsOk, PacketOk, X.Carry, Holding, BothKnown, Crowded, ReadAll, KeptRun, CollectedRun, Needless;
    RunKept(st, lim, sent, ps, sec, usec, agent);
    Shorter(ps, Crowded(st.sources, lim.maxTemplates), lim.maxTemplates, sec, usec, agent);
  }
}
