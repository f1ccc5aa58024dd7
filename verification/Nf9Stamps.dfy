/** What a flow record says of the packet that it came in and of the device that sent it:
    flowd/flowd.c for any packet, and softflowd/netflow9.c for the packets of an exporter. */
module Nf9Stamps {
  import opened Addr
  import AddrMatch
  import opened Bytes
  import opened FlowRecord
  import opened Nf9Collect
  import opened Nf9RoundTrip
  import opened Nf9Wire
  import opened PeerState
  import X = Nf9Export

  datatype Stamp = Stamp(uptime: u32, time: u32, version: u16, sequence: u32, source: u32,
                         recvSec: u32, recvUsec: u32, agent: XAddr)

  function StampOf(f: StoreFlow): Stamp {
    Stamp(f.sysUptimeMs, f.timeSec, f.netflowVersion, f.flowSequence, f.sourceId, f.recvSec, f.recvUsec, ToXAddr(f.agent))
  }

  function StampFor(m: Meta): Stamp {
    Stamp(m.uptime, m.timeSec, m.version, m.sequence, m.sourceId, m.recvSec, m.recvUsec, m.agent)
  }

  /** An address as memory is the address. */
  lemma AddressBack(a: XAddr)
    ensures ToXAddr(OfXAddr(a)) == a
  {
    hide Put32, Get32;
    var r := OfXAddr(a);
    match a
    case NoAddr =>
    case V4(v) =>
      assert r.bytes[0..4] == Put32(v);
      GetPut32(r.bytes, 0, v);
    case V6(w0, w1, w2, w3, _) =>
      assert r.bytes[0..4] == Put32(w0) && r.bytes[4..8] == Put32(w1) && r.bytes[8..12] == Put32(w2) && r.bytes[12..16] == Put32(w3);
      GetPut32(r.bytes, 0, w0);
      GetPut32(r.bytes, 4, w1);
      GetPut32(r.bytes, 8, w2);
      GetPut32(r.bytes, 12, w3);
  }

  /** The fields that say when a record was received and from whom. */
  const ARRIVAL: Fields := {1, 3, 4, 15}

  ghost predicate Bears(f: StoreFlow, m: Meta) {
    StampOf(f) == StampFor(m) && ARRIVAL <= f.fields
  }

  lemma BlankBears(m: Meta)
    ensures Bears(Blank(m), m)
  {
    AddressBack(m.agent);
  }

  lemma RecordKeepsStamp(kind: nat, f: StoreFlow, data: seq<u8>, m: Meta)
    requires CheckRecLen(kind, |data|) && Bears(f, m)
    ensures Bears(RecToFlow(kind, f, data), m)
  {
    hide ToXAddr, SetAddr, CheckRecLen, BeCopy;
  }

  lemma {:induction false} DecodeKeepsStamp(rs: seq<Nf9Record>, f: StoreFlow, data: seq<u8>, m: Meta)
    requires RecordsOk(rs) && Total(rs) <= |data| && Bears(f, m)
    ensures Bears(Decode(rs, f, data), m)
    decreases |rs|
  {
    hide RecToFlow, Bears;
    if rs != [] {
      var n, at := |rs| - 1, Total(rs[..|rs| - 1]);
      DecodeKeepsStamp(rs[..n], f, data, m);
      RecordKeepsStamp(rs[n].kind, Decode(rs[..n], f, data), data[at..at + rs[n].len], m);
    }
  }

  ghost predicate AllBear(fs: seq<StoreFlow>, m: Meta) {
    forall f <- fs :: Bears(f, m)
  }

  lemma {:induction false} AllDecodedBear(t: Nf9Template, m: Meta, data: seq<u8>, n: nat)
    requires RecordsOk(t.records) && t.totalLen == Total(t.records) && n * t.totalLen <= |data|
    ensures AllBear(DecodeAll(t, m, data, n), m)
    decreases n
  {
    hide Bears, Decode, RecordsOk, Total, Blank;
    if n > 0 {
      LastRecord(n, t.totalLen);
      AllDecodedBear(t, m, data, n - 1);
      BlankBears(m);
      DecodeKeepsStamp(t.records, Blank(m), data[(n - 1) * t.totalLen..], m);
    }
  }

  lemma SetBears(st: State, lim: Limits, pkt: seq<u8>, id: nat, len: nat, m: Meta)
    requires len <= |pkt| && StoredOk(st.sources, lim)
    ensures var o := OneSet(st, lim, pkt, id, len, m); o.Good? ==> AllBear(o.value, m)
  {
    hide Bears, DecodeAll, TemplateSet, SourcesOk, TemplateOk;
    if id >= MIN_RECORD_FLOWSET_ID && len >= 4 {
      var p := FindPlace(st.sources, m.sourceId, Get16(pkt, 0));
      if p.Place? { DataBears(st, st.sources[p.source].templates[p.template], lim, pkt[4..len], m); }
    }
  }

  lemma DataBears(st: State, t: Nf9Template, lim: Limits, data: seq<u8>, m: Meta)
    requires TemplateOk(t, lim.maxLen)
    ensures var o := DataRecords(st, t, lim, data, m); o.Good? ==> AllBear(o.value, m)
  {
    hide Bears, DecodeAll, RecordsOk, Total;
    if t.totalLen > 0 {
      var n := |data| / t.totalLen;
      Fits(|data|, t.totalLen);
      AllDecodedBear(t, m, data, n);
    }
  }

  lemma {:induction false} SetsBear(st: State, lim: Limits, pkt: seq<u8>, offset: nat, m: Meta)
    requires StoredOk(st.sources, lim) && lim.maxSources > 0 && lim.maxTemplates > 0
    ensures AllBear(ReadSets(st, lim, pkt, offset, m).flows, m)
    decreases |pkt| - offset
  {
    hide Bears, OneSet, StoredOk, Get16;
    if offset + 4 <= |pkt| {
      var id, len: nat := Get16(pkt, offset), Get16(pkt, offset + 2);
      if offset + len <= |pkt| {
        OneSetKeeps(st, lim, pkt[offset..], id, len, m);
        SetBears(st, lim, pkt[offset..], id, len, m);
        var o := OneSet(st, lim, pkt[offset..], id, len, m);
        if o.Good? && 0 < len < |pkt| - offset { SetsBear(o.state, lim, pkt, offset + len, m); }
      }
    }
  }

  /** Every record that comes out of a packet, by whatever templates, says of it what the
      packet's header says (section 5.1 of RFC 3954), when it was received and from whom; and
      its flags say so. */
  lemma RecordsStamped(st: State, lim: Limits, pkt: seq<u8>, recvSec: u32, recvUsec: u32, agent: HostAddr, f: StoreFlow)
    requires StoredOk(st.sources, lim) && lim.maxSources > 0 && lim.maxTemplates > 0
    requires f in ReadPacket(st, lim, pkt, recvSec, recvUsec, agent).flows
    ensures |pkt| >= 20 && f.netflowVersion == Get16(pkt, 0) && f.sysUptimeMs == Get32(pkt, 4) && f.timeSec == Get32(pkt, 8)
    ensures f.flowSequence == Get32(pkt, 12) && f.sourceId == Get32(pkt, 16)
    ensures f.recvSec == recvSec && f.recvUsec == recvUsec && ToXAddr(f.agent) == agent
    ensures RECV_TIME in f.fields && AGENT_INFO in f.fields && AGENT_ADDR4 in f.fields && AGENT_ADDR6 in f.fields
  {
    hide ReadSets, StoredOk, Get32, Get16, ToXAddr;
    var m := MetaOf(pkt, recvSec, recvUsec, agent);
    SetsBear(st, lim, pkt, HEADER_SIZE, m);
    assert Bears(f, m);
  }

  // ----- The runs of an exporter -----

  function StampsOf(fs: seq<StoreFlow>): (r: seq<Stamp>)
    ensures |r| == |fs|
  {
    if fs == [] then [] else StampsOf(fs[..|fs| - 1]) + [StampOf(fs[|fs| - 1])]
  }

  function Times(n: nat, s: Stamp): (r: seq<Stamp>)
    ensures |r| == n
  {
    if n == 0 then [] else Times(n - 1, s) + [s]
  }

  /** For each packet as many times as it has records: the exporter's uptime, its clock and
      the number of flows exported before, the version and the source, and the arrival. */
  ghost function RunStamps(ps: seq<Packet>, exported: u64, uptime: u32, clock: nat -> u32,
                           sec: nat -> u32, usec: nat -> u32, agent: HostAddr): seq<Stamp>
  {
    if ps == [] then []
    else
      var n := |ps| - 1;
      RunStamps(ps[..n], exported, uptime, clock, sec, usec, agent)
      + Times(CountRecords(SetFlows(ps[n].sets)),
              Stamp(uptime, clock(n), 9, X.Sequence(ps[..n], exported), 0, sec(n), usec(n), agent))
  }

  lemma {:induction false} StampsConcat(a: seq<StoreFlow>, b: seq<StoreFlow>)
    ensures StampsOf(a + b) == StampsOf(a) + StampsOf(b)
    decreases |b|
  {
    if b == [] {
      assert a + b == a;
    } else {
      hide StampOf;
      var n := |b| - 1;
      assert (a + b)[..|a + b| - 1] == a + b[..n];
      StampsConcat(a, b[..n]);
    }
  }

  lemma {:induction false} StampedAlike(fs: seq<StoreFlow>, s: Stamp)
    requires forall f <- fs :: StampOf(f) == s
    ensures StampsOf(fs) == Times(|fs|, s)
    decreases |fs|
  {
    if fs != [] {
      hide StampOf;
      assert fs[|fs| - 1] in fs;
      StampedAlike(fs[..|fs| - 1], s);
    }
  }

  lemma {:induction false} AllCollectedBear(flows: seq<Flow>, m: Meta)
    requires forall f <- flows :: !f.ends.OtherFamily?
    ensures forall c <- CollectedAll(flows, m) :: StampOf(c) == StampFor(m)
    decreases |flows|
  {
    if flows != [] {
      hide BothWays, StampOf, StampFor;
      var n := |flows| - 1;
      assert flows[n] in flows;
      AllCollectedBear(flows[..n], m);
      BothBear(flows[n], m);
    }
  }

  lemma BothBear(f: Flow, m: Meta)
    requires !f.ends.OtherFamily?
    ensures forall c <- BothWays(f, m) :: StampOf(c) == StampFor(m)
  {
    hide ToXAddr, OfXAddr, RawOf, From;
    AddressBack(m.agent);
  }

  /** So do the records that are collected from a whole run of packets. */
  lemma {:induction false} RunStamped(ps: seq<Packet>, exported: u64, uptime: u32, clock: nat -> u32,
                                      sec: nat -> u32, usec: nat -> u32, agent: HostAddr)
    requires (forall p <- ps :: PacketOk(p)) && X.Stamped(ps, exported, uptime, clock)
    ensures StampsOf(CollectedRun(ps, sec, usec, agent)) == RunStamps(ps, exported, uptime, clock, sec, usec, agent)
    decreases |ps|
  {
    hide PacketOk, SetFlows, CollectedAll, StampOf, X.Sequence, CountRecords;
    if ps != [] {
      var n := |ps| - 1;
      var m := MetaFor(ps[n], sec(n), usec(n), agent);
      LessStamped(ps, exported, uptime, clock);
      RunStamped(ps[..n], exported, uptime, clock, sec, usec, agent);
      SizedFlows(ps[n]);
      AllCollectedBear(SetFlows(ps[n].sets), m);
      StampedAlike(CollectedAll(SetFlows(ps[n].sets), m), StampFor(m));
      StampsConcat(CollectedRun(ps[..n], sec, usec, agent), CollectedAll(SetFlows(ps[n].sets), m));
    }
  }

  lemma LessStamped(ps: seq<Packet>, exported: u64, uptime: u32, clock: nat -> u32)
    requires X.Stamped(ps, exported, uptime, clock) && ps != []
    ensures var n := |ps| - 1;
      && X.Stamped(ps[..n], exported, uptime, clock)
      && ps[n].uptime == uptime && ps[n].time == clock(n) && ps[n].sequence == X.Sequence(ps[..n], exported)
  {
    hide X.Sequence;
    var n := |ps| - 1;
    assert forall k :: 0 <= k < n ==> ps[..n][..k] == ps[..k] && ps[..n][k] == ps[k];
  }
}
