/** Packets of the NetFlow v9 exporter read by the collector: softflowd/netflow9.c against
    flowd/flowd.c. */
module Nf9RoundTrip {
  import opened Addr
  import AddrMatch
  import opened Bytes
  import opened FlowRecord
  import Lru
  import opened Nf9Collect
  import X = Nf9Export
  import opened Nf9Wire
  import opened PeerState
  import opened Sequences

  // ----- What the collector is to make of a flow -----

  const V4_FIELDS: Fields := {SRC_ADDR4, DST_ADDR4}
  const V6_FIELDS: Fields := {SRC_ADDR6, DST_ADDR6}
  const COMMON_FIELDS: Fields := {FLOW_TIMES, OCTETS, PACKETS, SRCDST_PORT, PROTO_FLAGS_TOS}

  function RawOf(v6: bool, a: seq<u8>): Raw
    requires |a| == if v6 then 16 else 4
  {
    if v6 then RawAddr(AddrMatch.Inet6, a, 0) else RawAddr(AddrMatch.Inet, a + ZERO16[4..], 0)
  }

  function From(ends: Ends, back: bool): (a: seq<u8>)
    requires !ends.OtherFamily?
    ensures |a| == if ends.Inet6? then 16 else 4
  {
    match ends
    case Inet(a, b) => if back then b else a
    case Inet6(a, b) => if back then b else a
  }

  /** The flow record for one direction of a flow. */
  function Collected(f: Flow, back: bool, m: Meta): StoreFlow
    requires !f.ends.OtherFamily?
  {
    Blank(m).(
    fields := Blank(m).fields + (if f.ends.Inet6? then V6_FIELDS else V4_FIELDS) + COMMON_FIELDS,
    src := RawOf(f.ends.Inet6?, From(f.ends, back)), dst := RawOf(f.ends.Inet6?, From(f.ends, !back)),
    flowFinish := f.start, flowStart := f.last,
    octets := if back then f.octetsB else f.octetsA, packets := if back then f.packetsB else f.packetsA,
    srcPort := if back then f.portB else f.portA, dstPort := if back then f.portA else f.portB,
    protocol := f.protocol, tcpFlags := if back then f.flagsB else f.flagsA)
  }

  function BothWays(f: Flow, m: Meta): seq<StoreFlow>
    requires !f.ends.OtherFamily?
  {
    (if f.octetsA > 0 then [Collected(f, false, m)] else []) + (if f.octetsB > 0 then [Collected(f, true, m)] else [])
  }

  function CollectedAll(flows: seq<Flow>, m: Meta): (r: seq<StoreFlow>)
    requires forall f <- flows :: !f.ends.OtherFamily?
    ensures |r| == CountRecords(flows)
  {
    if flows == [] then [] else CollectedAll(flows[..|flows| - 1], m) + BothWays(flows[|flows| - 1], m)
  }

  // ----- One record -----

  lemma {:induction false} DecodeCons(r: Nf9Record, rs: seq<Nf9Record>, f: StoreFlow, piece: seq<u8>, rest: seq<u8>)
    requires |piece| == r.len && CheckRecLen(r.kind, r.len) && RecordsOk(rs) && Total(rs) <= |rest|
    ensures RecordsOk([r] + rs) && Total([r] + rs) == r.len + Total(rs)
    ensures Decode([r] + rs, f, piece + rest) == Decode(rs, RecToFlow(r.kind, f, piece), rest)
  {
    hide RecToFlow, CheckRecLen;
    var all := [r] + rs;
    if rs == [] {
      assert all[..0] == [];
      assert (piece + rest)[0..r.len] == piece;
    } else {
      var n := |rs| - 1;
      assert all[..|all| - 1] == [r] + rs[..n];
      DecodeCons(r, rs[..n], f, piece, rest);
      var at := Total(rs[..n]);
      assert (piece + rest)[r.len + at..r.len + at + rs[n].len] == rest[at..at + rs[n].len];
    }
  }

  lemma CopyPut(w: u32, h: u16, b: u8)
    ensures Copy4(0, Put32(w)) == w && Copy8(0, Put32(w)) == w && Copy2(0, Put16(h)) == h && Copy1(0, [b]) == b
  {
    BeCopyBlank(4, Put32(w));
    BeCopyBlank(8, Put32(w));
    BeCopyBlank(2, Put16(h));
    BeCopyBlank(1, [b]);
    NumberOf(Put32(w));
    NumberOf(Put16(h));
    NumberOf([b]);
    GetPut32(Put32(w), 0, w);
    GetPut16(Put16(h), 0, h);
  }

  lemma TakesTimes(f: StoreFlow, finish: u32, start: u32)
    requires f.flowFinish == 0 && f.flowStart == 0
    ensures CheckRecLen(LAST_SWITCHED, 4) && CheckRecLen(FIRST_SWITCHED, 4)
    ensures RecToFlow(FIRST_SWITCHED, RecToFlow(LAST_SWITCHED, f, Put32(finish)), Put32(start))
      == f.(fields := f.fields + {FLOW_TIMES}, flowFinish := finish, flowStart := start)
  {
    hide Copy1, Copy2, Copy4, Copy8, Put16, Put32;
    CopyPut(finish, 0, 0);
    CopyPut(start, 0, 0);
  }

  lemma TakesSizes(f: StoreFlow, octets: u32, packets: u32)
    requires f.octets == 0 && f.packets == 0
    ensures CheckRecLen(IN_BYTES, 4) && CheckRecLen(IN_PACKETS, 4)
    ensures RecToFlow(IN_PACKETS, RecToFlow(IN_BYTES, f, Put32(octets)), Put32(packets))
      == f.(fields := f.fields + {OCTETS} + {PACKETS}, octets := octets, packets := packets)
  {
    hide Copy1, Copy2, Copy4, Copy8, Put16, Put32;
    CopyPut(octets, 0, 0);
    CopyPut(packets, 0, 0);
  }

  lemma TakesPorts(f: StoreFlow, src: u16, dst: u16)
    requires f.srcPort == 0 && f.dstPort == 0
    ensures CheckRecLen(L4_SRC_PORT, 2) && CheckRecLen(L4_DST_PORT, 2)
    ensures RecToFlow(L4_DST_PORT, RecToFlow(L4_SRC_PORT, f, Put16(src)), Put16(dst))
      == f.(fields := f.fields + {SRCDST_PORT}, srcPort := src, dstPort := dst)
  {
    hide Copy1, Copy2, Copy4, Copy8, Put16, Put32;
    CopyPut(0, src, 0);
    CopyPut(0, dst, 0);
  }

  lemma TakesProtocol(f: StoreFlow, protocol: u8, flags: u8, version: u8)
    requires f.protocol == 0 && f.tcpFlags == 0
    ensures CheckRecLen(IN_PROTOCOL, 1) && CheckRecLen(TCP_FLAGS, 1) && CheckRecLen(IP_PROTOCOL_VERSION, 1)
    ensures RecToFlow(IP_PROTOCOL_VERSION, RecToFlow(TCP_FLAGS, RecToFlow(IN_PROTOCOL, f, [protocol]), [flags]), [version])
      == f.(fields := f.fields + {PROTO_FLAGS_TOS}, protocol := protocol, tcpFlags := flags)
  {
    hide Copy1, Copy2, Copy4, Copy8, Put16, Put32;
    CopyPut(0, 0, protocol);
    CopyPut(0, 0, flags);
  }

  lemma TakesAddrs(f: StoreFlow, v6: bool, src: seq<u8>, dst: seq<u8>)
    requires f.src == NO_ADDR && f.dst == NO_ADDR && |src| == |dst| == if v6 then 16 else 4
    ensures var rs := TemplateRecords(v6);
      && CheckRecLen(rs[0].kind, |src|) && CheckRecLen(rs[1].kind, |dst|)
      && RecToFlow(rs[1].kind, RecToFlow(rs[0].kind, f, src), dst)
        == f.(fields := f.fields + (if v6 then V6_FIELDS else V4_FIELDS), src := RawOf(v6, src), dst := RawOf(v6, dst))
  {
    if v6 {
      assert src + ZERO16[16..] == src && dst + ZERO16[16..] == dst;
      assert f.fields + {SRC_ADDR6} + {DST_ADDR6} == f.fields + V6_FIELDS;
    } else {
      assert f.fields + {SRC_ADDR4} + {DST_ADDR4} == f.fields + V4_FIELDS;
    }
  }

  lemma DecodeTwo(r: Nf9Record, r': Nf9Record, rs: seq<Nf9Record>, f: StoreFlow, a: seq<u8>, b: seq<u8>, rest: seq<u8>)
    requires |a| == r.len && CheckRecLen(r.kind, r.len) && |b| == r'.len && CheckRecLen(r'.kind, r'.len)
    requires RecordsOk(rs) && Total(rs) <= |rest|
    ensures var all := [r, r'] + rs;
      && RecordsOk(all) && Total(all) == r.len + r'.len + Total(rs)
      && Decode(all, f, a + b + rest) == Decode(rs, RecToFlow(r'.kind, RecToFlow(r.kind, f, a), b), rest)
  {
    hide RecToFlow, CheckRecLen, RecordsOk, Decode, Total;
    DecodeCons(r', rs, RecToFlow(r.kind, f, a), b, rest);
    DecodeCons(r, [r'] + rs, f, a, b + rest);
    assert [r] + ([r'] + rs) == [r, r'] + rs;
    assert a + (b + rest) == a + b + rest;
  }

  const TIMES_RECORDS: seq<Nf9Record> := [Nf9Record(LAST_SWITCHED, 4), Nf9Record(FIRST_SWITCHED, 4)]
  const SIZES_RECORDS: seq<Nf9Record> := [Nf9Record(IN_BYTES, 4), Nf9Record(IN_PACKETS, 4)]
  const PORTS_RECORDS: seq<Nf9Record> := [Nf9Record(L4_SRC_PORT, 2), Nf9Record(L4_DST_PORT, 2)]
  const LAST_RECORDS: seq<Nf9Record> :=
    [Nf9Record(IN_PROTOCOL, 1), Nf9Record(TCP_FLAGS, 1), Nf9Record(IP_PROTOCOL_VERSION, 1)]

  lemma LastDecoded(f: StoreFlow, protocol: u8, flags: u8, version: u8, rest: seq<u8>)
    requires f.protocol == 0 && f.tcpFlags == 0
    ensures RecordsOk(LAST_RECORDS) && Total(LAST_RECORDS) == 3
    ensures Decode(LAST_RECORDS, f, [protocol, flags, version] + rest)
      == f.(fields := f.fields + {PROTO_FLAGS_TOS}, protocol := protocol, tcpFlags := flags)
  {
    hide RecToFlow, CheckRecLen, Decode, Total;
    TakesProtocol(f, protocol, flags, version);
    Nothing(RecToFlow(IP_PROTOCOL_VERSION, RecToFlow(TCP_FLAGS, RecToFlow(IN_PROTOCOL, f, [protocol]), [flags]), [version]), rest);
    DecodeCons(LAST_RECORDS[2], [], RecToFlow(TCP_FLAGS, RecToFlow(IN_PROTOCOL, f, [protocol]), [flags]), [version], rest);
    DecodeTwo(LAST_RECORDS[0], LAST_RECORDS[1], [LAST_RECORDS[2]] + [], f, [protocol], [flags], [version] + rest);
    assert [LAST_RECORDS[0], LAST_RECORDS[1]] + ([LAST_RECORDS[2]] + []) == LAST_RECORDS;
    assert [protocol] + [flags] + ([version] + rest) == [protocol, flags, version] + rest;
  }

  lemma Nothing(f: StoreFlow, data: seq<u8>)
    ensures RecordsOk([]) && Total([]) == 0 && Decode([], f, data) == f
  {
  }

  lemma PortsDecoded(g: StoreFlow, src: u16, dst: u16, protocol: u8, flags: u8, version: u8, rest: seq<u8>)
    requires g.srcPort == 0 && g.dstPort == 0 && g.protocol == 0 && g.tcpFlags == 0
    ensures RecordsOk(PORTS_RECORDS + LAST_RECORDS) && Total(PORTS_RECORDS + LAST_RECORDS) == 7
    ensures Decode(PORTS_RECORDS + LAST_RECORDS, g, Put16(src) + Put16(dst) + ([protocol, flags, version] + rest))
      == g.(fields := g.fields + {SRCDST_PORT} + {PROTO_FLAGS_TOS}, srcPort := src, dstPort := dst, protocol := protocol, tcpFlags := flags)
  {
    hide RecToFlow, CheckRecLen, Decode, Total, Put16, LAST_RECORDS;
    TakesPorts(g, src, dst);
    var g' := g.(fields := g.fields + {SRCDST_PORT}, srcPort := src, dstPort := dst);
    LastDecoded(g', protocol, flags, version, rest);
    DecodeTwo(PORTS_RECORDS[0], PORTS_RECORDS[1], LAST_RECORDS, g, Put16(src), Put16(dst), [protocol, flags, version] + rest);
  }

  /** The nine common records of a template. */
  lemma CommonDecoded(g: StoreFlow, f: Flow, back: bool, rest: seq<u8>)
    requires g.flowFinish == 0 && g.flowStart == 0 && g.octets == 0 && g.packets == 0
    requires g.srcPort == 0 && g.dstPort == 0 && g.protocol == 0 && g.tcpFlags == 0
    ensures RecordsOk(COMMON_RECORDS) && Total(COMMON_RECORDS) == 23
    ensures Decode(COMMON_RECORDS, g, Common(f, back) + rest) == g.(
      fields := g.fields + COMMON_FIELDS, flowFinish := f.start, flowStart := f.last,
      octets := if back then f.octetsB else f.octetsA, packets := if back then f.packetsB else f.packetsA,
      srcPort := if back then f.portB else f.portA, dstPort := if back then f.portA else f.portB,
      protocol := f.protocol, tcpFlags := if back then f.flagsB else f.flagsA)
  {
    hide RecToFlow, CheckRecLen, Decode, Total, Put32, Put16, PORTS_RECORDS, LAST_RECORDS, RecordsOk;
    var (octets, packets) := if back then (f.octetsB, f.packetsB) else (f.octetsA, f.packetsA);
    var (src, dst) := if back then (f.portB, f.portA) else (f.portA, f.portB);
    var flags, version := if back then f.flagsB else f.flagsA, if f.ends.Inet6? then 6 else 4;
    TakesTimes(g, f.start, f.last);
    var g1 := g.(fields := g.fields + {FLOW_TIMES}, flowFinish := f.start, flowStart := f.last);
    TakesSizes(g1, octets, packets);
    var g2 := g1.(fields := g1.fields + {OCTETS} + {PACKETS}, octets := octets, packets := packets);
    PortsDecoded(g2, src, dst, f.protocol, flags, version, rest);
    var rs2, d2 := PORTS_RECORDS + LAST_RECORDS, Put16(src) + Put16(dst) + ([f.protocol, flags, version] + rest);
    DecodeTwo(SIZES_RECORDS[0], SIZES_RECORDS[1], rs2, g1, Put32(octets), Put32(packets), d2);
    var rs1, d1 := SIZES_RECORDS + rs2, Put32(octets) + Put32(packets) + d2;
    DecodeTwo(TIMES_RECORDS[0], TIMES_RECORDS[1], rs1, g, Put32(f.start), Put32(f.last), d1);
    AllRecords();
    assert Put32(f.start) + Put32(f.last) + d1 == Common(f, back) + rest;
    assert g2.fields + {SRCDST_PORT} + {PROTO_FLAGS_TOS} == g.fields + COMMON_FIELDS;
  }

  lemma AllRecords()
    ensures COMMON_RECORDS == TIMES_RECORDS + (SIZES_RECORDS + (PORTS_RECORDS + LAST_RECORDS))
  {
  }

  /** A data record decodes to the flow record of its direction. */
  lemma RecordDecoded(f: Flow, back: bool, m: Meta, rest: seq<u8>)
    requires !f.ends.OtherFamily?
    ensures var rs := TemplateRecords(f.ends.Inet6?);
      && RecordsOk(rs) && Total(rs) == RecordSize(f.ends.Inet6?)
      && Decode(rs, Blank(m), Record(f, back) + rest) == Collected(f, back, m)
  {
    hide RecToFlow, CheckRecLen, Decode, Total, Common, COMMON_RECORDS;
    var v6 := f.ends.Inet6?;
    var src, dst := From(f.ends, back), From(f.ends, !back);
    var rs := TemplateRecords(v6);
    TakesAddrs(Blank(m), v6, src, dst);
    var g := Blank(m).(fields := Blank(m).fields + (if v6 then V6_FIELDS else V4_FIELDS), src := RawOf(v6, src), dst := RawOf(v6, dst));
    CommonDecoded(g, f, back, rest);
    DecodeTwo(rs[0], rs[1], COMMON_RECORDS, Blank(m), src, dst, Common(f, back) + rest);
    assert [rs[0], rs[1]] + COMMON_RECORDS == rs;
    assert src + dst + (Common(f, back) + rest) == Record(f, back) + rest;
  }

  // ----- The records of a flowset -----

  /** Decoding an exported record by its template gives the two switch times in each other's
      place: they arrive as they were sent if and only if they are equal. */
  lemma TimesArriveSwapped(f: Flow, back: bool, m: Meta, rest: seq<u8>)
    requires !f.ends.OtherFamily?
    ensures var rs := TemplateRecords(f.ends.Inet6?); var data := Record(f, back) + rest;
      && RecordsOk(rs) && Total(rs) <= |data|
      && var c := Decode(rs, Blank(m), data);
         && c.flowStart == f.last && c.flowFinish == f.start
         && (c.flowStart == f.start && c.flowFinish == f.last <==> f.start == f.last)
  {
    hide Decode, Record, TemplateRecords;
    RecordDecoded(f, back, m, rest);
    assert |Record(f, back)| == RecordSize(f.ends.Inet6?) by { RecordLength(f, back); }
  }

  lemma RecordLength(f: Flow, back: bool)
    requires !f.ends.OtherFamily?
    ensures |Record(f, back)| == RecordSize(f.ends.Inet6?)
  {
  }

  function Template(v6: bool): Nf9Template {
    Nf9Template(TemplateId(v6), TemplateRecords(v6), RecordSize(v6))
  }

  lemma TemplateIs(v6: bool)
    ensures RecordsOk(Template(v6).records) && Total(Template(v6).records) == Template(v6).totalLen
  {
    var a := seq(if v6 then 16 else 4, _ => 0 as u8);
    var f := Flow(if v6 then Inet6(a, a) else Inet(a, a), 0, 0, 0, 0, 0, 1, 0, 0, 0, 0, 0);
    RecordDecoded(f, false, Meta(0, 0, 0, 0, 0, 0, 0, V4(0)), []);
  }

  lemma Distribute(a: nat, b: nat, c: nat)
    ensures (a + b) * c == a * c + b * c
  {
  }

  lemma {:induction false} BodySize(flows: seq<Flow>, v6: bool)
    requires X.CurOk(v6, flows)
    ensures |Body(flows)| == CountRecords(flows) * RecordSize(v6) && |flows| <= CountRecords(flows)
  {
    if flows != [] {
      hide Records, Directions, RecordSize;
      var n := |flows| - 1;
      BodySize(flows[..n], v6);
      assert |Records(flows[n])| == |Directions(flows[n])| * RecordSize(v6);
      Distribute(CountRecords(flows[..n]), |Directions(flows[n])|, RecordSize(v6));
    }
  }

  /** The first n records of data decode to out, and rest follows them. */
  ghost predicate Reads(t: Nf9Template, m: Meta, data: seq<u8>, n: nat, rest: seq<u8>, out: seq<StoreFlow>) {
    && RecordsOk(t.records) && t.totalLen == Total(t.records)
    && n * t.totalLen <= |data| && data[n * t.totalLen..] == rest
    && DecodeAll(t, m, data, n) == out
  }

  lemma ReadsNext(t: Nf9Template, m: Meta, data: seq<u8>, n: nat, piece: seq<u8>, rest: seq<u8>, out: seq<StoreFlow>, r: StoreFlow)
    requires Reads(t, m, data, n, piece + rest, out) && |piece| == t.totalLen
    requires RecordsOk(t.records) && Total(t.records) == |piece| && Decode(t.records, Blank(m), piece + rest) == r
    ensures Reads(t, m, data, n + 1, rest, out + [r])
  {
    hide Decode, Blank, RecordsOk, Total;
    LastRecord(n + 1, t.totalLen);
    assert data[(n + 1) * t.totalLen..] == data[n * t.totalLen..][t.totalLen..];
  }

  lemma RecordNext(v6: bool, m: Meta, data: seq<u8>, n: nat, f: Flow, back: bool, rest: seq<u8>, out: seq<StoreFlow>)
    requires !f.ends.OtherFamily? && f.ends.Inet6? == v6 && Reads(Template(v6), m, data, n, Record(f, back) + rest, out)
    ensures Reads(Template(v6), m, data, n + 1, rest, out + [Collected(f, back, m)])
  {
    hide Reads, Decode, Record, Collected, Blank, TemplateRecords, RecordsOk, Total;
    RecordDecoded(f, back, m, rest);
    ReadsNext(Template(v6), m, data, n, Record(f, back), rest, out, Collected(f, back, m));
  }

  lemma FlowNext(v6: bool, m: Meta, data: seq<u8>, n: nat, f: Flow, rest: seq<u8>, out: seq<StoreFlow>)
    requires !f.ends.OtherFamily? && f.ends.Inet6? == v6 && Reads(Template(v6), m, data, n, Records(f) + rest, out)
    ensures Reads(Template(v6), m, data, n + |Directions(f)|, rest, out + BothWays(f, m))
  {
    hide Reads, Record, Collected, Template;
    var second := if f.octetsB > 0 then Record(f, true) else [];
    assert out + [] == out && [] + rest == rest;
    if f.octetsA > 0 {
      assert Records(f) + rest == Record(f, false) + (second + rest);
      RecordNext(v6, m, data, n, f, false, second + rest, out);
      var out' := out + [Collected(f, false, m)];
      if f.octetsB > 0 {
        RecordNext(v6, m, data, n + 1, f, true, rest, out');
        assert out' + [Collected(f, true, m)] == out + BothWays(f, m);
      } else {
        assert out' == out + BothWays(f, m);
      }
    } else if f.octetsB > 0 {
      assert Records(f) == second;
      RecordNext(v6, m, data, n, f, true, rest, out);
      assert BothWays(f, m) == [Collected(f, true, m)];
    } else {
      assert Records(f) == [] && BothWays(f, m) == [];
    }
  }

  lemma CurPrefix(v6: bool, flows: seq<Flow>)
    requires X.CurOk(v6, flows) && flows != []
    ensures X.CurOk(v6, flows[..|flows| - 1])
    ensures !flows[|flows| - 1].ends.OtherFamily? && flows[|flows| - 1].ends.Inet6? == v6
  {
  }

  lemma NoneDecoded(v6: bool, m: Meta, rest: seq<u8>)
    ensures Reads(Template(v6), m, Body([]) + rest, 0, rest, [])
  {
    TemplateIs(v6);
    hide RecordsOk, Total, Template;
    assert Body([]) + rest == rest;
  }

  /** The data records of a run of flows decode to their flow records, in order. */
  lemma {:induction false} BodyDecoded(flows: seq<Flow>, v6: bool, m: Meta, rest: seq<u8>)
    requires X.CurOk(v6, flows)
    ensures (forall f <- flows :: !f.ends.OtherFamily?)
    ensures Reads(Template(v6), m, Body(flows) + rest, CountRecords(flows), rest, CollectedAll(flows, m))
  {
    hide Reads, Records, Directions, BothWays, Template, Exportable, X.CurOk;
    X.CurIs(v6, flows);
    if flows == [] {
      NoneDecoded(v6, m, rest);
    } else {
      var n := |flows| - 1;
      CurPrefix(v6, flows);
      BodyDecoded(flows[..n], v6, m, Records(flows[n]) + rest);
      assert Body(flows) + rest == Body(flows[..n]) + (Records(flows[n]) + rest);
      FlowNext(v6, m, Body(flows) + rest, CountRecords(flows[..n]), flows[n], rest, CollectedAll(flows[..n], m));
    }
  }

  // ----- A flowset -----

  /** The collector has the exporter's own template, or none under its number. */
  ghost predicate Usable(s: seq<Nf9Source>, v6: bool) {
    var p := FindPlace(s, 0, TemplateId(v6));
    p.Place? && s[p.source].templates[p.template] == Template(v6)
  }

  ghost predicate Missing(s: seq<Nf9Source>, v6: bool) {
    FindPlace(s, 0, TemplateId(v6)) == Nowhere
  }

  lemma SmallSet(s: DataSet)
    requires SetOk(s) && SetLength(s) <= MAX_PACKET_SIZE
    ensures |Body(s.flows)| == CountRecords(s.flows) * RecordSize(s.v6) && 0 < CountRecords(s.flows) < 0x4000
    ensures (|Body(s.flows)| + |s.pad|) / RecordSize(s.v6) == CountRecords(s.flows)
  {
    hide Body, CountRecords;
    BodySize(s.flows, s.v6);
  }

  /** Padding is no record: as many records come out of a flowset as went in. */
  lemma RecordsComeOut(st: State, lim: Limits, s: DataSet, m: Meta)
    requires SetOk(s) && SetLength(s) <= MAX_PACKET_SIZE && TemplateOk(Template(s.v6), lim.maxLen)
    ensures (forall f <- s.flows :: !f.ends.OtherFamily?)
    ensures DataRecords(st, Template(s.v6), lim, Body(s.flows) + s.pad, m) == Good(st, CollectedAll(s.flows, m))
  {
    hide Body, CountRecords, SetLength, RecordsOk, Total, TemplateRecords, CollectedAll, DecodeAll;
    SmallSet(s);
    BodyDecoded(s.flows, s.v6, m, s.pad);
  }

  /** What a data flowset gives: its flows, or nothing if its template is missing. */
  ghost function Gives(sources: seq<Nf9Source>, s: DataSet, m: Meta): seq<StoreFlow>
    requires SetOk(s)
  {
    if Usable(sources, s.v6) then CollectedAll(s.flows, m) else []
  }

  lemma SetRead(st: State, lim: Limits, pkt: seq<u8>, s: DataSet, tail: seq<u8>, m: Meta)
    requires StoredOk(st.sources, lim) && m.sourceId == 0 && SetOk(s) && SetLength(s) <= MAX_PACKET_SIZE
    requires pkt == EncodeSet(s) + tail && (Usable(st.sources, s.v6) || Missing(st.sources, s.v6))
    ensures Get16(pkt, 0) == TemplateId(s.v6) && Get16(pkt, 2) == SetLength(s)
    ensures OneSet(st, lim, pkt, TemplateId(s.v6), SetLength(s), m) ==
      Good(if Usable(st.sources, s.v6) then st else st.(noTemplate := st.noTemplate + 1), Gives(st.sources, s, m))
  {
    hide Body, SetLength, RecordsOk, Total, TemplateRecords, CollectedAll, DecodeAll, DataRecords, SourcesOk, Put16, Get16;
    X.SetIs(s);
    assert pkt[0..2] == Put16(TemplateId(s.v6)) && pkt[2..4] == Put16(SetLength(s));
    GetPut16(pkt, 0, TemplateId(s.v6));
    GetPut16(pkt, 2, SetLength(s));
    assert pkt[4..SetLength(s)] == Body(s.flows) + s.pad;
    if Usable(st.sources, s.v6) {
      RecordsComeOut(st, lim, s, m);
    }
  }

  // ----- The data flowsets of a packet -----

  ghost predicate Sized(sets: seq<DataSet>) {
    forall s <- sets :: SetOk(s) && SetLength(s) <= MAX_PACKET_SIZE
  }

  lemma LastSet(sets: seq<DataSet>)
    requires Sized(sets) && sets != []
    ensures Sized(sets[..|sets| - 1]) && SetOk(sets[|sets| - 1]) && SetLength(sets[|sets| - 1]) <= MAX_PACKET_SIZE
    ensures EncodeSets(sets) == EncodeSets(sets[..|sets| - 1]) + EncodeSet(sets[|sets| - 1])
  {
    hide SetOk, SetLength, EncodeSet;
  }

  lemma {:induction false} FirstSet(sets: seq<DataSet>)
    requires Sized(sets) && sets != []
    ensures EncodeSets(sets) == EncodeSet(sets[0]) + EncodeSets(sets[1..])
  {
    hide SetOk, SetLength, EncodeSet, EncodeSets;
    var n := |sets| - 1;
    NoSet();
    LastSet(sets);
    if n == 0 {
      assert sets[..0] == [] && sets[1..] == [];
    } else {
      FirstSet(sets[..n]);
      var rest := sets[1..];
      LastSet(rest);
      assert sets[..n][1..] == rest[..n - 1];
    }
  }

  lemma NoSet()
    ensures EncodeSets([]) == []
  {
  }

  lemma LastFlows(sets: seq<DataSet>)
    ensures SetFlows(sets) == if sets == [] then [] else SetFlows(sets[..|sets| - 1]) + sets[|sets| - 1].flows
  {
  }

  lemma {:induction false} FirstFlows(sets: seq<DataSet>)
    requires sets != []
    ensures SetFlows(sets) == sets[0].flows + SetFlows(sets[1..])
  {
    hide SetFlows;
    var n := |sets| - 1;
    LastFlows(sets);
    LastFlows(sets[1..]);
    if n == 0 {
      LastFlows([]);
      assert sets[..0] == [] && sets[1..] == [];
    } else {
      FirstFlows(sets[..n]);
      assert sets[..n][1..] == sets[1..][..n - 1];
    }
  }

  ghost predicate Clear(s: seq<Nf9Source>) {
    forall v6 :: Usable(s, v6) || Missing(s, v6)
  }

  ghost function CollectedSets(sources: seq<Nf9Source>, sets: seq<DataSet>, m: Meta): seq<StoreFlow>
    requires Sized(sets)
  {
    if sets == [] then [] else Gives(sources, sets[0], m) + CollectedSets(sources, sets[1..], m)
  }

  /** How many of the flowsets find no template. */
  ghost function Lost(sources: seq<Nf9Source>, sets: seq<DataSet>): nat {
    if sets == [] then 0 else (if Usable(sources, sets[0].v6) then 0 else 1) + Lost(sources, sets[1..])
  }

  ghost function Losing(st: State, n: nat): State {
    st.(noTemplate := st.noTemplate + n)
  }

  /** One round of the loop over flowsets. */
  lemma OneSetRead(st: State, lim: Limits, pkt: seq<u8>, offset: nat, id: nat, len: nat, m: Meta, st': State, flows: seq<StoreFlow>)
    requires StoredOk(st.sources, lim) && lim.maxSources > 0 && lim.maxTemplates > 0
    requires offset + 4 <= |pkt| && Get16(pkt[offset..], 0) == id && Get16(pkt[offset..], 2) == len && 0 < len <= |pkt| - offset
    requires OneSet(st, lim, pkt[offset..], id, len, m) == Good(st', flows)
    ensures StoredOk(st'.sources, lim)
    ensures ReadSets(st, lim, pkt, offset, m) ==
      if offset + len == |pkt| then Run(st', flows, true) else After(flows, ReadSets(st', lim, pkt, offset + len, m))
  {
    hide StoredOk, OneSet;
    assert Get16(pkt, offset) == id && Get16(pkt, offset + 2) == len;
    OneSetKeeps(st, lim, pkt[offset..], id, len, m);
  }

  lemma {:induction false} SetsRead(st: State, lim: Limits, pkt: seq<u8>, offset: nat, sets: seq<DataSet>, m: Meta)
    requires StoredOk(st.sources, lim) && lim.maxSources > 0 && lim.maxTemplates > 0 && m.sourceId == 0
    requires Clear(st.sources) && Sized(sets) && sets != [] && offset <= |pkt| && pkt[offset..] == EncodeSets(sets)
    ensures ReadSets(st, lim, pkt, offset, m) ==
      Run(Losing(st, Lost(st.sources, sets)), CollectedSets(st.sources, sets, m), true)
    decreases |sets|
  {
    hide StoredOk, EncodeSet, EncodeSets, SetOk, SetLength, OneSet, Usable, Missing, Gives, ReadSets, TemplateId, Get16;
    var s, rest := sets[0], sets[1..];
    FirstSet(sets);
    SetRead(st, lim, pkt[offset..], s, EncodeSets(rest), m);
    SetHeader(s);
    var st' := if Usable(st.sources, s.v6) then st else Losing(st, 1);
    NoSets(rest);
    OneSetRead(st, lim, pkt, offset, TemplateId(s.v6), SetLength(s), m, st', Gives(st.sources, s, m));
    if rest != [] {
      assert pkt[offset + SetLength(s)..] == EncodeSets(rest);
      SetsRead(st', lim, pkt, offset + SetLength(s), rest, m);
    }
  }

  lemma SetHeader(s: DataSet)
    requires SetOk(s) && SetLength(s) <= MAX_PACKET_SIZE
    ensures |EncodeSet(s)| == SetLength(s) && 4 <= SetLength(s)
    ensures TemplateId(s.v6) != TEMPLATE_FLOWSET_ID && TemplateId(s.v6) >= MIN_RECORD_FLOWSET_ID
  {
  }

  lemma NoSets(sets: seq<DataSet>)
    requires Sized(sets)
    ensures EncodeSets(sets) == [] <==> sets == []
  {
    if sets != [] { FirstSet(sets); }
  }

  lemma {:induction false} CollectedConcat(a: seq<Flow>, b: seq<Flow>, m: Meta)
    requires forall f <- a + b :: !f.ends.OtherFamily?
    ensures CollectedAll(a + b, m) == CollectedAll(a, m) + CollectedAll(b, m)
  {
    hide BothWays;
    if b == [] {
      assert a + b == a;
    } else {
      var n := |b| - 1;
      assert (a + b)[..|a + b| - 1] == a + b[..n];
      CollectedConcat(a, b[..n], m);
    }
  }

  /** With both templates at hand nothing is lost. */
  lemma {:induction false} AllCollected(sources: seq<Nf9Source>, sets: seq<DataSet>, m: Meta)
    requires Sized(sets) && forall s <- sets :: Usable(sources, s.v6)
    ensures (forall f <- SetFlows(sets) :: !f.ends.OtherFamily?)
    ensures CollectedSets(sources, sets, m) == CollectedAll(SetFlows(sets), m) && Lost(sources, sets) == 0
    decreases |sets|
  {
    if sets != [] {
      hide CollectedAll, EncodeSets, EncodeSet, SetLength, Usable, SetFlows;
      FirstFlows(sets);
      AllCollected(sources, sets[1..], m);
      assert sets[0] in sets;
      CollectedConcat(sets[0].flows, SetFlows(sets[1..]), m);
    }
  }

  // ----- The template flowsets of a packet -----

  lemma {:induction false} TotalCons(r: Nf9Record, rs: seq<Nf9Record>)
    ensures Total([r] + rs) == r.len + Total(rs)
  {
    if rs == [] {
      assert ([r] + rs)[..0] == [];
    } else {
      TotalCons(r, rs[..|rs| - 1]);
      assert ([r] + rs)[..|rs|] == [r] + rs[..|rs| - 1];
    }
  }

  ghost predicate Short(rs: seq<Nf9Record>) {
    forall r <- rs :: r.kind < 0x1_0000 && r.len < 0x1_0000
  }

  lemma FirstEncoded(rs: seq<Nf9Record>)
    requires Short(rs) && rs != []
    ensures rs[0].kind < 0x1_0000 && rs[0].len < 0x1_0000 && Short(rs[1..])
    ensures EncodeRecords(rs) == Put16(rs[0].kind) + Put16(rs[0].len) + EncodeRecords(rs[1..])
  {
    hide Put16;
  }

  lemma FirstListed(pkt: seq<u8>, offset: nat, kind: u16, len: u16, rest: seq<u8>)
    requires offset + 4 + |rest| <= |pkt| && pkt[offset..offset + 4 + |rest|] == Put16(kind) + Put16(len) + rest
    ensures Get16(pkt, offset) == kind && Get16(pkt, offset + 2) == len
    ensures pkt[offset + 4..offset + 4 + |rest|] == rest
  {
    hide Put16, Get16;
    var end := offset + 4 + |rest|;
    var part := pkt[offset..end];
    ThreeParts(Put16(kind), Put16(len), rest, part);
    GetPut16(part, 0, kind);
    GetPut16(part, 2, len);
    GetInside(pkt, offset, end, 0);
    GetInside(pkt, offset, end, 2);
    Inside(pkt, offset, end, 4, |part|);
    assert part[4..|part|] == part[4..];
  }

  lemma GetInside(p: seq<u8>, a: nat, b: nat, i: nat)
    requires a <= b <= |p| && i + 2 <= b - a
    ensures Get16(p[a..b], i) == Get16(p, a + i)
  {
    assert p[a..b][i] == p[a + i] && p[a..b][i + 1] == p[a + i + 1];
  }

  lemma Inside(p: seq<u8>, a: nat, b: nat, i: nat, j: nat)
    requires a <= b <= |p| && i <= j <= b - a
    ensures p[a..b][i..j] == p[a + i..a + j]
  {
    forall k | 0 <= k < j - i ensures p[a..b][i..j][k] == p[a + i..a + j][k] {
      assert p[a..b][i + k] == p[a + i + k];
    }
  }

  lemma ThreeParts(a: seq<u8>, b: seq<u8>, c: seq<u8>, p: seq<u8>)
    requires p == a + b + c && |a| == |b| == 2
    ensures p[0..2] == a && p[2..4] == b && p[4..] == c
  {
  }

  lemma OneListed(pkt: seq<u8>, len: nat, offset: nat, count: nat, r: Nf9Record, done: seq<Nf9Record>, total: nat, maxLen: nat)
    requires count > 0 && offset + 4 <= len <= |pkt| && Get16(pkt, offset) == r.kind && Get16(pkt, offset + 2) == r.len
    requires total + r.len <= maxLen && CheckRecLen(r.kind, r.len)
    ensures ReadRecords(pkt, len, offset, count, done, total, maxLen)
      == ReadRecords(pkt, len, offset + 4, count - 1, done + [r], total + r.len, maxLen)
  {
    hide CheckRecLen, Get16;
    assert r == Nf9Record(Get16(pkt, offset), Get16(pkt, offset + 2));
  }

  lemma NoneListed(pkt: seq<u8>, len: nat, offset: nat, done: seq<Nf9Record>, total: nat, maxLen: nat)
    ensures ReadRecords(pkt, len, offset, 0, done, total, maxLen) == RecordList(done, total) && Total([]) == 0
  {
  }

  lemma {:induction false} RecordsListed(pkt: seq<u8>, len: nat, offset: nat, rs: seq<Nf9Record>, done: seq<Nf9Record>, total: nat, maxLen: nat)
    requires RecordsOk(rs) && Short(rs)
    requires offset + 4 * |rs| <= len <= |pkt| && pkt[offset..offset + 4 * |rs|] == EncodeRecords(rs)
    requires total + Total(rs) <= maxLen
    ensures ReadRecords(pkt, len, offset, |rs|, done, total, maxLen) == RecordList(done + rs, total + Total(rs))
    decreases |rs|
  {
    hide CheckRecLen, Put16, Get16, Total, EncodeRecords, ReadRecords;
    if rs == [] {
      NoneListed(pkt, len, offset, done, total, maxLen);
      assert done + rs == done;
    } else {
      var r, rest := rs[0], rs[1..];
      assert rs == [r] + rest && r in rs;
      TotalCons(r, rest);
      FirstEncoded(rs);
      FirstListed(pkt, offset, r.kind, r.len, EncodeRecords(rest));
      OneListed(pkt, len, offset, |rs|, r, done, total, maxLen);
      RecordsListed(pkt, len, offset + 4, rest, done + [r], total + r.len, maxLen);
      assert done + [r] + rest == done + rs;
    }
  }

  ghost function Stored(s: seq<Nf9Source>, lim: Limits, v6: bool): seq<Nf9Source> {
    StoreTemplate(s, lim, 0, TemplateId(v6), TemplateRecords(v6), RecordSize(v6))
  }

  lemma ElevenRecords(v6: bool, tail: seq<u8>)
    ensures var rs := TemplateRecords(v6);
      && |rs| == 11 && Short(rs)
      && EncodeTemplate(v6) + tail ==
        Put16(TEMPLATE_FLOWSET_ID) + Put16(TEMPLATE_SIZE) + (Put16(TemplateId(v6)) + Put16(11) + EncodeRecords(rs) + tail)
      && Put16(TemplateId(v6)) + Put16(11) + EncodeRecords(rs) + tail ==
        Put16(TemplateId(v6)) + Put16(11) + (EncodeRecords(rs) + tail)
  {
    hide Put16, EncodeRecords;
  }

  lemma ListsTemplate(pkt: seq<u8>, v6: bool, tail: seq<u8>, maxLen: nat)
    requires pkt == EncodeTemplate(v6) + tail && RecordSize(v6) <= maxLen
    ensures Get16(pkt, 0) == TEMPLATE_FLOWSET_ID && Get16(pkt, 2) == TEMPLATE_SIZE
    ensures Get16(pkt, 4) == TemplateId(v6) && Get16(pkt, 6) == 11
    ensures ReadRecords(pkt, TEMPLATE_SIZE, 8, 11, [], 0, maxLen) == RecordList(TemplateRecords(v6), RecordSize(v6))
  {
    hide Put16, Get16, RecordsOk, ReadRecords, EncodeRecords, Total, EncodeTemplate, TemplateRecords;
    TemplateIs(v6);
    var rs := TemplateRecords(v6);
    ElevenRecords(v6, tail);
    ThreeParts(Put16(TEMPLATE_FLOWSET_ID), Put16(TEMPLATE_SIZE), Put16(TemplateId(v6)) + Put16(11) + EncodeRecords(rs) + tail, pkt);
    ThreeParts(Put16(TemplateId(v6)), Put16(11), EncodeRecords(rs) + tail, pkt[4..]);
    assert pkt[4..][0..2] == pkt[4..6] && pkt[4..][2..4] == pkt[6..8] && pkt[8..8 + 44] == EncodeRecords(rs);
    GetPut16(pkt, 0, TEMPLATE_FLOWSET_ID);
    GetPut16(pkt, 2, TEMPLATE_SIZE);
    GetPut16(pkt, 4, TemplateId(v6));
    GetPut16(pkt, 6, 11);
    RecordsListed(pkt, TEMPLATE_SIZE, 8, rs, [], 0, maxLen);
    assert [] + rs == rs;
  }

  lemma TemplateRead(st: State, lim: Limits, pkt: seq<u8>, v6: bool, tail: seq<u8>, m: Meta)
    requires StoredOk(st.sources, lim) && m.sourceId == 0 && pkt == EncodeTemplate(v6) + tail && RecordSize(v6) <= lim.maxLen
    ensures Get16(pkt, 0) == TEMPLATE_FLOWSET_ID && Get16(pkt, 2) == TEMPLATE_SIZE
    ensures OneSet(st, lim, pkt, TEMPLATE_FLOWSET_ID, TEMPLATE_SIZE, m) == Good(st.(sources := Stored(st.sources, lim, v6)), [])
  {
    hide StoredOk, EncodeTemplate, Get16, ReadRecords, StoreTemplate, TemplateRecords;
    ListsTemplate(pkt, v6, tail, lim.maxLen);
  }

  // ----- What becomes of the two templates in the collector -----

  /** The templates of the exporter's source. */
  ghost function Known(s: seq<Nf9Source>): seq<Nf9Template> {
    var k := IndexOf(s, 0);
    if k < |s| then s[k].templates else []
  }

  ghost predicate Holds(ts: seq<Nf9Template>, t: Nf9Template) {
    TemplateIndexOf(ts, t.id) < |ts| && ts[TemplateIndexOf(ts, t.id)] == t
  }

  ghost predicate Lacks(ts: seq<Nf9Template>, tid: nat) {
    TemplateIndexOf(ts, tid) == |ts|
  }

  lemma UsableIs(s: seq<Nf9Source>, v6: bool)
    ensures Usable(s, v6) <==> Holds(Known(s), Template(v6))
    ensures Missing(s, v6) <==> Lacks(Known(s), TemplateId(v6))
  {
  }

  ghost function Received(ts: seq<Nf9Template>, max: nat, t: Nf9Template): seq<Nf9Template> {
    var j := TemplateIndexOf(ts, t.id);
    if j < |ts| then ts[j := t] else [t] + Trimmed(ts, max)
  }

  lemma FilledKnown(s: seq<Nf9Source>, p: Place, t: Nf9Template)
    requires p.Place? && p.source == IndexOf(s, 0) < |s| && p.template < |s[p.source].templates|
    requires s[p.source].templates[p.template].id == t.id
    ensures Known(Filled(s, p, t.records, t.totalLen)) == Known(s)[p.template := t]
    ensures Known(s)[p.template] == t ==> Filled(s, p, t.records, t.totalLen) == s
  {
    var k, s' := p.source, Filled(s, p, t.records, t.totalLen);
    assert s'[k].id == 0 && forall j :: 0 <= j < k ==> s'[j] == s[j];
    hide IndexOf;
    assert IndexOf(s', 0) == k;
    if Known(s)[p.template] == t {
      assert s[k].templates[p.template := t] == s[k].templates;
    }
  }

  lemma NewKnown(s: seq<Nf9Source>, tid: nat, maxSources: nat, maxTemplates: nat)
    ensures var r := WithTemplate(s, 0, tid, maxSources, maxTemplates);
      && IndexOf(r, 0) == 0 < |r| && Known(r) == [Nf9Template(tid, [], 0)] + Trimmed(Known(s), maxTemplates)
  {
    NothingTrimmed(maxTemplates);
  }

  lemma KnownAfter(s: seq<Nf9Source>, lim: Limits, v6: bool)
    ensures Known(Stored(s, lim, v6)) == Received(Known(s), lim.maxTemplates, Template(v6))
    ensures Usable(s, v6) ==> Stored(s, lim, v6) == s
  {
    hide TemplateRecords, TemplateId, RecordSize, Trimmed, Filled, WithTemplate, TemplateIndexOf, IndexOf;
    var p := FindPlace(s, 0, TemplateId(v6));
    if p.Place? {
      FilledKnown(s, p, Template(v6));
    } else {
      NewKnown(s, TemplateId(v6), lim.maxSources, lim.maxTemplates);
      FilledKnown(WithTemplate(s, 0, TemplateId(v6), lim.maxSources, lim.maxTemplates), Place(0, 0), Template(v6));
    }
  }

  lemma NothingTrimmed(max: nat)
    ensures Trimmed<Nf9Template>([], max) == []
  {
  }

  /** The state in which the arrival of both templates pushes the first one out again: it
      is the last entry of a full list in which the second has no place yet. */
  ghost predicate Crowded(s: seq<Nf9Source>, max: nat) {
    CrowdedList(Known(s), max)
  }

  ghost predicate CrowdedList(ts: seq<Nf9Template>, max: nat) {
    max == 1
    || (ts != [] && |ts| == max && ts[|ts| - 1].id == V4_TEMPLATE_ID && forall t <- ts :: t.id != V6_TEMPLATE_ID)
  }

  ghost predicate Apart(ts: seq<Nf9Template>) {
    forall i, j :: 0 <= i < j < |ts| ==> ts[i].id != ts[j].id
  }

  lemma IndexIs(ts: seq<Nf9Template>, j: nat)
    requires Apart(ts) && j < |ts|
    ensures TemplateIndexOf(ts, ts[j].id) == j
  {
    hide TemplateIndexOf;
  }

  lemma ReceivedIs(ts: seq<Nf9Template>, max: nat, t: Nf9Template)
    requires Apart(ts) && |ts| <= max && max > 0
    ensures var r := Received(ts, max, t); Apart(r) && 0 < |r| <= max && Holds(r, t)
  {
    hide TemplateIndexOf;
    var j, r := TemplateIndexOf(ts, t.id), Received(ts, max, t);
    if j < |ts| {
      assert forall k :: 0 <= k < |ts| ==> r[k].id == ts[k].id;
      IndexIs(r, j);
    } else {
      IndexIs(r, 0);
    }
  }

  /** The arrival of one template pushes another one out only from the last place of a
      full list, and only if it is new itself. */
  lemma OtherKept(ts: seq<Nf9Template>, max: nat, t: Nf9Template, j: nat)
    requires Apart(ts) && |ts| <= max && max > 0 && j < |ts| && ts[j].id != t.id
    ensures var r := Received(ts, max, t);
      if Lacks(ts, t.id) && |ts| == max && j == |ts| - 1 then Lacks(r, ts[j].id) else Holds(r, ts[j])
  {
    ReceivedIs(ts, max, t);
    hide TemplateIndexOf;
    var r := Received(ts, max, t);
    if !Lacks(ts, t.id) {
      IndexIs(r, j);
    } else if |ts| < max || j < |ts| - 1 {
      assert r[j + 1] == ts[j];
      IndexIs(r, j + 1);
    }
  }

  lemma BothReceived(ts: seq<Nf9Template>, max: nat)
    requires Apart(ts) && |ts| <= max && max > 0
    ensures var r := Received(Received(ts, max, Template(false)), max, Template(true));
      && Holds(r, Template(true))
      && if CrowdedList(ts, max) then Lacks(r, V4_TEMPLATE_ID) else Holds(r, Template(false))
  {
    hide TemplateRecords, TemplateIndexOf, Trimmed;
    var t, ts1 := Template(false), Received(ts, max, Template(false));
    ReceivedIs(ts, max, t);
    ReceivedIs(ts1, max, Template(true));
    OtherKept(ts1, max, Template(true), TemplateIndexOf(ts1, t.id));
    FirstReceived(ts, max);
  }

  lemma FirstReceived(ts: seq<Nf9Template>, max: nat)
    requires Apart(ts) && |ts| <= max && max > 0
    ensures var ts1 := Received(ts, max, Template(false)); var j := TemplateIndexOf(ts1, V4_TEMPLATE_ID);
      CrowdedList(ts, max) <==> Lacks(ts1, V6_TEMPLATE_ID) && |ts1| == max && j == |ts1| - 1
  {
    ReceivedIs(ts, max, Template(false));
    hide TemplateRecords, TemplateIndexOf;
    var ts1 := Received(ts, max, Template(false));
    LacksIs(ts1, V6_TEMPLATE_ID);
    LacksIs(ts, V6_TEMPLATE_ID);
    var j := TemplateIndexOf(ts, V4_TEMPLATE_ID);
    if j < |ts| {
      assert forall k :: 0 <= k < |ts| ==> ts1[k].id == ts[k].id;
      IndexIs(ts1, j);
      IndexIs(ts, |ts| - 1);
    } else {
      assert ts1[0].id == V4_TEMPLATE_ID;
      IndexIs(ts1, 0);
    }
  }

  lemma LacksIs(ts: seq<Nf9Template>, tid: nat)
    ensures Lacks(ts, tid) <==> forall k :: 0 <= k < |ts| ==> ts[k].id != tid
    ensures Lacks(ts, tid) <==> forall t <- ts :: t.id != tid
  {
    hide TemplateIndexOf;
    if Lacks(ts, tid) {
      forall k | 0 <= k < |ts| ensures ts[k].id != tid {
      }
    } else {
      assert ts[TemplateIndexOf(ts, tid)] in ts;
    }
  }

  lemma IdsDiffer(ts: seq<Nf9Template>)
    requires Distinct(TemplateIds(ts))
    ensures Apart(ts)
  {
    hide TemplateIds;
    forall i, j | 0 <= i < j < |ts| ensures ts[i].id != ts[j].id {
      assert TemplateIds(ts)[i] != TemplateIds(ts)[j];
    }
  }

  // ----- Whole packets -----

  function MetaFor(p: Packet, recvSec: u32, recvUsec: u32, agent: HostAddr): Meta {
    Meta(p.uptime, p.time, 9, p.sequence, 0, recvSec, recvUsec, agent)
  }

  lemma HeaderRead(p: Packet, bytes: seq<u8>, recvSec: u32, recvUsec: u32, agent: HostAddr)
    requires PacketOk(p) && bytes == EncodePacket(p)
    ensures |bytes| >= HEADER_SIZE && MetaOf(bytes, recvSec, recvUsec, agent) == MetaFor(p, recvSec, recvUsec, agent)
    ensures bytes[HEADER_SIZE..] == Templates(p.templates) + EncodeSets(p.sets)
  {
    hide Put16, Put32, Get16, Get32, EncodeSets, Templates, CountRecords;
    var h := Header(CountRecords(SetFlows(p.sets)), p.uptime, p.time, p.sequence);
    var tail := Templates(p.templates) + EncodeSets(p.sets);
    assert bytes == h + tail;
    assert bytes[0..2] == Put16(9) && bytes[4..8] == Put32(p.uptime) && bytes[8..12] == Put32(p.time);
    assert bytes[12..16] == Put32(p.sequence) && bytes[16..20] == Put32(0);
    GetPut16(bytes, 0, 9);
    GetPut32(bytes, 4, p.uptime);
    GetPut32(bytes, 8, p.time);
    GetPut32(bytes, 12, p.sequence);
    GetPut32(bytes, 16, 0);
  }

  /** The collector's sources after a packet's templates. */
  ghost function Learnt(s: seq<Nf9Source>, lim: Limits, templates: bool): seq<Nf9Source> {
    if templates then Stored(Stored(s, lim, false), lim, true) else s
  }

  ghost predicate LimitsOk(lim: Limits) {
    lim.maxSources > 0 && lim.maxTemplates > 0 && lim.maxLen >= RecordSize(true)
  }

  lemma StoredKeeps(s: seq<Nf9Source>, lim: Limits, v6: bool)
    requires StoredOk(s, lim) && LimitsOk(lim)
    ensures StoredOk(Stored(s, lim, v6), lim)
  {
    hide StoredOk, TemplateRecords;
    TemplateIs(v6);
    StoreTemplateKeeps(s, lim, 0, TemplateId(v6), TemplateRecords(v6), RecordSize(v6));
  }

  lemma TemplateRound(st: State, lim: Limits, pkt: seq<u8>, offset: nat, v6: bool, tail: seq<u8>, m: Meta)
    requires StoredOk(st.sources, lim) && LimitsOk(lim) && m.sourceId == 0 && tail != []
    requires offset <= |pkt| && pkt[offset..] == EncodeTemplate(v6) + tail
    ensures StoredOk(Stored(st.sources, lim, v6), lim)
    ensures ReadSets(st, lim, pkt, offset, m) ==
      ReadSets(st.(sources := Stored(st.sources, lim, v6)), lim, pkt, offset + TEMPLATE_SIZE, m)
    ensures offset + TEMPLATE_SIZE <= |pkt| && pkt[offset + TEMPLATE_SIZE..] == tail
  {
    hide StoredOk, EncodeTemplate, OneSet, Stored, ReadSets, Get16;
    StoredKeeps(st.sources, lim, v6);
    TemplateRead(st, lim, pkt[offset..], v6, tail, m);
    var st' := st.(sources := Stored(st.sources, lim, v6));
    OneSetRead(st, lim, pkt, offset, TEMPLATE_FLOWSET_ID, TEMPLATE_SIZE, m, st', []);
    NothingBefore(ReadSets(st', lim, pkt, offset + TEMPLATE_SIZE, m));
    assert pkt[offset + TEMPLATE_SIZE..] == pkt[offset..][TEMPLATE_SIZE..];
  }

  lemma NothingBefore(r: Run)
    ensures After([], r) == r
  {
    if r.Run? { assert [] + r.flows == r.flows; }
  }

  /** A packet of the exporter is read to its end: every flowset whose template the
      collector knows by then gives its flows, and every other one is counted. */
  lemma PacketRead(st: State, lim: Limits, p: Packet, recvSec: u32, recvUsec: u32, agent: HostAddr)
    requires StoredOk(st.sources, lim) && LimitsOk(lim) && PacketOk(p)
    requires Clear(Learnt(st.sources, lim, p.templates))
    ensures var s := Learnt(st.sources, lim, p.templates);
      && StoredOk(s, lim) && Sized(p.sets)
      && ReadPacket(st, lim, EncodePacket(p), recvSec, recvUsec, agent) ==
        Run(Losing(st.(sources := s), Lost(s, p.sets)), CollectedSets(s, p.sets, MetaFor(p, recvSec, recvUsec, agent)), true)
  {
    hide StoredOk, EncodeTemplate, EncodePacket, EncodeSets, Stored, ReadSets, MetaOf, Lost, Losing, CollectedSets, Clear, SetOk, SetLength;
    var bytes, m := EncodePacket(p), MetaFor(p, recvSec, recvUsec, agent);
    HeaderRead(p, bytes, recvSec, recvUsec, agent);
    NoSets(p.sets);
    var st', offset := st, HEADER_SIZE;
    if p.templates {
      assert bytes[HEADER_SIZE..] == EncodeTemplate(false) + (EncodeTemplate(true) + EncodeSets(p.sets));
      TemplateRound(st, lim, bytes, offset, false, EncodeTemplate(true) + EncodeSets(p.sets), m);
      st', offset := st.(sources := Stored(st.sources, lim, false)), offset + TEMPLATE_SIZE;
      TemplateRound(st', lim, bytes, offset, true, EncodeSets(p.sets), m);
      st', offset := st'.(sources := Stored(st'.sources, lim, true)), offset + TEMPLATE_SIZE;
    } else {
      assert bytes[HEADER_SIZE..] == EncodeSets(p.sets);
    }
    SetsRead(st', lim, bytes, offset, p.sets, m);
  }

  /** After a packet's templates the second is known, and the first unless it was crowded
      out. */
  lemma LearntBoth(s: seq<Nf9Source>, lim: Limits)
    requires StoredOk(s, lim) && LimitsOk(lim)
    ensures var r := Learnt(s, lim, true);
      && Usable(r, true) && Clear(r)
      && if Crowded(s, lim.maxTemplates) then Missing(r, false) && !Usable(r, false) else Usable(r, false)
  {
    hide StoredOk, Stored, Usable, Missing, CrowdedList, Holds, Lacks, TemplateRecords, IndexOf;
    var s1, r := Stored(s, lim, false), Learnt(s, lim, true);
    KnownAfter(s, lim, false);
    KnownAfter(s1, lim, true);
    KnownOk(s, lim);
    BothReceived(Known(s), lim.maxTemplates);
    UsableIs(r, false);
    UsableIs(r, true);
    Apart4(Known(r));
  }

  lemma Apart4(ts: seq<Nf9Template>)
    ensures Lacks(ts, V4_TEMPLATE_ID) ==> !Holds(ts, Template(false))
  {
  }

  lemma KnownOk(s: seq<Nf9Source>, lim: Limits)
    requires StoredOk(s, lim)
    ensures Apart(Known(s)) && |Known(s)| <= lim.maxTemplates
  {
    hide TemplateIds, SourceIds, Apart, Distinct;
    var k := IndexOf(s, 0);
    if k < |s| {
      assert s[k] in s;
      IdsDiffer(s[k].templates);
    } else {
      NoneApart();
    }
  }

  lemma NoneApart()
    ensures Apart([])
  {
  }

  /** Once both templates are known, more of them change nothing. */
  lemma LearntOnce(s: seq<Nf9Source>, lim: Limits)
    requires Usable(s, false) && Usable(s, true)
    ensures Stored(Stored(s, lim, false), lim, true) == s
  {
    hide Usable, Stored;
    KnownAfter(s, lim, false);
    KnownAfter(s, lim, true);
  }

  lemma GivenOrLost(sources: seq<Nf9Source>, s: DataSet, m: Meta)
    requires SetOk(s) && SetLength(s) <= MAX_PACKET_SIZE
    ensures |Gives(sources, s, m)| + (if Usable(sources, s.v6) then 0 else 1) <= CountRecords(s.flows)
  {
    hide CollectedAll, CountRecords, Usable, SetLength;
    SmallSet(s);
  }

  lemma {:induction false} SomeLost(sources: seq<Nf9Source>, sets: seq<DataSet>, m: Meta)
    requires Sized(sets)
    ensures |CollectedSets(sources, sets, m)| + Lost(sources, sets) <= CountRecords(SetFlows(sets))
    decreases |sets|
  {
    if sets != [] {
      hide Gives, Usable, SetFlows, CountRecords, SetLength, SetOk;
      FirstFlows(sets);
      SomeLost(sources, sets[1..], m);
      assert sets[0] in sets;
      GivenOrLost(sources, sets[0], m);
      X.CountConcat(sets[0].flows, SetFlows(sets[1..]));
    }
  }

  lemma {:induction false} LostIt(sources: seq<Nf9Source>, sets: seq<DataSet>, s: DataSet)
    requires s in sets && !Usable(sources, s.v6)
    ensures Lost(sources, sets) > 0
    decreases |sets|
  {
    hide Usable;
    if s != sets[0] {
      LostIt(sources, sets[1..], s);
    }
  }

  lemma SizedFlows(p: Packet)
    requires PacketOk(p)
    ensures Sized(p.sets) && forall f <- SetFlows(p.sets) :: !f.ends.OtherFamily?
  {
    hide SetOk, SetLength, SetFlows;
    assert X.SetsOk(p.sets);
    X.NoSetNoFlow(p.sets);
  }

  /** For one, a list of two that holds the first template at its end. */
  lemma CrowdedOut(lim: Limits)
    requires LimitsOk(lim) && lim.maxTemplates == 2
    ensures var s := [Nf9Source(0, 2, [Nf9Template(300, [], 0), Template(false)])];
      StoredOk(s, lim) && Usable(s, false) && Crowded(s, 2) && Missing(Learnt(s, lim, true), false)
  {
    hide Template, TemplateOk, Learnt;
    var ts := [Nf9Template(300, [], 0), Template(false)];
    var s := [Nf9Source(0, 2, ts)];
    TemplateIs(false);
    NoRecords();
    assert TemplateOk(ts[0], lim.maxLen) by { EmptyTemplateOk(lim.maxLen); }
    assert TemplateOk(ts[1], lim.maxLen) by { OwnTemplateOk(lim); }
    assert SourceIds(s) == [0] && TemplateIds(ts) == [300, V4_TEMPLATE_ID] by { OwnId(); }
    OwnId();
    assert StoredOk(s, lim);
    assert IndexOf(s, 0) == 0 && TemplateIndexOf(ts, V4_TEMPLATE_ID) == 1;
    LearntBoth(s, lim);
  }

  lemma OwnId()
    ensures Template(false).id == V4_TEMPLATE_ID
  {
  }

  lemma EmptyTemplateOk(maxLen: nat)
    ensures TemplateOk(Nf9Template(300, [], 0), maxLen)
  {
    NoRecords();
  }

  lemma OwnTemplateOk(lim: Limits)
    requires LimitsOk(lim)
    ensures TemplateOk(Template(false), lim.maxLen)
  {
    TemplateIs(false);
  }

  /** A packet that carries its templates comes through whole exactly when the collector is
      not crowded, or the packet has no flow that needs the template crowded out. */
  lemma WholePacket(st: State, lim: Limits, p: Packet, recvSec: u32, recvUsec: u32, agent: HostAddr)
    requires StoredOk(st.sources, lim) && LimitsOk(lim) && PacketOk(p) && p.templates
    ensures (forall f <- SetFlows(p.sets) :: !f.ends.OtherFamily?)
    ensures var r := ReadPacket(st, lim, EncodePacket(p), recvSec, recvUsec, agent);
            var m := MetaFor(p, recvSec, recvUsec, agent);
      && r.Run? && r.finished
      && (r.flows == CollectedAll(SetFlows(p.sets), m) <==> !Crowded(st.sources, lim.maxTemplates) || forall s <- p.sets :: s.v6)
  {
    hide StoredOk, ReadPacket, EncodePacket, CollectedSets, Usable, Missing, CollectedAll, SetFlows, Crowded, Stored, SetOk, SetLength, CountRecords;
    var s, m := Learnt(st.sources, lim, true), MetaFor(p, recvSec, recvUsec, agent);
    LearntBoth(st.sources, lim);
    PacketRead(st, lim, p, recvSec, recvUsec, agent);
    SizedFlows(p);
    if !Crowded(st.sources, lim.maxTemplates) || forall d <- p.sets :: d.v6 {
      forall d | d in p.sets ensures Usable(s, d.v6) {
      }
      AllCollected(s, p.sets, m);
    } else {
      var d :| d in p.sets && !d.v6;
      SomeLost(s, p.sets, m);
      LostIt(s, p.sets, d);
    }
  }

  // ----- Whole runs -----

  /** Packet after packet from one exporter; the clocks give the time of each arrival. */
  ghost function ReadAll(st: State, lim: Limits, pkts: seq<seq<u8>>, sec: nat -> u32, usec: nat -> u32, agent: HostAddr): (r: Run)
    requires StoredOk(st.sources, lim) && LimitsOk(lim)
    ensures r.Run? ==> StoredOk(r.state.sources, lim)
  {
    if pkts == [] then Run(st, [], true)
    else
      var n := |pkts| - 1;
      match ReadAll(st, lim, pkts[..n], sec, usec, agent)
      case Stuck(flows) => Stuck(flows)
      case Run(st', flows, finished) =>
        match ReadPacket(st', lim, pkts[n], sec(n), usec(n), agent)
        case Stuck(more) => Stuck(flows + more)
        case Run(st'', more, finished') => Run(st'', flows + more, finished && finished')
  }

  ghost function CollectedRun(ps: seq<Packet>, sec: nat -> u32, usec: nat -> u32, agent: HostAddr): seq<StoreFlow>
    requires forall p <- ps :: PacketOk(p)
  {
    if ps == [] then []
    else
      var n := |ps| - 1;
      SizedFlows(ps[n]);
      CollectedRun(ps[..n], sec, usec, agent) + CollectedAll(SetFlows(ps[n].sets), MetaFor(ps[n], sec(n), usec(n), agent))
  }

  lemma CarryInit(sent: seq<seq<u8>>, ps: seq<Packet>)
    requires X.Carry(sent, ps)
    ensures forall p <- ps :: PacketOk(p)
    ensures ps != [] ==> X.Carry(sent[..|sent| - 1], ps[..|ps| - 1]) && sent[|sent| - 1] == EncodePacket(ps[|ps| - 1])
  {
    hide PacketOk, EncodePacket;
  }

  ghost function KnowingBoth(st: State, lim: Limits): State {
    st.(sources := Learnt(st.sources, lim, true))
  }

  /** Packets that follow one with the templates. */
  lemma LaterPacket(st: State, lim: Limits, p: Packet, recvSec: u32, recvUsec: u32, agent: HostAddr)
    requires StoredOk(st.sources, lim) && LimitsOk(lim) && PacketOk(p)
    requires Usable(st.sources, false) && Usable(st.sources, true)
    ensures (forall f <- SetFlows(p.sets) :: !f.ends.OtherFamily?)
    ensures ReadPacket(st, lim, EncodePacket(p), recvSec, recvUsec, agent) ==
      Run(st, CollectedAll(SetFlows(p.sets), MetaFor(p, recvSec, recvUsec, agent)), true)
  {
    hide StoredOk, ReadPacket, EncodePacket, CollectedSets, Usable, Missing, CollectedAll, SetFlows, Stored, SetOk, SetLength;
    LearntOnce(st.sources, lim);
    PacketRead(st, lim, p, recvSec, recvUsec, agent);
    SizedFlows(p);
    AllCollected(st.sources, p.sets, MetaFor(p, recvSec, recvUsec, agent));
  }

  lemma FirstPacket(st: State, lim: Limits, p: Packet, recvSec: u32, recvUsec: u32, agent: HostAddr)
    requires StoredOk(st.sources, lim) && LimitsOk(lim) && PacketOk(p) && p.templates && !Crowded(st.sources, lim.maxTemplates)
    ensures (forall f <- SetFlows(p.sets) :: !f.ends.OtherFamily?)
    ensures ReadPacket(st, lim, EncodePacket(p), recvSec, recvUsec, agent) ==
      Run(KnowingBoth(st, lim), CollectedAll(SetFlows(p.sets), MetaFor(p, recvSec, recvUsec, agent)), true)
    ensures var s := KnowingBoth(st, lim).sources; Usable(s, false) && Usable(s, true)
  {
    hide StoredOk, LimitsOk, ReadPacket, EncodePacket, CollectedSets, Usable, Missing, Clear, CollectedAll, SetFlows, Stored, SetOk, SetLength, Crowded, Lost;
    LearntBoth(st.sources, lim);
    PacketRead(st, lim, p, recvSec, recvUsec, agent);
    SizedFlows(p);
    AllCollected(Learnt(st.sources, lim, true), p.sets, MetaFor(p, recvSec, recvUsec, agent));
  }

  /** Everything that an exporter sends reaches the collector, provided that the first
      packet carries the templates. */
  lemma {:induction false} ExportIsCollected(st: State, lim: Limits, sent: seq<seq<u8>>, ps: seq<Packet>,
                                             sec: nat -> u32, usec: nat -> u32, agent: HostAddr)
    requires StoredOk(st.sources, lim) && LimitsOk(lim) && !Crowded(st.sources, lim.maxTemplates)
    requires X.Carry(sent, ps) && ps != [] && ps[0].templates
    ensures (forall p <- ps :: PacketOk(p))
    ensures ReadAll(st, lim, sent, sec, usec, agent) == Run(KnowingBoth(st, lim), CollectedRun(ps, sec, usec, agent), true)
    decreases |ps|
  {
    hide StoredOk, ReadPacket, EncodePacket, Usable, CollectedAll, SetFlows, Crowded, PacketOk, KnowingBoth, X.Carry;
    CarryInit(sent, ps);
    LengthsAgree(sent, ps);
    var n := |ps| - 1;
    FirstPacket(st, lim, ps[0], sec(0), usec(0), agent);
    if n == 0 {
      assert sent[..0] == [] && ps[..0] == [];
    } else {
      ExportIsCollected(st, lim, sent[..n], ps[..n], sec, usec, agent);
      LaterPacket(KnowingBoth(st, lim), lim, ps[n], sec(n), usec(n), agent);
    }
  }

  lemma LengthsAgree(sent: seq<seq<u8>>, ps: seq<Packet>)
    requires X.Carry(sent, ps)
    ensures |sent| == |ps|
  {
  }

  /** What holds of every record that came from a flow: both addresses of one family with
      their flags, and the common fields. */
  ghost predicate Plain(c: StoreFlow) {
    && !c.src.af.OtherFamily? && c.src.af == c.dst.af && c.gateway == NO_ADDR && c.src.scope == 0 && c.dst.scope == 0
    && !c.agent.af.OtherFamily?
    && c.fields == {RECV_TIME, AGENT_INFO, AGENT_ADDR4, AGENT_ADDR6} + (if c.src.af.Inet6? then V6_FIELDS else V4_FIELDS) + COMMON_FIELDS
  }

  lemma CollectedPlain(f: Flow, back: bool, m: Meta)
    requires !f.ends.OtherFamily?
    ensures Plain(Collected(f, back, m))
  {
  }

  lemma {:induction false} AllPlain(flows: seq<Flow>, m: Meta)
    requires forall f <- flows :: !f.ends.OtherFamily?
    ensures forall c <- CollectedAll(flows, m) :: Plain(c)
  {
    hide Plain, Collected;
    if flows != [] {
      AllPlain(flows[..|flows| - 1], m);
      CollectedPlain(flows[|flows| - 1], false, m);
      CollectedPlain(flows[|flows| - 1], true, m);
    }
  }

  lemma {:induction false} RunPlain(ps: seq<Packet>, sec: nat -> u32, usec: nat -> u32, agent: HostAddr)
    requires forall p <- ps :: PacketOk(p)
    ensures forall c <- CollectedRun(ps, sec, usec, agent) :: Plain(c)
  {
    hide Plain, CollectedAll, PacketOk, SetFlows;
    if ps != [] {
      var n := |ps| - 1;
      RunPlain(ps[..n], sec, usec, agent);
      SizedFlows(ps[n]);
      AllPlain(SetFlows(ps[n].sets), MetaFor(ps[n], sec(n), usec(n), agent));
    }
  }

  // ----- The traffic that the flows and the records describe -----

  datatype Traffic = Traffic(src: XAddr, dst: XAddr, srcPort: u16, dstPort: u16, protocol: u8, flags: u8,
                             octets: nat, packets: nat)

  function TrafficOf(c: StoreFlow): Traffic {
    Traffic(ToXAddr(c.src), ToXAddr(c.dst), c.srcPort, c.dstPort, c.protocol, c.tcpFlags, c.octets, c.packets)
  }

  function TrafficOfAll(cs: seq<StoreFlow>): (r: seq<Traffic>)
    ensures |r| == |cs|
  {
    if cs == [] then [] else TrafficOfAll(cs[..|cs| - 1]) + [TrafficOf(cs[|cs| - 1])]
  }

  /** An endpoint's address, from its bytes in network order. */
  function EndAddr(v6: bool, a: seq<u8>): XAddr
    requires |a| == if v6 then 16 else 4
  {
    if v6 then V6(Get32(a, 0), Get32(a, 4), Get32(a, 8), Get32(a, 12), 0) else V4(Get32(a, 0))
  }

  function Forward(f: Flow): Traffic
    requires !f.ends.OtherFamily?
  {
    var v6 := f.ends.Inet6?;
    Traffic(EndAddr(v6, From(f.ends, false)), EndAddr(v6, From(f.ends, true)), f.portA, f.portB,
            f.protocol, f.flagsA, f.octetsA, f.packetsA)
  }

  function Backward(f: Flow): Traffic
    requires !f.ends.OtherFamily?
  {
    var v6 := f.ends.Inet6?;
    Traffic(EndAddr(v6, From(f.ends, true)), EndAddr(v6, From(f.ends, false)), f.portB, f.portA,
            f.protocol, f.flagsB, f.octetsB, f.packetsB)
  }

  /** What flows say of their traffic: one entry for each direction that carried octets. */
  function FlowTraffic(flows: seq<Flow>): seq<Traffic>
    requires forall f <- flows :: !f.ends.OtherFamily?
  {
    if flows == [] then []
    else
      var f := flows[|flows| - 1];
      FlowTraffic(flows[..|flows| - 1])
      + (if f.octetsA > 0 then [Forward(f)] else []) + (if f.octetsB > 0 then [Backward(f)] else [])
  }

  lemma SameTraffic(f: Flow, m: Meta)
    requires !f.ends.OtherFamily?
    ensures TrafficOf(Collected(f, false, m)) == Forward(f) && TrafficOf(Collected(f, true, m)) == Backward(f)
  {
    hide Get16;
    SameEnd(f.ends.Inet6?, From(f.ends, false));
    SameEnd(f.ends.Inet6?, From(f.ends, true));
  }

  lemma SameEnd(v6: bool, a: seq<u8>)
    requires |a| == if v6 then 16 else 4
    ensures ToXAddr(RawOf(v6, a)) == EndAddr(v6, a)
  {
    if !v6 {
      GetInside4(a, ZERO16[4..]);
    }
  }

  lemma GetInside4(a: seq<u8>, tail: seq<u8>)
    requires |a| == 4
    ensures Get32(a + tail, 0) == Get32(a, 0)
  {
    assert forall i :: 0 <= i < 4 ==> (a + tail)[i] == a[i];
  }

  lemma {:induction false} TrafficConcat(a: seq<StoreFlow>, b: seq<StoreFlow>)
    ensures TrafficOfAll(a + b) == TrafficOfAll(a) + TrafficOfAll(b)
  {
    if b == [] {
      assert a + b == a;
    } else {
      assert (a + b)[..|a + b| - 1] == a + b[..|b| - 1];
      TrafficConcat(a, b[..|b| - 1]);
    }
  }

  lemma BothTraffic(f: Flow, m: Meta)
    requires !f.ends.OtherFamily?
    ensures TrafficOfAll(BothWays(f, m)) ==
      (if f.octetsA > 0 then [Forward(f)] else []) + (if f.octetsB > 0 then [Backward(f)] else [])
  {
    hide Collected, TrafficOf, Forward, Backward;
    SameTraffic(f, m);
    OneTraffic(Collected(f, false, m));
    OneTraffic(Collected(f, true, m));
    TrafficConcat([Collected(f, false, m)], [Collected(f, true, m)]);
    if f.octetsA == 0 && f.octetsB > 0 {
      assert BothWays(f, m) == [Collected(f, true, m)];
    }
  }

  lemma OneTraffic(c: StoreFlow)
    ensures TrafficOfAll([c]) == [TrafficOf(c)]
  {
    assert [c][..0] == [];
  }

  lemma {:induction false} AllTraffic(flows: seq<Flow>, m: Meta)
    requires forall f <- flows :: !f.ends.OtherFamily?
    ensures TrafficOfAll(CollectedAll(flows, m)) == FlowTraffic(flows)
  {
    hide BothWays, Forward, Backward;
    if flows != [] {
      var n := |flows| - 1;
      AllTraffic(flows[..n], m);
      BothTraffic(flows[n], m);
      TrafficConcat(CollectedAll(flows[..n], m), BothWays(flows[n], m));
    }
  }

  lemma {:induction false} FlowTrafficConcat(a: seq<Flow>, b: seq<Flow>)
    requires forall f <- a + b :: !f.ends.OtherFamily?
    ensures FlowTraffic(a + b) == FlowTraffic(a) + FlowTraffic(b)
  {
    hide Forward, Backward;
    if b == [] {
      assert a + b == a;
    } else {
      assert (a + b)[..|a + b| - 1] == a + b[..|b| - 1];
      FlowTrafficConcat(a, b[..|b| - 1]);
    }
  }

  /** What is collected of a run of packets is the traffic of the flows in them. */
  lemma {:induction false} RunTraffic(ps: seq<Packet>, sec: nat -> u32, usec: nat -> u32, agent: HostAddr)
    requires forall p <- ps :: PacketOk(p)
    ensures (forall f <- X.PacketFlows(ps) :: !f.ends.OtherFamily?)
    ensures TrafficOfAll(CollectedRun(ps, sec, usec, agent)) == FlowTraffic(X.PacketFlows(ps))
  {
    hide CollectedAll, PacketOk, SetFlows;
    if ps != [] {
      var n := |ps| - 1;
      var m := MetaFor(ps[n], sec(n), usec(n), agent);
      RunTraffic(ps[..n], sec, usec, agent);
      SizedFlows(ps[n]);
      AllTraffic(SetFlows(ps[n].sets), m);
      TrafficConcat(CollectedRun(ps[..n], sec, usec, agent), CollectedAll(SetFlows(ps[n].sets), m));
      FlowTrafficConcat(X.PacketFlows(ps[..n]), SetFlows(ps[n].sets));
    }
  }

  lemma NothingRead(st: State, lim: Limits, sec: nat -> u32, usec: nat -> u32, agent: HostAddr)
    requires StoredOk(st.sources, lim) && LimitsOk(lim)
    ensures ReadAll(st, lim, [], sec, usec, agent) == Run(st, [], true)
  {
  }

  lemma NothingCarried(sent: seq<seq<u8>>, ps: seq<Packet>)
    requires X.Carry(sent, ps)
    ensures |sent| == |ps| && (forall p <- ps :: PacketOk(p))
    ensures ps == [] <==> X.PacketFlows(ps) == []
  {
    hide EncodePacket;
    if ps != [] {
      var p := ps[|ps| - 1];
      assert X.SetsOk(p.sets);
      X.NoSetNoFlow(p.sets);
    }
  }

  lemma NoneCollected(sec: nat -> u32, usec: nat -> u32, agent: HostAddr)
    ensures CollectedRun([], sec, usec, agent) == []
  {
  }

  /** All flows of a successful run of the exporter are collected. */
  lemma RunCollected(st: State, lim: Limits, sent: seq<seq<u8>>, ps: seq<Packet>, sec: nat -> u32, usec: nat -> u32, agent: HostAddr)
    requires StoredOk(st.sources, lim) && LimitsOk(lim) && !Crowded(st.sources, lim.maxTemplates)
    requires X.Carry(sent, ps) && (ps != [] ==> ps[0].templates)
    ensures (forall f <- X.PacketFlows(ps) :: !f.ends.OtherFamily?) && (forall p <- ps :: PacketOk(p))
    ensures ReadAll(st, lim, sent, sec, usec, agent).flows == CollectedRun(ps, sec, usec, agent)
    ensures var r := ReadAll(st, lim, sent, sec, usec, agent);
      r.Run? && r.finished && TrafficOfAll(r.flows) == FlowTraffic(X.PacketFlows(ps)) && forall c <- r.flows :: Plain(c)
  {
    hide Plain, StoredOk, LimitsOk, Crowded, CollectedRun, KnowingBoth, ReadPacket, PacketOk, X.Carry;
    NothingCarried(sent, ps);
    RunTraffic(ps, sec, usec, agent);
    RunPlain(ps, sec, usec, agent);
    if ps == [] {
      NothingRead(st, lim, sec, usec, agent);
      NoneCollected(sec, usec, agent);
    } else {
      ExportIsCollected(st, lim, sent, ps, sec, usec, agent);
    }
  }
}
