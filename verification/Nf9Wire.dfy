/** What the exporter and the collector of NetFlow v9 agree on (RFC 3954): the field
    types, softflowd's two templates and the layout of its packets. */
module Nf9Wire {
  import opened Bytes
  import opened PeerState

  const IN_BYTES := 1
  const IN_PACKETS := 2
  const IN_PROTOCOL := 4
  const TCP_FLAGS := 6
  const L4_SRC_PORT := 7
  const IPV4_SRC_ADDR := 8
  const L4_DST_PORT := 11
  const IPV4_DST_ADDR := 12
  const LAST_SWITCHED := 21
  const FIRST_SWITCHED := 22
  const IPV6_SRC_ADDR := 27
  const IPV6_DST_ADDR := 28
  const IP_PROTOCOL_VERSION := 60

  const TEMPLATE_FLOWSET_ID := 0
  const OPTIONS_FLOWSET_ID := 1
  const MIN_RECORD_FLOWSET_ID := 256
  const V4_TEMPLATE_ID := 1024
  const V6_TEMPLATE_ID := 2048
  const MAX_PACKET_SIZE := 512
  const TEMPLATE_INTERVAL := 16
  const HEADER_SIZE := 20
  const SET_HEADER_SIZE := 4
  const TEMPLATE_SIZE := 52

  /** The records of a template after the two addresses; last switched comes first. */
  const COMMON_RECORDS: seq<Nf9Record> := [
    Nf9Record(LAST_SWITCHED, 4), Nf9Record(FIRST_SWITCHED, 4),
    Nf9Record(IN_BYTES, 4), Nf9Record(IN_PACKETS, 4),
    Nf9Record(L4_SRC_PORT, 2), Nf9Record(L4_DST_PORT, 2),
    Nf9Record(IN_PROTOCOL, 1), Nf9Record(TCP_FLAGS, 1), Nf9Record(IP_PROTOCOL_VERSION, 1)]

  function TemplateId(v6: bool): u16 {
    if v6 then V6_TEMPLATE_ID else V4_TEMPLATE_ID
  }

  function TemplateRecords(v6: bool): seq<Nf9Record> {
    (if v6 then [Nf9Record(IPV6_SRC_ADDR, 16), Nf9Record(IPV6_DST_ADDR, 16)]
     else [Nf9Record(IPV4_SRC_ADDR, 4), Nf9Record(IPV4_DST_ADDR, 4)]) + COMMON_RECORDS
  }

  function RecordSize(v6: bool): nat {
    if v6 then 55 else 31
  }

  // ----- Flows -----

  /** The endpoints of a flow, in the order in which it was first seen. An address is its
      bytes. */
  type Addr4 = s: seq<u8> | |s| == 4 witness [0, 0, 0, 0]
  type Addr16 = s: seq<u8> | |s| == 16 witness [0, 0, 0, 0, 0, 0, 0, 0, 0, 0, 0, 0, 0, 0, 0, 0]
  datatype Ends =
    | Inet(a: Addr4, b: Addr4)
    | Inet6(a6: Addr16, b6: Addr16)
    | OtherFamily

  /** What the exporter reads of a flow. Times are milliseconds since boot. */
  datatype Flow = Flow(
    ends: Ends,
    portA: u16, portB: u16,
    protocol: u8,
    flagsA: u8, flagsB: u8,
    octetsA: u32, octetsB: u32,
    packetsA: u32, packetsB: u32,
    start: u32, last: u32)

  /** The flows that nf_flow_to_flowset can export at all. */
  predicate Exportable(f: Flow) {
    !f.ends.OtherFamily? && (f.octetsA > 0 || f.octetsB > 0)
  }

  function SrcDst(ends: Ends, back: bool): (s: seq<u8>)
    requires !ends.OtherFamily?
    ensures |s| == if ends.Inet6? then 32 else 8
  {
    match ends
    case Inet(a, b) => if back then b + a else a + b
    case Inet6(a, b) => if back then b + a else a + b
  }

  /** One direction of a flow as a data record; the record stores the first switch time
      before the last. */
  function Record(f: Flow, back: bool): (s: seq<u8>)
    requires !f.ends.OtherFamily?
    ensures |s| == RecordSize(f.ends.Inet6?)
  {
    SrcDst(f.ends, back) + Common(f, back)
  }

  function Common(f: Flow, back: bool): (s: seq<u8>)
    ensures |s| == 23
  {
    Put32(f.start) + Put32(f.last)
    + Put32(if back then f.octetsB else f.octetsA) + Put32(if back then f.packetsB else f.packetsA)
    + Put16(if back then f.portB else f.portA) + Put16(if back then f.portA else f.portB)
    + [f.protocol, if back then f.flagsB else f.flagsA, if f.ends.Inet6? then 6 else 4]
  }

  /** The directions of a flow that carried octets. */
  function Directions(f: Flow): (s: seq<bool>)
    ensures |s| <= 2 && (Exportable(f) ==> |s| > 0)
  {
    (if f.octetsA > 0 then [false] else []) + (if f.octetsB > 0 then [true] else [])
  }

  function Records(f: Flow): (s: seq<u8>)
    requires !f.ends.OtherFamily?
    ensures |s| == |Directions(f)| * RecordSize(f.ends.Inet6?)
  {
    (if f.octetsA > 0 then Record(f, false) else []) + (if f.octetsB > 0 then Record(f, true) else [])
  }

  // ----- Packets -----

  /** A data flowset: flows of one family, and up to three bytes of padding. */
  datatype DataSet = DataSet(v6: bool, flows: seq<Flow>, pad: seq<u8>)

  predicate SetOk(s: DataSet) {
    && s.flows != [] && (forall f <- s.flows :: Exportable(f) && f.ends.Inet6? == s.v6)
    && |s.pad| < 4
  }

  function Body(flows: seq<Flow>): seq<u8>
    requires forall f <- flows :: !f.ends.OtherFamily?
  {
    if flows == [] then [] else Body(flows[..|flows| - 1]) + Records(flows[|flows| - 1])
  }

  function CountRecords(flows: seq<Flow>): nat {
    if flows == [] then 0 else CountRecords(flows[..|flows| - 1]) + |Directions(flows[|flows| - 1])|
  }

  function SetLength(s: DataSet): nat
    requires SetOk(s)
  {
    SET_HEADER_SIZE + |Body(s.flows)| + |s.pad|
  }

  function EncodeSet(s: DataSet): (r: seq<u8>)
    requires SetOk(s) && SetLength(s) <= MAX_PACKET_SIZE
    ensures |r| == SetLength(s)
  {
    Put16(TemplateId(s.v6)) + Put16(SetLength(s)) + Body(s.flows) + s.pad
  }

  function EncodeSets(sets: seq<DataSet>): seq<u8>
    requires forall s <- sets :: SetOk(s) && SetLength(s) <= MAX_PACKET_SIZE
  {
    if sets == [] then [] else EncodeSets(sets[..|sets| - 1]) + EncodeSet(sets[|sets| - 1])
  }

  function SetFlows(sets: seq<DataSet>): seq<Flow> {
    if sets == [] then [] else SetFlows(sets[..|sets| - 1]) + sets[|sets| - 1].flows
  }

  function EncodeRecords(rs: seq<Nf9Record>): (s: seq<u8>)
    requires forall r <- rs :: r.kind < 0x1_0000 && r.len < 0x1_0000
    ensures |s| == 4 * |rs|
  {
    if rs == [] then [] else Put16(rs[0].kind) + Put16(rs[0].len) + EncodeRecords(rs[1..])
  }

  function EncodeTemplate(v6: bool): (s: seq<u8>)
    ensures |s| == TEMPLATE_SIZE
  {
    Put16(TEMPLATE_FLOWSET_ID) + Put16(TEMPLATE_SIZE) + Put16(TemplateId(v6)) + Put16(|TemplateRecords(v6)|)
    + EncodeRecords(TemplateRecords(v6))
  }

  function Templates(present: bool): (s: seq<u8>)
    ensures |s| == if present then 2 * TEMPLATE_SIZE else 0
  {
    if present then EncodeTemplate(false) + EncodeTemplate(true) else []
  }

  datatype Packet = Packet(uptime: u32, time: u32, sequence: u32, templates: bool, sets: seq<DataSet>)

  function Header(count: u16, uptime: u32, time: u32, sequence: u32): (s: seq<u8>)
    ensures |s| == HEADER_SIZE
  {
    Put16(9) + Put16(count) + Put32(uptime) + Put32(time) + Put32(sequence) + Put32(0)
  }

  /** What the exporter promises of a packet's contents. */
  predicate PacketOk(p: Packet) {
    && p.sets != [] && (forall s <- p.sets :: SetOk(s) && SetLength(s) <= MAX_PACKET_SIZE && SetLength(s) % 4 == 0)
    && HEADER_SIZE + |Templates(p.templates)| + |EncodeSets(p.sets)| <= MAX_PACKET_SIZE
    && CountRecords(SetFlows(p.sets)) < 0x1_0000
  }

  function EncodePacket(p: Packet): (s: seq<u8>)
    requires PacketOk(p)
    ensures |s| <= MAX_PACKET_SIZE
  {
    Header(CountRecords(SetFlows(p.sets)), p.uptime, p.time, p.sequence) + Templates(p.templates) + EncodeSets(p.sets)
  }
}
