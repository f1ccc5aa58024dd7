/** The NetFlow v9 collector (flowd/flowd.c), for any packet. Fault stands for the packets
    on which the C code leaves the packet's memory, divides by zero or never returns. */
module Nf9Collect {
  import opened Addr
  import AddrMatch
  import opened Bits
  import opened Bytes
  import opened FlowRecord
  import opened Nf9Wire
  import Lru
  import opened PeerState

  const SRC_TOS := 5
  const SRC_MASK := 9
  const INPUT_SNMP := 10
  const DST_MASK := 13
  const OUTPUT_SNMP := 14
  const IPV4_NEXT_HOP := 15
  const SRC_AS := 16
  const DST_AS := 17
  const IPV6_SRC_MASK := 29
  const IPV6_DST_MASK := 30
  const ENGINE_TYPE := 38
  const ENGINE_ID := 39
  const IPV6_NEXT_HOP := 62

  /** The bytes that the field a record type fills has in the flow record; 0 for the types
      that the collector skips. */
  function FieldSize(kind: nat): nat {
    if kind == IN_BYTES || kind == IN_PACKETS then 8
    else if kind == IN_PROTOCOL || kind == SRC_TOS || kind == TCP_FLAGS then 1
    else if kind == L4_SRC_PORT || kind == L4_DST_PORT || kind == ENGINE_TYPE || kind == ENGINE_ID then 2
    else if kind == SRC_MASK || kind == DST_MASK || kind == IPV6_SRC_MASK || kind == IPV6_DST_MASK then 1
    else if kind == INPUT_SNMP || kind == OUTPUT_SNMP || kind == SRC_AS || kind == DST_AS then 4
    else if kind == LAST_SWITCHED || kind == FIRST_SWITCHED then 4
    else if kind == IPV4_SRC_ADDR || kind == IPV4_DST_ADDR || kind == IPV4_NEXT_HOP then 4
    else if kind == IPV6_SRC_ADDR || kind == IPV6_DST_ADDR || kind == IPV6_NEXT_HOP then 16
    else 0
  }

  /** nf9_check_rec_len. */
  predicate CheckRecLen(kind: nat, len: nat) {
    0 < len <= 0x4000 && (FieldSize(kind) == 0 || len <= FieldSize(kind))
  }

  /** BE_COPY: data over the last bytes of a field of the given size. */
  function BeCopy(old0: nat, size: nat, data: seq<u8>): (r: nat)
    requires |data| <= size && old0 < Capacity(size)
    ensures r < Capacity(size)
  {
    BeCopyFits(old0, size, data);
    Overlay(old0, Capacity(|data|), Number(data))
  }

  /** The part of old0 above the block, and n below it. */
  function Overlay(old0: nat, block: nat, n: nat): int
    requires block > 0
  {
    old0 - old0 % block + n
  }

  lemma BeCopyFits(old0: nat, size: nat, data: seq<u8>)
    requires |data| <= size && old0 < Capacity(size)
    ensures 0 <= Overlay(old0, Capacity(|data|), Number(data)) < Capacity(size)
  {
    NumberBound(data);
    CapacitySplit(size - |data|, |data|);
    Below(old0, Capacity(size - |data|), Capacity(|data|), Number(data));
  }

  lemma {:induction false} CapacitySplit(a: nat, b: nat)
    ensures Capacity(a + b) == Capacity(a) * Capacity(b)
  {
    if a > 0 {
      CapacitySplit(a - 1, b);
      assert 0x100 * (Capacity(a - 1) * Capacity(b)) == (0x100 * Capacity(a - 1)) * Capacity(b);
    }
  }

  lemma Below(x: nat, a: nat, b: nat, n: nat)
    requires a > 0 && b > 0 && x < a * b && n < b
    ensures 0 <= Overlay(x, b, n) < a * b
  {
    var q := x / b;
    assert x == b * q + x % b;
    if q >= a {
      MulMonotone(b, a, q);
    } else {
      MulMonotone(b, q + 1, a);
    }
  }

  /** Into a blank field goes the number that the data bytes hold. */
  lemma BeCopyBlank(size: nat, data: seq<u8>)
    requires |data| <= size
    ensures BeCopy(0, size, data) == Number(data)
  {
  }

  lemma Sizes()
    ensures Capacity(1) == 0x100 && Capacity(2) == 0x1_0000 && Capacity(4) == 0x1_0000_0000
    ensures Capacity(8) == 0x1_0000_0000_0000_0000
  {
    assert Capacity(3) == 0x100_0000;
    CapacitySplit(4, 4);
  }

  function Copy1(old0: u8, data: seq<u8>): u8
    requires |data| <= 1
  {
    Sizes(); BeCopy(old0, 1, data)
  }

  function Copy2(old0: u16, data: seq<u8>): u16
    requires |data| <= 2
  {
    Sizes(); BeCopy(old0, 2, data)
  }

  function Copy4(old0: u32, data: seq<u8>): u32
    requires |data| <= 4
  {
    Sizes(); BeCopy(old0, 4, data)
  }

  function Copy8(old0: u64, data: seq<u8>): u64
    requires |data| <= 8
  {
    Sizes(); BeCopy(old0, 8, data)
  }

  /** nf9_rec_to_flow. */
  function RecToFlow(kind: nat, f: StoreFlow, data: seq<u8>): StoreFlow
    requires CheckRecLen(kind, |data|)
  {
    if kind == IN_BYTES then f.(fields := f.fields + {OCTETS}, octets := Copy8(f.octets, data))
    else if kind == IN_PACKETS then f.(fields := f.fields + {PACKETS}, packets := Copy8(f.packets, data))
    else if kind == IN_PROTOCOL then f.(fields := f.fields + {PROTO_FLAGS_TOS}, protocol := Copy1(f.protocol, data))
    else if kind == SRC_TOS then f.(fields := f.fields + {PROTO_FLAGS_TOS}, tos := Copy1(f.tos, data))
    else if kind == TCP_FLAGS then f.(fields := f.fields + {PROTO_FLAGS_TOS}, tcpFlags := Copy1(f.tcpFlags, data))
    else if kind == L4_SRC_PORT then f.(fields := f.fields + {SRCDST_PORT}, srcPort := Copy2(f.srcPort, data))
    else if kind == L4_DST_PORT then f.(fields := f.fields + {SRCDST_PORT}, dstPort := Copy2(f.dstPort, data))
    else if kind == SRC_MASK || kind == IPV6_SRC_MASK then f.(fields := f.fields + {AS_INFO}, srcMask := Copy1(f.srcMask, data))
    else if kind == DST_MASK || kind == IPV6_DST_MASK then f.(fields := f.fields + {AS_INFO}, dstMask := Copy1(f.dstMask, data))
    else if kind == INPUT_SNMP then f.(fields := f.fields + {IF_INDICES}, ifIn := Copy4(f.ifIn, data))
    else if kind == OUTPUT_SNMP then f.(fields := f.fields + {IF_INDICES}, ifOut := Copy4(f.ifOut, data))
    else if kind == SRC_AS then f.(fields := f.fields + {AS_INFO}, srcAs := Copy4(f.srcAs, data))
    else if kind == DST_AS then f.(fields := f.fields + {AS_INFO}, dstAs := Copy4(f.dstAs, data))
    else if kind == LAST_SWITCHED then f.(fields := f.fields + {FLOW_TIMES}, flowFinish := Copy4(f.flowFinish, data))
    else if kind == FIRST_SWITCHED then f.(fields := f.fields + {FLOW_TIMES}, flowStart := Copy4(f.flowStart, data))
    else if kind == ENGINE_TYPE then f.(fields := f.fields + {FLOW_ENGINE_INFO}, engineType := Copy2(f.engineType, data))
    else if kind == ENGINE_ID then f.(fields := f.fields + {FLOW_ENGINE_INFO}, engineId := Copy2(f.engineId, data))
    else if kind == IPV4_SRC_ADDR then f.(fields := f.fields + {SRC_ADDR4}, src := SetAddr(f.src, AddrMatch.Inet, data))
    else if kind == IPV4_DST_ADDR then f.(fields := f.fields + {DST_ADDR4}, dst := SetAddr(f.dst, AddrMatch.Inet, data))
    else if kind == IPV4_NEXT_HOP then f.(fields := f.fields + {GATEWAY_ADDR4}, gateway := SetAddr(f.gateway, AddrMatch.Inet, data))
    else if kind == IPV6_SRC_ADDR then f.(fields := f.fields + {SRC_ADDR6}, src := SetAddr(f.src, AddrMatch.Inet6, data))
    else if kind == IPV6_DST_ADDR then f.(fields := f.fields + {DST_ADDR6}, dst := SetAddr(f.dst, AddrMatch.Inet6, data))
    else if kind == IPV6_NEXT_HOP then f.(fields := f.fields + {GATEWAY_ADDR6}, gateway := SetAddr(f.gateway, AddrMatch.Inet6, data))
    else f
  }

  // ----- Templates and data records -----

  datatype Limits = Limits(maxSources: nat, maxTemplates: nat, maxLen: nat)

  function Total(rs: seq<Nf9Record>): nat {
    if rs == [] then 0 else Total(rs[..|rs| - 1]) + rs[|rs| - 1].len
  }

  ghost predicate RecordsOk(rs: seq<Nf9Record>) {
    forall r <- rs :: CheckRecLen(r.kind, r.len)
  }

  /** A stored template: its length is the sum of its records' and within the limit, and
      every record fits the field that it fills. */
  ghost predicate TemplateOk(t: Nf9Template, maxLen: nat) {
    t.totalLen == Total(t.records) <= maxLen && RecordsOk(t.records)
  }

  ghost predicate StoredOk(s: seq<Nf9Source>, lim: Limits) {
    && SourcesOk(s, lim.maxSources, lim.maxTemplates)
    && forall i, j :: 0 <= i < |s| && 0 <= j < |s[i].templates| ==> TemplateOk(s[i].templates[j], lim.maxLen)
  }

  /** The loop of nf9_flowset_to_store: each record takes its bytes in turn. */
  function Decode(rs: seq<Nf9Record>, f: StoreFlow, data: seq<u8>): StoreFlow
    requires RecordsOk(rs) && Total(rs) <= |data|
  {
    if rs == [] then f
    else
      var n, at := |rs| - 1, Total(rs[..|rs| - 1]);
      RecToFlow(rs[n].kind, Decode(rs[..n], f, data), data[at..at + rs[n].len])
  }

  /** What a record gets from the packet it came in. */
  datatype Meta = Meta(uptime: u32, timeSec: u32, version: u16, sequence: u32, sourceId: u32,
                       recvSec: u32, recvUsec: u32, agent: HostAddr)

  function Blank(m: Meta): StoreFlow {
    BLANK.(fields := {RECV_TIME, AGENT_INFO, AGENT_ADDR4, AGENT_ADDR6},
           sysUptimeMs := m.uptime, timeSec := m.timeSec, netflowVersion := m.version,
           flowSequence := m.sequence, sourceId := m.sourceId,
           recvSec := m.recvSec, recvUsec := m.recvUsec, agent := OfXAddr(m.agent))
  }

  lemma LastRecord(n: nat, size: nat)
    requires n > 0
    ensures n * size == (n - 1) * size + size
    ensures 0 <= (n - 1) * size <= n * size
  {
  }

  /** The first n records of a data flowset whose records start at data[0]. */
  function DecodeAll(t: Nf9Template, m: Meta, data: seq<u8>, n: nat): (fs: seq<StoreFlow>)
    requires RecordsOk(t.records) && t.totalLen == Total(t.records) && n * t.totalLen <= |data|
    ensures |fs| == n
  {
    if n == 0 then []
    else
      LastRecord(n, t.totalLen);
      DecodeAll(t, m, data, n - 1) + [Decode(t.records, Blank(m), data[(n - 1) * t.totalLen..])]
  }

  // ----- Packets -----

  datatype State = State(sources: seq<Nf9Source>, ninvalid: nat, noTemplate: nat)

  /** The end of a handler: it may not come to one, it may give up the packet, or go on. */
  datatype Outcome<T> = Fault | Bad(state: State) | Good(state: State, value: T)

  datatype RecordList = RecordsFault | RecordsBad | RecordList(records: seq<Nf9Record>, total: nat)

  /** The inner loop of process_netflow_v9_template, after the given records. */
  function ReadRecords(pkt: seq<u8>, len: nat, offset: nat, count: nat, done: seq<Nf9Record>, total: nat, maxLen: nat): (r: RecordList)
    decreases count
  {
    if count == 0 then RecordList(done, total)
    else if offset >= len then RecordsBad
    else if offset + 4 > |pkt| then RecordsFault
    else
      var rec := Nf9Record(Get16(pkt, offset), Get16(pkt, offset + 2));
      if total + rec.len > maxLen || !CheckRecLen(rec.kind, rec.len) then RecordsBad
      else ReadRecords(pkt, len, offset + 4, count - 1, done + [rec], total + rec.len, maxLen)
  }

  /** Where a template's records go: over those it has, or into a new template. */
  ghost function StoreTemplate(s: seq<Nf9Source>, lim: Limits, sid: nat, tid: nat, records: seq<Nf9Record>, total: nat): seq<Nf9Source> {
    var p := FindPlace(s, sid, tid);
    if p.Place? then Filled(s, p, records, total)
    else Filled(WithTemplate(s, sid, tid, lim.maxSources, lim.maxTemplates), Place(0, 0), records, total)
  }

  /** The outer loop of process_netflow_v9_template. */
  ghost function ReadTemplates(st: State, lim: Limits, pkt: seq<u8>, len: nat, offset: nat, sid: nat): Outcome<()>
    requires len <= |pkt|
    decreases len - offset
  {
    if offset >= len then Good(st, ())
    else if offset + 4 > |pkt| then Fault
    else
      var tid, count: nat := Get16(pkt, offset), Get16(pkt, offset + 2);
      match ReadRecords(pkt, len, offset + 4, count, [], 0, lim.maxLen)
      case RecordsFault => Fault
      case RecordsBad => Bad(st.(ninvalid := st.ninvalid + 1))
      case RecordList(records, total) =>
        ReadTemplates(st.(sources := StoreTemplate(st.sources, lim, sid, tid, records, total)),
                      lim, pkt, len, offset + 4 + 4 * count, sid)
  }

  ghost function TemplateSet(st: State, lim: Limits, pkt: seq<u8>, len: nat, sid: nat): Outcome<()>
    requires len <= |pkt|
  {
    if len < 4 then Bad(st.(ninvalid := st.ninvalid + 1)) else ReadTemplates(st, lim, pkt, len, 4, sid)
  }

  lemma Fits(len: nat, total: nat)
    requires total > 0
    ensures len / total * total <= len
  {
  }

  /** process_netflow_v9_data. */
  ghost function DataFlowset(st: State, lim: Limits, pkt: seq<u8>, len: nat, sid: nat, m: Meta): Outcome<seq<StoreFlow>>
    requires len <= |pkt| && StoredOk(st.sources, lim)
  {
    if len < 4 then Bad(st.(ninvalid := st.ninvalid + 1))
    else
      var p := FindPlace(st.sources, sid, Get16(pkt, 0));
      if p.Nowhere? then Good(st.(noTemplate := st.noTemplate + 1), [])
      else
        DataRecords(st, st.sources[p.source].templates[p.template], lim, pkt[4..len], m)
  }

  ghost function DataRecords(st: State, t: Nf9Template, lim: Limits, data: seq<u8>, m: Meta): Outcome<seq<StoreFlow>>
    requires TemplateOk(t, lim.maxLen)
  {
    if t.totalLen == 0 then Fault
    else
      var n := |data| / t.totalLen;
      if n == 0 || n > 0x4000 then Bad(st)
      else
        Fits(|data|, t.totalLen);
        Good(st, DecodeAll(t, m, data, n))
  }

  ghost function OneSet(st: State, lim: Limits, pkt: seq<u8>, id: nat, len: nat, m: Meta): Outcome<seq<StoreFlow>>
    requires len <= |pkt| && StoredOk(st.sources, lim)
  {
    if id == TEMPLATE_FLOWSET_ID then
      match TemplateSet(st, lim, pkt, len, m.sourceId)
      case Fault => Fault
      case Bad(st') => Bad(st')
      case Good(st', _) => Good(st', [])
    else if id < MIN_RECORD_FLOWSET_ID then Good(st, [])
    else DataFlowset(st, lim, pkt, len, m.sourceId, m)
  }

  /** A packet's end: the flows processed, and whether all of it was read. A packet that is
      never left in order has had the flows of the flowsets before processed, too. */
  datatype Run = Stuck(flows: seq<StoreFlow>) | Run(state: State, flows: seq<StoreFlow>, finished: bool)

  /** What a run gives after the flows that came before it. */
  ghost function After(flows: seq<StoreFlow>, r: Run): Run {
    match r
    case Stuck(rest) => Stuck(flows + rest)
    case Run(st, rest, finished) => Run(st, flows + rest, finished)
  }

  /** The loop of process_netflow_v9 from a flowset's position on. */
  ghost function ReadSets(st: State, lim: Limits, pkt: seq<u8>, offset: nat, m: Meta): (r: Run)
    requires StoredOk(st.sources, lim) && lim.maxSources > 0 && lim.maxTemplates > 0
    ensures r.Run? ==> StoredOk(r.state.sources, lim)
    decreases |pkt| - offset
  {
    if offset >= |pkt| then Run(st.(ninvalid := st.ninvalid + 1), [], false)
    else if offset + 4 > |pkt| then Stuck([])
    else
      var id, len := Get16(pkt, offset), Get16(pkt, offset + 2);
      if offset + len > |pkt| then Run(st.(ninvalid := st.ninvalid + 1), [], false)
      else
        OneSetKeeps(st, lim, pkt[offset..], id, len, m);
        match OneSet(st, lim, pkt[offset..], id, len, m)
        case Fault => Stuck([])
        case Bad(st') => Run(st', [], false)
        case Good(st', flows) =>
          if offset + len == |pkt| then Run(st', flows, true)
          else if len == 0 then Stuck(flows)
          else
            After(flows, ReadSets(st', lim, pkt, offset + len, m))
  }

  /** process_netflow_v9 up to its last step, the update of the peer. */
  ghost function ReadPacket(st: State, lim: Limits, pkt: seq<u8>, recvSec: u32, recvUsec: u32, agent: HostAddr): (r: Run)
    requires StoredOk(st.sources, lim) && lim.maxSources > 0 && lim.maxTemplates > 0
    ensures r.Run? ==> StoredOk(r.state.sources, lim)
  {
    if |pkt| < HEADER_SIZE then Run(st.(ninvalid := st.ninvalid + 1), [], false)
    else ReadSets(st, lim, pkt, HEADER_SIZE, MetaOf(pkt, recvSec, recvUsec, agent))
  }

  function MetaOf(pkt: seq<u8>, recvSec: u32, recvUsec: u32, agent: HostAddr): Meta
    requires |pkt| >= HEADER_SIZE
  {
    Meta(Get32(pkt, 4), Get32(pkt, 8), Get16(pkt, 0), Get32(pkt, 12), Get32(pkt, 16), recvSec, recvUsec, agent)
  }

  // ----- What every packet keeps -----

  lemma {:induction false} RecordsRead(pkt: seq<u8>, len: nat, offset: nat, count: nat, done: seq<Nf9Record>, total: nat, maxLen: nat)
    requires RecordsOk(done) && total == Total(done) <= maxLen
    ensures var r := ReadRecords(pkt, len, offset, count, done, total, maxLen);
      r.RecordList? ==> RecordsOk(r.records) && r.total == Total(r.records) <= maxLen && |r.records| == |done| + count
    decreases count
  {
    if count > 0 && offset < len && offset + 4 <= |pkt| {
      var rec := Nf9Record(Get16(pkt, offset), Get16(pkt, offset + 2));
      assert (done + [rec])[..|done|] == done;
      if total + rec.len <= maxLen && CheckRecLen(rec.kind, rec.len) {
        RecordsRead(pkt, len, offset + 4, count - 1, done + [rec], total + rec.len, maxLen);
      }
    }
  }

  lemma FilledKeeps(s: seq<Nf9Source>, lim: Limits, p: Place, records: seq<Nf9Record>, total: nat)
    requires StoredOk(s, lim) && p.Place? && p.source < |s| && p.template < |s[p.source].templates|
    requires RecordsOk(records) && total == Total(records) <= lim.maxLen
    ensures StoredOk(Filled(s, p, records, total), lim)
  {
    var s' := Filled(s, p, records, total);
    FilledIds(s, p, records, total);
    forall src | src in s' ensures SourceOk(src, lim.maxTemplates) {
      var i :| 0 <= i < |s'| && s'[i] == src;
      assert SourceOk(s[i], lim.maxTemplates);
    }
  }

  lemma FilledIds(s: seq<Nf9Source>, p: Place, records: seq<Nf9Record>, total: nat)
    requires p.Place? && p.source < |s| && p.template < |s[p.source].templates|
    ensures var s' := Filled(s, p, records, total);
      && SourceIds(s') == SourceIds(s)
      && (forall i :: 0 <= i < |s| ==> TemplateIds(s'[i].templates) == TemplateIds(s[i].templates))
      && (forall i :: 0 <= i < |s| ==> s'[i].numTemplates == s[i].numTemplates)
  {
  }

  /** Every template of a source list is in order. */
  ghost predicate TemplatesOk(ts: seq<Nf9Template>, maxLen: nat) {
    forall t <- ts :: TemplateOk(t, maxLen)
  }

  lemma StoredIs(s: seq<Nf9Source>, lim: Limits)
    ensures StoredOk(s, lim) <==>
      SourcesOk(s, lim.maxSources, lim.maxTemplates) && forall src <- s :: TemplatesOk(src.templates, lim.maxLen)
  {
    if StoredOk(s, lim) {
      forall src | src in s ensures TemplatesOk(src.templates, lim.maxLen) {
        var i :| 0 <= i < |s| && s[i] == src;
      }
    }
    if SourcesOk(s, lim.maxSources, lim.maxTemplates) && forall src <- s :: TemplatesOk(src.templates, lim.maxLen) {
      forall i, j | 0 <= i < |s| && 0 <= j < |s[i].templates| ensures TemplateOk(s[i].templates[j], lim.maxLen) {
        assert s[i] in s && s[i].templates[j] in s[i].templates;
      }
    }
  }

  lemma WithTemplateKeeps(s: seq<Nf9Source>, lim: Limits, sid: nat, tid: nat)
    requires StoredOk(s, lim) && lim.maxSources > 0 && lim.maxTemplates > 0 && FindPlace(s, sid, tid) == Nowhere
    ensures var r := WithTemplate(s, sid, tid, lim.maxSources, lim.maxTemplates);
      StoredOk(r, lim) && r != [] && r[0].templates != []
  {
    hide SourcesOk, TemplateOk, Lru.Step, SourceIds, TemplateIds;
    var r := WithTemplate(s, sid, tid, lim.maxSources, lim.maxTemplates);
    WithTemplateIsLru(s, sid, tid, lim.maxSources, lim.maxTemplates);
    StoredIs(s, lim);
    StoredIs(r, lim);
    NewTemplatesOk(s, lim, sid, tid);
    forall src | src in r ensures TemplatesOk(src.templates, lim.maxLen) {
      if src != r[0] { assert src in r[1..]; }
    }
  }

  lemma NewTemplatesOk(s: seq<Nf9Source>, lim: Limits, sid: nat, tid: nat)
    requires forall src <- s :: TemplatesOk(src.templates, lim.maxLen)
    ensures TemplatesOk(WithTemplate(s, sid, tid, lim.maxSources, lim.maxTemplates)[0].templates, lim.maxLen)
  {
    var k := IndexOf(s, sid);
    var before := if k < |s| then s[k].templates else [];
    if k < |s| { assert s[k] in s; }
    var ts := [Nf9Template(tid, [], 0)] + Trimmed(before, lim.maxTemplates);
    forall t | t in ts ensures TemplateOk(t, lim.maxLen) {
      if t != ts[0] { assert t in before; }
    }
  }

  lemma StoreTemplateKeeps(s: seq<Nf9Source>, lim: Limits, sid: nat, tid: nat, records: seq<Nf9Record>, total: nat)
    requires StoredOk(s, lim) && lim.maxSources > 0 && lim.maxTemplates > 0
    requires RecordsOk(records) && total == Total(records) <= lim.maxLen
    ensures StoredOk(StoreTemplate(s, lim, sid, tid, records, total), lim)
  {
    var p := FindPlace(s, sid, tid);
    if p.Place? {
      FilledKeeps(s, lim, p, records, total);
    } else {
      WithTemplateKeeps(s, lim, sid, tid);
      FilledKeeps(WithTemplate(s, sid, tid, lim.maxSources, lim.maxTemplates), lim, Place(0, 0), records, total);
    }
  }

  ghost predicate Keeps<T>(o: Outcome<T>, lim: Limits) {
    o.Fault? || StoredOk(o.state.sources, lim)
  }

  lemma {:induction false} TemplatesKeep(st: State, lim: Limits, pkt: seq<u8>, len: nat, offset: nat, sid: nat)
    requires len <= |pkt| && StoredOk(st.sources, lim) && lim.maxSources > 0 && lim.maxTemplates > 0
    ensures Keeps(ReadTemplates(st, lim, pkt, len, offset, sid), lim)
    decreases len - offset
  {
    hide StoredOk, StoreTemplate, ReadRecords;
    if offset < len && offset + 4 <= |pkt| {
      var tid, count: nat := Get16(pkt, offset), Get16(pkt, offset + 2);
      var r := ReadRecords(pkt, len, offset + 4, count, [], 0, lim.maxLen);
      NoRecords();
      RecordsRead(pkt, len, offset + 4, count, [], 0, lim.maxLen);
      if r.RecordList? {
        StoreTemplateKeeps(st.sources, lim, sid, tid, r.records, r.total);
        TemplatesKeep(st.(sources := StoreTemplate(st.sources, lim, sid, tid, r.records, r.total)),
                      lim, pkt, len, offset + 4 + 4 * count, sid);
      }
    }
  }

  lemma NoRecords()
    ensures RecordsOk([]) && Total([]) == 0
  {
  }

  lemma OneSetKeeps(st: State, lim: Limits, pkt: seq<u8>, id: nat, len: nat, m: Meta)
    requires len <= |pkt| && StoredOk(st.sources, lim) && lim.maxSources > 0 && lim.maxTemplates > 0
    ensures Keeps(OneSet(st, lim, pkt, id, len, m), lim)
  {
    hide StoredOk, ReadTemplates, DecodeAll;
    if id == TEMPLATE_FLOWSET_ID && len >= 4 {
      TemplatesKeep(st, lim, pkt, len, 4, m.sourceId);
    }
  }

  // ----- What decoding does -----

  /** The record types that fill one and the same field. */
  function Slot(kind: nat): nat {
    if kind == IPV6_SRC_MASK then SRC_MASK else if kind == IPV6_DST_MASK then DST_MASK else kind
  }

  /** The number in the field that an integer record type fills. */
  function IntField(kind: nat, f: StoreFlow): nat {
    if kind == IN_BYTES then f.octets else if kind == IN_PACKETS then f.packets
    else if kind == IN_PROTOCOL then f.protocol else if kind == SRC_TOS then f.tos
    else if kind == TCP_FLAGS then f.tcpFlags
    else if kind == L4_SRC_PORT then f.srcPort else if kind == L4_DST_PORT then f.dstPort
    else if kind == SRC_MASK then f.srcMask else if kind == DST_MASK then f.dstMask
    else if kind == INPUT_SNMP then f.ifIn else if kind == OUTPUT_SNMP then f.ifOut
    else if kind == SRC_AS then f.srcAs else if kind == DST_AS then f.dstAs
    else if kind == LAST_SWITCHED then f.flowFinish else if kind == FIRST_SWITCHED then f.flowStart
    else if kind == ENGINE_TYPE then f.engineType else if kind == ENGINE_ID then f.engineId
    else 0
  }

  predicate IsInt(kind: nat) {
    FieldSize(kind) > 0 && !IsAddr(kind)
  }

  predicate IsAddr(kind: nat) {
    kind in {IPV4_SRC_ADDR, IPV4_DST_ADDR, IPV4_NEXT_HOP, IPV6_SRC_ADDR, IPV6_DST_ADDR, IPV6_NEXT_HOP}
  }

  /** A record changes no field but its own. */
  lemma OtherSlot(kind: nat, other: nat, f: StoreFlow, data: seq<u8>)
    requires CheckRecLen(kind, |data|) && Slot(kind) != Slot(other)
    ensures IntField(Slot(other), RecToFlow(kind, f, data)) == IntField(Slot(other), f)
    ensures f.fields <= RecToFlow(kind, f, data).fields
  {
  }

  lemma OwnSlot(kind: nat, f: StoreFlow, data: seq<u8>)
    requires CheckRecLen(kind, |data|) && IsInt(kind) && IntField(Slot(kind), f) == 0
    ensures IntField(Slot(kind), RecToFlow(kind, f, data)) == Number(data)
  {
    BeCopyBlank(FieldSize(kind), data);
  }

  /** Where the i-th record's bytes start. */
  function StartOf(rs: seq<Nf9Record>, i: nat): nat
    requires i <= |rs|
  {
    Total(rs[..i])
  }

  lemma {:induction false} TotalPrefix(rs: seq<Nf9Record>, i: nat)
    requires i <= |rs|
    ensures Total(rs[..i]) <= Total(rs)
    ensures i < |rs| ==> Total(rs[..i + 1]) == Total(rs[..i]) + rs[i].len <= Total(rs)
  {
    if i < |rs| {
      assert rs[..i + 1][..i] == rs[..i];
      if i + 1 < |rs| {
        TotalPrefix(rs[..|rs| - 1], i);
        assert rs[..|rs| - 1][..i] == rs[..i] && rs[..|rs| - 1][..i + 1] == rs[..i + 1];
      } else {
        assert rs[..|rs|] == rs;
      }
    } else {
      assert rs[..i] == rs;
    }
  }

  /** Every integer record whose field no other record fills keeps the number that its bytes
      hold in big-endian order, however many they are. */
  lemma {:induction false} DecodeKeepsNumbers(rs: seq<Nf9Record>, f: StoreFlow, data: seq<u8>, i: nat)
    requires RecordsOk(rs) && Total(rs) <= |data| && i < |rs| && IsInt(rs[i].kind)
    requires forall j :: 0 <= j < |rs| && j != i ==> Slot(rs[j].kind) != Slot(rs[i].kind)
    requires IntField(Slot(rs[i].kind), f) == 0
    ensures StartOf(rs, i) + rs[i].len <= Total(rs)
    ensures IntField(Slot(rs[i].kind), Decode(rs, f, data)) == Number(data[StartOf(rs, i)..StartOf(rs, i) + rs[i].len])
  {
    hide RecToFlow, IntField, Slot, IsInt, CheckRecLen;
    var n := |rs| - 1;
    TotalPrefix(rs, i);
    TotalPrefix(rs, n);
    if i == n {
      Untouched(rs[..n], f, data, rs[i].kind);
      OwnSlot(rs[n].kind, Decode(rs[..n], f, data), data[Total(rs[..n])..Total(rs[..n]) + rs[n].len]);
    } else {
      assert rs[..n][..i] == rs[..i];
      DecodeKeepsNumbers(rs[..n], f, data, i);
      OtherSlot(rs[n].kind, rs[i].kind, Decode(rs[..n], f, data), data[Total(rs[..n])..Total(rs[..n]) + rs[n].len]);
    }
  }

  lemma {:induction false} Untouched(rs: seq<Nf9Record>, f: StoreFlow, data: seq<u8>, kind: nat)
    requires RecordsOk(rs) && Total(rs) <= |data| && forall r <- rs :: Slot(r.kind) != Slot(kind)
    ensures IntField(Slot(kind), Decode(rs, f, data)) == IntField(Slot(kind), f)
  {
    hide RecToFlow, IntField, Slot;
    if rs != [] {
      var n := |rs| - 1;
      Untouched(rs[..n], f, data, kind);
      OtherSlot(rs[n].kind, kind, Decode(rs[..n], f, data), data[Total(rs[..n])..Total(rs[..n]) + rs[n].len]);
    }
  }

  /** Decoding reads the bytes that the template describes and no others. */
  lemma {:induction false} DecodeReads(rs: seq<Nf9Record>, f: StoreFlow, data: seq<u8>, data': seq<u8>)
    requires RecordsOk(rs) && Total(rs) <= |data| && Total(rs) <= |data'| && data[..Total(rs)] == data'[..Total(rs)]
    ensures Decode(rs, f, data) == Decode(rs, f, data')
  {
    hide RecToFlow;
    if rs != [] {
      var n := |rs| - 1;
      var at := Total(rs[..n]);
      SamePart(data, data', 0, Total(rs), 0, at);
      SamePart(data, data', 0, Total(rs), at, at + rs[n].len);
      DecodeReads(rs[..n], f, data, data');
    }
  }
}
