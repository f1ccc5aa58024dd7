/** NetFlow v9 in numbers (RFC 3954; softflowd/netflow9.c, flowd/flowd.c): the bytes of the
    exporter's templates and records, and what the collector makes of each field type. */
module Nf9Numbers {
  import opened Addr
  import AddrMatch
  import opened Bits
  import opened Bytes
  import opened FlowRecord
  import opened Nf9Collect
  import opened Nf9Wire
  import opened PeerState

  // ----- What is sent -----

  /** The field types of the two templates, with their lengths. */
  const FIELDS4: seq<(u8, u8)> := [(8, 4), (12, 4), (21, 4), (22, 4), (1, 4), (2, 4), (7, 2), (11, 2), (4, 1), (6, 1), (60, 1)]
  const FIELDS6: seq<(u8, u8)> := [(27, 16), (28, 16), (21, 4), (22, 4), (1, 4), (2, 4), (7, 2), (11, 2), (4, 1), (6, 1), (60, 1)]

  /** Two bytes each, the first of them zero. */
  function Listed(fields: seq<(u8, u8)>): seq<u8> {
    if fields == [] then [] else [0, fields[0].0, 0, fields[0].1] + Listed(fields[1..])
  }

  /** The two template flowsets (section 5.2 of RFC 3954): number 0, length 52, the
      template's own number, which is 1024 or 2048, and its eleven fields. */
  lemma TemplateBytes()
    ensures EncodeTemplate(false) == [0, 0, 0, 52, 4, 0, 0, 11] + Listed(FIELDS4)
    ensures EncodeTemplate(true) == [0, 0, 0, 52, 8, 0, 0, 11] + Listed(FIELDS6)
  {
    hide EncodeTemplate, Listed, FIELDS4, FIELDS6;
    Table4();
    Table6();
    TemplateListed(false, FIELDS4);
    TemplateListed(true, FIELDS6);
  }

  ghost predicate Lists(rs: seq<Nf9Record>, fields: seq<(u8, u8)>) {
    |rs| == |fields| == 11 && forall i :: 0 <= i < |rs| ==> rs[i] == Nf9Record(fields[i].0, fields[i].1)
  }

  lemma Table4()
    ensures Lists(TemplateRecords(false), FIELDS4)
  {
  }

  lemma Table6()
    ensures Lists(TemplateRecords(true), FIELDS6)
  {
  }

  lemma TemplateListed(v6: bool, fields: seq<(u8, u8)>)
    requires Lists(TemplateRecords(v6), fields)
    ensures EncodeTemplate(v6) == [0, 0, 0, 52, if v6 then 8 else 4, 0, 0, 11] + Listed(fields)
  {
    hide Put16, EncodeRecords, Listed, TemplateRecords;
    SmallNumbers();
    FieldsListed(TemplateRecords(v6), fields);
  }

  lemma SmallNumbers()
    ensures Put16(0) == [0, 0] && Put16(52) == [0, 52] && Put16(11) == [0, 11] && Put16(1024) == [4, 0] && Put16(2048) == [8, 0]
  {
  }

  lemma {:induction false} FieldsListed(rs: seq<Nf9Record>, fields: seq<(u8, u8)>)
    requires |rs| == |fields| && forall i :: 0 <= i < |rs| ==> rs[i] == Nf9Record(fields[i].0, fields[i].1)
    ensures (forall r <- rs :: r.kind < 0x1_0000 && r.len < 0x1_0000) && EncodeRecords(rs) == Listed(fields)
    decreases |rs|
  {
    if rs != [] {
      FieldsListed(rs[1..], fields[1..]);
      forall r | r in rs ensures r.kind < 0x1_0000 && r.len < 0x1_0000 {
        if r != rs[0] { assert r in rs[1..]; }
      }
    }
  }

  /** A data record of a flow in either direction, with its numbers in big-endian order; the
      IP version is that of the addresses. */
  lemma RecordBytes(f: Flow)
    requires !f.ends.OtherFamily?
    ensures var tail := [f.protocol, f.flagsA, if f.ends.Inet6? then 6 else 4];
      Record(f, false) == (if f.ends.Inet6? then f.ends.a6 + f.ends.b6 else f.ends.a + f.ends.b)
        + Be(f.start, 4) + Be(f.last, 4) + Be(f.octetsA, 4) + Be(f.packetsA, 4) + Be(f.portA, 2) + Be(f.portB, 2) + tail
    ensures var tail := [f.protocol, f.flagsB, if f.ends.Inet6? then 6 else 4];
      Record(f, true) == (if f.ends.Inet6? then f.ends.b6 + f.ends.a6 else f.ends.b + f.ends.a)
        + Be(f.start, 4) + Be(f.last, 4) + Be(f.octetsB, 4) + Be(f.packetsB, 4) + Be(f.portB, 2) + Be(f.portA, 2) + tail
  {
    hide Be, Put16, Put32, Record;
    AllBe();
    Regrouped(f, false);
    Regrouped(f, true);
  }

  lemma Regrouped(f: Flow, back: bool)
    requires !f.ends.OtherFamily?
    ensures Record(f, back) == SrcDst(f.ends, back) + Put32(f.start) + Put32(f.last)
      + Put32(if back then f.octetsB else f.octetsA) + Put32(if back then f.packetsB else f.packetsA)
      + Put16(if back then f.portB else f.portA) + Put16(if back then f.portA else f.portB)
      + [f.protocol, if back then f.flagsB else f.flagsA, if f.ends.Inet6? then 6 else 4]
  {
    hide Put16, Put32;
  }

  /** The header of a packet (section 5.1 of RFC 3954). */
  lemma HeaderBytes(count: u16, uptime: u32, time: u32, sequence: u32)
    ensures Header(count, uptime, time, sequence) == [0, 9] + Be(count, 2) + Be(uptime, 4) + Be(time, 4) + Be(sequence, 4) + [0, 0, 0, 0]
  {
    hide Be, Put32;
    AllBe();
    ZeroBytes();
  }

  lemma ZeroBytes()
    ensures Put32(0) == [0, 0, 0, 0] && Put16(9) == [0, 9]
  {
  }

  // ----- What is collected -----

  /** The lengths that the collector admits: up to 0x4000 bytes, and for the types that it
      knows (section 8 of RFC 3954) up to those of the field. */
  const ADMITTED: map<nat, nat> := map[
    1 := 8, 2 := 8, 4 := 1, 5 := 1, 6 := 1, 7 := 2, 8 := 4, 9 := 1, 10 := 4, 11 := 2, 12 := 4, 13 := 1, 14 := 4, 15 := 4,
    16 := 4, 17 := 4, 21 := 4, 22 := 4, 27 := 16, 28 := 16, 29 := 1, 30 := 1, 38 := 2, 39 := 2, 62 := 16]

  lemma LengthsAdmitted(kind: nat, len: nat)
    ensures CheckRecLen(kind, len) <==> 0 < len <= 0x4000 && (kind in ADMITTED ==> len <= ADMITTED[kind])
  {
    KnownTypes(kind);
  }

  lemma KnownTypes(kind: nat)
    ensures FieldSize(kind) == if kind in ADMITTED then ADMITTED[kind] else 0
  {
  }

  /** The last bytes of a number replaced by the given ones. */
  ghost predicate Low(r: nat, old0: nat, data: seq<u8>) {
    r % Capacity(|data|) == Number(data) && r / Capacity(|data|) == old0 / Capacity(|data|)
  }

  lemma CopyIsLow(old0: nat, size: nat, data: seq<u8>)
    requires |data| <= size && old0 < Capacity(size)
    ensures Low(BeCopy(old0, size, data), old0, data)
  {
    hide Number, Capacity;
    NumberBound(data);
    OverlayParts(old0, Capacity(|data|), Number(data));
  }

  lemma OverlayParts(old0: nat, block: nat, n: nat)
    requires n < block
    ensures Overlay(old0, block, n) >= 0 && Overlay(old0, block, n) % block == n && Overlay(old0, block, n) / block == old0 / block
  {
    var q := old0 / block;
    assert old0 - old0 % block == block * q;
    assert Overlay(old0, block, n) == block * q + n;
    ModUnique(block * q + n, block, q, n);
  }

  /** An address whose first bytes are the given ones. */
  ghost predicate Front(r: Raw, old0: Raw, af: AddrMatch.Family, data: seq<u8>) {
    |data| <= 16 && r.af == af && r.scope == old0.scope && r.bytes == data + old0.bytes[|data|..]
  }

  /** What a field of a data record does to the flow record, by its type: which flag it sets,
      which field it fills, and that nothing else changes. */
  ghost predicate Fills(kind: nat, f: StoreFlow, r: StoreFlow, data: seq<u8>) {
    match kind
    case 1 => r == f.(fields := f.fields + {13}, octets := r.octets) && Low(r.octets, f.octets, data)
    case 2 => r == f.(fields := f.fields + {12}, packets := r.packets) && Low(r.packets, f.packets, data)
    case 4 => r == f.(fields := f.fields + {2}, protocol := r.protocol) && Low(r.protocol, f.protocol, data)
    case 5 => r == f.(fields := f.fields + {2}, tos := r.tos) && Low(r.tos, f.tos, data)
    case 6 => r == f.(fields := f.fields + {2}, tcpFlags := r.tcpFlags) && Low(r.tcpFlags, f.tcpFlags, data)
    case 7 => r == f.(fields := f.fields + {11}, srcPort := r.srcPort) && Low(r.srcPort, f.srcPort, data)
    case 8 => r == f.(fields := f.fields + {5}, src := r.src) && Front(r.src, f.src, AddrMatch.Inet, data)
    case 9 => r == f.(fields := f.fields + {17}, srcMask := r.srcMask) && Low(r.srcMask, f.srcMask, data)
    case 10 => r == f.(fields := f.fields + {14}, ifIn := r.ifIn) && Low(r.ifIn, f.ifIn, data)
    case 11 => r == f.(fields := f.fields + {11}, dstPort := r.dstPort) && Low(r.dstPort, f.dstPort, data)
    case 12 => r == f.(fields := f.fields + {7}, dst := r.dst) && Front(r.dst, f.dst, AddrMatch.Inet, data)
    case 13 => r == f.(fields := f.fields + {17}, dstMask := r.dstMask) && Low(r.dstMask, f.dstMask, data)
    case 14 => r == f.(fields := f.fields + {14}, ifOut := r.ifOut) && Low(r.ifOut, f.ifOut, data)
    case 15 => r == f.(fields := f.fields + {9}, gateway := r.gateway) && Front(r.gateway, f.gateway, AddrMatch.Inet, data)
    case 16 => r == f.(fields := f.fields + {17}, srcAs := r.srcAs) && Low(r.srcAs, f.srcAs, data)
    case 17 => r == f.(fields := f.fields + {17}, dstAs := r.dstAs) && Low(r.dstAs, f.dstAs, data)
    case 21 => r == f.(fields := f.fields + {16}, flowFinish := r.flowFinish) && Low(r.flowFinish, f.flowFinish, data)
    case 22 => r == f.(fields := f.fields + {16}, flowStart := r.flowStart) && Low(r.flowStart, f.flowStart, data)
    case 27 => r == f.(fields := f.fields + {6}, src := r.src) && Front(r.src, f.src, AddrMatch.Inet6, data)
    case 28 => r == f.(fields := f.fields + {8}, dst := r.dst) && Front(r.dst, f.dst, AddrMatch.Inet6, data)
    case 29 => r == f.(fields := f.fields + {17}, srcMask := r.srcMask) && Low(r.srcMask, f.srcMask, data)
    case 30 => r == f.(fields := f.fields + {17}, dstMask := r.dstMask) && Low(r.dstMask, f.dstMask, data)
    case 38 => r == f.(fields := f.fields + {18}, engineType := r.engineType) && Low(r.engineType, f.engineType, data)
    case 39 => r == f.(fields := f.fields + {18}, engineId := r.engineId) && Low(r.engineId, f.engineId, data)
    case 62 => r == f.(fields := f.fields + {10}, gateway := r.gateway) && Front(r.gateway, f.gateway, AddrMatch.Inet6, data)
    case _ => r == f
  }

  lemma RecordFills(kind: nat, f: StoreFlow, data: seq<u8>)
    requires CheckRecLen(kind, |data|)
    ensures Fills(kind, f, RecToFlow(kind, f, data), data)
  {
    hide BeCopy, Low;
    LengthsAdmitted(kind, |data|);
    KnownTypes(kind);
    CopiesAreLow(f, data);
  }

  lemma CopiesAreLow(f: StoreFlow, data: seq<u8>)
    ensures forall x: u8 :: |data| <= 1 ==> Low(Copy1(x, data), x, data)
    ensures forall x: u16 :: |data| <= 2 ==> Low(Copy2(x, data), x, data)
    ensures forall x: u32 :: |data| <= 4 ==> Low(Copy4(x, data), x, data)
    ensures forall x: u64 :: |data| <= 8 ==> Low(Copy8(x, data), x, data)
  {
    hide BeCopy, Low, Capacity;
    Sizes();
    forall x: u8 | |data| <= 1 ensures Low(Copy1(x, data), x, data) { CopyIsLow(x, 1, data); }
    forall x: u16 | |data| <= 2 ensures Low(Copy2(x, data), x, data) { CopyIsLow(x, 2, data); }
    forall x: u32 | |data| <= 4 ensures Low(Copy4(x, data), x, data) { CopyIsLow(x, 4, data); }
    forall x: u64 | |data| <= 8 ensures Low(Copy8(x, data), x, data) { CopyIsLow(x, 8, data); }
  }

  /** A whole address that was copied in is that address. */
  lemma WholeAddress(old0: Raw, r: Raw, data: seq<u8>)
    ensures Front(r, old0, AddrMatch.Inet, data) && |data| == 4 ==> ToXAddr(r) == V4(Get32(data, 0))
    ensures Front(r, old0, AddrMatch.Inet6, data) && |data| == 16 ==>
      ToXAddr(r) == V6(Get32(data, 0), Get32(data, 4), Get32(data, 8), Get32(data, 12), old0.scope)
  {
  }
}
