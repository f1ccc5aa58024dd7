/** Records of the older log format, version 2 (flowd/store-v2.c), and their conversion. */
module StoreV2 {
  import AddrMatch
  import opened Bytes
  import Crc32
  import opened FlowRecord
  import opened Store
  import opened StoreRoundTrip
  import opened StoreWriteBack

  const HEADER2 := 4

  /** struct store_v2_flow_complete. */
  datatype FlowV2 = FlowV2(
    fields: Fields,
    tag: u32,
    recvSec: u32,
    tcpFlags: u8, protocol: u8, tos: u8, pftPad: u8,
    agent: Raw, src: Raw, dst: Raw, gateway: Raw,
    srcPort: u16, dstPort: u16,
    packets: u64, octets: u64,
    ifIn: u16, ifOut: u16,
    sysUptimeMs: u32, timeSec: u32, timeNanosec: u32, netflowVersion: u16, agentPad: u16,
    flowStart: u32, flowFinish: u32,
    srcAs: u16, dstAs: u16, srcMask: u8, dstMask: u8, asPad: u16,
    engineType: u8, engineId: u8, flowSequence: u32,
    crc: u32)

  const BLANK2 := FlowV2({}, 0, 0, 0, 0, 0, 0, NO_ADDR, NO_ADDR, NO_ADDR, NO_ADDR, 0, 0, 0, 0, 0, 0,
                         0, 0, 0, 0, 0, 0, 0, 0, 0, 0, 0, 0, 0, 0, 0, 0)

  function Size2(bit: nat): nat {
    if bit in {AGENT_ADDR6, SRC_ADDR6, DST_ADDR6, GATEWAY_ADDR6, AGENT_INFO} then 16
    else if bit in {PACKETS, OCTETS, FLOW_TIMES, AS_INFO, FLOW_ENGINE_INFO} then 8
    else 4
  }

  function SetField2(f: FlowV2, bit: nat, s: seq<u8>): FlowV2
    requires bit < BODY_FIELDS && |s| == Size2(bit)
  {
    if bit == TAG then f.(tag := Get32(s, 0))
    else if bit == RECV_TIME then f.(recvSec := Get32(s, 0))
    else if bit == PROTO_FLAGS_TOS then f.(tcpFlags := s[0], protocol := s[1], tos := s[2], pftPad := s[3])
    else if bit == AGENT_ADDR4 then f.(agent := Ip4(s))
    else if bit == AGENT_ADDR6 then f.(agent := Ip6(s))
    else if bit == SRC_ADDR4 then f.(src := Ip4(s))
    else if bit == SRC_ADDR6 then f.(src := Ip6(s))
    else if bit == DST_ADDR4 then f.(dst := Ip4(s))
    else if bit == DST_ADDR6 then f.(dst := Ip6(s))
    else if bit == GATEWAY_ADDR4 then f.(gateway := Ip4(s))
    else if bit == GATEWAY_ADDR6 then f.(gateway := Ip6(s))
    else if bit == SRCDST_PORT then f.(srcPort := Get16(s, 0), dstPort := Get16(s, 2))
    else if bit == PACKETS then f.(packets := Get64(s, 0))
    else if bit == OCTETS then f.(octets := Get64(s, 0))
    else if bit == IF_INDICES then f.(ifIn := Get16(s, 0), ifOut := Get16(s, 2))
    else if bit == AGENT_INFO then
      f.(sysUptimeMs := Get32(s, 0), timeSec := Get32(s, 4), timeNanosec := Get32(s, 8),
         netflowVersion := Get16(s, 12), agentPad := Get16(s, 14))
    else if bit == FLOW_TIMES then f.(flowStart := Get32(s, 0), flowFinish := Get32(s, 4))
    else if bit == AS_INFO then
      f.(srcAs := Get16(s, 0), dstAs := Get16(s, 2), srcMask := s[4], dstMask := s[5], asPad := Get16(s, 6))
    else f.(engineType := s[0], engineId := s[1], flowSequence := Get32(s, 4))
  }

  function BodyLen2(fs: Fields, n: nat): nat {
    if n == 0 then 0 else BodyLen2(fs, n - 1) + (if n - 1 in fs then Size2(n - 1) else 0)
  }

  /** store_v2_calc_flow_len. */
  function CalcFlowLen2(fs: Fields): int {
    if fs <= ALL_FIELDS then BodyLen2(fs, BODY_FIELDS) + (if CRC32 in fs then 4 else 0) else -1
  }

  function Slice2(buf: seq<u8>, fs: Fields, bit: nat): (s: seq<u8>)
    requires bit in fs && HEADER2 + BodyLen2(fs, bit + 1) <= |buf|
    ensures |s| == Size2(bit)
  {
    buf[HEADER2 + BodyLen2(fs, bit)..HEADER2 + BodyLen2(fs, bit + 1)]
  }

  function ReadFields2(buf: seq<u8>, fs: Fields, n: nat): FlowV2
    requires n <= BODY_FIELDS && HEADER2 + BodyLen2(fs, n) <= |buf|
  {
    if n == 0 then BLANK2
    else
      var g := ReadFields2(buf, fs, n - 1);
      if n - 1 in fs then SetField2(g, n - 1, Slice2(buf, fs, n - 1)) else g
  }

  /** store_v2_flow_deserialise; it looks at the header before it looks at the length. */
  function Deserialised2(buf: seq<u8>): StoreResult<FlowV2>
    requires |buf| >= HEADER2
  {
    var fs := FieldsOf(Get32(buf, 0));
    if !(fs <= ALL_FIELDS) then Err(FlowInvalid)
    else if |buf| - HEADER2 < CalcFlowLen2(fs) then Err(BufferSize)
    else
      var end := HEADER2 + BodyLen2(fs, BODY_FIELDS);
      var f := ReadFields2(buf, fs, BODY_FIELDS).(fields := fs);
      if BothForms(fs) then Err(Other)
      else if CRC32 !in fs then Ok(f)
      else if Checksum(buf[..end]) != Get32(buf, end) then Err(CrcMismatch)
      else Ok(f.(crc := Get32(buf, end)))
  }

  method Deserialise2(buf: seq<u8>) returns (r: StoreResult<FlowV2>)
    requires |buf| >= HEADER2
    ensures r == Deserialised2(buf)
  {
    hide Crc32.Crc, Crc32.Value, Get32, BothForms, ReadFields2, BodyLen2, ALL_FIELDS;
    var fs := FieldsOf(Get32(buf, 0));
    var len := CalcFlowLen2(fs);
    if !(fs <= ALL_FIELDS) {
      return Err(FlowInvalid);
    }
    if |buf| - HEADER2 < len {
      return Err(BufferSize);
    }
    var f, offset, crc := ReadBody2(buf, fs);
    f := f.(fields := fs);
    if CRC32 in fs {
      f := f.(crc := Get32(buf, offset));
    }
    if BothForms(fs) {
      return Err(Other);
    }
    if CRC32 in fs && Crc32.Value(crc, 32) != f.crc {
      return Err(CrcMismatch);
    }
    r := Ok(f);
  }

  method ReadBody2(buf: seq<u8>, fs: Fields) returns (f: FlowV2, offset: nat, crc: bv32)
    requires HEADER2 + BodyLen2(fs, BODY_FIELDS) <= |buf|
    ensures f == ReadFields2(buf, fs, BODY_FIELDS)
    ensures offset == HEADER2 + BodyLen2(fs, BODY_FIELDS)
    ensures CRC32 in fs ==> crc == Crc32.Crc(0, buf[..offset])
  {
    hide SetField2, Crc32.Crc, Size2;
    f, offset := BLANK2, HEADER2;
    crc := Crc32.Start();
    crc := Crc32.Update(buf[..HEADER2], crc);
    for bit := 0 to BODY_FIELDS
      invariant offset == HEADER2 + BodyLen2(fs, bit)
      invariant offset <= |buf| && f == ReadFields2(buf, fs, bit)
      invariant CRC32 in fs ==> crc == Crc32.Crc(0, buf[..offset])
    {
      BodyLen2Monotone(fs, bit + 1, BODY_FIELDS);
      if bit in fs {
        var data := buf[offset..offset + Size2(bit)];
        f := SetField2(f, bit, data);
        if CRC32 in fs {
          crc := Crc32.Update(data, crc);
          Crc32.CrcConcat(0, buf[..offset], data);
          assert buf[..offset + Size2(bit)] == buf[..offset] + data;
        }
        offset := offset + Size2(bit);
      }
    }
  }

  lemma {:induction false} BodyLen2Monotone(fs: Fields, m: nat, n: nat)
    requires m <= n
    ensures BodyLen2(fs, m) <= BodyLen2(fs, n)
  {
    if m < n { BodyLen2Monotone(fs, m, n - 1); }
  }

  /** store_v2_flow_convert, once the length is known to be good. */
  function Converted(f: FlowV2): StoreFlow {
    StoreFlow(f.fields, f.tag, f.recvSec, 0, f.tcpFlags, f.protocol, f.tos, f.pftPad, f.agent, f.src, f.dst, f.gateway,
              f.srcPort, f.dstPort, f.packets, f.octets, f.ifIn, f.ifOut,
              f.sysUptimeMs, f.timeSec, f.timeNanosec, f.netflowVersion, f.agentPad, f.flowStart, f.flowFinish,
              f.srcAs, f.dstAs, f.srcMask, f.dstMask, f.asPad, f.engineType, f.engineId, f.flowSequence, 0, f.crc)
  }

  method Convert(g: FlowV2) returns (ok: bool, f: StoreFlow)
    ensures ok <==> g.fields <= ALL_FIELDS
    ensures ok ==> f == Converted(g)
  {
    f := BLANK.(fields := g.fields);
    KnownLength(g.fields);
    if CalcFlowLen(f.fields) == -1 {
      return false, f;
    }
    f := f.(tag := g.tag, recvSec := g.recvSec, tcpFlags := g.tcpFlags, protocol := g.protocol, tos := g.tos, pftPad := g.pftPad);
    f := f.(agent := g.agent, src := g.src, dst := g.dst, gateway := g.gateway);
    f := f.(srcPort := g.srcPort, dstPort := g.dstPort, packets := g.packets, octets := g.octets);
    f := f.(ifIn := g.ifIn, ifOut := g.ifOut);
    f := f.(sysUptimeMs := g.sysUptimeMs, timeSec := g.timeSec, timeNanosec := g.timeNanosec);
    f := f.(netflowVersion := g.netflowVersion, agentPad := g.agentPad);
    f := f.(flowStart := g.flowStart, flowFinish := g.flowFinish);
    f := f.(srcAs := g.srcAs, dstAs := g.dstAs, srcMask := g.srcMask, dstMask := g.dstMask, asPad := g.asPad);
    f := f.(engineType := g.engineType, engineId := g.engineId, flowSequence := g.flowSequence, crc := g.crc);
    ok := true;
  }

  // ----- The conversion on the bytes -----

  /** A field of version 2 as the same field of version 3: narrow numbers are widened by
      zero bytes in front, the two new numbers are zero. */
  function Widen(bit: nat, s: seq<u8>): (w: seq<u8>)
    requires bit < BODY_FIELDS && |s| == Size2(bit)
    ensures |w| == Size(bit)
  {
    if bit == RECV_TIME then s + [0, 0, 0, 0]
    else if bit == IF_INDICES then [0, 0] + s[..2] + [0, 0] + s[2..]
    else if bit == AS_INFO then [0, 0] + s[..2] + [0, 0] + s[2..]
    else if bit == FLOW_ENGINE_INFO then [0, s[0], 0, s[1]] + s[4..] + [0, 0, 0, 0]
    else s
  }

  function WideBody(buf: seq<u8>, fs: Fields, n: nat): (w: seq<u8>)
    requires n <= BODY_FIELDS && HEADER2 + BodyLen2(fs, n) <= |buf|
    ensures |w| == BodyLen(fs, n)
  {
    if n == 0 then [] else WideBody(buf, fs, n - 1) + (if n - 1 in fs then Widen(n - 1, Slice2(buf, fs, n - 1)) else [])
  }

  lemma SameBytes(s: seq<u8>, t: seq<u8>, i: nat, j: nat)
    ensures i + 2 <= |s| && j + 2 <= |t| && s[i..i + 2] == t[j..j + 2] ==> Get16(s, i) == Get16(t, j)
    ensures i + 4 <= |s| && j + 4 <= |t| && s[i..i + 4] == t[j..j + 4] ==> Get32(s, i) == Get32(t, j)
  {
    if i + 2 <= |s| && j + 2 <= |t| && s[i..i + 2] == t[j..j + 2] {
      assert s[i..i + 2][0] == t[j..j + 2][0] && s[i..i + 2][1] == t[j..j + 2][1];
    }
    if i + 4 <= |s| && j + 4 <= |t| && s[i..i + 4] == t[j..j + 4] {
      assert s[i] == s[i..i + 4][0] && s[i + 1] == s[i..i + 4][1] && s[i + 2] == s[i..i + 4][2] && s[i + 3] == s[i..i + 4][3];
      assert s[i] == t[j] && s[i + 1] == t[j + 1] && s[i + 2] == t[j + 2] && s[i + 3] == t[j + 3];
    }
  }

  lemma WidenPart(s: seq<u8>, i: nat)
    requires i + 4 <= |s| && s[i] == 0 && s[i + 1] == 0
    ensures Get32(s, i) == Get16(s, i + 2)
  {
  }

  /** Setting a field and converting is converting and setting the widened field. */
  lemma SetConverted(g: FlowV2, bit: nat, s: seq<u8>)
    requires bit < BODY_FIELDS && |s| == Size2(bit)
    ensures Converted(SetField2(g, bit, s)) == SetField(Converted(g), bit, Widen(bit, s))
  {
    if bit in {IF_INDICES, AS_INFO, FLOW_ENGINE_INFO} {
      SetWidened(g, bit, s);
    } else {
      hide Get16, Get32, Get64;
      var w := Widen(bit, s);
      if bit == RECV_TIME {
        SameBytes(s, w, 0, 0);
        ZeroAt(w, 4);
      }
    }
  }

  lemma SetWidened(g: FlowV2, bit: nat, s: seq<u8>)
    requires bit in {IF_INDICES, AS_INFO, FLOW_ENGINE_INFO} && |s| == Size2(bit)
    ensures Converted(SetField2(g, bit, s)) == SetField(Converted(g), bit, Widen(bit, s))
  {
    hide Get16, Get32, Get64;
    var w := Widen(bit, s);
    if bit == FLOW_ENGINE_INFO {
      SmallAt(w, 0);
      SmallAt(w, 2);
      SameBytes(s, w, 4, 4);
      ZeroAt(w, 8);
    } else {
      WidenPart(w, 0);
      WidenPart(w, 4);
      SameBytes(s, w, 0, 2);
      SameBytes(s, w, 2, 6);
      if bit == AS_INFO { SameBytes(s, w, 6, 10); }
    }
  }

  lemma ZeroAt(s: seq<u8>, i: nat)
    requires i + 4 <= |s| && s[i] == 0 && s[i + 1] == 0 && s[i + 2] == 0 && s[i + 3] == 0
    ensures Get32(s, i) == 0
  {
  }

  lemma SmallAt(s: seq<u8>, i: nat)
    requires i + 2 <= |s| && s[i] == 0
    ensures Get16(s, i) == s[i + 1]
  {
  }

  /** A version 3 buffer whose body is the widened one. */
  predicate Widened(buf: seq<u8>, fs: Fields, w: seq<u8>, n: nat)
    requires n <= BODY_FIELDS && HEADER2 + BodyLen2(fs, n) <= |buf|
  {
    HEADER + BodyLen(fs, n) <= |w| && w[HEADER..HEADER + BodyLen(fs, n)] == WideBody(buf, fs, n)
  }

  lemma WidenedLess(buf: seq<u8>, fs: Fields, w: seq<u8>, n: nat)
    requires 0 < n <= BODY_FIELDS && HEADER2 + BodyLen2(fs, n) <= |buf| && Widened(buf, fs, w, n)
    ensures Widened(buf, fs, w, n - 1)
    ensures n - 1 in fs ==> Slice(w, fs, n - 1) == Widen(n - 1, Slice2(buf, fs, n - 1))
  {
    hide Widen, Size, Size2;
    var whole := WideBody(buf, fs, n);
    var at := BodyLen(fs, n - 1);
    var part := w[HEADER..HEADER + BodyLen(fs, n)];
    assert w[HEADER..HEADER + at] == part[..at];
    assert w[HEADER + at..HEADER + BodyLen(fs, n)] == part[at..];
  }

  lemma {:induction false} ReadConverted(buf: seq<u8>, fs: Fields, w: seq<u8>, n: nat)
    requires n <= BODY_FIELDS && HEADER2 + BodyLen2(fs, n) <= |buf| && Widened(buf, fs, w, n)
    ensures Converted(ReadFields2(buf, fs, n)) == ReadFields(w, fs, n)
  {
    hide SetField, SetField2, Converted, Size, Size2, Widen;
    if n > 0 {
      WidenedLess(buf, fs, w, n);
      ReadConverted(buf, fs, w, n - 1);
      if n - 1 in fs {
        SetConverted(ReadFields2(buf, fs, n - 1), n - 1, Slice2(buf, fs, n - 1));
      }
    } else {
      BlankConverted();
    }
  }

  lemma BlankConverted()
    ensures Converted(BLANK2) == BLANK
  {
  }

  /** A record of version 2 that reads without an error can be written as one of version 3
      with the same fields, whose body is the widened body; and that record reads back as
      the converted one, with its own checksum. */
  lemma UpgradeKeeps(buf: seq<u8>)
    requires |buf| >= HEADER2 && Deserialised2(buf).Ok?
    ensures var g := Deserialised2(buf).value; var f := Converted(g); var fs := g.fields;
      && fs == FieldsOf(Get32(buf, 0)) && fs <= ALL_FIELDS && HEADER2 + BodyLen2(fs, BODY_FIELDS) <= |buf|
      && Sound(f) && Chosen(f) == fs
      && Body(f, fs, BODY_FIELDS) == WideBody(buf, fs, BODY_FIELDS)
      && Deserialised(Encoded(f, fs)) == Ok(f.(crc := if CRC32 in fs then Checksum(Covered(f, fs)) else 0))
  {
    hide ReadFields2, Deserialised2, Body, BodyLen, BodyLen2, BothForms, ALL_FIELDS, Encoded, Deserialised, Sound, Chosen, Covered, Checksum;
    hide Converted, Get32, FieldsOf, WideBody;
    var g := Deserialised2(buf).value;
    WhatReads(buf);
    UpgradeFields(buf, g.fields, g.crc);
  }

  lemma WhatReads(buf: seq<u8>)
    requires |buf| >= HEADER2 && Deserialised2(buf).Ok?
    ensures var g := Deserialised2(buf).value; var fs := g.fields;
      && fs == FieldsOf(Get32(buf, 0)) && fs <= ALL_FIELDS && !BothForms(fs) && HEADER2 + BodyLen2(fs, BODY_FIELDS) <= |buf|
      && g == ReadFields2(buf, fs, BODY_FIELDS).(fields := fs, crc := g.crc)
  {
    hide ReadFields2, BodyLen2, BothForms, ALL_FIELDS, Checksum, Get32, FieldsOf;
  }

  lemma UpgradeFields(buf: seq<u8>, fs: Fields, crc: u32)
    requires fs <= ALL_FIELDS && !BothForms(fs) && HEADER2 + BodyLen2(fs, BODY_FIELDS) <= |buf|
    ensures var f := Converted(ReadFields2(buf, fs, BODY_FIELDS).(fields := fs, crc := crc));
      && Sound(f) && Chosen(f) == fs
      && Body(f, fs, BODY_FIELDS) == WideBody(buf, fs, BODY_FIELDS)
      && Deserialised(Encoded(f, fs)) == Ok(f.(crc := if CRC32 in fs then Checksum(Covered(f, fs)) else 0))
  {
    hide ReadFields2, ReadFields, Body, BodyLen, BodyLen2, BothForms, ALL_FIELDS, Encoded, Deserialised, Sound, Chosen, Covered, Checksum;
    hide Converted, WideBody;
    var w := [0, 0, 0, 0, 0, 0, 0, 0] + WideBody(buf, fs, BODY_FIELDS);
    assert w[HEADER..HEADER + BodyLen(fs, BODY_FIELDS)] == WideBody(buf, fs, BODY_FIELDS);
    ReadConverted(buf, fs, w, BODY_FIELDS);
    FieldsWriteBack(w, fs, crc);
    ConvertedSame(ReadFields2(buf, fs, BODY_FIELDS), fs, crc);
  }

  lemma ConvertedSame(g: FlowV2, fs: Fields, crc: u32)
    ensures Converted(g.(fields := fs, crc := crc)) == Converted(g).(fields := fs, crc := crc)
  {
  }
}
