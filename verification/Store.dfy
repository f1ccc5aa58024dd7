/** Flow records of the log (flowd/store.c, version 3): a header, the selected fields in
    the order of their bits, and a checksum. */
module Store {
  import opened Addr
  import AddrMatch
  import opened Bits
  import opened Bytes
  import Crc32
  import opened FlowRecord

  const VERSION_MAJOR := 3
  const VERSION_MINOR := 0
  const HEADER := 8
  const BODY_FIELDS := 19
  const ALL_FIELDS: Fields := (set b: nat | b < 19) + {CRC32}

  datatype StoreError =
    | Eof | UnsupVersion | BufferSize | FlowInvalid | CrcMismatch | Internal | Io | IoSeek | Corrupt
    | Other  // -1

  /** Fault stands for a read or write outside the caller's buffer, and for writing an
      address that was never set. */
  datatype StoreResult<+T> = Ok(value: T) | Err(error: StoreError) | Fault

  // ----- The field word -----

  /** The bits from the k-th on, as a number. */
  function WordFrom(f: Fields, k: nat): (w: nat)
    requires k <= 32
    ensures w < Pow2(32 - k)
    decreases 32 - k
  {
    if k == 32 then 0 else (if k in f then 1 else 0) + 2 * WordFrom(f, k + 1)
  }

  function FieldsFrom(w: nat, k: nat): (f: Fields)
    requires k <= 32
    ensures forall b <- f :: b >= k
    decreases 32 - k
  {
    if k == 32 then {} else (if w % 2 == 1 then {k} else {}) + FieldsFrom(w / 2, k + 1)
  }

  function FieldWord(f: Fields): u32 {
    Pow2At32(); WordFrom(f, 0)
  }

  function FieldsOf(w: u32): Fields {
    FieldsFrom(w, 0)
  }

  lemma {:induction false} FieldsWordFrom(f: Fields, k: nat)
    requires k <= 32
    ensures FieldsFrom(WordFrom(f, k), k) == set b | b in f && b >= k
    decreases 32 - k
  {
    if k < 32 {
      FieldsWordFrom(f, k + 1);
      assert WordFrom(f, k) / 2 == WordFrom(f, k + 1);
    }
  }

  /** The field word keeps the set of fields, and back. */
  lemma FieldsWord(f: Fields)
    ensures FieldsOf(FieldWord(f)) == f
  {
    FieldsWordFrom(f, 0);
  }

  lemma {:induction false} WordFieldsFrom(w: nat, k: nat)
    requires k <= 32 && w < Pow2(32 - k)
    ensures WordFrom(FieldsFrom(w, k), k) == w
    decreases 32 - k
  {
    if k < 32 {
      var rest := FieldsFrom(w / 2, k + 1);
      WordFieldsFrom(w / 2, k + 1);
      WordAbove(FieldsFrom(w, k), rest, k + 1);
    }
  }

  lemma {:induction false} WordAbove(f: Fields, g: Fields, k: nat)
    requires k <= 32 && forall b :: k <= b < 32 ==> (b in f <==> b in g)
    ensures WordFrom(f, k) == WordFrom(g, k)
    decreases 32 - k
  {
    if k < 32 { WordAbove(f, g, k + 1); }
  }

  lemma WordFields(w: u32)
    ensures FieldWord(FieldsOf(w)) == w
  {
    Pow2At32();
    WordFieldsFrom(w, 0);
  }

  // ----- The fields of a record -----

  function Size(bit: nat): nat {
    if bit in {AGENT_ADDR6, SRC_ADDR6, DST_ADDR6, GATEWAY_ADDR6, AGENT_INFO} then 16
    else if bit in {AS_INFO, FLOW_ENGINE_INFO} then 12
    else if bit in {RECV_TIME, PACKETS, OCTETS, IF_INDICES, FLOW_TIMES} then 8
    else 4
  }

  /** The memory of a field. */
  function FieldBytes(f: StoreFlow, bit: nat): (s: seq<u8>)
    requires bit < BODY_FIELDS
    ensures |s| == Size(bit)
  {
    if bit == TAG then Put32(f.tag)
    else if bit == RECV_TIME then Put32(f.recvSec) + Put32(f.recvUsec)
    else if bit == PROTO_FLAGS_TOS then [f.tcpFlags, f.protocol, f.tos, f.pftPad]
    else if bit == AGENT_ADDR4 then f.agent.bytes[..4]
    else if bit == AGENT_ADDR6 then f.agent.bytes
    else if bit == SRC_ADDR4 then f.src.bytes[..4]
    else if bit == SRC_ADDR6 then f.src.bytes
    else if bit == DST_ADDR4 then f.dst.bytes[..4]
    else if bit == DST_ADDR6 then f.dst.bytes
    else if bit == GATEWAY_ADDR4 then f.gateway.bytes[..4]
    else if bit == GATEWAY_ADDR6 then f.gateway.bytes
    else if bit == SRCDST_PORT then Put16(f.srcPort) + Put16(f.dstPort)
    else if bit == PACKETS then Put64(f.packets)
    else if bit == OCTETS then Put64(f.octets)
    else if bit == IF_INDICES then Put32(f.ifIn) + Put32(f.ifOut)
    else if bit == AGENT_INFO then Put32(f.sysUptimeMs) + Put32(f.timeSec) + Put32(f.timeNanosec) + Put16(f.netflowVersion) + Put16(f.agentPad)
    else if bit == FLOW_TIMES then Put32(f.flowStart) + Put32(f.flowFinish)
    else if bit == AS_INFO then Put32(f.srcAs) + Put32(f.dstAs) + [f.srcMask, f.dstMask] + Put16(f.asPad)
    else Put16(f.engineType) + Put16(f.engineId) + Put32(f.flowSequence) + Put32(f.sourceId)
  }

  function Ip4(s: seq<u8>): Raw
    requires |s| == 4
  {
    RawAddr(AddrMatch.Inet, s + ZERO16[4..], 0)
  }

  function Ip6(s: seq<u8>): Raw
    requires |s| == 16
  {
    RawAddr(AddrMatch.Inet6, s, 0)
  }

  /** A field's memory read back. */
  function SetField(f: StoreFlow, bit: nat, s: seq<u8>): StoreFlow
    requires bit < BODY_FIELDS && |s| == Size(bit)
  {
    if bit == TAG then f.(tag := Get32(s, 0))
    else if bit == RECV_TIME then f.(recvSec := Get32(s, 0), recvUsec := Get32(s, 4))
    else if bit == PROTO_FLAGS_TOS then f.(tcpFlags := s[0], protocol := s[1], tos := s[2], pftPad := s[3])
    else if bit == AGENT_ADDR4 then f.(agent := Ip4(s))
    else if bit == AGENT_ADDR6 then f.(agent := Ip6(s))
    else if bit == SRC_ADDR4 then f.(src := Ip4(s))
    else if bit == SRC_ADDR6 then f.(src := Ip6(s))
    else if bit == DST_ADDR4 then f.(dst := Ip4(s))
    else if bit == DST_ADDR6 then f.(dst := Ip6(s))
    else if bit == GATEWAY_ADDR4 then f.(gateway := Ip4(s))
    else if bit == GATEWAY_ADDR6 then f.(gateway := Ip6(s))
    else if bit == SRCDST_PORT then f.(srcPort := Get16(s, 0), dstPort := Get16(s, 2))
    else if bit == PACKETS then f.(packets := Get64(s, 0))
    else if bit == OCTETS then f.(octets := Get64(s, 0))
    else if bit == IF_INDICES then f.(ifIn := Get32(s, 0), ifOut := Get32(s, 4))
    else if bit == AGENT_INFO then
      f.(sysUptimeMs := Get32(s, 0), timeSec := Get32(s, 4), timeNanosec := Get32(s, 8),
         netflowVersion := Get16(s, 12), agentPad := Get16(s, 14))
    else if bit == FLOW_TIMES then f.(flowStart := Get32(s, 0), flowFinish := Get32(s, 4))
    else if bit == AS_INFO then
      f.(srcAs := Get32(s, 0), dstAs := Get32(s, 4), srcMask := s[8], dstMask := s[9], asPad := Get16(s, 10))
    else f.(engineType := Get16(s, 0), engineId := Get16(s, 2), flowSequence := Get32(s, 4), sourceId := Get32(s, 8))
  }

  /** The length of the fields below the n-th, store_calc_flow_len of them. */
  function BodyLen(fs: Fields, n: nat): nat {
    if n == 0 then 0 else BodyLen(fs, n - 1) + (if n - 1 in fs then Size(n - 1) else 0)
  }

  function Body(f: StoreFlow, fs: Fields, n: nat): (s: seq<u8>)
    requires n <= BODY_FIELDS
    ensures |s| == BodyLen(fs, n)
  {
    if n == 0 then [] else Body(f, fs, n - 1) + (if n - 1 in fs then FieldBytes(f, n - 1) else [])
  }

  /** store_calc_flow_len; -1 for a field that it does not know. */
  function CalcFlowLen(fs: Fields): int {
    if fs <= ALL_FIELDS then BodyLen(fs, BODY_FIELDS) + (if CRC32 in fs then 4 else 0) else -1
  }

  lemma {:induction false} BodyLenBound(fs: Fields, n: nat)
    ensures BodyLen(fs, n) % 4 == 0 && BodyLen(fs, n) <= 16 * n
  {
    if n > 0 { BodyLenBound(fs, n - 1); }
  }

  /** Every record's length is a multiple of four and fits len_words. */
  lemma LengthFits(fs: Fields)
    requires fs <= ALL_FIELDS
    ensures CalcFlowLen(fs) % 4 == 0 && 0 <= CalcFlowLen(fs) / 4 < 256
  {
    BodyLenBound(fs, BODY_FIELDS);
  }

  // ----- Writing -----

  /** The switch over an address's family: which of the two address flags stay. */
  function Resolve(fs: Fields, af: AddrMatch.Family, four: nat, six: nat): StoreResult<Fields>
  {
    match af
    case Inet => if four in fs then Ok(fs - {six}) else Ok(fs)
    case Inet6 => if six in fs then Ok(fs - {four}) else Ok(fs)
    case OtherFamily => if four in fs || six in fs then Err(FlowInvalid) else Ok(fs)
  }

  function ResolveAll(f: StoreFlow, fs: Fields): StoreResult<Fields> {
    match Resolve(fs, f.agent.af, AGENT_ADDR4, AGENT_ADDR6)
    case Fault => Fault
    case Err(e) => Err(e)
    case Ok(fs1) =>
      match Resolve(fs1, f.src.af, SRC_ADDR4, SRC_ADDR6)
      case Fault => Fault
      case Err(e) => Err(e)
      case Ok(fs2) =>
        match Resolve(fs2, f.dst.af, DST_ADDR4, DST_ADDR6)
        case Fault => Fault
        case Err(e) => Err(e)
        case Ok(fs3) => Resolve(fs3, f.gateway.af, GATEWAY_ADDR4, GATEWAY_ADDR6)
  }

  /** Whether a flag is left for an address form that the record's address does not have. */
  predicate Unset(fs: Fields, af: AddrMatch.Family, four: nat, six: nat) {
    (four in fs && !af.Inet?) || (six in fs && !af.Inet6?)
  }

  predicate AnyUnset(f: StoreFlow, fs: Fields) {
    || Unset(fs, f.agent.af, AGENT_ADDR4, AGENT_ADDR6) || Unset(fs, f.src.af, SRC_ADDR4, SRC_ADDR6)
    || Unset(fs, f.dst.af, DST_ADDR4, DST_ADDR6) || Unset(fs, f.gateway.af, GATEWAY_ADDR4, GATEWAY_ADDR6)
  }

  function Header(fs: Fields, len: nat): (s: seq<u8>)
    requires len < 0x400
    ensures |s| == HEADER
  {
    [VERSION_MAJOR * 32 + VERSION_MINOR, len / 4, 0, 0] + Put32(FieldWord(fs))
  }

  /** What the checksum covers. */
  function Covered(f: StoreFlow, fs: Fields): (s: seq<u8>)
    requires fs <= ALL_FIELDS
    ensures |s| == HEADER + BodyLen(fs, BODY_FIELDS)
  {
    LengthFits(fs);
    Header(fs, CalcFlowLen(fs)) + Body(f, fs, BODY_FIELDS)
  }

  function Checksum(s: seq<u8>): u32 {
    Pow2At32(); Crc32.Checksum(s)
  }

  function Encoded(f: StoreFlow, fs: Fields): (s: seq<u8>)
    requires fs <= ALL_FIELDS
    ensures |s| == HEADER + CalcFlowLen(fs)
  {
    var c := Covered(f, fs);
    c + if CRC32 in fs then Put32(Checksum(c)) else []
  }

  /** store_flow_serialise, with the fields that it sets in the header. The three tests of
      the length stand in the program's order. */
  function Serialised(f: StoreFlow, buflen: nat): StoreResult<(Fields, seq<u8>)> {
    match ResolveAll(f, f.fields)
    case Fault => Fault
    case Err(e) => Err(e)
    case Ok(fs) =>
      var len := CalcFlowLen(fs);
      if len % 4 != 0 then Err(Internal)
      else if len > buflen then Err(BufferSize)
      else if len == -1 then Err(FlowInvalid)
      else if HEADER + len > buflen || AnyUnset(f, fs) then Fault
      else Ok((fs, Encoded(f, fs)))
  }

  // ----- Reading -----

  /** The fields below the n-th. */
  function ReadFields(buf: seq<u8>, fs: Fields, n: nat): StoreFlow
    requires n <= BODY_FIELDS && HEADER + BodyLen(fs, n) <= |buf|
  {
    if n == 0 then BLANK
    else
      var g := ReadFields(buf, fs, n - 1);
      if n - 1 in fs then SetField(g, n - 1, buf[HEADER + BodyLen(fs, n - 1)..HEADER + BodyLen(fs, n)]) else g
  }

  predicate BothForms(fs: Fields) {
    || (AGENT_ADDR4 in fs && AGENT_ADDR6 in fs) || (SRC_ADDR4 in fs && SRC_ADDR6 in fs)
    || (DST_ADDR4 in fs && DST_ADDR6 in fs) || (GATEWAY_ADDR4 in fs && GATEWAY_ADDR6 in fs)
  }

  /** The field word, and the version, of a header. */
  function HeaderFields(buf: seq<u8>): Fields
    requires |buf| >= HEADER
  {
    FieldsOf(Get32(buf, 4))
  }

  function LenWords(buf: seq<u8>): nat
    requires |buf| >= HEADER
  {
    buf[1]
  }

  function Major(buf: seq<u8>): nat
    requires |buf| >= HEADER
  {
    buf[0] / 32
  }

  function Minor(buf: seq<u8>): nat
    requires |buf| >= HEADER
  {
    buf[0] % 32
  }

  /** The end of store_flow_deserialise, once the fields up to end are read: the checksum
      at the given place, and the two checks. */
  function Checked(buf: seq<u8>, f: StoreFlow, fs: Fields, end: nat, at: nat): StoreResult<StoreFlow>
    requires end <= |buf|
  {
    if CRC32 in fs && at + 4 > |buf| then Fault
    else if BothForms(fs) then Err(Other)
    else if CRC32 !in fs then Ok(f)
    else if Checksum(buf[..end]) != Get32(buf, at) then Err(CrcMismatch)
    else Ok(f.(crc := Get32(buf, at)))
  }

  /** store_flow_deserialise after its checks of the header. */
  function ReadRecord(buf: seq<u8>, fields: Fields, mayExtend: bool): StoreResult<StoreFlow>
    requires |buf| >= HEADER
  {
    var end := HEADER + BodyLen(fields, BODY_FIELDS);
    if end > |buf| then Fault
    else
      var f := ReadFields(buf, fields, BODY_FIELDS).(fields := fields);
      if fields <= ALL_FIELDS then Checked(buf, f, fields, end, end)
      else if !mayExtend then Err(Other)
      else Checked(buf, f, fields * ALL_FIELDS, end, LenWords(buf) * 4 + HEADER - 4)
  }

  /** store_flow_deserialise. */
  function Deserialised(buf: seq<u8>): StoreResult<StoreFlow> {
    if |buf| < HEADER then Err(BufferSize)
    else if Major(buf) != VERSION_MAJOR then Err(UnsupVersion)
    else if |buf| - HEADER < LenWords(buf) * 4 then Err(BufferSize)
    else ReadRecord(buf, HeaderFields(buf), Minor(buf) > VERSION_MINOR)
  }

  // ----- The methods -----

  /** store_flow_serialise. Only the checksum of the record changes for good. A record that
      would be written beyond the buffer, or from an address that was never copied, is
      answered with Fault before anything is written. */
  method Serialise(f: StoreFlow, buf: array<u8>) returns (r: StoreResult<nat>, f': StoreFlow)
    modifies buf
    ensures Serialised(f, buf.Length).Fault? ==> r == Fault && buf[..] == old(buf[..]) && f' == f
    ensures Serialised(f, buf.Length).Err? ==>
      r == Err(Serialised(f, buf.Length).error) && buf[..] == old(buf[..]) && f' == f.(fields := f'.fields)
    ensures Serialised(f, buf.Length).Ok? ==>
      var (fs, bytes) := Serialised(f, buf.Length).value;
      && r == Ok(|bytes|) && |bytes| <= buf.Length && buf[..|bytes|] == bytes
      && f' == f.(fields := fs, crc := if CRC32 in fs then Checksum(Covered(f, fs)) else f.crc)
  {
    hide Encoded, Covered, CalcFlowLen, ResolveAll;
    f' := f;
    var resolved := ResolveAll(f, f.fields);
    NoFault(f);
    if resolved.Err? {
      return Err(resolved.error), f';
    }
    var fs := resolved.value;
    var len := CalcFlowLen(fs);
    KnownLength(fs);
    r := Fault;
    if len % 4 != 0 {
      r := Err(Internal);
    } else if len > buf.Length {
      r := Err(BufferSize);
    } else if len == -1 {
      r := Err(FlowInvalid);
    } else if HEADER + len <= buf.Length && !AnyUnset(f, fs) {
      r, f' := WriteRecord(f, fs, len, buf);
    }
  }

  lemma NoFault(f: StoreFlow)
    ensures !ResolveAll(f, f.fields).Fault?
  {
  }

  lemma KnownLength(fs: Fields)
    ensures CalcFlowLen(fs) == -1 <==> !(fs <= ALL_FIELDS)
    ensures CalcFlowLen(fs) >= -1
  {
  }

  method WriteRecord(f: StoreFlow, fs: Fields, len: nat, buf: array<u8>) returns (r: StoreResult<nat>, f': StoreFlow)
    requires fs <= ALL_FIELDS && len == CalcFlowLen(fs) && HEADER + len <= buf.Length
    modifies buf
    ensures r == Ok(HEADER + len) && buf[..HEADER + len] == Encoded(f, fs)
    ensures f' == f.(fields := fs, crc := if CRC32 in fs then Checksum(Covered(f, fs)) else f.crc)
  {
    hide Body, Crc32.Crc, Header, Put32;
    f' := f.(fields := fs);
    var offset, crc := WriteBody(f, fs, len, buf);
    ghost var covered := Covered(f, fs);
    if CRC32 in fs {
      Pow2At32();
      f' := f'.(crc := Crc32.Value(crc, 32));
      Copy(buf, offset, Put32(f'.crc));
      assert buf[..offset + 4] == buf[..offset] + buf[offset..offset + 4];
      offset := offset + 4;
    } else {
      assert Encoded(f, fs) == covered;
    }
    r := Ok(offset);
  }

  method WriteBody(f: StoreFlow, fs: Fields, len: nat, buf: array<u8>) returns (offset: nat, crc: bv32)
    requires fs <= ALL_FIELDS && len == CalcFlowLen(fs) && HEADER + len <= buf.Length
    modifies buf
    ensures offset == HEADER + BodyLen(fs, BODY_FIELDS) && buf[..offset] == Covered(f, fs)
    ensures crc == Crc32.Crc(0, Covered(f, fs))
  {
    hide FieldBytes, Crc32.Crc, Header, Size;
    LengthFits(fs);
    var header := Header(fs, len);
    offset := 0;
    crc := Crc32.Start();
    crc := WriteField(buf, offset, header, crc);
    offset := HEADER;
    for bit := 0 to BODY_FIELDS
      invariant offset == HEADER + BodyLen(fs, bit)
      invariant offset <= buf.Length && buf[..offset] == header + Body(f, fs, bit)
      invariant crc == Crc32.Crc(0, buf[..offset])
    {
      BodyNext(f, fs, bit);
      if bit in fs {
        crc := WriteField(buf, offset, FieldBytes(f, bit), crc);
        offset := offset + Size(bit);
      }
    }
  }

  lemma BodyNext(f: StoreFlow, fs: Fields, bit: nat)
    requires bit < BODY_FIELDS
    ensures Body(f, fs, bit + 1) == Body(f, fs, bit) + (if bit in fs then FieldBytes(f, bit) else [])
    ensures BodyLen(fs, bit + 1) == BodyLen(fs, bit) + (if bit in fs then Size(bit) else 0) <= BodyLen(fs, BODY_FIELDS)
  {
    hide FieldBytes;
    BodyLenMonotone(fs, bit + 1, BODY_FIELDS);
  }

  lemma {:induction false} BodyLenMonotone(fs: Fields, m: nat, n: nat)
    requires m <= n
    ensures BodyLen(fs, m) <= BodyLen(fs, n)
  {
    if m < n { BodyLenMonotone(fs, m, n - 1); }
  }

  /** The macro WFIELD on a field that is present. */
  method WriteField(buf: array<u8>, offset: nat, data: seq<u8>, crc0: bv32) returns (crc: bv32)
    requires offset + |data| <= buf.Length && crc0 == Crc32.Crc(0, buf[..offset])
    modifies buf
    ensures buf[..offset + |data|] == old(buf[..offset]) + data
    ensures crc == Crc32.Crc(0, buf[..offset + |data|])
  {
    hide Crc32.Crc;
    ghost var was := buf[..offset];
    Copy(buf, offset, data);
    crc := Crc32.Update(data, crc0);
    assert buf[..offset + |data|] == buf[..offset] + buf[offset..offset + |data|];
    Crc32.CrcConcat(0, was, data);
  }

  /** store_flow_serialise_masked: the caller's field word comes back as it was. */
  method SerialiseMasked(f: StoreFlow, mask: Fields, buf: array<u8>) returns (r: StoreResult<nat>, f': StoreFlow)
    modifies buf
    ensures Serialised(f.(fields := f.fields * mask), buf.Length).Fault? ==> r == Fault && buf[..] == old(buf[..]) && f' == f
    ensures f' == f.(crc := f'.crc)
    ensures Serialised(f.(fields := f.fields * mask), buf.Length).Err? ==>
      r == Err(Serialised(f.(fields := f.fields * mask), buf.Length).error) && buf[..] == old(buf[..]) && f' == f
    ensures Serialised(f.(fields := f.fields * mask), buf.Length).Ok? ==>
      var (fs, bytes) := Serialised(f.(fields := f.fields * mask), buf.Length).value;
      && r == Ok(|bytes|) && |bytes| <= buf.Length && buf[..|bytes|] == bytes
      && f'.crc == if CRC32 in fs then Checksum(bytes[..|bytes| - 4]) else f.crc
  {
    hide Serialised, Covered, Checksum, Encoded, Put32;
    var g := f.(fields := f.fields * mask);
    SerialisedIs(g, buf.Length);
    r, f' := Serialise(g, buf);
    f' := f'.(fields := f.fields);
  }

  lemma SerialisedIs(f: StoreFlow, buflen: nat)
    ensures Serialised(f, buflen).Ok? ==>
      var (fs, bytes) := Serialised(f, buflen).value;
      && fs <= ALL_FIELDS && bytes == Encoded(f, fs)
      && (CRC32 in fs ==> |bytes| >= 4 && bytes[..|bytes| - 4] == Covered(f, fs))
  {
    hide Covered, Checksum, ResolveAll;
    if Serialised(f, buflen).Ok? { KnownLength(Serialised(f, buflen).value.0); }
  }

  /** store_flow_deserialise. Before a read beyond the buffer the answer is Fault. */
  method Deserialise(buf: seq<u8>) returns (r: StoreResult<StoreFlow>)
    ensures r == Deserialised(buf)
  {
    if |buf| < HEADER {
      return Err(BufferSize);
    }
    hide ReadRecord, Major, Minor, LenWords, HeaderFields;
    if Major(buf) != VERSION_MAJOR {
      return Err(UnsupVersion);
    }
    if |buf| - HEADER < LenWords(buf) * 4 {
      return Err(BufferSize);
    }
    r := ReadAndCheck(buf, HeaderFields(buf), Minor(buf) > VERSION_MINOR);
  }

  method ReadAndCheck(buf: seq<u8>, fields: Fields, mayExtend: bool) returns (r: StoreResult<StoreFlow>)
    requires |buf| >= HEADER
    ensures r == ReadRecord(buf, fields, mayExtend)
  {
    hide Checked, ReadFields, BodyLen, ALL_FIELDS, Crc32.Crc;
    if HEADER + BodyLen(fields, BODY_FIELDS) > |buf| {
      return Fault;
    }
    var f, offset, crc := ReadBody(buf, fields);
    f := f.(fields := fields);
    if fields <= ALL_FIELDS {
      r := Check(buf, f, fields, offset, offset, crc);
    } else {
      if !mayExtend {
        return Err(Other);
      }
      r := Check(buf, f, fields * ALL_FIELDS, offset, LenWords(buf) * 4 + HEADER - 4, crc);
    }
  }

  /** RFIELD for each field that the header names. */
  method ReadBody(buf: seq<u8>, fields: Fields) returns (f: StoreFlow, offset: nat, crc: bv32)
    requires HEADER + BodyLen(fields, BODY_FIELDS) <= |buf|
    ensures f == ReadFields(buf, fields, BODY_FIELDS)
    ensures offset == HEADER + BodyLen(fields, BODY_FIELDS) && crc == Crc32.Crc(0, buf[..offset])
  {
    hide SetField, Crc32.Crc, Size;
    f, offset := BLANK, HEADER;
    crc := Crc32.Start();
    crc := Crc32.Update(buf[..HEADER], crc);
    for bit := 0 to BODY_FIELDS
      invariant offset == HEADER + BodyLen(fields, bit)
      invariant offset <= |buf| && f == ReadFields(buf, fields, bit)
      invariant crc == Crc32.Crc(0, buf[..offset])
    {
      BodyNext(BLANK, fields, bit);
      if bit in fields {
        var data := buf[offset..offset + Size(bit)];
        f := SetField(f, bit, data);
        crc := Crc32.Update(data, crc);
        Crc32.CrcConcat(0, buf[..offset], data);
        assert buf[..offset + Size(bit)] == buf[..offset] + data;
        offset := offset + Size(bit);
      }
    }
  }

  method Check(buf: seq<u8>, f: StoreFlow, fs: Fields, ghost end: nat, at: nat, crc: bv32) returns (r: StoreResult<StoreFlow>)
    requires end <= |buf| && crc == Crc32.Crc(0, buf[..end])
    ensures r == Checked(buf, f, fs, end, at)
  {
    hide Crc32.Crc, Crc32.Value, Get32, BothForms;
    if CRC32 in fs && at + 4 > |buf| {
      return Fault;
    }
    if BothForms(fs) {
      return Err(Other);
    }
    if CRC32 !in fs {
      return Ok(f);
    }
    var stored := Get32(buf, at);
    if Crc32.Value(crc, 32) != stored {
      return Err(CrcMismatch);
    }
    r := Ok(f.(crc := stored));
  }

  // ----- When a record can be written -----

  /** An address's flags include the one for its family, or neither is set. */
  predicate SoundAddr(fs: Fields, af: AddrMatch.Family, four: nat, six: nat) {
    match af
    case Inet => four in fs || six !in fs
    case Inet6 => six in fs || four !in fs
    case OtherFamily => four !in fs && six !in fs
  }

  predicate Sound(f: StoreFlow) {
    && SoundAddr(f.fields, f.agent.af, AGENT_ADDR4, AGENT_ADDR6) && SoundAddr(f.fields, f.src.af, SRC_ADDR4, SRC_ADDR6)
    && SoundAddr(f.fields, f.dst.af, DST_ADDR4, DST_ADDR6) && SoundAddr(f.fields, f.gateway.af, GATEWAY_ADDR4, GATEWAY_ADDR6)
    && f.fields <= ALL_FIELDS
  }

  function Without(fs: Fields, af: AddrMatch.Family, four: nat, six: nat): Fields {
    fs - match af case Inet => {six} case Inet6 => {four} case OtherFamily => {}
  }

  /** The fields of a sound record as stored: one form of each address. */
  function Chosen(f: StoreFlow): Fields {
    Without(Without(Without(Without(f.fields, f.agent.af, AGENT_ADDR4, AGENT_ADDR6), f.src.af, SRC_ADDR4, SRC_ADDR6),
                    f.dst.af, DST_ADDR4, DST_ADDR6), f.gateway.af, GATEWAY_ADDR4, GATEWAY_ADDR6)
  }

  /** An address of no known family with a flag. */
  predicate OtherFlagged(fs: Fields, af: AddrMatch.Family, four: nat, six: nat) {
    af.OtherFamily? && (four in fs || six in fs)
  }

  predicate AnyOther(f: StoreFlow) {
    || OtherFlagged(f.fields, f.agent.af, AGENT_ADDR4, AGENT_ADDR6) || OtherFlagged(f.fields, f.src.af, SRC_ADDR4, SRC_ADDR6)
    || OtherFlagged(f.fields, f.dst.af, DST_ADDR4, DST_ADDR6) || OtherFlagged(f.fields, f.gateway.af, GATEWAY_ADDR4, GATEWAY_ADDR6)
  }

  /** An address flagged only in the form that its family does not name. */
  predicate WrongForm(fs: Fields, af: AddrMatch.Family, four: nat, six: nat) {
    (af.Inet? && six in fs && four !in fs) || (af.Inet6? && four in fs && six !in fs)
  }

  predicate AnyWrong(f: StoreFlow) {
    || WrongForm(f.fields, f.agent.af, AGENT_ADDR4, AGENT_ADDR6) || WrongForm(f.fields, f.src.af, SRC_ADDR4, SRC_ADDR6)
    || WrongForm(f.fields, f.dst.af, DST_ADDR4, DST_ADDR6) || WrongForm(f.fields, f.gateway.af, GATEWAY_ADDR4, GATEWAY_ADDR6)
  }

  /** The flag of the other form, when an address is flagged in both. */
  function Spare(fs: Fields, af: AddrMatch.Family, four: nat, six: nat): set<nat> {
    if af.Inet? && four in fs then {six} else if af.Inet6? && six in fs then {four} else {}
  }

  /** The flags that are left in the header. */
  function Left(f: StoreFlow): Fields {
    f.fields - Spare(f.fields, f.agent.af, AGENT_ADDR4, AGENT_ADDR6) - Spare(f.fields, f.src.af, SRC_ADDR4, SRC_ADDR6)
    - Spare(f.fields, f.dst.af, DST_ADDR4, DST_ADDR6) - Spare(f.fields, f.gateway.af, GATEWAY_ADDR4, GATEWAY_ADDR6)
  }

  lemma ResolveIs(fs: Fields, af: AddrMatch.Family, four: nat, six: nat)
    requires four != six
    ensures var r := Resolve(fs, af, four, six);
      && !r.Fault?
      && (SoundAddr(fs, af, four, six) ==> r == Ok(Without(fs, af, four, six)) && !Unset(Without(fs, af, four, six), af, four, six))
      && (SoundAddr(fs, af, four, six) ==> four !in Without(fs, af, four, six) || six !in Without(fs, af, four, six))
      && (!SoundAddr(fs, af, four, six) ==> r.Err? || (r.Ok? && Unset(r.value, af, four, six)))
  {
    assert fs - {} == fs && (six !in fs ==> fs - {six} == fs) && (four !in fs ==> fs - {four} == fs);
  }
}
