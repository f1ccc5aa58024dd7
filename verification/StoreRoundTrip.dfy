/** Records written to the log and read back (flowd/store.c). */
module StoreRoundTrip {
  import Addr
  import AddrMatch
  import opened Bits
  import opened Bytes
  import Crc32
  import opened FlowRecord
  import opened Store

  // ----- When a record can be written -----

  lemma ResolvesSound(f: StoreFlow)
    ensures Sound(f) ==> ResolveAll(f, f.fields) == Ok(Chosen(f)) && !AnyUnset(f, Chosen(f)) && !BothForms(Chosen(f))
    ensures Sound(f) ==> Chosen(f) <= ALL_FIELDS
  {
    hide Resolve, SoundAddr, ALL_FIELDS;
    if Sound(f) {
      var fs := f.fields;
      var fs1 := Without(fs, f.agent.af, AGENT_ADDR4, AGENT_ADDR6);
      var fs2 := Without(fs1, f.src.af, SRC_ADDR4, SRC_ADDR6);
      var fs3 := Without(fs2, f.dst.af, DST_ADDR4, DST_ADDR6);
      ResolveIs(fs, f.agent.af, AGENT_ADDR4, AGENT_ADDR6);
      Unrelated(fs, fs1, f.src.af, SRC_ADDR4, SRC_ADDR6);
      ResolveIs(fs1, f.src.af, SRC_ADDR4, SRC_ADDR6);
      Unrelated(fs, fs2, f.dst.af, DST_ADDR4, DST_ADDR6);
      ResolveIs(fs2, f.dst.af, DST_ADDR4, DST_ADDR6);
      Unrelated(fs, fs3, f.gateway.af, GATEWAY_ADDR4, GATEWAY_ADDR6);
      ResolveIs(fs3, f.gateway.af, GATEWAY_ADDR4, GATEWAY_ADDR6);
    }
  }

  lemma Unrelated(fs: Fields, fs': Fields, af: AddrMatch.Family, four: nat, six: nat)
    requires (four in fs <==> four in fs') && (six in fs <==> six in fs')
    ensures SoundAddr(fs, af, four, six) <==> SoundAddr(fs', af, four, six)
  {
  }

  lemma ResolveChanges(fs: Fields, af: AddrMatch.Family, four: nat, six: nat)
    requires four != six && Resolve(fs, af, four, six).Ok?
    ensures var r := Resolve(fs, af, four, six).value;
      && (forall b :: b != four && b != six ==> (b in r <==> b in fs))
      && (!Unset(r, af, four, six) ==> SoundAddr(fs, af, four, six))
  {
  }

  lemma UnsetSame(fs: Fields, fs': Fields, af: AddrMatch.Family, four: nat, six: nat)
    requires (four in fs <==> four in fs') && (six in fs <==> six in fs')
    ensures Unset(fs, af, four, six) <==> Unset(fs', af, four, six)
  {
  }

  lemma OnlySoundResolve(f: StoreFlow)
    requires ResolveAll(f, f.fields).Ok? && !AnyUnset(f, ResolveAll(f, f.fields).value)
    requires ResolveAll(f, f.fields).value <= ALL_FIELDS
    ensures Sound(f)
  {
    hide Resolve, SoundAddr, Unset;
    var fs := f.fields;
    ResolveChanges(fs, f.agent.af, AGENT_ADDR4, AGENT_ADDR6);
    var fs1 := Resolve(fs, f.agent.af, AGENT_ADDR4, AGENT_ADDR6).value;
    ResolveChanges(fs1, f.src.af, SRC_ADDR4, SRC_ADDR6);
    var fs2 := Resolve(fs1, f.src.af, SRC_ADDR4, SRC_ADDR6).value;
    ResolveChanges(fs2, f.dst.af, DST_ADDR4, DST_ADDR6);
    var fs3 := Resolve(fs2, f.dst.af, DST_ADDR4, DST_ADDR6).value;
    ResolveChanges(fs3, f.gateway.af, GATEWAY_ADDR4, GATEWAY_ADDR6);
    var fs4 := Resolve(fs3, f.gateway.af, GATEWAY_ADDR4, GATEWAY_ADDR6).value;
    UnsetSame(fs1, fs4, f.agent.af, AGENT_ADDR4, AGENT_ADDR6);
    UnsetSame(fs2, fs4, f.src.af, SRC_ADDR4, SRC_ADDR6);
    UnsetSame(fs3, fs4, f.dst.af, DST_ADDR4, DST_ADDR6);
    Unrelated(fs, fs1, f.src.af, SRC_ADDR4, SRC_ADDR6);
    Unrelated(fs, fs2, f.dst.af, DST_ADDR4, DST_ADDR6);
    Unrelated(fs, fs3, f.gateway.af, GATEWAY_ADDR4, GATEWAY_ADDR6);
    forall b | b in fs ensures b in ALL_FIELDS {
      if b >= 11 { assert b in fs1 && b in fs2 && b in fs3 && b in fs4; }
    }
  }

  /** A record is written exactly when its address flags are sound, its fields known, and
      the buffer holds header and body. */
  lemma WritableExactly(f: StoreFlow, buflen: nat)
    ensures Serialised(f, buflen).Ok? <==> Sound(f) && HEADER + CalcFlowLen(Chosen(f)) <= buflen
    ensures Serialised(f, buflen).Ok? ==> Chosen(f) <= ALL_FIELDS && Serialised(f, buflen).value == (Chosen(f), Encoded(f, Chosen(f)))
  {
    hide Encoded, Sound, ResolveAll, AnyUnset, Chosen, BothForms, CalcFlowLen, ALL_FIELDS;
    ResolvesSound(f);
    KnownLength(Chosen(f));
    if Chosen(f) <= ALL_FIELDS { LengthFits(Chosen(f)); }
    if Serialised(f, buflen).Ok? {
      KnownLength(Serialised(f, buflen).value.0);
      OnlySoundResolve(f);
    }
  }

  /** One address, when the flags of the others may have changed before. */
  lemma ResolveOne(fs: Fields, fs0: Fields, af: AddrMatch.Family, four: nat, six: nat)
    requires four != six && (four in fs <==> four in fs0) && (six in fs <==> six in fs0)
    ensures Resolve(fs, af, four, six) ==
      if OtherFlagged(fs0, af, four, six) then Err(FlowInvalid) else Ok(fs - Spare(fs0, af, four, six))
    ensures !OtherFlagged(fs0, af, four, six) ==>
      (Unset(fs - Spare(fs0, af, four, six), af, four, six) <==> WrongForm(fs0, af, four, six))
  {
    assert fs - {} == fs;
  }

  lemma SpareOnly(fs: Fields, af: AddrMatch.Family, four: nat, six: nat)
    ensures Spare(fs, af, four, six) <= {four, six}
  {
  }

  lemma ResolvesTo(f: StoreFlow)
    ensures ResolveAll(f, f.fields) == if AnyOther(f) then Err(FlowInvalid) else Ok(Left(f))
    ensures !AnyOther(f) ==> (AnyUnset(f, Left(f)) <==> AnyWrong(f))
  {
    hide Resolve, Spare, OtherFlagged, WrongForm, Unset;
    var fs := f.fields;
    SpareOnly(fs, f.agent.af, AGENT_ADDR4, AGENT_ADDR6);
    SpareOnly(fs, f.src.af, SRC_ADDR4, SRC_ADDR6);
    SpareOnly(fs, f.dst.af, DST_ADDR4, DST_ADDR6);
    SpareOnly(fs, f.gateway.af, GATEWAY_ADDR4, GATEWAY_ADDR6);
    var fs1 := fs - Spare(fs, f.agent.af, AGENT_ADDR4, AGENT_ADDR6);
    var fs2 := fs1 - Spare(fs, f.src.af, SRC_ADDR4, SRC_ADDR6);
    var fs3 := fs2 - Spare(fs, f.dst.af, DST_ADDR4, DST_ADDR6);
    var fs4 := fs3 - Spare(fs, f.gateway.af, GATEWAY_ADDR4, GATEWAY_ADDR6);
    ResolveOne(fs, fs, f.agent.af, AGENT_ADDR4, AGENT_ADDR6);
    ResolveOne(fs1, fs, f.src.af, SRC_ADDR4, SRC_ADDR6);
    ResolveOne(fs2, fs, f.dst.af, DST_ADDR4, DST_ADDR6);
    ResolveOne(fs3, fs, f.gateway.af, GATEWAY_ADDR4, GATEWAY_ADDR6);
    UnsetSame(fs1, fs4, f.agent.af, AGENT_ADDR4, AGENT_ADDR6);
    UnsetSame(fs2, fs4, f.src.af, SRC_ADDR4, SRC_ADDR6);
    UnsetSame(fs3, fs4, f.dst.af, DST_ADDR4, DST_ADDR6);
  }

  lemma LeftKnown(f: StoreFlow)
    ensures Left(f) <= ALL_FIELDS <==> f.fields <= ALL_FIELDS
  {
    SpareOnly(f.fields, f.agent.af, AGENT_ADDR4, AGENT_ADDR6);
    SpareOnly(f.fields, f.src.af, SRC_ADDR4, SRC_ADDR6);
    SpareOnly(f.fields, f.dst.af, DST_ADDR4, DST_ADDR6);
    SpareOnly(f.fields, f.gateway.af, GATEWAY_ADDR4, GATEWAY_ADDR6);
    if Left(f) <= ALL_FIELDS {
      forall b | b in f.fields ensures b in ALL_FIELDS {
        if b >= 19 { assert b in Left(f); }
      }
    }
  }

  /** What becomes of every record: refused for an address without a family, for a field
      that the log does not know, or for a body longer than the buffer; written beyond the
      buffer, or from an address that was never copied; or written. */
  lemma SerialiseExactly(f: StoreFlow, buflen: nat)
    ensures f.fields <= ALL_FIELDS ==> Left(f) <= ALL_FIELDS
    ensures Serialised(f, buflen) ==
      if AnyOther(f) then Err(FlowInvalid)
      else if !(f.fields <= ALL_FIELDS) then Err(Internal)
      else if CalcFlowLen(Left(f)) > buflen then Err(BufferSize)
      else if HEADER + CalcFlowLen(Left(f)) > buflen || AnyWrong(f) then Fault
      else Ok((Left(f), Encoded(f, Left(f))))
  {
    hide ResolveAll, AnyOther, AnyUnset, AnyWrong, Left, CalcFlowLen, ALL_FIELDS, Encoded;
    ResolvesTo(f);
    LeftKnown(f);
    KnownLength(Left(f));
    if Left(f) <= ALL_FIELDS { LengthFits(Left(f)); }
  }

  /** The two faults: no address of another family is flagged, all fields are known and the
      body fits, and either the header does not fit too or some address is flagged only in
      the form that its family does not name. */
  lemma SerialiseFaultsExactly(f: StoreFlow, buflen: nat)
    ensures Serialised(f, buflen).Fault? <==>
      && !AnyOther(f) && f.fields <= ALL_FIELDS && CalcFlowLen(Left(f)) <= buflen
      && (HEADER + CalcFlowLen(Left(f)) > buflen || AnyWrong(f))
  {
    hide Serialised, AnyOther, AnyWrong, Left, CalcFlowLen, ALL_FIELDS, Encoded;
    SerialiseExactly(f, buflen);
  }

  /** For one, a tag written into a buffer of four bytes. */
  lemma OverWrite()
    ensures Serialised(BLANK.(fields := {TAG}), 4).Fault?
  {
    var f := BLANK.(fields := {TAG});
    assert Left(f) == {TAG};
    TagLength();
    SerialiseFaultsExactly(f, 4);
  }

  /** For another, an IPv4 source that is flagged as IPv6, in a buffer of any useful size. */
  lemma NeverCopied(buflen: nat)
    requires buflen >= 24
    ensures Serialised(BLANK.(fields := {SRC_ADDR6}, src := RawAddr(AddrMatch.Inet, ZERO16, 0)), buflen).Fault?
  {
    hide BodyLen;
    var f := BLANK.(fields := {SRC_ADDR6}, src := RawAddr(AddrMatch.Inet, ZERO16, 0));
    assert Left(f) == {SRC_ADDR6} && f.fields <= ALL_FIELDS;
    OneField(SRC_ADDR6, BODY_FIELDS);
    SerialiseFaultsExactly(f, buflen);
  }

  lemma {:induction false} OneField(bit: nat, n: nat)
    requires bit < 32
    ensures BodyLen({bit}, n) == if bit < n then Size(bit) else 0
  {
    hide Size;
    if n > 0 { OneField(bit, n - 1); }
  }

  /** Of the three tests of the length the last never decides: the length of unknown fields,
      -1, is caught by the first, and that of known ones is none of the two. */
  lemma ThirdTestNeverDecides(fs: Fields)
    ensures CalcFlowLen(fs) == -1 ==> CalcFlowLen(fs) % 4 == 3
    ensures CalcFlowLen(fs) % 4 == 0 <==> fs <= ALL_FIELDS
    ensures CalcFlowLen(fs) % 4 == 0 ==> CalcFlowLen(fs) >= 0
  {
    KnownLength(fs);
    if fs <= ALL_FIELDS { LengthFits(fs); }
  }

  /** So the error of unknown fields is the internal one, and the error that the last test
      is for is given to addresses without a family only. */
  lemma UnknownFieldIsInternal(f: StoreFlow, buflen: nat)
    ensures Serialised(f, buflen) == Err(Internal) <==> !AnyOther(f) && !(f.fields <= ALL_FIELDS)
    ensures Serialised(f, buflen) == Err(FlowInvalid) <==> AnyOther(f)
  {
    hide Serialised, AnyOther, AnyWrong, Left, CalcFlowLen, ALL_FIELDS, Encoded;
    SerialiseExactly(f, buflen);
  }

  /** For one, a record with the reserved flag. */
  lemma UnknownField(buflen: nat)
    ensures Serialised(BLANK.(fields := {31}), buflen) == Err(Internal)
  {
    var f := BLANK.(fields := {31});
    assert 31 in f.fields && 31 !in ALL_FIELDS;
    UnknownFieldIsInternal(f, buflen);
  }

  // ----- Reading back -----

  /** The record that is left of f when only the given fields are kept, one at a time. */
  function Kept(f: StoreFlow, fs: Fields, n: nat): StoreFlow
    requires n <= BODY_FIELDS
  {
    if n == 0 then BLANK
    else
      var g := Kept(f, fs, n - 1);
      if n - 1 in fs then SetField(g, n - 1, FieldBytes(f, n - 1)) else g
  }

  lemma {:induction false} BodyRead(f: StoreFlow, fs: Fields, buf: seq<u8>, n: nat)
    requires n <= BODY_FIELDS && HEADER + BodyLen(fs, n) <= |buf| && buf[HEADER..HEADER + BodyLen(fs, n)] == Body(f, fs, n)
    ensures ReadFields(buf, fs, n) == Kept(f, fs, n)
  {
    hide SetField, FieldBytes, Size;
    if n > 0 {
      var at, end := BodyLen(fs, n - 1), BodyLen(fs, n);
      var part := buf[HEADER..HEADER + end];
      assert buf[HEADER..HEADER + at] == part[..at] && buf[HEADER + at..HEADER + end] == part[at..];
      BodyRead(f, fs, buf, n - 1);
    }
  }

  /** The record with exactly the given fields of f and zeros elsewhere: addresses in the
      one form that is kept, and without their scope. */
  function Selected(f: StoreFlow, fs: Fields): StoreFlow {
    BLANK.(
    tag := if TAG in fs then f.tag else 0,
    recvSec := if RECV_TIME in fs then f.recvSec else 0, recvUsec := if RECV_TIME in fs then f.recvUsec else 0,
    tcpFlags := if PROTO_FLAGS_TOS in fs then f.tcpFlags else 0, protocol := if PROTO_FLAGS_TOS in fs then f.protocol else 0,
    tos := if PROTO_FLAGS_TOS in fs then f.tos else 0, pftPad := if PROTO_FLAGS_TOS in fs then f.pftPad else 0,
    agent := SelectedAddr(f.agent, AGENT_ADDR4 in fs, AGENT_ADDR6 in fs), src := SelectedAddr(f.src, SRC_ADDR4 in fs, SRC_ADDR6 in fs),
    dst := SelectedAddr(f.dst, DST_ADDR4 in fs, DST_ADDR6 in fs), gateway := SelectedAddr(f.gateway, GATEWAY_ADDR4 in fs, GATEWAY_ADDR6 in fs),
    srcPort := if SRCDST_PORT in fs then f.srcPort else 0, dstPort := if SRCDST_PORT in fs then f.dstPort else 0,
    packets := if PACKETS in fs then f.packets else 0, octets := if OCTETS in fs then f.octets else 0,
    ifIn := if IF_INDICES in fs then f.ifIn else 0, ifOut := if IF_INDICES in fs then f.ifOut else 0,
    sysUptimeMs := if AGENT_INFO in fs then f.sysUptimeMs else 0, timeSec := if AGENT_INFO in fs then f.timeSec else 0,
    timeNanosec := if AGENT_INFO in fs then f.timeNanosec else 0, netflowVersion := if AGENT_INFO in fs then f.netflowVersion else 0,
    agentPad := if AGENT_INFO in fs then f.agentPad else 0,
    flowStart := if FLOW_TIMES in fs then f.flowStart else 0, flowFinish := if FLOW_TIMES in fs then f.flowFinish else 0,
    srcAs := if AS_INFO in fs then f.srcAs else 0, dstAs := if AS_INFO in fs then f.dstAs else 0,
    srcMask := if AS_INFO in fs then f.srcMask else 0, dstMask := if AS_INFO in fs then f.dstMask else 0,
    asPad := if AS_INFO in fs then f.asPad else 0,
    engineType := if FLOW_ENGINE_INFO in fs then f.engineType else 0, engineId := if FLOW_ENGINE_INFO in fs then f.engineId else 0,
    flowSequence := if FLOW_ENGINE_INFO in fs then f.flowSequence else 0, sourceId := if FLOW_ENGINE_INFO in fs then f.sourceId else 0)
  }

  function SelectedAddr(a: Raw, four: bool, six: bool): Raw {
    if six then Ip6(a.bytes) else if four then Ip4(a.bytes[..4]) else NO_ADDR
  }

  function Below(fs: Fields, n: nat): Fields {
    set b | b in fs && b < n
  }

  lemma PutsBack(w: u32, x: u32, h: u16, k: u16, q: u64)
    ensures Get32(Put32(w), 0) == w && Get32(Put32(w) + Put32(x), 0) == w && Get32(Put32(w) + Put32(x), 4) == x
    ensures Get16(Put16(h) + Put16(k), 0) == h && Get16(Put16(h) + Put16(k), 2) == k && Get64(Put64(q), 0) == q
  {
    hide Put16, Put32, Put64, Get16, Get32, Get64;
    var two, both := Put32(w) + Put32(x), Put16(h) + Put16(k);
    assert two[0..4] == Put32(w) && two[4..8] == Put32(x) && both[0..2] == Put16(h) && both[2..4] == Put16(k);
    GetPut32(Put32(w), 0, w);
    GetPut32(two, 0, w);
    GetPut32(two, 4, x);
    GetPut16(both, 0, h);
    GetPut16(both, 2, k);
    GetPut64(Put64(q), 0, q);
  }

  lemma PutsBackAgentInfo(w: u32, x: u32, y: u32, h: u16, k: u16)
    ensures var s := Put32(w) + Put32(x) + Put32(y) + Put16(h) + Put16(k);
      Get32(s, 0) == w && Get32(s, 4) == x && Get32(s, 8) == y && Get16(s, 12) == h && Get16(s, 14) == k
  {
    hide Put16, Put32, Get16, Get32;
    var s := Put32(w) + Put32(x) + Put32(y) + Put16(h) + Put16(k);
    assert s[0..4] == Put32(w) && s[4..8] == Put32(x) && s[8..12] == Put32(y) && s[12..14] == Put16(h) && s[14..16] == Put16(k);
    GetPut32(s, 0, w);
    GetPut32(s, 4, x);
    GetPut32(s, 8, y);
    GetPut16(s, 12, h);
    GetPut16(s, 14, k);
  }

  lemma PutsBackEngine(h: u16, k: u16, w: u32, x: u32)
    ensures var s := Put16(h) + Put16(k) + Put32(w) + Put32(x);
      Get16(s, 0) == h && Get16(s, 2) == k && Get32(s, 4) == w && Get32(s, 8) == x
  {
    hide Put16, Put32, Get16, Get32;
    var s := Put16(h) + Put16(k) + Put32(w) + Put32(x);
    assert s[0..2] == Put16(h) && s[2..4] == Put16(k) && s[4..8] == Put32(w) && s[8..12] == Put32(x);
    GetPut16(s, 0, h);
    GetPut16(s, 2, k);
    GetPut32(s, 4, w);
    GetPut32(s, 8, x);
  }

  lemma PutsBackAsInfo(w: u32, x: u32, a: u8, b: u8, h: u16)
    ensures var s := Put32(w) + Put32(x) + [a, b] + Put16(h);
      Get32(s, 0) == w && Get32(s, 4) == x && s[8] == a && s[9] == b && Get16(s, 10) == h
  {
    hide Put16, Put32, Get16, Get32;
    var s := Put32(w) + Put32(x) + [a, b] + Put16(h);
    assert s[0..4] == Put32(w) && s[4..8] == Put32(x) && s[10..12] == Put16(h);
    GetPut16(s, 10, h);
    GetPut32(s, 0, w);
    GetPut32(s, 4, x);
  }

  /** A field of f put into x. */
  function Take(x: StoreFlow, f: StoreFlow, bit: nat): StoreFlow
    requires bit < BODY_FIELDS
  {
    if bit == TAG then x.(tag := f.tag)
    else if bit == RECV_TIME then x.(recvSec := f.recvSec, recvUsec := f.recvUsec)
    else if bit == PROTO_FLAGS_TOS then x.(tcpFlags := f.tcpFlags, protocol := f.protocol, tos := f.tos, pftPad := f.pftPad)
    else if bit == AGENT_ADDR4 then x.(agent := Ip4(f.agent.bytes[..4]))
    else if bit == AGENT_ADDR6 then x.(agent := Ip6(f.agent.bytes))
    else if bit == SRC_ADDR4 then x.(src := Ip4(f.src.bytes[..4]))
    else if bit == SRC_ADDR6 then x.(src := Ip6(f.src.bytes))
    else if bit == DST_ADDR4 then x.(dst := Ip4(f.dst.bytes[..4]))
    else if bit == DST_ADDR6 then x.(dst := Ip6(f.dst.bytes))
    else if bit == GATEWAY_ADDR4 then x.(gateway := Ip4(f.gateway.bytes[..4]))
    else if bit == GATEWAY_ADDR6 then x.(gateway := Ip6(f.gateway.bytes))
    else if bit == SRCDST_PORT then x.(srcPort := f.srcPort, dstPort := f.dstPort)
    else if bit == PACKETS then x.(packets := f.packets)
    else if bit == OCTETS then x.(octets := f.octets)
    else if bit == IF_INDICES then x.(ifIn := f.ifIn, ifOut := f.ifOut)
    else if bit == AGENT_INFO then
      x.(sysUptimeMs := f.sysUptimeMs, timeSec := f.timeSec, timeNanosec := f.timeNanosec,
         netflowVersion := f.netflowVersion, agentPad := f.agentPad)
    else if bit == FLOW_TIMES then x.(flowStart := f.flowStart, flowFinish := f.flowFinish)
    else if bit == AS_INFO then x.(srcAs := f.srcAs, dstAs := f.dstAs, srcMask := f.srcMask, dstMask := f.dstMask, asPad := f.asPad)
    else x.(engineType := f.engineType, engineId := f.engineId, flowSequence := f.flowSequence, sourceId := f.sourceId)
  }

  /** A field's memory read back is the field. */
  lemma FieldRoundTrip(x: StoreFlow, f: StoreFlow, bit: nat)
    requires bit < BODY_FIELDS
    ensures SetField(x, bit, FieldBytes(f, bit)) == Take(x, f, bit)
  {
    hide Put16, Put32, Put64, Get16, Get32, Get64, Ip4, Ip6;
    PutsBack(f.tag, 0, f.srcPort, f.dstPort, f.packets);
    PutsBack(f.recvSec, f.recvUsec, 0, 0, f.octets);
    PutsBack(f.ifIn, f.ifOut, 0, 0, 0);
    PutsBack(f.flowStart, f.flowFinish, 0, 0, 0);
    PutsBackAgentInfo(f.sysUptimeMs, f.timeSec, f.timeNanosec, f.netflowVersion, f.agentPad);
    PutsBackAsInfo(f.srcAs, f.dstAs, f.srcMask, f.dstMask, f.asPad);
    PutsBackEngine(f.engineType, f.engineId, f.flowSequence, f.sourceId);
  }

  lemma TakeFirst(f: StoreFlow, g: Fields, bit: nat)
    requires 0 <= bit < 4 && forall b <- g :: b < bit
    ensures Take(Selected(f, g), f, bit) == Selected(f, g + {bit})
  {
    hide Ip4, Ip6;
    if bit == 0 {
    } else if bit == 1 {
    } else if bit == 2 {
    }
  }

  lemma TakeSecond(f: StoreFlow, g: Fields, bit: nat)
    requires 4 <= bit < 8 && forall b <- g :: b < bit
    ensures Take(Selected(f, g), f, bit) == Selected(f, g + {bit})
  {
    hide Ip4, Ip6;
    if bit == 4 {
    } else if bit == 5 {
    } else if bit == 6 {
    }
  }

  lemma TakeThird(f: StoreFlow, g: Fields, bit: nat)
    requires 8 <= bit < 11 && forall b <- g :: b < bit
    ensures Take(Selected(f, g), f, bit) == Selected(f, g + {bit})
  {
    hide Ip4, Ip6;
    if bit == 8 {
    } else if bit == 9 {
    }
  }

  lemma TakeFourth(f: StoreFlow, g: Fields, bit: nat)
    requires 11 <= bit < 14 && forall b <- g :: b < bit
    ensures Take(Selected(f, g), f, bit) == Selected(f, g + {bit})
  {
    hide Ip4, Ip6;
    if bit == 11 {
    } else if bit == 12 {
    }
  }

  lemma TakeFifth(f: StoreFlow, g: Fields, bit: nat)
    requires 14 <= bit < 16 && forall b <- g :: b < bit
    ensures Take(Selected(f, g), f, bit) == Selected(f, g + {bit})
  {
    hide Ip4, Ip6;
    if bit == 14 {
    }
  }

  lemma TakeSixth(f: StoreFlow, g: Fields, bit: nat)
    requires 16 <= bit < 18 && forall b <- g :: b < bit
    ensures Take(Selected(f, g), f, bit) == Selected(f, g + {bit})
  {
    hide Ip4, Ip6;
    if bit == 16 {
    }
  }

  lemma TakeLast(f: StoreFlow, g: Fields)
    requires forall b <- g :: b < 18
    ensures Take(Selected(f, g), f, 18) == Selected(f, g + {18})
  {
    hide Ip4, Ip6, SelectedAddr;
  }

  lemma TakeSelected(f: StoreFlow, g: Fields, bit: nat)
    requires bit < BODY_FIELDS && forall b <- g :: b < bit
    ensures Take(Selected(f, g), f, bit) == Selected(f, g + {bit})
  {
    hide Take, Selected;
    if bit < 4 {
      TakeFirst(f, g, bit);
    } else if bit < 8 {
      TakeSecond(f, g, bit);
    } else if bit < 11 {
      TakeThird(f, g, bit);
    } else if bit < 14 {
      TakeFourth(f, g, bit);
    } else if bit < 16 {
      TakeFifth(f, g, bit);
    } else if bit < 18 {
      TakeSixth(f, g, bit);
    } else {
      TakeLast(f, g);
    }
  }

  /** Setting one more field of the record that has those below it. */
  lemma OneMoreField(f: StoreFlow, g: Fields, bit: nat)
    requires bit < BODY_FIELDS && forall b <- g :: b < bit
    ensures SetField(Selected(f, g), bit, FieldBytes(f, bit)) == Selected(f, g + {bit})
  {
    hide Selected, SetField, FieldBytes, Take;
    FieldRoundTrip(Selected(f, g), f, bit);
    TakeSelected(f, g, bit);
  }

  lemma {:induction false} KeptIs(f: StoreFlow, fs: Fields, n: nat)
    requires n <= BODY_FIELDS
    ensures Kept(f, fs, n) == Selected(f, Below(fs, n))
  {
    hide Selected, SetField, FieldBytes;
    if n == 0 {
      assert Below(fs, 0) == {};
      NothingSelected(f);
    } else {
      KeptIs(f, fs, n - 1);
      if n - 1 in fs {
        OneMoreField(f, Below(fs, n - 1), n - 1);
        assert Below(fs, n) == Below(fs, n - 1) + {n - 1};
      } else {
        assert Below(fs, n) == Below(fs, n - 1);
      }
    }
  }

  lemma NothingSelected(f: StoreFlow)
    ensures Selected(f, {}) == BLANK
  {
  }

  lemma SelectsBody(f: StoreFlow, fs: Fields)
    ensures Selected(f, Below(fs, BODY_FIELDS)) == Selected(f, fs)
  {
  }

  /** The record that the log gives back. */
  function Restored(f: StoreFlow, fs: Fields): StoreFlow
    requires fs <= ALL_FIELDS
  {
    Selected(f, fs).(fields := fs, crc := if CRC32 in fs then Checksum(Covered(f, fs)) else 0)
  }

  lemma HeaderReads(f: StoreFlow, fs: Fields)
    requires fs <= ALL_FIELDS
    ensures var bytes := Encoded(f, fs);
      && Major(bytes) == VERSION_MAJOR && Minor(bytes) == VERSION_MINOR && LenWords(bytes) * 4 == CalcFlowLen(fs)
      && HeaderFields(bytes) == fs
  {
    hide Body, Put32, Get32, FieldWord;
    LengthFits(fs);
    FieldsWord(fs);
    var bytes := Encoded(f, fs);
    assert bytes[4..8] == Put32(FieldWord(fs));
    GetPut32(bytes, 4, FieldWord(fs));
  }

  /** A record that is written reads back as exactly its selected fields. */
  lemma RecordRoundTrip(f: StoreFlow, fs: Fields)
    requires fs <= ALL_FIELDS && !BothForms(fs)
    ensures Deserialised(Encoded(f, fs)) == Ok(Restored(f, fs))
  {
    hide Selected, ReadFields, Body, Header, HeaderFields, BothForms, Checksum, Put32, Get32, Major, Minor, LenWords, ALL_FIELDS;
    var bytes, c := Encoded(f, fs), Covered(f, fs);
    HeaderReads(f, fs);
    LengthFits(fs);
    var end := HEADER + BodyLen(fs, BODY_FIELDS);
    assert bytes[..end] == c && bytes[HEADER..end] == Body(f, fs, BODY_FIELDS);
    BodyRead(f, fs, bytes, BODY_FIELDS);
    KeptIs(f, fs, BODY_FIELDS);
    SelectsBody(f, fs);
    if CRC32 in fs {
      assert bytes[end..end + 4] == Put32(Checksum(c));
      GetPut32(bytes, end, Checksum(c));
    } else {
      SelectedCrc(f, fs);
    }
  }

  lemma SelectedCrc(f: StoreFlow, fs: Fields)
    ensures Selected(f, fs).crc == 0
  {
  }

  /** Serialised under a mask and deserialised: for every record with sound flags and every
      buffer with room, the selected fields come back. */
  lemma SerialiseRoundTrip(f: StoreFlow, mask: Fields, buflen: nat)
    requires var g := f.(fields := f.fields * mask); Sound(g) && HEADER + CalcFlowLen(Chosen(g)) <= buflen
    ensures var g := f.(fields := f.fields * mask); var r := Serialised(g, buflen);
      && Chosen(g) <= ALL_FIELDS && !BothForms(Chosen(g)) && r.Ok?
      && |r.value.1| == HEADER + CalcFlowLen(Chosen(g))
      && Deserialised(r.value.1) == Ok(Restored(f, Chosen(g)))
  {
    hide Encoded, Sound, Chosen, BothForms, Serialised, Deserialised, CalcFlowLen, ALL_FIELDS, Restored;
    var g := f.(fields := f.fields * mask);
    ResolvesSound(g);
    WritableExactly(g, buflen);
    RecordRoundTrip(g, Chosen(g));
    RestoredSame(f, g, Chosen(g));
    EncodedLength(g, Chosen(g));
  }

  lemma EncodedLength(f: StoreFlow, fs: Fields)
    requires fs <= ALL_FIELDS
    ensures |Encoded(f, fs)| == HEADER + CalcFlowLen(fs)
  {
  }

  lemma {:induction false} BodySame(f: StoreFlow, g: StoreFlow, fs: Fields, n: nat)
    requires n <= BODY_FIELDS && g == f.(fields := g.fields)
    ensures Body(f, fs, n) == Body(g, fs, n)
  {
    if n > 0 { BodySame(f, g, fs, n - 1); }
  }

  lemma RestoredSame(f: StoreFlow, g: StoreFlow, fs: Fields)
    requires fs <= ALL_FIELDS && g == f.(fields := g.fields)
    ensures Restored(f, fs) == Restored(g, fs)
  {
    hide Body, Header, Checksum;
    BodySame(f, g, fs, BODY_FIELDS);
  }

  // ----- Reading beyond the buffer -----

  /** The deserialiser reads beyond the buffer exactly for a record whose header it accepts
      and whose named fields, the checksum among them if all are known, take more bytes than
      follow the header. */
  lemma OverReadExactly(buf: seq<u8>)
    ensures Deserialised(buf).Fault? <==>
      && |buf| >= HEADER && Major(buf) == VERSION_MAJOR && LenWords(buf) * 4 <= |buf| - HEADER
      && var fs := HeaderFields(buf);
         (if fs <= ALL_FIELDS then CalcFlowLen(fs) else BodyLen(fs, BODY_FIELDS)) > |buf| - HEADER
  {
    hide ReadFields, BothForms, Checksum, Get32, HeaderFields, Major, Minor, ALL_FIELDS, BodyLen;
  }

  /** For one, the header of a record with a tag, and nothing behind it. */
  lemma OverRead()
    ensures Deserialised([VERSION_MAJOR * 32, 0, 0, 0] + Put32(1)).Fault?
  {
    var buf := [VERSION_MAJOR * 32, 0, 0, 0] + Put32(1);
    WithTag();
    assert buf[4..8] == Put32(1);
    GetPut32(buf, 4, 1);
    assert HeaderFields(buf) == {TAG};
    TagLength();
    OverReadExactly(buf);
  }

  lemma WithTag()
    ensures FieldsOf(1) == {TAG}
  {
    NoFieldsFrom(1);
  }

  lemma {:induction false} NoFieldsFrom(k: nat)
    requires k <= 32
    ensures FieldsFrom(0, k) == {}
    decreases 32 - k
  {
    if k < 32 { NoFieldsFrom(k + 1); }
  }

  lemma TagLength()
    ensures {TAG} <= ALL_FIELDS && CalcFlowLen({TAG}) == 4
  {
    OneField(TAG, BODY_FIELDS);
  }

  // ----- Corruption -----

  /** A record with a checksum in which up to four consecutive covered bytes changed, and
      not in a way that changes its shape, is refused. */
  lemma CorruptionFound(f: StoreFlow, fs: Fields, a: seq<u8>, e: seq<u8>, e': seq<u8>, b: seq<u8>)
    requires fs <= ALL_FIELDS && !BothForms(fs) && CRC32 in fs && Covered(f, fs) == a + e + b
    requires |e| == |e'| <= 4 && e != e'
    requires var bad := a + e' + b + Put32(Checksum(Covered(f, fs))); var good := Encoded(f, fs);
      Major(bad) == Major(good) && LenWords(bad) == LenWords(good) && HeaderFields(bad) == HeaderFields(good)
    ensures Deserialised(a + e' + b + Put32(Checksum(Covered(f, fs)))) == Err(CrcMismatch)
  {
    hide ReadFields, Body, Header, HeaderFields, BothForms, Put32, Get32, Major, Minor, LenWords, ALL_FIELDS, Crc32.Checksum;
    var c, sum := Covered(f, fs), Checksum(Covered(f, fs));
    var bad := a + e' + b + Put32(sum);
    HeaderReads(f, fs);
    LengthFits(fs);
    var end := HEADER + BodyLen(fs, BODY_FIELDS);
    assert bad[..end] == a + e' + b && bad[end..end + 4] == Put32(sum);
    GetPut32(bad, end, sum);
    Crc32.ChecksumBurst(a, e, e', b);
  }

  /** And so is every record with a checksum that is not its own, however many of the four
      bytes changed. */
  lemma ChecksumCorruptionFound(f: StoreFlow, fs: Fields, sum: seq<u8>)
    requires fs <= ALL_FIELDS && !BothForms(fs) && CRC32 in fs && |sum| == 4 && sum != Put32(Checksum(Covered(f, fs)))
    ensures Deserialised(Covered(f, fs) + sum) == Err(CrcMismatch)
  {
    hide ReadFields, Body, Header, HeaderFields, BothForms, Put32, Get32, Major, Minor, LenWords, ALL_FIELDS, Crc32.Checksum;
    var c := Covered(f, fs);
    var bad, good := c + sum, Encoded(f, fs);
    HeaderReads(f, fs);
    SameHeader(good, bad);
    LengthFits(fs);
    var end := HEADER + BodyLen(fs, BODY_FIELDS);
    assert bad[..end] == c && bad[end..end + 4] == sum;
    PutGet32(bad, end);
  }

  lemma SameHeader(good: seq<u8>, bad: seq<u8>)
    requires |good| >= HEADER && |bad| >= HEADER && good[..HEADER] == bad[..HEADER]
    ensures Major(bad) == Major(good) && Minor(bad) == Minor(good) && LenWords(bad) == LenWords(good)
    ensures HeaderFields(bad) == HeaderFields(good)
  {
    assert forall i :: 0 <= i < HEADER ==> good[i] == good[..HEADER][i] && bad[i] == bad[..HEADER][i];
  }

  // ----- The log -----

  /** store_get_flow at the start of what is left of the log: a record and its length. */
  function GetFlow(s: seq<u8>): (r: StoreResult<(StoreFlow, nat)>)
    ensures r.Ok? ==> 0 < r.value.1 <= |s|
  {
    if |s| < HEADER then Err(Eof)
    else
      var len := 4 * LenWords(s);
      if len > 512 - HEADER then Err(Internal)
      else if |s| < HEADER + len then Err(Eof)
      else
        match Deserialised(s[..HEADER + len])
        case Fault => Fault
        case Err(e) => Err(e)
        case Ok(f) => Ok((f, HEADER + len))
  }

  /** All records up to the one that cannot be read, and why it cannot. */
  function ReadLog(s: seq<u8>): (seq<StoreFlow>, StoreResult<()>) {
    match GetFlow(s)
    case Fault => ([], Fault)
    case Err(e) => ([], Err(e))
    case Ok((f, n)) => var (rest, end) := ReadLog(s[n..]); ([f] + rest, end)
  }

  /** A record as it was handed to the log: the flow, and the fields that were stored. */
  datatype LogEntry = LogEntry(flow: StoreFlow, fields: Fields)

  type Entry = e: LogEntry | e.fields <= ALL_FIELDS && !BothForms(e.fields) witness LogEntry(BLANK, {})

  function LogOf(es: seq<Entry>): seq<u8>
  {
    if es == [] then [] else Encoded(es[0].flow, es[0].fields) + LogOf(es[1..])
  }

  function RestoredAll(es: seq<Entry>): seq<StoreFlow>
  {
    if es == [] then [] else [Restored(es[0].flow, es[0].fields)] + RestoredAll(es[1..])
  }

  lemma FirstEntry(e: Entry, rest: seq<u8>)
    ensures GetFlow(Encoded(e.flow, e.fields) + rest) == Ok((Restored(e.flow, e.fields), |Encoded(e.flow, e.fields)|))
  {
    hide Deserialised, Restored, Encoded, ALL_FIELDS, BothForms, Major, Minor, HeaderFields;
    var bytes := Encoded(e.flow, e.fields);
    EncodedLength(e.flow, e.fields);
    HeaderReads(e.flow, e.fields);
    RecordRoundTrip(e.flow, e.fields);
    FitsBuffer(e.fields);
    assert (bytes + rest)[..|bytes|] == bytes && (bytes + rest)[1] == bytes[1];
  }

  lemma FitsBuffer(fs: Fields)
    requires fs <= ALL_FIELDS
    ensures 0 <= CalcFlowLen(fs) <= 512 - HEADER
  {
    BodyLenBound(fs, BODY_FIELDS);
  }

  /** A log of any number of records reads back as the same sequence, up to its end. */
  lemma {:induction false} LogReadsBack(es: seq<Entry>)
    ensures ReadLog(LogOf(es)) == (RestoredAll(es), Err(Eof))
  {
    if es != [] {
      hide Encoded, Restored, GetFlow;
      FirstEntry(es[0], LogOf(es[1..]));
      LogReadsBack(es[1..]);
      assert LogOf(es)[|Encoded(es[0].flow, es[0].fields)|..] == LogOf(es[1..]);
    }
  }

  /** A log cut short anywhere in its last record still gives all the records before it. */
  lemma {:induction false} CutLogReadsBack(es: seq<Entry>, last: Entry, n: nat)
    requires n < |Encoded(last.flow, last.fields)|
    ensures ReadLog(LogOf(es) + Encoded(last.flow, last.fields)[..n]) == (RestoredAll(es), Err(Eof))
  {
    hide Encoded, Restored, GetFlow;
    var cut := Encoded(last.flow, last.fields)[..n];
    if es == [] {
      assert LogOf(es) + cut == cut;
      CutEntry(last, n);
    } else {
      var first := Encoded(es[0].flow, es[0].fields);
      assert LogOf(es) + cut == first + (LogOf(es[1..]) + cut);
      FirstEntry(es[0], LogOf(es[1..]) + cut);
      CutLogReadsBack(es[1..], last, n);
      assert (LogOf(es) + cut)[|first|..] == LogOf(es[1..]) + cut;
    }
  }

  lemma CutEntry(e: Entry, n: nat)
    requires n < |Encoded(e.flow, e.fields)|
    ensures GetFlow(Encoded(e.flow, e.fields)[..n]) == Err(Eof)
  {
    hide Deserialised, Encoded, ALL_FIELDS, BothForms, Major, Minor, HeaderFields;
    EncodedLength(e.flow, e.fields);
    HeaderReads(e.flow, e.fields);
    FitsBuffer(e.fields);
  }
}
