/** Records read from the log and written again (flowd/store.c): the other round trip. */
module StoreWriteBack {
  import AddrMatch
  import opened Bytes
  import opened FlowRecord
  import opened Store
  import opened StoreRoundTrip

  /** The bytes of a field that is there. */
  function Slice(buf: seq<u8>, fs: Fields, bit: nat): (s: seq<u8>)
    requires bit in fs && HEADER + BodyLen(fs, bit + 1) <= |buf|
    ensures |s| == Size(bit)
  {
    buf[HEADER + BodyLen(fs, bit)..HEADER + BodyLen(fs, bit + 1)]
  }

  /** The two forms of one address. */
  predicate Rivals(b: nat, c: nat) {
    || Pair(b, c, AGENT_ADDR4, AGENT_ADDR6) || Pair(b, c, SRC_ADDR4, SRC_ADDR6)
    || Pair(b, c, DST_ADDR4, DST_ADDR6) || Pair(b, c, GATEWAY_ADDR4, GATEWAY_ADDR6)
  }

  predicate Pair(b: nat, c: nat, four: nat, six: nat) {
    (b == four && c == six) || (b == six && c == four)
  }

  lemma Puts32(s: seq<u8>)
    requires |s| == 8
    ensures Put32(Get32(s, 0)) + Put32(Get32(s, 4)) == s
  {
    hide Put32, Get32;
    PutGet32(s, 0);
    PutGet32(s, 4);
  }

  lemma Puts16(s: seq<u8>)
    requires |s| == 4
    ensures Put16(Get16(s, 0)) + Put16(Get16(s, 2)) == s
  {
    hide Put16, Get16;
    PutGet16(s, 0);
    PutGet16(s, 2);
  }

  lemma PutsAgentInfo(s: seq<u8>)
    requires |s| == 16
    ensures Put32(Get32(s, 0)) + Put32(Get32(s, 4)) + Put32(Get32(s, 8)) + Put16(Get16(s, 12)) + Put16(Get16(s, 14)) == s
  {
    hide Put32, Get32, Put16, Get16;
    PutGet32(s, 0);
    PutGet32(s, 4);
    PutGet32(s, 8);
    PutGet16(s, 12);
    PutGet16(s, 14);
  }

  lemma PutsAsInfo(s: seq<u8>)
    requires |s| == 12
    ensures Put32(Get32(s, 0)) + Put32(Get32(s, 4)) + [s[8], s[9]] + Put16(Get16(s, 10)) == s
  {
    hide Put32, Get32, Put16, Get16;
    PutGet32(s, 0);
    PutGet32(s, 4);
    PutGet16(s, 10);
    assert s[8..10] == [s[8], s[9]];
  }

  lemma PutsEngine(s: seq<u8>)
    requires |s| == 12
    ensures Put16(Get16(s, 0)) + Put16(Get16(s, 2)) + Put32(Get32(s, 4)) + Put32(Get32(s, 8)) == s
  {
    hide Put32, Get32, Put16, Get16;
    PutGet16(s, 0);
    PutGet16(s, 2);
    PutGet32(s, 4);
    PutGet32(s, 8);
  }

  lemma PutsPlain(s: seq<u8>)
    ensures |s| == 4 ==> Put32(Get32(s, 0)) == s && [s[0], s[1], s[2], s[3]] == s
    ensures |s| == 8 ==> Put64(Get64(s, 0)) == s
  {
    hide Put32, Get32, Put64, Get64;
    if |s| == 4 {
      PutGet32(s, 0);
    } else if |s| == 8 {
      PutGet64(s, 0);
    }
  }

  /** What was read into a field is written from it. */
  lemma FieldWritesBack(x: StoreFlow, bit: nat, s: seq<u8>)
    requires bit < BODY_FIELDS && |s| == Size(bit)
    ensures FieldBytes(SetField(x, bit, s), bit) == s
  {
    hide Put16, Put32, Put64, Get16, Get32, Get64;
    PutsPlain(s);
    if bit in {RECV_TIME, IF_INDICES, FLOW_TIMES} {
      Puts32(s);
    } else if bit == SRCDST_PORT {
      Puts16(s);
    } else if bit == AGENT_INFO {
      PutsAgentInfo(s);
    } else if bit == AS_INFO {
      PutsAsInfo(s);
    } else if bit == FLOW_ENGINE_INFO {
      PutsEngine(s);
    } else if bit in {AGENT_ADDR4, SRC_ADDR4, DST_ADDR4, GATEWAY_ADDR4} {
      assert (s + ZERO16[4..])[..4] == s;
    }
  }

  /** Another field is not touched. */
  lemma Untouched(x: StoreFlow, bit: nat, s: seq<u8>, other: nat)
    requires bit < BODY_FIELDS && |s| == Size(bit) && other < BODY_FIELDS && other != bit && !Rivals(bit, other)
    ensures FieldBytes(SetField(x, bit, s), other) == FieldBytes(x, other)
  {
    hide Rivals;
    if bit < 3 {
      UntouchedFirst(x, bit, s, other);
    } else if bit < 11 {
      UntouchedAddr(x, bit, s, other);
    } else {
      UntouchedLast(x, bit, s, other);
    }
  }

  lemma UntouchedFirst(x: StoreFlow, bit: nat, s: seq<u8>, other: nat)
    requires bit < 3 && |s| == Size(bit) && other < BODY_FIELDS && other != bit
    ensures FieldBytes(SetField(x, bit, s), other) == FieldBytes(x, other)
  {
    hide Put16, Put32, Put64, Get16, Get32, Get64;
    if bit == 0 {
    } else if bit == 1 {
    }
  }

  lemma UntouchedAddr(x: StoreFlow, bit: nat, s: seq<u8>, other: nat)
    requires 3 <= bit < 11 && |s| == Size(bit) && other < BODY_FIELDS && other != bit && !Rivals(bit, other)
    ensures FieldBytes(SetField(x, bit, s), other) == FieldBytes(x, other)
  {
    hide Put16, Put32, Put64, Get16, Get32, Get64, Ip4, Ip6;
    if bit == 3 || bit == 4 {
      assert other != 7 - bit;
    } else if bit == 5 || bit == 6 {
      assert other != 11 - bit;
    } else if bit == 7 || bit == 8 {
      assert other != 15 - bit;
    } else {
      assert other != 19 - bit;
    }
  }

  lemma UntouchedLast(x: StoreFlow, bit: nat, s: seq<u8>, other: nat)
    requires 11 <= bit < 19 && |s| == Size(bit) && other < BODY_FIELDS && other != bit
    ensures FieldBytes(SetField(x, bit, s), other) == FieldBytes(x, other)
  {
    hide Put16, Put32, Put64, Get16, Get32, Get64, Ip4, Ip6;
    if bit == 11 {
    } else if bit == 12 {
    } else if bit == 13 {
    } else if bit == 14 {
    } else if bit == 15 {
    } else if bit == 16 {
    } else if bit == 17 {
    }
  }

  lemma NoRivals(fs: Fields, b: nat, c: nat)
    requires !BothForms(fs) && b in fs && c in fs && b != c
    ensures !Rivals(b, c)
  {
  }

  lemma {:induction false} BodyUntouched(x: StoreFlow, fs: Fields, bit: nat, s: seq<u8>, n: nat)
    requires !BothForms(fs) && bit in fs && n <= bit < BODY_FIELDS && |s| == Size(bit)
    ensures Body(SetField(x, bit, s), fs, n) == Body(x, fs, n)
  {
    hide SetField, FieldBytes, BothForms, Size;
    if n > 0 {
      BodyUntouched(x, fs, bit, s, n - 1);
      if n - 1 in fs {
        NoRivals(fs, bit, n - 1);
        Untouched(x, bit, s, n - 1);
      }
    }
  }

  /** The body of a record that was read is the bytes that it was read from. */
  lemma {:induction false} BodyWritesBack(buf: seq<u8>, fs: Fields, n: nat)
    requires n <= BODY_FIELDS && HEADER + BodyLen(fs, n) <= |buf| && !BothForms(fs)
    ensures Body(ReadFields(buf, fs, n), fs, n) == buf[HEADER..HEADER + BodyLen(fs, n)]
  {
    hide SetField, FieldBytes, BothForms, Size;
    if n > 0 {
      BodyWritesBack(buf, fs, n - 1);
      var g := ReadFields(buf, fs, n - 1);
      if n - 1 in fs {
        var s := Slice(buf, fs, n - 1);
        BodyUntouched(g, fs, n - 1, s, n - 1);
        FieldWritesBack(g, n - 1, s);
        Join(buf, HEADER, HEADER + BodyLen(fs, n - 1), HEADER + BodyLen(fs, n));
      }
    }
  }

  function Af(fs: Fields, n: nat, four: nat, six: nat): AddrMatch.Family {
    if six in fs && six < n then AddrMatch.Inet6 else if four in fs && four < n then AddrMatch.Inet else AddrMatch.OtherFamily
  }

  lemma SetAfs(x: StoreFlow, bit: nat, s: seq<u8>)
    requires bit < BODY_FIELDS && |s| == Size(bit)
    ensures var y := SetField(x, bit, s);
      && y.agent.af == (if bit == AGENT_ADDR4 then AddrMatch.Inet else if bit == AGENT_ADDR6 then AddrMatch.Inet6 else x.agent.af)
      && y.src.af == (if bit == SRC_ADDR4 then AddrMatch.Inet else if bit == SRC_ADDR6 then AddrMatch.Inet6 else x.src.af)
      && y.dst.af == (if bit == DST_ADDR4 then AddrMatch.Inet else if bit == DST_ADDR6 then AddrMatch.Inet6 else x.dst.af)
      && y.gateway.af == (if bit == GATEWAY_ADDR4 then AddrMatch.Inet else if bit == GATEWAY_ADDR6 then AddrMatch.Inet6 else x.gateway.af)
  {
    hide Get16, Get32, Get64;
  }

  lemma {:induction false} AfsRead(buf: seq<u8>, fs: Fields, n: nat)
    requires n <= BODY_FIELDS && HEADER + BodyLen(fs, n) <= |buf|
    ensures var f := ReadFields(buf, fs, n);
      && f.agent.af == Af(fs, n, AGENT_ADDR4, AGENT_ADDR6) && f.src.af == Af(fs, n, SRC_ADDR4, SRC_ADDR6)
      && f.dst.af == Af(fs, n, DST_ADDR4, DST_ADDR6) && f.gateway.af == Af(fs, n, GATEWAY_ADDR4, GATEWAY_ADDR6)
  {
    hide SetField, Size;
    if n > 0 {
      AfsRead(buf, fs, n - 1);
      if n - 1 in fs {
        SetAfs(ReadFields(buf, fs, n - 1), n - 1, Slice(buf, fs, n - 1));
      }
    }
  }

  /** What was read can be written, with the same fields. */
  lemma ReadIsSound(f: StoreFlow)
    requires !BothForms(f.fields) && f.fields <= ALL_FIELDS
    requires f.agent.af == Af(f.fields, BODY_FIELDS, AGENT_ADDR4, AGENT_ADDR6) && f.src.af == Af(f.fields, BODY_FIELDS, SRC_ADDR4, SRC_ADDR6)
    requires f.dst.af == Af(f.fields, BODY_FIELDS, DST_ADDR4, DST_ADDR6)
    requires f.gateway.af == Af(f.fields, BODY_FIELDS, GATEWAY_ADDR4, GATEWAY_ADDR6)
    ensures Sound(f) && Chosen(f) == f.fields
  {
    hide ALL_FIELDS;
    var fs := f.fields;
    assert Without(fs, f.agent.af, AGENT_ADDR4, AGENT_ADDR6) == fs;
    assert Without(fs, f.src.af, SRC_ADDR4, SRC_ADDR6) == fs;
    assert Without(fs, f.dst.af, DST_ADDR4, DST_ADDR6) == fs;
    assert Without(fs, f.gateway.af, GATEWAY_ADDR4, GATEWAY_ADDR6) == fs;
  }

  /** Reading the fields of a body gives a record that can be written, has this body, and
      keeps all its values when it is written and read once more. */
  lemma FieldsWriteBack(buf: seq<u8>, fs: Fields, crc: u32)
    requires HEADER + BodyLen(fs, BODY_FIELDS) <= |buf| && !BothForms(fs) && fs <= ALL_FIELDS
    ensures var f := ReadFields(buf, fs, BODY_FIELDS).(fields := fs, crc := crc);
      && Sound(f) && Chosen(f) == fs && Body(f, fs, BODY_FIELDS) == buf[HEADER..HEADER + BodyLen(fs, BODY_FIELDS)]
      && Deserialised(Encoded(f, fs)) == Ok(f.(crc := if CRC32 in fs then Checksum(Covered(f, fs)) else 0))
  {
    hide ReadFields, Body, BothForms, ALL_FIELDS, Selected, Encoded, Deserialised, Sound, Chosen, Covered, Checksum, BodyLen, Af;
    var g := ReadFields(buf, fs, BODY_FIELDS);
    var f := g.(fields := fs, crc := crc);
    AfsRead(buf, fs, BODY_FIELDS);
    ReadIsSound(f);
    BodyWritesBack(buf, fs, BODY_FIELDS);
    BodyOfCrc(g, f, fs, BODY_FIELDS);
    BodyRead(f, fs, buf, BODY_FIELDS);
    KeptIs(f, fs, BODY_FIELDS);
    SelectsBody(f, fs);
    RecordRoundTrip(f, fs);
  }

  lemma {:induction false} BodyOfCrc(f: StoreFlow, g: StoreFlow, fs: Fields, n: nat)
    requires n <= BODY_FIELDS && g == f.(fields := g.fields, crc := g.crc)
    ensures Body(f, fs, n) == Body(g, fs, n)
  {
    if n > 0 { BodyOfCrc(f, g, fs, n - 1); }
  }

  /** A record as this version writes it. */
  predicate Canonical(buf: seq<u8>) {
    && |buf| >= HEADER
    && HeaderFields(buf) <= ALL_FIELDS && |buf| == HEADER + CalcFlowLen(HeaderFields(buf))
    && LengthByte(HeaderFields(buf), buf)
  }

  predicate LengthByte(fs: Fields, buf: seq<u8>)
    requires |buf| >= HEADER && fs <= ALL_FIELDS
  {
    buf[0] == VERSION_MAJOR * 32 + VERSION_MINOR && buf[1] == CalcFlowLen(fs) / 4 && buf[2] == 0 && buf[3] == 0
  }

  lemma HeaderWritesBack(buf: seq<u8>)
    requires |buf| >= HEADER && HeaderFields(buf) <= ALL_FIELDS && LengthByte(HeaderFields(buf), buf)
    ensures CalcFlowLen(HeaderFields(buf)) < 0x400 && Header(HeaderFields(buf), CalcFlowLen(HeaderFields(buf))) == buf[..HEADER]
  {
    hide Put32, Get32, FieldWord, FieldsOf, ALL_FIELDS, BodyLen;
    var fs := HeaderFields(buf);
    LengthFits(fs);
    WordFields(Get32(buf, 4));
    PutGet32(buf, 4);
    assert buf[..HEADER] == buf[..4] + buf[4..8];
    assert buf[..4] == [buf[0], buf[1], buf[2], buf[3]];
  }

  /** A record that reads without an error is written again to the very same bytes if and
      only if it has this version's header and nothing behind it. */
  lemma WritesBack(buf: seq<u8>)
    requires Deserialised(buf).Ok?
    ensures |buf| >= HEADER
    ensures Serialised(Deserialised(buf).value, |buf|) == Ok((HeaderFields(buf), buf)) <==> Canonical(buf)
  {
    hide Serialised, LengthByte, ReadRecord, ALL_FIELDS, HeaderFields;
    var fs, f := HeaderFields(buf), Deserialised(buf).value;
    if Canonical(buf) {
      CanonicalWrites(buf);
    }
    if Serialised(f, |buf|) == Ok((fs, buf)) {
      WritableExactly(f, |buf|);
      EncodedLength(f, fs);
      EncodedHeader(f, fs);
    }
  }

  lemma EncodedHeader(f: StoreFlow, fs: Fields)
    requires fs <= ALL_FIELDS
    ensures |Encoded(f, fs)| >= HEADER && LengthByte(fs, Encoded(f, fs))
  {
    hide Body, FieldWord, Put32, ALL_FIELDS, BodyLen;
    LengthFits(fs);
  }

  lemma CanonicalWrites(buf: seq<u8>)
    requires Canonical(buf) && Deserialised(buf).Ok?
    ensures Serialised(Deserialised(buf).value, |buf|) == Ok((HeaderFields(buf), buf))
  {
    hide ReadFields, Body, BothForms, ALL_FIELDS, Encoded, Sound, Chosen, Checksum, HeaderFields, Header, Get32, Put32, BodyLen, Serialised;
    var fs := HeaderFields(buf);
    var f := Deserialised(buf).value;
    LengthFits(fs);
    HeaderWritesBack(buf);
    var end := HEADER + BodyLen(fs, BODY_FIELDS);
    FieldsWriteBack(buf, fs, f.crc);
    assert f == ReadFields(buf, fs, BODY_FIELDS).(fields := fs, crc := f.crc);
    WritableExactly(f, |buf|);
    assert Covered(f, fs) == buf[..end];
    if CRC32 in fs {
      PutGet32(buf, end);
      assert buf == buf[..end] + buf[end..end + 4];
    } else {
      assert buf == buf[..end];
    }
    EncodedIs(f, fs, buf);
  }

  lemma EncodedIs(f: StoreFlow, fs: Fields, buf: seq<u8>)
    requires fs <= ALL_FIELDS
    requires buf == Covered(f, fs) + if CRC32 in fs then Put32(Checksum(Covered(f, fs))) else []
    ensures Encoded(f, fs) == buf
  {
  }
}
