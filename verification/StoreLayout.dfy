/** The bytes of the log in numbers (flowd/store.h, flowd/store.c, flowd/store-v2.h): the
    version, the bit and the length of every field, the order of the fields, and the order
    of the bytes of a number. */
module StoreLayout {
  import AddrMatch
  import opened Bits
  import opened Bytes
  import opened FlowRecord
  import opened Store
  import opened StoreRoundTrip
  import opened StoreWriteBack
  import V2 = StoreV2

  // ----- The fields -----

  /** The lengths of the fields, by their bits. */
  const LENGTHS: seq<nat> := [4, 8, 4, 4, 16, 4, 16, 4, 16, 4, 16, 4, 8, 8, 8, 16, 8, 12, 12]

  /** The bytes of a field, by its bit. */
  function Piece(f: StoreFlow, bit: nat): seq<u8>
    requires bit < 19
  {
    match bit
    case 0 => Be(f.tag, 4)
    case 1 => Be(f.recvSec, 4) + Be(f.recvUsec, 4)
    case 2 => [f.tcpFlags, f.protocol, f.tos, f.pftPad]
    case 3 => f.agent.bytes[..4]
    case 4 => f.agent.bytes
    case 5 => f.src.bytes[..4]
    case 6 => f.src.bytes
    case 7 => f.dst.bytes[..4]
    case 8 => f.dst.bytes
    case 9 => f.gateway.bytes[..4]
    case 10 => f.gateway.bytes
    case 11 => Be(f.srcPort, 2) + Be(f.dstPort, 2)
    case 12 => Be(f.packets, 8)
    case 13 => Be(f.octets, 8)
    case 14 => Be(f.ifIn, 4) + Be(f.ifOut, 4)
    case 15 => Be(f.sysUptimeMs, 4) + Be(f.timeSec, 4) + Be(f.timeNanosec, 4) + Be(f.netflowVersion, 2) + Be(f.agentPad, 2)
    case 16 => Be(f.flowStart, 4) + Be(f.flowFinish, 4)
    case 17 => Be(f.srcAs, 4) + Be(f.dstAs, 4) + [f.srcMask, f.dstMask] + Be(f.asPad, 2)
    case _ => Be(f.engineType, 2) + Be(f.engineId, 2) + Be(f.flowSequence, 4) + Be(f.sourceId, 4)
  }

  lemma PieceIs(f: StoreFlow, bit: nat)
    requires bit < 19
    ensures FieldBytes(f, bit) == Piece(f, bit) && |Piece(f, bit)| == LENGTHS[bit] == Size(bit)
  {
    hide Put16, Put32, Put64, Be;
    AllBe();
  }

  /** The pieces of the fields of fs below the n-th, in the order of their bits. */
  function Pieces(f: StoreFlow, fs: Fields, n: nat): seq<u8>
    requires n <= 19
  {
    if n == 0 then [] else Pieces(f, fs, n - 1) + (if n - 1 in fs then Piece(f, n - 1) else [])
  }

  function Lengths(fs: Fields, n: nat): nat
    requires n <= 19
  {
    if n == 0 then 0 else Lengths(fs, n - 1) + (if n - 1 in fs then LENGTHS[n - 1] else 0)
  }

  lemma {:induction false} PiecesAre(f: StoreFlow, fs: Fields, n: nat)
    requires n <= 19
    ensures Body(f, fs, n) == Pieces(f, fs, n) && BodyLen(fs, n) == Lengths(fs, n) == |Pieces(f, fs, n)|
  {
    hide FieldBytes, Piece, Size, LENGTHS;
    if n > 0 {
      PiecesAre(f, fs, n - 1);
      PieceIs(f, n - 1);
    }
  }

  // ----- The field word -----

  /** The sum of the powers of two of the bits below the n-th. */
  ghost function Word(fs: Fields, n: nat): nat {
    if n == 0 then 0 else Word(fs, n - 1) + (if n - 1 in fs then Pow2(n - 1) else 0)
  }

  lemma {:induction false} WordSplit(fs: Fields, k: nat)
    requires k <= 32
    ensures WordFrom(fs, 0) == Word(fs, k) + Pow2(k) * WordFrom(fs, k)
  {
    hide Pow2, WordFrom;
    WordEnds(fs);
    if k > 0 {
      WordSplit(fs, k - 1);
      WordStep(fs, k - 1);
      WordDigit(Pow2(k - 1), if k - 1 in fs then 1 else 0, WordFrom(fs, k));
    }
  }

  lemma WordStep(fs: Fields, k: nat)
    requires k < 32
    ensures WordFrom(fs, k) == (if k in fs then 1 else 0) + 2 * WordFrom(fs, k + 1) && Pow2(k + 1) == 2 * Pow2(k)
  {
  }

  lemma WordEnds(fs: Fields)
    ensures WordFrom(fs, 32) == 0 && Pow2(0) == 1
  {
  }

  lemma WordDigit(p: nat, d: nat, rest: nat)
    ensures p * (d + 2 * rest) == p * d + (2 * p) * rest
  {
    assert p * (2 * rest) == (2 * p) * rest;
  }

  lemma FieldWordIs(fs: Fields)
    ensures FieldWord(fs) == Word(fs, 32)
  {
    hide Pow2, WordFrom;
    WordSplit(fs, 32);
    WordEnds(fs);
  }

  // ----- Whole records -----

  /** A record of the log in numbers: version 3.0, the length of the body in words, two zero
      bytes and the field word; then the fields in the order of their bits; then the checksum. */
  ghost function Laid(f: StoreFlow, fs: Fields): seq<u8>
    requires fs <= ALL_FIELDS
  {
    var len := Lengths(fs, 19) + if 30 in fs then 4 else 0;
    var covered := [0x60, len / 4 % 0x100, 0, 0] + Be(Word(fs, 32), 4) + Pieces(f, fs, 19);
    covered + if 30 in fs then Be(Checksum(covered), 4) else []
  }

  lemma CoveredLaid(f: StoreFlow, fs: Fields)
    requires fs <= ALL_FIELDS
    ensures var len := Lengths(fs, 19) + if 30 in fs then 4 else 0;
      len / 4 < 0x100 && Covered(f, fs) == [0x60, len / 4 % 0x100, 0, 0] + Be(Word(fs, 32), 4) + Pieces(f, fs, 19)
  {
    hide Body, Pieces, ALL_FIELDS, Put32, BodyLen, Lengths, Be, Word, FieldWord;
    LengthFits(fs);
    PiecesAre(f, fs, 19);
    FieldWordIs(fs);
    Be32(FieldWord(fs));
  }

  lemma RecordLaid(f: StoreFlow, fs: Fields)
    requires fs <= ALL_FIELDS
    ensures Encoded(f, fs) == Laid(f, fs)
  {
    hide Covered, Pieces, Checksum, ALL_FIELDS, Put32, Lengths, Be, Word;
    CoveredLaid(f, fs);
    Be32(Checksum(Covered(f, fs)));
  }

  /** Whatever store_flow_serialise writes is laid out so. */
  lemma WrittenLaid(f: StoreFlow, buflen: nat)
    requires Serialised(f, buflen).Ok?
    ensures var (fs, bytes) := Serialised(f, buflen).value;
      && fs <= f.fields && fs <= ALL_FIELDS && bytes == Laid(f, fs)
      && (forall b :: b in f.fields && !(3 <= b <= 10) ==> b in fs)
  {
    hide Serialised, Encoded, Laid, CalcFlowLen, ALL_FIELDS, Sound;
    WritableExactly(f, buflen);
    RecordLaid(f, Chosen(f));
  }

  /** The word of one field. */
  const WORDS: seq<seq<u8>> := [
    [0, 0, 0, 1], [0, 0, 0, 2], [0, 0, 0, 4], [0, 0, 0, 8], [0, 0, 0, 0x10], [0, 0, 0, 0x20], [0, 0, 0, 0x40], [0, 0, 0, 0x80],
    [0, 0, 1, 0], [0, 0, 2, 0], [0, 0, 4, 0], [0, 0, 8, 0], [0, 0, 0x10, 0], [0, 0, 0x20, 0], [0, 0, 0x40, 0], [0, 0, 0x80, 0],
    [0, 1, 0, 0], [0, 2, 0, 0], [0, 4, 0, 0]]

  lemma {:induction false} OneWord(bit: nat, n: nat)
    requires bit < 32
    ensures Word({bit}, n) == if bit < n then Pow2(bit) else 0
  {
    hide Pow2;
    if n > 0 { OneWord(bit, n - 1); }
  }

  lemma PowersBelow8()
    ensures Pow2(0) == 1 && Pow2(1) == 2 && Pow2(2) == 4 && Pow2(3) == 8 && Pow2(4) == 0x10 && Pow2(5) == 0x20 && Pow2(6) == 0x40 && Pow2(7) == 0x80
  {
  }

  lemma PowersBelow16()
    ensures Pow2(8) == 0x100 && Pow2(9) == 0x200 && Pow2(10) == 0x400 && Pow2(11) == 0x800
    ensures Pow2(12) == 0x1000 && Pow2(13) == 0x2000 && Pow2(14) == 0x4000 && Pow2(15) == 0x8000
  {
    hide Pow2;
    PowersBelow8();
    Pow2Add(8, 0);
    Pow2Add(7, 1);
    Pow2Add(8, 1);
    Pow2Add(8, 2);
    Pow2Add(8, 3);
    Pow2Add(8, 4);
    Pow2Add(8, 5);
    Pow2Add(8, 6);
    Pow2Add(8, 7);
  }

  lemma PowersAbove()
    ensures Pow2(16) == 0x1_0000 && Pow2(17) == 0x2_0000 && Pow2(18) == 0x4_0000 && Pow2(30) == 0x4000_0000
  {
    hide Pow2;
    PowersBelow8();
    PowersBelow16();
    Pow2Add(8, 8);
    Pow2Add(16, 1);
    Pow2Add(16, 2);
    Pow2Add(16, 14);
  }

  /** A field word that is given byte by byte. */
  lemma WordBytes(x: nat, a: u8, b: u8, c: u8, d: u8)
    requires x == ((a * 0x100 + b) * 0x100 + c) * 0x100 + d
    ensures Be(x, 4) == [a, b, c, d]
  {
    assert x / 0x100 == (a * 0x100 + b) * 0x100 + c && x % 0x100 == d;
    assert x / 0x100 / 0x100 == a * 0x100 + b && x / 0x100 % 0x100 == c;
    assert x / 0x100 / 0x100 / 0x100 == a;
    assert Be(a, 1) == Be(a / 0x100, 0) + [a] && Be(a / 0x100, 0) == [];
    assert Be(a * 0x100 + b, 2) == [a] + [b];
  }

  lemma OneWordBytes(bit: nat)
    requires bit < 19
    ensures |WORDS[bit]| == 4 && Be(Pow2(bit), 4) == WORDS[bit]
  {
    hide Pow2, Be;
    PowersBelow8();
    PowersBelow16();
    PowersAbove();
    var w := WORDS[bit];
    WordBytes(Pow2(bit), w[0], w[1], w[2], w[3]);
  }

  lemma {:induction false} OnePiece(f: StoreFlow, bit: nat, n: nat)
    requires bit < 31 && n <= 19
    ensures Pieces(f, {bit}, n) == if bit < n then Piece(f, bit) else []
    ensures Lengths({bit}, n) == if bit < n then LENGTHS[bit] else 0
  {
    hide Piece, LENGTHS;
    if n > 0 { OnePiece(f, bit, n - 1); }
  }

  /** A record with one field in numbers, for each of the nineteen. */
  lemma OneFieldLaid(f: StoreFlow, bit: nat)
    requires bit < 19
    ensures |WORDS[bit]| == 4 && {bit} <= ALL_FIELDS
    ensures Encoded(f, {bit}) == [0x60, LENGTHS[bit] / 4, 0, 0] + WORDS[bit] + Piece(f, bit)
  {
    hide Encoded, Piece, Pieces, Lengths, Word, Pow2, Be;
    RecordLaid(f, {bit});
    OneWord(bit, 32);
    OneWordBytes(bit);
    OnePiece(f, bit, 19);
    NothingBehind(Laid(f, {bit}));
  }

  /** That is what store_flow_serialise writes of a record that has this one flag. */
  lemma OneFieldWritten(f: StoreFlow, bit: nat, buflen: nat)
    requires bit < 19 && f.fields == {bit} && Serialised(f, buflen).Ok?
    ensures |WORDS[bit]| == 4
    ensures Serialised(f, buflen).value == ({bit}, [0x60, LENGTHS[bit] / 4, 0, 0] + WORDS[bit] + Piece(f, bit))
  {
    hide Encoded, Serialised, Piece, CalcFlowLen, ALL_FIELDS;
    WritableExactly(f, buflen);
    OneChosen(f, bit);
    OneFieldLaid(f, bit);
  }

  lemma OneChosen(f: StoreFlow, bit: nat)
    requires f.fields == {bit} && Sound(f)
    ensures Chosen(f) == {bit}
  {
    hide ALL_FIELDS;
    OneWithout(bit, f.agent.af, AGENT_ADDR4, AGENT_ADDR6);
    OneWithout(bit, f.src.af, SRC_ADDR4, SRC_ADDR6);
    OneWithout(bit, f.dst.af, DST_ADDR4, DST_ADDR6);
    OneWithout(bit, f.gateway.af, GATEWAY_ADDR4, GATEWAY_ADDR6);
  }

  lemma OneWithout(bit: nat, af: AddrMatch.Family, four: nat, six: nat)
    requires bit < 32 && four != six && SoundAddr({bit}, af, four, six)
    ensures Without({bit}, af, four, six) == {bit}
  {
  }

  lemma NothingBehind(s: seq<u8>)
    ensures s + [] == s
  {
  }

  /** And with nothing but the checksum. */
  lemma ChecksumLaid(f: StoreFlow)
    ensures {30} <= ALL_FIELDS
    ensures var header := [0x60, 1, 0, 0, 0x40, 0, 0, 0]; Encoded(f, {30}) == header + Be(Checksum(header), 4)
  {
    hide Encoded, Pieces, Lengths, Word, Pow2, Be, Checksum;
    RecordLaid(f, {30});
    OneWord(30, 32);
    PowersAbove();
    WordBytes(0x4000_0000, 0x40, 0, 0, 0);
    OnePiece(f, 30, 19);
    assert [0x60, 1, 0, 0] + [0x40, 0, 0, 0] + [] == [0x60, 1, 0, 0, 0x40, 0, 0, 0];
  }

  /** The fields by their names. */
  lemma NamesLaid()
    ensures [TAG, RECV_TIME, PROTO_FLAGS_TOS] == [0, 1, 2]
    ensures [AGENT_ADDR4, AGENT_ADDR6, SRC_ADDR4, SRC_ADDR6, DST_ADDR4, DST_ADDR6, GATEWAY_ADDR4, GATEWAY_ADDR6] == [3, 4, 5, 6, 7, 8, 9, 10]
    ensures [SRCDST_PORT, PACKETS, OCTETS, IF_INDICES, AGENT_INFO, FLOW_TIMES, AS_INFO, FLOW_ENGINE_INFO] == [11, 12, 13, 14, 15, 16, 17, 18]
    ensures CRC32 == 30 && forall b: nat :: b in ALL_FIELDS <==> b < 19 || b == 30
  {
  }

  // ----- Reading -----

  /** A bit of the field word of a record. */
  ghost predicate InWord(buf: seq<u8>, bit: nat)
    requires |buf| >= 8
  {
    Number(buf[4..8]) / Pow2(bit) % 2 == 1
  }

  lemma {:induction false} BitsFrom(w: nat, k: nat, bit: nat)
    requires k <= bit < 32
    ensures bit in FieldsFrom(w, k) <==> w / Pow2(bit - k) % 2 == 1
    decreases 32 - k
  {
    if k == bit {
      assert Pow2(0) == 1 && w / 1 == w;
    } else {
      hide Pow2;
      BitsFrom(w / 2, k + 1, bit);
      HalfFirst(w, bit - k);
    }
  }

  lemma HalfFirst(w: nat, n: nat)
    requires n > 0
    ensures w / Pow2(n) == w / 2 / Pow2(n - 1)
  {
    var p := Pow2(n - 1);
    var q := w / 2;
    assert q == p * (q / p) + q % p;
    assert 2 * (p * (q / p)) == (2 * p) * (q / p);
    ModUnique(w, 2 * p, q / p, 2 * (q % p) + w % 2);
  }

  lemma HeaderNames(buf: seq<u8>, bit: nat)
    requires |buf| >= 8 && bit < 32
    ensures bit in HeaderFields(buf) <==> InWord(buf, bit)
  {
    hide Get32, Pow2;
    BitsFrom(Get32(buf, 4), 0, bit);
    NumberOf(buf[4..8]);
    SameNumber(buf);
  }

  lemma SameNumber(buf: seq<u8>)
    requires |buf| >= 8
    ensures Get32(buf[4..8], 0) == Get32(buf, 4)
  {
    assert forall i :: 0 <= i < 4 ==> buf[4..8][i] == buf[4 + i];
  }

  /** What was read from a record of the log, for every record that is read without an error:
      the flags are the bits of the field word, and the values of the fields that they name
      are the bytes behind the header, in the order of the bits. */
  lemma ReadLaid(buf: seq<u8>, f: StoreFlow)
    requires Deserialised(buf) == Ok(f)
    ensures |buf| >= 8 && 0x60 <= buf[0] < 0x80
    ensures forall bit :: 0 <= bit < 32 ==> (bit in f.fields <==> InWord(buf, bit))
    ensures 8 + Lengths(f.fields, 19) <= |buf| && Pieces(f, f.fields, 19) == buf[8..8 + Lengths(f.fields, 19)]
  {
    hide ReadFields, Body, BodyLen, Pieces, Lengths, Checksum, BothForms, ALL_FIELDS, InWord, HeaderFields, Get32;
    var fs := HeaderFields(buf);
    forall bit | 0 <= bit < 32 ensures bit in fs <==> InWord(buf, bit) {
      HeaderNames(buf, bit);
    }
    ReadsAsFields(buf, f);
    PiecesAre(f, fs, 19);
    BodyWritesBack(buf, fs, 19);
    BodyOfCrc(ReadFields(buf, fs, 19), f, fs, 19);
  }

  lemma ReadsAsFields(buf: seq<u8>, f: StoreFlow)
    requires Deserialised(buf) == Ok(f)
    ensures |buf| >= 8 && f.fields == HeaderFields(buf) && HEADER + BodyLen(f.fields, 19) <= |buf| && !BothForms(f.fields)
    ensures f == ReadFields(buf, f.fields, 19).(fields := f.fields, crc := f.crc)
    ensures f.fields <= ALL_FIELDS && 30 in f.fields ==>
      var end := HEADER + BodyLen(f.fields, 19); end + 4 <= |buf| && f.crc == Get32(buf, end) == Checksum(buf[..end])
    ensures 30 !in f.fields ==> f.crc == 0
  {
    hide ReadRecord, ReadFields, BodyLen, Checksum, ALL_FIELDS, HeaderFields, Get32, BothForms;
    RecordReads(buf, HeaderFields(buf), Minor(buf) > VERSION_MINOR, f);
  }

  lemma RecordReads(buf: seq<u8>, fs: Fields, mayExtend: bool, f: StoreFlow)
    requires |buf| >= HEADER && ReadRecord(buf, fs, mayExtend) == Ok(f)
    ensures f.fields == fs && HEADER + BodyLen(fs, 19) <= |buf| && !BothForms(fs)
    ensures f == ReadFields(buf, fs, 19).(fields := fs, crc := f.crc)
    ensures fs <= ALL_FIELDS && 30 in fs ==>
      var end := HEADER + BodyLen(fs, 19); end + 4 <= |buf| && f.crc == Get32(buf, end) == Checksum(buf[..end])
    ensures 30 !in fs ==> f.crc == 0
  {
    hide ReadFields, BodyLen, Checksum, ALL_FIELDS, Get32, Checked, BothForms;
    var end := HEADER + BodyLen(fs, 19);
    var g := ReadFields(buf, fs, 19).(fields := fs);
    NoCrcRead(buf, fs, 19);
    if fs <= ALL_FIELDS {
      CheckedIs(buf, g, fs, end, end, f);
    } else {
      KnownAll();
      KeepsForms(fs);
      CheckedIs(buf, g, fs * ALL_FIELDS, end, LenWords(buf) * 4 + HEADER - 4, f);
    }
  }

  lemma CheckedIs(buf: seq<u8>, g: StoreFlow, fs: Fields, end: nat, at: nat, f: StoreFlow)
    ensures end <= |buf| && Checked(buf, g, fs, end, at) == Ok(f) ==>
      && !BothForms(fs) && f == g.(crc := f.crc) && (30 !in fs ==> f.crc == g.crc)
      && (30 in fs ==> at + 4 <= |buf| && f.crc == Get32(buf, at) == Checksum(buf[..end]))
  {
    hide Checksum, Get32, BothForms;
  }

  lemma KnownAll()
    ensures CRC32 in ALL_FIELDS && CRC32 == 30
  {
  }

  lemma KeepsForms(fs: Fields)
    ensures BothForms(fs * ALL_FIELDS) <==> BothForms(fs)
  {
  }

  lemma {:induction false} NoCrcRead(buf: seq<u8>, fs: Fields, n: nat)
    requires n <= BODY_FIELDS
    ensures HEADER + BodyLen(fs, n) <= |buf| ==> ReadFields(buf, fs, n).crc == 0
  {
    hide Size;
    if n > 0 { NoCrcRead(buf, fs, n - 1); }
  }

  /** What the flags do not name is zero, and each address is of the family of its flag. */
  ghost predicate Blanks(f: StoreFlow, fs: Fields) {
    FirstBlanks(f, fs) && MiddleBlanks(f, fs) && LastBlanks(f, fs)
  }

  ghost predicate FirstBlanks(f: StoreFlow, fs: Fields) {
    && (0 !in fs ==> f.tag == 0)
    && (1 !in fs ==> f.recvSec == f.recvUsec == 0)
    && (2 !in fs ==> f.tcpFlags == f.protocol == f.tos == f.pftPad == 0)
  }

  ghost predicate MiddleBlanks(f: StoreFlow, fs: Fields) {
    && (11 !in fs ==> f.srcPort == f.dstPort == 0)
    && (12 !in fs ==> f.packets == 0)
    && (13 !in fs ==> f.octets == 0)
  }

  ghost predicate LastBlanks(f: StoreFlow, fs: Fields) {
    && (14 !in fs ==> f.ifIn == f.ifOut == 0)
    && (15 !in fs ==> f.sysUptimeMs == f.timeSec == f.timeNanosec == 0 && f.netflowVersion == f.agentPad == 0)
    && (16 !in fs ==> f.flowStart == f.flowFinish == 0)
    && (17 !in fs ==> f.srcAs == f.dstAs == 0 && f.srcMask == f.dstMask == 0 && f.asPad == 0)
    && (18 !in fs ==> f.engineType == f.engineId == 0 && f.flowSequence == f.sourceId == 0)
  }

  ghost predicate Addresses(f: StoreFlow, fs: Fields) {
    Address(f.agent, fs, 3) && Address(f.src, fs, 5) && Address(f.dst, fs, 7) && Address(f.gateway, fs, 9)
  }

  ghost predicate Address(a: Raw, fs: Fields, four: nat) {
    && a.scope == 0
    && (four !in fs && four + 1 !in fs ==> a.af.OtherFamily? && a.bytes == ZERO16)
    && (four in fs && four + 1 !in fs ==> a.af.Inet? && a.bytes[4..] == ZERO16[4..])
    && (four + 1 in fs ==> a.af.Inet6?)
  }

  lemma SetKeepsFirst(f: StoreFlow, fs: Fields, bit: nat, s: seq<u8>)
    requires bit < 19 && |s| == Size(bit) && bit in fs && FirstBlanks(f, fs)
    ensures FirstBlanks(SetField(f, bit, s), fs)
  {
    hide Get16, Get32, Get64, Ip4, Ip6;
  }

  lemma SetKeepsMiddle(f: StoreFlow, fs: Fields, bit: nat, s: seq<u8>)
    requires bit < 19 && |s| == Size(bit) && bit in fs && MiddleBlanks(f, fs)
    ensures MiddleBlanks(SetField(f, bit, s), fs)
  {
    hide Get16, Get32, Get64, Ip4, Ip6;
  }

  lemma SetKeepsLast(f: StoreFlow, fs: Fields, bit: nat, s: seq<u8>)
    requires bit < 19 && |s| == Size(bit) && bit in fs && LastBlanks(f, fs)
    ensures LastBlanks(SetField(f, bit, s), fs)
  {
    hide Get16, Get32, Get64, Ip4, Ip6;
  }

  /** The flags below the n-th. */
  lemma SetAddresses(f: StoreFlow, fs: Fields, bit: nat, s: seq<u8>)
    requires bit < 19 && |s| == Size(bit) && bit in fs && Addresses(f, Below(fs, bit))
    ensures Addresses(SetField(f, bit, s), Below(fs, bit + 1))
  {
    hide Get16, Get32, Get64, Address;
    var lo, hi := Below(fs, bit), Below(fs, bit + 1);
    assert hi == lo + {bit};
    var g := SetField(f, bit, s);
    OneAddress(f.agent, g.agent, lo, bit, 3, s);
    OneAddress(f.src, g.src, lo, bit, 5, s);
    OneAddress(f.dst, g.dst, lo, bit, 7, s);
    OneAddress(f.gateway, g.gateway, lo, bit, 9, s);
  }

  lemma OneAddress(a: Raw, b: Raw, lo: Fields, bit: nat, four: nat, s: seq<u8>)
    requires bit < 19 && Address(a, lo, four) && forall x <- lo :: x < bit
    requires bit == four ==> |s| == 4 && b == Ip4(s)
    requires bit == four + 1 ==> |s| == 16 && b == Ip6(s)
    requires bit != four && bit != four + 1 ==> a == b
    ensures Address(b, lo + {bit}, four)
  {
    if bit == four {
      assert four + 1 !in lo;
      assert (s + ZERO16[4..])[4..] == ZERO16[4..];
    }
  }

  lemma {:induction false} ReadsBlanks(buf: seq<u8>, fs: Fields, n: nat)
    requires n <= BODY_FIELDS && HEADER + BodyLen(fs, n) <= |buf|
    ensures Blanks(ReadFields(buf, fs, n), fs) && Addresses(ReadFields(buf, fs, n), Below(fs, n))
  {
    hide SetField, FirstBlanks, MiddleBlanks, LastBlanks, Addresses, Size;
    if n > 0 {
      ReadsBlanks(buf, fs, n - 1);
      if n - 1 in fs {
        var g, part := ReadFields(buf, fs, n - 1), Slice(buf, fs, n - 1);
        SetKeepsFirst(g, fs, n - 1, part);
        SetKeepsMiddle(g, fs, n - 1, part);
        SetKeepsLast(g, fs, n - 1, part);
        SetAddresses(g, fs, n - 1, part);
      } else {
        assert Below(fs, n) == Below(fs, n - 1);
      }
    } else {
      assert Below(fs, 0) == {};
      BlankBlank(fs);
    }
  }

  lemma BlankBlank(fs: Fields)
    ensures Blanks(BLANK, fs) && Addresses(BLANK, {})
  {
  }

  lemma AddressBelow(a: Raw, fs: Fields, four: nat)
    requires four + 1 < 19 && Address(a, Below(fs, 19), four)
    ensures Address(a, fs, four)
  {
    assert four in fs <==> four in Below(fs, 19);
    assert four + 1 in fs <==> four + 1 in Below(fs, 19);
  }

  /** So every value of the record comes from the bytes, is the checksum behind them, or is
      zero. */
  lemma RestBlank(buf: seq<u8>, f: StoreFlow)
    requires Deserialised(buf) == Ok(f)
    ensures Blanks(f, f.fields) && Addresses(f, f.fields)
    ensures |buf| >= 8 && (30 !in f.fields ==> f.crc == 0)
    ensures f.fields <= ALL_FIELDS && 30 in f.fields ==>
      var end := 8 + Lengths(f.fields, 19); end + 4 <= |buf| && Be(f.crc, 4) == buf[end..end + 4]
  {
    hide ReadFields, BodyLen, Lengths, Checksum, ALL_FIELDS, HeaderFields, Get32, Put32, BothForms, Blanks, Address;
    var fs := f.fields;
    ReadsAsFields(buf, f);
    ReadsBlanks(buf, fs, 19);
    BlanksSame(ReadFields(buf, fs, 19), f, fs);
    AddressBelow(f.agent, fs, 3);
    AddressBelow(f.src, fs, 5);
    AddressBelow(f.dst, fs, 7);
    AddressBelow(f.gateway, fs, 9);
    PiecesAre(f, fs, 19);
    if fs <= ALL_FIELDS && 30 in fs {
      var end := HEADER + BodyLen(fs, 19);
      PutGet32(buf, end);
      Be32(f.crc);
    }
  }

  lemma BlanksSame(f: StoreFlow, g: StoreFlow, fs: Fields)
    requires g == f.(fields := g.fields, crc := g.crc)
    ensures Blanks(f, fs) ==> Blanks(g, fs)
  {
  }

  // ----- Version 2 -----

  const LENGTHS2: seq<nat> := [4, 4, 4, 4, 16, 4, 16, 4, 16, 4, 16, 4, 8, 8, 4, 16, 8, 8, 8]

  function Lengths2(fs: Fields, n: nat): nat
    requires n <= 19
  {
    if n == 0 then 0 else Lengths2(fs, n - 1) + (if n - 1 in fs then LENGTHS2[n - 1] else 0)
  }

  lemma {:induction false} Lengths2Are(fs: Fields, n: nat)
    requires n <= 19
    ensures V2.BodyLen2(fs, n) == Lengths2(fs, n)
  {
    if n > 0 { Lengths2Are(fs, n - 1); }
  }

  /** A field of a version 2 record as version 3 has it, by its bit: the time of arrival has
      no microseconds, the interfaces and the systems have two bytes each, the engine's type
      and number one, and there is no source. */
  function Wide(bit: nat, s: seq<u8>): seq<u8>
    requires bit < 19 && |s| == LENGTHS2[bit]
  {
    match bit
    case 1 => s + [0, 0, 0, 0]
    case 14 => [0, 0, s[0], s[1], 0, 0, s[2], s[3]]
    case 17 => [0, 0, s[0], s[1], 0, 0, s[2], s[3], s[4], s[5], s[6], s[7]]
    case 18 => [0, s[0], 0, s[1], s[4], s[5], s[6], s[7], 0, 0, 0, 0]
    case _ => s
  }

  lemma WideIs(bit: nat, s: seq<u8>)
    requires bit < 19 && |s| == LENGTHS2[bit]
    ensures V2.Size2(bit) == LENGTHS2[bit] && V2.Widen(bit, s) == Wide(bit, s)
  {
    if bit == 14 {
      assert s[..2] == [s[0], s[1]] && s[2..] == [s[2], s[3]];
    } else if bit == 17 {
      assert s[..2] == [s[0], s[1]] && s[2..] == [s[2], s[3], s[4], s[5], s[6], s[7]];
    } else if bit == 18 {
      assert s[4..] == [s[4], s[5], s[6], s[7]];
    }
  }

  lemma {:induction false} WidePieces(buf: seq<u8>, f: StoreFlow, fs: Fields, bit: nat, n: nat)
    requires bit < n <= 19 && bit in fs && V2.HEADER2 + V2.BodyLen2(fs, n) <= |buf|
    requires Body(f, fs, n) == V2.WideBody(buf, fs, n)
    ensures V2.HEADER2 + V2.BodyLen2(fs, bit + 1) <= |buf| && FieldBytes(f, bit) == V2.Widen(bit, V2.Slice2(buf, fs, bit))
  {
    hide FieldBytes, Size, V2.Size2, V2.Widen;
    var b, w := Body(f, fs, n), V2.WideBody(buf, fs, n);
    assert b[..BodyLen(fs, n - 1)] == Body(f, fs, n - 1) && w[..BodyLen(fs, n - 1)] == V2.WideBody(buf, fs, n - 1);
    if bit == n - 1 {
      assert b[BodyLen(fs, bit)..] == FieldBytes(f, bit) && w[BodyLen(fs, bit)..] == V2.Widen(bit, V2.Slice2(buf, fs, bit));
    } else {
      WidePieces(buf, f, fs, bit, n - 1);
    }
  }

  lemma Flags2Laid(buf: seq<u8>, bit: nat)
    requires |buf| >= 4 && bit < 32
    ensures bit in FieldsOf(Get32(buf, 0)) <==> Number(buf[0..4]) / Pow2(bit) % 2 == 1
  {
    hide Get32, Pow2;
    BitsFrom(Get32(buf, 0), 0, bit);
    NumberOf(buf[0..4]);
    SameFirst(buf);
  }

  lemma Slice2Laid(buf: seq<u8>, fs: Fields, bit: nat)
    requires bit < 19 && bit in fs && V2.HEADER2 + V2.BodyLen2(fs, bit + 1) <= |buf|
    ensures var at := 4 + Lengths2(fs, bit); at + LENGTHS2[bit] <= |buf| && V2.Slice2(buf, fs, bit) == buf[at..at + LENGTHS2[bit]]
  {
    hide V2.BodyLen2;
    Lengths2Are(fs, bit);
    Lengths2Are(fs, bit + 1);
  }

  lemma Piece2Laid(buf: seq<u8>, fs: Fields, f: StoreFlow, bit: nat)
    requires bit < 19 && bit in fs && V2.HEADER2 + V2.BodyLen2(fs, 19) <= |buf| && Body(f, fs, 19) == V2.WideBody(buf, fs, 19)
    ensures var at := 4 + Lengths2(fs, bit); at + LENGTHS2[bit] <= |buf| && Piece(f, bit) == Wide(bit, buf[at..at + LENGTHS2[bit]])
  {
    hide FieldBytes, Piece, Size, Body, BodyLen, V2.BodyLen2, V2.Size2, V2.Widen, V2.WideBody, V2.Slice2, Wide, Lengths2;
    WidePieces(buf, f, fs, bit, 19);
    PieceIs(f, bit);
    Slice2Laid(buf, fs, bit);
    SizeIs2(bit);
    WideIs(bit, V2.Slice2(buf, fs, bit));
  }

  /** What was read from a record of version 2 and converted, for every record that is read
      without an error: the word of the flags comes first, and the fields that it names
      follow it in the order of their bits. */
  lemma Read2Laid(buf: seq<u8>, bit: nat)
    requires |buf| >= 4 && V2.Deserialised2(buf).Ok? && bit < 19
    ensures var g := V2.Deserialised2(buf).value; bit in g.fields <==> Number(buf[0..4]) / Pow2(bit) % 2 == 1
    ensures var g := V2.Deserialised2(buf).value; var at := 4 + Lengths2(g.fields, bit);
      bit in g.fields ==> at + LENGTHS2[bit] <= |buf| && Piece(V2.Converted(g), bit) == Wide(bit, buf[at..at + LENGTHS2[bit]])
  {
    hide Piece, Size, Body, BodyLen, Encoded, Deserialised, Sound, Chosen, Covered, Checksum, Get32, Pow2, ALL_FIELDS, Number, FieldsOf;
    hide V2.Converted, V2.Deserialised2, V2.Widen, V2.WideBody, Wide, Lengths2, LENGTHS2;
    V2.UpgradeKeeps(buf);
    var g := V2.Deserialised2(buf).value;
    Flags2Laid(buf, bit);
    if bit in g.fields { Piece2Laid(buf, g.fields, V2.Converted(g), bit); }
  }

  lemma SizeIs2(bit: nat)
    requires bit < 19
    ensures V2.Size2(bit) == LENGTHS2[bit]
  {
  }

  lemma SameFirst(buf: seq<u8>)
    requires |buf| >= 4
    ensures Get32(buf[0..4], 0) == Get32(buf, 0)
  {
    assert forall i :: 0 <= i < 4 ==> buf[0..4][i] == buf[i];
  }

  // ----- What is refused -----

  /** The flags of a field word. */
  ghost function Flags(word: seq<u8>): (fs: Fields)
    requires |word| == 4
    ensures forall bit: nat :: bit in fs <==> bit < 32 && Number(word) / Pow2(bit) % 2 == 1
  {
    set bit: nat | bit < 32 && Number(word) / Pow2(bit) % 2 == 1
  }

  ghost predicate Known(fs: Fields) {
    forall b <- fs :: b < 19 || b == 30
  }

  /** Both forms of an address at once. */
  ghost predicate Twofold(fs: Fields) {
    (3 in fs && 4 in fs) || (5 in fs && 6 in fs) || (7 in fs && 8 in fs) || (9 in fs && 10 in fs)
  }

  lemma KnownIs(fs: Fields)
    ensures fs <= ALL_FIELDS <==> Known(fs)
    ensures BothForms(fs) <==> Twofold(fs)
  {
  }

  lemma Flags2(buf: seq<u8>)
    requires |buf| >= 4
    ensures FieldsOf(Get32(buf, 0)) == Flags(buf[0..4])
  {
    hide Get32, Pow2, Number, FieldsOf;
    var fs := FieldsOf(Get32(buf, 0));
    forall bit: nat ensures bit in fs <==> bit in Flags(buf[0..4]) {
      if bit < 32 { Flags2Laid(buf, bit); }
    }
  }

  lemma Flags3(buf: seq<u8>)
    requires |buf| >= 8
    ensures HeaderFields(buf) == Flags(buf[4..8])
  {
    hide Get32, Pow2, Number, HeaderFields;
    var fs := HeaderFields(buf);
    forall bit: nat ensures bit in fs <==> bit in Flags(buf[4..8]) {
      if bit < 32 { HeaderNames(buf, bit); }
    }
  }

  /** The number at a place of a buffer is that of the four bytes there. */
  lemma NumberAt(buf: seq<u8>, i: nat)
    requires i + 4 <= |buf|
    ensures Get32(buf, i) == Number(buf[i..i + 4])
  {
    var part := buf[i..i + 4];
    NumberOf(part);
    assert part[0] == buf[i] && part[1] == buf[i + 1] && part[2] == buf[i + 2] && part[3] == buf[i + 3];
  }

  /** How a buffer of version 2 is read, for every buffer with a word of flags: unknown flags
      are refused first, then a buffer too short for the fields and the checksum, then two
      forms of one address, and then a wrong checksum. */
  lemma Outcome2(buf: seq<u8>)
    requires |buf| >= 4
    ensures var r, fs := V2.Deserialised2(buf), Flags(buf[0..4]);
            var end := 4 + Lengths2(fs, 19);
      if !Known(fs) then r == Err(FlowInvalid)
      else if |buf| < end + (if 30 in fs then 4 else 0) then r == Err(BufferSize)
      else if Twofold(fs) then r == Err(Other)
      else if 30 in fs && Checksum(buf[..end]) != Number(buf[end..end + 4]) then r == Err(CrcMismatch)
      else r.Ok? && r.value.fields == fs
  {
    hide V2.ReadFields2, V2.BodyLen2, Get32, Number, Lengths2, Checksum, FieldsOf, BothForms, ALL_FIELDS, Known, Twofold, Flags;
    var fs := Flags(buf[0..4]);
    Flags2(buf);
    KnownIs(fs);
    Lengths2Are(fs, 19);
    var end := 4 + Lengths2(fs, 19);
    if 30 in fs && end + 4 <= |buf| { NumberAt(buf, end); }
  }

  /** Where the fields of a version 3 record end, and with the checksum. */
  ghost function FieldsEnd(buf: seq<u8>): nat
    requires |buf| >= 8
  {
    8 + Lengths(Flags(buf[4..8]), 19)
  }

  ghost function RecordEnd(buf: seq<u8>): nat
    requires |buf| >= 8
  {
    FieldsEnd(buf) + if 30 in Flags(buf[4..8]) then 4 else 0
  }

  lemma NoHeader(buf: seq<u8>)
    requires |buf| < 8
    ensures Deserialised(buf) == Err(BufferSize)
  {
  }

  /** And one of version 3, as far as its flags are known: another major version, a buffer
      shorter than the header says, a read beyond the buffer where the flags say more than
      the header, two forms of one address, and a wrong checksum. */
  lemma Outcome3(buf: seq<u8>)
    requires |buf| >= 8 && Known(Flags(buf[4..8]))
    ensures var r, end := Deserialised(buf), FieldsEnd(buf);
      if buf[0] < 0x60 || buf[0] >= 0x80 then r == Err(UnsupVersion)
      else if |buf| < 8 + 4 * (buf[1] as int) then r == Err(BufferSize)
      else if |buf| < RecordEnd(buf) then r == Fault
      else if Twofold(Flags(buf[4..8])) then r == Err(Other)
      else if 30 in Flags(buf[4..8]) && Checksum(buf[..end]) != Number(buf[end..end + 4]) then r == Err(CrcMismatch)
      else r.Ok? && r.value.fields == Flags(buf[4..8])
  {
    hide ReadFields, BodyLen, Get32, Number, Lengths, Checksum, HeaderFields, BothForms, ALL_FIELDS, Known, Twofold, Flags, Checked;
    var fs := Flags(buf[4..8]);
    Flags3(buf);
    KnownIs(fs);
    PiecesAre(BLANK, fs, 19);
    var end := FieldsEnd(buf);
    if end <= |buf| { CheckedExactly(buf, ReadFields(buf, fs, 19).(fields := fs), fs, end, end); }
  }

  /** With flags that are not known: only a later minor version may have them, and its
      checksum is read from the last word that the header counts. */
  lemma OutcomeUnknown(buf: seq<u8>)
    requires |buf| >= 8 && !Known(Flags(buf[4..8])) && 0x60 <= buf[0] < 0x80 && |buf| >= 8 + 4 * (buf[1] as int)
    ensures var r, end, at := Deserialised(buf), FieldsEnd(buf), 4 + 4 * (buf[1] as int);
      if |buf| < end then r == Fault
      else if buf[0] == 0x60 then r == Err(Other)
      else if Twofold(Flags(buf[4..8])) then r == Err(Other)
      else if 30 in Flags(buf[4..8]) && Checksum(buf[..end]) != Number(buf[at..at + 4]) then r == Err(CrcMismatch)
      else r.Ok? && r.value.fields == Flags(buf[4..8])
  {
    hide Get32, Number, Lengths, Checksum, HeaderFields, BothForms, ALL_FIELDS, Known, Twofold, Flags, Checked, Deserialised, ReadRecord;
    var fs := Flags(buf[4..8]);
    Flags3(buf);
    HeaderGood(buf);
    var g := UnknownRead(buf, fs, buf[0] != 0x60);
    var end := FieldsEnd(buf);
    if end <= |buf| {
      KnownAll();
      KnownIs(fs);
      KnownIs(fs * ALL_FIELDS);
      KeepsForms(fs);
      CheckedExactly(buf, g, fs * ALL_FIELDS, end, 4 + 4 * (buf[1] as int));
    }
  }

  lemma HeaderGood(buf: seq<u8>)
    requires |buf| >= 8 && 0x60 <= buf[0] < 0x80 && |buf| >= 8 + 4 * (buf[1] as int)
    ensures Deserialised(buf) == ReadRecord(buf, HeaderFields(buf), buf[0] != 0x60)
  {
    hide ReadRecord, HeaderFields;
  }

  lemma UnknownRead(buf: seq<u8>, fs: Fields, mayExtend: bool) returns (g: StoreFlow)
    requires |buf| >= 8 && !Known(fs)
    ensures g.fields == fs
    ensures var end := 8 + Lengths(fs, 19);
      ReadRecord(buf, fs, mayExtend) ==
        if end > |buf| then Fault else if !mayExtend then Err(Other)
        else Checked(buf, g, fs * ALL_FIELDS, end, 4 + 4 * (buf[1] as int))
  {
    hide ReadFields, BodyLen, Lengths, ALL_FIELDS, Known, Checked;
    KnownIs(fs);
    PiecesAre(BLANK, fs, 19);
    g := BLANK.(fields := fs);
    if 8 + Lengths(fs, 19) <= |buf| { g := ReadFields(buf, fs, 19).(fields := fs); }
  }

  lemma CheckedExactly(buf: seq<u8>, f: StoreFlow, fs: Fields, end: nat, at: nat)
    requires end <= |buf|
    ensures Checked(buf, f, fs, end, at) ==
      if 30 in fs && |buf| < at + 4 then Fault
      else if Twofold(fs) then Err(Other)
      else if 30 in fs && Checksum(buf[..end]) != Number(buf[at..at + 4]) then Err(CrcMismatch)
      else Ok(if 30 in fs then f.(crc := Number(buf[at..at + 4])) else f)
  {
    hide Get32, Number, Checksum, BothForms, Twofold;
    KnownIs(fs);
    if 30 in fs && at + 4 <= |buf| { NumberAt(buf, at); }
  }
}
