/** The checksum of flow records (flowd/crc32.c): the table-driven form against division by
    the generator polynomial of IEEE 802.3, section 3.2.9. The register starts at zero and
    is not inverted at the end. */
module Crc32 {
  import opened Bits
  import opened Bytes

  /** crc32tab, sixteen entries to a row. */
  const ROW0: seq<bv32> := [
    0x00000000, 0x77073096, 0xee0e612c, 0x990951ba, 0x076dc419, 0x706af48f, 0xe963a535, 0x9e6495a3,
    0x0edb8832, 0x79dcb8a4, 0xe0d5e91e, 0x97d2d988, 0x09b64c2b, 0x7eb17cbd, 0xe7b82d07, 0x90bf1d91]
  const ROW1: seq<bv32> := [
    0x1db71064, 0x6ab020f2, 0xf3b97148, 0x84be41de, 0x1adad47d, 0x6ddde4eb, 0xf4d4b551, 0x83d385c7,
    0x136c9856, 0x646ba8c0, 0xfd62f97a, 0x8a65c9ec, 0x14015c4f, 0x63066cd9, 0xfa0f3d63, 0x8d080df5]
  const ROW2: seq<bv32> := [
    0x3b6e20c8, 0x4c69105e, 0xd56041e4, 0xa2677172, 0x3c03e4d1, 0x4b04d447, 0xd20d85fd, 0xa50ab56b,
    0x35b5a8fa, 0x42b2986c, 0xdbbbc9d6, 0xacbcf940, 0x32d86ce3, 0x45df5c75, 0xdcd60dcf, 0xabd13d59]
  const ROW3: seq<bv32> := [
    0x26d930ac, 0x51de003a, 0xc8d75180, 0xbfd06116, 0x21b4f4b5, 0x56b3c423, 0xcfba9599, 0xb8bda50f,
    0x2802b89e, 0x5f058808, 0xc60cd9b2, 0xb10be924, 0x2f6f7c87, 0x58684c11, 0xc1611dab, 0xb6662d3d]
  const ROW4: seq<bv32> := [
    0x76dc4190, 0x01db7106, 0x98d220bc, 0xefd5102a, 0x71b18589, 0x06b6b51f, 0x9fbfe4a5, 0xe8b8d433,
    0x7807c9a2, 0x0f00f934, 0x9609a88e, 0xe10e9818, 0x7f6a0dbb, 0x086d3d2d, 0x91646c97, 0xe6635c01]
  const ROW5: seq<bv32> := [
    0x6b6b51f4, 0x1c6c6162, 0x856530d8, 0xf262004e, 0x6c0695ed, 0x1b01a57b, 0x8208f4c1, 0xf50fc457,
    0x65b0d9c6, 0x12b7e950, 0x8bbeb8ea, 0xfcb9887c, 0x62dd1ddf, 0x15da2d49, 0x8cd37cf3, 0xfbd44c65]
  const ROW6: seq<bv32> := [
    0x4db26158, 0x3ab551ce, 0xa3bc0074, 0xd4bb30e2, 0x4adfa541, 0x3dd895d7, 0xa4d1c46d, 0xd3d6f4fb,
    0x4369e96a, 0x346ed9fc, 0xad678846, 0xda60b8d0, 0x44042d73, 0x33031de5, 0xaa0a4c5f, 0xdd0d7cc9]
  const ROW7: seq<bv32> := [
    0x5005713c, 0x270241aa, 0xbe0b1010, 0xc90c2086, 0x5768b525, 0x206f85b3, 0xb966d409, 0xce61e49f,
    0x5edef90e, 0x29d9c998, 0xb0d09822, 0xc7d7a8b4, 0x59b33d17, 0x2eb40d81, 0xb7bd5c3b, 0xc0ba6cad]
  const ROW8: seq<bv32> := [
    0xedb88320, 0x9abfb3b6, 0x03b6e20c, 0x74b1d29a, 0xead54739, 0x9dd277af, 0x04db2615, 0x73dc1683,
    0xe3630b12, 0x94643b84, 0x0d6d6a3e, 0x7a6a5aa8, 0xe40ecf0b, 0x9309ff9d, 0x0a00ae27, 0x7d079eb1]
  const ROW9: seq<bv32> := [
    0xf00f9344, 0x8708a3d2, 0x1e01f268, 0x6906c2fe, 0xf762575d, 0x806567cb, 0x196c3671, 0x6e6b06e7,
    0xfed41b76, 0x89d32be0, 0x10da7a5a, 0x67dd4acc, 0xf9b9df6f, 0x8ebeeff9, 0x17b7be43, 0x60b08ed5]
  const ROW10: seq<bv32> := [
    0xd6d6a3e8, 0xa1d1937e, 0x38d8c2c4, 0x4fdff252, 0xd1bb67f1, 0xa6bc5767, 0x3fb506dd, 0x48b2364b,
    0xd80d2bda, 0xaf0a1b4c, 0x36034af6, 0x41047a60, 0xdf60efc3, 0xa867df55, 0x316e8eef, 0x4669be79]
  const ROW11: seq<bv32> := [
    0xcb61b38c, 0xbc66831a, 0x256fd2a0, 0x5268e236, 0xcc0c7795, 0xbb0b4703, 0x220216b9, 0x5505262f,
    0xc5ba3bbe, 0xb2bd0b28, 0x2bb45a92, 0x5cb36a04, 0xc2d7ffa7, 0xb5d0cf31, 0x2cd99e8b, 0x5bdeae1d]
  const ROW12: seq<bv32> := [
    0x9b64c2b0, 0xec63f226, 0x756aa39c, 0x026d930a, 0x9c0906a9, 0xeb0e363f, 0x72076785, 0x05005713,
    0x95bf4a82, 0xe2b87a14, 0x7bb12bae, 0x0cb61b38, 0x92d28e9b, 0xe5d5be0d, 0x7cdcefb7, 0x0bdbdf21]
  const ROW13: seq<bv32> := [
    0x86d3d2d4, 0xf1d4e242, 0x68ddb3f8, 0x1fda836e, 0x81be16cd, 0xf6b9265b, 0x6fb077e1, 0x18b74777,
    0x88085ae6, 0xff0f6a70, 0x66063bca, 0x11010b5c, 0x8f659eff, 0xf862ae69, 0x616bffd3, 0x166ccf45]
  const ROW14: seq<bv32> := [
    0xa00ae278, 0xd70dd2ee, 0x4e048354, 0x3903b3c2, 0xa7672661, 0xd06016f7, 0x4969474d, 0x3e6e77db,
    0xaed16a4a, 0xd9d65adc, 0x40df0b66, 0x37d83bf0, 0xa9bcae53, 0xdebb9ec5, 0x47b2cf7f, 0x30b5ffe9]
  const ROW15: seq<bv32> := [
    0xbdbdf21c, 0xcabac28a, 0x53b39330, 0x24b4a3a6, 0xbad03605, 0xcdd70693, 0x54de5729, 0x23d967bf,
    0xb3667a2e, 0xc4614ab8, 0x5d681b02, 0x2a6f2b94, 0xb40bbe37, 0xc30c8ea1, 0x5a05df1b, 0x2d02ef8d]

  const ROWS: seq<seq<bv32>> :=
    [ROW0, ROW1, ROW2, ROW3, ROW4, ROW5, ROW6, ROW7, ROW8, ROW9, ROW10, ROW11, ROW12, ROW13, ROW14, ROW15]

  function Table(i: nat): bv32
    requires i < 256
  {
    ROWS[i / 16][i % 16]
  }

  const POLY: bv32 := 0xEDB88320

  function Xor(a: bv32, b: bv32): bv32 {
    a ^ b
  }

  lemma XorLaws(a: bv32, b: bv32, c: bv32)
    ensures Xor(Xor(a, b), c) == Xor(a, Xor(b, c))
    ensures Xor(a, b) == Xor(b, a)
    ensures Xor(a, a) == 0 && Xor(a, 0) == a
  {
  }

  lemma XorFour(a: bv32, b: bv32, c: bv32, d: bv32)
    ensures Xor(Xor(a, b), Xor(c, d)) == Xor(Xor(a, c), Xor(b, d))
  {
    hide Xor;
    XorLaws(a, b, Xor(c, d));
    XorLaws(b, c, d);
    XorLaws(c, b, d);
    XorLaws(a, c, Xor(b, d));
  }

  /** Equal sums with one and the same register. */
  lemma XorCancel(a: bv32, b: bv32)
    ensures Xor(a, b) == 0 <==> a == b
  {
  }

  function One(b: bool): bv32 {
    if b then 1 else 0
  }

  function Up(a: bv32): bv32 {
    a << 1
  }

  lemma UpXor(a: bv32, b: bv32)
    ensures Up(Xor(a, b)) == Xor(Up(a), Up(b))
  {
  }

  function Half(c: bv32): bv32 {
    c >> 1
  }

  predicate Odd(c: bv32) {
    c & 1 == 1
  }

  // ----- Registers, bytes and their bits, lowest bit first -----

  function BitsOf(c: bv32, n: nat): (s: seq<bool>)
    ensures |s| == n
  {
    if n == 0 then [] else [Odd(c)] + BitsOf(Half(c), n - 1)
  }

  /** The bits of a number. */
  function Digits(b: nat, n: nat): (s: seq<bool>)
    ensures |s| == n
  {
    if n == 0 then [] else [b % 2 == 1] + Digits(b / 2, n - 1)
  }

  /** The register whose low n bits are those of a number, and the number that the low n
      bits of a register hold. */
  function Register(b: nat, n: nat): bv32 {
    if n == 0 then 0 else Xor(One(b % 2 == 1), Up(Register(b / 2, n - 1)))
  }

  function Value(c: bv32, n: nat): (v: nat)
    ensures v < Pow2(n)
  {
    if n == 0 then 0 else (if c & 1 == 1 then 1 else 0) + 2 * Value(c >> 1, n - 1)
  }

  // ----- One bit, and n bits -----

  /** One step of the register for a zero bit. */
  function BitStep(c: bv32): bv32 {
    if c & 1 == 1 then (c >> 1) ^ POLY else c >> 1
  }

  function Steps(c: bv32, n: nat): bv32
    decreases n
  {
    if n == 0 then c else Steps(BitStep(c), n - 1)
  }

  lemma XorShift(a: bv32, b: bv32)
    ensures (a ^ b) >> 1 == (a >> 1) ^ (b >> 1)
  {
  }

  lemma XorLow(a: bv32, b: bv32)
    ensures (a ^ b) & 1 == 1 <==> ((a & 1 == 1) != (b & 1 == 1))
  {
  }

  lemma XorSwap(a: bv32, b: bv32, c: bv32)
    ensures (a ^ b) ^ c == (a ^ c) ^ b && a ^ (b ^ c) == (a ^ b) ^ c && (a ^ b) ^ b == a
  {
  }

  lemma BitStepXor(a: bv32, b: bv32)
    ensures BitStep(a ^ b) == BitStep(a) ^ BitStep(b)
  {
    XorShift(a, b);
    XorLow(a, b);
    XorSwap(a >> 1, b >> 1, POLY);
    XorSwap(a >> 1, POLY, b >> 1);
    XorSwap((a >> 1) ^ (b >> 1), POLY, POLY);
    XorSwap((a >> 1) ^ POLY, b >> 1, POLY);
  }

  lemma BitStepLinear(a: bv32, b: bv32)
    ensures BitStep(Xor(a, b)) == Xor(BitStep(a), BitStep(b))
  {
    hide BitStep;
    BitStepXor(a, b);
  }

  lemma {:induction false} StepsLinear(a: bv32, b: bv32, n: nat)
    ensures Steps(Xor(a, b), n) == Xor(Steps(a, n), Steps(b, n))
    decreases n
  {
    hide BitStep, Xor;
    if n > 0 {
      BitStepLinear(a, b);
      StepsLinear(BitStep(a), BitStep(b), n - 1);
    }
  }

  lemma {:induction false} StepsZero(c: bv32, n: nat)
    ensures Steps(c, n) == 0 <==> c == 0
    decreases n
  {
    if n > 0 {
      StepsZero(BitStep(c), n - 1);
    }
  }

  /** Low zero bits only shift the rest. */
  lemma ShiftStep(b: bv32)
    requires b <= 0x7FFFFFFF
    ensures BitStep(b << 1) == b
  {
  }

  // ----- Messages -----

  /** The bits of a message in the order of transmission. */
  function MessageBits(s: seq<u8>): (r: seq<bool>)
    ensures |r| == 8 * |s|
  {
    if s == [] then [] else MessageBits(s[..|s| - 1]) + Digits(s[|s| - 1], 8)
  }

  /** The register after one byte, eight bit steps at a time, and after a message. */
  function ByteStep(c: bv32, b: u8): bv32 {
    Steps(Xor(c, Register(b, 8)), 8)
  }

  function Crc(c: bv32, s: seq<u8>): bv32 {
    if s == [] then c else ByteStep(Crc(c, s[..|s| - 1]), s[|s| - 1])
  }

  // ----- The table -----

  function Eight(c: bv32): bv32 {
    BitStep(BitStep(BitStep(BitStep(BitStep(BitStep(BitStep(BitStep(c))))))))
  }

  /** A row begins with the entry for its base, and the rest of it is that of the first row
      shifted by its head. */
  ghost predicate Headed(row: seq<bv32>, h: nat) {
    h < 16 && |row| == 16 && row[0] == Eight(Upper(h))
  }

  ghost predicate FirstRow(k: nat) {
    k < 16 && ROW0[k] == Eight(Four(k))
  }

  ghost predicate Entry(row: seq<bv32>, k: nat) {
    k < 16 && |row| == 16 && row[k] == Xor(row[0], ROW0[k])
  }

  ghost predicate Spread(row: seq<bv32>) {
    && Entry(row, 0) && Entry(row, 1) && Entry(row, 2) && Entry(row, 3)
    && Entry(row, 4) && Entry(row, 5) && Entry(row, 6) && Entry(row, 7)
    && Entry(row, 8) && Entry(row, 9) && Entry(row, 10) && Entry(row, 11)
    && Entry(row, 12) && Entry(row, 13) && Entry(row, 14) && Entry(row, 15)
  }

  lemma Zero()
    ensures Headed(ROW0, 0) && FirstRow(0)
  {
    assert BitStep(0) == 0;
  }

  lemma HeadsA()
    ensures Headed(ROW1, 1) && Headed(ROW2, 2) && Headed(ROW3, 3)
  {
  }

  lemma HeadsM()
    ensures Headed(ROW4, 4) && Headed(ROW5, 5) && Headed(ROW6, 6) && Headed(ROW7, 7)
  {
  }

  lemma HeadsB()
    ensures Headed(ROW8, 8) && Headed(ROW9, 9) && Headed(ROW10, 10) && Headed(ROW11, 11)
  {
  }

  lemma HeadsT()
    ensures Headed(ROW12, 12) && Headed(ROW13, 13) && Headed(ROW14, 14) && Headed(ROW15, 15)
  {
  }

  lemma FirstA()
    ensures FirstRow(1) && FirstRow(2) && FirstRow(3)
  {
  }

  lemma FirstM()
    ensures FirstRow(4) && FirstRow(5) && FirstRow(6) && FirstRow(7)
  {
  }

  lemma FirstB()
    ensures FirstRow(8) && FirstRow(9) && FirstRow(10) && FirstRow(11)
  {
  }

  lemma FirstT()
    ensures FirstRow(12) && FirstRow(13) && FirstRow(14) && FirstRow(15)
  {
  }

  lemma Spread0()
    ensures Spread(ROW0) && Spread(ROW1)
  {
  }

  lemma Spread2()
    ensures Spread(ROW2) && Spread(ROW3)
  {
  }

  lemma Spread4()
    ensures Spread(ROW4) && Spread(ROW5)
  {
  }

  lemma Spread6()
    ensures Spread(ROW6) && Spread(ROW7)
  {
  }

  lemma Spread8()
    ensures Spread(ROW8) && Spread(ROW9)
  {
  }

  lemma Spread10()
    ensures Spread(ROW10) && Spread(ROW11)
  {
  }

  lemma Spread12()
    ensures Spread(ROW12) && Spread(ROW13)
  {
  }

  lemma Spread14()
    ensures Spread(ROW14) && Spread(ROW15)
  {
  }

  /** The number that the low four bits hold. */
  function Low(v: bv32): (n: nat)
    ensures n < 16
  {
    (if v & 1 == 1 then 1 else 0) + (if v & 2 == 2 then 2 else 0) + (if v & 4 == 4 then 4 else 0) + (if v & 8 == 8 then 8 else 0)
  }

  lemma LowIs(v: bv32)
    ensures Value(v, 4) == Low(v) && Value(v, 8) == Low(v) + 16 * Low(v >> 4)
  {
    Nibble(v, 0);
    Nibble(v, 4);
    Nibble(v >> 4, 0);
  }

  lemma Nibble(v: bv32, n: nat)
    ensures Value(v, n + 4) == Low(v) + 16 * Value(v >> 4, n)
  {
    assert (v >> 1) >> 1 == v >> 2 && (v >> 2) >> 1 == v >> 3 && (v >> 3) >> 1 == v >> 4;
    assert (v >> 1) & 1 == 1 <==> v & 2 == 2;
    assert (v >> 2) & 1 == 1 <==> v & 4 == 4;
    assert (v >> 3) & 1 == 1 <==> v & 8 == 8;
    assert Value(v, n + 4) == (if v & 1 == 1 then 1 else 0) + 2 * Value(v >> 1, n + 3);
    assert Value(v >> 1, n + 3) == (if v & 2 == 2 then 1 else 0) + 2 * Value(v >> 2, n + 2);
    assert Value(v >> 2, n + 2) == (if v & 4 == 4 then 1 else 0) + 2 * Value(v >> 3, n + 1);
    assert Value(v >> 3, n + 1) == (if v & 8 == 8 then 1 else 0) + 2 * Value(v >> 4, n);
  }

  function Four(k: nat): bv32
    requires k < 16
  {
    if k == 0 then 0 else if k == 1 then 1 else if k == 2 then 2 else if k == 3 then 3
    else if k == 4 then 4 else if k == 5 then 5 else if k == 6 then 6 else if k == 7 then 7
    else if k == 8 then 8 else if k == 9 then 9 else if k == 10 then 10 else if k == 11 then 11
    else if k == 12 then 12 else if k == 13 then 13 else if k == 14 then 14 else 15
  }

  /** The register with k in its second four bits. */
  function Upper(k: nat): bv32
    requires k < 16
  {
    Four(k) << 4
  }

  lemma LowValue(v: bv32)
    ensures v & 15 == Four(Low(v))
  {
  }

  lemma FirstAt(k: nat)
    requires k < 16
    ensures FirstRow(k)
  {
    hide FirstRow, Headed;
    Zero();
    FirstA();
    FirstM();
    FirstB();
    FirstT();
  }

  lemma HeadAt(h: nat)
    requires h < 16
    ensures Headed(ROWS[h], h)
  {
    hide FirstRow, Headed, ROW0, ROW1, ROW2, ROW3, ROW4, ROW5, ROW6, ROW7, ROW8, ROW9, ROW10, ROW11, ROW12, ROW13, ROW14, ROW15;
    Zero();
    HeadsA();
    HeadsM();
    HeadsB();
    HeadsT();
  }

  lemma SpreadAt(h: nat)
    requires h < 16
    ensures Spread(ROWS[h])
  {
    hide Spread, ROW0, ROW1, ROW2, ROW3, ROW4, ROW5, ROW6, ROW7, ROW8, ROW9, ROW10, ROW11, ROW12, ROW13, ROW14, ROW15;
    Spread0();
    Spread2();
    Spread4();
    Spread6();
    Spread8();
    Spread10();
    Spread12();
    Spread14();
  }

  lemma SpreadEntry(row: seq<bv32>, k: nat)
    requires Spread(row) && k < 16
    ensures Entry(row, k)
  {
    hide Entry;
  }

  lemma FourParts(v: bv32)
    requires v <= 0xFF
    ensures v == Xor(Upper(Low(v >> 4)), Four(Low(v)))
  {
    hide Four, Low;
    LowValue(v);
    LowValue(v >> 4);
  }

  lemma EightIs(c: bv32)
    ensures Steps(c, 8) == Eight(c)
  {
    hide BitStep;
    var c1 := BitStep(c);
    var c2 := BitStep(c1);
    var c3 := BitStep(c2);
    var c4 := BitStep(c3);
    assert Steps(c, 8) == Steps(c4, 4);
  }

  lemma EightXor(a: bv32, b: bv32)
    ensures Eight(Xor(a, b)) == Xor(Eight(a), Eight(b))
  {
    hide Steps, Eight, Xor;
    EightIs(Xor(a, b));
    EightIs(a);
    EightIs(b);
    StepsLinear(a, b, 8);
  }

  /** The entry in row h at k. */
  lemma EntryIs(h: nat, k: nat)
    requires h < 16 && k < 16
    ensures |ROWS[h]| == 16 && ROWS[h][k] == Eight(Xor(Upper(h), Four(k)))
  {
    FirstAt(k);
    HeadAt(h);
    SpreadAt(h);
    SpreadEntry(ROWS[h], k);
    EntryFrom(h, k);
  }

  lemma EntryFrom(h: nat, k: nat)
    requires h < 16 && FirstRow(k) && Headed(ROWS[h], h) && Entry(ROWS[h], k)
    ensures ROWS[h][k] == Eight(Xor(Upper(h), Four(k)))
  {
    hide Eight, Four, Upper, Xor;
    EightXor(Upper(h), Four(k));
  }

  /** Every entry of the table is eight steps of division from its index. */
  lemma TableIsDivision(v: bv32)
    requires v <= 0xFF
    ensures Value(v, 8) < 256 && Table(Value(v, 8)) == Steps(v, 8)
  {
    hide Eight, Four, Upper, Xor, Low, Value, Steps;
    LowIs(v);
    EntryIs(Low(v >> 4), Low(v));
    FourParts(v);
    EightIs(v);
    TableEntry(Low(v >> 4), Low(v));
  }

  lemma TableEntry(h: nat, k: nat)
    requires h < 16 && k < 16
    ensures Table(k + 16 * h) == ROWS[h][k]
  {
    hide ROWS;
    assert (k + 16 * h) / 16 == h && (k + 16 * h) % 16 == k;
  }

  // ----- The loop -----

  lemma UpBound(a: bv32, b: bool)
    ensures a <= 127 ==> Xor(One(b), Up(a)) <= 255
    ensures a <= 63 ==> Xor(One(b), Up(a)) <= 127
    ensures a <= 31 ==> Xor(One(b), Up(a)) <= 63
    ensures a <= 15 ==> Xor(One(b), Up(a)) <= 31
    ensures a <= 7 ==> Xor(One(b), Up(a)) <= 15
    ensures a <= 3 ==> Xor(One(b), Up(a)) <= 7
    ensures a <= 1 ==> Xor(One(b), Up(a)) <= 3
    ensures a == 0 ==> Xor(One(b), Up(a)) <= 1
  {
  }

  lemma {:induction false} RegisterBound(b: nat, n: nat)
    requires n <= 8
    ensures n == 0 ==> Register(b, n) == 0
    ensures n == 1 ==> Register(b, n) <= 1
    ensures n == 2 ==> Register(b, n) <= 3
    ensures n == 3 ==> Register(b, n) <= 7
    ensures n == 4 ==> Register(b, n) <= 15
    ensures n == 5 ==> Register(b, n) <= 31
    ensures n == 6 ==> Register(b, n) <= 63
    ensures n == 7 ==> Register(b, n) <= 127
    ensures n == 8 ==> Register(b, n) <= 255
  {
    if n > 0 {
      hide Xor, Up, One;
      RegisterBound(b / 2, n - 1);
      UpBound(Register(b / 2, n - 1), b % 2 == 1);
    }
  }

  lemma Down8(y: bv32)
    requires y <= 0xFFFFFF
    ensures BitStep(y << 8) == y << 7
  {
  }

  lemma Down7(y: bv32)
    requires y <= 0xFFFFFF
    ensures BitStep(y << 7) == y << 6
  {
  }

  lemma Down6(y: bv32)
    requires y <= 0xFFFFFF
    ensures BitStep(y << 6) == y << 5
  {
  }

  lemma Down5(y: bv32)
    requires y <= 0xFFFFFF
    ensures BitStep(y << 5) == y << 4
  {
  }

  lemma Down4(y: bv32)
    requires y <= 0xFFFFFF
    ensures BitStep(y << 4) == y << 3
  {
  }

  lemma Down3(y: bv32)
    requires y <= 0xFFFFFF
    ensures BitStep(y << 3) == y << 2
  {
  }

  lemma Down2(y: bv32)
    requires y <= 0xFFFFFF
    ensures BitStep(y << 2) == y << 1
  {
  }

  lemma Down1(y: bv32)
    requires y <= 0xFFFFFF
    ensures BitStep(y << 1) == y << 0
  {
  }

  function Lift(y: bv32): bv32 {
    y << 8
  }

  lemma EightShift(y: bv32)
    requires y <= 0xFFFFFF
    ensures Eight(Lift(y)) == y
  {
    hide BitStep;
    Down8(y);
    Down7(y);
    Down6(y);
    Down5(y);
    Down4(y);
    Down3(y);
    Down2(y);
    Down1(y);
    assert y << 0 == y;
  }

  /** crc >> 8, the low byte of a register, and the number that it holds. */
  function Down(c: bv32): bv32 {
    c >> 8
  }

  function Mask(c: bv32): bv32 {
    c & 0xFF
  }

  function LowByte(c: bv32): (n: nat)
    ensures n < 256
  {
    LowIs(Mask(c));
    Value(Mask(c), 8)
  }

  lemma Halves(x: bv32)
    ensures x == Xor(Mask(x), Lift(Down(x))) && Down(x) <= 0xFFFFFF && Mask(x) <= 0xFF
  {
  }

  lemma DownXor(c: bv32, r: bv32)
    requires r <= 0xFF
    ensures Down(Xor(c, r)) == Down(c)
  {
    assert r >> 8 == 0;
    ShiftsXor(c, r);
  }

  lemma ShiftsXor(c: bv32, r: bv32)
    ensures (c ^ r) >> 8 == (c >> 8) ^ (r >> 8)
  {
  }

  /** Eight bit steps with the table: the low byte picks an entry, the rest moves down. */
  lemma ByLookup(c: bv32, r: bv32)
    requires r <= 0xFF
    ensures Steps(Xor(c, r), 8) == Xor(Table(LowByte(Xor(c, r))), Down(c))
  {
    hide Steps, Eight, Table, Value, Down, Xor, Mask, Lift;
    var x := Xor(c, r);
    Halves(x);
    DownXor(c, r);
    StepsLinear(Mask(x), Lift(Down(x)), 8);
    EightIs(Lift(Down(x)));
    EightShift(Down(x));
    TableIsDivision(Mask(x));
  }

  /** flowd_crc32_start and flowd_crc32_update. */
  method Start() returns (crc: bv32)
    ensures crc == Crc(crc, []) == 0
  {
    crc := 0;
  }

  method Update(buf: seq<u8>, crc0: bv32) returns (crc: bv32)
    ensures crc == Crc(crc0, buf)
  {
    hide Steps, Xor, Table, Register, LowByte, Down;
    crc := crc0;
    for i := 0 to |buf|
      invariant crc == Crc(crc0, buf[..i])
    {
      var b := Register(buf[i], 8);
      RegisterBound(buf[i], 8);
      ByLookup(crc, b);
      assert buf[..i + 1][..i] == buf[..i];
      crc := Xor(Table(LowByte(Xor(crc, b))), Down(crc));
    }
    assert buf[..|buf|] == buf;
  }

  // ----- Algebra -----

  lemma {:induction false} CrcConcat(c: bv32, s: seq<u8>, t: seq<u8>)
    ensures Crc(c, s + t) == Crc(Crc(c, s), t)
  {
    hide ByteStep;
    if t == [] {
      assert s + t == s;
    } else {
      assert (s + t)[..|s + t| - 1] == s + t[..|t| - 1];
      CrcConcat(c, s, t[..|t| - 1]);
    }
  }

  /** Exclusive or of two bytes. */
  function XorDigits(a: nat, b: nat, n: nat): (r: nat)
    ensures r < Pow2(n)
  {
    if n == 0 then 0 else (if a % 2 != b % 2 then 1 else 0) + 2 * XorDigits(a / 2, b / 2, n - 1)
  }

  function XorByte(a: u8, b: u8): u8 {
    assert Pow2(8) == 256 by { Pow2Add(4, 4); assert Pow2(4) == 16; }
    XorDigits(a, b, 8)
  }

  function XorBytes(s: seq<u8>, t: seq<u8>): (r: seq<u8>)
    requires |s| == |t|
    ensures |r| == |s|
  {
    if s == [] then [] else XorBytes(s[..|s| - 1], t[..|t| - 1]) + [XorByte(s[|s| - 1], t[|t| - 1])]
  }

  lemma OneXor(a: bool, b: bool)
    ensures One(a != b) == Xor(One(a), One(b))
  {
  }

  lemma RegisterNext(b: nat, n: nat)
    requires n > 0
    ensures Register(b, n) == Xor(One(b % 2 == 1), Up(Register(b / 2, n - 1)))
  {
    hide Xor, One, Up;
  }

  lemma XorNext(a: nat, b: nat, n: nat)
    requires n > 0
    ensures var r := XorDigits(a, b, n);
      r / 2 == XorDigits(a / 2, b / 2, n - 1) && (r % 2 == 1) == ((a % 2 == 1) != (b % 2 == 1))
  {
  }

  lemma {:induction false} RegisterXor(a: nat, b: nat, n: nat)
    ensures Register(XorDigits(a, b, n), n) == Xor(Register(a, n), Register(b, n))
  {
    if n == 0 {
      XorCancel(0, 0);
    } else {
      hide Xor, One, Up, XorDigits, Register;
      var ra, rb := Register(a / 2, n - 1), Register(b / 2, n - 1);
      RegisterXor(a / 2, b / 2, n - 1);
      XorNext(a, b, n);
      RegisterNext(XorDigits(a, b, n), n);
      RegisterNext(a, n);
      RegisterNext(b, n);
      OneXor(a % 2 == 1, b % 2 == 1);
      UpXor(ra, rb);
      XorFour(One(a % 2 == 1), Up(ra), One(b % 2 == 1), Up(rb));
    }
  }

  /** The checksum is linear in register and message. */
  lemma {:induction false} CrcLinear(c: bv32, d: bv32, s: seq<u8>, t: seq<u8>)
    requires |s| == |t|
    ensures Crc(Xor(c, d), XorBytes(s, t)) == Xor(Crc(c, s), Crc(d, t))
  {
    hide Xor, Steps, Register, XorDigits;
    if s != [] {
      var n := |s| - 1;
      var c', d', a, b := Crc(c, s[..n]), Crc(d, t[..n]), Register(s[n], 8), Register(t[n], 8);
      CrcLinear(c, d, s[..n], t[..n]);
      RegisterXor(s[n], t[n], 8);
      XorFour(c', d', a, b);
      StepsLinear(Xor(c', a), Xor(d', b), 8);
      assert XorBytes(s, t)[..n] == XorBytes(s[..n], t[..n]);
    }
  }

  /** A message cannot tell two registers apart less than they are: it maps registers one
      to one. */
  lemma {:induction false} CrcInjective(c: bv32, d: bv32, s: seq<u8>)
    ensures Crc(c, s) == Crc(d, s) <==> c == d
  {
    hide Xor, Steps, Register;
    if s != [] {
      var n := |s| - 1;
      var c', d', b := Crc(c, s[..n]), Crc(d, s[..n]), Register(s[n], 8);
      CrcInjective(c, d, s[..n]);
      StepsInjective(Xor(c', b), Xor(d', b), 8);
      XorInjective(c', d', b);
    }
  }

  lemma StepsInjective(c: bv32, d: bv32, n: nat)
    ensures Steps(c, n) == Steps(d, n) <==> c == d
  {
    hide Xor, Steps;
    StepsLinear(c, d, n);
    StepsZero(Xor(c, d), n);
    XorCancel(c, d);
    XorCancel(Steps(c, n), Steps(d, n));
  }

  lemma XorInjective(c: bv32, d: bv32, b: bv32)
    ensures Xor(c, b) == Xor(d, b) <==> c == d
  {
    hide Xor;
    XorLaws(c, b, b);
    XorLaws(d, b, b);
    XorLaws(c, c, c);
    XorLaws(d, d, d);
    XorLaws(b, b, b);
  }

  // ----- Bursts of up to four bytes -----

  /** Up to four bytes packed into a register, the first in the low byte. */
  function Packed(e: seq<u8>): bv32 {
    if e == [] then 0 else Xor(Register(e[0], 8), Lift(Packed(e[1..])))
  }

  lemma PackBound(r: bv32, y: bv32)
    requires r <= 0xFF
    ensures y <= 0 ==> Xor(r, Lift(y)) <= 0xFF
    ensures y <= 0xFF ==> Xor(r, Lift(y)) <= 0xFFFF
    ensures y <= 0xFFFF ==> Xor(r, Lift(y)) <= 0xFFFFFF
  {
  }

  lemma {:induction false} PackedBound(e: seq<u8>)
    requires |e| <= 3
    ensures |e| == 0 ==> Packed(e) <= 0
    ensures |e| == 1 ==> Packed(e) <= 0xFF
    ensures |e| == 2 ==> Packed(e) <= 0xFFFF
    ensures Packed(e) <= 0xFFFFFF
  {
    if e != [] {
      hide Xor, Register, Lift;
      PackedBound(e[1..]);
      RegisterBound(e[0], 8);
      PackBound(Register(e[0], 8), Packed(e[1..]));
    }
  }

  lemma {:induction false} StepsAdd(c: bv32, m: nat, n: nat)
    ensures Steps(c, m + n) == Steps(Steps(c, m), n)
    decreases m
  {
    hide BitStep;
    if m > 0 { StepsAdd(BitStep(c), m - 1, n); }
  }

  /** Up to four bytes can be taken in at once, before the bit steps. */
  lemma {:induction false} CrcPacked(c: bv32, e: seq<u8>)
    requires |e| <= 4
    ensures Crc(c, e) == Steps(Xor(c, Packed(e)), 8 * |e|)
    decreases |e|
  {
    if e == [] {
      XorLaws(c, 0, 0);
    } else {
      hide Xor, Register, Lift, Steps;
      var r, y, rest := Register(e[0], 8), Packed(e[1..]), e[1..];
      var c' := Steps(Xor(c, r), 8);
      FirstByte(c, e);
      CrcPacked(c', rest);
      PackedBound(rest);
      EightIs(Lift(y));
      EightShift(y);
      StepsLinear(Xor(c, r), Lift(y), 8);
      XorLaws(c, r, Lift(y));
      StepsAdd(Xor(c, Packed(e)), 8, 8 * |rest|);
    }
  }

  lemma FirstByte(c: bv32, e: seq<u8>)
    requires e != []
    ensures Crc(c, e) == Crc(ByteStep(c, e[0]), e[1..])
  {
    hide ByteStep;
    assert e == [e[0]] + e[1..];
    CrcConcat(c, [e[0]], e[1..]);
    assert [e[0]][..0] == [];
  }

  lemma PackInjective(r: bv32, y: bv32, r': bv32, y': bv32)
    requires r <= 0xFF && r' <= 0xFF && y <= 0xFFFFFF && y' <= 0xFFFFFF && Xor(r, Lift(y)) == Xor(r', Lift(y'))
    ensures r == r' && y == y'
  {
  }

  ghost predicate Small(y: bv32) {
    y <= 0x7FFFFFFF
  }

  lemma UpInjective(a: bool, y: bv32, b: bool, z: bv32)
    requires Small(y) && Small(z) && Xor(One(a), Up(y)) == Xor(One(b), Up(z))
    ensures a == b && y == z
  {
  }

  lemma RegisterSmall(b: nat, n: nat)
    requires n <= 8
    ensures Small(Register(b, n))
  {
    hide Register;
    RegisterBound(b, n);
  }

  lemma {:induction false} RegisterInjective(a: nat, b: nat, n: nat)
    requires n <= 8 && a < Pow2(n) && b < Pow2(n) && Register(a, n) == Register(b, n)
    ensures a == b
  {
    if n > 0 {
      hide Xor, One, Up, Register, Small;
      var ra, rb := Register(a / 2, n - 1), Register(b / 2, n - 1);
      RegisterNext(a, n);
      RegisterNext(b, n);
      RegisterSmall(a / 2, n - 1);
      RegisterSmall(b / 2, n - 1);
      UpInjective(a % 2 == 1, ra, b % 2 == 1, rb);
      RegisterInjective(a / 2, b / 2, n - 1);
    }
  }

  lemma {:induction false} PackedInjective(e: seq<u8>, f: seq<u8>)
    requires |e| == |f| <= 4 && Packed(e) == Packed(f)
    ensures e == f
  {
    if e != [] {
      hide Xor, Lift, Register;
      RegisterBound(e[0], 8);
      RegisterBound(f[0], 8);
      PackedBound(e[1..]);
      PackedBound(f[1..]);
      PackInjective(Register(e[0], 8), Packed(e[1..]), Register(f[0], 8), Packed(f[1..]));
      Pow2Add(4, 4);
      assert Pow2(4) == 16;
      RegisterInjective(e[0], f[0], 8);
      PackedInjective(e[1..], f[1..]);
      assert e == [e[0]] + e[1..] && f == [f[0]] + f[1..];
    }
  }

  /** Two messages that differ, and only within four consecutive bytes, have different
      checksums. */
  lemma BurstFound(c: bv32, a: seq<u8>, e: seq<u8>, f: seq<u8>, b: seq<u8>)
    requires |e| == |f| <= 4 && e != f
    ensures Crc(c, a + e + b) != Crc(c, a + f + b)
  {
    hide Xor, Steps, Packed, Crc;
    var d := Crc(c, a);
    CrcConcat(c, a + e, b);
    CrcConcat(c, a + f, b);
    CrcConcat(c, a, e);
    CrcConcat(c, a, f);
    CrcInjective(Crc(d, e), Crc(d, f), b);
    CrcPacked(d, e);
    CrcPacked(d, f);
    StepsInjective(Xor(d, Packed(e)), Xor(d, Packed(f)), 8 * |e|);
    XorLaws(d, Packed(e), 0);
    XorLaws(d, Packed(f), 0);
    XorInjective(Packed(e), Packed(f), d);
    if Packed(e) == Packed(f) { PackedInjective(e, f); }
  }

  // ----- Registers as numbers -----

  function Halved(c: bv32, n: nat): bv32
    decreases n
  {
    if n == 0 then c else Halved(Half(c), n - 1)
  }

  lemma HalfEight(c: bv32)
    ensures Half(Half(Half(Half(Half(Half(Half(Half(c)))))))) == Down(c) && Down(Down(Down(Down(c)))) == 0
  {
  }

  lemma HalvedFour(c: bv32, n: nat)
    ensures Halved(c, n + 4) == Halved(Half(Half(Half(Half(c)))), n)
  {
    hide Half;
    var d := Half(Half(c));
    assert Halved(c, n + 4) == Halved(Half(c), n + 3) == Halved(d, n + 2);
    assert Halved(d, n + 2) == Halved(Half(d), n + 1);
  }

  lemma HalvedEight(c: bv32, n: nat)
    ensures Halved(c, n + 8) == Halved(Down(c), n)
  {
    hide Half, Down, Halved;
    HalvedFour(c, n + 4);
    HalvedFour(Half(Half(Half(Half(c)))), n);
    HalfEight(c);
  }

  /** After 32 halvings nothing is left. */
  lemma NothingLeft(c: bv32)
    ensures Halved(c, 32) == 0
  {
    hide Halved, Down, Half;
    HalvedEight(c, 24);
    HalvedEight(Down(c), 16);
    HalvedEight(Down(Down(c)), 8);
    HalvedEight(Down(Down(Down(c))), 0);
    HalfEight(c);
    NotHalved(0);
  }

  lemma NotHalved(c: bv32)
    ensures Halved(c, 0) == c
  {
  }

  lemma HalfDetermines(c: bv32, d: bv32)
    requires Odd(c) == Odd(d) && Half(c) == Half(d)
    ensures c == d
  {
  }

  lemma ValueNext(c: bv32, n: nat)
    requires n > 0
    ensures Value(c, n) == (if Odd(c) then 1 else 0) + 2 * Value(Half(c), n - 1)
  {
  }

  lemma {:induction false} ValueInjective(c: bv32, d: bv32, n: nat)
    requires Halved(c, n) == Halved(d, n) && Value(c, n) == Value(d, n)
    ensures c == d
    decreases n
  {
    if n > 0 {
      hide Value, Half, Odd;
      ValueNext(c, n);
      ValueNext(d, n);
      ValueInjective(Half(c), Half(d), n - 1);
      HalfDetermines(c, d);
    }
  }

  /** The checksum as the number that a record stores. */
  function Checksum(s: seq<u8>): (v: nat)
    ensures v < Pow2(32)
  {
    Value(Crc(0, s), 32)
  }

  lemma ChecksumBurst(a: seq<u8>, e: seq<u8>, f: seq<u8>, b: seq<u8>)
    requires |e| == |f| <= 4 && e != f
    ensures Checksum(a + e + b) != Checksum(a + f + b)
  {
    hide Value, Crc, Halved;
    var c, d := Crc(0, a + e + b), Crc(0, a + f + b);
    BurstFound(0, a, e, f, b);
    NothingLeft(c);
    NothingLeft(d);
    if Value(c, 32) == Value(d, 32) { ValueInjective(c, d, 32); }
  }

  // ----- Division of polynomials -----

  /** The generator polynomial of IEEE 802.3, highest power first. */
  const GENERATOR: seq<bool> := [
    true, false, false, false, false, false, true, false, false, true, true,
    false, false, false, false, false, true, false, false, false, true, true,
    true, false, true, true, false, true, true, false, true, true, true]

  /** x^32 + x^26 + x^23 + x^22 + x^16 + x^12 + x^11 + x^10 + x^8 + x^7 + x^5 + x^4 + x^2 + x + 1 */
  lemma GeneratorPowers(k: nat)
    requires k <= 32
    ensures |GENERATOR| == 33
    ensures GENERATOR[32 - k] <==> k in {32, 26, 23, 22, 16, 12, 11, 10, 8, 7, 5, 4, 2, 1, 0}
  {
  }

  function XorBits(a: seq<bool>, b: seq<bool>): (r: seq<bool>)
    requires |a| == |b|
    ensures |r| == |a| && forall i :: 0 <= i < |a| ==> r[i] == (a[i] != b[i])
  {
    seq(|a|, i requires 0 <= i < |a| => a[i] != b[i])
  }

  /** Schoolbook division of a polynomial, highest power first, by the generator: what is
      left once 32 bits remain. */
  function Remainder(bits: seq<bool>): (r: seq<bool>)
    requires |bits| >= 32
    ensures |r| == 32
    decreases |bits|
  {
    if |bits| == 32 then bits
    else if bits[0] then Remainder(XorBits(bits[1..33], GENERATOR[1..]) + bits[33..])
    else Remainder(bits[1..])
  }

  function Zeros(n: nat): (r: seq<bool>)
    ensures |r| == n && forall i :: 0 <= i < n ==> !r[i]
  {
    seq(n, _ => false)
  }

  // ----- The register divides -----

  lemma OddXor(a: bv32, b: bv32)
    ensures Odd(Xor(a, b)) == (Odd(a) != Odd(b))
  {
  }

  lemma HalfXor(a: bv32, b: bv32)
    ensures Half(Xor(a, b)) == Xor(Half(a), Half(b))
  {
  }

  lemma {:induction false} BitsXor(a: bv32, b: bv32, n: nat)
    ensures BitsOf(Xor(a, b), n) == XorBits(BitsOf(a, n), BitsOf(b, n))
    decreases n
  {
    hide Xor, Odd, Half;
    if n > 0 {
      OddXor(a, b);
      HalfXor(a, b);
      BitsXor(Half(a), Half(b), n - 1);
    }
  }

  lemma {:induction false} BitsMore(c: bv32, n: nat)
    ensures BitsOf(c, n + 1) == BitsOf(c, n) + [Odd(Halved(c, n))]
    decreases n
  {
    hide Odd, Half;
    if n > 0 { BitsMore(Half(c), n - 1); }
  }

  lemma BitsHalf(c: bv32)
    ensures BitsOf(Half(c), 32) == BitsOf(c, 32)[1..] + [false]
  {
    hide Half, Halved;
    BitsMore(c, 32);
    NothingLeft(c);
    assert BitsOf(c, 33)[1..] == BitsOf(Half(c), 32);
  }

  lemma BitStepIs(c: bv32)
    ensures BitStep(c) == if Odd(c) then Xor(Half(c), POLY) else Half(c)
  {
  }

  lemma OneIs(b: bool)
    ensures Odd(One(b)) == b && Half(One(b)) == 0
  {
  }

  /** One message bit at the low end of the register. */
  function BitIn(c: bv32, b: bool): bv32 {
    BitStep(Xor(c, One(b)))
  }

  lemma BitInBits(c: bv32, b: bool)
    ensures var rest := BitsOf(c, 32)[1..] + [false];
      BitsOf(BitIn(c, b), 32) == if Odd(c) != b then XorBits(rest, BitsOf(POLY, 32)) else rest
  {
    hide Xor, One, Half, Odd, BitStep, POLY;
    var x := Xor(c, One(b));
    BitStepIs(x);
    OneIs(b);
    OddXor(c, One(b));
    HalfXor(c, One(b));
    XorLaws(Half(c), 0, 0);
    BitsHalf(c);
    BitsXor(Half(c), POLY, 32);
  }

  lemma FourBits(c: bv32, n: nat, b0: bool, b1: bool, b2: bool, b3: bool, d: bv32)
    requires b0 == Odd(c) && b1 == Odd(Half(c)) && b2 == Odd(Half(Half(c))) && b3 == Odd(Half(Half(Half(c))))
    requires d == Half(Half(Half(Half(c))))
    ensures BitsOf(c, n + 4) == [b0, b1, b2, b3] + BitsOf(d, n)
  {
    hide Odd, Half;
    var h := Half(Half(c));
    assert BitsOf(h, n + 2) == [b2, b3] + BitsOf(d, n) by {
      assert BitsOf(Half(h), n + 1) == [b3] + BitsOf(d, n);
    }
    assert BitsOf(Half(c), n + 3) == [b1] + BitsOf(h, n + 2);
  }

  lemma PolyTop()
    ensures BitsOf(0xEDB8, 16) == [false, false, false, true, true, true, false, true, true, false, true, true, false, true, true, true]
  {
    hide BitsOf;
    FourBits(0xEDB8, 12, false, false, false, true, 0xEDB);
    FourBits(0xEDB, 8, true, true, false, true, 0xED);
    FourBits(0xED, 4, true, false, true, true, 0xE);
    FourBits(0xE, 0, false, true, true, true, 0);
  }

  lemma PolyLow()
    ensures BitsOf(POLY, 32) ==
      [false, false, false, false, false, true, false, false, true, true, false, false, false, false, false, true] + BitsOf(0xEDB8, 16)
  {
    hide BitsOf;
    FourBits(0xEDB88320, 28, false, false, false, false, 0xEDB8832);
    FourBits(0xEDB8832, 24, false, true, false, false, 0xEDB883);
    FourBits(0xEDB883, 20, true, true, false, false, 0xEDB88);
    FourBits(0xEDB88, 16, false, false, false, true, 0xEDB8);
  }

  /** The register's constant is the generator without its leading bit, reflected. */
  lemma PolyIsGenerator()
    ensures GENERATOR[1..] == BitsOf(POLY, 32)
  {
    hide BitsOf, POLY;
    PolyTop();
    PolyLow();
  }

  function Feed(c: bv32, bits: seq<bool>): bv32
    decreases |bits|
  {
    if bits == [] then c else Feed(BitIn(c, bits[0]), bits[1..])
  }

  /** A register added into the front of a dividend. */
  function Into(c: bv32, bits: seq<bool>): (r: seq<bool>)
    requires |bits| >= 32
    ensures |r| == |bits|
  {
    XorBits(BitsOf(c, 32), bits[..32]) + bits[32..]
  }

  /** The dividend after its leading bit. */
  lemma AfterLeading(r: seq<bool>, b: bool, rest: seq<bool>)
    requires |r| == 32 && |rest| >= 32
    ensures var m := [b] + rest; var all := XorBits(r, m[..32]) + m[32..];
      && all[0] == (r[0] != b)
      && all[1..] == XorBits(r[1..] + [false], rest[..32]) + rest[32..]
  {
    var m := [b] + rest;
    assert m[..32] == [b] + rest[..31] && m[32..] == rest[31..];
    var sum := XorBits(r, [b] + rest[..31]);
    var want := XorBits(r[1..] + [false], rest[..32]);
    assert (sum + rest[31..])[1..] == sum[1..] + [rest[31]] + rest[32..];
    assert forall i :: 0 <= i < 31 ==> sum[1..][i] == want[i];
    assert want == sum[1..] + [rest[31]];
  }

  lemma SplitAt32(x: seq<bool>, y: seq<bool>, all: seq<bool>)
    requires |x| == 32 && |all| >= 33 && all[1..] == x + y
    ensures all[1..33] == x && all[33..] == y
  {
    assert all[1..33] == all[1..][..32] && all[33..] == all[1..][32..];
  }

  lemma OneDivision(c: bv32, b: bool, rest: seq<bool>)
    requires |rest| >= 32
    ensures Remainder(Into(c, [b] + rest)) == Remainder(Into(BitIn(c, b), rest))
  {
    hide BitIn, BitsOf;
    BitInBits(c, b);
    PolyIsGenerator();
    FirstBit(c);
    var all := Into(c, [b] + rest);
    var low := BitsOf(c, 32)[1..] + [false];
    AfterLeading(BitsOf(c, 32), b, rest);
    SplitAt32(XorBits(low, rest[..32]), rest[32..], all);
    if all[0] {
      assert XorBits(XorBits(low, rest[..32]), GENERATOR[1..]) == XorBits(XorBits(low, GENERATOR[1..]), rest[..32]);
    }
  }

  lemma FirstBit(c: bv32)
    ensures BitsOf(c, 32)[0] == Odd(c)
  {
  }

  lemma {:induction false} FeedDivides(c: bv32, bits: seq<bool>)
    ensures Remainder(Into(c, bits + Zeros(32))) == BitsOf(Feed(c, bits), 32)
    decreases |bits|
  {
    hide BitIn, BitsOf;
    if bits == [] {
      assert Into(c, bits + Zeros(32)) == BitsOf(c, 32);
    } else {
      assert bits + Zeros(32) == [bits[0]] + (bits[1..] + Zeros(32));
      OneDivision(c, bits[0], bits[1..] + Zeros(32));
      FeedDivides(BitIn(c, bits[0]), bits[1..]);
    }
  }

  lemma {:induction false} FeedConcat(c: bv32, a: seq<bool>, b: seq<bool>)
    ensures Feed(c, a + b) == Feed(Feed(c, a), b)
    decreases |a|
  {
    hide BitIn;
    if a == [] {
      assert a + b == b;
    } else {
      assert (a + b)[1..] == a[1..] + b;
      FeedConcat(BitIn(c, a[0]), a[1..], b);
    }
  }

  lemma UpStep(y: bv32)
    requires Small(y)
    ensures BitStep(Up(y)) == y
  {
    ShiftStep(y);
  }

  lemma {:induction false} FeedDigits(c: bv32, b: nat, n: nat)
    requires n <= 8
    ensures Feed(c, Digits(b, n)) == Steps(Xor(c, Register(b, n)), n)
    decreases n
  {
    hide Xor, One, Up, Register, Small, BitStep;
    if n == 0 {
      NoRegister(b);
      XorLaws(c, 0, 0);
    } else {
      var r := Register(b / 2, n - 1);
      RegisterNext(b, n);
      RegisterSmall(b / 2, n - 1);
      XorLaws(c, One(b % 2 == 1), Up(r));
      BitStepLinear(Xor(c, One(b % 2 == 1)), Up(r));
      UpStep(r);
      FeedDigits(BitIn(c, b % 2 == 1), b / 2, n - 1);
      assert Digits(b, n)[1..] == Digits(b / 2, n - 1);
    }
  }

  lemma NoRegister(b: nat)
    ensures Register(b, 0) == 0
  {
  }

  lemma {:induction false} CrcFeeds(c: bv32, s: seq<u8>)
    ensures Crc(c, s) == Feed(c, MessageBits(s))
  {
    hide Digits, Steps, Xor, Register, BitIn;
    if s != [] {
      var n := |s| - 1;
      CrcFeeds(c, s[..n]);
      FeedConcat(c, MessageBits(s[..n]), Digits(s[n], 8));
      FeedDigits(Feed(c, MessageBits(s[..n])), s[n], 8);
    }
  }

  /** The checksum of a message is the remainder of its bits, followed by 32 zeros, on
      division by the generator. */
  lemma CrcIsRemainder(s: seq<u8>)
    ensures BitsOf(Crc(0, s), 32) == Remainder(MessageBits(s) + Zeros(32))
  {
    hide BitsOf, Remainder, Crc, MessageBits, Feed;
    var bits := MessageBits(s) + Zeros(32);
    CrcFeeds(0, s);
    FeedDivides(0, MessageBits(s));
    ZeroBits(32);
    assert Into(0, bits) == bits;
  }

  lemma {:induction false} ZeroBits(n: nat)
    ensures BitsOf(0, n) == Zeros(n)
  {
    if n > 0 {
      ZeroBits(n - 1);
      assert Half(0) == 0 && !Odd(0);
    }
  }
}
