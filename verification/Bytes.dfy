/** Bytes and the big-endian numbers that they hold. */
module Bytes {

  type u8 = x: int | 0 <= x < 0x100
  type u16 = x: int | 0 <= x < 0x1_0000
  type u32 = x: int | 0 <= x < 0x1_0000_0000
  type u64 = x: int | 0 <= x < 0x1_0000_0000_0000_0000

  function Put16(x: u16): (s: seq<u8>)
    ensures |s| == 2
  {
    [x / 0x100, x % 0x100]
  }

  function Put32(x: u32): (s: seq<u8>)
    ensures |s| == 4
  {
    Put16(x / 0x1_0000) + Put16(x % 0x1_0000)
  }

  function Put64(x: u64): (s: seq<u8>)
    ensures |s| == 8
  {
    Put32(x / 0x1_0000_0000) + Put32(x % 0x1_0000_0000)
  }

  /** The two bytes from position i on, as a number; and so for four and eight. */
  function Get16(s: seq<u8>, i: nat): u16
    requires i + 2 <= |s|
  {
    var high: int := s[i];
    high * 0x100 + s[i + 1]
  }

  function Get32(s: seq<u8>, i: nat): u32
    requires i + 4 <= |s|
  {
    var high: int := Get16(s, i);
    high * 0x1_0000 + Get16(s, i + 2)
  }

  function Get64(s: seq<u8>, i: nat): u64
    requires i + 8 <= |s|
  {
    var high: int := Get32(s, i);
    high * 0x1_0000_0000 + Get32(s, i + 4)
  }

  /** Reading what was put, wherever it stands. */
  lemma GetPut16(s: seq<u8>, i: nat, x: u16)
    requires i + 2 <= |s| && s[i..i + 2] == Put16(x)
    ensures Get16(s, i) == x
  {
    assert s[i] == s[i..i + 2][0] && s[i + 1] == s[i..i + 2][1];
  }

  lemma GetPut32(s: seq<u8>, i: nat, x: u32)
    requires i + 4 <= |s| && s[i..i + 4] == Put32(x)
    ensures Get32(s, i) == x
  {
    assert s[i..i + 2] == s[i..i + 4][..2] && s[i + 2..i + 4] == s[i..i + 4][2..];
    GetPut16(s, i, x / 0x1_0000);
    GetPut16(s, i + 2, x % 0x1_0000);
  }

  lemma GetPut64(s: seq<u8>, i: nat, x: u64)
    requires i + 8 <= |s| && s[i..i + 8] == Put64(x)
    ensures Get64(s, i) == x
  {
    assert s[i..i + 4] == s[i..i + 8][..4] && s[i + 4..i + 8] == s[i..i + 8][4..];
    GetPut32(s, i, x / 0x1_0000_0000);
    GetPut32(s, i + 4, x % 0x1_0000_0000);
  }

  /** Putting what was read. */
  lemma PutGet16(s: seq<u8>, i: nat)
    requires i + 2 <= |s|
    ensures Put16(Get16(s, i)) == s[i..i + 2]
  {
  }

  lemma PutGet32(s: seq<u8>, i: nat)
    requires i + 4 <= |s|
    ensures Put32(Get32(s, i)) == s[i..i + 4]
  {
    PutGet16(s, i);
    PutGet16(s, i + 2);
    assert s[i..i + 4] == s[i..i + 2] + s[i + 2..i + 4];
  }

  lemma PutGet64(s: seq<u8>, i: nat)
    requires i + 8 <= |s|
    ensures Put64(Get64(s, i)) == s[i..i + 8]
  {
    PutGet32(s, i);
    PutGet32(s, i + 4);
    assert s[i..i + 8] == s[i..i + 4] + s[i + 4..i + 8];
  }

  /** The number that any run of bytes holds, and how many numbers n bytes can hold. */
  function Number(s: seq<u8>): nat {
    if s == [] then 0 else Number(s[..|s| - 1]) * 0x100 + s[|s| - 1]
  }

  function Capacity(n: nat): (r: nat)
    ensures r > 0
  {
    if n == 0 then 1 else 0x100 * Capacity(n - 1)
  }

  lemma {:induction false} NumberBound(s: seq<u8>)
    ensures Number(s) < Capacity(|s|)
  {
    if s != [] { NumberBound(s[..|s| - 1]); }
  }

  lemma NumberOf(s: seq<u8>)
    ensures |s| == 1 ==> Number(s) == s[0]
    ensures |s| == 2 ==> Number(s) == Get16(s, 0)
    ensures |s| == 4 ==> Number(s) == Get32(s, 0)
  {
    if |s| >= 1 { Step(s); }
    if |s| >= 2 { Step(s[..|s| - 1]); }
    if |s| >= 3 { Step(s[..|s| - 1][..|s| - 2]); }
    if |s| >= 4 { Step(s[..|s| - 1][..|s| - 2][..|s| - 3]); }
  }

  lemma Step(s: seq<u8>)
    requires s != []
    ensures Number(s) == Number(s[..|s| - 1]) * 0x100 + s[|s| - 1]
  {
  }

  // ----- By place value -----

  /** A number as n bytes, the most significant first. */
  function Be(x: nat, n: nat): (s: seq<u8>)
    ensures |s| == n
  {
    if n == 0 then [] else Be(x / 0x100, n - 1) + [x % 0x100]
  }

  lemma Be16(x: u16)
    ensures Put16(x) == Be(x, 2)
  {
    assert Be(x / 0x100 / 0x100, 0) == [];
    assert Be(x / 0x100, 1) == [] + [x / 0x100 % 0x100];
  }

  lemma BeTwice(x: nat, y: nat, n: nat)
    requires y < 0x1_0000
    ensures Be(x * 0x1_0000 + y, n + 2) == Be(x, n) + Be(y, 2)
  {
    var z := x * 0x1_0000 + y;
    assert z / 0x100 == x * 0x100 + y / 0x100 && z / 0x100 / 0x100 == x && z % 0x100 == y % 0x100;
    assert z / 0x100 % 0x100 == y / 0x100 % 0x100;
    assert Be(z, n + 2) == Be(x, n) + [y / 0x100 % 0x100] + [y % 0x100];
    assert Be(y / 0x100 / 0x100, 0) == [];
    assert Be(y, 2) == [y / 0x100 % 0x100] + [y % 0x100];
  }

  lemma Be32(x: u32)
    ensures Put32(x) == Be(x, 4)
  {
    Be16(x / 0x1_0000);
    Be16(x % 0x1_0000);
    BeTwice(x / 0x1_0000, x % 0x1_0000, 2);
  }

  lemma Be64(x: u64)
    ensures Put64(x) == Be(x, 8)
  {
    hide Be;
    var high, low := x / 0x1_0000_0000, x % 0x1_0000_0000;
    Be32(high);
    Be32(low);
    BeFour(high, low);
  }

  lemma BeFour(high: nat, low: u32)
    ensures Be(high * 0x1_0000_0000 + low, 8) == Be(high, 4) + Be(low, 4)
  {
    hide Be;
    var a, b := low / 0x1_0000, low % 0x1_0000;
    BeTwice(high * 0x1_0000 + a, b, 6);
    BeTwice(high, a, 4);
    BeTwice(a, b, 2);
    assert (high * 0x1_0000 + a) * 0x1_0000 + b == high * 0x1_0000_0000 + low;
  }

  lemma AllBe()
    ensures forall x: u16 :: Put16(x) == Be(x, 2)
    ensures forall x: u32 :: Put32(x) == Be(x, 4)
    ensures forall x: u64 :: Put64(x) == Be(x, 8)
  {
    forall x: u16 ensures Put16(x) == Be(x, 2) { Be16(x); }
    forall x: u32 ensures Put32(x) == Be(x, 4) { Be32(x); }
    forall x: u64 ensures Put64(x) == Be(x, 8) { Be64(x); }
  }

  /** Two sequences that agree on a stretch agree on every part of it. */
  lemma SamePart<T>(p: seq<T>, p': seq<T>, a: nat, b: nat, lo: nat, hi: nat)
    requires a <= lo <= hi <= b <= |p| && b <= |p'| && p[a..b] == p'[a..b]
    ensures p[lo..hi] == p'[lo..hi]
  {
    forall i | lo <= i < hi ensures p[i] == p'[i] {
      assert p[a..b][i - a] == p'[a..b][i - a];
    }
  }

  lemma Join<T>(p: seq<T>, a: nat, b: nat, c: nat)
    requires a <= b <= c <= |p|
    ensures p[a..b] + p[b..c] == p[a..c]
  {
  }

  /** memcpy into a buffer that has room. */
  method Copy(buf: array<u8>, off: nat, s: seq<u8>)
    requires off + |s| <= buf.Length
    modifies buf
    ensures buf[off..off + |s|] == s
    ensures buf[..off] == old(buf[..off]) && buf[off + |s|..] == old(buf[off + |s|..])
  {
    for i := 0 to |s|
      invariant forall j :: 0 <= j < i ==> buf[off + j] == s[j]
      invariant buf[..off] == old(buf[..off]) && buf[off + |s|..] == old(buf[off + |s|..])
    {
      buf[off + i] := s[i];
    }
  }
}
