/** Addresses and CIDR matching (flowd/addr.c). Words are numbers in host order; the
    byte order of the wire does not appear. */
module Addr {
  import opened Bytes

  /** struct xaddr. NoAddr stands for every family other than AF_INET and AF_INET6. */
  datatype XAddr =
    | NoAddr
    | V4(v4: u32)
    | V6(w0: u32, w1: u32, w2: u32, w3: u32, scope: u32)

  type HostAddr = a: XAddr | !a.NoAddr? witness V4(0)

  // ----- addr_cmp -----

  ghost function Value(a: XAddr): nat {
    match a
    case NoAddr => 0
    case V4(v) => v
    case V6(w0, w1, w2, w3, _) =>
      ((w0 * 0x1_0000_0000 + w1) * 0x1_0000_0000 + w2) * 0x1_0000_0000 + w3
  }

  /** Where an address stands in the order: v4 before v6, then by number, then scope. */
  ghost function Rank(a: XAddr): int {
    match a
    case NoAddr => -1
    case V4(v) => v
    case V6(_, _, _, _, scope) => 0x1_0000_0000 + Value(a) * 0x1_0000_0000 + scope
  }

  function Word(a: XAddr, i: nat): u32
    requires a.V6? && i < 4
  {
    if i == 0 then a.w0 else if i == 1 then a.w1 else if i == 2 then a.w2 else a.w3
  }

  function ByteOf(w: u32, k: nat): (b: int)
    requires k < 4
    ensures 0 <= b < 256
  {
    if k == 0 then w / 0x100_0000
    else if k == 1 then w / 0x1_0000 % 256
    else if k == 2 then w / 0x100 % 256
    else w % 256
  }

  /** addr8[i] of a v6 address. */
  function Byte(a: XAddr, i: nat): (b: int)
    requires a.V6? && i < 16
    ensures 0 <= b < 256
  {
    ByteOf(Word(a, i / 4), i % 4)
  }

  /** addr_cmp on the bytes from the i-th on, then on the scope. */
  function CmpFrom(a: XAddr, b: XAddr, i: nat): int
    requires a.V6? && b.V6? && i <= 16
    decreases 16 - i
  {
    if i < 16 then
      if Byte(a, i) - Byte(b, i) != 0 then Byte(a, i) - Byte(b, i) else CmpFrom(a, b, i + 1)
    else if a.scope == b.scope then 0
    else if a.scope > b.scope then 1 else -1
  }

  function Cmp(a: XAddr, b: XAddr): int {
    match (a, b)
    case (V4(x), V4(y)) => if x == y then 0 else if x > y then 1 else -1
    case (V6(_, _, _, _, _), V6(_, _, _, _, _)) => CmpFrom(a, b, 0)
    case (V6(_, _, _, _, _), _) => 1
    case _ => -1
  }

  method AddrCmp(a: XAddr, b: XAddr) returns (r: int)
    ensures r == Cmp(a, b)
  {
    if a.V4? != b.V4? || a.V6? != b.V6? {
      return if a.V6? then 1 else -1;
    }
    match a
    case V4(_) =>
      if a.v4 == b.v4 {
        return 0;
      }
      return if a.v4 > b.v4 then 1 else -1;
    case V6(_, _, _, _, _) =>
      for i := 0 to 16
        invariant CmpFrom(a, b, 0) == CmpFrom(a, b, i)
      {
        if Byte(a, i) - Byte(b, i) != 0 {
          return Byte(a, i) - Byte(b, i);
        }
      }
      if a.scope == b.scope {
        return 0;
      }
      return if a.scope > b.scope then 1 else -1;
    case NoAddr =>
      return -1;
  }

  ghost function Sign(x: int): int {
    if x < 0 then -1 else if x == 0 then 0 else 1
  }

  /** The bytes of a number up to and including the k-th, as a number. */
  ghost function Top(w: u32, k: nat): int
    requires k <= 3
  {
    if k == 0 then w / 0x100_0000 else if k == 1 then w / 0x1_0000 else if k == 2 then w / 0x100 else w
  }

  lemma TopByte(w: u32)
    ensures Top(w, 1) == Top(w, 0) * 256 + w / 0x1_0000 % 256
    ensures Top(w, 2) == Top(w, 1) * 256 + w / 0x100 % 256
    ensures Top(w, 3) == Top(w, 2) * 256 + w % 256
  {
  }

  lemma TopDecides(u: u32, v: u32, k: nat)
    requires k <= 3 && Top(u, k) != Top(v, k)
    ensures Sign(u - v) == Sign(Top(u, k) - Top(v, k))
  {
  }

  /** Two words that share their bytes before the k-th compare as that byte does. */
  lemma WordOrder(u: u32, v: u32, k: nat)
    requires k < 4 && forall j :: 0 <= j < k ==> ByteOf(u, j) == ByteOf(v, j)
    ensures ByteOf(u, k) != ByteOf(v, k) ==> Sign(u - v) == Sign(ByteOf(u, k) - ByteOf(v, k))
    ensures k == 3 && ByteOf(u, k) == ByteOf(v, k) ==> u == v
  {
    TopByte(u);
    TopByte(v);
    assert k > 0 ==> ByteOf(u, 0) == ByteOf(v, 0);
    assert k > 1 ==> ByteOf(u, 1) == ByteOf(v, 1);
    assert k > 2 ==> ByteOf(u, 2) == ByteOf(v, 2);
    assert Top(u, k) - Top(v, k) == ByteOf(u, k) - ByteOf(v, k);
    if Top(u, k) != Top(v, k) { TopDecides(u, v, k); }
  }

  lemma WordsOrder(a: XAddr, b: XAddr, q: nat)
    requires a.V6? && b.V6? && q < 4 && Word(a, q) != Word(b, q)
    requires forall p :: 0 <= p < q ==> Word(a, p) == Word(b, p)
    ensures Sign(Rank(a) - Rank(b)) == Sign(Word(a, q) - Word(b, q))
  {
    assert q > 0 ==> Word(a, 0) == Word(b, 0);
    assert q > 1 ==> Word(a, 1) == Word(b, 1);
    assert q > 2 ==> Word(a, 2) == Word(b, 2);
  }

  lemma {:induction false} CmpFromIsOrder(a: XAddr, b: XAddr, i: nat)
    requires a.V6? && b.V6? && i <= 16
    requires forall j :: 0 <= j < i ==> Byte(a, j) == Byte(b, j)
    requires forall p :: 0 <= 4 * p < i - i % 4 ==> Word(a, p) == Word(b, p)
    ensures Sign(CmpFrom(a, b, i)) == Sign(Rank(a) - Rank(b))
    decreases 16 - i
  {
    hide Rank;
    if i < 16 {
      hide ByteOf;
      var q, k := i / 4, i % 4;
      assert i == 4 * q + k;
      forall j | 0 <= j < k ensures ByteOf(Word(a, q), j) == ByteOf(Word(b, q), j) {
        assert Byte(a, 4 * q + j) == Byte(b, 4 * q + j);
      }
      WordOrder(Word(a, q), Word(b, q), k);
      if Byte(a, i) != Byte(b, i) {
        assert forall p :: 0 <= p < q ==> 4 * p < i - i % 4;
        WordsOrder(a, b, q);
      } else {
        CmpFromIsOrder(a, b, i + 1);
      }
    } else {
      SameWords(a, b);
    }
  }

  lemma SameWords(a: XAddr, b: XAddr)
    requires a.V6? && b.V6? && forall p :: 0 <= 4 * p < 16 ==> Word(a, p) == Word(b, p)
    ensures Sign(CmpFrom(a, b, 16)) == Sign(Rank(a) - Rank(b))
  {
    assert 4 * 0 < 16 && 4 * 1 < 16 && 4 * 2 < 16 && 4 * 3 < 16;
    assert Word(a, 0) == Word(b, 0) && Word(a, 1) == Word(b, 1) && Word(a, 2) == Word(b, 2) && Word(a, 3) == Word(b, 3);
  }

  lemma RankInjective(a: XAddr, b: XAddr)
    requires a.V6? && b.V6? && a != b
    ensures Rank(a) != Rank(b)
  {
    if a.w0 != b.w0 {
      WordsOrder(a, b, 0);
    } else if a.w1 != b.w1 {
      WordsOrder(a, b, 1);
    } else if a.w2 != b.w2 {
      WordsOrder(a, b, 2);
    } else if a.w3 != b.w3 {
      WordsOrder(a, b, 3);
    }
  }

  /** addr_cmp orders addresses by Rank, so it is a total order in which only equal
      addresses tie. */
  lemma CmpIsOrder(a: HostAddr, b: HostAddr)
    ensures Sign(Cmp(a, b)) == Sign(Rank(a) - Rank(b))
    ensures Cmp(a, b) == 0 <==> a == b
  {
    if a.V6? && b.V6? {
      CmpFromIsOrder(a, b, 0);
      if a != b { RankInjective(a, b); }
    } else if a.V6? {
      assert Value(a) >= 0;
    } else if b.V6? {
      assert Value(b) >= 0;
    }
  }
}
