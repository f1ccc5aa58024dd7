/** Netmasks and CIDR matching (flowd/addr.c). */
module AddrMatch {
  import opened Addr
  import opened Bits
  import opened Bytes
  import opened Sequences

  datatype Family = Inet | Inet6 | OtherFamily

  function FamilyOf(a: XAddr): Family {
    match a
    case NoAddr => OtherFamily
    case V4(_) => Inet
    case V6(_, _, _, _, _) => Inet6
  }

  function Width(af: Family): nat {
    match af
    case Inet => 32
    case Inet6 => 128
    case OtherFamily => 0
  }

  /** masklen_valid. */
  predicate MasklenValid(af: Family, l: nat) {
    !af.OtherFamily? && l <= Width(af)
  }

  /** l ones at the top of a word. */
  ghost function MaskWord(l: nat): u32
    requires l <= 32
  {
    Pow2Monotone(32 - l, 32);
    Pow2At32();
    Pow2(32) - Pow2(32 - l)
  }

  /** How many of the first l bits of an address fall into its i-th word. */
  function Share(l: nat, i: nat): (r: nat)
    ensures r <= 32
  {
    if l <= 32 * i then 0 else if l >= 32 * i + 32 then 32 else l - 32 * i
  }

  ghost function Mask(af: Family, l: nat): XAddr
    requires MasklenValid(af, l)
  {
    if af.Inet? then V4(MaskWord(l))
    else V6(MaskWord(Share(l, 0)), MaskWord(Share(l, 1)), MaskWord(Share(l, 2)), MaskWord(Share(l, 3)), 0)
  }

  /** ~(0xffffffff >> l) */
  method TopOnes(l: nat) returns (w: u32)
    requires l <= 32
    ensures w == MaskWord(l)
  {
    Pow2At32();
    var shifted: u32 := 0xffff_ffff;
    for i := 0 to l
      invariant shifted == Pow2(32 - i) - 1
    {
      Pow2At32();
      assert Pow2(32 - i) == 2 * Pow2(31 - i);
      shifted := shifted / 2;
    }
    Pow2At32();
    w := 0xffff_ffff - shifted;
  }

  /** addr_netmask. */
  method Netmask(af: Family, l0: nat) returns (r: Option<XAddr>)
    ensures r == if MasklenValid(af, l0) then Some(Mask(af, l0)) else None
  {
    if !MasklenValid(af, l0) {
      return None;
    }
    Pow2At32();
    if af.Inet? {
      var w: u32 := 0xffff_ffff;
      if l0 != 32 {
        w := TopOnes(l0);
      }
      return Some(V4(w));
    }
    var words: seq<u32> := [0, 0, 0, 0];
    var i, l := 0, l0;
    while i < 4 && l >= 32
      invariant 0 <= i <= 4 && l == l0 - 32 * i && |words| == 4
      invariant forall j :: 0 <= j < 4 ==> words[j] == if j < i then 0xffff_ffff else 0
      decreases 4 - i
    {
      words := words[i := 0xffff_ffff];
      i, l := i + 1, l - 32;
    }
    if i < 4 && l != 0 {
      var w := TopOnes(l);
      words := words[i := w];
    }
    assert forall j :: 0 <= j < 4 ==> words[j] == MaskWord(Share(l0, j));
    r := Some(V6(words[0], words[1], words[2], words[3], 0));
  }

  /** A netmask is exactly l ones followed by zeros. */
  lemma MaskIsLeadingOnes(af: Family, l: nat)
    requires MasklenValid(af, l)
    ensures Pow2(Width(af) - l) <= Pow2(Width(af)) && Value(Mask(af, l)) == Pow2(Width(af)) - Pow2(Width(af) - l)
  {
    hide Pow2, MaskWord, Cleared, Share;
    Pow2Monotone(Width(af) - l, Width(af));
    if af.Inet6? {
      OnesCleared(Share(l, 0));
      OnesCleared(Share(l, 1));
      OnesCleared(Share(l, 2));
      OnesCleared(Share(l, 3));
      MaskedWords(0xffff_ffff, 0xffff_ffff, 0xffff_ffff, 0xffff_ffff, l);
      AllOnes();
      Pow2Add(l, 128 - l);
      OnesLeft(Pow2(128), Pow2(128 - l), Pow2(l));
    } else {
      MaskWordValue(l);
    }
  }

  lemma MaskWordValue(l: nat)
    requires l <= 32
    ensures MaskWord(l) == Pow2(32) - Pow2(32 - l)
  {
  }

  lemma AllOnes()
    ensures Quad(0xffff_ffff, 0xffff_ffff, 0xffff_ffff, 0xffff_ffff) == Pow2(128) - 1
  {
    Words(0);
    Pow2At32();
  }

  lemma OnesCleared(l: nat)
    requires l <= 32
    ensures Cleared(0xffff_ffff, l) == MaskWord(l)
  {
    Pow2At32();
    Pow2Add(l, 32 - l);
    OnesLeft(Pow2(32), Pow2(32 - l), Pow2(l));
  }

  lemma OnesLeft(all: nat, block: nat, count: nat)
    requires block > 0 && count > 0
    ensures all == count * block ==> (all - 1) % block == block - 1
  {
    if all == count * block {
      assert all - 1 == block * (count - 1) + (block - 1);
      ModUnique(all - 1, block, count - 1, block - 1);
    }
  }

  function AndWord(x: u32, y: u32): u32 {
    And(x, y)
  }

  /** addr_and. */
  function AddrAnd(a: XAddr, b: XAddr): Option<XAddr> {
    match (a, b)
    case (V4(x), V4(y)) => Some(V4(AndWord(x, y)))
    case (V6(a0, a1, a2, a3, scope), V6(b0, b1, b2, b3, _)) =>
      Some(V6(AndWord(a0, b0), AndWord(a1, b1), AndWord(a2, b2), AndWord(a3, b3), scope))
    case _ => None
  }

  lemma MaskedWord(w: u32, l: nat)
    requires l <= 32
    ensures AndWord(w, MaskWord(l)) == w - w % Pow2(32 - l)
  {
    Pow2At32();
    AndMask(w, 32, 32 - l);
  }

  /** Clearing the low bits of one digit, and all digits below it, clears the low bits of
      the number: hi, w and lo are the digits above, at and below, k bits of w stay. */
  lemma ClearBelow(hi: nat, w: u32, lo: nat, c: nat, k: nat)
    requires k <= 32 && lo < c
    ensures var m := Pow2(32 - k); var v := (hi * 0x1_0000_0000 + w) * c + lo;
      m * c > 0 && v - v % (m * c) == (hi * 0x1_0000_0000 + (w - w % m)) * c
  {
    var m := Pow2(32 - k);
    Pow2At32();
    Pow2Add(k, 32 - k);
    ClearDigit(hi, w, lo, c, Pow2(k), m);
  }

  lemma ClearDigit(hi: nat, w: u32, lo: nat, c: nat, p: nat, m: nat)
    requires p * m == 0x1_0000_0000 && m > 0 && lo < c
    ensures var v := (hi * 0x1_0000_0000 + w) * c + lo;
      m * c > 0 && v - v % (m * c) == (hi * 0x1_0000_0000 + (w - w % m)) * c
  {
    var q, s := w / m, w % m;
    var top := hi * p + q;
    Redigit(hi, p, m, q, s, w);
    ClearAt(top, s, m, c, lo);
    var high := hi * 0x1_0000_0000;
    assert high + w == m * top + s;
    assert high + (w - s) == m * top;
  }

  lemma Redigit(hi: nat, p: nat, m: nat, q: nat, s: nat, w: nat)
    requires p * m == 0x1_0000_0000 && w == m * q + s
    ensures hi * 0x1_0000_0000 + w == m * (hi * p + q) + s
  {
    assert hi * (p * m) == m * (hi * p);
    assert m * (hi * p + q) == m * (hi * p) + m * q;
  }

  lemma ClearAt(top: nat, s: nat, m: nat, c: nat, lo: nat)
    requires s < m && lo < c
    ensures var v := (m * top + s) * c + lo; m * c > 0 && v - v % (m * c) == (m * top) * c
  {
    var v := (m * top + s) * c + lo;
    Spread(m, top, s, c);
    MulMonotone(c, s + 1, m);
    assert c * (s + 1) == s * c + c && c * m == m * c;
    ModUnique(v, m * c, top, s * c + lo);
  }

  lemma Spread(m: nat, top: nat, s: nat, c: nat)
    ensures (m * top + s) * c == (m * c) * top + s * c && (m * c) * top == (m * top) * c
  {
    assert (m * top + s) * c == (m * top) * c + s * c;
    assert (m * top) * c == m * (top * c) == m * (c * top) == (m * c) * top;
  }

  const B3 := 0x1_0000_0000 * 0x1_0000_0000 * 0x1_0000_0000
  const B2 := 0x1_0000_0000 * 0x1_0000_0000

  lemma Words(l: nat)
    requires l <= 128
    ensures Pow2(96) == B3 && Pow2(64) == B2
    ensures l <= 32 ==> Pow2(128 - l) == Pow2(32 - l) * B3
    ensures 32 <= l <= 64 ==> Pow2(128 - l) == Pow2(64 - l) * B2
    ensures 64 <= l <= 96 ==> Pow2(128 - l) == Pow2(96 - l) * 0x1_0000_0000
  {
    Pow2At32();
    Pow2Add(32, 32);
    Pow2Add(64, 32);
    if l <= 32 { Pow2Add(32 - l, 96); }
    if 32 <= l <= 64 { Pow2Add(64 - l, 64); }
    if 64 <= l <= 96 { Pow2Add(96 - l, 32); }
  }

  /** Masking an address clears everything after its first l bits. */
  lemma MaskedAddr(a: XAddr, l: nat)
    requires MasklenValid(FamilyOf(a), l)
    ensures AddrAnd(a, Mask(FamilyOf(a), l)).Some?
    ensures var r := AddrAnd(a, Mask(FamilyOf(a), l)); var block := Pow2(Width(FamilyOf(a)) - l);
      && FamilyOf(r.value) == FamilyOf(a) && Scope(r.value) == Scope(a)
      && Value(r.value) == Value(a) - Value(a) % block
  {
    hide Pow2, And, AndWord, MaskWord, Share;
    match a
    case V4(v) =>
      MaskedWord(v, l);
    case V6(w0, w1, w2, w3, _) =>
      MaskedWord(w0, Share(l, 0));
      MaskedWord(w1, Share(l, 1));
      MaskedWord(w2, Share(l, 2));
      MaskedWord(w3, Share(l, 3));
      MaskedWords(w0, w1, w2, w3, l);
  }

  /** The value of four words. */
  ghost function Quad(w0: int, w1: int, w2: int, w3: int): int {
    ((w0 * 0x1_0000_0000 + w1) * 0x1_0000_0000 + w2) * 0x1_0000_0000 + w3
  }

  ghost function Cleared(w: u32, l: nat): int
    requires l <= 32
  {
    w - w % Pow2(32 - l)
  }

  lemma ClearedEnds(w: u32)
    ensures Cleared(w, 0) == 0 && Cleared(w, 32) == w
  {
    Pow2At32();
  }

  lemma MaskedWords(w0: u32, w1: u32, w2: u32, w3: u32, l: nat)
    requires l <= 128
    ensures var v := Quad(w0, w1, w2, w3);
      Quad(Cleared(w0, Share(l, 0)), Cleared(w1, Share(l, 1)), Cleared(w2, Share(l, 2)), Cleared(w3, Share(l, 3)))
        == v - v % Pow2(128 - l)
  {
    if l <= 32 {
      MaskedFirst(w0, w1, w2, w3, l);
    } else if l <= 64 {
      MaskedSecond(w0, w1, w2, w3, l);
    } else if l <= 96 {
      MaskedThird(w0, w1, w2, w3, l);
    } else {
      MaskedFourth(w0, w1, w2, w3, l);
    }
    ClearedEnds(w0);
    ClearedEnds(w1);
    ClearedEnds(w2);
    ClearedEnds(w3);
    hide Pow2, Cleared;
  }

  lemma MaskedFirst(w0: u32, w1: u32, w2: u32, w3: u32, l: nat)
    requires l <= 32
    ensures var v := Quad(w0, w1, w2, w3); Quad(Cleared(w0, l), 0, 0, 0) == v - v % Pow2(128 - l)
  {
    hide Pow2;
    Words(l);
    ClearBelow(0, w0, Low3(w1, w2, w3), B3, l);
  }

  lemma MaskedSecond(w0: u32, w1: u32, w2: u32, w3: u32, l: nat)
    requires 32 <= l <= 64
    ensures var v := Quad(w0, w1, w2, w3); Quad(w0, Cleared(w1, l - 32), 0, 0) == v - v % Pow2(128 - l)
  {
    hide Pow2;
    Words(l);
    ClearBelow(w0, w1, Low2(w2, w3), B2, l - 32);
  }

  lemma MaskedThird(w0: u32, w1: u32, w2: u32, w3: u32, l: nat)
    requires 64 <= l <= 96
    ensures var v := Quad(w0, w1, w2, w3); Quad(w0, w1, Cleared(w2, l - 64), 0) == v - v % Pow2(128 - l)
  {
    hide Pow2;
    Words(l);
    ClearBelow(w0 * 0x1_0000_0000 + w1, w2, w3, 0x1_0000_0000, l - 64);
  }

  lemma MaskedFourth(w0: u32, w1: u32, w2: u32, w3: u32, l: nat)
    requires 96 <= l <= 128
    ensures var v := Quad(w0, w1, w2, w3); Quad(w0, w1, w2, Cleared(w3, l - 96)) == v - v % Pow2(128 - l)
  {
    hide Pow2;
    ClearBelow((w0 * 0x1_0000_0000 + w1) * 0x1_0000_0000 + w2, w3, 0, 1, l - 96);
  }

  /** The numbers that the words after a given one make up. */
  ghost function Low2(w2: nat, w3: nat): nat { w2 * 0x1_0000_0000 + w3 }

  ghost function Low3(w1: nat, w2: nat, w3: nat): nat { (w1 * 0x1_0000_0000 + w2) * 0x1_0000_0000 + w3 }

  /** addr_netmatch. */
  method NetmatchCmp(host: XAddr, net: XAddr, masklen: nat) returns (r: int)
    ensures r == 0 <==> NetMatch(host, net, masklen)
  {
    hide Value, Pow2, And, Cmp, Mask;
    if FamilyOf(host) != FamilyOf(net) {
      return -1;
    }
    var mask := Netmask(FamilyOf(host), masklen);
    if mask.None? {
      return -1;
    }
    var masked := AddrAnd(host, mask.value);
    MaskedAddr(host, masklen);
    if masked.None? {
      return -1;
    }
    r := AddrCmp(masked.value, net);
    CmpIsOrder(masked.value, net);
    NetworkPart(host, masklen, net);
    SameAddr(masked.value, net);
  }

  /** An address is its family, its number and its scope. */
  lemma SameAddr(a: XAddr, b: XAddr)
    requires FamilyOf(a) == FamilyOf(b)
    ensures a == b <==> Value(a) == Value(b) && Scope(a) == Scope(b)
  {
    if a.V6? && a != b && Value(a) == Value(b) && a.scope == b.scope {
      RankInjective(a, b);
    }
  }

  /** The scope identifier, which only v6 addresses have. */
  function Scope(a: XAddr): u32 {
    if a.V6? then a.scope else 0
  }

  /** What an address matches: the same family and scope, and the same first masklen bits
      as a network whose remaining bits are zero. */
  ghost predicate NetMatch(host: XAddr, net: XAddr, masklen: nat) {
    && FamilyOf(host) == FamilyOf(net) && MasklenValid(FamilyOf(host), masklen)
    && Scope(host) == Scope(net)
    && var block := Pow2(Width(FamilyOf(host)) - masklen);
       Value(host) / block == Value(net) / block && Value(net) % block == 0
  }

  /** Two numbers agree after division by the block, and the second is a multiple of it,
      exactly when clearing the first one's remainder gives the second. */
  lemma NetworkPart(host: XAddr, masklen: nat, net: XAddr)
    requires MasklenValid(FamilyOf(host), masklen)
    ensures var block := Pow2(Width(FamilyOf(host)) - masklen); var h, n := Value(host), Value(net);
      h - h % block == n <==> h / block == n / block && n % block == 0
  {
    SameQuotient(Value(host), Value(net), Pow2(Width(FamilyOf(host)) - masklen));
  }

  lemma SameQuotient(h: nat, n: nat, block: nat)
    requires block > 0
    ensures h - h % block == n <==> h / block == n / block && n % block == 0
  {
    if h - h % block == n {
      ModUnique(n, block, h / block, 0);
    }
  }
}
