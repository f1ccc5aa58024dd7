/** What each criterion of a filter rule (flow_match of flowd/filter.c) asks, in the fields
    of the flow and of the rule, and how criteria go together. */
module FilterLaws {
  import opened Addr
  import AddrMatch
  import opened Bits
  import opened Bytes
  import opened Filter
  import opened FlowRecord

  // ----- Several criteria -----

  /** A rule with several criteria is all the rules with one of them each. */
  lemma OneByOne(m: Match, f: StoreFlow, zone: Zone)
    ensures Matches(m, f, zone) <==> forall c <- m.what :: Matches(m.(what := {c}), f, zone)
    ensures m.what == {} ==> Matches(m, f, zone)
  {
    forall c | c in m.what
      ensures Matches(m.(what := {c}), f, zone) <==> Meets(c, m, f, zone) != (c in m.negate)
    {
      SameAsked(c, m, m.(what := {c}), f, zone);
      var one := m.(what := {c}).what;
      assert c in one && one == {c};
    }
  }

  lemma SameAsked(c: Criterion, m: Match, m': Match, f: StoreFlow, zone: Zone)
    requires m' == m.(what := m'.what, negate := m'.negate)
    ensures Meets(c, m', f, zone) == Meets(c, m, f, zone)
  {
  }

  /** The rule with the one criterion c, which is not negated; and its negation. */
  ghost function Only(m: Match, c: Criterion): Match {
    m.(what := {c}, negate := {})
  }

  ghost function Not(m: Match, c: Criterion): Match {
    m.(what := {c}, negate := {c})
  }

  /** One criterion is met, or failed if it is negated, whatever else the rule says. */
  lemma OneCriterion(m: Match, c: Criterion, f: StoreFlow, zone: Zone)
    requires m.what == {c}
    ensures Matches(m, f, zone) <==> Matches(Only(m, c), f, zone) != (c in m.negate)
    ensures Matches(Not(m, c), f, zone) <==> !Matches(Only(m, c), f, zone)
    ensures Matches(Only(m, c), f, zone) <==> Meets(c, m, f, zone)
  {
    SameAsked(c, m, Only(m, c), f, zone);
    SameAsked(c, m, Not(m, c), f, zone);
    assert c in m.what && c in Only(m, c).what && c in Not(m, c).what;
  }

  lemma Asked(m: Match, c: Criterion, f: StoreFlow, zone: Zone)
    ensures Matches(Only(m, c), f, zone) <==> Meets(c, m, f, zone)
  {
    OneCriterion(Only(m, c), c, f, zone);
    SameAsked(c, m, Only(m, c), f, zone);
  }

  // ----- Times -----

  /** By day and time of day the matching seconds of the matching days are exactly those
      from the one bound to the other, both included; -1 is no bound, and no days are every
      day. */
  lemma DaytimeAsks(m: Match, f: StoreFlow, zone: Zone)
    ensures var t := zone(f.recvSec); Matches(Only(m, Daytime), f, zone) <==>
      && (m.dayMask == {} || t.wday in m.dayMask)
      && (m.dayAfter == -1 || m.dayAfter <= t.second) && (m.dayBefore == -1 || t.second <= m.dayBefore)
    ensures m.dayBefore != -1 && m.dayAfter > m.dayBefore ==> !Matches(Only(m, Daytime), f, zone)
  {
    Asked(m, Daytime, f, zone);
  }

  /** A wider window never loses a match, with whatever other criteria; negated, it never
      gains one. */
  lemma WiderDaytime(m: Match, days: set<nat>, after: int, before: int, f: StoreFlow, zone: Zone)
    requires (m.dayMask != {} && m.dayMask <= days) || days == {}
    requires after <= m.dayAfter || after == -1
    requires (m.dayBefore != -1 && before >= m.dayBefore) || before == -1
    ensures var m' := m.(dayMask := days, dayAfter := after, dayBefore := before);
      && (Daytime !in m.negate && Matches(m, f, zone) ==> Matches(m', f, zone))
      && (Daytime in m.negate && Matches(m', f, zone) ==> Matches(m, f, zone))
  {
    hide DaytimeMatch, AddrMatch.NetMatch, And, ToXAddr;
    var m' := m.(dayMask := days, dayAfter := after, dayBefore := before);
    Asked(m, Daytime, f, zone);
    Asked(m', Daytime, f, zone);
    DaytimeAsks(m, f, zone);
    DaytimeAsks(m', f, zone);
    OtherTimes(m, m', f, zone);
  }

  lemma OtherTimes(m: Match, m': Match, f: StoreFlow, zone: Zone)
    requires m' == m.(dayMask := m'.dayMask, dayAfter := m'.dayAfter, dayBefore := m'.dayBefore)
    ensures forall c :: c != Daytime ==> Meets(c, m', f, zone) == Meets(c, m, f, zone)
  {
    hide AddrMatch.NetMatch, And, ToXAddr, DaytimeMatch;
    forall c | c != Daytime ensures Meets(c, m', f, zone) == Meets(c, m, f, zone) {
    }
  }

  /** For one: up to nine in the morning, at eight and at ten. */
  lemma EarlyMorning(m: Match, f: StoreFlow, zone: Zone, second: nat)
    requires m.dayMask == {} && m.dayAfter == -1 && m.dayBefore == 9 * 3600 && zone(f.recvSec).second == second
    ensures second == 8 * 3600 ==> Matches(Only(m, Daytime), f, zone)
    ensures second == 10 * 3600 ==> !Matches(Only(m, Daytime), f, zone)
  {
    DaytimeAsks(m, f, zone);
  }

  /** By absolute time the matching times are exactly those between the two bounds, both
      excluded; a bound that is not positive is none. */
  lemma AbstimeAsks(m: Match, f: StoreFlow, zone: Zone)
    ensures Matches(Only(m, Abstime), f, zone) <==>
      (m.absAfter <= 0 || m.absAfter < f.recvSec) && (m.absBefore <= 0 || f.recvSec < m.absBefore)
    ensures 0 < m.absBefore <= m.absAfter + 1 && m.absAfter > 0 ==> !Matches(Only(m, Abstime), f, zone)
  {
    Asked(m, Abstime, f, zone);
  }

  // ----- Addresses -----

  /** The network of a rule holds an address: they are of one family and of one scope, the
      mask is not longer than the address, the first bits are the network's, and all bits of
      the network behind them are zero. */
  ghost predicate Holds(n: Network, a: XAddr) {
    match (a, n.addr)
    case (V4(x), V4(y)) => n.masklen <= 32 && var block := Pow2(32 - n.masklen); x / block == y / block && y % block == 0
    case (V6(_, _, _, _, s), V6(_, _, _, _, t)) =>
      s == t && n.masklen <= 128 && var block := Pow2(128 - n.masklen);
      Value(a) / block == Value(n.addr) / block && Value(n.addr) % block == 0
    case _ => false
  }

  lemma HoldsIs(n: Network, a: XAddr)
    ensures AddrMatch.NetMatch(a, n.addr, n.masklen) <==> Holds(n, a)
  {
    hide Pow2;
  }

  /** Each address of the flow is asked by the criterion of its own. */
  lemma AddressesAsk(m: Match, f: StoreFlow, zone: Zone)
    ensures Matches(Only(m, AgentAddr), f, zone) <==> Holds(m.agent, ToXAddr(f.agent))
    ensures Matches(Only(m, SrcAddr), f, zone) <==> Holds(m.src, ToXAddr(f.src))
    ensures Matches(Only(m, DstAddr), f, zone) <==> Holds(m.dst, ToXAddr(f.dst))
  {
    hide AddrMatch.NetMatch, Holds, ToXAddr;
    Asked(m, AgentAddr, f, zone);
    Asked(m, SrcAddr, f, zone);
    Asked(m, DstAddr, f, zone);
    HoldsIs(m.agent, ToXAddr(f.agent));
    HoldsIs(m.src, ToXAddr(f.src));
    HoldsIs(m.dst, ToXAddr(f.dst));
  }

  /** Networks nest: a shorter mask on the same bits holds no fewer addresses. */
  lemma ShorterMask(n: Network, l: nat, a: XAddr, net: XAddr)
    requires var w := AddrMatch.Width(AddrMatch.FamilyOf(n.addr));
      l <= n.masklen <= w && Value(net) == Value(n.addr) - Value(n.addr) % Pow2(w - l)
    requires AddrMatch.FamilyOf(net) == AddrMatch.FamilyOf(n.addr) && AddrMatch.Scope(net) == AddrMatch.Scope(n.addr)
    requires Holds(n, a)
    ensures Holds(Network(net, l), a)
  {
    hide Pow2, Value, Holds;
    HoldsIs(n, a);
    HoldsIs(Network(net, l), a);
    var w := AddrMatch.Width(AddrMatch.FamilyOf(a));
    Pow2Add(w - n.masklen, n.masklen - l);
    Nested(Value(a), Value(n.addr), Value(net), Pow2(w - n.masklen), Pow2(n.masklen - l), Pow2(w - l));
  }

  lemma Nested(x: nat, y: nat, y': nat, small: nat, k: nat, block: nat)
    requires small > 0 && k > 0 && block > 0 && block == small * k && x / small == y / small && y' == y - y % block
    ensures x / block == y' / block && y' % block == 0
  {
    Twice(x, small, k, block);
    Twice(y, small, k, block);
    Multiple(y, block);
  }

  /** Dividing twice is dividing once by the product. */
  lemma Twice(x: nat, a: nat, b: nat, c: nat)
    requires a > 0 && b > 0 && c > 0 && c == a * b
    ensures x / c == x / a / b
  {
    var q, r := x / a, x % a;
    var u, v := q / b, q % b;
    assert x == a * q + r;
    assert q == b * u + v;
    Digits(a, b, q, u, v, r);
    ModUnique(x, c, u, a * v + r);
  }

  lemma Digits(a: nat, b: nat, q: nat, u: nat, v: nat, r: nat)
    requires v < b && r < a && q == b * u + v
    ensures a * q + r == (a * b) * u + (a * v + r) && a * v + r < a * b
  {
    assert a * q == a * (b * u) + a * v && a * (b * u) == (a * b) * u;
    MulMonotone(a, v + 1, b);
    assert a * (v + 1) == a * v + a;
  }

  lemma Multiple(y: nat, block: nat)
    requires block > 0
    ensures (y - y % block) % block == 0 && (y - y % block) / block == y / block
  {
    assert y - y % block == block * (y / block) + 0;
    ModUnique(y - y % block, block, y / block, 0);
  }

  // ----- Numbers -----

  /** Ports, protocol and type of service are asked for equality, the source by the source
      port and the destination by the destination port. */
  lemma NumbersAsk(m: Match, f: StoreFlow, zone: Zone)
    ensures Matches(Only(m, SrcPort), f, zone) <==> f.srcPort == m.srcPort
    ensures Matches(Only(m, DstPort), f, zone) <==> f.dstPort == m.dstPort
    ensures Matches(Only(m, Protocol), f, zone) <==> f.protocol == m.proto
    ensures Matches(Only(m, Tos), f, zone) <==> f.tos == m.tos
  {
    Asked(m, SrcPort, f, zone);
    Asked(m, DstPort, f, zone);
    Asked(m, Protocol, f, zone);
    Asked(m, Tos, f, zone);
  }

  /** The family is asked of the source and of the destination: one of them has to have it. */
  lemma FamilyAsks(m: Match, f: StoreFlow, zone: Zone)
    ensures Matches(Only(m, Af), f, zone) <==> m.af in {f.src.af, f.dst.af}
  {
    Asked(m, Af, f, zone);
  }

  /** An interface of the rule is a C int and the flow's an unsigned one: a flow matches
      exactly if the two differ by a multiple of 2^32. */
  lemma InterfacesAsk(m: Match, f: StoreFlow, zone: Zone)
    ensures Matches(Only(m, IfIn), f, zone) <==> (m.ifIn - f.ifIn) % 0x1_0000_0000 == 0
    ensures Matches(Only(m, IfOut), f, zone) <==> (m.ifOut - f.ifOut) % 0x1_0000_0000 == 0
    ensures 0 <= m.ifIn < 0x8000_0000 ==> (Matches(Only(m, IfIn), f, zone) <==> f.ifIn == m.ifIn)
    ensures 0 <= m.ifOut < 0x8000_0000 ==> (Matches(Only(m, IfOut), f, zone) <==> f.ifOut == m.ifOut)
  {
    Asked(m, IfIn, f, zone);
    Asked(m, IfOut, f, zone);
    SameWord(m.ifIn, f.ifIn);
    SameWord(m.ifOut, f.ifOut);
  }

  lemma SameWord(a: int, x: u32)
    ensures x == a % 0x1_0000_0000 <==> (a - x) % 0x1_0000_0000 == 0
    ensures 0 <= a < 0x8000_0000 ==> a % 0x1_0000_0000 == a
  {
    var q, r := a / 0x1_0000_0000, a % 0x1_0000_0000;
    assert a - x == 0x1_0000_0000 * q + (r - x);
  }

  // ----- TCP flags -----

  ghost function Bit(x: nat, k: nat): nat {
    x / Pow2(k) % 2
  }

  lemma BitNext(x: nat, k: nat)
    ensures Bit(x, k + 1) == Bit(x / 2, k) && Bit(x, 0) == x % 2
  {
    Twice(x, 2, Pow2(k), Pow2(k + 1));
  }

  lemma {:induction false} AndBit(x: nat, y: nat, k: nat)
    ensures Bit(And(x, y), k) == Bit(x, k) * Bit(y, k)
    decreases k
  {
    hide Bit;
    BitNext(x, k);
    BitNext(y, k);
    BitNext(And(x, y), k);
    if x == 0 || y == 0 {
      NoBits(k);
    } else if k == 0 {
      BitNext(x, 0);
      BitNext(y, 0);
      BitNext(And(x, y), 0);
      OneBit(x % 2, y % 2, And(x / 2, y / 2));
    } else {
      BitNext(x, k - 1);
      BitNext(y, k - 1);
      BitNext(And(x, y), k - 1);
      OneBit(x % 2, y % 2, And(x / 2, y / 2));
      AndBit(x / 2, y / 2, k - 1);
    }
  }

  lemma OneBit(a: nat, b: nat, n: nat)
    requires a < 2 && b < 2
    ensures (2 * n + a * b) / 2 == n && (2 * n + a * b) % 2 == a * b
  {
  }

  lemma NoBits(k: nat)
    ensures Bit(0, k) == 0
  {
  }

  lemma {:induction false} SameBits(x: nat, y: nat)
    requires forall k: nat :: Bit(x, k) == Bit(y, k)
    ensures x == y
    decreases x + y
  {
    hide Bit;
    BitNext(x, 0);
    BitNext(y, 0);
    assert Bit(x, 0) == Bit(y, 0);
    if x > 0 || y > 0 {
      forall k: nat ensures Bit(x / 2, k) == Bit(y / 2, k) {
        BitNext(x, k);
        BitNext(y, k);
        assert Bit(x, k + 1) == Bit(y, k + 1);
      }
      SameBits(x / 2, y / 2);
    }
  }

  /** The flags are asked bit by bit: those under the mask are the ones wanted, and none is
      wanted outside the mask. */
  lemma FlagsAsk(m: Match, f: StoreFlow, zone: Zone)
    ensures Matches(Only(m, TcpFlags), f, zone) <==>
      forall k: nat :: Bit(m.flagsEquals, k) == if Bit(m.flagsMask, k) == 1 then Bit(f.tcpFlags, k) else 0
  {
    hide And, Bit;
    Asked(m, TcpFlags, f, zone);
    var both := And(f.tcpFlags, m.flagsMask);
    forall k: nat
      ensures Bit(both, k) == if Bit(m.flagsMask, k) == 1 then Bit(f.tcpFlags, k) else 0
    {
      AndBit(f.tcpFlags, m.flagsMask, k);
      BitSmall(m.flagsMask, k);
      BitSmall(f.tcpFlags, k);
    }
    if forall k: nat :: Bit(m.flagsEquals, k) == if Bit(m.flagsMask, k) == 1 then Bit(f.tcpFlags, k) else 0 {
      SameBits(both, m.flagsEquals);
    }
  }

  lemma BitSmall(x: nat, k: nat)
    ensures Bit(x, k) == 0 || Bit(x, k) == 1
  {
  }
}
