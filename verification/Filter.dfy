/** The filter of flowd/filter.c: an ordered list of rules of which the last match wins,
    unless a quick rule matches first. */
module Filter {
  import opened Addr
  import AddrMatch
  import Bits
  import opened Bytes
  import opened FlowRecord

  /** FF_MATCH_*. */
  datatype Criterion =
    | AgentAddr | SrcAddr | DstAddr | SrcPort | DstPort | Protocol | Tos | TcpFlags | Af | Daytime | Abstime | IfIn | IfOut

  datatype Network = Network(addr: XAddr, masklen: nat)

  /** struct filter_match. */
  datatype Match = Match(
    what: set<Criterion>, negate: set<Criterion>,
    agent: Network, af: AddrMatch.Family, src: Network, dst: Network,
    ifIn: int, ifOut: int, srcPort: int, dstPort: int, proto: int, tos: int,
    flagsMask: nat, flagsEquals: nat,
    dayMask: set<nat>, dayAfter: int, dayBefore: int, absAfter: int, absBefore: int)

  datatype Action = Accept | Discard | Tag(tag: u32)

  /** What localtime makes of a time: the day of the week and the second of the day. */
  datatype LocalTime = LocalTime(wday: nat, second: nat)
  type Zone = u32 -> LocalTime

  predicate DaytimeMatch(t: LocalTime, days: set<nat>, after: int, before: int) {
    && (days != {} ==> t.wday in days)
    && (before != -1 ==> t.second <= before)
    && (after != -1 ==> t.second >= after)
  }

  /** Whether a flow meets one criterion of a rule. */
  ghost predicate Meets(c: Criterion, m: Match, f: StoreFlow, zone: Zone) {
    match c
    case AgentAddr => AddrMatch.NetMatch(ToXAddr(f.agent), m.agent.addr, m.agent.masklen)
    case SrcAddr => AddrMatch.NetMatch(ToXAddr(f.src), m.src.addr, m.src.masklen)
    case DstAddr => AddrMatch.NetMatch(ToXAddr(f.dst), m.dst.addr, m.dst.masklen)
    case SrcPort => f.srcPort == m.srcPort
    case DstPort => f.dstPort == m.dstPort
    case Protocol => f.protocol == m.proto
    case Tos => f.tos == m.tos
    case TcpFlags => Bits.And(f.tcpFlags, m.flagsMask) == m.flagsEquals
    case Af => f.src.af == m.af || f.dst.af == m.af
    case Daytime => DaytimeMatch(zone(f.recvSec), m.dayMask, m.dayAfter, m.dayBefore)
    case Abstime => (m.absBefore > 0 ==> f.recvSec < m.absBefore) && (m.absAfter > 0 ==> f.recvSec > m.absAfter)
    case IfIn => f.ifIn == m.ifIn % 0x1_0000_0000
    case IfOut => f.ifOut == m.ifOut % 0x1_0000_0000
  }

  /** A rule matches a flow that meets each of its criteria, or fails it if negated. */
  ghost predicate Matches(m: Match, f: StoreFlow, zone: Zone) {
    forall c <- m.what :: Meets(c, m, f, zone) != (c in m.negate)
  }

  /** FRRETVAL. */
  predicate Fails(c: Criterion, m: Match, met: bool) {
    (c in m.negate && met) || (c !in m.negate && !met)
  }

  /** The criteria in the order in which flow_match tests them. */
  const ENDPOINTS: set<Criterion> := {AgentAddr, IfIn, IfOut, Af, SrcAddr, DstAddr}
  const FIELDS: set<Criterion> := {SrcPort, DstPort, Protocol, Tos, TcpFlags}
  const TIMES: set<Criterion> := {Daytime, Abstime}

  ghost predicate MatchesOn(cs: set<Criterion>, m: Match, f: StoreFlow, zone: Zone) {
    forall c <- cs :: c in m.what ==> Meets(c, m, f, zone) != (c in m.negate)
  }

  lemma AllCriteria(m: Match, f: StoreFlow, zone: Zone)
    ensures Matches(m, f, zone) <==>
      MatchesOn(ENDPOINTS, m, f, zone) && MatchesOn(FIELDS, m, f, zone) && MatchesOn(TIMES, m, f, zone)
  {
    hide Meets;
    forall c: Criterion ensures c in ENDPOINTS || c in FIELDS || c in TIMES {
      match c
      case AgentAddr | SrcAddr | DstAddr | SrcPort | DstPort | Protocol | Tos | TcpFlags | Af | Daytime | Abstime | IfIn | IfOut =>
    }
  }

  method NetworkMatch(host: XAddr, n: Network) returns (r: bool)
    ensures r <==> AddrMatch.NetMatch(host, n.addr, n.masklen)
  {
    var cmp := AddrMatch.NetmatchCmp(host, n.addr, n.masklen);
    r := cmp == 0;
  }

  /** flow_match as far as the destination address. */
  method EndpointsMatch(m: Match, f: StoreFlow, zone: Zone) returns (r: bool)
    ensures r <==> MatchesOn(ENDPOINTS, m, f, zone)
  {
    hide AddrMatch.NetMatch, ToXAddr;
    if AgentAddr in m.what {
      var met := NetworkMatch(ToXAddr(f.agent), m.agent);
      if Fails(AgentAddr, m, met) {
        return false;
      }
    }
    if IfIn in m.what && Fails(IfIn, m, f.ifIn == m.ifIn % 0x1_0000_0000) {
      return false;
    }
    if IfOut in m.what && Fails(IfOut, m, f.ifOut == m.ifOut % 0x1_0000_0000) {
      return false;
    }
    if Af in m.what && Fails(Af, m, f.src.af == m.af || f.dst.af == m.af) {
      return false;
    }
    if SrcAddr in m.what {
      var met := NetworkMatch(ToXAddr(f.src), m.src);
      if Fails(SrcAddr, m, met) {
        return false;
      }
    }
    if DstAddr in m.what {
      var met := NetworkMatch(ToXAddr(f.dst), m.dst);
      if Fails(DstAddr, m, met) {
        return false;
      }
    }
    r := true;
  }

  /** As far as the TCP flags. */
  method FieldsMatch(m: Match, f: StoreFlow, zone: Zone) returns (r: bool)
    ensures r <==> MatchesOn(FIELDS, m, f, zone)
  {
    hide Bits.And;
    if SrcPort in m.what && Fails(SrcPort, m, f.srcPort == m.srcPort) {
      return false;
    }
    if DstPort in m.what && Fails(DstPort, m, f.dstPort == m.dstPort) {
      return false;
    }
    if Protocol in m.what && Fails(Protocol, m, f.protocol == m.proto) {
      return false;
    }
    if Tos in m.what && Fails(Tos, m, f.tos == m.tos) {
      return false;
    }
    if TcpFlags in m.what && Fails(TcpFlags, m, Bits.And(f.tcpFlags, m.flagsMask) == m.flagsEquals) {
      return false;
    }
    r := true;
  }

  /** The rest of it. */
  method TimesMatch(m: Match, f: StoreFlow, zone: Zone) returns (r: bool)
    ensures r <==> MatchesOn(TIMES, m, f, zone)
  {
    hide DaytimeMatch;
    var tt := f.recvSec;
    if Daytime in m.what && Fails(Daytime, m, DaytimeMatch(zone(tt), m.dayMask, m.dayAfter, m.dayBefore)) {
      return false;
    }
    if Abstime in m.what {
      var met := true;
      if m.absBefore > 0 {
        met := met && tt < m.absBefore;
      }
      if m.absAfter > 0 {
        met := met && tt > m.absAfter;
      }
      if Fails(Abstime, m, met) {
        return false;
      }
    }
    r := true;
  }

  /** flow_match. */
  method FlowMatch(m: Match, f: StoreFlow, zone: Zone) returns (r: bool)
    ensures r <==> Matches(m, f, zone)
  {
    AllCriteria(m, f, zone);
    r := EndpointsMatch(m, f, zone);
    if r {
      r := FieldsMatch(m, f, zone);
    }
    if r {
      r := TimesMatch(m, f, zone);
    }
  }

  // ----- The list -----

  /** What a rule says; its counters are apart. */
  datatype Rule = Rule(action: Action, quick: bool, what: Match)

  ghost predicate Hits(rs: seq<Rule>, i: nat, f: StoreFlow, zone: Zone)
    requires i < |rs|
  {
    Matches(rs[i].what, f, zone)
  }

  ghost predicate QuickHit(rs: seq<Rule>, i: nat, f: StoreFlow, zone: Zone)
    requires i < |rs|
  {
    rs[i].quick && Hits(rs, i, f, zone)
  }

  /** The number of rules that are tried: up to the first quick one that matches. */
  ghost function Tried(rs: seq<Rule>, f: StoreFlow, zone: Zone): (n: nat)
    ensures n <= |rs| && forall i :: 0 <= i < n - 1 ==> !QuickHit(rs, i, f, zone)
    ensures n < |rs| ==> n > 0 && QuickHit(rs, n - 1, f, zone)
  {
    if rs == [] then 0
    else
      var n := |rs| - 1;
      var k := Tried(rs[..n], f, zone);
      assert forall i :: 0 <= i < n ==> QuickHit(rs, i, f, zone) == QuickHit(rs[..n], i, f, zone);
      if k > 0 && QuickHit(rs, k - 1, f, zone) then k else k + 1
  }

  /** The rule that decides: the last one tried that matches; -1 for none. */
  ghost predicate Decides(rs: seq<Rule>, f: StoreFlow, zone: Zone, w: int) {
    && -1 <= w < Tried(rs, f, zone)
    && (w >= 0 ==> Hits(rs, w, f, zone))
    && forall i :: w < i < Tried(rs, f, zone) ==> !Hits(rs, i, f, zone)
  }

  /** Some rule matches. */
  ghost predicate AnyHit(rs: seq<Rule>, f: StoreFlow, zone: Zone) {
    exists i :: 0 <= i < |rs| && Hits(rs, i, f, zone)
  }

  ghost function LastHit(rs: seq<Rule>, n: nat, f: StoreFlow, zone: Zone): (w: int)
    requires n <= |rs|
    ensures -1 <= w < n && (w >= 0 ==> Hits(rs, w, f, zone)) && forall i :: w < i < n ==> !Hits(rs, i, f, zone)
  {
    if n == 0 then -1 else if Hits(rs, n - 1, f, zone) then n - 1 else LastHit(rs, n - 1, f, zone)
  }

  ghost function Winner(rs: seq<Rule>, f: StoreFlow, zone: Zone): (w: int)
    ensures Decides(rs, f, zone, w)
  {
    LastHit(rs, Tried(rs, f, zone), f, zone)
  }

  /** One rule decides, and one does exactly when some rule matches at all. */
  lemma WinnerIs(rs: seq<Rule>, f: StoreFlow, zone: Zone, w: int)
    ensures Decides(rs, f, zone, w) <==> w == Winner(rs, f, zone)
    ensures Winner(rs, f, zone) >= 0 <==> AnyHit(rs, f, zone)
  {
    hide Hits, Tried, LastHit;
    var n := Tried(rs, f, zone);
    if AnyHit(rs, f, zone) {
      if n < |rs| { assert QuickHit(rs, n - 1, f, zone); }
    }
  }

  /** A quick rule that matches keeps every rule behind it out of the decision. */
  lemma QuickDecides(rs: seq<Rule>, f: StoreFlow, zone: Zone, i: nat, j: nat)
    requires i < j < |rs| && QuickHit(rs, i, f, zone)
    ensures Winner(rs, f, zone) <= i && Tried(rs, f, zone) <= i + 1
  {
    hide Hits;
  }

  /** The verdict on a flow, and the flow after it. */
  ghost function Filtered(rs: seq<Rule>, f: StoreFlow, zone: Zone): (Action, StoreFlow) {
    var w := Winner(rs, f, zone);
    if w < 0 then (Accept, f)
    else
      match rs[w].action
      case Accept => (Accept, f)
      case Discard => (Discard, f)
      case Tag(tag) => (Accept, f.(fields := f.fields + {TAG}, tag := tag))
  }

  // ----- The counters over runs -----

  ghost function Evaluations(rs: seq<Rule>, fs: seq<StoreFlow>, zone: Zone, i: nat): nat {
    if fs == [] then 0
    else Evaluations(rs, fs[..|fs| - 1], zone, i) + (if i < Tried(rs, fs[|fs| - 1], zone) then 1 else 0)
  }

  ghost function MatchCount(rs: seq<Rule>, fs: seq<StoreFlow>, zone: Zone, i: nat): nat
    requires i < |rs|
  {
    if fs == [] then 0
    else
      var f := fs[|fs| - 1];
      MatchCount(rs, fs[..|fs| - 1], zone, i) + (if i < Tried(rs, f, zone) && Hits(rs, i, f, zone) then 1 else 0)
  }

  ghost function Wins(rs: seq<Rule>, fs: seq<StoreFlow>, zone: Zone, i: nat): nat {
    if fs == [] then 0
    else Wins(rs, fs[..|fs| - 1], zone, i) + (if Winner(rs, fs[|fs| - 1], zone) == i then 1 else 0)
  }

  /** The wins of the first n rules. */
  ghost function TotalWins(rs: seq<Rule>, fs: seq<StoreFlow>, zone: Zone, n: nat): nat {
    if n == 0 then 0 else TotalWins(rs, fs, zone, n - 1) + Wins(rs, fs, zone, n - 1)
  }

  /** How many of the flows some rule matches. */
  ghost function MatchedFlows(rs: seq<Rule>, fs: seq<StoreFlow>, zone: Zone): nat {
    if fs == [] then 0
    else
      MatchedFlows(rs, fs[..|fs| - 1], zone)
      + (if AnyHit(rs, fs[|fs| - 1], zone) then 1 else 0)
  }

  /** Over every run each rule wins no more often than it matches, and matches no more often
      than it is tried; and no rule is tried more often than the one before it. */
  lemma {:induction false} CountersOrdered(rs: seq<Rule>, fs: seq<StoreFlow>, zone: Zone, i: nat)
    requires i < |rs|
    ensures Wins(rs, fs, zone, i) <= MatchCount(rs, fs, zone, i) <= Evaluations(rs, fs, zone, i) <= |fs|
    ensures Evaluations(rs, fs, zone, i + 1) <= Evaluations(rs, fs, zone, i)
    ensures Evaluations(rs, fs, zone, 0) == |fs|
  {
    hide Hits, Tried, Winner;
    if fs != [] {
      CountersOrdered(rs, fs[..|fs| - 1], zone, i);
      WinnerIs(rs, fs[|fs| - 1], zone, i);
      SomeTried(rs, fs[|fs| - 1], zone);
    }
  }

  lemma SomeTried(rs: seq<Rule>, f: StoreFlow, zone: Zone)
    requires rs != []
    ensures Tried(rs, f, zone) > 0
  {
    hide Hits;
  }

  /** The wins of all rules together are the flows that some rule matches. */
  lemma {:induction false} WinsAreMatches(rs: seq<Rule>, fs: seq<StoreFlow>, zone: Zone)
    ensures TotalWins(rs, fs, zone, |rs|) == MatchedFlows(rs, fs, zone)
  {
    hide Hits, Tried, Winner;
    if fs == [] {
      NoWins(rs, zone, |rs|);
    } else {
      var n := |fs| - 1;
      WinsAreMatches(rs, fs[..n], zone);
      WinnerIs(rs, fs[n], zone, Winner(rs, fs[n], zone));
      OneMoreFlow(rs, fs, zone, |rs|);
    }
  }

  lemma {:induction false} NoWins(rs: seq<Rule>, zone: Zone, n: nat)
    ensures TotalWins(rs, [], zone, n) == 0
  {
    if n > 0 { NoWins(rs, zone, n - 1); }
  }

  lemma {:induction false} OneMoreFlow(rs: seq<Rule>, fs: seq<StoreFlow>, zone: Zone, n: nat)
    requires fs != []
    ensures var w := Winner(rs, fs[|fs| - 1], zone);
      TotalWins(rs, fs, zone, n) == TotalWins(rs, fs[..|fs| - 1], zone, n) + (if 0 <= w < n then 1 else 0)
  {
    hide Winner;
    if n > 0 { OneMoreFlow(rs, fs, zone, n - 1); }
  }

  // ----- The rules in memory -----

  /** struct filter_rule. */
  class FilterRule {
    const rule: Rule
    var evaluations: nat
    var matches: nat
    var wins: nat

    constructor (rule: Rule)
      ensures this.rule == rule && evaluations == matches == wins == 0
    {
      this.rule := rule;
      evaluations, matches, wins := 0, 0, 0;
    }
  }

  ghost function RulesOf(entries: seq<FilterRule>): (rs: seq<Rule>)
    ensures |rs| == |entries| && forall i :: 0 <= i < |rs| ==> rs[i] == entries[i].rule
  {
    seq(|entries|, i requires 0 <= i < |entries| => entries[i].rule)
  }

  ghost predicate Apart(entries: seq<FilterRule>) {
    forall i, j :: 0 <= i < j < |entries| ==> entries[i] != entries[j]
  }

  datatype Counter = Counter(evaluations: nat, matches: nat, wins: nat)

  ghost function Counters(entries: seq<FilterRule>): (c: seq<Counter>)
    reads entries
    ensures |c| == |entries|
    ensures forall i :: 0 <= i < |c| ==> c[i] == Counter(entries[i].evaluations, entries[i].matches, entries[i].wins)
  {
    seq(|entries|, i requires 0 <= i < |entries| reads entries =>
      Counter(entries[i].evaluations, entries[i].matches, entries[i].wins))
  }

  /** The counters of rules that started at zero, after the given flows. */
  ghost predicate Counted(c: seq<Counter>, rs: seq<Rule>, fs: seq<StoreFlow>, zone: Zone) {
    |c| == |rs| && forall i :: 0 <= i < |c| ==>
      c[i] == Counter(Evaluations(rs, fs, zone, i), MatchCount(rs, fs, zone, i), Wins(rs, fs, zone, i))
  }

  lemma TriedIs(rs: seq<Rule>, f: StoreFlow, zone: Zone, n: nat)
    requires n <= |rs| && forall k :: 0 <= k < n - 1 ==> !QuickHit(rs, k, f, zone)
    requires n == |rs| || (n > 0 && QuickHit(rs, n - 1, f, zone))
    ensures Tried(rs, f, zone) == n
  {
    hide QuickHit, Tried;
  }

  ghost function Bumped(c: Counter, hit: bool): Counter {
    c.(evaluations := c.evaluations + 1, matches := c.matches + if hit then 1 else 0)
  }

  /** The counters once the first n rules were tried. */
  ghost function AfterTrying(c: seq<Counter>, rs: seq<Rule>, f: StoreFlow, zone: Zone, n: nat): (r: seq<Counter>)
    requires |c| == |rs|
    ensures |r| == |c| && forall i :: 0 <= i < |r| ==> r[i] == if i < n then Bumped(c[i], Hits(rs, i, f, zone)) else c[i]
  {
    seq(|c|, i requires 0 <= i < |c| => if i < n then Bumped(c[i], Hits(rs, i, f, zone)) else c[i])
  }

  lemma OneMoreTried(c: seq<Counter>, rs: seq<Rule>, f: StoreFlow, zone: Zone, n: nat)
    requires |c| == |rs| && n < |c|
    ensures var r := AfterTrying(c, rs, f, zone, n);
      AfterTrying(c, rs, f, zone, n + 1) == r[n := Bumped(r[n], Hits(rs, n, f, zone))]
    ensures AfterTrying(c, rs, f, zone, 0) == c
  {
    hide Hits, Bumped;
  }

  ghost function WithWin(c: seq<Counter>, w: int): seq<Counter> {
    if 0 <= w < |c| then c[w := c[w].(wins := c[w].wins + 1)] else c
  }

  /** The counters after one more flow. */
  lemma CountedMore(c: seq<Counter>, rs: seq<Rule>, past: seq<StoreFlow>, f: StoreFlow, zone: Zone)
    requires Counted(c, rs, past, zone)
    ensures Counted(WithWin(AfterTrying(c, rs, f, zone, Tried(rs, f, zone)), Winner(rs, f, zone)), rs, past + [f], zone)
  {
    hide Tried, Winner, Hits;
    assert (past + [f])[..|past|] == past;
  }

  /** One round of the loop of filter_flow. */
  method TryRule(flow: StoreFlow, entries: seq<FilterRule>, i: nat, zone: Zone) returns (m: bool)
    requires Apart(entries) && i < |entries|
    modifies entries[i]
    ensures m <==> Hits(RulesOf(entries), i, flow, zone)
    ensures Counters(entries) == old(Counters(entries))[i := Bumped(old(Counters(entries))[i], m)]
  {
    hide Matches;
    var fr := entries[i];
    m := FlowMatch(fr.rule.what, flow, zone);
    fr.evaluations := fr.evaluations + 1;
    if m {
      fr.matches := fr.matches + 1;
    }
  }

  /** The loop of filter_flow: the rules up to the first quick match. */
  method TryRules(flow: StoreFlow, entries: seq<FilterRule>, zone: Zone) returns (last: int)
    requires Apart(entries)
    modifies entries
    ensures last == Winner(RulesOf(entries), flow, zone)
    ensures Counters(entries) ==
      AfterTrying(old(Counters(entries)), RulesOf(entries), flow, zone, Tried(RulesOf(entries), flow, zone))
  {
    hide Tried, Hits, AfterTrying, Counters, Bumped, RulesOf, Apart;
    ghost var rs, c := RulesOf(entries), Counters(entries);
    var i := 0;
    last := -1;
    if entries == [] { NothingTried(c, rs, flow, zone); } else { OneMoreTried(c, rs, flow, zone, 0); }
    while i < |entries|
      invariant 0 <= i <= |entries| && last == LastHit(rs, i, flow, zone)
      invariant forall k :: 0 <= k < i ==> !QuickHit(rs, k, flow, zone)
      invariant Counters(entries) == AfterTrying(c, rs, flow, zone, i)
    {
      OneMoreTried(c, rs, flow, zone, i);
      var m := TryRule(flow, entries, i, zone);
      i := i + 1;
      if m {
        last := i - 1;
        if entries[i - 1].rule.quick {
          break;
        }
      }
    }
    TriedIs(rs, flow, zone, i);
  }

  lemma NothingTried(c: seq<Counter>, rs: seq<Rule>, f: StoreFlow, zone: Zone)
    requires c == [] && rs == []
    ensures AfterTrying(c, rs, f, zone, 0) == c
  {
  }

  method Win(entries: seq<FilterRule>, w: nat)
    requires Apart(entries) && w < |entries|
    modifies entries[w]
    ensures Counters(entries) == WithWin(old(Counters(entries)), w)
  {
    entries[w].wins := entries[w].wins + 1;
  }

  /** filter_flow: the verdict, the flow, and the counters of every rule. */
  method FilterFlow(flow: StoreFlow, entries: seq<FilterRule>, zone: Zone, ghost past: seq<StoreFlow>)
    returns (action: Action, flow': StoreFlow)
    requires Apart(entries) && Counted(Counters(entries), RulesOf(entries), past, zone)
    modifies entries
    ensures (action, flow') == Filtered(RulesOf(entries), flow, zone)
    ensures Counted(Counters(entries), RulesOf(entries), past + [flow], zone)
  {
    hide Tried, Hits, Winner, Counted, Counters, Apart, AfterTrying;
    CountedMore(Counters(entries), RulesOf(entries), past, flow, zone);
    action, flow' := Accept, flow;
    var last := TryRules(flow, entries, zone);
    if last >= 0 {
      Win(entries, last);
      match entries[last].rule.action
      case Accept =>
      case Discard => action := Discard;
      case Tag(tag) => flow' := flow.(fields := flow.fields + {TAG}, tag := tag);
    }
  }
}
