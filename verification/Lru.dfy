/** The eviction rule that flowd/peer.c applies at three levels (peers, the sources of a
    peer, the templates of a source): a list with the last used entry first, whose last
    entry makes room when the list is full. */
module Lru {
  import opened Sequences

  datatype Op<K> = Use(k: K) | Drop(k: K)

  function Without<K(==)>(s: seq<K>, k: K): (r: seq<K>) {
    if s == [] then [] else if s[0] == k then Without(s[1..], k) else [s[0]] + Without(s[1..], k)
  }

  function Step<K(==)>(cap: nat, s: seq<K>, op: Op<K>): (r: seq<K>)
    requires cap > 0
  {
    match op
    case Use(k) =>
      if k in s then [k] + Without(s, k)
      else if |s| >= cap then [k] + s[..|s| - 1]
      else [k] + s
    case Drop(k) => Without(s, k)
  }

  /** The list after a history of uses and removals. */
  function Run<K(==)>(cap: nat, ops: seq<Op<K>>): seq<K>
    requires cap > 0
  {
    if ops == [] then [] else Step(cap, Run(cap, ops[..|ops| - 1]), ops[|ops| - 1])
  }

  /** When k was last used, on the clock that counts operations; -1 for never. */
  function LastUse<K(==)>(ops: seq<Op<K>>, k: K): int {
    if ops == [] then -1
    else if ops[|ops| - 1] == Use(k) then |ops| - 1
    else LastUse(ops[..|ops| - 1], k)
  }

  /** Strictly ordered by last use, most recent first. */
  ghost predicate ByRecency<K>(ops: seq<Op<K>>, s: seq<K>) {
    && (forall k <- s :: LastUse(ops, k) >= 0)
    && forall i, j :: 0 <= i < j < |s| ==> LastUse(ops, s[i]) > LastUse(ops, s[j])
  }

  // ----- Without -----

  lemma {:induction false} WithoutMember<K>(s: seq<K>, k: K, x: K)
    ensures x in Without(s, k) <==> x in s && x != k
  {
    if s != [] {
      WithoutMember(s[1..], k, x);
      assert s == [s[0]] + s[1..];
    }
  }

  lemma {:induction false} WithoutSame<K>(s: seq<K>, k: K)
    ensures k !in s ==> Without(s, k) == s
    ensures |Without(s, k)| <= |s| && (k in s ==> |Without(s, k)| < |s|)
  {
    if s != [] {
      WithoutSame(s[1..], k);
      assert s == [s[0]] + s[1..];
    }
  }

  /** Taking the i-th entry out of a list without repetitions. */
  lemma {:induction false} WithoutAt<K>(s: seq<K>, i: nat)
    requires Distinct(s) && i < |s|
    ensures Without(s, s[i]) == s[..i] + s[i + 1..]
  {
    if i == 0 {
      WithoutSame(s[1..], s[0]);
      assert s[..0] + s[1..] == s[1..];
    } else {
      assert s[1..][i - 1] == s[i];
      WithoutAt(s[1..], i - 1);
      assert s[..i] + s[i + 1..] == [s[0]] + (s[1..][..i - 1] + s[1..][i..]);
    }
  }

  lemma WithoutDistinct<K>(s: seq<K>, k: K)
    requires Distinct(s)
    ensures Distinct(Without(s, k))
  {
    if k in s {
      var i :| 0 <= i < |s| && s[i] == k;
      WithoutAt(s, i);
    } else {
      WithoutSame(s, k);
    }
  }

  lemma DistinctFront<K>(k: K, s: seq<K>)
    requires Distinct(s) && k !in s
    ensures Distinct([k] + s)
  {
  }

  lemma DistinctPrefix<K>(s: seq<K>, n: nat)
    requires Distinct(s) && n <= |s|
    ensures Distinct(s[..n])
  {
  }

  // ----- One operation -----

  lemma StepKeeps<K>(cap: nat, s: seq<K>, op: Op<K>)
    requires cap > 0 && Distinct(s) && |s| <= cap
    ensures Distinct(Step(cap, s, op)) && |Step(cap, s, op)| <= cap
  {
    WithoutDistinct(s, op.k);
    WithoutSame(s, op.k);
    WithoutMember(s, op.k, op.k);
    DistinctFront(op.k, Without(s, op.k));
    if op.Use? && op.k !in s && |s| >= cap {
      DistinctPrefix(s, |s| - 1);
      DistinctFront(op.k, s[..|s| - 1]);
    }
  }

  lemma StepRecency<K>(cap: nat, ops: seq<Op<K>>, s: seq<K>, op: Op<K>)
    requires cap > 0 && Distinct(s) && ByRecency(ops, s)
    ensures ByRecency(ops + [op], Step(cap, s, op))
  {
    var ops' := ops + [op];
    assert ops'[..|ops|] == ops;
    LastUseBound(ops, op.k);
    if op.k in s {
      var i :| 0 <= i < |s| && s[i] == op.k;
      WithoutAt(s, i);
      RecencyKept(ops, op, s[..i] + s[i + 1..]);
    } else {
      WithoutSame(s, op.k);
      RecencyKept(ops, op, s);
      if |s| >= cap > 0 { RecencyKept(ops, op, s[..|s| - 1]); }
    }
  }

  lemma {:induction false} LastUseBound<K>(ops: seq<Op<K>>, k: K)
    ensures -1 <= LastUse(ops, k) < |ops|
  {
    if ops != [] { LastUseBound(ops[..|ops| - 1], k); }
  }

  /** An operation on another key leaves a list ordered, with room in front for its own. */
  lemma RecencyKept<K>(ops: seq<Op<K>>, op: Op<K>, s: seq<K>)
    requires ByRecency(ops, s) && op.k !in s
    ensures ByRecency(ops + [op], s)
    ensures op.Use? ==> ByRecency(ops + [op], [op.k] + s)
  {
    var ops' := ops + [op];
    assert ops'[..|ops|] == ops;
    forall k <- s ensures LastUse(ops', k) == LastUse(ops, k) < |ops| {
      LastUseBound(ops, k);
    }
    if op.Use? {
      var s' := [op.k] + s;
      forall i, j | 0 <= i < j < |s'| ensures LastUse(ops', s'[i]) > LastUse(ops', s'[j]) {
        assert s'[j] == s[j - 1];
        if i > 0 { assert s'[i] == s[i - 1]; }
      }
    }
  }

  // ----- Whole runs -----

  /** In every run the list has no repetitions, keeps to its bound, and is strictly ordered
      by last use. */
  lemma {:induction false} RunInvariant<K>(cap: nat, ops: seq<Op<K>>)
    requires cap > 0
    ensures Distinct(Run(cap, ops)) && |Run(cap, ops)| <= cap && ByRecency(ops, Run(cap, ops))
    decreases |ops|
  {
    if ops != [] {
      var n := |ops| - 1;
      RunInvariant(cap, ops[..n]);
      StepKeeps(cap, Run(cap, ops[..n]), ops[n]);
      StepRecency(cap, ops[..n], Run(cap, ops[..n]), ops[n]);
      assert ops[..n] + [ops[n]] == ops;
    }
  }

  /** A use of a new key on a full list removes the least recently used entry and nothing
      else; every other operation removes at most its own key. */
  lemma EvictsLeastRecent<K>(cap: nat, ops: seq<Op<K>>, op: Op<K>, x: K)
    requires cap > 0 && x in Run(cap, ops) && x != op.k
    ensures var s := Run(cap, ops);
      x !in Run(cap, ops + [op]) <==>
        op.Use? && op.k !in s && |s| == cap && forall y <- s :: LastUse(ops, x) <= LastUse(ops, y)
  {
    var s := Run(cap, ops);
    RunInvariant(cap, ops);
    assert (ops + [op])[..|ops|] == ops;
    WithoutMember(s, op.k, x);
    if op.Use? && op.k !in s && |s| == cap {
      LastIsLeast(ops, s, x);
    }
  }

  lemma LastIsLeast<K>(ops: seq<Op<K>>, s: seq<K>, x: K)
    requires ByRecency(ops, s) && Distinct(s) && x in s
    ensures x !in s[..|s| - 1] <==> forall y <- s :: LastUse(ops, x) <= LastUse(ops, y)
  {
    var i :| 0 <= i < |s| && s[i] == x;
    if i < |s| - 1 {
      assert s[..|s| - 1][i] == x;
      var z := s[|s| - 1];
      assert z in s && LastUse(ops, z) < LastUse(ops, s[i]);
    } else {
      forall y <- s ensures LastUse(ops, x) <= LastUse(ops, y) {
        var j :| 0 <= j < |s| && s[j] == y;
      }
    }
  }

  /** The list of all keys ever used, most recent first. */
  function Recent<K(==)>(ops: seq<Op<K>>): seq<K> {
    if ops == [] then []
    else var op := ops[|ops| - 1]; var s := Recent(ops[..|ops| - 1]);
      (if op.Use? then [op.k] else []) + Without(s, op.k)
  }

  lemma {:induction false} RecentIsByUse<K>(ops: seq<Op<K>>)
    requires forall op <- ops :: op.Use?
    ensures Distinct(Recent(ops)) && ByRecency(ops, Recent(ops))
    ensures forall k :: k in Recent(ops) <==> LastUse(ops, k) >= 0
    decreases |ops|
  {
    if ops != [] {
      var n := |ops| - 1;
      var s, op := Recent(ops[..n]), ops[n];
      RecentIsByUse(ops[..n]);
      assert ops[..n] + [op] == ops;
      WithoutDistinct(s, op.k);
      WithoutMember(s, op.k, op.k);
      DistinctFront(op.k, Without(s, op.k));
      WithoutRecency(ops[..n], s, op.k);
      RecencyKept(ops[..n], op, Without(s, op.k));
      forall k ensures k in Recent(ops) <==> LastUse(ops, k) >= 0 {
        WithoutMember(s, op.k, k);
      }
    }
  }

  lemma WithoutRecency<K>(ops: seq<Op<K>>, s: seq<K>, k: K)
    requires Distinct(s) && ByRecency(ops, s)
    ensures ByRecency(ops, Without(s, k))
  {
    if k in s {
      var i :| 0 <= i < |s| && s[i] == k;
      WithoutAt(s, i);
    } else {
      WithoutSame(s, k);
    }
  }

  function Take<K>(s: seq<K>, n: nat): seq<K> {
    if n < |s| then s[..n] else s
  }

  /** Without removals, the bounded list is exactly the most recently used keys, as many
      as it has room for. */
  lemma {:induction false} RunIsMostRecent<K>(cap: nat, ops: seq<Op<K>>)
    requires cap > 0 && forall op <- ops :: op.Use?
    ensures Run(cap, ops) == Take(Recent(ops), cap)
    decreases |ops|
  {
    if ops != [] {
      var n := |ops| - 1;
      RunIsMostRecent(cap, ops[..n]);
      RecentIsByUse(ops[..n]);
      UseTaken(cap, Recent(ops[..n]), ops[n].k);
    }
  }

  lemma UseTaken<K>(cap: nat, s: seq<K>, k: K)
    requires cap > 0 && Distinct(s)
    ensures Step(cap, Take(s, cap), Use(k)) == Take([k] + Without(s, k), cap)
  {
    if k in s {
      var i :| 0 <= i < |s| && s[i] == k;
      WithoutAt(s, i);
      UseTakenAt(cap, s, i);
    } else {
      WithoutSame(s, k);
    }
  }

  lemma UseTakenAt<K>(cap: nat, s: seq<K>, i: nat)
    requires cap > 0 && Distinct(s) && i < |s|
    ensures Step(cap, Take(s, cap), Use(s[i])) == Take([s[i]] + (s[..i] + s[i + 1..]), cap)
  {
    var t, k := Take(s, cap), s[i];
    DistinctPrefix(s, |t|);
    if i >= |t| {
      assert Take([k] + (s[..i] + s[i + 1..]), cap) == [k] + s[..cap - 1];
    } else {
      assert t[i] == k;
      WithoutAt(t, i);
      if |t| < |s| {
        // the entry just past the bound moves up, and is cut off again
        assert Take([k] + (s[..i] + s[i + 1..]), cap) == [k] + (s[..i] + s[i + 1..cap]);
      }
    }
  }
}
