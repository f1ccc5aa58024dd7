/** Optional values, and sequences and maps as the linked structures of the program use them. */
module Sequences {
  datatype Option<+T> = None | Some(value: T)

  ghost predicate Distinct<T>(s: seq<T>) {
    forall i, j :: 0 <= i < j < |s| ==> s[i] != s[j]
  }

  /** s with x put in at position i. */
  ghost function InsertedAt<T>(s: seq<T>, i: nat, x: T): seq<T>
    requires i <= |s|
  {
    s[..i] + [x] + s[i..]
  }

  ghost function RemovedAt<T>(s: seq<T>, i: nat): seq<T>
    requires i < |s|
  {
    s[..i] + s[i + 1..]
  }

  ghost function Elems<T>(s: seq<T>): set<T> {
    set x | x in s
  }

  lemma ElemsConcat<T>(a: seq<T>, b: seq<T>)
    ensures Elems(a + b) == Elems(a) + Elems(b)
  {
    forall x ensures x in a + b <==> x in a || x in b { }
  }

  /** On s the map m' says what m says. */
  ghost predicate Agree<K, V>(m: map<K, V>, m': map<K, V>, s: set<K>) {
    forall k <- s :: k in m ==> k in m' && m'[k] == m[k]
  }

  /** Outside s the two maps are the same. */
  ghost predicate Only<K, V>(m: map<K, V>, m': map<K, V>, s: set<K>) {
    m'.Keys == m.Keys && forall k <- m.Keys :: k !in s ==> m'[k] == m[k]
  }

  /** Concatenation is associative, in the groupings that walks over trees and buffers take. */
  lemma Regroup<T>(a: seq<T>, b: seq<T>, c: seq<T>, d: seq<T>)
    ensures a + b + c + d == a + (b + c + d) && a + b + d == a + (b + d)
  {
  }

  lemma RegroupEnds<T>(a: seq<T>, b: seq<T>, c: seq<T>, d: seq<T>, e: seq<T>)
    ensures a + (b + c + d) + e == a + b + (c + d + e)
    ensures a + (b + c + d) + e == (a + b + c) + d + e
    ensures a + (b + c + d) + e == (a + b) + c + (d + e)
  {
  }
}
