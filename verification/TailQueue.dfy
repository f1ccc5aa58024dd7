/** The tail queue of flowd/sys-queue.h, instantiated for peers, as a refinement of a
    sequence. A slot is the address of a link: null stands for the queue's own first
    link, a peer for the next link of that peer. */
module TailQueue {
  import opened Addr
  import opened PeerState
  import opened Sequences

  /** tqe_next, and the slot that tqe_prev addresses. */
  datatype Links = Links(next: Peer?, prev: Peer?)
  type Mem = map<Peer, Links>

  ghost function After(s: seq<Peer>, i: int): Peer?
    requires -1 <= i < |s|
  {
    if i + 1 < |s| then s[i + 1] else null
  }

  ghost function Before(s: seq<Peer>, i: int): Peer?
    requires 0 <= i <= |s|
  {
    if i > 0 then s[i - 1] else null
  }

  /** The links in m are those of the queue s. */
  ghost predicate Linked(m: Mem, s: seq<Peer>) {
    Distinct(s) && forall i :: 0 <= i < |s| ==> s[i] in m && m[s[i]] == Links(After(s, i), Before(s, i))
  }

  /** Outside x the image m' holds what m held. */
  ghost predicate Except(m: Mem, m': Mem, x: set<Peer>) {
    forall y <- m :: y !in x ==> y in m' && m'[y] == m[y]
  }

  ghost function SetOf(x: Peer?): set<Peer> {
    if x == null then {} else {x}
  }

  lemma InsertedIndex(s: seq<Peer>, k: nat, x: Peer, i: nat)
    requires k <= |s| && i <= |s|
    ensures |InsertedAt(s, k, x)| == |s| + 1
    ensures InsertedAt(s, k, x)[i] == if i < k then s[i] else if i == k then x else s[i - 1]
  {
  }

  lemma InsertDistinct(s: seq<Peer>, k: nat, x: Peer)
    requires Distinct(s) && x !in s && k <= |s|
    ensures Distinct(InsertedAt(s, k, x))
  {
    var s' := InsertedAt(s, k, x);
    forall i, j | 0 <= i < j < |s'| ensures s'[i] != s'[j] {
      InsertedIndex(s, k, x, i);
      InsertedIndex(s, k, x, j);
    }
  }

  /** What inserting x before position k must write. */
  lemma InsertLinks(m: Mem, m': Mem, s: seq<Peer>, k: nat, x: Peer)
    requires Linked(m, s) && x !in m && k <= |s|
    requires Inserting(m, m', Before(s, k), After(s, k - 1), x)
    ensures Linked(m', InsertedAt(s, k, x))
  {
    var s' := InsertedAt(s, k, x);
    InsertDistinct(s, k, x);
    hide InsertedAt;
    forall i | 0 <= i < |s'| ensures s'[i] in m' && m'[s'[i]] == Links(After(s', i), Before(s', i)) {
      InsertedIndex(s, k, x, i);
      if i > 0 { InsertedIndex(s, k, x, i - 1); }
      if i < |s| { InsertedIndex(s, k, x, i + 1); }
    }
  }

  ghost predicate Inserting(m: Mem, m': Mem, p: Peer?, n: Peer?, x: Peer) {
    && Except(m, m', SetOf(p) + SetOf(n))
    && x in m' && m'[x] == Links(n, p)
    && (p != null ==> p in m && p in m' && m'[p] == m[p].(next := x))
    && (n != null ==> n in m && n in m' && m'[n] == m[n].(prev := x))
  }

  ghost predicate Removing(m: Mem, m': Mem, p: Peer?, n: Peer?, x: Peer) {
    && Except(m, m', SetOf(p) + SetOf(n) + {x})
    && (p != null ==> p in m && p in m' && m'[p] == m[p].(next := n))
    && (n != null ==> n in m && n in m' && m'[n] == m[n].(prev := p))
  }

  /** What taking out position k must write. */
  lemma RemoveLinks(m: Mem, m': Mem, s: seq<Peer>, k: nat)
    requires Linked(m, s) && k < |s|
    requires Removing(m, m', Before(s, k), After(s, k), s[k])
    ensures Linked(m', RemovedAt(s, k))
  {
    var s' := RemovedAt(s, k);
    forall i | 0 <= i < |s'| ensures s'[i] in m' && m'[s'[i]] == Links(After(s', i), Before(s', i)) {
      assert s'[i] == s[if i < k then i else i + 1];
    }
  }

  ghost predicate Covers(d: set<Peer>, s: seq<Peer>) {
    forall x <- d :: x in s
  }

  lemma CoversInserted(d: set<Peer>, s: seq<Peer>, k: nat, x: Peer)
    requires Covers(d, s) && k <= |s|
    ensures Covers(d + {x}, InsertedAt(s, k, x))
  {
  }

  lemma CoversRemoved(d: set<Peer>, s: seq<Peer>, k: nat)
    requires Covers(d, s) && k < |s| && Distinct(s)
    ensures Covers(d - {s[k]}, RemovedAt(s, k)) && s[k] !in RemovedAt(s, k)
  {
  }

  class PeerList {
    var first: Peer?
    var last: Peer?  // tqh_last, the slot at the end of the queue
    ghost var elems: seq<Peer>
    ghost var dom: set<Peer>  // the peers whose queue links this queue owns

    ghost function Image(d: set<Peer>): Mem
      reads d`next, d`prev
    {
      map x | x in d :: Links(x.next, x.prev)
    }

    ghost predicate Valid()
      reads this, dom`next, dom`prev
    {
      && Linked(Image(dom), elems) && Covers(dom, elems)
      && first == After(elems, -1) && last == Before(elems, |elems|)
    }

    /** TAILQ_INIT. */
    constructor ()
      ensures Valid() && elems == [] && dom == {}
    {
      first, last, elems, dom := null, null, [], {};
    }

    /** *slot, as the macros read it. */
    function At(slot: Peer?): Peer?
      reads this, slot
    {
      if slot == null then first else slot.next
    }

    /** The writes of TAILQ_INSERT_HEAD. */
    method LinkHead(elm: Peer, ghost d: set<Peer>)
      requires elm !in d && (first != null ==> first in d)
      modifies this`first, this`last, d`next, d`prev, elm`next, elm`prev
      ensures first == elm && last == if old(first) == null then elm else old(last)
      ensures Inserting(old(Image(d)), Image(d + {elm}), null, old(first), elm)
    {
      elm.next := first;
      if elm.next != null {
        first.prev := elm;
      } else {
        last := elm;
      }
      first := elm;
      elm.prev := null;
    }

    /** TAILQ_INSERT_HEAD. */
    method InsertHead(elm: Peer)
      requires Valid() && elm !in dom
      modifies this, dom`next, dom`prev, elm`next, elm`prev
      ensures Valid() && elems == [elm] + old(elems) && dom == old(dom) + {elm}
    {
      hide Linked, Covers, InsertedAt, Inserting;
      ghost var m, was := Image(dom), elems;
      Ends(m, was);
      LinkHead(elm, dom);
      InsertedEnds(was, elm);
      CoversInserted(dom, was, 0, elm);
      dom := dom + {elm};
      elems := InsertedAt(was, 0, elm);
      InsertLinks(m, Image(dom), was, 0, elm);
    }

    /** TAILQ_INSERT_TAIL. */
    method InsertTail(elm: Peer)
      requires Valid() && elm !in dom
      modifies this, dom`next, dom`prev, elm`next, elm`prev
      ensures Valid() && elems == old(elems) + [elm] && dom == old(dom) + {elm}
    {
      hide Linked, Covers, InsertedAt;
      ghost var m, was := Image(dom), elems;
      Ends(m, was);
      elm.next := null;
      elm.prev := last;
      if last == null {
        first := elm;
      } else {
        last.next := elm;
      }
      last := elm;
      InsertedEnds(was, elm);
      CoversInserted(dom, was, |was|, elm);
      dom := dom + {elm};
      elems := InsertedAt(was, |was|, elm);
      InsertLinks(m, Image(dom), was, |was|, elm);
    }

    /** TAILQ_REMOVE. */
    method Remove(elm: Peer) returns (ghost k: nat)
      requires Valid() && elm in elems
      modifies this, dom`next, dom`prev
      ensures Valid() && k < |old(elems)| && old(elems)[k] == elm && elems == RemovedAt(old(elems), k)
      ensures dom == old(dom) - {elm}
    {
      hide Linked, Covers, RemovedAt;
      ghost var m, was := Image(dom), elems;
      k :| 0 <= k < |elems| && elems[k] == elm;
      Around(m, was, k);
      if elm.next != null {
        elm.next.prev := elm.prev;
      } else {
        last := elm.prev;
      }
      if elm.prev == null {
        first := elm.next;
      } else {
        elm.prev.next := elm.next;
      }
      CoversRemoved(dom, was, k);
      RemovedEnds(was, k);
      dom := dom - {elm};
      elems := RemovedAt(was, k);
      RemoveLinks(m, Image(dom), was, k);
    }

    /** TAILQ_LAST: the element at the end holds the slot that points back at it. */
    method Last() returns (r: Peer?)
      requires Valid()
      ensures r == Before(elems, |elems|)
    {
      var slot := if last == null then null else last.prev;
      r := At(slot);
      if |elems| > 0 {
        assert Image(dom)[elems[|elems| - 1]].prev == slot;
        if |elems| > 1 {
          assert Image(dom)[elems[|elems| - 2]].next == r;
        }
      }
    }

    /** TAILQ_NEXT. */
    method Next(elm: Peer, ghost k: nat) returns (r: Peer?)
      requires Valid() && k < |elems| && elems[k] == elm
      ensures r == After(elems, k)
    {
      assert Image(dom)[elm] == Links(After(elems, k), Before(elems, k));
      r := elm.next;
    }
  }

  /** The ends of a queue and what their links hold. */
  lemma Ends(m: Mem, s: seq<Peer>)
    requires Linked(m, s)
    ensures s != [] ==> s[0] in m && m[s[0]].prev == null && s[|s| - 1] in m && m[s[|s| - 1]].next == null
  {
  }

  lemma Around(m: Mem, s: seq<Peer>, k: nat)
    requires Linked(m, s) && k < |s|
    ensures s[k] in m && m[s[k]] == Links(After(s, k), Before(s, k)) && Distinct(s)
    ensures k > 0 ==> s[k - 1] in m && s[k - 1] != s[k]
    ensures k + 1 < |s| ==> s[k + 1] in m && s[k + 1] != s[k] && Before(s, k) != s[k + 1]
  {
  }

  lemma InsertedEnds(s: seq<Peer>, x: Peer)
    ensures InsertedAt(s, 0, x) == [x] + s && InsertedAt(s, |s|, x) == s + [x]
  {
  }

  lemma RemovedEnds(s: seq<Peer>, k: nat)
    requires k < |s|
    ensures var s' := RemovedAt(s, k);
      && After(s', -1) == (if k == 0 then After(s, 0) else s[0])
      && Before(s', |s'|) == if k == |s| - 1 then Before(s, k) else s[|s| - 1]
  {
  }
}
