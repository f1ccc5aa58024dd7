/** The splay tree that SPLAY_GENERATE (flowd/sys-tree.h) makes for peers, working in
    place on their left and right links. */
module SplayTree {
  import opened Addr
  import opened PeerState
  import opened Sequences

  datatype Tree = Leaf | Bin(l: Tree, n: Peer, r: Tree)

  /** One of the two side trees that a splay builds: its open end, then the nodes already
      linked to it, each with its finished subtree. */
  datatype Spine = Nil | Link(prev: Spine, t: Tree, n: Peer)

  datatype Entry = Entry(left: Peer?, right: Peer?)
  type Mem = map<Peer, Entry>

  ghost function Root(t: Tree): Peer? {
    if t.Leaf? then null else t.n
  }

  ghost function Inorder(t: Tree): seq<Peer> {
    if t.Leaf? then [] else Inorder(t.l) + [t.n] + Inorder(t.r)
  }

  ghost function Nodes(t: Tree): set<Peer> {
    if t.Leaf? then {} else Nodes(t.l) + {t.n} + Nodes(t.r)
  }

  ghost function SpineNodes(s: Spine): set<Peer> {
    if s.Nil? then {} else SpineNodes(s.prev) + Nodes(s.t) + {s.n}
  }

  /** The contents of the left side tree, and of the right one. */
  ghost function Lower(s: Spine): seq<Peer> {
    if s.Nil? then [] else Lower(s.prev) + Inorder(s.t) + [s.n]
  }

  ghost function Upper(s: Spine): seq<Peer> {
    if s.Nil? then [] else [s.n] + Inorder(s.t) + Upper(s.prev)
  }

  ghost predicate SepT(t: Tree) {
    t.Bin? ==>
      && t.n !in Nodes(t.l) && t.n !in Nodes(t.r) && Nodes(t.l) !! Nodes(t.r)
      && SepT(t.l) && SepT(t.r)
  }

  ghost predicate SepS(s: Spine) {
    s.Link? ==>
      && s.n !in Nodes(s.t) && s.n !in SpineNodes(s.prev) && Nodes(s.t) !! SpineNodes(s.prev)
      && SepT(s.t) && SepS(s.prev)
  }

  ghost predicate LinkedT(m: Mem, t: Tree) {
    t.Bin? ==> t.n in m && m[t.n] == Entry(Root(t.l), Root(t.r)) && LinkedT(m, t.l) && LinkedT(m, t.r)
  }

  /** The node whose open link receives the next node: hd while the side is empty. */
  ghost function End(s: Spine, hd: Peer): Peer {
    if s.Nil? then hd else s.n
  }

  ghost predicate LinkedLower(m: Mem, s: Spine, hd: Peer) {
    s.Link? ==>
      && s.n in m && m[s.n].left == Root(s.t) && LinkedT(m, s.t)
      && End(s.prev, hd) in m && m[End(s.prev, hd)].right == s.n && LinkedLower(m, s.prev, hd)
  }

  ghost predicate LinkedUpper(m: Mem, s: Spine, hd: Peer) {
    s.Link? ==>
      && s.n in m && m[s.n].right == Root(s.t) && LinkedT(m, s.t)
      && End(s.prev, hd) in m && m[End(s.prev, hd)].left == s.n && LinkedUpper(m, s.prev, hd)
  }

  ghost predicate Sep(hd: Peer, lo: Spine, t: Tree, hi: Spine) {
    && SepS(lo) && SepT(t) && SepS(hi)
    && SpineNodes(lo) !! Nodes(t) && SpineNodes(lo) !! SpineNodes(hi) && Nodes(t) !! SpineNodes(hi)
    && hd !in SpineNodes(lo) && hd !in Nodes(t) && hd !in SpineNodes(hi)
  }

  /** The state inside a splay: left side tree, middle tree, right side tree. */
  ghost predicate Parts(m: Mem, hd: Peer, lo: Spine, t: Tree, hi: Spine) {
    && hd in m && Sep(hd, lo, t, hi)
    && LinkedLower(m, lo, hd) && LinkedT(m, t) && LinkedUpper(m, hi, hd)
  }

  lemma {:induction false} KeepT(m: Mem, m': Mem, t: Tree)
    requires LinkedT(m, t) && Agree(m, m', Nodes(t))
    ensures LinkedT(m', t)
  {
    if t.Bin? {
      KeepT(m, m', t.l);
      KeepT(m, m', t.r);
    }
  }

  /** Writing the open link at the end of the left side tree keeps it. */
  lemma {:induction false} KeepLower(m: Mem, m': Mem, s: Spine, hd: Peer)
    requires LinkedLower(m, s, hd) && SepS(s) && hd in m && hd !in SpineNodes(s)
    requires Agree(m, m', SpineNodes(s) - {End(s, hd)})
    requires s.Link? ==> s.n in m' && m'[s.n].left == m[s.n].left && hd in m' && m'[hd].right == m[hd].right
    ensures LinkedLower(m', s, hd)
  {
    if s.Link? {
      KeepT(m, m', s.t);
      KeepLowerClosed(m, m', s.prev, hd);
    }
  }

  lemma {:induction false} KeepLowerClosed(m: Mem, m': Mem, s: Spine, hd: Peer)
    requires LinkedLower(m, s, hd) && Agree(m, m', SpineNodes(s))
    requires hd in m && hd in m' && m'[hd].right == m[hd].right
    ensures LinkedLower(m', s, hd)
  {
    if s.Link? {
      KeepT(m, m', s.t);
      KeepLowerClosed(m, m', s.prev, hd);
    }
  }

  /** Writing the open link at the end of the right side tree keeps it. */
  lemma {:induction false} KeepUpper(m: Mem, m': Mem, s: Spine, hd: Peer)
    requires LinkedUpper(m, s, hd) && SepS(s) && hd in m && hd !in SpineNodes(s)
    requires Agree(m, m', SpineNodes(s) - {End(s, hd)})
    requires s.Link? ==> s.n in m' && m'[s.n].right == m[s.n].right && hd in m' && m'[hd].left == m[hd].left
    ensures LinkedUpper(m', s, hd)
  {
    if s.Link? {
      KeepT(m, m', s.t);
      KeepUpperClosed(m, m', s.prev, hd);
    }
  }

  lemma {:induction false} KeepUpperClosed(m: Mem, m': Mem, s: Spine, hd: Peer)
    requires LinkedUpper(m, s, hd) && Agree(m, m', SpineNodes(s))
    requires hd in m && hd in m' && m'[hd].left == m[hd].left
    ensures LinkedUpper(m', s, hd)
  {
    if s.Link? {
      KeepT(m, m', s.t);
      KeepUpperClosed(m, m', s.prev, hd);
    }
  }

  // ----- The moves of a splay -----

  /** SPLAY_ROTATE_RIGHT and SPLAY_ROTATE_LEFT on the middle tree. */
  ghost function RotR(t: Tree): Tree
    requires t.Bin? && t.l.Bin?
  {
    Bin(t.l.l, t.l.n, Bin(t.l.r, t.n, t.r))
  }

  ghost function RotL(t: Tree): Tree
    requires t.Bin? && t.r.Bin?
  {
    Bin(Bin(t.l, t.n, t.r.l), t.r.n, t.r.r)
  }

  lemma {:induction false} RotRKeeps(t: Tree)
    requires t.Bin? && t.l.Bin? && SepT(t)
    ensures SepT(RotR(t)) && Nodes(RotR(t)) == Nodes(t) && Inorder(RotR(t)) == Inorder(t)
  {
    assert SepT(t.l);
    assert SepT(Bin(t.l.r, t.n, t.r));
    assert Inorder(RotR(t)) == Inorder(t.l.l) + [t.l.n] + (Inorder(t.l.r) + [t.n] + Inorder(t.r));
  }

  lemma {:induction false} RotLKeeps(t: Tree)
    requires t.Bin? && t.r.Bin? && SepT(t)
    ensures SepT(RotL(t)) && Nodes(RotL(t)) == Nodes(t) && Inorder(RotL(t)) == Inorder(t)
  {
    assert SepT(t.r);
    assert SepT(Bin(t.l, t.n, t.r.l));
    assert Inorder(RotL(t)) == (Inorder(t.l) + [t.n] + Inorder(t.r.l)) + [t.r.n] + Inorder(t.r.r);
  }

  lemma {:induction false} RotatedRight(m: Mem, m': Mem, hd: Peer, lo: Spine, t: Tree, hi: Spine)
    requires Parts(m, hd, lo, t, hi) && t.Bin? && t.l.Bin?
    requires Only(m, m', {t.n, t.l.n})
    requires t.n in m' && m'[t.n] == Entry(Root(t.l.r), Root(t.r))
    requires t.l.n in m' && m'[t.l.n] == Entry(Root(t.l.l), t.n)
    ensures Parts(m', hd, lo, RotR(t), hi)
  {
    assert LinkedT(m, t.l) && SepT(t.l);
    RotRKeeps(t);
    KeepT(m, m', t.r);
    KeepT(m, m', t.l.l);
    KeepT(m, m', t.l.r);
    KeepLowerClosed(m, m', lo, hd);
    KeepUpperClosed(m, m', hi, hd);
  }

  lemma {:induction false} RotatedLeft(m: Mem, m': Mem, hd: Peer, lo: Spine, t: Tree, hi: Spine)
    requires Parts(m, hd, lo, t, hi) && t.Bin? && t.r.Bin?
    requires Only(m, m', {t.n, t.r.n})
    requires t.n in m' && m'[t.n] == Entry(Root(t.l), Root(t.r.l))
    requires t.r.n in m' && m'[t.r.n] == Entry(t.n, Root(t.r.r))
    ensures Parts(m', hd, lo, RotL(t), hi)
  {
    assert LinkedT(m, t.r) && SepT(t.r);
    RotLKeeps(t);
    KeepT(m, m', t.l);
    KeepT(m, m', t.r.l);
    KeepT(m, m', t.r.r);
    KeepLowerClosed(m, m', lo, hd);
    KeepUpperClosed(m, m', hi, hd);
  }

  /** SPLAY_LINKLEFT: the root and its right subtree go to the right side tree. */
  lemma {:induction false} LinkedLeft(m: Mem, m': Mem, hd: Peer, lo: Spine, t: Tree, hi: Spine)
    requires Parts(m, hd, lo, t, hi) && t.Bin?
    requires End(hi, hd) in m && Only(m, m', {End(hi, hd)})
    requires m'[End(hi, hd)] == m[End(hi, hd)].(left := t.n)
    ensures Parts(m', hd, lo, t.l, Link(hi, t.r, t.n))
  {
    KeepT(m, m', t.l);
    KeepT(m, m', t.r);
    KeepLowerClosed(m, m', lo, hd);
    KeepUpper(m, m', hi, hd);
  }

  /** SPLAY_LINKRIGHT: the root and its left subtree go to the left side tree. */
  lemma {:induction false} LinkedRight(m: Mem, m': Mem, hd: Peer, lo: Spine, t: Tree, hi: Spine)
    requires Parts(m, hd, lo, t, hi) && t.Bin?
    requires End(lo, hd) in m && Only(m, m', {End(lo, hd)})
    requires m'[End(lo, hd)] == m[End(lo, hd)].(right := t.n)
    ensures Parts(m', hd, Link(lo, t.l, t.n), t.r, hi)
  {
    KeepT(m, m', t.r);
    KeepT(m, m', t.l);
    KeepLower(m, m', lo, hd);
    KeepUpperClosed(m, m', hi, hd);
  }

  // ----- SPLAY_ASSEMBLE -----

  /** The left side tree closed with x at its open end. */
  ghost function CloseLower(s: Spine, x: Tree): Tree {
    if s.Nil? then x else CloseLower(s.prev, Bin(s.t, s.n, x))
  }

  ghost function CloseUpper(s: Spine, x: Tree): Tree {
    if s.Nil? then x else CloseUpper(s.prev, Bin(x, s.n, s.t))
  }

  lemma {:induction false} ClosedLower(m: Mem, s: Spine, hd: Peer, x: Tree)
    requires LinkedLower(m, s, hd) && LinkedT(m, x) && End(s, hd) in m && m[End(s, hd)].right == Root(x)
    ensures LinkedT(m, CloseLower(s, x)) && hd in m && m[hd].right == Root(CloseLower(s, x))
    decreases s
  {
    if s.Link? {
      ClosedLower(m, s.prev, hd, Bin(s.t, s.n, x));
    }
  }

  lemma {:induction false} LowerShape(s: Spine, x: Tree)
    requires SepS(s) && SepT(x) && SpineNodes(s) !! Nodes(x)
    ensures var c := CloseLower(s, x);
      SepT(c) && Nodes(c) == SpineNodes(s) + Nodes(x) && Inorder(c) == Lower(s) + Inorder(x)
    decreases s
  {
    if s.Link? {
      var y := Bin(s.t, s.n, x);
      assert SepT(y) && Nodes(y) == Nodes(s.t) + {s.n} + Nodes(x);
      LowerShape(s.prev, y);
      Regroup(Lower(s.prev), Inorder(s.t), [s.n], Inorder(x));
    }
  }

  lemma {:induction false} ClosedUpper(m: Mem, s: Spine, hd: Peer, x: Tree)
    requires LinkedUpper(m, s, hd) && LinkedT(m, x) && End(s, hd) in m && m[End(s, hd)].left == Root(x)
    ensures LinkedT(m, CloseUpper(s, x)) && hd in m && m[hd].left == Root(CloseUpper(s, x))
    decreases s
  {
    if s.Link? {
      ClosedUpper(m, s.prev, hd, Bin(x, s.n, s.t));
    }
  }

  lemma {:induction false} UpperShape(s: Spine, x: Tree)
    requires SepS(s) && SepT(x) && SpineNodes(s) !! Nodes(x)
    ensures var c := CloseUpper(s, x);
      SepT(c) && Nodes(c) == SpineNodes(s) + Nodes(x) && Inorder(c) == Inorder(x) + Upper(s)
    decreases s
  {
    if s.Link? {
      var y := Bin(x, s.n, s.t);
      assert SepT(y) && Nodes(y) == Nodes(s.t) + {s.n} + Nodes(x);
      UpperShape(s.prev, y);
      Regroup(Inorder(x), [s.n], Inorder(s.t), Upper(s.prev));
    }
  }

  ghost function Assembled(lo: Spine, t: Tree, hi: Spine): Tree
    requires t.Bin?
  {
    Bin(CloseLower(lo, t.l), t.n, CloseUpper(hi, t.r))
  }

  /** The first two writes close the side trees. */
  lemma {:induction false} ClosedBoth(m: Mem, m': Mem, hd: Peer, lo: Spine, t: Tree, hi: Spine)
    requires Parts(m, hd, lo, t, hi) && t.Bin? && Only(m, m', {End(lo, hd), End(hi, hd)})
    requires End(lo, hd) in m && End(hi, hd) in m
    requires m'[End(lo, hd)].right == Root(t.l) && (lo.Link? ==> m'[lo.n].left == m[lo.n].left && m'[hd].right == m[hd].right)
    requires m'[End(hi, hd)].left == Root(t.r) && (hi.Link? ==> m'[hi.n].right == m[hi.n].right && m'[hd].left == m[hd].left)
    ensures LinkedT(m', CloseLower(lo, t.l)) && m'[hd].right == Root(CloseLower(lo, t.l))
    ensures LinkedT(m', CloseUpper(hi, t.r)) && m'[hd].left == Root(CloseUpper(hi, t.r))
  {
    KeepT(m, m', t.l);
    KeepT(m, m', t.r);
    KeepLower(m, m', lo, hd);
    KeepUpper(m, m', hi, hd);
    ClosedLower(m', lo, hd, t.l);
    ClosedUpper(m', hi, hd, t.r);
  }

  lemma {:induction false} AssembledShape(hd: Peer, lo: Spine, t: Tree, hi: Spine)
    requires Sep(hd, lo, t, hi) && t.Bin?
    ensures var c := Assembled(lo, t, hi);
      && SepT(c) && Nodes(c) == SpineNodes(lo) + Nodes(t) + SpineNodes(hi)
      && Inorder(c) == Lower(lo) + Inorder(t) + Upper(hi)
  {
    LowerShape(lo, t.l);
    UpperShape(hi, t.r);
    hide CloseLower, CloseUpper, Lower, Upper, SpineNodes, SepS;
    RegroupEnds(Lower(lo), Inorder(t.l), [t.n], Inorder(t.r), Upper(hi));
  }

  // ----- Order -----

  ghost predicate Ordered(s: seq<Peer>) {
    forall i, j :: 0 <= i < j < |s| ==> Rank(s[i].from) < Rank(s[j].from)
  }

  ghost predicate AllBelow(s: seq<Peer>, key: HostAddr) {
    forall x <- s :: Rank(x.from) < Rank(key)
  }

  ghost predicate AllAbove(key: HostAddr, s: seq<Peer>) {
    forall x <- s :: Rank(key) < Rank(x.from)
  }

  /** Every key left of the root is below key and every key right of it is above. */
  ghost predicate Split(t: Tree, key: HostAddr) {
    t.Bin? && AllBelow(Inorder(t.l), key) && AllAbove(key, Inorder(t.r))
  }

  lemma OrderedConcat(a: seq<Peer>, x: Peer, b: seq<Peer>)
    ensures Ordered(a + [x] + b) <==>
      Ordered(a) && Ordered(b) && AllBelow(a, x.from) && AllAbove(x.from, b)
  {
    var s := a + [x] + b;
    if Ordered(s) {
      assert s[|a|] == x;
      forall i, j | 0 <= i < j < |a| ensures Rank(a[i].from) < Rank(a[j].from) {
        assert a[i] == s[i] && a[j] == s[j];
      }
      forall i, j | 0 <= i < j < |b| ensures Rank(b[i].from) < Rank(b[j].from) {
        assert b[i] == s[|a| + 1 + i] && b[j] == s[|a| + 1 + j];
      }
      forall y <- a ensures Rank(y.from) < Rank(x.from) {
        var i :| 0 <= i < |a| && a[i] == y;
        assert s[i] == y;
      }
      forall y <- b ensures Rank(x.from) < Rank(y.from) {
        var i :| 0 <= i < |b| && b[i] == y;
        assert s[|a| + 1 + i] == y;
      }
    }
    if Ordered(a) && Ordered(b) && AllBelow(a, x.from) && AllAbove(x.from, b) {
      forall i, j | 0 <= i < j < |s| ensures Rank(s[i].from) < Rank(s[j].from) {
        if i < |a| { assert s[i] == a[i]; } else if i > |a| { assert s[i] == b[i - |a| - 1]; }
        if j < |a| { assert s[j] == a[j]; } else if j > |a| { assert s[j] == b[j - |a| - 1]; }
      }
    }
  }

  /** What the root of an ordered tree says about its two sides. */
  lemma OrderedAtRoot(t: Tree)
    requires t.Bin? && Ordered(Inorder(t))
    ensures Ordered(Inorder(t.l)) && Ordered(Inorder(t.r))
    ensures AllBelow(Inorder(t.l), t.n.from) && AllAbove(t.n.from, Inorder(t.r))
  {
    OrderedConcat(Inorder(t.l), t.n, Inorder(t.r));
  }

  lemma {:induction false} NodesAreInorder(t: Tree)
    ensures Nodes(t) == Elems(Inorder(t))
  {
    if t.Bin? {
      NodesAreInorder(t.l);
      NodesAreInorder(t.r);
      ElemsConcat(Inorder(t.l), [t.n]);
      ElemsConcat(Inorder(t.l) + [t.n], Inorder(t.r));
    }
  }

  ghost function Image(d: set<Peer>): Mem
    reads d`left, d`right
  {
    map n | n in d :: Entry(n.left, n.right)
  }

  ghost function AllNodes(lo: Spine, t: Tree, hi: Spine): set<Peer> {
    SpineNodes(lo) + Nodes(t) + SpineNodes(hi)
  }

  lemma EndIn(s: Spine, hd: Peer, d: set<Peer>)
    requires hd in d && SpineNodes(s) <= d
    ensures End(s, hd) in d
    ensures s.Link? ==> End(s, hd) in SpineNodes(s)
  {
  }

  lemma RootReplaced(m: Mem, m': Mem, lo: Spine, t: Tree, hi: Spine)
    requires t.Bin? && t.n in m && Only(m, m', {t.n})
    requires SepT(Assembled(lo, t, hi))
    requires LinkedT(m, CloseLower(lo, t.l)) && LinkedT(m, CloseUpper(hi, t.r))
    requires m'[t.n] == Entry(Root(CloseLower(lo, t.l)), Root(CloseUpper(hi, t.r)))
    ensures LinkedT(m', Assembled(lo, t, hi))
  {
    KeepT(m, m', CloseLower(lo, t.l));
    KeepT(m, m', CloseUpper(hi, t.r));
  }

  // ----- The splay loop -----

  /** Where the search for key has got to: the side trees lie on their sides of key. */
  ghost predicate Searching(lo: Spine, t: Tree, hi: Spine, key: HostAddr) {
    t.Bin? && Ordered(Inorder(t)) && AllBelow(Lower(lo), key) && AllAbove(key, Upper(hi))
  }

  /** The search stops at t: nothing on its left is above key and nothing on its right below. */
  ghost predicate Stopped(t: Tree, key: HostAddr) {
    t.Bin? && (Rank(key) < Rank(t.n.from) ==> t.l.Leaf?) && (Rank(key) > Rank(t.n.from) ==> t.r.Leaf?)
  }

  lemma AssembledSplits(hd: Peer, lo: Spine, t: Tree, hi: Spine, key: HostAddr)
    requires Sep(hd, lo, t, hi) && Searching(lo, t, hi, key) && Stopped(t, key)
    ensures Split(Assembled(lo, t, hi), key)
  {
    OrderedAtRoot(t);
    LowerShape(lo, t.l);
    UpperShape(hi, t.r);
  }

  /** Two states of a splay hold the same elements in the same order. */
  ghost predicate Same(lo: Spine, t: Tree, hi: Spine, lo': Spine, t': Tree, hi': Spine) {
    && Lower(lo') + Inorder(t') + Upper(hi') == Lower(lo) + Inorder(t) + Upper(hi)
    && AllNodes(lo', t', hi') == AllNodes(lo, t, hi)
  }

  lemma RotRSearch(lo: Spine, t: Tree, hi: Spine, key: HostAddr)
    requires Searching(lo, t, hi, key) && t.l.Bin? && SepT(t) && Rank(key) < Rank(t.l.n.from)
    ensures Searching(lo, RotR(t), hi, key) && Same(lo, t, hi, lo, RotR(t), hi)
    ensures RotR(t).l.Leaf? ==> Stopped(RotR(t), key)
  {
    RotRKeeps(t);
  }

  lemma RotLSearch(lo: Spine, t: Tree, hi: Spine, key: HostAddr)
    requires Searching(lo, t, hi, key) && t.r.Bin? && SepT(t) && Rank(key) > Rank(t.r.n.from)
    ensures Searching(lo, RotL(t), hi, key) && Same(lo, t, hi, lo, RotL(t), hi)
    ensures RotL(t).r.Leaf? ==> Stopped(RotL(t), key)
  {
    RotLKeeps(t);
  }

  lemma LinkLeftSearch(lo: Spine, t: Tree, hi: Spine, key: HostAddr)
    requires Searching(lo, t, hi, key) && t.l.Bin? && Rank(key) < Rank(t.n.from)
    ensures Searching(lo, t.l, Link(hi, t.r, t.n), key)
    ensures Same(lo, t, hi, lo, t.l, Link(hi, t.r, t.n))
  {
    OrderedAtRoot(t);
    RegroupEnds(Lower(lo), Inorder(t.l), [t.n], Inorder(t.r), Upper(hi));
  }

  lemma LinkRightSearch(lo: Spine, t: Tree, hi: Spine, key: HostAddr)
    requires Searching(lo, t, hi, key) && t.r.Bin? && Rank(key) > Rank(t.n.from)
    ensures Searching(Link(lo, t.l, t.n), t.r, hi, key)
    ensures Same(lo, t, hi, Link(lo, t.l, t.n), t.r, hi)
  {
    OrderedAtRoot(t);
    RegroupEnds(Lower(lo), Inorder(t.l), [t.n], Inorder(t.r), Upper(hi));
  }

  lemma SplayStarts(m: Mem, m': Mem, hd: Peer, t: Tree, key: HostAddr)
    requires LinkedT(m, t) && SepT(t) && Nodes(t) <= m.Keys && hd !in m && hd in m'
    requires forall n <- m :: n in m' && m'[n] == m[n]
    requires t.Bin? && Ordered(Inorder(t))
    ensures Parts(m', hd, Nil, t, Nil) && Searching(Nil, t, Nil, key) && AllNodes(Nil, t, Nil) == Nodes(t)
  {
    KeepT(m, m', t);
  }

  lemma SplayEnds(m: Mem, hd: Peer, t0: Tree, lo: Spine, t: Tree, hi: Spine, key: HostAddr) returns (t': Tree)
    requires Parts(m, hd, lo, t, hi) && Searching(lo, t, hi, key) && Stopped(t, key) && Same(Nil, t0, Nil, lo, t, hi)
    ensures t.Bin? && t' == Assembled(lo, t, hi) && Split(t', key) && Root(t') == t.n && t.n in Nodes(t')
    ensures SepT(t') && Inorder(t') == Inorder(t0) && Nodes(t') == Nodes(t0) == AllNodes(lo, t, hi) && hd !in Nodes(t')
  {
    AssembledShape(hd, lo, t, hi);
    AssembledSplits(hd, lo, t, hi, key);
    hide Inorder, CloseLower, CloseUpper, Split, SepT, LinkedT, LinkedLower, LinkedUpper;
    t' := Assembled(lo, t, hi);
    assert Lower(Nil) + Inorder(t0) + Upper(Nil) == Inorder(t0);
  }

  /** The position of a new node beside the root that a splay left. */
  ghost function InsertPos(t: Tree, key: HostAddr): nat {
    if t.Leaf? then 0 else if Rank(key) < Rank(t.n.from) then |Inorder(t.l)| else |Inorder(t.l)| + 1
  }

  /** The tree with elm for its root and t's root below it. */
  ghost function Beside(t: Tree, elm: Peer): Tree
    requires t.Bin?
  {
    if Rank(elm.from) < Rank(t.n.from) then Bin(t.l, elm, Bin(Leaf, t.n, t.r)) else Bin(Bin(t.l, t.n, Leaf), elm, t.r)
  }

  lemma {:induction false} PlacedBeside(m: Mem, m': Mem, t: Tree, elm: Peer)
    requires t.Bin? && LinkedT(m, t) && SepT(t) && elm !in Nodes(t) && elm in m'
    requires Agree(m, m', Nodes(t) - {t.n}) && t.n in m'
    requires if Rank(elm.from) < Rank(t.n.from)
      then m'[elm] == Entry(Root(t.l), t.n) && m'[t.n] == m[t.n].(left := null)
      else m'[elm] == Entry(t.n, Root(t.r)) && m'[t.n] == m[t.n].(right := null)
    ensures LinkedT(m', Beside(t, elm)) && SepT(Beside(t, elm))
  {
    KeepT(m, m', t.l);
    KeepT(m, m', t.r);
    assert SepT(Bin(Leaf, t.n, t.r)) && SepT(Bin(t.l, t.n, Leaf));
  }

  lemma InsertedAround(a: seq<Peer>, y: Peer, b: seq<Peer>, x: Peer)
    ensures InsertedAt(a + [y] + b, |a|, x) == a + [x] + ([] + [y] + b)
    ensures InsertedAt(a + [y] + b, |a| + 1, x) == (a + [y] + []) + [x] + b
  {
  }

  lemma OrderedInsert(a: seq<Peer>, y: Peer, b: seq<Peer>, x: Peer)
    requires Ordered(a + [y] + b) && AllBelow(a, x.from) && AllAbove(x.from, b)
    ensures Rank(x.from) < Rank(y.from) ==> Ordered(a + [x] + ([] + [y] + b))
    ensures Rank(x.from) > Rank(y.from) ==> Ordered((a + [y] + []) + [x] + b)
  {
    OrderedConcat(a, y, b);
    OrderedConcat([], y, b);
    OrderedConcat(a, y, []);
    OrderedConcat(a, x, [] + [y] + b);
    OrderedConcat(a + [y] + [], x, b);
  }

  lemma BesideContents(t: Tree, elm: Peer)
    requires Split(t, elm.from) && Ordered(Inorder(t)) && Rank(elm.from) != Rank(t.n.from)
    ensures var t', i := Beside(t, elm), InsertPos(t, elm.from);
      && Ordered(Inorder(t')) && Nodes(t') == Nodes(t) + {elm} && Root(t') == elm
      && i <= |Inorder(t)| && Inorder(t') == InsertedAt(Inorder(t), i, elm)
  {
    hide Ordered, InsertedAt, Inorder, Nodes;
    BesideInorder(t, elm);
    InsertedAround(Inorder(t.l), t.n, Inorder(t.r), elm);
    OrderedInsert(Inorder(t.l), t.n, Inorder(t.r), elm);
  }

  lemma {:induction false} BesideInorder(t: Tree, elm: Peer)
    requires t.Bin?
    ensures Inorder(t) == Inorder(t.l) + [t.n] + Inorder(t.r) && Nodes(Beside(t, elm)) == Nodes(t) + {elm}
    ensures Inorder(Beside(t, elm)) ==
      if Rank(elm.from) < Rank(t.n.from) then Inorder(t.l) + [elm] + ([] + [t.n] + Inorder(t.r))
      else (Inorder(t.l) + [t.n] + []) + [elm] + Inorder(t.r)
  {
    var low, high := Bin(t.l, t.n, Leaf), Bin(Leaf, t.n, t.r);
    assert Inorder(high) == [] + [t.n] + Inorder(t.r) && Nodes(high) == {} + {t.n} + Nodes(t.r);
    assert Inorder(low) == Inorder(t.l) + [t.n] + [] && Nodes(low) == Nodes(t.l) + {t.n} + {};
  }

  lemma Single(m: Mem, elm: Peer)
    requires elm in m && m[elm] == Entry(null, null)
    ensures var t := Bin(Leaf, elm, Leaf); LinkedT(m, t) && SepT(t) && Ordered(Inorder(t)) && Nodes(t) == {elm}
    ensures Nodes(Leaf) == {} && Inorder(Leaf) == [] && Inorder(Bin(Leaf, elm, Leaf)) == InsertedAt(Inorder(Leaf), 0, elm)
  {
  }

  lemma RootLinks(m: Mem, t: Tree)
    requires t.Bin? && LinkedT(m, t)
    ensures t.n in Nodes(t) && t.n in m && m[t.n] == Entry(Root(t.l), Root(t.r))
  {
  }

  /** After a splay only the root can carry the key. */
  lemma KeyAtRoot(t: Tree, key: HostAddr)
    requires Split(t, key)
    ensures forall x <- Inorder(t) :: x.from == key <==> x == t.n && t.n.from == key
    ensures t.n in Inorder(t) && InsertPos(t, key) <= |Inorder(t)|
  {
  }

  lemma LeafEmpty(t: Tree)
    ensures t.Leaf? <==> Inorder(t) == []
  {
  }

  /** The subtrees of the root once the root is gone. */
  lemma TakenApart(m: Mem, t: Tree)
    requires t.Bin? && LinkedT(m, t) && SepT(t) && Ordered(Inorder(t)) && Nodes(t) == m.Keys
    ensures LinkedT(m, t.l) && LinkedT(m, t.r) && SepT(t.l) && SepT(t.r)
    ensures m[t.n] == Entry(Root(t.l), Root(t.r)) && Nodes(t.l) <= m.Keys
    ensures Ordered(Inorder(t.l)) && Ordered(Inorder(t.r))
    ensures |Inorder(t.l)| < |Inorder(t)| && Inorder(t)[|Inorder(t.l)|] == t.n
    ensures RemovedAt(Inorder(t), |Inorder(t.l)|) == Inorder(t.l) + Inorder(t.r)
    ensures t.l.Leaf? ==> Nodes(t.r) == m.Keys - {t.n} && Inorder(t.r) == Inorder(t.l) + Inorder(t.r)
    ensures t.n !in Nodes(t.r)
  {
    OrderedAtRoot(t);
    assert Inorder(t)[..|Inorder(t.l)|] == Inorder(t.l);
    assert Inorder(t)[|Inorder(t.l)| + 1..] == Inorder(t.r);
  }

  /** Splaying for a key above all elements brings the largest one up. */
  lemma LargestAtRoot(t: Tree, t': Tree, key: HostAddr)
    requires Split(t', key) && Inorder(t') == Inorder(t) && AllBelow(Inorder(t), key)
    ensures t'.r.Leaf?
  {
    LeafEmpty(t'.r);
    if Inorder(t'.r) != [] {
      SomeNotBelow(Inorder(t'.l) + [t'.n], Inorder(t'.r), key);
    }
  }

  lemma SomeNotBelow(a: seq<Peer>, b: seq<Peer>, key: HostAddr)
    requires b != [] && AllAbove(key, b)
    ensures !AllBelow(a + b, key)
  {
    assert b[0] in b && (a + b)[|a|] == b[0];
    assert b[0] in a + b;
  }

  lemma {:induction false} Rejoined(m: Mem, m1: Mem, m2: Mem, t: Tree, l': Tree)
    requires t.Bin? && LinkedT(m, t) && SepT(t) && Ordered(Inorder(t)) && Nodes(t) == m.Keys
    requires LinkedT(m1, l') && SepT(l') && l'.Bin? && l'.r.Leaf?
    requires Inorder(l') == Inorder(t.l) && Nodes(l') == Nodes(t.l) && Only(m, m1, Nodes(t.l))
    requires m2.Keys == m.Keys - {t.n} && m2[l'.n] == m1[l'.n].(right := Root(t.r))
    requires forall n <- m2 :: n != l'.n ==> m2[n] == m1[n]
    ensures var t' := Bin(l'.l, l'.n, t.r);
      && LinkedT(m2, t') && SepT(t') && Nodes(t') == m2.Keys
      && Ordered(Inorder(t')) && Inorder(t') == RemovedAt(Inorder(t), |Inorder(t.l)|)
  {
    KeepT(m1, m2, l'.l);
    KeepT(m, m2, t.r);
    TakenApart(m, t);
    OrderedAtRoot(t);
    var a, b := Inorder(l'.l), Inorder(t.r);
    RejoinedOrder(a, l'.n, b, t.n);
  }

  lemma RejoinedOrder(a: seq<Peer>, y: Peer, b: seq<Peer>, x: Peer)
    requires Ordered(a + [y] + []) && AllBelow(a + [y] + [], x.from) && Ordered(b) && AllAbove(x.from, b)
    ensures Ordered(a + [y] + b) && a + [y] + b == (a + [y] + []) + b
  {
    assert y in a + [y] + [];
    OrderedConcat(a, y, []);
    OrderedConcat(a, y, b);
  }

  class PeerTree {
    var root: Peer?
    ghost var dom: set<Peer>  // the peers whose tree links this tree owns
    ghost var shape: Tree

    constructor ()
      ensures Valid() && Contents() == [] && dom == {}
    {
      root, dom, shape := null, {}, Leaf;
    }

    ghost function Contents(): seq<Peer>
      reads this`shape
    {
      Inorder(shape)
    }

    ghost predicate Rooted(t: Tree)
      reads this`root, this`dom, dom`left, dom`right
    {
      root == Root(t) && SepT(t) && Nodes(t) <= dom && LinkedT(Image(dom), t)
    }

    ghost predicate Valid()
      reads this, dom`left, dom`right
    {
      Rooted(shape) && dom == Nodes(shape) && Ordered(Inorder(shape))
    }

    /** SPLAY_ROTATE_RIGHT. */
    method TurnRight(tmp: Peer, ghost d: set<Peer>)
      requires root != null && root in d && tmp in d && root != tmp
      modifies this`root, root`left, tmp`right
      ensures root == tmp
      ensures var m, m', r := old(Image(d)), Image(d), old(root);
        Only(m, m', {r, tmp}) && m'[r] == Entry(m[tmp].right, m[r].right) && m'[tmp] == Entry(m[tmp].left, r)
    {
      root.left := tmp.right;
      tmp.right := root;
      root := tmp;
    }

    /** SPLAY_ROTATE_LEFT. */
    method TurnLeft(tmp: Peer, ghost d: set<Peer>)
      requires root != null && root in d && tmp in d && root != tmp
      modifies this`root, root`right, tmp`left
      ensures root == tmp
      ensures var m, m', r := old(Image(d)), Image(d), old(root);
        Only(m, m', {r, tmp}) && m'[r] == Entry(m[r].left, m[tmp].left) && m'[tmp] == Entry(r, m[tmp].right)
    {
      root.right := tmp.left;
      tmp.left := root;
      root := tmp;
    }

    /** SPLAY_LINKLEFT. */
    method LinkLeft(tmp: Peer, ghost d: set<Peer>) returns (end: Peer)
      requires root != null && root in d && tmp in d && root != tmp
      modifies this`root, tmp`left
      ensures end == old(root) && root == old(root.left)
      ensures var m, m' := old(Image(d)), Image(d); Only(m, m', {tmp}) && m'[tmp] == m[tmp].(left := end)
    {
      tmp.left := root;
      end := root;
      root := root.left;
    }

    /** SPLAY_LINKRIGHT. */
    method LinkRight(tmp: Peer, ghost d: set<Peer>) returns (end: Peer)
      requires root != null && root in d && tmp in d && root != tmp
      modifies this`root, tmp`right
      ensures end == old(root) && root == old(root.right)
      ensures var m, m' := old(Image(d)), Image(d); Only(m, m', {tmp}) && m'[tmp] == m[tmp].(right := end)
    {
      tmp.right := root;
      end := root;
      root := root.right;
    }

    /** The state inside a splay, with hd for the local node that the side trees hang on. */
    ghost predicate Parted(d: set<Peer>, hd: Peer, lo: Spine, t: Tree, hi: Spine)
      reads this`root, d`left, d`right
    {
      root == Root(t) && Parts(Image(d), hd, lo, t, hi) && hd in d && AllNodes(lo, t, hi) <= d
    }

    method RotateRight(tmp: Peer, ghost d: set<Peer>, ghost hd: Peer, ghost lo: Spine, ghost t: Tree, ghost hi: Spine)
      requires Parted(d, hd, lo, t, hi) && t.Bin? && t.l.Bin? && tmp == t.l.n
      modifies this`root, d`left, d`right
      ensures Parted(d, hd, lo, RotR(t), hi)
      ensures Only(old(Image(d)), Image(d), Nodes(t))
    {
      ghost var m := Image(d);
      assert LinkedT(m, t.l);
      TurnRight(tmp, d);
      RotatedRight(m, Image(d), hd, lo, t, hi);
      RotRKeeps(t);
    }

    method RotateLeft(tmp: Peer, ghost d: set<Peer>, ghost hd: Peer, ghost lo: Spine, ghost t: Tree, ghost hi: Spine)
      requires Parted(d, hd, lo, t, hi) && t.Bin? && t.r.Bin? && tmp == t.r.n
      modifies this`root, d`left, d`right
      ensures Parted(d, hd, lo, RotL(t), hi)
      ensures Only(old(Image(d)), Image(d), Nodes(t))
    {
      ghost var m := Image(d);
      assert LinkedT(m, t.r);
      TurnLeft(tmp, d);
      RotatedLeft(m, Image(d), hd, lo, t, hi);
      RotLKeeps(t);
    }

    method CutLeft(right: Peer, ghost d: set<Peer>, ghost hd: Peer, ghost lo: Spine, ghost t: Tree, ghost hi: Spine)
      returns (end: Peer)
      requires Parted(d, hd, lo, t, hi) && t.Bin? && right == End(hi, hd)
      modifies this`root, d`left, d`right
      ensures Parted(d, hd, lo, t.l, Link(hi, t.r, t.n)) && end == t.n
      ensures Only(old(Image(d)), Image(d), {End(hi, hd)})
    {
      ghost var m := Image(d);
      EndIn(hi, hd, d);
      end := LinkLeft(right, d);
      LinkedLeft(m, Image(d), hd, lo, t, hi);
    }

    method CutRight(left: Peer, ghost d: set<Peer>, ghost hd: Peer, ghost lo: Spine, ghost t: Tree, ghost hi: Spine)
      returns (end: Peer)
      requires Parted(d, hd, lo, t, hi) && t.Bin? && left == End(lo, hd)
      modifies this`root, d`left, d`right
      ensures Parted(d, hd, Link(lo, t.l, t.n), t.r, hi) && end == t.n
      ensures Only(old(Image(d)), Image(d), {End(lo, hd)})
    {
      ghost var m := Image(d);
      EndIn(lo, hd, d);
      end := LinkRight(left, d);
      LinkedRight(m, Image(d), hd, lo, t, hi);
    }

    /** One round of the loop for a key left of the root. */
    method GoLeft(key: HostAddr, right: Peer, ghost d: set<Peer>, ghost hd: Peer, ghost lo: Spine,
                  ghost t: Tree, ghost hi: Spine)
      returns (end: Peer, stop: bool, ghost t': Tree, ghost hi': Spine)
      requires Parted(d, hd, lo, t, hi) && Searching(lo, t, hi, key) && Rank(key) < Rank(t.n.from)
      requires right == End(hi, hd)
      modifies this`root, d`left, d`right
      ensures Parted(d, hd, lo, t', hi') && Searching(lo, t', hi', key) && end == End(hi', hd)
      ensures Same(lo, t, hi, lo, t', hi')
      ensures Only(old(Image(d)), Image(d), AllNodes(lo, t, hi) + {hd})
      ensures if stop then Stopped(t', key) else t' < t
    {
      hide Inorder, Ordered, SpineNodes, Lower, Upper, SepT, SepS, LinkedLower, LinkedUpper;
      t', hi', end := t, hi, right;
      var tmp := root.left;
      assert t.l.Bin? ==> LinkedT(Image(d), t.l);
      if tmp == null {
        return end, true, t', hi';
      }
      var comp := AddrCmp(key, tmp.from);
      CmpIsOrder(key, tmp.from);
      if comp < 0 {
        RotateRight(tmp, d, hd, lo, t, hi);
        RotRSearch(lo, t, hi, key);
        t' := RotR(t);
        if root.left == null {
          return end, true, t', hi';
        }
      }
      EndIn(hi, hd, d);
      end := CutLeft(end, d, hd, lo, t', hi);
      LinkLeftSearch(lo, t', hi, key);
      hi', t' := Link(hi, t'.r, t'.n), t'.l;
      stop := false;
    }

    /** One round of the loop for a key right of the root. */
    method GoRight(key: HostAddr, left: Peer, ghost d: set<Peer>, ghost hd: Peer, ghost lo: Spine,
                   ghost t: Tree, ghost hi: Spine)
      returns (end: Peer, stop: bool, ghost t': Tree, ghost lo': Spine)
      requires Parted(d, hd, lo, t, hi) && Searching(lo, t, hi, key) && Rank(key) > Rank(t.n.from)
      requires left == End(lo, hd)
      modifies this`root, d`left, d`right
      ensures Parted(d, hd, lo', t', hi) && Searching(lo', t', hi, key) && end == End(lo', hd)
      ensures Same(lo, t, hi, lo', t', hi)
      ensures Only(old(Image(d)), Image(d), AllNodes(lo, t, hi) + {hd})
      ensures if stop then Stopped(t', key) else t' < t
    {
      hide Inorder, Ordered, SpineNodes, Lower, Upper, SepT, SepS, LinkedLower, LinkedUpper;
      t', lo', end := t, lo, left;
      var tmp := root.right;
      assert t.r.Bin? ==> LinkedT(Image(d), t.r);
      if tmp == null {
        return end, true, t', lo';
      }
      var comp := AddrCmp(key, tmp.from);
      CmpIsOrder(key, tmp.from);
      if comp > 0 {
        RotateLeft(tmp, d, hd, lo, t, hi);
        RotLSearch(lo, t, hi, key);
        t' := RotL(t);
        if root.right == null {
          return end, true, t', lo';
        }
      }
      EndIn(lo, hd, d);
      end := CutRight(end, d, hd, lo, t', hi);
      LinkRightSearch(lo, t', hi, key);
      lo', t' := Link(lo, t'.l, t'.n), t'.r;
      stop := false;
    }

    /** The first half of SPLAY_ASSEMBLE: what is left of the middle tree goes to the open ends. */
    method CloseEnds(hd: Peer, left: Peer, right: Peer, ghost d: set<Peer>, ghost lo: Spine, ghost t: Tree, ghost hi: Spine)
      requires Parted(d, hd, lo, t, hi) && t.Bin? && left == End(lo, hd) && right == End(hi, hd)
      modifies left`right, right`left
      ensures LinkedT(Image(d), CloseLower(lo, t.l)) && hd.right == Root(CloseLower(lo, t.l))
      ensures LinkedT(Image(d), CloseUpper(hi, t.r)) && hd.left == Root(CloseUpper(hi, t.r))
      ensures Only(old(Image(d)), Image(d), SpineNodes(lo) + SpineNodes(hi) + {hd})
    {
      ghost var m := Image(d);
      EndIn(lo, hd, d);
      EndIn(hi, hd, d);
      left.right := root.left;
      right.left := root.right;
      ClosedBoth(m, Image(d), hd, lo, t, hi);
    }

    /** SPLAY_ASSEMBLE. */
    method Assemble(hd: Peer, left: Peer, right: Peer, ghost d: set<Peer>, ghost lo: Spine, ghost t: Tree, ghost hi: Spine)
      requires Parted(d, hd, lo, t, hi) && t.Bin? && left == End(lo, hd) && right == End(hi, hd)
      modifies d`left, d`right
      ensures root == t.n && LinkedT(Image(d), Assembled(lo, t, hi))
      ensures Only(old(Image(d)), Image(d), AllNodes(lo, t, hi) + {hd})
    {
      CloseEnds(hd, left, right, d, lo, t, hi);
      ghost var m1 := Image(d);
      AssembledShape(hd, lo, t, hi);
      root.left := hd.right;
      root.right := hd.left;
      RootReplaced(m1, Image(d), lo, t, hi);
    }

    /** The loop: take the middle tree apart until it is empty on key's side. */
    method Search(key: HostAddr, hd: Peer, ghost d: set<Peer>, ghost t0: Tree)
      returns (left: Peer, right: Peer, ghost lo: Spine, ghost t: Tree, ghost hi: Spine)
      requires Parted(d, hd, Nil, t0, Nil) && Searching(Nil, t0, Nil, key)
      modifies this`root, d`left, d`right
      ensures Parted(d, hd, lo, t, hi) && Searching(lo, t, hi, key) && Stopped(t, key)
      ensures Same(Nil, t0, Nil, lo, t, hi) && left == End(lo, hd) && right == End(hi, hd)
      ensures Only(old(Image(d)), Image(d), Nodes(t0) + {hd})
    {
      hide Parts, SepT, LinkedT, Inorder, Nodes, Ordered;
      left, right := hd, hd;
      lo, t, hi := Nil, t0, Nil;
      ghost var m0 := Image(d);
      var comp := AddrCmp(key, root.from);
      CmpIsOrder(key, root.from);
      while comp != 0
        invariant Parted(d, hd, lo, t, hi) && Searching(lo, t, hi, key) && Same(Nil, t0, Nil, lo, t, hi)
        invariant left == End(lo, hd) && right == End(hi, hd)
        invariant Sign(comp) == Sign(Rank(key) - Rank(t.n.from))
        invariant Only(m0, Image(d), Nodes(t0) + {hd})
        decreases t
      {
        var stop: bool;
        if comp < 0 {
          right, stop, t, hi := GoLeft(key, right, d, hd, lo, t, hi);
        } else {
          left, stop, t, lo := GoRight(key, left, d, hd, lo, t, hi);
        }
        if stop {
          break;
        }
        comp := AddrCmp(key, root.from);
        CmpIsOrder(key, root.from);
      }
    }

    /** The splay operation: the element nearest to key comes to the root. */
    method Splay(key: HostAddr, ghost t0: Tree) returns (ghost t': Tree)
      requires Rooted(t0) && t0.Bin? && Ordered(Inorder(t0))
      modifies this`root, dom`left, dom`right
      ensures Rooted(t') && Split(t', key) && Inorder(t') == Inorder(t0) && Nodes(t') == Nodes(t0)
      ensures t'.Bin? && root in Nodes(t')
      ensures Only(old(Image(dom)), Image(dom), Nodes(t0))
    {
      hide Parts, SepT, LinkedT, Inorder, Nodes, Ordered, SpineNodes, Searching, Same, Stopped, Assembled, Split, AllNodes;
      var hd := new Peer(key);
      ghost var d := dom + {hd};
      ghost var m := Image(dom);
      SplayStarts(m, Image(d), hd, t0, key);
      var left, right: Peer;
      ghost var lo, t, hi;
      left, right, lo, t, hi := Search(key, hd, d, t0);
      t' := SplayEnds(Image(d), hd, t0, lo, t, hi, key);
      Assemble(hd, left, right, d, lo, t, hi);
      KeepT(Image(d), Image(dom), t');
    }

    /** SPLAY_FIND. */
    method Find(key: HostAddr) returns (r: Peer?)
      requires Valid()
      modifies this, dom`left, dom`right
      ensures Valid() && dom == old(dom) && Contents() == old(Contents())
      ensures if r == null then forall x <- Contents() :: x.from != key else r in Contents() && r.from == key
    {
      if root == null {
        return null;
      }
      shape := Splay(key, shape);
      var comp := AddrCmp(key, root.from);
      CmpIsOrder(key, root.from);
      if comp == 0 {
        return root;
      }
      return null;
    }

    /** SPLAY_INSERT: null and the element added, or the element already there. */
    method Insert(elm: Peer) returns (r: Peer?, ghost i: nat)
      requires Valid() && elm !in dom
      modifies this, dom`left, dom`right, elm`left, elm`right
      ensures Valid() && i <= |old(Contents())|
      ensures if r != null then
          r in old(Contents()) && r.from == elm.from && Contents() == old(Contents()) && dom == old(dom)
        else
          && (forall x <- old(Contents()) :: x.from != elm.from)
          && Contents() == InsertedAt(old(Contents()), i, elm) && dom == old(dom) + {elm}
    {
      hide SepT, LinkedT, Nodes, Ordered, Split, Inorder, InsertedAt;
      if root == null {
        i := PlaceFirst(elm);
        return null, i;
      }
      shape := Splay(elm.from, shape);
      KeyAtRoot(shape, elm.from);
      var comp := AddrCmp(elm.from, root.from);
      CmpIsOrder(elm.from, root.from);
      if comp == 0 {
        return root, 0;
      }
      i := PlaceBeside(comp, elm);
      r := null;
    }

    method PlaceFirst(elm: Peer) returns (ghost i: nat)
      requires Valid() && root == null
      modifies this, elm`left, elm`right
      ensures Valid() && i <= |old(Contents())| && Contents() == InsertedAt(old(Contents()), i, elm)
      ensures dom == old(dom) + {elm} && old(Contents()) == []
    {
      elm.left, elm.right := null, null;
      root := elm;
      i := 0;
      dom := dom + {elm};
      shape := Bin(Leaf, elm, Leaf);
      Single(Image(dom), elm);
    }

    /** Give elm one side of the root and the root itself for its two children. */
    method PlaceBeside(comp: int, elm: Peer) returns (ghost i: nat)
      requires Valid() && root != null && elm !in dom && Split(shape, elm.from)
      requires Sign(comp) == Sign(Rank(elm.from) - Rank(root.from)) && comp != 0
      modifies this, dom`left, dom`right, elm`left, elm`right
      ensures Valid() && i <= |old(Contents())| && Contents() == InsertedAt(old(Contents()), i, elm)
      ensures dom == old(dom) + {elm}
    {
      hide Ordered, Inorder, InsertedAt, Split, Beside, SepT, LinkedT, Nodes;
      ghost var t := shape;
      ghost var m := Image(dom + {elm});
      KeepT(Image(dom), m, t);
      BesideContents(t, elm);
      KeyAtRoot(t, elm.from);
      RootLinks(m, t);
      TakeSide(comp, elm, dom + {elm});
      root := elm;
      dom := dom + {elm};
      PlacedBeside(m, Image(dom), t, elm);
      i, shape := InsertPos(t, elm.from), Beside(t, elm);
    }

    method TakeSide(comp: int, elm: Peer, ghost d: set<Peer>)
      requires root != null && root != elm && root in d && elm in d && comp != 0
      modifies elm`left, elm`right, root`left, root`right
      ensures var m, m' := old(Image(d)), Image(d);
        && Only(m, m', {elm, root})
        && m'[elm] == (if comp < 0 then Entry(m[root].left, root) else Entry(root, m[root].right))
        && m'[root] == if comp < 0 then m[root].(left := null) else m[root].(right := null)
    {
      if comp < 0 {
        elm.left := root.left;
        elm.right := root;
        root.left := null;
      } else {
        elm.right := root.right;
        elm.left := root;
        root.right := null;
      }
    }

    /** SPLAY_REMOVE: the element with elm's address, if there is one, goes. */
    method Remove(elm: HostAddr) returns (found: bool, ghost i: nat)
      requires Valid()
      modifies this, dom`left, dom`right
      ensures Valid()
      ensures if found then
          && i < |old(Contents())| && old(Contents())[i].from == elm
          && Contents() == RemovedAt(old(Contents()), i) && dom == old(dom) - {old(Contents())[i]}
        else
          Contents() == old(Contents()) && dom == old(dom) && forall x <- Contents() :: x.from != elm
    {
      hide SepT, LinkedT, Nodes, Ordered, Split, Inorder, RemovedAt;
      i := 0;
      if root == null {
        LeafEmpty(shape);
        return false, 0;
      }
      shape := Splay(elm, shape);
      ghost var t := shape;
      KeyAtRoot(t, elm);
      i := |Inorder(t.l)|;
      var comp := AddrCmp(elm, root.from);
      CmpIsOrder(elm, root.from);
      if comp != 0 {
        return false, 0;
      }
      ghost var gone := t.n;
      shape := DropRoot(elm, t);
      dom := dom - {gone};
      found := true;
    }

    /** The root goes; the largest element on its left, if any, takes its place. */
    method DropRoot(elm: HostAddr, ghost t: Tree) returns (ghost t': Tree)
      requires Rooted(t) && dom == Nodes(t) && Ordered(Inorder(t)) && t.Bin? && Split(t, elm) && t.n.from == elm
      modifies this`root, dom`left, dom`right
      ensures root == Root(t') && LinkedT(Image(dom - {t.n}), t') && SepT(t') && Nodes(t') == dom - {t.n}
      ensures |Inorder(t.l)| < |Inorder(t)| && Inorder(t)[|Inorder(t.l)|] == t.n
      ensures Ordered(Inorder(t')) && Inorder(t') == RemovedAt(Inorder(t), |Inorder(t.l)|)
    {
      hide SepT, LinkedT, Nodes, Ordered, Inorder, RemovedAt;
      ghost var m := Image(dom);
      TakenApart(m, t);
      if root.left == null {
        root := root.right;
        t' := t.r;
        KeepT(m, Image(dom - {t.n}), t');
      } else {
        var tmp := root.right;
        root := root.left;
        ghost var l' := Splay(elm, t.l);
        LargestAtRoot(t.l, l', elm);
        ghost var m1 := Image(dom);
        root.right := tmp;
        t' := Bin(l'.l, l'.n, t.r);
        Rejoined(m, m1, Image(dom - {t.n}), t, l');
      }
    }
  }
}
