/** The mathematical side of the red-black tree of flowd/sys-tree.h: the shape a
    linked tree has, the position of a node inside it, and the balance rules. */
module RbShape {
  import opened Bits
  import opened Sequences

  /** One element with its embedded RB_ENTRY. The key stands for the element's
      place in the order that the generated code's comparator defines. */
  class Node {
    const key: int
    var left: Node?
    var right: Node?
    var parent: Node?
    var red: bool

    constructor (key: int)
      ensures this.key == key
    {
      this.key := key;
      left, right, parent, red := null, null, null, false;
    }
  }

  datatype Tree = Leaf | Bin(l: Tree, red: bool, n: Node, r: Tree)

  /** A tree with one subtree missing, read from the hole up to the root. */
  datatype Ctx =
    | Top
    | InL(up: Ctx, red: bool, n: Node, r: Tree)
    | InR(up: Ctx, l: Tree, red: bool, n: Node)

  ghost function Root(t: Tree): Node? {
    if t.Leaf? then null else t.n
  }

  ghost function Up(c: Ctx): Node? {
    if c.Top? then null else c.n
  }

  ghost function Plug(c: Ctx, t: Tree): Tree {
    match c
    case Top => t
    case InL(up, red, n, r) => Plug(up, Bin(t, red, n, r))
    case InR(up, l, red, n) => Plug(up, Bin(l, red, n, t))
  }

  ghost function Depth(c: Ctx): nat {
    if c.Top? then 0 else 1 + Depth(c.up)
  }

  ghost predicate IsRed(t: Tree) {
    t.Bin? && t.red
  }

  ghost function Paint(t: Tree, red: bool): Tree {
    if t.Leaf? then t else Bin(t.l, red, t.n, t.r)
  }

  // ----- Contents -----

  ghost function Inorder(t: Tree): seq<Node> {
    if t.Leaf? then [] else Inorder(t.l) + [t.n] + Inorder(t.r)
  }

  /** The elements before and after the hole of a context. */
  ghost function Pre(c: Ctx): seq<Node> {
    match c
    case Top => []
    case InL(up, _, _, _) => Pre(up)
    case InR(up, l, _, n) => Pre(up) + Inorder(l) + [n]
  }

  ghost function Post(c: Ctx): seq<Node> {
    match c
    case Top => []
    case InL(up, _, n, r) => [n] + Inorder(r) + Post(up)
    case InR(up, _, _, _) => Post(up)
  }

  lemma InorderBin(t: Tree)
    requires t.Bin?
    ensures Inorder(t) == Inorder(t.l) + [t.n] + Inorder(t.r)
  {
  }

  lemma {:induction false} InorderPlug(c: Ctx, t: Tree)
    ensures Inorder(Plug(c, t)) == Pre(c) + Inorder(t) + Post(c)
    decreases c
  {
    match c
    case Top =>
    case InL(up, red, n, r) =>
      InorderPlug(up, Bin(t, red, n, r));
      RegroupEnds(Pre(up), Inorder(t), [n], Inorder(r), Post(up));
    case InR(up, l, red, n) =>
      InorderPlug(up, Bin(l, red, n, t));
      RegroupEnds(Pre(up), Inorder(l), [n], Inorder(t), Post(up));
  }

  ghost predicate Ordered(s: seq<Node>) {
    forall i, j :: 0 <= i < j < |s| ==> s[i].key < s[j].key
  }

  // ----- Node sets and separation -----

  lemma OnePlace(a: seq<Node>, x: Node, b: seq<Node>, i: nat)
    requires Ordered(a + ([x] + b)) && i < |a| + 1 + |b| && (a + ([x] + b))[i] == x
    ensures i == |a| && (a + ([x] + b))[i + 1..] == b
  {
    assert (a + ([x] + b))[|a|] == x;
  }

  ghost function Nodes(t: Tree): set<Node> {
    if t.Leaf? then {} else Nodes(t.l) + {t.n} + Nodes(t.r)
  }

  ghost function NodesC(c: Ctx): set<Node> {
    match c
    case Top => {}
    case InL(up, _, n, r) => NodesC(up) + {n} + Nodes(r)
    case InR(up, l, _, n) => NodesC(up) + {n} + Nodes(l)
  }

  ghost predicate SepT(t: Tree) {
    t.Bin? ==>
      && t.n !in Nodes(t.l) && t.n !in Nodes(t.r) && Nodes(t.l) !! Nodes(t.r)
      && SepT(t.l) && SepT(t.r)
  }

  ghost predicate SepC(c: Ctx) {
    match c
    case Top => true
    case InL(up, _, n, r) =>
      n !in Nodes(r) && n !in NodesC(up) && Nodes(r) !! NodesC(up) && SepT(r) && SepC(up)
    case InR(up, l, _, n) =>
      n !in Nodes(l) && n !in NodesC(up) && Nodes(l) !! NodesC(up) && SepT(l) && SepC(up)
  }

  ghost predicate Sep(c: Ctx, t: Tree) {
    SepT(t) && SepC(c) && Nodes(t) !! NodesC(c)
  }

  ghost function RotL(t: Tree): Tree
    requires t.Bin? && t.r.Bin?
  {
    Bin(Bin(t.l, t.red, t.n, t.r.l), t.r.red, t.r.n, t.r.r)
  }

  ghost function RotR(t: Tree): Tree
    requires t.Bin? && t.l.Bin?
  {
    Bin(t.l.l, t.l.red, t.l.n, Bin(t.l.r, t.red, t.n, t.r))
  }

  lemma {:induction false} RotLSep(t: Tree)
    requires t.Bin? && t.r.Bin? && SepT(t)
    ensures SepT(RotL(t)) && Nodes(RotL(t)) == Nodes(t)
  {
    assert SepT(t.r);
    assert Nodes(Bin(t.l, t.red, t.n, t.r.l)) == Nodes(t.l) + {t.n} + Nodes(t.r.l);
    assert SepT(Bin(t.l, t.red, t.n, t.r.l));
  }

  lemma {:induction false} RotRSep(t: Tree)
    requires t.Bin? && t.l.Bin? && SepT(t)
    ensures SepT(RotR(t)) && Nodes(RotR(t)) == Nodes(t)
  {
    assert SepT(t.l);
    assert Nodes(Bin(t.l.r, t.red, t.n, t.r)) == Nodes(t.l.r) + {t.n} + Nodes(t.r);
    assert SepT(Bin(t.l.r, t.red, t.n, t.r));
  }

  // ----- Balance: equal black counts and no red node under a red node -----

  /** Every path from the root of t to a leaf passes k black nodes. */
  ghost predicate BH(t: Tree, k: int) {
    if t.Leaf? then k == 0
    else var j := if t.red then k else k - 1; BH(t.l, j) && BH(t.r, j)
  }

  /** Filling the hole with a tree of black height k balances every node above it. */
  ghost predicate BHC(c: Ctx, k: int) {
    match c
    case Top => true
    case InL(up, red, _, r) => BH(r, k) && BHC(up, if red then k else k + 1)
    case InR(up, l, red, _) => BH(l, k) && BHC(up, if red then k else k + 1)
  }

  ghost predicate NoRR(t: Tree) {
    t.Bin? ==> (t.red ==> !IsRed(t.l) && !IsRed(t.r)) && NoRR(t.l) && NoRR(t.r)
  }

  /** No red-red edge in the context when the hole's root has the given colour. */
  ghost predicate NoRRC(c: Ctx, red: bool) {
    match c
    case Top => true
    case InL(up, cr, _, r) => (cr ==> !red && !IsRed(r)) && NoRR(r) && NoRRC(up, cr)
    case InR(up, l, cr, _) => (cr ==> !red && !IsRed(l)) && NoRR(l) && NoRRC(up, cr)
  }

  /** The root, if it lies in the context, is black. */
  ghost predicate TopBlack(c: Ctx) {
    c.Top? || (if c.up.Top? then !c.red else TopBlack(c.up))
  }

  ghost predicate Balanced(t: Tree, k: int) {
    BH(t, k) && NoRR(t) && !IsRed(t)
  }

  ghost predicate IsRb(t: Tree) {
    exists k :: Balanced(t, k)
  }

  lemma {:induction false} BHNonneg(t: Tree, k: int)
    requires BH(t, k)
    ensures k >= 0
    ensures k > 0 ==> t.Bin?
  {
    if t.Bin? { BHNonneg(t.l, if t.red then k else k - 1); }
  }

  /** Splitting a balanced tree at any node gives a balanced hole, and back. */
  lemma {:induction false} PlugBalanced(c: Ctx, t: Tree, k: int)
    requires BH(t, k) && BHC(c, k) && NoRR(t) && NoRRC(c, IsRed(t)) && TopBlack(c)
    requires c.Top? ==> !IsRed(t)
    ensures IsRb(Plug(c, t))
    decreases c
  {
    match c
    case Top => assert Balanced(t, k);
    case InL(up, red, n, r) => PlugBalanced(up, Bin(t, red, n, r), if red then k else k + 1);
    case InR(up, l, red, n) => PlugBalanced(up, Bin(l, red, n, t), if red then k else k + 1);
  }

  ghost predicate Fits(c: Ctx, t: Tree, k: int) {
    BH(t, k) && BHC(c, k) && NoRR(t) && NoRRC(c, IsRed(t)) && TopBlack(c)
  }

  lemma {:induction false} UnplugBalanced(c: Ctx, t: Tree) returns (k: int)
    requires IsRb(Plug(c, t))
    ensures Fits(c, t, k) && (c.Top? ==> !IsRed(t))
    decreases c
  {
    match c
    case Top => k :| Balanced(t, k);
    case InL(up, red, n, r) =>
      k := UnplugBalanced(up, Bin(t, red, n, r));
      k := if red then k else k - 1;
    case InR(up, l, red, n) =>
      k := UnplugBalanced(up, Bin(l, red, n, t));
      k := if red then k else k - 1;
  }

  // ----- Insertion fix-up, one round -----

  /** A red node whose parent may be red too; everything else is in order. */
  ghost predicate InsertState(c: Ctx, t: Tree, k: int) {
    IsRed(t) && BH(t, k) && BHC(c, k) && NoRR(t) && NoRRC(c, false) && TopBlack(c)
  }

  datatype Spot = Spot(c: Ctx, t: Tree)

  /** The subtree at the parent of the hole, after the inner rotation if the new
      node is an inner grandchild. */
  ghost function OuterL(c: Ctx, t: Tree): Tree
    requires !c.Top? && (c.InR? ==> t.Bin?)
  {
    match c
    case InL(_, red, n, r) => Bin(t, red, n, r)
    case InR(_, l, red, n) => Bin(Bin(l, red, n, t.l), t.red, t.n, t.r)
  }

  ghost function OuterR(c: Ctx, t: Tree): Tree
    requires !c.Top? && (c.InL? ==> t.Bin?)
  {
    match c
    case InR(_, l, red, n) => Bin(l, red, n, t)
    case InL(_, red, n, r) => Bin(t.l, t.red, t.n, Bin(t.r, red, n, r))
  }

  ghost function Here(c: Ctx, t: Tree): Tree
    requires !c.Top?
  {
    match c
    case InL(_, red, n, r) => Bin(t, red, n, r)
    case InR(_, l, red, n) => Bin(l, red, n, t)
  }

  ghost function InsertStep(c: Ctx, t: Tree): Spot
    requires t.Bin? && !c.Top? && c.red && !c.up.Top?
  {
    match c.up
    case InL(g, _, gn, uncle) =>
      if IsRed(uncle) then Spot(g, Bin(Paint(Here(c, t), false), true, gn, Paint(uncle, false)))
      else
        var p := OuterL(c, t);
        Spot(InL(g, false, p.n, Bin(p.r, true, gn, uncle)), p.l)
    case InR(g, uncle, _, gn) =>
      if IsRed(uncle) then Spot(g, Bin(Paint(uncle, false), true, gn, Paint(Here(c, t), false)))
      else
        var p := OuterR(c, t);
        Spot(InR(g, Bin(uncle, true, gn, p.l), false, p.n), p.r)
  }

  lemma {:induction false} InsertStepKeeps(c: Ctx, t: Tree, k: int) returns (k': int)
    requires InsertState(c, t, k) && !c.Top? && c.red
    ensures !c.up.Top? && !c.up.red
    ensures var s := InsertStep(c, t); InsertState(s.c, s.t, k') && Depth(s.c) < Depth(c)
  {
    assert BHC(c.up, k) && NoRRC(c.up, true) && TopBlack(c.up);
    var uncle := if c.up.InL? then c.up.r else c.up.l;
    assert BH(uncle, k) && NoRR(uncle);
    assert BH(t.l, k) && BH(t.r, k);
    k' := if IsRed(uncle) then k + 1 else k;
  }

  lemma RotateInorder(a: Tree, xr: bool, x: Node, b: Tree, yr: bool, y: Node, d: Tree)
    ensures Inorder(Bin(Bin(a, xr, x, b), yr, y, d)) == Inorder(Bin(a, xr, x, Bin(b, yr, y, d)))
  {
    assert Inorder(Bin(Bin(a, xr, x, b), yr, y, d)) == (Inorder(a) + [x] + Inorder(b)) + [y] + Inorder(d);
    assert Inorder(Bin(a, xr, x, Bin(b, yr, y, d))) == Inorder(a) + [x] + (Inorder(b) + [y] + Inorder(d));
  }

  /** Recolouring and rotating below a point do not change what the tree holds. */
  lemma SameInorder(c: Ctx, t: Tree, t': Tree)
    requires Inorder(t) == Inorder(t')
    ensures Inorder(Plug(c, t)) == Inorder(Plug(c, t'))
  {
    InorderPlug(c, t);
    InorderPlug(c, t');
  }

  lemma OuterInorder(c: Ctx, t: Tree)
    requires t.Bin? && !c.Top?
    ensures Inorder(OuterL(c, t)) == Inorder(Here(c, t)) == Inorder(OuterR(c, t))
  {
    match c
    case InL(_, red, n, r) => RotateInorder(t.l, t.red, t.n, t.r, red, n, r);
    case InR(_, l, red, n) => RotateInorder(l, red, n, t.l, t.red, t.n, t.r);
  }

  lemma InsertStepInorder(c: Ctx, t: Tree)
    requires t.Bin? && !c.Top? && c.red && !c.up.Top?
    ensures var s := InsertStep(c, t); Inorder(Plug(s.c, s.t)) == Inorder(Plug(c, t))
  {
    var s := InsertStep(c, t);
    var before := Here(c.up, Here(c, t));
    var after := if s.c == c.up.up then s.t else Here(s.c, s.t);
    OuterInorder(c, t);
    match c.up {
      case InL(g, _, gn, uncle) =>
        if !IsRed(uncle) {
          var p := OuterL(c, t);
          RotateInorder(p.l, false, p.n, p.r, true, gn, uncle);
          SameInorder(g, before, Here(s.c, s.t));
        } else {
          SameInorder(g, before, s.t);
        }
      case InR(g, uncle, _, gn) =>
        if !IsRed(uncle) {
          var p := OuterR(c, t);
          RotateInorder(uncle, true, gn, p.l, false, p.n, p.r);
          SameInorder(g, before, Here(s.c, s.t));
        } else {
          SameInorder(g, before, s.t);
        }
    }
  }

  lemma InsertDone(c: Ctx, t: Tree, k: int)
    requires InsertState(c, t, k) && (c.Top? || !c.red)
    ensures IsRb(Paint(Plug(c, t), false))
  {
    if c.Top? {
      assert Balanced(Paint(t, false), k + 1);
    } else {
      PlugBalanced(c, t, k);
      var k' :| Balanced(Plug(c, t), k');
      assert Paint(Plug(c, t), false) == Plug(c, t);
    }
  }

  // ----- Removal fix-up, one round -----

  /** The focus is one black node short, and may be red below a red child of its own
      (it is painted black at the end); everything else is in order. */
  ghost predicate RemoveState(c: Ctx, t: Tree, k: int) {
    BH(t, k) && BHC(c, k + 1) && NoRR(Paint(t, false)) && NoRRC(c, false) && TopBlack(c)
  }

  ghost function Sibling(c: Ctx): Tree
    requires !c.Top?
  {
    if c.InL? then c.r else c.l
  }

  /** The context with another sibling at the hole. */
  ghost function WithSibling(c: Ctx, s: Tree): Ctx
    requires !c.Top?
  {
    match c
    case InL(up, red, n, _) => InL(up, red, n, s)
    case InR(up, _, red, n) => InR(up, s, red, n)
  }

  ghost function WithRed(c: Ctx, red: bool): Ctx
    requires !c.Top?
  {
    match c
    case InL(up, _, n, r) => InL(up, red, n, r)
    case InR(up, l, _, n) => InR(up, l, red, n)
  }

  /** The sibling's child on the far side from the hole, and on the near side. */
  ghost function Far(c: Ctx): Tree
    requires !c.Top? && Sibling(c).Bin?
  {
    if c.InL? then c.r.r else c.l.l
  }

  ghost function Near(c: Ctx): Tree
    requires !c.Top? && Sibling(c).Bin?
  {
    if c.InL? then c.r.l else c.l.r
  }

  /** In the fix-up loop the sibling of the short side is never null. */
  lemma SiblingThere(c: Ctx, t: Tree, k: int)
    requires RemoveState(c, t, k) && !c.Top?
    ensures Sibling(c).Bin?
  {
    BHNonneg(t, k);
    BHNonneg(Sibling(c), k + 1);
  }

  /** A red sibling is rotated above the parent; the focus then has a black sibling. */
  ghost function RotateSibling(c: Ctx): Ctx
    requires !c.Top? && Sibling(c).Bin?
  {
    match c
    case InL(up, _, n, s) => InL(InL(up, false, s.n, s.r), true, n, s.l)
    case InR(up, s, _, n) => InR(InR(up, s.l, false, s.n), s.r, true, n)
  }

  lemma {:induction false} RotateSiblingKeeps(c: Ctx, t: Tree, k: int)
    requires RemoveState(c, t, k) && !c.Top? && IsRed(Sibling(c)) && !IsRed(t)
    ensures var c' := RotateSibling(c);
            RemoveState(c', t, k) && c'.red && !IsRed(Sibling(c')) && Depth(c') == Depth(c) + 1
  {
    assert BH(Near(c), k + 1) && BH(Far(c), k + 1);
    assert NoRRC(c.up, false);
    assert NoRRC(RotateSibling(c).up, true);
  }

  /** With a black sibling and black nephews the sibling turns red and the shortage
      moves up to the parent. */
  ghost function ShortParent(c: Ctx, t: Tree): Tree
    requires !c.Top?
  {
    Here(WithSibling(c, Paint(Sibling(c), true)), t)
  }

  lemma {:induction false} ShortParentKeeps(c: Ctx, t: Tree, k: int)
    requires RemoveState(c, t, k) && !c.Top? && !IsRed(t)
    requires Sibling(c).Bin? && !Sibling(c).red && !IsRed(Near(c)) && !IsRed(Far(c))
    ensures RemoveState(c.up, ShortParent(c, t), if c.red then k else k + 1)
  {
    assert BH(Near(c), k) && BH(Far(c), k);
    assert BH(Paint(Sibling(c), true), k);
    assert NoRRC(c.up, c.red);
    ColourOnly(c.up);
  }

  /** A context that takes a red root also takes a black one. */
  lemma ColourOnly(c: Ctx)
    ensures NoRRC(c, true) ==> NoRRC(c, false)
  {
  }

  /** A red near nephew is rotated above the black sibling. */
  ghost function RotateNephew(c: Ctx): Ctx
    requires !c.Top? && Sibling(c).Bin? && Near(c).Bin?
  {
    match c
    case InL(up, red, n, s) => InL(up, red, n, Bin(s.l.l, false, s.l.n, Bin(s.l.r, true, s.n, s.r)))
    case InR(up, s, red, n) => InR(up, Bin(Bin(s.l, true, s.n, s.r.l), false, s.r.n, s.r.r), red, n)
  }

  lemma {:induction false} RotateNephewKeeps(c: Ctx, t: Tree, k: int)
    requires RemoveState(c, t, k) && !c.Top? && Sibling(c).Bin? && !Sibling(c).red
    requires IsRed(Near(c)) && !IsRed(Far(c))
    ensures var c' := RotateNephew(c);
            RemoveState(c', t, k) && Sibling(c').Bin? && !Sibling(c').red && IsRed(Far(c'))
  {
    assert BH(Near(c), k) && BH(Far(c), k);
    assert NoRR(Near(c));
    var f := Far(RotateNephew(c));
    assert BH(f.l, k) && BH(f.r, k);
    assert NoRR(f);
  }

  /** With a red far nephew one rotation supplies the missing black node. */
  ghost function Settled(c: Ctx, t: Tree): Tree
    requires !c.Top? && Sibling(c).Bin?
  {
    match c
    case InL(_, red, n, s) => Bin(Bin(t, false, n, s.l), red, s.n, Paint(s.r, false))
    case InR(_, s, red, n) => Bin(Paint(s.l, false), red, s.n, Bin(s.r, false, n, t))
  }

  lemma {:induction false} SettledIsRb(c: Ctx, t: Tree, k: int)
    requires RemoveState(c, t, k) && !c.Top? && !IsRed(t)
    requires Sibling(c).Bin? && !Sibling(c).red && IsRed(Far(c))
    ensures IsRb(Plug(c.up, Settled(c, t)))
    ensures c.up.Top? ==> !c.red
  {
    assert BH(Near(c), k) && BH(Far(c), k);
    assert BH(Paint(Far(c), false), k + 1);
    assert NoRR(Sibling(c)) && NoRR(Near(c)) && NoRR(Far(c));
    assert NoRR(Paint(Far(c), false));
    PlugBalanced(c.up, Settled(c, t), if c.red then k + 1 else k + 2);
  }

  lemma {:induction false} RemoveDone(c: Ctx, t: Tree, k: int)
    requires RemoveState(c, t, k) && (c.Top? || IsRed(t))
    ensures IsRb(Plug(c, Paint(t, false)))
  {
    PlugBalanced(c, Paint(t, false), if IsRed(t) then k + 1 else k);
  }

  // The three moves keep the contents.

  lemma RotateSiblingInorder(c: Ctx, t: Tree)
    requires !c.Top? && Sibling(c).Bin?
    ensures Inorder(Plug(RotateSibling(c), t)) == Inorder(Plug(c, t))
  {
    var c' := RotateSibling(c);
    match c
    case InL(up, red, n, s) =>
      RotateInorder(t, true, n, s.l, false, s.n, s.r);
      SameInorder(up, Here(c, t), Here(c'.up, Here(c', t)));
    case InR(up, s, red, n) =>
      RotateInorder(s.l, false, s.n, s.r, true, n, t);
      SameInorder(up, Here(c, t), Here(c'.up, Here(c', t)));
  }

  lemma ShortParentInorder(c: Ctx, t: Tree)
    requires !c.Top?
    ensures Inorder(Plug(c.up, ShortParent(c, t))) == Inorder(Plug(c, t))
  {
    assert Inorder(Paint(Sibling(c), true)) == Inorder(Sibling(c));
    SameInorder(c.up, Here(c, t), ShortParent(c, t));
  }

  lemma RotateNephewInorder(c: Ctx, t: Tree)
    requires !c.Top? && Sibling(c).Bin? && Near(c).Bin?
    ensures Inorder(Plug(RotateNephew(c), t)) == Inorder(Plug(c, t))
  {
    var c' := RotateNephew(c);
    match c
    case InL(up, _, _, s) =>
      RotateInorder(s.l.l, false, s.l.n, s.l.r, true, s.n, s.r);
      assert Inorder(s) == Inorder(Bin(Paint(s.l, false), true, s.n, s.r));
      SameInorder(up, Here(c, t), Here(c', t));
    case InR(up, s, _, _) =>
      RotateInorder(s.l, true, s.n, s.r.l, false, s.r.n, s.r.r);
      assert Inorder(s) == Inorder(Bin(s.l, true, s.n, Paint(s.r, false)));
      SameInorder(up, Here(c, t), Here(c', t));
  }

  lemma SettledInorder(c: Ctx, t: Tree)
    requires !c.Top? && Sibling(c).Bin?
    ensures Inorder(Plug(c.up, Settled(c, t))) == Inorder(Plug(c, t))
  {
    match c {
      case InL(up, red, n, s) => RotateInorder(t, false, n, s.l, red, s.n, s.r);
      case InR(up, s, red, n) => RotateInorder(s.l, red, s.n, s.r, false, n, t);
    }
    SameInorder(c.up, Here(c, t), Settled(c, t));
  }

  /** The tree after the repair with a red nephew. */
  ghost function Finished(c: Ctx, t: Tree): Tree
    requires !c.Top? && Sibling(c).Bin? && (IsRed(Near(c)) || IsRed(Far(c)))
  {
    var c' := if IsRed(Far(c)) then c else RotateNephew(c);
    Plug(c'.up, Settled(c', t))
  }

  lemma {:induction false} FinishedKeeps(c: Ctx, t: Tree, k: int) returns (k': int)
    requires RemoveState(c, t, k) && !c.Top? && !IsRed(t) && Sibling(c).Bin? && !Sibling(c).red
    requires IsRed(Near(c)) || IsRed(Far(c))
    ensures RemoveState(Top, Finished(c, t), k') && Inorder(Finished(c, t)) == Inorder(Plug(c, t))
  {
    if IsRed(Far(c)) {
      SettledIsRb(c, t, k);
      SettledInorder(c, t);
    } else {
      RotateNephewKeeps(c, t, k);
      RotateNephewInorder(c, t);
      SettledIsRb(RotateNephew(c), t, k);
      SettledInorder(RotateNephew(c), t);
    }
    k' :| Balanced(Finished(c, t), k');
  }

  // ----- Height -----

  ghost function Height(t: Tree): nat {
    if t.Leaf? then 0 else 1 + (if Height(t.l) > Height(t.r) then Height(t.l) else Height(t.r))
  }

  lemma {:induction false} HeightByBlack(t: Tree, k: int)
    requires BH(t, k) && NoRR(t)
    ensures k >= 0
    ensures Height(t) <= 2 * k + (if IsRed(t) then 1 else 0)
    ensures Pow2(k) <= |Inorder(t)| + 1
  {
    BHNonneg(t, k);
    if t.Bin? {
      var j := if t.red then k else k - 1;
      HeightByBlack(t.l, j);
      HeightByBlack(t.r, j);
    }
  }

  /** The documented bound: the height is at most 2 lg (n + 1). */
  lemma HeightBound(t: Tree)
    requires IsRb(t)
    ensures var n := |Inorder(t)|; Pow2(Height(t)) <= (n + 1) * (n + 1)
  {
    var k :| Balanced(t, k);
    HeightByBlack(t, k);
    var n := |Inorder(t)|;
    Pow2Monotone(Height(t), 2 * k);
    Pow2Add(k, k);
    var p := Pow2(k);
    MulMonotone(p, p, n + 1);
    MulMonotone(n + 1, p, n + 1);
  }

  // ----- Finding places -----

  /** What the elements on the two sides of a descent say about a key. */
  ghost predicate Between(c: Ctx, key: int) {
    (forall x <- Pre(c) :: x.key < key) && (forall x <- Post(c) :: key < x.key)
  }

  lemma DescendLeft(c: Ctx, t: Tree, key: int)
    requires t.Bin? && Ordered(Inorder(Plug(c, t))) && Between(c, key) && key < t.n.key
    ensures Between(InL(c, t.red, t.n, t.r), key)
  {
    InorderPlug(c, t);
    var s := Inorder(Plug(c, t));
    var at := |Pre(c)| + |Inorder(t.l)|;
    assert s[at] == t.n;
    forall x <- Inorder(t.r) ensures key < x.key {
      var i :| 0 <= i < |Inorder(t.r)| && Inorder(t.r)[i] == x;
      assert s[at + 1 + i] == x;
    }
  }

  lemma DescendRight(c: Ctx, t: Tree, key: int)
    requires t.Bin? && Ordered(Inorder(Plug(c, t))) && Between(c, key) && t.n.key < key
    ensures Between(InR(c, t.l, t.red, t.n), key)
  {
    InorderPlug(c, t);
    var s := Inorder(Plug(c, t));
    var at := |Pre(c)| + |Inorder(t.l)|;
    assert s[at] == t.n;
    forall x <- Inorder(t.l) ensures x.key < key {
      var i :| 0 <= i < |Inorder(t.l)| && Inorder(t.l)[i] == x;
      assert s[|Pre(c)| + i] == x;
    }
  }

  lemma {:induction false} NodesAreInorder(t: Tree)
    ensures Nodes(t) == Elems(Inorder(t))
  {
    if t.Bin? {
      NodesAreInorder(t.l);
      NodesAreInorder(t.r);
      ElemsConcat(Inorder(t.l), [t.n]);
      ElemsConcat(Inorder(t.l) + [t.n], Inorder(t.r));
    }
  }

  lemma {:induction false} FocusOn(c0: Ctx, t0: Tree, x: Node) returns (c: Ctx, t: Tree)
    requires x in Nodes(t0)
    ensures Plug(c, t) == Plug(c0, t0) && t.Bin? && t.n == x
    decreases t0
  {
    if x == t0.n {
      c, t := c0, t0;
    } else if x in Nodes(t0.l) {
      c, t := FocusOn(InL(c0, t0.red, t0.n, t0.r), t0.l, x);
    } else {
      c, t := FocusOn(InR(c0, t0.l, t0.red, t0.n), t0.r, x);
    }
  }

  lemma LeafAdded(c: Ctx, x: Node, t': Tree)
    requires Ordered(Inorder(Plug(c, Leaf))) && Between(c, x.key)
    requires Inorder(t') == Inorder(Plug(c, Bin(Leaf, true, x, Leaf)))
    ensures var s := Inorder(Plug(c, Leaf));
      && Ordered(Inorder(t')) && Nodes(t') == Nodes(Plug(c, Leaf)) + {x}
      && |Pre(c)| <= |s| && Inorder(t') == InsertedAt(s, |Pre(c)|, x)
  {
    var t := Plug(c, Leaf);
    InorderPlug(c, Leaf);
    InorderPlug(c, Bin(Leaf, true, x, Leaf));
    LeafAddedAt(t, t', Pre(c), x, Post(c));
  }

  lemma LeafAddedAt(t: Tree, t': Tree, a: seq<Node>, x: Node, b: seq<Node>)
    requires Inorder(t) == a + [] + b && Inorder(t') == a + ([] + [x] + []) + b && Ordered(Inorder(t))
    requires (forall y <- a :: y.key < x.key) && (forall y <- b :: x.key < y.key)
    ensures Ordered(Inorder(t')) && Nodes(t') == Nodes(t) + {x}
    ensures |a| <= |Inorder(t)| && Inorder(t') == InsertedAt(Inorder(t), |a|, x)
  {
    SplitAtPre(Inorder(t), a, b, x);
    assert Inorder(t') == a + [x] + b;
    OrderedInsert(a, x, b);
    SameElements(t', t, a, x, b);
  }

  lemma SplitAtPre(s: seq<Node>, a: seq<Node>, b: seq<Node>, x: Node)
    requires s == a + [] + b
    ensures s == a + b && |a| <= |s| && InsertedAt(s, |a|, x) == a + [x] + b
  {
    assert s == a + b;
    assert s[..|a|] == a && s[|a|..] == b;
  }

  lemma SameElements(t': Tree, t: Tree, a: seq<Node>, x: Node, b: seq<Node>)
    requires Inorder(t) == a + b && Inorder(t') == a + [x] + b
    ensures Nodes(t') == Nodes(t) + {x} && Nodes(t) == Elems(a) + Elems(b)
  {
    NodesAreInorder(t');
    NodesAreInorder(t);
    ElemsConcat(a, b);
    ElemsConcat(a, [x]);
    ElemsConcat(a + [x], b);
    assert Elems([x]) == {x};
  }

  lemma OrderedInsert(a: seq<Node>, x: Node, b: seq<Node>)
    requires Ordered(a + b)
    requires (forall y <- a :: y.key < x.key) && (forall y <- b :: x.key < y.key)
    ensures Ordered(a + [x] + b)
  {
    var s := a + [x] + b;
    forall i, j | 0 <= i < j < |s| ensures s[i].key < s[j].key {
      var i', j' := if i < |a| then i else i - 1, if j < |a| then j else j - 1;
      if i != |a| && j != |a| {
        assert (a + b)[i'] == s[i] && (a + b)[j'] == s[j];
      } else if i == |a| {
        assert s[j] == b[j - |a| - 1];
      } else {
        assert s[i] == a[i];
      }
    }
  }

  lemma OrderedRemove(a: seq<Node>, x: Node, b: seq<Node>)
    requires Ordered(a + [x] + b)
    ensures Ordered(a + b) && x !in Elems(a) && x !in Elems(b)
  {
    var s := a + [x] + b;
    assert s[|a|] == x;
    forall i, j | 0 <= i < j < |a + b| ensures (a + b)[i].key < (a + b)[j].key {
      var i', j' := if i < |a| then i else i + 1, if j < |a| then j else j + 1;
      assert s[i'] == (a + b)[i] && s[j'] == (a + b)[j];
    }
    forall i | 0 <= i < |a| ensures a[i] != x { assert s[i].key < s[|a|].key; }
    forall i | 0 <= i < |b| ensures b[i] != x { assert s[|a| + 1 + i] == b[i]; }
  }

  lemma NodeRemovedAt(t: Tree, t': Tree, a: seq<Node>, x: Node, b: seq<Node>)
    requires Inorder(t) == a + [x] + b && Inorder(t') == a + b && Ordered(Inorder(t))
    ensures Ordered(Inorder(t')) && Nodes(t') == Nodes(t) - {x}
    ensures |a| < |Inorder(t)| && Inorder(t)[|a|] == x && Inorder(t') == RemovedAt(Inorder(t), |a|)
  {
    var s := Inorder(t);
    assert s[|a|] == x && s[..|a|] == a && s[|a| + 1..] == b;
    OrderedRemove(a, x, b);
    SameElements(t, t', a, x, b);
  }

  lemma Pair(a: seq<Node>, b: seq<Node>, x: Node, d: seq<Node>, e: seq<Node>)
    ensures a + (b + d) + e == (a + b) + (d + e)
    ensures a + b + ([x] + d + e) == (a + b) + [x] + (d + e)
  {
  }

  /** Removing an element with at most one child. */
  lemma {:induction false} BypassContents(c: Ctx, t: Tree, child: Tree)
    requires t.Bin? && ((t.l.Leaf? && child == t.r) || (t.r.Leaf? && child == t.l))
    ensures Inorder(Plug(c, t)) == (Pre(c) + Inorder(t.l)) + [t.n] + (Inorder(t.r) + Post(c))
    ensures Inorder(Plug(c, child)) == (Pre(c) + Inorder(t.l)) + (Inorder(t.r) + Post(c))
  {
    InorderPlug(c, t);
    InorderPlug(c, child);
    RegroupEnds(Pre(c), Inorder(t.l), [t.n], Inorder(t.r), Post(c));
    assert Inorder(child) == Inorder(t.l) + Inorder(t.r);
    Pair(Pre(c), Inorder(t.l), t.n, Inorder(t.r), Post(c));
  }

  /** Removing an element with two children: its successor, the leftmost element on
      its right, takes its place. */
  lemma {:induction false} SuccessorContents(base: Ctx, c: Ctx, t: Tree, child: Tree)
    requires base.InR? && LeftSpine(c, base) && t.Bin? && t.l.Leaf? && child == t.r
    ensures var a, b := Pre(base.up) + Inorder(base.l), [t.n] + Inorder(t.r) + Post(c);
            var c' := Rebase(c, base, InR(base.up, base.l, base.red, t.n));
      && Inorder(Plug(c, t)) == a + [base.n] + b
      && Inorder(Plug(c', child)) == a + b
  {
    RebaseKeeps(c, base, t.n, t, 0);
    InorderPlug(c, t);
    InorderPlug(Rebase(c, base, InR(base.up, base.l, base.red, t.n)), child);
    var a := Pre(base.up) + Inorder(base.l);
    assert Inorder(t) == [t.n] + Inorder(t.r);
    assert (a + [base.n]) + ([t.n] + Inorder(t.r)) + Post(c) == a + [base.n] + ([t.n] + Inorder(t.r) + Post(c));
    assert (a + [t.n]) + Inorder(t.r) + Post(c) == a + ([t.n] + Inorder(t.r) + Post(c));
  }

  /** Taking one element with at most one child out of a balanced tree. */
  lemma {:induction false} BypassBalance(c: Ctx, t: Tree, child: Tree, k: int)
    requires Fits(c, t, k) && (c.Top? ==> !IsRed(t))
    requires t.Bin? && ((t.l.Leaf? && child == t.r) || (t.r.Leaf? && child == t.l))
    ensures if t.red then Fits(c, child, k) && !c.Top? else RemoveState(c, child, k - 1)
  {
    ColourOnly(c);
    assert NoRR(child);
  }

  // ----- Removal: the successor takes the removed element's place -----

  /** c lies on the left spine below the hole of base. */
  ghost predicate LeftSpine(c: Ctx, base: Ctx) {
    c == base || (c.InL? && LeftSpine(c.up, base))
  }

  ghost function PlugTo(c: Ctx, base: Ctx, t: Tree): Tree
    requires LeftSpine(c, base)
  {
    if c == base then t else PlugTo(c.up, base, Here(c, t))
  }

  ghost function Rebase(c: Ctx, base: Ctx, base': Ctx): Ctx
    requires LeftSpine(c, base)
  {
    if c == base then base' else InL(Rebase(c.up, base, base'), c.red, c.n, c.r)
  }

  /** Giving the base another element moves nothing else. */
  lemma {:induction false} RebaseKeeps(c: Ctx, base: Ctx, x: Node, t: Tree, k: int)
    requires base.InR? && LeftSpine(c, base)
    ensures var base' := InR(base.up, base.l, base.red, x);
            var c' := Rebase(c, base, base');
      && (BHC(c, k) ==> BHC(c', k)) && (NoRRC(c, false) ==> NoRRC(c', false)) && (TopBlack(c) ==> TopBlack(c'))
      && (NoRRC(c, true) ==> NoRRC(c', true)) && !c.Top? && !c'.Top?
      && Pre(c') == Pre(base.up) + Inorder(base.l) + [x] && Pre(c) == Pre(base) && Post(c') == Post(c)
      && LeftSpine(c', base') && PlugTo(c', base', t) == PlugTo(c, base, t)
    decreases c
  {
    if c != base {
      RebaseKeeps(c.up, base, x, Here(c, t), if c.red then k else k + 1);
      SpineLonger(c.up, base);
      SpineLonger(Rebase(c.up, base, InR(base.up, base.l, base.red, x)), InR(base.up, base.l, base.red, x));
    }
  }

  lemma {:induction false} SpineLonger(c: Ctx, base: Ctx)
    requires LeftSpine(c, base)
    ensures Depth(c) >= Depth(base)
    decreases c
  {
    if c != base { SpineLonger(c.up, base); }
  }

  lemma {:induction false} SpineNodes(c: Ctx, base: Ctx, t: Tree)
    requires LeftSpine(c, base)
    ensures NodesC(c) + Nodes(t) == NodesC(base) + Nodes(PlugTo(c, base, t)) && NodesC(base) <= NodesC(c)
    decreases c
  {
    if c != base {
      SpineNodes(c.up, base, Here(c, t));
    }
  }
}
