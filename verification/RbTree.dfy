/** The red-black tree code that RB_GENERATE expands to (flowd/sys-tree.h), working in
    place on linked nodes. Ghost shapes name the tree a state of the heap stands for. */
module RbTree {
  import opened Bits
  import opened RbShape
  import opened Sequences

  /** What the four link fields of a node hold, and an image of all of them. */
  datatype Entry = Entry(left: Node?, right: Node?, parent: Node?, red: bool)
  type Mem = map<Node, Entry>

  /** The nodes of t are linked and coloured as t says, below the parent p. */
  ghost predicate LinkedT(m: Mem, t: Tree, p: Node?) {
    t.Bin? ==>
      && t.n in m && m[t.n] == Entry(Root(t.l), Root(t.r), p, t.red)
      && LinkedT(m, t.l, t.n) && LinkedT(m, t.r, t.n)
  }

  ghost predicate LinkedC(m: Mem, c: Ctx, hole: Node?, root: Node?) {
    match c
    case Top => root == hole
    case InL(up, red, n, r) =>
      && n in m && m[n] == Entry(hole, Root(r), Up(up), red)
      && LinkedT(m, r, n) && LinkedC(m, up, n, root)
    case InR(up, l, red, n) =>
      && n in m && m[n] == Entry(Root(l), hole, Up(up), red)
      && LinkedT(m, l, n) && LinkedC(m, up, n, root)
  }

  /** The whole tree is Plug(c, t), with every link and colour in place. */
  ghost predicate At(m: Mem, root: Node?, c: Ctx, t: Tree) {
    Sep(c, t) && LinkedT(m, t, Up(c)) && LinkedC(m, c, Root(t), root)
  }

  lemma {:induction false} KeepT(m: Mem, m': Mem, t: Tree, p: Node?)
    requires LinkedT(m, t, p) && Agree(m, m', Nodes(t))
    ensures LinkedT(m', t, p)
  {
    if t.Bin? {
      KeepT(m, m', t.l, t.n);
      KeepT(m, m', t.r, t.n);
    }
  }

  lemma {:induction false} KeepC(m: Mem, m': Mem, c: Ctx, hole: Node?, root: Node?)
    requires LinkedC(m, c, hole, root) && Agree(m, m', NodesC(c))
    ensures LinkedC(m', c, hole, root)
  {
    match c
    case Top =>
    case InL(up, _, n, r) => KeepT(m, m', r, n); KeepC(m, m', up, n, root);
    case InR(up, l, _, n) => KeepT(m, m', l, n); KeepC(m, m', up, n, root);
  }

  /** Moving the focus changes nothing. */
  lemma {:induction false} Refocus(m: Mem, root: Node?, c: Ctx, t: Tree)
    requires !c.Top?
    ensures At(m, root, c, t) <==> At(m, root, c.up, Here(c, t))
  {
  }

  lemma {:induction false} InMemT(m: Mem, t: Tree, p: Node?)
    requires LinkedT(m, t, p)
    ensures Nodes(t) <= m.Keys
  {
    if t.Bin? {
      InMemT(m, t.l, t.n);
      InMemT(m, t.r, t.n);
    }
  }

  lemma {:induction false} InMemC(m: Mem, c: Ctx, hole: Node?, root: Node?)
    requires LinkedC(m, c, hole, root)
    ensures NodesC(c) <= m.Keys
  {
    if !c.Top? {
      InMemT(m, Sibling(c), c.n);
      InMemC(m, c.up, c.n, root);
    }
  }

  /** Reading the same state from the root. */
  lemma {:induction false} ToTop(m: Mem, root: Node?, c: Ctx, t: Tree)
    requires At(m, root, c, t)
    ensures At(m, root, Top, Plug(c, t)) && (t.Bin? ==> Plug(c, t).Bin?)
    decreases c
  {
    if !c.Top? {
      Refocus(m, root, c, t);
      ToTop(m, root, c.up, Here(c, t));
    }
  }

  lemma {:induction false} SiblingPainted(m: Mem, m': Mem, root: Node?, c: Ctx, t: Tree, red: bool)
    requires At(m, root, c, t) && !c.Top? && Sibling(c).Bin?
    requires var x := Sibling(c).n; Only(m, m', {x}) && x in m && x in m' && m'[x] == m[x].(red := red)
    ensures At(m', root, WithSibling(c, Paint(Sibling(c), red)), t)
  {
    var s := Sibling(c);
    var s' := Paint(s, red);
    hide LinkedC;
    assert LinkedT(m, s, c.n) && SepT(s);
    KeepT(m, m', t, c.n);
    KeepT(m, m', s.l, s.n);
    KeepT(m, m', s.r, s.n);
    KeepC(m, m', c.up, c.n, root);
    assert LinkedT(m', s', c.n) && SepT(s') && Nodes(s') == Nodes(s);
  }

  /** Reading the state at the root from a deeper focus. */
  lemma {:induction false} FromTop(m: Mem, root: Node?, c: Ctx, t: Tree)
    requires At(m, root, Top, Plug(c, t))
    ensures At(m, root, c, t)
    decreases c
  {
    if !c.Top? {
      FromTop(m, root, c.up, Here(c, t));
      Refocus(m, root, c, t);
    }
  }

  lemma {:induction false} ToBase(m: Mem, root: Node?, c: Ctx, base: Ctx, t: Tree)
    requires LeftSpine(c, base)
    ensures At(m, root, c, t) <==> At(m, root, base, PlugTo(c, base, t))
    decreases c
  {
    if c != base {
      Refocus(m, root, c, t);
      ToBase(m, root, c.up, base, Here(c, t));
    }
  }

  /** On a left spine only the base's own hole hangs directly below the base. */
  lemma SpineParent(c: Ctx, base: Ctx, t: Tree)
    requires LeftSpine(c, base) && base.InR? && Sep(c, t)
    ensures c != base ==> c.n != base.n
    ensures t.Bin? ==> t.n != base.n
  {
    SpineNodes(c, base, t);
    if c != base {
      SpineNodes(c.up, base, Here(c, t));
    }
  }

  /** The element x at the focus leaves the tree; its only subtree takes its place. */
  lemma {:induction false} BypassedLinks(m: Mem, m': Mem, root: Node?, root': Node?, c: Ctx, t: Tree, child: Tree)
    requires At(m, root, c, t) && t.Bin? && ((t.l.Leaf? && child == t.r) || (t.r.Leaf? && child == t.l))
    requires Only(m, m', RootSet(child) + UpSet(c)) && Adopted(m, m', child, Up(c))
    requires Redirected(m, m', Up(c), t.n, Root(child), root, root')
    ensures At(m', root', c, child)
  {
    assert LinkedT(m, child, t.n) && SepT(child);
    if !c.Top? { Around(m, root, c, t); }
    AdoptedLinks(m, m', child, t.n, Up(c));
    RelinkedLinks(m, m', c, t.n, Root(child), root, root');
  }

  /** x takes over the links of old. */
  lemma {:induction false} ReplacedLinks(m: Mem, m': Mem, root: Node?, root': Node?, c: Ctx, t: Tree, x: Node)
    requires At(m, root, c, t) && t.Bin? && x !in Nodes(t) && x !in NodesC(c) && x in m
    requires Only(m, m', {x} + RootSet(t.l) + RootSet(t.r) + UpSet(c)) && m'[x] == m[t.n]
    requires Adopted(m, m', t.l, x) && Adopted(m, m', t.r, x)
    requires Redirected(m, m', Up(c), t.n, x, root, root')
    ensures At(m', root', c, Bin(t.l, t.red, x, t.r))
  {
    if !c.Top? { Around(m, root, c, t); }
    AdoptedLinks(m, m', t.l, t.n, x);
    AdoptedLinks(m, m', t.r, t.n, x);
    RelinkedLinks(m, m', c, t.n, x, root, root');
  }

  /** What the code reads at and around the parent of the focus. */
  lemma {:induction false} Around(m: Mem, root: Node?, c: Ctx, t: Tree)
    requires At(m, root, c, t) && !c.Top?
    ensures c.n in m && m[c.n].parent == Up(c.up) && m[c.n].red == c.red
    ensures c.InL? ==> m[c.n].left == Root(t) && m[c.n].right == Root(c.r) && (t.Bin? ==> Root(t) != Root(c.r))
    ensures c.InR? ==> m[c.n].right == Root(t) && m[c.n].left == Root(c.l) && (t.Bin? ==> Root(t) != Root(c.l))
    ensures var s := Sibling(c);
            s.Bin? ==> s.n in m && m[s.n] == Entry(Root(s.l), Root(s.r), c.n, s.red)
  {
    assert LinkedT(m, Sibling(c), c.n);
  }

  lemma ReadRoot(m: Mem, t: Tree, p: Node?)
    requires LinkedT(m, t, p)
    ensures t.Bin? ==> t.n in m && m[t.n].parent == p && m[t.n].red == t.red
  {
  }

  lemma {:induction false} Nephews(m: Mem, root: Node?, c: Ctx, t: Tree)
    requires At(m, root, c, t) && !c.Top? && Sibling(c).Bin?
    ensures var s := Sibling(c);
      && (s.l.Bin? ==> s.l.n in m && m[s.l.n].red == s.l.red)
      && (s.r.Bin? ==> s.r.n in m && m[s.r.n].red == s.r.red)
  {
    var s := Sibling(c);
    assert LinkedT(m, s, c.n);
    assert LinkedT(m, s.l, s.n) && LinkedT(m, s.r, s.n);
  }

  /** The same node seen from the sibling's side. */
  ghost function Across(c: Ctx, t: Tree): Ctx
    requires !c.Top?
  {
    match c
    case InL(up, red, n, _) => InR(up, t, red, n)
    case InR(up, _, red, n) => InL(up, red, n, t)
  }

  lemma CrossOver(m: Mem, root: Node?, c: Ctx, t: Tree)
    requires !c.Top?
    ensures At(m, root, c, t) <==> At(m, root, Across(c, t), Sibling(c))
  {
    Refocus(m, root, c, t);
    Refocus(m, root, Across(c, t), Sibling(c));
  }

  /** The root lies above every focus that is not the whole tree. */
  lemma {:induction false} RootAbove(m: Mem, root: Node?, c: Ctx, t: Tree)
    requires At(m, root, c, t)
    ensures c.Top? ==> root == Root(t)
    ensures !c.Top? ==> root in NodesC(c) && root != Root(t)
    decreases c
  {
    if !c.Top? {
      Refocus(m, root, c, t);
      RootAbove(m, root, c.up, Here(c, t));
    }
  }

  // ----- What the pointer writes of the macros do -----

  ghost function RootSet(t: Tree): set<Node> {
    if t.Leaf? then {} else {t.n}
  }

  ghost function UpSet(c: Ctx): set<Node> {
    if c.Top? then {} else {c.n}
  }

  /** In m' the root of t has p for a parent. */
  ghost predicate Adopted(m: Mem, m': Mem, t: Tree, p: Node?) {
    t.Bin? ==> t.n in m && t.n in m' && m'[t.n] == m[t.n].(parent := p)
  }

  /** In m' the place above the hole points at x. */
  ghost predicate Relinked(m: Mem, m': Mem, c: Ctx, x: Node?, root: Node?, root': Node?) {
    match c
    case Top => root' == x
    case InL(_, _, n, _) => root' == root && n in m && n in m' && m'[n] == m[n].(left := x)
    case InR(_, _, _, n) => root' == root && n in m && n in m' && m'[n] == m[n].(right := x)
  }

  lemma AdoptedLinks(m: Mem, m': Mem, t: Tree, q: Node?, p: Node?)
    requires LinkedT(m, t, q) && SepT(t) && Adopted(m, m', t, p)
    requires Agree(m, m', Nodes(t) - RootSet(t))
    ensures LinkedT(m', t, p)
  {
    if t.Bin? {
      KeepT(m, m', t.l, t.n);
      KeepT(m, m', t.r, t.n);
    }
  }

  lemma RelinkedLinks(m: Mem, m': Mem, c: Ctx, hole: Node?, x: Node?, root: Node?, root': Node?)
    requires LinkedC(m, c, hole, root) && SepC(c) && Relinked(m, m', c, x, root, root')
    requires Agree(m, m', NodesC(c) - UpSet(c))
    ensures LinkedC(m', c, x, root')
  {
    if !c.Top? {
      KeepT(m, m', Sibling(c), c.n);
      KeepC(m, m', c.up, c.n, root);
    }
  }

  /** The pointer writes of RB_ROTATE_LEFT rotate the linked tree. */
  lemma {:induction false} RotatedLLinks(m: Mem, m': Mem, root: Node?, root': Node?, c: Ctx, t: Tree)
    requires At(m, root, c, t) && t.Bin? && t.r.Bin?
    requires Only(m, m', {t.n, t.r.n} + RootSet(t.r.l) + UpSet(c))
    requires t.n in m' && m'[t.n] == Entry(Root(t.l), Root(t.r.l), t.r.n, t.red)
    requires t.r.n in m' && m'[t.r.n] == Entry(t.n, Root(t.r.r), Up(c), t.r.red)
    requires Adopted(m, m', t.r.l, t.n) && Relinked(m, m', c, t.r.n, root, root')
    ensures At(m', root', c, RotL(t))
  {
    RotLSep(t);
    assert LinkedT(m, t.r, t.n) && SepT(t.r);
    KeepT(m, m', t.l, t.n);
    KeepT(m, m', t.r.r, t.r.n);
    AdoptedLinks(m, m', t.r.l, t.r.n, t.n);
    RelinkedLinks(m, m', c, t.n, t.r.n, root, root');
    assert LinkedT(m', RotL(t).l, t.r.n);
  }

  lemma {:induction false} RotatedRLinks(m: Mem, m': Mem, root: Node?, root': Node?, c: Ctx, t: Tree)
    requires At(m, root, c, t) && t.Bin? && t.l.Bin?
    requires Only(m, m', {t.n, t.l.n} + RootSet(t.l.r) + UpSet(c))
    requires t.n in m' && m'[t.n] == Entry(Root(t.l.r), Root(t.r), t.l.n, t.red)
    requires t.l.n in m' && m'[t.l.n] == Entry(Root(t.l.l), t.n, Up(c), t.l.red)
    requires Adopted(m, m', t.l.r, t.n) && Relinked(m, m', c, t.l.n, root, root')
    ensures At(m', root', c, RotR(t))
  {
    RotRSep(t);
    assert LinkedT(m, t.l, t.n) && SepT(t.l);
    KeepT(m, m', t.r, t.n);
    KeepT(m, m', t.l.l, t.l.n);
    AdoptedLinks(m, m', t.l.r, t.l.n, t.n);
    RelinkedLinks(m, m', c, t.n, t.l.n, root, root');
    assert LinkedT(m', RotR(t).r, t.l.n);
  }

  ghost function NodeSet(x: Node?): set<Node> {
    if x == null then {} else {x}
  }

  /** The pointer to elm held by its parent, or by the head, now points at x. */
  ghost predicate Redirected(m: Mem, m': Mem, p: Node?, elm: Node, x: Node?, root: Node?, root': Node?)
    requires p != null ==> p in m && p in m'
  {
    if p == null then root' == x
    else root' == root && m'[p] == if m[p].left == elm then m[p].(left := x) else m[p].(right := x)
  }

  class Head {
    var root: Node?
    ghost var dom: set<Node>  // the nodes whose link fields this tree owns

    ghost function Mem(): (m: Mem)
      reads this`dom, dom
    {
      map n | n in dom :: Entry(n.left, n.right, n.parent, n.red)
    }

    ghost predicate Holds(c: Ctx, t: Tree)
      reads this`root, this`dom, dom
    {
      At(Mem(), root, c, t)
    }

    /** RB_ROTATE_LEFT. */
    method TurnLeft(elm: Node) returns (tmp: Node)
      requires elm in dom && elm.right in dom && elm.right != elm
      requires elm.right.left in dom + {null} && elm.right.left !in {elm, elm.right}
      requires elm.parent in dom + {null} && elm.parent !in {elm, elm.right}
      requires elm.parent != null ==> elm.parent != elm.right.left
      modifies this`root, dom
      ensures var m, m' := old(Mem()), Mem();
        && tmp == old(elm.right)
        && Only(m, m', {elm, tmp} + NodeSet(m[tmp].left) + NodeSet(m[elm].parent))
        && m'[elm] == m[elm].(right := m[tmp].left, parent := tmp)
        && m'[tmp] == m[tmp].(left := elm, parent := m[elm].parent)
        && (m[tmp].left != null ==> m'[m[tmp].left] == m[m[tmp].left].(parent := elm))
        && Redirected(m, m', m[elm].parent, elm, tmp, old(root), root)
    {
      tmp := elm.right;
      elm.right := tmp.left;
      if tmp.left != null {
        tmp.left.parent := elm;
      }
      tmp.parent := elm.parent;
      if elm.parent != null {
        if elm == elm.parent.left {
          elm.parent.left := tmp;
        } else {
          elm.parent.right := tmp;
        }
      } else {
        root := tmp;
      }
      tmp.left := elm;
      elm.parent := tmp;
    }

    method RotateLeft(elm: Node, ghost c: Ctx, ghost t: Tree) returns (tmp: Node)
      requires Holds(c, t) && t.Bin? && t.n == elm && t.r.Bin?
      modifies this`root, dom
      ensures tmp == t.r.n && Holds(c, RotL(t))
    {
      ghost var m := Mem();
      assert LinkedT(m, t.r, elm) && SepT(t.r);
      assert LinkedT(m, t.r.l, t.r.n);
      tmp := TurnLeft(elm);
      RotatedLLinks(m, Mem(), old(root), root, c, t);
    }

    /** RB_ROTATE_RIGHT. */
    method TurnRight(elm: Node) returns (tmp: Node)
      requires elm in dom && elm.left in dom && elm.left != elm
      requires elm.left.right in dom + {null} && elm.left.right !in {elm, elm.left}
      requires elm.parent in dom + {null} && elm.parent !in {elm, elm.left}
      requires elm.parent != null ==> elm.parent != elm.left.right
      modifies this`root, dom
      ensures var m, m' := old(Mem()), Mem();
        && tmp == old(elm.left)
        && Only(m, m', {elm, tmp} + NodeSet(m[tmp].right) + NodeSet(m[elm].parent))
        && m'[elm] == m[elm].(left := m[tmp].right, parent := tmp)
        && m'[tmp] == m[tmp].(right := elm, parent := m[elm].parent)
        && (m[tmp].right != null ==> m'[m[tmp].right] == m[m[tmp].right].(parent := elm))
        && Redirected(m, m', m[elm].parent, elm, tmp, old(root), root)
    {
      tmp := elm.left;
      elm.left := tmp.right;
      if tmp.right != null {
        tmp.right.parent := elm;
      }
      tmp.parent := elm.parent;
      if elm.parent != null {
        if elm == elm.parent.left {
          elm.parent.left := tmp;
        } else {
          elm.parent.right := tmp;
        }
      } else {
        root := tmp;
      }
      tmp.right := elm;
      elm.parent := tmp;
    }

    method RotateRight(elm: Node, ghost c: Ctx, ghost t: Tree) returns (tmp: Node)
      requires Holds(c, t) && t.Bin? && t.n == elm && t.l.Bin?
      modifies this`root, dom
      ensures tmp == t.l.n && Holds(c, RotR(t))
    {
      ghost var m := Mem();
      assert LinkedT(m, t.l, elm) && SepT(t.l);
      assert LinkedT(m, t.l.r, t.l.n);
      tmp := TurnRight(elm);
      RotatedRLinks(m, Mem(), old(root), root, c, t);
    }

    method SetColour(x: Node, red: bool, ghost c: Ctx, ghost t: Tree)
      requires Holds(c, t) && t.Bin? && t.n == x
      modifies x`red
      ensures Holds(c, Paint(t, red))
    {
      ghost var m := Mem();
      x.red := red;
      KeepT(m, Mem(), t.l, x);
      KeepT(m, Mem(), t.r, x);
      KeepC(m, Mem(), c, x, root);
    }

    method SetColourUp(x: Node, red: bool, ghost c: Ctx, ghost t: Tree)
      requires Holds(c, t) && !c.Top? && c.n == x
      modifies x`red
      ensures Holds(WithRed(c, red), t)
    {
      ghost var m := Mem();
      x.red := red;
      KeepT(m, Mem(), t, x);
      KeepT(m, Mem(), Sibling(c), x);
      KeepC(m, Mem(), c.up, x, root);
    }

    method SetColourSibling(x: Node, red: bool, ghost c: Ctx, ghost t: Tree)
      requires Holds(c, t) && !c.Top? && Sibling(c).Bin? && Sibling(c).n == x
      modifies x`red
      ensures Holds(WithSibling(c, Paint(Sibling(c), red)), t)
    {
      ghost var m := Mem();
      assert LinkedT(m, Sibling(c), c.n);
      x.red := red;
      SiblingPainted(m, Mem(), root, c, t, red);
    }

    // ----- RB_INSERT_COLOR -----

    /** A red uncle: parent, uncle and grandparent change colour and the question
        moves up to the grandparent. */
    method RecolourRound(tmp: Node, parent: Node, gparent: Node, ghost c: Ctx, ghost t: Tree)
      requires Holds(c, t) && t.Bin? && !c.Top? && c.red && c.n == parent
      requires !c.up.Top? && c.up.n == gparent && IsRed(Sibling(c.up)) && Sibling(c.up).n == tmp
      modifies this`root, dom
      ensures var s := InsertStep(c, t); s.t.Bin? && Holds(s.c, s.t) && s.t.n == gparent
    {
      ghost var p := Here(c, t);
      Refocus(Mem(), root, c, t);
      SetColourSibling(tmp, false, c.up, p);
      ghost var g := WithSibling(c.up, Paint(Sibling(c.up), false));
      SetColour(parent, false, g, p);
      SetColourUp(gparent, true, g, Paint(p, false));
      Refocus(Mem(), root, WithRed(g, true), Paint(p, false));
    }

    /** A black uncle: one or two rotations end the repair. */
    method RotateRoundLeft(elm0: Node, parent0: Node, gparent: Node, ghost c: Ctx, ghost t: Tree)
      returns (elm: Node)
      requires Holds(c, t) && t.Bin? && t.n == elm0 && !c.Top? && c.red && c.n == parent0
      requires c.up.InL? && c.up.n == gparent && !IsRed(Sibling(c.up))
      modifies this`root, dom
      ensures var s := InsertStep(c, t); s.t.Bin? && Holds(s.c, s.t) && s.t.n == elm
    {
      elm := elm0;
      var parent, tmp := parent0, gparent;
      ghost var p := Here(c, t);
      Refocus(Mem(), root, c, t);
      if parent.right == elm {
        tmp := RotateLeft(parent, c.up, p);
        p := RotL(p);
        tmp := parent;
        parent := elm;
        elm := tmp;
      }
      SetColour(parent, false, c.up, p);
      SetColourUp(gparent, true, c.up, Paint(p, false));
      ghost var g := WithRed(c.up, true);
      Refocus(Mem(), root, g, Paint(p, false));
      tmp := RotateRight(gparent, g.up, Here(g, Paint(p, false)));
      Refocus(Mem(), root, InsertStep(c, t).c, InsertStep(c, t).t);
    }

    /** A black uncle: one or two rotations end the repair. */
    method RotateRoundRight(elm0: Node, parent0: Node, gparent: Node, ghost c: Ctx, ghost t: Tree)
      returns (elm: Node)
      requires Holds(c, t) && t.Bin? && t.n == elm0 && !c.Top? && c.red && c.n == parent0
      requires c.up.InR? && c.up.n == gparent && !IsRed(Sibling(c.up))
      modifies this`root, dom
      ensures var s := InsertStep(c, t); s.t.Bin? && Holds(s.c, s.t) && s.t.n == elm
    {
      elm := elm0;
      var parent, tmp := parent0, gparent;
      ghost var p := Here(c, t);
      Refocus(Mem(), root, c, t);
      if parent.left == elm {
        tmp := RotateRight(parent, c.up, p);
        p := RotR(p);
        tmp := parent;
        parent := elm;
        elm := tmp;
      }
      SetColour(parent, false, c.up, p);
      SetColourUp(gparent, true, c.up, Paint(p, false));
      ghost var g := WithRed(c.up, true);
      Refocus(Mem(), root, g, Paint(p, false));
      tmp := RotateLeft(gparent, g.up, Here(g, Paint(p, false)));
      Refocus(Mem(), root, InsertStep(c, t).c, InsertStep(c, t).t);
    }

    method InsertColour(elm0: Node, ghost c0: Ctx, ghost t0: Tree, ghost k0: int) returns (ghost t': Tree)
      requires Holds(c0, t0) && InsertState(c0, t0, k0) && t0.n == elm0
      modifies this`root, dom
      ensures Holds(Top, t') && IsRb(t') && Inorder(t') == Inorder(Plug(c0, t0))
    {
      var elm := elm0;
      ghost var c, t, k := c0, t0, k0;
      while elm.parent != null && elm.parent.red
        invariant Holds(c, t) && InsertState(c, t, k) && t.n == elm
        invariant Inorder(Plug(c, t)) == Inorder(Plug(c0, t0))
        decreases Depth(c)
      {
        var parent := elm.parent;
        ghost var k' := InsertStepKeeps(c, t, k);
        InsertStepInorder(c, t);
        Around(Mem(), root, c, t);
        Refocus(Mem(), root, c, t);
        Around(Mem(), root, c.up, Here(c, t));
        var gparent := parent.parent;
        if parent == gparent.left {
          var tmp := gparent.right;
          if tmp != null && tmp.red {
            RecolourRound(tmp, parent, gparent, c, t);
            elm := gparent;
          } else {
            elm := RotateRoundLeft(elm, parent, gparent, c, t);
          }
        } else {
          var tmp := gparent.left;
          if tmp != null && tmp.red {
            RecolourRound(tmp, parent, gparent, c, t);
            elm := gparent;
          } else {
            elm := RotateRoundRight(elm, parent, gparent, c, t);
          }
        }
        c, t, k := InsertStep(c, t).c, InsertStep(c, t).t, k';
      }
      InsertDone(c, t, k);
      ToTop(Mem(), root, c, t);
      t' := Plug(c, t);
      SetColour(root, false, Top, t');
      t' := Paint(t', false);
    }

    // ----- RB_REMOVE_COLOR -----

    /** Black nephews: the sibling turns red. */
    method ShortenSibling(tmp: Node, ghost c: Ctx, ghost t: Tree)
      requires Holds(c, t) && !c.Top? && Sibling(c).Bin? && Sibling(c).n == tmp
      modifies this`root, dom
      ensures Holds(c.up, ShortParent(c, t))
    {
      SetColourSibling(tmp, true, c, t);
      Refocus(Mem(), root, WithSibling(c, Paint(Sibling(c), true)), t);
    }

    /** The red sibling rotates above the parent. */
    method TurnSiblingLeft(parent: Node, tmp0: Node, ghost c: Ctx, ghost t: Tree) returns (tmp: Node?)
      requires Holds(c, t) && c.InL? && c.n == parent && Sibling(c).Bin? && Sibling(c).n == tmp0
      modifies this`root, dom
      ensures Holds(RotateSibling(c), t) && tmp == Root(Sibling(RotateSibling(c)))
    {
      SetColourSibling(tmp0, false, c, t);
      ghost var c1 := WithSibling(c, Paint(Sibling(c), false));
      SetColourUp(parent, true, c1, t);
      ghost var c2 := WithRed(c1, true);
      Refocus(Mem(), root, c2, t);
      tmp := RotateLeft(parent, c2.up, Here(c2, t));
      ghost var c' := RotateSibling(c);
      Refocus(Mem(), root, c'.up, Here(c', t));
      Refocus(Mem(), root, c', t);
      Around(Mem(), root, c', t);
      assert Mem()[parent] == Entry(parent.left, parent.right, parent.parent, parent.red);
      tmp := parent.right;
    }

    /** The red near nephew rotates above the black sibling. */
    method TurnNephewLeft(parent: Node, tmp0: Node, ghost c: Ctx, ghost t: Tree) returns (tmp: Node?)
      requires Holds(c, t) && c.InL? && c.n == parent && Sibling(c).Bin? && Sibling(c).n == tmp0
      requires IsRed(Near(c))
      modifies this`root, dom
      ensures Holds(RotateNephew(c), t) && tmp == Root(Sibling(RotateNephew(c)))
    {
      ghost var a, s := Across(c, t), Sibling(c);
      CrossOver(Mem(), root, c, t);
      Refocus(Mem(), root, InL(a, s.red, s.n, s.r), s.l);
      Around(Mem(), root, InL(a, s.red, s.n, s.r), s.l);
      var oleft := tmp0.left;
      if oleft != null {
        SetColour(oleft, false, InL(a, s.red, s.n, s.r), s.l);
      }
      SetColourUp(tmp0, true, InL(a, s.red, s.n, s.r), Paint(s.l, false));
      ghost var w := WithRed(InL(a, s.red, s.n, s.r), true);
      Refocus(Mem(), root, w, Paint(s.l, false));
      tmp := RotateRight(tmp0, a, Here(w, Paint(s.l, false)));
      ghost var c' := RotateNephew(c);
      CrossOver(Mem(), root, c', t);
      Around(Mem(), root, c', t);
      assert Mem()[parent] == Entry(parent.left, parent.right, parent.parent, parent.red);
      tmp := parent.right;
    }

    /** The far nephew turns black. */
    method BlackenFarLeft(tmp: Node, ghost c: Ctx, ghost t: Tree)
      requires Holds(c, t) && c.InL? && Sibling(c).Bin? && Sibling(c).n == tmp
      modifies this`root, dom
      ensures var s := Sibling(c); Holds(WithSibling(c, Bin(s.l, s.red, s.n, Paint(s.r, false))), t)
    {
      ghost var a, s := Across(c, t), Sibling(c);
      CrossOver(Mem(), root, c, t);
      Refocus(Mem(), root, InR(a, s.l, s.red, s.n), s.r);
      Around(Mem(), root, InR(a, s.l, s.red, s.n), s.r);
      assert Mem()[tmp] == Entry(tmp.left, tmp.right, tmp.parent, tmp.red);
      if tmp.right != null {
        SetColour(tmp.right, false, InR(a, s.l, s.red, s.n), s.r);
      }
      Refocus(Mem(), root, InR(a, s.l, s.red, s.n), Paint(s.r, false));
      CrossOver(Mem(), root, WithSibling(c, Bin(s.l, s.red, s.n, Paint(s.r, false))), t);
    }

    /** The last rotation of the repair. */
    method SettleLeft(parent: Node, tmp0: Node, ghost c: Ctx, ghost t: Tree)
      requires Holds(c, t) && c.InL? && c.n == parent && Sibling(c).Bin? && Sibling(c).n == tmp0
      modifies this`root, dom
      ensures Holds(c.up, Settled(c, t))
    {
      Around(Mem(), root, c, t);
      assert Mem()[parent] == Entry(parent.left, parent.right, parent.parent, parent.red);
      SetColourSibling(tmp0, parent.red, c, t);
      ghost var c1 := WithSibling(c, Paint(Sibling(c), c.red));
      SetColourUp(parent, false, c1, t);
      ghost var c2 := WithRed(c1, false);
      BlackenFarLeft(tmp0, c2, t);
      ghost var s := Sibling(c2);
      ghost var c3 := WithSibling(c2, Bin(s.l, s.red, s.n, Paint(s.r, false)));
      Refocus(Mem(), root, c3, t);
      var tmp := RotateLeft(parent, c.up, Here(c3, t));
    }

    /** The red sibling rotates above the parent. */
    method TurnSiblingRight(parent: Node, tmp0: Node, ghost c: Ctx, ghost t: Tree) returns (tmp: Node?)
      requires Holds(c, t) && c.InR? && c.n == parent && Sibling(c).Bin? && Sibling(c).n == tmp0
      modifies this`root, dom
      ensures Holds(RotateSibling(c), t) && tmp == Root(Sibling(RotateSibling(c)))
    {
      SetColourSibling(tmp0, false, c, t);
      ghost var c1 := WithSibling(c, Paint(Sibling(c), false));
      SetColourUp(parent, true, c1, t);
      ghost var c2 := WithRed(c1, true);
      Refocus(Mem(), root, c2, t);
      tmp := RotateRight(parent, c2.up, Here(c2, t));
      ghost var c' := RotateSibling(c);
      Refocus(Mem(), root, c'.up, Here(c', t));
      Refocus(Mem(), root, c', t);
      Around(Mem(), root, c', t);
      assert Mem()[parent] == Entry(parent.left, parent.right, parent.parent, parent.red);
      tmp := parent.left;
    }

    /** The red near nephew rotates above the black sibling. */
    method TurnNephewRight(parent: Node, tmp0: Node, ghost c: Ctx, ghost t: Tree) returns (tmp: Node?)
      requires Holds(c, t) && c.InR? && c.n == parent && Sibling(c).Bin? && Sibling(c).n == tmp0
      requires IsRed(Near(c))
      modifies this`root, dom
      ensures Holds(RotateNephew(c), t) && tmp == Root(Sibling(RotateNephew(c)))
    {
      ghost var a, s := Across(c, t), Sibling(c);
      CrossOver(Mem(), root, c, t);
      Refocus(Mem(), root, InR(a, s.l, s.red, s.n), s.r);
      Around(Mem(), root, InR(a, s.l, s.red, s.n), s.r);
      var oright := tmp0.right;
      if oright != null {
        SetColour(oright, false, InR(a, s.l, s.red, s.n), s.r);
      }
      SetColourUp(tmp0, true, InR(a, s.l, s.red, s.n), Paint(s.r, false));
      ghost var w := WithRed(InR(a, s.l, s.red, s.n), true);
      Refocus(Mem(), root, w, Paint(s.r, false));
      tmp := RotateLeft(tmp0, a, Here(w, Paint(s.r, false)));
      ghost var c' := RotateNephew(c);
      CrossOver(Mem(), root, c', t);
      Around(Mem(), root, c', t);
      assert Mem()[parent] == Entry(parent.left, parent.right, parent.parent, parent.red);
      tmp := parent.left;
    }

    /** The far nephew turns black. */
    method BlackenFarRight(tmp: Node, ghost c: Ctx, ghost t: Tree)
      requires Holds(c, t) && c.InR? && Sibling(c).Bin? && Sibling(c).n == tmp
      modifies this`root, dom
      ensures var s := Sibling(c); Holds(WithSibling(c, Bin(Paint(s.l, false), s.red, s.n, s.r)), t)
    {
      ghost var a, s := Across(c, t), Sibling(c);
      CrossOver(Mem(), root, c, t);
      Refocus(Mem(), root, InL(a, s.red, s.n, s.r), s.l);
      Around(Mem(), root, InL(a, s.red, s.n, s.r), s.l);
      assert Mem()[tmp] == Entry(tmp.left, tmp.right, tmp.parent, tmp.red);
      if tmp.left != null {
        SetColour(tmp.left, false, InL(a, s.red, s.n, s.r), s.l);
      }
      Refocus(Mem(), root, InL(a, s.red, s.n, s.r), Paint(s.l, false));
      CrossOver(Mem(), root, WithSibling(c, Bin(Paint(s.l, false), s.red, s.n, s.r)), t);
    }

    /** The last rotation of the repair. */
    method SettleRight(parent: Node, tmp0: Node, ghost c: Ctx, ghost t: Tree)
      requires Holds(c, t) && c.InR? && c.n == parent && Sibling(c).Bin? && Sibling(c).n == tmp0
      modifies this`root, dom
      ensures Holds(c.up, Settled(c, t))
    {
      Around(Mem(), root, c, t);
      assert Mem()[parent] == Entry(parent.left, parent.right, parent.parent, parent.red);
      SetColourSibling(tmp0, parent.red, c, t);
      ghost var c1 := WithSibling(c, Paint(Sibling(c), c.red));
      SetColourUp(parent, false, c1, t);
      ghost var c2 := WithRed(c1, false);
      BlackenFarRight(tmp0, c2, t);
      ghost var s := Sibling(c2);
      ghost var c3 := WithSibling(c2, Bin(Paint(s.l, false), s.red, s.n, s.r));
      Refocus(Mem(), root, c3, t);
      var tmp := RotateRight(parent, c.up, Here(c3, t));
    }


    /** Whether the sibling tmp has no red child, as the condition in the loop tests it. */
    method NoRedNephew(tmp: Node, ghost c: Ctx, ghost t: Tree) returns (b: bool)
      requires Holds(c, t) && !c.Top? && Sibling(c).Bin? && Sibling(c).n == tmp
      ensures b <==> !IsRed(Near(c)) && !IsRed(Far(c))
    {
      Around(Mem(), root, c, t);
      Nephews(Mem(), root, c, t);
      assert Mem()[tmp] == Entry(tmp.left, tmp.right, tmp.parent, tmp.red);
      b := (tmp.left == null || !tmp.left.red) && (tmp.right == null || !tmp.right.red);
    }

    /** A red nephew: at most two rotations end the repair. */
    method FinishLeft(parent: Node, tmp0: Node, ghost c0: Ctx, ghost t: Tree)
      requires Holds(c0, t) && c0.InL? && c0.n == parent && Sibling(c0).Bin? && Sibling(c0).n == tmp0
      requires IsRed(Near(c0)) || IsRed(Far(c0))
      modifies this`root, dom
      ensures Holds(Top, Finished(c0, t)) && root == Root(Finished(c0, t))
    {
      var tmp := tmp0;
      ghost var c := c0;
      Around(Mem(), root, c, t);
      Nephews(Mem(), root, c, t);
      assert Mem()[tmp] == Entry(tmp.left, tmp.right, tmp.parent, tmp.red);
      if tmp.right == null || !tmp.right.red {
        tmp := TurnNephewLeft(parent, tmp, c, t);
        c := RotateNephew(c);
      }
      SettleLeft(parent, tmp, c, t);
      ToTop(Mem(), root, c.up, Settled(c, t));
    }

    /** A red nephew: at most two rotations end the repair. */
    method FinishRight(parent: Node, tmp0: Node, ghost c0: Ctx, ghost t: Tree)
      requires Holds(c0, t) && c0.InR? && c0.n == parent && Sibling(c0).Bin? && Sibling(c0).n == tmp0
      requires IsRed(Near(c0)) || IsRed(Far(c0))
      modifies this`root, dom
      ensures Holds(Top, Finished(c0, t)) && root == Root(Finished(c0, t))
    {
      var tmp := tmp0;
      ghost var c := c0;
      Around(Mem(), root, c, t);
      Nephews(Mem(), root, c, t);
      assert Mem()[tmp] == Entry(tmp.left, tmp.right, tmp.parent, tmp.red);
      if tmp.left == null || !tmp.left.red {
        tmp := TurnNephewRight(parent, tmp, c, t);
        c := RotateNephew(c);
      }
      SettleRight(parent, tmp, c, t);
      ToTop(Mem(), root, c.up, Settled(c, t));
    }

    /** One round of the loop for a short left side; done stands for its break. */
    method RemoveRoundLeft(parent0: Node, ghost c0: Ctx, ghost t0: Tree, ghost k0: int)
      returns (elm: Node?, parent: Node?, done: bool, ghost c: Ctx, ghost t: Tree, ghost k: int)
      requires Holds(c0, t0) && RemoveState(c0, t0, k0) && !IsRed(t0) && c0.InL? && c0.n == parent0
      modifies this`root, dom
      ensures Holds(c, t) && RemoveState(c, t, k) && elm == Root(t)
      ensures Inorder(Plug(c, t)) == Inorder(Plug(c0, t0))
      ensures if done then c.Top? && elm == root else parent == Up(c) && (IsRed(t) || Depth(c) < Depth(c0))
    {
      hide Inorder, IsRb, BH, NoRR, LinkedT, LinkedC, SepT, SepC, Nodes, NodesC, RemoveState;
      c, t, k, parent, done := c0, t0, k0, parent0, false;
      SiblingThere(c, t, k);
      Around(Mem(), root, c, t);
      assert Mem()[parent] == Entry(parent.left, parent.right, parent.parent, parent.red);
      var tmp := parent0.right;
      if tmp.red {
        RotateSiblingKeeps(c, t, k);
        RotateSiblingInorder(c, t);
        tmp := TurnSiblingLeft(parent0, tmp, c, t);
        c := RotateSibling(c);
        SiblingThere(c, t, k);
      }
      var calm := NoRedNephew(tmp, c, t);
      if calm {
        ShortParentKeeps(c, t, k);
        ShortParentInorder(c, t);
        ShortenSibling(tmp, c, t);
        t, k := ShortParent(c, t), if c.red then k else k + 1;
        c := c.up;
        elm := parent;
        ReadRoot(Mem(), t, Up(c));
        assert Mem()[elm] == Entry(elm.left, elm.right, elm.parent, elm.red);
        parent := elm.parent;
      } else {
        k := FinishedKeeps(c, t, k);
        FinishLeft(parent0, tmp, c, t);
        c, t := Top, Finished(c, t);
        elm := root;
        done := true;
      }
    }

    /** One round of the loop for a short right side; done stands for its break. */
    method RemoveRoundRight(parent0: Node, ghost c0: Ctx, ghost t0: Tree, ghost k0: int)
      returns (elm: Node?, parent: Node?, done: bool, ghost c: Ctx, ghost t: Tree, ghost k: int)
      requires Holds(c0, t0) && RemoveState(c0, t0, k0) && !IsRed(t0) && c0.InR? && c0.n == parent0
      modifies this`root, dom
      ensures Holds(c, t) && RemoveState(c, t, k) && elm == Root(t)
      ensures Inorder(Plug(c, t)) == Inorder(Plug(c0, t0))
      ensures if done then c.Top? && elm == root else parent == Up(c) && (IsRed(t) || Depth(c) < Depth(c0))
    {
      hide Inorder, IsRb, BH, NoRR, LinkedT, LinkedC, SepT, SepC, Nodes, NodesC, RemoveState;
      c, t, k, parent, done := c0, t0, k0, parent0, false;
      SiblingThere(c, t, k);
      Around(Mem(), root, c, t);
      assert Mem()[parent] == Entry(parent.left, parent.right, parent.parent, parent.red);
      var tmp := parent0.left;
      if tmp.red {
        RotateSiblingKeeps(c, t, k);
        RotateSiblingInorder(c, t);
        tmp := TurnSiblingRight(parent0, tmp, c, t);
        c := RotateSibling(c);
        SiblingThere(c, t, k);
      }
      var calm := NoRedNephew(tmp, c, t);
      if calm {
        ShortParentKeeps(c, t, k);
        ShortParentInorder(c, t);
        ShortenSibling(tmp, c, t);
        t, k := ShortParent(c, t), if c.red then k else k + 1;
        c := c.up;
        elm := parent;
        ReadRoot(Mem(), t, Up(c));
        assert Mem()[elm] == Entry(elm.left, elm.right, elm.parent, elm.red);
        parent := elm.parent;
      } else {
        k := FinishedKeeps(c, t, k);
        FinishRight(parent0, tmp, c, t);
        c, t := Top, Finished(c, t);
        elm := root;
        done := true;
      }
    }

    method RemoveColour(parent0: Node?, elm0: Node?, ghost c0: Ctx, ghost t0: Tree, ghost k0: int)
      returns (ghost t': Tree)
      requires Holds(c0, t0) && RemoveState(c0, t0, k0) && elm0 == Root(t0) && parent0 == Up(c0)
      modifies this`root, dom
      ensures Holds(Top, t') && IsRb(t') && Inorder(t') == Inorder(Plug(c0, t0))
    {
      hide IsRb, NoRR, SepT, SepC, LinkedC, NodesC;
      var elm, parent := elm0, parent0;
      ghost var c, t, k := c0, t0, k0;
      RootAbove(Mem(), root, c, t);
      ReadRoot(Mem(), t, parent);
      while (elm == null || !elm.red) && elm != root
        invariant Holds(c, t) && RemoveState(c, t, k) && elm == Root(t) && parent == Up(c)
        invariant Inorder(Plug(c, t)) == Inorder(Plug(c0, t0))
        invariant (elm == root <==> c.Top?) && (elm != null ==> elm.red == IsRed(t))
        decreases if IsRed(t) then 0 else Depth(c) + 1
      {
        Around(Mem(), root, c, t);
        SiblingThere(c, t, k);
        assert Mem()[parent] == Entry(parent.left, parent.right, parent.parent, parent.red);
        var done;
        if parent.left == elm {
          elm, parent, done, c, t, k := RemoveRoundLeft(parent, c, t, k);
        } else {
          elm, parent, done, c, t, k := RemoveRoundRight(parent, c, t, k);
        }
        ReadRoot(Mem(), t, Up(c));
        RootAbove(Mem(), root, c, t);
        if done {
          break;
        }
      }
      if elm != null {
        SetColour(elm, false, c, t);
      }
      RemoveDone(c, t, k);
      t' := Plug(c, Paint(t, false));
      ToTop(Mem(), root, c, Paint(t, false));
      SameInorder(c, t, Paint(t, false));
    }

    // ----- The operations -----

    ghost var shape: Tree

    ghost predicate Valid()
      reads this, dom
    {
      Holds(Top, shape) && IsRb(shape) && Ordered(Inorder(shape)) && dom == Nodes(shape)
    }

    /** The elements in order. */
    ghost function Contents(): seq<Node>
      reads this
    {
      Inorder(shape)
    }

    constructor ()
      ensures Valid() && Contents() == []
    {
      root, dom, shape := null, {}, Leaf;
      new;
      assert Balanced(Leaf, 0);
    }

    /** RB_FIND. */
    method Find(key: int) returns (r: Node?)
      requires Valid()
      ensures r != null ==> r in Contents() && r.key == key
      ensures r == null ==> forall x <- Contents() :: x.key != key
    {
      var tmp := root;
      ghost var c, t := Top, shape;
      while tmp != null
        invariant Holds(c, t) && tmp == Root(t) && Plug(c, t) == shape && Between(c, key)
        decreases t
      {
        ReadNode(c, t);
        if key < tmp.key {
          DescendLeft(c, t, key);
          Refocus(Mem(), root, InL(c, t.red, t.n, t.r), t.l);
          c, t := InL(c, t.red, t.n, t.r), t.l;
          tmp := tmp.left;
        } else if key > tmp.key {
          DescendRight(c, t, key);
          Refocus(Mem(), root, InR(c, t.l, t.red, t.n), t.r);
          c, t := InR(c, t.l, t.red, t.n), t.r;
          tmp := tmp.right;
        } else {
          InorderPlug(c, t);
          return tmp;
        }
      }
      InorderPlug(c, t);
      r := null;
    }

    lemma ReadNode(c: Ctx, t: Tree)
      requires Holds(c, t) && t.Bin?
      ensures t.n.left == Root(t.l) && t.n.right == Root(t.r) && t.n.parent == Up(c) && t.n.red == t.red && t.n in dom
    {
      assert Mem()[t.n] == Entry(t.n.left, t.n.right, t.n.parent, t.n.red);
    }

    /** RB_INSERT: null after inserting elm, the present element with its key otherwise. */
    method Insert(elm: Node) returns (r: Node?, ghost i: nat)
      requires Valid() && elm !in dom
      modifies this, dom, elm
      ensures Valid()
      ensures r != null ==> r in old(Contents()) && r.key == elm.key && Contents() == old(Contents())
      ensures r == null ==> i <= |old(Contents())| && Contents() == InsertedAt(old(Contents()), i, elm)
    {
      i := 0;
      var tmp, parent: Node? := root, null;
      var comp := 0;
      ghost var c, t := Top, shape;
      while tmp != null
        invariant Valid() && shape == old(shape)
        invariant Holds(c, t) && tmp == Root(t) && Plug(c, t) == shape && Between(c, elm.key) && parent == Up(c)
        invariant (c.InL? ==> comp < 0) && (c.InR? ==> comp > 0)
        decreases t
      {
        ReadNode(c, t);
        parent := tmp;
        comp := elm.key - parent.key;
        if comp < 0 {
          DescendLeft(c, t, elm.key);
          Refocus(Mem(), root, InL(c, t.red, t.n, t.r), t.l);
          c, t := InL(c, t.red, t.n, t.r), t.l;
          tmp := tmp.left;
        } else if comp > 0 {
          DescendRight(c, t, elm.key);
          Refocus(Mem(), root, InR(c, t.l, t.red, t.n), t.r);
          c, t := InR(c, t.l, t.red, t.n), t.r;
          tmp := tmp.right;
        } else {
          InorderPlug(c, t);
          return tmp, 0;
        }
      }
      InsertAt(elm, parent, comp, c);
      r, i := null, |Pre(c)|;
    }

    method InsertAt(elm: Node, parent: Node?, comp: int, ghost c: Ctx)
      requires Valid() && Holds(c, Leaf) && Plug(c, Leaf) == shape && Between(c, elm.key)
      requires elm !in dom && parent == Up(c) && (c.InL? ==> comp < 0) && (c.InR? ==> comp > 0)
      modifies this, dom, elm
      ensures Valid() && |Pre(c)| <= |old(Contents())|
      ensures Contents() == InsertedAt(old(Contents()), |Pre(c)|, elm)
    {
      ghost var k := UnplugBalanced(c, Leaf);
      Attach(elm, parent, comp, c);
      ghost var t' := InsertColour(elm, c, Bin(Leaf, true, elm, Leaf), k);
      LeafAdded(c, elm, t');
      shape := t';
    }

    /** Hang the new red element below parent. */
    method Attach(elm: Node, parent: Node?, comp: int, ghost c: Ctx)
      requires Holds(c, Leaf) && elm !in dom && parent == Up(c)
      requires (c.InL? ==> comp < 0) && (c.InR? ==> comp > 0)
      modifies this, dom, elm
      ensures dom == old(dom) + {elm} && Holds(c, Bin(Leaf, true, elm, Leaf)) && shape == old(shape)
    {
      ghost var m := Mem();
      InMemC(m, c, null, root);
      elm.parent := parent;
      elm.left, elm.right := null, null;
      elm.red := true;
      dom := dom + {elm};
      if parent != null {
        if comp < 0 {
          parent.left := elm;
        } else {
          parent.right := elm;
        }
      } else {
        root := elm;
      }
      RelinkedLinks(m, Mem(), c, null, elm, old(root), root);
    }

    /** elm leaves the links; child takes its place. */
    method Bypass(elm: Node, child: Node?, parent: Node?)
      requires elm in dom && child in dom + {null} && parent in dom + {null} && parent == elm.parent
      requires child == null || child != parent
      modifies this`root, dom
      ensures var m, m' := old(Mem()), Mem();
        && Only(m, m', NodeSet(child) + NodeSet(parent))
        && (child != null ==> m'[child] == m[child].(parent := parent))
        && Redirected(m, m', parent, elm, child, old(root), root)
    {
      if child != null {
        child.parent := parent;
      }
      if parent != null {
        if parent.left == elm {
          parent.left := child;
        } else {
          parent.right := child;
        }
      } else {
        root := child;
      }
    }

    /** elm takes over old's links; the neighbours of old point at elm. */
    method TakePlace(elm: Node, was: Node)
      requires {elm, was} <= dom && elm != was && was.left in dom
      requires was.right in dom + {null} && was.parent in dom + {null}
      requires elm !in {was.left, was.right, was.parent} && was !in {was.left, was.right, was.parent}
      requires was.left != was.right && (was.parent == null || was.parent !in {was.left, was.right})
      modifies this`root, dom
      ensures var m, m' := old(Mem()), Mem();
        && Only(m, m', {elm} + NodeSet(m[was].left) + NodeSet(m[was].right) + NodeSet(m[was].parent))
        && m'[elm] == m[was]
        && m'[m[was].left] == m[m[was].left].(parent := elm)
        && (m[was].right != null ==> m'[m[was].right] == m[m[was].right].(parent := elm))
        && Redirected(m, m', m[was].parent, was, elm, old(root), root)
    {
      elm.left, elm.right, elm.parent, elm.red := was.left, was.right, was.parent, was.red;
      if was.parent != null {
        if was.parent.left == was {
          was.parent.left := elm;
        } else {
          was.parent.right := elm;
        }
      } else {
        root := elm;
      }
      was.left.parent := elm;
      if was.right != null {
        was.right.parent := elm;
      }
    }

    /** Unlink the element at the focus, which has at most one child. */
    method Unlink(elm: Node, child: Node?, parent: Node?, ghost c: Ctx, ghost t: Tree, ghost sub: Tree)
      requires Holds(c, t) && t.Bin? && t.n == elm && child == Root(sub) && parent == Up(c)
      requires (t.l.Leaf? && sub == t.r) || (t.r.Leaf? && sub == t.l)
      modifies this`root, dom
      ensures Holds(c, sub) && elm.parent == old(elm.parent)
    {
      ghost var m := Mem();
      ReadNode(c, t);
      assert LinkedT(m, sub, elm) && SepT(sub);
      InMemC(m, c, elm, root);
      Bypass(elm, child, parent);
      BypassedLinks(m, Mem(), old(root), root, c, t, sub);
    }

    /** Put x in the place of the element at the focus. */
    method Replace(x: Node, was: Node, ghost c: Ctx, ghost t: Tree)
      requires Holds(c, t) && t.Bin? && t.n == was && t.l.Bin? && x in dom && x !in Nodes(t) && x !in NodesC(c)
      modifies this`root, dom
      ensures Holds(c, Bin(t.l, t.red, x, t.r))
    {
      ghost var m := Mem();
      ReadNode(c, t);
      assert LinkedT(m, t.l, was) && LinkedT(m, t.r, was) && SepT(t.l) && SepT(t.r);
      InMemC(m, c, was, root);
      TakePlace(x, was);
      ReplacedLinks(m, Mem(), old(root), root, c, t, x);
    }

    /** The code after label color: repair if a black element went. */
    method Repair(black: bool, parent: Node?, child: Node?, ghost c: Ctx, ghost sub: Tree, ghost k: int)
      returns (ghost t': Tree)
      requires Holds(c, sub) && child == Root(sub) && parent == Up(c)
      requires if black then RemoveState(c, sub, k - 1) else Fits(c, sub, k) && !c.Top?
      modifies this`root, dom
      ensures Holds(Top, t') && IsRb(t') && Inorder(t') == Inorder(Plug(c, sub))
    {
      if black {
        t' := RemoveColour(parent, child, c, sub, k - 1);
      } else {
        PlugBalanced(c, sub, k);
        ToTop(Mem(), root, c, sub);
        t' := Plug(c, sub);
      }
    }

    /** RB_REMOVE for an element with at most one child. */
    method RemoveSimple(elm: Node, child: Node?, ghost c: Ctx, ghost t: Tree, ghost sub: Tree)
      returns (ghost t': Tree)
      requires Holds(c, t) && IsRb(Plug(c, t)) && t.Bin? && t.n == elm && child == Root(sub)
      requires (t.l.Leaf? && sub == t.r) || (t.r.Leaf? && sub == t.l)
      modifies this`root, dom
      ensures Holds(Top, t') && IsRb(t') && Inorder(t') == Inorder(Plug(c, sub))
    {
      ghost var k := UnplugBalanced(c, t);
      BypassBalance(c, t, sub, k);
      ReadNode(c, t);
      var parent, red := elm.parent, elm.red;
      Unlink(elm, child, parent, c, t, sub);
      t' := Repair(!red, parent, child, c, sub, k);
    }

    /** The loop that walks to the leftmost element on the right of was. */
    method Successor(was: Node, ghost base: Ctx, ghost t: Tree) returns (elm: Node, ghost c: Ctx, ghost s: Tree)
      requires Holds(base, t) && base.InR? && base.n == was && was.right == Root(t) && t.Bin?
      ensures Holds(c, s) && s.Bin? && s.n == elm && s.l.Leaf? && LeftSpine(c, base) && Plug(c, s) == Plug(base, t)
    {
      elm := was.right;
      c, s := base, t;
      ReadNode(c, s);
      var left := elm.left;
      while left != null
        invariant Holds(c, s) && s.Bin? && s.n == elm && left == Root(s.l)
        invariant LeftSpine(c, base) && Plug(c, s) == Plug(base, t)
        decreases s
      {
        elm := left;
        Refocus(Mem(), root, InL(c, s.red, s.n, s.r), s.l);
        c, s := InL(c, s.red, s.n, s.r), s.l;
        ReadNode(c, s);
        left := elm.left;
      }
    }

    /** Move the successor, already unlinked, into the place of was. */
    method MoveUp(elm: Node, was: Node, ghost base: Ctx, ghost l: Tree, ghost c: Ctx, ghost sub: Tree)
      requires base.InR? && base.n == was && base.l == l && l.Bin? && LeftSpine(c, base)
      requires Holds(c, sub) && elm in dom && elm !in NodesC(c) && elm !in Nodes(sub)
      modifies this`root, dom
      ensures Holds(Rebase(c, base, InR(base.up, l, base.red, elm)), sub)
    {
      ghost var base' := InR(base.up, l, base.red, elm);
      ghost var r := PlugTo(c, base, sub);
      SpineNodes(c, base, sub);
      ToBase(Mem(), root, c, base, sub);
      Refocus(Mem(), root, base, r);
      Replace(elm, was, base.up, Bin(l, base.red, was, r));
      Refocus(Mem(), root, base', r);
      RebaseKeeps(c, base, elm, sub, 0);
      ToBase(Mem(), root, Rebase(c, base, base'), base', sub);
    }

    /** The second half of RB_REMOVE for an element with two children: elm, already
        unlinked, takes the place of was, and a lost black element is made up for. */
    method Promote(elm: Node, was: Node, child: Node?, parent0: Node?, red: bool,
                   ghost base: Ctx, ghost c: Ctx, ghost sub: Tree, ghost k: int)
      returns (ghost t': Tree)
      requires base.InR? && base.n == was && base.l.Bin? && LeftSpine(c, base) && child == Root(sub)
      requires Holds(c, sub) && elm in dom && elm !in NodesC(c) && elm !in Nodes(sub)
      requires parent0 == Up(c) == elm.parent && (c != base ==> c.n != was)
      requires if red then Fits(c, sub, k) && !c.Top? else RemoveState(c, sub, k - 1)
      modifies this`root, dom
      ensures Holds(Top, t') && IsRb(t')
      ensures Inorder(t') == Inorder(Plug(Rebase(c, base, InR(base.up, base.l, base.red, elm)), sub))
    {
      var parent := parent0;
      if elm.parent == was {
        parent := elm;
      }
      MoveUp(elm, was, base, base.l, c, sub);
      ghost var c' := Rebase(c, base, InR(base.up, base.l, base.red, elm));
      RebaseKeeps(c, base, elm, sub, k);
      t' := Repair(!red, parent, child, c', sub, k);
    }

    /** RB_REMOVE for an element with two children. */
    method RemoveInner(was: Node, ghost base: Ctx, ghost r: Tree)
      returns (ghost t': Tree, ghost a: seq<Node>, ghost b: seq<Node>)
      requires Holds(base, r) && IsRb(Plug(base, r)) && base.InR? && base.n == was && base.l.Bin? && r.Bin?
      modifies this`root, dom
      ensures Holds(Top, t') && IsRb(t') && Inorder(Plug(base, r)) == a + [was] + b && Inorder(t') == a + b
    {
      hide IsRb, BH, NoRR;
      ReadNode(base.up, Here(base, r));
      Refocus(Mem(), root, base, r);
      var elm: Node;
      ghost var c, t;
      elm, c, t := Successor(was, base, r);
      ReadNode(c, t);
      ghost var k := UnplugBalanced(c, t);
      BypassBalance(c, t, t.r, k);
      SuccessorContents(base, c, t, t.r);
      SpineParent(c, base, t);
      a, b := Pre(base.up) + Inorder(base.l), [elm] + Inorder(t.r) + Post(c);
      var child, parent, red := elm.right, elm.parent, elm.red;
      Unlink(elm, child, parent, c, t, t.r);
      t' := Promote(elm, was, child, parent, red, base, c, t.r, k);
    }

    /** RB_REMOVE. */
    method Remove(elm: Node) returns (r: Node, ghost i: nat)
      requires Valid() && elm in dom
      modifies this, dom
      ensures Valid() && r == elm && dom == old(dom) - {elm}
      ensures i < |old(Contents())| && old(Contents())[i] == elm
      ensures Contents() == RemovedAt(old(Contents()), i)
    {
      ghost var c, t := FocusOn(Top, shape, elm);
      FromTop(Mem(), root, c, t);
      ReadNode(c, t);
      ghost var t', a, b;
      if elm.left == null {
        BypassContents(c, t, t.r);
        t' := RemoveSimple(elm, elm.right, c, t, t.r);
        a, b := Pre(c) + Inorder(t.l), Inorder(t.r) + Post(c);
      } else if elm.right == null {
        BypassContents(c, t, t.l);
        t' := RemoveSimple(elm, elm.left, c, t, t.l);
        a, b := Pre(c) + Inorder(t.l), Inorder(t.r) + Post(c);
      } else {
        Refocus(Mem(), root, InR(c, t.l, t.red, elm), t.r);
        t', a, b := RemoveInner(elm, InR(c, t.l, t.red, elm), t.r);
      }
      i, r := |a|, elm;
      Disown(elm, t', a, b);
    }

    /** The link fields of a removed element no longer belong to the tree. */
    ghost method Disown(elm: Node, t': Tree, a: seq<Node>, b: seq<Node>)
      requires Holds(Top, t') && IsRb(t') && Ordered(Inorder(shape)) && dom == Nodes(shape)
      requires Inorder(shape) == a + [elm] + b && Inorder(t') == a + b
      modifies this`dom, this`shape
      ensures Valid() && dom == old(dom) - {elm}
      ensures |a| < |old(Contents())| && old(Contents())[|a|] == elm
      ensures Contents() == RemovedAt(old(Contents()), |a|)
    {
      NodeRemovedAt(shape, t', a, elm, b);
      ghost var m := Mem();
      dom := dom - {elm};
      shape := t';
      KeepT(m, Mem(), shape, null);
    }

    /** RB_NEXT: the element after the i-th one. */
    method Next(elm0: Node, ghost i: nat) returns (r: Node?)
      requires Valid() && i < |Contents()| && Contents()[i] == elm0
      ensures r == if i + 1 < |Contents()| then Contents()[i + 1] else null
    {
      NodesAreInorder(shape);
      assert elm0 in Elems(Contents());
      ghost var c, t := FocusOn(Top, shape, elm0);
      FromTop(Mem(), root, c, t);
      ReadNode(c, t);
      PlaceOf(c, t, i);
      var elm: Node? := elm0;
      if elm.right != null {
        ghost var base := InR(c, t.l, t.red, elm0);
        Refocus(Mem(), root, base, t.r);
        ghost var s;
        elm, c, s := Successor(elm0, base, t.r);
        RebaseKeeps(c, base, elm0, s, 0);
        InorderPlug(c, s);
      } else {
        while elm.parent != null && elm == elm.parent.right
          invariant elm != null && Holds(c, t) && t.Bin? && t.n == elm && Plug(c, t) == shape
          invariant Contents()[i + 1..] == Post(c)
          decreases Depth(c)
        {
          ReadNode(c, t);
          Around(Mem(), root, c, t);
          Refocus(Mem(), root, c, t);
          ReadNode(c.up, Here(c, t));
          elm := elm.parent;
          c, t := c.up, Here(c, t);
        }
        ReadNode(c, t);
        if !c.Top? {
          Around(Mem(), root, c, t);
          Refocus(Mem(), root, c, t);
          ReadNode(c.up, Here(c, t));
        }
        elm := elm.parent;
      }
      r := elm;
    }

    /** The one index at which the element at the focus stands. */
    lemma PlaceOf(c: Ctx, t: Tree, i: nat)
      requires Valid() && Plug(c, t) == shape && t.Bin? && i < |Contents()| && Contents()[i] == t.n
      ensures i == |Pre(c)| + |Inorder(t.l)| && Contents()[i + 1..] == Inorder(t.r) + Post(c)
    {
      hide Pre, Post, Inorder, Ordered, Holds, IsRb, Nodes, Plug;
      InorderPlug(c, t);
      InorderBin(t);
      RegroupEnds(Pre(c), Inorder(t.l), [t.n], Inorder(t.r), Post(c));
      var a, b := Pre(c) + Inorder(t.l), Inorder(t.r) + Post(c);
      assert [t.n] + Inorder(t.r) + Post(c) == [t.n] + b;
      OnePlace(a, t.n, b, i);
    }

    /** The bound that the header documents. */
    lemma HeightIsLogarithmic()
      requires Valid()
      ensures var n := |Contents()|; Pow2(Height(shape)) <= (n + 1) * (n + 1)
    {
      HeightBound(shape);
    }
  }
}
