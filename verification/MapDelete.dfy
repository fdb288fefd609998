/** Facts about delete_priv (clib/map.cc), free of the heap: splicing a node out, and one turn of the upward walk. */
module MapDelete {
  import opened Trees
  import opened MapNodes
  import opened MapRotations
  import opened MapRepair
  import opened MapInsert

  // ---------------------------------------------------------------- the upward walk

  /** The subtree `t` has just lost one level; the balance factors above it do not know yet. */
  ghost predicate Shrinking(m: Store, c: Ctx<Node>, t: Tree<Node>) {
    && Separate(c, t)
    && Shape(m, t, UpNode(c, null)) && CtxShape(m, c, Root(t), Height(t) + 1, null)
    && Balanced(t) && CtxBalanced(c, Height(t) + 1)
  }

  /** The side flags of delete_priv, or else the child pointer `n0`, tell on which side of its parent the hole is. */
  ghost predicate SideKnown(c: Ctx<Node>, t: Tree<Node>, n0: Node?, isLeft: bool, isRight: bool) {
    !c.Top? ==>
      && (isLeft ==> c.isLeft) && (isRight ==> !c.isLeft)
      && (isLeft || isRight || (t.Br? && n0 == t.n))
  }

  lemma ShrinkCases(m: Store, c: Ctx<Node>, t: Tree<Node>)
    requires Shrinking(m, c, t) && !c.Top?
    ensures c.n in m && m[c.n].bf == (if c.isLeft then Height(c.sib) - Height(t) - 1 else Height(t) + 1 - Height(c.sib))
    ensures Height(t) <= Height(c.sib) <= Height(t) + 2
    ensures (if c.isLeft then m[c.n].left else m[c.n].right) == Root(t)
    ensures t.Br? ==> (m[c.n].left == t.n <==> c.isLeft)
    ensures m[c.n].parent == UpNode(c.up, null)
  {
  }

  /** The loss evens out a lean to the shrunk side: the node above has lost a level, too. */
  lemma ShrinkClimbs(m: Store, m': Store, c: Ctx<Node>, t: Tree<Node>)
    requires Shrinking(m, c, t) && !c.Top? && Height(c.sib) == Height(t)
    requires Rebalanced(m, m', c.n, 0)
    ensures Shrinking(m', c.up, Fill(c, t))
  {
    FillShape(m, m', c, t, Height(t) + 1, 0);
  }

  /** An even node starts to lean to the other side: the walk stops. */
  lemma ShrinkAbsorbed(m: Store, m': Store, c: Ctx<Node>, t: Tree<Node>, bf: Balance)
    requires Shrinking(m, c, t) && !c.Top? && Height(c.sib) == Height(t) + 1
    requires bf == (if c.isLeft then 1 else -1) && Rebalanced(m, m', c.n, bf)
    ensures Settled(m', c.up, Fill(c, t))
  {
    FillShape(m, m', c, t, Height(t) + 1, bf);
  }

  /** The node above leant to the other side already: the sibling is two levels too deep. */
  lemma ShrinkHeavy(m: Store, c: Ctx<Node>, t: Tree<Node>)
    requires Shrinking(m, c, t) && !c.Top? && Height(c.sib) == Height(t) + 2
    ensures c.sib.Br? && c.sib.n in m
    ensures if c.isLeft then RightHeavy(m, t, c.n, c.sib) && m[c.n].right == c.sib.n
            else LeftHeavy(m, c.sib, c.n, t) && m[c.n].left == c.sib.n
    ensures Separate(c.up, Fill(c, t)) && CtxShape(m, c.up, c.n, Height(c.sib) + 1, null)
    ensures CtxBalanced(c.up, Height(c.sib) + 1)
  {
    assert Nodes(Fill(c, t)) == Nodes(t) + {c.n} + Nodes(c.sib);
  }

  /** The rotation that delete_priv chooses at `a` on the side of the sibling; `even` if the sibling's root was even. */
  method LiftSibling(a: Node, onLeft: bool, ghost ns: set<Node>, ghost c: Ctx<Node>, ghost t: Tree<Node>)
    returns (even: bool, top: Node, ghost t': Tree<Node>)
    requires Shrinking(Snapshot(ns), c, t) && !c.Top? && a == c.n && onLeft == c.isLeft
             && Height(c.sib) == Height(t) + 2
    modifies ns
    ensures Repaired(old(Snapshot(ns)), Snapshot(ns), Fill(c, t), t') && top == t'.n
    ensures Height(t') == Height(c.sib) + if even then 1 else 0
  {
    ShrinkHeavy(Snapshot(ns), c, t);
    if onLeft {
      var b := a.right;
      even := b.bf == 0;
      top, t' := LiftRight(a, b, ns, t, c.sib);
    } else {
      var b := a.left;
      even := b.bf == 0;
      top, t' := LiftLeft(a, b, ns, c.sib, t);
    }
  }

  /** After the rotation and the re-hanging below a context that still counts the old height. */
  lemma ShrinkHangs(m: Store, m1: Store, m': Store, c: Ctx<Node>, t: Tree<Node>, t': Tree<Node>)
    requires Shrinking(m, c, t) && !c.Top? && Height(c.sib) == Height(t) + 2
    requires Repaired(m, m1, Fill(c, t), t') && (!c.up.Top? ==> c.up.n in m1)
    requires Attached(m1, m', c.n, t'.n, UpNode(c.up, null))
    ensures Separate(c.up, t') && Shape(m', t', UpNode(c.up, null)) && Balanced(t')
    ensures CtxShape(m', c.up, t'.n, Height(c.sib) + 1, null) && CtxBalanced(c.up, Height(c.sib) + 1)
  {
    ShrinkHeavy(m, c, t);
    RepairHangs(m, m1, m', c.up, Fill(c, t), c.n, t', Height(c.sib) + 1);
  }

  /** Either the subtree has its old height again and everything is in order, or it has lost a level. */
  lemma ShrinkRotated(m: Store, c: Ctx<Node>, t: Tree<Node>, h: nat, done: bool)
    requires t.Br? && Separate(c, t) && Shape(m, t, UpNode(c, null)) && Balanced(t)
    requires CtxShape(m, c, t.n, h, null) && CtxBalanced(c, h) && h == if done then Height(t) else Height(t) + 1
    ensures if done then Settled(m, c, t) else Shrinking(m, c, t)
  {
  }

  lemma ShrinkFinished(m: Store, m1: Store, m': Store, c: Ctx<Node>, t: Tree<Node>, t': Tree<Node>, done: bool)
    requires Shrinking(m, c, t) && !c.Top? && Height(c.sib) == Height(t) + 2
    requires Repaired(m, m1, Fill(c, t), t') && (!c.up.Top? ==> c.up.n in m1)
    requires Attached(m1, m', c.n, t'.n, UpNode(c.up, null))
    requires Height(t') == Height(c.sib) + if done then 1 else 0
    ensures if done then Settled(m', c.up, t') else Shrinking(m', c.up, t')
  {
    ShrinkHangs(m, m1, m', c, t, t');
    ShrinkRotated(m', c.up, t', Height(c.sib) + 1, done);
  }

  // ---------------------------------------------------------------- splicing out a node with at most one child

  /** The pointer word of the hole of `c` leads to `t`, whose root has its parent there. */
  ghost predicate Spliced(m: Store, m': Store, c: Ctx<Node>, t: Tree<Node>)
    requires (t.Br? ==> t.n in m) && (!c.Top? ==> c.n in m)
  {
    && SameBut(m, m', RootSet(t) + NodeSet(UpNode(c, null)))
    && (t.Br? ==> m'[t.n] == m[t.n].(parent := UpNode(c, null)))
    && (!c.Top? ==> m'[c.n] == if c.isLeft then m[c.n].(left := Root(t)) else m[c.n].(right := Root(t)))
  }

  lemma HoleRefilled(m: Store, m': Store, ns: set<Node>, c: Ctx<Node>, hole: Node?, hole': Node?, h: nat)
    requires CtxShape(m, c, hole, h, null) && CtxDistinct(c) && SameBut(m, m', ns)
    requires forall x | x in ns && x in CtxNodes(c) :: x == c.n
    requires !c.Top? ==> m'[c.n] == if c.isLeft then m[c.n].(left := hole') else m[c.n].(right := hole')
    ensures CtxShape(m', c, hole', h, null)
  {
    if !c.Top? {
      assert Nodes(c.sib) <= CtxNodes(c) && CtxNodes(c.up) <= CtxNodes(c);
      ShapeFrame(m, m', ns, c.sib, c.n);
      CtxFrame(m, m', ns, c.up, c.n, Above(c, h), null);
    }
  }

  /** A well-formed tree seen from a node `n` whose only child, if any, is `t`. */
  ghost predicate OnlyChild(m: Store, c: Ctx<Node>, n: Node, t: Tree<Node>) {
    && Separate(c, t) && Shape(m, t, n) && CtxShape(m, c, n, Height(t) + 1, null)
    && Balanced(t) && CtxBalanced(c, Height(t) + 1)
    && n in m && (t.Br? ==> t.n in m) && (!c.Top? ==> c.n in m)
  }

  lemma SettledOnlyChild(m: Store, c: Ctx<Node>, n: Node, t: Tree<Node>, both: Tree<Node>)
    requires both == Br(t, n, Nil) || both == Br(Nil, n, t)
    requires Settled(m, c, both)
    ensures OnlyChild(m, c, n, t) && n !in Nodes(t) && n !in CtxNodes(c)
  {
    assert Height(both) == Height(t) + 1;
    assert Nodes(both) == Nodes(t) + {n};
    assert Shape(m, t, n);
  }

  lemma SeenFromOnlyChild(m: Store, c: Ctx<Node>, l: Tree<Node>, n: Node, r: Tree<Node>, t: Tree<Node>)
    requires WellFormed(m, Zip(c, Br(l, n, r))) && (l.Nil? || r.Nil?) && t == (if l.Nil? then r else l)
    ensures OnlyChild(m, c, n, t) && n !in Nodes(t) && n !in CtxNodes(c)
    ensures m[n].left == Root(l) && m[n].right == Root(r) && m[n].parent == UpNode(c, null)
  {
    SettledIsWellFormed(m, c, Br(l, n, r));
    SettledOnlyChild(m, c, n, t, Br(l, n, r));
    assert Shape(m, Br(l, n, r), UpNode(c, null));
  }

  lemma OnlyChildOrder(c: Ctx<Node>, l: Tree<Node>, n: Node, r: Tree<Node>, t: Tree<Node>)
    requires (l.Nil? || r.Nil?) && t == (if l.Nil? then r else l) && Distinct(Zip(c, Br(l, n, r)))
    ensures Nodes(Zip(c, t)) == Nodes(Zip(c, Br(l, n, r))) - {n}
    ensures Inorder(Zip(c, t)) == Before(c) + (Inorder(l) + Inorder(r)) + After(c)
  {
    ZipNodes(c, t);
    ZipNodes(c, Br(l, n, r));
    ZipDistinct(c, Br(l, n, r));
    ZipInorder(c, t);
    assert Inorder(t) == Inorder(l) + Inorder(r);
    assert Nodes(Br(l, n, r)) == Nodes(t) + {n};
  }

  lemma SplicedShrinks(m: Store, m': Store, c: Ctx<Node>, n: Node, t: Tree<Node>)
    requires OnlyChild(m, c, n, t) && Spliced(m, m', c, t)
    ensures Shrinking(m', c, t)
  {
    var touched := RootSet(t) + NodeSet(UpNode(c, null));
    ShapeReparent(m, m', touched, t, n, UpNode(c, null));
    HoleRefilled(m, m', touched, c, n, Root(t), Height(t) + 1);
  }

  // ---------------------------------------------------------------- splicing out a node with two children

  /*
    The doomed node `n` has the subtree `near` on the side where its replacement `mom` is sought (left iff `s`) and
    `far` on the other. `mom` ends the spine `p` of `near` that runs towards `n` in order, and keeps one subtree `sub`.
  */

  function Side<T>(s: bool, n: T, near: Tree<T>, far: Tree<T>): Tree<T> {
    if s then Br(near, n, far) else Br(far, n, near)
  }

  /** All holes of `p` are right children if `s`, else left children. */
  predicate Spine<T>(p: Ctx<T>, s: bool) {
    !p.Top? ==> p.isLeft == !s && Spine(p.up, s)
  }

  lemma {:induction false} SpineOrder<T>(p: Ctx<T>, s: bool)
    requires Spine(p, s)
    ensures if s then After(p) == [] else Before(p) == []
  {
    if !p.Top? {
      SpineOrder(p.up, s);
    }
  }

  /** The old tree around `sub`, and the new one: `mom` has taken the place of `n`. */
  function OldCtx<T>(c: Ctx<T>, s: bool, n: T, far: Tree<T>, p: Ctx<T>): Ctx<T> {
    Compose(p, In(s, n, far, c))
  }

  lemma RegroupLeft<T>(b: seq<T>, x: seq<T>, n: T, f: seq<T>, a: seq<T>)
    ensures b + x + (([n] + f) + a) == b + ((x + [n]) + f) + a
  {
  }

  lemma RegroupRight<T>(b: seq<T>, f: seq<T>, n: T, x: seq<T>, a: seq<T>)
    ensures (b + (f + [n])) + x + a == b + (f + ([n] + x)) + a
  {
  }

  lemma SpineInorder(p: Ctx<Node>, s: bool, mom: Node, sub: Tree<Node>)
    requires Spine(p, s)
    ensures Inorder(Zip(p, Side(s, mom, sub, Nil)))
         == if s then Inorder(Zip(p, sub)) + [mom] else [mom] + Inorder(Zip(p, sub))
  {
    SpineOrder(p, s);
    ZipInorder(p, sub);
    ZipInorder(p, Side(s, mom, sub, Nil));
  }

  /** In order, only `n` has disappeared. */
  lemma SubstituteOrder(c: Ctx<Node>, s: bool, far: Tree<Node>, p: Ctx<Node>, mom: Node, sub: Tree<Node>)
    requires Spine(p, s)
    ensures var near := Zip(p, Side(s, mom, sub, Nil));
            Inorder(Zip(OldCtx(c, s, mom, far, p), sub))
              == Before(c) + (if s then Inorder(near) + Inorder(far) else Inorder(far) + Inorder(near)) + After(c)
  {
    SpineInorder(p, s, mom, sub);
    ComposeZip(p, In(s, mom, far, c), sub);
    ZipInorder(In(s, mom, far, c), Zip(p, sub));
    RegroupLeft(Before(c), Inorder(Zip(p, sub)), mom, Inorder(far), After(c));
    RegroupRight(Before(c), Inorder(far), mom, Inorder(Zip(p, sub)), After(c));
  }

  /** The nodes of the two-children case are pairwise different. */
  ghost predicate AllSeparate(c: Ctx<Node>, n: Node, far: Tree<Node>, p: Ctx<Node>, mom: Node, sub: Tree<Node>) {
    && CtxDistinct(c) && CtxDistinct(p) && Distinct(far) && Distinct(sub)
    && n != mom && {n, mom} !! Nodes(far) && {n, mom} !! CtxNodes(p) && {n, mom} !! Nodes(sub)
    && {n, mom} !! CtxNodes(c)
    && Nodes(far) !! CtxNodes(p) && Nodes(far) !! Nodes(sub) && Nodes(far) !! CtxNodes(c)
    && CtxNodes(p) !! Nodes(sub) && CtxNodes(p) !! CtxNodes(c) && Nodes(sub) !! CtxNodes(c)
  }

  ghost function NearHeight(p: Ctx<Node>, sub: Tree<Node>): nat {
    UpHeight(p, Height(sub) + 1)
  }

  ghost predicate TwoBalanced(up: Ctx<Node>, p: Ctx<Node>, sub: Tree<Node>) {
    Balanced(sub) && CtxBalanced(p, Height(sub) + 1) && CtxBalanced(up, NearHeight(p, sub))
  }

  /** A well-formed tree seen from a node `n` with two children. */
  ghost predicate TwoChildren(m: Store, c: Ctx<Node>, s: bool, n: Node, far: Tree<Node>, p: Ctx<Node>, mom: Node,
                              sub: Tree<Node>) {
    && AllSeparate(c, n, far, p, mom, sub) && TwoBalanced(In(s, n, far, c), p, sub)
    && far.Br? && n in m && mom in m && far.n in m && (sub.Br? ==> sub.n in m)
    && (!c.Top? ==> c.n in m) && (!p.Top? ==> p.n in m && Topmost(p) in m)
    && CtxShape(m, In(s, n, far, c), TopNode(p, mom), NearHeight(p, sub), null)
    && Shape(m, sub, mom) && CtxShape(m, p, mom, Height(sub) + 1, n)
    && (if s then m[mom].left == Root(sub) && m[mom].right == null
        else m[mom].left == null && m[mom].right == Root(sub))
    && m[mom].parent == UpNode(p, n)
  }

  lemma TwoSeparate(c: Ctx<Node>, s: bool, n: Node, far: Tree<Node>, p: Ctx<Node>, mom: Node, sub: Tree<Node>)
    requires Separate(Compose(p, In(s, n, far, c)), Side(s, mom, sub, Nil))
    ensures AllSeparate(c, n, far, p, mom, sub)
  {
    ComposeDistinct(p, In(s, n, far, c));
    ComposeNodes(p, In(s, n, far, c));
    assert Nodes(Side(s, mom, sub, Nil)) == Nodes(sub) + {mom};
  }

  lemma SettledComposed(m: Store, up: Ctx<Node>, p: Ctx<Node>, mom: Node, sub: Tree<Node>, end: Tree<Node>)
    requires !up.Top? && Settled(m, Compose(p, up), end)
    requires Root(end) == mom && Height(end) == Height(sub) + 1 && Balanced(sub)
    ensures CtxShape(m, p, mom, Height(sub) + 1, up.n)
    ensures CtxShape(m, up, TopNode(p, mom), NearHeight(p, sub), null)
    ensures TwoBalanced(up, p, sub)
  {
    var h := Height(sub) + 1;
    assert CtxShape(m, Compose(p, up), mom, h, null) && CtxBalanced(Compose(p, up), h);
    ComposeShape(m, p, up, mom, h, null);
    ComposeBalanced(p, up, h);
  }

  lemma EndShape(m: Store, s: bool, mom: Node, sub: Tree<Node>, q: Node?)
    requires Shape(m, Side(s, mom, sub, Nil), q)
    ensures mom in m && m[mom].parent == q && Shape(m, sub, mom) && (sub.Br? ==> sub.n in m)
    ensures if s then m[mom].left == Root(sub) && m[mom].right == null
              else m[mom].left == null && m[mom].right == Root(sub)
    ensures Height(Side(s, mom, sub, Nil)) == Height(sub) + 1 && Root(Side(s, mom, sub, Nil)) == mom
  {
  }

  lemma UpperShape(m: Store, c: Ctx<Node>, s: bool, n: Node, far: Tree<Node>, hole: Node?, h: nat)
    requires far.Br? && CtxShape(m, In(s, n, far, c), hole, h, null)
    ensures n in m && far.n in m && (!c.Top? ==> c.n in m)
  {
    assert Shape(m, far, n);
    assert CtxShape(m, c, n, Above(In(s, n, far, c), h), null);
  }

  lemma SettledTwoChildren(m: Store, c: Ctx<Node>, s: bool, n: Node, far: Tree<Node>, p: Ctx<Node>, mom: Node,
                           sub: Tree<Node>)
    requires far.Br? && WellFormed(m, Zip(c, Side(s, n, Zip(p, Side(s, mom, sub, Nil)), far)))
    ensures TwoChildren(m, c, s, n, far, p, mom, sub)
  {
    var up, end := In(s, n, far, c), Side(s, mom, sub, Nil);
    ComposeZip(p, up, end);
    SettledIsWellFormed(m, Compose(p, up), end);
    TwoSeparate(c, s, n, far, p, mom, sub);
    assert UpNode(Compose(p, up), null) == UpNode(p, n);
    EndShape(m, s, mom, sub, UpNode(p, n));
    SettledComposed(m, up, p, mom, sub, end);
    UpperShape(m, c, s, n, far, TopNode(p, mom), NearHeight(p, sub));
    if !p.Top? {
      TopmostShaped(m, p, mom, Height(sub) + 1, n);
    }
  }

  lemma {:induction false} TopmostShaped(m: Store, p: Ctx<Node>, hole: Node?, h: nat, q: Node?)
    requires !p.Top? && CtxShape(m, p, hole, h, q)
    ensures Topmost(p) in m
    decreases p
  {
    if !p.up.Top? {
      TopmostShaped(m, p.up, p.n, Above(p, h), q);
    }
  }

  ghost function SpineSet(p: Ctx<Node>, sub: Tree<Node>): set<Node> {
    if p.Top? then {} else {p.n, Topmost(p)} + RootSet(sub)
  }

  ghost function Relinked(x: Cell, s: bool, child: Node?): Cell {
    if s then x.(right := child) else x.(left := child)
  }

  /** The node above the end of the spine now leads to `sub`; the spine hangs below `mom`. */
  ghost predicate SpineMoved(m: Store, m': Store, s: bool, p: Ctx<Node>, mom: Node, sub: Tree<Node>)
    requires (sub.Br? ==> sub.n in m && sub.n in m') && (!p.Top? ==> {p.n, Topmost(p)} <= m.Keys * m'.Keys)
  {
    !p.Top? ==>
      && (sub.Br? ==> m'[sub.n] == m[sub.n].(parent := p.n))
      && m'[p.n] == (if p.up.Top? then Relinked(m[p.n], s, Root(sub)).(parent := mom)
          else Relinked(m[p.n], s, Root(sub)))
      && (!p.up.Top? ==> m'[Topmost(p)] == m[Topmost(p)].(parent := mom))
  }

  /** All pointer words after `mom` has taken the place of `n`. */
  ghost predicate Substituted(m: Store, m': Store, c: Ctx<Node>, s: bool, n: Node, far: Tree<Node>, p: Ctx<Node>,
                              mom: Node, sub: Tree<Node>)
    requires TwoChildren(m, c, s, n, far, p, mom, sub)
  {
    && SameBut(m, m', TouchedSet(c, far, p, mom, sub))
    && SpineMoved(m, m', s, p, mom, sub)
    && m'[far.n] == m[far.n].(parent := mom)
    && (!c.Top? ==> m'[c.n] == if c.isLeft then m[c.n].(left := mom) else m[c.n].(right := mom))
    && CellAbove(m'[mom], In(s, mom, far, c), TopNode(p, Root(sub)), NearHeight(p, sub), null)
  }

  lemma SpineShaped(m: Store, m': Store, ns: set<Node>, s: bool, n: Node, p: Ctx<Node>, mom: Node, sub: Tree<Node>)
    requires CtxDistinct(p) && Distinct(sub) && CtxNodes(p) !! Nodes(sub) && mom !in CtxNodes(p) && mom !in Nodes(sub)
    requires CtxShape(m, p, mom, Height(sub) + 1, n) && Shape(m, sub, mom) && Spine(p, s)
    requires SameBut(m, m', ns)
    requires forall x | x in ns :: (x in CtxNodes(p) || x in Nodes(sub)) ==> x in SpineSet(p, sub)
    requires (sub.Br? ==> sub.n in m) && (!p.Top? ==> p.n in m && Topmost(p) in m) && SpineMoved(m, m', s, p, mom, sub)
    ensures CtxShape(m', p, Root(sub), Height(sub) + 1, mom) && Shape(m', sub, UpNode(p, mom))
  {
    if p.Top? {
      ShapeFrame(m, m', ns, sub, mom);
    } else {
      var h := Height(sub) + 1;
      TopmostInside(p);
      ShapeReparent(m, m', ns, sub, mom, p.n);
      ShapeFrame(m, m', ns, p.sib, p.n);
      if !p.up.Top? {
        CtxReparent(m, m', ns, p.up, p.n, Above(p, h), n, mom);
      }
    }
  }

  lemma NewSeparate(c: Ctx<Node>, s: bool, n: Node, far: Tree<Node>, p: Ctx<Node>, mom: Node, sub: Tree<Node>)
    requires AllSeparate(c, n, far, p, mom, sub)
    ensures Separate(OldCtx(c, s, mom, far, p), sub)
  {
    ComposeDistinct(p, In(s, mom, far, c));
    ComposeNodes(p, In(s, mom, far, c));
  }

  lemma SwapBalanced(up: Ctx<Node>, up': Ctx<Node>, h: nat)
    requires !up.Top? && !up'.Top? && up' == up.(n := up'.n)
    ensures CtxBalanced(up', h) == CtxBalanced(up, h)
  {
  }

  lemma NewEven(up: Ctx<Node>, up': Ctx<Node>, p: Ctx<Node>, sub: Tree<Node>)
    requires !up.Top? && !up'.Top? && up' == up.(n := up'.n) && TwoBalanced(up, p, sub)
    ensures CtxBalanced(Compose(p, up'), Height(sub) + 1)
  {
    SwapBalanced(up, up', NearHeight(p, sub));
    ComposeBalanced(p, up', Height(sub) + 1);
  }

  ghost function TouchedSet(c: Ctx<Node>, far: Tree<Node>, p: Ctx<Node>, mom: Node, sub: Tree<Node>): set<Node> {
    {mom} + RootSet(far) + NodeSet(UpNode(c, null)) + SpineSet(p, sub)
  }

  lemma TouchedApart(c: Ctx<Node>, n: Node, far: Tree<Node>, p: Ctx<Node>, mom: Node, sub: Tree<Node>)
    requires AllSeparate(c, n, far, p, mom, sub)
    ensures forall x | x in TouchedSet(c, far, p, mom, sub) && x in CtxNodes(c) :: x == c.n
    ensures Nodes(far) * TouchedSet(c, far, p, mom, sub) <= RootSet(far)
    ensures forall x | x in TouchedSet(c, far, p, mom, sub) :: (x in CtxNodes(p) || x in Nodes(sub)) ==>
              x in SpineSet(p, sub)
  {
    if !p.Top? {
      TopmostInside(p);
    }
  }

  lemma UpperRefilled(m: Store, m': Store, ns: set<Node>, up: Ctx<Node>, up': Ctx<Node>, hole: Node?, hole': Node?,
                      h: nat)
    requires !up.Top? && !up'.Top? && up' == up.(n := up'.n)
    requires CtxShape(m, up, hole, h, null) && CtxDistinct(up.up) && Distinct(up.sib) && SameBut(m, m', ns)
    requires forall x | x in ns && x in CtxNodes(up.up) :: x == up.up.n
    requires Nodes(up.sib) * ns <= RootSet(up.sib)
    requires up.sib.Br? ==> up.sib.n in m && m'[up.sib.n] == m[up.sib.n].(parent := up'.n)
    requires !up.up.Top? ==>
               up.up.n in m
               && m'[up.up.n] == (if up.up.isLeft then m[up.up.n].(left := up'.n) else m[up.up.n].(right := up'.n))
    requires up'.n in m' && CellAbove(m'[up'.n], up', hole', h, null)
    ensures CtxShape(m', up', hole', h, null)
  {
    HoleRefilled(m, m', ns, up.up, up.n, up'.n, Above(up, h));
    ShapeReparent(m, m', ns, up.sib, up.n, up'.n);
  }

  lemma SubstitutedUpper(m: Store, m': Store, c: Ctx<Node>, s: bool, n: Node, far: Tree<Node>, p: Ctx<Node>, mom: Node,
                         sub: Tree<Node>)
    requires TwoChildren(m, c, s, n, far, p, mom, sub) && Substituted(m, m', c, s, n, far, p, mom, sub)
    ensures CtxShape(m', In(s, mom, far, c), TopNode(p, Root(sub)), NearHeight(p, sub), null)
  {
    TouchedApart(c, n, far, p, mom, sub);
    UpperRefilled(m, m', TouchedSet(c, far, p, mom, sub), In(s, n, far, c), In(s, mom, far, c),
                  TopNode(p, mom), TopNode(p, Root(sub)), NearHeight(p, sub));
  }

  lemma SubstitutedLower(m: Store, m': Store, c: Ctx<Node>, s: bool, n: Node, far: Tree<Node>, p: Ctx<Node>, mom: Node,
                         sub: Tree<Node>)
    requires TwoChildren(m, c, s, n, far, p, mom, sub) && Spine(p, s) && Substituted(m, m', c, s, n, far, p, mom, sub)
    ensures CtxShape(m', p, Root(sub), Height(sub) + 1, mom) && Shape(m', sub, UpNode(p, mom))
  {
    TouchedApart(c, n, far, p, mom, sub);
    SpineShaped(m, m', TouchedSet(c, far, p, mom, sub), s, n, p, mom, sub);
  }

  lemma ShrinkComposed(m: Store, p: Ctx<Node>, up: Ctx<Node>, sub: Tree<Node>)
    requires Separate(Compose(p, up), sub) && CtxBalanced(Compose(p, up), Height(sub) + 1) && Balanced(sub)
    requires Shape(m, sub, UpNode(p, UpNode(up, null)))
    requires CtxShape(m, p, Root(sub), Height(sub) + 1, UpNode(up, null))
    requires CtxShape(m, up, TopNode(p, Root(sub)), NearHeight(p, sub), null)
    ensures Shrinking(m, Compose(p, up), sub)
  {
    ComposeShape(m, p, up, Root(sub), Height(sub) + 1, null);
    assert UpNode(Compose(p, up), null) == UpNode(p, UpNode(up, null));
  }

  lemma SubstitutedShrinks(m: Store, m': Store, c: Ctx<Node>, s: bool, n: Node, far: Tree<Node>, p: Ctx<Node>,
                           mom: Node, sub: Tree<Node>)
    requires TwoChildren(m, c, s, n, far, p, mom, sub) && Spine(p, s) && Substituted(m, m', c, s, n, far, p, mom, sub)
    ensures Shrinking(m', OldCtx(c, s, mom, far, p), sub)
  {
    SubstitutedLower(m, m', c, s, n, far, p, mom, sub);
    SubstitutedUpper(m, m', c, s, n, far, p, mom, sub);
    NewSeparate(c, s, n, far, p, mom, sub);
    NewEven(In(s, n, far, c), In(s, mom, far, c), p, sub);
    ShrinkComposed(m', p, In(s, mom, far, c), sub);
  }

  // ---------------------------------------------------------------- the pointer writes behind `Substituted`

  ghost function Kid(x: Cell, s: bool): Node? {
    if s then x.left else x.right
  }

  /** `mom` adopts both children of `n` and leaves its own near child to its parent `q`. */
  ghost predicate Moved(m: Store, m': Store, s: bool, n: Node, mom: Node, q: Node)
    requires {n, mom, q} <= m.Keys && m[n].left != null && m[n].right != null && {m[n].left, m[n].right} <= m.Keys
    requires Kid(m[mom], s) != null ==> Kid(m[mom], s) in m
  {
    var f, x, t := Kid(m[n], !s), Kid(m[mom], s), Kid(m[n], s);
    && SameBut(m, m', {mom, f, q, t} + NodeSet(x))
    && m'[mom] == m[mom].(left := m[n].left, right := m[n].right, bf := m[n].bf)
    && m'[f] == m[f].(parent := mom)
    && m'[q] == (if q == t then Relinked(m[q], s, x).(parent := mom) else Relinked(m[q], s, x))
    && (q != t ==> m'[t] == m[t].(parent := mom))
    && Adopted(m, m', x, q)
  }

  /** `mom`, a child of `n` itself, adopts the other child and takes over the balance factor. */
  ghost predicate MovedUp(m: Store, m': Store, s: bool, n: Node, mom: Node)
    requires {n, mom} <= m.Keys && Kid(m[n], !s) != null && Kid(m[n], !s) in m
  {
    var f := Kid(m[n], !s);
    && SameBut(m, m', {mom, f})
    && m'[mom] == Relinked(m[mom], s, f).(bf := m[n].bf)
    && m'[f] == m[f].(parent := mom)
  }

  /** The slot of the hole of `c` leads to `mom`, whose parent is there. */
  ghost predicate Seated(m: Store, m': Store, c: Ctx<Node>, mom: Node)
    requires mom in m && (!c.Top? ==> c.n in m)
  {
    && SameBut(m, m', {mom} + NodeSet(UpNode(c, null)))
    && m'[mom] == m[mom].(parent := UpNode(c, null))
    && (!c.Top? ==> m'[c.n] == if c.isLeft then m[c.n].(left := mom) else m[c.n].(right := mom))
  }

  /** What the pointer writes need to know about aliasing. */
  lemma TwoChildrenApart(m: Store, c: Ctx<Node>, s: bool, n: Node, far: Tree<Node>, p: Ctx<Node>, mom: Node,
                         sub: Tree<Node>)
    requires TwoChildren(m, c, s, n, far, p, mom, sub)
    ensures Kid(m[n], !s) == far.n && Kid(m[n], s) == TopNode(p, mom) && Kid(m[mom], s) == Root(sub)
    ensures m[n].bf == if s then Height(far) - NearHeight(p, sub) else NearHeight(p, sub) - Height(far)
    ensures m[mom].parent == UpNode(p, n) && TopNode(p, mom) in m
    ensures far.n !in {n, mom, TopNode(p, mom), UpNode(p, n)} && n !in {mom, TopNode(p, mom)}
    ensures !p.Top? ==> p.n !in {n, mom} && TopNode(p, mom) == Topmost(p) != mom
    ensures sub.Br? ==> sub.n !in {n, mom, far.n, TopNode(p, mom), UpNode(p, n)} || p.Top?
    ensures !c.Top? ==> c.n !in {n, mom, far.n, TopNode(p, mom)}
    ensures p.Top? <==> UpNode(p, n) == n
  {
    if !p.Top? {
      TopmostInside(p);
    }
  }

  lemma MovedSpine(m: Store, m1: Store, m': Store, c: Ctx<Node>, s: bool, n: Node, far: Tree<Node>, p: Ctx<Node>,
                   mom: Node, sub: Tree<Node>)
    requires TwoChildren(m, c, s, n, far, p, mom, sub) && !p.Top?
    requires m[n].left != null && m[n].right != null && {m[n].left, m[n].right} <= m.Keys
    requires (Kid(m[mom], s) != null ==> Kid(m[mom], s) in m) && Moved(m, m1, s, n, mom, p.n)
    requires SameBut(m1, m', {mom} + NodeSet(UpNode(c, null)))
    ensures {p.n, Topmost(p)} <= m'.Keys && (sub.Br? ==> sub.n in m') && SpineMoved(m, m', s, p, mom, sub)
  {
    TwoChildrenApart(m, c, s, n, far, p, mom, sub);
    NotAbove(m, c, s, n, far, p, mom, sub);
    TopmostInside(p);
    assert Kid(m[mom], s) == Root(sub);
  }

  lemma MovedSubstitutes(m: Store, m1: Store, m': Store, c: Ctx<Node>, s: bool, n: Node, far: Tree<Node>, p: Ctx<Node>,
                         mom: Node, sub: Tree<Node>)
    requires TwoChildren(m, c, s, n, far, p, mom, sub) && !p.Top?
    requires m[n].left != null && m[n].right != null && {m[n].left, m[n].right} <= m.Keys
    requires (Kid(m[mom], s) != null ==> Kid(m[mom], s) in m) && Moved(m, m1, s, n, mom, p.n)
    requires mom in m1 && (!c.Top? ==> c.n in m1) && Seated(m1, m', c, mom)
    ensures Substituted(m, m', c, s, n, far, p, mom, sub)
  {
    TwoChildrenApart(m, c, s, n, far, p, mom, sub);
    NotAbove(m, c, s, n, far, p, mom, sub);
    MovedSpine(m, m1, m', c, s, n, far, p, mom, sub);
  }

  lemma MovedUpSubstitutes(m: Store, m1: Store, m': Store, c: Ctx<Node>, s: bool, n: Node, far: Tree<Node>,
                           p: Ctx<Node>, mom: Node, sub: Tree<Node>)
    requires TwoChildren(m, c, s, n, far, p, mom, sub) && p.Top?
    requires Kid(m[n], !s) != null && Kid(m[n], !s) in m && MovedUp(m, m1, s, n, mom)
    requires mom in m1 && (!c.Top? ==> c.n in m1) && Seated(m1, m', c, mom)
    ensures Substituted(m, m', c, s, n, far, p, mom, sub)
  {
    TwoChildrenApart(m, c, s, n, far, p, mom, sub);
  }

  /** The node above the doomed one is none of the nodes that move. */
  lemma NotAbove(m: Store, c: Ctx<Node>, s: bool, n: Node, far: Tree<Node>, p: Ctx<Node>, mom: Node, sub: Tree<Node>)
    requires TwoChildren(m, c, s, n, far, p, mom, sub) && !p.Top?
    ensures !c.Top? ==> c.n != p.n && (sub.Br? ==> c.n != sub.n)
  {
  }

  // ---------------------------------------------------------------- the resulting tree

  lemma SideNodes(s: bool, n: Node, near: Tree<Node>, far: Tree<Node>)
    ensures Nodes(Side(s, n, near, far)) == {n} + Nodes(near) + Nodes(far)
  {
  }

  lemma SubstituteNodes(c: Ctx<Node>, s: bool, n: Node, far: Tree<Node>, p: Ctx<Node>, mom: Node, sub: Tree<Node>)
    requires AllSeparate(c, n, far, p, mom, sub)
    ensures Nodes(Zip(OldCtx(c, s, mom, far, p), sub))
         == Nodes(Zip(c, Side(s, n, Zip(p, Side(s, mom, sub, Nil)), far))) - {n}
  {
    var end := Side(s, mom, sub, Nil);
    ZipNodes(p, end);
    SideNodes(s, mom, sub, Nil);
    ZipNodes(c, Side(s, n, Zip(p, end), far));
    SideNodes(s, n, Zip(p, end), far);
    ZipNodes(OldCtx(c, s, mom, far, p), sub);
    ComposeNodes(p, In(s, mom, far, c));
    SetSwap(CtxNodes(c), Nodes(far), CtxNodes(p), Nodes(sub), n, mom);
  }

  lemma SetSwap(c: set<Node>, far: set<Node>, p: set<Node>, sub: set<Node>, n: Node, mom: Node)
    requires n !in c && n !in far && n !in p && n !in sub && n != mom
    ensures (p + ({mom} + far + c)) + sub == (c + ({n} + (p + ({mom} + sub + {})) + far)) - {n}
  {
  }

  lemma {:induction false} ComposeTop(p: Ctx<Node>, up: Ctx<Node>, hole: Node?, hole': Node?)
    requires !up.Top?
    ensures TopNode(Compose(p, up), hole) == TopNode(up, hole')
    decreases p
  {
    if p.Top? {
      assert TopNode(up, hole) == Topmost(up) == TopNode(up, hole');
    } else {
      ComposeTop(p.up, up, p.n, hole');
    }
  }

  /** Forgetting the deleted node. */
  lemma WellFormedRestrict(m: Store, m': Store, t: Tree<Node>)
    requires WellFormed(m, t) && m'.Keys == Nodes(t) && forall n | n in m' :: n in m && m'[n] == m[n]
    ensures WellFormed(m', t)
  {
    ShapeRestrict(m, m', t, null);
  }
}
