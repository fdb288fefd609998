/** One rebalancing step of clib/map.cc: choose the rotation, perform it, and hang the result under the parent. */
module MapRepair {
  import opened Trees
  import opened MapNodes
  import opened MapRotations

  /** `t'` is a balanced rearrangement of `t`. */
  ghost predicate Rearranged(t: Tree<Node>, t': Tree<Node>) {
    && Inorder(t') == Inorder(t) && Nodes(t') == Nodes(t)
    && Distinct(t') && Balanced(t')
  }

  /** The subtree at a node whose right child has become two levels deeper than the left one. */
  ghost predicate RightHeavy(m: Store, x: Tree<Node>, a: Node, r: Tree<Node>) {
    && r.Br? && a in m && m[a].left == Root(x) && m[a].right == r.n
    && Shape(m, x, a) && Shape(m, r, a)
    && Distinct(Br(x, a, r)) && Balanced(x) && Balanced(r) && Height(r) == Height(x) + 2
  }

  ghost predicate LeftHeavy(m: Store, l: Tree<Node>, a: Node, y: Tree<Node>) {
    && l.Br? && a in m && m[a].left == l.n && m[a].right == Root(y)
    && Shape(m, l, a) && Shape(m, y, a)
    && Distinct(Br(l, a, y)) && Balanced(l) && Balanced(y) && Height(l) == Height(y) + 2
  }

  lemma RightHeavySingle(m: Store, x: Tree<Node>, a: Node, r: Tree<Node>)
    requires RightHeavy(m, x, a, r)
    ensures r.n in m && RootSet(r.l) <= m.Keys
    ensures a != r.n && Apart({a, r.n}, x, r.l, r.r) && Distinct(r.l) && Distinct(r.r)
    ensures m[r.n].left == Root(r.l) && m[r.n].right == Root(r.r) && m[r.n].bf == Height(r.r) - Height(r.l)
    ensures m[r.n].bf >= 0 ==> Height(r.r) == Height(x) + 1 && Height(x) <= Height(r.l) <= Height(r.r)
  {
    assert Distinct(r);
    assert Shape(m, r.l, r.n);
  }

  lemma RightHeavyDouble(m: Store, x: Tree<Node>, a: Node, r: Tree<Node>)
    requires RightHeavy(m, x, a, r) && m[r.n].bf < 0
    ensures r.l.Br? && Height(x) == Height(r.r) == Max(Height(r.l.l), Height(r.l.r))
    ensures RootSet(r.l.l) + {r.l.n} + RootSet(r.l.r) <= m.Keys
    ensures m[r.n].left == r.l.n && m[r.l.n].left == Root(r.l.l) && m[r.l.n].right == Root(r.l.r)
    ensures m[r.l.n].bf == Height(r.l.r) - Height(r.l.l) && -1 <= Height(r.l.r) - Height(r.l.l) <= 1
    ensures Shape(m, r.l.l, r.l.n) && Shape(m, r.l.r, r.l.n)
    ensures AllApart(a, r.n, r.l.n, Root(r.l.l), Root(r.l.r))
  {
    RightHeavySingle(m, x, a, r);
    assert Balanced(r.l);
    assert Shape(m, r.l, r.n);
    assert Shape(m, r.l.l, r.l.n) && Shape(m, r.l.r, r.l.n);
    assert Nodes(r.l) == Nodes(r.l.l) + {r.l.n} + Nodes(r.l.r);
  }

  lemma RightHeavyApart(x: Tree<Node>, a: Node, r: Tree<Node>)
    requires r.Br? && r.l.Br? && a != r.n && Apart({a, r.n}, x, r.l, r.r) && Distinct(r.l)
    ensures Apart({a, r.l.n, r.n}, x, r.l.l, r.l.r) && Apart({a, r.l.n, r.n}, r.l.l, r.l.r, r.r)
            && Nodes(x) !! Nodes(r.r)
    ensures Distinct(r.l.l) && Distinct(r.l.r)
  {
    assert Nodes(r.l) == Nodes(r.l.l) + {r.l.n} + Nodes(r.l.r);
  }

  /** What repairing the node `a` left behind: the balanced subtree `t` in place of `t0`, and nothing else touched. */
  ghost predicate Repaired(m: Store, m': Store, t0: Tree<Node>, t: Tree<Node>) {
    && t.Br? && Rearranged(t0, t)
    && SameBut(m, m', Nodes(t0)) && t.n in m' && Shape(m', t, m'[t.n].parent)
  }

  lemma RotLeftRepairs(m: Store, m': Store, x: Tree<Node>, a: Node, r: Tree<Node>)
    requires RightHeavy(m, x, a, r) && m[r.n].bf >= 0
    requires r.n in m && RootSet(r.l) <= m.Keys && m[r.n].left == Root(r.l) && RotatedLeft(m, m', a, r.n)
    ensures Repaired(m, m', Br(x, a, r), Br(Br(x, a, r.l), r.n, r.r))
  {
    RightHeavySingle(m, x, a, r);
    TurnSingle(x, a, r.l, r.n, r.r);
    RotLeftShape(m, m', a, r.n, x, r.l, r.r);
    assert {a, r.n} + RootSet(r.l) <= Nodes(Br(x, a, r));
    assert Balanced(Br(x, a, r.l));
  }

  lemma DoubleRearranged(x: Tree<Node>, a: Node, b: Tree<Node>, c: Node, d: Tree<Node>, e: Node, y: Tree<Node>)
    requires Balanced(x) && Balanced(b) && Balanced(d) && Balanced(y)
    requires Height(x) == Height(y) == Max(Height(b), Height(d)) && -1 <= Height(d) - Height(b) <= 1
    ensures var t := Br(Br(x, a, b), c, Br(d, e, y));
            Balanced(t) && Height(t) == Height(x) + 2
  {
    assert Balanced(Br(x, a, b)) && Balanced(Br(d, e, y));
  }

  lemma RotRightLeftRepairs(m: Store, m': Store, x: Tree<Node>, a: Node, r: Tree<Node>)
    requires RightHeavy(m, x, a, r) && r.n in m && m[r.n].bf < 0
    requires r.l.Br? && r.l.n in m && RootSet(r.l.l) + RootSet(r.l.r) <= m.Keys
    requires m[r.l.n].left == Root(r.l.l) && m[r.l.n].right == Root(r.l.r) && Lifted(m, m', a, r.l.n, r.n)
    ensures Repaired(m, m', Br(x, a, r), Br(Br(x, a, r.l.l), r.l.n, Br(r.l.r, r.n, r.r)))
  {
    RightHeavySingle(m, x, a, r);
    RightHeavyDouble(m, x, a, r);
    RightHeavyApart(x, a, r);
    TurnDouble(x, a, r.l.l, r.l.n, r.l.r, r.n, r.r);
    assert Balanced(r.l);
    DoubleRearranged(x, a, r.l.l, r.l.n, r.l.r, r.n, r.r);
    LiftedShape(m, m', a, r.l.n, r.n, x, r.l.l, r.l.r, r.r);
    assert Nodes(r.l) == Nodes(r.l.l) + {r.l.n} + Nodes(r.l.r);
    assert {a, r.l.n, r.n} + RootSet(r.l.l) + RootSet(r.l.r) <= Nodes(Br(x, a, r));
  }

  /** Chooses and performs the rotation at `a`, whose right child `c` roots the deeper side. */
  method LiftRight(a: Node, c: Node, ghost ns: set<Node>, ghost x: Tree<Node>, ghost r: Tree<Node>)
    returns (top: Node, ghost t: Tree<Node>)
    requires RightHeavy(Snapshot(ns), x, a, r) && c == r.n
    modifies ns
    ensures Repaired(old(Snapshot(ns)), Snapshot(ns), Br(x, a, r), t) && top == t.n
    ensures Height(t) == Height(r) + if old(c.bf) == 0 then 1 else 0
  {
    ghost var m := Snapshot(ns);
    RightHeavySingle(m, x, a, r);
    if c.bf < 0 {
      RightHeavyDouble(m, x, a, r);
      top := RotRightLeft(a, c, ns);
      t := Br(Br(x, a, r.l.l), r.l.n, Br(r.l.r, r.n, r.r));
      RotRightLeftRepairs(m, Snapshot(ns), x, a, r);
    } else {
      top := RotLeft(a, c, ns);
      t := Br(Br(x, a, r.l), r.n, r.r);
      RotLeftRepairs(m, Snapshot(ns), x, a, r);
    }
  }

  // ---------------------------------------------------------------- the mirror image

  lemma LeftHeavySingle(m: Store, l: Tree<Node>, a: Node, y: Tree<Node>)
    requires LeftHeavy(m, l, a, y)
    ensures l.n in m && RootSet(l.r) <= m.Keys
    ensures a != l.n && Apart({a, l.n}, l.l, l.r, y) && Distinct(l.l) && Distinct(l.r)
    ensures m[l.n].left == Root(l.l) && m[l.n].right == Root(l.r) && m[l.n].bf == Height(l.r) - Height(l.l)
    ensures m[l.n].bf <= 0 ==> Height(l.l) == Height(y) + 1 && Height(y) <= Height(l.r) <= Height(l.l)
  {
    assert Distinct(l);
    assert Shape(m, l.r, l.n);
  }

  lemma LeftHeavyDouble(m: Store, l: Tree<Node>, a: Node, y: Tree<Node>)
    requires LeftHeavy(m, l, a, y) && m[l.n].bf > 0
    ensures l.r.Br? && Height(y) == Height(l.l) == Max(Height(l.r.l), Height(l.r.r))
    ensures RootSet(l.r.l) + {l.r.n} + RootSet(l.r.r) <= m.Keys
    ensures m[l.n].right == l.r.n && m[l.r.n].left == Root(l.r.l) && m[l.r.n].right == Root(l.r.r)
    ensures m[l.r.n].bf == Height(l.r.r) - Height(l.r.l) && -1 <= Height(l.r.r) - Height(l.r.l) <= 1
    ensures Shape(m, l.r.l, l.r.n) && Shape(m, l.r.r, l.r.n)
    ensures AllApart(l.n, a, l.r.n, Root(l.r.l), Root(l.r.r))
  {
    LeftHeavySingle(m, l, a, y);
    assert Balanced(l.r);
    assert Shape(m, l.r, l.n);
    assert Shape(m, l.r.l, l.r.n) && Shape(m, l.r.r, l.r.n);
    assert Nodes(l.r) == Nodes(l.r.l) + {l.r.n} + Nodes(l.r.r);
  }

  lemma LeftHeavyApart(l: Tree<Node>, a: Node, y: Tree<Node>)
    requires l.Br? && l.r.Br? && a != l.n && Apart({a, l.n}, l.l, l.r, y) && Distinct(l.r)
    ensures Apart({l.n, l.r.n, a}, l.l, l.r.l, l.r.r) && Apart({l.n, l.r.n, a}, l.r.l, l.r.r, y)
            && Nodes(l.l) !! Nodes(y)
    ensures Distinct(l.r.l) && Distinct(l.r.r)
  {
    assert Nodes(l.r) == Nodes(l.r.l) + {l.r.n} + Nodes(l.r.r);
  }

  lemma RotRightRepairs(m: Store, m': Store, l: Tree<Node>, a: Node, y: Tree<Node>)
    requires LeftHeavy(m, l, a, y) && m[l.n].bf <= 0
    requires l.n in m && RootSet(l.r) <= m.Keys && m[l.n].right == Root(l.r) && RotatedRight(m, m', a, l.n)
    ensures Repaired(m, m', Br(l, a, y), Br(l.l, l.n, Br(l.r, a, y)))
  {
    LeftHeavySingle(m, l, a, y);
    TurnSingle(l.l, l.n, l.r, a, y);
    RotRightShape(m, m', a, l.n, l.l, l.r, y);
    assert {a, l.n} + RootSet(l.r) <= Nodes(Br(l, a, y));
    assert Balanced(Br(l.r, a, y));
  }

  lemma RotLeftRightRepairs(m: Store, m': Store, l: Tree<Node>, a: Node, y: Tree<Node>)
    requires LeftHeavy(m, l, a, y) && l.n in m && m[l.n].bf > 0
    requires l.r.Br? && l.r.n in m && RootSet(l.r.l) + RootSet(l.r.r) <= m.Keys
    requires m[l.r.n].left == Root(l.r.l) && m[l.r.n].right == Root(l.r.r) && Lifted(m, m', l.n, l.r.n, a)
    ensures Repaired(m, m', Br(l, a, y), Br(Br(l.l, l.n, l.r.l), l.r.n, Br(l.r.r, a, y)))
  {
    LeftHeavySingle(m, l, a, y);
    LeftHeavyDouble(m, l, a, y);
    LeftHeavyApart(l, a, y);
    TurnDouble(l.l, l.n, l.r.l, l.r.n, l.r.r, a, y);
    assert Balanced(l.r);
    DoubleRearranged(l.l, l.n, l.r.l, l.r.n, l.r.r, a, y);
    LiftedShape(m, m', l.n, l.r.n, a, l.l, l.r.l, l.r.r, y);
    assert Nodes(l.r) == Nodes(l.r.l) + {l.r.n} + Nodes(l.r.r);
    assert {a, l.r.n, l.n} + RootSet(l.r.l) + RootSet(l.r.r) <= Nodes(Br(l, a, y));
  }

  /** Chooses and performs the rotation at `a`, whose left child `c` roots the deeper side. */
  method LiftLeft(a: Node, c: Node, ghost ns: set<Node>, ghost l: Tree<Node>, ghost y: Tree<Node>)
    returns (top: Node, ghost t: Tree<Node>)
    requires LeftHeavy(Snapshot(ns), l, a, y) && c == l.n
    modifies ns
    ensures Repaired(old(Snapshot(ns)), Snapshot(ns), Br(l, a, y), t) && top == t.n
    ensures Height(t) == Height(l) + if old(c.bf) == 0 then 1 else 0
  {
    ghost var m := Snapshot(ns);
    LeftHeavySingle(m, l, a, y);
    if c.bf > 0 {
      LeftHeavyDouble(m, l, a, y);
      top := RotLeftRight(a, c, ns);
      t := Br(Br(l.l, l.n, l.r.l), l.r.n, Br(l.r.r, a, y));
      RotLeftRightRepairs(m, Snapshot(ns), l, a, y);
    } else {
      top := RotRight(a, c, ns);
      t := Br(l.l, l.n, Br(l.r, a, y));
      RotRightRepairs(m, Snapshot(ns), l, a, y);
    }
  }

  /** The child `t` in the hole of `c` is two levels deeper than its sibling. */
  ghost predicate Overgrown(m: Store, c: Ctx<Node>, t: Tree<Node>) {
    && !c.Top? && t.Br? && c.n in m && t.n in m
    && (if c.isLeft then LeftHeavy(m, t, c.n, c.sib) else RightHeavy(m, c.sib, c.n, t))
    && (m[c.n].right == t.n <==> !c.isLeft)
  }

  /** The rotation that insert_priv chooses at `a` for its deeper child `n`. */
  method Lift(a: Node, n: Node, ghost ns: set<Node>, ghost c: Ctx<Node>, ghost t: Tree<Node>)
    returns (top: Node, ghost t': Tree<Node>)
    requires Overgrown(Snapshot(ns), c, t) && a == c.n && n == t.n
    modifies ns
    ensures Repaired(old(Snapshot(ns)), Snapshot(ns), Fill(c, t), t') && top == t'.n
    ensures Height(t') == Height(t) + if old(n.bf) == 0 then 1 else 0
  {
    if a.right == n {
      top, t' := LiftRight(a, n, ns, c.sib, t);
    } else {
      top, t' := LiftLeft(a, n, ns, t, c.sib);
    }
  }

  // ---------------------------------------------------------------- hanging the result under the parent

  /** The word of `p` that pointed to `a` now points to `top`, whose parent is `p`. */
  ghost predicate Attached(m: Store, m': Store, a: Node, top: Node, p: Node?)
    requires top in m && (p != null ==> p in m)
  {
    && SameBut(m, m', {top} + NodeSet(p))
    && m'[top] == m[top].(parent := p)
    && (p != null ==> m'[p] == if m[p].left == a then m[p].(left := top) else m[p].(right := top))
  }

  lemma AttachShape(m: Store, m': Store, c: Ctx<Node>, a: Node, h: nat, t: Tree<Node>, q: Node?)
    requires CtxShape(m, c, a, h, null) && Shape(m, t, q) && t.Br?
    requires CtxDistinct(c) && Distinct(t) && Nodes(t) !! CtxNodes(c) && a !in CtxNodes(c)
    requires Attached(m, m', a, t.n, UpNode(c, null))
    ensures Shape(m', t, UpNode(c, null)) && CtxShape(m', c, t.n, h, null)
  {
    var touched := {t.n} + NodeSet(UpNode(c, null));
    ShapeReparent(m, m', touched, t, q, UpNode(c, null));
    if !c.Top? {
      ShapeFrame(m, m', touched, c.sib, c.n);
      CtxFrame(m, m', touched, c.up, c.n, Above(c, h), null);
    }
  }
}
