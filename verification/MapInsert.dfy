/** Facts about one turn of the upward walk of insert_priv (clib/map.cc), free of the heap. */
module MapInsert {
  import opened Trees
  import opened MapNodes
  import opened MapRotations
  import opened MapRepair

  /** Context and subtree have no node in common, and no node occurs twice. */
  ghost predicate Separate(c: Ctx<Node>, t: Tree<Node>) {
    Distinct(t) && CtxDistinct(c) && Nodes(t) !! CtxNodes(c)
  }

  /** Everything is in order: plugging `t` into `c` gives a well-formed tree. */
  ghost predicate Settled(m: Store, c: Ctx<Node>, t: Tree<Node>) {
    && Separate(c, t)
    && Shape(m, t, UpNode(c, null)) && CtxShape(m, c, Root(t), Height(t), null)
    && Balanced(t) && CtxBalanced(c, Height(t))
  }

  ghost predicate WellFormed(m: Store, t: Tree<Node>) {
    Distinct(t) && Balanced(t) && Shape(m, t, null)
  }

  lemma SettledIsWellFormed(m: Store, c: Ctx<Node>, t: Tree<Node>)
    ensures Settled(m, c, t) <==> WellFormed(m, Zip(c, t))
  {
    ZipShape(m, c, t, null);
    ZipDistinct(c, t);
    ZipBalanced(c, t);
  }

  lemma ZipSame(c: Ctx<Node>, t: Tree<Node>, t': Tree<Node>)
    requires Inorder(t') == Inorder(t) && Nodes(t') == Nodes(t)
    ensures Inorder(Zip(c, t')) == Inorder(Zip(c, t)) && Nodes(Zip(c, t')) == Nodes(Zip(c, t))
  {
    ZipInorder(c, t);
    ZipInorder(c, t');
    ZipNodes(c, t);
    ZipNodes(c, t');
  }

  /** The balance factor of one node was overwritten. */
  ghost predicate Rebalanced(m: Store, m': Store, a: Node, bf: Balance) {
    a in m && SameBut(m, m', {a}) && m'[a] == m[a].(bf := bf)
  }

  /** The subtree `t` has just grown from height `h`; the balance factors above it do not know yet. */
  ghost predicate Growing(m: Store, c: Ctx<Node>, t: Tree<Node>, h: nat) {
    && t.Br? && Height(t) == h + 1 && t.n in m && (h > 0 ==> m[t.n].bf != 0)
    && Separate(c, t)
    && Shape(m, t, UpNode(c, null)) && CtxShape(m, c, t.n, h, null)
    && Balanced(t) && CtxBalanced(c, h)
  }

  lemma FillShape(m: Store, m': Store, c: Ctx<Node>, t: Tree<Node>, h: nat, bf: Balance)
    requires !c.Top? && Separate(c, t) && Shape(m, t, c.n) && CtxShape(m, c, Root(t), h, null)
    requires Rebalanced(m, m', c.n, bf)
    requires bf == if c.isLeft then Height(c.sib) - Height(t) else Height(t) - Height(c.sib)
    ensures Separate(c.up, Fill(c, t))
    ensures Shape(m', Fill(c, t), UpNode(c.up, null)) && CtxShape(m', c.up, c.n, Above(c, h), null)
  {
    ShapeFrame(m, m', {c.n}, t, c.n);
    ShapeFrame(m, m', {c.n}, c.sib, c.n);
    CtxFrame(m, m', {c.n}, c.up, c.n, Above(c, h), null);
    assert Nodes(Fill(c, t)) == Nodes(t) + {c.n} + Nodes(c.sib);
  }

  /** The growth evens out a lean to the other side: the walk stops. */
  lemma GrowAbsorbed(m: Store, m': Store, c: Ctx<Node>, t: Tree<Node>, h: nat)
    requires Growing(m, c, t, h) && !c.Top? && Height(c.sib) == h + 1
    requires Rebalanced(m, m', c.n, 0)
    ensures Settled(m', c.up, Fill(c, t))
  {
    FillShape(m, m', c, t, h, 0);
  }

  /** An even node starts to lean: its subtree has grown, too. */
  lemma GrowClimbs(m: Store, m': Store, c: Ctx<Node>, t: Tree<Node>, h: nat, bf: Balance)
    requires Growing(m, c, t, h) && !c.Top? && Height(c.sib) == h
    requires bf == (if c.isLeft then -1 else 1) && Rebalanced(m, m', c.n, bf)
    ensures Growing(m', c.up, Fill(c, t), h + 1)
  {
    FillShape(m, m', c, t, h, bf);
  }

  /** One walk step without rotation, by the old balance factor of the node above. */
  lemma GrowCases(m: Store, c: Ctx<Node>, t: Tree<Node>, h: nat)
    requires Growing(m, c, t, h) && !c.Top?
    ensures c.n in m && m[c.n].bf == (if c.isLeft then Height(c.sib) - h else h - Height(c.sib))
    ensures -1 <= Height(c.sib) - h <= 1 && (m[c.n].right == t.n <==> !c.isLeft)
    ensures m[c.n].parent == UpNode(c.up, null)
  {
  }

  /** Hanging a repaired subtree back in. */
  lemma RepairHangs(m: Store, m1: Store, m': Store, c: Ctx<Node>, t0: Tree<Node>, a: Node, t: Tree<Node>, h: nat)
    requires CtxShape(m, c, a, h, null) && Separate(c, t0) && a in Nodes(t0)
    requires Repaired(m, m1, t0, t) && (!c.Top? ==> c.n in m1) && Attached(m1, m', a, t.n, UpNode(c, null))
    ensures Separate(c, t) && Shape(m', t, UpNode(c, null)) && CtxShape(m', c, t.n, h, null)
  {
    CtxFrame(m, m1, Nodes(t0), c, a, h, null);
    AttachShape(m1, m', c, a, h, t, m1[t.n].parent);
  }

  /** The node above leant to the grown side already: it needs a rotation, and the rotation restores its height. */
  lemma GrowHeavy(m: Store, c: Ctx<Node>, t: Tree<Node>, h: nat)
    requires Growing(m, c, t, h) && !c.Top? && h == Height(c.sib) + 1
    ensures Overgrown(m, c, t) && m[t.n].bf != 0
    ensures Separate(c.up, Fill(c, t)) && CtxShape(m, c.up, c.n, h + 1, null)
    ensures m[c.n].parent == UpNode(c.up, null)
  {
    assert Nodes(Fill(c, t)) == Nodes(t) + {c.n} + Nodes(c.sib);
  }

  /** After the rotation and the re-hanging, everything is in order. */
  lemma GrowRotated(m: Store, m1: Store, m': Store, c: Ctx<Node>, t: Tree<Node>, h: nat, t': Tree<Node>)
    requires Growing(m, c, t, h) && !c.Top? && h == Height(c.sib) + 1
    requires Repaired(m, m1, Fill(c, t), t') && Height(t') == Height(t)
    requires !c.up.Top? ==> c.up.n in m1
    requires Attached(m1, m', c.n, t'.n, UpNode(c.up, null))
    ensures Settled(m', c.up, t')
  {
    GrowHeavy(m, c, t, h);
    RepairHangs(m, m1, m', c.up, Fill(c, t), c.n, t', h + 1);
  }

  /** The new leaf hangs in the hole, and nothing else changed. */
  ghost predicate Hung(m: Store, m': Store, c: Ctx<Node>, node: Node) {
    && node in m && SameBut(m, m', {node} + NodeSet(UpNode(c, null)))
    && m'[node] == Cell(null, null, UpNode(c, null), 0)
    && (!c.Top? ==> c.n in m && m'[c.n] == if c.isLeft then m[c.n].(left := node) else m[c.n].(right := node))
  }

  lemma HoleReady(m: Store, m': Store, c: Ctx<Node>)
    requires WellFormed(m, Zip(c, Nil)) && SameBut(m, m', {})
    ensures CtxShape(m', c, null, 0, null) && CtxDistinct(c) && CtxBalanced(c, 0)
    ensures CtxNodes(c) == Nodes(Zip(c, Nil)) && TopNode(c, null) == Root(Zip(c, Nil))
  {
    SettledIsWellFormed(m, c, Nil);
    ZipNodes(c, Nil);
    ZipRoot(c, Nil);
    CtxFrame(m, m', {}, c, null, 0, null);
  }

  lemma Planted(m: Store, m': Store, c: Ctx<Node>, node: Node)
    requires CtxShape(m, c, null, 0, null) && CtxDistinct(c) && CtxBalanced(c, 0) && node !in CtxNodes(c)
    requires Hung(m, m', c, node)
    ensures Growing(m', c, Br(Nil, node, Nil), 0)
  {
    var touched := {node} + NodeSet(UpNode(c, null));
    if !c.Top? {
      ShapeFrame(m, m', touched, c.sib, c.n);
      CtxFrame(m, m', touched, c.up, c.n, Above(c, 0), null);
    }
    assert Nodes(Br(Nil, node, Nil)) == {node};
    assert Shape(m', Br(Nil, node, Nil), UpNode(c, null));
  }
}
