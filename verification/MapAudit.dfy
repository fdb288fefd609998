/** The self-check `check_avl_get_depth` of clib/map.cc, on any finite tree of nodes, well-formed or not. */
module MapAudit {
  import opened Trees
  import opened Keys
  import opened MapNodes
  import opened MapInsert
  import opened MapOrder

  /** The child words of the snapshot form the tree `t`; parents, balance factors and keys may be anything. */
  ghost predicate Branches(m: Store, t: Tree<Node>) {
    t.Br? ==>
      && t.n in m && m[t.n].left == Root(t.l) && m[t.n].right == Root(t.r)
      && Branches(m, t.l) && Branches(m, t.r)
  }

  /** Every child stands on the right side of its parent; this alone does not sort the tree. */
  predicate ChildrenOrdered(t: Tree<Node>) {
    t.Br? ==>
      && (t.l.Br? ==> Precedes(t.l.n.key, t.n.key)) && (t.r.Br? ==> Precedes(t.n.key, t.r.n.key))
      && ChildrenOrdered(t.l) && ChildrenOrdered(t.r)
  }

  ghost function ParentOf(m: Store, t: Tree<Node>): Node?
    requires Branches(m, t)
  {
    if t.Nil? then null else m[t.n].parent
  }

  /** All links below the root, all balance factors and all child orders are right. */
  ghost predicate Sound(m: Store, t: Tree<Node>)
    requires Branches(m, t)
  {
    Shape(m, t, ParentOf(m, t)) && Balanced(t) && ChildrenOrdered(t)
  }

  /** What is checked at one node. */
  ghost predicate SoundHere(m: Store, t: Tree<Node>)
    requires Branches(m, t) && t.Br?
  {
    && (t.l.Br? ==> ParentOf(m, t.l) == t.n && Precedes(t.l.n.key, t.n.key))
    && (t.r.Br? ==> ParentOf(m, t.r) == t.n && Precedes(t.n.key, t.r.n.key))
    && m[t.n].bf == Height(t.r) - Height(t.l) && -1 <= Height(t.r) - Height(t.l) <= 1
  }

  lemma SoundByParts(m: Store, t: Tree<Node>)
    requires Branches(m, t) && t.Br?
    ensures Sound(m, t) <==> Sound(m, t.l) && Sound(m, t.r) && SoundHere(m, t)
  {
    assert Branches(m, t.l) && Branches(m, t.r);
    if Sound(m, t) {
      assert Shape(m, t.l, t.n) && Shape(m, t.r, t.n);
      assert ParentOf(m, t.l) == t.n || t.l.Nil?;
      assert ParentOf(m, t.r) == t.n || t.r.Nil?;
      assert Shape(m, t.l, ParentOf(m, t.l)) && Shape(m, t.r, ParentOf(m, t.r));
    }
    if Sound(m, t.l) && Sound(m, t.r) && SoundHere(m, t) {
      assert Shape(m, t.l, t.n) && Shape(m, t.r, t.n);
    }
  }

  /** Reports nothing exactly when the tree is sound, and returns its height in any case. */
  method CheckDepth(node: Node?, ghost ns: set<Node>, ghost t: Tree<Node>) returns (depth: nat, complaints: nat)
    requires Branches(Snapshot(ns), t) && node == Root(t)
    ensures depth == Height(t) && (complaints == 0 <==> Sound(Snapshot(ns), t))
    decreases t
  {
    if node == null {
      return 0, 0;
    }
    SoundByParts(Snapshot(ns), t);
    var left: int, right: int, fromLeft, fromRight;
    var here: nat := 0;
    left, fromLeft := CheckDepth(node.left, ns, t.l);
    if left != 0 {
      if node.left.parent != node {
        here := here + 1;
      }
      var d := CompareKeys(node.left.key, node.key);
      if d != Left {
        here := here + 1;
      }
    }
    right, fromRight := CheckDepth(node.right, ns, t.r);
    if right != 0 {
      if node.right.parent != node {
        here := here + 1;
      }
      var d := CompareKeys(node.key, node.right.key);
      if d != Left {
        here := here + 1;
      }
    }
    var diff: int := right - left;
    if node.bf != diff {
      here := here + 1;
    }
    if diff < -1 || diff > 1 {
      here := here + 1;
    }
    assert here == 0 <==> SoundHere(Snapshot(ns), t);
    return (if right > left then right else left) + 1, fromLeft + fromRight + here;
  }

  lemma {:induction false} ShapeBranches(m: Store, t: Tree<Node>, p: Node?)
    requires Shape(m, t, p)
    ensures Branches(m, t)
  {
    if t.Br? {
      ShapeBranches(m, t.l, t.n);
      ShapeBranches(m, t.r, t.n);
    }
  }

  lemma {:induction false} SortedChildren(t: Tree<Node>)
    requires Sorted(Inorder(t))
    ensures ChildrenOrdered(t)
  {
    if t.Br? {
      var l, r := Inorder(t.l), Inorder(t.r);
      assert Inorder(t) == (l + [t.n]) + r == l + [t.n] + r;
      SortedRemove(l, t.n, r);
      assert Sorted(l) by { assert forall i | 0 <= i < |l| :: (l + r)[i] == l[i]; }
      assert Sorted(r) by { assert forall i | 0 <= i < |r| :: (l + r)[|l| + i] == r[i]; }
      SortedChildren(t.l);
      SortedChildren(t.r);
      if t.l.Br? {
        InorderNodes(t.l, t.l.n);
      }
      if t.r.Br? {
        InorderNodes(t.r, t.r.n);
      }
    }
  }

  /** On a well-formed, sorted map the check is silent and returns the height. */
  method CheckWellFormed(node: Node?, ghost ns: set<Node>, ghost t: Tree<Node>) returns (depth: nat, complaints: nat)
    requires WellFormed(Snapshot(ns), t) && Sorted(Inorder(t)) && node == Root(t)
    ensures depth == Height(t) && complaints == 0
  {
    ShapeBranches(Snapshot(ns), t, null);
    SortedChildren(t);
    depth, complaints := CheckDepth(node, ns, t);
  }
}
