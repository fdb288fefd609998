/** In-order traversal of clib/map.cc without a stack: `Min`, `Max`, `iter_up`, `iter_down`. */
module MapIter {
  import opened Trees
  import opened Keys
  import opened MapNodes
  import opened MapOrder
  import opened MapRotations
  import opened MapRepair
  import opened MapInsert
  import opened MapDelete

  /** The last node of the subtree `l`, reached by right children. */
  method FindRightmost(start: Node, ghost ns: set<Node>, ghost l: Tree<Node>, ghost q: Node?)
    returns (mom: Node, ghost p: Ctx<Node>, ghost sub: Tree<Node>)
    requires Shape(Snapshot(ns), l, q) && start == Root(l)
    ensures l == Zip(p, Side(true, mom, sub, Nil)) && Spine(p, true)
  {
    mom, p := start, Top;
    ghost var cur := l;
    while mom.right != null
      invariant cur.Br? && mom == cur.n && l == Zip(p, cur) && Spine(p, true)
      invariant Shape(Snapshot(ns), cur, UpNode(p, q))
      decreases cur
    {
      mom := mom.right;
      p, cur := In(false, cur.n, cur.l, p), cur.r;
    }
    sub := cur.l;
  }

  method FindLeftmost(start: Node, ghost ns: set<Node>, ghost r: Tree<Node>, ghost q: Node?)
    returns (mom: Node, ghost p: Ctx<Node>, ghost sub: Tree<Node>)
    requires Shape(Snapshot(ns), r, q) && start == Root(r)
    ensures r == Zip(p, Side(false, mom, sub, Nil)) && Spine(p, false)
  {
    mom, p := start, Top;
    ghost var cur := r;
    while mom.left != null
      invariant cur.Br? && mom == cur.n && r == Zip(p, cur) && Spine(p, false)
      invariant Shape(Snapshot(ns), cur, UpNode(p, q))
      decreases cur
    {
      mom := mom.left;
      p, cur := In(true, cur.n, cur.r, p), cur.l;
    }
    sub := cur.r;
  }

  /** `n` is in the tree `t` at position `i` of the order. */
  ghost predicate IsAt(t: Tree<Node>, i: nat, n: Node) {
    i < |Inorder(t)| && Inorder(t)[i] == n
  }

  ghost function NodeAt(t: Tree<Node>, i: int): Node? {
    if 0 <= i < |Inorder(t)| then Inorder(t)[i] else null
  }

  lemma {:induction false} PositionUnique(t: Tree<Node>, i: nat, j: nat)
    requires Distinct(t) && i < |Inorder(t)| && j < |Inorder(t)| && Inorder(t)[i] == Inorder(t)[j]
    ensures i == j
  {
    var k := |Inorder(t.l)|;
    var l, r := Inorder(t.l), Inorder(t.r);
    assert forall x | 0 <= x < |l| + 1 + |r| :: Inorder(t)[x] == if x < k then l[x] else if x == k then t.n
             else r[x - k - 1];
    forall x | 0 <= x < |l| ensures l[x] in Nodes(t.l) {
      InorderNodes(t.l, l[x]);
    }
    forall x | 0 <= x < |r| ensures r[x] in Nodes(t.r) {
      InorderNodes(t.r, r[x]);
    }
    if i < k && j < k {
      PositionUnique(t.l, i, j);
    } else if i > k && j > k {
      PositionUnique(t.r, i - k - 1, j - k - 1);
    }
  }

  /** Position of the node in focus, and what comes next. */
  lemma FocusPosition(t: Tree<Node>, c: Ctx<Node>, l: Tree<Node>, n: Node, r: Tree<Node>, i: nat)
    requires t == Zip(c, Br(l, n, r)) && Distinct(t) && IsAt(t, i, n)
    ensures NodeAt(t, i + 1) == First(Inorder(r) + After(c)) && NodeAt(t, i - 1) == Last(Before(c) + Inorder(l))
  {
    ZipAround(c, Br(l, n, r));
    NeighboursAt(t, Before(c) + Inorder(l), n, Inorder(r) + After(c), i);
  }

  lemma NeighboursAt(t: Tree<Node>, b: seq<Node>, n: Node, a: seq<Node>, i: nat)
    requires Inorder(t) == b + [n] + a && Distinct(t) && IsAt(t, i, n)
    ensures NodeAt(t, i + 1) == First(a) && NodeAt(t, i - 1) == Last(b)
  {
    Neighbours(Inorder(t), b, n, a);
    PositionUnique(t, i, |b|);
  }

  lemma Neighbours(s: seq<Node>, b: seq<Node>, n: Node, a: seq<Node>)
    requires s == b + [n] + a
    ensures |s| == |b| + 1 + |a| && s[|b|] == n
    ensures (if |b| + 1 < |s| then s[|b| + 1] else null) == First(a)
    ensures (if |b| > 0 then s[|b| - 1] else null) == Last(b)
  {
  }

  ghost function First(s: seq<Node>): Node? {
    if s == [] then null else s[0]
  }

  ghost function Last(s: seq<Node>): Node? {
    if s == [] then null else s[|s| - 1]
  }

  lemma FirstOfSpine(r: Tree<Node>, p: Ctx<Node>, mom: Node, sub: Tree<Node>, rest: seq<Node>)
    requires r == Zip(p, Side(false, mom, sub, Nil)) && Spine(p, false)
    ensures First(Inorder(r) + rest) == mom
  {
    SpineInorder(p, false, mom, sub);
  }

  lemma LastOfSpine(l: Tree<Node>, p: Ctx<Node>, mom: Node, sub: Tree<Node>, rest: seq<Node>)
    requires l == Zip(p, Side(true, mom, sub, Nil)) && Spine(p, true)
    ensures Last(rest + Inorder(l)) == mom
  {
    SpineInorder(p, true, mom, sub);
  }

  /** What a well-formed tree says about the node above a hole. */
  lemma ClimbFacts(m: Store, c: Ctx<Node>, t: Tree<Node>)
    requires WellFormed(m, Zip(c, t)) && t.Br?
    ensures t.n in m && m[t.n].parent == UpNode(c, null) && m[t.n].left == Root(t.l) && m[t.n].right == Root(t.r)
    ensures Shape(m, t.l, t.n) && Shape(m, t.r, t.n)
    ensures !c.Top? ==> c.n in m && (m[c.n].right == t.n <==> !c.isLeft) && (m[c.n].left == t.n <==> c.isLeft)
  {
    SettledIsWellFormed(m, c, t);
  }

  method IterUp(start: Node, ghost ns: set<Node>, ghost t: Tree<Node>, ghost i: nat) returns (elem: Node?)
    requires WellFormed(Snapshot(ns), t) && IsAt(t, i, start)
    ensures elem == NodeAt(t, i + 1)
  {
    ghost var m := Snapshot(ns);
    InorderNodes(t, start);
    ghost var (c, l, r) := Focus(t, start);
    FocusPosition(t, c, l, start, r, i);
    ClimbFacts(m, c, Br(l, start, r));
    if start.right != null {
      ghost var p, sub;
      elem, p, sub := FindLeftmost(start.right, ns, r, start);
      FirstOfSpine(r, p, elem, sub, After(c));
    } else {
      assert Inorder(r) + After(c) == After(c);
      var oldElem;
      elem := start;
      ghost var cc, s := c, Br(l, start, r);
      oldElem, elem := elem, elem.parent;
      while elem != null && oldElem == elem.right
        invariant t == Zip(cc, s) && s.Br? && oldElem == s.n && elem == UpNode(cc, null)
        invariant After(cc) == After(c)
        decreases cc
      {
        ClimbFacts(m, cc, s);
        cc, s := cc.up, Fill(cc, s);
        ClimbFacts(m, cc, s);
        oldElem, elem := elem, elem.parent;
      }
      ClimbFacts(m, cc, s);
    }
  }

  method IterDown(start: Node, ghost ns: set<Node>, ghost t: Tree<Node>, ghost i: nat) returns (elem: Node?)
    requires WellFormed(Snapshot(ns), t) && IsAt(t, i, start)
    ensures elem == NodeAt(t, i - 1)
  {
    ghost var m := Snapshot(ns);
    InorderNodes(t, start);
    ghost var (c, l, r) := Focus(t, start);
    FocusPosition(t, c, l, start, r, i);
    ClimbFacts(m, c, Br(l, start, r));
    if start.left != null {
      ghost var p, sub;
      elem, p, sub := FindRightmost(start.left, ns, l, start);
      LastOfSpine(l, p, elem, sub, Before(c));
    } else {
      assert Before(c) + Inorder(l) == Before(c);
      var oldElem;
      elem := start;
      ghost var cc, s := c, Br(l, start, r);
      oldElem, elem := elem, elem.parent;
      while elem != null && oldElem == elem.left
        invariant t == Zip(cc, s) && s.Br? && oldElem == s.n && elem == UpNode(cc, null)
        invariant Before(cc) == Before(c)
        decreases cc
      {
        ClimbFacts(m, cc, s);
        cc, s := cc.up, Fill(cc, s);
        ClimbFacts(m, cc, s);
        oldElem, elem := elem, elem.parent;
      }
      ClimbFacts(m, cc, s);
    }
  }

  method Min(root: Node?, ghost ns: set<Node>, ghost t: Tree<Node>) returns (node: Node?)
    requires WellFormed(Snapshot(ns), t) && root == Root(t)
    ensures node == NodeAt(t, 0)
  {
    if root == null {
      return null;
    }
    ghost var p, sub;
    node, p, sub := FindLeftmost(root, ns, t, null);
    FirstOfSpine(t, p, node, sub, []);
    assert Inorder(t) + [] == Inorder(t);
  }

  method Max(root: Node?, ghost ns: set<Node>, ghost t: Tree<Node>) returns (node: Node?)
    requires WellFormed(Snapshot(ns), t) && root == Root(t)
    ensures node == NodeAt(t, Size(t) - 1)
  {
    InorderLength(t);
    if root == null {
      return null;
    }
    ghost var p, sub;
    node, p, sub := FindRightmost(root, ns, t, null);
    LastOfSpine(t, p, node, sub, []);
    assert [] + Inorder(t) == Inorder(t);
  }

  /** Numbers rise; of two texts the first is smaller where they differ first, or ends there. */
  ghost predicate KeysRise(a: Key, b: Key) {
    (a.Num? && b.Num? ==> a.n < b.n) && (a.Text? && b.Text? ==> Smaller(a.s, b.s))
  }

  lemma SortedRises(s: seq<Node>)
    ensures Sorted(s) ==> forall i, j | 0 <= i < j < |s| :: KeysRise(s[i].key, s[j].key)
  {
    forall i, j | Sorted(s) && 0 <= i < j < |s| ensures KeysRise(s[i].key, s[j].key) {
      OrderMeans(s[i].key, s[j].key);
    }
  }

  /** A loop over the whole map, from `Min` by `iter_up` to null, meets every node once and in order. */
  method Ascending(root: Node?, ghost ns: set<Node>, ghost t: Tree<Node>) returns (visited: seq<Node>)
    requires WellFormed(Snapshot(ns), t) && root == Root(t)
    ensures visited == Inorder(t)
    ensures Sorted(Inorder(t)) ==> forall i, j | 0 <= i < j < |visited| :: KeysRise(visited[i].key, visited[j].key)
  {
    visited := [];
    var elem := Min(root, ns, t);
    while elem != null
      invariant |visited| <= |Inorder(t)| && visited == Inorder(t)[..|visited|] && elem == NodeAt(t, |visited|)
      decreases |Inorder(t)| - |visited|
    {
      var next := IterUp(elem, ns, t, |visited|);
      visited, elem := visited + [elem], next;
    }
    SortedRises(Inorder(t));
  }

  /** From `Max` by `iter_down` to null: every node once, in descending order. */
  method Descending(root: Node?, ghost ns: set<Node>, ghost t: Tree<Node>) returns (visited: seq<Node>)
    requires WellFormed(Snapshot(ns), t) && root == Root(t)
    ensures |visited| == |Inorder(t)|
    ensures forall k | 0 <= k < |visited| :: visited[k] == Inorder(t)[|visited| - 1 - k]
    ensures Sorted(Inorder(t)) ==> forall i, j | 0 <= i < j < |visited| :: KeysRise(visited[j].key, visited[i].key)
  {
    visited := [];
    InorderLength(t);
    ghost var n := |Inorder(t)|;
    var elem := Max(root, ns, t);
    while elem != null
      invariant |visited| <= n && elem == NodeAt(t, n - 1 - |visited|)
      invariant forall k | 0 <= k < |visited| :: visited[k] == Inorder(t)[n - 1 - k]
      decreases n - |visited|
    {
      var next := IterDown(elem, ns, t, n - 1 - |visited|);
      visited, elem := visited + [elem], next;
    }
    SortedRises(Inorder(t));
  }

  /** On interior steps, `iter_down` and `iter_up` undo each other. */
  method StepAndBack(start: Node, ghost ns: set<Node>, ghost t: Tree<Node>, ghost i: nat)
    returns (up: Node?, down: Node?)
    requires WellFormed(Snapshot(ns), t) && IsAt(t, i, start)
    ensures if i + 1 < |Inorder(t)| then up == start else up == null
    ensures if i > 0 then down == start else down == null
  {
    up := IterUp(start, ns, t, i);
    if up != null {
      up := IterDown(up, ns, t, i + 1);
    }
    down := IterDown(start, ns, t, i);
    if down != null {
      down := IterUp(down, ns, t, i - 1);
    }
  }
}
