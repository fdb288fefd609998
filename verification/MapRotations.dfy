/** The four rotations of clib/map.cc: what they do to the link words, and the shape that this produces. */
module MapRotations {
  import opened Trees
  import opened MapNodes

  /** The subtrees share no node with each other or with `ns`. */
  ghost predicate Apart(ns: set<Node>, x: Tree<Node>, y: Tree<Node>, z: Tree<Node>) {
    && ns !! Nodes(x) && ns !! Nodes(y) && ns !! Nodes(z)
    && Nodes(x) !! Nodes(y) && Nodes(x) !! Nodes(z) && Nodes(y) !! Nodes(z)
  }

  ghost function NodeSet(n: Node?): set<Node> {
    if n == null then {} else {n}
  }

  /** `p` becomes the parent of `n`, if there is one. */
  ghost predicate Adopted(m: Store, m': Store, n: Node?, p: Node)
    requires n != null ==> n in m && n in m'
  {
    n != null ==> m'[n] == m[n].(parent := p)
  }

  ghost predicate RotatedLeft(m: Store, m': Store, a: Node, c: Node)
    requires a in m && c in m && (m[c].left != null ==> m[c].left in m)
  {
    var b := m[c].left;
    && SameBut(m, m', {a, c} + NodeSet(b))
    && Adopted(m, m', b, a)
    && m'[a] == Cell(m[a].left, b, c, if m[c].bf == 0 then 1 else 0)
    && m'[c] == Cell(a, m[c].right, m[c].parent, if m[c].bf == 0 then -1 else 0)
  }

  method RotLeft(a: Node, c: Node, ghost ns: set<Node>) returns (top: Node)
    requires a in ns && c in ns && a != c && c.left != a && c.left != c
    requires c.left != null ==> c.left in ns
    modifies {a, c} + NodeSet(c.left)
    ensures top == c && RotatedLeft(old(Snapshot(ns)), Snapshot(ns), a, c)
  {
    var b := c.left;
    a.right := b;
    if b != null {
      b.parent := a;
    }
    c.left := a;
    a.parent := c;
    if c.bf == 0 {
      a.bf := 1;
      c.bf := -1;
    } else {
      a.bf := 0;
      c.bf := 0;
    }
    return c;
  }

  lemma RotLeftShape(m: Store, m': Store, a: Node, c: Node, x: Tree<Node>, b: Tree<Node>, y: Tree<Node>)
    requires a in m && a != c && Apart({a, c}, x, b, y) && Distinct(b)
    requires m[a].left == Root(x) && Shape(m, x, a) && Shape(m, Br(b, c, y), a)
    requires Height(y) == Height(x) + 1 && Height(x) <= Height(b) <= Height(y)
    requires b.Br? ==> b.n in m
    requires RotatedLeft(m, m', a, c)
    ensures Shape(m', Br(Br(x, a, b), c, y), a)
  {
    var touched := {a, c} + RootSet(b);
    ShapeFrame(m, m', touched, x, a);
    ShapeReparent(m, m', touched, b, c, a);
    ShapeFrame(m, m', touched, y, c);
  }

  ghost predicate RotatedRight(m: Store, m': Store, c: Node, a: Node)
    requires a in m && c in m && (m[a].right != null ==> m[a].right in m)
  {
    var b := m[a].right;
    && SameBut(m, m', {a, c} + NodeSet(b))
    && Adopted(m, m', b, c)
    && m'[c] == Cell(b, m[c].right, a, if m[a].bf == 0 then -1 else 0)
    && m'[a] == Cell(m[a].left, c, m[a].parent, if m[a].bf == 0 then 1 else 0)
  }

  method RotRight(c: Node, a: Node, ghost ns: set<Node>) returns (top: Node)
    requires a in ns && c in ns && a != c && a.right != a && a.right != c
    requires a.right != null ==> a.right in ns
    modifies {a, c} + NodeSet(a.right)
    ensures top == a && RotatedRight(old(Snapshot(ns)), Snapshot(ns), c, a)
  {
    var b := a.right;
    c.left := b;
    if b != null {
      b.parent := c;
    }
    a.right := c;
    c.parent := a;
    if a.bf == 0 {
      c.bf := -1;
      a.bf := 1;
    } else {
      c.bf := 0;
      a.bf := 0;
    }
    return a;
  }

  lemma RotRightShape(m: Store, m': Store, c: Node, a: Node, x: Tree<Node>, b: Tree<Node>, y: Tree<Node>)
    requires c in m && a != c && Apart({a, c}, x, b, y) && Distinct(b)
    requires m[c].right == Root(y) && Shape(m, y, c) && Shape(m, Br(x, a, b), c)
    requires Height(x) == Height(y) + 1 && Height(y) <= Height(b) <= Height(x)
    requires b.Br? ==> b.n in m
    requires RotatedRight(m, m', c, a)
    ensures Shape(m', Br(x, a, Br(b, c, y)), c)
  {
    var touched := {a, c} + RootSet(b);
    ShapeFrame(m, m', touched, x, a);
    ShapeReparent(m, m', touched, b, a, c);
    ShapeFrame(m, m', touched, y, c);
  }

  /** `c` is lifted above `a` (to its left) and `e` (to its right). Both double rotations end here. */
  ghost predicate Lifted(m: Store, m': Store, a: Node, c: Node, e: Node)
    requires a in m && c in m && e in m
    requires (m[c].left != null ==> m[c].left in m) && (m[c].right != null ==> m[c].right in m)
  {
    var b, d := m[c].left, m[c].right;
    && SameBut(m, m', {a, c, e} + NodeSet(b) + NodeSet(d))
    && Adopted(m, m', b, a) && Adopted(m, m', d, e)
    && m'[a] == Cell(m[a].left, b, c, if m[c].bf > 0 then -1 else 0)
    && m'[c] == Cell(a, e, m[c].parent, 0)
    && m'[e] == Cell(d, m[e].right, c, if m[c].bf < 0 then 1 else 0)
  }

  /** The balance factors after either double rotation. */
  method BalanceLifted(a: Node, c: Node, e: Node)
    requires a != c && a != e && c != e
    modifies {a, c, e}`bf
    ensures a.bf == (if old(c.bf) > 0 then -1 else 0) && c.bf == 0 && e.bf == (if old(c.bf) < 0 then 1 else 0)
  {
    if c.bf == 0 {
      a.bf := 0;
      e.bf := 0;
    } else if c.bf < 0 {
      a.bf := 0;
      e.bf := 1;
    } else {
      a.bf := -1;
      e.bf := 0;
    }
    c.bf := 0;
  }

  method RotRightLeft(a: Node, e: Node, ghost ns: set<Node>) returns (top: Node)
    requires a in ns && e in ns && e.left != null && e.left in ns
    requires AllApart(a, e, e.left, e.left.left, e.left.right)
    requires NodeSet(e.left.left) + NodeSet(e.left.right) <= ns
    modifies {a, e.left, e} + NodeSet(e.left.left) + NodeSet(e.left.right)
    ensures top == old(e.left) && Lifted(old(Snapshot(ns)), Snapshot(ns), a, top, e)
  {
    var c := e.left;
    var b, d := c.left, c.right;
    c.left := a;
    a.parent := c;
    a.right := b;
    if b != null {
      b.parent := a;
    }
    c.right := e;
    e.parent := c;
    e.left := d;
    if d != null {
      d.parent := e;
    }
    BalanceLifted(a, c, e);
    return c;
  }

  method RotLeftRight(e: Node, a: Node, ghost ns: set<Node>) returns (top: Node)
    requires a in ns && e in ns && a.right != null && a.right in ns
    requires AllApart(a, e, a.right, a.right.left, a.right.right)
    requires NodeSet(a.right.left) + NodeSet(a.right.right) <= ns
    modifies {a, a.right, e} + NodeSet(a.right.left) + NodeSet(a.right.right)
    ensures top == old(a.right) && Lifted(old(Snapshot(ns)), Snapshot(ns), a, top, e)
  {
    var c := a.right;
    var d, b := c.right, c.left;
    c.right := e;
    e.parent := c;
    e.left := d;
    if d != null {
      d.parent := e;
    }
    c.left := a;
    a.parent := c;
    a.right := b;
    if b != null {
      b.parent := a;
    }
    BalanceLifted(a, c, e);
    return c;
  }

  ghost predicate AllApart(a: Node, e: Node, c: Node, b: Node?, d: Node?) {
    && a != e && a != c && e != c
    && b !in {a, e, c} && d !in {a, e, c} && (b != null ==> b != d)
  }

  /** The four subtrees around three nodes that a double rotation keeps in order. */
  lemma LiftedShape(m: Store, m': Store, a: Node, c: Node, e: Node,
                    x: Tree<Node>, b: Tree<Node>, d: Tree<Node>, y: Tree<Node>)
    requires a in m && c in m && e in m && a != c && a != e && c != e
    requires Apart({a, c, e}, x, b, d) && Apart({a, c, e}, b, d, y) && Nodes(x) !! Nodes(y) && Distinct(b)
             && Distinct(d)
    requires m[a].left == Root(x) && Shape(m, x, a) && m[e].right == Root(y) && Shape(m, y, e)
    requires m[c].left == Root(b) && Shape(m, b, c) && m[c].right == Root(d) && Shape(m, d, c)
    requires m[c].bf == Height(d) - Height(b) && Height(x) == Height(y) == Max(Height(b), Height(d))
    requires -1 <= Height(d) - Height(b) <= 1
    requires (b.Br? ==> b.n in m) && (d.Br? ==> d.n in m)
    requires Lifted(m, m', a, c, e)
    ensures Shape(m', Br(Br(x, a, b), c, Br(d, e, y)), m[c].parent)
  {
    var touched := {a, c, e} + RootSet(b) + RootSet(d);
    ShapeFrame(m, m', touched, x, a);
    ShapeReparent(m, m', touched, b, c, a);
    ShapeReparent(m, m', touched, d, c, e);
    ShapeFrame(m, m', touched, y, e);
    assert Shape(m', Br(x, a, b), c);
    assert Shape(m', Br(d, e, y), c);
  }
}
