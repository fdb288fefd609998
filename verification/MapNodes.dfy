/**
  * The linked nodes of clib/map.cc. A `Store` is a snapshot of all link words; `Shape` and `CtxShape` say, without
  * mentioning the heap, that a snapshot represents a tree or the surroundings of a node under repair.
  */
module MapNodes {
  import opened Trees
  import opened Keys

  /** The 2-bit signed bit-field `bf`. */
  type Balance = b: int | -2 <= b <= 1 witness 0

  class Node {
    const key: Key
    const value: int
    var parent: Node?
    var left: Node?
    var right: Node?
    var bf: Balance

    /** A new node is unlinked; its parent word is NULL, so its balance factor is 0. */
    constructor (key: Key, value: int)
      ensures this.key == key && this.value == value
      ensures parent == null && left == null && right == null && bf == 0
    {
      this.key, this.value := key, value;
      parent, left, right, bf := null, null, null, 0;
    }
  }

  datatype Cell = Cell(left: Node?, right: Node?, parent: Node?, bf: Balance)

  type Store = map<Node, Cell>

  /** What the nodes `ns` hold now. */
  ghost function Snapshot(ns: set<Node>): Store
    reads ns
  {
    map n | n in ns :: Cell(n.left, n.right, n.parent, n.bf)
  }

  /** The later snapshot still has every node of the earlier one, and they agree except perhaps on `ns`. */
  ghost predicate SameBut(m: Store, m': Store, ns: set<Node>) {
    m.Keys <= m'.Keys && forall n | n in m.Keys && n !in ns :: m'[n] == m[n]
  }

  ghost function Root(t: Tree<Node>): Node? {
    if t.Nil? then null else t.n
  }

  ghost function RootSet(t: Tree<Node>): set<Node> {
    if t.Nil? then {} else {t.n}
  }

  /** The node above the hole of `c`, or `q` when the hole is the root. */
  ghost function UpNode(c: Ctx<Node>, q: Node?): Node? {
    if c.Top? then q else c.n
  }

  /** `m` holds the tree `t` under the parent `p`: child and parent words agree, and every `bf` is exact. */
  ghost predicate Shape(m: Store, t: Tree<Node>, p: Node?) {
    t.Br? ==>
      && t.n in m
      && m[t.n].left == Root(t.l) && m[t.n].right == Root(t.r) && m[t.n].parent == p
      && m[t.n].bf == Height(t.r) - Height(t.l)
      && Shape(m, t.l, t.n) && Shape(m, t.r, t.n)
  }

  /** `m` holds the context `c` under `q`, its hole being the node `hole`, counted with height `h`. */
  ghost predicate CtxShape(m: Store, c: Ctx<Node>, hole: Node?, h: nat, q: Node?)
    decreases c
  {
    !c.Top? ==>
      && c.n in m && CellAbove(m[c.n], c, hole, h, q)
      && Shape(m, c.sib, c.n) && CtxShape(m, c.up, c.n, Above(c, h), q)
  }

  /** What the node just above the hole must hold. */
  ghost predicate CellAbove(x: Cell, c: Ctx<Node>, hole: Node?, h: nat, q: Node?)
    requires !c.Top?
  {
    && x.parent == UpNode(c.up, q)
    && (if c.isLeft then x.left == hole && x.right == Root(c.sib) && x.bf == Height(c.sib) - h
        else x.left == Root(c.sib) && x.right == hole && x.bf == h - Height(c.sib))
  }

  ghost function Topmost(c: Ctx<Node>): Node
    requires !c.Top?
  {
    if c.up.Top? then c.n else Topmost(c.up)
  }

  /** The topmost node once `hole` is plugged in. */
  ghost function TopNode(c: Ctx<Node>, hole: Node?): (r: Node?)
    ensures !c.Top? ==> r == Topmost(c)
    decreases c
  {
    if c.Top? then hole else TopNode(c.up, c.n)
  }

  lemma {:induction false} ShapeKeys(m: Store, t: Tree<Node>, p: Node?)
    requires Shape(m, t, p)
    ensures Nodes(t) <= m.Keys
  {
    if t.Br? {
      ShapeKeys(m, t.l, t.n);
      ShapeKeys(m, t.r, t.n);
    }
  }

  // ---------------------------------------------------------------- what an update leaves alone

  lemma {:induction false} ShapeFrame(m: Store, m': Store, ns: set<Node>, t: Tree<Node>, p: Node?)
    requires Shape(m, t, p) && SameBut(m, m', ns) && Nodes(t) !! ns
    ensures Shape(m', t, p)
  {
    if t.Br? {
      ShapeFrame(m, m', ns, t.l, t.n);
      ShapeFrame(m, m', ns, t.r, t.n);
    }
  }

  lemma {:induction false} ShapeRestrict(m: Store, m': Store, t: Tree<Node>, p: Node?)
    requires Shape(m, t, p) && Nodes(t) <= m'.Keys && forall n | n in m' :: n in m && m'[n] == m[n]
    ensures Shape(m', t, p)
  {
    if t.Br? {
      ShapeRestrict(m, m', t.l, t.n);
      ShapeRestrict(m, m', t.r, t.n);
    }
  }

  /** Re-parenting the root of a subtree. */
  lemma {:induction false} ShapeReparent(m: Store, m': Store, ns: set<Node>, t: Tree<Node>, p: Node?, p': Node?)
    requires Shape(m, t, p) && SameBut(m, m', ns) && Distinct(t) && Nodes(t) * ns <= RootSet(t)
    requires t.Br? ==> m'[t.n] == m[t.n].(parent := p')
    ensures Shape(m', t, p')
  {
    if t.Br? {
      ShapeFrame(m, m', ns, t.l, t.n);
      ShapeFrame(m, m', ns, t.r, t.n);
    }
  }

  lemma {:induction false} CtxFrame(m: Store, m': Store, ns: set<Node>, c: Ctx<Node>, hole: Node?, h: nat, q: Node?)
    requires CtxShape(m, c, hole, h, q) && SameBut(m, m', ns) && CtxNodes(c) !! ns
    ensures CtxShape(m', c, hole, h, q)
    decreases c
  {
    if !c.Top? {
      ShapeFrame(m, m', ns, c.sib, c.n);
      CtxFrame(m, m', ns, c.up, c.n, Above(c, h), q);
    }
  }

  /** Re-parenting the topmost node of a context. */
  lemma {:induction false} CtxReparent(m: Store, m': Store, ns: set<Node>, c: Ctx<Node>, hole: Node?, h: nat, q: Node?,
                                       q': Node?)
    requires CtxShape(m, c, hole, h, q) && SameBut(m, m', ns) && CtxDistinct(c) && !c.Top?
    requires forall x | x in ns && x in CtxNodes(c) :: x == Topmost(c)
    requires Topmost(c) in m && m'[Topmost(c)] == m[Topmost(c)].(parent := q')
    ensures CtxShape(m', c, hole, h, q')
    decreases c
  {
    TopmostInside(c);
    assert Nodes(c.sib) <= CtxNodes(c) && Nodes(c.sib) !! ns;
    ShapeFrame(m, m', ns, c.sib, c.n);
    if !c.up.Top? {
      CtxReparent(m, m', ns, c.up, c.n, Above(c, h), q, q');
    }
  }

  lemma {:induction false} TopmostInside(c: Ctx<Node>)
    requires !c.Top? && CtxDistinct(c)
    ensures Topmost(c) in CtxNodes(c) && Topmost(c) !in Nodes(c.sib)
    ensures !c.up.Top? ==> Topmost(c) != c.n && Topmost(c) in CtxNodes(c.up)
  {
    if !c.up.Top? {
      TopmostInside(c.up);
    }
  }

  // ---------------------------------------------------------------- plugging

  lemma {:induction false} ZipRoot(c: Ctx<Node>, t: Tree<Node>)
    ensures Root(Zip(c, t)) == TopNode(c, Root(t))
    decreases c
  {
    if !c.Top? {
      ZipRoot(c.up, Fill(c, t));
    }
  }

  lemma {:induction false} ZipShape(m: Store, c: Ctx<Node>, t: Tree<Node>, q: Node?)
    ensures Shape(m, Zip(c, t), q) <==> Shape(m, t, UpNode(c, q)) && CtxShape(m, c, Root(t), Height(t), q)
    decreases c
  {
    if !c.Top? {
      ZipShape(m, c.up, Fill(c, t), q);
    }
  }

  lemma {:induction false} ComposeShape(m: Store, p: Ctx<Node>, up: Ctx<Node>, hole: Node?, h: nat, q: Node?)
    ensures CtxShape(m, Compose(p, up), hole, h, q)
       <==> CtxShape(m, p, hole, h, UpNode(up, q)) && CtxShape(m, up, TopNode(p, hole), UpHeight(p, h), q)
    decreases p
  {
    if !p.Top? {
      ComposeShape(m, p.up, up, p.n, Above(p, h), q);
      assert UpNode(Compose(p, up).up, q) == UpNode(p.up, UpNode(up, q));
    }
  }
}
