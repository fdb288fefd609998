/** The ordered map of clib/map.cc on linked nodes. */
module AvlMap {
  import opened Bits
  import opened Trees
  import opened Keys
  import opened MapNodes
  import opened MapRotations
  import opened MapRepair
  import opened MapInsert
  import opened MapDelete
  import opened MapOrder
  import opened MapIter

  /** The pointer word that a `Node**` designates. */
  datatype Slot = AtRoot | LeftOf(n: Node) | RightOf(n: Node)

  ghost function SlotOf(c: Ctx<Node>): Slot {
    if c.Top? then AtRoot else if c.isLeft then LeftOf(c.n) else RightOf(c.n)
  }

  class Map {
    var root: Node?
    ghost var tree: Tree<Node>
    ghost var repr: set<Node>

    ghost predicate Linked()
      reads this, repr
    {
      repr == Nodes(tree) && root == Root(tree) && WellFormed(Snapshot(repr), tree)
    }

    constructor ()
      ensures Valid() && Contents() == map[] && repr == {}
    {
      root, tree, repr := null, Nil, {};
    }

    /** Redirects the word of `p` (or the root) that points to `a` to `top`. */
    method Attach(a: Node, top: Node, p: Node?, ghost ns: set<Node>)
      requires top in ns && (p != null ==> p in ns && p != top)
      modifies this`root, {top}`parent, NodeSet(p)`left, NodeSet(p)`right
      ensures Attached(old(Snapshot(ns)), Snapshot(ns), a, top, p)
      ensures root == if p == null then top else old(root)
    {
      top.parent := p;
      if p != null {
        if a == p.left {
          p.left := top;
        } else {
          p.right := top;
        }
      } else {
        root := top;
      }
    }

    /** Writes the pointer word `slot`. */
    method SetSlot(slot: Slot, node: Node?)
      modifies this`root, (if slot.LeftOf? then {slot.n} else {})`left, (if slot.RightOf? then {slot.n} else {})`right
      ensures slot.AtRoot? ==> root == node
      ensures !slot.AtRoot? ==> root == old(root)
      ensures slot.LeftOf? ==> slot.n.left == node
      ensures slot.RightOf? ==> slot.n.right == node
    {
      match slot
      case AtRoot => root := node;
      case LeftOf(n) => n.left := node;
      case RightOf(n) => n.right := node;
    }

    /** Sets the parent word of the new leaf and the pointer word that leads to it. */
    method Hang(node: Node, parent: Node?, slot: Slot, ghost c: Ctx<Node>, ghost ns: set<Node>)
      requires parent == UpNode(c, null) && slot == SlotOf(c)
      requires node in ns && node.left == null && node.right == null && node.bf == 0
      requires parent != null ==> parent in ns && parent != node
      modifies this`root, {node}`parent, NodeSet(parent)`left, NodeSet(parent)`right
      ensures Hung(old(Snapshot(ns)), Snapshot(ns), c, node)
      ensures root == if c.Top? then node else old(root)
    {
      node.parent := parent;
      SetSlot(slot, node);
    }

    /** The first two lines of `insert_priv`: the new leaf is in place, the balance factors above it are still old. */
    method Plant(node: Node, parent: Node?, slot: Slot, ghost c: Ctx<Node>, ghost ns: set<Node>)
      requires Linked() && tree == Zip(c, Nil) && parent == UpNode(c, null) && slot == SlotOf(c)
      requires node !in repr && node.left == null && node.right == null && node.bf == 0
      requires ns == repr + {node}
      modifies this`root, ns
      ensures Growing(Snapshot(ns), c, Br(Nil, node, Nil), 0) && root == TopNode(c, node)
    {
      ghost var m := Snapshot(ns);
      HoleReady(Snapshot(repr), m, c);
      Hang(node, parent, slot, c, ns);
      Planted(m, Snapshot(ns), c, node);
    }

    /** Rotates at `a`, whose child `n` on the grown side is now two levels too deep, and hangs the result back in. */
    method GrowRotate(a: Node, n: Node, ghost ns: set<Node>, ghost c: Ctx<Node>, ghost t: Tree<Node>, ghost h: nat)
      returns (ghost t': Tree<Node>)
      requires Growing(Snapshot(ns), c, t, h) && !c.Top? && a == c.n && n == t.n && h == Height(c.sib) + 1
      requires root == TopNode(c, n) && CtxNodes(c.up) <= ns
      modifies this`root, ns
      ensures Settled(Snapshot(ns), c.up, t') && Inorder(t') == Inorder(Fill(c, t)) && Nodes(t') == Nodes(Fill(c, t))
      ensures root == TopNode(c.up, Root(t'))
    {
      ghost var m := Snapshot(ns);
      GrowHeavy(m, c, t, h);
      var parentSave := a.parent;
      var top;
      top, t' := Lift(a, n, ns, c, t);
      ghost var m1 := Snapshot(ns);
      Attach(a, top, parentSave, ns);
      GrowRotated(m, m1, Snapshot(ns), c, t, h, t');
    }

    /** One turn of the loop in `insert_priv`: the subtree at `n` has grown, `a` is its parent. */
    method GrowStep(a: Node, n: Node, ghost ns: set<Node>, ghost c: Ctx<Node>, ghost t: Tree<Node>, ghost h: nat)
      returns (done: bool, ghost t': Tree<Node>, ghost rotations: nat)
      requires Growing(Snapshot(ns), c, t, h) && !c.Top? && a == c.n && n == t.n
      requires root == TopNode(c, n) && CtxNodes(c.up) <= ns
      modifies this`root, ns
      ensures done ==> Settled(Snapshot(ns), c.up, t')
      ensures done ==> Inorder(t') == Inorder(Fill(c, t)) && Nodes(t') == Nodes(Fill(c, t))
      ensures !done ==> Growing(Snapshot(ns), c.up, t', h + 1) && t' == Fill(c, t) && rotations == 0
      ensures root == TopNode(c.up, Root(t')) && rotations <= 1
    {
      ghost var m := Snapshot(ns);
      GrowCases(m, c, t, h);
      rotations, t' := 0, Fill(c, t);
      if n == a.right {
        if a.bf <= 0 {
          if a.bf < 0 {
            a.bf := 0;
            GrowAbsorbed(m, Snapshot(ns), c, t, h);
            return true, t', 0;
          }
          a.bf := 1;
          GrowClimbs(m, Snapshot(ns), c, t, h, 1);
          return false, t', 0;
        }
      } else {
        if a.bf >= 0 {
          if a.bf > 0 {
            a.bf := 0;
            GrowAbsorbed(m, Snapshot(ns), c, t, h);
            return true, t', 0;
          }
          a.bf := -1;
          GrowClimbs(m, Snapshot(ns), c, t, h, -1);
          return false, t', 0;
        }
      }
      t' := GrowRotate(a, n, ns, c, t, h);
      return true, t', 1;
    }

    /** The upward loop of `insert_priv`, from the new leaf `node` below `parent`. */
    method GrowWalk(node: Node, parent: Node?, ghost ns: set<Node>, ghost c: Ctx<Node>)
      returns (ghost t': Tree<Node>, ghost rotations: nat)
      requires Growing(Snapshot(ns), c, Br(Nil, node, Nil), 0) && parent == UpNode(c, null) && root == TopNode(c, node)
      requires Nodes(Zip(c, Br(Nil, node, Nil))) == ns
      modifies this`root, ns
      ensures WellFormed(Snapshot(ns), t') && root == Root(t') && Nodes(t') == ns
      ensures Inorder(t') == Inorder(Zip(c, Br(Nil, node, Nil))) && rotations <= 1
    {
      ghost var ctx, t, h := c, Br(Nil, node, Nil), 0;
      ghost var goal := Zip(ctx, t);
      var n, a := node, parent;
      rotations := 0;
      while a != null
        invariant a == UpNode(ctx, null) && n == Root(t) && root == TopNode(ctx, n)
        invariant Growing(Snapshot(ns), ctx, t, h) && Zip(ctx, t) == goal && rotations == 0
        decreases ctx
      {
        ZipNodes(ctx, t);
        var done;
        done, t', rotations := GrowStep(a, n, ns, ctx, t, h);
        if done {
          ZipSame(ctx.up, Fill(ctx, t), t');
          ZipRoot(ctx.up, t');
          SettledIsWellFormed(Snapshot(ns), ctx.up, t');
          t' := Zip(ctx.up, t');
          return;
        }
        ctx, t, h := ctx.up, t', h + 1;
        n, a := a, a.parent;
      }
      SettledIsWellFormed(Snapshot(ns), ctx, t);
      return t, 0;
    }

    /**
      * `insert_priv`: hangs the unlinked `node` into the empty hole of `c` and restores balance on the way up.
      * `rotations` counts single and double rotations.
      */
    method InsertPriv(node: Node, parent: Node?, slot: Slot, ghost c: Ctx<Node>) returns (ghost rotations: nat)
      requires Linked() && tree == Zip(c, Nil) && parent == UpNode(c, null) && slot == SlotOf(c)
      requires node !in repr && node.left == null && node.right == null && node.bf == 0
      modifies this, repr, node
      ensures Linked() && repr == old(repr) + {node}
      ensures Inorder(tree) == Before(c) + [node] + After(c)
      ensures rotations <= 1
    {
      ghost var ns := repr + {node};
      Plant(node, parent, slot, c, ns);
      ZipLeaf(c, node);
      tree, rotations := GrowWalk(node, parent, ns, c);
      repr := ns;
    }

    /** Rotates at `a`, whose sibling side is now two levels too deep, and hangs the result back in. */
    method ShrinkRotate(a: Node, onLeft: bool, ghost ns: set<Node>, ghost c: Ctx<Node>, ghost t: Tree<Node>)
      returns (done: bool, top: Node, ghost t': Tree<Node>)
      requires Shrinking(Snapshot(ns), c, t) && !c.Top? && a == c.n && onLeft == c.isLeft
               && Height(c.sib) == Height(t) + 2
      requires root == TopNode(c, Root(t)) && CtxNodes(c.up) <= ns
      modifies this`root, ns
      ensures if done then Settled(Snapshot(ns), c.up, t') else Shrinking(Snapshot(ns), c.up, t')
      ensures t'.Br? && top == t'.n && Inorder(t') == Inorder(Fill(c, t)) && Nodes(t') == Nodes(Fill(c, t))
      ensures root == TopNode(c.up, top)
    {
      ghost var m := Snapshot(ns);
      ShrinkCases(m, c, t);
      var parentSave := a.parent;
      done, top, t' := LiftSibling(a, onLeft, ns, c, t);
      ghost var m1 := Snapshot(ns);
      Attach(a, top, parentSave, ns);
      ShrinkFinished(m, m1, Snapshot(ns), c, t, t', done);
    }

    /**
      * One turn of the loop in `delete_priv`: the subtree in the hole of `c` has lost a level, `a` is the node above.
      */
    method ShrinkStep(a: Node, n0: Node?, isLeft: bool, isRight: bool, ghost ns: set<Node>, ghost c: Ctx<Node>,
                      ghost t: Tree<Node>)
      returns (done: bool, top: Node, ghost t': Tree<Node>)
      requires Shrinking(Snapshot(ns), c, t) && !c.Top? && a == c.n && SideKnown(c, t, n0, isLeft, isRight)
      requires root == TopNode(c, Root(t)) && CtxNodes(c.up) <= ns
      modifies this`root, ns
      ensures if done then Settled(Snapshot(ns), c.up, t') else Shrinking(Snapshot(ns), c.up, t')
      ensures t'.Br? && top == t'.n && Inorder(t') == Inorder(Fill(c, t)) && Nodes(t') == Nodes(Fill(c, t))
      ensures root == TopNode(c.up, top)
    {
      ghost var m := Snapshot(ns);
      ShrinkCases(m, c, t);
      top, t' := a, Fill(c, t);
      var onLeft := isLeft || (!isRight && n0 == a.left);
      if onLeft {
        if a.bf <= 0 {
          if a.bf < 0 {
            a.bf := 0;
            ShrinkClimbs(m, Snapshot(ns), c, t);
            return false, top, t';
          }
          a.bf := 1;
          ShrinkAbsorbed(m, Snapshot(ns), c, t, 1);
          return true, top, t';
        }
      } else {
        if a.bf >= 0 {
          if a.bf > 0 {
            a.bf := 0;
            ShrinkClimbs(m, Snapshot(ns), c, t);
            return false, top, t';
          }
          a.bf := -1;
          ShrinkAbsorbed(m, Snapshot(ns), c, t, -1);
          return true, top, t';
        }
      }
      done, top, t' := ShrinkRotate(a, onLeft, ns, c, t);
    }

    /** The upward loop of `delete_priv`. The side flags serve the first turn, where the hole may be empty. */
    method ShrinkWalk(start: Node?, child: Node?, fromLeft: bool, fromRight: bool,
                      ghost ns: set<Node>, ghost c: Ctx<Node>, ghost t: Tree<Node>)
      returns (ghost t': Tree<Node>)
      requires Shrinking(Snapshot(ns), c, t) && start == UpNode(c, null) && SideKnown(c, t, child, fromLeft, fromRight)
      requires root == TopNode(c, Root(t)) && Nodes(Zip(c, t)) <= ns
      modifies this`root, ns
      ensures WellFormed(Snapshot(ns), t') && root == Root(t')
      ensures Nodes(t') == Nodes(Zip(c, t)) && Inorder(t') == Inorder(Zip(c, t))
    {
      ghost var ctx, s, goal := c, t, Zip(c, t);
      var a, n0, isLeft, isRight := start, child, fromLeft, fromRight;
      while a != null
        invariant a == UpNode(ctx, null) && Shrinking(Snapshot(ns), ctx, s) && SideKnown(ctx, s, n0, isLeft, isRight)
        invariant root == TopNode(ctx, Root(s))
        invariant Inorder(Zip(ctx, s)) == Inorder(goal) && Nodes(Zip(ctx, s)) == Nodes(goal)
        decreases ctx
      {
        var parentSave := a.parent;
        ZipNodes(ctx, s);
        ShrinkCases(Snapshot(ns), ctx, s);
        var done;
        done, n0, t' := ShrinkStep(a, n0, isLeft, isRight, ns, ctx, s);
        ZipSame(ctx.up, Fill(ctx, s), t');
        ctx, s := ctx.up, t';
        if done {
          break;
        }
        isLeft, isRight := false, false;
        a := parentSave;
      }
      SettledIsWellFormed(Snapshot(ns), ctx, s);
      ZipRoot(ctx, s);
      t' := Zip(ctx, s);
    }

    /** Puts the replacement `mom` into the slot of the deleted node. */
    method Seat(mom: Node, parent: Node?, slot: Slot, ghost c: Ctx<Node>, ghost ns: set<Node>)
      requires mom in ns && parent == UpNode(c, null) && slot == SlotOf(c)
               && (parent != null ==> parent in ns && parent != mom)
      modifies this`root, {mom}`parent, NodeSet(parent)`left, NodeSet(parent)`right
      ensures Seated(old(Snapshot(ns)), Snapshot(ns), c, mom)
      ensures root == if c.Top? then mom else old(root)
    {
      SetSlot(slot, mom);
      mom.parent := parent;
    }

    /** The pointer writes of `delete_priv` for a predecessor `mom` that is not the left child of `curr`. */
    method MovePredecessor(curr: Node, mom: Node, ghost ns: set<Node>)
      returns (a: Node, n0: Node?, isRight: bool)
      requires curr.left != null && curr.right != null && mom.parent != null
      requires {curr, mom, curr.left, curr.right, mom.parent} + NodeSet(mom.left) <= ns
      requires mom !in {curr, curr.left, curr.right, mom.parent} && curr.right != curr.left
               && curr !in {curr.left, curr.right}
      requires mom.parent !in {curr, curr.right} && mom.left !in {curr, mom, curr.left, curr.right, mom.parent}
      modifies ns
      ensures a == old(mom.parent) && n0 == old(mom.left) && isRight == (n0 == null)
      ensures Moved(old(Snapshot(ns)), Snapshot(ns), true, curr, mom, a)
    {
      isRight := false;
      mom.right := curr.right;
      mom.right.parent := mom;
      mom.bf := curr.bf;
      n0 := mom.left;
      mom.parent.right := n0;
      a := mom.parent;
      if n0 != null {
        n0.parent := a;
      } else {
        isRight := true;
      }
      mom.left := curr.left;
      mom.left.parent := mom;
    }

    /** The same when `mom` is the left child of `curr`. */
    method LiftPredecessor(curr: Node, mom: Node, ghost ns: set<Node>)
      requires curr.right != null && {curr, mom, curr.right} <= ns && mom !in {curr, curr.right} && curr != curr.right
      modifies ns
      ensures MovedUp(old(Snapshot(ns)), Snapshot(ns), true, curr, mom)
    {
      mom.right := curr.right;
      mom.right.parent := mom;
      mom.bf := curr.bf;
    }

    /** Moving the predecessor, then seating it; `m1` is the state in between. */
    method MoveAndSeatPredecessor(curr: Node, mom: Node, slot: Slot, parent: Node?, ghost c: Ctx<Node>,
                                  ghost ns: set<Node>)
      returns (a: Node, n0: Node?, isRight: bool, ghost m1: Store)
      requires curr.left != null && curr.right != null && mom.parent != null
      requires {curr, mom, curr.left, curr.right, mom.parent} + NodeSet(mom.left) <= ns
      requires mom !in {curr, curr.left, curr.right, mom.parent} && curr.right != curr.left
               && curr !in {curr.left, curr.right}
      requires mom.parent !in {curr, curr.right} && mom.left !in {curr, mom, curr.left, curr.right, mom.parent}
      requires parent == UpNode(c, null) && slot == SlotOf(c) && (parent != null ==> parent in ns && parent != mom)
      modifies this`root, ns
      ensures a == old(mom.parent) && n0 == old(mom.left) && isRight == (n0 == null) && m1.Keys == ns
      ensures Moved(old(Snapshot(ns)), m1, true, curr, mom, a) && Seated(m1, Snapshot(ns), c, mom)
      ensures root == if c.Top? then mom else old(root)
    {
      a, n0, isRight := MovePredecessor(curr, mom, ns);
      m1 := Snapshot(ns);
      Seat(mom, parent, slot, c, ns);
    }

    /** The branch of `delete_priv` for a predecessor further down. */
    method SwapFarPredecessor(curr: Node, mom: Node, slot: Slot, parent: Node?, ghost ns: set<Node>,
                              ghost c: Ctx<Node>, ghost r: Tree<Node>, ghost p: Ctx<Node>, ghost sub: Tree<Node>)
      returns (a: Node, n0: Node?, isRight: bool)
      requires TwoChildren(Snapshot(ns), c, true, curr, r, p, mom, sub) && !p.Top?
      requires parent == UpNode(c, null) && slot == SlotOf(c)
      modifies this`root, ns
      ensures Substituted(old(Snapshot(ns)), Snapshot(ns), c, true, curr, r, p, mom, sub)
      ensures a == p.n && n0 == Root(sub) && isRight == sub.Nil?
      ensures root == if c.Top? then mom else old(root)
    {
      ghost var m, m1 := Snapshot(ns), map[];
      TwoChildrenApart(m, c, true, curr, r, p, mom, sub);
      a, n0, isRight, m1 := MoveAndSeatPredecessor(curr, mom, slot, parent, c, ns);
      MovedSubstitutes(m, m1, Snapshot(ns), c, true, curr, r, p, mom, sub);
    }

    /** The branch of `delete_priv` for a predecessor that is the left child. */
    method SwapNearPredecessor(curr: Node, mom: Node, slot: Slot, parent: Node?, ghost ns: set<Node>,
                               ghost c: Ctx<Node>, ghost r: Tree<Node>, ghost sub: Tree<Node>)
      returns (a: Node, n0: Node?)
      requires TwoChildren(Snapshot(ns), c, true, curr, r, Top, mom, sub)
      requires parent == UpNode(c, null) && slot == SlotOf(c)
      modifies this`root, ns
      ensures Substituted(old(Snapshot(ns)), Snapshot(ns), c, true, curr, r, Top, mom, sub)
      ensures a == mom && n0 == Root(sub)
      ensures root == if c.Top? then mom else old(root)
    {
      ghost var m := Snapshot(ns);
      TwoChildrenApart(m, c, true, curr, r, Top, mom, sub);
      LiftPredecessor(curr, mom, ns);
      ghost var m1 := Snapshot(ns);
      a, n0 := mom, mom.left;
      Seat(mom, parent, slot, c, ns);
      MovedUpSubstitutes(m, m1, Snapshot(ns), c, true, curr, r, Top, mom, sub);
    }

    /** `delete_priv` for two children and a node that does not lean right: the predecessor takes its place. */
    method TakePredecessor(curr: Node, slot: Slot, parent: Node?, ghost ns: set<Node>,
                           ghost c: Ctx<Node>, ghost l: Tree<Node>, ghost r: Tree<Node>)
      returns (a: Node, n0: Node?, isLeft: bool, isRight: bool, ghost ctx: Ctx<Node>, ghost t: Tree<Node>)
      requires WellFormed(Snapshot(ns), Zip(c, Br(l, curr, r))) && l.Br? && r.Br? && root == TopNode(c, curr)
      requires curr in ns && curr.left == l.n && Shape(Snapshot(ns), l, curr)
      requires parent == UpNode(c, null) && slot == SlotOf(c)
      modifies this`root, ns
      ensures Shrinking(Snapshot(ns), ctx, t) && a == UpNode(ctx, null) && SideKnown(ctx, t, n0, isLeft, isRight)
      ensures root == TopNode(ctx, Root(t))
      ensures Inorder(Zip(ctx, t)) == Before(c) + (Inorder(l) + Inorder(r)) + After(c)
      ensures Nodes(Zip(ctx, t)) == Nodes(Zip(c, Br(l, curr, r))) - {curr}
    {
      ghost var m := Snapshot(ns);
      var mom;
      ghost var p, sub;
      mom, p, sub := FindRightmost(curr.left, ns, l, curr);
      SettledTwoChildren(m, c, true, curr, r, p, mom, sub);
      TwoChildrenApart(m, c, true, curr, r, p, mom, sub);
      isLeft, isRight := false, false;
      if mom.parent != curr {
        a, n0, isRight := SwapFarPredecessor(curr, mom, slot, parent, ns, c, r, p, sub);
      } else {
        isLeft := true;
        a, n0 := SwapNearPredecessor(curr, mom, slot, parent, ns, c, r, sub);
      }
      SubstitutedShrinks(m, Snapshot(ns), c, true, curr, r, p, mom, sub);
      ctx, t := OldCtx(c, true, mom, r, p), sub;
      SubstituteOrder(c, true, r, p, mom, sub);
      SubstituteNodes(c, true, curr, r, p, mom, sub);
      ComposeTop(p, In(true, mom, r, c), Root(sub), null);
    }

    /** The pointer writes of `delete_priv` for a successor `mom` that is not the right child of `curr`. */
    method MoveSuccessor(curr: Node, mom: Node, ghost ns: set<Node>)
      returns (a: Node, n0: Node?, isLeft: bool)
      requires curr.left != null && curr.right != null && mom.parent != null
      requires {curr, mom, curr.right, curr.left, mom.parent} + NodeSet(mom.right) <= ns
      requires mom !in {curr, curr.right, curr.left, mom.parent} && curr.left != curr.right
               && curr !in {curr.right, curr.left}
      requires mom.parent !in {curr, curr.left} && mom.right !in {curr, mom, curr.right, curr.left, mom.parent}
      modifies ns
      ensures a == old(mom.parent) && n0 == old(mom.right) && isLeft == (n0 == null)
      ensures Moved(old(Snapshot(ns)), Snapshot(ns), false, curr, mom, a)
    {
      isLeft := false;
      mom.left := curr.left;
      mom.left.parent := mom;
      mom.bf := curr.bf;
      n0 := mom.right;
      mom.parent.left := n0;
      a := mom.parent;
      if n0 != null {
        n0.parent := a;
      } else {
        isLeft := true;
      }
      mom.right := curr.right;
      mom.right.parent := mom;
    }

    /** The same when `mom` is the right child of `curr`. */
    method LiftSuccessor(curr: Node, mom: Node, ghost ns: set<Node>)
      requires curr.left != null && {curr, mom, curr.left} <= ns && mom !in {curr, curr.left} && curr != curr.left
      modifies ns
      ensures MovedUp(old(Snapshot(ns)), Snapshot(ns), false, curr, mom)
    {
      mom.left := curr.left;
      mom.left.parent := mom;
      mom.bf := curr.bf;
    }

    /** Moving the successor, then seating it; `m1` is the state in between. */
    method MoveAndSeatSuccessor(curr: Node, mom: Node, slot: Slot, parent: Node?, ghost c: Ctx<Node>,
                                ghost ns: set<Node>)
      returns (a: Node, n0: Node?, isLeft: bool, ghost m1: Store)
      requires curr.left != null && curr.right != null && mom.parent != null
      requires {curr, mom, curr.right, curr.left, mom.parent} + NodeSet(mom.right) <= ns
      requires mom !in {curr, curr.right, curr.left, mom.parent} && curr.left != curr.right
               && curr !in {curr.right, curr.left}
      requires mom.parent !in {curr, curr.left} && mom.right !in {curr, mom, curr.right, curr.left, mom.parent}
      requires parent == UpNode(c, null) && slot == SlotOf(c) && (parent != null ==> parent in ns && parent != mom)
      modifies this`root, ns
      ensures a == old(mom.parent) && n0 == old(mom.right) && isLeft == (n0 == null) && m1.Keys == ns
      ensures Moved(old(Snapshot(ns)), m1, false, curr, mom, a) && Seated(m1, Snapshot(ns), c, mom)
      ensures root == if c.Top? then mom else old(root)
    {
      a, n0, isLeft := MoveSuccessor(curr, mom, ns);
      m1 := Snapshot(ns);
      Seat(mom, parent, slot, c, ns);
    }

    /** The branch of `delete_priv` for a successor further down. */
    method SwapFarSuccessor(curr: Node, mom: Node, slot: Slot, parent: Node?, ghost ns: set<Node>,
                              ghost c: Ctx<Node>, ghost l: Tree<Node>, ghost p: Ctx<Node>, ghost sub: Tree<Node>)
      returns (a: Node, n0: Node?, isLeft: bool)
      requires TwoChildren(Snapshot(ns), c, false, curr, l, p, mom, sub) && !p.Top?
      requires parent == UpNode(c, null) && slot == SlotOf(c)
      modifies this`root, ns
      ensures Substituted(old(Snapshot(ns)), Snapshot(ns), c, false, curr, l, p, mom, sub)
      ensures a == p.n && n0 == Root(sub) && isLeft == sub.Nil?
      ensures root == if c.Top? then mom else old(root)
    {
      ghost var m, m1 := Snapshot(ns), map[];
      TwoChildrenApart(m, c, false, curr, l, p, mom, sub);
      a, n0, isLeft, m1 := MoveAndSeatSuccessor(curr, mom, slot, parent, c, ns);
      MovedSubstitutes(m, m1, Snapshot(ns), c, false, curr, l, p, mom, sub);
    }

    /** The branch of `delete_priv` for a successor that is the right child. */
    method SwapNearSuccessor(curr: Node, mom: Node, slot: Slot, parent: Node?, ghost ns: set<Node>,
                               ghost c: Ctx<Node>, ghost l: Tree<Node>, ghost sub: Tree<Node>)
      returns (a: Node, n0: Node?)
      requires TwoChildren(Snapshot(ns), c, false, curr, l, Top, mom, sub)
      requires parent == UpNode(c, null) && slot == SlotOf(c)
      modifies this`root, ns
      ensures Substituted(old(Snapshot(ns)), Snapshot(ns), c, false, curr, l, Top, mom, sub)
      ensures a == mom && n0 == Root(sub)
      ensures root == if c.Top? then mom else old(root)
    {
      ghost var m := Snapshot(ns);
      TwoChildrenApart(m, c, false, curr, l, Top, mom, sub);
      LiftSuccessor(curr, mom, ns);
      ghost var m1 := Snapshot(ns);
      a, n0 := mom, mom.right;
      Seat(mom, parent, slot, c, ns);
      MovedUpSubstitutes(m, m1, Snapshot(ns), c, false, curr, l, Top, mom, sub);
    }

    /** `delete_priv` for two children and a node that leans right: the successor takes its place. */
    method TakeSuccessor(curr: Node, slot: Slot, parent: Node?, ghost ns: set<Node>,
                           ghost c: Ctx<Node>, ghost l: Tree<Node>, ghost r: Tree<Node>)
      returns (a: Node, n0: Node?, isLeft: bool, isRight: bool, ghost ctx: Ctx<Node>, ghost t: Tree<Node>)
      requires WellFormed(Snapshot(ns), Zip(c, Br(l, curr, r))) && l.Br? && r.Br? && root == TopNode(c, curr)
      requires curr in ns && curr.right == r.n && Shape(Snapshot(ns), r, curr)
      requires parent == UpNode(c, null) && slot == SlotOf(c)
      modifies this`root, ns
      ensures Shrinking(Snapshot(ns), ctx, t) && a == UpNode(ctx, null) && SideKnown(ctx, t, n0, isLeft, isRight)
      ensures root == TopNode(ctx, Root(t))
      ensures Inorder(Zip(ctx, t)) == Before(c) + (Inorder(l) + Inorder(r)) + After(c)
      ensures Nodes(Zip(ctx, t)) == Nodes(Zip(c, Br(l, curr, r))) - {curr}
    {
      ghost var m := Snapshot(ns);
      var mom;
      ghost var p, sub;
      mom, p, sub := FindLeftmost(curr.right, ns, r, curr);
      SettledTwoChildren(m, c, false, curr, l, p, mom, sub);
      TwoChildrenApart(m, c, false, curr, l, p, mom, sub);
      isLeft, isRight := false, false;
      if mom.parent != curr {
        a, n0, isLeft := SwapFarSuccessor(curr, mom, slot, parent, ns, c, l, p, sub);
      } else {
        isRight := true;
        a, n0 := SwapNearSuccessor(curr, mom, slot, parent, ns, c, l, sub);
      }
      SubstitutedShrinks(m, Snapshot(ns), c, false, curr, l, p, mom, sub);
      ctx, t := OldCtx(c, false, mom, l, p), sub;
      SubstituteOrder(c, false, l, p, mom, sub);
      SubstituteNodes(c, false, curr, l, p, mom, sub);
      ComposeTop(p, In(false, mom, l, c), Root(sub), null);
    }

    /** `delete_priv` for at most one child: the child takes the place of `curr`. */
    method TakeChild(mom: Node?, slot: Slot, parent: Node?, ghost ns: set<Node>, ghost c: Ctx<Node>, ghost n: Node,
                     ghost t: Tree<Node>)
      requires OnlyChild(Snapshot(ns), c, n, t) && mom == Root(t) && parent == UpNode(c, null) && slot == SlotOf(c)
      modifies this`root, ns
      ensures Shrinking(Snapshot(ns), c, t)
      ensures root == if c.Top? then mom else old(root)
    {
      ghost var m := Snapshot(ns);
      SetSlot(slot, mom);
      if mom != null {
        mom.parent := parent;
      }
      SplicedShrinks(m, Snapshot(ns), c, n, t);
    }

    /** `delete_priv` up to the rebalancing loop: takes `curr` out of the tree and says where a level was lost. */
    method SpliceOut(curr: Node, ghost c: Ctx<Node>, ghost l: Tree<Node>, ghost r: Tree<Node>)
      returns (a: Node?, n0: Node?, isLeft: bool, isRight: bool, ghost ctx: Ctx<Node>, ghost t: Tree<Node>)
      requires Linked() && tree == Zip(c, Br(l, curr, r))
      modifies this`root, repr
      ensures Shrinking(Snapshot(repr), ctx, t) && a == UpNode(ctx, null) && SideKnown(ctx, t, n0, isLeft, isRight)
      ensures root == TopNode(ctx, Root(t))
      ensures Inorder(Zip(ctx, t)) == Before(c) + (Inorder(l) + Inorder(r)) + After(c)
      ensures Nodes(Zip(ctx, t)) == repr - {curr}
    {
      ghost var ns := repr;
      SettledIsWellFormed(Snapshot(ns), c, Br(l, curr, r));
      ZipRoot(c, Br(l, curr, r));
      var parent, newMom, twoChildren := curr.parent, null, false;
      isLeft, isRight := false, false;
      if curr.left != null {
        if curr.right != null {
          twoChildren := true;
        } else {
          newMom := curr.left;
        }
      } else if curr.right != null {
        newMom := curr.right;
      }
      var slot;
      if parent == null {
        slot := AtRoot;
      } else if curr == parent.right {
        slot := RightOf(parent);
        isRight := !twoChildren;
      } else {
        slot := LeftOf(parent);
        isLeft := !twoChildren;
      }
      if twoChildren {
        if curr.bf <= 0 {
          a, n0, isLeft, isRight, ctx, t := TakePredecessor(curr, slot, parent, ns, c, l, r);
        } else {
          a, n0, isLeft, isRight, ctx, t := TakeSuccessor(curr, slot, parent, ns, c, l, r);
        }
      } else {
        a, n0, ctx, t := parent, curr, c, if l.Nil? then r else l;
        SeenFromOnlyChild(Snapshot(ns), c, l, curr, r, t);
        TakeChild(newMom, slot, parent, ns, c, curr, t);
        OnlyChildOrder(c, l, curr, r, t);
      }
    }

    /** `delete_priv` without the bookkeeping of the shape. */
    method Unlink(curr: Node, ghost c: Ctx<Node>, ghost l: Tree<Node>, ghost r: Tree<Node>)
      returns (ghost t': Tree<Node>)
      requires Linked() && tree == Zip(c, Br(l, curr, r))
      modifies this`root, repr
      ensures WellFormed(Snapshot(repr), t') && root == Root(t') && Nodes(t') == repr - {curr}
      ensures Inorder(t') == Before(c) + (Inorder(l) + Inorder(r)) + After(c)
    {
      var a, n0, isLeft, isRight;
      ghost var ctx, t;
      a, n0, isLeft, isRight, ctx, t := SpliceOut(curr, c, l, r);
      t' := ShrinkWalk(a, n0, isLeft, isRight, repr, ctx, t);
    }

    /** `delete_priv`: afterwards `curr` is out of the tree and may be freed. */
    method DeletePriv(curr: Node, ghost c: Ctx<Node>, ghost l: Tree<Node>, ghost r: Tree<Node>)
      requires Linked() && tree == Zip(c, Br(l, curr, r))
      modifies this, repr
      ensures Linked() && repr == old(repr) - {curr}
      ensures Inorder(tree) == Before(c) + (Inorder(l) + Inorder(r)) + After(c)
    {
      ghost var ns := repr;
      ghost var t' := Unlink(curr, c, l, r);
      tree, repr := t', ns - {curr};
      WellFormedRestrict(Snapshot(ns), Snapshot(repr), t');
    }

    // ---------------------------------------------------------------- the map interface

    ghost predicate Valid()
      reads this, repr
    {
      Linked() && Sorted(Inorder(tree))
    }

    /** The finite map that the nodes stand for. */
    ghost function Contents(): map<Key, int>
      reads this
    {
      Entries(Inorder(tree))
    }

    /**
      * `string_find` and its numeric variants. The result is either the node with the key, or (with `isParent`) the
      * node below which the key belongs; `slot` is the pointer word that leads, or would lead, to the key.
      */
    method Find(key: Key)
      returns (node: Node?, isParent: bool, slot: Slot, inspected: nat, ghost c: Ctx<Node>, ghost t: Tree<Node>)
      requires Valid()
      ensures tree == Zip(c, t) && slot == SlotOf(c) && Brackets(c, key)
      ensures isParent ==> t == Nil && node == UpNode(c, null) && key !in Contents()
      ensures !isParent ==>
                t.Br? && node == t.n && node.key == key && key in Contents() && Contents()[key] == node.value
      ensures inspected <= Height(tree) && Pow2(inspected / 2) <= Size(tree) + 1
    {
      var curr, parent := root, null;
      slot, inspected, c, t := AtRoot, 0, Top, tree;
      ghost var m := Snapshot(repr);
      while curr != null
        invariant tree == Zip(c, t) && curr == Root(t) && parent == UpNode(c, null) && slot == SlotOf(c)
        invariant Shape(m, t, parent) && Brackets(c, key)
        invariant inspected + Height(t) <= Height(tree)
        decreases t
      {
        inspected := inspected + 1;
        assert Shape(m, t.l, t.n) && Shape(m, t.r, t.n);
        var d := CompareKeys(key, curr.key);
        if d == Found {
          FocusedEntry(c, t);
          PathLogarithmic(tree, inspected);
          return curr, false, slot, inspected, c, t;
        }
        parent := curr;
        if d == Left {
          BracketsLeft(c, t, key);
          slot, curr := LeftOf(curr), curr.left;
          c := In(true, t.n, t.r, c);
          assert Brackets(c, key);
          t := t.l;
        } else {
          PrecedesTotal(key, curr.key);
          BracketsRight(c, t, key);
          slot, curr := RightOf(curr), curr.right;
          c := In(false, t.n, t.l, c);
          assert Brackets(c, key);
          t := t.r;
        }
      }
      BracketsAbsent(c, key);
      PathLogarithmic(tree, inspected);
      return parent, true, slot, inspected, c, t;
    }

    /** `string_get` and its numeric variants. */
    method Get(key: Key) returns (found: bool, value: int)
      requires Valid()
      ensures found == (key in Contents()) && (found ==> value == Contents()[key])
    {
      var node, isParent, slot, inspected;
      ghost var c, t;
      node, isParent, slot, inspected, c, t := Find(key);
      if isParent {
        return false, 0;
      }
      return true, node.value;
    }

    /**
      * `string_tag_insert` and its numeric variants, not replacing: a key that exists is reported by `existed`
      * (the C function stores -1 through `target`) and nothing changes.
      */
    method Insert(key: Key, value: int) returns (node: Node, existed: bool, ghost rotations: nat)
      requires Valid()
      modifies this, repr
      ensures Valid() && existed == (key in old(Contents())) && node in repr && node.key == key
      ensures existed ==> tree == old(tree) && Snapshot(repr) == old(Snapshot(repr))
      ensures !existed ==> fresh(node) && node.value == value && repr == old(repr) + {node}
      ensures !existed ==> Contents() == old(Contents())[key := value]
      ensures rotations <= 1
    {
      var found, isParent, slot, inspected;
      ghost var c, t;
      found, isParent, slot, inspected, c, t := Find(key);
      ZipNodes(c, t);
      if !isParent {
        return found, true, 0;
      }
      node := new Node(key, value);
      ZipLeaf(c, node);
      rotations := InsertPriv(node, found, slot, c);
      existed := false;
      SortedInsert(Before(c), node, After(c));
      EntriesInsert(Before(c), node, After(c));
    }

    /** `string_delete` and its numeric variants; `gone` is the node that is freed. */
    method Delete(key: Key) returns (deleted: bool, gone: Node?)
      requires Valid()
      modifies this, repr
      ensures Valid() && deleted == (key in old(Contents()))
      ensures !deleted ==> gone == null && tree == old(tree) && Snapshot(repr) == old(Snapshot(repr))
      ensures deleted ==> gone != null && gone.key == key && repr == old(repr) - {gone}
      ensures deleted ==> Contents() == old(Contents()) - {key}
    {
      var node, isParent, slot, inspected;
      ghost var c, t;
      node, isParent, slot, inspected, c, t := Find(key);
      if isParent {
        return false, null;
      }
      DeleteFound(node, c, t);
      return true, node;
    }

    /** The node that was found is unlinked. */
    method DeleteFound(node: Node, ghost c: Ctx<Node>, ghost t: Tree<Node>)
      requires Valid() && tree == Zip(c, t) && t.Br? && node == t.n
      modifies this, repr
      ensures Valid() && repr == old(repr) - {node}
      ensures Contents() == old(Contents()) - {node.key}
    {
      FocusedRemoved(c, t);
      DeletePriv(node, c, t.l, t.r);
    }
  }
}
