/**
  * Ghost shapes for the balanced map of clib/map.cc: binary trees, and one-hole contexts
  * ("everything above the hole") that describe the upward walks through parent pointers.
  */
module Trees {
  import opened Bits

  datatype Tree<T> = Nil | Br(l: Tree<T>, n: T, r: Tree<T>)

  /**
    * What surrounds a hole: the node just above it, whether the hole is that node's left child, the sibling subtree
    * on the other side, and what surrounds that node.
    */
  datatype Ctx<T> = Top | In(isLeft: bool, n: T, sib: Tree<T>, up: Ctx<T>)

  function Max(a: int, b: int): int {
    if a < b then b else a
  }

  function Height<T>(t: Tree<T>): nat {
    if t.Nil? then 0 else 1 + Max(Height(t.l), Height(t.r))
  }

  function Size<T>(t: Tree<T>): nat {
    if t.Nil? then 0 else Size(t.l) + 1 + Size(t.r)
  }

  function Inorder<T>(t: Tree<T>): seq<T> {
    if t.Nil? then [] else Inorder(t.l) + [t.n] + Inorder(t.r)
  }

  ghost function Nodes<T>(t: Tree<T>): set<T> {
    if t.Nil? then {} else Nodes(t.l) + {t.n} + Nodes(t.r)
  }

  /** No node occurs twice. */
  ghost predicate Distinct<T>(t: Tree<T>) {
    t.Br? ==> && Distinct(t.l) && Distinct(t.r)
              && t.n !in Nodes(t.l) && t.n !in Nodes(t.r) && Nodes(t.l) !! Nodes(t.r)
  }

  /** The AVL condition: sibling heights differ by at most one, everywhere. */
  predicate Balanced<T>(t: Tree<T>) {
    t.Br? ==> Balanced(t.l) && Balanced(t.r) && -1 <= Height(t.r) - Height(t.l) <= 1
  }

  // ---------------------------------------------------------------- contexts

  /** The subtree at the node just above the hole, with `t` in the hole. */
  function Fill<T>(c: Ctx<T>, t: Tree<T>): (r: Tree<T>)
    requires !c.Top?
    ensures Height(r) == Above(c, Height(t))
  {
    if c.isLeft then Br(t, c.n, c.sib) else Br(c.sib, c.n, t)
  }

  /** Height of the subtree at the node just above a hole of height `h`. */
  function Above<T>(c: Ctx<T>, h: nat): nat
    requires !c.Top?
  {
    1 + Max(h, Height(c.sib))
  }

  function Zip<T>(c: Ctx<T>, t: Tree<T>): Tree<T>
    decreases c
  {
    if c.Top? then t else Zip(c.up, Fill(c, t))
  }

  /** The context `p` continued by `up` above its top. */
  function Compose<T>(p: Ctx<T>, up: Ctx<T>): Ctx<T> {
    if p.Top? then up else In(p.isLeft, p.n, p.sib, Compose(p.up, up))
  }

  /** What comes before the hole in order, and what comes after it. */
  function Before<T>(c: Ctx<T>): seq<T> {
    if c.Top? then [] else if c.isLeft then Before(c.up) else Before(c.up) + (Inorder(c.sib) + [c.n])
  }

  function After<T>(c: Ctx<T>): seq<T> {
    if c.Top? then [] else if c.isLeft then ([c.n] + Inorder(c.sib)) + After(c.up) else After(c.up)
  }

  ghost function CtxNodes<T>(c: Ctx<T>): set<T> {
    if c.Top? then {} else {c.n} + Nodes(c.sib) + CtxNodes(c.up)
  }

  ghost predicate CtxDistinct<T>(c: Ctx<T>) {
    !c.Top? ==>
      && Distinct(c.sib) && c.n !in Nodes(c.sib)
      && c.n !in CtxNodes(c.up) && Nodes(c.sib) !! CtxNodes(c.up) && CtxDistinct(c.up)
  }

  /** The height of the tree around a hole of height `h`. */
  function UpHeight<T>(c: Ctx<T>, h: nat): nat
    decreases c
  {
    if c.Top? then h else UpHeight(c.up, Above(c, h))
  }

  /** The context is balanced when its hole holds a tree of height `h`. */
  predicate CtxBalanced<T>(c: Ctx<T>, h: nat)
    decreases c
  {
    !c.Top? ==> Balanced(c.sib) && -1 <= Height(c.sib) - h <= 1 && CtxBalanced(c.up, Above(c, h))
  }

  // ---------------------------------------------------------------- laws

  lemma {:induction false} ZipInorder<T>(c: Ctx<T>, t: Tree<T>)
    ensures Inorder(Zip(c, t)) == Before(c) + Inorder(t) + After(c)
    decreases c
  {
    if !c.Top? {
      ZipInorder(c.up, Fill(c, t));
      if c.isLeft {
        Regroup(Before(c.up), Inorder(t), [c.n] + Inorder(c.sib), After(c.up));
        assert Inorder(Fill(c, t)) == Inorder(t) + ([c.n] + Inorder(c.sib));
      } else {
        Regroup(Before(c.up), Inorder(c.sib) + [c.n], Inorder(t), After(c.up));
      }
    }
  }

  lemma Regroup<T>(a: seq<T>, b: seq<T>, c: seq<T>, d: seq<T>)
    ensures a + (b + c) + d == (a + b) + c + d == a + b + (c + d)
  {
  }

  /** In-order neighbourhood of the node in focus. */
  lemma ZipAround<T>(c: Ctx<T>, t: Tree<T>)
    requires t.Br?
    ensures Inorder(Zip(c, t)) == (Before(c) + Inorder(t.l)) + [t.n] + (Inorder(t.r) + After(c))
  {
    ZipInorder(c, t);
    RegroupAround(Before(c), Inorder(t.l), [t.n], Inorder(t.r), After(c));
  }

  lemma RegroupGap<T>(b: seq<T>, l: seq<T>, r: seq<T>, a: seq<T>)
    ensures b + (l + r) + a == (b + l) + (r + a)
  {
  }

  lemma RegroupAround<T>(b: seq<T>, l: seq<T>, n: seq<T>, r: seq<T>, a: seq<T>)
    ensures b + (l + n + r) + a == (b + l) + n + (r + a)
  {
  }

  lemma ZipLeaf<T>(c: Ctx<T>, n: T)
    ensures Inorder(Zip(c, Br(Nil, n, Nil))) == Before(c) + [n] + After(c)
    ensures Inorder(Zip(c, Nil)) == Before(c) + After(c)
    ensures Nodes(Zip(c, Br(Nil, n, Nil))) == CtxNodes(c) + {n} && Nodes(Zip(c, Nil)) == CtxNodes(c)
  {
    assert Inorder(Br(Nil, n, Nil)) == [n];
    ZipInorder(c, Br(Nil, n, Nil));
    ZipInorder(c, Nil);
    ZipNodes(c, Br(Nil, n, Nil));
    ZipNodes(c, Nil);
  }

  lemma {:induction false} ZipNodes<T>(c: Ctx<T>, t: Tree<T>)
    ensures Nodes(Zip(c, t)) == CtxNodes(c) + Nodes(t)
    decreases c
  {
    if !c.Top? {
      ZipNodes(c.up, Fill(c, t));
    }
  }

  lemma {:induction false} ZipDistinct<T>(c: Ctx<T>, t: Tree<T>)
    ensures Distinct(Zip(c, t)) <==> CtxDistinct(c) && Distinct(t) && Nodes(t) !! CtxNodes(c)
    decreases c
  {
    if !c.Top? {
      ZipDistinct(c.up, Fill(c, t));
      assert Nodes(Fill(c, t)) == Nodes(t) + {c.n} + Nodes(c.sib);
    }
  }

  lemma {:induction false} ZipBalanced<T>(c: Ctx<T>, t: Tree<T>)
    ensures Balanced(Zip(c, t)) <==> CtxBalanced(c, Height(t)) && Balanced(t)
    decreases c
  {
    if !c.Top? {
      ZipBalanced(c.up, Fill(c, t));
    }
  }

  lemma {:induction false} ZipHeight<T>(c: Ctx<T>, t: Tree<T>)
    ensures Height(Zip(c, t)) == UpHeight(c, Height(t))
    decreases c
  {
    if !c.Top? {
      ZipHeight(c.up, Fill(c, t));
    }
  }

  lemma {:induction false} ComposeZip<T>(p: Ctx<T>, up: Ctx<T>, t: Tree<T>)
    ensures Zip(Compose(p, up), t) == Zip(up, Zip(p, t))
    decreases p
  {
    if !p.Top? {
      ComposeZip(p.up, up, Fill(p, t));
    }
  }

  lemma {:induction false} ComposeBalanced<T>(p: Ctx<T>, up: Ctx<T>, h: nat)
    ensures CtxBalanced(Compose(p, up), h) <==> CtxBalanced(p, h) && CtxBalanced(up, UpHeight(p, h))
    decreases p
  {
    if !p.Top? {
      ComposeBalanced(p.up, up, Above(p, h));
    }
  }

  lemma {:induction false} ComposeNodes<T>(p: Ctx<T>, up: Ctx<T>)
    ensures CtxNodes(Compose(p, up)) == CtxNodes(p) + CtxNodes(up)
  {
    if !p.Top? {
      ComposeNodes(p.up, up);
    }
  }

  lemma {:induction false} ComposeDistinct<T>(p: Ctx<T>, up: Ctx<T>)
    ensures CtxDistinct(Compose(p, up)) <==> CtxDistinct(p) && CtxDistinct(up) && CtxNodes(p) !! CtxNodes(up)
  {
    if !p.Top? {
      ComposeDistinct(p.up, up);
      ComposeNodes(p.up, up);
    }
  }

  lemma {:induction false} ComposeBeforeAfter<T>(p: Ctx<T>, up: Ctx<T>)
    ensures Before(Compose(p, up)) == Before(up) + Before(p)
    ensures After(Compose(p, up)) == After(p) + After(up)
  {
    if !p.Top? {
      ComposeBeforeAfter(p.up, up);
    }
  }

  lemma {:induction false} InorderNodes<T>(t: Tree<T>, x: T)
    ensures x in Inorder(t) <==> x in Nodes(t)
  {
    if t.Br? {
      InorderNodes(t.l, x);
      InorderNodes(t.r, x);
    }
  }

  lemma {:induction false} InorderLength<T>(t: Tree<T>)
    ensures |Inorder(t)| == Size(t)
  {
    if t.Br? {
      InorderLength(t.l);
      InorderLength(t.r);
    }
  }

  // ---------------------------------------------------------------- rotations keep order and nodes

  lemma TurnOrder<T>(x: Tree<T>, a: T, b: Tree<T>, c: T, y: Tree<T>)
    ensures Inorder(Br(Br(x, a, b), c, y)) == Inorder(Br(x, a, Br(b, c, y)))
  {
    var p, q, s := Inorder(x) + [a], Inorder(b) + [c], Inorder(y);
    assert Inorder(Br(x, a, Br(b, c, y))) == p + (q + s);
    assert Inorder(Br(Br(x, a, b), c, y)) == (p + q) + s;
  }

  lemma TurnSingle<T>(x: Tree<T>, a: T, b: Tree<T>, c: T, y: Tree<T>)
    ensures Inorder(Br(Br(x, a, b), c, y)) == Inorder(Br(x, a, Br(b, c, y)))
    ensures Nodes(Br(Br(x, a, b), c, y)) == Nodes(Br(x, a, Br(b, c, y)))
    ensures Distinct(Br(Br(x, a, b), c, y)) <==> Distinct(Br(x, a, Br(b, c, y)))
  {
    TurnOrder(x, a, b, c, y);
    assert Nodes(Br(x, a, b)) == Nodes(x) + {a} + Nodes(b);
    assert Nodes(Br(b, c, y)) == Nodes(b) + {c} + Nodes(y);
  }

  lemma TurnDouble<T>(x: Tree<T>, a: T, b: Tree<T>, c: T, d: Tree<T>, e: T, y: Tree<T>)
    ensures Inorder(Br(Br(x, a, b), c, Br(d, e, y))) == Inorder(Br(x, a, Br(Br(b, c, d), e, y)))
                                                     == Inorder(Br(Br(x, a, Br(b, c, d)), e, y))
    ensures Nodes(Br(Br(x, a, b), c, Br(d, e, y))) == Nodes(Br(x, a, Br(Br(b, c, d), e, y)))
                                                   == Nodes(Br(Br(x, a, Br(b, c, d)), e, y))
    ensures Distinct(Br(Br(x, a, b), c, Br(d, e, y))) <==> Distinct(Br(x, a, Br(Br(b, c, d), e, y)))
    ensures Distinct(Br(Br(x, a, b), c, Br(d, e, y))) <==> Distinct(Br(Br(x, a, Br(b, c, d)), e, y))
  {
    TurnSingle(b, c, d, e, y);
    TurnSingle(x, a, b, c, Br(d, e, y));
    TurnSingle(x, a, Br(b, c, d), e, y);
    assert Inorder(Br(x, a, Br(Br(b, c, d), e, y))) == Inorder(Br(x, a, Br(b, c, Br(d, e, y))));
    assert Nodes(Br(x, a, Br(Br(b, c, d), e, y))) == Nodes(Br(x, a, Br(b, c, Br(d, e, y))));
  }

  /** Where the node `x` sits: its two subtrees and everything above it. */
  ghost function Focus<T>(t: Tree<T>, x: T): (f: (Ctx<T>, Tree<T>, Tree<T>))
    requires x in Nodes(t)
    ensures Zip(f.0, Br(f.1, x, f.2)) == t
  {
    FocusUnder(Top, t, x)
  }

  ghost function FocusUnder<T>(c: Ctx<T>, t: Tree<T>, x: T): (f: (Ctx<T>, Tree<T>, Tree<T>))
    requires x in Nodes(t)
    ensures Zip(f.0, Br(f.1, x, f.2)) == Zip(c, t)
    decreases t
  {
    if t.n == x then (c, t.l, t.r)
    else if x in Nodes(t.l) then FocusUnder(In(true, t.n, t.r, c), t.l, x)
    else FocusUnder(In(false, t.n, t.l, c), t.r, x)
  }

  // ---------------------------------------------------------------- how few keys an AVL tree can hold

  function Fib(n: nat): nat {
    if n < 2 then n else Fib(n - 1) + Fib(n - 2)
  }

  /** A balanced tree of height h holds at least Fib(h + 2) - 1 keys. */
  lemma {:induction false} SizeAtLeastFib<T>(t: Tree<T>)
    requires Balanced(t)
    ensures Size(t) + 1 >= Fib(Height(t) + 2)
  {
    if t.Br? {
      SizeAtLeastFib(t.l);
      SizeAtLeastFib(t.r);
      FibStep(Height(t.l), Height(t.r));
    }
  }

  lemma FibStep(a: nat, b: nat)
    requires a <= b + 1 && b <= a + 1
    ensures Fib(a + 2) + Fib(b + 2) >= Fib(1 + Max(a, b) + 2)
  {
    var h := 1 + Max(a, b);
    FibMonotone(h, a + 2);
    FibMonotone(h, b + 2);
    assert Fib(h + 2) == Fib(h + 1) + Fib(h);
  }

  lemma {:induction false} FibMonotone(a: nat, b: nat)
    requires a <= b
    ensures Fib(a) <= Fib(b)
    decreases b
  {
    if a < b {
      FibMonotone(a, b - 1);
    }
  }

  lemma {:induction false} FibExponential(h: nat)
    ensures Fib(h + 2) >= Pow2(h / 2)
  {
    if h >= 2 {
      FibExponential(h - 2);
      assert Fib(h + 2) == Fib(h + 1) + Fib(h);
      assert Fib(h + 1) >= Fib(h) by { FibMonotone(h, h + 1); }
    }
  }

  /** A path of k nodes in a balanced tree has at least 2^(k/2) - 1 keys around it: searches are logarithmic. */
  lemma {:induction false} PathLogarithmic<T>(t: Tree<T>, k: nat)
    requires Balanced(t) && k <= Height(t)
    ensures Pow2(k / 2) <= Size(t) + 1
  {
    SizeAtLeastFib(t);
    FibExponential(Height(t));
    Pow2Monotone(k / 2, Height(t) / 2);
  }
}
