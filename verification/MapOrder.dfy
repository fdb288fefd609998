/** Search order and abstract contents of a map, as properties of the in-order node sequence. */
module MapOrder {
  import opened Trees
  import opened Keys
  import opened MapNodes

  ghost predicate Sorted(s: seq<Node>) {
    forall i, j | 0 <= i < j < |s| :: Precedes(s[i].key, s[j].key)
  }

  ghost predicate AllBefore(s: seq<Node>, key: Key) {
    forall n | n in s :: Precedes(n.key, key)
  }

  ghost predicate AllAfter(key: Key, s: seq<Node>) {
    forall n | n in s :: Precedes(key, n.key)
  }

  /** The finite map that a node sequence stands for. */
  ghost function Entries(s: seq<Node>): map<Key, int> {
    if s == [] then map[] else Entries(s[..|s| - 1])[s[|s| - 1].key := s[|s| - 1].value]
  }

  // ---------------------------------------------------------------- contents

  lemma {:induction false} EntriesAt(s: seq<Node>, k: Key)
    requires Sorted(s)
    ensures k in Entries(s) <==> exists i :: 0 <= i < |s| && s[i].key == k
    ensures forall i | 0 <= i < |s| :: s[i].key in Entries(s) && Entries(s)[s[i].key] == s[i].value
  {
    if s != [] {
      var front, last := s[..|s| - 1], s[|s| - 1];
      assert Sorted(front);
      EntriesAt(front, k);
      if k in Entries(s) && k != last.key {
        var i :| 0 <= i < |front| && front[i].key == k;
        assert s[i].key == k;
      }
      forall i | 0 <= i < |s| ensures s[i].key in Entries(s) && Entries(s)[s[i].key] == s[i].value {
        if i < |front| {
          EntriesAt(front, front[i].key);
          assert s[i] == front[i];
          assert Precedes(s[i].key, last.key);
          PrecedesIrreflexive(last.key);
        }
      }
    }
  }

  lemma SortedInsert(a: seq<Node>, n: Node, b: seq<Node>)
    requires Sorted(a + b) && AllBefore(a, n.key) && AllAfter(n.key, b)
    ensures Sorted(a + [n] + b)
  {
    var s := a + [n] + b;
    forall i, j | 0 <= i < j < |s| ensures Precedes(s[i].key, s[j].key) {
      var i', j' := if i <= |a| then i else i - 1, if j <= |a| then j else j - 1;
      if i == |a| {
        assert s[j] in b;
      } else if j == |a| {
        assert s[i] in a;
      } else {
        assert s[i] == (a + b)[i'] && s[j] == (a + b)[j'];
      }
    }
  }

  lemma SortedRemove(a: seq<Node>, n: Node, b: seq<Node>)
    requires Sorted(a + [n] + b)
    ensures Sorted(a + b) && AllBefore(a, n.key) && AllAfter(n.key, b)
  {
    var s, r := a + [n] + b, a + b;
    assert s[|a|] == n;
    forall i, j | 0 <= i < j < |r| ensures Precedes(r[i].key, r[j].key) {
      var i', j' := if i < |a| then i else i + 1, if j < |a| then j else j + 1;
      assert r[i] == s[i'] && r[j] == s[j'];
    }
    forall x | x in a ensures Precedes(x.key, n.key) {
      var i :| 0 <= i < |a| && a[i] == x;
      assert s[i] == x;
    }
    forall x | x in b ensures Precedes(n.key, x.key) {
      var i :| 0 <= i < |b| && b[i] == x;
      assert s[|a| + 1 + i] == x;
    }
  }

  /** One entry more: all other keys keep their values. */
  lemma EntriesInsert(a: seq<Node>, n: Node, b: seq<Node>)
    requires Sorted(a + [n] + b)
    ensures n.key !in Entries(a + b) && Entries(a + [n] + b) == Entries(a + b)[n.key := n.value]
  {
    var s, r := a + [n] + b, a + b;
    SortedRemove(a, n, b);
    EntriesAt(r, n.key);
    PrecedesIrreflexive(n.key);
    assert s[|a|] == n;
    EntriesAt(s, n.key);
    forall k ensures k in Entries(s) <==> k in Entries(r)[n.key := n.value] {
      EntriesAt(s, k);
      EntriesAt(r, k);
      SameKeys(a, n, b, k);
    }
    forall k | k in Entries(r) && k != n.key ensures Entries(s)[k] == Entries(r)[k] {
      EntriesAt(s, k);
      EntriesAt(r, k);
      var i :| 0 <= i < |r| && r[i].key == k;
      assert r[i] == s[if i < |a| then i else i + 1];
    }
  }

  lemma SameKeys(a: seq<Node>, n: Node, b: seq<Node>, k: Key)
    ensures (exists i :: 0 <= i < |a + [n] + b| && (a + [n] + b)[i].key == k)
       <==> k == n.key || (exists i :: 0 <= i < |a + b| && (a + b)[i].key == k)
  {
    var s, r := a + [n] + b, a + b;
    assert s[|a|] == n;
    if i :| 0 <= i < |s| && s[i].key == k {
      if i != |a| {
        assert s[i] == r[if i < |a| then i else i - 1];
      }
    }
    if i :| 0 <= i < |r| && r[i].key == k {
      assert r[i] == s[if i < |a| then i else i + 1];
    }
  }

  // ---------------------------------------------------------------- the search path

  /** `key` belongs into the hole of `c`. */
  ghost predicate Brackets(c: Ctx<Node>, key: Key) {
    AllBefore(Before(c), key) && AllAfter(key, After(c))
  }

  lemma BracketsRight(c: Ctx<Node>, t: Tree<Node>, key: Key)
    requires t.Br? && Sorted(Inorder(Zip(c, t))) && Brackets(c, key) && Precedes(t.n.key, key)
    ensures Brackets(In(false, t.n, t.l, c), key)
  {
    ZipAround(c, t);
    SortedRemove(Before(c) + Inorder(t.l), t.n, Inorder(t.r) + After(c));
    forall x | x in Inorder(t.l) + [t.n] ensures Precedes(x.key, key) {
      if x != t.n {
        assert x in Before(c) + Inorder(t.l);
        PrecedesTransitive(x.key, t.n.key, key);
      }
    }
  }

  lemma BracketsLeft(c: Ctx<Node>, t: Tree<Node>, key: Key)
    requires t.Br? && Sorted(Inorder(Zip(c, t))) && Brackets(c, key) && Precedes(key, t.n.key)
    ensures Brackets(In(true, t.n, t.r, c), key)
  {
    ZipAround(c, t);
    SortedRemove(Before(c) + Inorder(t.l), t.n, Inorder(t.r) + After(c));
    forall x | x in [t.n] + Inorder(t.r) ensures Precedes(key, x.key) {
      if x != t.n {
        assert x in Inorder(t.r) + After(c);
        PrecedesTransitive(key, t.n.key, x.key);
      }
    }
  }

  /** An empty hole on the search path: the key is nowhere. */
  lemma BracketsAbsent(c: Ctx<Node>, key: Key)
    requires Sorted(Inorder(Zip(c, Nil))) && Brackets(c, key)
    ensures key !in Entries(Inorder(Zip(c, Nil)))
  {
    var s := Inorder(Zip(c, Nil));
    ZipInorder(c, Nil);
    assert s == Before(c) + After(c);
    EntriesAt(s, key);
    PrecedesIrreflexive(key);
  }

  /** The node in focus is one of the entries. */
  lemma FocusedEntry(c: Ctx<Node>, t: Tree<Node>)
    requires t.Br? && Sorted(Inorder(Zip(c, t)))
    ensures t.n.key in Entries(Inorder(Zip(c, t))) && Entries(Inorder(Zip(c, t)))[t.n.key] == t.n.value
  {
    var s := Inorder(Zip(c, t));
    ZipAround(c, t);
    assert s[|Before(c) + Inorder(t.l)|] == t.n;
    EntriesAt(s, t.n.key);
  }

  /** What stays when a subtree's root is taken out is in order and has lost one entry. */
  lemma FocusedRemoved(c: Ctx<Node>, t: Tree<Node>)
    requires t.Br? && Sorted(Inorder(Zip(c, t)))
    ensures var rest := Before(c) + (Inorder(t.l) + Inorder(t.r)) + After(c);
            Sorted(rest) && Entries(rest) == Entries(Inorder(Zip(c, t))) - {t.n.key}
  {
    ZipAround(c, t);
    RegroupGap(Before(c), Inorder(t.l), Inorder(t.r), After(c));
    SortedRemove(Before(c) + Inorder(t.l), t.n, Inorder(t.r) + After(c));
    EntriesInsert(Before(c) + Inorder(t.l), t.n, Inorder(t.r) + After(c));
  }
}
