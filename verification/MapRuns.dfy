/** Whole runs of map operations from the empty map, against a plain finite map. */
module MapRuns {
  import opened Keys
  import opened Trees
  import opened MapNodes
  import opened MapOrder
  import opened MapIter
  import opened AvlMap

  datatype Op = Put(key: Key, value: int) | Remove(key: Key) | Lookup(key: Key)

  datatype Answer = Stored | Exists | Deleted(deleted: bool) | Missing | Value(value: int)

  /** A not-replacing dictionary. */
  function Step(m: map<Key, int>, op: Op): (map<Key, int>, Answer) {
    match op
    case Put(k, v) => if k in m then (m, Exists) else (m[k := v], Stored)
    case Remove(k) => (m - {k}, Deleted(k in m))
    case Lookup(k) => (m, if k in m then Value(m[k]) else Missing)
  }

  function After(ops: seq<Op>): map<Key, int> {
    if ops == [] then map[] else Step(After(ops[..|ops| - 1]), ops[|ops| - 1]).0
  }

  function Answers(ops: seq<Op>): seq<Answer> {
    if ops == [] then []
    else Answers(ops[..|ops| - 1]) + [Step(After(ops[..|ops| - 1]), ops[|ops| - 1]).1]
  }

  /** One operation on the linked tree does what the dictionary does. */
  method Perform(m: Map, op: Op) returns (answer: Answer)
    requires m.Valid()
    modifies m, m.repr
    ensures m.Valid() && fresh(m.repr - old(m.repr))
    ensures (m.Contents(), answer) == Step(old(m.Contents()), op)
  {
    ghost var was := m.Contents();
    match op
    case Put(k, v) =>
      var node, existed;
      ghost var rotations;
      node, existed, rotations := m.Insert(k, v);
      answer := if existed then Exists else Stored;
    case Remove(k) =>
      var deleted, gone := m.Delete(k);
      assert !deleted ==> was - {k} == was;
      answer := Deleted(deleted);
    case Lookup(k) =>
      var found, value := m.Get(k);
      answer := if found then Value(value) else Missing;
  }

  /** Every answer of the linked tree is the one of the dictionary, and the map stays valid. */
  method Run(ops: seq<Op>) returns (m: Map, answers: seq<Answer>)
    ensures fresh(m) && m.Valid() && m.Contents() == After(ops) && answers == Answers(ops)
  {
    m := new Map();
    answers := [];
    for i := 0 to |ops|
      invariant fresh(m) && fresh(m.repr) && m.Valid()
      invariant m.Contents() == After(ops[..i]) && answers == Answers(ops[..i])
    {
      assert ops[..i + 1][..i] == ops[..i];
      var answer := Perform(m, ops[i]);
      answers := answers + [answer];
    }
    assert ops[..|ops|] == ops;
  }

  /** The nodes hold exactly the entries of `m`. */
  ghost predicate Lists(visited: seq<Node>, m: map<Key, int>) {
    && (forall k :: k in m <==> exists n :: n in visited && n.key == k)
    && (forall n | n in visited :: n.key in m && m[n.key] == n.value)
  }

  /**
    * Going upwards through a map lists its entries; numbers come from the least to the greatest, and of two texts the
    * one that is smaller at the first difference comes first.
    */
  method Upwards(m: Map) returns (visited: seq<Node>)
    requires m.Valid()
    ensures Lists(visited, m.Contents())
    ensures (forall key | key in m.Contents() :: key.Num?) ==>
              forall i, j | 0 <= i < j < |visited| :: visited[i].key.n < visited[j].key.n
    ensures (forall key | key in m.Contents() :: key.Text?) ==>
              forall i, j | 0 <= i < j < |visited| :: Smaller(visited[i].key.s, visited[j].key.s)
  {
    visited := Ascending(m.root, m.repr, m.tree);
    ListsEntries(visited);
    Rising(visited, m.Contents());
  }

  /** Going downwards lists them the other way round. */
  method Downwards(m: Map) returns (visited: seq<Node>)
    requires m.Valid()
    ensures Lists(visited, m.Contents())
    ensures (forall key | key in m.Contents() :: key.Num?) ==>
              forall i, j | 0 <= i < j < |visited| :: visited[i].key.n > visited[j].key.n
    ensures (forall key | key in m.Contents() :: key.Text?) ==>
              forall i, j | 0 <= i < j < |visited| :: Smaller(visited[j].key.s, visited[i].key.s)
  {
    visited := Descending(m.root, m.repr, m.tree);
    ListsBackwards(Inorder(m.tree), visited);
    Falling(visited, m.Contents());
  }

  lemma ListsBackwards(s: seq<Node>, r: seq<Node>)
    requires Sorted(s) && |r| == |s| && forall i | 0 <= i < |r| :: r[i] == s[|r| - 1 - i]
    ensures Lists(r, Entries(s))
  {
    ListsEntries(s);
    SameMembers(s, r);
  }

  lemma Rising(s: seq<Node>, m: map<Key, int>)
    requires Lists(s, m) && forall i, j | 0 <= i < j < |s| :: KeysRise(s[i].key, s[j].key)
    ensures (forall key | key in m :: key.Num?) ==>
              forall i, j | 0 <= i < j < |s| :: s[i].key.n < s[j].key.n
    ensures (forall key | key in m :: key.Text?) ==>
              forall i, j | 0 <= i < j < |s| :: Smaller(s[i].key.s, s[j].key.s)
  {
    forall i, j | 0 <= i < j < |s|
      ensures s[i].key in m && s[j].key in m && KeysRise(s[i].key, s[j].key)
    {
      assert s[i] in s && s[j] in s;
    }
  }

  lemma Falling(s: seq<Node>, m: map<Key, int>)
    requires Lists(s, m) && forall i, j | 0 <= i < j < |s| :: KeysRise(s[j].key, s[i].key)
    ensures (forall key | key in m :: key.Num?) ==>
              forall i, j | 0 <= i < j < |s| :: s[i].key.n > s[j].key.n
    ensures (forall key | key in m :: key.Text?) ==>
              forall i, j | 0 <= i < j < |s| :: Smaller(s[j].key.s, s[i].key.s)
  {
    forall i, j | 0 <= i < j < |s|
      ensures s[i].key in m && s[j].key in m && KeysRise(s[j].key, s[i].key)
    {
      assert s[i] in s && s[j] in s;
    }
  }

  lemma ListsEntries(s: seq<Node>)
    requires Sorted(s)
    ensures Lists(s, Entries(s))
  {
    forall k ensures k in Entries(s) <==> exists n :: n in s && n.key == k {
      EntriesAt(s, k);
    }
    forall n | n in s ensures n.key in Entries(s) && Entries(s)[n.key] == n.value {
      EntriesAt(s, n.key);
    }
  }

  lemma SameMembers(s: seq<Node>, r: seq<Node>)
    requires |r| == |s| && forall i | 0 <= i < |r| :: r[i] == s[|r| - 1 - i]
    ensures forall n :: n in r <==> n in s
  {
    forall n | n in s ensures n in r {
      var i :| 0 <= i < |s| && s[i] == n;
      assert r[|r| - 1 - i] == n;
    }
  }
}
