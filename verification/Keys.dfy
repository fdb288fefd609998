/**
  * Map keys of clib/map.cc: numbers, or C strings compared by the character loop of `string_find`.
  * A map uses one kind only; numbers are put before strings so that one order covers both.
  */
module Keys {

  /** A character of a C string where `char` is signed; 0 is the terminator. */
  type CChar = c: int | -128 <= c <= 127 && c != 0 witness 1

  /** The characters for which the comparison is an order. */
  type KeyChar = c: int | 1 <= c <= 127 witness 1

  datatype Key = Num(n: int) | Text(s: seq<KeyChar>)

  datatype Direction = Left | Found | Right

  /** Lexicographic order, by its usual definition. */
  predicate LexBefore(a: seq<int>, b: seq<int>) {
    b != [] && (a == [] || a[0] < b[0] || (a[0] == b[0] && LexBefore(a[1..], b[1..])))
  }

  predicate Precedes(a: Key, b: Key) {
    match (a, b)
    case (Num(x), Num(y)) => x < y
    case (Num(_), Text(_)) => true
    case (Text(_), Num(_)) => false
    case (Text(x), Text(y)) => LexBefore(x, y)
  }

  /** At `k` the texts differ for the first time: `a` ends there, or has the smaller character. */
  predicate DiffersAt(a: seq<int>, b: seq<int>, k: nat) {
    k <= |a| && k < |b| && a[..k] == b[..k] && (k < |a| ==> a[k] < b[k])
  }

  /** `a` is smaller at the first difference. */
  ghost predicate Smaller(a: seq<int>, b: seq<int>) {
    exists k: nat :: DiffersAt(a, b, k)
  }

  /** What the order of keys means: numbers by size, texts by the first difference. */
  lemma OrderMeans(a: Key, b: Key)
    ensures a.Num? && b.Num? ==> (Precedes(a, b) <==> a.n < b.n)
    ensures a.Text? && b.Text? ==> (Precedes(a, b) <==> Smaller(a.s, b.s))
  {
    if a.Text? && b.Text? {
      LexDiffers(a.s, b.s);
    }
  }

  lemma {:induction false} LexDiffers(a: seq<int>, b: seq<int>)
    ensures LexBefore(a, b) <==> Smaller(a, b)
  {
    if a == [] || b == [] || a[0] != b[0] {
      assert LexBefore(a, b) ==> DiffersAt(a, b, 0);
      assert forall k: nat | 0 < k <= |a| && k < |b| :: a[..k][0] == a[0] && b[..k][0] == b[0];
    } else {
      LexDiffers(a[1..], b[1..]);
      if k: nat :| DiffersAt(a[1..], b[1..], k) {
        LaterDifference(a, b, k);
      }
      if k: nat :| DiffersAt(a, b, k) {
        assert k > 0;
        LaterDifference(a, b, k - 1);
      }
    }
  }

  lemma LaterDifference(a: seq<int>, b: seq<int>, k: nat)
    requires a != [] && b != [] && a[0] == b[0]
    ensures DiffersAt(a[1..], b[1..], k) <==> DiffersAt(a, b, k + 1)
  {
    if k + 1 <= |a| && k + 1 < |b| {
      assert a[..k + 1] == [a[0]] + a[1..][..k] && b[..k + 1] == [b[0]] + b[1..][..k];
      assert a[1..][..k] == a[..k + 1][1..] && b[1..][..k] == b[..k + 1][1..];
    }
  }

  // ---------------------------------------------------------------- a strict total order

  lemma {:induction false} LexIrreflexive(a: seq<int>)
    ensures !LexBefore(a, a)
  {
    if a != [] {
      LexIrreflexive(a[1..]);
    }
  }

  lemma {:induction false} LexTransitive(a: seq<int>, b: seq<int>, c: seq<int>)
    requires LexBefore(a, b) && LexBefore(b, c)
    ensures LexBefore(a, c)
  {
    if a != [] && a[0] == b[0] == c[0] {
      LexTransitive(a[1..], b[1..], c[1..]);
    }
  }

  lemma {:induction false} LexTotal(a: seq<int>, b: seq<int>)
    ensures LexBefore(a, b) || a == b || LexBefore(b, a)
  {
    if a != [] && b != [] && a[0] == b[0] {
      LexTotal(a[1..], b[1..]);
      assert a == [a[0]] + a[1..] && b == [b[0]] + b[1..];
    }
  }

  lemma PrecedesIrreflexive(a: Key)
    ensures !Precedes(a, a)
  {
    if a.Text? {
      LexIrreflexive(a.s);
    }
  }

  lemma PrecedesTransitive(a: Key, b: Key, c: Key)
    requires Precedes(a, b) && Precedes(b, c)
    ensures Precedes(a, c)
  {
    if a.Text? && b.Text? && c.Text? {
      LexTransitive(a.s, b.s, c.s);
    }
  }

  lemma PrecedesTotal(a: Key, b: Key)
    ensures Precedes(a, b) || a == b || Precedes(b, a)
  {
    if a.Text? && b.Text? {
      LexTotal(a.s, b.s);
    }
  }

  // ---------------------------------------------------------------- the character loop

  /** Reading a C string: the terminator follows the last character. */
  function At(s: seq<int>, i: nat): int
    requires i <= |s|
  {
    if i < |s| then s[i] else 0
  }

  /** Where the search for `key` goes from a node with key `node`, decided at the first difference. */
  function Walk(key: seq<CChar>, node: seq<CChar>): Direction {
    if node == [] then (if key == [] then Found else Right)
    else if At(key, 0) < node[0] then Left
    else if At(key, 0) > node[0] then Right
    else Walk(key[1..], node[1..])
  }

  /** The comparison loop of `string_find`, over both strings with their terminators. */
  method CompareText(key: seq<CChar>, node: seq<CChar>) returns (d: Direction)
    ensures d == Walk(key, node)
  {
    var i := 0;
    while true
      invariant i <= |key| && i <= |node|
      invariant Walk(key, node) == Walk(key[i..], node[i..])
      decreases |node| - i
    {
      var c, k := At(node, i), At(key, i);
      if c == 0 {
        if k == 0 {
          return Found;
        } else {
          return Right;
        }
      }
      if k < c {
        return Left;
      } else if k > c {
        return Right;
      }
      assert key[i..][1..] == key[i + 1..] && node[i..][1..] == node[i + 1..];
      i := i + 1;
    }
  }

  /** On characters 1..127 the loop decides lexicographic order. */
  lemma {:induction false} WalkIsLexicographic(key: seq<KeyChar>, node: seq<KeyChar>)
    ensures Walk(key, node) == if LexBefore(key, node) then Left else if key == node then Found else Right
  {
    if key != [] && node != [] && key[0] == node[0] {
      WalkIsLexicographic(key[1..], node[1..]);
      assert key == [key[0]] + key[1..] && node == [node[0]] + node[1..];
    }
  }

  function Opposite(d: Direction): Direction {
    match d case Left => Right case Right => Left case Found => Found
  }

  /** `a` is a proper prefix of `b`, and `b` goes on with a negative character. */
  predicate ExtendsNegatively(a: seq<int>, b: seq<int>) {
    |a| < |b| && b[..|a|] == a && b[|a|] < 0
  }

  /**
    * With signed characters, comparing in either direction agrees exactly when neither key extends the other by a
    * negative character.
    */
  lemma {:induction false} WalkAntisymmetricIff(a: seq<CChar>, b: seq<CChar>)
    ensures Walk(b, a) == Opposite(Walk(a, b)) <==> !ExtendsNegatively(a, b) && !ExtendsNegatively(b, a)
  {
    if a != [] && b != [] && a[0] == b[0] {
      WalkAntisymmetricIff(a[1..], b[1..]);
      PrefixStep(a, b);
      PrefixStep(b, a);
    }
  }

  lemma PrefixStep(a: seq<CChar>, b: seq<CChar>)
    requires a != [] && b != [] && a[0] == b[0]
    ensures ExtendsNegatively(a, b) <==> ExtendsNegatively(a[1..], b[1..])
  {
    if |a| < |b| {
      assert a == [a[0]] + a[1..];
      assert b[..|a|] == [b[0]] + b[1..][..|a| - 1];
      assert b[|a|] == b[1..][|a| - 1];
    }
  }

  /** A key ending where another goes on with byte 0x80: each is sought to the right of the other. */
  lemma NegativeCharacterBreaksOrder()
    ensures Walk([97], [97, -128]) == Right && Walk([97, -128], [97]) == Right
  {
    assert Walk([97], [97, -128]) == Walk([], [-128]);
    assert Walk([97, -128], [97]) == Walk([-128], []);
  }

  // ---------------------------------------------------------------- comparing keys

  method CompareKeys(key: Key, node: Key) returns (d: Direction)
    ensures d == if Precedes(key, node) then Left else if key == node then Found else Right
  {
    match (key, node)
    case (Num(x), Num(y)) =>
      d := if x > y then Right else if x < y then Left else Found;
    case (Num(_), Text(_)) => d := Left;
    case (Text(_), Num(_)) => d := Right;
    case (Text(x), Text(y)) =>
      d := CompareText(x, y);
      WalkIsLexicographic(x, y);
  }
}
