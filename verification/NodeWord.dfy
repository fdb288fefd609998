/**
  * The word in which a map node keeps its parent and its balance factor (clib/map.h, clib/map.cc): nodes are aligned,
  * so
  * the two lowest bits of the address are free for the balance factor. Elsewhere in the model these are two fields.
  */
module NodeWord {
  import opened Bits

  /** `PARENT(node)` */
  function Parent(word: nat): nat {
    AndNot(word, 3)
  }

  /** The bit field `u_bf`, and `bf`, the same two bits with a sign. */
  function UnsignedBf(word: nat): nat {
    word % 4
  }

  function Bf(word: nat): int {
    if word % 4 < 2 then word % 4 else word % 4 - 4
  }

  /** `SET_PARENT(node, p)` */
  function SetParent(word: nat, p: nat): nat {
    Or(p, UnsignedBf(word))
  }

  /** The assignment `node->bf = bf`. */
  function SetBf(word: nat, bf: int): nat
    requires -2 <= bf < 2
  {
    word - word % 4 + (if bf < 0 then bf + 4 else bf)
  }

  lemma FourIsPow2()
    ensures Pow2(2) == 4
  {
    assert Pow2(1) == 2 * Pow2(0);
    assert Pow2(2) == 2 * Pow2(1);
  }

  lemma ParentRoundsDown(word: nat)
    ensures Parent(word) == word - word % 4
  {
    FourIsPow2();
    ClearLow(word, 2);
  }

  lemma SetParentAdds(word: nat, p: nat)
    requires p % 4 == 0
    ensures SetParent(word, p) == p + word % 4
  {
    FourIsPow2();
    OrIsSum(p, word % 4, 2);
  }

  lemma LowPart(q: nat, k: nat)
    requires k < 4
    ensures (4 * q + k) % 4 == k
  {
  }

  lemma ParentWritten(word: nat, p: nat)
    requires p % 4 == 0
    ensures Parent(SetParent(word, p)) == p && Bf(SetParent(word, p)) == Bf(word)
  {
    SetParentAdds(word, p);
    LowPart(p / 4, word % 4);
    ParentRoundsDown(SetParent(word, p));
  }

  lemma BfWritten(word: nat, bf: int)
    requires -1 <= bf <= 1
    ensures Parent(SetBf(word, bf)) == Parent(word) && Bf(SetBf(word, bf)) == bf
  {
    LowPart(word / 4, if bf < 0 then bf + 4 else bf);
    ParentRoundsDown(word);
    ParentRoundsDown(SetBf(word, bf));
  }

  /** Both parts can be written without changing the other one, and are read as they were written. */
  lemma PartsAreApart(word: nat, p: nat, bf: int)
    requires p % 4 == 0 && -1 <= bf <= 1
    ensures Parent(SetParent(word, p)) == p && Bf(SetParent(word, p)) == Bf(word)
    ensures Parent(SetBf(word, bf)) == Parent(word) && Bf(SetBf(word, bf)) == bf
  {
    ParentWritten(word, p);
    BfWritten(word, bf);
  }
}
