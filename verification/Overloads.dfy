/** Overload resolution (src/functions.cc, selectProto). */
module Overloads {
  import opened Options

  /** A conversion that is applied to an argument; the one that does nothing is told apart. */
  datatype Conv = NoConversion | Fn(id: nat)

  /**
    * How an argument fits a parameter: exactly, with a conversion, only because it is an untyped literal, or not at
    * all.
    */
  datatype Match = Exact | Convert(c: Conv) | Untyped(c: Conv) | NoMatch

  /**
    * A prototype with the matches of the call's arguments; a method's first parameter is the receiver, which is not
    * matched.
    */
  datatype Proto = Proto(varargs: bool, isMethod: bool, params: seq<Param>)

  datatype Param = Param(m: Match, byRef: bool)

  /** The first parameter that takes part in matching. */
  function From(p: Proto): nat {
    if p.isMethod then 1 else 0
  }

  /** 1: all arguments exact; 2: exact or converted; 3: some untyped; 0: no match. */
  function Class(p: Proto, n: nat): nat {
    if |p.params| != n then 0 else ClassFrom(p.params, From(p))
  }

  function ClassFrom(ps: seq<Param>, i: nat): (k: nat)
    ensures k <= 3
    decreases |ps| - i
  {
    if i >= |ps| then 1
    else
      var rest := ClassFrom(ps, i + 1);
      match ps[i].m
      case NoMatch => 0
      case Exact => rest
      case Convert(_) => if rest == 1 then 2 else rest
      case Untyped(_) => if rest == 0 then 0 else 3
  }

  /** The conversion that a match asks for. */
  function ConvOf(m: Match): Option<Conv> {
    match m
    case Convert(c) => Some(c)
    case Untyped(c) => Some(c)
    case _ => None
  }

  /** The arguments that are looked at: up to the first that does not match. */
  function Stop(ps: seq<Param>, i: nat): nat
    decreases |ps| - i
  {
    if i >= |ps| || ps[i].m.NoMatch? then i else Stop(ps, i + 1)
  }

  // ---------------------------------------------------------------- matching one prototype

  /** What a look at argument `j` of `p` leaves in the conversion table of class `k`. */
  function Left(p: Proto, j: nat, k: nat, was: Option<Conv>): Option<Conv>
    requires j < |p.params|
  {
    if From(p) <= j < Stop(p.params, From(p)) && (p.params[j].m.Untyped? ==> k == 3)
        && (p.params[j].m.Convert? ==> k >= 2)
    then ConvOf(p.params[j].m) else was
  }

  /**
    * The table `s` of class `k` once the arguments below `i` have been looked at; it is left alone if `on` does not
    * hold.
    */
  ghost predicate Recorded(s: seq<Option<Conv>>, was: seq<Option<Conv>>, p: Proto, i: nat, k: nat, on: bool) {
    && |s| == |was| == |p.params|
    && forall j | 0 <= j < |s| :: s[j] == if j < i && on then Left(p, j, k, was[j]) else was[j]
  }

  lemma RecordStep(s: seq<Option<Conv>>, s': seq<Option<Conv>>, was: seq<Option<Conv>>, p: Proto, i: nat, k: nat,
                   on: bool)
    requires From(p) <= i < Stop(p.params, From(p)) && i < |p.params| && Recorded(s, was, p, i, k, on)
    requires s' == if on && (p.params[i].m.Untyped? ==> k == 3)
             && (p.params[i].m.Convert? ==> k >= 2) then s[i := ConvOf(p.params[i].m)] else s
    ensures Recorded(s', was, p, i + 1, k, on)
  {
  }

  /** The loop over the arguments; tables of classes that already have a candidate are left alone. */
  method Classify(p: Proto, convs: array<Option<Conv>>, convs2: array<Option<Conv>>, convs3: array<Option<Conv>>,
                  cands2: nat, cands3: nat)
    returns (exact: bool, withConv: bool, withUndefConv: bool)
    requires convs.Length == convs2.Length == convs3.Length == |p.params| && convs != convs2 && convs != convs3
             && convs2 != convs3
    modifies convs, convs2, convs3
    ensures var k := Class(p, |p.params|);
            exact == (k == 1) && withConv == (k == 1 || k == 2) && withUndefConv == (k != 0)
    ensures forall j | 0 <= j < |p.params| :: convs[j] == Left(p, j, 1, old(convs[j]))
    ensures forall j | 0 <= j < |p.params| :: convs2[j] == if cands2 == 0 then Left(p, j, 2, old(convs2[j]))
              else old(convs2[j])
    ensures forall j | 0 <= j < |p.params| :: convs3[j] == if cands3 == 0 then Left(p, j, 3, old(convs3[j]))
              else old(convs3[j])
  {
    exact, withConv, withUndefConv := true, true, true;
    ghost var was, was2, was3 := convs[..], convs2[..], convs3[..];
    var i := From(p);
    StopBound(p.params, i);
    while i < |p.params|
      invariant From(p) <= i && withUndefConv && i <= Stop(p.params, From(p)) && (i <= |p.params| || i == From(p))
      invariant Stop(p.params, i) == Stop(p.params, From(p))
      invariant var k := ClassFrom(p.params, i);
                Class(p, |p.params|) == if k == 0 then 0 else if !withConv then 3 else if !exact && k == 1 then 2 else k
      invariant exact ==> withConv
      invariant Recorded(convs[..], was, p, i, 1, true)
      invariant Recorded(convs2[..], was2, p, i, 2, cands2 == 0)
      invariant Recorded(convs3[..], was3, p, i, 3, cands3 == 0)
    {
      StopBound(p.params, i);
      var m := p.params[i].m;
      ghost var s, s2, s3 := convs[..], convs2[..], convs3[..];
      match m {
        case Exact =>
          convs[i] := None;
          if cands2 == 0 { convs2[i] := None; }
          if cands3 == 0 { convs3[i] := None; }
        case Convert(c) =>
          exact := false;
          if cands2 == 0 { convs2[i] := Some(c); }
          if cands3 == 0 { convs3[i] := Some(c); }
        case Untyped(c) =>
          exact, withConv := false, false;
          if cands3 == 0 { convs3[i] := Some(c); }
        case NoMatch =>
          exact, withConv, withUndefConv := false, false, false;
          break;
      }
      StopBound(p.params, i + 1);
      RecordStep(s, convs[..], was, p, i, 1, true);
      RecordStep(s2, convs2[..], was2, p, i, 2, cands2 == 0);
      RecordStep(s3, convs3[..], was3, p, i, 3, cands3 == 0);
      i := i + 1;
    }
  }

  lemma {:induction false} StopBound(ps: seq<Param>, i: nat)
    ensures i <= Stop(ps, i) && (i <= |ps| ==> Stop(ps, i) <= |ps|) && (i < Stop(ps, i) ==> !ps[i].m.NoMatch?)
    decreases |ps| - i
  {
    if i < |ps| && !ps[i].m.NoMatch? {
      StopBound(ps, i + 1);
    }
  }

  // ---------------------------------------------------------------- the declarative choice

  datatype Choice = VarArgs(i: nat) | Chosen(i: nat, class_: nat) | Ambiguous | NoneFits

  /** The first prototype from `i` on that ends the search: one with variable arguments, or an exact match. */
  function FirstFinal(protos: seq<Proto>, n: nat, i: nat): (r: nat)
    requires i <= |protos|
    ensures i <= r <= |protos|
    ensures r < |protos| ==> IsFinal(protos[r], n)
    ensures forall j | i <= j < r :: !IsFinal(protos[j], n)
    decreases |protos| - i
  {
    if i == |protos| || IsFinal(protos[i], n) then i else FirstFinal(protos, n, i + 1)
  }

  predicate IsFinal(p: Proto, n: nat) {
    p.varargs || Class(p, n) == 1
  }

  /** How many of the first `i` prototypes are of class `k`. */
  function Number(protos: seq<Proto>, n: nat, k: nat, i: nat): nat
    requires i <= |protos|
  {
    if i == 0 then 0 else Number(protos, n, k, i - 1) + (if Class(protos[i - 1], n) == k then 1 else 0)
  }

  /** The first prototype of class `k`, if any. */
  function First(protos: seq<Proto>, n: nat, k: nat, i: nat): (r: nat)
    requires i <= |protos|
    ensures r <= i && (r < i <==> Number(protos, n, k, i) > 0) && (r < i ==> Class(protos[r], n) == k)
    ensures forall j | 0 <= j < r :: Class(protos[j], n) != k
  {
    if i == 0 then 0
    else
      var r := First(protos, n, k, i - 1);
      if r < i - 1 then r else if Class(protos[i - 1], n) == k then i - 1 else i
  }

  /** An exact match, else the only one of class 2, else, with none of class 2, the only one of class 3. */
  function Choose(protos: seq<Proto>, n: nat): Choice {
    var f := FirstFinal(protos, n, 0);
    if f < |protos| then (if protos[f].varargs then VarArgs(f) else Chosen(f, 1))
    else if Number(protos, n, 2, |protos|) == 1 then Chosen(First(protos, n, 2, |protos|), 2)
    else if Number(protos, n, 2, |protos|) > 1 then Ambiguous
    else if Number(protos, n, 3, |protos|) == 1 then Chosen(First(protos, n, 3, |protos|), 3)
    else if Number(protos, n, 3, |protos|) > 1 then Ambiguous
    else NoneFits
  }

  // ---------------------------------------------------------------- the search

  /**
    * What the first `i` prototypes have left for argument `j` in the table of class `k`, as long as that class has no
    * candidate among them.
    */
  function Trail(protos: seq<Proto>, n: nat, k: nat, i: nat, j: nat, was: Option<Conv>): Option<Conv>
    requires i <= |protos| && j < n
  {
    if i == 0 then was
    else
      var before := Trail(protos, n, k, i - 1, j, was);
      if |protos[i - 1].params| == n then Left(protos[i - 1], j, k, before) else before
  }

  /** Up to where the table of class `k` is written: through the first prototype of that class. */
  function Written(protos: seq<Proto>, n: nat, k: nat, i: nat): nat
    requires i <= |protos|
  {
    var f := First(protos, n, k, i);
    if f < i then f + 1 else i
  }

  /** The table of class 2 or 3, which is written until there is a candidate. */
  ghost predicate LaterTable(protos: seq<Proto>, n: nat, k: nat, i: nat, convs: seq<Option<Conv>>) {
    i <= |protos| && |convs| == n
    && forall j | 0 <= j < n :: convs[j] == Trail(protos, n, k, Written(protos, n, k, i), j, None)
  }

  /** The state of the search after `i` prototypes. */
  ghost predicate Searched(protos: seq<Proto>, n: nat, i: nat, convs: seq<Option<Conv>>, convs2: seq<Option<Conv>>,
                           convs3: seq<Option<Conv>>,
                           was: seq<Option<Conv>>, cands2: seq<nat>, cands3: seq<nat>)
  {
    && i <= |protos| && |convs| == |convs2| == |convs3| == |was| == n && FirstFinal(protos, n, 0) >= i
    && |cands2| == Number(protos, n, 2, i) && (cands2 != [] ==> cands2[0] == First(protos, n, 2, i))
    && |cands3| == Number(protos, n, 3, i) && (cands3 != [] ==> cands3[0] == First(protos, n, 3, i))
    && (forall j | 0 <= j < n :: convs[j] == Trail(protos, n, 1, i, j, was[j]))
    && LaterTable(protos, n, 2, i, convs2) && LaterTable(protos, n, 3, i, convs3)
  }

  /** A prototype of another length is passed over. */
  lemma SkipStep(protos: seq<Proto>, n: nat, i: nat, convs: seq<Option<Conv>>, convs2: seq<Option<Conv>>,
                 convs3: seq<Option<Conv>>,
                 was: seq<Option<Conv>>, cands2: seq<nat>, cands3: seq<nat>)
    requires Searched(protos, n, i, convs, convs2, convs3, was, cands2, cands3) && i < |protos|
    requires !protos[i].varargs && |protos[i].params| != n
    ensures Searched(protos, n, i + 1, convs, convs2, convs3, was, cands2, cands3)
  {
    assert Class(protos[i], n) == 0;
    FinalMoves(protos, n, 0, i);
  }

  lemma {:induction false} FinalMoves(protos: seq<Proto>, n: nat, from: nat, i: nat)
    requires from <= i < |protos| && FirstFinal(protos, n, from) >= i && !IsFinal(protos[i], n)
    ensures FirstFinal(protos, n, from) >= i + 1
  {
  }

  lemma LaterTableStep(protos: seq<Proto>, n: nat, k: nat, i: nat, convs: seq<Option<Conv>>,
                       convs': seq<Option<Conv>>)
    requires i < |protos| && |protos[i].params| == n == |convs'| && LaterTable(protos, n, k, i, convs)
    requires forall j | 0 <= j < n ::
               convs'[j] == if Number(protos, n, k, i) == 0 then Left(protos[i], j, k, convs[j]) else convs[j]
    ensures LaterTable(protos, n, k, i + 1, convs')
  {
    var f := First(protos, n, k, i);
    if f == i {
      assert Written(protos, n, k, i) == i && Written(protos, n, k, i + 1) == i + 1;
    } else {
      assert Written(protos, n, k, i) == Written(protos, n, k, i + 1) == f + 1;
    }
  }

  /** One more prototype has been matched, without being an exact match. */
  lemma MatchStep(protos: seq<Proto>, n: nat, i: nat, convs: seq<Option<Conv>>, convs2: seq<Option<Conv>>,
                  convs3: seq<Option<Conv>>,
                  was: seq<Option<Conv>>, cands2: seq<nat>, cands3: seq<nat>,
                  convs': seq<Option<Conv>>, convs2': seq<Option<Conv>>, convs3': seq<Option<Conv>>)
    requires Searched(protos, n, i, convs, convs2, convs3, was, cands2, cands3) && i < |protos|
    requires !protos[i].varargs && |protos[i].params| == n && |convs'| == |convs2'| == |convs3'| == n
    requires forall j | 0 <= j < n :: convs'[j] == Left(protos[i], j, 1, convs[j])
    requires forall j | 0 <= j < n :: convs2'[j] == if cands2 == [] then Left(protos[i], j, 2, convs2[j]) else convs2[j]
    requires forall j | 0 <= j < n :: convs3'[j] == if cands3 == [] then Left(protos[i], j, 3, convs3[j]) else convs3[j]
    requires Class(protos[i], n) != 1
    ensures var k := Class(protos[i], n);
            Searched(protos, n, i + 1, convs', convs2', convs3', was, if k == 2 then cands2 + [i]
                else cands2, if k == 3 then cands3 + [i] else cands3)
  {
    LaterTableStep(protos, n, 2, i, convs2, convs2');
    LaterTableStep(protos, n, 3, i, convs3, convs3');
    FinalMoves(protos, n, 0, i);
  }

  /** The conversion that the call ends up with for argument `j` when prototype `s` is chosen in class `k`. */
  function Given(protos: seq<Proto>, n: nat, s: nat, k: nat, j: nat, was: Option<Conv>): Option<Conv>
    requires s < |protos| && j < n
  {
    Trail(protos, n, k, s + 1, j, if k == 1 then was else None)
  }

  /** An argument that is passed by reference would have to be converted. */
  predicate RefClash(p: Proto, convs: seq<Option<Conv>>)
    requires |convs| == |p.params|
  {
    exists j :: 0 <= j < |p.params| && p.params[j].byRef && convs[j].Some? && convs[j] != Some(NoConversion)
  }

  method CheckRefs(p: Proto, convs: array<Option<Conv>>) returns (clash: bool)
    requires convs.Length == |p.params|
    ensures clash == RefClash(p, convs[..])
  {
    for j := 0 to |p.params|
      invariant forall l | 0 <= l < j :: !(p.params[l].byRef && convs[l].Some? && convs[l] != Some(NoConversion))
    {
      if p.params[j].byRef && convs[j].Some? && convs[j] != Some(NoConversion) {
        assert convs[..][j] == convs[j];
        return true;
      }
    }
    clash := false;
  }

  method CopyTable(from: array<Option<Conv>>, to: array<Option<Conv>>)
    requires from.Length == to.Length && from != to
    modifies to
    ensures to[..] == from[..]
  {
    for j := 0 to to.Length
      invariant forall l | 0 <= l < j :: to[l] == from[l]
    {
      to[j] := from[j];
    }
  }

  /** Through all prototypes, unless one ends the search. */
  method Search(protos: seq<Proto>, convs: array<Option<Conv>>, convs2: array<Option<Conv>>,
                convs3: array<Option<Conv>>)
    returns (final: nat, cands2: seq<nat>, cands3: seq<nat>)
    requires convs.Length == convs2.Length == convs3.Length && convs != convs2 && convs != convs3 && convs2 != convs3
    requires forall j | 0 <= j < convs.Length :: convs2[j] == None && convs3[j] == None
    modifies convs, convs2, convs3
    ensures final == FirstFinal(protos, convs.Length, 0)
    ensures var n, was := convs.Length, old(convs[..]);
            if final < |protos| && !protos[final].varargs then forall j | 0 <= j < n ::
                convs[j] == Trail(protos, n, 1, final + 1, j, was[j])
            else Searched(protos, n, final, convs[..], convs2[..], convs3[..], was, cands2, cands3)
  {
    var n := convs.Length;
    ghost var was := convs[..];
    cands2, cands3 := [], [];
    var i := 0;
    while i < |protos|
      invariant 0 <= i <= |protos| && Searched(protos, n, i, convs[..], convs2[..], convs3[..], was, cands2, cands3)
    {
      var p := protos[i];
      if p.varargs {
        return i, cands2, cands3;
      }
      if |p.params| != n {
        SkipStep(protos, n, i, convs[..], convs2[..], convs3[..], was, cands2, cands3);
      } else {
        ghost var c, c2, c3 := convs[..], convs2[..], convs3[..];
        var exact, withConv, withUndefConv := Classify(p, convs, convs2, convs3, |cands2|, |cands3|);
        if exact {
          return i, cands2, cands3;
        }
        MatchStep(protos, n, i, c, c2, c3, was, cands2, cands3, convs[..], convs2[..], convs3[..]);
        if withConv {
          cands2 := cands2 + [i];
        } else if withUndefConv {
          cands3 := cands3 + [i];
        }
      }
      i := i + 1;
    }
    final := i;
  }

  /** The result and the conversion table of the search, for the table `was` before it. */
  ghost predicate Selects(protos: seq<Proto>, was: seq<Option<Conv>>, convs: seq<Option<Conv>>, isTypeName: bool,
                          r: int)
  {
    var n := |was|;
    && |convs| == n
    && match Choose(protos, n)
       case VarArgs(i) => r == i
       case Chosen(s, k) =>
         (forall j | 0 <= j < n :: convs[j] == Given(protos, n, s, k, j, was[j])) &&
         |protos[s].params| == n && r == if RefClash(protos[s], convs) then -1 else s
       case Ambiguous => r == -1
       case NoneFits => r == if isTypeName && n == 1 then -2 else -1
  }

  method SelectProto(protos: seq<Proto>, convs: array<Option<Conv>>, isTypeName: bool) returns (r: int)
    modifies convs
    ensures Selects(protos, old(convs[..]), convs[..], isTypeName, r)
  {
    var n := convs.Length;
    var convs2 := new Option<Conv>[n](_ => None);
    var convs3 := new Option<Conv>[n](_ => None);
    var final, cands2, cands3 := Search(protos, convs, convs2, convs3);
    var selected;
    if final < |protos| {
      if protos[final].varargs {
        return final;
      }
      selected := final;
    } else if cands2 != [] {
      if |cands2| > 1 {
        return -1;
      }
      CopyTable(convs2, convs);
      selected := cands2[0];
    } else if cands3 != [] {
      if |cands3| > 1 {
        return -1;
      }
      CopyTable(convs3, convs);
      selected := cands3[0];
    } else {
      return if isTypeName && n == 1 then -2 else -1;
    }
    var clash := CheckRefs(protos[selected], convs);
    r := if clash then -1 else selected;
  }

  // ---------------------------------------------------------------- the conversions belong to the choice

  lemma {:induction false} NoGaps(ps: seq<Param>, i: nat)
    requires ClassFrom(ps, i) != 0 && i <= |ps|
    ensures Stop(ps, i) == |ps|
    decreases |ps| - i
  {
    if i < |ps| {
      NoGaps(ps, i + 1);
    }
  }

  lemma {:induction false} KindsOf(ps: seq<Param>, i: nat, j: nat)
    requires i <= j < |ps| && ClassFrom(ps, i) != 0
    ensures ps[j].m.Exact? || (ps[j].m.Convert? && ClassFrom(ps, i) >= 2) || (ps[j].m.Untyped? && ClassFrom(ps, i) == 3)
    decreases |ps| - i
  {
    if i < j {
      KindsOf(ps, i + 1, j);
    }
  }

  lemma ChosenHasClass(protos: seq<Proto>, n: nat)
    requires Choose(protos, n).Chosen?
    ensures var ch := Choose(protos, n);
            ch.i < |protos| && Class(protos[ch.i], n) == ch.class_ != 0 && |protos[ch.i].params| == n
  {
  }

  /** For every argument that takes part in matching, whatever rejected prototypes wrote before. */
  lemma MatchedConversions(protos: seq<Proto>, n: nat, j: nat, was: Option<Conv>)
    requires Choose(protos, n).Chosen? && j < n && From(protos[Choose(protos, n).i]) <= j
    ensures var ch := Choose(protos, n); Given(protos, n, ch.i, ch.class_, j, was) == ConvOf(protos[ch.i].params[j].m)
  {
    ChosenHasClass(protos, n);
    var ch := Choose(protos, n);
    var p := protos[ch.i];
    NoGaps(p.params, From(p));
    KindsOf(p.params, From(p), j);
  }

  /** Functions and methods are kept in lists of their own. */
  ghost predicate OneKind(protos: seq<Proto>) {
    forall p, q | p in protos && q in protos :: p.isMethod == q.isMethod
  }

  /** Methods leave the receiver's place in the tables alone. */
  lemma {:induction false} ReceiverLeftAlone(protos: seq<Proto>, n: nat, k: nat, i: nat)
    requires i <= |protos| && n > 0 && forall p | p in protos :: p.isMethod
    ensures Trail(protos, n, k, i, 0, None) == None
  {
    if i > 0 {
      assert protos[i - 1] in protos;
      ReceiverLeftAlone(protos, n, k, i - 1);
    }
  }

  /** The conversions that a call of `p` needs: what its own matches ask for, and none for the receiver. */
  function OwnConversion(p: Proto, j: nat): Option<Conv>
    requires j < |p.params|
  {
    if j < From(p) then None
    else
      match p.params[j].m
      case Exact => None
      case Convert(c) => Some(c)
      case Untyped(c) => Some(c)
      case NoMatch => None
  }

  /** A call of `p` would convert an argument that it takes by reference. */
  predicate ConvertsRef(p: Proto) {
    exists j :: From(p) <= j < |p.params| && RefConverted(p, j)
  }

  predicate RefConverted(p: Proto, j: nat)
    requires j < |p.params|
  {
    p.params[j].byRef && OwnConversion(p, j).Some? && OwnConversion(p, j) != Some(NoConversion)
  }

  lemma RefClashIs(p: Proto, convs: seq<Option<Conv>>)
    requires |convs| == |p.params| && forall j | 0 <= j < |convs| :: convs[j] == OwnConversion(p, j)
    ensures RefClash(p, convs) == ConvertsRef(p)
  {
    assert forall j | 0 <= j < |convs| :: RefConverted(p, j)
                  <==> p.params[j].byRef && convs[j].Some? && convs[j] != Some(NoConversion);
  }

  /**
    * The table given back is the chosen prototype's own, and only its own parameters decide about the refusal, although
    * rejected prototypes write to the same tables.
    */
  lemma OwnConversions(protos: seq<Proto>, n: nat, convs: seq<Option<Conv>>, isTypeName: bool, r: int)
    requires OneKind(protos) && Choose(protos, n).Chosen?
    requires Selects(protos, seq(n, _ => None), convs, isTypeName, r)
    ensures var ch := Choose(protos, n); var p := protos[ch.i];
            && |p.params| == |convs| == n && (forall j | 0 <= j < n :: convs[j] == OwnConversion(p, j))
            && r == if ConvertsRef(p) then -1 else ch.i
  {
    ChosenHasClass(protos, n);
    var ch := Choose(protos, n);
    var p := protos[ch.i];
    assert p in protos;
    forall j | 0 <= j < n ensures convs[j] == OwnConversion(p, j) {
      if j < From(p) {
        ReceiverLeftAlone(protos, n, ch.class_, ch.i + 1);
      } else {
        MatchedConversions(protos, n, j, None);
      }
    }
    RefClashIs(p, convs);
  }

  // ---------------------------------------------------------------- the best match wins

  ghost predicate NoVarargs(protos: seq<Proto>) {
    forall p | p in protos :: !p.varargs
  }

  /** Exactly in all arguments; with conversions; or, of some argument, only because it is an untyped literal. */
  predicate Fits(p: Proto, n: nat, k: nat) {
    var exact := forall j | From(p) <= j < |p.params| :: p.params[j].m.Exact?;
    var typed := forall j | From(p) <= j < |p.params| :: p.params[j].m.Exact? || p.params[j].m.Convert?;
    var all := forall j | From(p) <= j < |p.params| :: !p.params[j].m.NoMatch?;
    |p.params| == n && ((k == 1 && exact) || (k == 2 && typed && !exact) || (k == 3 && all && !typed))
  }

  lemma {:induction false} ClassFromMeans(ps: seq<Param>, i: nat)
    ensures var k := ClassFrom(ps, i);
            && (k == 1 <==> forall j | i <= j < |ps| :: ps[j].m.Exact?)
            && (1 <= k <= 2 <==> forall j | i <= j < |ps| :: ps[j].m.Exact? || ps[j].m.Convert?)
            && (k != 0 <==> forall j | i <= j < |ps| :: !ps[j].m.NoMatch?)
    decreases |ps| - i
  {
    if i < |ps| {
      ClassFromMeans(ps, i + 1);
    }
  }

  lemma ClassMeans(p: Proto, n: nat, k: nat)
    requires k > 0
    ensures Class(p, n) == k <==> Fits(p, n, k)
  {
    ClassFromMeans(p.params, From(p));
  }

  ghost predicate NoneFitsBetter(protos: seq<Proto>, n: nat, k: nat) {
    forall p, m: nat | p in protos && m < k :: !Fits(p, n, m)
  }

  /** The prototype `s` fits best; it is the first that is exact, or else the only one that fits as well. */
  ghost predicate Wins(protos: seq<Proto>, n: nat, s: nat, k: nat) {
    && s < |protos| && Fits(protos[s], n, k) && NoneFitsBetter(protos, n, k)
    && forall i | 0 <= i < (if k == 1 then s else |protos|) && i != s :: !Fits(protos[i], n, k)
  }

  /** Two prototypes that are not exact fit best. */
  ghost predicate Tied(protos: seq<Proto>, n: nat, k: nat) {
    k > 1 && NoneFitsBetter(protos, n, k)
    && exists i, j :: 0 <= i < j < |protos| && Fits(protos[i], n, k) && Fits(protos[j], n, k)
  }

  ghost predicate NothingFits(protos: seq<Proto>, n: nat) {
    forall p, k: nat | p in protos :: !Fits(p, n, k)
  }

  lemma {:induction false} NumberMeans(protos: seq<Proto>, n: nat, k: nat, i: nat)
    requires i <= |protos|
    ensures Number(protos, n, k, i) == 0 ==> forall j | 0 <= j < i :: Class(protos[j], n) != k
    ensures Number(protos, n, k, i) == 1 ==>
              forall j | 0 <= j < i && j != First(protos, n, k, i) :: Class(protos[j], n) != k
    ensures Number(protos, n, k, i) > 1 ==>
              exists a, b :: 0 <= a < b < i && Class(protos[a], n) == k && Class(protos[b], n) == k
  {
    if i > 0 {
      NumberMeans(protos, n, k, i - 1);
      if Number(protos, n, k, i) > 1 && Class(protos[i - 1], n) == k {
        assert 0 <= First(protos, n, k, i - 1) < i - 1;
      }
    }
  }

  /** The choice finds the winner, or why there is none. */
  lemma ChoosesBest(protos: seq<Proto>, n: nat)
    requires NoVarargs(protos)
    ensures match Choose(protos, n)
            case VarArgs(_) => false
            case Chosen(s, k) => Wins(protos, n, s, k)
            case Ambiguous => Tied(protos, n, 2) || Tied(protos, n, 3)
            case NoneFits => NothingFits(protos, n)
  {
    FinalsAre(protos, n);
    if Number(protos, n, 1, |protos|) > 0 {
      ClassWins(protos, n, 1);
    } else if Number(protos, n, 2, |protos|) > 0 {
      ClassWins(protos, n, 2);
    } else if Number(protos, n, 3, |protos|) > 0 {
      ClassWins(protos, n, 3);
    } else {
      NoneBelow(protos, n, 4);
    }
  }

  /** The best class that has a prototype has the winner, or a tie. */
  lemma ClassWins(protos: seq<Proto>, n: nat, k: nat)
    requires 1 <= k <= 3 && Number(protos, n, k, |protos|) > 0
    requires forall m | 0 < m < k :: Number(protos, n, m, |protos|) == 0
    ensures if k == 1 || Number(protos, n, k, |protos|) == 1 then Wins(protos, n, First(protos, n, k, |protos|), k)
            else Tied(protos, n, k)
  {
    NoneBelow(protos, n, k);
    CountedBy(protos, n, k);
  }

  lemma NoneBelow(protos: seq<Proto>, n: nat, k: nat)
    requires k <= 4 && forall m | 0 < m < k :: Number(protos, n, m, |protos|) == 0
    ensures NoneFitsBetter(protos, n, k) && (k == 4 ==> NothingFits(protos, n))
  {
    forall p, m: nat | p in protos && m < k ensures !Fits(p, n, m) {
      if m > 0 {
        CountedBy(protos, n, m);
      }
    }
  }

  ghost predicate Counted(protos: seq<Proto>, n: nat, k: nat) {
    var c := Number(protos, n, k, |protos|);
    && (c == 0 ==> forall p | p in protos :: !Fits(p, n, k))
    && (c > 0 ==> First(protos, n, k, |protos|) < |protos| && Fits(protos[First(protos, n, k, |protos|)], n, k))
    && (forall i | 0 <= i < First(protos, n, k, |protos|) :: !Fits(protos[i], n, k))
    && (c == 1 ==> forall i | 0 <= i < |protos| && i != First(protos, n, k, |protos|) :: !Fits(protos[i], n, k))
    && (c > 1 ==> exists i, j :: 0 <= i < j < |protos| && Fits(protos[i], n, k) && Fits(protos[j], n, k))
  }

  lemma CountedBy(protos: seq<Proto>, n: nat, k: nat)
    requires k > 0
    ensures Counted(protos, n, k)
  {
    NumberMeans(protos, n, k, |protos|);
    forall i | 0 <= i < |protos| ensures Class(protos[i], n) == k <==> Fits(protos[i], n, k) {
      ClassMeans(protos[i], n, k);
    }
  }

  /**
    * What is returned for a list without variable arguments: the prototype that fits best, unless a tie or the lack of
    * any match or a converted by-reference argument makes the call fail.
    */
  lemma SelectsBest(protos: seq<Proto>, was: seq<Option<Conv>>, convs: seq<Option<Conv>>, isTypeName: bool, r: int)
    requires NoVarargs(protos) && Selects(protos, was, convs, isTypeName, r)
    ensures r >= 0 ==> exists k: nat :: Wins(protos, |was|, r, k)
    ensures forall s: nat, k: nat | Wins(protos, |was|, s, k) ::
              |protos[s].params| == |convs| && r == if RefClash(protos[s], convs) then -1 else s
    ensures (forall s: nat, k: nat :: !Wins(protos, |was|, s, k)) <==>
              (exists k: nat :: Tied(protos, |was|, k)) || NothingFits(protos, |was|)
    ensures (exists k: nat :: Tied(protos, |was|, k)) ==> r == -1
    ensures NothingFits(protos, |was|) ==> r == if isTypeName && |was| == 1 then -2 else -1
  {
    var n := |was|;
    ChoosesBest(protos, n);
    forall s: nat, k: nat, s': nat, k': nat | Wins(protos, n, s, k) && Wins(protos, n, s', k') ensures s == s' {
      OneWinner(protos, n, s, k, s', k');
    }
    forall s: nat, k: nat, m: nat | Wins(protos, n, s, k) && Tied(protos, n, m) ensures false {
      WinsOrTied(protos, n, s, k, m);
    }
    forall s: nat, k: nat | Wins(protos, n, s, k) ensures !NothingFits(protos, n) {
      assert protos[s] in protos;
    }
    forall m: nat | Tied(protos, n, m) ensures !NothingFits(protos, n) {
      var i, j :| 0 <= i < j < |protos| && Fits(protos[i], n, m) && Fits(protos[j], n, m);
      assert protos[i] in protos;
    }
  }

  /** A prototype with variable arguments ends the search, unless an exact match or another such comes before it. */
  lemma SelectsVarargs(protos: seq<Proto>, was: seq<Option<Conv>>, convs: seq<Option<Conv>>, isTypeName: bool, r: int,
                       i: nat)
    requires i < |protos| && protos[i].varargs && Selects(protos, was, convs, isTypeName, r)
    requires forall j | 0 <= j < i :: !protos[j].varargs && !Fits(protos[j], |was|, 1)
    ensures r == i
  {
    forall j | 0 <= j < i ensures !IsFinal(protos[j], |was|) {
      ClassMeans(protos[j], |was|, 1);
    }
  }

  lemma OneWinner(protos: seq<Proto>, n: nat, s: nat, k: nat, s': nat, k': nat)
    requires Wins(protos, n, s, k) && Wins(protos, n, s', k')
    ensures s == s'
  {
    assert protos[s] in protos && protos[s'] in protos;
    assert k == k';
  }

  lemma WinsOrTied(protos: seq<Proto>, n: nat, s: nat, k: nat, m: nat)
    requires Wins(protos, n, s, k)
    ensures !Tied(protos, n, m)
  {
    assert protos[s] in protos && forall i | 0 <= i < |protos| :: protos[i] in protos;
  }

  // ---------------------------------------------------------------- the order does not matter

  /** The chosen prototype itself. */
  function ChosenProto(protos: seq<Proto>, n: nat): Option<Proto> {
    var ch := Choose(protos, n);
    if ch.Chosen? then Some(protos[ch.i]) else None
  }

  /** The same prototypes in another order. */
  ghost predicate Same(protos: seq<Proto>, protos': seq<Proto>) {
    multiset(protos) == multiset(protos')
  }

  /** The prototypes of class `k`, in their order. */
  function OfClass(protos: seq<Proto>, n: nat, k: nat): seq<Proto> {
    if protos == [] then []
    else
      var rest := OfClass(protos[..|protos| - 1], n, k);
      var p := protos[|protos| - 1];
      if Class(p, n) == k then rest + [p] else rest
  }

  lemma {:induction false} OfClassCounts(protos: seq<Proto>, n: nat, k: nat, p: Proto)
    ensures multiset(OfClass(protos, n, k))[p] == if Class(p, n) == k then multiset(protos)[p] else 0
  {
    if protos != [] {
      var init, last := protos[..|protos| - 1], protos[|protos| - 1];
      OfClassCounts(init, n, k, p);
      assert protos == init + [last];
    }
  }

  lemma {:induction false} OfClassIs(protos: seq<Proto>, n: nat, k: nat, i: nat)
    requires i <= |protos|
    ensures |OfClass(protos[..i], n, k)| == Number(protos, n, k, i)
    ensures Number(protos, n, k, i) > 0 ==> OfClass(protos[..i], n, k)[0] == protos[First(protos, n, k, i)]
  {
    if i > 0 {
      OfClassIs(protos, n, k, i - 1);
      assert protos[..i][..i - 1] == protos[..i - 1];
    }
  }

  /** The number of prototypes of a class, and the only one of it, do not depend on the order. */
  lemma ClassesPermute(protos: seq<Proto>, protos': seq<Proto>, n: nat, k: nat)
    requires Same(protos, protos')
    ensures Number(protos, n, k, |protos|) == Number(protos', n, k, |protos'|)
    ensures Number(protos, n, k, |protos|) == 1 ==>
              protos[First(protos, n, k, |protos|)] == protos'[First(protos', n, k, |protos'|)]
  {
    var a, b := OfClass(protos, n, k), OfClass(protos', n, k);
    forall p ensures multiset(a)[p] == multiset(b)[p] {
      OfClassCounts(protos, n, k, p);
      OfClassCounts(protos', n, k, p);
    }
    SameBags(a, b);
    assert protos[..|protos|] == protos && protos'[..|protos'|] == protos';
    OfClassIs(protos, n, k, |protos|);
    OfClassIs(protos', n, k, |protos'|);
  }

  lemma SameBags(a: seq<Proto>, b: seq<Proto>)
    requires multiset(a) == multiset(b)
    ensures |a| == |b| && (|a| == 1 ==> a[0] == b[0])
  {
    assert |a| == |multiset(a)| == |multiset(b)| == |b|;
    if |a| == 1 {
      assert a[0] in multiset(b);
    }
  }

  lemma FinalsAre(protos: seq<Proto>, n: nat)
    requires NoVarargs(protos)
    ensures var f := FirstFinal(protos, n, 0);
            (f < |protos| <==> Number(protos, n, 1, |protos|) > 0)
                && (f < |protos| ==> f == First(protos, n, 1, |protos|))
  {
    var f, g := FirstFinal(protos, n, 0), First(protos, n, 1, |protos|);
    assert forall i | 0 <= i < |protos| :: protos[i] in protos;
  }

  /** At most one prototype matches exactly. */
  ghost predicate OneExact(protos: seq<Proto>, n: nat) {
    forall p, q | p in protos && q in protos && Class(p, n) == 1 && Class(q, n) == 1 :: p == q
  }

  /** Without variable arguments and with at most one exact match, the same prototype is chosen from any order. */
  lemma ChoiceOfAnyOrder(protos: seq<Proto>, protos': seq<Proto>, n: nat)
    requires Same(protos, protos') && NoVarargs(protos) && OneExact(protos, n)
    ensures ChosenProto(protos, n) == ChosenProto(protos', n)
    ensures !Choose(protos, n).VarArgs? && !Choose(protos', n).VarArgs?
    ensures Choose(protos, n).Ambiguous? <==> Choose(protos', n).Ambiguous?
    ensures Choose(protos, n).Chosen? ==> Choose(protos, n).class_ == Choose(protos', n).class_
  {
    forall p | p in protos' ensures p in protos {
      assert p in multiset(protos');
    }
    FinalsAre(protos, n);
    FinalsAre(protos', n);
    ClassesPermute(protos, protos', n, 1);
    ClassesPermute(protos, protos', n, 2);
    ClassesPermute(protos, protos', n, 3);
  }

  /**
    * Then the whole search has the same outcome for any order: it is refused with the same answer, or the same
    * prototype is called with the same conversions.
    */
  lemma OrderIrrelevant(protos: seq<Proto>, protos': seq<Proto>, n: nat, isTypeName: bool,
                        convs: seq<Option<Conv>>, r: int, convs': seq<Option<Conv>>, r': int)
    requires Same(protos, protos') && NoVarargs(protos) && OneExact(protos, n)
    requires OneKind(protos)
    requires Selects(protos, seq(n, _ => None), convs, isTypeName, r)
    requires Selects(protos', seq(n, _ => None), convs', isTypeName, r')
    ensures r < 0 || r' < 0 ==> r == r'
    ensures r >= 0 ==> r < |protos| && r' < |protos'| && protos[r] == protos'[r'] && convs == convs'
  {
    ChoiceOfAnyOrder(protos, protos', n);
    forall p, q | p in protos' && q in protos' ensures p.isMethod == q.isMethod {
      assert p in multiset(protos') && q in multiset(protos');
    }
    if Choose(protos, n).Chosen? {
      OwnConversions(protos, n, convs, isTypeName, r);
      OwnConversions(protos', n, convs', isTypeName, r');
    }
  }

  /** With two exact matches the first one in the list is taken, so there is an order with another outcome. */
  lemma OrderMatters(protos: seq<Proto>, n: nat) returns (protos': seq<Proto>)
    requires NoVarargs(protos) && !OneExact(protos, n)
    ensures Same(protos, protos') && ChosenProto(protos, n) != ChosenProto(protos', n)
  {
    var a, b :| a in protos && b in protos && Class(a, n) == 1 && Class(b, n) == 1 && a != b;
    var f := FirstFinal(protos, n, 0);
    var q := if protos[f] == a then b else a;
    var j :| 0 <= j < |protos| && protos[j] == q;
    protos' := protos[f := q][j := protos[f]];
    assert forall i | 0 <= i < f :: protos'[i] == protos[i];
    assert protos'[f] == q && IsFinal(q, n);
    assert FirstFinal(protos', n, 0) == f;
  }

  /** The choice is the same for every order exactly if at most one prototype matches exactly. */
  lemma OrderIrrelevantIff(protos: seq<Proto>, n: nat)
    requires NoVarargs(protos)
    ensures (forall protos' | Same(protos, protos') :: ChosenProto(protos', n) == ChosenProto(protos, n))
              <==> OneExact(protos, n)
  {
    if OneExact(protos, n) {
      forall protos' | Same(protos, protos') ensures ChosenProto(protos', n) == ChosenProto(protos, n) {
        ChoiceOfAnyOrder(protos, protos', n);
      }
    } else {
      var protos' := OrderMatters(protos, n);
    }
  }
}
