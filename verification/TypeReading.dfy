/** A reader for the text of types, which shows what the text determines (src/mangler.cc, the type printer). */
module TypeReading {
  import opened Options
  import opened Decimals
  import opened TypeNames

  // ---------------------------------------------------------------- what is readable

  /** Names do not start with a digit; an array has dimensions, all of them its own. */
  predicate Regular(t: Type) {
    match t.body
    case Dictionary(k, v) => Regular(k) && Regular(v)
    case KeySet(e) => Regular(e)
    case Vector(e) => Regular(e)
    case Pointer(_, e) => Regular(e)
    case Array(dims, e) => dims != [] && !e.body.Array? && Regular(e)
    case Named(path, name) => (forall w <- path :: Identifier(w)) && Identifier(name)
    case _ => true
  }

  predicate Identifier(w: string) {
    w != "" && !IsDigit(w[0])
  }

  predicate IsI8(t: Type) {
    !t.byRef && t.body.Integer? && t.body.isSigned && t.body.width <= 8 && t.body.width != 1
  }

  /** What is printed starts with the length of a name. */
  predicate LengthFirst(t: Type) {
    !t.byRef && (t.body.Function? || (t.body.Named? && t.body.path == []))
  }

  /**
   * Types without the two constructs whose text has a second reading: an array of a type whose text starts with a
   * number, and the half-precision float, which is printed as "f16".
   */
  predicate Clear(t: Type) {
    match t.body
    case Dictionary(k, v) => Clear(k) && Clear(v)
    case KeySet(e) => Clear(e)
    case Vector(e) => Clear(e)
    case Pointer(a, e) => a.isCString || Clear(e)
    case Array(_, e) => !LengthFirst(e) && Clear(e)
    case Half => false
    case _ => true
  }

  predicate Readable(t: Type) {
    Regular(t) && Consistent(t) && Clear(t)
  }

  /**
   * The type without what the printer drops: the exact width of an integer, the unique attribute, the target of a C
   * string, and what tells a C string from a const pointer to `i8`.
   */
  function Erase(t: Type): Type {
    Type(t.byRef, EraseBody(t.body))
  }

  function EraseBody(b: Body): Body {
    match b
    case Dictionary(k, v) => Dictionary(Erase(k), Erase(v))
    case KeySet(e) => KeySet(Erase(e))
    case Vector(e) => Vector(Erase(e))
    case VoidPointer(a) => VoidPointer(EraseAttributes(a))
    case Pointer(a, e) =>
      if a.isCString || (a.isConst && IsI8(e)) then VoidPointer(Attributes(a.isShared, true, false, true))
      else Pointer(EraseAttributes(a), Erase(e))
    case Integer(width, isSigned) => Integer(WidthClass(width), isSigned && width != 1)
    case Array(dims, e) => Array(dims, Erase(e))
    case Function => Named([], "func")
    case _ => b
  }

  /** Unique is not printed, and a C string is printed as if it were const. */
  function EraseAttributes(a: Attributes): Attributes {
    Attributes(a.isShared, a.isConst || a.isCString, false, a.isCString)
  }

  function WidthClass(width: nat): nat {
    if width == 1 then 1 else if width <= 8 then 8 else if width <= 16 then 16 else if width <= 32 then 32 else 64
  }

  // ---------------------------------------------------------------- the reader

  predicate Starts(s: string, c: char) {
    s != "" && s[0] == c
  }

  function Read(s: string): (r: Option<(Type, string)>)
    ensures r.Some? ==> |r.value.1| < |s|
    decreases |s|, 2
  {
    var isRef := Starts(s, 'R');
    match ReadBody(if isRef then s[1..] else s)
    case None => None
    case Some(p) => Some((Type(isRef, p.0), p.1))
  }

  function ReadBody(s: string): (r: Option<(Body, string)>)
    ensures r.Some? ==> |r.value.1| < |s|
    decreases |s|, 1
  {
    if s == "" then None
    else if s[0] == 'U' then ReadContainer(s)
    else if s[0] == 'P' then ReadPointer(s[1..])
    else if s[0] == 'A' then ReadArray(s[1..])
    else if s[0] == 'N' || IsDigit(s[0]) then ReadName(s)
    else ReadScalar(s)
  }

  function ReadContainer(s: string): (r: Option<(Body, string)>)
    ensures r.Some? ==> |r.value.1| < |s|
    decreases |s|, 0
  {
    if 6 <= |s| && s[..6] == "U3mapI" then
      match Read(s[6..])
      case None => None
      case Some(k) =>
        if !Starts(k.1, 'E') then None
        else
          match Read(k.1[1..])
          case None => None
          case Some(v) => Some((Dictionary(k.0, v.0), v.1))
    else if 5 <= |s| && s[..5] == "U3set" then
      match Read(s[5..])
      case None => None
      case Some(e) => Some((KeySet(e.0), e.1))
    else if 5 <= |s| && s[..5] == "U3vec" then
      match Read(s[5..])
      case None => None
      case Some(e) => Some((Vector(e.0), e.1))
    else None
  }

  function ReadPointer(s: string): (r: Option<(Body, string)>)
    ensures r.Some? ==> |r.value.1| <= |s|
    decreases |s|, 4
  {
    var isShared := Starts(s, 'S');
    var s1 := if isShared then s[1..] else s;
    var isConst := Starts(s1, 'K');
    ReadTarget(isShared, isConst, if isConst then s1[1..] else s1)
  }

  function ReadTarget(isShared: bool, isConst: bool, s: string): (r: Option<(Body, string)>)
    ensures r.Some? ==> |r.value.1| <= |s|
    decreases |s|, 3
  {
    if isConst && Starts(s, 'c') then Some((VoidPointer(Attributes(isShared, true, false, true)), s[1..]))
    else if Starts(s, 'v') then Some((VoidPointer(Attributes(isShared, isConst, false, false)), s[1..]))
    else
      match Read(s)
      case None => None
      case Some(e) => Some((Pointer(Attributes(isShared, isConst, false, false), e.0), e.1))
  }

  /** Dimensions that follow each other belong to one array. */
  function ReadArray(s: string): (r: Option<(Body, string)>)
    ensures r.Some? ==> |r.value.1| <= |s|
    decreases |s|, 3
  {
    var k := Span(s);
    if k == 0 then None
    else
      var dim := Value(s[..k]);
      if Starts(s[k..], 'A') then
        match ReadArray(s[k + 1..])
        case Some((Array(dims, e), rest)) => Some((Array([dim] + dims, e), rest))
        case _ => None
      else
        match Read(s[k..])
        case None => None
        case Some(e) => Some((Array([dim], e.0), e.1))
  }

  function ReadComponent(s: string): (r: Option<(string, string)>)
    ensures r.Some? ==> |r.value.1| < |s|
  {
    var k := Span(s);
    if k == 0 then None
    else
      var n := Value(s[..k]);
      if |s| - k < n then None else Some((s[k..][..n], s[k..][n..]))
  }

  function ReadComponents(s: string): (r: Option<(seq<string>, string)>)
    ensures r.Some? ==> |r.value.1| <= |s|
    decreases |s|
  {
    if !StartsWithDigit(s) then Some(([], s))
    else
      match ReadComponent(s)
      case None => None
      case Some(w) =>
        match ReadComponents(w.1)
        case None => None
        case Some(ws) => Some(([w.0] + ws.0, ws.1))
  }

  function ReadName(s: string): (r: Option<(Body, string)>)
    requires s != ""
    ensures r.Some? ==> |r.value.1| < |s|
  {
    if s[0] == 'N' then
      match ReadComponents(s[1..])
      case None => None
      case Some(ws) =>
        if ws.0 == [] || !Starts(ws.1, 'E') then None
        else Some((Named(ws.0[..|ws.0| - 1], ws.0[|ws.0| - 1]), ws.1[1..]))
    else
      match ReadComponent(s)
      case None => None
      case Some(w) => Some((Named([], w.0), w.1))
  }

  function ReadScalar(s: string): (r: Option<(Body, string)>)
    requires s != ""
    ensures r.Some? ==> |r.value.1| < |s|
  {
    if s[0] == 'i' && Starts(s[1..], 'n') then
      if 9 <= |s| && s[..9] == "interface" then Some((Interface, s[9..])) else None
    else if s[0] in "CG" then
      if |s| < 2 || s[1] !in "df" then None
      else Some((if s[0] == 'C' then Complex(s[1] == 'd') else Real(s[1] == 'd', true), s[2..]))
    else
      match s[0]
      case 'd' => Some((Real(true, false), s[1..]))
      case 'f' => Some((Real(false, false), s[1..]))
      case 'b' => Some((Integer(1, false), s[1..]))
      case 'c' => Some((Integer(8, true), s[1..]))
      case 'h' => Some((Integer(8, false), s[1..]))
      case 's' => Some((Integer(16, true), s[1..]))
      case 't' => Some((Integer(16, false), s[1..]))
      case 'i' => Some((Integer(32, true), s[1..]))
      case 'j' => Some((Integer(32, false), s[1..]))
      case 'x' => Some((Integer(64, true), s[1..]))
      case 'y' => Some((Integer(64, false), s[1..]))
      case _ => None
  }

  // ---------------------------------------------------------------- reading back

  /** No type's text starts with 'n', which is what tells "interface" from an integer. */
  predicate Follows(rest: string) {
    !Starts(rest, 'n')
  }

  /** How the text of a readable type can start. */
  lemma Start(t: Type)
    requires Readable(t)
    ensures Text(t) != "" && Text(t)[0] !in "nvEKSD"
    ensures Text(t)[0] == 'R' <==> t.byRef
    ensures Text(t)[0] == 'A' <==> !t.byRef && t.body.Array?
    ensures Text(t)[0] == 'c' <==> IsI8(t)
    ensures IsDigit(Text(t)[0]) <==> LengthFirst(t)
    ensures IsI8(t) ==> Text(t) == "c"
  {
    if !t.byRef {
      match t.body
      case Named(path, name) =>
        DecimalDigits(|name|);
      case _ =>
    }
  }

  lemma {:induction false} ComponentReadBack(w: string, rest: string)
    requires Identifier(w)
    ensures ReadComponent(Component(w) + rest) == Some((w, rest))
    ensures StartsWithDigit(Component(w) + rest)
  {
    assert Component(w) + rest == Decimal(|w|) + (w + rest);
    NumberReadBack(|w|, w + rest);
    assert (w + rest)[..|w|] == w && (w + rest)[|w|..] == rest;
  }

  lemma {:induction false} ComponentsReadBack(ws: seq<string>, rest: string)
    requires forall w <- ws :: Identifier(w)
    requires !StartsWithDigit(rest)
    ensures ReadComponents(Components(ws) + rest) == Some((ws, rest))
  {
    if ws == [] {
      assert Components(ws) + rest == rest;
    } else {
      var more := Components(ws[1..]) + rest;
      ComponentsReadBack(ws[1..], rest);
      ComponentReadBack(ws[0], more);
      ComponentsStep(Component(ws[0]) + more, ws[0], more, ws[1..], rest);
      assert Components(ws) + rest == Component(ws[0]) + more by {
        Assoc(Component(ws[0]), Components(ws[1..]), rest);
      }
      assert [ws[0]] + ws[1..] == ws;
    }
  }

  lemma ComponentsStep(s: string, w: string, more: string, ws: seq<string>, rest: string)
    requires StartsWithDigit(s) && ReadComponent(s) == Some((w, more)) && ReadComponents(more) == Some((ws, rest))
    ensures ReadComponents(s) == Some(([w] + ws, rest))
  {
  }

  lemma ComponentsAppend(ws: seq<string>, w: string)
    ensures Components(ws + [w]) == Components(ws) + Component(w)
  {
    if ws == [] {
      assert [w][1..] == [];
    } else {
      ComponentsAppend(ws[1..], w);
      assert (ws + [w])[1..] == ws[1..] + [w];
    }
  }

  lemma NestedStep(ws: seq<string>, s: string, rest: string)
    requires ws != [] && ReadComponents(s) == Some((ws, "E" + rest))
    ensures ReadName("N" + s) == Some((Named(ws[..|ws| - 1], ws[|ws| - 1]), rest))
  {
    assert ("N" + s)[1..] == s;
    assert ("E" + rest)[1..] == rest;
  }

  lemma NestedText(path: seq<string>, name: string, rest: string)
    requires path != []
    ensures TypeName(path, name) + rest == "N" + (Components(path + [name]) + ("E" + rest))
  {
    ComponentsAppend(path, name);
  }

  lemma NameReadBack(path: seq<string>, name: string, rest: string)
    requires (forall w <- path :: Identifier(w)) && Identifier(name)
    ensures var s := TypeName(path, name) + rest;
            (s[0] == 'N' || IsDigit(s[0])) && ReadName(s) == Some((Named(path, name), rest))
  {
    if path == [] {
      ComponentReadBack(name, rest);
    } else {
      var ws := path + [name];
      NestedText(path, name, rest);
      ComponentsReadBack(ws, "E" + rest);
      NestedStep(ws, Components(ws) + ("E" + rest), rest);
      assert ws[..|ws| - 1] == path;
    }
  }

  lemma PrefixReadBack(a: Attributes, tail: string)
    requires tail != "" && tail[0] !in "SK"
    ensures var s := PointerPrefix(a) + tail;
            s[0] == 'P' && ReadPointer(s[1..]) == ReadTarget(a.isShared, a.isConst || a.isCString, tail)
  {
    var k := if a.isConst || a.isCString then "K" else "";
    var s1 := k + tail;
    var s0 := (if a.isShared then "S" else "") + s1;
    PrefixText(if a.isShared then "S" else "", k, tail);
    assert a.isShared ==> s0[1..] == s1;
    assert !a.isShared ==> s0 == s1;
    assert k == "K" ==> s1[1..] == tail;
    assert k == "" ==> s1 == tail;
  }

  lemma PrefixText(a: string, b: string, tail: string)
    ensures ("P" + a + b + tail)[0] == 'P' && ("P" + a + b + tail)[1..] == a + (b + tail)
  {
  }

  lemma TargetReadBack(t: Type, tail: string, rest: string)
    requires Readable(t) && (t.body.VoidPointer? || t.body.Pointer?)
    requires var a := t.body.attributes;
             if a.isCString then tail == "c" + rest
             else if t.body.VoidPointer? then tail == "v" + rest
             else tail == Text(t.body.elem) + rest && Read(tail) == Some((Erase(t.body.elem), rest))
    ensures var a := t.body.attributes;
            tail != "" && tail[0] !in "SK"
            && ReadTarget(a.isShared, a.isConst || a.isCString, tail) == Some((EraseBody(t.body), rest))
  {
    var a := t.body.attributes;
    if t.body.Pointer? && !a.isCString {
      Start(t.body.elem);
    }
    if a.isCString || t.body.VoidPointer? || IsI8(t.body.elem) {
      assert tail[1..] == rest;
    }
  }

  lemma PointerReadBack(t: Type, rest: string)
    requires Readable(t) && (t.body.VoidPointer? || t.body.Pointer?)
    requires t.body.Pointer? && !t.body.attributes.isCString ==>
               Read(Text(t.body.elem) + rest) == Some((Erase(t.body.elem), rest))
    ensures ReadBody(BodyText(t.body) + rest) == Some((EraseBody(t.body), rest))
  {
    var a := t.body.attributes;
    var last := if a.isCString then "c" else if t.body.VoidPointer? then "v" else Text(t.body.elem);
    TargetReadBack(t, last + rest, rest);
    PrefixReadBack(a, last + rest);
    PointerStep(PointerPrefix(a) + (last + rest));
    Assoc(PointerPrefix(a), last, rest);
  }

  lemma PointerStep(s: string)
    requires s != "" && s[0] == 'P'
    ensures ReadBody(s) == ReadPointer(s[1..])
  {
  }

  lemma ArrayStep(s: string)
    requires s != "" && s[0] == 'A'
    ensures ReadBody(s) == ReadArray(s[1..])
  {
  }

  /** One more dimension, in front of an array (`inner`) or of another type. */
  lemma DimStep(dim: nat, tail: string, dims: seq<nat>, e: Type, rest: string)
    requires !StartsWithDigit(tail)
    requires if dims == [] then !Starts(tail, 'A') && Read(tail) == Some((e, rest))
             else Starts(tail, 'A') && ReadArray(tail[1..]) == Some((Array(dims, e), rest))
    ensures ReadArray(Decimal(dim) + tail) == Some((Array([dim] + dims, e), rest))
  {
    NumberReadBack(dim, tail);
    var s := Decimal(dim) + tail;
    assert dims != [] ==> s[Span(s) + 1..] == s[Span(s)..][1..];
    assert [dim] + [] == [dim];
  }

  lemma DimsUnfold(dims: seq<nat>, tail: string)
    requires dims != []
    ensures var s := DimsText(dims) + tail;
            s != "" && s[0] == 'A' && s[1..] == Decimal(dims[0]) + (DimsText(dims[1..]) + tail)
  {
    Unfold(Decimal(dims[0]), DimsText(dims[1..]), tail);
  }

  lemma Unfold(a: string, b: string, tail: string)
    ensures ("A" + a + b + tail)[0] == 'A' && ("A" + a + b + tail)[1..] == a + (b + tail)
  {
  }

  lemma {:induction false} DimsReadBack(dims: seq<nat>, e: Type, tail: string, rest: string)
    requires dims != [] && !StartsWithDigit(tail) && !Starts(tail, 'A')
    requires Read(tail) == Some((e, rest))
    ensures ReadArray(Decimal(dims[0]) + (DimsText(dims[1..]) + tail)) == Some((Array(dims, e), rest))
  {
    var ds := dims[1..];
    assert dims == [dims[0]] + ds;
    var more := DimsText(ds) + tail;
    if ds != [] {
      DimsReadBack(ds, e, tail, rest);
      DimsUnfold(ds, tail);
      assert Starts(more, 'A') && ReadArray(more[1..]) == Some((Array(ds, e), rest));
    } else {
      assert more == tail;
    }
    DimStep(dims[0], more, ds, e, rest);
  }

  lemma ArrayReadBack(dims: seq<nat>, e: Type, rest: string)
    requires dims != [] && !e.body.Array? && !LengthFirst(e) && Readable(e)
    requires Read(Text(e) + rest) == Some((Erase(e), rest))
    ensures ReadBody(DimsText(dims) + Text(e) + rest) == Some((Array(dims, Erase(e)), rest))
  {
    Start(e);
    DimsReadBack(dims, Erase(e), Text(e) + rest, rest);
    DimsUnfold(dims, Text(e) + rest);
    ArrayStep(DimsText(dims) + (Text(e) + rest));
    Assoc(DimsText(dims), Text(e), rest);
  }

  lemma ComplexReadBack(isStruct: bool, rest: string)
    ensures ReadBody(BodyText(Complex(isStruct)) + rest) == Some((Complex(isStruct), rest))
  {
    var s := BodyText(Complex(isStruct)) + rest;
    assert s[0] == 'C' && s[1] in "df" && s[2..] == rest;
  }

  lemma RealReadBack(isDouble: bool, isImaginary: bool, rest: string)
    ensures ReadBody(BodyText(Real(isDouble, isImaginary)) + rest) == Some((Real(isDouble, isImaginary), rest))
  {
    var s := BodyText(Real(isDouble, isImaginary)) + rest;
    if isImaginary {
      assert s[0] == 'G' && s[1] in "df" && s[2..] == rest;
    } else {
      assert s[0] in "df" && s[1..] == rest;
    }
  }

  lemma IntegerReadBack(width: nat, isSigned: bool, rest: string)
    requires Follows(rest)
    ensures ReadBody(IntegerText(width, isSigned) + rest) == Some((EraseBody(Integer(width, isSigned)), rest))
  {
    var s := IntegerText(width, isSigned) + rest;
    assert s[0] in "bchstijxy" && s[1..] == rest;
  }

  lemma InterfaceReadBack(rest: string)
    ensures ReadBody("interface" + rest) == Some((Interface, rest))
  {
    var s := "interface" + rest;
    assert s[0] == 'i' && s[1..][0] == 'n' && s[..9] == "interface" && s[9..] == rest;
  }

  lemma FunctionReadBack(rest: string)
    ensures ReadBody("4func" + rest) == Some((Named([], "func"), rest))
  {
    assert Component("func") == Decimal(4) + "func" == "4func";
    NameReadBack([], "func", rest);
  }

  lemma DictionaryReadBack(k: Type, v: Type, rest: string)
    requires Read(Text(k) + ("E" + Text(v) + rest)) == Some((Erase(k), "E" + Text(v) + rest))
    requires Read(Text(v) + rest) == Some((Erase(v), rest))
    ensures ReadContainer("U3mapI" + Text(k) + "E" + Text(v) + rest) == Some((Dictionary(Erase(k), Erase(v)), rest))
  {
    var s := "U3mapI" + Text(k) + "E" + Text(v) + rest;
    assert s[..6] == "U3mapI";
    assert s[6..] == Text(k) + ("E" + Text(v) + rest);
    assert ("E" + Text(v) + rest)[1..] == Text(v) + rest;
  }

  lemma ContainerReadBack(isSet: bool, e: Type, rest: string)
    requires Read(Text(e) + rest) == Some((Erase(e), rest))
    ensures ReadContainer((if isSet then "U3set" else "U3vec") + Text(e) + rest)
         == Some((if isSet then KeySet(Erase(e)) else Vector(Erase(e)), rest))
  {
    var s := (if isSet then "U3set" else "U3vec") + Text(e) + rest;
    assert s[2] == (if isSet then 's' else 'v');
    assert s[..5] == (if isSet then "U3set" else "U3vec");
    assert s[5..] == Text(e) + rest;
    assert 6 <= |s| ==> s[..6][2] == s[2];
  }

  lemma ContainerStep(b: Body, rest: string)
    requires b.Dictionary? || b.KeySet? || b.Vector?
    requires ReadContainer(BodyText(b) + rest) == Some((EraseBody(b), rest))
    ensures ReadBody(BodyText(b) + rest) == Some((EraseBody(b), rest))
  {
    assert (BodyText(b) + rest)[0] == 'U';
  }

  lemma ReferenceStep(isRef: bool, s: string, b: Body, rest: string)
    requires ReadBody(s) == Some((b, rest)) && !Starts(s, 'R')
    ensures Read((if isRef then "R" else "") + s) == Some((Type(isRef, b), rest))
  {
    var whole := (if isRef then "R" else "") + s;
    assert isRef ==> whole[1..] == s;
    assert !isRef ==> whole == s;
  }

  /** Pointers to one type have texts of their own by reference, sharing and const. */
  lemma PointersDiffer(t: Type, t': Type, e: Type)
    requires Readable(e) && t.body.Pointer? && t'.body.Pointer? && t.body.elem == e == t'.body.elem
    requires !t.body.attributes.isCString && !t'.body.attributes.isCString
    ensures Text(t) == Text(t') <==>
              t.byRef == t'.byRef && t.body.attributes.isShared == t'.body.attributes.isShared
              && t.body.attributes.isConst == t'.body.attributes.isConst
  {
    Start(e);
    MarksDiffer(t.byRef, t.body.attributes.isShared, t.body.attributes.isConst,
                t'.byRef, t'.body.attributes.isShared, t'.body.attributes.isConst, Text(e));
    MarksText(t);
    MarksText(t');
  }

  function Mark(on: bool, mark: string): string {
    if on then mark else ""
  }

  lemma MarksText(t: Type)
    requires t.body.Pointer? && !t.body.attributes.isCString
    ensures var a := t.body.attributes;
            Text(t) == Mark(t.byRef, "R") + ("P" + (Mark(a.isShared, "S") + (Mark(a.isConst, "K") + Text(t.body.elem))))
  {
    var a := t.body.attributes;
    FourParts("P", Mark(a.isShared, "S"), Mark(a.isConst, "K"), Text(t.body.elem));
  }

  lemma FourParts(a: string, b: string, c: string, d: string)
    ensures a + b + c + d == a + (b + (c + d))
  {
  }

  lemma MarksDiffer(r: bool, s: bool, k: bool, r': bool, s': bool, k': bool, e: string)
    requires e != "" && e[0] !in "SK"
    ensures Mark(r, "R") + ("P" + (Mark(s, "S") + (Mark(k, "K") + e)))
              == Mark(r', "R") + ("P" + (Mark(s', "S") + (Mark(k', "K") + e)))
            <==> r == r' && s == s' && k == k'
  {
    var x, x' := Mark(k, "K") + e, Mark(k', "K") + e;
    OneMark(k, k', 'K', e, e);
    var y, y' := Mark(s, "S") + x, Mark(s', "S") + x';
    assert x[0] == if k then 'K' else e[0];
    assert x'[0] == if k' then 'K' else e[0];
    OneMark(s, s', 'S', x, x');
    OneMark(true, true, 'P', y, y');
    OneMark(r, r', 'R', "P" + y, "P" + y');
  }

  lemma OneMark(on: bool, on': bool, m: char, x: string, x': string)
    requires x != "" && x' != "" && (on != on' ==> x[0] != m && x'[0] != m)
    ensures Mark(on, [m]) + x == Mark(on', [m]) + x' <==> on == on' && x == x'
  {
    assert ([m] + x)[1..] == x && ([m] + x')[1..] == x';
    assert ([m] + x)[0] == m && ([m] + x')[0] == m;
    assert "" + x == x && "" + x' == x';
  }

  lemma {:induction false} ReadBack(t: Type, rest: string)
    requires Readable(t) && Follows(rest)
    ensures Read(Text(t) + rest) == Some((Erase(t), rest))
    decreases t, 1
  {
    BodyReadBack(t, rest);
    Start(Type(false, t.body));
    var s := BodyText(t.body) + rest;
    assert Text(Type(false, t.body)) == BodyText(t.body);
    assert s[0] == BodyText(t.body)[0];
    ReferenceStep(t.byRef, s, EraseBody(t.body), rest);
    assert Text(t) + rest == (if t.byRef then "R" else "") + s;
  }

  lemma {:induction false} BodyReadBack(t: Type, rest: string)
    requires Readable(t) && Follows(rest)
    ensures ReadBody(BodyText(t.body) + rest) == Some((EraseBody(t.body), rest))
    decreases t, 0
  {
    match t.body
    case Dictionary(k, v) =>
      ReadBack(k, "E" + Text(v) + rest);
      ReadBack(v, rest);
      DictionaryReadBack(k, v, rest);
      ContainerStep(t.body, rest);
    case KeySet(e) =>
      ReadBack(e, rest);
      ContainerReadBack(true, e, rest);
      ContainerStep(t.body, rest);
    case Vector(e) =>
      ReadBack(e, rest);
      ContainerReadBack(false, e, rest);
      ContainerStep(t.body, rest);
    case VoidPointer(a) =>
      PointerReadBack(t, rest);
    case Pointer(a, e) =>
      if !a.isCString {
        ReadBack(e, rest);
      }
      PointerReadBack(t, rest);
    case Array(dims, e) =>
      ReadBack(e, rest);
      ArrayReadBack(dims, e, rest);
    case _ =>
      PlainReadBack(t, rest);
  }

  /** A type without parts. */
  lemma PlainReadBack(t: Type, rest: string)
    requires Readable(t) && Follows(rest)
    requires var b := t.body; b.Named? || b.Function? || b.Complex? || b.Real? || b.Integer? || b.Interface?
    ensures ReadBody(BodyText(t.body) + rest) == Some((EraseBody(t.body), rest))
  {
    match t.body
    case Named(path, name) =>
      NameReadBack(path, name, rest);
    case Function =>
      FunctionReadBack(rest);
    case Complex(isStruct) =>
      ComplexReadBack(isStruct, rest);
    case Real(isDouble, isImaginary) =>
      RealReadBack(isDouble, isImaginary, rest);
    case Integer(width, isSigned) =>
      IntegerReadBack(width, isSigned, rest);
    case Interface =>
      InterfaceReadBack(rest);
  }

  // ---------------------------------------------------------------- lists of argument types

  predicate AllReadable(ts: seq<Type>) {
    forall t <- ts :: Readable(t)
  }

  function EraseAll(ts: seq<Type>): (r: seq<Type>)
    ensures |r| == |ts|
  {
    if ts == [] then [] else [Erase(ts[0])] + EraseAll(ts[1..])
  }

  /** Reads types up to the end of the text or an 'E'. */
  function ReadList(s: string): (r: Option<(seq<Type>, string)>)
    decreases |s|
  {
    if s == "" || s[0] == 'E' then Some(([], s))
    else
      match Read(s)
      case None => None
      case Some(t) =>
        match ReadList(t.1)
        case None => None
        case Some(ts) => Some(([t.0] + ts.0, ts.1))
  }

  lemma {:induction false} ListReadBack(ts: seq<Type>, rest: string)
    requires AllReadable(ts) && (rest == "" || rest[0] == 'E')
    ensures ReadList(ListText(ts) + rest) == Some((EraseAll(ts), rest))
  {
    if ts == [] {
      assert ListText(ts) + rest == rest;
    } else {
      var more := ListText(ts[1..]) + rest;
      ListReadBack(ts[1..], rest);
      ListStart(ts[1..]);
      ReadBack(ts[0], more);
      Start(ts[0]);
      ListStep(Text(ts[0]) + more, Erase(ts[0]), more, EraseAll(ts[1..]), rest);
      assert ListText(ts) + rest == Text(ts[0]) + more by {
        Assoc(Text(ts[0]), ListText(ts[1..]), rest);
      }
    }
  }

  lemma ListStep(s: string, t: Type, more: string, ts: seq<Type>, rest: string)
    requires s != "" && s[0] != 'E' && Read(s) == Some((t, more)) && ReadList(more) == Some((ts, rest))
    ensures ReadList(s) == Some(([t] + ts, rest))
  {
  }

  /** How the text of a list can start: not like "void", not like the rest of a longer code. */
  lemma ListStart(ts: seq<Type>)
    requires AllReadable(ts)
    ensures ts != [] ==> ListText(ts) != "" && ListText(ts)[0] !in "nvEKSD"
  {
    if ts != [] {
      Start(ts[0]);
    }
  }

  /** The text of a list of types determines the types up to what the printer drops. */
  lemma ListsDecode(ts: seq<Type>, us: seq<Type>)
    requires AllReadable(ts) && AllReadable(us)
    ensures ListText(ts) == ListText(us) <==> EraseAll(ts) == EraseAll(us)
  {
    ListReadBack(ts, "");
    ListReadBack(us, "");
    assert ListText(ts) + "" == ListText(ts) && ListText(us) + "" == ListText(us);
    ErasedList(ts);
    ErasedList(us);
  }

  /** What `Erase` forgets is not printed. */
  lemma {:induction false} ErasedText(t: Type)
    requires Consistent(t)
    ensures Text(Erase(t)) == Text(t)
    decreases t
  {
    match t.body
    case Dictionary(k, v) =>
      ErasedText(k);
      ErasedText(v);
    case KeySet(e) =>
      ErasedText(e);
    case Vector(e) =>
      ErasedText(e);
    case Pointer(a, e) =>
      if !a.isCString {
        ErasedText(e);
      }
    case Array(_, e) =>
      ErasedText(e);
    case Function =>
      assert Component("func") == Decimal(4) + "func" == "4func";
    case _ =>
  }

  lemma {:induction false} ErasedList(ts: seq<Type>)
    requires forall t <- ts :: Consistent(t)
    ensures ListText(EraseAll(ts)) == ListText(ts)
  {
    if ts != [] {
      ErasedText(ts[0]);
      ErasedList(ts[1..]);
      assert EraseAll(ts)[1..] == EraseAll(ts[1..]);
    }
  }

  // ---------------------------------------------------------------- the texts with two readings

  lemma {:induction false} DecimalOfValue(s: string)
    requires s != "" && AllDigits(s) && s[0] != '0'
    ensures Decimal(Value(s)) == s && Value(s) > 0
  {
    var front := s[..|s| - 1];
    var d := s[|s| - 1] as int - '0' as int;
    assert AllDigits(front) && Value(s) == 10 * Value(front) + d;
    if front != "" {
      DecimalOfValue(front);
      DecimalStep(Value(front), d);
      assert s == front + [Digit(d)];
    } else {
      assert s == [Digit(d)];
    }
  }

  lemma DecimalStep(n: nat, d: nat)
    requires n > 0 && d < 10
    ensures Decimal(10 * n + d) == Decimal(n) + [Digit(d)]
  {
    assert (10 * n + d) / 10 == n && (10 * n + d) % 10 == d;
  }

  lemma {:induction false} DecimalNoZero(n: nat)
    requires n > 0
    ensures Decimal(n) != "" && Decimal(n)[0] != '0'
  {
    if n >= 10 {
      DecimalNoZero(n / 10);
    }
  }

  /**
   * Dimensions run into a name's length: an array of a type whose name is itself the text of some types `us` is
   * printed like a longer array of the first of them, followed by the others.
   */
  lemma ArrayRunsIntoName(dim: nat, us: seq<Type>) returns (longer: nat)
    requires dim > 0 && us != [] && AllReadable(us) && !LengthFirst(us[0]) && !us[0].body.Array?
    ensures Regular(Type(false, Named([], ListText(us))))
    ensures ListText([Type(false, Array([dim], Type(false, Named([], ListText(us)))))])
         == ListText([Type(false, Array([longer], us[0]))] + us[1..])
  {
    TextIsName(us);
    longer := JoinedDigits(dim, |ListText(us)|);
    ArrayOfName(dim, ListText(us));
    ArrayAndMore(longer, us[0], us[1..]);
    SameJoin("A", Decimal(dim), Decimal(|ListText(us)|), Text(us[0]), ListText(us[1..]));
  }

  lemma ArrayOfName(dim: nat, w: string)
    ensures ListText([Type(false, Array([dim], Type(false, Named([], w))))])
              == "A" + Decimal(dim) + (Decimal(|w|) + w) + ""
  {
    var named := Type(false, Named([], w));
    assert Text(named) == "" + Component(w) == Component(w);
    ArrayAndMore(dim, named, []);
    assert [Type(false, Array([dim], named))] + [] == [Type(false, Array([dim], named))];
  }

  lemma ArrayAndMore(dim: nat, e: Type, ts: seq<Type>)
    ensures ListText([Type(false, Array([dim], e))] + ts) == "A" + Decimal(dim) + Text(e) + ListText(ts)
  {
    OneDimension(dim, e);
    TwoTexts(Type(false, Array([dim], e)), ts);
  }

  lemma JoinedDigits(a: nat, b: nat) returns (n: nat)
    requires a > 0
    ensures Decimal(n) == Decimal(a) + Decimal(b)
  {
    DecimalDigits(a);
    DecimalDigits(b);
    DecimalNoZero(a);
    n := Value(Decimal(a) + Decimal(b));
    DecimalOfValue(Decimal(a) + Decimal(b));
  }

  lemma SameJoin(a: string, b: string, c: string, d: string, e: string)
    ensures a + b + (c + (d + e)) + "" == a + (b + c) + d + e
  {
  }

  lemma OneDimension(dim: nat, e: Type)
    ensures Text(Type(false, Array([dim], e))) == "A" + Decimal(dim) + Text(e)
  {
    assert [dim][1..] == [];
    assert DimsText([dim]) == "A" + Decimal(dim) + "";
  }

  lemma TwoTexts(t: Type, ts: seq<Type>)
    ensures ListText([t] + ts) == Text(t) + ListText(ts)
  {
    assert ([t] + ts)[1..] == ts;
  }

  /**
    * A half-precision float swallows what follows it: with sixteen characters behind, the text is a float and a name.
    */
  lemma HalfRunsIntoName(us: seq<Type>)
    requires AllReadable(us) && |ListText(us)| == 16 && !LengthFirst(us[0])
    ensures Regular(Type(false, Named([], ListText(us))))
    ensures ListText([Type(false, Half)] + us)
         == ListText([Type(false, Real(false, false)), Type(false, Named([], ListText(us)))])
  {
    TextIsName(us);
    TwoTexts(Type(false, Half), us);
    FloatAndName(ListText(us));
  }

  /** A text that does not start with a number is a proper name. */
  lemma TextIsName(us: seq<Type>)
    requires us != [] && Readable(us[0]) && !LengthFirst(us[0])
    ensures Identifier(ListText(us)) && Regular(Type(false, Named([], ListText(us))))
  {
    Start(us[0]);
  }

  lemma FloatAndName(w: string)
    requires |w| == 16
    ensures ListText([Type(false, Real(false, false)), Type(false, Named([], w))]) == "f16" + w
  {
    var named := Type(false, Named([], w));
    var float := Type(false, Real(false, false));
    TwoTexts(float, [named]);
    TwoTexts(named, []);
    assert [named] + [] == [named] && [float] + [named] == [float, named];
    NameSixteen(w);
    assert "f" + ("16" + w) == "f16" + w;
  }

  lemma NameSixteen(w: string)
    requires |w| == 16
    ensures Text(Type(false, Named([], w))) == "16" + w
  {
    assert Decimal(16) == Decimal(1) + "6" == "16";
    assert Text(Type(false, Named([], w))) == "" + Component(w) == Component(w);
  }
}
