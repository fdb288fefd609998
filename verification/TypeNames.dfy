/** The text of a type inside a mangled name, and how it is read back (src/mangler.cc, the type printer). */
module TypeNames {
  import opened Options
  import opened Decimals

  /** A type as the printer looks at it: whether it is a reference, and what it refers to. */
  datatype Type = Type(byRef: bool, body: Body)

  /** The attributes of a pointer that the printer looks at. */
  datatype Attributes = Attributes(isShared: bool, isConst: bool, isUnique: bool, isCString: bool)

  /** `Half` and `Interface` are the builtin types that have no code of their own: their plain names are printed. */
  datatype Body =
    | Dictionary(key: Type, value: Type)
    | KeySet(elem: Type)
    | Vector(elem: Type)
    | VoidPointer(attributes: Attributes)
    | Pointer(attributes: Attributes, elem: Type)
    | Complex(isStruct: bool)
    | Real(isDouble: bool, isImaginary: bool)
    | Integer(width: nat, isSigned: bool)
    | Array(dims: seq<nat>, elem: Type)
    | Named(path: seq<string>, name: string)
    | Function
    | Interface
    | Half

  // ---------------------------------------------------------------- printing

  /** A name with its length in front. */
  function Component(w: string): string {
    Decimal(|w|) + w
  }

  function Components(ws: seq<string>): string {
    if ws == [] then "" else Component(ws[0]) + Components(ws[1..])
  }

  /** The mangled name of a declared type. */
  function TypeName(path: seq<string>, name: string): string {
    if path == [] then Component(name) else "N" + Components(path) + Component(name) + "E"
  }

  function DimsText(dims: seq<nat>): string {
    if dims == [] then "" else "A" + Decimal(dims[0]) + DimsText(dims[1..])
  }

  function PointerPrefix(a: Attributes): string {
    "P" + (if a.isShared then "S" else "") + (if a.isConst || a.isCString then "K" else "")
  }

  function IntegerText(width: nat, isSigned: bool): string {
    if width == 1 then "b"
    else if width <= 8 then (if isSigned then "c" else "h")
    else if width <= 16 then (if isSigned then "s" else "t")
    else if width <= 32 then (if isSigned then "i" else "j")
    else if isSigned then "x" else "y"
  }

  /** Of the integer types that the language has, each has a letter of its own. */
  lemma IntegerTextsDiffer(w: nat, isSigned: bool, w': nat, isSigned': bool)
    requires w in {8, 16, 32, 64} && w' in {8, 16, 32, 64}
    ensures IntegerText(w, isSigned) == IntegerText(w', isSigned') <==> w == w' && isSigned == isSigned'
  {
    assert forall c: char, d: char :: [c] == [d] ==> [c][0] == [d][0];
  }

  function Text(t: Type): string {
    (if t.byRef then "R" else "") + BodyText(t.body)
  }

  function BodyText(b: Body): string {
    match b
    case Dictionary(k, v) => "U3mapI" + Text(k) + "E" + Text(v)
    case KeySet(e) => "U3set" + Text(e)
    case Vector(e) => "U3vec" + Text(e)
    case VoidPointer(a) => PointerPrefix(a) + (if a.isCString then "c" else "v")
    case Pointer(a, e) => PointerPrefix(a) + (if a.isCString then "c" else Text(e))
    case Complex(isStruct) => if isStruct then "Cd" else "Cf"
    case Real(isDouble, isImaginary) =>
      if isDouble then (if isImaginary then "Gd" else "d") else if isImaginary then "Gf" else "f"
    case Integer(width, isSigned) => IntegerText(width, isSigned)
    case Array(dims, e) => DimsText(dims) + Text(e)
    case Named(path, name) => TypeName(path, name)
    case Function => "4func"
    case Interface => "interface"
    case Half => "f16"
  }

  function ListText(ts: seq<Type>): string {
    if ts == [] then "" else Text(ts[0]) + ListText(ts[1..])
  }

  /** The types that the printer accepts: a pointer to a type is shared, unique or const. */
  predicate Consistent(t: Type) {
    match t.body
    case Dictionary(k, v) => Consistent(k) && Consistent(v)
    case KeySet(e) => Consistent(e)
    case Vector(e) => Consistent(e)
    case Pointer(a, e) => a.isCString || ((a.isShared || a.isUnique || a.isConst) && Consistent(e))
    case Array(dims, e) => Consistent(e)
    case _ => true
  }

  lemma Assoc(a: string, b: string, c: string)
    ensures a + b + c == a + (b + c)
  {
  }

  /** Appends the text of a type; the compiler gives up on a pointer without a share kind. */
  method Print(out: string, t: Type) returns (r: Option<string>)
    ensures r == if Consistent(t) then Some(out + Text(t)) else None
    decreases t, 2
  {
    if t.byRef {
      r := PrintBody(out + "R", t);
      Assoc(out, "R", BodyText(t.body));
    } else {
      r := PrintBody(out, t);
      assert Text(t) == "" + BodyText(t.body) == BodyText(t.body);
    }
  }

  method PrintBody(out: string, t: Type) returns (r: Option<string>)
    ensures r == if Consistent(t) then Some(out + BodyText(t.body)) else None
    decreases t, 1
  {
    match t.body
    case Dictionary(k, v) =>
      var first := Print(out + "U3mapI", k);
      if first.None? {
        return None;
      }
      r := Print(first.value + "E", v);
      Assoc(out, "U3mapI", Text(k));
      Assoc(out, "U3mapI" + Text(k), "E");
      Assoc(out, "U3mapI" + Text(k) + "E", Text(v));
    case KeySet(e) =>
      r := Print(out + "U3set", e);
      Assoc(out, "U3set", Text(e));
    case Vector(e) =>
      r := Print(out + "U3vec", e);
      Assoc(out, "U3vec", Text(e));
    case VoidPointer(a) =>
      var letter := if a.isCString then "c" else "v";
      Assoc(out, PointerPrefix(a), letter);
      r := Some(out + PointerPrefix(a) + letter);
    case Pointer(a, e) =>
      var buf := out + PointerPrefix(a);
      if a.isCString {
        Assoc(out, PointerPrefix(a), "c");
        r := Some(buf + "c");
      } else if !(a.isUnique || a.isShared || a.isConst) {
        return None;
      } else {
        r := Print(buf, e);
        Assoc(out, PointerPrefix(a), Text(e));
      }
    case Array(dims, e) =>
      var buf := PrintDims(out, dims);
      r := Print(buf, e);
      Assoc(out, DimsText(dims), Text(e));
    case _ =>
      r := Some(out + BodyText(t.body));
  }

  method PrintDims(out: string, dims: seq<nat>) returns (r: string)
    ensures r == out + DimsText(dims)
  {
    r := out;
    var i := 0;
    while i < |dims|
      invariant 0 <= i <= |dims|
      invariant r + DimsText(dims[i..]) == out + DimsText(dims)
    {
      assert dims[i..][1..] == dims[i + 1..];
      Assoc(r, "A" + Decimal(dims[i]), DimsText(dims[i + 1..]));
      Assoc(r, "A", Decimal(dims[i]));
      r := r + "A" + Decimal(dims[i]);
      i := i + 1;
    }
  }
}
