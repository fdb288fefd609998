/** The mangled names of functions, and what can be read back from them (src/mangler.cc). */
module Mangler {
  import opened Options
  import opened Decimals
  import opened TypeNames
  import opened TypeReading

  datatype Flags = Flags(isMethod: bool, isConversion: bool, isConstructor: bool, isDestructor: bool,
                         isFull: bool, returnsValue: bool)

  /** A parameter type with its `mangled_name`, the alias it goes by as a receiver. */
  datatype Param = Param(ty: Type, alias: Option<string>)

  /** What follows the scope: nothing but the last name, an operator, or a mark behind the last name. */
  datatype Stem = Plain | Operator(code: string) | Constructor(isFull: bool) | Destructor(isFull: bool)

  /** The parts that a mangled name is made of. */
  datatype Symbol = Symbol(nested: bool, words: seq<string>, stem: Stem, closed: bool, conversion: bool,
      params: seq<Type>)

  // ---------------------------------------------------------------- the parts of a function's name

  predicate IsWordChar(c: char) {
    'a' <= c <= 'z' || 'A' <= c <= 'Z' || IsDigit(c) || c == '_'
  }

  predicate IsOperator(name: string)
    requires name != ""
  {
    !IsWordChar(name[|name| - 1])
  }

  predicate IsUnary(name: string)
    requires name != ""
  {
    IsOperator(name) && name[0] == 'u'
  }

  predicate IsReverse(name: string)
    requires name != ""
  {
    IsOperator(name) && name[0] == 'r'
  }

  /** The operator behind "unary", "reverse" or "binary"; none if the name is too short for that. */
  function Sign(name: string): Option<string>
    requires name != ""
  {
    var n := if IsUnary(name) then 5 else if IsReverse(name) then 7 else 6;
    if n <= |name| then Some(name[n..]) else None
  }

  function UnaryCode(op: string): Option<string> {
    if op == "+" then Some("ps") else if op == "-" then Some("ng") else None
  }

  function BinaryCode(op: string): Option<string> {
    if op == "+" then Some("pl")
    else if op == "-" then Some("mi")
    else if op == "*" then Some("ml")
    else if op == "/" then Some("dv")
    else if op == "%" then Some("rm")
    else if op == "^" then Some("eo")
    else if op == "=" then Some("aS")
    else if op == "+=" then Some("pL")
    else if op == "-=" then Some("mI")
    else if op == "*=" then Some("mL")
    else if op == "/=" then Some("dV")
    else if op == "%=" then Some("rM")
    else if op == "==" then Some("eq")
    else if op == "!=" then Some("ne")
    else if op == "<" then Some("lt")
    else if op == ">" then Some("gt")
    else if op == "<=" then Some("le")
    else if op == ">=" then Some("ge")
    else if op == "<=>" then Some("ss")
    else None
  }

  function CodeOf(name: string): Option<string>
    requires name != ""
  {
    match Sign(name)
    case None => None
    case Some(op) => if IsUnary(name) then UnaryCode(op) else BinaryCode(op)
  }

  /** The stem of a name; none for an operator that the compiler does not know. */
  function StemOf(name: string, f: Flags): Option<Stem>
    requires name != ""
  {
    if f.isDestructor then Some(Destructor(f.isFull))
    else if f.isConstructor then Some(Constructor(f.isFull))
    else if IsOperator(name) then
      match CodeOf(name)
      case None => None
      case Some(code) => Some(Operator(code))
    else Some(Plain)
  }

  function NameWords(name: string, f: Flags): seq<string>
    requires name != ""
  {
    if f.isDestructor then [name[1..]] else if !f.isConstructor && IsOperator(name) then [] else [name]
  }

  /** A receiver is known by a plain name, or by a name that has its length in front already. */
  predicate ProperLabel(alias: string) {
    alias != "" && (IsDigit(alias[0]) ==> alias == Component(LabelWord(alias)) && Identifier(LabelWord(alias)))
  }

  function LabelWord(alias: string): string {
    alias[Span(alias)..]
  }

  /** The name of a receiver type; a complex number in a vector register goes by its own. */
  function LabelOf(p: Param): Option<string> {
    if p.ty.body == Complex(false) then Some("3c32") else p.alias
  }

  /** The name of the receiver. */
  function ReceiverLabel(name: string, params: seq<Param>, f: Flags): Option<string>
    requires Callable(name, params, f)
  {
    if f.isMethod && !f.isDestructor && !f.isConstructor && !f.isConversion then
      LabelOf(params[if IsReverse(name) then 1 else 0])
    else None
  }

  /** A method has a receiver, which comes second in a reversed operator. */
  predicate Callable(name: string, params: seq<Param>, f: Flags) {
    && name != ""
    && (f.isMethod && !f.isDestructor && !f.isConstructor && !f.isConversion ==> |params| > if IsReverse(name) then 1
        else 0)
    && (forall p <- params :: p.alias.Some? ==> ProperLabel(p.alias.value))
  }

  function Types(params: seq<Param>): (r: seq<Type>)
    ensures |r| == |params| && forall i :: 0 <= i < |r| ==> r[i] == params[i].ty
  {
    seq(|params|, i requires 0 <= i < |params| => params[i].ty)
  }

  /** The parameters that are printed: a receiver is not, unless the function constructs a value. */
  function Printed(name: string, params: seq<Param>, f: Flags): seq<Type>
    requires name != ""
  {
    if (|params| > 0 && !f.isMethod) || |params| > 1 then
      if IsReverse(name) then [params[0].ty]
      else if !f.isMethod || f.returnsValue then Types(params)
      else Types(params)[1..]
    else []
  }

  function LabelWords(alias: Option<string>): seq<string> {
    match alias
    case None => []
    case Some(l) => [LabelWord(l)]
  }

  /** The symbol of a function whose stem is known. */
  function SymbolOf(path: seq<string>, name: string, params: seq<Param>, f: Flags, stem: Stem): Symbol
    requires Callable(name, params, f)
  {
    Symbol(path != [] || f.isMethod,
           path + LabelWords(ReceiverLabel(name, params, f)) + NameWords(name, f),
           stem,
           path != [] || (f.isMethod && !f.isConversion),
           f.isConversion,
           Printed(name, params, f))
  }

  // ---------------------------------------------------------------- printing

  function StemText(stem: Stem): string {
    match stem
    case Plain => ""
    case Operator(code) => code
    case Constructor(isFull) => if isFull then "C1" else "C2"
    case Destructor(isFull) => if isFull then "D1" else "D2"
  }

  function BaseText(s: Symbol): string {
    (if s.nested then "N" else "") + Components(s.words) + StemText(s.stem) + (if s.closed then "E" else "")
  }

  function ParamsText(s: Symbol): string {
    (if s.conversion then "cv" else "") + (if s.params == [] then "v" else ListText(s.params))
    + (if s.conversion then "Ev" else "")
  }

  function SymbolText(s: Symbol): string {
    "_Z" + BaseText(s) + ParamsText(s)
  }

  /** Appends the scope and the name; gives up on an unknown operator. */
  method MangleBase(out: string, path: seq<string>, name: string, receiver: Option<string>, f: Flags)
    returns (r: Option<string>)
    requires name != ""
    requires receiver.Some? ==> f.isMethod && ProperLabel(receiver.value)
    ensures r.Some? <==> StemOf(name, f).Some?
    ensures r.Some? ==>
              r.value == out + BaseText(Symbol(path != []
                  || f.isMethod, path + LabelWords(receiver) + NameWords(name, f),
                                               StemOf(name, f).value, path != []
                                                   || (f.isMethod && !f.isConversion), f.isConversion, []))
  {
    var buf := out;
    ghost var scope := if path != [] || f.isMethod then "N" else "";
    if path != [] || f.isMethod {
      buf := buf + "N";
      var i := 0;
      while i < |path|
        invariant 0 <= i <= |path|
        invariant buf == out + scope + Components(path[..i])
      {
        ComponentsAppend(path[..i], path[i]);
        assert path[..i + 1] == path[..i] + [path[i]];
        Assoc(out + scope, Components(path[..i]), Component(path[i]));
        buf := buf + Component(path[i]);
        i := i + 1;
      }
      assert path[..|path|] == path;
      if receiver.Some? {
        var l := receiver.value;
        ReceiverText(path, l);
        if !IsDigit(l[0]) {
          Assoc(out + scope, Components(path), Component(l));
          buf := buf + Component(l);
        } else {
          Assoc(out + scope, Components(path), l);
          buf := buf + l;
        }
      }
    }
    ghost var before := path + LabelWords(receiver);
    assert path == [] ==> Components(path) == "";
    assert before == path || receiver.Some?;
    assert buf == out + scope + Components(before);
    var stem := StemOf(name, f);
    if stem.None? {
      return None;
    }
    if f.isDestructor {
      buf := buf + Component(name[1..]) + StemText(stem.value);
    } else if f.isConstructor {
      buf := buf + Component(name) + StemText(stem.value);
    } else if IsOperator(name) {
      buf := buf + StemText(stem.value);
    } else {
      buf := buf + Component(name);
    }
    NameText(out + scope, before, NameWords(name, f), StemText(stem.value));
    assert buf == out + scope + Components(before + NameWords(name, f)) + StemText(stem.value);
    ghost var close := if path != [] || (f.isMethod && !f.isConversion) then "E" else "";
    if path != [] || (f.isMethod && !f.isConversion) {
      buf := buf + "E";
    }
    Join5(out, scope, Components(before + NameWords(name, f)), StemText(stem.value), close);
    r := Some(buf);
  }

  lemma Join5(a: string, b: string, c: string, d: string, e: string)
    ensures a + b + c + d + e == a + (b + c + d + e)
    ensures a + b + c + d + "" == a + b + c + d
  {
  }

  lemma ReceiverText(path: seq<string>, l: string)
    requires ProperLabel(l)
    ensures Components(path + [LabelWord(l)]) == Components(path) + (if IsDigit(l[0]) then l else Component(l))
  {
    ComponentsAppend(path, LabelWord(l));
    assert !IsDigit(l[0]) ==> LabelWord(l) == l;
  }

  /** One more name, or none, behind a text. */
  lemma NameText(out: string, before: seq<string>, words: seq<string>, stem: string)
    requires |words| <= 1
    ensures out + Components(before + words) + stem
         == (if words == [] then out + Components(before) + stem
             else out + Components(before) + Component(words[0]) + stem)
  {
    if words == [] {
      assert before + words == before;
    } else {
      assert before + words == before + [words[0]];
      ComponentsAppend(before, words[0]);
      Assoc(out, Components(before), Component(words[0]));
    }
  }

  predicate AllConsistent(ts: seq<Type>) {
    forall t <- ts :: Consistent(t)
  }

  /** The mangled name of a function; none where the compiler gives up on an operator or a type. */
  method Mangle(path: seq<string>, name: string, params: seq<Param>, f: Flags) returns (r: Option<string>)
    requires Callable(name, params, f)
    ensures r == if StemOf(name, f).Some? && AllConsistent(Printed(name, params, f))
                 then Some(SymbolText(SymbolOf(path, name, params, f, StemOf(name, f).value))) else None
  {
    ReceiverIsProper(name, params, f);
    r := MangleBase("_Z", path, name, ReceiverLabel(name, params, f), f);
    if r.None? {
      return;
    }
    var buf := r.value;
    ghost var types := Printed(name, params, f);
    ghost var symbol := SymbolOf(path, name, params, f, StemOf(name, f).value);
    ghost var base := "_Z" + BaseText(symbol);
    if f.isConversion {
      buf := buf + "cv";
    }
    ghost var mark := if f.isConversion then "cv" else "";
    assert buf == base + mark;
    if (|params| > 0 && !f.isMethod) || |params| > 1 {
      if IsReverse(name) {
        r := Print(buf, params[0].ty);
        assert types == [params[0].ty] && AllConsistent(types) == Consistent(types[0]);
        assert types[1..] == [] && ListText(types) == Text(types[0]) + "" == Text(types[0]);
      } else {
        r := PrintParams(buf, params, f);
      }
      if r.None? {
        return;
      }
      buf := r.value;
      assert buf == base + mark + ListText(types);
    } else {
      buf := buf + "v";
    }
    ghost var list := if types == [] then "v" else ListText(types);
    assert buf == base + mark + list;
    if f.isConversion {
      buf := buf + "Ev";
    }
    Join4(base, mark, list, if f.isConversion then "Ev" else "");
    r := Some(buf);
  }

  lemma Join4(a: string, b: string, c: string, d: string)
    ensures a + b + c + d == a + (b + c + d)
    ensures a + b + c + "" == a + b + c
  {
  }

  lemma ReceiverIsProper(name: string, params: seq<Param>, f: Flags)
    requires Callable(name, params, f)
    ensures var l := ReceiverLabel(name, params, f); l.Some? ==> f.isMethod && ProperLabel(l.value)
  {
    assert Decimal(3) == "3";
    var c := "3c32";
    assert Span(c[1..]) == 0 && Span(c) == 1;
    assert LabelWord(c) == "c32" && Component("c32") == "3c32";
  }

  /** Appends the types of the parameters, without the receiver. */
  method PrintParams(out: string, params: seq<Param>, f: Flags) returns (r: Option<string>)
    requires params != []
    ensures var types := if !f.isMethod || f.returnsValue then Types(params) else Types(params)[1..];
            r == if AllConsistent(types) then Some(out + ListText(types)) else None
  {
    ghost var types := if !f.isMethod || f.returnsValue then Types(params) else Types(params)[1..];
    ghost var skipped := |params| - |types|;
    var buf := out;
    var idx := 0;
    while idx < |params|
      invariant 0 <= idx <= |params|
      invariant idx < skipped ==> buf == out
      invariant idx >= skipped ==>
                  buf == out + ListText(types[..idx - skipped]) && AllConsistent(types[..idx - skipped])
    {
      if idx > 0 || !f.isMethod || f.returnsValue {
        ghost var done := types[..idx - skipped];
        var next := Print(buf, params[idx].ty);
        assert types[idx - skipped] == params[idx].ty;
        if next.None? {
          return None;
        }
        ListAppend(done, params[idx].ty);
        assert types[..idx + 1 - skipped] == done + [params[idx].ty];
        Assoc(out, ListText(done), Text(params[idx].ty));
        buf := next.value;
      }
      idx := idx + 1;
    }
    assert types[..|types|] == types;
    r := Some(buf);
  }

  lemma {:induction false} ListAppend(ts: seq<Type>, t: Type)
    ensures ListText(ts + [t]) == ListText(ts) + Text(t)
  {
    if ts == [] {
      assert [t][1..] == [];
    } else {
      ListAppend(ts[1..], t);
      assert (ts + [t])[1..] == ts[1..] + [t];
    }
  }

  // ---------------------------------------------------------------- reading back

  predicate IsCode(s: string) {
    s in {"ps", "ng", "pl", "mi", "ml", "dv", "rm", "eo", "aS", "pL", "mI", "mL", "dV", "rM",
          "eq", "ne", "lt", "gt", "le", "ge", "ss"}
  }

  predicate Starts2(s: string, c: char, d: char) {
    |s| >= 2 && s[0] == c && s[1] == d
  }

  function ReadStem(nested: bool, words: seq<string>, s: string): (Stem, string) {
    if Starts2(s, 'C', '1') then (Constructor(true), s[2..])
    else if Starts2(s, 'C', '2') then (Constructor(false), s[2..])
    else if Starts2(s, 'D', '1') then (Destructor(true), s[2..])
    else if Starts2(s, 'D', '2') then (Destructor(false), s[2..])
    else if (nested || words == []) && |s| >= 2 && IsCode(s[..2]) then (Operator(s[..2]), s[2..])
    else (Plain, s)
  }

  function ReadParams(s: string): Option<(bool, seq<Type>)> {
    var conversion := Starts2(s, 'c', 'v');
    var s1 := if conversion then s[2..] else s;
    match if Starts(s1, 'v') then Some(([], s1[1..])) else ReadList(s1)
    case None => None
    case Some(ts) => if ts.1 == (if conversion then "Ev" else "") then Some((conversion, ts.0)) else None
  }

  function ReadWords(nested: bool, s: string): Option<(seq<string>, string)> {
    if nested then ReadComponents(s)
    else if !StartsWithDigit(s) then Some(([], s))
    else
      match ReadComponent(s)
      case None => None
      case Some(w) => Some(([w.0], w.1))
  }

  function ReadRest(nested: bool, words: seq<string>, s: string): Option<Symbol> {
    var stem := ReadStem(nested, words, s);
    var closed := nested && Starts(stem.1, 'E');
    match ReadParams(if closed then stem.1[1..] else stem.1)
    case None => None
    case Some(p) => Some(Symbol(nested, words, stem.0, closed, p.0, p.1))
  }

  function ReadSymbol(s: string): Option<Symbol> {
    if !Starts2(s, '_', 'Z') then None
    else
      var nested := Starts(s[2..], 'N');
      match ReadWords(nested, if nested then s[3..] else s[2..])
      case None => None
      case Some(w) => ReadRest(nested, w.0, w.1)
  }

  /** The symbols that functions have. */
  predicate WellFormed(s: Symbol) {
    && (forall w <- s.words :: Identifier(w))
    && (s.stem.Operator? ==> IsCode(s.stem.code))
    && (if s.nested then s.closed || s.conversion else !s.closed && |s.words| == if s.stem.Operator? then 0 else 1)
    && AllReadable(s.params)
  }

  function EraseSymbol(s: Symbol): Symbol {
    s.(params := EraseAll(s.params))
  }

  /** What parameters can start with: not with a number, a constructor's mark or an operator of a nested name. */
  lemma ParamsStart(s: Symbol)
    requires AllReadable(s.params)
    ensures var p := ParamsText(s);
            && p != "" && p[0] !in "ED"
            && !Starts2(p, 'C', '1') && !Starts2(p, 'C', '2')
            && Starts2(p, 'c', 'v') == s.conversion
  {
    if s.params != [] {
      ListStart2(s.params);
    }
  }

  lemma ListStart2(ts: seq<Type>)
    requires AllReadable(ts) && ts != []
    ensures var p := ListText(ts);
            p != "" && p[0] !in "nvEKSD" && !Starts2(p, 'C', '1') && !Starts2(p, 'C', '2') && !Starts2(p, 'c', 'v')
  {
    Start(ts[0]);
    ListStart(ts[1..]);
    SecondLetter(ts[0]);
    if Text(ts[0])[0] == 'c' {
      assert ListText(ts) == "c" + ListText(ts[1..]);
    }
  }

  lemma SecondLetter(t: Type)
    requires Readable(t)
    ensures Text(t) != "" && (Text(t)[0] == 'C' ==> |Text(t)| == 2 && Text(t)[1] in "df")
  {
    Start(t);
    match t.body
    case Named(path, name) =>
      DecimalDigits(|name|);
    case _ =>
  }

  lemma ParamsReadBack(s: Symbol)
    requires AllReadable(s.params)
    ensures ReadParams(ParamsText(s)) == Some((s.conversion, EraseAll(s.params)))
  {
    ParamsStart(s);
    var end := if s.conversion then "Ev" else "";
    var p := ParamsText(s);
    var list := if s.params == [] then "v" else ListText(s.params);
    var s1 := if s.conversion then p[2..] else p;
    assert s1 == list + end;
    if s.params == [] {
      assert s1[1..] == end;
    } else {
      ListStart2(s.params);
      ListReadBack(s.params, end);
    }
  }

  lemma StemReadBack(s: Symbol, tail: string)
    requires WellFormed(s)
    requires tail != "" && tail[0] != 'D' && !Starts2(tail, 'C', '1') && !Starts2(tail, 'C', '2')
    requires s.nested ==> tail[0] == 'E' || Starts2(tail, 'c', 'v')
    ensures ReadStem(s.nested, s.words, StemText(s.stem) + tail) == (s.stem, tail)
  {
    var t := StemText(s.stem) + tail;
    match s.stem
    case Plain =>
      assert t == tail;
      assert |t| >= 2 ==> t[..2][0] == t[0] && t[..2][1] == t[1];
    case Operator(code) =>
      assert t[..2] == code && t[2..] == tail;
      assert code[0] !in "CD";
    case _ =>
      assert t[2..] == tail;
  }

  lemma RestReadBack(s: Symbol)
    requires WellFormed(s)
    ensures ReadRest(s.nested, s.words, StemText(s.stem) + ((if s.closed then "E" else "") + ParamsText(s)))
              == Some(EraseSymbol(s))
  {
    ParamsStart(s);
    ParamsReadBack(s);
    var p := ParamsText(s);
    var tail := (if s.closed then "E" else "") + p;
    assert s.closed ==> tail[1..] == p;
    assert !s.closed ==> tail == p;
    StemReadBack(s, tail);
  }

  lemma WordsReadBack(s: Symbol, tail: string)
    requires WellFormed(s)
    requires s.nested || s.stem.Operator? ==> !StartsWithDigit(tail)
    ensures ReadWords(s.nested, Components(s.words) + tail) == Some((s.words, tail))
    ensures !s.nested ==> Starts(Components(s.words) + tail, 'N') ==> s.stem.Operator? && Starts(tail, 'N')
  {
    if s.nested {
      ComponentsReadBack(s.words, tail);
    } else if s.stem.Operator? {
      assert Components(s.words) + tail == tail;
    } else {
      assert s.words == [s.words[0]];
      assert Components(s.words) == Component(s.words[0]) + "" == Component(s.words[0]);
      ComponentReadBack(s.words[0], tail);
    }
  }

  /** The symbol's text is the start, the scope, its names and the rest. */
  lemma SymbolParts(s: Symbol, rest: string)
    requires rest == StemText(s.stem) + ((if s.closed then "E" else "") + ParamsText(s))
    ensures var t := SymbolText(s); var tail := Components(s.words) + rest;
            Starts2(t, '_', 'Z') && t[2..] == (if s.nested then "N" else "") + tail && (s.nested ==> t[3..] == tail)
  {
    var mark, tail := if s.nested then "N" else "", Components(s.words) + rest;
    SameParts(mark, Components(s.words), StemText(s.stem), if s.closed then "E" else "", ParamsText(s));
    assert SymbolText(s) == "_Z" + (mark + tail);
    Marked(mark, tail);
  }

  lemma Marked(mark: string, tail: string)
    ensures var t := "_Z" + (mark + tail); Starts2(t, '_', 'Z') && t[2..] == mark + tail
    ensures mark == "N" ==> ("_Z" + (mark + tail))[3..] == tail
  {
  }

  lemma SameParts(a: string, b: string, c: string, d: string, e: string)
    ensures "_Z" + (a + b + c + d) + e == "_Z" + (a + (b + (c + (d + e))))
  {
  }

  lemma RestStart(s: Symbol, rest: string)
    requires WellFormed(s)
    requires rest == StemText(s.stem) + ((if s.closed then "E" else "") + ParamsText(s))
    ensures s.nested || s.stem.Operator? ==> !StartsWithDigit(rest)
    ensures s.stem.Operator? ==> !Starts(rest, 'N')
  {
    ParamsStart(s);
    if s.stem.Operator? {
      assert rest[0] == s.stem.code[0];
    }
  }

  lemma {:induction false} SymbolReadBack(s: Symbol)
    requires WellFormed(s)
    ensures ReadSymbol(SymbolText(s)) == Some(EraseSymbol(s))
  {
    var rest := StemText(s.stem) + ((if s.closed then "E" else "") + ParamsText(s));
    RestStart(s, rest);
    WordsReadBack(s, rest);
    RestReadBack(s);
    SymbolParts(s, rest);
    assert "" + (Components(s.words) + rest) == Components(s.words) + rest;
  }

  lemma ErasedSymbolText(s: Symbol)
    requires WellFormed(s)
    ensures SymbolText(EraseSymbol(s)) == SymbolText(s)
  {
    ErasedList(s.params);
  }

  /** Two functions have the same mangled name exactly when their names and types agree up to what is not printed. */
  lemma SymbolsDecode(s: Symbol, t: Symbol)
    requires WellFormed(s) && WellFormed(t)
    ensures SymbolText(s) == SymbolText(t) <==> EraseSymbol(s) == EraseSymbol(t)
  {
    SymbolReadBack(s);
    SymbolReadBack(t);
    ErasedSymbolText(s);
    ErasedSymbolText(t);
  }

  // ---------------------------------------------------------------- what functions share a name

  /** Scopes and names that do not start with a digit. */
  predicate ProperNames(path: seq<string>, name: string, f: Flags) {
    && name != ""
    && (forall w <- path :: Identifier(w))
    && (forall w <- NameWords(name, f) :: Identifier(w))
  }

  lemma SymbolIsWellFormed(path: seq<string>, name: string, params: seq<Param>, f: Flags)
    requires Callable(name, params, f) && ProperNames(path, name, f)
    requires StemOf(name, f).Some? && AllReadable(Printed(name, params, f))
    ensures WellFormed(SymbolOf(path, name, params, f, StemOf(name, f).value))
  {
    ReceiverIsProper(name, params, f);
  }

  const FREE := Flags(false, false, false, false, false, false)
  const METHOD := Flags(true, false, false, false, false, false)

  /** A free function that is no operator is known by its path, its name and the printed part of its types. */
  lemma FreeFunctionsDecode(path1: seq<string>, name1: string, params1: seq<Param>,
                            path2: seq<string>, name2: string, params2: seq<Param>)
    requires Callable(name1, params1, FREE) && ProperNames(path1, name1, FREE) && !IsOperator(name1)
    requires Callable(name2, params2, FREE) && ProperNames(path2, name2, FREE) && !IsOperator(name2)
    requires AllReadable(Types(params1)) && AllReadable(Types(params2))
    ensures SymbolText(SymbolOf(path1, name1, params1, FREE, Plain))
              == SymbolText(SymbolOf(path2, name2, params2, FREE, Plain))
       <==> path1 == path2 && name1 == name2 && EraseAll(Types(params1)) == EraseAll(Types(params2))
  {
    FreeSymbol(path1, name1, params1);
    FreeSymbol(path2, name2, params2);
    SymbolsDecode(SymbolOf(path1, name1, params1, FREE, Plain), SymbolOf(path2, name2, params2, FREE, Plain));
    SplitLast(path1, name1, path2, name2);
  }

  lemma FreeSymbol(path: seq<string>, name: string, params: seq<Param>)
    requires Callable(name, params, FREE) && ProperNames(path, name, FREE) && !IsOperator(name)
    requires AllReadable(Types(params))
    ensures var s := SymbolOf(path, name, params, FREE, Plain);
            s == Symbol(path != [], path + [name], Plain, path != [], false, Types(params)) && WellFormed(s)
  {
    SymbolIsWellFormed(path, name, params, FREE);
    assert params == [] ==> Types(params) == [];
    assert path + [] + [name] == path + [name];
  }

  lemma SplitLast<T>(s: seq<T>, x: T, t: seq<T>, y: T)
    ensures s + [x] == t + [y] <==> s == t && x == y
  {
    if s + [x] == t + [y] {
      assert (s + [x])[..|s|] == s && (t + [y])[..|t|] == t;
      assert (s + [x])[|s|] == x && (t + [y])[|t|] == y;
    }
  }

  /** An operator's code tells which operator it is, and how many operands it has. */
  lemma CodesDiffer(name1: string, name2: string)
    requires name1 != "" && name2 != "" && IsOperator(name1) && IsOperator(name2)
    requires CodeOf(name1).Some? && CodeOf(name1) == CodeOf(name2)
    ensures IsUnary(name1) == IsUnary(name2) && Sign(name1) == Sign(name2) && IsCode(CodeOf(name1).value)
  {
    CodesInvert(name1);
    CodesInvert(name2);
  }

  function Operators(): map<string, (bool, string)> {
    map["ps" := (true, "+"), "ng" := (true, "-"), "pl" := (false, "+"), "mi" := (false, "-"), "ml" := (false, "*"),
        "dv" := (false, "/"), "rm" := (false, "%"), "eo" := (false, "^"), "aS" := (false, "="), "pL" := (false, "+="),
        "mI" := (false, "-="), "mL" := (false, "*="), "dV" := (false, "/="), "rM" := (false, "%="),
            "eq" := (false, "=="),
        "ne" := (false, "!="), "lt" := (false, "<"), "gt" := (false, ">"), "le" := (false, "<="), "ge" := (false, ">="),
        "ss" := (false, "<=>")]
  }

  lemma CodesInvert(name: string)
    requires name != "" && IsOperator(name) && CodeOf(name).Some?
    ensures IsCode(CodeOf(name).value) && CodeOf(name).value in Operators()
    ensures Operators()[CodeOf(name).value] == (IsUnary(name), Sign(name).value)
  {
    var op := Sign(name).value;
    if IsUnary(name) {
      UnaryInvert(op);
    } else {
      BinaryInvert(op);
    }
  }

  lemma UnaryInvert(op: string)
    requires UnaryCode(op).Some?
    ensures var code := UnaryCode(op).value; IsCode(code) && code in Operators() && Operators()[code] == (true, op)
  {
  }

  lemma BinaryInvert(op: string)
    requires BinaryCode(op).Some?
    ensures var code := BinaryCode(op).value; IsCode(code) && code in Operators() && Operators()[code] == (false, op)
  {
  }

  // ---------------------------------------------------------------- operators as they are declared

  /** A struct, or a complex number in a vector register: one of the operands must be such. */
  predicate IsDeclared(p: Param) {
    var b := p.ty.body;
    b.Named? || b.Dictionary? || b.KeySet? || b.Vector? || b.Interface? || b.Complex?
  }

  /** The operand that makes the declaration a method is the right one. */
  predicate IsReversed(operands: seq<Param>) {
    |operands| == 2 && !IsDeclared(operands[0]) && IsDeclared(operands[1])
  }

  predicate IsSign(op: string) {
    op != "" && !IsWordChar(op[|op| - 1])
  }

  /** The name that an operator gets for its operands in the order of the source text; none if it is refused. */
  function DeclaredName(op: string, operands: seq<Param>): Option<string>
    requires op != ""
  {
    if |operands| == 0 || |operands| > 2 then None
    else if IsDeclared(operands[0]) then
      if |operands| == 2 then Some("binary" + op)
      else if op[0] in "+-" then Some("unary" + op)
      else None
    else if IsReversed(operands) then Some("reverse" + op)
    else None
  }

  /** The parameters: a declared type on the right comes first, by reference, and the left operand goes by value. */
  function DeclaredParams(operands: seq<Param>): seq<Param> {
    if IsReversed(operands) then [ByRef(operands[1], true), ByRef(operands[0], false)] else operands
  }

  function ByRef(p: Param, byRef: bool): Param {
    p.(ty := p.ty.(byRef := byRef))
  }

  /** The name is found, and the operands of a reversed operator are swapped. */
  method DeclareOperator(op: string, args: array<Param>) returns (name: Option<string>)
    requires op != ""
    modifies args
    ensures name == DeclaredName(op, old(args[..]))
    ensures args[..] == if name.Some? then DeclaredParams(old(args[..])) else old(args[..])
  {
    if args.Length == 0 || args.Length > 2 {
      return None;
    }
    if IsDeclared(args[0]) {
      if args.Length == 1 {
        return if op[0] in "+-" then Some("unary" + op) else None;
      }
      return Some("binary" + op);
    }
    if args.Length < 2 || !IsDeclared(args[1]) {
      return None;
    }
    args[0], args[1] := args[1], args[0];
    args[0] := ByRef(args[0], true);
    args[1] := ByRef(args[1], false);
    name := Some("reverse" + op);
  }

  function OperatorCode(op: string, operands: nat): Option<string> {
    if operands == 1 then UnaryCode(op) else BinaryCode(op)
  }

  /** The type of the right operand as it is printed: the one of a reversed operator is a reference. */
  function RightTypes(operands: seq<Param>): seq<Type> {
    if |operands| != 2 then []
    else if IsReversed(operands) then [ByRef(operands[1], true).ty]
    else [operands[1].ty]
  }

  /** The symbol of an operator in terms of its operands in the order of the source text. */
  function OperatorSymbol(path: seq<string>, op: string, operands: seq<Param>): Symbol
    requires |operands| > 0 && OperatorCode(op, |operands|).Some?
  {
    Symbol(true, path + LabelWords(LabelOf(operands[0])), Operator(OperatorCode(op, |operands|).value), true, false,
           RightTypes(operands))
  }

  predicate ProperOperands(operands: seq<Param>) {
    forall p <- operands :: p.alias.Some? ==> ProperLabel(p.alias.value)
  }

  /** Swapping the operands and reading the receiver from the second place cancel out. */
  lemma DeclaredSymbol(path: seq<string>, op: string, operands: seq<Param>)
    requires IsSign(op) && ProperOperands(operands) && DeclaredName(op, operands).Some?
    ensures var name := DeclaredName(op, operands).value;
            && name != "" && Callable(name, DeclaredParams(operands), METHOD)
            && Printed(name, DeclaredParams(operands), METHOD) == RightTypes(operands)
    ensures var name := DeclaredName(op, operands).value;
            match StemOf(name, METHOD)
            case None => OperatorCode(op, |operands|).None?
            case Some(stem) => OperatorCode(op, |operands|).Some? &&
                               SymbolOf(path, name, DeclaredParams(operands), METHOD, stem)
                                   == OperatorSymbol(path, op, operands)
  {
    var name, params := DeclaredName(op, operands).value, DeclaredParams(operands);
    assert name[|name| - 1] == op[|op| - 1];
    assert IsUnary(name) ==> name[5..] == op;
    assert IsReverse(name) ==> name[7..] == op;
    assert !IsUnary(name) && !IsReverse(name) ==> name[6..] == op;
    if |operands| == 2 && !IsReversed(operands) {
      assert Types(params)[1..] == [operands[1].ty];
    }
    var words := LabelWords(LabelOf(operands[0]));
    assert path + words + [] == path + words;
  }

  /** From the declaration of an operator to its mangled name. */
  method MangleOperator(path: seq<string>, op: string, args: array<Param>) returns (r: Option<string>)
    requires IsSign(op) && ProperOperands(args[..])
    modifies args
    ensures var operands := old(args[..]);
            r == if DeclaredName(op, operands).Some? && OperatorCode(op, |operands|).Some?
                      && AllConsistent(RightTypes(operands))
                 then Some(SymbolText(OperatorSymbol(path, op, operands))) else None
  {
    ghost var operands := args[..];
    var name := DeclareOperator(op, args);
    if name.None? {
      return None;
    }
    DeclaredSymbol(path, op, operands);
    r := Mangle(path, name.value, args[..], METHOD);
  }

  /** An operator whose symbol can be read back. */
  predicate ReadableOperator(path: seq<string>, op: string, operands: seq<Param>) {
    && IsSign(op) && ProperOperands(operands) && DeclaredName(op, operands).Some?
    && OperatorCode(op, |operands|).Some?
    && LabelOf(operands[0]).Some? && AllReadable(RightTypes(operands)) && forall w <- path :: Identifier(w)
  }

  /**
    * Two operators have the same mangled name exactly if path, operator, number of operands, the left operand's name
    * and the printed type of the right operand agree.
    */
  lemma OperatorsDecode(path1: seq<string>, op1: string, operands1: seq<Param>,
                        path2: seq<string>, op2: string, operands2: seq<Param>)
    requires ReadableOperator(path1, op1, operands1) && ReadableOperator(path2, op2, operands2)
    ensures SymbolText(OperatorSymbol(path1, op1, operands1)) == SymbolText(OperatorSymbol(path2, op2, operands2))
       <==> && path1 == path2 && op1 == op2 && |operands1| == |operands2|
            && LabelWord(LabelOf(operands1[0]).value) == LabelWord(LabelOf(operands2[0]).value)
            && EraseAll(RightTypes(operands1)) == EraseAll(RightTypes(operands2))
  {
    OperatorIsWellFormed(path1, op1, operands1);
    OperatorIsWellFormed(path2, op2, operands2);
    SymbolsDecode(OperatorSymbol(path1, op1, operands1), OperatorSymbol(path2, op2, operands2));
    SplitLast(path1, LabelWord(LabelOf(operands1[0]).value), path2, LabelWord(LabelOf(operands2[0]).value));
    if OperatorCode(op1, |operands1|) == OperatorCode(op2, |operands2|) {
      DeclaredCode(path1, op1, operands1);
      DeclaredCode(path2, op2, operands2);
      CodesDiffer(DeclaredName(op1, operands1).value, DeclaredName(op2, operands2).value);
    }
  }

  lemma DeclaredCode(path: seq<string>, op: string, operands: seq<Param>)
    requires ReadableOperator(path, op, operands)
    ensures var name := DeclaredName(op, operands).value;
            name != "" && IsOperator(name) && CodeOf(name) == OperatorCode(op, |operands|)
                && Sign(name) == Some(op) && IsUnary(name) == (|operands| == 1)
  {
    DeclaredSymbol(path, op, operands);
    var name := DeclaredName(op, operands).value;
    assert IsUnary(name) ==> name[5..] == op;
    assert IsReverse(name) ==> name[7..] == op;
    assert !IsUnary(name) && !IsReverse(name) ==> name[6..] == op;
  }

  lemma OperatorIsWellFormed(path: seq<string>, op: string, operands: seq<Param>)
    requires ReadableOperator(path, op, operands)
    ensures WellFormed(OperatorSymbol(path, op, operands))
  {
    DeclaredSymbol(path, op, operands);
    SymbolIsWellFormed(path, DeclaredName(op, operands).value, DeclaredParams(operands), METHOD);
  }

  // ---------------------------------------------------------------- names as they are

  function Three(a: Body, b: Body, c: Body): seq<Type> {
    [Type(false, a), Type(false, b), Type(false, c)]
  }

  lemma ThreeText(a: Body, b: Body, c: Body)
    ensures ListText(Three(a, b, c)) == BodyText(a) + BodyText(b) + BodyText(c)
  {
    var x, y, z := Type(false, a), Type(false, b), Type(false, c);
    ListAppend([], x);
    ListAppend([x], y);
    ListAppend([x, y], z);
    assert [] + [x] == [x] && [x] + [y] == [x, y] && [x, y] + [z] == Three(a, b, c);
    ByValue(a);
    ByValue(b);
    ByValue(c);
  }

  lemma ByValue(b: Body)
    ensures Text(Type(false, b)) == BodyText(b) && "" + BodyText(b) == BodyText(b)
  {
  }

  lemma {:induction false} ListsAppend(ts: seq<Type>, us: seq<Type>)
    ensures ListText(ts + us) == ListText(ts) + ListText(us)
  {
    if ts == [] {
      assert ts + us == us;
    } else {
      ListsAppend(ts[1..], us);
      assert (ts + us)[1..] == ts[1..] + us && (ts + us)[0] == ts[0];
      Assoc(Text(ts[0]), ListText(ts[1..]), ListText(us));
    }
  }

  /** The integer types, `bool` first, and then the floating-point, imaginary and complex ones. */
  function Integers(): seq<Type> {
    Three(Integer(1, false), Integer(8, true), Integer(8, false))
    + Three(Integer(16, true), Integer(16, false), Integer(32, true))
    + Three(Integer(32, false), Integer(64, true), Integer(64, false))
  }

  function Floats(): seq<Type> {
    Three(Real(false, false), Real(true, false), Real(false, true))
    + Three(Real(true, true), Complex(false), Complex(true))
  }

  lemma IntegersText()
    ensures ListText(Integers()) == "bchstijxy"
  {
    var a := Three(Integer(1, false), Integer(8, true), Integer(8, false));
    var b := Three(Integer(16, true), Integer(16, false), Integer(32, true));
    var c := Three(Integer(32, false), Integer(64, true), Integer(64, false));
    ThreeText(Integer(1, false), Integer(8, true), Integer(8, false));
    ThreeText(Integer(16, true), Integer(16, false), Integer(32, true));
    ThreeText(Integer(32, false), Integer(64, true), Integer(64, false));
    ListsAppend(a, b);
    ListsAppend(a + b, c);
  }

  lemma FloatsText()
    ensures ListText(Floats()) == "fdGfGdCfCd"
  {
    ThreeText(Real(false, false), Real(true, false), Real(false, true));
    ThreeText(Real(true, true), Complex(false), Complex(true));
    ListsAppend(Three(Real(false, false), Real(true, false), Real(false, true)),
                Three(Real(true, true), Complex(false), Complex(true)));
  }

  lemma BuiltinsText()
    ensures ListText(Integers() + Floats()) == "bchstijxyfdGfGdCfCd"
  {
    IntegersText();
    FloatsText();
    ListsAppend(Integers(), Floats());
  }

  /** The mangled name of a free function with one parameter of each builtin type. */
  lemma BuiltinCodes(name: string, params: seq<Param>)
    requires Callable(name, params, FREE) && !IsOperator(name) && Types(params) == Integers() + Floats()
    ensures SymbolText(SymbolOf([], name, params, FREE, Plain)) == "_Z" + Component(name) + "bchstijxyfdGfGdCfCd"
  {
    BuiltinsText();
    assert |Integers() + Floats()| == 15;
    FreeName(name, params, "bchstijxyfdGfGdCfCd");
  }

  /** Modules from the outermost in, then the name. */
  lemma ScopesInOrder(a: string, b: string, name: string)
    ensures TypeName([a, b], name) == "N" + Component(a) + Component(b) + Component(name) + "E"
    ensures TypeName([], name) == Component(name)
  {
    ComponentsAppend([], a);
    ComponentsAppend([a], b);
    assert [] + [a] == [a] && [a] + [b] == [a, b];
    assert "" + Component(a) == Component(a);
  }

  /** A map from `i32` to `f64`, a set of `u8`, a vector of `bool`, a matrix, and what C is given for strings. */
  lemma ContainerCodes()
    ensures BodyText(Dictionary(Type(false, Integer(32, true)), Type(false, Real(true, false)))) == "U3mapIiEd"
    ensures BodyText(KeySet(Type(false, Integer(8, false)))) == "U3seth"
    ensures BodyText(Vector(Type(false, Integer(1, false)))) == "U3vecb"
    ensures BodyText(Array([2, 3], Type(false, Real(false, false)))) == "A2A3f"
    ensures BodyText(VoidPointer(Attributes(false, true, false, true))) == "PKc"
  {
    ByValue(Integer(32, true));
    ByValue(Real(true, false));
    ByValue(Integer(8, false));
    ByValue(Integer(1, false));
    ByValue(Real(false, false));
    assert [2, 3][1..] == [3] && [3][1..] == [];
    assert Decimal(2) == "2" && Decimal(3) == "3";
    assert DimsText([3]) == "A" + "3" + "";
    assert DimsText([2, 3]) == "A" + "2" + DimsText([3]);
  }

  /** A name that ends in a letter, a digit or an underscore is no operator; one that ends in a sign is. */
  lemma OperatorsEndInSigns(name: string, op: string)
    requires name != "" && op in {"+", "-", "*", "/", "%", "^", "=", "<", ">"}
    ensures var c := name[|name| - 1];
            'a' <= c <= 'z' || 'A' <= c <= 'Z' || '0' <= c <= '9' || c == '_' ==> !IsOperator(name)
    ensures IsOperator(name + op)
  {
    assert (name + op)[|name + op| - 1] == op[0];
  }

  function ConstructorFlags(isFull: bool): Flags {
    Flags(true, false, true, false, isFull, false)
  }

  function DestructorFlags(isFull: bool): Flags {
    Flags(true, false, false, true, isFull, false)
  }

  /** The name of a constructor outside any module; the object itself is no printed parameter. */
  lemma ConstructorNames(name: string, self: Param, rest: seq<Param>, isFull: bool)
    requires Callable(name, [self] + rest, ConstructorFlags(isFull)) && !IsOperator(name)
    ensures StemOf(name, ConstructorFlags(isFull)) == Some(Constructor(isFull))
    ensures SymbolText(SymbolOf([], name, [self] + rest, ConstructorFlags(isFull), Constructor(isFull)))
         == "_ZN" + Component(name) + (if isFull then "C1" else "C2") + "E"
            + (if rest == [] then "v" else ListText(Types(rest)))
  {
    ConstructorSymbol(name, self, rest, isFull);
    MethodText(name, Constructor(isFull), Types(rest));
  }

  lemma ConstructorSymbol(name: string, self: Param, rest: seq<Param>, isFull: bool)
    requires Callable(name, [self] + rest, ConstructorFlags(isFull)) && !IsOperator(name)
    ensures SymbolOf([], name, [self] + rest, ConstructorFlags(isFull), Constructor(isFull))
         == Symbol(true, [name], Constructor(isFull), true, false, Types(rest))
  {
    assert [] + [] + [name] == [name];
    assert Types([self] + rest)[1..] == Types(rest);
  }

  lemma DestructorNames(name: string, self: Param, isFull: bool)
    requires Callable("~" + name, [self], DestructorFlags(isFull))
    ensures StemOf("~" + name, DestructorFlags(isFull)) == Some(Destructor(isFull))
    ensures SymbolText(SymbolOf([], "~" + name, [self], DestructorFlags(isFull), Destructor(isFull)))
         == "_ZN" + Component(name) + (if isFull then "D1" else "D2") + "Ev"
  {
    assert ("~" + name)[1..] == name && [] + [] + [name] == [name];
    MethodText(name, Destructor(isFull), []);
  }

  lemma MethodText(name: string, stem: Stem, types: seq<Type>)
    ensures SymbolText(Symbol(true, [name], stem, true, false, types))
         == "_ZN" + Component(name) + StemText(stem) + "E" + (if types == [] then "v" else ListText(types))
  {
    assert Components([name]) == Component(name) + "" == Component(name);
    MethodParts(Component(name), StemText(stem), if types == [] then "v" else ListText(types));
  }

  lemma MethodParts(name: string, stem: string, params: string)
    ensures "_Z" + ("N" + name + stem + "E") + ("" + params + "") == "_ZN" + name + stem + "E" + params
  {
  }

  lemma FreeName(name: string, params: seq<Param>, text: string)
    requires Callable(name, params, FREE) && !IsOperator(name) && params != [] && ListText(Types(params)) == text
    ensures SymbolText(SymbolOf([], name, params, FREE, Plain)) == "_Z" + Component(name) + text
  {
    assert [] + [] + [name] == [name];
    NameAndList(name, Types(params), text);
  }

  lemma NameAndList(name: string, types: seq<Type>, text: string)
    requires types != [] && ListText(types) == text
    ensures SymbolText(Symbol(false, [name], Plain, false, false, types)) == "_Z" + Component(name) + text
  {
    var s := Symbol(false, [name], Plain, false, false, types);
    assert Components([name]) == Component(name) + "" == Component(name);
    assert BaseText(s) == Component(name);
    assert ParamsText(s) == text;
  }

  /** A declared type's name is what the same routine gives for its scope and name. */
  lemma TypeNameIsBase(path: seq<string>, name: string)
    ensures TypeName(path, name) == BaseText(Symbol(path != [], path + [name], Plain, path != [], false, []))
  {
    ComponentsAppend(path, name);
  }
}
