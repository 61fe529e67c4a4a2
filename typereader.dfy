/** A reader for the type text that `typeString` produces, following Go's
    grammar for type expressions, and the proof that reading a rendering
    gives back the type (up to what rendering drops on purpose: parameter
    names, and the difference between a nil and an empty parameter list).
    It shows that the printer is faithful: the text it emits denotes the
    type it was given. */
module TypeReader {
  import opened GoStrings
  import opened TypePrinter

  /** Characters of a Go identifier (ASCII letters, digits, underscore, and
      any non-ASCII character, which covers Unicode letters). */
  predicate IsIdentChar(c: char)
  {
    ('a' <= c <= 'z') || ('A' <= c <= 'Z') || ('0' <= c <= '9') || c == '_' || c as int > 127
  }

  predicate IsIdentText(s: string)
  {
    |s| > 0 && forall k :: 0 <= k < |s| ==> IsIdentChar(s[k])
  }

  /** An identifier that can name a type: not one of the keywords that begin a type. */
  predicate IsTypeName(s: string)
  {
    IsIdentText(s) && s != "map" && s != "chan" && s != "func" && s != "interface"
  }

  /** A basic literal used as an array length, as the reader delimits it. */
  predicate IsLengthLiteral(s: string)
  {
    |s| > 0 && ']' !in s
  }

  /** The trees Go's parser produces for type expressions that typeString
      accepts: identifiers are identifiers, and a bidirectional channel never
      holds a receive-only channel directly (Go's parser wraps that one in a
      parenthesised expression, which typeString rejects). */
  predicate WellFormed(t: TypeExpr)
    decreases t, 1
  {
    match t
    case Ident(name) => IsTypeName(name)
    case Star(x) => WellFormed(x)
    case Array(len, elt) =>
      (len.NoLen? || (len.LitLen? && IsLengthLiteral(len.literal))) && WellFormed(elt)
    case Selector(x, sel) => x.Ident? && IsTypeName(x.name) && IsIdentText(sel)
    case Interface(methods) => |methods| == 0
    case MapType(key, value) => WellFormed(key) && WellFormed(value)
    case Ellipsis(elt) => WellFormed(elt)
    case FuncType(params, results) => WellFormedList(params) && WellFormedList(results)
    case Chan(dir, value) => WellFormed(value) && !(dir == Both && value.Chan? && value.dir == Recv)
    case Other => false
  }

  predicate WellFormedFields(fs: seq<Field>)
    decreases fs, 0
  {
    if |fs| == 0 then true
    else
      var f := fs[0];
      assert f.typ < f;
      WellFormed(f.typ) && WellFormedFields(fs[1..])
  }

  predicate WellFormedList(fl: FieldList)
    decreases fl, 2
  {
    fl.NilList? || WellFormedFields(fl.fields)
  }

  /** The entries of a field list: each field's type once per name (once if unnamed). */
  function Entries(fs: seq<Field>): (es: seq<TypeExpr>)
    ensures |es| == Arity(fs)
  {
    if |fs| == 0 then [] else Repeat(fs[0].typ, Copies(fs[0])) + Entries(fs[1..])
  }

  /** What a type looks like once names are dropped: every list entry becomes
      one unnamed field, a nil parameter list becomes an empty one. */
  function Normalize(t: TypeExpr): TypeExpr
    decreases t, 1
  {
    match t
    case Ident(_) => t
    case Star(x) => Star(Normalize(x))
    case Array(len, elt) => Array(len, Normalize(elt))
    case Selector(_, _) => t
    case Interface(_) => Interface([])
    case MapType(key, value) => MapType(Normalize(key), Normalize(value))
    case Ellipsis(elt) => Ellipsis(Normalize(elt))
    case FuncType(params, results) =>
      FuncType(List(NormalizeList(params)), if results.NilList? then NilList else List(NormalizeList(results)))
    case Chan(dir, value) => Chan(dir, Normalize(value))
    case Other => t
  }

  function NormalizeFields(fs: seq<Field>): (r: seq<Field>)
    ensures |r| == Arity(fs)
    decreases fs, 0
  {
    if |fs| == 0 then []
    else
      var f := fs[0];
      assert f.typ < f;
      Repeat(Field([], Normalize(f.typ)), Copies(f)) + NormalizeFields(fs[1..])
  }

  function NormalizeList(fl: FieldList): (r: seq<Field>)
    ensures fl.List? ==> |r| == Arity(fl.fields)
    decreases fl, 2
  {
    match fl
    case NilList => []
    case List(fs) => NormalizeFields(fs)
  }

  // ---------------------------------------------------------------------------
  // The reader

  datatype Read<+T> = NoParse | Parsed(value: T, rest: string)

  /** `s` has the character `c` at position `i`. */
  predicate At(s: string, i: nat, c: char)
  {
    i < |s| && s[i] == c
  }

  /** Length of the longest prefix of identifier characters. */
  function IdentLength(s: string): (n: nat)
    ensures n <= |s|
  {
    if |s| == 0 || !IsIdentChar(s[0]) then 0 else 1 + IdentLength(s[1..])
  }

  /** Text that may follow a type in a rendering: the end, a list separator,
      the end of a list or of a map key. */
  predicate CanFollowType(rest: string)
  {
    rest == [] || rest[0] == ',' || rest[0] == ')' || rest[0] == ']'
  }

  /** Reads one type from the front of `s`. */
  function ReadType(s: string): (r: Read<TypeExpr>)
    ensures r.Parsed? ==> |r.rest| < |s|
    decreases |s|, 1
  {
    if |s| == 0 then NoParse
    else if s[0] == '*' then
      match ReadType(s[1..])
      case Parsed(x, rest) => Parsed(Star(x), rest)
      case NoParse => NoParse
    else if s[0] == '[' then ReadArrayType(s[1..])
    else if s[0] == '.' then
      if !(At(s, 1, '.') && At(s, 2, '.')) then NoParse
      else
        match ReadType(s[3..])
        case Parsed(elt, rest) => Parsed(Ellipsis(elt), rest)
        case NoParse => NoParse
    else if s[0] == '<' then
      if !(At(s, 1, '-') && At(s, 2, 'c') && At(s, 3, 'h') && At(s, 4, 'a') && At(s, 5, 'n') && At(s, 6, ' ')) then NoParse
      else
        match ReadType(s[7..])
        case Parsed(value, rest) => Parsed(Chan(Recv, value), rest)
        case NoParse => NoParse
    else ReadWord(s)
  }

  /** After `[`: `]T` for a slice, or `N]T` for an array of literal length N. */
  function ReadArrayType(s: string): (r: Read<TypeExpr>)
    ensures r.Parsed? ==> |r.rest| < |s|
    decreases |s|, 0
  {
    var close := IndexOf(s, ']');
    if close == |s| then NoParse
    else
      match ReadType(s[close + 1..])
      case Parsed(elt, rest) =>
        Parsed(Array(if close == 0 then NoLen else LitLen(s[..close]), elt), rest)
      case NoParse => NoParse
  }

  /** A type that begins with a word: a keyword-led type, a qualified name
      or a plain name. */
  function ReadWord(s: string): (r: Read<TypeExpr>)
    ensures r.Parsed? ==> |r.rest| < |s|
    decreases |s|, 0
  {
    var n := IdentLength(s);
    if n == 0 then NoParse else ReadAfterWord(s[..n], s[n..])
  }

  /** What follows the first word of a type decides its kind. */
  function ReadAfterWord(word: string, after: string): (r: Read<TypeExpr>)
    ensures r.Parsed? ==> |r.rest| <= |after|
    decreases |after|, 4
  {
    if word == "map" then ReadMap(after)
    else if word == "chan" then ReadChan(after)
    else if word == "func" then ReadFunc(after)
    else if word == "interface" then
      if At(after, 0, '{') && At(after, 1, '}') then Parsed(Interface([]), after[2..]) else NoParse
    else ReadName(word, after)
  }

  /** A plain name, or a name qualified by a package name. */
  function ReadName(word: string, after: string): (r: Read<TypeExpr>)
    ensures r.Parsed? ==> |r.rest| <= |after|
  {
    if At(after, 0, '.') then
      var m := IdentLength(after[1..]);
      if m == 0 then NoParse else Parsed(Selector(Ident(word), after[1..m + 1]), after[m + 1..])
    else Parsed(Ident(word), after)
  }

  /** After `map`: `[K]V`. */
  function ReadMap(s: string): (r: Read<TypeExpr>)
    ensures r.Parsed? ==> |r.rest| < |s|
    decreases |s|, 0
  {
    if !At(s, 0, '[') then NoParse
    else
      match ReadType(s[1..])
      case NoParse => NoParse
      case Parsed(key, afterKey) =>
        if !At(afterKey, 0, ']') then NoParse
        else
          match ReadType(afterKey[1..])
          case Parsed(value, rest) => Parsed(MapType(key, value), rest)
          case NoParse => NoParse
  }

  /** After `chan`: the arrow binds to the leftmost `chan`, so `chan <-chan T`
      reads as a send-only channel of `chan T`. */
  function ReadChan(s: string): (r: Read<TypeExpr>)
    ensures r.Parsed? ==> |r.rest| < |s|
    decreases |s|, 0
  {
    if (At(s, 0, '<') && At(s, 1, '-') && At(s, 2, ' ')) || (At(s, 0, ' ') && At(s, 1, '<') && At(s, 2, '-')) then
      match ReadType(s[3..])
      case Parsed(value, rest) => Parsed(Chan(Send, value), rest)
      case NoParse => NoParse
    else if At(s, 0, ' ') then
      match ReadType(s[1..])
      case Parsed(value, rest) => Parsed(Chan(Both, value), rest)
      case NoParse => NoParse
    else NoParse
  }

  /** After `func`: a parenthesised parameter list, a space, then the results. */
  function ReadFunc(s: string): (r: Read<TypeExpr>)
    ensures r.Parsed? ==> |r.rest| < |s|
    decreases |s|, 0
  {
    if !At(s, 0, '(') then NoParse
    else
      match ReadList(s[1..])
      case NoParse => NoParse
      case Parsed(params, afterParams) =>
        if !(At(afterParams, 0, ')') && At(afterParams, 1, ' ')) then NoParse
        else ReadResults(params, afterParams[2..])
  }

  /** The results of a function type: none, one bare type, or a
      parenthesised list. */
  function ReadResults(params: seq<Field>, tail: string): (r: Read<TypeExpr>)
    ensures r.Parsed? ==> |r.rest| <= |tail|
    decreases |tail|, 5
  {
    if CanFollowType(tail) then Parsed(FuncType(List(params), NilList), tail)
    else if tail[0] == '(' then ReadResultList(params, tail[1..])
    else
      match ReadType(tail)
      case Parsed(result, rest) => Parsed(FuncType(List(params), List([Field([], result)])), rest)
      case NoParse => NoParse
  }

  /** A parenthesised result list, after its `(`. */
  function ReadResultList(params: seq<Field>, s: string): (r: Read<TypeExpr>)
    ensures r.Parsed? ==> |r.rest| < |s|
    decreases |s|, 4
  {
    match ReadList(s)
    case NoParse => NoParse
    case Parsed(results, afterResults) =>
      if At(afterResults, 0, ')') then Parsed(FuncType(List(params), List(results)), afterResults[1..])
      else NoParse
  }

  /** A possibly empty list of types separated by ", ", up to (not including) `)`. */
  function ReadList(s: string): (r: Read<seq<Field>>)
    ensures r.Parsed? ==> |r.rest| <= |s|
    decreases |s|, 3
  {
    if At(s, 0, ')') then Parsed([], s) else ReadEntries(s)
  }

  function ReadEntries(s: string): (r: Read<seq<Field>>)
    ensures r.Parsed? ==> |r.rest| < |s|
    decreases |s|, 2
  {
    match ReadType(s)
    case NoParse => NoParse
    case Parsed(t, rest) =>
      if At(rest, 0, ',') && At(rest, 1, ' ') then
        match ReadEntries(rest[2..])
        case Parsed(more, rest') => Parsed([Field([], t)] + more, rest')
        case NoParse => NoParse
      else Parsed([Field([], t)], rest)
  }

  // ---------------------------------------------------------------------------
  // Reading a rendering back

  /** Unnamed fields holding the normalised entries. */
  function Unnamed(es: seq<TypeExpr>): (fs: seq<Field>)
    ensures |fs| == |es|
  {
    if |es| == 0 then [] else [Field([], Normalize(es[0]))] + Unnamed(es[1..])
  }

  lemma {:induction false} UnnamedAppend(a: seq<TypeExpr>, b: seq<TypeExpr>)
    ensures Unnamed(a + b) == Unnamed(a) + Unnamed(b)
  {
    if |a| > 0 {
      assert (a + b)[1..] == a[1..] + b;
      UnnamedAppend(a[1..], b);
    } else {
      assert a + b == b;
    }
  }

  lemma {:induction false} UnnamedRepeat(t: TypeExpr, n: nat)
    ensures Unnamed(Repeat(t, n)) == Repeat(Field([], Normalize(t)), n)
  {
    if n > 0 {
      UnnamedRepeat(t, n - 1);
    }
  }

  /** Normalising a list is reading its entries back one by one. */
  lemma {:induction false} NormalizeFieldsIsUnnamedEntries(fs: seq<Field>)
    ensures NormalizeFields(fs) == Unnamed(Entries(fs))
  {
    if |fs| > 0 {
      NormalizeFieldsIsUnnamedEntries(fs[1..]);
      UnnamedRepeat(fs[0].typ, Copies(fs[0]));
      UnnamedAppend(Repeat(fs[0].typ, Copies(fs[0])), Entries(fs[1..]));
    }
  }

  /** The rendered entries of a list are the renderings of its entries. */
  lemma {:induction false} FieldTypesAreEntries(fs: seq<Field>)
    requires FieldTypes(fs).Success?
    ensures forall i :: 0 <= i < |Entries(fs)| ==> TypeString(Entries(fs)[i]) == Success(FieldTypes(fs).value[i])
  {
    if |fs| > 0 {
      FieldTypesAreEntries(fs[1..]);
      var head := Repeat(fs[0].typ, Copies(fs[0]));
      var es := Entries(fs);
      assert es == head + Entries(fs[1..]);
      forall i | 0 <= i < |es| ensures TypeString(es[i]) == Success(FieldTypes(fs).value[i]) {
        if i >= |head| {
          assert es[i] == Entries(fs[1..])[i - |head|];
        }
      }
    }
  }

  /** Every entry of a well-formed list is well formed and sits inside the list. */
  lemma {:induction false} EntriesInside(fl: FieldList, j: nat)
    requires fl.List? && j <= |fl.fields| && WellFormedFields(fl.fields[j..])
    ensures forall i :: 0 <= i < |Entries(fl.fields[j..])| ==>
      WellFormed(Entries(fl.fields[j..])[i]) && Entries(fl.fields[j..])[i] < fl
    decreases |fl.fields| - j
  {
    var fs := fl.fields[j..];
    if |fs| > 0 {
      assert fs[1..] == fl.fields[j + 1..];
      EntriesInside(fl, j + 1);
      var f := fl.fields[j];
      assert f == fs[0];
      assert f.typ < f;
      assert f < fl;
      var es := Entries(fs);
      var head := Repeat(f.typ, Copies(f));
      assert es == head + Entries(fl.fields[j + 1..]);
      forall i | 0 <= i < |es| ensures WellFormed(es[i]) && es[i] < fl {
        if i >= |head| {
          assert es[i] == Entries(fl.fields[j + 1..])[i - |head|];
        }
      }
    }
  }

  lemma {:induction false} IdentLengthOf(name: string, rest: string)
    requires IsIdentText(name)
    requires rest == [] || !IsIdentChar(rest[0])
    ensures IdentLength(name + rest) == |name|
    ensures (name + rest)[..|name|] == name && (name + rest)[|name|..] == rest
  {
    if |name| > 1 {
      assert (name + rest)[1..] == name[1..] + rest;
      IdentLengthOf(name[1..], rest);
    } else {
      assert (name + rest)[1..] == rest;
    }
  }

  /** Well-formed types render. */
  lemma {:induction false} WellFormedPrints(t: TypeExpr)
    requires WellFormed(t)
    ensures TypeString(t).Success?
    decreases t, 1
  {
    match t
    case Star(x) => WellFormedPrints(x);
    case Array(_, elt) => WellFormedPrints(elt);
    case MapType(key, value) => WellFormedPrints(key); WellFormedPrints(value);
    case Ellipsis(elt) => WellFormedPrints(elt);
    case FuncType(params, results) => WellFormedListPrints(params); WellFormedListPrints(results);
    case Chan(_, value) => WellFormedPrints(value);
    case _ =>
  }

  lemma {:induction false} WellFormedFieldsPrint(fs: seq<Field>)
    requires WellFormedFields(fs)
    ensures FieldTypes(fs).Success?
    decreases fs, 0
  {
    if |fs| > 0 {
      var f := fs[0];
      assert f.typ < f;
      WellFormedPrints(f.typ);
      WellFormedFieldsPrint(fs[1..]);
    }
  }

  lemma {:induction false} WellFormedListPrints(fl: FieldList)
    requires WellFormedList(fl)
    ensures TypeFieldList(fl, false).Success? && TypeFieldList(fl, true).Success?
    decreases fl, 2
  {
    if fl.List? {
      WellFormedFieldsPrint(fl.fields);
    }
  }

  /** The first character of a rendering: never a delimiter, and `<` exactly
      for a receive-only channel. */
  lemma FirstCharacter(t: TypeExpr)
    requires WellFormed(t) && TypeString(t).Success?
    ensures |TypeString(t).value| > 0
    ensures TypeString(t).value[0] !in {',', ')', ']', '(', ' '}
    ensures TypeString(t).value[0] == '<' <==> t.Chan? && t.dir == Recv
  {
    match t
    case Ident(name) => assert IsIdentChar(name[0]);
    case Selector(x, _) => assert IsIdentChar(x.name[0]);
    case _ =>
  }

  /** The shape of a rendered result list: a nil list is "", a list of one
      entry is that entry's type bare (never starting with `(`), and any
      other count is wrapped in parentheses. Without optParen nothing is
      wrapped: the list is the entries joined by ", ". */
  lemma ResultListShape(fl: FieldList)
    requires WellFormedList(fl)
    ensures TypeFieldList(fl, true).Success? && TypeFieldList(fl, false).Success?
    ensures fl.NilList? ==> TypeFieldList(fl, true).value == "" && TypeFieldList(fl, false).value == ""
    ensures fl.List? && Arity(fl.fields) == 1 ==>
      var r := TypeFieldList(fl, true).value;
      TypeString(Entries(fl.fields)[0]) == Success(r) && |r| > 0 && r[0] != '('
    ensures fl.List? && Arity(fl.fields) != 1 ==>
      var r := TypeFieldList(fl, true).value;
      |r| >= 2 && r[0] == '(' && r[|r| - 1] == ')' &&
      r[1..|r| - 1] == TypeFieldList(fl, false).value
  {
    WellFormedListPrints(fl);
    if fl.List? {
      var list := FieldTypes(fl.fields).value;
      FieldTypesAreEntries(fl.fields);
      if Arity(fl.fields) == 1 {
        assert fl.fields[0..] == fl.fields;
        EntriesInside(fl, 0);
        FirstCharacter(Entries(fl.fields)[0]);
      } else {
        var r := "(" + Join(list, ", ") + ")";
        assert r[1..|r| - 1] == Join(list, ", ");
      }
    }
  }

  /** Round trip: reading the rendering of a well-formed type, followed by
      any text that may follow a type, gives the normalised type and leaves
      exactly that text. */
  lemma {:induction false} ReadPrinted(t: TypeExpr, rest: string)
    requires WellFormed(t) && CanFollowType(rest)
    ensures TypeString(t).Success?
    ensures ReadType(TypeString(t).value + rest) == Parsed(Normalize(t), rest)
    decreases t, 2
  {
    WellFormedPrints(t);
    LiteralPieces();
    match t
    case Ident(name) => ReadIdent(name, rest);
    case Star(x) =>
      ReadPrinted(x, rest);
      var sx := TypeString(x).value;
      Regroup3("*", sx, rest);
      ReadStar(sx, rest, Normalize(x));
    case Array(len, elt) =>
      ReadPrinted(elt, rest);
      var se := TypeString(elt).value;
      if len.NoLen? {
        Regroup3("[]", se, rest);
        Regroup3("[", "]", se + rest);
        ReadSlice(se, rest, Normalize(elt));
      } else {
        Regroup("[", len.literal, "]", se, rest);
        ReadFixedArray(len.literal, se, rest, Normalize(elt));
      }
    case Selector(x, sel) =>
      Regroup4(x.name, ".", sel, rest);
      ReadSelector(x.name, sel, rest);
    case Interface(_) =>
      Regroup3("interface", "{}", rest);
      ReadInterface(rest);
    case MapType(key, value) =>
      var sk, sv := TypeString(key).value, TypeString(value).value;
      Lead("]", sv + rest);
      ReadPrinted(key, "]" + (sv + rest));
      ReadPrinted(value, rest);
      Regroup("map[", sk, "]", sv, rest);
      Regroup3("map", "[", sk + ("]" + (sv + rest)));
      ReadMapType(sk, sv, rest, Normalize(key), Normalize(value));
    case Ellipsis(elt) =>
      ReadPrinted(elt, rest);
      var se := TypeString(elt).value;
      Regroup3("...", se, rest);
      ReadEllipsis(se, rest, Normalize(elt));
    case Chan(dir, value) =>
      ReadPrinted(value, rest);
      FirstCharacter(value);
      var sv := TypeString(value).value;
      match dir {
        case Recv =>
          Regroup3("<-chan ", sv, rest);
          ReadRecvChan(sv, rest, Normalize(value));
        case Send =>
          Regroup3("chan<- ", sv, rest);
          Regroup3("chan", "<- ", sv + rest);
          ReadSendChan(sv, rest, Normalize(value));
        case Both =>
          Regroup3("chan ", sv, rest);
          Regroup3("chan", " ", sv + rest);
          ReadBothChan(sv, rest, Normalize(value));
      }
    case FuncType(params, results) =>
      ReadPrintedFunc(t, rest);
  }

  /** The keyword-led prefixes of renderings, split after the keyword. */
  lemma LiteralPieces()
    ensures "[]" == "[" + "]"
    ensures "interface{}" == "interface" + "{}"
    ensures "map[" == "map" + "["
    ensures "chan<- " == "chan" + "<- "
    ensures "chan " == "chan" + " "
    ensures "func(" == "func" + "("
  {
  }

  /** Text that begins with an identifier character is read as a word. */
  lemma ReadsWord(s: string)
    requires |s| > 0 && IsIdentChar(s[0])
    ensures ReadType(s) == ReadWord(s)
  {
    assert s[0] != '*' && s[0] != '<' && s[0] != '[' && s[0] != '.';
  }

  /** A rendered word followed by a non-identifier character is read whole. */
  lemma ReadsWordThen(word: string, after: string)
    requires IsIdentText(word)
    requires after == [] || !IsIdentChar(after[0])
    ensures ReadType(word + after) == ReadAfterWord(word, after)
  {
    assert (word + after)[0] == word[0];
    ReadsWord(word + after);
    IdentLengthOf(word, after);
  }

  /** The keywords that begin a type hand the rest of the text to their readers. */
  lemma KeywordWords(after: string)
    ensures ReadAfterWord("map", after) == ReadMap(after)
    ensures ReadAfterWord("chan", after) == ReadChan(after)
    ensures ReadAfterWord("func", after) == ReadFunc(after)
  {
  }

  lemma ReadIdent(name: string, rest: string)
    requires IsTypeName(name) && CanFollowType(rest)
    ensures ReadType(name + rest) == Parsed(Ident(name), rest)
  {
    ReadsWordThen(name, rest);
    assert ReadAfterWord(name, rest) == ReadName(name, rest);
  }

  lemma ReadStar(sx: string, rest: string, x: TypeExpr)
    requires ReadType(sx + rest) == Parsed(x, rest)
    ensures ReadType("*" + (sx + rest)) == Parsed(Star(x), rest)
  {
    Lead("*", sx + rest);
  }

  lemma ReadSlice(se: string, rest: string, elt: TypeExpr)
    requires ReadType(se + rest) == Parsed(elt, rest)
    ensures ReadType("[" + ("]" + (se + rest))) == Parsed(Array(NoLen, elt), rest)
  {
    Lead("[", "]" + (se + rest));
    ReadArrayBody("", se + rest);
    assert "" + ("]" + (se + rest)) == "]" + (se + rest);
  }

  lemma ReadFixedArray(lit: string, se: string, rest: string, elt: TypeExpr)
    requires IsLengthLiteral(lit)
    requires ReadType(se + rest) == Parsed(elt, rest)
    ensures ReadType("[" + (lit + ("]" + (se + rest)))) == Parsed(Array(LitLen(lit), elt), rest)
  {
    Lead("[", lit + ("]" + (se + rest)));
    ReadArrayBody(lit, se + rest);
  }

  lemma ReadArrayBody(lit: string, tail: string)
    requires ']' !in lit
    ensures ReadArrayType(lit + ("]" + tail)) ==
      match ReadType(tail)
      case Parsed(elt, rest) => Parsed(Array(if |lit| == 0 then NoLen else LitLen(lit), elt), rest)
      case NoParse => NoParse
  {
    var body := lit + ("]" + tail);
    Lead(lit, "]" + tail);
    Lead("]", tail);
    assert body[|lit|] == (body[|lit|..])[0];
    assert body[..|lit|] == lit;
    FirstOccurrence(body, ']', |lit|);
    assert body[|lit| + 1..] == (body[|lit|..])[1..];
  }

  lemma ReadSelector(q: string, sel: string, rest: string)
    requires IsTypeName(q) && IsIdentText(sel) && CanFollowType(rest)
    ensures ReadType(q + ("." + (sel + rest))) == Parsed(Selector(Ident(q), sel), rest)
  {
    var after := "." + (sel + rest);
    Lead(".", sel + rest);
    ReadsWordThen(q, after);
    assert ReadAfterWord(q, after) == ReadName(q, after);
    IdentLengthOf(sel, rest);
    assert after[1..|sel| + 1] == (after[1..])[..|sel|];
    assert after[|sel| + 1..] == (after[1..])[|sel|..];
  }

  lemma ReadInterface(rest: string)
    requires CanFollowType(rest)
    ensures ReadType("interface" + ("{}" + rest)) == Parsed(Interface([]), rest)
  {
    var after := "{}" + rest;
    Lead("{}", rest);
    ReadsWordThen("interface", after);
  }

  lemma ReadMapType(sk: string, sv: string, rest: string, key: TypeExpr, value: TypeExpr)
    requires ReadType(sk + ("]" + (sv + rest))) == Parsed(key, "]" + (sv + rest))
    requires ReadType(sv + rest) == Parsed(value, rest)
    ensures ReadType("map" + ("[" + (sk + ("]" + (sv + rest))))) == Parsed(MapType(key, value), rest)
  {
    var after := "[" + (sk + ("]" + (sv + rest)));
    Lead("[", sk + ("]" + (sv + rest)));
    ReadsWordThen("map", after);
    KeywordWords(after);
    ReadMapBody(sk, sv, rest, key, value);
  }

  lemma ReadMapBody(sk: string, sv: string, rest: string, key: TypeExpr, value: TypeExpr)
    requires ReadType(sk + ("]" + (sv + rest))) == Parsed(key, "]" + (sv + rest))
    requires ReadType(sv + rest) == Parsed(value, rest)
    ensures ReadMap("[" + (sk + ("]" + (sv + rest)))) == Parsed(MapType(key, value), rest)
  {
    Lead("[", sk + ("]" + (sv + rest)));
    Lead("]", sv + rest);
  }

  lemma ReadEllipsis(se: string, rest: string, elt: TypeExpr)
    requires ReadType(se + rest) == Parsed(elt, rest)
    ensures ReadType("..." + (se + rest)) == Parsed(Ellipsis(elt), rest)
  {
    Lead("...", se + rest);
  }

  lemma ReadRecvChan(sv: string, rest: string, value: TypeExpr)
    requires ReadType(sv + rest) == Parsed(value, rest)
    ensures ReadType("<-chan " + (sv + rest)) == Parsed(Chan(Recv, value), rest)
  {
    Lead("<-chan ", sv + rest);
  }

  lemma ReadSendChan(sv: string, rest: string, value: TypeExpr)
    requires ReadType(sv + rest) == Parsed(value, rest)
    ensures ReadType("chan" + ("<- " + (sv + rest))) == Parsed(Chan(Send, value), rest)
  {
    var after := "<- " + (sv + rest);
    Lead("<- ", sv + rest);
    ReadsWordThen("chan", after);
    KeywordWords(after);
    ReadSendBody(sv + rest);
  }

  lemma ReadBothChan(sv: string, rest: string, value: TypeExpr)
    requires |sv| > 0 && sv[0] != '<'
    requires ReadType(sv + rest) == Parsed(value, rest)
    ensures ReadType("chan" + (" " + (sv + rest))) == Parsed(Chan(Both, value), rest)
  {
    var after := " " + (sv + rest);
    Lead(" ", sv + rest);
    ReadsWordThen("chan", after);
    KeywordWords(after);
    assert (sv + rest)[0] == sv[0];
    ReadBothBody(sv + rest);
  }

  lemma ReadSendBody(tail: string)
    ensures ReadChan("<- " + tail) ==
      match ReadType(tail)
      case Parsed(value, rest) => Parsed(Chan(Send, value), rest)
      case NoParse => NoParse
  {
    Lead("<- ", tail);
  }

  lemma ReadBothBody(tail: string)
    requires |tail| > 0 && tail[0] != '<'
    ensures ReadChan(" " + tail) ==
      match ReadType(tail)
      case Parsed(value, rest) => Parsed(Chan(Both, value), rest)
      case NoParse => NoParse
  {
    Lead(" ", tail);
    assert (" " + tail)[1] == tail[0];
  }

  /** The function-type case of the round trip. */
  lemma {:induction false} ReadPrintedFunc(t: TypeExpr, rest: string)
    requires t.FuncType? && WellFormed(t) && CanFollowType(rest)
    requires TypeString(t).Success?
    ensures ReadType(TypeString(t).value + rest) == Parsed(Normalize(t), rest)
    decreases t, 1
  {
    var params, results := t.params, t.results;
    WellFormedListPrints(params);
    WellFormedListPrints(results);
    var p := TypeFieldList(params, false).value;
    var r := TypeFieldList(results, true).value;
    var tail := r + rest;
    LiteralPieces();
    Regroup("func(", p, ") ", r, rest);
    Regroup3("func", "(", p + (") " + tail));
    // the parameters
    var pes := if params.List? then Entries(params.fields) else [];
    var pstrs := if params.List? then FieldTypes(params.fields).value else [];
    if params.List? {
      FieldTypesAreEntries(params.fields);
      EntriesInside(params, 0);
      assert params.fields[0..] == params.fields;
      NormalizeFieldsIsUnnamedEntries(params.fields);
    }
    assert p == Join(pstrs, ", ");
    var ps := Unnamed(pes);
    assert ps == NormalizeList(params);
    Lead(") ", tail);
    ReadPrintedList(pes, pstrs, ") " + tail, t);
    ReadFuncParts(p, tail, ps);
    // the results
    ReadPrintedResults(t, ps, rest);
  }

  /** Round trip for the result list of a function type, after its parameters. */
  lemma {:induction false} ReadPrintedResults(t: TypeExpr, ps: seq<Field>, rest: string)
    requires t.FuncType? && WellFormed(t) && CanFollowType(rest)
    requires TypeFieldList(t.results, true).Success?
    ensures ReadResults(ps, TypeFieldList(t.results, true).value + rest) == Parsed(FuncType(List(ps), Normalize(t).results), rest)
    decreases t, 0
  {
    var results := t.results;
    var r := TypeFieldList(results, true).value;
    if results.NilList? {
      ReadNoResults(ps, rest);
    } else {
      var fs := results.fields;
      var es, strs := Entries(fs), FieldTypes(fs).value;
      FieldTypesAreEntries(fs);
      EntriesInside(results, 0);
      assert fs[0..] == fs;
      NormalizeFieldsIsUnnamedEntries(fs);
      if |strs| == 1 {
        assert r == strs[0];
        ReadPrinted(es[0], rest);
        FirstCharacter(es[0]);
        ReadOneResult(ps, r, rest, Normalize(es[0]));
        assert |Unnamed(es[1..])| == 0;
        assert Unnamed(es) == [Field([], Normalize(es[0]))];
      } else {
        var body := Join(strs, ", ");
        Regroup4("(", body, ")", rest);
        Lead(")", rest);
        ReadPrintedList(es, strs, ")" + rest, t);
        ReadResultsList(ps, body, rest, Unnamed(es));
      }
    }
  }

  /** After `func`, the parameter list is read, then the results. */
  lemma ReadFuncParts(p: string, tail: string, ps: seq<Field>)
    requires ReadList(p + (") " + tail)) == Parsed(ps, ") " + tail)
    ensures ReadType("func" + ("(" + (p + (") " + tail)))) == ReadResults(ps, tail)
  {
    var after := "(" + (p + (") " + tail));
    Lead("(", p + (") " + tail));
    ReadsWordThen("func", after);
    KeywordWords(after);
    Lead(") ", tail);
  }

  /** No result list renders as nothing. */
  lemma ReadNoResults(ps: seq<Field>, rest: string)
    requires CanFollowType(rest)
    ensures ReadResults(ps, rest) == Parsed(FuncType(List(ps), NilList), rest)
  {
  }

  /** A single result is rendered bare. */
  lemma ReadOneResult(ps: seq<Field>, r: string, rest: string, v: TypeExpr)
    requires |r| > 0 && r[0] !in {',', ')', ']', '('}
    requires ReadType(r + rest) == Parsed(v, rest)
    ensures ReadResults(ps, r + rest) == Parsed(FuncType(List(ps), List([Field([], v)])), rest)
  {
    assert (r + rest)[0] == r[0];
  }

  /** Any other number of results is rendered in parentheses. */
  lemma ReadResultsList(ps: seq<Field>, body: string, rest: string, rs: seq<Field>)
    requires ReadList(body + (")" + rest)) == Parsed(rs, ")" + rest)
    ensures ReadResults(ps, "(" + (body + (")" + rest))) == Parsed(FuncType(List(ps), List(rs)), rest)
  {
    Lead("(", body + (")" + rest));
    Lead(")", rest);
  }

  /** A rendered list, possibly empty, reads back as its unnamed entries. */
  lemma {:induction false} ReadPrintedList(es: seq<TypeExpr>, strs: seq<string>, rest: string, bound: TypeExpr)
    requires |es| == |strs|
    requires forall i :: 0 <= i < |es| ==> WellFormed(es[i]) && es[i] < bound && TypeString(es[i]) == Success(strs[i])
    requires At(rest, 0, ')')
    ensures ReadList(Join(strs, ", ") + rest) == Parsed(Unnamed(es), rest)
    decreases bound, 0, |es|, 1
  {
    if |es| == 0 {
      assert Join(strs, ", ") + rest == rest;
    } else {
      FirstCharacter(es[0]);
      ReadPrintedEntries(es, strs, rest, bound);
      assert (Join(strs, ", ") + rest)[0] == strs[0][0];
    }
  }

  lemma {:induction false} ReadPrintedEntries(es: seq<TypeExpr>, strs: seq<string>, rest: string, bound: TypeExpr)
    requires |es| == |strs| >= 1
    requires forall i :: 0 <= i < |es| ==> WellFormed(es[i]) && es[i] < bound && TypeString(es[i]) == Success(strs[i])
    requires At(rest, 0, ')')
    ensures ReadEntries(Join(strs, ", ") + rest) == Parsed(Unnamed(es), rest)
    decreases bound, 0, |es|, 0
  {
    if |es| == 1 {
      ReadPrinted(es[0], rest);
      assert TypeString(es[0]).value == strs[0];
      assert Join(strs, ", ") == strs[0];
      ReadLastEntry(strs[0], rest, Normalize(es[0]));
      assert |Unnamed(es[1..])| == 0;
      assert Unnamed(es) == [Field([], Normalize(es[0]))];
    } else {
      var more := Join(strs[1..], ", ") + rest;
      Regroup4(strs[0], ", ", Join(strs[1..], ", "), rest);
      ReadPrinted(es[0], ", " + more);
      ReadPrintedEntries(es[1..], strs[1..], rest, bound);
      ReadNextEntry(strs[0], more, Normalize(es[0]));
    }
  }

  /** The last entry of a list is followed by its closing parenthesis. */
  lemma ReadLastEntry(s: string, rest: string, v: TypeExpr)
    requires At(rest, 0, ')')
    requires ReadType(s + rest) == Parsed(v, rest)
    ensures ReadEntries(s + rest) == Parsed([Field([], v)], rest)
  {
  }

  /** Any other entry is followed by ", " and the remaining entries. */
  lemma ReadNextEntry(s: string, more: string, v: TypeExpr)
    requires ReadType(s + (", " + more)) == Parsed(v, ", " + more)
    requires ReadEntries(more).Parsed?
    ensures ReadEntries(s + (", " + more)) ==
      Parsed([Field([], v)] + ReadEntries(more).value, ReadEntries(more).rest)
  {
    Lead(", ", more);
  }
}
