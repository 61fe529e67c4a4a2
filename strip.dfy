/** Package qualifiers: `stripSpecialCharsinPrefix` of mock/fileWriter.go,
    which turns the text before the first `.` of a rendered type into the
    package name to import, and the `builtinTypes` set that decides whether
    a parameter is compared with `==` or with `reflect.DeepEqual`. */
module Qualifiers {
  import opened GoStrings

  /** The characters stripSpecialCharsinPrefix removes. */
  predicate IsSpecial(c: char)
  {
    c == '*' || c == '[' || c == ']' || c == '(' || c == ')' || c == ' '
  }

  /** The text has a character that is not special. Without one the Go loop
      trims the text down to "" and then indexes it, which panics. */
  predicate HasPlain(s: string)
  {
    exists k :: 0 <= k < |s| && !IsSpecial(s[k])
  }

  /** The text is made of special characters only. */
  predicate AllSpecial(s: string)
  {
    forall k :: 0 <= k < |s| ==> IsSpecial(s[k])
  }

  /** The type names builtinTypes lists: these are compared with `==`. */
  const BuiltinTypes: set<string> := {
    "ComplexType", "FloatType", "IntegerType", "Type", "Type1",
    "bool", "byte", "complex128", "complex64", "error",
    "float32", "float64", "int", "int16", "int32", "int64", "int8",
    "rune", "string", "uint", "uint16", "uint32", "uint64", "uint8", "uintptr"
  }

  /** Trimming a character that heads the text makes it shorter and keeps every other character. */
  lemma TrimShortens(s: string, c: char)
    requires |s| > 0 && s[0] == c
    ensures |Trim(s, c)| < |s|
    ensures HasPlain(s) && IsSpecial(c) ==> HasPlain(Trim(s, c))
  {
    var i, j := TrimKeepsMiddle(s, c);
    if HasPlain(s) && IsSpecial(c) {
      var k :| 0 <= k < |s| && !IsSpecial(s[k]);
      assert i <= k < j;
      assert Trim(s, c)[k - i] == s[k];
    }
  }

  /** What the loop of stripSpecialCharsinPrefix computes: while the text
      starts with a special character, strings.Trim removes that character
      from both ends. The result is empty only for empty input and never
      starts with a special character. */
  function StripPrefix(s: string): (r: string)
    requires |s| == 0 || HasPlain(s)
    ensures |r| == 0 <==> |s| == 0
    ensures |s| > 0 ==> !IsSpecial(r[0])
    decreases |s|
  {
    if |s| == 0 || !IsSpecial(s[0]) then s
    else
      TrimShortens(s, s[0]);
      StripPrefix(Trim(s, s[0]))
  }

  /** stripSpecialCharsinPrefix, with its `for flag` loop. */
  method StripSpecialCharsInPrefix(str: string) returns (r: string)
    requires |str| == 0 || HasPlain(str)
    ensures r == StripPrefix(str)
  {
    r := str;
    if |r| > 0 {
      var flag := true;
      while flag
        invariant HasPlain(r)
        invariant StripPrefix(r) == StripPrefix(str)
        invariant !flag ==> r == StripPrefix(r)
        decreases |r|, flag
      {
        if IsSpecial(r[0]) {
          TrimShortens(r, r[0]);
          r := Trim(r, r[0]);
        } else {
          flag := false;
        }
      }
    }
  }

  // ---------------------------------------------------------------------------
  // Properties

  /** Stripping twice is stripping once. */
  lemma StripIdempotent(s: string)
    requires |s| == 0 || HasPlain(s)
    ensures |StripPrefix(s)| == 0 || HasPlain(StripPrefix(s))
    ensures StripPrefix(StripPrefix(s)) == StripPrefix(s)
  {
  }

  /** The result is a contiguous part of the input: everything before it is
      special, and so is everything after it (strings.Trim also cuts the
      trailing end). */
  lemma {:induction false} StripKeepsMiddle(s: string) returns (i: nat, j: nat)
    requires |s| == 0 || HasPlain(s)
    ensures i <= j <= |s| && StripPrefix(s) == s[i..j]
    ensures forall k :: 0 <= k < i ==> IsSpecial(s[k])
    ensures forall k :: j <= k < |s| ==> IsSpecial(s[k])
    decreases |s|
  {
    if |s| == 0 || !IsSpecial(s[0]) {
      i, j := 0, |s|;
    } else {
      var c := s[0];
      TrimShortens(s, c);
      var t := Trim(s, c);
      var a, b := TrimKeepsMiddle(s, c);
      var i', j' := StripKeepsMiddle(t);
      i, j := Nest(s, a, b, i', j', c);
    }
  }

  /** Composes a cut `s[a..b]` that removed only `c`s with a cut `[i'..j']` of
      that part that removed only special characters. */
  lemma Nest(s: string, a: nat, b: nat, i': nat, j': nat, c: char) returns (i: nat, j: nat)
    requires a <= b <= |s| && i' <= j' <= b - a && IsSpecial(c)
    requires forall k :: 0 <= k < a ==> s[k] == c
    requires forall k :: b <= k < |s| ==> s[k] == c
    requires forall k :: 0 <= k < i' ==> IsSpecial(s[a..b][k])
    requires forall k :: j' <= k < b - a ==> IsSpecial(s[a..b][k])
    ensures i <= j <= |s| && s[a..b][i'..j'] == s[i..j]
    ensures forall k :: 0 <= k < i ==> IsSpecial(s[k])
    ensures forall k :: j <= k < |s| ==> IsSpecial(s[k])
  {
    i, j := a + i', a + j';
    assert s[a..b][i'..j'] == s[i..j] by {
      forall k | 0 <= k < j - i ensures s[a..b][i'..j'][k] == s[i..j][k] {
        assert s[a..b][i'..j'][k] == s[a..b][i' + k] == s[a + i' + k];
      }
    }
    forall k | 0 <= k < i ensures IsSpecial(s[k]) {
      if k >= a {
        assert s[k] == s[a..b][k - a];
      }
    }
    forall k | j <= k < |s| ensures IsSpecial(s[k]) {
      if k < b {
        assert s[k] == s[a..b][k - a];
      }
    }
  }

  /** Removing leading `c`s stops at the first other character. */
  lemma {:induction false} TrimLeftAppend(p: string, q: string, c: char)
    requires |q| > 0 && q[0] != c
    ensures TrimLeft(p + q, c) == TrimLeft(p, c) + q
  {
    if |p| > 0 && p[0] == c {
      assert (p + q)[1..] == p[1..] + q;
      TrimLeftAppend(p[1..], q, c);
    } else if |p| == 0 {
      assert p + q == q;
    }
  }

  /** One round of the loop on special characters followed by a plain name:
      the leading run goes, the name is untouched. */
  lemma TrimBeforeName(p: string, q: string) returns (p': string)
    requires |p| > 0 && AllSpecial(p)
    requires |q| > 0 && forall k :: 0 <= k < |q| ==> !IsSpecial(q[k])
    ensures |p'| < |p| && AllSpecial(p')
    ensures Trim(p + q, p[0]) == p' + q
  {
    var c := p[0];
    TrimLeftAppend(p, q, c);
    p' := TrimLeft(p, c);
    assert p' == p[|p| - |p'|..];
    forall k | 0 <= k < |p'| ensures IsSpecial(p'[k]) {
      assert p'[k] == p[|p| - |p'| + k];
    }
    var w := p' + q;
    assert w[|w| - 1] == q[|q| - 1];
  }

  /** A name behind a run of special characters (`*`, `[]`, `[]*` ...) is
      recovered exactly: this is how `*pkg` and `[]pkg` yield the package `pkg`. */
  lemma {:induction false} StripBehindSpecials(p: string, q: string)
    requires AllSpecial(p)
    requires |q| > 0 && forall k :: 0 <= k < |q| ==> !IsSpecial(q[k])
    ensures HasPlain(p + q)
    ensures StripPrefix(p + q) == q
    decreases |p|
  {
    assert (p + q)[|p|] == q[0];
    if |p| == 0 {
      assert p + q == q;
    } else {
      assert (p + q)[0] == p[0];
      var p' := TrimBeforeName(p, q);
      StripBehindSpecials(p', q);
    }
  }

  /** A trailing special character that matches the leading one is cut too. */
  lemma TrailingCharacterCut()
    ensures HasPlain("*pkg*")
    ensures StripPrefix("*pkg*") == "pkg"
  {
    var s := "*pkg*";
    assert !IsSpecial(s[1]);
    TrimShortens(s, '*');
    var i, j := TrimKeepsMiddle(s, '*');
    assert s[1] == 'p' && s[3] == 'g';
    assert i == 1 && j == 4;
    assert Trim(s, '*') == "pkg";
  }

  // ---------------------------------------------------------------------------
  // The qualifier GenerateFuncCode imports for a rendered type

  /** The text before the first `.` can be stripped without a panic. */
  predicate QualifierDefined(t: string)
  {
    var head := Split(t, '.')[0];
    |head| == 0 || HasPlain(head)
  }

  /** stripSpecialCharsinPrefix(strings.Split(t, ".")[0]). */
  function Qualifier(t: string): string
    requires QualifierDefined(t)
  {
    StripPrefix(Split(t, '.')[0])
  }

  /** Every type text containing a `.` has a strippable qualifier. */
  predicate QualifiersDefined(types: seq<string>)
  {
    forall i :: 0 <= i < |types| && '.' in types[i] ==> QualifierDefined(types[i])
  }

  /** The qualifiers of the type texts that contain a `.`: each such text
      adds its qualifier. */
  function QualifierSet(types: seq<string>): (r: set<string>)
    requires QualifiersDefined(types)
    ensures forall i :: 0 <= i < |types| && '.' in types[i] ==> Qualifier(types[i]) in r
  {
    if |types| == 0 then {}
    else
      var t := types[|types| - 1];
      QualifierSet(types[..|types| - 1]) + (if '.' in t then {Qualifier(t)} else {})
  }

  /** One more type text: its qualifier joins the set when it has a `.`. */
  lemma QualifierStep(types: seq<string>, i: nat)
    requires i < |types| && QualifiersDefined(types)
    ensures QualifiersDefined(types[..i]) && QualifiersDefined(types[..i + 1])
    ensures QualifierSet(types[..i + 1]) ==
      QualifierSet(types[..i]) + (if '.' in types[i] then {Qualifier(types[i])} else {})
  {
    assert types[..i + 1][..i] == types[..i];
    assert forall k :: 0 <= k <= i ==> types[..i + 1][k] == types[k];
  }

  /** A qualifier is collected exactly when some type with a `.` yields it. */
  lemma {:induction false} QualifierSetExactly(types: seq<string>)
    requires QualifiersDefined(types)
    ensures forall q :: q in QualifierSet(types) <==> Yields(types, q)
  {
    if |types| > 0 {
      var n := |types| - 1;
      var init := types[..n];
      assert QualifiersDefined(init) by {
        forall i | 0 <= i < n && '.' in init[i] ensures QualifierDefined(init[i]) {
          assert init[i] == types[i];
        }
      }
      QualifierSetExactly(init);
      forall q ensures q in QualifierSet(types) <==> Yields(types, q) {
        YieldsSnoc(types, q);
      }
    }
  }

  /** The type text has a `.` and its qualifier is q. */
  predicate YieldsAt(t: string, q: string)
  {
    '.' in t && QualifierDefined(t) && Qualifier(t) == q
  }

  /** Some type with a `.` among the texts yields the qualifier q. */
  predicate Yields(types: seq<string>, q: string)
  {
    exists i :: 0 <= i < |types| && YieldsAt(types[i], q)
  }

  lemma YieldsSnoc(types: seq<string>, q: string)
    requires |types| > 0
    ensures Yields(types, q) <==> Yields(types[..|types| - 1], q) || YieldsAt(types[|types| - 1], q)
  {
    var n := |types| - 1;
    var init := types[..n];
    if Yields(types, q) {
      var i :| 0 <= i < |types| && YieldsAt(types[i], q);
      if i < n {
        assert init[i] == types[i];
      }
    }
    if Yields(init, q) {
      var i :| 0 <= i < n && YieldsAt(init[i], q);
      assert init[i] == types[i];
    }
  }

  /** The rendering of a qualified name behind pointer, slice or array-of
      brackets (`*pkg.T`, `[]pkg.T`, `[]*pkg.T`) yields exactly its package. */
  lemma QualifierOfSelector(prefix: string, pkg: string, rest: string)
    requires AllSpecial(prefix)
    requires |pkg| > 0 && '.' !in pkg && forall k :: 0 <= k < |pkg| ==> !IsSpecial(pkg[k])
    ensures '.' in prefix + pkg + "." + rest
    ensures QualifierDefined(prefix + pkg + "." + rest)
    ensures Qualifier(prefix + pkg + "." + rest) == pkg
  {
    var t := prefix + pkg + "." + rest;
    assert '.' !in prefix by {
      forall k | 0 <= k < |prefix| ensures prefix[k] != '.' {
        assert IsSpecial(prefix[k]);
      }
    }
    assert t == (prefix + pkg) + ['.'] + rest;
    assert t[|prefix + pkg|] == '.';
    SplitAtFirst(prefix + pkg, rest, '.');
    StripBehindSpecials(prefix, pkg);
  }

  /** A variadic `...pkg.T` yields the empty qualifier: the text before its
      first `.` is empty. */
  lemma VariadicQualifierIsEmpty(rest: string)
    ensures QualifierDefined("..." + rest)
    ensures Qualifier("..." + rest) == ""
  {
    var t := "..." + rest;
    assert t == [] + ['.'] + (".." + rest);
    SplitAtFirst([], ".." + rest, '.');
  }

  /** A map, chan or func type keeps its keyword in the qualifier, so no
      import can match it: `map[string]time.Time` yields `map[string]time`. */
  lemma MapQualifierKeepsKeyword()
    ensures QualifierDefined("map[string]time.Time")
    ensures Qualifier("map[string]time.Time") == "map[string]time"
  {
    var head := "map[string]time";
    assert '.' !in head;
    assert "map[string]time.Time" == head + ['.'] + "Time";
    SplitAtFirst(head, "Time", '.');
    assert !IsSpecial(head[0]);
  }
}
