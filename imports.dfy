/** The import block `GenerateImportCode` of mock/fileWriter.go writes:
    `fmt` and `encoding/json` always, `reflect` when some comparison uses
    reflect.DeepEqual, and for every collected qualifier the lines of the
    file's own imports that provide it. */
module ImportBlocks {
  import opened GoStrings

  /** One import of the mocked file: its path as written, quotes
      included, and its alias ("" when it has none). */
  datatype ImportSpec = ImportSpec(path: string, alias: string)

  const Prelude := "import ( \n \"fmt\"\n\"encoding/json\"\n"
  const ReflectLine := " \"reflect\"\n"
  const BlockClose := " \n)\n"

  /** The import provides the qualifier q: its alias is q, its path ends in
      `/q"`, or its path is `"q"`. */
  predicate Provides(q: string, imp: ImportSpec)
  {
    imp.alias == q || HasSuffix(imp.path, "/" + q + "\"") || imp.path == "\"" + q + "\""
  }

  /** The line written for the pair (q, imp): the first matching rule wins,
      an aliased import is written with its alias; no match writes nothing. */
  function ImportLine(q: string, imp: ImportSpec): string
  {
    if imp.alias == q then " " + imp.alias + " " + imp.path + "\n"
    else if HasSuffix(imp.path, "/" + q + "\"") then " " + imp.path + "\n"
    else if imp.path == "\"" + q + "\"" then " " + imp.path + "\n"
    else ""
  }

  /** The lines written for qualifier q, one per import that provides it, in import order. */
  function LinesFor(q: string, imps: seq<ImportSpec>): seq<string>
  {
    if |imps| == 0 then []
    else
      var imp := imps[|imps| - 1];
      LinesFor(q, imps[..|imps| - 1]) + (if Provides(q, imp) then [ImportLine(q, imp)] else [])
  }

  /** The lines written for the qualifiers, visited in `order`. */
  function EmittedLines(order: seq<string>, imps: seq<ImportSpec>): seq<string>
  {
    if |order| == 0 then [] else EmittedLines(order[..|order| - 1], imps) + LinesFor(order[|order| - 1], imps)
  }

  /** `order` visits every element of s exactly once: a Go map range. */
  predicate Enumerates(order: seq<string>, s: set<string>)
  {
    multiset(order) == multiset(s)
  }

  /** The whole import block, for one visiting order of the qualifiers. It
      always opens with `fmt` and `encoding/json`, follows them with
      `reflect` when asked to, and always closes with `)`. */
  function ImportBlock(reflect: bool, order: seq<string>, imps: seq<ImportSpec>): (b: string)
    ensures Prelude <= b
    ensures |BlockClose| <= |b| && b[|b| - |BlockClose|..] == BlockClose
    ensures reflect ==> Prelude + ReflectLine <= b
    ensures |EmittedLines(order, imps)| == 0 ==> b == Prelude + (if reflect then ReflectLine else "") + BlockClose
  {
    var opt := if reflect then ReflectLine else "";
    var lines := Concat(EmittedLines(order, imps));
    Regroup3(Prelude, opt, lines);
    Regroup3(Prelude, opt + lines, BlockClose);
    Regroup3(opt, lines, BlockClose);
    Prelude + opt + lines + BlockClose
  }

  /** The inner loop of GenerateImportCode: every import is matched against
      the qualifier q, and the first rule that holds writes its line. */
  method AppendImportLines(text: string, q: string, imps: seq<ImportSpec>) returns (toWrite: string)
    ensures toWrite == text + Concat(LinesFor(q, imps))
  {
    toWrite := text;
    for j := 0 to |imps|
      invariant toWrite == text + Concat(LinesFor(q, imps[..j]))
    {
      LineStep(q, imps, j);
      Regroup3(text, Concat(LinesFor(q, imps[..j])), ImportLine(q, imps[j]));
      var importX := imps[j];
      if importX.alias == q {
        toWrite := toWrite + (" " + importX.alias + " " + importX.path + "\n");
      } else if HasSuffix(importX.path, "/" + q + "\"") {
        toWrite := toWrite + (" " + importX.path + "\n");
      } else if importX.path == "\"" + q + "\"" {
        toWrite := toWrite + (" " + importX.path + "\n");
      }
    }
    assert imps[..|imps|] == imps;
  }

  lemma LineStep(q: string, imps: seq<ImportSpec>, j: nat)
    requires j < |imps|
    ensures Concat(LinesFor(q, imps[..j + 1])) == Concat(LinesFor(q, imps[..j])) + ImportLine(q, imps[j])
  {
    LineChoice(q, imps[j]);
    assert imps[..j + 1][..j] == imps[..j];
    if Provides(q, imps[j]) {
      ConcatSnoc(LinesFor(q, imps[..j]), ImportLine(q, imps[j]));
    } else {
      assert LinesFor(q, imps[..j + 1]) == LinesFor(q, imps[..j]);
    }
  }

  // ---------------------------------------------------------------------------
  // Properties

  /** A line is written exactly when the import provides the qualifier; an
      aliased import is written with its alias, any other with its path only. */
  lemma LineChoice(q: string, imp: ImportSpec)
    ensures ImportLine(q, imp) != "" <==> Provides(q, imp)
    ensures imp.alias == q ==> ImportLine(q, imp) == " " + q + " " + imp.path + "\n"
    ensures imp.alias != q && Provides(q, imp) ==> ImportLine(q, imp) == " " + imp.path + "\n"
  {
    if Provides(q, imp) {
      assert |ImportLine(q, imp)| > 0;
    }
  }

  /** At most one line per import for each qualifier, and none at all
      when no import provides it: such a qualifier is not an error. */
  lemma {:induction false} LinesForCount(q: string, imps: seq<ImportSpec>)
    ensures |LinesFor(q, imps)| <= |imps|
    ensures |LinesFor(q, imps)| == 0 <==> forall i :: 0 <= i < |imps| ==> !Provides(q, imps[i])
  {
    if |imps| > 0 {
      var n := |imps| - 1;
      var init := imps[..n];
      LinesForCount(q, init);
      assert forall i :: 0 <= i < n ==> init[i] == imps[i];
    }
  }

  /** The lines for a qualifier are exactly the lines of the imports that provide it. */
  lemma {:induction false} LinesForProviders(q: string, imps: seq<ImportSpec>)
    ensures forall l :: l in LinesFor(q, imps) <==>
      exists i :: 0 <= i < |imps| && Provides(q, imps[i]) && l == ImportLine(q, imps[i])
  {
    if |imps| > 0 {
      var n := |imps| - 1;
      var init := imps[..n];
      LinesForProviders(q, init);
      forall l ensures l in LinesFor(q, imps) <==>
        exists i :: 0 <= i < |imps| && Provides(q, imps[i]) && l == ImportLine(q, imps[i])
      {
        if l in LinesFor(q, init) {
          var i :| 0 <= i < n && Provides(q, init[i]) && l == ImportLine(q, init[i]);
          assert imps[i] == init[i];
        }
        if exists i :: 0 <= i < |imps| && Provides(q, imps[i]) && l == ImportLine(q, imps[i]) {
          var i :| 0 <= i < |imps| && Provides(q, imps[i]) && l == ImportLine(q, imps[i]);
          if i < n {
            assert init[i] == imps[i];
          }
        }
      }
    }
  }

  lemma {:induction false} EmittedAppend(a: seq<string>, b: seq<string>, imps: seq<ImportSpec>)
    ensures EmittedLines(a + b, imps) == EmittedLines(a, imps) + EmittedLines(b, imps)
    decreases |b|
  {
    if |b| == 0 {
      assert a + b == a;
    } else {
      var b' := b[..|b| - 1];
      var last := b[|b| - 1];
      assert (a + b)[..|a + b| - 1] == a + b';
      assert (a + b)[|a + b| - 1] == last;
      assert EmittedLines(a + b, imps) == EmittedLines(a + b', imps) + LinesFor(last, imps);
      EmittedAppend(a, b', imps);
      assert EmittedLines(b, imps) == EmittedLines(b', imps) + LinesFor(last, imps);
      SeqRegroup(EmittedLines(a, imps), EmittedLines(b', imps), LinesFor(last, imps));
    }
  }

  lemma SeqRegroup(x: seq<string>, y: seq<string>, z: seq<string>)
    ensures x + y + z == x + (y + z)
  {
  }

  /** The lines written do not depend on the order the qualifiers are
      visited in, up to their order: any two visiting orders of the same
      qualifiers write the same multiset of lines. */
  lemma {:induction false} OrderIrrelevant(o1: seq<string>, o2: seq<string>, imps: seq<ImportSpec>)
    requires multiset(o1) == multiset(o2)
    ensures multiset(EmittedLines(o1, imps)) == multiset(EmittedLines(o2, imps))
    decreases |o1|
  {
    if |o1| > 0 {
      var n := |o1| - 1;
      var x := o1[n];
      assert x in multiset(o1);
      var k :| 0 <= k < |o2| && o2[k] == x;
      RemoveOne(o1, o2, k);
      OrderIrrelevant(o1[..n], o2[..k] + o2[k + 1..], imps);
      EmittedAround(o2, k, imps);
      Shuffle(EmittedLines(o2[..k], imps), LinesFor(x, imps), EmittedLines(o2[k + 1..], imps));
    }
  }

  /** The lines for the k-th qualifier sit between those of the ones before and after it. */
  lemma EmittedAround(o: seq<string>, k: nat, imps: seq<ImportSpec>)
    requires k < |o|
    ensures EmittedLines(o, imps) ==
      EmittedLines(o[..k], imps) + LinesFor(o[k], imps) + EmittedLines(o[k + 1..], imps)
    ensures EmittedLines(o[..k] + o[k + 1..], imps) == EmittedLines(o[..k], imps) + EmittedLines(o[k + 1..], imps)
  {
    var a, x, b := o[..k], o[k], o[k + 1..];
    assert o == (a + [x]) + b;
    EmittedAppend(a, b, imps);
    EmittedAppend(a + [x], b, imps);
    EmittedAppend(a, [x], imps);
    EmittedSingle(x, imps);
  }

  lemma EmittedSingle(x: string, imps: seq<ImportSpec>)
    ensures EmittedLines([x], imps) == LinesFor(x, imps)
  {
    assert [x][..0] == [];
  }

  /** Taking the last of o1 and its copy at k in o2 leaves equal multisets. */
  lemma RemoveOne(o1: seq<string>, o2: seq<string>, k: nat)
    requires |o1| > 0 && k < |o2| && o2[k] == o1[|o1| - 1] && multiset(o1) == multiset(o2)
    ensures multiset(o1[..|o1| - 1]) == multiset(o2[..k] + o2[k + 1..])
  {
    var n := |o1| - 1;
    assert o1 == o1[..n] + [o1[n]];
    assert o2 == o2[..k] + [o2[k]] + o2[k + 1..];
    assert multiset(o2) == multiset(o2[..k]) + multiset{o2[k]} + multiset(o2[k + 1..]);
    assert multiset(o1) == multiset(o1[..n]) + multiset{o1[n]};
    assert multiset(o2[..k] + o2[k + 1..]) == multiset(o2[..k]) + multiset(o2[k + 1..]);
    assert multiset(o1[..n]) == multiset(o1) - multiset{o1[n]};
    assert multiset(o2[..k]) + multiset(o2[k + 1..]) == multiset(o2) - multiset{o2[k]};
  }

  lemma Shuffle(a: seq<string>, l: seq<string>, b: seq<string>)
    ensures multiset(a + l + b) == multiset(a + b) + multiset(l)
  {
    assert multiset(a + l + b) == multiset(a) + multiset(l) + multiset(b);
    assert multiset(a + b) == multiset(a) + multiset(b);
  }

  /** Two orders that enumerate the same set of qualifiers write the same
      multiset of lines: Go's random map order changes only their order. */
  lemma MapOrderIrrelevant(o1: seq<string>, o2: seq<string>, s: set<string>, imps: seq<ImportSpec>)
    requires Enumerates(o1, s) && Enumerates(o2, s)
    ensures multiset(EmittedLines(o1, imps)) == multiset(EmittedLines(o2, imps))
  {
    OrderIrrelevant(o1, o2, imps);
  }

  /** An unaliased import whose path ends in `/pkg` provides `pkg`, and is
      written as its path alone. */
  lemma PathSuffixProvides(dir: string, pkg: string)
    requires pkg != ""
    ensures var imp := ImportSpec("\"" + dir + "/" + pkg + "\"", "");
      Provides(pkg, imp) && ImportLine(pkg, imp) == " " + imp.path + "\n"
  {
    var path := "\"" + dir + "/" + pkg + "\"";
    var suffix := "/" + pkg + "\"";
    assert path == ("\"" + dir) + suffix;
    assert path[|path| - |suffix|..] == suffix;
  }

  /** The empty qualifier (from a variadic `...pkg.T`) equals the alias ""
      of every unaliased import, so every unaliased import is written for it. */
  lemma EmptyQualifierTakesUnaliased(imp: ImportSpec)
    requires imp.alias == ""
    ensures Provides("", imp)
    ensures ImportLine("", imp) == "  " + imp.path + "\n"
  {
  }
}
