/** The text of the mock function `GenerateFuncCode` of mock/fileWriter.go
    writes: it looks up the JSON fixtures stored for the function, finds
    the first one whose `Input` equals the arguments, writes the pointer
    arguments back from its `Output` and returns its `ReturnI` values. */
module MockFunctions {
  import opened GoStrings
  import opened Qualifiers
  import opened FixtureStructs

  // ---------------------------------------------------------------------------
  // Matching the arguments against a fixture's Input

  /** One conjunct of the `result :=` condition: argument `arg` against the
      Input field `field`, with `reflect.DeepEqual` when `deep`. */
  datatype Comparison = Comparison(arg: string, field: string, deep: bool)

  /** The comparison for one `name type` param: `==` only when its second
      word is one of builtinTypes. */
  function CompareOf(p: string): Comparison
  {
    Comparison(Token(p, 0), Title(Token(p, 0)), Token(p, 1) !in BuiltinTypes)
  }

  function Comparisons(params: seq<string>): seq<Comparison>
  {
    if |params| == 0 then [] else Comparisons(params[..|params| - 1]) + [CompareOf(params[|params| - 1])]
  }

  function ClauseText(c: Comparison): string
  {
    if c.deep then " reflect.DeepEqual(" + c.arg + ",inp." + c.field + ")"
    else " (" + c.arg + " == inp." + c.field + ")"
  }

  function ClauseTexts(cs: seq<Comparison>): seq<string>
  {
    if |cs| == 0 then [] else ClauseTexts(cs[..|cs| - 1]) + [ClauseText(cs[|cs| - 1])]
  }

  /** The condition text: the clauses joined by ` && `. */
  function MatchCondition(params: seq<string>): string
  {
    Join(ClauseTexts(Comparisons(params)), " && ")
  }

  /** How many comparisons use reflect.DeepEqual. */
  function DeepCount(params: seq<string>): nat
  {
    if |params| == 0 then 0
    else DeepCount(params[..|params| - 1]) + (if CompareOf(params[|params| - 1]).deep then 1 else 0)
  }

  // ---------------------------------------------------------------------------
  // The Sprintf formats of GenerateFuncCode, one per call

  function RecvPart(recvParam: string): string { " (" + recvParam + ") " }

  function Signature(name: string, params: seq<string>, rts: seq<string>): string
  {
    " " + name + " (" + Join(params, ", ") + ") (" + Join(rts, ", ") + ") {\n"
  }

  function JsonLoad(name: string): string
  {
    " jsonData := ServicesMap[\"" + name + "\"].([]" + name + "Struct)\n"
  }

  /** `returnI`, the local variable holding the i-th result. */
  function ReturnVar(i: nat): string { "return" + NatToString(i) }

  function VarDecl(i: nat, rt: string): string { " var " + ReturnVar(i) + " " + rt + "\n" }

  const LoopOpen := " for i := 0; i < len(jsonData); i++ {\n elem := jsonData[i]\n inp := elem.Input\n outp := elem.Output\n"

  function ResultLine(condition: string): string { " result := " + condition + " \n" }

  const IfOpen := " if result == true {\n"

  function WriteBack(name: string): string { " *" + name + " = *outp." + Title(name) + "\n" }

  function ReturnAssign(i: nat): string
  {
    " " + ReturnVar(i) + " = outp." + ReturnFieldName(i) + "\n"
  }

  const BodyClose := "}\n}"

  function ReturnStmt(vars: seq<string>): string { "\n return " + Join(vars, ", ") + "\n" }

  const FuncClose := "}"

  // ---------------------------------------------------------------------------
  // The repeated parts

  function VarDecls(rts: seq<string>): seq<string>
  {
    if |rts| == 0 then [] else VarDecls(rts[..|rts| - 1]) + [VarDecl(|rts| - 1, rts[|rts| - 1])]
  }

  /** `*p = *outp.P` for the pointer params, in order. */
  function WriteBacks(params: seq<string>): seq<string>
  {
    if |params| == 0 then []
    else
      var p := params[|params| - 1];
      WriteBacks(params[..|params| - 1]) + (if IsPointerParam(p) then [WriteBack(Token(p, 0))] else [])
  }

  function ReturnAssigns(n: nat): seq<string>
  {
    if n == 0 then [] else ReturnAssigns(n - 1) + [ReturnAssign(n - 1)]
  }

  function ReturnVars(n: nat): seq<string>
  {
    if n == 0 then [] else ReturnVars(n - 1) + [ReturnVar(n - 1)]
  }

  /** `func`, followed by the receiver when there is one. */
  function FuncHead(receiver: Option<string>): string
  {
    match receiver
    case None => "func"
    case Some(recvParam) => "func" + RecvPart(recvParam)
  }

  /** The whole mock function; `receiver` is the receiver's `name type`
      when the function is a method. It opens with the signature and the
      fixture lookup, and ends with the closing brace. */
  function FuncText(receiver: Option<string>, name: string, params: seq<string>, rts: seq<string>): (r: string)
    ensures var head := FuncHead(receiver) + Signature(name, params, rts) + JsonLoad(name);
      |head| <= |r| && r[..|head|] == head
    ensures |FuncClose| <= |r| && r[|r| - |FuncClose|..] == FuncClose
  {
    var head := FuncHead(receiver) + Signature(name, params, rts) + JsonLoad(name);
    var body := head + Concat(VarDecls(rts))
      + LoopOpen + ResultLine(MatchCondition(params)) + IfOpen
      + Concat(WriteBacks(params))
      + Concat(ReturnAssigns(|rts|))
      + BodyClose;
    PrefixStays(head, Concat(VarDecls(rts)), LoopOpen, ResultLine(MatchCondition(params)), IfOpen,
                Concat(WriteBacks(params)), Concat(ReturnAssigns(|rts|)), BodyClose);
    KeepsPrefix(body, ReturnStmt(ReturnVars(|rts|)), head);
    KeepsPrefix(body + ReturnStmt(ReturnVars(|rts|)), FuncClose, head);
    body + ReturnStmt(ReturnVars(|rts|)) + FuncClose
  }

  // ---------------------------------------------------------------------------
  // The loops of GenerateFuncCode that append to its text

  /** The `var returnI T` loop. */
  method AppendVarDecls(text: string, rts: seq<string>) returns (toWrite: string)
    ensures toWrite == text + Concat(VarDecls(rts))
  {
    toWrite := text;
    for i := 0 to |rts|
      invariant toWrite == text + Concat(VarDecls(rts[..i]))
    {
      VarDeclStep(rts, i);
      Regroup3(text, Concat(VarDecls(rts[..i])), VarDecl(i, rts[i]));
      toWrite := toWrite + VarDecl(i, rts[i]);
    }
    assert rts[..|rts|] == rts;
  }

  /** The loop that writes each pointer param back from the fixture. */
  method AppendWriteBacks(text: string, params: seq<string>) returns (toWrite: string)
    requires forall i :: 0 <= i < |params| ==> WellSplit(params[i])
    ensures toWrite == text + Concat(WriteBacks(params))
  {
    toWrite := text;
    for i := 0 to |params|
      invariant toWrite == text + Concat(WriteBacks(params[..i]))
    {
      WriteBackStep(params, i);
      var param := Split(params[i], ' ');
      assert WellSplit(params[i]);
      assert param[0] == Token(params[i], 0) && param[1] == Token(params[i], 1);
      if param[1][0] == '*' {
        Regroup3(text, Concat(WriteBacks(params[..i])), WriteBack(param[0]));
        toWrite := toWrite + WriteBack(param[0]);
      }
    }
    assert params[..|params|] == params;
  }

  /** The `returnI = outp.ReturnI` loop over n results. */
  method AppendReturnAssigns(text: string, n: nat) returns (toWrite: string)
    ensures toWrite == text + Concat(ReturnAssigns(n))
  {
    toWrite := text;
    for i := 0 to n
      invariant toWrite == text + Concat(ReturnAssigns(i))
    {
      ReturnAssignStep(i);
      Regroup3(text, Concat(ReturnAssigns(i)), ReturnAssign(i));
      toWrite := toWrite + ReturnAssign(i);
    }
  }

  /** The names returned by the mock, `return0` to `return{n-1}`. */
  method ReturnVarsCode(n: nat) returns (returnVars: seq<string>)
    ensures returnVars == ReturnVars(n)
  {
    returnVars := [];
    for i := 0 to n
      invariant returnVars == ReturnVars(i)
    {
      returnVars := returnVars + [ReturnVar(i)];
    }
  }

  // ---------------------------------------------------------------------------
  // One loop iteration of GenerateFuncCode at a time

  lemma VarDeclStep(rts: seq<string>, i: nat)
    requires i < |rts|
    ensures Concat(VarDecls(rts[..i + 1])) == Concat(VarDecls(rts[..i])) + VarDecl(i, rts[i])
  {
    assert rts[..i + 1][..i] == rts[..i];
    ConcatSnoc(VarDecls(rts[..i]), VarDecl(i, rts[i]));
  }

  lemma ConditionStep(params: seq<string>, i: nat)
    requires i < |params|
    ensures var c := ClauseText(CompareOf(params[i]));
      MatchCondition(params[..i + 1]) == if i == 0 then c else MatchCondition(params[..i]) + " && " + c
    ensures DeepCount(params[..i + 1]) == DeepCount(params[..i]) + if CompareOf(params[i]).deep then 1 else 0
  {
    assert params[..i + 1][..i] == params[..i];
    ComparisonsPerParam(params[..i]);
    JoinSnoc(ClauseTexts(Comparisons(params[..i])), ClauseText(CompareOf(params[i])), " && ");
  }

  lemma WriteBackStep(params: seq<string>, i: nat)
    requires i < |params|
    ensures Concat(WriteBacks(params[..i + 1])) == Concat(WriteBacks(params[..i])) +
      if IsPointerParam(params[i]) then WriteBack(Token(params[i], 0)) else ""
  {
    assert params[..i + 1][..i] == params[..i];
    if IsPointerParam(params[i]) {
      ConcatSnoc(WriteBacks(params[..i]), WriteBack(Token(params[i], 0)));
    } else {
      assert WriteBacks(params[..i + 1]) == WriteBacks(params[..i]);
    }
  }

  lemma ReturnAssignStep(i: nat)
    ensures Concat(ReturnAssigns(i + 1)) == Concat(ReturnAssigns(i)) + ReturnAssign(i)
  {
    ConcatSnoc(ReturnAssigns(i), ReturnAssign(i));
  }

  // ---------------------------------------------------------------------------
  // Properties

  /** Exactly one comparison per param, in order. */
  lemma {:induction false} ComparisonsPerParam(params: seq<string>)
    ensures |Comparisons(params)| == |params|
    ensures forall i :: 0 <= i < |params| ==> Comparisons(params)[i] == CompareOf(params[i])
  {
    if |params| > 0 {
      var init := params[..|params| - 1];
      ComparisonsPerParam(init);
      forall i | 0 <= i < |params| - 1 ensures Comparisons(params)[i] == CompareOf(params[i]) {
        assert Comparisons(params)[i] == Comparisons(init)[i];
        assert init[i] == params[i];
      }
    }
  }

  /** The i-th comparison reads the i-th Input field of the fixture struct,
      whose JSON tag is the argument's own name: the mock compares every
      argument with the fixture value recorded under that name. */
  lemma ComparisonsReadInput(params: seq<string>)
    ensures |Comparisons(params)| == |InputFields(params)| == |params|
    ensures forall i :: 0 <= i < |params| ==>
      Comparisons(params)[i].field == InputFields(params)[i].name &&
      Comparisons(params)[i].arg == InputFields(params)[i].tag
  {
    ComparisonsPerParam(params);
    InputOnePerParam(params);
  }

  /** The DeepEqual count is positive exactly when some param's second
      word is not a builtin type, and never exceeds the number of params. */
  lemma {:induction false} DeepCountPositive(params: seq<string>)
    ensures DeepCount(params) <= |params|
    ensures DeepCount(params) > 0 <==> exists i :: 0 <= i < |params| && Token(params[i], 1) !in BuiltinTypes
  {
    if |params| > 0 {
      var n := |params| - 1;
      var init := params[..n];
      var last := params[n];
      DeepCountPositive(init);
      assert DeepCount(params) == DeepCount(init) + (if CompareOf(last).deep then 1 else 0);
      if DeepCount(init) > 0 {
        var i :| 0 <= i < n && Token(init[i], 1) !in BuiltinTypes;
        assert init[i] == params[i];
      } else if !CompareOf(last).deep {
        forall i | 0 <= i < |params| ensures Token(params[i], 1) in BuiltinTypes {
          if i < n {
            assert init[i] == params[i];
          }
        }
      }
    }
  }

  /** The write-backs correspond one to one, in order, to the pointer
      fields of the fixture: `*p = *outp.P` reads the field P whose JSON
      tag is p. */
  lemma {:induction false} WriteBacksReadPointerFields(params: seq<string>)
    ensures |WriteBacks(params)| == |PointerFields(params)|
    ensures forall k :: 0 <= k < |WriteBacks(params)| ==>
      var f := PointerFields(params)[k];
      WriteBacks(params)[k] == " *" + f.tag + " = *outp." + f.name + "\n"
  {
    if |params| > 0 {
      var init := params[..|params| - 1];
      WriteBacksReadPointerFields(init);
      var m := |WriteBacks(init)|;
      forall k | 0 <= k < m
        ensures WriteBacks(params)[k] == WriteBacks(init)[k] && PointerFields(params)[k] == PointerFields(init)[k]
      {
      }
    }
  }

  lemma {:induction false} VarDeclsEach(rts: seq<string>)
    ensures |VarDecls(rts)| == |rts|
    ensures forall i :: 0 <= i < |rts| ==> VarDecls(rts)[i] == VarDecl(i, rts[i])
  {
    if |rts| > 0 {
      var init := rts[..|rts| - 1];
      VarDeclsEach(init);
      forall i | 0 <= i < |rts| - 1 ensures VarDecls(rts)[i] == VarDecl(i, rts[i]) {
        assert VarDecls(rts)[i] == VarDecls(init)[i];
        assert init[i] == rts[i];
      }
    }
  }

  lemma {:induction false} ReturnLinesEach(n: nat)
    ensures |ReturnAssigns(n)| == n && |ReturnVars(n)| == n
    ensures forall i :: 0 <= i < n ==> ReturnAssigns(n)[i] == ReturnAssign(i) && ReturnVars(n)[i] == ReturnVar(i)
  {
    if n > 0 {
      ReturnLinesEach(n - 1);
      forall i | 0 <= i < n - 1
        ensures ReturnAssigns(n)[i] == ReturnAssigns(n - 1)[i] && ReturnVars(n)[i] == ReturnVars(n - 1)[i]
      {
      }
    }
  }

  /** Every result has one `var returnI` of the type the fixture's ReturnI
      field holds, one `returnI = outp.ReturnI` reading that field, and
      `returnI` is the i-th returned value. */
  lemma ReturnsReadOutput(rts: seq<string>)
    ensures |ReturnFields(rts)| == |VarDecls(rts)| == |ReturnAssigns(|rts|)| == |ReturnVars(|rts|)| == |rts|
    ensures forall i :: 0 <= i < |rts| ==>
      VarDecls(rts)[i] == " var " + ReturnVars(|rts|)[i] + " " + ReturnFields(rts)[i].typ + "\n" &&
      ReturnAssigns(|rts|)[i] == " " + ReturnVars(|rts|)[i] + " = outp." + ReturnFields(rts)[i].name + "\n"
  {
    ReturnOnePerResult(rts);
    VarDeclsEach(rts);
    ReturnLinesEach(|rts|);
  }

  /** For a param `name type` with a space-free name, the comparison's
      argument is the name and the builtin test looks at the type's first
      word only: `c chan int` is looked up as `chan`. */
  lemma ParamWords(name: string, ts: string)
    requires ' ' !in name
    ensures Token(name + " " + ts, 0) == name
    ensures Token(name + " " + ts, 1) == Split(ts, ' ')[0]
  {
    SplitAtFirst(name, ts, ' ');
  }

  /** A type that starts with neither a space nor a `*` is compared with
      `==` exactly when its first word is a builtin, and is not written back. */
  lemma PointerParamIffStarType(name: string, ts: string)
    requires ' ' !in name && |ts| > 0 && ts[0] != ' '
    ensures WellSplit(name + " " + ts)
    ensures IsPointerParam(name + " " + ts) <==> ts[0] == '*'
  {
    ParamWords(name, ts);
    SplitHead(ts, ' ');
    assert IndexOf(ts, ' ') > 0;
  }

  /** The builtin test sees only `chan` in a channel parameter such as
      `c chan int`, so every channel, even of a builtin element type, is
      compared with reflect.DeepEqual. */
  lemma ChanParamComparedDeeply(name: string, elem: string)
    requires ' ' !in name
    ensures CompareOf(name + " " + ("chan " + elem)).deep
  {
    ParamWords(name, "chan " + elem);
    assert "chan " + elem == "chan" + [' '] + elem;
    SplitAtFirst("chan", elem, ' ');
    ChanNotBuiltin();
  }

  /** An `int` param is compared with `==`. */
  lemma IntParamComparedDirectly(name: string)
    requires ' ' !in name
    ensures !CompareOf(name + " int").deep
  {
    ParamWords(name, "int");
    assert name + " int" == name + " " + "int";
    assert IndexOf("int", ' ') == 3;
    SplitHead("int", ' ');
    assert "int"[..3] == "int";
  }

  lemma ChanNotBuiltin()
    ensures "chan" !in BuiltinTypes
  {
    forall b | b in BuiltinTypes ensures b != "chan" {
      if |b| == 4 {
        assert b[0] != 'c';
      }
    }
  }

  /** Without results the fixture has no Output struct, yet the mock still
      reads `elem.Output` in its loop. */
  lemma NoResultsStillReadsOutput(receiver: Option<string>, name: string, params: seq<string>)
    returns (before: string, after: string)
    ensures FixtureOf(name + "Struct", params, []).output == None
    ensures FuncText(receiver, name, params, []) == before + LoopOpen + after
  {
    before := FuncHead(receiver) + Signature(name, params, []) + JsonLoad(name) + Concat(VarDecls([]));
    var p := before + LoopOpen;
    var a1, a2, a3 := ResultLine(MatchCondition(params)), IfOpen, Concat(WriteBacks(params));
    var a4, a5, a6, a7 := Concat(ReturnAssigns(0)), BodyClose, ReturnStmt(ReturnVars(0)), FuncClose;
    var t := FuncText(receiver, name, params, []);
    assert t == p + a1 + a2 + a3 + a4 + a5 + a6 + a7;
    PrefixStays(p, a1, a2, a3, a4, a5, a6, a7);
    after := t[|p|..];
    PrefixThenRest(t, p);
  }

  /** A text with prefix q is q followed by the rest. */
  lemma PrefixThenRest(t: string, q: string)
    requires |q| <= |t| && t[..|q|] == q
    ensures t == q + t[|q|..]
  {
    assert t == t[..|q|] + t[|q|..];
  }

  /** Appending seven pieces keeps the prefix. */
  lemma PrefixStays(p: string, a1: string, a2: string, a3: string, a4: string, a5: string, a6: string, a7: string)
    ensures (p + a1 + a2 + a3 + a4 + a5 + a6 + a7)[..|p|] == p
  {
    KeepsPrefix(p, a1, p);
    KeepsPrefix(p + a1, a2, p);
    KeepsPrefix(p + a1 + a2, a3, p);
    KeepsPrefix(p + a1 + a2 + a3, a4, p);
    KeepsPrefix(p + a1 + a2 + a3 + a4, a5, p);
    KeepsPrefix(p + a1 + a2 + a3 + a4 + a5, a6, p);
    KeepsPrefix(p + a1 + a2 + a3 + a4 + a5 + a6, a7, p);
  }

  /** A prefix stays a prefix when text is appended. */
  lemma KeepsPrefix(s: string, x: string, q: string)
    requires |q| <= |s| && s[..|q|] == q
    ensures (s + x)[..|q|] == q
  {
    assert (s + x)[..|q|] == s[..|q|];
  }
}
