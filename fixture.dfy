/** The fixture struct `GenerateFunctionStruct` of mock/fileWriter.go
    writes for every mocked function: an `Input` struct with one field per
    parameter and, when the function has results, an `Output` struct with
    one field per result and one per pointer parameter. The JSON fixture
    file is decoded into a slice of these structs. */
module FixtureStructs {
  import opened GoStrings

  datatype Option<T> = None | Some(value: T)

  // ---------------------------------------------------------------------------
  // The `name type` strings of a named parameter list

  /** strings.Split(p, " ")[k], or "" where Go would index out of range. */
  function Token(p: string, k: nat): string
  {
    var parts := Split(p, ' ');
    if k < |parts| then parts[k] else ""
  }

  /** Indexing `strings.Split(p, " ")[1][0]` does not panic. */
  predicate WellSplit(p: string)
  {
    |Split(p, ' ')| >= 2 && |Split(p, ' ')[1]| > 0
  }

  /** The parameter's second word starts with `*`: it is passed by pointer,
      and the mock writes the fixture's value back through it. */
  predicate IsPointerParam(p: string)
  {
    |Token(p, 1)| > 0 && Token(p, 1)[0] == '*'
  }

  // ---------------------------------------------------------------------------
  // Struct fields

  /** One line ` Name Type `json:"tag"`` of a generated struct. */
  datatype StructField = StructField(name: string, typ: string, tag: string)

  function FieldLine(f: StructField): string
  {
    " " + f.name + " " + f.typ + " `json:\"" + f.tag + "\"`\n"
  }

  /** The lines of several fields, in order. */
  function FieldsText(fs: seq<StructField>): string
  {
    if |fs| == 0 then "" else FieldsText(fs[..|fs| - 1]) + FieldLine(fs[|fs| - 1])
  }

  /** `ReturnI`, the name and JSON tag of the field for the i-th result. */
  function ReturnFieldName(i: nat): string
  {
    "Return" + NatToString(i)
  }

  function ReturnField(i: nat, rt: string): StructField
  {
    StructField(ReturnFieldName(i), rt, ReturnFieldName(i))
  }

  /** The field for a parameter: its name Title-cased, its second word as
      the type, its name as the JSON tag. */
  function ParamField(p: string): StructField
  {
    StructField(Title(Token(p, 0)), Token(p, 1), Token(p, 0))
  }

  function ReturnFields(rts: seq<string>): seq<StructField>
  {
    if |rts| == 0 then [] else ReturnFields(rts[..|rts| - 1]) + [ReturnField(|rts| - 1, rts[|rts| - 1])]
  }

  function InputFields(params: seq<string>): seq<StructField>
  {
    if |params| == 0 then [] else InputFields(params[..|params| - 1]) + [ParamField(params[|params| - 1])]
  }

  /** The fields of the pointer parameters only, in order. */
  function PointerFields(params: seq<string>): seq<StructField>
  {
    if |params| == 0 then []
    else
      var p := params[|params| - 1];
      PointerFields(params[..|params| - 1]) + (if IsPointerParam(p) then [ParamField(p)] else [])
  }

  /** The shape of the generated struct. */
  datatype Fixture = Fixture(name: string, input: seq<StructField>, output: Option<seq<StructField>>)

  /** The fixture for a function with these params and result types:
      `Output` only when there is at least one result. */
  function FixtureOf(funcName: string, params: seq<string>, rts: seq<string>): (r: Fixture)
    ensures r.name == funcName && |r.input| == |params|
    ensures r.output.Some? <==> |rts| > 0
    ensures r.output.Some? ==> |r.output.value| >= |rts|
  {
    InputOnePerParam(params);
    ReturnOnePerResult(rts);
    Fixture(funcName, InputFields(params),
            if |rts| > 0 then Some(ReturnFields(rts) + PointerFields(params)) else None)
  }

  /** The Sprintf formats of GenerateFunctionStruct, one per call. */
  function StructOpen(name: string): string { "type " + name + " struct {\n" }
  function InputBlock(fieldsText: string): string { " Input struct { \n " + fieldsText + " \n} \n" }
  function OutputBlock(fieldsText: string): string { " Output struct { \n " + fieldsText + " }\n" }
  const StructClose := " } \n"

  /** The text of a fixture struct: the `type <name> struct {` header, the
      Input block right after it, and the closing brace at the end. */
  function RenderFixture(fx: Fixture): (r: string)
    ensures StructOpen(fx.name) + InputBlock(FieldsText(fx.input)) <= r
    ensures |StructClose| <= |r| && r[|r| - |StructClose|..] == StructClose
  {
    var out := match fx.output
      case None => ""
      case Some(fs) => OutputBlock(FieldsText(fs));
    StructOpen(fx.name) + InputBlock(FieldsText(fx.input)) + out + StructClose
  }

  lemma {:induction false} FieldsTextAppend(a: seq<StructField>, b: seq<StructField>)
    ensures FieldsText(a + b) == FieldsText(a) + FieldsText(b)
    decreases |b|
  {
    if |b| == 0 {
      assert a + b == a;
    } else {
      var b' := b[..|b| - 1];
      var last := b[|b| - 1];
      assert (a + b)[..|a + b| - 1] == a + b';
      assert (a + b)[|a + b| - 1] == last;
      assert FieldsText(a + b) == FieldsText(a + b') + FieldLine(last);
      FieldsTextAppend(a, b');
      Regroup3(FieldsText(a), FieldsText(b'), FieldLine(last));
    }
  }

  lemma ReturnStep(rts: seq<string>, i: nat)
    requires i < |rts|
    ensures FieldsText(ReturnFields(rts[..i + 1])) == FieldsText(ReturnFields(rts[..i])) + FieldLine(ReturnField(i, rts[i]))
  {
    assert rts[..i + 1][..i] == rts[..i];
  }

  lemma ParamStep(params: seq<string>, i: nat)
    requires i < |params|
    ensures FieldsText(InputFields(params[..i + 1])) == FieldsText(InputFields(params[..i])) + FieldLine(ParamField(params[i]))
    ensures FieldsText(PointerFields(params[..i + 1])) ==
      FieldsText(PointerFields(params[..i])) + (if IsPointerParam(params[i]) then FieldLine(ParamField(params[i])) else "")
  {
    assert params[..i + 1][..i] == params[..i];
    if IsPointerParam(params[i]) {
      FieldsTextAppend(PointerFields(params[..i]), [ParamField(params[i])]);
    } else {
      assert PointerFields(params[..i + 1]) == PointerFields(params[..i]);
    }
  }

  /** GenerateFunctionStruct. */
  method GenerateFunctionStruct(funcName: string, params: seq<string>, returntypes: seq<string>)
    returns (toWrite: string)
    requires forall i :: 0 <= i < |params| ==> WellSplit(params[i])
    ensures toWrite == RenderFixture(FixtureOf(funcName, params, returntypes))
  {
    toWrite := StructOpen(funcName);
    var returnVarsInStruct := ReturnFieldsCode(returntypes);
    var inputVarsInStruct;
    inputVarsInStruct, returnVarsInStruct := ParamFieldsCode(params, returnVarsInStruct);
    ghost var fx := FixtureOf(funcName, params, returntypes);

    toWrite := toWrite + InputBlock(inputVarsInStruct);
    if |returntypes| > 0 {
      FieldsTextAppend(ReturnFields(returntypes), PointerFields(params));
      assert returnVarsInStruct == FieldsText(fx.output.value);
      toWrite := toWrite + OutputBlock(returnVarsInStruct);
    }
    toWrite := toWrite + StructClose;
  }

  /** The first loop of GenerateFunctionStruct: one `ReturnI` field per result. */
  method ReturnFieldsCode(returntypes: seq<string>) returns (returnVarsInStruct: string)
    ensures returnVarsInStruct == FieldsText(ReturnFields(returntypes))
  {
    returnVarsInStruct := "";
    for i := 0 to |returntypes|
      invariant returnVarsInStruct == FieldsText(ReturnFields(returntypes[..i]))
    {
      ReturnStep(returntypes, i);
      returnVarsInStruct := returnVarsInStruct + FieldLine(ReturnField(i, returntypes[i]));
    }
    assert returntypes[..|returntypes|] == returntypes;
  }

  /** The second loop of GenerateFunctionStruct: an Input field per param,
      and an Output field appended for each pointer param. */
  method ParamFieldsCode(params: seq<string>, returnsText: string)
    returns (inputVarsInStruct: string, returnVarsInStruct: string)
    requires forall i :: 0 <= i < |params| ==> WellSplit(params[i])
    ensures inputVarsInStruct == FieldsText(InputFields(params))
    ensures returnVarsInStruct == returnsText + FieldsText(PointerFields(params))
  {
    inputVarsInStruct := "";
    returnVarsInStruct := returnsText;
    for i := 0 to |params|
      invariant inputVarsInStruct == FieldsText(InputFields(params[..i]))
      invariant returnVarsInStruct == returnsText + FieldsText(PointerFields(params[..i]))
    {
      var param := Split(params[i], ' ');
      assert WellSplit(params[i]);
      var field := StructField(Title(param[0]), param[1], param[0]);
      assert field == ParamField(params[i]);
      ParamStep(params, i);
      if param[1][0] == '*' {
        Regroup3(returnsText, FieldsText(PointerFields(params[..i])), FieldLine(field));
        returnVarsInStruct := returnVarsInStruct + FieldLine(field);
      }
      inputVarsInStruct := inputVarsInStruct + FieldLine(field);
    }
    assert params[..|params|] == params;
  }

  // ---------------------------------------------------------------------------
  // Properties

  /** Input holds exactly one field per parameter, in order: its name
      Title-cased, its type and a JSON tag equal to the parameter name. */
  lemma {:induction false} InputOnePerParam(params: seq<string>)
    ensures |InputFields(params)| == |params|
    ensures forall i :: 0 <= i < |params| ==>
      InputFields(params)[i].name == Title(Token(params[i], 0)) &&
      InputFields(params)[i].typ == Token(params[i], 1) &&
      InputFields(params)[i].tag == Token(params[i], 0)
  {
    if |params| > 0 {
      var init := params[..|params| - 1];
      InputOnePerParam(init);
      forall i | 0 <= i < |params| - 1
        ensures InputFields(params)[i] == ParamField(params[i])
      {
        assert InputFields(params)[i] == InputFields(init)[i];
        assert init[i] == params[i];
      }
    }
  }

  /** ReturnI is the i-th return field and has the i-th result type. */
  lemma {:induction false} ReturnOnePerResult(rts: seq<string>)
    ensures |ReturnFields(rts)| == |rts|
    ensures forall i :: 0 <= i < |rts| ==> ReturnFields(rts)[i] == ReturnField(i, rts[i])
  {
    if |rts| > 0 {
      var init := rts[..|rts| - 1];
      ReturnOnePerResult(init);
      forall i | 0 <= i < |rts| - 1 ensures ReturnFields(rts)[i] == ReturnField(i, rts[i]) {
        assert ReturnFields(rts)[i] == ReturnFields(init)[i];
        assert init[i] == rts[i];
      }
    }
  }

  /** f is the field of some pointer parameter among params. */
  predicate PointerFieldOf(params: seq<string>, f: StructField)
  {
    exists p :: p in params && IsPointerParam(p) && f == ParamField(p)
  }

  /** One more parameter: f is a pointer parameter's field of the longer
      list when it is one of the shorter list or the new parameter's. */
  lemma PointerFieldSnoc(params: seq<string>, f: StructField)
    requires |params| > 0
    ensures PointerFieldOf(params, f) <==>
      PointerFieldOf(params[..|params| - 1], f) ||
      (IsPointerParam(params[|params| - 1]) && f == ParamField(params[|params| - 1]))
  {
    var n := |params| - 1;
    assert params == params[..n] + [params[n]];
  }

  /** The pointer fields are exactly the fields of the pointer parameters:
      each is a parameter's field, and each pointer parameter has one. */
  lemma {:induction false} PointerFieldsExactly(params: seq<string>)
    ensures forall f :: f in PointerFields(params) <==> PointerFieldOf(params, f)
  {
    if |params| > 0 {
      PointerFieldsExactly(params[..|params| - 1]);
      forall f ensures f in PointerFields(params) <==> PointerFieldOf(params, f) {
        PointerFieldSnoc(params, f);
      }
    }
  }

  /** Output exists exactly when there are results, and then lists ReturnI
      for every result first, followed by the pointer parameters' fields. */
  lemma OutputShape(funcName: string, params: seq<string>, rts: seq<string>)
    ensures FixtureOf(funcName, params, rts).output.Some? <==> |rts| > 0
    ensures |rts| > 0 ==>
      var out := FixtureOf(funcName, params, rts).output.value;
      |out| >= |rts| &&
      (forall i :: 0 <= i < |rts| ==> out[i] == ReturnField(i, rts[i])) &&
      (forall f :: f in out[|rts|..] <==> PointerFieldOf(params, f))
  {
    ReturnOnePerResult(rts);
    PointerFieldsExactly(params);
    if |rts| > 0 {
      var out := FixtureOf(funcName, params, rts).output.value;
      assert out[|rts|..] == PointerFields(params);
    }
  }
}
