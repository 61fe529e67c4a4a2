/** The parameter-list normaliser `genList` of mock/fileWriter.go: from a
    parameter or result list it builds three aligned lists, the names, the
    rendered types and the `name type` strings of a Go signature. */
module ParamLists {
  import opened GoStrings
  import opened TypePrinter

  /** The three lists genList returns. */
  datatype ParamList = ParamList(names: seq<string>, types: seq<string>, params: seq<string>)

  /** Some field declares several names (`a, b int`). */
  predicate HasMultiName(fs: seq<Field>)
  {
    exists i :: 0 <= i < |fs| && |fs[i].names| > 1
  }

  /** The placeholder genList invents for the unnamed field at index idx. */
  function Placeholder(idx: nat): string
  {
    "_a" + NatToString(idx)
  }

  /** What one field contributes, its type already rendered as `ts`. */
  function FieldEntries(f: Field, idx: nat, ts: string, named: bool): (r: ParamList)
  {
    if !named then ParamList([""], [ts], [ts])
    else if |f.names| == 0 then ParamList([Placeholder(idx)], [ts], [Placeholder(idx) + " " + ts])
    else ParamList(f.names, Repeat(ts, |f.names|), NamedParams(f.names, ts))
  }

  /** `name type` for every name of a field. */
  function NamedParams(names: seq<string>, ts: string): (r: seq<string>)
    ensures |r| == |names|
    ensures forall k :: 0 <= k < |names| ==> r[k] == names[k] + " " + ts
  {
    if |names| == 0 then [] else [names[0] + " " + ts] + NamedParams(names[1..], ts)
  }

  function Append(a: ParamList, b: ParamList): ParamList
  {
    ParamList(a.names + b.names, a.types + b.types, a.params + b.params)
  }

  predicate Aligned(p: ParamList)
  {
    |p.names| == |p.types| == |p.params|
  }

  /** The loop of genList over the fields from index idx on. */
  function GenFields(fs: seq<Field>, idx: nat, named: bool): (r: Result<ParamList, PrintError>)
    ensures r.Success? ==> Aligned(r.value)
    decreases |fs|
  {
    if |fs| == 0 then Success(ParamList([], [], []))
    else
      match TypeString(fs[0].typ)
      case Failure(e) => Failure(e)
      case Success(ts) =>
        match GenFields(fs[1..], idx + 1, named)
        case Failure(e) => Failure(e)
        case Success(more) => Success(Append(FieldEntries(fs[0], idx, ts, named), more))
  }

  /** genList: naming is switched on by the caller or by any field with
      several names; a nil list gives three empty lists. It panics exactly
      when typeString does on one of the types, and its three lists always
      have one entry per parameter. */
  function GenList(list: FieldList, addNames: bool): (r: Result<ParamList, PrintError>)
    ensures r.Success? <==> ListPrintable(list)
    ensures r.Success? ==> Aligned(r.value)
  {
    match list
    case NilList => Success(ParamList([], [], []))
    case List(fs) =>
      GenFieldsTypes(fs, 0, addNames || HasMultiName(fs));
      GenFields(fs, 0, addNames || HasMultiName(fs))
  }

  // ---------------------------------------------------------------------------
  // Properties

  /** A field with several names forces naming on: the caller's choice makes no difference. */
  lemma MultiNameForcesNames(fs: seq<Field>)
    requires HasMultiName(fs)
    ensures GenList(List(fs), false) == GenList(List(fs), true)
  {
  }

  /** genList fails exactly when typeString fails on one of the types, and its
      types are the entries typeFieldList joins: each field's type once per
      name, once if unnamed. */
  lemma {:induction false} GenFieldsTypes(fs: seq<Field>, idx: nat, named: bool)
    requires named || !HasMultiName(fs)
    ensures GenFields(fs, idx, named).Success? <==> FieldTypes(fs).Success?
    ensures GenFields(fs, idx, named).Success? ==> GenFields(fs, idx, named).value.types == FieldTypes(fs).value
    decreases |fs|
  {
    if |fs| > 0 {
      if !named {
        assert !HasMultiName(fs[1..]) by {
          forall i | 0 <= i < |fs[1..]| ensures |fs[1..][i].names| <= 1 {
            assert fs[1..][i] == fs[i + 1];
          }
        }
        assert |fs[0].names| <= 1;
      }
      var f := fs[0];
      assert f.typ < f;
      GenFieldsTypes(fs[1..], idx + 1, named);
    }
  }

  lemma GenListTypes(fs: seq<Field>, addNames: bool)
    ensures GenList(List(fs), addNames).Success? <==> TypeFieldList(List(fs), false).Success?
    ensures GenList(List(fs), addNames).Success? ==>
      GenList(List(fs), addNames).value.types == FieldTypes(fs).value
  {
    GenFieldsTypes(fs, 0, addNames || HasMultiName(fs));
  }

  /** With naming on, every param is its name, a space and its type. */
  lemma {:induction false} NamedParamsJoin(fs: seq<Field>, idx: nat)
    requires GenFields(fs, idx, true).Success?
    ensures var p := GenFields(fs, idx, true).value;
      forall k :: 0 <= k < |p.params| ==> p.params[k] == p.names[k] + " " + p.types[k]
    decreases |fs|
  {
    if |fs| > 0 {
      NamedParamsJoin(fs[1..], idx + 1);
      var p := GenFields(fs, idx, true).value;
      var ts := TypeString(fs[0].typ).value;
      var head := FieldEntries(fs[0], idx, ts, true);
      var more := GenFields(fs[1..], idx + 1, true).value;
      assert p == Append(head, more);
      AppendJoined(head, more);
    }
  }

  /** Appending two lists whose params are `name type` gives one whose params are too. */
  lemma AppendJoined(a: ParamList, b: ParamList)
    requires Aligned(a) && Aligned(b)
    requires forall k :: 0 <= k < |a.params| ==> a.params[k] == a.names[k] + " " + a.types[k]
    requires forall k :: 0 <= k < |b.params| ==> b.params[k] == b.names[k] + " " + b.types[k]
    ensures var c := Append(a, b);
      forall k :: 0 <= k < |c.params| ==> c.params[k] == c.names[k] + " " + c.types[k]
  {
    var c := Append(a, b);
    forall k | 0 <= k < |c.params| ensures c.params[k] == c.names[k] + " " + c.types[k] {
      if k >= |a.params| {
        var m := k - |a.params|;
        assert c.params[k] == b.params[m] && c.names[k] == b.names[m] && c.types[k] == b.types[m];
      }
    }
  }

  /** With naming off, every name is empty and every param is just its type. */
  lemma {:induction false} UnnamedParamsAreTypes(fs: seq<Field>, idx: nat)
    requires GenFields(fs, idx, false).Success?
    ensures var p := GenFields(fs, idx, false).value;
      p.params == p.types && forall k :: 0 <= k < |p.names| ==> p.names[k] == ""
    decreases |fs|
  {
    if |fs| > 0 {
      UnnamedParamsAreTypes(fs[1..], idx + 1);
      var p := GenFields(fs, idx, false).value;
      var more := GenFields(fs[1..], idx + 1, false).value;
      forall k | 0 <= k < |p.names| ensures p.names[k] == "" {
        if k >= 1 {
          assert p.names[k] == more.names[k - 1];
        }
      }
    }
  }

  /** The names given in the list, in order. */
  function DeclaredNames(fs: seq<Field>): seq<string>
  {
    if |fs| == 0 then [] else fs[0].names + DeclaredNames(fs[1..])
  }

  /** A list whose fields all carry names keeps exactly those names, in order. */
  lemma {:induction false} NamedListKeepsNames(fs: seq<Field>, idx: nat)
    requires forall i :: 0 <= i < |fs| ==> |fs[i].names| > 0
    requires GenFields(fs, idx, true).Success?
    ensures GenFields(fs, idx, true).value.names == DeclaredNames(fs)
    decreases |fs|
  {
    if |fs| > 0 {
      NamedListKeepsNames(fs[1..], idx + 1);
    }
  }

  /** A named list whose fields all lack names gets the placeholders
      `_a<idx>` numbered by field position. */
  lemma {:induction false} UnnamedListGetsPlaceholders(fs: seq<Field>, idx: nat)
    requires forall i :: 0 <= i < |fs| ==> |fs[i].names| == 0
    requires GenFields(fs, idx, true).Success?
    ensures var names := GenFields(fs, idx, true).value.names;
      |names| == |fs| && forall k :: 0 <= k < |fs| ==> names[k] == Placeholder(idx + k)
    decreases |fs|
  {
    if |fs| > 0 {
      UnnamedListGetsPlaceholders(fs[1..], idx + 1);
      var names := GenFields(fs, idx, true).value.names;
      var more := GenFields(fs[1..], idx + 1, true).value.names;
      assert names == [Placeholder(idx)] + more;
      forall k | 1 <= k < |fs| ensures names[k] == Placeholder(idx + k) {
        assert names[k] == more[k - 1];
      }
    }
  }

  /** Placeholders of different fields differ, so the invented names never clash. */
  lemma PlaceholdersDistinct(i: nat, j: nat)
    requires i != j
    ensures Placeholder(i) != Placeholder(j)
  {
    if Placeholder(i) == Placeholder(j) {
      assert Placeholder(i)[2..] == NatToString(i);
      assert Placeholder(j)[2..] == NatToString(j);
      NatToStringInjective(i, j);
    }
  }
}
