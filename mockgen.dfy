/** `MockedObject` of mock/fileWriter.go: the generator's state for one
    mocked file. Each exported function adds a mock function and its
    fixture struct, each struct or interface declaration is copied, and
    the import block is computed last from the qualifiers collected. */
module MockGen {
  import opened GoStrings
  import opened TypePrinter
  import opened ParamLists
  import opened Qualifiers
  import opened FixtureStructs
  import opened MockFunctions
  import opened ImportBlocks

  /** The parts of an `*ast.FuncDecl` the generator reads. */
  datatype FuncDecl = FuncDecl(name: string, recv: FieldList, params: FieldList, results: FieldList)

  /** GenerateFuncCode runs to the end: genList succeeds on the receiver,
      the params and the results, every qualifier can be stripped, and every
      param has a nonempty second word. Otherwise Go panics. In particular
      every type of the declaration is one typeString can print. */
  predicate FuncCodeDefined(d: FuncDecl)
    ensures FuncCodeDefined(d) ==> ListPrintable(d.recv) && ListPrintable(d.params) && ListPrintable(d.results)
  {
    GenList(d.recv, true).Success? && GenList(d.params, true).Success? && GenList(d.results, false).Success? &&
    QualifiersDefined(GenList(d.params, true).value.types) &&
    QualifiersDefined(GenList(d.results, false).value.types) &&
    forall i :: 0 <= i < |GenList(d.params, true).value.params| ==> WellSplit(GenList(d.params, true).value.params[i])
  }

  /** The receiver's `name type` when the declaration is a method. */
  function Receiver(d: FuncDecl): Option<string>
    requires GenList(d.recv, true).Success?
  {
    var r := GenList(d.recv, true).value;
    if |r.names| > 0 then Some(r.params[0]) else None
  }

  /** The type block GenerateStructCode and GenerateInterfaceCode copy the
      declaration's body lines into. */
  function TypeBlock(keyword: string, name: string, body: seq<string>): string
  {
    TypeHead(keyword, name) + Join(body, "\n") + TypeTail
  }

  function TypeHead(keyword: string, name: string): string { "type " + name + " " + keyword + " { \n " }
  const TypeTail := " \n } \n"

  /** The declaration's lines can be read back from the type block: between
      its head and its tail sit the lines, one per `\n`-separated piece. */
  lemma TypeBlockKeepsLines(keyword: string, name: string, body: seq<string>)
    requires |body| >= 1
    requires forall k :: 0 <= k < |body| ==> '\n' !in body[k]
    ensures var b := TypeBlock(keyword, name, body);
      var h := TypeHead(keyword, name);
      |h| + |TypeTail| <= |b| && b[..|h|] == h && b[|b| - |TypeTail|..] == TypeTail &&
      Split(b[|h|..|b| - |TypeTail|], '\n') == body
  {
    var b := TypeBlock(keyword, name, body);
    var h := TypeHead(keyword, name);
    var j := Join(body, ['\n']);
    assert b == h + j + TypeTail;
    assert b[|h|..|b| - |TypeTail|] == j;
    SplitJoin(body, '\n');
  }

  /** The slice `lines[startLine : endLine-1]` is in range. */
  predicate SliceInRange(lines: seq<string>, startLine: int, endLine: int)
  {
    0 <= startLine <= endLine - 1 <= |lines|
  }

  class MockedObject {
    var reflectNum: nat
    var toImport: set<string>
    var fileName: string
    var importDecls: string
    var interfaceDecls: string
    var structDecls: string
    var functionDecls: string

    /** InitMockedObject. */
    constructor (fileName: string)
      ensures this.fileName == fileName && toImport == {} && reflectNum == 0
      ensures importDecls == "" && interfaceDecls == "" && structDecls == "" && functionDecls == ""
    {
      this.fileName := fileName;
      toImport := {};
      reflectNum := 0;
      importDecls := "";
      interfaceDecls := "";
      structDecls := "";
      functionDecls := "";
    }

    /** GenerateFuncCode: collect the qualifiers, count the DeepEqual
        comparisons, append the mock function and its fixture struct. */
    method GenerateFuncCode(decl: FuncDecl) returns (ok: bool)
      modifies this
      ensures ok == FuncCodeDefined(decl)
      ensures !ok ==> unchanged(this)
      ensures ok ==>
        var ps := GenList(decl.params, true).value;
        var rts := GenList(decl.results, false).value.types;
        toImport == old(toImport) + QualifierSet(ps.types) + QualifierSet(rts) &&
        reflectNum == old(reflectNum) + DeepCount(ps.params) &&
        structDecls == old(structDecls) + "\n" + RenderFixture(FixtureOf(decl.name + "Struct", ps.params, rts)) &&
        functionDecls == old(functionDecls) + "\n" + FuncText(Receiver(decl), decl.name, ps.params, rts)
      ensures fileName == old(fileName) && importDecls == old(importDecls) && interfaceDecls == old(interfaceDecls)
    {
      ok := FuncCodeDefined(decl);
      if !ok {
        return;
      }
      var recv := GenList(decl.recv, true).value;
      var ps := GenList(decl.params, true).value;
      var rs := GenList(decl.results, false).value;
      ghost var kept := (fileName, importDecls, interfaceDecls);
      AddQualifiers(ps.types);
      AddQualifiers(rs.types);
      assert (fileName, importDecls, interfaceDecls) == kept;
      EmitFunction(decl.name, recv.names, recv.params, ps.params, rs.types);
      assert (fileName, importDecls, interfaceDecls) == kept;
      EmitStruct(decl.name, ps.params, rs.types);
    }

    /** The mock function's text, appended to functionDecls. */
    method EmitFunction(name: string, objectName: seq<string>, recvParams: seq<string>,
                        params: seq<string>, returntypes: seq<string>)
      modifies this`reflectNum, this`functionDecls
      requires |objectName| <= |recvParams|
      requires forall i :: 0 <= i < |params| ==> WellSplit(params[i])
      ensures reflectNum == old(reflectNum) + DeepCount(params)
      ensures functionDecls == old(functionDecls) + "\n" +
        FuncText(if |objectName| > 0 then Some(recvParams[0]) else None, name, params, returntypes)
    {
      var toWrite := WriteFuncCode(objectName, recvParams, name, params, returntypes);
      functionDecls := functionDecls + "\n" + toWrite;
    }

    /** The fixture struct `<name>Struct`, appended to structDecls. */
    method EmitStruct(name: string, params: seq<string>, returntypes: seq<string>)
      modifies this`structDecls
      requires forall i :: 0 <= i < |params| ==> WellSplit(params[i])
      ensures structDecls == old(structDecls) + "\n" + RenderFixture(FixtureOf(name + "Struct", params, returntypes))
    {
      var toWriteStruct := GenerateFunctionStruct(name + "Struct", params, returntypes);
      structDecls := structDecls + "\n" + toWriteStruct;
    }

    /** The text of the mock function, built as GenerateFuncCode builds it;
        the `result` loop also counts the DeepEqual comparisons. */
    method WriteFuncCode(objectName: seq<string>, recvParams: seq<string>, name: string,
                         params: seq<string>, returntypes: seq<string>) returns (toWrite: string)
      modifies this`reflectNum
      requires |objectName| <= |recvParams|
      requires forall i :: 0 <= i < |params| ==> WellSplit(params[i])
      ensures toWrite == FuncText(if |objectName| > 0 then Some(recvParams[0]) else None, name, params, returntypes)
      ensures reflectNum == old(reflectNum) + DeepCount(params)
    {
      toWrite := "func";
      if |objectName| > 0 {
        toWrite := toWrite + RecvPart(recvParams[0]);
      }
      toWrite := toWrite + Signature(name, params, returntypes);
      toWrite := toWrite + JsonLoad(name);

      toWrite := AppendVarDecls(toWrite, returntypes);
      toWrite := toWrite + LoopOpen;
      var result := MatchConditionCode(params);
      toWrite := toWrite + ResultLine(result);
      toWrite := toWrite + IfOpen;
      toWrite := AppendWriteBacks(toWrite, params);
      toWrite := AppendReturnAssigns(toWrite, |returntypes|);
      toWrite := toWrite + BodyClose;
      var returnVars := ReturnVarsCode(|returntypes|);
      toWrite := toWrite + ReturnStmt(returnVars);
      toWrite := toWrite + FuncClose;
    }

    /** One loop of GenerateFuncCode over param or result types: the
        qualifier of each type with a `.` joins toImport. */
    method AddQualifiers(types: seq<string>)
      modifies this`toImport
      requires QualifiersDefined(types)
      ensures toImport == old(toImport) + QualifierSet(types)
    {
      for i := 0 to |types|
        invariant QualifiersDefined(types[..i])
        invariant toImport == old(toImport) + QualifierSet(types[..i])
      {
        QualifierStep(types, i);
        if '.' in types[i] {
          var imp := Split(types[i], '.');
          var str := StripSpecialCharsInPrefix(imp[0]);
          assert str == Qualifier(types[i]);
          toImport := toImport + {str};
        }
      }
      assert types[..|types|] == types;
    }

    /** The `result` loop of GenerateFuncCode: one comparison per param,
        counting those that need reflect.DeepEqual. */
    method MatchConditionCode(params: seq<string>) returns (result: string)
      modifies this`reflectNum
      requires forall i :: 0 <= i < |params| ==> WellSplit(params[i])
      ensures result == MatchCondition(params)
      ensures reflectNum == old(reflectNum) + DeepCount(params)
    {
      result := "";
      for i := 0 to |params|
        invariant result == MatchCondition(params[..i])
        invariant reflectNum == old(reflectNum) + DeepCount(params[..i])
      {
        ConditionStep(params, i);
        if i > 0 {
          result := result + " && ";
        }
        var param := Split(params[i], ' ');
        assert WellSplit(params[i]);
        var isBuiltin := param[1] in BuiltinTypes;
        if isBuiltin {
          result := result + ClauseText(Comparison(param[0], Title(param[0]), false));
        } else {
          result := result + ClauseText(Comparison(param[0], Title(param[0]), true));
          reflectNum := reflectNum + 1;
        }
      }
      assert params[..|params|] == params;
    }

    /** GenerateImportCode: the qualifiers are visited in Go's map order,
        which the model leaves open; `order` is the order taken. */
    method GenerateImportCode(importArr: seq<ImportSpec>) returns (ghost order: seq<string>)
      modifies this
      ensures Enumerates(order, toImport)
      ensures importDecls == ImportBlock(reflectNum > 0, order, importArr)
      ensures reflectNum == old(reflectNum) && toImport == old(toImport) && fileName == old(fileName)
      ensures interfaceDecls == old(interfaceDecls) && structDecls == old(structDecls)
      ensures functionDecls == old(functionDecls)
    {
      var toWrite := Prelude;
      if reflectNum > 0 {
        toWrite := toWrite + ReflectLine;
      }
      assert toWrite == Prelude + (if reflectNum > 0 then ReflectLine else "");
      toWrite, order := AppendQualifierLines(toWrite, toImport, importArr);
      if |toWrite| > 0 {
        toWrite := toWrite + BlockClose;
      }
      importDecls := toWrite;
    }

    /** GenerateStructCode: the declaration's lines `lines[startLine : endLine-1]`
        become a struct type, when there are any. */
    method GenerateStructCode(name: string, lines: seq<string>, startLine: int, endLine: int) returns (ok: bool)
      modifies this
      ensures ok == SliceInRange(lines, startLine, endLine)
      ensures ok ==> (structDecls == old(structDecls) +
        (if startLine < endLine - 1 then TypeBlock("struct", name, lines[startLine..endLine - 1]) else ""))
      ensures !ok ==> structDecls == old(structDecls)
      ensures reflectNum == old(reflectNum) && toImport == old(toImport) && fileName == old(fileName)
      ensures importDecls == old(importDecls) && interfaceDecls == old(interfaceDecls)
      ensures functionDecls == old(functionDecls)
    {
      ok := SliceInRange(lines, startLine, endLine);
      if !ok {
        return;
      }
      var toWrite := lines[startLine..endLine - 1];
      if |toWrite| > 0 {
        structDecls := structDecls + TypeBlock("struct", name, toWrite);
      }
    }

    /** GenerateInterfaceCode: as GenerateStructCode, into an interface type. */
    method GenerateInterfaceCode(name: string, lines: seq<string>, startLine: int, endLine: int) returns (ok: bool)
      modifies this
      ensures ok == SliceInRange(lines, startLine, endLine)
      ensures ok ==> (interfaceDecls == old(interfaceDecls) +
        (if startLine < endLine - 1 then TypeBlock("interface", name, lines[startLine..endLine - 1]) else ""))
      ensures !ok ==> interfaceDecls == old(interfaceDecls)
      ensures reflectNum == old(reflectNum) && toImport == old(toImport) && fileName == old(fileName)
      ensures importDecls == old(importDecls) && structDecls == old(structDecls)
      ensures functionDecls == old(functionDecls)
    {
      ok := SliceInRange(lines, startLine, endLine);
      if !ok {
        return;
      }
      var toWrite := lines[startLine..endLine - 1];
      if |toWrite| > 0 {
        interfaceDecls := interfaceDecls + TypeBlock("interface", name, toWrite);
      }
    }
  }

  // ---------------------------------------------------------------------------
  // The qualifier loop of GenerateImportCode

  /** The outer loop of GenerateImportCode: the qualifiers are taken in
      some order, Go's map order, and each writes its import lines. */
  method AppendQualifierLines(text: string, qualifiers: set<string>, importArr: seq<ImportSpec>)
    returns (toWrite: string, ghost order: seq<string>)
    ensures Enumerates(order, qualifiers)
    ensures toWrite == text + Concat(EmittedLines(order, importArr))
  {
    toWrite := text;
    order := [];
    var left := qualifiers;
    while left != {}
      invariant left <= qualifiers
      invariant multiset(order) + multiset(left) == multiset(qualifiers)
      invariant toWrite == text + Concat(EmittedLines(order, importArr))
      decreases left
    {
      var importUsed :| importUsed in left;
      toWrite := AppendImportLines(toWrite, importUsed, importArr);
      EmittedStep(order, importUsed, importArr);
      Regroup3(text, Concat(EmittedLines(order, importArr)), Concat(LinesFor(importUsed, importArr)));
      order := order + [importUsed];
      left := left - {importUsed};
    }
  }

  lemma EmittedStep(order: seq<string>, q: string, imps: seq<ImportSpec>)
    ensures Concat(EmittedLines(order + [q], imps)) == Concat(EmittedLines(order, imps)) + Concat(LinesFor(q, imps))
  {
    assert (order + [q])[..|order|] == order;
    ConcatAppend(EmittedLines(order, imps), LinesFor(q, imps));
  }
}
