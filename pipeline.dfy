/** The extraction loop of app.py:42-125 and the result shaping of
    app.py:131-155. The loop walks the matched `<IVRScripts>` blocks one by
    one, appending to the five result lists and counting the definitions it
    parsed; a block that fails to parse adds one failure row and the loop
    goes on with the next block. */
module Pipeline {
  import opened Strings
  import opened Tree
  import opened Rows
  import opened Sanitize
  import opened Blocks
  import opened Extract
  import opened Tabulate

  /** What `ET.fromstring` gives: a tree, or the `ParseError` it raises
      with the text of `str(e)`. */
  datatype ParseResult = Parsed(root: Element) | ParseError(message: string)

  /** The two library calls the pipeline depends on and the model leaves
      uninterpreted: the XML parser and `html.unescape`. */
  datatype XmlLib = XmlLib(fromString: string -> ParseResult, unescape: string -> string)

  /** "Script Name" of the failure row of a block that is not well-formed. */
  const OuterFailureName: string := "Unknown (outer parse failed)"

  /** `script.findtext("Name", default="").strip()` (app.py:52). */
  function ScriptName(script: Element): string {
    Strip(FindText(script, "Name"))
  }

  /** "Script Name" of the failure row of a definition that does not parse:
      the script name, or "Unknown" when it is empty (app.py:66). */
  function InnerFailureName(name: string): (r: string)
    ensures r != ""
    ensures name != "" ==> r == name
  {
    if name == "" then "Unknown" else name
  }

  /** The embedded definition as it is handed to the parser (app.py:59-61):
      entity-decoded, bare '&' re-escaped, NUL deleted. */
  function Decode(lib: XmlLib, xmlDef: string): (r: string)
    ensures Guarded(r) && '\0' !in r
  {
    Sanitize.Sanitize(lib.unescape(xmlDef))
  }

  /** The block parses, has a non-empty `XMLDefinition`, and the decoded
      definition parses too: the case in which `parsed_count` goes up. */
  predicate DefinitionParses(lib: XmlLib, block: string) {
    lib.fromString(block).Parsed?
    && FindText(lib.fromString(block).root, "XMLDefinition") != ""
    && lib.fromString(Decode(lib, FindText(lib.fromString(block).root, "XMLDefinition"))).Parsed?
  }

  /** One of the two parses of the block fails: the block is reported. */
  predicate BlockFails(lib: XmlLib, block: string) {
    lib.fromString(block).ParseError?
    || (FindText(lib.fromString(block).root, "XMLDefinition") != ""
        && lib.fromString(Decode(lib, FindText(lib.fromString(block).root, "XMLDefinition"))).ParseError?)
  }

  /** What the definition text of a well-formed block adds (app.py:52-67):
      nothing when it is empty; a failure row when the repaired text does
      not parse; otherwise the rows of its modules. */
  function DefinitionRows(lib: XmlLib, name: string, xmlDef: string): Tables {
    if xmlDef == "" then NoRows
    else
      match lib.fromString(Decode(lib, xmlDef))
      case ParseError(msg) => NoRows.(failedScripts := [FailureRow(InnerFailureName(name), msg)])
      case Parsed(root) => RootRows(name, root)
  }

  /** Everything one block adds to the accumulators (app.py:43-67). */
  function BlockRows(lib: XmlLib, block: string): Tables {
    match lib.fromString(block)
    case ParseError(msg) => NoRows.(failedScripts := [FailureRow(OuterFailureName, msg)])
    case Parsed(script) => DefinitionRows(lib, ScriptName(script), FindText(script, "XMLDefinition"))
  }

  /** Failure isolation within one block: a block is reported exactly when
      one of its parses fails, it is never both reported and counted, and
      only a counted block contributes extracted rows. A block that is
      neither (its definition is empty) contributes nothing at all. */
  lemma BlockOutcome(lib: XmlLib, block: string)
    ensures |BlockRows(lib, block).failedScripts| == (if BlockFails(lib, block) then 1 else 0)
    ensures !(DefinitionParses(lib, block) && BlockFails(lib, block))
    ensures !DefinitionParses(lib, block) ==> BlockRows(lib, block).NoExtractedRows()
    ensures lib.fromString(block).Parsed? && FindText(lib.fromString(block).root, "XMLDefinition") == ""
            ==> BlockRows(lib, block) == NoRows
    ensures DefinitionParses(lib, block) || BlockFails(lib, block) || BlockRows(lib, block) == NoRows
  {
  }

  /** The failure row of a block: an outer failure carries the fixed name,
      an inner one the script's name or "Unknown", both the parser's
      message. */
  lemma BlockFailureRow(lib: XmlLib, block: string)
    requires BlockFails(lib, block)
    ensures lib.fromString(block).ParseError? ==>
              BlockRows(lib, block).failedScripts
                == [FailureRow(OuterFailureName, lib.fromString(block).message)]
    ensures lib.fromString(block).Parsed? ==>
              var script := lib.fromString(block).root;
              BlockRows(lib, block).failedScripts
                == [FailureRow(InnerFailureName(ScriptName(script)),
                               lib.fromString(Decode(lib, FindText(script, "XMLDefinition"))).message)]
  {
  }

  /** The rows of a counted block are those of its definition's `modules`,
      under the block's stripped script name. */
  lemma BlockExtractedRows(lib: XmlLib, block: string)
    requires DefinitionParses(lib, block)
    ensures var script := lib.fromString(block).root;
            var root := lib.fromString(Decode(lib, FindText(script, "XMLDefinition"))).root;
            BlockRows(lib, block) == RootRows(ScriptName(script), root)
  {
  }

  /** The accumulators after the blocks `bs`, one after the other. */
  function Run(lib: XmlLib, bs: seq<string>): (t: Tables)
    decreases |bs|
  {
    if bs == [] then NoRows
    else Run(lib, bs[..|bs| - 1]).Append(BlockRows(lib, bs[|bs| - 1]))
  }

  /** Failure isolation: what a run over `a + b` produces is what `a`
      produces followed by what `b` produces on its own, so no block, failed
      or not, changes what the blocks after it contribute. */
  lemma {:induction false} RunSplit(lib: XmlLib, a: seq<string>, b: seq<string>)
    ensures Run(lib, a + b) == Run(lib, a).Append(Run(lib, b))
    decreases |b|
  {
    if b == [] {
      assert a + b == a;
      AppendNoRows(Run(lib, a));
    } else {
      var init := b[..|b| - 1];
      RunSplit(lib, a, init);
      assert (a + b)[..|a + b| - 1] == a + init;
      assert (a + b)[|a + b| - 1] == b[|b| - 1];
      AppendAssoc(Run(lib, a), Run(lib, init), BlockRows(lib, b[|b| - 1]));
    }
  }

  /** A run over one block is that block's own contribution. */
  lemma RunSingle(lib: XmlLib, b: string)
    ensures Run(lib, [b]) == BlockRows(lib, b)
  {
    assert [b][..0] == [];
    AppendNoRows(BlockRows(lib, b));
  }

  /** `parsed_count` after the blocks `bs`: the number of them whose
      definition parsed. */
  function CountParsed(lib: XmlLib, bs: seq<string>): nat
    decreases |bs|
  {
    if bs == [] then 0
    else CountParsed(lib, bs[..|bs| - 1]) + (if DefinitionParses(lib, bs[|bs| - 1]) then 1 else 0)
  }

  /** `parsed_count` plus the number of failures never exceeds the number of
      blocks. */
  lemma {:induction false} RunBound(lib: XmlLib, bs: seq<string>)
    ensures CountParsed(lib, bs) + |Run(lib, bs).failedScripts| <= |bs|
    decreases |bs|
  {
    if bs != [] {
      RunBound(lib, bs[..|bs| - 1]);
      BlockOutcome(lib, bs[|bs| - 1]);
    }
  }

  /** Counting over `a + b` is counting over `a`, then over `b`. */
  lemma {:induction false} CountParsedSplit(lib: XmlLib, a: seq<string>, b: seq<string>)
    ensures CountParsed(lib, a + b) == CountParsed(lib, a) + CountParsed(lib, b)
    decreases |b|
  {
    if b == [] {
      assert a + b == a;
    } else {
      var init := b[..|b| - 1];
      assert (a + b)[..|a + b| - 1] == a + init;
      assert (a + b)[|a + b| - 1] == b[|b| - 1];
      CountParsedSplit(lib, a, init);
    }
  }

  /** One `variableName` element (app.py:80-101): a present, non-empty name
      is appended to the call-variable list when it contains '.', with the
      text before the first '.' as its group, and to the variable list
      otherwise. */
  method ExtractVariable(scriptName: string, moduleName: string, tag: string,
                         varElem: Element, t: Tables) returns (u: Tables)
    ensures u == t.Append(VarElementRows(scriptName, moduleName, tag, varElem))
  {
    var varName := varElem.text;
    if varName.Some? && varName.value != "" {
      var v := varName.value;
      if '.' in v {
        var row := VarRow(scriptName, moduleName, v, tag, CallVariable, v[..FirstDot(v)]);
        assert VarElementRows(scriptName, moduleName, tag, varElem) == NoRows.(callVarRows := [row]);
        u := t.(callVarRows := t.callVarRows + [row]);
      } else {
        var row := VarRow(scriptName, moduleName, v, tag, Variable, "");
        assert VarElementRows(scriptName, moduleName, tag, varElem) == NoRows.(varRows := [row]);
        u := t.(varRows := t.varRows + [row]);
      }
    } else {
      u := t;
      AppendNoRows(t);
    }
  }

  /** The loop over the `variableName` elements of one module
      (app.py:79-101), each handled as above, in order. */
  method ExtractVariables(scriptName: string, moduleName: string, tag: string,
                          varElems: seq<Element>, t: Tables) returns (u: Tables)
    ensures u == t.Append(VarRows(scriptName, moduleName, tag, varElems))
  {
    u := t;
    for k := 0 to |varElems|
      invariant u == t.Append(VarRows(scriptName, moduleName, tag, varElems[..k]))
    {
      assert varElems[..k + 1][..k] == varElems[..k];
      AppendAssoc(t, VarRows(scriptName, moduleName, tag, varElems[..k]),
                  VarElementRows(scriptName, moduleName, tag, varElems[k]));
      u := ExtractVariable(scriptName, moduleName, tag, varElems[k], u);
    }
    assert varElems[..|varElems|] == varElems;
  }

  /** The loop over the skill `name` elements of a `skillTransfer` module
      (app.py:108-114): each present, non-empty text is appended stripped. */
  method ExtractSkills(scriptName: string, moduleName: string, names: seq<Element>,
                       t: Tables) returns (u: Tables)
    ensures u == t.Append(SkillRows(scriptName, moduleName, names))
  {
    u := t;
    for k := 0 to |names|
      invariant u == t.Append(SkillRows(scriptName, moduleName, names[..k]))
    {
      assert names[..k + 1][..k] == names[..k];
      AppendAssoc(t, SkillRows(scriptName, moduleName, names[..k]),
                  SkillElementRows(scriptName, moduleName, names[k]));
      var text := names[k].text;
      if text.Some? && text.value != "" {
        u := u.(skillRows := u.skillRows + [SkillRow(scriptName, Strip(text.value), moduleName)]);
      } else {
        AppendNoRows(u);
      }
    }
    assert names[..|names|] == names;
  }

  /** The loop over the `prompt` elements of one module (app.py:118-125):
      the stripped text of each prompt's first `name` child, when present and
      non-empty, is appended. */
  method ExtractPrompts(scriptName: string, moduleName: string, prompts: seq<Element>,
                        t: Tables) returns (u: Tables)
    ensures u == t.Append(PromptRows(scriptName, moduleName, prompts))
  {
    u := t;
    for k := 0 to |prompts|
      invariant u == t.Append(PromptRows(scriptName, moduleName, prompts[..k]))
    {
      assert prompts[..k + 1][..k] == prompts[..k];
      AppendAssoc(t, PromptRows(scriptName, moduleName, prompts[..k]),
                  PromptElementRows(scriptName, moduleName, prompts[k]));
      var nameTag := Find(prompts[k], "name");
      if nameTag.Some? && nameTag.value.text.Some? && nameTag.value.text.value != "" {
        u := u.(promptRows := u.promptRows
                  + [PromptRow(scriptName, Strip(nameTag.value.text.value), moduleName)]);
      } else {
        AppendNoRows(u);
      }
    }
    assert prompts[..|prompts|] == prompts;
  }

  /** The rows of one module, appended to the accumulators in the source's
      order (app.py:73-125): variables, then skills for a `skillTransfer`
      module, then prompts. */
  method ExtractModule(scriptName: string, m: Element, t: Tables) returns (u: Tables)
    ensures u == t.Append(ModuleRows(scriptName, m))
  {
    var moduleName := FindText(m, "moduleName");
    ghost var vars := VarRows(scriptName, moduleName, m.tag, FindAll(m, "variableName"));
    ghost var skills := if m.tag == "skillTransfer"
                        then SkillRows(scriptName, moduleName, SkillNameElements(m)) else NoRows;
    u := ExtractVariables(scriptName, moduleName, m.tag, FindAll(m, "variableName"), t);
    if m.tag == "skillTransfer" {
      u := ExtractSkills(scriptName, moduleName, SkillNameElements(m), u);
    } else {
      AppendNoRows(u);
    }
    u := ExtractPrompts(scriptName, moduleName, FindAll(m, "prompt"), u);
    AppendAssoc(t, vars, skills);
    AppendAssoc(t, vars.Append(skills), PromptRows(scriptName, moduleName, FindAll(m, "prompt")));
  }

  /** The rows of every child of `modules`, in order (app.py:72). */
  method ExtractModules(scriptName: string, ms: seq<Element>, t: Tables) returns (u: Tables)
    ensures u == t.Append(ModulesRows(scriptName, ms))
  {
    u := t;
    for j := 0 to |ms|
      invariant u == t.Append(ModulesRows(scriptName, ms[..j]))
    {
      assert ms[..j + 1][..j] == ms[..j];
      AppendAssoc(t, ModulesRows(scriptName, ms[..j]), ModuleRows(scriptName, ms[j]));
      u := ExtractModule(scriptName, ms[j], u);
    }
    assert ms[..|ms|] == ms;
  }

  /** The definition part of one iteration (app.py:52-125): skip an empty
      definition; decode and repair it and parse it; on a parse error append
      a failure row, else count it and extract its modules. */
  method ExtractDefinition(lib: XmlLib, name: string, xmlDef: string, t: Tables, count: nat)
    returns (u: Tables, count': nat)
    ensures u == t.Append(DefinitionRows(lib, name, xmlDef))
    ensures count' == count + (if xmlDef != "" && lib.fromString(Decode(lib, xmlDef)).Parsed? then 1 else 0)
  {
    if xmlDef == "" {
      AppendNoRows(t);
      return t, count;
    }
    var decoded := lib.unescape(xmlDef);
    decoded := ReEscape(decoded);
    decoded := RemoveNul(decoded);
    assert decoded == Decode(lib, xmlDef);
    match lib.fromString(decoded) {
      case ParseError(msg) =>
        var row := FailureRow(InnerFailureName(name), msg);
        assert DefinitionRows(lib, name, xmlDef) == NoRows.(failedScripts := [row]);
        u := t.(failedScripts := t.failedScripts + [row]);
        count' := count;
        AppendNoRows(t);
      case Parsed(ivrRoot) =>
        assert DefinitionRows(lib, name, xmlDef) == RootRows(name, ivrRoot);
        count' := count + 1;
        match Find(ivrRoot, "modules") {
          case Some(modules) =>
            u := ExtractModules(name, modules.children, t);
          case None =>
            u := t;
            AppendNoRows(t);
        }
    }
  }

  /** One iteration of the loop over the blocks (app.py:43-125): a block
      that does not parse appends one failure row; otherwise its stripped
      name and its definition are read and the definition is processed. */
  method ExtractBlock(lib: XmlLib, block: string, t: Tables, count: nat)
    returns (u: Tables, count': nat)
    ensures u == t.Append(BlockRows(lib, block))
    ensures count' == count + (if DefinitionParses(lib, block) then 1 else 0)
  {
    match lib.fromString(block) {
      case ParseError(msg) =>
        u := t.(failedScripts := t.failedScripts + [FailureRow(OuterFailureName, msg)]);
        count' := count;
      case Parsed(script) =>
        var name := ScriptName(script);
        var xmlDef := FindText(script, "XMLDefinition");
        u, count' := ExtractDefinition(lib, name, xmlDef, t, count);
    }
  }

  /** The loop over the blocks (app.py:43-125): the accumulators end as the
      run over all of them, and `parsed_count` as the number of blocks whose
      definition parsed. */
  method ExtractBlocks(lib: XmlLib, blocks: seq<string>) returns (t: Tables, parsedCount: nat)
    ensures t == Run(lib, blocks)
    ensures parsedCount == CountParsed(lib, blocks)
  {
    t, parsedCount := NoRows, 0;
    for i := 0 to |blocks|
      invariant t == Run(lib, blocks[..i])
      invariant parsedCount == CountParsed(lib, blocks[..i])
    {
      assert blocks[..i + 1][..i] == blocks[..i];
      t, parsedCount := ExtractBlock(lib, blocks[i], t, parsedCount);
    }
    assert blocks[..|blocks|] == blocks;
  }

  /** The whole extraction of one export (app.py:32-125): the blocks the
      scanner finds, processed in order; no more successes and failures are
      counted than there are blocks. */
  method ExtractAll(lib: XmlLib, raw: string) returns (t: Tables, parsedCount: nat)
    ensures t == Run(lib, FindBlocks(raw))
    ensures parsedCount == CountParsed(lib, FindBlocks(raw))
    ensures parsedCount + |t.failedScripts| <= |FindBlocks(raw)|
  {
    var matches := FindBlocks(raw);
    t, parsedCount := ExtractBlocks(lib, matches);
    RunBound(lib, matches);
  }

  /** The four tables the tool shows and exports (app.py:131, 139, 147,
      155), and the failure list and counter as they are. */
  datatype Report = Report(callVariables: seq<VarRow>, variables: seq<VarRow>,
                           skills: seq<SkillRow>, prompts: seq<PromptRow>,
                           failures: seq<FailureRow>, parsedCount: nat)

  function VarKey(r: VarRow): Key { (r.scriptName, r.variableName) }
  function SkillKey(r: SkillRow): Key { (r.scriptName, r.skillName) }
  function PromptKey(r: PromptRow): Key { (r.scriptName, r.promptName) }

  /** Each row list without duplicate rows and sorted by (script name, item
      name), rows with equal keys in the order they were first collected;
      the failures keep their order and duplicates. */
  function Shape(t: Tables, parsedCount: nat): (r: Report)
    ensures Sorted(r.callVariables, VarKey) && NoDuplicates(r.callVariables)
    ensures forall x :: x in r.callVariables <==> x in t.callVarRows
    ensures Sorted(r.variables, VarKey) && NoDuplicates(r.variables)
    ensures forall x :: x in r.variables <==> x in t.varRows
    ensures Sorted(r.skills, SkillKey) && NoDuplicates(r.skills)
    ensures forall x :: x in r.skills <==> x in t.skillRows
    ensures Sorted(r.prompts, PromptKey) && NoDuplicates(r.prompts)
    ensures forall x :: x in r.prompts <==> x in t.promptRows
    ensures r.failures == t.failedScripts && r.parsedCount == parsedCount
    ensures TiesInOrder(r.callVariables, t.callVarRows, VarKey)
    ensures TiesInOrder(r.variables, t.varRows, VarKey)
    ensures TiesInOrder(r.skills, t.skillRows, SkillKey)
    ensures TiesInOrder(r.prompts, t.promptRows, PromptKey)
  {
    DedupSortStable(t.callVarRows, VarKey);
    DedupSortStable(t.varRows, VarKey);
    DedupSortStable(t.skillRows, SkillKey);
    DedupSortStable(t.promptRows, PromptKey);
    Report(DedupSort(t.callVarRows, VarKey), DedupSort(t.varRows, VarKey),
           DedupSort(t.skillRows, SkillKey), DedupSort(t.promptRows, PromptKey),
           t.failedScripts, parsedCount)
  }
}
