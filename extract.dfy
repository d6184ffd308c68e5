/** The per-module extraction of app.py:70-125 as functions of the parsed
    tree: variable references and their classification, skill names of
    skill-transfer modules, and prompt names. Each fold builds the rows of a
    sequence of elements left to right, in the order the source's loops
    append them. */
module Extract {
  import opened Strings
  import opened Tree
  import opened Rows

  /** The row of one variable name (app.py:85-101). A name containing '.' is
      a call variable whose group is the text before the first '.'; any other
      name is a plain variable with an empty group. The name itself is kept
      as written, untrimmed. */
  function Classify(scriptName: string, moduleName: string, variableName: string,
                    sourceModule: string): (r: VarRow)
    ensures r.scriptName == scriptName && r.moduleName == moduleName
    ensures r.variableName == variableName && r.sourceModule == sourceModule
    ensures r.kind == CallVariable <==> '.' in variableName
    ensures r.kind == CallVariable ==>
              |r.group| < |variableName| && '.' !in r.group
              && r.group + "." + variableName[|r.group| + 1..] == variableName
    ensures r.kind == Variable ==> r.group == ""
  {
    if '.' in variableName then
      var k := FirstDot(variableName);
      assert variableName[..k] + "." + variableName[k + 1..] == variableName;
      VarRow(scriptName, moduleName, variableName, sourceModule, CallVariable, variableName[..k])
    else
      VarRow(scriptName, moduleName, variableName, sourceModule, Variable, "")
  }

  /** What one `variableName` element adds (app.py:79-101): nothing when its
      text is missing or empty, else one row in exactly one of the two
      variable lists. */
  function VarElementRows(scriptName: string, moduleName: string, sourceModule: string,
                          e: Element): (t: Tables)
    ensures t.skillRows == [] && t.promptRows == [] && t.failedScripts == []
    ensures |t.callVarRows| + |t.varRows| == if Truthy(e.text) then 1 else 0
  {
    if !Truthy(e.text) then NoRows
    else
      var row := Classify(scriptName, moduleName, e.text.value, sourceModule);
      if row.kind == CallVariable then NoRows.(callVarRows := [row])
      else NoRows.(varRows := [row])
  }

  /** The rows of a sequence of `variableName` elements, in order. */
  function VarRows(scriptName: string, moduleName: string, sourceModule: string,
                   es: seq<Element>): (t: Tables)
    ensures t.skillRows == [] && t.promptRows == [] && t.failedScripts == []
    ensures |t.callVarRows| + |t.varRows| <= |es|
    decreases |es|
  {
    if es == [] then NoRows
    else VarRows(scriptName, moduleName, sourceModule, es[..|es| - 1])
           .Append(VarElementRows(scriptName, moduleName, sourceModule, es[|es| - 1]))
  }

  /** The call-variable rows are exactly the classified names of the elements
      with a non-empty text containing '.', and the variable rows exactly
      those of the elements with a non-empty text without '.'; so each name
      lands in one list and only there. */
  lemma {:induction false} VarRowsMembers(scriptName: string, moduleName: string,
                                          sourceModule: string, es: seq<Element>)
    ensures forall r :: r in VarRows(scriptName, moduleName, sourceModule, es).callVarRows <==>
              exists e :: e in es && Truthy(e.text) && '.' in e.text.value
                          && r == Classify(scriptName, moduleName, e.text.value, sourceModule)
    ensures forall r :: r in VarRows(scriptName, moduleName, sourceModule, es).varRows <==>
              exists e :: e in es && Truthy(e.text) && '.' !in e.text.value
                          && r == Classify(scriptName, moduleName, e.text.value, sourceModule)
    decreases |es|
  {
    if es != [] {
      var init := es[..|es| - 1];
      assert es == init + [es[|es| - 1]];
      assert forall e :: e in es <==> e in init || e == es[|es| - 1];
      VarRowsMembers(scriptName, moduleName, sourceModule, init);
    }
  }

  /** What one `name` element reached by the skill path adds
      (app.py:108-114): a row holding its stripped text when the text is
      present and non-empty. */
  function SkillElementRows(scriptName: string, moduleName: string, n: Element): (t: Tables)
    ensures t.callVarRows == [] && t.varRows == [] && t.promptRows == []
    ensures t.failedScripts == []
    ensures |t.skillRows| == if Truthy(n.text) then 1 else 0
  {
    if Truthy(n.text) then NoRows.(skillRows := [SkillRow(scriptName, Strip(n.text.value), moduleName)])
    else NoRows
  }

  function SkillRows(scriptName: string, moduleName: string, ns: seq<Element>): (t: Tables)
    ensures t.callVarRows == [] && t.varRows == [] && t.promptRows == []
    ensures t.failedScripts == []
    ensures |t.skillRows| <= |ns|
    decreases |ns|
  {
    if ns == [] then NoRows
    else SkillRows(scriptName, moduleName, ns[..|ns| - 1])
           .Append(SkillElementRows(scriptName, moduleName, ns[|ns| - 1]))
  }

  lemma {:induction false} SkillRowsMembers(scriptName: string, moduleName: string, ns: seq<Element>)
    ensures forall r :: r in SkillRows(scriptName, moduleName, ns).skillRows <==>
              exists n :: n in ns && Truthy(n.text)
                          && r == SkillRow(scriptName, Strip(n.text.value), moduleName)
    decreases |ns|
  {
    if ns != [] {
      var init := ns[..|ns| - 1];
      assert ns == init + [ns[|ns| - 1]];
      assert forall n :: n in ns <==> n in init || n == ns[|ns| - 1];
      SkillRowsMembers(scriptName, moduleName, init);
    }
  }

  /** The `name` child a `prompt` element is read through, when it exists and
      has a non-empty text (app.py:119-120). */
  predicate HasPromptName(p: Element) {
    Find(p, "name").Some? && Truthy(Find(p, "name").value.text)
  }

  /** What one `prompt` element adds (app.py:119-125): a row holding the
      stripped text of its `name` child, when that child has a non-empty
      text. */
  function PromptElementRows(scriptName: string, moduleName: string, p: Element): (t: Tables)
    ensures t.callVarRows == [] && t.varRows == [] && t.skillRows == []
    ensures t.failedScripts == []
    ensures |t.promptRows| == if HasPromptName(p) then 1 else 0
  {
    match Find(p, "name")
    case None => NoRows
    case Some(n) =>
      if Truthy(n.text) then NoRows.(promptRows := [PromptRow(scriptName, Strip(n.text.value), moduleName)])
      else NoRows
  }

  function PromptRows(scriptName: string, moduleName: string, ps: seq<Element>): (t: Tables)
    ensures t.callVarRows == [] && t.varRows == [] && t.skillRows == []
    ensures t.failedScripts == []
    ensures |t.promptRows| <= |ps|
    decreases |ps|
  {
    if ps == [] then NoRows
    else PromptRows(scriptName, moduleName, ps[..|ps| - 1])
           .Append(PromptElementRows(scriptName, moduleName, ps[|ps| - 1]))
  }

  lemma {:induction false} PromptRowsMembers(scriptName: string, moduleName: string, ps: seq<Element>)
    ensures forall r :: r in PromptRows(scriptName, moduleName, ps).promptRows <==>
              exists p :: p in ps && HasPromptName(p)
                          && r == PromptRow(scriptName, Strip(Find(p, "name").value.text.value), moduleName)
    decreases |ps|
  {
    if ps != [] {
      var init := ps[..|ps| - 1];
      assert ps == init + [ps[|ps| - 1]];
      assert forall p :: p in ps <==> p in init || p == ps[|ps| - 1];
      PromptRowsMembers(scriptName, moduleName, init);
    }
  }

  /** Everything one module adds (app.py:73-125), in the source's order:
      its variable rows, then its skill rows, which only a module tagged
      `skillTransfer` has, then its prompt rows, whatever its tag. */
  function ModuleRows(scriptName: string, m: Element): (t: Tables)
    ensures t.failedScripts == []
    ensures m.tag != "skillTransfer" ==> t.skillRows == []
  {
    var moduleName := FindText(m, "moduleName");
    var vars := VarRows(scriptName, moduleName, m.tag, FindAll(m, "variableName"));
    var skills := if m.tag == "skillTransfer"
                  then SkillRows(scriptName, moduleName, SkillNameElements(m)) else NoRows;
    var prompts := PromptRows(scriptName, moduleName, FindAll(m, "prompt"));
    vars.Append(skills).Append(prompts)
  }

  /** The variable rows of one module: one per `variableName` element below
      it whose text is present and non-empty, classified by '.', carrying the
      script name, the module's `moduleName` text and its tag. */
  lemma ModuleVarRows(scriptName: string, m: Element)
    ensures forall r :: r in ModuleRows(scriptName, m).callVarRows <==>
              exists e :: e in FindAll(m, "variableName") && Truthy(e.text) && '.' in e.text.value
                          && r == Classify(scriptName, FindText(m, "moduleName"), e.text.value, m.tag)
    ensures forall r :: r in ModuleRows(scriptName, m).varRows <==>
              exists e :: e in FindAll(m, "variableName") && Truthy(e.text) && '.' !in e.text.value
                          && r == Classify(scriptName, FindText(m, "moduleName"), e.text.value, m.tag)
  {
    VarRowsMembers(scriptName, FindText(m, "moduleName"), m.tag, FindAll(m, "variableName"));
  }

  /** The skill rows of one module: none unless its tag is `skillTransfer`,
      and then one per `listOfSkillsEx/extrnalObj/name` element below it
      whose text is present and non-empty, holding that text stripped. */
  lemma ModuleSkillRows(scriptName: string, m: Element)
    ensures forall r :: r in ModuleRows(scriptName, m).skillRows <==>
              m.tag == "skillTransfer"
              && exists n :: n in SkillNameElements(m) && Truthy(n.text)
                             && r == SkillRow(scriptName, Strip(n.text.value), FindText(m, "moduleName"))
  {
    SkillRowsMembers(scriptName, FindText(m, "moduleName"), SkillNameElements(m));
  }

  /** The prompt rows of one module, whatever its tag: one per `prompt`
      element below it whose first `name` child has a non-empty text,
      holding that text stripped. */
  lemma ModulePromptRows(scriptName: string, m: Element)
    ensures forall r :: r in ModuleRows(scriptName, m).promptRows <==>
              exists p :: p in FindAll(m, "prompt") && HasPromptName(p)
                          && r == PromptRow(scriptName, Strip(Find(p, "name").value.text.value),
                                            FindText(m, "moduleName"))
  {
    PromptRowsMembers(scriptName, FindText(m, "moduleName"), FindAll(m, "prompt"));
  }

  /** The rows of the direct children of `modules`, module after module
      (app.py:72). */
  function ModulesRows(scriptName: string, ms: seq<Element>): (t: Tables)
    ensures t.failedScripts == []
    decreases |ms|
  {
    if ms == [] then NoRows
    else ModulesRows(scriptName, ms[..|ms| - 1]).Append(ModuleRows(scriptName, ms[|ms| - 1]))
  }

  /** A variable row of either list comes from one of the modules, and
      every variable row of every module is kept. */
  lemma {:induction false} ModulesVarRowsMembers(scriptName: string, ms: seq<Element>)
    ensures forall r :: r in ModulesRows(scriptName, ms).callVarRows <==>
              exists m :: m in ms && r in ModuleRows(scriptName, m).callVarRows
    ensures forall r :: r in ModulesRows(scriptName, ms).varRows <==>
              exists m :: m in ms && r in ModuleRows(scriptName, m).varRows
    decreases |ms|
  {
    if ms != [] {
      var init := ms[..|ms| - 1];
      assert ms == init + [ms[|ms| - 1]];
      assert forall m :: m in ms <==> m in init || m == ms[|ms| - 1];
      ModulesVarRowsMembers(scriptName, init);
    }
  }

  /** Likewise for the skill and prompt rows. */
  lemma {:induction false} ModulesNameRowsMembers(scriptName: string, ms: seq<Element>)
    ensures forall r :: r in ModulesRows(scriptName, ms).skillRows <==>
              exists m :: m in ms && r in ModuleRows(scriptName, m).skillRows
    ensures forall r :: r in ModulesRows(scriptName, ms).promptRows <==>
              exists m :: m in ms && r in ModuleRows(scriptName, m).promptRows
    decreases |ms|
  {
    if ms != [] {
      var init := ms[..|ms| - 1];
      assert ms == init + [ms[|ms| - 1]];
      assert forall m :: m in ms <==> m in init || m == ms[|ms| - 1];
      ModulesNameRowsMembers(scriptName, init);
    }
  }

  /** The rows of a parsed script definition (app.py:70-72): those of the
      children of its first direct `modules` child, and none when it has no
      such child. */
  function RootRows(scriptName: string, root: Element): (t: Tables)
    ensures t.failedScripts == []
    ensures Find(root, "modules").None? ==> t == NoRows
  {
    match Find(root, "modules")
    case None => NoRows
    case Some(ms) => ModulesRows(scriptName, ms.children)
  }
}
