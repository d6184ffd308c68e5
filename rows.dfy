/** The row records app.py collects (one dictionary per row in the source)
    and the five result lists, kept together. */
module Rows {

  /** The "Type" column of a variable row: "Call Variable" or "Variable". */
  datatype VarKind = CallVariable | Variable

  /** Columns "Script Name", "Module Name", "Variable Name", "Source Module",
      "Type" and "Group". */
  datatype VarRow = VarRow(scriptName: string, moduleName: string, variableName: string,
                           sourceModule: string, kind: VarKind, group: string)

  /** Columns "Script Name", "Skill Name", "Module Name". */
  datatype SkillRow = SkillRow(scriptName: string, skillName: string, moduleName: string)

  /** Columns "Script Name", "Prompt Name", "Module Name". */
  datatype PromptRow = PromptRow(scriptName: string, promptName: string, moduleName: string)

  /** Columns "Script Name", "Error". */
  datatype FailureRow = FailureRow(scriptName: string, error: string)

  /** `call_var_rows`, `var_rows`, `skill_rows`, `prompt_rows` and
      `failed_scripts`. */
  datatype Tables = Tables(callVarRows: seq<VarRow>, varRows: seq<VarRow>,
                           skillRows: seq<SkillRow>, promptRows: seq<PromptRow>,
                           failedScripts: seq<FailureRow>)
  {
    /** Appending every list of `other` to this one: what happens to the
        accumulators when the rows of `other` are produced after those of
        `this`. */
    function Append(other: Tables): (r: Tables)
      ensures |r.failedScripts| == |failedScripts| + |other.failedScripts|
    {
      Tables(callVarRows + other.callVarRows, varRows + other.varRows,
             skillRows + other.skillRows, promptRows + other.promptRows,
             failedScripts + other.failedScripts)
    }

    /** No list of extracted rows holds a row; failures may be present. */
    predicate NoExtractedRows() {
      callVarRows == [] && varRows == [] && skillRows == [] && promptRows == []
    }
  }

  /** The accumulators as app.py:35-39 initialises them. */
  const NoRows := Tables([], [], [], [], [])

  lemma AppendAssoc(a: Tables, b: Tables, c: Tables)
    ensures a.Append(b).Append(c) == a.Append(b.Append(c))
  {
    assert a.callVarRows + b.callVarRows + c.callVarRows == a.callVarRows + (b.callVarRows + c.callVarRows);
  }

  lemma AppendNoRows(a: Tables)
    ensures a.Append(NoRows) == a && NoRows.Append(a) == a
  {
    assert a.callVarRows + [] == a.callVarRows;
    assert a.varRows + [] == a.varRows;
    assert a.skillRows + [] == a.skillRows;
    assert a.promptRows + [] == a.promptRows;
    assert a.failedScripts + [] == a.failedScripts;
  }
}
