# IVR script audit: extraction pipeline model

The tool reads an export of IVR scripts. It finds every
`<IVRScripts>…</IVRScripts>` block in the text and reads each block's
script name and embedded `XMLDefinition`. It decodes and repairs that
definition and parses it as XML. From every module under the definition's
`modules` element it collects four lists of rows:

- call variables (names with a `.`, grouped by the text before the first `.`);
- plain variables;
- skill names, from `skillTransfer` modules only;
- prompt names.

A block that fails to parse is recorded in a list of failures, and the
tool goes on with the next block. It counts the definitions it parsed. For
display and export, each of the four row lists has its duplicates dropped
and is sorted by (script name, item name).

The model has these modules:

- `Strings`: Python's `str.strip` and the first-dot split.
- `Sanitize`: the ampersand re-escape and NUL removal applied to a decoded definition.
- `Blocks`: the non-greedy `<IVRScripts>` scanner.
- `Tree`: the element tree and the ElementTree queries the tool uses (`find`, `findtext`, `findall(".//x")` and the three-step skill path).
- `Rows`: the row records and the accumulator record `Tables` (the five lists; the counter is kept beside it, as in the source).
- `Extract`: the per-module extraction as functions.
- `Tabulate`: drop-duplicates-then-sort.
- `Pipeline`: the block loop as imperative methods, each proved equal to a fold function (`Run`, `ModulesRows`, `VarRows`, …). The properties are proved about those functions.

The XML parser (`ET.fromstring`) and `html.unescape` are parameters of the
model: the fields of `Pipeline.XmlLib`. Nothing is assumed about them. A
parse either yields an `Element` tree or a `ParseError` with an opaque
message.

Where the source's behaviour is the reference, the model follows app.py:

- An empty or missing `XMLDefinition` is skipped silently. It adds no failure row and does not change the counter.
- Variable names are kept as written and are not trimmed. Skill and prompt names are stripped.
- A failed block's "Script Name" is `Unknown (outer parse failed)` when the block itself does not parse. When the definition does not parse, it is the stripped script name, or `Unknown` when that is empty.
- The only character repair beyond the re-escape is deleting NUL. No byte-order mark, XML declaration or other control character is removed.
- There is no placeholder name such as "Script N" for unnamed scripts.
- No flow graph is built.

## Model

| member | source | states |
|---|---|---|
| Blocks.IndexOf | app.py:32 | the result is the first occurrence of the pattern at or after the start position, or none when it does not occur there |
| Blocks.NextSpan | app.py:32 | one non-greedy search: the span starts at the first opening tag after the start position that has a closing tag after it and ends at the first such closing tag; no opening tag is skipped before it; none means no match starts any more |
| Blocks.Spans | app.py:32 | all matches, each a well-formed match starting after the previous one ends, so the matches never overlap |
| Blocks.SpansAreSearches | app.py:32 | the list of matches is exactly the chain of leftmost searches, each resuming where the previous match ended, until a search finds nothing |
| Blocks.SpansExhaustive | app.py:32 | the scan skips no opening tag before or between matches, and no match exists after the last one |
| Blocks.MatchIsBlock | app.py:32 | every matched substring begins with `<IVRScripts>`, ends with `</IVRScripts>` and contains no closing tag in between |
| Blocks.NoOpenNoBlocks | app.py:32 | a text with no opening tag yields no block |
| Blocks.FindBlocks | app.py:32 | `re.findall` returns one substring per match, in order, each equal to the input slice of its span and of block shape |
| Strings.Truthy | app.py:81 | the truthiness test `if not x` on an element text: present and non-empty (also app.py:109 and app.py:120); used by `Extract.VarElementRows`, `Extract.SkillElementRows` and `Extract.PromptElementRows`, whose contracts state it |
| Strings.IsSpace | app.py:52 | the characters `str.isspace()` accepts, which `strip` removes; `Strings.Strip` and its lemmas are stated in terms of it |
| Strings.TrimStart | app.py:52 | the result is a suffix of the input that does not start with whitespace, and everything removed is whitespace |
| Strings.TrimEnd | app.py:52 | the result is a prefix of the input that does not end with whitespace, and everything removed is whitespace |
| Strings.Strip | app.py:52 | `str.strip()`: the result is the infix left after removing only whitespace from both ends, and it is empty or has non-space characters at both ends |
| Strings.StripFixed | app.py:112 | stripping changes a text exactly when it starts or ends with whitespace |
| Strings.StripIdempotent | app.py:123 | stripping twice is stripping once |
| Strings.FirstDot | app.py:94 | the index of the first `.` of a name that has one |
| Sanitize.ReEscape | app.py:60 | the output is at least as long as the input and at most five times as long |
| Sanitize.ReEscapeIsImages | app.py:60 | the output is the in-order concatenation of each input character's image: a bare `&` becomes `&amp;`, and any other character, an `&` that already begins an entity included, stays as it is |
| Sanitize.ReEscapeGuarded | app.py:60 | after the re-escape every `&` is followed by `amp;`, `lt;`, `gt;`, `quot;` or `apos;` |
| Sanitize.ReEscapeFixed | app.py:60 | the re-escape leaves a text unchanged exactly when every `&` in it already begins one of the five entities |
| Sanitize.ReEscapeIdempotent | app.py:60 | applying the re-escape twice gives the same text as applying it once |
| Sanitize.RemoveNul | app.py:61 | the output holds no NUL and is no longer than the input |
| Sanitize.RemoveNulAppend | app.py:61 | NUL removal distributes over concatenation, so the kept characters keep their order |
| Sanitize.RemoveNulCounts | app.py:61 | every non-NUL character occurs as often in the output as in the input, and NUL never |
| Sanitize.RemoveNulFixed | app.py:61 | NUL removal leaves a text unchanged exactly when it holds no NUL |
| Sanitize.RemoveNulGuarded | app.py:60-61 | deleting NULs keeps every `&` followed by an entity |
| Sanitize.Sanitize | app.py:60-61 | the repaired definition holds no NUL, and every `&` in it begins one of the five entities |
| Sanitize.SanitizeIdempotent | app.py:60-61 | repairing an already repaired definition changes nothing |
| Tree.Descendants | app.py:79 | every element strictly below an element, in document order: the search space of `.//`. `Tree.ChildIsDescendant` and `Tree.DescendantsTransitive` show it holds everything below; `Tree.ForestBelow` and `Tree.NotOwnDescendant` show it holds nothing else and never the element itself |
| Tree.ChildIsDescendant | app.py:79 | every direct child is among the descendants |
| Tree.DescendantsTransitive | app.py:79 | a descendant of a descendant is a descendant |
| Tree.ForestBelow | app.py:79 | every element of a list of sibling trees with their descendants is one of those trees or lies below one |
| Tree.NotOwnDescendant | app.py:79 | no element is among its own descendants, so `.//` never yields the context element |
| Tree.Tagged | app.py:119 | the elements kept are exactly those of the input with the given tag |
| Tree.FindAll | app.py:79 | `findall(".//tag")` holds exactly the descendants that carry the tag, and never the element itself, even when its own tag matches |
| Tree.Find | app.py:70 | `find(tag)` gives the first direct child with the tag, and none exactly when no child has it |
| Tree.FindText | app.py:53 | `findtext(tag, default="")` gives the first such child's text, or "" when the child is missing or has no text |
| Tree.ChildStep | app.py:107 | one child step of an ElementPath path over a list of context elements, in order; `Tree.ChildStepMembers` characterises what it holds |
| Tree.ChildStepMembers | app.py:107 | one child step of a path holds exactly the children with the tag of the context elements |
| Tree.SkillNameElements | app.py:107 | the three-step path `.//listOfSkillsEx/extrnalObj/name`; `Tree.SkillNameElementsMembers` characterises what it holds |
| Tree.SkillNameElementsMembers | app.py:107 | `findall(".//listOfSkillsEx/extrnalObj/name")` holds exactly the `name` children of `extrnalObj` children of `listOfSkillsEx` descendants |
| Extract.Classify | app.py:85-101 | a name is a Call Variable exactly when it contains `.`; then its group holds no `.` and group + "." + rest rebuilds the name; otherwise its group is ""; the name itself is kept untrimmed |
| Extract.VarElementRows | app.py:79-101 | a variable element adds exactly one row to one of the two variable lists when its text is present and non-empty, and none otherwise |
| Extract.VarRowsMembers | app.py:79-101 | the call-variable rows are exactly the classified non-empty names with a `.`, and the variable rows exactly those without one, so each name lands in exactly one list |
| Extract.VarRows | app.py:79-101 | the variable loop's rows are no more than its elements, and it touches no other list and adds no failure |
| Extract.SkillElementRows | app.py:108-114 | a skill name element adds one skill row exactly when its text is present and non-empty |
| Extract.SkillRowsMembers | app.py:108-114 | the skill rows are exactly the stripped non-empty texts of the given name elements |
| Extract.SkillRows | app.py:108-114 | the skill loop adds at most one row per name element and touches no other list and adds no failure |
| Extract.PromptElementRows | app.py:118-125 | a prompt adds one prompt row exactly when its first direct `name` child exists and has non-empty text |
| Extract.PromptRowsMembers | app.py:118-125 | the prompt rows are exactly the stripped `name` texts of the prompts that have one |
| Extract.PromptRows | app.py:118-125 | the prompt loop adds at most one row per prompt and touches no other list and adds no failure |
| Extract.ModuleRows | app.py:73-125 | a module adds no failure, and a module with a tag other than `skillTransfer` adds no skill row |
| Extract.ModuleVarRows | app.py:73-101 | each of a module's variable rows comes from a non-empty `variableName` below it, classified by `.`, and carries the module's `moduleName` text and its tag; every such element gives a row |
| Extract.ModuleSkillRows | app.py:105-114 | a module has skill rows only if its tag is `skillTransfer`; then each skill row comes from a non-empty name on the skill path, stripped, and every such name gives a row |
| Extract.ModulePromptRows | app.py:118-125 | each of a module's prompt rows comes from a `prompt` below it with a non-empty `name` child, stripped, and every such prompt gives a row, whatever the module's tag |
| Extract.ModulesRows | app.py:72 | the module loop adds no failure |
| Extract.ModulesVarRowsMembers | app.py:72 | each call-variable and variable row from `modules` comes from one of its direct children, and every such row of every child is kept |
| Extract.ModulesNameRowsMembers | app.py:72 | each skill and prompt row from `modules` comes from one of its direct children, and every such row of every child is kept |
| Extract.RootRows | app.py:69-72 | a definition root without a direct `modules` child contributes nothing |
| Rows.Tables.Append | app.py:35-40 | appending accumulators puts the failures of both together, none lost |
| Rows.AppendAssoc | app.py:42 | appending accumulators is associative |
| Rows.AppendNoRows | app.py:35-40 | the initial, empty accumulators are neutral for appending |
| Pipeline.ScriptName | app.py:52 | the block's `Name` text stripped, "" when missing; the name every row and inner failure of the block carries (`Pipeline.BlockExtractedRows`, `Pipeline.BlockFailureRow`) |
| Pipeline.InnerFailureName | app.py:66 | the failure name of a definition that does not parse is never empty, and it is the script name when that is not empty |
| Pipeline.Decode | app.py:59-61 | the text handed to the inner parse is free of NUL, and every `&` in it begins an entity |
| Pipeline.DefinitionParses | app.py:62-63 | the condition under which `parsed_count` goes up: the block parses, its definition is non-empty, and the decoded definition parses; `Pipeline.BlockOutcome` and `Pipeline.ExtractBlock` relate it to the rows and the counter |
| Pipeline.BlockFails | app.py:46-48 | the condition under which a failure row is added: the outer parse fails, or the definition is non-empty and its inner parse fails (also app.py:64-67); `Pipeline.BlockOutcome` states it |
| Pipeline.DefinitionRows | app.py:53-72 | what a well-formed block's definition adds: nothing when empty, one failure row when it does not parse, else the rows of its `modules`; characterised by `Pipeline.BlockOutcome`, `Pipeline.BlockFailureRow` and `Pipeline.BlockExtractedRows` |
| Pipeline.BlockRows | app.py:43-67 | everything one block adds to the five lists; characterised by `Pipeline.BlockOutcome`, `Pipeline.BlockFailureRow` and `Pipeline.BlockExtractedRows`, and `Pipeline.ExtractBlock` is proved to append exactly it |
| Pipeline.BlockOutcome | app.py:42-67 | a block is reported exactly when one of its parses fails, and never both reported and counted; an uncounted block adds no rows, and a block neither counted nor reported (an empty definition) adds nothing |
| Pipeline.BlockFailureRow | app.py:46-67 | the one failure row carries the fixed outer name, or the script name or "Unknown" for an inner failure, with the parser's message |
| Pipeline.BlockExtractedRows | app.py:62-72 | a counted block adds exactly the rows of its definition's `modules`, under its stripped script name |
| Pipeline.Run | app.py:42-125 | the five lists after a sequence of blocks, each block's contribution after those of the blocks before it; `Pipeline.RunSplit` and `Pipeline.RunSingle` characterise it and `Pipeline.ExtractBlocks` is proved to end with it |
| Pipeline.CountParsed | app.py:40 | `parsed_count` after a sequence of blocks: how many of them satisfy `Pipeline.DefinitionParses`; `Pipeline.CountParsedSplit` and `Pipeline.RunBound` state its properties and `Pipeline.ExtractBlocks` is proved to end with it |
| Pipeline.RunBound | app.py:42-67 | the counter plus the number of failures never exceeds the number of blocks |
| Pipeline.RunSplit | app.py:42-67 | the result over `a + b` is the result over `a` followed by the result over `b`, so a failing block does not change what the following blocks contribute |
| Pipeline.RunSingle | app.py:43-125 | running over one block gives that block's own contribution |
| Pipeline.CountParsedSplit | app.py:63 | counting the parsed definitions over `a + b` is the count over `a` plus the count over `b` |
| Pipeline.ExtractVariable | app.py:80-101 | one variable element appends exactly its own row, to the list its name's `.` selects, or nothing |
| Pipeline.ExtractVariables | app.py:79-101 | the variable loop appends exactly the rows of the variable fold |
| Pipeline.ExtractSkills | app.py:107-114 | the skill loop appends exactly the rows of the skill fold |
| Pipeline.ExtractPrompts | app.py:118-125 | the prompt loop appends exactly the rows of the prompt fold |
| Pipeline.ExtractModule | app.py:73-125 | one module appends its variable rows, then its skill rows if it is a skill transfer, then its prompt rows |
| Pipeline.ExtractModules | app.py:70-72 | the module loop appends the rows of every child of `modules`, in order |
| Pipeline.ExtractDefinition | app.py:53-72 | the definition step skips an empty definition; otherwise it decodes, repairs and parses it, then appends a failure row, or increments the counter and extracts its modules |
| Pipeline.ExtractBlock | app.py:43-125 | one iteration appends exactly the block's own contribution, and increments the counter exactly when the block's definition parsed |
| Pipeline.ExtractBlocks | app.py:42-125 | the block loop ends with the run over all blocks, and with the counter equal to the number of blocks whose definition parsed |
| Pipeline.ExtractAll | app.py:32-125 | the accumulators equal the run over the scanned blocks; the counter is the number of parsed definitions, and it plus the failures is at most the number of blocks |
| Tabulate.StrLe | app.py:131 | Python's `<=` on `str`: code point by code point, a proper prefix first; `Tabulate.StrLeTotal`, `Tabulate.StrLeTrans` and `Tabulate.StrLeAntisym` show it is a total order |
| Tabulate.StrLeTotal | app.py:131 | Python's string order is total |
| Tabulate.StrLeTrans | app.py:131 | Python's string order is transitive |
| Tabulate.StrLeAntisym | app.py:131 | Python's string order is antisymmetric |
| Tabulate.KeyLeTotal | app.py:131 | the (script name, item name) order is total |
| Tabulate.KeyLeTrans | app.py:131 | the (script name, item name) order is transitive |
| Tabulate.InsertPos | app.py:131 | the place a new row goes: after the leading rows whose key is at most its own, and in a sorted list before only rows with a strictly greater key, so it is placed after the rows with an equal key |
| Tabulate.Insert | app.py:131 | inserting into a sorted list keeps it sorted and adds exactly that one row |
| Tabulate.DedupSort | app.py:131 | drop-duplicates-then-sort gives a list sorted by key, with no row twice, holding exactly the input's rows |
| Tabulate.TiesInOrder | app.py:131 | rows with equal keys appear in the order of their first occurrences in the input; `Tabulate.DedupSortStable` proves it of `Tabulate.DedupSort` |
| Tabulate.InsertTiesInOrder | app.py:131 | inserting a row first seen after all rows of the sorted list keeps equal-key rows in first-occurrence order |
| Tabulate.DedupSortStable | app.py:131 | pandas' two-column sort is stable and `drop_duplicates` keeps first occurrences, so rows with equal keys come out in the order they first occur in the input; with `Tabulate.DedupSort`'s contract this fixes the result |
| Pipeline.Shape | app.py:131-155 | each of the four tables is sorted by (script name, item name), holds no duplicate, has exactly the rows collected and keeps rows with equal keys in the order first collected; failures and the counter are passed through unchanged |

## Left out

- The Streamlit front end is not modelled: page setup, upload, headings, tables, download buttons and summary messages (app.py:1-25, 127-169).
- Decoding the upload as UTF-8 (app.py:29) is left out. The model starts from the decoded text.
- `html.unescape` (app.py:59) is an uninterpreted parameter. It is driven by the full HTML5 entity table, and no property is assumed about it.
- `ET.fromstring` (app.py:45, 62) is an uninterpreted parameter. XML parsing itself is not modelled. The text of `str(e)` is an opaque message.
- Element attributes and tails are not modelled. The pipeline never reads them.
- Pipeline.Shape: does not model the DataFrame column layout or the empty-table message. It gives the row lists the tables show and export.
