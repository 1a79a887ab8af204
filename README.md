# keepStat ETL — a Dafny model of the master fact-table pipeline

`superset/data/keepStat_etl.py` reads the KEEP project database and builds `master`. This is one wide fact table keyed by `project_id` that the statistics dashboards read. This project models the part of that script that works on rows:

- **Source cleaning.**
  - Programmes are kept only when flagged `use_for_statistics`.
  - Zero project dates become null.
  - Thematic-objective and investment-priority codes are normalised to a zero-padded form.
- **Entity-attribute-value resolution.** `extractThematic` and `extractProgramType` turn the Drupal `field_data_field_*` tables into project/thematic and programme/type pairs.
- **The nine projections.** There is one projection per attribute: thematic, partner/NUTS, period, programme id, programme name, programme type, objectives, start/end and budget.
- **Building `master`.**
  - The projections are outer-merged on `project_id` (`merger`).
  - `drop_duplicates` is applied.
  - Repeated budgets are zeroed.
- **NUTS handling.**
  - The `nuts_0`..`nuts_2` codes are relabelled as `"[code] - Description"`.
  - Each NUTS level is looked up in the centroid table.
- **The reported width.** `varchar_max` is the declared width of the two code columns.

Tables are sequences of row datatypes. A null cell (NaN / SQL NULL) is `None`. Three kinds of exception stop a run on the modelled rows, and each is a `Result` failure (`Base.EtlError`):

- `np.max` over an empty table;
- a NUTS code that is missing from `name_map_dic` or whose description is null;
- `.str` on a labelled `nuts_0`..`nuts_2` column that holds no string at all. Pandas stores such a column as floats, and the `.str` accessor refuses it.

The modules follow the script's structure:

| Module | Contents |
|---|---|
| `Base` | `Option` and `Result` |
| `Tables` | the DataFrame operations: mask, row rewrite, `drop_duplicates`, inner merge, left join |
| `Codes` | code normalisation and `varchar_max` |
| `Eav` | the two EAV extractors |
| `Facts` | the wide fact row, the outer-merge fold and the budget zeroing, in its functional form and as an in-place array pass |
| `Nuts` | labelling and centroid lookup |
| `Etl` | the sources, the nine projections, the whole run `Pipeline`, and the end-to-end properties |

The main end-to-end results are these:

- `Etl.PipelineProjects`: a successful run reports exactly the source projects, the projects with a named keyword and the projects a partner row names.
- `Etl.PipelineCodesFit`: every objective and priority written to `master` fits the `VARCHAR(varchar_max)` it is declared with.
- `Etl.PipelineFailure`: a run fails exactly when one of the two `np.max` reductions is empty, a NUTS code has no usable description, or a labelled NUTS column holds no string.
- `Facts.BudgetCountedOnce`: after zeroing, each distinct `(project_id, thematic, period, budget)` key contributes its budget exactly once to the total.
- `Codes.PriorityNormalizationIdempotent` and `Codes.ObjectiveRenormalizationCanChange`: the script normalises the codes twice (lines 243-255 and 400-411). The second pass changes nothing for priorities. It can change an objective: the nested code `((1)2)` becomes `(01)(2)` on the first pass and `(01)` on the second.
- `Codes.PaddedCodesSortNumerically` and `Codes.LongRunsMissort`: padding to two digits makes string order agree with numeric order for codes up to 99, but not for three-digit codes.

Three points where the code does something easy to misread:

- **Budget zeroing.** The comment at line 447 says "Set duplicated budget to zero". The mask on line 448 makes "duplicated" mean a repeat of the whole key `(project_id, thematic, period, budget)`. So two rows of one project that differ only in thematic both keep the budget (`Facts.DistinctThematicsKeepBudget`). Only rows that repeat the whole key are zeroed (`Facts.SharedKeyZeroed`).
- **Missing NUTS descriptions.** The lookup `name_map_dic[x]` at line 454 is a plain dictionary index, not `.get`. A code missing from the map raises `KeyError` and stops the run; it does not become null (`Nuts.Label`, error `MissingNutsName`).
- **`extractThematic`'s input.** `extractThematic` (lines 64-82) reads the global `field_data_field_keywords` at line 70 instead of its parameter. Its only call (line 296) passes that same global, so the model uses the parameter.

## Model

| member | source | states |
|---|---|---|
| Tables.Filter | superset/data/keepStat_etl.py:205 | a boolean mask keeps exactly the set of rows that satisfy it and never adds rows; multiplicity and order are stated by `FilterMultiplicity` and `FilterConcat` |
| Tables.FilterMultiplicity | superset/data/keepStat_etl.py:205 | each selected row is kept exactly as often as it occurs, and every other row is dropped |
| Tables.FilterConcat | superset/data/keepStat_etl.py:205 | masking two stacked tables is masking each in turn, so the kept rows keep their order |
| Tables.FilterSkipsPrefix | superset/data/keepStat_etl.py:205 | a leading run of rejected rows contributes nothing |
| Tables.MapRows | superset/data/keepStat_etl.py:213-214 | a column rewrite keeps the row count and rewrites row i from row i alone |
| Tables.MapRowsMembership | superset/data/keepStat_etl.py:213-214 | a rewritten table holds exactly the images of the original rows |
| Tables.MapRowsConcat | superset/data/keepStat_etl.py:213-214 | rewriting two stacked tables rewrites each in turn |
| Tables.FilterKeepsDistinct | superset/data/keepStat_etl.py:263-265 | masking a table without duplicate rows leaves it without duplicates |
| Tables.Dedup | superset/data/keepStat_etl.py:262 | `drop_duplicates` keeps every distinct row, adds none, and leaves no two equal rows |
| Tables.DedupOfDistinct | superset/data/keepStat_etl.py:386 | dropping duplicates from a duplicate-free table returns it unchanged |
| Tables.DedupIdempotent | superset/data/keepStat_etl.py:386 | a second `drop_duplicates` changes nothing |
| Tables.DropDuplicates | superset/data/keepStat_etl.py:445 | the one-pass seen-set loop computes exactly the first occurrence of each row, in order |
| Tables.Matches | superset/data/keepStat_etl.py:135 | the set of rows one left row contributes to an inner merge is exactly its emitted matching pairs; multiplicity and order are stated by `MatchesInOrder` |
| Tables.MatchesInOrder | superset/data/keepStat_etl.py:135 | a left row x yields emit(x, y) exactly once for each matching right row y, in the right table's order |
| Tables.InnerJoin | superset/data/keepStat_etl.py:351-354 | the set of rows of an inner merge is exactly the set of emitted matching (left, right) pairs; fan-out is stated by `InnerJoinConcat` and `InnerJoinOfRow` |
| Tables.InnerJoinConcat | superset/data/keepStat_etl.py:351-354 | merging stacked left tables is merging each in turn, so every left row contributes its own rows in left order |
| Tables.InnerJoinOfRow | superset/data/keepStat_etl.py:351-354 | one left row yields one output row per matching right row, in the right table's order; with `InnerJoinConcat` this fixes the output row by row |
| Tables.LeftRows | superset/data/keepStat_etl.py:79-82 | the set of rows one left row yields is its emitted matches, or itself padded with nulls exactly when nothing matches; it is never empty |
| Tables.LeftJoin | superset/data/keepStat_etl.py:79-82 | a left join is at least as long as the left table, and its set of rows is the union of the left rows' `LeftRows`; fan-out is stated by `LeftJoinConcat` and `LeftJoinOfRow` |
| Tables.LeftJoinConcat | superset/data/keepStat_etl.py:79-82 | joining stacked left tables is joining each in turn, in left order |
| Tables.LeftJoinOfRow | superset/data/keepStat_etl.py:79-82 | one left row yields one row per matching right row, in the right table's order, or exactly one null-padded row when none matches |
| Codes.LeadingDigits | superset/data/keepStat_etl.py:245 | the digit prefix of a string is all digits and is maximal |
| Codes.FirstDigitAt | superset/data/keepStat_etl.py:245 | the position found is the first digit of the string |
| Codes.FirstDigitRun | superset/data/keepStat_etl.py:245 | `str.extract('([0-9]+)')` is null iff there is no digit, else the maximal run at the first digit |
| Codes.ZFill2 | superset/data/keepStat_etl.py:246 | `zfill(2)` prepends zeros up to width two and keeps longer strings |
| Codes.ZFill2KeepsValue | superset/data/keepStat_etl.py:246 | zero-padding a digit string keeps its numeric value |
| Codes.PaddedRun | superset/data/keepStat_etl.py:245-246 | the padded run is all digits, at least two wide, with the value of the extracted run |
| Codes.StripClosedCodes | superset/data/keepStat_etl.py:247 | removing `(digits)` never lengthens the code and leaves a code with no `(` as it is; where groups go and what is kept is stated by the lemmas below |
| Codes.StripClosedKeepsPlain | superset/data/keepStat_etl.py:247 | every character other than a parenthesis or a digit survives, in order |
| Codes.StripClosedWithoutCodes | superset/data/keepStat_etl.py:247 | a code in which no `(digits)` group starts anywhere is left as it is |
| Codes.StripClosedAfterCode | superset/data/keepStat_etl.py:247 | a leading `(digits)` group is removed: stripping "(" + p + ")" + t is stripping t |
| Codes.StripClosedPassesPlainPrefix | superset/data/keepStat_etl.py:247 | text before the first `(` is kept as it is, digits included, and stripping goes on after it |
| Codes.StripClosedCodeInText | superset/data/keepStat_etl.py:247 | a `(digits)` group after other text is removed and the text on both sides kept: "x(5)y" becomes "xy" |
| Codes.StripOpenCodes | superset/data/keepStat_etl.py:254 | removing `(digits` leaves no `(`+digit behind, and leaves a code without one unchanged; where groups go and what is kept is stated by the lemmas below |
| Codes.StripOpenKeepsOthers | superset/data/keepStat_etl.py:254 | every character other than `(` or a digit survives, in order |
| Codes.StripOpenSkipsCode | superset/data/keepStat_etl.py:254 | a leading `(digits` group is removed together with the whole digit run after it, and stripping goes on with whatever follows |
| Codes.StripOpenKeepsFirst | superset/data/keepStat_etl.py:254 | a first character that starts no `(digits` group is kept, and stripping goes on after it; with `Codes.StripOpenSkipsCode` this fixes the result on every input |
| Codes.StripOpenAfterCode | superset/data/keepStat_etl.py:254 | a leading `(digits` group is removed together with the digit run that follows it, from a remainder with no further open code |
| Codes.StripOpenTwoCodes | superset/data/keepStat_etl.py:254 | with two groups, the digits between the first group's `)` and the second group survive: "(1)7(2)" becomes ")7)" |
| Codes.StripOpenPassesPrefix | superset/data/keepStat_etl.py:254 | text before the first `(` is kept as it is, digits included, and stripping goes on after it |
| Codes.StripOpenCodeInText | superset/data/keepStat_etl.py:254 | a `(digits` group after other text is removed with its digit run while the digits before it stay: "5(1" becomes "5" |
| Codes.NormalizeObjective | superset/data/keepStat_etl.py:243-248 | a null or digit-free objective becomes null; otherwise "(" + padded first run + ")" + the code without `(digits)` groups |
| Codes.NormalizePriority | superset/data/keepStat_etl.py:250-255 | a null or digit-free priority becomes null; otherwise "(" + padded first run + the code without `(digits` groups |
| Codes.ValueBound | superset/data/keepStat_etl.py:242 | a digit string of length n is worth less than 10^n |
| Codes.SameLengthLexIsNumeric | superset/data/keepStat_etl.py:242 | for digit strings of equal length, string order is numeric order |
| Codes.PaddedCodesSortNumerically | superset/data/keepStat_etl.py:242-246 | padded runs of at most two digits sort as strings exactly as their numbers do |
| Codes.LongRunsMissort | superset/data/keepStat_etl.py:242-246 | past two digits the padding no longer sorts: "100" comes before "99" as a string though 100 > 99 |
| Codes.PriorityNormalizationIdempotent | superset/data/keepStat_etl.py:407-411 | the second priority normalisation leaves every first-pass result unchanged |
| Codes.ObjectiveOfNormalized | superset/data/keepStat_etl.py:400-405 | re-normalising "(" + p + ")" + rest gives "(" + p + ")" with rest's `(digits)` groups removed |
| Codes.ObjectiveRenormalization | superset/data/keepStat_etl.py:400-405 | the second objective pass changes nothing exactly when stripping `(digits)` groups once more from the first-pass remainder changes nothing |
| Codes.ObjectiveRenormalizationCanChange | superset/data/keepStat_etl.py:400-405 | for "((1)2)" the second objective pass drops "(2)" that the first pass kept |
| Codes.VarcharMax | superset/data/keepStat_etl.py:414-417 | `np.max` fails on an empty table; otherwise it is at least every cell width (null = 1) and is attained by some row |
| Eav.ThematicProvenance | superset/data/keepStat_etl.py:64-82 | each thematic row comes from a project keyword row, carrying its term's name, or null when its tid is null or names no term |
| Eav.ThematicKeepsKeywords | superset/data/keepStat_etl.py:79-82 | every project keyword row yields a thematic row for its project |
| Eav.DropUnnamed | superset/data/keepStat_etl.py:298 | `dropna` keeps exactly the rows with a known term name |
| Eav.ThematicNamesResolved | superset/data/keepStat_etl.py:296-298 | a project carries a thematic name iff one of its keywords references a term of that name |
| Eav.ExtractThematic | superset/data/keepStat_etl.py:64-82 | `extractThematic`; its rows are stated by `Eav.ThematicProvenance` and `Eav.ThematicKeepsKeywords` |
| Eav.TermLinksSpec | superset/data/keepStat_etl.py:92-133 | a link pairs a programme row with a taxonomy-term row of the same field table sharing the term value, a null value matching a null one as the merge does |
| Eav.TermLinks | superset/data/keepStat_etl.py:92-140 | one side of `extractProgramType`; its rows are stated by `Eav.TermLinksSpec` |
| Eav.BothLinks | superset/data/keepStat_etl.py:142-143 | the merged links are exactly those both the source and the strand table yield |
| Eav.ProgramTypeIsConjunctive | superset/data/keepStat_etl.py:84-152 | a programme has a type name iff a term of that name is reached through both its source and its strand |
| Eav.ExtractProgramType | superset/data/keepStat_etl.py:84-152 | `extractProgramType`; its rows are stated by `Eav.ProgramTypeIsConjunctive` |
| Facts.OuterJoinRows | superset/data/keepStat_etl.py:175 | an outer merge holds exactly the merged matching pairs plus the unmatched rows of either side |
| Facts.LeftJoinFacts | superset/data/keepStat_etl.py:175 | the left half of an outer merge holds exactly the merged matching pairs and the rows of the left side that nothing matches |
| Facts.OuterJoinOfRow | superset/data/keepStat_etl.py:175 | merging a one-row table [x] gives x's matches, one merged row per row of the other table in x's project, or x alone when there is none; every other row follows |
| Facts.OuterJoin | superset/data/keepStat_etl.py:175 | `pd.merge(how='outer', on='project_id')`; its rows are stated by `Facts.OuterJoinRows` and its projects by `Facts.OuterJoinIds` |
| Facts.Merge | superset/data/keepStat_etl.py:175 | one merged row: the project id, and each other column from whichever side has it (the tables carry disjoint columns); used by `Facts.OuterJoinRows` |
| Facts.OuterJoinIds | superset/data/keepStat_etl.py:175 | an outer merge holds the union of the two sides' projects |
| Facts.AllIds | superset/data/keepStat_etl.py:432-442 | a project is in the union iff some table holds it |
| Facts.Merger | superset/data/keepStat_etl.py:173-176 | the left fold of outer merges over the table list; its projects are stated by `Facts.MergerIds` and its codes by `Facts.MergerCodesFit` |
| Facts.MergerIds | superset/data/keepStat_etl.py:173-176 | the folded outer merge holds exactly the projects of all input tables |
| Facts.OuterJoinCodesFit | superset/data/keepStat_etl.py:175 | an outer merge keeps every code within a bound both sides meet |
| Facts.MergerCodesFit | superset/data/keepStat_etl.py:173-176 | the folded merge keeps every code within a bound all tables meet |
| Facts.Keys | superset/data/keepStat_etl.py:448 | the keys seen are exactly the keys of the rows so far |
| Facts.ZeroRepeatedBudgets | superset/data/keepStat_etl.py:448 | zeroing keeps the row count and every column but budget, and a budget either stays or becomes 0 |
| Facts.ZeroingIsPointwise | superset/data/keepStat_etl.py:448 | row i is zeroed iff an earlier row has the same (project_id, thematic, period, budget), else kept |
| Facts.DistinctThematicsKeepBudget | superset/data/keepStat_etl.py:448 | two rows of one project differing in thematic both keep the budget |
| Facts.SharedKeyZeroed | superset/data/keepStat_etl.py:448 | of two rows with one key the second is zeroed |
| Facts.BudgetCountedOnce | superset/data/keepStat_etl.py:447-448 | after zeroing, the budgets of each key sum to that key's budget once (0 for an absent key) |
| Facts.ZeroingKeepsColumns | superset/data/keepStat_etl.py:448 | zeroing keeps the set of projects and every code bound |
| Facts.ZeroingStepInPlace | superset/data/keepStat_etl.py:448 | writing row i's zeroed value extends the zeroed prefix by one |
| Facts.ZeroRepeatedBudgetsInPlace | superset/data/keepStat_etl.py:448 | the in-place mask assignment leaves the array equal to the zeroed table of its old contents |
| Facts.FinaliseMaster | superset/data/keepStat_etl.py:444-448 | the merged table deduplicated and then budget-zeroed, as an array |
| Nuts.NameMap | superset/data/keepStat_etl.py:450 | the map's keys are exactly the nuts_ids of the table |
| Nuts.NameMapLastWins | superset/data/keepStat_etl.py:450 | a nuts_id maps to the description of its last row |
| Nuts.LowerChar | superset/data/keepStat_etl.py:454 | an upper-case ASCII letter becomes the same letter in lower case; every other character is kept |
| Nuts.UpperChar | superset/data/keepStat_etl.py:454 | a lower-case ASCII letter becomes the same letter in upper case; every other character is kept |
| Nuts.Lower | superset/data/keepStat_etl.py:454 | `lower()` keeps the length, leaves no upper-case letter, and each character is the input's up to ASCII case |
| Nuts.Capitalize | superset/data/keepStat_etl.py:454 | `capitalize()` keeps the length, the first letter is not lower case, the rest are not upper case, and each character is the input's up to ASCII case |
| Nuts.CapitalizeIgnoresLower | superset/data/keepStat_etl.py:454 | `d.lower().capitalize()` equals `d.capitalize()` |
| Nuts.Label | superset/data/keepStat_etl.py:452-454 | null or "nan" stays null; a code missing from the map or with a null description stops the run with that error; otherwise the label is "[" + code + "] - " + the description lower-cased and capitalized |
| Nuts.PySlice | superset/data/keepStat_etl.py:461 | `str.slice` is the ordinary slice within bounds, runs to the end when the stop is past it, and is empty when the start is at or past the end or the stop |
| Nuts.SliceRecoversCode | superset/data/keepStat_etl.py:461-468 | slicing a label at 1..1+|code| gives the code back |
| Nuts.LabelColumn | superset/data/keepStat_etl.py:453-455 | a column is labelled cell by cell, or fails with the first failing cell's error; success iff every cell labels |
| Nuts.LabelNuts | superset/data/keepStat_etl.py:452-455 | labelling keeps the row count and succeeds iff every nuts_0..nuts_2 cell can be labelled |
| Nuts.LabelNutsCells | superset/data/keepStat_etl.py:452-455 | each labelled cell is the label of its code and all other columns are unchanged |
| Nuts.LabelNutsKeeps | superset/data/keepStat_etl.py:452-455 | labelling keeps the set of projects and every code bound |
| Nuts.Relabel | superset/data/keepStat_etl.py:452-455 | a relabelled row has a partner iff the original has; with a partner its three NUTS cells are the new labels, and every other cell is unchanged |
| Nuts.LabelledText | superset/data/keepStat_etl.py:452-455 | a labelled column holds a string iff the column before labelling held a code other than null and "nan" |
| Nuts.SliceableColumns | superset/data/keepStat_etl.py:461-467 | `.str.slice` succeeds iff each of nuts_0, nuts_1 and nuts_2 holds a string; otherwise it fails on the first column, in that order, that holds none |
| Nuts.Get | superset/data/keepStat_etl.py:461 | `.get(x, nan)` is the map's value for a present key and null otherwise |
| Nuts.LocateRow | superset/data/keepStat_etl.py:461-471 | a located row keeps its fact; a row without a partner gets null coordinates at every level |
| Nuts.LocateLabelledCode | superset/data/keepStat_etl.py:461-468 | a labelled code of its level's width is located at its own centroid; a null code has none |
| Etl.StatisticsProgrammes | superset/data/keepStat_etl.py:205 | exactly the programmes with use_for_statistics == 1 remain |
| Etl.ClearZero | superset/data/keepStat_etl.py:213-214 | a zero date becomes null, any other date is kept |
| Etl.CleanProjects | superset/data/keepStat_etl.py:212-214 | only the two date columns change, each by ClearZero |
| Etl.CleanProjectsPids | superset/data/keepStat_etl.py:213-214 | date cleaning keeps every project |
| Etl.Alias | superset/data/keepStat_etl.py:335-337 | UK becomes GB and EL becomes GR; cca2 is never UK or EL, and every other code is kept |
| Etl.AliasIdempotent | superset/data/keepStat_etl.py:335-337 | applying the alias map twice is applying it once |
| Etl.ThematicTableRows | superset/data/keepStat_etl.py:296-298 | a thematic row is a project with the known name of one of its keyword terms and nothing else |
| Etl.ThematicTable | superset/data/keepStat_etl.py:296-298 | the thematic projection; its rows are stated by `Etl.ThematicTableRows` and its projects by `Etl.ThematicTableIds` |
| Etl.PartnerFacts | superset/data/keepStat_etl.py:346-348 | the partner facts are exactly the rows with a non-null project |
| Etl.PartnerFactsDistinct | superset/data/keepStat_etl.py:333 | facts of duplicate-free partner rows are duplicate-free |
| Etl.PartnerTableRows | superset/data/keepStat_etl.py:302-348 | one row per distinct partner row naming a project, no two equal |
| Etl.PartnerTable | superset/data/keepStat_etl.py:302-348 | the partner projection; its rows are stated by `Etl.PartnerTableRows` and its projects by `Etl.PartnerTableIds` |
| Etl.PeriodTableRows | superset/data/keepStat_etl.py:351-363 | a project has a period row for each type row sharing its programme's type |
| Etl.PeriodTable | superset/data/keepStat_etl.py:351-363 | the period projection; its rows are stated by `Etl.PeriodTableRows` and its projects by `Etl.PeriodTableIds` |
| Etl.ProgrammeIdTable | superset/data/keepStat_etl.py:292-293 | the programme-id projection, one row per project; its projects are stated by `Etl.ProgrammeIdTableIds` |
| Etl.ProgrammeNameTable | superset/data/keepStat_etl.py:366-372 | the programme-name projection; its projects are stated by `Etl.NameTableIds` |
| Etl.ProgramTypeTable | superset/data/keepStat_etl.py:375-383 | the programme-type projection; its projects are stated by `Etl.TypeTableIds` |
| Etl.ObjectiveTable | superset/data/keepStat_etl.py:394-411 | the objective projection with the second normalisation; its projects are stated by `Etl.ObjectiveTableIds` and its widths by `Etl.ObjectivesFit` |
| Etl.CleanSotoip | superset/data/keepStat_etl.py:262-265 | the cleaned table has no duplicate rows and holds exactly the rows with some code |
| Etl.CleanSotoipIdempotent | superset/data/keepStat_etl.py:386-392 | the second dedup and mask change nothing |
| Etl.StartEndTableRows | superset/data/keepStat_etl.py:425-427 | a start/end row is a project with both dates present |
| Etl.StartEndOfCleanProjects | superset/data/keepStat_etl.py:426 | after zero-to-null, the table holds exactly the projects with both dates present and non-zero |
| Etl.StartEndTable | superset/data/keepStat_etl.py:425-427 | the start/end projection; its rows are stated by `Etl.StartEndTableRows` |
| Etl.BudgetTable | superset/data/keepStat_etl.py:421-422 | the budget projection, one row per project; its projects are stated by `Etl.BudgetTableIds` |
| Etl.Objectives | superset/data/keepStat_etl.py:386-411 | `projectId_thObj_invPrio`; its projects are stated by `Etl.ObjectiveTableIds` and its widths by `Etl.ObjectivesFit` |
| Etl.TablesToMerge | superset/data/keepStat_etl.py:432-442 | the nine projections in the script's order; their projects together are stated by `Etl.TablesIds` |
| Etl.MasterFacts | superset/data/keepStat_etl.py:444-448 | `master` before labelling; its projects are stated by `Etl.MasterIds` and its codes by `Etl.MasterCodesFit` |
| Etl.Pipeline | superset/data/keepStat_etl.py:258-471 | a successful run reports one master row per row of the merged, deduplicated, budget-zeroed table; its failures are stated by `Etl.PipelineFailure`, its projects by `Etl.PipelineProjects` and its code widths by `Etl.PipelineCodesFit` |
| Etl.LocateRows | superset/data/keepStat_etl.py:461-471 | locating keeps every row and its facts in order |
| Etl.PipelineFailure | superset/data/keepStat_etl.py:258-467 | a run fails iff the sotoip table or the objective table is empty, some NUTS cell has no usable description, or a labelled NUTS column holds no string |
| Etl.ThematicTableIds | superset/data/keepStat_etl.py:296-298 | the thematic table's projects are those with a named project keyword |
| Etl.PartnerTableIds | superset/data/keepStat_etl.py:346-348 | the partner table's projects are those partner rows name |
| Etl.BudgetTableIds | superset/data/keepStat_etl.py:421-422 | the budget table holds every project |
| Etl.ProgrammeIdTableIds | superset/data/keepStat_etl.py:292-293 | the programme id table holds exactly the source projects |
| Etl.PeriodTableIds | superset/data/keepStat_etl.py:360-363 | the period table adds no project |
| Etl.NameTableIds | superset/data/keepStat_etl.py:366-372 | the programme name table adds no project |
| Etl.TypeTableIds | superset/data/keepStat_etl.py:381-383 | the programme type table adds no project |
| Etl.ObjectiveTableIds | superset/data/keepStat_etl.py:394-397 | the objective table adds no project |
| Etl.StartEndTableIds | superset/data/keepStat_etl.py:425-427 | the start/end table adds no project |
| Etl.TablesIds | superset/data/keepStat_etl.py:432-442 | the nine tables together hold the source, keyword and partner projects |
| Etl.MasterIds | superset/data/keepStat_etl.py:444-448 | master before labelling holds exactly those projects |
| Etl.PipelineProjects | superset/data/keepStat_etl.py:432-471 | a successful run's master holds exactly the source, keyword and partner projects |
| Etl.ObjectivesFit | superset/data/keepStat_etl.py:414-417 | every code of the objective table fits varchar_max |
| Etl.MasterCodesFit | superset/data/keepStat_etl.py:444-448 | only the objective table brings codes, so master's codes fit any width it fits |
| Etl.PipelineCodesFit | superset/data/keepStat_etl.py:500-501 | every code written to master fits VARCHAR(varchar_max) |

## Left out

- Database I/O is left out. This covers the engines, `getTables`, `commitTable`, `to_sql`, the `dtype` map and the `ALTER TABLE` index query. A run takes its source tables as a `Sources` value and returns an `Output` value.
- Logging is left out.
- `nuts_coord.csv` is not read. The centroid table is a parameter (`Nuts.CoordTable`).
- The country `lat`/`lng` columns (lines 338-343) are left out. They come from the third-party `countries` lookup, which is not part of this model. `cca2` is modelled.
- Row order from pandas merges is not modelled. Pandas groups inner-merge output by key and sorts outer-merge output by key, while the model's joins emit nested-loop order. This changes which of two rows with one budget key counts as "first". All project, membership and total properties proved here do not depend on row order.
- The index and dtype changes pandas applies during merges (float conversion of integer columns that gain nulls) are left out.
- Budgets and coordinates are modelled as mathematical reals, not IEEE doubles.
- Nuts.Lower: lower-casing is modelled for ASCII letters only; Python's full Unicode case mapping is left out.
- Nuts.Capitalize: upper-casing is modelled for ASCII letters only; Python's full Unicode case mapping is left out.
- Codes.FirstDigitRun: digits are the ASCII digits `0`-`9`, which is what the `[0-9]` regular expression matches.
- `is_visible` of `keep_programme` (line 203), `bundle` of the three field tables (lines 271, 276 and 281), and `country_code`, `parent` and `entity_id` of `keep_nuts` (line 286) are read by the script but never used; they are left out of the row types.
- The second clean of `kamut_sotoip` (lines 386-392) masks with `x == None`. That comparison is false for NaN, whereas the first clean (lines 262-265) tests for nulls. The model uses the first clean for both passes. The first pass has already removed every row whose two codes are null, so both masks keep every row at that point; `Etl.CleanSotoipIdempotent` shows the second pass changes nothing.
- Etl.PipelineFailure: the first `varchar_max` (lines 258-260) is modelled only for its failure on an empty table. Its value is overwritten at line 414 before use.
- The WorldMap front-end component is not part of this model.
