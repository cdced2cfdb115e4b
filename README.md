# Care-pathway tracking dashboard: the table engine

The dashboard keeps a care-pathway tracking sheet in one spreadsheet file. Each
row holds a care line (Linha de Cuidado), a phase (Fase), a task (Tarefa), a
status (Status) and a note (Observações). The sheet is loaded into memory. Two
forms change it and save it back:

- the **edit form** writes a new status and note into every row of the chosen
  line, phase and task. A row marked done (Concluído) has its note cleared.
- the **add-line form** creates a new care line, seeded with one pending row
  for every distinct (phase, task) pair of the whole sheet.

The rest of the page reads the sheet:

- three dependent pickers (line, then phase, then task) choose the row to edit.
  They can be pre-set from a pending edit target kept in the session.
- three filters over line, phase and status give the browse list. Its "edit
  this task" buttons set the pending target.
- three progress indicators: the completion percentage of every care line, the
  completion metric of the first care line selected in the filter, and the
  status distribution, which leaves out the ongoing status (Ação Contínua).

The model is in seven modules:

- `Wrappers`: `Option` and `Result`.
- `Text`: `str.strip()`, `str.lower()` and the substring test of `str.contains`.
- `Seqs`: the pandas and list idioms the script builds on:
  - `unique()` and `drop_duplicates`, which keep the first-seen order
  - a boolean mask
  - `list.index`
- `Sheet`: the row type, the two transactions as specification functions, and
  the class `Sheet`. Its field `rows` is the in-memory table and its field
  `file` is the saved spreadsheet. Its methods `Edit` and `AddLine` are the two
  submit handlers, proved against those functions.
- `Cascade`: the option lists and default positions of the pickers, and the
  class `Session` holding the pending edit target.
- `View`: the filter mask of the browse list.
- `Progress`: the two completion computations, and the rows of the status
  distribution.

Two behaviours of the code are worth stating plainly:

- A stored target that is missing from a picker's options makes `list.index`
  raise `ValueError`. `Cascade.Select` returns `Err` carrying that value; it
  does not fall back to the first option.
- The template of a new care line is the distinct (phase, task) pairs of the
  whole sheet, not of one care line (`Sheet.Templates`).

## Model

| member | source | states |
|---|---|---|
| Text.Strip | dashboard_linhas_cuidado_edicao.py:62 | the result is a slice of the input, only whitespace (Python's `isspace` set) is cut off on either side, and the result neither starts nor ends with whitespace |
| Text.StripEmptyIffAllSpace | dashboard_linhas_cuidado_edicao.py:62 | the name test `strip() != ""` fails exactly when every character of the name is whitespace |
| Text.StripIdempotent | dashboard_linhas_cuidado_edicao.py:67 | `strip()` is idempotent: stripping a stripped string changes nothing |
| Text.LowerChar | dashboard_linhas_cuidado_edicao.py:118 | a lower-cased character is never a capital, a capital moves to its small letter 32 code points up, and any other character is kept |
| Text.Lower | dashboard_linhas_cuidado_edicao.py:118 | the lower-cased status has the same length, holds no capital, keeps every non-capital in place and turns each capital into its small letter |
| Text.LowerKeepsSmall | dashboard_linhas_cuidado_edicao.py:118 | a string without capitals is its own lower case |
| Text.LowerIdempotent | dashboard_linhas_cuidado_edicao.py:118 | lower-casing twice is lower-casing once |
| Seqs.Unique | dashboard_linhas_cuidado_edicao.py:31 | `unique()` returns each value of the column exactly once, and nothing else |
| Seqs.UniqueFirstSeenOrder | dashboard_linhas_cuidado_edicao.py:31 | `unique()` lists values in the order of their first occurrence in the column |
| Seqs.UniqueHead | dashboard_linhas_cuidado_edicao.py:31 | the first distinct value of a non-empty column is its first value |
| Seqs.IndexOf | dashboard_linhas_cuidado_edicao.py:31 | `list.index` gives the first position holding the value, and fails (ValueError) exactly when the value is absent |
| Seqs.Where | dashboard_linhas_cuidado_edicao.py:87-91 | a boolean mask keeps exactly the rows that pass it |
| Seqs.WhereAppend | dashboard_linhas_cuidado_edicao.py:87-91 | masking keeps table order: the mask of two blocks is the mask of the first followed by the mask of the second |
| Seqs.WhereCount | dashboard_linhas_cuidado_edicao.py:87-91 | a passing row keeps every one of its occurrences, and a failing row keeps none |
| Seqs.WhereAll | dashboard_linhas_cuidado_edicao.py:87-91 | a mask every row passes returns the whole table |
| Sheet.NoteAfter | dashboard_linhas_cuidado_edicao.py:52 | the note written is the supplied text, except that it is empty when the new status is done |
| Sheet.Edited | dashboard_linhas_cuidado_edicao.py:44-52 | after an edit, matching rows carry the new status and note, other rows are unchanged, and no line, phase or task cell changes |
| Sheet.EditedNoMatch | dashboard_linhas_cuidado_edicao.py:50-54 | an edit whose choice matches no row leaves the sheet unchanged |
| Sheet.EditedIdempotent | dashboard_linhas_cuidado_edicao.py:44-52 | submitting the same edit twice has the effect of submitting it once |
| Sheet.EditReadBack | dashboard_linhas_cuidado_edicao.py:51-52 | an edited row reads back with the new status, with an empty note when done, and still matches the choice |
| Sheet.MatchIndex | dashboard_linhas_cuidado_edicao.py:45-49 | the matched index holds exactly the positions of the rows matching line, phase and task, in increasing order, and is empty exactly when nothing matches |
| Sheet.Sheet.Edit | dashboard_linhas_cuidado_edicao.py:44-54 | the new table is the edited table; the file is saved exactly when some row matched, and otherwise the table and file are unchanged |
| Sheet.Templates | dashboard_linhas_cuidado_edicao.py:63 | the template pairs are duplicate-free, cover the (phase, task) pair of every row, and contain no other pair |
| Sheet.NewRows | dashboard_linhas_cuidado_edicao.py:64-72 | one new row per template pair, in template order, each on the new line with status pending and an empty note |
| Sheet.BuildEntries | dashboard_linhas_cuidado_edicao.py:64-72 | the loop over the template builds exactly the specified new rows |
| Sheet.NewRowsCoverEachPairOnce | dashboard_linhas_cuidado_edicao.py:63-73 | every (phase, task) pair of the sheet is given to the new line by exactly one appended row, and every appended pair exists in the sheet |
| Sheet.NewRowsKeepKeysUnique | dashboard_linhas_cuidado_edicao.py:62-73 | adding a line under a name no row uses keeps the (line, phase, task) keys unique |
| Sheet.OncologiaExample | dashboard_linhas_cuidado_edicao.py:63-72 | a sheet with the distinct pairs (A, 1), (A, 2), (B, 1) gains exactly those three pending rows with empty notes under "Oncologia" |
| Sheet.Sheet.AddLine | dashboard_linhas_cuidado_edicao.py:62-74 | a name that is blank once stripped changes nothing; otherwise the table is extended by the new rows under the stripped name and saved |
| Sheet.Sheet.Load | dashboard_linhas_cuidado_edicao.py:8-10 | the table starts as the file's contents |
| Sheet.Sheet.Save | dashboard_linhas_cuidado_edicao.py:12-13 | the whole table overwrites the file |
| Cascade.LineOptions | dashboard_linhas_cuidado_edicao.py:31 | the line picker offers each care line of the sheet once, and nothing else |
| Cascade.PhaseOptions | dashboard_linhas_cuidado_edicao.py:33 | the phase picker offers each phase of the chosen line once, and nothing else |
| Cascade.TaskOptions | dashboard_linhas_cuidado_edicao.py:36 | the task picker offers each task of the chosen line and phase once, and nothing else |
| Cascade.DefaultIndex | dashboard_linhas_cuidado_edicao.py:31 | a falsy stored target gives position 0; a truthy one gives its first position among the options, or an error carrying the value when it is absent |
| Cascade.Pick | dashboard_linhas_cuidado_edicao.py:31 | a picker holds a value exactly when it has options, and that value is one of them |
| Cascade.PickDefault | dashboard_linhas_cuidado_edicao.py:34 | a picker starts at the stored target when that is truthy and offered, at the first option when nothing is stored, and fails exactly when a truthy target is not offered |
| Cascade.LineHasPhases | dashboard_linhas_cuidado_edicao.py:33 | a care line present in the sheet offers at least one phase |
| Cascade.PhaseHasTasks | dashboard_linhas_cuidado_edicao.py:36 | a phase offered for the chosen line offers at least one task |
| Cascade.Select | dashboard_linhas_cuidado_edicao.py:30-37 | a truthy stored target is what its picker starts at, and a truthy line target missing from the line options makes the cascade fail, with no fall-back; without a line target the first line is picked; on a non-empty sheet a success always names a row of the sheet, so a stored triple naming no row fails; an empty sheet selects no line; a failure carries a truthy stored target value |
| Cascade.TargetFromRowSelectsIt | dashboard_linhas_cuidado_edicao.py:31-37 | a target taken from a row with non-empty cells makes the cascade select exactly that row |
| Cascade.DefaultSelectsFirstRow | dashboard_linhas_cuidado_edicao.py:31-37 | with no pending target the cascade selects the first row's line, phase and task |
| Cascade.EditKeepsOptions | dashboard_linhas_cuidado_edicao.py:51-52 | an edit leaves the options of all three pickers unchanged |
| Cascade.Session.constructor | dashboard_linhas_cuidado_edicao.py:20-23 | a new session has no pending edit target |
| Cascade.Session.SelectForEdit | dashboard_linhas_cuidado_edicao.py:96-99 | the "edit this task" handler stores the row's line, phase and task as the pending target |
| View.AllPhases | dashboard_linhas_cuidado_edicao.py:83 | the default phase filter is duplicate-free and holds exactly the phases of the sheet |
| View.AllStatuses | dashboard_linhas_cuidado_edicao.py:85 | the default status filter is duplicate-free and holds exactly the statuses of the sheet |
| View.Filtered | dashboard_linhas_cuidado_edicao.py:87-91 | a row is in the browse list exactly when its line, phase and status are each among the selected ones |
| View.FilteredKeepsOrder | dashboard_linhas_cuidado_edicao.py:87-91 | the browse list keeps sheet order |
| View.FilteredCount | dashboard_linhas_cuidado_edicao.py:87-91 | a passing row appears as often as in the sheet, and any other row not at all |
| View.DefaultFiltersShowAll | dashboard_linhas_cuidado_edicao.py:81-91 | with every filter at its default the browse list is the whole sheet |
| View.BrowseEditSelectsRow | dashboard_linhas_cuidado_edicao.py:102-108 | pressing "edit this task" on a listed row makes the edit form's cascade select exactly that row |
| View.EditListedRow | dashboard_linhas_cuidado_edicao.py:107-108 | after the button of a listed row, the session's target is that row's line, phase and task, and the cascade started from it selects exactly that row |
| Progress.StatusOptionsCompleted | dashboard_linhas_cuidado_edicao.py:39 | of the four statuses the edit form offers, exactly done and ongoing count as complete by the test of line 118 |
| Progress.Percent | dashboard_linhas_cuidado_edicao.py:131 | the percentage is 0 for a line without rows, otherwise 100 times done over total, and lies between 0 and 100 |
| Progress.FlagSum | dashboard_linhas_cuidado_edicao.py:118-119 | the number of completion flags of a group never exceeds the group's size |
| Progress.GroupSize | dashboard_linhas_cuidado_edicao.py:119 | a group's size is positive exactly when the line occurs in the sheet |
| Progress.OverallProgress | dashboard_linhas_cuidado_edicao.py:117-120 | the chart has one entry per care line of the unfiltered sheet, each with a positive total and at most that many complete rows |
| Progress.LineRows | dashboard_linhas_cuidado_edicao.py:128 | the rows of one line are exactly the sheet's rows on that line |
| Progress.LineProgress | dashboard_linhas_cuidado_edicao.py:128-130 | the complete rows of the line never exceed its rows, which never exceed the sheet |
| Progress.SelectedLineMetric | dashboard_linhas_cuidado_edicao.py:125-132 | a metric is shown exactly when some line is selected; it lies between 0 and 100, and is 0 when the line has no rows |
| Progress.LineRowsSnoc | dashboard_linhas_cuidado_edicao.py:128 | one more row extends a line's rows exactly when the row is on that line |
| Progress.GroupSizeIsTotal | dashboard_linhas_cuidado_edicao.py:119 | the group size of the chart equals the `total` of the metric |
| Progress.FlagSumIsDone | dashboard_linhas_cuidado_edicao.py:118-119 | summing a group's completion flags counts the group's complete rows |
| Progress.ProgressAgrees | dashboard_linhas_cuidado_edicao.py:117-130 | for every care line of the sheet, the chart's ratio and the metric's ratio are the same |
| Progress.HalfDoneExample | dashboard_linhas_cuidado_edicao.py:125-132 | a line whose four rows are done, ongoing, pending and in progress stands at 50%, and the metric of the selection [that line] is 50.0 |
| Progress.DistributionRows | dashboard_linhas_cuidado_edicao.py:136 | the distribution keeps exactly the rows whose lower-cased status does not contain "ação contínua" |
| Progress.OngoingLeftOut | dashboard_linhas_cuidado_edicao.py:136 | no row with the ongoing status the edit form writes enters the distribution |
| Progress.DistributionCount | dashboard_linhas_cuidado_edicao.py:136 | every kept row keeps all its occurrences, so the proportions among the other statuses are those of the sheet |

## Left out

- Streamlit itself is not modelled. This covers the page layout, forms, text inputs, success messages, `st.experimental_rerun` and the widget state machinery. A handler is a method call, and a multi-select's selection is a plain sequence of values.
- Reading and writing the Excel file (`pd.read_excel`, `to_excel`) is not modelled. The file is the field `Sheet.Sheet.file`, and a save assigns the whole table to it.
- Sheet.Sheet.Load: `@st.cache_data` is not modelled. In the script, every rerun gets a copy of the first load, so an edit saved to disk does not show up after a rerun, and a later save can overwrite it. The model keeps `rows` between handlers instead.
- Loading a missing or malformed file is not modelled; it is a fatal error outside the table engine.
- The Plotly bar and pie charts (lines 121-122 and 137-138) are not modelled. Only the data they are given is.
- The CSV export (lines 140-143) is not modelled; it is I/O of the filtered rows.
- Progress.Percent: is an exact rational. It leaves out the floating-point mean and the `round(…, 1)` to one decimal.
- Progress.OverallProgress: is a map, so it does not capture the key order of `groupby`, which sorts the line names.
- Text.Lower: maps only ASCII and Latin-1 capitals to small letters. The statuses are Portuguese words, and full Unicode case mapping is not modelled.
- Progress.DistributionRows: models `str.contains` as a substring test. pandas reads the pattern as a regular expression, but "ação contínua" has no metacharacters.
- Empty (NaN) spreadsheet cells are not modelled; every cell is a string. In the script, a NaN status makes `x.lower()` on line 118 raise, and NaN keys never match a picker.
- Sheet.Sheet.Edit: writes status and note in one pass over the matched positions. The script does two column assignments through `df.loc`. The result is the same because the loaded and concatenated frames have a positional index.
- Cascade.Pick: requires an index inside a non-empty option list. Streamlit rejects any other index, and `Cascade.Select` only passes indices that meet this.
- Two browser sessions overwriting each other's saved file are not modelled; this is a concurrency limitation of the script.
