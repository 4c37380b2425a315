# Notification mail merge, modelled in Dafny

The tool fills a Word template (`plantilla.docx`) once per student listed in
a spreadsheet (`otro.xlsx`). Each `{{MARKER}}` in the template's paragraphs
and table cells is replaced by a value taken from the student's row. There
are three front ends:

- `main_gui.py`, a small graphical tool. It either saves one document per
  student (`generar_individuales`) or builds one document holding every
  student, with a page break between students (`generar_unico`).
- `app.py`, a batch script that saves one document per student and keeps
  going past a failed save.
- `app_unidoc.py`, a batch script that builds a single document. It merges
  each paragraph's runs before replacing, and calls `add_page_break` before
  appending a student exactly when the student's pandas index label is
  positive.

The model covers:

- **Text** (`text.dfy`). Python's `str.replace`, `in`, `strip`, `capitalize`
  and the file-name `re.sub`, on strings of code points.
- **Docx** (`docx.dfy`). A document body is a sequence of paragraphs and
  tables, and a paragraph is the texts of its runs. There are two
  substitution strategies. Per-run (`reemplazar_texto`) replaces inside each
  run separately. Merge-first (`merge_runs` plus `replace_markers`) joins the
  runs and then replaces in the whole text. A `Document` class holds the body
  and is rewritten in place.
- **Records** (`records.dfy`). The required columns, the header check, the
  `dropna` filter on the cédula column with its index labels, the replacement
  set built from a row, and the output file name.
- **Output** (`output.dfy`). What the generators leave behind:
  - a save attempt per student (file name, filled body, success), or
  - the ordered trace of the calls made on the one final document: the base
    body, page breaks and appended bodies. An `Assembly` class holds this
    trace and grows it in place. The trace is the order of the calls, not
    the order of the elements in the saved file.
- **Gui**, **App** and **Unidoc** (`main_gui.dfy`, `app.dfy`,
  `app_unidoc.dfy`). The generation loops of each front end, proved against
  the trace functions. There are also lemmas that compare the front ends.

Whether each save succeeds is a parameter. In individual mode it is
`saveOk: nat -> bool`, indexed by the attempt. In the consolidated modes it is
one `bool`. The spreadsheet comes in already parsed, as a `Sheet`: the raw
header texts, plus rows that map stripped column names to cells. An empty
(NaN) cell is `None`.

Two details of the code are modelled as written:

- `capitalize` lowercases everything after the first character.
- An empty name cell appears as `nan` in the full name, because the f-string
  and `str()` render the float NaN. Only the three committee fields are
  guarded by `pd.notna` and become empty.

## Model

| member | source | states |
|---|---|---|
| Text.ReplaceAllAbsent | main_gui.py:58 | `str.replace` of a key that does not occur returns the text unchanged |
| Text.ReplaceAllPresent | main_gui.py:58 | when the key occurs, the value occurs in the result |
| Text.ReplaceAllByItself | main_gui.py:58 | replacing a key by itself changes nothing |
| Text.ReplaceAllSplit | main_gui.py:57-58 | replacing in `a + b` equals replacing in `a` and in `b` separately, when no occurrence crosses the boundary |
| Text.FoldReplaceSnoc | main_gui.py:55-58 | one more dict entry applies one more `str.replace` to the text the earlier keys left |
| Text.FoldReplaceAbsent | main_gui.py:55-58 | a text containing none of the keys is left unchanged by the whole dict |
| Text.FoldReplaceEmpty | main_gui.py:55-58 | the empty text stays empty |
| Text.ContainsInConcat | main_gui.py:56 | a key inside one run is inside the paragraph's text (`p.text` joins the runs) |
| Text.LeadingSpaceSpec | main_gui.py:121 | the leading run counted by `strip` is all whitespace, and the character after it is not |
| Text.TrailingSpaceSpec | main_gui.py:121 | the trailing run counted by `strip` is all whitespace, and the character before it is not |
| Text.Strip | main_gui.py:121 | `strip()` never lengthens the text, and its result neither starts nor ends with whitespace |
| Text.StripRemovesOnlySpace | main_gui.py:121 | the stripped text is a contiguous part of the input with only whitespace on either side |
| Text.StripTrimmed | main_gui.py:121 | stripping text that is already trimmed changes nothing |
| Text.Capitalize | main_gui.py:122 | `capitalize()` keeps the length, upper-cases the first character and lower-cases every other |
| Text.Sanitize | main_gui.py:132 | the `re.sub` keeps the length, lets `[A-Za-z0-9_.]` through in place and turns every other character into `_` |
| Docx.ReplaceRuns | main_gui.py:57-58 | every run of the paragraph has the key replaced, and the run count is kept |
| Docx.ReplacePerRun | main_gui.py:54-58 | per-run substitution of a paragraph leaves each run as that run alone with every key replaced in dict order; the `key in p.text` guard makes no difference |
| Docx.MergeRuns | app_unidoc.py:41-48 | `merge_runs` leaves a paragraph of at most one run alone, otherwise leaves one run, and keeps the paragraph's text |
| Docx.ReplaceMarkersInPara | app_unidoc.py:54-58 | merge-then-replace turns a non-empty paragraph into one run holding its joined text with every key replaced in dict order |
| Docx.FillParagraph | main_gui.py:54-58 | one paragraph rewritten by the strategy's routine equals the strategy's specification |
| Docx.FillTable | main_gui.py:59-66 | every paragraph of every cell of every row of a table is filled, and nothing else changes |
| Docx.Document.Load | main_gui.py:129 | `Document(TEMPLATE_DOCX)` starts from the template's body |
| Docx.Document.Fill | main_gui.py:52-66 | the top-level paragraphs and then the tables are filled, giving the strategy's whole-body specification |
| Docx.Document.ReplaceText | main_gui.py:52-66 | `reemplazar_texto` leaves the body filled per run |
| Docx.Document.ReplaceMarkers | app_unidoc.py:51-67 | `replace_markers` leaves the body filled merge-first |
| Docx.GuardIsRedundant | main_gui.py:56-58 | when the key is not in the paragraph text, per-run replacement leaves every run as it was |
| Docx.PerRunUntouched | main_gui.py:54-58 | a paragraph without any key keeps every run under per-run substitution |
| Docx.MergedText | app_unidoc.py:54-58 | after merge-then-replace a paragraph has at most one run, and its text is the joined text with each key replaced |
| Docx.MergedUntouched | app_unidoc.py:54-58 | merge-then-replace keeps the text of a paragraph that holds no key |
| Docx.ReplaceEachConcat | main_gui.py:57-58 | replacing in every run and joining equals joining and replacing, when no occurrence crosses a run boundary |
| Docx.StrategiesAgree | app_unidoc.py:41-58 | when no marker crosses a run boundary, per-run and merge-then-replace give a paragraph the same text |
| Docx.SplitMarker | app_unidoc.py:42 | a marker split over two runs is left in place per run, but is replaced by merge-then-replace |
| Docx.ParasOfFill | main_gui.py:52-66 | every paragraph, top-level or in a table cell, gets the same treatment, in document order |
| Docx.FillKeepsLayout | main_gui.py:52-66 | filling adds or removes no paragraph, table, row or cell; per run keeps each run count, merge-first leaves at most one run |
| Docx.NothingToReplace | main_gui.py:52-66 | with no key anywhere, per-run filling returns the document unchanged and merge-first keeps every paragraph's text |
| Docx.FilledTexts | app_unidoc.py:51-67 | each paragraph's text after merge-first is its text with the keys replaced in order; per run gives the same text where no marker crosses a run boundary |
| Records.MarkersNonEmpty | main_gui.py:120-127 | every marker key is non-empty, so `str.replace` on it is well-defined |
| Records.Missing | main_gui.py:86 | the missing list holds exactly the required columns absent from the stripped headers |
| Records.DropNaSound | main_gui.py:91 | every kept row is the sheet row at its label and has a cédula |
| Records.DropNaComplete | main_gui.py:91 | every sheet row with a cédula is kept under its own label |
| Records.DropNaIncreasing | main_gui.py:91 | kept labels strictly increase and start no lower than the first label |
| Records.DropNaCount | main_gui.py:91 | the number of kept rows is the number of rows with a cédula |
| Records.DropNaFirstLabel | app_unidoc.py:94 | the first kept row has label 0 iff the sheet's first row has a cédula |
| Records.Validate | main_gui.py:79-96 | fails with the missing columns iff a required column is absent; otherwise fails with no students iff no row has a cédula; otherwise returns the `dropna` rows, which are not empty |
| Records.Pairs | main_gui.py:119-128 | the eight markers, in the dict literal's order, each with its value |
| Records.Replacements | main_gui.py:119-128 | the replacement dict has one entry per marker, in order, with non-empty keys |
| Records.Ctx | app_unidoc.py:108-117 | the `row[col]` dict of the single-document script equals the `row.get` dict of the other front ends on every row holding the required columns |
| Records.ReplacementsTrimmed | main_gui.py:120-124 | the full name, cédula, ID and degree values carry no surrounding whitespace |
| Records.ReplacementsTopic | main_gui.py:122 | the topic value is the stripped topic with its first character upper case and the rest lower case |
| Records.ReplacementsCommittee | main_gui.py:125-127 | a committee value is the cell's text when the cell is present and not NaN, and empty otherwise |
| Records.FullNameJoin | main_gui.py:120 | trimmed non-empty names join as `nombres + " " + apellidos`; an empty first name leaves the stripped surname |
| Records.StripLeadingSpace | main_gui.py:120 | the separating space disappears under `strip()` when the first name is empty |
| Records.FileNameShape | main_gui.py:131-132 | the file name has the unsanitised length, only safe characters, keeps the name's safe characters in place, and keeps the `Notificacion_` prefix and the `.docx` suffix |
| Records.SanitizeIdempotent | main_gui.py:132 | sanitising twice is sanitising once |
| Records.FileNamesCollide | main_gui.py:131-133 | two different full names can give the same file name, so the second save overwrites the first |
| Output.PerRunBodiesAt | main_gui.py:179-196 | the `i`-th filled body is the template filled with the `i`-th row |
| Output.AllAttemptsAt | main_gui.py:118-134 | the `i`-th save attempt writes row `i`'s filled template under its sanitised full name and succeeds iff save `i` does |
| Output.AllAttemptsPrefix | main_gui.py:118-134 | the attempts for the first `k` rows are the first `k` attempts for all rows |
| Output.FirstFailure | main_gui.py:134 | the position of the first failing save: every save before it succeeds, and it fails unless it is the end |
| Output.AttemptsUntilFailure | main_gui.py:118-136 | the number of attempts when the first failure ends the run: all rows iff every save but possibly the last succeeds, otherwise one past the saves that succeeded, the last of which failed |
| Output.FillPerRun | main_gui.py:195-196 | a fresh copy of the template filled per run with the row's replacements |
| Output.FillForSaving | main_gui.py:119-132 | one pass before the save gives the sanitised file name of the row's full name and its filled template |
| Output.CountSavedBound | app.py:105-109 | the saved count is at most the number of attempts, and equals it iff every attempt succeeded |
| Output.CountBreaksAppend | main_gui.py:181 | page breaks of a joined trace add up |
| Output.BodiesAppend | main_gui.py:199-200 | the bodies appended by a joined trace are those of each part, in order |
| Output.Assembly.Blank | app_unidoc.py:101 | `Document()` starts an empty trace |
| Output.Assembly.Adopt | main_gui.py:172-173 | the first student's filled document becomes the base of the trace |
| Output.Assembly.AddPageBreak | main_gui.py:181 | `add_page_break` adds one page-break call to the end of the trace and changes nothing else |
| Output.Assembly.AppendBody | main_gui.py:199-200 | appending the temporary document's body elements adds that student's body to the end of the trace |
| Gui.SaveUntilFailure | main_gui.py:118-136 | the individual-mode loop makes exactly the attempts up to and including the first failing save |
| Gui.IndividualOutcome | main_gui.py:118-136 | those attempts are the first of all possible ones; all but the last succeeded; a run cut short ends with a failure; every row gets an attempt iff no save before the last fails |
| Gui.GenerateIndividual | main_gui.py:111-136 | a sheet that fails validation gets no attempt and reports why; otherwise the attempts up to the first failure |
| Gui.GuiEvents | main_gui.py:160-203 | `n` students give a trace of `2n - 1` steps |
| Gui.GuiEventsSnoc | main_gui.py:179-200 | one more student adds a page-break call and then an append of that student's body |
| Gui.AssembleSingle | main_gui.py:160-203 | the consolidated loop's trace is the first student's body, then a page-break call and the next body for each later student |
| Gui.GenerateSingle | main_gui.py:153-206 | a sheet that fails validation saves nothing and reports why; otherwise one save of the consolidated trace to `notificaciones_TODOS_EN_UNO.docx` |
| Gui.GuiEventsContent | main_gui.py:178-200 | `n` students give exactly `n - 1` page-break calls, and the trace appends every student's filled template once, in row order |
| App.SaveAll | app.py:86-109 | every student gets exactly one save attempt, in row order, whatever happened to the saves before |
| App.Run | app.py:71-112 | missing columns exit with status 1 and no attempt; no student returns normally with no attempt; otherwise every student is attempted and the message reports the number of students |
| App.ReportedCount | app.py:105-112 | the reported count is never below the documents actually saved, and equals it iff every save succeeded |
| App.GuiStopsWhereBatchGoesOn | app.py:105-109 | the graphical front end's attempts are a prefix of the batch script's, equal iff no save but possibly the last fails |
| Unidoc.UnidocEventsSnoc | app_unidoc.py:103-126 | one more student adds what one loop pass adds |
| Unidoc.FillMerged | app_unidoc.py:105-120 | a fresh copy of the template, filled merge-first with the `ctx` dict, is the row's merged body |
| Unidoc.AddStudent | app_unidoc.py:123-126 | one pass adds a page-break call when the label is positive, and then an append of the student's body |
| Unidoc.Assemble | app_unidoc.py:101-128 | the loop's trace appends every student in row order, with a page-break call before exactly those with a positive label |
| Unidoc.ValidRowsHaveRequired | app_unidoc.py:108-116 | on a validated, well-formed sheet every `row[col]` lookup succeeds |
| Unidoc.Run | app_unidoc.py:71-135 | a failed validation exits with status 1 and saves nothing; otherwise the trace is saved once to the output path, with status 1 iff that save fails |
| Unidoc.ChunkContent | app_unidoc.py:123-126 | an optional page-break call followed by one append holds that many breaks and exactly that body |
| Unidoc.StepContent | app_unidoc.py:123-126 | one pass adds one page-break call iff the label is positive, and appends exactly the student's body |
| Unidoc.UnidocContent | app_unidoc.py:103-126 | the trace holds one page-break call per positive label, and appends every student's merged body once, in row order |
| Unidoc.CountPositiveIncreasing | app_unidoc.py:94 | with strictly increasing labels, every student but possibly the first has a positive label |
| Unidoc.UnidocEventsFirst | app_unidoc.py:103-126 | the trace opens with what the loop adds for the first student |
| Unidoc.LeadingBreak | app_unidoc.py:123-124 | the trace opens with a page-break call iff the first kept student's label is not 0 |
| Unidoc.SheetBreaks | app_unidoc.py:94-124 | `n` students give `n - 1` page-break calls when the sheet's first row has a cédula and `n` when it does not (the graphical front end always gives `n - 1`) |

## Left out

- Everything the graphical front end does besides generating: the window, buttons, folder picker, log area, threads and `resource_path`. The output-folder check (`os.path.isdir`) and the input-file existence checks come before the modelled steps, as do `mkdir` and the argument parsing of the batch scripts.
- Reading the workbook: pandas parsing is replaced by an already parsed `Sheet`. Cells are text or missing. The `str()` of numeric cells (`1234.0` for a float column) is not modelled, and neither is a read error.
- Unidoc.WellFormed: a precondition of the single-document script. It stands for what pandas guarantees, that every row has a cell under every stripped column name.
- python-docx internals: the XML behind runs, what `add_page_break` inserts, and the section properties a template body carries along when appended. Run formatting is not modelled. Per-run replacement keeps each run's formatting. `merge_runs` keeps only the first run's formatting, which then covers the whole paragraph text; the other runs' formatting is lost even when no key occurs. When a key occurs, `replace_markers` assigns `p.text`, which clears the runs and leaves one run with no formatting. `p.text =` also turns tab and newline characters into their own elements. Nested tables and merged cells are not modelled either: a merged cell is visited once per grid position by `row.cells`.
- The consolidated traces record the order of the calls on the final document, not where python-docx puts the elements in the body. `add_page_break` inserts its paragraph before the body's first section properties (`w:sectPr`), and every body appended later goes after them. In the saved file, the breaks therefore gather ahead of the appended content. In `main_gui.py` they come after the first student's body. In `app_unidoc.py` they come before all student content, so the file opens with a break whenever any label is positive. The lemmas about breaks and bodies count and order calls, not page layout.
- The blank `Document()` of the single-document script: its default content is taken to be empty.
- Text.Capitalize: upper and lower case are mapped for ASCII letters only. Python maps every Unicode letter, including special cases such as `ß` and title-case digraphs.
- Text.IsSpace: the whitespace set of `str.isspace` is written out as a fixed list of code points.
- The unused `MARKERS` set of `app_unidoc.py`, and every log and print message except the count that `app.py` reports at the end.
- Save failures are not modelled in any detail. Whether a save succeeds is given as input, and what becomes of the file after a failure is not modelled.
