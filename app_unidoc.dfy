/**
 * The batch script `app_unidoc.py`: every student's filled template in one
 * document. Runs are merged before substitution (`replace_markers`), and
 * `add_page_break` is called before a student's body is appended exactly
 * when the student's DataFrame index label is positive, which is not the same as "every student but the
 * first" once leading rows have been dropped.
 */
module Unidoc {
  import opened Wrappers
  import opened Docx
  import opened Records
  import opened Output

  /** The template filled for one row by `replace_markers` with the `ctx` dict. */
  function MergedBody(template: Body, row: Row): Body
  {
    FillBody(MergeFirst, template, Replacements(row))
  }

  /** Every row's template filled by `replace_markers`, in row order. */
  function MergedBodies(template: Body, rows: seq<Labelled>): (r: seq<Body>)
    ensures |r| == |rows|
    decreases |rows|
  {
    if rows == [] then []
    else MergedBodies(template, rows[..|rows| - 1]) + [MergedBody(template, rows[|rows| - 1].row)]
  }

  /** What one pass of the loop adds: a break if the label is positive, then the student's body. */
  function Step(template: Body, position: nat, student: Labelled): seq<Event>
  {
    (if student.index > 0 then [PageBreak] else []) + [Append(position, MergedBody(template, student.row))]
  }

  /** The trace the loop of `main` leaves in `doc_final`, which starts out blank. */
  function UnidocEvents(template: Body, rows: seq<Labelled>): seq<Event>
    decreases |rows|
  {
    if rows == [] then []
    else UnidocEvents(template, rows[..|rows| - 1]) + Step(template, |rows| - 1, rows[|rows| - 1])
  }

  lemma UnidocEventsSnoc(template: Body, rows: seq<Labelled>, i: nat)
    requires i < |rows|
    ensures UnidocEvents(template, rows[..i + 1]) == UnidocEvents(template, rows[..i]) + Step(template, i, rows[i])
  {
    assert rows[..i + 1][..i] == rows[..i];
  }

  /** `row[col]` cannot fail: every required column is a key of every row. */
  predicate AllHaveRequired(rows: seq<Labelled>)
  {
    forall j :: 0 <= j < |rows| ==> HasRequired(rows[j].row)
  }

  /** `Document(TEMPLATE_DOCX)`, the `ctx` dict and `replace_markers(doc_tmp, ctx)` for one row. */
  method FillMerged(template: Body, row: Row) returns (body: Body)
    requires HasRequired(row)
    ensures body == MergedBody(template, row)
  {
    var docTmp := new Document.Load(template);
    var ctx := Ctx(row);
    docTmp.ReplaceMarkers(ctx);
    body := docTmp.body;
  }

  /** One pass of the loop of `main`: a break when the label is positive, then the filled body. */
  method AddStudent(docFinal: Assembly, template: Body, position: nat, student: Labelled)
    requires HasRequired(student.row)
    modifies docFinal
    ensures docFinal.events == old(docFinal.events) + Step(template, position, student)
  {
    var body := FillMerged(template, student.row);
    if student.index > 0 {
      docFinal.AddPageBreak();
      AddTwo(old(docFinal.events), PageBreak, Append(position, body));
    }
    docFinal.AppendBody(position, body);
  }

  /** The assembly loop of `main`. */
  method Assemble(template: Body, rows: seq<Labelled>) returns (events: seq<Event>)
    requires AllHaveRequired(rows)
    ensures events == UnidocEvents(template, rows)
  {
    var docFinal := new Assembly.Blank();
    assert rows[..0] == [];
    var i := 0;
    while i < |rows|
      invariant 0 <= i <= |rows|
      invariant docFinal.events == UnidocEvents(template, rows[..i])
    {
      AddStudent(docFinal, template, i, rows[i]);
      UnidocEventsSnoc(template, rows, i);
      i := i + 1;
    }
    events := docFinal.events;
    assert rows[..i] == rows;
  }

  /** pandas gives every row a cell for every column, under its stripped name. */
  predicate WellFormed(sheet: Sheet)
  {
    forall i, c :: 0 <= i < |sheet.rows| && c in Columns(sheet) ==> c in sheet.rows[i]
  }

  /** On a well-formed sheet that passes validation, `row[col]` never fails. */
  lemma ValidRowsHaveRequired(sheet: Sheet)
    requires WellFormed(sheet) && Validate(sheet).Ok?
    ensures AllHaveRequired(Validate(sheet).value)
  {
    var rows := Validate(sheet).value;
    DropNaSound(sheet.rows, ColCedula, 0);
    forall j | 0 <= j < |rows| ensures HasRequired(rows[j].row) {
      assert KeptFrom(sheet.rows, ColCedula, 0, rows[j]);
    }
  }

  /**
   * `main` after the input files were found and read, with the single save
   * succeeding iff `saveOk`. Missing columns, no student with a cédula and a
   * failed save all exit with status 1.
   */
  method Run(sheet: Sheet, template: Body, outputPath: string, saveOk: bool)
    returns (status: nat, save: Option<ConsolidatedSave>)
    requires WellFormed(sheet)
    ensures Validate(sheet).Err? ==> status == 1 && save == None
    ensures Validate(sheet).Ok? ==>
              save == Some(ConsolidatedSave(outputPath, UnidocEvents(template, Validate(sheet).value), saveOk)) &&
              status == (if saveOk then 0 else 1)
  {
    var valid := Validate(sheet);
    if valid.Err? {
      return 1, None;
    }
    ValidRowsHaveRequired(sheet);
    var events := Assemble(template, valid.value);
    save := Some(ConsolidatedSave(outputPath, events, saveOk));
    status := if saveOk then 0 else 1;
  }

  /** How many of the rows have a positive index label. */
  function CountPositive(rows: seq<Labelled>): nat
    decreases |rows|
  {
    if rows == [] then 0
    else CountPositive(rows[..|rows| - 1]) + (if rows[|rows| - 1].index > 0 then 1 else 0)
  }

  /** An optional page break followed by one body holds that many breaks and just that body. */
  lemma ChunkContent(withBreak: bool, position: nat, body: Body)
    ensures CountBreaks((if withBreak then [PageBreak] else []) + [Append(position, body)]) ==
            (if withBreak then 1 else 0)
    ensures Bodies((if withBreak then [PageBreak] else []) + [Append(position, body)]) == [body]
  {
    var e := (if withBreak then [PageBreak] else []) + [Append(position, body)];
    var brk: seq<Event> := [PageBreak];
    if withBreak {
      assert brk[..0] == [];
      assert CountBreaks(brk) == 1 && Bodies(brk) == [];
      assert e[..1] == brk;
    } else {
      assert e[..0] == [];
    }
  }

  /** What one pass adds: a break iff the label is positive, and the student's body. */
  lemma StepContent(template: Body, position: nat, student: Labelled)
    ensures CountBreaks(Step(template, position, student)) == (if student.index > 0 then 1 else 0)
    ensures Bodies(Step(template, position, student)) == [MergedBody(template, student.row)]
  {
    ChunkContent(student.index > 0, position, MergedBody(template, student.row));
  }

  /**
   * The trace holds one page-break call per student with a positive label,
   * and appends every student's filled template once, in row order.
   */
  lemma {:induction false} UnidocContent(template: Body, rows: seq<Labelled>)
    ensures CountBreaks(UnidocEvents(template, rows)) == CountPositive(rows)
    ensures Bodies(UnidocEvents(template, rows)) == MergedBodies(template, rows)
    decreases |rows|
  {
    if rows != [] {
      var n := |rows| - 1;
      var init := rows[..n];
      UnidocContent(template, init);
      CountBreaksAppend(UnidocEvents(template, init), Step(template, n, rows[n]));
      BodiesAppend(UnidocEvents(template, init), Step(template, n, rows[n]));
      StepContent(template, n, rows[n]);
    }
  }

  /** Labels that strictly increase are positive from the second row on. */
  lemma {:induction false} CountPositiveIncreasing(rows: seq<Labelled>)
    requires Increasing(rows) && |rows| > 0
    ensures CountPositive(rows) == |rows| - (if rows[0].index == 0 then 1 else 0)
    decreases |rows|
  {
    var n := |rows| - 1;
    if n > 0 {
      var init := rows[..n];
      assert init[0] == rows[0];
      CountPositiveIncreasing(init);
      assert rows[0].index < rows[n].index;
    }
  }

  /** The trace starts with what the pass for the first student adds. */
  lemma {:induction false} UnidocEventsFirst(template: Body, rows: seq<Labelled>)
    requires |rows| > 0
    ensures |UnidocEvents(template, rows)| > 0
    ensures UnidocEvents(template, rows)[0] == Step(template, 0, rows[0])[0]
    decreases |rows|
  {
    var n := |rows| - 1;
    var init := rows[..n];
    if n == 0 {
      assert init == [];
    } else {
      assert init[0] == rows[0];
      UnidocEventsFirst(template, init);
    }
  }

  /**
   * The trace opens with a page-break call exactly when the first student
   * kept does not carry label 0, that is, when the sheet's first row was
   * dropped for a missing cédula.
   */
  lemma LeadingBreak(template: Body, rows: seq<Labelled>)
    requires |rows| > 0
    ensures |UnidocEvents(template, rows)| > 0
    ensures UnidocEvents(template, rows)[0] == PageBreak <==> rows[0].index > 0
  {
    UnidocEventsFirst(template, rows);
  }

  /**
   * Over a validated sheet: `n` students give `n - 1` page breaks when the
   * sheet's first row has a cédula and `n` when it does not, where the
   * graphical front end always gives `n - 1`.
   */
  lemma SheetBreaks(sheet: Sheet, template: Body)
    requires Validate(sheet).Ok?
    ensures var rows := Validate(sheet).value;
            CountBreaks(UnidocEvents(template, rows)) ==
              |rows| - (if Present(sheet.rows[0], ColCedula) then 1 else 0)
  {
    var rows := Validate(sheet).value;
    UnidocContent(template, rows);
    DropNaIncreasing(sheet.rows, ColCedula, 0);
    DropNaFirstLabel(sheet.rows, ColCedula, 0);
    CountPositiveIncreasing(rows);
  }
}
