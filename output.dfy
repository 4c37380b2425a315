/**
 * What the generators produce. Individual mode makes one save attempt per
 * student: a sanitised file name and a filled copy of the template. The
 * consolidated modes grow one final document, recorded here as the ordered
 * trace of the calls made on it: the filled base it started from, the page
 * breaks, and the filled template bodies appended after it. The trace is the
 * order of the calls, not the order of the elements in the saved body.
 */
module Output {
  import opened Text
  import opened Docx
  import opened Records

  /** One `doc.save(ruta_salida)` of individual mode, and whether it succeeded. */
  datatype SaveAttempt = SaveAttempt(fileName: string, body: Body, ok: bool)

  /** One step in building the consolidated document. */
  datatype Event =
    | Base(body: Body)                  // the final document is this filled template
    | PageBreak                         // doc_final.add_page_break()
    | Append(student: nat, body: Body)  // the body elements of the filled template of the student at this position

  /** The single `doc_final.save(output_path)` of a consolidated mode. */
  datatype ConsolidatedSave = ConsolidatedSave(path: string, events: seq<Event>, ok: bool)

  /** The template filled for one row by `reemplazar_texto`. */
  function PerRunBody(template: Body, row: Row): Body
  {
    FillBody(PerRun, template, Replacements(row))
  }

  /** Every row's template filled by `reemplazar_texto`, in row order. */
  function PerRunBodies(template: Body, rows: seq<Labelled>): (r: seq<Body>)
    ensures |r| == |rows|
    decreases |rows|
  {
    if rows == [] then []
    else PerRunBodies(template, rows[..|rows| - 1]) + [PerRunBody(template, rows[|rows| - 1].row)]
  }

  /** Taking one more row adds that row's filled template at the end. */
  lemma PerRunBodiesSnoc(template: Body, rows: seq<Labelled>, i: nat)
    requires i < |rows|
    ensures PerRunBodies(template, rows[..i + 1]) == PerRunBodies(template, rows[..i]) + [PerRunBody(template, rows[i].row)]
  {
    assert rows[..i + 1][..i] == rows[..i];
  }

  /** The `i`-th body is the template filled with the `i`-th row. */
  lemma {:induction false} PerRunBodiesAt(template: Body, rows: seq<Labelled>, i: nat)
    requires i < |rows|
    ensures PerRunBodies(template, rows)[i] == PerRunBody(template, rows[i].row)
    decreases |rows|
  {
    if i < |rows| - 1 {
      PerRunBodiesAt(template, rows[..|rows| - 1], i);
    }
  }

  /** The save attempt individual mode makes for one row. */
  function Attempt(template: Body, row: Row, ok: bool): SaveAttempt
  {
    SaveAttempt(FileName(FullName(row)), PerRunBody(template, row), ok)
  }

  /** Every row saved in turn, the `i`-th save succeeding iff `saveOk(i)`. */
  function AllAttempts(template: Body, rows: seq<Labelled>, saveOk: nat -> bool): (r: seq<SaveAttempt>)
    ensures |r| == |rows|
    decreases |rows|
  {
    if rows == [] then []
    else
      var n := |rows| - 1;
      AllAttempts(template, rows[..n], saveOk) + [Attempt(template, rows[n].row, saveOk(n))]
  }

  /**
   * The `i`-th attempt writes the `i`-th row's filled template under the
   * sanitised file name of that row's full name, and succeeds iff `saveOk(i)`.
   */
  lemma {:induction false} AllAttemptsAt(template: Body, rows: seq<Labelled>, saveOk: nat -> bool, i: nat)
    requires i < |rows|
    ensures AllAttempts(template, rows, saveOk)[i] == Attempt(template, rows[i].row, saveOk(i))
    ensures AllAttempts(template, rows, saveOk)[i].fileName == FileName(FullName(rows[i].row))
    ensures AllAttempts(template, rows, saveOk)[i].ok == saveOk(i)
    decreases |rows|
  {
    if i < |rows| - 1 {
      AllAttemptsAt(template, rows[..|rows| - 1], saveOk, i);
    }
  }

  /** Taking one more row adds that row's attempt at the end. */
  lemma AllAttemptsSnoc(template: Body, rows: seq<Labelled>, saveOk: nat -> bool, i: nat)
    requires i < |rows|
    ensures AllAttempts(template, rows[..i + 1], saveOk) ==
            AllAttempts(template, rows[..i], saveOk) + [Attempt(template, rows[i].row, saveOk(i))]
  {
    assert rows[..i + 1][..i] == rows[..i];
  }

  /** Saving the first `k` rows makes the first `k` attempts of saving them all. */
  lemma AllAttemptsPrefix(template: Body, rows: seq<Labelled>, saveOk: nat -> bool, k: nat)
    requires k <= |rows|
    ensures AllAttempts(template, rows[..k], saveOk) == AllAttempts(template, rows, saveOk)[..k]
  {
    var a := AllAttempts(template, rows[..k], saveOk);
    var b := AllAttempts(template, rows, saveOk);
    forall i | 0 <= i < k ensures a[i] == b[i] {
      AllAttemptsAt(template, rows[..k], saveOk, i);
      AllAttemptsAt(template, rows, saveOk, i);
    }
  }

  /** The position of the first failing save among `from..n`, or `n` when they all succeed. */
  function FirstFailure(saveOk: nat -> bool, from: nat, n: nat): (k: nat)
    requires from <= n
    ensures from <= k <= n
    ensures forall i :: from <= i < k ==> saveOk(i)
    ensures k < n ==> !saveOk(k)
    decreases n - from
  {
    if from == n then n
    else if !saveOk(from) then from
    else FirstFailure(saveOk, from + 1, n)
  }

  /** How many of `n` attempts are made when the first failing save ends the run. */
  function AttemptsUntilFailure(saveOk: nat -> bool, n: nat): (c: nat)
    ensures c <= n
    ensures c == n <==> forall i :: 0 <= i < n - 1 ==> saveOk(i)
    ensures c < n ==> c > 0 && !saveOk(c - 1) && forall i :: 0 <= i < c - 1 ==> saveOk(i)
  {
    var k := FirstFailure(saveOk, 0, n);
    if k < n then k + 1 else n
  }

  /** `Document(plantilla)` followed by `reemplazar_texto(doc, replacements)` for one row. */
  method FillPerRun(template: Body, row: Row) returns (body: Body)
    ensures body == PerRunBody(template, row)
  {
    var doc := new Document.Load(template);
    doc.ReplaceText(Replacements(row));
    body := doc.body;
  }

  /**
   * One pass of the save loops of individual mode (`generar_individuales`
   * and the batch script), before the save: the
   * row's replacements, a fresh copy of the template filled run by run, and
   * the file name built from the full name.
   */
  method FillForSaving(template: Body, row: Row) returns (name: string, body: Body)
    ensures name == FileName(FullName(row)) && body == PerRunBody(template, row)
  {
    var replacements := Replacements(row);
    var doc := new Document.Load(template);
    doc.ReplaceText(replacements);
    name := FileName(replacements[0].1);
    body := doc.body;
  }

  /** How many attempts succeeded. */
  function CountSaved(attempts: seq<SaveAttempt>): nat
  {
    if attempts == [] then 0
    else CountSaved(attempts[..|attempts| - 1]) + (if attempts[|attempts| - 1].ok then 1 else 0)
  }

  /** How many page breaks a trace holds. */
  function CountBreaks(events: seq<Event>): nat
  {
    if events == [] then 0
    else CountBreaks(events[..|events| - 1]) + (if events[|events| - 1].PageBreak? then 1 else 0)
  }

  /** The filled bodies a trace appends, in call order. */
  function Bodies(events: seq<Event>): seq<Body>
  {
    if events == [] then []
    else Bodies(events[..|events| - 1]) + (if events[|events| - 1].PageBreak? then [] else [events[|events| - 1].body])
  }

  lemma {:induction false} CountSavedBound(attempts: seq<SaveAttempt>)
    ensures CountSaved(attempts) <= |attempts|
    ensures CountSaved(attempts) == |attempts| <==> forall i :: 0 <= i < |attempts| ==> attempts[i].ok
    decreases |attempts|
  {
    if attempts != [] {
      var init := attempts[..|attempts| - 1];
      CountSavedBound(init);
      assert forall i :: 0 <= i < |init| ==> init[i] == attempts[i];
    }
  }

  lemma CountBreaksAppend(events: seq<Event>, more: seq<Event>)
    ensures CountBreaks(events + more) == CountBreaks(events) + CountBreaks(more)
    decreases |more|
  {
    if more == [] {
      assert events + more == events;
    } else {
      var init := more[..|more| - 1];
      assert (events + more)[..|events + more| - 1] == events + init;
      CountBreaksAppend(events, init);
      assert more[..|more| - 1] == init;
    }
  }

  lemma BodiesAppend(events: seq<Event>, more: seq<Event>)
    ensures Bodies(events + more) == Bodies(events) + Bodies(more)
    decreases |more|
  {
    if more == [] {
      assert events + more == events;
    } else {
      var init := more[..|more| - 1];
      assert (events + more)[..|events + more| - 1] == events + init;
      BodiesAppend(events, init);
    }
  }

  /** Two events added one after the other are the two added together. */
  lemma AddTwo(events: seq<Event>, first: Event, second: Event)
    ensures events + [first] + [second] == events + [first, second]
  {
  }

  /** The final document under construction, as the trace of the calls the consolidated loops make on it. */
  class Assembly {
    var events: seq<Event>

    /** `Document()`: a new blank document. */
    constructor Blank()
      ensures events == []
    {
      events := [];
    }

    /** The first student's filled template becomes the final document. */
    constructor Adopt(body: Body)
      ensures events == [Base(body)]
    {
      events := [Base(body)];
    }

    /** `doc_final.add_page_break()` */
    method AddPageBreak()
      modifies this
      ensures events == old(events) + [PageBreak]
    {
      events := events + [PageBreak];
    }

    /** `for el in doc_tmp.element.body: doc_final.element.body.append(el)` */
    method AppendBody(student: nat, body: Body)
      modifies this
      ensures events == old(events) + [Append(student, body)]
    {
      events := events + [Append(student, body)];
    }
  }
}
