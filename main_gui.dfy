/**
 * The two generators of the graphical front end: `generar_individuales`,
 * one filled copy of the template saved per student, and `generar_unico`,
 * every student in one document with an `add_page_break` call between
 * consecutive students. Both substitute with `reemplazar_texto` (per run).
 */
module Gui {
  import opened Wrappers
  import opened Docx
  import opened Records
  import opened Output

  /** The file `generar_unico` writes in the chosen folder. */
  const ConsolidatedName: string := "notificaciones_TODOS_EN_UNO.docx"

  /**
   * The save loop of `generar_individuales`. A failing `doc.save` raises,
   * which ends the worker thread: the rows after it get no attempt.
   */
  method SaveUntilFailure(template: Body, rows: seq<Labelled>, saveOk: nat -> bool)
    returns (attempts: seq<SaveAttempt>)
    ensures attempts == AllAttempts(template, rows[..AttemptsUntilFailure(saveOk, |rows|)], saveOk)
  {
    attempts := [];
    var i := 0;
    while i < |rows|
      invariant 0 <= i <= |rows|
      invariant attempts == AllAttempts(template, rows[..i], saveOk)
      invariant i <= FirstFailure(saveOk, 0, |rows|)
    {
      var name, body := FillForSaving(template, rows[i].row);
      var ok := saveOk(i);
      AllAttemptsSnoc(template, rows, saveOk, i);
      attempts := attempts + [SaveAttempt(name, body, ok)];
      if !ok {
        assert FirstFailure(saveOk, 0, |rows|) == i;
        return;
      }
      PastSuccess(saveOk, |rows|, i);
      i := i + 1;
    }
  }

  /** A successful save at `i` puts the first failure past `i`. */
  lemma PastSuccess(saveOk: nat -> bool, n: nat, i: nat)
    requires i < n && i <= FirstFailure(saveOk, 0, n) && saveOk(i)
    ensures i + 1 <= FirstFailure(saveOk, 0, n)
  {
  }

  /**
   * What the run leaves behind: one attempt per row up to and including the
   * first failing save, each for its own row; every attempt but the last
   * succeeded, and a run cut short ends with a failed save.
   */
  lemma IndividualOutcome(template: Body, rows: seq<Labelled>, saveOk: nat -> bool)
    ensures var a := AllAttempts(template, rows[..AttemptsUntilFailure(saveOk, |rows|)], saveOk);
            a == AllAttempts(template, rows, saveOk)[..|a|] &&
            (forall i :: 0 <= i < |a| - 1 ==> a[i].ok) &&
            (|a| < |rows| ==> |a| > 0 && !a[|a| - 1].ok) &&
            (|a| == |rows| <==> forall i :: 0 <= i < |rows| - 1 ==> saveOk(i))
  {
    var c := AttemptsUntilFailure(saveOk, |rows|);
    var a := AllAttempts(template, rows[..c], saveOk);
    AllAttemptsPrefix(template, rows, saveOk, c);
    forall i | 0 <= i < |a| ensures a[i].ok == saveOk(i) {
      AllAttemptsAt(template, rows[..c], saveOk, i);
    }
  }

  /** `generar_individuales` after the folder check: validate, then save each student's file. */
  method GenerateIndividual(sheet: Sheet, template: Body, saveOk: nat -> bool)
    returns (failure: Option<Failure>, attempts: seq<SaveAttempt>)
    ensures Validate(sheet).Err? ==> failure == Some(Validate(sheet).error) && attempts == []
    ensures Validate(sheet).Ok? ==>
              failure == None &&
              attempts == AllAttempts(template, Validate(sheet).value[..AttemptsUntilFailure(saveOk, |Validate(sheet).value|)], saveOk)
  {
    var valid := Validate(sheet);
    if valid.Err? {
      return Some(valid.error), [];
    }
    failure := None;
    attempts := SaveUntilFailure(template, valid.value, saveOk);
  }

  /**
   * The calls `generar_unico` makes on the final document, given each
   * student's filled template in row order: the first one's becomes the
   * document, and each later student adds a page-break call and then an
   * append of its own.
   */
  function GuiEvents(bodies: seq<Body>): (r: seq<Event>)
    requires |bodies| >= 1
    ensures |r| == 2 * |bodies| - 1
  {
    seq(2 * |bodies| - 1, i requires 0 <= i < 2 * |bodies| - 1 =>
      if i == 0 then Base(bodies[0])
      else if i % 2 == 1 then PageBreak
      else Append(i / 2, bodies[i / 2]))
  }

  /** One more student adds a page break and that student's body. */
  lemma GuiEventsSnoc(bodies: seq<Body>, body: Body)
    requires |bodies| >= 1
    ensures GuiEvents(bodies + [body]) == GuiEvents(bodies) + [PageBreak, Append(|bodies|, body)]
  {
    var longer := bodies + [body];
    var a := GuiEvents(longer);
    var b := GuiEvents(bodies) + [PageBreak, Append(|bodies|, body)];
    forall i | 0 <= i < |a| ensures a[i] == b[i] {
      if i < 2 * |bodies| - 1 && i > 0 && i % 2 == 0 {
        assert longer[i / 2] == bodies[i / 2];
      }
    }
  }

  /** The assembly loop of `generar_unico`. */
  method AssembleSingle(template: Body, rows: seq<Labelled>) returns (events: seq<Event>)
    requires |rows| > 0
    ensures events == GuiEvents(PerRunBodies(template, rows))
  {
    var first := FillPerRun(template, rows[0].row);
    var docFinal := new Assembly.Adopt(first);
    ghost var bodies := [first];
    PerRunBodiesSnoc(template, rows, 0);
    assert rows[..0] == [];
    var i := 1;
    while i < |rows|
      invariant 1 <= i <= |rows|
      invariant bodies == PerRunBodies(template, rows[..i])
      invariant docFinal.events == GuiEvents(bodies)
    {
      ghost var before := docFinal.events;
      docFinal.AddPageBreak();
      var body := FillPerRun(template, rows[i].row);
      docFinal.AppendBody(i, body);
      AddTwo(before, PageBreak, Append(i, body));
      PerRunBodiesSnoc(template, rows, i);
      GuiEventsSnoc(bodies, body);
      bodies := bodies + [body];
      i := i + 1;
    }
    events := docFinal.events;
    assert rows[..i] == rows;
  }

  /** `generar_unico` after the folder check: validate, assemble, save once. */
  method GenerateSingle(sheet: Sheet, template: Body, saveOk: bool)
    returns (failure: Option<Failure>, save: Option<ConsolidatedSave>)
    ensures Validate(sheet).Err? ==> failure == Some(Validate(sheet).error) && save == None
    ensures Validate(sheet).Ok? ==>
              failure == None &&
              save == Some(ConsolidatedSave(ConsolidatedName,
                                            GuiEvents(PerRunBodies(template, Validate(sheet).value)),
                                            saveOk))
  {
    var valid := Validate(sheet);
    if valid.Err? {
      return Some(valid.error), None;
    }
    var events := AssembleSingle(template, valid.value);
    failure := None;
    save := Some(ConsolidatedSave(ConsolidatedName, events, saveOk));
  }

  /**
   * `n` students give `n - 1` page-break calls, and the trace appends every
   * student's filled template once, in row order.
   */
  lemma {:induction false} GuiEventsContent(bodies: seq<Body>)
    requires |bodies| >= 1
    ensures CountBreaks(GuiEvents(bodies)) == |bodies| - 1
    ensures Bodies(GuiEvents(bodies)) == bodies
    decreases |bodies|
  {
    var n := |bodies|;
    if n == 1 {
      var e := GuiEvents(bodies);
      assert e == [Base(bodies[0])];
      assert e[..0] == [];
    } else {
      var init := bodies[..n - 1];
      var tail := [PageBreak, Append(n - 1, bodies[n - 1])];
      GuiEventsContent(init);
      assert bodies == init + [bodies[n - 1]];
      GuiEventsSnoc(init, bodies[n - 1]);
      CountBreaksAppend(GuiEvents(init), tail);
      BodiesAppend(GuiEvents(init), tail);
      assert tail[..1] == [PageBreak];
      assert [PageBreak][..0] == [];
    }
  }
}
