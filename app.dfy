/**
 * The batch script `app.py`: validate the sheet, then fill and save one
 * document per student. A failed save is reported and the loop goes on with
 * the next student; the closing message always counts every student.
 */
module App {
  import opened Wrappers
  import opened Docx
  import opened Records
  import opened Output

  /** The save loop of `main`: every row gets one attempt, whatever happened to the ones before. */
  method SaveAll(template: Body, rows: seq<Labelled>, saveOk: nat -> bool)
    returns (attempts: seq<SaveAttempt>)
    ensures attempts == AllAttempts(template, rows, saveOk)
  {
    attempts := [];
    var i := 0;
    while i < |rows|
      invariant 0 <= i <= |rows|
      invariant attempts == AllAttempts(template, rows[..i], saveOk)
    {
      var name, body := FillForSaving(template, rows[i].row);
      var ok := saveOk(i);
      AllAttemptsSnoc(template, rows, saveOk, i);
      attempts := attempts + [SaveAttempt(name, body, ok)];
      i := i + 1;
    }
    assert rows[..i] == rows;
  }

  /**
   * `main` after the input files were found and read. Missing columns exit
   * with status 1 before any document is built; no student with a cédula
   * returns normally with nothing generated; otherwise every student gets a
   * save attempt and the final message reports the number of students.
   */
  method Run(sheet: Sheet, template: Body, saveOk: nat -> bool)
    returns (status: nat, attempts: seq<SaveAttempt>, reported: Option<nat>)
    ensures Validate(sheet).Err? && Validate(sheet).error.MissingColumns? ==>
              status == 1 && attempts == [] && reported == None
    ensures Validate(sheet).Err? && Validate(sheet).error.NoStudents? ==>
              status == 0 && attempts == [] && reported == None
    ensures Validate(sheet).Ok? ==>
              status == 0 &&
              attempts == AllAttempts(template, Validate(sheet).value, saveOk) &&
              reported == Some(|Validate(sheet).value|)
  {
    var valid := Validate(sheet);
    if valid.Err? {
      status := if valid.error.MissingColumns? then 1 else 0;
      return status, [], None;
    }
    attempts := SaveAll(template, valid.value, saveOk);
    status := 0;
    reported := Some(|valid.value|);
  }

  /**
   * The closing message counts every student, which is never fewer than
   * the documents actually saved, and equals that number exactly when
   * every save succeeded.
   */
  lemma ReportedCount(template: Body, rows: seq<Labelled>, saveOk: nat -> bool)
    ensures var a := AllAttempts(template, rows, saveOk);
            CountSaved(a) <= |rows| &&
            (CountSaved(a) == |rows| <==> forall i :: 0 <= i < |rows| ==> saveOk(i))
  {
    var a := AllAttempts(template, rows, saveOk);
    CountSavedBound(a);
    forall i | 0 <= i < |rows| ensures a[i].ok == saveOk(i) {
      AllAttemptsAt(template, rows, saveOk, i);
    }
  }

  /**
   * Against the graphical front end: its attempts are the first ones this
   * script makes, and the two make the same attempts exactly when no save
   * but possibly the last one fails.
   */
  lemma GuiStopsWhereBatchGoesOn(template: Body, rows: seq<Labelled>, saveOk: nat -> bool)
    ensures var gui := AllAttempts(template, rows[..AttemptsUntilFailure(saveOk, |rows|)], saveOk);
            var batch := AllAttempts(template, rows, saveOk);
            gui == batch[..|gui|] &&
            (gui == batch <==> forall i :: 0 <= i < |rows| - 1 ==> saveOk(i))
  {
    var c := AttemptsUntilFailure(saveOk, |rows|);
    AllAttemptsPrefix(template, rows, saveOk, c);
    var batch := AllAttempts(template, rows, saveOk);
    if c < |rows| {
      assert |batch[..c]| != |batch|;
    } else {
      assert batch[..c] == batch;
    }
  }
}
