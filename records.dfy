/**
 * The spreadsheet side shared by the three scripts: the required columns,
 * the header check, the row filter on the ID-document (cédula) column, the
 * replacement set built from one row, and the output file name.
 */
module Records {
  import opened Wrappers
  import opened Text

  const ColCedula: string := "C\U{C9}DULA DEL ESTUDIANTE"
  const ColId: string := "ID ESTUDIANTE"
  const ColApellidos: string := "APELLIDOS"
  const ColNombres: string := "NOMBRES"
  const ColCarrera: string := "CARRERA"
  const ColTema: string := "TEMA"
  const ColTrib1: string := "TRL1"
  const ColTrib2: string := "TRL2"
  const ColTrib3: string := "TRL3"

  const RequiredColumns: seq<string> :=
    [ColCedula, ColId, ColApellidos, ColNombres, ColCarrera, ColTema, ColTrib1, ColTrib2, ColTrib3]

  /** The template markers, in the order the replacement dicts list them. */
  const Markers: seq<string> := [
    "{{NOMBRE_COMPLETO}}", "{{CEDULA}}", "{{TEMA}}", "{{ID}}", "{{CARRERA}}",
    "{{TRIBUNAL_1}}", "{{TRIBUNAL_2}}", "{{TRIBUNAL_3}}"
  ]

  lemma MarkersNonEmpty()
    ensures forall i :: 0 <= i < |Markers| ==> |Markers[i]| > 0
  {
    assert |Markers| == 8;
    assert |Markers[0]| > 0 && |Markers[1]| > 0 && |Markers[2]| > 0 && |Markers[3]| > 0;
    assert |Markers[4]| > 0 && |Markers[5]| > 0 && |Markers[6]| > 0 && |Markers[7]| > 0;
  }

  /** One spreadsheet row: stripped column name to cell, `None` for an empty (NaN) cell. */
  type Row = map<string, Option<string>>

  /** The sheet as read: raw header texts and the rows below them. */
  datatype Sheet = Sheet(headers: seq<string>, rows: seq<Row>)

  /** A row that survived the filter, with its DataFrame index label (its position in the sheet). */
  datatype Labelled = Labelled(index: nat, row: Row)

  datatype Failure =
    | MissingColumns(columns: seq<string>)  // some required column is not among the stripped headers
    | NoStudents                            // no row has a cédula

  // ---------------------------------------------------------------------------
  // Header check and row filter
  // ---------------------------------------------------------------------------

  /** `df.columns = df.columns.str.strip()` */
  function Columns(sheet: Sheet): seq<string>
  {
    seq(|sheet.headers|, i requires 0 <= i < |sheet.headers| => Strip(sheet.headers[i]))
  }

  /** `[col for col in required if col not in columns]` */
  function Missing(required: seq<string>, columns: seq<string>): (r: seq<string>)
    ensures forall c :: c in r <==> c in required && c !in columns
    ensures |r| <= |required|
  {
    if required == [] then []
    else (if required[0] in columns then [] else [required[0]]) + Missing(required[1..], columns)
  }

  /** `pd.notna(row.get(col))`: the column is there and its cell is not empty. */
  predicate Present(row: Row, col: string)
  {
    col in row && row[col].Some?
  }

  /**
   * `df.dropna(subset=[col])` over `rows`, whose first index label is `base`:
   * the rows whose `col` cell is present, in their order, with their labels.
   */
  function DropNa(rows: seq<Row>, col: string, base: nat): seq<Labelled>
    decreases |rows|
  {
    if rows == [] then []
    else
      var rest := DropNa(rows[1..], col, base + 1);
      if Present(rows[0], col) then [Labelled(base, rows[0])] + rest else rest
  }

  /** Every kept row is a row of the input, under its own label, with its `col` cell present. */
  lemma {:induction false} DropNaSound(rows: seq<Row>, col: string, base: nat)
    ensures forall j :: 0 <= j < |DropNa(rows, col, base)| ==>
              KeptFrom(rows, col, base, DropNa(rows, col, base)[j])
    decreases |rows|
  {
    if rows != [] {
      var rest := DropNa(rows[1..], col, base + 1);
      DropNaSound(rows[1..], col, base + 1);
      forall j | 0 <= j < |rest| ensures KeptFrom(rows, col, base, rest[j]) {
        assert KeptFrom(rows[1..], col, base + 1, rest[j]);
        assert rows[1..][rest[j].index - (base + 1)] == rows[rest[j].index - base];
      }
    }
  }

  /** Kept rows keep their original order: labels strictly increase. */
  lemma {:induction false} DropNaIncreasing(rows: seq<Row>, col: string, base: nat)
    ensures Increasing(DropNa(rows, col, base))
    ensures forall j :: 0 <= j < |DropNa(rows, col, base)| ==> DropNa(rows, col, base)[j].index >= base
    decreases |rows|
  {
    if rows != [] {
      DropNaIncreasing(rows[1..], col, base + 1);
    }
  }

  /** Every row whose `col` cell is present is kept. */
  lemma {:induction false} DropNaComplete(rows: seq<Row>, col: string, base: nat, i: nat)
    requires i < |rows| && Present(rows[i], col)
    ensures exists j :: 0 <= j < |DropNa(rows, col, base)| && DropNa(rows, col, base)[j].index == base + i
    decreases |rows|
  {
    var rest := DropNa(rows[1..], col, base + 1);
    if i == 0 {
      assert DropNa(rows, col, base)[0].index == base;
    } else {
      assert rows[1..][i - 1] == rows[i];
      DropNaComplete(rows[1..], col, base + 1, i - 1);
      var j :| 0 <= j < |rest| && rest[j].index == base + i;
      if Present(rows[0], col) {
        assert DropNa(rows, col, base)[j + 1] == rest[j];
      } else {
        assert DropNa(rows, col, base) == rest;
      }
    }
  }

  /** The first kept row carries the first label exactly when the first row has its `col` cell. */
  lemma DropNaFirstLabel(rows: seq<Row>, col: string, base: nat)
    requires |DropNa(rows, col, base)| > 0
    ensures DropNa(rows, col, base)[0].index == base <==> Present(rows[0], col)
  {
    if !Present(rows[0], col) {
      DropNaIncreasing(rows[1..], col, base + 1);
    }
  }

  /** `kept` is row `kept.index - base` of `rows`, and its `col` cell is present. */
  predicate KeptFrom(rows: seq<Row>, col: string, base: nat, kept: Labelled)
  {
    base <= kept.index < base + |rows| && kept.row == rows[kept.index - base] && Present(kept.row, col)
  }

  /**
   * `leer_y_validar_excel` after the sheet is read (and the same steps in the
   * two batch scripts): a missing required column stops the run and names
   * every missing column; otherwise the rows with a cédula are kept, and
   * having none stops the run too.
   */
  function Validate(sheet: Sheet): (r: Result<seq<Labelled>, Failure>)
    ensures r.Err? && r.error.MissingColumns? <==>
              exists c :: c in RequiredColumns && c !in Columns(sheet)
    ensures r.Err? && r.error.MissingColumns? ==>
              r.error.columns == Missing(RequiredColumns, Columns(sheet)) && r.error.columns != []
    ensures r.Ok? <==>
              (forall c :: c in RequiredColumns ==> c in Columns(sheet))
              && exists i :: 0 <= i < |sheet.rows| && Present(sheet.rows[i], ColCedula)
    ensures r.Ok? ==> r.value == DropNa(sheet.rows, ColCedula, 0) && |r.value| > 0
  {
    var missing := Missing(RequiredColumns, Columns(sheet));
    if missing != [] then
      assert missing[0] in missing;
      Err(MissingColumns(missing))
    else
      var valid := DropNa(sheet.rows, ColCedula, 0);
      DropNaSound(sheet.rows, ColCedula, 0);
      if valid == [] then
        assert forall i :: 0 <= i < |sheet.rows| ==> !Present(sheet.rows[i], ColCedula) by {
          forall i | 0 <= i < |sheet.rows| && Present(sheet.rows[i], ColCedula) ensures false {
            DropNaComplete(sheet.rows, ColCedula, 0, i);
          }
        }
        Err(NoStudents)
      else
        assert KeptFrom(sheet.rows, ColCedula, 0, valid[0]);
        Ok(valid)
  }

  /** Labels strictly increase, as they do for every result of `DropNa`. */
  predicate Increasing(rows: seq<Labelled>)
  {
    forall j, j' :: 0 <= j < j' < |rows| ==> rows[j].index < rows[j'].index
  }

  /** Every valid row, and nothing else, is kept: the kept count is the count of rows with a cédula. */
  lemma {:induction false} DropNaCount(rows: seq<Row>, col: string, base: nat)
    ensures |DropNa(rows, col, base)| == CountPresent(rows, col)
    decreases |rows|
  {
    if rows != [] {
      DropNaCount(rows[1..], col, base + 1);
    }
  }

  function CountPresent(rows: seq<Row>, col: string): nat
  {
    if rows == [] then 0 else (if Present(rows[0], col) then 1 else 0) + CountPresent(rows[1..], col)
  }

  // ---------------------------------------------------------------------------
  // The replacement set built from one row
  // ---------------------------------------------------------------------------

  /** `row.get(col, '')` */
  function Get(row: Row, col: string): Option<string>
  {
    if col in row then row[col] else Some("")
  }

  /** `str(x)` / an f-string slot: an empty cell is the float NaN, which renders as "nan". */
  function Render(cell: Option<string>): string
  {
    match cell
    case Some(s) => s
    case None => "nan"
  }

  /** `f"{nombres} {apellidos}".strip()` */
  function FullName(row: Row): string
  {
    Strip(Render(Get(row, ColNombres)) + " " + Render(Get(row, ColApellidos)))
  }

  /** `str(row.get(col, '')).strip()` */
  function TrimmedField(row: Row, col: string): string
  {
    Strip(Render(Get(row, col)))
  }

  /** `str(row.get(col, '')).strip().capitalize()` */
  function Topic(row: Row): string
  {
    Capitalize(TrimmedField(row, ColTema))
  }

  /** `str(row.get(col, '')) if pd.notna(row.get(col)) else ""` */
  function CommitteeMember(row: Row, col: string): string
  {
    if Present(row, col) then row[col].value else ""
  }

  /** The eight marker/value pairs, in the order the dict literals list them. */
  function Pairs(v0: string, v1: string, v2: string, v3: string,
                 v4: string, v5: string, v6: string, v7: string): (m: Mapping)
    ensures |m| == |Markers| && ValidMapping(m)
    ensures forall i :: 0 <= i < |m| ==> m[i].0 == Markers[i]
    ensures m[0].1 == v0 && m[1].1 == v1 && m[2].1 == v2 && m[3].1 == v3
    ensures m[4].1 == v4 && m[5].1 == v5 && m[6].1 == v6 && m[7].1 == v7
  {
    MarkersNonEmpty();
    [ (Markers[0], v0), (Markers[1], v1), (Markers[2], v2), (Markers[3], v3),
      (Markers[4], v4), (Markers[5], v5), (Markers[6], v6), (Markers[7], v7) ]
  }

  /** The `replacements` dict of main_gui.py and app.py. */
  function Replacements(row: Row): (m: Mapping)
    ensures |m| == |Markers| && ValidMapping(m)
    ensures forall i :: 0 <= i < |m| ==> m[i].0 == Markers[i]
  {
    Pairs(FullName(row), TrimmedField(row, ColCedula), Topic(row), TrimmedField(row, ColId),
          TrimmedField(row, ColCarrera), CommitteeMember(row, ColTrib1),
          CommitteeMember(row, ColTrib2), CommitteeMember(row, ColTrib3))
  }

  /** Every required column is a key of the row, so `row[col]` cannot fail. */
  predicate HasRequired(row: Row)
  {
    forall c :: c in RequiredColumns ==> c in row
  }

  /** The `ctx` dict of app_unidoc.py: the same fields read with `row[col]`. */
  function Ctx(row: Row): (m: Mapping)
    requires HasRequired(row)
    ensures m == Replacements(row)
  {
    assert ColNombres in RequiredColumns && ColApellidos in RequiredColumns && ColCedula in RequiredColumns;
    assert ColTema in RequiredColumns && ColId in RequiredColumns && ColCarrera in RequiredColumns;
    assert ColTrib1 in RequiredColumns && ColTrib2 in RequiredColumns && ColTrib3 in RequiredColumns;
    Pairs(Strip(Render(row[ColNombres]) + " " + Render(row[ColApellidos])),
          Strip(Render(row[ColCedula])),
          Capitalize(Strip(Render(row[ColTema]))),
          Strip(Render(row[ColId])),
          Strip(Render(row[ColCarrera])),
          if row[ColTrib1].Some? then row[ColTrib1].value else "",
          if row[ColTrib2].Some? then row[ColTrib2].value else "",
          if row[ColTrib3].Some? then row[ColTrib3].value else "")
  }

  /** The full name and the plain fields carry no surrounding whitespace. */
  lemma ReplacementsTrimmed(row: Row)
    ensures Trimmed(Replacements(row)[0].1) && Trimmed(Replacements(row)[1].1)
    ensures Trimmed(Replacements(row)[3].1) && Trimmed(Replacements(row)[4].1)
  {
    var m := Replacements(row);
    assert m[0].1 == FullName(row) && m[1].1 == TrimmedField(row, ColCedula);
    assert m[3].1 == TrimmedField(row, ColId) && m[4].1 == TrimmedField(row, ColCarrera);
  }

  /** The topic is the stripped field with its first letter upper-cased and the rest lower-cased. */
  lemma ReplacementsTopic(row: Row)
    ensures |Replacements(row)[2].1| == |TrimmedField(row, ColTema)|
    ensures |TrimmedField(row, ColTema)| > 0 ==>
              Replacements(row)[2].1[0] == Upper(TrimmedField(row, ColTema)[0])
    ensures forall i :: 1 <= i < |TrimmedField(row, ColTema)| ==>
              Replacements(row)[2].1[i] == Lower(TrimmedField(row, ColTema)[i])
  {
    assert Replacements(row)[2].1 == Capitalize(TrimmedField(row, ColTema));
  }

  /**
   * A committee member is "" when the cell is missing or empty and the cell
   * text, unstripped, otherwise.
   */
  lemma ReplacementsCommittee(row: Row)
    ensures Replacements(row)[5].1 == if ColTrib1 in row && row[ColTrib1].Some? then row[ColTrib1].value else ""
    ensures Replacements(row)[6].1 == if ColTrib2 in row && row[ColTrib2].Some? then row[ColTrib2].value else ""
    ensures Replacements(row)[7].1 == if ColTrib3 in row && row[ColTrib3].Some? then row[ColTrib3].value else ""
  {
    var m := Replacements(row);
    assert m[5].1 == CommitteeMember(row, ColTrib1);
    assert m[6].1 == CommitteeMember(row, ColTrib2);
    assert m[7].1 == CommitteeMember(row, ColTrib3);
  }

  /**
   * The full name joins given name and surname with one space: two trimmed,
   * non-empty parts are kept as they are, and an empty given name leaves the
   * stripped surname.
   */
  lemma FullNameJoin(row: Row, nombres: string, apellidos: string)
    requires ColNombres in row && row[ColNombres] == Some(nombres)
    requires ColApellidos in row && row[ColApellidos] == Some(apellidos)
    ensures nombres != [] && apellidos != [] && Trimmed(nombres) && Trimmed(apellidos) ==>
              FullName(row) == nombres + " " + apellidos
    ensures nombres == [] ==> FullName(row) == Strip(apellidos)
  {
    if nombres != [] && apellidos != [] && Trimmed(nombres) && Trimmed(apellidos) {
      var s := nombres + " " + apellidos;
      assert s[0] == nombres[0] && s[|s| - 1] == apellidos[|apellidos| - 1];
      StripTrimmed(s);
    }
    if nombres == [] {
      assert nombres + " " + apellidos == [' '] + apellidos;
      StripLeadingSpace(apellidos);
    }
  }

  lemma StripLeadingSpace(s: string)
    ensures Strip([' '] + s) == Strip(s)
  {
    assert ([' '] + s)[1..] == s;
  }

  // ---------------------------------------------------------------------------
  // Output file name
  // ---------------------------------------------------------------------------

  const FilePrefix: string := "Notificacion_"
  const FileSuffix: string := ".docx"

  /** `re.sub(r'[^a-zA-Z0-9_\.]', '_', f"Notificacion_{full_name}.docx")` */
  function FileName(fullName: string): string
  {
    Sanitize(FilePrefix + fullName + FileSuffix)
  }

  /**
   * The file name has the length of the unsanitised name, only safe
   * characters, keeps every safe character of the full name in place, and
   * still starts with `Notificacion_` and ends with `.docx`.
   */
  lemma FileNameShape(fullName: string)
    ensures |FileName(fullName)| == |FilePrefix| + |fullName| + |FileSuffix|
    ensures forall i :: 0 <= i < |FileName(fullName)| ==> Allowed(FileName(fullName)[i])
    ensures FileName(fullName)[..|FilePrefix|] == FilePrefix
    ensures FileName(fullName)[|FilePrefix| + |fullName|..] == FileSuffix
    ensures forall i :: 0 <= i < |fullName| && Allowed(fullName[i]) ==>
              FileName(fullName)[|FilePrefix| + i] == fullName[i]
  {
    var raw := FilePrefix + fullName + FileSuffix;
    var r := FileName(fullName);
    forall i | 0 <= i < |FilePrefix| ensures r[i] == FilePrefix[i] {
      assert raw[i] == FilePrefix[i];
      assert Allowed(FilePrefix[i]);
    }
    forall i | 0 <= i < |FileSuffix| ensures r[|FilePrefix| + |fullName| + i] == FileSuffix[i] {
      assert raw[|FilePrefix| + |fullName| + i] == FileSuffix[i];
      assert Allowed(FileSuffix[i]);
    }
    forall i | 0 <= i < |fullName| ensures raw[|FilePrefix| + i] == fullName[i] {
    }
  }

  /** Sanitising a second time changes nothing. */
  lemma SanitizeIdempotent(s: string)
    ensures Sanitize(Sanitize(s)) == Sanitize(s)
  {
  }

  /** Different full names can share a file name: accents and spaces all become `_`. */
  lemma FileNamesCollide()
    ensures "Jos\U{E9} Ruiz" != "Jos_ Ruiz"
    ensures FileName("Jos\U{E9} Ruiz") == FileName("Jos_ Ruiz")
  {
    assert ("Jos\U{E9} Ruiz")[3] != ("Jos_ Ruiz")[3];
  }
}
