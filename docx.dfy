/**
 * The token merge engine over a document's text. A paragraph is its runs'
 * texts in order; a table holds rows of cells of paragraphs; a document body
 * is a sequence of paragraphs and tables. Two substitution strategies are
 * modelled: the per-run one of `reemplazar_texto` (main_gui.py, app.py) and the
 * merge-then-replace one of `merge_runs` + `replace_markers` (app_unidoc.py).
 */
module Docx {
  import opened Text

  /** A paragraph: the texts of its runs, in order. */
  type Para = seq<string>
  type Cell = seq<Para>
  type TableRow = seq<Cell>

  datatype Block = Paragraph(runs: Para) | Table(rows: seq<TableRow>)

  type Body = seq<Block>

  /** Which substitution routine rewrites the paragraphs. */
  datatype Strategy =
    | PerRun      // reemplazar_texto: str.replace on every run separately
    | MergeFirst  // merge_runs, then replace on the whole paragraph text

  // ---------------------------------------------------------------------------
  // What each strategy makes of one paragraph
  // ---------------------------------------------------------------------------

  /** Each run rewritten on its own, every key in mapping order. */
  function Runwise(p: Para, m: Mapping): Para
    requires ValidMapping(m)
  {
    seq(|p|, i requires 0 <= i < |p| => FoldReplace(p[i], m))
  }

  /** The paragraph's joined text rewritten, in a single run (no run if there was none). */
  function Merged(p: Para, m: Mapping): Para
    requires ValidMapping(m)
  {
    if p == [] then [] else [FoldReplace(Concat(p), m)]
  }

  function FillPara(s: Strategy, p: Para, m: Mapping): Para
    requires ValidMapping(m)
  {
    match s
    case PerRun => Runwise(p, m)
    case MergeFirst => Merged(p, m)
  }

  /** `run.text.replace(k, v)` on every run. */
  function ReplaceEach(p: Para, k: string, v: string): Para
    requires |k| > 0
  {
    seq(|p|, i requires 0 <= i < |p| => ReplaceAll(p[i], k, v))
  }

  // ---------------------------------------------------------------------------
  // What each strategy makes of a whole body
  // ---------------------------------------------------------------------------

  function FillParas(s: Strategy, ps: seq<Para>, m: Mapping): seq<Para>
    requires ValidMapping(m)
  {
    seq(|ps|, i requires 0 <= i < |ps| => FillPara(s, ps[i], m))
  }

  function FillRow(s: Strategy, row: TableRow, m: Mapping): TableRow
    requires ValidMapping(m)
  {
    seq(|row|, c requires 0 <= c < |row| => FillParas(s, row[c], m))
  }

  function FillRows(s: Strategy, rows: seq<TableRow>, m: Mapping): seq<TableRow>
    requires ValidMapping(m)
  {
    seq(|rows|, r requires 0 <= r < |rows| => FillRow(s, rows[r], m))
  }

  function FillBlock(s: Strategy, b: Block, m: Mapping): Block
    requires ValidMapping(m)
  {
    match b
    case Paragraph(p) => Paragraph(FillPara(s, p, m))
    case Table(rows) => Table(FillRows(s, rows, m))
  }

  function FillBody(s: Strategy, body: Body, m: Mapping): Body
    requires ValidMapping(m)
  {
    seq(|body|, i requires 0 <= i < |body| => FillBlock(s, body[i], m))
  }

  // ---------------------------------------------------------------------------
  // Every paragraph of a body, in document order
  // ---------------------------------------------------------------------------

  function CellsParas(cells: seq<Cell>): seq<Para>
  {
    if cells == [] then [] else cells[0] + CellsParas(cells[1..])
  }

  function RowsParas(rows: seq<TableRow>): seq<Para>
  {
    if rows == [] then [] else CellsParas(rows[0]) + RowsParas(rows[1..])
  }

  function BlockParas(b: Block): seq<Para>
  {
    match b
    case Paragraph(p) => [p]
    case Table(rows) => RowsParas(rows)
  }

  /** The top-level paragraphs and the paragraphs of every table cell. */
  function ParasOf(body: Body): seq<Para>
  {
    if body == [] then [] else BlockParas(body[0]) + ParasOf(body[1..])
  }

  /** The visible text of every paragraph, in document order. */
  function Texts(body: Body): seq<string>
  {
    var ps := ParasOf(body);
    seq(|ps|, i requires 0 <= i < |ps| => Concat(ps[i]))
  }

  /** Same blocks, same table dimensions, same number of paragraphs per cell. */
  predicate SameLayout(b1: Body, b2: Body)
  {
    |b1| == |b2| &&
    forall i :: 0 <= i < |b1| ==>
      match b1[i]
      case Paragraph(_) => b2[i].Paragraph?
      case Table(rows) =>
        b2[i].Table? && |rows| == |b2[i].rows| &&
        forall r :: 0 <= r < |rows| ==>
          |rows[r]| == |b2[i].rows[r]| &&
          forall c :: 0 <= c < |rows[r]| ==> |rows[r][c]| == |b2[i].rows[r][c]|
  }

  // ---------------------------------------------------------------------------
  // The paragraph-level routines, as the source runs them
  // ---------------------------------------------------------------------------

  /** `for run in p.runs: run.text = run.text.replace(k, v)` */
  method ReplaceRuns(p: Para, k: string, v: string) returns (q: Para)
    requires |k| > 0
    ensures q == ReplaceEach(p, k, v)
  {
    q := p;
    var i := 0;
    while i < |q|
      invariant 0 <= i <= |q| == |p|
      invariant forall j :: 0 <= j < i ==> q[j] == ReplaceAll(p[j], k, v)
      invariant forall j :: i <= j < |p| ==> q[j] == p[j]
    {
      q := q[i := ReplaceAll(q[i], k, v)];
      i := i + 1;
    }
  }

  /**
   * The body of `reemplazar_texto` for one paragraph: for each key, in
   * mapping order, when the key occurs in the paragraph's joined text, replace
   * it inside every run separately.
   */
  method ReplacePerRun(p: Para, m: Mapping) returns (q: Para)
    requires ValidMapping(m)
    ensures |q| == |p|
    ensures forall i :: 0 <= i < |p| ==> q[i] == FoldReplace(p[i], m)
  {
    q := p;
    var j := 0;
    while j < |m|
      invariant 0 <= j <= |m|
      invariant q == Runwise(p, m[..j])
    {
      var k, v := m[j].0, m[j].1;
      assert m[..j + 1] == m[..j] + [(k, v)];
      if Contains(Concat(q), k) {
        q := ReplaceRuns(q, k, v);
      } else {
        GuardIsRedundant(q, k, v);
      }
      forall i | 0 <= i < |p| ensures q[i] == FoldReplace(p[i], m[..j + 1]) {
        FoldReplaceSnoc(p[i], m[..j], k, v);
      }
      j := j + 1;
    }
    assert m[..|m|] == m;
  }

  /**
   * `merge_runs`: a paragraph with at most one run is left alone; otherwise
   * run 1 is removed `len(runs) - 1` times and run 0 takes the joined text.
   */
  method MergeRuns(p: Para) returns (q: Para)
    ensures |p| <= 1 ==> q == p
    ensures |p| >= 2 ==> |q| == 1
    ensures Concat(q) == Concat(p)
  {
    if |p| <= 1 {
      return p;
    }
    var txt := Concat(p);
    q := p;
    var n := |p| - 1;
    var i := 0;
    while i < n
      invariant 0 <= i <= n
      invariant q == [p[0]] + p[i + 1..]
    {
      q := [q[0]] + q[2..];
      i := i + 1;
    }
    q := q[0 := txt];
    ConcatSingle(txt);
  }

  /**
   * The body of `replace_markers` for one paragraph: merge the runs, then for
   * each key in mapping order, when it occurs in the paragraph text, set the
   * text to the replaced one (python-docx leaves a single run behind).
   */
  method ReplaceMarkersInPara(p: Para, m: Mapping) returns (q: Para)
    requires ValidMapping(m)
    ensures p == [] ==> q == []
    ensures p != [] ==> q == [FoldReplace(Concat(p), m)]
  {
    q := MergeRuns(p);
    if |p| == 1 {
      ConcatSingle(p[0]);
      assert p == [p[0]];
    } else if |p| >= 2 {
      ConcatSingle(q[0]);
      assert q == [q[0]];
    }
    var j := 0;
    while j < |m|
      invariant 0 <= j <= |m|
      invariant q == Merged(p, m[..j])
    {
      var k, v := m[j].0, m[j].1;
      assert m[..j + 1] == m[..j] + [(k, v)];
      FoldReplaceSnoc(Concat(p), m[..j], k, v);
      var text := Concat(q);
      if p != [] {
        ConcatSingle(FoldReplace(Concat(p), m[..j]));
      }
      if Contains(text, k) {
        q := [ReplaceAll(text, k, v)];
      } else if p != [] {
        ReplaceAllAbsent(text, k, v);
      }
      j := j + 1;
    }
    assert m[..|m|] == m;
  }

  /** One paragraph, by the routine the strategy names. */
  method FillParagraph(s: Strategy, p: Para, m: Mapping) returns (q: Para)
    requires ValidMapping(m)
    ensures q == FillPara(s, p, m)
  {
    match s
    case PerRun =>
      q := ReplacePerRun(p, m);
    case MergeFirst =>
      q := ReplaceMarkersInPara(p, m);
  }

  /** `for row in table.rows: for cell in row.cells: for p in cell.paragraphs: ...` */
  method FillTable(s: Strategy, rows: seq<TableRow>, m: Mapping) returns (out: seq<TableRow>)
    requires ValidMapping(m)
    ensures out == FillRows(s, rows, m)
  {
    out := rows;
    var r := 0;
    while r < |rows|
      invariant 0 <= r <= |rows| == |out|
      invariant forall j :: 0 <= j < r ==> out[j] == FillRow(s, rows[j], m)
      invariant forall j :: r <= j < |rows| ==> out[j] == rows[j]
    {
      var row := rows[r];
      var c := 0;
      while c < |row|
        invariant 0 <= c <= |row| == |rows[r]|
        invariant forall j :: 0 <= j < c ==> row[j] == FillParas(s, rows[r][j], m)
        invariant forall j :: c <= j < |row| ==> row[j] == rows[r][j]
      {
        var cell := row[c];
        var k := 0;
        while k < |cell|
          invariant 0 <= k <= |cell| == |rows[r][c]|
          invariant forall j :: 0 <= j < k ==> cell[j] == FillPara(s, rows[r][c][j], m)
          invariant forall j :: k <= j < |cell| ==> cell[j] == rows[r][c][j]
        {
          var q := FillParagraph(s, cell[k], m);
          cell := cell[k := q];
          k := k + 1;
        }
        row := row[c := cell];
        c := c + 1;
      }
      out := out[r := row];
      r := r + 1;
    }
  }

  /** A loaded template document, rewritten in place by the merge routines. */
  class Document {
    var body: Body

    /** `Document(TEMPLATE_DOCX)`: a fresh copy of the template's body. */
    constructor Load(template: Body)
      ensures body == template
    {
      body := template;
    }

    /** `reemplazar_texto(doc, replacements)` */
    method ReplaceText(m: Mapping)
      requires ValidMapping(m)
      modifies this
      ensures body == FillBody(PerRun, old(body), m)
    {
      Fill(PerRun, m);
    }

    /** `replace_markers(doc, mapping)` */
    method ReplaceMarkers(m: Mapping)
      requires ValidMapping(m)
      modifies this
      ensures body == FillBody(MergeFirst, old(body), m)
    {
      Fill(MergeFirst, m);
    }

    /** Top-level paragraphs first, then every table; each paragraph by the strategy. */
    method Fill(s: Strategy, m: Mapping)
      requires ValidMapping(m)
      modifies this
      ensures body == FillBody(s, old(body), m)
    {
      var i := 0;
      while i < |body|
        invariant 0 <= i <= |body| == |old(body)|
        invariant forall j :: 0 <= j < |body| ==>
          body[j] == if j < i && old(body)[j].Paragraph? then FillBlock(s, old(body)[j], m) else old(body)[j]
      {
        if body[i].Paragraph? {
          var q := FillParagraph(s, body[i].runs, m);
          body := body[i := Paragraph(q)];
        }
        i := i + 1;
      }
      i := 0;
      while i < |body|
        invariant 0 <= i <= |body| == |old(body)|
        invariant forall j :: 0 <= j < |body| ==>
          body[j] == if j < i || old(body)[j].Paragraph? then FillBlock(s, old(body)[j], m) else old(body)[j]
      {
        if body[i].Table? {
          var t := FillTable(s, body[i].rows, m);
          body := body[i := Table(t)];
        }
        i := i + 1;
      }
    }
  }

  // ---------------------------------------------------------------------------
  // Properties of one paragraph
  // ---------------------------------------------------------------------------

  /** Whether `k` occurs in the joined text decides nothing: per-run replacement
      with the presence check is replacement in every run. */
  lemma GuardIsRedundant(p: Para, k: string, v: string)
    requires |k| > 0 && !Contains(Concat(p), k)
    ensures ReplaceEach(p, k, v) == p
  {
    forall i | 0 <= i < |p| ensures ReplaceAll(p[i], k, v) == p[i] {
      if Contains(p[i], k) {
        ContainsInConcat(p, i, k);
      }
      ReplaceAllAbsent(p[i], k, v);
    }
  }

  /** A paragraph in which no key occurs keeps every run as it was. */
  lemma {:induction false} PerRunUntouched(p: Para, m: Mapping)
    requires ValidMapping(m)
    requires forall j :: 0 <= j < |m| ==> !Contains(Concat(p), m[j].0)
    ensures Runwise(p, m) == p
  {
    forall i | 0 <= i < |p| ensures FoldReplace(p[i], m) == p[i] {
      forall j | 0 <= j < |m| ensures !Contains(p[i], m[j].0) {
        if Contains(p[i], m[j].0) {
          ContainsInConcat(p, i, m[j].0);
        }
      }
      FoldReplaceAbsent(p[i], m);
    }
  }

  /** Merge-then-replace: the visible text is the joined text with every key
      replaced in mapping order, and at most one run is left. */
  lemma MergedText(p: Para, m: Mapping)
    requires ValidMapping(m)
    ensures |Merged(p, m)| == if p == [] then 0 else 1
    ensures Concat(Merged(p, m)) == FoldReplace(Concat(p), m)
  {
    if p == [] {
      FoldReplaceEmpty(m);
    } else {
      ConcatSingle(FoldReplace(Concat(p), m));
    }
  }

  /** Merge-then-replace leaves the visible text of a paragraph without keys as it was. */
  lemma MergedUntouched(p: Para, m: Mapping)
    requires ValidMapping(m)
    requires forall j :: 0 <= j < |m| ==> !Contains(Concat(p), m[j].0)
    ensures Concat(Merged(p, m)) == Concat(p)
  {
    MergedText(p, m);
    FoldReplaceAbsent(Concat(p), m);
  }

  /** No occurrence of `k` in the joined text crosses a run boundary. */
  predicate NoCrossRuns(p: Para, k: string)
  {
    |p| <= 1 || (NoStraddle(p[0], Concat(p[1..]), k) && NoCrossRuns(p[1..], k))
  }

  /** No key, at the moment per-run replacement looks for it, crosses a run boundary. */
  predicate NoMarkerCrosses(p: Para, m: Mapping)
    requires ValidMapping(m)
    decreases |m|
  {
    m == [] ||
    (NoCrossRuns(p, m[0].0) && NoMarkerCrosses(ReplaceEach(p, m[0].0, m[0].1), m[1..]))
  }

  /** Replacing in every run and joining equals joining and replacing, when no
      occurrence crosses a run boundary. */
  lemma {:induction false} ReplaceEachConcat(p: Para, k: string, v: string)
    requires |k| > 0 && NoCrossRuns(p, k)
    ensures Concat(ReplaceEach(p, k, v)) == ReplaceAll(Concat(p), k, v)
    decreases |p|
  {
    if p == [] {
    } else if |p| == 1 {
      ConcatSingle(p[0]);
      ConcatSingle(ReplaceAll(p[0], k, v));
      assert p == [p[0]];
      assert ReplaceEach(p, k, v) == [ReplaceAll(p[0], k, v)];
    } else {
      assert ReplaceEach(p, k, v)[1..] == ReplaceEach(p[1..], k, v);
      ReplaceEachConcat(p[1..], k, v);
      ReplaceAllSplit(p[0], Concat(p[1..]), k, v);
    }
  }

  /**
   * When no marker crosses a run boundary, per-run replacement and
   * merge-then-replace give the paragraph the same visible text.
   */
  lemma {:induction false} StrategiesAgree(p: Para, m: Mapping)
    requires ValidMapping(m) && NoMarkerCrosses(p, m)
    ensures Concat(Runwise(p, m)) == FoldReplace(Concat(p), m)
    ensures Concat(Runwise(p, m)) == Concat(Merged(p, m))
    decreases |m|
  {
    MergedText(p, m);
    if m == [] {
      assert Runwise(p, m) == p;
    } else {
      var k, v := m[0].0, m[0].1;
      var p1 := ReplaceEach(p, k, v);
      assert Runwise(p, m) == Runwise(p1, m[1..]);
      ReplaceEachConcat(p, k, v);
      StrategiesAgree(p1, m[1..]);
      assert FoldReplace(Concat(p), m) == FoldReplace(Concat(p1), m[1..]);
    }
  }

  /**
   * A marker split over two runs: per-run replacement leaves both runs as
   * they were, merge-then-replace turns the paragraph into the value.
   */
  lemma SplitMarker(a: string, b: string, v: string)
    requires |a| > 0 && |b| > 0
    ensures ValidMapping([(a + b, v)])
    ensures Runwise([a, b], [(a + b, v)]) == [a, b]
    ensures Merged([a, b], [(a + b, v)]) == [v]
  {
    var k := a + b;
    var m := [(k, v)];
    assert FoldReplace(a, m) == ReplaceAll(a, k, v);
    assert FoldReplace(b, m) == ReplaceAll(b, k, v);
    assert Concat([a, b]) == k by {
      assert Concat([a, b]) == a + Concat([b]);
      assert Concat([b]) == b + Concat([]);
    }
    assert ReplaceAll(a, k, v) == a && ReplaceAll(b, k, v) == b;
    assert Runwise([a, b], m) == [a, b];
    assert k[..|k|] == k && k[|k|..] == [];
    assert ReplaceAll(k, k, v) == v + ReplaceAll([], k, v);
    assert FoldReplace(k, m) == v;
  }

  // ---------------------------------------------------------------------------
  // Properties of a whole body
  // ---------------------------------------------------------------------------

  lemma FillParasAppend(s: Strategy, a: seq<Para>, b: seq<Para>, m: Mapping)
    requires ValidMapping(m)
    ensures FillParas(s, a + b, m) == FillParas(s, a, m) + FillParas(s, b, m)
  {
  }

  lemma {:induction false} CellsParasFill(s: Strategy, cells: seq<Cell>, m: Mapping)
    requires ValidMapping(m)
    ensures CellsParas(FillRow(s, cells, m)) == FillParas(s, CellsParas(cells), m)
    decreases |cells|
  {
    if cells != [] {
      assert FillRow(s, cells, m)[1..] == FillRow(s, cells[1..], m);
      CellsParasFill(s, cells[1..], m);
      FillParasAppend(s, cells[0], CellsParas(cells[1..]), m);
    }
  }

  lemma {:induction false} RowsParasFill(s: Strategy, rows: seq<TableRow>, m: Mapping)
    requires ValidMapping(m)
    ensures RowsParas(FillRows(s, rows, m)) == FillParas(s, RowsParas(rows), m)
    decreases |rows|
  {
    if rows != [] {
      assert FillRows(s, rows, m)[1..] == FillRows(s, rows[1..], m);
      RowsParasFill(s, rows[1..], m);
      CellsParasFill(s, rows[0], m);
      FillParasAppend(s, CellsParas(rows[0]), RowsParas(rows[1..]), m);
    }
  }

  /**
   * Every paragraph, top-level or inside a table cell, gets exactly the same
   * treatment: the body's paragraphs after filling are its paragraphs before,
   * each filled.
   */
  lemma {:induction false} ParasOfFill(s: Strategy, body: Body, m: Mapping)
    requires ValidMapping(m)
    ensures ParasOf(FillBody(s, body, m)) == FillParas(s, ParasOf(body), m)
    decreases |body|
  {
    if body != [] {
      assert FillBody(s, body, m)[1..] == FillBody(s, body[1..], m);
      ParasOfFill(s, body[1..], m);
      match body[0]
      case Paragraph(p) =>
      case Table(rows) => RowsParasFill(s, rows, m);
      FillParasAppend(s, BlockParas(body[0]), ParasOf(body[1..]), m);
    }
  }

  /**
   * Filling never adds or removes paragraphs, tables, rows or cells; per-run
   * replacement also keeps every paragraph's run count, and merge-then-replace
   * leaves at most one run per paragraph.
   */
  lemma FillKeepsLayout(s: Strategy, body: Body, m: Mapping)
    requires ValidMapping(m)
    ensures SameLayout(FillBody(s, body, m), body)
    ensures |ParasOf(FillBody(s, body, m))| == |ParasOf(body)|
    ensures s == PerRun ==> forall i :: 0 <= i < |ParasOf(body)| ==>
              |ParasOf(FillBody(s, body, m))[i]| == |ParasOf(body)[i]|
    ensures s == MergeFirst ==> forall i :: 0 <= i < |ParasOf(body)| ==>
              |ParasOf(FillBody(s, body, m))[i]| == if ParasOf(body)[i] == [] then 0 else 1
  {
    ParasOfFill(s, body, m);
  }

  lemma {:induction false} CellsUnchanged(s: Strategy, cells: seq<Cell>, m: Mapping)
    requires ValidMapping(m)
    requires forall p :: p in CellsParas(cells) ==> FillPara(s, p, m) == p
    ensures FillRow(s, cells, m) == cells
    decreases |cells|
  {
    if cells != [] {
      CellsUnchanged(s, cells[1..], m);
      assert FillParas(s, cells[0], m) == cells[0];
      assert FillRow(s, cells, m) == [FillParas(s, cells[0], m)] + FillRow(s, cells[1..], m);
    }
  }

  lemma {:induction false} RowsUnchanged(s: Strategy, rows: seq<TableRow>, m: Mapping)
    requires ValidMapping(m)
    requires forall p :: p in RowsParas(rows) ==> FillPara(s, p, m) == p
    ensures FillRows(s, rows, m) == rows
    decreases |rows|
  {
    if rows != [] {
      CellsUnchanged(s, rows[0], m);
      RowsUnchanged(s, rows[1..], m);
      assert FillRows(s, rows, m) == [FillRow(s, rows[0], m)] + FillRows(s, rows[1..], m);
    }
  }

  lemma {:induction false} BodyUnchanged(s: Strategy, body: Body, m: Mapping)
    requires ValidMapping(m)
    requires forall p :: p in ParasOf(body) ==> FillPara(s, p, m) == p
    ensures FillBody(s, body, m) == body
    decreases |body|
  {
    if body != [] {
      BodyUnchanged(s, body[1..], m);
      match body[0]
      case Paragraph(p) =>
      case Table(rows) => RowsUnchanged(s, rows, m);
      assert FillBody(s, body, m) == [FillBlock(s, body[0], m)] + FillBody(s, body[1..], m);
    }
  }

  /** No key occurs in any paragraph's joined text. */
  predicate NoMarkerIn(body: Body, m: Mapping)
  {
    forall p, j :: p in ParasOf(body) && 0 <= j < |m| ==> !Contains(Concat(p), m[j].0)
  }

  /**
   * When no key occurs anywhere, per-run replacement leaves the document as it
   * was, and merge-then-replace leaves every paragraph's visible text as it was.
   */
  lemma NothingToReplace(body: Body, m: Mapping)
    requires ValidMapping(m) && NoMarkerIn(body, m)
    ensures FillBody(PerRun, body, m) == body
    ensures Texts(FillBody(MergeFirst, body, m)) == Texts(body)
  {
    forall p | p in ParasOf(body) ensures FillPara(PerRun, p, m) == p {
      PerRunUntouched(p, m);
    }
    BodyUnchanged(PerRun, body, m);
    ParasOfFill(MergeFirst, body, m);
    forall i | 0 <= i < |ParasOf(body)|
      ensures Concat(Merged(ParasOf(body)[i], m)) == Concat(ParasOf(body)[i])
    {
      MergedUntouched(ParasOf(body)[i], m);
    }
  }

  /**
   * The visible text of every paragraph after merge-then-replace is its
   * joined text with each key replaced in mapping order; after per-run
   * replacement it is the same text wherever no marker crosses a run boundary.
   */
  lemma FilledTexts(body: Body, m: Mapping)
    requires ValidMapping(m)
    ensures |Texts(FillBody(MergeFirst, body, m))| == |Texts(body)|
    ensures |Texts(FillBody(PerRun, body, m))| == |Texts(body)|
    ensures forall i :: 0 <= i < |Texts(body)| ==>
              Texts(FillBody(MergeFirst, body, m))[i] == FoldReplace(Texts(body)[i], m)
    ensures forall i :: 0 <= i < |Texts(body)| && NoMarkerCrosses(ParasOf(body)[i], m) ==>
              Texts(FillBody(PerRun, body, m))[i] == FoldReplace(Texts(body)[i], m)
  {
    ParasOfFill(MergeFirst, body, m);
    ParasOfFill(PerRun, body, m);
    forall i | 0 <= i < |ParasOf(body)|
      ensures Concat(Merged(ParasOf(body)[i], m)) == FoldReplace(Concat(ParasOf(body)[i]), m)
    {
      MergedText(ParasOf(body)[i], m);
    }
    forall i | 0 <= i < |ParasOf(body)| && NoMarkerCrosses(ParasOf(body)[i], m)
      ensures Concat(Runwise(ParasOf(body)[i], m)) == FoldReplace(Concat(ParasOf(body)[i]), m)
    {
      StrategiesAgree(ParasOf(body)[i], m);
    }
  }
}
