/**
 * Whole rows and whole sheets of the geochemistry reader, as values: what a row
 * does to the graph, the caches and the reader's own fields (mode, header and
 * class maps, sample column, location stack), and what a sheet of rows does.
 * The class `PolState.ImpState` performs the rows cell by cell and is proved to
 * do exactly this.
 */
module PolRows {
  import opened Options
  import opened Text
  import opened Values
  import opened Rdf
  import opened PolNames
  import opened PolRules
  import opened PolEffects

  /** The reader's row-level fields. */
  datatype Reader = Reader(
    state: Option<State>, header: map<nat, (Field, string)>, cls: map<nat, string>,
    prevClass: Option<string>, sampleCol: Option<nat>, locations: seq<Term>)

  /** A new reader: the importer's start state, no columns yet, and the initial locations as its stack. */
  function StartReader(v: Variant, locs: seq<string>): Reader {
    Reader(StartState(v), map[], map[], None, None, Sites(locs))
  }

  /** The context a step leaves. */
  function After(c: Ctx, e: Effect): Ctx {
    c.(sample := e.sample, dlims := e.dlims, compounds := e.compounds, blanks := e.blanks)
  }

  /** The context is valid and every location is an IRI. */
  predicate SoundCtx(c: Ctx, locs: seq<Term>) {
    CtxValid(c) && forall i | 0 <= i < |locs| :: locs[i].Iri?
  }

  /** A run of steps from context `c0` and triples `t0` that produced the effect `e` leaves status `st`, triples `t` and context `c`. */
  predicate Tracks(e: Effect, st: Status, t0: set<Triple>, t: set<Triple>, c0: Ctx, c: Ctx) {
    st == e.status && t == t0 + e.added && c == After(c0, e)
  }

  /** Step `e2`, read in the context `e1` leaves, after step `e1`. */
  function Then(e1: Effect, e2: Effect): Effect {
    Effect(e2.status, e1.added + e2.added, e2.blanks, e2.sample, e2.dlims, e2.compounds)
  }

  /** `self.c`: the importer's own cell reader. */
  function AnyCellEffect(c: Ctx, r: Reader, cell: Cell, col: nat, detlim: bool): Effect {
    if c.variant.Alrosa? then AlrosaCellEffect(c, r.header, r.locations, cell, col, detlim)
    else CellEffect(c, r.header, r.cls, r.locations, cell, col, detlim)
  }

  /** The cells `row[..n]` in order, column `skip` aside; an abort ends the row. */
  function CellsEffect(c: Ctx, r: Reader, row: seq<Cell>, detlim: bool, skip: Option<nat>, n: nat): Effect
    requires n <= |row|
    decreases n, 1
  {
    if n == 0 then Quiet(c) else CellsLast(c, r, row, detlim, skip, n)
  }

  /** The cells `row[..n]`, `n > 0`: the last one is read in the context the others leave. */
  function CellsLast(c: Ctx, r: Reader, row: seq<Cell>, detlim: bool, skip: Option<nat>, n: nat): Effect
    requires 0 < n <= |row|
    decreases n, 0
  {
    var e := CellsEffect(c, r, row, detlim, skip, n - 1);
    if e.status.Abort? || skip == Some(n - 1) then e
    else Then(e, AnyCellEffect(After(c, e), r, row[n - 1], n - 1, detlim))
  }

  /** A row that has ended the run stays ended: one more cell changes nothing. */
  lemma CellsAborted(c: Ctx, r: Reader, row: seq<Cell>, detlim: bool, skip: Option<nat>, n: nat)
    requires n < |row| && CellsEffect(c, r, row, detlim, skip, n).status.Abort?
    ensures CellsEffect(c, r, row, detlim, skip, n + 1) == CellsEffect(c, r, row, detlim, skip, n)
  {
    assert CellsEffect(c, r, row, detlim, skip, n + 1) == CellsLast(c, r, row, detlim, skip, n + 1);
  }

  /** The skipped column changes nothing. */
  lemma CellsSkipped(c: Ctx, r: Reader, row: seq<Cell>, detlim: bool, skip: Option<nat>, n: nat)
    requires n < |row| && skip == Some(n)
    ensures CellsEffect(c, r, row, detlim, skip, n + 1) == CellsEffect(c, r, row, detlim, skip, n)
  {
    assert CellsEffect(c, r, row, detlim, skip, n + 1) == CellsLast(c, r, row, detlim, skip, n + 1);
  }

  /** Any other cell is read after the ones before it. */
  lemma CellsNext(c: Ctx, r: Reader, row: seq<Cell>, detlim: bool, skip: Option<nat>, n: nat)
    requires n < |row| && skip != Some(n) && CellsEffect(c, r, row, detlim, skip, n).status.Continue?
    ensures var e := CellsEffect(c, r, row, detlim, skip, n);
      CellsEffect(c, r, row, detlim, skip, n + 1) == Then(e, AnyCellEffect(After(c, e), r, row[n], n, detlim))
  {
    assert CellsEffect(c, r, row, detlim, skip, n + 1) == CellsLast(c, r, row, detlim, skip, n + 1);
  }

  /** Once a row has ended the run, the later cells add nothing. */
  lemma {:induction false} CellsStay(c: Ctx, r: Reader, row: seq<Cell>, detlim: bool, skip: Option<nat>, k: nat, n: nat)
    requires k <= n <= |row| && CellsEffect(c, r, row, detlim, skip, k).status.Abort?
    ensures CellsEffect(c, r, row, detlim, skip, n) == CellsEffect(c, r, row, detlim, skip, k)
    decreases n
  {
    if n > k {
      CellsStay(c, r, row, detlim, skip, k, n - 1);
      CellsAborted(c, r, row, detlim, skip, n - 1);
    }
  }

  /** A `DATA` or `DETLIM` row: the sample cell first, then every cell, the sample cell again among them. */
  function DataRowEffect(c: Ctx, r: Reader, row: seq<Cell>, detlim: bool): Effect {
    match r.sampleCol
    case None => Stop(c, NoSampleColumn)
    case Some(sc) =>
      if sc >= |row| then Stop(c, ShortRow)
      else
        var e0 := AnyCellEffect(c, r, row[sc], sc, detlim);
        if e0.status.Abort? then e0 else Then(e0, CellsEffect(After(c, e0), r, row, detlim, None, |row|))
  }

  /** An Alrosa data row: the sample cell first if a header named one, then the other cells. */
  function AlrosaDataEffect(c: Ctx, r: Reader, row: seq<Cell>): Effect {
    var e0 :=
      match r.sampleCol
      case None => Quiet(c)
      case Some(sc) => if sc >= |row| then Stop(c, ShortRow) else AnyCellEffect(c, r, row[sc], sc, false);
    if e0.status.Abort? then e0 else Then(e0, CellsEffect(After(c, e0), r, row, false, r.sampleCol, |row|))
  }

  /** A header row: the header entries of its cells, and the sample column if one of them names it. */
  function HeaderRead(v: Variant, r: Reader, row: seq<Cell>): Reader {
    r.(header := r.header + HeaderRow(v, row), sampleCol := SampleColumnIn(v, row, r.sampleCol))
  }

  /** `ImpState.row`: a marker row switches the mode; other rows are read as the mode says. */
  function GenericRow(c0: Ctx, r: Reader, fence: nat, row: seq<Cell>): (Effect, Reader) {
    var c := c0.(sample := None);
    if row == [] then (Stop(c, EmptyRow), r)
    else
      match Marker(row[0])
      case Some(name) =>
        (match StateNamed(name)
         case None => (Stop(c, UnknownState), r)
         case Some(st) => (Quiet(c), r.(state := Some(st))))
      case None => ModeRow(c, r, fence, row)
  }

  /** A row that is no marker, read as the mode says. */
  function ModeRow(c: Ctx, r: Reader, fence: nat, row: seq<Cell>): (Effect, Reader)
    requires row != []
  {
    match r.state
    case Some(Data) => (DataRowEffect(c, r, row, false), r)
    case Some(DetLim) => (DataRowEffect(c, r, row, true), r)
    case Some(Header) => (Quiet(c), HeaderRead(c.variant, r, row))
    case Some(Class) => (Quiet(c), r.(cls := r.cls + ClassRow(row), prevClass := ClassAt(row, |row| - 1)))
    case Some(Location) =>
      (Adds(c, LocationRowTriples(r.locations, fence, row)), r.(locations := LocationRowLocs(r.locations, fence, row)))
    case _ => (Quiet(c), r)
  }

  /** The text xlrd gives for a cell: `""` for an empty one. */
  function CellText(cell: Cell): string {
    if cell.None? then "" else Str(cell)
  }

  /** The two triples of a reference row: an article, labelled with its citation. */
  function ArticleTriples(ref: Term, text: string): set<Triple> {
    {Triple(ref, Type, AcademicArticle), Triple(ref, Label, Lit(TextV(text)))}
  }

  /** `Alrosa.row`: one header row, then data rows up to a `#REFERENCES` row, then reference rows. */
  function AlrosaRow(c0: Ctx, r: Reader, row: seq<Cell>): (Effect, Reader) {
    var c := c0.(sample := None);
    if r.state == Some(Header) then (Quiet(c), HeaderRead(c.variant, r, row).(state := Some(Data)))
    else if row == [] then (Stop(c, EmptyRow), r)
    else
      var v0 := Strip(CellText(row[0]));
      if "#REFERENCES" <= v0 then (Quiet(c), r.(state := Some(References)))
      else if r.state == Some(Data) then (AlrosaDataEffect(c, r, row), r)
      else (ReferencesEffect(c, r, v0), r)
  }

  /** A row of the references part, `v0` its first cell's text: `[n] citation` describes an article. */
  function ReferencesEffect(c: Ctx, r: Reader, v0: string): Effect {
    if r.state == Some(References) then
      var (ref, text) := RefField(v0);
      if text.None? then Stop(c, MissingReference)
      else Adds(c, ArticleTriples(ref, text.value))
    else Quiet(c)
  }

  function RowEffect(c: Ctx, r: Reader, fence: nat, row: seq<Cell>): (Effect, Reader) {
    if c.variant.Alrosa? then AlrosaRow(c, r, row) else GenericRow(c, r, fence, row)
  }

  /** The rows `rows[..n]` of a sheet in order; an abort ends the run. */
  function RowsEffect(c: Ctx, r: Reader, fence: nat, rows: seq<seq<Cell>>, n: nat): (Effect, Reader)
    requires n <= |rows|
    decreases n, 2
  {
    if n == 0 then (Quiet(c), r) else RowsLast(c, r, fence, rows, n)
  }

  /** The rows `rows[..n]`, `n > 0`: the last one is read in the context and reader the others leave. */
  function RowsLast(c: Ctx, r: Reader, fence: nat, rows: seq<seq<Cell>>, n: nat): (Effect, Reader)
    requires 0 < n <= |rows|
    decreases n, 1
  {
    var prev := RowsEffect(c, r, fence, rows, n - 1);
    if prev.0.status.Abort? then prev else RowsThen(c, r, fence, rows, n)
  }

  /** Row `n - 1` read after the rows before it. */
  function RowsThen(c: Ctx, r: Reader, fence: nat, rows: seq<seq<Cell>>, n: nat): (Effect, Reader)
    requires 0 < n <= |rows|
    decreases n, 0
  {
    var prev := RowsEffect(c, r, fence, rows, n - 1);
    var next := RowEffect(After(c, prev.0), prev.1, fence, rows[n - 1]);
    (Then(prev.0, next.0), next.1)
  }

  /** A sheet whose run has ended stays ended: one more row changes nothing. */
  lemma RowsAborted(c: Ctx, r: Reader, fence: nat, rows: seq<seq<Cell>>, n: nat)
    requires n < |rows| && RowsEffect(c, r, fence, rows, n).0.status.Abort?
    ensures RowsEffect(c, r, fence, rows, n + 1) == RowsEffect(c, r, fence, rows, n)
  {
    assert RowsEffect(c, r, fence, rows, n + 1) == RowsLast(c, r, fence, rows, n + 1);
  }

  /** Otherwise the next row is read after the ones before it. */
  lemma RowsNext(c: Ctx, r: Reader, fence: nat, rows: seq<seq<Cell>>, n: nat)
    requires n < |rows| && RowsEffect(c, r, fence, rows, n).0.status.Continue?
    ensures var prev := RowsEffect(c, r, fence, rows, n);
      var next := RowEffect(After(c, prev.0), prev.1, fence, rows[n]);
      RowsEffect(c, r, fence, rows, n + 1) == (Then(prev.0, next.0), next.1)
  {
    assert RowsEffect(c, r, fence, rows, n + 1) == RowsLast(c, r, fence, rows, n + 1) == RowsThen(c, r, fence, rows, n + 1);
  }

  /** Once a sheet's run has ended, the later rows add nothing. */
  lemma {:induction false} RowsStay(c: Ctx, r: Reader, fence: nat, rows: seq<seq<Cell>>, k: nat, n: nat)
    requires k <= n <= |rows| && RowsEffect(c, r, fence, rows, k).0.status.Abort?
    ensures RowsEffect(c, r, fence, rows, n) == RowsEffect(c, r, fence, rows, k)
    decreases n
  {
    if n > k {
      RowsStay(c, r, fence, rows, k, n - 1);
      RowsAborted(c, r, fence, rows, n - 1);
    }
  }

  /** `parse_sheet`'s own triples: the sheet is a data sheet, labelled with its name, `.xls_` read as `, `. */
  function SheetTriples(sheetIri: Term, sheetName: string): set<Triple> {
    {Triple(sheetIri, Type, DataSheetClass), Triple(sheetIri, Label, Lit(TextV(Replace(sheetName, ".xls_", ", "))))}
  }

  /** The context `parse_sheet` starts a sheet in: no sample and no detection limits yet. */
  function SheetStart(v: Variant, sheetIri: Term, sheetName: string, elements: map<string, Term>,
                      textures: seq<(string, string)>, compounds: map<string, Term>, blanks: nat): Ctx {
    Ctx(v, sheetIri, sheetName, elements, textures, None, map[], compounds, blanks)
  }

  /** `parse_sheet`: the initial locations, the sheet's own triples, then every row until one aborts. */
  function SheetEffect(c: Ctx, locs: seq<string>, rows: seq<seq<Cell>>): Effect {
    var e := RowsEffect(c, StartReader(c.variant, locs), |locs|, rows, |rows|).0;
    e.(added := SitesTriples(locs) + SheetTriples(c.dsiri, c.sheetName) + e.added)
  }

  /** `parse_xl` over the first `n` sheets (name and rows) of the workbook `file`: the sheets the filter admits, until one aborts. */
  function XlEffect(v: Variant, elements: map<string, Term>, textures: seq<(string, string)>, file: string,
                    sheets: seq<(string, seq<seq<Cell>>)>, locs: seq<string>, compounds: map<string, Term>, blanks: nat, n: nat): Effect
    requires n <= |sheets|
    decreases n, 2
  {
    if n == 0 then Effect(Continue, {}, blanks, None, map[], compounds)
    else XlLast(v, elements, textures, file, sheets, locs, compounds, blanks, n)
  }

  function XlLast(v: Variant, elements: map<string, Term>, textures: seq<(string, string)>, file: string,
                  sheets: seq<(string, seq<seq<Cell>>)>, locs: seq<string>, compounds: map<string, Term>, blanks: nat, n: nat): Effect
    requires 0 < n <= |sheets|
    decreases n, 1
  {
    var prev := XlEffect(v, elements, textures, file, sheets, locs, compounds, blanks, n - 1);
    if prev.status.Abort? || !ParsesSheet(SheetsOf(v), sheets[n - 1].0, n - 1) then prev
    else XlSheet(v, elements, textures, file, sheets, locs, compounds, blanks, n)
  }

  /** The `n`-th sheet parsed after the ones before it. */
  function XlSheet(v: Variant, elements: map<string, Term>, textures: seq<(string, string)>, file: string,
                   sheets: seq<(string, seq<seq<Cell>>)>, locs: seq<string>, compounds: map<string, Term>, blanks: nat, n: nat): Effect
    requires 0 < n <= |sheets|
    decreases n, 0
  {
    var prev := XlEffect(v, elements, textures, file, sheets, locs, compounds, blanks, n - 1);
    var name := sheets[n - 1].0;
    Then(prev, SheetEffect(SheetStart(v, SheetIri(file, name), file + "_" + name, elements, textures, prev.compounds, prev.blanks), locs, sheets[n - 1].1))
  }

  lemma XlPassed(v: Variant, elements: map<string, Term>, textures: seq<(string, string)>, file: string,
                 sheets: seq<(string, seq<seq<Cell>>)>, locs: seq<string>, compounds: map<string, Term>, blanks: nat, n: nat)
    requires n < |sheets|
    requires var prev := XlEffect(v, elements, textures, file, sheets, locs, compounds, blanks, n);
      prev.status.Abort? || !ParsesSheet(SheetsOf(v), sheets[n].0, n)
    ensures XlEffect(v, elements, textures, file, sheets, locs, compounds, blanks, n + 1) ==
      XlEffect(v, elements, textures, file, sheets, locs, compounds, blanks, n)
  {
    assert XlEffect(v, elements, textures, file, sheets, locs, compounds, blanks, n + 1) ==
      XlLast(v, elements, textures, file, sheets, locs, compounds, blanks, n + 1);
  }

  lemma XlNext(v: Variant, elements: map<string, Term>, textures: seq<(string, string)>, file: string,
               sheets: seq<(string, seq<seq<Cell>>)>, locs: seq<string>, compounds: map<string, Term>, blanks: nat, n: nat)
    requires n < |sheets|
    requires var prev := XlEffect(v, elements, textures, file, sheets, locs, compounds, blanks, n);
      prev.status.Continue? && ParsesSheet(SheetsOf(v), sheets[n].0, n)
    ensures var prev := XlEffect(v, elements, textures, file, sheets, locs, compounds, blanks, n);
      var name := sheets[n].0;
      XlEffect(v, elements, textures, file, sheets, locs, compounds, blanks, n + 1) ==
      Then(prev, SheetEffect(SheetStart(v, SheetIri(file, name), file + "_" + name, elements, textures, prev.compounds, prev.blanks), locs, sheets[n].1))
  {
    assert XlEffect(v, elements, textures, file, sheets, locs, compounds, blanks, n + 1) ==
      XlLast(v, elements, textures, file, sheets, locs, compounds, blanks, n + 1) ==
      XlSheet(v, elements, textures, file, sheets, locs, compounds, blanks, n + 1);
  }

  lemma {:induction false} XlStay(v: Variant, elements: map<string, Term>, textures: seq<(string, string)>, file: string,
                                  sheets: seq<(string, seq<seq<Cell>>)>, locs: seq<string>, compounds: map<string, Term>, blanks: nat, k: nat, n: nat)
    requires k <= n <= |sheets| && XlEffect(v, elements, textures, file, sheets, locs, compounds, blanks, k).status.Abort?
    ensures XlEffect(v, elements, textures, file, sheets, locs, compounds, blanks, n) ==
      XlEffect(v, elements, textures, file, sheets, locs, compounds, blanks, k)
    decreases n
  {
    if n > k {
      XlStay(v, elements, textures, file, sheets, locs, compounds, blanks, k, n - 1);
      XlPassed(v, elements, textures, file, sheets, locs, compounds, blanks, n - 1);
    }
  }

  // ---------------------------------------------------------------- properties

  /** `Alrosa._sheet_names_ = [0]`: only the workbook's first sheet is read, whatever follows it. */
  lemma {:induction false} AlrosaFirstSheetOnly(elements: map<string, Term>, textures: seq<(string, string)>, file: string,
                                                sheets: seq<(string, seq<seq<Cell>>)>, locs: seq<string>, compounds: map<string, Term>, blanks: nat, n: nat)
    requires 1 <= n <= |sheets|
    ensures XlEffect(Alrosa, elements, textures, file, sheets, locs, compounds, blanks, n) ==
      XlEffect(Alrosa, elements, textures, file, sheets, locs, compounds, blanks, 1)
    decreases n
  {
    if n > 1 {
      AlrosaFirstSheetOnly(elements, textures, file, sheets, locs, compounds, blanks, n - 1);
      XlPassed(Alrosa, elements, textures, file, sheets, locs, compounds, blanks, n - 1);
    }
  }

  /** A marker row naming a state switches to it and extracts nothing. */
  lemma MarkerSwitches(c: Ctx, r: Reader, fence: nat, row: seq<Cell>, st: State)
    requires c.variant.Generic? && row != []
    requires Marker(row[0]).Some? && StateNamed(Marker(row[0]).value) == Some(st)
    ensures var (e, r') := RowEffect(c, r, fence, row);
      e.status == Continue && e.added == {} && e.blanks == c.blanks && e.sample.None? &&
      r' == r.(state := Some(st))
  {
  }

  /** A marker row naming no state ends the run. */
  lemma MarkerUnknown(c: Ctx, r: Reader, fence: nat, row: seq<Cell>)
    requires c.variant.Generic? && row != []
    requires Marker(row[0]).Some? && StateNamed(Marker(row[0]).value).None?
    ensures RowEffect(c, r, fence, row).0.status == Abort(UnknownState)
  {
  }

  /** In `IGNORE` mode a row that is no marker extracts nothing and changes nothing but the sample. */
  lemma IgnoredRow(c: Ctx, r: Reader, fence: nat, row: seq<Cell>)
    requires c.variant.Generic? && row != [] && Marker(row[0]).None? && r.state == Some(Ignore)
    ensures var (e, r') := RowEffect(c, r, fence, row);
      e == Quiet(c.(sample := None)) && r' == r
  {
  }

  /** A row only ever pushes onto the location stack above the fence: the fenced part stays. */
  lemma RowKeepsFence(c: Ctx, r: Reader, fence: nat, row: seq<Cell>)
    requires fence <= |r.locations|
    ensures var r' := RowEffect(c, r, fence, row).1;
      fence <= |r'.locations| && r'.locations[..fence] == r.locations[..fence]
  {
    if c.variant.Generic? && row != [] && Marker(row[0]).None? && r.state == Some(Location) {
      LocationFence(r.locations, fence, row);
    }
  }

  /** A whole sheet keeps the initial locations at the bottom of the stack. */
  lemma {:induction false} RowsKeepFence(c: Ctx, r: Reader, fence: nat, rows: seq<seq<Cell>>, n: nat)
    requires n <= |rows| && fence <= |r.locations|
    ensures var r' := RowsEffect(c, r, fence, rows, n).1;
      fence <= |r'.locations| && r'.locations[..fence] == r.locations[..fence]
    decreases n
  {
    if n > 0 {
      RowsKeepFence(c, r, fence, rows, n - 1);
      var prev := RowsEffect(c, r, fence, rows, n - 1);
      if prev.0.status.Abort? {
        RowsAborted(c, r, fence, rows, n - 1);
      } else {
        RowsNext(c, r, fence, rows, n - 1);
        var next := RowEffect(After(c, prev.0), prev.1, fence, rows[n - 1]);
        RowKeepsFence(After(c, prev.0), prev.1, fence, rows[n - 1]);
        assert RowsEffect(c, r, fence, rows, n).1 == next.1;
      }
    }
  }

  /** After a header row, each non-empty cell's column maps to its field and text; other columns keep theirs. */
  lemma HeaderColumns(v: Variant, r: Reader, row: seq<Cell>, col: nat)
    ensures var h := HeaderRead(v, r, row).header;
      (col < |row| && row[col].Some? ==> col in h && h[col] == HeaderEntry(v, row[col].value)) &&
      (!(col < |row| && row[col].Some?) ==> (col in h <==> col in r.header) && (col in r.header ==> h[col] == r.header[col]))
  {
  }

  /** An Alrosa reader turns to data after its one header row. */
  lemma AlrosaHeaderOnce(c: Ctx, r: Reader, fence: nat, row: seq<Cell>)
    requires c.variant.Alrosa? && r.state == Some(Header)
    ensures var (e, r') := RowEffect(c, r, fence, row);
      e.status == Continue && e.added == {} && r'.state == Some(Data) && r'.header == r.header + HeaderRow(Alrosa, row)
  {
  }

  /** A reference row `[n] text` describes the article `ref-n` with citation `text`. */
  lemma ReferenceRow(c: Ctx, r: Reader, fence: nat, num: string, text: string)
    requires c.variant.Alrosa? && r.state == Some(References)
    requires num != [] && AllDigits(num)
    requires text != [] && !IsSpace(text[0]) && !IsSpace(text[|text| - 1])
    requires !("#REFERENCES" <= "[" + num + "] " + text)
    ensures var (e, r') := RowEffect(c, r, fence, [Some(TextV("[" + num + "] " + text))]);
      e.status == Continue && r' == r && e.added == ArticleTriples(Iri(P, "ref-" + num), text)
  {
    var s := "[" + num + "] " + text;
    var row := [Some(TextV(s))];
    StripInner(s);
    assert Strip(CellText(row[0])) == s;
    ReferenceArticle(c.(sample := None), r, num, text);
    assert RowEffect(c, r, fence, row) == (ReferencesEffect(c.(sample := None), r, s), r);
  }

  lemma ReferenceArticle(c: Ctx, r: Reader, num: string, text: string)
    requires r.state == Some(References)
    requires num != [] && AllDigits(num)
    requires text != [] && !IsSpace(text[0]) && !IsSpace(text[|text| - 1])
    ensures ReferencesEffect(c, r, "[" + num + "] " + text) == Adds(c, ArticleTriples(Iri(P, "ref-" + num), text))
  {
    NoSpaceDigits(num);
    RefFieldNumbered(num, text);
  }

  /** A reference row with no citation after its number ends the run. */
  lemma ReferenceMissing(c: Ctx, r: Reader, fence: nat, num: string)
    requires c.variant.Alrosa? && r.state == Some(References)
    requires num != [] && AllDigits(num)
    ensures RowEffect(c, r, fence, [Some(TextV(num))]).0.status == Abort(MissingReference)
  {
    NoSpaceDigits(num);
    StripNoop(num);
    assert LStripWs(num) == num;
    RunEndAt(num, 0, |num|, NotSpace);
    assert num[|num|..] == [];
    RefFieldReference(num);
  }
}
