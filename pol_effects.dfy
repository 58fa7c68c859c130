/**
 * What each step of the geochemistry sheet reader does, as a value: the triples
 * the step adds to the graph, the blank nodes it draws, the sample it sets, and the
 * detection-limit and compound caches after it. The sheet reader (`PolState`)
 * performs the steps one triple at a time and is proved to do exactly this.
 */
module PolEffects {
  import opened Options
  import opened Text
  import opened Values
  import opened Rdf
  import opened PolNames
  import opened PolFormula
  import opened PolRules

  // ---------------------------------------------------------------- vocabulary

  const SampleRel := Iri(PT, "sample")
  const SampleClass := Iri(PT, "Sample")
  const SiteClass := Iri(PT, "Site")
  const LocatedIn := Iri(PT, "location")
  const MeasurementRel := Iri(PT, "measurement")
  const MeasurementClass := Iri(PT, "Measurement")
  const ValueRel := Iri(PT, "value")
  const UnitRel := Iri(PT, "unit")
  const DetectionLimitRel := Iri(PT, "detectionLimit")
  const DetectionLimitClass := Iri(PT, "DetectionLimit")
  const IgnitionLossesClass := Iri(PT, "IgnitionLosses")
  const CompoundRel := Iri(PT, "compound")
  const CompoundClass := Iri(PT, "Compound")
  const FormulaRel := Iri(PT, "Formula")
  const ElementRel := Iri(MT, "element")
  const TotalRel := Iri(PT, "total")
  const Lat := Iri(WGS, "lat")
  const Long := Iri(WGS, "long")
  const Sku := Iri(SCHEMA, "sku")
  const CitationRel := Iri(DCTERMS, "bibliographicCitation")
  const Cites := Iri(BIBO, "cites")
  const AcademicArticle := Iri(BIBO, "AcademicArticle")
  const PlaceClass := Iri(SCHEMA, "Place")
  const FromLocation := Iri(SCHEMA, "fromLocation")
  const TectonicSettingClass := Iri(PT, "TectonicSetting")
  const TectonicSettingRel := Iri(PT, "tectonicSetting")
  const MineralRel := Iri(PT, "mineral")
  const InclusionRel := Iri(P, "inclusion")
  const Primary := Iri(PT, "Primary")
  const RockTextureRel := Iri(PT, "rockTexture")
  const DataSheetClass := Iri(PT, "DataSheet")

  // ---------------------------------------------------------------- importers

  /** Why the reader stops: a `quit()`, or an exception nothing catches. */
  datatype Reason =
      /** `row[0]` of a row without cells. */
    | EmptyRow
      /** `State[name]` of a marker naming no state. */
    | UnknownState
      /** `row[self.sample_col]` before any header named the sample column. */
    | NoSampleColumn
      /** `row[self.sample_col]` past the end of the row. */
    | ShortRow
      /** A value with neither a sample nor a detection-limit row to go to. */
    | NowhereToStore
      /** A triple about the sample when there is none (rdflib refuses a `None` subject). */
    | NoSubject
      /** A non-chemical column in an importer that has no `_field_map_`. */
    | NoFieldMap
      /** A descriptive Alrosa column, or a coordinate column, holding something other than text. */
    | NotText
      /** A reference row without citation text (`assert reference is not None`). */
    | MissingReference

  datatype Status = Continue | Abort(reason: Reason)

  /**
   * The importer classes: `ImpState` subclasses that only name their sample columns
   * (`Yarki`, `Kharantsy`, `Khuzhir`), and `Alrosa`.
   */
  datatype Variant = Generic(sampleNames: seq<string>) | Alrosa

  const Yarki := Generic(["Sample", "Полевой", "sample"])
  const Kharantsy := Generic(["Номер_пробы"])
  const Khuzhir := Kharantsy

  /** `_sample_names_`: header names that mark the sample column. */
  function SampleNames(v: Variant): seq<string> {
    if v.Alrosa? then ["SAMPLE_NAME"] else v.sampleNames
  }

  /** `_start_state_`. */
  function StartState(v: Variant): Option<State> {
    if v.Alrosa? then Some(Header) else None
  }

  /** `_sheet_names_`: Alrosa lists sheet 0 only; the others have no list and read every sheet. */
  function SheetsOf(v: Variant): SheetFilter {
    if v.Alrosa? then Listed([], [0]) else AllSheets
  }

  // ---------------------------------------------------------------- header and class rows

  /** A column's field: the sample column, or the `normURI` name of its header. */
  datatype Field = SampleField | Named(name: string)

  /** `h`: the field and the original header text of a non-empty header cell. */
  function HeaderEntry(v: Variant, cell: Value): (e: (Field, string))
    ensures e.1 == Str(Some(cell))
    ensures e.0.SampleField? <==> NormUriOf(Str(Some(cell))) in SampleNames(v)
    ensures e.0.Named? ==> e.0.name == NormUriOf(Str(Some(cell)))
  {
    var orig := Str(Some(cell));
    var name := NormUriOf(orig);
    if name in SampleNames(v) then (SampleField, orig) else (Named(name), orig)
  }

  /** The header entries a header row sets: one per non-empty cell. */
  function HeaderRow(v: Variant, row: seq<Cell>): map<nat, (Field, string)> {
    map i: nat | i < |row| && row[i].Some? :: HeaderEntry(v, row[i].value)
  }

  /** The sample column after reading header cells `cells`: the last one marked as such, else `prev`. */
  function SampleColumnIn(v: Variant, cells: seq<Cell>, prev: Option<nat>): (r: Option<nat>)
    ensures r.Some? && r != prev ==>
      r.value < |cells| && cells[r.value].Some? && HeaderEntry(v, cells[r.value].value).0.SampleField?
    decreases |cells|
  {
    if cells == [] then prev
    else
      var n := |cells| - 1;
      if cells[n].Some? && HeaderEntry(v, cells[n].value).0.SampleField? then Some(n)
      else SampleColumnIn(v, cells[..n], prev)
  }

  /** The classes a class row sets: every column from the first non-empty cell on. */
  function ClassRow(row: seq<Cell>): map<nat, string> {
    map i: nat | i < |row| && ClassAt(row, i).Some? :: ClassAt(row, i).value
  }

  // ---------------------------------------------------------------- locations

  function LocIri(name: string): Term {
    Iri(P, NormUriOf(Strip(name)))
  }

  /** `belongs(obj)`: `obj` lies in the innermost location, if there is one. */
  function Belonging(locs: seq<Term>, obj: Term): set<Triple> {
    if |locs| > 0 then {Triple(obj, LocatedIn, locs[|locs| - 1])} else {}
  }

  /** `proc_loc(name)` with the location stack `locs`: a site, labelled in Russian, inside the innermost one. */
  function LocTriples(locs: seq<Term>, name: string): set<Triple> {
    var t := Strip(name);
    var u := Iri(P, NormUriOf(t));
    {Triple(u, Label, LangLit(t, "ru")), Triple(u, Type, SiteClass)} + Belonging(locs, u)
  }

  /** `proc_locs(names)` on an empty stack: the stack it builds. */
  function Sites(names: seq<string>): seq<Term> {
    seq(|names|, i requires 0 <= i < |names| => LocIri(names[i]))
  }

  /** `proc_locs(names)` on an empty stack: the triples it adds. */
  function SitesTriples(names: seq<string>): set<Triple>
    decreases |names|
  {
    if names == [] then {}
    else
      var n := |names| - 1;
      SitesTriples(names[..n]) + LocTriples(Sites(names[..n]), names[n])
  }

  /** A `LOCATION` row pops one location above the fence, if any, before each new one. */
  function Popped(locs: seq<Term>, fence: nat): seq<Term> {
    if |locs| > fence then locs[..|locs| - 1] else locs
  }

  /** The location stack after the text cells among `cells` of a `LOCATION` row. */
  function LocationRowLocs(locs: seq<Term>, fence: nat, cells: seq<Cell>): seq<Term>
    decreases |cells|
  {
    if cells == [] then locs
    else
      var n := |cells| - 1;
      var prev := LocationRowLocs(locs, fence, cells[..n]);
      match cells[n]
      case Some(TextV(s)) => Popped(prev, fence) + [LocIri(Strip(s))]
      case _ => prev
  }

  /** The triples those cells add. */
  function LocationRowTriples(locs: seq<Term>, fence: nat, cells: seq<Cell>): set<Triple>
    decreases |cells|
  {
    if cells == [] then {}
    else
      var n := |cells| - 1;
      var prev := LocationRowLocs(locs, fence, cells[..n]);
      var before := LocationRowTriples(locs, fence, cells[..n]);
      match cells[n]
      case Some(TextV(s)) => before + LocTriples(Popped(prev, fence), Strip(s))
      case _ => before
  }

  // ---------------------------------------------------------------- effects

  /** What a step sees: the importer and the reader's sample and caches. */
  datatype Ctx = Ctx(
    variant: Variant, dsiri: Term, sheetName: string, elements: map<string, Term>, textures: seq<(string, string)>,
    sample: Option<Term>, dlims: map<string, Term>, compounds: map<string, Term>, blanks: nat)

  /** What a step does: its status, the triples it adds, and the counter, sample and caches after it. */
  datatype Effect = Effect(
    status: Status, added: set<Triple>, blanks: nat, sample: Option<Term>,
    dlims: map<string, Term>, compounds: map<string, Term>)

  function Quiet(c: Ctx): Effect {
    Effect(Continue, {}, c.blanks, c.sample, c.dlims, c.compounds)
  }

  function Stop(c: Ctx, r: Reason): Effect {
    Effect(Abort(r), {}, c.blanks, c.sample, c.dlims, c.compounds)
  }

  function Adds(c: Ctx, ts: set<Triple>): Effect {
    Effect(Continue, ts, c.blanks, c.sample, c.dlims, c.compounds)
  }

  /** Loss on ignition (`ППП`): a measurement of the sample typed `IgnitionLosses`. */
  function IgnitionEffect(c: Ctx, p: Prep, name: string, fieldname: string): Effect {
    if c.sample.None? then Stop(c, NoSubject)
    else
      var m := Blank(c.blanks);
      var ts := {
        Triple(c.sample.value, MeasurementRel, m), Triple(m, ValueRel, Lit(p.value)),
        Triple(m, Type, MeasurementClass), Triple(m, Type, IgnitionLossesClass),
        Triple(m, UnitRel, UnitOf(UpperStr(name), fieldname))};
      Effect(Continue, ts, c.blanks + 1, c.sample, c.dlims, c.compounds)
  }

  /** The relation of a column that names no formula: coordinates, an article number, or its own name. */
  function PlainRelation(name: string): Term {
    if name == "с_ш" then Lat
    else if name == "в_д" then Long
    else if name in ["sku", "номер"] then Sku
    else Iri(PT, NormUriOf(name))
  }

  /**
   * The object such a column gives: coordinates in degrees (a number is kept, a text
   * is read as degrees, minutes and seconds), a number truncated for an article
   * number, the value as read otherwise. `None` when `degs` gets an integer.
   */
  function PlainObject(name: string, ov: Value): Option<Term> {
    if name == "с_ш" || name == "в_д" then
      match ov
      case NumV(_) => Some(Lit(ov))
      case TextV(_) => Some(DegreesLit(ov))
      case IntV(_) => None
    else if name in ["sku", "номер"] && ov.NumV? then Some(Lit(IntV(Trunc(ov.d))))
    else Some(Lit(ov))
  }

  /** `finish()`: the value as a property of the sample, unless this is a detection-limit row. */
  function PlainEffect(c: Ctx, name: string, ov: Value, delim: bool): Effect {
    match PlainObject(name, ov)
    case None => Stop(c, NotText)
    case Some(o) =>
      if c.sample.Some? && !delim then Adds(c, {Triple(c.sample.value, PlainRelation(name), o)})
      else Quiet(c)
  }

  /** A column led by a token that is no element: the field map (`CITATION`), else `finish()`. */
  function MappedEffect(c: Ctx, name: string, fieldname: string, p: Prep, delim: bool): Effect {
    if c.variant.Generic? then Stop(c, NoFieldMap)
    else if fieldname == "CITATION" || name == "CITATION" then
      if c.sample.None? then Stop(c, NoSubject)
      else Adds(c, {Triple(c.sample.value, CitationRel, Lit(p.value))})
    else if c.sample.Some? && !delim then
      Adds(c, {Triple(c.sample.value, Iri(PT, NormUriOf(name)), Lit(p.ovalue))})
    else Quiet(c)
  }

  /** What a measurement is of. */
  datatype Target = CompoundOf(comp: string) | ElementOf(symbol: string, iri: Term)

  function CompoundName(comp: string): string {
    "compound-" + NormUriOf(comp)
  }

  /** The compound node, from the cache or new. */
  function CompoundNode(comps: map<string, Term>, comp: string): Term {
    var n := CompoundName(comp);
    if n in comps then comps[n] else Iri(PT, n)
  }

  /** A compound seen for the first time is described once: its type, formula and label. */
  function CompoundTriples(comps: map<string, Term>, comp: string): set<Triple> {
    var n := CompoundName(comp);
    var cb := Iri(PT, n);
    if n in comps then {}
    else {Triple(cb, Type, CompoundClass), Triple(cb, FormulaRel, Lit(TextV(comp))), Triple(cb, Label, Lit(TextV(comp)))}
  }

  function CompoundsAfter(comps: map<string, Term>, comp: string): map<string, Term> {
    var n := CompoundName(comp);
    if n in comps then comps else comps[n := Iri(PT, n)]
  }

  /** Every triple of `ts` mentions only nodes drawn below `hi`, and its blank subjects were drawn from `lo` on. */
  predicate Fresh(ts: set<Triple>, lo: nat, hi: nat) {
    forall t | t in ts :: BlanksBelow(t, hi) && (t.s.Blank? ==> lo <= t.s.id)
  }

  /** Every cached detection limit is a blank node drawn below `hi`. */
  predicate LimitsDrawn(dlims: map<string, Term>, hi: nat) {
    forall k | k in dlims :: dlims[k].Blank? && dlims[k].id < hi
  }

  /** Every cached compound is the IRI named after its key. */
  predicate CompoundsNamed(comps: map<string, Term>) {
    forall k | k in comps :: comps[k] == Iri(PT, k)
  }

  /** The first two triples of a measurement: its owner (the sample, or the dataset on a detection-limit row) and its type. */
  function MeasureHead(owner: Term, m: Term, delim: bool): (ts: set<Triple>)
    ensures owner.Iri? && m.Blank? ==> Fresh(ts, m.id, m.id + 1)
  {
    if delim then {Triple(owner, DetectionLimitRel, m), Triple(m, Type, DetectionLimitClass)}
    else {Triple(owner, MeasurementRel, m), Triple(m, Type, MeasurementClass)}
  }

  /** A value with no detection limit is the measurement's value, with its unit. */
  function MeasureValue(m: Term, p: Prep, unit: Term): (ts: set<Triple>)
    ensures unit.Iri? && m.Blank? ==> Fresh(ts, m.id, m.id + 1)
  {
    if p.dl.None? then {Triple(m, ValueRel, Lit(p.value)), Triple(m, UnitRel, unit)} else {}
  }

  /** What the measurement is of: an element of the ontology, or a compound node (described on first use). */
  function MeasureLink(comps: map<string, Term>, t: Target, m: Term): (ts: set<Triple>)
    ensures CompoundsNamed(comps) && (t.ElementOf? ==> t.iri.Iri?) && m.Blank? ==> Fresh(ts, m.id, m.id + 1)
  {
    if t.CompoundOf? then CompoundTriples(comps, t.comp) + {Triple(m, CompoundRel, CompoundNode(comps, t.comp))}
    else {Triple(m, ElementRel, t.iri)}
  }

  /** A column whose rest names a total (`TOT`, `ОБЩ`) marks the measurement as one. */
  function TotalTriples(m: Term, total: bool): (ts: set<Triple>)
    ensures m.Blank? ==> Fresh(ts, m.id, m.id + 1)
  {
    if total then {Triple(m, TotalRel, BoolLit(true))} else {}
  }

  /** The key a measurement's detection limit is cached under: the compound's formula or the element's symbol. */
  function LimitKey(t: Target): string {
    if t.CompoundOf? then t.comp else t.symbol
  }

  /** `finish_dl`'s part after the cache update: what a detection-limit value `<x` adds. */
  datatype Limit = Limit(added: set<Triple>, blanks: nat, dlims: map<string, Term>)

  function LimitEffect(dsiri: Term, dlims: map<string, Term>, key: string, m: Term, next: nat, p: Prep, unit: Term): (r: Limit)
    ensures dsiri.Iri? && unit.Iri? && m.Blank? && m.id < next && LimitsDrawn(dlims, next) ==>
      Fresh(r.added, m.id, r.blanks) && next <= r.blanks && LimitsDrawn(r.dlims, r.blanks) &&
      dlims.Keys <= r.dlims.Keys
  {
    if p.dl.None? then Limit({}, next, dlims)
    else if key in dlims then Limit({Triple(m, ValueRel, dlims[key])}, next, dlims)
    else
      var md := Blank(next);
      Limit({Triple(dsiri, DetectionLimitRel, md), Triple(md, Type, DetectionLimitClass),
             Triple(md, ValueRel, Lit(p.value)), Triple(md, Type, MeasurementClass),
             Triple(md, UnitRel, unit), Triple(m, ValueRel, md)},
            next + 1, dlims[key := md])
  }

  /**
   * A measurement of an element or a compound: a new node, tied to the sample or,
   * on a detection-limit row, to the dataset; its value and unit, or a detection
   * limit; what it is of; and whether it is a total.
   */
  function MeasureEffect(c: Ctx, t: Target, unit: Term, total: bool, p: Prep, delim: bool): Effect {
    if !delim && c.sample.None? then Stop(c, NoSubject)
    else
      var m := Blank(c.blanks);
      var lim := MeasureLimit(c, t, p, unit, delim);
      Effect(Continue, MeasureOwn(c, t, m, unit, p, delim) + lim.added + TotalTriples(m, total), lim.blanks, c.sample, lim.dlims,
        if t.CompoundOf? then CompoundsAfter(c.compounds, t.comp) else c.compounds)
  }

  /** The detection-limit part of a measurement: on a limit row the new node is cached first. */
  function MeasureLimit(c: Ctx, t: Target, p: Prep, unit: Term, delim: bool): Limit {
    var m := Blank(c.blanks);
    LimitEffect(c.dsiri, if delim then c.dlims[LimitKey(t) := m] else c.dlims, LimitKey(t), m, c.blanks + 1, p, unit)
  }

  /** `proc_comp((name, fieldname), v, delim)`. */
  function CompEffect(c: Ctx, name0: string, fieldname: string, v: Value, delim: bool): Effect {
    match Prepare(v)
    case None => Quiet(c)
    case Some(p) =>
      var name := Strip(name0);
      if name == "ППП" || name == "ппп" then IgnitionEffect(c, p, name, fieldname)
      else FormulaEffect(c, name, fieldname, p, delim)
  }

  /** What `proc_comp` does with a stripped column name other than the loss on ignition. */
  function FormulaEffect(c: Ctx, name: string, fieldname: string, p: Prep, delim: bool): Effect {
    var f := Recognise(name, c.elements);
    if f.NoFormula? then PlainEffect(c, name, p.ovalue, delim)
    else if f.NotChemical? then MappedEffect(c, name, fieldname, p, delim)
    else MeasureEffect(c, Measured(f), UnitOf(UpperStr(f.rest), fieldname), IsTotal(UpperStr(f.rest)), p, delim)
  }

  /** What a compound or element column measures. */
  function Measured(f: Formula): Target
    requires f.Compound? || f.Element?
  {
    if f.Compound? then CompoundOf(f.comp) else ElementOf(f.symbol, f.iri)
  }

  // ---------------------------------------------------------------- cells

  /** The sample a sample cell names, and what the reader records about it. */
  function SampleTriples(dsiri: Term, locs: seq<Term>, s: Term, name: string): set<Triple> {
    {Triple(dsiri, SampleRel, s), Triple(s, Type, SampleClass), Triple(s, Label, Lit(TextV(name)))} + Belonging(locs, s)
  }

  function SampleEffect(c: Ctx, locs: seq<Term>, name: string): Effect {
    var s := Iri(P, name);
    Effect(Continue, SampleTriples(c.dsiri, locs, s, name), c.blanks, Some(s), c.dlims, c.compounds)
  }

  /** The class of a column, if a class row gave it one (`cls.get(col, "")`). */
  function ClassOf(cls: map<nat, string>, col: nat): Option<string> {
    if col in cls then Some(cls[col]) else None
  }

  /** `ImpState.c`: one cell of a data or detection-limit row. */
  function CellEffect(
    c: Ctx, header: map<nat, (Field, string)>, cls: map<nat, string>, locs: seq<Term>,
    cell: Cell, col: nat, detlim: bool): Effect
  {
    if cell.None? || col !in header then Quiet(c)
    else
      var v := cell.value;
      var fieldname := header[col].1;
      match header[col].0
      case SampleField => SampleEffect(c, locs, SampleName(v))
      case Named(f) =>
        var prt := Suffix(ClassOf(cls, col), f);
        if c.sample.Some? then CompEffect(c, f + prt, fieldname + prt, v, false)
        else if detlim then CompEffect(c, f + prt, fieldname + prt, v, true)
        else Stop(c, NowhereToStore)
  }

  /** The triples of the places of a `LOCATION` value. */
  function PlacesTriples(s: Term, ps: seq<(string, string)>): set<Triple>
    decreases |ps|
  {
    if ps == [] then {}
    else
      var n := |ps| - 1;
      var o := Iri(PT, ps[n].0);
      PlacesTriples(s, ps[..n]) + {Triple(o, Type, PlaceClass), Triple(o, Label, Lit(TextV(ps[n].1))), Triple(s, FromLocation, o)}
  }

  /** The triples of the parts of a `ROCK_NAME` value. */
  function RocksTriples(s: Term, rocks: seq<string>): set<Triple>
    decreases |rocks|
  {
    if rocks == [] then {}
    else
      var n := |rocks| - 1;
      RocksTriples(s, rocks[..n]) + {Triple(s, RockRelation(rocks[n]), Iri(PT, rocks[n]))}
  }

  /** What a descriptive Alrosa column says of the sample `s`, `ROCK_TEXTURE` aside. */
  function DescriptiveTriples(s: Term, field: string, val: string): set<Triple> {
    if field == "CITATION" then {Triple(s, Cites, RefField(val).0)}
    else if field == "LOCATION" then PlacesTriples(s, Places(val))
    else if field == "TECTONIC_SETTING" then
      var o := FoldedIri(val);
      {Triple(o, Type, TectonicSettingClass), Triple(o, Label, Lit(TextV(Capitalize(val)))), Triple(s, TectonicSettingRel, o)}
    else if field == "MINERAL" then {Triple(s, MineralRel, FoldedIri(val))}
    else if field == "PRIMARY_SECONDARY" then {Triple(s, InclusionRel, Primary)}
    else RocksTriples(s, RockNames(val))
  }

  /** A descriptive Alrosa column holding text. */
  function DescriptiveEffect(c: Ctx, field: string, val: string): Effect {
    if field == "ROCK_TEXTURE" then
      match TextureIn(val, c.textures)
      case None => Quiet(c)
      case Some(iri) =>
        if c.sample.None? then Stop(c, NoSubject) else Adds(c, {Triple(c.sample.value, RockTextureRel, iri)})
    else if c.sample.None? then Stop(c, NoSubject)
    else Adds(c, DescriptiveTriples(c.sample.value, field, val))
  }

  /** `Alrosa.c`: one cell of a data row. */
  function AlrosaCellEffect(
    c: Ctx, header: map<nat, (Field, string)>, locs: seq<Term>, cell: Cell, col: nat, detlim: bool): Effect
  {
    if cell.None? || col !in header then Quiet(c)
    else
      var v := cell.value;
      var fieldname := header[col].1;
      match header[col].0
      case SampleField => SampleEffect(c, locs, AlrosaSampleName(v))
      case Named(f) =>
        if f in DescriptiveFields then
          if v.TextV? then DescriptiveEffect(c, f, v.s) else Stop(c, NotText)
        else if c.sample.Some? then CompEffect(c, f, fieldname, v, false)
        else if detlim then CompEffect(c, f, fieldname, v, true)
        else if ProcValue(cell).Some? && c.sheetName != "References" then Stop(c, NowhereToStore)
        else Quiet(c)
  }

  /**
   * A present value in a measurement column with no sample, outside a detection-limit
   * row and outside the references sheet, ends the run: `proc_value` never gives `None`
   * for a cell that holds something.
   */
  lemma AlrosaNowhereToStore(
    c: Ctx, header: map<nat, (Field, string)>, locs: seq<Term>, cell: Cell, col: nat)
    requires cell.Some? && col in header && header[col].0.Named? && header[col].0.name !in DescriptiveFields
    requires c.sample.None? && c.sheetName != "References"
    ensures AlrosaCellEffect(c, header, locs, cell, col, false) == Stop(c, NowhereToStore)
  {
    assert ProcValue(cell).Some?;
  }

  // ---------------------------------------------------------------- properties

  /** What the reader keeps true of a step's context: cached nodes are drawn, terms are IRIs where rdflib needs them. */
  predicate CtxValid(c: Ctx) {
    LimitsDrawn(c.dlims, c.blanks) && CompoundsNamed(c.compounds) &&
    (c.sample.Some? ==> c.sample.value.Iri?) && c.dsiri.Iri? &&
    (forall k | k in c.elements :: c.elements[k].Iri?)
  }

  /**
   * A step keeps to its own nodes: it only draws new blank nodes, every blank node
   * it mentions is drawn, every blank subject is one it drew, and the caches only
   * grow (a cached compound keeps its node).
   */
  predicate Keeps(c: Ctx, e: Effect) {
    c.blanks <= e.blanks && Fresh(e.added, c.blanks, e.blanks) &&
    LimitsDrawn(e.dlims, e.blanks) && CompoundsNamed(e.compounds) &&
    c.dlims.Keys <= e.dlims.Keys &&
    (forall k | k in c.compounds :: k in e.compounds && e.compounds[k] == c.compounds[k]) &&
    (e.sample.Some? ==> e.sample.value.Iri?)
  }

  lemma FreshWiden(ts: set<Triple>, lo: nat, hi: nat, hi': nat)
    requires Fresh(ts, lo, hi) && hi <= hi'
    ensures Fresh(ts, lo, hi')
  {
  }

  lemma FreshUnion(a: set<Triple>, b: set<Triple>, lo: nat, hi: nat)
    requires Fresh(a, lo, hi) && Fresh(b, lo, hi)
    ensures Fresh(a + b, lo, hi)
  {
  }

  /** The triples of a measurement of `t` as node `m`, besides those of its detection limit. */
  function MeasureOwn(c: Ctx, t: Target, m: Term, unit: Term, p: Prep, delim: bool): set<Triple>
    requires delim || c.sample.Some?
  {
    MeasureHead(if delim then c.dsiri else c.sample.value, m, delim) + MeasureValue(m, p, unit) +
    MeasureLink(c.compounds, t, m)
  }

  lemma MeasureOwnFresh(c: Ctx, t: Target, unit: Term, p: Prep, delim: bool)
    requires CtxValid(c) && (t.ElementOf? ==> t.iri.Iri?) && unit.Iri? && (delim || c.sample.Some?)
    ensures Fresh(MeasureOwn(c, t, Blank(c.blanks), unit, p, delim), c.blanks, c.blanks + 1)
  {
    var m := Blank(c.blanks);
    var lo, hi := c.blanks, c.blanks + 1;
    var h := MeasureHead(if delim then c.dsiri else c.sample.value, m, delim);
    FreshUnion(h, MeasureValue(m, p, unit), lo, hi);
    FreshUnion(h + MeasureValue(m, p, unit), MeasureLink(c.compounds, t, m), lo, hi);
  }

  /**
   * A measurement's detection limit draws only new blank nodes after the measurement's own,
   * and no analyte loses its entry in the limit cache; on a limit row the entry may point
   * at the new node instead.
   */
  lemma MeasureLimitKeeps(c: Ctx, t: Target, unit: Term, p: Prep, delim: bool)
    requires CtxValid(c) && unit.Iri?
    ensures var lim := MeasureLimit(c, t, p, unit, delim);
      Fresh(lim.added, c.blanks, lim.blanks) && c.blanks + 1 <= lim.blanks &&
      LimitsDrawn(lim.dlims, lim.blanks) && c.dlims.Keys <= lim.dlims.Keys
  {
    var m := Blank(c.blanks);
    var dl0 := if delim then c.dlims[LimitKey(t) := m] else c.dlims;
    assert LimitsDrawn(dl0, c.blanks + 1);
  }

  lemma MeasureKeeps(c: Ctx, t: Target, unit: Term, total: bool, p: Prep, delim: bool)
    requires CtxValid(c) && (t.ElementOf? ==> t.iri.Iri?) && unit.Iri?
    ensures Keeps(c, MeasureEffect(c, t, unit, total, p, delim))
  {
    if delim || c.sample.Some? {
      var m := Blank(c.blanks);
      var lim := MeasureLimit(c, t, p, unit, delim);
      MeasureLimitKeeps(c, t, unit, p, delim);
      var own := MeasureOwn(c, t, m, unit, p, delim);
      MeasureOwnFresh(c, t, unit, p, delim);
      FreshWiden(own, c.blanks, c.blanks + 1, lim.blanks);
      FreshUnion(own, lim.added, c.blanks, lim.blanks);
      FreshWiden(TotalTriples(m, total), c.blanks, c.blanks + 1, lim.blanks);
      FreshUnion(own + lim.added, TotalTriples(m, total), c.blanks, lim.blanks);
    }
  }

  /**
   * `proc_comp` draws only new blank nodes, describes only those, mentions only
   * drawn ones, and never drops a cache entry.
   */
  lemma CompKeeps(c: Ctx, name: string, fieldname: string, v: Value, delim: bool)
    requires CtxValid(c)
    ensures Keeps(c, CompEffect(c, name, fieldname, v, delim))
  {
    match Prepare(v)
    case None =>
    case Some(p) =>
      var n := Strip(name);
      var e := CompEffect(c, name, fieldname, v, delim);
      if n == "ППП" || n == "ппп" {
        assert e == IgnitionEffect(c, p, n, fieldname);
        IgnitionKeeps(c, p, n, fieldname);
      } else {
        var f := Recognise(n, c.elements);
        if f.NoFormula? {
          assert e == PlainEffect(c, n, p.ovalue, delim);
          PlainKeeps(c, n, p.ovalue, delim);
        } else if f.NotChemical? {
          assert e == MappedEffect(c, n, fieldname, p, delim);
          MappedKeeps(c, n, fieldname, p, delim);
        } else {
          var unit := UnitOf(UpperStr(f.rest), fieldname);
          assert unit.Iri?;
          assert e == MeasureEffect(c, Measured(f), unit, IsTotal(UpperStr(f.rest)), p, delim);
          MeasureKeeps(c, Measured(f), unit, IsTotal(UpperStr(f.rest)), p, delim);
        }
      }
  }

  lemma PlainKeeps(c: Ctx, name: string, ov: Value, delim: bool)
    requires CtxValid(c)
    ensures Keeps(c, PlainEffect(c, name, ov, delim))
  {
  }

  lemma MappedKeeps(c: Ctx, name: string, fieldname: string, p: Prep, delim: bool)
    requires CtxValid(c)
    ensures Keeps(c, MappedEffect(c, name, fieldname, p, delim))
  {
  }

  lemma IgnitionKeeps(c: Ctx, p: Prep, name: string, fieldname: string)
    requires CtxValid(c)
    ensures Keeps(c, IgnitionEffect(c, p, name, fieldname))
  {
    assert UnitOf(UpperStr(name), fieldname).Iri?;
  }

  /** A value that reads `N.A.` leaves the graph and the caches as they are. */
  lemma NotAvailableSkipped(c: Ctx, name: string, fieldname: string, s: string, delim: bool)
    requires Contains(UpperStr(Strip(s)), "N.A.")
    ensures CompEffect(c, name, fieldname, TextV(s), delim) == Quiet(c)
  {
  }

  /**
   * An element column on a sample row: a new measurement of the sample, typed
   * `Measurement`, with the value, its unit and the element.
   */
  lemma ElementMeasured(c: Ctx, name: string, fieldname: string, v: Value, sym: string, iri: Term, rest: string)
    requires c.sample.Some?
    requires Strip(name) != "ППП" && Strip(name) != "ппп"
    requires Recognise(Strip(name), c.elements) == Element(sym, iri, rest)
    requires Prepare(v).Some? && Prepare(v).value.dl.None?
    ensures var e := CompEffect(c, name, fieldname, v, false);
      var m := Blank(c.blanks);
      e.status == Continue && e.blanks == c.blanks + 1 && e.dlims == c.dlims &&
      Triple(c.sample.value, MeasurementRel, m) in e.added &&
      Triple(m, Type, MeasurementClass) in e.added &&
      Triple(m, ValueRel, Lit(Prepare(v).value.value)) in e.added &&
      Triple(m, UnitRel, UnitOf(UpperStr(rest), fieldname)) in e.added &&
      Triple(m, ElementRel, iri) in e.added
  {
  }

  /**
   * A detection limit `<x` on a sample row whose element or compound already has a
   * limit node links the measurement to that node and draws no second one.
   */
  lemma LimitShared(c: Ctx, t: Target, unit: Term, total: bool, p: Prep)
    requires c.sample.Some? && p.dl.Some?
    requires LimitKey(t) in c.dlims
    ensures var e := MeasureEffect(c, t, unit, total, p, false);
      var key := LimitKey(t);
      e.blanks == c.blanks + 1 && e.dlims == c.dlims &&
      Triple(Blank(c.blanks), ValueRel, c.dlims[key]) in e.added
  {
  }

  /**
   * The first `<x` for an element or compound on a sample row makes a limit node,
   * with `x` as its value, and caches it under that key.
   */
  lemma LimitCreated(c: Ctx, t: Target, unit: Term, total: bool, p: Prep)
    requires c.sample.Some? && p.dl.Some?
    requires LimitKey(t) !in c.dlims
    ensures var e := MeasureEffect(c, t, unit, total, p, false);
      var key := LimitKey(t);
      var md := Blank(c.blanks + 1);
      e.blanks == c.blanks + 2 && e.dlims == c.dlims[key := md] &&
      Triple(c.dsiri, DetectionLimitRel, md) in e.added &&
      Triple(md, ValueRel, Lit(p.value)) in e.added &&
      Triple(Blank(c.blanks), ValueRel, md) in e.added
  {
    var m := Blank(c.blanks);
    var lim := MeasureLimit(c, t, p, unit, false);
    assert lim.blanks == c.blanks + 2 && lim.dlims == c.dlims[LimitKey(t) := Blank(c.blanks + 1)];
    assert Triple(m, ValueRel, Blank(c.blanks + 1)) in lim.added;
    var e := MeasureEffect(c, t, unit, total, p, false);
    assert e.added == MeasureOwn(c, t, m, unit, p, false) + lim.added + TotalTriples(m, total);
  }

  /**
   * On a detection-limit row (no sample), a value written `<x` makes the new limit
   * node its own value: `finish_dl` caches the node before looking it up, so `x` is
   * not recorded.
   */
  lemma LimitRowSelfLoop(c: Ctx, t: Target, unit: Term, total: bool, p: Prep)
    requires p.dl.Some?
    ensures var e := MeasureEffect(c, t, unit, total, p, true);
      var m := Blank(c.blanks);
      Triple(m, ValueRel, m) in e.added &&
      forall tr | tr in e.added && tr.s == m && tr.p == ValueRel :: tr.o == m
  {
    var m := Blank(c.blanks);
    var lim := MeasureLimit(c, t, p, unit, true);
    assert lim.added == {Triple(m, ValueRel, m)};
    var e := MeasureEffect(c, t, unit, total, p, true);
    assert e.added == MeasureOwn(c, t, m, unit, p, true) + lim.added + TotalTriples(m, total);
    MeasureOwnNoValue(c, t, m, unit, p);
    assert forall tr | tr in TotalTriples(m, total) :: tr.p != ValueRel;
  }

  /** A measurement with a detection limit gives itself no value of its own. */
  lemma MeasureOwnNoValue(c: Ctx, t: Target, m: Term, unit: Term, p: Prep)
    requires p.dl.Some?
    ensures forall tr | tr in MeasureOwn(c, t, m, unit, p, true) :: tr.p != ValueRel
  {
    assert MeasureValue(m, p, unit) == {};
    assert forall tr | tr in MeasureHead(c.dsiri, m, true) :: tr.p != ValueRel;
    MeasureLinkNoValue(c.compounds, t, m);
  }

  lemma MeasureLinkNoValue(comps: map<string, Term>, t: Target, m: Term)
    ensures forall tr | tr in MeasureLink(comps, t, m) :: tr.p != ValueRel
  {
    assert ValueRel != FormulaRel && ValueRel != CompoundRel && ValueRel != ElementRel;
    if t.CompoundOf? {
      assert forall tr | tr in CompoundTriples(comps, t.comp) :: tr.p in {Type, FormulaRel, Label};
    }
  }

  /** A compound already seen keeps its node: the measurement links to it and the cache is unchanged. */
  lemma CompoundReused(c: Ctx, comp: string, unit: Term, total: bool, p: Prep, delim: bool)
    requires CompoundName(comp) in c.compounds && (delim || c.sample.Some?)
    ensures var e := MeasureEffect(c, CompoundOf(comp), unit, total, p, delim);
      e.compounds == c.compounds &&
      Triple(Blank(c.blanks), CompoundRel, c.compounds[CompoundName(comp)]) in e.added
  {
  }

  /** A compound seen for the first time is described and cached under its name. */
  lemma CompoundDescribed(c: Ctx, comp: string, unit: Term, total: bool, p: Prep, delim: bool)
    requires CompoundName(comp) !in c.compounds && (delim || c.sample.Some?)
    ensures var e := MeasureEffect(c, CompoundOf(comp), unit, total, p, delim);
      var cb := Iri(PT, CompoundName(comp));
      e.compounds == c.compounds[CompoundName(comp) := cb] &&
      Triple(cb, Type, CompoundClass) in e.added &&
      Triple(cb, FormulaRel, Lit(TextV(comp))) in e.added &&
      Triple(Blank(c.blanks), CompoundRel, cb) in e.added
  {
  }

  /** The stack below the fence is never popped by a `LOCATION` row. */
  lemma {:induction false} LocationFence(locs: seq<Term>, fence: nat, cells: seq<Cell>)
    requires fence <= |locs|
    ensures var r := LocationRowLocs(locs, fence, cells);
      fence <= |r| && r[..fence] == locs[..fence]
    decreases |cells|
  {
    if cells != [] {
      var n := |cells| - 1;
      LocationFence(locs, fence, cells[..n]);
      var prev := LocationRowLocs(locs, fence, cells[..n]);
      match cells[n]
      case Some(TextV(s)) =>
        var q := Popped(prev, fence);
        assert q[..fence] == prev[..fence];
        assert (q + [LocIri(Strip(s))])[..fence] == q[..fence];
      case _ =>
    }
  }

  /**
   * Each text cell of a `LOCATION` row adds what `proc_loc` adds for it: a site
   * inside the innermost location left after the pop.
   */
  lemma {:induction false} LocationRowNests(locs: seq<Term>, fence: nat, cells: seq<Cell>, i: nat)
    requires i < |cells| && cells[i].Some? && cells[i].value.TextV?
    ensures LocTriples(Popped(LocationRowLocs(locs, fence, cells[..i]), fence), Strip(cells[i].value.s))
      <= LocationRowTriples(locs, fence, cells)
    decreases |cells|
  {
    var n := |cells| - 1;
    LocationRowStep(locs, fence, cells);
    if i < n {
      assert cells[..n][..i] == cells[..i] && cells[..n][i] == cells[i];
      LocationRowNests(locs, fence, cells[..n], i);
    } else {
      assert cells[..i] == cells[..n];
    }
  }

  /** A `LOCATION` row's triples, one cell more. */
  lemma LocationRowStep(locs: seq<Term>, fence: nat, cells: seq<Cell>)
    requires cells != []
    ensures var n := |cells| - 1;
      var before := LocationRowTriples(locs, fence, cells[..n]);
      var prev := LocationRowLocs(locs, fence, cells[..n]);
      LocationRowTriples(locs, fence, cells) ==
        if cells[n].Some? && cells[n].value.TextV? then before + LocTriples(Popped(prev, fence), Strip(cells[n].value.s))
        else before
  {
  }

  /** `strip` is idempotent: `proc_loc` strips a name the row already stripped. */
  lemma StripStrips(s: string)
    ensures Strip(Strip(s)) == Strip(s)
  {
    var t := LStripWs(s);
    LStripWsHead(s);
    var r := RStripWs(t);
    if r != [] {
      RStripWsKeeps(t, 0);
      RStripWsEnd(t);
      assert LStripWs(r) == r;
      StripInner(r);
    }
  }

  lemma {:induction false} RStripWsEnd(t: string)
    ensures var r := RStripWs(t); r == [] || !IsSpace(r[|r| - 1])
    decreases |t|
  {
    if |t| > 0 && IsSpace(t[|t| - 1]) {
      RStripWsEnd(t[..|t| - 1]);
    }
  }

  /** Every Alrosa sample row's descriptive columns say something of the sample only when it has one. */
  lemma DescriptiveNeedsSample(c: Ctx, field: string, val: string)
    requires c.sample.None? && field != "ROCK_TEXTURE"
    ensures DescriptiveEffect(c, field, val) == Stop(c, NoSubject)
  {
  }

  /** `PRIMARY_SECONDARY` marks every sample primary, whatever the cell says. */
  lemma AlwaysPrimary(s: Term, a: string, b: string)
    ensures DescriptiveTriples(s, "PRIMARY_SECONDARY", a) == DescriptiveTriples(s, "PRIMARY_SECONDARY", b) == {Triple(s, InclusionRel, Primary)}
  {
  }
}
