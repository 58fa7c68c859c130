/**
 * The sheet reader itself: `ImpState` (and its `Alrosa` variant) as a class whose
 * methods update its fields and add triples to the shared graph one at a time,
 * each proved to do exactly what `PolEffects` and `PolRows` say the step does.
 */
module PolState {
  import opened Options
  import opened Text
  import opened Values
  import opened Rdf
  import opened PolNames
  import opened PolFormula
  import opened PolRules
  import opened PolEffects
  import opened PolRows

  /** `COMPOUNDS`: the compound nodes made so far, by name, shared by every sheet of a run. */
  class CompoundCache {
    var entries: map<string, Term>

    constructor()
      ensures entries == map[]
    {
      entries := map[];
    }
  }

  lemma UnionAssoc(a: set<Triple>, b: set<Triple>, c: set<Triple>)
    ensures a + b + c == a + (b + c)
  {
  }

  /** One initial location more. */
  lemma SitesStep(locs: seq<string>, i: nat)
    requires i < |locs|
    ensures Sites(locs[..i + 1]) == Sites(locs[..i]) + [LocIri(locs[i])]
    ensures SitesTriples(locs[..i + 1]) == SitesTriples(locs[..i]) + LocTriples(Sites(locs[..i]), locs[i])
  {
    assert locs[..i + 1][..i] == locs[..i];
  }

  lemma RocksStep(s: Term, rocks: seq<string>, i: nat)
    requires i < |rocks|
    ensures RocksTriples(s, rocks[..i + 1]) == RocksTriples(s, rocks[..i]) + {Triple(s, RockRelation(rocks[i]), Iri(PT, rocks[i]))}
  {
    assert rocks[..i + 1][..i] == rocks[..i];
  }

  lemma PlacesStep(s: Term, ps: seq<(string, string)>, i: nat)
    requires i < |ps|
    ensures var o := Iri(PT, ps[i].0);
      PlacesTriples(s, ps[..i + 1]) == PlacesTriples(s, ps[..i]) + {Triple(o, Type, PlaceClass), Triple(o, Label, Lit(TextV(ps[i].1))), Triple(s, FromLocation, o)}
  {
    assert ps[..i + 1][..i] == ps[..i];
  }

  lemma HeaderStep(v: Variant, row: seq<Cell>, i: nat, h0: map<nat, (Field, string)>, prev: Option<nat>)
    requires i < |row|
    ensures h0 + HeaderRow(v, row[..i + 1]) ==
      if row[i].Some? then (h0 + HeaderRow(v, row[..i]))[i := HeaderEntry(v, row[i].value)] else h0 + HeaderRow(v, row[..i])
    ensures SampleColumnIn(v, row[..i + 1], prev) ==
      if row[i].Some? && HeaderEntry(v, row[i].value).0.SampleField? then Some(i) else SampleColumnIn(v, row[..i], prev)
  {
    assert row[..i + 1][..i] == row[..i];
    HeaderRowStep(v, row, i);
    if row[i].Some? {
      UnionUpdate(h0, HeaderRow(v, row[..i]), i, HeaderEntry(v, row[i].value));
    }
  }

  lemma HeaderRowStep(v: Variant, row: seq<Cell>, i: nat)
    requires i < |row|
    ensures HeaderRow(v, row[..i + 1]) ==
      if row[i].Some? then HeaderRow(v, row[..i])[i := HeaderEntry(v, row[i].value)] else HeaderRow(v, row[..i])
  {
    var a := HeaderRow(v, row[..i + 1]);
    var b := HeaderRow(v, row[..i]);
    var b' := if row[i].Some? then b[i := HeaderEntry(v, row[i].value)] else b;
    forall k | k in a
      ensures k in b' && a[k] == b'[k]
    {
      assert row[..i + 1][k] == row[k];
    }
    forall k | k in b'
      ensures k in a
    {
      assert row[..i + 1][k] == row[k];
    }
  }

  lemma UnionUpdate<K, V>(a: map<K, V>, b: map<K, V>, k: K, x: V)
    ensures (a + b)[k := x] == a + b[k := x]
  {
  }

  /** The class at a column depends only on the cells up to it. */
  lemma {:induction false} ClassAtPrefix(row: seq<Cell>, n: nat, k: nat)
    requires k < n <= |row|
    ensures ClassAt(row[..n], k) == ClassAt(row, k)
    decreases k
  {
    if row[k].None? && k > 0 {
      ClassAtPrefix(row, n, k - 1);
    }
  }

  lemma ClassStep(row: seq<Cell>, i: nat, c0: map<nat, string>)
    requires i < |row|
    ensures ClassAt(row, i) == if row[i].Some? then Some(ClassText(row[i].value)) else if i == 0 then None else ClassAt(row, i - 1)
    ensures c0 + ClassRow(row[..i + 1]) ==
      if ClassAt(row, i).Some? then (c0 + ClassRow(row[..i]))[i := ClassAt(row, i).value] else c0 + ClassRow(row[..i])
  {
    ClassRowStep(row, i);
    if ClassAt(row, i).Some? {
      UnionUpdate(c0, ClassRow(row[..i]), i, ClassAt(row, i).value);
    }
  }

  lemma ClassRowStep(row: seq<Cell>, i: nat)
    requires i < |row|
    ensures ClassRow(row[..i + 1]) ==
      if ClassAt(row, i).Some? then ClassRow(row[..i])[i := ClassAt(row, i).value] else ClassRow(row[..i])
  {
    var a := ClassRow(row[..i + 1]);
    var b := ClassRow(row[..i]);
    var b' := if ClassAt(row, i).Some? then b[i := ClassAt(row, i).value] else b;
    forall k: nat | k <= i
      ensures ClassAt(row[..i + 1], k) == ClassAt(row, k)
    {
      ClassAtPrefix(row, i + 1, k);
    }
    forall k: nat | k < i
      ensures ClassAt(row[..i], k) == ClassAt(row, k)
    {
      ClassAtPrefix(row, i, k);
    }
    assert a.Keys == b'.Keys;
  }

  lemma LocationStep(locs: seq<Term>, fence: nat, row: seq<Cell>, i: nat)
    requires i < |row|
    ensures var prev := LocationRowLocs(locs, fence, row[..i]);
      var text := row[i].Some? && row[i].value.TextV?;
      LocationRowLocs(locs, fence, row[..i + 1]) == (if text then Popped(prev, fence) + [LocIri(Strip(row[i].value.s))] else prev) &&
      LocationRowTriples(locs, fence, row[..i + 1]) ==
        LocationRowTriples(locs, fence, row[..i]) + (if text then LocTriples(Popped(prev, fence), Strip(row[i].value.s)) else {})
  {
    assert row[..i + 1][..i] == row[..i];
  }

  /** A measurement's effect, piece by piece in the order the reader adds them. */
  lemma MeasureParts(c: Ctx, t: Target, unit: Term, total: bool, p: Prep, delim: bool)
    requires delim || c.sample.Some?
    ensures var e := MeasureEffect(c, t, unit, total, p, delim);
      var lim := MeasureLimit(c, t, p, unit, delim);
      e.status == Continue && e.sample == c.sample &&
      e.blanks == lim.blanks && e.dlims == lim.dlims &&
      e.compounds == if t.CompoundOf? then CompoundsAfter(c.compounds, t.comp) else c.compounds
  {
  }

  lemma MeasureAdded(c: Ctx, t: Target, unit: Term, total: bool, p: Prep, delim: bool)
    requires delim || c.sample.Some?
    ensures var m := Blank(c.blanks);
      var lim := MeasureLimit(c, t, p, unit, delim);
      MeasureEffect(c, t, unit, total, p, delim).added == MeasureHead(if delim then c.dsiri else c.sample.value, m, delim) + MeasureValue(m, p, unit) +
        MeasureLink(c.compounds, t, m) + lim.added + TotalTriples(m, total)
  {
  }

  class ImpState {
    const variant: Variant
    /** `self.g`, the graph every sheet writes to. */
    const store: Store
    const cache: CompoundCache
    /** The periodic table: element symbol to element IRI. */
    const elements: map<string, Term>
    /** The rock texture table (`ROCK_TEXTURE_MAPPING`, `Textures` in the reader). */
    const textures: seq<(string, string)>
    const dsiri: Term
    /** `kwargs['sheetName']`. */
    const sheetName: string
    /** `loc_fence`: how many locations the constructor put on the stack. */
    const fence: nat
    /** Those locations. */
    ghost const fenced: seq<Term>

    var state: Option<State>
    var header: map<nat, (Field, string)>
    var cls: map<nat, string>
    var prevClass: Option<string>
    var sample: Option<Term>
    var sampleCol: Option<nat>
    var locations: seq<Term>
    var dlims: map<string, Term>

    /** What a step sees. */
    function Context(): Ctx
      reads this, store, cache
    {
      Ctx(variant, dsiri, sheetName, elements, textures, sample, dlims, cache.entries, store.blanks)
    }

    /** The row-level fields. */
    function Fields(): Reader
      reads this
    {
      Reader(state, header, cls, prevClass, sampleCol, locations)
    }

    /** Every triple mentions only drawn blank nodes, cached nodes are sound, locations are IRIs. */
    ghost predicate Sound()
      reads this, store, cache
    {
      store.Valid() && SoundCtx(Context(), locations)
    }

    /** ... and the constructor's locations stay at the bottom of the stack. */
    ghost predicate Valid()
      reads this, store, cache
    {
      Sound() && |fenced| == fence <= |locations| && locations[..fence] == fenced
    }

    /** `ImpState.__init__`: the start state, no columns, no sample, and the initial locations pushed. */
    constructor(variant: Variant, store: Store, cache: CompoundCache, elements: map<string, Term>,
                textures: seq<(string, string)>, dsiri: Term, sheetName: string, locs: seq<string>)
      requires store.Valid() && dsiri.Iri? && CompoundsNamed(cache.entries)
      requires forall k | k in elements :: elements[k].Iri?
      modifies store
      ensures Valid() && fresh(this)
      ensures this.variant == variant && this.store == store && this.cache == cache
      ensures this.elements == elements && this.textures == textures && this.dsiri == dsiri && this.sheetName == sheetName
      ensures fence == |locs| && Fields() == StartReader(variant, locs)
      ensures sample.None? && dlims == map[] && cache.entries == old(cache.entries)
      ensures store.triples == old(store.triples) + SitesTriples(locs) && store.blanks == old(store.blanks)
    {
      this.variant := variant;
      this.store := store;
      this.cache := cache;
      this.elements := elements;
      this.textures := textures;
      this.dsiri := dsiri;
      this.sheetName := sheetName;
      fence := |locs|;
      fenced := Sites(locs);
      state := StartState(variant);
      header := map[];
      cls := map[];
      prevClass := None;
      sample := None;
      sampleCol := None;
      locations := [];
      dlims := map[];
      new;
      ProcLocs(locs);
    }

    /** `proc_locs(locations)` on the empty stack the constructor starts from: each location in turn. */
    method ProcLocs(locs: seq<string>)
      requires Sound() && locations == []
      modifies this, store
      ensures Sound() && Context() == old(Context())
      ensures Fields() == old(Fields()).(locations := Sites(locs))
      ensures store.triples == old(store.triples) + SitesTriples(locs)
    {
      ghost var r := Fields();
      var i := 0;
      while i < |locs|
        invariant 0 <= i <= |locs| && Sound() && Context() == old(Context())
        invariant Fields() == r.(locations := Sites(locs[..i]))
        invariant store.triples == old(store.triples) + SitesTriples(locs[..i])
      {
        SitesStep(locs, i);
        ProcLoc(locs[i]);
        UnionAssoc(old(store.triples), SitesTriples(locs[..i]), LocTriples(Sites(locs[..i]), locs[i]));
        i := i + 1;
      }
      assert locs[..|locs|] == locs;
    }

    // ------------------------------------------------------------ graph

    /** `self.add(t)`. */
    method Add(t: Triple)
      requires Sound() && BlanksBelow(t, store.blanks)
      modifies store
      ensures Sound() && store.triples == old(store.triples) + {t} && store.blanks == old(store.blanks)
    {
      store.Add(t);
    }

    /** Several `self.add` calls in a row. */
    method AddAll(ts: set<Triple>)
      requires Sound() && forall t | t in ts :: BlanksBelow(t, store.blanks)
      modifies store
      ensures Sound() && store.triples == old(store.triples) + ts && store.blanks == old(store.blanks)
    {
      store.AddAll(ts);
    }

    /** `belongs(obj)`: `obj` lies in the innermost location, if there is one. */
    method Belongs(obj: Term)
      requires Sound() && obj.Iri?
      modifies store
      ensures Sound() && store.blanks == old(store.blanks)
      ensures store.triples == old(store.triples) + Belonging(locations, obj)
    {
      if |locations| > 0 {
        Add(Triple(obj, LocatedIn, locations[|locations| - 1]));
      }
    }

    /** `proc_loc(name)`: a site, labelled in Russian, inside the innermost location; then pushed. */
    method ProcLoc(name: string)
      requires Sound()
      modifies this, store
      ensures Sound() && Context() == old(Context())
      ensures Fields() == old(Fields()).(locations := old(locations) + [LocIri(name)])
      ensures store.triples == old(store.triples) + LocTriples(old(locations), name)
    {
      var location := Strip(name);
      var uriloc := Iri(P, NormUriOf(location));
      Belongs(uriloc);
      AddAll({Triple(uriloc, Label, LangLit(location, "ru")), Triple(uriloc, Type, SiteClass)});
      locations := locations + [uriloc];
    }

    // ------------------------------------------------------------ proc_comp

    /** `make_detlim()`: a new detection-limit node of the dataset. */
    method MakeDetlim() returns (m: Term)
      requires Sound()
      modifies store
      ensures Sound() && m == Blank(old(store.blanks)) && store.blanks == old(store.blanks) + 1
      ensures store.triples == old(store.triples) + {Triple(dsiri, DetectionLimitRel, m), Triple(m, Type, DetectionLimitClass)}
    {
      m := store.NewBlank();
      AddAll({Triple(dsiri, DetectionLimitRel, m), Triple(m, Type, DetectionLimitClass)});
    }

    /** What the measurement `m` is of: an element, or a compound node made on first use. */
    method Link(t: Target, m: Term) returns (key: string)
      requires Sound() && m.Blank? && m.id < store.blanks && (t.ElementOf? ==> t.iri.Iri?)
      modifies store, cache
      ensures Sound() && key == LimitKey(t) && store.blanks == old(store.blanks)
      ensures store.triples == old(store.triples) + MeasureLink(old(cache.entries), t, m)
      ensures cache.entries == if t.CompoundOf? then CompoundsAfter(old(cache.entries), t.comp) else old(cache.entries)
    {
      match t
      case CompoundOf(comp) =>
        var compname := CompoundName(comp);
        var cb;
        if compname in cache.entries {
          cb := cache.entries[compname];
        } else {
          cb := Iri(PT, compname);
          AddAll({Triple(cb, Type, CompoundClass), Triple(cb, FormulaRel, Lit(TextV(comp))), Triple(cb, Label, Lit(TextV(comp)))});
          cache.entries := cache.entries[compname := cb];
        }
        Add(Triple(m, CompoundRel, cb));
        key := comp;
      case ElementOf(sym, iri) =>
        Add(Triple(m, ElementRel, iri));
        key := sym;
    }

    /** `finish_dl(key, m)`: cache `m` on a limit row; link a `<x` value to the cached limit, or make one. */
    method FinishDl(key: string, m: Term, p: Prep, unit: Term, delim: bool, ghost c: Ctx, ghost t: Target)
      requires Sound() && unit.Iri? && key == LimitKey(t) && m == Blank(c.blanks)
      requires dlims == c.dlims && dsiri == c.dsiri && store.blanks == c.blanks + 1
      modifies this, store
      ensures Sound() && sample == old(sample) && Fields() == old(Fields())
      ensures var lim := MeasureLimit(c, t, p, unit, delim);
        store.triples == old(store.triples) + lim.added && store.blanks == lim.blanks && dlims == lim.dlims
    {
      if delim {
        NoteLimit(key, m);
      }
      assert MeasureLimit(c, t, p, unit, delim) == LimitEffect(dsiri, dlims, key, m, store.blanks, p, unit);
      Resolve(key, m, p, unit);
    }

    /** `self.dlims[key] = m`: a detection-limit row records its measurement as the limit for `key`. */
    method NoteLimit(key: string, m: Term)
      requires Sound() && m.Blank? && m.id < store.blanks
      modifies this
      ensures Sound() && sample == old(sample) && Fields() == old(Fields()) && dlims == old(dlims)[key := m]
    {
      dlims := dlims[key := m];
    }

    /** The second half of `finish_dl`: a `<x` value points at the cached limit for `key`, made on first use. */
    method Resolve(key: string, m: Term, p: Prep, unit: Term)
      requires Sound() && m.Blank? && m.id < store.blanks && unit.Iri?
      modifies this, store
      ensures Sound() && sample == old(sample) && Fields() == old(Fields())
      ensures var lim := LimitEffect(dsiri, old(dlims), key, m, old(store.blanks), p, unit);
        store.triples == old(store.triples) + lim.added && store.blanks == lim.blanks && dlims == lim.dlims
    {
      if p.dl.Some? {
        if key in dlims {
          Add(Triple(m, ValueRel, dlims[key]));
        } else {
          var md := MakeDetlim();
          AddAll({Triple(md, ValueRel, Lit(p.value)), Triple(md, Type, MeasurementClass), Triple(md, UnitRel, unit)});
          dlims := dlims[key := md];
          Add(Triple(m, ValueRel, md));
        }
      }
    }

    /** The measurement node, tied to the sample, or made a detection limit of the dataset on a limit row. */
    method Head(delim: bool) returns (m: Term)
      requires Sound() && (delim || sample.Some?)
      modifies store
      ensures Sound() && m == Blank(old(store.blanks)) && store.blanks == old(store.blanks) + 1
      ensures store.triples == old(store.triples) + MeasureHead(if delim then dsiri else sample.value, m, delim)
    {
      if delim {
        m := MakeDetlim();
      } else {
        m := store.NewBlank();
        AddAll({Triple(sample.value, MeasurementRel, m), Triple(m, Type, MeasurementClass)});
      }
    }

    /** The value and unit of a measurement with no detection limit. */
    method ValueOf(m: Term, p: Prep, unit: Term)
      requires Sound() && m.Blank? && m.id < store.blanks && unit.Iri?
      modifies store
      ensures Sound() && store.blanks == old(store.blanks)
      ensures store.triples == old(store.triples) + MeasureValue(m, p, unit)
    {
      if p.dl.None? {
        AddAll({Triple(m, ValueRel, Lit(p.value)), Triple(m, UnitRel, unit)});
      }
    }

    /** A total is marked as one. */
    method Total(m: Term, total: bool)
      requires Sound() && m.Blank? && m.id < store.blanks
      modifies store
      ensures Sound() && store.blanks == old(store.blanks)
      ensures store.triples == old(store.triples) + TotalTriples(m, total)
    {
      if total {
        Add(Triple(m, TotalRel, BoolLit(true)));
      }
    }

    /** The measurement branch of `proc_comp`, for an element or a compound. */
    method Measure(t: Target, unit: Term, total: bool, p: Prep, delim: bool) returns (st: Status)
      requires Sound() && unit.Iri? && (t.ElementOf? ==> t.iri.Iri?)
      modifies this, store, cache
      ensures Sound() && Fields() == old(Fields())
      ensures var e := MeasureEffect(old(Context()), t, unit, total, p, delim);
        st == e.status && store.triples == old(store.triples) + e.added && Context() == After(old(Context()), e)
    {
      if !delim && sample.None? {
        return Abort(NoSubject);
      }
      ghost var c := Context();
      ghost var t0 := store.triples;
      ghost var lim := MeasureLimit(c, t, p, unit, delim);
      MeasureParts(c, t, unit, total, p, delim);
      MeasureAdded(c, t, unit, total, p, delim);
      var m := Head(delim);
      ghost var acc := MeasureHead(if delim then c.dsiri else c.sample.value, m, delim);
      ValueOf(m, p, unit);
      UnionAssoc(t0, acc, MeasureValue(m, p, unit));
      acc := acc + MeasureValue(m, p, unit);
      var key := Link(t, m);
      UnionAssoc(t0, acc, MeasureLink(c.compounds, t, m));
      acc := acc + MeasureLink(c.compounds, t, m);
      FinishDl(key, m, p, unit, delim, c, t);
      UnionAssoc(t0, acc, lim.added);
      acc := acc + lim.added;
      Total(m, total);
      UnionAssoc(t0, acc, TotalTriples(m, total));
      acc := acc + TotalTriples(m, total);
      st := Continue;
    }

    /** Loss on ignition: a measurement of the sample typed `IgnitionLosses`. */
    method Ignition(p: Prep, name: string, fieldname: string) returns (st: Status)
      requires Sound()
      modifies store
      ensures Sound()
      ensures var e := IgnitionEffect(old(Context()), p, name, fieldname);
        st == e.status && store.triples == old(store.triples) + e.added && Context() == After(old(Context()), e)
    {
      if sample.None? {
        return Abort(NoSubject);
      }
      var m := store.NewBlank();
      AddAll({
        Triple(sample.value, MeasurementRel, m), Triple(m, ValueRel, Lit(p.value)),
        Triple(m, Type, MeasurementClass), Triple(m, Type, IgnitionLossesClass),
        Triple(m, UnitRel, UnitOf(UpperStr(name), fieldname))});
      st := Continue;
    }

    /** `finish()` for a column that names no formula. */
    method Plain(name: string, ov: Value, delim: bool) returns (st: Status)
      requires Sound()
      modifies store
      ensures Sound()
      ensures var e := PlainEffect(old(Context()), name, ov, delim);
        st == e.status && store.triples == old(store.triples) + e.added && Context() == After(old(Context()), e)
    {
      var o := PlainObject(name, ov);
      if o.None? {
        return Abort(NotText);
      }
      if sample.Some? && !delim {
        Add(Triple(sample.value, PlainRelation(name), o.value));
      }
      st := Continue;
    }

    /** A column led by a token that is no element: the field map, else `finish()`. */
    method Mapped(name: string, fieldname: string, p: Prep, delim: bool) returns (st: Status)
      requires Sound()
      modifies store
      ensures Sound()
      ensures var e := MappedEffect(old(Context()), name, fieldname, p, delim);
        st == e.status && store.triples == old(store.triples) + e.added && Context() == After(old(Context()), e)
    {
      if variant.Generic? {
        return Abort(NoFieldMap);
      }
      if fieldname == "CITATION" || name == "CITATION" {
        if sample.None? {
          return Abort(NoSubject);
        }
        Add(Triple(sample.value, CitationRel, Lit(p.value)));
      } else if sample.Some? && !delim {
        Add(Triple(sample.value, Iri(PT, NormUriOf(name)), Lit(p.ovalue)));
      }
      st := Continue;
    }

    /** `proc_comp((name, fieldname), v, delim)`. */
    method ProcComp(name0: string, fieldname: string, v: Value, delim: bool) returns (st: Status)
      requires Sound()
      modifies this, store, cache
      ensures Sound() && Fields() == old(Fields())
      ensures var e := CompEffect(old(Context()), name0, fieldname, v, delim);
        st == e.status && store.triples == old(store.triples) + e.added && Context() == After(old(Context()), e)
    {
      ghost var c := Context();
      var pr := Prepare(v);
      if pr.None? {
        return Continue;
      }
      var p := pr.value;
      var name := Strip(name0);
      if name == "ППП" || name == "ппп" {
        st := Ignition(p, name, fieldname);
        return;
      }
      st := Formula(name, fieldname, p, delim);
    }

    /** `proc_comp` once the column name is neither empty nor the loss on ignition. */
    method Formula(name: string, fieldname: string, p: Prep, delim: bool) returns (st: Status)
      requires Sound()
      modifies this, store, cache
      ensures Sound() && Fields() == old(Fields())
      ensures var e := FormulaEffect(old(Context()), name, fieldname, p, delim);
        st == e.status && store.triples == old(store.triples) + e.added && Context() == After(old(Context()), e)
    {
      ghost var c := Context();
      var f := Recognise(name, elements);
      if f.NoFormula? {
        st := Plain(name, p.ovalue, delim);
      } else if f.NotChemical? {
        st := Mapped(name, fieldname, p, delim);
      } else {
        var unit := UnitOf(UpperStr(f.rest), fieldname);
        var total := IsTotal(UpperStr(f.rest));
        if f.Element? {
          assert f.iri.Iri? by { assert FoldSymbol(f.symbol) in elements && elements[FoldSymbol(f.symbol)] == f.iri; }
        }
        st := Measure(Measured(f), unit, total, p, delim);
      }
    }

    // ------------------------------------------------------------ cells

    /** A sample cell: the sample of the dataset it names, labelled, in the innermost location. */
    method SetSample(name: string)
      requires Sound()
      modifies this, store
      ensures Sound() && Fields() == old(Fields())
      ensures var e := SampleEffect(old(Context()), locations, name);
        store.triples == old(store.triples) + e.added && Context() == After(old(Context()), e)
    {
      var s := Iri(P, name);
      sample := Some(s);
      AddAll({Triple(dsiri, SampleRel, s), Triple(s, Type, SampleClass), Triple(s, Label, Lit(TextV(name)))});
      Belongs(s);
    }

    /** `ImpState.c`: one cell of a data or detection-limit row. */
    method GenericCell(cell: Cell, col: nat, detlim: bool) returns (st: Status)
      requires Sound()
      modifies this, store, cache
      ensures Sound() && Fields() == old(Fields())
      ensures var e := CellEffect(old(Context()), header, cls, locations, cell, col, detlim);
        st == e.status && store.triples == old(store.triples) + e.added && Context() == After(old(Context()), e)
    {
      if cell.None? || col !in header {
        return Continue;
      }
      var v := cell.value;
      var (field, fieldname) := header[col];
      match field
      case SampleField =>
        SetSample(SampleName(v));
        st := Continue;
      case Named(f) =>
        var prt := Suffix(ClassOf(cls, col), f);
        if sample.Some? {
          st := ProcComp(f + prt, fieldname + prt, v, false);
        } else if detlim {
          st := ProcComp(f + prt, fieldname + prt, v, true);
        } else {
          st := Abort(NowhereToStore);
        }
    }

    /** The places of a `LOCATION` value, each a place the sample comes from. */
    method AddPlaces(s: Term, ps: seq<(string, string)>)
      requires Sound() && s.Iri?
      modifies store
      ensures Sound() && store.blanks == old(store.blanks)
      ensures store.triples == old(store.triples) + PlacesTriples(s, ps)
    {
      var i := 0;
      while i < |ps|
        invariant 0 <= i <= |ps| && Sound() && store.blanks == old(store.blanks)
        invariant store.triples == old(store.triples) + PlacesTriples(s, ps[..i])
      {
        var o := Iri(PT, ps[i].0);
        AddAll({Triple(o, Type, PlaceClass), Triple(o, Label, Lit(TextV(ps[i].1))), Triple(s, FromLocation, o)});
        PlacesStep(s, ps, i);
        UnionAssoc(old(store.triples), PlacesTriples(s, ps[..i]), {Triple(o, Type, PlaceClass), Triple(o, Label, Lit(TextV(ps[i].1))), Triple(s, FromLocation, o)});
        i := i + 1;
      }
      assert ps[..|ps|] == ps;
    }

    /** The parts of a `ROCK_NAME` value, each a structure, unit, mineral or rock type of the sample. */
    method AddRocks(s: Term, rocks: seq<string>)
      requires Sound() && s.Iri?
      modifies store
      ensures Sound() && store.blanks == old(store.blanks)
      ensures store.triples == old(store.triples) + RocksTriples(s, rocks)
    {
      var i := 0;
      while i < |rocks|
        invariant 0 <= i <= |rocks| && Sound() && store.blanks == old(store.blanks)
        invariant store.triples == old(store.triples) + RocksTriples(s, rocks[..i])
      {
        Add(Triple(s, RockRelation(rocks[i]), Iri(PT, rocks[i])));
        RocksStep(s, rocks, i);
        UnionAssoc(old(store.triples), RocksTriples(s, rocks[..i]), {Triple(s, RockRelation(rocks[i]), Iri(PT, rocks[i]))});
        i := i + 1;
      }
      assert rocks[..|rocks|] == rocks;
    }

    /** A descriptive Alrosa column holding text. */
    method Descriptive(field: string, val: string) returns (st: Status)
      requires Sound()
      modifies store
      ensures Sound()
      ensures var e := DescriptiveEffect(old(Context()), field, val);
        st == e.status && store.triples == old(store.triples) + e.added && Context() == After(old(Context()), e)
    {
      if field == "ROCK_TEXTURE" {
        st := Texture(val);
        return;
      }
      if sample.None? {
        return Abort(NoSubject);
      }
      Describe(sample.value, field, val);
      st := Continue;
    }

    /** `ROCK_TEXTURE`: the texture class of the description, if it is not empty. */
    method Texture(val: string) returns (st: Status)
      requires Sound()
      modifies store
      ensures Sound() && store.blanks == old(store.blanks)
      ensures var e := DescriptiveEffect(old(Context()), "ROCK_TEXTURE", val);
        st == e.status && store.triples == old(store.triples) + e.added && e.sample == sample
    {
      var texture := TextureIn(val, textures);
      if texture.None? {
        return Continue;
      }
      if sample.None? {
        return Abort(NoSubject);
      }
      TextureIsIri(val, textures);
      Add(Triple(sample.value, RockTextureRel, texture.value));
      st := Continue;
    }

    /** What a descriptive column other than `ROCK_TEXTURE` says of the sample `s`. */
    method Describe(s: Term, field: string, val: string)
      requires Sound() && s.Iri?
      modifies store
      ensures Sound() && store.blanks == old(store.blanks)
      ensures store.triples == old(store.triples) + DescriptiveTriples(s, field, val)
    {
      if field == "CITATION" {
        Add(Triple(s, Cites, RefField(val).0));
      } else if field == "LOCATION" {
        AddPlaces(s, Places(val));
      } else if field == "TECTONIC_SETTING" {
        var o := FoldedIri(val);
        Add(Triple(o, Type, TectonicSettingClass));
        Add(Triple(o, Label, Lit(TextV(Capitalize(val)))));
        Add(Triple(s, TectonicSettingRel, o));
      } else if field == "MINERAL" {
        Add(Triple(s, MineralRel, FoldedIri(val)));
      } else if field == "PRIMARY_SECONDARY" {
        Add(Triple(s, InclusionRel, Primary));
      } else {
        AddRocks(s, RockNames(val));
      }
    }

    /** `Alrosa.c`: one cell of a data row. */
    method AlrosaCell(cell: Cell, col: nat, detlim: bool) returns (st: Status)
      requires Sound()
      modifies this, store, cache
      ensures Sound() && Fields() == old(Fields())
      ensures var e := AlrosaCellEffect(old(Context()), header, locations, cell, col, detlim);
        st == e.status && store.triples == old(store.triples) + e.added && Context() == After(old(Context()), e)
    {
      if cell.None? || col !in header {
        return Continue;
      }
      var v := cell.value;
      var (field, fieldname) := header[col];
      match field
      case SampleField =>
        SetSample(AlrosaSampleName(v));
        st := Continue;
      case Named(f) =>
        if f in DescriptiveFields {
          if !v.TextV? {
            return Abort(NotText);
          }
          st := Descriptive(f, v.s);
        } else if sample.Some? {
          st := ProcComp(f, fieldname, v, false);
        } else if detlim {
          st := ProcComp(f, fieldname, v, true);
        } else if sheetName != "References" {
          st := Abort(NowhereToStore);
        } else {
          st := Continue;
        }
    }

    /** `self.c`: the importer's own cell reader. */
    method Cell(cell: Cell, col: nat, detlim: bool) returns (st: Status)
      requires Sound()
      modifies this, store, cache
      ensures Sound() && Fields() == old(Fields())
      ensures var e := AnyCellEffect(old(Context()), Fields(), cell, col, detlim);
        st == e.status && store.triples == old(store.triples) + e.added && Context() == After(old(Context()), e)
    {
      if variant.Alrosa? {
        st := AlrosaCell(cell, col, detlim);
      } else {
        st := GenericCell(cell, col, detlim);
      }
    }

    /** The cells of a row in order, column `skip` aside, up to the first that ends the run. */
    method Cells(row: seq<Cell>, detlim: bool, skip: Option<nat>) returns (st: Status)
      requires Sound()
      modifies this, store, cache
      ensures Sound() && Fields() == old(Fields())
      ensures Tracks(CellsEffect(old(Context()), old(Fields()), row, detlim, skip, |row|), st, old(store.triples), store.triples, old(Context()), Context())
    {
      ghost var c0 := Context();
      ghost var r := Fields();
      var i := 0;
      st := Continue;
      while i < |row|
        invariant 0 <= i <= |row| && Sound() && Fields() == r
        invariant st == Continue && Tracks(CellsEffect(c0, r, row, detlim, skip, i), st, old(store.triples), store.triples, c0, Context())
      {
        st := CellsStep(row, detlim, skip, i, c0, r, old(store.triples));
        if st.Abort? {
          return;
        }
        i := i + 1;
      }
    }

    /** One more cell of the row, unless it is the skipped one. */
    method CellsStep(row: seq<Cell>, detlim: bool, skip: Option<nat>, i: nat, ghost c0: Ctx, ghost r: Reader, ghost t0: set<Triple>)
      returns (st: Status)
      requires Sound() && i < |row| && Fields() == r
      requires Tracks(CellsEffect(c0, r, row, detlim, skip, i), Continue, t0, store.triples, c0, Context())
      modifies this, store, cache
      ensures Sound() && Fields() == r
      ensures st.Continue? ==> Tracks(CellsEffect(c0, r, row, detlim, skip, i + 1), st, t0, store.triples, c0, Context())
      ensures st.Abort? ==> Tracks(CellsEffect(c0, r, row, detlim, skip, |row|), st, t0, store.triples, c0, Context())
    {
      ghost var e := CellsEffect(c0, r, row, detlim, skip, i);
      if skip == Some(i) {
        CellsSkipped(c0, r, row, detlim, skip, i);
        return Continue;
      }
      CellsNext(c0, r, row, detlim, skip, i);
      st := Cell(row[i], i, detlim);
      UnionAssoc(t0, e.added, AnyCellEffect(After(c0, e), r, row[i], i, detlim).added);
      if st.Abort? {
        CellsStay(c0, r, row, detlim, skip, i + 1, |row|);
      }
    }

    /** A `DATA` or `DETLIM` row: the sample cell first, then every cell. */
    method DataRow(row: seq<Cell>, detlim: bool) returns (st: Status)
      requires Sound()
      modifies this, store, cache
      ensures Sound() && Fields() == old(Fields())
      ensures var e := DataRowEffect(old(Context()), Fields(), row, detlim);
        st == e.status && store.triples == old(store.triples) + e.added && Context() == After(old(Context()), e)
    {
      if sampleCol.None? {
        return Abort(NoSampleColumn);
      }
      var sc := sampleCol.value;
      if sc >= |row| {
        return Abort(ShortRow);
      }
      ghost var c0 := Context();
      st := Cell(row[sc], sc, detlim);
      if st.Abort? {
        return;
      }
      ghost var e0 := AnyCellEffect(c0, Fields(), row[sc], sc, detlim);
      st := Cells(row, detlim, None);
      UnionAssoc(old(store.triples), e0.added, CellsEffect(After(c0, e0), Fields(), row, detlim, None, |row|).added);
    }

    /** An Alrosa data row: the sample cell first if there is a sample column, then the other cells. */
    method AlrosaDataRow(row: seq<Cell>) returns (st: Status)
      requires Sound()
      modifies this, store, cache
      ensures Sound() && Fields() == old(Fields())
      ensures var e := AlrosaDataEffect(old(Context()), Fields(), row);
        st == e.status && store.triples == old(store.triples) + e.added && Context() == After(old(Context()), e)
    {
      ghost var c0 := Context();
      ghost var e0 := Quiet(c0);
      if sampleCol.Some? {
        var sc := sampleCol.value;
        if sc >= |row| {
          return Abort(ShortRow);
        }
        st := Cell(row[sc], sc, false);
        if st.Abort? {
          return;
        }
        e0 := AnyCellEffect(c0, Fields(), row[sc], sc, false);
      }
      st := Cells(row, false, sampleCol);
      UnionAssoc(old(store.triples), e0.added, CellsEffect(After(c0, e0), Fields(), row, false, sampleCol, |row|).added);
    }

    // ------------------------------------------------------------ header, class and location rows

    /** `h(cell, row, col)`: a non-empty header cell names its column, and the sample column if it is one. */
    method H(cell: Cell, col: nat)
      requires Sound()
      modifies this
      ensures Sound() && Context() == old(Context())
      ensures Fields() == old(Fields()).(
        header := if cell.Some? then old(header)[col := HeaderEntry(variant, cell.value)] else old(header),
        sampleCol := if cell.Some? && HeaderEntry(variant, cell.value).0.SampleField? then Some(col) else old(sampleCol))
    {
      if cell.Some? {
        var entry := HeaderEntry(variant, cell.value);
        if entry.0.SampleField? {
          sampleCol := Some(col);
        }
        header := header[col := entry];
      }
    }

    /** Every cell of a header row, in order. */
    method HeaderCells(row: seq<Cell>)
      requires Sound()
      modifies this
      ensures Sound() && Context() == old(Context())
      ensures Fields() == HeaderRead(variant, old(Fields()), row).(state := old(state))
    {
      var i := 0;
      while i < |row|
        invariant 0 <= i <= |row| && Sound() && Context() == old(Context())
        invariant Fields() == old(Fields()).(header := old(header) + HeaderRow(variant, row[..i]),
          sampleCol := SampleColumnIn(variant, row[..i], old(sampleCol)))
      {
        HeaderStep(variant, row, i, old(header), old(sampleCol));
        H(row[i], i);
        i := i + 1;
      }
      assert row[..|row|] == row;
    }

    /** `hc(cell, row, col)`: a class cell sets its column's class; an empty one repeats the one before, if any. */
    method Hc(cell: Cell, col: nat)
      requires Sound()
      modifies this
      ensures Sound() && Context() == old(Context())
      ensures var orig := if cell.Some? then Some(ClassText(cell.value)) else old(prevClass);
        Fields() == old(Fields()).(
          cls := if orig.Some? then old(cls)[col := orig.value] else old(cls),
          prevClass := orig)
    {
      var orig;
      if cell.None? {
        if prevClass.None? {
          return;
        }
        orig := prevClass.value;
      } else {
        orig := ClassText(cell.value);
      }
      cls := cls[col := orig];
      prevClass := Some(orig);
    }

    /** Every cell of a class row, in order, starting with no class. */
    method ClassCells(row: seq<Cell>)
      requires Sound() && row != []
      modifies this
      ensures Sound() && Context() == old(Context())
      ensures Fields() == old(Fields()).(cls := old(cls) + ClassRow(row), prevClass := ClassAt(row, |row| - 1))
    {
      prevClass := None;
      var i := 0;
      while i < |row|
        invariant 0 <= i <= |row| && Sound() && Context() == old(Context())
        invariant Fields() == old(Fields()).(cls := old(cls) + ClassRow(row[..i]),
          prevClass := if i == 0 then None else ClassAt(row, i - 1))
      {
        ClassStep(row, i, old(cls));
        Hc(row[i], i);
        i := i + 1;
      }
      assert row[..|row|] == row;
    }

    /** Every text cell of a `LOCATION` row: pop one location above the fence, if any, and push the new one. */
    method LocationCells(row: seq<Cell>)
      requires Sound()
      modifies this, store
      ensures Sound() && Context() == old(Context())
      ensures Fields() == old(Fields()).(locations := LocationRowLocs(old(locations), fence, row))
      ensures store.triples == old(store.triples) + LocationRowTriples(old(locations), fence, row)
    {
      var i := 0;
      while i < |row|
        invariant 0 <= i <= |row| && Sound() && Context() == old(Context())
        invariant Fields() == old(Fields()).(locations := LocationRowLocs(old(locations), fence, row[..i]))
        invariant store.triples == old(store.triples) + LocationRowTriples(old(locations), fence, row[..i])
      {
        LocationStep(old(locations), fence, row, i);
        ghost var added := LocationCell(row[i]);
        UnionAssoc(old(store.triples), LocationRowTriples(old(locations), fence, row[..i]), added);
        i := i + 1;
      }
      assert row[..|row|] == row;
    }

    /** One cell of a `LOCATION` row. */
    method LocationCell(cell: Cell) returns (ghost added: set<Triple>)
      requires Sound()
      modifies this, store
      ensures Sound() && Context() == old(Context())
      ensures var text := cell.Some? && cell.value.TextV?;
        added == (if text then LocTriples(Popped(old(locations), fence), Strip(cell.value.s)) else {}) &&
        Fields() == old(Fields()).(locations := if text then Popped(old(locations), fence) + [LocIri(Strip(cell.value.s))] else old(locations)) &&
        store.triples == old(store.triples) + added
    {
      added := {};
      if cell.Some? && cell.value.TextV? {
        if |locations| > fence {
          locations := locations[..|locations| - 1];
        }
        added := LocTriples(locations, Strip(cell.value.s));
        ProcLoc(Strip(cell.value.s));
      }
    }

    // ------------------------------------------------------------ rows

    /** `ImpState.row`: a marker row switches the mode; other rows are read as the mode says. */
    method GenericRowStep(row: seq<Cell>) returns (st: Status)
      requires Sound() && variant.Generic?
      modifies this, store, cache
      ensures Sound()
      ensures var (e, r) := GenericRow(old(Context()), old(Fields()), fence, row);
        Fields() == r && Tracks(e, st, old(store.triples), store.triples, old(Context()), Context())
    {
      sample := None;
      if row == [] {
        return Abort(EmptyRow);
      }
      var mark := Marker(row[0]);
      if mark.Some? {
        var named := StateNamed(mark.value);
        if named.None? {
          return Abort(UnknownState);
        }
        state := named;
        return Continue;
      }
      st := ModeRowStep(row);
    }

    /** A row that is no marker, read as the mode says. */
    method ModeRowStep(row: seq<Cell>) returns (st: Status)
      requires Sound() && variant.Generic? && row != [] && sample.None?
      modifies this, store, cache
      ensures Sound()
      ensures var (e, r) := ModeRow(old(Context()), old(Fields()), fence, row);
        Fields() == r && Tracks(e, st, old(store.triples), store.triples, old(Context()), Context())
    {
      st := Continue;
      match state
      case Some(Data) =>
        st := DataRow(row, false);
      case Some(DetLim) =>
        st := DataRow(row, true);
      case Some(Header) =>
        HeaderCells(row);
      case Some(Class) =>
        ClassCells(row);
      case Some(Location) =>
        LocationCells(row);
      case _ =>
    }

    /** `Alrosa.row`: the header row, then data rows up to a `#REFERENCES` row, then reference rows. */
    method AlrosaRowStep(row: seq<Cell>) returns (st: Status)
      requires Sound() && variant.Alrosa?
      modifies this, store, cache
      ensures Sound()
      ensures var (e, r) := AlrosaRow(old(Context()), old(Fields()), row);
        Fields() == r && Tracks(e, st, old(store.triples), store.triples, old(Context()), Context())
    {
      sample := None;
      st := Continue;
      if state == Some(Header) {
        HeaderCells(row);
        state := Some(Data);
        return;
      }
      if row == [] {
        return Abort(EmptyRow);
      }
      var v0 := Strip(CellText(row[0]));
      if "#REFERENCES" <= v0 {
        state := Some(References);
        return;
      }
      if state == Some(Data) {
        st := AlrosaDataRow(row);
      } else {
        st := Reference(v0);
      }
    }

    /** A row of the references part: `[n] citation` describes an article; a number alone fails the assertion. */
    method Reference(v0: string) returns (st: Status)
      requires Sound()
      modifies store
      ensures Sound() && Fields() == old(Fields())
      ensures Tracks(ReferencesEffect(old(Context()), Fields(), v0), st, old(store.triples), store.triples, old(Context()), Context())
    {
      st := Continue;
      if state == Some(References) {
        var (ref, text) := RefField(v0);
        if text.None? {
          return Abort(MissingReference);
        }
        AddAll(ArticleTriples(ref, text.value));
      }
    }

    /** `row(row, rx)`, as the importer class defines it. */
    method Row(row: seq<Cell>) returns (st: Status)
      requires Valid()
      modifies this, store, cache
      ensures Valid()
      ensures var (e, r) := RowEffect(old(Context()), old(Fields()), fence, row);
        Fields() == r && Tracks(e, st, old(store.triples), store.triples, old(Context()), Context())
    {
      RowKeepsFence(Context(), Fields(), fence, row);
      if variant.Alrosa? {
        st := AlrosaRowStep(row);
      } else {
        st := GenericRowStep(row);
      }
    }

    /** The reader's fields are `rs.1`, and the graph and context are what the steps `rs.0` leave from `t0` and `c0`. */
    ghost predicate Reached(rs: (Effect, Reader), st: Status, c0: Ctx, t0: set<Triple>)
      reads this, store, cache
    {
      Fields() == rs.1 && Tracks(rs.0, st, t0, store.triples, c0, Context())
    }

    /** One more row of a sheet read from context `c0` and reader `r0`. */
    method RowsStep(rows: seq<seq<Cell>>, i: nat, ghost c0: Ctx, ghost r0: Reader, ghost t0: set<Triple>)
      returns (st: Status)
      requires Valid() && i < |rows| && Reached(RowsEffect(c0, r0, fence, rows, i), Continue, c0, t0)
      modifies this, store, cache
      ensures Valid()
      ensures st.Continue? ==> Reached(RowsEffect(c0, r0, fence, rows, i + 1), st, c0, t0)
      ensures st.Abort? ==> Reached(RowsEffect(c0, r0, fence, rows, |rows|), st, c0, t0)
    {
      ghost var prev := RowsEffect(c0, r0, fence, rows, i);
      RowsNext(c0, r0, fence, rows, i);
      st := Row(rows[i]);
      UnionAssoc(t0, prev.0.added, RowEffect(After(c0, prev.0), prev.1, fence, rows[i]).0.added);
      if st.Abort? {
        RowsStay(c0, r0, fence, rows, i + 1, |rows|);
      }
    }

    /** The rows of a sheet, in order, from the reader's current state; an abort ends the run. */
    method Rows(rows: seq<seq<Cell>>) returns (st: Status)
      requires Valid()
      modifies this, store, cache
      ensures Valid()
      ensures var (e, r) := RowsEffect(old(Context()), old(Fields()), fence, rows, |rows|);
        Fields() == r && Tracks(e, st, old(store.triples), store.triples, old(Context()), Context())
    {
      ghost var c0 := Context();
      ghost var r0 := Fields();
      var i := 0;
      st := Continue;
      while i < |rows|
        invariant 0 <= i <= |rows| && Valid()
        invariant Reached(RowsEffect(c0, r0, fence, rows, i), st, c0, old(store.triples))
        invariant st == Continue
      {
        st := RowsStep(rows, i, c0, r0, old(store.triples));
        if st.Abort? {
          return;
        }
        i := i + 1;
      }
    }
  }

  /** `parse_sheet`: a reader over the sheet, the sheet's own triples, then every row in order; an abort ends the run. */
  method ParseSheet(variant: Variant, store: Store, cache: CompoundCache, elements: map<string, Term>,
                    textures: seq<(string, string)>, sheetIri: Term, sheetName: string, locs: seq<string>,
                    rows: seq<seq<Cell>>) returns (st: Status)
    requires store.Valid() && sheetIri.Iri? && CompoundsNamed(cache.entries)
    requires forall k | k in elements :: elements[k].Iri?
    modifies store, cache
    ensures store.Valid() && CompoundsNamed(cache.entries)
    ensures var e := SheetEffect(SheetStart(variant, sheetIri, sheetName, elements, textures, old(cache.entries), old(store.blanks)), locs, rows);
      st == e.status && store.triples == old(store.triples) + e.added && store.blanks == e.blanks && cache.entries == e.compounds
  {
    var imp := new ImpState(variant, store, cache, elements, textures, sheetIri, sheetName, locs);
    imp.AddAll(SheetTriples(sheetIri, sheetName));
    ghost var c0 := imp.Context();
    assert c0 == SheetStart(variant, sheetIri, sheetName, elements, textures, old(cache.entries), old(store.blanks));
    st := imp.Rows(rows);
    ghost var e := RowsEffect(c0, StartReader(variant, locs), |locs|, rows, |rows|).0;
    UnionAssoc(old(store.triples), SitesTriples(locs), SheetTriples(sheetIri, sheetName));
    UnionAssoc(old(store.triples), SitesTriples(locs) + SheetTriples(sheetIri, sheetName), e.added);
  }

  /** The graph holds `t0` and what the steps `e` added, and the blank counter and compound cache are where `e` left them. */
  ghost predicate Holds(store: Store, cache: CompoundCache, t0: set<Triple>, e: Effect)
    reads store, cache
  {
    store.triples == t0 + e.added && store.blanks == e.blanks && cache.entries == e.compounds
  }

  /** One more sheet of the workbook: parsed if the filter admits it. */
  method XlStep(variant: Variant, store: Store, cache: CompoundCache, elements: map<string, Term>,
                textures: seq<(string, string)>, file: string, sheets: seq<(string, seq<seq<Cell>>)>,
                locs: seq<string>, i: nat, ghost comps: map<string, Term>, ghost b0: nat, ghost t0: set<Triple>)
    returns (st: Status)
    requires i < |sheets| && store.Valid() && CompoundsNamed(cache.entries)
    requires forall k | k in elements :: elements[k].Iri?
    requires XlEffect(variant, elements, textures, file, sheets, locs, comps, b0, i).status == Continue
    requires Holds(store, cache, t0, XlEffect(variant, elements, textures, file, sheets, locs, comps, b0, i))
    modifies store, cache
    ensures store.Valid() && CompoundsNamed(cache.entries)
    ensures var e := XlEffect(variant, elements, textures, file, sheets, locs, comps, b0, i + 1);
      st == e.status && Holds(store, cache, t0, e)
  {
    var name := sheets[i].0;
    if ParsesSheet(SheetsOf(variant), name, i) {
      XlNext(variant, elements, textures, file, sheets, locs, comps, b0, i);
      ghost var prev := XlEffect(variant, elements, textures, file, sheets, locs, comps, b0, i);
      st := ParseSheet(variant, store, cache, elements, textures, SheetIri(file, name), file + "_" + name, locs, sheets[i].1);
      UnionAssoc(t0, prev.added,
        SheetEffect(SheetStart(variant, SheetIri(file, name), file + "_" + name, elements, textures, prev.compounds, prev.blanks), locs, sheets[i].1).added);
    } else {
      XlPassed(variant, elements, textures, file, sheets, locs, comps, b0, i);
      st := Continue;
    }
  }

  /** `parse_xl`: every sheet of the workbook `file` that the importer's sheet filter admits, in order, as `P[normURI(file + "_" + sheet)]`. */
  method ParseXl(variant: Variant, store: Store, cache: CompoundCache, elements: map<string, Term>,
                 textures: seq<(string, string)>, file: string, sheets: seq<(string, seq<seq<Cell>>)>,
                 locs: seq<string>) returns (st: Status)
    requires store.Valid() && CompoundsNamed(cache.entries)
    requires forall k | k in elements :: elements[k].Iri?
    modifies store, cache
    ensures store.Valid() && CompoundsNamed(cache.entries)
    ensures var e := XlEffect(variant, elements, textures, file, sheets, locs, old(cache.entries), old(store.blanks), |sheets|);
      st == e.status && Holds(store, cache, old(store.triples), e)
  {
    ghost var comps := cache.entries;
    ghost var b0 := store.blanks;
    st := Continue;
    var i := 0;
    while i < |sheets|
      invariant 0 <= i <= |sheets| && store.Valid() && CompoundsNamed(cache.entries)
      invariant st == Continue && XlEffect(variant, elements, textures, file, sheets, locs, comps, b0, i).status == Continue
      invariant Holds(store, cache, old(store.triples), XlEffect(variant, elements, textures, file, sheets, locs, comps, b0, i))
    {
      st := XlStep(variant, store, cache, elements, textures, file, sheets, locs, i, comps, b0, old(store.triples));
      if st.Abort? {
        XlStay(variant, elements, textures, file, sheets, locs, comps, b0, i + 1, |sheets|);
        return;
      }
      i := i + 1;
    }
  }

  lemma TextureIsIri(s: string, table: seq<(string, string)>)
    ensures TextureIn(s, table).Some? ==> TextureIn(s, table).value.Iri?
  {
  }
}
