/**
 * `convert_features_to_rdf`: the triples written for one pipe from its canonical feature
 * dictionary. Each section present in the dictionary (`geology`, `olivine`, `target`,
 * `assoc`) gets blank nodes of its own, drawn in the order the source draws them.
 */
module FeatureRdf {
  import opened Options
  import opened Text
  import opened Values
  import opened Rdf
  import opened Dicts
  import opened FeatureKeys
  import opened FeatureLookups
  import opened FeatureMinerals

  /** The feature dictionary of a pipe: section names and their sections. */
  type Features = Dict<Section>

  /** Triples written and the blank counter after writing them. */
  datatype Out = Out(ts: set<Triple>, next: nat)

  /** `a`, then `b` from where `a` left the counter. */
  function Then(a: Out, b: Out): Out {
    Out(a.ts + b.ts, b.next)
  }

  // ---------------------------------------------------------------- the pipe

  /** `create_pipe_uri(pipe_id)`. */
  function PipeIri(pipeId: string): Term {
    Crust("KimberlitePipe/" + pipeId)
  }

  /** The pipe node: the one given, or the one made from the id. */
  function PipeNode(pipeId: string, pipeUri: Option<Term>): Term {
    if pipeUri.Some? then pipeUri.value else PipeIri(pipeId)
  }

  /** The type (only for a pipe node made here), the two labels and the id. */
  function HeaderTriples(pipeId: string, pipeUri: Option<Term>): set<Triple> {
    var pipe := PipeNode(pipeId, pipeUri);
    (if pipeUri.None? then {Triple(pipe, Type, Crust("KimberlitePipe"))} else {})
    + {Triple(pipe, Label, LangLit("Трубка " + pipeId, "ru")),
       Triple(pipe, Label, LangLit("Pipe " + pipeId, "en")),
       Triple(pipe, Crust("pipeId"), StringLit(pipeId))}
  }

  // ---------------------------------------------------------------- keys looked up exactly

  /** `clean_numeric(section[key])`, for a key that is in the section. */
  function Reading(section: Section, key: string): Option<Decimal> {
    match Get(section, key)
    case None => None
    case Some(v) => CleanNumeric(v)
  }

  /**
   * `if key in section: ...` for one key: a decimal if `numeric` and the value reads as
   * a number, the value's text in Russian if not `numeric`.
   */
  function ExactEntry(node: Term, section: Section, key: string, prop: Term, numeric: bool): set<Triple> {
    if numeric then
      match Reading(section, key)
      case None => {}
      case Some(d) => {Triple(node, prop, DecimalLit(d))}
    else
      match Get(section, key)
      case None => {}
      case Some(v) => {Triple(node, prop, LangLit(Str(v), "ru"))}
  }

  /** What an exactly looked-up key adds is about `node` and `prop` alone. */
  lemma ExactEntryShape(node: Term, section: Section, key: string, prop: Term, numeric: bool, t: Triple)
    requires t in ExactEntry(node, section, key, prop, numeric)
    ensures t.s == node && t.p == prop && HasKey(section, key)
  {
  }

  // ---------------------------------------------------------------- geology

  const HasGeology := Crust("hasGeology")
  const PipeGeology := Crust("PipeGeology")
  const BodyShape := Crust("bodyShape")
  const AgeMillionYears := Crust("ageMillionYears")
  const Overburden := Crust("overburden")
  const Area := Crust("area")
  const SizeLength := Crust("sizeLength")
  const SizeWidth := Crust("sizeWidth")

  const AgeKey := "Возраст_млн_лет"
  const AreaKey := "Площадь"
  const SizeKey := "Размер"

  /** `geo_mapping`: the size has no property of its own and is read apart. */
  const GeoMapping: seq<(string, Option<Term>)> :=
    [("Форма_тела", Some(BodyShape)), (AgeKey, Some(AgeMillionYears)), ("Перекрытие", Some(Overburden)),
     (SizeKey, None), (AreaKey, Some(Area))]

  /** One entry of `geo_mapping`: the age and the area are numbers, the rest text. */
  function GeoEntry(node: Term, section: Section, e: (string, Option<Term>)): set<Triple> {
    if e.1.None? then {} else ExactEntry(node, section, e.0, e.1.value, e.0 == AgeKey || e.0 == AreaKey)
  }

  /**
   * Length and width: the first two runs of digits in the size's text, when it has
   * at least two.
   */
  function SizeTriples(node: Term, section: Section): set<Triple> {
    match Get(section, SizeKey)
    case None => {}
    case Some(v) =>
      var parts := DigitRuns(Str(v));
      if |parts| >= 2 then
        {Triple(node, SizeLength, DecimalLit(Decimal(DigitsValue(parts[0]), 0))),
         Triple(node, SizeWidth, DecimalLit(Decimal(DigitsValue(parts[1]), 0)))}
      else {}
  }

  /** The geology node, its mapped values and its size. */
  function GeologyOut(pipe: Term, section: Section, next: nat): Out {
    var node := Blank(next);
    Out({Triple(pipe, HasGeology, node), Triple(node, Type, PipeGeology)}
        + Unions(GeoMapping, e => GeoEntry(node, section, e))
        + SizeTriples(node, section),
        next + 1)
  }

  /** An entry of `geo_mapping` writes only its own property, about the geology node. */
  lemma GeoEntryProp(node: Term, section: Section, e: (string, Option<Term>), t: Triple)
    requires t in GeoEntry(node, section, e)
    ensures t.s == node && e.1.Some? && t.p == e.1.value
    ensures t in ExactEntry(node, section, e.0, e.1.value, e.0 == AgeKey || e.0 == AreaKey)
  {
  }

  /** The mapped values of the geology node carry only the mapping's properties. */
  lemma GeoMappingProps(node: Term, section: Section, t: Triple)
    requires t in Unions(GeoMapping, e => GeoEntry(node, section, e))
    ensures t.s == node
    ensures t.p == BodyShape || t.p == AgeMillionYears || t.p == Overburden || t.p == Area
    ensures t.p == AgeMillionYears ==> t in ExactEntry(node, section, AgeKey, AgeMillionYears, true)
  {
    var f := e => GeoEntry(node, section, e);
    UnionsMember(GeoMapping, f, t);
    var k :| 0 <= k < |GeoMapping| && t in f(GeoMapping[k]);
    GeoEntryProp(node, section, GeoMapping[k], t);
    assert |AgeMillionYears.local| == 15;
    if k == 0 {
      assert |BodyShape.local| == 9;
    } else if k == 2 {
      assert |Overburden.local| == 10;
    } else if k == 4 {
      assert |Area.local| == 4;
    }
  }

  /**
   * The size gives a length and a width exactly when its text has two runs of digits, and
   * then the length is the first run and the width the second; with fewer, neither is written.
   */
  lemma GeologySize(pipe: Term, section: Section, next: nat, v: Cell, o: Term)
    requires Get(section, SizeKey) == Some(v)
    ensures var parts := DigitRuns(Str(v));
      Triple(Blank(next), SizeLength, o) in GeologyOut(pipe, section, next).ts <==>
        |parts| >= 2 && o == DecimalLit(Decimal(DigitsValue(parts[0]), 0))
    ensures var parts := DigitRuns(Str(v));
      Triple(Blank(next), SizeWidth, o) in GeologyOut(pipe, section, next).ts <==>
        |parts| >= 2 && o == DecimalLit(Decimal(DigitsValue(parts[1]), 0))
  {
    SizeOnlyFromSize(pipe, section, next, SizeLength, o);
    SizeOnlyFromSize(pipe, section, next, SizeWidth, o);
  }

  /** A length or width triple of the geology output comes from the size and nowhere else. */
  lemma SizeOnlyFromSize(pipe: Term, section: Section, next: nat, p: Term, o: Term)
    requires p == SizeLength || p == SizeWidth
    ensures Triple(Blank(next), p, o) in GeologyOut(pipe, section, next).ts <==>
      Triple(Blank(next), p, o) in SizeTriples(Blank(next), section)
  {
    var t := Triple(Blank(next), p, o);
    if t in Unions(GeoMapping, e => GeoEntry(Blank(next), section, e)) {
      GeoMappingProps(Blank(next), section, t);
      assert false;
    }
  }

  /**
   * The age is written only as a number: a triple with the age property carries the
   * decimal the age's value reads as.
   */
  lemma GeologyAgeNumeric(pipe: Term, section: Section, next: nat, t: Triple)
    requires t in GeologyOut(pipe, section, next).ts && t.p == AgeMillionYears
    ensures Reading(section, AgeKey).Some?
    ensures t == Triple(Blank(next), AgeMillionYears, DecimalLit(Reading(section, AgeKey).value))
  {
    if t in Unions(GeoMapping, e => GeoEntry(Blank(next), section, e)) {
      GeoMappingProps(Blank(next), section, t);
    }
  }

  /** One entry of the `geo_mapping` loop. */
  method EmitExact(g: Store, node: Term, section: Section, key: string, prop: Term, numeric: bool)
    requires g.Valid() && Drawn(node, g.blanks) && !prop.Blank?
    modifies g
    ensures g.Valid() && g.blanks == old(g.blanks)
    ensures g.triples == old(g.triples) + ExactEntry(node, section, key, prop, numeric)
  {
    var found := Get(section, key);
    if found.Some? {
      var value := found.value;
      if numeric {
        var num := CleanNumeric(value);
        if num.Some? {
          g.Add(Triple(node, prop, DecimalLit(num.value)));
        }
      } else {
        g.Add(Triple(node, prop, LangLit(Str(value), "ru")));
      }
    }
  }

  /** The body of the `geo_mapping` loop. */
  method EmitGeoEntry(g: Store, node: Term, section: Section, e: (string, Option<Term>))
    requires g.Valid() && Drawn(node, g.blanks) && (e.1.Some? ==> !e.1.value.Blank?)
    modifies g
    ensures g.Valid() && g.blanks == old(g.blanks)
    ensures g.triples == old(g.triples) + GeoEntry(node, section, e)
  {
    var key := e.0;
    var prop := e.1;
    if prop.Some? {
      EmitExact(g, node, section, key, prop.value, key == AgeKey || key == AreaKey);
    }
  }

  /** `for key, prop in geo_mapping.items(): ...` */
  method EmitGeoMapping(g: Store, node: Term, section: Section)
    requires g.Valid() && Drawn(node, g.blanks)
    modifies g
    ensures g.Valid() && g.blanks == old(g.blanks)
    ensures g.triples == old(g.triples) + Unions(GeoMapping, e => GeoEntry(node, section, e))
  {
    for k := 0 to |GeoMapping|
      invariant g.Valid() && g.blanks == old(g.blanks)
      invariant g.triples == old(g.triples) + Unions(GeoMapping[..k], e => GeoEntry(node, section, e))
    {
      EmitGeoEntry(g, node, section, GeoMapping[k]);
      assert GeoMapping[..k + 1][..k] == GeoMapping[..k];
    }
    assert GeoMapping[..|GeoMapping|] == GeoMapping;
  }

  /** The size of the pipe. */
  method EmitSize(g: Store, node: Term, section: Section)
    requires g.Valid() && Drawn(node, g.blanks)
    modifies g
    ensures g.Valid() && g.blanks == old(g.blanks)
    ensures g.triples == old(g.triples) + SizeTriples(node, section)
  {
    var found := Get(section, SizeKey);
    if found.Some? {
      var parts := DigitRuns(Str(found.value));
      if |parts| >= 2 {
        g.Add(Triple(node, SizeLength, DecimalLit(Decimal(DigitsValue(parts[0]), 0))));
        g.Add(Triple(node, SizeWidth, DecimalLit(Decimal(DigitsValue(parts[1]), 0))));
      }
    }
  }

  /** Section 1 of the converter: geology. */
  method EmitGeology(g: Store, pipe: Term, section: Section)
    requires g.Valid() && Drawn(pipe, g.blanks)
    modifies g
    ensures var o := GeologyOut(pipe, section, old(g.blanks));
      g.Valid() && g.triples == old(g.triples) + o.ts && g.blanks == o.next
  {
    var node := g.NewBlank();
    g.Add(Triple(pipe, HasGeology, node));
    g.Add(Triple(node, Type, PipeGeology));
    EmitGeoMapping(g, node, section);
    EmitSize(g, node, section);
  }

  // ---------------------------------------------------------------- olivine

  const HasPetrography := Crust("hasPetrography")
  const Petrography := Crust("Petrography")
  const HasOlivineFraction := Crust("hasOlivineFraction")
  const OlivineSizeFraction := Crust("OlivineSizeFraction")
  const FractionRange := Crust("fractionRange")
  const FractionPercentage := Crust("fractionPercentage")

  /** `fraction_mapping`: the section's key of a size fraction and its English label. */
  const FractionMapping: seq<(string, string)> :=
    [("1_2_мм", "1_2_mm"), ("2_4_мм", "2_4_mm"), ("4_8_мм", "4_8_mm"), ("8_16_мм", "8_16_mm")]

  /** The triples of a fraction node `b`. */
  function FractionTriples(petro: Term, b: Term, fraction: string, d: Decimal): set<Triple> {
    {Triple(petro, HasOlivineFraction, b), Triple(b, Type, OlivineSizeFraction),
     Triple(b, FractionRange, LangLit(fraction, "en")), Triple(b, FractionPercentage, DecimalLit(d))}
  }

  /** A fraction's label and what its key reads as, fraction by fraction. */
  type Reads = seq<(string, Option<Decimal>)>

  function FractionReads(section: Section, fs: seq<(string, string)>): (rs: Reads)
    ensures |rs| == |fs|
  {
    seq(|fs|, i requires 0 <= i < |fs| => (fs[i].1, Reading(section, fs[i].0)))
  }

  /** One fraction: a node of its own only when its key is there and its value is a number. */
  function FractionStep(petro: Term, r: (string, Option<Decimal>), o: Out): Out {
    if r.1.None? then o else Out(o.ts + FractionTriples(petro, Blank(o.next), r.0, r.1.value), o.next + 1)
  }

  /** The loop over the fractions. */
  function Fractions(petro: Term, rs: Reads, o: Out): Out
    decreases |rs|
  {
    if rs == [] then o else FractionStep(petro, rs[|rs| - 1], Fractions(petro, rs[..|rs| - 1], o))
  }

  /** The petrography node and its fractions. */
  function OlivineOut(pipe: Term, section: Section, next: nat): Out {
    var petro := Blank(next);
    Then(Out({Triple(pipe, HasPetrography, petro), Triple(petro, Type, Petrography)}, next + 1),
         Fractions(petro, FractionReads(section, FractionMapping), Out({}, next + 1)))
  }

  /** The fraction loop only adds to what it has written. */
  lemma {:induction false} FractionsGrow(petro: Term, rs: Reads, o: Out, j: nat)
    requires j <= |rs|
    ensures Fractions(petro, rs[..j], o).ts <= Fractions(petro, rs, o).ts
    decreases |rs|
  {
    if j < |rs| {
      var n := |rs| - 1;
      assert rs[..n][..j] == rs[..j];
      FractionsGrow(petro, rs[..n], o, j);
    } else {
      assert rs[..j] == rs;
    }
  }

  /** The fraction loop keeps what was there and never moves the counter back. */
  lemma {:induction false} FractionsExtend(petro: Term, rs: Reads, o: Out)
    ensures o.ts <= Fractions(petro, rs, o).ts && o.next <= Fractions(petro, rs, o).next
    decreases |rs|
  {
    if rs != [] {
      FractionsExtend(petro, rs[..|rs| - 1], o);
    }
  }

  /** Every fraction that reads as a number gets a node with its label and percentage. */
  lemma FractionsComplete(petro: Term, rs: Reads, o: Out, i: nat)
    requires i < |rs| && rs[i].1.Some?
    ensures exists b :: FractionTriples(petro, b, rs[i].0, rs[i].1.value) <= Fractions(petro, rs, o).ts
  {
    var before := Fractions(petro, rs[..i], o);
    assert rs[..i + 1][..i] == rs[..i];
    var b := Blank(before.next);
    assert FractionTriples(petro, b, rs[i].0, rs[i].1.value) <= Fractions(petro, rs[..i + 1], o).ts;
    FractionsGrow(petro, rs, o, i + 1);
  }

  /** Everything the fraction loop adds belongs to a fraction that reads as a number. */
  lemma {:induction false} FractionsSound(petro: Term, rs: Reads, o: Out, t: Triple)
    requires t in Fractions(petro, rs, o).ts - o.ts
    ensures exists i | 0 <= i < |rs| :: rs[i].1.Some? && exists b :: t in FractionTriples(petro, b, rs[i].0, rs[i].1.value)
    decreases |rs|
  {
    var n := |rs| - 1;
    var before := Fractions(petro, rs[..n], o);
    if t in before.ts {
      FractionsSound(petro, rs[..n], o, t);
      var i :| 0 <= i < n && rs[..n][i].1.Some? && exists b :: t in FractionTriples(petro, b, rs[..n][i].0, rs[..n][i].1.value);
      assert rs[..n][i] == rs[i];
    } else {
      assert t in FractionTriples(petro, Blank(before.next), rs[n].0, rs[n].1.value);
    }
  }

  /**
   * A size fraction whose key is there with a number gets a node under the petrography
   * node, carrying its label and that number as percentage.
   */
  lemma OlivineFractionWritten(pipe: Term, section: Section, next: nat, i: nat)
    requires i < |FractionMapping| && Reading(section, FractionMapping[i].0).Some?
    ensures exists b :: FractionTriples(Blank(next), b, FractionMapping[i].1, Reading(section, FractionMapping[i].0).value)
                        <= OlivineOut(pipe, section, next).ts
  {
    var rs := FractionReads(section, FractionMapping);
    FractionsComplete(Blank(next), rs, Out({}, next + 1), i);
  }

  /** The only range triple of a fraction node is its label. */
  lemma FractionRangeOnly(petro: Term, b: Term, fraction: string, d: Decimal, t: Triple)
    requires t in FractionTriples(petro, b, fraction, d) && t.p == FractionRange
    ensures t.o == LangLit(fraction, "en")
  {
    assert FractionRange.local[8] != FractionPercentage.local[8];
    assert FractionRange.local[0] != HasOlivineFraction.local[0];
  }

  /** A size fraction whose key is missing or holds no number gets no node. */
  lemma OlivineFractionNumeric(pipe: Term, section: Section, next: nat, i: nat, b: Term)
    requires i < |FractionMapping|
    requires Triple(b, FractionRange, LangLit(FractionMapping[i].1, "en")) in OlivineOut(pipe, section, next).ts
    ensures Reading(section, FractionMapping[i].0).Some?
  {
    var rs := FractionReads(section, FractionMapping);
    var t := Triple(b, FractionRange, LangLit(FractionMapping[i].1, "en"));
    FractionsSound(Blank(next), rs, Out({}, next + 1), t);
    var j :| 0 <= j < |rs| && rs[j].1.Some? && exists b' :: t in FractionTriples(Blank(next), b', rs[j].0, rs[j].1.value);
    var b' :| t in FractionTriples(Blank(next), b', rs[j].0, rs[j].1.value);
    FractionRangeOnly(Blank(next), b', rs[j].0, rs[j].1.value, t);
    FractionLabelsDistinct(i, j);
  }

  /** The fractions' labels are all different. */
  lemma FractionLabelsDistinct(i: nat, j: nat)
    requires i < |FractionMapping| && j < |FractionMapping| && FractionMapping[i].1 == FractionMapping[j].1
    ensures i == j
  {
    var firsts := ['1', '2', '4', '8'];
    assert forall k | 0 <= k < 4 :: |FractionMapping[k].1| > 0 && FractionMapping[k].1[0] == firsts[k];
  }

  /** The body of the fraction loop, given what the fraction's key reads as. */
  method EmitFraction(g: Store, petro: Term, r: (string, Option<Decimal>), ghost ts0: set<Triple>, ghost o: Out)
    requires g.Valid() && Drawn(petro, g.blanks) && g.triples == ts0 + o.ts && g.blanks == o.next
    modifies g
    ensures var o' := FractionStep(petro, r, o);
      g.Valid() && g.triples == ts0 + o'.ts && g.blanks == o'.next
  {
    if r.1.Some? {
      var b := g.NewBlank();
      g.Add(Triple(petro, HasOlivineFraction, b));
      g.Add(Triple(b, Type, OlivineSizeFraction));
      g.Add(Triple(b, FractionRange, LangLit(r.0, "en")));
      g.Add(Triple(b, FractionPercentage, DecimalLit(r.1.value)));
    }
  }

  /** `for fraction_key, fraction_label in fraction_mapping.items(): ...` */
  method EmitFractions(g: Store, petro: Term, section: Section)
    requires g.Valid() && Drawn(petro, g.blanks)
    modifies g
    ensures var o := Fractions(petro, FractionReads(section, FractionMapping), Out({}, old(g.blanks)));
      g.Valid() && g.triples == old(g.triples) + o.ts && g.blanks == o.next
  {
    ghost var rs := FractionReads(section, FractionMapping);
    ghost var o := Out({}, g.blanks);
    ghost var ts0 := g.triples;
    for k := 0 to |FractionMapping|
      invariant o == Fractions(petro, rs[..k], Out({}, old(g.blanks)))
      invariant g.Valid() && g.triples == ts0 + o.ts && g.blanks == o.next && Drawn(petro, g.blanks)
    {
      assert rs[..k + 1][..k] == rs[..k];
      var f := FractionMapping[k];
      var found := Get(section, f.0);
      var value := if found.Some? then CleanNumeric(found.value) else None;
      assert rs[k] == (f.1, value);
      EmitFraction(g, petro, (f.1, value), ts0, o);
      o := FractionStep(petro, (f.1, value), o);
    }
    assert rs[..|rs|] == rs;
  }

  /** Section 2 of the converter: olivine petrography. */
  method EmitOlivine(g: Store, pipe: Term, section: Section)
    requires g.Valid() && Drawn(pipe, g.blanks)
    modifies g
    ensures var o := OlivineOut(pipe, section, old(g.blanks));
      g.Valid() && g.triples == old(g.triples) + o.ts && g.blanks == o.next
  {
    var petro := g.NewBlank();
    g.Add(Triple(pipe, HasPetrography, petro));
    g.Add(Triple(petro, Type, Petrography));
    EmitFractions(g, petro, section);
  }

  // ---------------------------------------------------------------- target indicators

  const HasTargetIndicators := Crust("hasTargetIndicators")
  const TargetIndicators := Crust("TargetIndicators")
  const ParamA := Crust("paramA")
  const ParamB := Crust("paramB")
  const ParamC := Crust("paramC")
  const ParamD := Crust("paramD")
  const ParamE := Crust("paramE")

  /** `feature_mapping`. */
  const TargetMapping: seq<(string, Term)> := [("A", ParamA), ("B", ParamB), ("C", ParamC), ("D", ParamD), ("E", ParamE)]

  /** `prop in [CRUST.paramA, CRUST.paramB, CRUST.paramC, CRUST.paramD]`. */
  predicate NumericParam(prop: Term) {
    prop in [ParamA, ParamB, ParamC, ParamD]
  }

  /** One entry of `feature_mapping`: A to D are numbers, E is text. */
  function TargetEntry(node: Term, section: Section, e: (string, Term)): set<Triple> {
    ExactEntry(node, section, e.0, e.1, NumericParam(e.1))
  }

  /** The target indicators node and its parameters. */
  function TargetOut(pipe: Term, section: Section, next: nat): Out {
    var node := Blank(next);
    Out({Triple(pipe, HasTargetIndicators, node), Triple(node, Type, TargetIndicators)}
        + Unions(TargetMapping, e => TargetEntry(node, section, e)),
        next + 1)
  }

  /** The five parameters are different properties. */
  lemma TargetParamsDistinct(i: nat, j: nat)
    requires i < |TargetMapping| && j < |TargetMapping| && TargetMapping[i].1 == TargetMapping[j].1
    ensures i == j
  {
    var lasts := ['A', 'B', 'C', 'D', 'E'];
    assert forall k | 0 <= k < 5 :: |TargetMapping[k].1.local| == 6 && TargetMapping[k].1.local[5] == lasts[k];
  }

  /** Only the first four parameters are numbers. */
  lemma NumericParams(k: nat)
    requires k < |TargetMapping|
    ensures NumericParam(TargetMapping[k].1) <==> k < 4
  {
    if NumericParam(TargetMapping[k].1) {
      var j :| 0 <= j < 4 && [ParamA, ParamB, ParamC, ParamD][j] == TargetMapping[k].1;
      TargetParamsDistinct(j, k);
    }
  }

  /**
   * Parameters A to D are written only as numbers: a triple with one of them carries
   * the decimal its key's value reads as.
   */
  lemma TargetNumeric(pipe: Term, section: Section, next: nat, k: nat, t: Triple)
    requires k < 4 && t in TargetOut(pipe, section, next).ts && t.p == TargetMapping[k].1
    ensures Reading(section, TargetMapping[k].0).Some?
    ensures t == Triple(Blank(next), TargetMapping[k].1, DecimalLit(Reading(section, TargetMapping[k].0).value))
  {
    var node := Blank(next);
    var f := e => TargetEntry(node, section, e);
    assert |HasTargetIndicators.local| != |TargetMapping[k].1.local|;
    UnionsMember(TargetMapping, f, t);
    var j :| 0 <= j < |TargetMapping| && t in f(TargetMapping[j]);
    ExactEntryShape(node, section, TargetMapping[j].0, TargetMapping[j].1, NumericParam(TargetMapping[j].1), t);
    TargetParamsDistinct(j, k);
    NumericParams(k);
  }

  /** Parameter E is written whenever its key is there, as its value's text. */
  lemma TargetTextAlways(pipe: Term, section: Section, next: nat, v: Cell)
    requires Get(section, "E") == Some(v)
    ensures Triple(Blank(next), ParamE, LangLit(Str(v), "ru")) in TargetOut(pipe, section, next).ts
  {
    var node := Blank(next);
    var f := e => TargetEntry(node, section, e);
    NumericParams(4);
    assert Triple(node, ParamE, LangLit(Str(v), "ru")) in f(TargetMapping[4]);
    UnionsMember(TargetMapping, f, Triple(node, ParamE, LangLit(Str(v), "ru")));
  }

  /** The body of the `feature_mapping` loop. */
  method EmitTargetEntry(g: Store, node: Term, section: Section, e: (string, Term))
    requires g.Valid() && Drawn(node, g.blanks) && !e.1.Blank?
    modifies g
    ensures g.Valid() && g.blanks == old(g.blanks)
    ensures g.triples == old(g.triples) + TargetEntry(node, section, e)
  {
    var key := e.0;
    var prop := e.1;
    EmitExact(g, node, section, key, prop, prop in [ParamA, ParamB, ParamC, ParamD]);
  }

  /** Section 3 of the converter: target indicators. */
  method EmitTarget(g: Store, pipe: Term, section: Section)
    requires g.Valid() && Drawn(pipe, g.blanks)
    modifies g
    ensures var o := TargetOut(pipe, section, old(g.blanks));
      g.Valid() && g.triples == old(g.triples) + o.ts && g.blanks == o.next
  {
    var node := g.NewBlank();
    assert node == Blank(old(g.blanks)) && g.blanks == old(g.blanks) + 1;
    var head := {Triple(pipe, HasTargetIndicators, node), Triple(node, Type, TargetIndicators)};
    g.AddAll(head);
    ghost var ts1 := g.triples;
    ghost var f := e => TargetEntry(node, section, e);
    for k := 0 to |TargetMapping|
      invariant g.Valid() && g.blanks == old(g.blanks) + 1
      invariant g.triples == ts1 + Unions(TargetMapping[..k], f)
    {
      EmitTargetEntry(g, node, section, TargetMapping[k]);
      assert TargetMapping[..k + 1][..k] == TargetMapping[..k];
    }
    assert TargetMapping[..|TargetMapping|] == TargetMapping;
    Appended(old(g.triples), head, Unions(TargetMapping, f));
  }

  // ---------------------------------------------------------------- diamond association

  const HasDiamondAssociation := Crust("hasDiamondAssociation")
  const DiamondAssociation := Crust("DiamondAssociation")

  /**
   * A node the association section hangs under a parent: the local names of the link
   * to it and of its class, possibly a mineral tag (property and mineral), and a mapping
   * from section keys to the local names of the properties its values go to.
   */
  datatype SubNode = SubNode(link: string, cls: string, tag: Option<(string, Mineral)>, mapping: seq<(string, string)>)

  /** `garnet_class_mapping`. */
  const GarnetClassMapping: seq<(string, string)> := [
    ("алмазная_ассоциация_gar_(по_Соболев_1974)_%_от_перидотитовых_gar_(по_Shulze_2003)", "garSobolev1974Peridotitic"),
    ("G10_%", "g10Percent"), ("G10D_%", "g10dPercent"), ("G3D_%", "g3dPercent"),
    ("G4D_%", "g4dPercent"), ("G5D_%", "g5dPercent"), ("Cr2O3_>_5_мас.%_%", "cr2o3gt5Percent"),
    ("TiO2_мас.%_(для_перидоти_товых)", "tio2Peridotitic"), ("TiO2_мас.%_(при_Cr2O3_>_5_мас._%)", "tio2HighCr")]

  /** `chromite_mapping`. */
  const ChromiteMapping: seq<(string, string)> := [
    ("Алмазная_ассоциация_%_chr", "chromiteDiamondPercent"),
    ("%_принадлежащих_к_перидотитовому_тренду_chr", "chromitePeridotiticTrendPercent")]

  /** `ilmenite_mapping`. */
  const IlmeniteMapping: seq<(string, string)> := [
    ("Кимбер_литовые", "kimberliticIlmenitePercent"), ("Не_кимбер_литовые", "nonKimberliticIlmenitePercent")]

  /** `quality_mapping`. */
  const QualityMapping: seq<(string, string)> := [
    ("Хорошая", "goodQualityPercent"), ("Средняя", "mediumQualityPercent"), ("Плохая", "poorQualityPercent"),
    ("Предельная", "limitQualityPercent"), ("Отсутствует", "absentPercent")]

  /** `garnet_geo_mapping`. */
  const GarnetGeoMapping: seq<(string, string)> := [
    ("Y_гр/т_(для_перидотитовых)_по_Gar", "yContentPeridotitic"),
    ("Y_гр/т_(при_Cr2O3_>_5_мас._%)_по_Gar", "yContentHighCr"),
    ("Y_край_Температура_оС_по_Gar", "yRimTemperature")]

  /** `cpx_geo_mapping`. */
  const CpxGeoMapping: seq<(string, string)> := [
    ("Геотерма_мВт/м2_по_CPx", "heatFlow"), ("Мощность_литосферы_км_по_CPx", "lithosphereThickness"),
    ("Мощность_области_стабильности_алмаза_км_по_CPx", "diamondStabilityZone")]

  /** `gar_geo_mapping`. */
  const GarGeoMapping: seq<(string, string)> := [
    ("Геотерма_мВт/м2_по_Gar", "heatFlow"), ("Мощность_литосферы_км_по_Gar", "lithosphereThickness"),
    ("Мощность_алмазного_окна_км_по_Gar", "diamondWindowThickness"),
    ("Мощность_области_метасоматоза_км_по_Gar", "metasomatismZone")]

  /** Sections 4.1 to 4.4: the nodes under the association node, in the order they are made. */
  const ClassSubs: seq<SubNode> := [
    SubNode("hasGarnetClassification", "GarnetDiamondClassification", None, GarnetClassMapping),
    SubNode("hasChromiteAssociation", "ChromiteDiamondAssociation", None, ChromiteMapping),
    SubNode("hasIlmeniteClassification", "IlmeniteClassification", None, IlmeniteMapping),
    SubNode("hasQualityIndicators", "QualityIndicators", None, QualityMapping)]

  /** Sections 6.1, 7.1 and 7.2: the geochemistry and geothermal nodes under the pipe. */
  const GeoSubs: seq<SubNode> := [
    SubNode("hasMineralGeochemistry", "MineralGeochemistry", Some(("forMineralGeo", Garnet)), GarnetGeoMapping),
    SubNode("hasGeothermalData", "GeothermalData", Some(("geothermalMineral", Clinopyroxene)), CpxGeoMapping),
    SubNode("hasGeothermalData", "GeothermalData", Some(("geothermalMineral", Garnet)), GarGeoMapping)]

  /** What a sub-node's mapping gives for a node, given the node and the sub-node. */
  type Look = (Term, SubNode) -> set<Triple>

  /** The mapping loop of a sub-node over the association section. */
  function SubLookups(section: Section): Look {
    (node: Term, sub: SubNode) => AllLookups(section, Bind(node, sub.mapping), false)
  }

  /** `look` gives for `node` and `sub` what the mapping loop over `section` writes. */
  ghost predicate LooksUpAt(look: Look, section: Section, node: Term, sub: SubNode) {
    look(node, sub) == AllLookups(section, Bind(node, sub.mapping), false)
  }

  /** `look` is the mapping loop over `section`. */
  ghost predicate LooksUp(look: Look, section: Section) {
    forall node: Term, sub: SubNode :: LooksUpAt(look, section, node, sub)
  }

  /** Everything a mapping gives is about the node it was asked for. */
  ghost predicate AboutNode(look: Look) {
    forall node: Term, sub: SubNode, t: Triple | t in look(node, sub) :: t.s == node
  }

  /** A mapping loop only writes to its own node. */
  lemma SubLookupsAboutNode(section: Section)
    ensures AboutNode(SubLookups(section))
  {
    forall node: Term, sub: SubNode, t: Triple | t in SubLookups(section)(node, sub) ensures t.s == node {
      AllLookupsShape(section, Bind(node, sub.mapping), false, t);
    }
  }

  /** The triples of the sub-node `node` under `parent`: link, class, tag and mapping. */
  function SubTriples(parent: Term, node: Term, sub: SubNode, look: Look): set<Triple> {
    {Triple(parent, Crust(sub.link), node), Triple(node, Type, Crust(sub.cls))}
    + (if sub.tag.Some? then {Triple(node, Crust(sub.tag.value.0), MineralIri(sub.tag.value.1))} else {})
    + look(node, sub)
  }

  /** Sub-nodes made one after the other under `parent`, the `k`-th as blank `next + k`. */
  function SubNodes(parent: Term, look: Look, next: nat, subs: seq<SubNode>): set<Triple>
    decreases |subs|
  {
    if subs == [] then {}
    else SubNodes(parent, look, next, subs[..|subs| - 1])
         + SubTriples(parent, Blank(next + |subs| - 1), subs[|subs| - 1], look)
  }

  /** A sub-node's own triples are all written. */
  lemma {:induction false} SubNodeWritten(parent: Term, look: Look, next: nat, subs: seq<SubNode>, k: nat, t: Triple)
    requires k < |subs| && t in SubTriples(parent, Blank(next + k), subs[k], look)
    ensures t in SubNodes(parent, look, next, subs)
    decreases |subs|
  {
    var n := |subs| - 1;
    if k < n {
      assert subs[..n][k] == subs[k];
      SubNodeWritten(parent, look, next, subs[..n], k, t);
    }
  }

  /** One more sub-node adds its own triples. */
  lemma SubNodesStep(parent: Term, look: Look, next: nat, subs: seq<SubNode>, k: nat)
    requires k < |subs|
    ensures SubNodes(parent, look, next, subs[..k + 1])
         == SubNodes(parent, look, next, subs[..k]) + SubTriples(parent, Blank(next + k), subs[k], look)
  {
    assert subs[..k + 1][..k] == subs[..k];
  }

  /** Every triple of the sub-nodes is about the parent or one of the sub-nodes. */
  lemma {:induction false} SubNodesSubjects(parent: Term, look: Look, next: nat, subs: seq<SubNode>, t: Triple)
    requires AboutNode(look) && t in SubNodes(parent, look, next, subs)
    ensures t.s == parent || exists j | 0 <= j < |subs| :: t.s == Blank(next + j) && t in SubTriples(parent, t.s, subs[j], look)
    decreases |subs|
  {
    var n := |subs| - 1;
    if t in SubNodes(parent, look, next, subs[..n]) {
      SubNodesSubjects(parent, look, next, subs[..n], t);
      if t.s != parent {
        var j :| 0 <= j < n && t.s == Blank(next + j) && t in SubTriples(parent, t.s, subs[..n][j], look);
        assert subs[..n][j] == subs[j];
      }
    }
  }

  /**
   * A sub-node holds exactly its own triples: its class, its tag and the values of its
   * mapping.
   */
  lemma SubNodeContents(parent: Term, look: Look, next: nat, subs: seq<SubNode>, k: nat, t: Triple)
    requires AboutNode(look) && k < |subs| && parent != Blank(next + k) && t.s == Blank(next + k)
    ensures t in SubNodes(parent, look, next, subs) <==> t in SubTriples(parent, t.s, subs[k], look)
  {
    if t in SubNodes(parent, look, next, subs) {
      SubNodesSubjects(parent, look, next, subs, t);
    }
    if t in SubTriples(parent, t.s, subs[k], look) {
      SubNodeWritten(parent, look, next, subs, k, t);
    }
  }

  /** The compositions of an association section whose blanks start at `next`. */
  function AssocComps(pipe: Term, section: Section, next: nat): Comps {
    Compositions(pipe, TypedValues(section), Start(next + 5))
  }

  /** Sections 5.1 to 5.3: counts and shares on the composition nodes. */
  function MineralExtras(section: Section, nodes: map<Mineral, Term>): set<Triple> {
    MineralLookups(section, nodes, CountKeys, TotalGrainsCount, true)
    + MineralLookups(section, nodes, UnknownKeys, UnknownPercent, false)
    + MineralLookups(section, nodes, LaIcpmsKeys, LaIcPmsCount, true)
  }

  /** The association node (blank `next`) and its four nodes (`next + 1` to `next + 4`). */
  function AssocClasses(pipe: Term, next: nat, look: Look): set<Triple> {
    var a := Blank(next);
    {Triple(pipe, HasDiamondAssociation, a), Triple(a, Type, DiamondAssociation)}
    + SubNodes(a, look, next + 1, ClassSubs)
  }

  /** The compositions (from `next + 5` on) and their counts and shares. */
  function AssocMinerals(pipe: Term, section: Section, next: nat): set<Triple> {
    var c := AssocComps(pipe, section, next);
    c.ts + MineralExtras(section, c.nodes)
  }

  /**
   * Section 4 of the converter: the association node and its four nodes, the
   * compositions with their counts and shares, and the three geochemistry and
   * geothermal nodes.
   */
  function AssocOut(pipe: Term, section: Section, next: nat): Out {
    var c := AssocComps(pipe, section, next);
    var look := SubLookups(section);
    Out(AssocClasses(pipe, next, look) + AssocMinerals(pipe, section, next) + SubNodes(pipe, look, c.next, GeoSubs),
        c.next + 3)
  }

  /** The association node and its four nodes are about the pipe or blanks `next` to `next + 4`. */
  lemma AssocClassesSubjects(pipe: Term, next: nat, look: Look, t: Triple)
    requires AboutNode(look) && t in AssocClasses(pipe, next, look)
    ensures t.s == pipe || (t.s.Blank? && next <= t.s.id < next + 5)
  {
    if t in SubNodes(Blank(next), look, next + 1, ClassSubs) {
      SubNodesSubjects(Blank(next), look, next + 1, ClassSubs, t);
    }
  }

  /** The compositions and their counts are about the pipe or blanks drawn for them. */
  lemma AssocMineralsSubjects(pipe: Term, section: Section, next: nat, t: Triple)
    requires t in AssocMinerals(pipe, section, next)
    ensures var c := AssocComps(pipe, section, next);
      t.s == pipe || (t.s.Blank? && next + 5 <= t.s.id < c.next)
  {
    var c := AssocComps(pipe, section, next);
    CompositionsWithin(pipe, TypedValues(section), next + 5);
    if t !in c.ts {
      if t in MineralLookups(section, c.nodes, CountKeys, TotalGrainsCount, true) {
        MineralLookupsSubjects(section, c.nodes, CountKeys, TotalGrainsCount, true, t);
      } else if t in MineralLookups(section, c.nodes, UnknownKeys, UnknownPercent, false) {
        MineralLookupsSubjects(section, c.nodes, UnknownKeys, UnknownPercent, false, t);
      } else {
        MineralLookupsSubjects(section, c.nodes, LaIcpmsKeys, LaIcPmsCount, true, t);
      }
    }
  }

  /** The association's blanks: the counter only grows past the compositions' start. */
  lemma AssocCompsAfter(pipe: Term, section: Section, next: nat)
    ensures next + 5 <= AssocComps(pipe, section, next).next
  {
    CompositionsWithin(pipe, TypedValues(section), next + 5);
  }

  /**
   * The four nodes under the association node, next to triples that are about the pipe
   * or later blanks: each holds exactly its own triples.
   */
  lemma ClassNodeAmong(pipe: Term, next: nat, look: Look, rest: set<Triple>, k: nat, t: Triple)
    requires AboutNode(look) && Drawn(pipe, next) && k < |ClassSubs| && t.s == Blank(next + 1 + k)
    requires t in rest ==> t.s == pipe || (t.s.Blank? && next + 5 <= t.s.id)
    ensures t in AssocClasses(pipe, next, look) + rest <==> t in SubTriples(Blank(next), t.s, ClassSubs[k], look)
  {
    SubNodeContents(Blank(next), look, next + 1, ClassSubs, k, t);
  }

  /**
   * Each of the four nodes under the association node holds exactly its class and the
   * values its mapping finds.
   */
  lemma AssocClassNode(pipe: Term, section: Section, next: nat, k: nat, t: Triple)
    requires Drawn(pipe, next) && k < |ClassSubs| && t.s == Blank(next + 1 + k)
    ensures t in AssocOut(pipe, section, next).ts <==> t in SubTriples(Blank(next), t.s, ClassSubs[k], SubLookups(section))
  {
    var c := AssocComps(pipe, section, next);
    var look := SubLookups(section);
    var rest := AssocMinerals(pipe, section, next) + SubNodes(pipe, look, c.next, GeoSubs);
    SubLookupsAboutNode(section);
    AssocCompsAfter(pipe, section, next);
    if t in AssocMinerals(pipe, section, next) {
      AssocMineralsSubjects(pipe, section, next, t);
    }
    if t in SubNodes(pipe, look, c.next, GeoSubs) {
      SubNodesSubjects(pipe, look, c.next, GeoSubs, t);
    }
    ClassNodeAmong(pipe, next, look, rest, k, t);
  }

  /**
   * The geochemistry and geothermal nodes, drawn after triples that are about the pipe
   * or earlier blanks: each holds exactly its own triples.
   */
  lemma GeoNodeAmong(pipe: Term, lo: nat, look: Look, other: set<Triple>, k: nat, t: Triple)
    requires AboutNode(look) && Drawn(pipe, lo) && k < |GeoSubs| && t.s == Blank(lo + k)
    requires t in other ==> t.s == pipe || (t.s.Blank? && t.s.id < lo)
    ensures t in other + SubNodes(pipe, look, lo, GeoSubs) <==> t in SubTriples(pipe, t.s, GeoSubs[k], look)
  {
    SubNodeContents(pipe, look, lo, GeoSubs, k, t);
  }

  /**
   * Each geochemistry or geothermal node holds exactly its class, its mineral and the
   * values its mapping finds.
   */
  lemma AssocGeoNode(pipe: Term, section: Section, next: nat, k: nat, t: Triple)
    requires Drawn(pipe, next) && k < |GeoSubs|
    requires t.s == Blank(AssocComps(pipe, section, next).next + k)
    ensures t in AssocOut(pipe, section, next).ts <==> t in SubTriples(pipe, t.s, GeoSubs[k], SubLookups(section))
  {
    var c := AssocComps(pipe, section, next);
    var look := SubLookups(section);
    var other := AssocClasses(pipe, next, look) + AssocMinerals(pipe, section, next);
    SubLookupsAboutNode(section);
    AssocCompsAfter(pipe, section, next);
    if t in AssocMinerals(pipe, section, next) {
      AssocMineralsSubjects(pipe, section, next, t);
    }
    if t in AssocClasses(pipe, next, look) {
      AssocClassesSubjects(pipe, next, look, t);
    }
    GeoNodeAmong(pipe, c.next, look, other, k, t);
  }

  /**
   * One sub-node: `BNode()`, its link, class and tag, then its mapping loop. Before it
   * the store held `ts0 + acc`; after it, `ts0 + acc'` with the sub-node's triples in `acc'`.
   */
  method EmitSubNode(g: Store, parent: Term, sub: SubNode, section: Section,
                     ghost look: Look, ghost ts0: set<Triple>, ghost acc: set<Triple>, ghost acc': set<Triple>)
    returns (node: Term)
    requires g.Valid()
    requires Drawn(parent, g.blanks)
    requires LooksUp(look, section)
    requires g.triples == ts0 + acc
    requires acc' == acc + SubTriples(parent, Blank(g.blanks), sub, look)
    modifies g
    ensures node == Blank(old(g.blanks)) && g.Valid() && g.blanks == old(g.blanks) + 1
    ensures g.triples == ts0 + acc'
  {
    node := g.NewBlank();
    g.Add(Triple(parent, Crust(sub.link), node));
    g.Add(Triple(node, Type, Crust(sub.cls)));
    if sub.tag.Some? {
      g.Add(Triple(node, Crust(sub.tag.value.0), MineralIri(sub.tag.value.1)));
    }
    EmitLookups(g, section, Bind(node, sub.mapping), false);
    assert LooksUpAt(look, section, node, sub);
  }

  /** The `k`-th of the sub-nodes, after the ones before it. */
  method EmitSubNodeAt(g: Store, parent: Term, subs: seq<SubNode>, k: nat, section: Section,
                       ghost look: Look, ghost ts0: set<Triple>, ghost b0: nat)
    requires k < |subs| && LooksUp(look, section)
    requires g.Valid() && g.blanks == b0 + k && Drawn(parent, g.blanks)
    requires g.triples == ts0 + SubNodes(parent, look, b0, subs[..k])
    modifies g
    ensures g.Valid() && g.blanks == b0 + k + 1
    ensures g.triples == ts0 + SubNodes(parent, look, b0, subs[..k + 1])
  {
    assert Blank(g.blanks) == Blank(b0 + k);
    SubNodesStep(parent, look, b0, subs, k);
    var node := EmitSubNode(g, parent, subs[k], section, look, ts0, SubNodes(parent, look, b0, subs[..k]),
                            SubNodes(parent, look, b0, subs[..k + 1]));
  }

  /** Sub-nodes one after the other. */
  method EmitSubNodes(g: Store, parent: Term, subs: seq<SubNode>, section: Section, ghost look: Look)
    requires g.Valid() && Drawn(parent, g.blanks) && LooksUp(look, section)
    modifies g
    ensures g.Valid() && g.blanks == old(g.blanks) + |subs|
    ensures g.triples == old(g.triples) + SubNodes(parent, look, old(g.blanks), subs)
  {
    ghost var ts0 := g.triples;
    ghost var b0 := g.blanks;
    for k := 0 to |subs|
      invariant g.Valid() && g.blanks == b0 + k && Drawn(parent, g.blanks)
      invariant g.triples == ts0 + SubNodes(parent, look, b0, subs[..k])
    {
      EmitSubNodeAt(g, parent, subs, k, section, look, ts0, b0);
    }
    assert subs[..|subs|] == subs;
  }

  /** Writing two parts one after the other writes their union. */
  lemma Appended(ts: set<Triple>, a: set<Triple>, b: set<Triple>)
    ensures (ts + a) + b == ts + (a + b)
  {
  }

  /** The association node, then the given nodes under it. */
  method EmitAssocNode(g: Store, pipe: Term, subs: seq<SubNode>, section: Section, ghost look: Look)
    requires g.Valid() && Drawn(pipe, g.blanks) && LooksUp(look, section)
    modifies g
    ensures g.Valid() && g.blanks == old(g.blanks) + 1 + |subs|
    ensures var a := Blank(old(g.blanks));
      g.triples == old(g.triples) + ({Triple(pipe, HasDiamondAssociation, a), Triple(a, Type, DiamondAssociation)}
                                     + SubNodes(a, look, old(g.blanks) + 1, subs))
  {
    ghost var next := g.blanks;
    var a := g.NewBlank();
    assert a == Blank(next) && g.blanks == next + 1;
    g.AddAll({Triple(pipe, HasDiamondAssociation, a), Triple(a, Type, DiamondAssociation)});
    EmitSubNodes(g, a, subs, section, look);
    Appended(old(g.triples), {Triple(pipe, HasDiamondAssociation, a), Triple(a, Type, DiamondAssociation)},
             SubNodes(a, look, next + 1, subs));
  }

  /** The association node and sections 4.1 to 4.4. */
  method EmitAssocClasses(g: Store, pipe: Term, section: Section)
    requires g.Valid() && Drawn(pipe, g.blanks)
    modifies g
    ensures g.Valid() && g.blanks == old(g.blanks) + 5
    ensures g.triples == old(g.triples) + AssocClasses(pipe, old(g.blanks), SubLookups(section))
  {
    EmitAssocNode(g, pipe, ClassSubs, section, SubLookups(section));
  }

  /** Sections 5 to 5.3: the compositions, then the counts and shares on them. */
  method EmitAssocMinerals(g: Store, pipe: Term, section: Section, ghost next: nat)
    requires g.Valid() && Drawn(pipe, g.blanks) && g.blanks == next + 5
    modifies g
    ensures g.Valid() && g.blanks == AssocComps(pipe, section, next).next
    ensures g.triples == old(g.triples) + AssocMinerals(pipe, section, next)
  {
    assert Start(g.blanks) == Start(next + 5);
    var nodes := AddCompositions(g, pipe, section);
    CompositionsKeep(pipe, TypedValues(section), Start(next + 5));
    EmitMineralLookups(g, section, nodes, CountKeys, TotalGrainsCount, true);
    EmitMineralLookups(g, section, nodes, UnknownKeys, UnknownPercent, false);
    EmitMineralLookups(g, section, nodes, LaIcpmsKeys, LaIcPmsCount, true);
  }

  /** Section 4 of the converter. */
  method EmitAssoc(g: Store, pipe: Term, section: Section)
    requires g.Valid() && Drawn(pipe, g.blanks)
    modifies g
    ensures var o := AssocOut(pipe, section, old(g.blanks));
      g.Valid() && g.triples == old(g.triples) + o.ts && g.blanks == o.next
  {
    ghost var next := g.blanks;
    ghost var look := SubLookups(section);
    EmitAssocClasses(g, pipe, section);
    EmitAssocMinerals(g, pipe, section, next);
    EmitSubNodes(g, pipe, GeoSubs, section, look);
    Appended(old(g.triples), AssocClasses(pipe, next, look), AssocMinerals(pipe, section, next));
    Appended(old(g.triples), AssocClasses(pipe, next, look) + AssocMinerals(pipe, section, next),
             SubNodes(pipe, look, AssocComps(pipe, section, next).next, GeoSubs));
  }

  // ---------------------------------------------------------------- convert_features_to_rdf

  /** The sections of the feature dictionary the converter reads, in the order it reads them. */
  datatype Part = GeologyPart | OlivinePart | TargetPart | AssocPart

  /** The key of a section in the feature dictionary. */
  function PartName(part: Part): string {
    match part
    case GeologyPart => "geology"
    case OlivinePart => "olivine"
    case TargetPart => "target"
    case AssocPart => "assoc"
  }

  /** What a section writes for the pipe, its blanks drawn from `next` on. */
  function PartOut(part: Part, pipe: Term, section: Section, next: nat): Out {
    match part
    case GeologyPart => GeologyOut(pipe, section, next)
    case OlivinePart => OlivineOut(pipe, section, next)
    case TargetPart => TargetOut(pipe, section, next)
    case AssocPart => AssocOut(pipe, section, next)
  }

  /** `if name in data_dict: ...`: the section is written after `o` if it is there. */
  function WithPart(o: Out, pipe: Term, data: Features, part: Part): Out {
    match Get(data, PartName(part))
    case None => o
    case Some(section) => Then(o, PartOut(part, pipe, section, o.next))
  }

  /** `convert_features_to_rdf(g, (pipe_id, data_dict), pipe_uri)`: all it writes. */
  function FeatureOut(pipeId: string, data: Features, pipeUri: Option<Term>, next: nat): Out {
    var pipe := PipeNode(pipeId, pipeUri);
    var o0 := Out(HeaderTriples(pipeId, pipeUri), next);
    var o1 := WithPart(o0, pipe, data, GeologyPart);
    var o2 := WithPart(o1, pipe, data, OlivinePart);
    var o3 := WithPart(o2, pipe, data, TargetPart);
    WithPart(o3, pipe, data, AssocPart)
  }

  /** Every section writes into blanks it draws itself: the counter never goes back. */
  lemma PartOutNext(part: Part, pipe: Term, section: Section, next: nat)
    ensures next <= PartOut(part, pipe, section, next).next
  {
    match part
    case AssocPart => AssocCompsAfter(pipe, section, next);
    case OlivinePart =>
      FractionsExtend(Blank(next), FractionReads(section, FractionMapping), Out({}, next + 1));
    case _ =>
  }

  /** A section block only adds triples and draws blanks after those already drawn. */
  lemma WithPartExtends(o: Out, pipe: Term, data: Features, part: Part)
    ensures o.ts <= WithPart(o, pipe, data, part).ts && o.next <= WithPart(o, pipe, data, part).next
  {
    var found := Get(data, PartName(part));
    if found.Some? {
      PartOutNext(part, pipe, found.value, o.next);
    }
  }

  /**
   * The pipe is always named and labelled; it is typed as a kimberlite pipe only when
   * the caller gave no pipe node.
   */
  lemma FeatureHeader(pipeId: string, data: Features, pipeUri: Option<Term>, next: nat)
    ensures var o := FeatureOut(pipeId, data, pipeUri, next);
      && Triple(PipeNode(pipeId, pipeUri), Label, LangLit("Трубка " + pipeId, "ru")) in o.ts
      && Triple(PipeNode(pipeId, pipeUri), Label, LangLit("Pipe " + pipeId, "en")) in o.ts
      && Triple(PipeNode(pipeId, pipeUri), Crust("pipeId"), StringLit(pipeId)) in o.ts
      && (pipeUri.None? ==> Triple(PipeIri(pipeId), Type, Crust("KimberlitePipe")) in o.ts)
  {
  }

  /** A dictionary without any of the four sections gives just the header and draws no blank. */
  lemma FeatureHeaderOnly(pipeId: string, data: Features, pipeUri: Option<Term>, next: nat)
    requires forall part: Part :: !HasKey(data, PartName(part))
    ensures FeatureOut(pipeId, data, pipeUri, next) == Out(HeaderTriples(pipeId, pipeUri), next)
  {
    assert !HasKey(data, PartName(GeologyPart)) && !HasKey(data, PartName(OlivinePart));
    assert !HasKey(data, PartName(TargetPart)) && !HasKey(data, PartName(AssocPart));
  }

  /**
   * Every section that is there is written in full, with blanks drawn at some point
   * from `next` on.
   */
  lemma FeaturePartWritten(pipeId: string, data: Features, pipeUri: Option<Term>, next: nat, part: Part)
    requires Get(data, PartName(part)).Some?
    ensures exists n | n >= next ::
      PartOut(part, PipeNode(pipeId, pipeUri), Get(data, PartName(part)).value, n).ts <= FeatureOut(pipeId, data, pipeUri, next).ts
  {
    var pipe := PipeNode(pipeId, pipeUri);
    var section := Get(data, PartName(part)).value;
    var o0 := Out(HeaderTriples(pipeId, pipeUri), next);
    var o1 := WithPart(o0, pipe, data, GeologyPart);
    var o2 := WithPart(o1, pipe, data, OlivinePart);
    var o3 := WithPart(o2, pipe, data, TargetPart);
    var o4 := WithPart(o3, pipe, data, AssocPart);
    var before := match part
      case GeologyPart => o0
      case OlivinePart => o1
      case TargetPart => o2
      case AssocPart => o3;
    WithPartExtends(o0, pipe, data, GeologyPart);
    WithPartExtends(o1, pipe, data, OlivinePart);
    WithPartExtends(o2, pipe, data, TargetPart);
    WithPartExtends(o3, pipe, data, AssocPart);
    assert PartOut(part, pipe, section, before.next).ts <= WithPart(before, pipe, data, part).ts;
    assert before.next >= next;
  }

  /** One `if name in data_dict:` block, after the store holds `ts0 + o.ts`. */
  method EmitPart(g: Store, pipe: Term, data: Features, part: Part, ghost ts0: set<Triple>, ghost o: Out)
    requires g.Valid() && Drawn(pipe, g.blanks) && g.triples == ts0 + o.ts && g.blanks == o.next
    modifies g
    ensures var r := WithPart(o, pipe, data, part);
      g.Valid() && Drawn(pipe, g.blanks) && g.triples == ts0 + r.ts && g.blanks == r.next
  {
    var found := Get(data, PartName(part));
    if found.Some? {
      var section := found.value;
      match part {
        case GeologyPart => EmitGeology(g, pipe, section);
        case OlivinePart => EmitOlivine(g, pipe, section);
        case TargetPart => EmitTarget(g, pipe, section);
        case AssocPart => EmitAssoc(g, pipe, section);
      }
      PartOutNext(part, pipe, section, o.next);
      Appended(ts0, o.ts, PartOut(part, pipe, section, o.next).ts);
    }
  }

  /**
   * `convert_features_to_rdf(g, (pipe_id, data_dict), pipe_uri)`: the header of the
   * pipe, then each section the dictionary has. A pipe node the caller gives is a
   * resource.
   */
  method ConvertFeaturesToRdf(g: Store, pipeId: string, data: Features, pipeUri: Option<Term>)
    requires g.Valid() && (pipeUri.Some? ==> !pipeUri.value.Blank?)
    modifies g
    ensures var o := FeatureOut(pipeId, data, pipeUri, old(g.blanks));
      g.Valid() && g.triples == old(g.triples) + o.ts && g.blanks == o.next
  {
    var pipe: Term;
    if pipeUri.None? {
      pipe := PipeIri(pipeId);
      g.Add(Triple(pipe, Type, Crust("KimberlitePipe")));
    } else {
      pipe := pipeUri.value;
    }
    g.Add(Triple(pipe, Label, LangLit("Трубка " + pipeId, "ru")));
    g.Add(Triple(pipe, Label, LangLit("Pipe " + pipeId, "en")));
    g.Add(Triple(pipe, Crust("pipeId"), StringLit(pipeId)));
    ghost var ts0 := old(g.triples);
    ghost var o0 := Out(HeaderTriples(pipeId, pipeUri), old(g.blanks));
    assert g.triples == ts0 + o0.ts;
    EmitPart(g, pipe, data, GeologyPart, ts0, o0);
    ghost var o1 := WithPart(o0, pipe, data, GeologyPart);
    EmitPart(g, pipe, data, OlivinePart, ts0, o1);
    ghost var o2 := WithPart(o1, pipe, data, OlivinePart);
    EmitPart(g, pipe, data, TargetPart, ts0, o2);
    ghost var o3 := WithPart(o2, pipe, data, TargetPart);
    EmitPart(g, pipe, data, AssocPart, ts0, o3);
  }
}
