/**
 * The mineral types of the association section of `convert_features_to_rdf`: one
 * composition node per mineral, made when the first numeric type key of that mineral
 * is met, one value node per numeric type key, and the grain counts, unknown shares and
 * LA-ICP-MS counts that are attached to composition nodes only.
 */
module FeatureMinerals {
  import opened Options
  import opened Values
  import opened Rdf
  import opened FeatureKeys
  import opened FeatureLookups

  const MineralComposition := Crust("mineralComposition")
  const MineralTypeComposition := Crust("MineralTypeComposition")
  const ForMineral := Crust("forMineral")
  const HasTypeValue := Crust("hasTypeValue")
  const MineralTypeValue := Crust("MineralTypeValue")
  const TypeNumber := Crust("typeNumber")
  const Percentage := Crust("percentage")

  /** `mineral_compositions`, the triples written for the compositions and the blank counter. */
  datatype Comps = Comps(nodes: map<Mineral, Term>, ts: set<Triple>, next: nat)

  /** The type number, mineral and percentage an item of the section gives, if any. */
  function TypedValue(item: (string, Cell)): Option<(nat, Mineral, Decimal)> {
    match ExtractTypeNumber(item.0)
    case None => None
    case Some(x) =>
      match CleanNumeric(item.1)
      case None => None
      case Some(v) => Some((x.0, x.1, v))
  }

  /** The triples of a new composition node `c` of mineral `m`. */
  function CompTriples(subj: Term, c: Term, m: Mineral): set<Triple> {
    {Triple(subj, MineralComposition, c), Triple(c, Type, MineralTypeComposition), Triple(c, ForMineral, MineralIri(m))}
  }

  /** The triples of a value node `b` under the composition node `c`. */
  function ValueTriples(c: Term, b: Term, n: nat, v: Decimal): set<Triple> {
    {Triple(c, HasTypeValue, b), Triple(b, Type, MineralTypeValue), Triple(b, TypeNumber, IntegerLit(n)),
     Triple(b, Percentage, DecimalLit(v))}
  }

  /** What the items of a section give, item by item. */
  type Typed = Option<(nat, Mineral, Decimal)>

  function TypedValues(items: seq<(string, Cell)>): (xs: seq<Typed>)
    ensures |xs| == |items|
  {
    seq(|items|, i requires 0 <= i < |items| => TypedValue(items[i]))
  }

  /** `mineral_compositions[m]` made if it is not there yet. */
  function EnsureComp(subj: Term, m: Mineral, st: Comps): Comps {
    if m in st.nodes then st
    else Comps(st.nodes[m := Blank(st.next)], st.ts + CompTriples(subj, Blank(st.next), m), st.next + 1)
  }

  /** A new value node under `c`. */
  function AddValue(c: Term, n: nat, v: Decimal, st: Comps): Comps {
    Comps(st.nodes, st.ts + ValueTriples(c, Blank(st.next), n, v), st.next + 1)
  }

  /** One item of the loop: a composition node first if the mineral has none, then a value node. */
  function CompStep(subj: Term, x: Typed, st: Comps): Comps {
    match x
    case None => st
    case Some(x) =>
      var st1 := EnsureComp(subj, x.1, st);
      AddValue(st1.nodes[x.1], x.0, x.2, st1)
  }

  /** The loop over the items of the section. */
  function Compositions(subj: Term, xs: seq<Typed>, st: Comps): Comps
    decreases |xs|
  {
    if xs == [] then st
    else CompStep(subj, xs[|xs| - 1], Compositions(subj, xs[..|xs| - 1], st))
  }

  /** Where the loop starts: no compositions, blanks drawn from `next` on. */
  function Start(next: nat): Comps {
    Comps(map[], {}, next)
  }

  /** `b` extends `a`: nothing written is taken back and no composition node changes. */
  predicate Grows(a: Comps, b: Comps) {
    && a.ts <= b.ts && a.next <= b.next
    && forall m | m in a.nodes :: m in b.nodes && b.nodes[m] == a.nodes[m]
  }

  /** The composition nodes are distinct blanks drawn before the counter. */
  predicate NodesDrawn(st: Comps) {
    && (forall m | m in st.nodes :: st.nodes[m].Blank? && st.nodes[m].id < st.next)
    && (forall m1, m2 | m1 in st.nodes && m2 in st.nodes && m1 != m2 :: st.nodes[m1] != st.nodes[m2])
  }

  /** Each composition node hangs under the pipe and names its mineral. */
  predicate NodesLinked(subj: Term, st: Comps) {
    forall m | m in st.nodes ::
      Triple(subj, MineralComposition, st.nodes[m]) in st.ts && Triple(st.nodes[m], ForMineral, MineralIri(m)) in st.ts
  }

  /** Every `forMineral` triple is one of those. */
  predicate ForMineralSound(st: Comps) {
    forall t | t in st.ts && t.p == ForMineral :: exists m | m in st.nodes :: t.s == st.nodes[m] && t.o == MineralIri(m)
  }

  /** What holds of the compositions throughout. */
  predicate CompsInv(subj: Term, st: Comps) {
    NodesDrawn(st) && NodesLinked(subj, st) && ForMineralSound(st)
  }

  lemma MineralIriInjective(m1: Mineral, m2: Mineral)
    ensures MineralIri(m1) == MineralIri(m2) ==> m1 == m2
  {
  }

  /** A new composition node keeps the nodes distinct and drawn. */
  lemma EnsureCompDrawn(subj: Term, m: Mineral, st: Comps)
    requires NodesDrawn(st)
    ensures NodesDrawn(EnsureComp(subj, m, st))
  {
  }

  /** A new composition node is linked, and so stay the others. */
  lemma EnsureCompLinked(subj: Term, m: Mineral, st: Comps)
    requires NodesLinked(subj, st)
    ensures NodesLinked(subj, EnsureComp(subj, m, st))
  {
  }

  /** The only new `forMineral` triple is the new node's. */
  lemma EnsureCompSound(subj: Term, m: Mineral, st: Comps)
    requires ForMineralSound(st) && m !in st.nodes
    ensures ForMineralSound(EnsureComp(subj, m, st))
  {
    var c := Blank(st.next);
    var r := EnsureComp(subj, m, st);
    assert r.nodes == st.nodes[m := c];
    forall t | t in r.ts && t.p == ForMineral
      ensures exists m' | m' in r.nodes :: t.s == r.nodes[m'] && t.o == MineralIri(m')
    {
      if t in st.ts {
        var m' :| m' in st.nodes && t.s == st.nodes[m'] && t.o == MineralIri(m');
        assert r.nodes[m'] == st.nodes[m'];
      } else {
        assert t == Triple(c, ForMineral, MineralIri(m));
        assert r.nodes[m] == c;
      }
    }
  }

  /** Making a composition node keeps the invariant and leaves one for `m`. */
  lemma EnsureCompKeeps(subj: Term, m: Mineral, st: Comps)
    requires CompsInv(subj, st)
    ensures var r := EnsureComp(subj, m, st);
      CompsInv(subj, r) && Grows(st, r) && m in r.nodes
  {
    if m !in st.nodes {
      EnsureCompDrawn(subj, m, st);
      EnsureCompLinked(subj, m, st);
      EnsureCompSound(subj, m, st);
    }
  }

  /** A new value node keeps the invariant. */
  lemma AddValueKeeps(subj: Term, c: Term, n: nat, v: Decimal, st: Comps)
    requires CompsInv(subj, st)
    ensures CompsInv(subj, AddValue(c, n, v, st)) && Grows(st, AddValue(c, n, v, st))
  {
    var r := AddValue(c, n, v, st);
    forall t | t in r.ts && t.p == ForMineral
      ensures exists m' | m' in r.nodes :: t.s == r.nodes[m'] && t.o == MineralIri(m')
    {
      assert t in st.ts;
    }
  }

  /** One item keeps the invariant and extends the state. */
  lemma CompStepKeeps(subj: Term, x: Typed, st: Comps)
    requires CompsInv(subj, st)
    ensures CompsInv(subj, CompStep(subj, x, st)) && Grows(st, CompStep(subj, x, st))
  {
    if x.Some? {
      var m := x.value.1;
      EnsureCompKeeps(subj, m, st);
      var st1 := EnsureComp(subj, m, st);
      AddValueKeeps(subj, st1.nodes[m], x.value.0, x.value.2, st1);
    }
  }

  /** The invariant holds after any number of items, and the state only grows. */
  lemma {:induction false} CompositionsKeep(subj: Term, xs: seq<Typed>, st: Comps)
    requires CompsInv(subj, st)
    ensures CompsInv(subj, Compositions(subj, xs, st)) && Grows(st, Compositions(subj, xs, st))
    decreases |xs|
  {
    if xs != [] {
      var n := |xs| - 1;
      CompositionsKeep(subj, xs[..n], st);
      CompStepKeeps(subj, xs[n], Compositions(subj, xs[..n], st));
    }
  }

  /**
   * Everything written is about `subj` or about a blank drawn from `lo` on, and the
   * composition nodes are such blanks.
   */
  predicate SubjectsWithin(subj: Term, lo: nat, st: Comps) {
    && (forall t | t in st.ts :: t.s == subj || (t.s.Blank? && lo <= t.s.id < st.next))
    && (forall m | m in st.nodes :: st.nodes[m].Blank? && lo <= st.nodes[m].id < st.next)
  }

  /** One item keeps the subjects within range. */
  lemma CompStepWithin(subj: Term, lo: nat, x: Typed, st: Comps)
    requires SubjectsWithin(subj, lo, st) && lo <= st.next
    ensures SubjectsWithin(subj, lo, CompStep(subj, x, st)) && st.next <= CompStep(subj, x, st).next
  {
    if x.Some? {
      var m := x.value.1;
      EnsureCompWithin(subj, lo, m, st);
      var st1 := EnsureComp(subj, m, st);
      AddValueWithin(subj, lo, st1.nodes[m], x.value.0, x.value.2, st1);
    }
  }

  lemma EnsureCompWithin(subj: Term, lo: nat, m: Mineral, st: Comps)
    requires SubjectsWithin(subj, lo, st) && lo <= st.next
    ensures var st1 := EnsureComp(subj, m, st);
      SubjectsWithin(subj, lo, st1) && st.next <= st1.next && m in st1.nodes
  {
  }

  lemma AddValueWithin(subj: Term, lo: nat, c: Term, n: nat, v: Decimal, st: Comps)
    requires SubjectsWithin(subj, lo, st) && lo <= st.next && c.Blank? && lo <= c.id < st.next
    ensures SubjectsWithin(subj, lo, AddValue(c, n, v, st)) && st.next <= AddValue(c, n, v, st).next
  {
  }

  /** The compositions of a section only speak of the pipe and of blanks they drew. */
  lemma {:induction false} CompositionsWithin(subj: Term, xs: seq<Typed>, next: nat)
    ensures SubjectsWithin(subj, next, Compositions(subj, xs, Start(next)))
    ensures next <= Compositions(subj, xs, Start(next)).next
    decreases |xs|
  {
    if xs != [] {
      var n := |xs| - 1;
      CompositionsWithin(subj, xs[..n], next);
      CompStepWithin(subj, next, xs[n], Compositions(subj, xs[..n], Start(next)));
    }
  }

  /** A state after some of the items grows into the state after all of them. */
  lemma {:induction false} CompositionsPrefix(subj: Term, xs: seq<Typed>, st: Comps, j: nat)
    requires j <= |xs| && CompsInv(subj, st)
    ensures Grows(Compositions(subj, xs[..j], st), Compositions(subj, xs, st))
    decreases |xs|
  {
    if j < |xs| {
      var n := |xs| - 1;
      assert xs[..n][..j] == xs[..j];
      CompositionsPrefix(subj, xs[..n], st, j);
      CompositionsKeep(subj, xs[..n], st);
      CompStepKeeps(subj, xs[n], Compositions(subj, xs[..n], st));
    } else {
      assert xs[..j] == xs;
    }
  }

  /**
   * One composition node per mineral: two `forMineral` triples name the same mineral
   * exactly when they are about the same node.
   */
  lemma OnePerMineral(subj: Term, items: seq<(string, Cell)>, next: nat, t1: Triple, t2: Triple)
    requires var c := Compositions(subj, TypedValues(items), Start(next));
      t1 in c.ts && t2 in c.ts && t1.p == ForMineral && t2.p == ForMineral
    ensures t1.o == t2.o <==> t1.s == t2.s
  {
    var c := Compositions(subj, TypedValues(items), Start(next));
    CompositionsKeep(subj, TypedValues(items), Start(next));
    var m1 :| m1 in c.nodes && t1.s == c.nodes[m1] && t1.o == MineralIri(m1);
    var m2 :| m2 in c.nodes && t2.s == c.nodes[m2] && t2.o == MineralIri(m2);
    MineralIriInjective(m1, m2);
  }

  /** Mineral `m` has a typed value among `xs`. */
  predicate HasTyped(xs: seq<Typed>, m: Mineral) {
    exists i | 0 <= i < |xs| :: xs[i].Some? && xs[i].value.1 == m
  }

  /** One item adds its mineral, if it gives one, to the minerals with a composition node. */
  lemma CompStepNodes(subj: Term, x: Typed, st: Comps, m: Mineral)
    ensures m in CompStep(subj, x, st).nodes <==> m in st.nodes || (x.Some? && x.value.1 == m)
  {
  }

  /** The loop makes a composition node exactly for the minerals with a typed value. */
  lemma {:induction false} CompositionNodesTyped(subj: Term, xs: seq<Typed>, next: nat, m: Mineral)
    ensures m in Compositions(subj, xs, Start(next)).nodes <==> HasTyped(xs, m)
    decreases |xs|
  {
    if xs != [] {
      var n := |xs| - 1;
      CompositionNodesTyped(subj, xs[..n], next, m);
      CompStepNodes(subj, xs[n], Compositions(subj, xs[..n], Start(next)), m);
      if HasTyped(xs[..n], m) {
        var i :| 0 <= i < n && xs[..n][i].Some? && xs[..n][i].value.1 == m;
        assert xs[..n][i] == xs[i];
      }
      if HasTyped(xs, m) && !(xs[n].Some? && xs[n].value.1 == m) {
        var i :| 0 <= i < |xs| && xs[i].Some? && xs[i].value.1 == m;
        assert xs[..n][i] == xs[i];
      }
    }
  }

  /** The item's key names a type of mineral `m` and its value is a number. */
  predicate NumericTypeOf(item: (string, Cell), m: Mineral) {
    ExtractTypeNumber(item.0).Some? && ExtractTypeNumber(item.0).value.1 == m && CleanNumeric(item.1).Some?
  }

  /**
   * A mineral gets a composition node exactly when some key of the section names a type
   * of it and its value is a number.
   */
  lemma CompositionNodes(subj: Term, items: seq<(string, Cell)>, next: nat, m: Mineral)
    ensures m in Compositions(subj, TypedValues(items), Start(next)).nodes <==>
      exists i | 0 <= i < |items| :: NumericTypeOf(items[i], m)
  {
    var xs := TypedValues(items);
    CompositionNodesTyped(subj, xs, next, m);
    if HasTyped(xs, m) {
      var i :| 0 <= i < |xs| && xs[i].Some? && xs[i].value.1 == m;
      assert xs[i] == TypedValue(items[i]);
    }
    if exists i | 0 <= i < |items| :: NumericTypeOf(items[i], m) {
      var i :| 0 <= i < |items| && NumericTypeOf(items[i], m);
      assert xs[i] == TypedValue(items[i]);
    }
  }

  /** The value node the item at `i` adds. */
  lemma ValueRecordedTyped(subj: Term, xs: seq<Typed>, next: nat, i: nat)
    requires i < |xs| && xs[i].Some?
    ensures var x := xs[i].value;
      var c := Compositions(subj, xs, Start(next));
      x.1 in c.nodes &&
      exists b :: Triple(c.nodes[x.1], HasTypeValue, b) in c.ts && Triple(b, TypeNumber, IntegerLit(x.0)) in c.ts
                  && Triple(b, Percentage, DecimalLit(x.2)) in c.ts
  {
    var x := xs[i].value;
    var before := Compositions(subj, xs[..i], Start(next));
    var after := CompStep(subj, xs[i], before);
    assert xs[..i + 1][..i] == xs[..i];
    assert after == Compositions(subj, xs[..i + 1], Start(next));
    CompositionsPrefix(subj, xs, Start(next), i + 1);
    var st1 := EnsureComp(subj, x.1, before);
    var b := Blank(st1.next);
    assert Triple(after.nodes[x.1], HasTypeValue, b) in after.ts;
    assert Triple(b, TypeNumber, IntegerLit(x.0)) in after.ts;
    assert Triple(b, Percentage, DecimalLit(x.2)) in after.ts;
  }

  /**
   * Every numeric type key is written: a value node with its type number and
   * percentage hangs under its mineral's composition node.
   */
  lemma ValueRecorded(subj: Term, items: seq<(string, Cell)>, next: nat, i: nat, n: nat, m: Mineral)
    requires i < |items| && ExtractTypeNumber(items[i].0) == Some((n, m)) && CleanNumeric(items[i].1).Some?
    ensures var c := Compositions(subj, TypedValues(items), Start(next));
      m in c.nodes &&
      exists b :: Triple(c.nodes[m], HasTypeValue, b) in c.ts && Triple(b, TypeNumber, IntegerLit(n)) in c.ts
                  && Triple(b, Percentage, DecimalLit(CleanNumeric(items[i].1).value)) in c.ts
  {
    var xs := TypedValues(items);
    assert xs[i] == Some((n, m, CleanNumeric(items[i].1).value));
    ValueRecordedTyped(subj, xs, next, i);
  }

  /** A composition node for `m`, with its three triples. */
  method NewComposition(g: Store, subj: Term, m: Mineral) returns (c: Term)
    requires g.Valid() && Drawn(subj, g.blanks)
    modifies g
    ensures c == Blank(old(g.blanks)) && g.blanks == old(g.blanks) + 1
    ensures g.triples == old(g.triples) + CompTriples(subj, c, m) && g.Valid()
  {
    c := g.NewBlank();
    g.Add(Triple(subj, MineralComposition, c));
    g.Add(Triple(c, Type, MineralTypeComposition));
    g.Add(Triple(c, ForMineral, MineralIri(m)));
  }

  /** A value node under the composition node `c`, with its four triples. */
  method NewTypeValue(g: Store, c: Term, n: nat, v: Decimal)
    requires g.Valid() && Drawn(c, g.blanks)
    modifies g
    ensures g.blanks == old(g.blanks) + 1
    ensures g.triples == old(g.triples) + ValueTriples(c, Blank(old(g.blanks)), n, v) && g.Valid()
  {
    var b := g.NewBlank();
    g.Add(Triple(c, HasTypeValue, b));
    g.Add(Triple(b, Type, MineralTypeValue));
    g.Add(Triple(b, TypeNumber, IntegerLit(n)));
    g.Add(Triple(b, Percentage, DecimalLit(v)));
  }

  /** The body of the loop for one item, given what the item gives. */
  method AddTypeItem(g: Store, subj: Term, x: Typed, nodes: map<Mineral, Term>, ghost ts0: set<Triple>, ghost st: Comps)
    returns (nodes': map<Mineral, Term>)
    requires g.Valid() && nodes == st.nodes && g.triples == ts0 + st.ts && g.blanks == st.next
    requires Drawn(subj, g.blanks) && NodesDrawn(st)
    modifies g
    ensures var r := CompStep(subj, x, st);
      && g.Valid() && nodes' == r.nodes && g.triples == ts0 + r.ts && g.blanks == r.next
    ensures NodesDrawn(CompStep(subj, x, st))
  {
    nodes' := nodes;
    if x.Some? {
      var m := x.value.1;
      if m !in nodes {
        var c := NewComposition(g, subj, m);
        nodes' := nodes[m := c];
      }
      EnsureCompDrawn(subj, m, st);
      NewTypeValue(g, nodes'[m], x.value.0, x.value.2);
    }
  }

  /** The compositions the loop has built after its first `i` items. */
  ghost predicate CompsSoFar(g: Store, subj: Term, items: seq<(string, Cell)>, i: nat, nodes: map<Mineral, Term>,
                       ts0: set<Triple>, b0: nat)
    requires i <= |items|
    reads g
  {
    var st := Compositions(subj, TypedValues(items)[..i], Start(b0));
    && g.Valid() && nodes == st.nodes && g.triples == ts0 + st.ts && g.blanks == st.next
    && Drawn(subj, g.blanks) && NodesDrawn(st)
  }

  /** One turn of the loop over the items. */
  method AddItemAt(g: Store, subj: Term, items: seq<(string, Cell)>, i: nat, nodes: map<Mineral, Term>,
                   ghost ts0: set<Triple>, ghost b0: nat)
    returns (nodes': map<Mineral, Term>)
    requires i < |items| && CompsSoFar(g, subj, items, i, nodes, ts0, b0)
    modifies g
    ensures CompsSoFar(g, subj, items, i + 1, nodes', ts0, b0)
  {
    ghost var xs := TypedValues(items);
    assert xs[..i + 1][..i] == xs[..i];
    nodes' := AddTypeItem(g, subj, TypedValue(items[i]), nodes, ts0, Compositions(subj, xs[..i], Start(b0)));
  }

  /**
   * `for data_key, value in assoc_data.items()`: builds the compositions and returns
   * `mineral_compositions`.
   */
  method AddCompositions(g: Store, subj: Term, items: seq<(string, Cell)>) returns (nodes: map<Mineral, Term>)
    requires g.Valid() && Drawn(subj, g.blanks)
    modifies g
    ensures var c := Compositions(subj, TypedValues(items), Start(old(g.blanks)));
      && g.Valid() && nodes == c.nodes && g.triples == old(g.triples) + c.ts && g.blanks == c.next
  {
    nodes := map[];
    ghost var ts0 := g.triples;
    ghost var b0 := g.blanks;
    assert TypedValues(items)[..0] == [];
    for i := 0 to |items|
      invariant CompsSoFar(g, subj, items, i, nodes, ts0, b0)
    {
      nodes := AddItemAt(g, subj, items, i, nodes, ts0, b0);
    }
    assert TypedValues(items)[..|items|] == TypedValues(items);
  }

  // ---------------------------------------------------------------- per-mineral lookups

  const TotalGrainsCount := Crust("totalGrainsCount")
  const UnknownPercent := Crust("unknownPercent")
  const LaIcPmsCount := Crust("laIcPmsCount")

  /** `count_keys`: grain counts, written as integers. */
  const CountKeys: seq<(Mineral, string)> :=
    [(Garnet, "(n=_)_gar"), (Chromite, "(n=_)_chr"), (Clinopyroxene, "(n=_)_Cpx"),
     (Ilmenite, "(n=_)_Ilm"), (Olivine, "(n=_)_Ol")]

  /** `unknown_keys`: unknown shares, written as decimals. */
  const UnknownKeys: seq<(Mineral, string)> := [(Chromite, "unknown_%_chr"), (Ilmenite, "unknown_%_Ilm")]

  /** `la_icpms_keys`: LA-ICP-MS grain counts, written as integers. */
  const LaIcpmsKeys: seq<(Mineral, string)> :=
    [(Garnet, "LA-ICPMS_гранат_N="), (Clinopyroxene, "LA-ICPMS_клинопироксен_N=")]

  /** One entry of such a mapping: a lookup on the mineral's composition node, if it has one. */
  function MineralLookup(section: Section, nodes: map<Mineral, Term>, key: (Mineral, string), prop: Term, asInt: bool)
    : set<Triple>
  {
    if key.0 in nodes then LookupTriples(section, Lookup(nodes[key.0], key.1, prop), asInt) else {}
  }

  /** A whole such mapping. */
  function MineralLookups(section: Section, nodes: map<Mineral, Term>, keys: seq<(Mineral, string)>,
                          prop: Term, asInt: bool): set<Triple>
  {
    Unions(keys, k => MineralLookup(section, nodes, k, prop, asInt))
  }

  /**
   * The counts and shares hang only on composition nodes: each triple of such a
   * mapping is about a node that is under the pipe as the composition of a mineral the
   * mapping names.
   */
  lemma MineralLookupsOnCompositions(subj: Term, xs: seq<Typed>, next: nat, section: Section,
                                     keys: seq<(Mineral, string)>, prop: Term, asInt: bool, t: Triple)
    requires var c := Compositions(subj, xs, Start(next));
      t in MineralLookups(section, c.nodes, keys, prop, asInt)
    ensures var c := Compositions(subj, xs, Start(next));
      && t.p == prop
      && exists k | 0 <= k < |keys| ::
           && Triple(subj, MineralComposition, t.s) in c.ts
           && Triple(t.s, ForMineral, MineralIri(keys[k].0)) in c.ts
  {
    var c := Compositions(subj, xs, Start(next));
    CompositionsKeep(subj, xs, Start(next));
    UnionsMember(keys, k => MineralLookup(section, c.nodes, k, prop, asInt), t);
    var k :| 0 <= k < |keys| && t in MineralLookup(section, c.nodes, keys[k], prop, asInt);
    LookupFirstHitWins(section, Lookup(c.nodes[keys[k].0], keys[k].1, prop), asInt, t);
  }

  /** Each triple of such a mapping is about one of the composition nodes. */
  lemma MineralLookupsSubjects(section: Section, nodes: map<Mineral, Term>, keys: seq<(Mineral, string)>,
                               prop: Term, asInt: bool, t: Triple)
    requires t in MineralLookups(section, nodes, keys, prop, asInt)
    ensures exists m | m in nodes :: t.s == nodes[m]
  {
    UnionsMember(keys, k => MineralLookup(section, nodes, k, prop, asInt), t);
    var k :| 0 <= k < |keys| && t in MineralLookup(section, nodes, keys[k], prop, asInt);
    LookupFirstHitWins(section, Lookup(nodes[keys[k].0], keys[k].1, prop), asInt, t);
  }

  /** A mineral without a composition node gets no count, whatever the section holds. */
  lemma NoCompositionNoCount(section: Section, nodes: map<Mineral, Term>, key: (Mineral, string), prop: Term, asInt: bool)
    requires key.0 !in nodes
    ensures MineralLookup(section, nodes, key, prop, asInt) == {}
  {
  }

  /** `for mineral_code, key_pattern in ...items(): if mineral_code in mineral_compositions: ...` */
  method EmitMineralLookups(g: Store, section: Section, nodes: map<Mineral, Term>, keys: seq<(Mineral, string)>,
                            prop: Term, asInt: bool)
    requires g.Valid() && !prop.Blank? && forall m | m in nodes :: Drawn(nodes[m], g.blanks)
    modifies g
    ensures g.Valid() && g.blanks == old(g.blanks)
    ensures g.triples == old(g.triples) + MineralLookups(section, nodes, keys, prop, asInt)
  {
    for k := 0 to |keys|
      invariant g.Valid() && g.blanks == old(g.blanks)
      invariant g.triples == old(g.triples) + MineralLookups(section, nodes, keys[..k], prop, asInt)
    {
      if keys[k].0 in nodes {
        EmitLookup(g, section, Lookup(nodes[keys[k].0], keys[k].1, prop), asInt);
      }
      assert keys[..k + 1][..k] == keys[..k];
    }
    assert keys[..|keys|] == keys;
  }
}
