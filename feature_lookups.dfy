/**
 * The mapping loops of `convert_features_to_rdf`: for each entry of a mapping, the first
 * item of a feature section whose key contains the entry's key decides, and its value
 * is written out only when it reads as a number.
 */
module FeatureLookups {
  import opened Options
  import opened Text
  import opened Values
  import opened Rdf
  import opened Dicts
  import opened FeatureKeys

  /** A section of the feature dictionary: keys and cell values, in order. */
  type Section = Dict<Cell>

  /** A term of the contents-terms vocabulary (`CRUST[local]`). */
  function Crust(local: string): Term {
    Iri(PT, local)
  }

  /** A node that is no blank node, or one drawn before the counter reached `bound`. */
  predicate Drawn(t: Term, bound: nat) {
    t.Blank? ==> t.id < bound
  }

  /** `raw_key in data_key or raw_key.replace(" ", "_") in normalize_key(data_key)`. */
  predicate KeyHit(dataKey: string, raw: string) {
    Contains(dataKey, raw) || Contains(NormalizeKey(dataKey), Replace(raw, " ", "_"))
  }

  /** The first item from position `from` on whose key the mapping key hits. */
  function FirstHit(section: Section, raw: string, from: nat): (r: Option<nat>)
    ensures r.Some? ==> from <= r.value < |section| && KeyHit(section[r.value].0, raw)
    ensures forall j | from <= j < (if r.Some? then r.value else |section|) :: !KeyHit(section[j].0, raw)
    decreases |section| - from
  {
    if from >= |section| then None
    else if KeyHit(section[from].0, raw) then Some(from)
    else FirstHit(section, raw, from + 1)
  }

  /** One mapping entry: where the value goes (`node`, `prop`) and the key to look for. */
  datatype Lookup = Lookup(node: Term, raw: string, prop: Term)

  /** `Literal(x, datatype=XSD.decimal)`, or `Literal(int(x), datatype=XSD.integer)`. */
  function NumLit(d: Decimal, asInt: bool): Term {
    if asInt then IntegerLit(Trunc(d)) else DecimalLit(d)
  }

  /** What one entry adds: the first hit's value if it is a number, and nothing otherwise. */
  function LookupTriples(section: Section, l: Lookup, asInt: bool): set<Triple> {
    match FirstHit(section, l.raw, 0)
    case None => {}
    case Some(i) =>
      match CleanNumeric(section[i].1)
      case None => {}
      case Some(d) => {Triple(l.node, l.prop, NumLit(d, asInt))}
  }

  /** The union of what `f` gives for each entry of `ls`, built up front to back. */
  function Unions<T>(ls: seq<T>, f: T -> set<Triple>): set<Triple>
    decreases |ls|
  {
    if ls == [] then {} else Unions(ls[..|ls| - 1], f) + f(ls[|ls| - 1])
  }

  /** A union holds exactly what some entry gives. */
  lemma {:induction false} UnionsMember<T>(ls: seq<T>, f: T -> set<Triple>, t: Triple)
    ensures t in Unions(ls, f) <==> exists k | 0 <= k < |ls| :: t in f(ls[k])
    decreases |ls|
  {
    if ls != [] {
      var n := |ls| - 1;
      UnionsMember(ls[..n], f, t);
      if exists k | 0 <= k < |ls| :: t in f(ls[k]) {
        var k :| 0 <= k < |ls| && t in f(ls[k]);
        if k < n {
          assert ls[..n][k] == ls[k];
        }
      }
      if exists k | 0 <= k < n :: t in f(ls[..n][k]) {
        var k :| 0 <= k < n && t in f(ls[..n][k]);
        assert ls[..n][k] == ls[k];
      }
    }
  }

  /** What a whole mapping adds. */
  function AllLookups(section: Section, ls: seq<Lookup>, asInt: bool): set<Triple> {
    Unions(ls, l => LookupTriples(section, l, asInt))
  }

  /** The entries of a mapping from keys to local names, all written to `node`. */
  function Bind(node: Term, mapping: seq<(string, string)>): (ls: seq<Lookup>)
    ensures |ls| == |mapping|
    ensures forall k | 0 <= k < |ls| :: ls[k] == Lookup(node, mapping[k].0, Crust(mapping[k].1))
  {
    seq(|mapping|, k requires 0 <= k < |mapping| => Lookup(node, mapping[k].0, Crust(mapping[k].1)))
  }

  /** The first item of the section whose key the mapping key hits is at `i`. */
  predicate FirstHitAt(section: Section, raw: string, i: nat) {
    i < |section| && KeyHit(section[i].0, raw) && forall j | 0 <= j < i :: !KeyHit(section[j].0, raw)
  }

  /** `FirstHit` finds exactly the first item the mapping key hits. */
  lemma FirstHitIff(section: Section, raw: string, i: nat)
    ensures FirstHit(section, raw, 0) == Some(i) <==> FirstHitAt(section, raw, i)
  {
  }

  /**
   * An entry emits exactly one triple, carrying the number its first hit reads as, and
   * only when there is a first hit and its value is a number.
   */
  lemma LookupFirstHitWins(section: Section, l: Lookup, asInt: bool, t: Triple)
    ensures t in LookupTriples(section, l, asInt) <==>
      exists i | 0 <= i < |section| ::
        && FirstHitAt(section, l.raw, i)
        && CleanNumeric(section[i].1).Some?
        && t == Triple(l.node, l.prop, NumLit(CleanNumeric(section[i].1).value, asInt))
  {
    match FirstHit(section, l.raw, 0)
    case None =>
      forall i | 0 <= i < |section| ensures !FirstHitAt(section, l.raw, i) {
        FirstHitIff(section, l.raw, i);
      }
    case Some(h) =>
      FirstHitIff(section, l.raw, h);
      forall i | 0 <= i < |section| && FirstHitAt(section, l.raw, i) ensures i == h {
        FirstHitIff(section, l.raw, i);
      }
  }

  /**
   * The search stops at the first hit even when its value is no number: nothing is
   * written then, whatever later items hold.
   */
  lemma LookupStopsAtFirstHit(section: Section, l: Lookup, asInt: bool, i: nat)
    requires FirstHitAt(section, l.raw, i) && CleanNumeric(section[i].1).None?
    ensures LookupTriples(section, l, asInt) == {}
  {
    FirstHitIff(section, l.raw, i);
  }

  /** A mapping adds what its entries add, and nothing else. */
  lemma AllLookupsMember(section: Section, ls: seq<Lookup>, asInt: bool, t: Triple)
    ensures t in AllLookups(section, ls, asInt) <==>
      exists k | 0 <= k < |ls| :: t in LookupTriples(section, ls[k], asInt)
  {
    UnionsMember(ls, l => LookupTriples(section, l, asInt), t);
  }

  /** Every triple of a mapping is about one of its entries' nodes, with that entry's property. */
  lemma AllLookupsShape(section: Section, ls: seq<Lookup>, asInt: bool, t: Triple)
    requires t in AllLookups(section, ls, asInt)
    ensures exists k | 0 <= k < |ls| :: t.s == ls[k].node && t.p == ls[k].prop
  {
    AllLookupsMember(section, ls, asInt, t);
    var k :| 0 <= k < |ls| && t in LookupTriples(section, ls[k], asInt);
  }

  /** The inner loop over the section's items, up to the first hit. */
  method FindFirstHit(section: Section, raw: string) returns (r: Option<nat>)
    ensures r == FirstHit(section, raw, 0)
  {
    var i := 0;
    r := None;
    while i < |section|
      invariant 0 <= i <= |section|
      invariant FirstHit(section, raw, 0) == FirstHit(section, raw, i)
      decreases |section| - i
    {
      if KeyHit(section[i].0, raw) {
        r := Some(i);
        break;
      }
      i := i + 1;
    }
  }

  /** One entry of a mapping loop. */
  method EmitLookup(g: Store, section: Section, l: Lookup, asInt: bool)
    requires g.Valid() && Drawn(l.node, g.blanks) && !l.prop.Blank?
    modifies g
    ensures g.Valid() && g.blanks == old(g.blanks)
    ensures g.triples == old(g.triples) + LookupTriples(section, l, asInt)
  {
    var hit := FindFirstHit(section, l.raw);
    if hit.Some? {
      var num := CleanNumeric(section[hit.value].1);
      if num.Some? {
        g.Add(Triple(l.node, l.prop, NumLit(num.value, asInt)));
      }
    }
  }

  /** `for raw_key, prop in mapping.items(): ...` */
  method EmitLookups(g: Store, section: Section, ls: seq<Lookup>, asInt: bool)
    requires g.Valid() && forall k | 0 <= k < |ls| :: Drawn(ls[k].node, g.blanks) && !ls[k].prop.Blank?
    modifies g
    ensures g.Valid() && g.blanks == old(g.blanks)
    ensures g.triples == old(g.triples) + AllLookups(section, ls, asInt)
  {
    for k := 0 to |ls|
      invariant g.Valid() && g.blanks == old(g.blanks)
      invariant g.triples == old(g.triples) + AllLookups(section, ls[..k], asInt)
    {
      EmitLookup(g, section, ls[k], asInt);
      assert ls[..k + 1][..k] == ls[..k];
    }
    assert ls[..|ls|] == ls;
  }
}
