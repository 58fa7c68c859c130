/**
 * The naming helpers of the geochemistry importer: `normURI`, the element-symbol
 * lookup `elem`, `snake_to_camel`, `capitalize`, the rock-texture vocabulary, the
 * citation splitter `reffield` and the workbook sheet filter.
 */
module PolNames {
  import opened Options
  import opened Text
  import opened Rdf

  // ---------------------------------------------------------------- normURI

  /**
   * `normURI(s)`: letters and digits are kept, every other run of characters becomes
   * one `_`, and no `_` is left at either end.
   */
  function NormUriOf(s: string): string {
    SqueezeTrim(s, IsAlnum, '_')
  }

  /** A name `normURI` can produce: letters, digits and single inner underscores. */
  ghost predicate UriSafe(r: string) {
    && (forall i | 0 <= i < |r| :: IsAlnum(r[i]) || r[i] == '_')
    && (|r| > 0 ==> r[0] != '_' && r[|r| - 1] != '_')
    && (forall i | 0 <= i < |r| - 1 :: !(r[i] == '_' && r[i + 1] == '_'))
  }

  /** The character loop of `normURI`, followed by `rstrip("_")`. */
  method NormUri(s: string) returns (r: string)
    ensures r == NormUriOf(s)
  {
    r := [];
    var i := 0;
    while i < |s|
      invariant 0 <= i <= |s|
      invariant r == Squeezed(s[..i], IsAlnum, '_')
    {
      var c := s[i];
      assert s[..i + 1][..i] == s[..i];
      if IsAlnum(c) {
        r := r + [c];
      } else if |r| > 0 && r[|r| - 1] != '_' {
        r := r + ['_'];
      }
      i := i + 1;
    }
    assert s[..i] == s;
    r := RStrip(r, {'_'});
  }

  lemma NormUriShape(s: string)
    ensures UriSafe(NormUriOf(s))
  {
    SqueezeTrimShape(s, IsAlnum, '_');
  }

  /** The letters and digits of the input survive, in order, and nothing else does. */
  lemma NormUriKeepsAlnum(s: string)
    ensures Filter(IsAlnum, NormUriOf(s)) == Filter(IsAlnum, s)
  {
    SqueezeTrimKeepsOrder(s, IsAlnum, '_');
  }

  lemma NormUriIdempotent(s: string)
    ensures NormUriOf(NormUriOf(s)) == NormUriOf(s)
  {
    SqueezeTrimIdempotent(s, IsAlnum, '_');
  }

  /** Names that are already URI-safe pass through unchanged. */
  lemma NormUriFixes(r: string)
    requires UriSafe(r)
    ensures NormUriOf(r) == r
  {
    SqueezeTrimFixes(r, IsAlnum, '_');
  }

  // ---------------------------------------------------------------- elem

  /** First character upper-cased, the rest lower-cased. */
  function FoldSymbol(name: string): string {
    if name == [] then [] else [Upper(name[0])] + LowerStr(name[1..])
  }

  /** `elem(name)`: the periodic-table entry of the folded symbol, if there is one. */
  function Elem(name: string, table: map<string, Term>): Option<Term> {
    var key := FoldSymbol(name);
    if key in table then Some(table[key]) else None
  }

  /** Folding twice is folding once, so `elem` gives the same answer for a name and its folded form. */
  lemma {:induction false} ElemFolded(name: string, table: map<string, Term>)
    ensures FoldSymbol(FoldSymbol(name)) == FoldSymbol(name)
    ensures Elem(FoldSymbol(name), table) == Elem(name, table)
  {
    if name != [] {
      var f := FoldSymbol(name);
      CaseFolds(name[0]);
      forall i | 1 <= i < |f|
        ensures Lower(f[i]) == f[i]
      {
        CaseFolds(name[i]);
      }
      assert FoldSymbol(f) == f;
    }
  }

  /** Names that differ only in letter case (ASCII and Cyrillic) find the same element. */
  lemma ElemIgnoresCase(a: string, b: string, table: map<string, Term>)
    requires |a| == |b| && forall i | 0 <= i < |a| :: Lower(a[i]) == Lower(b[i])
    ensures Elem(a, table) == Elem(b, table)
  {
    if a != [] {
      assert Upper(Lower(a[0])) == Upper(a[0]) && Upper(Lower(b[0])) == Upper(b[0]) by {
        CaseFolds(a[0]);
        CaseFolds(b[0]);
      }
      assert FoldSymbol(a) == FoldSymbol(b);
    }
  }

  // ---------------------------------------------------------------- capitalize

  /** `str.capitalize()`: first character upper-cased, the rest lower-cased. */
  function CapFirst(t: string): string {
    if t == [] then [] else [Upper(t[0])] + LowerStr(t[1..])
  }

  /** `capitalize(words)`: lower-cased words, single-spaced, first character upper-cased. */
  function Capitalize(words: string): string {
    CapFirst(Collapse(LowerStr(words)))
  }

  predicate LowerFixed(s: string) {
    forall i | 0 <= i < |s| :: Lower(s[i]) == s[i]
  }

  lemma {:induction false} SqueezedChars(s: string, keep: char -> bool, sep: char)
    ensures forall i | 0 <= i < |Squeezed(s, keep, sep)| :: Squeezed(s, keep, sep)[i] in s || Squeezed(s, keep, sep)[i] == sep
  {
    if s != [] {
      SqueezedChars(s[..|s| - 1], keep, sep);
    }
  }

  lemma RStripPrefix(s: string, cs: set<char>)
    ensures RStrip(s, cs) <= s
  {
  }

  lemma CollapseLowerFixed(s: string)
    requires LowerFixed(s)
    ensures LowerFixed(Collapse(s))
  {
    var q := Squeezed(s, NotSpace, ' ');
    SqueezedChars(s, NotSpace, ' ');
    RStripPrefix(q, {' '});
  }

  lemma LowerStrFixed(s: string)
    requires LowerFixed(s)
    ensures LowerStr(s) == s
  {
  }

  lemma LowerStrLowerFixed(s: string)
    ensures LowerFixed(LowerStr(s))
  {
    forall i | 0 <= i < |s|
      ensures Lower(Lower(s[i])) == Lower(s[i])
    {
      CaseFolds(s[i]);
    }
  }

  /** Lower-casing a capitalized lower-case text gives the text back. */
  lemma LowerCapFirst(t: string)
    requires LowerFixed(t)
    ensures LowerStr(CapFirst(t)) == t
  {
    if t != [] {
      CaseFolds(t[0]);
      LowerStrLowerFixed(t[1..]);
      LowerStrFixed(t[1..]);
      var c := CapFirst(t);
      assert LowerStr(c)[0] == Lower(Upper(t[0])) == t[0];
      forall i | 1 <= i < |t|
        ensures LowerStr(c)[i] == t[i]
      {
        CaseFolds(t[i]);
      }
    }
  }

  /**
   * `capitalize`'s result is the input's words, lower-cased and single-spaced, with only
   * the first character upper-cased; a second pass leaves it unchanged.
   */
  lemma CapitalizeIdempotent(words: string)
    ensures var r := Capitalize(words);
      && LowerStr(r) == Collapse(LowerStr(words))
      && (|r| > 0 ==> r[0] == Upper(r[0]) && r[1..] == LowerStr(r[1..]))
      && (forall i | 0 <= i < |r| :: !IsSpace(r[i]) || r[i] == ' ')
      && (|r| > 0 ==> r[0] != ' ' && r[|r| - 1] != ' ')
      && (forall i | 0 <= i < |r| - 1 :: !(r[i] == ' ' && r[i + 1] == ' '))
    ensures Capitalize(Capitalize(words)) == Capitalize(words)
  {
    var t := Collapse(LowerStr(words));
    LowerStrLowerFixed(words);
    CollapseLowerFixed(LowerStr(words));
    LowerCapFirst(t);
    CollapseShape(LowerStr(words));
    var r := Capitalize(words);
    if |r| > 0 {
      CaseFolds(t[0]);
      LowerStrLowerFixed(t[1..]);
      LowerStrFixed(t[1..]);
      assert r[1..] == t[1..];
      assert r[1..] == LowerStr(r[1..]);
      forall i | 0 <= i < |r|
        ensures r[i] == ' ' <==> t[i] == ' '
        ensures IsSpace(r[i]) <==> IsSpace(t[i])
      {
        if i == 0 {
          assert r[0] == Upper(t[0]);
        }
      }
    }
  }

  // ---------------------------------------------------------------- snake_to_camel

  /** The concatenation of the capitalized parts. */
  function CapAll(parts: seq<string>): string
    decreases |parts|
  {
    if parts == [] then [] else CapFirst(parts[0]) + CapAll(parts[1..])
  }

  /** `snake_to_camel(s, capitalize_first)`. */
  function SnakeToCamel(s: string, capitalizeFirst: bool): string {
    if s == [] then s
    else
      var parts := SplitOn(s, '_');
      if capitalizeFirst then CapAll(parts) else parts[0] + CapAll(parts[1..])
  }

  predicate NotUnderscore(c: char) { c != '_' }

  lemma CaseKeepsUnderscore(c: char)
    ensures (Upper(c) == '_' <==> c == '_') && (Lower(c) == '_' <==> c == '_')
  {
  }

  lemma {:induction false} CapAllNoUnderscore(parts: seq<string>)
    requires forall k | 0 <= k < |parts| :: '_' !in parts[k]
    ensures '_' !in CapAll(parts)
    decreases |parts|
  {
    if parts != [] {
      CapAllNoUnderscore(parts[1..]);
      var p := parts[0];
      if p != [] {
        CaseKeepsUnderscore(p[0]);
        forall i | 1 <= i < |p|
          ensures Lower(p[i]) != '_'
        {
          CaseKeepsUnderscore(p[i]);
        }
        assert '_' !in CapFirst(p);
      }
    }
  }

  /** The camel-case name has no underscore left. */
  lemma SnakeToCamelNoUnderscore(s: string, capitalizeFirst: bool)
    ensures '_' !in SnakeToCamel(s, capitalizeFirst)
  {
    if s != [] {
      var parts := SplitOn(s, '_');
      SplitOnJoin(s, '_');
      CapAllNoUnderscore(parts);
      if !capitalizeFirst {
        CapAllNoUnderscore(parts[1..]);
        assert '_' !in parts[0];
      }
    }
  }

  function Concat(parts: seq<string>): string
    decreases |parts|
  {
    if parts == [] then [] else parts[0] + Concat(parts[1..])
  }

  lemma ConcatCons(x: string, rest: seq<string>)
    ensures Concat([x] + rest) == x + Concat(rest)
  {
    assert ([x] + rest)[1..] == rest;
  }

  lemma LowerStrAppend(a: string, b: string)
    ensures LowerStr(a + b) == LowerStr(a) + LowerStr(b)
  {
  }

  lemma LowerCapFirstSame(p: string)
    ensures LowerStr(CapFirst(p)) == LowerStr(p)
  {
    if p != [] {
      var c := CapFirst(p);
      forall i | 0 <= i < |p|
        ensures LowerStr(c)[i] == LowerStr(p)[i]
      {
        CaseFolds(p[i]);
      }
    }
  }

  lemma {:induction false} LowerCapAll(parts: seq<string>)
    ensures LowerStr(CapAll(parts)) == LowerStr(Concat(parts))
    decreases |parts|
  {
    if parts != [] {
      LowerCapAll(parts[1..]);
      LowerStrAppend(CapFirst(parts[0]), CapAll(parts[1..]));
      LowerStrAppend(parts[0], Concat(parts[1..]));
      LowerCapFirstSame(parts[0]);
    }
  }

  lemma {:induction false} FilterAppend(keep: char -> bool, a: string, b: string)
    ensures Filter(keep, a + b) == Filter(keep, a) + Filter(keep, b)
    decreases |b|
  {
    if b != [] {
      var b0 := b[..|b| - 1];
      FilterAppend(keep, a, b0);
      assert (a + b)[..|a + b| - 1] == a + b0;
    } else {
      assert a + b == a;
    }
  }

  lemma {:induction false} FilterAll(keep: char -> bool, a: string)
    requires forall i | 0 <= i < |a| :: keep(a[i])
    ensures Filter(keep, a) == a
    decreases |a|
  {
    if a != [] {
      FilterAll(keep, a[..|a| - 1]);
    }
  }

  lemma {:induction false} FilterJoin(parts: seq<string>)
    requires forall k | 0 <= k < |parts| :: '_' !in parts[k]
    ensures Filter(NotUnderscore, Join(parts, '_')) == Concat(parts)
    decreases |parts|
  {
    if parts != [] {
      FilterAll(NotUnderscore, parts[0]);
      if |parts| == 1 {
        assert Concat(parts) == parts[0] + [];
      } else {
        var p0, rest := parts[0], Join(parts[1..], '_');
        assert Join(parts, '_') == (p0 + ['_']) + rest;
        calc {
          Filter(NotUnderscore, (p0 + ['_']) + rest);
          { FilterAppend(NotUnderscore, p0 + ['_'], rest); }
          Filter(NotUnderscore, p0 + ['_']) + Filter(NotUnderscore, rest);
          { FilterJoin(parts[1..]); }
          Filter(NotUnderscore, p0 + ['_']) + Concat(parts[1..]);
          { assert (p0 + ['_'])[..|p0|] == p0; }
          p0 + Concat(parts[1..]);
        }
      }
    }
  }

  /** Converting to camel case only drops the underscores and changes letter case. */
  lemma SnakeToCamelLetters(s: string, capitalizeFirst: bool)
    ensures LowerStr(SnakeToCamel(s, capitalizeFirst)) == LowerStr(Filter(NotUnderscore, s))
  {
    if s != [] {
      var parts := SplitOn(s, '_');
      SplitOnJoin(s, '_');
      FilterJoin(parts);
      LowerCapAll(parts);
      if !capitalizeFirst {
        LowerCapAll(parts[1..]);
        LowerStrAppend(parts[0], CapAll(parts[1..]));
        LowerStrAppend(parts[0], Concat(parts[1..]));
      }
    }
  }

  // ---------------------------------------------------------------- rock textures

  /** `ROCK_TEXTURE_MAPPING`, in its declaration order: spelling and texture class name. */
  const Textures: seq<(string, string)> := [
    ("COARSE", "CoarseGrainedTexture"),
    ("COARSE-GRAINED", "CoarseGrainedTexture"),
    ("MEDIUM-GRAINED", "MediumGrainedTexture"),
    ("FINE-GRAINED", "FineGrainedTexture"),
    ("FINE", "FineGrainedTexture"),
    ("GRANOBLASTIC", "GranoblasticTexture"),
    ("PORPHYROCLASTIC", "PorphyroclasticTexture"),
    ("PORPHYRITIC", "PorphyriticTexture"),
    ("CUMULATE", "CumulateTexture"),
    ("MEGACRYSTALLINE", "MegacrystallineTexture"),
    ("MEGACRYSTIC", "MegacrystallineTexture"),
    ("GRANULAR", "GranularTexture"),
    ("MOSAIC", "MosaicTexture"),
    ("EQUIGRANULAR", "EquigranularTexture"),
    ("SHEARED", "ShearedTexture"),
    ("FOLIATED", "FoliatedTexture"),
    ("FLUIDAL", "FluidalTexture"),
    ("BANDED", "BandedTexture"),
    ("LAMINAR", "LaminatedTexture"),
    ("LAMINATED", "LaminatedTexture"),
    ("COARSE PORPHYRITIC", "CoarsePorphyriticTexture"),
    ("FINE PORPHYRITIC", "FinePorphyriticTexture"),
    ("COARSE-PORPHYRIC", "CoarsePorphyriticTexture"),
    ("COARSE PORPHYROCLASTIC", "CoarsePorphyroclasticTexture"),
    ("FINE-GRAINED PORPHYROCLASTIC", "FineGrainedPorphyroclasticTexture"),
    ("FINE PORPHYROCLASTIC", "FineGrainedPorphyroclasticTexture"),
    ("MOSAIC-PORPHYROCLASTIC", "MosaicPorphyroclasticTexture"),
    ("GRANOBLASTIC, BANDED", "GranoblasticBandedTexture"),
    ("COARSE GRANOBLASTIC", "CoarseGranoblasticTexture"),
    ("COARSE EQUANT", "CoarseEquantTexture"),
    ("COARSE-EQUANT", "CoarseEquantTexture"),
    ("COARSE TABULAR", "CoarseTabularTexture"),
    ("COARSE-TABULAR", "CoarseTabularTexture"),
    ("MEDIUM- TO COARSE-GRAINED", "MediumToCoarseGrainedTexture"),
    ("FINE- TO MEDIUM-GRAINED", "FineToMediumGrainedTexture"),
    ("FINE- TO COARSE-GRAINED", "FineToMediumGrainedTexture"),
    ("HETEROGRANULAR", "HeterogeneousTexture"),
    ("ALLOTRIOMORPHIC GRANULAR", "AllotriomorphicGranularTexture"),
    ("XENOMORPHIC GRANULAR", "XenomorphicGranularTexture"),
    ("INTERLOCKING", "InterlockingTexture"),
    ("DEFORMED", "DeformedTexture"),
    ("TRANSITIONAL", "TransitionalTexture"),
    ("MYLONITIC", "MyloniticTexture"),
    ("FLUIDAL MOSAIC", "FluidalMosaicTexture"),
    ("COARSE LAMELLAR", "CoarseLamellarTexture"),
    ("COARSE PROTOGRANULAR", "CoarseProtogranularTexture"),
    ("PROTOGRANULAR", "ProtogranularTexture"),
    ("LAYERED AND DISRUPTED MOSAIC PORPHYROCLASTIC", "LayeredDisruptedMosaicPorphyroclasticTexture"),
    ("FLUIDAL MOSAIC PORPHYROCLASTIC", "FluidalMosaicTexture"),
    ("MOSAIC-TABULAR TO EQUIGRANULAR", "MosaicTexture"),
    ("HYPAUTOMORPHIC, OPHITIC WITH TRANSITION TO GRANO-LAPIDOBLASTIC", "HypautomorphicOphiticTexture"),
    ("FASCICULATE", "FasciculateTexture"),
    ("POLYGONAL GRANOBLASTIC", "PolygonalGranoblasticTexture"),
    ("PORPHYROBLASTIC", "PorphyroclasticTexture"),
    ("COARSE-PORPHYRIC, PORPHYROCLASTIC, WEAKLY LAMINAR", "ComplexTexture"),
    ("COARSE GRANULAR", "CoarseGrainedTexture"),
    ("COARSE-GRANULAR", "CoarseGrainedTexture"),
    ("MEDIUM-EQUANT", "EquigranularTexture"),
    ("MEDIUM-TABULAR", "MediumGrainedTexture"),
    ("COARSE-EQUANT/TABULAR FOLIATED", "CoarseEquantTexture"),
    ("COARSE-TABULAR FOLIATED", "CoarseTabularTexture"),
    ("COASRSE", "CoarseGrainedTexture"),
    ("GRANULOBLASTIC", "GranoblasticTexture")
  ]

  /** Index of the entry spelled exactly `n`, the first one when several are. */
  function FindExact(n: string, table: seq<(string, string)>): (r: Option<nat>)
    ensures r.Some? ==> r.value < |table| && table[r.value].0 == n
    ensures r.Some? ==> forall j | 0 <= j < r.value :: table[j].0 != n
    ensures r.None? ==> forall j | 0 <= j < |table| :: table[j].0 != n
    decreases |table|
  {
    if table == [] then None
    else if table[0].0 == n then Some(0)
    else match FindExact(n, table[1..])
      case None => None
      case Some(i) => Some(i + 1)
  }

  /** Index of the first entry whose spelling occurs inside `n`. */
  function FindContained(n: string, table: seq<(string, string)>): (r: Option<nat>)
    ensures r.Some? ==> r.value < |table| && Contains(n, table[r.value].0)
    ensures r.Some? ==> forall j | 0 <= j < r.value :: !Contains(n, table[j].0)
    ensures r.None? ==> forall j | 0 <= j < |table| :: !Contains(n, table[j].0)
    decreases |table|
  {
    if table == [] then None
    else if Contains(n, table[0].0) then Some(0)
    else match FindContained(n, table[1..])
      case None => None
      case Some(i) => Some(i + 1)
  }

  /**
   * `get_texture_iri(s)`: nothing for an empty text; otherwise the texture spelled
   * exactly like the upper-cased, single-spaced text, else the first texture whose
   * spelling occurs in it, else `ComplexTexture`.
   */
  function TextureIri(s: string): Option<Term> {
    TextureIn(s, Textures)
  }

  function TextureIn(s: string, table: seq<(string, string)>): Option<Term> {
    if s == [] then None
    else
      var n := Collapse(UpperStr(s));
      match FindExact(n, table)
      case Some(i) => Some(Iri(PT, table[i].1))
      case None =>
        match FindContained(n, table)
        case Some(i) => Some(Iri(PT, table[i].1))
        case None => Some(Iri(PT, "ComplexTexture"))
  }

  /** Every non-empty description gets a texture class. */
  lemma TextureTotal(s: string, table: seq<(string, string)>)
    ensures TextureIn(s, table) == None <==> s == []
  {
  }

  /** An exact spelling wins over any contained one. */
  lemma TextureExact(s: string, table: seq<(string, string)>, i: nat)
    requires s != [] && i < |table| && table[i].0 == Collapse(UpperStr(s))
    requires forall j | 0 <= j < i :: table[j].0 != table[i].0
    ensures TextureIn(s, table) == Some(Iri(PT, table[i].1))
  {
    var r := FindExact(Collapse(UpperStr(s)), table);
    assert r.Some?;
  }

  /** Without an exact spelling, the first entry whose spelling occurs in the description is taken. */
  lemma TextureContained(s: string, table: seq<(string, string)>, i: nat)
    requires s != [] && i < |table|
    requires forall j | 0 <= j < |table| :: table[j].0 != Collapse(UpperStr(s))
    requires Contains(Collapse(UpperStr(s)), table[i].0)
    requires forall j | 0 <= j < i :: !Contains(Collapse(UpperStr(s)), table[j].0)
    ensures TextureIn(s, table) == Some(Iri(PT, table[i].1))
  {
    var r := FindContained(Collapse(UpperStr(s)), table);
    assert r.Some?;
  }

  /** A description matching no entry is a complex texture. */
  lemma TextureDefault(s: string, table: seq<(string, string)>)
    requires s != []
    requires forall j | 0 <= j < |table| :: !Contains(Collapse(UpperStr(s)), table[j].0)
    ensures TextureIn(s, table) == Some(Iri(PT, "ComplexTexture"))
  {
    var n := Collapse(UpperStr(s));
    assert FindExact(n, table).None? by {
      forall j | 0 <= j < |table|
        ensures table[j].0 != n
      {
        assert n <= n;
      }
    }
  }

  /** Spacing and letter case of the description do not matter. */
  lemma TextureNormalizes(s: string, t: string, table: seq<(string, string)>)
    requires s != [] && t != [] && Collapse(UpperStr(s)) == Collapse(UpperStr(t))
    ensures TextureIn(s, table) == TextureIn(t, table)
  {
  }

  // ---------------------------------------------------------------- reffield

  /**
   * `Alrosa.reffield(value)`: a leading `[n]` names the reference `ref-n`; the rest of
   * the text is the citation, absent when there is none.
   */
  function RefField(value: string): (Term, Option<string>) {
    var parts := SplitFirstWord(value);
    var cnum := if |parts| == 2 then parts[0] else Strip(value);
    var reference := if |parts| == 2 then parts[1] else "";
    var num := RStrip(LStrip(Strip(cnum), {'['}), {']'});
    var text := Strip(reference);
    (Iri(P, "ref-" + num), if text == [] then None else Some(text))
  }

  lemma LStripWsHead(s: string)
    ensures var t := LStripWs(s); t != [] ==> !IsSpace(t[0])
  {
  }

  lemma RStripWsKeepsHead(s: string)
    requires s != [] && !IsSpace(s[0])
    ensures RStripWs(s) != []
  {
  }

  /** The citation text is missing exactly when the value has fewer than two words. */
  lemma RefFieldReference(value: string)
    ensures RefField(value).1.None? <==> |SplitFirstWord(value)| < 2
    ensures RefField(value).1.Some? ==> RefField(value).1.value == Strip(SplitFirstWord(value)[1])
  {
    var parts := SplitFirstWord(value);
    if |parts| == 2 {
      var t := LStripWs(value);
      var n := RunEnd(t, 0, NotSpace);
      LStripWsHead(t[n..]);
      var rest := parts[1];
      assert rest != [] && !IsSpace(rest[0]);
      assert LStripWs(rest) == rest;
      RStripWsKeepsHead(rest);
    }
  }

  lemma SplitFirstWordPair(w: string, t: string)
    requires w != [] && Blankless(w) && t != [] && !IsSpace(t[0])
    ensures SplitFirstWord(w + " " + t) == [w, t]
  {
    var v := w + " " + t;
    assert LStripWs(v) == v;
    assert RunEnd(v, 0, NotSpace) == |w| by {
      assert forall k | 0 <= k < |w| :: v[k] == w[k];
      RunEndAt(v, 0, |w|, NotSpace);
    }
    assert v[..|w|] == w;
    assert v[|w|..] == " " + t;
    assert LStripWs(" " + t) == t by {
      assert (" " + t)[1..] == t;
    }
  }

  lemma StripInner(t: string)
    requires t != [] && !IsSpace(t[0]) && !IsSpace(t[|t| - 1])
    ensures Strip(t) == t
  {
  }

  /** `reffield("[n] text")` names the reference `ref-n` and keeps `text` as its citation. */
  lemma RefFieldNumbered(num: string, text: string)
    requires num != [] && Blankless(num) && num[0] != '[' && num[|num| - 1] != ']'
    requires text != [] && !IsSpace(text[0]) && !IsSpace(text[|text| - 1])
    ensures RefField("[" + num + "] " + text) == (Iri(P, "ref-" + num), Some(text))
  {
    var w := "[" + num + "]";
    assert "[" + num + "] " + text == w + " " + text;
    SplitFirstWordPair(w, text);
    StripNoop(w);
    assert LStrip(w, {'['}) == num + "]" by {
      assert w[1..] == num + "]";
    }
    assert RStrip(num + "]", {']'}) == num by {
      assert (num + "]")[..|num|] == num;
    }
    StripInner(text);
  }

  // ---------------------------------------------------------------- sheet selection

  /**
   * Which sheets of a workbook an importer reads: all of them, or those whose name
   * or position is listed (`_sheet_names_`).
   */
  datatype SheetFilter = AllSheets | Listed(names: seq<string>, positions: seq<nat>)

  predicate ParsesSheet(f: SheetFilter, sheet: string, sheetNo: nat) {
    f.AllSheets? || sheet in f.names || sheetNo in f.positions
  }

  /** The positions of the sheets that `parse_xl` hands to `parse_sheet`, in workbook order. */
  function SheetsToParse(f: SheetFilter, sheets: seq<string>): (r: seq<nat>)
    ensures forall k | 0 <= k < |r| :: r[k] < |sheets| && ParsesSheet(f, sheets[r[k]], r[k])
    ensures forall n | 0 <= n < |sheets| :: ParsesSheet(f, sheets[n], n) ==> n in r
    ensures forall k, l | 0 <= k < l < |r| :: r[k] < r[l]
    decreases |sheets|
  {
    if sheets == [] then []
    else
      var prev := SheetsToParse(f, sheets[..|sheets| - 1]);
      var n := |sheets| - 1;
      if ParsesSheet(f, sheets[n], n) then prev + [n] else prev
  }

  /** The identifier of a sheet: `normURI(file + "_" + sheet)` in the `P` vocabulary. */
  function SheetIri(file: string, sheet: string): Term {
    Iri(P, NormUriOf(file + "_" + sheet))
  }
}
