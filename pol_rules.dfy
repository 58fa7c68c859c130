/**
 * The decisions of the geochemistry sheet reader that depend on cell contents
 * alone: marker rows and states, column classes and their unit suffix, sample
 * names, measurement units, how `proc_comp` prepares a value, and the rules of the
 * Alrosa descriptive columns.
 */
module PolRules {
  import opened Options
  import opened Text
  import opened Values
  import opened Rdf
  import opened PolNames

  // ---------------------------------------------------------------- states

  /** `State`: what the rows that follow a marker row hold. */
  datatype State = NoState | Class | Header | Data | Ignore | Location | DetLim | References

  /** The member name of a state, as written after `#` in a marker row. */
  function StateName(st: State): string {
    match st
    case NoState => "NONE"
    case Class => "CLASS"
    case Header => "HEADER"
    case Data => "DATA"
    case Ignore => "IGNORE"
    case Location => "LOCATION"
    case DetLim => "DETLIM"
    case References => "REFERENCES"
  }

  /** `State[name]`: the state with exactly that member name. */
  function StateNamed(name: string): (r: Option<State>)
    ensures r.Some? ==> StateName(r.value) == name
    ensures r.None? ==> forall st: State :: StateName(st) != name
  {
    if name == "NONE" then Some(NoState)
    else if name == "CLASS" then Some(Class)
    else if name == "HEADER" then Some(Header)
    else if name == "DATA" then Some(Data)
    else if name == "IGNORE" then Some(Ignore)
    else if name == "LOCATION" then Some(Location)
    else if name == "DETLIM" then Some(DetLim)
    else if name == "REFERENCES" then Some(References)
    else None
  }

  /**
   * A first cell holding text that starts with `#` once trimmed is a marker: the
   * result is the text after the leading `#`s.
   */
  function Marker(first: Cell): (r: Option<string>)
    ensures r.Some? ==> first.Some? && first.value.TextV?
    ensures r.Some? ==> r.value == [] || r.value[0] != '#'
  {
    match first
    case Some(TextV(s)) =>
      var t := Strip(s);
      if t != [] && t[0] == '#' then
        LStripHead(t, {'#'});
        Some(LStrip(t, {'#'}))
      else None
    case _ => None
  }

  /** A marker names a state exactly when it is one of the member names, with any number of `#`s. */
  lemma MarkerState(hashes: nat, st: State)
    requires hashes >= 1
    ensures var text := seq(hashes, _ => '#') + StateName(st);
      Marker(Some(TextV(text))).Some? &&
      StateNamed(Marker(Some(TextV(text))).value) == Some(st)
  {
    var text := seq(hashes, _ => '#') + StateName(st);
    var name := StateName(st);
    assert name != [] && name[0] != '#' && !IsSpace(name[0]) && !IsSpace(name[|name| - 1]);
    assert LStripWs(text) == text;
    assert RStripWs(text) == text;
    LStripPrefix(seq(hashes, _ => '#'), name, {'#'});
  }

  /** Every leading character of the set goes, and the first one left is outside it. */
  lemma {:induction false} LStripHead(s: string, cs: set<char>)
    ensures var t := LStrip(s, cs); t == [] || t[0] !in cs
    decreases |s|
  {
    if s != [] && s[0] in cs {
      LStripHead(s[1..], cs);
    }
  }

  lemma {:induction false} LStripPrefix(p: string, t: string, cs: set<char>)
    requires forall i | 0 <= i < |p| :: p[i] in cs
    requires t == [] || t[0] !in cs
    ensures LStrip(p + t, cs) == t
    decreases |p|
  {
    if p != [] {
      assert (p + t)[1..] == p[1..] + t;
      LStripPrefix(p[1..], t, cs);
    } else {
      assert p + t == t;
    }
  }

  // ---------------------------------------------------------------- column classes

  /** `str(value).replace("мг/кг", "PPM")`: the class written over a column. */
  function ClassText(v: Value): string {
    Replace(Str(Some(v)), "мг/кг", "PPM")
  }

  /**
   * The class in force at column `i` of a class row: a non-empty cell sets it, an
   * empty cell keeps the one to its left, and the row starts with none.
   */
  function ClassAt(row: seq<Cell>, i: nat): Option<string>
    requires i < |row|
  {
    if row[i].Some? then Some(ClassText(row[i].value))
    else if i == 0 then None
    else ClassAt(row, i - 1)
  }

  /** An empty class cell takes the class of the nearest non-empty cell to its left. */
  lemma {:induction false} ClassInherits(row: seq<Cell>, j: nat, i: nat)
    requires j <= i < |row| && row[j].Some?
    requires forall k | j < k <= i :: row[k].None?
    ensures ClassAt(row, i) == Some(ClassText(row[j].value))
    decreases i
  {
    if i > j {
      ClassInherits(row, j, i - 1);
    }
  }

  /** A column has no class exactly when it and every cell to its left are empty. */
  lemma {:induction false} ClassNone(row: seq<Cell>, i: nat)
    requires i < |row|
    ensures ClassAt(row, i).None? <==> forall k | 0 <= k <= i :: row[k].None?
    decreases i
  {
    if i > 0 && row[i].None? {
      ClassNone(row, i - 1);
    }
  }

  /**
   * The unit suffix a class gives a field name: `_%` for a percentage class unless the
   * field mentions PPM, `_PPM` for a PPM class unless the field mentions `%`.
   */
  function Suffix(cls: Option<string>, field: string): (r: string)
    ensures r == "" || r == "_%" || r == "_PPM"
    ensures r == "_%" ==> cls.Some? && '%' in cls.value
    ensures r == "_PPM" ==> cls.Some? && Contains(cls.value, "PPM") && '%' !in field
  {
    var prt := cls.GetOr("");
    if '%' in prt && !Contains(field, "PPM") then "_%"
    else if Contains(prt, "PPM") && '%' !in field then "_PPM"
    else ""
  }

  /** A column classed in mg/kg gets the `_PPM` suffix, unless its field speaks of percent. */
  lemma MilligramsPerKilogram(field: string)
    requires '%' !in field
    ensures Suffix(Some(ClassText(TextV("мг/кг"))), field) == "_PPM"
  {
    var s := "мг/кг";
    assert Replace(s, "мг/кг", "PPM") == "PPM" + Replace(s[5..], "мг/кг", "PPM") by {
      assert "мг/кг" <= s;
    }
    assert ClassText(TextV(s)) == "PPM";
    assert Contains("PPM", "PPM");
  }

  // ---------------------------------------------------------------- sample names

  /**
   * The name of a sample read from its cell: text without spaces, a whole number
   * without its fraction, any other number as `str` spells it.
   */
  function SampleName(v: Value): (r: string)
    ensures v.TextV? ==> ' ' !in r
  {
    match v
    case TextV(s) => ReplaceRemovesChar(s, ' ', ""); Replace(s, " ", "")
    case NumV(d) => if IsIntegral(d) then IntText(Trunc(d)) else ShowDecimal(d)
    case IntV(i) => IntText(i)
  }

  /**
   * `Alrosa.c`'s sample name: the generic name with the control markers `^A`, `^D`,
   * `^M` dropped, `/` and `?` spelled out, and the leading `samp.`-letters and blanks cut.
   */
  function AlrosaSampleName(v: Value): string {
    var n := SampleName(v);
    var n1 := Replace(Replace(Replace(n, "^A", ""), "^D", ""), "^M", "");
    var n2 := Replace(Replace(n1, "/", "-sl-"), "?", "-q-");
    var n3 := StripChars(n2, {' '});
    LStripWs(LStrip(n3, {'s', 'a', 'm', 'p', '.'}))
  }

  /** An Alrosa sample name holds no `/` and no `?`, and never starts with a blank. */
  lemma AlrosaSampleNameSafe(v: Value)
    ensures var r := AlrosaSampleName(v);
      '/' !in r && '?' !in r && (r != [] ==> !IsSpace(r[0]))
  {
    var n := SampleName(v);
    var n1 := Replace(Replace(Replace(n, "^A", ""), "^D", ""), "^M", "");
    var a := Replace(n1, "/", "-sl-");
    ReplaceRemovesChar(n1, '/', "-sl-");
    var b := Replace(a, "?", "-q-");
    ReplaceRemovesChar(a, '?', "-q-");
    ReplaceCharKeeps(a, '?', "-q-", '/');
    var c := LStrip(b, {' '});
    StripsKeepOut(b, {' '}, '/');
    StripsKeepOut(b, {' '}, '?');
    var d := RStrip(c, {' '});
    StripsKeepOut(c, {' '}, '/');
    StripsKeepOut(c, {' '}, '?');
    var e := LStrip(d, {'s', 'a', 'm', 'p', '.'});
    StripsKeepOut(d, {'s', 'a', 'm', 'p', '.'}, '/');
    StripsKeepOut(d, {'s', 'a', 'm', 'p', '.'}, '?');
    StripsKeepOut(e, {}, '/');
    StripsKeepOut(e, {}, '?');
    LStripWsHead(e);
  }

  // ---------------------------------------------------------------- units

  const Ppm := Iri(PT, "PPM")
  const Percent := Iri(PT, "Percent")
  const IntUnit := Iri(P, "Int")
  const UnknownUnit := Iri(P, "UnknowUnit")

  /** `unit(m, rupper)`: PPM, then intensity, then percent from the field name, else unknown. */
  function UnitOf(rupper: string, fieldname: string): (u: Term)
    ensures u == Ppm <==> Contains(rupper, "PPM")
    ensures u == Percent <==> !Contains(rupper, "PPM") && !Contains(rupper, "INT") && '%' in fieldname
  {
    if Contains(rupper, "PPM") then Ppm
    else if Contains(rupper, "INT") then IntUnit
    else if '%' in fieldname then Percent
    else UnknownUnit
  }

  /** Ignition losses are in percent when the field name says so, otherwise in an unknown unit. */
  lemma IgnitionLossUnit(fieldname: string)
    ensures UnitOf(UpperStr("ППП"), fieldname) == if '%' in fieldname then Percent else UnknownUnit
  {
    var u := UpperStr("ППП");
    assert u == "ППП";
    ContainsHead(u, "PPM");
    ContainsHead(u, "INT");
  }

  /** A text that contains a non-empty needle contains the needle's first character. */
  lemma {:induction false} ContainsHead(hay: string, needle: string)
    requires needle != []
    ensures Contains(hay, needle) ==> needle[0] in hay
    decreases |hay|
  {
    if |hay| > 0 && !(needle <= hay) {
      ContainsHead(hay[1..], needle);
      assert forall c | c in hay[1..] :: c in hay;
    }
  }

  /** A measurement is a total when the rest of its column name says `TOT` or `ОБЩ`. */
  predicate IsTotal(rupper: string) {
    Contains(rupper, "TOT") || Contains(rupper, "ОБЩ")
  }

  // ---------------------------------------------------------------- proc_value

  /**
   * `proc_value`: text is trimmed, a whole float becomes an integer of the same value, and
   * anything else (an integer, a float with a fraction, `None`) comes back as it is.
   */
  function ProcValue(cell: Cell): (r: Cell)
    ensures r.None? <==> cell.None?
    ensures cell.Some? && cell.value.TextV? ==>
      r.Some? && r.value.TextV? && r.value.s == Strip(cell.value.s)
    ensures cell.Some? && cell.value.NumV? && IsIntegral(cell.value.d) ==>
      r.Some? && r.value.IntV? && r.value.i * Pow10(cell.value.d.scale) == cell.value.d.digits
    ensures cell.Some? && cell.value.NumV? && !IsIntegral(cell.value.d) ==> r == cell
    ensures cell.Some? && cell.value.IntV? ==> r == cell
  {
    match cell
    case None => None
    case Some(TextV(s)) => Some(TextV(Strip(s)))
    case Some(NumV(d)) =>
      if IsIntegral(d) then
        TruncWhole(d);
        Some(IntV(Trunc(d)))
      else cell
    case Some(IntV(_)) => cell
  }

  /** A whole number's integer part, scaled back, is the number. */
  lemma TruncWhole(d: Decimal)
    requires IsIntegral(d)
    ensures Trunc(d) * Pow10(d.scale) == d.digits
  {
    var p := Pow10(d.scale);
    var q := d.digits / p;
    assert d.digits == q * p;
    if d.digits < 0 {
      DivExact(-q, p);
      assert Abs(d.digits) == (-q) * p;
    } else {
      DivExact(q, p);
    }
  }

  /** Dividing a multiple of `p` by `p` gives the factor back. */
  lemma DivExact(k: int, p: int)
    requires p > 0
    ensures (k * p) / p == k
  {
    var a := k * p;
    var q := a / p;
    var m := a % p;
    assert a == q * p + m && 0 <= m < p;
    var r := k - q;
    assert r * p == m by {
      assert k * p - q * p == m;
      MulSub(k, q, p);
    }
    if r >= 1 {
      MulAtLeast(r, p);
    } else if r <= -1 {
      MulAtLeast(-r, p);
    }
  }

  lemma MulSub(x: int, y: int, p: int)
    ensures x * p - y * p == (x - y) * p
  {
  }

  lemma MulAtLeast(r: int, p: int)
    requires r >= 1 && p > 0
    ensures r * p >= p
  {
  }

  // ---------------------------------------------------------------- proc_comp's value

  /**
   * A value as `proc_comp` uses it: `value` for measurements (a whole number becomes
   * an integer, a detection limit `<x` becomes `x`), `ovalue` for plain columns (the
   * trimmed text or the number as read), and the detection-limit text `dl`.
   */
  datatype Prep = Prep(value: Value, ovalue: Value, dl: Option<string>)

  /**
   * `None` when the value reads `N.A.`, which `proc_comp` skips. The spelling of a
   * number holds neither `N.A.` nor `<`, so only texts are looked at for them.
   */
  function Prepare(v: Value): (r: Option<Prep>)
    ensures r.None? ==> v.TextV?
    ensures r.Some? && r.value.dl.Some? ==> r.value.value == TextV(r.value.dl.value)
    ensures r.Some? ==> r.value.ovalue == if v.TextV? then TextV(Strip(v.s)) else v
  {
    match v
    case TextV(s) =>
      var sv := Strip(s);
      var uvalue := UpperStr(sv);
      if Contains(uvalue, "N.A.") then None
      else if '<' in uvalue then
        var dl := Strip(LStrip(sv, {'<'}));
        Some(Prep(TextV(dl), TextV(sv), Some(dl)))
      else Some(Prep(TextV(sv), TextV(sv), None))
    case NumV(d) =>
      Some(Prep(if IsIntegral(d) then IntV(Trunc(d)) else v, v, None))
    case IntV(_) => Some(Prep(v, v, None))
  }

  /** A whole number is measured as an integer, while a plain column keeps the number as read. */
  lemma PrepareWhole(d: Decimal)
    requires IsIntegral(d)
    ensures Prepare(NumV(d)) == Some(Prep(IntV(Trunc(d)), NumV(d), None))
  {
  }

  /** `<` anywhere in a text marks a detection limit: the text with its leading `<`s and blanks cut. */
  lemma PrepareBelow(s: string)
    requires !Contains(UpperStr(Strip(s)), "N.A.") && '<' in s
    ensures Prepare(TextV(s)).Some?
    ensures var dl := Prepare(TextV(s)).value.dl;
      dl.Some? && dl.value == Strip(LStrip(Strip(s), {'<'}))
  {
    var sv := Strip(s);
    assert '<' in sv by {
      var k :| 0 <= k < |s| && s[k] == '<';
      StripKeepsInner(s, k);
    }
    var u := UpperStr(sv);
    var i :| 0 <= i < |sv| && sv[i] == '<';
    assert u[i] == '<';
  }

  /** A character that is not a blank survives trimming. */
  lemma StripKeepsInner(s: string, k: nat)
    requires k < |s| && !IsSpace(s[k])
    ensures s[k] in Strip(s)
  {
    LStripWsKeeps(s, k);
    var t := LStripWs(s);
    var j := k - (|s| - |t|);
    RStripWsKeeps(t, j);
    assert Strip(s)[j] == s[k];
  }

  lemma {:induction false} LStripWsKeeps(s: string, k: nat)
    requires k < |s| && !IsSpace(s[k])
    ensures |s| - |LStripWs(s)| <= k && LStripWs(s)[k - (|s| - |LStripWs(s)|)] == s[k]
    decreases |s|
  {
    if IsSpace(s[0]) {
      assert k > 0;
      LStripWsKeeps(s[1..], k - 1);
    }
  }

  lemma {:induction false} RStripWsKeeps(s: string, k: nat)
    requires k < |s| && !IsSpace(s[k])
    ensures k < |RStripWs(s)| && RStripWs(s)[k] == s[k]
    decreases |s|
  {
    if IsSpace(s[|s| - 1]) {
      assert k < |s| - 1;
      RStripWsKeeps(s[..|s| - 1], k);
    }
  }

  // ---------------------------------------------------------------- Alrosa columns

  /** The Alrosa columns with a rule of their own; any other column is a measurement. */
  const DescriptiveFields: seq<string> :=
    ["CITATION", "LOCATION", "TECTONIC_SETTING", "MINERAL", "PRIMARY_SECONDARY", "ROCK_NAME", "ROCK_TEXTURE"]

  /** The minerals a `ROCK_NAME` part may name. */
  const Minerals: seq<string> :=
    ["garnet", "spinel", "olivine", "clinopyroxene", "orthopyroxene", "ilmenite", "phlogopite", "amphibole",
     "biotite", "chromite", "kyanite", "diamond", "graphite", "corundum", "sanidine", "enstatite", "fassaite"]

  /** The parts of a `/`-separated `LOCATION`: each place's identifier and label. */
  function Places(val: string): (r: seq<(string, string)>)
    ensures |r| == |SplitOn(val, '/')|
    ensures forall k | 0 <= k < |r| :: r[k].1 == Strip(SplitOn(val, '/')[k])
    ensures forall k | 0 <= k < |r| :: r[k].0 == NormUriOf(LowerStr(r[k].1))
  {
    var parts := SplitOn(val, '/');
    seq(|parts|, k requires 0 <= k < |parts| => Place(Strip(parts[k])))
  }

  function Place(text: string): (string, string) {
    (NormUriOf(LowerStr(text)), text)
  }

  /** No place label holds the separator, and every identifier is a `normURI` name. */
  lemma PlacesShape(val: string)
    ensures forall k | 0 <= k < |Places(val)| :: '/' !in Places(val)[k].1 && UriSafe(Places(val)[k].0)
  {
    var parts := SplitOn(val, '/');
    SplitOnJoin(val, '/');
    forall k | 0 <= k < |parts|
      ensures '/' !in Strip(parts[k]) && UriSafe(NormUriOf(LowerStr(Strip(parts[k]))))
    {
      StripsKeepOut(parts[k], {}, '/');
      StripsKeepOut(LStripWs(parts[k]), {}, '/');
      NormUriShape(LowerStr(Strip(parts[k])));
    }
  }

  /** `ROCK_NAME`: its comma-separated parts, trimmed and lower-cased. */
  function RockNames(val: string): (r: seq<string>)
    ensures |r| == |SplitOn(val, ',')|
    ensures forall k | 0 <= k < |r| :: r[k] == LowerStr(Strip(SplitOn(val, ',')[k]))
  {
    var parts := SplitOn(val, ',');
    seq(|parts|, k requires 0 <= k < |parts| => LowerStr(Strip(parts[k])))
  }

  /** What a rock-name part says of the sample: a structure, a unit, a mineral, or a rock type. */
  function RockRelation(r: string): (rel: Term)
    ensures rel == Iri(PT, "mineral") <==> r in Minerals
  {
    if r == "xenolith" then Iri(PT, "geologicalStructure")
    else if r == "megacryst" then Iri(PT, "geologicUnit")
    else if r in Minerals then Iri(PT, "mineral")
    else Iri(PT, "rockType")
  }

  /** Rock-name parts hold no comma. */
  lemma RockNamesShape(val: string)
    ensures forall k | 0 <= k < |RockNames(val)| :: ',' !in RockNames(val)[k]
  {
    var parts := SplitOn(val, ',');
    SplitOnJoin(val, ',');
    forall k | 0 <= k < |parts|
      ensures ',' !in LowerStr(Strip(parts[k]))
    {
      StripsKeepOut(parts[k], {}, ',');
      StripsKeepOut(LStripWs(parts[k]), {}, ',');
    }
  }

  /** The node of a tectonic setting or mineral: the trimmed, lower-cased value as a `normURI` name. */
  function FoldedIri(val: string): Term {
    Iri(PT, NormUriOf(LowerStr(Strip(val))))
  }

  /** Values that differ only in blanks at their ends and in letter case name the same node. */
  lemma FoldedIriIgnoresCase(a: string, b: string)
    requires |Strip(a)| == |Strip(b)|
    requires forall i | 0 <= i < |Strip(a)| :: Lower(Strip(a)[i]) == Lower(Strip(b)[i])
    ensures FoldedIri(a) == FoldedIri(b)
  {
    assert LowerStr(Strip(a)) == LowerStr(Strip(b));
  }
}
