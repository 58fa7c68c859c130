/**
 * The key and value helpers of the feature converter (`alrosa_convert_features.py`):
 * `normalize_key`, `clean_numeric` and `extract_type_number_and_mineral`.
 */
module FeatureKeys {
  import opened Options
  import opened Text
  import opened Values
  import opened Rdf

  // ---------------------------------------------------------------- normalize_key

  /**
   * `normalize_key`: whitespace runs become one space and the ends are trimmed, then
   * spaces and `-` become `_`, commas go, and trailing dots are stripped.
   */
  function NormalizeKey(key: string): string {
    var t := Replace(Replace(Replace(Collapse(key), " ", "_"), "-", "_"), ",", "");
    RStrip(t, {'.'})
  }

  lemma {:induction false} RStripEnds(s: string, cs: set<char>)
    ensures var r := RStrip(s, cs); |r| > 0 ==> r[|r| - 1] !in cs
    decreases |s|
  {
    if |s| > 0 && s[|s| - 1] in cs {
      RStripEnds(s[..|s| - 1], cs);
    }
  }

  /** Characters of a stripped string were in the string. */
  lemma RStripFrom(s: string, cs: set<char>, x: char)
    requires x in RStrip(s, cs)
    ensures x in s
  {
    if x !in s {
      StripsKeepOut(s, cs, x);
    }
  }

  /** After the spaces and hyphens become underscores, no whitespace and no `-` are left. */
  lemma UnderscoredShape(key: string)
    ensures var b := Replace(Replace(Collapse(key), " ", "_"), "-", "_");
      Blankless(b) && '-' !in b
  {
    var c := Collapse(key);
    CollapseShape(key);
    var a := Replace(c, " ", "_");
    ReplaceCharMap(c, ' ', '_');
    ReplaceCharMap(a, '-', '_');
  }

  /** Before the trailing dots go, there is no whitespace, `-` or `,`. */
  lemma ReplacedKeyShape(key: string)
    ensures var t := Replace(Replace(Replace(Collapse(key), " ", "_"), "-", "_"), ",", "");
      Blankless(t) && '-' !in t && ',' !in t
  {
    var b := Replace(Replace(Collapse(key), " ", "_"), "-", "_");
    var t := Replace(b, ",", "");
    UnderscoredShape(key);
    ReplaceRemovesChar(b, ',', "");
    ReplaceCharKeeps(b, ',', "", '-');
    forall i | 0 <= i < |t| ensures !IsSpace(t[i]) {
      ReplaceCharKeeps(b, ',', "", t[i]);
    }
  }

  /** The whitespace, `-` and `,` have gone from a normalized key, and it does not end in `.`. */
  lemma NormalizeKeyShape(key: string)
    ensures var r := NormalizeKey(key);
      Blankless(r) && '-' !in r && ',' !in r && (|r| > 0 ==> r[|r| - 1] != '.')
  {
    var t := Replace(Replace(Replace(Collapse(key), " ", "_"), "-", "_"), ",", "");
    ReplacedKeyShape(key);
    var r := RStrip(t, {'.'});
    assert r == NormalizeKey(key);
    RStripEnds(t, {'.'});
    StripsKeepOut(t, {'.'}, '-');
    StripsKeepOut(t, {'.'}, ',');
    forall i | 0 <= i < |r| ensures !IsSpace(r[i]) {
      RStripFrom(t, {'.'}, r[i]);
    }
  }

  /** A normalized key is its own normal form. */
  lemma NormalizeKeyIdempotent(key: string)
    ensures NormalizeKey(NormalizeKey(key)) == NormalizeKey(key)
  {
    var r := NormalizeKey(key);
    NormalizeKeyShape(key);
    CollapseNoop(r);
    ReplaceCharNoop(r, ' ', "_");
    ReplaceCharNoop(r, '-', "_");
    ReplaceCharNoop(r, ',', "");
  }

  // ---------------------------------------------------------------- clean_numeric

  /**
   * `clean_numeric`: falsy values (an empty cell, zero, the empty string) and the two
   * spellings of "no data" give nothing; anything else is written out, its commas made
   * points, and read as a number if it is one.
   */
  function CleanNumeric(c: Cell): (r: Option<Decimal>)
    ensures !Truthy(c) || c == Some(TextV("н.д.")) || c == Some(TextV("н.д")) ==> r.None?
    ensures r.Some? ==> Normal(r.value)
  {
    if !Truthy(c) || c == Some(TextV("н.д.")) || c == Some(TextV("н.д")) then None
    else ParseDecimal(Strip(Replace(Str(c), ",", ".")))
  }

  /** What `str` writes for a number has no comma and no whitespace. */
  lemma ShowDecimalPlain(d: Decimal)
    ensures ',' !in ShowDecimal(d) && Blankless(ShowDecimal(d))
  {
    var n := Normalize(d);
    var a := Abs(n.digits);
    var body := ShowUnsigned(a, n.scale);
    if n.scale == 0 {
      ShowWholeParses(a);
    } else {
      ShowFractionParses(a, n.scale);
    }
    assert NumeralChars(body);
    var s := ShowDecimal(d);
    assert s == (if n.digits < 0 then "-" else "") + body;
    assert forall i | 0 <= i < |s| :: IsDigit(s[i]) || s[i] == '.' || s[i] == '-';
  }

  /** A non-zero integer is its own number. */
  lemma CleanNumericInt(i: int)
    requires i != 0
    ensures CleanNumeric(Some(IntV(i))) == Some(Decimal(i, 0))
  {
    var s := IntText(i);
    NatTextRoundTrip(Abs(i));
    NoSpaceDigits(NatText(Abs(i)));
    assert ',' !in s && Blankless(s) by {
      assert forall k | 0 <= k < |s| :: IsDigit(s[k]) || s[k] == '-';
    }
    ReplaceCharNoop(s, ',', ".");
    StripNoop(s);
    IntTextParses(i);
  }

  /** A non-zero number is read back as itself (in its shortest spelling). */
  lemma CleanNumericNumber(d: Decimal)
    requires !IsZero(d)
    ensures CleanNumeric(Some(NumV(d))) == Some(Normalize(d))
  {
    var s := ShowDecimal(d);
    ShowDecimalPlain(d);
    ReplaceCharNoop(s, ',', ".");
    StripNoop(s);
    ShowDecimalRoundTrip(d);
  }

  /** Unfolding helper: text other than "no data" is read with its commas taken as decimal points. */
  lemma CleanNumericText(s: string)
    requires s != "" && s != "н.д." && s != "н.д"
    ensures CleanNumeric(Some(TextV(s))) == ParseDecimal(Strip(Replace(s, ",", ".")))
  {
  }

  /** A decimal comma is read as a point: `"<digits>,<digits>"` is the number `<digits>.<digits>`. */
  lemma CleanNumericComma(x: string, y: string)
    requires |x| > 0 && AllDigits(x) && |y| > 0 && AllDigits(y)
    ensures CleanNumeric(Some(TextV(x + "," + y))) == Some(Scaled(DigitsValue(x + y), |y|, 0))
  {
    var s := x + "," + y;
    CommaReadsAsPoint(x, y);
    assert s != "" && s != "н.д." && s != "н.д" by {
      assert s[|x|] == ',';
    }
    CleanNumericText(s);
  }

  lemma CommaReadsAsPoint(x: string, y: string)
    requires |x| > 0 && AllDigits(x) && |y| > 0 && AllDigits(y)
    ensures ParseDecimal(Strip(Replace(x + "," + y, ",", "."))) == Some(Scaled(DigitsValue(x + y), |y|, 0))
  {
    var s := x + "," + y;
    var t := x + "." + y;
    assert Replace(s, ",", ".") == t by {
      ReplaceCharMap(s, ',', '.');
    }
    assert Strip(t) == t && ParseDecimal(t) == ParseUnsigned(t) by {
      assert forall i | 0 <= i < |t| :: IsDigit(t[i]) || t[i] == '.';
      StripNoop(t);
      ParsePlain(t);
    }
    ParseUnsignedPoint(x, y);
  }

  // ---------------------------------------------------------------- extract_type_number_and_mineral

  datatype Mineral = Garnet | Chromite | Clinopyroxene | Ilmenite | Olivine

  /** The code a mineral has in the feature keys. */
  function Code(m: Mineral): string {
    match m
    case Garnet => "gar"
    case Chromite => "chr"
    case Clinopyroxene => "cpx"
    case Ilmenite => "ilm"
    case Olivine => "ol"
  }

  /** The ontology resource of a mineral. */
  function MineralIri(m: Mineral): Term {
    match m
    case Garnet => Iri(PT, "garnet")
    case Chromite => Iri(PT, "chromite")
    case Clinopyroxene => Iri(PT, "clinopyroxene")
    case Ilmenite => Iri(PT, "ilmenite")
    case Olivine => Iri(PT, "olivine")
  }

  /** The mineral map: which mineral a (lower-case) code stands for. */
  function MineralOfCode(code: string): (r: Option<Mineral>)
    ensures r.Some? <==> code in {"gar", "chr", "cpx", "ilm", "ol"}
    ensures r.Some? ==> Code(r.value) == code
  {
    if code == "gar" then Some(Garnet)
    else if code == "chr" then Some(Chromite)
    else if code == "cpx" then Some(Clinopyroxene)
    else if code == "ilm" then Some(Ilmenite)
    else if code == "ol" then Some(Olivine)
    else None
  }

  lemma CodeRoundTrip(m: Mineral)
    ensures MineralOfCode(Code(m)) == Some(m)
  {
  }

  /**
   * The tail `%\s*(\w+)` of the expression, with the `%` at `w`: the bounds of the word
   * group. The word is the longest run of word characters, and it must not be empty.
   */
  function PercentWord(s: string, w: nat): (r: Option<(nat, nat)>)
    requires w <= |s|
    ensures r.Some? ==> w < r.value.0 < r.value.1 <= |s|
  {
    if w >= |s| || s[w] != '%' then None
    else
      var x := RunEnd(s, w + 1, IsSpace);
      var e := RunEnd(s, x, IsWordChar);
      if e == x then None else Some((x, e))
  }

  /**
   * The regular expression `(\d+),?\s*%\s*(\w+)` matched at position `p`: its two groups,
   * the digits and the word. Every part is greedy and what follows each part cannot
   * start with what it consumes, so backtracking never finds another match.
   */
  function MatchAt(s: string, p: nat): Option<(string, string)> {
    if p >= |s| || !IsDigit(s[p]) then None
    else
      var d := RunEnd(s, p, IsDigit);
      var c := if d < |s| && s[d] == ',' then d + 1 else d;
      match PercentWord(s, RunEnd(s, c, IsSpace))
      case None => None
      case Some((x, e)) => Some((s[p..d], s[x..e]))
  }

  /** `re.search`: the leftmost position from `p` on where the expression matches. */
  function FirstMatch(s: string, p: nat): (r: Option<nat>)
    ensures r.Some? ==> p <= r.value < |s| && MatchAt(s, r.value).Some?
    ensures forall q | p <= q < (if r.Some? then r.value else |s|) :: MatchAt(s, q).None?
    decreases |s| - p
  {
    if p >= |s| then None
    else if MatchAt(s, p).Some? then Some(p)
    else FirstMatch(s, p + 1)
  }

  /**
   * `extract_type_number_and_mineral`: the type number and mineral of a key such as
   * `1,% gar`, taken from the leftmost match only, or nothing when there is no match or
   * its lower-cased word is not a mineral code.
   */
  function ExtractTypeNumber(key: string): Option<(nat, Mineral)> {
    match FirstMatch(key, 0)
    case None => None
    case Some(p) =>
      var g := MatchAt(key, p).value;
      var code := LowerStr(g.1);
      match MineralOfCode(code)
      case None => None
      case Some(m) =>
        assert AllDigits(g.0);
        Some((DigitsValue(g.0), m))
  }

  /**
   * The result is exactly the leftmost match's: its digits' value and the mineral its
   * lower-cased word names; with no match, or a word that is no mineral code, nothing.
   */
  lemma ExtractTypeNumberLeftmost(key: string)
    ensures var r := ExtractTypeNumber(key);
      && (r.Some? ==> exists p | 0 <= p < |key| ::
            && MatchAt(key, p).Some?
            && (forall q | 0 <= q < p :: MatchAt(key, q).None?)
            && AllDigits(MatchAt(key, p).value.0)
            && r.value.0 == DigitsValue(MatchAt(key, p).value.0)
            && Code(r.value.1) == LowerStr(MatchAt(key, p).value.1))
      && ((forall p | 0 <= p < |key| :: MatchAt(key, p).None?) ==> r.None?)
  {
    var f := FirstMatch(key, 0);
    if f.Some? {
      var p := f.value;
      var g := MatchAt(key, p).value;
      assert AllDigits(g.0);
    }
  }

  lemma WordNotSpace(c: char)
    requires IsWordChar(c)
    ensures !IsSpace(c)
  {
  }

  /** A run of characters satisfying `p` placed after `pre` ends where `rest` begins. */
  lemma RunEndOver(pre: string, run: string, rest: string, p: char -> bool)
    requires forall i | 0 <= i < |run| :: p(run[i])
    requires |rest| > 0 ==> !p(rest[0])
    ensures RunEnd(pre + run + rest, |pre|, p) == |pre| + |run|
  {
    var s := pre + run + rest;
    assert forall k | |pre| <= k < |pre| + |run| :: s[k] == run[k - |pre|];
    assert |rest| > 0 ==> s[|pre| + |run|] == rest[0];
    RunEndAt(s, |pre|, |pre| + |run|, p);
  }

  /** A run of characters satisfying `p` at the start ends where `rest` begins. */
  lemma RunEndFromStart(run: string, rest: string, p: char -> bool)
    requires forall i | 0 <= i < |run| :: p(run[i])
    requires |rest| > 0 ==> !p(rest[0])
    ensures RunEnd(run + rest, 0, p) == |run|
  {
    var s := run + rest;
    assert forall k | 0 <= k < |run| :: s[k] == run[k];
    RunEndAt(s, 0, |run|, p);
  }

  /** Where the digits of `<digits>[,]<spaces>%...` end. */
  lemma MatchAtDigits(key: string, digits: string, comma: string, sp1: string, tail: string)
    requires |digits| > 0 && AllDigits(digits) && comma in {"", ","}
    requires forall i | 0 <= i < |sp1| :: IsSpace(sp1[i])
    requires |tail| > 0 && tail[0] == '%'
    requires key == digits + comma + sp1 + tail
    ensures RunEnd(key, 0, IsDigit) == |digits| && IsDigit(key[0]) && key[0..|digits|] == digits
    ensures |digits| < |key| && key[|digits|] == ',' <==> comma == ","
  {
    var b := comma + sp1 + tail;
    assert key == digits + b;
    assert b[0] == ',' <==> comma == ",";
    assert b[0] == ',' || (|sp1| > 0 && b[0] == sp1[0]) || b[0] == '%';
    RunEndFromStart(digits, b, IsDigit);
  }

  /** Where the spaces before `%` end. */
  lemma MatchAtSpaces(key: string, pre: string, sp1: string, tail: string)
    requires forall i | 0 <= i < |sp1| :: IsSpace(sp1[i])
    requires |tail| > 0 && tail[0] == '%'
    requires key == pre + sp1 + tail
    ensures RunEnd(key, |pre|, IsSpace) == |pre| + |sp1| && key[|pre| + |sp1|] == '%'
  {
    RunEndOver(pre, sp1, tail, IsSpace);
  }

  /** Where the spaces after `%` end and where the word ends. */
  lemma MatchAtTail(key: string, head: string, sp2: string, word: string, rest: string)
    requires |word| > 0 && forall i | 0 <= i < |word| :: IsWordChar(word[i])
    requires forall i | 0 <= i < |sp2| :: IsSpace(sp2[i])
    requires |rest| > 0 ==> !IsWordChar(rest[0])
    requires key == head + sp2 + word + rest
    ensures RunEnd(key, |head|, IsSpace) == |head| + |sp2|
    ensures RunEnd(key, |head| + |sp2|, IsWordChar) == |head| + |sp2| + |word|
    ensures key[|head| + |sp2|..|head| + |sp2| + |word|] == word
  {
    WordNotSpace(word[0]);
    assert key == head + sp2 + (word + rest);
    RunEndOver(head, sp2, word + rest, IsSpace);
    assert key == (head + sp2) + word + rest;
    RunEndOver(head + sp2, word, rest, IsWordChar);
  }

  /** `MatchAt` from the ends of its four runs. */
  lemma MatchAtIs(s: string, p: nat, d: nat, c: nat, w: nat, x: nat, e: nat)
    requires p < |s| && IsDigit(s[p])
    requires d == RunEnd(s, p, IsDigit)
    requires c == if d < |s| && s[d] == ',' then d + 1 else d
    requires w == RunEnd(s, c, IsSpace) && w < |s| && s[w] == '%'
    requires x == RunEnd(s, w + 1, IsSpace) && e == RunEnd(s, x, IsWordChar) && e > x
    ensures MatchAt(s, p) == Some((s[p..d], s[x..e]))
  {
    assert PercentWord(s, w) == Some((x, e));
  }

  /** `key` is `<digits>[,]<spaces>%<spaces><word>` followed by text that does not continue the word. */
  predicate KeyParts(key: string, digits: string, comma: string, sp1: string, sp2: string, word: string, rest: string) {
    && |digits| > 0 && AllDigits(digits) && comma in {"", ","}
    && |word| > 0 && (forall i | 0 <= i < |word| :: IsWordChar(word[i]))
    && (forall i | 0 <= i < |sp1| :: IsSpace(sp1[i]))
    && (forall i | 0 <= i < |sp2| :: IsSpace(sp2[i]))
    && (|rest| > 0 ==> !IsWordChar(rest[0]))
    && key == digits + comma + sp1 + "%" + sp2 + word + rest
  }

  lemma KeyPartsHead(key: string, digits: string, comma: string, sp1: string, sp2: string, word: string, rest: string)
    requires KeyParts(key, digits, comma, sp1, sp2, word, rest)
    ensures var d := |digits|;
      && RunEnd(key, 0, IsDigit) == d && IsDigit(key[0]) && key[0..d] == digits
      && (d < |key| && key[d] == ',' <==> comma == ",")
  {
    var tail := "%" + sp2 + word + rest;
    assert key == digits + comma + sp1 + tail;
    MatchAtDigits(key, digits, comma, sp1, tail);
  }

  lemma KeyPartsPercent(key: string, digits: string, comma: string, sp1: string, sp2: string, word: string, rest: string)
    requires KeyParts(key, digits, comma, sp1, sp2, word, rest)
    ensures var c := |digits| + |comma|;
      RunEnd(key, c, IsSpace) == c + |sp1| && key[c + |sp1|] == '%'
  {
    MatchAtSpaces(key, digits + comma, sp1, "%" + sp2 + word + rest);
  }

  lemma KeyPartsTail(key: string, digits: string, comma: string, sp1: string, sp2: string, word: string, rest: string)
    requires KeyParts(key, digits, comma, sp1, sp2, word, rest)
    ensures var x := |digits| + |comma| + |sp1| + 1 + |sp2|;
      && RunEnd(key, x - |sp2|, IsSpace) == x && RunEnd(key, x, IsWordChar) == x + |word|
      && key[x..x + |word|] == word
  {
    MatchAtTail(key, digits + comma + sp1 + "%", sp2, word, rest);
  }

  /**
   * The expression matches at the start of `<digits>[,]<spaces>%<spaces><word>` followed
   * by anything that does not continue the word, with the digits and the word as groups.
   */
  lemma MatchAtParts(key: string, digits: string, comma: string, sp1: string, sp2: string, word: string, rest: string)
    requires KeyParts(key, digits, comma, sp1, sp2, word, rest)
    ensures MatchAt(key, 0) == Some((digits, word))
  {
    KeyPartsHead(key, digits, comma, sp1, sp2, word, rest);
    KeyPartsPercent(key, digits, comma, sp1, sp2, word, rest);
    KeyPartsTail(key, digits, comma, sp1, sp2, word, rest);
    var c := |digits| + |comma|;
    var x := c + |sp1| + 1 + |sp2|;
    MatchAtIs(key, 0, |digits|, c, c + |sp1|, x, x + |word|);
  }

  /** When the expression matches at the very start, that match decides the result. */
  lemma ExtractAtStart(key: string, digits: string, word: string)
    requires MatchAt(key, 0) == Some((digits, word)) && AllDigits(digits)
    ensures ExtractTypeNumber(key) ==
      match MineralOfCode(LowerStr(word))
      case None => None
      case Some(m) => Some((DigitsValue(digits), m))
  {
    assert FirstMatch(key, 0) == Some(0);
  }

  /**
   * Keys written the documented way are read back: the number, an optional comma,
   * optional spaces, `%`, optional spaces and the mineral's code in any letter case,
   * then anything that does not continue the word.
   */
  lemma ExtractTypeNumberRoundTrip(n: nat, m: Mineral, comma: string, sp1: string, sp2: string, word: string, rest: string)
    requires comma in {"", ","}
    requires forall i | 0 <= i < |sp1| :: IsSpace(sp1[i])
    requires forall i | 0 <= i < |sp2| :: IsSpace(sp2[i])
    requires |word| > 0 && (forall i | 0 <= i < |word| :: IsAsciiLetter(word[i])) && LowerStr(word) == Code(m)
    requires |rest| > 0 ==> !IsWordChar(rest[0])
    ensures ExtractTypeNumber(NatText(n) + comma + sp1 + "%" + sp2 + word + rest) == Some((n, m))
  {
    var key := NatText(n) + comma + sp1 + "%" + sp2 + word + rest;
    assert KeyParts(key, NatText(n), comma, sp1, sp2, word, rest) by {
      NatTextRoundTrip(n);
    }
    MatchAtParts(key, NatText(n), comma, sp1, sp2, word, rest);
    NatTextRoundTrip(n);
    ExtractAtStart(key, NatText(n), word);
  }

  /**
   * Only the leftmost match counts: when it names no mineral the result is nothing,
   * whatever follows it — `1%x 2%gar` gives nothing although `2%gar` alone is garnet.
   */
  lemma OnlyLeftmostMatchCounts(n: nat, comma: string, sp1: string, sp2: string, word: string, rest: string)
    requires comma in {"", ","}
    requires forall i | 0 <= i < |sp1| :: IsSpace(sp1[i])
    requires forall i | 0 <= i < |sp2| :: IsSpace(sp2[i])
    requires |word| > 0 && (forall i | 0 <= i < |word| :: IsWordChar(word[i])) && MineralOfCode(LowerStr(word)).None?
    requires |rest| > 0 ==> !IsWordChar(rest[0])
    ensures ExtractTypeNumber(NatText(n) + comma + sp1 + "%" + sp2 + word + rest) == None
  {
    var key := NatText(n) + comma + sp1 + "%" + sp2 + word + rest;
    assert KeyParts(key, NatText(n), comma, sp1, sp2, word, rest) by {
      NatTextRoundTrip(n);
    }
    MatchAtParts(key, NatText(n), comma, sp1, sp2, word, rest);
    NatTextRoundTrip(n);
    ExtractAtStart(key, NatText(n), word);
  }
}
