/**
 * `normalize_columns` of the workbook importer: every column label of a table becomes an
 * identifier-like name, and names are made distinct by numbered suffixes.
 */
module ImporterColumns {
  import opened Options
  import opened Text
  import opened Values

  // ---------------------------------------------------------------- the regular-expression passes

  /** The class `[^\w\d\s]`: neither a word character nor whitespace. */
  predicate Punct(c: char) { !IsWordChar(c) && !IsSpace(c) }

  predicate IsUnderscore(c: char) { c == '_' }

  /** `re.sub(cls, r, s)` for a one-character class `p`: every such character becomes `r`. */
  function SubEach(s: string, p: char -> bool, r: char): string {
    seq(|s|, i requires 0 <= i < |s| => if p(s[i]) then r else s[i])
  }

  /** `re.sub(cls + "+", r, s)`: every maximal run of characters satisfying `p` becomes one `r`. */
  function SubRuns(s: string, p: char -> bool, r: char): string
    decreases |s|
  {
    if s == [] then []
    else
      var q := SubRuns(s[..|s| - 1], p, r);
      var c := s[|s| - 1];
      if !p(c) then q + [c]
      else if |s| > 1 && p(s[|s| - 2]) then q
      else q + [r]
  }

  /** The literal replacements, in the order the source applies them, after collapsing whitespace. */
  function Replaced(s: string): string {
    var t := Collapse(Strip(s));
    Replace(Replace(Replace(Replace(t, "\n", ""), "/", "_"), "#", "num"), "ε", "eps")
  }

  /** The three `re.sub` calls: punctuation to `_`, whitespace runs to `_`, `_` runs to one `_`. */
  function Subbed(t: string): string {
    SubRuns(SubRuns(SubEach(t, Punct, '_'), IsSpace, '_'), IsUnderscore, '_')
  }

  /** The text of a label once every step up to `strip("_")` has run (empty when nothing is left). */
  function ColumnText(s: string): string {
    StripChars(Subbed(Replaced(s)), {'_'})
  }

  // ---------------------------------------------------------------- what the passes amount to

  lemma AlnumIsWord(c: char)
    requires IsAlnum(c)
    ensures !IsSpace(c) && !Punct(c) && c != '_'
  {
  }

  /** A run substitution ends in `r` exactly where its input ends in a run, and otherwise in the input's last character. */
  lemma {:induction false} SubRunsLast(a: string, p: char -> bool, r: char)
    ensures var b := SubRuns(a, p, r);
      && (|b| > 0 <==> |a| > 0)
      && (|a| > 0 ==> b[|b| - 1] == if p(a[|a| - 1]) then r else a[|a| - 1])
    decreases |a|
  {
    if |a| > 1 {
      SubRunsLast(a[..|a| - 1], p, r);
    }
  }

  lemma SubEachPrefix(t: string, p: char -> bool, r: char)
    requires |t| > 0
    ensures SubEach(t, p, r)[..|t| - 1] == SubEach(t[..|t| - 1], p, r)
  {
  }

  /** Appending one character to the label's text extends the substituted text by at most one character. */
  lemma SubbedStep(t: string)
    requires |t| > 0
    ensures var p := t[..|t| - 1]; var c := t[|t| - 1];
      Subbed(t) ==
        if IsAlnum(c) then Subbed(p) + [c]
        else if |p| > 0 && !IsAlnum(p[|p| - 1]) then Subbed(p)
        else Subbed(p) + ['_']
  {
    var p := t[..|t| - 1];
    var c := t[|t| - 1];
    var a := SubEach(t, Punct, '_');
    var a' := SubEach(p, Punct, '_');
    SubEachPrefix(t, Punct, '_');
    assert a[..|a| - 1] == a';
    var b := SubRuns(a, IsSpace, '_');
    var b' := SubRuns(a', IsSpace, '_');
    SubRunsLast(a', IsSpace, '_');
    if IsAlnum(c) {
      AlnumIsWord(c);
      assert b == b' + [c];
      assert b[..|b| - 1] == b';
    } else if |p| > 0 && IsSpace(p[|p| - 1]) && IsSpace(c) {
      assert b == b';
    } else {
      assert b == b' + ['_'];
      assert b[..|b| - 1] == b';
      if |p| > 0 && IsAlnum(p[|p| - 1]) {
        AlnumIsWord(p[|p| - 1]);
      }
    }
  }

  /** The last character `Squeezed` leaves: the input's own when it is kept, a separator or nothing otherwise. */
  lemma SqueezedLast(t: string, keep: char -> bool, sep: char)
    requires |t| > 0
    ensures var q := Squeezed(t, keep, sep); var c := t[|t| - 1];
      (keep(c) ==> |q| > 0 && q[|q| - 1] == c) && (!keep(c) ==> q == [] || q[|q| - 1] == sep)
  {
  }

  /**
   * The substitutions produce the squeezed text over letters and digits with `_` as
   * separator, preceded by one `_` when the text begins with anything else.
   */
  lemma {:induction false} SubbedSqueezes(t: string)
    ensures Subbed(t) == (if |t| > 0 && !IsAlnum(t[0]) then "_" else "") + Squeezed(t, IsAlnum, '_')
    decreases |t|
  {
    if |t| > 0 {
      var p := t[..|t| - 1];
      SubbedStep(t);
      SubbedSqueezes(p);
      if |p| > 0 {
        SqueezedLast(p, IsAlnum, '_');
        assert p[0] == t[0];
      }
    }
  }

  /**
   * The name a label yields is the label's text with every run of characters other
   * than letters and digits turned into one `_`, and none at either end.
   */
  lemma ColumnTextSqueezes(s: string)
    ensures ColumnText(s) == SqueezeTrim(Replaced(s), IsAlnum, '_')
  {
    var t := Replaced(s);
    var q := Squeezed(t, IsAlnum, '_');
    var c := Subbed(t);
    SubbedSqueezes(t);
    SqueezedIsSqueezy(t, IsAlnum, '_');
    assert LStrip(q, {'_'}) == q;
    if |t| > 0 && !IsAlnum(t[0]) {
      assert c == "_" + q;
      assert c[1..] == q;
      assert LStrip(c, {'_'}) == q;
    } else {
      assert c == q;
    }
  }

  /** Letters, digits and single inner `_`, with no `_` at either end and no `ε`. */
  predicate NameShaped(r: string) {
    && (forall i | 0 <= i < |r| :: IsAlnum(r[i]) || r[i] == '_')
    && (|r| > 0 ==> r[0] != '_' && r[|r| - 1] != '_')
    && (forall i | 0 <= i < |r| - 1 :: !(r[i] == '_' && r[i + 1] == '_'))
    && 'ε' !in r
  }

  /** The text of any label is shaped like a name (it may be empty). */
  lemma ColumnTextShape(s: string)
    ensures NameShaped(ColumnText(s))
  {
    ColumnTextSqueezes(s);
    SqueezeTrimShape(Replaced(s), IsAlnum, '_');
    var t := Replace(Replace(Replace(Collapse(Strip(s)), "\n", ""), "/", "_"), "#", "num");
    ReplaceRemovesChar(t, 'ε', "eps");
    SqueezedKeepsOut(Replaced(s), IsAlnum, '_', 'ε');
  }

  /** Text of letters, digits and `_` only is untouched by the replacements and the whitespace passes. */
  lemma ReplacedNoop(r: string)
    requires NameShaped(r)
    ensures Replaced(r) == r
  {
    assert Blankless(r) && '\n' !in r && '/' !in r && '#' !in r by {
      forall i | 0 <= i < |r| ensures !IsSpace(r[i]) && r[i] != '\n' && r[i] != '/' && r[i] != '#' {
        if IsAlnum(r[i]) {
          AlnumIsWord(r[i]);
        }
      }
    }
    StripNoop(r);
    CollapseNoop(r);
    ReplaceCharNoop(r, '\n', "");
    ReplaceCharNoop(r, '/', "_");
    ReplaceCharNoop(r, '#', "num");
    ReplaceCharNoop(r, 'ε', "eps");
  }

  /** Text already shaped like a name is its own name. */
  lemma ColumnTextFixes(r: string)
    requires NameShaped(r)
    ensures ColumnText(r) == r
  {
    ReplacedNoop(r);
    ColumnTextSqueezes(r);
    assert Squeezy(r, IsAlnum, '_');
    SqueezeTrimFixes(r, IsAlnum, '_');
  }

  /** A name is a fixed point: normalising it again changes nothing. */
  lemma ColumnTextIdempotent(s: string)
    ensures ColumnText(ColumnText(s)) == ColumnText(s)
  {
    ColumnTextShape(s);
    ColumnTextFixes(ColumnText(s));
  }

  // ---------------------------------------------------------------- names and their suffixes

  /** The fallback name of the column at 0-based position `i`. */
  function Fallback(i: nat): string {
    "val_" + NatText(i)
  }

  /** The name tried first for a label: its text, or the fallback when nothing of it is left. */
  function BaseName(heading: Value, i: nat): (b: string)
    ensures |b| > 0
  {
    var t := ColumnText(Str(Some(heading)));
    if t == "" then Fallback(i) else t
  }

  /** The `k`-th name tried for a base: the base itself, then `base_1`, `base_2`, … */
  function Candidate(base: string, k: nat): string {
    if k == 0 then base else base + "_" + NatText(k)
  }

  lemma CandidateInjective(base: string, j: nat, k: nat)
    requires Candidate(base, j) == Candidate(base, k)
    ensures j == k
  {
    if j > 0 && k > 0 {
      var x := base + "_";
      assert (x + NatText(j))[|x|..] == NatText(j);
      assert (x + NatText(k))[|x|..] == NatText(k);
      NatTextInjective(j, k);
    }
  }

  /** The first candidate from the `k`-th on that is not in `used`. */
  function FreeFrom(base: string, used: set<string>, k: nat): string
    decreases |used|
  {
    var c := Candidate(base, k);
    if c !in used then c else FreeFrom(base, used - {c}, k + 1)
  }

  /** The name chosen is the first candidate (from the `k`-th on) that is not taken. */
  lemma {:induction false} FreeFromLeast(base: string, used: set<string>, k: nat)
    ensures exists m | m >= k ::
      (FreeFrom(base, used, k) == Candidate(base, m)
       && Candidate(base, m) !in used && forall j | k <= j < m :: Candidate(base, j) in used)
    decreases |used|
  {
    var c := Candidate(base, k);
    if c in used {
      var rest := used - {c};
      FreeFromLeast(base, rest, k + 1);
      var m :| m >= k + 1 &&
        (FreeFrom(base, rest, k + 1) == Candidate(base, m)
         && Candidate(base, m) !in rest && forall j | k + 1 <= j < m :: Candidate(base, j) in rest);
      if Candidate(base, m) == c {
        CandidateInjective(base, m, k);
      }
      assert FreeFrom(base, used, k) == Candidate(base, m);
    } else {
      assert FreeFrom(base, used, k) == Candidate(base, k);
    }
  }

  function Elems(names: seq<string>): set<string> {
    set x | x in names
  }

  /**
   * The name of the column at position `i` after the names `prev`: a missing label takes
   * its fallback name at once; any other takes its base name, suffixed with the first
   * number that makes it differ from every earlier name.
   */
  function NextName(heading: Cell, i: nat, prev: seq<string>): string {
    match heading
    case None => Fallback(i)
    case Some(v) => FreeFrom(BaseName(v, i), Elems(prev), 0)
  }

  /** The column names, label by label. */
  function NormalizedNames(labels: seq<Cell>): (names: seq<string>)
    ensures |names| == |labels|
    decreases |labels|
  {
    if labels == [] then []
    else
      var n := |labels| - 1;
      var prev := NormalizedNames(labels[..n]);
      prev + [NextName(labels[n], n, prev)]
  }

  /** The names of a prefix of the labels are the prefix of the names. */
  lemma {:induction false} NormalizedNamesPrefix(labels: seq<Cell>, n: nat)
    requires n <= |labels|
    ensures NormalizedNames(labels[..n]) == NormalizedNames(labels)[..n]
    decreases |labels|
  {
    if n < |labels| {
      var m := |labels| - 1;
      NormalizedNamesPrefix(labels[..m], n);
      assert labels[..m][..n] == labels[..n];
    } else {
      assert labels[..n] == labels;
    }
  }

  /** The name of column `i` given the names before it. */
  lemma NormalizedNameStep(labels: seq<Cell>, i: nat)
    requires i < |labels|
    ensures var names := NormalizedNames(labels); names[i] == NextName(labels[i], i, names[..i])
  {
    NormalizedNamesPrefix(labels, i + 1);
    NormalizedNamesPrefix(labels, i);
    assert labels[..i + 1][..i] == labels[..i];
  }

  /**
   * A missing label is named `val_{i}`; any other label is named its base name with the
   * least suffix number not among the earlier names (no suffix when the base name itself
   * is free).
   */
  lemma NextNameLeast(heading: Cell, i: nat, prev: seq<string>)
    ensures var r := NextName(heading, i, prev);
      && (heading.None? ==> r == "val_" + NatText(i))
      && (heading.Some? ==>
            var base := BaseName(heading.value, i);
            exists m: nat ::
              (r == Candidate(base, m)
               && Candidate(base, m) !in prev && forall j | 0 <= j < m :: Candidate(base, j) in prev))
  {
    if heading.Some? {
      FreeFromLeast(BaseName(heading.value, i), Elems(prev), 0);
    }
  }

  /** Each column's name, as `NextNameLeast` describes it, relative to the names before it. */
  lemma NormalizedNameAt(labels: seq<Cell>, i: nat)
    requires i < |labels|
    ensures var names := NormalizedNames(labels);
      && (labels[i].None? ==> names[i] == "val_" + NatText(i))
      && (labels[i].Some? ==>
            var base := BaseName(labels[i].value, i);
            exists m: nat ::
              (names[i] == Candidate(base, m)
               && Candidate(base, m) !in names[..i] && forall j | 0 <= j < m :: Candidate(base, j) in names[..i]))
  {
    var names := NormalizedNames(labels);
    NormalizedNameStep(labels, i);
    NextNameLeast(labels[i], i, names[..i]);
  }

  predicate Distinct(names: seq<string>) {
    forall i, j | 0 <= i < j < |names| :: names[i] != names[j]
  }

  /** The name of a column with a label differs from every name before it. */
  lemma NormalizedNamesFresh(labels: seq<Cell>, i: nat, j: nat)
    requires i < j < |labels| && labels[j].Some?
    ensures NormalizedNames(labels)[i] != NormalizedNames(labels)[j]
  {
    var names := NormalizedNames(labels);
    NormalizedNameStep(labels, j);
    NextNameLeast(labels[j], j, names[..j]);
    assert names[..j][i] == names[i];
  }

  /** With every label present, no two columns end up with the same name. */
  lemma NormalizedNamesDistinct(labels: seq<Cell>)
    requires forall i | 0 <= i < |labels| :: labels[i].Some?
    ensures Distinct(NormalizedNames(labels))
  {
    forall i, j | 0 <= i < j < |labels| ensures NormalizedNames(labels)[i] != NormalizedNames(labels)[j] {
      NormalizedNamesFresh(labels, i, j);
    }
  }

  lemma DigitsShaped(d: string)
    requires AllDigits(d)
    ensures forall i | 0 <= i < |d| :: IsAlnum(d[i]) && d[i] != '_' && d[i] != 'ε'
  {
  }

  /** A shaped name followed by `_` and a number is still shaped. */
  lemma SuffixShaped(base: string, k: nat)
    requires |base| > 0 && NameShaped(base)
    ensures NameShaped(base + "_" + NatText(k))
  {
    var d := NatText(k);
    NatTextRoundTrip(k);
    DigitsShaped(d);
    var r := base + "_" + d;
    assert forall i | 0 <= i < |d| :: r[|base| + 1 + i] == d[i];
    assert forall i | 0 <= i < |base| :: r[i] == base[i];
  }

  lemma ShapedBlankless(r: string)
    requires NameShaped(r)
    ensures Blankless(r)
  {
    forall k | 0 <= k < |r| ensures !IsSpace(r[k]) {
      if IsAlnum(r[k]) {
        AlnumIsWord(r[k]);
      }
    }
  }

  /** Whatever the earlier names, the next one is non-empty and shaped like a name. */
  lemma NextNameShaped(heading: Cell, i: nat, prev: seq<string>)
    ensures var r := NextName(heading, i, prev); |r| > 0 && NameShaped(r) && Blankless(r)
  {
    var r := NextName(heading, i, prev);
    NextNameLeast(heading, i, prev);
    assert NameShaped("val");
    SuffixShaped("val", i);
    assert Fallback(i) == "val" + "_" + NatText(i);
    if heading.Some? {
      var base := BaseName(heading.value, i);
      ColumnTextShape(Str(heading));
      var m: nat :| r == Candidate(base, m);
      if m > 0 {
        SuffixShaped(base, m);
      }
    }
    ShapedBlankless(r);
  }

  /**
   * Every column name is non-empty and shaped like a name: letters, digits and single
   * inner `_`, with no `_` at either end, no `ε`, and so no whitespace, `/` or `#`.
   */
  lemma NormalizedNameShaped(labels: seq<Cell>, i: nat)
    requires i < |labels|
    ensures var r := NormalizedNames(labels)[i]; |r| > 0 && NameShaped(r) && Blankless(r)
  {
    var names := NormalizedNames(labels);
    NormalizedNameStep(labels, i);
    NextNameShaped(labels[i], i, names[..i]);
  }

  lemma ValOneBase()
    ensures BaseName(TextV("val_1"), 0) == "val_1" == Fallback(1)
  {
    ColumnTextFixes("val_1");
  }

  /**
   * A missing label skips the duplicate check: after a column headed `val_1`, a column
   * without a label at position 1 is named `val_1` too.
   */
  lemma MissingLabelRepeatsName()
    ensures NormalizedNames([Some(TextV("val_1")), None]) == ["val_1", "val_1"]
  {
    var labels: seq<Cell> := [Some(TextV("val_1")), None];
    ValOneBase();
    var first := labels[..1];
    assert first == [Some(TextV("val_1"))] && first[..0] == [];
    assert Elems([]) == {};
    assert NormalizedNames(first) == ["val_1"];
  }

  /** The duplicate loop: the first candidate name not yet taken. */
  method FreeName(base: string, names: seq<string>) returns (name: string)
    ensures name == FreeFrom(base, Elems(names), 0)
  {
    name := base;
    var counter := 1;
    ghost var used := Elems(names);
    ghost var rest := used;
    while name in names
      invariant counter >= 1 && name == Candidate(base, counter - 1)
      invariant FreeFrom(base, rest, counter - 1) == FreeFrom(base, used, 0)
      invariant forall j | j >= counter - 1 :: Candidate(base, j) in rest <==> Candidate(base, j) in used
      decreases |rest|
    {
      assert name in rest;
      forall j | j >= counter ensures Candidate(base, j) in rest - {name} <==> Candidate(base, j) in used {
        if Candidate(base, j) == name {
          CandidateInjective(base, j, counter - 1);
        }
      }
      rest := rest - {name};
      name := base + "_" + NatText(counter);
      counter := counter + 1;
    }
  }

  /** `normalize_columns`: the new labels, one per column, computed in the source's loop. */
  method NormalizeColumns(labels: seq<Cell>) returns (names: seq<string>)
    ensures names == NormalizedNames(labels)
  {
    names := [];
    for i := 0 to |labels|
      invariant names == NormalizedNames(labels[..i])
    {
      var name: string;
      match labels[i] {
        case None =>
          name := "val_" + NatText(i);
        case Some(v) =>
          var base := ColumnText(Str(labels[i]));
          if base == "" {
            base := "val_" + NatText(i);
          }
          name := FreeName(base, names);
      }
      assert labels[..i + 1][..i] == labels[..i];
      names := names + [name];
    }
    assert labels[..|labels|] == labels;
  }
}
