/**
 * Characters and the Python string operations the import scripts are built from:
 * `str.isspace`, `str.upper`/`lower`, `strip` and its one-sided forms, `replace`,
 * `split`, the `in` test for substrings, and the "squeeze every run of unwanted
 * characters into one separator" pattern shared by `normURI` and `" ".join(s.split())`.
 */
module Text {

  // ---------------------------------------------------------------- characters

  /** Python's `str.isspace()`, which is also what `str.split()`, `str.strip()` and the regex `\s` use. */
  predicate IsSpace(c: char) {
    c == ' ' || '\t' <= c <= '\r' || '\U{1C}' <= c <= '\U{1F}' || c == '\U{85}' || c == '\U{A0}'
    || c == '\U{1680}' || '\U{2000}' <= c <= '\U{200A}' || c == '\U{2028}' || c == '\U{2029}'
    || c == '\U{202F}' || c == '\U{205F}' || c == '\U{3000}'
  }

  predicate NotSpace(c: char) { !IsSpace(c) }

  /** No whitespace anywhere in `s`. */
  predicate Blankless(s: string) {
    forall i | 0 <= i < |s| :: !IsSpace(s[i])
  }

  /** The ASCII digits (what `str.isdigit` and the regex `\d` accept among the characters modelled). */
  predicate IsDigit(c: char) { '0' <= c <= '9' }

  predicate IsAsciiUpper(c: char) { 'A' <= c <= 'Z' }

  predicate IsAsciiLetter(c: char) { 'A' <= c <= 'Z' || 'a' <= c <= 'z' }

  /**
   * A letter or a number (Unicode categories L and N). The model recognises the
   * ASCII and Latin-1 letters, the Greek and Cyrillic alphabets, the digits and the
   * Latin-1 superscripts and fractions.
   */
  predicate IsAlnum(c: char) {
    IsAsciiLetter(c) || IsDigit(c)
    || c == '²' || c == '³' || c == '¹' || '¼' <= c <= '¾'
    || c == 'ª' || c == 'µ' || c == 'º' || 'À' <= c <= 'Ö' || 'Ø' <= c <= 'ö' || 'ø' <= c <= 'ÿ'
    || 'Α' <= c <= 'Ω' || 'α' <= c <= 'ω'
    || 'Ѐ' <= c <= 'ҁ' || 'Ҋ' <= c <= 'ӿ'
  }

  /** The regex class `\w`. */
  predicate IsWordChar(c: char) { IsAlnum(c) || c == '_' }

  /** `str.upper` on one character: ASCII and basic Cyrillic letters. */
  function Upper(c: char): char {
    if 'a' <= c <= 'z' || 'а' <= c <= 'я' then (c as int - 32) as char
    else if 'ѐ' <= c <= 'џ' then (c as int - 80) as char
    else c
  }

  /** `str.lower` on one character: ASCII and basic Cyrillic letters. */
  function Lower(c: char): char {
    if 'A' <= c <= 'Z' || 'А' <= c <= 'Я' then (c as int + 32) as char
    else if 'Ѐ' <= c <= 'Џ' then (c as int + 80) as char
    else c
  }

  lemma CaseFolds(c: char)
    ensures Upper(Upper(c)) == Upper(c) && Lower(Lower(c)) == Lower(c)
    ensures Upper(Lower(c)) == Upper(c) && Lower(Upper(c)) == Lower(c)
  {
  }

  function UpperStr(s: string): string {
    seq(|s|, i requires 0 <= i < |s| => Upper(s[i]))
  }

  function LowerStr(s: string): string {
    seq(|s|, i requires 0 <= i < |s| => Lower(s[i]))
  }

  // ---------------------------------------------------------------- stripping

  function LStripWs(s: string): string
    decreases |s|
  {
    if |s| > 0 && IsSpace(s[0]) then LStripWs(s[1..]) else s
  }

  function RStripWs(s: string): string
    decreases |s|
  {
    if |s| > 0 && IsSpace(s[|s| - 1]) then RStripWs(s[..|s| - 1]) else s
  }

  /** `s.strip()`. */
  function Strip(s: string): string {
    RStripWs(LStripWs(s))
  }

  /** `s.lstrip(chars)`: every leading character that is in `cs` goes. */
  function LStrip(s: string, cs: set<char>): string
    decreases |s|
  {
    if |s| > 0 && s[0] in cs then LStrip(s[1..], cs) else s
  }

  /** `s.rstrip(chars)`. */
  function RStrip(s: string, cs: set<char>): string
    decreases |s|
  {
    if |s| > 0 && s[|s| - 1] in cs then RStrip(s[..|s| - 1], cs) else s
  }

  /** `s.strip(chars)`. */
  function StripChars(s: string, cs: set<char>): string {
    RStrip(LStrip(s, cs), cs)
  }

  lemma SliceSplit(s: string, i: nat, j: nat, k: nat)
    requires i <= j <= k <= |s|
    ensures s[i..k] == s[i..j] + s[j..k]
  {
  }

  lemma PrefixOfPrefix(s: string, j: nat, l: nat)
    requires l <= j <= |s|
    ensures s[..j][..l] == s[..l]
  {
  }

  lemma SliceOfPrefix(s: string, e: nat, i: nat, j: nat)
    requires i <= j <= e <= |s|
    ensures s[..e][i..j] == s[i..j]
  {
  }

  lemma RStripWsNoop(s: string)
    requires Blankless(s)
    ensures RStripWs(s) == s
  {
  }

  lemma StripNoop(s: string)
    requires Blankless(s)
    ensures Strip(s) == s
  {
  }

  /** `strip()` leaves no whitespace at either end. */
  lemma {:induction false} StripEnds(s: string)
    ensures var t := Strip(s); |t| > 0 ==> !IsSpace(t[0]) && !IsSpace(t[|t| - 1])
  {
    LStripWsEnds(s);
    RStripWsEnds(LStripWs(s));
  }

  lemma {:induction false} LStripWsEnds(s: string)
    ensures var t := LStripWs(s); |t| > 0 ==> !IsSpace(t[0])
    decreases |s|
  {
    if |s| > 0 && IsSpace(s[0]) {
      LStripWsEnds(s[1..]);
    }
  }

  /** Taking whitespace off the right keeps a non-blank first character. */
  lemma {:induction false} RStripWsEnds(s: string)
    requires |s| > 0 ==> !IsSpace(s[0])
    ensures var t := RStripWs(s); |t| > 0 ==> !IsSpace(t[0]) && !IsSpace(t[|t| - 1])
    decreases |s|
  {
    if |s| > 0 && IsSpace(s[|s| - 1]) {
      RStripWsEnds(s[..|s| - 1]);
    }
  }

  /** Text with no whitespace at either end is its own strip. */
  lemma StripFixes(s: string)
    requires |s| > 0 ==> !IsSpace(s[0]) && !IsSpace(s[|s| - 1])
    ensures Strip(s) == s
  {
  }

  lemma StripIdempotent(s: string)
    ensures Strip(Strip(s)) == Strip(s)
  {
    StripEnds(s);
    StripFixes(Strip(s));
  }

  /** Stripping takes characters away from the ends and never brings one in. */
  lemma {:induction false} StripsKeepOut(s: string, cs: set<char>, c: char)
    requires c !in s
    ensures c !in LStrip(s, cs) && c !in RStrip(s, cs)
    ensures c !in LStripWs(s) && c !in RStripWs(s)
    decreases |s|
  {
    if s != [] {
      StripsKeepOut(s[1..], cs, c);
      StripsKeepOut(s[..|s| - 1], cs, c);
    }
  }

  // ---------------------------------------------------------------- squeezing

  /**
   * The character loop of `normURI` before its final `rstrip`: characters satisfying
   * `keep` are copied, and any other character appends one `sep` unless the output is
   * empty or already ends in `sep`.
   */
  function Squeezed(s: string, keep: char -> bool, sep: char): string
    decreases |s|
  {
    if s == [] then []
    else
      var r := Squeezed(s[..|s| - 1], keep, sep);
      var c := s[|s| - 1];
      if keep(c) then r + [c]
      else if |r| > 0 && r[|r| - 1] != sep then r + [sep]
      else r
  }

  /** `Squeezed` followed by `rstrip(sep)`. */
  function SqueezeTrim(s: string, keep: char -> bool, sep: char): string {
    RStrip(Squeezed(s, keep, sep), {sep})
  }

  /** Only kept characters and separators, no separator first, never two separators in a row. */
  ghost predicate Squeezy(r: string, keep: char -> bool, sep: char) {
    && (forall i | 0 <= i < |r| :: keep(r[i]) || r[i] == sep)
    && (|r| > 0 ==> r[0] != sep)
    && (forall i | 0 <= i < |r| - 1 :: !(r[i] == sep && r[i + 1] == sep))
  }

  /** The kept characters of `s`, in order. */
  function Filter(keep: char -> bool, s: string): string
    decreases |s|
  {
    if s == [] then []
    else Filter(keep, s[..|s| - 1]) + (if keep(s[|s| - 1]) then [s[|s| - 1]] else [])
  }

  lemma {:induction false} SqueezedIsSqueezy(s: string, keep: char -> bool, sep: char)
    requires !keep(sep)
    ensures Squeezy(Squeezed(s, keep, sep), keep, sep)
  {
    if s != [] {
      SqueezedIsSqueezy(s[..|s| - 1], keep, sep);
    }
  }

  lemma {:induction false} SqueezedFixesSqueezy(t: string, keep: char -> bool, sep: char)
    requires !keep(sep) && Squeezy(t, keep, sep)
    ensures Squeezed(t, keep, sep) == t
  {
    if t != [] {
      var p := t[..|t| - 1];
      assert Squeezy(p, keep, sep);
      SqueezedFixesSqueezy(p, keep, sep);
      assert p + [t[|t| - 1]] == t;
    }
  }

  lemma {:induction false} SqueezedKeepsOrder(s: string, keep: char -> bool, sep: char)
    requires !keep(sep)
    ensures Filter(keep, Squeezed(s, keep, sep)) == Filter(keep, s)
  {
    if s != [] {
      var p := s[..|s| - 1];
      var r := Squeezed(p, keep, sep);
      SqueezedKeepsOrder(p, keep, sep);
      var c := s[|s| - 1];
      if keep(c) {
        assert (r + [c])[..|r + [c]| - 1] == r;
      } else if |r| > 0 && r[|r| - 1] != sep {
        assert (r + [sep])[..|r + [sep]| - 1] == r;
      }
    }
  }

  /** Squeezing brings in no character but the separator. */
  lemma {:induction false} SqueezedKeepsOut(s: string, keep: char -> bool, sep: char, c: char)
    requires c !in s && c != sep
    ensures c !in Squeezed(s, keep, sep) && c !in SqueezeTrim(s, keep, sep)
    decreases |s|
  {
    if s != [] {
      assert c !in s[..|s| - 1];
      SqueezedKeepsOut(s[..|s| - 1], keep, sep, c);
    }
    StripsKeepOut(Squeezed(s, keep, sep), {sep}, c);
  }

  /** On a squeezed string `rstrip(sep)` removes at most the one trailing separator. */
  lemma RStripSqueezy(r: string, keep: char -> bool, sep: char)
    requires Squeezy(r, keep, sep)
    ensures RStrip(r, {sep}) == if |r| > 0 && r[|r| - 1] == sep then r[..|r| - 1] else r
  {
    if |r| > 0 && r[|r| - 1] == sep {
      var p := r[..|r| - 1];
      assert |p| > 0 ==> p[|p| - 1] != sep;
    }
  }

  lemma SqueezyPrefix(r: string, n: nat, keep: char -> bool, sep: char)
    requires Squeezy(r, keep, sep) && n <= |r|
    ensures Squeezy(r[..n], keep, sep)
  {
  }

  /** The shape of the result: kept characters and single separators, none at either end. */
  lemma SqueezeTrimShape(s: string, keep: char -> bool, sep: char)
    requires !keep(sep)
    ensures var r := SqueezeTrim(s, keep, sep);
      Squeezy(r, keep, sep) && (|r| > 0 ==> r[|r| - 1] != sep)
  {
    var q := Squeezed(s, keep, sep);
    SqueezedIsSqueezy(s, keep, sep);
    RStripSqueezy(q, keep, sep);
    if |q| > 0 && q[|q| - 1] == sep {
      SqueezyPrefix(q, |q| - 1, keep, sep);
    }
  }

  /** A squeezed string without a trailing separator is left alone. */
  lemma SqueezeTrimFixes(t: string, keep: char -> bool, sep: char)
    requires !keep(sep) && Squeezy(t, keep, sep) && (|t| > 0 ==> t[|t| - 1] != sep)
    ensures SqueezeTrim(t, keep, sep) == t
  {
    SqueezedFixesSqueezy(t, keep, sep);
  }

  lemma SqueezeTrimIdempotent(s: string, keep: char -> bool, sep: char)
    requires !keep(sep)
    ensures SqueezeTrim(SqueezeTrim(s, keep, sep), keep, sep) == SqueezeTrim(s, keep, sep)
  {
    SqueezeTrimShape(s, keep, sep);
    SqueezeTrimFixes(SqueezeTrim(s, keep, sep), keep, sep);
  }

  lemma SqueezeTrimKeepsOrder(s: string, keep: char -> bool, sep: char)
    requires !keep(sep)
    ensures Filter(keep, SqueezeTrim(s, keep, sep)) == Filter(keep, s)
  {
    var q := Squeezed(s, keep, sep);
    SqueezedIsSqueezy(s, keep, sep);
    SqueezedKeepsOrder(s, keep, sep);
    RStripSqueezy(q, keep, sep);
    if |q| > 0 && q[|q| - 1] == sep {
      assert q[..|q| - 1] + [sep] == q;
    }
  }

  /**
   * `" ".join(s.split())`, equally `re.sub(r"\s+", " ", s).strip()`: the words of `s`
   * separated by single spaces.
   */
  function Collapse(s: string): string {
    SqueezeTrim(s, NotSpace, ' ')
  }

  /** Collapsed text has no whitespace but single inner spaces, and collapsing is idempotent. */
  lemma CollapseShape(s: string)
    ensures var r := Collapse(s);
      && (forall i | 0 <= i < |r| :: !IsSpace(r[i]) || r[i] == ' ')
      && (|r| > 0 ==> r[0] != ' ' && r[|r| - 1] != ' ')
      && (forall i | 0 <= i < |r| - 1 :: !(r[i] == ' ' && r[i + 1] == ' '))
      && Collapse(r) == r
  {
    SqueezeTrimShape(s, NotSpace, ' ');
    SqueezeTrimIdempotent(s, NotSpace, ' ');
  }

  /** Text without whitespace is its own collapse. */
  lemma CollapseNoop(s: string)
    requires Blankless(s)
    ensures Collapse(s) == s
  {
    SqueezeTrimFixes(s, NotSpace, ' ');
  }

  // ---------------------------------------------------------------- substrings

  /** Python's `needle in hay` for strings. */
  predicate Contains(hay: string, needle: string)
    decreases |hay|
  {
    needle <= hay || (|hay| > 0 && Contains(hay[1..], needle))
  }

  lemma ContainsChar(hay: string, c: char)
    ensures Contains(hay, [c]) <==> c in hay
  {
    if |hay| > 0 {
      ContainsChar(hay[1..], c);
      assert hay == [hay[0]] + hay[1..];
    }
  }

  /** `s.replace(pat, rep)`: left to right, without overlaps. */
  function Replace(s: string, pat: string, rep: string): string
    requires pat != []
    decreases |s|
  {
    if |s| < |pat| then s
    else if pat <= s then rep + Replace(s[|pat|..], pat, rep)
    else [s[0]] + Replace(s[1..], pat, rep)
  }

  /** Replacing one character by another maps the text character by character. */
  lemma {:induction false} ReplaceCharMap(s: string, c: char, d: char)
    ensures var r := Replace(s, [c], [d]);
      |r| == |s| && forall i | 0 <= i < |s| :: r[i] == if s[i] == c then d else s[i]
    decreases |s|
  {
    if |s| >= 1 {
      ReplaceCharMap(s[1..], c, d);
    }
  }

  /** Replacing a character rep text that does not contain it removes every occurrence. */
  lemma ReplaceRemovesChar(s: string, c: char, rep: string)
    requires c !in rep
    ensures c !in Replace(s, [c], rep)
  {
    if |s| >= 1 {
      ReplaceRemovesChar(s[1..], c, rep);
    }
  }

  lemma ReplaceCharNoop(s: string, c: char, rep: string)
    requires c !in s
    ensures Replace(s, [c], rep) == s
  {
    if |s| >= 1 {
      ReplaceCharNoop(s[1..], c, rep);
      assert [s[0]] + s[1..] == s;
    }
  }

  /** A character other than the replaced one and not in the replacement is neither created nor removed. */
  lemma ReplaceCharKeeps(s: string, c: char, rep: string, x: char)
    requires x != c && x !in rep
    ensures x in Replace(s, [c], rep) <==> x in s
  {
    if |s| >= 1 {
      ReplaceCharKeeps(s[1..], c, rep, x);
      assert s == [s[0]] + s[1..];
    }
  }

  // ---------------------------------------------------------------- splitting

  /** `s.split(sep)` for a one-character separator: never an empty list. */
  function SplitOn(s: string, sep: char): (parts: seq<string>)
    ensures |parts| >= 1
    decreases |s|
  {
    if s == [] then [[]]
    else if s[0] == sep then [[]] + SplitOn(s[1..], sep)
    else
      var rest := SplitOn(s[1..], sep);
      [[s[0]] + rest[0]] + rest[1..]
  }

  /** `sep.join(parts)`. */
  function Join(parts: seq<string>, sep: char): string
    decreases |parts|
  {
    if |parts| == 0 then []
    else if |parts| == 1 then parts[0]
    else parts[0] + [sep] + Join(parts[1..], sep)
  }

  /** Splitting loses nothing: joining the pieces back gives the input, and no piece holds `sep`. */
  lemma {:induction false} SplitOnJoin(s: string, sep: char)
    ensures Join(SplitOn(s, sep), sep) == s
    ensures forall k | 0 <= k < |SplitOn(s, sep)| :: sep !in SplitOn(s, sep)[k]
  {
    if s != [] {
      SplitOnJoin(s[1..], sep);
      var rest := SplitOn(s[1..], sep);
      if s[0] == sep {
        assert SplitOn(s, sep)[1..] == rest;
      } else {
        var parts := SplitOn(s, sep);
        assert parts[1..] == rest[1..];
        if |rest| == 1 {
          assert Join(parts, sep) == [s[0]] + rest[0];
        } else {
          assert Join(parts, sep) == [s[0]] + rest[0] + [sep] + Join(rest[1..], sep);
        }
        assert s == [s[0]] + s[1..];
      }
    }
  }

  /** End of the run of characters satisfying `p` that starts at `i`. */
  function RunEnd(s: string, i: nat, p: char -> bool): (j: nat)
    requires i <= |s|
    ensures i <= j <= |s|
    ensures forall k | i <= k < j :: p(s[k])
    ensures j < |s| ==> !p(s[j])
    decreases |s| - i
  {
    if i < |s| && p(s[i]) then RunEnd(s, i + 1, p) else i
  }

  /** `RunEnd` finds the first position at or after `i` not satisfying `p`. */
  lemma {:induction false} RunEndAt(s: string, i: nat, n: nat, p: char -> bool)
    requires i <= n <= |s|
    requires forall k | i <= k < n :: p(s[k])
    requires n < |s| ==> !p(s[n])
    ensures RunEnd(s, i, p) == n
    decreases n - i
  {
    if i < n {
      RunEndAt(s, i + 1, n, p);
    }
  }

  /** `s.split(maxsplit=1)`: no word, one word, or the first word and the rest (leading blanks removed). */
  function SplitFirstWord(s: string): seq<string> {
    var t := LStripWs(s);
    if t == [] then []
    else
      var n := RunEnd(t, 0, NotSpace);
      var rest := LStripWs(t[n..]);
      if rest == [] then [t[..n]] else [t[..n], rest]
  }

  /** `re.findall(r"\d+", s)`: the maximal runs of digits, left to right. */
  function DigitRuns(s: string): (runs: seq<string>)
    ensures forall i | 0 <= i < |runs| :: |runs[i]| > 0 && AllDigits(runs[i])
    decreases |s|
  {
    if s == [] then []
    else if !IsDigit(s[0]) then DigitRuns(s[1..])
    else
      var n := RunEnd(s, 0, IsDigit);
      [s[..n]] + DigitRuns(s[n..])
  }

  // ---------------------------------------------------------------- numbers as text

  predicate AllDigits(s: string) {
    forall i | 0 <= i < |s| :: IsDigit(s[i])
  }

  function DigitChar(d: nat): char
    requires d < 10
  {
    ('0' as int + d) as char
  }

  /** The decimal digits of `n`, as `str(n)` writes them. */
  function NatText(n: nat): string
    decreases n
  {
    if n < 10 then [DigitChar(n)] else NatText(n / 10) + [DigitChar(n % 10)]
  }

  /** `str(i)` for an integer. */
  function IntText(i: int): string {
    if i < 0 then "-" + NatText(-i) else NatText(i)
  }

  /** `int(s)` for a string of ASCII digits. */
  function DigitsValue(s: string): nat
    requires AllDigits(s)
    decreases |s|
  {
    if s == [] then 0 else DigitsValue(s[..|s| - 1]) * 10 + (s[|s| - 1] as int - '0' as int)
  }

  /** Reading back the digits `str(n)` writes gives `n`. */
  lemma {:induction false} NatTextRoundTrip(n: nat)
    ensures |NatText(n)| > 0 && AllDigits(NatText(n)) && DigitsValue(NatText(n)) == n
  {
    if n >= 10 {
      NatTextRoundTrip(n / 10);
      var t := NatText(n);
      assert t[..|t| - 1] == NatText(n / 10);
    }
  }

  lemma NatTextInjective(m: nat, n: nat)
    requires NatText(m) == NatText(n)
    ensures m == n
  {
    NatTextRoundTrip(m);
    NatTextRoundTrip(n);
  }
}
