/**
 * The cell-level part of the workbook importer (`alrosa_importer.py`): the cell
 * cleaner, the case-insensitive search down one column of a worksheet, and the read
 * of a "name row + value row" pair into a feature dictionary.
 */
module ImporterCells {
  import opened Options
  import opened Text
  import opened Values
  import opened Dicts

  // ---------------------------------------------------------------- clean_value_of_cell

  /** The "no data" marker, compared after `strip().lower()`. */
  const NoData := "н.д."

  /** `str.isdigit()`: at least one character, all of them digits. */
  predicate IsDigitText(s: string) {
    |s| > 0 && AllDigits(s)
  }

  /**
   * `clean_value_of_cell`: an empty cell and numbers stay as they are. Text is stripped;
   * the no-data marker and blank text become empty, digits an integer; otherwise commas
   * become points and the text is read as a number when `float` accepts it, and is kept
   * (with its points) when it does not.
   */
  function CleanValue(c: Cell): (r: Cell)
    ensures r.None? <==> c.None? || (c.value.TextV? && LowerStr(Strip(c.value.s)) in {NoData, ""})
    ensures c.Some? && !c.value.TextV? ==> r == c
  {
    match c
    case Some(TextV(s)) => CleanText(s)
    case _ => c
  }

  function CleanText(s: string): Cell {
    var cleaned := Strip(s);
    var lc := LowerStr(cleaned);
    if lc == NoData || lc == "" then None
    else if IsDigitText(cleaned) then Some(IntV(DigitsValue(cleaned)))
    else
      var dotted := Replace(cleaned, ",", ".");
      match ParseDecimal(dotted)
      case Some(d) => Some(NumV(d))
      case None => Some(TextV(dotted))
  }

  /** Commas turned into points in a stripped text that is no digit string. */
  lemma DottedText(cleaned: string)
    requires |cleaned| > 0 && Strip(cleaned) == cleaned && !IsDigitText(cleaned)
    ensures var t := Replace(cleaned, ",", ".");
      |t| > 0 && Strip(t) == t && ',' !in t && !IsDigitText(t)
  {
    var t := Replace(cleaned, ",", ".");
    ReplaceCharMap(cleaned, ',', '.');
    ReplaceRemovesChar(cleaned, ',', ".");
    StripEnds(cleaned);
    assert !IsSpace(t[0]) && !IsSpace(t[|t| - 1]);
    StripFixes(t);
    assert AllDigits(t) ==> AllDigits(cleaned);
  }

  /**
   * Text survives cleaning only as what `float` refused: non-empty, without blanks at
   * the ends, without commas, and not a digit string.
   */
  lemma CleanedText(s: string)
    ensures var r := CleanValue(Some(TextV(s)));
      r.Some? && r.value.TextV? ==>
        var t := r.value.s;
        && |t| > 0 && Strip(t) == t && ',' !in t
        && ParseDecimal(t).None? && !IsDigitText(t)
  {
    var cleaned := Strip(s);
    var lc := LowerStr(cleaned);
    if lc != NoData && lc != "" && !IsDigitText(cleaned) {
      var t := Replace(cleaned, ",", ".");
      assert |cleaned| > 0;
      StripIdempotent(s);
      DottedText(cleaned);
    }
  }

  /**
   * Cleaning what cleaning returned changes nothing, except for text whose points spell
   * the no-data marker once its commas became points (see `CleaningMakesNoData`).
   */
  lemma CleanedStable(c: Cell)
    requires var r := CleanValue(c); r.Some? && r.value.TextV? ==> LowerStr(r.value.s) != NoData
    ensures CleanValue(CleanValue(c)) == CleanValue(c)
  {
    var r := CleanValue(c);
    if r.Some? && r.value.TextV? {
      var t := r.value.s;
      CleanedText(c.value.s);
      ReplaceCharNoop(t, ',', ".");
      assert LowerStr(t) != "";
    }
  }

  /** Unfolding helper: the branch of the cleaner that keeps text, `float` having refused it. */
  lemma CleanKeeps(s: string)
    requires Strip(s) == s && LowerStr(s) != NoData && LowerStr(s) != "" && !IsDigitText(s)
    requires ParseDecimal(Replace(s, ",", ".")).None?
    ensures CleanValue(Some(TextV(s))) == Some(TextV(Replace(s, ",", ".")))
  {
  }

  /** Unfolding helper: the branch of the cleaner that reads a number with `float`. */
  lemma CleanParses(s: string)
    requires Strip(s) == s && LowerStr(s) != NoData && LowerStr(s) != "" && !IsDigitText(s)
    requires ParseDecimal(Replace(s, ",", ".")).Some?
    ensures CleanValue(Some(TextV(s))) == Some(NumV(ParseDecimal(Replace(s, ",", ".")).value))
  {
  }

  /** Unfolding helper: the branch of the cleaner that reads a digit string with `int`. */
  lemma CleanDigits(s: string)
    requires Strip(s) == s && LowerStr(s) != NoData && LowerStr(s) != "" && IsDigitText(s)
    ensures CleanValue(Some(TextV(s))) == Some(IntV(DigitsValue(s)))
  {
  }

  /** Text whose every character is its own lower case is its own lower case. */
  lemma LowerFixed(s: string)
    requires forall i | 0 <= i < |s| :: Lower(s[i]) == s[i]
    ensures LowerStr(s) == s
  {
  }

  /** The no-data marker, however it is cased or padded, is cleaned to no value. */
  lemma NoDataCleared()
    ensures CleanValue(Some(TextV(NoData))) == None
  {
    assert Lower('н') == 'н' && Lower('д') == 'д' && Lower('.') == '.';
    assert Strip(NoData) == NoData by { StripFixes(NoData); }
    assert LowerStr(NoData) == NoData by { LowerFixed(NoData); }
  }

  /** `"н,д,"` is kept as text, its commas now points. */
  lemma CommaNoDataKept()
    ensures CleanValue(Some(TextV("н,д,"))) == Some(TextV(NoData))
  {
    var s := "н,д,";
    assert Lower('н') == 'н' && Lower('д') == 'д' && Lower(',') == ',';
    assert Strip(s) == s by { StripFixes(s); }
    assert LowerStr(s) == s by { LowerFixed(s); }
    assert !IsDigitText(s);
    CommaNoDataDotted();
    NoDataNoNumber();
    CleanKeeps(s);
  }

  lemma CommaNoDataDotted()
    ensures Replace("н,д,", ",", ".") == NoData
  {
    ReplaceCharMap("н,д,", ',', '.');
  }

  /** `float("н.д.")` fails. */
  lemma NoDataNoNumber()
    ensures ParseDecimal(NoData) == None
  {
    StripFixes(NoData);
    assert ParseUnsigned(NoData) == None;
  }

  /** `"н,д,"` is cleaned to the text `"н.д."`, which a second cleaning turns into no value. */
  lemma CleaningMakesNoData()
    ensures CleanValue(Some(TextV("н,д,"))) == Some(TextV("н.д."))
    ensures CleanValue(Some(TextV("н.д."))) == None
  {
    CommaNoDataKept();
    NoDataCleared();
  }

  /** The text `str` writes for an integer is cleaned back into that integer (a float when negative). */
  lemma CleanIntText(i: int)
    ensures CleanValue(Some(TextV(IntText(i)))) == Some(if i >= 0 then IntV(i) else NumV(Decimal(i, 0)))
  {
    var t := IntText(i);
    var body := NatText(Abs(i));
    NatTextRoundTrip(Abs(i));
    NoSpaceDigits(body);
    if i >= 0 {
      assert t == body;
      StripNoop(t);
      assert LowerStr(t)[0] == t[0];
      CleanDigits(t);
    } else {
      assert t == "-" + body;
      StripFixes(t);
      assert LowerStr(t)[0] == '-';
      assert !IsDigitText(t);
      assert ',' !in t;
      ReplaceCharNoop(t, ',', ".");
      IntTextParses(i);
      CleanParses(t);
    }
  }

  /** Blanks around the text make no difference. */
  lemma CleanIgnoresBlanks(s: string)
    ensures CleanValue(Some(TextV(s))) == CleanValue(Some(TextV(Strip(s))))
  {
    StripIdempotent(s);
  }

  // ---------------------------------------------------------------- worksheets and search_substring_on_sheet

  predicate Rectangular(rows: seq<seq<Cell>>) {
    forall i, j | 0 <= i < |rows| && 0 <= j < |rows| :: |rows[i]| == |rows[j]|
  }

  /** A worksheet read row by row: openpyxl gives every row the same columns, empty cells being `None`. */
  type Worksheet = rows: seq<seq<Cell>> | Rectangular(rows) witness []

  /** The cell in 1-based column `col`; openpyxl reads a column number 0 as "from the first column". */
  function CellAt(row: seq<Cell>, col: nat): Cell {
    var j := if col == 0 then 0 else col - 1;
    if j < |row| then row[j] else None
  }

  /** The row's cell in the column is truthy and its text contains `needle`, ignoring case. */
  predicate Hit(row: seq<Cell>, col: nat, needle: string) {
    var c := CellAt(row, col);
    Truthy(c) && Contains(LowerStr(Str(c)), LowerStr(needle))
  }

  /** The hits as (1-based row number, cell value) pairs, top to bottom. */
  function Matches(sheet: seq<seq<Cell>>, col: nat, needle: string): seq<(nat, Value)>
    decreases |sheet|
  {
    if sheet == [] then []
    else
      var n := |sheet|;
      var prev := Matches(sheet[..n - 1], col, needle);
      if Hit(sheet[n - 1], col, needle) then prev + [(n, CellAt(sheet[n - 1], col).value)] else prev
  }

  /** Exactly the hitting rows are listed, each with its cell's value, in increasing row order. */
  lemma {:induction false} MatchesExactly(sheet: seq<seq<Cell>>, col: nat, needle: string)
    ensures var ms := Matches(sheet, col, needle);
      && (forall k: nat, v: Value :: (k, v) in ms <==>
            1 <= k <= |sheet| && Hit(sheet[k - 1], col, needle) && v == CellAt(sheet[k - 1], col).value)
      && (forall i, j | 0 <= i < j < |ms| :: ms[i].0 < ms[j].0)
    decreases |sheet|
  {
    if sheet != [] {
      var n := |sheet|;
      var p := sheet[..n - 1];
      MatchesExactly(p, col, needle);
      var prev := Matches(p, col, needle);
      assert forall i | 0 <= i < |prev| :: prev[i] in prev;
      forall k: nat, v: Value
        ensures (k, v) in Matches(sheet, col, needle) <==>
            1 <= k <= n && Hit(sheet[k - 1], col, needle) && v == CellAt(sheet[k - 1], col).value
      {
        if 1 <= k < n {
          assert sheet[k - 1] == p[k - 1];
        }
      }
    }
  }

  /** `search_substring_on_sheet`. */
  method SearchSubstring(sheet: seq<seq<Cell>>, col: nat, needle: string) returns (ms: seq<(nat, Value)>)
    ensures ms == Matches(sheet, col, needle)
  {
    ms := [];
    for i := 0 to |sheet|
      invariant ms == Matches(sheet[..i], col, needle)
    {
      var cell := CellAt(sheet[i], col);
      if Truthy(cell) && Contains(LowerStr(Str(cell)), LowerStr(needle)) {
        ms := ms + [(i + 1, cell.value)];
      }
      assert sheet[..i + 1][..i] == sheet[..i];
    }
    assert sheet[..|sheet|] == sheet;
  }

  // ---------------------------------------------------------------- append_features

  /** `zip(name_row, value_row)` under `if name_row and value_row`: nothing when either row is missing or empty. */
  function Pairs(names: Option<seq<Cell>>, values: Option<seq<Cell>>): (ps: seq<(Cell, Cell)>)
    ensures names.Some? && values.Some? ==>
      |ps| == (if |names.value| < |values.value| then |names.value| else |values.value|)
    ensures |ps| > 0 ==> names.Some? && values.Some? && |ps| <= |names.value| && |ps| <= |values.value|
    ensures |ps| > 0 ==> forall i | 0 <= i < |ps| :: ps[i] == (names.value[i], values.value[i])
  {
    if names.None? || values.None? || names.value == [] || values.value == [] then []
    else
      var n := if |names.value| < |values.value| then |names.value| else |values.value|;
      seq(n, i requires 0 <= i < n => (names.value[i], values.value[i]))
  }

  /** The key of a column: the name cell's text, stripped. */
  function FeatureKey(name: Cell): string {
    Strip(Str(name))
  }

  /** A pair is stored unless its value cell is empty, cleans to nothing, or is a zero that is skipped. */
  predicate Kept(p: (Cell, Cell), skipZeros: bool) {
    p.1.Some? && CleanValue(p.1).Some? && !(skipZeros && IsNumericZero(CleanValue(p.1)))
  }

  /** What `append_features` leaves in the dictionary `d` after reading the pairs `ps`. */
  function Appended(d: Dict<Value>, ps: seq<(Cell, Cell)>, skipZeros: bool): Dict<Value>
    decreases |ps|
  {
    if ps == [] then d
    else
      var r := Appended(d, ps[..|ps| - 1], skipZeros);
      var p := ps[|ps| - 1];
      if Kept(p, skipZeros) then Put(r, FeatureKey(p.0), CleanValue(p.1).value) else r
  }

  predicate StoredAs(ps: seq<(Cell, Cell)>, i: int, k: string, skipZeros: bool)
    requires 0 <= i < |ps|
  {
    Kept(ps[i], skipZeros) && FeatureKey(ps[i].0) == k
  }

  /** The last stored pair with key `k` decides its value. */
  lemma {:induction false} AppendedLastWins(d: Dict<Value>, ps: seq<(Cell, Cell)>, skipZeros: bool, k: string, i: nat)
    requires i < |ps| && StoredAs(ps, i, k, skipZeros)
    requires forall j | i < j < |ps| :: !StoredAs(ps, j, k, skipZeros)
    ensures Get(Appended(d, ps, skipZeros), k) == Some(CleanValue(ps[i].1).value)
    decreases |ps|
  {
    var n := |ps|;
    var q := ps[..n - 1];
    var r := Appended(d, q, skipZeros);
    var p := ps[n - 1];
    if i == n - 1 {
      PutFacts(r, k, CleanValue(p.1).value);
    } else {
      assert !StoredAs(ps, n - 1, k, skipZeros);
      assert forall j | i < j < n - 1 :: StoredAs(ps, j, k, skipZeros) == StoredAs(q, j, k, skipZeros);
      AppendedLastWins(d, q, skipZeros, k, i);
      if Kept(p, skipZeros) {
        PutFacts(r, FeatureKey(p.0), CleanValue(p.1).value);
      }
    }
  }

  /** A key that no pair stores keeps its old value (or stays absent). */
  lemma {:induction false} AppendedElsewhere(d: Dict<Value>, ps: seq<(Cell, Cell)>, skipZeros: bool, k: string)
    requires forall i | 0 <= i < |ps| :: !StoredAs(ps, i, k, skipZeros)
    ensures Get(Appended(d, ps, skipZeros), k) == Get(d, k)
    decreases |ps|
  {
    if ps != [] {
      var n := |ps|;
      var q := ps[..n - 1];
      assert !StoredAs(ps, n - 1, k, skipZeros);
      assert forall j | 0 <= j < n - 1 :: StoredAs(ps, j, k, skipZeros) == StoredAs(q, j, k, skipZeros);
      AppendedElsewhere(d, q, skipZeros, k);
      var p := ps[n - 1];
      if Kept(p, skipZeros) {
        PutFacts(Appended(d, q, skipZeros), FeatureKey(p.0), CleanValue(p.1).value);
      }
    }
  }

  /** Reading pairs never lists a key twice. */
  lemma {:induction false} AppendedUnique(d: Dict<Value>, ps: seq<(Cell, Cell)>, skipZeros: bool)
    requires KeysUnique(d)
    ensures KeysUnique(Appended(d, ps, skipZeros))
    decreases |ps|
  {
    if ps != [] {
      var q := ps[..|ps| - 1];
      AppendedUnique(d, q, skipZeros);
      var p := ps[|ps| - 1];
      if Kept(p, skipZeros) {
        PutFacts(Appended(d, q, skipZeros), FeatureKey(p.0), CleanValue(p.1).value);
      }
    }
  }

  /** `append_features`. */
  method AppendFeatures(d: Dictionary<Value>, names: Option<seq<Cell>>, values: Option<seq<Cell>>, skipZeros: bool)
    modifies d
    ensures d.items == Appended(old(d.items), Pairs(names, values), skipZeros)
  {
    if names.Some? && values.Some? && names.value != [] && values.value != [] {
      ghost var ps := Pairs(names, values);
      var n := if |names.value| < |values.value| then |names.value| else |values.value|;
      for i := 0 to n
        invariant d.items == Appended(old(d.items), ps[..i], skipZeros)
      {
        var nameCell := names.value[i];
        var valueCell := values.value[i];
        assert ps[..i + 1][..i] == ps[..i] && ps[i] == (nameCell, valueCell);
        if valueCell.Some? {
          var key := Strip(Str(nameCell));
          var val := CleanValue(valueCell);
          if val.Some? && !(skipZeros && IsNumericZero(val)) {
            d.Set(key, val.value);
          }
        }
      }
      assert ps[..n] == ps;
    }
  }

  // ---------------------------------------------------------------- import_head_title_one_row_features

  /** `sheet[n]` when row `n` (1-based) exists. */
  function RowAt(sheet: seq<seq<Cell>>, n: int): Option<seq<Cell>> {
    if 1 <= n <= |sheet| then Some(sheet[n - 1]) else None
  }

  /**
   * The features under the first hit: names in the next row and values in the one after;
   * for the `special` layout names in the hit row itself and values in the next. No hit,
   * no features.
   */
  function OneRowFeatures(sheet: seq<seq<Cell>>, col: nat, needle: string, special: bool): Dict<Value> {
    var ms := Matches(sheet, col, needle);
    if ms == [] then []
    else
      var r := ms[0].0;
      var names := if special then RowAt(sheet, r) else RowAt(sheet, r + 1);
      var values := if special then RowAt(sheet, r + 1) else RowAt(sheet, r + 2);
      Appended([], Pairs(names, values), false)
  }

  /** The features are read around the topmost hitting row, and no hit gives none. */
  lemma OneRowFeaturesAtFirstHit(sheet: seq<seq<Cell>>, col: nat, needle: string, special: bool, r: nat)
    requires 1 <= r <= |sheet| && Hit(sheet[r - 1], col, needle)
    requires forall k | 0 <= k < r - 1 :: !Hit(sheet[k], col, needle)
    ensures OneRowFeatures(sheet, col, needle, special) ==
      if special then Appended([], Pairs(RowAt(sheet, r), RowAt(sheet, r + 1)), false)
      else Appended([], Pairs(RowAt(sheet, r + 1), RowAt(sheet, r + 2)), false)
  {
    MatchesExactly(sheet, col, needle);
    var ms := Matches(sheet, col, needle);
    assert (r, CellAt(sheet[r - 1], col).value) in ms;
    assert ms[0] in ms;
  }

  lemma OneRowFeaturesNoHit(sheet: seq<seq<Cell>>, col: nat, needle: string, special: bool)
    requires forall k | 0 <= k < |sheet| :: !Hit(sheet[k], col, needle)
    ensures OneRowFeatures(sheet, col, needle, special) == []
  {
    MatchesExactly(sheet, col, needle);
    var ms := Matches(sheet, col, needle);
    if ms != [] {
      assert ms[0] in ms;
    }
  }

  /** `import_head_title_one_row_features` (zeros are kept). */
  method ImportOneRowFeatures(sheet: Worksheet, col: nat, needle: string, special: bool) returns (features: Dict<Value>)
    ensures features == OneRowFeatures(sheet, col, needle, special)
  {
    var ms := SearchSubstring(sheet, col, needle);
    if ms == [] {
      return [];
    }
    var r := ms[0].0;
    var names := if special then RowAt(sheet, r) else RowAt(sheet, r + 1);
    var values := if special then RowAt(sheet, r + 1) else RowAt(sheet, r + 2);
    var d := new Dictionary<Value>();
    AppendFeatures(d, names, values, false);
    features := d.items;
  }
}
