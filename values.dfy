/**
 * Spreadsheet cell values. A cell is empty (`None`) or holds an integer, a number
 * or a text. Python floats are modelled as finite decimals `digits * 10^-scale`;
 * `float(s)` is the decimal grammar `ParseDecimal` and `str(x)` is `Str`.
 */
module Values {
  import opened Options
  import opened Text

  function Pow10(n: nat): (p: nat)
    ensures p >= 1
  {
    if n == 0 then 1 else 10 * Pow10(n - 1)
  }

  /** The number `digits * 10^-scale`. */
  datatype Decimal = Decimal(digits: int, scale: nat)

  function Abs(i: int): nat {
    if i < 0 then -i else i
  }

  /** The shortest spelling: no trailing zero after the decimal point. */
  predicate Normal(d: Decimal) {
    d.scale == 0 || Abs(d.digits) % 10 != 0
  }

  /** Python's `x.is_integer()`. */
  predicate IsIntegral(d: Decimal) {
    d.digits % Pow10(d.scale) == 0
  }

  predicate IsZero(d: Decimal) {
    d.digits == 0
  }

  /** Drops trailing zeros of a non-negative mantissa. */
  function NormalizeNat(m: nat, scale: nat): (d: Decimal)
    ensures Normal(d) && d.digits >= 0 && d.scale <= scale
    ensures m == 0 ==> d.digits == 0
    decreases scale
  {
    if scale > 0 && m % 10 == 0 then NormalizeNat(m / 10, scale - 1) else Decimal(m, scale)
  }

  /** The same number, spelled without trailing zeros. */
  function Normalize(d: Decimal): (e: Decimal)
    ensures Normal(e)
  {
    var u := NormalizeNat(Abs(d.digits), d.scale);
    if d.digits < 0 then Decimal(-u.digits, u.scale) else u
  }

  lemma ScaleBoth(a: int, p: int, q: int, r: int)
    requires a * p == q * r
    ensures a * (10 * p) == (q * 10) * r
  {
  }

  lemma ShiftDigit(vx: int, p0: int, v0: int, last: int)
    ensures (vx * p0 + v0) * 10 + last == vx * (10 * p0) + (v0 * 10 + last)
  {
  }

  /** Dropping trailing zeros keeps the number: `m * 10^-scale == d.digits * 10^-d.scale`. */
  lemma {:induction false} NormalizeNatSameNumber(m: nat, scale: nat)
    ensures NormalizeNat(m, scale).digits * Pow10(scale) == m * Pow10(NormalizeNat(m, scale).scale)
    decreases scale
  {
    if scale > 0 && m % 10 == 0 {
      var d := NormalizeNat(m / 10, scale - 1);
      NormalizeNatSameNumber(m / 10, scale - 1);
      ScaleBoth(d.digits, Pow10(scale - 1), m / 10, Pow10(d.scale));
    }
  }

  lemma NormalizeSameNumber(d: Decimal)
    ensures Normalize(d).digits * Pow10(d.scale) == d.digits * Pow10(Normalize(d).scale)
  {
    NormalizeNatSameNumber(Abs(d.digits), d.scale);
  }

  lemma NormalizeNormal(d: Decimal)
    requires Normal(d)
    ensures Normalize(d) == d
  {
  }

  /** `int(x)`: the integer part, rounded toward zero. */
  function Trunc(d: Decimal): int {
    if d.digits >= 0 then d.digits / Pow10(d.scale) else -(Abs(d.digits) / Pow10(d.scale))
  }

  /** A cell's content. */
  datatype Value = IntV(i: int) | NumV(d: Decimal) | TextV(s: string)

  type Cell = Option<Value>

  /** Python truthiness: `None`, `0`, `0.0` and `""` are false. */
  predicate Truthy(c: Cell) {
    match c
    case None => false
    case Some(IntV(i)) => i != 0
    case Some(NumV(d)) => !IsZero(d)
    case Some(TextV(s)) => s != []
  }

  /** `isinstance(v, (int, float)) and v == 0`. */
  predicate IsNumericZero(c: Cell) {
    match c
    case Some(IntV(i)) => i == 0
    case Some(NumV(d)) => IsZero(d)
    case _ => false
  }

  // ---------------------------------------------------------------- float(s)

  /** `s` read as a decimal exponent, `""` meaning no exponent. */
  function ParseExponent(x: string): Option<int> {
    if x == [] then Some(0)
    else if x[0] != 'e' && x[0] != 'E' then None
    else
      var y := x[1..];
      var ds := if |y| > 0 && (y[0] == '-' || y[0] == '+') then y[1..] else y;
      if ds != [] && AllDigits(ds) then
        var v: int := DigitsValue(ds);
        Some(if |y| > 0 && y[0] == '-' then -v else v)
      else None
  }

  /** `m * 10^(e - scale)`, normalized. */
  function Scaled(m: nat, scale: nat, e: int): (d: Decimal)
    ensures Normal(d) && d.digits >= 0
  {
    if e >= scale then Decimal(m * Pow10(e - scale), 0) else NormalizeNat(m, scale - e)
  }

  lemma AllDigitsConcat(x: string, y: string)
    requires AllDigits(x) && AllDigits(y)
    ensures AllDigits(x + y)
  {
  }

  /** Digits with an optional fraction part (at least one digit in all) and an optional exponent. */
  function ParseUnsigned(b: string): (r: Option<Decimal>)
    ensures r.Some? ==> Normal(r.value) && r.value.digits >= 0
  {
    var i := RunEnd(b, 0, IsDigit);
    var dot := i < |b| && b[i] == '.';
    var j := if dot then RunEnd(b, i + 1, IsDigit) else i;
    var frac := if dot then b[i + 1..j] else [];
    var mant := b[..i] + frac;
    if |mant| == 0 then None
    else
      assert AllDigits(mant) by { AllDigitsConcat(b[..i], frac); }
      match ParseExponent(b[j..])
      case None => None
      case Some(e) => Some(Scaled(DigitsValue(mant), |frac|, e))
  }

  /**
   * `float(s)` on finite decimal input: surrounding whitespace, an optional sign,
   * digits with an optional point, an optional exponent. Anything else fails.
   */
  function ParseDecimal(s: string): (r: Option<Decimal>)
    ensures r.Some? ==> Normal(r.value)
  {
    var t := Strip(s);
    var signed := |t| > 0 && (t[0] == '-' || t[0] == '+');
    var body := if signed then t[1..] else t;
    match ParseUnsigned(body)
    case None => None
    case Some(u) =>
      if signed && t[0] == '-' then
        assert Abs(-u.digits) == Abs(u.digits);
        Some(Decimal(-u.digits, u.scale))
      else Some(u)
  }

  // ---------------------------------------------------------------- str(x)

  /** Left-pads with zeros to at least `n` characters. */
  function PadZeros(s: string, n: nat): (r: string)
    ensures |r| == if |s| >= n then |s| else n
    decreases n - |s|
  {
    if |s| >= n then s else PadZeros(['0'] + s, n)
  }

  /** `repr` of a float written with a point: at least one digit after it. */
  function ShowNormal(d: Decimal): string
    requires Normal(d)
  {
    var sign := if d.digits < 0 then "-" else "";
    sign + ShowUnsigned(Abs(d.digits), d.scale)
  }

  /** The digits of `a * 10^-scale`, with a point and at least one digit on each side of it. */
  function ShowUnsigned(a: nat, scale: nat): string {
    var s := PadZeros(NatText(a), scale + 1);
    if scale == 0 then s + ".0" else s[..|s| - scale] + "." + s[|s| - scale..]
  }

  function ShowDecimal(d: Decimal): string {
    ShowNormal(Normalize(d))
  }

  /** `str(v)`; an empty cell reads `"None"`. */
  function Str(c: Cell): string {
    match c
    case None => "None"
    case Some(IntV(i)) => IntText(i)
    case Some(NumV(d)) => ShowDecimal(d)
    case Some(TextV(s)) => s
  }

  // ---------------------------------------------------------------- round trips

  lemma {:induction false} DigitsValueAppend(x: string, y: string)
    requires AllDigits(x) && AllDigits(y)
    ensures AllDigits(x + y)
    ensures DigitsValue(x + y) == DigitsValue(x) * Pow10(|y|) + DigitsValue(y)
  {
    if y != [] {
      var y0 := y[..|y| - 1];
      var last := y[|y| - 1] as int - '0' as int;
      DigitsValueAppend(x, y0);
      assert (x + y)[..|x + y| - 1] == x + y0;
      ShiftDigit(DigitsValue(x), Pow10(|y0|), DigitsValue(y0), last);
    } else {
      assert x + y == x;
    }
  }

  lemma {:induction false} PadZerosValue(s: string, n: nat)
    requires AllDigits(s)
    ensures AllDigits(PadZeros(s, n)) && |PadZeros(s, n)| == if |s| >= n then |s| else n
    ensures DigitsValue(PadZeros(s, n)) == DigitsValue(s)
    decreases n - |s|
  {
    if |s| < n {
      DigitsValueAppend("0", s);
      PadZerosValue(['0'] + s, n);
    }
  }

  /** A decimal digit string followed by a point and more digits, and nothing else, reads back exactly. */
  lemma ParseUnsignedPoint(x: string, y: string)
    requires |x| > 0 && AllDigits(x) && |y| > 0 && AllDigits(y)
    ensures ParseUnsigned(x + "." + y) == Some(Scaled(DigitsValue(x + y), |y|, 0))
  {
    var b := x + "." + y;
    PointSplit(x, y);
    assert b[|b|..] == [];
    assert ParseExponent([]) == Some(0);
    AllDigitsConcat(x, y);
  }

  /** Where the scan of `ParseUnsigned` stops on `x.y`. */
  lemma PointSplit(x: string, y: string)
    requires AllDigits(x) && AllDigits(y)
    ensures var b := x + "." + y;
      RunEnd(b, 0, IsDigit) == |x| && b[|x|] == '.' && RunEnd(b, |x| + 1, IsDigit) == |b| &&
      b[..|x|] == x && b[|x| + 1..|b|] == y
  {
    var b := x + "." + y;
    assert forall k | 0 <= k < |x| :: b[k] == x[k];
    RunEndAt(b, 0, |x|, IsDigit);
    assert forall k | |x| + 1 <= k < |b| :: b[k] == y[k - |x| - 1];
    RunEndAt(b, |x| + 1, |b|, IsDigit);
  }

  lemma ParseUnsignedDigits(x: string)
    requires |x| > 0 && AllDigits(x)
    ensures ParseUnsigned(x) == Some(Decimal(DigitsValue(x), 0))
  {
    RunEndAt(x, 0, |x|, IsDigit);
    assert x[..|x|] + [] == x;
    assert x[|x|..] == [];
  }

  lemma NoSpaceDigits(s: string)
    requires AllDigits(s)
    ensures Blankless(s)
  {
  }

  /** What `ShowUnsigned` writes: digits and one point. */
  predicate NumeralChars(s: string) {
    forall i | 0 <= i < |s| :: IsDigit(s[i]) || s[i] == '.'
  }

  lemma NumeralNoSpace(s: string)
    requires NumeralChars(s)
    ensures Blankless(s)
  {
  }

  lemma ShowWholeParses(a: nat)
    ensures ParseUnsigned(ShowUnsigned(a, 0)) == Some(Decimal(a, 0))
    ensures NumeralChars(ShowUnsigned(a, 0))
  {
    NatTextRoundTrip(a);
    var s := NatText(a);
    assert PadZeros(s, 1) == s;
    assert ShowUnsigned(a, 0) == s + "." + "0";
    ParseUnsignedPoint(s, "0");
    DigitsValueAppend(s, "0");
    assert DigitsValue(s + "0") == a * 10;
    assert (a * 10) % 10 == 0 && (a * 10) / 10 == a;
    assert Scaled(a * 10, 1, 0) == Decimal(a, 0);
  }

  lemma ShowFractionParses(a: nat, k: nat)
    requires k > 0 && a % 10 != 0
    ensures ParseUnsigned(ShowUnsigned(a, k)) == Some(Decimal(a, k))
    ensures NumeralChars(ShowUnsigned(a, k))
  {
    var s := PadZeros(NatText(a), k + 1);
    assert AllDigits(s) && DigitsValue(s) == a by {
      NatTextRoundTrip(a);
      PadZerosValue(NatText(a), k + 1);
    }
    var x, y := s[..|s| - k], s[|s| - k..];
    assert ShowUnsigned(a, k) == x + "." + y;
    assert x + y == s;
    ParseUnsignedPoint(x, y);
    assert Scaled(a, k, 0) == Decimal(a, k);
  }

  lemma ShowUnsignedParses(a: nat, k: nat)
    requires k == 0 || a % 10 != 0
    ensures ParseUnsigned(ShowUnsigned(a, k)) == Some(Decimal(a, k))
    ensures Blankless(ShowUnsigned(a, k))
    ensures |ShowUnsigned(a, k)| > 0 && IsDigit(ShowUnsigned(a, k)[0])
  {
    if k == 0 {
      ShowWholeParses(a);
    } else {
      ShowFractionParses(a, k);
    }
    NumeralNoSpace(ShowUnsigned(a, k));
    NatTextRoundTrip(a);
    PadZerosValue(NatText(a), k + 1);
  }

  /** `float` of a numeral without surrounding blanks reads it as unsigned. */
  lemma ParsePlain(body: string)
    requires Blankless(body)
    requires |body| > 0 && IsDigit(body[0])
    ensures ParseDecimal(body) == ParseUnsigned(body)
  {
    StripNoop(body);
  }

  /** `float` of a minus sign and a numeral negates the numeral's value. */
  lemma ParseNegated(body: string, u: Decimal)
    requires Blankless(body)
    requires ParseUnsigned(body) == Some(u)
    ensures ParseDecimal("-" + body) == Some(Decimal(-u.digits, u.scale))
  {
    var t := "-" + body;
    StripNoop(t);
    assert t[1..] == body;
  }

  /** Reading back what `str` writes for a number gives the same number (in its shortest spelling). */
  lemma ShowDecimalRoundTrip(d: Decimal)
    ensures ParseDecimal(ShowDecimal(d)) == Some(Normalize(d))
  {
    var n := Normalize(d);
    var body := ShowUnsigned(Abs(n.digits), n.scale);
    if n.digits < 0 {
      assert ParseDecimal("-" + body) == Some(n) by {
        ShowUnsignedParses(Abs(n.digits), n.scale);
        ParseNegated(body, Decimal(Abs(n.digits), n.scale));
      }
      assert ShowDecimal(d) == "-" + body;
    } else {
      assert ParseDecimal(body) == Some(n) by {
        ShowUnsignedParses(Abs(n.digits), n.scale);
        ParsePlain(body);
      }
      assert ShowDecimal(d) == body;
    }
  }

  /** `float(str(i))` for an integer `i`. */
  lemma IntTextParses(i: int)
    ensures ParseDecimal(IntText(i)) == Some(Decimal(i, 0))
  {
    var a := Abs(i);
    var body := NatText(a);
    NatTextRoundTrip(a);
    if i < 0 {
      ParseUnsignedDigits(body);
      NoSpaceDigits(body);
      ParseNegated(body, Decimal(a, 0));
      assert IntText(i) == "-" + body;
    } else {
      DigitsParse(body);
      assert IntText(i) == body;
    }
  }

  /** `float(s)` of a digit string is the integer those digits spell. */
  lemma DigitsParse(s: string)
    requires |s| > 0 && AllDigits(s)
    ensures ParseDecimal(s) == Some(Decimal(DigitsValue(s), 0))
  {
    ParseUnsignedDigits(s);
    NoSpaceDigits(s);
    StripNoop(s);
  }
}
