/** Amounts of money: Python's `float(s)` on what the user types, rounding
    to two decimals (`round(x, 2)`, pandas' `.round(2)`), and the GUI's
    display text `f"₹{a:,.2f}"`, which the delete handler parses back after
    removing the rupee sign and the thousands separators. */
module Amounts {
  import opened Wrappers
  import opened Text

  // ---------------------------------------------------------------------
  // Parsing
  // ---------------------------------------------------------------------

  /** The value of the digits after a decimal point. */
  function FractionValue(f: string): (v: real)
    requires AllDigits(f)
    ensures 0.0 <= v <= 1.0
  {
    if f == [] then 0.0 else (DigitValue(f[0]) as real + FractionValue(f[1..])) / 10.0
  }

  /** A run of digits in a float literal: at least one digit, and an
      underscore only alone between two digits (`1_000`). */
  predicate DigitPart(s: string)
  {
    && s != [] && IsDigit(s[0])
    && (|s| == 1 || DigitPart(s[1..]) || (s[1] == '_' && DigitPart(s[2..])))
  }

  /** The digits of a digit run, its underscores dropped. */
  function RunDigits(s: string): (d: string)
    requires s == [] || DigitPart(s)
    ensures AllDigits(d)
    ensures s != [] ==> d != []
  {
    DigitPartChars(s);
    DropUnderscores(s);
    RemoveChar(s, '_')
  }

  /** A digit run holds only digits and underscores. */
  lemma {:induction false} DigitPartChars(s: string)
    requires s == [] || DigitPart(s)
    ensures forall i :: 0 <= i < |s| ==> IsDigit(s[i]) || s[i] == '_'
  {
    if |s| > 1 {
      if DigitPart(s[1..]) {
        DigitPartChars(s[1..]);
        assert forall i :: 1 <= i < |s| ==> s[i] == s[1..][i - 1];
      } else {
        DigitPartChars(s[2..]);
        assert forall i :: 2 <= i < |s| ==> s[i] == s[2..][i - 2];
      }
    }
  }

  lemma {:induction false} DropUnderscores(s: string)
    requires forall i :: 0 <= i < |s| ==> IsDigit(s[i]) || s[i] == '_'
    ensures AllDigits(RemoveChar(s, '_'))
    ensures s != [] && IsDigit(s[0]) ==> RemoveChar(s, '_') != []
  {
    if s != [] {
      DropUnderscores(s[1..]);
      var rest := RemoveChar(s[1..], '_');
      var head := if s[0] == '_' then [] else [s[0]];
      assert RemoveChar(s, '_') == head + rest;
      assert forall i :: 0 <= i < |head| ==> IsDigit(head[i]);
    }
  }

  /** `digits`, `digits.`, `.digits` or `digits.digits`: its exact value. */
  function ParseMantissa(m: string): (r: Option<real>)
    ensures r.Some? ==> r.value >= 0.0
  {
    var i := IndexOf(m, '.');
    var whole := m[..i];
    var fraction := if i < |m| then m[i + 1..] else [];
    if (whole == [] || DigitPart(whole)) && (fraction == [] || DigitPart(fraction)) && (whole != [] || fraction != []) then
      Some(DigitsValue(RunDigits(whole)) as real + FractionValue(RunDigits(fraction)))
    else None
  }

  /** The index of the first `e` or `E`, or `|t|` when there is none. */
  function ExponentAt(t: string): (i: nat)
    ensures i <= |t|
    ensures i < |t| ==> t[i] == 'e' || t[i] == 'E'
    ensures forall j :: 0 <= j < i ==> t[j] != 'e' && t[j] != 'E'
  {
    if t == [] then 0 else if t[0] == 'e' || t[0] == 'E' then 0 else 1 + ExponentAt(t[1..])
  }

  /** The exponent after `e`: an optional sign and a digit run. */
  function ParseExponent(x: string): (r: Option<int>)
  {
    var signed := x != [] && (x[0] == '+' || x[0] == '-');
    var digits := if signed then x[1..] else x;
    if DigitPart(digits) then
      var n: int := DigitsValue(RunDigits(digits));
      Some(if signed && x[0] == '-' then -n else n)
    else None
  }

  /** `v` times ten to the power `e`. */
  function Scale(v: real, e: int): real
  {
    if e >= 0 then v * Pow10(e) as real else v / Pow10(-e) as real
  }

  /** An unsigned float literal: a mantissa, then optionally `e` or `E` and
      an exponent; its exact value. */
  function ParseUnsigned(t: string): (r: Option<real>)
    ensures r.Some? ==> r.value >= 0.0
  {
    var i := ExponentAt(t);
    match ParseMantissa(t[..i])
    case None => None
    case Some(v) =>
      if i == |t| then Some(v)
      else match ParseExponent(t[i + 1..])
        case None => None
        case Some(e) => Some(Scale(v, e))
  }

  /** Python's `float(s)` for finite literals: surrounding whitespace is
      ignored, an optional sign may precede a decimal literal with an
      optional exponent and underscores between digits; `None` where Python
      raises `ValueError` and where it answers infinity or NaN. */
  function ParseFloat(s: string): (r: Option<real>)
    ensures Strip(s) == [] ==> r == None
  {
    ParseSignedLiteral(Strip(s))
  }

  /** A literal with an optional sign and no surrounding space. */
  function ParseSignedLiteral(t: string): (r: Option<real>)
    ensures t == [] ==> r == None
  {
    if t != [] && (t[0] == '-' || t[0] == '+') then
      match ParseUnsigned(t[1..])
      case Some(v) => Some(if t[0] == '-' then -v else v)
      case None => None
    else ParseUnsigned(t)
  }

  // ---------------------------------------------------------------------
  // What `float` reads
  // ---------------------------------------------------------------------

  /** A digit run alone is a mantissa whose value is its digits. */
  lemma MantissaOfRun(u: string)
    requires DigitPart(u)
    ensures ParseMantissa(u) == Some(DigitsValue(RunDigits(u)) as real)
  {
    DigitPartChars(u);
    assert IndexOf(u, '.') == |u|;
    assert u[..|u|] == u;
  }

  /** A digit run reads as the number its digits denote. */
  lemma IntegerRun(u: string)
    requires DigitPart(u)
    ensures ParseUnsigned(u) == Some(DigitsValue(RunDigits(u)) as real)
  {
    DigitPartChars(u);
    NoExponent(u);
    MantissaOfRun(u);
  }

  /** `float("123")` is 123. */
  lemma ParseFloatInteger(d: string)
    requires AllDigits(d) && d != []
    ensures ParseFloat(d) == Some(DigitsValue(d) as real)
  {
    PlainRun(d);
    IntegerRun(d);
    ParseFloatUnsigned(d);
  }

  /** `float("12.50")`: the digits before the point plus the fraction
      after it. */
  lemma ParseFloatDecimal(d: string, p: string)
    requires AllDigits(d) && d != [] && AllDigits(p)
    ensures ParseFloat(d + "." + p) == Some(DigitsValue(d) as real + FractionValue(p))
  {
    var u := d + "." + p;
    DecimalLiteral(d, p);
    PointLiteralEnds(d, p, u);
    ParseFloatUnsigned(u);
  }

  lemma PointLiteralEnds(d: string, p: string, u: string)
    requires AllDigits(d) && d != [] && AllDigits(p) && u == d + "." + p
    ensures u != [] && IsDigit(u[0]) && !IsSpace(u[|u| - 1])
  {
    assert u[0] == d[0];
    assert u[|u| - 1] == '.' || u[|u| - 1] == p[|p| - 1];
  }

  /** `float("1_000") == float("1000")`: an underscore between two digits
      is ignored. */
  lemma ParseFloatUnderscore(a: string, b: string)
    requires AllDigits(a) && a != [] && AllDigits(b) && b != []
    ensures ParseFloat(a + "_" + b) == ParseFloat(a + b) == Some(DigitsValue(a + b) as real)
  {
    var u := a + "_" + b;
    DigitsValueAppend(a, b);
    UnderscoreRun(a, b);
    IntegerRun(u);
    assert u[0] == a[0] && u[|u| - 1] == b[|b| - 1];
    ParseFloatUnsigned(u);
    ParseFloatInteger(a + b);
  }

  lemma {:induction false} UnderscoreRun(a: string, b: string)
    requires AllDigits(a) && a != [] && AllDigits(b) && b != []
    ensures DigitPart(a + "_" + b) && RunDigits(a + "_" + b) == a + b
  {
    var u := a + "_" + b;
    if |a| == 1 {
      assert u[1] == '_' && u[2..] == b;
      PlainRun(b);
    } else {
      UnderscoreRun(a[1..], b);
      assert u[1..] == a[1..] + "_" + b;
    }
    DigitPartChars(u);
    RemoveCharAppend(a + "_", b, '_');
    RemoveCharAppend(a, "_", '_');
    RemoveCharAbsent(a, '_');
    RemoveCharAbsent(b, '_');
    assert RemoveChar("_", '_') == [];
    assert a + [] == a;
  }

  /** `float("15e2")` and `float("15e-2")`: the digits scaled by ten to the
      power of the exponent. */
  lemma ParseFloatScientific(d: string, negative: bool, x: string, u: string)
    requires AllDigits(d) && d != [] && AllDigits(x) && x != []
    requires u == d + "e" + (if negative then "-" else "") + x
    ensures ParseFloat(u) == Some(Scale(DigitsValue(d) as real, if negative then -(DigitsValue(x) as int) else DigitsValue(x)))
  {
    var sx := (if negative then "-" else "") + x;
    var e: int := if negative then -(DigitsValue(x) as int) else DigitsValue(x);
    ExponentOf(negative, x, sx, e);
    Regroup3(d + "e", if negative then "-" else "", x, u);
    ExponentSplit(d, sx, u);
    PlainRun(d);
    MantissaOfRun(d);
    ScientificValue(u, d, sx, DigitsValue(d) as real, e);
    ScientificEnds(d, x, sx, u);
    ParseFloatUnsigned(u);
  }

  lemma Regroup3(a: string, b: string, c: string, u: string)
    requires u == a + b + c
    ensures u == a + (b + c)
  {
  }

  /** The first `e` after a run of digits is the one that ends the run. */
  lemma ExponentSplit(d: string, sx: string, u: string)
    requires AllDigits(d) && u == d + "e" + sx
    ensures ExponentAt(u) == |d| && u[..|d|] == d && u[|d| + 1..] == sx
  {
    assert forall j :: 0 <= j < |d| ==> u[j] == d[j];
    assert u[|d|] == 'e';
  }

  lemma ScientificValue(u: string, d: string, sx: string, v: real, e: int)
    requires ExponentAt(u) == |d| < |u| && u[..|d|] == d && u[|d| + 1..] == sx
    requires ParseMantissa(d) == Some(v) && ParseExponent(sx) == Some(e)
    ensures ParseUnsigned(u) == Some(Scale(v, e))
  {
  }

  lemma ScientificEnds(d: string, x: string, sx: string, u: string)
    requires d != [] && AllDigits(x) && x != [] && u == d + "e" + sx
    requires sx == "-" + x || sx == x
    ensures u != [] && IsDigit(u[0]) == IsDigit(d[0]) && !IsSpace(u[|u| - 1])
  {
    assert u[0] == d[0] && u[|u| - 1] == x[|x| - 1];
  }

  lemma ExponentOf(negative: bool, x: string, sx: string, e: int)
    requires AllDigits(x) && x != [] && sx == (if negative then "-" else "") + x
    requires e == if negative then -(DigitsValue(x) as int) else DigitsValue(x)
    ensures ParseExponent(sx) == Some(e)
  {
    PlainRun(x);
    var digits := if negative then sx[1..] else sx;
    assert digits == x;
    assert (sx != [] && (sx[0] == '+' || sx[0] == '-')) == negative;
    ExponentDigits(sx, digits, e);
  }

  lemma ExponentDigits(sx: string, digits: string, e: int)
    requires digits == if sx != [] && (sx[0] == '+' || sx[0] == '-') then sx[1..] else sx
    requires AllDigits(digits) && DigitPart(digits) && RunDigits(digits) == digits
    requires e == if sx != [] && sx[0] == '-' then -(DigitsValue(digits) as int) else DigitsValue(digits)
    ensures ParseExponent(sx) == Some(e)
  {
  }

  /** `float` ignores surrounding whitespace, so stripping first changes
      nothing. */
  lemma ParseFloatStrip(s: string)
    ensures ParseFloat(Strip(s)) == ParseFloat(s)
  {
    StripIdempotent(s);
  }

  // ---------------------------------------------------------------------
  // Rounding to cents
  // ---------------------------------------------------------------------

  /** The whole cents nearest to a non-negative amount, a half cent going to
      the even neighbour. */
  function CentsOfMagnitude(x: real): (c: int)
    requires x >= 0.0
    ensures c >= 0
    ensures x * 100.0 - 0.5 <= c as real <= x * 100.0 + 0.5
  {
    var y := x * 100.0;
    var f := y.Floor;
    var frac := y - f as real;
    if frac < 0.5 then f
    else if frac > 0.5 then f + 1
    else if f % 2 == 0 then f
    else f + 1
  }

  /** The whole cents nearest to an amount, rounding half to even and
      symmetric in the sign, as Python's `round` and the `.2f` format do. */
  function Cents(x: real): (c: int)
    ensures x * 100.0 - 0.5 <= c as real <= x * 100.0 + 0.5
  {
    if x < 0.0 then -CentsOfMagnitude(-x) else CentsOfMagnitude(x)
  }

  /** `round(x, 2)`: a whole number of cents, within half a cent of `x`. */
  function Round2(x: real): (r: real)
    ensures -0.005 <= r - x <= 0.005
    ensures (r * 100.0).Floor as real == r * 100.0
  {
    Cents(x) as real / 100.0
  }

  /** A whole number of cents rounds to itself. */
  lemma CentsOfWhole(k: int)
    ensures Cents(k as real / 100.0) == k
  {
    var x := k as real / 100.0;
    if k < 0 {
      assert -x == (-k) as real / 100.0;
      assert (-x) * 100.0 == (-k) as real;
    } else {
      assert x * 100.0 == k as real;
    }
  }

  /** Rounding a rounded amount changes nothing. */
  lemma Round2Idempotent(x: real)
    ensures Round2(Round2(x)) == Round2(x)
  {
    CentsOfWhole(Cents(x));
  }

  // ---------------------------------------------------------------------
  // Display text
  // ---------------------------------------------------------------------

  /** `s` with every `c` removed: Python's `s.replace(c, '')`. */
  function RemoveChar(s: string, c: char): (r: string)
    ensures |r| <= |s|
  {
    if s == [] then [] else (if s[0] == c then [] else [s[0]]) + RemoveChar(s[1..], c)
  }

  lemma {:induction false} RemoveCharAppend(a: string, b: string, c: char)
    ensures RemoveChar(a + b, c) == RemoveChar(a, c) + RemoveChar(b, c)
  {
    if a == [] {
      assert a + b == b;
    } else {
      assert (a + b)[0] == a[0] && (a + b)[1..] == a[1..] + b;
      RemoveCharAppend(a[1..], b, c);
    }
  }

  lemma {:induction false} RemoveCharAbsent(s: string, c: char)
    requires forall i :: 0 <= i < |s| ==> s[i] != c
    ensures RemoveChar(s, c) == s
  {
    if s != [] {
      RemoveCharAbsent(s[1..], c);
    }
  }

  /** Python's `format(n, ',')` for a natural number: its digits, grouped in
      threes from the right by commas. */
  function Grouped(n: nat): (r: string)
    ensures r != []
    ensures forall i :: 0 <= i < |r| ==> IsDigit(r[i]) || r[i] == ','
  {
    if n < 1000 then NatToDigits(n)
    else Grouped(n / 1000) + "," + PadDigits(n % 1000, 3)
  }

  /** Dropping the separators from a grouped number leaves its digits. */
  lemma {:induction false} GroupedDigits(n: nat)
    ensures AllDigits(RemoveChar(Grouped(n), ','))
    ensures RemoveChar(Grouped(n), ',') != []
    ensures DigitsValue(RemoveChar(Grouped(n), ',')) == n
  {
    if n < 1000 {
      RemoveCharAbsent(Grouped(n), ',');
    } else {
      var head, tail := Grouped(n / 1000), PadDigits(n % 1000, 3);
      assert Grouped(n) == (head + ",") + tail;
      GroupedDigits(n / 1000);
      var d := RemoveChar(head, ',');
      assert RemoveChar(Grouped(n), ',') == d + tail by {
        RemoveCharAppend(head + ",", tail, ',');
        RemoveCharAppend(head, ",", ',');
        RemoveCharAbsent(tail, ',');
        assert RemoveChar(",", ',') == [];
        assert d + [] == d;
      }
      assert Pow10(3) == 1000;
      assert DigitsValue(tail) == n % 1000;
      DigitsValueAppend(d, tail);
      assert DigitsValue(d + tail) == (n / 1000) * 1000 + n % 1000;
    }
  }

  /** The text `f"₹{x:,.2f}"` for an amount whose magnitude is `m` cents:
      the rupee sign, a minus sign for a negative amount, the grouped whole
      rupees, a point and two digits of paise. */
  function CentsText(negative: bool, m: nat): (s: string)
    ensures |s| >= 5 && s[0] == '\U{20B9}'
  {
    ['\U{20B9}'] + (if negative then "-" else "") + Grouped(m / 100) + "." + PadDigits(m % 100, 2)
  }

  /** The amount column of the GUI's table, `f"₹{a:,.2f}"`. */
  function DisplayAmount(a: real): (s: string)
    ensures |s| >= 5 && s[0] == '\U{20B9}'
  {
    CentsText(a < 0.0, CentsOfMagnitude(if a < 0.0 then -a else a))
  }

  /** What the delete handler of the GUI does to a displayed amount:
      `float(text.replace('₹', '').replace(',', ''))`. */
  function ParseDisplayed(text: string): Option<real>
  {
    ParseFloat(RemoveChar(RemoveChar(text, '\U{20B9}'), ','))
  }

  /** The sign and the digits that a display text leaves once the rupee
      sign and the separators are removed. */
  lemma {:induction false} WithoutSymbols(sign: string, g: string, p: string)
    requires sign == "" || sign == "-"
    requires AllDigits(p)
    requires forall i :: 0 <= i < |g| ==> g[i] != '\U{20B9}'
    ensures RemoveChar(RemoveChar(['\U{20B9}'] + sign + g + "." + p, '\U{20B9}'), ',')
         == sign + (RemoveChar(g, ',') + "." + p)
  {
    var tail := "." + p;
    var body := sign + (g + tail);
    DropRupee(sign, g, p, body);
    DropCommas(sign, g, p, tail);
    assert RemoveChar(g, ',') + tail == RemoveChar(g, ',') + "." + p;
  }

  lemma DropRupee(sign: string, g: string, p: string, body: string)
    requires sign == "" || sign == "-"
    requires AllDigits(p)
    requires forall i :: 0 <= i < |g| ==> g[i] != '\U{20B9}'
    requires body == sign + (g + ("." + p))
    ensures RemoveChar(['\U{20B9}'] + sign + g + "." + p, '\U{20B9}') == body
  {
    var rupee, tail := ['\U{20B9}'], "." + p;
    Regroup(rupee, sign, g, ".", p);
    RemoveCharAppend(rupee, body, '\U{20B9}');
    assert RemoveChar(rupee, '\U{20B9}') == [];
    RemoveCharAppend(sign, g + tail, '\U{20B9}');
    RemoveCharAppend(g, tail, '\U{20B9}');
    RemoveCharAbsent(g, '\U{20B9}');
    NoSymbolAround(sign, p, tail, '\U{20B9}');
    assert [] + body == body;
  }

  lemma Regroup(a: string, b: string, c: string, d: string, e: string)
    ensures a + b + c + d + e == a + (b + (c + (d + e)))
  {
    assert a + b + c + d + e == a + b + c + (d + e);
    assert a + b + c + (d + e) == a + b + (c + (d + e));
  }

  lemma DropCommas(sign: string, g: string, p: string, tail: string)
    requires sign == "" || sign == "-"
    requires AllDigits(p) && tail == "." + p
    ensures RemoveChar(sign + (g + tail), ',') == sign + (RemoveChar(g, ',') + tail)
  {
    RemoveCharAppend(sign, g + tail, ',');
    RemoveCharAppend(g, tail, ',');
    NoSymbolAround(sign, p, tail, ',');
  }

  /** The sign and the cents part hold neither the rupee sign nor a comma. */
  lemma NoSymbolAround(sign: string, p: string, tail: string, c: char)
    requires sign == "" || sign == "-"
    requires AllDigits(p) && tail == "." + p
    requires c != '-' && c != '.' && !IsDigit(c)
    ensures RemoveChar(sign, c) == sign && RemoveChar(tail, c) == tail
  {
    RemoveCharAbsent(sign, c);
    RemoveCharAbsent(tail, c);
  }

  /** The first point after a run of digits is the one that ends the run. */
  lemma PointAfterDigits(d: string, p: string, u: string)
    requires AllDigits(d) && u == d + "." + p
    ensures IndexOf(u, '.') == |d| && u[..|d|] == d && u[|d| + 1..] == p
  {
    assert forall j :: 0 <= j < |d| ==> u[j] == d[j];
    assert u[|d|] == '.';
  }

  /** Plain digits are a digit run of their own digits. */
  lemma {:induction false} PlainRun(d: string)
    requires AllDigits(d)
    ensures d == [] || DigitPart(d)
    ensures RunDigits(d) == d
  {
    if |d| > 1 {
      PlainRun(d[1..]);
    }
    RemoveCharAbsent(d, '_');
  }

  /** Text without `e` or `E` has no exponent. */
  lemma NoExponent(u: string)
    requires forall i :: 0 <= i < |u| ==> u[i] != 'e' && u[i] != 'E'
    ensures ExponentAt(u) == |u| && u[..ExponentAt(u)] == u
  {
  }

  /** Digits, a point and digits read as the whole part plus the fraction. */
  lemma DecimalLiteral(d: string, p: string)
    requires AllDigits(d) && AllDigits(p) && (d != [] || p != [])
    ensures ParseUnsigned(d + "." + p) == Some(DigitsValue(d) as real + FractionValue(p))
  {
    var u := d + "." + p;
    PointAfterDigits(d, p, u);
    assert forall i :: 0 <= i < |u| ==> IsDigit(u[i]) || u[i] == '.';
    NoExponent(u);
    PlainRun(d);
    PlainRun(p);
    DecimalMantissa(d, p, u);
  }

  lemma DecimalMantissa(d: string, p: string, u: string)
    requires AllDigits(d) && AllDigits(p) && (d != [] || p != [])
    requires u == d + "." + p && IndexOf(u, '.') == |d| && u[..|d|] == d && u[|d| + 1..] == p
    requires (d == [] || DigitPart(d)) && RunDigits(d) == d
    requires (p == [] || DigitPart(p)) && RunDigits(p) == p
    ensures ParseMantissa(u) == Some(DigitsValue(d) as real + FractionValue(p))
  {
  }

  /** Two digits after the point are hundredths. */
  lemma TwoDigitFraction(p: string)
    requires AllDigits(p) && |p| == 2
    ensures FractionValue(p) == DigitsValue(p) as real / 100.0
  {
    var a, b := DigitValue(p[0]), DigitValue(p[1]);
    assert p[1..][1..] == [];
    assert FractionValue(p[1..]) == b as real / 10.0;
    assert FractionValue(p) == (a as real + b as real / 10.0) / 10.0;
    assert p[..1][..0] == [];
    assert DigitsValue(p[..1]) == a;
    assert DigitsValue(p) == 10 * a + b;
  }

  /** A point between a non-empty run of digits and two digits reads as
      the whole part plus hundredths. */
  lemma ParseUnsignedCents(d: string, p: string, whole: nat, cents: nat)
    requires AllDigits(d) && d != [] && AllDigits(p) && |p| == 2
    requires DigitsValue(d) == whole && DigitsValue(p) == cents
    ensures ParseUnsigned(d + "." + p) == Some(whole as real + cents as real / 100.0)
  {
    DecimalLiteral(d, p);
    TwoDigitFraction(p);
  }

  /** Whole rupees plus hundredths make up the cents. */
  lemma CentsSplit(m: nat, v: real)
    requires v * 100.0 == m as real
    ensures (m / 100) as real + (m % 100) as real / 100.0 == v
  {
    var q, r := m / 100, m % 100;
    assert m == 100 * q + r;
    assert m as real == 100.0 * q as real + r as real;
  }

  /** `float` of text that starts with a digit and has no surrounding
      whitespace is its unsigned reading. */
  lemma ParseFloatUnsigned(u: string)
    requires u != [] && IsDigit(u[0]) && !IsSpace(u[|u| - 1])
    ensures ParseFloat(u) == ParseUnsigned(u)
  {
    StripUnchanged(u);
  }

  /** `float` of a minus sign before such text is the negated reading. */
  lemma ParseFloatNegative(u: string, v: real)
    requires u != [] && IsDigit(u[0]) && !IsSpace(u[|u| - 1])
    requires ParseUnsigned(u) == Some(v)
    ensures ParseFloat("-" + u) == Some(-v)
  {
    var t := "-" + u;
    assert t[1..] == u && t[0] == '-';
    assert t[|t| - 1] == u[|u| - 1];
    StripUnchanged(t);
    NegativeLiteral(t, u, v);
  }

  lemma NegativeLiteral(t: string, u: string, v: real)
    requires t != [] && t[0] == '-' && t[1..] == u && ParseUnsigned(u) == Some(v)
    ensures ParseSignedLiteral(t) == Some(-v)
  {
  }

  /** The grouped rupees without separators, a point and the paise read
      back as the cents in hundredths. */
  lemma {:induction false} CentsDigits(m: nat, u: string, v: real)
    requires u == RemoveChar(Grouped(m / 100), ',') + "." + PadDigits(m % 100, 2)
    requires v * 100.0 == m as real
    ensures u != [] && IsDigit(u[0]) && !IsSpace(u[|u| - 1])
    ensures ParseUnsigned(u) == Some(v)
  {
    var q, r := m / 100, m % 100;
    var d, p := RemoveChar(Grouped(q), ','), PadDigits(r, 2);
    CentsPieces(q, r, d, p);
    CentsLiteral(d, p, u, m, v);
  }

  /** Whole rupees and two digits of paise, joined by a point, read back as
      the amount whose cents are `m`. */
  lemma CentsLiteral(d: string, p: string, u: string, m: nat, v: real)
    requires AllDigits(d) && d != [] && DigitsValue(d) == m / 100
    requires AllDigits(p) && |p| == 2 && DigitsValue(p) == m % 100
    requires u == d + "." + p && v * 100.0 == m as real
    ensures u != [] && IsDigit(u[0]) && !IsSpace(u[|u| - 1])
    ensures ParseUnsigned(u) == Some(v)
  {
    LiteralEnds(d, p, u);
    ParseUnsignedCents(d, p, m / 100, m % 100);
    CentsSplit(m, v);
  }

  /** The rupees without separators and the two digits of paise. */
  lemma CentsPieces(q: nat, r: nat, d: string, p: string)
    requires r < 100 && d == RemoveChar(Grouped(q), ',') && p == PadDigits(r, 2)
    ensures AllDigits(d) && d != [] && DigitsValue(d) == q
    ensures AllDigits(p) && |p| == 2 && DigitsValue(p) == r
  {
    GroupedDigits(q);
    assert Pow10(2) == 100;
  }

  /** Digits, a point and digits start with a digit and end without space. */
  lemma LiteralEnds(d: string, p: string, u: string)
    requires AllDigits(d) && d != [] && AllDigits(p) && p != [] && u == d + "." + p
    ensures u != [] && IsDigit(u[0]) && !IsSpace(u[|u| - 1])
  {
    assert u[0] == d[0] && u[|u| - 1] == p[|p| - 1];
  }

  /** `float` of an optional minus sign before an unsigned literal that
      starts with a digit. */
  lemma ParseSigned(negative: bool, u: string, v: real)
    requires u != [] && IsDigit(u[0]) && !IsSpace(u[|u| - 1])
    requires ParseUnsigned(u) == Some(v)
    ensures ParseFloat((if negative then "-" else "") + u) == Some(if negative then -v else v)
  {
    if negative {
      ParseFloatNegative(u, v);
    } else {
      assert "" + u == u;
      ParseFloatUnsigned(u);
    }
  }

  /** A display text reads back as its digits, negated after a minus sign. */
  lemma DisplayedValue(sign: string, g: string, p: string, v: real)
    requires sign == "" || sign == "-"
    requires AllDigits(p)
    requires forall i :: 0 <= i < |g| ==> g[i] != '\U{20B9}'
    requires var u := RemoveChar(g, ',') + "." + p;
      u != [] && IsDigit(u[0]) && !IsSpace(u[|u| - 1]) && ParseUnsigned(u) == Some(v)
    ensures ParseDisplayed(['\U{20B9}'] + sign + g + "." + p) == Some(if sign == "-" then -v else v)
  {
    WithoutSymbols(sign, g, p);
    ParseSigned(sign == "-", RemoveChar(g, ',') + "." + p, v);
  }

  /** Parsing the text of `m` cents gives back `m` hundredths, negated for
      a negative amount. */
  lemma CentsTextRoundTrip(negative: bool, m: nat, v: real)
    requires v * 100.0 == m as real
    ensures ParseDisplayed(CentsText(negative, m)) == Some(if negative then -v else v)
  {
    var g, p := Grouped(m / 100), PadDigits(m % 100, 2);
    var sign := if negative then "-" else "";
    assert CentsText(negative, m) == ['\U{20B9}'] + sign + g + "." + p;
    assert (sign == "-") == negative;
    CentsDigits(m, RemoveChar(g, ',') + "." + p, v);
    DisplayedValue(sign, g, p, v);
  }

  /** Parsing the displayed amount gives back the amount rounded to cents. */
  lemma DisplayRoundTrip(a: real)
    ensures ParseDisplayed(DisplayAmount(a)) == Some(Round2(a))
  {
    var m := CentsOfMagnitude(if a < 0.0 then -a else a);
    var v := Round2(if a < 0.0 then -a else a);
    assert v * 100.0 == m as real;
    assert Round2(a) == if a < 0.0 then -v else v;
    CentsTextRoundTrip(a < 0.0, m, v);
  }
}
