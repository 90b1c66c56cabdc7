/**
 * Duration resolver: converts a delay node's (duration, unit) pair into whole
 * seconds, coercing the duration the way Python's `int()` and `float()` do.
 */
module Duration {
  import opened Values

  predicate IsDigit(c: char) { '0' <= c <= '9' }

  predicate AllDigits(s: string) { forall i :: 0 <= i < |s| ==> IsDigit(s[i]) }

  /** The number written by a string of decimal digits. */
  function DigitsValue(s: string): nat
    requires AllDigits(s)
  {
    if s == [] then 0 else 10 * DigitsValue(s[..|s| - 1]) + (s[|s| - 1] as int - '0' as int)
  }

  /** Splits an optional leading sign off a numeral: (is it negative, the rest). */
  function SplitSign(s: string): (bool, string) {
    if s != [] && (s[0] == '-' || s[0] == '+') then (s[0] == '-', s[1..]) else (false, s)
  }

  /** Python's `int(s)` on a string: surrounding whitespace, an optional sign and
      at least one decimal digit; anything else raises (None). */
  function ParseIntText(s: string): (r: Option<int>)
    ensures r.Some? ==> var (neg, body) := SplitSign(Trim(s)); body != [] && AllDigits(body)
  {
    var (neg, body) := SplitSign(Trim(s));
    if body != [] && AllDigits(body) then
      Some(if neg then -(DigitsValue(body) as int) else DigitsValue(body))
    else None
  }

  /** `int(float(s))` on a decimal numeral `[sign] digits [. digits]` with at least one
      digit: the integer part, carrying the sign (truncation towards zero). Only text that
      `int()` refuses gets here, and a numeral it accepts is always refused by `int()`. */
  function ParseDecimalText(s: string): (r: Option<int>)
    ensures r.Some? ==> ParseIntText(s).None?
  {
    var (neg, body) := SplitSign(Trim(s));
    match IndexOf(body, '.')
    case None => None
    case Some(p) =>
      var whole, frac := body[..p], body[p + 1..];
      if AllDigits(whole) && AllDigits(frac) && |whole| + |frac| > 0 then
        assert !IsDigit(body[p]);
        Some(if neg then -(DigitsValue(whole) as int) else DigitsValue(whole))
      else None
  }

  function Pow10(n: nat): (r: nat)
    ensures r >= 1
  {
    if n == 0 then 1 else 10 * Pow10(n - 1)
  }

  /** Python's `int(x)` on a float x = units / 10^scale: truncation towards zero, so the result
      has the sign of x and lies less than one away from it. */
  function Truncate(units: int, scale: nat): (r: int)
    ensures units >= 0 ==> 0 <= r * Pow10(scale) <= units < (r + 1) * Pow10(scale)
    ensures units < 0 ==> (r - 1) * Pow10(scale) < units <= r * Pow10(scale) <= 0
  {
    var p := Pow10(scale);
    if units >= 0 then
      DivBounds(units, p);
      units / p
    else
      DivBounds(-units, p);
      -((-units) / p)
  }

  /** Euclidean division of a natural number: the quotient times the divisor lies within
      one divisor below it. */
  lemma DivBounds(a: nat, p: nat)
    requires p >= 1
    ensures 0 <= (a / p) * p <= a < (a / p + 1) * p
    ensures (-(a / p) - 1) * p < -(a as int) <= -(a / p) * p <= 0
  {
    var q := a / p;
    assert a == p * q + a % p;
    assert 0 <= a % p < p;
    assert q >= 0;
    assert q * p >= 0;
    assert (q + 1) * p == q * p + p;
    assert (-q - 1) * p == -(q * p) - p;
    assert -q * p == -(q * p);
  }

  /** The `try: int(d) / except: try: int(float(d)) / except: 0` ladder: an integer is
      itself, a boolean 0 or 1, a float is truncated towards zero (the result lies less
      than one from it, on the same side of zero), and a container, None or text neither
      `int()` nor `float()` reads counts 0. */
  function CoerceInt(d: Value): (r: int)
    ensures d.Int? ==> r == d.i
    ensures d.Bool? ==> r == if d.b then 1 else 0
    ensures d.Dec? && d.units >= 0 ==> 0 <= r * Pow10(d.scale) <= d.units < (r + 1) * Pow10(d.scale)
    ensures d.Dec? && d.units < 0 ==> (r - 1) * Pow10(d.scale) < d.units <= r * Pow10(d.scale) <= 0
    ensures d.Null? || d.List? || d.Dict? ==> r == 0
    ensures d.Str? && ParseIntText(d.s).None? && ParseDecimalText(d.s).None? ==> r == 0
  {
    match d
    case Null => 0
    case Bool(b) => if b then 1 else 0
    case Int(i) => i
    case Dec(u, sc) => Truncate(u, sc)
    case Str(s) =>
      (match ParseIntText(s)
       case Some(n) => n
       case None => match ParseDecimalText(s) case Some(n) => n case None => 0)
    case List(_) => 0
    case Dict(_) => 0
  }

  /** Seconds per unit after lower-casing; any other unit, "seconds" and "" included, counts 1. */
  function UnitFactor(unit: string): (f: nat)
    ensures f == 60 <==> unit == "minutes"
    ensures f == 3600 <==> unit == "hours"
    ensures f == 86400 <==> unit == "days"
    ensures f == 1 <==> unit != "minutes" && unit != "hours" && unit != "days"
  {
    if unit == "minutes" then 60
    else if unit == "hours" then 3600
    else if unit == "days" then 86400
    else 1
  }

  /** `_duration_seconds(duration, unit)`. None stands for the AttributeError that
      `(unit or "").lower()` raises when a truthy duration comes with a truthy unit
      that is not a string. */
  function DurationSeconds(duration: Value, unit: Value): (r: Option<int>)
    ensures !Truthy(duration) ==> r == Some(0)
    ensures r.None? <==> Truthy(duration) && Truthy(unit) && !unit.Str?
  {
    if !Truthy(duration) then Some(0)
    else if Truthy(unit) && !unit.Str? then None
    else
      var u := if unit.Str? then Lower(unit.s) else "";
      Some(CoerceInt(duration) * UnitFactor(u))
  }

  // ---------------------------------------------------------------------------
  // Properties.

  /** A truthy duration with a string unit is its integer value times 60, 3600 or 86400 for
      minutes, hours or days in any letter case, and the integer itself for any other unit;
      a falsy unit (None, "", 0, False, [] or {}) reads as "" and gives the integer itself. */
  lemma DurationIsFactorTimesValue(duration: Value, unit: string)
    requires Truthy(duration)
    ensures Lower(unit) == "minutes" ==> DurationSeconds(duration, Str(unit)) == Some(60 * CoerceInt(duration))
    ensures Lower(unit) == "hours" ==> DurationSeconds(duration, Str(unit)) == Some(3600 * CoerceInt(duration))
    ensures Lower(unit) == "days" ==> DurationSeconds(duration, Str(unit)) == Some(86400 * CoerceInt(duration))
    ensures Lower(unit) != "minutes" && Lower(unit) != "hours" && Lower(unit) != "days" ==>
            DurationSeconds(duration, Str(unit)) == Some(CoerceInt(duration))
    ensures forall u :: !Truthy(u) ==> DurationSeconds(duration, u) == Some(CoerceInt(duration))
  {
    var u := Lower(unit);
    assert DurationSeconds(duration, Str(unit)) == Some(CoerceInt(duration) * UnitFactor(u));
  }

  lemma {:induction false} DigitsRoundTrip(n: nat)
    ensures AllDigits(DigitsText(n)) && DigitsValue(DigitsText(n)) == n
  {
    if n >= 10 {
      DigitsRoundTrip(n / 10);
      var t := DigitsText(n);
      assert t[..|t| - 1] == DigitsText(n / 10);
    }
  }

  lemma DigitsTextNoSpace(n: nat)
    ensures forall i :: 0 <= i < |DigitsText(n)| ==> IsDigit(DigitsText(n)[i])
  {
    DigitsRoundTrip(n);
  }

  /** A duration stored as the decimal text of an integer coerces back to that integer. */
  lemma {:induction false} IntTextCoercesBack(n: int)
    ensures CoerceInt(Str(IntText(n))) == n
  {
    var t := IntText(n);
    var d := DigitsText(if n < 0 then -n else n);
    DigitsRoundTrip(if n < 0 then -n else n);
    assert d != [] && !IsSpace(d[0]) && !IsSpace(d[|d| - 1]);
    assert !IsSpace(t[0]) && !IsSpace(t[|t| - 1]) by {
      if n < 0 { assert t == "-" + d; assert t[|t| - 1] == d[|d| - 1]; }
    }
    TrimOfTrimmed(t);
    if n < 0 {
      assert t == "-" + d;
      assert SplitSign(t) == (true, d);
    } else {
      assert SplitSign(t) == (false, d);
    }
  }

  // Worked examples.

  lemma TwoDaysExample()
    ensures DurationSeconds(Int(2), Str("days")) == Some(172800)
  {
    assert Lower("days") == "days";
  }

  lemma MixedCaseUnitExample()
    ensures DurationSeconds(Int(30), Str("Minutes")) == Some(1800)
  {
    assert Lower("Minutes") == "minutes";
  }

  /** With an empty or "seconds" unit the integer itself is returned. */
  lemma SecondsFallbackExample()
    ensures DurationSeconds(Int(90), Str("")) == Some(90)
    ensures DurationSeconds(Int(90), Str("seconds")) == Some(90)
  {
    assert Lower("seconds") == "seconds";
  }

  lemma NonStringUnitExample()
    ensures DurationSeconds(Int(5), Int(3)) == None
    ensures DurationSeconds(Int(0), Int(3)) == Some(0)
  {
  }

  /** Text that starts with neither a digit, a sign nor a point is no numeral for
      `int()` or `float()`: the ladder ends at 0. */
  lemma NonNumericTextIsZero(s: string)
    requires IsTrimmed(s) && s != []
    requires !IsDigit(s[0]) && s[0] != '-' && s[0] != '+' && s[0] != '.'
    ensures ParseIntText(s) == None && ParseDecimalText(s) == None
    ensures CoerceInt(Str(s)) == 0
  {
    TrimOfTrimmed(s);
    assert SplitSign(s) == (false, s);
    match IndexOf(s, '.')
    case None =>
    case Some(p) =>
      assert s[..p][0] == s[0];
  }

  /** A decimal numeral `whole.frac` is refused by `int()`, and `int(float())` keeps
      its whole part. */
  lemma DecimalTextCoercion(whole: string, frac: string)
    requires whole != [] && AllDigits(whole) && AllDigits(frac)
    ensures ParseIntText(whole + ['.'] + frac) == None
    ensures ParseDecimalText(whole + ['.'] + frac) == Some(DigitsValue(whole))
    ensures CoerceInt(Str(whole + ['.'] + frac)) == DigitsValue(whole)
  {
    var s := whole + ['.'] + frac;
    DecimalTextSplits(s, whole, frac);
    TrimOfTrimmed(s);
    assert !IsDigit(s[|whole|]);
    assert !AllDigits(s);
  }

  /** Such a numeral is already trimmed, unsigned, and its first point follows the whole part. */
  lemma DecimalTextSplits(s: string, whole: string, frac: string)
    requires whole != [] && AllDigits(whole) && AllDigits(frac) && s == whole + ['.'] + frac
    ensures IsTrimmed(s) && SplitSign(s) == (false, s)
    ensures IndexOf(s, '.') == Some(|whole|) && s[|whole|] == '.'
    ensures s[..|whole|] == whole && s[|whole| + 1..] == frac
  {
    DecimalTextTrimmed(whole, frac);
    assert s[0] == whole[0];
    PointAfterWhole(whole, frac);
  }

  lemma DecimalTextTrimmed(whole: string, frac: string)
    requires whole != [] && AllDigits(whole) && AllDigits(frac)
    ensures IsTrimmed(whole + ['.'] + frac)
  {
    var s := whole + ['.'] + frac;
    assert s[0] == whole[0];
    assert !IsSpace(s[|s| - 1]) by {
      if frac == [] { assert s[|s| - 1] == '.'; } else { assert s[|s| - 1] == frac[|frac| - 1]; }
    }
  }

  lemma PointAfterWhole(whole: string, frac: string)
    requires AllDigits(whole)
    ensures IndexOf(whole + ['.'] + frac, '.') == Some(|whole|)
  {
    assert '.' !in whole by {
      forall i | 0 <= i < |whole| ensures whole[i] != '.' { assert IsDigit(whole[i]); }
    }
    IndexOfAfter(whole, '.', frac);
  }

  lemma UnparsableTextExample()
    ensures DurationSeconds(Str("abc"), Str("hours")) == Some(0)
  {
    NonNumericTextIsZero("abc");
    assert Lower("hours") == "hours";
  }

  /** "1.9" minutes: `int("1.9")` fails, `int(float("1.9"))` is 1, so 60 seconds. */
  lemma DecimalTextExample(text: string)
    requires text == "1.9"
    ensures DurationSeconds(Str(text), Str("minutes")) == Some(60)
  {
    assert CoerceInt(Str(text)) == 1 by { DecimalTextIsOne(text); }
    assert Truthy(Str(text)) by { assert |text| == 3; }
    MinutesFactor();
  }

  lemma MinutesFactor()
    ensures Lower("minutes") == "minutes"
    ensures UnitFactor(Lower("minutes")) == 60
  {
    assert Lower("minutes") == "minutes";
  }

  lemma DecimalTextIsOne(text: string)
    requires text == "1.9"
    ensures CoerceInt(Str(text)) == 1
  {
    var whole, frac := text[..1], text[2..];
    assert text == whole + ['.'] + frac;
    DecimalTextCoercion(whole, frac);
    assert DigitsValue(whole) == 1 by { assert whole[..0] == []; }
  }

  /** The default unit of a delay node is already lower-case. */
  lemma HoursFactor()
    ensures Lower("hours") == "hours"
    ensures UnitFactor(Lower("hours")) == 3600
  {
    assert Lower("hours") == "hours";
  }

  /** A negative duration is not clamped: it moves the send earlier. */
  lemma NegativeDecimalExample()
    ensures DurationSeconds(Dec(-15, 1), Str("hours")) == Some(-3600)
  {
    assert Lower("hours") == "hours";
    assert Truncate(-15, 1) == -1;
  }
}
