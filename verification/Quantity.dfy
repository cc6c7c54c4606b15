/**
 * Kubernetes quantities and their canonical decimal text
 * (namespace_twin/canonicalization.py, _normalize_quantity).
 */
module Quantity {
  import opened Options
  import opened Decimal

  // A decimal number: mantissa times ten to the exponent. The sign is kept apart, as in Python's
  // Decimal, so that zero can be negative.
  datatype Number = Number(negative: bool, mantissa: nat, exponent: int)

  function Power(e: int): real
    decreases if e < 0 then -e else e
  {
    if e == 0 then 1.0 else if e > 0 then 10.0 * Power(e - 1) else Power(e + 1) / 10.0
  }

  /** The number denoted. */
  function Value(d: Number): real {
    (if d.negative then -1.0 else 1.0) * (d.mantissa as real) * Power(d.exponent)
  }

  // ----- Reading a quantity -----

  predicate IsSpace(c: char) {
    c == ' ' || '\t' <= c <= '\r' || '\U{1C}' <= c <= '\U{1F}'
  }

  function Strip(s: string): (r: string)
    ensures r != "" ==> !IsSpace(r[0]) && !IsSpace(r[|r| - 1])
    ensures |r| <= |s|
  {
    if s == "" then ""
    else if IsSpace(s[0]) then Strip(s[1..])
    else if IsSpace(s[|s| - 1]) then Strip(s[..|s| - 1])
    else s
  }

  /** What a known suffix multiplies by: a factor and a power of ten. */
  function Multiplier(suffix: string): Option<(nat, int)> {
    match suffix
    case "" => Some((1, 0))
    case "n" => Some((1, -9))
    case "u" => Some((1, -6))
    case "m" => Some((1, -3))
    case "k" => Some((1, 3))
    case "K" => Some((1, 3))
    case "M" => Some((1, 6))
    case "G" => Some((1, 9))
    case "T" => Some((1, 12))
    case "P" => Some((1, 15))
    case "E" => Some((1, 18))
    case "Ki" => Some((1024, 0))
    case "Mi" => Some((1024 * 1024, 0))
    case "Gi" => Some((1024 * 1024 * 1024, 0))
    case "Ti" => Some((1024 * 1024 * 1024 * 1024, 0))
    case "Pi" => Some((1024 * 1024 * 1024 * 1024 * 1024, 0))
    case "Ei" => Some((1024 * 1024 * 1024 * 1024 * 1024 * 1024, 0))
    case _ => None
  }

  /** Digits with an optional fraction, and what follows; at least one digit is needed. */
  function ReadUnsigned(s: string): Option<(nat, nat, string)> {
    var whole := DigitPrefix(s);
    var rest := s[|whole|..];
    if rest != "" && rest[0] == '.' then
      var fraction := DigitPrefix(rest[1..]);
      if whole == "" && fraction == "" then None
      else Some((Undec(whole + fraction), |fraction|, rest[1 + |fraction|..]))
    else if whole == "" then None
    else Some((Undec(whole), 0, rest))
  }

  /** The number read from digits and a suffix, if the suffix is known. */
  function Scaled(negative: bool, read: Option<(nat, nat, string)>): Option<Number> {
    hide Multiplier;
    if read.None? then None
    else
      var m := Multiplier(read.value.2);
      if m.None? then None
      else Some(Number(negative, read.value.0 * m.value.0, m.value.1 - read.value.1))
  }

  /** The number a text denotes, if it is a well-formed quantity with a known suffix. */
  function Parse(text: string): Option<Number> {
    var s := Strip(text);
    if s != "" && (s[0] == '+' || s[0] == '-') then Scaled(s[0] == '-', ReadUnsigned(s[1..]))
    else Scaled(false, ReadUnsigned(s))
  }

  // ----- Writing the canonical text -----

  /** Decimal.normalize: no trailing zeros, and exponent 0 for zero. */
  function Reduce(d: Number): (r: Number)
    ensures r.mantissa % 10 != 0 || (r.mantissa == 0 && r.exponent == 0)
    ensures r.negative == d.negative
    decreases d.mantissa
  {
    if d.mantissa == 0 then d.(exponent := 0)
    else if d.mantissa % 10 == 0 then Reduce(Number(d.negative, d.mantissa / 10, d.exponent + 1))
    else d
  }

  /** format(d, "f"): plain digits without an exponent. */
  function Plain(d: Number): string {
    var digits := Dec(d.mantissa);
    (if d.negative then "-" else "")
    + if d.exponent >= 0 then digits + Zeros(d.exponent)
      else if |digits| > -d.exponent then
        digits[..|digits| + d.exponent] + "." + digits[|digits| + d.exponent..]
      else "0." + Zeros(-d.exponent - |digits|) + digits
  }

  /** The canonical text; anything that is not a well-formed quantity is left alone. */
  function NormalizeQuantity(text: string): string {
    match Parse(text)
    case None => text
    case Some(d) =>
      var plain := Plain(Reduce(d));
      if plain == "-0" || plain == "" then "0" else plain
  }

  // ----- The canonical text denotes the same number -----

  predicate WellFormed(text: string) {
    Parse(text).Some?
  }

  /** The number a well-formed quantity denotes. */
  function Denotes(text: string): real
    requires WellFormed(text)
  {
    Value(Parse(text).value)
  }

  lemma {:induction false} PowerStep(e: int)
    ensures Power(e + 1) == 10.0 * Power(e) && Power(e) > 0.0
    decreases if e < 0 then -e else e
  {
    if e > 0 {
      PowerStep(e - 1);
    } else if e < 0 {
      PowerStep(e + 1);
    }
  }

  lemma {:induction false} PowerPlus(e: int, k: nat)
    ensures Power(e + k) == Power(e) * Pow10(k) as real
  {
    hide Power, Pow10;
    Pow10Step(k);
    if k > 0 {
      PowerPlus(e, k - 1);
      PowerStep(e + k - 1);
      TimesTen(Power(e + k), Power(e + k - 1), Power(e), Pow10(k - 1), Pow10(k));
    }
  }

  lemma Pow10Step(k: nat)
    ensures Pow10(0) == 1 && (k > 0 ==> Pow10(k) == 10 * Pow10(k - 1))
  {}

  lemma TimesTen(next: real, last: real, base: real, small: nat, big: nat)
    requires next == 10.0 * last && last == base * small as real && big == 10 * small
    ensures next == base * big as real
  {
    assert big as real == 10.0 * small as real;
    assert base * (10.0 * small as real) == 10.0 * (base * small as real);
  }

  lemma {:induction false} ReduceKeepsValue(d: Number)
    ensures Value(Reduce(d)) == Value(d)
    decreases d.mantissa
  {
    if d.mantissa != 0 && d.mantissa % 10 == 0 {
      var q := d.mantissa / 10;
      var next := Number(d.negative, q, d.exponent + 1);
      ReduceKeepsValue(next);
      PowerStep(d.exponent);
      assert d.mantissa == 10 * q;
      var sign := if d.negative then -1.0 else 1.0;
      assert sign * (q as real) * (10.0 * Power(d.exponent)) == sign * ((10 * q) as real) * Power(d.exponent);
    }
  }

  predicate Reduced(d: Number) {
    d.mantissa % 10 != 0 || (d.mantissa == 0 && d.exponent == 0)
  }

  lemma Cancel(x: real, y: real, unit: real)
    requires unit > 0.0 && x * unit == y * unit
    ensures x == y
  {
    assert (x - y) * unit == 0.0;
  }

  lemma LargerExponent(a: nat, e: int, b: nat, k: nat)
    requires k > 0 && (a as real) * Power(e) == (b as real) * Power(e + k)
    ensures a % 10 == 0
  {
    hide Power;
    PowerPlus(e, k);
    PowerStep(e);
    var p, unit := Pow10(k), Power(e);
    var x, y := b as real, p as real;
    assert x * (unit * y) == (x * y) * unit;
    Cancel(a as real, x * y, unit);
    assert a == b * p;
    assert p == 10 * Pow10(k - 1);
    var q := Pow10(k - 1);
    assert b * (10 * q) == 10 * (b * q);
  }

  lemma SameMagnitude(a: nat, e: int, b: nat, f: int)
    requires a % 10 != 0 && b % 10 != 0
    requires (a as real) * Power(e) == (b as real) * Power(f)
    ensures a == b && e == f
  {
    hide Power;
    if e < f {
      LargerExponent(a, e, b, f - e);
      assert false;
    } else if f < e {
      LargerExponent(b, f, a, e - f);
      assert false;
    } else {
      PowerStep(e);
      Cancel(a as real, b as real, Power(e));
    }
  }

  function Magnitude(d: Number): real {
    (d.mantissa as real) * Power(d.exponent)
  }

  lemma ValueSign(d: Number)
    ensures Value(d) == if d.negative then -Magnitude(d) else Magnitude(d)
    ensures Magnitude(d) >= 0.0
    ensures Magnitude(d) == 0.0 <==> d.mantissa == 0
  {
    PowerStep(d.exponent);
  }

  /** Reduced numbers are unique, up to the sign of zero. */
  lemma ReducedIsUnique(a: Number, b: Number)
    requires Reduced(a) && Reduced(b) && Value(a) == Value(b)
    ensures a.mantissa == b.mantissa && a.exponent == b.exponent
    ensures a.mantissa != 0 ==> a.negative == b.negative
  {
    hide Value, Power;
    ValueSign(a);
    ValueSign(b);
    if a.mantissa != 0 {
      SameMagnitude(a.mantissa, a.exponent, b.mantissa, b.exponent);
    }
  }

  lemma {:induction false} UndecZeros(d: string, n: nat)
    requires AllDigits(d)
    ensures AllDigits(d + Zeros(n)) && Undec(d + Zeros(n)) == Undec(d) * Pow10(n)
  {
    hide Undec, Pow10;
    Pow10Step(n);
    if n == 0 {
      assert d + Zeros(n) == d;
    } else {
      UndecZeros(d, n - 1);
      var before, s := d + Zeros(n - 1), d + Zeros(n);
      assert s == before + "0";
      UndecZero(before);
      Reorder(Undec(d), Pow10(n - 1));
    }
  }

  lemma UndecZero(d: string)
    requires AllDigits(d)
    ensures AllDigits(d + "0") && Undec(d + "0") == 10 * Undec(d)
  {
    var s := d + "0";
    assert s[..|s| - 1] == d && s[|s| - 1] == '0';
  }

  lemma Reorder(a: nat, b: nat)
    ensures 10 * (a * b) == a * (10 * b)
  {}

  lemma {:induction false} PrefixOfAll(d: string)
    requires AllDigits(d)
    ensures DigitPrefix(d) == d
  {
    if d != "" {
      PrefixOfAll(d[1..]);
    }
  }

  lemma ReadWhole(d: string)
    requires AllDigits(d) && d != ""
    ensures ReadUnsigned(d) == Some((Undec(d), 0, ""))
  {
    PrefixOfAll(d);
    assert d[|d|..] == "";
  }

  lemma ReadFraction(whole: string, fraction: string)
    requires AllDigits(whole) && AllDigits(fraction) && whole != ""
    ensures ReadUnsigned(whole + "." + fraction) == Some((Undec(whole + fraction), |fraction|, ""))
  {
    hide Undec, DigitPrefix;
    var s := whole + "." + fraction;
    assert s == whole + ("." + fraction);
    DigitPrefixOf(whole, "." + fraction);
    var rest := s[|whole|..];
    assert rest == "." + fraction && rest[1..] == fraction;
    PrefixOfAll(fraction);
    assert rest[1 + |fraction|..] == "";
  }

  /** The text of a number without its sign. */
  function Unsigned(d: Number): string {
    Plain(d.(negative := false))
  }

  lemma PlainSplit(d: Number)
    ensures Plain(d) == (if d.negative then "-" else "") + Unsigned(d)
  {}

  /** Reading the unsigned text gives the number back, with any positive exponent written out. */
  lemma ReadPlain(d: Number)
    ensures Unsigned(d) != "" && IsDigit(Unsigned(d)[0]) && IsDigit(Unsigned(d)[|Unsigned(d)| - 1])
    ensures d.exponent >= 0 ==>
              var m: nat := d.mantissa * Pow10(d.exponent);
              ReadUnsigned(Unsigned(d)) == Some((m, 0, ""))
    ensures d.exponent < 0 ==>
              var m: nat, scale: nat := d.mantissa, -d.exponent;
              ReadUnsigned(Unsigned(d)) == Some((m, scale, ""))
  {
    hide ReadUnsigned, Dec, Undec;
    var digits, text := Dec(d.mantissa), Unsigned(d);
    DecRoundTrip(d.mantissa);
    if d.exponent >= 0 {
      UndecZeros(digits, d.exponent);
      assert text == digits + Zeros(d.exponent);
      ReadWhole(text);
    } else if |digits| > -d.exponent {
      var whole, fraction := digits[..|digits| + d.exponent], digits[|digits| + d.exponent..];
      assert whole + fraction == digits;
      assert text == whole + "." + fraction;
      ReadFraction(whole, fraction);
    } else {
      var pad := -d.exponent - |digits|;
      var fraction := Zeros(pad) + digits;
      LeadingZeros(pad + 1, digits);
      assert "0" + fraction == Zeros(pad + 1) + digits;
      assert text == "0" + "." + fraction;
      ReadFraction("0", fraction);
    }
  }

  lemma {:induction false} StripClean(s: string)
    requires s == "" || (!IsSpace(s[0]) && !IsSpace(s[|s| - 1]))
    ensures Strip(s) == s
  {}

  lemma ParseUnsigned(negative: bool, unsigned: string, mantissa: nat, scale: nat)
    requires unsigned != "" && IsDigit(unsigned[0]) && IsDigit(unsigned[|unsigned| - 1])
    requires ReadUnsigned(unsigned) == Some((mantissa, scale, ""))
    ensures Parse((if negative then "-" else "") + unsigned) == Some(Number(negative, mantissa, 0 - scale))
  {
    hide ReadUnsigned, Multiplier, Strip;
    var text := (if negative then "-" else "") + unsigned;
    assert text[|text| - 1] == unsigned[|unsigned| - 1];
    assert negative ==> text[0] == '-' && text[1..] == unsigned;
    assert !negative ==> text == unsigned;
    StripClean(text);
    ScaledPlain(negative, mantissa, scale);
  }

  lemma ScaledPlain(negative: bool, mantissa: nat, scale: nat)
    ensures Scaled(negative, Some((mantissa, scale, ""))) == Some(Number(negative, mantissa, 0 - scale))
  {
    hide Multiplier;
    NoSuffix();
  }

  lemma ParsePlain(d: Number)
    ensures WellFormed(Plain(d)) && Parse(Plain(d)).value.negative == d.negative
    ensures Denotes(Plain(d)) == Value(d)
  {
    hide ReadUnsigned, Multiplier, Plain, Parse;
    PlainSplit(d);
    ReadPlain(d);
    if d.exponent >= 0 {
      var whole: nat := d.mantissa * Pow10(d.exponent);
      ParseUnsigned(d.negative, Unsigned(d), whole, 0);
      WrittenOut(d, whole);
    } else {
      var scale: nat := -d.exponent;
      ParseUnsigned(d.negative, Unsigned(d), d.mantissa, scale);
    }
  }

  lemma WrittenOut(d: Number, whole: nat)
    requires d.exponent >= 0 && whole == d.mantissa * Pow10(d.exponent)
    ensures Value(Number(d.negative, whole, 0)) == Value(d)
  {
    PowerPlus(0, d.exponent);
    var m, p := d.mantissa as real, Pow10(d.exponent);
    assert whole as real == m * (p as real);
    assert Power(0) == 1.0 && Power(d.exponent) == p as real;
  }

  lemma NoSuffix()
    ensures Multiplier("") == Some((1, 0))
  {}

  // ----- The canonical form -----

  lemma NormalizeText(text: string)
    requires WellFormed(text)
    ensures var r := Reduce(Parse(text).value);
            NormalizeQuantity(text) == if r.mantissa == 0 then "0" else Plain(r)
  {
    hide Parse;
    var r := Reduce(Parse(text).value);
    if r.mantissa == 0 {
      assert Dec(0) == "0" && Zeros(0) == "";
      assert Plain(r) == "-0" || Plain(r) == "0";
    } else {
      PlainSplit(r);
      ReadPlain(r);
      ParsePlain(r);
      ReduceKeepsValue(Parse(text).value);
      ValueSign(r);
      if Plain(r) == "-0" {
        NegativeZero();
        assert false;
      }
    }
  }

  lemma PlainZero()
    ensures Plain(Number(false, 0, 0)) == "0" && Plain(Number(true, 0, 0)) == "-0"
  {
    assert Dec(0) == "0" && Zeros(0) == "";
    hide Dec, Zeros;
    assert "-" + "0" == "-0" && "" + "0" == "0" && "0" + "" == "0";
  }

  lemma NegativeZero()
    ensures WellFormed("-0") && Denotes("-0") == 0.0
    ensures WellFormed("0") && Denotes("0") == 0.0
  {
    hide Plain, WellFormed, Denotes, Power;
    PlainZero();
    ParsePlain(Number(false, 0, 0));
    ParsePlain(Number(true, 0, 0));
  }

  /** The canonical text is a well-formed quantity that denotes the same number. */
  lemma NormalizeKeepsNumber(text: string)
    requires WellFormed(text)
    ensures WellFormed(NormalizeQuantity(text))
    ensures Denotes(NormalizeQuantity(text)) == Denotes(text)
  {
    hide Parse, NormalizeQuantity, Plain, Reduce, Value;
    var d := Parse(text).value;
    NormalizeText(text);
    ReduceKeepsValue(d);
    ValueSign(Reduce(d));
    if Reduce(d).mantissa == 0 {
      NegativeZero();
    } else {
      ParsePlain(Reduce(d));
    }
  }

  /** Two well-formed quantities have the same canonical text exactly when they are equal numbers. */
  lemma NormalizeIsCanonical(a: string, b: string)
    requires WellFormed(a) && WellFormed(b)
    ensures NormalizeQuantity(a) == NormalizeQuantity(b) <==> Denotes(a) == Denotes(b)
  {
    hide Parse, NormalizeQuantity, Plain, Value;
    NormalizeKeepsNumber(a);
    NormalizeKeepsNumber(b);
    if Denotes(a) == Denotes(b) {
      NormalizeText(a);
      NormalizeText(b);
      var ra, rb := Reduce(Parse(a).value), Reduce(Parse(b).value);
      ReduceKeepsValue(Parse(a).value);
      ReduceKeepsValue(Parse(b).value);
      ReducedIsUnique(ra, rb);
      assert ra.mantissa != 0 ==> ra == rb;
    }
  }

  /** Normalising again changes nothing, whether or not the text is a quantity. */
  lemma NormalizeIsIdempotent(text: string)
    ensures NormalizeQuantity(NormalizeQuantity(text)) == NormalizeQuantity(text)
  {
    hide Parse, Plain, Value;
    if WellFormed(text) {
      NormalizeKeepsNumber(text);
      NormalizeIsCanonical(NormalizeQuantity(text), text);
    }
  }

  // ----- What suffixes mean -----

  /** The number of units a suffix stands for; 0 for anything else. */
  function Unit(suffix: string): real {
    if suffix == "" then 1.0
    else if suffix == "n" then 0.000000001
    else if suffix == "u" then 0.000001
    else if suffix == "m" then 0.001
    else if suffix == "k" || suffix == "K" then 1000.0
    else if suffix == "M" then 1000000.0
    else if suffix == "G" then 1000000000.0
    else if suffix == "T" then 1000000000000.0
    else if suffix == "P" then 1000000000000000.0
    else if suffix == "E" then 1000000000000000000.0
    else if suffix == "Ki" then 1024.0
    else if suffix == "Mi" then 1048576.0
    else if suffix == "Gi" then 1073741824.0
    else if suffix == "Ti" then 1099511627776.0
    else if suffix == "Pi" then 1125899906842624.0
    else if suffix == "Ei" then 1152921504606846976.0
    else 0.0
  }

  lemma PowersOfTen()
    ensures Power(3) == 1000.0 && Power(6) == 1000000.0 && Power(9) == 1000000000.0
    ensures Power(12) == 1000000000000.0 && Power(15) == 1000000000000000.0 && Power(18) == 1000000000000000000.0
    ensures Power(-3) == 0.001 && Power(-6) == 0.000001 && Power(-9) == 0.000000001 && Power(0) == 1.0
  {
    ThreeMore(0);
    ThreeMore(3);
    ThreeMore(6);
    ThreeMore(9);
    ThreeMore(12);
    ThreeMore(15);
    ThreeMore(-3);
    ThreeMore(-6);
    ThreeMore(-9);
  }

  lemma {:induction false} ThreeMore(e: int)
    ensures Power(e + 3) == 1000.0 * Power(e)
  {
    hide Power;
    PowerStep(e);
    PowerStep(e + 1);
    PowerStep(e + 2);
  }

  lemma UnitIs(suffix: string)
    ensures Unit(suffix) != 0.0 <==> Multiplier(suffix).Some?
    ensures Multiplier(suffix).Some? ==>
              Unit(suffix) == (Multiplier(suffix).value.0 as real) * Power(Multiplier(suffix).value.1)
  {
    PowersOfTen();
    hide Power;
  }

  predicate IsLetter(c: char) {
    'a' <= c <= 'z' || 'A' <= c <= 'Z'
  }

  lemma ReadDigitsAndLetters(digits: string, suffix: string)
    requires AllDigits(digits) && digits != "" && forall i :: 0 <= i < |suffix| ==> IsLetter(suffix[i])
    ensures Parse(digits + suffix) == Scaled(false, Some((Undec(digits), 0, suffix)))
  {
    hide Undec, Scaled, DigitPrefix, Strip;
    var s := digits + suffix;
    assert s[0] == digits[0] && IsDigit(s[0]);
    assert s[|s| - 1] == if suffix == "" then digits[|digits| - 1] else suffix[|suffix| - 1];
    StripClean(s);
    if suffix == "" {
      assert s == digits;
      PrefixOfAll(digits);
    } else {
      DigitPrefixOf(digits, suffix);
    }
    assert s[|digits|..] == suffix;
    assert ReadUnsigned(s) == Some((Undec(digits), 0, suffix));
  }

  lemma Distribute(digits: nat, factor: nat, power: real)
    ensures ((digits * factor) as real) * power == (digits as real) * ((factor as real) * power)
  {
    assert (digits * factor) as real == (digits as real) * (factor as real);
  }

  /** Digits and letters are a quantity exactly when the letters are a known suffix, and count in its units. */
  lemma SuffixCounts(digits: string, suffix: string)
    requires AllDigits(digits) && digits != "" && forall i :: 0 <= i < |suffix| ==> IsLetter(suffix[i])
    ensures WellFormed(digits + suffix) <==> Unit(suffix) != 0.0
    ensures WellFormed(digits + suffix) ==> Denotes(digits + suffix) == (Undec(digits) as real) * Unit(suffix)
  {
    hide Multiplier, Undec, Unit, Power, Parse;
    ReadDigitsAndLetters(digits, suffix);
    UnitIs(suffix);
    if Multiplier(suffix).Some? {
      var m := Multiplier(suffix).value;
      var d := Number(false, Undec(digits) * m.0, m.1 - 0);
      assert Parse(digits + suffix) == Some(d);
      Distribute(Undec(digits), m.0, Power(m.1));
      assert Value(d) == ((Undec(digits) * m.0) as real) * Power(m.1);
    }
  }
}
