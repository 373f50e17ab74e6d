/** Spreadsheet cell values as the report reader delivers them, and pandas'
    `to_numeric(..., errors='coerce')` over them. */
module Cells {
  import opened Options
  import opened Strings

  /** A cell holds a number or a text; an empty cell reads as the empty text. */
  datatype Cell = Number(value: real) | Text(text: string)

  /** The text after an optional leading minus sign. */
  function Unsigned(t: string): (body: string)
    ensures |t| > 0 && t[0] == '-' ==> body == t[1..]
    ensures !(|t| > 0 && t[0] == '-') ==> body == t
  {
    if |t| > 0 && t[0] == '-' then t[1..] else t
  }

  /** An unsigned decimal numeral: digits and at most one decimal point, with
      at least one digit (`12`, `9.6`, `.5`, `5.`). */
  predicate NumeralBody(body: string) {
    && (forall i :: 0 <= i < |body| ==> IsDigit(body[i]) || body[i] == '.')
    && (forall i, j :: 0 <= i < j < |body| && body[i] == '.' ==> body[j] != '.')
    && (exists i :: 0 <= i < |body| && IsDigit(body[i]))
  }

  /** A text `to_numeric` reads as a number: an optional `-`, then a numeral. */
  predicate IsNumeral(t: string) {
    NumeralBody(Unsigned(t))
  }

  /** The digits before the decimal point (all of them when there is none). */
  function WholePart(body: string): string {
    match Find(body, ".")
    case None => body
    case Some(d) => body[..d]
  }

  /** The digits after the decimal point (none when there is no point). */
  function FractionPart(body: string): string {
    match Find(body, ".")
    case None => ""
    case Some(d) => body[d + 1..]
  }

  /** Splitting at the first point yields two digit strings, not both empty,
      exactly when the text is a numeral. */
  lemma NumeralParts(body: string)
    ensures NumeralBody(body) <==>
      |WholePart(body)| + |FractionPart(body)| > 0 && AllDigits(WholePart(body)) && AllDigits(FractionPart(body))
  {
    var whole := WholePart(body);
    var fraction := FractionPart(body);
    forall j: nat ensures OccursAt(body, ".", j) <==> j < |body| && body[j] == '.' {
      OccursChar(body, '.', j);
    }
    match Find(body, ".")
    case None =>
      assert forall j :: 0 <= j < |body| ==> body[j] != '.' by {
        forall j | 0 <= j < |body| ensures body[j] != '.' {
          assert !OccursAt(body, ".", j);
        }
      }
      if AllDigits(body) && |body| > 0 {
        assert IsDigit(body[0]);
      }
    case Some(d) =>
      assert body[d] == '.';
      assert forall j :: 0 <= j < d ==> body[j] != '.' by {
        forall j | 0 <= j < d ensures body[j] != '.' {
          assert !OccursAt(body, ".", j);
        }
      }
      assert forall k :: 0 <= k < |whole| ==> whole[k] == body[k];
      assert forall k :: 0 <= k < |fraction| ==> fraction[k] == body[d + 1 + k];
      if NumeralBody(body) {
        assert AllDigits(fraction) by {
          forall k | 0 <= k < |fraction| ensures IsDigit(fraction[k]) {
            assert body[d + 1 + k] != '.';
          }
        }
        var i :| 0 <= i < |body| && IsDigit(body[i]);
        assert i < d || i > d;
      }
      if |whole| + |fraction| > 0 && AllDigits(whole) && AllDigits(fraction) {
        assert forall k :: 0 <= k < |body| && k != d ==> IsDigit(body[k]) by {
          forall k | 0 <= k < |body| && k != d ensures IsDigit(body[k]) {
            if k < d {
              assert whole[k] == body[k];
            } else {
              assert fraction[k - d - 1] == body[k];
            }
          }
        }
        if |whole| > 0 {
          assert IsDigit(body[0]);
        } else {
          assert IsDigit(body[d + 1]);
        }
      }
  }

  /** `f` shifted `n` places right of the decimal point: `f / 10^n`. */
  function Shift(f: nat, n: nat): real {
    if n == 0 then f as real else Shift(f, n - 1) / 10.0
  }

  /** Shifting `n` places divides by `10^n`: scaling back up restores `f`. */
  lemma {:induction false} ShiftScales(f: nat, n: nat)
    ensures Shift(f, n) * Pow10(n) as real == f as real
  {
    if n > 0 {
      ShiftScales(f, n - 1);
      assert Shift(f, n) * 10.0 == Shift(f, n - 1);
    }
  }

  /** The value of a numeral with whole part `w` and `n` fraction digits
      spelling `f`. */
  function Magnitude(w: nat, f: nat, n: nat): real {
    w as real + Shift(f, n)
  }

  /** `m`, negated when the numeral carries a minus sign. */
  function Signed(negative: bool, m: real): real {
    if negative then -m else m
  }

  /** A decimal numeral `[-]digits[.digits]`; anything else is not a number. */
  function ParseDecimal(t: string): (r: Option<real>)
    ensures r.Some? <==> IsNumeral(t)
  {
    var body := Unsigned(t);
    var whole := WholePart(body);
    var fraction := FractionPart(body);
    NumeralParts(body);
    if |whole| + |fraction| == 0 || !AllDigits(whole) || !AllDigits(fraction) then None
    else
      var magnitude := Magnitude(Value(whole), Value(fraction), |fraction|);
      Some(Signed(|t| > 0 && t[0] == '-', magnitude))
  }

  /** A text of digits and at most one point, holding a digit, where only
      the first character may instead be a minus sign. */
  predicate NumeralText(t: string) {
    && |t| > 0
    && (forall i :: 0 <= i < |t| ==> IsDigit(t[i]) || t[i] == '.' || (i == 0 && t[i] == '-'))
    && (forall i, j :: 0 <= i < j < |t| && t[i] == '.' ==> t[j] != '.')
    && (exists i :: 0 <= i < |t| && IsDigit(t[i]))
  }

  lemma NumeralIsText(t: string)
    requires IsNumeral(t)
    ensures NumeralText(t)
  {
    var body := Unsigned(t);
    var o := |t| - |body|;
    assert forall k :: 0 <= k < |body| ==> body[k] == t[k + o];
    var d :| 0 <= d < |body| && IsDigit(body[d]);
    assert IsDigit(t[d + o]);
    forall i | 0 <= i < |t| && !(i == 0 && t[i] == '-') ensures IsDigit(t[i]) || t[i] == '.' {
      assert body[i - o] == t[i];
    }
    forall i, j | 0 <= i < j < |t| && t[i] == '.' ensures t[j] != '.' {
      assert body[i - o] == t[i] && body[j - o] == t[j];
    }
  }

  lemma TextIsNumeral(t: string)
    requires NumeralText(t)
    ensures IsNumeral(t)
  {
    var body := Unsigned(t);
    var o := |t| - |body|;
    assert forall k :: 0 <= k < |body| ==> body[k] == t[k + o];
    var d :| 0 <= d < |t| && IsDigit(t[d]);
    assert IsDigit(body[d - o]);
    forall k | 0 <= k < |body| ensures IsDigit(body[k]) || body[k] == '.' {
      assert t[k + o] == body[k];
    }
  }

  /** Exactly the texts made of digits and at most one point, with at least
      one digit, where only the first character may instead be a minus sign,
      are read as numbers. */
  lemma AcceptedTexts(t: string)
    ensures ParseDecimal(t).Some? <==> NumeralText(t)
  {
    if IsNumeral(t) {
      NumeralIsText(t);
    }
    if NumeralText(t) {
      TextIsNumeral(t);
    }
  }

  /** A signed text whose unsigned part splits into the digit strings
      `whole` and `fraction` reads as their signed magnitude. */
  lemma ParseOfParts(negative: bool, body: string, whole: string, fraction: string)
    requires |body| > 0 && body[0] != '-'
    requires WholePart(body) == whole && FractionPart(body) == fraction
    requires |whole| + |fraction| > 0 && AllDigits(whole) && AllDigits(fraction)
    ensures var m := Magnitude(Value(whole), Value(fraction), |fraction|);
      ParseDecimal((if negative then "-" else "") + body) == Some(Signed(negative, m))
  {
    var t := (if negative then "-" else "") + body;
    assert Unsigned(t) == body;
    assert (|t| > 0 && t[0] == '-') == negative;
  }

  /** The numeric reading of a cell: numbers stay, numeral texts are parsed,
      every other text becomes NaN (`None`). */
  function ToNumber(c: Cell): (r: Option<real>)
    ensures c.Number? ==> r == Some(c.value)
    ensures c.Text? ==> r == ParseDecimal(c.text)
  {
    match c
    case Number(v) => Some(v)
    case Text(t) => ParseDecimal(t)
  }

  /** A digit string, after a minus sign when `negative`, reads as the
      signed whole number it spells. */
  lemma ParseWhole(negative: bool, digits: string)
    requires |digits| > 0 && AllDigits(digits)
    ensures ParseDecimal((if negative then "-" else "") + digits) == Some(Signed(negative, Value(digits) as real))
  {
    assert digits[0] != '-' by { assert IsDigit(digits[0]); }
    assert WholePart(digits) == digits && FractionPart(digits) == "" by {
      DigitsHaveNoDot(digits);
    }
    ParseOfParts(negative, digits, digits, "");
    assert Magnitude(Value(digits), Value(""), 0) == Value(digits) as real;
  }

  /** Digits, a point and digits read as `whole + fraction / 10^n` for `n`
      fraction digits, negated after a minus sign; either side may be empty,
      but not both. */
  lemma ParseFraction(negative: bool, whole: string, fraction: string)
    requires |whole| + |fraction| > 0 && AllDigits(whole) && AllDigits(fraction)
    ensures ParseDecimal((if negative then "-" else "") + (whole + "." + fraction))
      == Some(Signed(negative, Magnitude(Value(whole), Value(fraction), |fraction|)))
  {
    var body := whole + "." + fraction;
    var k := |whole|;
    assert body[0] != '-' by {
      if k > 0 { assert body[0] == whole[0] && IsDigit(whole[0]); } else { assert body[0] == '.'; }
    }
    assert WholePart(body) == whole && FractionPart(body) == fraction by {
      OccursChar(body, '.', k);
      forall j: nat | j < k ensures !OccursAt(body, ".", j) {
        OccursChar(body, '.', j);
        assert body[j] == whole[j] && IsDigit(whole[j]);
      }
      FindAt(body, ".", k);
    }
    ParseOfParts(negative, body, whole, fraction);
  }

  /** A reading at the report's scale: `9.6`. */
  lemma ParseExampleFraction()
    ensures ParseDecimal("9.6") == Some(9.6)
  {
    var nine, six := "9", "6";
    assert Value(nine) == 9 && Value(six) == 6;
    assert Magnitude(9, 6, 1) == 9.6;
    ParseFraction(false, nine, six);
    assert "" + (nine + "." + six) == "9.6";
  }

  /** A negative reading below one: `-0.5`. */
  lemma ParseExampleNegative()
    ensures ParseDecimal("-0.5") == Some(-0.5)
  {
    var zero, five := "0", "5";
    assert Value(zero) == 0 && Value(five) == 5;
    ParseFraction(true, zero, five);
    assert "-" + (zero + "." + five) == "-0.5";
  }

  /** A whole reading: `12`. */
  lemma ParseExampleWhole()
    ensures ParseDecimal("12") == Some(12.0)
  {
    var twelve := "12";
    assert Value(twelve) == 12 by { assert twelve[..1] == "1"; }
    ParseWhole(false, twelve);
    assert "" + twelve == "12";
  }

  /** Blank cells, and texts such as the "Sum" sentinel, are not numbers. */
  lemma NonNumeralsAreNaN()
    ensures ToNumber(Text("")) == None
    ensures ToNumber(Text("Sum")) == None
  {
    assert !IsDigit('S') && !IsDigit('u') && !IsDigit('m');
  }
}
