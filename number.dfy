/**
  `Number(string)` of JavaScript (the StringToNumber conversion of ECMA-262,
  section 7.1.4.1.1), reduced to what the age check asks of it: whether the
  result is NaN, greater than 0, or not greater than 0. `isNaN(s)` converts
  its argument with the same `Number(s)`, so one conversion answers both
  halves of the check.
 */
module JsNumber {
  import opened Wrappers
  import opened Text

  /** What the age check distinguishes of `Number(s)`. */
  datatype NumberClass = NotANumber | Positive | NotPositive

  /** A StringNumericLiteral by its mathematical value. */
  datatype Literal =
    | Infinite(negative: bool)
      /** (-1)^negative * digits * 10^scale */
    | Decimal(negative: bool, digits: nat, scale: int)
      /** a `0x`, `0o` or `0b` integer, which carries no sign */
    | NonDecimal(value: nat)

  predicate IsRadix(radix: nat)
  {
    radix == 2 || radix == 8 || radix == 10 || radix == 16
  }

  predicate IsDigitOf(c: char, radix: nat)
  {
    if radix == 16 then '0' <= c <= '9' || 'a' <= c <= 'f' || 'A' <= c <= 'F'
    else '0' <= c <= '9' && (c as int) - ('0' as int) < radix
  }

  predicate AllDigitsOf(s: string, radix: nat)
  {
    forall i | 0 <= i < |s| :: IsDigitOf(s[i], radix)
  }

  function DigitValue(c: char): (v: nat)
    ensures IsDigitOf(c, 16) ==> (v == 0 <==> c == '0')
  {
    if '0' <= c <= '9' then (c as int) - ('0' as int)
    else if 'a' <= c <= 'f' then (c as int) - ('a' as int) + 10
    else if 'A' <= c <= 'F' then (c as int) - ('A' as int) + 10
    else 0
  }

  /** The value of a digit string in the given radix; it is zero exactly
      when every digit is `0`. */
  function ValueOf(s: string, radix: nat): (v: nat)
    requires IsRadix(radix) && AllDigitsOf(s, radix)
    ensures v == 0 <==> forall i | 0 <= i < |s| :: s[i] == '0'
  {
    if s == [] then 0
    else
      var init := ValueOf(s[..|s| - 1], radix);
      var last := DigitValue(s[|s| - 1]);
      assert init * radix + last == 0 <==> init == 0 && last == 0 by {
        assert init * radix >= init;
      }
      init * radix + last
  }

  function Pow(base: nat, exponent: nat): (p: nat)
    ensures base > 0 ==> p > 0
  {
    if exponent == 0 then 1 else base * Pow(base, exponent - 1)
  }

  /** The index of the first `c1` or `c2` in `s`, or `|s|` if there is none. */
  function IndexOf(s: string, c1: char, c2: char): (k: nat)
    ensures k <= |s|
    ensures forall i | 0 <= i < k :: s[i] != c1 && s[i] != c2
    ensures k < |s| ==> s[k] == c1 || s[k] == c2
  {
    if s == [] then 0
    else if s[0] == c1 || s[0] == c2 then 0
    else 1 + IndexOf(s[1..], c1, c2)
  }

  /** The index of the first `c` in `s`, or `|s|` if there is none. */
  function IndexOfChar(s: string, c: char): (k: nat)
    ensures k <= |s|
    ensures forall i | 0 <= i < k :: s[i] != c
    ensures k < |s| ==> s[k] == c
  {
    if s == [] then 0
    else if s[0] == c then 0
    else 1 + IndexOfChar(s[1..], c)
  }

  /** SignedInteger: an optional sign and one or more decimal digits. */
  function ParseExponent(s: string): Option<int>
  {
    if s != [] && (s[0] == '+' || s[0] == '-') then
      var body := s[1..];
      if body != [] && AllDigitsOf(body, 10) then
        var magnitude: int := ValueOf(body, 10);
        Some(if s[0] == '-' then -magnitude else magnitude)
      else None
    else if s != [] && AllDigitsOf(s, 10) then Some(ValueOf(s, 10))
    else None
  }

  /** `DecimalDigits`, `DecimalDigits . DecimalDigits?` or `. DecimalDigits`:
      the value of all its digits and the number of them after the point. */
  function ParseMantissa(m: string): Option<(nat, nat)>
  {
    var p := IndexOfChar(m, '.');
    if p == |m| then
      if m != [] && AllDigitsOf(m, 10) then Some((ValueOf(m, 10), 0)) else None
    else
      var whole, fraction := m[..p], m[p + 1..];
      if (whole != [] || fraction != []) && AllDigitsOf(whole, 10) && AllDigitsOf(fraction, 10) then
        assert AllDigitsOf(whole + fraction, 10) by {
          forall i | 0 <= i < |whole + fraction|
            ensures IsDigitOf((whole + fraction)[i], 10)
          {
            if i >= |whole| {
              assert (whole + fraction)[i] == fraction[i - |whole|];
            }
          }
        }
        Some((ValueOf(whole + fraction, 10), |fraction|))
      else None
  }

  /** StrUnsignedDecimalLiteral: `Infinity`, or a mantissa with an optional
      exponent part introduced by `e` or `E`. */
  function ParseUnsignedDecimal(u: string, negative: bool): (r: Option<Literal>)
    ensures r.Some? ==> !r.value.NonDecimal? && r.value.negative == negative
  {
    if u == "Infinity" then Some(Infinite(negative))
    else
      var e := IndexOf(u, 'e', 'E');
      match ParseMantissa(u[..e])
      case None => None
      case Some((digits, fractionLength)) =>
        if e == |u| then Some(Decimal(negative, digits, 0 - fractionLength))
        else
          match ParseExponent(u[e + 1..])
          case None => None
          case Some(exponent) => Some(Decimal(negative, digits, exponent - fractionLength))
  }

  /** The radix announced by a `0x`, `0o` or `0b` prefix (either case), or 0. */
  function PrefixRadix(t: string): (radix: nat)
    ensures radix == 0 || IsRadix(radix)
  {
    if |t| < 2 || t[0] != '0' then 0
    else if t[1] == 'x' || t[1] == 'X' then 16
    else if t[1] == 'o' || t[1] == 'O' then 8
    else if t[1] == 'b' || t[1] == 'B' then 2
    else 0
  }

  /** StrNumericLiteral: a non-decimal integer literal, or a decimal literal
      with an optional `+` or `-`. */
  function ParseLiteral(t: string): Option<Literal>
  {
    var radix := PrefixRadix(t);
    if radix != 0 then
      var ds := t[2..];
      if ds != [] && AllDigitsOf(ds, radix) then Some(NonDecimal(ValueOf(ds, radix))) else None
    else if t != [] && (t[0] == '+' || t[0] == '-') then ParseUnsignedDecimal(t[1..], t[0] == '-')
    else ParseUnsignedDecimal(t, false)
  }

  /** StringToNumber: surrounding whitespace is ignored and a blank string
      converts to 0; `None` stands for NaN. A negative value needs a
      written `-`, and a non-decimal integer a leading `0` and its prefix. */
  function StringToNumber(s: string): (n: Option<Literal>)
    ensures IsBlank(s) ==> n == Some(Decimal(false, 0, 0))
    ensures n.Some? && !n.value.NonDecimal? && n.value.negative ==> Trim(s)[0] == '-'
    ensures n.Some? && n.value.NonDecimal? ==> |Trim(s)| > 2 && Trim(s)[0] == '0' && Trim(s)[1] in "xXoObB"
  {
    var t := Trim(s);
    if t == [] then Some(Decimal(false, 0, 0)) else ParseLiteral(t)
  }

  /** The Number nearest to `digits * 10^scale` is not zero. With IEEE 754
      round-to-nearest, ties-to-even, every value up to and including
      2^-1075 (half the smallest subnormal) rounds to zero. */
  predicate RoundsAboveZero(digits: nat, scale: int)
  {
    if scale >= 0 then digits > 0
    else digits * Pow(2, 1075) > Pow(10, -scale)
  }

  /** The class of `Number(s)`: NaN exactly when the conversion fails, and
      never greater than 0 for a blank string. */
  function Classify(s: string): (c: NumberClass)
    ensures c == NotANumber <==> StringToNumber(s).None?
    ensures c == Positive ==> !IsBlank(s)
  {
    match StringToNumber(s)
    case None => NotANumber
    case Some(Infinite(negative)) => if negative then NotPositive else Positive
    case Some(Decimal(negative, digits, scale)) =>
      if !negative && RoundsAboveZero(digits, scale) then Positive else NotPositive
    case Some(NonDecimal(value)) => if value > 0 then Positive else NotPositive
  }

  /** A string of decimal digits is a number, and it is greater than 0
      exactly when one of its digits is not `0`. */
  lemma DecimalDigitsClassify(s: string)
    requires s != [] && AllDigitsOf(s, 10)
    ensures Classify(s) != NotANumber
    ensures Classify(s) == Positive <==> exists i | 0 <= i < |s| :: s[i] != '0'
  {
    assert !IsSpace(s[0]) && !IsSpace(s[|s| - 1]);
    TrimOfTrimmed(s);
    assert PrefixRadix(s) == 0;
    assert s != "Infinity" by {
      assert "Infinity"[0] == 'I';
    }
    assert forall i | 0 <= i < |s| :: s[i] != 'e' && s[i] != 'E' && s[i] != '.';
    var e := IndexOf(s, 'e', 'E');
    assert e == |s|;
    assert s[..e] == s;
    assert IndexOfChar(s, '.') == |s|;
    assert ParseMantissa(s) == Some((ValueOf(s, 10), 0));
    assert StringToNumber(s) == Some(Decimal(false, ValueOf(s, 10), 0));
  }

  /** A blank string converts to 0, so it is not greater than 0. */
  lemma BlankIsNotPositive(s: string)
    requires IsBlank(s)
    ensures Classify(s) == NotPositive
  {
  }

  /** A literal written with a leading `-` is never greater than 0. */
  lemma MinusSignIsNotPositive(s: string)
    requires Trim(s) != [] && Trim(s)[0] == '-'
    ensures Classify(s) != Positive
  {
    var t := Trim(s);
    assert PrefixRadix(t) == 0;
    var n := ParseUnsignedDecimal(t[1..], true);
    assert n.Some? ==> n.value.Infinite? || n.value.Decimal?;
    assert n.Some? && n.value.Infinite? ==> n.value.negative;
    assert n.Some? && n.value.Decimal? ==> n.value.negative;
  }

  /** A string whose first non-whitespace character cannot begin a numeric
      literal (a digit, `.`, `+`, `-` or the `I` of `Infinity`) is NaN. */
  lemma BadLeadIsNotANumber(s: string)
    requires Trim(s) != []
    requires var c := Trim(s)[0]; !IsDigitOf(c, 10) && c != '.' && c != '+' && c != '-' && c != 'I'
    ensures Classify(s) == NotANumber
  {
    var t := Trim(s);
    assert PrefixRadix(t) == 0;
    assert t != "Infinity";
    var e := IndexOf(t, 'e', 'E');
    var m := t[..e];
    if e > 0 {
      assert m[0] == t[0];
      var p := IndexOfChar(m, '.');
      assert p > 0;
      assert !AllDigitsOf(m[..p], 10) by {
        assert m[..p][0] == t[0];
      }
      if p == |m| {
        assert !AllDigitsOf(m, 10) by {
          assert m[0] == t[0];
        }
      }
    }
    assert ParseMantissa(m) == None;
  }
}
