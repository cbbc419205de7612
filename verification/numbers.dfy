/** Decimal digit runs and the two number parsers the pages rely on:
    `int.TryParse` for order ids and `decimal.TryParse` for prices and
    quantities, both restricted to the invariant-culture ASCII forms. */
module Numbers {
  import opened Wrappers

  predicate IsDigit(c: char)
  {
    '0' <= c <= '9'
  }

  predicate AllDigits(s: string)
  {
    forall i :: 0 <= i < |s| ==> IsDigit(s[i])
  }

  function DigitValue(c: char): (d: nat)
    requires IsDigit(c)
    ensures d < 10
  {
    c as int - '0' as int
  }

  function DigitChar(d: nat): (c: char)
    requires d < 10
    ensures IsDigit(c) && DigitValue(c) == d
  {
    ('0' as int + d) as char
  }

  /** The value of a run of decimal digits, most significant first; the empty run is 0. */
  function DigitsValue(s: string): nat
    requires AllDigits(s)
  {
    if |s| == 0 then 0 else DigitsValue(s[..|s| - 1]) * 10 + DigitValue(s[|s| - 1])
  }

  /** The canonical decimal text of `n` (what `ToString()` prints for an
      integer): digits only, no leading zero, and it reads back as `n`. */
  function NatToString(n: nat): (r: string)
    ensures |r| > 0 && AllDigits(r)
    ensures r[0] != '0' || n == 0
    ensures DigitsValue(r) == n
  {
    if n < 10 then [DigitChar(n)]
    else
      var r := NatToString(n / 10) + [DigitChar(n % 10)];
      assert r[..|r| - 1] == NatToString(n / 10);
      r
  }

  /** The maximal leading run of digits of `s` (LINQ `TakeWhile(char.IsDigit)`). */
  function LeadingDigits(s: string): (r: string)
    ensures r <= s && AllDigits(r)
    ensures |r| == |s| || !IsDigit(s[|r|])
  {
    if |s| == 0 || !IsDigit(s[0]) then [] else [s[0]] + LeadingDigits(s[1..])
  }

  const Int32Min: int := -0x8000_0000
  const Int32Max: int := 0x7FFF_FFFF

  predicate IsSign(c: char)
  {
    c == '-' || c == '+'
  }

  /** `s` without its optional leading sign. */
  function Unsigned(s: string): string
  {
    if |s| > 0 && IsSign(s[0]) then s[1..] else s
  }

  function ApplySign(s: string, v: real): real
  {
    if |s| > 0 && s[0] == '-' then -v else v
  }

  /** The value an optional sign and a digit run spell: the digits' value,
      negated after a `-`. */
  function SignedValue(s: string): int
    requires AllDigits(Unsigned(s))
  {
    if |s| > 0 && s[0] == '-' then 0 - DigitsValue(Unsigned(s)) as int else DigitsValue(Unsigned(s))
  }

  /** `int.TryParse`: an optional sign followed by at least one digit, whose
      value fits in a 32-bit signed integer; the result is that value, so
      leading zeros do not count and `-` negates. */
  function ParseInt32(s: string): (r: Option<int>)
    ensures r.Some? ==> Int32Min <= r.value <= Int32Max
    ensures r.Some? ==> |Unsigned(s)| > 0 && AllDigits(Unsigned(s)) && r.value == SignedValue(s)
    ensures |Unsigned(s)| > 0 && AllDigits(Unsigned(s)) && Int32Min <= SignedValue(s) <= Int32Max ==> r.Some?
  {
    var body := Unsigned(s);
    if |body| == 0 || !AllDigits(body) then None
    else
      var v: int := if |s| > 0 && s[0] == '-' then 0 - DigitsValue(body) as int else DigitsValue(body);
      if Int32Min <= v <= Int32Max then Some(v) else None
  }

  /** The characters `decimal.TryParse` can accept in the forms modelled here. */
  predicate DecimalChar(c: char)
  {
    IsDigit(c) || c == '.' || IsSign(c)
  }

  /** `decimal.TryParse`: an optional sign, a run of integer digits, and an
      optional `.` followed by fraction digits, with at least one digit in all. */
  function ParseDecimal(s: string): Option<real>
  {
    var body := Unsigned(s);
    var whole := LeadingDigits(body);
    var after := body[|whole|..];
    if |after| == 0 then
      if |whole| == 0 then None
      else Some(ApplySign(s, DigitsValue(whole) as real))
    else if after[0] == '.' && AllDigits(after[1..]) && |whole| + |after| > 1 then
      Some(ApplySign(s, FractionValue(whole, after[1..])))
    else None
  }

  /** Only text made of digits, a point and a sign, holding at least one
      digit, parses as a decimal. */
  lemma ParseDecimalShape(s: string)
    requires ParseDecimal(s).Some?
    ensures forall i :: 0 <= i < |s| ==> DecimalChar(s[i])
    ensures exists i :: 0 <= i < |s| && IsDigit(s[i])
  {
    var body := Unsigned(s);
    var whole := LeadingDigits(body);
    var after := body[|whole|..];
    assert body == whole + after;
    if |after| == 0 {
      assert IsDigit(body[0]);
    } else {
      assert forall i :: 0 <= i < |body| ==> DecimalChar(body[i]);
      assert if |whole| > 0 then IsDigit(body[0]) else IsDigit(body[1]);
    }
    if |s| > 0 && IsSign(s[0]) {
      assert forall i :: 1 <= i < |s| ==> s[i] == body[i - 1];
      assert IsDigit(s[1]) || IsDigit(s[2]);
    }
  }

  /** The value of the fraction digits `frac` after a decimal point:
      "25" is 0.25. */
  function FracValue(frac: string): real
    requires AllDigits(frac)
  {
    if |frac| == 0 then 0.0 else (DigitValue(frac[0]) as real + FracValue(frac[1..])) / 10.0
  }

  /** The value of the decimal numeral `whole.frac`. */
  function FractionValue(whole: string, frac: string): real
    requires AllDigits(whole) && AllDigits(frac)
  {
    DigitsValue(whole) as real + FracValue(frac)
  }

  /** Every character a decimal can hold is ASCII. */
  lemma NonAsciiIsNotDecimal(c: char)
    requires c as int >= 0x80
    ensures !DecimalChar(c)
  {
  }

  /** Text holding a character other than a digit, a point or a sign does not parse. */
  lemma ParseDecimalRejects(s: string, i: int)
    requires 0 <= i < |s| && !DecimalChar(s[i])
    ensures ParseDecimal(s).None?
  {
    if ParseDecimal(s).Some? {
      ParseDecimalShape(s);
    }
  }

  /** The decimal text of a natural number reads back as that number. */
  lemma ParseInt32OfNat(n: nat)
    requires n <= Int32Max
    ensures ParseInt32(NatToString(n)) == Some(n)
  {
  }

  /** The decimal text of a negative number down to `Int32Min`, written with
      a leading `-`, reads back as that number. */
  lemma ParseInt32OfNegative(n: nat)
    requires 0 < n <= -Int32Min
    ensures ParseInt32("-" + NatToString(n)) == Some(0 - n as int)
  {
    assert Unsigned("-" + NatToString(n)) == NatToString(n);
  }

  /** A leading zero does not change the value of a digit run. */
  lemma {:induction false} DigitsValueOfLeadingZero(s: string)
    requires AllDigits(s)
    ensures AllDigits("0" + s) && DigitsValue("0" + s) == DigitsValue(s)
  {
    if |s| > 0 {
      DigitsValueOfLeadingZero(s[..|s| - 1]);
      assert ("0" + s)[..|s|] == "0" + s[..|s| - 1];
    }
  }

  /** Zeros in front of the canonical text of `n` are ignored: "007" reads as 7. */
  lemma {:induction false} ParseInt32OfPaddedNat(zeros: nat, n: nat)
    requires n <= Int32Max
    ensures ParseInt32(Zeros(zeros) + NatToString(n)) == Some(n)
  {
    PaddedValue(zeros, NatToString(n));
    var s := Zeros(zeros) + NatToString(n);
    assert !IsSign(s[0]);
  }

  /** A run of `k` zero digits. */
  function Zeros(k: nat): (r: string)
    ensures |r| == k && forall i :: 0 <= i < k ==> r[i] == '0'
  {
    if k == 0 then [] else "0" + Zeros(k - 1)
  }

  lemma {:induction false} PaddedValue(zeros: nat, s: string)
    requires AllDigits(s)
    ensures AllDigits(Zeros(zeros) + s) && DigitsValue(Zeros(zeros) + s) == DigitsValue(s)
  {
    if zeros > 0 {
      var rest := Zeros(zeros - 1) + s;
      PaddedValue(zeros - 1, s);
      DigitsValueOfLeadingZero(rest);
      assert Zeros(zeros) == "0" + Zeros(zeros - 1);
      assert Zeros(zeros) + s == "0" + rest;
    } else {
      assert Zeros(zeros) + s == s;
    }
  }

  /** A plain run of digits parses as a decimal to its digit value. */
  lemma {:induction false} ParseDecimalOfDigits(s: string)
    requires |s| > 0 && AllDigits(s)
    ensures ParseDecimal(s) == Some(DigitsValue(s) as real)
  {
    LeadingDigitsOfDigits(s);
  }

  /** A digit run followed by `.` and a digit run parses to the fraction it spells. */
  lemma ParseDecimalOfFraction(w: string, f: string)
    requires |w| > 0 && AllDigits(w) && AllDigits(f)
    ensures ParseDecimal(w + ("." + f)) == Some(FractionValue(w, f))
  {
    var s := w + ("." + f);
    assert !IsSign(s[0]);
    assert Unsigned(s) == s;
    LeadingDigitsOfDigitsThen(w, "." + f);
    var after := s[|w|..];
    assert after == "." + f;
    assert after[1..] == f;
  }

  lemma {:induction false} LeadingDigitsOfDigits(s: string)
    requires AllDigits(s)
    ensures LeadingDigits(s) == s
  {
    if |s| > 0 {
      LeadingDigitsOfDigits(s[1..]);
    }
  }

  /** The digit run in front of a non-digit is exactly the leading digits. */
  lemma {:induction false} LeadingDigitsOfDigitsThen(w: string, rest: string)
    requires AllDigits(w)
    requires |rest| == 0 || !IsDigit(rest[0])
    ensures LeadingDigits(w + rest) == w
  {
    if |w| > 0 {
      assert (w + rest)[1..] == w[1..] + rest;
      LeadingDigitsOfDigitsThen(w[1..], rest);
    }
  }
}
