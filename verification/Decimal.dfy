/** Decimal text of numbers, as the formatter writes it and the parser reads it. */
module Decimal {
  import opened Common

  predicate IsDigit(c: char) { '0' <= c <= '9' }

  function DigitChar(d: nat): char
    requires d < 10
  {
    '0' + d as char
  }

  function Digits(n: nat): (s: string)
    ensures s != ""
    ensures forall i :: 0 <= i < |s| ==> IsDigit(s[i])
  {
    if n < 10 then [DigitChar(n)] else Digits(n / 10) + [DigitChar(n % 10)]
  }

  /** The number a string of digits spells; nothing on an empty string or on other characters. */
  function Value(s: string): Option<nat> {
    if s == "" then None
    else if !IsDigit(s[|s| - 1]) then None
    else
      var last := s[|s| - 1] as nat - '0' as nat;
      if |s| == 1 then Some(last)
      else
        match Value(s[..|s| - 1])
        case None => None
        case Some(v) => Some(10 * v + last)
  }

  lemma {:induction false} ValueOfDigits(n: nat)
    ensures Value(Digits(n)) == Some(n)
    decreases n
  {
    if n >= 10 {
      ValueOfDigits(n / 10);
      var s := Digits(n);
      assert s[..|s| - 1] == Digits(n / 10);
    }
  }

  /** Zero-padded to three characters. */
  function Padded(n: nat): string {
    var s := Digits(n);
    if |s| == 1 then "00" + s else if |s| == 2 then "0" + s else s
  }

  lemma {:induction false} LeadingZero(s: string)
    requires Value(s).Some?
    ensures Value("0" + s) == Value(s)
  {
    var z := "0" + s;
    assert z[|z| - 1] == s[|s| - 1];
    if |s| == 1 {
      assert z[..1] == "0";
      assert Value("0") == Some(0);
    } else {
      LeadingZero(s[..|s| - 1]);
      assert z[..|z| - 1] == "0" + s[..|s| - 1];
    }
  }

  lemma ValueOfPadded(n: nat)
    ensures Value(Padded(n)) == Some(n)
  {
    var s := Digits(n);
    ValueOfDigits(n);
    LeadingZero(s);
    LeadingZero("0" + s);
    assert "00" + s == "0" + ("0" + s);
  }

  const I32_MIN: int := -0x8000_0000
  const I32_MAX: int := 0x7FFF_FFFF

  function FormatI32(x: int): string {
    if x < 0 then "-" + Digits(-x) else Digits(x)
  }

  /** Optional sign, then digits, within range. */
  function ParseI32(s: string): Option<int> {
    if s == "" then None
    else
      var signed := s[0] == '+' || s[0] == '-';
      match Value(if signed then s[1..] else s)
      case None => None
      case Some(v) =>
        var x: int := if s[0] == '-' then 0 - v as int else v;
        if I32_MIN <= x <= I32_MAX then Some(x) else None
  }

  lemma I32RoundTrip(x: int)
    requires I32_MIN <= x <= I32_MAX
    ensures ParseI32(FormatI32(x)) == Some(x)
  {
    ValueOfDigits(if x < 0 then -x else x);
    if x < 0 {
      assert ("-" + Digits(-x))[1..] == Digits(-x);
    } else {
      assert IsDigit(Digits(x)[0]);
    }
  }

  /** A plus sign changes nothing, and exactly the numbers of 32 bits are taken. */
  lemma ParseI32Form(n: nat)
    ensures ParseI32("+" + Digits(n)) == ParseI32(Digits(n)) == if n <= 2_147_483_647 then Some(n) else None
    ensures ParseI32("-" + Digits(n)) == if n <= 2_147_483_648 then Some(0 - n as int) else None
    ensures ParseI32("") == None && ParseI32("+") == None && ParseI32("-") == None
  {
    assert Value("") == None && ("+")[1..] == "" && ("-")[1..] == "";
    hide Value, Digits;
    ValueOfDigits(n);
    var d := Digits(n);
    assert ("+" + d)[1..] == d && ("-" + d)[1..] == d && IsDigit(d[0]);
  }
}
