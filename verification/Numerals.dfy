/** Decimal numerals, written and read. */
module Numerals {
  import opened Wrappers

  function Digit(d: nat): char
    requires d < 10
  {
    "0123456789"[d]
  }

  /** `to_string` of an unsigned number. */
  function Decimal(n: nat): (s: string)
    ensures s != []
  {
    if n < 10 then [Digit(n)] else Decimal(n / 10) + [Digit(n % 10)]
  }

  /** The value of a string of digits; the empty string counts as zero. */
  function DigitsValue(s: string): (v: Option<nat>) {
    if s == "" then Some(0)
    else
      var front := DigitsValue(s[..|s| - 1]);
      var c := s[|s| - 1];
      if front.None? || !('0' <= c <= '9') then None else Some(10 * front.value + (c as int - '0' as int))
  }

  /** `str::parse::<usize>`: an optional `+`, then digits, within 64 bits. */
  function ParseUsize(s: string): (v: Option<nat>) {
    var digits := if s != "" && s[0] == '+' then s[1..] else s;
    var value := DigitsValue(digits);
    if digits == "" || value.None? || value.value >= 0x1_0000_0000_0000_0000 then None else value
  }

  lemma DigitIs(d: nat)
    requires d < 10
    ensures '0' <= Digit(d) <= '9' && Digit(d) as int - '0' as int == d
  {
  }

  lemma QuotientAndRest(n: nat)
    ensures n == 10 * (n / 10) + n % 10 && n % 10 < 10 && (n >= 10 ==> n / 10 < n)
  {
  }

  lemma DigitsSnoc(s: string)
    requires s != ""
    ensures var front, c := DigitsValue(s[..|s| - 1]), s[|s| - 1];
            DigitsValue(s) ==
            if front.None? || !('0' <= c <= '9') then None else Some(10 * front.value + (c as int - '0' as int))
  {
  }

  /** One digit more. */
  lemma DigitsGrow(front: string, c: char)
    requires DigitsValue(front).Some? && '0' <= c <= '9'
    ensures DigitsValue(front + [c]) == Some(10 * DigitsValue(front).value + (c as int - '0' as int))
  {
    hide DigitsValue;
    var s := front + [c];
    assert s[..|s| - 1] == front && s[|s| - 1] == c;
    DigitsSnoc(s);
  }

  lemma {:induction false} DecimalReads(n: nat)
    ensures DigitsValue(Decimal(n)) == Some(n)
    ensures forall i :: 0 <= i < |Decimal(n)| ==> '0' <= Decimal(n)[i] <= '9'
  {
    hide Digit, DigitsValue;
    QuotientAndRest(n);
    DigitIs(n % 10);
    if n < 10 {
      NoDigits();
      DigitsGrow("", Digit(n));
      assert "" + [Digit(n)] == [Digit(n)];
    } else {
      DecimalReads(n / 10);
      DigitsGrow(Decimal(n / 10), Digit(n % 10));
    }
  }

  lemma NoDigits()
    ensures DigitsValue("") == Some(0)
  {
  }

  // ----- what is parsed -------------------------------------------------------------------------------

  function Zeros(z: nat): string {
    seq(z, _ => '0')
  }

  /** The text writes `n`: an optional sign, zeros, and the numeral. */
  ghost predicate WritesNumber(s: string, sign: bool, z: nat, n: nat) {
    s == (if sign then "+" else "") + (Zeros(z) + Decimal(n))
  }

  lemma {:induction false} ZerosAddNothing(z: nat, t: string)
    ensures DigitsValue(Zeros(z) + t) == DigitsValue(t)
    decreases z + |t|
  {
    hide DigitsValue;
    var s := Zeros(z) + t;
    NoDigits();
    if t != "" {
      assert s[..|s| - 1] == Zeros(z) + t[..|t| - 1] && s[|s| - 1] == t[|t| - 1];
      ZerosAddNothing(z, t[..|t| - 1]);
      DigitsSnoc(s);
      DigitsSnoc(t);
    } else if z > 0 {
      assert s[..|s| - 1] == Zeros(z - 1) + t && s[|s| - 1] == '0';
      ZerosAddNothing(z - 1, t);
      DigitsSnoc(s);
    } else {
      assert s == "";
    }
  }

  lemma OneDigit(c: char)
    requires '0' <= c <= '9'
    ensures Decimal(c as int - '0' as int) == [c]
  {
    DigitIs(c as int - '0' as int);
  }

  lemma MoreDigits(m: nat, c: char)
    requires m > 0 && '0' <= c <= '9'
    ensures Decimal(10 * m + (c as int - '0' as int)) == Decimal(m) + [c]
  {
    var d := c as int - '0' as int;
    DigitIs(d);
    assert (10 * m + d) / 10 == m && (10 * m + d) % 10 == d;
  }

  /** Digits are zeros and a numeral. */
  lemma {:induction false} DigitsAreNumeral(s: string) returns (z: nat)
    requires s != "" && DigitsValue(s).Some?
    ensures s == Zeros(z) + Decimal(DigitsValue(s).value)
  {
    hide Decimal, DigitsValue;
    var front, c := s[..|s| - 1], s[|s| - 1];
    DigitsSnoc(s);
    NoDigits();
    z := 0;
    if front == "" {
      OneDigit(c);
      assert s == Zeros(0) + [c];
    } else {
      z := DigitsAreNumeral(front);
      var m := DigitsValue(front).value;
      if m > 0 {
        MoreDigits(m, c);
        assert s == Zeros(z) + (Decimal(m) + [c]);
      } else {
        OneDigit('0');
        OneDigit(c);
        assert s == Zeros(z) + ['0'] + [c];
        assert Zeros(z) + ['0'] == Zeros(z + 1);
        z := z + 1;
      }
    }
  }

  /** A text is parsed as a number exactly if it writes it and the number fits 64 bits. */
  lemma ParsedIsWritten(s: string, n: nat)
    ensures ParseUsize(s) == Some(n) <==>
            n < 18446744073709551616 && exists sign: bool, z: nat :: WritesNumber(s, sign, z, n)
  {
    hide Decimal, DigitsValue;
    if ParseUsize(s) == Some(n) {
      var sign := s[0] == '+';
      var digits := if sign then s[1..] else s;
      var z := DigitsAreNumeral(digits);
      assert sign ==> s == "+" + s[1..];
      assert !sign ==> s == "" + s;
      assert WritesNumber(s, sign, z, n);
    }
    if n < 18446744073709551616 && exists sign: bool, z: nat :: WritesNumber(s, sign, z, n) {
      var sign: bool, z: nat :| WritesNumber(s, sign, z, n);
      var digits := Zeros(z) + Decimal(n);
      ZerosAddNothing(z, Decimal(n));
      DecimalReads(n);
      assert digits[0] != '+' by {
        assert digits[0] == if z > 0 then '0' else Decimal(n)[0];
      }
      if sign {
        assert s[0] == '+' && s[1..] == digits;
      } else {
        assert s == digits;
      }
    }
  }
}
