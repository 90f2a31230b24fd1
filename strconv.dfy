/**
 * The decimal parsing that `applyConfigWithErr` relies on: Go's
 * `strconv.Atoi` on a 64-bit platform, and its inverse `strconv.Itoa`.
 */
module Strconv {
  import opened Wrappers

  /** Go's `int` is 64 bits wide on the platforms the program targets. */
  const IntMin: int := -0x8000_0000_0000_0000
  const IntMax: int := 0x7fff_ffff_ffff_ffff

  predicate IsDigit(c: char) {
    '0' <= c <= '9'
  }

  predicate AllDigits(s: string) {
    forall i :: 0 <= i < |s| ==> IsDigit(s[i])
  }

  function DigitValue(c: char): (d: nat)
    requires IsDigit(c)
    ensures d < 10
  {
    c as int - '0' as int
  }

  function DigitChar(d: nat): (c: char)
    requires d < 10
    ensures IsDigit(c) && DigitValue(c) == d
  {
    ('0' as int + d) as char
  }

  /** The value of a string of decimal digits, most significant digit first. */
  function DigitsValue(s: string): nat
    requires AllDigits(s)
  {
    if s == [] then 0 else DigitsValue(s[..|s| - 1]) * 10 + DigitValue(s[|s| - 1])
  }

  /** The sign `strconv.Atoi` accepts in front of the digits. */
  predicate IsSign(c: char) {
    c == '+' || c == '-'
  }

  /** `s` without its leading sign, if it has one. */
  function Unsigned(s: string): (u: string)
    ensures |u| <= |s|
  {
    if |s| > 0 && IsSign(s[0]) then s[1..] else s
  }

  /** The syntax `strconv.Atoi` accepts: an optional sign, then one or more decimal digits. */
  predicate Decimal(s: string) {
    Unsigned(s) != [] && AllDigits(Unsigned(s))
  }

  /**
   * `strconv.Atoi`: an optional `+` or `-`, then one or more decimal digits
   * (leading zeros allowed, no spaces, no underscores), denoting a value that
   * fits in `int`. Anything else, overflow included, is an error (None).
   */
  function Atoi(s: string): (r: Option<int>)
    ensures r.Some? ==> IntMin <= r.value <= IntMax
    ensures r.Some? ==> Decimal(s)
    ensures r.Some? ==>
      if |s| > 0 && s[0] == '-' then r.value == 0 - DigitsValue(Unsigned(s)) as int
      else r.value == DigitsValue(Unsigned(s))
    ensures Decimal(s) && DigitsValue(Unsigned(s)) <= (if |s| > 0 && s[0] == '-' then -IntMin else IntMax) ==> r.Some?
    ensures s == [] ==> r.None?
    ensures s != [] && IsSign(s[0]) && |s| == 1 ==> r.None?
  {
    var negative := |s| > 0 && s[0] == '-';
    var digits := Unsigned(s);
    if digits == [] || !AllDigits(digits) then None
    else
      var v: int := if negative then 0 - DigitsValue(digits) as int else DigitsValue(digits);
      if IntMin <= v <= IntMax then Some(v) else None
  }

  /** Any character other than a digit, except a sign in first place, makes `Atoi` fail. */
  lemma AtoiRejectsNonDigit(s: string, i: nat)
    requires i < |s| && !IsDigit(s[i])
    requires i > 0 || !IsSign(s[0])
    ensures Atoi(s).None?
  {
    var u := Unsigned(s);
    if |s| > 0 && IsSign(s[0]) {
      assert u[i - 1] == s[i];
    } else {
      assert u[i] == s[i];
    }
  }

  /** Go accepts a plus sign, leading zeros and "-0". */
  lemma AtoiAcceptsExamples()
    ensures Atoi("+5") == Some(5)
    ensures Atoi("007") == Some(7)
    ensures Atoi("-0") == Some(0)
  {
    assert Unsigned("+5") == "5";
    assert Unsigned("-0") == "0";
    assert "007"[..2] == "00" && "00"[..1] == "0";
  }

  /** Go refuses trailing letters, inner spaces and a sign in second place. */
  lemma AtoiRejectsExamples()
    ensures Atoi("1x") == None
    ensures Atoi("1 2") == None
    ensures Atoi("+-3") == None
  {
    AtoiRejectsNonDigit("1x", 1);
    AtoiRejectsNonDigit("1 2", 1);
    AtoiRejectsNonDigit("+-3", 1);
  }

  /** The decimal digits of `n`, without leading zeros. */
  function NatDigits(n: nat): (r: string)
    ensures r != [] && AllDigits(r)
    decreases n
  {
    if n < 10 then [DigitChar(n)] else NatDigits(n / 10) + [DigitChar(n % 10)]
  }

  /** `strconv.Itoa`: the canonical decimal spelling of `n`. */
  function Itoa(n: int): (r: string)
    ensures Decimal(r)
    ensures r[0] == '-' <==> n < 0
  {
    if n < 0 then "-" + NatDigits(-n) else NatDigits(n)
  }

  lemma {:induction false} NatDigitsValue(n: nat)
    ensures |NatDigits(n)| > 0 && AllDigits(NatDigits(n))
    ensures DigitsValue(NatDigits(n)) == n
    decreases n
  {
    var s := NatDigits(n);
    if n >= 10 {
      NatDigitsValue(n / 10);
      var prefix := NatDigits(n / 10);
      assert s == prefix + [DigitChar(n % 10)];
      assert s[..|s| - 1] == prefix;
    }
  }

  /** Every `int` survives spelling with Itoa and parsing with Atoi. */
  lemma AtoiItoa(n: int)
    requires IntMin <= n <= IntMax
    ensures Atoi(Itoa(n)) == Some(n)
  {
    var s := Itoa(n);
    var magnitude: nat := if n < 0 then -n else n;
    NatDigitsValue(magnitude);
    if n < 0 {
      assert Unsigned(s) == NatDigits(magnitude);
    } else {
      assert !IsSign(s[0]);
      assert Unsigned(s) == NatDigits(magnitude);
    }
    assert DigitsValue(Unsigned(s)) == magnitude;
  }
}
