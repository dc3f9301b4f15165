/** Decimal text for integers: the subset of Python's `int(text)` that the
    guess validator relies on (an optional `+`/`-` sign followed by one or more
    ASCII digits), and the rendering `str(n)` used inside its messages.  The two
    are tied together by a round-trip lemma. */
module NumberText {
  import opened Wrappers

  predicate IsDigit(c: char) {
    '0' <= c <= '9'
  }

  predicate AllDigits(s: string) {
    forall i :: 0 <= i < |s| ==> IsDigit(s[i])
  }

  function DigitValue(c: char): nat
    requires IsDigit(c)
  {
    c as int - '0' as int
  }

  function DigitChar(d: nat): (c: char)
    requires d < 10
    ensures IsDigit(c) && DigitValue(c) == d
  {
    ('0' as int + d) as char
  }

  /** The number a run of digits denotes, most significant digit first. */
  function DigitsValue(s: string): nat
    requires AllDigits(s)
    decreases |s|
  {
    if |s| == 0 then 0
    else DigitsValue(s[..|s| - 1]) * 10 + DigitValue(s[|s| - 1])
  }

  /** `str(n)` for a natural number: shortest decimal form, no sign. */
  function NatToString(n: nat): (s: string)
    ensures |s| > 0 && AllDigits(s)
    ensures |s| > 1 ==> s[0] != '0'
    ensures s[0] == '0' ==> n == 0
    decreases n
  {
    if n < 10 then [DigitChar(n)]
    else NatToString(n / 10) + [DigitChar(n % 10)]
  }

  /** `str(n)` for any integer: the canonical decimal form, a `-` for negatives
      and never a `+`, no leading zero except in `"0"` itself. */
  function IntToString(n: int): (s: string)
    ensures |s| > 0
    ensures n < 0 <==> s[0] == '-'
    ensures n >= 0 ==> AllDigits(s) && (|s| > 1 ==> s[0] != '0')
    ensures n < 0 ==> |s| > 1 && AllDigits(s[1..]) && s[1] != '0'
  {
    if n < 0 then "-" + NatToString(-n) else NatToString(n)
  }

  /** The text shapes the parser accepts: optional sign, then at least one digit. */
  predicate IsIntegerText(s: string) {
    if |s| > 0 && (s[0] == '-' || s[0] == '+') then |s| > 1 && AllDigits(s[1..])
    else |s| > 0 && AllDigits(s)
  }

  /** `int(text)`: the denoted integer, or `None` outside the accepted subset
      (Python raises `ValueError` on every such text it also rejects). */
  function ParseInt(s: string): (r: Option<int>)
    ensures r.Some? <==> IsIntegerText(s)
    ensures r.Some? && |s| > 0 && IsDigit(s[0]) ==> r.value >= 0
  {
    if |s| > 0 && (s[0] == '-' || s[0] == '+') then
      var digits := s[1..];
      if |digits| > 0 && AllDigits(digits) then
        var magnitude: int := DigitsValue(digits);
        Some(if s[0] == '-' then -magnitude else magnitude)
      else None
    else if |s| > 0 && AllDigits(s) then Some(DigitsValue(s))
    else None
  }

  /** Reading back the digits `NatToString` writes gives the number again. */
  lemma {:induction false} DigitsRoundTrip(n: nat)
    ensures DigitsValue(NatToString(n)) == n
    decreases n
  {
    var s := NatToString(n);
    if n >= 10 {
      DigitsRoundTrip(n / 10);
      assert s[..|s| - 1] == NatToString(n / 10);
      assert s[|s| - 1] == DigitChar(n % 10);
    }
  }

  /** `int(str(n)) == n` for every integer. */
  lemma ParseIntRoundTrip(n: int)
    ensures ParseInt(IntToString(n)) == Some(n)
  {
    var s := IntToString(n);
    if n < 0 {
      assert s[1..] == NatToString(-n);
      DigitsRoundTrip(-n);
    } else {
      DigitsRoundTrip(n);
    }
  }

  /** `k` zero digits. */
  function Zeros(k: nat): (z: string)
    ensures |z| == k && AllDigits(z)
  {
    seq(k, _ => '0')
  }

  lemma {:induction false} ZerosValue(k: nat)
    ensures DigitsValue(Zeros(k)) == 0
    decreases k
  {
    if k > 0 {
      assert Zeros(k)[..k - 1] == Zeros(k - 1);
      ZerosValue(k - 1);
    }
  }

  /** Leading zeros do not change the value of a run of digits. */
  lemma {:induction false} LeadingZerosIgnored(k: nat, t: string)
    requires AllDigits(t)
    ensures AllDigits(Zeros(k) + t)
    ensures DigitsValue(Zeros(k) + t) == DigitsValue(t)
    decreases |t|
  {
    var u := Zeros(k) + t;
    assert AllDigits(u) by {
      forall i | 0 <= i < |u| ensures IsDigit(u[i]) {
        if i < k { assert u[i] == Zeros(k)[i]; } else { assert u[i] == t[i - k]; }
      }
    }
    if |t| == 0 {
      assert u == Zeros(k);
      ZerosValue(k);
    } else {
      assert u[..|u| - 1] == Zeros(k) + t[..|t| - 1];
      assert u[|u| - 1] == t[|t| - 1];
      LeadingZerosIgnored(k, t[..|t| - 1]);
    }
  }

  /** A text made of an optional sign, some leading zeros and the canonical
      digits of a number `m` denotes `m`, or `-m` after a `-` (so `"-0"` is 0). */
  lemma ParseWrittenInteger(sign: string, zeros: nat, m: nat)
    requires sign == "" || sign == "+" || sign == "-"
    ensures ParseInt(sign + Zeros(zeros) + NatToString(m)) == Some(if sign == "-" then -(m as int) else m)
  {
    var digits := Zeros(zeros) + NatToString(m);
    LeadingZerosIgnored(zeros, NatToString(m));
    DigitsRoundTrip(m);
    assert DigitsValue(digits) == m;
    assert IsDigit(digits[0]);
    var text := sign + Zeros(zeros) + NatToString(m);
    assert text == sign + digits;
    if sign == "" {
      assert text == digits;
      assert ParseInt(digits) == Some(m);
    } else {
      assert text[0] == sign[0] && text[1..] == digits;
      assert ParseInt(text) == Some(if sign == "-" then -(m as int) else m);
    }
  }

  /** Signs, leading zeros and negative zero parse as Python's `int` reads them. */
  lemma NonCanonicalExamples()
    ensures ParseInt("+5") == Some(5)
    ensures ParseInt("007") == Some(7)
    ensures ParseInt("-0") == Some(0)
    ensures ParseInt("-042") == Some(-42)
  {
    ParseWrittenInteger("+", 0, 5);
    assert "+" + Zeros(0) + NatToString(5) == "+5";
    ParseWrittenInteger("", 2, 7);
    assert "" + Zeros(2) + NatToString(7) == "007";
    ParseWrittenInteger("-", 0, 0);
    assert "-" + Zeros(0) + NatToString(0) == "-0";
    ParseWrittenInteger("-", 1, 42);
    assert NatToString(42) == NatToString(4) + [DigitChar(2)];
    assert "-" + Zeros(1) + NatToString(42) == "-042";
  }
}
