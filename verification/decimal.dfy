/**
 Decimal text of integers: Python's `str(int)` and the plain-digit case of `int(str)`.

 The stat file holds every number as text; the formatters convert with `int(...)`
 and print with `str(...)` or `"{:,}".format(...)`.
 */
module Decimal {
  import opened Wrappers

  predicate IsDigit(c: char) {
    '0' <= c <= '9'
  }

  predicate AllDigits(s: string) {
    forall i :: 0 <= i < |s| ==> IsDigit(s[i])
  }

  /** A digit string as `str` prints it: nonempty, and no leading zero unless it is "0". */
  predicate Canonical(s: string) {
    |s| > 0 && AllDigits(s) && (s[0] == '0' ==> |s| == 1)
  }

  function DigitValue(c: char): (d: nat)
    requires IsDigit(c)
    ensures d < 10
  {
    c as int - '0' as int
  }

  function DigitChar(d: nat): (c: char)
    requires d < 10
    ensures IsDigit(c) && DigitValue(c) == d
    ensures c == '0' <==> d == 0
  {
    ('0' as int + d) as char
  }

  /** `str(n)` for a natural number. */
  function NatToString(n: nat): (s: string)
    ensures Canonical(s)
    ensures s[0] == '0' <==> n == 0
    decreases n
  {
    if n < 10 then [DigitChar(n)] else NatToString(n / 10) + [DigitChar(n % 10)]
  }

  /** `str(i)` for any integer: a minus sign before the digits of a negative number. */
  function IntToString(i: int): (s: string)
    ensures |s| > 0
    ensures s[0] == '-' <==> i < 0
    ensures i < 0 ==> s[1..] == NatToString(-i)
    ensures i >= 0 ==> s == NatToString(i)
  {
    if i < 0 then "-" + NatToString(-i) else NatToString(i)
  }

  /** The number a digit string denotes, most significant digit first. */
  function Value(s: string): nat
    requires AllDigits(s)
    decreases |s|
  {
    if |s| == 0 then 0 else Value(s[..|s| - 1]) * 10 + DigitValue(s[|s| - 1])
  }

  /** `int(s)` for an unsigned run of ASCII digits; `None` stands for the `ValueError`. */
  function ParseNat(s: string): (r: Option<nat>)
    ensures r.Some? <==> |s| > 0 && AllDigits(s)
  {
    if |s| > 0 && AllDigits(s) then Some(Value(s)) else None
  }

  /**
   `int(s)` for an optionally signed run of ASCII digits: accepted exactly when the
   digits after an optional '+' or '-' are a nonempty run, and negative only after '-'.
   */
  function ParseInt(s: string): (r: Option<int>)
    ensures r.Some? <==> |s| > 0 && (if s[0] == '-' || s[0] == '+' then ParseNat(s[1..]).Some? else AllDigits(s))
    ensures r.Some? && r.value < 0 ==> s[0] == '-'
  {
    if |s| > 0 && (s[0] == '-' || s[0] == '+') then
      match ParseNat(s[1..])
      case None => None
      case Some(v) => Some(if s[0] == '-' then -(v as int) else v as int)
    else
      match ParseNat(s)
      case None => None
      case Some(v) => Some(v)
  }

  /** Reading back what `str` printed gives the number again. */
  lemma {:induction false} ValueOfNatToString(n: nat)
    ensures Value(NatToString(n)) == n
    decreases n
  {
    if n >= 10 {
      var s := NatToString(n);
      assert s[..|s| - 1] == NatToString(n / 10);
      ValueOfNatToString(n / 10);
    }
  }

  /** A digit string with a nonzero leading digit denotes a positive number. */
  lemma {:induction false} ValuePositive(s: string)
    requires |s| > 0 && AllDigits(s) && s[0] != '0'
    ensures Value(s) > 0
    decreases |s|
  {
    if |s| > 1 {
      ValuePositive(s[..|s| - 1]);
    }
  }

  /** Printing what was read from a canonical digit string gives the string again. */
  lemma {:induction false} NatToStringOfValue(s: string)
    requires Canonical(s)
    ensures NatToString(Value(s)) == s
    decreases |s|
  {
    if |s| > 1 {
      var p := s[..|s| - 1];
      assert Canonical(p);
      ValuePositive(p);
      NatToStringOfValue(p);
      var v := Value(s);
      DigitValueRoundTrip(s[|s| - 1]);
      assert v / 10 == Value(p) && v % 10 == DigitValue(s[|s| - 1]);
      assert s == p + [s[|s| - 1]];
    } else {
      DigitValueRoundTrip(s[0]);
    }
  }

  lemma DigitValueRoundTrip(c: char)
    requires IsDigit(c)
    ensures DigitChar(DigitValue(c)) == c
  {
  }

  /** `str` and `int` are inverse: the canonical strings are exactly the printed numbers. */
  lemma NatToStringCharacterized(s: string, n: nat)
    ensures s == NatToString(n) <==> Canonical(s) && ParseNat(s) == Some(n)
  {
    if s == NatToString(n) {
      ValueOfNatToString(n);
    }
    if Canonical(s) && ParseNat(s) == Some(n) {
      NatToStringOfValue(s);
    }
  }

  /** `int(str(i)) == i` for every integer. */
  lemma ParseIntOfIntToString(i: int)
    ensures ParseInt(IntToString(i)) == Some(i)
  {
    var s := IntToString(i);
    if i < 0 {
      ValueOfNatToString(-i);
      assert s[1..] == NatToString(-i);
    } else {
      ValueOfNatToString(i);
    }
  }

  /** Small numbers print as one or two digits. */
  /** Zeros in front of a digit string do not change its value. */
  lemma {:induction false} ValueLeadingZeros(zeros: string, ds: string)
    requires forall i :: 0 <= i < |zeros| ==> zeros[i] == '0'
    requires AllDigits(ds)
    ensures AllDigits(zeros + ds)
    ensures Value(zeros + ds) == Value(ds)
    decreases |zeros| + |ds|
  {
    var s := zeros + ds;
    if |ds| == 0 {
      assert s == zeros;
      if |zeros| > 0 {
        ValueLeadingZeros(zeros[..|zeros| - 1], "");
        assert zeros[..|zeros| - 1] + "" == zeros[..|zeros| - 1];
      }
    } else {
      assert s[..|s| - 1] == zeros + ds[..|ds| - 1];
      assert s[|s| - 1] == ds[|ds| - 1];
      ValueLeadingZeros(zeros, ds[..|ds| - 1]);
    }
  }

  /**
   `int` of any accepted text: an optional sign, any number of zeros, then the digits
   of `n` give `n`, negated after '-'. With the acceptance clause of `ParseInt` this
   fixes every result.
   */
  lemma ParseIntValue(sign: string, zeros: string, n: nat)
    requires sign == "" || sign == "+" || sign == "-"
    requires forall i :: 0 <= i < |zeros| ==> zeros[i] == '0'
    ensures ParseInt(sign + zeros + NatToString(n)) == Some(if sign == "-" then -(n as int) else n as int)
  {
    var ds := zeros + NatToString(n);
    ValueLeadingZeros(zeros, NatToString(n));
    ValueOfNatToString(n);
    var s := sign + zeros + NatToString(n);
    assert s == sign + ds;
    if sign == "" {
      assert s == ds;
      assert IsDigit(s[0]);
    } else {
      assert s[0] == sign[0];
      assert s[1..] == ds;
    }
  }

  lemma NatToStringSmall(n: nat)
    requires n < 100
    ensures n < 10 ==> NatToString(n) == [DigitChar(n)]
    ensures n >= 10 ==> NatToString(n) == [DigitChar(n / 10), DigitChar(n % 10)]
  {
  }
}
