/**
 `add_commas(amount)`: `"{:,}".format(int(amount))`, the thousands-separated
 rendering used for credits and every property counter.
 */
module Commas {
  import opened Wrappers
  import opened Decimal
  import Text

  /** The digit groups of a digit string, cut in threes from the right. */
  function Groups(ds: string): (gs: seq<string>)
    requires |ds| > 0 && AllDigits(ds)
    ensures GroupShape(gs)
    ensures Text.Join(gs, "") == ds
    decreases |ds|
  {
    if |ds| <= 3 then [ds]
    else
      var init := Groups(ds[..|ds| - 3]);
      var last := ds[|ds| - 3..];
      Text.JoinSnoc(init, last, "");
      assert ds == ds[..|ds| - 3] + last;
      init + [last]
  }

  /** Digit groups as `{:,}` lays them out: a leading group of one to three digits, then groups of exactly three. */
  predicate GroupShape(gs: seq<string>) {
    && |gs| > 0
    && 1 <= |gs[0]| <= 3
    && (forall i :: 1 <= i < |gs| ==> |gs[i]| == 3)
    && (forall i :: 0 <= i < |gs| ==> AllDigits(gs[i]))
  }

  /** A string is well grouped when cutting it at its commas gives groups of that shape. */
  predicate WellGrouped(s: string) {
    GroupShape(Text.Split(s, ","))
  }

  /** `add_commas` on an integer: an optional minus sign, then the digit groups joined by commas. */
  function AddCommas(n: int): (s: string)
    ensures Text.Remove(s, ',') == IntToString(n)
    ensures n < 0 ==> s[0] == '-' && WellGrouped(s[1..])
    ensures n >= 0 ==> WellGrouped(s)
  {
    var ds := NatToString(if n < 0 then -n else n);
    var gs := Groups(ds);
    var body := Text.Join(gs, ",");
    GroupsAreCommaFree(gs);
    Text.SplitJoinChar(gs, ',');
    RemoveJoin(gs);
    if n < 0 then
      Text.RemoveAppend("-", body, ',');
      assert ("-" + body)[1..] == body;
      "-" + body
    else
      body
  }

  lemma GroupsAreCommaFree(gs: seq<string>)
    requires GroupShape(gs)
    ensures forall i :: 0 <= i < |gs| ==> ',' !in gs[i]
  {
    forall i, k | 0 <= i < |gs| && 0 <= k < |gs[i]|
      ensures gs[i][k] != ','
    {
      assert IsDigit(gs[i][k]);
    }
  }

  /** Removing the commas of a comma-joined list of comma-free parts concatenates the parts. */
  lemma {:induction false} RemoveJoin(gs: seq<string>)
    requires forall i :: 0 <= i < |gs| ==> ',' !in gs[i]
    ensures Text.Remove(Text.Join(gs, ","), ',') == Text.Join(gs, "")
    decreases |gs|
  {
    if |gs| == 1 {
      Text.RemoveAbsent(gs[0], ',');
    } else if |gs| > 1 {
      var tail := Text.Join(gs[1..], ",");
      RemoveJoin(gs[1..]);
      Text.RemoveAppend(gs[0] + ",", tail, ',');
      Text.RemoveAppend(gs[0], ",", ',');
      Text.RemoveAbsent(gs[0], ',');
      assert gs[0] + "," + tail == (gs[0] + ",") + tail;
    }
  }

  /** Only one grouping of a digit string has the `{:,}` shape. */
  lemma {:induction false} GroupsUnique(gs: seq<string>, ds: string)
    requires GroupShape(gs) && Text.Join(gs, "") == ds
    ensures |ds| > 0 && AllDigits(ds)
    ensures gs == Groups(ds)
    decreases |gs|
  {
    if |gs| == 1 {
    } else {
      var init, last := gs[..|gs| - 1], gs[|gs| - 1];
      assert gs == init + [last];
      Text.JoinSnoc(init, last, "");
      assert GroupShape(init);
      GroupsUnique(init, Text.Join(init, ""));
      assert ds[..|ds| - 3] == Text.Join(init, "");
      assert ds[|ds| - 3..] == last;
    }
  }

  /**
   The rendering is fully determined by its two promises: it is the only well-grouped
   string whose digits, commas removed, are `str(n)`.
   */
  lemma AddCommasCharacterized(n: nat, s: string)
    ensures s == AddCommas(n) <==> WellGrouped(s) && Text.Remove(s, ',') == NatToString(n)
  {
    if WellGrouped(s) && Text.Remove(s, ',') == NatToString(n) {
      var gs := Text.Split(s, ",");
      GroupsAreCommaFree(gs);
      RemoveJoin(gs);
      GroupsUnique(gs, NatToString(n));
    }
  }

  /** `int` of the comma-free rendering gives the number back. */
  lemma AddCommasRoundTrip(n: int)
    ensures ParseInt(Text.Remove(AddCommas(n), ',')) == Some(n)
  {
    ParseIntOfIntToString(n);
  }

  /**
   `add_commas` as `write_stats` calls it, on the raw field text: `int(amount)`
   first, so `None` (the `ValueError`) exactly when the text is not an integer;
   otherwise the `{:,}` grouping of that integer.
   */
  function AddCommasOfText(amount: string): (r: Option<string>)
    ensures r.None? <==> ParseInt(amount).None?
    ensures r.Some? ==> ParseInt(Text.Remove(r.value, ',')) == ParseInt(amount)
    ensures r.Some? ==> var n := ParseInt(amount).value;
      && Text.Remove(r.value, ',') == IntToString(n)
      && (n >= 0 ==> WellGrouped(r.value))
      && (n < 0 ==> r.value[0] == '-' && WellGrouped(r.value[1..]))
  {
    match ParseInt(amount)
    case None => None
    case Some(n) =>
      AddCommasRoundTrip(n);
      Some(AddCommas(n))
  }

  /** Leading zeros in the field text are dropped by `int`: "007" renders as "7". */
  lemma ExampleLeadingZeros()
    ensures AddCommasOfText("007") == Some("7")
  {
    assert "007"[..2] == "00" && "007"[..2][..1] == "0" && "007"[..2][..1][..0] == "";
    assert ParseInt("007") == Some(7);
    assert NatToString(7) == "7";
  }

  lemma ExampleZero()
    ensures AddCommas(0) == "0"
  {
  }

  lemma ExampleMillion()
    ensures AddCommas(1000000) == "1,000,000"
  {
    DigitsOfMillion();
    CommasOfSevenDigits(1000000, "1000000", "1,000,000");
  }

  lemma ExampleCredits()
    ensures AddCommas(1234567) == "1,234,567"
  {
    DigitsOfCredits();
    CommasOfSevenDigits(1234567, "1234567", "1,234,567");
  }

  lemma DigitsOfMillion()
    ensures NatToString(1000000) == "1000000"
  {
    DigitsOf(1, "1");
    DigitsOf(10, "10");
    DigitsOf(100, "100");
    DigitsOf(1000, "1000");
    DigitsOf(10000, "10000");
    DigitsOf(100000, "100000");
    DigitsOf(1000000, "1000000");
  }

  lemma DigitsOfCredits()
    ensures NatToString(1234567) == "1234567"
  {
    DigitsOf(1, "1");
    DigitsOf(12, "12");
    DigitsOf(123, "123");
    DigitsOf(1234, "1234");
    DigitsOf(12345, "12345");
    DigitsOf(123456, "123456");
    DigitsOf(1234567, "1234567");
  }

  lemma GroupsOfSevenDigits(ds: string)
    requires |ds| == 7 && AllDigits(ds)
    ensures Groups(ds) == [ds[..1], ds[1..4], ds[4..]]
  {
    var front := ds[..4];
    assert ds[..|ds| - 3] == front && ds[|ds| - 3..] == ds[4..];
    assert front[..|front| - 3] == ds[..1] && front[|front| - 3..] == ds[1..4];
    assert Groups(ds[..1]) == [ds[..1]];
    assert Groups(front) == [ds[..1], ds[1..4]];
  }

  /** One step of printing a number: the digits of `n / 10`, then the last digit. */
  lemma DigitsOf(n: nat, ds: string)
    requires |ds| > 0 && AllDigits(ds) && n % 10 == DigitValue(ds[|ds| - 1])
    requires n < 10 ==> |ds| == 1
    requires n >= 10 ==> NatToString(n / 10) == ds[..|ds| - 1]
    ensures NatToString(n) == ds
  {
    if n < 10 {
      DigitValueRoundTrip(ds[0]);
    } else {
      DigitValueRoundTrip(ds[|ds| - 1]);
      assert ds == ds[..|ds| - 1] + [ds[|ds| - 1]];
    }
  }

  /** A seven-digit number is one digit and two groups of three, joined by commas. */
  lemma CommasOfSevenDigits(n: nat, ds: string, grouped: string)
    requires NatToString(n) == ds && |ds| == 7
    requires grouped == ds[..1] + "," + ds[1..4] + "," + ds[4..]
    ensures AddCommas(n) == grouped
  {
    var gs := [ds[..1], ds[1..4], ds[4..]];
    GroupsOfSevenDigits(ds);
    assert gs[1..] == [ds[1..4], ds[4..]] && gs[1..][1..] == [ds[4..]];
    assert Text.Join(gs[1..], ",") == ds[1..4] + "," + ds[4..];
    assert Text.Join(gs, ",") == ds[..1] + "," + ds[1..4] + "," + ds[4..];
    assert AddCommas(n) == Text.Join(Groups(ds), ",");
  }
}
