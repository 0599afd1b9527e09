/**
 `get_time_string(dtime)`: seconds rendered as "<days> Days, HH:MM:SS".

 Each `floor(a / b)` in the source has a positive constant divisor, so it is
 Dafny's integer `a / b`; the model therefore covers every integer `dtime`.
 */
module ElapsedTime {
  import opened Wrappers
  import opened Decimal
  import Arith

  datatype Elapsed = Elapsed(days: int, hours: int, minutes: int, seconds: int)

  const DaySeconds := 86400
  const DaysLabel := " Days, "

  /**
   The source's nested floor divisions, in its order. They decompose `dtime` exactly:
   whole days (rounded down), then hours below 24, minutes below 60 and seconds
   below 60 that add back up to `dtime`.
   */
  function Decompose(dtime: int): (e: Elapsed)
    ensures e.days * DaySeconds + e.hours * 3600 + e.minutes * 60 + e.seconds == dtime
    ensures e.days == dtime / DaySeconds
    ensures 0 <= e.hours < 24 && 0 <= e.minutes < 60 && 0 <= e.seconds < 60
  {
    var days := ((dtime / 60) / 60) / 24;
    var hours := ((dtime - days * 24 * 60 * 60) / 60) / 60;
    var minutes := (dtime - ((days * 24 + hours) * 60) * 60) / 60;
    var seconds := dtime - (((days * 24 + hours) * 60 + minutes) * 60);
    Arith.DivDiv(dtime, 60, 60);
    Arith.DivDiv(dtime, 3600, 24);
    assert days == dtime / DaySeconds;
    var rem := dtime - days * DaySeconds;
    assert 0 <= rem < DaySeconds;
    Arith.DivDiv(rem, 60, 60);
    Arith.DivBelow(rem, 3600, 24);
    assert hours == rem / 3600;
    var rem2 := rem - hours * 3600;
    assert 0 <= rem2 < 3600;
    assert minutes == rem2 / 60;
    Arith.DivBelow(rem2, 60, 60);
    Elapsed(days, hours, minutes, seconds)
  }

  /** `hours`, `minutes` and `seconds` after the source's zero padding: a "0" before values below ten. */
  function Pad(v: nat): (s: string)
    ensures v < 100 ==> |s| == 2 && AllDigits(s) && ParseNat(s) == Some(v)
  {
    if v < 10 then
      NatToStringSmall(v);
      var s := "0" + NatToString(v);
      assert s == ['0', DigitChar(v)];
      assert s[..1] == "0" && s[..1][..0] == "";
      assert Value(s[..1]) == 0;
      assert Value(s) == v;
      s
    else
      ValueOfNatToString(v);
      if v < 100 then NatToStringSmall(v); NatToString(v) else NatToString(v)
  }

  /** A clock "HH:MM:SS" whose three two-character fields read as `h`, `m` and `x`. */
  predicate ClockFields(c: string, h: nat, m: nat, x: nat) {
    && |c| == 8 && c[2] == ':' && c[5] == ':'
    && ParseNat(c[0..2]) == Some(h) && ParseNat(c[3..5]) == Some(m) && ParseNat(c[6..8]) == Some(x)
  }

  /**
   The rendered time: the day count unpadded, the label, then a clock whose two-digit
   fields are the hours, minutes and seconds left over after the whole days.
   */
  function TimeString(dtime: int): (s: string)
    ensures |s| >= 16
    ensures s[..|s| - 15] == IntToString(dtime / DaySeconds)
    ensures s[|s| - 15..|s| - 8] == DaysLabel
    ensures var e := Decompose(dtime); ClockFields(s[|s| - 8..], e.hours, e.minutes, e.seconds)
  {
    var e := Decompose(dtime);
    var head := IntToString(e.days);
    var clock := Pad(e.hours) + ":" + Pad(e.minutes) + ":" + Pad(e.seconds);
    assert clock[0..2] == Pad(e.hours) && clock[3..5] == Pad(e.minutes) && clock[6..8] == Pad(e.seconds);
    var s := head + DaysLabel + clock;
    assert s[..|s| - 15] == head && s[|s| - 15..|s| - 8] == DaysLabel && s[|s| - 8..] == clock;
    s
  }

  /** Reads a rendered time back into seconds; the reverse of `TimeString`. */
  function ReadTimeString(s: string): Option<int> {
    if |s| < 15 || s[|s| - 15..|s| - 8] != DaysLabel || s[|s| - 6] != ':' || s[|s| - 3] != ':' then None
    else
      match (ParseInt(s[..|s| - 15]), ParseNat(s[|s| - 8..|s| - 6]), ParseNat(s[|s| - 5..|s| - 3]), ParseNat(s[|s| - 2..]))
      case (Some(d), Some(h), Some(m), Some(x)) => Some(d * DaySeconds + h * 3600 + m * 60 + x)
      case _ => None
  }

  /** Reading back any text of the rendered shape: the day count, the label, then a clock. */
  lemma ReadRendered(s: string, d: int, h: nat, m: nat, x: nat)
    requires |s| >= 16
    requires s[..|s| - 15] == IntToString(d)
    requires s[|s| - 15..|s| - 8] == DaysLabel
    requires ClockFields(s[|s| - 8..], h, m, x)
    ensures ReadTimeString(s) == Some(d * DaySeconds + h * 3600 + m * 60 + x)
  {
    var n := |s|;
    var c := s[n - 8..];
    ParseIntOfIntToString(d);
    assert s[n - 8..n - 6] == c[0..2] && s[n - 5..n - 3] == c[3..5] && s[n - 2..] == c[6..8];
    assert s[n - 6] == c[2] && s[n - 3] == c[5];
  }

  /** Reading the rendered text back recovers exactly the number of seconds rendered. */
  lemma TimeStringRoundTrip(dtime: int)
    ensures ReadTimeString(TimeString(dtime)) == Some(dtime)
  {
    var e := Decompose(dtime);
    ReadRendered(TimeString(dtime), dtime / DaySeconds, e.hours, e.minutes, e.seconds);
  }

  lemma Example()
    ensures TimeString(90061) == "1 Days, 01:01:01"
  {
    assert Decompose(90061) == Elapsed(1, 1, 1, 1);
  }
}
