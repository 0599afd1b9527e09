/**
 `get_stats(file)` without the file read: the stat text is cut at every "\n", and a
 text of fewer than 42 lines is "no data".
 Otherwise each of 42 fields takes, verbatim, the line at its fixed position.
 */
module Stats {
  import opened Wrappers
  import Text

  /** The ten factions, in the order their lines appear in the file. */
  datatype Faction = Argon | Boron | Split | Paranid | Teladi | Goner | Terran | Atf | Pirates | Yaki

  /** The fourteen property counters, in file order: ship classes, then stations and satellites. */
  datatype Asset = M1 | M2 | M3 | M4 | M5 | M6 | M7 | M8 | Ts | Tp | Tm | Tl | Station | Sat

  /** The two careers, whose ranks run to 30 rather than 10. */
  datatype Career = Trade | Combat

  /** The 42 fields of the stat record. */
  datatype Field =
    | Credits
    | TimePlayed
    | TimeReal
    | FactionPerc(faction: Faction)
    | FactionTitle(faction: Faction)
    | Count(asset: Asset)
    | CareerPerc(career: Career)
    | CareerTitle(career: Career)
    | FlcRank

  /** The number of lines the stat text must have. */
  const LineCount := 42

  function FactionSlot(x: Faction): (j: nat)
    ensures j < 10
  {
    match x
    case Argon => 0
    case Boron => 1
    case Split => 2
    case Paranid => 3
    case Teladi => 4
    case Goner => 5
    case Terran => 6
    case Atf => 7
    case Pirates => 8
    case Yaki => 9
  }

  function AssetSlot(a: Asset): (j: nat)
    ensures j < 14
  {
    match a
    case M1 => 0
    case M2 => 1
    case M3 => 2
    case M4 => 3
    case M5 => 4
    case M6 => 5
    case M7 => 6
    case M8 => 7
    case Ts => 8
    case Tp => 9
    case Tm => 10
    case Tl => 11
    case Station => 12
    case Sat => 13
  }

  function CareerSlot(c: Career): (j: nat)
    ensures j < 2
  {
    match c
    case Trade => 0
    case Combat => 1
  }

  /**
   The zero-based line each field is read from: credits and the two times first,
   each faction's percentage and title from line 3, the counters from line 23,
   each career's percentage and title from line 37, the fight rank last.
   */
  function LineOf(f: Field): (i: nat)
    ensures i < LineCount
    ensures f.Credits? || f.TimePlayed? || f.TimeReal? <==> i < 3
    ensures f.FactionPerc? <==> 3 <= i < 23 && i % 2 == 1
    ensures f.FactionTitle? <==> 3 <= i < 23 && i % 2 == 0
    ensures f.Count? <==> 23 <= i < 37
    ensures f.CareerPerc? || f.CareerTitle? <==> 37 <= i < 41
    ensures f.FlcRank? <==> i == 41
  {
    match f
    case Credits => 0
    case TimePlayed => 1
    case TimeReal => 2
    case FactionPerc(x) => 3 + 2 * FactionSlot(x)
    case FactionTitle(x) => 4 + 2 * FactionSlot(x)
    case Count(a) => 23 + AssetSlot(a)
    case CareerPerc(c) => 37 + 2 * CareerSlot(c)
    case CareerTitle(c) => 38 + 2 * CareerSlot(c)
    case FlcRank => 41
  }

  function FactionAt(j: nat): (x: Faction)
    requires j < 10
    ensures FactionSlot(x) == j
  {
    match j
    case 0 => Argon
    case 1 => Boron
    case 2 => Split
    case 3 => Paranid
    case 4 => Teladi
    case 5 => Goner
    case 6 => Terran
    case 7 => Atf
    case 8 => Pirates
    case _ => Yaki
  }

  function AssetAt(j: nat): (a: Asset)
    requires j < 14
    ensures AssetSlot(a) == j
  {
    match j
    case 0 => M1
    case 1 => M2
    case 2 => M3
    case 3 => M4
    case 4 => M5
    case 5 => M6
    case 6 => M7
    case 7 => M8
    case 8 => Ts
    case 9 => Tp
    case 10 => Tm
    case 11 => Tl
    case 12 => Station
    case _ => Sat
  }

  /** The field read from each line: every line below 42 belongs to exactly one field. */
  function FieldAt(i: nat): (f: Field)
    requires i < LineCount
    ensures LineOf(f) == i
  {
    if i == 0 then Credits
    else if i == 1 then TimePlayed
    else if i == 2 then TimeReal
    else if i < 23 then
      if (i - 3) % 2 == 0 then FactionPerc(FactionAt((i - 3) / 2)) else FactionTitle(FactionAt((i - 4) / 2))
    else if i < 37 then Count(AssetAt(i - 23))
    else if i < 41 then
      var c := if i < 39 then Trade else Combat;
      if i % 2 == 1 then CareerPerc(c) else CareerTitle(c)
    else FlcRank
  }

  /** The dictionary key of a faction's reputation percentage. */
  function FactionPercKey(x: Faction): (k: string)
    ensures |k| > 5 && k[|k| - 5..] == "_perc"
  {
    match x
    case Argon => "argon_perc"
    case Boron => "boron_perc"
    case Split => "split_perc"
    case Paranid => "paranid_perc"
    case Teladi => "teladi_perc"
    case Goner => "goner_perc"
    case Terran => "terran_perc"
    case Atf => "atf_perc"
    case Pirates => "pirates_perc"
    case Yaki => "yaki_perc"
  }

  /** The dictionary key of a faction's "rank - title" field. */
  function FactionTitleKey(x: Faction): (k: string)
    ensures |k| > 6 && k[|k| - 6..] == "_title"
  {
    match x
    case Argon => "argon_title"
    case Boron => "boron_title"
    case Split => "split_title"
    case Paranid => "paranid_title"
    case Teladi => "teladi_title"
    case Goner => "goner_title"
    case Terran => "terran_title"
    case Atf => "atf_title"
    case Pirates => "pirates_title"
    case Yaki => "yaki_title"
  }

  /** The dictionary key of a property counter. */
  function CountKey(a: Asset): (k: string)
    ensures |k| > 6 && k[..6] == "count_"
  {
    match a
    case M1 => "count_m1"
    case M2 => "count_m2"
    case M3 => "count_m3"
    case M4 => "count_m4"
    case M5 => "count_m5"
    case M6 => "count_m6"
    case M7 => "count_m7"
    case M8 => "count_m8"
    case Ts => "count_ts"
    case Tp => "count_tp"
    case Tm => "count_tm"
    case Tl => "count_tl"
    case Station => "count_station"
    case Sat => "count_sat"
  }

  /**
   The dictionary key `get_stats` stores each field under: percentages end in
   "_perc", rank fields in "_title", and property counters start with "count_".
   */
  function Key(f: Field): (k: string)
    ensures f.FactionPerc? || f.CareerPerc? ==> |k| > 5 && k[|k| - 5..] == "_perc"
    ensures f.FactionTitle? || f.CareerTitle? ==> |k| > 6 && k[|k| - 6..] == "_title"
    ensures f.Count? ==> |k| > 6 && k[..6] == "count_"
  {
    match f
    case Credits => "credits"
    case TimePlayed => "time_played"
    case TimeReal => "time_real"
    case FactionPerc(x) => FactionPercKey(x)
    case FactionTitle(x) => FactionTitleKey(x)
    case Count(a) => CountKey(a)
    case CareerPerc(c) => (match c case Trade => "trade_perc" case Combat => "combat_perc")
    case CareerTitle(c) => (match c case Trade => "trade_title" case Combat => "combat_title")
    case FlcRank => "flc_rank"
  }

  /** Each field is the one read from its own line. */
  lemma FieldAtLineOf(f: Field)
    ensures FieldAt(LineOf(f)) == f
  {
    match f
    case FactionPerc(x) =>
      var j := FactionSlot(x);
      FactionAtSlot(x);
      assert (LineOf(f) - 3) % 2 == 0 && (LineOf(f) - 3) / 2 == j;
    case FactionTitle(x) =>
      var j := FactionSlot(x);
      FactionAtSlot(x);
      assert (LineOf(f) - 3) % 2 == 1 && (LineOf(f) - 4) / 2 == j;
    case Count(a) =>
      AssetAtSlot(a);
    case _ =>
  }

  lemma FactionAtSlot(x: Faction)
    ensures FactionAt(FactionSlot(x)) == x
  {
  }

  lemma AssetAtSlot(a: Asset)
    ensures AssetAt(AssetSlot(a)) == a
  {
  }

  /** No two fields are read from the same line. */
  lemma LineOfInjective(f: Field, g: Field)
    requires LineOf(f) == LineOf(g)
    ensures f == g
  {
    FieldAtLineOf(f);
    FieldAtLineOf(g);
  }

  /** Lines 0 to 12: each is read into the field the source's dictionary stores under that key. */
  lemma KeysOfLines0To12()
    ensures LineOf(Credits) == 0 && Key(Credits) == "credits"
    ensures LineOf(TimePlayed) == 1 && Key(TimePlayed) == "time_played"
    ensures LineOf(TimeReal) == 2 && Key(TimeReal) == "time_real"
    ensures LineOf(FactionPerc(Argon)) == 3 && Key(FactionPerc(Argon)) == "argon_perc"
    ensures LineOf(FactionTitle(Argon)) == 4 && Key(FactionTitle(Argon)) == "argon_title"
    ensures LineOf(FactionPerc(Boron)) == 5 && Key(FactionPerc(Boron)) == "boron_perc"
    ensures LineOf(FactionTitle(Boron)) == 6 && Key(FactionTitle(Boron)) == "boron_title"
    ensures LineOf(FactionPerc(Split)) == 7 && Key(FactionPerc(Split)) == "split_perc"
    ensures LineOf(FactionTitle(Split)) == 8 && Key(FactionTitle(Split)) == "split_title"
    ensures LineOf(FactionPerc(Paranid)) == 9 && Key(FactionPerc(Paranid)) == "paranid_perc"
    ensures LineOf(FactionTitle(Paranid)) == 10 && Key(FactionTitle(Paranid)) == "paranid_title"
    ensures LineOf(FactionPerc(Teladi)) == 11 && Key(FactionPerc(Teladi)) == "teladi_perc"
    ensures LineOf(FactionTitle(Teladi)) == 12 && Key(FactionTitle(Teladi)) == "teladi_title"
  {
  }

  /** Lines 13 to 17: each is read into the field the source's dictionary stores under that key. */
  lemma KeysOfLines13To17()
    ensures LineOf(FactionPerc(Goner)) == 13 && Key(FactionPerc(Goner)) == "goner_perc"
    ensures LineOf(FactionTitle(Goner)) == 14 && Key(FactionTitle(Goner)) == "goner_title"
    ensures LineOf(FactionPerc(Terran)) == 15 && Key(FactionPerc(Terran)) == "terran_perc"
    ensures LineOf(FactionTitle(Terran)) == 16 && Key(FactionTitle(Terran)) == "terran_title"
    ensures LineOf(FactionPerc(Atf)) == 17 && Key(FactionPerc(Atf)) == "atf_perc"
  {
  }

  /** Lines 18 to 22: each is read into the field the source's dictionary stores under that key. */
  lemma KeysOfLines18To22()
    ensures LineOf(FactionTitle(Atf)) == 18 && Key(FactionTitle(Atf)) == "atf_title"
    ensures LineOf(FactionPerc(Pirates)) == 19 && Key(FactionPerc(Pirates)) == "pirates_perc"
    ensures LineOf(FactionTitle(Pirates)) == 20 && Key(FactionTitle(Pirates)) == "pirates_title"
    ensures LineOf(FactionPerc(Yaki)) == 21 && Key(FactionPerc(Yaki)) == "yaki_perc"
    ensures LineOf(FactionTitle(Yaki)) == 22 && Key(FactionTitle(Yaki)) == "yaki_title"
  {
  }

  /** Lines 23 to 29: each is read into the field the source's dictionary stores under that key. */
  lemma KeysOfLines23To29()
    ensures LineOf(Count(M1)) == 23 && Key(Count(M1)) == "count_m1"
    ensures LineOf(Count(M2)) == 24 && Key(Count(M2)) == "count_m2"
    ensures LineOf(Count(M3)) == 25 && Key(Count(M3)) == "count_m3"
    ensures LineOf(Count(M4)) == 26 && Key(Count(M4)) == "count_m4"
    ensures LineOf(Count(M5)) == 27 && Key(Count(M5)) == "count_m5"
    ensures LineOf(Count(M6)) == 28 && Key(Count(M6)) == "count_m6"
    ensures LineOf(Count(M7)) == 29 && Key(Count(M7)) == "count_m7"
  {
  }

  /** Lines 30 to 36: each is read into the field the source's dictionary stores under that key. */
  lemma KeysOfLines30To36()
    ensures LineOf(Count(M8)) == 30 && Key(Count(M8)) == "count_m8"
    ensures LineOf(Count(Ts)) == 31 && Key(Count(Ts)) == "count_ts"
    ensures LineOf(Count(Tp)) == 32 && Key(Count(Tp)) == "count_tp"
    ensures LineOf(Count(Tm)) == 33 && Key(Count(Tm)) == "count_tm"
    ensures LineOf(Count(Tl)) == 34 && Key(Count(Tl)) == "count_tl"
    ensures LineOf(Count(Station)) == 35 && Key(Count(Station)) == "count_station"
    ensures LineOf(Count(Sat)) == 36 && Key(Count(Sat)) == "count_sat"
  {
  }

  /** Lines 37 to 41: each is read into the field the source's dictionary stores under that key. */
  lemma KeysOfLines37To41()
    ensures LineOf(CareerPerc(Trade)) == 37 && Key(CareerPerc(Trade)) == "trade_perc"
    ensures LineOf(CareerTitle(Trade)) == 38 && Key(CareerTitle(Trade)) == "trade_title"
    ensures LineOf(CareerPerc(Combat)) == 39 && Key(CareerPerc(Combat)) == "combat_perc"
    ensures LineOf(CareerTitle(Combat)) == 40 && Key(CareerTitle(Combat)) == "combat_title"
    ensures LineOf(FlcRank) == 41 && Key(FlcRank) == "flc_rank"
  {
  }

  type StatRecord = map<Field, string>

  /** The record built from the lines of the stat text: "no data" below 42 lines, else every field from its line. */
  function ParseLines(lines: seq<string>): (r: Option<StatRecord>)
    ensures r.None? <==> |lines| < LineCount
    ensures r.Some? ==> forall f :: f in r.value && r.value[f] == lines[LineOf(f)]
  {
    if |lines| < LineCount then None
    else
      var rec := map i | 0 <= i < LineCount :: FieldAt(i) := lines[i];
      assert forall f :: f in rec && rec[f] == lines[LineOf(f)] by {
        forall f ensures f in rec && rec[f] == lines[LineOf(f)] {
          FieldAtLineOf(f);
        }
      }
      Some(rec)
  }

  /** `get_stats` on the text of the stat file. */
  function GetStats(text: string): (r: Option<StatRecord>)
    ensures r.None? <==> Text.Count(text, '\n') < LineCount - 1
    ensures r.Some? ==> |Text.Split(text, "\n")| >= LineCount
    ensures r.Some? ==> forall f :: f in r.value && r.value[f] == Text.Split(text, "\n")[LineOf(f)]
  {
    Text.SplitCharCount(text, '\n');
    ParseLines(Text.Split(text, "\n"))
  }

  /** Lines after the 42nd do not affect the record. */
  lemma ExtraLinesIgnored(lines: seq<string>)
    requires |lines| >= LineCount
    ensures ParseLines(lines) == ParseLines(lines[..LineCount])
  {
    var r1, r2 := ParseLines(lines).value, ParseLines(lines[..LineCount]).value;
    assert forall f :: f in r1 && f in r2 && r1[f] == r2[f];
    assert r1.Keys == r2.Keys;
    assert r1 == r2;
  }

  /** Changing one line changes only the field read from it (and nothing, past the 42nd line). */
  lemma ChangeOneLine(lines: seq<string>, k: nat, v: string)
    requires |lines| >= LineCount && k < |lines|
    ensures k < LineCount ==> ParseLines(lines[k := v]) == Some(ParseLines(lines).value[FieldAt(k) := v])
    ensures k >= LineCount ==> ParseLines(lines[k := v]) == ParseLines(lines)
  {
    var r1, r2 := ParseLines(lines).value, ParseLines(lines[k := v]).value;
    if k < LineCount {
      var r3 := r1[FieldAt(k) := v];
      forall f
        ensures f in r2 && f in r3 && r2[f] == r3[f]
      {
        if f != FieldAt(k) {
          FieldAtLineOf(f);
        }
      }
      assert r2.Keys == r3.Keys;
      assert r2 == r3;
    } else {
      ExtraLinesIgnored(lines);
      ExtraLinesIgnored(lines[k := v]);
      assert lines[k := v][..LineCount] == lines[..LineCount];
    }
  }

  /** A file written as 42 or more newline-free lines parses back to exactly those lines' fields. */
  lemma GetStatsOfLines(lines: seq<string>)
    requires |lines| >= LineCount
    requires forall i :: 0 <= i < |lines| ==> '\n' !in lines[i]
    ensures GetStats(Text.Join(lines, "\n")) == ParseLines(lines)
    ensures forall f :: GetStats(Text.Join(lines, "\n")).value[f] == lines[LineOf(f)]
  {
    Text.SplitJoinChar(lines, '\n');
  }
}
