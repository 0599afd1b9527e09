# LitStats core, modelled in Dafny

LitStats is a terminal dashboard for the game *X3: Albion Prelude* with the
*Litcube's Universe* mod. Every second it reads a stat file that the game writes
(`log09004.txt`). It parses 42 fixed lines from that file and draws them with
curses: credits, play time, real time, ten faction standings, two careers, a
loot chance and fourteen property counters.

This project models the part of `LitStats.py` that has real logic. Each piece
is a pure function:

- `get_stats` without the file read. The text is cut at every `"\n"`. Fewer
  than 42 pieces means "no data". Otherwise 42 named fields each take one line
  verbatim (module `Stats`).
- `add_commas`, the `"{:,}"` thousands grouping (module `Commas`).
- `get_time_string`, seconds rendered as `"<days> Days, HH:MM:SS"`
  (module `ElapsedTime`).
- `get_flc_perc`, the loot chance from the fight rank, with its floors in the
  source's order (module `LootChance`).
- `get_rank_title`, a split on `" - "`, and the two-name unpacking that
  `write_stats` applies to its result (module `RankTitle`).
- `cp_scale`, the five-colour classifier with thresholds 80/60/40/20
  (module `ColourScale`).
- The maximum `write_stats` hands to `cp_scale` for each field, and the colour
  of the loot-chance line (module `Display`).

Supporting modules:

- `Text` models Python's `str.split`, `str.join` and `str.replace(c, "")`.
- `Decimal` models `str` and `int` on decimal digits.
- `Arith` holds facts about floor division.
- `Wrappers` defines `Option`.

`None` in the model stands for three things in the source. It is `get_stats`'s own
`None` result for a short file. It is the `ValueError` of `int` on field text that
is not an integer. It is also the `ValueError` of unpacking a rank field that does
not split into exactly two parts.

Three facts about the code fix details of the model:

- `cp_scale` has five tiers. Its thresholds are 80, 60, 40 and 20, giving green,
  cyan, white, yellow and red.
- The loot chance reaches the screen through `str`, unrounded (LitStats.py:148).
- Lines 7/8 hold the Split faction and lines 9/10 the Paranid faction
  (LitStats.py:84-87), although the screen shows Paranid first.

## Model

| member | source | states |
|---|---|---|
| Stats.ParseLines | LitStats.py:73-120 | Fewer than 42 lines gives "no data". Otherwise the record has every field, and each field equals its own line verbatim. |
| Stats.GetStats | LitStats.py:72-75 | "No data" exactly when the text has fewer than 41 newlines. Otherwise every field is the line at its index after splitting on `"\n"`. |
| Stats.LineOf | LitStats.py:76-119 | The line each field is read from, always below 42. Lines 0-2 are the header fields. Odd lines 3-21 are faction percentages and even lines 4-22 faction ranks. Lines 23-36 are counters, 37-40 careers and 41 the fight rank. |
| Stats.Key | LitStats.py:76-119 | The dictionary key of each field: percentages end in "_perc", rank fields in "_title", and property counters start with "count_". |
| Stats.FieldAt | LitStats.py:76-119 | Every line index below 42 is read by a field, and that field's line is that index. |
| Stats.FieldAtLineOf | LitStats.py:76-119 | The field read from a field's own line is that field. |
| Stats.LineOfInjective | LitStats.py:76-119 | No two fields are read from the same line. |
| Stats.KeysOfLines0To12 | LitStats.py:77-89 | credits=0, time_played=1, time_real=2, then argon, boron, split, paranid and teladi perc/title on lines 3 to 12, under the dictionary's keys. |
| Stats.KeysOfLines13To17 | LitStats.py:90-94 | goner perc/title, terran perc/title and atf perc are on lines 13 to 17, under the dictionary's keys. |
| Stats.KeysOfLines18To22 | LitStats.py:95-99 | atf title, pirates perc/title and yaki perc/title are on lines 18 to 22, under the dictionary's keys. |
| Stats.KeysOfLines23To29 | LitStats.py:100-106 | count_m1 to count_m7 are on lines 23 to 29. |
| Stats.KeysOfLines30To36 | LitStats.py:107-113 | count_m8, ts, tp, tm, tl, station and sat are on lines 30 to 36. |
| Stats.KeysOfLines37To41 | LitStats.py:114-118 | trade_perc=37, trade_title=38, combat_perc=39, combat_title=40, flc_rank=41. |
| Stats.ExtraLinesIgnored | LitStats.py:74-119 | Lines after the 42nd do not change the record. |
| Stats.ChangeOneLine | LitStats.py:76-119 | Replacing line k changes exactly the field read from line k. Past line 41 it changes nothing. |
| Stats.GetStatsOfLines | LitStats.py:72-119 | Text written as 42 or more newline-free lines parses back to those lines' fields. |
| Text.Split | LitStats.py:72 | `split` gives at least one part. The parts joined with the separator give back the text, and no part contains the separator. Every cut is at the leftmost occurrence left after the previous cut. |
| Text.SplitUnique | LitStats.py:72 | Any list of parts with those properties is the split, so they determine it. |
| Text.TwoOccurrences | LitStats.py:53 | Two occurrences of the separator that do not overlap give at least three parts. |
| Text.SplitCharCount | LitStats.py:72-74 | Splitting on a character gives one more piece than the character's count. |
| Text.SplitJoinChar | LitStats.py:72 | Splitting the `"\n"`-join of newline-free lines gives those lines back. |
| Text.SplitSingleOccurrence | LitStats.py:53 | With exactly one occurrence of the separator, the split is [text before, text after]. |
| Commas.AddCommasOfText | LitStats.py:19-21 | On field text, "no result" (the `ValueError`) exactly when `int` rejects the text. Otherwise the output without commas is `str(int(text))`, and its digits are grouped by commas in `{:,}` layout after any minus sign. |
| Commas.ExampleLeadingZeros | LitStats.py:19-21 | The text "007" renders as "7". |
| Commas.AddCommas | LitStats.py:19-21 | Removing the commas gives `str(n)`. The digits after any minus sign are cut at commas into a 1-3 digit first group and 3-digit groups after it. |
| Commas.Groups | LitStats.py:21 | Digit groups in `{:,}` layout whose concatenation is the digit string. |
| Commas.GroupsUnique | LitStats.py:21 | Only one grouping of a digit string has that layout. |
| Commas.AddCommasCharacterized | LitStats.py:19-21 | For n >= 0, the output is the only well-grouped string whose comma-free form is `str(n)`. |
| Commas.AddCommasRoundTrip | LitStats.py:21 | `int` of the comma-free output gives n back. |
| Commas.ExampleZero | LitStats.py:19-21 | 0 renders as "0". |
| Commas.ExampleMillion | LitStats.py:19-21 | 1000000 renders as "1,000,000". |
| Commas.ExampleCredits | LitStats.py:19-21 | 1234567 renders as "1,234,567". |
| Decimal.NatToStringCharacterized | LitStats.py:41-44 | `str(n)` is exactly the canonical digit string that `int` reads as n. |
| Decimal.IntToString | LitStats.py:41-44 | `str(i)` is a minus sign before the canonical digits of -i for a negative i. Otherwise it is the canonical digits of i. |
| Decimal.ParseInt | LitStats.py:147-155 | `int(s)` succeeds exactly when s is a nonempty digit run after an optional '+' or '-'. The result is negative only after '-'. |
| Decimal.ParseIntValue | LitStats.py:147-155 | `int` of an optional sign, any number of zeros, then the digits of n gives n, negated after '-'. |
| Decimal.ParseIntOfIntToString | LitStats.py:45-47 | `int(str(i)) == i` for every integer. |
| LootChance.FlcPerc | LitStats.py:24-32 | The chance is 0 for ranks 0 to 9999 and never negative for rank >= 0. It is a whole number of 1/10000 units. |
| LootChance.FlcPercClosedForm | LitStats.py:26-31 | The nested floors equal floor(rank/10000) * floor(rank/385) / 10000. |
| LootChance.FlcPercMonotone | LitStats.py:24-32 | A higher non-negative rank never gives a lower chance. |
| LootChance.Examples | LitStats.py:24-32 | Ranks 9999, 385000, 500000 and 10000000 give 0, 3.8, 6.49 and 2597.4. |
| ElapsedTime.Decompose | LitStats.py:37-40 | days*86400 + hours*3600 + minutes*60 + seconds == dtime. Days is floor(dtime/86400), and hours < 24, minutes < 60, seconds < 60. |
| ElapsedTime.Pad | LitStats.py:45-47 | A value below 100 pads to exactly two digits that read back as the value. |
| ElapsedTime.TimeString | LitStats.py:35-48 | Unpadded `str` of the day count, then " Days, ", then "HH:MM:SS". The three fields read as the hours, minutes and seconds left after the whole days. |
| ElapsedTime.TimeStringRoundTrip | LitStats.py:35-48 | Reading the rendered text back gives exactly dtime seconds. |
| ElapsedTime.Example | LitStats.py:35-48 | 90061 renders as "1 Days, 01:01:01". |
| RankTitle.GetRankTitle | LitStats.py:51-53 | The parts joined with " - " give back the field, and no part contains " - ". Each cut is at the leftmost " - " left after the previous cut. |
| RankTitle.Unpack | LitStats.py:131 | A successful two-name unpacking gives rank and title that rebuild the field around the leftmost " - ". Neither contains " - ". |
| RankTitle.UnpackCharacterized | LitStats.py:131 | Unpacking gives (rank, title) exactly when the field is rank, " - ", title, with that " - " the leftmost one and none in the title. |
| RankTitle.TwoSeparators | LitStats.py:131 | Two " - " that do not overlap give three or more parts, and the unpacking fails (too many values). |
| RankTitle.OverlapExample | LitStats.py:51-53 | "a - - b" has overlapping separators, is cut once, and unpacks to ("a", "- b"). |
| RankTitle.SingleSeparator | LitStats.py:51-53 | With exactly one " - ", the result is [text before, text after] and unpacking succeeds with that pair. |
| RankTitle.NoSeparator | LitStats.py:131 | With no " - ", the split is the whole field and the unpacking fails. |
| RankTitle.Example | LitStats.py:51-53 | "12 - Veteran" unpacks to ("12", "Veteran"). |
| ColourScale.Classify | LitStats.py:59-64 | The colour's tier is the number of thresholds among 20/40/60/80 that the percentage 100*n/nmax reaches. |
| ColourScale.Promote | LitStats.py:58 | The promoted value is never zero, and only zero is changed. |
| ColourScale.ClassifyBands | LitStats.py:59-64 | Without promotion: green from 80%, cyan in [60,80), white in [40,60), yellow in [20,40), red below 20%. |
| ColourScale.CpScale | LitStats.py:56-65 | The result is always one of the pairs 3, 7, 8, 4, 2. Its tier counts the thresholds the promoted percentage reaches. |
| ColourScale.CpScaleBands | LitStats.py:58-64 | Green from 80%, cyan in [60,80), white in [40,60), yellow in [20,40), red below 20%, all after promoting 0 to 1. |
| ColourScale.ZeroIsPromoted | LitStats.py:58 | `cp_scale(0, m) == cp_scale(1, m)`. |
| ColourScale.ReachedMonotone | LitStats.py:59-64 | A larger value reaches at least as many thresholds. |
| ColourScale.CpScaleMonotone | LitStats.py:56-65 | A larger value never gets a lower colour tier. |
| Display.ScaleOf | LitStats.py:131-236 | Percentages are coloured against 100, faction ranks against 10 and trade or combat ranks against 30. The fight rank's loot chance is coloured against 100. Credits, times and counters are not passed to `cp_scale`: credits use the fixed pair 4, times and counters the default attribute. |
| Display.PromotionInvisibleAtTableScales | LitStats.py:133-134 | At each table maximum, the unpromoted text "0" gets the same colour (red) as a promoted 0. |
| Display.LootColour | LitStats.py:147-150 | The loot-chance colour is green from a chance of 80, cyan from 60, white from 40, yellow from 20 and red below. It is red for ranks below 10000. |
| Display.LootColourMonotone | LitStats.py:147-150 | A higher fight rank never lowers the loot-chance colour tier. |

## Left out

- Reading the stat file (`os.path.expanduser`, `open`, `read`): `Stats.GetStats` takes the file's text as a parameter.
- Everything curses does: `window`, the `addstr`/`addnstr` drawing in `write_stats`, colour-pair registration, and `main`'s terminal setup and teardown. These are display calls into a library outside this code.
- The one-second polling loop (`loop`, `sleep`, `__TIMER__`) and key handling (quit on `q`, redraw on resize). These are real-time and driven by terminal events.
- Display.PromotionInvisibleAtTableScales: `write_stats` passes text to `cp_scale`, where `float` converts it. The model does not parse that text. It shows only that leaving "0" unpromoted makes no difference at the maxima used.
- The conversion of the loot chance to text (`str` of a Python float) is not modelled. `LootChance.FlcPerc` returns the exact rational value.
- LootChance.FlcPerc: Python divides in binary floating point before each `floor`. The model floors the exact quotient. The two agree while the intermediate values stay exact in a double: ranks below about 4·10^12 keep `rank*1000` under 2^52.
- ElapsedTime.Decompose: the same floating-point caveat applies to `dtime/60`. The `str(int(float(days)))` conversion is taken as exact.
- ColourScale.CpScale: the percentage is compared exactly (`100*n >= 80*nmax`) rather than in floating point. It requires `nmax > 0`: the source raises `ZeroDivisionError` for 0, and every caller passes 10, 30 or 100. The value is modelled as an integer. `write_stats` actually passes strings, which `float` converts. The `ValueError` that `float` raises on non-numeric text is not modelled.
- Decimal.ParseInt: models `int` only for an optional sign followed by ASCII digits. Surrounding whitespace, underscores and non-ASCII digits, which Python also accepts, are treated as errors.
- Text.Split: requires a nonempty separator. Python raises `ValueError` on an empty one, and the source only splits on `"\n"` and `" - "`.
- The rank-colour path of `write_stats` (`cp_scale(rank, 10 or 30)` on the text before " - ") is covered only by the scale table. Parsing that text as a number is a Python `float` conversion outside this model.
