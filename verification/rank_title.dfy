/**
 `get_rank_title(title)`: a rank/reputation field such as "12 - Veteran" is split
 on the literal " - ", and `write_stats` unpacks the result into two names.
 */
module RankTitle {
  import opened Wrappers
  import Text

  const Separator := " - "

  /**
   `title.split(" - ")`: the parts reassemble `title`, none contains the separator,
   and each cut is at the leftmost separator left after the previous cut.
   */
  function GetRankTitle(title: string): (parts: seq<string>)
    ensures |parts| > 0
    ensures Text.Join(parts, Separator) == title
    ensures forall i :: 0 <= i < |parts| ==> !Text.Contains(parts[i], Separator)
    ensures forall i :: 0 <= i < |parts| - 1 ==> Text.CutAtFirst(parts[i], Separator)
  {
    Text.Split(title, Separator)
  }

  /**
   `rank, title = get_rank_title(field)`: `None` is the `ValueError` Python raises
   when the split does not give exactly two parts.
   */
  function Unpack(field: string): (r: Option<(string, string)>)
    ensures r.Some? ==> field == r.value.0 + Separator + r.value.1
    ensures r.Some? ==> !Text.Contains(r.value.0, Separator) && !Text.Contains(r.value.1, Separator)
    ensures r.Some? ==> Text.CutAtFirst(r.value.0, Separator)
  {
    var parts := GetRankTitle(field);
    if |parts| == 2 then
      assert parts[1..] == [parts[1]];
      Some((parts[0], parts[1]))
    else None
  }

  /** With exactly one separator in the field, the rank is the text before it and the title the text after. */
  lemma SingleSeparator(field: string, k: nat)
    requires Text.OccursAt(field, Separator, k)
    requires forall j :: Text.OccursAt(field, Separator, j) ==> j == k
    ensures GetRankTitle(field) == [field[..k], field[k + 3..]]
    ensures Unpack(field) == Some((field[..k], field[k + 3..]))
  {
    Text.SplitSingleOccurrence(field, Separator, k);
  }

  /** Without a separator the split gives the whole field, and unpacking it fails. */
  lemma NoSeparator(field: string)
    requires !Text.Contains(field, Separator)
    ensures GetRankTitle(field) == [field]
    ensures Unpack(field) == None
  {
  }

  /**
   Unpacking gives the pair `(rank, title)` exactly when the field is `rank`, the
   separator, then `title`, with the separator the leftmost one and none in `title`.
   */
  lemma UnpackCharacterized(field: string, rank: string, title: string)
    ensures Unpack(field) == Some((rank, title)) <==>
      && field == rank + Separator + title
      && Text.CutAtFirst(rank, Separator)
      && !Text.Contains(title, Separator)
  {
    if field == rank + Separator + title && Text.CutAtFirst(rank, Separator) && !Text.Contains(title, Separator) {
      var parts := [rank, title];
      assert parts[1..] == [title];
      Text.SplitUnique(field, Separator, parts);
    }
  }

  /**
   Two separators that do not overlap split the field into three or more parts, and
   the two-name unpacking raises `ValueError` (too many values).
   */
  lemma TwoSeparators(field: string, j: nat, k: nat)
    requires Text.OccursAt(field, Separator, j) && Text.OccursAt(field, Separator, k) && j + 3 <= k
    ensures |GetRankTitle(field)| >= 3
    ensures Unpack(field) == None
  {
    Text.TwoOccurrences(field, Separator, j, k);
  }

  lemma Example()
    ensures Unpack("12 - Veteran") == Some(("12", "Veteran"))
  {
    var s := "12 - Veteran";
    assert Text.OccursAt(s, Separator, 2) by { assert s[2..5] == Separator; }
    forall j | Text.OccursAt(s, Separator, j)
      ensures j == 2
    {
      assert s[j + 1] == s[j..j + 3][1] == '-';
      assert s[j + 1] == '-' ==> j + 1 == 3;
    }
    SingleSeparator(s, 2);
    assert s[..2] == "12" && s[5..] == "Veteran";
  }

  /**
   Overlapping separators: in "a - - b" the second " - " starts on the first one's
   last space, so Python cuts only once, giving ("a", "- b").
   */
  lemma OverlapExample()
    ensures Unpack("a - - b") == Some(("a", "- b"))
  {
    var s := "a - - b";
    assert s == "a" + Separator + "- b";
    assert Text.CutAtFirst("a", Separator) by {
      assert ("a" + Separator)[0] == 'a';
    }
    assert !Text.OccursAt("- b", Separator, 0) by {
      assert "- b"[0..3][0] == '-' != Separator[0];
    }
    UnpackCharacterized(s, "a", "- b");
  }
}
