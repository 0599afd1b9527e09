/**
 Python's `str.split(sep)` with an explicit, nonempty separator, and its inverse `sep.join(parts)`.

 `split` scans from the left and cuts at each occurrence of `sep` that does not
 overlap an earlier cut; the stat parser splits on "\n" and the rank field on " - ".
 */
module Text {
  import opened Wrappers

  /** `sep` occurs in `s` starting at index `k`. */
  predicate OccursAt(s: string, sep: string, k: int) {
    0 <= k && k + |sep| <= |s| && s[k..k + |sep|] == sep
  }

  /** Python's `sep in s`. */
  predicate Contains(s: string, sep: string) {
    exists k :: 0 <= k <= |s| && OccursAt(s, sep, k)
  }

  /** Python's `s.find(sep, from)`: the leftmost occurrence at or after `from`. */
  function FindFrom(s: string, sep: string, from: nat): (r: Option<nat>)
    requires |sep| > 0 && from <= |s|
    ensures r.Some? ==> from <= r.value && OccursAt(s, sep, r.value)
    ensures r.Some? ==> forall j :: from <= j < r.value ==> !OccursAt(s, sep, j)
    ensures r.None? ==> forall j :: from <= j ==> !OccursAt(s, sep, j)
    decreases |s| - from
  {
    if from + |sep| > |s| then None
    else if s[from..from + |sep|] == sep then Some(from)
    else FindFrom(s, sep, from + 1)
  }

  /** `sep.join(parts)`. */
  function Join(parts: seq<string>, sep: string): string
    decreases |parts|
  {
    if |parts| == 0 then ""
    else if |parts| == 1 then parts[0]
    else parts[0] + sep + Join(parts[1..], sep)
  }

  /**
   A part that was cut at the leftmost occurrence of `sep` after it: in the part
   followed by its separator, no occurrence of `sep` starts inside the part.
   */
  predicate CutAtFirst(part: string, sep: string) {
    forall j :: 0 <= j < |part| ==> !OccursAt(part + sep, sep, j)
  }

  /**
   `s.split(sep)`: at least one part, the parts join back to `s`, no part holds
   `sep`, and every cut is at the leftmost occurrence not overlapping the cut before.
   */
  function Split(s: string, sep: string): (parts: seq<string>)
    requires |sep| > 0
    ensures |parts| > 0
    ensures Join(parts, sep) == s
    ensures forall i :: 0 <= i < |parts| ==> !Contains(parts[i], sep)
    ensures forall i :: 0 <= i < |parts| - 1 ==> CutAtFirst(parts[i], sep)
    decreases |s|
  {
    match FindFrom(s, sep, 0)
    case None => [s]
    case Some(k) =>
      var rest := Split(s[k + |sep|..], sep);
      CutAtLeftmost(s, sep, k, rest);
      [s[..k]] + rest
  }

  /**
   Cutting at the leftmost occurrence `k` and putting the text before it in front
   of a split of the text after it gives a split of the whole.
   */
  lemma CutAtLeftmost(s: string, sep: string, k: nat, rest: seq<string>)
    requires |sep| > 0 && OccursAt(s, sep, k)
    requires forall j :: 0 <= j < k ==> !OccursAt(s, sep, j)
    requires |rest| > 0 && Join(rest, sep) == s[k + |sep|..]
    requires forall i :: 0 <= i < |rest| ==> !Contains(rest[i], sep)
    requires forall i :: 0 <= i < |rest| - 1 ==> CutAtFirst(rest[i], sep)
    ensures Join([s[..k]] + rest, sep) == s
    ensures forall i :: 0 <= i < |rest| + 1 ==> !Contains(([s[..k]] + rest)[i], sep)
    ensures forall i :: 0 <= i < |rest| ==> CutAtFirst(([s[..k]] + rest)[i], sep)
  {
    PrefixBeforeFirstOccurrence(s, sep, k);
    LeftmostCut(s, sep, k);
    var parts := [s[..k]] + rest;
    assert parts[1..] == rest;
    assert s == s[..k] + sep + s[k + |sep|..];
  }

  /** The text before the leftmost occurrence was cut at the first occurrence after it. */
  lemma LeftmostCut(s: string, sep: string, k: nat)
    requires |sep| > 0 && OccursAt(s, sep, k)
    requires forall j :: 0 <= j < k ==> !OccursAt(s, sep, j)
    ensures CutAtFirst(s[..k], sep)
  {
    assert s[..k] + sep == s[..k + |sep|];
    forall j | 0 <= j < k
      ensures !OccursAt(s[..k] + sep, sep, j)
    {
      if OccursAt(s[..k] + sep, sep, j) {
        assert s[..k + |sep|][j..j + |sep|] == s[j..j + |sep|];
        assert OccursAt(s, sep, j);
      }
    }
  }

  /**
   `split` is the only way of cutting `s` at occurrences of `sep` whose parts are
   free of `sep` and whose every cut is at the leftmost remaining occurrence.
   */
  lemma {:induction false} SplitUnique(s: string, sep: string, parts: seq<string>)
    requires |sep| > 0 && |parts| > 0 && Join(parts, sep) == s
    requires !Contains(parts[|parts| - 1], sep)
    requires forall i :: 0 <= i < |parts| - 1 ==> CutAtFirst(parts[i], sep)
    ensures Split(s, sep) == parts
    decreases |parts|
  {
    if |parts| == 1 {
      if FindFrom(s, sep, 0).Some? {
        assert Contains(s, sep);
      }
    } else {
      var k := |parts[0]|;
      var tail := Join(parts[1..], sep);
      assert s == parts[0] + sep + tail;
      assert s[..k] == parts[0];
      assert s[k..k + |sep|] == sep;
      assert s[k + |sep|..] == tail;
      forall j | 0 <= j < k
        ensures !OccursAt(s, sep, j)
      {
        if OccursAt(s, sep, j) {
          assert s[..k + |sep|] == parts[0] + sep;
          assert (parts[0] + sep)[j..j + |sep|] == s[j..j + |sep|];
          assert OccursAt(parts[0] + sep, sep, j);
        }
      }
      FindFirstOccurrence(s, sep, k);
      assert forall i :: 0 <= i < |parts[1..]| - 1 ==> parts[1..][i] == parts[i + 1];
      SplitUnique(tail, sep, parts[1..]);
    }
  }

  /**
   Two occurrences of `sep` that do not overlap give at least three parts: the first
   cut comes no later than the first occurrence, so the second is left for another cut.
   */
  lemma TwoOccurrences(s: string, sep: string, j: nat, k: nat)
    requires |sep| > 0 && OccursAt(s, sep, j) && OccursAt(s, sep, k) && j + |sep| <= k
    ensures |Split(s, sep)| >= 3
  {
    var first := FindFrom(s, sep, 0);
    assert first.Some?;
    var k0 := first.value;
    assert k0 <= j;
    var rest := s[k0 + |sep|..];
    var m := k - (k0 + |sep|);
    assert rest[m..m + |sep|] == s[k..k + |sep|];
    assert OccursAt(rest, sep, m);
    assert Contains(rest, sep);
  }

  /** The text before the leftmost occurrence of `sep` does not contain `sep`. */
  lemma PrefixBeforeFirstOccurrence(s: string, sep: string, k: nat)
    requires |sep| > 0 && k <= |s|
    requires forall j :: 0 <= j < k ==> !OccursAt(s, sep, j)
    ensures !Contains(s[..k], sep)
  {
    forall j | OccursAt(s[..k], sep, j)
      ensures false
    {
      assert s[..k][j..j + |sep|] == s[j..j + |sep|];
      assert OccursAt(s, sep, j);
    }
  }

  /** The leftmost occurrence is the one with no occurrence before it. */
  lemma FindFirstOccurrence(s: string, sep: string, k: nat)
    requires |sep| > 0 && OccursAt(s, sep, k)
    requires forall j :: 0 <= j < k ==> !OccursAt(s, sep, j)
    ensures FindFrom(s, sep, 0) == Some(k)
  {
  }

  /** Joining a part onto the end of a nonempty list. */
  lemma {:induction false} JoinSnoc(parts: seq<string>, last: string, sep: string)
    requires |parts| > 0
    ensures Join(parts + [last], sep) == Join(parts, sep) + sep + last
    decreases |parts|
  {
    if |parts| > 1 {
      assert (parts + [last])[1..] == parts[1..] + [last];
      JoinSnoc(parts[1..], last, sep);
    }
  }

  /**
   When `sep` occurs exactly once in `s`, splitting yields exactly the text before
   it and the text after it.
   */
  lemma SplitSingleOccurrence(s: string, sep: string, k: nat)
    requires |sep| > 0 && OccursAt(s, sep, k)
    requires forall j :: OccursAt(s, sep, j) ==> j == k
    ensures Split(s, sep) == [s[..k], s[k + |sep|..]]
  {
    FindFirstOccurrence(s, sep, k);
    var rest := s[k + |sep|..];
    forall j | OccursAt(rest, sep, j)
      ensures false
    {
      assert rest[j..j + |sep|] == s[k + |sep| + j..k + |sep| + j + |sep|];
      assert OccursAt(s, sep, k + |sep| + j);
    }
    assert FindFrom(rest, sep, 0).None?;
  }

  // Single-character separators, as in the stat file's `split('\n')`.

  /** Number of occurrences of `c` in `s`. */
  function Count(s: string, c: char): nat
    decreases |s|
  {
    if |s| == 0 then 0 else (if s[0] == c then 1 else 0) + Count(s[1..], c)
  }

  lemma {:induction false} CountAppend(a: string, b: string, c: char)
    ensures Count(a + b, c) == Count(a, c) + Count(b, c)
    decreases |a|
  {
    if |a| > 0 {
      assert (a + b)[0] == a[0];
      assert (a + b)[1..] == a[1..] + b;
      CountAppend(a[1..], b, c);
    } else {
      assert a + b == b;
    }
  }

  lemma {:induction false} CountAbsent(s: string, c: char)
    requires c !in s
    ensures Count(s, c) == 0
    decreases |s|
  {
    if |s| > 0 {
      CountAbsent(s[1..], c);
    }
  }

  lemma ContainsChar(s: string, c: char)
    ensures Contains(s, [c]) <==> c in s
  {
    if c in s {
      var k :| 0 <= k < |s| && s[k] == c;
      assert OccursAt(s, [c], k);
    }
    if Contains(s, [c]) {
      var k :| 0 <= k <= |s| && OccursAt(s, [c], k);
      assert k + 1 <= |s| && s[k..k + 1] == [c];
      assert s[k] == s[k..k + 1][0];
    }
  }

  /** Splitting on a character yields one more part than there are occurrences of it. */
  lemma {:induction false} SplitCharCount(s: string, c: char)
    ensures |Split(s, [c])| == Count(s, c) + 1
    decreases |s|
  {
    var parts := Split(s, [c]);
    match FindFrom(s, [c], 0)
    case None =>
      ContainsChar(s, c);
      assert !Contains(s, [c]) by {
        forall k | OccursAt(s, [c], k) ensures false { }
      }
      CountAbsent(s, c);
    case Some(k) =>
      var rest := s[k + 1..];
      assert parts == [s[..k]] + Split(rest, [c]);
      assert s == s[..k] + [c] + rest;
      ContainsChar(s[..k], c);
      PrefixBeforeFirstOccurrence(s, [c], k);
      CountAbsent(s[..k], c);
      CountAppend(s[..k] + [c], rest, c);
      CountAppend(s[..k], [c], c);
      SplitCharCount(rest, c);
  }

  /** Splitting the join of character-free parts on that character gives the parts back. */
  lemma {:induction false} SplitJoinChar(parts: seq<string>, c: char)
    requires |parts| > 0
    requires forall i :: 0 <= i < |parts| ==> c !in parts[i]
    ensures Split(Join(parts, [c]), [c]) == parts
    decreases |parts|
  {
    var s := Join(parts, [c]);
    var p := parts[0];
    if |parts| == 1 {
      ContainsChar(p, c);
      forall j | OccursAt(s, [c], j)
        ensures false
      {
      }
      assert FindFrom(s, [c], 0).None?;
    } else {
      var rest := Join(parts[1..], [c]);
      assert s == p + [c] + rest;
      assert OccursAt(s, [c], |p|);
      forall j | 0 <= j < |p|
        ensures !OccursAt(s, [c], j)
      {
        assert s[j] == p[j];
      }
      FindFirstOccurrence(s, [c], |p|);
      assert s[..|p|] == p;
      assert s[|p| + 1..] == rest;
      SplitJoinChar(parts[1..], c);
      assert parts == [p] + parts[1..];
    }
  }

  /** `s.replace(c, "")`: every character except `c`, in order. */
  function Remove(s: string, c: char): (r: string)
    ensures c !in r
    ensures |r| == |s| - Count(s, c)
    decreases |s|
  {
    if |s| == 0 then ""
    else if s[0] == c then Remove(s[1..], c)
    else [s[0]] + Remove(s[1..], c)
  }

  lemma {:induction false} RemoveAppend(a: string, b: string, c: char)
    ensures Remove(a + b, c) == Remove(a, c) + Remove(b, c)
    decreases |a|
  {
    if |a| > 0 {
      assert (a + b)[0] == a[0];
      assert (a + b)[1..] == a[1..] + b;
      RemoveAppend(a[1..], b, c);
    } else {
      assert a + b == b;
    }
  }

  lemma {:induction false} RemoveAbsent(s: string, c: char)
    requires c !in s
    ensures Remove(s, c) == s
    decreases |s|
  {
    if |s| > 0 {
      RemoveAbsent(s[1..], c);
      assert s == [s[0]] + s[1..];
    }
  }
}
