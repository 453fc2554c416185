/** The Python string operations the name extractor relies on:
    `str.lower`, the `in` operator, `str.find`, slicing, `str.join`, and
    `str.split` as the inverse of `join`. */
module Text {

  /** `str.lower` on one character, restricted to ASCII: the upper-case
      letters map to their lower-case forms and everything else is kept. */
  function LowerChar(c: char): (r: char)
    ensures !('A' <= r <= 'Z')
    ensures 'a' <= r <= 'z' <==> ('a' <= c <= 'z' || 'A' <= c <= 'Z')
    ensures !('A' <= c <= 'Z') ==> r == c
  {
    if 'A' <= c <= 'Z' then (c as int + 32) as char else c
  }

  /** `str.lower` on a whole string. It never changes the length, so offsets
      found in the lower-cased copy index the original string. */
  function Lower(s: string): (r: string)
    ensures |r| == |s|
    ensures forall i :: 0 <= i < |s| ==> r[i] == LowerChar(s[i])
  {
    seq(|s|, i requires 0 <= i < |s| => LowerChar(s[i]))
  }

  lemma LowerDistributes(a: string, b: string)
    ensures Lower(a + b) == Lower(a) + Lower(b)
  {
    assert forall i :: 0 <= i < |a| ==> (a + b)[i] == a[i];
    assert forall i :: |a| <= i < |a| + |b| ==> (a + b)[i] == b[i - |a|];
  }

  lemma LowerSlice(s: string, i: nat, j: nat)
    requires i <= j <= |s|
    ensures Lower(s[i..j]) == Lower(s)[i..j]
  {
  }

  /** `pat` occurs in `s` starting at offset `i`. */
  predicate OccursAt(s: string, pat: string, i: int)
  {
    0 <= i && i + |pat| <= |s| && s[i..i + |pat|] == pat
  }

  /** `t` is a contiguous piece of `s`. */
  ghost predicate IsSubstring(t: string, s: string)
  {
    exists i :: OccursAt(s, t, i)
  }

  /** Python's `pat in s`: some occurrence, searched for only at the
      offsets where the pattern fits. */
  predicate Contains(s: string, pat: string): (b: bool)
    ensures b <==> IsSubstring(pat, s)
    ensures pat == [] ==> b
    ensures b ==> |pat| <= |s|
  {
    assert pat == [] ==> OccursAt(s, pat, 0);
    exists i | 0 <= i <= |s| - |pat| :: OccursAt(s, pat, i)
  }

  /** `i` is the offset of the first occurrence of `pat` in `s`. */
  ghost predicate IsFirstOccurrence(s: string, pat: string, i: int)
  {
    OccursAt(s, pat, i) && forall j :: 0 <= j < i ==> !OccursAt(s, pat, j)
  }

  lemma FirstOccurrenceIsUnique(s: string, pat: string, i: int, j: int)
    requires IsFirstOccurrence(s, pat, i) && IsFirstOccurrence(s, pat, j)
    ensures i == j
  {
  }

  lemma OccursAtShift(s: string, pat: string)
    requires |s| > 0
    ensures forall i :: OccursAt(s[1..], pat, i) ==> OccursAt(s, pat, i + 1)
    ensures forall i :: 1 <= i && OccursAt(s, pat, i) ==> OccursAt(s[1..], pat, i - 1)
  {
    forall i | OccursAt(s[1..], pat, i)
      ensures OccursAt(s, pat, i + 1)
    {
      assert s[1..][i..i + |pat|] == s[i + 1..i + 1 + |pat|];
    }
    forall i | 1 <= i && OccursAt(s, pat, i)
      ensures OccursAt(s[1..], pat, i - 1)
    {
      assert s[1..][i - 1..i - 1 + |pat|] == s[i..i + |pat|];
    }
  }

  /** Python's `s.find(pat)`: the offset of the first occurrence, or -1. */
  function Find(s: string, pat: string): (r: int)
    ensures r == -1 <==> !Contains(s, pat)
    ensures r != -1 ==> IsFirstOccurrence(s, pat, r)
    decreases |s|
  {
    if |s| < |pat| then
      -1
    else if s[..|pat|] == pat then
      assert OccursAt(s, pat, 0);
      0
    else
      var k := Find(s[1..], pat);
      OccursAtShift(s, pat);
      assert !OccursAt(s, pat, 0);
      if k == -1 then
        -1
      else
        k + 1
  }

  /** Python's `s[i:j]` for non-negative bounds: bounds past the end are
      clamped to the length, and a slice whose end is not after its start is
      empty. */
  function PySlice(s: string, i: nat, j: nat): (r: string)
    ensures j <= i ==> r == ""
    ensures i <= j <= |s| ==> r == s[i..j]
    ensures |s| <= i ==> r == ""
    ensures i <= |s| <= j ==> r == s[i..]
    ensures IsSubstring(r, s)
  {
    var lo := if i < |s| then i else |s|;
    var hi := if j < |s| then j else |s|;
    var r := if hi <= lo then "" else s[lo..hi];
    assert OccursAt(s, r, if hi <= lo then 0 else lo);
    r
  }

  /** The total length of a list of words. */
  function TotalLength(ws: seq<string>): nat
    decreases |ws|
  {
    if |ws| == 0 then 0 else |ws[0]| + TotalLength(ws[1..])
  }

  /** Python's `sep.join(ws)`: the words in order, with one separator
      between each two neighbours and none at either end. */
  function Join(ws: seq<string>, sep: string): (r: string)
    ensures |ws| >= 1 ==> |r| == TotalLength(ws) + (|ws| - 1) * |sep|
    ensures |ws| >= 1 ==> r[..|ws[0]|] == ws[0]
    ensures |ws| >= 2 ==> r[|ws[0]|..|ws[0]| + |sep|] == sep
    decreases |ws|
  {
    if |ws| == 0 then ""
    else if |ws| == 1 then ws[0]
    else
      var rest := Join(ws[1..], sep);
      var r := ws[0] + sep + rest;
      assert r[..|ws[0]|] == ws[0];
      assert r[|ws[0]|..|ws[0]| + |sep|] == sep;
      assert (|ws| - 1) * |sep| == |sep| + (|ws| - 2) * |sep|;
      r
  }

  /** Joining with a non-empty separator gives the empty string exactly when
      there is nothing to join or the only word is empty: two empty words
      already give the separator itself. */
  lemma JoinIsEmpty(ws: seq<string>, sep: string)
    requires sep != ""
    ensures Join(ws, sep) == "" <==> ws == [] || ws == [""]
  {
  }

  /** Python's `s.split(c)` with an explicit one-character separator: the
      pieces between separators, empty ones included, and always at least
      one piece. */
  function Split(s: string, c: char): (r: seq<string>)
    ensures |r| >= 1
    ensures forall k :: 0 <= k < |r| ==> c !in r[k]
    decreases |s|
  {
    if |s| == 0 then [""]
    else
      var rest := Split(s[1..], c);
      if s[0] == c then [""] + rest
      else [[s[0]] + rest[0]] + rest[1..]
  }

  lemma {:induction false} SplitWithoutSeparator(w: string, c: char)
    requires c !in w
    ensures Split(w, c) == [w]
    decreases |w|
  {
    if |w| > 0 {
      SplitWithoutSeparator(w[1..], c);
      assert [w[0]] + w[1..] == w;
    }
  }

  lemma {:induction false} SplitAfterWord(w: string, c: char, rest: string)
    requires c !in w
    ensures Split(w + [c] + rest, c) == [w] + Split(rest, c)
    decreases |w|
  {
    var s := w + [c] + rest;
    if |w| == 0 {
      assert s[1..] == rest;
    } else {
      assert s[1..] == w[1..] + [c] + rest;
      SplitAfterWord(w[1..], c, rest);
      assert [w[0]] + w[1..] == w;
    }
  }

  /** Splitting a join on its one-character separator gives back the words,
      provided there is at least one word and no word holds the separator. */
  lemma {:induction false} SplitJoinRoundTrip(ws: seq<string>, c: char)
    requires |ws| >= 1
    requires forall k :: 0 <= k < |ws| ==> c !in ws[k]
    ensures Split(Join(ws, [c]), c) == ws
    decreases |ws|
  {
    if |ws| == 1 {
      SplitWithoutSeparator(ws[0], c);
    } else {
      SplitJoinRoundTrip(ws[1..], c);
      SplitAfterWord(ws[0], c, Join(ws[1..], [c]));
      assert [ws[0]] + ws[1..] == ws;
    }
  }
}
