/** Scoring and ranking of the user table (app.py:72-84): one score per user
    whose name is a string, then Python's stable `list.sort(reverse=True)`
    on the score. */
module Ranking {
  import opened Extraction

  /** A row of the user table. */
  datatype UserRow = UserRow(id: string, name: Cell)

  /** One entry of the `matches` list: `{"id": ..., "match_metric": ...}`. */
  datatype Match = Match(id: string, matchMetric: int)

  /** `fuzz.ratio`, a foreign function: nothing is assumed about it. */
  type Ratio = (string, string) -> int

  // ---------------------------------------------------------------------
  // Scoring (app.py:72-77)
  // ---------------------------------------------------------------------

  /** The `matches` list the loop of app.py:73-77 has built after visiting
      `rows`: rows whose name is not a string are skipped. */
  function ScoreRows(rows: seq<UserRow>, name: string, ratio: Ratio): (r: seq<Match>)
    ensures |r| <= |rows|
    ensures forall m :: m in r ==>
              exists row :: row in rows && row.name.Str? && m == Match(row.id, ratio(name, row.name.s))
    decreases |rows|
  {
    if |rows| == 0 then []
    else
      var last := rows[|rows| - 1];
      ScoreRows(rows[..|rows| - 1], name, ratio)
        + if last.name.Str? then [Match(last.id, ratio(name, last.name.s))] else []
  }

  /** The loop of app.py:73-77: one entry per user whose name is a string
      (the extracted name always is one), appended in table order. */
  method ScoreUsers(users: seq<UserRow>, name: string, ratio: Ratio) returns (matches: seq<Match>)
    ensures matches == ScoreRows(users, name, ratio)
  {
    matches := [];
    for i := 0 to |users|
      invariant matches == ScoreRows(users[..i], name, ratio)
    {
      var row := users[i];
      if row.name.Str? {
        matches := matches + [Match(row.id, ratio(name, row.name.s))];
      }
      assert users[..i + 1][..i] == users[..i];
    }
    assert users[..|users|] == users;
  }

  /** The positions, in table order, of the rows whose name is a string. */
  function StringNameRows(rows: seq<UserRow>): (idx: seq<nat>)
    ensures forall k :: 0 <= k < |idx| ==> idx[k] < |rows| && rows[idx[k]].name.Str?
    ensures forall k, l :: 0 <= k < l < |idx| ==> idx[k] < idx[l]
    ensures forall i :: 0 <= i < |rows| && rows[i].name.Str? ==> i in idx
    decreases |rows|
  {
    if |rows| == 0 then []
    else
      var n := |rows| - 1;
      assert forall i :: 0 <= i < n ==> rows[..n][i] == rows[i];
      StringNameRows(rows[..n]) + if rows[n].name.Str? then [n] else []
  }

  /** The scored list is in one-to-one, order-preserving correspondence with
      the rows whose name is a string: its k-th entry scores the k-th such
      row. */
  lemma {:induction false} ScoreRowsCorrespondence(rows: seq<UserRow>, name: string, ratio: Ratio)
    ensures |ScoreRows(rows, name, ratio)| == |StringNameRows(rows)|
    ensures forall k :: 0 <= k < |StringNameRows(rows)| ==>
              var row := rows[StringNameRows(rows)[k]];
              ScoreRows(rows, name, ratio)[k] == Match(row.id, ratio(name, row.name.s))
    decreases |rows|
  {
    if |rows| > 0 {
      var n := |rows| - 1;
      ScoreRowsCorrespondence(rows[..n], name, ratio);
      assert forall i :: 0 <= i < n ==> rows[..n][i] == rows[i];
    }
  }

  // ---------------------------------------------------------------------
  // Stable descending sort (app.py:79)
  // ---------------------------------------------------------------------

  ghost predicate SortedByMetricDescending(s: seq<Match>)
  {
    forall p, q :: 0 <= p < q < |s| ==> s[p].matchMetric >= s[q].matchMetric
  }

  /** The entries of `s` whose metric is `v`, in their order in `s`. */
  ghost function WithMetric(s: seq<Match>, v: int): (r: seq<Match>)
    ensures |r| <= |s|
    ensures forall x :: x in r ==> x in s && x.matchMetric == v
    decreases |s|
  {
    if |s| == 0 then []
    else (if s[0].matchMetric == v then [s[0]] else []) + WithMetric(s[1..], v)
  }

  /** Every group of equal metrics appears in the same order in `r` as in
      `s`: this is what stability means. */
  ghost predicate SameTieOrder(r: seq<Match>, s: seq<Match>)
  {
    forall v :: WithMetric(r, v) == WithMetric(s, v)
  }

  /** `r` holds the entries of `s`, with every group of equal metrics in
      its original order. */
  ghost predicate IsTieStableRearrangement(r: seq<Match>, s: seq<Match>)
  {
    multiset(r) == multiset(s) && SameTieOrder(r, s)
  }

  /** `r` is what a stable sort by descending metric makes of `s`. */
  ghost predicate IsStableDescendingSort(r: seq<Match>, s: seq<Match>)
  {
    SortedByMetricDescending(r) && IsTieStableRearrangement(r, s)
  }

  lemma {:induction false} WithMetricAppend(a: seq<Match>, b: seq<Match>, v: int)
    ensures WithMetric(a + b, v) == WithMetric(a, v) + WithMetric(b, v)
    decreases |a|
  {
    if |a| == 0 {
      assert a + b == b;
    } else {
      assert (a + b)[0] == a[0] && (a + b)[1..] == a[1..] + b;
      WithMetricAppend(a[1..], b, v);
    }
  }

  ghost function SwapAdjacent(s: seq<Match>, j: int): seq<Match>
    requires 0 < j < |s|
  {
    s[..j - 1] + [s[j], s[j - 1]] + s[j + 1..]
  }

  lemma SameTieOrderIsTransitive(r: seq<Match>, s: seq<Match>, t: seq<Match>)
    requires SameTieOrder(r, s) && SameTieOrder(s, t)
    ensures SameTieOrder(r, t)
  {
    forall v ensures WithMetric(r, v) == WithMetric(t, v) {
      assert WithMetric(r, v) == WithMetric(s, v);
    }
  }

  lemma WithMetricPairSwap(x: Match, y: Match, v: int)
    requires x.matchMetric != y.matchMetric
    ensures WithMetric([x, y], v) == WithMetric([y, x], v)
  {
    assert [x, y][1..] == [y] && [y, x][1..] == [x];
    assert [x][1..] == [] && [y][1..] == [];
  }

  /** Exchanging two neighbours with different metrics leaves every group of
      equal metrics in its order. */
  lemma SwapKeepsTieOrder(s: seq<Match>, j: int)
    requires 0 < j < |s|
    requires s[j - 1].matchMetric != s[j].matchMetric
    ensures SameTieOrder(SwapAdjacent(s, j), s)
    ensures multiset(SwapAdjacent(s, j)) == multiset(s)
  {
    var pre, x, y, post := s[..j - 1], s[j - 1], s[j], s[j + 1..];
    assert s == pre + [x, y] + post;
    forall v ensures WithMetric(SwapAdjacent(s, j), v) == WithMetric(s, v) {
      WithMetricAppend(pre + [y, x], post, v);
      WithMetricAppend(pre, [y, x], v);
      WithMetricAppend(pre + [x, y], post, v);
      WithMetricAppend(pre, [x, y], v);
      WithMetricPairSwap(x, y, v);
    }
  }

  lemma WithMetricUnfold(s: seq<Match>, v: int)
    requires s != []
    ensures WithMetric(s, v) == (if s[0].matchMetric == v then [s[0]] else []) + WithMetric(s[1..], v)
  {
  }

  lemma GroupOfHeadIsNonEmpty(s: seq<Match>)
    requires s != []
    ensures WithMetric(s, s[0].matchMetric) != []
    ensures WithMetric(s, s[0].matchMetric)[0] == s[0]
  {
    WithMetricUnfold(s, s[0].matchMetric);
  }

  /** The head of a sequence sorted by descending metric has the largest
      metric of any entry. */
  lemma HeadHasLargestMetric(s: seq<Match>, x: Match)
    requires SortedByMetricDescending(s) && x in s
    ensures x.matchMetric <= s[0].matchMetric
  {
    var k :| 0 <= k < |s| && s[k] == x;
    if k > 0 {
      assert s[0].matchMetric >= s[k].matchMetric;
    }
  }

  /** Two sorted sequences with the same groups start with the same entry. */
  lemma HeadsAgree(r1: seq<Match>, r2: seq<Match>)
    requires r1 != [] && r2 != []
    requires SortedByMetricDescending(r1) && SortedByMetricDescending(r2)
    requires SameTieOrder(r1, r2)
    ensures r1[0] == r2[0]
  {
    var m1, m2 := r1[0].matchMetric, r2[0].matchMetric;
    GroupOfHeadIsNonEmpty(r1);
    GroupOfHeadIsNonEmpty(r2);
    assert WithMetric(r1, m1) == WithMetric(r2, m1);
    assert WithMetric(r1, m2) == WithMetric(r2, m2);
    HeadHasLargestMetric(r2, WithMetric(r2, m1)[0]);
    HeadHasLargestMetric(r1, WithMetric(r1, m2)[0]);
  }

  /** Dropping a common head keeps the groups equal. */
  lemma TailsKeepTieOrder(r1: seq<Match>, r2: seq<Match>)
    requires r1 != [] && r2 != [] && r1[0] == r2[0]
    requires SameTieOrder(r1, r2)
    ensures SameTieOrder(r1[1..], r2[1..])
  {
    forall v ensures WithMetric(r1[1..], v) == WithMetric(r2[1..], v) {
      WithMetricUnfold(r1, v);
      WithMetricUnfold(r2, v);
      var head := if r1[0].matchMetric == v then [r1[0]] else [];
      assert WithMetric(r1, v) == WithMetric(r2, v);
      assert (head + WithMetric(r1[1..], v))[|head|..] == WithMetric(r1[1..], v);
      assert (head + WithMetric(r2[1..], v))[|head|..] == WithMetric(r2[1..], v);
    }
  }

  /** A sequence sorted by descending metric is determined by its groups of
      equal metrics. */
  lemma {:induction false} SortedIsDeterminedByTieOrder(r1: seq<Match>, r2: seq<Match>)
    requires SortedByMetricDescending(r1) && SortedByMetricDescending(r2)
    requires SameTieOrder(r1, r2)
    ensures r1 == r2
    decreases |r1|
  {
    if r1 == [] || r2 == [] {
      if r1 != [] {
        GroupOfHeadIsNonEmpty(r1);
      }
      if r2 != [] {
        GroupOfHeadIsNonEmpty(r2);
      }
    } else {
      HeadsAgree(r1, r2);
      TailsKeepTieOrder(r1, r2);
      SortedIsDeterminedByTieOrder(r1[1..], r2[1..]);
      assert r1 == [r1[0]] + r1[1..] && r2 == [r2[0]] + r2[1..];
    }
  }

  /** Any two stable descending sorts of the same list agree. So the result
      of Python's sort (Timsort, stable) is the result of the insertion sort
      below. */
  lemma StableDescendingSortIsUnique(r1: seq<Match>, r2: seq<Match>, s: seq<Match>)
    requires IsStableDescendingSort(r1, s) && IsStableDescendingSort(r2, s)
    ensures r1 == r2
  {
    SortedIsDeterminedByTieOrder(r1, r2);
  }

  /** Exchanges `a[j-1]` and `a[j]`. */
  method SwapNeighbours(a: array<Match>, j: int)
    requires 0 < j < a.Length
    modifies a
    ensures a[j - 1] == old(a[j]) && a[j] == old(a[j - 1])
    ensures forall m :: 0 <= m < a.Length && m != j - 1 && m != j ==> a[m] == old(a[m])
    ensures a[..] == SwapAdjacent(old(a[..]), j)
  {
    a[j - 1], a[j] := a[j], a[j - 1];
  }

  lemma SwapKeepsRearrangement(before: seq<Match>, j: int, s: seq<Match>)
    requires 0 < j < |before|
    requires before[j - 1].matchMetric != before[j].matchMetric
    requires IsTieStableRearrangement(before, s)
    ensures IsTieStableRearrangement(SwapAdjacent(before, j), s)
  {
    SwapKeepsTieOrder(before, j);
    SameTieOrderIsTransitive(SwapAdjacent(before, j), before, s);
  }

  /** A swap inside the first `n` entries permutes those entries and leaves
      the rest alone. */
  lemma SwapInsidePrefix(t: seq<Match>, j: int, n: int)
    requires 0 < j < n <= |t|
    ensures multiset(SwapAdjacent(t, j)[..n]) == multiset(t[..n])
    ensures SwapAdjacent(t, j)[n..] == t[n..]
  {
    var pre, x, y, mid, post := t[..j - 1], t[j - 1], t[j], t[j + 1..n], t[n..];
    assert t == pre + [x, y] + mid + post;
    assert SwapAdjacent(t, j) == pre + [y, x] + mid + post;
    assert t[..n] == pre + [x, y] + mid;
    assert SwapAdjacent(t, j)[..n] == pre + [y, x] + mid;
  }

  /** While `t[j]` moves left during a pass over `t[..i+1]`: the entries
      other than `t[j]` are in order, and `t[j]` beats everything after it. */
  ghost predicate InsertionInvariant(t: seq<Match>, i: int, j: int)
    requires 0 <= j <= i < |t|
  {
    && (forall p, q :: 0 <= p < q <= i && p != j && q != j ==> t[p].matchMetric >= t[q].matchMetric)
    && (forall q :: j < q <= i ==> t[j].matchMetric > t[q].matchMetric)
  }

  lemma InsertionStarts(t: seq<Match>, i: int)
    requires 0 <= i < |t|
    requires SortedByMetricDescending(t[..i])
    ensures InsertionInvariant(t, i, i)
  {
    assert forall p, q :: 0 <= p < q < i ==> t[..i][p] == t[p] && t[..i][q] == t[q];
  }

  lemma InsertionStep(t: seq<Match>, i: int, j: int)
    requires 0 < j <= i < |t|
    requires InsertionInvariant(t, i, j)
    requires t[j - 1].matchMetric < t[j].matchMetric
    ensures InsertionInvariant(SwapAdjacent(t, j), i, j - 1)
  {
    var u := SwapAdjacent(t, j);
    assert u[j - 1] == t[j] && u[j] == t[j - 1];
    assert forall m :: 0 <= m < |t| && m != j - 1 && m != j ==> u[m] == t[m];
  }

  lemma InsertionEnds(t: seq<Match>, i: int, j: int)
    requires 0 <= j <= i < |t|
    requires InsertionInvariant(t, i, j)
    requires j == 0 || t[j - 1].matchMetric >= t[j].matchMetric
    ensures SortedByMetricDescending(t[..i + 1])
  {
    forall p, q | 0 <= p < q <= i
      ensures t[p].matchMetric >= t[q].matchMetric
    {
      if q == j && p < j - 1 {
        assert t[p].matchMetric >= t[j - 1].matchMetric;
      }
    }
  }

  /** One pass of the insertion sort: moves `a[i]` left past the entries
      with a strictly smaller metric, so that `a[..i+1]` is sorted. */
  method InsertIntoSortedPrefix(a: array<Match>, i: int, ghost s: seq<Match>)
    requires 0 <= i < a.Length
    requires SortedByMetricDescending(a[..i])
    requires IsTieStableRearrangement(a[..], s)
    modifies a
    ensures SortedByMetricDescending(a[..i + 1])
    ensures IsTieStableRearrangement(a[..], s)
    ensures multiset(a[..i + 1]) == multiset(old(a[..i + 1]))
    ensures a[i + 1..] == old(a[i + 1..])
  {
    var j := i;
    InsertionStarts(a[..], i);
    assert a[..][..i] == a[..i];
    while j > 0 && a[j - 1].matchMetric < a[j].matchMetric
      invariant 0 <= j <= i
      invariant InsertionInvariant(a[..], i, j)
      invariant IsTieStableRearrangement(a[..], s)
      invariant multiset(a[..i + 1]) == multiset(old(a[..i + 1]))
      invariant a[i + 1..] == old(a[i + 1..])
    {
      ghost var before := a[..];
      SwapNeighbours(a, j);
      SwapInsidePrefix(before, j, i + 1);
      InsertionStep(before, i, j);
      SwapKeepsRearrangement(before, j, s);
      j := j - 1;
    }
    InsertionEnds(a[..], i, j);
    assert a[..][..i + 1] == a[..i + 1];
  }

  /** `matches.sort(key=lambda x: x["match_metric"], reverse=True)`, in place:
      an insertion sort that moves an entry left only past entries with a
      strictly smaller metric, so ties keep their order. */
  method SortByMetricDescending(a: array<Match>)
    modifies a
    ensures IsStableDescendingSort(a[..], old(a[..]))
  {
    ghost var s := a[..];
    var i := 0;
    while i < a.Length
      invariant 0 <= i <= a.Length
      invariant SortedByMetricDescending(a[..i])
      invariant IsTieStableRearrangement(a[..], s)
    {
      InsertIntoSortedPrefix(a, i, s);
      i := i + 1;
    }
  }

  /** The ranking step of `match_users`: Python sorts the list in place; the
      model copies it into an array, sorts that, and reads it back. */
  method RankMatches(matches: seq<Match>) returns (ranked: seq<Match>)
    ensures IsStableDescendingSort(ranked, matches)
    ensures |ranked| == |matches|
  {
    var a := new Match[|matches|](k requires 0 <= k < |matches| => matches[k]);
    assert a[..] == matches;
    SortByMetricDescending(a);
    ranked := a[..];
    assert |ranked| == |multiset(ranked)| == |multiset(matches)| == |matches|;
  }
}
