/**
 * Flagging the scanned cells, counting the flagged cells and the reward the
 * count earns (`setRunesToMatched`, `scoreMatches`), and the high-score table
 * update (`updateHighScores`).
 */
module Scoring {
  import opened Runes
  import opened Boards
  import opened Matching
  import Gravity

  /** The grid after `setRunesToMatched(ps)`: every listed cell flagged, the others as they were. */
  function Marked(g: Grid, ps: seq<Coord>): (h: Grid)
    requires IsGrid(g)
    ensures IsGrid(h)
  {
    seq(Size, r requires 0 <= r < Size =>
      seq(Size, c requires 0 <= c < Size =>
        if Coord(r, c) in ps then SetIsMatched(g[r][c], true) else g[r][c]))
  }

  /**
   * Flagging what the scan reports on an unflagged board flags exactly the cells
   * that lie in a run, and changes no type.
   */
  lemma MarkedExactlyRuns(g: Grid)
    requires IsGrid(g) && NoneFlagged(g)
    ensures SameKinds(g, Marked(g, MatchList(g)))
    ensures forall r, c :: 0 <= r < Size && 0 <= c < Size ==>
              (Marked(g, MatchList(g))[r][c].isMatched
               <==> InHorizontalRun(g, Coord(r, c)) || InVerticalRun(g, Coord(r, c)))
  {
    forall r, c | 0 <= r < Size && 0 <= c < Size
      ensures Marked(g, MatchList(g))[r][c].isMatched
              <==> InHorizontalRun(g, Coord(r, c)) || InVerticalRun(g, Coord(r, c))
    {
      MatchListCount(g, Coord(r, c));
      CountPositive(MatchList(g), Coord(r, c));
    }
  }

  /** The number of flagged cells in rows 0..k-1, the count `scoreMatches` makes. */
  function FlaggedTotal(g: Grid, k: int): nat
    requires IsGrid(g) && 0 <= k <= Size
  {
    if k == 0 then 0 else FlaggedTotal(g, k - 1) + Gravity.FlaggedCount(g[k - 1])
  }

  /** The points `scoreMatches` adds for `count` flagged cells: 30 for three, 50 for four, 20 each otherwise. */
  function Reward(count: int): int {
    if count == 3 then 30
    else if count == 4 then 50
    else count * 20
  }

  /** The reward table, including the cases past the two bonuses. */
  lemma RewardTable()
    ensures Reward(3) == 30 && Reward(4) == 50 && Reward(5) == 100 && Reward(6) == 120
    ensures forall n :: n >= 5 ==> Reward(n) == 20 * n
  {
  }

  /** More flagged cells never earn less, once there is a run; the score never decreases. */
  lemma RewardMonotone(a: int, b: int)
    requires 3 <= a <= b
    ensures 30 <= Reward(a) <= Reward(b)
  {
  }

  /** The count is never negative, so no resolution lowers the score. */
  lemma RewardNonNegative(count: nat)
    ensures Reward(count) >= 0
  {
  }

  lemma {:induction false} FlaggedCountPrefix(s: seq<Rune>, m: int, n: int)
    requires 0 <= m <= n <= |s|
    ensures Gravity.FlaggedCount(s[..m]) <= Gravity.FlaggedCount(s[..n])
    ensures n > m && s[n - 1].isMatched ==> Gravity.FlaggedCount(s[..m]) < Gravity.FlaggedCount(s[..n])
    decreases n - m
  {
    if m < n {
      FlaggedCountPrefix(s, m, n - 1);
      assert s[..n][..n - 1] == s[..n - 1];
    }
  }

  lemma {:induction false} FlaggedTotalPrefix(g: Grid, m: int, n: int)
    requires IsGrid(g) && 0 <= m <= n <= Size
    ensures FlaggedTotal(g, m) <= FlaggedTotal(g, n)
    decreases n - m
  {
    if m < n {
      FlaggedTotalPrefix(g, m, n - 1);
    }
  }

  /** A row holding three flagged cells contributes at least three. */
  lemma FlaggedThreeInRow(s: seq<Rune>, i: int)
    requires 0 <= i && i + 2 < |s| && s[i].isMatched && s[i + 1].isMatched && s[i + 2].isMatched
    ensures Gravity.FlaggedCount(s) >= 3
  {
    FlaggedCountPrefix(s, 0, i);
    FlaggedCountPrefix(s, i, i + 1);
    FlaggedCountPrefix(s, i + 1, i + 2);
    FlaggedCountPrefix(s, i + 2, i + 3);
    FlaggedCountPrefix(s, i + 3, |s|);
    assert s[..|s|] == s;
  }

  /** A row holding a flagged cell contributes at least one. */
  lemma FlaggedOneInRow(s: seq<Rune>, i: int)
    requires 0 <= i < |s| && s[i].isMatched
    ensures Gravity.FlaggedCount(s) >= 1
  {
    FlaggedCountPrefix(s, i, i + 1);
    FlaggedCountPrefix(s, i + 1, |s|);
    assert s[..|s|] == s;
  }

  /** Three flagged cells side by side in a row make a total of at least three. */
  lemma FlaggedRowTriple(h: Grid, r: int, i: int)
    requires IsGrid(h) && 0 <= r < Size && 0 <= i && i + 2 < Size
    requires h[r][i].isMatched && h[r][i + 1].isMatched && h[r][i + 2].isMatched
    ensures FlaggedTotal(h, Size) >= 3
  {
    FlaggedThreeInRow(h[r], i);
    assert Gravity.FlaggedCount(h[r]) >= 3;
    assert FlaggedTotal(h, r + 1) >= 3;
    FlaggedTotalPrefix(h, r + 1, Size);
    assert FlaggedTotal(h, r + 1) <= FlaggedTotal(h, Size);
  }

  /** Three flagged cells one above the other in a column make a total of at least three. */
  lemma FlaggedColumnTriple(h: Grid, i: int, c: int)
    requires IsGrid(h) && 0 <= c < Size && 0 <= i && i + 2 < Size
    requires h[i][c].isMatched && h[i + 1][c].isMatched && h[i + 2][c].isMatched
    ensures FlaggedTotal(h, Size) >= 3
  {
    FlaggedOneInRow(h[i], c);
    FlaggedOneInRow(h[i + 1], c);
    FlaggedOneInRow(h[i + 2], c);
    assert FlaggedTotal(h, i + 1) >= 1;
    assert FlaggedTotal(h, i + 2) >= 2;
    assert FlaggedTotal(h, i + 3) >= 3;
    FlaggedTotalPrefix(h, i + 3, Size);
    assert FlaggedTotal(h, i + 3) <= FlaggedTotal(h, Size);
  }

  /** The window of three that puts position k in a run. */
  function RunWindow(s: seq<RuneType>, k: int): (i: int)
    requires InRun(s, k)
    ensures Triple(s, i) && i <= k <= i + 2
  {
    if Triple(s, k - 2) then k - 2 else if Triple(s, k - 1) then k - 1 else k
  }

  /** A cell in a horizontal run has two more run cells beside it, forming a window of three. */
  lemma HorizontalWindow(g: Grid, p: Coord) returns (i: int)
    requires IsGrid(g) && InHorizontalRun(g, p)
    ensures 0 <= i && i + 2 < Size
    ensures InHorizontalRun(g, Coord(p.row, i)) && InHorizontalRun(g, Coord(p.row, i + 1)) && InHorizontalRun(g, Coord(p.row, i + 2))
  {
    var s := RowKinds(g, p.row);
    i := RunWindow(s, p.col);
    assert InRun(s, i) && InRun(s, i + 1) && InRun(s, i + 2);
  }

  /** A cell in a vertical run has two more run cells next to it, forming a window of three. */
  lemma VerticalWindow(g: Grid, p: Coord) returns (i: int)
    requires IsGrid(g) && InVerticalRun(g, p)
    ensures 0 <= i && i + 2 < Size
    ensures InVerticalRun(g, Coord(i, p.col)) && InVerticalRun(g, Coord(i + 1, p.col)) && InVerticalRun(g, Coord(i + 2, p.col))
  {
    var s := ColumnKinds(g, p.col);
    i := RunWindow(s, p.row);
    assert InRun(s, i) && InRun(s, i + 1) && InRun(s, i + 2);
  }

  /** A run earns at least three flagged cells, hence at least 30 points. */
  lemma MarkedRunScores(g: Grid)
    requires IsGrid(g) && NoneFlagged(g) && ContainsMatch(g)
    ensures FlaggedTotal(Marked(g, MatchList(g)), Size) >= 3
    ensures Reward(FlaggedTotal(Marked(g, MatchList(g)), Size)) >= 30
  {
    var h := Marked(g, MatchList(g));
    MarkedExactlyRuns(g);
    var p :| InHorizontalRun(g, p) || InVerticalRun(g, p);
    if InHorizontalRun(g, p) {
      var i := HorizontalWindow(g, p);
      FlaggedRowTriple(h, p.row, i);
    } else {
      var i := VerticalWindow(g, p);
      FlaggedColumnTriple(h, i, p.col);
    }
    RewardMonotone(3, FlaggedTotal(h, Size));
  }

  /*
   * The high-score table.
   */

  /**
   * `updateHighScores`: newScore goes in at the first entry it strictly beats,
   * the entries from there on move down one place and the last one drops out.
   */
  function InsertScore(s: seq<int>, x: int): (t: seq<int>)
    ensures |t| == |s|
  {
    if s == [] then []
    else if x > s[0] then [x] + s[..|s| - 1]
    else [s[0]] + InsertScore(s[1..], x)
  }

  predicate Descending(s: seq<int>) {
    forall i, j :: 0 <= i < j < |s| ==> s[i] >= s[j]
  }

  /** With t the first entry newScore beats, the result is s[..t], newScore, then s[t..] less its last entry. */
  lemma {:induction false} InsertScoreAt(s: seq<int>, x: int, t: int)
    requires 0 <= t < |s| && x > s[t]
    requires forall i :: 0 <= i < t ==> x <= s[i]
    ensures InsertScore(s, x) == s[..t] + [x] + s[t..|s| - 1]
  {
    if t > 0 {
      InsertScoreAt(s[1..], x, t - 1);
      assert s[1..][..t - 1] == s[1..t];
      assert s[1..][t - 1..|s| - 2] == s[t..|s| - 1];
    }
  }

  /** The table is unchanged exactly when newScore beats no entry. */
  lemma {:induction false} InsertScoreUnchanged(s: seq<int>, x: int)
    ensures InsertScore(s, x) == s <==> forall i :: 0 <= i < |s| ==> x <= s[i]
  {
    if s != [] {
      InsertScoreUnchanged(s[1..], x);
      if x > s[0] {
        assert InsertScore(s, x)[0] != s[0];
      } else {
        assert forall i :: 1 <= i < |s| ==> s[i] == s[1..][i - 1];
      }
    }
  }

  /** A descending table stays descending, and newScore enters it when it beats some entry. */
  lemma {:induction false} InsertScoreDescending(s: seq<int>, x: int)
    requires Descending(s)
    ensures Descending(InsertScore(s, x))
    ensures (exists i :: 0 <= i < |s| && x > s[i]) ==> x in InsertScore(s, x)
  {
    if s != [] {
      if x > s[0] {
        assert InsertScore(s, x)[0] == x;
      } else {
        InsertScoreDescending(s[1..], x);
        var t := InsertScore(s[1..], x);
        assert InsertScore(s, x) == [s[0]] + t;
        forall j | 0 <= j < |t|
          ensures s[0] >= t[j]
        {
          InsertScoreBounded(s[1..], x, j);
        }
        if exists i :: 0 <= i < |s| && x > s[i] {
          var i :| 0 <= i < |s| && x > s[i];
          assert i > 0 && x > s[1..][i - 1];
        }
      }
    }
  }

  /** Every entry of the new table is an old entry or newScore. */
  lemma {:induction false} InsertScoreBounded(s: seq<int>, x: int, j: int)
    requires 0 <= j < |s|
    ensures InsertScore(s, x)[j] in s || InsertScore(s, x)[j] == x
    ensures (forall i :: 0 <= i < |s| ==> s[i] <= s[0]) && x <= s[0] ==> InsertScore(s, x)[j] <= s[0]
  {
    if x <= s[0] && j > 0 {
      InsertScoreBounded(s[1..], x, j - 1);
      assert forall i :: 0 <= i < |s[1..]| ==> s[1..][i] == s[i + 1];
    }
  }

  /** `recordScore` reports a high score when newScore heads the new table: it ties or beats the old top entry. */
  lemma InsertScoreTop(s: seq<int>, x: int)
    requires |s| > 0
    ensures InsertScore(s, x)[0] == x <==> x >= s[0]
  {
  }

  /**
   * The table part-way through the shift: entries t..j-1 hold newScore
   * followed by the old entries t..j-2, the rest is as before.
   */
  function ShiftedUpTo(s: seq<int>, x: int, t: int, j: int): (a: seq<int>)
    requires 0 <= t
    ensures |a| == |s|
  {
    seq(|s|, i requires 0 <= i < |s| =>
      if i < t || j <= i then s[i] else if i == t then x else s[i - 1])
  }

  /** `updateHighScores`, shifting the entries of the array in place. */
  method UpdateHighScores(highScores: array<int>, newScore: int)
    modifies highScores
    ensures highScores[..] == InsertScore(old(highScores[..]), newScore)
  {
    ghost var s := highScores[..];
    var testIndex := 0;
    while testIndex < highScores.Length
      invariant 0 <= testIndex <= highScores.Length
      invariant highScores[..] == s
      invariant forall i :: 0 <= i < testIndex ==> newScore <= s[i]
    {
      if newScore > highScores[testIndex] {
        var previous := newScore;
        var replaceIndex := testIndex;
        assert highScores[..] == ShiftedUpTo(s, newScore, testIndex, replaceIndex);
        while replaceIndex < highScores.Length
          invariant testIndex <= replaceIndex <= highScores.Length
          invariant highScores[..] == ShiftedUpTo(s, newScore, testIndex, replaceIndex)
          invariant previous == if replaceIndex == testIndex then newScore else s[replaceIndex - 1]
        {
          var temp := highScores[replaceIndex];
          highScores[replaceIndex] := previous;
          previous := temp;
          replaceIndex := replaceIndex + 1;
          assert highScores[..] == ShiftedUpTo(s, newScore, testIndex, replaceIndex);
        }
        InsertScoreAt(s, newScore, testIndex);
        ShiftedContents(s, newScore, testIndex);
        return;
      }
      testIndex := testIndex + 1;
    }
    InsertScoreUnchanged(s, newScore);
  }

  /** Once the shift has reached the end, the table is the insertion. */
  lemma ShiftedContents(s: seq<int>, x: int, t: int)
    requires 0 <= t < |s|
    ensures ShiftedUpTo(s, x, t, |s|) == s[..t] + [x] + s[t..|s| - 1]
  {
    var a := ShiftedUpTo(s, x, t, |s|);
    var head := s[..t] + [x];
    var b := head + s[t..|s| - 1];
    forall i | 0 <= i < |a|
      ensures a[i] == b[i]
    {
      if i > t {
        assert b[i] == s[t..|s| - 1][i - t - 1];
      } else {
        assert b[i] == head[i];
      }
    }
  }
}
