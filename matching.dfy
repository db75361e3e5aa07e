/**
 * What the match scan looks for: runs of three or more runes of equal type
 * in a row or a column. A line (a row or a column) is a sequence of rune
 * types; a position lies in a run of three or more exactly when one of the
 * three windows of three that contain it is uniform.
 */
module Matching {
  import opened Runes
  import opened Boards

  /** The window s[i], s[i+1], s[i+2] holds one type. */
  predicate Triple(s: seq<RuneType>, i: int) {
    0 <= i && i + 2 < |s| && s[i] == s[i + 1] && s[i + 1] == s[i + 2]
  }

  /** Position k lies in a run of three or more equal types. */
  predicate InRun(s: seq<RuneType>, k: int) {
    Triple(s, k - 2) || Triple(s, k - 1) || Triple(s, k)
  }

  /** [a, b) is a maximal stretch of equal types: the unit the scan counts with `consecMatches`. */
  predicate MaximalRun(s: seq<RuneType>, a: int, b: int) {
    && 0 <= a < b <= |s|
    && (forall i :: a <= i < b ==> s[i] == s[a])
    && (a == 0 || s[a - 1] != s[a])
    && (b == |s| || s[b] != s[a])
  }

  /** Every position of a maximal stretch is in a run exactly when the stretch is three or longer. */
  lemma MaximalRunMembers(s: seq<RuneType>, a: int, b: int, k: int)
    requires MaximalRun(s, a, b) && a <= k < b
    ensures InRun(s, k) <==> b - a >= 3
  {
    if b - a >= 3 {
      if k + 2 < b {
        assert Triple(s, k);
      } else if k - 1 >= a {
        assert Triple(s, k - 1) || Triple(s, k - 2);
      }
    } else {
      forall i | k - 2 <= i <= k
        ensures !Triple(s, i)
      {
        if i < a {
          assert i + 2 >= a;
        } else {
          assert i + 2 >= b;
        }
      }
    }
  }

  /** The integers a, a+1, ..., b-1. */
  function Range(a: int, b: int): (r: seq<int>)
    requires a <= b
    ensures |r| == b - a
  {
    seq(b - a, i requires 0 <= i < b - a => a + i)
  }

  /** How many times x occurs in xs. */
  function Count<X(==)>(xs: seq<X>, x: X): nat {
    if xs == [] then 0 else Count(xs[..|xs| - 1], x) + (if xs[|xs| - 1] == x then 1 else 0)
  }

  lemma {:induction false} CountAppend<X>(a: seq<X>, b: seq<X>, x: X)
    ensures Count(a + b, x) == Count(a, x) + Count(b, x)
  {
    if b != [] {
      assert (a + b)[..|a + b| - 1] == a + b[..|b| - 1];
      CountAppend(a, b[..|b| - 1], x);
    } else {
      assert a + b == a;
    }
  }

  /** x occurs in xs exactly when its count is positive. */
  lemma {:induction false} CountPositive<X>(xs: seq<X>, x: X)
    ensures Count(xs, x) > 0 <==> x in xs
  {
    if xs != [] {
      var n := |xs| - 1;
      assert xs == xs[..n] + [xs[n]];
      CountPositive(xs[..n], x);
    }
  }

  /** The positions below k that lie in a run, in increasing order. */
  function RunCells(s: seq<RuneType>, k: nat): (ps: seq<int>)
    requires k <= |s|
  {
    if k == 0 then [] else RunCells(s, k - 1) + (if InRun(s, k - 1) then [k - 1] else [])
  }

  /** Each position below k occurs once in RunCells when it lies in a run, and otherwise not at all. */
  lemma {:induction false} RunCellsCount(s: seq<RuneType>, k: nat, j: int)
    requires k <= |s|
    ensures Count(RunCells(s, k), j) == if 0 <= j < k && InRun(s, j) then 1 else 0
  {
    if k > 0 {
      RunCellsCount(s, k - 1, j);
      var prev := RunCells(s, k - 1);
      var last := if InRun(s, k - 1) then [k - 1] else [];
      assert RunCells(s, k) == prev + last;
      CountAppend(prev, last, j);
      if InRun(s, k - 1) {
        assert last[..0] == [];
        assert Count(last, j) == if j == k - 1 then 1 else 0;
      } else {
        assert Count(last, j) == 0;
      }
    }
  }

  /** Passing over a maximal stretch adds all of its positions when it is three or longer, and none otherwise. */
  lemma {:induction false} RunCellsAcross(s: seq<RuneType>, a: int, b: int, m: int)
    requires MaximalRun(s, a, b) && a <= m <= b
    ensures RunCells(s, m) == RunCells(s, a) + (if b - a >= 3 then Range(a, m) else [])
  {
    if m > a {
      RunCellsAcross(s, a, b, m - 1);
      MaximalRunMembers(s, a, b, m - 1);
      if b - a >= 3 {
        assert Range(a, m) == Range(a, m - 1) + [m - 1];
      }
    }
  }

  /** Row r's types, left to right. */
  function RowKinds(g: Grid, r: int): (s: seq<RuneType>)
    requires IsGrid(g) && 0 <= r < Size
    ensures |s| == Size
  {
    seq(Size, c requires 0 <= c < Size => g[r][c].kind)
  }

  /** Column c's types, top to bottom. */
  function ColumnKinds(g: Grid, c: int): (s: seq<RuneType>)
    requires IsGrid(g) && 0 <= c < Size
    ensures |s| == Size
  {
    seq(Size, r requires 0 <= r < Size => g[r][c].kind)
  }

  predicate InHorizontalRun(g: Grid, p: Coord)
    requires IsGrid(g)
  {
    InRange(p) && InRun(RowKinds(g, p.row), p.col)
  }

  predicate InVerticalRun(g: Grid, p: Coord)
    requires IsGrid(g)
  {
    InRange(p) && InRun(ColumnKinds(g, p.col), p.row)
  }

  /** The positions ps of row r as coordinates. */
  function RowCoords(r: int, ps: seq<int>): (cs: seq<Coord>)
    ensures |cs| == |ps|
  {
    seq(|ps|, i requires 0 <= i < |ps| => Coord(r, ps[i]))
  }

  /** The positions ps of column c as coordinates. */
  function ColumnCoords(c: int, ps: seq<int>): (cs: seq<Coord>)
    ensures |cs| == |ps|
  {
    seq(|ps|, i requires 0 <= i < |ps| => Coord(ps[i], c))
  }

  /** p comes before q in row-major order (the horizontal pass's order). */
  predicate RowMajorBefore(p: Coord, q: Coord) {
    p.row < q.row || (p.row == q.row && p.col < q.col)
  }

  /** p comes before q in column-major order (the vertical pass's order). */
  predicate ColumnMajorBefore(p: Coord, q: Coord) {
    p.col < q.col || (p.col == q.col && p.row < q.row)
  }

  /** The cells of rows 0..k-1 that lie in a horizontal run, in row-major order. */
  function HorizontalMatches(g: Grid, k: nat): (m: seq<Coord>)
    requires IsGrid(g) && k <= Size
  {
    if k == 0 then []
    else HorizontalMatches(g, k - 1) + RowCoords(k - 1, RunCells(RowKinds(g, k - 1), Size))
  }

  /** The cells of columns 0..k-1 that lie in a vertical run, in column-major order. */
  function VerticalMatches(g: Grid, k: nat): (m: seq<Coord>)
    requires IsGrid(g) && k <= Size
  {
    if k == 0 then []
    else VerticalMatches(g, k - 1) + ColumnCoords(k - 1, RunCells(ColumnKinds(g, k - 1), Size))
  }

  /** The stack `getMatchedRunes` builds: every horizontal run first, then every vertical run. */
  function MatchList(g: Grid): seq<Coord>
    requires IsGrid(g)
  {
    HorizontalMatches(g, Size) + VerticalMatches(g, Size)
  }

  /** Some cell of the board lies in a run of three or more. */
  ghost predicate ContainsMatch(g: Grid)
    requires IsGrid(g)
  {
    exists p :: InHorizontalRun(g, p) || InVerticalRun(g, p)
  }

  lemma {:induction false} RowCoordsCount(r: int, ps: seq<int>, p: Coord)
    ensures Count(RowCoords(r, ps), p) == if p.row == r then Count(ps, p.col) else 0
  {
    if ps != [] {
      var n := |ps| - 1;
      assert RowCoords(r, ps)[..n] == RowCoords(r, ps[..n]);
      RowCoordsCount(r, ps[..n], p);
    }
  }

  lemma {:induction false} ColumnCoordsCount(c: int, ps: seq<int>, p: Coord)
    ensures Count(ColumnCoords(c, ps), p) == if p.col == c then Count(ps, p.row) else 0
  {
    if ps != [] {
      var n := |ps| - 1;
      assert ColumnCoords(c, ps)[..n] == ColumnCoords(c, ps[..n]);
      ColumnCoordsCount(c, ps[..n], p);
    }
  }

  /** Row r contributes each of its cells in a horizontal run once. */
  lemma RowMatchesCount(g: Grid, r: int, p: Coord)
    requires IsGrid(g) && 0 <= r < Size
    ensures Count(RowCoords(r, RunCells(RowKinds(g, r), Size)), p)
            == if p.row == r && InHorizontalRun(g, p) then 1 else 0
  {
    RowCoordsCount(r, RunCells(RowKinds(g, r), Size), p);
    RunCellsCount(RowKinds(g, r), Size, p.col);
  }

  /** Column c contributes each of its cells in a vertical run once. */
  lemma ColumnMatchesCount(g: Grid, c: int, p: Coord)
    requires IsGrid(g) && 0 <= c < Size
    ensures Count(ColumnCoords(c, RunCells(ColumnKinds(g, c), Size)), p)
            == if p.col == c && InVerticalRun(g, p) then 1 else 0
  {
    ColumnCoordsCount(c, RunCells(ColumnKinds(g, c), Size), p);
    RunCellsCount(ColumnKinds(g, c), Size, p.row);
  }

  lemma {:induction false} HorizontalMatchesCount(g: Grid, k: nat, p: Coord)
    requires IsGrid(g) && k <= Size
    ensures Count(HorizontalMatches(g, k), p) == if p.row < k && InHorizontalRun(g, p) then 1 else 0
  {
    if k > 0 {
      HorizontalMatchesCount(g, k - 1, p);
      var prev := HorizontalMatches(g, k - 1);
      var row := RowCoords(k - 1, RunCells(RowKinds(g, k - 1), Size));
      RowMatchesCount(g, k - 1, p);
      CountAppend(prev, row, p);
    }
  }

  lemma {:induction false} VerticalMatchesCount(g: Grid, k: nat, p: Coord)
    requires IsGrid(g) && k <= Size
    ensures Count(VerticalMatches(g, k), p) == if p.col < k && InVerticalRun(g, p) then 1 else 0
  {
    if k > 0 {
      VerticalMatchesCount(g, k - 1, p);
      var prev := VerticalMatches(g, k - 1);
      var column := ColumnCoords(k - 1, RunCells(ColumnKinds(g, k - 1), Size));
      ColumnMatchesCount(g, k - 1, p);
      CountAppend(prev, column, p);
    }
  }

  /**
   * The scan reports exactly the cells in a run: once for a horizontal run, once for
   * a vertical run, so a cell in both (an L, T or cross) is reported twice.
   */
  lemma MatchListCount(g: Grid, p: Coord)
    requires IsGrid(g)
    ensures Count(MatchList(g), p)
            == (if InHorizontalRun(g, p) then 1 else 0) + (if InVerticalRun(g, p) then 1 else 0)
  {
    HorizontalMatchesCount(g, Size, p);
    VerticalMatchesCount(g, Size, p);
    CountAppend(HorizontalMatches(g, Size), VerticalMatches(g, Size), p);
  }

  /** Every reported coordinate is on the board. */
  lemma MatchListInRange(g: Grid)
    requires IsGrid(g)
    ensures forall i :: 0 <= i < |MatchList(g)| ==> InRange(MatchList(g)[i])
  {
    forall i | 0 <= i < |MatchList(g)|
      ensures InRange(MatchList(g)[i])
    {
      var p := MatchList(g)[i];
      CountPositive(MatchList(g), p);
      MatchListCount(g, p);
    }
  }

  /** The scan comes back empty exactly when the board holds no run (`hasMatch`). */
  lemma MatchListEmptyIff(g: Grid)
    requires IsGrid(g)
    ensures MatchList(g) == [] <==> !ContainsMatch(g)
  {
    if ContainsMatch(g) {
      var p :| InHorizontalRun(g, p) || InVerticalRun(g, p);
      MatchListCount(g, p);
      CountPositive(MatchList(g), p);
    } else if MatchList(g) != [] {
      var p := MatchList(g)[0];
      CountPositive(MatchList(g), p);
      MatchListCount(g, p);
    }
  }

  /** The run positions below k are listed in increasing order, each below k. */
  lemma {:induction false} RunCellsIncreasing(s: seq<RuneType>, k: nat)
    requires k <= |s|
    ensures forall i :: 0 <= i < |RunCells(s, k)| ==> 0 <= RunCells(s, k)[i] < k
    ensures forall i, j :: 0 <= i < j < |RunCells(s, k)| ==> RunCells(s, k)[i] < RunCells(s, k)[j]
  {
    if k > 0 {
      RunCellsIncreasing(s, k - 1);
      var prev := RunCells(s, k - 1);
      assert RunCells(s, k) == prev + if InRun(s, k - 1) then [k - 1] else [];
    }
  }

  /** The horizontal pass lists its cells in strictly increasing row-major order, rows below k only. */
  lemma {:induction false} HorizontalMatchesOrdered(g: Grid, k: nat)
    requires IsGrid(g) && k <= Size
    ensures forall i :: 0 <= i < |HorizontalMatches(g, k)| ==> 0 <= HorizontalMatches(g, k)[i].row < k
    ensures forall i, j :: 0 <= i < j < |HorizontalMatches(g, k)| ==>
              RowMajorBefore(HorizontalMatches(g, k)[i], HorizontalMatches(g, k)[j])
  {
    if k > 0 {
      HorizontalMatchesOrdered(g, k - 1);
      RunCellsIncreasing(RowKinds(g, k - 1), Size);
      var prev := HorizontalMatches(g, k - 1);
      var row := RowCoords(k - 1, RunCells(RowKinds(g, k - 1), Size));
      assert HorizontalMatches(g, k) == prev + row;
      forall i, j | 0 <= i < j < |prev + row|
        ensures RowMajorBefore((prev + row)[i], (prev + row)[j])
      {
        if j >= |prev| && i < |prev| {
          assert (prev + row)[i] == prev[i] && (prev + row)[j] == row[j - |prev|];
        }
      }
    }
  }

  /** The vertical pass lists its cells in strictly increasing column-major order, columns below k only. */
  lemma {:induction false} VerticalMatchesOrdered(g: Grid, k: nat)
    requires IsGrid(g) && k <= Size
    ensures forall i :: 0 <= i < |VerticalMatches(g, k)| ==> 0 <= VerticalMatches(g, k)[i].col < k
    ensures forall i, j :: 0 <= i < j < |VerticalMatches(g, k)| ==>
              ColumnMajorBefore(VerticalMatches(g, k)[i], VerticalMatches(g, k)[j])
  {
    if k > 0 {
      VerticalMatchesOrdered(g, k - 1);
      RunCellsIncreasing(ColumnKinds(g, k - 1), Size);
      var prev := VerticalMatches(g, k - 1);
      var column := ColumnCoords(k - 1, RunCells(ColumnKinds(g, k - 1), Size));
      assert VerticalMatches(g, k) == prev + column;
      forall i, j | 0 <= i < j < |prev + column|
        ensures ColumnMajorBefore((prev + column)[i], (prev + column)[j])
      {
        if j >= |prev| && i < |prev| {
          assert (prev + column)[i] == prev[i] && (prev + column)[j] == column[j - |prev|];
        }
      }
    }
  }

  /**
   * The order of the stack: first the n cells of horizontal runs, row by row and
   * each run from its first cell to its last, then the cells of vertical runs,
   * column by column, each run from top to bottom.
   */
  lemma MatchListOrder(g: Grid)
    requires IsGrid(g)
    ensures var m, n := MatchList(g), |HorizontalMatches(g, Size)|;
            && n <= |m|
            && (forall i :: 0 <= i < n ==> InHorizontalRun(g, m[i]))
            && (forall i :: n <= i < |m| ==> InVerticalRun(g, m[i]))
            && (forall i, j :: 0 <= i < j < n ==> RowMajorBefore(m[i], m[j]))
            && (forall i, j :: n <= i < j < |m| ==> ColumnMajorBefore(m[i], m[j]))
  {
    var h, v := HorizontalMatches(g, Size), VerticalMatches(g, Size);
    var m := MatchList(g);
    HorizontalMatchesOrdered(g, Size);
    VerticalMatchesOrdered(g, Size);
    forall i | 0 <= i < |h|
      ensures InHorizontalRun(g, m[i])
    {
      assert m[i] == h[i];
      CountPositive(h, h[i]);
      HorizontalMatchesCount(g, Size, h[i]);
    }
    forall i | |h| <= i < |m|
      ensures InVerticalRun(g, m[i])
    {
      assert m[i] == v[i - |h|];
      CountPositive(v, v[i - |h|]);
      VerticalMatchesCount(g, Size, v[i - |h|]);
    }
  }

  lemma {:induction false} SameKindsHorizontal(g: Grid, h: Grid, k: nat)
    requires IsGrid(g) && IsGrid(h) && SameKinds(g, h) && k <= Size
    ensures HorizontalMatches(g, k) == HorizontalMatches(h, k)
  {
    if k > 0 {
      SameKindsHorizontal(g, h, k - 1);
      assert RowKinds(g, k - 1) == RowKinds(h, k - 1);
    }
  }

  lemma {:induction false} SameKindsVertical(g: Grid, h: Grid, k: nat)
    requires IsGrid(g) && IsGrid(h) && SameKinds(g, h) && k <= Size
    ensures VerticalMatches(g, k) == VerticalMatches(h, k)
  {
    if k > 0 {
      SameKindsVertical(g, h, k - 1);
      assert ColumnKinds(g, k - 1) == ColumnKinds(h, k - 1);
    }
  }

  /** The scan looks only at types: flags and rune identities play no part. */
  lemma SameKindsSameMatches(g: Grid, h: Grid)
    requires IsGrid(g) && IsGrid(h) && SameKinds(g, h)
    ensures MatchList(g) == MatchList(h)
    ensures ContainsMatch(g) <==> ContainsMatch(h)
  {
    SameKindsHorizontal(g, h, Size);
    SameKindsVertical(g, h, Size);
    MatchListEmptyIff(g);
    MatchListEmptyIff(h);
  }
}
