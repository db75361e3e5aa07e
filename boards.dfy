/**
 * The board as a value: a Size x Size grid of runes addressed by (row, column),
 * row 0 at the top. The game class keeps the grid in an array; the functions
 * here describe its contents.
 */
module Boards {
  import opened Runes

  /** Width and height of the board. The source allocates `new Rune[width][height]` but indexes
      `[row][col]`, which only works because the two are equal. */
  const Size: nat := 8

  datatype Coord = Coord(row: int, col: int)

  type Grid = seq<seq<Rune>>

  predicate IsGrid(g: Grid) {
    |g| == Size && forall r :: 0 <= r < Size ==> |g[r]| == Size
  }

  predicate InRange(p: Coord) {
    0 <= p.row < Size && 0 <= p.col < Size
  }

  function Abs(x: int): nat {
    if x < 0 then -x else x
  }

  /** Two cells are neighbours when they are one step apart, horizontally or vertically. */
  predicate Neighbours(a: Coord, b: Coord) {
    Abs(a.row - b.row) + Abs(a.col - b.col) == 1
  }

  function At(g: Grid, p: Coord): Rune
    requires IsGrid(g) && InRange(p)
  {
    g[p.row][p.col]
  }

  /** Two grids with the same cells are the same grid. */
  lemma GridExt(g: Grid, h: Grid)
    requires IsGrid(g) && IsGrid(h)
    requires forall r, c :: 0 <= r < Size && 0 <= c < Size ==> g[r][c] == h[r][c]
    ensures g == h
  {
    forall r | 0 <= r < Size
      ensures g[r] == h[r]
    {
      assert forall c :: 0 <= c < Size ==> g[r][c] == h[r][c];
    }
  }

  /** The grid after the runes at `a` and `b` trade places (`swapRunes`). */
  function Swapped(g: Grid, a: Coord, b: Coord): (h: Grid)
    requires IsGrid(g) && InRange(a) && InRange(b)
    ensures IsGrid(h)
  {
    seq(Size, r requires 0 <= r < Size =>
      seq(Size, c requires 0 <= c < Size =>
        if Coord(r, c) == a then g[b.row][b.col]
        else if Coord(r, c) == b then g[a.row][a.col]
        else g[r][c]))
  }

  /** Swapping exchanges the two cells and leaves every other cell alone. */
  lemma SwappedCells(g: Grid, a: Coord, b: Coord)
    requires IsGrid(g) && InRange(a) && InRange(b)
    ensures At(Swapped(g, a, b), a) == At(g, b)
    ensures At(Swapped(g, a, b), b) == At(g, a)
    ensures forall p :: InRange(p) && p != a && p != b ==> At(Swapped(g, a, b), p) == At(g, p)
  {
  }

  /** Swapping the same two cells again restores the grid: this is how the source undoes a swap. */
  lemma SwapTwiceRestores(g: Grid, a: Coord, b: Coord)
    requires IsGrid(g) && InRange(a) && InRange(b)
    ensures Swapped(Swapped(g, a, b), a, b) == g
  {
    GridExt(Swapped(Swapped(g, a, b), a, b), g);
  }

  /** The order of the two coordinates does not matter. */
  lemma SwapSymmetric(g: Grid, a: Coord, b: Coord)
    requires IsGrid(g) && InRange(a) && InRange(b)
    ensures Swapped(g, a, b) == Swapped(g, b, a)
  {
    GridExt(Swapped(g, a, b), Swapped(g, b, a));
  }

  /** The deep copy the source hands to observers: each cell rebuilt by the copy constructor. */
  function Snapshot(g: Grid): (h: Grid)
    requires IsGrid(g)
    ensures IsGrid(h)
  {
    seq(Size, r requires 0 <= r < Size =>
      seq(Size, c requires 0 <= c < Size => CopyRune(g[r][c])))
  }

  /** Both grids hold the same rune type in every cell. */
  predicate SameKinds(g: Grid, h: Grid)
    requires IsGrid(g) && IsGrid(h)
  {
    forall r, c :: 0 <= r < Size && 0 <= c < Size ==> g[r][c].kind == h[r][c].kind
  }

  /** No cell of the grid is flagged as matched: the state of the board between resolutions. */
  predicate NoneFlagged(g: Grid)
    requires IsGrid(g)
  {
    forall r, c :: 0 <= r < Size && 0 <= c < Size ==> !g[r][c].isMatched
  }

  /** A snapshot keeps every cell's type and carries no flag, whatever the flags of the board; a board with no flag is its own snapshot. */
  lemma SnapshotFaithful(g: Grid)
    requires IsGrid(g)
    ensures SameKinds(g, Snapshot(g))
    ensures NoneFlagged(Snapshot(g))
    ensures Snapshot(Snapshot(g)) == Snapshot(g)
    ensures NoneFlagged(g) ==> Snapshot(g) == g
  {
    GridExt(Snapshot(Snapshot(g)), Snapshot(g));
    if NoneFlagged(g) {
      GridExt(Snapshot(g), g);
    }
  }

  /** Column `c`, top to bottom. */
  function Column(g: Grid, c: int): (col: seq<Rune>)
    requires IsGrid(g) && 0 <= c < Size
    ensures |col| == Size
  {
    seq(Size, r requires 0 <= r < Size => g[r][c])
  }

  /** The rows of the grid laid end to end, as `shuffleBoard` copies them into one array. */
  function Flatten(g: Grid, rows: nat): (s: seq<Rune>)
    requires IsGrid(g) && rows <= Size
    ensures |s| == rows * Size
  {
    if rows == 0 then [] else Flatten(g, rows - 1) + g[rows - 1]
  }

  /** Cell (r, c) sits at index r * Size + c of the flattened grid. */
  lemma {:induction false} FlattenAt(g: Grid, rows: nat, r: int, c: int)
    requires IsGrid(g) && rows <= Size
    requires 0 <= r < rows && 0 <= c < Size
    ensures Flatten(g, rows)[r * Size + c] == g[r][c]
  {
    if r < rows - 1 {
      FlattenAt(g, rows - 1, r, c);
    }
  }

  /** The multiset of runes on the board. */
  function RuneBag(g: Grid): multiset<Rune>
    requires IsGrid(g)
  {
    multiset(Flatten(g, Size))
  }
}
