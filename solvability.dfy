/**
 * Which swaps would make a match, and the swap `getPossibleMatch` reports:
 * it walks the board row by row and, in each row, column by column, trying
 * first the swap with the left neighbour and then the swap with the neighbour
 * above. Its `break` leaves only the column loop, so a later row that also
 * has a candidate replaces the answer: the reported swap is the first
 * candidate of the LAST row that has one.
 *
 * The scan order is stated for any swap test `works`; `PossibleMatch` plugs
 * in the real one, "the swapped board contains a run".
 */
module Solvability {
  import opened Runes
  import opened Boards
  import opened Matching

  /** The pair `getPossibleMatch` returns; `NoSwap` stands for its pair of null arrays. */
  datatype SwapPair = NoSwap | SwapPair(a: Coord, b: Coord)

  /** A test applied to the two cells of a swap. */
  type SwapTest = (Coord, Coord) -> bool

  /** Trading the runes at a and b leaves some run on the board. */
  ghost predicate MakesMatch(g: Grid, a: Coord, b: Coord)
    requires IsGrid(g)
  {
    InRange(a) && InRange(b) && ContainsMatch(Swapped(g, a, b))
  }

  /** `MakesMatch` on board g as a swap test. */
  ghost function MatchTest(g: Grid): SwapTest
    requires IsGrid(g)
  {
    (a: Coord, b: Coord) => MakesMatch(g, a, b)
  }

  /** The scan tries the swap of (r, c) with its left neighbour, and it passes. */
  ghost predicate LeftPasses(works: SwapTest, r: int, c: int) {
    0 <= r < Size && 1 <= c < Size && works(Coord(r, c - 1), Coord(r, c))
  }

  /** The scan tries the swap of (r, c) with the neighbour above, and it passes. */
  ghost predicate UpPasses(works: SwapTest, r: int, c: int) {
    1 <= r < Size && 0 <= c < Size && works(Coord(r - 1, c), Coord(r, c))
  }

  /** p is a pair of neighbouring cells of the board that passes the test. */
  ghost predicate IsCandidate(works: SwapTest, p: SwapPair) {
    p.SwapPair? && InRange(p.a) && InRange(p.b) && Neighbours(p.a, p.b) && works(p.a, p.b)
  }

  /** No cell of row r from column c on passes its left or upward test. */
  ghost predicate NoCandidateFrom(works: SwapTest, r: int, c: int) {
    forall c' :: c <= c' < Size ==> !LeftPasses(works, r, c') && !UpPasses(works, r, c')
  }

  /** Some swap of two neighbouring cells makes a match. */
  ghost predicate SomeSwapMatches(g: Grid)
    requires IsGrid(g)
  {
    exists a, b :: InRange(a) && InRange(b) && Neighbours(a, b) && MakesMatch(g, a, b)
  }

  /** The first candidate of row r at column c or later, the left swap tried before the upward one. */
  ghost function FirstSwapInRow(works: SwapTest, r: int, c: int): SwapPair
    requires 0 <= r < Size && 0 <= c <= Size
    decreases Size - c
  {
    if c == Size then NoSwap
    else if LeftPasses(works, r, c) then SwapPair(Coord(r, c - 1), Coord(r, c))
    else if UpPasses(works, r, c) then SwapPair(Coord(r - 1, c), Coord(r, c))
    else FirstSwapInRow(works, r, c + 1)
  }

  /** The answer after rows 0..k-1: the first candidate of the last of them that has one. */
  ghost function PossibleMatchBefore(works: SwapTest, k: int): SwapPair
    requires 0 <= k <= Size
  {
    if k == 0 then NoSwap
    else
      var p := FirstSwapInRow(works, k - 1, 0);
      if p != NoSwap then p else PossibleMatchBefore(works, k - 1)
  }

  /** What `getPossibleMatch` returns for board g. */
  ghost function PossibleMatch(g: Grid): SwapPair
    requires IsGrid(g)
  {
    PossibleMatchBefore(MatchTest(g), Size)
  }

  /**
   * The player has a move: the scan of `getPossibleMatch` finds a swap
   * (`MoveIffSomeSwapMatches`: exactly when some swap of neighbours makes a run).
   */
  ghost predicate HasPossibleMove(g: Grid)
    requires IsGrid(g)
  {
    PossibleMatch(g) != NoSwap
  }

  /** A row has no candidate from column c on exactly when no cell there passes its left or upward test. */
  lemma {:induction false} FirstSwapInRowNone(works: SwapTest, r: int, c: int)
    requires 0 <= r < Size && 0 <= c <= Size
    decreases Size - c
    ensures FirstSwapInRow(works, r, c) == NoSwap <==> NoCandidateFrom(works, r, c)
  {
    if c < Size {
      FirstSwapInRowNone(works, r, c + 1);
    }
  }

  /** What a row reports is a candidate whose lower or right cell lies in that row. */
  lemma {:induction false} FirstSwapInRowSound(works: SwapTest, r: int, c: int)
    requires 0 <= r < Size && 0 <= c <= Size
    decreases Size - c
    ensures var p := FirstSwapInRow(works, r, c);
            p != NoSwap ==> IsCandidate(works, p) && p.b.row == r
  {
    if c < Size && !LeftPasses(works, r, c) && !UpPasses(works, r, c) {
      FirstSwapInRowSound(works, r, c + 1);
    }
  }

  /** After rows 0..k-1 the answer is empty exactly when none of those rows has a candidate. */
  lemma {:induction false} PossibleMatchBeforeNone(works: SwapTest, k: int)
    requires 0 <= k <= Size
    ensures PossibleMatchBefore(works, k) == NoSwap <==> forall r :: 0 <= r < k ==> NoCandidateFrom(works, r, 0)
  {
    if k > 0 {
      PossibleMatchBeforeNone(works, k - 1);
      FirstSwapInRowNone(works, k - 1, 0);
      var p := FirstSwapInRow(works, k - 1, 0);
      assert PossibleMatchBefore(works, k) == if p != NoSwap then p else PossibleMatchBefore(works, k - 1);
      assert (forall r :: 0 <= r < k ==> NoCandidateFrom(works, r, 0))
             <==> (forall r :: 0 <= r < k - 1 ==> NoCandidateFrom(works, r, 0)) && NoCandidateFrom(works, k - 1, 0);
    }
  }

  /** A non-empty answer is a candidate from one of rows 0..k-1. */
  lemma {:induction false} PossibleMatchBeforeSound(works: SwapTest, k: int)
    requires 0 <= k <= Size
    ensures var p := PossibleMatchBefore(works, k);
            p != NoSwap ==> IsCandidate(works, p) && p.b.row < k
  {
    if k > 0 {
      FirstSwapInRowSound(works, k - 1, 0);
      if FirstSwapInRow(works, k - 1, 0) == NoSwap {
        PossibleMatchBeforeSound(works, k - 1);
      }
    }
  }

  /**
   * The answer is the first candidate of the last row below k that has one:
   * a row r with a candidate and none after it decides the answer.
   */
  lemma {:induction false} PossibleMatchBeforeLastRow(works: SwapTest, k: int, r: int)
    requires 0 <= r < k <= Size
    requires FirstSwapInRow(works, r, 0) != NoSwap
    requires forall r' :: r < r' < k ==> FirstSwapInRow(works, r', 0) == NoSwap
    ensures PossibleMatchBefore(works, k) == FirstSwapInRow(works, r, 0)
  {
    var p := FirstSwapInRow(works, k - 1, 0);
    assert PossibleMatchBefore(works, k) == if p != NoSwap then p else PossibleMatchBefore(works, k - 1);
    if r < k - 1 {
      assert p == NoSwap;
      PossibleMatchBeforeLastRow(works, k - 1, r);
    }
  }

  /** The reported swap is two neighbouring cells of the board whose swap makes a match. */
  lemma PossibleMatchSound(g: Grid)
    requires IsGrid(g)
    ensures var p := PossibleMatch(g);
            p != NoSwap ==> InRange(p.a) && InRange(p.b) && Neighbours(p.a, p.b) && ContainsMatch(Swapped(g, p.a, p.b))
  {
    PossibleMatchBeforeSound(MatchTest(g), Size);
  }

  /** The reported swap comes from the last row that has a move, the first of that row. */
  lemma PossibleMatchLastRow(g: Grid, r: int)
    requires IsGrid(g) && 0 <= r < Size
    requires FirstSwapInRow(MatchTest(g), r, 0) != NoSwap
    requires forall r' :: r < r' < Size ==> FirstSwapInRow(MatchTest(g), r', 0) == NoSwap
    ensures PossibleMatch(g) == FirstSwapInRow(MatchTest(g), r, 0)
  {
    PossibleMatchBeforeLastRow(MatchTest(g), Size, r);
  }

  /** Swapping a with b is swapping b with a. */
  lemma MakesMatchSymmetric(g: Grid, a: Coord, b: Coord)
    requires IsGrid(g)
    ensures MakesMatch(g, a, b) <==> MakesMatch(g, b, a)
  {
    if InRange(a) && InRange(b) {
      SwapSymmetric(g, a, b);
    }
  }

  /** A matching swap of two neighbours is a left or upward swap of the lower or right one. */
  lemma NeighbourSwapIsScanned(g: Grid, a: Coord, b: Coord)
    requires IsGrid(g) && Neighbours(a, b) && MakesMatch(g, a, b)
    ensures exists r, c :: 0 <= r < Size && 0 <= c < Size && (LeftPasses(MatchTest(g), r, c) || UpPasses(MatchTest(g), r, c))
  {
    MakesMatchSymmetric(g, a, b);
    var works := MatchTest(g);
    // the later of the two cells in row-major order
    var (first, last) := if a.row < b.row || (a.row == b.row && a.col < b.col) then (a, b) else (b, a);
    assert works(first, last);
    if first.row == last.row {
      assert first == Coord(last.row, last.col - 1);
      assert LeftPasses(works, last.row, last.col);
    } else {
      assert first == Coord(last.row - 1, last.col);
      assert UpPasses(works, last.row, last.col);
    }
  }

  /** The scan finds a swap exactly when some swap of two neighbouring cells makes a run (`hasNoPossibleMatches`). */
  lemma MoveIffSomeSwapMatches(g: Grid)
    requires IsGrid(g)
    ensures HasPossibleMove(g) <==> SomeSwapMatches(g)
  {
    var works := MatchTest(g);
    PossibleMatchBeforeNone(works, Size);
    if SomeSwapMatches(g) {
      var a, b :| InRange(a) && InRange(b) && Neighbours(a, b) && MakesMatch(g, a, b);
      NeighbourSwapIsScanned(g, a, b);
      var r, c :| 0 <= r < Size && 0 <= c < Size && (LeftPasses(works, r, c) || UpPasses(works, r, c));
      assert !NoCandidateFrom(works, r, 0);
    }
    var p := PossibleMatch(g);
    if p != NoSwap {
      PossibleMatchSound(g);
      assert InRange(p.a) && InRange(p.b) && Neighbours(p.a, p.b) && MakesMatch(g, p.a, p.b);
    }
  }
}
