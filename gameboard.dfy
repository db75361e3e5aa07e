/**
 * The game board engine: an 8 x 8 array of runes that the model changes in
 * place, with the score, the hint budget, the shuffle flag and the queues of
 * board snapshots and highlighted cells it hands to its observers.
 */
module Game {
  import opened Runes
  import opened Boards
  import opened Matching
  import opened Gravity
  import opened Scoring
  import opened Solvability
  import opened Wrappers
  import opened ScoreFile

  /**
   * The source of randomness: `java.util.Random` becomes a supplied stream of
   * draws, consumed one at a time.
   */
  class RandomSource {
    const stream: nat -> nat
    var drawn: nat

    constructor(stream: nat -> nat)
      ensures this.stream == stream && drawn == 0
    {
      this.stream := stream;
      drawn := 0;
    }

    /** `nextInt(bound)`: the next draw, reduced below bound. */
    method NextInt(bound: nat) returns (v: nat)
      requires bound > 0
      modifies this
      ensures v == stream(old(drawn)) % bound && v < bound
      ensures drawn == old(drawn) + 1
    {
      v := stream(drawn) % bound;
      drawn := drawn + 1;
    }
  }

  /** `new Rune()`: a rune of a random palette type, not matched. */
  method DrawRune(rng: RandomSource) returns (r: Rune)
    modifies rng
    ensures r == NewRune(rng.stream(old(rng.drawn)))
    ensures rng.drawn == old(rng.drawn) + 1
  {
    var i := rng.NextInt(PaletteSize);
    r := Rune(TypeAt(i), false);
  }
  /** The loops of `instantiateBoard`: a fresh board whose cell (r, c) holds draw number r * 8 + c. */
  method RandomBoard(rng: RandomSource) returns (runes: array2<Rune>)
    modifies rng
    ensures fresh(runes) && runes.Length0 == Size && runes.Length1 == Size
    ensures forall r, c :: 0 <= r < Size && 0 <= c < Size ==>
              runes[r, c] == NewRune(rng.stream(old(rng.drawn) + r * Size + c))
    ensures rng.drawn == old(rng.drawn) + Size * Size
  {
    runes := new Rune[Size, Size]((_, _) => Rune(Fire, false));
    for row := 0 to Size
      invariant rng.drawn == old(rng.drawn) + row * Size
      invariant forall r, c :: 0 <= r < row && 0 <= c < Size ==>
                  runes[r, c] == NewRune(rng.stream(old(rng.drawn) + r * Size + c))
    {
      DrawRow(runes, row, rng);
    }
  }

  /** The inner loop of `instantiateBoard`: row `row` takes the next eight draws, left to right. */
  method DrawRow(runes: array2<Rune>, row: nat, rng: RandomSource)
    requires runes.Length0 == Size && runes.Length1 == Size && row < Size
    modifies runes, rng
    ensures forall c :: 0 <= c < Size ==> runes[row, c] == NewRune(rng.stream(old(rng.drawn) + c))
    ensures forall r, c :: 0 <= r < Size && 0 <= c < Size && r != row ==> runes[r, c] == old(runes[r, c])
    ensures rng.drawn == old(rng.drawn) + Size
  {
    for col := 0 to Size
      invariant rng.drawn == old(rng.drawn) + col
      invariant forall r, c :: 0 <= r < Size && 0 <= c < Size && r != row ==> runes[r, c] == old(runes[r, c])
      invariant forall c :: 0 <= c < col ==> runes[row, c] == NewRune(rng.stream(old(rng.drawn) + c))
    {
      var newRune := DrawRune(rng);
      runes[row, col] := newRune;
    }
  }

  /** `recordHorizontalMatch`: push the cells of a finished stretch of row `row` ending before `col`, if it is three or longer. */
  method RecordHorizontalMatch(matchedRunes: seq<Coord>, consecMatches: int, row: int, col: int) returns (result: seq<Coord>)
    ensures result == matchedRunes + if consecMatches >= 3 then RowCoords(row, Range(col - consecMatches, col)) else []
  {
    result := matchedRunes;
    if consecMatches >= 3 {
      var k := consecMatches;
      while k > 0
        invariant 0 <= k <= consecMatches
        invariant result == matchedRunes + RowCoords(row, Range(col - consecMatches, col - k))
      {
        assert RowCoords(row, Range(col - consecMatches, col - k + 1))
               == RowCoords(row, Range(col - consecMatches, col - k)) + [Coord(row, col - k)];
        result := result + [Coord(row, col - k)];
        k := k - 1;
      }
    }
  }

  /** `recordVerticalMatch`: push the cells of a finished stretch of column `col` ending above `row`, if it is three or longer. */
  method RecordVerticalMatch(matchedRunes: seq<Coord>, consecMatches: int, row: int, col: int) returns (result: seq<Coord>)
    ensures result == matchedRunes + if consecMatches >= 3 then ColumnCoords(col, Range(row - consecMatches, row)) else []
  {
    result := matchedRunes;
    if consecMatches >= 3 {
      var k := consecMatches;
      while k > 0
        invariant 0 <= k <= consecMatches
        invariant result == matchedRunes + ColumnCoords(col, Range(row - consecMatches, row - k))
      {
        assert ColumnCoords(col, Range(row - consecMatches, row - k + 1))
               == ColumnCoords(col, Range(row - consecMatches, row - k)) + [Coord(row - k, col)];
        result := result + [Coord(row - k, col)];
        k := k - 1;
      }
    }
  }

  /**
   * The scan's state in a line: the `consec` positions before `k` hold one
   * type and start a maximal stretch.
   */
  predicate Stretch(s: seq<RuneType>, k: int, consec: int) {
    && 1 <= consec <= k <= |s|
    && (forall i :: k - consec <= i < k ==> s[i] == s[k - consec])
    && (k - consec == 0 || s[k - consec - 1] != s[k - consec])
  }

  lemma StretchStart(s: seq<RuneType>)
    requires |s| >= 1
    ensures Stretch(s, 1, 1)
  {
  }

  /** Position k continues the stretch. */
  lemma StretchGrow(s: seq<RuneType>, k: int, consec: int)
    requires Stretch(s, k, consec) && k < |s| && s[k] == s[k - 1]
    ensures Stretch(s, k + 1, consec + 1)
  {
  }

  /** The stretch ends before k: it is maximal, and the run cells up to k add its positions when it is three or longer. */
  lemma StretchEnd(s: seq<RuneType>, k: int, consec: int)
    requires Stretch(s, k, consec) && (k == |s| || s[k] != s[k - 1])
    ensures RunCells(s, k) == RunCells(s, k - consec) + if consec >= 3 then Range(k - consec, k) else []
    ensures k < |s| ==> Stretch(s, k + 1, 1)
  {
    RunCellsAcross(s, k - consec, k, k);
  }

  lemma RowCoordsAppend(r: int, a: seq<int>, b: seq<int>)
    ensures RowCoords(r, a + b) == RowCoords(r, a) + RowCoords(r, b)
  {
  }

  lemma ColumnCoordsAppend(c: int, a: seq<int>, b: seq<int>)
    ensures ColumnCoords(c, a + b) == ColumnCoords(c, a) + ColumnCoords(c, b)
  {
  }

  /** In row r, ending a stretch pushes its cells onto what was pushed before. */
  lemma RowStretchEnd(before: seq<Coord>, r: int, s: seq<RuneType>, k: int, consec: int)
    requires Stretch(s, k, consec) && (k == |s| || s[k] != s[k - 1])
    ensures before + RowCoords(r, RunCells(s, k))
            == (before + RowCoords(r, RunCells(s, k - consec))) + if consec >= 3 then RowCoords(r, Range(k - consec, k)) else []
    ensures k < |s| ==> Stretch(s, k + 1, 1)
  {
    StretchEnd(s, k, consec);
    RowCoordsAppend(r, RunCells(s, k - consec), if consec >= 3 then Range(k - consec, k) else []);
  }

  /** In column c, ending a stretch pushes its cells onto what was pushed before. */
  lemma ColumnStretchEnd(before: seq<Coord>, c: int, s: seq<RuneType>, k: int, consec: int)
    requires Stretch(s, k, consec) && (k == |s| || s[k] != s[k - 1])
    ensures before + ColumnCoords(c, RunCells(s, k))
            == (before + ColumnCoords(c, RunCells(s, k - consec))) + if consec >= 3 then ColumnCoords(c, Range(k - consec, k)) else []
    ensures k < |s| ==> Stretch(s, k + 1, 1)
  {
    StretchEnd(s, k, consec);
    ColumnCoordsAppend(c, RunCells(s, k - consec), if consec >= 3 then Range(k - consec, k) else []);
  }

  class GameboardModel {
    const board: array2<Rune>
    const rng: RandomSource
    var score: int
    var justShuffled: bool
    var hintsRemaining: int
    var highlightStages: seq<seq<Coord>>
    var boardStages: seq<Grid>

    /** Whether the last board set-up settled within its fuel (no run left, a move available). */
    ghost var ready: bool

    /**
     * The constructor with `instantiateBoard`: every cell gets a new random
     * rune, row by row; then runs are cleared without scoring and the board is
     * reshuffled until a move exists.
     */
    constructor(stream: nat -> nat, fuel: nat)
      ensures Shape() && fresh(board) && fresh(rng) && rng.stream == stream
      ensures score == 0 && hintsRemaining == 3 && !justShuffled
      ensures NoneFlagged(Cells())
      ensures ready ==>
                !ContainsMatch(Cells()) && HasPossibleMove(Cells())
                && highlightStages == [] && boardStages == [Snapshot(Cells())]
    {
      var source := new RandomSource(stream);
      var runes := RandomBoard(source);
      board := runes;
      rng := source;
      score := 0;
      hintsRemaining := 3;
      justShuffled := false;
      highlightStages := [];
      boardStages := [];
      ready := false;
      new;
      var cleared := RemoveMatches(false, fuel);
      var movable := EnsurePossibleMatch(fuel);
      ready := cleared && movable;
      justShuffled := false;
    }

    /** The board is Size x Size. */
    predicate Shape() {
      board.Length0 == Size && board.Length1 == Size
    }

    /** The board's contents as a grid value. */
    ghost function Cells(): (g: Grid)
      requires Shape()
      reads board
      ensures IsGrid(g)
      ensures forall r, c :: 0 <= r < Size && 0 <= c < Size ==> g[r][c] == board[r, c]
    {
      seq(Size, r requires 0 <= r < Size reads board =>
        seq(Size, c requires 0 <= c < Size reads board => board[r, c]))
    }

    /**
     * The animation recorded since the stream stood at draw drawn0 and the score
     * at score0 accounts for every draw made and every point earned since, and
     * its last board is the board now.
     */
    ghost predicate Animated(drawn0: nat, score0: int)
      requires Shape()
      reads this, board, rng
    {
      Accounted(highlightStages, boardStages, rng.stream, drawn0, rng.drawn, score0, score, Cells())
    }

    /** `swapRunes`: the runes at a and b trade places. */
    method SwapRunes(a: Coord, b: Coord)
      requires Shape() && InRange(a) && InRange(b)
      modifies board
      ensures Cells() == Swapped(old(Cells()), a, b)
    {
      var tempRune := board[a.row, a.col];
      board[a.row, a.col] := board[b.row, b.col];
      board[b.row, b.col] := tempRune;
      GridExt(Cells(), Swapped(old(Cells()), a, b));
    }

    /** `swapWithAdjacentLeft`: the rune at (row, col) trades places with its left neighbour. */
    method SwapWithAdjacentLeft(row: int, col: int)
      requires Shape() && InRange(Coord(row, col)) && col >= 1
      modifies board
      ensures Cells() == Swapped(old(Cells()), Coord(row, col - 1), Coord(row, col))
    {
      var temp := board[row, col];
      board[row, col] := board[row, col - 1];
      board[row, col - 1] := temp;
      GridExt(Cells(), Swapped(old(Cells()), Coord(row, col - 1), Coord(row, col)));
    }

    /** `swapWithAdjacentAbove`: the rune at (row, col) trades places with the rune above it. */
    method SwapWithAdjacentAbove(row: int, col: int)
      requires Shape() && InRange(Coord(row, col)) && row >= 1
      modifies board
      ensures Cells() == Swapped(old(Cells()), Coord(row - 1, col), Coord(row, col))
    {
      var temp := board[row, col];
      board[row, col] := board[row - 1, col];
      board[row - 1, col] := temp;
      GridExt(Cells(), Swapped(old(Cells()), Coord(row - 1, col), Coord(row, col)));
    }

    /** `findHorizontalMatches`: push every cell of every horizontal run, row by row, each run left to right. */
    method FindHorizontalMatches(matchedRunes: seq<Coord>) returns (result: seq<Coord>)
      requires Shape()
      ensures result == matchedRunes + HorizontalMatches(Cells(), Size)
    {
      result := matchedRunes;
      for row := 0 to Size
        invariant result == matchedRunes + HorizontalMatches(Cells(), row)
      {
        result := ScanRow(result, row);
      }
    }

    /** One pass of `findHorizontalMatches` over row `row`. */
    method ScanRow(before: seq<Coord>, row: int) returns (result: seq<Coord>)
      requires Shape() && 0 <= row < Size
      ensures result == before + RowCoords(row, RunCells(RowKinds(Cells(), row), Size))
    {
      ghost var s := RowKinds(Cells(), row);
      result := before;
      var col := 1;
      var consecMatches := 1;
      StretchStart(s);
      while col < Size
        invariant Stretch(s, col, consecMatches)
        invariant result == before + RowCoords(row, RunCells(s, col - consecMatches))
      {
        assert s[col] == board[row, col].kind && s[col - 1] == board[row, col - 1].kind;
        if board[row, col].kind == board[row, col - 1].kind {
          StretchGrow(s, col, consecMatches);
          consecMatches := consecMatches + 1;
        } else {
          RowStretchEnd(before, row, s, col, consecMatches);
          result := RecordHorizontalMatch(result, consecMatches, row, col);
          consecMatches := 1;
        }
        col := col + 1;
      }
      RowStretchEnd(before, row, s, col, consecMatches);
      result := RecordHorizontalMatch(result, consecMatches, row, col);
    }

    /** `findVerticalMatches`: push every cell of every vertical run, column by column, each run top to bottom. */
    method FindVerticalMatches(matchedRunes: seq<Coord>) returns (result: seq<Coord>)
      requires Shape()
      ensures result == matchedRunes + VerticalMatches(Cells(), Size)
    {
      result := matchedRunes;
      for col := 0 to Size
        invariant result == matchedRunes + VerticalMatches(Cells(), col)
      {
        result := ScanColumn(result, col);
      }
    }

    /** One pass of `findVerticalMatches` down column `col`. */
    method ScanColumn(before: seq<Coord>, col: int) returns (result: seq<Coord>)
      requires Shape() && 0 <= col < Size
      ensures result == before + ColumnCoords(col, RunCells(ColumnKinds(Cells(), col), Size))
    {
      ghost var s := ColumnKinds(Cells(), col);
      result := before;
      var consecMatches := 1;
      var row := 1;
      StretchStart(s);
      while row < Size
        invariant Stretch(s, row, consecMatches)
        invariant result == before + ColumnCoords(col, RunCells(s, row - consecMatches))
      {
        assert s[row] == board[row, col].kind && s[row - 1] == board[row - 1, col].kind;
        if board[row, col].kind == board[row - 1, col].kind {
          StretchGrow(s, row, consecMatches);
          consecMatches := consecMatches + 1;
        } else {
          ColumnStretchEnd(before, col, s, row, consecMatches);
          result := RecordVerticalMatch(result, consecMatches, row, col);
          consecMatches := 1;
        }
        row := row + 1;
      }
      ColumnStretchEnd(before, col, s, row, consecMatches);
      result := RecordVerticalMatch(result, consecMatches, row, col);
    }

    /** `getMatchedRunes`: the horizontal runs, then the vertical runs. */
    method GetMatchedRunes() returns (matchedRunes: seq<Coord>)
      requires Shape()
      ensures matchedRunes == MatchList(Cells())
    {
      matchedRunes := [];
      matchedRunes := FindHorizontalMatches(matchedRunes);
      matchedRunes := FindVerticalMatches(matchedRunes);
    }

    /** `hasMatch`: the board holds a run of three or more. */
    method HasMatch() returns (found: bool)
      requires Shape()
      ensures found <==> ContainsMatch(Cells())
    {
      var matchedRunes := GetMatchedRunes();
      MatchListEmptyIff(Cells());
      found := matchedRunes != [];
    }

    /** `setRunesToMatched`: pop every coordinate off the stack and flag its rune. */
    method SetRunesToMatched(matches: seq<Coord>)
      requires Shape() && forall i :: 0 <= i < |matches| ==> InRange(matches[i])
      modifies board
      ensures Cells() == Marked(old(Cells()), matches)
    {
      var i := |matches|;
      while i > 0
        invariant 0 <= i <= |matches|
        invariant forall r, c :: 0 <= r < Size && 0 <= c < Size ==>
                    board[r, c] == if Coord(r, c) in matches[i..] then SetIsMatched(old(board[r, c]), true) else old(board[r, c])
      {
        i := i - 1;
        var coord := matches[i];
        assert matches[i..] == [coord] + matches[i + 1..];
        var matchedRune := board[coord.row, coord.col];
        board[coord.row, coord.col] := SetIsMatched(matchedRune, true);
      }
      GridExt(Cells(), Marked(old(Cells()), matches));
    }

    /** `scoreMatches`: count the flagged runes and add their reward to the score. */
    method ScoreMatches()
      requires Shape()
      modifies this
      ensures score == old(score) + Reward(FlaggedTotal(Cells(), Size))
      ensures justShuffled == old(justShuffled) && hintsRemaining == old(hintsRemaining)
      ensures highlightStages == old(highlightStages) && boardStages == old(boardStages)
    {
      var matchedRuneCounter := 0;
      for row := 0 to Size
        invariant matchedRuneCounter == FlaggedTotal(Cells(), row)
      {
        ghost var line := Cells()[row];
        for col := 0 to Size
          invariant matchedRuneCounter == FlaggedTotal(Cells(), row) + FlaggedCount(line[..col])
        {
          assert line[..col + 1][..col] == line[..col];
          if board[row, col].isMatched {
            matchedRuneCounter := matchedRuneCounter + 1;
          }
        }
        assert line[..Size] == line;
      }
      if matchedRuneCounter == 3 {
        score := score + 30;
      } else if matchedRuneCounter == 4 {
        score := score + 50;
      } else {
        score := score + matchedRuneCounter * 20;
      }
    }

    /** `moveRuneFromAbove`: fill the flagged cell (row, column) from the nearest unflagged rune above it, or with a new rune. */
    method MoveRuneFromAbove(row: int, column: int)
      requires Shape() && InRange(Coord(row, column))
      modifies board, rng
      ensures Column(Cells(), column) == PullDown(Column(old(Cells()), column), row, NewRune(rng.stream(old(rng.drawn))))
      ensures forall r, c :: 0 <= r < Size && 0 <= c < Size && c != column ==> board[r, c] == old(board[r, c])
      ensures rng.drawn == old(rng.drawn) + 1
    {
      ghost var s := Column(Cells(), column);
      var tempRow := row - 1;
      while tempRow >= 0 && board[tempRow, column].isMatched
        invariant -1 <= tempRow < row
        invariant LastUnflaggedBefore(s, row) == LastUnflaggedBefore(s, tempRow + 1)
      {
        tempRow := tempRow - 1;
      }
      if tempRow < 0 {
        var newRune := DrawRune(rng);
        board[row, column] := newRune;
      } else {
        var runeToMove := board[tempRow, column];
        board[row, column] := runeToMove;
        var tempRune := DrawRune(rng);
        // not a match: the placeholder is flagged so that the fill clears it later
        board[tempRow, column] := SetIsMatched(tempRune, true);
      }
    }

    /**
     * `fillInRunes`: from the bottom row up, every flagged cell is filled from
     * above. Each column ends as the fill of its old contents, its fresh runes
     * made from this call's draws, and the draws number `FillDraws` per column.
     */
    method FillInRunes()
      requires Shape()
      modifies board, rng
      ensures Refilled(old(Cells()), Cells(), rng.stream, old(rng.drawn), rng.drawn)
      ensures rng.drawn == old(rng.drawn) + FillDrawsUpTo(old(Cells()), Size)
      ensures NoneFlagged(Cells())
    {
      ghost var o := Cells();
      ghost var lo := rng.drawn;
      ghost var hi := lo + FillDrawsUpTo(o, Size);
      RowProgressStart(o, rng.stream, lo, hi);
      var row := Size - 1;
      while row >= 0
        invariant -1 <= row < Size
        invariant RowProgress(Cells(), o, row, 0, rng.stream, lo, hi)
        invariant rng.drawn == lo + DrawsSoFar(o, row, 0, Size)
      {
        FillRow(row, o, lo);
        RowProgressNext(Cells(), o, row, rng.stream, lo, hi);
        row := row - 1;
      }
      RowProgressDone(Cells(), o, rng.stream, lo, hi);
    }

    /** One pass of the row loop of `fillInRunes`: each flagged cell of the row, left to right, is filled from above. */
    method FillRow(row: int, ghost o: Grid, ghost lo: nat)
      requires Shape() && IsGrid(o) && 0 <= row < Size
      requires RowProgress(Cells(), o, row, 0, rng.stream, lo, lo + FillDrawsUpTo(o, Size))
      requires rng.drawn == lo + DrawsSoFar(o, row, 0, Size)
      modifies board, rng
      ensures RowProgress(Cells(), o, row, Size, rng.stream, lo, lo + FillDrawsUpTo(o, Size))
      ensures rng.drawn == lo + DrawsSoFar(o, row, Size, Size)
    {
      ghost var hi := lo + FillDrawsUpTo(o, Size);
      for col := 0 to Size
        invariant RowProgress(Cells(), o, row, col, rng.stream, lo, hi)
        invariant rng.drawn == lo + DrawsSoFar(o, row, col, Size)
      {
        ghost var g := Cells();
        ghost var d := rng.drawn;
        if board[row, col].isMatched {
          MoveRuneFromAbove(row, col);
          RowProgressPull(g, Cells(), o, row, col, rng.stream, lo, hi, d);
        } else {
          RowProgressKeep(g, o, row, col, rng.stream, lo, hi);
        }
      }
    }

    /** `getDeepCopyOfRuneArray` on the board: a copy of every rune, as the copy constructor makes it. */
    method DeepCopyOfBoard() returns (deepCopy: Grid)
      requires Shape()
      ensures deepCopy == Snapshot(Cells())
    {
      deepCopy := [];
      for row := 0 to Size
        invariant |deepCopy| == row
        invariant forall r :: 0 <= r < row ==> deepCopy[r] == Snapshot(Cells())[r]
      {
        var line: seq<Rune> := [];
        for col := 0 to Size
          invariant line == Snapshot(Cells())[row][..col]
        {
          line := line + [CopyRune(board[row, col])];
        }
        deepCopy := deepCopy + [line];
      }
    }

    /** `getDeepCopyOfIntArrayStack`: the same coordinates in the same order. */
    method DeepCopyOfMatches(currMatchedRunes: seq<Coord>) returns (deepCopy: seq<Coord>)
      ensures deepCopy == currMatchedRunes
    {
      deepCopy := [];
      for i := 0 to |currMatchedRunes|
        invariant deepCopy == currMatchedRunes[..i]
      {
        var matchedRune := currMatchedRunes[i];
        deepCopy := deepCopy + [Coord(matchedRune.row, matchedRune.col)];
      }
    }

    /** `shuffleBoard`: the runes laid out row by row, shuffled, and laid back. */
    method ShuffleBoard()
      requires Shape()
      modifies board, rng
      ensures RuneBag(Cells()) == RuneBag(old(Cells()))
    {
      var boardRunes := LayOutRunes();
      ShuffleArray(boardRunes, rng);
      PutBackRunes(boardRunes);
    }

    /** The first half of `shuffleBoard`: rune (r, c) goes to position r * 8 + c of a fresh array. */
    method LayOutRunes() returns (boardRunes: array<Rune>)
      requires Shape()
      ensures fresh(boardRunes)
      ensures boardRunes[..] == Flatten(Cells(), Size)
    {
      boardRunes := new Rune[Size * Size](_ => Rune(Fire, false));
      for row := 0 to Size
        invariant forall r, c :: 0 <= r < row && 0 <= c < Size ==> boardRunes[r * Size + c] == board[r, c]
      {
        for col := 0 to Size
          invariant forall r, c :: 0 <= r < row && 0 <= c < Size ==> boardRunes[r * Size + c] == board[r, c]
          invariant forall c :: 0 <= c < col ==> boardRunes[row * Size + c] == board[row, c]
        {
          boardRunes[row * Size + col] := board[row, col];
        }
      }
      FlattenFromCells(Cells(), boardRunes[..]);
    }

    /** The second half of `shuffleBoard`: position r * 8 + c of the array goes back to cell (r, c). */
    method PutBackRunes(boardRunes: array<Rune>)
      requires Shape() && boardRunes.Length == Size * Size
      modifies board
      ensures Flatten(Cells(), Size) == boardRunes[..]
    {
      for row := 0 to Size
        invariant forall r, c :: 0 <= r < row && 0 <= c < Size ==> board[r, c] == boardRunes[r * Size + c]
      {
        for col := 0 to Size
          invariant forall r, c :: 0 <= r < row && 0 <= c < Size ==> board[r, c] == boardRunes[r * Size + c]
          invariant forall c :: 0 <= c < col ==> board[row, c] == boardRunes[row * Size + c]
        {
          board[row, col] := boardRunes[row * Size + col];
        }
      }
      FlattenFromCells(Cells(), boardRunes[..]);
    }

    /**
     * `getPossibleMatch`: try every left and upward swap in turn, scanning the
     * swapped board and swapping back. The `break` leaves only the column loop,
     * so a later row with a candidate replaces an earlier one.
     */
    method GetPossibleMatch() returns (possibleMoveForMatch: SwapPair)
      requires Shape()
      modifies board
      ensures Cells() == old(Cells())
      ensures possibleMoveForMatch == PossibleMatch(Cells())
    {
      ghost var g := Cells();
      possibleMoveForMatch := NoSwap;
      for row := 0 to Size
        invariant Cells() == g
        invariant possibleMoveForMatch == PossibleMatchBefore(MatchTest(g), row)
      {
        var found := FirstSwapOfRow(row);
        if found != NoSwap {
          possibleMoveForMatch := found;
        }
      }
    }

    /** The column loop of `getPossibleMatch` on one row: the first swap there that makes a match. */
    method FirstSwapOfRow(row: int) returns (found: SwapPair)
      requires Shape() && 0 <= row < Size
      modifies board
      ensures Cells() == old(Cells())
      ensures found == FirstSwapInRow(MatchTest(Cells()), row, 0)
    {
      ghost var works := MatchTest(Cells());
      found := NoSwap;
      for col := 0 to Size
        invariant Cells() == old(Cells())
        invariant FirstSwapInRow(works, row, 0) == FirstSwapInRow(works, row, col)
      {
        if col >= 1 {
          var makesMatch := TryLeftSwap(row, col);
          if makesMatch {
            found := SwapPair(Coord(row, col - 1), Coord(row, col));
            return;
          }
        }
        if row >= 1 {
          var makesMatch := TryUpSwap(row, col);
          if makesMatch {
            found := SwapPair(Coord(row - 1, col), Coord(row, col));
            return;
          }
        }
      }
    }

    /** One trial of `getPossibleMatch`: swap (row, col) with its left neighbour, look for matches, swap back. */
    method TryLeftSwap(row: int, col: int) returns (makesMatch: bool)
      requires Shape() && 0 <= row < Size && 1 <= col < Size
      modifies board
      ensures Cells() == old(Cells())
      ensures makesMatch <==> LeftPasses(MatchTest(Cells()), row, col)
    {
      ghost var g := Cells();
      SwapWithAdjacentLeft(row, col);
      var matchedRunes := GetMatchedRunes();
      SwapWithAdjacentLeft(row, col);
      SwapBack(g, Coord(row, col - 1), Coord(row, col), matchedRunes);
      makesMatch := matchedRunes != [];
    }

    /** One trial of `getPossibleMatch`: swap (row, col) with the rune above, look for matches, swap back. */
    method TryUpSwap(row: int, col: int) returns (makesMatch: bool)
      requires Shape() && 1 <= row < Size && 0 <= col < Size
      modifies board
      ensures Cells() == old(Cells())
      ensures makesMatch <==> UpPasses(MatchTest(Cells()), row, col)
    {
      ghost var g := Cells();
      SwapWithAdjacentAbove(row, col);
      var matchedRunes := GetMatchedRunes();
      SwapWithAdjacentAbove(row, col);
      SwapBack(g, Coord(row - 1, col), Coord(row, col), matchedRunes);
      makesMatch := matchedRunes != [];
    }

    /** `hasNoPossibleMatches`: the player has no move. */
    method HasNoPossibleMatches() returns (none: bool)
      requires Shape()
      modifies board
      ensures Cells() == old(Cells())
      ensures none <==> !HasPossibleMove(Cells())
    {
      var possibleMatch := GetPossibleMatch();
      none := possibleMatch == NoSwap;
    }

    /**
     * `removeMatches`: while the board holds a run, flag every rune of every run,
     * let the survivors fall and fill the gaps. When scoring, each round scores its
     * runes and records the board before (with the runs to highlight) and after.
     * Without scoring only the final board is recorded.
     */
    method RemoveMatches(shouldScore: bool, fuel: nat) returns (settled: bool)
      requires Shape() && NoneFlagged(Cells())
      modifies this, board, rng
      ensures NoneFlagged(Cells())
      ensures settled <==> !ContainsMatch(Cells())
      ensures !old(ContainsMatch(Cells())) ==>
                Cells() == old(Cells()) && rng.drawn == old(rng.drawn) && score == old(score) && highlightStages == []
      ensures justShuffled == old(justShuffled) && hintsRemaining == old(hintsRemaining)
      ensures shouldScore ==> Animated(old(rng.drawn), old(score))
      ensures shouldScore && old(ContainsMatch(Cells())) && fuel > 0 ==>
                |highlightStages| > 0
                && highlightStages[0] == MatchList(old(Cells())) && boardStages[0] == Snapshot(old(Cells()))
      ensures !shouldScore ==> score == old(score) && highlightStages == [] && boardStages == [Snapshot(Cells())]
    {
      boardStages := [];
      highlightStages := [];
      var fuelLeft := fuel;
      var more := HasMatch();
      while more && fuelLeft > 0
        invariant fuelLeft <= fuel
        invariant NoneFlagged(Cells())
        invariant more <==> ContainsMatch(Cells())
        invariant !ContainsMatch(old(Cells())) ==> fuelLeft == fuel
        invariant justShuffled == old(justShuffled) && hintsRemaining == old(hintsRemaining)
        invariant fuelLeft == fuel ==>
                    Cells() == old(Cells()) && rng.drawn == old(rng.drawn) && score == old(score) && highlightStages == [] && boardStages == []
        invariant shouldScore ==> Animated(old(rng.drawn), old(score))
        invariant shouldScore ==> (fuelLeft < fuel <==> |highlightStages| > 0)
        invariant shouldScore && |highlightStages| > 0 ==>
                    highlightStages[0] == MatchList(old(Cells())) && boardStages[0] == Snapshot(old(Cells()))
        invariant !shouldScore ==> score == old(score) && highlightStages == [] && boardStages == []
        decreases fuelLeft
      {
        ClearRecordedRound(shouldScore, old(rng.drawn), old(score));
        fuelLeft := fuelLeft - 1;
        more := HasMatch();
      }
      assert fuelLeft == fuel ==> !ContainsMatch(old(Cells())) || fuel == 0;
      settled := !more;
      if !shouldScore {
        RecordBoard();
      }
    }

    /**
     * One pass of the loop in `removeMatches`: flag the runes of every run, score
     * them when asked, let the rest fall and fill the gaps, recording the board
     * before and after and the runs found.
     */
    method ClearRound(shouldScore: bool)
      requires Shape() && NoneFlagged(Cells()) && ContainsMatch(Cells())
      modifies this, board, rng
      ensures NoneFlagged(Cells())
      ensures Refilled(Marked(old(Cells()), MatchList(old(Cells()))), Cells(), rng.stream, old(rng.drawn), rng.drawn)
      ensures rng.drawn == old(rng.drawn) + FillDrawsUpTo(Marked(old(Cells()), MatchList(old(Cells()))), Size)
      ensures justShuffled == old(justShuffled) && hintsRemaining == old(hintsRemaining)
      ensures shouldScore ==>
                && highlightStages == old(highlightStages) + [MatchList(old(Cells()))]
                && boardStages == old(boardStages) + [Snapshot(old(Cells())), Snapshot(Cells())]
                && score == old(score) + Reward(FlaggedTotal(Marked(old(Cells()), MatchList(old(Cells()))), Size))
                && score >= old(score) + 30
      ensures !shouldScore ==>
                score == old(score) && highlightStages == old(highlightStages) && boardStages == old(boardStages)
    {
      FlagRuns(shouldScore);
      FillInRunes();
      if shouldScore {
        RecordBoard();
      }
    }

    /** `ClearRound`, keeping the recorded animation accounted for when scoring. */
    method ClearRecordedRound(shouldScore: bool, ghost drawn0: nat, ghost score0: int)
      requires Shape() && NoneFlagged(Cells()) && ContainsMatch(Cells())
      requires shouldScore ==> Animated(drawn0, score0)
      modifies this, board, rng
      ensures NoneFlagged(Cells())
      ensures justShuffled == old(justShuffled) && hintsRemaining == old(hintsRemaining)
      ensures shouldScore ==>
                && Animated(drawn0, score0)
                && highlightStages == old(highlightStages) + [MatchList(old(Cells()))]
                && boardStages == old(boardStages) + [Snapshot(old(Cells())), Snapshot(Cells())]
      ensures !shouldScore ==>
                score == old(score) && highlightStages == old(highlightStages) && boardStages == old(boardStages)
    {
      ghost var g := Cells();
      ghost var stagesBefore, highlightsBefore := boardStages, highlightStages;
      ghost var drawnBefore, scoreBefore := rng.drawn, score;
      ClearRound(shouldScore);
      if shouldScore {
        AccountedGrow(highlightsBefore, stagesBefore, rng.stream, drawn0, drawnBefore, score0, scoreBefore,
                      g, Cells(), rng.drawn, score);
      }
    }

    /** The first half of a pass of `removeMatches`: find the runs, record them when scoring, flag them and score them. */
    method FlagRuns(shouldScore: bool)
      requires Shape() && NoneFlagged(Cells()) && ContainsMatch(Cells())
      modifies this, board
      ensures Cells() == Marked(old(Cells()), MatchList(old(Cells())))
      ensures justShuffled == old(justShuffled) && hintsRemaining == old(hintsRemaining)
      ensures shouldScore ==>
                && highlightStages == old(highlightStages) + [MatchList(old(Cells()))]
                && boardStages == old(boardStages) + [Snapshot(old(Cells()))]
                && score == old(score) + Reward(FlaggedTotal(Marked(old(Cells()), MatchList(old(Cells()))), Size))
                && score >= old(score) + 30
      ensures !shouldScore ==>
                score == old(score) && highlightStages == old(highlightStages) && boardStages == old(boardStages)
    {
      ghost var g := Cells();
      var currMatchedRunes := GetMatchedRunes();
      if shouldScore {
        RecordStage(currMatchedRunes);
      }
      MatchListInRange(g);
      SetRunesToMatched(currMatchedRunes);
      if shouldScore {
        MarkedRunScores(g);
        ScoreMatches();
      }
    }

    /** Record the board as it stands and the runs found on it, as `removeMatches` does when scoring. */
    method RecordStage(currMatchedRunes: seq<Coord>)
      requires Shape()
      modifies this
      ensures boardStages == old(boardStages) + [Snapshot(Cells())]
      ensures highlightStages == old(highlightStages) + [currMatchedRunes]
      ensures score == old(score) && justShuffled == old(justShuffled) && hintsRemaining == old(hintsRemaining)
    {
      RecordBoard();
      var matchesCopy := DeepCopyOfMatches(currMatchedRunes);
      highlightStages := highlightStages + [matchesCopy];
    }

    /** `boardStages.add(deepCopyOfBoard())`: append a copy of the board as it stands. */
    method RecordBoard()
      requires Shape()
      modifies this
      ensures boardStages == old(boardStages) + [Snapshot(Cells())]
      ensures highlightStages == old(highlightStages)
      ensures score == old(score) && justShuffled == old(justShuffled) && hintsRemaining == old(hintsRemaining)
    {
      var boardCopy := DeepCopyOfBoard();
      boardStages := boardStages + [boardCopy];
    }

    /**
     * `ensurePossibleMatch`: remember whether the board had no move, then shuffle
     * and clear runs (unscored) until it has one.
     */
    method EnsurePossibleMatch(fuel: nat) returns (settled: bool)
      requires Shape() && NoneFlagged(Cells())
      modifies this, board, rng
      ensures NoneFlagged(Cells())
      ensures justShuffled <==> !HasPossibleMove(old(Cells()))
      ensures settled ==> HasPossibleMove(Cells())
      ensures !justShuffled ==>
                settled && Cells() == old(Cells()) && rng.drawn == old(rng.drawn)
                && highlightStages == old(highlightStages) && boardStages == old(boardStages)
      ensures justShuffled && settled ==>
                !ContainsMatch(Cells()) && highlightStages == [] && boardStages == [Snapshot(Cells())]
      ensures score == old(score) && hintsRemaining == old(hintsRemaining)
    {
      var noMove := HasNoPossibleMatches();
      justShuffled := noMove;
      ghost var start := Cells();
      var fuelLeft := fuel;
      var cleared := true;
      noMove := HasNoPossibleMatches();
      while noMove && fuelLeft > 0
        invariant fuelLeft <= fuel
        invariant NoneFlagged(Cells())
        invariant noMove <==> !HasPossibleMove(Cells())
        invariant justShuffled <==> !HasPossibleMove(old(Cells()))
        invariant score == old(score) && hintsRemaining == old(hintsRemaining)
        invariant fuelLeft == fuel ==>
                    Cells() == start && rng.drawn == old(rng.drawn)
                    && highlightStages == old(highlightStages) && boardStages == old(boardStages)
        invariant fuelLeft < fuel ==>
                    justShuffled && !ContainsMatch(Cells()) && highlightStages == [] && boardStages == [Snapshot(Cells())]
        decreases fuelLeft
      {
        ghost var unshuffled := Cells();
        ShuffleBoard();
        ShuffleKeepsNoneFlagged(unshuffled, Cells());
        cleared := RemoveMatches(false, fuel);
        if !cleared {
          break;
        }
        fuelLeft := fuelLeft - 1;
        noMove := HasNoPossibleMatches();
      }
      settled := cleared && !noMove;
    }

    /**
     * `handleSwap`: swap two runes; if that makes a run, clear the board (scored)
     * and make sure a move remains, otherwise swap them back.
     */
    method HandleSwap(coord1: Coord, coord2: Coord, fuel: nat) returns (matched: bool, settled: bool)
      requires Shape() && NoneFlagged(Cells()) && InRange(coord1) && InRange(coord2)
      modifies this, board, rng
      ensures NoneFlagged(Cells())
      ensures matched <==> ContainsMatch(Swapped(old(Cells()), coord1, coord2))
      ensures !matched ==>
                settled && Cells() == old(Cells()) && rng.drawn == old(rng.drawn) && score == old(score)
                && justShuffled == old(justShuffled)
                && highlightStages == old(highlightStages) && boardStages == old(boardStages)
      ensures matched && settled ==> !ContainsMatch(Cells()) && HasPossibleMove(Cells())
      ensures matched && justShuffled ==> highlightStages == [] && boardStages == [Snapshot(Cells())]
      ensures matched && !justShuffled ==> Animated(old(rng.drawn), old(score))
      ensures matched && !justShuffled && fuel > 0 ==>
                |highlightStages| > 0 && highlightStages[0] == MatchList(Swapped(old(Cells()), coord1, coord2))
      ensures score >= old(score) && (matched && fuel > 0 ==> score >= old(score) + 30)
      ensures hintsRemaining == old(hintsRemaining)
    {
      SwapRunes(coord1, coord2);
      matched := HasMatch();
      if matched {
        settled := SettleBoard(fuel);
      } else {
        SwapRunes(coord1, coord2);
        SwapTwiceRestores(old(Cells()), coord1, coord2);
        return false, true;
      }
    }

    /**
     * The rest of `handleSwap` once the swap has made a run: clear the runs with
     * scoring, make sure a move remains, and if that took a shuffle show only the
     * shuffled board.
     */
    method SettleBoard(fuel: nat) returns (settled: bool)
      requires Shape() && NoneFlagged(Cells()) && ContainsMatch(Cells())
      modifies this, board, rng
      ensures NoneFlagged(Cells())
      ensures settled ==> !ContainsMatch(Cells()) && HasPossibleMove(Cells())
      ensures justShuffled ==> highlightStages == [] && boardStages == [Snapshot(Cells())]
      ensures !justShuffled ==> Animated(old(rng.drawn), old(score))
      ensures !justShuffled && fuel > 0 ==>
                |highlightStages| > 0 && highlightStages[0] == MatchList(old(Cells()))
      ensures score >= old(score) && (fuel > 0 ==> score >= old(score) + 30)
      ensures hintsRemaining == old(hintsRemaining)
    {
      var cleared := RemoveMatches(true, fuel);
      var movable := EnsurePossibleMatch(fuel);
      settled := cleared && movable;
      if justShuffled {
        RestartStages();
      }
    }

    /** After a shuffle the stages to show are the shuffled board alone. */
    method RestartStages()
      requires Shape()
      modifies this
      ensures highlightStages == [] && boardStages == [Snapshot(Cells())]
      ensures score == old(score) && hintsRemaining == old(hintsRemaining) && justShuffled == old(justShuffled)
    {
      boardStages := [];
      highlightStages := [];
      RecordBoard();
    }

    /**
     * `recordScore`: read the high-score table, insert this game's score, and
     * write the table back; the answer is whether the score heads the new table.
     */
    method RecordScore(read: FileRead) returns (r: Result<Recorded, Crash>)
      ensures ReadScores(read).Err? ==> r == Err(ReadScores(read).error)
      ensures ReadScores(read).Ok? ==>
                var table := ReadScores(read).value;
                && r.Ok?
                && r.value.written == ScoreLine(InsertScore(table, score))
                && (r.value.isHighScore <==> score >= table[0])
    {
      var highScores := ReadHighScoresFromFile(read);
      if highScores.Err? {
        return Err(highScores.error);
      }
      var updatedScores := new int[HighScoreCount](i requires 0 <= i < HighScoreCount => highScores.value[i]);
      assert updatedScores[..] == highScores.value;
      UpdateHighScores(updatedScores, score);
      var written := WriteScores(updatedScores);
      InsertScoreTop(highScores.value, score);
      return Ok(Recorded(written, score == updatedScores[0]));
    }

    /** `getHintCoords`: a swap that makes a run (if any), using up one hint while any remain. */
    method GetHintCoords() returns (swapHints: SwapPair)
      requires Shape()
      modifies this, board
      ensures Cells() == old(Cells())
      ensures swapHints == PossibleMatch(Cells())
      ensures hintsRemaining == if old(hintsRemaining) > 0 then old(hintsRemaining) - 1 else old(hintsRemaining)
      ensures score == old(score) && justShuffled == old(justShuffled)
      ensures highlightStages == old(highlightStages) && boardStages == old(boardStages)
    {
      swapHints := GetPossibleMatch();
      if hintsRemaining > 0 {
        hintsRemaining := hintsRemaining - 1;
      }
    }
  }

  /** Every recorded board is a full board. */
  ghost predicate AllGrids(boardStages: seq<Grid>) {
    forall i :: 0 <= i < |boardStages| ==> IsGrid(boardStages[i])
  }

  /** The draws the first n recorded rounds make: each round refills the cells it flags on its first board. */
  ghost function StagesDraws(highlightStages: seq<seq<Coord>>, boardStages: seq<Grid>, n: int): nat
    requires |boardStages| == 2 * |highlightStages| && AllGrids(boardStages) && 0 <= n <= |highlightStages|
  {
    if n == 0 then 0
    else StagesDraws(highlightStages, boardStages, n - 1)
         + FillDrawsUpTo(Marked(boardStages[2 * (n - 1)], highlightStages[n - 1]), Size)
  }

  /** The points the first n recorded rounds earn: each round scores the cells it flags on its first board. */
  ghost function StagesScore(highlightStages: seq<seq<Coord>>, boardStages: seq<Grid>, n: int): int
    requires |boardStages| == 2 * |highlightStages| && AllGrids(boardStages) && 0 <= n <= |highlightStages|
  {
    if n == 0 then 0
    else StagesScore(highlightStages, boardStages, n - 1)
         + Reward(FlaggedTotal(Marked(boardStages[2 * (n - 1)], highlightStages[n - 1]), Size))
  }

  /** The sums over the first n rounds see only those rounds. */
  lemma {:induction false} StagesSumsKept(highlightStages: seq<seq<Coord>>, boardStages: seq<Grid>,
                                          hs: seq<seq<Coord>>, bs: seq<Grid>, n: int)
    requires |boardStages| == 2 * |highlightStages| && AllGrids(boardStages) && 0 <= n <= |highlightStages|
    requires |bs| == 2 * |hs| && AllGrids(bs) && |highlightStages| <= |hs|
    requires highlightStages == hs[..|highlightStages|] && boardStages == bs[..|boardStages|]
    ensures StagesDraws(highlightStages, boardStages, n) == StagesDraws(hs, bs, n)
    ensures StagesScore(highlightStages, boardStages, n) == StagesScore(hs, bs, n)
  {
    if n > 0 {
      StagesSumsKept(highlightStages, boardStages, hs, bs, n - 1);
      assert boardStages[2 * (n - 1)] == bs[2 * (n - 1)] && highlightStages[n - 1] == hs[n - 1];
    }
  }

  /**
   * One round of clearing as recorded: the board before it and the board after
   * it carry no flag, the runs are those found on the board before, there is at
   * least one, and the board after is the board before with the runs flagged
   * and refilled column by column from the draws lo .. hi - 1.
   */
  ghost predicate Round(before: Grid, runs: seq<Coord>, after: Grid, stream: nat -> nat, lo: nat, hi: nat)
    requires IsGrid(before) && IsGrid(after)
  {
    && NoneFlagged(before) && NoneFlagged(after)
    && runs == MatchList(before) && runs != []
    && Refilled(Marked(before, runs), after, stream, lo, hi)
  }

  /**
   * The recorded animation of the rounds of clearing that started with draw lo:
   * two boards per round (before and after) and for each round the runs found
   * on the board before it, every round a `Round` that starts from the board
   * the previous one ended with and uses the draws that follow the previous
   * rounds' draws.
   */
  ghost predicate Stages(highlightStages: seq<seq<Coord>>, boardStages: seq<Grid>, stream: nat -> nat, lo: nat) {
    && |boardStages| == 2 * |highlightStages| && AllGrids(boardStages)
    && forall i :: 0 <= i < |highlightStages| ==> RoundAt(highlightStages, boardStages, stream, lo, i)
  }

  /** Round i of the recorded animation. */
  ghost predicate RoundAt(highlightStages: seq<seq<Coord>>, boardStages: seq<Grid>, stream: nat -> nat, lo: nat, i: int)
    requires |boardStages| == 2 * |highlightStages| && AllGrids(boardStages) && 0 <= i < |highlightStages|
  {
    && (i > 0 ==> boardStages[2 * i] == boardStages[2 * i - 1])
    && Round(boardStages[2 * i], highlightStages[i], boardStages[2 * i + 1], stream,
             lo + StagesDraws(highlightStages, boardStages, i), lo + StagesDraws(highlightStages, boardStages, i + 1))
  }

  /**
   * The rounds recorded in the animation are those that took the stream from
   * draw lo to draw hi and the score from score0 to score, each round earning
   * at least 30, and the animation ends with board g.
   */
  ghost predicate Accounted(highlightStages: seq<seq<Coord>>, boardStages: seq<Grid>, stream: nat -> nat,
                            lo: nat, hi: nat, score0: int, score: int, g: Grid)
  {
    && Stages(highlightStages, boardStages, stream, lo)
    && hi == lo + StagesDraws(highlightStages, boardStages, |highlightStages|)
    && score == score0 + StagesScore(highlightStages, boardStages, |highlightStages|)
    && score >= score0 + 30 * |highlightStages|
    && (|boardStages| > 0 ==> boardStages[|boardStages| - 1] == g)
  }

  /**
   * One round that flags the runs of g, the board the animation ended with, and
   * refills them from the next draws to leave h extends the recorded animation,
   * its draws and its points by that round's.
   */
  lemma StagesGrow(highlightStages: seq<seq<Coord>>, boardStages: seq<Grid>, stream: nat -> nat, lo: nat, g: Grid, h: Grid)
    requires Stages(highlightStages, boardStages, stream, lo)
    requires IsGrid(g) && IsGrid(h) && NoneFlagged(g) && NoneFlagged(h) && ContainsMatch(g)
    requires |boardStages| > 0 ==> boardStages[|boardStages| - 1] == g
    requires Refilled(Marked(g, MatchList(g)), h, stream, lo + StagesDraws(highlightStages, boardStages, |highlightStages|),
                      lo + StagesDraws(highlightStages, boardStages, |highlightStages|) + FillDrawsUpTo(Marked(g, MatchList(g)), Size))
    ensures Stages(highlightStages + [MatchList(g)], boardStages + [Snapshot(g), Snapshot(h)], stream, lo)
    ensures StagesDraws(highlightStages + [MatchList(g)], boardStages + [Snapshot(g), Snapshot(h)], |highlightStages| + 1)
            == StagesDraws(highlightStages, boardStages, |highlightStages|) + FillDrawsUpTo(Marked(g, MatchList(g)), Size)
    ensures StagesScore(highlightStages + [MatchList(g)], boardStages + [Snapshot(g), Snapshot(h)], |highlightStages| + 1)
            == StagesScore(highlightStages, boardStages, |highlightStages|) + Reward(FlaggedTotal(Marked(g, MatchList(g)), Size))
  {
    SnapshotFaithful(g);
    SnapshotFaithful(h);
    var a := lo + StagesDraws(highlightStages, boardStages, |highlightStages|);
    assert Round(g, MatchList(g), h, stream, a, a + FillDrawsUpTo(Marked(g, MatchList(g)), Size)) by {
      MatchListEmptyIff(g);
    }
    StagesExtend(highlightStages, boardStages, stream, lo, g, MatchList(g), h);
  }

  /**
   * A scored round that flags the runs of g, the board the animation ends with,
   * refills them from the next draws to leave h and scores them keeps the
   * animation accounted for.
   */
  lemma AccountedGrow(highlightStages: seq<seq<Coord>>, boardStages: seq<Grid>, stream: nat -> nat,
                      lo: nat, hi: nat, score0: int, score: int, g: Grid, h: Grid, hi': nat, score': int)
    requires Accounted(highlightStages, boardStages, stream, lo, hi, score0, score, g)
    requires IsGrid(g) && IsGrid(h) && NoneFlagged(g) && NoneFlagged(h) && ContainsMatch(g)
    requires hi' == hi + FillDrawsUpTo(Marked(g, MatchList(g)), Size) && Refilled(Marked(g, MatchList(g)), h, stream, hi, hi')
    requires score' == score + Reward(FlaggedTotal(Marked(g, MatchList(g)), Size))
    ensures Accounted(highlightStages + [MatchList(g)], boardStages + [Snapshot(g), Snapshot(h)], stream, lo, hi', score0, score', h)
  {
    var hs, bs := highlightStages + [MatchList(g)], boardStages + [Snapshot(g), Snapshot(h)];
    assert Stages(hs, bs, stream, lo) && hi' == lo + StagesDraws(hs, bs, |hs|)
           && score' == score0 + StagesScore(hs, bs, |hs|) by {
      StagesGrow(highlightStages, boardStages, stream, lo, g, h);
    }
    assert score' >= score0 + 30 * |hs| by {
      MarkedRunScores(g);
    }
    assert bs[|bs| - 1] == h by {
      SnapshotFaithful(h);
    }
  }

  /** Appending a round that starts from the last recorded board and uses the next draws. */
  lemma StagesExtend(highlightStages: seq<seq<Coord>>, boardStages: seq<Grid>, stream: nat -> nat, lo: nat,
                     before: Grid, runs: seq<Coord>, after: Grid)
    requires Stages(highlightStages, boardStages, stream, lo) && IsGrid(before) && IsGrid(after)
    requires |boardStages| > 0 ==> boardStages[|boardStages| - 1] == before
    requires Round(before, runs, after, stream, lo + StagesDraws(highlightStages, boardStages, |highlightStages|),
                   lo + StagesDraws(highlightStages, boardStages, |highlightStages|) + FillDrawsUpTo(Marked(before, runs), Size))
    ensures Stages(highlightStages + [runs], boardStages + [before, after], stream, lo)
    ensures StagesDraws(highlightStages + [runs], boardStages + [before, after], |highlightStages| + 1)
            == StagesDraws(highlightStages, boardStages, |highlightStages|) + FillDrawsUpTo(Marked(before, runs), Size)
    ensures StagesScore(highlightStages + [runs], boardStages + [before, after], |highlightStages| + 1)
            == StagesScore(highlightStages, boardStages, |highlightStages|) + Reward(FlaggedTotal(Marked(before, runs), Size))
  {
    var k := |highlightStages|;
    var hs, bs := highlightStages + [runs], boardStages + [before, after];
    StagesSumsAppend(highlightStages, boardStages, before, runs, after);
    forall i | 0 <= i < k + 1
      ensures RoundAt(hs, bs, stream, lo, i)
    {
      if i < k {
        RoundAtKept(highlightStages, boardStages, hs, bs, stream, lo, i);
      } else {
        RoundAtAppend(highlightStages, boardStages, stream, lo, before, runs, after);
      }
    }
  }

  /** The sums over the rounds grow by the appended round's draws and points. */
  lemma StagesSumsAppend(highlightStages: seq<seq<Coord>>, boardStages: seq<Grid>, before: Grid, runs: seq<Coord>, after: Grid)
    requires |boardStages| == 2 * |highlightStages| && AllGrids(boardStages) && IsGrid(before) && IsGrid(after)
    ensures AllGrids(boardStages + [before, after])
    ensures highlightStages == (highlightStages + [runs])[..|highlightStages|]
    ensures boardStages == (boardStages + [before, after])[..|boardStages|]
    ensures StagesDraws(highlightStages + [runs], boardStages + [before, after], |highlightStages| + 1)
            == StagesDraws(highlightStages, boardStages, |highlightStages|) + FillDrawsUpTo(Marked(before, runs), Size)
    ensures StagesScore(highlightStages + [runs], boardStages + [before, after], |highlightStages| + 1)
            == StagesScore(highlightStages, boardStages, |highlightStages|) + Reward(FlaggedTotal(Marked(before, runs), Size))
  {
    var k := |highlightStages|;
    var hs, bs := highlightStages + [runs], boardStages + [before, after];
    assert AllGrids(bs);
    assert hs[..k] == highlightStages && bs[..2 * k] == boardStages;
    StagesSumsKept(highlightStages, boardStages, hs, bs, k);
    assert bs[2 * k] == before && hs[k] == runs;
  }

  /** The appended round is the last round of the longer animation. */
  lemma RoundAtAppend(highlightStages: seq<seq<Coord>>, boardStages: seq<Grid>, stream: nat -> nat, lo: nat,
                      before: Grid, runs: seq<Coord>, after: Grid)
    requires |boardStages| == 2 * |highlightStages| && AllGrids(boardStages) && IsGrid(before) && IsGrid(after)
    requires |boardStages| > 0 ==> boardStages[|boardStages| - 1] == before
    requires Round(before, runs, after, stream, lo + StagesDraws(highlightStages, boardStages, |highlightStages|),
                   lo + StagesDraws(highlightStages, boardStages, |highlightStages|) + FillDrawsUpTo(Marked(before, runs), Size))
    ensures AllGrids(boardStages + [before, after])
    ensures RoundAt(highlightStages + [runs], boardStages + [before, after], stream, lo, |highlightStages|)
  {
    var k := |highlightStages|;
    var hs, bs := highlightStages + [runs], boardStages + [before, after];
    var a := lo + StagesDraws(highlightStages, boardStages, k);
    var b := a + FillDrawsUpTo(Marked(before, runs), Size);
    assert AllGrids(bs) && a == lo + StagesDraws(hs, bs, k) && b == lo + StagesDraws(hs, bs, k + 1) by {
      StagesSumsAppend(highlightStages, boardStages, before, runs, after);
      StagesSumsKept(highlightStages, boardStages, hs, bs, k);
    }
    assert bs[2 * k] == before && hs[k] == runs && bs[2 * k + 1] == after && (k > 0 ==> before == bs[2 * k - 1]);
    RoundAtIntro(hs, bs, stream, lo, k, before, runs, after, a, b);
  }

  /** A round whose boards, runs and draws are those recorded at i is round i. */
  lemma RoundAtIntro(highlightStages: seq<seq<Coord>>, boardStages: seq<Grid>, stream: nat -> nat, lo: nat, i: int,
                     before: Grid, runs: seq<Coord>, after: Grid, a: nat, b: nat)
    requires |boardStages| == 2 * |highlightStages| && AllGrids(boardStages) && 0 <= i < |highlightStages|
    requires IsGrid(before) && IsGrid(after) && Round(before, runs, after, stream, a, b)
    requires boardStages[2 * i] == before && highlightStages[i] == runs && boardStages[2 * i + 1] == after
    requires i > 0 ==> before == boardStages[2 * i - 1]
    requires a == lo + StagesDraws(highlightStages, boardStages, i) && b == lo + StagesDraws(highlightStages, boardStages, i + 1)
    ensures RoundAt(highlightStages, boardStages, stream, lo, i)
  {
  }

  /** Round i of an animation is round i of any animation that extends it. */
  lemma RoundAtKept(highlightStages: seq<seq<Coord>>, boardStages: seq<Grid>, hs: seq<seq<Coord>>, bs: seq<Grid>,
                    stream: nat -> nat, lo: nat, i: int)
    requires |boardStages| == 2 * |highlightStages| && AllGrids(boardStages) && 0 <= i < |highlightStages|
    requires |bs| == 2 * |hs| && AllGrids(bs) && |highlightStages| <= |hs|
    requires highlightStages == hs[..|highlightStages|] && boardStages == bs[..|boardStages|]
    requires RoundAt(highlightStages, boardStages, stream, lo, i)
    ensures RoundAt(hs, bs, stream, lo, i)
  {
    StagesSumsKept(highlightStages, boardStages, hs, bs, i);
    StagesSumsKept(highlightStages, boardStages, hs, bs, i + 1);
    assert boardStages[2 * i] == bs[2 * i] && boardStages[2 * i + 1] == bs[2 * i + 1] && highlightStages[i] == hs[i];
    assert i > 0 ==> boardStages[2 * i - 1] == bs[2 * i - 1];
  }

  /** A shuffle of a board with no flagged rune leaves none flagged. */
  lemma ShuffleKeepsNoneFlagged(g: Grid, h: Grid)
    requires IsGrid(g) && IsGrid(h) && NoneFlagged(g) && RuneBag(h) == RuneBag(g)
    ensures NoneFlagged(h)
  {
    forall r, c | 0 <= r < Size && 0 <= c < Size
      ensures !h[r][c].isMatched
    {
      FlattenAt(h, Size, r, c);
      assert h[r][c] in RuneBag(g);
      var k :| 0 <= k < Size * Size && Flatten(g, Size)[k] == h[r][c];
      var r', c' := k / Size, k % Size;
      assert k == r' * Size + c';
      FlattenAt(g, Size, r', c');
    }
  }

  /** The scan of the swapped board finds something exactly when the swap passes the match test; swapping back restores the board. */
  lemma SwapBack(g: Grid, a: Coord, b: Coord, found: seq<Coord>)
    requires IsGrid(g) && InRange(a) && InRange(b)
    requires found == MatchList(Swapped(g, a, b))
    ensures found != [] <==> MatchTest(g)(a, b)
    ensures Swapped(Swapped(g, a, b), a, b) == g
  {
    MatchListEmptyIff(Swapped(g, a, b));
    SwapTwiceRestores(g, a, b);
  }

  /** A sequence that holds cell (r, c) at r * Size + c is the flattened grid. */
  lemma FlattenFromCells(g: Grid, s: seq<Rune>)
    requires IsGrid(g) && |s| == Size * Size
    requires forall r, c :: 0 <= r < Size && 0 <= c < Size ==> s[r * Size + c] == g[r][c]
    ensures s == Flatten(g, Size)
  {
    forall k | 0 <= k < Size * Size
      ensures s[k] == Flatten(g, Size)[k]
    {
      var r, c := k / Size, k % Size;
      assert k == r * Size + c;
      FlattenAt(g, Size, r, c);
    }
  }

  /** `shuffleArray`: Fisher-Yates, swapping each position from the last down with a random one at or before it. */
  method ShuffleArray(runes: array<Rune>, random: RandomSource)
    modifies runes, random
    ensures multiset(runes[..]) == multiset(old(runes[..]))
  {
    var i := runes.Length - 1;
    while i > 0
      invariant multiset(runes[..]) == multiset(old(runes[..]))
    {
      var index := random.NextInt(i + 1);
      var temp := runes[index];
      runes[index] := runes[i];
      runes[i] := temp;
      i := i - 1;
    }
  }

  /**
   * `fillInRunes` part-way through row `row`: columns before `col` have done
   * rows row.., the others rows row+1..; the fresh runes so far are made from
   * the draws lo .. hi - 1.
   */
  ghost predicate RowProgress(g: Grid, o: Grid, row: int, col: int, stream: nat -> nat, lo: nat, hi: nat)
    requires IsGrid(g) && IsGrid(o)
  {
    && -1 <= row < Size && 0 <= col <= Size
    && (forall c :: 0 <= c < col ==> FillStep(Column(g, c), Column(o, c), row, stream, lo, hi))
    && (forall c :: col <= c < Size ==> FillStep(Column(g, c), Column(o, c), row + 1, stream, lo, hi))
  }

  /** Before the fill nothing is done and nothing drawn. */
  lemma RowProgressStart(o: Grid, stream: nat -> nat, lo: nat, hi: nat)
    requires IsGrid(o)
    ensures RowProgress(o, o, Size - 1, 0, stream, lo, hi)
    ensures DrawsSoFar(o, Size - 1, 0, Size) == 0
  {
    forall c | 0 <= c < Size
      ensures FillStep(Column(o, c), Column(o, c), Size, stream, lo, hi)
    {
      FillStepStart(Column(o, c), stream, lo, hi);
    }
    DrawsSoFarStart(o, Size);
  }

  /** A finished row is the start of the row above it. */
  lemma RowProgressNext(g: Grid, o: Grid, row: int, stream: nat -> nat, lo: nat, hi: nat)
    requires IsGrid(g) && IsGrid(o) && 0 <= row < Size
    requires RowProgress(g, o, row, Size, stream, lo, hi)
    ensures RowProgress(g, o, row - 1, 0, stream, lo, hi)
    ensures DrawsSoFar(o, row, Size, Size) == DrawsSoFar(o, row - 1, 0, Size)
  {
    DrawsSoFarNextRow(o, row, Size);
  }

  /** Once every row is done, every column is filled, nothing is flagged, and all the draws are made. */
  lemma RowProgressDone(g: Grid, o: Grid, stream: nat -> nat, lo: nat, hi: nat)
    requires IsGrid(g) && IsGrid(o) && RowProgress(g, o, -1, 0, stream, lo, hi)
    ensures Refilled(o, g, stream, lo, hi) && NoneFlagged(g)
    ensures DrawsSoFar(o, -1, 0, Size) == FillDrawsUpTo(o, Size)
  {
    forall c | 0 <= c < Size
      ensures ColumnFilled(Column(o, c), Column(g, c))
      ensures FreshDrawn(Column(o, c), Column(g, c), stream, lo, hi)
    {
      FillStepDone(Column(g, c), Column(o, c), stream, lo, hi);
    }
    FilledBoardClear(o, g);
    DrawsSoFarEnd(o, Size);
  }

  /** An unflagged cell stays: its column's done rows grow by one and nothing is drawn. */
  lemma RowProgressKeep(g: Grid, o: Grid, row: int, col: int, stream: nat -> nat, lo: nat, hi: nat)
    requires IsGrid(g) && IsGrid(o) && 0 <= row < Size && 0 <= col < Size
    requires RowProgress(g, o, row, col, stream, lo, hi) && !g[row][col].isMatched
    ensures RowProgress(g, o, row, col + 1, stream, lo, hi)
    ensures DrawsSoFar(o, row, col + 1, Size) == DrawsSoFar(o, row, col, Size)
  {
    FillStepKeep(Column(g, col), Column(o, col), row + 1, stream, lo, hi);
    DrawsSoFarStep(o, row, col, Size);
  }

  /**
   * A flagged cell is filled from above with the rune made from draw d, the
   * next one: its column's done rows grow by one, no other column changes, and
   * one more draw is made, still within hi.
   */
  lemma RowProgressPull(g: Grid, h: Grid, o: Grid, row: int, col: int, stream: nat -> nat, lo: nat, hi: nat, d: nat)
    requires IsGrid(g) && IsGrid(h) && IsGrid(o) && 0 <= row < Size && 0 <= col < Size
    requires RowProgress(g, o, row, col, stream, lo, hi) && g[row][col].isMatched
    requires d == lo + DrawsSoFar(o, row, col, Size) && hi == lo + FillDrawsUpTo(o, Size)
    requires Column(h, col) == PullDown(Column(g, col), row, NewRune(stream(d)))
    requires forall r, c :: 0 <= r < Size && 0 <= c < Size && c != col ==> h[r][c] == g[r][c]
    ensures RowProgress(h, o, row, col + 1, stream, lo, hi)
    ensures DrawsSoFar(o, row, col + 1, Size) == DrawsSoFar(o, row, col, Size) + 1
  {
    FillStepCount(Column(g, col), Column(o, col), row + 1, stream, lo, hi);
    DrawsSoFarStep(o, row, col, Size);
    DrawsSoFarBounded(o, row, col + 1, Size);
    FillStepPull(Column(g, col), Column(o, col), row + 1, stream, lo, hi, d);
    OtherColumnsKept(g, h, col);
    RowProgressReplace(g, h, o, row, col, stream, lo, hi);
  }

  /**
   * The draws `fillInRunes` has made over the first n columns part-way through
   * row `row`: columns before `col` have done rows row.., the others rows row+1...
   */
  ghost function DrawsSoFar(o: Grid, row: int, col: int, n: nat): nat
    requires IsGrid(o) && n <= Size
  {
    if n == 0 then 0
    else DrawsSoFar(o, row, col, n - 1) + DrawsDone(Column(o, n - 1), if n - 1 < col then row else row + 1)
  }

  /** The runes `fillInRunes` draws for the first n columns of o. */
  function FillDrawsUpTo(o: Grid, n: nat): nat
    requires IsGrid(o) && n <= Size
  {
    if n == 0 then 0 else FillDrawsUpTo(o, n - 1) + FillDraws(Column(o, n - 1))
  }

  lemma {:induction false} DrawsSoFarStep(o: Grid, row: int, col: int, n: nat)
    requires IsGrid(o) && n <= Size && 0 <= col < Size
    ensures DrawsSoFar(o, row, col + 1, n) == DrawsSoFar(o, row, col, n)
              + if col < n then DrawsDone(Column(o, col), row) - DrawsDone(Column(o, col), row + 1) else 0
  {
    if n > 0 {
      DrawsSoFarStep(o, row, col, n - 1);
    }
  }

  /** Part-way through the fill, the draws made are within the fill's total. */
  lemma {:induction false} DrawsSoFarBounded(o: Grid, row: int, col: int, n: nat)
    requires IsGrid(o) && n <= Size && 0 <= row
    ensures DrawsSoFar(o, row, col, n) <= FillDrawsUpTo(o, n)
  {
    if n > 0 {
      DrawsSoFarBounded(o, row, col, n - 1);
    }
  }

  lemma {:induction false} DrawsSoFarNextRow(o: Grid, row: int, n: nat)
    requires IsGrid(o) && n <= Size
    ensures DrawsSoFar(o, row, Size, n) == DrawsSoFar(o, row - 1, 0, n)
  {
    if n > 0 {
      DrawsSoFarNextRow(o, row, n - 1);
    }
  }

  lemma {:induction false} DrawsSoFarStart(o: Grid, n: nat)
    requires IsGrid(o) && n <= Size
    ensures DrawsSoFar(o, Size - 1, 0, n) == 0
  {
    if n > 0 {
      DrawsSoFarStart(o, n - 1);
    }
  }

  lemma {:induction false} DrawsSoFarEnd(o: Grid, n: nat)
    requires IsGrid(o) && n <= Size
    ensures DrawsSoFar(o, -1, 0, n) == FillDrawsUpTo(o, n)
  {
    if n > 0 {
      DrawsSoFarEnd(o, n - 1);
    }
  }

  /** Every column of g is the fill of the same column of o, its fresh runes made from the draws lo .. hi - 1. */
  ghost predicate Refilled(o: Grid, g: Grid, stream: nat -> nat, lo: nat, hi: nat)
    requires IsGrid(o) && IsGrid(g)
  {
    forall c :: 0 <= c < Size ==>
      ColumnFilled(Column(o, c), Column(g, c)) && FreshDrawn(Column(o, c), Column(g, c), stream, lo, hi)
  }

  /** Replacing column col by one whose row `row` is done moves the progress one column on. */
  lemma RowProgressReplace(g: Grid, h: Grid, o: Grid, row: int, col: int, stream: nat -> nat, lo: nat, hi: nat)
    requires IsGrid(g) && IsGrid(h) && IsGrid(o) && 0 <= row < Size && 0 <= col < Size
    requires RowProgress(g, o, row, col, stream, lo, hi)
    requires FillStep(Column(h, col), Column(o, col), row, stream, lo, hi)
    requires forall c :: 0 <= c < Size && c != col ==> Column(h, c) == Column(g, c)
    ensures RowProgress(h, o, row, col + 1, stream, lo, hi)
  {
  }

  /** Changing one column leaves the others as they were. */
  lemma OtherColumnsKept(g: Grid, h: Grid, col: int)
    requires IsGrid(g) && IsGrid(h)
    requires forall r, c :: 0 <= r < Size && 0 <= c < Size && c != col ==> h[r][c] == g[r][c]
    ensures forall c :: 0 <= c < Size && c != col ==> Column(h, c) == Column(g, c)
  {
  }

  /** A board whose every column is filled carries no flag. */
  lemma FilledBoardClear(o: Grid, g: Grid)
    requires IsGrid(o) && IsGrid(g)
    requires forall c :: 0 <= c < Size ==> ColumnFilled(Column(o, c), Column(g, c))
    ensures NoneFlagged(g)
  {
    forall r, c | 0 <= r < Size && 0 <= c < Size
      ensures !g[r][c].isMatched
    {
      assert Column(g, c)[r] == g[r][c];
    }
  }
}
