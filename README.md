# Warlock board engine in Dafny

Warlock is a match-3 game. An 8 x 8 board holds runes of seven types. The
player swaps two neighbouring runes. A swap that lines up three or more runes
of one type in a row or column is kept; any other swap is undone. The kept
swap then sets off a cascade:

- every rune in a run is flagged and scored;
- the survivors fall;
- fresh runes fill the top;
- the board is scanned again, until no run is left.

If the settled board then offers no move, it is reshuffled until it does. A
hint reveals a move, up to three per game. At the end, the score is inserted
into a five-entry high-score table kept on one line of a text file.

This project models that engine (`GameboardModel`), the rune value
(`Rune`) and the controller's click handling and hint gating (`Controller`),
and proves what each promises.

Modules:

- `Runes`: the seven rune types and the rune value `Rune(kind, isMatched)`.
  Also the copy constructor, which does not copy the flag, and `setIsMatched`,
  which always sets the flag.
- `Boards`: the board as a value (`Grid`), plus swapping, deep-copy snapshots
  and the flattening that `shuffleBoard` uses.
- `Matching`: what the match scan reports, defined by runs of three. It
  proves that the scan reports every cell of a run (once per direction) and
  nothing else, that it reports them in order, and that it is empty exactly
  when the board holds no run.
- `Gravity`: what `fillInRunes` does to one column. The survivors keep their
  order and land at the bottom, fresh runes fill the top, and nothing is left
  flagged.
- `Scoring`: flagging, the reward table, and the high-score insertion.
- `Solvability`: which swaps make a run, and the swap `getPossibleMatch`
  reports.
- `ScoreFile`: the score file's text format. It covers `"" + n`,
  `String.split(" ")` and `Integer.parseInt`, including the exceptions the
  reader lets escape.
- `Game`: class `GameboardModel`. It keeps the board in an `array2<Rune>` that
  its methods update in place. Each method is proved against the functions of
  the modules above.
- `Control`: class `Controller`, covering the selection state, `runeClick`
  and `hint`.

Randomness is a parameter. `RandomSource` holds a stream of draws, and every
`new Random().nextInt(b)` of the source takes the next draw modulo `b`. The
cascade and reshuffle loops of the source need not terminate. Each loop here
takes a `fuel` bound and reports whether it `settled`; the guarantees the
source's loops give on exit hold whenever `settled` is true.

The model follows what the code does, also where that differs from what its
comments and names suggest:

- `getPossibleMatch` does not stop at the first matching swap, although the
  comment at GameboardModel.java:502 says it stops after one match. Its `break`
  leaves only the column loop, so the answer is the first candidate of the
  last row that has one (`Solvability.PossibleMatchLastRow`). It is still a
  valid move, and "no move" is still reported exactly when none exists.
- `recordScore` reports a new high score when the score equals the first
  entry of the updated table. A score that ties the old top entry is
  inserted below that entry, which keeps the top place, and yet it is
  reported as a high score. For example, inserting 100 into the table
  100 50 40 30 20 gives 100 100 50 40 30, and the answer is "high score".
- Every call of `moveRuneFromAbove` makes one `new Rune()`. That rune is
  either the fresh rune for the top, or a flagged placeholder left where the
  falling rune was. So the fill of a column draws one rune per row from its
  lowest flagged row up (`Gravity.FillDraws`), which can be more than the
  number of flagged runes. The placeholders are all filled again later in
  the same fill.
- Reading the score file is fatal in three cases: an empty file
  (`NullPointerException`), a piece that is not a decimal int
  (`NumberFormatException`), or more than five pieces
  (`ArrayIndexOutOfBoundsException`). Only a missing file or a failing read
  gives five zeros.

## Model

| member | source | states |
|---|---|---|
| Runes.TypeName | Rune.java:13-18 | every rune's type name is one of the seven palette names |
| Runes.TypeAt | Rune.java:28 | the type drawn at palette index i has the i-th palette name |
| Runes.TypeNameInjective | Rune.java:58-60 | two runes have equal type names exactly when they have equal types, so comparing names is comparing types |
| Runes.PaletteCoversTypes | Rune.java:13 | every palette name is the name of some rune type |
| Runes.NewRune | Rune.java:26-28 | a new rune takes the palette entry at the draw modulo 7 and starts unmatched |
| Runes.CopyRune | Rune.java:37-40 | the copy keeps the type name and starts unmatched, since the flag is not copied |
| Runes.SetIsMatched | Rune.java:46 | the flag becomes true whatever the argument, and the type is kept |
| Runes.FlagNeverCleared | Rune.java:46-52 | once set the flag stays set; setting it twice is setting it once |
| Boards.SwappedCells | GameboardModel.java:260-264 | a swap exchanges the two cells and leaves every other cell alone |
| Boards.SwapTwiceRestores | GameboardModel.java:99-105 | swapping the same two cells again restores the board, which is how a failed swap is undone |
| Boards.SwapSymmetric | GameboardModel.java:260-264 | swapping a with b is swapping b with a |
| Boards.SnapshotFaithful | GameboardModel.java:614-624 | a deep copy keeps every cell's type, carries no flag, and copying a copy changes nothing |
| Boards.FlattenAt | GameboardModel.java:296-300 | cell (r, c) lands at index r * 8 + c of the laid-out array |
| Matching.MaximalRunMembers | GameboardModel.java:455-469 | the cells of a maximal stretch of equal types are in a run exactly when the stretch has three or more |
| Matching.RunCellsCount | GameboardModel.java:455-469 | each cell of a line is reported once when it lies in a run and otherwise not at all |
| Matching.RunCellsAcross | GameboardModel.java:459-468 | passing a maximal stretch adds all its cells when it is three or longer, none otherwise |
| Matching.RunCellsIncreasing | GameboardModel.java:480-490 | the run cells of a line are listed in increasing position |
| Matching.MatchListCount | GameboardModel.java:386-394 | the scan reports exactly the cells in runs: once per horizontal and once per vertical run, so a cell in both is reported twice |
| Matching.MatchListInRange | GameboardModel.java:436-446 | every reported coordinate is on the board |
| Matching.MatchListEmptyIff | GameboardModel.java:400-402 | the scan is empty exactly when the board holds no run |
| Matching.HorizontalMatchesOrdered | GameboardModel.java:453-471 | the horizontal pass lists its cells in strictly increasing row-major order |
| Matching.VerticalMatchesOrdered | GameboardModel.java:409-427 | the vertical pass lists its cells in strictly increasing column-major order |
| Matching.MatchListOrder | GameboardModel.java:386-394 | the stack holds the horizontal-run cells first, row by row and each run first cell to last, then the vertical-run cells column by column |
| Matching.SameKindsSameMatches | GameboardModel.java:416 | the scan looks only at types: boards with the same types give the same report |
| Gravity.SurvivorsCount | GameboardModel.java:334-342 | every rune of a column either survives or is flagged |
| Gravity.SurvivorsAreUnflagged | GameboardModel.java:337 | survivors carry no flag |
| Gravity.FilledConservesTiles | GameboardModel.java:334-366 | after the fill the column is one fresh rune per flagged rune, then the survivors in their old order; each fresh rune is unflagged and is the new rune of one of the draws the fill made |
| Gravity.FillDraws | GameboardModel.java:334-366 | the fill of a column draws one new rune per row from its lowest flagged row up: below that row nothing is flagged, and that row is flagged |
| Gravity.FillDrawsCoverFlagged | GameboardModel.java:349-366 | the fill draws at least one rune per flagged rune, and draws none exactly when nothing is flagged |
| Gravity.FillStepPull | GameboardModel.java:349-366 | filling a flagged row from above with the new rune of draw d keeps the column on its way to the fill, its fresh runes all made from the draws, and counts one more draw |
| Gravity.FillStepDone | GameboardModel.java:335-341 | once every row is done, the column is the fill of the old column, its fresh runes made from the draws, with exactly `FillDraws` draws made |
| Gravity.FilledKeepsBottom | GameboardModel.java:334-342 | rows below the lowest flagged rune do not change |
| Gravity.LastUnflaggedBefore | GameboardModel.java:350-353 | the search upward stops at the nearest unflagged rune, or at -1 when every rune above is flagged |
| Gravity.ProgressPull | GameboardModel.java:349-366 | filling the next flagged cell from above keeps the column on its way to the filled column |
| Scoring.MarkedExactlyRuns | GameboardModel.java:372-380 | flagging the scan's report on an unflagged board flags exactly the cells in runs and changes no type |
| Scoring.RewardTable | GameboardModel.java:282-288 | three flagged runes earn 30, four earn 50, five 100, six 120, and n from five on earn 20n |
| Scoring.RewardMonotone | GameboardModel.java:282-288 | from three on, more flagged runes never earn less, and never less than 30 |
| Scoring.RewardNonNegative | GameboardModel.java:282-288 | no count lowers the score |
| Scoring.MarkedRunScores | GameboardModel.java:224-228 | a round that flags a run flags at least three runes and so earns at least 30 |
| Scoring.InsertScoreAt | GameboardModel.java:572-583 | with t the first entry the new score strictly beats, the table becomes the entries before t, the new score, then the old entries from t less the last |
| Scoring.InsertScoreUnchanged | GameboardModel.java:572-584 | the table is unchanged exactly when the new score beats no entry |
| Scoring.InsertScoreDescending | GameboardModel.java:570-587 | a descending table stays descending, and the new score enters it when it beats some entry |
| Scoring.InsertScoreBounded | GameboardModel.java:576-580 | every entry of the new table is an old entry or the new score |
| Scoring.InsertScoreTop | GameboardModel.java:154 | the new score heads the new table exactly when it ties or beats the old top entry |
| Scoring.UpdateHighScores | GameboardModel.java:570-587 | the array, shifted in place, ends up as the insertion of the new score into the old table |
| Solvability.FirstSwapInRowNone | GameboardModel.java:504-528 | a row reports nothing exactly when none of its left or upward swaps makes a run |
| Solvability.FirstSwapInRowSound | GameboardModel.java:504-528 | what a row reports is a pair of neighbours on the board whose swap makes a run |
| Solvability.PossibleMatchBeforeNone | GameboardModel.java:503-529 | after some rows the answer is empty exactly when none of them has a matching swap |
| Solvability.PossibleMatchBeforeSound | GameboardModel.java:503-529 | a non-empty answer is a matching swap from one of the rows scanned |
| Solvability.PossibleMatchBeforeLastRow | GameboardModel.java:503-529 | the answer is the first candidate of the last row that has one |
| Solvability.PossibleMatchSound | GameboardModel.java:497-531 | a reported swap is two neighbouring cells of the board whose swap leaves a run |
| Solvability.PossibleMatchLastRow | GameboardModel.java:503-529 | because `break` leaves only the column loop, the last row with a candidate decides the answer |
| Solvability.MakesMatchSymmetric | GameboardModel.java:505-527 | whether a swap makes a run does not depend on the order of its two cells |
| Solvability.NeighbourSwapIsScanned | GameboardModel.java:505-527 | every matching swap of neighbours is tried, as the left or upward swap of its later cell |
| Solvability.MoveIffSomeSwapMatches | GameboardModel.java:538-540 | the scan finds a swap exactly when some swap of two neighbouring cells makes a run |
| Game.RandomSource.NextInt | GameboardModel.java:323 | `nextInt(bound)` takes the next draw of the stream reduced below `bound` and advances the stream by one |
| Game.DrawRune | Rune.java:26-28 | `new Rune()` takes the next draw and gives the matching palette type, unmatched |
| Game.RandomBoard | GameboardModel.java:194-201 | a fresh 8 x 8 board whose cell (r, c) holds draw r * 8 + c |
| Game.DrawRow | GameboardModel.java:197-200 | one row takes the next eight draws, left to right, and no other row changes |
| Game.RecordHorizontalMatch | GameboardModel.java:480-490 | a stretch of three or more ending before `col` pushes its cells left to right; a shorter one pushes nothing |
| Game.RecordVerticalMatch | GameboardModel.java:436-446 | a stretch of three or more ending above `row` pushes its cells top to bottom; a shorter one pushes nothing |
| Game.StretchEnd | GameboardModel.java:459-468 | ending a stretch adds its cells to the run cells when it is three or longer |
| Game.StagesGrow | GameboardModel.java:219-234 | a scored round on the last recorded board, whose after-board is the flagged board refilled from the next draws, extends the animation by its runs and two boards, its draws by that fill's and its points by the reward for the flagged runes |
| Game.StagesExtend | GameboardModel.java:219-234 | appending a round that starts from the last recorded board and uses the draws after the earlier rounds' keeps every earlier round as it was |
| Game.RoundAtKept | GameboardModel.java:219-234 | round i of the animation stays round i, with the same boards, runs and draws, when later rounds are appended |
| Game.StagesSumsKept | GameboardModel.java:224-234 | the draws and points of the first n rounds do not depend on later rounds |
| Game.AccountedGrow | GameboardModel.java:217-234 | one scored round keeps the animation accounting for every draw and point since the start, at least 30 points a round, ending with the current board |
| Game.ShuffleKeepsNoneFlagged | GameboardModel.java:294-309 | shuffling a board with no flagged rune leaves none flagged |
| Game.SwapBack | GameboardModel.java:506-508 | the scan of the swapped board finds a run exactly when the swap makes one, and swapping back restores the board |
| Game.ShuffleArray | GameboardModel.java:317-328 | the Fisher-Yates loop only permutes the array: its multiset of runes is unchanged |
| Game.FilledBoardClear | GameboardModel.java:334-342 | once every column is filled, no rune is flagged |
| Game.GameboardModel.constructor | GameboardModel.java:33-45 | score 0, three hints, not shuffled; once set-up settles, the board has no run, a move exists, and only the final board is recorded |
| Game.GameboardModel.SwapRunes | GameboardModel.java:260-264 | the board becomes the swap of its old contents |
| Game.GameboardModel.SwapWithAdjacentLeft | GameboardModel.java:547-551 | the rune trades places with its left neighbour |
| Game.GameboardModel.SwapWithAdjacentAbove | GameboardModel.java:558-562 | the rune trades places with the rune above it |
| Game.GameboardModel.FindHorizontalMatches | GameboardModel.java:453-471 | pushes exactly the horizontal-run cells, in row-major order |
| Game.GameboardModel.ScanRow | GameboardModel.java:455-469 | one row pushes exactly its run cells, left to right |
| Game.GameboardModel.FindVerticalMatches | GameboardModel.java:409-427 | pushes exactly the vertical-run cells, in column-major order |
| Game.GameboardModel.ScanColumn | GameboardModel.java:411-425 | one column pushes exactly its run cells, top to bottom |
| Game.GameboardModel.GetMatchedRunes | GameboardModel.java:386-394 | the stack is the scan's report for the board |
| Game.GameboardModel.HasMatch | GameboardModel.java:400-402 | true exactly when the board holds a run |
| Game.GameboardModel.SetRunesToMatched | GameboardModel.java:372-380 | every listed cell is flagged and every other cell is as before |
| Game.GameboardModel.ScoreMatches | GameboardModel.java:269-289 | the score grows by the reward for the number of flagged runes on the board |
| Game.GameboardModel.MoveRuneFromAbove | GameboardModel.java:349-366 | the column becomes the pull-down of the nearest unflagged rune above, leaving a flagged new rune behind, or a new rune when none is above; other columns are untouched |
| Game.GameboardModel.FillInRunes | GameboardModel.java:334-342 | every column ends as the fill of its old contents: the survivors at the bottom in order, above them new runes made from the draws of this call; the call makes exactly `FillDraws` draws per column; no rune is left flagged |
| Game.GameboardModel.FillRow | GameboardModel.java:336-340 | one pass over a row leaves that row done in every column and makes one draw for each flagged cell met |
| Game.RowProgressPull | GameboardModel.java:337-339 | filling one flagged cell from draw d finishes that cell's row in its column, leaves the other columns alone, and makes one draw |
| Game.RowProgressDone | GameboardModel.java:334-342 | when every row is done, every column is filled from the draws made, nothing is flagged, and the draws made are the sum of `FillDraws` over the columns |
| Game.GameboardModel.DeepCopyOfBoard | GameboardModel.java:614-624 | the copy is the board's snapshot |
| Game.GameboardModel.DeepCopyOfMatches | GameboardModel.java:631-640 | the copy holds the same coordinates in the same order |
| Game.GameboardModel.ShuffleBoard | GameboardModel.java:294-309 | the runes on the board are permuted: the multiset of runes is unchanged |
| Game.GameboardModel.LayOutRunes | GameboardModel.java:295-300 | the fresh array is the board flattened row by row |
| Game.GameboardModel.PutBackRunes | GameboardModel.java:304-308 | the board, flattened row by row, is the array |
| Game.GameboardModel.GetPossibleMatch | GameboardModel.java:497-531 | the board is unchanged and the answer is the scan's swap |
| Game.GameboardModel.FirstSwapOfRow | GameboardModel.java:504-528 | the board is unchanged and the answer is the first matching swap of the row |
| Game.GameboardModel.TryLeftSwap | GameboardModel.java:505-515 | the board is unchanged; true exactly when the swap with the left neighbour makes a run |
| Game.GameboardModel.TryUpSwap | GameboardModel.java:517-527 | the board is unchanged; true exactly when the swap with the rune above makes a run |
| Game.GameboardModel.HasNoPossibleMatches | GameboardModel.java:538-540 | the board is unchanged; true exactly when the player has no move |
| Game.GameboardModel.RemoveMatches | GameboardModel.java:213-240 | settled exactly when no run is left; with no run at the start nothing changes. When scoring, the recorded rounds chain from the start board to the current one: each round's runs are those of its first board, its second board is the first with the runs flagged and refilled from that round's draws, the draws made and points earned are the rounds' sums, at least 30 points a round, and the first round's runs are the start board's. Without scoring only the final board is recorded and the score is untouched |
| Game.GameboardModel.ClearRecordedRound | GameboardModel.java:217-234 | one pass of the loop; when scoring it keeps the recorded rounds accounting for every draw and point |
| Game.GameboardModel.ClearRound | GameboardModel.java:217-235 | one round flags exactly the runs and fills every column of the flagged board from the draws of this call, exactly `FillDraws` per column; when scoring it records the runs and the boards before and after, and adds exactly the reward for the flagged runes |
| Game.GameboardModel.FlagRuns | GameboardModel.java:218-228 | the board becomes the old board with its runs flagged; when scoring, the runs and the old board are recorded and exactly the reward for the flagged runes is added, at least 30 |
| Game.GameboardModel.RecordStage | GameboardModel.java:219-222 | appends a snapshot of the board and the runs found to the recorded animation |
| Game.GameboardModel.RecordBoard | GameboardModel.java:233 | appends a snapshot of the board |
| Game.GameboardModel.EnsurePossibleMatch | GameboardModel.java:246-253 | justShuffled records whether the board had no move; with a move nothing changes; once settled a move exists, and after a shuffle no run is left and only the final board is recorded |
| Game.GameboardModel.HandleSwap | GameboardModel.java:98-117 | true exactly when the swapped board holds a run; otherwise the board and everything else is as before; a kept swap scores at least 30 and, once settled, leaves no run and a move; with no reshuffle the recorded rounds start from the swapped board's runs, chain to the current board and account for every draw and point; after a reshuffle only the final board is recorded |
| Game.GameboardModel.SettleBoard | GameboardModel.java:100-113 | a board with a run is cleared with scoring, then given a move; with no reshuffle the recorded rounds start with that board's runs, chain to the current board and account for every draw and point; a shuffle replaces them with the shuffled board alone |
| Game.GameboardModel.RestartStages | GameboardModel.java:108-111 | the recorded animation becomes the current board alone |
| Game.GameboardModel.RecordScore | GameboardModel.java:137-155 | a crash of the reader propagates; otherwise the file receives the table with the score inserted, and the answer is whether the score ties or beats the old top entry |
| Game.GameboardModel.GetHintCoords | GameboardModel.java:127-131 | the board is unchanged, the answer is the scan's swap, and a hint is used up while any remain, never going below zero |
| ScoreFile.DigitsValue | GameboardModel.java:599 | the digits of n read back as n |
| ScoreFile.ScoreText | GameboardModel.java:144 | the text of a score is non-empty and holds no space |
| ScoreFile.ParseInt | GameboardModel.java:599 | a parsed value lies in int range |
| ScoreFile.ParseScoreText | GameboardModel.java:599 | parsing the text of any int gives it back |
| ScoreFile.DropTrailingEmpty | GameboardModel.java:597 | the split keeps a prefix of the pieces that does not end in an empty piece, and every piece it drops is empty |
| ScoreFile.PiecesOfScoreLine | GameboardModel.java:597 | the pieces of a written line are the rendered scores |
| ScoreFile.SplitScoreLine | GameboardModel.java:597 | splitting a written line gives back the rendered scores |
| ScoreFile.ScoreLineAppend | GameboardModel.java:143-148 | writing one more score adds a space and its text |
| ScoreFile.StoreScores | GameboardModel.java:598-600 | a successful read keeps the table's length |
| ScoreFile.ReadScores | GameboardModel.java:593-608 | a successful read gives five scores |
| ScoreFile.StoreRenderedScores | GameboardModel.java:598-600 | storing the rendered scores over a table gives the scores |
| ScoreFile.ReadWrittenScores | GameboardModel.java:593-608 | five int scores as written are read back unchanged |
| ScoreFile.ReadHighScoresFromFile | GameboardModel.java:593-608 | the array loop gives what the reading function says, crashes included |
| ScoreFile.WriteScores | GameboardModel.java:143-148 | the written text is the scores separated by single spaces |
| Control.AdjacentIffNeighbours | Controller.java:185-197 | adjacency holds exactly for cells one step apart in a row or column; it is symmetric and false for equal coordinates |
| Control.ClickSwapsOnlyNeighbours | Controller.java:81-106 | a click asks for a swap exactly when a rune is selected and the click is next to it, then with that rune and leaving nothing selected; otherwise the clicked rune ends selected unless it was the selected one |
| Control.ClickTwiceDeselects | Controller.java:93-104 | a first click selects, a second click on the same rune deselects with no swap |
| Control.Controller.constructor | Controller.java:145-157 | a fresh model, nothing selected, the stored coordinate (0, 0), three hints and score 0 |
| Control.Controller.RuneClick | Controller.java:81-106 | the selection follows the click state machine; with no swap the board and score stay; with a swap the error sound plays exactly when the swap makes no run, in which case the board stays |
| Control.Controller.Hint | Controller.java:126-131 | with no hints left, nothing and no change; otherwise the scan's swap and one hint fewer |
| Control.HintBudget | Controller.java:126-131 | from a new game, three hint requests give a swap and the fourth gives nothing |

## Left out

- The observers and the view: `addGameboardObserver`, `removeGameboardObserver`, the two notify methods and their calls in `handleSwap`, `View`, `TimerModel`, the music and the images. They are user interface, timers and threads.
- `Controller.start`, `stop`, `pause`, `resume`, `main`, and the delegations `recordScore` and `getHighScores`. They only call into the view, the timer or the model.
- `getHighScores` is `readHighScoresFromFile` itself (`ScoreFile.ReadHighScoresFromFile`). The accessors `getBoard`, `getScore`, `getHintsRemaining`, `getRuneAt` and `setRuneAt` are direct field and array reads and writes here.
- File access. What the first `readLine` gave is a `FileRead` parameter, and what `recordScore` writes is returned as text. An `IOException` from the writer (caught and printed by the source) is not modelled, nor is one from `close` after a successful read.
- ScoreFile.ParseInt: accepts ASCII digits only, where `Integer.parseInt` also accepts other Unicode decimal digits.
- `java.util.Random`. Each `new Random()` becomes the next draws of one supplied stream. `ShuffleArray` performs the source's exact swaps, but its contract states only that the runes are permuted.
- Game.GameboardModel.RemoveMatches: the source loops until no run is left; this loop stops after `fuel` rounds, and the exit guarantees are stated for the `settled` case.
- Game.GameboardModel.EnsurePossibleMatch: the source reshuffles until a move exists; this loop stops after `fuel` shuffles, and the exit guarantees are stated for the `settled` case.
- Game.GameboardModel.HandleSwap: inherits the fuel bound of the two loops above; the no-run and move guarantees are stated for the `settled` case, and the 30-point minimum for `fuel > 0`.
- Game.GameboardModel.SettleBoard: inherits the same fuel bound as `HandleSwap`. After a reshuffle the recorded rounds are discarded, as in the source, so the score is then only bounded below (at least 30 when `fuel > 0`), not tied to the rounds.
- Game.GameboardModel.HandleSwap: after a reshuffle the score is likewise only bounded below, because the recorded rounds it came from are discarded.
- Game.GameboardModel.constructor: `ready` records whether set-up settled within its fuel; the no-run and move guarantees are stated for that case.
- Game.GameboardModel.ScoreMatches: the counter is an unbounded integer rather than a `float`, which is exact for the at most 64 cells of the board. The score itself is unbounded and does not model 32-bit wrap-around, which would need over 26 million cleared rounds.
- Runes are values, not objects. The board never holds one rune object in two cells, since swaps, shuffles and the fill move references and every new rune is fresh, so flagging a cell's rune is updating that cell.
- The type name's `final` modifier is reflected by `Rune` being an immutable value.
