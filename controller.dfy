/**
 * The controller: the two-click selection that turns clicks into swaps, and
 * the hint button gated by the model's hint budget. Calls the controller makes
 * on the view are recorded as a sequence of view events.
 */
module Control {
  import opened Wrappers
  import opened Boards
  import opened Matching
  import opened Solvability
  import opened Game

  /** A call the controller makes on the view. */
  datatype ViewEvent = Select(coord: Coord) | Deselect(coord: Coord) | PlayErrorSound

  /** The rune the player has selected, if any. */
  datatype Selection = Nothing | Selected(coord: Coord)

  /**
   * What one click does before the model answers: the new selection, the
   * selected coordinate to swap with (if the click asks for a swap), and the
   * view calls made.
   */
  datatype ClickStep = ClickStep(next: Selection, swapWith: Option<Coord>, events: seq<ViewEvent>)

  /** `coordsAreAdjacent`: same row and columns one apart, or same column and rows one apart. */
  predicate CoordsAreAdjacent(coordA: Coord, coordB: Coord) {
    if coordA.row == coordB.row then
      coordA.col == coordB.col + 1 || coordA.col == coordB.col - 1
    else if coordA.col == coordB.col then
      coordA.row == coordB.row + 1 || coordA.row == coordB.row - 1
    else
      false
  }

  /** Adjacency is exactly the neighbour relation the board's swaps use, so it is symmetric and irreflexive. */
  lemma AdjacentIffNeighbours(coordA: Coord, coordB: Coord)
    ensures CoordsAreAdjacent(coordA, coordB) <==> Neighbours(coordA, coordB)
    ensures CoordsAreAdjacent(coordA, coordB) <==> CoordsAreAdjacent(coordB, coordA)
    ensures !CoordsAreAdjacent(coordA, coordA)
  {
  }

  /** The selection state machine of `runeClick`. */
  function ClickOutcome(selection: Selection, coord: Coord): (step: ClickStep)
  {
    match selection
    case Nothing => ClickStep(Selected(coord), None, [Select(coord)])
    case Selected(selected) =>
      if CoordsAreAdjacent(coord, selected) then ClickStep(Nothing, Some(selected), [Deselect(selected)])
      else if coord == selected then ClickStep(Nothing, None, [Deselect(selected)])
      else ClickStep(Selected(coord), None, [Deselect(selected), Select(coord)])
  }

  /**
   * A click asks for a swap exactly when a rune is selected and the click is
   * next to it; the swap is with that rune and leaves nothing selected.
   * Otherwise the click leaves the clicked rune selected, unless it was the
   * selected one, which it deselects.
   */
  lemma ClickSwapsOnlyNeighbours(selection: Selection, coord: Coord)
    ensures var step := ClickOutcome(selection, coord);
            && (step.swapWith.Some? <==> selection.Selected? && Neighbours(coord, selection.coord))
            && (step.swapWith.Some? ==> step.swapWith.value == selection.coord && step.next == Nothing)
            && (step.swapWith.None? ==>
                  step.next == if selection == Selected(coord) then Nothing else Selected(coord))
  {
    AdjacentIffNeighbours(coord, coord);
    if selection.Selected? {
      AdjacentIffNeighbours(coord, selection.coord);
    }
  }

  /** Clicking the same rune twice from nothing selected selects and deselects it, with no swap. */
  lemma ClickTwiceDeselects(coord: Coord)
    ensures ClickOutcome(Nothing, coord).next == Selected(coord)
    ensures ClickOutcome(ClickOutcome(Nothing, coord).next, coord) == ClickStep(Nothing, None, [Deselect(coord)])
  {
    AdjacentIffNeighbours(coord, coord);
  }

  class Controller {
    const gameboardModel: GameboardModel
    var runeIsSelected: bool
    var selectedRuneCoord: Coord
    var viewEvents: seq<ViewEvent>
    /** How many rounds of clearing and reshuffling the model may take per swap. */
    const fuel: nat

    /** `newGame`: a fresh model, nothing selected, the stored coordinate (0, 0). */
    constructor(stream: nat -> nat, fuel: nat)
      ensures Valid() && fresh(gameboardModel) && fresh(gameboardModel.board) && fresh(gameboardModel.rng)
      ensures !runeIsSelected && selectedRuneCoord == Coord(0, 0) && viewEvents == []
      ensures gameboardModel.hintsRemaining == 3 && gameboardModel.score == 0
    {
      gameboardModel := new GameboardModel(stream, fuel);
      this.fuel := fuel;
      selectedRuneCoord := Coord(0, 0);
      runeIsSelected := false;
      viewEvents := [];
    }

    /** The model is well formed, the selection is on the board, and the hint budget is not negative. */
    ghost predicate Valid()
      reads this, gameboardModel, gameboardModel.board
    {
      && gameboardModel.Shape()
      && NoneFlagged(gameboardModel.Cells())
      && (runeIsSelected ==> InRange(selectedRuneCoord))
      && gameboardModel.hintsRemaining >= 0
    }

    /** The selection as a value. */
    function Selection(): Selection
      reads this
    {
      if runeIsSelected then Selected(selectedRuneCoord) else Nothing
    }

    /**
     * `runeClick`: advance the selection; when the click is next to the
     * selected rune, ask the model to swap the two (clicked rune first) and
     * play the error sound if the swap makes no run.
     */
    method RuneClick(coord: Coord)
      requires Valid() && InRange(coord)
      modifies this, gameboardModel, gameboardModel.board, gameboardModel.rng
      ensures Valid()
      ensures Selection() == ClickOutcome(old(Selection()), coord).next
      ensures var step := ClickOutcome(old(Selection()), coord);
              step.swapWith.None? ==>
                && viewEvents == old(viewEvents) + step.events
                && gameboardModel.Cells() == old(gameboardModel.Cells())
                && gameboardModel.score == old(gameboardModel.score)
      ensures var step := ClickOutcome(old(Selection()), coord);
              step.swapWith.Some? ==>
                var matched := ContainsMatch(Swapped(old(gameboardModel.Cells()), coord, step.swapWith.value));
                && viewEvents == old(viewEvents) + step.events + (if matched then [] else [PlayErrorSound])
                && (!matched ==> gameboardModel.Cells() == old(gameboardModel.Cells()))
                && (matched ==> gameboardModel.score > old(gameboardModel.score) || fuel == 0)
      ensures gameboardModel.hintsRemaining == old(gameboardModel.hintsRemaining)
    {
      if runeIsSelected {
        if CoordsAreAdjacent(coord, selectedRuneCoord) {
          viewEvents := viewEvents + [Deselect(selectedRuneCoord)];
          runeIsSelected := false;
          var swapResultsInMatch, _ := gameboardModel.HandleSwap(coord, selectedRuneCoord, fuel);
          if !swapResultsInMatch {
            viewEvents := viewEvents + [PlayErrorSound];
          }
        } else if coord.row == selectedRuneCoord.row && coord.col == selectedRuneCoord.col {
          viewEvents := viewEvents + [Deselect(selectedRuneCoord)];
          runeIsSelected := false;
        } else {
          viewEvents := viewEvents + [Deselect(selectedRuneCoord)];
          selectedRuneCoord := coord;
          viewEvents := viewEvents + [Select(selectedRuneCoord)];
        }
      } else {
        runeIsSelected := true;
        selectedRuneCoord := coord;
        viewEvents := viewEvents + [Select(selectedRuneCoord)];
      }
    }

    /**
     * `hint`: nothing when no hints remain, the model untouched; otherwise the
     * model's possible move, using up one hint.
     */
    method Hint() returns (hint: Option<SwapPair>)
      requires Valid()
      modifies gameboardModel, gameboardModel.board
      ensures Valid()
      ensures gameboardModel.Cells() == old(gameboardModel.Cells())
      ensures old(gameboardModel.hintsRemaining) == 0 ==>
                hint == None && gameboardModel.hintsRemaining == 0
      ensures old(gameboardModel.hintsRemaining) > 0 ==>
                hint == Some(PossibleMatch(gameboardModel.Cells()))
                && gameboardModel.hintsRemaining == old(gameboardModel.hintsRemaining) - 1
      ensures gameboardModel.score == old(gameboardModel.score)
    {
      if gameboardModel.hintsRemaining > 0 {
        var swapHints := gameboardModel.GetHintCoords();
        return Some(swapHints);
      }
      return None;
    }
  }

  /** A new game grants three hints: the first three requests give a move (or NoSwap), the fourth gives nothing. */
  method HintBudget(stream: nat -> nat, fuel: nat) returns (hints: seq<Option<SwapPair>>)
    ensures |hints| == 4
    ensures hints[0].Some? && hints[1].Some? && hints[2].Some? && hints[3] == None
  {
    var controller := new Controller(stream, fuel);
    var first := controller.Hint();
    var second := controller.Hint();
    var third := controller.Hint();
    var fourth := controller.Hint();
    hints := [first, second, third, fourth];
  }
}
