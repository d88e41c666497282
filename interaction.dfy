/** The client as the player drives it: every change to the game state goes
    through one of the component handlers, which dispatch reducer actions.
    Cell selection only happens through the grid's click guard, digits only
    through the picker's guard, and the page itself only loads boards (with
    the board as its own original), switches flags and resets. Under that
    discipline the state stays consistent. */
module Interaction {
  import opened Types
  import opened SudokuRules
  import opened GameContext
  import opened DigitPopover
  import opened SudokuBoard

  datatype UiEvent =
    | CellClicked(row: int, col: int)
    | DigitClicked(row: int, col: int, number: int, offered: seq<int>)
    | ClearClicked(row: int, col: int)
    | PageAction(action: Action)

  /** The actions the page dispatches directly: loading a fetched board as
      both the board and its original, and the flag and reset actions.
      Selection and cell edits are left to the components' guards.
      SET_COMPLETION has an action creator but no handler dispatches it; it
      is admitted here anyway, so the invariant below also covers completed
      games. */
  ghost predicate PageDispatches(a: Action)
  {
    match a
    case SetBoard(b, o) => IsGrid(b) && b == o
    case SetSelectedCell(_) => false
    case SetCellValue(_, _, _) => false
    case ClearCell(_, _) => false
    case SetCompletion(_) => true
    case _ => true
  }

  ghost predicate EventOk(e: UiEvent)
  {
    match e
    case CellClicked(row, col) => InGrid(row, col)
    case DigitClicked(row, col, _, _) => InGrid(row, col)
    case ClearClicked(row, col) => InGrid(row, col)
    case PageAction(a) => PageDispatches(a)
  }

  /** Runs the reducer when a handler dispatched something. */
  function Dispatch(s: GameState, d: Option<Action>): (s': GameState)
    requires WellFormed(s) && (d.Some? ==> Admissible(d.value))
    ensures WellFormed(s')
    ensures d.None? ==> s' == s
  {
    if d.Some? then Apply(s, d.value) else s
  }

  /** One event. A digit click carries the list the picker offered: the
      local candidate list of the current board outside hint mode (and when
      the hint request fails), the remote hint service's answer in hint mode.
      The model does not constrain that answer. */
  ghost function Step(s: GameState, e: UiEvent): (s': GameState)
    requires WellFormed(s) && EventOk(e)
    ensures WellFormed(s')
  {
    match e
    case CellClicked(row, col) => Dispatch(s, HandleCellClick(s, row, col))
    case DigitClicked(row, col, number, offered) =>
      Dispatch(s, HandleNumberClick(offered, row, col, number))
    case ClearClicked(row, col) => Apply(s, HandleClear(row, col))
    case PageAction(a) => Apply(s, a)
  }

  ghost function Run(s: GameState, es: seq<UiEvent>): GameState
    requires WellFormed(s)
    requires forall k | 0 <= k < |es| :: EventOk(es[k])
    decreases |es|
  {
    if es == [] then s else Run(Step(s, es[0]), es[1..])
  }

  /** The reachable-state invariant: a cell is editable exactly when the
      original board leaves it empty, the givens are intact, the move counter is not
      negative, and a selected cell is always an editable cell of the grid. */
  ghost predicate Consistent(s: GameState)
  {
    WellFormed(s) &&
    (forall r, c | InGrid(r, c) :: s.mutableCells[r][c] <==> s.originalBoard[r][c] == 0) &&
    GivensIntact(s) &&
    s.moveCount >= 0 &&
    (s.selectedCell.Some? ==>
       InGrid(s.selectedCell.value.row, s.selectedCell.value.col) &&
       s.mutableCells[s.selectedCell.value.row][s.selectedCell.value.col])
  }

  lemma InitialConsistent()
    ensures Consistent(InitialState())
  {
  }

  /** A dispatched action keeps the state consistent when it selects only
      editable cells and loads a board only as its own original. */
  lemma ActionConsistent(s: GameState, a: Action)
    requires Consistent(s) && Admissible(a)
    requires a.SetSelectedCell? && a.cell.Some? ==>
               InGrid(a.cell.value.row, a.cell.value.col) && s.mutableCells[a.cell.value.row][a.cell.value.col]
    requires a.SetBoard? ==> a.board == a.originalBoard
    ensures Consistent(Apply(s, a))
  {
    if a.SetBoard? {
      SetBoardGivens(s, a.board, a.originalBoard);
    } else {
      ActionKeepsGivens(s, a);
    }
  }

  /** Every event keeps the state consistent. */
  lemma StepConsistent(s: GameState, e: UiEvent)
    requires Consistent(s) && EventOk(e)
    ensures Consistent(Step(s, e))
  {
    match e
    case CellClicked(row, col) =>
      var d := HandleCellClick(s, row, col);
      if d.Some? {
        ActionConsistent(s, d.value);
      }
    case DigitClicked(row, col, number, offered) =>
      var d := HandleNumberClick(offered, row, col, number);
      if d.Some? {
        ActionConsistent(s, d.value);
      }
    case ClearClicked(row, col) =>
      ActionConsistent(s, HandleClear(row, col));
    case PageAction(a) =>
      ActionConsistent(s, a);
  }

  /** Hence so does every run of events from a consistent state, in
      particular from the initial state. */
  lemma {:induction false} RunConsistent(s: GameState, es: seq<UiEvent>)
    requires Consistent(s)
    requires forall k | 0 <= k < |es| :: EventOk(es[k])
    ensures Consistent(Run(s, es))
    decreases |es|
  {
    if es != [] {
      StepConsistent(s, es[0]);
      assert forall k | 0 <= k < |es[1..]| :: es[1..][k] == es[k + 1];
      RunConsistent(Step(s, es[0]), es[1..]);
    }
  }

  /** Whatever list the picker offered, a digit click writes the clicked
      number into the cell exactly when the number is offered and the cell is
      editable, and touches no other cell; otherwise the state is unchanged. */
  lemma DigitClickEffect(s: GameState, row: int, col: int, number: int, offered: seq<int>)
    requires WellFormed(s) && InGrid(row, col)
    ensures var s' := Step(s, DigitClicked(row, col, number, offered));
      (number in offered && s.mutableCells[row][col] ==>
         s'.board[row][col] == number && s'.moveCount == s.moveCount + 1 &&
         forall i, j | InGrid(i, j) && (i != row || j != col) :: s'.board[i][j] == s.board[i][j]) &&
      (number !in offered || !s.mutableCells[row][col] ==> s' == s)
  {
    if number in offered && s.mutableCells[row][col] {
      SetCellValueEffect(s, row, col, number);
    }
  }

  /** When the picker offers the local candidate list of the current board,
      an offered digit is placed into an editable cell, and in a reachable
      state a digit click either leaves the board alone or writes a digit of
      1..9 into an editable cell, where no peer holds it. */
  lemma DigitClickSafe(s: GameState, row: int, col: int, number: int, offered: seq<int>)
    requires Consistent(s) && InGrid(row, col)
    requires offered == ValidDigits(s.board, row, col)
    ensures var s' := Step(s, DigitClicked(row, col, number, offered));
      (number in offered && s.mutableCells[row][col] ==> s'.board[row][col] == number) &&
      (s'.board == s.board ||
       (1 <= number <= 9 && s.mutableCells[row][col] && s'.board[row][col] == number &&
        forall i, j | Peer(row, col, i, j) :: s'.board[i][j] == s.board[i][j] != number))
  {
    DigitClickEffect(s, row, col, number, offered);
    var d := HandleNumberClick(offered, row, col, number);
    if d.Some? {
      PlacedDigitNeverClashes(s, row, col, number);
    }
  }

  /** Once the game is marked completed, clicks on the grid change nothing. */
  lemma CompletedIgnoresCellClicks(s: GameState, row: int, col: int)
    requires WellFormed(s) && InGrid(row, col) && s.isCompleted
    ensures Step(s, CellClicked(row, col)) == s
  {
  }
}
