/** The game-state reducer: a total transition function over ten actions.
    Every case builds a fresh state from the old one; nothing is updated in
    place, so the reducer is a function on values here. */
module GameContext {
  import opened Types

  datatype Action =
    | SetLoading(loading: bool)
    | SetError(message: Option<string>)
    | SetBoard(board: Board, originalBoard: Board)
    | SetDifficulty(difficulty: Difficulty)
    | SetSelectedCell(cell: Option<Cell>)
    | SetCellValue(row: int, col: int, value: int)
    | ToggleHintMode
    | ClearCell(row: int, col: int)
    | SetCompletion(completed: bool)
    | ResetGame

  /** What the reducer needs of an action so that no lookup fails: boards of
      the client's 9x9 shape, and edits that name a cell of the grid. */
  ghost predicate Admissible(a: Action)
  {
    match a
    case SetBoard(b, o) => IsGrid(b) && IsGrid(o)
    case SetCellValue(row, col, _) => InGrid(row, col)
    case ClearCell(row, col) => InGrid(row, col)
    case _ => true
  }

  /** The state the provider starts from. */
  function InitialState(): (s: GameState)
    ensures WellFormed(s)
  {
    GameState(Filled(0), Filled(0), Filled(true), None, false, Easy, false, None, 0, false)
  }

  /** The mask SET_BOARD derives: a cell is editable iff the original board
      leaves it empty. */
  function MaskOf(o: Board): (m: Mask)
    requires IsGrid(o)
    ensures IsGrid(m)
    ensures forall r, c | InGrid(r, c) :: m[r][c] <==> o[r][c] == 0
  {
    seq(9, r requires 0 <= r < 9 => seq(9, c requires 0 <= c < 9 => o[r][c] == 0))
  }

  /** The board with (row, col) holding v and every other cell as before. */
  function WriteCell(b: Board, row: int, col: int, v: int): (b': Board)
    requires IsGrid(b) && InGrid(row, col)
    ensures IsGrid(b')
    ensures b'[row][col] == v
    ensures forall i, j | InGrid(i, j) && (i != row || j != col) :: b'[i][j] == b[i][j]
  {
    seq(9, i requires 0 <= i < 9 => seq(9, j requires 0 <= j < 9 => if i == row && j == col then v else b[i][j]))
  }

  function Apply(s: GameState, a: Action): (s': GameState)
    requires WellFormed(s) && Admissible(a)
    ensures WellFormed(s')
  {
    match a
    case SetLoading(loading) => s.(isLoading := loading)
    case SetError(message) => s.(error := message, isLoading := false)
    case SetBoard(b, o) =>
      s.(board := b, originalBoard := o, mutableCells := MaskOf(o), selectedCell := None,
         isLoading := false, error := None, moveCount := 0, isCompleted := false)
    case SetDifficulty(d) => s.(difficulty := d)
    case SetSelectedCell(cell) => s.(selectedCell := cell)
    case SetCellValue(row, col, value) =>
      if !s.mutableCells[row][col] then s
      else s.(board := WriteCell(s.board, row, col, value), moveCount := s.moveCount + 1)
    case ToggleHintMode => s.(isHintMode := !s.isHintMode)
    case ClearCell(row, col) =>
      if !s.mutableCells[row][col] then s
      else s.(board := WriteCell(s.board, row, col, 0), moveCount := s.moveCount + 1)
    case SetCompletion(completed) => s.(isCompleted := completed)
    case ResetGame =>
      s.(board := s.originalBoard, selectedCell := None, error := None, moveCount := 0, isCompleted := false)
  }

  /** Applies the actions in order. */
  function ApplyAll(s: GameState, acts: seq<Action>): GameState
    requires WellFormed(s)
    requires forall k | 0 <= k < |acts| :: Admissible(acts[k])
    decreases |acts|
  {
    if acts == [] then s else ApplyAll(Apply(s, acts[0]), acts[1..])
  }

  // ---------------------------------------------------------------------
  // Properties of single actions

  lemma InitialStateContents()
    ensures var s := InitialState();
      WellFormed(s) &&
      (forall r, c | InGrid(r, c) :: s.board[r][c] == 0 && s.originalBoard[r][c] == 0 && s.mutableCells[r][c]) &&
      s.selectedCell == None && s.moveCount == 0 && !s.isCompleted &&
      !s.isHintMode && s.difficulty == Easy && !s.isLoading && s.error == None
  {
  }

  /** An edit of a cell the mask marks immutable returns the state unchanged. */
  lemma ImmutableEditIsNoOp(s: GameState, a: Action)
    requires WellFormed(s) && Admissible(a)
    requires (a.SetCellValue? || a.ClearCell?) && !s.mutableCells[a.row][a.col]
    ensures Apply(s, a) == s
  {
  }

  /** SET_CELL_VALUE on an editable cell writes exactly that cell, counts one
      move, and touches no other field; in particular isCompleted stays as it
      was, whatever the board now holds. */
  lemma SetCellValueEffect(s: GameState, row: int, col: int, value: int)
    requires WellFormed(s) && InGrid(row, col) && s.mutableCells[row][col]
    ensures var s' := Apply(s, SetCellValue(row, col, value));
      s'.board[row][col] == value &&
      (forall i, j | InGrid(i, j) && (i != row || j != col) :: s'.board[i][j] == s.board[i][j]) &&
      s'.moveCount == s.moveCount + 1 &&
      s' == s.(board := s'.board, moveCount := s'.moveCount)
  {
  }

  /** CLEAR_CELL on an editable cell empties it and counts one move, even when
      the cell was already empty. */
  lemma ClearCellEffect(s: GameState, row: int, col: int)
    requires WellFormed(s) && InGrid(row, col) && s.mutableCells[row][col]
    ensures var s' := Apply(s, ClearCell(row, col));
      s'.board[row][col] == 0 &&
      (forall i, j | InGrid(i, j) && (i != row || j != col) :: s'.board[i][j] == s.board[i][j]) &&
      s'.moveCount == s.moveCount + 1 &&
      s' == s.(board := s'.board, moveCount := s'.moveCount)
  {
  }

  /** SET_BOARD installs both boards, derives the mask from the original one
      and resets the per-puzzle fields; difficulty and hint mode survive. */
  lemma SetBoardEffect(s: GameState, b: Board, o: Board)
    requires WellFormed(s) && IsGrid(b) && IsGrid(o)
    ensures var s' := Apply(s, SetBoard(b, o));
      s'.board == b && s'.originalBoard == o &&
      (forall r, c | InGrid(r, c) :: s'.mutableCells[r][c] <==> o[r][c] == 0) &&
      s'.selectedCell == None && s'.error == None && !s'.isLoading &&
      s'.moveCount == 0 && !s'.isCompleted &&
      s'.difficulty == s.difficulty && s'.isHintMode == s.isHintMode
  {
  }

  /** RESET_GAME restores the original board and resets selection, error,
      move count and completion; mask, difficulty, hint mode and loading flag
      are kept. */
  lemma ResetGameEffect(s: GameState)
    requires WellFormed(s)
    ensures var s' := Apply(s, ResetGame);
      s'.board == s.originalBoard && s'.originalBoard == s.originalBoard &&
      s'.mutableCells == s.mutableCells && s'.selectedCell == None && s'.error == None &&
      s'.moveCount == 0 && !s'.isCompleted &&
      s'.difficulty == s.difficulty && s'.isHintMode == s.isHintMode && s'.isLoading == s.isLoading
  {
  }

  lemma ResetGameIdempotent(s: GameState)
    requires WellFormed(s)
    ensures Apply(Apply(s, ResetGame), ResetGame) == Apply(s, ResetGame)
  {
  }

  /** Each flag action changes its own field only (SET_ERROR also ends loading). */
  lemma FlagActionsEffect(s: GameState, a: Action)
    requires WellFormed(s)
    requires a.SetLoading? || a.SetError? || a.SetDifficulty? || a.SetSelectedCell? ||
             a.SetCompletion? || a.ToggleHintMode?
    ensures var s' := Apply(s, a);
      match a
      case SetLoading(loading) => s' == s.(isLoading := loading)
      case SetError(message) => s' == s.(error := message, isLoading := false)
      case SetDifficulty(d) => s' == s.(difficulty := d)
      case SetSelectedCell(cell) => s' == s.(selectedCell := cell)
      case SetCompletion(completed) => s' == s.(isCompleted := completed)
      case _ => s' == s.(isHintMode := !s.isHintMode)
  {
  }

  lemma ToggleHintModeTwice(s: GameState)
    requires WellFormed(s)
    ensures Apply(Apply(s, ToggleHintMode), ToggleHintMode) == s
  {
  }

  // ---------------------------------------------------------------------
  // Properties of runs of actions

  /** An accepted edit: SET_CELL_VALUE or CLEAR_CELL on a cell `mask` marks editable. */
  ghost predicate EditOf(mask: Mask, a: Action)
    requires IsGrid(mask)
  {
    (a.SetCellValue? || a.ClearCell?) && InGrid(a.row, a.col) && mask[a.row][a.col]
  }

  /** N accepted edits raise the move counter by exactly N and leave the mask
      and the original board alone. */
  lemma {:induction false} EditsCountMoves(s: GameState, acts: seq<Action>)
    requires WellFormed(s)
    requires forall k | 0 <= k < |acts| :: EditOf(s.mutableCells, acts[k])
    ensures forall k | 0 <= k < |acts| :: Admissible(acts[k])
    ensures ApplyAll(s, acts).moveCount == s.moveCount + |acts|
    ensures ApplyAll(s, acts).mutableCells == s.mutableCells
    ensures ApplyAll(s, acts).originalBoard == s.originalBoard
    decreases |acts|
  {
    if acts != [] {
      var s1 := Apply(s, acts[0]);
      assert s1.mutableCells == s.mutableCells && s1.moveCount == s.moveCount + 1;
      assert forall k | 0 <= k < |acts[1..]| :: acts[1..][k] == acts[k + 1];
      EditsCountMoves(s1, acts[1..]);
    }
  }

  /** The board agrees with the original board on every immutable cell. */
  ghost predicate GivensIntact(s: GameState)
    requires WellFormed(s)
  {
    forall r, c | InGrid(r, c) && !s.mutableCells[r][c] :: s.board[r][c] == s.originalBoard[r][c]
  }

  /** Every action other than SET_BOARD keeps the given cells intact. */
  lemma ActionKeepsGivens(s: GameState, a: Action)
    requires WellFormed(s) && Admissible(a) && !a.SetBoard?
    requires GivensIntact(s)
    ensures GivensIntact(Apply(s, a))
  {
  }

  /** SET_BOARD(b, o) establishes it exactly when b keeps o's non-empty cells;
      in particular SET_BOARD(b, b) always does. */
  lemma SetBoardGivens(s: GameState, b: Board, o: Board)
    requires WellFormed(s) && IsGrid(b) && IsGrid(o)
    ensures GivensIntact(Apply(s, SetBoard(b, o))) <==>
            forall r, c | InGrid(r, c) && o[r][c] != 0 :: b[r][c] == o[r][c]
    ensures GivensIntact(Apply(s, SetBoard(b, b)))
  {
  }
}
