/** The records shared by the whole client: the board, the difficulty label,
    a cell position and the game state the reducer manages. */
module Types {

  datatype Option<+T> = None | Some(value: T)

  /** A board is a matrix of integers, 0 meaning an empty cell. */
  type Board = seq<seq<int>>

  /** The mutability mask: true where the player may edit the cell. */
  type Mask = seq<seq<bool>>

  /** Every board and mask the client handles has nine rows of nine cells. */
  ghost predicate IsGrid<T>(g: seq<seq<T>>)
  {
    |g| == 9 && forall r | 0 <= r < 9 :: |g[r]| == 9
  }

  predicate InGrid(row: int, col: int)
  {
    0 <= row < 9 && 0 <= col < 9
  }

  /** A 9x9 grid holding `v` in every cell. */
  function Filled<T>(v: T): (g: seq<seq<T>>)
    ensures IsGrid(g)
    ensures forall r, c | InGrid(r, c) :: g[r][c] == v
  {
    seq(9, _ => seq(9, _ => v))
  }

  datatype Difficulty = Easy | Medium | Hard | Expert

  datatype Cell = Cell(row: int, col: int)

  datatype GameState = GameState(
    board: Board,
    originalBoard: Board,
    mutableCells: Mask,
    selectedCell: Option<Cell>,
    isHintMode: bool,
    difficulty: Difficulty,
    isLoading: bool,
    error: Option<string>,
    moveCount: int,
    isCompleted: bool)

  /** The shapes every game state has. */
  ghost predicate WellFormed(s: GameState)
  {
    IsGrid(s.board) && IsGrid(s.originalBoard) && IsGrid(s.mutableCells)
  }
}
