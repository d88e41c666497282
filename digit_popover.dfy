/** The digit picker shown over an editable cell: the local candidate
    computation and the two button guards that decide which reducer action
    is dispatched. */
module DigitPopover {
  import opened Types
  import opened SudokuRules
  import opened GameContext

  /** The candidate digits for (row, col), built by pushing each digit of
      1..9 whose scan finds no conflict. */
  method CalculateValidNumbers(board: Board, row: int, col: int) returns (valid: seq<int>)
    requires IsGrid(board) && InGrid(row, col)
    ensures valid == ValidDigits(board, row, col)
  {
    valid := [];
    var num := 1;
    while num <= 9
      invariant 1 <= num <= 10
      invariant valid == Digits(board, row, col, num, true)
    {
      var isValid := IsDigitAllowed(board, row, col, num);
      if isValid {
        valid := valid + [num];
      }
      num := num + 1;
    }
  }

  /** A digit button dispatches SET_CELL_VALUE only for a listed digit. */
  function HandleNumberClick(validNumbers: seq<int>, row: int, col: int, number: int): (dispatched: Option<Action>)
    ensures dispatched.Some? <==> number in validNumbers
    ensures dispatched.Some? ==> dispatched.value == SetCellValue(row, col, number)
  {
    if number in validNumbers then Some(SetCellValue(row, col, number)) else None
  }

  /** The clear button always dispatches CLEAR_CELL for its own cell. */
  function HandleClear(row: int, col: int): (dispatched: Action)
    ensures dispatched.ClearCell? && dispatched.row == row && dispatched.col == col
  {
    ClearCell(row, col)
  }

  /** A digit placed through the picker, whose list is the candidate list of
      the current board, never repeats a peer's value at placement time: after
      the reducer runs, the cell holds the digit (if it is editable) and no
      peer holds it. */
  lemma PlacedDigitNeverClashes(s: GameState, row: int, col: int, number: int)
    requires WellFormed(s) && InGrid(row, col)
    requires HandleNumberClick(ValidDigits(s.board, row, col), row, col, number).Some?
    ensures var s' := Apply(s, SetCellValue(row, col, number));
      1 <= number <= 9 &&
      (s.mutableCells[row][col] ==> s'.board[row][col] == number) &&
      forall i, j | Peer(row, col, i, j) :: s'.board[i][j] != number
  {
    ValidDigitsSpec(s.board, row, col);
    assert Allowed(s.board, row, col, number);
  }
}
