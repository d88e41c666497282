/** The grid component's click handler: the only place a cell gets selected. */
module SudokuBoard {
  import opened Types
  import opened GameContext

  /** A click on (row, col) selects the cell, unless the game is completed or
      the cell is one of the puzzle's givens; then nothing is dispatched. */
  function HandleCellClick(s: GameState, row: int, col: int): (dispatched: Option<Action>)
    requires WellFormed(s) && InGrid(row, col)
    ensures dispatched.Some? <==> !s.isCompleted && s.mutableCells[row][col]
    ensures dispatched.Some? ==> dispatched.value == SetSelectedCell(Some(Cell(row, col)))
  {
    if s.isCompleted then None
    else if s.mutableCells[row][col] then Some(SetSelectedCell(Some(Cell(row, col))))
    else None
  }

  /** What a click does to the state: nothing, or it selects that editable
      cell and changes no other field. */
  lemma CellClickEffect(s: GameState, row: int, col: int)
    requires WellFormed(s) && InGrid(row, col)
    ensures var d := HandleCellClick(s, row, col);
      d.Some? ==> Admissible(d.value) &&
                  Apply(s, d.value) == s.(selectedCell := Some(Cell(row, col))) &&
                  s.mutableCells[row][col]
  {
  }
}
