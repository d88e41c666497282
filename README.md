# sudoku-ts client core in Dafny

This project models the logic at the heart of the sudoku-ts browser client:

- the game-state reducer (`GameContext`): ten actions over a state made of the current board, the original board, the editable-cell mask, the selection, flags and a move counter;
- the digit picker (`DigitPopover`):
  - its local candidate computation, as the nested loops with early exits that the component runs;
  - its two button guards;
- the offline stand-in for the puzzle service (`MockClient`):
  - the fixed board per difficulty;
  - the board validation, which reports completeness and row/column duplicates;
  - the hint, which splits 1..9 into allowed and rejected digits;
- the grid's cell-click guard (`SudokuBoard`).

The candidate scan appears twice in the source, in the picker and in the mock hint service. Here it is one method, `SudokuRules.IsDigitAllowed`, and both callers use it. It is proved equal to the declarative rule `SudokuRules.Allowed`: no other cell of the same row, column or 3x3 box holds the digit.

The reducer is pure, so it is a function, `GameContext.Apply`. The loops of the picker and of the service are methods with loop invariants, each proved against a specification function. The validation report is specified as `MockClient.ValidationErrors`: for each row, then for each column, one error per later occurrence of a repeated value, in scan order. Lemmas then prove what that report means.

`Interaction` closes the loop. Every state change goes through a handler:

- a grid click goes through `HandleCellClick`;
- a digit or clear button goes through the picker's guards;
- the page dispatches loads, flags and resets.

Under that discipline every reachable state is consistent:

- the mask is derived from the original board;
- the givens are intact;
- the move counter is not negative;
- the selection, if any, is an editable cell.

When the picker offers its local candidate list, a digit placed through it never repeats a peer's value at the moment it is placed. In hint mode the list is whatever the remote hint service answers, and the model does not constrain that answer.

Where the code and the behaviour one might expect from it part ways, the model follows the code:

- The reducer never recomputes `isCompleted`. Only `SET_COMPLETION`, `SET_BOARD` and `RESET_GAME` change it (`GameContext.SetCellValueEffect`).
- `SET_BOARD(b, b)` does not make every cell immutable. A cell is editable exactly when `b` leaves it empty (`GameContext.SetBoardEffect`).
- The reducer accepts any selection. Only the grid's click guard keeps selection to editable cells (`SudokuBoard.HandleCellClick`, `Interaction.StepConsistent`).
- The validation never looks at 3x3 boxes. A board with a box duplicate is reported valid (`MockClient.BoxDuplicateGoesUnreported`).

## Model

| member | source | states |
|---|---|---|
| `GameContext.InitialState` | src/store/GameContext.tsx:6-17 | the initial state has two 9x9 boards and a 9x9 mask |
| `GameContext.InitialStateContents` | src/store/GameContext.tsx:6-17 | initial boards all zero, every cell editable, no selection, move count 0, not completed, hint mode off, difficulty easy, not loading, no error |
| `GameContext.MaskOf` | src/store/GameContext.tsx:43-45 | the derived mask marks a cell editable iff the original board holds 0 there |
| `GameContext.WriteCell` | src/store/GameContext.tsx:68-70 | the rebuilt board holds the new value at (row, col) and every other cell unchanged |
| `GameContext.Apply` | src/store/GameContext.tsx:33-109 | every action maps a 9x9 state to a 9x9 state |
| `GameContext.ImmutableEditIsNoOp` | src/store/GameContext.tsx:64-91 | SET_CELL_VALUE or CLEAR_CELL on a non-editable cell returns the state unchanged |
| `GameContext.SetCellValueEffect` | src/store/GameContext.tsx:64-75 | on an editable cell: that cell gets the value, every other cell is kept, moves rise by 1, no other field changes (isCompleted included) |
| `GameContext.ClearCellEffect` | src/store/GameContext.tsx:80-91 | on an editable cell: that cell becomes 0, every other cell is kept, moves rise by 1, no other field changes |
| `GameContext.SetBoardEffect` | src/store/GameContext.tsx:41-56 | installs both boards, mask iff original cell is 0, clears selection and error, loading off, moves 0, not completed; difficulty and hint mode kept |
| `GameContext.ResetGameEffect` | src/store/GameContext.tsx:96-104 | board := original, selection and error cleared, moves 0, not completed; mask, difficulty, hint mode and loading flag kept |
| `GameContext.ResetGameIdempotent` | src/store/GameContext.tsx:96-104 | resetting twice equals resetting once |
| `GameContext.FlagActionsEffect` | src/store/GameContext.tsx:35-39 | SET_LOADING, SET_ERROR (which also ends loading), SET_DIFFICULTY, SET_SELECTED_CELL, SET_COMPLETION and TOGGLE_HINT_MODE each change only their own field |
| `GameContext.ToggleHintModeTwice` | src/store/GameContext.tsx:77-78 | toggling hint mode twice is the identity |
| `GameContext.EditsCountMoves` | src/store/GameContext.tsx:64-91 | N accepted edits raise the move count by exactly N and keep the mask and the original board |
| `GameContext.ActionKeepsGivens` | src/store/GameContext.tsx:66-104 | if the board agrees with the original on every non-editable cell, every action but SET_BOARD keeps that agreement |
| `GameContext.SetBoardGivens` | src/store/GameContext.tsx:41-56 | SET_BOARD(b, o) gives that agreement iff b keeps o's non-zero cells; SET_BOARD(b, b) always gives it |
| `SudokuRules.BoxSkipCovered` | src/components/DigitPopover.tsx:37-66 | the row and column scans plus the box scan that skips the target's row and column decide exactly the full row/column/box rule |
| `SudokuRules.IsDigitAllowed` | src/components/DigitPopover.tsx:34-67 | the scan with its early exits answers true iff no other cell of the row, column or box holds the digit |
| `SudokuRules.ValidDigitsSpec` | src/components/DigitPopover.tsx:30-75 | d is a candidate iff d is in 1..9 and no peer holds d; candidates strictly ascending |
| `SudokuRules.HintPartition` | src/api/mockClient.ts:145-186 | valid and invalid lists are ascending, disjoint, together exactly 1..9, lengths summing to 9 |
| `SudokuRules.AllowedIgnoresOwnCell` | src/components/DigitPopover.tsx:38-60 | the verdict for a digit at (row, col) ignores the value at (row, col) |
| `SudokuRules.ValidDigitsIgnoreOwnCell` | src/components/DigitPopover.tsx:30-75 | the candidate list ignores the value at (row, col) |
| `DigitPopover.CalculateValidNumbers` | src/components/DigitPopover.tsx:30-75 | the list pushed by the loop is the ascending list of allowed digits |
| `DigitPopover.HandleNumberClick` | src/components/DigitPopover.tsx:106-112 | SET_CELL_VALUE(row, col, number) is dispatched iff number is in the listed digits |
| `DigitPopover.HandleClear` | src/components/DigitPopover.tsx:114-117 | always dispatches CLEAR_CELL for its own cell |
| `DigitPopover.PlacedDigitNeverClashes` | src/components/DigitPopover.tsx:106-112 | a digit accepted against the current candidate list is in 1..9, lands in an editable cell, and no peer holds it afterwards |
| `MockClient.GenerateBoard` | src/api/mockClient.ts:62-70 | returns the fixed board of the requested difficulty, 9x9, and echoes the difficulty |
| `MockClient.EasyBoardCandidates` | src/api/mockClient.ts:12-22 | on the easy board, cell (0, 2) admits exactly 1, 2 and 4 |
| `MockClient.ValidateBoard` | src/api/mockClient.ts:72-136 | isComplete iff no cell is 0; isValid iff no row or column repeats a non-zero value; errors absent iff the report is empty, else the full report in scan order |
| `MockClient.GetHint` | src/api/mockClient.ts:138-192 | validNumbers is the picker's candidate list and invalidNumbers the ascending list of rejected digits |
| `MockClient.ScanStep` | src/api/mockClient.ts:96-108 | with `seen` holding the non-zero values met so far, a position is a repeat iff its value is non-zero and seen, and adding it keeps `seen` exact |
| `MockClient.LineErrorsEmpty` | src/api/mockClient.ts:96-108 | one line's scan reports nothing iff its non-zero values are distinct |
| `MockClient.AxisErrorsEmpty` | src/api/mockClient.ts:94-110 | the scan of the first m lines reports nothing iff each of those lines is clean (its own scan reports nothing) |
| `MockClient.NoDuplicatesByLines` | src/api/mockClient.ts:91-129 | no row or column repeats a value iff every row and every column has distinct non-zero values |
| `MockClient.AxisErrorsDistinct` | src/api/mockClient.ts:94-129 | all rows (all columns) scan clean iff each has distinct non-zero values |
| `MockClient.ErrorsIffDuplicates` | src/api/mockClient.ts:91-134 | the report is empty iff no row and no column repeats a non-zero value |
| `MockClient.LineErrorsShape` | src/api/mockClient.ts:96-108 | a line's errors are one per repeat, each for its own cell, in position order, and every repeat is reported |
| `MockClient.AxisErrorsShape` | src/api/mockClient.ts:94-110 | over the first m lines: one error per repeat, in row-major (column-major) order, and every repeat reported |
| `MockClient.RepeatAtMeaning` | src/api/mockClient.ts:97-100 | a repeat met by the scan of a row (column) is exactly a cell whose value is non-zero and occurs earlier in its row (column) |
| `MockClient.ValidationErrorsSound` | src/api/mockClient.ts:99-124 | each error marks a later occurrence of a repeated value, with that value and the 1-based row or column number; row errors precede column errors |
| `MockClient.ValidationErrorsComplete` | src/api/mockClient.ts:94-129 | every later occurrence of a repeated value in a row or a column is reported |
| `MockClient.ValidationErrorsOrder` | src/api/mockClient.ts:94-129 | row errors are in row-major order, column errors in column-major order |
| `MockClient.OccurrencesSeen` | src/api/mockClient.ts:96-107 | a value is counted in a line prefix iff it occurs there |
| `MockClient.LineRepeatCount` | src/api/mockClient.ts:96-108 | a non-zero value occurring c times in a line prefix gives c - 1 errors for that line |
| `MockClient.AxisCount` | src/api/mockClient.ts:94-129 | only line k's scan produces line k's message |
| `MockClient.RepeatCount` | src/api/mockClient.ts:94-129 | a non-zero value occurring c times in row k (column k) gives exactly c - 1 errors "Duplicate v in row (column) k + 1", none if c is 0 |
| `MockClient.BoxDuplicateGoesUnreported` | src/api/mockClient.ts:90-129 | a board with 1 at (0, 0) and (1, 1) has no row or column duplicate and is reported valid with no errors, though 1 is not a candidate for (0, 0) |
| `SudokuBoard.HandleCellClick` | src/components/SudokuBoard.tsx:8-16 | dispatches iff the game is not completed and the cell is editable, and then only SET_SELECTED_CELL of that cell |
| `SudokuBoard.CellClickEffect` | src/components/SudokuBoard.tsx:8-16 | a dispatched click changes only the selection, to that editable cell |
| `Interaction.Dispatch` | src/store/GameContext.tsx:123 | no dispatch leaves the state unchanged; a dispatch keeps the 9x9 shape |
| `Interaction.Step` | src/components/DigitPopover.tsx:78-112 | each user event goes through the grid guard, or through the picker guard applied to the list the picker offered, or is an action the page dispatches; the 9x9 shape is kept |
| `Interaction.InitialConsistent` | src/store/GameContext.tsx:6-17 | the initial state is consistent |
| `Interaction.ActionConsistent` | src/store/GameContext.tsx:33-109 | an action that selects only editable cells and loads a board as its own original keeps the state consistent |
| `Interaction.StepConsistent` | src/pages/SudokuGame.tsx:37-69 | every handler event keeps the state consistent, including the loads, flags and resets the page dispatches |
| `Interaction.RunConsistent` | src/components/SudokuBoard.tsx:13-14 | every run of events from a consistent state ends in one: the selection is always an editable cell, givens intact, mask derived from the original |
| `Interaction.DigitClickEffect` | src/components/DigitPopover.tsx:106-112 | for any offered list, a digit click writes the number into the cell and counts a move iff the number is offered and the cell editable, no other cell changing; otherwise the state is unchanged |
| `Interaction.DigitClickSafe` | src/components/DigitPopover.tsx:99-112 | when the picker offers the local candidate list of the current board (non-hint mode, or the fallback after a failed hint request): an offered digit lands in an editable cell, and in a reachable state a click leaves the board alone or writes a digit of 1..9 into an editable cell, no peer holding it |
| `Interaction.CompletedIgnoresCellClicks` | src/components/SudokuBoard.tsx:10 | once the game is marked completed, grid clicks change nothing |

## Left out

- The simulated network delay (`delay` and the `await`s of src/api/mockClient.ts) is not modelled. The service operations are synchronous here.
- The HTTP client src/api/client.ts is not part of this model. It is network I/O through a library.
- The picker's list-fetching effect, src/components/DigitPopover.tsx:78-104, is not modelled as an effect. A digit click carries the list the picker offered as a parameter of `Interaction.DigitClicked`. Outside hint mode, and when the hint request fails (line 93), that list is the local candidate list of the current board. In hint mode it is the `validNumbers` of the remote hint service, reached through the HTTP client in src/api/client.ts:65-74; the mock client is not wired into the picker. The model does not constrain the remote answer: `Interaction.DigitClickEffect` holds for any list, while `Interaction.DigitClickSafe` needs the local candidate list. A list left stale between a board change and the effect re-running is not modelled either.
- The new-game sequence in src/pages/SudokuGame.tsx:37-56 is not modelled as a sequence. `Interaction.PageDispatches` only fixes which actions the page may dispatch:
  - loads `SET_BOARD(b, b)`;
  - loading and error flags;
  - difficulty;
  - hint mode;
  - reset;
  - `SET_COMPLETION`, which has an action creator (src/store/GameContext.tsx:163) but which no handler dispatches. It is admitted as an over-approximation, so `Interaction.RunConsistent` also covers completed games and `Interaction.CompletedIgnoresCellClicks` concerns a state the app as given never reaches.
  Which of these run, and in which order, depends on an asynchronous fetch. Whichever order they run in, `SET_ERROR(null)` turning loading off follows from `GameContext.FlagActionsEffect`.
- React and MUI rendering, the popover's open/anchor state, styling, src/App.tsx, and the context, provider and hook are not modelled. They hold no game logic.
- The picker opens on any editable cell, whether or not the game is completed (src/components/SudokuCell.tsx:57-64). `Interaction.Step` therefore does not block digit clicks on a completed game.
- Win detection and a "solved board" predicate are not modelled. The code has neither, and it never recomputes `isCompleted`.
- `GameStats` is not modelled. It is declared and never used.
- Boards of any shape other than 9x9 are excluded by `IsGrid` preconditions, and `Interaction.PageDispatches` only loads 9x9 boards. The page installs the remote service's board unchecked (src/api/client.ts:53-58, src/pages/SudokuGame.tsx:44-47); the model assumes that service returns a 9x9 board, as the mock does.
- Edits outside the grid are excluded by `GameContext.Admissible`. The reducer would index past the arrays.
- Board cells and digits are mathematical integers. JavaScript numbers that are not integers are not modelled.
- Error messages are the datatype `RowDup(v, n)` / `ColDup(v, n)`, standing for the strings "Duplicate v in row n" / "Duplicate v in column n". The string formatting itself is not modelled.
- The deep copies of boards (`map(row => [...row])`) are value semantics in Dafny. Aliasing between the returned board and the fixed puzzle is not modelled.
