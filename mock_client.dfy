/** The offline stand-in for the puzzle service: a fixed board per
    difficulty, a row/column duplicate report, and a hint that splits 1..9
    into allowed and rejected digits. The simulated network delay is not
    part of the model. */
module MockClient {
  import opened Types
  import opened SudokuRules

  // ---------------------------------------------------------------------
  // Board generation

  /** The fixed puzzle served for each difficulty. */
  function MockBoard(difficulty: Difficulty): Board
  {
    match difficulty
    case Easy => [
      [5, 3, 0, 0, 7, 0, 0, 0, 0],
      [6, 0, 0, 1, 9, 5, 0, 0, 0],
      [0, 9, 8, 0, 0, 0, 0, 6, 0],
      [8, 0, 0, 0, 6, 0, 0, 0, 3],
      [4, 0, 0, 8, 0, 3, 0, 0, 1],
      [7, 0, 0, 0, 2, 0, 0, 0, 6],
      [0, 6, 0, 0, 0, 0, 2, 8, 0],
      [0, 0, 0, 4, 1, 9, 0, 0, 5],
      [0, 0, 0, 0, 8, 0, 0, 7, 9]]
    case Medium => [
      [0, 2, 0, 6, 0, 8, 0, 0, 0],
      [5, 8, 0, 0, 0, 9, 7, 0, 0],
      [0, 0, 0, 0, 4, 0, 0, 0, 0],
      [3, 7, 0, 0, 0, 0, 5, 0, 0],
      [6, 0, 0, 0, 0, 0, 0, 0, 4],
      [0, 0, 8, 0, 0, 0, 0, 1, 3],
      [0, 0, 0, 0, 2, 0, 0, 0, 0],
      [0, 0, 9, 8, 0, 0, 0, 3, 6],
      [0, 0, 0, 3, 0, 6, 0, 9, 0]]
    case Hard => [
      [0, 0, 0, 6, 0, 0, 4, 0, 0],
      [7, 0, 0, 0, 0, 3, 6, 0, 0],
      [0, 0, 0, 0, 9, 1, 0, 8, 0],
      [0, 0, 0, 0, 0, 0, 0, 0, 0],
      [0, 5, 0, 1, 8, 0, 0, 0, 3],
      [0, 0, 0, 3, 0, 6, 0, 4, 5],
      [0, 4, 0, 2, 0, 0, 0, 6, 0],
      [9, 0, 3, 0, 0, 0, 0, 0, 0],
      [0, 2, 0, 0, 0, 0, 1, 0, 0]]
    case Expert => [
      [0, 0, 0, 0, 0, 0, 0, 1, 0],
      [4, 0, 0, 0, 0, 0, 0, 0, 0],
      [0, 0, 0, 0, 0, 0, 6, 0, 2],
      [0, 0, 0, 0, 3, 0, 0, 7, 0],
      [5, 0, 0, 0, 0, 0, 0, 0, 0],
      [0, 0, 0, 0, 0, 8, 0, 0, 0],
      [0, 6, 0, 0, 0, 0, 0, 0, 0],
      [0, 0, 0, 4, 0, 0, 0, 0, 1],
      [0, 0, 0, 0, 0, 0, 0, 0, 0]]
  }

  datatype GenerateBoardResponse = GenerateBoardResponse(board: Board, difficulty: Difficulty)

  /** Serves a copy of the fixed board and echoes the requested difficulty;
      the board has the client's 9x9 shape. */
  function GenerateBoard(difficulty: Difficulty): (r: GenerateBoardResponse)
    ensures r.board == MockBoard(difficulty) && r.difficulty == difficulty
    ensures IsGrid(r.board)
  {
    GenerateBoardResponse(MockBoard(difficulty), difficulty)
  }

  // ---------------------------------------------------------------------
  // Validation: what is reported

  datatype Message =
    | RowDup(value: int, rowNumber: int)  // "Duplicate <value> in row <rowNumber>"
    | ColDup(value: int, colNumber: int)  // "Duplicate <value> in column <colNumber>"

  datatype BoardError = BoardError(row: int, col: int, message: Message)

  datatype ValidateBoardResponse = ValidateBoardResponse(isValid: bool, isComplete: bool, errors: Option<seq<BoardError>>)

  /** No cell is empty. */
  ghost predicate Complete(b: Board)
    requires IsGrid(b)
  {
    forall i, j | InGrid(i, j) :: b[i][j] != 0
  }

  /** No row and no column holds the same non-zero value twice. Boxes are
      deliberately absent: the validation never looks at them. */
  ghost predicate NoRowColumnDuplicates(b: Board)
    requires IsGrid(b)
  {
    (forall i, p, q | InGrid(i, p) && InGrid(i, q) && p != q && b[i][p] != 0 :: b[i][p] != b[i][q]) &&
    (forall j, p, q | InGrid(p, j) && InGrid(q, j) && p != q && b[p][j] != 0 :: b[p][j] != b[q][j])
  }

  /** (i, j) repeats a value seen earlier in its row. */
  ghost predicate RowRepeat(b: Board, i: int, j: int)
    requires IsGrid(b) && InGrid(i, j)
  {
    b[i][j] != 0 && exists j' | 0 <= j' < j :: b[i][j'] == b[i][j]
  }

  /** (i, j) repeats a value seen earlier in its column. */
  ghost predicate ColRepeat(b: Board, i: int, j: int)
    requires IsGrid(b) && InGrid(i, j)
  {
    b[i][j] != 0 && exists i' | 0 <= i' < i :: b[i'][j] == b[i][j]
  }

  /** The error marks a later occurrence of a repeated value, with the value
      and the 1-based row or column number in its message. */
  ghost predicate ReportsRepeat(b: Board, e: BoardError)
    requires IsGrid(b)
  {
    InGrid(e.row, e.col) &&
    match e.message
    case RowDup(v, n) => n == e.row + 1 && v == b[e.row][e.col] && RowRepeat(b, e.row, e.col)
    case ColDup(v, n) => n == e.col + 1 && v == b[e.row][e.col] && ColRepeat(b, e.row, e.col)
  }

  // ---------------------------------------------------------------------
  // Validation: the scan order the service follows

  datatype Axis = Rows | Cols

  /** Position p of row k (Rows) or of column k (Cols). */
  function At(b: Board, axis: Axis, k: int, p: int): int
    requires IsGrid(b) && 0 <= k < 9 && 0 <= p < 9
  {
    if axis == Rows then b[k][p] else b[p][k]
  }

  /** v occurs among the first n positions of line k. */
  ghost predicate SeenIn(b: Board, axis: Axis, k: int, n: int, v: int)
    requires IsGrid(b) && 0 <= k < 9 && 0 <= n <= 9
  {
    exists p | 0 <= p < n :: At(b, axis, k, p) == v
  }

  /** Position p of line k holds a non-zero value already met earlier in it. */
  ghost predicate RepeatAt(b: Board, axis: Axis, k: int, p: int)
    requires IsGrid(b) && 0 <= k < 9 && 0 <= p < 9
  {
    At(b, axis, k, p) != 0 && SeenIn(b, axis, k, p, At(b, axis, k, p))
  }

  /** The message line k carries for value v. */
  function MessageFor(axis: Axis, k: int, v: int): Message
  {
    if axis == Rows then RowDup(v, k + 1) else ColDup(v, k + 1)
  }

  /** The error pushed for position p of line k. */
  function ErrorAt(b: Board, axis: Axis, k: int, p: int): BoardError
    requires IsGrid(b) && 0 <= k < 9 && 0 <= p < 9
  {
    if axis == Rows then BoardError(k, p, MessageFor(Rows, k, b[k][p]))
    else BoardError(p, k, MessageFor(Cols, k, b[p][k]))
  }

  /** Line number and position in the line of an error's cell. */
  function LineOf(axis: Axis, e: BoardError): int { if axis == Rows then e.row else e.col }
  function PosOf(axis: Axis, e: BoardError): int { if axis == Rows then e.col else e.row }

  /** Row-major (for Rows) or column-major (for Cols) position of an error's cell. */
  function Rank(axis: Axis, e: BoardError): int
  {
    LineOf(axis, e) * 9 + PosOf(axis, e)
  }

  /** The errors of line k among its first n positions, in scan order.
      (As for SudokuRules.Digits, b is named in the decreases clause so that
      a call with a literal n is unfolded only on demand.) */
  ghost function LineErrors(b: Board, axis: Axis, k: int, n: int): seq<BoardError>
    requires IsGrid(b) && 0 <= k < 9 && 0 <= n <= 9
    decreases n, b
  {
    if n == 0 then []
    else LineErrors(b, axis, k, n - 1) + (if RepeatAt(b, axis, k, n - 1) then [ErrorAt(b, axis, k, n - 1)] else [])
  }

  /** The errors of the first m lines, in scan order. */
  ghost function AxisErrors(b: Board, axis: Axis, m: int): seq<BoardError>
    requires IsGrid(b) && 0 <= m <= 9
    decreases m, b
  {
    if m == 0 then [] else AxisErrors(b, axis, m - 1) + LineErrors(b, axis, m - 1, 9)
  }

  /** Every row error, then every column error. */
  ghost function ValidationErrors(b: Board): seq<BoardError>
    requires IsGrid(b)
  {
    AxisErrors(b, Rows, 9) + AxisErrors(b, Cols, 9)
  }

  // ---------------------------------------------------------------------
  // The service operations

  /** Reports completeness, the absence of row/column duplicates and every
      later occurrence of a repeated value; errors are absent exactly when
      the board is reported valid. */
  method ValidateBoard(board: Board) returns (response: ValidateBoardResponse)
    requires IsGrid(board)
    ensures response.isComplete == Complete(board)
    ensures response.isValid == NoRowColumnDuplicates(board)
    ensures response.errors == if ValidationErrors(board) == [] then None else Some(ValidationErrors(board))
  {
    var errors: seq<BoardError> := [];

    // Check for completion
    var isComplete := true;
    var i := 0;
    while i < 9
      invariant 0 <= i <= 9
      invariant isComplete
      invariant forall r, c | 0 <= r < i && 0 <= c < 9 :: board[r][c] != 0
    {
      var j := 0;
      while j < 9
        invariant 0 <= j <= 9
        invariant isComplete
        invariant forall c | 0 <= c < j :: board[i][c] != 0
      {
        if board[i][j] == 0 {
          isComplete := false;
          break;
        }
        j := j + 1;
      }
      if !isComplete {
        assert !Complete(board);
        break;
      }
      i := i + 1;
    }
    assert isComplete == Complete(board);

    var isValid := true;

    // Check rows
    i := 0;
    while i < 9
      invariant 0 <= i <= 9
      invariant errors == AxisErrors(board, Rows, i)
      invariant isValid == (errors == [])
    {
      var seen: set<int> := {};
      var j := 0;
      while j < 9
        invariant 0 <= j <= 9
        invariant errors == AxisErrors(board, Rows, i) + LineErrors(board, Rows, i, j)
        invariant isValid == (errors == [])
        invariant forall v :: v in seen <==> v != 0 && SeenIn(board, Rows, i, j, v)
      {
        ScanStep(board, Rows, i, j, seen);
        ScanPush(AxisErrors(board, Rows, i), board, Rows, i, j);
        var val := board[i][j];
        if val != 0 {
          if val in seen {
            isValid := false;
            errors := errors + [BoardError(i, j, RowDup(val, i + 1))];
          }
          seen := seen + {val};
        }
        j := j + 1;
      }
      i := i + 1;
    }

    // Check columns
    ghost var rowErrors := errors;
    var j := 0;
    while j < 9
      invariant 0 <= j <= 9
      invariant errors == rowErrors + AxisErrors(board, Cols, j)
      invariant isValid == (errors == [])
    {
      var seen: set<int> := {};
      i := 0;
      while i < 9
        invariant 0 <= i <= 9
        invariant errors == rowErrors + AxisErrors(board, Cols, j) + LineErrors(board, Cols, j, i)
        invariant isValid == (errors == [])
        invariant forall v :: v in seen <==> v != 0 && SeenIn(board, Cols, j, i, v)
      {
        ScanStep(board, Cols, j, i, seen);
        ScanPush(rowErrors + AxisErrors(board, Cols, j), board, Cols, j, i);
        var val := board[i][j];
        if val != 0 {
          if val in seen {
            isValid := false;
            errors := errors + [BoardError(i, j, ColDup(val, j + 1))];
          }
          seen := seen + {val};
        }
        i := i + 1;
      }
      LineDone(rowErrors, board, Cols, j);
      j := j + 1;
    }

    ErrorsIffDuplicates(board);
    response := ValidateBoardResponse(isValid, isComplete, if |errors| > 0 then Some(errors) else None);
  }

  datatype HintResponse = HintResponse(validNumbers: seq<int>, invalidNumbers: seq<int>)

  /** Splits 1..9 into the digits allowed at (row, col) and those rejected,
      by the same scan as the digit picker. */
  method GetHint(board: Board, row: int, col: int) returns (response: HintResponse)
    requires IsGrid(board) && InGrid(row, col)
    ensures response.validNumbers == ValidDigits(board, row, col)
    ensures response.invalidNumbers == RejectedDigits(board, row, col)
  {
    var validNumbers: seq<int> := [];
    var invalidNumbers: seq<int> := [];
    var num := 1;
    while num <= 9
      invariant 1 <= num <= 10
      invariant validNumbers == Digits(board, row, col, num, true)
      invariant invalidNumbers == Digits(board, row, col, num, false)
    {
      var isValid := IsDigitAllowed(board, row, col, num);
      if isValid {
        validNumbers := validNumbers + [num];
      } else {
        invalidNumbers := invalidNumbers + [num];
      }
      num := num + 1;
    }
    response := HintResponse(validNumbers, invalidNumbers);
  }

  /** On the easy puzzle, the top row's third cell admits 1, 2 and 4 only:
      5, 3 and 7 are in its row, 8 in its column, 6 and 9 in its box. */
  lemma EasyBoardCandidates()
    ensures ValidDigits(MockBoard(Easy), 0, 2) == [1, 2, 4]
  {
    var b := MockBoard(Easy);
    assert Peer(0, 2, 0, 0) && b[0][0] == 5;
    assert Peer(0, 2, 0, 1) && b[0][1] == 3;
    assert Peer(0, 2, 0, 4) && b[0][4] == 7;
    assert Peer(0, 2, 1, 0) && b[1][0] == 6;
    assert Peer(0, 2, 2, 2) && b[2][2] == 8;
    assert Peer(0, 2, 2, 1) && b[2][1] == 9;
    forall i, j | Peer(0, 2, i, j) ensures b[i][j] != 1 && b[i][j] != 2 && b[i][j] != 4 {
    }
  }

  // ---------------------------------------------------------------------
  // Properties of the validation report

  /** One step of a line scan: with `seen` holding the non-zero values of the
      first n positions, position n is a repeat iff its value is non-zero and
      already seen, and adding it keeps `seen` up to date. */
  lemma ScanStep(b: Board, axis: Axis, k: int, n: int, seen: set<int>)
    requires IsGrid(b) && 0 <= k < 9 && 0 <= n < 9
    requires forall v :: v in seen <==> v != 0 && SeenIn(b, axis, k, n, v)
    ensures RepeatAt(b, axis, k, n) <==> At(b, axis, k, n) != 0 && At(b, axis, k, n) in seen
    ensures At(b, axis, k, n) != 0 ==>
              forall v :: v in seen + {At(b, axis, k, n)} <==> v != 0 && SeenIn(b, axis, k, n + 1, v)
    ensures At(b, axis, k, n) == 0 ==>
              forall v :: v in seen <==> v != 0 && SeenIn(b, axis, k, n + 1, v)
  {
  }

  /** The errors pushed so far grow by the error of position n, if it is a repeat. */
  lemma ScanPush(pre: seq<BoardError>, b: Board, axis: Axis, k: int, n: int)
    requires IsGrid(b) && 0 <= k < 9 && 0 <= n < 9
    ensures pre + LineErrors(b, axis, k, n + 1) ==
            (pre + LineErrors(b, axis, k, n)) + (if RepeatAt(b, axis, k, n) then [ErrorAt(b, axis, k, n)] else [])
  {
    var tail := if RepeatAt(b, axis, k, n) then [ErrorAt(b, axis, k, n)] else [];
    assert pre + (LineErrors(b, axis, k, n) + tail) == (pre + LineErrors(b, axis, k, n)) + tail;
  }

  /** A finished line's errors join those of the lines before it. */
  lemma LineDone(pre: seq<BoardError>, b: Board, axis: Axis, m: int)
    requires IsGrid(b) && 0 <= m < 9
    ensures (pre + AxisErrors(b, axis, m)) + LineErrors(b, axis, m, 9) == pre + AxisErrors(b, axis, m + 1)
  {
    assert pre + (AxisErrors(b, axis, m) + LineErrors(b, axis, m, 9)) ==
           (pre + AxisErrors(b, axis, m)) + LineErrors(b, axis, m, 9);
  }

  /** The non-zero values among the first n positions of line k are pairwise distinct. */
  ghost predicate DistinctNonZero(b: Board, axis: Axis, k: int, n: int)
    requires IsGrid(b) && 0 <= k < 9 && 0 <= n <= 9
  {
    forall p, q | 0 <= p < q < n && At(b, axis, k, q) != 0 :: At(b, axis, k, p) != At(b, axis, k, q)
  }

  /** A line's scan reports nothing iff its non-zero values are distinct. */
  lemma {:induction false} LineErrorsEmpty(b: Board, axis: Axis, k: int, n: int)
    requires IsGrid(b) && 0 <= k < 9 && 0 <= n <= 9
    ensures LineErrors(b, axis, k, n) == [] <==> DistinctNonZero(b, axis, k, n)
    decreases n
  {
    if n > 0 {
      LineErrorsEmpty(b, axis, k, n - 1);
      var prev, last := LineErrors(b, axis, k, n - 1), At(b, axis, k, n - 1);
      assert LineErrors(b, axis, k, n) == [] <==> prev == [] && !RepeatAt(b, axis, k, n - 1) by {
        assert |LineErrors(b, axis, k, n)| >= |prev|;
      }
      if DistinctNonZero(b, axis, k, n) {
        forall p | 0 <= p < n - 1 && last != 0 ensures At(b, axis, k, p) != last {
        }
      }
      if DistinctNonZero(b, axis, k, n - 1) && !RepeatAt(b, axis, k, n - 1) {
        forall p, q | 0 <= p < q < n && At(b, axis, k, q) != 0 ensures At(b, axis, k, p) != At(b, axis, k, q) {
          if q == n - 1 {
            assert !SeenIn(b, axis, k, n - 1, last);
          }
        }
      }
    }
  }

  /** Line k's full scan reports nothing. */
  ghost predicate LineClean(b: Board, axis: Axis, k: int)
    requires IsGrid(b) && 0 <= k < 9
  {
    LineErrors(b, axis, k, 9) == []
  }

  /** The first m lines of an axis report nothing iff each of them is clean. */
  lemma {:induction false} AxisErrorsEmpty(b: Board, axis: Axis, m: int)
    requires IsGrid(b) && 0 <= m <= 9
    ensures AxisErrors(b, axis, m) == [] <==> forall k | 0 <= k < m :: LineClean(b, axis, k)
    decreases m
  {
    if m > 0 {
      AxisErrorsEmpty(b, axis, m - 1);
      var prev, le := AxisErrors(b, axis, m - 1), LineErrors(b, axis, m - 1, 9);
      assert AxisErrors(b, axis, m) == prev + le;
      assert |prev + le| == |prev| + |le|;
      assert LineClean(b, axis, m - 1) <==> le == [];
    }
  }

  /** No row and no column repeats a value iff every row and every column,
      read as a line, has distinct non-zero values. */
  lemma NoDuplicatesByLines(b: Board)
    requires IsGrid(b)
    ensures NoRowColumnDuplicates(b) <==>
            forall k | 0 <= k < 9 :: DistinctNonZero(b, Rows, k, 9) && DistinctNonZero(b, Cols, k, 9)
  {
    if NoRowColumnDuplicates(b) {
      forall k | 0 <= k < 9 ensures DistinctNonZero(b, Rows, k, 9) && DistinctNonZero(b, Cols, k, 9) {
        forall p, q | 0 <= p < q < 9 && At(b, Rows, k, q) != 0 ensures At(b, Rows, k, p) != At(b, Rows, k, q) {
          assert InGrid(k, q) && InGrid(k, p) && b[k][q] != 0;
        }
        forall p, q | 0 <= p < q < 9 && At(b, Cols, k, q) != 0 ensures At(b, Cols, k, p) != At(b, Cols, k, q) {
          assert InGrid(q, k) && InGrid(p, k) && b[q][k] != 0;
        }
      }
    }
    if forall k | 0 <= k < 9 :: DistinctNonZero(b, Rows, k, 9) && DistinctNonZero(b, Cols, k, 9) {
      forall i, p, q | InGrid(i, p) && InGrid(i, q) && p != q && b[i][p] != 0 ensures b[i][p] != b[i][q] {
        assert DistinctNonZero(b, Rows, i, 9);
        if p < q {
          assert b[i][q] != 0 ==> At(b, Rows, i, p) != At(b, Rows, i, q);
        } else {
          assert At(b, Rows, i, q) != At(b, Rows, i, p);
        }
      }
      forall j, p, q | InGrid(p, j) && InGrid(q, j) && p != q && b[p][j] != 0 ensures b[p][j] != b[q][j] {
        assert DistinctNonZero(b, Cols, j, 9);
        if p < q {
          assert b[q][j] != 0 ==> At(b, Cols, j, p) != At(b, Cols, j, q);
        } else {
          assert At(b, Cols, j, q) != At(b, Cols, j, p);
        }
      }
    }
  }

  /** All rows (or all columns) scan clean iff each has distinct non-zero values. */
  lemma AxisErrorsDistinct(b: Board, axis: Axis)
    requires IsGrid(b)
    ensures AxisErrors(b, axis, 9) == [] <==> forall k | 0 <= k < 9 :: DistinctNonZero(b, axis, k, 9)
  {
    AxisErrorsEmpty(b, axis, 9);
    forall k | 0 <= k < 9 ensures LineClean(b, axis, k) <==> DistinctNonZero(b, axis, k, 9) {
      LineErrorsEmpty(b, axis, k, 9);
    }
  }

  /** The report is empty exactly when no row and no column repeats a value. */
  lemma ErrorsIffDuplicates(b: Board)
    requires IsGrid(b)
    ensures ValidationErrors(b) == [] <==> NoRowColumnDuplicates(b)
  {
    var rows, cols := AxisErrors(b, Rows, 9), AxisErrors(b, Cols, 9);
    assert |rows + cols| == |rows| + |cols|;
    AxisErrorsDistinct(b, Rows);
    AxisErrorsDistinct(b, Cols);
    NoDuplicatesByLines(b);
  }

  /** The error is the one the scan pushes for a repeat at its own cell. */
  ghost predicate PushedFor(b: Board, axis: Axis, e: BoardError)
    requires IsGrid(b)
  {
    0 <= LineOf(axis, e) < 9 && 0 <= PosOf(axis, e) < 9 &&
    RepeatAt(b, axis, LineOf(axis, e), PosOf(axis, e)) &&
    e == ErrorAt(b, axis, LineOf(axis, e), PosOf(axis, e))
  }

  /** Errors in strictly increasing row-major (Rows) or column-major (Cols) order. */
  ghost predicate RankSorted(axis: Axis, errs: seq<BoardError>)
  {
    forall t, u | 0 <= t < u < |errs| :: Rank(axis, errs[t]) < Rank(axis, errs[u])
  }

  /** The scan of line k's first n positions pushes, in position order, one
      error per repeat and nothing else. */
  lemma {:induction false} LineErrorsShape(b: Board, axis: Axis, k: int, n: int)
    requires IsGrid(b) && 0 <= k < 9 && 0 <= n <= 9
    ensures forall e | e in LineErrors(b, axis, k, n) ::
              PushedFor(b, axis, e) && LineOf(axis, e) == k && PosOf(axis, e) < n
    ensures RankSorted(axis, LineErrors(b, axis, k, n))
    ensures forall p | 0 <= p < n && RepeatAt(b, axis, k, p) :: ErrorAt(b, axis, k, p) in LineErrors(b, axis, k, n)
    decreases n
  {
    if n > 0 {
      LineErrorsShape(b, axis, k, n - 1);
      var prev := LineErrors(b, axis, k, n - 1);
      var le := LineErrors(b, axis, k, n);
      if RepeatAt(b, axis, k, n - 1) {
        var e := ErrorAt(b, axis, k, n - 1);
        assert le == prev + [e];
        assert LineOf(axis, e) == k && PosOf(axis, e) == n - 1;
        forall t, u | 0 <= t < u < |le| ensures Rank(axis, le[t]) < Rank(axis, le[u]) {
          assert le[t] in prev;
          if u < |prev| {
            assert le[t] == prev[t] && le[u] == prev[u];
          }
        }
      } else {
        assert le == prev;
      }
    }
  }

  /** The same for the first m lines: one error per repeat of one of them, in
      row-major (or column-major) order, and nothing else. */
  lemma {:induction false} AxisErrorsShape(b: Board, axis: Axis, m: int)
    requires IsGrid(b) && 0 <= m <= 9
    ensures forall e | e in AxisErrors(b, axis, m) :: PushedFor(b, axis, e) && LineOf(axis, e) < m
    ensures RankSorted(axis, AxisErrors(b, axis, m))
    ensures forall k, p | 0 <= k < m && 0 <= p < 9 && RepeatAt(b, axis, k, p) :: ErrorAt(b, axis, k, p) in AxisErrors(b, axis, m)
    decreases m
  {
    if m > 0 {
      AxisErrorsShape(b, axis, m - 1);
      LineErrorsShape(b, axis, m - 1, 9);
      var prev := AxisErrors(b, axis, m - 1);
      var le := LineErrors(b, axis, m - 1, 9);
      var ae := AxisErrors(b, axis, m);
      assert ae == prev + le;
      forall t, u | 0 <= t < u < |ae| ensures Rank(axis, ae[t]) < Rank(axis, ae[u]) {
        if u < |prev| {
          assert ae[t] == prev[t] && ae[u] == prev[u];
        } else if t < |prev| {
          assert ae[t] in prev && ae[u] in le;
        } else {
          assert ae[t] == le[t - |prev|] && ae[u] == le[u - |prev|];
        }
      }
    }
  }

  /** A repeat found by the scan of a line is a repeat of the board's row or
      column, and conversely. */
  lemma RepeatAtMeaning(b: Board, axis: Axis, k: int, p: int)
    requires IsGrid(b) && 0 <= k < 9 && 0 <= p < 9
    ensures axis == Rows ==> (RepeatAt(b, axis, k, p) <==> RowRepeat(b, k, p))
    ensures axis == Cols ==> (RepeatAt(b, axis, k, p) <==> ColRepeat(b, p, k))
  {
    if axis == Rows && RowRepeat(b, k, p) {
      var j' :| 0 <= j' < p && b[k][j'] == b[k][p];
      assert At(b, axis, k, j') == At(b, axis, k, p);
    }
    if axis == Cols && ColRepeat(b, p, k) {
      var i' :| 0 <= i' < p && b[i'][k] == b[p][k];
      assert At(b, axis, k, i') == At(b, axis, k, p);
    }
  }

  /** Each reported error marks a later occurrence of a repeated value in its
      row or column, with that value and the 1-based line number; the row
      errors come first and the column errors after them. */
  lemma ValidationErrorsSound(b: Board)
    requires IsGrid(b)
    ensures var errs := ValidationErrors(b);
      forall t | 0 <= t < |errs| ::
        ReportsRepeat(b, errs[t]) && (errs[t].message.RowDup? <==> t < |AxisErrors(b, Rows, 9)|)
  {
    AxisErrorsShape(b, Rows, 9);
    AxisErrorsShape(b, Cols, 9);
    var rows := AxisErrors(b, Rows, 9);
    var cols := AxisErrors(b, Cols, 9);
    var errs := ValidationErrors(b);
    forall t | 0 <= t < |errs|
      ensures ReportsRepeat(b, errs[t]) && (errs[t].message.RowDup? <==> t < |rows|)
    {
      if t < |rows| {
        var e := rows[t];
        assert errs[t] == e && e in rows;
        RepeatAtMeaning(b, Rows, e.row, e.col);
      } else {
        var e := cols[t - |rows|];
        assert errs[t] == e && e in cols;
        RepeatAtMeaning(b, Cols, e.col, e.row);
      }
    }
  }

  /** Every later occurrence of a repeated value in a row or column is reported. */
  lemma ValidationErrorsComplete(b: Board)
    requires IsGrid(b)
    ensures forall i, j | InGrid(i, j) && RowRepeat(b, i, j) :: BoardError(i, j, RowDup(b[i][j], i + 1)) in ValidationErrors(b)
    ensures forall i, j | InGrid(i, j) && ColRepeat(b, i, j) :: BoardError(i, j, ColDup(b[i][j], j + 1)) in ValidationErrors(b)
  {
    AxisErrorsShape(b, Rows, 9);
    AxisErrorsShape(b, Cols, 9);
    forall i, j | InGrid(i, j) && RowRepeat(b, i, j)
      ensures BoardError(i, j, RowDup(b[i][j], i + 1)) in ValidationErrors(b)
    {
      RepeatAtMeaning(b, Rows, i, j);
      assert ErrorAt(b, Rows, i, j) in AxisErrors(b, Rows, 9);
    }
    forall i, j | InGrid(i, j) && ColRepeat(b, i, j)
      ensures BoardError(i, j, ColDup(b[i][j], j + 1)) in ValidationErrors(b)
    {
      RepeatAtMeaning(b, Cols, j, i);
      assert ErrorAt(b, Cols, j, i) in AxisErrors(b, Cols, 9);
    }
  }

  /** Row errors come in row-major order, column errors in column-major order. */
  lemma ValidationErrorsOrder(b: Board)
    requires IsGrid(b)
    ensures var errs, rowCount := ValidationErrors(b), |AxisErrors(b, Rows, 9)|;
      RankSorted(Rows, errs[..rowCount]) && RankSorted(Cols, errs[rowCount..])
  {
    AxisErrorsShape(b, Rows, 9);
    AxisErrorsShape(b, Cols, 9);
    var rows := AxisErrors(b, Rows, 9);
    var errs := ValidationErrors(b);
    assert errs[..|rows|] == rows;
    assert errs[|rows|..] == AxisErrors(b, Cols, 9);
  }

  /** Number of positions among the first n of line k holding v. */
  ghost function Occurrences(b: Board, axis: Axis, k: int, n: int, v: int): nat
    requires IsGrid(b) && 0 <= k < 9 && 0 <= n <= 9
    decreases n, b
  {
    if n == 0 then 0 else Occurrences(b, axis, k, n - 1, v) + (if At(b, axis, k, n - 1) == v then 1 else 0)
  }

  lemma {:induction false} OccurrencesSeen(b: Board, axis: Axis, k: int, n: int, v: int)
    requires IsGrid(b) && 0 <= k < 9 && 0 <= n <= 9
    ensures Occurrences(b, axis, k, n, v) > 0 <==> SeenIn(b, axis, k, n, v)
    decreases n
  {
    if n > 0 {
      OccurrencesSeen(b, axis, k, n - 1, v);
      if SeenIn(b, axis, k, n, v) && !SeenIn(b, axis, k, n - 1, v) {
        var p :| 0 <= p < n && At(b, axis, k, p) == v;
        assert p == n - 1;
      }
    }
  }

  /** Number of errors in `errs` carrying message m. */
  ghost function CountMessage(errs: seq<BoardError>, m: Message): nat
    decreases |errs|
  {
    if errs == [] then 0 else (if errs[0].message == m then 1 else 0) + CountMessage(errs[1..], m)
  }

  lemma {:induction false} CountMessageAppend(xs: seq<BoardError>, ys: seq<BoardError>, m: Message)
    ensures CountMessage(xs + ys, m) == CountMessage(xs, m) + CountMessage(ys, m)
    decreases |xs|
  {
    if xs == [] {
      assert xs + ys == ys;
    } else {
      assert (xs + ys)[0] == xs[0];
      assert (xs + ys)[1..] == xs[1..] + ys;
      CountMessageAppend(xs[1..], ys, m);
    }
  }

  lemma {:induction false} CountMessageAbsent(errs: seq<BoardError>, m: Message)
    requires forall e | e in errs :: e.message != m
    ensures CountMessage(errs, m) == 0
    decreases |errs|
  {
    if errs != [] {
      assert errs[0] in errs;
      assert forall e | e in errs[1..] :: e in errs;
      CountMessageAbsent(errs[1..], m);
    }
  }

  /** Within one line, a non-zero value occurring c times among the first n
      positions yields c - 1 errors (none if it does not occur). */
  lemma {:induction false} LineRepeatCount(b: Board, axis: Axis, k: int, n: int, v: int)
    requires IsGrid(b) && 0 <= k < 9 && 0 <= n <= 9 && v != 0
    ensures var c := Occurrences(b, axis, k, n, v);
      CountMessage(LineErrors(b, axis, k, n), MessageFor(axis, k, v)) == if c == 0 then 0 else c - 1
    decreases n
  {
    if n > 0 {
      var m := MessageFor(axis, k, v);
      LineRepeatCount(b, axis, k, n - 1, v);
      OccurrencesSeen(b, axis, k, n - 1, v);
      var tail := if RepeatAt(b, axis, k, n - 1) then [ErrorAt(b, axis, k, n - 1)] else [];
      CountMessageAppend(LineErrors(b, axis, k, n - 1), tail, m);
      assert ErrorAt(b, axis, k, n - 1).message == MessageFor(axis, k, At(b, axis, k, n - 1));
    }
  }

  /** Only line k's scan can carry line k's message. */
  lemma {:induction false} AxisCount(b: Board, axis: Axis, k: int, m: int, v: int)
    requires IsGrid(b) && 0 <= k < 9 && 0 <= m <= 9
    ensures CountMessage(AxisErrors(b, axis, m), MessageFor(axis, k, v)) ==
            if k < m then CountMessage(LineErrors(b, axis, k, 9), MessageFor(axis, k, v)) else 0
    decreases m
  {
    if m > 0 {
      AxisCount(b, axis, k, m - 1, v);
      var le := LineErrors(b, axis, m - 1, 9);
      CountMessageAppend(AxisErrors(b, axis, m - 1), le, MessageFor(axis, k, v));
      if k != m - 1 {
        LineErrorsShape(b, axis, m - 1, 9);
        CountMessageAbsent(le, MessageFor(axis, k, v));
      }
    }
  }

  /** Across the whole report: a non-zero value occurring c times in row k
      (column k) gives c - 1 errors "duplicate in row (column) k + 1". */
  lemma RepeatCount(b: Board, axis: Axis, k: int, v: int)
    requires IsGrid(b) && 0 <= k < 9 && v != 0
    ensures var c := Occurrences(b, axis, k, 9, v);
      CountMessage(ValidationErrors(b), MessageFor(axis, k, v)) == if c == 0 then 0 else c - 1
  {
    var m := MessageFor(axis, k, v);
    var other := if axis == Rows then Cols else Rows;
    LineRepeatCount(b, axis, k, 9, v);
    AxisCount(b, axis, k, 9, v);
    AxisErrorsShape(b, other, 9);
    CountMessageAbsent(AxisErrors(b, other, 9), m);
    CountMessageAppend(AxisErrors(b, Rows, 9), AxisErrors(b, Cols, 9), m);
  }

  /** A 1 in each of the first two cells of the top-left box's diagonal: no
      row or column repeats, so the board is reported valid, although the
      box holds 1 twice and 1 is not a candidate for (0, 0). */
  lemma BoxDuplicateGoesUnreported()
    ensures var b := Filled(0)[0 := Filled(0)[0][0 := 1]][1 := Filled(0)[1][1 := 1]];
      IsGrid(b) && NoRowColumnDuplicates(b) && ValidationErrors(b) == [] && !Allowed(b, 0, 0, 1)
  {
    var b := Filled(0)[0 := Filled(0)[0][0 := 1]][1 := Filled(0)[1][1 := 1]];
    assert forall i, j | InGrid(i, j) :: b[i][j] == (if (i == 0 && j == 0) || (i == 1 && j == 1) then 1 else 0);
    assert Peer(0, 0, 1, 1);
    ErrorsIffDuplicates(b);
  }
}
