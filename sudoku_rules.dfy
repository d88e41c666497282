/** The candidate-digit rule of Sudoku, as the client checks it for one cell:
    a digit may go at (row, col) unless another cell of the same row, column
    or 3x3 box already holds it. The per-digit scan is written twice in the
    source (the digit popover and the mock hint service); here it is one
    method, IsDigitAllowed, that both callers share. */
module SudokuRules {
  import opened Types

  /** First row (or column) of the 3x3 box holding row (or column) k. */
  function BoxStart(k: int): int
  {
    (k / 3) * 3
  }

  /** (i, j) is a cell other than (row, col) in its row, column or box. */
  predicate Peer(row: int, col: int, i: int, j: int)
  {
    InGrid(i, j) && (i != row || j != col) &&
    (i == row || j == col || (BoxStart(i) == BoxStart(row) && BoxStart(j) == BoxStart(col)))
  }

  /** The declarative rule: no peer of (row, col) holds d. */
  ghost predicate Allowed(b: Board, row: int, col: int, d: int)
    requires IsGrid(b)
  {
    forall i, j | Peer(row, col, i, j) :: b[i][j] != d
  }

  /** What the row loop checks: no other cell of the row holds d. */
  ghost predicate RowClear(b: Board, row: int, col: int, d: int)
    requires IsGrid(b) && InGrid(row, col)
  {
    forall j | 0 <= j < 9 && j != col :: b[row][j] != d
  }

  /** What the column loop checks: no other cell of the column holds d. */
  ghost predicate ColClear(b: Board, row: int, col: int, d: int)
    requires IsGrid(b) && InGrid(row, col)
  {
    forall i | 0 <= i < 9 && i != row :: b[i][col] != d
  }

  /** What the box loop checks: it skips every cell sharing the target's row
      OR column, not only the target itself. */
  ghost predicate BoxClear(b: Board, row: int, col: int, d: int)
    requires IsGrid(b) && InGrid(row, col)
  {
    forall i, j |
      BoxStart(row) <= i < BoxStart(row) + 3 && BoxStart(col) <= j < BoxStart(col) + 3 &&
      i != row && j != col
      :: b[i][j] != d
  }

  /** The cells the box loop skips are exactly those the row and column loops
      already covered, so the three loops together decide the full rule. */
  lemma BoxSkipCovered(b: Board, row: int, col: int, d: int)
    requires IsGrid(b) && InGrid(row, col)
    ensures RowClear(b, row, col, d) && ColClear(b, row, col, d) && BoxClear(b, row, col, d)
            <==> Allowed(b, row, col, d)
  {
  }

  /** The digits of 1..n-1, ascending, whose Allowed verdict is `allowed`.
      (Naming b in the decreases clause keeps the verifier from unfolding a
      call with a literal n all the way down.) */
  ghost function Digits(b: Board, row: int, col: int, n: int, allowed: bool): seq<int>
    requires IsGrid(b)
    decreases n, b
  {
    if n <= 1 then []
    else Digits(b, row, col, n - 1, allowed) + (if Allowed(b, row, col, n - 1) == allowed then [n - 1] else [])
  }

  /** The candidate list for (row, col): allowed digits of 1..9 in ascending order. */
  ghost function ValidDigits(b: Board, row: int, col: int): seq<int>
    requires IsGrid(b)
  {
    Digits(b, row, col, 10, true)
  }

  /** The rejected digits of 1..9 in ascending order. */
  ghost function RejectedDigits(b: Board, row: int, col: int): seq<int>
    requires IsGrid(b)
  {
    Digits(b, row, col, 10, false)
  }

  predicate StrictlyAscending(s: seq<int>)
  {
    forall p, q | 0 <= p < q < |s| :: s[p] < s[q]
  }

  lemma {:induction false} DigitsMembership(b: Board, row: int, col: int, n: int, allowed: bool, d: int)
    requires IsGrid(b)
    ensures d in Digits(b, row, col, n, allowed) <==> 1 <= d < n && Allowed(b, row, col, d) == allowed
    decreases n
  {
    if n > 1 {
      DigitsMembership(b, row, col, n - 1, allowed, d);
    }
  }

  lemma {:induction false} DigitsShape(b: Board, row: int, col: int, n: int, allowed: bool)
    requires IsGrid(b)
    ensures StrictlyAscending(Digits(b, row, col, n, allowed))
    ensures forall k | 0 <= k < |Digits(b, row, col, n, allowed)| ::
              1 <= Digits(b, row, col, n, allowed)[k] < n
    decreases n
  {
    if n > 1 {
      DigitsShape(b, row, col, n - 1, allowed);
    }
  }

  /** The candidate list: d is listed iff d is in 1..9 and no peer holds d;
      it is strictly ascending, so free of duplicates. */
  lemma ValidDigitsSpec(b: Board, row: int, col: int)
    requires IsGrid(b)
    ensures forall d :: d in ValidDigits(b, row, col) <==> 1 <= d <= 9 && Allowed(b, row, col, d)
    ensures StrictlyAscending(ValidDigits(b, row, col))
  {
    forall d ensures d in ValidDigits(b, row, col) <==> 1 <= d <= 9 && Allowed(b, row, col, d) {
      DigitsMembership(b, row, col, 10, true, d);
    }
    DigitsShape(b, row, col, 10, true);
  }

  /** The valid and the rejected lists split 1..9: disjoint, both ascending,
      together exactly the nine digits. */
  lemma HintPartition(b: Board, row: int, col: int)
    requires IsGrid(b)
    ensures StrictlyAscending(ValidDigits(b, row, col)) && StrictlyAscending(RejectedDigits(b, row, col))
    ensures forall d :: d in ValidDigits(b, row, col) ==> d !in RejectedDigits(b, row, col)
    ensures forall d :: (d in ValidDigits(b, row, col) || d in RejectedDigits(b, row, col)) <==> 1 <= d <= 9
    ensures |ValidDigits(b, row, col)| + |RejectedDigits(b, row, col)| == 9
  {
    DigitsShape(b, row, col, 10, true);
    DigitsShape(b, row, col, 10, false);
    forall d ensures (d in ValidDigits(b, row, col) <==> 1 <= d <= 9 && Allowed(b, row, col, d))
                  && (d in RejectedDigits(b, row, col) <==> 1 <= d <= 9 && !Allowed(b, row, col, d))
    {
      DigitsMembership(b, row, col, 10, true, d);
      DigitsMembership(b, row, col, 10, false, d);
    }
    DigitsCount(b, row, col, 10);
  }

  lemma {:induction false} DigitsCount(b: Board, row: int, col: int, n: int)
    requires IsGrid(b) && n >= 1
    ensures |Digits(b, row, col, n, true)| + |Digits(b, row, col, n, false)| == n - 1
    decreases n
  {
    if n > 1 {
      DigitsCount(b, row, col, n - 1);
    }
  }

  /** The verdict for (row, col) ignores what (row, col) itself holds. */
  lemma AllowedIgnoresOwnCell(b: Board, row: int, col: int, v: int, d: int)
    requires IsGrid(b) && InGrid(row, col)
    ensures IsGrid(b[row := b[row][col := v]])
    ensures Allowed(b[row := b[row][col := v]], row, col, d) == Allowed(b, row, col, d)
  {
  }

  /** Hence the candidate list ignores it too. */
  lemma {:induction false} DigitsIgnoreOwnCell(b: Board, row: int, col: int, v: int, n: int, allowed: bool)
    requires IsGrid(b) && InGrid(row, col)
    ensures IsGrid(b[row := b[row][col := v]])
    ensures Digits(b[row := b[row][col := v]], row, col, n, allowed) == Digits(b, row, col, n, allowed)
    decreases n
  {
    AllowedIgnoresOwnCell(b, row, col, v, n - 1);
    if n > 1 {
      DigitsIgnoreOwnCell(b, row, col, v, n - 1, allowed);
    }
  }

  lemma ValidDigitsIgnoreOwnCell(b: Board, row: int, col: int, v: int)
    requires IsGrid(b) && InGrid(row, col)
    ensures IsGrid(b[row := b[row][col := v]])
    ensures ValidDigits(b[row := b[row][col := v]], row, col) == ValidDigits(b, row, col)
  {
    DigitsIgnoreOwnCell(b, row, col, v, 10, true);
  }

  /** The scan both candidate computations run for one digit: the row loop,
      then (if still valid) the column loop, then (if still valid) the box
      loop, each leaving at its first conflict. */
  method IsDigitAllowed(board: Board, row: int, col: int, num: int) returns (isValid: bool)
    requires IsGrid(board) && InGrid(row, col)
    ensures isValid == Allowed(board, row, col, num)
  {
    isValid := true;

    // Check row
    var j := 0;
    while j < 9
      invariant 0 <= j <= 9
      invariant forall k | 0 <= k < j && k != col :: board[row][k] != num
    {
      if j != col && board[row][j] == num {
        isValid := false;
        break;
      }
      j := j + 1;
    }
    assert isValid == RowClear(board, row, col, num);

    // Check column
    if isValid {
      var i := 0;
      while i < 9
        invariant 0 <= i <= 9
        invariant forall k | 0 <= k < i && k != row :: board[k][col] != num
      {
        if i != row && board[i][col] == num {
          isValid := false;
          break;
        }
        i := i + 1;
      }
      assert isValid == ColClear(board, row, col, num);
    }

    // Check 3x3 box
    if isValid {
      var startRow := BoxStart(row);
      var startCol := BoxStart(col);
      var i := startRow;
      while i < startRow + 3
        invariant startRow <= i <= startRow + 3
        invariant isValid
        invariant forall p, q |
                    startRow <= p < i && startCol <= q < startCol + 3 && p != row && q != col
                    :: board[p][q] != num
      {
        var j := startCol;
        while j < startCol + 3
          invariant startCol <= j <= startCol + 3
          invariant isValid
          invariant forall q | startCol <= q < j && i != row && q != col :: board[i][q] != num
        {
          if i != row && j != col && board[i][j] == num {
            isValid := false;
            break;
          }
          j := j + 1;
        }
        if !isValid {
          assert !BoxClear(board, row, col, num);
          break;
        }
        i := i + 1;
      }
      assert isValid == BoxClear(board, row, col, num);
    }

    BoxSkipCovered(board, row, col, num);
  }
}
