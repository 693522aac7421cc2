/** What the windows of score_position are, and the heuristic's lack of a
    left/right bias: reflecting the board in its middle column leaves the
    score of either side unchanged. */
module Symmetry {
  import opened Boards
  import opened Wins
  import opened Heuristic

  /** The board reflected in its middle column: column c becomes column 6 - c. */
  function Mirror(b: Board): (m: Board)
    requires WellFormed(b)
    ensures Mirrored(b, m)
  {
    seq(ROW_COUNT, r requires 0 <= r < ROW_COUNT =>
      seq(COLUMN_COUNT, c requires 0 <= c < COLUMN_COUNT => b[r][COLUMN_COUNT - 1 - c]))
  }

  /** m is b reflected in its middle column. */
  ghost predicate Mirrored(b: Board, m: Board)
    requires WellFormed(b)
  {
    WellFormed(m) && forall r, c :: InBounds(r, c) ==> m[r][c] == b[r][COLUMN_COUNT - 1 - c]
  }

  /** Reflecting twice gives the board back. */
  lemma MirrorInvolution(b: Board)
    requires WellFormed(b)
    ensures Mirror(Mirror(b)) == b
  {
    var m := Mirror(Mirror(b));
    forall r | 0 <= r < ROW_COUNT
      ensures m[r] == b[r]
    {
      assert forall c :: IsColumn(c) ==> m[r][c] == b[r][c];
    }
  }

  // The windows are the runs of four cells winning_move looks for.

  /** The i-th window of the horizontal loop is the one at row i / 4, column i % 4. */
  lemma {:induction false} HorizontalLinesAt(b: Board, n: nat)
    requires WellFormed(b) && n <= ROW_COUNT
    ensures |HorizontalLines(b, n)| == 4 * n
    ensures forall r, c :: 0 <= r < n && 0 <= c < COLUMN_COUNT - 3 ==>
      HorizontalLines(b, n)[4 * r + c] == HorizontalWindow(b, r, c)
  {
    if n > 0 {
      HorizontalLinesAt(b, n - 1);
      var prev, last := HorizontalLines(b, n - 1), HorizontalLine(b, n - 1);
      assert HorizontalLines(b, n) == prev + last;
      forall r, c | 0 <= r < n && 0 <= c < COLUMN_COUNT - 3
        ensures HorizontalLines(b, n)[4 * r + c] == HorizontalWindow(b, r, c)
      {
        if r < n - 1 {
          assert 4 * r + c < |prev|;
        } else {
          assert HorizontalLines(b, n)[4 * r + c] == last[c];
        }
      }
    }
  }

  /** The i-th window of the vertical loop is the one at column i / 3, row i % 3. */
  lemma {:induction false} VerticalLinesAt(b: Board, n: nat)
    requires WellFormed(b) && n <= COLUMN_COUNT
    ensures |VerticalLines(b, n)| == 3 * n
    ensures forall c, r :: 0 <= c < n && 0 <= r < ROW_COUNT - 3 ==>
      VerticalLines(b, n)[3 * c + r] == VerticalWindow(b, c, r)
  {
    if n > 0 {
      VerticalLinesAt(b, n - 1);
      var prev, last := VerticalLines(b, n - 1), VerticalLine(b, n - 1);
      assert VerticalLines(b, n) == prev + last;
      forall c, r | 0 <= c < n && 0 <= r < ROW_COUNT - 3
        ensures VerticalLines(b, n)[3 * c + r] == VerticalWindow(b, c, r)
      {
        if c < n - 1 {
          assert 3 * c + r < |prev|;
        } else {
          assert VerticalLines(b, n)[3 * c + r] == last[r];
        }
      }
    }
  }

  /** The i-th window of the positive-diagonal loop starts at row i / 4, column i % 4. */
  lemma {:induction false} PositiveLinesAt(b: Board, n: nat)
    requires WellFormed(b) && n <= ROW_COUNT - 3
    ensures |PositiveLines(b, n)| == 4 * n
    ensures forall r, c :: 0 <= r < n && 0 <= c < COLUMN_COUNT - 3 ==>
      PositiveLines(b, n)[4 * r + c] == PositiveWindow(b, r, c)
  {
    if n > 0 {
      PositiveLinesAt(b, n - 1);
      var prev, last := PositiveLines(b, n - 1), PositiveLine(b, n - 1);
      assert PositiveLines(b, n) == prev + last;
      forall r, c | 0 <= r < n && 0 <= c < COLUMN_COUNT - 3
        ensures PositiveLines(b, n)[4 * r + c] == PositiveWindow(b, r, c)
      {
        if r < n - 1 {
          assert 4 * r + c < |prev|;
        } else {
          assert PositiveLines(b, n)[4 * r + c] == last[c];
        }
      }
    }
  }

  /** The i-th window of the negative-diagonal loop is taken at row i / 4, column i % 4. */
  lemma {:induction false} NegativeLinesAt(b: Board, n: nat)
    requires WellFormed(b) && n <= ROW_COUNT - 3
    ensures |NegativeLines(b, n)| == 4 * n
    ensures forall r, c :: 0 <= r < n && 0 <= c < COLUMN_COUNT - 3 ==>
      NegativeLines(b, n)[4 * r + c] == NegativeWindow(b, r, c)
  {
    if n > 0 {
      NegativeLinesAt(b, n - 1);
      var prev, last := NegativeLines(b, n - 1), NegativeLine(b, n - 1);
      assert NegativeLines(b, n) == prev + last;
      forall r, c | 0 <= r < n && 0 <= c < COLUMN_COUNT - 3
        ensures NegativeLines(b, n)[4 * r + c] == NegativeWindow(b, r, c)
      {
        if r < n - 1 {
          assert 4 * r + c < |prev|;
        } else {
          assert NegativeLines(b, n)[4 * r + c] == last[c];
        }
      }
    }
  }

  /** Every window score_position scores is the four cells of one run that
      winning_move checks: it is full of piece exactly when that run is. */
  lemma WindowIsRun(b: Board, r: int, c: int, piece: int)
    requires WellFormed(b)
    ensures 0 <= r < ROW_COUNT && 0 <= c < COLUMN_COUNT - 3 ==>
      (HorizontalWindow(b, r, c) == [piece, piece, piece, piece] <==> RunAt(b, piece, r, c, Horizontal))
    ensures 0 <= r < ROW_COUNT - 3 && IsColumn(c) ==>
      (VerticalWindow(b, c, r) == [piece, piece, piece, piece] <==> RunAt(b, piece, r, c, Vertical))
    ensures 0 <= r < ROW_COUNT - 3 && 0 <= c < COLUMN_COUNT - 3 ==>
      (PositiveWindow(b, r, c) == [piece, piece, piece, piece] <==> RunAt(b, piece, r, c, DiagonalUp))
    ensures 0 <= r < ROW_COUNT - 3 && 0 <= c < COLUMN_COUNT - 3 ==>
      (NegativeWindow(b, r, c) == [piece, piece, piece, piece] <==> RunAt(b, piece, r + 3, c, DiagonalDown))
  {
  }

  // Reflection.

  /** evaluate_window only counts, so the order of the cells does not matter. */
  lemma SameCellsSameScore(w1: seq<int>, w2: seq<int>, piece: int)
    requires multiset(w1) == multiset(w2)
    ensures EvaluateWindow(w1, piece) == EvaluateWindow(w2, piece)
  {
    CountIsMultiplicity(w1, piece);
    CountIsMultiplicity(w2, piece);
    CountIsMultiplicity(w1, EMPTY);
    CountIsMultiplicity(w2, EMPTY);
    CountIsMultiplicity(w1, Opponent(piece));
    CountIsMultiplicity(w2, Opponent(piece));
  }

  /** The score of four windows, written out. */
  lemma SumOfFour(ws: seq<seq<int>>, piece: int)
    requires |ws| == 4
    ensures SumScores(ws, piece) == EvaluateWindow(ws[0], piece) + EvaluateWindow(ws[1], piece)
      + EvaluateWindow(ws[2], piece) + EvaluateWindow(ws[3], piece)
  {
    SumScoresStep(ws, 0, piece);
    SumScoresStep(ws, 1, piece);
    SumScoresStep(ws, 2, piece);
    SumScoresStep(ws, 3, piece);
    assert ws[..0] == [];
    assert ws[..4] == ws;
  }

  /** A window of four cells read in the opposite direction. */
  function Reversed(v: seq<int>): (w: seq<int>)
    requires |v| == 4
    ensures multiset(w) == multiset(v)
  {
    assert v == [v[0], v[1], v[2], v[3]];
    [v[3], v[2], v[1], v[0]]
  }

  /** Four windows, each of which reads the matching window of four others
      backwards, from the other end, score the same in total. */
  lemma ReversedFour(ws: seq<seq<int>>, vs: seq<seq<int>>, piece: int)
    requires |ws| == 4 && |vs| == 4
    requires forall i :: 0 <= i < 4 ==> |vs[3 - i]| == 4 && ws[i] == Reversed(vs[3 - i])
    ensures SumScores(ws, piece) == SumScores(vs, piece)
  {
    SumOfFour(ws, piece);
    SumOfFour(vs, piece);
    SameCellsSameScore(ws[0], vs[3], piece);
    SameCellsSameScore(ws[1], vs[2], piece);
    SameCellsSameScore(ws[2], vs[1], piece);
    SameCellsSameScore(ws[3], vs[0], piece);
  }

  /** The horizontal window of a reflected row at column c reads the window
      at column 3 - c backwards. */
  lemma HorizontalWindowMirror(b: Board, m: Board, row: int, c: int)
    requires WellFormed(b) && 0 <= row < ROW_COUNT && 0 <= c < COLUMN_COUNT - 3
    requires Mirrored(b, m)
    ensures HorizontalWindow(m, row, c) == Reversed(HorizontalWindow(b, row, 3 - c))
  {
    var w, v := HorizontalWindow(m, row, c), HorizontalWindow(b, row, 3 - c);
    assert w[0] == v[3] && w[1] == v[2] && w[2] == v[1] && w[3] == v[0];
  }

  /** A positive diagonal of the reflected board reads the negative diagonal
      at column 3 - c backwards. */
  lemma PositiveWindowMirror(b: Board, m: Board, row: int, c: int)
    requires WellFormed(b) && 0 <= row < ROW_COUNT - 3 && 0 <= c < COLUMN_COUNT - 3
    requires Mirrored(b, m)
    ensures PositiveWindow(m, row, c) == Reversed(NegativeWindow(b, row, 3 - c))
  {
    var w, v := PositiveWindow(m, row, c), NegativeWindow(b, row, 3 - c);
    assert w[0] == v[3] && w[1] == v[2] && w[2] == v[1] && w[3] == v[0];
  }

  /** A negative diagonal of the reflected board reads the positive diagonal
      at column 3 - c backwards. */
  lemma NegativeWindowMirror(b: Board, m: Board, row: int, c: int)
    requires WellFormed(b) && 0 <= row < ROW_COUNT - 3 && 0 <= c < COLUMN_COUNT - 3
    requires Mirrored(b, m)
    ensures NegativeWindow(m, row, c) == Reversed(PositiveWindow(b, row, 3 - c))
  {
    var w, v := NegativeWindow(m, row, c), PositiveWindow(b, row, 3 - c);
    assert w[0] == v[3] && w[1] == v[2] && w[2] == v[1] && w[3] == v[0];
  }

  /** A reflected row has the windows of the row in reverse order, each reversed. */
  lemma HorizontalLineMirror(b: Board, m: Board, row: int, piece: int)
    requires WellFormed(b) && 0 <= row < ROW_COUNT
    requires Mirrored(b, m)
    ensures SumScores(HorizontalLine(m, row), piece) == SumScores(HorizontalLine(b, row), piece)
  {
    forall i | 0 <= i < 4
      ensures HorizontalLine(m, row)[i] == Reversed(HorizontalLine(b, row)[3 - i])
    {
      HorizontalWindowMirror(b, m, row, i);
    }
    ReversedFour(HorizontalLine(m, row), HorizontalLine(b, row), piece);
  }

  /** A reflected positive diagonal is a negative diagonal of the board, reversed. */
  lemma PositiveLineMirror(b: Board, m: Board, row: int, piece: int)
    requires WellFormed(b) && 0 <= row < ROW_COUNT - 3
    requires Mirrored(b, m)
    ensures SumScores(PositiveLine(m, row), piece) == SumScores(NegativeLine(b, row), piece)
  {
    forall i | 0 <= i < 4
      ensures PositiveLine(m, row)[i] == Reversed(NegativeLine(b, row)[3 - i])
    {
      PositiveWindowMirror(b, m, row, i);
    }
    ReversedFour(PositiveLine(m, row), NegativeLine(b, row), piece);
  }

  /** A reflected negative diagonal is a positive diagonal of the board, reversed. */
  lemma NegativeLineMirror(b: Board, m: Board, row: int, piece: int)
    requires WellFormed(b) && 0 <= row < ROW_COUNT - 3
    requires Mirrored(b, m)
    ensures SumScores(NegativeLine(m, row), piece) == SumScores(PositiveLine(b, row), piece)
  {
    forall i | 0 <= i < 4
      ensures NegativeLine(m, row)[i] == Reversed(PositiveLine(b, row)[3 - i])
    {
      NegativeWindowMirror(b, m, row, i);
    }
    ReversedFour(NegativeLine(m, row), PositiveLine(b, row), piece);
  }

  /** A reflected column is the column at the mirrored position. */
  lemma VerticalLineMirror(b: Board, m: Board, col: int)
    requires WellFormed(b) && IsColumn(col)
    requires Mirrored(b, m)
    ensures VerticalLine(m, col) == VerticalLine(b, COLUMN_COUNT - 1 - col)
  {
  }

  /** The horizontal total, row by row. */
  lemma HorizontalTotal(b: Board, piece: int)
    requires WellFormed(b)
    ensures SumScores(HorizontalLines(b, ROW_COUNT), piece) ==
      SumScores(HorizontalLine(b, 0), piece) + SumScores(HorizontalLine(b, 1), piece) +
      SumScores(HorizontalLine(b, 2), piece) + SumScores(HorizontalLine(b, 3), piece) +
      SumScores(HorizontalLine(b, 4), piece) + SumScores(HorizontalLine(b, 5), piece)
  {
    assert HorizontalLines(b, 0) == [];
    SumScoresAppend(HorizontalLines(b, 0), HorizontalLine(b, 0), piece);
    SumScoresAppend(HorizontalLines(b, 1), HorizontalLine(b, 1), piece);
    SumScoresAppend(HorizontalLines(b, 2), HorizontalLine(b, 2), piece);
    SumScoresAppend(HorizontalLines(b, 3), HorizontalLine(b, 3), piece);
    SumScoresAppend(HorizontalLines(b, 4), HorizontalLine(b, 4), piece);
    SumScoresAppend(HorizontalLines(b, 5), HorizontalLine(b, 5), piece);
  }

  /** The positive-diagonal total, row by row. */
  lemma PositiveTotal(b: Board, piece: int)
    requires WellFormed(b)
    ensures SumScores(PositiveLines(b, ROW_COUNT - 3), piece) ==
      SumScores(PositiveLine(b, 0), piece) + SumScores(PositiveLine(b, 1), piece) +
      SumScores(PositiveLine(b, 2), piece)
  {
    assert PositiveLines(b, 0) == [];
    SumScoresAppend(PositiveLines(b, 0), PositiveLine(b, 0), piece);
    SumScoresAppend(PositiveLines(b, 1), PositiveLine(b, 1), piece);
    SumScoresAppend(PositiveLines(b, 2), PositiveLine(b, 2), piece);
  }

  /** The negative-diagonal total, row by row. */
  lemma NegativeTotal(b: Board, piece: int)
    requires WellFormed(b)
    ensures SumScores(NegativeLines(b, ROW_COUNT - 3), piece) ==
      SumScores(NegativeLine(b, 0), piece) + SumScores(NegativeLine(b, 1), piece) +
      SumScores(NegativeLine(b, 2), piece)
  {
    assert NegativeLines(b, 0) == [];
    SumScoresAppend(NegativeLines(b, 0), NegativeLine(b, 0), piece);
    SumScoresAppend(NegativeLines(b, 1), NegativeLine(b, 1), piece);
    SumScoresAppend(NegativeLines(b, 2), NegativeLine(b, 2), piece);
  }

  /** The rows of a reflected board score as its rows. */
  lemma HorizontalMirror(b: Board, m: Board, piece: int)
    requires WellFormed(b)
    requires Mirrored(b, m)
    ensures SumScores(HorizontalWindows(m), piece) == SumScores(HorizontalWindows(b), piece)
  {
    HorizontalTotal(b, piece);
    HorizontalTotal(m, piece);
    forall row | 0 <= row < ROW_COUNT
      ensures SumScores(HorizontalLine(m, row), piece) == SumScores(HorizontalLine(b, row), piece)
    {
      HorizontalLineMirror(b, m, row, piece);
    }
  }

  /** The positive diagonals of a reflected board score as the board's
      negative diagonals. */
  lemma PositiveMirror(b: Board, m: Board, piece: int)
    requires WellFormed(b)
    requires Mirrored(b, m)
    ensures SumScores(PositiveWindows(m), piece) == SumScores(NegativeWindows(b), piece)
  {
    PositiveTotal(m, piece);
    NegativeTotal(b, piece);
    forall row | 0 <= row < ROW_COUNT - 3
      ensures SumScores(PositiveLine(m, row), piece) == SumScores(NegativeLine(b, row), piece)
    {
      PositiveLineMirror(b, m, row, piece);
    }
  }

  /** The negative diagonals of a reflected board score as the board's
      positive diagonals. */
  lemma NegativeMirror(b: Board, m: Board, piece: int)
    requires WellFormed(b)
    requires Mirrored(b, m)
    ensures SumScores(NegativeWindows(m), piece) == SumScores(PositiveWindows(b), piece)
  {
    NegativeTotal(m, piece);
    PositiveTotal(b, piece);
    forall row | 0 <= row < ROW_COUNT - 3
      ensures SumScores(NegativeLine(m, row), piece) == SumScores(PositiveLine(b, row), piece)
    {
      NegativeLineMirror(b, m, row, piece);
    }
  }

  /** The vertical total, column by column. */
  lemma VerticalTotal(b: Board, piece: int)
    requires WellFormed(b)
    ensures SumScores(VerticalWindows(b), piece) ==
      SumScores(VerticalLine(b, 0), piece) + SumScores(VerticalLine(b, 1), piece) +
      SumScores(VerticalLine(b, 2), piece) + SumScores(VerticalLine(b, 3), piece) +
      SumScores(VerticalLine(b, 4), piece) + SumScores(VerticalLine(b, 5), piece) +
      SumScores(VerticalLine(b, 6), piece)
  {
    assert VerticalLines(b, 0) == [];
    SumScoresAppend(VerticalLines(b, 0), VerticalLine(b, 0), piece);
    SumScoresAppend(VerticalLines(b, 1), VerticalLine(b, 1), piece);
    SumScoresAppend(VerticalLines(b, 2), VerticalLine(b, 2), piece);
    SumScoresAppend(VerticalLines(b, 3), VerticalLine(b, 3), piece);
    SumScoresAppend(VerticalLines(b, 4), VerticalLine(b, 4), piece);
    SumScoresAppend(VerticalLines(b, 5), VerticalLine(b, 5), piece);
    SumScoresAppend(VerticalLines(b, 6), VerticalLine(b, 6), piece);
  }

  /** The columns of a reflected board are its columns in reverse order. */
  lemma VerticalMirror(b: Board, m: Board, piece: int)
    requires WellFormed(b)
    requires Mirrored(b, m)
    ensures SumScores(VerticalWindows(m), piece) == SumScores(VerticalWindows(b), piece)
  {
    VerticalTotal(b, piece);
    VerticalTotal(m, piece);
    forall col | IsColumn(col)
      ensures VerticalLine(m, col) == VerticalLine(b, COLUMN_COUNT - 1 - col)
    {
      VerticalLineMirror(b, m, col);
    }
  }

  /** The total over all windows split by direction. */
  lemma WindowsTotal(b: Board, piece: int)
    requires WellFormed(b)
    ensures SumScores(Windows(b), piece) ==
      SumScores(HorizontalWindows(b), piece) + SumScores(VerticalWindows(b), piece) +
      SumScores(PositiveWindows(b), piece) + SumScores(NegativeWindows(b), piece)
  {
    var h, v, p, n := HorizontalWindows(b), VerticalWindows(b), PositiveWindows(b), NegativeWindows(b);
    SumScoresAppend(h + v + p, n, piece);
    SumScoresAppend(h + v, p, piece);
    SumScoresAppend(h, v, piece);
  }

  /** score_position has no left/right bias: the reflected board scores the same
      for either side. */
  lemma MirrorScore(b: Board, piece: int)
    requires WellFormed(b)
    ensures BoardScore(Mirror(b), piece) == BoardScore(b, piece)
  {
    var p := if piece == AI_PIECE then AI_PIECE else PLAYER_PIECE;
    WindowsTotal(b, p);
    WindowsTotal(Mirror(b), p);
    HorizontalMirror(b, Mirror(b), p);
    VerticalMirror(b, Mirror(b), p);
    PositiveMirror(b, Mirror(b), p);
    NegativeMirror(b, Mirror(b), p);
  }
}
