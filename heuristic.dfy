/** The positional heuristic of minimax.py: evaluate_window scores one run of
    four cells, score_position sums it over every such run on the board. */
module Heuristic {
  import opened Boards

  const WINDOW_LENGTH: int := 4

  /** The number of windows score_position visits in each direction. */
  const HORIZONTAL_WINDOWS: int := ROW_COUNT * (COLUMN_COUNT - 3)
  const VERTICAL_WINDOWS: int := COLUMN_COUNT * (ROW_COUNT - 3)
  const DIAGONAL_WINDOWS: int := (ROW_COUNT - 3) * (COLUMN_COUNT - 3)
  const WINDOW_COUNT: int := HORIZONTAL_WINDOWS + VERTICAL_WINDOWS + 2 * DIAGONAL_WINDOWS

  /** Python's list.count: how many times x occurs in s. */
  function Count(s: seq<int>, x: int): nat {
    if s == [] then 0 else Count(s[..|s| - 1], x) + (if s[|s| - 1] == x then 1 else 0)
  }

  /** The piece evaluate_window treats as the opponent of piece. */
  function Opponent(piece: int): int {
    if piece == AI_PIECE then PLAYER_PIECE else AI_PIECE
  }

  /** evaluate_window: a bonus for piece's own three kinds of window, minus a
      penalty for an open three of the opponent. */
  function EvaluateWindow(window: seq<int>, piece: int): (score: int)
    ensures |window| == WINDOW_LENGTH ==> score in {100, 5, 2, 0, -4}
  {
    var own := Count(window, piece);
    var empty := Count(window, EMPTY);
    var bonus :=
      if own == 4 then 100
      else if own == 3 && empty == 1 then 5
      else if own == 2 && empty == 2 then 2
      else 0;
    var penalty := if Count(window, Opponent(piece)) == 3 && empty == 1 then 4 else 0;
    CountPair(window, piece, Opponent(piece));
    bonus - penalty
  }

  /** Two different values occur at most |s| times together. */
  lemma {:induction false} CountPair(s: seq<int>, x: int, y: int)
    requires x != y
    ensures Count(s, x) + Count(s, y) <= |s|
  {
    if s != [] {
      CountPair(s[..|s| - 1], x, y);
    }
  }

  /** Three different values occur at most |s| times together. */
  lemma {:induction false} CountTriple(s: seq<int>, x: int, y: int, z: int)
    requires x != y && y != z && x != z
    ensures Count(s, x) + Count(s, y) + Count(s, z) <= |s|
  {
    if s != [] {
      CountTriple(s[..|s| - 1], x, y, z);
    }
  }

  /** Count agrees with multiset multiplicity. */
  lemma {:induction false} CountIsMultiplicity(s: seq<int>, x: int)
    ensures Count(s, x) == multiset(s)[x]
  {
    if s != [] {
      CountIsMultiplicity(s[..|s| - 1], x);
      assert s == s[..|s| - 1] + [s[|s| - 1]];
    }
  }

  /** When x and y fill every cell of a window, its multiset is fixed by how
      often each of them occurs. */
  lemma FilledBy(window: seq<int>, x: int, y: int, m: multiset<int>)
    requires x != y
    requires Count(window, x) + Count(window, y) == |window|
    requires m[x] == Count(window, x) && m[y] == Count(window, y)
    requires forall z :: z != x && z != y ==> m[z] == 0
    ensures multiset(window) == m
  {
    CountIsMultiplicity(window, x);
    CountIsMultiplicity(window, y);
    forall z | z != x && z != y
      ensures multiset(window)[z] == 0
    {
      CountIsMultiplicity(window, z);
      CountTriple(window, x, y, z);
    }
    assert forall z :: multiset(window)[z] == m[z];
  }

  /** evaluate_window by its counts: at most one of its cases applies to a
      window of four cells. */
  lemma WindowCases(window: seq<int>, piece: int)
    requires |window| == WINDOW_LENGTH
    requires piece == PLAYER_PIECE || piece == AI_PIECE
    ensures var own, empty, opp := Count(window, piece), Count(window, EMPTY), Count(window, Opponent(piece));
      && (EvaluateWindow(window, piece) == 100 <==> own == 4)
      && (EvaluateWindow(window, piece) == 5 <==> own == 3 && empty == 1)
      && (EvaluateWindow(window, piece) == 2 <==> own == 2 && empty == 2)
      && (EvaluateWindow(window, piece) == -4 <==> opp == 3 && empty == 1)
  {
    CountPair(window, piece, Opponent(piece));
    CountPair(window, piece, EMPTY);
    CountTriple(window, piece, Opponent(piece), EMPTY);
  }

  /** A window's multiset has i copies of x and the rest y exactly when x
      occurs i times and y the other 4 - i times. */
  lemma SplitWindow(window: seq<int>, x: int, y: int, m: multiset<int>)
    requires |window| == WINDOW_LENGTH && x != y
    requires m[x] + m[y] == WINDOW_LENGTH
    requires forall z :: z != x && z != y ==> m[z] == 0
    ensures multiset(window) == m <==> Count(window, x) == m[x] && Count(window, y) == m[y]
  {
    CountIsMultiplicity(window, x);
    CountIsMultiplicity(window, y);
    if Count(window, x) == m[x] && Count(window, y) == m[y] {
      FilledBy(window, x, y, m);
    }
  }

  /** The lookup table of evaluate_window, stated on the multiset of the window's
      cells: four own pieces score 100, three own and an empty 5, two own and two
      empty 2, three opponent pieces and an empty -4, anything else 0. */
  lemma WindowTable(window: seq<int>, piece: int)
    requires |window| == WINDOW_LENGTH
    requires piece == PLAYER_PIECE || piece == AI_PIECE
    ensures EvaluateWindow(window, piece) == 100 <==> multiset(window) == multiset{piece, piece, piece, piece}
    ensures EvaluateWindow(window, piece) == 5 <==> multiset(window) == multiset{piece, piece, piece, EMPTY}
    ensures EvaluateWindow(window, piece) == 2 <==> multiset(window) == multiset{piece, piece, EMPTY, EMPTY}
    ensures EvaluateWindow(window, piece) == -4 <==>
      multiset(window) == multiset{Opponent(piece), Opponent(piece), Opponent(piece), EMPTY}
    ensures EvaluateWindow(window, piece) in {100, 5, 2, 0, -4}
  {
    var opp := Opponent(piece);
    WindowCases(window, piece);
    CountPair(window, piece, EMPTY);
    SplitWindow(window, piece, EMPTY, multiset{piece, piece, piece, piece});
    SplitWindow(window, piece, EMPTY, multiset{piece, piece, piece, EMPTY});
    SplitWindow(window, piece, EMPTY, multiset{piece, piece, EMPTY, EMPTY});
    SplitWindow(window, opp, EMPTY, multiset{opp, opp, opp, EMPTY});
  }

  // The windows score_position builds, in the order it visits them.

  function HorizontalWindow(b: Board, row: int, col: int): seq<int>
    requires WellFormed(b) && 0 <= row < ROW_COUNT && 0 <= col < COLUMN_COUNT - 3
  {
    [b[row][col], b[row][col + 1], b[row][col + 2], b[row][col + 3]]
  }

  function VerticalWindow(b: Board, col: int, row: int): seq<int>
    requires WellFormed(b) && 0 <= row < ROW_COUNT - 3 && 0 <= col < COLUMN_COUNT
  {
    [b[row][col], b[row + 1][col], b[row + 2][col], b[row + 3][col]]
  }

  function PositiveWindow(b: Board, row: int, col: int): seq<int>
    requires WellFormed(b) && 0 <= row < ROW_COUNT - 3 && 0 <= col < COLUMN_COUNT - 3
  {
    [b[row][col], b[row + 1][col + 1], b[row + 2][col + 2], b[row + 3][col + 3]]
  }

  function NegativeWindow(b: Board, row: int, col: int): seq<int>
    requires WellFormed(b) && 0 <= row < ROW_COUNT - 3 && 0 <= col < COLUMN_COUNT - 3
  {
    [b[row + 3][col], b[row + 2][col + 1], b[row + 1][col + 2], b[row][col + 3]]
  }

  /** The windows of one row (horizontal, diagonal) or one column (vertical),
      in the order of the inner loop. */
  function HorizontalLine(b: Board, row: int): seq<seq<int>>
    requires WellFormed(b) && 0 <= row < ROW_COUNT
  {
    seq(COLUMN_COUNT - 3, col requires 0 <= col < COLUMN_COUNT - 3 => HorizontalWindow(b, row, col))
  }

  function VerticalLine(b: Board, col: int): seq<seq<int>>
    requires WellFormed(b) && 0 <= col < COLUMN_COUNT
  {
    seq(ROW_COUNT - 3, row requires 0 <= row < ROW_COUNT - 3 => VerticalWindow(b, col, row))
  }

  function PositiveLine(b: Board, row: int): seq<seq<int>>
    requires WellFormed(b) && 0 <= row < ROW_COUNT - 3
  {
    seq(COLUMN_COUNT - 3, col requires 0 <= col < COLUMN_COUNT - 3 => PositiveWindow(b, row, col))
  }

  function NegativeLine(b: Board, row: int): seq<seq<int>>
    requires WellFormed(b) && 0 <= row < ROW_COUNT - 3
  {
    seq(COLUMN_COUNT - 3, col requires 0 <= col < COLUMN_COUNT - 3 => NegativeWindow(b, row, col))
  }

  /** The windows of the first n iterations of the outer loop, in order. */
  function HorizontalLines(b: Board, n: nat): seq<seq<int>>
    requires WellFormed(b) && n <= ROW_COUNT
  {
    if n == 0 then [] else HorizontalLines(b, n - 1) + HorizontalLine(b, n - 1)
  }

  function VerticalLines(b: Board, n: nat): seq<seq<int>>
    requires WellFormed(b) && n <= COLUMN_COUNT
  {
    if n == 0 then [] else VerticalLines(b, n - 1) + VerticalLine(b, n - 1)
  }

  function PositiveLines(b: Board, n: nat): seq<seq<int>>
    requires WellFormed(b) && n <= ROW_COUNT - 3
  {
    if n == 0 then [] else PositiveLines(b, n - 1) + PositiveLine(b, n - 1)
  }

  function NegativeLines(b: Board, n: nat): seq<seq<int>>
    requires WellFormed(b) && n <= ROW_COUNT - 3
  {
    if n == 0 then [] else NegativeLines(b, n - 1) + NegativeLine(b, n - 1)
  }

  /** Rows outermost, then the four starting columns of each row. */
  function HorizontalWindows(b: Board): seq<seq<int>>
    requires WellFormed(b)
  {
    HorizontalLines(b, ROW_COUNT)
  }

  /** Columns outermost, then the three starting rows of each column. */
  function VerticalWindows(b: Board): seq<seq<int>>
    requires WellFormed(b)
  {
    VerticalLines(b, COLUMN_COUNT)
  }

  function PositiveWindows(b: Board): seq<seq<int>>
    requires WellFormed(b)
  {
    PositiveLines(b, ROW_COUNT - 3)
  }

  function NegativeWindows(b: Board): seq<seq<int>>
    requires WellFormed(b)
  {
    NegativeLines(b, ROW_COUNT - 3)
  }

  /** Every window score_position scores, in order. */
  function Windows(b: Board): seq<seq<int>>
    requires WellFormed(b)
  {
    HorizontalWindows(b) + VerticalWindows(b) + PositiveWindows(b) + NegativeWindows(b)
  }

  /** Every window in ws has WINDOW_LENGTH cells. */
  ghost predicate FourCells(ws: seq<seq<int>>) {
    forall i :: 0 <= i < |ws| ==> |ws[i]| == WINDOW_LENGTH
  }

  lemma {:induction false} HorizontalLinesShape(b: Board, n: nat)
    requires WellFormed(b) && n <= ROW_COUNT
    ensures |HorizontalLines(b, n)| == (COLUMN_COUNT - 3) * n && FourCells(HorizontalLines(b, n))
  {
    if n > 0 {
      HorizontalLinesShape(b, n - 1);
    }
  }

  lemma {:induction false} VerticalLinesShape(b: Board, n: nat)
    requires WellFormed(b) && n <= COLUMN_COUNT
    ensures |VerticalLines(b, n)| == (ROW_COUNT - 3) * n && FourCells(VerticalLines(b, n))
  {
    if n > 0 {
      VerticalLinesShape(b, n - 1);
    }
  }

  lemma {:induction false} PositiveLinesShape(b: Board, n: nat)
    requires WellFormed(b) && n <= ROW_COUNT - 3
    ensures |PositiveLines(b, n)| == (COLUMN_COUNT - 3) * n && FourCells(PositiveLines(b, n))
  {
    if n > 0 {
      PositiveLinesShape(b, n - 1);
    }
  }

  lemma {:induction false} NegativeLinesShape(b: Board, n: nat)
    requires WellFormed(b) && n <= ROW_COUNT - 3
    ensures |NegativeLines(b, n)| == (COLUMN_COUNT - 3) * n && FourCells(NegativeLines(b, n))
  {
    if n > 0 {
      NegativeLinesShape(b, n - 1);
    }
  }

  /** score_position visits 24 horizontal, 21 vertical and twice 12 diagonal
      windows, 69 in all, each of WINDOW_LENGTH cells. */
  lemma WindowCount(b: Board)
    requires WellFormed(b)
    ensures |HorizontalWindows(b)| == HORIZONTAL_WINDOWS == 24
    ensures |VerticalWindows(b)| == VERTICAL_WINDOWS == 21
    ensures |PositiveWindows(b)| == |NegativeWindows(b)| == DIAGONAL_WINDOWS == 12
    ensures |Windows(b)| == WINDOW_COUNT == 69
    ensures FourCells(Windows(b))
  {
    HorizontalLinesShape(b, ROW_COUNT);
    VerticalLinesShape(b, COLUMN_COUNT);
    PositiveLinesShape(b, ROW_COUNT - 3);
    NegativeLinesShape(b, ROW_COUNT - 3);
  }

  /** The sum of evaluate_window over a list of windows. */
  function SumScores(ws: seq<seq<int>>, piece: int): int {
    if ws == [] then 0 else SumScores(ws[..|ws| - 1], piece) + EvaluateWindow(ws[|ws| - 1], piece)
  }

  lemma SumScoresStep(ws: seq<seq<int>>, k: nat, piece: int)
    requires k < |ws|
    ensures SumScores(ws[..k + 1], piece) == SumScores(ws[..k], piece) + EvaluateWindow(ws[k], piece)
  {
    assert ws[..k + 1][..k] == ws[..k];
  }

  lemma {:induction false} SumScoresAppend(xs: seq<seq<int>>, ys: seq<seq<int>>, piece: int)
    ensures SumScores(xs + ys, piece) == SumScores(xs, piece) + SumScores(ys, piece)
    decreases |ys|
  {
    if ys != [] {
      var ys' := ys[..|ys| - 1];
      var zs := xs + ys;
      assert zs[..|zs| - 1] == xs + ys';
      assert zs[|zs| - 1] == ys[|ys| - 1];
      SumScoresAppend(xs, ys', piece);
    } else {
      assert xs + ys == xs;
    }
  }

  /** A sum of n windows of four cells lies between -4n and 100n. */
  lemma {:induction false} SumScoresBounds(ws: seq<seq<int>>, piece: int)
    requires FourCells(ws)
    ensures -4 * |ws| <= SumScores(ws, piece) <= 100 * |ws|
  {
    if ws != [] {
      SumScoresBounds(ws[..|ws| - 1], piece);
    }
  }

  /** score_position as a value: the total for AI_PIECE when piece is
      AI_PIECE, the total for PLAYER_PIECE otherwise. */
  function BoardScore(b: Board, piece: int): int
    requires WellFormed(b)
  {
    SumScores(Windows(b), if piece == AI_PIECE then AI_PIECE else PLAYER_PIECE)
  }

  /** 69 windows of at most +100 and at least -4 each. */
  lemma ScoreBounds(b: Board, piece: int)
    requires WellFormed(b)
    ensures -276 <= BoardScore(b, piece) <= 6900
  {
    WindowCount(b);
    SumScoresBounds(Windows(b), if piece == AI_PIECE then AI_PIECE else PLAYER_PIECE);
  }

  // The slices score_position takes from the live board.

  method ReadHorizontal(board: array2<int>, row: int, col: int) returns (window: seq<int>)
    requires Shaped(board) && 0 <= row < ROW_COUNT && 0 <= col < COLUMN_COUNT - 3
    ensures window == HorizontalWindow(Grid(board), row, col)
  {
    GridCells(board);
    window := [board[row, col], board[row, col + 1], board[row, col + 2], board[row, col + 3]];
  }

  method ReadVertical(board: array2<int>, col: int, row: int) returns (window: seq<int>)
    requires Shaped(board) && 0 <= row < ROW_COUNT - 3 && 0 <= col < COLUMN_COUNT
    ensures window == VerticalWindow(Grid(board), col, row)
  {
    GridCells(board);
    window := [board[row, col], board[row + 1, col], board[row + 2, col], board[row + 3, col]];
  }

  method ReadPositive(board: array2<int>, row: int, col: int) returns (window: seq<int>)
    requires Shaped(board) && 0 <= row < ROW_COUNT - 3 && 0 <= col < COLUMN_COUNT - 3
    ensures window == PositiveWindow(Grid(board), row, col)
  {
    GridCells(board);
    window := [board[row, col], board[row + 1, col + 1], board[row + 2, col + 2], board[row + 3, col + 3]];
  }

  method ReadNegative(board: array2<int>, row: int, col: int) returns (window: seq<int>)
    requires Shaped(board) && 0 <= row < ROW_COUNT - 3 && 0 <= col < COLUMN_COUNT - 3
    ensures window == NegativeWindow(Grid(board), row, col)
  {
    GridCells(board);
    window := [board[row + 3, col], board[row + 2, col + 1], board[row + 1, col + 2], board[row, col + 3]];
  }

  /** The horizontal loop of score_position: rows outermost. */
  method ScoreHorizontal(board: array2<int>) returns (aiScore: int, playerScore: int)
    requires Shaped(board)
    ensures aiScore == SumScores(HorizontalWindows(Grid(board)), AI_PIECE)
    ensures playerScore == SumScores(HorizontalWindows(Grid(board)), PLAYER_PIECE)
  {
    ghost var g := Grid(board);
    aiScore, playerScore := 0, 0;
    for row := 0 to ROW_COUNT
      invariant aiScore == SumScores(HorizontalLines(g, row), AI_PIECE)
      invariant playerScore == SumScores(HorizontalLines(g, row), PLAYER_PIECE)
    {
      ghost var line := HorizontalLine(g, row);
      for col := 0 to COLUMN_COUNT - 3
        invariant aiScore == SumScores(HorizontalLines(g, row), AI_PIECE) + SumScores(line[..col], AI_PIECE)
        invariant playerScore == SumScores(HorizontalLines(g, row), PLAYER_PIECE) + SumScores(line[..col], PLAYER_PIECE)
      {
        var window := ReadHorizontal(board, row, col);
        SumScoresStep(line, col, AI_PIECE);
        SumScoresStep(line, col, PLAYER_PIECE);
        aiScore := aiScore + EvaluateWindow(window, AI_PIECE);
        playerScore := playerScore + EvaluateWindow(window, PLAYER_PIECE);
      }
      assert line[..COLUMN_COUNT - 3] == line;
      SumScoresAppend(HorizontalLines(g, row), line, AI_PIECE);
      SumScoresAppend(HorizontalLines(g, row), line, PLAYER_PIECE);
    }
  }

  /** The vertical loop of score_position: columns outermost. */
  method ScoreVertical(board: array2<int>) returns (aiScore: int, playerScore: int)
    requires Shaped(board)
    ensures aiScore == SumScores(VerticalWindows(Grid(board)), AI_PIECE)
    ensures playerScore == SumScores(VerticalWindows(Grid(board)), PLAYER_PIECE)
  {
    ghost var g := Grid(board);
    aiScore, playerScore := 0, 0;
    for col := 0 to COLUMN_COUNT
      invariant aiScore == SumScores(VerticalLines(g, col), AI_PIECE)
      invariant playerScore == SumScores(VerticalLines(g, col), PLAYER_PIECE)
    {
      ghost var line := VerticalLine(g, col);
      for row := 0 to ROW_COUNT - 3
        invariant aiScore == SumScores(VerticalLines(g, col), AI_PIECE) + SumScores(line[..row], AI_PIECE)
        invariant playerScore == SumScores(VerticalLines(g, col), PLAYER_PIECE) + SumScores(line[..row], PLAYER_PIECE)
      {
        var window := ReadVertical(board, col, row);
        SumScoresStep(line, row, AI_PIECE);
        SumScoresStep(line, row, PLAYER_PIECE);
        aiScore := aiScore + EvaluateWindow(window, AI_PIECE);
        playerScore := playerScore + EvaluateWindow(window, PLAYER_PIECE);
      }
      assert line[..ROW_COUNT - 3] == line;
      SumScoresAppend(VerticalLines(g, col), line, AI_PIECE);
      SumScoresAppend(VerticalLines(g, col), line, PLAYER_PIECE);
    }
  }

  /** The positively sloped diagonal loop of score_position. */
  method ScorePositiveDiagonals(board: array2<int>) returns (aiScore: int, playerScore: int)
    requires Shaped(board)
    ensures aiScore == SumScores(PositiveWindows(Grid(board)), AI_PIECE)
    ensures playerScore == SumScores(PositiveWindows(Grid(board)), PLAYER_PIECE)
  {
    ghost var g := Grid(board);
    aiScore, playerScore := 0, 0;
    for row := 0 to ROW_COUNT - 3
      invariant aiScore == SumScores(PositiveLines(g, row), AI_PIECE)
      invariant playerScore == SumScores(PositiveLines(g, row), PLAYER_PIECE)
    {
      ghost var line := PositiveLine(g, row);
      for col := 0 to COLUMN_COUNT - 3
        invariant aiScore == SumScores(PositiveLines(g, row), AI_PIECE) + SumScores(line[..col], AI_PIECE)
        invariant playerScore == SumScores(PositiveLines(g, row), PLAYER_PIECE) + SumScores(line[..col], PLAYER_PIECE)
      {
        var window := ReadPositive(board, row, col);
        SumScoresStep(line, col, AI_PIECE);
        SumScoresStep(line, col, PLAYER_PIECE);
        aiScore := aiScore + EvaluateWindow(window, AI_PIECE);
        playerScore := playerScore + EvaluateWindow(window, PLAYER_PIECE);
      }
      assert line[..COLUMN_COUNT - 3] == line;
      SumScoresAppend(PositiveLines(g, row), line, AI_PIECE);
      SumScoresAppend(PositiveLines(g, row), line, PLAYER_PIECE);
    }
  }

  /** The negatively sloped diagonal loop of score_position. */
  method ScoreNegativeDiagonals(board: array2<int>) returns (aiScore: int, playerScore: int)
    requires Shaped(board)
    ensures aiScore == SumScores(NegativeWindows(Grid(board)), AI_PIECE)
    ensures playerScore == SumScores(NegativeWindows(Grid(board)), PLAYER_PIECE)
  {
    ghost var g := Grid(board);
    aiScore, playerScore := 0, 0;
    for row := 0 to ROW_COUNT - 3
      invariant aiScore == SumScores(NegativeLines(g, row), AI_PIECE)
      invariant playerScore == SumScores(NegativeLines(g, row), PLAYER_PIECE)
    {
      ghost var line := NegativeLine(g, row);
      for col := 0 to COLUMN_COUNT - 3
        invariant aiScore == SumScores(NegativeLines(g, row), AI_PIECE) + SumScores(line[..col], AI_PIECE)
        invariant playerScore == SumScores(NegativeLines(g, row), PLAYER_PIECE) + SumScores(line[..col], PLAYER_PIECE)
      {
        var window := ReadNegative(board, row, col);
        SumScoresStep(line, col, AI_PIECE);
        SumScoresStep(line, col, PLAYER_PIECE);
        aiScore := aiScore + EvaluateWindow(window, AI_PIECE);
        playerScore := playerScore + EvaluateWindow(window, PLAYER_PIECE);
      }
      assert line[..COLUMN_COUNT - 3] == line;
      SumScoresAppend(NegativeLines(g, row), line, AI_PIECE);
      SumScoresAppend(NegativeLines(g, row), line, PLAYER_PIECE);
    }
  }

  /** score_position: accumulates the scores of both sides over all windows
      and returns the one asked for. */
  method ScorePosition(board: array2<int>, piece: int) returns (score: int)
    requires Shaped(board)
    ensures score == BoardScore(Grid(board), piece)
    ensures -276 <= score <= 6900
  {
    ghost var g := Grid(board);
    var aiH, playerH := ScoreHorizontal(board);
    var aiV, playerV := ScoreVertical(board);
    var aiP, playerP := ScorePositiveDiagonals(board);
    var aiN, playerN := ScoreNegativeDiagonals(board);
    var aiScore := aiH + aiV + aiP + aiN;
    var playerScore := playerH + playerV + playerP + playerN;
    ghost var hs, vs, ps, ns := HorizontalWindows(g), VerticalWindows(g), PositiveWindows(g), NegativeWindows(g);
    SumScoresAppend(hs, vs, AI_PIECE);
    SumScoresAppend(hs + vs, ps, AI_PIECE);
    SumScoresAppend(hs + vs + ps, ns, AI_PIECE);
    SumScoresAppend(hs, vs, PLAYER_PIECE);
    SumScoresAppend(hs + vs, ps, PLAYER_PIECE);
    SumScoresAppend(hs + vs + ps, ns, PLAYER_PIECE);
    ScoreBounds(g, piece);
    score := if piece == AI_PIECE then aiScore else playerScore;
  }
}
