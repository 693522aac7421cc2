/** Four-in-a-row detection (winning_move) and the terminal test
    (is_terminal_node) of minimax.py. */
module Wins {
  import opened Boards

  /** The four directions a run can take, each a step (row, column). */
  datatype Direction = Horizontal | Vertical | DiagonalUp | DiagonalDown

  function RowStep(d: Direction): int {
    match d
    case Horizontal => 0
    case Vertical => 1
    case DiagonalUp => 1
    case DiagonalDown => -1
  }

  function ColumnStep(d: Direction): int {
    match d
    case Horizontal => 1
    case Vertical => 0
    case DiagonalUp => 1
    case DiagonalDown => 1
  }

  /** Cell (r, c) is on the board and holds piece. */
  predicate Holds(b: Board, r: int, c: int, piece: int)
    requires WellFormed(b)
  {
    InBounds(r, c) && b[r][c] == piece
  }

  /** The four cells from (r, c) in direction d are all on the board and all hold piece. */
  predicate RunAt(b: Board, piece: int, r: int, c: int, d: Direction)
    requires WellFormed(b)
  {
    Holds(b, r, c, piece) &&
    Holds(b, r + RowStep(d), c + ColumnStep(d), piece) &&
    Holds(b, r + 2 * RowStep(d), c + 2 * ColumnStep(d), piece) &&
    Holds(b, r + 3 * RowStep(d), c + 3 * ColumnStep(d), piece)
  }

  /** A run of piece in some direction starts at (r, c). */
  predicate RunStartsAt(b: Board, piece: int, r: int, c: int)
    requires WellFormed(b)
  {
    RunAt(b, piece, r, c, Horizontal) || RunAt(b, piece, r, c, Vertical) ||
    RunAt(b, piece, r, c, DiagonalUp) || RunAt(b, piece, r, c, DiagonalDown)
  }

  /** A run of piece starts in row r at one of the first n columns. */
  predicate RunInRow(b: Board, piece: int, r: int, n: nat)
    requires WellFormed(b) && n <= COLUMN_COUNT
  {
    n > 0 && (RunInRow(b, piece, r, n - 1) || RunStartsAt(b, piece, r, n - 1))
  }

  /** A run of piece starts in one of the first n rows. */
  predicate RunInRows(b: Board, piece: int, n: nat)
    requires WellFormed(b) && n <= ROW_COUNT
  {
    n > 0 && (RunInRows(b, piece, n - 1) || RunInRow(b, piece, n - 1, COLUMN_COUNT))
  }

  /** piece has four in a row somewhere on the board, in any direction;
      HasFourIff restates it as an existential over starts and directions. */
  predicate HasFour(b: Board, piece: int)
    requires WellFormed(b)
  {
    RunInRows(b, piece, ROW_COUNT)
  }

  lemma {:induction false} RunStartsAtIff(b: Board, piece: int, r: int, c: int)
    requires WellFormed(b)
    ensures RunStartsAt(b, piece, r, c) <==> exists d :: RunAt(b, piece, r, c, d)
  {
    if exists d :: RunAt(b, piece, r, c, d) {
      var d :| RunAt(b, piece, r, c, d);
      match d
      case Horizontal =>
      case Vertical =>
      case DiagonalUp =>
      case DiagonalDown =>
    }
  }

  lemma {:induction false} RunInRowIff(b: Board, piece: int, r: int, n: nat)
    requires WellFormed(b) && n <= COLUMN_COUNT
    ensures RunInRow(b, piece, r, n) <==> exists c, d :: 0 <= c < n && RunAt(b, piece, r, c, d)
    decreases n
  {
    if n > 0 {
      RunInRowIff(b, piece, r, n - 1);
      RunStartsAtIff(b, piece, r, n - 1);
    }
  }

  lemma {:induction false} RunInRowsIff(b: Board, piece: int, n: nat)
    requires WellFormed(b) && n <= ROW_COUNT
    ensures RunInRows(b, piece, n) <==> exists r, c, d :: 0 <= r < n && 0 <= c < COLUMN_COUNT && RunAt(b, piece, r, c, d)
    decreases n
  {
    if n > 0 {
      RunInRowsIff(b, piece, n - 1);
      RunInRowIff(b, piece, n - 1, COLUMN_COUNT);
    }
  }

  /** HasFour holds exactly when some four cells in a line all hold piece. */
  lemma HasFourIff(b: Board, piece: int)
    requires WellFormed(b)
    ensures HasFour(b, piece) <==> exists r, c, d :: RunAt(b, piece, r, c, d)
  {
    RunInRowsIff(b, piece, ROW_COUNT);
  }

  /** No column has an empty top cell. */
  ghost predicate NoValidColumn(b: Board)
    requires WellFormed(b)
  {
    forall c :: IsColumn(c) ==> !IsOpen(b, c)
  }

  /** The game is over: either side has four in a row, or no move is left. */
  ghost predicate Terminal(b: Board)
    requires WellFormed(b)
  {
    HasFour(b, PLAYER_PIECE) || HasFour(b, AI_PIECE) || NoValidColumn(b)
  }

  /** The first loop of winning_move: horizontal runs, columns 0..3 outermost. */
  method ScanHorizontal(board: array2<int>, piece: int) returns (found: bool)
    requires Shaped(board)
    ensures found <==> exists c, r :: 0 <= c < COLUMN_COUNT - 3 && 0 <= r < ROW_COUNT && RunAt(Grid(board), piece, r, c, Horizontal)
  {
    ghost var g := Grid(board);
    GridCells(board);
    for c := 0 to COLUMN_COUNT - 3
      invariant forall c', r' :: 0 <= c' < c && 0 <= r' < ROW_COUNT ==> !RunAt(g, piece, r', c', Horizontal)
    {
      for r := 0 to ROW_COUNT
        invariant forall c', r' :: 0 <= c' < c && 0 <= r' < ROW_COUNT ==> !RunAt(g, piece, r', c', Horizontal)
        invariant forall r' :: 0 <= r' < r ==> !RunAt(g, piece, r', c, Horizontal)
      {
        assert RunAt(g, piece, r, c, Horizontal) <==>
          g[r][c] == piece && g[r][c + 1] == piece && g[r][c + 2] == piece && g[r][c + 3] == piece;
        if board[r, c] == piece && board[r, c + 1] == piece && board[r, c + 2] == piece && board[r, c + 3] == piece {
          return true;
        }
      }
    }
    return false;
  }

  /** The second loop of winning_move: vertical runs, rows 0..2 as start. */
  method ScanVertical(board: array2<int>, piece: int) returns (found: bool)
    requires Shaped(board)
    ensures found <==> exists c, r :: 0 <= c < COLUMN_COUNT && 0 <= r < ROW_COUNT - 3 && RunAt(Grid(board), piece, r, c, Vertical)
  {
    ghost var g := Grid(board);
    GridCells(board);
    for c := 0 to COLUMN_COUNT
      invariant forall c', r' :: 0 <= c' < c && 0 <= r' < ROW_COUNT - 3 ==> !RunAt(g, piece, r', c', Vertical)
    {
      for r := 0 to ROW_COUNT - 3
        invariant forall c', r' :: 0 <= c' < c && 0 <= r' < ROW_COUNT - 3 ==> !RunAt(g, piece, r', c', Vertical)
        invariant forall r' :: 0 <= r' < r ==> !RunAt(g, piece, r', c, Vertical)
      {
        assert RunAt(g, piece, r, c, Vertical) <==>
          g[r][c] == piece && g[r + 1][c] == piece && g[r + 2][c] == piece && g[r + 3][c] == piece;
        if board[r, c] == piece && board[r + 1, c] == piece && board[r + 2, c] == piece && board[r + 3, c] == piece {
          return true;
        }
      }
    }
    return false;
  }

  /** The third loop of winning_move: positively sloped diagonals. */
  method ScanDiagonalUp(board: array2<int>, piece: int) returns (found: bool)
    requires Shaped(board)
    ensures found <==> exists c, r :: 0 <= c < COLUMN_COUNT - 3 && 0 <= r < ROW_COUNT - 3 && RunAt(Grid(board), piece, r, c, DiagonalUp)
  {
    ghost var g := Grid(board);
    GridCells(board);
    for c := 0 to COLUMN_COUNT - 3
      invariant forall c', r' :: 0 <= c' < c && 0 <= r' < ROW_COUNT - 3 ==> !RunAt(g, piece, r', c', DiagonalUp)
    {
      for r := 0 to ROW_COUNT - 3
        invariant forall c', r' :: 0 <= c' < c && 0 <= r' < ROW_COUNT - 3 ==> !RunAt(g, piece, r', c', DiagonalUp)
        invariant forall r' :: 0 <= r' < r ==> !RunAt(g, piece, r', c, DiagonalUp)
      {
        assert RunAt(g, piece, r, c, DiagonalUp) <==>
          g[r][c] == piece && g[r + 1][c + 1] == piece && g[r + 2][c + 2] == piece && g[r + 3][c + 3] == piece;
        if board[r, c] == piece && board[r + 1, c + 1] == piece && board[r + 2, c + 2] == piece && board[r + 3, c + 3] == piece {
          return true;
        }
      }
    }
    return false;
  }

  /** The fourth loop of winning_move: negatively sloped diagonals, rows 3..5 as start. */
  method ScanDiagonalDown(board: array2<int>, piece: int) returns (found: bool)
    requires Shaped(board)
    ensures found <==> exists c, r :: 0 <= c < COLUMN_COUNT - 3 && 3 <= r < ROW_COUNT && RunAt(Grid(board), piece, r, c, DiagonalDown)
  {
    ghost var g := Grid(board);
    GridCells(board);
    for c := 0 to COLUMN_COUNT - 3
      invariant forall c', r' :: 0 <= c' < c && 3 <= r' < ROW_COUNT ==> !RunAt(g, piece, r', c', DiagonalDown)
    {
      for r := 3 to ROW_COUNT
        invariant forall c', r' :: 0 <= c' < c && 3 <= r' < ROW_COUNT ==> !RunAt(g, piece, r', c', DiagonalDown)
        invariant forall r' :: 3 <= r' < r ==> !RunAt(g, piece, r', c, DiagonalDown)
      {
        assert RunAt(g, piece, r, c, DiagonalDown) <==>
          g[r][c] == piece && g[r - 1][c + 1] == piece && g[r - 2][c + 2] == piece && g[r - 3][c + 3] == piece;
        if board[r, c] == piece && board[r - 1, c + 1] == piece && board[r - 2, c + 2] == piece && board[r - 3, c + 3] == piece {
          return true;
        }
      }
    }
    return false;
  }

  /** winning_move: tries horizontal, vertical, then both diagonal runs and
      stops at the first one found.  Every index it reads is on the board. */
  method WinningMove(board: array2<int>, piece: int) returns (won: bool)
    requires Shaped(board)
    ensures won <==> HasFour(Grid(board), piece)
  {
    HasFourIff(Grid(board), piece);
    won := ScanHorizontal(board, piece);
    if won { return; }
    won := ScanVertical(board, piece);
    if won { return; }
    won := ScanDiagonalUp(board, piece);
    if won { return; }
    won := ScanDiagonalDown(board, piece);
    if !won {
      NoRunOutsideScan(Grid(board), piece);
    }
  }

  /** Every run on the board starts inside the ranges winning_move scans for its
      direction, so finding none there means there is none at all. */
  lemma NoRunOutsideScan(b: Board, piece: int)
    requires WellFormed(b)
    requires forall c, r :: 0 <= c < COLUMN_COUNT - 3 && 0 <= r < ROW_COUNT ==> !RunAt(b, piece, r, c, Horizontal)
    requires forall c, r :: 0 <= c < COLUMN_COUNT && 0 <= r < ROW_COUNT - 3 ==> !RunAt(b, piece, r, c, Vertical)
    requires forall c, r :: 0 <= c < COLUMN_COUNT - 3 && 0 <= r < ROW_COUNT - 3 ==> !RunAt(b, piece, r, c, DiagonalUp)
    requires forall c, r :: 0 <= c < COLUMN_COUNT - 3 && 3 <= r < ROW_COUNT ==> !RunAt(b, piece, r, c, DiagonalDown)
    ensures !HasFour(b, piece)
  {
    HasFourIff(b, piece);
    forall r, c, d
      ensures !RunAt(b, piece, r, c, d)
    {
    }
  }

  /** is_terminal_node: a win for either side, or no valid location left. */
  method IsTerminalNode(board: array2<int>) returns (terminal: bool)
    requires Shaped(board)
    ensures terminal <==> Terminal(Grid(board))
  {
    var playerWins := WinningMove(board, PLAYER_PIECE);
    var aiWins := WinningMove(board, AI_PIECE);
    var locs := GetValidLocations(board);
    NoValidColumnIffNoMoves(Grid(board), locs);
    terminal := playerWins || aiWins || |locs| == 0;
  }

  /** The board has no valid column exactly when get_valid_locations is empty. */
  lemma NoValidColumnIffNoMoves(b: Board, locs: seq<int>)
    requires WellFormed(b) && OpenColumns(b, locs)
    ensures NoValidColumn(b) <==> locs == []
  {
    if locs != [] {
      assert IsOpen(b, locs[0]);
    }
  }

  /** The empty board has no run of any piece other than EMPTY and is not terminal. */
  lemma EmptyBoardNotTerminal(piece: int)
    requires piece != EMPTY
    ensures !HasFour(EmptyBoard(), piece)
    ensures !Terminal(EmptyBoard())
  {
    HasFourIff(EmptyBoard(), piece);
    HasFourIff(EmptyBoard(), AI_PIECE);
    HasFourIff(EmptyBoard(), PLAYER_PIECE);
    assert IsOpen(EmptyBoard(), 0);
  }
}
