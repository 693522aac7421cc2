/** The Connect-Four board of minimax.py: a ROW_COUNT x COLUMN_COUNT grid of
    cells holding EMPTY, PLAYER_PIECE or AI_PIECE, row 0 at the bottom.

    The live board is a numpy array that drop_piece updates in place; it is an
    `array2<int>` here.  Every specification talks about the value view of the
    array, `Grid(board)`, a sequence of rows. */
module Boards {

  const ROW_COUNT: int := 6
  const COLUMN_COUNT: int := 7
  const EMPTY: int := 0
  const PLAYER_PIECE: int := 1
  const AI_PIECE: int := 2

  datatype Option<T> = None | Some(value: T)

  /** A board as a value: rows indexed from the bottom, each a row of cells. */
  type Board = seq<seq<int>>

  predicate WellFormed(b: Board) {
    |b| == ROW_COUNT && forall r :: 0 <= r < |b| ==> |b[r]| == COLUMN_COUNT
  }

  predicate IsColumn(c: int) {
    0 <= c < COLUMN_COUNT
  }

  predicate InBounds(r: int, c: int) {
    0 <= r < ROW_COUNT && IsColumn(c)
  }

  /** The shape of the numpy array built by create_board. */
  predicate Shaped(a: array2<int>) {
    a.Length0 == ROW_COUNT && a.Length1 == COLUMN_COUNT
  }

  /** The first n cells of row r of the array. */
  ghost function GridRow(a: array2<int>, r: int, n: nat): (row: seq<int>)
    reads a
    requires Shaped(a) && 0 <= r < ROW_COUNT && n <= COLUMN_COUNT
    ensures |row| == n
  {
    if n == 0 then [] else GridRow(a, r, n - 1) + [a[r, n - 1]]
  }

  /** The first n rows of the array. */
  ghost function GridRows(a: array2<int>, n: nat): (rows: seq<seq<int>>)
    reads a
    requires Shaped(a) && n <= ROW_COUNT
    ensures |rows| == n && forall i :: 0 <= i < n ==> |rows[i]| == COLUMN_COUNT
  {
    if n == 0 then [] else GridRows(a, n - 1) + [GridRow(a, n - 1, COLUMN_COUNT)]
  }

  /** The value held by the array; GridCells relates it to the array's cells. */
  ghost function Grid(a: array2<int>): (g: Board)
    reads a
    requires Shaped(a)
    ensures WellFormed(g)
  {
    GridRows(a, ROW_COUNT)
  }

  lemma {:induction false} GridRowAt(a: array2<int>, r: int, n: nat, c: int)
    requires Shaped(a) && 0 <= r < ROW_COUNT && 0 <= c < n <= COLUMN_COUNT
    ensures GridRow(a, r, n)[c] == a[r, c]
  {
    if c < n - 1 {
      GridRowAt(a, r, n - 1, c);
    }
  }

  lemma {:induction false} GridRowsAt(a: array2<int>, n: nat, r: int)
    requires Shaped(a) && 0 <= r < n <= ROW_COUNT
    ensures GridRows(a, n)[r] == GridRow(a, r, COLUMN_COUNT)
  {
    if r < n - 1 {
      GridRowsAt(a, n - 1, r);
    }
  }

  /** Cell (r, c) of the value view is cell [r, c] of the array. */
  lemma GridCells(a: array2<int>)
    requires Shaped(a)
    ensures forall r, c :: InBounds(r, c) ==> Grid(a)[r][c] == a[r, c]
  {
    forall r, c | InBounds(r, c)
      ensures Grid(a)[r][c] == a[r, c]
    {
      GridRowsAt(a, ROW_COUNT, r);
      GridRowAt(a, r, COLUMN_COUNT, c);
    }
  }

  lemma GridEquality(g: Board, h: Board)
    requires WellFormed(g) && WellFormed(h)
    requires forall r, c :: InBounds(r, c) ==> g[r][c] == h[r][c]
    ensures g == h
  {
    forall r | 0 <= r < ROW_COUNT
      ensures g[r] == h[r]
    {
      assert forall c :: IsColumn(c) ==> g[r][c] == h[r][c];
    }
  }

  ghost function EmptyBoard(): (b: Board)
    ensures WellFormed(b)
    ensures forall r, c :: InBounds(r, c) ==> b[r][c] == EMPTY
  {
    seq(ROW_COUNT, r => seq(COLUMN_COUNT, c => EMPTY))
  }

  /** create_board: a fresh grid of empty cells. */
  method CreateBoard() returns (board: array2<int>)
    ensures fresh(board) && Shaped(board)
    ensures Grid(board) == EmptyBoard()
  {
    board := new int[ROW_COUNT, COLUMN_COUNT]((r, c) => EMPTY);
    GridCells(board);
    GridEquality(Grid(board), EmptyBoard());
  }

  /** numpy's board.copy(): a fresh array with the same cells. */
  method CopyBoard(board: array2<int>) returns (copy: array2<int>)
    requires Shaped(board)
    ensures fresh(copy) && Shaped(copy)
    ensures Grid(copy) == Grid(board)
  {
    copy := new int[ROW_COUNT, COLUMN_COUNT]((r, c) reads board =>
      if InBounds(r, c) then board[r, c] else EMPTY);
    GridCells(board);
    GridCells(copy);
    GridEquality(Grid(copy), Grid(board));
  }

  /** The board after setting one cell to piece. */
  function Place(b: Board, row: int, col: int, piece: int): (b': Board)
    requires WellFormed(b) && InBounds(row, col)
    ensures WellFormed(b')
    ensures b'[row][col] == piece
  {
    b[row := b[row][col := piece]]
  }

  /** Place changes the one cell it sets and no other. */
  lemma PlaceOnlyCell(b: Board, row: int, col: int, piece: int)
    requires WellFormed(b) && InBounds(row, col)
    ensures forall r, c :: InBounds(r, c) ==>
      Place(b, row, col, piece)[r][c] == if r == row && c == col then piece else b[r][c]
  {
  }

  /** drop_piece: sets board[row][col] in place and changes nothing else. */
  method DropPiece(board: array2<int>, row: int, col: int, piece: int)
    requires Shaped(board) && InBounds(row, col)
    modifies board
    ensures Grid(board) == Place(old(Grid(board)), row, col, piece)
  {
    ghost var before := Grid(board);
    GridCells(board);
    board[row, col] := piece;
    GridCells(board);
    GridEquality(Grid(board), Place(before, row, col, piece));
  }

  /** The top cell of column col is empty. */
  predicate IsOpen(b: Board, col: int)
    requires WellFormed(b) && IsColumn(col)
  {
    b[ROW_COUNT - 1][col] == EMPTY
  }

  /** The lowest row at or above `from` whose cell in column col is empty. */
  function OpenRowFrom(b: Board, col: int, from: nat): (row: Option<int>)
    requires WellFormed(b) && IsColumn(col) && from <= ROW_COUNT
    ensures row.Some? ==> from <= row.value < ROW_COUNT && b[row.value][col] == EMPTY
    ensures row.None? ==> from == ROW_COUNT || b[ROW_COUNT - 1][col] != EMPTY
    decreases ROW_COUNT - from
  {
    if from == ROW_COUNT then None
    else if b[from][col] == EMPTY then Some(from)
    else OpenRowFrom(b, col, from + 1)
  }

  /** get_next_open_row as a value: None when the column is full. */
  function NextOpenRow(b: Board, col: int): (row: Option<int>)
    requires WellFormed(b) && IsColumn(col)
    ensures IsOpen(b, col) ==> row.Some?
    ensures row.Some? ==> InBounds(row.value, col) && b[row.value][col] == EMPTY
  {
    OpenRowFrom(b, col, 0)
  }

  /** The search from row `from` stops at the first empty cell. */
  lemma {:induction false} OpenRowFromLowest(b: Board, col: int, from: nat)
    requires WellFormed(b) && IsColumn(col) && from <= ROW_COUNT
    ensures OpenRowFrom(b, col, from).Some? ==>
      forall r :: from <= r < OpenRowFrom(b, col, from).value ==> b[r][col] != EMPTY
    ensures OpenRowFrom(b, col, from).None? ==> forall r :: from <= r < ROW_COUNT ==> b[r][col] != EMPTY
    decreases ROW_COUNT - from
  {
    if from < ROW_COUNT && b[from][col] != EMPTY {
      OpenRowFromLowest(b, col, from + 1);
    }
  }

  /** get_next_open_row gives the lowest empty row of the column, and nothing
      exactly when every cell of the column is taken. */
  lemma NextOpenRowLowest(b: Board, col: int)
    requires WellFormed(b) && IsColumn(col)
    ensures NextOpenRow(b, col).Some? ==> forall r :: 0 <= r < NextOpenRow(b, col).value ==> b[r][col] != EMPTY
    ensures NextOpenRow(b, col).None? <==> forall r :: 0 <= r < ROW_COUNT ==> b[r][col] != EMPTY
  {
    OpenRowFromLowest(b, col, 0);
  }

  /** The board after dropping piece into an open column. */
  function Child(b: Board, col: int, piece: int): (b': Board)
    requires WellFormed(b) && IsColumn(col) && IsOpen(b, col)
    ensures WellFormed(b')
  {
    Place(b, NextOpenRow(b, col).value, col, piece)
  }

  /** Gravity: in every column the occupied cells form one block from row 0. */
  ghost predicate Gravity(b: Board)
    requires WellFormed(b)
  {
    forall r1, r2, c :: 0 <= r1 <= r2 < ROW_COUNT && IsColumn(c) && b[r2][c] != EMPTY ==> b[r1][c] != EMPTY
  }

  /** is_valid_location, read from the live array. */
  predicate IsValidLocation(board: array2<int>, col: int)
    reads board
    requires Shaped(board) && IsColumn(col)
    ensures IsValidLocation(board, col) == IsOpen(Grid(board), col)
  {
    GridCells(board);
    board[ROW_COUNT - 1, col] == EMPTY
  }

  /** get_next_open_row: scans column col upward and stops at the first empty cell. */
  method GetNextOpenRow(board: array2<int>, col: int) returns (row: Option<int>)
    requires Shaped(board) && IsColumn(col)
    ensures row == NextOpenRow(Grid(board), col)
  {
    ghost var g := Grid(board);
    GridCells(board);
    for r := 0 to ROW_COUNT
      invariant OpenRowFrom(g, col, r) == NextOpenRow(g, col)
    {
      if board[r, col] == EMPTY {
        return Some(r);
      }
    }
    return None;
  }

  /** cols is strictly ascending, each entry below the next. */
  predicate Ascending(cols: seq<int>) {
    |cols| < 2 || (cols[0] < cols[1] && Ascending(cols[1..]))
  }

  /** In an ascending list every earlier entry is below every later one. */
  lemma {:induction false} AscendingOrder(cols: seq<int>)
    requires Ascending(cols)
    ensures forall i, j :: 0 <= i < j < |cols| ==> cols[i] < cols[j]
  {
    if |cols| >= 2 {
      AscendingOrder(cols[1..]);
      forall i, j | 0 <= i < j < |cols|
        ensures cols[i] < cols[j]
      {
        assert cols[j] == cols[1..][j - 1];
        if i > 0 {
          assert cols[i] == cols[1..][i - 1];
        } else if j > 1 {
          assert cols[1] == cols[1..][0];
        }
      }
    }
  }

  /** Appending a value above the last entry keeps a list ascending. */
  lemma {:induction false} AscendingAppend(cols: seq<int>, x: int)
    requires Ascending(cols)
    requires cols != [] ==> cols[|cols| - 1] < x
    ensures Ascending(cols + [x])
  {
    if |cols| >= 2 {
      assert (cols + [x])[1..] == cols[1..] + [x];
      AscendingAppend(cols[1..], x);
    }
  }

  /** locs lists exactly the open columns of b, each once, in ascending order. */
  ghost predicate OpenColumns(b: Board, locs: seq<int>)
    requires WellFormed(b)
  {
    && (forall i :: 0 <= i < |locs| ==> IsColumn(locs[i]) && IsOpen(b, locs[i]))
    && (forall x :: IsColumn(x) && IsOpen(b, x) ==> x in locs)
    && Ascending(locs)
  }

  /** Two ascending lists with the same members are equal. */
  lemma {:induction false} AscendingUnique(s: seq<int>, t: seq<int>)
    requires Ascending(s) && Ascending(t)
    requires forall x :: x in s <==> x in t
    ensures s == t
    decreases |s|
  {
    if s != [] {
      var x := s[0];
      assert x in s;
    }
    if t != [] {
      var y := t[0];
      assert y in t;
    }
    if s != [] && t != [] {
      AscendingOrder(s);
      AscendingOrder(t);
      var j :| 0 <= j < |t| && t[j] == s[0];
      var k :| 0 <= k < |s| && s[k] == t[0];
      assert s[0] == t[0];
      forall x
        ensures x in s[1..] <==> x in t[1..]
      {
        if x in s[1..] {
          var i :| 1 <= i < |s| && s[i] == x;
          assert x in t && x != t[0];
        }
        if x in t[1..] {
          var i :| 1 <= i < |t| && t[i] == x;
          assert x in s && x != s[0];
        }
      }
      assert Ascending(s[1..]) && Ascending(t[1..]);
      AscendingUnique(s[1..], t[1..]);
      assert s[1..] == t[1..];
      assert s == [s[0]] + s[1..] && t == [t[0]] + t[1..];
    }
  }

  /** OpenColumns fixes the list: a board has exactly one list of its open columns. */
  lemma OpenColumnsUnique(b: Board, s: seq<int>, t: seq<int>)
    requires WellFormed(b) && OpenColumns(b, s) && OpenColumns(b, t)
    ensures s == t
  {
    forall x
      ensures x in s <==> x in t
    {
      if x in s {
        var i :| 0 <= i < |s| && s[i] == x;
      }
      if x in t {
        var i :| 0 <= i < |t| && t[i] == x;
      }
    }
    AscendingUnique(s, t);
  }

  /** There are at most COLUMN_COUNT valid locations. */
  lemma OpenColumnsBound(b: Board, locs: seq<int>)
    requires WellFormed(b) && OpenColumns(b, locs)
    ensures |locs| <= COLUMN_COUNT
  {
    StrictlyIncreasingBound(locs);
  }

  /** A strictly increasing sequence of columns has at most COLUMN_COUNT entries. */
  lemma {:induction false} StrictlyIncreasingBound(s: seq<int>)
    requires forall i :: 0 <= i < |s| ==> IsColumn(s[i])
    requires Ascending(s)
    ensures |s| <= COLUMN_COUNT
  {
    if |s| > 0 {
      StepBound(s, |s| - 1);
    }
  }

  lemma {:induction false} StepBound(s: seq<int>, i: nat)
    requires i < |s|
    requires Ascending(s)
    ensures s[0] + i <= s[i]
  {
    if i > 0 {
      StepBound(s[1..], i - 1);
    }
  }

  /** get_valid_locations: appends each valid column in ascending order. */
  method GetValidLocations(board: array2<int>) returns (locs: seq<int>)
    requires Shaped(board)
    ensures OpenColumns(Grid(board), locs)
  {
    ghost var g := Grid(board);
    locs := [];
    for col := 0 to COLUMN_COUNT
      invariant forall i :: 0 <= i < |locs| ==> 0 <= locs[i] < col && IsOpen(g, locs[i])
      invariant forall x :: 0 <= x < col && IsOpen(g, x) ==> x in locs
      invariant Ascending(locs)
    {
      if IsValidLocation(board, col) {
        AscendingAppend(locs, col);
        locs := locs + [col];
      }
    }
  }

  /** With gravity, the open row of a column sits on top of its pieces:
      every cell from it upward is empty. */
  lemma OpenRowIsHeight(b: Board, col: int)
    requires WellFormed(b) && IsColumn(col) && Gravity(b)
    requires NextOpenRow(b, col).Some?
    ensures forall r :: NextOpenRow(b, col).value <= r < ROW_COUNT ==> b[r][col] == EMPTY
  {
  }

  /** On a board that obeys gravity, a column is valid exactly when it still has
      an empty cell, so get_next_open_row succeeds exactly on valid columns. */
  lemma ValidIffOpenRow(b: Board, col: int)
    requires WellFormed(b) && IsColumn(col) && Gravity(b)
    ensures IsOpen(b, col) <==> NextOpenRow(b, col).Some?
  {
    if NextOpenRow(b, col).Some? {
      OpenRowIsHeight(b, col);
    }
  }

  /** A drop into a valid column, at the row get_next_open_row gives, keeps gravity
      and changes that one cell only. */
  lemma DropKeepsGravity(b: Board, col: int, piece: int)
    requires WellFormed(b) && IsColumn(col) && IsOpen(b, col) && Gravity(b)
    requires piece != EMPTY
    ensures Gravity(Child(b, col, piece))
    ensures Child(b, col, piece)[NextOpenRow(b, col).value][col] == piece
    ensures forall r, c :: InBounds(r, c) && (r != NextOpenRow(b, col).value || c != col) ==>
      Child(b, col, piece)[r][c] == b[r][c]
  {
    var h := NextOpenRow(b, col).value;
    var b' := Child(b, col, piece);
    OpenRowIsHeight(b, col);
    forall r1, r2, c | 0 <= r1 <= r2 < ROW_COUNT && IsColumn(c) && b'[r2][c] != EMPTY
      ensures b'[r1][c] != EMPTY
    {
      if c == col && r1 != h && r2 != h {
        assert b[r2][col] != EMPTY;
      }
    }
  }

  /** The empty board obeys gravity and every column is valid, so
      get_valid_locations lists all seven in order. */
  lemma EmptyBoardMoves(locs: seq<int>)
    requires OpenColumns(EmptyBoard(), locs)
    ensures Gravity(EmptyBoard())
    ensures locs == [0, 1, 2, 3, 4, 5, 6]
  {
    var all := [0, 1, 2, 3, 4, 5, 6];
    assert Ascending([5, 6]) && Ascending([4, 5, 6]) && Ascending([3, 4, 5, 6]);
    assert Ascending([2, 3, 4, 5, 6]) && Ascending([1, 2, 3, 4, 5, 6]) && Ascending(all);
    forall x | IsColumn(x)
      ensures x in all && IsOpen(EmptyBoard(), x)
    {
      assert all[x] == x;
    }
    assert OpenColumns(EmptyBoard(), all);
    OpenColumnsUnique(EmptyBoard(), locs, all);
  }
}
