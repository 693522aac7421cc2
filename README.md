# Connect-Four decision engine

A Dafny model of the game engine in `minimax.py`. Two sides drop pieces into a
grid of 6 rows and 7 columns. The bottom row is row 0. A piece settles in the
lowest empty cell of its column. The first side to get four in a line
(horizontal, vertical or either diagonal) wins.

The engine is modelled in five modules:

- `Boards` (`boards.dfy`) covers the board itself.
  - The numpy grid is an `array2<int>` that `DropPiece` changes in place.
  - Every method over the array is specified against `Grid(board)`, its value
    as a `seq<seq<int>>`.
  - This module also has the valid columns, the next open row and gravity.
- `Wins` (`wins.dfy`) covers `winning_move` and `is_terminal_node`.
  - `winning_move` is four scanning loops.
  - They are proved equal to `HasFour`, a run of four in any direction from
    any start.
- `Heuristic` (`heuristic.dfy`) covers the positional score.
  - `evaluate_window` is stated as its table of values.
  - The 69 windows that `score_position` visits are listed as a sequence, in
    the source's visiting order.
  - The loops of `score_position` are proved to sum `evaluate_window` over
    that sequence.
- `Symmetry` (`symmetry.dfy`) covers what those windows are and a property of
  the score.
  - The i-th window of each loop is the window at the position the loop
    counters give. Each window holds the four cells of one run that
    `winning_move` tests.
  - The score has no left/right bias: reflecting the board in its middle
    column leaves the score of either side unchanged.
- `Search` (`search.dfy`) covers the move search.
  - `pick_best_move` is proved to return the first valid column whose drop
    scores highest.
  - `winning_move_in_one_step` is proved to return the first winning drop.
  - `minimax` with alpha-beta pruning is proved against the unpruned minimax
    value of the game tree, `MinimaxValue`.
    - At depth 0 or on a terminal board, the value is exactly the leaf
      value, for any `alpha` and `beta`.
    - Otherwise, for any window `alpha < beta`, the result is fail-soft:
      inside the window it is exact, and outside it is guaranteed only to
      bound the exact value.
    - The AI's call at depth 4 with the full window returns exactly
      `MinimaxValue`, together with the first valid column that attains it.

Behaviour of `minimax.py` worth noting:

- `minimax` returns no column at depth 0 as well as on a terminal board.
- The random default column of `pick_best_move` and `minimax` never reaches
  the result. A drop scores at least -276, which beats -10000. A child value
  lies within ±10^14, which beats ±infinity. So the first column always
  replaces the default, and the tie-break in both is "first best column in
  ascending order".
- Pruned `minimax` does not always return the unpruned value.
  - At an inner node, a value strictly inside the window is exact. Outside
    the window, the value is guaranteed only to bound the exact value.
  - Leaves return their exact value whatever the window.
  - The top-level call uses the full window, so there the two agree.

## Model

| member | source | states |
|---|---|---|
| Boards.Grid | minimax.py:39-45 | definition: the contents of the numpy board, row by row from row 0, as a 6×7 value; every method over the array is specified against it |
| Boards.EmptyBoard | minimax.py:39-41 | a 6×7 board whose every cell is EMPTY |
| Boards.CreateBoard | minimax.py:39-41 | a freshly allocated 6×7 array that holds the empty board |
| Boards.CopyBoard | minimax.py:180 | `board.copy()`: a fresh array with the same cells as the original |
| Boards.Place | minimax.py:44-45 | setting a cell gives a 6×7 board that holds piece at (row, col) |
| Boards.PlaceOnlyCell | minimax.py:44-45 | the cell set holds piece, and every other cell is as before |
| Boards.DropPiece | minimax.py:44-45 | the array after the call is the old grid with exactly that one cell set |
| Boards.IsValidLocation | minimax.py:48-49 | a column is valid exactly when its top cell (row 5) is empty |
| Boards.IsOpen | minimax.py:48-49 | definition: the top cell (row 5) of column col is empty, the test of is_valid_location on the board's value |
| Boards.OpenRowFrom | minimax.py:52-55 | a row found by the upward scan is at or above the start and empty; none is found only when the top cell is taken or the start is past the top |
| Boards.NextOpenRow | minimax.py:52-55 | a valid column always has an open row, and the row returned is on the board and empty |
| Boards.OpenRowFromLowest | minimax.py:52-55 | every cell the scan passes over is occupied |
| Boards.NextOpenRowLowest | minimax.py:52-55 | the row returned is the lowest empty cell of the column; there is none exactly when all six cells are taken |
| Boards.GetNextOpenRow | minimax.py:52-55 | the loop returns the lowest empty row, or None on a full column |
| Boards.Gravity | minimax.py:44-55 | definition: in every column the occupied cells form one block from row 0, the invariant that dropping at get_next_open_row keeps |
| Boards.OpenRowIsHeight | minimax.py:52-55 | under gravity, every cell from the next open row upward is empty |
| Boards.ValidIffOpenRow | minimax.py:48-55 | under gravity, a column is valid exactly when get_next_open_row finds a row |
| Boards.Child | minimax.py:179-181 | definition: the board after piece drops into a valid column at the row get_next_open_row gives (the copy-and-drop of lines 179-181, 258-260, 286-288 and 301-303) |
| Boards.DropKeepsGravity | minimax.py:179-181 | a drop at the next open row of a valid column keeps gravity, puts the piece there and leaves every other cell unchanged |
| Boards.OpenColumns | minimax.py:158-163 | definition: the list lists exactly the columns whose top cell is empty, each once, in ascending order, as get_valid_locations returns them |
| Boards.AscendingOrder | minimax.py:158-163 | in a list where each entry is below the next, every earlier entry is below every later one |
| Boards.AscendingUnique | minimax.py:158-163 | two strictly ascending lists with the same members are equal |
| Boards.OpenColumnsUnique | minimax.py:158-163 | there is only one ascending list of the open columns of a board |
| Boards.OpenColumnsBound | minimax.py:158-163 | there are at most 7 valid locations |
| Boards.StrictlyIncreasingBound | minimax.py:158-163 | a strictly ascending list of columns has at most 7 entries |
| Boards.GetValidLocations | minimax.py:158-163 | the result lists exactly the open columns, each one valid, each valid column present, in strictly ascending order |
| Boards.EmptyBoardMoves | minimax.py:158-163 | the empty board obeys gravity, and its valid locations are [0, 1, 2, 3, 4, 5, 6] |
| Wins.RunAt | minimax.py:58-101 | definition: the four cells from (r, c) in direction d are all on the board and all hold piece, the test each scan of winning_move makes |
| Wins.RunStartsAtIff | minimax.py:58-101 | a run starts at (r, c) exactly when some direction gives four cells of piece from there |
| Wins.RunInRowIff | minimax.py:58-101 | a run starts in a row exactly when it starts at one of that row's columns in some direction |
| Wins.RunInRowsIff | minimax.py:58-101 | a run starts in the first n rows exactly when some start in those rows and some direction gives four cells of piece |
| Wins.HasFour | minimax.py:58-101 | definition: some row and column of the board start a run of four cells of piece in one of the four directions |
| Wins.HasFourIff | minimax.py:58-101 | HasFour holds exactly when some start and direction give four on-board cells that all hold piece |
| Wins.ScanHorizontal | minimax.py:59-68 | the horizontal loop finds a run exactly when one starts in columns 0..3 |
| Wins.ScanVertical | minimax.py:70-79 | the vertical loop finds a run exactly when one starts in rows 0..2 |
| Wins.ScanDiagonalUp | minimax.py:81-90 | the positive-diagonal loop finds a run exactly when one starts in rows 0..2 and columns 0..3 |
| Wins.ScanDiagonalDown | minimax.py:92-101 | the negative-diagonal loop finds a run exactly when one starts in rows 3..5 and columns 0..3 |
| Wins.NoRunOutsideScan | minimax.py:58-101 | a run that none of the four scan ranges contains does not exist |
| Wins.WinningMove | minimax.py:58-101 | winning_move is true exactly when piece has four in a row anywhere |
| Wins.Terminal | minimax.py:166-171 | definition: either side has four in a row, or no column has an empty top cell |
| Wins.IsTerminalNode | minimax.py:166-171 | terminal exactly when either side has four in a row or no column is valid |
| Wins.NoValidColumn | minimax.py:170 | definition: no column has an empty top cell, `len(get_valid_locations(board)) == 0` on the board's value |
| Wins.NoValidColumnIffNoMoves | minimax.py:166-171 | no column is valid exactly when get_valid_locations is empty |
| Wins.EmptyBoardNotTerminal | minimax.py:166-171 | the empty board has no run and is not terminal |
| Heuristic.Count | minimax.py:108-115 | definition: `list.count`, the number of cells of the window equal to x |
| Heuristic.Opponent | minimax.py:106 | definition: PLAYER_PIECE when piece is AI_PIECE, otherwise AI_PIECE |
| Heuristic.EvaluateWindow | minimax.py:104-118 | a window of four cells scores one of 100, 5, 2, 0 or -4 |
| Heuristic.CountPair | minimax.py:104-118 | two different values together occur at most once per cell |
| Heuristic.CountTriple | minimax.py:104-118 | three different values together occur at most once per cell |
| Heuristic.CountIsMultiplicity | minimax.py:104-118 | list.count is the multiplicity in the window's multiset |
| Heuristic.FilledBy | minimax.py:104-118 | a window filled by two values has the multiset their counts fix |
| Heuristic.WindowCases | minimax.py:104-118 | by list.count: 100 exactly with four own pieces, 5 exactly with three own and one empty, 2 exactly with two own and two empty, -4 exactly with three opponent pieces and one empty |
| Heuristic.SplitWindow | minimax.py:104-118 | bag equality of a window with a two-value multiset is equivalent to the two counts |
| Heuristic.WindowTable | minimax.py:104-118 | 100 exactly for four own pieces, 5 for three and an empty cell, 2 for two and two empty cells, -4 for three opponent pieces and an empty cell, otherwise 0 |
| Heuristic.HorizontalLinesShape | minimax.py:126-131 | the first n rows give 4n windows of four cells |
| Heuristic.VerticalLinesShape | minimax.py:133-139 | the first n columns give 3n windows of four cells |
| Heuristic.PositiveLinesShape | minimax.py:141-146 | the first n rows give 4n positive-diagonal windows of four cells |
| Heuristic.NegativeLinesShape | minimax.py:148-153 | the first n rows give 4n negative-diagonal windows of four cells |
| Heuristic.WindowCount | minimax.py:121-153 | score_position visits 24 horizontal, 21 vertical, 12 and 12 diagonal windows, 69 in all, each of four cells |
| Heuristic.SumScoresStep | minimax.py:130-131 | one more window adds its evaluate_window score to the running sum |
| Heuristic.SumScoresAppend | minimax.py:121-155 | the score of two lists of windows together is the sum of their scores |
| Heuristic.SumScoresBounds | minimax.py:121-155 | n windows of four cells sum to between -4n and 100n |
| Heuristic.ScoreBounds | minimax.py:121-155 | every board scores between -276 and 6900 for either side |
| Heuristic.ReadHorizontal | minimax.py:127-129 | the slice of row `row` from col, four cells long |
| Heuristic.ReadVertical | minimax.py:135-137 | the slice of column `col` from row, four cells long |
| Heuristic.ReadPositive | minimax.py:144 | cells (row+i, col+i) for i in 0..3 |
| Heuristic.ReadNegative | minimax.py:151 | cells (row+3-i, col+i) for i in 0..3 |
| Heuristic.HorizontalWindow | minimax.py:129 | definition: the four cells of row `row` from column col, `row_array[col:col + 4]` |
| Heuristic.VerticalWindow | minimax.py:137 | definition: the four cells of column col from row `row` upward, `col_array[row:row + 4]` |
| Heuristic.PositiveWindow | minimax.py:144 | definition: cells (row + i, col + i) for i in 0..3 |
| Heuristic.NegativeWindow | minimax.py:151 | definition: cells (row + 3 - i, col + i) for i in 0..3, in that order |
| Heuristic.HorizontalLine | minimax.py:128-129 | definition: the windows of row `row` from columns 0..3, in the inner loop's order |
| Heuristic.VerticalLine | minimax.py:136-137 | definition: the windows of column col from rows 0..2, in the inner loop's order |
| Heuristic.PositiveLine | minimax.py:143-144 | definition: the positive diagonals from row `row`, columns 0..3 |
| Heuristic.NegativeLine | minimax.py:150-151 | definition: the negative diagonals taken at row `row`, columns 0..3 |
| Heuristic.HorizontalLines | minimax.py:126-129 | definition: the windows of the first n rows, rows outermost, as the loops visit them |
| Heuristic.VerticalLines | minimax.py:134-137 | definition: the windows of the first n columns, columns outermost, as the loops visit them |
| Heuristic.PositiveLines | minimax.py:142-144 | definition: the positive diagonals of the first n rows, as the loops visit them |
| Heuristic.NegativeLines | minimax.py:149-151 | definition: the negative diagonals of the first n rows, as the loops visit them |
| Heuristic.HorizontalWindows | minimax.py:126-131 | definition: the 24 horizontal windows, all six rows |
| Heuristic.VerticalWindows | minimax.py:134-139 | definition: the 21 vertical windows, all seven columns |
| Heuristic.PositiveWindows | minimax.py:142-146 | definition: the 12 positive-diagonal windows, rows 0..2 |
| Heuristic.NegativeWindows | minimax.py:149-153 | definition: the 12 negative-diagonal windows, rows 0..2 |
| Heuristic.Windows | minimax.py:126-153 | definition: every window score_position visits, horizontal, then vertical, then positive, then negative diagonals |
| Heuristic.SumScores | minimax.py:130-131 | definition: the total that the `+=` accumulation reaches over a list of windows, window by window from the first |
| Heuristic.ScoreHorizontal | minimax.py:126-131 | both totals are the sums of evaluate_window over the horizontal windows, rows outermost |
| Heuristic.ScoreVertical | minimax.py:133-139 | both totals are the sums over the vertical windows, columns outermost |
| Heuristic.ScorePositiveDiagonals | minimax.py:141-146 | both totals are the sums over the positive-diagonal windows |
| Heuristic.ScoreNegativeDiagonals | minimax.py:148-153 | both totals are the sums over the negative-diagonal windows |
| Heuristic.BoardScore | minimax.py:121-155 | definition: the sum of evaluate_window over all 69 windows, for AI_PIECE when piece is AI_PIECE and for PLAYER_PIECE otherwise |
| Heuristic.ScorePosition | minimax.py:121-155 | the sum for AI_PIECE when piece is AI_PIECE and for PLAYER_PIECE otherwise, over all 69 windows, within [-276, 6900] |
| Symmetry.Mirror | minimax.py:121-155 | the board reflected in its middle column: a 6×7 board related to b by Mirrored |
| Symmetry.Mirrored | minimax.py:121-155 | definition: m is a 6×7 board whose cell (r, c) is b's cell (r, 6 - c) |
| Symmetry.MirrorInvolution | minimax.py:121-155 | reflecting twice gives the board back |
| Symmetry.HorizontalLinesAt | minimax.py:126-131 | the horizontal windows number 4 per row, and the one at position 4r + c is the row-r window from column c |
| Symmetry.VerticalLinesAt | minimax.py:133-139 | the vertical windows number 3 per column, and the one at position 3c + r is the column-c window from row r |
| Symmetry.PositiveLinesAt | minimax.py:141-146 | the positive-diagonal window at position 4r + c starts at (r, c) |
| Symmetry.NegativeLinesAt | minimax.py:148-153 | the negative-diagonal window at position 4r + c is taken at row r, column c |
| Symmetry.WindowIsRun | minimax.py:121-155 | each window is full of piece exactly when the matching run of winning_move (same start, same direction) holds piece |
| Symmetry.SameCellsSameScore | minimax.py:104-118 | evaluate_window depends only on the multiset of the window's cells, not their order |
| Symmetry.SumOfFour | minimax.py:128-131 | the score of one row's four windows is the sum of their four scores |
| Symmetry.Reversed | minimax.py:104-118 | a window read backwards has the same cells |
| Symmetry.ReversedFour | minimax.py:128-131 | four windows that read another four backwards, in reverse order, score the same in total |
| Symmetry.HorizontalWindowMirror | minimax.py:129 | the reflected row's window at column c is the row's window at column 3 - c, read backwards |
| Symmetry.PositiveWindowMirror | minimax.py:144 | the reflected board's positive diagonal at column c is the negative diagonal at column 3 - c, read backwards |
| Symmetry.NegativeWindowMirror | minimax.py:151 | the reflected board's negative diagonal at column c is the positive diagonal at column 3 - c, read backwards |
| Symmetry.HorizontalLineMirror | minimax.py:128-131 | a reflected row scores as the row |
| Symmetry.PositiveLineMirror | minimax.py:143-146 | the reflected board's positive diagonals in row r score as the board's negative ones |
| Symmetry.NegativeLineMirror | minimax.py:150-153 | the reflected board's negative diagonals in row r score as the board's positive ones |
| Symmetry.VerticalLineMirror | minimax.py:134-139 | the reflected board's column c has the windows of column 6 - c |
| Symmetry.HorizontalTotal | minimax.py:126-131 | the horizontal total is the sum of the six row totals |
| Symmetry.PositiveTotal | minimax.py:141-146 | the positive-diagonal total is the sum of the three row totals |
| Symmetry.NegativeTotal | minimax.py:148-153 | the negative-diagonal total is the sum of the three row totals |
| Symmetry.HorizontalMirror | minimax.py:126-131 | the horizontal total of the reflected board equals the board's |
| Symmetry.PositiveMirror | minimax.py:141-146 | the reflected board's positive-diagonal total is the board's negative-diagonal total |
| Symmetry.NegativeMirror | minimax.py:148-153 | the reflected board's negative-diagonal total is the board's positive-diagonal total |
| Symmetry.VerticalTotal | minimax.py:133-139 | the vertical total is the sum of the seven column totals |
| Symmetry.VerticalMirror | minimax.py:133-139 | the vertical total of the reflected board equals the board's |
| Symmetry.WindowsTotal | minimax.py:121-155 | the total over all windows is the sum of the four direction totals |
| Symmetry.MirrorScore | minimax.py:121-155 | score_position has no left/right bias: the reflected board scores the same as the board, for either side |
| Search.Mover | minimax.py:288-303 | definition: the piece the side to move drops, AI_PIECE when maximising (line 288) and PLAYER_PIECE when minimising (line 303) |
| Search.NoMove | minimax.py:283-298 | definition: the starting value of the loop, -INFINITY when maximising (the source's -math.inf, line 283) and INFINITY when minimising (line 298) |
| Search.LeafValue | minimax.py:271-280 | definition: +10^14 if the AI has four in a row, else -10^14 if the player has, else 0 on a terminal (full) board, else score_position for AI_PIECE |
| Search.MinimaxValue | minimax.py:266-311 | definition: the unpruned minimax value, LeafValue at depth 0 or on a terminal board, otherwise the best child value for the side to move |
| Search.ChildValue | minimax.py:286-289 | definition: the unpruned value, one ply less deep with the other side to move, of the board after the mover drops into col |
| Search.ExtremeFrom | minimax.py:282-311 | definition: the best child value for the side to move over the open columns from c on, or ∓INFINITY (the source's ∓math.inf) when there is none |
| Search.LeafBounds | minimax.py:271-280 | a leaf is worth +10^14 (AI win), -10^14 (player win), 0 (full board) or its score, so always within ±10^14 |
| Search.ExtremeFromIsBest | minimax.py:282-311 | the best child value over the valid columns from c on is attained by one of them and beaten by none; with no such column it is ∓infinity |
| Search.InnerValue | minimax.py:282-311 | at an inner node the minimax value is a child value of some valid column, and no valid column is better for the mover |
| Search.ValueBounds | minimax.py:266-311 | every minimax value lies within ±10^14 |
| Search.ImmediateWinIsWin | minimax.py:282-296 | on a board that is not terminal, if one AI drop wins, a search of depth at least 1 values the position at +10^14 |
| Search.Minimax | minimax.py:266-311 | no column exactly at depth 0 or a terminal node, and then the exact leaf value; otherwise a valid column. The value is fail-soft against the unpruned minimax value and against that column's child value. Every earlier valid column is strictly worse |
| Search.SearchChild | minimax.py:286-289 | the recursive value for one column is fail-soft against that column's child value |
| Search.DropCopy | minimax.py:286-288 | a fresh copy holding the board after the mover's drop into col |
| Search.Maximize | minimax.py:282-296 | the maximising loop returns a valid column and a value fail-soft against both the node's and that column's values; earlier valid columns are strictly lower |
| Search.Minimize | minimax.py:297-311 | the minimising loop returns a valid column and a value fail-soft against both the node's and that column's values; earlier valid columns are strictly higher |
| Search.FirstBefore | minimax.py:285 | in an ascending list, every listed column smaller than entry k appears before index k |
| Search.ChooseAiMove | minimax.py:371 | depth 4 with the full window gives exactly the minimax value; no column exactly on a terminal board; otherwise the first valid column attaining the value |
| Search.MoveScore | minimax.py:179-182 | the score of a drop lies in [-276, 6900] |
| Search.MoveScores | minimax.py:178-182 | definition: the scores line 182 computes for each column of the list, in loop order |
| Search.MoveScoresAt | minimax.py:178-182 | the i-th score is the score of dropping into the i-th column |
| Search.Leader | minimax.py:176-185 | the state of the loop after the scores seen so far: the best score and the index where it was first reached, (-10000, -1) while no score has beaten -10000; the index is -1 or a position of the scores |
| Search.LeaderIsFirstMax | minimax.py:176-185 | when every score beats -10000, the loop ends on a maximum score, at its first position |
| Search.BestAmongOpen | minimax.py:174-186 | a first maximum over the valid-location list is one over all open columns |
| Search.LeaderIsBestMove | minimax.py:174-186 | the chosen valid location scores at least as much as every valid column, and strictly more than every earlier one |
| Search.ScoreDrop | minimax.py:179-182 | one iteration scores the board after piece drops into col |
| Search.BestScoringColumn | minimax.py:176-185 | the loop ends on the column where the first maximum lies, or on the default when no score beats -10000 |
| Search.PickBestMove | minimax.py:174-186 | None exactly when no column is valid; otherwise a valid column whose drop scores at least as much as any other, and strictly more than any earlier one |
| Search.WinsWith | minimax.py:258-261 | definition: piece has four in a row on the board after dropping into col at its next open row |
| Search.WinsByDrop | minimax.py:258-261 | true exactly when piece's drop into col gives four in a row |
| Search.WinningMoveInOneStep | minimax.py:255-263 | the first valid column whose drop wins, or None exactly when no valid drop wins |

## Left out

- Drawing, mouse input, the pygame event loop, the end screen and the win counters are not modelled. They are presentation, not engine.
- The main loop's bookkeeping after the AI's call (the validity check, the drop, the win test, the turn switch) is not modelled. ChooseAiMove models only the call itself.
- np.random.choice is not modelled as randomness. The `choice` parameter fixes its draw, as an index into the valid locations.
- math.inf is not modelled. INFINITY, the integer 10^15, stands for it, and it exceeds every value minimax can return.
- numpy stores cells as floats. The model stores them as integers, since every cell holds 0, 1 or 2 and is only compared with those.
- Python's negative column indices wrap around. The model requires a column in 0..6, which every caller in the source supplies.
- Search.PickBestMove: np.random.choice raises on a board with no valid column. The model returns None there instead of modelling the exception.
- Boards.GetNextOpenRow: falling off the end of the loop yields Python's None. The model returns `Option.None`.
- Wins.WinningMove: falling off the end yields None, which callers treat as false. The model returns false.
- Boards.DropPiece: the source does not check the row. Every core caller passes the open row of a valid column, so the model requires an on-board cell.
