/** The move search of minimax.py: the greedy pick_best_move, the one-move
    win finder winning_move_in_one_step, and minimax with alpha-beta pruning,
    proved against the unpruned minimax value of the game tree. */
module Search {
  import opened Boards
  import opened Wins
  import opened Heuristic

  /** The value minimax gives a position won by the AI (and, negated, by the player). */
  const WIN_SCORE: int := 100_000_000_000_000

  /** Stands for math.inf: larger in magnitude than every value minimax returns. */
  const INFINITY: int := 1_000_000_000_000_000

  /** The search depth of the AI's turn in the main loop. */
  const AI_DEPTH: nat := 4

  function Max(x: int, y: int): int {
    if x >= y then x else y
  }

  function Min(x: int, y: int): int {
    if x <= y then x else y
  }

  /** The piece the side to move drops: the AI maximises, the player minimises. */
  function Mover(maximizing: bool): int {
    if maximizing then AI_PIECE else PLAYER_PIECE
  }

  /** x is strictly worse than y for the side to move. */
  predicate Worse(maximizing: bool, x: int, y: int) {
    if maximizing then x < y else x > y
  }

  /** The better of two values for the side to move. */
  function Best(maximizing: bool, x: int, y: int): int {
    if maximizing then Max(x, y) else Min(x, y)
  }

  /** The value minimax starts its loop from: -math.inf for the AI, math.inf for the player. */
  function NoMove(maximizing: bool): int {
    if maximizing then -INFINITY else INFINITY
  }

  /** The value of a search leaf: a win for the AI, a win for the player, a
      draw on a full board, or else the heuristic score for the AI. */
  ghost function LeafValue(b: Board): int
    requires WellFormed(b)
  {
    if HasFour(b, AI_PIECE) then WIN_SCORE
    else if HasFour(b, PLAYER_PIECE) then -WIN_SCORE
    else if Terminal(b) then 0
    else BoardScore(b, AI_PIECE)
  }

  /** The minimax value of b searched depth plies deep, without pruning. */
  ghost function MinimaxValue(b: Board, depth: nat, maximizing: bool): int
    requires WellFormed(b)
    decreases depth, 1, 0
  {
    if depth == 0 || Terminal(b) then LeafValue(b)
    else ExtremeFrom(b, depth, maximizing, 0)
  }

  /** The minimax value of the position after the side to move drops into col. */
  ghost function ChildValue(b: Board, depth: nat, maximizing: bool, col: int): int
    requires WellFormed(b) && 0 < depth && IsColumn(col) && IsOpen(b, col)
    decreases depth, 0, 0
  {
    MinimaxValue(Child(b, col, Mover(maximizing)), depth - 1, !maximizing)
  }

  /** The best child value for the side to move over the valid columns from c
      on, or NoMove when there is none. */
  ghost function ExtremeFrom(b: Board, depth: nat, maximizing: bool, c: nat): int
    requires WellFormed(b) && 0 < depth && c <= COLUMN_COUNT
    decreases depth, 0, COLUMN_COUNT - c
  {
    if c == COLUMN_COUNT then NoMove(maximizing)
    else if IsOpen(b, c) then Best(maximizing, ChildValue(b, depth, maximizing, c), ExtremeFrom(b, depth, maximizing, c + 1))
    else ExtremeFrom(b, depth, maximizing, c + 1)
  }

  /** Leaves are worth at most a win and at least a loss. */
  lemma LeafBounds(b: Board)
    requires WellFormed(b)
    ensures -WIN_SCORE <= LeafValue(b) <= WIN_SCORE
  {
    ScoreBounds(b, AI_PIECE);
  }

  /** ExtremeFrom is attained by some valid column from c on, when there is
      one, and no valid column from c on beats it. */
  lemma {:induction false} ExtremeFromIsBest(b: Board, depth: nat, maximizing: bool, c: nat)
    requires WellFormed(b) && 0 < depth && c <= COLUMN_COUNT
    ensures forall x {:trigger ChildValue(b, depth, maximizing, x)} :: c <= x < COLUMN_COUNT && IsOpen(b, x) ==>
      !Worse(maximizing, ExtremeFrom(b, depth, maximizing, c), ChildValue(b, depth, maximizing, x))
    ensures (forall x :: c <= x < COLUMN_COUNT ==> !IsOpen(b, x)) ==> ExtremeFrom(b, depth, maximizing, c) == NoMove(maximizing)
    ensures (exists x :: c <= x < COLUMN_COUNT && IsOpen(b, x)) ==>
      exists x :: c <= x < COLUMN_COUNT && IsOpen(b, x) && ExtremeFrom(b, depth, maximizing, c) == ChildValue(b, depth, maximizing, x)
    decreases depth, 0, COLUMN_COUNT - c
  {
    if c < COLUMN_COUNT {
      ExtremeFromIsBest(b, depth, maximizing, c + 1);
      if IsOpen(b, c) {
        ValueBounds(Child(b, c, Mover(maximizing)), depth - 1, !maximizing);
        if ExtremeFrom(b, depth, maximizing, c) != ChildValue(b, depth, maximizing, c) {
          var x :| c + 1 <= x < COLUMN_COUNT && IsOpen(b, x) && ExtremeFrom(b, depth, maximizing, c + 1) == ChildValue(b, depth, maximizing, x);
        }
      }
    }
  }

  /** At an inner node the minimax value is the best child value: attained by
      some valid column and beaten by none. */
  lemma InnerValue(b: Board, depth: nat, maximizing: bool)
    requires WellFormed(b) && 0 < depth && !Terminal(b)
    ensures forall x {:trigger ChildValue(b, depth, maximizing, x)} :: IsColumn(x) && IsOpen(b, x) ==>
      !Worse(maximizing, MinimaxValue(b, depth, maximizing), ChildValue(b, depth, maximizing, x))
    ensures exists x :: IsColumn(x) && IsOpen(b, x) && MinimaxValue(b, depth, maximizing) == ChildValue(b, depth, maximizing, x)
    decreases depth, 1
  {
    ExtremeFromIsBest(b, depth, maximizing, 0);
  }

  /** Every minimax value lies between a loss and a win. */
  lemma {:induction false} ValueBounds(b: Board, depth: nat, maximizing: bool)
    requires WellFormed(b)
    ensures -WIN_SCORE <= MinimaxValue(b, depth, maximizing) <= WIN_SCORE
    decreases depth, 2
  {
    if depth == 0 || Terminal(b) {
      LeafBounds(b);
    } else {
      InnerValue(b, depth, maximizing);
      var x :| IsColumn(x) && IsOpen(b, x) && MinimaxValue(b, depth, maximizing) == ChildValue(b, depth, maximizing, x);
      ValueBounds(Child(b, x, Mover(maximizing)), depth - 1, !maximizing);
    }
  }

  /** If the game is not over and the AI can win with its next drop, a search
      of at least one ply values the position as a win. */
  lemma ImmediateWinIsWin(b: Board, depth: nat, col: int)
    requires WellFormed(b) && 0 < depth && !Terminal(b)
    requires IsColumn(col) && IsOpen(b, col) && HasFour(Child(b, col, AI_PIECE), AI_PIECE)
    ensures MinimaxValue(b, depth, true) == WIN_SCORE
  {
    InnerValue(b, depth, true);
    ValueBounds(b, depth, true);
    assert ChildValue(b, depth, true, col) == WIN_SCORE;
  }

  /** c is a valid column of b to the left of col. */
  ghost predicate OpenBefore(b: Board, c: int, col: int)
    requires WellFormed(b)
  {
    IsColumn(c) && IsOpen(b, c) && c < col
  }

  /** Fail-soft alpha-beta: a value strictly inside the window is exact; one at
      or below alpha bounds the exact value from above; one at or above beta
      bounds it from below. */
  predicate FailSoft(alpha: int, beta: int, value: int, exact: int) {
    && (alpha < value < beta ==> value == exact)
    && (value <= alpha ==> exact <= value)
    && (beta <= value ==> value <= exact)
  }

  /** minimax: with depth 0 or at a terminal node it returns no column and the
      leaf value; otherwise the AI (maximizingPlayer) or the player tries every
      valid column in ascending order, pruning once alpha >= beta.  The value
      agrees with the unpruned MinimaxValue in the fail-soft sense, and the
      column is the first one attaining it.  choice stands for the column
      np.random.choice draws before the loop; it never reaches the result. */
  method Minimax(board: array2<int>, ghost g: Board, depth: nat, alpha: int, beta: int, maximizingPlayer: bool, choice: nat)
    returns (col: Option<int>, value: int)
    requires Shaped(board) && Grid(board) == g && alpha < beta
    ensures -WIN_SCORE <= value <= WIN_SCORE
    ensures FailSoft(alpha, beta, value, MinimaxValue(g, depth, maximizingPlayer))
    ensures col.None? <==> depth == 0 || Terminal(g)
    ensures col.None? ==> value == LeafValue(g)
    ensures col.Some? ==> 0 < depth && IsColumn(col.value) && IsOpen(g, col.value)
    ensures col.Some? ==> FailSoft(alpha, beta, value, ChildValue(g, depth, maximizingPlayer, col.value))
    ensures col.Some? ==> forall c {:trigger OpenBefore(g, c, col.value)} :: OpenBefore(g, c, col.value) ==>
      Worse(maximizingPlayer, ChildValue(g, depth, maximizingPlayer, c), value)
    decreases depth, 2
  {
    var locs := GetValidLocations(board);
    var terminal := IsTerminalNode(board);
    if depth == 0 || terminal {
      col := None;
      if terminal {
        var aiWins := WinningMove(board, AI_PIECE);
        var playerWins := WinningMove(board, PLAYER_PIECE);
        if aiWins {
          value := WIN_SCORE;
        } else if playerWins {
          value := -WIN_SCORE;
        } else {
          value := 0;
        }
      } else {
        value := ScorePosition(board, AI_PIECE);
      }
      return;
    }
    var best;
    if maximizingPlayer {
      best, value := Maximize(board, g, depth, alpha, beta, locs, choice);
    } else {
      best, value := Minimize(board, g, depth, alpha, beta, locs, choice);
    }
    col := Some(best);
  }

  /** One iteration of minimax's loops: drop the mover's piece into col on a
      copy of the board and search the copy one ply less deep. */
  method SearchChild(board: array2<int>, ghost g: Board, depth: nat, alpha: int, beta: int, maximizing: bool, col: int, choice: nat)
    returns (v: int)
    requires Shaped(board) && Grid(board) == g && 0 < depth && alpha < beta
    requires IsColumn(col) && IsOpen(g, col)
    ensures -WIN_SCORE <= v <= WIN_SCORE
    ensures FailSoft(alpha, beta, v, ChildValue(g, depth, maximizing, col))
    decreases depth, 0
  {
    var copy := DropCopy(board, g, col, Mover(maximizing));
    var _, value := Minimax(copy, Child(g, col, Mover(maximizing)), depth - 1, alpha, beta, !maximizing, choice);
    v := value;
  }

  /** The copy of the board minimax and its helpers search: board.copy()
      followed by drop_piece at get_next_open_row. */
  method DropCopy(board: array2<int>, ghost g: Board, col: int, piece: int) returns (copy: array2<int>)
    requires Shaped(board) && Grid(board) == g && IsColumn(col) && IsOpen(g, col)
    ensures fresh(copy) && Shaped(copy)
    ensures Grid(copy) == Child(g, col, piece)
  {
    var row := GetNextOpenRow(board, col);
    copy := CopyBoard(board);
    DropPiece(copy, row.value, col, piece);
  }

  /** The maximizing loop of minimax over the valid columns locs. */
  method Maximize(board: array2<int>, ghost g: Board, depth: nat, alpha: int, beta: int, locs: seq<int>, choice: nat)
    returns (best: int, value: int)
    requires Shaped(board) && Grid(board) == g && 0 < depth && alpha < beta
    requires !Terminal(g) && OpenColumns(g, locs)
    ensures -WIN_SCORE <= value <= WIN_SCORE
    ensures IsColumn(best) && IsOpen(g, best)
    ensures FailSoft(alpha, beta, value, MinimaxValue(g, depth, true))
    ensures FailSoft(alpha, beta, value, ChildValue(g, depth, true, best))
    ensures forall c {:trigger OpenBefore(g, c, best)} :: OpenBefore(g, c, best) ==>
      ChildValue(g, depth, true, c) < value
    decreases depth, 1
  {
    NoValidColumnIffNoMoves(g, locs);
    ghost var bi := 0;
    var a := alpha;
    value := -INFINITY;
    best := locs[choice % |locs|];
    var i := 0;
    while i < |locs|
      invariant 0 <= i <= |locs|
      invariant i == 0 ==> a == alpha && value == -INFINITY
      invariant 0 < i ==> a == Max(alpha, value) && -WIN_SCORE <= value <= WIN_SCORE
      invariant 0 < i ==> 0 <= bi < i && best == locs[bi]
      invariant a < beta
      invariant forall j {:trigger ChildValue(g, depth, true, locs[j])} :: 0 <= j < i ==>
        ChildValue(g, depth, true, locs[j]) <= value
      invariant 0 < i ==> FailSoft(alpha, beta, value, ChildValue(g, depth, true, best))
      invariant 0 < i ==> forall j {:trigger ChildValue(g, depth, true, locs[j])} :: 0 <= j < bi ==>
        ChildValue(g, depth, true, locs[j]) < value
    {
      var col := locs[i];
      var v := SearchChild(board, g, depth, a, beta, true, col, choice);
      if v > value {
        value, best, bi := v, col, i;
      }
      a := Max(a, value);
      i := i + 1;
      if a >= beta {
        break;
      }
    }
    InnerValue(g, depth, true);
    FirstBefore(locs, bi);
  }

  /** The minimizing loop of minimax over the valid columns locs. */
  method Minimize(board: array2<int>, ghost g: Board, depth: nat, alpha: int, beta: int, locs: seq<int>, choice: nat)
    returns (best: int, value: int)
    requires Shaped(board) && Grid(board) == g && 0 < depth && alpha < beta
    requires !Terminal(g) && OpenColumns(g, locs)
    ensures -WIN_SCORE <= value <= WIN_SCORE
    ensures IsColumn(best) && IsOpen(g, best)
    ensures FailSoft(alpha, beta, value, MinimaxValue(g, depth, false))
    ensures FailSoft(alpha, beta, value, ChildValue(g, depth, false, best))
    ensures forall c {:trigger OpenBefore(g, c, best)} :: OpenBefore(g, c, best) ==>
      ChildValue(g, depth, false, c) > value
    decreases depth, 1
  {
    NoValidColumnIffNoMoves(g, locs);
    ghost var bi := 0;
    var b := beta;
    value := INFINITY;
    best := locs[choice % |locs|];
    var i := 0;
    while i < |locs|
      invariant 0 <= i <= |locs|
      invariant i == 0 ==> b == beta && value == INFINITY
      invariant 0 < i ==> b == Min(beta, value) && -WIN_SCORE <= value <= WIN_SCORE
      invariant 0 < i ==> 0 <= bi < i && best == locs[bi]
      invariant alpha < b
      invariant forall j {:trigger ChildValue(g, depth, false, locs[j])} :: 0 <= j < i ==>
        ChildValue(g, depth, false, locs[j]) >= value
      invariant 0 < i ==> FailSoft(alpha, beta, value, ChildValue(g, depth, false, best))
      invariant 0 < i ==> forall j {:trigger ChildValue(g, depth, false, locs[j])} :: 0 <= j < bi ==>
        ChildValue(g, depth, false, locs[j]) > value
    {
      var col := locs[i];
      var v := SearchChild(board, g, depth, alpha, b, false, col, choice);
      if v < value {
        value, best, bi := v, col, i;
      }
      b := Min(b, value);
      i := i + 1;
      if alpha >= b {
        break;
      }
    }
    InnerValue(g, depth, false);
    FirstBefore(locs, bi);
  }

  /** In an ascending list, the columns smaller than cols[k] are those before index k. */
  lemma FirstBefore(cols: seq<int>, k: int)
    requires Ascending(cols) && 0 <= k < |cols|
    ensures forall c :: c in cols && c < cols[k] ==> exists j :: 0 <= j < k && cols[j] == c
  {
    AscendingOrder(cols);
    forall c | c in cols && c < cols[k]
      ensures exists j :: 0 <= j < k && cols[j] == c
    {
      var j :| 0 <= j < |cols| && cols[j] == c;
      assert j < k;
    }
  }

  /** The AI's turn in the main loop: minimax four plies deep over the full
      window.  The value is the exact minimax value and the column the first
      valid column attaining it. */
  method ChooseAiMove(board: array2<int>, choice: nat) returns (col: Option<int>, value: int)
    requires Shaped(board)
    ensures value == MinimaxValue(Grid(board), AI_DEPTH, true)
    ensures col.None? <==> Terminal(Grid(board))
    ensures col.Some? ==> IsColumn(col.value) && IsOpen(Grid(board), col.value)
    ensures col.Some? ==> ChildValue(Grid(board), AI_DEPTH, true, col.value) == value
    ensures col.Some? ==> forall c {:trigger OpenBefore(Grid(board), c, col.value)} :: OpenBefore(Grid(board), c, col.value) ==>
      ChildValue(Grid(board), AI_DEPTH, true, c) < value
  {
    col, value := Minimax(board, Grid(board), AI_DEPTH, -INFINITY, INFINITY, true, choice);
  }

  /** The heuristic score, for piece, of the board after piece drops into col. */
  ghost function MoveScore(b: Board, col: int, piece: int): (score: int)
    requires WellFormed(b) && IsColumn(col) && IsOpen(b, col)
    ensures -276 <= score <= 6900
  {
    ScoreBounds(Child(b, col, piece), piece);
    BoardScore(Child(b, col, piece), piece)
  }

  /** The scores of dropping piece into each of cols, in order. */
  ghost function MoveScores(b: Board, cols: seq<int>, piece: int): (scores: seq<int>)
    requires WellFormed(b) && forall i :: 0 <= i < |cols| ==> IsColumn(cols[i]) && IsOpen(b, cols[i])
    ensures |scores| == |cols|
  {
    if cols == [] then [] else MoveScores(b, cols[..|cols| - 1], piece) + [MoveScore(b, cols[|cols| - 1], piece)]
  }

  lemma {:induction false} MoveScoresAt(b: Board, cols: seq<int>, piece: int)
    requires WellFormed(b) && forall i :: 0 <= i < |cols| ==> IsColumn(cols[i]) && IsOpen(b, cols[i])
    ensures forall j :: 0 <= j < |cols| ==> MoveScores(b, cols, piece)[j] == MoveScore(b, cols[j], piece)
  {
    if cols != [] {
      MoveScoresAt(b, cols[..|cols| - 1], piece);
    }
  }

  /** The state of pick_best_move's loop after it has seen scores: the best
      score so far and the index where it was first reached, -1 while the
      initial -10000 still stands. */
  function Leader(scores: seq<int>): (lead: (int, int))
    ensures -1 <= lead.1 < |scores|
  {
    if scores == [] then (-10000, -1)
    else
      var n := |scores| - 1;
      var prev := Leader(scores[..n]);
      if scores[n] > prev.0 then (scores[n], n) else prev
  }

  /** When every score beats -10000, the loop ends on the first maximum. */
  lemma {:induction false} LeaderIsFirstMax(scores: seq<int>)
    requires scores != []
    requires forall j :: 0 <= j < |scores| ==> scores[j] > -10000
    ensures 0 <= Leader(scores).1 && Leader(scores).0 == scores[Leader(scores).1]
    ensures forall j :: 0 <= j < |scores| ==> scores[j] <= Leader(scores).0
    ensures forall j :: 0 <= j < Leader(scores).1 ==> scores[j] < Leader(scores).0
  {
    var n := |scores| - 1;
    if n > 0 {
      LeaderIsFirstMax(scores[..n]);
    }
  }

  /** A first maximum over the list of open columns is a first maximum over
      all open columns. */
  lemma BestAmongOpen(b: Board, locs: seq<int>, scores: seq<int>, piece: int, k: int)
    requires WellFormed(b) && OpenColumns(b, locs) && |scores| == |locs| && 0 <= k < |locs|
    requires forall j :: 0 <= j < |locs| ==> scores[j] == MoveScore(b, locs[j], piece)
    requires forall j :: 0 <= j < |scores| ==> scores[j] <= scores[k]
    requires forall j :: 0 <= j < k ==> scores[j] < scores[k]
    ensures forall c :: IsColumn(c) && IsOpen(b, c) ==>
      MoveScore(b, c, piece) <= MoveScore(b, locs[k], piece)
    ensures forall c :: IsColumn(c) && IsOpen(b, c) && c < locs[k] ==>
      MoveScore(b, c, piece) < MoveScore(b, locs[k], piece)
  {
    FirstBefore(locs, k);
    forall c | IsColumn(c) && IsOpen(b, c)
      ensures MoveScore(b, c, piece) <= MoveScore(b, locs[k], piece)
      ensures c < locs[k] ==> MoveScore(b, c, piece) < MoveScore(b, locs[k], piece)
    {
      var j :| 0 <= j < |locs| && locs[j] == c;
      if c < locs[k] {
        var i :| 0 <= i < k && locs[i] == c;
      }
    }
  }

  /** pick_best_move's choice over the valid locations is the first open
      column whose drop scores highest. */
  lemma LeaderIsBestMove(b: Board, locs: seq<int>, piece: int)
    requires WellFormed(b) && OpenColumns(b, locs) && locs != []
    ensures 0 <= Leader(MoveScores(b, locs, piece)).1
    ensures forall c :: IsColumn(c) && IsOpen(b, c) ==>
      MoveScore(b, c, piece) <= MoveScore(b, locs[Leader(MoveScores(b, locs, piece)).1], piece)
    ensures forall c :: IsColumn(c) && IsOpen(b, c) && c < locs[Leader(MoveScores(b, locs, piece)).1] ==>
      MoveScore(b, c, piece) < MoveScore(b, locs[Leader(MoveScores(b, locs, piece)).1], piece)
  {
    var scores := MoveScores(b, locs, piece);
    MoveScoresAt(b, locs, piece);
    LeaderIsFirstMax(scores);
    BestAmongOpen(b, locs, scores, piece, Leader(scores).1);
  }

  /** One iteration of pick_best_move: score a copy of the board after piece
      drops into col. */
  method ScoreDrop(board: array2<int>, col: int, piece: int) returns (score: int)
    requires Shaped(board) && IsColumn(col) && IsOpen(Grid(board), col)
    ensures score == MoveScore(Grid(board), col, piece)
  {
    var row := GetNextOpenRow(board, col);
    var temp := CopyBoard(board);
    DropPiece(temp, row.value, col, piece);
    assert Grid(temp) == Child(Grid(board), col, piece);
    score := ScorePosition(temp, piece);
  }

  /** The loop of pick_best_move over cols, starting from column start: it
      ends on the column where Leader places the best score, or on start when
      no score beats -10000. */
  method BestScoringColumn(board: array2<int>, cols: seq<int>, piece: int, start: int) returns (bestCol: int)
    requires Shaped(board)
    requires forall i :: 0 <= i < |cols| ==> IsColumn(cols[i]) && IsOpen(Grid(board), cols[i])
    ensures var lead := Leader(MoveScores(Grid(board), cols, piece));
      bestCol == if lead.1 >= 0 then cols[lead.1] else start
  {
    ghost var g := Grid(board);
    var bestScore := -10000;
    bestCol := start;
    for i := 0 to |cols|
      invariant bestScore == Leader(MoveScores(g, cols[..i], piece)).0
      invariant bestCol == if Leader(MoveScores(g, cols[..i], piece)).1 >= 0
        then cols[Leader(MoveScores(g, cols[..i], piece)).1] else start
    {
      var col := cols[i];
      var score := ScoreDrop(board, col, piece);
      assert cols[..i + 1][..i] == cols[..i];
      if score > bestScore {
        bestScore, bestCol := score, col;
      }
    }
    assert cols[..|cols|] == cols;
  }

  /** pick_best_move: the first valid column whose drop scores highest.  The
      source draws the starting column at random and raises on a full board;
      here choice stands for the draw and None for the error. */
  method PickBestMove(board: array2<int>, piece: int, choice: nat) returns (best: Option<int>)
    requires Shaped(board)
    ensures best.None? <==> NoValidColumn(Grid(board))
    ensures best.Some? ==> IsColumn(best.value) && IsOpen(Grid(board), best.value)
    ensures best.Some? ==> forall c :: IsColumn(c) && IsOpen(Grid(board), c) ==>
      MoveScore(Grid(board), c, piece) <= MoveScore(Grid(board), best.value, piece)
    ensures best.Some? ==> forall c :: IsColumn(c) && IsOpen(Grid(board), c) && c < best.value ==>
      MoveScore(Grid(board), c, piece) < MoveScore(Grid(board), best.value, piece)
  {
    var locs := GetValidLocations(board);
    NoValidColumnIffNoMoves(Grid(board), locs);
    if |locs| == 0 {
      return None;
    }
    var col := BestScoringColumn(board, locs, piece, locs[choice % |locs|]);
    LeaderIsBestMove(Grid(board), locs, piece);
    best := Some(col);
  }

  /** piece wins by dropping into col. */
  ghost predicate WinsWith(b: Board, col: int, piece: int)
    requires WellFormed(b) && IsColumn(col) && IsOpen(b, col)
  {
    HasFour(Child(b, col, piece), piece)
  }

  /** One iteration of winning_move_in_one_step: test a copy of the board
      after piece drops into col. */
  method WinsByDrop(board: array2<int>, col: int, piece: int) returns (won: bool)
    requires Shaped(board) && IsColumn(col) && IsOpen(Grid(board), col)
    ensures won <==> WinsWith(Grid(board), col, piece)
  {
    var row := GetNextOpenRow(board, col);
    var temp := CopyBoard(board);
    DropPiece(temp, row.value, col, piece);
    assert Grid(temp) == Child(Grid(board), col, piece);
    won := WinningMove(temp, piece);
  }

  /** winning_move_in_one_step: the first valid column whose drop gives piece
      four in a row, or None when no drop does. */
  method WinningMoveInOneStep(board: array2<int>, piece: int) returns (col: Option<int>)
    requires Shaped(board)
    ensures col.Some? ==> IsColumn(col.value) && IsOpen(Grid(board), col.value) && WinsWith(Grid(board), col.value, piece)
    ensures col.Some? ==> forall c :: IsColumn(c) && IsOpen(Grid(board), c) && c < col.value ==> !WinsWith(Grid(board), c, piece)
    ensures col.None? <==> forall c :: IsColumn(c) && IsOpen(Grid(board), c) ==> !WinsWith(Grid(board), c, piece)
  {
    ghost var g := Grid(board);
    var locs := GetValidLocations(board);
    for i := 0 to |locs|
      invariant forall j :: 0 <= j < i ==> !WinsWith(g, locs[j], piece)
    {
      var c := locs[i];
      var won := WinsByDrop(board, c, piece);
      if won {
        FirstBefore(locs, i);
        return Some(c);
      }
    }
    return None;
  }
}
