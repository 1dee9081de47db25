/** The rules of the game, stated on values.
    A game's state is a `Game` value: the nine cells of the 3x3 board in row-major
    order (cell (row, col) sits at index 3 * row + col), the player to move, whether
    the game is over, the winner and the number of moves made. `Move` is the state
    transition that `TicTacToeGame.make_move` performs in place; the lemmas below
    state the rules that transition keeps. */
module Engine {

  datatype Player = X | O

  /** A cell is empty ('') or carries a player's mark ('X' or 'O'). */
  datatype Cell = Empty | Mark(p: Player)

  /** The source's `winner`: None, 'X', 'O' or 'tie'. */
  datatype Winner = NoWinner | WonBy(p: Player) | Tie

  datatype Game = Game(cells: seq<Cell>, current: Player, over: bool, winner: Winner, moves: int)

  /** The player who moves after `p`. */
  function Other(p: Player): (q: Player)
    ensures q != p
  {
    if p == X then O else X
  }

  predicate InBounds(row: int, col: int) {
    0 <= row <= 2 && 0 <= col <= 2
  }

  /** Position of cell (row, col) in the row-major list of cells. */
  function Idx(row: int, col: int): (i: nat)
    requires InBounds(row, col)
    ensures i < 9
  {
    3 * row + col
  }

  // ---------------------------------------------------------------------------
  // The eight winning lines

  datatype Line = Line(a: nat, b: nat, c: nat)

  /** Lines 0..2 are the rows, 3..5 the columns, 6 the main diagonal and 7 the
      anti-diagonal. */
  function LineAt(k: nat): (l: Line)
    requires k < 8
    ensures l.a < 9 && l.b < 9 && l.c < 9
  {
    match k
    case 0 => Line(0, 1, 2)
    case 1 => Line(3, 4, 5)
    case 2 => Line(6, 7, 8)
    case 3 => Line(0, 3, 6)
    case 4 => Line(1, 4, 7)
    case 5 => Line(2, 5, 8)
    case 6 => Line(0, 4, 8)
    case _ => Line(2, 4, 6)
  }

  /** Three equal, non-empty cells: the source's `a == b == c != ''`. */
  predicate Three(a: Cell, b: Cell, c: Cell) {
    a == b && b == c && c != Empty
  }

  predicate LineComplete(cells: seq<Cell>, k: nat)
    requires |cells| == 9 && k < 8
  {
    var l := LineAt(k);
    Three(cells[l.a], cells[l.b], cells[l.c])
  }

  /** Some row, column or diagonal holds three equal marks. */
  predicate HasWinningLine(cells: seq<Cell>)
    requires |cells| == 9
  {
    exists k :: 0 <= k < 8 && LineComplete(cells, k)
  }

  /** Some line holds three marks of `p`. */
  predicate OwnsLine(cells: seq<Cell>, p: Player)
    requires |cells| == 9
  {
    exists k :: 0 <= k < 8 && LineComplete(cells, k) && cells[LineAt(k).a] == Mark(p)
  }

  // ---------------------------------------------------------------------------
  // Counting filled cells

  /** Number of non-empty cells. */
  function Filled(cells: seq<Cell>): (n: nat)
    ensures n <= |cells|
    ensures n == 0 <== forall i :: 0 <= i < |cells| ==> cells[i] == Empty
  {
    if cells == [] then 0
    else (if cells[0] == Empty then 0 else 1) + Filled(cells[1..])
  }

  /** Writing a mark into an empty cell fills exactly one more cell. */
  lemma {:induction false} FilledWrite(cells: seq<Cell>, i: nat, p: Player)
    requires i < |cells| && cells[i] == Empty
    ensures Filled(cells[i := Mark(p)]) == Filled(cells) + 1
  {
    if i > 0 {
      assert cells[i := Mark(p)][1..] == cells[1..][i - 1 := Mark(p)];
      FilledWrite(cells[1..], i - 1, p);
    }
  }

  /** All cells are filled exactly when the count reaches the length. */
  lemma {:induction false} FilledAllIffFull(cells: seq<Cell>)
    ensures Filled(cells) == |cells| <==> forall i :: 0 <= i < |cells| ==> cells[i] != Empty
  {
    if cells != [] {
      FilledAllIffFull(cells[1..]);
      if forall i :: 0 <= i < |cells| ==> cells[i] != Empty {
        assert forall i :: 0 <= i < |cells| - 1 ==> cells[1..][i] == cells[i + 1];
      } else if cells[0] != Empty {
        var j :| 0 <= j < |cells| && cells[j] == Empty;
        assert cells[1..][j - 1] == Empty;
      }
    }
  }

  // ---------------------------------------------------------------------------
  // Game states

  const EmptyBoard: seq<Cell> := [Empty, Empty, Empty, Empty, Empty, Empty, Empty, Empty, Empty]

  /** The state `__init__` (and `reset`) produces. */
  function Initial(): (g: Game)
    ensures Valid(g) && g.moves == 0
  {
    assert forall i :: 0 <= i < 9 ==> EmptyBoard[i] == Empty;
    Game(EmptyBoard, X, false, NoWinner, 0)
  }

  /** The player whose turn it is after `n` moves, starting with X. */
  function ToMove(n: int): (p: Player)
    ensures p == X <==> n % 2 == 0
  {
    if n % 2 == 0 then X else O
  }

  /** What every reachable state satisfies: the move count is the number of
      filled cells; a running game has no winner, no complete line and a
      free cell, and it is the turn of the player the move count says; a finished
      game keeps the last mover as current player and records either that
      player's line or a tie on a full board without a line. */
  predicate Valid(g: Game) {
    |g.cells| == 9 &&
    g.moves == Filled(g.cells) &&
    (!g.over ==>
      g.winner == NoWinner && g.current == ToMove(g.moves) &&
      !HasWinningLine(g.cells) && g.moves < 9) &&
    (g.over ==>
      g.moves >= 1 && g.current == ToMove(g.moves - 1) &&
      match g.winner
      case NoWinner => false
      case WonBy(p) => p == g.current && OwnsLine(g.cells, p)
      case Tie => g.moves == 9 && !HasWinningLine(g.cells))
  }

  // ---------------------------------------------------------------------------
  // Moves

  /** `make_move` accepts a move exactly when the game is running and the
      target cell is empty. */
  predicate Accepts(g: Game, row: int, col: int)
    requires |g.cells| == 9 && InBounds(row, col)
  {
    !g.over && g.cells[Idx(row, col)] == Empty
  }

  /** The state after `make_move(row, col)`: a rejected move changes nothing;
      an accepted one writes the current player's mark, counts the move, then
      ends the game on a complete line (checked first) or on the ninth move, and
      otherwise passes the turn. */
  function Move(g: Game, row: int, col: int): (r: Game)
    requires |g.cells| == 9 && InBounds(row, col)
    ensures |r.cells| == 9
    ensures r.over ==> r.winner != NoWinner || g.over
  {
    if !Accepts(g, row, col) then g
    else
      var cells := g.cells[Idx(row, col) := Mark(g.current)];
      var moves := g.moves + 1;
      if HasWinningLine(cells) then
        g.(cells := cells, moves := moves, winner := WonBy(g.current), over := true)
      else if moves == 9 then
        g.(cells := cells, moves := moves, over := true, winner := Tie)
      else
        g.(cells := cells, moves := moves, current := Other(g.current))
  }

  /** A rejected move (game over or cell taken) leaves every field unchanged. */
  lemma RejectedMoveChangesNothing(g: Game, row: int, col: int)
    requires |g.cells| == 9 && InBounds(row, col)
    requires g.over || g.cells[Idx(row, col)] != Empty
    ensures !Accepts(g, row, col) && Move(g, row, col) == g
  {
  }

  /** An accepted move puts the mover's mark into the target cell, leaves the
      other eight cells alone and adds one to the move count. */
  lemma AcceptedMoveWritesOneCell(g: Game, row: int, col: int)
    requires |g.cells| == 9 && InBounds(row, col) && Accepts(g, row, col)
    ensures Move(g, row, col).cells[Idx(row, col)] == Mark(g.current)
    ensures forall i :: 0 <= i < 9 && i != Idx(row, col) ==> Move(g, row, col).cells[i] == g.cells[i]
    ensures Move(g, row, col).moves == g.moves + 1
  {
  }

  /** In a running game without a complete line, a line completed by writing
      `p` into one cell is a line of `p`: checking every line, as the source does,
      finds only the mover's. */
  lemma {:induction false} NewLineIsMovers(cells: seq<Cell>, i: nat, p: Player)
    requires |cells| == 9 && i < 9 && !HasWinningLine(cells)
    requires HasWinningLine(cells[i := Mark(p)])
    ensures OwnsLine(cells[i := Mark(p)], p)
  {
    var after := cells[i := Mark(p)];
    var k :| 0 <= k < 8 && LineComplete(after, k);
    var l := LineAt(k);
    assert !LineComplete(cells, k);
    assert i == l.a || i == l.b || i == l.c;
    assert after[l.a] == Mark(p);
  }

  /** Every move, accepted or not, keeps the invariant. */
  lemma {:induction false} MovePreservesValid(g: Game, row: int, col: int)
    requires Valid(g) && InBounds(row, col)
    ensures Valid(Move(g, row, col))
  {
    if Accepts(g, row, col) {
      var i := Idx(row, col);
      var cells := g.cells[i := Mark(g.current)];
      FilledWrite(g.cells, i, g.current);
      if HasWinningLine(cells) {
        NewLineIsMovers(g.cells, i, g.current);
      }
    }
  }

  /** A move that completes a line is a win for the mover, even when it also
      fills the ninth cell. */
  lemma WinTakesPrecedence(g: Game, row: int, col: int)
    requires |g.cells| == 9 && InBounds(row, col) && Accepts(g, row, col)
    requires HasWinningLine(Move(g, row, col).cells)
    ensures Move(g, row, col).over && Move(g, row, col).winner == WonBy(g.current)
  {
  }

  /** A move that fills the board without completing a line ends the game in
      a tie. */
  lemma {:induction false} FullBoardWithoutLineIsTie(g: Game, row: int, col: int)
    requires Valid(g) && InBounds(row, col) && Accepts(g, row, col)
    requires forall i :: 0 <= i < 9 ==> Move(g, row, col).cells[i] != Empty
    requires !HasWinningLine(Move(g, row, col).cells)
    ensures Move(g, row, col).over && Move(g, row, col).winner == Tie
  {
    var r := Move(g, row, col);
    FilledWrite(g.cells, Idx(row, col), g.current);
    FilledAllIffFull(r.cells);
  }

  /** The turn passes exactly on an accepted move that does not end the game;
      after a winning or tying move the mover stays current. */
  lemma TurnPassesOnlyOnContinuingMove(g: Game, row: int, col: int)
    requires |g.cells| == 9 && InBounds(row, col)
    ensures Move(g, row, col).current != g.current <==> Accepts(g, row, col) && !Move(g, row, col).over
    ensures Move(g, row, col).current == g.current || Move(g, row, col).current == Other(g.current)
  {
  }

  // ---------------------------------------------------------------------------
  // Sequences of moves

  predicate AllInBounds(ms: seq<(int, int)>) {
    forall i :: 0 <= i < |ms| ==> InBounds(ms[i].0, ms[i].1)
  }

  /** The state after making the moves `ms` one after another. */
  function Play(g: Game, ms: seq<(int, int)>): (r: Game)
    requires |g.cells| == 9 && AllInBounds(ms)
    ensures |r.cells| == 9
    decreases |ms|
  {
    if ms == [] then g else Play(Move(g, ms[0].0, ms[0].1), ms[1..])
  }

  /** Every move of `ms` is accepted when made in turn from `g`. */
  predicate AllAccepted(g: Game, ms: seq<(int, int)>)
    requires |g.cells| == 9 && AllInBounds(ms)
    decreases |ms|
  {
    ms == [] ||
    (Accepts(g, ms[0].0, ms[0].1) && AllAccepted(Move(g, ms[0].0, ms[0].1), ms[1..]))
  }

  /** Any sequence of moves keeps the invariant. */
  lemma {:induction false} PlayPreservesValid(g: Game, ms: seq<(int, int)>)
    requires Valid(g) && AllInBounds(ms)
    ensures Valid(Play(g, ms))
    decreases |ms|
  {
    if ms != [] {
      MovePreservesValid(g, ms[0].0, ms[0].1);
      PlayPreservesValid(Move(g, ms[0].0, ms[0].1), ms[1..]);
    }
  }

  /** A finished game is frozen: no sequence of moves changes it. */
  lemma {:induction false} FinishedGameIsFrozen(g: Game, ms: seq<(int, int)>)
    requires |g.cells| == 9 && AllInBounds(ms) && g.over
    ensures Play(g, ms) == g
    decreases |ms|
  {
    if ms != [] {
      FinishedGameIsFrozen(g, ms[1..]);
    }
  }

  /** After N accepted moves from a fresh game the count is N, exactly N
      cells are filled and, while the game runs, the turn has alternated
      from X on every move. */
  lemma {:induction false} AcceptedMovesAreCounted(g: Game, ms: seq<(int, int)>)
    requires Valid(g) && AllInBounds(ms) && AllAccepted(g, ms)
    ensures Play(g, ms).moves == g.moves + |ms| == Filled(Play(g, ms).cells)
    ensures !Play(g, ms).over ==> Play(g, ms).current == ToMove(g.moves + |ms|)
    decreases |ms|
  {
    if ms != [] {
      MovePreservesValid(g, ms[0].0, ms[0].1);
      AcceptedMovesAreCounted(Move(g, ms[0].0, ms[0].1), ms[1..]);
    }
  }

  /** The winning-line test is the disjunction of the eight lines. */
  lemma EightLines(cells: seq<Cell>)
    requires |cells| == 9
    ensures HasWinningLine(cells) <==>
      LineComplete(cells, 0) || LineComplete(cells, 1) || LineComplete(cells, 2) ||
      LineComplete(cells, 3) || LineComplete(cells, 4) || LineComplete(cells, 5) ||
      LineComplete(cells, 6) || LineComplete(cells, 7)
  {
  }

  /** An accepted move on a board where it completes no line and that still
      has a free cell afterwards only passes the turn. */
  lemma QuietMove(g: Game, row: int, col: int, b: seq<Cell>)
    requires |g.cells| == 9 && InBounds(row, col) && Accepts(g, row, col)
    requires b == g.cells[Idx(row, col) := Mark(g.current)]
    requires !LineComplete(b, 0) && !LineComplete(b, 1) && !LineComplete(b, 2) && !LineComplete(b, 3)
    requires !LineComplete(b, 4) && !LineComplete(b, 5) && !LineComplete(b, 6) && !LineComplete(b, 7)
    requires g.moves != 8
    ensures Move(g, row, col) == g.(cells := b, moves := g.moves + 1, current := Other(g.current))
  {
  }

  /** Five moves are played one after another. */
  lemma PlayFive(g: Game, ms: seq<(int, int)>)
    requires |g.cells| == 9 && AllInBounds(ms) && |ms| == 5
    ensures Play(g, ms) ==
      Move(Move(Move(Move(Move(g, ms[0].0, ms[0].1), ms[1].0, ms[1].1), ms[2].0, ms[2].1), ms[3].0, ms[3].1), ms[4].0, ms[4].1)
  {
    var g1 := Move(g, ms[0].0, ms[0].1);
    var g2 := Move(g1, ms[1].0, ms[1].1);
    var g3 := Move(g2, ms[2].0, ms[2].1);
    var g4 := Move(g3, ms[3].0, ms[3].1);
    assert Play(g, ms) == Play(g1, ms[1..]);
    assert Play(g1, ms[1..]) == Play(g2, ms[2..]);
    assert Play(g2, ms[2..]) == Play(g3, ms[3..]);
    assert Play(g3, ms[3..]) == Play(g4, ms[4..]);
  }

  /** The first two moves of the row-0 example: X at (0,0), O at (1,1). */
  lemma RowZeroFirstPair(g: Game)
    requires g == Initial()
    ensures Move(Move(g, 0, 0), 1, 1) ==
      Game([Mark(X), Empty, Empty, Empty, Mark(O), Empty, Empty, Empty, Empty], X, false, NoWinner, 2)
  {
    QuietMove(g, 0, 0, [Mark(X), Empty, Empty, Empty, Empty, Empty, Empty, Empty, Empty]);
    QuietMove(Move(g, 0, 0), 1, 1, [Mark(X), Empty, Empty, Empty, Mark(O), Empty, Empty, Empty, Empty]);
  }

  /** The next two moves: X at (0,1), O at (2,2); nobody has a line yet. */
  lemma RowZeroSecondPair(g: Game)
    requires g == Game([Mark(X), Empty, Empty, Empty, Mark(O), Empty, Empty, Empty, Empty], X, false, NoWinner, 2)
    ensures Move(Move(g, 0, 1), 2, 2) ==
      Game([Mark(X), Mark(X), Empty, Empty, Mark(O), Empty, Empty, Empty, Mark(O)], X, false, NoWinner, 4)
  {
    QuietMove(g, 0, 1, [Mark(X), Mark(X), Empty, Empty, Mark(O), Empty, Empty, Empty, Empty]);
    QuietMove(Move(g, 0, 1), 2, 2, [Mark(X), Mark(X), Empty, Empty, Mark(O), Empty, Empty, Empty, Mark(O)]);
  }

  /** The last move of the row-0 example: X at (0,2) completes row 0. */
  lemma RowZeroLastMove(g: Game)
    requires g == Game([Mark(X), Mark(X), Empty, Empty, Mark(O), Empty, Empty, Empty, Mark(O)], X, false, NoWinner, 4)
    ensures Move(g, 0, 2) ==
      Game([Mark(X), Mark(X), Mark(X), Empty, Mark(O), Empty, Empty, Empty, Mark(O)], X, true, WonBy(X), 5)
  {
    assert LineComplete(g.cells[Idx(0, 2) := Mark(X)], 0);
  }

  /** X takes (0,0), (0,1), (0,2) while O answers at (1,1) and (2,2): X wins
      on the fifth move with row 0. */
  lemma RowZeroWin(g: Game, ms: seq<(int, int)>)
    requires g == Initial() && ms == [(0, 0), (1, 1), (0, 1), (2, 2), (0, 2)]
    ensures AllInBounds(ms)
    ensures Play(g, ms).over && Play(g, ms).winner == WonBy(X) && Play(g, ms).moves == 5
  {
    assert AllInBounds(ms);
    PlayFive(g, ms);
    RowZeroFirstPair(g);
    var g2 := Move(Move(g, 0, 0), 1, 1);
    RowZeroSecondPair(g2);
    RowZeroLastMove(Move(Move(g2, 0, 1), 2, 2));
  }
}
