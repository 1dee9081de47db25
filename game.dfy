/** The game object of backend/app.py: a 3x3 board held in place and four
    scalar fields, changed by `MakeMove` and `Reset`. Each method is proved
    against the value-level rules of module Engine through `GetState`. */
module GameObject {
  import opened Engine

  /** The cells of a 3x3 grid in row-major order: cell (r, c) is entry
      `Idx(r, c)`. */
  function Cells(board: array2<Cell>): (cells: seq<Cell>)
    requires board.Length0 == 3 && board.Length1 == 3
    reads board
    ensures |cells| == 9
  {
    [board[0, 0], board[0, 1], board[0, 2],
     board[1, 0], board[1, 1], board[1, 2],
     board[2, 0], board[2, 1], board[2, 2]]
  }

  class TicTacToeGame {
    var board: array2<Cell>
    var currentPlayer: Player
    var gameOver: bool
    var winner: Winner
    var movesCount: int

    /** The board is a 3x3 grid. */
    ghost predicate Shaped()
      reads this
    {
      board.Length0 == 3 && board.Length1 == 3
    }

    /** The state as a value, the counterpart of `get_state`. */
    function GetState(): (g: Game)
      requires Shaped()
      reads this, board
      ensures g.cells == Cells(board)
      ensures g.current == currentPlayer && g.over == gameOver && g.winner == winner && g.moves == movesCount
    {
      Game(Cells(board), currentPlayer, gameOver, winner, movesCount)
    }

    /** A new game: empty board, X to move, not over, no winner, no moves. */
    constructor ()
      ensures Shaped() && fresh(board)
      ensures GetState() == Initial()
    {
      board := new Cell[3, 3]((r, c) => Empty);
      currentPlayer := X;
      gameOver := false;
      winner := NoWinner;
      movesCount := 0;
    }

    /** Whether some row, column or diagonal holds three equal marks: the rows
        first, then the columns, then the two diagonals. */
    method CheckWinner() returns (won: bool)
      requires Shaped()
      ensures won == HasWinningLine(GetState().cells)
    {
      ghost var cells := GetState().cells;
      for r := 0 to 3
        invariant forall k :: 0 <= k < r ==> !LineComplete(cells, k)
      {
        if Three(board[r, 0], board[r, 1], board[r, 2]) {
          assert LineComplete(cells, r);
          return true;
        }
      }
      for c := 0 to 3
        invariant forall k :: 0 <= k < 3 + c ==> !LineComplete(cells, k)
      {
        if Three(board[0, c], board[1, c], board[2, c]) {
          assert LineComplete(cells, 3 + c);
          return true;
        }
      }
      if Three(board[0, 0], board[1, 1], board[2, 2]) {
        assert LineComplete(cells, 6);
        return true;
      }
      if Three(board[0, 2], board[1, 1], board[2, 0]) {
        assert LineComplete(cells, 7);
        return true;
      }
      assert !LineComplete(cells, 6) && !LineComplete(cells, 7);
      return false;
    }

    /** `make_move(row, col)`: refuses when the game is over or the cell is
        taken; otherwise marks the cell, counts the move and then ends the game
        or passes the turn. The coordinates are checked by the caller. */
    method MakeMove(row: int, col: int) returns (ok: bool)
      requires Shaped() && InBounds(row, col)
      modifies this, board
      ensures Shaped() && board == old(board)
      ensures ok == Accepts(old(GetState()), row, col)
      ensures GetState() == Move(old(GetState()), row, col)
      ensures Valid(old(GetState())) ==> Valid(GetState())
    {
      ghost var before := GetState();
      if gameOver || board[row, col] != Empty {
        return false;
      }
      board[row, col] := Mark(currentPlayer);
      ghost var cells := before.cells[Idx(row, col) := Mark(before.current)];
      assert Cells(board) == cells;
      movesCount := movesCount + 1;
      var won := CheckWinner();
      if won {
        winner := WonBy(currentPlayer);
        gameOver := true;
      } else if movesCount == 9 {
        gameOver := true;
        winner := Tie;
      } else {
        currentPlayer := if currentPlayer == X then O else X;
      }
      assert GetState() == Move(before, row, col);
      if Valid(before) {
        MovePreservesValid(before, row, col);
      }
      return true;
    }

    /** `reset`: the state of a new game, on a fresh board. */
    method Reset()
      modifies this
      ensures Shaped() && fresh(board)
      ensures GetState() == Initial()
    {
      board := new Cell[3, 3]((r, c) => Empty);
      currentPlayer := X;
      gameOver := false;
      winner := NoWinner;
      movesCount := 0;
    }
  }
}
