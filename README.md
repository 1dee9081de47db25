# Tic-tac-toe game engine and its request layer, in Dafny

This project models the server side of a two-player tic-tac-toe web
application. The model covers:

- the `TicTacToeGame` class of `backend/app.py`, which holds a 3x3 board, the
  player to move (`X` starts), a `game_over` flag, the `winner` (none, `X`, `O`
  or `tie`) and a move counter;
- its operations: `make_move`, `check_winner`, `reset` and `get_state`;
- the request routes that keep games in the global `games` dictionary under
  the ids 1, 2, 3, ….

There are three modules, one per file:

- `engine.dfy`, module `Engine`. The game rules, stated on values. A `Game`
  holds the nine cells in row-major order, so cell (row, col) is entry
  `3 * row + col`. It also holds the player to move, the over flag, the winner
  and the move count. `Move` is the state change `make_move` makes. `Valid` is
  the invariant of every reachable state:
  - the count equals the number of filled cells;
  - a running game has no winner, no complete line and a free cell, and the
    turn follows the parity of the count;
  - a finished game keeps the last mover as current player and records either
    that player's line or a tie on a full board without a line.

  The lemmas prove that every move keeps `Valid` and that the rules hold
  (listed below).
- `game.dfy`, module `GameObject`. The class `TicTacToeGame`. Its board is an
  `array2<Cell>` that `MakeMove` writes in place. `Reset` allocates a fresh
  board, as `self.__init__()` does. `CheckWinner` scans the rows, then the
  columns, then the two diagonals, as the source's loops do. Each method's
  postcondition ties the object's new state, read through `GetState`, to the
  `Engine` function of the old state.
- `server.dfy`, module `Server`. The routes `new_game`, `get_game_state`,
  `make_move` and `reset_game` over the `games` dictionary, written as
  functions from the dictionary to a response and a new dictionary. The class
  `Registry` holds the dictionary as a field and performs the same changes in
  place. The request checks run in the source's order: unknown id (not found),
  then coordinates outside 0..2 (invalid position), then the engine's own
  refusal (invalid move). Ids stay exactly `1..len(games)` because `new_game`
  uses `len(games) + 1` and nothing is ever removed. So a new id never
  overwrites a game.

`make_move` in the class does not check its coordinates; in Python, `-1` would
index from the end of a row. The model therefore requires `0 <= row, col <= 2`
of `TicTacToeGame.MakeMove` and `Engine.Move`. The check that guarantees this
is modelled where the source makes it, in the move route (backend/app.py:103).

Some points about the code that the model follows as written:

- the winner check looks at every line, not only the mover's.
  `Engine.NewLineIsMovers` proves that under the invariant the two agree;
- the coordinate check sits in the route, not in the engine;
- ids are sequential (`len(games) + 1`), not random tokens;
- there is no delete operation.

## Model

| member | source | states |
|---|---|---|
| Engine.Other | backend/app.py:38 | the turn passes to the other player, never to the same one |
| Engine.Initial | backend/app.py:16-21 | the initial state (empty board, X to move, not over, no winner, count 0) satisfies the game invariant |
| Engine.Move | backend/app.py:23-40 | the state after `make_move` keeps nine cells, and a game is only ever ended with a winner or a tie recorded |
| Engine.FilledWrite | backend/app.py:27-28 | writing a mark into an empty cell raises the number of filled cells by exactly one, which is what `moves_count += 1` tracks |
| Engine.FilledAllIffFull | backend/app.py:34 | the filled-cell count equals the board size exactly when no cell is empty, so `moves_count == 9` means a full board (both directions) |
| Engine.RejectedMoveChangesNothing | backend/app.py:24-25 | a move on a finished game or an occupied cell is refused and leaves board, player, count and winner unchanged |
| Engine.AcceptedMoveWritesOneCell | backend/app.py:27-28 | an accepted move writes the mover's mark into the target cell, leaves the other eight cells unchanged and adds exactly one to the count |
| Engine.NewLineIsMovers | backend/app.py:31-32 | in a running game without a line, a line completed by a move belongs to the mover, so checking all lines names the right winner |
| Engine.MovePreservesValid | backend/app.py:17-38 | every move keeps the invariant: count = filled cells, running game has no winner, turn alternation from X, finished game records the mover's line or a tie |
| Engine.WinTakesPrecedence | backend/app.py:31-36 | a move that completes a line ends the game with the mover as winner, also when it fills the ninth cell |
| Engine.FullBoardWithoutLineIsTie | backend/app.py:34-36 | a move that fills the board without completing a line ends the game in a tie |
| Engine.TurnPassesOnlyOnContinuingMove | backend/app.py:31-38 | the player to move changes if and only if the move is accepted and does not end the game; otherwise the mover stays current |
| Engine.PlayPreservesValid | backend/app.py:23-40 | any sequence of moves from a valid state ends in a valid state |
| Engine.FinishedGameIsFrozen | backend/app.py:24-25 | once the game is over no sequence of moves changes any field |
| Engine.AcceptedMovesAreCounted | backend/app.py:27-38 | after N accepted moves the count grew by N and equals the filled cells, and in a running game the player to move is the one the parity of the count gives, starting with X |
| Engine.EightLines | backend/app.py:42-59 | a winning line exists exactly when one of the three rows, three columns or two diagonals holds three equal non-empty cells |
| Engine.QuietMove | backend/app.py:37-38 | an accepted move that completes no line and is not the ninth only writes the cell, counts and passes the turn |
| Engine.RowZeroWin | backend/app.py:23-40 | X at (0,0), O at (1,1), X at (0,1), O at (2,2), X at (0,2) ends the game with X as winner after 5 moves |
| GameObject.TicTacToeGame.GetState | backend/app.py:64-71 | the state read off the object: the nine cells of the board in row-major order and the four scalar fields |
| GameObject.TicTacToeGame.constructor | backend/app.py:16-21 | a new game object has a fresh 3x3 board and exactly the initial state |
| GameObject.TicTacToeGame.CheckWinner | backend/app.py:42-59 | the row, column and diagonal scan answers true exactly when the board has a winning line |
| GameObject.TicTacToeGame.MakeMove | backend/app.py:23-40 | answers whether the move is accepted, updates the board and fields in place to exactly the `Move` state, and keeps the invariant |
| GameObject.TicTacToeGame.Reset | backend/app.py:61-62 | from any state the object returns to exactly the initial state, on a fresh board |
| Server.NewGame | backend/app.py:74-81 | a new game is stored under id `len(games) + 1` in the initial state and every other entry is kept |
| Server.NewGameIdIsFresh | backend/app.py:76-77 | with ids exactly 1..len(games) the new id is unused and the ids stay exactly 1..len(games) |
| Server.NewGameKeepsGamesValid | backend/app.py:76-77 | adding a new game keeps every stored game valid |
| Server.GetGameState | backend/app.py:84-89 | not found exactly for an unknown id, otherwise the stored game's state |
| Server.MakeMoveRoute | backend/app.py:92-110 | unknown id gives not found and an out-of-range coordinate gives invalid position, both with the dictionary unchanged; otherwise the game's new state is `Move`, invalid move is answered exactly when the engine refuses, and no other game changes |
| Server.MoveRouteKeepsInvariant | backend/app.py:92-110 | the move route keeps the ids dense and every stored game valid |
| Server.ResetGame | backend/app.py:113-119 | unknown id gives not found with nothing changed; otherwise that game returns to the initial state and no other game changes |
| Server.ResetKeepsInvariant | backend/app.py:113-119 | the reset route keeps the ids dense and every stored game valid |
| Server.Registry.constructor | backend/app.py:13 | the server starts with an empty dictionary |
| Server.Registry.NewGameRequest | backend/app.py:74-81 | performs `NewGame` on the dictionary in place and keeps the ids dense and the games valid |
| Server.Registry.MakeMoveRequest | backend/app.py:92-110 | performs `MakeMoveRoute` on the dictionary in place and keeps the ids dense and the games valid |
| Server.Registry.ResetGameRequest | backend/app.py:113-119 | performs `ResetGame` on the dictionary in place and keeps the ids dense and the games valid |

## Left out

- The Flask application: routing, `request.get_json`, `jsonify`, CORS, `dotenv`, the port and debug settings and the health route (backend/app.py:1-10, 121-129). They are transport and configuration; the routes' answers are the `Response` datatype, without HTTP status codes.
- The check for missing `row`/`col` in the request body (backend/app.py:97-99). It is request parsing with no game meaning; the model's routes take `row` and `col` as integers.
- Non-integer JSON values for `row`/`col`, such as `1.5`, which pass the range check and then fail when used as list indices. They are not modelled, because the model's coordinates are integers.
- Server.MakeMoveRoute, Server.ResetGame, Server.Registry: the dictionary holds `Game` values, not shared objects. The route stores the new value rather than mutating an object that other references could see. Aliasing, such as `get_state` handing out the live board list, is therefore not captured.
- Python's negative indexing inside `make_move`. It is excluded by the precondition `0 <= row, col <= 2` on `TicTacToeGame.MakeMove` and `Engine.Move`, which the move route guarantees.
- Concurrent requests on the shared `games` dictionary. The source has no locking, and the model is sequential.
- The React front end (`frontend/src/...`). It only displays the server's state.
