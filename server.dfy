/** The request layer of backend/app.py over the `games` dictionary: game ids
    are handed out as `len(games) + 1`, a request for an unknown id is answered
    "not found", and a move's coordinates are checked before the game is
    touched. Games are kept as `Game` values; the route functions state what
    each request does to the dictionary and the `Registry` class performs it
    in place. */
module Server {
  import opened Engine

  /** The route's answer without the transport: the three error replies and
      the two kinds of successful reply. */
  datatype Response =
    | GameNotFound                      // 404, 'Game not found'
    | InvalidPosition                   // 400, 'Invalid position'
    | InvalidMove                       // 400, 'Invalid move'
    | Created(id: int, state: Game)     // new game: its id and state
    | StateOf(state: Game)              // a game's state

  /** The ids in use are exactly 1..len(games): ids are handed out in order
      and no game is ever removed. */
  ghost predicate DenseIds(games: map<int, Game>) {
    forall id :: id in games <==> 1 <= id <= |games|
  }

  /** Every stored game satisfies the game invariant. */
  ghost predicate AllValid(games: map<int, Game>) {
    forall id :: id in games ==> Valid(games[id])
  }

  /** `new_game`: a fresh game under id len(games) + 1; every other entry is
      kept. */
  function NewGame(games: map<int, Game>): (res: (Response, map<int, Game>))
    ensures res.0.Created? && res.0.id == |games| + 1 && res.0.state == Initial()
    ensures res.1.Keys == games.Keys + {res.0.id} && res.1[res.0.id] == Initial()
    ensures forall id :: id in games && id != res.0.id ==> res.1[id] == games[id]
  {
    var id := |games| + 1;
    (Created(id, Initial()), games[id := Initial()])
  }

  /** With dense ids the id `new_game` hands out is unused, so no existing game
      is overwritten, and the ids stay dense. */
  lemma NewGameIdIsFresh(games: map<int, Game>)
    requires DenseIds(games)
    ensures NewGame(games).0.id !in games
    ensures DenseIds(NewGame(games).1)
  {
  }

  /** `get_game_state`: the state of a known game, "not found" otherwise. */
  function GetGameState(games: map<int, Game>, id: int): (r: Response)
    ensures r == GameNotFound <==> id !in games
    ensures id in games ==> r == StateOf(games[id])
  {
    if id !in games then GameNotFound else StateOf(games[id])
  }

  /** The move route: an unknown id is "not found" and a coordinate outside
      0..2 is "invalid position", in that order, both without touching any
      game; otherwise the game's own answer decides between its new state and
      "invalid move". Only the addressed game can change. */
  function MakeMoveRoute(games: map<int, Game>, id: int, row: int, col: int): (res: (Response, map<int, Game>))
    requires forall k :: k in games ==> |games[k].cells| == 9
    ensures id !in games ==> res == (GameNotFound, games)
    ensures id in games && !InBounds(row, col) ==> res == (InvalidPosition, games)
    ensures res.1.Keys == games.Keys
    ensures forall k :: k in games && k != id ==> res.1[k] == games[k]
    ensures id in games && InBounds(row, col) ==>
      res.1[id] == Move(games[id], row, col) &&
      (res.0 == InvalidMove <==> !Accepts(games[id], row, col)) &&
      (res.0 != InvalidMove ==> res.0 == StateOf(res.1[id]))
    ensures res.0 == InvalidMove ==> res.1 == games
  {
    if id !in games then (GameNotFound, games)
    else if !InBounds(row, col) then (InvalidPosition, games)
    else
      var game := games[id];
      if Accepts(game, row, col) then
        var next := Move(game, row, col);
        (StateOf(next), games[id := next])
      else
        (InvalidMove, games)
  }

  /** `reset_game`: a known game goes back to the initial state; an unknown id
      is "not found" and changes nothing. */
  function ResetGame(games: map<int, Game>, id: int): (res: (Response, map<int, Game>))
    ensures id !in games ==> res == (GameNotFound, games)
    ensures res.1.Keys == games.Keys
    ensures id in games ==> res.0 == StateOf(Initial()) && res.1[id] == Initial()
    ensures forall k :: k in games && k != id ==> res.1[k] == games[k]
  {
    if id !in games then (GameNotFound, games)
    else (StateOf(Initial()), games[id := Initial()])
  }

  /** A new game is valid, so `new_game` keeps every stored game valid. */
  lemma NewGameKeepsGamesValid(games: map<int, Game>)
    requires AllValid(games)
    ensures AllValid(NewGame(games).1)
  {
  }

  /** The move route keeps the ids dense and every stored game valid. */
  lemma MoveRouteKeepsInvariant(games: map<int, Game>, id: int, row: int, col: int)
    requires DenseIds(games) && AllValid(games)
    ensures DenseIds(MakeMoveRoute(games, id, row, col).1)
    ensures AllValid(MakeMoveRoute(games, id, row, col).1)
  {
    var next := MakeMoveRoute(games, id, row, col).1;
    assert |next| == |games| by {
      assert next.Keys == games.Keys;
    }
    if id in games && InBounds(row, col) {
      MovePreservesValid(games[id], row, col);
    }
  }

  /** The reset route keeps the ids dense and every stored game valid. */
  lemma ResetKeepsInvariant(games: map<int, Game>, id: int)
    requires DenseIds(games) && AllValid(games)
    ensures DenseIds(ResetGame(games, id).1) && AllValid(ResetGame(games, id).1)
  {
  }

  /** The `games` dictionary, changed in place by the routes. */
  class Registry {
    var games: map<int, Game>

    ghost predicate Valid()
      reads this
    {
      DenseIds(games) && AllValid(games)
    }

    /** The server starts with no games. */
    constructor ()
      ensures Valid() && games == map[]
    {
      games := map[];
    }

    method NewGameRequest() returns (resp: Response)
      requires Valid()
      modifies this
      ensures Valid()
      ensures (resp, games) == NewGame(old(games))
    {
      var id := |games| + 1;
      games := games[id := Initial()];
      resp := Created(id, Initial());
      NewGameIdIsFresh(old(games));
      NewGameKeepsGamesValid(old(games));
    }

    method MakeMoveRequest(id: int, row: int, col: int) returns (resp: Response)
      requires Valid()
      modifies this
      ensures Valid()
      ensures (resp, games) == MakeMoveRoute(old(games), id, row, col)
    {
      MoveRouteKeepsInvariant(games, id, row, col);
      if id !in games {
        return GameNotFound;
      }
      if !(0 <= row <= 2 && 0 <= col <= 2) {
        return InvalidPosition;
      }
      var game := games[id];
      if Accepts(game, row, col) {
        games := games[id := Move(game, row, col)];
        resp := StateOf(games[id]);
      } else {
        resp := InvalidMove;
      }
    }

    method ResetGameRequest(id: int) returns (resp: Response)
      requires Valid()
      modifies this
      ensures Valid()
      ensures (resp, games) == ResetGame(old(games), id)
    {
      ResetKeepsInvariant(games, id);
      if id !in games {
        return GameNotFound;
      }
      games := games[id := Initial()];
      return StateOf(Initial());
    }
  }
}
