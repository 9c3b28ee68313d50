/**
 * The game-state store: the deterministic core of TicTacTussle. A `GameState` holds the stage of
 * the match, a nine-cell board, whose turn it is, the joined players and the log of every event
 * it consumed. `IsValidOn` decides whether an event may be applied; `Dispatch` applies one in place.
 *
 * The validator is modelled exactly as written, including the checks that read inverted:
 * `BeginGame` is refused when `goes_first` already is a player, `PlaceTile` is refused when it is
 * the actor's turn, and a `PlaceTile` is refused only when the very same tile already lies on the
 * target cell. `BeginGame` never moves the stage to `Playing`.
 */
module Store {
  import opened Primitives

  const BoardSize: nat := 9

  datatype Player = Player(name: string)

  datatype Tile = Empty | Tic | Tac

  /** The stage of a match (`State` in the source). */
  datatype State = PreGame | Playing | Ended

  type Board = b: seq<Tile> | |b| == BoardSize
    witness [Empty, Empty, Empty, Empty, Empty, Empty, Empty, Empty, Empty]

  datatype EndGameReason =
    | PlayerDisconnected(playerId: u64)
    | PlayerWon(winner: u64)

  /** The events a match consumes; `PlaceTile` carries the tile it places. */
  datatype GameEvent =
    | BeginGame(goesFirst: u64)
    | EndGame(reason: EndGameReason)
    | PlayerJoined(playerId: u64, name: string)
    | PlayerDisconnected(playerId: u64)
    | PlaceTile(playerId: u64, tile: Tile, at: usize)

  /** The value of a `GameState` at one moment. */
  datatype GameView = GameView(
    state: State,
    board: Board,
    activePlayerId: u64,
    players: map<u64, Player>,
    history: seq<GameEvent>)

  /** `GameState::default()`. */
  function Default(): GameView
  {
    GameView(PreGame, [Empty, Empty, Empty, Empty, Empty, Empty, Empty, Empty, Empty], 0, map[], [])
  }

  /**
   * `GameEvent::is_valid_on`: the checks of each variant in the order the source makes them,
   * each failing check refusing the event.
   */
  predicate IsValidOn(e: GameEvent, s: GameView)
    ensures e.BeginGame? ==> (IsValidOn(e, s) <==> s.state == PreGame && e.goesFirst !in s.players)
    ensures e.EndGame? && e.reason.PlayerWon? ==> (IsValidOn(e, s) <==> s.state == Playing)
    ensures e.EndGame? && e.reason.PlayerDisconnected? ==> IsValidOn(e, s)
    ensures e.PlayerJoined? ==> (IsValidOn(e, s) <==> e.playerId !in s.players)
    ensures e.PlayerDisconnected? ==> (IsValidOn(e, s) <==> e.playerId in s.players)
    ensures e.PlaceTile? ==>
      (IsValidOn(e, s) <==>
        && e.playerId in s.players
        && s.activePlayerId != e.playerId
        && e.at < BoardSize
        && s.board[e.at] != e.tile)
  {
    match e
    case BeginGame(goesFirst) =>
      // named `player_is_unknown` in the source, but it is a membership test
      var playerIsUnknown := goesFirst in s.players;
      if s.state != PreGame || playerIsUnknown then false else true
    case EndGame(reason) =>
      if reason.PlayerWon? && s.state != Playing then false else true
    case PlayerJoined(playerId, _) =>
      if playerId in s.players then false else true
    case PlayerDisconnected(playerId) =>
      if playerId !in s.players then false else true
    case PlaceTile(playerId, tile, at) =>
      if playerId !in s.players then false
      else if s.activePlayerId == playerId then false
      else if at > 8 then false
      else if s.board[at] == tile then false
      else true
  }

  /** Some joined player other than `p`. */
  predicate HasOtherPlayer(players: map<u64, Player>, p: u64)
  {
    exists q :: q in players && q != p
  }

  /**
   * What `reduce` needs in order not to panic: a `PlaceTile` must index the board and there must
   * be another player to pass the turn to (the source unwraps that lookup).
   */
  predicate Reducible(s: GameView, e: GameEvent)
  {
    e.PlaceTile? ==> e.at < BoardSize && HasOtherPlayer(s.players, e.playerId)
  }

  /**
   * One `reduce` step from `s` to `t`: the event's own effect, and the event appended to the
   * history. The player who gets the turn after `PlaceTile` is any joined player other than the
   * actor: the source takes the first such key in hash-map order.
   */
  ghost predicate Reduces(s: GameView, e: GameEvent, t: GameView)
  {
    && t.history == s.history + [e]
    && match e
       case BeginGame(goesFirst) =>
         t.state == s.state && t.board == s.board && t.activePlayerId == goesFirst
         && t.players == s.players
       case EndGame(_) =>
         t.state == Ended && t.board == s.board && t.activePlayerId == s.activePlayerId
         && t.players == s.players
       case PlayerJoined(playerId, name) =>
         t.state == s.state && t.board == s.board && t.activePlayerId == s.activePlayerId
         && t.players == s.players[playerId := Player(name)]
       case PlayerDisconnected(playerId) =>
         t.state == s.state && t.board == s.board && t.activePlayerId == s.activePlayerId
         && t.players == s.players - {playerId}
       case PlaceTile(playerId, tile, at) =>
         && at < BoardSize
         && t.state == s.state
         && t.board == s.board[at := tile]
         && t.activePlayerId in s.players && t.activePlayerId != playerId
         && t.players == s.players
  }

  /** `GameState`: the mutable aggregate a lobby owns. */
  class GameState {
    var state: State
    const board: array<Tile>
    var activePlayerId: u64
    var players: map<u64, Player>
    var history: seq<GameEvent>

    ghost predicate Valid()
    {
      board.Length == BoardSize
    }

    /** The current value of this game state. */
    function View(): GameView
      reads this, board
      requires Valid()
    {
      GameView(state, board[..], activePlayerId, players, history)
    }

    /** `GameState::default()`: pre-game, nine empty cells, player 0 active, nobody joined, no history. */
    constructor ()
      ensures Valid() && fresh(board)
      ensures View() == Default()
    {
      state := PreGame;
      board := new Tile[BoardSize](_ => Empty);
      activePlayerId := 0;
      players := map[];
      history := [];
      new;
      assert board[..] == Default().board;
    }

    /** `GameState::reduce`: applies the event without re-checking it, then logs it. */
    method Reduce(event: GameEvent)
      requires Valid() && Reducible(View(), event)
      modifies this, board
      ensures Valid()
      ensures Reduces(old(View()), event, View())
    {
      match event {
        case BeginGame(goesFirst) =>
          activePlayerId := goesFirst;
        case EndGame(_) =>
          state := Ended;
        case PlayerJoined(playerId, name) =>
          players := players[playerId := Player(name)];
        case PlayerDisconnected(playerId) =>
          players := players - {playerId};
        case PlaceTile(playerId, tile, at) =>
          board[at] := tile;
          var other :| other in players && other != playerId;
          activePlayerId := other;
      }
      history := history + [event];
    }

    /** `GameState::dispatch`: the public entry point, which reduces the event. */
    method Dispatch(event: GameEvent)
      requires Valid() && Reducible(View(), event)
      modifies this, board
      ensures Valid()
      ensures Reduces(old(View()), event, View())
    {
      Reduce(event);
    }
  }
}
