/**
 * Properties of the store over single steps and over runs of `Dispatch`. A run is a sequence of
 * views, each obtained from the previous one by reducing the next event; the constructor and
 * `GameState.Dispatch` produce exactly such runs.
 */
module StoreProperties {
  import opened Primitives
  import opened Store

  /** `views[i + 1]` is `views[i]` after reducing `events[i]`. */
  ghost predicate IsRun(views: seq<GameView>, events: seq<GameEvent>)
  {
    && |views| == |events| + 1
    && forall i :: 0 <= i < |events| ==> Reduces(views[i], events[i], views[i + 1])
  }

  /** The history after a run is the history before it followed by the run's events, in order. */
  lemma {:induction false} HistoryLog(views: seq<GameView>, events: seq<GameEvent>)
    requires IsRun(views, events)
    ensures views[|events|].history == views[0].history + events
    ensures |views[|events|].history| == |views[0].history| + |events|
  {
    if events != [] {
      var n := |events| - 1;
      HistoryLog(views[..n + 1], events[..n]);
      assert Reduces(views[n], events[n], views[n + 1]);
      assert events == events[..n] + [events[n]];
    }
  }

  /** No reduction ever sets the stage to `Playing`: a run that does not start there never gets there. */
  lemma {:induction false} NeverPlaying(views: seq<GameView>, events: seq<GameEvent>)
    requires IsRun(views, events) && views[0].state != Playing
    ensures forall i :: 0 <= i < |views| ==> views[i].state != Playing
  {
    if events != [] {
      var n := |events| - 1;
      NeverPlaying(views[..n + 1], events[..n]);
      assert Reduces(views[n], events[n], views[n + 1]);
    }
  }

  /**
   * Consequently, on every state reached from `GameState::default()`, an `EndGame` that names a
   * winner is refused.
   */
  lemma PlayerWonNeverValid(views: seq<GameView>, events: seq<GameEvent>, i: nat, winner: u64)
    requires IsRun(views, events) && views[0] == Default() && i < |views|
    ensures !IsValidOn(EndGame(PlayerWon(winner)), views[i])
  {
    NeverPlaying(views, events);
  }

  /** The tile a cell holds after `events`: that of the last placement on it, else `start`. */
  function CellAfter(start: Tile, events: seq<GameEvent>, k: nat): Tile
  {
    if events == [] then start
    else
      var last := events[|events| - 1];
      if last.PlaceTile? && last.at == k then last.tile
      else CellAfter(start, events[..|events| - 1], k)
  }

  /** Each cell holds the tile of the last `PlaceTile` aimed at it, or its initial tile. */
  lemma {:induction false} BoardCellProvenance(views: seq<GameView>, events: seq<GameEvent>, k: nat)
    requires IsRun(views, events) && k < BoardSize
    ensures views[|events|].board[k] == CellAfter(views[0].board[k], events, k)
  {
    if events != [] {
      var n := |events| - 1;
      BoardCellProvenance(views[..n + 1], events[..n], k);
      assert Reduces(views[n], events[n], views[n + 1]);
    }
  }

  /**
   * The turn check is inverted: after a valid `PlaceTile` by `p`, the player who was handed the
   * turn is refused every placement, while `p` may place the same tile again on any cell that
   * does not already hold it.
   */
  lemma TurnPassesToLockedOutPlayer(s: GameView, p: u64, tile: Tile, at: usize, t: GameView)
    requires IsValidOn(PlaceTile(p, tile, at), s) && Reduces(s, PlaceTile(p, tile, at), t)
    ensures t.activePlayerId in t.players && t.activePlayerId != p
    ensures forall tile': Tile, at': usize :: !IsValidOn(PlaceTile(t.activePlayerId, tile', at'), t)
    ensures forall at': usize :: at' < BoardSize && t.board[at'] != tile ==> IsValidOn(PlaceTile(p, tile, at'), t)
  {
  }

  /**
   * `BeginGame` only accepts an id that is not a player and makes it the active id; the stage
   * stays `PreGame` and every joined player may then place on any cell not holding that tile.
   */
  lemma BeginGameLetsEveryPlayerPlace(s: GameView, goesFirst: u64, t: GameView)
    requires IsValidOn(BeginGame(goesFirst), s) && Reduces(s, BeginGame(goesFirst), t)
    ensures t.state == PreGame && t.activePlayerId !in t.players
    ensures forall p: u64, tile: Tile, at: usize ::
      p in t.players && at < BoardSize && t.board[at] != tile ==> IsValidOn(PlaceTile(p, tile, at), t)
  {
  }

  /**
   * A placement may overwrite a mark: whatever the cell holds, any different tile placed there by
   * a joined player whose turn it is not is accepted and replaces it.
   */
  lemma PlacementMayOverwrite(s: GameView, p: u64, tile: Tile, at: usize, t: GameView)
    requires p in s.players && s.activePlayerId != p && at < BoardSize && s.board[at] != tile
    requires Reduces(s, PlaceTile(p, tile, at), t)
    ensures IsValidOn(PlaceTile(p, tile, at), s)
    ensures t.board[at] == tile
  {
  }

  /** After a player joins, joining again under that id is refused and disconnecting is accepted. */
  lemma JoinedPlayerIsKnown(s: GameView, p: u64, name: string, t: GameView)
    requires Reduces(s, PlayerJoined(p, name), t)
    ensures p in t.players && t.players[p] == Player(name)
    ensures forall name': string :: !IsValidOn(PlayerJoined(p, name'), t)
    ensures IsValidOn(GameEvent.PlayerDisconnected(p), t)
  {
  }

  /**
   * After a player disconnects, every placement by it and a second disconnect are refused, and
   * the id may join again.
   */
  lemma DisconnectedPlayerIsLockedOut(s: GameView, p: u64, t: GameView)
    requires Reduces(s, GameEvent.PlayerDisconnected(p), t)
    ensures p !in t.players
    ensures forall tile: Tile, at: usize :: !IsValidOn(PlaceTile(p, tile, at), t)
    ensures !IsValidOn(GameEvent.PlayerDisconnected(p), t)
    ensures forall name: string :: IsValidOn(PlayerJoined(p, name), t)
  {
  }

  /**
   * With at least two players, every event the validator accepts can be reduced without
   * panicking; for events other than `PlaceTile` no player count is needed.
   */
  lemma {:induction false} ValidIsReducibleWithTwoPlayers(s: GameView, e: GameEvent)
    requires IsValidOn(e, s)
    requires e.PlaceTile? ==> |s.players| >= 2
    ensures Reducible(s, e)
  {
    if e.PlaceTile? {
      var others := s.players.Keys - {e.playerId};
      assert |others| == |s.players.Keys| - 1 >= 1;
      var q :| q in others;
      assert q in s.players && q != e.playerId;
    }
  }

  /**
   * Without that second player the validator is not enough: one `PlayerJoined` after
   * `GameState::default()` reaches a state on which a `PlaceTile` passes the validator but
   * `reduce` has nobody to hand the turn to, where the source panics.
   */
  lemma ValidPlacementCanPanic()
    ensures exists views: seq<GameView>, events: seq<GameEvent>, e: GameEvent ::
      && IsRun(views, events) && views[0] == Default()
      && (forall i :: 0 <= i < |events| ==> IsValidOn(events[i], views[i]))
      && IsValidOn(e, views[|events|]) && !Reducible(views[|events|], e)
  {
    var joined := PlayerJoined(5, "a");
    var v1 := Default().(players := map[5 := Player("a")], history := [joined]);
    var views, events := [Default(), v1], [joined];
    assert Reduces(views[0], events[0], views[1]);
    assert IsRun(views, events);
    var e := PlaceTile(5, Tic, 0);
    assert IsValidOn(e, views[|events|]);
    assert !HasOtherPlayer(v1.players, 5);
    assert !Reducible(views[|events|], e);
  }

  /**
   * The constructor and `Dispatch` produce runs: two players join a fresh game, the views after
   * each step form a run, and the history is exactly the two events.
   */
  method TwoJoinsFormARun() returns (views: seq<GameView>, events: seq<GameEvent>)
    ensures IsRun(views, events) && views[0] == Default()
    ensures events == [PlayerJoined(1, "a"), PlayerJoined(2, "b")]
    ensures views[|events|].history == events
    ensures views[|events|].players == map[1 := Player("a"), 2 := Player("b")]
  {
    var game := new GameState();
    events := [PlayerJoined(1, "a"), PlayerJoined(2, "b")];
    var v0 := game.View();
    game.Dispatch(events[0]);
    var v1 := game.View();
    game.Dispatch(events[1]);
    var v2 := game.View();
    views := [v0, v1, v2];
    assert Reduces(views[0], events[0], views[1]);
    assert Reduces(views[1], events[1], views[2]);
    HistoryLog(views, events);
  }
}
