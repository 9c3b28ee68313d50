/**
 * The server's lobby bookkeeping. `ServerState` owns the connected players, the lobbies (each with
 * its members and its own `GameState`) and `player2Lobby`, the reverse index from a player to the
 * lobby it plays in. The handlers model the steps of the server's tick loop that touch this
 * state; what the server would send is returned as a list of (recipient, message) pairs, in
 * sending order.
 */
module Server {
  import opened Primitives
  import opened Wrappers
  import LittleEndian
  import Store

  /** A connected client; its name is the byte string it sent in its user data. */
  datatype Player = Player(name: seq<byte>)

  datatype Lobby = Lobby(players: seq<u64>, gameState: Store.GameState)

  datatype EndGameReason = OpponentDisconnect | GameEnded

  datatype CannotJoinLobbyReason = NoSuchLobby | LobbyIsFull

  datatype ServerMessage =
    | JoinLobby(lobbyId: u64)
    | CannotJoinLobby(lobbyId: u64, why: CannotJoinLobbyReason)
    | EndGame(reason: EndGameReason)
    | BeginGame(goesFirst: u64, players: map<u64, Player>)
    | GameEvent(event: Store.GameEvent)

  /** One `server.send_message(to, 0, message)`. */
  datatype Send = Send(to: u64, message: ServerMessage)

  /** One message to each recipient, in the recipients' order. */
  function Broadcast(recipients: seq<u64>, message: ServerMessage): (sends: seq<Send>)
    ensures |sends| == |recipients|
    ensures forall i :: 0 <= i < |recipients| ==> sends[i] == Send(recipients[i], message)
  {
    seq(|recipients|, i requires 0 <= i < |recipients| => Send(recipients[i], message))
  }

  /** The set of ids listed in a lobby's member list. */
  function Members(players: seq<u64>): set<u64>
  {
    set p | p in players
  }

  /** The loop that sends one message to every member of a lobby. */
  method SendToEach(recipients: seq<u64>, message: ServerMessage) returns (sends: seq<Send>)
    ensures sends == Broadcast(recipients, message)
  {
    sends := [];
    for i := 0 to |recipients|
      invariant sends == Broadcast(recipients[..i], message)
    {
      sends := sends + [Send(recipients[i], message)];
    }
    assert recipients[..|recipients|] == recipients;
  }

  /**
   * `Player::from_user_data`: the first 8 bytes are a little-endian length, clamped to the room
   * left in the user data; the name is that many of the following bytes.
   */
  function FromUserData(userData: seq<byte>): (player: Player)
    requires |userData| == NetcodeUserDataBytes
    ensures var len := LittleEndian.FromLeBytes(userData[..8]);
      player.name == userData[8 .. 8 + if len < NetcodeUserDataBytes - 8 then len else NetcodeUserDataBytes - 8]
    ensures |player.name| <= NetcodeUserDataBytes - 8
  {
    var buffer := userData[0..8];
    var len := LittleEndian.FromLeBytes(buffer);
    var len := if len < NetcodeUserDataBytes - 8 then len else NetcodeUserDataBytes - 8;
    Player(userData[8..len + 8])
  }

  class ServerState {
    var players: map<u64, Player>
    var lobbies: map<u64, Lobby>
    var player2Lobby: map<u64, u64>

    /**
     * Every lobby's game state has its nine cells and a lobby has at most two members; no two
     * lobbies share a game state or a board.
     */
    ghost predicate Valid()
      reads this
    {
      && (forall id :: id in lobbies ==> lobbies[id].gameState.Valid() && |lobbies[id].players| <= 2)
      && (forall a, b :: a in lobbies && b in lobbies && a != b ==>
            && lobbies[a].gameState != lobbies[b].gameState
            && lobbies[a].gameState.board != lobbies[b].gameState.board)
    }

    /** The game states of all lobbies and their boards: what relaying a game event may change. */
    ghost function GameObjects(): set<object>
      reads this
    {
      (set id | id in lobbies :: lobbies[id].gameState as object)
      + (set id | id in lobbies :: lobbies[id].gameState.board as object)
    }

    /** `ServerState::default()`. */
    constructor ()
      ensures Valid()
      ensures players == map[] && lobbies == map[] && player2Lobby == map[]
    {
      players, lobbies, player2Lobby := map[], map[], map[];
    }

    /** `get_player_lobby_mut`: the lobby the reverse index names for the player, if both lookups hit. */
    function GetPlayerLobby(playerId: u64): (lobby: Option<Lobby>)
      reads this
      ensures lobby.Some? <==> playerId in player2Lobby && player2Lobby[playerId] in lobbies
      ensures lobby.Some? ==> lobby.value == lobbies[player2Lobby[playerId]]
    {
      if playerId in player2Lobby then
        var lobbyId := player2Lobby[playerId];
        if lobbyId in lobbies then Some(lobbies[lobbyId]) else None
      else None
    }

    /** `add_lobby`: always lobby 0, replacing whatever lobby 0 was with an empty one. */
    method AddLobby() returns (lobbyId: u64)
      requires Valid()
      modifies this
      ensures Valid()
      ensures lobbyId == 0
      ensures lobbies.Keys == old(lobbies.Keys) + {0}
      ensures lobbies[0].players == [] && fresh(lobbies[0].gameState) && fresh(lobbies[0].gameState.board)
      ensures lobbies[0].gameState.Valid() && lobbies[0].gameState.View() == Store.Default()
      ensures forall id :: id in old(lobbies) && id != 0 ==> lobbies[id] == old(lobbies[id])
      ensures players == old(players) && player2Lobby == old(player2Lobby)
    {
      lobbyId := 0;
      var gameState := new Store.GameState();
      lobbies := lobbies[lobbyId := Lobby([], gameState)];
    }

    /**
     * `join_lobby`: fails without change when the lobby is missing or already has two members;
     * otherwise appends the player to that lobby alone and records it in the reverse index.
     */
    method JoinLobby(playerId: u64, lobbyId: u64) returns (r: Result<(), CannotJoinLobbyReason>)
      requires Valid()
      modifies this
      ensures Valid()
      ensures players == old(players)
      ensures lobbyId !in old(lobbies) ==> r == Failure(NoSuchLobby)
      ensures lobbyId in old(lobbies) && |old(lobbies)[lobbyId].players| >= 2 ==> r == Failure(LobbyIsFull)
      ensures r.Failure? ==> lobbies == old(lobbies) && player2Lobby == old(player2Lobby)
      ensures r.Success? <==> lobbyId in old(lobbies) && |old(lobbies)[lobbyId].players| < 2
      ensures r.Success? ==>
        && lobbies == old(lobbies)[lobbyId := old(lobbies)[lobbyId].(players := old(lobbies)[lobbyId].players + [playerId])]
        && player2Lobby == old(player2Lobby)[playerId := lobbyId]
    {
      if lobbyId in lobbies {
        var lobby := lobbies[lobbyId];
        if |lobby.players| >= 2 {
          return Failure(LobbyIsFull);
        }
        lobbies := lobbies[lobbyId := lobby.(players := lobby.players + [playerId])];
        player2Lobby := player2Lobby[playerId := lobbyId];
        return Success(());
      }
      return Failure(NoSuchLobby);
    }

    /**
     * `remove_player`: removes the player, and its reverse-index entry only if the player was
     * present; lobby member lists are left as they are.
     */
    method RemovePlayer(playerId: u64) returns (player: Option<Player>)
      requires Valid()
      modifies this
      ensures Valid()
      ensures player == if playerId in old(players) then Some(old(players)[playerId]) else None
      ensures players == old(players) - {playerId}
      ensures player2Lobby == if playerId in old(players) then old(player2Lobby) - {playerId} else old(player2Lobby)
      ensures lobbies == old(lobbies)
    {
      player := if playerId in players then Some(players[playerId]) else None;
      players := players - {playerId};
      if player.Some? {
        player2Lobby := player2Lobby - {playerId};
      }
    }

    /**
     * `remove_lobby`: drops the reverse-index entry of every member of the lobby, then the lobby
     * itself, which it returns.
     */
    method RemoveLobby(lobbyId: u64) returns (lobby: Option<Lobby>)
      requires Valid()
      modifies this
      ensures Valid()
      ensures lobby == if lobbyId in old(lobbies) then Some(old(lobbies)[lobbyId]) else None
      ensures lobbies == old(lobbies) - {lobbyId}
      ensures player2Lobby == old(player2Lobby) - if lobby.Some? then Members(lobby.value.players) else {}
      ensures lobby.Some? ==> forall p :: p in lobby.value.players ==> p !in player2Lobby
      ensures players == old(players)
    {
      if lobbyId in lobbies {
        var members := lobbies[lobbyId].players;
        for i := 0 to |members|
          invariant lobbies == old(lobbies) && players == old(players)
          invariant player2Lobby == old(player2Lobby) - Members(members[..i])
        {
          assert Members(members[..i + 1]) == Members(members[..i]) + {members[i]} by {
            assert members[..i + 1] == members[..i] + [members[i]];
          }
          player2Lobby := player2Lobby - {members[i]};
        }
        assert members[..|members|] == members;
      }
      lobby := if lobbyId in lobbies then Some(lobbies[lobbyId]) else None;
      lobbies := lobbies - {lobbyId};
    }

    /** `ServerEvent::ClientConnected`: the client becomes a player named by its user data. */
    method HandleClientConnected(clientId: u64, userData: seq<byte>)
      requires Valid() && |userData| == NetcodeUserDataBytes
      modifies this
      ensures Valid()
      ensures players == old(players)[clientId := FromUserData(userData)]
      ensures lobbies == old(lobbies) && player2Lobby == old(player2Lobby)
    {
      players := players[clientId := FromUserData(userData)];
    }

    /**
     * `ServerEvent::ClientDisconnected`: the lobby id is read before the player is removed, so the
     * player's lobby is closed (and each of its members told) even when removing the player
     * already dropped the reverse-index entry.
     */
    method HandleClientDisconnected(clientId: u64) returns (sends: seq<Send>)
      requires Valid()
      modifies this
      ensures Valid()
      ensures players == old(players) - {clientId}
      ensures var cleared := if clientId in old(players) then {clientId} else {};
        if clientId in old(player2Lobby) && old(player2Lobby)[clientId] in old(lobbies) then
          var lobbyId := old(player2Lobby)[clientId];
          && lobbies == old(lobbies) - {lobbyId}
          && player2Lobby == old(player2Lobby) - cleared - Members(old(lobbies)[lobbyId].players)
          && sends == Broadcast(old(lobbies)[lobbyId].players, EndGame(OpponentDisconnect))
        else
          && lobbies == old(lobbies)
          && player2Lobby == old(player2Lobby) - cleared
          && sends == []
    {
      var lobbyId := if clientId in player2Lobby then Some(player2Lobby[clientId]) else None;
      var removedPlayer := RemovePlayer(clientId);
      sends := [];
      if lobbyId.Some? {
        var removedLobby := RemoveLobby(lobbyId.value);
        if removedLobby.Some? {
          sends := SendToEach(removedLobby.value.players, EndGame(OpponentDisconnect));
        }
      }
    }

    /**
     * `ClientMessage::CreateLobby`: adds lobby 0, then calls `join_lobby` with the lobby id as the
     * player and the client id as the lobby, as the source does. So player 0 is the one who joins,
     * into the lobby numbered like the client; with lobby 0 the only lobby that can exist, a
     * client whose id is not 0 is never placed in a lobby and gets no reply.
     */
    method HandleCreateLobby(clientId: u64) returns (sends: seq<Send>)
      requires Valid()
      modifies this
      ensures Valid()
      ensures players == old(players)
      ensures lobbies.Keys == old(lobbies.Keys) + {0}
      ensures var joined := clientId == 0 || (clientId in old(lobbies) && |old(lobbies)[clientId].players| < 2);
        && (joined ==> player2Lobby == old(player2Lobby)[0 := clientId] && sends == [Send(clientId, ServerMessage.JoinLobby(0))])
        && (!joined ==> player2Lobby == old(player2Lobby) && sends == [])
      ensures lobbies[0].players == if clientId == 0 then [0] else []
      ensures fresh(lobbies[0].gameState) && fresh(lobbies[0].gameState.board) && lobbies[0].gameState.Valid()
      ensures lobbies[0].gameState.View() == Store.Default()
      ensures forall id :: id in old(lobbies) && id != 0 && id != clientId ==> lobbies[id] == old(lobbies[id])
      ensures clientId != 0 && clientId in old(lobbies) ==>
        lobbies[clientId] ==
          if |old(lobbies)[clientId].players| < 2
          then old(lobbies)[clientId].(players := old(lobbies)[clientId].players + [0])
          else old(lobbies)[clientId]
      ensures old(lobbies.Keys) <= {0} && clientId != 0 ==> sends == [] && player2Lobby == old(player2Lobby)
    {
      var lobbyId := AddLobby();
      var joined := JoinLobby(lobbyId, clientId);
      if joined.Success? {
        sends := [Send(clientId, ServerMessage.JoinLobby(lobbyId))];
      } else {
        sends := [];
      }
    }

    /** `ClientMessage::TryJoinLobby`: joins the client and tells it whether that worked. */
    method HandleTryJoinLobby(clientId: u64, lobbyId: u64) returns (sends: seq<Send>)
      requires Valid()
      modifies this
      ensures Valid()
      ensures players == old(players)
      ensures lobbyId !in old(lobbies) ==>
        sends == [Send(clientId, CannotJoinLobby(lobbyId, NoSuchLobby))]
      ensures lobbyId in old(lobbies) && |old(lobbies)[lobbyId].players| >= 2 ==>
        sends == [Send(clientId, CannotJoinLobby(lobbyId, LobbyIsFull))]
      ensures lobbyId in old(lobbies) && |old(lobbies)[lobbyId].players| < 2 ==>
        && sends == [Send(clientId, ServerMessage.JoinLobby(lobbyId))]
        && lobbies == old(lobbies)[lobbyId := old(lobbies)[lobbyId].(players := old(lobbies)[lobbyId].players + [clientId])]
        && player2Lobby == old(player2Lobby)[clientId := lobbyId]
      ensures !(lobbyId in old(lobbies) && |old(lobbies)[lobbyId].players| < 2) ==>
        lobbies == old(lobbies) && player2Lobby == old(player2Lobby)
    {
      var joined := JoinLobby(clientId, lobbyId);
      if joined.Failure? {
        sends := [Send(clientId, CannotJoinLobby(lobbyId, joined.error))];
        return;
      }
      sends := [Send(clientId, ServerMessage.JoinLobby(lobbyId))];
    }

    /**
     * `ClientMessage::GameEvent`: when the sender is mapped to a lobby and the event is valid on
     * that lobby's game state, the event is dispatched once and relayed once to each member; in
     * every other case nothing changes and nothing is sent. A valid `PlaceTile` with no other
     * player to pass the turn to makes the source panic inside `reduce`; that is `panicked`.
     */
    method HandleGameEvent(clientId: u64, event: Store.GameEvent) returns (sends: seq<Send>, panicked: bool)
      requires Valid()
      modifies GameObjects()
      ensures Valid()
      ensures GetPlayerLobby(clientId).None? ==> sends == [] && !panicked
      ensures GetPlayerLobby(clientId).Some? ==>
        var lobby := GetPlayerLobby(clientId).value;
        var game := lobby.gameState;
        if !Store.IsValidOn(event, old(game.View())) then
          sends == [] && !panicked && unchanged(game, game.board)
        else if !Store.Reducible(old(game.View()), event) then
          sends == [] && panicked
        else
          && !panicked
          && Store.Reduces(old(game.View()), event, game.View())
          && sends == Broadcast(lobby.players, ServerMessage.GameEvent(event))
      ensures forall id :: id in lobbies && (GetPlayerLobby(clientId).None? || id != player2Lobby[clientId]) ==>
        unchanged(lobbies[id].gameState, lobbies[id].gameState.board)
    {
      sends, panicked := [], false;
      var lobby := GetPlayerLobby(clientId);
      if lobby.Some? {
        var game := lobby.value.gameState;
        assert game == lobbies[player2Lobby[clientId]].gameState;
        if Store.IsValidOn(event, game.View()) {
          if !Store.Reducible(game.View(), event) {
            panicked := true;
            return;
          }
          game.Dispatch(event);
          sends := SendToEach(lobby.value.players, ServerMessage.GameEvent(event));
        }
      }
    }
  }

  /**
   * The server's own sequence on a fresh state: client 0 creates a lobby (and, through the
   * swapped `join_lobby` call, joins lobby 0 as player 0), then relays `PlayerJoined(5)`, which
   * is dispatched and sent back to it, then `PlaceTile(5, Tic, 0)`, which passes the validator
   * but leaves `reduce` nobody to hand the turn to, so the server panics.
   */
  method CreateLobbyThenPlacePanics() returns (joinSends: seq<Send>, eventSends: seq<Send>, panicked: bool)
    ensures joinSends == [Send(0, ServerMessage.JoinLobby(0))]
    ensures eventSends == [Send(0, ServerMessage.GameEvent(Store.PlayerJoined(5, "x")))]
    ensures panicked
  {
    var server := new ServerState();
    joinSends := server.HandleCreateLobby(0);
    var game := server.lobbies[0].gameState;
    var notPanicked;
    eventSends, notPanicked := server.HandleGameEvent(0, Store.PlayerJoined(5, "x"));
    assert game.View().players == map[5 := Store.Player("x")];
    var placeSends;
    placeSends, panicked := server.HandleGameEvent(0, Store.PlaceTile(5, Store.Tic, 0));
  }
}
