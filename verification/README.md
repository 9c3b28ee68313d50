# TicTacTussle core, modelled in Dafny

TicTacTussle is a two-player tic-tac-toe game. It has a server, which keeps lobbies and relays
game events, and a Bevy client. Both share a `store` crate, which holds the game state: its
stage, a nine-cell board, the active player, the joined players and an event history. The store
also has an event validator (`is_valid_on`) and the reducer that applies events (`reduce` /
`dispatch`).

This project models four parts of it:

- `store.dfy` models the store.
  - `GameState` is a class whose fixed nine-cell board is an array.
  - `IsValidOn` is the validator, written exactly as in the source, including the checks that
    read inverted.
  - `Reduces` relates the state before and after one `reduce`.
- `store_properties.dfy` states what holds over runs of `dispatch` and around single events. It
  includes the consequences of the inverted checks.
- `server.dfy` models the server's `ServerState`:
  - its player map, its lobbies and the reverse index from players to lobbies;
  - `from_user_data`;
  - the connect, disconnect, create-lobby, join-lobby and game-event steps of the tick loop.

  Messages the server would send are returned as a list of (recipient, message) pairs.
- `client_initial.dfy` models the client's name-entry screen:
  - the editing loop on the name buffer;
  - the rule that decides to connect;
  - the user-data encoding of the name, with its round trip through the server's decoder.
- `cardset.dfy` models the card tiers: bucketing cards by tier, and drawing a card from a tier.
- Supporting modules:
  - `little_endian.dfy`: `u64::to_le_bytes` and `from_le_bytes`, with their round trip.
  - `utf8.dfy`: the UTF-8 encoding behind `String::len` and `as_bytes`.
  - `primitives.dfy`: the integer widths.
  - `wrappers.dfy`: `Option` and `Result`.

Panics are modelled in one of two ways:

- as a precondition, where the caller must rule the panic out (for example a tier of 0, or a
  bucket with fewer than two cards);
- as an explicit outcome, where the model says when the panic happens:
  - `None` from `EncodeUserData`;
  - `Panicked` from `ConnectToServer`;
  - `panicked` from `HandleGameEvent`.

When `reduce` hands over the turn, the source takes the first other key in hash-map order. The
model lets that player be any other joined player.

## Model

| member | source | states |
|---|---|---|
| Store.IsValidOn | store/src/lib.rs:86-135 | For each event kind, exactly when the event is accepted. `BeginGame`: in `PreGame` and `goes_first` is NOT a player. `EndGame(PlayerWon)`: only while `Playing`. `EndGame(PlayerDisconnected)`: always. `PlayerJoined`: the id is new. `PlayerDisconnected`: the id is known. `PlaceTile`: the actor is a player, it is NOT the actor's turn, the cell is on the board, and the cell does not already hold that tile. |
| Store.GameState.constructor | store/src/lib.rs:32-52 | A fresh state equal to `Default()`: `PreGame`, nine empty cells, active id 0, no players, empty history. |
| Store.GameState.Reduce | store/src/lib.rs:139-171 | The new state is the old one with the event's effect applied, and the event appended to the history. `BeginGame` sets the active id. `EndGame` ends the game. Join and disconnect update the player map. `PlaceTile` writes the cell and passes the turn to another joined player. Requires what avoids the source's index and `unwrap` panics. |
| Store.GameState.Dispatch | store/src/lib.rs:173-175 | The same step as `Reduce`. |
| StoreProperties.HistoryLog | store/src/lib.rs:170 | After a run of dispatches, the history is the old history followed by every event, in order. Its length grows by the number of events. |
| StoreProperties.NeverPlaying | store/src/lib.rs:139-168 | No reduction sets the stage to `Playing`. A run that does not start there never reaches it. |
| StoreProperties.PlayerWonNeverValid | store/src/lib.rs:96-101 | On every state reached from `default()`, `EndGame(PlayerWon)` is refused. |
| StoreProperties.BoardCellProvenance | store/src/lib.rs:160 | After a run, each cell holds the tile of the last `PlaceTile` aimed at it, or its initial tile if there was none. |
| StoreProperties.TurnPassesToLockedOutPlayer | store/src/lib.rs:122-124 | After a valid placement by `p`, the player handed the turn is another joined player, and every placement by that player is refused. Meanwhile `p` may place the same tile again on any cell that does not hold it. |
| StoreProperties.BeginGameLetsEveryPlayerPlace | store/src/lib.rs:90-95 | After a valid `BeginGame`, the stage is still `PreGame` and the active id is not a player. Every joined player may then place on any cell that does not already hold that tile. |
| StoreProperties.PlacementMayOverwrite | store/src/lib.rs:128-130 | Any tile placed by a joined player whose turn it is not, on a cell holding a different tile (including the opponent's mark), is accepted and replaces what the cell held. |
| StoreProperties.JoinedPlayerIsKnown | store/src/lib.rs:104-113 | After `PlayerJoined(p)`, `p` is a player with that name. A second join of `p` is refused, and `p`'s disconnect is accepted. |
| StoreProperties.DisconnectedPlayerIsLockedOut | store/src/lib.rs:109-121 | After `PlayerDisconnected(p)`, every placement by `p` and a second disconnect are refused, and `p` may join again. |
| StoreProperties.ValidIsReducibleWithTwoPlayers | store/src/lib.rs:159-166 | With at least two players, every event the validator accepts can be reduced without a panic. Events other than `PlaceTile` need no player count. |
| StoreProperties.ValidPlacementCanPanic | store/src/lib.rs:161-166 | A run of valid events from `default()` reaches a state where the validator accepts a `PlaceTile` but `reduce` has nobody to hand the turn to. |
| StoreProperties.TwoJoinsFormARun | store/src/lib.rs:32-52 | A fresh game and two `Dispatch`ed joins produce a run from `default()`. The history is exactly the two events, and both players are joined under their names. |
| Server.Broadcast | server/src/main.rs:212-218 | One message to each recipient, in the recipients' order. |
| Server.SendToEach | server/src/main.rs:263-269 | The send loop yields exactly `Broadcast` of the recipients. |
| Server.FromUserData | server/src/main.rs:141-149 | The name is the bytes after the 8-byte little-endian length, with the length clamped to 248, so it is never longer than 248 bytes. |
| Server.ServerState.constructor | server/src/main.rs:28-36 | Empty players, lobbies and reverse index. |
| Server.ServerState.GetPlayerLobby | server/src/main.rs:40-45 | The lobby is present exactly when the player has a reverse-index entry and that lobby exists. It is then that lobby. |
| Server.ServerState.AddLobby | server/src/main.rs:48-52 | Always returns id 0 and replaces lobby 0 with an empty lobby holding a fresh default game on a fresh board. Other lobbies, players and the index are unchanged. |
| Server.ServerState.JoinLobby | server/src/main.rs:55-66 | Fails with `NoSuchLobby` or `LobbyIsFull` (two members or more) and changes nothing. Otherwise it succeeds, appends the player to that lobby only, and records the player in the reverse index. |
| Server.ServerState.RemovePlayer | server/src/main.rs:69-76 | Returns the removed player, if any. Drops the player's index entry only if the player existed. Lobbies are unchanged. |
| Server.ServerState.RemoveLobby | server/src/main.rs:79-87 | Returns and removes the lobby. The reverse index loses exactly the lobby's members. |
| Server.ServerState.HandleClientConnected | server/src/main.rs:189-193 | The client becomes a player named by `FromUserData` of its user data. Nothing else changes. |
| Server.ServerState.HandleClientDisconnected | server/src/main.rs:194-222 | The player is removed. If the player had a lobby, that lobby is removed, all its members leave the index, and each member is sent `EndGame(OpponentDisconnect)` in order. Otherwise nothing is sent. |
| Server.ServerState.HandleCreateLobby | server/src/main.rs:231-239 | Lobby 0 is reset to an empty lobby with a fresh default game on a fresh board. The join uses swapped arguments, as written: player 0 joins lobby `clientId`, which gains member 0 when it exists and has fewer than two members. Every other lobby is unchanged. The client gets `JoinLobby(0)` only if that join succeeds. When lobby 0 is the only lobby, a client whose id is not 0 gets no reply and joins no lobby. |
| Server.ServerState.HandleTryJoinLobby | server/src/main.rs:240-256 | A failed join sends `CannotJoinLobby` with its reason and changes nothing. A successful one appends the client to the lobby, records it in the index and sends `JoinLobby`. |
| Server.ServerState.HandleGameEvent | server/src/main.rs:257-271 | Without a lobby, or with an invalid event, nothing is sent and the game is unchanged. A valid event that cannot be reduced panics. Otherwise the lobby's game takes exactly one `Reduces` step, and the event is relayed to each member in order. Every other lobby's game is unchanged. |
| Server.CreateLobbyThenPlacePanics | server/src/main.rs:231-271 | On a fresh server, client 0 creates a lobby and gets `JoinLobby(0)`. Its `PlayerJoined(5)` is then dispatched and relayed back to it. Its following `PlaceTile(5, Tic, 0)` passes the validator, but the server panics. |
| ClientInitial.EditChar | client/src/states/initial.rs:111-121 | DELETE pops the last character, if any. Any other character is pushed only while the buffer holds fewer than 256 bytes; otherwise the buffer is unchanged. |
| ClientInitial.UsernameInput | client/src/states/initial.rs:106-122 | The loop applies the frame's character events to the buffer, in order, one `EditChar` each. |
| ClientInitial.NameBufferBound | client/src/states/initial.rs:117-120 | A buffer below 256 + 4 bytes stays below 256 + 4 bytes after any events. |
| ClientInitial.AsciiLen | client/src/states/initial.rs:118 | The byte length `String::len` reports for an all-ASCII name equals its number of characters. |
| ClientInitial.TypingAsciiFillsBuffer | client/src/states/initial.rs:111-121 | Typing any ASCII characters other than DELETE onto an ASCII buffer appends every one of them, one byte each, as long as the result stays within 256 bytes. |
| ClientInitial.TypedNameCanBeTooLong | client/src/states/initial.rs:118 | A name of 249 typed letters is accepted by the buffer but is longer than the 248 bytes the encoder allows. |
| ClientInitial.ShouldConnect | client/src/states/initial.rs:161-177 | Connect exactly when the frame's last character is ENTER or some interaction is a click. |
| ClientInitial.EncodeUserData | client/src/states/initial.rs:130-136 | Refuses exactly the names of more than 248 bytes. Otherwise the result is 256 bytes: the 8-byte little-endian byte length, the name's UTF-8 bytes, then zeros. |
| ClientInitial.UserDataRoundTrip | server/src/main.rs:141-149 | The server's `from_user_data` reads back exactly the bytes the client laid out. |
| ClientInitial.ConnectToServer | client/src/states/initial.rs:154-186 | No trigger: stay. Setup failure: `Error`. Over-long name: panic. Client creation failure: `Error`. Otherwise `Connected`, carrying the encoded user data. |
| LittleEndian.LeRoundTrip | client/src/states/initial.rs:135 | Reading back `k` little-endian bytes of any value below 256^k gives that value. |
| Utf8.EncodeAppend | client/src/states/initial.rs:119 | Pushing a character appends its UTF-8 bytes to the buffer's encoding. |
| CardSets.MaxTier | store/src/cardset.rs:27-31 | With no cards, 1. Otherwise the tier of some card, and no card has a higher tier. |
| CardSets.PushKeepsBucketed | store/src/cardset.rs:35-37 | Pushing a new id onto the bucket of its tier keeps every bucket holding exactly the placed ids of its tier, with no repeats. |
| CardSets.FromCards | store/src/cardset.rs:27-39 | Keeps the cards and builds `MaxTier` buckets. Bucket `t` holds exactly the ids of tier `t + 1`, each once. |
| CardSets.BucketHoldsItsTier | store/src/cardset.rs:36 | An id in bucket `t` names a card of tier `t + 1`, and lies in no other bucket. |
| CardSets.GetCardFromTier | store/src/cardset.rs:41-46 | Draws an id at an index below `len - 1`. The last id of the bucket is therefore never drawn when the bucket has no repeats. Requires a bucket of at least two ids, because the source panics otherwise. |

## Left out

- Networking is not modelled:
  - renet, UDP sockets, the server's tick loop and its clock;
  - bincode serialisation, and the deserialisation failures it drops silently;
  - Bevy's UI, states and queries, and the other client screens.

  The send list stands in for `send_message`.
- The server's top-level `match` that routes client messages and connection events is not
  modelled as one dispatcher. Each arm is its own handler method.
- Server.FromUserData keeps the name as bytes. `String::from_utf8(..).unwrap()` panics on invalid
  UTF-8, and that panic is not modelled.
- Store.GameState.Reduce: the player who gets the turn is any other joined player. The source
  takes the first in `HashMap` iteration order, which the model does not fix.
- ClientInitial.ConnectToServer: the parsing of HOST/PORT, the socket bind, the clock and
  `RenetClient::new` are reduced to two success flags. The clock-derived client id is not
  modelled.
- CardSets.FromCards: reading the file and parsing JSON are not modelled; the card map is the
  input. The buckets' contents are stated as sets per bucket, because their order follows
  `HashMap` iteration.
- CardSets.GetCardFromTier: the random draw is a nondeterministic choice of index. Its
  distribution is not modelled.
- The state after a panic is not described. The model only says that the panic occurs.
- The source has no win or draw detection, so the model has none either.
- Integer widths are modelled as ranges: `u32` as 32 bits, `u64` and `usize` as 64 bits. No
  arithmetic in the modelled code can wrap, except two subtractions, which the model rules out by
  preconditions. `card.tier - 1` underflows at tier 0; `FromCards` requires every tier to be at
  least 1. `tier.len() - 1` underflows on an empty bucket; `GetCardFromTier` requires a bucket of
  at least two ids.
