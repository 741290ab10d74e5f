/**
 * The game registry (server/stores/gameStore.js): a `Map` from game id to game record, and
 * the in-place updates the handlers and the bots apply to a record. Each update is a function
 * from the old record to the new one; the registry's methods store its result.
 */
module GameStore {
  import opened Tiles
  import opened Optional
  import opened Ordering
  import opened RulePresets
  import opened Rules
  import opened LobbyStore

  datatype Player = Player(
    socketId: string,
    username: string,
    isBot: bool,
    botDifficulty: Option<string>,
    tiles: seq<Tile>,
    hasPlayedInitialMeld: bool,
    isDisconnected: bool,
    disconnectedAt: Option<int>,
    penaltyPoints: int)

  /** The copy taken at the start of a turn, which an invalid play is rolled back to. */
  datatype Snapshot = Snapshot(playerTiles: seq<Tile>, tableSets: seq<seq<Tile>>, tilePool: seq<Tile>)

  datatype Winner = Winner(socketId: string, username: string)

  /**
   * A game record. `lastRoundTileSum` and `stalemateTurnCount` are attached by the turn
   * handler; before that they are `undefined`, which behaves as 0 here.
   */
  datatype Game = Game(
    id: string,
    lobbyId: string,
    players: seq<Player>,
    spectators: seq<Spectator>,
    tilePool: seq<Tile>,
    tableSets: seq<seq<Tile>>,
    currentPlayerIndex: nat,
    turnStartTime: Option<int>,
    rules: RulePresets.Rules,
    state: GameState,
    winner: Option<Winner>,
    startedAt: int,
    endedAt: Option<int>,
    turnStartState: Option<Snapshot>,
    lastRoundTileSum: int,
    stalemateTurnCount: int)

  datatype Score = Score(socketId: string, username: string, tilesRemaining: nat, penaltyPoints: int, isWinner: bool)

  datatype Drawn = Drawn(game: Game, tile: Tile)

  // ---------------------------------------------------------------------------
  // Dealing
  // ---------------------------------------------------------------------------

  /** A position argument of `Array.prototype.slice`: negative counts from the end, then clamped. */
  function ClampIndex(i: int, len: nat): (k: nat)
    ensures k <= len
    ensures 0 <= i <= len ==> k == i
  {
    if i < 0 then (if len + i < 0 then 0 else len + i) else if i > len then len else i
  }

  /** `s.slice(start, end)` */
  function JsSlice<T>(s: seq<T>, start: int, end: int): seq<T> {
    var from := ClampIndex(start, |s|);
    var to := ClampIndex(end, |s|);
    if to <= from then [] else s[from..to]
  }

  /** The hand of the `i`-th player: `allTiles.slice(i * t, i * t + t)`. */
  function DealtHand(deck: seq<Tile>, i: nat, t: int): seq<Tile> {
    JsSlice(deck, i * t, i * t + t)
  }

  /** The first `n` hands, one after the other. */
  function DealtTiles(deck: seq<Tile>, n: nat, t: int): seq<Tile> {
    if n == 0 then [] else DealtTiles(deck, n - 1, t) + DealtHand(deck, n - 1, t)
  }

  function NewPlayer(seat: LobbyPlayer, tiles: seq<Tile>): Player {
    Player(seat.socketId, seat.username, seat.isBot, seat.botDifficulty, tiles, false, false, None, 0)
  }

  /** `lobby.players.map((player, index) => ...)`: seat `i` is dealt DealtHand(deck, i, t). */
  function DealPlayers(seats: seq<LobbyPlayer>, deck: seq<Tile>, t: int): (r: seq<Player>)
    ensures |r| == |seats|
  {
    if seats == [] then []
    else
      var n := |seats| - 1;
      DealPlayers(seats[..n], deck, t) + [NewPlayer(seats[n], DealtHand(deck, n, t))]
  }

  lemma {:induction false} DealPlayersAt(seats: seq<LobbyPlayer>, deck: seq<Tile>, t: int, i: nat)
    requires i < |seats|
    ensures DealPlayers(seats, deck, t)[i] == NewPlayer(seats[i], DealtHand(deck, i, t))
  {
    var n := |seats| - 1;
    if i < n {
      DealPlayersAt(seats[..n], deck, t, i);
    }
  }

  /** The new game record of createGame, dealt from `deck` (the shuffled tile set). */
  function NewGame(gameId: string, lobby: Lobby, deck: seq<Tile>, now: int): Game {
    var t := lobby.rules.tilesPerPlayer;
    var n := |lobby.players|;
    Game(gameId, lobby.id, DealPlayers(lobby.players, deck, t),
      lobby.spectators, JsSlice(deck, n * t, |deck|), [], 0, None, lobby.rules, InProgress,
      None, now, None, None, 0, 0)
  }

  /** The players' tiles, seat by seat. */
  function HandTiles(players: seq<Player>): seq<Tile> {
    if players == [] then [] else HandTiles(players[..|players| - 1]) + players[|players| - 1].tiles
  }

  /** The hands dealt so far are exactly the first `n * t` tiles of the deck (or all of it). */
  lemma {:induction false} DealtPrefix(deck: seq<Tile>, n: nat, t: nat)
    ensures DealtTiles(deck, n, t) == deck[..ClampIndex(n * t, |deck|)]
  {
    if n > 0 {
      DealtPrefix(deck, n - 1, t);
      var a := (n - 1) * t;
      assert a + t == n * t;
      SliceStep(deck, a, t);
    }
  }

  /** The first `a` tiles followed by the next `t` are the first `a + t`, clamped to the deck. */
  lemma SliceStep(deck: seq<Tile>, a: nat, t: nat)
    ensures deck[..ClampIndex(a, |deck|)] + JsSlice(deck, a, a + t) == deck[..ClampIndex(a + t, |deck|)]
  {
    var from, to := ClampIndex(a, |deck|), ClampIndex(a + t, |deck|);
    if from < to {
      assert deck[..to] == deck[..from] + deck[from..to];
    }
  }

  /**
   * Dealing partitions the deck: the hands, seat after seat, followed by the pool are the
   * deck itself, so no tile is lost or dealt twice.
   */
  lemma DealPartition(gameId: string, lobby: Lobby, deck: seq<Tile>, now: int)
    requires lobby.rules.tilesPerPlayer >= 0
    ensures var g := NewGame(gameId, lobby, deck, now);
      HandTiles(g.players) + g.tilePool == deck
  {
    var t := lobby.rules.tilesPerPlayer;
    var n := |lobby.players|;
    HandsAreDealt(lobby.players, deck, t);
    DealtPrefix(deck, n, t);
    var k := ClampIndex(n * t, |deck|);
    assert JsSlice(deck, n * t, |deck|) == deck[k..];
    assert deck[..k] + deck[k..] == deck;
  }

  lemma {:induction false} HandsAreDealt(seats: seq<LobbyPlayer>, deck: seq<Tile>, t: int)
    ensures HandTiles(DealPlayers(seats, deck, t)) == DealtTiles(deck, |seats|, t)
  {
    if seats != [] {
      var n := |seats| - 1;
      var r := DealPlayers(seats, deck, t);
      HandsAreDealt(seats[..n], deck, t);
      assert r[..n] == DealPlayers(seats[..n], deck, t);
    }
  }

  /** When the deck is large enough every player gets exactly `t` tiles and the pool the rest. */
  lemma DealSizes(gameId: string, lobby: Lobby, deck: seq<Tile>, now: int)
    requires lobby.rules.tilesPerPlayer >= 0
    requires |lobby.players| * lobby.rules.tilesPerPlayer <= |deck|
    ensures var g := NewGame(gameId, lobby, deck, now);
      (forall i :: 0 <= i < |g.players| ==> |g.players[i].tiles| == lobby.rules.tilesPerPlayer)
      && |g.tilePool| == |deck| - |lobby.players| * lobby.rules.tilesPerPlayer
  {
    var t := lobby.rules.tilesPerPlayer;
    var n := |lobby.players|;
    var players := DealPlayers(lobby.players, deck, t);
    forall i | 0 <= i < n ensures |players[i].tiles| == t {
      DealPlayersAt(lobby.players, deck, t, i);
      HandSize(deck, i, t, n);
    }
  }

  lemma HandSize(deck: seq<Tile>, i: nat, t: nat, n: nat)
    requires i < n && n * t <= |deck|
    ensures |DealtHand(deck, i, t)| == t
  {
    assert i * t + t == (i + 1) * t;
    MulMonotone(i + 1, n, t);
  }

  lemma MulMonotone(a: nat, b: nat, t: nat)
    requires a <= b
    ensures a * t <= b * t
  {
  }

  /** A new game is running, at the first seat, with an empty table and nobody melded. */
  lemma NewGameFresh(gameId: string, lobby: Lobby, deck: seq<Tile>, now: int)
    ensures var g := NewGame(gameId, lobby, deck, now);
      g.state == InProgress && g.currentPlayerIndex == 0 && g.tableSets == []
      && g.winner == None && g.turnStartState == None
      && |g.players| == |lobby.players|
      && forall i :: 0 <= i < |g.players| ==>
           !g.players[i].hasPlayedInitialMeld && !g.players[i].isDisconnected
           && g.players[i].socketId == lobby.players[i].socketId
  {
    var g := NewGame(gameId, lobby, deck, now);
    forall i | 0 <= i < |g.players|
      ensures !g.players[i].hasPlayedInitialMeld && !g.players[i].isDisconnected
           && g.players[i].socketId == lobby.players[i].socketId
    {
      DealPlayersAt(lobby.players, deck, lobby.rules.tilesPerPlayer, i);
    }
  }

  // ---------------------------------------------------------------------------
  // Seats and turns
  // ---------------------------------------------------------------------------

  /** `players.find(p => p.socketId === socketId)`, as the index found, or -1. */
  function FindPlayer(players: seq<Player>, socketId: string): (i: int)
    ensures -1 <= i < |players|
    ensures i == -1 <==> forall p <- players :: p.socketId != socketId
    ensures i >= 0 ==> players[i].socketId == socketId
    ensures i >= 0 ==> forall j :: 0 <= j < i ==> players[j].socketId != socketId
  {
    if players == [] then -1
    else if players[0].socketId == socketId then 0
    else
      var k := FindPlayer(players[1..], socketId);
      if k == -1 then -1 else k + 1
  }

  /** getCurrentPlayer: `undefined` (None) when the index is past the last seat. */
  function CurrentPlayer(game: Game): (r: Option<Player>)
    ensures r.Some? <==> game.currentPlayerIndex < |game.players|
    ensures r.Some? ==> r.value in game.players
  {
    if game.currentPlayerIndex < |game.players| then Some(game.players[game.currentPlayerIndex]) else None
  }

  predicate HasCurrent(game: Game) {
    game.currentPlayerIndex < |game.players|
  }

  /** saveTurnStartState: copies of the current hand, the table and the pool. */
  function SaveTurnStartState(game: Game): Snapshot
    requires HasCurrent(game)
  {
    Snapshot(game.players[game.currentPlayerIndex].tiles, game.tableSets, game.tilePool)
  }

  /** The seat after `i` around a table of `n`. */
  function NextIndex(i: nat, n: nat): nat
    requires n > 0
  {
    (i + 1) % n
  }

  /** advanceTurn: the next seat plays, its turn starts now, and its starting state is saved. */
  function AdvanceTurn(game: Game, now: int): (r: Game)
    requires |game.players| > 0
    ensures HasCurrent(r) && r.players == game.players
    ensures r.turnStartState == Some(SaveTurnStartState(r))
  {
    var g := game.(currentPlayerIndex := NextIndex(game.currentPlayerIndex, |game.players|),
                   turnStartTime := Some(now));
    g.(turnStartState := Some(SaveTurnStartState(g)))
  }

  /** The seat reached from `i` after `k` turns. */
  function AfterTurns(i: nat, n: nat, k: nat): nat
    requires n > 0
  {
    if k == 0 then i else NextIndex(AfterTurns(i, n, k - 1), n)
  }

  lemma NextIndexStep(i: nat, n: nat)
    requires i < n
    ensures NextIndex(i, n) == if i + 1 < n then i + 1 else 0
  {
  }

  /** Turns go round the table: `k` turns after seat `i` (with `k` at most one round) is seat i + k, wrapped. */
  lemma {:induction false} AfterTurnsWrap(i: nat, n: nat, k: nat)
    requires i < n && k <= n
    ensures AfterTurns(i, n, k) == if i + k < n then i + k else i + k - n
  {
    if k > 0 {
      AfterTurnsWrap(i, n, k - 1);
      NextIndexStep(AfterTurns(i, n, k - 1), n);
    }
  }

  /** How many turns after seat `i` seat `s` plays. */
  function TurnsUntil(i: nat, n: nat, s: nat): nat
    requires i < n
  {
    if s >= i then s - i else s + n - i
  }

  /**
   * In one round every seat plays exactly once, and then the starting seat is back: seat `s`
   * plays TurnsUntil(i, n, s) turns after seat `i`, and no other seat plays then.
   */
  lemma RoundVisitsEverySeat(i: nat, n: nat)
    requires i < n
    ensures AfterTurns(i, n, n) == i
    ensures forall s :: 0 <= s < n ==> TurnsUntil(i, n, s) < n && AfterTurns(i, n, TurnsUntil(i, n, s)) == s
  {
    AfterTurnsWrap(i, n, n);
    forall s | 0 <= s < n ensures TurnsUntil(i, n, s) < n && AfterTurns(i, n, TurnsUntil(i, n, s)) == s {
      AfterTurnsWrap(i, n, TurnsUntil(i, n, s));
    }
  }

  /** advanceTurn moves play to AfterTurns(i, n, 1). */
  lemma AdvanceTurnIsOneStep(game: Game, now: int)
    requires |game.players| > 0
    ensures AdvanceTurn(game, now).currentPlayerIndex == AfterTurns(game.currentPlayerIndex, |game.players|, 1)
  {
  }

  /**
   * revertToTurnStart: the current hand, the table and the pool become the saved copies;
   * without a saved state nothing happens (the store answers null).
   */
  function RevertToTurnStart(game: Game): Option<Game>
    requires HasCurrent(game)
  {
    match game.turnStartState
    case None => None
    case Some(s) =>
      var i := game.currentPlayerIndex;
      Some(game.(players := game.players[i := game.players[i].(tiles := s.playerTiles)],
                 tableSets := s.tableSets, tilePool := s.tilePool))
  }

  /** The edits a turn in progress may make: the current hand, the table and the pool. */
  function EditTurn(game: Game, hand: seq<Tile>, table: seq<seq<Tile>>, pool: seq<Tile>): Game
    requires HasCurrent(game)
  {
    var i := game.currentPlayerIndex;
    game.(players := game.players[i := game.players[i].(tiles := hand)], tableSets := table, tilePool := pool)
  }

  /** Reverting right after the turn starts changes nothing. */
  lemma RevertAtTurnStartIsIdentity(game: Game, now: int)
    requires |game.players| > 0
    ensures RevertToTurnStart(AdvanceTurn(game, now)) == Some(AdvanceTurn(game, now))
  {
    var g := AdvanceTurn(game, now);
    var i := g.currentPlayerIndex;
    assert g.players[i := g.players[i].(tiles := g.players[i].tiles)] == g.players;
  }

  /** Whatever the turn did to the hand, the table and the pool, reverting undoes it. */
  lemma RevertUndoesEdits(game: Game, hand: seq<Tile>, table: seq<seq<Tile>>, pool: seq<Tile>)
    requires HasCurrent(game) && game.turnStartState.Some?
    ensures RevertToTurnStart(EditTurn(game, hand, table, pool)) == RevertToTurnStart(game)
  {
    var i := game.currentPlayerIndex;
    var e := EditTurn(game, hand, table, pool);
    var s := game.turnStartState.value;
    assert e.players[i := e.players[i].(tiles := s.playerTiles)]
        == game.players[i := game.players[i].(tiles := s.playerTiles)];
  }

  /** After a revert the current hand, the table and the pool are the saved ones. */
  lemma RevertRestoresSnapshot(game: Game)
    requires HasCurrent(game) && game.turnStartState.Some?
    ensures var r := RevertToTurnStart(game);
      r.Some? && HasCurrent(r.value) && SaveTurnStartState(r.value) == game.turnStartState.value
      && r.value.turnStartState == game.turnStartState
  {
  }

  // ---------------------------------------------------------------------------
  // Drawing, updates, winner, connection state
  // ---------------------------------------------------------------------------

  /** All tiles of the game: the hands, the table and the pool. */
  function GameTiles(game: Game): multiset<Tile> {
    multiset(HandTiles(game.players)) + TableTiles(game.tableSets) + multiset(game.tilePool)
  }

  function TableTiles(tableSets: seq<seq<Tile>>): multiset<Tile> {
    if tableSets == [] then multiset{} else multiset(tableSets[0]) + TableTiles(tableSets[1..])
  }

  /**
   * drawTile: null for a socket with no seat or an empty pool; otherwise the last tile of the
   * pool moves to the end of that player's hand.
   */
  function DrawTile(game: Game, socketId: string): (r: Option<Drawn>)
    ensures r.None? <==> FindPlayer(game.players, socketId) == -1 || game.tilePool == []
  {
    var i := FindPlayer(game.players, socketId);
    if i == -1 || game.tilePool == [] then None
    else
      var tile := game.tilePool[|game.tilePool| - 1];
      Some(Drawn(game.(tilePool := game.tilePool[..|game.tilePool| - 1],
                       players := game.players[i := game.players[i].(tiles := game.players[i].tiles + [tile])]),
                 tile))
  }

  lemma {:induction false} HandTilesConcat(a: seq<Player>, b: seq<Player>)
    ensures HandTiles(a + b) == HandTiles(a) + HandTiles(b)
  {
    if b == [] {
      assert a + b == a;
    } else {
      var n := |b| - 1;
      HandTilesConcat(a, b[..n]);
      assert (a + b)[..|a + b| - 1] == a + b[..n];
    }
  }

  /** Giving player `i` extra tiles adds exactly those tiles to the hands. */
  lemma HandTilesAppend(players: seq<Player>, i: nat, extra: seq<Tile>)
    requires i < |players|
    ensures multiset(HandTiles(players[i := players[i].(tiles := players[i].tiles + extra)]))
         == multiset(HandTiles(players)) + multiset(extra)
  {
    var tiles := players[i].tiles + extra;
    var q := players[i := players[i].(tiles := tiles)];
    var pre, post := players[..i], players[i + 1..];
    assert players == pre + [players[i]] + post;
    assert q == pre + [q[i]] + post;
    HandTilesConcat(pre + [players[i]], post);
    HandTilesConcat(pre, [players[i]]);
    HandTilesConcat(pre + [q[i]], post);
    HandTilesConcat(pre, [q[i]]);
    assert HandTiles([players[i]]) == players[i].tiles by { assert [players[i]][..0] == []; }
    assert HandTiles([q[i]]) == tiles by { assert [q[i]][..0] == []; }
  }

  /**
   * Drawing takes exactly the last pool tile and gives it to the drawing player; the other
   * hands are untouched and no tile appears or disappears.
   */
  lemma DrawMovesOneTile(game: Game, socketId: string)
    requires DrawTile(game, socketId).Some?
    ensures var d := DrawTile(game, socketId).value;
      var i := FindPlayer(game.players, socketId);
      d.tile == game.tilePool[|game.tilePool| - 1]
      && d.game.tilePool + [d.tile] == game.tilePool
      && d.game.players[i].tiles == game.players[i].tiles + [d.tile]
      && (forall j :: 0 <= j < |game.players| && j != i ==> d.game.players[j] == game.players[j])
      && GameTiles(d.game) == GameTiles(game)
  {
    var d := DrawTile(game, socketId).value;
    var i := FindPlayer(game.players, socketId);
    var hand := game.players[i].tiles;
    var pool := game.tilePool[..|game.tilePool| - 1];
    HandTilesAppend(game.players, i, [d.tile]);
    assert game.tilePool == pool + [d.tile];
    assert multiset(HandTiles(d.game.players)) == multiset(HandTiles(game.players)) + multiset{d.tile};
    assert multiset(game.tilePool) == multiset(pool) + multiset{d.tile};
  }

  /** updatePlayerTiles: the first seat with that socket gets `tiles`; null for an unknown socket. */
  function UpdatePlayerTiles(game: Game, socketId: string, tiles: seq<Tile>): (r: Option<Game>)
    ensures r.None? <==> FindPlayer(game.players, socketId) == -1
  {
    var i := FindPlayer(game.players, socketId);
    if i == -1 then None else Some(game.(players := game.players[i := game.players[i].(tiles := tiles)]))
  }

  /** The same sockets in the same seats. */
  predicate SameSeats(a: seq<Player>, b: seq<Player>) {
    |a| == |b| && forall j :: 0 <= j < |a| ==> a[j].socketId == b[j].socketId
  }

  /** Finding a seat by socket depends only on the sockets in the seats. */
  lemma FindPlayerSameSeats(a: seq<Player>, b: seq<Player>, socketId: string)
    requires SameSeats(a, b)
    ensures FindPlayer(a, socketId) == FindPlayer(b, socketId)
  {
    var i := FindPlayer(a, socketId);
    if i == -1 {
      assert forall p <- b :: p.socketId != socketId by {
        forall p <- b ensures p.socketId != socketId {
          var j :| 0 <= j < |b| && b[j] == p;
          assert a[j] in a;
        }
      }
    } else {
      assert b[i] in b;
    }
  }

  /** setPlayerInitialMeld: the seat is marked as having melded; an unknown socket leaves the game as it is. */
  function SetPlayerInitialMeld(game: Game, socketId: string): (r: Game)
    ensures SameSeats(r.players, game.players)
    ensures r == game.(players := r.players)
    ensures forall j :: 0 <= j < |game.players| && j != FindPlayer(game.players, socketId) ==>
      r.players[j] == game.players[j]
    ensures FindPlayer(game.players, socketId) != -1 ==>
      var i := FindPlayer(game.players, socketId);
      r.players[i] == game.players[i].(hasPlayedInitialMeld := true)
  {
    var i := FindPlayer(game.players, socketId);
    if i == -1 then game
    else game.(players := game.players[i := game.players[i].(hasPlayedInitialMeld := true)])
  }

  /** setGameWinner: only a seated socket can win; it finishes the game. */
  function SetGameWinner(game: Game, socketId: string, now: int): (r: Game)
    ensures FindPlayer(game.players, socketId) == -1 ==> r == game
    ensures r.winner.Some? && r.winner != game.winner ==>
      r.state == Finished && (exists p <- game.players :: p.socketId == r.winner.value.socketId
                                && p.username == r.winner.value.username && p.socketId == socketId)
    ensures r.players == game.players && r.tableSets == game.tableSets && r.tilePool == game.tilePool
  {
    var i := FindPlayer(game.players, socketId);
    if i == -1 then game
    else
      var p := game.players[i];
      game.(winner := Some(Winner(p.socketId, p.username)), state := Finished, endedAt := Some(now))
  }

  function SetPlayerDisconnected(game: Game, socketId: string, now: int): Game {
    var i := FindPlayer(game.players, socketId);
    if i == -1 then game
    else game.(players := game.players[i := game.players[i].(isDisconnected := true, disconnectedAt := Some(now))])
  }

  function SetPlayerReconnected(game: Game, socketId: string): Game {
    var i := FindPlayer(game.players, socketId);
    if i == -1 then game
    else game.(players := game.players[i := game.players[i].(isDisconnected := false, disconnectedAt := None)])
  }

  /** Reconnecting right after disconnecting restores the seat as it was before, if it was connected. */
  lemma ReconnectUndoesDisconnect(game: Game, socketId: string, now: int)
    requires forall p <- game.players :: !p.isDisconnected && p.disconnectedAt == None
    ensures SetPlayerReconnected(SetPlayerDisconnected(game, socketId, now), socketId) == game
  {
    var i := FindPlayer(game.players, socketId);
    if i != -1 {
      var d := SetPlayerDisconnected(game, socketId, now);
      assert SameSeats(d.players, game.players);
      FindPlayerSameSeats(d.players, game.players, socketId);
      var back := d.players[i := d.players[i].(isDisconnected := false, disconnectedAt := None)];
      assert back[i] == game.players[i];
      assert back == game.players;
    }
  }

  /** replacePlayerWithBot: the seat keeps its tiles and turn but is played by a bot from now on. */
  function ReplacePlayerWithBot(game: Game, socketId: string, botDifficulty: string): (r: Game)
    ensures |r.players| == |game.players| && r.currentPlayerIndex == game.currentPlayerIndex
    ensures r.tableSets == game.tableSets && r.tilePool == game.tilePool
    ensures forall j :: 0 <= j < |game.players| ==>
      r.players[j].tiles == game.players[j].tiles && r.players[j].socketId == game.players[j].socketId
    ensures FindPlayer(game.players, socketId) == -1 ==> r == game
    ensures FindPlayer(game.players, socketId) != -1 ==>
      var p := r.players[FindPlayer(game.players, socketId)];
      p.isBot && p.botDifficulty == Some(botDifficulty) && !p.isDisconnected && p.disconnectedAt == None
      && p.username == game.players[FindPlayer(game.players, socketId)].username + " (Bot)"
  {
    var i := FindPlayer(game.players, socketId);
    if i == -1 then game
    else
      var p := game.players[i];
      game.(players := game.players[i := p.(isBot := true, botDifficulty := Some(botDifficulty),
                                            isDisconnected := false, disconnectedAt := None,
                                            username := p.username + " (Bot)")])
  }

  /** pauseGame (its timer is not modelled). */
  function PauseGame(game: Game): Game {
    game.(state := Paused)
  }

  function ResumeGame(game: Game): Game {
    game.(state := InProgress)
  }

  /** Pausing a running game and resuming it gives back the same game. */
  lemma PauseResumeRoundTrip(game: Game)
    requires game.state == InProgress
    ensures ResumeGame(PauseGame(game)) == game
    ensures PauseGame(ResumeGame(PauseGame(game))) == PauseGame(game)
  {
  }

  /** addSpectatorToGame: a socket already watching is not added twice. */
  function AddSpectatorToGame(game: Game, socketId: string, username: string): Game {
    if exists s <- game.spectators :: s.socketId == socketId then game
    else game.(spectators := game.spectators + [Spectator(socketId, username)])
  }

  function RemoveSpectatorFromGame(game: Game, socketId: string): Game {
    var i := SpectatorIndex(game.spectators, socketId);
    if i == -1 then game else game.(spectators := Splice(game.spectators, i))
  }

  /** A spectator who joins and leaves again leaves the game as it was. */
  lemma SpectatorRoundTrip(game: Game, socketId: string, username: string)
    requires forall s <- game.spectators :: s.socketId != socketId
    ensures RemoveSpectatorFromGame(AddSpectatorToGame(game, socketId, username), socketId) == game
  {
    var a := AddSpectatorToGame(game, socketId, username);
    SpectatorIndexLast(game.spectators, Spectator(socketId, username));
    assert Splice(a.spectators, |game.spectators|) == game.spectators;
  }

  lemma SpectatorIndexLast(spectators: seq<Spectator>, s: Spectator)
    requires forall t <- spectators :: t.socketId != s.socketId
    ensures SpectatorIndex(spectators + [s], s.socketId) == |spectators|
  {
    assert (spectators + [s])[|spectators|] == s;
    assert forall j :: 0 <= j < |spectators| ==> (spectators + [s])[j] == spectators[j];
  }

  /** Adding spectators twice is adding once. */
  lemma AddSpectatorIdempotent(game: Game, socketId: string, username: string)
    ensures var a := AddSpectatorToGame(game, socketId, username);
      AddSpectatorToGame(a, socketId, username) == a
  {
    var a := AddSpectatorToGame(game, socketId, username);
    assert exists s <- a.spectators :: s.socketId == socketId by {
      if !(exists s <- game.spectators :: s.socketId == socketId) {
        assert a.spectators[|a.spectators| - 1].socketId == socketId;
      }
    }
  }

  // ---------------------------------------------------------------------------
  // Final scores
  // ---------------------------------------------------------------------------

  function ScoreOf(p: Player, winner: Option<Winner>): Score {
    Score(p.socketId, p.username, |p.tiles|, PenaltyPoints(p.tiles),
          winner.Some? && winner.value.socketId == p.socketId)
  }

  /** `game.players.map(...)` building the score rows, seat by seat. */
  function ScoreRows(players: seq<Player>, winner: Option<Winner>): (r: seq<Score>)
    ensures |r| == |players|
    ensures forall i :: 0 <= i < |players| ==> r[i] == ScoreOf(players[i], winner)
  {
    if players == [] then [] else [ScoreOf(players[0], winner)] + ScoreRows(players[1..], winner)
  }

  /** Inserts `x` before the first row whose penalty is not lower, so earlier rows stay first among equals. */
  function InsertByPenalty(x: Score, s: seq<Score>): (r: seq<Score>)
    ensures multiset(r) == multiset(s) + multiset{x}
  {
    if s == [] || x.penaltyPoints <= s[0].penaltyPoints then [x] + s
    else
      assert s == [s[0]] + s[1..];
      [s[0]] + InsertByPenalty(x, s[1..])
  }

  /** `scores.sort((a, b) => a.penaltyPoints - b.penaltyPoints)`: a stable sort. */
  function SortByPenalty(s: seq<Score>): (r: seq<Score>)
    ensures multiset(r) == multiset(s)
  {
    if s == [] then []
    else
      assert s == [s[0]] + s[1..];
      InsertByPenalty(s[0], SortByPenalty(s[1..]))
  }

  predicate ByPenalty(s: seq<Score>) {
    forall i, j :: 0 <= i < j < |s| ==> s[i].penaltyPoints <= s[j].penaltyPoints
  }

  /** The rows with a given penalty, in order. */
  function WithPenalty(s: seq<Score>, v: int): seq<Score> {
    if s == [] then [] else (if s[0].penaltyPoints == v then [s[0]] else []) + WithPenalty(s[1..], v)
  }

  lemma {:induction false} InsertByPenaltySorted(x: Score, s: seq<Score>)
    requires ByPenalty(s)
    ensures ByPenalty(InsertByPenalty(x, s))
  {
    if s != [] && x.penaltyPoints > s[0].penaltyPoints {
      InsertByPenaltySorted(x, s[1..]);
      var t := InsertByPenalty(x, s[1..]);
      forall k | 0 <= k < |t| ensures s[0].penaltyPoints <= t[k].penaltyPoints {
        assert t[k] in multiset(s[1..]) + multiset{x};
        if t[k] in multiset(s[1..]) {
          var m :| 0 <= m < |s[1..]| && s[1..][m] == t[k];
          assert s[m + 1] == t[k];
        }
      }
    }
  }

  lemma {:induction false} SortByPenaltySorted(s: seq<Score>)
    ensures ByPenalty(SortByPenalty(s))
  {
    if s != [] {
      SortByPenaltySorted(s[1..]);
      InsertByPenaltySorted(s[0], SortByPenalty(s[1..]));
    }
  }

  lemma {:induction false} WithPenaltyConcat(a: seq<Score>, b: seq<Score>, v: int)
    ensures WithPenalty(a + b, v) == WithPenalty(a, v) + WithPenalty(b, v)
  {
    if a == [] {
      assert a + b == b;
    } else {
      var h := Only(a[0], v);
      assert (a + b)[0] == a[0] && (a + b)[1..] == a[1..] + b;
      WithPenaltyConcat(a[1..], b, v);
      calc {
        WithPenalty(a + b, v);
        h + WithPenalty(a[1..] + b, v);
        h + (WithPenalty(a[1..], v) + WithPenalty(b, v));
        (h + WithPenalty(a[1..], v)) + WithPenalty(b, v);
      }
    }
  }

  function Only(x: Score, v: int): seq<Score> {
    if x.penaltyPoints == v then [x] else []
  }

  lemma {:induction false} InsertByPenaltyStable(x: Score, s: seq<Score>, v: int)
    ensures WithPenalty(InsertByPenalty(x, s), v) == Only(x, v) + WithPenalty(s, v)
  {
    var r := InsertByPenalty(x, s);
    if s == [] || x.penaltyPoints <= s[0].penaltyPoints {
      assert r == [x] + s;
      assert r[1..] == s;
      assert WithPenalty(r, v) == Only(x, v) + WithPenalty(s, v);
    } else {
      var t := InsertByPenalty(x, s[1..]);
      assert r == [s[0]] + t;
      InsertByPenaltyStable(x, s[1..], v);
      assert r[1..] == t;
      assert WithPenalty(r, v) == Only(s[0], v) + WithPenalty(t, v);
      assert WithPenalty(s, v) == Only(s[0], v) + WithPenalty(s[1..], v);
      assert Only(s[0], v) == [] || Only(x, v) == [];
    }
  }

  /** Stability: among rows of equal penalty, the order of the seats is kept. */
  lemma {:induction false} SortByPenaltyStable(s: seq<Score>, v: int)
    ensures WithPenalty(SortByPenalty(s), v) == WithPenalty(s, v)
  {
    if s != [] {
      SortByPenaltyStable(s[1..], v);
      InsertByPenaltyStable(s[0], SortByPenalty(s[1..]), v);
    }
  }

  /** calculateFinalScores */
  function FinalScores(game: Game): seq<Score> {
    SortByPenalty(ScoreRows(game.players, game.winner))
  }

  /**
   * The scores are one row per player, each carrying that player's penalty (30 per joker,
   * face value otherwise), in ascending order of penalty, equal penalties in seat order,
   * and only the winner's socket is marked as winner.
   */
  lemma FinalScoresSpec(game: Game)
    ensures var r := FinalScores(game);
      |r| == |game.players|
      && multiset(r) == multiset(ScoreRows(game.players, game.winner))
      && ByPenalty(r)
      && (forall v :: WithPenalty(r, v) == WithPenalty(ScoreRows(game.players, game.winner), v))
      && (forall row <- r :: row.isWinner <==> game.winner.Some? && row.socketId == game.winner.value.socketId)
      && (forall row <- r :: (exists p <- game.players :: row == ScoreOf(p, game.winner)
                                && row.penaltyPoints == 30 * JokerCount(p.tiles) + SetPoints(p.tiles)))
  {
    var rows := ScoreRows(game.players, game.winner);
    var r := FinalScores(game);
    SortByPenaltySorted(rows);
    forall v ensures WithPenalty(r, v) == WithPenalty(rows, v) {
      SortByPenaltyStable(rows, v);
    }
    assert |r| == |multiset(r)| == |multiset(rows)| == |rows|;
    ScoreRowsFacts(game.players, game.winner);
    forall row <- r ensures row in rows {
      assert row in multiset(rows);
    }
  }

  /** Each score row is some player's, with the penalty split into jokers and face values. */
  lemma ScoreRowsFacts(players: seq<Player>, winner: Option<Winner>)
    ensures forall row <- ScoreRows(players, winner) ::
      && (row.isWinner <==> winner.Some? && row.socketId == winner.value.socketId)
      && exists p <- players :: row == ScoreOf(p, winner) && row.penaltyPoints == 30 * JokerCount(p.tiles) + SetPoints(p.tiles)
  {
    var rows := ScoreRows(players, winner);
    forall row <- rows
      ensures exists p <- players :: row == ScoreOf(p, winner) && row.penaltyPoints == 30 * JokerCount(p.tiles) + SetPoints(p.tiles)
    {
      var i :| 0 <= i < |rows| && rows[i] == row;
      PenaltySplit(players[i].tiles);
      assert players[i] in players;
    }
  }

  // ---------------------------------------------------------------------------
  // The registry
  // ---------------------------------------------------------------------------

  /** Both directions of a socket's seat test, used by getGameByPlayer. */
  predicate Seats(game: Game, socketId: string) {
    exists p <- game.players :: p.socketId == socketId
  }

  class GameRegistry {
    var games: map<string, Game>
    /** The keys of `games` in insertion order. */
    var order: seq<string>

    ghost predicate Valid()
      reads this
    {
      Distinct(order) && (forall k :: k in order <==> k in games)
    }

    constructor()
      ensures Valid() && games == map[] && order == []
    {
      games := map[];
      order := [];
    }

    /** `games.set(gameId, game)` */
    method Put(gameId: string, game: Game)
      requires Valid()
      modifies this
      ensures Valid()
      ensures games == old(games)[gameId := game]
      ensures order == if gameId in old(games) then old(order) else old(order) + [gameId]
    {
      if gameId !in games {
        assert gameId !in order;
        order := order + [gameId];
      }
      games := games[gameId := game];
    }

    /**
     * createGame: the tile set for the lobby's joker count is generated and shuffled, dealt
     * seat by seat, and the rest becomes the pool. The generated id and the clock are
     * parameters; `deck` names the shuffled tile set the game was dealt from.
     */
    method CreateGame(lobby: Lobby, gameId: string, now: int) returns (game: Game, ghost deck: seq<Tile>)
      requires Valid()
      modifies this
      ensures Valid()
      ensures games == old(games)[gameId := game]
      ensures order == if gameId in old(games) then old(order) else old(order) + [gameId]
      ensures multiset(deck) == multiset(Tileset(lobby.rules.jokerCount))
      ensures game == NewGame(gameId, lobby, deck, now)
      ensures lobby.rules.tilesPerPlayer >= 0 ==> HandTiles(game.players) + game.tilePool == deck
    {
      var tiles := GenerateTileset(lobby.rules.jokerCount);
      var unshuffled := new Tile[|tiles|](i requires 0 <= i < |tiles| => tiles[i]);
      assert unshuffled[..] == tiles;
      var shuffled := ShuffleArray(unshuffled);
      deck := shuffled[..];
      game := NewGame(gameId, lobby, shuffled[..], now);
      if lobby.rules.tilesPerPlayer >= 0 {
        DealPartition(gameId, lobby, deck, now);
      }
      Put(gameId, game);
    }

    function GetGame(gameId: string): (r: Option<Game>)
      reads this
      ensures r.Some? <==> gameId in games
      ensures r.Some? ==> r.value == games[gameId]
    {
      if gameId in games then Some(games[gameId]) else None
    }

    /** deleteGame (clearing its timer is not modelled). */
    method DeleteGame(gameId: string) returns (deleted: bool)
      requires Valid()
      modifies this
      ensures Valid()
      ensures deleted <==> gameId in old(games)
      ensures games == old(games) - {gameId}
      ensures order == Without(old(order), gameId)
    {
      deleted := gameId in games;
      WithoutDistinct(order, gameId);
      order := Without(order, gameId);
      games := games - {gameId};
    }

    /** getGameByPlayer: the first game, in insertion order, seating that socket. */
    method GetGameByPlayer(socketId: string) returns (r: Option<Game>)
      requires Valid()
      ensures r.Some? ==> Seats(r.value, socketId) && r.value in games.Values
      ensures r.Some? ==> (exists i :: 0 <= i < |order| && games[order[i]] == r.value
                             && forall j :: 0 <= j < i ==> !Seats(games[order[j]], socketId))
      ensures r.None? <==> forall k <- games :: !Seats(games[k], socketId)
    {
      var i := 0;
      while i < |order|
        invariant 0 <= i <= |order|
        invariant forall j :: 0 <= j < i ==> !Seats(games[order[j]], socketId)
      {
        var game := games[order[i]];
        if exists p <- game.players :: p.socketId == socketId {
          return Some(game);
        }
        i := i + 1;
      }
      forall k <- games ensures !Seats(games[k], socketId) {
        var j :| 0 <= j < |order| && order[j] == k;
      }
      r := None;
    }

    /** getGameByLobby: the first game, in insertion order, started from that lobby. */
    method GetGameByLobby(lobbyId: string) returns (r: Option<Game>)
      requires Valid()
      ensures r.Some? ==> r.value.lobbyId == lobbyId && r.value in games.Values
      ensures r.Some? ==> (exists i :: 0 <= i < |order| && games[order[i]] == r.value
                             && forall j :: 0 <= j < i ==> games[order[j]].lobbyId != lobbyId)
      ensures r.None? <==> forall k <- games :: games[k].lobbyId != lobbyId
    {
      var i := 0;
      while i < |order|
        invariant 0 <= i <= |order|
        invariant forall j :: 0 <= j < i ==> games[order[j]].lobbyId != lobbyId
      {
        var game := games[order[i]];
        if game.lobbyId == lobbyId {
          return Some(game);
        }
        i := i + 1;
      }
      forall k <- games ensures games[k].lobbyId != lobbyId {
        var j :| 0 <= j < |order| && order[j] == k;
      }
      r := None;
    }

    /** Stores the new record of an existing game; the key order stays as it is. */
    method Replace(gameId: string, game: Game)
      requires Valid() && gameId in games
      modifies this
      ensures Valid() && order == old(order)
      ensures games == old(games)[gameId := game]
    {
      games := games[gameId := game];
    }

    /** advanceTurn: null for an unknown game. */
    method AdvanceTurnOf(gameId: string, now: int) returns (r: Option<Game>)
      requires Valid()
      requires gameId in games ==> |games[gameId].players| > 0
      modifies this
      ensures Valid() && order == old(order)
      ensures r.None? <==> gameId !in old(games)
      ensures r.None? ==> games == old(games)
      ensures r.Some? ==> r.value == AdvanceTurn(old(games)[gameId], now) && games == old(games)[gameId := r.value]
    {
      if gameId !in games {
        return None;
      }
      var game := AdvanceTurn(games[gameId], now);
      Replace(gameId, game);
      r := Some(game);
    }

    /** revertToTurnStart: null, with nothing changed, for an unknown game or one with no saved state. */
    method RevertToTurnStartOf(gameId: string) returns (r: Option<Game>)
      requires Valid()
      requires gameId in games && games[gameId].turnStartState.Some? ==> HasCurrent(games[gameId])
      modifies this
      ensures Valid() && order == old(order)
      ensures r.None? <==> gameId !in old(games) || old(games)[gameId].turnStartState.None?
      ensures r.None? ==> games == old(games)
      ensures r.Some? ==> Some(r.value) == RevertToTurnStart(old(games)[gameId])
                          && games == old(games)[gameId := r.value]
    {
      if gameId !in games || games[gameId].turnStartState.None? {
        return None;
      }
      var game := RevertToTurnStart(games[gameId]).value;
      Replace(gameId, game);
      r := Some(game);
    }

    /** drawTile: null, with nothing changed, for an unknown game or player or an empty pool. */
    method DrawTileOf(gameId: string, socketId: string) returns (r: Option<Drawn>)
      requires Valid()
      modifies this
      ensures Valid() && order == old(order)
      ensures r.None? <==> gameId !in old(games) || DrawTile(old(games)[gameId], socketId).None?
      ensures r.None? ==> games == old(games)
      ensures r.Some? ==> r == DrawTile(old(games)[gameId], socketId) && games == old(games)[gameId := r.value.game]
    {
      if gameId !in games {
        return None;
      }
      r := DrawTile(games[gameId], socketId);
      if r.Some? {
        Replace(gameId, r.value.game);
      }
    }

    /** updatePlayerTiles */
    method UpdatePlayerTilesOf(gameId: string, socketId: string, tiles: seq<Tile>) returns (r: Option<Game>)
      requires Valid()
      modifies this
      ensures Valid() && order == old(order)
      ensures r.None? <==> gameId !in old(games) || UpdatePlayerTiles(old(games)[gameId], socketId, tiles).None?
      ensures r.None? ==> games == old(games)
      ensures r.Some? ==> r == UpdatePlayerTiles(old(games)[gameId], socketId, tiles)
                          && games == old(games)[gameId := r.value]
    {
      if gameId !in games {
        return None;
      }
      r := UpdatePlayerTiles(games[gameId], socketId, tiles);
      if r.Some? {
        Replace(gameId, r.value);
      }
    }

    /** updateTableSets */
    method UpdateTableSetsOf(gameId: string, tableSets: seq<seq<Tile>>) returns (r: Option<Game>)
      requires Valid()
      modifies this
      ensures Valid() && order == old(order)
      ensures r.None? <==> gameId !in old(games)
      ensures r.None? ==> games == old(games)
      ensures r.Some? ==> r.value == old(games)[gameId].(tableSets := tableSets)
                          && games == old(games)[gameId := r.value]
    {
      if gameId !in games {
        return None;
      }
      var game := games[gameId].(tableSets := tableSets);
      Replace(gameId, game);
      r := Some(game);
    }

    /** setPlayerInitialMeld */
    method SetPlayerInitialMeldOf(gameId: string, socketId: string) returns (r: Option<Game>)
      requires Valid()
      modifies this
      ensures Valid() && order == old(order)
      ensures r.None? <==> gameId !in old(games)
      ensures r.None? ==> games == old(games)
      ensures r.Some? ==> r.value == SetPlayerInitialMeld(old(games)[gameId], socketId)
                          && games == old(games)[gameId := r.value]
    {
      if gameId !in games {
        return None;
      }
      var game := SetPlayerInitialMeld(games[gameId], socketId);
      Replace(gameId, game);
      r := Some(game);
    }

    /** setGameWinner */
    method SetGameWinnerOf(gameId: string, socketId: string, now: int) returns (r: Option<Game>)
      requires Valid()
      modifies this
      ensures Valid() && order == old(order)
      ensures r.None? <==> gameId !in old(games)
      ensures r.None? ==> games == old(games)
      ensures r.Some? ==> r.value == SetGameWinner(old(games)[gameId], socketId, now)
                          && games == old(games)[gameId := r.value]
    {
      if gameId !in games {
        return None;
      }
      var game := SetGameWinner(games[gameId], socketId, now);
      Replace(gameId, game);
      r := Some(game);
    }

    /** setPlayerDisconnected */
    method SetPlayerDisconnectedOf(gameId: string, socketId: string, now: int) returns (r: Option<Game>)
      requires Valid()
      modifies this
      ensures Valid() && order == old(order)
      ensures r.None? <==> gameId !in old(games)
      ensures r.None? ==> games == old(games)
      ensures r.Some? ==> r.value == SetPlayerDisconnected(old(games)[gameId], socketId, now)
                          && games == old(games)[gameId := r.value]
    {
      if gameId !in games {
        return None;
      }
      var game := SetPlayerDisconnected(games[gameId], socketId, now);
      Replace(gameId, game);
      r := Some(game);
    }

    /** setPlayerReconnected */
    method SetPlayerReconnectedOf(gameId: string, socketId: string) returns (r: Option<Game>)
      requires Valid()
      modifies this
      ensures Valid() && order == old(order)
      ensures r.None? <==> gameId !in old(games)
      ensures r.None? ==> games == old(games)
      ensures r.Some? ==> r.value == SetPlayerReconnected(old(games)[gameId], socketId)
                          && games == old(games)[gameId := r.value]
    {
      if gameId !in games {
        return None;
      }
      var game := SetPlayerReconnected(games[gameId], socketId);
      Replace(gameId, game);
      r := Some(game);
    }

    /** replacePlayerWithBot */
    method ReplacePlayerWithBotOf(gameId: string, socketId: string, botDifficulty: string) returns (r: Option<Game>)
      requires Valid()
      modifies this
      ensures Valid() && order == old(order)
      ensures r.None? <==> gameId !in old(games)
      ensures r.None? ==> games == old(games)
      ensures r.Some? ==> r.value == ReplacePlayerWithBot(old(games)[gameId], socketId, botDifficulty)
                          && games == old(games)[gameId := r.value]
    {
      if gameId !in games {
        return None;
      }
      var game := ReplacePlayerWithBot(games[gameId], socketId, botDifficulty);
      Replace(gameId, game);
      r := Some(game);
    }

    /** pauseGame */
    method PauseGameOf(gameId: string) returns (r: Option<Game>)
      requires Valid()
      modifies this
      ensures Valid() && order == old(order)
      ensures r.None? <==> gameId !in old(games)
      ensures r.None? ==> games == old(games)
      ensures r.Some? ==> r.value == PauseGame(old(games)[gameId]) && games == old(games)[gameId := r.value]
    {
      if gameId !in games {
        return None;
      }
      var game := PauseGame(games[gameId]);
      Replace(gameId, game);
      r := Some(game);
    }

    /** resumeGame */
    method ResumeGameOf(gameId: string) returns (r: Option<Game>)
      requires Valid()
      modifies this
      ensures Valid() && order == old(order)
      ensures r.None? <==> gameId !in old(games)
      ensures r.None? ==> games == old(games)
      ensures r.Some? ==> r.value == ResumeGame(old(games)[gameId]) && games == old(games)[gameId := r.value]
    {
      if gameId !in games {
        return None;
      }
      var game := ResumeGame(games[gameId]);
      Replace(gameId, game);
      r := Some(game);
    }

    /** addSpectatorToGame */
    method AddSpectatorToGameOf(gameId: string, socketId: string, username: string) returns (r: Option<Game>)
      requires Valid()
      modifies this
      ensures Valid() && order == old(order)
      ensures r.None? <==> gameId !in old(games)
      ensures r.None? ==> games == old(games)
      ensures r.Some? ==> r.value == AddSpectatorToGame(old(games)[gameId], socketId, username)
                          && games == old(games)[gameId := r.value]
    {
      if gameId !in games {
        return None;
      }
      var game := AddSpectatorToGame(games[gameId], socketId, username);
      Replace(gameId, game);
      r := Some(game);
    }

    /** removeSpectatorFromGame */
    method RemoveSpectatorFromGameOf(gameId: string, socketId: string) returns (r: Option<Game>)
      requires Valid()
      modifies this
      ensures Valid() && order == old(order)
      ensures r.None? <==> gameId !in old(games)
      ensures r.None? ==> games == old(games)
      ensures r.Some? ==> r.value == RemoveSpectatorFromGame(old(games)[gameId], socketId)
                          && games == old(games)[gameId := r.value]
    {
      if gameId !in games {
        return None;
      }
      var game := RemoveSpectatorFromGame(games[gameId], socketId);
      Replace(gameId, game);
      r := Some(game);
    }

    /** calculateFinalScores: null for an unknown game. */
    method CalculateFinalScores(gameId: string) returns (r: Option<seq<Score>>)
      ensures r.None? <==> gameId !in games
      ensures r.Some? ==> r.value == FinalScores(games[gameId])
      ensures r.Some? ==> ByPenalty(r.value) && |r.value| == |games[gameId].players|
    {
      if gameId !in games {
        return None;
      }
      FinalScoresSpec(games[gameId]);
      r := Some(FinalScores(games[gameId]));
    }
  }
}
