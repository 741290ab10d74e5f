/**
 * BotManager (server/bot/BotManager.js): a bot's turn. The strategy named by the seat's
 * difficulty (medium when unknown) decides; a play is applied to the game as it comes, with
 * no validation, and reported in the game's chat; otherwise the bot draws, or passes when
 * the pool is empty. The turn runs the strategies as written; that a turn keeps every tile is
 * proved for the corrected strategies (`HardStrategy.Reading`).
 */
module BotManager {
  import opened Tiles
  import opened Optional
  import opened BotSets
  import opened GameStore
  import Rules
  import Candidates
  import PlanStrategy
  import HardStrategy
  import ChatStore

  // ---------------------------------------------------------------------------
  // Choosing the strategy
  // ---------------------------------------------------------------------------

  datatype Difficulty = EasyBot | MediumBot | HardBot

  /** `strategies[currentPlayer.botDifficulty] || strategies.medium` */
  function StrategyFor(botDifficulty: Option<string>): (k: Difficulty) {
    if botDifficulty == Some("easy") then EasyBot
    else if botDifficulty == Some("hard") then HardBot
    else MediumBot
  }

  /** Only "easy" and "hard" pick their strategy; anything else, or none, plays medium. */
  lemma StrategyFallback(botDifficulty: Option<string>)
    ensures StrategyFor(botDifficulty) == EasyBot <==> botDifficulty == Some("easy")
    ensures StrategyFor(botDifficulty) == HardBot <==> botDifficulty == Some("hard")
    ensures StrategyFor(botDifficulty) == MediumBot <==> botDifficulty != Some("easy") && botDifficulty != Some("hard")
  {
  }

  /** What `strategy.play` is given: copies of the hand and the table, the meld flag and the rules. */
  function StateOf(game: Game, p: Player): PlanStrategy.BotState {
    PlanStrategy.BotState(p.tiles, game.tableSets, p.hasPlayedInitialMeld, game.rules)
  }

  /** `strategy.play(...)` in the reading `v`. */
  function Decide(k: Difficulty, st: PlanStrategy.BotState, v: HardStrategy.Reading): PlanStrategy.Decision {
    match k
    case EasyBot => PlanStrategy.Plan(Candidates.Easy, st, HardStrategy.Source(v))
    case MediumBot => PlanStrategy.Plan(Candidates.Medium, st, HardStrategy.Source(v))
    case HardBot => HardStrategy.HardPlay(st, v)
  }

  method Play(k: Difficulty, st: PlanStrategy.BotState, v: HardStrategy.Reading) returns (d: PlanStrategy.Decision)
    ensures d == Decide(k, st, v)
  {
    match k {
      case EasyBot => d := PlanStrategy.PlayTurn(Candidates.Easy, st, HardStrategy.Source(v));
      case MediumBot => d := PlanStrategy.PlayTurn(Candidates.Medium, st, HardStrategy.Source(v));
      case HardBot => d := HardStrategy.PlayTurn(st, v);
    }
  }

  // ---------------------------------------------------------------------------
  // What a play reports
  // ---------------------------------------------------------------------------

  /**
   * The faces of the tiles, in table order, whose id was in the bot's hand and not on the
   * table before the turn.
   */
  function PlayedFaces(tiles: seq<Tile>, handIds: set<int>, tableIds: set<int>): seq<ChatStore.Face> {
    if tiles == [] then []
    else
      var t := tiles[|tiles| - 1];
      PlayedFaces(tiles[..|tiles| - 1], handIds, tableIds)
      + (if t.id in handIds && t.id !in tableIds then [ChatStore.FaceOf(t)] else [])
  }

  /** A face is reported exactly when some tile on the new table came from the hand and not from the table. */
  lemma {:induction false} PlayedFacesSpec(tiles: seq<Tile>, handIds: set<int>, tableIds: set<int>)
    ensures |PlayedFaces(tiles, handIds, tableIds)| <= |tiles|
    ensures forall f :: f in PlayedFaces(tiles, handIds, tableIds) <==>
      exists t <- tiles :: t.id in handIds && t.id !in tableIds && ChatStore.FaceOf(t) == f
  {
    if tiles != [] {
      var pre := tiles[..|tiles| - 1];
      var t := tiles[|tiles| - 1];
      PlayedFacesSpec(pre, handIds, tableIds);
      assert tiles == pre + [t];
      forall f | f in PlayedFaces(tiles, handIds, tableIds)
        ensures exists u <- tiles :: u.id in handIds && u.id !in tableIds && ChatStore.FaceOf(u) == f
      {
        if f !in PlayedFaces(pre, handIds, tableIds) {
          assert t in tiles;
        } else {
          var u :| u in pre && u.id in handIds && u.id !in tableIds && ChatStore.FaceOf(u) == f;
          assert u in tiles;
        }
      }
      forall f | exists u <- tiles :: u.id in handIds && u.id !in tableIds && ChatStore.FaceOf(u) == f
        ensures f in PlayedFaces(tiles, handIds, tableIds)
      {
        var u :| u in tiles && u.id in handIds && u.id !in tableIds && ChatStore.FaceOf(u) == f;
        if u != t {
          assert u in pre;
        }
      }
    }
  }

  lemma PlayedSnoc(tiles: seq<Tile>, t: Tile, handIds: set<int>, tableIds: set<int>)
    ensures PlayedFaces(tiles + [t], handIds, tableIds)
         == PlayedFaces(tiles, handIds, tableIds) + (if t.id in handIds && t.id !in tableIds then [ChatStore.FaceOf(t)] else [])
  {
    assert (tiles + [t])[..|tiles|] == tiles;
  }

  /** The `playedTiles` loop: every tile of every set of the new table, in order. */
  method CollectPlayed(tableSets: seq<seq<Tile>>, handIds: set<int>, tableIds: set<int>)
    returns (played: seq<ChatStore.Face>)
    ensures played == PlayedFaces(Flatten(tableSets), handIds, tableIds)
  {
    played := [];
    for i := 0 to |tableSets|
      invariant played == PlayedFaces(Flatten(tableSets[..i]), handIds, tableIds)
    {
      var set_ := tableSets[i];
      var before := Flatten(tableSets[..i]);
      assert before + set_[..0] == before;
      for j := 0 to |set_|
        invariant played == PlayedFaces(before + set_[..j], handIds, tableIds)
      {
        var tile := set_[j];
        assert before + set_[..j + 1] == (before + set_[..j]) + [tile];
        PlayedSnoc(before + set_[..j], tile, handIds, tableIds);
        if tile.id in handIds && tile.id !in tableIds {
          played := played + [ChatStore.FaceOf(tile)];
        }
      }
      FlattenSnoc(tableSets, i);
      assert set_[..|set_|] == set_;
    }
    assert tableSets[..|tableSets|] == tableSets;
  }

  /** The sets of the new table holding at least one tile from the bot's hand, in table order. */
  function NewSets(sets: seq<seq<Tile>>, handIds: set<int>): (r: seq<seq<Tile>>)
    ensures forall s <- r :: s in sets && exists t <- s :: t.id in handIds
    ensures forall s <- sets :: (exists t <- s :: t.id in handIds) ==> s in r
  {
    if sets == [] then []
    else
      var s := sets[|sets| - 1];
      NewSets(sets[..|sets| - 1], handIds) + (if exists t <- s :: t.id in handIds then [s] else [])
  }

  function Max0(n: int): nat {
    if n > 0 then n else 0
  }

  /**
   * The details of the 'played' message: the played faces and their count, the number of sets
   * added, and on the initial meld the points of the sets that hold hand tiles.
   */
  function DetailsOf(game: Game, p: Player, d: PlanStrategy.Decision): ChatStore.PlayDetails
    requires d.Play?
  {
    var handIds := IdSet(p.tiles);
    var played := PlayedFaces(Flatten(d.tableSets), handIds, IdSet(Flatten(game.tableSets)));
    var wasInitialMeld := !p.hasPlayedInitialMeld && d.playedInitialMeld;
    var points := if wasInitialMeld then Rules.InitialMeldPoints(NewSets(d.tableSets, handIds)) else 0;
    ChatStore.PlayDetails(|played|, Max0(|d.tableSets| - |game.tableSets|), 0, wasInitialMeld, points, Some(played))
  }

  // ---------------------------------------------------------------------------
  // The turn
  // ---------------------------------------------------------------------------

  /** The answer to the caller: an error, a play (with whether it emptied the hand), a draw or a pass. */
  datatype Outcome =
    | NotABotTurn
    | PlayedTurn(details: ChatStore.PlayDetails, gameEnded: bool)
    | DrewTile(tile: Tile)
    | PassedTurn

  datatype Turn = Turn(game: Game, outcome: Outcome)

  /** The table and the hand become the strategy's; the meld flag is set when the play made the initial meld. */
  function ApplyPlay(game: Game, p: Player, d: PlanStrategy.Decision): Game
    requires d.Play?
  {
    var g := game.(tableSets := d.tableSets);
    var h := match UpdatePlayerTiles(g, p.socketId, d.playerTiles) case Some(x) => x case None => g;
    if !p.hasPlayedInitialMeld && d.playedInitialMeld then SetPlayerInitialMeld(h, p.socketId) else h
  }

  /** What follows the bot `p`'s decision `d`: the play applied, or a draw, or a pass. */
  function TurnWith(game: Game, p: Player, d: PlanStrategy.Decision): Turn {
    if d.Play? then Turn(ApplyPlay(game, p, d), PlayedTurn(DetailsOf(game, p, d), Rules.HasPlayerWon(d.playerTiles)))
    else
      match DrawTile(game, p.socketId)
      case Some(drawn) => Turn(drawn.game, DrewTile(drawn.tile))
      case None => Turn(game, PassedTurn)
  }

  /** The current seat's decision. */
  function DecisionOf(game: Game, v: HardStrategy.Reading): PlanStrategy.Decision
    requires HasCurrent(game)
  {
    var p := game.players[game.currentPlayerIndex];
    Decide(StrategyFor(p.botDifficulty), StateOf(game, p), v)
  }

  /** executeBotTurn on the game record, with the strategies in the reading `v`. */
  function BotTurn(game: Game, v: HardStrategy.Reading): Turn
    requires HasCurrent(game)
  {
    var p := game.players[game.currentPlayerIndex];
    if !p.isBot then Turn(game, NotABotTurn) else TurnWith(game, p, DecisionOf(game, v))
  }

  /** The action message a turn posts, if any. */
  function Posted(o: Outcome): Option<ChatStore.Action> {
    match o
    case NotABotTurn => None
    case PlayedTurn(details, _) => Some(ChatStore.Played(details))
    case DrewTile(_) => Some(ChatStore.Drew)
    case PassedTurn => Some(ChatStore.Passed)
  }

  /** The room of a game's chat. */
  function Room(gameId: string): string {
    "game:" + gameId
  }

  /**
   * executeBotTurn: the game's current player must be seated (the source reads its fields).
   * The registry ends up holding the game `BotTurn` computes with the strategies as written,
   * and the action is posted to the
   * game's room under the bot's name. Broadcasts and the callback are the returned outcome.
   */
  method ExecuteBotTurn(games: GameRegistry, chat: ChatStore.ChatStore, gameId: string, now: nat)
    returns (outcome: Outcome)
    requires games.Valid() && chat.Valid()
    requires gameId in games.games && HasCurrent(games.games[gameId])
    modifies games, chat
    ensures games.Valid() && chat.Valid() && games.order == old(games.order)
    ensures var t := BotTurn(old(games.games)[gameId], HardStrategy.AsWritten);
      outcome == t.outcome && games.games == old(games.games)[gameId := t.game]
    ensures var game := old(games.games)[gameId];
      var username := game.players[game.currentPlayerIndex].username;
      match Posted(outcome)
      case None => chat.rooms == old(chat.rooms)
      case Some(a) =>
        chat.rooms == old(chat.rooms)[Room(gameId) := ChatStore.Kept(old(chat.History(Room(gameId))),
          ChatStore.NewMessage(username, ChatStore.ActionText(username, a), ChatStore.ActionMessage, now))]
  {
    var game := games.games[gameId];
    var currentPlayer := game.players[game.currentPlayerIndex];
    if !currentPlayer.isBot {
      return NotABotTurn;
    }
    var strategy := StrategyFor(currentPlayer.botDifficulty);
    var result := Play(strategy, StateOf(game, currentPlayer), HardStrategy.AsWritten);
    assert result == DecisionOf(game, HardStrategy.AsWritten);
    outcome := FollowDecision(games, chat, gameId, game, currentPlayer, result, now);
  }

  /** Everything executeBotTurn does once the strategy has answered `result`. */
  method FollowDecision(games: GameRegistry, chat: ChatStore.ChatStore, gameId: string, game: Game, currentPlayer: Player,
                        result: PlanStrategy.Decision, now: nat)
    returns (outcome: Outcome)
    requires games.Valid() && chat.Valid()
    requires gameId in games.games && games.games[gameId] == game && currentPlayer in game.players
    modifies games, chat
    ensures games.Valid() && chat.Valid() && games.order == old(games.order)
    ensures var t := TurnWith(game, currentPlayer, result);
      outcome == t.outcome && games.games == old(games.games)[gameId := t.game]
    ensures Posted(outcome).Some?
    ensures chat.rooms == old(chat.rooms)[Room(gameId) := ChatStore.Kept(old(chat.History(Room(gameId))),
      ChatStore.NewMessage(currentPlayer.username, ChatStore.ActionText(currentPlayer.username, Posted(outcome).value),
                           ChatStore.ActionMessage, now))]
  {
    if result.Play? {
      StorePlay(games, gameId, game, currentPlayer, result);
      var details := Report(game, currentPlayer, result);
      outcome := PlayedTurn(details, Rules.HasPlayerWon(result.playerTiles));
      var _ := chat.AddActionMessage(Room(gameId), currentPlayer.username, ChatStore.Played(details), now);
    } else if |game.tilePool| > 0 {
      var drawn := games.DrawTileOf(gameId, currentPlayer.socketId);
      outcome := DrewTile(drawn.value.tile);
      var _ := chat.AddActionMessage(Room(gameId), currentPlayer.username, ChatStore.Drew, now);
    } else {
      outcome := PassedTurn;
      var _ := chat.AddActionMessage(Room(gameId), currentPlayer.username, ChatStore.Passed, now);
    }
  }

  /** updateTableSets, updatePlayerTiles and, on the initial meld, setPlayerInitialMeld. */
  method StorePlay(games: GameRegistry, gameId: string, game: Game, currentPlayer: Player, result: PlanStrategy.Decision)
    requires games.Valid() && result.Play?
    requires gameId in games.games && games.games[gameId] == game
    modifies games
    ensures games.Valid() && games.order == old(games.order)
    ensures games.games == old(games.games)[gameId := ApplyPlay(game, currentPlayer, result)]
  {
    var _ := games.UpdateTableSetsOf(gameId, result.tableSets);
    var _ := games.UpdatePlayerTilesOf(gameId, currentPlayer.socketId, result.playerTiles);
    if !currentPlayer.hasPlayedInitialMeld && result.playedInitialMeld {
      var _ := games.SetPlayerInitialMeldOf(gameId, currentPlayer.socketId);
    }
  }

  /** The tiles played, the sets created and the meld points, as `executeBotTurn` computes them. */
  method Report(game: Game, currentPlayer: Player, result: PlanStrategy.Decision) returns (details: ChatStore.PlayDetails)
    requires result.Play?
    ensures details == DetailsOf(game, currentPlayer, result)
  {
    var originalTableTileIds := IdSet(Flatten(game.tableSets));
    var originalPlayerTileIds := IdSet(currentPlayer.tiles);
    var originalSetCount := |game.tableSets|;
    var wasInitialMeld := !currentPlayer.hasPlayedInitialMeld && result.playedInitialMeld;
    var playedTiles := CollectPlayed(result.tableSets, originalPlayerTileIds, originalTableTileIds);
    var tilesPlayed := |playedTiles|;
    var setsCreated := Max0(|result.tableSets| - originalSetCount);
    var meldPoints := 0;
    if wasInitialMeld {
      meldPoints := Rules.CalculateInitialMeldPoints(NewSets(result.tableSets, originalPlayerTileIds));
    }
    details := ChatStore.PlayDetails(tilesPlayed, setsCreated, 0, wasInitialMeld, meldPoints, Some(playedTiles));
  }

  // ---------------------------------------------------------------------------
  // Properties of a turn
  // ---------------------------------------------------------------------------

  /** A seat that is not a bot's gets an error and the game is left as it was. */
  lemma NotABotChangesNothing(game: Game)
    requires HasCurrent(game) && !game.players[game.currentPlayerIndex].isBot
    ensures forall v :: BotTurn(game, v) == Turn(game, NotABotTurn)
  {
  }

  /**
   * A play is applied as it comes: the table and the bot's hand are the strategy's, the meld
   * flag is set iff it was not and the play reports the initial meld, and the pool and the
   * other seats are untouched. The game is reported ended iff the new hand is empty.
   */
  lemma PlayIsApplied(game: Game, p: Player, d: PlanStrategy.Decision)
    requires p in game.players && d.Play?
    ensures var t := TurnWith(game, p, d);
      var k := FindPlayer(game.players, p.socketId);
      && 0 <= k < |game.players|
      && t.game.tableSets == d.tableSets
      && t.game.tilePool == game.tilePool
      && |t.game.players| == |game.players|
      && t.game.players[k].tiles == d.playerTiles
      && (var melded := game.players[k].hasPlayedInitialMeld || (!p.hasPlayedInitialMeld && d.playedInitialMeld);
          t.game.players[k].hasPlayedInitialMeld == melded)
      && (forall j :: 0 <= j < |game.players| && j != k ==> t.game.players[j] == game.players[j])
      && t.outcome.PlayedTurn?
      && (t.outcome.gameEnded <==> d.playerTiles == [])
  {
    var k := FindPlayer(game.players, p.socketId);
    var g := game.(tableSets := d.tableSets);
    var h := g.(players := g.players[k := g.players[k].(tiles := d.playerTiles)]);
    assert UpdatePlayerTiles(g, p.socketId, d.playerTiles) == Some(h);
  }

  /**
   * A draw gives the bot exactly the last tile of a non-empty pool; with the pool empty the
   * bot passes and the game is unchanged.
   */
  lemma DrawOrPass(game: Game, p: Player, d: PlanStrategy.Decision)
    requires p in game.players && d.Draw?
    ensures var t := TurnWith(game, p, d);
      var k := FindPlayer(game.players, p.socketId);
      && (game.tilePool == [] ==> t == Turn(game, PassedTurn))
      && (game.tilePool != [] ==>
            && 0 <= k < |game.players|
            && t.outcome == DrewTile(game.tilePool[|game.tilePool| - 1])
            && t.game.tilePool + [t.outcome.tile] == game.tilePool
            && t.game.players[k].tiles == game.players[k].tiles + [t.outcome.tile])
  {
    if game.tilePool != [] {
      DrawMovesOneTile(game, p.socketId);
    }
  }

  /** The report lists exactly the tiles that came from the hand and were not on the table, and counts them. */
  lemma ReportedTiles(game: Game, p: Player, d: PlanStrategy.Decision)
    requires d.Play?
    ensures var r := DetailsOf(game, p, d);
      && r.tiles.Some?
      && r.tilesPlayed == |r.tiles.value| <= |Flatten(d.tableSets)|
      && forall f :: f in r.tiles.value <==>
           exists u <- Flatten(d.tableSets) :: u.id in IdSet(p.tiles) && u.id !in IdSet(Flatten(game.tableSets)) && ChatStore.FaceOf(u) == f
  {
    PlayedFacesSpec(Flatten(d.tableSets), IdSet(p.tiles), IdSet(Flatten(game.tableSets)));
  }

  // ---------------------------------------------------------------------------
  // No tile appears or disappears
  // ---------------------------------------------------------------------------

  /** The ids of every tile of the game: hands, table and pool. */
  function GameIds(game: Game): multiset<int> {
    IdBag(HandTiles(game.players)) + IdBag(Flatten(game.tableSets)) + IdBag(game.tilePool)
  }

  lemma {:induction false} HandIdsConcat(a: seq<Player>, b: seq<Player>)
    ensures IdBag(HandTiles(a + b)) == IdBag(HandTiles(a)) + IdBag(HandTiles(b))
  {
    HandTilesConcat(a, b);
    IdBagConcat(HandTiles(a), HandTiles(b));
  }

  /** Giving seat `i` new tiles trades its old tiles' ids for the new ones. */
  lemma HandIdsReplace(players: seq<Player>, i: nat, tiles: seq<Tile>)
    requires i < |players|
    ensures IdBag(HandTiles(players[i := players[i].(tiles := tiles)])) + IdBag(players[i].tiles)
         == IdBag(HandTiles(players)) + IdBag(tiles)
  {
    var q := players[i := players[i].(tiles := tiles)];
    var pre, post := players[..i], players[i + 1..];
    assert players == pre + [players[i]] + post;
    assert q == pre + [q[i]] + post;
    HandIdsConcat(pre + [players[i]], post);
    HandIdsConcat(pre, [players[i]]);
    HandIdsConcat(pre + [q[i]], post);
    HandIdsConcat(pre, [q[i]]);
    assert HandTiles([players[i]]) == players[i].tiles by { assert [players[i]][..0] == []; }
    assert HandTiles([q[i]]) == tiles by { assert [q[i]][..0] == []; }
  }

  /** Changing anything but the tiles of the seats leaves the hands as they were. */
  lemma {:induction false} HandTilesSame(a: seq<Player>, b: seq<Player>)
    requires |a| == |b| && forall j :: 0 <= j < |a| ==> a[j].tiles == b[j].tiles
    ensures HandTiles(a) == HandTiles(b)
  {
    if a != [] {
      HandTilesSame(a[..|a| - 1], b[..|b| - 1]);
    }
  }

  /** Two trades that cancel: what the hand gave the table gained, and the other way round. */
  lemma Swap(hands: multiset<int>, hands2: multiset<int>, table: multiset<int>, table2: multiset<int>,
             old_: multiset<int>, new_: multiset<int>)
    requires hands2 + old_ == hands + new_
    requires table + old_ == table2 + new_
    ensures hands2 + table2 == hands + table
  {
    forall x ensures (hands2 + table2)[x] == (hands + table)[x] {
      assert (hands2 + old_)[x] == (hands + new_)[x];
      assert (table + old_)[x] == (table2 + new_)[x];
    }
  }

  /** Seat `k` gets the decision's hand and the table becomes the decision's table. */
  function Stored(game: Game, k: nat, d: PlanStrategy.Decision): Game
    requires k < |game.players| && d.Play?
  {
    game.(tableSets := d.tableSets, players := game.players[k := game.players[k].(tiles := d.playerTiles)])
  }

  lemma StoredConserves(game: Game, k: nat, d: PlanStrategy.Decision)
    requires k < |game.players| && d.Play?
    requires HardStrategy.AllIds(game.tableSets, game.players[k].tiles) == HardStrategy.AllIds(d.tableSets, d.playerTiles)
    ensures GameIds(Stored(game, k, d)) == GameIds(game)
  {
    var s := Stored(game, k, d);
    HandIdsReplace(game.players, k, d.playerTiles);
    Swap(IdBag(HandTiles(game.players)), IdBag(HandTiles(s.players)),
         IdBag(Flatten(game.tableSets)), IdBag(Flatten(d.tableSets)),
         IdBag(game.players[k].tiles), IdBag(d.playerTiles));
  }

  /** Marking the initial meld moves no tile. */
  lemma MeldFlagConserves(game: Game, socketId: string)
    ensures GameIds(SetPlayerInitialMeld(game, socketId)) == GameIds(game)
  {
    HandTilesSame(SetPlayerInitialMeld(game, socketId).players, game.players);
  }

  /** A play that keeps the ids of table and hand keeps the ids of the game. */
  lemma ApplyPlayConserves(game: Game, p: Player, d: PlanStrategy.Decision)
    requires d.Play? && p in game.players
    requires p == game.players[FindPlayer(game.players, p.socketId)]
    requires HardStrategy.AllIds(game.tableSets, p.tiles) == HardStrategy.AllIds(d.tableSets, d.playerTiles)
    ensures GameIds(ApplyPlay(game, p, d)) == GameIds(game)
  {
    var k := FindPlayer(game.players, p.socketId);
    var g := game.(tableSets := d.tableSets);
    assert UpdatePlayerTiles(g, p.socketId, d.playerTiles) == Some(Stored(game, k, d));
    StoredConserves(game, k, d);
    MeldFlagConserves(Stored(game, k, d), p.socketId);
  }

  lemma DrawConserves(game: Game, socketId: string)
    requires DrawTile(game, socketId).Some?
    ensures GameIds(DrawTile(game, socketId).value.game) == GameIds(game)
  {
    var drawn := DrawTile(game, socketId).value;
    var k := FindPlayer(game.players, socketId);
    DrawnIds(game, k, drawn.tile, drawn.game);
  }

  /** Moving the last pool tile into seat `k`'s hand keeps the game's ids. */
  lemma DrawnIds(game: Game, k: nat, tile: Tile, after: Game)
    requires k < |game.players|
    requires after.players == game.players[k := game.players[k].(tiles := game.players[k].tiles + [tile])]
    requires after.tilePool + [tile] == game.tilePool && after.tableSets == game.tableSets
    ensures GameIds(after) == GameIds(game)
  {
    var hand := game.players[k].tiles;
    var h, h2 := IdBag(HandTiles(game.players)), IdBag(HandTiles(after.players));
    var p, p2 := IdBag(game.tilePool), IdBag(after.tilePool);
    HandIdsReplace(game.players, k, hand + [tile]);
    IdBagConcat(hand, [tile]);
    IdBagConcat(after.tilePool, [tile]);
    assert h2 + IdBag(hand) == h + IdBag(hand) + IdBag([tile]);
    assert p == p2 + IdBag([tile]);
    Swap(h, h2, p, p2, IdBag(hand), IdBag(hand + [tile]));
    Regroup(h, h2, IdBag(Flatten(game.tableSets)), p, p2);
  }

  lemma Regroup(h: multiset<int>, h2: multiset<int>, t: multiset<int>, p: multiset<int>, p2: multiset<int>)
    requires h2 + p2 == h + p
    ensures h2 + t + p2 == h + t + p
  {
    assert h2 + t + p2 == (h2 + p2) + t;
    assert h + t + p == (h + p) + t;
  }

  /** The ids outside the table and seat `i`'s hand. */
  function AllIdsBut(game: Game, i: nat): multiset<int>
    requires i < |game.players|
  {
    IdBag(HandTiles(game.players[i := game.players[i].(tiles := [])])) + IdBag(game.tilePool)
  }

  /** The bot's hand and the table are part of the game's ids. */
  lemma PartOfGame(game: Game, i: nat)
    requires i < |game.players|
    ensures GameIds(game) == AllIdsBut(game, i) + HardStrategy.AllIds(game.tableSets, game.players[i].tiles)
  {
    HandIdsReplace(game.players, i, []);
    assert IdBag([]) == multiset{};
  }

  /**
   * What every corrected strategy keeps when ids are unique: the ids of the table and the
   * bot's hand.
   */
  lemma DecideConserves(k: Difficulty, st: PlanStrategy.BotState)
    requires HardStrategy.Unique(HardStrategy.AllIds(st.tableSets, st.playerTiles))
    ensures var d := Decide(k, st, HardStrategy.Corrected);
      d.Play? ==> HardStrategy.AllIds(st.tableSets, st.playerTiles) == HardStrategy.AllIds(d.tableSets, d.playerTiles)
  {
    match k {
      case EasyBot => PlanStrategy.PlanConserves(Candidates.Easy, st);
      case MediumBot => PlanStrategy.PlanConserves(Candidates.Medium, st);
      case HardBot => HardStrategy.HardPlayConserves(st);
    }
  }

  /**
   * A bot's turn with the corrected strategies never creates or loses a tile: on a game whose
   * tile ids are all different, and whose current seat is the first with its socket, the ids
   * of hands, table and pool together are the same after the turn.
   */
  lemma BotTurnConserves(game: Game)
    requires HasCurrent(game)
    requires FindPlayer(game.players, game.players[game.currentPlayerIndex].socketId) == game.currentPlayerIndex
    requires HardStrategy.Unique(GameIds(game))
    ensures GameIds(BotTurn(game, HardStrategy.Corrected).game) == GameIds(game)
  {
    var i := game.currentPlayerIndex;
    var p := game.players[i];
    if p.isBot {
      var st := StateOf(game, p);
      var d := DecisionOf(game, HardStrategy.Corrected);
      assert p in game.players;
      if d.Play? {
        PartOfGame(game, i);
        HardStrategy.UniquePart(AllIdsBut(game, i), HardStrategy.AllIds(game.tableSets, p.tiles));
        DecideConserves(StrategyFor(p.botDifficulty), st);
        ApplyPlayConserves(game, p, d);
      } else if DrawTile(game, p.socketId).Some? {
        DrawConserves(game, p.socketId);
      }
    }
  }
}
