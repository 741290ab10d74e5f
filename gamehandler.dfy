/**
 * The turn logic of the game handler (server/handlers/gameHandler.js) with the socket
 * transport removed: ending a turn, drawing, the stalemate count, timeouts, kicking a player,
 * replacing one with a bot, and the pause on disconnect.
 */
module GameHandler {
  import opened Tiles
  import opened Optional
  import opened Ordering
  import opened RulePresets
  import opened Rules
  import opened LobbyStore
  import opened GameStore
  import opened Text

  // ---------------------------------------------------------------------------
  // What a client submits
  // ---------------------------------------------------------------------------

  /**
   * One entry of the submitted table. `Malformed` is a value that is not an array but not
   * `null` either (an object, a number, a string): flattening keeps it as one element whose
   * `id` is `undefined`.
   */
  datatype SetShape = Malformed | TileSet(tiles: seq<Tile>)

  /** The submitted table; `NotAnArray` stands for a missing (`null`/`undefined`) table. */
  datatype TableShape = NotAnArray | Sets(sets: seq<SetShape>)

  /** The id `undefined` of a malformed entry; real tile ids are never negative. */
  const UndefinedId: int := -1

  datatype EndTurnReply =
    | Accepted(gameEnded: bool)
    | Refused(error: string, reverted: Option<bool>, invalidSets: seq<InvalidSet>)

  const NotInGameError := "Not in a game"
  const GameNotFoundError := "Game not found"
  const NotYourTurnError := "Not your turn"
  const JokerTakenError :=
    "Jokers on the table cannot be taken back to your hand. You can only move them between sets on the table."
  const MustPlayOrDrawError := "You must play tiles or draw from the pool"
  const TableNotArrayError := "Invalid table state: expected array of sets"
  const SetNotArrayError := "Invalid table state: each set must be an array"
  const DuplicateTilesError := "Invalid state: duplicate tiles detected"
  const CannotDrawError := "Cannot draw after placing tiles. Complete your play or revert changes."
  const CouldNotDrawError := "Could not draw tile"

  function InvalidTableMessage(invalidCount: nat): string {
    "Invalid table state: "
    + (if invalidCount > 0
       then NatToString(invalidCount) + " invalid sets (need 3+ tiles in valid runs or groups)"
       else "unknown error")
  }

  function MeldTooLowMessage(required: int, points: int): string {
    "Initial meld must be at least " + IntToString(required) + " points (you have "
    + IntToString(points) + "). Draw a tile to continue."
  }

  // ---------------------------------------------------------------------------
  // Tile ids
  // ---------------------------------------------------------------------------

  /** `new Set((table || []).flat().map(t => t.id))` for a submitted table. */
  function ShapeIds(table: TableShape): set<int> {
    match table
    case NotAnArray => {}
    case Sets(sets) => SetsIds(sets)
  }

  function SetsIds(sets: seq<SetShape>): set<int> {
    if sets == [] then {}
    else
      (match sets[0] case Malformed => {UndefinedId} case TileSet(ts) => IdSet(ts))
      + SetsIds(sets[1..])
  }

  /**
   * The source's three-part test of a modified table (different sizes, or an id missing on
   * either side) holds exactly when the two id sets differ.
   */
  predicate TableIdsDiffer(startIds: set<int>, endIds: set<int>) {
    |startIds| != |endIds|
    || (exists id :: id in startIds && id !in endIds)
    || (exists id :: id in endIds && id !in startIds)
  }

  lemma TableIdsDifferIff(startIds: set<int>, endIds: set<int>)
    ensures TableIdsDiffer(startIds, endIds) <==> startIds != endIds
  {
    if !TableIdsDiffer(startIds, endIds) {
      forall id | id in startIds ensures id in endIds {}
      forall id | id in endIds ensures id in startIds {}
      assert startIds <= endIds && endIds <= startIds;
    }
  }

  // ---------------------------------------------------------------------------
  // The checks of processEndTurn
  // ---------------------------------------------------------------------------

  /** The hand holds a joker that was not in the hand at turn start but was on the table. */
  predicate TakesTableJoker(snap: Snapshot, hand: seq<Tile>) {
    exists j <- hand :: j.Joker?
      && (forall s <- snap.playerTiles :: !(s.Joker? && s.id == j.id))
      && (exists t <- Flatten(snap.tableSets) :: t.Joker? && t.id == j.id)
  }

  /** hasMadeChanges: the hand shrank or the set of table tile ids changed. */
  predicate MadeChanges(snap: Snapshot, table: TableShape, hand: seq<Tile>) {
    |hand| < |snap.playerTiles| || TableIdsDiffer(IdSet(Flatten(snap.tableSets)), ShapeIds(table))
  }

  function TileSets(sets: seq<SetShape>): (r: seq<seq<Tile>>)
    requires forall s <- sets :: s.TileSet?
    ensures |r| == |sets|
    ensures forall i :: 0 <= i < |sets| ==> r[i] == sets[i].tiles
  {
    if sets == [] then [] else [sets[0].tiles] + TileSets(sets[1..])
  }

  /** The ids the duplicate scan reports: every id already seen earlier in `ids` (or in `seen`). */
  function Duplicates(ids: seq<int>, seen: set<int>): seq<int> {
    if ids == [] then []
    else (if ids[0] in seen then [ids[0]] else []) + Duplicates(ids[1..], seen + {ids[0]})
  }

  /** The ids of the hand followed by the ids of the table, the order the scan visits them. */
  function ScanOrder(hand: seq<Tile>, sets: seq<seq<Tile>>): seq<int> {
    IdsOf(hand) + IdsOf(Flatten(sets))
  }

  lemma DuplicatesCons(x: int, rest: seq<int>, seen: set<int>)
    ensures Duplicates([x] + rest, seen) == (if x in seen then [x] else []) + Duplicates(rest, seen + {x})
  {
    assert ([x] + rest)[1..] == rest;
  }

  /** The scan reports nothing exactly when no id occurs twice (and none was seen before). */
  lemma {:induction false} DuplicatesEmptyIff(ids: seq<int>, seen: set<int>)
    ensures Duplicates(ids, seen) == [] <==> Distinct(ids) && forall x <- ids :: x !in seen
  {
    if ids != [] {
      var rest := ids[1..];
      assert ids == [ids[0]] + rest;
      DuplicatesEmptyIff(rest, seen + {ids[0]});
      var head := if ids[0] in seen then [ids[0]] else [];
      assert Duplicates(ids, seen) == head + Duplicates(rest, seen + {ids[0]});
      if Duplicates(ids, seen) == [] {
        assert |head| == 0 && Duplicates(rest, seen + {ids[0]}) == [];
        assert ids[0] !in seen;
        assert forall x <- rest :: x !in seen && x != ids[0];
        forall x <- ids ensures x !in seen {
          if x != ids[0] {
            assert x in rest;
          }
        }
        forall i, j | 0 <= i < j < |ids| ensures ids[i] != ids[j] {
          if i == 0 {
            assert ids[j] == rest[j - 1];
          } else {
            assert ids[i] == rest[i - 1] && ids[j] == rest[j - 1];
          }
        }
      }
      if Distinct(ids) && forall x <- ids :: x !in seen {
        assert Distinct(rest) by {
          forall i, j | 0 <= i < j < |rest| ensures rest[i] != rest[j] {
            assert rest[i] == ids[i + 1] && rest[j] == ids[j + 1];
          }
        }
        assert ids[0] !in rest;
        forall x <- rest ensures x !in seen + {ids[0]} {
          assert x in ids;
        }
        assert |head| == 0;
      }
    }
  }

  /** `newTableSets.filter(set => set.some(tile => !originalTableTileIds.has(tile.id)))` */
  function NewSets(sets: seq<seq<Tile>>, originalIds: set<int>): (r: seq<seq<Tile>>)
    ensures forall s <- r :: s in sets && exists t <- s :: t.id as int !in originalIds
    ensures forall s <- sets :: (exists t <- s :: t.id as int !in originalIds) ==> s in r
  {
    if sets == [] then []
    else
      (if exists t <- sets[0] :: t.id as int !in originalIds then [sets[0]] else [])
      + NewSets(sets[1..], originalIds)
  }

  /** The outcome of the checks, before anything is applied. */
  datatype Verdict =
    | Reject(error: string, reportedReverted: bool, revert: bool, invalidSets: seq<InvalidSet>)
    | Accept(sets: seq<seq<Tile>>, melds: bool)

  /**
   * The checks of processEndTurn, in the source's order: joker custody, the no-null-turn
   * rule, the table's shape, each set's shape, duplicate ids, set legality, the initial meld.
   */
  function EndTurnVerdict(game: Game, table: TableShape, hand: seq<Tile>): Verdict
    requires HasCurrent(game) && game.turnStartState.Some?
  {
    var snap := game.turnStartState.value;
    var current := game.players[game.currentPlayerIndex];
    if TakesTableJoker(snap, hand) then Reject(JokerTakenError, true, true, [])
    else if !MadeChanges(snap, table, hand) && |game.tilePool| > 0 then Reject(MustPlayOrDrawError, false, false, [])
    else if table.NotAnArray? then Reject(TableNotArrayError, true, false, [])
    else if exists s <- table.sets :: s.Malformed? then Reject(SetNotArrayError, true, true, [])
    else
      var sets := TileSets(table.sets);
      if Duplicates(ScanOrder(hand, sets), {}) != [] then Reject(DuplicateTilesError, true, true, [])
      else if InvalidSets(sets) != [] then
        Reject(InvalidTableMessage(|InvalidSets(sets)|), true, true, InvalidSets(sets))
      else
        var newSets := NewSets(sets, IdSet(Flatten(snap.tableSets)));
        if !current.hasPlayedInitialMeld && |newSets| > 0 then
          var meld := ValidateInitialMeld(newSets, game.rules);
          if !meld.valid then Reject(MeldTooLowMessage(game.rules.initialMeldPoints, meld.points), true, true, [])
          else Accept(sets, true)
        else Accept(sets, false)
  }

  // ---------------------------------------------------------------------------
  // Turn advance and the stalemate count
  // ---------------------------------------------------------------------------

  /** `game.players.reduce((sum, p) => sum + p.tiles.length, 0)` */
  function HandSizeSum(players: seq<Player>): nat {
    if players == [] then 0 else |players[0].tiles| + HandSizeSum(players[1..])
  }

  /** The seat the stalemate `reduce` keeps: it switches only on a strictly smaller hand. */
  function FewestTiles(players: seq<Player>): (i: nat)
    requires |players| > 0
    ensures i < |players|
    ensures forall j :: 0 <= j < |players| ==> |players[i].tiles| <= |players[j].tiles|
    ensures forall j :: 0 <= j < i ==> |players[j].tiles| > |players[i].tiles|
  {
    if |players| == 1 then 0
    else
      var k := FewestTiles(players[..|players| - 1]);
      if |players[|players| - 1].tiles| < |players[k].tiles| then |players| - 1 else k
  }

  /** endGame: the winner is recorded and the game finishes (scores are computed for the clients only). */
  function EndGame(game: Game, winnerSocketId: Option<string>, now: int): Game {
    match winnerSocketId
    case None => game
    case Some(id) => SetGameWinner(game, id, now)
  }

  /** Ending a game moves no tile; it finishes with the given winner when that winner is seated. */
  lemma EndGameSpec(game: Game, winnerSocketId: Option<string>, now: int)
    ensures var r := EndGame(game, winnerSocketId, now);
      && r.players == game.players && r.tableSets == game.tableSets && r.tilePool == game.tilePool
      && (winnerSocketId.None? ==> r == game)
      && (winnerSocketId.Some? && FindPlayer(game.players, winnerSocketId.value) != -1 ==>
            r.state == Finished && r.winner.Some? && r.winner.value.socketId == winnerSocketId.value)
  {
  }

  /**
   * advanceToNextTurn. With an empty pool the hand sizes are summed: the first time the sum is
   * only recorded; an unchanged sum counts one more idle turn, and once the idle turns reach
   * the number of players the game ends with the first player holding fewest tiles as winner;
   * a changed sum restarts the count. Otherwise the turn passes on.
   */
  function AdvanceToNextTurn(game: Game, now: int): (r: Game)
    requires |game.players| > 0
    ensures r.players == game.players && r.tableSets == game.tableSets && r.tilePool == game.tilePool
    ensures r.state == game.state || r.state == Finished
  {
    if |game.tilePool| == 0 then
      var sum := HandSizeSum(game.players);
      if game.lastRoundTileSum == 0 then
        AdvanceTurn(game.(lastRoundTileSum := sum, stalemateTurnCount := 0), now)
      else if sum == game.lastRoundTileSum then
        var g := game.(stalemateTurnCount := game.stalemateTurnCount + 1);
        if g.stalemateTurnCount >= |g.players| then
          EndGame(g, Some(g.players[FewestTiles(g.players)].socketId), now)
        else AdvanceTurn(g, now)
      else AdvanceTurn(game.(lastRoundTileSum := sum, stalemateTurnCount := 0), now)
    else AdvanceTurn(game, now)
  }

  /** A game nobody plays in: the pool is empty and the turns only pass. */
  function IdleTurns(game: Game, k: nat, now: int): Game
    requires |game.players| > 0
  {
    if k == 0 then game
    else
      var g := IdleTurns(game, k - 1, now);
      if g.state == Finished then g else AdvanceToNextTurn(g, now)
  }

  /** One idle turn once the tile sum is recorded: the count goes up, and at a full round the game ends. */
  lemma StalemateStep(game: Game, now: int)
    requires |game.players| > 0 && |game.tilePool| == 0
    requires game.lastRoundTileSum == HandSizeSum(game.players) > 0 && game.stalemateTurnCount >= 0
    ensures var g := AdvanceToNextTurn(game, now);
      var w := FewestTiles(game.players);
      g.players == game.players && g.tilePool == game.tilePool
      && (game.stalemateTurnCount + 1 < |game.players| ==>
            g.state == game.state && g.stalemateTurnCount == game.stalemateTurnCount + 1
            && g.lastRoundTileSum == game.lastRoundTileSum)
      && (game.stalemateTurnCount + 1 >= |game.players| ==>
            g.state == Finished && g.winner.Some? && g.winner.value.socketId == game.players[w].socketId)
  {
    var w := FewestTiles(game.players);
    assert FindPlayer(game.players, game.players[w].socketId) != -1 by { assert game.players[w] in game.players; }
  }

  /**
   * The stalemate rule: once the tile sum is recorded with an empty pool and nobody plays,
   * the game keeps running for players.length - 1 more turns and finishes on the next,
   * won by the first player holding the fewest tiles.
   */
  lemma {:induction false} StalemateAfterRound(game: Game, k: nat, now: int)
    requires |game.players| > 0 && |game.tilePool| == 0 && game.state != Finished
    requires game.lastRoundTileSum == HandSizeSum(game.players) > 0 && game.stalemateTurnCount == 0
    requires k <= |game.players|
    ensures var g := IdleTurns(game, k, now);
      g.players == game.players && g.tilePool == game.tilePool
      && (k < |game.players| ==> g.state == game.state && g.stalemateTurnCount == k
                                 && g.lastRoundTileSum == game.lastRoundTileSum)
      && (k == |game.players| ==>
            g.state == Finished && g.winner.Some?
            && g.winner.value.socketId == game.players[FewestTiles(game.players)].socketId)
  {
    if k > 0 {
      StalemateAfterRound(game, k - 1, now);
      var g := IdleTurns(game, k - 1, now);
      StalemateStep(g, now);
    }
  }

  /** With tiles left in the pool the stalemate fields are left alone and the turn passes. */
  lemma AdvanceWithPool(game: Game, now: int)
    requires |game.players| > 0 && |game.tilePool| > 0
    ensures AdvanceToNextTurn(game, now) == AdvanceTurn(game, now)
  {
  }

  /** A change in the tile sum restarts the count. */
  lemma StalemateResets(game: Game, now: int)
    requires |game.players| > 0 && |game.tilePool| == 0
    requires game.lastRoundTileSum != HandSizeSum(game.players)
    ensures var g := AdvanceToNextTurn(game, now);
      g.stalemateTurnCount == 0 && g.lastRoundTileSum == HandSizeSum(game.players) && g.state == game.state
  {
  }

  // ---------------------------------------------------------------------------
  // Applying the end of a turn
  // ---------------------------------------------------------------------------

  datatype EndTurnOutcome = EndTurnOutcome(reply: EndTurnReply, game: Game)

  function RevertedGame(game: Game): Game
    requires HasCurrent(game) && game.turnStartState.Some?
  {
    RevertToTurnStart(game).value
  }

  /** The accepted play: table and hand committed, then the win check or the next turn. */
  function CommitTurn(game: Game, socketId: string, sets: seq<seq<Tile>>, hand: seq<Tile>, now: int): EndTurnOutcome
    requires FindPlayer(game.players, socketId) != -1
  {
    var g := UpdatePlayerTiles(game.(tableSets := sets), socketId, hand).value;
    if HasPlayerWon(hand) then EndTurnOutcome(Accepted(true), EndGame(g, Some(socketId), now))
    else EndTurnOutcome(Accepted(false), AdvanceToNextTurn(g, now))
  }

  /** processEndTurn: the verdict, applied. */
  function EndTurn(game: Game, table: TableShape, hand: seq<Tile>, now: int): EndTurnOutcome
    requires HasCurrent(game) && game.turnStartState.Some?
  {
    match EndTurnVerdict(game, table, hand)
    case Reject(error, reported, revert, invalid) =>
      EndTurnOutcome(Refused(error, Some(reported), invalid), if revert then RevertedGame(game) else game)
    case Accept(sets, melds) =>
      var current := game.players[game.currentPlayerIndex];
      var g := if melds then SetPlayerInitialMeld(game, current.socketId) else game;
      assert FindPlayer(g.players, current.socketId) != -1 by {
        assert current in game.players;
        FindPlayerSameSeats(g.players, game.players, current.socketId);
      }
      CommitTurn(g, current.socketId, sets, hand, now)
  }

  /** Taking a joker that lay on the table into the hand is refused and the turn rolled back. */
  lemma JokerCustody(game: Game, table: TableShape, hand: seq<Tile>, now: int)
    requires HasCurrent(game) && game.turnStartState.Some?
    requires TakesTableJoker(game.turnStartState.value, hand)
    ensures EndTurn(game, table, hand, now) == EndTurnOutcome(Refused(JokerTakenError, Some(true), []), RevertedGame(game))
  {
  }

  /** Ending a turn without any change while the pool has tiles is refused, and nothing is rolled back. */
  lemma NoNullTurn(game: Game, table: TableShape, hand: seq<Tile>, now: int)
    requires HasCurrent(game) && game.turnStartState.Some?
    requires !TakesTableJoker(game.turnStartState.value, hand)
    requires |hand| >= |game.turnStartState.value.playerTiles|
    requires ShapeIds(table) == IdSet(Flatten(game.turnStartState.value.tableSets))
    requires |game.tilePool| > 0
    ensures EndTurn(game, table, hand, now) == EndTurnOutcome(Refused(MustPlayOrDrawError, Some(false), []), game)
  {
    TableIdsDifferIff(IdSet(Flatten(game.turnStartState.value.tableSets)), ShapeIds(table));
  }

  /**
   * Every refusal either leaves the game as it was or rolls it back to the turn start; a
   * missing table is refused without a roll back although the reply says `reverted`.
   */
  lemma RefusalsRollBack(game: Game, table: TableShape, hand: seq<Tile>, now: int)
    requires HasCurrent(game) && game.turnStartState.Some?
    ensures var o := EndTurn(game, table, hand, now);
      o.reply.Refused? ==> o.game == game || o.game == RevertedGame(game)
    ensures table.NotAnArray? && !TakesTableJoker(game.turnStartState.value, hand)
            && EndTurn(game, table, hand, now).reply.Refused?
            && EndTurn(game, table, hand, now).reply.error == TableNotArrayError
            ==> EndTurn(game, table, hand, now).game == game
  {
  }

  /** The "unknown error" text of an invalid table can never be produced. */
  lemma InvalidTableAlwaysCounted(game: Game, table: TableShape, hand: seq<Tile>)
    requires HasCurrent(game) && game.turnStartState.Some?
    ensures var v := EndTurnVerdict(game, table, hand);
      v.Reject? && v.invalidSets != [] ==>
        v.error == InvalidTableMessage(|v.invalidSets|) && |v.invalidSets| > 0
  {
  }

  /**
   * An accepted end of turn leaves only legal sets on the table, no tile id twice across hand
   * and table, the submitted table and hand committed, and, for a player who had not melded
   * yet and put down new sets, at least the required meld points in those sets.
   */
  lemma AcceptedTurnIsLegal(game: Game, table: TableShape, hand: seq<Tile>)
    requires HasCurrent(game) && game.turnStartState.Some?
    requires EndTurnVerdict(game, table, hand).Accept?
    ensures var v := EndTurnVerdict(game, table, hand);
      table.Sets? && (forall s <- table.sets :: s.TileSet?)
      && v.sets == TileSets(table.sets)
      && (forall i :: 0 <= i < |v.sets| ==> IsValidSet(v.sets[i]).valid)
      && Distinct(ScanOrder(hand, v.sets))
      && !TakesTableJoker(game.turnStartState.value, hand)
      && (v.melds <==> !game.players[game.currentPlayerIndex].hasPlayedInitialMeld
                       && NewSets(v.sets, IdSet(Flatten(game.turnStartState.value.tableSets))) != [])
      && (v.melds ==> InitialMeldPoints(NewSets(v.sets, IdSet(Flatten(game.turnStartState.value.tableSets))))
                        >= game.rules.initialMeldPoints)
  {
    var v := EndTurnVerdict(game, table, hand);
    TableValidIff(v.sets);
    DuplicatesEmptyIff(ScanOrder(hand, v.sets), {});
  }

  /** Committing puts the table and the hand in place; an empty hand wins the game for that seat. */
  lemma CommitTurnSpec(game: Game, socketId: string, sets: seq<seq<Tile>>, hand: seq<Tile>, now: int)
    requires FindPlayer(game.players, socketId) != -1
    ensures var o := CommitTurn(game, socketId, sets, hand, now);
      var i := FindPlayer(game.players, socketId);
      o.reply.Accepted?
      && |o.game.players| == |game.players| && o.game.players[i].tiles == hand
      && (forall j :: 0 <= j < |game.players| && j != i ==> o.game.players[j] == game.players[j])
      && o.game.tableSets == sets
      && (o.reply.gameEnded <==> hand == [])
      && (hand == [] ==> o.game.state == Finished && o.game.winner == Some(Winner(socketId, game.players[i].username)))
  {
    var i := FindPlayer(game.players, socketId);
    var g := UpdatePlayerTiles(game.(tableSets := sets), socketId, hand).value;
    assert SameSeats(g.players, game.players);
    FindPlayerSameSeats(g.players, game.players, socketId);
  }

  /** After an accepted turn the submitted table and hand are in place; an empty hand wins. */
  lemma AcceptedTurnCommits(game: Game, table: TableShape, hand: seq<Tile>, now: int)
    requires HasCurrent(game) && game.turnStartState.Some?
    requires EndTurnVerdict(game, table, hand).Accept?
    requires forall j :: 0 <= j < |game.players| && j != game.currentPlayerIndex ==>
               game.players[j].socketId != game.players[game.currentPlayerIndex].socketId
    ensures var o := EndTurn(game, table, hand, now);
      var i := game.currentPlayerIndex;
      o.reply.Accepted?
      && o.game.players[i].tiles == hand
      && o.game.tableSets == EndTurnVerdict(game, table, hand).sets
      && (o.reply.gameEnded <==> hand == [])
      && (hand == [] ==> o.game.state == Finished
                         && o.game.winner == Some(Winner(game.players[i].socketId, game.players[i].username)))
  {
    var i := game.currentPlayerIndex;
    var current := game.players[i];
    assert FindPlayer(game.players, current.socketId) == i;
    var v := EndTurnVerdict(game, table, hand);
    var g := if v.melds then SetPlayerInitialMeld(game, current.socketId) else game;
    FindPlayerSameSeats(g.players, game.players, current.socketId);
    assert g.players[i].username == current.username;
    CommitTurnSpec(g, current.socketId, v.sets, hand, now);
  }

  // ---------------------------------------------------------------------------
  // Drawing and timeouts
  // ---------------------------------------------------------------------------

  datatype DrawReply = Drew(tile: Tile) | Passed | DrawRefused(error: string)

  datatype DrawOutcome = DrawOutcome(reply: DrawReply, game: Game)

  /**
   * The draw-tile handler for the current player's socket: an empty pool is a pass; a hand
   * smaller than at turn start is refused; otherwise one tile is drawn and the turn passes.
   */
  function DrawTurn(game: Game, socketId: string, now: int): DrawOutcome
    requires HasCurrent(game)
  {
    var current := game.players[game.currentPlayerIndex];
    if current.socketId != socketId then DrawOutcome(DrawRefused(NotYourTurnError), game)
    else if |game.tilePool| == 0 then DrawOutcome(Passed, AdvanceToNextTurn(game, now))
    else if game.turnStartState.Some? && |current.tiles| < |game.turnStartState.value.playerTiles| then
      DrawOutcome(DrawRefused(CannotDrawError), game)
    else
      match DrawTile(game, socketId)
      case None => DrawOutcome(DrawRefused(CouldNotDrawError), game)
      case Some(d) => DrawOutcome(Drew(d.tile), AdvanceToNextTurn(d.game, now))
  }

  /**
   * Only the current player may draw; a successful draw takes the last pool tile into the
   * drawing seat, and "Could not draw tile" never happens.
   */
  lemma DrawTurnSpec(game: Game, socketId: string, now: int)
    requires HasCurrent(game)
    ensures var o := DrawTurn(game, socketId, now);
      var current := game.players[game.currentPlayerIndex];
      (socketId != current.socketId ==> o == DrawOutcome(DrawRefused(NotYourTurnError), game))
      && o.reply != DrawRefused(CouldNotDrawError)
      && (o.reply.Passed? <==> socketId == current.socketId && |game.tilePool| == 0)
      && (o.reply.Drew? ==> o.reply.tile == game.tilePool[|game.tilePool| - 1]
                            && DrawTile(game, socketId).Some?
                            && o.game == AdvanceToNextTurn(DrawTile(game, socketId).value.game, now))
  {
    var current := game.players[game.currentPlayerIndex];
    if socketId == current.socketId {
      assert current in game.players;
    }
  }

  /**
   * handleTurnTimeout: the turn is rolled back, then the current player draws if the pool
   * has tiles (or passes), and the turn passes on.
   */
  function TurnTimeout(game: Game, now: int): Game
    requires HasCurrent(game)
  {
    var g := match RevertToTurnStart(game) case None => game case Some(r) => r;
    var current := g.players[g.currentPlayerIndex];
    var drawn := if |g.tilePool| > 0 then DrawTile(g, current.socketId) else None;
    match drawn
    case None => AdvanceToNextTurn(g, now)
    case Some(d) => AdvanceToNextTurn(d.game, now)
  }

  /** A timeout with tiles in the pool gives the timed-out player exactly one more tile than at turn start. */
  lemma TimeoutDrawsOne(game: Game, now: int)
    requires HasCurrent(game) && game.turnStartState.Some? && |game.turnStartState.value.tilePool| > 0
    requires forall j :: 0 <= j < |game.players| && j != game.currentPlayerIndex ==>
               game.players[j].socketId != game.players[game.currentPlayerIndex].socketId
    ensures var i := game.currentPlayerIndex;
      var s := game.turnStartState.value;
      var r := TurnTimeout(game, now);
      r.players[i].tiles == s.playerTiles + [s.tilePool[|s.tilePool| - 1]]
  {
    var i := game.currentPlayerIndex;
    var g := RevertToTurnStart(game).value;
    var current := g.players[i];
    assert FindPlayer(g.players, current.socketId) == i;
    var d := DrawTile(g, current.socketId).value;
    assert d.game.players[i].tiles == game.turnStartState.value.playerTiles + [d.tile];
    var r := AdvanceToNextTurn(d.game, now);
    if r.state == Finished && |d.game.tilePool| == 0 {
      assert r.players == d.game.players;
    }
  }

  // ---------------------------------------------------------------------------
  // Kicking a player (Finding: the turn index after a kick)
  // ---------------------------------------------------------------------------

  /** The turn index after the kick, as written: any kick at or before the turn takes it modulo. */
  function KickedIndexAsWritten(current: nat, kicked: nat, remaining: nat): nat
    requires remaining > 0
  {
    if current >= kicked then current % remaining else current
  }

  /** The turn index the kick evidently intends: the same player keeps the turn, or the next one gets it. */
  function KickedIndex(current: nat, kicked: nat, remaining: nat): nat
    requires remaining > 0
  {
    if kicked < current then current - 1
    else if kicked == current then current % remaining
    else current
  }

  /**
   * The kick branch of handle-disconnected-player: the seat leaves; with fewer than two
   * players left the game ends with the first remaining one (if any) as winner, otherwise the
   * turn index is adjusted by `adjust`.
   */
  function KickWith(game: Game, socketId: string, now: int, asWritten: bool): Game {
    var i := FindPlayer(game.players, socketId);
    if i == -1 then game
    else
      var g := game.(players := Splice(game.players, i));
      if |g.players| < 2 then
        EndGame(g, if |g.players| > 0 then Some(g.players[0].socketId) else None, now)
      else
        var idx := if asWritten then KickedIndexAsWritten(game.currentPlayerIndex, i, |g.players|)
                   else KickedIndex(game.currentPlayerIndex, i, |g.players|);
        g.(currentPlayerIndex := idx)
  }

  function KickPlayerAsWritten(game: Game, socketId: string, now: int): Game {
    KickWith(game, socketId, now, true)
  }

  function KickPlayer(game: Game, socketId: string, now: int): Game {
    KickWith(game, socketId, now, false)
  }

  /**
   * As written, kicking a player seated before the current one hands the turn to someone
   * else: with A, B, C seated and C to play, kicking A gives the turn to B.
   */
  lemma KickSkipsTurnAsWritten(a: Player, b: Player, c: Player, game: Game, now: int)
    requires a.socketId == "a" && b.socketId == "b" && c.socketId == "c"
    requires game.players == [a, b, c] && game.currentPlayerIndex == 2
    ensures KickPlayerAsWritten(game, "a", now).players == [b, c]
    ensures KickPlayerAsWritten(game, "a", now).currentPlayerIndex == 0
    ensures KickPlayer(game, "a", now).currentPlayerIndex == 1
  {
    assert FindPlayer(game.players, "a") == 0;
    assert Splice(game.players, 0) == [b, c];
  }

  /** The corrected index names the same player after the splice, or the next seat when the player on turn left. */
  lemma KickedIndexSpec<T>(s: seq<T>, i: nat, cur: nat)
    requires i < |s| && cur < |s| && |s| > 2
    ensures var r := Splice(s, i);
      var c := KickedIndex(cur, i, |r|);
      c < |r|
      && (i != cur ==> r[c] == s[cur])
      && (i == cur ==> r[c] == s[(i + 1) % |s|])
  {
    if i == cur {
      KickedCurrentSpec(s, i);
    }
  }

  /** Kicking the player on turn hands the turn to the seat after it, wrapping at the end. */
  lemma KickedCurrentSpec<T>(s: seq<T>, i: nat)
    requires i < |s| && |s| > 2
    ensures var r := Splice(s, i);
      var c := KickedIndex(i, i, |r|);
      c < |r| && r[c] == s[(i + 1) % |s|]
  {
    var n := |s|;
    if i + 1 < n {
      assert (i + 1) % n == i + 1;
      assert i % (n - 1) == i;
    } else {
      assert (i + 1) % n == 0;
      assert i % (n - 1) == 0;
    }
  }

  /**
   * Kicking a player who is not on turn keeps the turn with the same player; kicking the
   * player on turn hands it to the next seat.
   */
  lemma KickKeepsTurn(game: Game, socketId: string, now: int)
    requires HasCurrent(game)
    requires FindPlayer(game.players, socketId) != -1 && |game.players| > 2
    ensures var k := KickPlayer(game, socketId, now);
      var i := FindPlayer(game.players, socketId);
      var n := |game.players|;
      HasCurrent(k) && |k.players| == n - 1
      && (i != game.currentPlayerIndex ==> k.players[k.currentPlayerIndex] == game.players[game.currentPlayerIndex])
      && (i == game.currentPlayerIndex ==> k.players[k.currentPlayerIndex] == game.players[(i + 1) % n])
  {
    var i := FindPlayer(game.players, socketId);
    var n := |game.players|;
    var cur := game.currentPlayerIndex;
    var rest := Splice(game.players, i);
    var k := KickPlayer(game, socketId, now);
    assert k == game.(players := rest, currentPlayerIndex := KickedIndex(cur, i, n - 1));
    KickedIndexSpec(game.players, i, cur);
  }

  // ---------------------------------------------------------------------------
  // Disconnects, reconnects, bot takeover
  // ---------------------------------------------------------------------------

  /**
   * handlePlayerDisconnect: a finished game is left alone; otherwise the seat is marked
   * disconnected, and the game pauses if it was that player's turn.
   */
  function PlayerDisconnect(game: Game, socketId: string, now: int): Game
    requires HasCurrent(game)
  {
    if game.state == Finished then game
    else
      var g := SetPlayerDisconnected(game, socketId, now);
      if g.players[g.currentPlayerIndex].socketId == socketId then PauseGame(g) else g
  }

  /** The seat of the old socket takes the new socket and is connected again. */
  function Rekey(game: Game, oldSocketId: string, newSocketId: string): (r: Game)
    ensures |r.players| == |game.players| && r.currentPlayerIndex == game.currentPlayerIndex
    ensures r.state == game.state
  {
    var i := FindPlayer(game.players, oldSocketId);
    if i == -1 then game
    else game.(players := game.players[i := game.players[i].(socketId := newSocketId,
                                         isDisconnected := false, disconnectedAt := None)])
  }

  /** handlePlayerReconnect as written: any paused game resumes, whoever reconnects. */
  function PlayerReconnectAsWritten(game: Game, oldSocketId: string, newSocketId: string): Game {
    var g := Rekey(game, oldSocketId, newSocketId);
    if g.state == Paused then ResumeGame(g) else g
  }

  /**
   * handlePlayerReconnect as its comment intends: the game resumes only when it was paused
   * for this player, that is when the player on turn is connected again.
   */
  function PlayerReconnect(game: Game, oldSocketId: string, newSocketId: string): Game {
    var g := Rekey(game, oldSocketId, newSocketId);
    if g.state == Paused && HasCurrent(g) && !g.players[g.currentPlayerIndex].isDisconnected
    then ResumeGame(g) else g
  }

  /**
   * As written, a player who is not on turn reconnecting resumes a game paused for the player
   * on turn, who is still disconnected: with A on turn and both A and B disconnected, B's
   * reconnect sets the game running.
   */
  lemma ReconnectResumesForOthersAsWritten(a: Player, b: Player, game: Game)
    requires a.socketId == "a" && b.socketId == "b" && a.isDisconnected && b.isDisconnected
    requires game.players == [a, b] && game.currentPlayerIndex == 0 && game.state == Paused
    ensures var r := PlayerReconnectAsWritten(game, "b", "b2");
      r.state == InProgress && r.players[r.currentPlayerIndex].isDisconnected
    ensures PlayerReconnect(game, "b", "b2").state == Paused
  {
    assert FindPlayer(game.players, "b") == 1;
  }

  /** With the correction a game never runs while the player on turn is disconnected, and it resumes once they are back. */
  lemma ReconnectResumesOnlyForTurn(game: Game, oldSocketId: string, newSocketId: string)
    requires HasCurrent(game)
    ensures var r := PlayerReconnect(game, oldSocketId, newSocketId);
      (game.state == Paused && r.players[r.currentPlayerIndex].isDisconnected ==> r.state == Paused)
      && (game.state == Paused && !r.players[r.currentPlayerIndex].isDisconnected ==> r.state == InProgress)
      && (game.state != Paused ==> r.state == game.state)
  {
  }

  /**
   * A running game paused by the disconnect of the player on turn runs again after that
   * player reconnects, with the seat connected under the new socket and the hands untouched.
   */
  lemma DisconnectReconnect(game: Game, socketId: string, newSocketId: string, now: int)
    requires HasCurrent(game) && game.state == InProgress
    requires game.players[game.currentPlayerIndex].socketId == socketId
    requires forall j :: 0 <= j < |game.players| && j != game.currentPlayerIndex ==> game.players[j].socketId != socketId
    ensures var d := PlayerDisconnect(game, socketId, now);
      d.state == Paused
      && var r := PlayerReconnectAsWritten(d, socketId, newSocketId);
      r.state == InProgress
      && |r.players| == |game.players|
      && (forall j :: 0 <= j < |game.players| ==> r.players[j].tiles == game.players[j].tiles)
      && var i := FindPlayer(game.players, socketId);
      0 <= i && r.players[i].socketId == newSocketId && !r.players[i].isDisconnected
  {
    var i := FindPlayer(game.players, socketId);
    assert game.players[game.currentPlayerIndex] in game.players;
    assert i == game.currentPlayerIndex;
    var d := PlayerDisconnect(game, socketId, now);
    assert forall j :: 0 <= j < |d.players| ==> d.players[j].socketId == game.players[j].socketId;
    assert FindPlayer(d.players, socketId) == i;
  }

  /**
   * The bot branch of handle-disconnected-player: the seat goes to a bot (medium when no
   * difficulty is given or it is empty), and a paused game resumes.
   */
  function BotTakeover(game: Game, socketId: string, botDifficulty: Option<string>): Game {
    var difficulty := if botDifficulty.None? || botDifficulty.value == "" then "medium" else botDifficulty.value;
    var g := ReplacePlayerWithBot(game, socketId, difficulty);
    if g.state == Paused then ResumeGame(g) else g
  }

  datatype HostAction = KickAction | ReplaceWithBotAction | OtherAction

  /** The answer to the host; an action that is neither kick nor replace gets none. */
  datatype HostReply = HostDone | HostRefused(error: string) | NoReply

  datatype HostOutcome = HostOutcome(reply: HostReply, game: Game)

  const OnlyHostError := "Only host can make this decision"

  /**
   * handle-disconnected-player for a found game: only the lobby's host (None when the lobby
   * is gone) may decide; a kick removes the seat (with the turn index as the code computes
   * it), a replacement hands it to a bot.
   */
  function HostDecision(game: Game, hostSocketId: Option<string>, senderSocketId: string,
                        playerSocketId: string, action: HostAction, botDifficulty: Option<string>, now: int): HostOutcome
  {
    if hostSocketId != Some(senderSocketId) then HostOutcome(HostRefused(OnlyHostError), game)
    else match action
      case KickAction => HostOutcome(HostDone, KickPlayerAsWritten(game, playerSocketId, now))
      case ReplaceWithBotAction => HostOutcome(HostDone, BotTakeover(game, playerSocketId, botDifficulty))
      case OtherAction => HostOutcome(NoReply, game)
  }

  /** Anyone but the host is refused and nothing changes. */
  lemma OnlyHostDecides(game: Game, hostSocketId: Option<string>, senderSocketId: string,
                        playerSocketId: string, action: HostAction, botDifficulty: Option<string>, now: int)
    ensures var o := HostDecision(game, hostSocketId, senderSocketId, playerSocketId, action, botDifficulty, now);
      o.game != game ==> hostSocketId == Some(senderSocketId) && action != OtherAction
    ensures hostSocketId != Some(senderSocketId) ==>
      HostDecision(game, hostSocketId, senderSocketId, playerSocketId, action, botDifficulty, now)
        == HostOutcome(HostRefused(OnlyHostError), game)
  {
  }

  lemma BotTakeoverSpec(game: Game, socketId: string, botDifficulty: Option<string>)
    requires FindPlayer(game.players, socketId) != -1
    ensures var g := BotTakeover(game, socketId, botDifficulty);
      var i := FindPlayer(game.players, socketId);
      g.players[i].isBot && !g.players[i].isDisconnected
      && g.players[i].tiles == game.players[i].tiles
      && (botDifficulty.None? ==> g.players[i].botDifficulty == Some("medium"))
      && (game.state == Paused ==> g.state == InProgress)
      && (game.state != Paused ==> g.state == game.state)
  {
  }

  // ---------------------------------------------------------------------------
  // The handlers over the registry
  // ---------------------------------------------------------------------------

  /** The duplicate scan of processEndTurn: every id met a second time is reported. */
  method FindDuplicateIds(hand: seq<Tile>, sets: seq<seq<Tile>>) returns (duplicateIds: seq<int>)
    ensures duplicateIds == Duplicates(ScanOrder(hand, sets), {})
    ensures duplicateIds == [] <==> Distinct(ScanOrder(hand, sets))
  {
    var all := ScanOrder(hand, sets);
    var allTileIds: set<int>;
    allTileIds, duplicateIds := ScanTiles(hand, IdsOf(Flatten(sets)), {}, []);
    assert sets[0..] == sets;
    var k := 0;
    while k < |sets|
      invariant 0 <= k <= |sets|
      invariant duplicateIds + Duplicates(IdsOf(Flatten(sets[k..])), allTileIds) == Duplicates(all, {})
    {
      var rest := IdsOf(Flatten(sets[k + 1..]));
      assert Flatten(sets[k..]) == sets[k] + Flatten(sets[k + 1..]) by { assert sets[k..][1..] == sets[k + 1..]; }
      IdsOfConcat(sets[k], Flatten(sets[k + 1..]));
      allTileIds, duplicateIds := ScanTiles(sets[k], rest, allTileIds, duplicateIds);
      k := k + 1;
    }
    DuplicatesEmptyIff(all, {});
  }

  /**
   * The `for (const tile of ..)` scan over one list of tiles, with the ids seen so far and the
   * duplicates found so far; `rest` are the ids the scan visits after these tiles.
   */
  method ScanTiles(tiles: seq<Tile>, rest: seq<int>, seen: set<int>, dups: seq<int>)
    returns (allTileIds: set<int>, duplicateIds: seq<int>)
    ensures duplicateIds + Duplicates(rest, allTileIds) == dups + Duplicates(IdsOf(tiles) + rest, seen)
  {
    allTileIds, duplicateIds := seen, dups;
    assert tiles[0..] == tiles;
    var j := 0;
    while j < |tiles|
      invariant 0 <= j <= |tiles|
      invariant duplicateIds + Duplicates(IdsOf(tiles[j..]) + rest, allTileIds)
             == dups + Duplicates(IdsOf(tiles) + rest, seen)
    {
      assert IdsOf(tiles[j..]) == [tiles[j].id] + IdsOf(tiles[j + 1..]) by { assert tiles[j..][1..] == tiles[j + 1..]; }
      assert IdsOf(tiles[j..]) + rest == [tiles[j].id] + (IdsOf(tiles[j + 1..]) + rest);
      DuplicatesCons(tiles[j].id, IdsOf(tiles[j + 1..]) + rest, allTileIds);
      if tiles[j].id in allTileIds {
        duplicateIds := duplicateIds + [tiles[j].id];
      }
      allTileIds := allTileIds + {tiles[j].id};
      j := j + 1;
    }
    assert IdsOf(tiles[j..]) + rest == rest;
  }

  /** advanceToNextTurn over the registry. */
  method AdvanceToNextTurnOf(store: GameRegistry, gameId: string, now: int)
    requires store.Valid() && gameId in store.games && |store.games[gameId].players| > 0
    modifies store
    ensures store.Valid() && store.order == old(store.order)
    ensures store.games == old(store.games)[gameId := AdvanceToNextTurn(old(store.games[gameId]), now)]
  {
    store.Replace(gameId, AdvanceToNextTurn(store.games[gameId], now));
  }

  /** The checks of processEndTurn as the source runs them, the duplicate scan and the table validation as loops. */
  method CheckEndTurn(game: Game, table: TableShape, hand: seq<Tile>) returns (v: Verdict)
    requires HasCurrent(game) && game.turnStartState.Some?
    ensures v == EndTurnVerdict(game, table, hand)
  {
    var snap := game.turnStartState.value;
    var current := game.players[game.currentPlayerIndex];
    if TakesTableJoker(snap, hand) {
      return Reject(JokerTakenError, true, true, []);
    }
    if !MadeChanges(snap, table, hand) && |game.tilePool| > 0 {
      return Reject(MustPlayOrDrawError, false, false, []);
    }
    if table.NotAnArray? {
      return Reject(TableNotArrayError, true, false, []);
    }
    if exists s <- table.sets :: s.Malformed? {
      return Reject(SetNotArrayError, true, true, []);
    }
    var sets := TileSets(table.sets);
    var duplicateIds := FindDuplicateIds(hand, sets);
    if |duplicateIds| > 0 {
      return Reject(DuplicateTilesError, true, true, []);
    }
    var tableValidation := ValidateTableState(sets);
    if !tableValidation.valid {
      return Reject(InvalidTableMessage(|tableValidation.invalidSets|), true, true, tableValidation.invalidSets);
    }
    if !current.hasPlayedInitialMeld {
      var newSets := NewSets(sets, IdSet(Flatten(snap.tableSets)));
      if |newSets| > 0 {
        var meldValidation := ValidateInitialMeld(newSets, game.rules);
        if !meldValidation.valid {
          return Reject(MeldTooLowMessage(game.rules.initialMeldPoints, meldValidation.points), true, true, []);
        }
        return Accept(sets, true);
      }
    }
    v := Accept(sets, false);
  }

  /** The submitted table and hand stored, by updateTableSets then updatePlayerTiles. */
  method StoreTableAndHand(store: GameRegistry, gameId: string, socketId: string, sets: seq<seq<Tile>>,
                           hand: seq<Tile>)
    requires store.Valid() && gameId in store.games && FindPlayer(store.games[gameId].players, socketId) != -1
    modifies store
    ensures store.Valid() && store.order == old(store.order)
    ensures store.games == old(store.games)[gameId :=
      UpdatePlayerTiles(old(store.games[gameId]).(tableSets := sets), socketId, hand).value]
  {
    var _ := store.UpdateTableSetsOf(gameId, sets);
    var _ := store.UpdatePlayerTilesOf(gameId, socketId, hand);
  }

  /** The commit stage of processEndTurn over the registry. */
  method CommitTurnOf(store: GameRegistry, gameId: string, socketId: string, sets: seq<seq<Tile>>,
                      hand: seq<Tile>, now: int)
    returns (reply: EndTurnReply)
    requires store.Valid() && gameId in store.games && FindPlayer(store.games[gameId].players, socketId) != -1
    modifies store
    ensures store.Valid() && store.order == old(store.order)
    ensures var o := CommitTurn(old(store.games[gameId]), socketId, sets, hand, now);
      reply == o.reply && store.games == old(store.games)[gameId := o.game]
  {
    ghost var games := store.games;
    CommitTurnSteps(games[gameId], socketId, sets, hand, now);
    StoreTableAndHand(store, gameId, socketId, sets, hand);
    ghost var stored := store.games;
    reply := FinishTurnOf(store, gameId, socketId, hand, now);
    MapUpdateTwice(games, stored, gameId, store.games[gameId]);
  }

  /** Overwriting one key twice leaves the last value. */
  lemma MapUpdateTwice<K, V>(m: map<K, V>, mid: map<K, V>, k: K, v: V)
    requires k in m && k in mid && mid == m[k := mid[k]]
    ensures mid[k := v] == m[k := v]
  {
  }

  /** The commit as its two steps: the table and hand stored, then the end of the turn. */
  lemma CommitTurnSteps(game: Game, socketId: string, sets: seq<seq<Tile>>, hand: seq<Tile>, now: int)
    requires FindPlayer(game.players, socketId) != -1
    ensures var g := UpdatePlayerTiles(game.(tableSets := sets), socketId, hand).value;
      && FindPlayer(g.players, socketId) != -1
      && CommitTurn(game, socketId, sets, hand, now)
         == EndTurnOutcome(Accepted(HasPlayerWon(hand)),
                           if HasPlayerWon(hand) then EndGame(g, Some(socketId), now) else AdvanceToNextTurn(g, now))
  {
    var g := UpdatePlayerTiles(game.(tableSets := sets), socketId, hand).value;
    assert SameSeats(g.players, game.players);
    FindPlayerSameSeats(g.players, game.players, socketId);
  }

  /** The end of the commit: the game ends when the hand is empty, and the turn passes on otherwise. */
  method FinishTurnOf(store: GameRegistry, gameId: string, socketId: string, hand: seq<Tile>, now: int)
    returns (reply: EndTurnReply)
    requires store.Valid() && gameId in store.games && FindPlayer(store.games[gameId].players, socketId) != -1
    modifies store
    ensures store.Valid() && store.order == old(store.order)
    ensures var g := old(store.games[gameId]);
      && reply == Accepted(HasPlayerWon(hand))
      && store.games == old(store.games)[gameId :=
           if HasPlayerWon(hand) then EndGame(g, Some(socketId), now) else AdvanceToNextTurn(g, now)]
  {
    if HasPlayerWon(hand) {
      var _ := store.SetGameWinnerOf(gameId, socketId, now);
      reply := Accepted(true);
    } else {
      AdvanceToNextTurnOf(store, gameId, now);
      reply := Accepted(false);
    }
  }

  /** EndTurn, one case of the verdict at a time. */
  lemma EndTurnCases(game: Game, table: TableShape, hand: seq<Tile>, now: int)
    requires HasCurrent(game) && game.turnStartState.Some?
    ensures var v := EndTurnVerdict(game, table, hand);
      var current := game.players[game.currentPlayerIndex];
      (v.Reject? ==> EndTurn(game, table, hand, now)
                       == EndTurnOutcome(Refused(v.error, Some(v.reportedReverted), v.invalidSets),
                                         if v.revert then RevertedGame(game) else game))
      && (v.Accept? ==>
            var g := if v.melds then SetPlayerInitialMeld(game, current.socketId) else game;
            FindPlayer(g.players, current.socketId) != -1
            && EndTurn(game, table, hand, now) == CommitTurn(g, current.socketId, v.sets, hand, now))
  {
    var v := EndTurnVerdict(game, table, hand);
    var current := game.players[game.currentPlayerIndex];
    if v.Accept? {
      var g := if v.melds then SetPlayerInitialMeld(game, current.socketId) else game;
      assert current in game.players;
      FindPlayerSameSeats(g.players, game.players, current.socketId);
    }
  }

  /**
   * processEndTurn over the registry: the checks, then the store changed only through its own
   * operations (revert, meld flag, table, hand, winner, turn advance), in the source's order.
   */
  method ProcessEndTurn(store: GameRegistry, gameId: string, table: TableShape, hand: seq<Tile>, now: int)
    returns (reply: EndTurnReply)
    requires store.Valid() && gameId in store.games
    requires HasCurrent(store.games[gameId]) && store.games[gameId].turnStartState.Some?
    modifies store
    ensures store.Valid() && store.order == old(store.order)
    ensures var o := EndTurn(old(store.games[gameId]), table, hand, now);
      reply == o.reply && store.games == old(store.games)[gameId := o.game]
  {
    var game := store.games[gameId];
    var current := game.players[game.currentPlayerIndex];
    var verdict := CheckEndTurn(game, table, hand);
    EndTurnCases(game, table, hand, now);
    if verdict.Reject? {
      RejectTurnOf(store, gameId, verdict.revert);
      return Refused(verdict.error, Some(verdict.reportedReverted), verdict.invalidSets);
    }
    reply := AcceptTurnOf(store, gameId, current.socketId, verdict.melds, verdict.sets, hand, now);
  }

  /** A refused end of turn: the turn is rolled back when the check says so. */
  method RejectTurnOf(store: GameRegistry, gameId: string, revert: bool)
    requires store.Valid() && gameId in store.games
    requires HasCurrent(store.games[gameId]) && store.games[gameId].turnStartState.Some?
    modifies store
    ensures store.Valid() && store.order == old(store.order)
    ensures store.games == old(store.games)[gameId :=
      if revert then RevertedGame(old(store.games[gameId])) else old(store.games[gameId])]
  {
    if revert {
      var _ := store.RevertToTurnStartOf(gameId);
    } else {
      assert store.games == store.games[gameId := store.games[gameId]];
    }
  }

  /** An accepted end of turn: the meld flag if this play is the initial meld, then the commit. */
  method AcceptTurnOf(store: GameRegistry, gameId: string, socketId: string, melds: bool,
                      sets: seq<seq<Tile>>, hand: seq<Tile>, now: int)
    returns (reply: EndTurnReply)
    requires store.Valid() && gameId in store.games && FindPlayer(store.games[gameId].players, socketId) != -1
    modifies store
    ensures store.Valid() && store.order == old(store.order)
    ensures var g := if melds then SetPlayerInitialMeld(old(store.games[gameId]), socketId) else old(store.games[gameId]);
      var o := CommitTurn(g, socketId, sets, hand, now);
      reply == o.reply && store.games == old(store.games)[gameId := o.game]
  {
    ghost var games := store.games;
    ghost var game := store.games[gameId];
    if melds {
      var _ := store.SetPlayerInitialMeldOf(gameId, socketId);
      FindPlayerSameSeats(store.games[gameId].players, game.players, socketId);
    }
    ghost var stored := store.games;
    reply := CommitTurnOf(store, gameId, socketId, sets, hand, now);
    MapUpdateTwice(games, stored, gameId, store.games[gameId]);
  }

  /** The end-turn event: a socket with no game, an unknown game or a player not on turn is refused. */
  method EndTurnHandler(store: GameRegistry, userGameId: Option<string>, socketId: string,
                        table: TableShape, hand: seq<Tile>, now: int)
    returns (reply: EndTurnReply)
    requires store.Valid()
    requires userGameId.Some? && userGameId.value in store.games ==>
      HasCurrent(store.games[userGameId.value]) && store.games[userGameId.value].turnStartState.Some?
    modifies store
    ensures store.Valid() && store.order == old(store.order)
    ensures userGameId.None? ==> reply == Refused(NotInGameError, None, []) && store.games == old(store.games)
    ensures userGameId.Some? && userGameId.value !in old(store.games) ==>
      reply == Refused(GameNotFoundError, None, []) && store.games == old(store.games)
    ensures userGameId.Some? && userGameId.value in old(store.games) ==>
      var game := old(store.games[userGameId.value]);
      if game.players[game.currentPlayerIndex].socketId != socketId
      then reply == Refused(NotYourTurnError, None, []) && store.games == old(store.games)
      else reply == EndTurn(game, table, hand, now).reply
           && store.games == old(store.games)[userGameId.value := EndTurn(game, table, hand, now).game]
  {
    if userGameId.None? {
      return Refused(NotInGameError, None, []);
    }
    var game := store.GetGame(userGameId.value);
    if game.None? {
      return Refused(GameNotFoundError, None, []);
    }
    var currentPlayer := CurrentPlayer(game.value);
    if currentPlayer.value.socketId != socketId {
      return Refused(NotYourTurnError, None, []);
    }
    reply := ProcessEndTurn(store, userGameId.value, table, hand, now);
  }

  /** The draw-tile event over the registry, proved against DrawTurn. */
  method DrawHandler(store: GameRegistry, userGameId: Option<string>, socketId: string, now: int)
    returns (reply: DrawReply)
    requires store.Valid()
    requires userGameId.Some? && userGameId.value in store.games ==> HasCurrent(store.games[userGameId.value])
    modifies store
    ensures store.Valid() && store.order == old(store.order)
    ensures userGameId.None? ==> reply == DrawRefused(NotInGameError) && store.games == old(store.games)
    ensures userGameId.Some? && userGameId.value !in old(store.games) ==>
      reply == DrawRefused(GameNotFoundError) && store.games == old(store.games)
    ensures userGameId.Some? && userGameId.value in old(store.games) ==>
      var o := DrawTurn(old(store.games[userGameId.value]), socketId, now);
      reply == o.reply && store.games == old(store.games)[userGameId.value := o.game]
  {
    if userGameId.None? {
      return DrawRefused(NotInGameError);
    }
    var gameId := userGameId.value;
    var found := store.GetGame(gameId);
    if found.None? {
      return DrawRefused(GameNotFoundError);
    }
    var game := found.value;
    var currentPlayer := game.players[game.currentPlayerIndex];
    if currentPlayer.socketId != socketId {
      assert store.games == store.games[gameId := game];
      return DrawRefused(NotYourTurnError);
    }
    if |game.tilePool| == 0 {
      AdvanceToNextTurnOf(store, gameId, now);
      return Passed;
    }
    if game.turnStartState.Some? && |currentPlayer.tiles| < |game.turnStartState.value.playerTiles| {
      assert store.games == store.games[gameId := game];
      return DrawRefused(CannotDrawError);
    }
    var result := store.DrawTileOf(gameId, socketId);
    if result.None? {
      assert store.games == store.games[gameId := game];
      return DrawRefused(CouldNotDrawError);
    }
    AdvanceToNextTurnOf(store, gameId, now);
    reply := Drew(result.value.tile);
  }

  /** handle-disconnected-player over the game and lobby registries. */
  method HandleDisconnectedPlayer(games: GameRegistry, lobbies: LobbyRegistry, gameId: string,
                                  senderSocketId: string, playerSocketId: string, action: HostAction,
                                  botDifficulty: Option<string>, now: int)
    returns (reply: HostReply)
    requires games.Valid()
    modifies games
    ensures games.Valid() && games.order == old(games.order)
    ensures gameId !in old(games.games) ==> reply == HostRefused(GameNotFoundError) && games.games == old(games.games)
    ensures gameId in old(games.games) ==>
      var game := old(games.games[gameId]);
      var lobby := lobbies.GetLobby(game.lobbyId);
      var o := HostDecision(game, if lobby.Some? then Some(lobby.value.hostSocketId) else None,
                            senderSocketId, playerSocketId, action, botDifficulty, now);
      reply == o.reply && games.games == old(games.games)[gameId := o.game]
  {
    var found := games.GetGame(gameId);
    if found.None? {
      return HostRefused(GameNotFoundError);
    }
    var game := found.value;
    var lobby := lobbies.GetLobby(game.lobbyId);
    var host := if lobby.Some? then Some(lobby.value.hostSocketId) else None;
    var o := HostDecision(game, host, senderSocketId, playerSocketId, action, botDifficulty, now);
    games.Replace(gameId, o.game);
    reply := o.reply;
  }

  /** handlePlayerDisconnect over the registry. */
  method PlayerDisconnectOf(store: GameRegistry, userGameId: Option<string>, socketId: string, now: int)
    requires store.Valid()
    requires userGameId.Some? && userGameId.value in store.games ==> HasCurrent(store.games[userGameId.value])
    modifies store
    ensures store.Valid() && store.order == old(store.order)
    ensures if userGameId.Some? && userGameId.value in old(store.games)
            then store.games == old(store.games)[userGameId.value := PlayerDisconnect(old(store.games[userGameId.value]), socketId, now)]
            else store.games == old(store.games)
  {
    if userGameId.None? {
      return;
    }
    var gameId := userGameId.value;
    var found := store.GetGame(gameId);
    if found.None? {
      return;
    }
    if found.value.state == Finished {
      assert store.games == store.games[gameId := found.value];
      return;
    }
    var disconnected := store.SetPlayerDisconnectedOf(gameId, socketId, now);
    var currentPlayer := CurrentPlayer(disconnected.value);
    if currentPlayer.value.socketId == socketId {
      var _ := store.PauseGameOf(gameId);
    }
  }

  /** handlePlayerReconnect over the registry: any paused game resumes, as the code does. */
  method PlayerReconnectOf(store: GameRegistry, userGameId: Option<string>, oldSocketId: string, newSocketId: string)
    requires store.Valid()
    modifies store
    ensures store.Valid() && store.order == old(store.order)
    ensures if userGameId.Some? && userGameId.value in old(store.games)
            then store.games == old(store.games)[userGameId.value := PlayerReconnectAsWritten(old(store.games[userGameId.value]), oldSocketId, newSocketId)]
            else store.games == old(store.games)
  {
    if userGameId.None? {
      return;
    }
    var gameId := userGameId.value;
    var found := store.GetGame(gameId);
    if found.None? {
      return;
    }
    var game := Rekey(found.value, oldSocketId, newSocketId);
    store.Replace(gameId, game);
    if game.state == Paused {
      var _ := store.ResumeGameOf(gameId);
    }
  }
}
