/**
 * The turn of the Hard bot: `play` and `tryAllManipulations` in
 * server/bot/strategies/HardStrategy.js. Before the initial meld it plays as the Medium bot.
 * Afterwards it extends the table and lays new sets from the hand; then it tries the four
 * manipulations for every tile of the hand and keeps the answer that plays the most tiles.
 * It falls back to the Medium bot when nothing could be played.
 *
 * `Reading` chooses between the code as written and the two corrections of its Findings: the
 * Medium fallback takes its combination out of the hand its first extension left, and
 * tryCombineSets takes at most one tile from each set. The bot's turn runs as written; what a
 * turn conserves is proved for the corrected reading.
 */
module HardStrategy {
  import opened Tiles
  import opened Optional
  import opened Ordering
  import opened Rules
  import opened BotSets
  import opened Candidates
  import opened Extension
  import opened HardSimple
  import opened HardManip
  import opened PlanStrategy

  // ---------------------------------------------------------------------------
  // tryAllManipulations
  // ---------------------------------------------------------------------------

  /** The code as written, or with the two corrections applied. */
  datatype Reading = AsWritten | Corrected

  /** The hand the Medium fallback takes its combination from. */
  function Source(v: Reading): HandSource {
    if v == AsWritten then OriginalHand else RemainingHand
  }

  /** tryCombineSets as written, or with at most one tile taken from each set. */
  function Combine(tile: Tile, hand: seq<Tile>, table: seq<seq<Tile>>, v: Reading): Option<Extended> {
    if v == AsWritten then CombineSetsAsWritten(tile, hand, table) else CombineSets(tile, hand, table)
  }

  /** An answer replaces the best so far only when it plays strictly more tiles. */
  function Better(best: Extended, a: Option<Extended>): Extended {
    if a.Some? && a.value.tilesPlayed > best.tilesPlayed then a.value else best
  }

  /** The four manipulations tried for one hand tile, in order. */
  function TileAnswers(tile: Tile, hand: seq<Tile>, table: seq<seq<Tile>>, v: Reading): seq<Option<Extended>> {
    [TakeRunEnd(tile, hand, table), TakeFromGroup(tile, hand, table), SplitRun(tile, hand, table),
     Combine(tile, hand, table, v)]
  }

  /** Every answer, tile by tile. */
  function Answers(tiles: seq<Tile>, hand: seq<Tile>, table: seq<seq<Tile>>, v: Reading): seq<Option<Extended>> {
    if tiles == [] then [] else TileAnswers(tiles[0], hand, table, v) + Answers(tiles[1..], hand, table, v)
  }

  /** The best answer, scanning in order from `best`. */
  function BestOf(best: Extended, answers: seq<Option<Extended>>): Extended
    decreases |answers|
  {
    if answers == [] then best else BestOf(Better(best, answers[0]), answers[1..])
  }

  /** tryAllManipulations: the best answer, starting from the table and hand unchanged. */
  function AllManipulations(hand: seq<Tile>, table: seq<seq<Tile>>, v: Reading): Extended {
    BestOf(Extended(table, hand, 0), Answers(hand, hand, table, v))
  }

  /** tryAllManipulations */
  method TryAllManipulations(playerTiles: seq<Tile>, tableSets: seq<seq<Tile>>, v: Reading) returns (r: Extended)
    ensures r == AllManipulations(playerTiles, tableSets, v)
  {
    var bestResult := Extended(tableSets, playerTiles, 0);
    ghost var goal := AllManipulations(playerTiles, tableSets, v);
    for k := 0 to |playerTiles|
      invariant BestOf(bestResult, Answers(playerTiles[k..], playerTiles, tableSets, v)) == goal
    {
      var tile := playerTiles[k];
      AnswersAt(playerTiles, k, tableSets, v);
      BestOfConcat(bestResult, TileAnswers(tile, playerTiles, tableSets, v), Answers(playerTiles[k + 1..], playerTiles, tableSets, v));
      ghost var start := bestResult;
      var runEndResult := TakeRunEnd(tile, playerTiles, tableSets);
      if runEndResult.Some? && runEndResult.value.tilesPlayed > bestResult.tilesPlayed {
        bestResult := runEndResult.value;
      }
      var groupTileResult := TakeFromGroup(tile, playerTiles, tableSets);
      if groupTileResult.Some? && groupTileResult.value.tilesPlayed > bestResult.tilesPlayed {
        bestResult := groupTileResult.value;
      }
      var splitRunResult := SplitRun(tile, playerTiles, tableSets);
      if splitRunResult.Some? && splitRunResult.value.tilesPlayed > bestResult.tilesPlayed {
        bestResult := splitRunResult.value;
      }
      var combineResult := Combine(tile, playerTiles, tableSets, v);
      if combineResult.Some? && combineResult.value.tilesPlayed > bestResult.tilesPlayed {
        bestResult := combineResult.value;
      }
      BestOfFour(start, runEndResult, groupTileResult, splitRunResult, combineResult, bestResult);
    }
    r := bestResult;
  }

  lemma AnswersAt(hand: seq<Tile>, k: nat, table: seq<seq<Tile>>, v: Reading)
    requires k < |hand|
    ensures Answers(hand[k..], hand, table, v) == TileAnswers(hand[k], hand, table, v) + Answers(hand[k + 1..], hand, table, v)
  {
    assert hand[k..][1..] == hand[k + 1..];
  }

  lemma {:induction false} BestOfConcat(best: Extended, a: seq<Option<Extended>>, b: seq<Option<Extended>>)
    ensures BestOf(best, a + b) == BestOf(BestOf(best, a), b)
    decreases |a|
  {
    if a != [] {
      assert (a + b)[0] == a[0] && (a + b)[1..] == a[1..] + b;
      BestOfCons(best, a + b);
      BestOfCons(best, a);
      BestOfConcat(Better(best, a[0]), a[1..], b);
    } else {
      assert a + b == b;
    }
  }

  /** The four comparisons of one tile. */
  lemma BestOfFour(start: Extended, a: Option<Extended>, b: Option<Extended>, c: Option<Extended>,
                   d: Option<Extended>, best: Extended)
    requires best == Better(Better(Better(Better(start, a), b), c), d)
    ensures BestOf(start, [a, b, c, d]) == best
  {
    var s := [a, b, c, d];
    BestOfCons(start, s);
    BestOfCons(Better(start, a), s[1..]);
    BestOfCons(Better(Better(start, a), b), s[2..]);
    BestOfCons(Better(Better(Better(start, a), b), c), s[3..]);
    assert s[1..][1..] == s[2..] && s[2..][1..] == s[3..] && s[3..][1..] == [];
  }

  lemma BestOfCons(best: Extended, answers: seq<Option<Extended>>)
    requires answers != []
    ensures BestOf(best, answers) == BestOf(Better(best, answers[0]), answers[1..])
  {
  }

  // ---------------------------------------------------------------------------
  // What tryAllManipulations keeps
  // ---------------------------------------------------------------------------

  /** No answer plays more tiles than the one kept, nor does the start. */
  lemma {:induction false} BestOfMax(best: Extended, answers: seq<Option<Extended>>)
    ensures best.tilesPlayed <= BestOf(best, answers).tilesPlayed
    ensures forall j :: 0 <= j < |answers| && answers[j].Some? ==>
      answers[j].value.tilesPlayed <= BestOf(best, answers).tilesPlayed
    decreases |answers|
  {
    if answers != [] {
      BestOfMax(Better(best, answers[0]), answers[1..]);
      forall j | 0 < j < |answers| && answers[j].Some?
        ensures answers[j].value.tilesPlayed <= BestOf(best, answers).tilesPlayed
      {
        assert answers[j] == answers[1..][j - 1];
      }
    }
  }

  /**
   * The answer kept is the start, when no answer plays more tiles, or else the first answer
   * that plays the most tiles: every earlier answer plays fewer.
   */
  lemma {:induction false} BestOfPick(best: Extended, answers: seq<Option<Extended>>) returns (j: int)
    ensures -1 <= j < |answers|
    ensures j == -1 ==> BestOf(best, answers) == best
    ensures j >= 0 ==>
      && answers[j] == Some(BestOf(best, answers))
      && best.tilesPlayed < BestOf(best, answers).tilesPlayed
      && forall i :: 0 <= i < j && answers[i].Some? ==> answers[i].value.tilesPlayed < BestOf(best, answers).tilesPlayed
    decreases |answers|
  {
    if answers == [] {
      j := -1;
    } else {
      var next := Better(best, answers[0]);
      var k := BestOfPick(next, answers[1..]);
      if k == -1 {
        j := if next == best then -1 else 0;
      } else {
        j := k + 1;
        assert answers[j] == answers[1..][k];
        forall i | 0 <= i < j && answers[i].Some?
          ensures answers[i].value.tilesPlayed < BestOf(best, answers).tilesPlayed
        {
          if i > 0 {
            assert answers[i] == answers[1..][i - 1];
          }
        }
      }
    }
  }

  /** What tryAllManipulations may answer: the table and hand unchanged, or a sound move. */
  predicate Settled(table: seq<seq<Tile>>, hand: seq<Tile>, r: Extended) {
    r == Extended(table, hand, 0) || Sound(table, hand, Some(r))
  }

  lemma {:induction false} BestOfSettled(table: seq<seq<Tile>>, hand: seq<Tile>, best: Extended,
                                         answers: seq<Option<Extended>>)
    requires Settled(table, hand, best)
    requires forall j :: 0 <= j < |answers| ==> Sound(table, hand, answers[j])
    ensures Settled(table, hand, BestOf(best, answers))
    decreases |answers|
  {
    if answers != [] {
      assert Sound(table, hand, answers[0]);
      BestOfSettled(table, hand, Better(best, answers[0]), answers[1..]);
    }
  }

  lemma TileAnswersSound(tile: Tile, hand: seq<Tile>, table: seq<seq<Tile>>)
    requires Distinct(IdsOf(hand)) && tile in hand && SetsDistinct(table)
    ensures forall a <- TileAnswers(tile, hand, table, Corrected) :: Sound(table, hand, a)
  {
    TakeRunEndSound(tile, hand, table);
    TakeFromGroupSound(tile, hand, table);
    SplitRunSound(tile, hand, table);
    CombineSetsSound(tile, hand, table);
  }

  lemma {:induction false} AnswersSound(tiles: seq<Tile>, hand: seq<Tile>, table: seq<seq<Tile>>)
    requires Distinct(IdsOf(hand)) && SetsDistinct(table) && forall t <- tiles :: t in hand
    ensures forall a <- Answers(tiles, hand, table, Corrected) :: Sound(table, hand, a)
  {
    if tiles != [] {
      TileAnswersSound(tiles[0], hand, table);
      AnswersSound(tiles[1..], hand, table);
    }
  }

  /**
   * tryAllManipulations, with the corrected tryCombineSets, leaves the table and hand as they
   * were, or moves tiles from the hand onto a valid table, at least one of them and never a joker.
   */
  lemma AllManipulationsSound(hand: seq<Tile>, table: seq<seq<Tile>>)
    requires Distinct(IdsOf(hand)) && SetsDistinct(table)
    ensures Settled(table, hand, AllManipulations(hand, table, Corrected))
  {
    var answers := Answers(hand, hand, table, Corrected);
    AnswersSound(hand, hand, table);
    forall j | 0 <= j < |answers| ensures Sound(table, hand, answers[j]) {
      assert answers[j] in answers;
    }
    BestOfSettled(table, hand, Extended(table, hand, 0), answers);
  }

  /**
   * tryAllManipulations keeps the answer that plays the most tiles, the earliest among equals
   * (tiles in hand order, for each tile run end, group, split, combine), and nothing when no
   * answer plays a tile.
   */
  lemma AllManipulationsBest(hand: seq<Tile>, table: seq<seq<Tile>>, v: Reading) returns (j: int)
    ensures var r := AllManipulations(hand, table, v);
      var answers := Answers(hand, hand, table, v);
      && (forall a <- answers :: a.Some? ==> a.value.tilesPlayed <= r.tilesPlayed)
      && -1 <= j < |answers|
      && (j == -1 ==> r == Extended(table, hand, 0))
      && (j >= 0 ==>
            && answers[j] == Some(r) && r.tilesPlayed > 0
            && forall i :: 0 <= i < j && answers[i].Some? ==> answers[i].value.tilesPlayed < r.tilesPlayed)
  {
    var answers := Answers(hand, hand, table, v);
    var start := Extended(table, hand, 0);
    BestOfMax(start, answers);
    forall a <- answers | a.Some? ensures a.value.tilesPlayed <= AllManipulations(hand, table, v).tilesPlayed {
      var k :| 0 <= k < |answers| && answers[k] == a;
    }
    j := BestOfPick(start, answers);
  }

  // ---------------------------------------------------------------------------
  // play
  // ---------------------------------------------------------------------------

  /** The answer once tiles were played: `playedInitialMeld` is always false here. */
  function Played(e: Extended, count: nat): Decision {
    Play(e.tableSets, e.remaining, count, false)
  }

  /** HardStrategy.play */
  function HardPlay(st: BotState, v: Reading): Decision {
    if !st.hasPlayedInitialMeld then Plan(Medium, st, Source(v))
    else
      var simple := SimplePlays(st.tableSets, st.playerTiles);
      if simple.tilesPlayed > 0 then
        var manip := AllManipulations(simple.remaining, simple.tableSets, v);
        if manip.tilesPlayed > 0 then Played(manip, simple.tilesPlayed + manip.tilesPlayed)
        else Played(simple, simple.tilesPlayed)
      else
        var manip := AllManipulations(st.playerTiles, st.tableSets, v);
        if manip.tilesPlayed > 0 then Played(manip, manip.tilesPlayed)
        else Plan(Medium, st, Source(v))
  }

  /** HardStrategy.play */
  method PlayTurn(st: BotState, v: Reading) returns (d: Decision)
    ensures d == HardPlay(st, v)
  {
    if !st.hasPlayedInitialMeld {
      d := PlanStrategy.PlayTurn(Medium, st, Source(v));
      return;
    }
    var simpleResult := TrySimplePlays(st.playerTiles, st.tableSets);
    if simpleResult.tilesPlayed > 0 {
      var manipResult := TryAllManipulations(simpleResult.remaining, simpleResult.tableSets, v);
      if manipResult.tilesPlayed > 0 {
        d := Play(manipResult.tableSets, manipResult.remaining, simpleResult.tilesPlayed + manipResult.tilesPlayed, false);
      } else {
        d := Play(simpleResult.tableSets, simpleResult.remaining, simpleResult.tilesPlayed, false);
      }
      return;
    }
    var manipulationResult := TryAllManipulations(st.playerTiles, st.tableSets, v);
    if manipulationResult.tilesPlayed > 0 {
      d := Play(manipulationResult.tableSets, manipulationResult.remaining, manipulationResult.tilesPlayed, false);
    } else {
      d := PlanStrategy.PlayTurn(Medium, st, Source(v));
    }
  }

  // ---------------------------------------------------------------------------
  // A Hard turn only moves tiles
  // ---------------------------------------------------------------------------

  /** No id occurs twice. */
  predicate Unique(b: multiset<int>) {
    forall x | x in b :: b[x] == 1
  }

  /** A list of ids none of which occurs twice lists each once. */
  lemma UniqueDistinct(s: seq<int>)
    requires Unique(multiset(s))
    ensures Distinct(s)
  {
    forall i, j | 0 <= i < j < |s| ensures s[i] != s[j] {
      CountTwo(s, i, j);
    }
  }

  /** Two equal entries count twice in the bag. */
  lemma CountTwo(s: seq<int>, i: int, j: int)
    requires 0 <= i < j < |s|
    ensures s[i] == s[j] ==> multiset(s)[s[i]] >= 2
  {
    assert s == s[..i] + [s[i]] + s[i + 1..j] + [s[j]] + s[j + 1..];
    assert multiset(s) == multiset(s[..i]) + multiset{s[i]} + multiset(s[i + 1..j]) + multiset{s[j]} + multiset(s[j + 1..]);
  }

  lemma UniquePart(a: multiset<int>, b: multiset<int>)
    requires Unique(a + b)
    ensures Unique(a) && Unique(b)
  {
    forall x | x in a ensures a[x] == 1 {
      assert (a + b)[x] == a[x] + b[x];
      assert x in a + b;
    }
    forall x | x in b ensures b[x] == 1 {
      assert (a + b)[x] == a[x] + b[x];
      assert x in a + b;
    }
  }

  /** Ids unique across the table give each set distinct ids. */
  lemma UniqueSets(table: seq<seq<Tile>>)
    requires Unique(IdBag(Flatten(table)))
    ensures SetsDistinct(table)
  {
    forall j | 0 <= j < |table| ensures Distinct(IdsOf(table[j])) {
      SpliceBag2(table, j);
      UniquePart(IdBag(Flatten(Splice(table, j))), IdBag(table[j]));
      UniqueDistinct(IdsOf(table[j]));
    }
  }

  /** The ids of table and hand together. */
  function AllIds(table: seq<seq<Tile>>, hand: seq<Tile>): multiset<int> {
    IdBag(Flatten(table)) + IdBag(hand)
  }

  /** A table and hand whose ids are unique satisfy what the manipulations assume. */
  lemma UniqueReady(table: seq<seq<Tile>>, hand: seq<Tile>)
    requires Unique(AllIds(table, hand))
    ensures Distinct(IdsOf(hand)) && SetsDistinct(table)
  {
    UniquePart(IdBag(Flatten(table)), IdBag(hand));
    UniqueDistinct(IdsOf(hand));
    UniqueSets(table);
  }

  /** Tiles moved between hand and table keep the ids of the two together. */
  predicate Conserves(st: BotState, d: Decision) {
    d.Play? ==>
      && AllIds(st.tableSets, st.playerTiles) == AllIds(d.tableSets, d.playerTiles)
      && |d.playerTiles| == |st.playerTiles| - d.tilesPlayed
  }

  lemma ManipulatedConserves(st: BotState, e: Extended, played: nat, r: Extended)
    requires MovedFrom(st.tableSets, st.playerTiles, 0, e) && e.tilesPlayed == played
    requires Settled(e.tableSets, e.remaining, r) && r.tilesPlayed > 0
    ensures Conserves(st, Played(r, played + r.tilesPlayed))
  {
  }

  /**
   * A Hard turn with the corrections, on a table and hand whose ids are unique, moves tiles
   * from the hand to the table and nothing else: the ids of the two together are unchanged and
   * the hand shrinks by the count reported.
   */
  lemma HardPlayConserves(st: BotState)
    requires Unique(AllIds(st.tableSets, st.playerTiles))
    ensures Conserves(st, HardPlay(st, Corrected))
  {
    if !st.hasPlayedInitialMeld {
      PlanConserves(Medium, st);
    } else if SimplePlays(st.tableSets, st.playerTiles).tilesPlayed > 0 {
      SimpleBranchConserves(st);
    } else {
      ManipulationOnlyConserves(st);
    }
  }

  /** The branch where the simple plays placed something. */
  lemma SimpleBranchConserves(st: BotState)
    requires Unique(AllIds(st.tableSets, st.playerTiles)) && st.hasPlayedInitialMeld
    requires SimplePlays(st.tableSets, st.playerTiles).tilesPlayed > 0
    ensures Conserves(st, HardPlay(st, Corrected))
  {
    var simple := SimplePlays(st.tableSets, st.playerTiles);
    var manip := AllManipulations(simple.remaining, simple.tableSets, Corrected);
    UniqueReady(st.tableSets, st.playerTiles);
    SimplePlaysMoves(st.tableSets, st.playerTiles);
    SimpleFirstConserves(st, simple, manip);
    SimpleBranchPlay(st, simple, manip);
  }

  /** With simple plays found, the Hard bot plays the manipulations after them, or the simple plays alone. */
  lemma SimpleBranchPlay(st: BotState, simple: Extended, manip: Extended)
    requires st.hasPlayedInitialMeld && simple == SimplePlays(st.tableSets, st.playerTiles) && simple.tilesPlayed > 0
    requires manip == AllManipulations(simple.remaining, simple.tableSets, Corrected)
    ensures HardPlay(st, Corrected) == if manip.tilesPlayed > 0 then Played(manip, simple.tilesPlayed + manip.tilesPlayed)
      else Played(simple, simple.tilesPlayed)
  {
  }

  /** The branch where simple plays came first and manipulations may follow. */
  lemma SimpleFirstConserves(st: BotState, simple: Extended, manip: Extended)
    requires Unique(AllIds(st.tableSets, st.playerTiles))
    requires MovedFrom(st.tableSets, st.playerTiles, 0, simple)
    requires manip == AllManipulations(simple.remaining, simple.tableSets, Corrected)
    ensures Conserves(st, Played(simple, simple.tilesPlayed))
    ensures manip.tilesPlayed > 0 ==> Conserves(st, Played(manip, simple.tilesPlayed + manip.tilesPlayed))
  {
    assert AllIds(simple.tableSets, simple.remaining) == AllIds(st.tableSets, st.playerTiles);
    UniqueReady(simple.tableSets, simple.remaining);
    if manip.tilesPlayed > 0 {
      AllManipulationsSound(simple.remaining, simple.tableSets);
      ManipulatedConserves(st, simple, simple.tilesPlayed, manip);
    }
  }

  /** The branch where no simple play was found. */
  lemma ManipulationOnlyConserves(st: BotState)
    requires Unique(AllIds(st.tableSets, st.playerTiles)) && st.hasPlayedInitialMeld
    requires SimplePlays(st.tableSets, st.playerTiles).tilesPlayed == 0
    ensures Conserves(st, HardPlay(st, Corrected))
  {
    var table, hand := st.tableSets, st.playerTiles;
    UniqueReady(table, hand);
    var manip := AllManipulations(hand, table, Corrected);
    if manip.tilesPlayed > 0 {
      AllManipulationsSound(hand, table);
      SettledConserves(st, manip);
      assert HardPlay(st, Corrected) == Played(manip, manip.tilesPlayed);
    } else {
      PlanConserves(Medium, st);
      assert HardPlay(st, Corrected) == Plan(Medium, st, RemainingHand);
    }
  }

  /** A manipulation that placed something, played on its own, only moves tiles. */
  lemma SettledConserves(st: BotState, manip: Extended)
    requires Settled(st.tableSets, st.playerTiles, manip) && manip.tilesPlayed > 0
    ensures Conserves(st, Played(manip, manip.tilesPlayed))
  {
  }

  /**
   * When the Hard bot plays by manipulation alone, the table it leaves is valid, as written
   * too: every manipulation checks the table it builds.
   */
  lemma ManipulationLeavesValid(st: BotState, v: Reading)
    requires Unique(AllIds(st.tableSets, st.playerTiles)) && st.hasPlayedInitialMeld
    requires SimplePlays(st.tableSets, st.playerTiles).tilesPlayed == 0
    requires AllManipulations(st.playerTiles, st.tableSets, v).tilesPlayed > 0
    ensures HardPlay(st, v).Play? && AllValid(HardPlay(st, v).tableSets)
  {
    var hand, table := st.playerTiles, st.tableSets;
    UniqueReady(table, hand);
    var j := AllManipulationsBest(hand, table, v);
    var answers := Answers(hand, hand, table, v);
    AnswersValid(hand, hand, table, v);
    assert answers[j] in answers;
  }

  /** An answer of a manipulation, in either reading, lays a valid table. */
  predicate LaysValid(a: Option<Extended>) {
    a.Some? ==> AllValid(a.value.tableSets)
  }

  lemma TileAnswersValid(tile: Tile, hand: seq<Tile>, table: seq<seq<Tile>>, v: Reading)
    requires Distinct(IdsOf(hand)) && tile in hand && SetsDistinct(table)
    ensures forall a <- TileAnswers(tile, hand, table, v) :: LaysValid(a)
  {
    RunEndLaysValid(tile, hand, table);
    FromGroupLaysValid(tile, hand, table);
    SplitLaysValid(tile, hand, table);
    CombineLaysValid(tile, hand, table, v);
  }

  lemma RunEndLaysValid(tile: Tile, hand: seq<Tile>, table: seq<seq<Tile>>)
    requires Distinct(IdsOf(hand)) && tile in hand && SetsDistinct(table)
    ensures LaysValid(TakeRunEnd(tile, hand, table))
  {
    TakeRunEndSound(tile, hand, table);
  }

  lemma FromGroupLaysValid(tile: Tile, hand: seq<Tile>, table: seq<seq<Tile>>)
    requires Distinct(IdsOf(hand)) && tile in hand && SetsDistinct(table)
    ensures LaysValid(TakeFromGroup(tile, hand, table))
  {
    TakeFromGroupSound(tile, hand, table);
  }

  lemma SplitLaysValid(tile: Tile, hand: seq<Tile>, table: seq<seq<Tile>>)
    requires Distinct(IdsOf(hand)) && tile in hand
    ensures LaysValid(SplitRun(tile, hand, table))
  {
    SplitRunSound(tile, hand, table);
  }

  lemma CombineLaysValid(tile: Tile, hand: seq<Tile>, table: seq<seq<Tile>>, v: Reading)
    requires Distinct(IdsOf(hand)) && tile in hand && SetsDistinct(table)
    ensures LaysValid(Combine(tile, hand, table, v))
  {
    if v == Corrected {
      CombineSetsSound(tile, hand, table);
    }
  }

  lemma {:induction false} AnswersValid(tiles: seq<Tile>, hand: seq<Tile>, table: seq<seq<Tile>>, v: Reading)
    requires Distinct(IdsOf(hand)) && SetsDistinct(table) && forall t <- tiles :: t in hand
    ensures forall a <- Answers(tiles, hand, table, v) :: LaysValid(a)
  {
    if tiles != [] {
      TileAnswersValid(tiles[0], hand, table, v);
      AnswersValid(tiles[1..], hand, table, v);
    }
  }
}
