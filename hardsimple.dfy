/**
 * The Hard bot's plays that leave the table's sets in place: extending sets until a whole
 * pass adds nothing (extendExistingSets), then laying the hand's own groups and runs
 * (playNewSetsFromHand, findAllPossibleSets), the two together being trySimplePlays.
 */
module HardSimple {
  import opened Tiles
  import opened Ordering
  import opened Rules
  import opened BotSets
  import opened Extension
  import opened Candidates

  // ---------------------------------------------------------------------------
  // extendExistingSets
  // ---------------------------------------------------------------------------

  /**
   * The `while (changed)` loop, from the table and hand it has reached and the tiles played
   * so far: another pass, and again while a pass lays a tile. Tiles leave the hand by
   * `filter` on their id.
   */
  function Exhaust(table: seq<seq<Tile>>, hand: seq<Tile>, played: nat): Extended
    decreases |hand|
  {
    var pass := ExtendAll(table, hand, FilterOut);
    if pass.tilesPlayed == 0 then Extended(pass.tableSets, pass.remaining, played)
    else
      ExtendAllShrinks(table, hand, FilterOut);
      Exhaust(pass.tableSets, pass.remaining, played + pass.tilesPlayed)
  }

  /** extendExistingSets */
  function ExtendExisting(table: seq<seq<Tile>>, hand: seq<Tile>): Extended {
    Exhaust(table, hand, 0)
  }

  /** extendExistingSets: passes until one changes nothing. */
  method ExtendExistingSets(playerTiles: seq<Tile>, tableSets: seq<seq<Tile>>) returns (r: Extended)
    ensures r == ExtendExisting(tableSets, playerTiles)
  {
    var remainingTiles := playerTiles;
    var newTableSets := tableSets;
    var tilesPlayed: nat := 0;
    var changed := true;
    while changed
      invariant Pending(newTableSets, remainingTiles, tilesPlayed, changed, ExtendExisting(tableSets, playerTiles))
      decreases |remainingTiles| + (if changed then 1 else 0)
    {
      var pass := TryExtendSets(remainingTiles, newTableSets, FilterOut);
      PendingStep(newTableSets, remainingTiles, tilesPlayed, pass, ExtendExisting(tableSets, playerTiles));
      changed := pass.tilesPlayed > 0;
      newTableSets, remainingTiles, tilesPlayed := pass.tableSets, pass.remaining, tilesPlayed + pass.tilesPlayed;
    }
    r := Extended(newTableSets, remainingTiles, tilesPlayed);
  }

  /** Loop invariant of ExtendExistingSets: what is left to do still ends in `goal`. */
  predicate Pending(table: seq<seq<Tile>>, hand: seq<Tile>, played: nat, changed: bool, goal: Extended) {
    if changed then Exhaust(table, hand, played) == goal else Extended(table, hand, played) == goal
  }

  lemma {:induction false} PendingStep(table: seq<seq<Tile>>, hand: seq<Tile>, played: nat, pass: Extended, goal: Extended)
    requires Exhaust(table, hand, played) == goal && pass == ExtendAll(table, hand, FilterOut)
    ensures Pending(pass.tableSets, pass.remaining, played + pass.tilesPlayed, pass.tilesPlayed > 0, goal)
    ensures |pass.remaining| + pass.tilesPlayed <= |hand|
  {
    var p := ExhaustStep(table, hand, played);
    ExtendAllShrinks(table, hand, FilterOut);
  }

  /**
   * The loop ends settled: one more pass over what it leaves would lay nothing. The played
   * count only grows.
   */
  lemma {:induction false} ExhaustSettled(table: seq<seq<Tile>>, hand: seq<Tile>, played: nat)
    ensures var r := Exhaust(table, hand, played);
      ExtendAll(r.tableSets, r.remaining, FilterOut).tilesPlayed == 0 && r.tilesPlayed >= played
    decreases |hand|
  {
    var pass := ExhaustStep(table, hand, played);
    if pass.tilesPlayed > 0 {
      ExhaustSettled(pass.tableSets, pass.remaining, played + pass.tilesPlayed);
    }
  }

  /**
   * From `table`, `hand` and `played` to `r`: the ids of table and hand together are kept,
   * the tiles counted as played are the tiles the hand lost, and the hand's ids stay distinct.
   */
  predicate MovedFrom(table: seq<seq<Tile>>, hand: seq<Tile>, played: nat, r: Extended) {
    && IdBag(Flatten(table)) + IdBag(hand) == IdBag(Flatten(r.tableSets)) + IdBag(r.remaining)
    && |r.remaining| + r.tilesPlayed == |hand| + played
    && Distinct(IdsOf(r.remaining))
  }

  /** With the hand's ids distinct, the loop only moves tiles. */
  lemma {:induction false} ExhaustMoves(table: seq<seq<Tile>>, hand: seq<Tile>, played: nat)
    requires Distinct(IdsOf(hand))
    ensures MovedFrom(table, hand, played, Exhaust(table, hand, played))
    decreases |hand|
  {
    var pass := ExhaustStepMoves(table, hand, played);
    if pass.tilesPlayed > 0 {
      var next: nat := played + pass.tilesPlayed;
      ExhaustMoves(pass.tableSets, pass.remaining, next);
      MovesChain(table, hand, pass, Exhaust(pass.tableSets, pass.remaining, next), Exhaust(table, hand, played), played);
    } else {
      IdleMoved(table, hand, played, Exhaust(table, hand, played));
    }
  }

  /**
   * One turn of the loop, as what the pass does and what the loop does after it: stop when
   * the pass lays nothing, go on from a shorter hand otherwise.
   */
  lemma {:induction false} ExhaustStep(table: seq<seq<Tile>>, hand: seq<Tile>, played: nat) returns (pass: Extended)
    ensures pass == ExtendAll(table, hand, FilterOut)
    ensures pass.tilesPlayed == 0 ==> Exhaust(table, hand, played) == Extended(table, hand, played)
    ensures pass.tilesPlayed > 0 ==> |pass.remaining| < |hand|
    ensures pass.tilesPlayed > 0 ==>
      Exhaust(table, hand, played) == Exhaust(pass.tableSets, pass.remaining, played + pass.tilesPlayed)
  {
    pass := ExtendAll(table, hand, FilterOut);
    if pass.tilesPlayed > 0 {
      ExtendAllShrinks(table, hand, FilterOut);
      ExhaustAgain(table, hand, played);
    } else {
      ExtendAllIdle(table, hand, FilterOut);
      ExhaustIdle(table, hand, played);
    }
  }

  /** As ExhaustStep, and the pass conserves the ids. */
  lemma {:induction false} ExhaustStepMoves(table: seq<seq<Tile>>, hand: seq<Tile>, played: nat) returns (pass: Extended)
    requires Distinct(IdsOf(hand))
    ensures PassConserved(table, hand, pass, FilterOut)
    ensures pass.tilesPlayed == 0 ==> Exhaust(table, hand, played) == Extended(table, hand, played)
    ensures pass.tilesPlayed > 0 ==> |pass.remaining| < |hand|
    ensures pass.tilesPlayed > 0 ==>
      Exhaust(table, hand, played) == Exhaust(pass.tableSets, pass.remaining, played + pass.tilesPlayed)
  {
    pass := ExhaustStep(table, hand, played);
    ExtendAllConserves(table, hand, FilterOut);
  }

  /** A pass that lays a tile is followed by the rest of the loop. */
  lemma {:induction false} ExhaustAgain(table: seq<seq<Tile>>, hand: seq<Tile>, played: nat)
    requires ExtendAll(table, hand, FilterOut).tilesPlayed > 0
    ensures var pass := ExtendAll(table, hand, FilterOut);
      Exhaust(table, hand, played) == Exhaust(pass.tableSets, pass.remaining, played + pass.tilesPlayed)
  {
    ExtendAllShrinks(table, hand, FilterOut);
  }

  /** A pass that lays nothing ends the loop. */
  lemma {:induction false} ExhaustIdle(table: seq<seq<Tile>>, hand: seq<Tile>, played: nat)
    requires ExtendAll(table, hand, FilterOut).tilesPlayed == 0
    ensures var pass := ExtendAll(table, hand, FilterOut);
      Exhaust(table, hand, played) == Extended(pass.tableSets, pass.remaining, played)
  {
  }

  lemma IdleMoved(table: seq<seq<Tile>>, hand: seq<Tile>, played: nat, r: Extended)
    requires Distinct(IdsOf(hand)) && r == Extended(table, hand, played)
    ensures MovedFrom(table, hand, played, r)
  {
  }

  lemma MovesChain(table: seq<seq<Tile>>, hand: seq<Tile>, pass: Extended, rest: Extended, r: Extended, played: nat)
    requires PassConserved(table, hand, pass, FilterOut)
    requires MovedFrom(pass.tableSets, pass.remaining, played + pass.tilesPlayed, rest) && r == rest
    ensures MovedFrom(table, hand, played, r)
  {
  }

  /** A table of well-laid sets stays well laid, however many passes run. */
  lemma {:induction false} ExhaustValid(table: seq<seq<Tile>>, hand: seq<Tile>, played: nat)
    requires forall s <- table :: WellLaid(s)
    ensures forall s <- Exhaust(table, hand, played).tableSets :: WellLaid(s)
    decreases |hand|
  {
    var pass := ExhaustStep(table, hand, played);
    ExtendAllValid(table, hand, FilterOut);
    if pass.tilesPlayed > 0 {
      ExhaustValid(pass.tableSets, pass.remaining, played + pass.tilesPlayed);
    }
  }

  /** extendExistingSets only moves tiles, and stops only when no set can take another. */
  lemma ExtendExistingMoves(table: seq<seq<Tile>>, hand: seq<Tile>)
    requires Distinct(IdsOf(hand))
    ensures var r := ExtendExisting(table, hand);
      && MovedFrom(table, hand, 0, r)
      && ExtendAll(r.tableSets, r.remaining, FilterOut).tilesPlayed == 0
  {
    ExhaustMoves(table, hand, 0);
    ExhaustSettled(table, hand, 0);
  }

  // ---------------------------------------------------------------------------
  // findAllPossibleSets (Hard)
  // ---------------------------------------------------------------------------

  /**
   * What Hard's candidate sets are: three or four tiles of one number in distinct colours,
   * or three or more tiles of one colour numbered one apart; never a joker, and distinct
   * tiles of the hand.
   */
  ghost predicate HardCandidate(s: seq<Tile>, tiles: seq<Tile>) {
    && ((exists n :: JokerlessGroup(s, n)) || (exists c :: JokerlessRun(s, c)))
    && (forall t <- s :: t in tiles)
    && Distinct(s)
  }

  /**
   * The group of number `n`: the first tile of each colour, colours in order of first
   * occurrence, pushed when there are at least 3 (and cut to 4).
   */
  function GroupOfNumber(tiles: seq<Tile>, n: int): seq<seq<Tile>> {
    var ts := OfNumber(tiles, n);
    KeysPresent(ts);
    var unique := TilesFor(ts, ColorKeys(ts));
    if |unique| >= 3 then [unique[..Min(4, |unique|)]] else []
  }

  function Min(a: int, b: int): int {
    if a <= b then a else b
  }

  lemma GroupOfNumberSound(tiles: seq<Tile>, n: int)
    ensures forall g <- GroupOfNumber(tiles, n) :: JokerlessGroup(g, n) && HardCandidate(g, tiles)
  {
    var ts := OfNumber(tiles, n);
    KeysPresent(ts);
    var unique := TilesFor(ts, ColorKeys(ts));
    if |unique| >= 3 {
      UniqueGroup(tiles, n, ts, unique);
      assert unique[..Min(4, |unique|)] == unique;
      assert HardCandidate(unique, tiles);
    }
  }

  /** The first tile of each colour among the tiles numbered `n`, when three or more, form a group. */
  lemma {:induction false} UniqueGroup(tiles: seq<Tile>, n: int, ts: seq<Tile>, unique: seq<Tile>)
    requires ts == OfNumber(tiles, n) && Present(ts, ColorKeys(ts))
    requires unique == TilesFor(ts, ColorKeys(ts)) && |unique| >= 3
    ensures |unique| <= 4 && JokerlessGroup(unique, n)
    ensures Distinct(unique) && forall t <- unique :: t in tiles
  {
    UniqueMembers(tiles, n, ts, unique);
    TilesForColors(ts, ColorKeys(ts));
    DistinctColorsBound(ColorsOf(unique));
    DistinctColorsDistinct(unique);
  }

  lemma {:induction false} UniqueMembers(tiles: seq<Tile>, n: int, ts: seq<Tile>, unique: seq<Tile>)
    requires ts == OfNumber(tiles, n) && Present(ts, ColorKeys(ts))
    requires unique == TilesFor(ts, ColorKeys(ts))
    ensures forall t <- unique :: t in tiles && t.Numbered? && t.number == n
  {
    forall t <- unique ensures t in tiles && t.Numbered? && t.number == n {
      var i :| 0 <= i < |unique| && unique[i] == t;
    }
  }

  /** Four colours: no more than four can be pairwise distinct. */
  lemma DistinctColorsBound(cs: seq<Color>)
    requires Distinct(cs)
    ensures |cs| <= 4
  {
    var all: set<Color> := {Black, Red, Blue, Orange};
    var s := set c <- cs;
    assert s <= all by {
      forall c <- s ensures c in all {
        assert c == Black || c == Red || c == Blue || c == Orange;
      }
    }
    assert |all| == 4;
    DistinctCard(cs);
    SubsetCard(s, all);
  }

  lemma {:induction false} DistinctCard<T>(xs: seq<T>)
    requires Distinct(xs)
    ensures |(set x <- xs)| == |xs|
  {
    if xs != [] {
      var rest := xs[1..];
      assert Distinct(rest) by {
        forall i, j | 0 <= i < j < |rest| ensures rest[i] != rest[j] {
          assert xs[i + 1] != xs[j + 1];
        }
      }
      DistinctCard(rest);
      assert xs[0] !in rest by {
        forall j | 0 <= j < |rest| ensures rest[j] != xs[0] {
          assert xs[j + 1] != xs[0];
        }
      }
      assert (set x <- xs) == (set x <- rest) + {xs[0]};
    }
  }

  lemma SubsetCard<T>(a: set<T>, b: set<T>)
    requires a <= b
    ensures |a| <= |b|
  {
    assert b == a + (b - a);
  }

  /** Tiles of pairwise distinct colours are pairwise distinct tiles. */
  lemma DistinctColorsDistinct(g: seq<Tile>)
    requires forall t <- g :: t.Numbered?
    requires Distinct(ColorsOf(g))
    ensures Distinct(g)
  {
    ColorsOfAt(g);
    forall i, j | 0 <= i < j < |g| ensures g[i] != g[j] {
      assert ColorsOf(g)[i] != ColorsOf(g)[j];
    }
  }

  /** The groups, number by number in the key order of `byNumber`. */
  function HardGroups(tiles: seq<Tile>, keys: seq<int>): seq<seq<Tile>> {
    if keys == [] then [] else GroupOfNumber(tiles, keys[0]) + HardGroups(tiles, keys[1..])
  }

  lemma {:induction false} HardGroupsSound(tiles: seq<Tile>, keys: seq<int>)
    ensures forall g <- HardGroups(tiles, keys) :: HardCandidate(g, tiles)
  {
    if keys != [] {
      GroupOfNumberSound(tiles, keys[0]);
      HardGroupsSound(tiles, keys[1..]);
    }
  }

  /**
   * The `i` loop: from `i`, while each tile is numbered one above the one before it. The end
   * is where that first fails, or the end of `u`.
   */
  function RunEnd(u: seq<Tile>, i: nat): (e: nat)
    requires 1 <= i <= |u|
    ensures i <= e <= |u|
    ensures e < |u| ==> NumberOf(u[e]) != NumberOf(u[e - 1]) + 1
    ensures forall j :: i <= j < e ==> NumberOf(u[j]) == NumberOf(u[j - 1]) + 1
    decreases |u| - i
  {
    if i < |u| && NumberOf(u[i]) == NumberOf(u[i - 1]) + 1 then RunEnd(u, i + 1) else i
  }

  /** The `start` loop: from each start, the longest consecutive stretch, kept if it has 3 tiles. */
  function LongestRuns(u: seq<Tile>, start: nat): seq<seq<Tile>>
    decreases |u| - start
  {
    if start + 2 >= |u| then []
    else
      var run := u[start..RunEnd(u, start + 1)];
      (if |run| >= 3 then [run] else []) + LongestRuns(u, start + 1)
  }

  /** A stretch of `u` that cannot be made longer at its end. */
  predicate LongestFrom(run: seq<Tile>, u: seq<Tile>) {
    exists a, b :: 0 <= a < b <= |u| && run == u[a..b] && (b == |u| || NumberOf(u[b]) != NumberOf(u[b - 1]) + 1)
  }

  /**
   * Every run cut is at least three tiles numbered one apart, a stretch of `u` that stops
   * only where the numbering breaks.
   */
  lemma {:induction false} LongestRunsShape(u: seq<Tile>, start: nat)
    ensures forall run <- LongestRuns(u, start) :: |run| >= 3 && Consecutive(run) && LongestFrom(run, u)
    decreases |u| - start
  {
    if start + 2 < |u| {
      var e := RunEnd(u, start + 1);
      var run := u[start..e];
      assert Consecutive(run) by {
        forall i | 1 <= i < |run| ensures NumberOf(run[i]) == NumberOf(run[i - 1]) + 1 {
          assert run[i] == u[start + i] && run[i - 1] == u[start + i - 1];
        }
      }
      assert LongestFrom(run, u);
      LongestRunsShape(u, start + 1);
    }
  }

  /** The runs of one colour, cut from its tiles sorted by number with one tile per number. */
  function HardRunsOfColor(tiles: seq<Tile>, color: Color): seq<seq<Tile>> {
    LongestRuns(UniqueOfColor(tiles, color), 0)
  }

  lemma HardRunsOfColorSound(tiles: seq<Tile>, color: Color)
    ensures forall run <- HardRunsOfColor(tiles, color) :: JokerlessRun(run, color) && HardCandidate(run, tiles)
  {
    var u := UniqueOfColor(tiles, color);
    LongestRunsShape(u, 0);
    forall run <- LongestRuns(u, 0) ensures JokerlessRun(run, color) && HardCandidate(run, tiles) {
      StretchOf(run, u, tiles, color);
    }
  }

  lemma StretchOf(run: seq<Tile>, u: seq<Tile>, tiles: seq<Tile>, color: Color)
    requires forall t <- u :: t in tiles && t.Numbered? && t.color == color
    requires |run| >= 3 && Consecutive(run) && LongestFrom(run, u)
    ensures JokerlessRun(run, color) && HardCandidate(run, tiles)
  {
    var a, b :| 0 <= a < b <= |u| && run == u[a..b];
    assert forall t <- run :: t in u;
    ConsecutiveDistinct(run);
    assert JokerlessRun(run, color);
  }

  /** Numbers rising by one from tile to tile never repeat, so the tiles are distinct. */
  lemma ConsecutiveDistinct(run: seq<Tile>)
    requires Consecutive(run)
    ensures Distinct(run)
  {
    forall i, j | 0 <= i < j < |run| ensures run[i] != run[j] {
      ConsecutiveRise(run, i, j);
    }
  }

  lemma {:induction false} ConsecutiveRise(run: seq<Tile>, i: nat, j: nat)
    requires Consecutive(run) && i <= j < |run|
    ensures NumberOf(run[j]) == NumberOf(run[i]) + (j - i)
    decreases j - i
  {
    if i < j {
      ConsecutiveRise(run, i, j - 1);
    }
  }

  function HardRuns(tiles: seq<Tile>, colors: seq<Color>): seq<seq<Tile>> {
    if colors == [] then [] else HardRunsOfColor(tiles, colors[0]) + HardRuns(tiles, colors[1..])
  }

  lemma {:induction false} HardRunsSound(tiles: seq<Tile>, colors: seq<Color>)
    ensures forall run <- HardRuns(tiles, colors) :: HardCandidate(run, tiles)
  {
    if colors != [] {
      HardRunsOfColorSound(tiles, colors[0]);
      HardRunsSound(tiles, colors[1..]);
    }
  }

  /** findAllPossibleSets (Hard): the groups, then the runs colour by colour. */
  function HardPossibleSets(tiles: seq<Tile>): seq<seq<Tile>> {
    HardGroups(tiles, NumberKeys(tiles)) + HardRuns(tiles, Colors)
  }

  lemma HardPossibleSetsSound(tiles: seq<Tile>)
    ensures forall s <- HardPossibleSets(tiles) :: HardCandidate(s, tiles)
  {
    HardGroupsSound(tiles, NumberKeys(tiles));
    HardRunsSound(tiles, Colors);
  }

  // ---------------------------------------------------------------------------
  // playNewSetsFromHand
  // ---------------------------------------------------------------------------

  /** `set.every(t => remainingTiles.some(rt => rt.id === t.id))` */
  predicate AllAvailable(s: seq<Tile>, hand: seq<Tile>) {
    forall t <- s :: t.id in IdSet(hand)
  }

  /** The `for (const tile of set)` loop: filter out each tile's id in turn. */
  function RemoveIds(hand: seq<Tile>, s: seq<Tile>): seq<Tile> {
    if s == [] then hand else RemoveId(RemoveIds(hand, s[..|s| - 1]), s[|s| - 1].id)
  }

  /** The test playNewSetsFromHand puts each candidate to: isValidSet. */
  predicate Valid(s: seq<Tile>) {
    IsValidSet(s).valid
  }

  /**
   * The loop over the candidates, for an acceptance test `accept`: each candidate still
   * wholly in the hand and accepted is pushed, its tiles leave the hand and each counts as
   * played. The lemmas below hold for any test; the bot's is Valid.
   */
  function LayEach(accept: seq<Tile> -> bool, sets: seq<seq<Tile>>, hand: seq<Tile>, table: seq<seq<Tile>>,
                   played: nat): Extended
  {
    if sets == [] then Extended(table, hand, played)
    else if AllAvailable(sets[0], hand) && accept(sets[0]) then
      LayEach(accept, sets[1..], RemoveIds(hand, sets[0]), table + [sets[0]], played + |sets[0]|)
    else LayEach(accept, sets[1..], hand, table, played)
  }

  /** The loop of playNewSetsFromHand, from the table and hand it starts with. */
  function PlayNew(sets: seq<seq<Tile>>, hand: seq<Tile>, table: seq<seq<Tile>>): Extended {
    LayEach(Valid, sets, hand, table, 0)
  }

  /** One candidate: laid when available and accepted, skipped otherwise. */
  lemma LayEachStep(accept: seq<Tile> -> bool, sets: seq<seq<Tile>>, hand: seq<Tile>, table: seq<seq<Tile>>,
                    played: nat)
    requires sets != []
    ensures AllAvailable(sets[0], hand) && accept(sets[0]) ==>
      LayEach(accept, sets, hand, table, played)
        == LayEach(accept, sets[1..], RemoveIds(hand, sets[0]), table + [sets[0]], played + |sets[0]|)
    ensures !(AllAvailable(sets[0], hand) && accept(sets[0])) ==>
      LayEach(accept, sets, hand, table, played) == LayEach(accept, sets[1..], hand, table, played)
  {
  }

  /** `t` is `table` followed by sets of `sets`, each accepted. */
  predicate Grows(accept: seq<Tile> -> bool, table: seq<seq<Tile>>, t: seq<seq<Tile>>, sets: seq<seq<Tile>>) {
    && |table| <= |t| && t[..|table|] == table
    && forall s <- t[|table|..] :: accept(s) && s in sets
  }

  /** The table keeps its sets and gains candidates, each accepted. */
  lemma {:induction false} LayEachShape(accept: seq<Tile> -> bool, sets: seq<seq<Tile>>, hand: seq<Tile>,
                                        table: seq<seq<Tile>>, played: nat)
    ensures Grows(accept, table, LayEach(accept, sets, hand, table, played).tableSets, sets)
  {
    if sets == [] {
      assert table[|table|..] == [];
    } else {
      var s := sets[0];
      LayEachStep(accept, sets, hand, table, played);
      if AllAvailable(s, hand) && accept(s) {
        LayEachShape(accept, sets[1..], RemoveIds(hand, s), table + [s], played + |s|);
        GrowsLaid(accept, table, sets, LayEach(accept, sets[1..], RemoveIds(hand, s), table + [s], played + |s|).tableSets,
          LayEach(accept, sets, hand, table, played).tableSets);
      } else {
        LayEachShape(accept, sets[1..], hand, table, played);
        GrowsSkip(accept, table, sets, LayEach(accept, sets[1..], hand, table, played).tableSets,
          LayEach(accept, sets, hand, table, played).tableSets);
      }
    }
  }

  lemma GrowsLaid(accept: seq<Tile> -> bool, table: seq<seq<Tile>>, sets: seq<seq<Tile>>, rest: seq<seq<Tile>>,
                  t: seq<seq<Tile>>)
    requires sets != [] && accept(sets[0])
    requires Grows(accept, table + [sets[0]], rest, sets[1..]) && t == rest
    ensures Grows(accept, table, t, sets)
  {
    assert t[|table|..] == [sets[0]] + t[|table| + 1..];
    assert t[..|table|] == (table + [sets[0]])[..|table|];
    assert forall x <- sets[1..] :: x in sets;
  }

  lemma GrowsSkip(accept: seq<Tile> -> bool, table: seq<seq<Tile>>, sets: seq<seq<Tile>>, rest: seq<seq<Tile>>,
                  t: seq<seq<Tile>>)
    requires sets != [] && Grows(accept, table, rest, sets[1..]) && t == rest
    ensures Grows(accept, table, t, sets)
  {
    assert forall x <- sets[1..] :: x in sets;
  }

  /** playNewSetsFromHand keeps the table's sets and adds candidates isValidSet accepts. */
  lemma PlayNewShape(sets: seq<seq<Tile>>, hand: seq<Tile>, table: seq<seq<Tile>>)
    ensures var t := PlayNew(sets, hand, table).tableSets;
      && |table| <= |t| && t[..|table|] == table
      && forall s <- t[|table|..] :: IsValidSet(s).valid && s in sets
  {
    LayEachShape(Valid, sets, hand, table, 0);
  }

  // Conservation

  /** Filtering out an id present once takes exactly that id out of the hand. */
  lemma RemoveIdMoves(hand: seq<Tile>, id: int)
    requires Distinct(IdsOf(hand)) && id in IdSet(hand)
    ensures IdBag(RemoveId(hand, id)) + multiset{id} == IdBag(hand)
    ensures |RemoveId(hand, id)| + 1 == |hand|
    ensures Distinct(IdsOf(RemoveId(hand, id)))
  {
    var t :| t in hand && t.id == id;
    var k :| 0 <= k < |hand| && hand[k] == t;
    RemoveIdIsSplice(hand, k);
    SpliceBag(hand, k);
    SpliceDistinctIds(hand, k);
  }

  /**
   * Filtering out the ids of a set whose ids are distinct and all in the hand moves exactly
   * those ids.
   */
  lemma {:induction false} RemoveIdsMoves(hand: seq<Tile>, s: seq<Tile>)
    requires Distinct(IdsOf(hand)) && Distinct(IdsOf(s)) && AllAvailable(s, hand)
    ensures IdBag(RemoveIds(hand, s)) + IdBag(s) == IdBag(hand)
    ensures |RemoveIds(hand, s)| + |s| == |hand|
    ensures Distinct(IdsOf(RemoveIds(hand, s)))
  {
    if s != [] {
      var init, last := s[..|s| - 1], s[|s| - 1];
      assert s == init + [last];
      IdBagConcat(init, [last]);
      DistinctIdsLast(s);
      RemoveIdsMoves(hand, init);
      RemoveIdsStays(hand, init);
      var before := RemoveIds(hand, init);
      assert last.id in IdSet(before) by {
        var u :| u in hand && u.id == last.id;
        assert u in before;
      }
      RemoveIdMoves(before, last.id);
    }
  }

  lemma RemoveIdsDistinct(hand: seq<Tile>, s: seq<Tile>)
    requires Distinct(IdsOf(hand)) && Distinct(IdsOf(s)) && AllAvailable(s, hand)
    ensures Distinct(IdsOf(RemoveIds(hand, s)))
  {
    RemoveIdsMoves(hand, s);
  }

  /** The tiles whose ids the set does not carry stay in the hand. */
  lemma {:induction false} RemoveIdsStays(hand: seq<Tile>, s: seq<Tile>)
    ensures forall t <- hand :: t.id !in IdSet(s) ==> t in RemoveIds(hand, s)
  {
    if s != [] {
      var init, last := s[..|s| - 1], s[|s| - 1];
      assert s == init + [last];
      RemoveIdsStays(hand, init);
      forall t <- hand | t.id !in IdSet(s) ensures t in RemoveIds(hand, s) {
        assert t.id !in IdSet(init) by {
          forall u <- init ensures u.id != t.id {
            assert u in s;
          }
        }
        assert last in s;
      }
    }
  }

  /** Without its last tile a list of distinct ids keeps them distinct and lacks the last id. */
  lemma {:induction false} DistinctIdsLast(s: seq<Tile>)
    requires s != [] && Distinct(IdsOf(s))
    ensures Distinct(IdsOf(s[..|s| - 1])) && s[|s| - 1].id !in IdSet(s[..|s| - 1])
  {
    DistinctIdsInit(s);
    LastIdFresh(s);
  }

  lemma {:induction false} DistinctIdsInit(s: seq<Tile>)
    requires s != [] && Distinct(IdsOf(s))
    ensures Distinct(IdsOf(s[..|s| - 1]))
  {
    var init := s[..|s| - 1];
    assert s == init + [s[|s| - 1]];
    IdsOfConcat(init, [s[|s| - 1]]);
    forall i, j | 0 <= i < j < |IdsOf(init)| ensures IdsOf(init)[i] != IdsOf(init)[j] {
      assert IdsOf(s)[i] == IdsOf(init)[i] && IdsOf(s)[j] == IdsOf(init)[j];
    }
  }

  lemma {:induction false} LastIdFresh(s: seq<Tile>)
    requires s != [] && Distinct(IdsOf(s))
    ensures s[|s| - 1].id !in IdSet(s[..|s| - 1])
  {
    var init, last := s[..|s| - 1], s[|s| - 1];
    IdsOfAt(s, |s| - 1);
    forall u <- init ensures u.id != last.id {
      var i :| 0 <= i < |init| && init[i] == u;
      IdsOfAt(s, i);
    }
  }

  /** Each candidate's ids are distinct. */
  predicate DistinctSets(sets: seq<seq<Tile>>) {
    sets == [] || (Distinct(IdsOf(sets[0])) && DistinctSets(sets[1..]))
  }

  lemma {:induction false} DistinctSetsEach(sets: seq<seq<Tile>>)
    requires forall s <- sets :: Distinct(IdsOf(s))
    ensures DistinctSets(sets)
  {
    if sets != [] {
      assert forall x <- sets[1..] :: x in sets;
      DistinctSetsEach(sets[1..]);
    }
  }

  /**
   * What the loop does with the sets it lays, `laid`: the table grows by them, the hand
   * loses the ids of their tiles and the count grows by the number of those tiles.
   */
  predicate LaysOut(table: seq<seq<Tile>>, hand: seq<Tile>, played: nat, laid: seq<seq<Tile>>, r: Extended) {
    var tiles := Flatten(laid);
    && r.tableSets == table + laid
    && r.remaining == RemoveIds(hand, tiles)
    && r.tilesPlayed == played + |tiles|
  }

  /** The laid tiles are tiles of the hand, no id twice. */
  predicate FromHand(hand: seq<Tile>, laid: seq<seq<Tile>>) {
    Distinct(IdsOf(Flatten(laid))) && AllAvailable(Flatten(laid), hand)
  }

  /**
   * The loop lays some sets and only those: the table grows by them, the hand loses their
   * ids, and, with the hand's ids distinct and each candidate's too, they are tiles of the
   * hand with no id twice.
   */
  lemma {:induction false} LayEachLays(accept: seq<Tile> -> bool, sets: seq<seq<Tile>>, hand: seq<Tile>,
                                       table: seq<seq<Tile>>, played: nat) returns (laid: seq<seq<Tile>>)
    ensures LaysOut(table, hand, played, laid, LayEach(accept, sets, hand, table, played))
    ensures Distinct(IdsOf(hand)) && DistinctSets(sets) ==> FromHand(hand, laid)
    decreases |sets|, 1
  {
    if sets == [] {
      laid := [];
      assert table + laid == table;
    } else if AllAvailable(sets[0], hand) && accept(sets[0]) {
      laid := LayEachLaysLaid(accept, sets, hand, table, played);
    } else {
      LayEachStep(accept, sets, hand, table, played);
      laid := LayEachLays(accept, sets[1..], hand, table, played);
    }
  }

  lemma {:induction false} LayEachLaysLaid(accept: seq<Tile> -> bool, sets: seq<seq<Tile>>, hand: seq<Tile>,
                                           table: seq<seq<Tile>>, played: nat) returns (laid: seq<seq<Tile>>)
    requires sets != [] && AllAvailable(sets[0], hand) && accept(sets[0])
    ensures LaysOut(table, hand, played, laid, LayEach(accept, sets, hand, table, played))
    ensures Distinct(IdsOf(hand)) && DistinctSets(sets) ==> FromHand(hand, laid)
    decreases |sets|, 0
  {
    var t2, h2, p2 := table + [sets[0]], RemoveIds(hand, sets[0]), played + |sets[0]|;
    var next := LayEach(accept, sets[1..], h2, t2, p2);
    var rest := LayEachLays(accept, sets[1..], h2, t2, p2);
    laid := LaidStep(accept, sets, hand, table, played, rest, t2, h2, p2, next);
    FromHandStep(hand, sets, rest);
  }

  /** Laying the first candidate puts it in front of the sets the rest of the loop lays. */
  lemma LaidStep(accept: seq<Tile> -> bool, sets: seq<seq<Tile>>, hand: seq<Tile>, table: seq<seq<Tile>>,
                 played: nat, rest: seq<seq<Tile>>, t2: seq<seq<Tile>>, h2: seq<Tile>, p2: nat, next: Extended)
    returns (laid: seq<seq<Tile>>)
    requires sets != [] && AllAvailable(sets[0], hand) && accept(sets[0])
    requires t2 == table + [sets[0]] && h2 == RemoveIds(hand, sets[0]) && p2 == played + |sets[0]|
    requires next == LayEach(accept, sets[1..], h2, t2, p2) && LaysOut(t2, h2, p2, rest, next)
    ensures laid == [sets[0]] + rest
    ensures LaysOut(table, hand, played, laid, LayEach(accept, sets, hand, table, played))
  {
    var s := sets[0];
    laid := [s] + rest;
    LaysCons(table, hand, played, s, rest, t2, h2, p2, next);
    LayEachLaid(accept, sets, hand, table, played);
  }

  lemma {:induction false} LayEachLaid(accept: seq<Tile> -> bool, sets: seq<seq<Tile>>, hand: seq<Tile>,
                                       table: seq<seq<Tile>>, played: nat)
    requires sets != [] && AllAvailable(sets[0], hand) && accept(sets[0])
    ensures LayEach(accept, sets, hand, table, played)
      == LayEach(accept, sets[1..], RemoveIds(hand, sets[0]), table + [sets[0]], played + |sets[0]|)
  {
  }

  lemma {:induction false} FromHandStep(hand: seq<Tile>, sets: seq<seq<Tile>>, rest: seq<seq<Tile>>)
    requires sets != [] && AllAvailable(sets[0], hand)
    requires Distinct(IdsOf(RemoveIds(hand, sets[0]))) && DistinctSets(sets[1..]) ==> FromHand(RemoveIds(hand, sets[0]), rest)
    ensures Distinct(IdsOf(hand)) && DistinctSets(sets) ==> FromHand(hand, [sets[0]] + rest)
  {
    if Distinct(IdsOf(hand)) && DistinctSets(sets) {
      RemoveIdsDistinct(hand, sets[0]);
      FromHandCons(hand, sets[0], rest);
    }
  }

  lemma {:induction false} LaysCons(table: seq<seq<Tile>>, hand: seq<Tile>, played: nat, s: seq<Tile>, rest: seq<seq<Tile>>,
                 t2: seq<seq<Tile>>, h2: seq<Tile>, p2: nat, next: Extended)
    requires t2 == table + [s] && h2 == RemoveIds(hand, s) && p2 == played + |s|
    requires LaysOut(t2, h2, p2, rest, next)
    ensures LaysOut(table, hand, played, [s] + rest, next)
  {
    assert ([s] + rest)[1..] == rest;
    assert Flatten([s] + rest) == s + Flatten(rest);
    assert table + [s] + rest == table + ([s] + rest);
    RemoveIdsConcat(hand, s, Flatten(rest));
  }

  lemma {:induction false} FromHandCons(hand: seq<Tile>, s: seq<Tile>, rest: seq<seq<Tile>>)
    requires Distinct(IdsOf(s)) && AllAvailable(s, hand)
    requires FromHand(RemoveIds(hand, s), rest)
    ensures FromHand(hand, [s] + rest)
  {
    var tail := Flatten(rest);
    assert ([s] + rest)[1..] == rest;
    assert Flatten([s] + rest) == s + tail;
    RemoveIdsMembers(hand, s);
    forall t <- tail ensures t.id in IdSet(hand) && t.id !in IdSet(s) {
      var u :| u in RemoveIds(hand, s) && u.id == t.id;
    }
    DistinctIdsConcat(s, tail);
  }

  /** Filtering out the ids of `a` and then those of `b` is filtering out those of `a + b`. */
  lemma {:induction false} RemoveIdsConcat(hand: seq<Tile>, a: seq<Tile>, b: seq<Tile>)
    ensures RemoveIds(hand, a + b) == RemoveIds(RemoveIds(hand, a), b)
    decreases |b|
  {
    if b == [] {
      assert a + b == a;
    } else {
      var init := b[..|b| - 1];
      assert (a + b)[..|a + b| - 1] == a + init;
      assert (a + b)[|a + b| - 1] == b[|b| - 1];
      RemoveIdsConcat(hand, a, init);
    }
  }

  /** What is left of the hand are tiles of the hand, none with an id of the set. */
  lemma {:induction false} RemoveIdsMembers(hand: seq<Tile>, s: seq<Tile>)
    ensures forall t <- RemoveIds(hand, s) :: t in hand && t.id !in IdSet(s)
  {
    if s != [] {
      var init, last := s[..|s| - 1], s[|s| - 1];
      RemoveIdsMembers(hand, init);
      assert s == init + [last];
      forall t <- RemoveIds(hand, s) ensures t in hand && t.id !in IdSet(s) {
        assert t in RemoveIds(hand, init) && t.id != last.id;
        forall u <- s ensures u.id != t.id {
          if u in init {
            assert u.id in IdSet(init);
          }
        }
      }
    }
  }

  /** Two tile lists with distinct ids and no id in common concatenate to one with distinct ids. */
  lemma {:induction false} DistinctIdsConcat(a: seq<Tile>, b: seq<Tile>)
    requires Distinct(IdsOf(a)) && Distinct(IdsOf(b))
    requires forall t <- b :: t.id !in IdSet(a)
    ensures Distinct(IdsOf(a + b))
  {
    IdsOfConcat(a, b);
    forall x <- IdsOf(a) ensures x !in IdsOf(b) {
      var i :| 0 <= i < |IdsOf(a)| && IdsOf(a)[i] == x;
      IdsOfAt(a, i);
      assert a[i] in a;
      forall y <- IdsOf(b) ensures y != x {
        var j :| 0 <= j < |IdsOf(b)| && IdsOf(b)[j] == y;
        IdsOfAt(b, j);
        assert b[j] in b;
      }
    }
    DistinctConcat(IdsOf(a), IdsOf(b));
  }

  lemma {:induction false} DistinctConcat<T>(x: seq<T>, y: seq<T>)
    requires Distinct(x) && Distinct(y) && forall e <- x :: e !in y
    ensures Distinct(x + y)
  {
    forall i, j | 0 <= i < j < |x + y| ensures (x + y)[i] != (x + y)[j] {
      if i < |x| <= j {
        assert x[i] in x && (x + y)[j] == y[j - |x|];
      }
    }
  }

  /** Laying sets of distinct hand tiles only moves tiles. */
  lemma {:induction false} LaidConserves(table: seq<seq<Tile>>, hand: seq<Tile>, played: nat, laid: seq<seq<Tile>>, r: Extended)
    requires Distinct(IdsOf(hand)) && FromHand(hand, laid) && LaysOut(table, hand, played, laid, r)
    ensures MovedFrom(table, hand, played, r)
  {
    RemoveIdsMoves(hand, Flatten(laid));
    FlattenConcat(table, laid);
    IdBagConcat(Flatten(table), Flatten(laid));
  }

  /** With the hand's ids distinct and each candidate's too, the loop only moves tiles. */
  lemma LayEachMoves(accept: seq<Tile> -> bool, sets: seq<seq<Tile>>, hand: seq<Tile>, table: seq<seq<Tile>>,
                     played: nat)
    requires Distinct(IdsOf(hand)) && DistinctSets(sets)
    ensures MovedFrom(table, hand, played, LayEach(accept, sets, hand, table, played))
  {
    var laid := LayEachLays(accept, sets, hand, table, played);
    LaidConserves(table, hand, played, laid, LayEach(accept, sets, hand, table, played));
  }

  /** A candidate of distinct tiles from a hand with distinct ids has distinct ids. */
  lemma CandidateIds(s: seq<Tile>, tiles: seq<Tile>)
    requires Distinct(IdsOf(tiles)) && Distinct(s) && forall t <- s :: t in tiles
    ensures Distinct(IdsOf(s))
  {
    forall i, j | 0 <= i < j < |s| ensures IdsOf(s)[i] != IdsOf(s)[j] {
      IdsOfAt(s, i);
      IdsOfAt(s, j);
      assert s[i] in tiles && s[j] in tiles;
      var a :| 0 <= a < |tiles| && tiles[a] == s[i];
      var b :| 0 <= b < |tiles| && tiles[b] == s[j];
      IdsOfAt(tiles, a);
      IdsOfAt(tiles, b);
      if a < b {
        assert IdsOf(tiles)[a] != IdsOf(tiles)[b];
      } else if b < a {
        assert IdsOf(tiles)[b] != IdsOf(tiles)[a];
      } else {
        assert s[i] != s[j];
      }
    }
  }

  /** Hard's candidates from a hand with distinct ids have distinct ids. */
  lemma PossibleSetsDistinct(tiles: seq<Tile>)
    requires Distinct(IdsOf(tiles))
    ensures DistinctSets(HardPossibleSets(tiles))
  {
    HardPossibleSetsSound(tiles);
    forall s <- HardPossibleSets(tiles) ensures Distinct(IdsOf(s)) {
      CandidateIds(s, tiles);
    }
    DistinctSetsEach(HardPossibleSets(tiles));
  }

  /**
   * playNewSetsFromHand only moves tiles: the ids of table and hand together are kept, the
   * tiles counted are the tiles the hand lost, and the hand's ids stay distinct.
   */
  lemma PlayNewMoves(table: seq<seq<Tile>>, hand: seq<Tile>)
    requires Distinct(IdsOf(hand))
    ensures MovedFrom(table, hand, 0, PlayNew(HardPossibleSets(hand), hand, table))
  {
    PossibleSetsDistinct(hand);
    LayEachMoves(Valid, HardPossibleSets(hand), hand, table, 0);
  }

  // The loops

  /** The `for (const tile of set)` loop of playNewSetsFromHand. */
  method RemoveSetTiles(remainingTiles: seq<Tile>, set_: seq<Tile>) returns (hand: seq<Tile>)
    ensures hand == RemoveIds(remainingTiles, set_)
  {
    hand := remainingTiles;
    var j := 0;
    while j < |set_|
      invariant 0 <= j <= |set_|
      invariant hand == RemoveIds(remainingTiles, set_[..j])
    {
      assert set_[..j + 1][..j] == set_[..j];
      hand := RemoveId(hand, set_[j].id);
      j := j + 1;
    }
    assert set_[..j] == set_;
  }

  /** playNewSetsFromHand */
  method PlayNewSetsFromHand(playerTiles: seq<Tile>, tableSets: seq<seq<Tile>>) returns (r: Extended)
    ensures r == PlayNew(HardPossibleSets(playerTiles), playerTiles, tableSets)
  {
    var possibleSets := HardPossibleSets(playerTiles);
    r := LayCandidates(possibleSets, playerTiles, tableSets);
  }

  /**
   * The candidate loop with candidates `rest` still to try: going on from `cur` ends where
   * the whole loop does.
   */
  predicate LaidAt(accept: seq<Tile> -> bool, goal: Extended, rest: seq<seq<Tile>>, cur: Extended) {
    LayEach(accept, rest, cur.remaining, cur.tableSets, cur.tilesPlayed) == goal
  }

  /** The next candidate is laid, its tiles leaving the hand, exactly when it is available and accepted. */
  lemma LaidAtNext(accept: seq<Tile> -> bool, goal: Extended, rest: seq<seq<Tile>>, cur: Extended, next: Extended)
    requires LaidAt(accept, goal, rest, cur) && rest != []
    requires AllAvailable(rest[0], cur.remaining) && accept(rest[0]) ==>
      next == Extended(cur.tableSets + [rest[0]], RemoveIds(cur.remaining, rest[0]), cur.tilesPlayed + |rest[0]|)
    requires !(AllAvailable(rest[0], cur.remaining) && accept(rest[0])) ==> next == cur
    ensures LaidAt(accept, goal, rest[1..], next)
  {
    var x, h, t, p := rest[0], cur.remaining, cur.tableSets, cur.tilesPlayed;
    if AllAvailable(x, h) && accept(x) {
      LaidNextLaid(accept, goal, rest, h, t, p, next);
    } else {
      LayEachSkipped(accept, rest, h, t, p);
    }
  }

  lemma LaidNextLaid(accept: seq<Tile> -> bool, goal: Extended, rest: seq<seq<Tile>>, h: seq<Tile>,
                     t: seq<seq<Tile>>, p: nat, next: Extended)
    requires rest != [] && AllAvailable(rest[0], h) && accept(rest[0])
    requires LayEach(accept, rest, h, t, p) == goal
    requires next == Extended(t + [rest[0]], RemoveIds(h, rest[0]), p + |rest[0]|)
    ensures LayEach(accept, rest[1..], next.remaining, next.tableSets, next.tilesPlayed) == goal
  {
    LayEachLaid(accept, rest, h, t, p);
  }

  lemma LayEachSkipped(accept: seq<Tile> -> bool, sets: seq<seq<Tile>>, hand: seq<Tile>, table: seq<seq<Tile>>,
                       played: nat)
    requires sets != [] && !(AllAvailable(sets[0], hand) && accept(sets[0]))
    ensures LayEach(accept, sets, hand, table, played) == LayEach(accept, sets[1..], hand, table, played)
  {
  }

  /** The loop of playNewSetsFromHand over the candidate sets. */
  method LayCandidates(possibleSets: seq<seq<Tile>>, playerTiles: seq<Tile>, tableSets: seq<seq<Tile>>)
    returns (r: Extended)
    ensures r == PlayNew(possibleSets, playerTiles, tableSets)
  {
    var remainingTiles := playerTiles;
    var newTableSets := tableSets;
    var tilesPlayed: nat := 0;
    var k := 0;
    ghost var goal := PlayNew(possibleSets, playerTiles, tableSets);
    ghost var rest := possibleSets;
    while k < |possibleSets|
      invariant k <= |possibleSets| && rest == possibleSets[k..]
      invariant LaidAt(Valid, goal, rest, Extended(newTableSets, remainingTiles, tilesPlayed))
      decreases |possibleSets| - k
    {
      var candidate := possibleSets[k];
      assert rest[0] == candidate && rest[1..] == possibleSets[k + 1..];
      ghost var cur := Extended(newTableSets, remainingTiles, tilesPlayed);
      if AllAvailable(candidate, remainingTiles) && IsValidSet(candidate).valid {
        newTableSets := newTableSets + [candidate];
        remainingTiles := RemoveSetTiles(remainingTiles, candidate);
        tilesPlayed := tilesPlayed + |candidate|;
      }
      LaidAtNext(Valid, goal, rest, cur, Extended(newTableSets, remainingTiles, tilesPlayed));
      rest := rest[1..];
      k := k + 1;
    }
    r := Extended(newTableSets, remainingTiles, tilesPlayed);
  }

  // trySimplePlays
  // ---------------------------------------------------------------------------

  /** The first half of trySimplePlays: the extensions, kept when they played a tile. */
  function ExtendStep(table: seq<seq<Tile>>, hand: seq<Tile>): Extended {
    var ext := ExtendExisting(table, hand);
    if ext.tilesPlayed > 0 then ext else Extended(table, hand, 0)
  }

  /** The second half of trySimplePlays: new sets from what is left, kept when they played a tile. */
  function LayStep(after: Extended): Extended {
    var lay := PlayNew(HardPossibleSets(after.remaining), after.remaining, after.tableSets);
    if lay.tilesPlayed > 0 then Extended(lay.tableSets, lay.remaining, after.tilesPlayed + lay.tilesPlayed)
    else after
  }

  /** trySimplePlays: extend the table's sets, then lay new sets from what is left. */
  function SimplePlays(table: seq<seq<Tile>>, hand: seq<Tile>): Extended {
    LayStep(ExtendStep(table, hand))
  }

  /** trySimplePlays */
  method TrySimplePlays(playerTiles: seq<Tile>, tableSets: seq<seq<Tile>>) returns (r: Extended)
    ensures r == SimplePlays(tableSets, playerTiles)
  {
    var remainingTiles := playerTiles;
    var newTableSets := tableSets;
    var tilesPlayed: nat := 0;
    var extendResult := ExtendExistingSets(remainingTiles, newTableSets);
    if extendResult.tilesPlayed > 0 {
      remainingTiles := extendResult.remaining;
      newTableSets := extendResult.tableSets;
      tilesPlayed := tilesPlayed + extendResult.tilesPlayed;
    }
    ghost var after := Extended(newTableSets, remainingTiles, tilesPlayed);
    ExtendStepIs(tableSets, playerTiles, extendResult, after);
    var newSetsResult := PlayNewSetsFromHand(remainingTiles, newTableSets);
    if newSetsResult.tilesPlayed > 0 {
      remainingTiles := newSetsResult.remaining;
      newTableSets := newSetsResult.tableSets;
      tilesPlayed := tilesPlayed + newSetsResult.tilesPlayed;
    }
    r := Extended(newTableSets, remainingTiles, tilesPlayed);
    LayStepIs(after, newSetsResult, r);
  }

  lemma ExtendStepIs(table: seq<seq<Tile>>, hand: seq<Tile>, ext: Extended, after: Extended)
    requires ext == ExtendExisting(table, hand)
    requires after == if ext.tilesPlayed > 0 then ext else Extended(table, hand, 0)
    ensures after == ExtendStep(table, hand)
  {
  }

  lemma LayStepIs(after: Extended, lay: Extended, r: Extended)
    requires lay == PlayNew(HardPossibleSets(after.remaining), after.remaining, after.tableSets)
    requires r == if lay.tilesPlayed > 0
      then Extended(lay.tableSets, lay.remaining, after.tilesPlayed + lay.tilesPlayed) else after
    ensures r == LayStep(after)
  {
  }

  /** A move followed by a move that goes on counting from it is one move. */
  lemma MovedThen(table: seq<seq<Tile>>, hand: seq<Tile>, a: Extended, b: Extended)
    requires MovedFrom(table, hand, 0, a) && MovedFrom(a.tableSets, a.remaining, a.tilesPlayed, b)
    ensures MovedFrom(table, hand, 0, b)
  {
  }

  lemma ExtendStepMoves(table: seq<seq<Tile>>, hand: seq<Tile>)
    requires Distinct(IdsOf(hand))
    ensures MovedFrom(table, hand, 0, ExtendStep(table, hand))
  {
    ExtendExistingMoves(table, hand);
  }

  lemma LayStepMoves(after: Extended)
    requires Distinct(IdsOf(after.remaining))
    ensures MovedFrom(after.tableSets, after.remaining, after.tilesPlayed, LayStep(after))
  {
    PlayNewMoves(after.tableSets, after.remaining);
  }

  /**
   * trySimplePlays only moves tiles from a hand with distinct ids to the table, and the count
   * it reports is the number of tiles the hand lost.
   */
  lemma SimplePlaysMoves(table: seq<seq<Tile>>, hand: seq<Tile>)
    requires Distinct(IdsOf(hand))
    ensures MovedFrom(table, hand, 0, SimplePlays(table, hand))
  {
    var after := ExtendStep(table, hand);
    ExtendStepMoves(table, hand);
    LayStepMoves(after);
    MovedThen(table, hand, after, LayStep(after));
  }
}
