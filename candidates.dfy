/**
 * The candidate sets the Easy and Medium bots look for in a hand (findAllGroups, findAllRuns
 * and findAllPossibleSets in server/bot/strategies/EasyStrategy.js and MediumStrategy.js).
 * Medium builds only joker-free groups and runs; Easy also builds sets that use the hand's
 * first one or two jokers.
 */
module Candidates {
  import opened Tiles
  import opened Optional
  import opened Ordering
  import opened Rules
  import opened BotSets

  /** The two strategies that share this planner. */
  datatype Level = Easy | Medium

  /** A candidate set: isValidSet accepts it and each of its tiles is in `hand`. */
  predicate Playable(s: seq<Tile>, hand: seq<Tile>) {
    IsValidSet(s).valid && forall t <- s :: t in hand
  }

  /** Three or four non-jokers of number `n` in pairwise distinct colours. */
  predicate JokerlessGroup(g: seq<Tile>, n: int) {
    && 3 <= |g| <= 4
    && (forall t <- g :: t.Numbered? && t.number == n)
    && Distinct(ColorsOf(g))
  }

  /** At least three non-jokers of colour `color`, each numbered one above the one before. */
  predicate JokerlessRun(run: seq<Tile>, color: Color) {
    && |run| >= 3
    && (forall t <- run :: t.Numbered? && t.color == color)
    && Consecutive(run)
  }

  /** A joker-free group in the sense above is a valid set. */
  lemma JokerlessGroupValid(g: seq<Tile>, n: int)
    requires JokerlessGroup(g, n)
    ensures IsValidSet(g).valid
  {
    AllNumberedRegular(g);
    ValidGroupIff(g);
  }

  // ---------------------------------------------------------------------------
  // Colour subsets (generateGroupCombinations)
  // ---------------------------------------------------------------------------

  function PrependAll(c: Color, choices: seq<seq<Color>>): (r: seq<seq<Color>>)
    ensures |r| == |choices|
    ensures forall i :: 0 <= i < |r| ==> r[i] == [c] + choices[i]
  {
    if choices == [] then [] else [[c] + choices[0]] + PrependAll(c, choices[1..])
  }

  /**
   * The colour lists generateGroupCombinations completes, in the order it completes them:
   * those starting with `colors[0]`, then those drawn from the colours after it.
   */
  function ColorChoices(colors: seq<Color>, size: nat): seq<seq<Color>>
    decreases |colors|
  {
    if size == 0 then [[]]
    else if colors == [] then []
    else PrependAll(colors[0], ColorChoices(colors[1..], size - 1)) + ColorChoices(colors[1..], size)
  }

  /** Every emitted choice picks `size` of the colours, in the order the colours are listed. */
  lemma {:induction false} ColorChoicesSound(colors: seq<Color>, size: nat)
    ensures forall ch <- ColorChoices(colors, size) :: Pick(ch, colors, size)
    decreases |colors|
  {
    if size > 0 && colors != [] {
      var rest := colors[1..];
      var tails := ColorChoices(rest, size - 1);
      var without := ColorChoices(rest, size);
      ColorChoicesSound(rest, size - 1);
      ColorChoicesSound(rest, size);
      PrependSound(colors, tails, size);
      SkipAll(colors, without, size);
      ConcatPicks(PrependAll(colors[0], tails), without, colors, size);
    }
  }

  /** `ch` lists `size` of the colours, in the order the colours are listed. */
  predicate Pick(ch: seq<Color>, colors: seq<Color>, size: nat) {
    |ch| == size && Subsequence(ch, colors)
  }

  lemma ConcatPicks(a: seq<seq<Color>>, b: seq<seq<Color>>, colors: seq<Color>, size: nat)
    requires forall ch <- a :: Pick(ch, colors, size)
    requires forall ch <- b :: Pick(ch, colors, size)
    ensures forall ch <- a + b :: Pick(ch, colors, size)
  {
  }

  /** Picks from the colours after the first are picks from all of them. */
  lemma SkipAll(colors: seq<Color>, picks: seq<seq<Color>>, size: nat)
    requires colors != [] && size > 0
    requires forall ch <- picks :: Pick(ch, colors[1..], size)
    ensures forall ch <- picks :: Pick(ch, colors, size)
  {
    forall ch <- picks ensures Pick(ch, colors, size) {
      assert ch != [];
    }
  }

  lemma PrependSound(colors: seq<Color>, tails: seq<seq<Color>>, size: nat)
    requires colors != [] && size > 0
    requires forall ch <- tails :: Pick(ch, colors[1..], size - 1)
    ensures forall ch <- PrependAll(colors[0], tails) :: Pick(ch, colors, size)
  {
    var withFirst := PrependAll(colors[0], tails);
    forall ch <- withFirst ensures Pick(ch, colors, size) {
      var i :| 0 <= i < |withFirst| && withFirst[i] == ch;
      assert tails[i] in tails;
      assert ch == [colors[0]] + tails[i] && ch[1..] == tails[i];
    }
  }

  /** And every such pick is emitted. */
  lemma {:induction false} ColorChoicesComplete(colors: seq<Color>, size: nat, ch: seq<Color>)
    requires |ch| == size && Subsequence(ch, colors)
    ensures ch in ColorChoices(colors, size)
    decreases |colors|
  {
    if size > 0 {
      assert colors != [];
      if ch[0] == colors[0] && Subsequence(ch[1..], colors[1..]) {
        ColorChoicesComplete(colors[1..], size - 1, ch[1..]);
        var tails := ColorChoices(colors[1..], size - 1);
        var i :| 0 <= i < |tails| && tails[i] == ch[1..];
        assert PrependAll(colors[0], tails)[i] == ch;
      } else {
        ColorChoicesComplete(colors[1..], size, ch);
      }
    }
  }

  // ---------------------------------------------------------------------------
  // Groups (findAllGroups)
  // ---------------------------------------------------------------------------

  /** Each colour in `colors` has a non-joker in `ts`: `byColor[c]` exists. */
  predicate Present(ts: seq<Tile>, colors: seq<Color>) {
    forall c <- colors :: exists u <- ts :: u.Numbered? && u.color == c
  }

  /** `current.map(color => byColor[color][0])` */
  function TilesFor(ts: seq<Tile>, choice: seq<Color>): (g: seq<Tile>)
    requires Present(ts, choice)
    ensures |g| == |choice|
    ensures forall i :: 0 <= i < |g| ==> g[i] in ts && g[i].Numbered? && g[i].color == choice[i]
  {
    if choice == [] then []
    else
      assert choice[0] in choice;
      assert forall c <- choice[1..] :: c in choice;
      [FirstOfColor(ts, choice[0])] + TilesFor(ts, choice[1..])
  }

  lemma TilesForColors(ts: seq<Tile>, choice: seq<Color>)
    requires Present(ts, choice)
    ensures ColorsOf(TilesFor(ts, choice)) == choice
  {
    var g := TilesFor(ts, choice);
    ColorsOfAt(g);
  }

  lemma {:induction false} ColorsOfAt(g: seq<Tile>)
    requires forall t <- g :: t.Numbered?
    ensures forall i :: 0 <= i < |g| ==> ColorsOf(g)[i] == g[i].color
  {
    if g != [] {
      ColorsOfAt(g[1..]);
      forall i | 0 < i < |g| ensures ColorsOf(g)[i] == g[i].color {
        assert g[1..][i - 1] == g[i];
      }
    }
  }

  /**
   * The groups the completed colour choices give, each pushed only if isValidSet accepts it.
   * On the tiles of one number, with distinct choices of 3 or 4 colours, none is rejected.
   */
  function GroupsOfChoices(ts: seq<Tile>, n: int, choices: seq<seq<Color>>): (r: seq<seq<Tile>>)
    requires forall t <- ts :: t.Numbered? && t.number == n
    requires forall ch <- choices :: Present(ts, ch) && Distinct(ch) && 3 <= |ch| <= 4
    ensures |r| == |choices|
    ensures forall i :: 0 <= i < |r| ==> r[i] == TilesFor(ts, choices[i])
    ensures forall g <- r :: JokerlessGroup(g, n) && forall t <- g :: t in ts
  {
    if choices == [] then []
    else
      var g := TilesFor(ts, choices[0]);
      TilesForColors(ts, choices[0]);
      JokerlessGroupValid(g, n);
      IfValid(g) + GroupsOfChoices(ts, n, choices[1..])
  }

  lemma ChoicesPresent(ts: seq<Tile>, colors: seq<Color>, size: nat)
    requires Present(ts, colors) && Distinct(colors)
    ensures forall ch <- ColorChoices(colors, size) :: Present(ts, ch) && Distinct(ch) && |ch| == size
  {
    ColorChoicesSound(colors, size);
    forall ch <- ColorChoices(colors, size) ensures Present(ts, ch) && Distinct(ch) {
      SubsequenceMembers(ch, colors);
      SubsequenceDistinct(ch, colors);
    }
  }

  /** The `[u_i, u_j, J0]` and `[u_i, u_j, J0, J1]` groups for `u` and each later tile. */
  function PairsWith(u: Tile, rest: seq<Tile>, jokers: seq<Tile>): (r: seq<seq<Tile>>)
    requires |jokers| >= 1
    ensures forall g <- r :: IsValidSet(g).valid && forall t <- g :: t == u || t in rest || t in jokers
  {
    if rest == [] then []
    else
      IfValid([u, rest[0], jokers[0]])
      + (if |jokers| >= 2 then IfValid([u, rest[0], jokers[0], jokers[1]]) else [])
      + PairsWith(u, rest[1..], jokers)
  }

  /** The double loop over pairs `i < j` of the first tiles of each colour. */
  function PairGroups(us: seq<Tile>, jokers: seq<Tile>): (r: seq<seq<Tile>>)
    requires |jokers| >= 1
    ensures forall g <- r :: IsValidSet(g).valid && forall t <- g :: t in us || t in jokers
  {
    if us == [] then [] else PairsWith(us[0], us[1..], jokers) + PairGroups(us[1..], jokers)
  }

  /** Easy's groups with jokers: two colours and one or two jokers, or one colour and two jokers. */
  function JokerGroups(ts: seq<Tile>, colors: seq<Color>, jokers: seq<Tile>): (r: seq<seq<Tile>>)
    requires Present(ts, colors)
    ensures forall g <- r :: IsValidSet(g).valid && forall t <- g :: t in ts || t in jokers
  {
    var us := TilesFor(ts, colors);
    (if |jokers| >= 1 && |colors| >= 2 then PairGroups(us, jokers) else [])
    + (if |jokers| >= 2 && |colors| >= 1 then IfValid([us[0], jokers[0], jokers[1]]) else [])
  }

  /** The groups of 3 colours, then (with 4 colours) those of 4. */
  function FullGroups(ts: seq<Tile>, n: int, colors: seq<Color>): (r: seq<seq<Tile>>)
    requires forall t <- ts :: t.Numbered? && t.number == n
    requires Present(ts, colors) && Distinct(colors)
    ensures forall g <- r :: JokerlessGroup(g, n) && IsValidSet(g).valid && forall t <- g :: t in ts
  {
    ChoicesPresent(ts, colors, 3);
    ChoicesPresent(ts, colors, 4);
    var r :=
      if |colors| >= 3 then
        GroupsOfChoices(ts, n, ColorChoices(colors, 3))
        + (if |colors| >= 4 then GroupsOfChoices(ts, n, ColorChoices(colors, 4)) else [])
      else [];
    forall g <- r ensures IsValidSet(g).valid {
      JokerlessGroupValid(g, n);
    }
    r
  }

  lemma KeysPresent(ts: seq<Tile>)
    requires forall t <- ts :: t.Numbered?
    ensures Present(ts, ColorKeys(ts))
  {
    forall c <- ColorKeys(ts) ensures exists u <- ts :: u.Numbered? && u.color == c {
      var u :| u in ts && u.color == c;
    }
  }

  /** The groups built from the hand's tiles of number `n` and its jokers. */
  function GroupsForNumber(level: Level, tiles: seq<Tile>, n: int, jokers: seq<Tile>): (r: seq<seq<Tile>>)
    ensures forall g <- r :: IsValidSet(g).valid && forall t <- g :: t in tiles || t in jokers
    ensures level == Medium ==> forall g <- r :: JokerlessGroup(g, n) && forall t <- g :: t in tiles
  {
    var ts := OfNumber(tiles, n);
    var colors := ColorKeys(ts);
    KeysPresent(ts);
    FullGroups(ts, n, colors) + (if level == Easy then JokerGroups(ts, colors, jokers) else [])
  }

  function GroupsForKeys(level: Level, tiles: seq<Tile>, keys: seq<int>): (r: seq<seq<Tile>>)
    ensures forall g <- r :: Playable(g, tiles)
    ensures level == Medium ==> forall g <- r :: exists n :: JokerlessGroup(g, n)
  {
    if keys == [] then []
    else GroupsForNumber(level, tiles, keys[0], JokersOf(tiles)) + GroupsForKeys(level, tiles, keys[1..])
  }

  /** findAllGroups: number by number, in the key order of `byNumber`. */
  function FindAllGroups(level: Level, tiles: seq<Tile>): seq<seq<Tile>> {
    GroupsForKeys(level, tiles, NumberKeys(tiles))
  }

  // ---------------------------------------------------------------------------
  // Runs (findAllRuns)
  // ---------------------------------------------------------------------------

  /**
   * `uniqueTiles`: the colour's non-jokers sorted by number, the first of each number kept,
   * so one tile per number of the colour, in ascending order.
   */
  function UniqueOfColor(tiles: seq<Tile>, color: Color): (u: seq<Tile>)
    ensures forall t <- u :: t in tiles && t.Numbered? && t.color == color
    ensures IncreasingNumbers(u)
  {
    var sorted := SortByNumber(OfColor(tiles, color));
    assert forall t <- sorted :: t in OfColor(tiles, color) by {
      forall t <- sorted ensures t in OfColor(tiles, color) {
        assert t in multiset(sorted);
      }
    }
    SortByNumberAscending(OfColor(tiles, color));
    UniqueByNumberAscending(sorted, {});
    UniqueByNumber(sorted, {})
  }

  /**
   * Every number the colour has in the hand is kept, and each tile kept is the first of its
   * number in the sorted tiles of the colour.
   */
  lemma UniqueOfColorSpec(tiles: seq<Tile>, color: Color)
    ensures forall t <- tiles :: t.Numbered? && t.color == color ==> NumberOf(t) in NumbersOf(UniqueOfColor(tiles, color))
    ensures forall t <- UniqueOfColor(tiles, color) :: FirstOfNumber(SortByNumber(OfColor(tiles, color)), t)
  {
    var sorted := SortByNumber(OfColor(tiles, color));
    OfColorComplete(tiles, color);
    UniqueByNumberComplete(sorted, {});
    UniqueByNumberFirst(sorted, {});
    forall t <- OfColor(tiles, color) ensures NumberOf(t) in NumbersOf(sorted) {
      assert t in multiset(sorted);
    }
  }

  /** Easy's runs with a joker in a gap of two, or before or after a consecutive pair. */
  function GapRunsFrom(u: seq<Tile>, jokers: seq<Tile>, i: nat): (r: seq<seq<Tile>>)
    requires |jokers| >= 1
    ensures forall run <- r :: IsValidSet(run).valid && forall t <- run :: t in u || t in jokers
    decreases |u| - i
  {
    if i + 1 >= |u| then []
    else
      var gap := NumberOf(u[i + 1]) - NumberOf(u[i]);
      (if gap == 2 then IfValid([u[i], jokers[0], u[i + 1]]) else [])
      + (if gap == 1 then
           (if NumberOf(u[i]) > 1 then IfValid([jokers[0], u[i], u[i + 1]]) else [])
           + (if NumberOf(u[i + 1]) < 13 then IfValid([u[i], u[i + 1], jokers[0]]) else [])
         else [])
      + GapRunsFrom(u, jokers, i + 1)
  }

  /** `1, J, J`, `J, J, 13` or `J, x, J` around a single tile. */
  function SingleRun(t: Tile, jokers: seq<Tile>): seq<Tile>
    requires |jokers| >= 2
  {
    if NumberOf(t) == 1 then [t, jokers[0], jokers[1]]
    else if NumberOf(t) == 13 then [jokers[0], jokers[1], t]
    else [jokers[0], t, jokers[1]]
  }

  function SingleRuns(u: seq<Tile>, jokers: seq<Tile>): (r: seq<seq<Tile>>)
    requires |jokers| >= 2
    ensures forall run <- r :: IsValidSet(run).valid && forall t <- run :: t in u || t in jokers
  {
    if u == [] then [] else IfValid(SingleRun(u[0], jokers)) + SingleRuns(u[1..], jokers)
  }

  /** The runs of one colour: the consecutive slices, then (Easy only) those with jokers. */
  function RunsOfColor(level: Level, tiles: seq<Tile>, color: Color): (r: seq<seq<Tile>>)
    ensures forall run <- r :: Playable(run, tiles)
    ensures level == Medium ==> forall run <- r :: JokerlessRun(run, color)
  {
    var u := UniqueOfColor(tiles, color);
    var jokers := JokersOf(tiles);
    var slices := SliceRuns(u, 0);
    var extra := if level == Easy then JokerRuns(u, jokers) else [];
    SlicesJokerless(u, color);
    RunsFromHand(slices + extra, u, jokers, tiles);
    slices + extra
  }

  /** The runs with jokers the Easy bot adds: the gap runs, then the single-tile runs. */
  function JokerRuns(u: seq<Tile>, jokers: seq<Tile>): (r: seq<seq<Tile>>)
    ensures forall run <- r :: IsValidSet(run).valid && forall t <- run :: t in u || t in jokers
  {
    (if |jokers| >= 1 && |u| >= 2 then GapRunsFrom(u, jokers, 0) else [])
    + (if |jokers| >= 2 then SingleRuns(u, jokers) else [])
  }

  /** Valid runs built from tiles of the hand are candidates. */
  lemma RunsFromHand(runs: seq<seq<Tile>>, u: seq<Tile>, jokers: seq<Tile>, tiles: seq<Tile>)
    requires forall run <- runs :: IsValidSet(run).valid && forall t <- run :: t in u || t in jokers
    requires forall t <- u :: t in tiles
    requires forall t <- jokers :: t in tiles
    ensures forall run <- runs :: Playable(run, tiles)
  {
  }

  lemma SlicesJokerless(u: seq<Tile>, color: Color)
    requires forall t <- u :: t.Numbered? && t.color == color
    ensures forall run <- SliceRuns(u, 0) :: JokerlessRun(run, color) && IsValidSet(run).valid && forall t <- run :: t in u
  {
    SliceRunsShape(u, 0);
    forall run <- SliceRuns(u, 0) ensures JokerlessRun(run, color) && forall t <- run :: t in u {
      var a, b :| 0 <= a <= b <= |u| && run == u[a..b];
      assert forall t <- run :: t in u;
    }
  }

  function RunsForColors(level: Level, tiles: seq<Tile>, colors: seq<Color>): (r: seq<seq<Tile>>)
    ensures forall run <- r :: Playable(run, tiles)
    ensures level == Medium ==> forall run <- r :: exists c :: JokerlessRun(run, c)
  {
    if colors == [] then []
    else RunsOfColor(level, tiles, colors[0]) + RunsForColors(level, tiles, colors[1..])
  }

  /** findAllRuns: colour by colour in the order of TILE_COLORS. */
  function FindAllRuns(level: Level, tiles: seq<Tile>): (r: seq<seq<Tile>>)
    ensures forall run <- r :: Playable(run, tiles)
    ensures level == Medium ==> forall run <- r :: exists c :: JokerlessRun(run, c)
  {
    RunsForColors(level, tiles, Colors)
  }

  // ---------------------------------------------------------------------------
  // findAllPossibleSets
  // ---------------------------------------------------------------------------

  /** `[...groups, ...runs]` */
  function CandidateSets(level: Level, tiles: seq<Tile>): (r: seq<seq<Tile>>)
    ensures forall s <- r :: Playable(s, tiles)
    ensures level == Medium ==>
      forall s <- r :: (exists n :: JokerlessGroup(s, n)) || (exists c :: JokerlessRun(s, c))
  {
    FindAllGroups(level, tiles) + FindAllRuns(level, tiles)
  }

  function FindAllPossibleSets(level: Level, tiles: seq<Tile>): seq<seq<seq<Tile>>> {
    GenerateCombinations(CandidateSets(level, tiles))
  }

  /**
   * Each combination is a non-empty list of candidates sharing no tile id, each accepted by
   * isValidSet and made of tiles from the hand.
   */
  lemma PossibleSetsSound(level: Level, tiles: seq<Tile>)
    ensures forall c <- FindAllPossibleSets(level, tiles) ::
      c != [] && PairwiseDisjoint(c) && forall s <- c :: Playable(s, tiles)
  {
    var sets := CandidateSets(level, tiles);
    GenerateCombinationsSound(sets);
    forall c <- FindAllPossibleSets(level, tiles) ensures forall s <- c :: Playable(s, tiles) {
      SubsequenceMembers(c, sets);
    }
  }
}
