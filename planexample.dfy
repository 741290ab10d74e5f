/**
 * A turn of the Easy and Medium planner as written, on a concrete hand: the tiles laid by the
 * first extension stay in the hand. The candidate sets of the remaining hand are worked out
 * step by step below.
 */
module PlanExample {
  import opened Tiles
  import opened Optional
  import opened Ordering
  import opened Rules
  import opened BotSets
  import opened Candidates
  import opened Extension
  import opened PlanStrategy
  import RulePresets

  const R4 := Numbered(4, Red, 4)
  const R5 := Numbered(1, Red, 5)
  const R6 := Numbered(2, Red, 6)
  const R7 := Numbered(3, Red, 7)
  const B1 := Numbered(5, Blue, 1)
  const B2 := Numbered(6, Blue, 2)
  const B3 := Numbered(7, Blue, 3)

  /** Red 5-6-7 on the table; red 4 and blue 1-2-3 in a hand that has melded. */
  function ExampleState(rules: RulePresets.Rules): BotState {
    BotState([R4, B1, B2, B3], [[R5, R6, R7]], true, rules)
  }

  /**
   * The first extension lays red 4 before red 5, the blue run is then laid from the hand
   * `play` was given, and the turn ends with eight tiles on table and hand together where
   * there were seven: red 4 is both on the table and still in the hand.
   */
  lemma AsWrittenExample(rules: RulePresets.Rules)
    ensures var st := ExampleState(rules);
      var d := Plan(Medium, st, OriginalHand);
      && |Flatten(st.tableSets)| + |st.playerTiles| == 7
      && d.Play?
      && |Flatten(d.tableSets)| + |d.playerTiles| == 8
  {
    var st := ExampleState(rules);
    ExampleFirstPass(rules);
    ExamplePossibleSets();
    var blue := [[B1, B2, B3]];
    assert SortBySize([blue]) == [blue];
    assert Combos(Medium, st) == [blue];
    ExamplePlaced(st.playerTiles);
    FirstIndexAt([blue], AcceptableIn(st.playerTiles, true, rules.initialMeldPoints), 0);
    AsWrittenDuplicates(Medium, st);
    assert st.tableSets[1..] == [];
    assert Flatten(st.tableSets) == [R5, R6, R7];
  }

  /** The blue run can be laid from the original hand. */
  lemma ExamplePlaced(hand: seq<Tile>)
    requires hand == [R4, B1, B2, B3]
    ensures PlaceCombo(hand, [[B1, B2, B3]]).Some?
  {
    BlueRunValid([B1, B2, B3]);
    ExampleTaken(hand);
    PlaceSingle(hand, [B1, B2, B3]);
  }

  lemma PlaceSingle(hand: seq<Tile>, s: seq<Tile>)
    requires IsValidSet(s).valid && TakeAll(hand, s).Some?
    ensures PlaceCombo(hand, [s]) == TakeAll(hand, s)
  {
    var combo: seq<seq<Tile>> := [s];
    assert combo[1..] == [];
  }

  lemma ExampleTaken(hand: seq<Tile>)
    requires hand == [R4, B1, B2, B3]
    ensures TakeAll(hand, [B1, B2, B3]).Some?
  {
    assert FindFirst(hand, HasId(5)) == Some(1);
    assert Splice(hand, 1) == [R4, B2, B3];
    assert [B1, B2, B3][1..] == [B2, B3];
    ExampleTakenRest([R4, B2, B3]);
  }

  lemma ExampleTakenRest(h: seq<Tile>)
    requires h == [R4, B2, B3]
    ensures TakeAll(h, [B2, B3]).Some?
  {
    assert FindFirst(h, HasId(6)) == Some(1);
    var h2 := Splice(h, 1);
    assert h2 == [R4, B3];
    assert FindFirst(h2, HasId(7)) == Some(1);
    assert [B2, B3][1..] == [B3] && [B3][1..] == [];
    assert TakeAll(h2, [B3]).Some?;
  }

  lemma RedRunIsRun(s: seq<Tile>)
    requires s == [R5, R6, R7]
    ensures IsValidSet(s).kind == Some(Run)
  {
    ThreeRun(s, Red, 5);
  }

  /** Three tiles of one colour numbered `n`, `n + 1`, `n + 2` are a run and not a group. */
  lemma ThreeRun(s: seq<Tile>, c: Color, n: int)
    requires |s| == 3 && s[0].Numbered? && s[1].Numbered? && s[2].Numbered?
    requires s[0].color == c && s[1].color == c && s[2].color == c
    requires s[0].number == n && s[1].number == n + 1 && s[2].number == n + 2
    ensures IsValidSet(s).kind == Some(Run)
  {
    ThreeValidRun(s, c, n);
    ThreeNotGroup(s, n);
  }

  lemma ThreeValidRun(s: seq<Tile>, c: Color, n: int)
    requires |s| == 3 && s[0].Numbered? && s[1].Numbered? && s[2].Numbered?
    requires s[0].color == c && s[1].color == c && s[2].color == c
    requires s[0].number == n && s[1].number == n + 1 && s[2].number == n + 2
    ensures ValidRun(s)
  {
    AllNumberedRegular(s);
    NumbersAt(s, 0);
    NumbersAt(s, 1);
    NumbersAt(s, 2);
    var ns := Numbers(s);
    assert ns == [n, n + 1, n + 2];
    assert MaxOf(ns) == n + 2 && MinOf(ns) == n by {
      assert ns[2] in ns && ns[0] in ns;
    }
    assert Distinct(ns);
    RegularJokerSplit(s);
    ThreeSameColor(s, c);
    RunOfFacts(s);
  }

  lemma ThreeSameColor(s: seq<Tile>, c: Color)
    requires |s| == 3 && s[0].Numbered? && s[1].Numbered? && s[2].Numbered?
    requires s[0].color == c && s[1].color == c && s[2].color == c
    ensures forall t <- s :: t.Numbered?
    ensures SameColor(s)
  {
    forall t | t in s ensures t.color == c {
      var i :| 0 <= i < 3 && s[i] == t;
    }
  }

  /** What ValidRunIff asks of a joker-free run, as separate facts. */
  lemma RunOfFacts(s: seq<Tile>)
    requires 3 <= |s| <= 13 && Regular(s) == s && |s| > 0
    requires forall t <- s :: t.Numbered?
    requires SameColor(s) && Distinct(Numbers(s))
    requires MaxOf(Numbers(s)) - MinOf(Numbers(s)) + 1 - |s| <= JokerCount(s)
    ensures ValidRun(s)
  {
    ValidRunIff(s);
  }

  lemma ThreeNotGroup(s: seq<Tile>, n: int)
    requires |s| == 3 && s[0].Numbered? && s[1].Numbered?
    requires s[0].number == n && s[1].number == n + 1
    ensures !IsValidGroup(s)
  {
    ValidGroupIff(s);
    RegularMember(s, s[0]);
    RegularMember(s, s[1]);
  }

  /** The first extension moves red 4 to the front of the red run, and nothing else. */
  lemma ExampleFirstPass(rules: RulePresets.Rules)
    ensures FirstPass(ExampleState(rules)) == Extended([[R4] + [R5, R6, R7]], [B1, B2, B3], 1)
  {
    var s, hand := [R5, R6, R7], [R4, B1, B2, B3];
    ExampleExtendOne(s, hand);
    var table: seq<seq<Tile>> := [s];
    assert table[1..] == [];
    assert ExtendAll(table, hand, SpliceFirst) == Extended([[R4] + s], [B1, B2, B3], 1);
  }

  /** Red 4 goes before the red run; red 8 is not in the hand. */
  lemma ExampleExtendOne(s: seq<Tile>, hand: seq<Tile>)
    requires s == [R5, R6, R7] && hand == [R4, B1, B2, B3]
    ensures ExtendOne(s, hand, SpliceFirst) == Step([R4] + s, [B1, B2, B3], 1)
  {
    RedRunAnchor(s, hand);
    ExampleSpliceOut(hand);
    ExampleExtendRun(s, hand, [B1, B2, B3]);
  }

  lemma ExampleExtendRun(s: seq<Tile>, hand: seq<Tile>, rest: seq<Tile>)
    requires |s| == 3 && hand != [] && hand[0] == R4
    requires SpliceOutId(hand, 4) == rest && rest == [B1, B2, B3]
    ensures ExtendRun(s, hand, Red, 5, SpliceFirst) == Step([R4] + s, rest, 1)
  {
    ExampleFront(s, hand);
    ExampleBack([R4] + s, rest);
  }

  /** The red run is extended from its first tile, numbered 5. */
  lemma RedRunAnchor(s: seq<Tile>, hand: seq<Tile>)
    requires s == [R5, R6, R7]
    ensures ExtendOne(s, hand, SpliceFirst) == ExtendRun(s, hand, Red, 5, SpliceFirst)
  {
    RedRunIsRun(s);
    assert FindFirst(s, IsRegularTile) == Some(0);
    ExtendAsRun(s, hand, SpliceFirst);
    assert StartNum(5, 0) == 5;
  }

  lemma ExampleFront(s: seq<Tile>, hand: seq<Tile>)
    requires hand != [] && hand[0] == R4
    ensures RunFront(s, hand, Red, 5, SpliceFirst) == Step([R4] + s, SpliceOutId(hand, 4), 1)
  {
    var p := NumberedAs(Red, 4);
    assert RunFront(s, hand, Red, 5, SpliceFirst) == AddFront(s, hand, p, SpliceFirst);
    AddFrontAtHead(s, hand, p);
  }

  lemma AddFrontAtHead(s: seq<Tile>, hand: seq<Tile>, p: Tile -> bool)
    requires hand != [] && p(hand[0])
    ensures AddFront(s, hand, p, SpliceFirst) == Step([hand[0]] + s, SpliceOutId(hand, hand[0].id), 1)
  {
    assert FindFirst(hand, p) == Some(0);
  }

  lemma ExampleSpliceOut(hand: seq<Tile>)
    requires hand == [R4, B1, B2, B3]
    ensures SpliceOutId(hand, 4) == [B1, B2, B3]
  {
    assert FindFirst(hand, HasId(4)) == Some(0);
    assert Splice(hand, 0) == [B1, B2, B3];
  }

  lemma ExampleBack(s: seq<Tile>, hand: seq<Tile>)
    requires hand == [B1, B2, B3]
    ensures RunBack(s, hand, Red, 7, SpliceFirst) == Step(s, hand, 0)
  {
    assert hand[1..] == [B2, B3] && [B2, B3][1..] == [B3] && [B3][1..] == [];
    assert FindFirst([B3], NumberedAs(Red, 8)) == None;
    assert FindFirst([B2, B3], NumberedAs(Red, 8)) == None;
    assert FindFirst(hand, NumberedAs(Red, 8)) == None;
  }

  lemma ExampleKeys(tiles: seq<Tile>)
    requires tiles == [B1, B2, B3]
    ensures NumberKeys(tiles) == [1, 2, 3]
  {
    AllNumberedRegular(tiles);
    ExampleNumbers(tiles);
    ExampleFirsts();
    ExampleKeyParts();
  }

  lemma ExampleNumbers(tiles: seq<Tile>)
    requires tiles == [B1, B2, B3]
    ensures Numbers(tiles) == [1, 2, 3]
  {
    assert tiles[1..] == [B2, B3] && tiles[1..][1..] == [B3];
    assert Numbers([B3]) == [3];
    assert Numbers([B2, B3]) == [2, 3];
  }

  lemma ExampleFirsts()
    ensures FirstOccurrences([1, 2, 3]) == [1, 2, 3]
  {
    assert Without([3], 2) == [3];
    assert FirstOccurrences([3]) == [3];
    assert Without([2, 3], 1) == [2, 3];
    assert FirstOccurrences([2, 3]) == [2, 3];
  }

  lemma ExampleKeyParts()
    ensures IndexKeys([1, 2, 3]) == [1, 2, 3] && OtherKeys([1, 2, 3]) == []
    ensures SortInts([1, 2, 3]) == [1, 2, 3]
  {
    assert IndexKeys([1, 2, 3]) == [1, 2, 3];
    assert OtherKeys([1, 2, 3]) == [];
  }

  /** A number held by one tile gives no joker-free group. */
  lemma NoGroupOfNumber(tiles: seq<Tile>, n: int, t: Tile)
    requires t.Numbered? && t.number == n
    requires OfNumber(tiles, n) == [t]
    ensures GroupsForNumber(Medium, tiles, n, []) == []
  {
    assert ColorsOf([t]) == [t.color];
    assert Without([], t.color) == [];
    assert FirstOccurrences([t.color]) == [t.color];
  }

  lemma ExampleGroups(tiles: seq<Tile>)
    requires tiles == [B1, B2, B3]
    ensures FindAllGroups(Medium, tiles) == []
  {
    ExampleKeys(tiles);
    ExampleNoJokers(tiles);
    ExampleOfNumber(tiles);
    NoGroupOfNumber(tiles, 1, B1);
    NoGroupOfNumber(tiles, 2, B2);
    NoGroupOfNumber(tiles, 3, B3);
    NoGroupsForKeys(tiles, 1, 2, 3);
  }

  lemma ExampleNoJokers(tiles: seq<Tile>)
    requires tiles == [B1, B2, B3]
    ensures JokersOf(tiles) == []
  {
    assert tiles[1..] == [B2, B3] && [B2, B3][1..] == [B3] && [B3][1..] == [];
    assert JokersOf([B3]) == [] && JokersOf([B2, B3]) == [];
  }

  lemma ExampleOfNumber(tiles: seq<Tile>)
    requires tiles == [B1, B2, B3]
    ensures OfNumber(tiles, 1) == [B1] && OfNumber(tiles, 2) == [B2] && OfNumber(tiles, 3) == [B3]
  {
    OfNumberThree(B1, B2, B3, 1);
    OfNumberThree(B1, B2, B3, 2);
    OfNumberThree(B1, B2, B3, 3);
  }

  /** The tile, when it carries number `n`. */
  function Keep(t: Tile, n: int): seq<Tile> {
    if t.Numbered? && t.number == n then [t] else []
  }

  lemma OfNumberThree(a: Tile, b: Tile, c: Tile, n: int)
    ensures OfNumber([a, b, c], n) == Keep(a, n) + (Keep(b, n) + Keep(c, n))
  {
    assert [c] == [c] + [] && [b, c] == [b] + [c] && [a, b, c] == [a] + [b, c];
    OfNumberCons(c, [], n);
    assert OfNumber([c], n) == Keep(c, n);
    OfNumberCons(b, [c], n);
    OfNumberCons(a, [b, c], n);
  }

  lemma OfNumberCons(t: Tile, s: seq<Tile>, n: int)
    ensures OfNumber([t] + s, n) == Keep(t, n) + OfNumber(s, n)
  {
    assert ([t] + s)[1..] == s;
  }

  /** Three keys none of which gives a group give no groups. */
  lemma NoGroupsForKeys(tiles: seq<Tile>, a: int, b: int, c: int)
    requires JokersOf(tiles) == []
    requires GroupsForNumber(Medium, tiles, a, []) == []
    requires GroupsForNumber(Medium, tiles, b, []) == []
    requires GroupsForNumber(Medium, tiles, c, []) == []
    ensures GroupsForKeys(Medium, tiles, [a, b, c]) == []
  {
    var k1, k2, k3 := [a, b, c], [b, c], [c];
    assert k1[1..] == k2 && k2[1..] == k3 && k3[1..] == [];
    assert GroupsForKeys(Medium, tiles, k3) == [];
    assert GroupsForKeys(Medium, tiles, k2) == [];
  }

  lemma NoRunOf(c: Color)
    requires c != Blue
    ensures RunsOfColor(Medium, [B1, B2, B3], c) == []
  {
    var tiles := [B1, B2, B3];
    assert tiles[1..] == [B2, B3] && [B2, B3][1..] == [B3] && [B3][1..] == [];
    assert OfColor([B3], c) == [] && OfColor([B2, B3], c) == [] && OfColor(tiles, c) == [];
    assert UniqueOfColor(tiles, c) == [];
  }

  lemma BlueRunValid(tiles: seq<Tile>)
    requires tiles == [B1, B2, B3]
    ensures IsValidSet(tiles).valid
  {
    ThreeRun(tiles, Blue, 1);
  }

  lemma BlueOfColor(tiles: seq<Tile>)
    requires tiles == [B1, B2, B3]
    ensures OfColor(tiles, Blue) == tiles
  {
    assert tiles[1..] == [B2, B3] && [B2, B3][1..] == [B3] && [B3][1..] == [];
    assert OfColor([B3], Blue) == [B3];
    assert OfColor([B2, B3], Blue) == [B2, B3];
  }

  lemma BlueSorted(tiles: seq<Tile>)
    requires tiles == [B1, B2, B3]
    ensures SortByNumber(tiles) == tiles
  {
    assert tiles[1..] == [B2, B3] && [B2, B3][1..] == [B3] && [B3][1..] == [];
    assert SortByNumber([B3]) == [B3];
    assert InsertByNumber(B2, [B3]) == [B2, B3];
    assert SortByNumber([B2, B3]) == [B2, B3];
    assert InsertByNumber(B1, [B2, B3]) == tiles;
  }

  lemma BlueOnePerNumber(tiles: seq<Tile>)
    requires tiles == [B1, B2, B3]
    ensures UniqueByNumber(tiles, {}) == tiles
  {
    assert tiles[1..] == [B2, B3] && [B2, B3][1..] == [B3] && [B3][1..] == [];
    assert {} + {1} == {1} && {1} + {2} == {1, 2};
    assert UniqueByNumber([B3], {1, 2}) == [B3];
    assert UniqueByNumber([B2, B3], {1}) == [B2, B3];
  }

  lemma BlueUnique(tiles: seq<Tile>)
    requires tiles == [B1, B2, B3]
    ensures UniqueOfColor(tiles, Blue) == tiles
  {
    BlueOfColor(tiles);
    BlueSorted(tiles);
    BlueOnePerNumber(tiles);
  }

  lemma BlueSlices(tiles: seq<Tile>)
    requires tiles == [B1, B2, B3]
    ensures SliceRuns(tiles, 0) == [tiles]
  {
    BlueRunValid(tiles);
    assert tiles[0..3] == tiles;
    forall i | 1 <= i < |tiles| ensures NumberOf(tiles[i]) == NumberOf(tiles[i - 1]) + 1 {
    }
    assert Consecutive(tiles);
    assert SlicesFrom(tiles, 0, 2) == [tiles];
    assert SliceRuns(tiles, 1) == [];
  }

  lemma BlueRuns()
    ensures RunsOfColor(Medium, [B1, B2, B3], Blue) == [[B1, B2, B3]]
  {
    var tiles := [B1, B2, B3];
    BlueUnique(tiles);
    BlueSlices(tiles);
  }

  lemma BlueAndAfter(tiles: seq<Tile>)
    requires tiles == [B1, B2, B3]
    ensures RunsForColors(Medium, tiles, [Blue, Orange]) == [tiles]
  {
    BlueRuns();
    NoRunOf(Orange);
    assert [Blue, Orange][1..] == [Orange] && [Orange][1..] == [];
    assert RunsForColors(Medium, tiles, [Orange]) == [];
  }

  lemma ExampleRuns()
    ensures FindAllRuns(Medium, [B1, B2, B3]) == [[B1, B2, B3]]
  {
    ExampleColors([B1, B2, B3]);
  }

  lemma ExampleColors(tiles: seq<Tile>)
    requires tiles == [B1, B2, B3]
    ensures RunsForColors(Medium, tiles, Colors) == [tiles]
  {
    RedAndAfter(tiles);
    NoRunOf(Black);
    assert Colors[1..] == [Red, Blue, Orange];
  }

  lemma RedAndAfter(tiles: seq<Tile>)
    requires tiles == [B1, B2, B3]
    ensures RunsForColors(Medium, tiles, [Red, Blue, Orange]) == [tiles]
  {
    BlueAndAfter(tiles);
    NoRunOf(Red);
    assert [Red, Blue, Orange][1..] == [Blue, Orange];
  }

  lemma ExamplePossibleSets()
    ensures FindAllPossibleSets(Medium, [B1, B2, B3]) == [[[B1, B2, B3]]]
  {
    var tiles := [B1, B2, B3];
    ExampleCandidates(tiles);
    OneCombination(tiles);
  }

  lemma ExampleCandidates(tiles: seq<Tile>)
    requires tiles == [B1, B2, B3]
    ensures CandidateSets(Medium, tiles) == [tiles]
  {
    ExampleGroups(tiles);
    ExampleColors(tiles);
  }

  lemma OneCombination(tiles: seq<Tile>)
    requires tiles == [B1, B2, B3]
    ensures GenerateCombinations([tiles]) == [[tiles]]
  {
    assert !Overlaps(tiles, {});
    assert [tiles][1..] == [] && [] + [tiles] == [tiles] && {} + IdSet(tiles) == IdSet(tiles);
    assert Combinations([], [tiles], IdSet(tiles)) == [[tiles]];
    assert Extensions([], [], {}) == [];
    assert Extensions([tiles], [], {}) == [[tiles]];
  }
}
