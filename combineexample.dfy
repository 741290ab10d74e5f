/**
 * tryCombineSets as written, on a concrete table: both tiles it selects come out of one group
 * of four, the group keeps the second of them, and that tile ends up on the table twice. The
 * one-tile-per-set selection declines the same move.
 */
module CombineExample {
  import opened Tiles
  import opened Optional
  import opened Ordering
  import opened Rules
  import opened BotSets
  import opened Extension
  import opened HardSimple
  import opened HardManip

  const K5 := Numbered(1, Black, 5)
  const R5 := Numbered(2, Red, 5)
  const U5 := Numbered(3, Blue, 5)
  const O5 := Numbered(4, Orange, 5)
  /** The hand tile: a second red 5. */
  const P5 := Numbered(5, Red, 5)

  const FourFives: seq<Tile> := [K5, R5, U5, O5]
  const MK := Match(K5, 0, Some([R5, U5, O5]))
  const MU := Match(U5, 0, Some([K5, R5, O5]))
  const MO := Match(O5, 0, Some([K5, R5, U5]))

  /**
   * With the group of four fives on the table and a red 5 in hand, tryCombineSets as written
   * answers with a valid table in which the blue 5 lies twice: the table and hand it returns
   * hold six ids where there were five.
   */
  lemma CombineAsWrittenDuplicates()
    ensures var r := CombineSetsAsWritten(P5, [P5], [FourFives]);
      && r == Some(Extended([[R5, U5, O5], [P5, K5, U5]], [], 1))
      && IdBag(Flatten(r.value.tableSets))[U5.id] == 2
      && !MovedFrom([FourFives], [P5], 0, r.value)
  {
    AsWrittenOn(P5, [P5], [FourFives], [[R5, U5, O5], [P5, K5, U5]]);
    ExampleCounts([[R5, U5, O5], [P5, K5, U5]]);
  }

  lemma AsWrittenOn(tile: Tile, hand: seq<Tile>, table: seq<seq<Tile>>, newTable: seq<seq<Tile>>)
    requires tile == P5 && hand == [P5] && table == [FourFives] && newTable == [[R5, U5, O5], [P5, K5, U5]]
    ensures CombineWith(tile, hand, table, false) == Some(Extended(newTable, [], 1))
  {
    var matches := [MK, MU, MO];
    ExampleMatches(tile, table);
    var selected := [MK, MU];
    SelectAsWritten(matches, selected);
    Group3(P5, K5, U5);
    ExampleRebuild(table, selected);
    Group3(R5, U5, O5);
    assert newTable[0] == [R5, U5, O5] && newTable[1] == [P5, K5, U5];
    assert AllValid(newTable);
    assert RemoveId(hand, tile.id) == [];
    assert Rebuild(table, selected, 0) + [[tile, selected[0].tile, selected[1].tile]] == newTable;
  }

  lemma SelectAsWritten(matches: seq<Match>, selected: seq<Match>)
    requires matches == [MK, MU, MO] && selected == [MK, MU]
    ensures Select(matches, [Red], [], false) == selected
  {
    assert matches[1..] == [MU, MO];
    assert Select(matches, [Red], [], false) == Select([MU, MO], [Red, Black], [MK], false);
  }

  /** The corrected selection takes the black 5 only, so no move is made. */
  lemma CombineSetsDeclines()
    ensures CombineSets(P5, [P5], [FourFives]) == None
  {
    CorrectedOn(P5, [P5], [FourFives]);
  }

  lemma CorrectedOn(tile: Tile, hand: seq<Tile>, table: seq<seq<Tile>>)
    requires tile == P5 && hand == [P5] && table == [FourFives]
    ensures CombineWith(tile, hand, table, true) == None
  {
    var matches := [MK, MU, MO];
    ExampleMatches(tile, table);
    SelectOnePerSet(matches);
  }

  lemma SelectOnePerSet(matches: seq<Match>)
    requires matches == [MK, MU, MO]
    ensures Select(matches, [Red], [], true) == [MK]
  {
    assert matches[1..] == [MU, MO] && [MU, MO][1..] == [MO] && [MO][1..] == [];
    assert MK in [MK];
    assert [Red] + [MK.tile.color] == [Red, Black] && [] + [MK] == [MK];
    assert Select(matches, [Red], [], true) == Select([MU, MO], [Red, Black], [MK], true);
    assert Select([MU, MO], [Red, Black], [MK], true) == Select([MO], [Red, Black], [MK], true);
    assert Select([MO], [Red, Black], [MK], true) == Select([], [Red, Black], [MK], true);
  }

  /** The ids of the answer: the blue 5 twice, six in all. */
  lemma ExampleCounts(newTable: seq<seq<Tile>>)
    requires newTable == [[R5, U5, O5], [P5, K5, U5]]
    ensures IdBag(Flatten(newTable))[U5.id] == 2
    ensures !MovedFrom([FourFives], [P5], 0, Extended(newTable, [], 1))
  {
    assert Flatten(newTable) == [R5, U5, O5] + Flatten([[P5, K5, U5]]) by {
      assert newTable[1..] == [[P5, K5, U5]];
    }
    FlattenOne([P5, K5, U5]);
    FlattenOne(FourFives);
    var ids := IdsOf([R5, U5, O5, P5, K5, U5]);
    assert [R5, U5, O5] + [P5, K5, U5] == [R5, U5, O5, P5, K5, U5];
    assert |IdBag(Flatten(newTable))| == 6;
    assert |IdBag(Flatten([FourFives])) + IdBag([P5])| == 5;
    IdsFives();
  }

  lemma IdsFives()
    ensures IdBag([R5, U5, O5, P5, K5, U5])[3] == 2
  {
    var s := [R5, U5, O5, P5, K5, U5];
    assert IdsOf(s) == [2] + IdsOf(s[1..]);
    assert IdsOf(s[1..]) == [3] + IdsOf(s[2..]);
    assert IdsOf(s[2..]) == [4] + IdsOf(s[3..]);
    assert IdsOf(s[3..]) == [5] + IdsOf(s[4..]);
    assert IdsOf(s[4..]) == [1] + IdsOf(s[5..]);
    assert IdsOf(s[5..]) == [3] + IdsOf(s[6..]);
    assert IdsOf(s) == [2, 3, 4, 5, 1, 3];
  }

  /** Three numbered tiles of one number and three colours form a group. */
  lemma Group3(a: Tile, b: Tile, c: Tile)
    requires a.Numbered? && b.Numbered? && c.Numbered?
    requires a.number == b.number == c.number
    requires a.color != b.color && a.color != c.color && b.color != c.color
    ensures IsValidSet([a, b, c]).valid
  {
    var g := [a, b, c];
    AllNumberedRegular(g);
    assert ColorsOf(g) == [a.color] + ColorsOf([b, c]) by { assert g[1..] == [b, c]; }
    assert ColorsOf([b, c]) == [b.color] + ColorsOf([c]) by { assert [b, c][1..] == [c]; }
    assert ColorsOf([c]) == [c.color] + ColorsOf([]) by { assert [c][1..] == []; }
    ValidGroupIff(g);
  }

  /** The matches: every five but the red one, each leaving a group of three. */
  lemma ExampleMatches(tile: Tile, table: seq<seq<Tile>>)
    requires tile == P5 && table == [FourFives]
    ensures CombineMatches(tile, table, 0) == [MK, MU, MO]
  {
    var s := table[0];
    assert CombineMatches(tile, table, 1) == [];
    var c := ExampleScan(tile, s);
    assert CombineMatches(tile, table, 0) == c + [];
  }

  lemma ExampleScan(tile: Tile, s: seq<Tile>) returns (c: seq<Match>)
    requires tile == P5 && s == FourFives
    ensures c == CombineIn(tile, s, 0, s) && c == [MK, MU, MO]
  {
    var t1, t2, t3 := s[1..], s[2..], s[3..];
    assert t1 == [R5, U5, O5] && t2 == [U5, O5] && t3 == [O5] && t3[1..] == [];
    MatchK(s);
    MatchU(s);
    MatchO(s);
    assert CombineMatch(tile, s, 0, R5) == [];
    InStep(tile, s, t3, [MO], []);
    InStep(tile, s, t2, [MU], [MO]);
    InStep(tile, s, t1, [], [MU, MO]);
    InStep(tile, s, s, [MK], [MU, MO]);
    c := [MK, MU, MO];
  }

  /** One more tile in front of the scanned ones. */
  lemma InStep(tile: Tile, set_: seq<Tile>, tiles: seq<Tile>, head: seq<Match>, later: seq<Match>)
    requires tile.Numbered? && tiles != []
    requires CombineMatch(tile, set_, 0, tiles[0]) == head && CombineIn(tile, set_, 0, tiles[1..]) == later
    ensures CombineIn(tile, set_, 0, tiles) == head + later
  {
  }

  lemma MatchK(s: seq<Tile>)
    requires s == FourFives
    ensures CombineMatch(P5, s, 0, K5) == [MK]
  {
    RemoveFirst(s);
    Group3(R5, U5, O5);
  }

  lemma MatchU(s: seq<Tile>)
    requires s == FourFives
    ensures CombineMatch(P5, s, 0, U5) == [MU]
  {
    RemoveThird(s);
    Group3(K5, R5, O5);
  }

  lemma MatchO(s: seq<Tile>)
    requires s == FourFives
    ensures CombineMatch(P5, s, 0, O5) == [MO]
  {
    RemoveFourth(s);
    Group3(K5, R5, U5);
  }

  lemma RemoveFirst(s: seq<Tile>)
    requires s == FourFives
    ensures RemoveId(s, K5.id) == [R5, U5, O5]
  {
    assert s[1..] == [R5, U5, O5] && s[2..] == [U5, O5] && s[3..] == [O5] && s[4..] == [];
    assert RemoveId(s[3..], 1) == [O5];
    assert RemoveId(s[2..], 1) == [U5, O5];
    assert RemoveId(s[1..], 1) == [R5, U5, O5];
  }

  lemma RemoveThird(s: seq<Tile>)
    requires s == FourFives
    ensures RemoveId(s, U5.id) == [K5, R5, O5]
  {
    assert s[1..] == [R5, U5, O5] && s[2..] == [U5, O5] && s[3..] == [O5] && s[4..] == [];
    assert RemoveId(s[3..], 3) == [O5];
    assert RemoveId(s[2..], 3) == [O5];
    assert RemoveId(s[1..], 3) == [R5, O5];
  }

  lemma RemoveFourth(s: seq<Tile>)
    requires s == FourFives
    ensures RemoveId(s, O5.id) == [K5, R5, U5]
  {
    assert s[1..] == [R5, U5, O5] && s[2..] == [U5, O5] && s[3..] == [O5] && s[4..] == [];
    assert RemoveId(s[3..], 4) == [];
    assert RemoveId(s[2..], 4) == [U5];
    assert RemoveId(s[1..], 4) == [R5, U5];
  }

  /** The group keeps what the first selected match leaves of it. */
  lemma ExampleRebuild(table: seq<seq<Tile>>, selected: seq<Match>)
    requires table == [FourFives] && selected == [MK, MU]
    ensures Rebuild(table, selected, 0) == [[R5, U5, O5]]
  {
    assert FirstAt(selected, 0) == Some(MK);
    assert Rebuild(table, selected, 1) == [];
  }
}
