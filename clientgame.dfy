/**
 * The client's game store (client/src/stores/gameStore.js): the committed hand and table as
 * the server last sent them, and the local copies the player drags tiles around in until the
 * turn is ended, reverted or overwritten by the next server update.
 */
module ClientGame {
  import opened Tiles
  import opened Optional
  import opened Ordering
  import ChatStore

  // ---------------------------------------------------------------------------------------
  // Sorting the rack

  /** `currentSortOrder`: 'color' or 'number' (null is `None`). */
  datatype SortOrder = ByColor | ByNumber

  /** `{ black: 0, red: 1, blue: 2, orange: 3 }` */
  function ColorRank(c: Color): (r: int)
    ensures 0 <= r <= 3
  {
    match c
    case Black => 0
    case Red => 1
    case Blue => 2
    case Orange => 3
  }

  /** Where a tile sorts: number tiles by two values compared in turn, jokers after all of them. */
  datatype SortKey = Face(major: int, minor: int) | Last

  function KeyOf(t: Tile, ord: SortOrder): SortKey {
    match t
    case Joker(_) => Last
    case Numbered(_, c, n) => if ord == ByColor then Face(ColorRank(c), n) else Face(n, ColorRank(c))
  }

  /** The comparator of both sorts is not positive: `a` may stay before `b`. */
  predicate KeyLe(a: SortKey, b: SortKey) {
    b.Last? || (a.Face? && (a.major < b.major || (a.major == b.major && a.minor <= b.minor)))
  }

  /** Inserts `x` before the first tile it does not sort after, so earlier tiles stay first among equals. */
  function InsertTile(x: Tile, s: seq<Tile>, ord: SortOrder): (r: seq<Tile>)
    ensures multiset(r) == multiset(s) + multiset{x}
  {
    if s == [] || KeyLe(KeyOf(x, ord), KeyOf(s[0], ord)) then [x] + s
    else
      assert s == [s[0]] + s[1..];
      [s[0]] + InsertTile(x, s[1..], ord)
  }

  /** `[...tiles].sort(comparator)`: JavaScript's sort is stable. */
  function SortTiles(s: seq<Tile>, ord: SortOrder): (r: seq<Tile>)
    ensures multiset(r) == multiset(s)
  {
    if s == [] then []
    else
      assert s == [s[0]] + s[1..];
      InsertTile(s[0], SortTiles(s[1..], ord), ord)
  }

  /** The rack as the current sort order leaves it. */
  function SortedBy(s: seq<Tile>, order: Option<SortOrder>): seq<Tile> {
    match order
    case None => s
    case Some(ord) => SortTiles(s, ord)
  }

  predicate Ordered(s: seq<Tile>, ord: SortOrder) {
    forall i, j :: 0 <= i < j < |s| ==> KeyLe(KeyOf(s[i], ord), KeyOf(s[j], ord))
  }

  /** The tiles of `s` that sort level with key `k`, in order. */
  function WithKey(s: seq<Tile>, k: SortKey, ord: SortOrder): seq<Tile> {
    if s == [] then [] else (if KeyOf(s[0], ord) == k then [s[0]] else []) + WithKey(s[1..], k, ord)
  }

  lemma {:induction false} InsertTileOrdered(x: Tile, s: seq<Tile>, ord: SortOrder)
    requires Ordered(s, ord)
    ensures Ordered(InsertTile(x, s, ord), ord)
  {
    if s != [] && !KeyLe(KeyOf(x, ord), KeyOf(s[0], ord)) {
      InsertTileOrdered(x, s[1..], ord);
      var t := InsertTile(x, s[1..], ord);
      forall k | 0 <= k < |t| ensures KeyLe(KeyOf(s[0], ord), KeyOf(t[k], ord)) {
        assert t[k] in multiset(s[1..]) + multiset{x};
        if t[k] in multiset(s[1..]) {
          var m :| 0 <= m < |s[1..]| && s[1..][m] == t[k];
          assert s[m + 1] == t[k];
        }
      }
    }
  }

  lemma {:induction false} SortTilesOrdered(s: seq<Tile>, ord: SortOrder)
    ensures Ordered(SortTiles(s, ord), ord)
  {
    if s != [] {
      SortTilesOrdered(s[1..], ord);
      InsertTileOrdered(s[0], SortTiles(s[1..], ord), ord);
    }
  }

  function Level(x: Tile, k: SortKey, ord: SortOrder): seq<Tile> {
    if KeyOf(x, ord) == k then [x] else []
  }

  lemma {:induction false} InsertTileStable(x: Tile, s: seq<Tile>, k: SortKey, ord: SortOrder)
    ensures WithKey(InsertTile(x, s, ord), k, ord) == Level(x, k, ord) + WithKey(s, k, ord)
  {
    var r := InsertTile(x, s, ord);
    if s == [] || KeyLe(KeyOf(x, ord), KeyOf(s[0], ord)) {
      assert r == [x] + s;
      assert r[1..] == s;
    } else {
      var t := InsertTile(x, s[1..], ord);
      assert r == [s[0]] + t;
      InsertTileStable(x, s[1..], k, ord);
      assert r[1..] == t;
      assert WithKey(r, k, ord) == Level(s[0], k, ord) + WithKey(t, k, ord);
      assert WithKey(s, k, ord) == Level(s[0], k, ord) + WithKey(s[1..], k, ord);
      assert Level(s[0], k, ord) == [] || Level(x, k, ord) == [];
    }
  }

  lemma {:induction false} SortTilesStable(s: seq<Tile>, k: SortKey, ord: SortOrder)
    ensures WithKey(SortTiles(s, ord), k, ord) == WithKey(s, k, ord)
  {
    if s != [] {
      SortTilesStable(s[1..], k, ord);
      InsertTileStable(s[0], SortTiles(s[1..], ord), k, ord);
    }
  }

  /**
   * Both sorts rearrange the rack without adding or losing a tile; jokers go last; by colour,
   * number tiles go black, red, blue, orange and by number within a colour; by number, they
   * go by number and then by colour; tiles that compare equal keep their order.
   */
  lemma SortTilesSpec(s: seq<Tile>, ord: SortOrder)
    ensures var r := SortTiles(s, ord);
      && multiset(r) == multiset(s)
      && (forall i, j :: 0 <= i < j < |r| && r[i].Joker? ==> r[j].Joker?)
      && (forall i, j :: 0 <= i < j < |r| && r[i].Numbered? && r[j].Numbered? && ord == ByColor ==>
            ColorRank(r[i].color) < ColorRank(r[j].color)
            || (r[i].color == r[j].color && r[i].number <= r[j].number))
      && (forall i, j :: 0 <= i < j < |r| && r[i].Numbered? && r[j].Numbered? && ord == ByNumber ==>
            r[i].number < r[j].number
            || (r[i].number == r[j].number && ColorRank(r[i].color) <= ColorRank(r[j].color)))
      && (forall k :: WithKey(r, k, ord) == WithKey(s, k, ord))
  {
    var r := SortTiles(s, ord);
    SortTilesOrdered(s, ord);
    forall k ensures WithKey(r, k, ord) == WithKey(s, k, ord) {
      SortTilesStable(s, k, ord);
    }
    forall i, j | 0 <= i < j < |r| && r[i].Numbered? && r[j].Numbered? && ord == ByColor
      ensures ColorRank(r[i].color) < ColorRank(r[j].color) || (r[i].color == r[j].color && r[i].number <= r[j].number)
    {
      assert KeyLe(KeyOf(r[i], ord), KeyOf(r[j], ord));
      RankInjective(r[i].color, r[j].color);
    }
  }

  lemma RankInjective(a: Color, b: Color)
    ensures ColorRank(a) == ColorRank(b) ==> a == b
  {
  }

  // ---------------------------------------------------------------------------------------
  // Removing duplicates before a turn is sent

  /** No two tiles share an id. */
  predicate UniqueIds(tiles: seq<Tile>) {
    forall i, j :: 0 <= i < j < |tiles| ==> tiles[i].id != tiles[j].id
  }

  /** The tiles whose id is neither in `seen` nor on an earlier tile, in order. */
  function Fresh(tiles: seq<Tile>, seen: set<int>): seq<Tile> {
    if tiles == [] then []
    else
      var init := tiles[..|tiles| - 1];
      var t := tiles[|tiles| - 1];
      Fresh(init, seen) + (if t.id in seen + IdSet(init) then [] else [t])
  }

  /** Each set cut down to its fresh tiles, given the ids of the hand and of earlier sets; sets left empty go. */
  function FreshSets(sets: seq<seq<Tile>>, seen: set<int>): seq<seq<Tile>> {
    if sets == [] then []
    else
      var init := sets[..|sets| - 1];
      var kept := Fresh(sets[|sets| - 1], seen + IdSet(Flatten(init)));
      FreshSets(init, seen) + (if kept == [] then [] else [kept])
  }

  lemma IdSetSnoc(tiles: seq<Tile>, t: Tile)
    ensures IdSet(tiles + [t]) == IdSet(tiles) + {t.id}
  {
    assert forall x <- tiles + [t] :: x in tiles || x == t;
  }

  lemma IdSetConcat(a: seq<Tile>, b: seq<Tile>)
    ensures IdSet(a + b) == IdSet(a) + IdSet(b)
  {
    assert forall x <- a + b :: x in a || x in b;
  }

  lemma UniqueIdsConcat(a: seq<Tile>, b: seq<Tile>)
    requires UniqueIds(a) && UniqueIds(b) && IdSet(a) !! IdSet(b)
    ensures UniqueIds(a + b)
  {
    forall i, j | 0 <= i < j < |a + b| ensures (a + b)[i].id != (a + b)[j].id {
      if i < |a| && j >= |a| {
        assert (a + b)[i].id in IdSet(a);
        assert (a + b)[j] == b[j - |a|];
        assert (a + b)[j].id in IdSet(b);
      }
    }
  }

  /** The fresh tiles have distinct ids, are tiles of the input, and lose only the ids already seen. */
  lemma {:induction false} FreshSpec(tiles: seq<Tile>, seen: set<int>)
    ensures UniqueIds(Fresh(tiles, seen))
    ensures IdSet(Fresh(tiles, seen)) == IdSet(tiles) - seen
    ensures multiset(Fresh(tiles, seen)) <= multiset(tiles)
  {
    if tiles != [] {
      var init := tiles[..|tiles| - 1];
      var t := tiles[|tiles| - 1];
      assert tiles == init + [t];
      FreshSpec(init, seen);
      IdSetSnoc(init, t);
      var f := Fresh(init, seen);
      if t.id !in seen + IdSet(init) {
        assert Fresh(tiles, seen) == f + [t];
        IdSetSnoc(f, t);
        UniqueIdsConcat(f, [t]);
        assert multiset(f + [t]) == multiset(f) + multiset{t};
        assert multiset(tiles) == multiset(init) + multiset{t};
      } else {
        assert Fresh(tiles, seen) == f + [] == f;
        assert multiset(tiles) == multiset(init) + multiset{t};
      }
    }
  }

  /** The two halves of a list with distinct ids have distinct ids, and none in common. */
  lemma UniqueIdsParts(a: seq<Tile>, b: seq<Tile>)
    requires UniqueIds(a + b)
    ensures UniqueIds(a) && UniqueIds(b) && IdSet(a) !! IdSet(b)
  {
    var ab := a + b;
    forall i, j | 0 <= i < j < |a| ensures a[i].id != a[j].id {
      assert ab[i] == a[i] && ab[j] == a[j];
    }
    forall i, j | 0 <= i < j < |b| ensures b[i].id != b[j].id {
      assert ab[|a| + i] == b[i] && ab[|a| + j] == b[j];
    }
    forall x | x in a ensures x.id !in IdSet(b) {
      var i :| 0 <= i < |a| && a[i] == x;
      forall y | y in b ensures y.id != x.id {
        var j :| 0 <= j < |b| && b[j] == y;
        assert ab[i] == x && ab[|a| + j] == y;
      }
    }
  }

  /** Fresh tiles from distinct ids none of which was seen are the tiles themselves. */
  lemma {:induction false} FreshKeepsClean(tiles: seq<Tile>, seen: set<int>)
    requires UniqueIds(tiles) && IdSet(tiles) !! seen
    ensures Fresh(tiles, seen) == tiles
  {
    if tiles != [] {
      var init := tiles[..|tiles| - 1];
      var t := tiles[|tiles| - 1];
      assert tiles == init + [t];
      UniqueIdsParts(init, [t]);
      IdSetSnoc(init, t);
      assert IdSet([t]) == {t.id};
      FreshKeepsClean(init, seen);
    }
  }

  /** One more set on the table: its fresh tiles follow those of the earlier sets. */
  lemma FreshSetsSnoc(sets: seq<seq<Tile>>, seen: set<int>)
    requires sets != []
    ensures var init := sets[..|sets| - 1];
      var last := sets[|sets| - 1];
      var kept := Fresh(last, seen + IdSet(Flatten(init)));
      && Flatten(FreshSets(sets, seen)) == Flatten(FreshSets(init, seen)) + kept
      && Flatten(sets) == Flatten(init) + last
  {
    var init := sets[..|sets| - 1];
    var last := sets[|sets| - 1];
    var kept := Fresh(last, seen + IdSet(Flatten(init)));
    var r0 := FreshSets(init, seen);
    FlattenSnoc(sets, |sets| - 1);
    assert sets[..|sets|] == sets;
    if kept == [] {
      assert FreshSets(sets, seen) == r0;
      assert Flatten(r0) + kept == Flatten(r0);
    } else {
      FlattenConcat(r0, [kept]);
      FlattenOne(kept);
    }
  }

  lemma {:induction false} FreshSetsNonEmpty(sets: seq<seq<Tile>>, seen: set<int>)
    ensures forall s <- FreshSets(sets, seen) :: s != []
  {
    if sets != [] {
      FreshSetsNonEmpty(sets[..|sets| - 1], seen);
    }
  }

  /** Fresh tiles of one more set, after a prefix already cut down, keep the three properties of FreshSpec. */
  lemma AppendFresh(a: seq<Tile>, a2: seq<Tile>, last: seq<Tile>, seen: set<int>)
    requires UniqueIds(a2) && IdSet(a2) == IdSet(a) - seen && multiset(a2) <= multiset(a)
    ensures var k := Fresh(last, seen + IdSet(a));
      && UniqueIds(a2 + k)
      && IdSet(a2 + k) == IdSet(a + last) - seen
      && multiset(a2 + k) <= multiset(a + last)
  {
    var k := Fresh(last, seen + IdSet(a));
    FreshSpec(last, seen + IdSet(a));
    IdSetConcat(a2, k);
    IdSetConcat(a, last);
    UniqueIdsConcat(a2, k);
  }

  lemma {:induction false} FreshSetsFlat(sets: seq<seq<Tile>>, seen: set<int>)
    ensures UniqueIds(Flatten(FreshSets(sets, seen)))
    ensures IdSet(Flatten(FreshSets(sets, seen))) == IdSet(Flatten(sets)) - seen
    ensures multiset(Flatten(FreshSets(sets, seen))) <= multiset(Flatten(sets))
  {
    if sets != [] {
      var init := sets[..|sets| - 1];
      FreshSetsFlat(init, seen);
      FreshSetsSnoc(sets, seen);
      AppendFresh(Flatten(init), Flatten(FreshSets(init, seen)), sets[|sets| - 1], seen);
    }
  }

  /** The cut-down sets are non-empty, distinct in their ids, tiles of the input, and lose only the ids already seen. */
  lemma FreshSetsSpec(sets: seq<seq<Tile>>, seen: set<int>)
    ensures forall s <- FreshSets(sets, seen) :: s != []
    ensures UniqueIds(Flatten(FreshSets(sets, seen)))
    ensures IdSet(Flatten(FreshSets(sets, seen))) == IdSet(Flatten(sets)) - seen
    ensures multiset(Flatten(FreshSets(sets, seen))) <= multiset(Flatten(sets))
  {
    FreshSetsNonEmpty(sets, seen);
    FreshSetsFlat(sets, seen);
  }

  lemma FlattenOne(s: seq<Tile>)
    ensures Flatten([s]) == s
  {
    assert Flatten([s]) == s + Flatten([]);
  }

  /** Sets that are non-empty, distinct in their ids and clear of the seen ids come through unchanged. */
  lemma {:induction false} FreshSetsKeepClean(sets: seq<seq<Tile>>, seen: set<int>)
    requires forall i :: 0 <= i < |sets| ==> sets[i] != []
    requires UniqueIds(Flatten(sets)) && IdSet(Flatten(sets)) !! seen
    ensures FreshSets(sets, seen) == sets
  {
    if sets != [] {
      var init := sets[..|sets| - 1];
      var last := sets[|sets| - 1];
      var flatInit := Flatten(init);
      assert Flatten(sets) == flatInit + last by {
        FlattenSnoc(sets, |sets| - 1);
        assert sets[..|sets|] == sets;
      }
      CleanParts(flatInit, last, seen);
      FreshSetsKeepClean(init, seen);
      FreshKeepsClean(last, seen + IdSet(flatInit));
      FreshSetsUnfold(sets, seen, last);
      assert sets == init + [last];
    }
  }

  /** The last set, when its fresh tiles are all of it, stays as the last set. */
  lemma FreshSetsUnfold(sets: seq<seq<Tile>>, seen: set<int>, kept: seq<Tile>)
    requires sets != [] && kept != []
    requires kept == Fresh(sets[|sets| - 1], seen + IdSet(Flatten(sets[..|sets| - 1])))
    ensures FreshSets(sets, seen) == FreshSets(sets[..|sets| - 1], seen) + [kept]
  {
  }

  /** Both halves of a clean list are clean, the second also of the first's ids. */
  lemma CleanParts(a: seq<Tile>, b: seq<Tile>, seen: set<int>)
    requires UniqueIds(a + b) && IdSet(a + b) !! seen
    ensures UniqueIds(a) && IdSet(a) !! seen
    ensures UniqueIds(b) && IdSet(b) !! seen + IdSet(a)
  {
    UniqueIdsParts(a, b);
    IdSetConcat(a, b);
  }

  /** deduplicateTiles as a value: the hand first, then the table, sharing the ids seen so far. */
  function Deduplicated(hand: seq<Tile>, table: seq<seq<Tile>>): (seq<Tile>, seq<seq<Tile>>) {
    (Fresh(hand, {}), FreshSets(table, IdSet(hand)))
  }

  /**
   * After deduplication no id appears twice anywhere, every id of the hand and table is still
   * present, nothing new appears, and no set is empty; a hand and table already clean of
   * duplicates and empty sets are left as they are.
   */
  lemma DeduplicatedSpec(hand: seq<Tile>, table: seq<seq<Tile>>)
    ensures var (h, t) := Deduplicated(hand, table);
      && UniqueIds(h + Flatten(t))
      && IdSet(h) + IdSet(Flatten(t)) == IdSet(hand) + IdSet(Flatten(table))
      && multiset(h) <= multiset(hand) && multiset(Flatten(t)) <= multiset(Flatten(table))
      && (forall s <- t :: s != [])
      && ((forall s <- table :: s != []) && UniqueIds(hand + Flatten(table)) ==> h == hand && t == table)
  {
    var (h, t) := Deduplicated(hand, table);
    FreshSpec(hand, {});
    FreshSetsSpec(table, IdSet(hand));
    UniqueIdsConcat(h, Flatten(t));
    if (forall s <- table :: s != []) && UniqueIds(hand + Flatten(table)) {
      UniqueIdsParts(hand, Flatten(table));
      FreshKeepsClean(hand, {});
      assert forall i :: 0 <= i < |table| ==> table[i] in table;
      FreshSetsKeepClean(table, IdSet(hand));
    }
  }

  // ---------------------------------------------------------------------------------------
  // Dragging tiles between the rack and the table

  /** `findIndex(t => t.id === id)`: the first position with that id, or -1. */
  function FindById(tiles: seq<Tile>, id: int): (r: int)
    ensures -1 <= r < |tiles|
    ensures r >= 0 ==> tiles[r].id == id && forall j :: 0 <= j < r ==> tiles[j].id != id
    ensures r == -1 ==> forall t <- tiles :: t.id != id
  {
    if tiles == [] then -1
    else if tiles[0].id == id then 0
    else
      var k := FindById(tiles[1..], id);
      if k == -1 then -1 else k + 1
  }

  /** The first tile with that id leaves; without one, nothing changes. */
  function RemoveFirst(tiles: seq<Tile>, id: int): (r: seq<Tile>)
    ensures FindById(tiles, id) == -1 ==> r == tiles
    ensures FindById(tiles, id) >= 0 ==> multiset(r) + multiset{tiles[FindById(tiles, id)]} == multiset(tiles)
    ensures |r| == |tiles| - (if FindById(tiles, id) >= 0 then 1 else 0)
  {
    var i := FindById(tiles, id);
    if i == -1 then tiles else Splice(tiles, i)
  }

  /** moveTileToTable's table: the tile joins the set at `setIndex`, or a new set when the index is out of range. */
  function PlacedOnTable(sets: seq<seq<Tile>>, tile: Tile, setIndex: int): (r: seq<seq<Tile>>)
    ensures multiset(Flatten(r)) == multiset(Flatten(sets)) + multiset{tile}
    ensures 0 <= setIndex < |sets| ==> |r| == |sets| && r[setIndex] == sets[setIndex] + [tile]
                                         && forall j :: 0 <= j < |sets| && j != setIndex ==> r[j] == sets[j]
    ensures !(0 <= setIndex < |sets|) ==> r == sets + [[tile]]
  {
    if 0 <= setIndex < |sets| then
      var r := sets[setIndex := sets[setIndex] + [tile]];
      FlattenAround(sets, setIndex);
      FlattenAround(r, setIndex);
      assert r[..setIndex] == sets[..setIndex] && r[setIndex + 1..] == sets[setIndex + 1..];
      r
    else
      FlattenConcat(sets, [[tile]]);
      FlattenOne([tile]);
      sets + [[tile]]
  }

  /** Flattening around one set. */
  lemma FlattenAround(sets: seq<seq<Tile>>, i: nat)
    requires i < |sets|
    ensures Flatten(sets) == Flatten(sets[..i]) + sets[i] + Flatten(sets[i + 1..])
  {
    var front, back := sets[..i], sets[i..];
    assert sets == front + back;
    FlattenConcat(front, back);
    assert back[0] == sets[i] && back[1..] == sets[i + 1..];
  }

  /**
   * moveTileToRack's table: when `setIndex` is in range and its set holds a tile with that id,
   * the first such tile leaves, and the set goes too once it is empty; otherwise nothing changes.
   */
  function TakenFromTable(sets: seq<seq<Tile>>, tile: Tile, setIndex: int): seq<seq<Tile>> {
    if 0 <= setIndex < |sets| && FindById(sets[setIndex], tile.id) >= 0 then
      var rest := RemoveFirst(sets[setIndex], tile.id);
      if rest == [] then Splice(sets, setIndex) else sets[setIndex := rest]
    else sets
  }

  /** Taking a tile off the table loses exactly that tile. */
  lemma TakenConserves(sets: seq<seq<Tile>>, tile: Tile, setIndex: int)
    requires 0 <= setIndex < |sets| && FindById(sets[setIndex], tile.id) >= 0
    ensures multiset(Flatten(TakenFromTable(sets, tile, setIndex))) + multiset{sets[setIndex][FindById(sets[setIndex], tile.id)]}
         == multiset(Flatten(sets))
  {
    var i := setIndex;
    var s := sets[i];
    var t := s[FindById(s, tile.id)];
    var rest := RemoveFirst(s, tile.id);
    var front, back := sets[..i], sets[i + 1..];
    var r := TakenFromTable(sets, tile, i);
    FlattenAround(sets, i);
    assert multiset(rest) + multiset{t} == multiset(s);
    if rest == [] {
      assert r == front + back;
      FlattenConcat(front, back);
    } else {
      FlattenAround(r, i);
      assert r[..i] == front && r[i + 1..] == back && r[i] == rest;
    }
  }

  /** Taking a tile off a table without empty sets leaves no empty set behind. */
  lemma TakenKeepsNonEmpty(sets: seq<seq<Tile>>, tile: Tile, setIndex: int)
    requires forall s <- sets :: s != []
    ensures forall s <- TakenFromTable(sets, tile, setIndex) :: s != []
  {
    var r := TakenFromTable(sets, tile, setIndex);
    forall s | s in r ensures s != [] {
      var k :| 0 <= k < |r| && r[k] == s;
      if 0 <= setIndex < |sets| && FindById(sets[setIndex], tile.id) >= 0 {
        var rest := RemoveFirst(sets[setIndex], tile.id);
        if rest == [] {
          assert r[k] == if k < setIndex then sets[k] else sets[k + 1];
          assert sets[k] in sets && (k + 1 < |sets| ==> sets[k + 1] in sets);
        } else {
          assert r[k] == if k == setIndex then rest else sets[k];
          assert sets[k] in sets;
        }
      } else {
        assert r[k] == sets[k] && sets[k] in sets;
      }
    }
  }

  /**
   * Dragging a rack tile to the table keeps every tile in play: what leaves the rack is the
   * dragged tile itself, and it appears on the table.
   */
  lemma MoveToTableConserves(hand: seq<Tile>, sets: seq<seq<Tile>>, tile: Tile, setIndex: int)
    requires FindById(hand, tile.id) >= 0 && hand[FindById(hand, tile.id)] == tile
    ensures multiset(RemoveFirst(hand, tile.id)) + multiset(Flatten(PlacedOnTable(sets, tile, setIndex)))
         == multiset(hand) + multiset(Flatten(sets))
  {
  }

  /** Dragging a table tile back to the rack keeps every tile in play. */
  lemma MoveToRackConserves(hand: seq<Tile>, sets: seq<seq<Tile>>, tile: Tile, setIndex: int)
    requires 0 <= setIndex < |sets| && FindById(sets[setIndex], tile.id) >= 0
    requires sets[setIndex][FindById(sets[setIndex], tile.id)] == tile
    ensures multiset(hand + [tile]) + multiset(Flatten(TakenFromTable(sets, tile, setIndex)))
         == multiset(hand) + multiset(Flatten(sets))
  {
    TakenConserves(sets, tile, setIndex);
  }

  /**
   * A tile the table set does not hold still lands on the rack: moveTileToRack with a stale
   * set index puts a second copy of a tile in play, which deduplicateTiles removes before the
   * turn is sent.
   */
  lemma MoveToRackUnfound(hand: seq<Tile>, sets: seq<seq<Tile>>, tile: Tile, setIndex: int)
    requires !(0 <= setIndex < |sets| && FindById(sets[setIndex], tile.id) >= 0)
    ensures multiset(hand + [tile]) + multiset(Flatten(TakenFromTable(sets, tile, setIndex)))
         == multiset(hand) + multiset(Flatten(sets)) + multiset{tile}
  {
  }

  /**
   * Dragging a rack tile onto a table set and straight back from that set restores the table,
   * and the rack holds the same tiles as before (the tile now at its end).
   */
  lemma MoveRoundTrip(hand: seq<Tile>, sets: seq<seq<Tile>>, tile: Tile, setIndex: int)
    requires FindById(hand, tile.id) >= 0 && hand[FindById(hand, tile.id)] == tile
    requires 0 <= setIndex < |sets| && sets[setIndex] != [] && FindById(sets[setIndex], tile.id) == -1
    ensures TakenFromTable(PlacedOnTable(sets, tile, setIndex), tile, setIndex) == sets
    ensures multiset(RemoveFirst(hand, tile.id) + [tile]) == multiset(hand)
  {
    var placed := PlacedOnTable(sets, tile, setIndex);
    var s := sets[setIndex];
    FindByIdSnoc(s, tile);
    assert (s + [tile])[..|s|] == s;
    assert RemoveFirst(s + [tile], tile.id) == s;
    assert placed[setIndex := s] == sets;
  }

  /** Dragging a rack tile onto the table as a new set and straight back restores the table. */
  lemma NewSetRoundTrip(sets: seq<seq<Tile>>, tile: Tile, setIndex: int)
    requires !(0 <= setIndex < |sets|)
    ensures TakenFromTable(PlacedOnTable(sets, tile, setIndex), tile, |sets|) == sets
  {
    var placed := PlacedOnTable(sets, tile, setIndex);
    assert placed[|sets|] == [tile];
    assert FindById([tile], tile.id) == 0;
    assert RemoveFirst([tile], tile.id) == [];
    assert Splice(placed, |sets|) == sets;
  }

  lemma {:induction false} FindByIdSnoc(s: seq<Tile>, t: Tile)
    requires FindById(s, t.id) == -1
    ensures FindById(s + [t], t.id) == |s|
  {
    if s != [] {
      assert (s + [t])[1..] == s[1..] + [t];
      FindByIdSnoc(s[1..], t);
    }
  }

  // ---------------------------------------------------------------------------------------
  // The store

  /** The part of a `game-state` event the store reads. */
  datatype ServerState = ServerState(
    players: seq<string>,
    yourTiles: seq<Tile>,
    tableSets: seq<seq<Tile>>,
    currentPlayerIndex: int,
    poolCount: int,
    reconnected: bool)

  /** The chat keeps the last hundred messages. */
  const ChatLimit: nat := 100

  /** `current?.socketId === socket?.id`: also true when neither exists. */
  function IsMine(players: seq<string>, index: int, me: Option<string>): (mine: bool)
    ensures mine <==> (if 0 <= index < |players| then me == Some(players[index]) else me.None?)
  {
    (if 0 <= index < |players| then Some(players[index]) else None) == me
  }

  /** A message appended to a buffer already cut to the newest hundred leaves the newest hundred of all. */
  lemma {:induction false} ChatKeepsNewest<T>(s: seq<T>, m: T)
    ensures ChatStore.Newest(ChatStore.Newest(s, ChatLimit) + [m], ChatLimit) == ChatStore.Newest(s + [m], ChatLimit)
  {
    var k := ChatStore.Newest(s, ChatLimit);
    if |s| > ChatLimit {
      assert k == s[|s| - ChatLimit..];
      assert (k + [m])[1..] == (s + [m])[|s + [m]| - ChatLimit..];
    }
  }

  class ClientGameStore {
    var gameId: Option<string>
    /** The players' socket ids, in seat order. */
    var players: seq<string>
    var myTiles: seq<Tile>
    var tableSets: seq<seq<Tile>>
    var currentPlayerIndex: int
    var poolCount: int
    var isSpectator: bool
    var chatMessages: seq<ChatStore.Message>
    var isMyTurn: bool
    var localTableSets: seq<seq<Tile>>
    var localMyTiles: seq<Tile>
    var hasChanges: bool
    var currentSortOrder: Option<SortOrder>
    var highlightedTileIds: set<int>

    constructor()
      ensures gameId == None && players == [] && myTiles == [] && tableSets == [] && currentPlayerIndex == 0
      ensures poolCount == 0 && !isSpectator && chatMessages == [] && !isMyTurn
      ensures localTableSets == [] && localMyTiles == [] && !hasChanges && currentSortOrder == None
      ensures highlightedTileIds == {}
    {
      gameId := None;
      players := [];
      myTiles := [];
      tableSets := [];
      currentPlayerIndex := 0;
      poolCount := 0;
      isSpectator := false;
      chatMessages := [];
      isMyTurn := false;
      localTableSets := [];
      localMyTiles := [];
      hasChanges := false;
      currentSortOrder := None;
      highlightedTileIds := {};
    }

    /** addChatMessage: pushed, then cut to the newest hundred. */
    method AddChatMessage(message: ChatStore.Message)
      modifies this`chatMessages
      ensures chatMessages == ChatStore.Newest(old(chatMessages) + [message], ChatLimit)
    {
      chatMessages := chatMessages + [message];
      if |chatMessages| > ChatLimit {
        chatMessages := chatMessages[|chatMessages| - ChatLimit..];
      }
    }

    /** applySortByColor / applySortByNumber: the rack is sorted, nothing else changes. */
    method ApplySort(ord: SortOrder)
      modifies this`localMyTiles
      ensures localMyTiles == SortTiles(old(localMyTiles), ord)
    {
      localMyTiles := SortTiles(localMyTiles, ord);
    }

    /** sortTilesByColor / sortTilesByNumber: the order is remembered for later updates, and applied. */
    method SortRack(ord: SortOrder)
      modifies this`localMyTiles, this`currentSortOrder
      ensures currentSortOrder == Some(ord)
      ensures localMyTiles == SortTiles(old(localMyTiles), ord)
    {
      currentSortOrder := Some(ord);
      ApplySort(ord);
    }

    /** Re-applies the remembered sort order, if any. */
    method Resort()
      modifies this`localMyTiles
      ensures localMyTiles == SortedBy(old(localMyTiles), currentSortOrder)
    {
      if currentSortOrder.Some? {
        ApplySort(currentSortOrder.value);
      }
    }

    /** moveTileToTable, with `setIndex` -1 when the tile starts a new set. */
    method MoveTileToTable(tile: Tile, setIndex: int)
      modifies this`localMyTiles, this`localTableSets, this`hasChanges
      ensures localMyTiles == RemoveFirst(old(localMyTiles), tile.id)
      ensures localTableSets == PlacedOnTable(old(localTableSets), tile, setIndex)
      ensures hasChanges
    {
      var tileIdx := FindById(localMyTiles, tile.id);
      if tileIdx != -1 {
        localMyTiles := Splice(localMyTiles, tileIdx);
      }
      if 0 <= setIndex < |localTableSets| {
        localTableSets := localTableSets[setIndex := localTableSets[setIndex] + [tile]];
      } else {
        localTableSets := localTableSets + [[tile]];
      }
      hasChanges := true;
    }

    /** moveTileToRack: the tile leaves its set (an emptied set goes) and joins the end of the rack. */
    method MoveTileToRack(tile: Tile, setIndex: int)
      modifies this`localMyTiles, this`localTableSets, this`hasChanges
      ensures localTableSets == TakenFromTable(old(localTableSets), tile, setIndex)
      ensures localMyTiles == old(localMyTiles) + [tile]
      ensures hasChanges
    {
      if 0 <= setIndex < |localTableSets| {
        var set_ := localTableSets[setIndex];
        var tileIdx := FindById(set_, tile.id);
        if tileIdx != -1 {
          set_ := Splice(set_, tileIdx);
          if |set_| == 0 {
            localTableSets := Splice(localTableSets, setIndex);
          } else {
            localTableSets := localTableSets[setIndex := set_];
          }
        }
      }
      localMyTiles := localMyTiles + [tile];
      hasChanges := true;
    }

    /** updateLocalTableSets */
    method UpdateLocalTableSets(sets: seq<seq<Tile>>)
      modifies this`localTableSets, this`hasChanges
      ensures localTableSets == sets && hasChanges
    {
      localTableSets := sets;
      hasChanges := true;
    }

    /** updateLocalMyTiles */
    method UpdateLocalMyTiles(tiles: seq<Tile>)
      modifies this`localMyTiles, this`hasChanges
      ensures localMyTiles == tiles && hasChanges
    {
      localMyTiles := tiles;
      hasChanges := true;
    }

    /** revertChanges: the local copies become the committed state again, the rack in the remembered order. */
    method RevertChanges()
      modifies this`localMyTiles, this`localTableSets, this`hasChanges
      ensures localMyTiles == SortedBy(myTiles, currentSortOrder) && multiset(localMyTiles) == multiset(myTiles)
      ensures localTableSets == tableSets && !hasChanges
    {
      localMyTiles := myTiles;
      localTableSets := tableSets;
      hasChanges := false;
      Resort();
    }

    /** deduplicateTiles: the first tile of each id is kept, the rack scanned before the table. */
    method DeduplicateTiles()
      modifies this`localMyTiles, this`localTableSets
      ensures localMyTiles == Deduplicated(old(localMyTiles), old(localTableSets)).0
      ensures localTableSets == Deduplicated(old(localMyTiles), old(localTableSets)).1
    {
      var dedupedPlayerTiles, seenIds := DedupeSet(localMyTiles, {});
      assert seenIds == IdSet(localMyTiles);
      var dedupedTableSets := DedupeTable(localTableSets, seenIds);
      localMyTiles := dedupedPlayerTiles;
      localTableSets := dedupedTableSets;
    }

    /** The loop over the table sets, given the ids of the rack. */
    static method DedupeTable(table: seq<seq<Tile>>, seen: set<int>) returns (dedupedTableSets: seq<seq<Tile>>)
      ensures dedupedTableSets == FreshSets(table, seen)
    {
      var seenIds := seen;
      dedupedTableSets := [];
      for i := 0 to |table|
        invariant dedupedTableSets == FreshSets(table[..i], seen)
        invariant seenIds == seen + IdSet(Flatten(table[..i]))
      {
        var dedupedSet, seenAfter := DedupeSet(table[i], seenIds);
        FlattenSnoc(table, i);
        IdSetConcat(Flatten(table[..i]), table[i]);
        assert table[..i + 1][..i] == table[..i];
        if dedupedSet != [] {
          dedupedTableSets := dedupedTableSets + [dedupedSet];
        }
        seenIds := seenAfter;
      }
      assert table[..|table|] == table;
    }

    /** The loop over one list of tiles, given the ids seen so far; also returns the ids seen after it. */
    static method DedupeSet(tiles: seq<Tile>, seen: set<int>) returns (deduped: seq<Tile>, seenIds: set<int>)
      ensures deduped == Fresh(tiles, seen)
      ensures seenIds == seen + IdSet(tiles)
    {
      seenIds := seen;
      deduped := [];
      for k := 0 to |tiles|
        invariant deduped == Fresh(tiles[..k], seen)
        invariant seenIds == seen + IdSet(tiles[..k])
      {
        assert tiles[..k + 1] == tiles[..k] + [tiles[k]];
        IdSetSnoc(tiles[..k], tiles[k]);
        var tile := tiles[k];
        if tile.id !in seenIds {
          seenIds := seenIds + {tile.id};
          deduped := deduped + [tile];
        }
      }
      assert tiles[..|tiles|] == tiles;
    }

    /**
     * updateGameState: the committed state follows the server (a spectator has no hand). The
     * local copies are replaced unless it was this player's turn with edits in progress; a
     * reconnection always replaces them and clears the edits. Tiles new on the table are
     * highlighted, and the turn flag is recomputed from the new current player.
     */
    method UpdateGameState(state: ServerState, me: Option<string>)
      modifies this`players, this`myTiles, this`localMyTiles, this`tableSets, this`localTableSets
      modifies this`currentPlayerIndex, this`poolCount, this`isMyTurn, this`hasChanges, this`highlightedTileIds
      ensures highlightedTileIds == old(highlightedTileIds) + (IdSet(Flatten(state.tableSets)) - IdSet(Flatten(old(tableSets))))
      ensures players == state.players && tableSets == state.tableSets
      ensures currentPlayerIndex == state.currentPlayerIndex && poolCount == state.poolCount
      ensures myTiles == if isSpectator then old(myTiles) else state.yourTiles
      ensures isMyTurn == IsMine(state.players, state.currentPlayerIndex, me)
      ensures state.reconnected ==> localMyTiles == myTiles && localTableSets == tableSets && !hasChanges
      ensures !state.reconnected ==> hasChanges == old(hasChanges)
      ensures !state.reconnected && old(isMyTurn) && old(hasChanges) ==>
        localMyTiles == old(localMyTiles) && localTableSets == old(localTableSets)
      ensures !state.reconnected && !(old(isMyTurn) && old(hasChanges)) ==>
        localTableSets == state.tableSets
        && localMyTiles == (if isSpectator then old(localMyTiles) else SortedBy(state.yourTiles, currentSortOrder))
    {
      Highlight(state.tableSets);
      players := state.players;
      var keepEdits := isMyTurn && hasChanges;
      ReceiveHand(state.yourTiles, keepEdits);
      ReceiveTable(state.tableSets, keepEdits);
      ReceiveTurn(state.currentPlayerIndex, state.poolCount, me);
      if state.reconnected {
        Resync();
      }
    }

    /** The turn part of updateGameState, with checkIfMyTurn. */
    method ReceiveTurn(index: int, pool: int, me: Option<string>)
      modifies this`currentPlayerIndex, this`poolCount, this`isMyTurn
      ensures currentPlayerIndex == index && poolCount == pool && isMyTurn == IsMine(players, index, me)
    {
      currentPlayerIndex := index;
      poolCount := pool;
      isMyTurn := IsMine(players, currentPlayerIndex, me);
    }

    /** On reconnection the local copies are forced back to the committed state. */
    method Resync()
      modifies this`localMyTiles, this`localTableSets, this`hasChanges
      ensures localMyTiles == myTiles && localTableSets == tableSets && !hasChanges
    {
      localMyTiles := myTiles;
      localTableSets := tableSets;
      hasChanges := false;
    }

    /** The ids on the new table that were not on the committed one are highlighted (their later removal is timed, and not modelled). */
    method Highlight(newTable: seq<seq<Tile>>)
      modifies this`highlightedTileIds
      ensures highlightedTileIds == old(highlightedTileIds) + (IdSet(Flatten(newTable)) - IdSet(Flatten(tableSets)))
    {
      highlightedTileIds := highlightedTileIds + (IdSet(Flatten(newTable)) - IdSet(Flatten(tableSets)));
    }

    /** The table part of updateGameState: the committed table follows the server, and so does the local one unless edits are kept. */
    method ReceiveTable(newTable: seq<seq<Tile>>, keepEdits: bool)
      modifies this`tableSets, this`localTableSets
      ensures tableSets == newTable
      ensures localTableSets == if keepEdits then old(localTableSets) else newTable
    {
      tableSets := newTable;
      if !keepEdits {
        localTableSets := newTable;
      }
    }

    /** The hand part of updateGameState: a player's committed hand follows the server, and so does the rack unless edits are kept. */
    method ReceiveHand(yourTiles: seq<Tile>, keepEdits: bool)
      modifies this`myTiles, this`localMyTiles
      ensures myTiles == if isSpectator then old(myTiles) else yourTiles
      ensures localMyTiles == if isSpectator || keepEdits then old(localMyTiles) else SortedBy(yourTiles, currentSortOrder)
    {
      if !isSpectator {
        myTiles := yourTiles;
        if !keepEdits {
          localMyTiles := yourTiles;
          Resort();
        }
      }
    }

    /** startTurn: the local copies are reset to the committed state and the edits cleared (the countdown is not modelled). */
    method StartTurn()
      modifies this`isMyTurn, this`hasChanges, this`localMyTiles, this`localTableSets
      ensures isMyTurn && !hasChanges && localMyTiles == myTiles && localTableSets == tableSets
    {
      isMyTurn := true;
      hasChanges := false;
      localMyTiles := myTiles;
      localTableSets := tableSets;
    }

    /** handleTurnTimeout: the turn is over and the local copies revert to the committed state. */
    method HandleTurnTimeout()
      modifies this`isMyTurn, this`hasChanges, this`localMyTiles, this`localTableSets
      ensures !isMyTurn && !hasChanges && localMyTiles == myTiles && localTableSets == tableSets
    {
      isMyTurn := false;
      hasChanges := false;
      localMyTiles := myTiles;
      localTableSets := tableSets;
    }
  }
}
