/**
 * The Hard bot's table manipulations: taking the end tile of a long run, taking a tile out of
 * a group of four, splitting a long run around a hand tile, combining tiles borrowed from
 * several sets, and tryAllManipulations, which keeps the best of them. Each manipulation
 * answers `null` (None) or a new table, the hand it leaves and the number of hand tiles used,
 * and answers only once validateTableState accepts the new table.
 */
module HardManip {
  import opened Tiles
  import opened Optional
  import opened Ordering
  import opened Rules
  import opened BotSets
  import opened Extension
  import opened HardSimple

  // ---------------------------------------------------------------------------
  // Shared pieces
  // ---------------------------------------------------------------------------

  /** The manipulation's answer once `validateTableState(newTableSets).valid`; otherwise it goes on. */
  function Checked(table: seq<seq<Tile>>, hand: seq<Tile>, played: nat): Option<Extended> {
    if AllValid(table) then Some(Extended(table, hand, played)) else None
  }

  /** The first attempt that answers; the later ones only run when it did not. */
  function OrElse(a: Option<Extended>, b: Option<Extended>): Option<Extended> {
    if a.Some? then a else b
  }

  function Abs(x: int): nat {
    if x < 0 then -x else x
  }

  /** `t => !t.isJoker && t.number === n` */
  function NumberIs(n: int): Tile -> bool {
    (t: Tile) => t.Numbered? && t.number == n
  }

  /**
   * The third tile of a group: another hand tile (not `id`), no joker, number `n` and a colour
   * other than `c1` and `c2`.
   */
  function ThirdForGroup(id: int, n: int, c1: Color, c2: Color): Tile -> bool {
    (t: Tile) => t.id != id && t.Numbered? && t.number == n && t.color != c1 && t.color != c2
  }

  /** The third tile of a run: another hand tile (not `id`), no joker, colour `c`, number `n`. */
  function ThirdForRun(id: int, c: Color, n: int): Tile -> bool {
    (t: Tile) => t.id != id && t.Numbered? && t.color == c && t.number == n
  }

  /**
   * Form the group `[tile, taken, third]` with a third tile from the hand, `taken` having come
   * off set `i`, which becomes `rest`. Both hand tiles are played.
   */
  function WithThird(tile: Tile, hand: seq<Tile>, table: seq<seq<Tile>>, i: nat, rest: seq<Tile>, taken: Tile)
    : Option<Extended>
    requires tile.Numbered? && taken.Numbered? && i < |table|
  {
    match FindFirst(hand, ThirdForGroup(tile.id, tile.number, tile.color, taken.color))
    case None => None
    case Some(k) =>
      var third := hand[k];
      var group := [tile, taken, third];
      if !IsValidSet(group).valid then None
      else Checked(table[i := rest] + [group], RemoveId(RemoveId(hand, tile.id), third.id), 2)
  }

  // ---------------------------------------------------------------------------
  // findMatchingTilesOnTable, removeFromSet
  // ---------------------------------------------------------------------------

  /** A tile found on the table: where it lies and what its set would become without it. */
  datatype Match = Match(tile: Tile, setIdx: nat, remaining: Option<seq<Tile>>)

  /**
   * A table tile findMatchingTilesOnTable may borrow: no joker, number `n`, a colour not in
   * `exclude`, and its set still a valid set of at least 3 tiles once it is filtered out.
   */
  predicate Borrowable(t: Tile, n: int, exclude: seq<Color>, set_: seq<Tile>) {
    && t.Numbered? && t.number == n && t.color !in exclude
    && |RemoveId(set_, t.id)| >= 3 && IsValidSet(RemoveId(set_, t.id)).valid
  }

  /** The `for (const tile of set)` loop of findMatchingTilesOnTable, over `tiles`. */
  function MatchesIn(n: int, exclude: seq<Color>, set_: seq<Tile>, idx: nat, tiles: seq<Tile>): seq<Match> {
    if tiles == [] then []
    else
      (if Borrowable(tiles[0], n, exclude, set_) then [Match(tiles[0], idx, Some(RemoveId(set_, tiles[0].id)))] else [])
      + MatchesIn(n, exclude, set_, idx, tiles[1..])
  }

  /** The loop of findMatchingTilesOnTable over the sets from `i`, skipping set `skip`. */
  function MatchesFrom(n: int, exclude: seq<Color>, table: seq<seq<Tile>>, skip: int, i: nat): seq<Match>
    decreases |table| - i
  {
    if i >= |table| then []
    else (if i == skip then [] else MatchesIn(n, exclude, table[i], i, table[i])) + MatchesFrom(n, exclude, table, skip, i + 1)
  }

  /** findMatchingTilesOnTable */
  function FindMatchingTilesOnTable(n: int, exclude: seq<Color>, table: seq<seq<Tile>>, skip: int): seq<Match> {
    MatchesFrom(n, exclude, table, skip, 0)
  }

  /** removeFromSet */
  function RemoveFromSet(table: seq<seq<Tile>>, idx: nat, tile: Tile): (r: Option<seq<seq<Tile>>>)
    requires idx < |table|
    ensures r.None? <==> |RemoveId(table[idx], tile.id)| < 3 || !IsValidSet(RemoveId(table[idx], tile.id)).valid
    ensures r.Some? ==>
      && |r.value| == |table|
      && |r.value[idx]| >= 3 && IsValidSet(r.value[idx]).valid
      && (forall t <- r.value[idx] :: t in table[idx] && t.id != tile.id)
      && forall j :: 0 <= j < |table| && j != idx ==> r.value[j] == table[j]
  {
    var remaining := RemoveId(table[idx], tile.id);
    if |remaining| < 3 then None
    else if !IsValidSet(remaining).valid then None
    else Some(table[idx := remaining])
  }

  // ---------------------------------------------------------------------------
  // tryTakeRunEnd
  // ---------------------------------------------------------------------------

  /** tryTakeRunEnd */
  function TakeRunEnd(tile: Tile, hand: seq<Tile>, table: seq<seq<Tile>>): Option<Extended> {
    if tile.Joker? then None else RunEndFrom(tile, hand, table, 0)
  }

  /** The loop over the sets, from set `i`: the first set that yields an answer. */
  function RunEndFrom(tile: Tile, hand: seq<Tile>, table: seq<seq<Tile>>, i: nat): Option<Extended>
    requires tile.Numbered?
    decreases |table| - i
  {
    if i >= |table| then None
    else OrElse(RunEndAt(tile, hand, table, i), RunEndFrom(tile, hand, table, i + 1))
  }

  /** A run of at least 4 with a numbered tile: take its lowest tile, else its highest. */
  function RunEndAt(tile: Tile, hand: seq<Tile>, table: seq<seq<Tile>>, i: nat): Option<Extended>
    requires tile.Numbered? && i < |table|
  {
    var regular := Regular(table[i]);
    if IsValidSet(table[i]).kind != Some(Run) || |table[i]| < 4 || regular == [] then None
    else
      OrElse(TakeEnd(tile, hand, table, i, MinOf(Numbers(regular)), true),
             TakeEnd(tile, hand, table, i, MaxOf(Numbers(regular)), false))
  }

  /**
   * Take the first tile numbered `n` off run `i` when it matches the hand tile's number in
   * another colour and the run stays valid without it; then group it with a third hand tile
   * or, from the start of the run only (`borrow`), with a tile borrowed from another set.
   */
  function TakeEnd(tile: Tile, hand: seq<Tile>, table: seq<seq<Tile>>, i: nat, n: int, borrow: bool)
    : Option<Extended>
    requires tile.Numbered? && i < |table|
  {
    match FindFirst(table[i], NumberIs(n))
    case None => None
    case Some(k) =>
      var taken := table[i][k];
      if taken.number != tile.number || taken.color == tile.color then None
      else
        var newSet := RemoveId(table[i], taken.id);
        if !IsValidSet(newSet).valid then None
        else OrElse(WithThird(tile, hand, table, i, newSet, taken),
                    if borrow then Borrow(tile, hand, table, i, newSet, taken) else None)
  }

  /**
   * The group `[tile, taken, other]` with the first tile findMatchingTilesOnTable finds in
   * another set; that set loses it through removeFromSet. One hand tile is played.
   */
  function Borrow(tile: Tile, hand: seq<Tile>, table: seq<seq<Tile>>, i: nat, newSet: seq<Tile>, taken: Tile)
    : Option<Extended>
    requires tile.Numbered? && taken.Numbered? && i < |table|
  {
    var others := FindMatchingTilesOnTable(tile.number, [tile.color, taken.color], table, i);
    if others == [] then None
    else
      var m := others[0];
      MatchesFromSound(tile.number, [tile.color, taken.color], table, i, 0);
      assert m in others;
      var group := [tile, taken, m.tile];
      if !IsValidSet(group).valid then None
      else match RemoveFromSet(table, m.setIdx, m.tile)
        case None => None
        case Some(modified) => Checked(modified[i := newSet] + [group], RemoveId(hand, tile.id), 1)
  }

  // ---------------------------------------------------------------------------
  // tryTakeFromGroup
  // ---------------------------------------------------------------------------

  /** tryTakeFromGroup */
  function TakeFromGroup(tile: Tile, hand: seq<Tile>, table: seq<seq<Tile>>): Option<Extended> {
    if tile.Joker? then None else FromGroupFrom(tile, hand, table, 0)
  }

  function FromGroupFrom(tile: Tile, hand: seq<Tile>, table: seq<seq<Tile>>, i: nat): Option<Extended>
    requires tile.Numbered?
    decreases |table| - i
  {
    if i >= |table| then None
    else OrElse(FromGroupAt(tile, hand, table, i), FromGroupFrom(tile, hand, table, i + 1))
  }

  /** A group of four: try its tiles in order. */
  function FromGroupAt(tile: Tile, hand: seq<Tile>, table: seq<seq<Tile>>, i: nat): Option<Extended>
    requires tile.Numbered? && i < |table|
  {
    if IsValidSet(table[i]).kind != Some(Group) || |table[i]| < 4 then None
    else GroupTilesFrom(tile, hand, table, i, 0)
  }

  function GroupTilesFrom(tile: Tile, hand: seq<Tile>, table: seq<seq<Tile>>, i: nat, j: nat): Option<Extended>
    requires tile.Numbered? && i < |table|
    decreases |table[i]| - j
  {
    if j >= |table[i]| then None
    else OrElse(UseGroupTile(tile, hand, table, i, table[i][j]), GroupTilesFrom(tile, hand, table, i, j + 1))
  }

  /** One numbered tile of the group, the rest still valid: a run with it first, then a group. */
  function UseGroupTile(tile: Tile, hand: seq<Tile>, table: seq<seq<Tile>>, i: nat, t: Tile): Option<Extended>
    requires tile.Numbered? && i < |table|
  {
    if t.Joker? then None
    else
      var rest := RemoveId(table[i], t.id);
      if !IsValidSet(rest).valid then None
      else OrElse(RunWith(tile, hand, table, i, rest, t),
                  if t.number == tile.number && t.color != tile.color then WithThird(tile, hand, table, i, rest, t)
                  else None)
  }

  /**
   * The number a run of the hand tile and a group tile of its colour still needs: the one
   * between them two apart, else the one below the lower of two neighbours.
   */
  function Needed(a: int, b: int): int {
    if Abs(a - b) == 2 then Min(a, b) + 1
    else if a < b then a - 1
    else b - 1
  }

  /** The run `[tile, t, third]`, sorted by number, with a third tile from the hand. */
  function RunWith(tile: Tile, hand: seq<Tile>, table: seq<seq<Tile>>, i: nat, rest: seq<Tile>, t: Tile)
    : Option<Extended>
    requires tile.Numbered? && t.Numbered? && i < |table|
  {
    if t.color != tile.color || (Abs(t.number - tile.number) != 1 && Abs(t.number - tile.number) != 2) then None
    else match FindFirst(hand, ThirdForRun(tile.id, tile.color, Needed(t.number, tile.number)))
      case None => None
      case Some(k) => RunOf(tile, hand, table, i, rest, t, hand[k])
  }

  /** The run `[tile, t, third]` sorted by number, when valid. */
  function RunOf(tile: Tile, hand: seq<Tile>, table: seq<seq<Tile>>, i: nat, rest: seq<Tile>, t: Tile, third: Tile)
    : Option<Extended>
    requires i < |table|
  {
    var newRun := SortByNumber([tile, t, third]);
    if !IsValidSet(newRun).valid then None
    else Checked(table[i := rest] + [newRun], RemoveId(RemoveId(hand, tile.id), third.id), 2)
  }

  // ---------------------------------------------------------------------------
  // trySplitRun
  // ---------------------------------------------------------------------------

  /** trySplitRun */
  function SplitRun(tile: Tile, hand: seq<Tile>, table: seq<seq<Tile>>): Option<Extended> {
    if tile.Joker? then None else SplitFrom(tile, hand, table, 0)
  }

  function SplitFrom(tile: Tile, hand: seq<Tile>, table: seq<seq<Tile>>, i: nat): Option<Extended>
    requires tile.Numbered?
    decreases |table| - i
  {
    if i >= |table| then None
    else OrElse(SplitAt(tile, hand, table, i), SplitFrom(tile, hand, table, i + 1))
  }

  /** A run of the hand tile's colour with at least 6 tiles: its split points from 3. */
  function SplitAt(tile: Tile, hand: seq<Tile>, table: seq<seq<Tile>>, i: nat): Option<Extended>
    requires tile.Numbered? && i < |table|
  {
    var regular := Regular(table[i]);
    if IsValidSet(table[i]).kind != Some(Run) || regular == [] || tile.color != regular[0].color then None
    else if |table[i]| < 6 then None
    else SplitPoints(tile, hand, table, i, 3)
  }

  /** The split points `at` up to `length - 3`. */
  function SplitPoints(tile: Tile, hand: seq<Tile>, table: seq<seq<Tile>>, i: nat, at: nat): Option<Extended>
    requires tile.Numbered? && i < |table|
    decreases |table[i]| - at
  {
    if at + 3 > |table[i]| then None
    else OrElse(SplitHere(tile, hand, table, i, at), SplitPoints(tile, hand, table, i, at + 1))
  }

  /** The split points tried are `at` up to `length - 3`: an answer is the answer at one of them. */
  lemma {:induction false} SplitPointsAt(tile: Tile, hand: seq<Tile>, table: seq<seq<Tile>>, i: nat, at: nat)
    requires tile.Numbered? && i < |table|
    ensures var r := SplitPoints(tile, hand, table, i, at);
      r.Some? ==> exists a :: at <= a && a + 3 <= |table[i]| && r == SplitHere(tile, hand, table, i, a)
    decreases |table[i]| - at
  {
    if at + 3 <= |table[i]| && SplitHere(tile, hand, table, i, at).None? {
      SplitPointsAt(tile, hand, table, i, at + 1);
    }
  }

  /**
   * trySplitRun on set `i` answers only for a run of the hand tile's colour with at least six
   * tiles, split at a point from 3 to `length - 3`.
   */
  lemma SplitAtShape(tile: Tile, hand: seq<Tile>, table: seq<seq<Tile>>, i: nat)
    requires tile.Numbered? && i < |table|
    ensures var r := SplitAt(tile, hand, table, i);
      r.Some? ==>
        && IsValidSet(table[i]).kind == Some(Run) && |table[i]| >= 6
        && Regular(table[i]) != [] && Regular(table[i])[0].color == tile.color
        && exists a :: 3 <= a <= |table[i]| - 3 && r == SplitHere(tile, hand, table, i, a)
  {
    SplitPointsAt(tile, hand, table, i, 3);
  }

  /**
   * Both halves valid: the hand tile after the first half's highest number, else before the
   * second half's lowest. Run `i` leaves the table and the two halves go to its end.
   */
  function SplitHere(tile: Tile, hand: seq<Tile>, table: seq<seq<Tile>>, i: nat, at: nat): Option<Extended>
    requires tile.Numbered? && i < |table| && at <= |table[i]|
  {
    var first := table[i][..at];
    var second := table[i][at..];
    if !IsValidSet(first).valid || !IsValidSet(second).valid then None
    else OrElse(GrowFirst(tile, hand, table, i, first, second), GrowSecond(tile, hand, table, i, first, second))
  }

  /** The hand tile after the first half's highest number. */
  function GrowFirst(tile: Tile, hand: seq<Tile>, table: seq<seq<Tile>>, i: nat, first: seq<Tile>, second: seq<Tile>)
    : Option<Extended>
    requires tile.Numbered? && i < |table|
  {
    var firstNums := Numbers(Regular(first));
    if firstNums != [] && tile.number == MaxOf(firstNums) + 1 && IsValidSet(first + [tile]).valid
    then Checked(Splice(table, i) + [first + [tile], second], RemoveId(hand, tile.id), 1)
    else None
  }

  /** The hand tile before the second half's lowest number. */
  function GrowSecond(tile: Tile, hand: seq<Tile>, table: seq<seq<Tile>>, i: nat, first: seq<Tile>, second: seq<Tile>)
    : Option<Extended>
    requires tile.Numbered? && i < |table|
  {
    var secondNums := Numbers(Regular(second));
    if secondNums != [] && tile.number == MinOf(secondNums) - 1 && IsValidSet([tile] + second).valid
    then Checked(Splice(table, i) + [first, [tile] + second], RemoveId(hand, tile.id), 1)
    else None
  }

  // ---------------------------------------------------------------------------
  // tryCombineSets
  // ---------------------------------------------------------------------------

  /**
   * A table tile tryCombineSets may take: no joker, the hand tile's number, another colour;
   * with what its set keeps when that is a valid set of at least 3, or None when the set is
   * used up.
   */
  function CombineMatch(tile: Tile, set_: seq<Tile>, idx: nat, t: Tile): seq<Match>
    requires tile.Numbered?
  {
    if t.Joker? || t.number != tile.number || t.color == tile.color then []
    else
      var remaining := RemoveId(set_, t.id);
      if |remaining| >= 3 && IsValidSet(remaining).valid then [Match(t, idx, Some(remaining))]
      else if |remaining| == 0 then [Match(t, idx, None)]
      else []
  }

  function CombineIn(tile: Tile, set_: seq<Tile>, idx: nat, tiles: seq<Tile>): seq<Match>
    requires tile.Numbered?
  {
    if tiles == [] then [] else CombineMatch(tile, set_, idx, tiles[0]) + CombineIn(tile, set_, idx, tiles[1..])
  }

  /** The `matchingTiles` of tryCombineSets, over the sets from `i`. */
  function CombineMatches(tile: Tile, table: seq<seq<Tile>>, i: nat): seq<Match>
    requires tile.Numbered?
    decreases |table| - i
  {
    if i >= |table| then [] else CombineIn(tile, table[i], i, table[i]) + CombineMatches(tile, table, i + 1)
  }

  /**
   * The selection loop: a match of a colour not yet used is selected, stopping at two. As
   * written any two matches may be selected, even two out of the same set; `onePerSet` also
   * passes over a match from a set a selected match came from.
   */
  function Select(matches: seq<Match>, used: seq<Color>, selected: seq<Match>, onePerSet: bool): seq<Match>
    requires forall m <- matches :: m.tile.Numbered?
  {
    if matches == [] then selected
    else
      var m := matches[0];
      if m.tile.color !in used && (!onePerSet || forall s <- selected :: s.setIdx != m.setIdx) then
        if |selected + [m]| >= 2 then selected + [m]
        else Select(matches[1..], used + [m.tile.color], selected + [m], onePerSet)
      else Select(matches[1..], used, selected, onePerSet)
  }

  /** `selectedTiles.find(m => m.setIdx === i)` */
  function FirstAt(selected: seq<Match>, i: nat): Option<Match> {
    if selected == [] then None
    else if selected[0].setIdx == i then Some(selected[0])
    else FirstAt(selected[1..], i)
  }

  /**
   * The new table of tryCombineSets, from set `i`: a set a tile was selected from becomes what
   * the first such match says it keeps (or goes when it keeps nothing); the others stay.
   */
  function Rebuild(table: seq<seq<Tile>>, selected: seq<Match>, i: nat): seq<seq<Tile>>
    decreases |table| - i
  {
    if i >= |table| then [] else Piece(table, selected, i) + Rebuild(table, selected, i + 1)
  }

  /** What set `i` becomes in the new table: itself, what its match keeps, or nothing. */
  function Piece(table: seq<seq<Tile>>, selected: seq<Match>, i: nat): seq<seq<Tile>>
    requires i < |table|
  {
    match FirstAt(selected, i)
    case None => [table[i]]
    case Some(m) => if m.remaining.Some? && |m.remaining.value| >= 3 then [m.remaining.value] else []
  }

  /** tryCombineSets with the selection rule `onePerSet`. */
  function CombineWith(tile: Tile, hand: seq<Tile>, table: seq<seq<Tile>>, onePerSet: bool): Option<Extended> {
    if tile.Joker? then None
    else
      var matches := CombineMatches(tile, table, 0);
      CombineMatchesNumbered(tile, table, 0);
      if |matches| < 2 then None
      else
        var selected := Select(matches, [tile.color], [], onePerSet);
        if |selected| < 2 then None
        else
          var group := [tile, selected[0].tile, selected[1].tile];
          if !IsValidSet(group).valid then None
          else Checked(Rebuild(table, selected, 0) + [group], RemoveId(hand, tile.id), 1)
  }

  /** tryCombineSets as written: two tiles may be selected from one set. */
  function CombineSetsAsWritten(tile: Tile, hand: seq<Tile>, table: seq<seq<Tile>>): Option<Extended> {
    CombineWith(tile, hand, table, false)
  }

  /** tryCombineSets with at most one tile taken from each set. */
  function CombineSets(tile: Tile, hand: seq<Tile>, table: seq<seq<Tile>>): Option<Extended> {
    CombineWith(tile, hand, table, true)
  }

  lemma {:induction false} CombineMatchesNumbered(tile: Tile, table: seq<seq<Tile>>, i: nat)
    requires tile.Numbered?
    ensures forall m <- CombineMatches(tile, table, i) :: m.tile.Numbered?
    decreases |table| - i
  {
    if i < |table| {
      CombineInNumbered(tile, table[i], i, table[i]);
      CombineMatchesNumbered(tile, table, i + 1);
    }
  }

  lemma {:induction false} CombineInNumbered(tile: Tile, set_: seq<Tile>, idx: nat, tiles: seq<Tile>)
    requires tile.Numbered?
    ensures forall m <- CombineIn(tile, set_, idx, tiles) :: m.tile.Numbered?
  {
    if tiles != [] {
      CombineInNumbered(tile, set_, idx, tiles[1..]);
    }
  }

  // ---------------------------------------------------------------------------
  // What findMatchingTilesOnTable finds
  // ---------------------------------------------------------------------------

  /** A match findMatchingTilesOnTable reports for set `idx`. */
  predicate FoundAt(n: int, exclude: seq<Color>, table: seq<seq<Tile>>, skip: int, m: Match) {
    && m.setIdx < |table| && m.setIdx != skip
    && m.tile in table[m.setIdx]
    && Borrowable(m.tile, n, exclude, table[m.setIdx])
    && m.remaining == Some(RemoveId(table[m.setIdx], m.tile.id))
  }

  lemma {:induction false} MatchesInSound(n: int, exclude: seq<Color>, set_: seq<Tile>, idx: nat, tiles: seq<Tile>)
    ensures forall m <- MatchesIn(n, exclude, set_, idx, tiles) ::
      m.setIdx == idx && m.tile in tiles && Borrowable(m.tile, n, exclude, set_)
      && m.remaining == Some(RemoveId(set_, m.tile.id))
  {
    if tiles != [] {
      MatchesInSound(n, exclude, set_, idx, tiles[1..]);
    }
  }

  /** Every match lies in a set other than `skip` and may be borrowed from it. */
  lemma {:induction false} MatchesFromSound(n: int, exclude: seq<Color>, table: seq<seq<Tile>>, skip: int, i: nat)
    ensures forall m <- MatchesFrom(n, exclude, table, skip, i) :: FoundAt(n, exclude, table, skip, m) && m.setIdx >= i
    decreases |table| - i
  {
    if i < |table| {
      var head := if i == skip then [] else MatchesIn(n, exclude, table[i], i, table[i]);
      var tail := MatchesFrom(n, exclude, table, skip, i + 1);
      if i != skip {
        MatchesInSound(n, exclude, table[i], i, table[i]);
      }
      MatchesFromSound(n, exclude, table, skip, i + 1);
      assert MatchesFrom(n, exclude, table, skip, i) == head + tail;
      forall m <- head + tail ensures FoundAt(n, exclude, table, skip, m) && m.setIdx >= i {
        if m !in head {
          assert m in tail;
        }
      }
    }
  }

  // ---------------------------------------------------------------------------
  // What an answer promises
  // ---------------------------------------------------------------------------

  /** Each set on the table lists each tile id at most once. */
  predicate SetsDistinct(table: seq<seq<Tile>>) {
    forall j :: 0 <= j < |table| ==> Distinct(IdsOf(table[j]))
  }

  /**
   * An answer, if any, has a valid table, only moves tiles from the hand to the table (with
   * the count it reports), uses at least one hand tile, leaves a filter of the hand and never
   * takes a joker out of it.
   */
  predicate Sound(table: seq<seq<Tile>>, hand: seq<Tile>, r: Option<Extended>) {
    r.Some? ==>
      && AllValid(r.value.tableSets)
      && MovedFrom(table, hand, 0, r.value)
      && r.value.tilesPlayed > 0
      && Subsequence(r.value.remaining, hand)
      && forall t <- hand :: t.Joker? ==> t in r.value.remaining
  }

  /** What the manipulations assume of the hand tile they start from. */
  predicate Ready(table: seq<seq<Tile>>, hand: seq<Tile>, tile: Tile) {
    Distinct(IdsOf(hand)) && tile in hand && tile.Numbered? && SetsDistinct(table)
  }

  lemma {:induction false} SubsequenceRefl<T>(a: seq<T>)
    ensures Subsequence(a, a)
  {
    if a != [] {
      SubsequenceRefl(a[1..]);
    }
  }

  /** Filtering an id out of a subsequence keeps it a subsequence. */
  lemma {:induction false} RemoveIdSubsequence(a: seq<Tile>, b: seq<Tile>, id: int)
    requires Subsequence(a, b)
    ensures Subsequence(RemoveId(a, id), b)
    decreases |b|
  {
    if a != [] {
      var r := RemoveId(a[1..], id);
      if a[0] == b[0] && Subsequence(a[1..], b[1..]) {
        RemoveIdSubsequence(a[1..], b[1..], id);
        if a[0].id != id {
          assert RemoveId(a, id) == [a[0]] + r;
          assert ([a[0]] + r)[1..] == r;
        } else {
          assert RemoveId(a, id) == r;
        }
      } else {
        RemoveIdSubsequence(a, b[1..], id);
      }
    }
  }

  /** In a hand with distinct ids a tile is known by its id. */
  lemma SameId(hand: seq<Tile>, a: Tile, b: Tile)
    requires Distinct(IdsOf(hand)) && a in hand && b in hand && a.id == b.id
    ensures a == b
  {
    var i :| 0 <= i < |hand| && hand[i] == a;
    var j :| 0 <= j < |hand| && hand[j] == b;
    IdsOfAt(hand, i);
    IdsOfAt(hand, j);
  }

  /** Filtering out a numbered tile of a hand with distinct ids keeps every joker. */
  lemma KeepsJokers(hand: seq<Tile>, h: seq<Tile>, tile: Tile)
    requires Distinct(IdsOf(hand)) && tile in hand && tile.Numbered? && Subsequence(h, hand)
    ensures forall t <- h :: t.Joker? ==> t in RemoveId(h, tile.id)
  {
    SubsequenceMembers(h, hand);
    forall t <- h | t.Joker? ensures t in RemoveId(h, tile.id) {
      if t.id == tile.id {
        SameId(hand, t, tile);
      }
    }
  }

  /** The hand filter of an answer that plays one tile. */
  lemma OneTileSound(table: seq<seq<Tile>>, hand: seq<Tile>, tile: Tile, newTable: seq<seq<Tile>>, r: Option<Extended>)
    requires Distinct(IdsOf(hand)) && tile in hand && tile.Numbered?
    requires IdBag(Flatten(newTable)) == IdBag(Flatten(table)) + multiset{tile.id}
    requires r == Checked(newTable, RemoveId(hand, tile.id), 1)
    ensures Sound(table, hand, r)
  {
    if r.Some? {
      OneOut(hand, tile);
      Shift(IdBag(Flatten(table)), IdBag(Flatten(newTable)), IdBag(hand), IdBag(RemoveId(hand, tile.id)), multiset{tile.id});
    }
  }

  /** Ids that go from the hand to the table keep the two together. */
  lemma Shift(x: multiset<int>, n: multiset<int>, h: multiset<int>, hh: multiset<int>, moved: multiset<int>)
    requires n == x + moved && hh + moved == h
    ensures x + h == n + hh
  {
  }

  lemma OneOut(hand: seq<Tile>, tile: Tile)
    requires Distinct(IdsOf(hand)) && tile in hand && tile.Numbered?
    ensures var h := RemoveId(hand, tile.id);
      && IdBag(h) + multiset{tile.id} == IdBag(hand) && |h| + 1 == |hand| && Distinct(IdsOf(h))
      && Subsequence(h, hand) && forall t <- hand :: t.Joker? ==> t in h
  {
    RemoveIdMoves(hand, tile.id);
    SubsequenceRefl(hand);
    RemoveIdSubsequence(hand, hand, tile.id);
    KeepsJokers(hand, hand, tile);
  }

  /** The hand filter of an answer that plays two tiles. */
  lemma TwoTilesSound(table: seq<seq<Tile>>, hand: seq<Tile>, tile: Tile, third: Tile, newTable: seq<seq<Tile>>,
                      r: Option<Extended>)
    requires Distinct(IdsOf(hand)) && tile in hand && tile.Numbered? && third in hand && third.Numbered?
    requires tile.id != third.id
    requires IdBag(Flatten(newTable)) == IdBag(Flatten(table)) + (multiset{tile.id} + multiset{third.id})
    requires r == Checked(newTable, RemoveId(RemoveId(hand, tile.id), third.id), 2)
    ensures Sound(table, hand, r)
  {
    if r.Some? {
      var h := RemoveId(RemoveId(hand, tile.id), third.id);
      TwoOut(hand, tile, third, h);
      Shift(IdBag(Flatten(table)), IdBag(Flatten(newTable)), IdBag(hand), IdBag(h), multiset{tile.id} + multiset{third.id});
    }
  }

  lemma TwoOut(hand: seq<Tile>, tile: Tile, third: Tile, h: seq<Tile>)
    requires Distinct(IdsOf(hand)) && tile in hand && tile.Numbered? && third in hand && third.Numbered?
    requires tile.id != third.id && h == RemoveId(RemoveId(hand, tile.id), third.id)
    ensures IdBag(h) + (multiset{tile.id} + multiset{third.id}) == IdBag(hand) && |h| + 2 == |hand|
    ensures Distinct(IdsOf(h)) && Subsequence(h, hand) && forall t <- hand :: t.Joker? ==> t in h
  {
    var h1 := RemoveId(hand, tile.id);
    OneOut(hand, tile);
    assert third in h1;
    RemoveIdMoves(h1, third.id);
    RemoveIdSubsequence(h1, hand, third.id);
    KeepsJokers(hand, h1, third);
  }

  // Bags of table ids

  lemma FlattenOne(s: seq<Tile>)
    ensures Flatten([s]) == s
  {
    assert Flatten([s]) == s + Flatten([]);
  }

  lemma {:induction false} AppendBag(table: seq<seq<Tile>>, g: seq<Tile>)
    ensures IdBag(Flatten(table + [g])) == IdBag(Flatten(table)) + IdBag(g)
  {
    FlattenConcat(table, [g]);
    FlattenOne(g);
    IdBagConcat(Flatten(table), g);
  }

  lemma IdBag3(a: Tile, b: Tile, c: Tile)
    ensures IdBag([a, b, c]) == multiset{a.id} + multiset{b.id} + multiset{c.id}
  {
    assert [a, b, c][1..] == [b, c] && [b, c][1..] == [c] && [c][1..] == [];
    assert IdsOf([c]) == [c.id];
    assert IdsOf([b, c]) == [b.id] + IdsOf([c]);
    assert IdsOf([a, b, c]) == [a.id] + IdsOf([b, c]);
    assert IdsOf([a, b, c]) == [a.id] + [b.id] + [c.id];
  }

  /** Set `i` replaced by `s` that lacks the one id `a` of it: the table lacks `a`. */
  lemma {:induction false} ReplaceBag(table: seq<seq<Tile>>, i: nat, s: seq<Tile>, a: int)
    requires i < |table| && IdBag(s) + multiset{a} == IdBag(table[i])
    ensures IdBag(Flatten(table[i := s])) + multiset{a} == IdBag(Flatten(table))
  {
    var pre, post := table[..i], table[i + 1..];
    assert table == pre + [table[i]] + post;
    assert table[i := s] == pre + [s] + post;
    FlattenConcat(pre + [table[i]], post);
    FlattenConcat(pre, [table[i]]);
    FlattenConcat(pre + [s], post);
    FlattenConcat(pre, [s]);
    FlattenOne(s);
    FlattenOne(table[i]);
    IdBagConcat(Flatten(pre) + s, Flatten(post));
    IdBagConcat(Flatten(pre), s);
    IdBagConcat(Flatten(pre) + table[i], Flatten(post));
    IdBagConcat(Flatten(pre), table[i]);
  }

  /** Set `i` taken off the table. */
  lemma {:induction false} SpliceBag2(table: seq<seq<Tile>>, i: nat)
    requires i < |table|
    ensures IdBag(Flatten(Splice(table, i))) + IdBag(table[i]) == IdBag(Flatten(table))
  {
    var pre, post := table[..i], table[i + 1..];
    assert table == pre + [table[i]] + post;
    assert Splice(table, i) == pre + post;
    FlattenConcat(pre + [table[i]], post);
    FlattenConcat(pre, [table[i]]);
    FlattenConcat(pre, post);
    FlattenOne(table[i]);
    IdBagConcat(Flatten(pre) + table[i], Flatten(post));
    IdBagConcat(Flatten(pre), table[i]);
    IdBagConcat(Flatten(pre), Flatten(post));
  }

  /** Taking a tile with its id out of a set with distinct ids. */
  lemma TakeOutOf(set_: seq<Tile>, t: Tile)
    requires Distinct(IdsOf(set_)) && t in set_
    ensures IdBag(RemoveId(set_, t.id)) + multiset{t.id} == IdBag(set_)
  {
    RemoveIdMoves(set_, t.id);
  }

  /** Reordering a list of tiles keeps its ids. */
  lemma {:induction false} IdBagPermutation(a: seq<Tile>, b: seq<Tile>)
    requires multiset(a) == multiset(b)
    ensures IdBag(a) == IdBag(b)
    decreases |a|
  {
    if a != [] {
      assert a[0] in multiset(b);
      var k :| 0 <= k < |b| && b[k] == a[0];
      PermutationTail(a, b, k);
      IdBagPermutation(a[1..], Splice(b, k));
      SpliceBag(b, k);
      IdBagHead(a);
    }
  }

  lemma PermutationTail(a: seq<Tile>, b: seq<Tile>, k: nat)
    requires multiset(a) == multiset(b) && a != [] && k < |b| && b[k] == a[0]
    ensures multiset(a[1..]) == multiset(Splice(b, k))
  {
    assert a == [a[0]] + a[1..];
  }

  lemma IdBagHead(a: seq<Tile>)
    requires a != []
    ensures IdBag(a) == multiset{a[0].id} + IdBag(a[1..])
  {
    assert a == [a[0]] + a[1..];
    IdBagConcat([a[0]], a[1..]);
    assert IdBag([a[0]]) == multiset{a[0].id};
  }

  /** A set that lost `a` and gained a group of `a` and `moved`: the table gained `moved`. */
  lemma Regain(f1: multiset<int>, x: multiset<int>, f: multiset<int>, g: multiset<int>, a: multiset<int>,
               moved: multiset<int>)
    requires f1 + a == x && f == f1 + g && g == a + moved
    ensures f == x + moved
  {
  }

  /** Run `i` replaced by the two sets `p` and `q`, which hold its ids and `t`. */
  lemma {:induction false} Respliced(table: seq<seq<Tile>>, i: nat, p: seq<Tile>, q: seq<Tile>, t: int)
    requires i < |table| && IdBag(p) + IdBag(q) == IdBag(table[i]) + multiset{t}
    ensures IdBag(Flatten(Splice(table, i) + [p, q])) == IdBag(Flatten(table)) + multiset{t}
  {
    SpliceBag2(table, i);
    FlattenConcat(Splice(table, i), [p, q]);
    assert [p, q][1..] == [q];
    FlattenOne(q);
    assert Flatten([p, q]) == p + q;
    IdBagConcat(Flatten(Splice(table, i)), p + q);
    IdBagConcat(p, q);
  }

  // ---------------------------------------------------------------------------
  // Each manipulation only moves tiles
  // ---------------------------------------------------------------------------

  /** Set `i` gave up `taken` to a new set that holds it and `moved`: the table gained `moved`. */
  lemma Regrouped(table: seq<seq<Tile>>, i: nat, rest: seq<Tile>, taken: int, group: seq<Tile>, moved: multiset<int>)
    requires i < |table| && IdBag(rest) + multiset{taken} == IdBag(table[i])
    requires IdBag(group) == multiset{taken} + moved
    ensures IdBag(Flatten(table[i := rest] + [group])) == IdBag(Flatten(table)) + moved
  {
    ReplaceBag(table, i, rest, taken);
    AppendBag(table[i := rest], group);
    Regain(IdBag(Flatten(table[i := rest])), IdBag(Flatten(table)), IdBag(Flatten(table[i := rest] + [group])),
           IdBag(group), multiset{taken}, moved);
  }

  /** The ids of three tiles, the middle one apart. */
  lemma Middle3(a: Tile, b: Tile, c: Tile)
    ensures IdBag([a, b, c]) == multiset{b.id} + (multiset{a.id} + multiset{c.id})
  {
    IdBag3(a, b, c);
  }

  /** The first of two sound attempts that answers is sound. */
  lemma OrElseSound(table: seq<seq<Tile>>, hand: seq<Tile>, a: Option<Extended>, b: Option<Extended>)
    requires Sound(table, hand, a) && Sound(table, hand, b)
    ensures Sound(table, hand, OrElse(a, b))
  {
  }

  lemma WithThirdSound(tile: Tile, hand: seq<Tile>, table: seq<seq<Tile>>, i: nat, rest: seq<Tile>, taken: Tile)
    requires Ready(table, hand, tile) && taken.Numbered? && i < |table|
    requires IdBag(rest) + multiset{taken.id} == IdBag(table[i])
    ensures Sound(table, hand, WithThird(tile, hand, table, i, rest, taken))
  {
    match FindFirst(hand, ThirdForGroup(tile.id, tile.number, tile.color, taken.color))
    case None =>
    case Some(k) =>
      var third := hand[k];
      var group := [tile, taken, third];
      if IsValidSet(group).valid {
        Middle3(tile, taken, third);
        Regrouped(table, i, rest, taken.id, group, multiset{tile.id} + multiset{third.id});
        TwoTilesSound(table, hand, tile, third, table[i := rest] + [group], WithThird(tile, hand, table, i, rest, taken));
      }
  }

  /**
   * Set `i` gave up `taken` and set `j` gave up `other` to the group `[tile, taken, other]`:
   * the table gained `tile`.
   */
  lemma BorrowBag(table: seq<seq<Tile>>, i: nat, newSet: seq<Tile>, taken: Tile, j: nat, other: Tile, tile: Tile,
                  modified: seq<seq<Tile>>, newTable: seq<seq<Tile>>)
    requires i < |table| && j < |table| && i != j
    requires IdBag(newSet) + multiset{taken.id} == IdBag(table[i])
    requires Distinct(IdsOf(table[j])) && other in table[j]
    requires modified == table[j := RemoveId(table[j], other.id)]
    requires newTable == modified[i := newSet] + [[tile, taken, other]]
    ensures IdBag(Flatten(newTable)) == IdBag(Flatten(table)) + multiset{tile.id}
  {
    TakeOutOf(table[j], other);
    ReplaceBag(table, j, RemoveId(table[j], other.id), other.id);
    var fm := IdBag(Flatten(modified));
    assert modified[i] == table[i];
    IdBag3(tile, taken, other);
    Regrouped(modified, i, newSet, taken.id, [tile, taken, other], multiset{tile.id} + multiset{other.id});
    Cancel(fm, IdBag(Flatten(table)), IdBag(Flatten(newTable)), multiset{other.id}, multiset{tile.id});
  }

  /** A table that lost `o` and then gained `t` and `o` gained `t`. */
  lemma Cancel(fm: multiset<int>, x: multiset<int>, f: multiset<int>, o: multiset<int>, t: multiset<int>)
    requires f == fm + (t + o) && fm + o == x
    ensures f == x + t
  {
  }

  lemma BorrowSound(tile: Tile, hand: seq<Tile>, table: seq<seq<Tile>>, i: nat, newSet: seq<Tile>, taken: Tile)
    requires Ready(table, hand, tile) && taken.Numbered? && i < |table|
    requires IdBag(newSet) + multiset{taken.id} == IdBag(table[i])
    ensures Sound(table, hand, Borrow(tile, hand, table, i, newSet, taken))
  {
    var others := FindMatchingTilesOnTable(tile.number, [tile.color, taken.color], table, i);
    if others != [] {
      var m := others[0];
      MatchesFromSound(tile.number, [tile.color, taken.color], table, i, 0);
      assert m in others;
      var group := [tile, taken, m.tile];
      if IsValidSet(group).valid && RemoveFromSet(table, m.setIdx, m.tile).Some? {
        var modified := table[m.setIdx := RemoveId(table[m.setIdx], m.tile.id)];
        BorrowBag(table, i, newSet, taken, m.setIdx, m.tile, tile, modified, modified[i := newSet] + [group]);
        OneTileSound(table, hand, tile, modified[i := newSet] + [group], Borrow(tile, hand, table, i, newSet, taken));
      }
    }
  }

  lemma TakeEndSound(tile: Tile, hand: seq<Tile>, table: seq<seq<Tile>>, i: nat, n: int, borrow: bool)
    requires Ready(table, hand, tile) && i < |table|
    ensures Sound(table, hand, TakeEnd(tile, hand, table, i, n, borrow))
  {
    match FindFirst(table[i], NumberIs(n))
    case None =>
    case Some(k) =>
      var taken := table[i][k];
      var newSet := RemoveId(table[i], taken.id);
      if taken.number == tile.number && taken.color != tile.color && IsValidSet(newSet).valid {
        TakeOutOf(table[i], taken);
        WithThirdSound(tile, hand, table, i, newSet, taken);
        if borrow {
          BorrowSound(tile, hand, table, i, newSet, taken);
        }
      }
  }

  lemma RunEndAtSound(tile: Tile, hand: seq<Tile>, table: seq<seq<Tile>>, i: nat)
    requires Ready(table, hand, tile) && i < |table|
    ensures Sound(table, hand, RunEndAt(tile, hand, table, i))
  {
    var regular := Regular(table[i]);
    if IsValidSet(table[i]).kind == Some(Run) && |table[i]| >= 4 && regular != [] {
      TakeEndSound(tile, hand, table, i, MinOf(Numbers(regular)), true);
      TakeEndSound(tile, hand, table, i, MaxOf(Numbers(regular)), false);
      OrElseSound(table, hand, TakeEnd(tile, hand, table, i, MinOf(Numbers(regular)), true),
                  TakeEnd(tile, hand, table, i, MaxOf(Numbers(regular)), false));
    }
  }

  lemma {:induction false} RunEndFromSound(tile: Tile, hand: seq<Tile>, table: seq<seq<Tile>>, i: nat)
    requires Ready(table, hand, tile)
    ensures Sound(table, hand, RunEndFrom(tile, hand, table, i))
    decreases |table| - i
  {
    if i < |table| {
      RunEndAtSound(tile, hand, table, i);
      RunEndFromSound(tile, hand, table, i + 1);
      OrElseSound(table, hand, RunEndAt(tile, hand, table, i), RunEndFrom(tile, hand, table, i + 1));
    }
  }


  /** tryTakeRunEnd only moves tiles, and answers with a valid table. */
  lemma TakeRunEndSound(tile: Tile, hand: seq<Tile>, table: seq<seq<Tile>>)
    requires Distinct(IdsOf(hand)) && tile in hand && SetsDistinct(table)
    ensures Sound(table, hand, TakeRunEnd(tile, hand, table))
  {
    if tile.Numbered? {
      RunEndFromSound(tile, hand, table, 0);
    }
  }

  /** The sorted run of `tile`, `t` from set `i` and `third`: the table gained `tile` and `third`. */
  lemma RunBag(table: seq<seq<Tile>>, i: nat, rest: seq<Tile>, tile: Tile, t: Tile, third: Tile, newRun: seq<Tile>)
    requires i < |table| && IdBag(rest) + multiset{t.id} == IdBag(table[i])
    requires multiset(newRun) == multiset([tile, t, third])
    ensures IdBag(Flatten(table[i := rest] + [newRun])) == IdBag(Flatten(table)) + (multiset{tile.id} + multiset{third.id})
  {
    IdBagPermutation(newRun, [tile, t, third]);
    Middle3(tile, t, third);
    Regrouped(table, i, rest, t.id, newRun, multiset{tile.id} + multiset{third.id});
  }

  lemma RunWithSound(tile: Tile, hand: seq<Tile>, table: seq<seq<Tile>>, i: nat, rest: seq<Tile>, t: Tile)
    requires Ready(table, hand, tile) && t.Numbered? && i < |table|
    requires IdBag(rest) + multiset{t.id} == IdBag(table[i])
    ensures Sound(table, hand, RunWith(tile, hand, table, i, rest, t))
  {
    var r := RunWith(tile, hand, table, i, rest, t);
    if r.Some? {
      var p := ThirdForRun(tile.id, tile.color, Needed(t.number, tile.number));
      var k := FindFirst(hand, p).value;
      assert p(hand[k]);
      assert r == RunOf(tile, hand, table, i, rest, t, hand[k]);
      RunOfSound(tile, hand, table, i, rest, t, hand[k]);
    }
  }

  lemma RunOfSound(tile: Tile, hand: seq<Tile>, table: seq<seq<Tile>>, i: nat, rest: seq<Tile>, t: Tile, third: Tile)
    requires Ready(table, hand, tile) && i < |table| && third in hand && third.Numbered? && third.id != tile.id
    requires IdBag(rest) + multiset{t.id} == IdBag(table[i])
    ensures Sound(table, hand, RunOf(tile, hand, table, i, rest, t, third))
  {
    var newRun := SortByNumber([tile, t, third]);
    if IsValidSet(newRun).valid {
      RunBag(table, i, rest, tile, t, third, newRun);
      TwoTilesSound(table, hand, tile, third, table[i := rest] + [newRun], RunOf(tile, hand, table, i, rest, t, third));
    }
  }

  lemma UseGroupTileSound(tile: Tile, hand: seq<Tile>, table: seq<seq<Tile>>, i: nat, t: Tile)
    requires Ready(table, hand, tile) && i < |table| && t in table[i]
    ensures Sound(table, hand, UseGroupTile(tile, hand, table, i, t))
  {
    if t.Numbered? {
      var rest := RemoveId(table[i], t.id);
      if IsValidSet(rest).valid {
        TakeOutOf(table[i], t);
        RunWithSound(tile, hand, table, i, rest, t);
        if t.number == tile.number && t.color != tile.color {
          WithThirdSound(tile, hand, table, i, rest, t);
        }
      }
    }
  }

  lemma {:induction false} GroupTilesFromSound(tile: Tile, hand: seq<Tile>, table: seq<seq<Tile>>, i: nat, j: nat)
    requires Ready(table, hand, tile) && i < |table|
    ensures Sound(table, hand, GroupTilesFrom(tile, hand, table, i, j))
    decreases |table[i]| - j
  {
    if j < |table[i]| {
      UseGroupTileSound(tile, hand, table, i, table[i][j]);
      GroupTilesFromSound(tile, hand, table, i, j + 1);
      OrElseSound(table, hand, UseGroupTile(tile, hand, table, i, table[i][j]), GroupTilesFrom(tile, hand, table, i, j + 1));
    }
  }


  lemma FromGroupAtSound(tile: Tile, hand: seq<Tile>, table: seq<seq<Tile>>, i: nat)
    requires Ready(table, hand, tile) && i < |table|
    ensures Sound(table, hand, FromGroupAt(tile, hand, table, i))
  {
    GroupTilesFromSound(tile, hand, table, i, 0);
  }

  lemma {:induction false} FromGroupFromSound(tile: Tile, hand: seq<Tile>, table: seq<seq<Tile>>, i: nat)
    requires Ready(table, hand, tile)
    ensures Sound(table, hand, FromGroupFrom(tile, hand, table, i))
    decreases |table| - i
  {
    if i < |table| {
      FromGroupAtSound(tile, hand, table, i);
      FromGroupFromSound(tile, hand, table, i + 1);
      OrElseSound(table, hand, FromGroupAt(tile, hand, table, i), FromGroupFrom(tile, hand, table, i + 1));
    }
  }


  /** tryTakeFromGroup only moves tiles, and answers with a valid table. */
  lemma TakeFromGroupSound(tile: Tile, hand: seq<Tile>, table: seq<seq<Tile>>)
    requires Distinct(IdsOf(hand)) && tile in hand && SetsDistinct(table)
    ensures Sound(table, hand, TakeFromGroup(tile, hand, table))
  {
    if tile.Numbered? {
      FromGroupFromSound(tile, hand, table, 0);
    }
  }

  /** Run `i` split at `at`, the tile added to either half. */
  lemma SplitBag(table: seq<seq<Tile>>, i: nat, at: nat, tile: Tile)
    requires i < |table| && at <= |table[i]|
    ensures var first, second := table[i][..at], table[i][at..];
      && IdBag(Flatten(Splice(table, i) + [first + [tile], second])) == IdBag(Flatten(table)) + multiset{tile.id}
      && IdBag(Flatten(Splice(table, i) + [first, [tile] + second])) == IdBag(Flatten(table)) + multiset{tile.id}
  {
    var first := table[i][..at];
    var second := table[i][at..];
    assert first + second == table[i];
    IdBagConcat(first, second);
    IdBagConcat(first, [tile]);
    IdBagConcat([tile], second);
    assert IdBag([tile]) == multiset{tile.id};
    Respliced(table, i, first + [tile], second, tile.id);
    Respliced(table, i, first, [tile] + second, tile.id);
  }

  lemma SplitHereSound(tile: Tile, hand: seq<Tile>, table: seq<seq<Tile>>, i: nat, at: nat)
    requires Distinct(IdsOf(hand)) && tile in hand && tile.Numbered? && i < |table| && at <= |table[i]|
    ensures Sound(table, hand, SplitHere(tile, hand, table, i, at))
  {
    var r := SplitHere(tile, hand, table, i, at);
    if r.Some? {
      var first := table[i][..at];
      var second := table[i][at..];
      var g1, g2 := GrowFirst(tile, hand, table, i, first, second), GrowSecond(tile, hand, table, i, first, second);
      assert r == OrElse(g1, g2);
      SplitBag(table, i, at, tile);
      GrowSound(table, hand, tile, Splice(table, i) + [first + [tile], second], g1);
      GrowSound(table, hand, tile, Splice(table, i) + [first, [tile] + second], g2);
    }
  }

  /** A grown half is the one-tile answer for its table, or none. */
  lemma GrowSound(table: seq<seq<Tile>>, hand: seq<Tile>, tile: Tile, newTable: seq<seq<Tile>>, r: Option<Extended>)
    requires Distinct(IdsOf(hand)) && tile in hand && tile.Numbered?
    requires IdBag(Flatten(newTable)) == IdBag(Flatten(table)) + multiset{tile.id}
    requires r == None || r == Checked(newTable, RemoveId(hand, tile.id), 1)
    ensures Sound(table, hand, r)
  {
    if r != None {
      OneTileSound(table, hand, tile, newTable, r);
    }
  }

  lemma {:induction false} SplitPointsSound(tile: Tile, hand: seq<Tile>, table: seq<seq<Tile>>, i: nat, at: nat)
    requires Distinct(IdsOf(hand)) && tile in hand && tile.Numbered? && i < |table|
    ensures Sound(table, hand, SplitPoints(tile, hand, table, i, at))
    decreases |table[i]| - at
  {
    if at + 3 <= |table[i]| {
      SplitHereSound(tile, hand, table, i, at);
      SplitPointsSound(tile, hand, table, i, at + 1);
      OrElseSound(table, hand, SplitHere(tile, hand, table, i, at), SplitPoints(tile, hand, table, i, at + 1));
    }
  }


  lemma SplitAtSound(tile: Tile, hand: seq<Tile>, table: seq<seq<Tile>>, i: nat)
    requires Distinct(IdsOf(hand)) && tile in hand && tile.Numbered? && i < |table|
    ensures Sound(table, hand, SplitAt(tile, hand, table, i))
  {
    SplitPointsSound(tile, hand, table, i, 3);
  }

  lemma {:induction false} SplitFromSound(tile: Tile, hand: seq<Tile>, table: seq<seq<Tile>>, i: nat)
    requires Distinct(IdsOf(hand)) && tile in hand && tile.Numbered?
    ensures Sound(table, hand, SplitFrom(tile, hand, table, i))
    decreases |table| - i
  {
    if i < |table| {
      SplitAtSound(tile, hand, table, i);
      SplitFromSound(tile, hand, table, i + 1);
      OrElseSound(table, hand, SplitAt(tile, hand, table, i), SplitFrom(tile, hand, table, i + 1));
    }
  }


  /** trySplitRun only moves tiles, and answers with a valid table. */
  lemma SplitRunSound(tile: Tile, hand: seq<Tile>, table: seq<seq<Tile>>)
    requires Distinct(IdsOf(hand)) && tile in hand
    ensures Sound(table, hand, SplitRun(tile, hand, table))
  {
    if tile.Numbered? {
      SplitFromSound(tile, hand, table, 0);
    }
  }

  // ---------------------------------------------------------------------------
  // tryCombineSets, one tile per set, only moves tiles
  // ---------------------------------------------------------------------------

  /** The tiles a match's set keeps in the new table. */
  function Cut(m: Match): seq<Tile> {
    if m.remaining.Some? && |m.remaining.value| >= 3 then m.remaining.value else []
  }

  /** A match whose set, less its tile, leaves what the new table keeps of it. */
  predicate Fits(table: seq<seq<Tile>>, m: Match) {
    m.setIdx < |table| && m.tile in table[m.setIdx] && IdBag(Cut(m)) + multiset{m.tile.id} == IdBag(table[m.setIdx])
  }

  lemma CombineMatchFits(tile: Tile, table: seq<seq<Tile>>, idx: nat, t: Tile)
    requires tile.Numbered? && idx < |table| && Distinct(IdsOf(table[idx])) && t in table[idx]
    ensures forall m <- CombineMatch(tile, table[idx], idx, t) :: Fits(table, m) && m.setIdx == idx
  {
    if t.Numbered? && t.number == tile.number && t.color != tile.color {
      TakeOutOf(table[idx], t);
    }
  }

  lemma {:induction false} CombineInFits(tile: Tile, table: seq<seq<Tile>>, idx: nat, tiles: seq<Tile>)
    requires tile.Numbered? && idx < |table| && Distinct(IdsOf(table[idx]))
    requires forall t <- tiles :: t in table[idx]
    ensures forall m <- CombineIn(tile, table[idx], idx, tiles) :: Fits(table, m) && m.setIdx == idx
  {
    if tiles != [] {
      CombineMatchFits(tile, table, idx, tiles[0]);
      CombineInFits(tile, table, idx, tiles[1..]);
    }
  }


  /** Every match tryCombineSets finds fits its set. */
  lemma {:induction false} CombineMatchesFit(tile: Tile, table: seq<seq<Tile>>, i: nat)
    requires tile.Numbered? && SetsDistinct(table)
    ensures forall m <- CombineMatches(tile, table, i) :: Fits(table, m)
    decreases |table| - i
  {
    if i < |table| {
      CombineInFits(tile, table, i, table[i]);
      CombineMatchesFit(tile, table, i + 1);
    }
  }

  /**
   * The selection keeps what was selected, adds matches only, stops at two, and with
   * `onePerSet` never takes two matches from one set.
   */
  lemma {:induction false} SelectShape(matches: seq<Match>, used: seq<Color>, selected: seq<Match>, onePerSet: bool)
    requires forall m <- matches :: m.tile.Numbered?
    requires |selected| <= 1
    ensures var r := Select(matches, used, selected, onePerSet);
      && |selected| <= |r| <= 2 && r[..|selected|] == selected
      && (forall m <- r :: m in selected || m in matches)
      && (onePerSet && |r| == 2 && |selected| == 1 ==> r[1].setIdx != selected[0].setIdx)
      && (onePerSet && |r| == 2 && |selected| == 0 ==> r[0].setIdx != r[1].setIdx)
  {
    if matches != [] {
      var m := matches[0];
      if m.tile.color !in used && (!onePerSet || forall s <- selected :: s.setIdx != m.setIdx) {
        if |selected + [m]| < 2 {
          SelectShape(matches[1..], used + [m.tile.color], selected + [m], onePerSet);
          var r := Select(matches[1..], used + [m.tile.color], selected + [m], onePerSet);
          assert r[..1] == (selected + [m])[..1];
          assert r[0] == m;
        } else {
          assert selected[0] in selected;
        }
      } else {
        SelectShape(matches[1..], used, selected, onePerSet);
      }
    }
  }

  /** Two selected matches out of two sets. */
  predicate TwoApart(table: seq<seq<Tile>>, selected: seq<Match>) {
    |selected| == 2 && selected[0].setIdx != selected[1].setIdx && Fits(table, selected[0]) && Fits(table, selected[1])
  }

  /** The ids the selected matches from set `i` on give up. */
  function Out(selected: seq<Match>, i: nat): multiset<int>
    requires |selected| == 2
  {
    (if selected[0].setIdx >= i then multiset{selected[0].tile.id} else multiset{})
    + (if selected[1].setIdx >= i then multiset{selected[1].tile.id} else multiset{})
  }

  lemma FirstAtTwo(selected: seq<Match>, i: nat)
    requires |selected| == 2
    ensures FirstAt(selected, i) ==
      if selected[0].setIdx == i then Some(selected[0]) else if selected[1].setIdx == i then Some(selected[1]) else None
  {
    var tail := selected[1..];
    assert tail[0] == selected[1] && tail[1..] == [];
    assert FirstAt(tail, i) == if selected[1].setIdx == i then Some(selected[1]) else FirstAt([], i);
  }

  /** Set `i` in the new table: the ids of the set less what its match gave up. */
  lemma PieceBag(table: seq<seq<Tile>>, selected: seq<Match>, i: nat)
    requires TwoApart(table, selected) && i < |table|
    ensures IdBag(Flatten(Piece(table, selected, i))) + GivenAt(selected, i) == IdBag(table[i])
  {
    FirstAtTwo(selected, i);
    if selected[0].setIdx == i {
      PieceOf(table, selected, i, selected[0]);
    } else if selected[1].setIdx == i {
      PieceOf(table, selected, i, selected[1]);
    } else {
      assert Piece(table, selected, i) == [table[i]];
      FlattenOne(table[i]);
    }
  }

  lemma PieceOf(table: seq<seq<Tile>>, selected: seq<Match>, i: nat, m: Match)
    requires i < |table| && FirstAt(selected, i) == Some(m) && Fits(table, m) && m.setIdx == i
    ensures IdBag(Flatten(Piece(table, selected, i))) + multiset{m.tile.id} == IdBag(table[i])
  {
    CutBag(table, m);
  }

  /** The new set of a match's set holds its ids less the match's tile. */
  lemma CutBag(table: seq<seq<Tile>>, m: Match)
    requires Fits(table, m)
    ensures IdBag(Flatten(if m.remaining.Some? && |m.remaining.value| >= 3 then [m.remaining.value] else []))
            + multiset{m.tile.id} == IdBag(table[m.setIdx])
  {
    if m.remaining.Some? && |m.remaining.value| >= 3 {
      FlattenOne(m.remaining.value);
    }
  }

  /** The id the selected match from set `i`, if any, gives up. */
  function GivenAt(selected: seq<Match>, i: nat): multiset<int>
    requires |selected| == 2
  {
    if selected[0].setIdx == i then multiset{selected[0].tile.id}
    else if selected[1].setIdx == i then multiset{selected[1].tile.id}
    else multiset{}
  }

  lemma OutDiff(selected: seq<Match>, i: nat)
    requires |selected| == 2 && selected[0].setIdx != selected[1].setIdx
    ensures Out(selected, i) == GivenAt(selected, i) + Out(selected, i + 1)
  {
  }


  /** The rebuilt sets from `i` on hold the ids of those sets less the selected tiles. */
  lemma {:induction false} RebuildBag(table: seq<seq<Tile>>, selected: seq<Match>, i: nat)
    requires TwoApart(table, selected)
    requires i <= |table|
    ensures IdBag(Flatten(Rebuild(table, selected, i))) + Out(selected, i) == IdBag(Flatten(table[i..]))
    decreases |table| - i
  {
    if i == |table| {
      assert Out(selected, i) == multiset{};
    } else {
      RebuildBag(table, selected, i + 1);
      PieceBag(table, selected, i);
      RebuildFlat(table, selected, i);
      TailFlat(table, i);
      OutDiff(selected, i);
      Rejoin(IdBag(Flatten(Piece(table, selected, i))), IdBag(Flatten(Rebuild(table, selected, i + 1))),
             GivenAt(selected, i), Out(selected, i + 1),
             IdBag(table[i]), IdBag(Flatten(table[i + 1..])));
    }
  }

  lemma RebuildFlat(table: seq<seq<Tile>>, selected: seq<Match>, i: nat)
    requires i < |table|
    ensures IdBag(Flatten(Rebuild(table, selected, i)))
         == IdBag(Flatten(Piece(table, selected, i))) + IdBag(Flatten(Rebuild(table, selected, i + 1)))
  {
    var piece, later := Piece(table, selected, i), Rebuild(table, selected, i + 1);
    FlattenConcat(piece, later);
    IdBagConcat(Flatten(piece), Flatten(later));
  }

  lemma TailFlat(table: seq<seq<Tile>>, i: nat)
    requires i < |table|
    ensures IdBag(Flatten(table[i..])) == IdBag(table[i]) + IdBag(Flatten(table[i + 1..]))
  {
    assert table[i..] == [table[i]] + table[i + 1..];
    FlattenConcat([table[i]], table[i + 1..]);
    FlattenOne(table[i]);
    IdBagConcat(table[i], Flatten(table[i + 1..]));
  }


  /** Piecewise sums add up. */
  lemma Rejoin(p: multiset<int>, l: multiset<int>, d: multiset<int>, o: multiset<int>, s: multiset<int>,
               rest: multiset<int>)
    requires p + d == s && l + o == rest
    ensures (p + l) + (d + o) == s + rest
  {
  }

  /** The corrected tryCombineSets only moves tiles, and answers with a valid table. */
  lemma CombineSetsSound(tile: Tile, hand: seq<Tile>, table: seq<seq<Tile>>)
    requires Distinct(IdsOf(hand)) && tile in hand && SetsDistinct(table)
    ensures Sound(table, hand, CombineSets(tile, hand, table))
  {
    var r := CombineSets(tile, hand, table);
    if r.Some? {
      var matches := CombineMatches(tile, table, 0);
      CombineMatchesNumbered(tile, table, 0);
      CombineMatchesFit(tile, table, 0);
      var selected := Select(matches, [tile.color], [], true);
      SelectShape(matches, [tile.color], [], true);
      assert selected[0] in selected && selected[1] in selected;
      var group := [tile, selected[0].tile, selected[1].tile];
      var newTable := Rebuild(table, selected, 0) + [group];
      assert r == Checked(newTable, RemoveId(hand, tile.id), 1);
      CombineBag(table, selected, tile, newTable);
      OneTileSound(table, hand, tile, newTable, r);
    }
  }

  /** The new table of tryCombineSets: the old one plus the hand tile. */
  lemma CombineBag(table: seq<seq<Tile>>, selected: seq<Match>, tile: Tile, newTable: seq<seq<Tile>>)
    requires TwoApart(table, selected)
    requires newTable == Rebuild(table, selected, 0) + [[tile, selected[0].tile, selected[1].tile]]
    ensures IdBag(Flatten(newTable)) == IdBag(Flatten(table)) + multiset{tile.id}
  {
    var group := [tile, selected[0].tile, selected[1].tile];
    RebuildBag(table, selected, 0);
    assert table[0..] == table;
    AppendBag(Rebuild(table, selected, 0), group);
    IdBag3(tile, selected[0].tile, selected[1].tile);
    Regain(IdBag(Flatten(Rebuild(table, selected, 0))), IdBag(Flatten(table)), IdBag(Flatten(newTable)), IdBag(group),
           Out(selected, 0), multiset{tile.id});
  }
}
