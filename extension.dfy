/**
 * Extending the sets already on the table with tiles from the hand: one pass of
 * tryExtendSets (server/bot/strategies/EasyStrategy.js, MediumStrategy.js) and of the inner
 * loop of extendExistingSets (server/bot/strategies/HardStrategy.js). A run gains at most one
 * tile before it and one after it, numbered from the position of its first non-joker; a
 * group of fewer than four gains one tile of its number in a colour it lacks.
 */
module Extension {
  import opened Tiles
  import opened Optional
  import opened Ordering
  import opened Rules
  import opened BotSets

  /** How a placed tile leaves the hand. */
  datatype Removal =
    | SpliceFirst  // `hand.splice(hand.findIndex(t => t.id === tile.id), 1)` (Easy, Medium)
    | FilterOut    // `hand.filter(t => t.id !== tile.id)` (Hard)

  predicate IsRegularTile(t: Tile) {
    t.Numbered?
  }

  function HasId(id: int): Tile -> bool {
    (t: Tile) => t.id == id
  }

  /** `t => !t.isJoker && t.color === color && t.number === n` */
  function NumberedAs(color: Color, n: int): Tile -> bool {
    (t: Tile) => t.Numbered? && t.color == color && t.number == n
  }

  /** `t => !t.isJoker && t.number === number && !usedColors.has(t.color)` */
  function FitsGroup(n: int, used: seq<Color>): Tile -> bool {
    (t: Tile) => t.Numbered? && t.number == n && t.color !in used
  }

  /**
   * `hand.splice(hand.findIndex(t => t.id === id), 1)`. With no such tile the index is -1,
   * and `splice(-1, 1)` drops the last tile.
   */
  function SpliceOutId(hand: seq<Tile>, id: int): seq<Tile> {
    match FindFirst(hand, HasId(id))
    case Some(k) => Splice(hand, k)
    case None => if hand == [] then [] else hand[..|hand| - 1]
  }

  /**
   * A non-empty hand loses one tile: the first with the id when there is one, and otherwise
   * the last tile.
   */
  lemma SpliceOutIdSpec(hand: seq<Tile>, id: int)
    ensures var r := SpliceOutId(hand, id);
      && (hand != [] ==> |r| == |hand| - 1)
      && (hand == [] ==> r == [])
      && ((exists t <- hand :: t.id == id) ==>
            exists k :: 0 <= k < |hand| && hand[k].id == id && multiset(r) + multiset{hand[k]} == multiset(hand)
              && forall j :: 0 <= j < k ==> hand[j].id != id)
      && ((forall t <- hand :: t.id != id) && hand != [] ==> r == hand[..|hand| - 1])
  {
  }

  function TakeOut(hand: seq<Tile>, id: int, removal: Removal): seq<Tile> {
    if removal == SpliceFirst then SpliceOutId(hand, id) else RemoveId(hand, id)
  }

  /** The set after the step, the hand after it, and how many tiles moved. */
  datatype Step = Step(grown: seq<Tile>, hand: seq<Tile>, played: nat)

  /** `set.unshift(tile)` for the first hand tile satisfying `p`, if any. */
  function AddFront(s: seq<Tile>, hand: seq<Tile>, p: Tile -> bool, removal: Removal): Step {
    match FindFirst(hand, p)
    case None => Step(s, hand, 0)
    case Some(k) => Step([hand[k]] + s, TakeOut(hand, hand[k].id, removal), 1)
  }

  /** `set.push(tile)` for the first hand tile satisfying `p`, if any. */
  function AddBack(s: seq<Tile>, hand: seq<Tile>, p: Tile -> bool, removal: Removal): Step {
    match FindFirst(hand, p)
    case None => Step(s, hand, 0)
    case Some(k) => Step(s + [hand[k]], TakeOut(hand, hand[k].id, removal), 1)
  }

  /**
   * One set of the pass. A run reads its numbers off the position of its first non-joker:
   * `startNum = anchorNum - anchorPos`, `endNum = startNum + length - 1`. (Medium's extra
   * `numbersInRun` test never rejects: `startNum - 1` and `endNum + 1` lie outside that range.)
   */
  function ExtendOne(s: seq<Tile>, hand: seq<Tile>, removal: Removal): Step {
    ExtendAs(IsValidSet(s).kind, s, hand, removal)
  }

  /** The step on a set the validity check classifies as `kind`. */
  function ExtendAs(kind: Option<SetKind>, s: seq<Tile>, hand: seq<Tile>, removal: Removal): Step {
    if kind == Some(Run) then
      match FindFirst(s, IsRegularTile)
      case None => Step(s, hand, 0)
      case Some(anchorPos) => ExtendRun(s, hand, s[anchorPos].color, StartNum(s[anchorPos].number, anchorPos), removal)
    else if kind == Some(Group) && |s| < 4 then
      match FindFirst(s, IsRegularTile)
      case None => Step(s, hand, 0)
      case Some(p) => AddBack(s, hand, FitsGroup(s[p].number, ColorsOf(Regular(s))), removal)
    else Step(s, hand, 0)
  }

  /** `anchorNum - anchorPos`: the number of a run's first position, read off its anchor. */
  function StartNum(anchorNum: int, anchorPos: int): int {
    anchorNum - anchorPos
  }

  /** A run of colour `color` whose first position is numbered `startNum`: the front, then the back. */
  function ExtendRun(s: seq<Tile>, hand: seq<Tile>, color: Color, startNum: int, removal: Removal): Step {
    var front := RunFront(s, hand, color, startNum, removal);
    var back := RunBack(front.grown, front.hand, color, startNum + |s| - 1, removal);
    Step(back.grown, back.hand, front.played + back.played)
  }

  /** `if (startNum > 1)`: look for `startNum - 1` in the run's colour. */
  function RunFront(s: seq<Tile>, hand: seq<Tile>, color: Color, startNum: int, removal: Removal): Step {
    if startNum - 1 >= 1 then AddFront(s, hand, NumberedAs(color, startNum - 1), removal)
    else Step(s, hand, 0)
  }

  /** `if (endNum < 13)`: look for `endNum + 1` in the run's colour. */
  function RunBack(s: seq<Tile>, hand: seq<Tile>, color: Color, endNum: int, removal: Removal): Step {
    if endNum + 1 <= 13 then AddBack(s, hand, NumberedAs(color, endNum + 1), removal)
    else Step(s, hand, 0)
  }

  /** The three cases of a step, one lemma each. */
  lemma ExtendAsRun(s: seq<Tile>, hand: seq<Tile>, removal: Removal)
    requires FindFirst(s, IsRegularTile).Some?
    ensures var a := FindFirst(s, IsRegularTile).value;
      ExtendAs(Some(Run), s, hand, removal) == ExtendRun(s, hand, s[a].color, StartNum(s[a].number, a), removal)
  {
  }

  lemma ExtendAsGroup(s: seq<Tile>, hand: seq<Tile>, removal: Removal)
    requires FindFirst(s, IsRegularTile).Some? && |s| < 4
    ensures var a := FindFirst(s, IsRegularTile).value;
      ExtendAs(Some(Group), s, hand, removal) == AddBack(s, hand, FitsGroup(s[a].number, ColorsOf(Regular(s))), removal)
  {
  }

  lemma ExtendAsNone(kind: Option<SetKind>, s: seq<Tile>, hand: seq<Tile>, removal: Removal)
    requires !(kind == Some(Run) && FindFirst(s, IsRegularTile).Some?)
    requires !(kind == Some(Group) && |s| < 4 && FindFirst(s, IsRegularTile).Some?)
    ensures ExtendAs(kind, s, hand, removal) == Step(s, hand, 0)
  {
  }

  /** `{ tableSets, remainingTiles, tilesPlayed }` */
  datatype Extended = Extended(tableSets: seq<seq<Tile>>, remaining: seq<Tile>, tilesPlayed: nat)

  /** One pass over the table, set by set, the hand shrinking as it goes. */
  function ExtendAll(table: seq<seq<Tile>>, hand: seq<Tile>, removal: Removal): (r: Extended)
    ensures |r.tableSets| == |table|
  {
    if table == [] then Extended([], hand, 0)
    else
      var step := ExtendOne(table[0], hand, removal);
      var rest := ExtendAll(table[1..], step.hand, removal);
      Extended([step.grown] + rest.tableSets, rest.remaining, step.played + rest.tilesPlayed)
  }

  /**
   * The pass loop after `i` sets: `cur` holds the table with the first `i` sets extended,
   * the hand and the count so far, and the rest of the pass from there ends where the whole
   * pass does.
   */
  predicate PassAt(table: seq<seq<Tile>>, hand: seq<Tile>, removal: Removal, i: nat, cur: Extended) {
    && i <= |table| == |cur.tableSets|
    && cur.tableSets[i..] == table[i..]
    && var rest := ExtendAll(table[i..], cur.remaining, removal);
      ExtendAll(table, hand, removal)
        == Extended(cur.tableSets[..i] + rest.tableSets, rest.remaining, cur.tilesPlayed + rest.tilesPlayed)
  }

  /** Extending set `i` from the current hand moves the loop on by one set. */
  lemma PassAtNext(table: seq<seq<Tile>>, hand: seq<Tile>, removal: Removal, i: nat, cur: Extended)
    requires PassAt(table, hand, removal, i, cur) && i < |table|
    ensures var step := ExtendOne(cur.tableSets[i], cur.remaining, removal);
      PassAt(table, hand, removal, i + 1,
        Extended(cur.tableSets[i := step.grown], step.hand, cur.tilesPlayed + step.played))
  {
    var tail := table[i..];
    assert tail[0] == cur.tableSets[i] && tail[1..] == table[i + 1..];
    var step := ExtendOne(cur.tableSets[i], cur.remaining, removal);
    var rest := ExtendAll(table[i + 1..], step.hand, removal);
    ExtendAllHead(tail, cur.remaining, removal, step, rest);
    var next := cur.tableSets[i := step.grown];
    assert next[..i + 1] == cur.tableSets[..i] + [step.grown];
    assert next[i + 1..] == cur.tableSets[i + 1..];
    assert cur.tableSets[..i] + ([step.grown] + rest.tableSets) == next[..i + 1] + rest.tableSets;
  }

  lemma ExtendAllHead(table: seq<seq<Tile>>, hand: seq<Tile>, removal: Removal, step: Step, rest: Extended)
    requires table != [] && step == ExtendOne(table[0], hand, removal)
    requires rest == ExtendAll(table[1..], step.hand, removal)
    ensures ExtendAll(table, hand, removal)
      == Extended([step.grown] + rest.tableSets, rest.remaining, step.played + rest.tilesPlayed)
  {
  }

  /**
   * tryExtendSets (Easy, Medium, with `SpliceFirst`) and the `for (setIdx …)` loop of the
   * Hard bot's extendExistingSets (with `FilterOut`): each set in turn extended from the hand
   * as it then is.
   */
  method TryExtendSets(tiles: seq<Tile>, tableSets: seq<seq<Tile>>, removal: Removal) returns (r: Extended)
    ensures r == ExtendAll(tableSets, tiles, removal)
  {
    var remainingTiles := tiles;
    var tilesPlayed: nat := 0;
    var newTableSets := tableSets;
    var i := 0;
    assert tableSets[..0] + ExtendAll(tableSets[0..], tiles, removal).tableSets
      == ExtendAll(tableSets, tiles, removal).tableSets by {
      assert tableSets[0..] == tableSets;
    }
    while i < |newTableSets|
      invariant PassAt(tableSets, tiles, removal, i, Extended(newTableSets, remainingTiles, tilesPlayed))
    {
      PassAtNext(tableSets, tiles, removal, i, Extended(newTableSets, remainingTiles, tilesPlayed));
      var step := ExtendOne(newTableSets[i], remainingTiles, removal);
      newTableSets := newTableSets[i := step.grown];
      remainingTiles := step.hand;
      tilesPlayed := tilesPlayed + step.played;
      i := i + 1;
    }
    assert tableSets[i..] == [] && newTableSets[..i] == newTableSets;
    r := Extended(newTableSets, remainingTiles, tilesPlayed);
  }

  // ---------------------------------------------------------------------------
  // Where the first non-joker is
  // ---------------------------------------------------------------------------

  /** The anchor search finds the first element of the non-joker filter, if there is one. */
  lemma {:induction false} AnchorIsFirstRegular(s: seq<Tile>)
    ensures FindFirst(s, IsRegularTile).None? <==> Regular(s) == []
    ensures FindFirst(s, IsRegularTile).Some? ==> s[FindFirst(s, IsRegularTile).value] == Regular(s)[0]
  {
    if s != [] && !s[0].Numbered? {
      AnchorIsFirstRegular(s[1..]);
    }
  }

  // ---------------------------------------------------------------------------
  // Conservation
  // ---------------------------------------------------------------------------

  /** Taking out a tile found at `k` splices out the first tile with its id. */
  lemma TakeOutFound(hand: seq<Tile>, k: nat, removal: Removal) returns (j: nat)
    requires k < |hand|
    requires removal == FilterOut ==> Distinct(IdsOf(hand))
    ensures j < |hand| && hand[j].id == hand[k].id && TakeOut(hand, hand[k].id, removal) == Splice(hand, j)
  {
    var id := hand[k].id;
    var f := FindFirst(hand, HasId(id));
    assert hand[k] in hand;
    if removal == SpliceFirst {
      j := f.value;
    } else {
      RemoveIdIsSplice(hand, k);
      j := k;
    }
  }

  /** Moving a tile with the id of `hand[j]` into the set while splicing out `hand[j]` keeps the ids. */
  lemma MoveBag(s: seq<Tile>, grown: seq<Tile>, x: Tile, hand: seq<Tile>, j: nat)
    requires j < |hand| && hand[j].id == x.id
    requires grown == [x] + s || grown == s + [x]
    ensures IdBag(s) + IdBag(hand) == IdBag(grown) + IdBag(Splice(hand, j))
  {
    SpliceBag(hand, j);
    assert IdBag([x]) == multiset{x.id};
    if grown == [x] + s {
      IdBagConcat([x], s);
    } else {
      IdBagConcat(s, [x]);
    }
    IdsOfAt(hand, j);
    assert x.id in IdBag(hand);
    BagMove(IdBag(s), IdBag(hand), x.id);
  }

  /** Moving one copy of `e` from `b` to `a` keeps their sum. */
  lemma BagMove(a: multiset<int>, b: multiset<int>, e: int)
    requires e in b
    ensures a + b == a + multiset{e} + (b - multiset{e})
  {
  }

  /** Splicing out one tile keeps the remaining ids distinct. */
  lemma SpliceDistinctIds(hand: seq<Tile>, j: nat)
    requires j < |hand| && Distinct(IdsOf(hand))
    ensures Distinct(IdsOf(Splice(hand, j)))
  {
    var r := Splice(hand, j);
    forall a, b | 0 <= a < b < |r| ensures IdsOf(r)[a] != IdsOf(r)[b] {
      IdsOfAt(r, a);
      IdsOfAt(r, b);
      var a', b' := if a < j then a else a + 1, if b < j then b else b + 1;
      IdsOfAt(hand, a');
      IdsOfAt(hand, b');
    }
  }

  /** The hand the step leaves and the tiles it moved, in the hand's or the set's terms. */
  predicate Conserved(s: seq<Tile>, hand: seq<Tile>, r: Step) {
    && IdBag(s) + IdBag(hand) == IdBag(r.grown) + IdBag(r.hand)
    && |r.hand| == |hand| - r.played
  }

  lemma AddFrontConserves(s: seq<Tile>, hand: seq<Tile>, p: Tile -> bool, removal: Removal)
    requires removal == FilterOut ==> Distinct(IdsOf(hand))
    ensures Conserved(s, hand, AddFront(s, hand, p, removal))
    ensures removal == FilterOut ==> Distinct(IdsOf(AddFront(s, hand, p, removal).hand))
  {
    var f := FindFirst(hand, p);
    if f.Some? {
      var k := f.value;
      var j := TakeOutFound(hand, k, removal);
      MoveBag(s, [hand[k]] + s, hand[k], hand, j);
      if removal == FilterOut {
        SpliceDistinctIds(hand, j);
      }
    }
  }

  lemma AddBackConserves(s: seq<Tile>, hand: seq<Tile>, p: Tile -> bool, removal: Removal)
    requires removal == FilterOut ==> Distinct(IdsOf(hand))
    ensures Conserved(s, hand, AddBack(s, hand, p, removal))
    ensures removal == FilterOut ==> Distinct(IdsOf(AddBack(s, hand, p, removal).hand))
  {
    var f := FindFirst(hand, p);
    if f.Some? {
      var k := f.value;
      var j := TakeOutFound(hand, k, removal);
      MoveBag(s, s + [hand[k]], hand[k], hand, j);
      if removal == FilterOut {
        SpliceDistinctIds(hand, j);
      }
    }
  }

  lemma ExtendRunConserves(s: seq<Tile>, hand: seq<Tile>, color: Color, startNum: int, removal: Removal)
    requires removal == FilterOut ==> Distinct(IdsOf(hand))
    ensures Conserved(s, hand, ExtendRun(s, hand, color, startNum, removal))
    ensures removal == FilterOut ==> Distinct(IdsOf(ExtendRun(s, hand, color, startNum, removal).hand))
  {
    var front := RunFront(s, hand, color, startNum, removal);
    RunFrontConserves(s, hand, color, startNum, removal, front);
    var back := RunBack(front.grown, front.hand, color, startNum + |s| - 1, removal);
    RunBackConserves(front.grown, front.hand, color, startNum + |s| - 1, removal, back);
    ConservedThen(s, hand, front, back, removal);
    assert ExtendRun(s, hand, color, startNum, removal) == Step(back.grown, back.hand, front.played + back.played);
  }

  lemma RunFrontConserves(s: seq<Tile>, hand: seq<Tile>, color: Color, startNum: int, removal: Removal, front: Step)
    requires removal == FilterOut ==> Distinct(IdsOf(hand))
    requires front == RunFront(s, hand, color, startNum, removal)
    ensures Conserved(s, hand, front)
    ensures removal == FilterOut ==> Distinct(IdsOf(front.hand))
  {
    if startNum - 1 >= 1 {
      AddFrontConserves(s, hand, NumberedAs(color, startNum - 1), removal);
    }
  }

  lemma RunBackConserves(s: seq<Tile>, hand: seq<Tile>, color: Color, endNum: int, removal: Removal, back: Step)
    requires removal == FilterOut ==> Distinct(IdsOf(hand))
    requires back == RunBack(s, hand, color, endNum, removal)
    ensures Conserved(s, hand, back)
    ensures removal == FilterOut ==> Distinct(IdsOf(back.hand))
  {
    if endNum + 1 <= 13 {
      AddBackConserves(s, hand, NumberedAs(color, endNum + 1), removal);
    }
  }

  /** Two steps in a row conserve the ids when each does. */
  lemma ConservedThen(s: seq<Tile>, hand: seq<Tile>, front: Step, back: Step, removal: Removal)
    requires Conserved(s, hand, front) && Conserved(front.grown, front.hand, back)
    requires removal == FilterOut ==> Distinct(IdsOf(back.hand))
    ensures Conserved(s, hand, Step(back.grown, back.hand, front.played + back.played))
    ensures removal == FilterOut ==> Distinct(IdsOf(Step(back.grown, back.hand, front.played + back.played).hand))
  {
  }

  /**
   * Every id the step takes from the hand it puts into the set, and `tilesPlayed` counts the
   * tiles the hand lost. Filtering by id agrees once the hand's ids are distinct.
   */
  lemma ExtendOneConserves(s: seq<Tile>, hand: seq<Tile>, removal: Removal)
    requires removal == FilterOut ==> Distinct(IdsOf(hand))
    ensures Conserved(s, hand, ExtendOne(s, hand, removal))
    ensures removal == FilterOut ==> Distinct(IdsOf(ExtendOne(s, hand, removal).hand))
  {
    ExtendAsConserves(IsValidSet(s).kind, s, hand, removal);
  }

  lemma ExtendAsConserves(kind: Option<SetKind>, s: seq<Tile>, hand: seq<Tile>, removal: Removal)
    requires removal == FilterOut ==> Distinct(IdsOf(hand))
    ensures Conserved(s, hand, ExtendAs(kind, s, hand, removal))
    ensures removal == FilterOut ==> Distinct(IdsOf(ExtendAs(kind, s, hand, removal).hand))
  {
    var f := FindFirst(s, IsRegularTile);
    if kind == Some(Run) && f.Some? {
      ExtendAsRun(s, hand, removal);
      ExtendRunConserves(s, hand, s[f.value].color, StartNum(s[f.value].number, f.value), removal);
    } else if kind == Some(Group) && |s| < 4 && f.Some? {
      ExtendAsGroup(s, hand, removal);
      AddBackConserves(s, hand, FitsGroup(s[f.value].number, ColorsOf(Regular(s))), removal);
    } else {
      ExtendAsNone(kind, s, hand, removal);
    }
  }

  /** What a pass over `table` from `hand` keeps: the ids, the count, distinct ids. */
  predicate PassConserved(table: seq<seq<Tile>>, hand: seq<Tile>, r: Extended, removal: Removal) {
    && IdBag(Flatten(table)) + IdBag(hand) == IdBag(Flatten(r.tableSets)) + IdBag(r.remaining)
    && |r.remaining| == |hand| - r.tilesPlayed
    && (removal == FilterOut ==> Distinct(IdsOf(r.remaining)))
  }

  /** A pass conserves the ids of hand and table together and counts the tiles it moved. */
  lemma {:induction false} ExtendAllConserves(table: seq<seq<Tile>>, hand: seq<Tile>, removal: Removal)
    requires removal == FilterOut ==> Distinct(IdsOf(hand))
    ensures PassConserved(table, hand, ExtendAll(table, hand, removal), removal)
  {
    if table != [] {
      var step := ExtendOne(table[0], hand, removal);
      ExtendOneConserves(table[0], hand, removal);
      ExtendAllConserves(table[1..], step.hand, removal);
      var rest := ExtendAll(table[1..], step.hand, removal);
      PassConservedCons(table, hand, step, rest, removal);
    }
  }

  lemma PassConservedCons(table: seq<seq<Tile>>, hand: seq<Tile>, step: Step, rest: Extended, removal: Removal)
    requires table != []
    requires Conserved(table[0], hand, step)
    requires removal == FilterOut ==> Distinct(IdsOf(step.hand))
    requires PassConserved(table[1..], step.hand, rest, removal)
    ensures PassConserved(table, hand, Extended([step.grown] + rest.tableSets, rest.remaining, step.played + rest.tilesPlayed), removal)
  {
    IdBagConcat(table[0], Flatten(table[1..]));
    IdBagConcat(step.grown, Flatten(rest.tableSets));
    assert Flatten([step.grown] + rest.tableSets) == step.grown + Flatten(rest.tableSets) by {
      assert ([step.grown] + rest.tableSets)[1..] == rest.tableSets;
    }
    BagExchange(IdBag(table[0]), IdBag(Flatten(table[1..])), IdBag(hand), IdBag(step.grown), IdBag(step.hand),
                IdBag(Flatten(rest.tableSets)), IdBag(rest.remaining));
  }

  /** Two exchanges in a row, with the middle bag passed on, are one exchange. */
  lemma BagExchange(a: multiset<int>, b: multiset<int>, h: multiset<int>, g: multiset<int>, m: multiset<int>,
                    r: multiset<int>, e: multiset<int>)
    requires a + h == g + m && b + m == r + e
    ensures (a + b) + h == (g + r) + e
  {
    forall x ensures ((a + b) + h)[x] == ((g + r) + e)[x] {
      assert (a + h)[x] == (g + m)[x] && (b + m)[x] == (r + e)[x];
    }
  }

  /** A pass that moves nothing leaves table and hand as they were. */
  lemma {:induction false} ExtendAllIdle(table: seq<seq<Tile>>, hand: seq<Tile>, removal: Removal)
    ensures var r := ExtendAll(table, hand, removal);
      r.tilesPlayed == 0 ==> r.tableSets == table && r.remaining == hand
  {
    if table != [] {
      var step := ExtendOne(table[0], hand, removal);
      ExtendAsIdle(IsValidSet(table[0]).kind, table[0], hand, removal);
      ExtendAllIdle(table[1..], step.hand, removal);
      assert [table[0]] + table[1..] == table;
    }
  }

  /** A step that moves nothing leaves the set and the hand as they were. */
  lemma ExtendAsIdle(kind: Option<SetKind>, s: seq<Tile>, hand: seq<Tile>, removal: Removal)
    ensures var r := ExtendAs(kind, s, hand, removal); r.played == 0 ==> r.grown == s && r.hand == hand
  {
    var f := FindFirst(s, IsRegularTile);
    if kind == Some(Run) && f.Some? {
      ExtendAsRun(s, hand, removal);
      var color, startNum := s[f.value].color, StartNum(s[f.value].number, f.value);
      var front := RunFront(s, hand, color, startNum, removal);
      AddShape(s, hand, NumberedAs(color, startNum - 1), removal, true);
      AddShape(front.grown, front.hand, NumberedAs(color, startNum + |s|), removal, false);
    } else if kind == Some(Group) && |s| < 4 && f.Some? {
      ExtendAsGroup(s, hand, removal);
      AddShape(s, hand, FitsGroup(s[f.value].number, ColorsOf(Regular(s))), removal, false);
    } else {
      ExtendAsNone(kind, s, hand, removal);
    }
  }

  lemma RemoveIdShrinks(hand: seq<Tile>, k: nat)
    requires k < |hand|
    ensures |RemoveId(hand, hand[k].id)| < |hand|
  {
    assert hand[k] in hand;
  }

  lemma AddShrinks(s: seq<Tile>, hand: seq<Tile>, p: Tile -> bool, removal: Removal, front: bool)
    ensures var r := if front then AddFront(s, hand, p, removal) else AddBack(s, hand, p, removal);
      |r.hand| + r.played <= |hand|
  {
    var f := FindFirst(hand, p);
    if f.Some? {
      if removal == FilterOut {
        RemoveIdShrinks(hand, f.value);
      } else {
        assert HasId(hand[f.value].id)(hand[f.value]);
      }
    }
  }

  /** Each tile a step places costs the hand at least one tile. */
  lemma ExtendOneShrinks(s: seq<Tile>, hand: seq<Tile>, removal: Removal)
    ensures var r := ExtendOne(s, hand, removal); |r.hand| + r.played <= |hand|
  {
    ExtendAsShrinks(IsValidSet(s).kind, s, hand, removal);
  }

  lemma ExtendAsShrinks(kind: Option<SetKind>, s: seq<Tile>, hand: seq<Tile>, removal: Removal)
    ensures var r := ExtendAs(kind, s, hand, removal); |r.hand| + r.played <= |hand|
  {
    var f := FindFirst(s, IsRegularTile);
    if kind == Some(Run) && f.Some? {
      ExtendAsRun(s, hand, removal);
      ExtendRunShrinks(s, hand, s[f.value].color, StartNum(s[f.value].number, f.value), removal);
    } else if kind == Some(Group) && |s| < 4 && f.Some? {
      ExtendAsGroup(s, hand, removal);
      AddShrinks(s, hand, FitsGroup(s[f.value].number, ColorsOf(Regular(s))), removal, false);
    } else {
      ExtendAsNone(kind, s, hand, removal);
    }
  }

  lemma ExtendRunShrinks(s: seq<Tile>, hand: seq<Tile>, color: Color, startNum: int, removal: Removal)
    ensures var r := ExtendRun(s, hand, color, startNum, removal); |r.hand| + r.played <= |hand|
  {
    var front := RunFront(s, hand, color, startNum, removal);
    RunFrontShrinks(s, hand, color, startNum, removal, front);
    var back := RunBack(front.grown, front.hand, color, startNum + |s| - 1, removal);
    RunBackShrinks(front.grown, front.hand, color, startNum + |s| - 1, removal, back);
    assert ExtendRun(s, hand, color, startNum, removal) == Step(back.grown, back.hand, front.played + back.played);
  }

  lemma RunFrontShrinks(s: seq<Tile>, hand: seq<Tile>, color: Color, startNum: int, removal: Removal, front: Step)
    requires front == RunFront(s, hand, color, startNum, removal)
    ensures |front.hand| + front.played <= |hand|
  {
    AddShrinks(s, hand, NumberedAs(color, startNum - 1), removal, true);
  }

  lemma RunBackShrinks(s: seq<Tile>, hand: seq<Tile>, color: Color, endNum: int, removal: Removal, back: Step)
    requires back == RunBack(s, hand, color, endNum, removal)
    ensures |back.hand| + back.played <= |hand|
  {
    AddShrinks(s, hand, NumberedAs(color, endNum + 1), removal, false);
  }

  /** Each tile a pass places costs the hand at least one tile. */
  lemma {:induction false} ExtendAllShrinks(table: seq<seq<Tile>>, hand: seq<Tile>, removal: Removal)
    ensures var r := ExtendAll(table, hand, removal); |r.remaining| + r.tilesPlayed <= |hand|
  {
    if table != [] {
      var step := ExtendOne(table[0], hand, removal);
      ExtendOneShrinks(table[0], hand, removal);
      ExtendAllShrinks(table[1..], step.hand, removal);
    }
  }

  // ---------------------------------------------------------------------------
  // Shape: what may be added where
  // ---------------------------------------------------------------------------

  /** An addition places nothing, or one tile of the hand satisfying `p`, and takes only from the hand. */
  lemma AddShape(s: seq<Tile>, hand: seq<Tile>, p: Tile -> bool, removal: Removal, front: bool)
    ensures var r := if front then AddFront(s, hand, p, removal) else AddBack(s, hand, p, removal);
      && r.played <= 1
      && (r.played == 0 ==> r.grown == s && r.hand == hand)
      && (r.played == 1 ==> var t := if front then r.grown[0] else r.grown[|r.grown| - 1];
            && |r.grown| == |s| + 1 && t in hand && p(t)
            && r.grown == if front then [t] + s else s + [t])
      && (forall t <- r.hand :: t in hand)
  {
    var f := FindFirst(hand, p);
    if f.Some? {
      var id := hand[f.value].id;
      assert hand[f.value] in hand;
      if removal == SpliceFirst {
        var j := FindFirst(hand, HasId(id)).value;
        forall t <- Splice(hand, j) ensures t in hand {
          assert t in multiset(Splice(hand, j));
        }
      }
    }
  }

  lemma RunFrontShape(s: seq<Tile>, hand: seq<Tile>, color: Color, startNum: int, removal: Removal, front: Step)
    returns (pre: seq<Tile>)
    requires front == RunFront(s, hand, color, startNum, removal)
    ensures |pre| <= 1 && front.grown == pre + s
    ensures forall t <- pre :: t in hand && NumberedAs(color, startNum - 1)(t) && 1 <= startNum - 1
    ensures forall t <- front.hand :: t in hand
  {
    AddShape(s, hand, NumberedAs(color, startNum - 1), removal, true);
    pre := if front.played == 0 then [] else [front.grown[0]];
  }

  lemma RunBackShape(g: seq<Tile>, hand: seq<Tile>, color: Color, endNum: int, removal: Removal, back: Step)
    returns (post: seq<Tile>)
    requires back == RunBack(g, hand, color, endNum, removal)
    ensures |post| <= 1 && back.grown == g + post
    ensures forall t <- post :: t in hand && NumberedAs(color, endNum + 1)(t) && endNum + 1 <= 13
  {
    AddShape(g, hand, NumberedAs(color, endNum + 1), removal, false);
    post := if back.played == 0 then [] else [back.grown[|back.grown| - 1]];
  }

  /**
   * A run whose first position is numbered `startNum` gains at most one tile before it,
   * numbered `startNum - 1` (at least 1), and at most one after it, numbered `startNum + |s|`
   * (at most 13), both of its colour and both from the hand.
   */
  lemma ExtendRunParts(s: seq<Tile>, hand: seq<Tile>, color: Color, startNum: int, removal: Removal)
    returns (pre: seq<Tile>, post: seq<Tile>)
    ensures |pre| <= 1 && |post| <= 1 && ExtendRun(s, hand, color, startNum, removal).grown == pre + s + post
    ensures forall t <- pre :: t in hand && NumberedAs(color, startNum - 1)(t) && 1 <= startNum - 1
    ensures forall t <- post :: t in hand && NumberedAs(color, startNum + |s|)(t) && startNum + |s| <= 13
  {
    var front := RunFront(s, hand, color, startNum, removal);
    pre := RunFrontShape(s, hand, color, startNum, removal, front);
    var back := RunBack(front.grown, front.hand, color, startNum + |s| - 1, removal);
    post := RunBackShape(front.grown, front.hand, color, startNum + |s| - 1, removal, back);
    assert ExtendRun(s, hand, color, startNum, removal).grown == back.grown;
  }

  /**
   * A run gains at most `startNum - 1` before it and `endNum + 1` after it, in its colour and
   * from the hand, with `startNum` read off its first non-joker.
   */
  lemma ExtendOneRunShape(s: seq<Tile>, hand: seq<Tile>, removal: Removal) returns (pre: seq<Tile>, post: seq<Tile>)
    requires IsValidSet(s).kind == Some(Run) && FindFirst(s, IsRegularTile).Some?
    ensures var a := FindFirst(s, IsRegularTile).value;
      var startNum := StartNum(s[a].number, a);
      && |pre| <= 1 && |post| <= 1 && ExtendOne(s, hand, removal).grown == pre + s + post
      && (forall t <- pre :: t in hand && NumberedAs(s[a].color, startNum - 1)(t) && 1 <= startNum - 1)
      && (forall t <- post :: t in hand && NumberedAs(s[a].color, startNum + |s|)(t) && startNum + |s| <= 13)
  {
    var a := FindFirst(s, IsRegularTile).value;
    assert ExtendOne(s, hand, removal) == ExtendAs(Some(Run), s, hand, removal);
    ExtendAsRun(s, hand, removal);
    pre, post := ExtendRunParts(s, hand, s[a].color, StartNum(s[a].number, a), removal);
  }

  /** A group of fewer than four gains nothing or one tile of its number in a colour it lacks. */
  lemma ExtendOneGroupShape(s: seq<Tile>, hand: seq<Tile>, removal: Removal)
    requires IsValidSet(s).kind == Some(Group) && |s| < 4 && FindFirst(s, IsRegularTile).Some?
    ensures var r := ExtendOne(s, hand, removal);
      || r.grown == s
      || (&& |r.grown| == |s| + 1 && r.grown[..|s|] == s && r.grown[|s|] in hand
          && FitsGroup(s[FindFirst(s, IsRegularTile).value].number, ColorsOf(Regular(s)))(r.grown[|s|]))
  {
    var a := FindFirst(s, IsRegularTile).value;
    AddShape(s, hand, FitsGroup(s[a].number, ColorsOf(Regular(s))), removal, false);
  }

  /** Invalid sets, sets of jokers only and groups of four are left as they are. */
  lemma ExtendOneIdle(s: seq<Tile>, hand: seq<Tile>, removal: Removal)
    requires || FindFirst(s, IsRegularTile).None? || IsValidSet(s).kind == None
             || (IsValidSet(s).kind == Some(Group) && |s| >= 4)
    ensures var r := ExtendOne(s, hand, removal); r.grown == s && r.hand == hand && r.played == 0
  {
  }

  // ---------------------------------------------------------------------------
  // Validity
  // ---------------------------------------------------------------------------

  /**
   * A valid set, and if it is a run, one whose tiles sit at the positions of their numbers:
   * the form in which reading a run's numbers off its positions is right.
   */
  ghost predicate WellLaid(s: seq<Tile>) {
    && IsValidSet(s).valid
    && (IsValidSet(s).kind == Some(Run) ==> exists c: Color, start: int :: LaidOut(s, c, start))
  }

  /** Growing a laid-out run at the ends keeps it laid out, one position earlier if it grew in front. */
  lemma GrownRunLaidOut(s: seq<Tile>, pre: seq<Tile>, post: seq<Tile>, color: Color, start: int)
    requires LaidOut(s, color, start) && |pre| <= 1 && |post| <= 1
    requires forall t <- pre :: NumberedAs(color, start - 1)(t) && 1 <= start - 1
    requires forall t <- post :: NumberedAs(color, start + |s|)(t) && start + |s| <= 13
    ensures LaidOut(pre + s + post, color, start - |pre|)
  {
    var g := pre + s + post;
    var st := start - |pre|;
    if pre != [] {
      assert pre[0] in pre;
    }
    if post != [] {
      assert post[0] in post;
    }
    forall j | 0 <= j < |g| && g[j].Numbered? ensures g[j].color == color && g[j].number == st + j {
      if j < |pre| {
        assert g[j] == pre[j] && pre[j] in pre;
      } else if j < |pre| + |s| {
        assert g[j] == s[j - |pre|];
      } else {
        assert g[j] == post[j - |pre| - |s|] && post[j - |pre| - |s|] in post;
      }
    }
  }

  /** A laid-out run with a non-joker, grown at its ends, is laid out and passes the run check. */
  lemma ExtendRunValid(s: seq<Tile>, hand: seq<Tile>, color: Color, start: int, a: nat, removal: Removal)
    requires LaidOut(s, color, start) && |s| >= 3 && a < |s| && s[a].Numbered?
    ensures var g := ExtendRun(s, hand, color, start, removal).grown;
      ValidRun(g) && exists st :: LaidOut(g, color, st)
  {
    var pre, post := ExtendRunParts(s, hand, color, start, removal);
    var g := pre + s + post;
    GrownRunLaidOut(s, pre, post, color, start);
    assert g[|pre| + a] == s[a];
    RegularMember(g, s[a]);
    LaidOutValid(g, color, start - |pre|);
  }

  /**
   * Extending a well-laid set leaves a well-laid set. A run's first non-joker sits at the
   * position of its number, so `startNum` is the number of its first position.
   */
  lemma ExtendOneValid(s: seq<Tile>, hand: seq<Tile>, removal: Removal)
    requires WellLaid(s)
    ensures WellLaid(ExtendOne(s, hand, removal).grown)
  {
    var r := ExtendOne(s, hand, removal);
    var f := FindFirst(s, IsRegularTile);
    var kind := IsValidSet(s).kind;
    if f.Some? && kind == Some(Run) {
      var c: Color, start: int :| LaidOut(s, c, start);
      var a := f.value;
      assert s[a].color == c && StartNum(s[a].number, a) == start;
      assert r == ExtendRun(s, hand, c, start, removal);
      ExtendRunValid(s, hand, c, start, a, removal);
    } else if f.Some? && kind == Some(Group) && |s| < 4 {
      assert r == AddBack(s, hand, FitsGroup(s[f.value].number, ColorsOf(Regular(s))), removal);
      ExtendGroupValid(s, hand, f.value, removal);
    }
  }

  lemma ExtendGroupValid(s: seq<Tile>, hand: seq<Tile>, a: nat, removal: Removal)
    requires IsValidGroup(s) && |s| < 4 && a < |s| && FindFirst(s, IsRegularTile) == Some(a)
    ensures IsValidGroup(AddBack(s, hand, FitsGroup(s[a].number, ColorsOf(Regular(s))), removal).grown)
  {
    var p := FitsGroup(s[a].number, ColorsOf(Regular(s)));
    var r := AddBack(s, hand, p, removal);
    AddShape(s, hand, p, removal, false);
    AnchorIsFirstRegular(s);
    if r.played == 1 {
      GroupGrowsValid(s, r.grown[|s|]);
    }
  }

  /** A pass over a table of well-laid sets leaves well-laid sets. */
  lemma {:induction false} ExtendAllValid(table: seq<seq<Tile>>, hand: seq<Tile>, removal: Removal)
    requires forall s <- table :: WellLaid(s)
    ensures forall s <- ExtendAll(table, hand, removal).tableSets :: WellLaid(s)
  {
    if table != [] {
      var step := ExtendOne(table[0], hand, removal);
      assert table[0] in table;
      ExtendOneValid(table[0], hand, removal);
      assert forall s <- table[1..] :: s in table;
      ExtendAllValid(table[1..], step.hand, removal);
    }
  }

  /**
   * Without the laid-out form the reading goes wrong: the run check accepts red 5, 4, 6 in
   * that order, its numbers are read as 5, 6, 7, and a red 8 is added to give a set that is
   * no longer valid.
   */
  lemma UnorderedRunBreaks()
    ensures var s := [Numbered(1, Red, 5), Numbered(2, Red, 4), Numbered(3, Red, 6)];
      var r := ExtendOne(s, [Numbered(4, Red, 8)], SpliceFirst);
      && IsValidSet(s).valid
      && r.grown == s + [Numbered(4, Red, 8)]
      && !IsValidSet(r.grown).valid
  {
    var s := [Numbered(1, Red, 5), Numbered(2, Red, 4), Numbered(3, Red, 6)];
    var hand := [Numbered(4, Red, 8)];
    UnorderedRunValid(s);
    assert FindFirst(s, IsRegularTile) == Some(0);
    UnorderedRunGrows(s, hand);
    UnorderedRunGrownInvalid(s + hand);
  }

  lemma UnorderedRunValid(s: seq<Tile>)
    requires s == [Numbered(1, Red, 5), Numbered(2, Red, 4), Numbered(3, Red, 6)]
    ensures IsValidSet(s).kind == Some(Run)
  {
    AllNumberedRegular(s);
    NumbersAt(s, 0);
    NumbersAt(s, 1);
    NumbersAt(s, 2);
    assert Numbers(s) == [5, 4, 6];
    ValidRunIff(s);
    ValidGroupIff(s);
    assert !SameNumber(Regular(s)) by { assert s[0] in Regular(s) && s[1] in Regular(s); }
  }

  lemma UnorderedRunGrows(s: seq<Tile>, hand: seq<Tile>)
    requires s == [Numbered(1, Red, 5), Numbered(2, Red, 4), Numbered(3, Red, 6)]
    requires hand == [Numbered(4, Red, 8)]
    ensures ExtendRun(s, hand, Red, 5, SpliceFirst).grown == s + hand
  {
    assert FindFirst(hand, NumberedAs(Red, 4)) == None;
    assert RunFront(s, hand, Red, 5, SpliceFirst) == Step(s, hand, 0);
    assert FindFirst(hand, NumberedAs(Red, 8)) == Some(0);
  }

  lemma UnorderedRunGrownInvalid(g: seq<Tile>)
    requires g == [Numbered(1, Red, 5), Numbered(2, Red, 4), Numbered(3, Red, 6), Numbered(4, Red, 8)]
    ensures !IsValidSet(g).valid
  {
    AllNumberedRegular(g);
    NumbersAt(g, 0);
    NumbersAt(g, 1);
    NumbersAt(g, 2);
    NumbersAt(g, 3);
    var ns := Numbers(g);
    assert ns == [5, 4, 6, 8];
    assert MaxOf(ns) == 8 && MinOf(ns) == 4 by {
      assert ns[3] in ns && ns[1] in ns;
    }
    RegularJokerSplit(g);
    assert !ValidRun(g) by {
      ValidRunIff(g);
    }
    assert !IsValidGroup(g) by {
      ValidGroupIff(g);
      assert g[0] in Regular(g) && g[1] in Regular(g);
    }
  }
}
