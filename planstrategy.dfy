/**
 * The turn of the Easy and Medium bots: `play` in server/bot/strategies/EasyStrategy.js and
 * MediumStrategy.js, the same code in both. Once the initial meld is down the bot first
 * extends the table; it then lays the largest combination of new sets it can (one worth the
 * initial meld when that is not down yet), extends once more, and draws when it placed nothing.
 *
 * As written, a combination is taken out of the hand `play` was given, not out of the hand
 * left by the first extension, so the tiles that extension laid come back into the hand.
 * `HandSource` selects the hand: the bot's turn runs `OriginalHand`, as written, and what a
 * turn conserves is proved for `RemainingHand`.
 */
module PlanStrategy {
  import opened Tiles
  import opened Optional
  import opened Ordering
  import opened Rules
  import opened BotSets
  import opened Candidates
  import opened Extension
  import RulePresets

  /** `{ playerTiles, tableSets, hasPlayedInitialMeld, rules }`, what `play` receives. */
  datatype BotState = BotState(
    playerTiles: seq<Tile>,
    tableSets: seq<seq<Tile>>,
    hasPlayedInitialMeld: bool,
    rules: RulePresets.Rules)

  /** `{ action: 'play', tableSets, playerTiles, tilesPlayed, playedInitialMeld }` or `{ action: 'draw' }` */
  datatype Decision =
    | Play(tableSets: seq<seq<Tile>>, playerTiles: seq<Tile>, tilesPlayed: nat, playedInitialMeld: bool)
    | Draw

  /**
   * The hand a combination is taken from: the hand `play` was given (`OriginalHand`, the
   * code as written) or the hand left after the first extension (`RemainingHand`, as intended).
   */
  datatype HandSource = OriginalHand | RemainingHand

  // ---------------------------------------------------------------------------
  // Largest combinations first
  // ---------------------------------------------------------------------------

  /** `combo.reduce((sum, set) => sum + set.length, 0)` */
  function TileCount(c: seq<seq<Tile>>): nat {
    |Flatten(c)|
  }

  lemma TileCountCons(c: seq<seq<Tile>>)
    requires c != []
    ensures TileCount(c) == |c[0]| + TileCount(c[1..])
  {
  }

  /** Places `c` before the first combination that is not larger, so earlier ones stay first among equals. */
  function InsertBySize(c: seq<seq<Tile>>, cs: seq<seq<seq<Tile>>>): (r: seq<seq<seq<Tile>>>)
    ensures multiset(r) == multiset(cs) + multiset{c}
  {
    if cs == [] || TileCount(c) >= TileCount(cs[0]) then [c] + cs
    else
      assert cs == [cs[0]] + cs[1..];
      [cs[0]] + InsertBySize(c, cs[1..])
  }

  /** `combos.sort((a, b) => bTiles - aTiles)`: a stable sort, most tiles first. */
  function SortBySize(cs: seq<seq<seq<Tile>>>): (r: seq<seq<seq<Tile>>>)
    ensures multiset(r) == multiset(cs)
  {
    if cs == [] then []
    else
      assert cs == [cs[0]] + cs[1..];
      InsertBySize(cs[0], SortBySize(cs[1..]))
  }

  lemma SortBySizeMembers(cs: seq<seq<seq<Tile>>>)
    ensures forall c <- SortBySize(cs) :: c in cs
    ensures forall c <- cs :: c in SortBySize(cs)
  {
    forall c <- SortBySize(cs) ensures c in cs {
      assert c in multiset(SortBySize(cs));
    }
    forall c <- cs ensures c in SortBySize(cs) {
      assert c in multiset(cs);
    }
  }

  predicate LargestFirst(cs: seq<seq<seq<Tile>>>) {
    forall i, j :: 0 <= i < j < |cs| ==> TileCount(cs[i]) >= TileCount(cs[j])
  }

  /** The combinations of `n` tiles, in order. */
  function WithSize(cs: seq<seq<seq<Tile>>>, n: nat): seq<seq<seq<Tile>>> {
    if cs == [] then [] else OnlySize(cs[0], n) + WithSize(cs[1..], n)
  }

  function OnlySize(c: seq<seq<Tile>>, n: nat): seq<seq<seq<Tile>>> {
    if TileCount(c) == n then [c] else []
  }

  lemma {:induction false} InsertBySizeOrdered(c: seq<seq<Tile>>, cs: seq<seq<seq<Tile>>>)
    requires LargestFirst(cs)
    ensures LargestFirst(InsertBySize(c, cs))
  {
    if cs != [] && TileCount(c) < TileCount(cs[0]) {
      InsertBySizeOrdered(c, cs[1..]);
      var t := InsertBySize(c, cs[1..]);
      forall k | 0 <= k < |t| ensures TileCount(cs[0]) >= TileCount(t[k]) {
        assert t[k] in multiset(cs[1..]) + multiset{c};
        if t[k] in multiset(cs[1..]) {
          var m :| 0 <= m < |cs[1..]| && cs[1..][m] == t[k];
          assert cs[m + 1] == t[k];
        }
      }
    }
  }

  /** The sort puts larger combinations first. */
  lemma {:induction false} SortBySizeOrdered(cs: seq<seq<seq<Tile>>>)
    ensures LargestFirst(SortBySize(cs))
  {
    if cs != [] {
      SortBySizeOrdered(cs[1..]);
      InsertBySizeOrdered(cs[0], SortBySize(cs[1..]));
    }
  }

  lemma {:induction false} InsertBySizeStable(c: seq<seq<Tile>>, cs: seq<seq<seq<Tile>>>, n: nat)
    ensures WithSize(InsertBySize(c, cs), n) == OnlySize(c, n) + WithSize(cs, n)
  {
    if cs == [] || TileCount(c) >= TileCount(cs[0]) {
      WithSizeCons(c, cs, n);
    } else {
      var t := InsertBySize(c, cs[1..]);
      InsertBySizeStable(c, cs[1..], n);
      InsertedLater(c, cs, t, n);
    }
  }

  lemma InsertedLater(c: seq<seq<Tile>>, cs: seq<seq<seq<Tile>>>, t: seq<seq<seq<Tile>>>, n: nat)
    requires cs != [] && TileCount(c) < TileCount(cs[0])
    requires WithSize(t, n) == OnlySize(c, n) + WithSize(cs[1..], n)
    ensures WithSize([cs[0]] + t, n) == OnlySize(c, n) + WithSize(cs, n)
  {
    WithSizeCons(cs[0], t, n);
    assert OnlySize(cs[0], n) == [] || OnlySize(c, n) == [];
  }

  lemma WithSizeCons(c: seq<seq<Tile>>, cs: seq<seq<seq<Tile>>>, n: nat)
    ensures WithSize([c] + cs, n) == OnlySize(c, n) + WithSize(cs, n)
  {
    assert ([c] + cs)[1..] == cs;
  }

  /** Stability: combinations of the same size keep the order findAllPossibleSets gave them. */
  lemma {:induction false} SortBySizeStable(cs: seq<seq<seq<Tile>>>, n: nat)
    ensures WithSize(SortBySize(cs), n) == WithSize(cs, n)
  {
    if cs != [] {
      SortBySizeStable(cs[1..], n);
      InsertBySizeStable(cs[0], SortBySize(cs[1..]), n);
    }
  }

  // ---------------------------------------------------------------------------
  // Laying one combination
  // ---------------------------------------------------------------------------

  /**
   * The inner loop over a set's tiles: each in turn is spliced out of `hand` at the first
   * index carrying its id (`findIndex`); None once an id is missing.
   */
  function TakeAll(hand: seq<Tile>, tiles: seq<Tile>): (r: Option<seq<Tile>>)
    ensures r.Some? ==> |r.value| == |hand| - |tiles|
    decreases tiles
  {
    if tiles == [] then Some(hand)
    else match FindFirst(hand, HasId(tiles[0].id))
      case None => None
      case Some(k) => TakeAll(Splice(hand, k), tiles[1..])
  }

  lemma IdNotInBag(hand: seq<Tile>, id: int)
    requires forall t <- hand :: t.id != id
    ensures id !in IdBag(hand)
  {
    forall i | 0 <= i < |hand| ensures IdsOf(hand)[i] != id {
      IdsOfAt(hand, i);
      assert hand[i] in hand;
    }
    assert id !in IdsOf(hand);
  }

  /** The tiles can be taken exactly when the hand holds their ids, and then the ids move out of the hand. */
  lemma {:induction false} TakeAllIff(hand: seq<Tile>, tiles: seq<Tile>)
    ensures TakeAll(hand, tiles).Some? <==> IdBag(tiles) <= IdBag(hand)
    ensures TakeAll(hand, tiles).Some? ==> IdBag(hand) == IdBag(tiles) + IdBag(TakeAll(hand, tiles).value)
    decreases tiles
  {
    if tiles != [] {
      var id := tiles[0].id;
      assert IdBag(tiles) == multiset{id} + IdBag(tiles[1..]);
      var f := FindFirst(hand, HasId(id));
      if f.None? {
        IdNotInBag(hand, id);
        assert TakeAll(hand, tiles).None?;
      } else {
        var k := f.value;
        var rest := Splice(hand, k);
        assert TakeAll(hand, tiles) == TakeAll(rest, tiles[1..]);
        SpliceBag(hand, k);
        IdsOfAt(hand, k);
        assert id in IdBag(hand);
        TakeAllIff(rest, tiles[1..]);
        BagTake(IdBag(hand), id, IdBag(tiles[1..]));
        var fin := TakeAll(rest, tiles[1..]);
        if fin.Some? {
          BagRegroup(multiset{id}, IdBag(tiles[1..]), IdBag(fin.value), IdBag(rest));
        }
      }
    }
  }

  /** Taking one copy of `x` out of `h` and then `b` is taking `{x} + b`. */
  lemma BagTake(h: multiset<int>, x: int, b: multiset<int>)
    requires x in h
    ensures b <= h - multiset{x} <==> multiset{x} + b <= h
    ensures h == multiset{x} + (h - multiset{x})
  {
    if b <= h - multiset{x} {
      forall y ensures (multiset{x} + b)[y] <= h[y] {
        assert b[y] <= (h - multiset{x})[y];
      }
    }
    if multiset{x} + b <= h {
      forall y ensures b[y] <= (h - multiset{x})[y] {
        assert (multiset{x} + b)[y] <= h[y];
      }
    }
  }

  /**
   * A combination laid from `hand`, set by set: each set must pass isValidSet and each of its
   * tiles must be found in what is left of the hand.
   */
  function PlaceCombo(hand: seq<Tile>, combo: seq<seq<Tile>>): (r: Option<seq<Tile>>)
    ensures r.Some? ==> |r.value| == |hand| - TileCount(combo)
    decreases combo
  {
    if combo == [] then Some(hand)
    else if !IsValidSet(combo[0]).valid then None
    else match TakeAll(hand, combo[0])
      case None => None
      case Some(h) => PlaceCombo(h, combo[1..])
  }

  /**
   * A combination can be laid exactly when its sets are all valid and the hand holds all of
   * its ids; the ids then move from the hand onto the table.
   */
  lemma {:induction false} PlaceComboIff(hand: seq<Tile>, combo: seq<seq<Tile>>)
    ensures PlaceCombo(hand, combo).Some? <==> AllValid(combo) && IdBag(Flatten(combo)) <= IdBag(hand)
    ensures PlaceCombo(hand, combo).Some? ==>
      IdBag(hand) == IdBag(Flatten(combo)) + IdBag(PlaceCombo(hand, combo).value)
    decreases combo
  {
    if combo != [] {
      var first, rest := combo[0], combo[1..];
      assert combo == [first] + rest;
      AllValidCons(combo);
      IdBagConcat(first, Flatten(rest));
      if IsValidSet(first).valid {
        TakeAllIff(hand, first);
        var taken := TakeAll(hand, first);
        if taken.None? {
          assert !(IdBag(first) <= IdBag(hand));
        } else {
          var h := taken.value;
          assert PlaceCombo(hand, combo) == PlaceCombo(h, rest);
          PlaceComboIff(h, rest);
          BagShift(IdBag(first), IdBag(Flatten(rest)), IdBag(h));
        }
      }
    }
  }

  lemma AllValidCons(combo: seq<seq<Tile>>)
    requires combo != []
    ensures AllValid(combo) <==> IsValidSet(combo[0]).valid && AllValid(combo[1..])
  {
    if IsValidSet(combo[0]).valid && AllValid(combo[1..]) {
      forall i | 0 <= i < |combo| ensures IsValidSet(combo[i]).valid {
        if i > 0 { assert combo[i] == combo[1..][i - 1]; }
      }
    }
  }

  /** With `h` holding `a + m`, what `b` may take from `m` is what `a + b` may take from `h`. */
  lemma BagShift(a: multiset<int>, b: multiset<int>, m: multiset<int>)
    ensures b <= m <==> a + b <= a + m
  {
    if a + b <= a + m {
      forall y ensures b[y] <= m[y] {
        assert (a + b)[y] <= (a + m)[y];
      }
    }
  }

  // ---------------------------------------------------------------------------
  // Choosing the combination
  // ---------------------------------------------------------------------------

  /** A combination `play` takes: it can be laid and, before the initial meld, it is worth the meld. */
  predicate Acceptable(c: seq<seq<Tile>>, hand: seq<Tile>, melded: bool, threshold: int) {
    PlaceCombo(hand, c).Some? && (melded || InitialMeldPoints(c) >= threshold)
  }

  function AcceptableIn(hand: seq<Tile>, melded: bool, threshold: int): seq<seq<Tile>> -> bool {
    (c: seq<seq<Tile>>) => Acceptable(c, hand, melded, threshold)
  }

  /** The index of the first element satisfying `p`: where the loop over the sorted combinations stops. */
  function FirstIndex<T>(xs: seq<T>, p: T -> bool): (r: Option<nat>)
    ensures r.Some? ==> r.value < |xs| && p(xs[r.value])
    ensures r.Some? ==> forall j :: 0 <= j < r.value ==> !p(xs[j])
    ensures r.None? ==> forall x <- xs :: !p(x)
  {
    if xs == [] then None
    else if p(xs[0]) then Some(0)
    else match FirstIndex(xs[1..], p)
      case None => None
      case Some(k) => Some(k + 1)
  }

  /** The first index is `k` when `p` holds there and nowhere before. */
  lemma FirstIndexAt<T>(xs: seq<T>, p: T -> bool, k: nat)
    requires k < |xs| && p(xs[k]) && forall j :: 0 <= j < k ==> !p(xs[j])
    ensures FirstIndex(xs, p) == Some(k)
  {
    assert xs[k] in xs;
  }

  lemma FirstIndexNone<T>(xs: seq<T>, p: T -> bool)
    requires forall j :: 0 <= j < |xs| ==> !p(xs[j])
    ensures FirstIndex(xs, p) == None
  {
    var r := FirstIndex(xs, p);
  }

  // ---------------------------------------------------------------------------
  // The turn
  // ---------------------------------------------------------------------------

  /** `if (extendResult.tilesPlayed > 0)`: a pass is kept only when it placed something, its count added. */
  function Applied(cur: Extended, pass: Extended): Extended {
    if pass.tilesPlayed > 0 then Extended(pass.tableSets, pass.remaining, cur.tilesPlayed + pass.tilesPlayed)
    else cur
  }

  /** A tryExtendSets pass over the current table with the current hand, kept if it placed something. */
  function Extend(cur: Extended): Extended {
    Applied(cur, ExtendAll(cur.tableSets, cur.remaining, SpliceFirst))
  }

  /** Table, hand and count after the first extension, which runs only once the initial meld is down. */
  function FirstPass(st: BotState): Extended {
    var start := Extended(st.tableSets, st.playerTiles, 0);
    if st.hasPlayedInitialMeld then Extend(start) else start
  }

  /** findAllPossibleSets on the hand left by the first extension, most tiles first. */
  function Combos(level: Level, st: BotState): seq<seq<seq<Tile>>> {
    SortBySize(FindAllPossibleSets(level, FirstPass(st).remaining))
  }

  /** The hand each combination is tried against. */
  function Base(st: BotState, source: HandSource): seq<Tile> {
    if source == OriginalHand then st.playerTiles else FirstPass(st).remaining
  }

  /** The index of the combination laid, if any. */
  function Choice(level: Level, st: BotState, source: HandSource): Option<nat> {
    FirstIndex(Combos(level, st), AcceptableIn(Base(st, source), st.hasPlayedInitialMeld, st.rules.initialMeldPoints))
  }

  /**
   * Table, hand and count after the loop over `combos`: the first acceptable combination's
   * sets are appended to the table and its tiles taken from `hand`. As written the count is
   * overwritten by the combination's; as intended the combination's is added.
   */
  function AfterChoice(combos: seq<seq<seq<Tile>>>, hand: seq<Tile>, cur: Extended, melded: bool, threshold: int,
                       source: HandSource): Extended {
    match FirstIndex(combos, AcceptableIn(hand, melded, threshold))
    case None => cur
    case Some(i) =>
      var c := combos[i];
      var placed := PlaceCombo(hand, c).value;
      Extended(cur.tableSets + c, placed, if source == OriginalHand then TileCount(c) else cur.tilesPlayed + TileCount(c))
  }

  function AfterCombo(level: Level, st: BotState, source: HandSource): Extended {
    AfterChoice(Combos(level, st), Base(st, source), FirstPass(st), st.hasPlayedInitialMeld, st.rules.initialMeldPoints, source)
  }

  /** The second extension, run when the initial meld was already down and something was placed. */
  function SecondPass(level: Level, st: BotState, source: HandSource): Extended {
    var after := AfterCombo(level, st, source);
    if st.hasPlayedInitialMeld && after.tilesPlayed > 0 then Extend(after) else after
  }

  /** `play`: the sets, hand and count after both passes, or a draw when nothing was placed. */
  function Plan(level: Level, st: BotState, source: HandSource): Decision {
    var fin := SecondPass(level, st, source);
    if fin.tilesPlayed > 0 then
      Play(fin.tableSets, fin.remaining, fin.tilesPlayed, !st.hasPlayedInitialMeld && Choice(level, st, source).Some?)
    else Draw
  }

  // ---------------------------------------------------------------------------
  // The loops of `play`
  // ---------------------------------------------------------------------------

  /**
   * The check of one combination against `hand`: set by set, isValidSet, then each tile
   * spliced out of a copy of the hand; on success the sets are pushed onto a copy of the table.
   */
  method TryCombination(hand: seq<Tile>, tableSets: seq<seq<Tile>>, setCombo: seq<seq<Tile>>)
    returns (valid: bool, tempRemaining: seq<Tile>, tempTableSets: seq<seq<Tile>>, tempTilesPlayed: nat)
    ensures valid <==> PlaceCombo(hand, setCombo).Some?
    ensures valid ==> tempRemaining == PlaceCombo(hand, setCombo).value
    ensures valid ==> tempTableSets == tableSets + setCombo
    ensures valid ==> tempTilesPlayed == TileCount(setCombo)
  {
    tempRemaining := hand;
    tempTableSets := tableSets;
    valid := true;
    tempTilesPlayed := 0;
    var i := 0;
    assert setCombo[0..] == setCombo;
    while i < |setCombo|
      invariant ComboAt(hand, tableSets, setCombo, i, tempRemaining, tempTableSets, tempTilesPlayed)
    {
      var tileSet := setCombo[i];
      ComboStep(tempRemaining, setCombo, i);
      if !IsValidSet(tileSet).valid {
        valid := false;
        break;
      }
      var found, rest := TakeTiles(tempRemaining, tileSet);
      if !found {
        valid := false;
        break;
      }
      ComboAdvance(hand, tableSets, setCombo, i, tempRemaining, tempTableSets, tempTilesPlayed, rest);
      tempRemaining := rest;
      tempTilesPlayed := tempTilesPlayed + |tileSet|;
      tempTableSets := tempTableSets + [tileSet];
      i := i + 1;
    }
    if valid {
      ComboDone(hand, tableSets, setCombo, tempRemaining, tempTableSets, tempTilesPlayed);
    }
  }

  /**
   * The check after `i` sets: `rem` is the hand with their tiles taken out, `table` has them
   * pushed, `played` counts their tiles, and the rest of the check ends where the whole one does.
   */
  predicate ComboAt(hand: seq<Tile>, tableSets: seq<seq<Tile>>, combo: seq<seq<Tile>>, i: int,
                    rem: seq<Tile>, table: seq<seq<Tile>>, played: nat)
  {
    && 0 <= i <= |combo|
    && PlaceCombo(hand, combo) == PlaceCombo(rem, combo[i..])
    && table == tableSets + combo[..i]
    && played + TileCount(combo[i..]) == TileCount(combo)
  }

  lemma ComboAdvance(hand: seq<Tile>, tableSets: seq<seq<Tile>>, combo: seq<seq<Tile>>, i: int,
                     rem: seq<Tile>, table: seq<seq<Tile>>, played: nat, rest: seq<Tile>)
    requires ComboAt(hand, tableSets, combo, i, rem, table, played) && i < |combo|
    requires IsValidSet(combo[i]).valid && TakeAll(rem, combo[i]) == Some(rest)
    ensures ComboAt(hand, tableSets, combo, i + 1, rest, table + [combo[i]], played + |combo[i]|)
  {
    ComboStep(rem, combo, i);
  }

  lemma ComboDone(hand: seq<Tile>, tableSets: seq<seq<Tile>>, combo: seq<seq<Tile>>,
                  rem: seq<Tile>, table: seq<seq<Tile>>, played: nat)
    requires ComboAt(hand, tableSets, combo, |combo|, rem, table, played)
    ensures PlaceCombo(hand, combo) == Some(rem)
    ensures table == tableSets + combo && played == TileCount(combo)
  {
    assert combo[|combo|..] == [];
    assert combo[..|combo|] == combo;
  }

  /** One set of the check: it is placed, or the whole combination fails. */
  lemma ComboStep(hand: seq<Tile>, combo: seq<seq<Tile>>, i: nat)
    requires i < |combo|
    ensures !IsValidSet(combo[i]).valid || TakeAll(hand, combo[i]).None? ==> PlaceCombo(hand, combo[i..]).None?
    ensures IsValidSet(combo[i]).valid && TakeAll(hand, combo[i]).Some? ==>
      PlaceCombo(hand, combo[i..]) == PlaceCombo(TakeAll(hand, combo[i]).value, combo[i + 1..])
    ensures TileCount(combo[i..]) == |combo[i]| + TileCount(combo[i + 1..])
    ensures combo[..i + 1] == combo[..i] + [combo[i]]
  {
    var s := combo[i..];
    assert s[0] == combo[i] && s[1..] == combo[i + 1..];
    TileCountCons(s);
    PlaceComboCons(hand, s);
  }

  lemma PlaceComboCons(hand: seq<Tile>, s: seq<seq<Tile>>)
    requires s != []
    ensures !IsValidSet(s[0]).valid || TakeAll(hand, s[0]).None? ==> PlaceCombo(hand, s).None?
    ensures IsValidSet(s[0]).valid && TakeAll(hand, s[0]).Some? ==>
      PlaceCombo(hand, s) == PlaceCombo(TakeAll(hand, s[0]).value, s[1..])
  {
  }

  /**
   * The inner loop of the check: each tile of `tileSet` spliced out of the hand by id, stopping
   * at the first one the hand lacks.
   */
  method TakeTiles(hand: seq<Tile>, tileSet: seq<Tile>) returns (found: bool, rest: seq<Tile>)
    ensures found <==> TakeAll(hand, tileSet).Some?
    ensures found ==> rest == TakeAll(hand, tileSet).value
  {
    rest := hand;
    var j := 0;
    while j < |tileSet|
      invariant 0 <= j <= |tileSet|
      invariant TakeAll(hand, tileSet) == TakeAll(rest, tileSet[j..])
    {
      assert tileSet[j..][1..] == tileSet[j + 1..];
      var idx := FindFirst(rest, HasId(tileSet[j].id));
      if idx.None? {
        return false, rest;
      }
      rest := Splice(rest, idx.value);
      j := j + 1;
    }
    assert tileSet[j..] == [];
    found := true;
  }

  /** `play`, step for step; `source` picks the hand the combinations are taken from. */
  method PlayTurn(level: Level, st: BotState, source: HandSource) returns (d: Decision)
    ensures d == Plan(level, st, source)
  {
    var state := Extended(st.tableSets, st.playerTiles, 0);
    if st.hasPlayedInitialMeld {
      state := ExtendTable(state);
    }
    assert state == FirstPass(st);

    var allPossibleSets := SortBySize(FindAllPossibleSets(level, state.remaining));
    var hand := if source == OriginalHand then st.playerTiles else state.remaining;
    assert allPossibleSets == Combos(level, st) && hand == Base(st, source);
    var playedInitialMeld;
    state, playedInitialMeld := LayBestCombination(allPossibleSets, hand, state, st.hasPlayedInitialMeld,
                                                   st.rules.initialMeldPoints, source);
    assert state == AfterCombo(level, st, source);

    if st.hasPlayedInitialMeld && state.tilesPlayed > 0 {
      state := ExtendTable(state);
    }
    assert state == SecondPass(level, st, source);

    if state.tilesPlayed > 0 {
      d := Play(state.tableSets, state.remaining, state.tilesPlayed, playedInitialMeld);
    } else {
      d := Draw;
    }
  }

  /** One tryExtendSets pass, kept only when it placed a tile. */
  method ExtendTable(cur: Extended) returns (r: Extended)
    ensures r == Extend(cur)
  {
    r := cur;
    var extendResult := TryExtendSets(cur.remaining, cur.tableSets, SpliceFirst);
    if extendResult.tilesPlayed > 0 {
      r := Extended(extendResult.tableSets, extendResult.remaining, cur.tilesPlayed + extendResult.tilesPlayed);
    }
  }

  /**
   * The loop over the sorted combinations: the first that can be laid from `hand` (and,
   * before the initial meld, is worth it) replaces table, hand and count.
   */
  method LayBestCombination(allPossibleSets: seq<seq<seq<Tile>>>, hand: seq<Tile>, cur: Extended,
                            melded: bool, threshold: int, source: HandSource)
    returns (after: Extended, playedInitialMeld: bool)
    ensures after == AfterChoice(allPossibleSets, hand, cur, melded, threshold, source)
    ensures playedInitialMeld == (!melded && FirstIndex(allPossibleSets, AcceptableIn(hand, melded, threshold)).Some?)
  {
    after := cur;
    playedInitialMeld := false;
    var k := 0;
    while k < |allPossibleSets|
      invariant 0 <= k <= |allPossibleSets|
      invariant forall j :: 0 <= j < k ==> !Acceptable(allPossibleSets[j], hand, melded, threshold)
      invariant after == cur && !playedInitialMeld
    {
      var setCombo := allPossibleSets[k];
      var valid, tempRemaining, tempTableSets, tempTilesPlayed := TryCombination(hand, cur.tableSets, setCombo);
      if valid {
        var accepted := melded;
        if !accepted {
          var meldPoints := CalculateInitialMeldPoints(setCombo);
          accepted := meldPoints >= threshold;
        }
        if accepted {
          FirstIndexAt(allPossibleSets, AcceptableIn(hand, melded, threshold), k);
          playedInitialMeld := !melded;
          var count := if source == OriginalHand then tempTilesPlayed else cur.tilesPlayed + tempTilesPlayed;
          after := Extended(tempTableSets, tempRemaining, count);
          return;
        }
      }
      k := k + 1;
    }
    FirstIndexNone(allPossibleSets, AcceptableIn(hand, melded, threshold));
  }

  // ---------------------------------------------------------------------------
  // What a turn does
  // ---------------------------------------------------------------------------

  lemma ValidSetSize(s: seq<Tile>)
    requires IsValidSet(s).valid
    ensures |s| >= 3
  {
  }

  /** A combination that can be laid and is not empty places at least one tile. */
  lemma PlacedCount(hand: seq<Tile>, c: seq<seq<Tile>>)
    requires PlaceCombo(hand, c).Some? && c != []
    ensures TileCount(c) >= 3
  {
    ValidSetSize(c[0]);
    TileCountCons(c);
  }

  /** The combination laid is one findAllPossibleSets offered: non-empty, its sets disjoint and from the hand. */
  lemma ChosenIsCandidate(level: Level, st: BotState, source: HandSource)
    requires Choice(level, st, source).Some?
    ensures var c := Combos(level, st)[Choice(level, st, source).value];
      && c in FindAllPossibleSets(level, FirstPass(st).remaining)
      && c != [] && PairwiseDisjoint(c)
      && forall s <- c :: Playable(s, FirstPass(st).remaining)
  {
    var cs := FindAllPossibleSets(level, FirstPass(st).remaining);
    var c := Combos(level, st)[Choice(level, st, source).value];
    assert c in multiset(Combos(level, st));
    PossibleSetsSound(level, FirstPass(st).remaining);
  }

  lemma CombosNonEmpty(level: Level, st: BotState)
    ensures forall c <- Combos(level, st) :: c != []
  {
    var cs := FindAllPossibleSets(level, FirstPass(st).remaining);
    SortBySizeMembers(cs);
    PossibleSetsSound(level, FirstPass(st).remaining);
  }

  /** Without a choice the loop changes nothing; with one it places at least one tile. */
  lemma AfterChoiceCount(combos: seq<seq<seq<Tile>>>, hand: seq<Tile>, cur: Extended, melded: bool, threshold: int,
                         source: HandSource)
    requires forall c <- combos :: c != []
    ensures FirstIndex(combos, AcceptableIn(hand, melded, threshold)).None? ==>
      AfterChoice(combos, hand, cur, melded, threshold, source) == cur
    ensures FirstIndex(combos, AcceptableIn(hand, melded, threshold)).Some? ==>
      AfterChoice(combos, hand, cur, melded, threshold, source).tilesPlayed > 0
  {
    var choice := FirstIndex(combos, AcceptableIn(hand, melded, threshold));
    if choice.Some? {
      var c := combos[choice.value];
      assert c in combos;
      PlacedCount(hand, c);
    }
  }

  /** The bot draws exactly when the first extension placed nothing and no combination was acceptable. */
  lemma PlanDrawIff(level: Level, st: BotState, source: HandSource)
    ensures Plan(level, st, source) == Draw <==>
      FirstPass(st).tilesPlayed == 0 && Choice(level, st, source).None?
  {
    CombosNonEmpty(level, st);
    AfterChoiceCount(Combos(level, st), Base(st, source), FirstPass(st), st.hasPlayedInitialMeld,
                     st.rules.initialMeldPoints, source);
    SecondPassCount(level, st, source);
  }

  /** The second extension only runs after something was placed, and keeps the count positive. */
  lemma SecondPassCount(level: Level, st: BotState, source: HandSource)
    ensures SecondPass(level, st, source).tilesPlayed > 0 <==> AfterCombo(level, st, source).tilesPlayed > 0
  {
  }

  /** Before the initial meld nothing is extended: the table only gains the combination, which is worth the meld. */
  lemma PlanBeforeMeld(level: Level, st: BotState, source: HandSource)
    requires !st.hasPlayedInitialMeld
    ensures var d := Plan(level, st, source);
      d.Play? ==>
        && d.playedInitialMeld
        && |st.tableSets| <= |d.tableSets|
        && d.tableSets[..|st.tableSets|] == st.tableSets
        && AllValid(d.tableSets[|st.tableSets|..])
        && InitialMeldPoints(d.tableSets[|st.tableSets|..]) >= st.rules.initialMeldPoints
  {
    var d := Plan(level, st, source);
    if d.Play? {
      PlanDrawIff(level, st, source);
      var i := Choice(level, st, source).value;
      var c := Combos(level, st)[i];
      var hand := Base(st, source);
      PlaceComboIff(hand, c);
      assert d.tableSets == st.tableSets + c;
      assert d.tableSets[|st.tableSets|..] == c;
    }
  }

  /** A play reports the initial meld exactly when it was not down before. */
  lemma PlanMeldFlag(level: Level, st: BotState, source: HandSource)
    ensures Plan(level, st, source).Play? ==>
      (Plan(level, st, source).playedInitialMeld <==> !st.hasPlayedInitialMeld)
  {
    if Plan(level, st, source).Play? && !st.hasPlayedInitialMeld {
      PlanDrawIff(level, st, source);
    }
  }

  /** With the combinations largest first, the first acceptable one is a largest acceptable one. */
  lemma AfterChoiceLargest(combos: seq<seq<seq<Tile>>>, hand: seq<Tile>, cur: Extended, melded: bool, threshold: int,
                           source: HandSource)
    requires LargestFirst(combos)
    requires FirstIndex(combos, AcceptableIn(hand, melded, threshold)).Some?
    ensures var c := combos[FirstIndex(combos, AcceptableIn(hand, melded, threshold)).value];
      && AfterChoice(combos, hand, cur, melded, threshold, source).tableSets == cur.tableSets + c
      && forall c2 <- combos :: Acceptable(c2, hand, melded, threshold) ==> TileCount(c2) <= TileCount(c)
  {
    var i := FirstIndex(combos, AcceptableIn(hand, melded, threshold)).value;
    forall c2 <- combos | Acceptable(c2, hand, melded, threshold)
      ensures TileCount(c2) <= TileCount(combos[i])
    {
      var j :| 0 <= j < |combos| && combos[j] == c2;
      assert AcceptableIn(hand, melded, threshold)(combos[j]);
    }
  }

  /**
   * The combination laid has as many tiles as any acceptable candidate: among those that can
   * be laid (and reach the meld threshold before the initial meld) it is a largest.
   */
  lemma PlanLaysLargest(level: Level, st: BotState, source: HandSource)
    requires Choice(level, st, source).Some?
    ensures var c := Combos(level, st)[Choice(level, st, source).value];
      && AfterCombo(level, st, source).tableSets == FirstPass(st).tableSets + c
      && forall c2 <- FindAllPossibleSets(level, FirstPass(st).remaining) ::
           Acceptable(c2, Base(st, source), st.hasPlayedInitialMeld, st.rules.initialMeldPoints) ==>
           TileCount(c2) <= TileCount(c)
  {
    var cs := FindAllPossibleSets(level, FirstPass(st).remaining);
    SortBySizeOrdered(cs);
    SortBySizeMembers(cs);
    AfterChoiceLargest(Combos(level, st), Base(st, source), FirstPass(st), st.hasPlayedInitialMeld,
                       st.rules.initialMeldPoints, source);
  }

  // ---------------------------------------------------------------------------
  // Conservation, as intended and as written
  // ---------------------------------------------------------------------------

  /** Table and hand together hold the ids they held at the start, and the count is what left the hand. */
  predicate Keeps(st: BotState, e: Extended) {
    && IdBag(Flatten(st.tableSets)) + IdBag(st.playerTiles) == IdBag(Flatten(e.tableSets)) + IdBag(e.remaining)
    && |e.remaining| + e.tilesPlayed == |st.playerTiles|
  }

  lemma ExtendKeeps(st: BotState, cur: Extended)
    requires Keeps(st, cur)
    ensures Keeps(st, Extend(cur))
  {
    ExtendAllConserves(cur.tableSets, cur.remaining, SpliceFirst);
  }

  lemma FirstPassKeeps(st: BotState)
    ensures Keeps(st, FirstPass(st))
  {
    var start := Extended(st.tableSets, st.playerTiles, 0);
    assert Keeps(st, start);
    if st.hasPlayedInitialMeld {
      ExtendKeeps(st, start);
    }
  }

  lemma AfterChoiceKeeps(st: BotState, combos: seq<seq<seq<Tile>>>, cur: Extended, melded: bool, threshold: int)
    requires Keeps(st, cur)
    ensures Keeps(st, AfterChoice(combos, cur.remaining, cur, melded, threshold, RemainingHand))
  {
    var choice := FirstIndex(combos, AcceptableIn(cur.remaining, melded, threshold));
    if choice.Some? {
      var c := combos[choice.value];
      var placed := PlaceCombo(cur.remaining, c).value;
      PlaceComboIff(cur.remaining, c);
      FlattenConcat(cur.tableSets, c);
      IdBagConcat(Flatten(cur.tableSets), Flatten(c));
      BagRegroup(IdBag(Flatten(cur.tableSets)), IdBag(Flatten(c)), IdBag(placed), IdBag(cur.remaining));
    }
  }

  lemma BagRegroup(t: multiset<int>, f: multiset<int>, p: multiset<int>, r: multiset<int>)
    requires r == f + p
    ensures (t + f) + p == t + r
  {
  }

  lemma AfterComboKeeps(level: Level, st: BotState)
    ensures Keeps(st, AfterCombo(level, st, RemainingHand))
  {
    FirstPassKeeps(st);
    AfterChoiceKeeps(st, Combos(level, st), FirstPass(st), st.hasPlayedInitialMeld, st.rules.initialMeldPoints);
  }

  /**
   * As intended, a turn moves tiles from the hand to the table and nothing else: the ids of
   * hand and table together are unchanged and the hand shrinks by the count reported.
   */
  lemma PlanConserves(level: Level, st: BotState)
    ensures var d := Plan(level, st, RemainingHand);
      d.Play? ==>
        && IdBag(Flatten(st.tableSets)) + IdBag(st.playerTiles) == IdBag(Flatten(d.tableSets)) + IdBag(d.playerTiles)
        && |d.playerTiles| == |st.playerTiles| - d.tilesPlayed
  {
    var fin := SecondPass(level, st, RemainingHand);
    SecondPassKeeps(level, st, fin);
    if fin.tilesPlayed > 0 {
      assert Plan(level, st, RemainingHand).playerTiles == fin.remaining;
    }
  }

  lemma SecondPassKeeps(level: Level, st: BotState, fin: Extended)
    requires fin == SecondPass(level, st, RemainingHand)
    ensures Keeps(st, fin)
  {
    var after := AfterCombo(level, st, RemainingHand);
    AfterComboKeeps(level, st);
    if st.hasPlayedInitialMeld && after.tilesPlayed > 0 {
      ExtendKeeps(st, after);
    }
  }

  /** Before the initial meld and whenever the first extension placed nothing, both hands agree. */
  lemma SourcesAgree(level: Level, st: BotState)
    requires !st.hasPlayedInitialMeld || ExtendAll(st.tableSets, st.playerTiles, SpliceFirst).tilesPlayed == 0
    ensures Plan(level, st, OriginalHand) == Plan(level, st, RemainingHand)
  {
    assert FirstPass(st) == Extended(st.tableSets, st.playerTiles, 0);
    assert Base(st, OriginalHand) == Base(st, RemainingHand);
  }

  lemma BagSum(a: seq<Tile>, b: seq<Tile>)
    ensures |IdBag(a) + IdBag(b)| == |a| + |b|
  {
    assert |IdBag(a)| == |a| && |IdBag(b)| == |b|;
  }

  /** Tiles on the table and in the hand, counted together. */
  function Total(e: Extended): nat {
    |Flatten(e.tableSets)| + |e.remaining|
  }

  /** What a pass lays it takes from the hand, so the total stays. */
  lemma ExtendTotal(cur: Extended)
    ensures Total(Extend(cur)) == Total(cur) && Extend(cur).tilesPlayed >= cur.tilesPlayed
  {
    var pass := ExtendAll(cur.tableSets, cur.remaining, SpliceFirst);
    ExtendAllConserves(cur.tableSets, cur.remaining, SpliceFirst);
    BagSum(Flatten(cur.tableSets), cur.remaining);
    BagSum(Flatten(pass.tableSets), pass.remaining);
  }

  lemma KeepsSize(st: BotState, e: Extended)
    requires Keeps(st, e)
    ensures |Flatten(e.tableSets)| == |Flatten(st.tableSets)| + e.tilesPlayed
  {
    BagSum(Flatten(st.tableSets), st.playerTiles);
    BagSum(Flatten(e.tableSets), e.remaining);
  }

  /** As written, the combination is laid from `hand` whatever the table already holds. */
  lemma AfterChoiceTotal(combos: seq<seq<seq<Tile>>>, hand: seq<Tile>, cur: Extended, melded: bool, threshold: int)
    requires FirstIndex(combos, AcceptableIn(hand, melded, threshold)).Some?
    ensures Total(AfterChoice(combos, hand, cur, melded, threshold, OriginalHand)) == |Flatten(cur.tableSets)| + |hand|
  {
    var c := combos[FirstIndex(combos, AcceptableIn(hand, melded, threshold)).value];
    FlattenConcat(cur.tableSets, c);
  }

  /**
   * As written, once the first extension placed `n` tiles and a combination is laid, the
   * turn ends with `n` tiles more on table and hand together than it started with: the
   * tiles the extension laid are back in the hand.
   */
  lemma AsWrittenDuplicates(level: Level, st: BotState)
    requires st.hasPlayedInitialMeld && FirstPass(st).tilesPlayed > 0
    requires Choice(level, st, OriginalHand).Some?
    ensures var d := Plan(level, st, OriginalHand);
      && d.Play?
      && |Flatten(d.tableSets)| + |d.playerTiles| == |Flatten(st.tableSets)| + |st.playerTiles| + FirstPass(st).tilesPlayed
  {
    var cur := FirstPass(st);
    FirstPassKeeps(st);
    KeepsSize(st, cur);
    CombosNonEmpty(level, st);
    var combos, melded, threshold := Combos(level, st), st.hasPlayedInitialMeld, st.rules.initialMeldPoints;
    AfterChoiceCount(combos, st.playerTiles, cur, melded, threshold, OriginalHand);
    AfterChoiceTotal(combos, st.playerTiles, cur, melded, threshold);
    ExtendTotal(AfterCombo(level, st, OriginalHand));
  }
}
