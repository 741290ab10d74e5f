/**
 * Set legality, scoring and table validation (common/rules.js).
 *
 * The run check is the one the code performs: the non-joker numbers are sorted, internal
 * gaps are summed and compared with the number of jokers. Where the tiles sit in the set
 * plays no part.
 */
module Rules {
  import opened Tiles
  import opened Optional
  import opened Ordering
  import opened RulePresets

  // ---------------------------------------------------------------------------
  // Filters over a set of tiles
  // ---------------------------------------------------------------------------

  /** `tiles.filter(t => !t.isJoker)` */
  function Regular(tiles: seq<Tile>): (r: seq<Tile>)
    ensures |r| <= |tiles| && forall t <- r :: t.Numbered?
  {
    if tiles == [] then []
    else (if tiles[0].Joker? then [] else [tiles[0]]) + Regular(tiles[1..])
  }

  /** Without jokers the filter keeps everything. */
  lemma {:induction false} AllNumberedRegular(g: seq<Tile>)
    requires forall t <- g :: t.Numbered?
    ensures Regular(g) == g
  {
    if g != [] {
      assert g[0] in g;
      assert forall t <- g[1..] :: t in g;
      AllNumberedRegular(g[1..]);
      assert [g[0]] + g[1..] == g;
    }
  }

  /** `tiles.filter(t => t.isJoker).length` */
  function JokerCount(tiles: seq<Tile>): nat {
    if tiles == [] then 0
    else (if tiles[0].Joker? then 1 else 0) + JokerCount(tiles[1..])
  }

  /** `tile.number`; a joker's `null` number counts as 0 in arithmetic. */
  function NumberOf(t: Tile): int {
    if t.Numbered? then t.number else 0
  }

  /** `tiles.map(t => t.number)` */
  function Numbers(tiles: seq<Tile>): (r: seq<int>)
    ensures |r| == |tiles|
  {
    if tiles == [] then [] else [NumberOf(tiles[0])] + Numbers(tiles[1..])
  }

  /** `regular.map(t => t.color)` */
  function ColorsOf(regular: seq<Tile>): (r: seq<Color>)
    requires forall t <- regular :: t.Numbered?
    ensures |r| == |regular|
  {
    if regular == [] then [] else [regular[0].color] + ColorsOf(regular[1..])
  }

  predicate SameColor(regular: seq<Tile>)
    requires forall t <- regular :: t.Numbered?
  {
    forall t, u | t in regular && u in regular :: t.color == u.color
  }

  predicate SameNumber(regular: seq<Tile>)
    requires forall t <- regular :: t.Numbered?
  {
    forall t, u | t in regular && u in regular :: t.number == u.number
  }

  /** Every tile is a joker or a numbered tile. */
  lemma {:induction false} RegularJokerSplit(tiles: seq<Tile>)
    ensures |Regular(tiles)| + JokerCount(tiles) == |tiles|
  {
    if tiles != [] {
      RegularJokerSplit(tiles[1..]);
    }
  }

  lemma {:induction false} RegularMember(tiles: seq<Tile>, t: Tile)
    ensures t in Regular(tiles) <==> t in tiles && t.Numbered?
  {
    if tiles != [] {
      RegularMember(tiles[1..], t);
      assert tiles == [tiles[0]] + tiles[1..];
    }
  }

  /** The filter keeps every numbered tile as often as it occurs and drops every joker. */
  lemma {:induction false} RegularCount(tiles: seq<Tile>, x: Tile)
    ensures multiset(Regular(tiles))[x] == if x.Numbered? then multiset(tiles)[x] else 0
  {
    if tiles != [] {
      RegularCount(tiles[1..], x);
      assert tiles == [tiles[0]] + tiles[1..];
    }
  }

  lemma RegularPermutation(a: seq<Tile>, b: seq<Tile>)
    requires multiset(a) == multiset(b)
    ensures multiset(Regular(a)) == multiset(Regular(b))
    ensures |a| == |b| && JokerCount(a) == JokerCount(b)
  {
    var ra, rb := Regular(a), Regular(b);
    forall x ensures multiset(ra)[x] == multiset(rb)[x] {
      RegularCount(a, x);
      RegularCount(b, x);
    }
    assert multiset(ra) == multiset(rb);
    assert |a| == |multiset(a)| == |multiset(b)| == |b|;
    assert |ra| == |multiset(ra)| == |multiset(rb)| == |rb|;
    RegularJokerSplit(a);
    RegularJokerSplit(b);
  }

  lemma {:induction false} NumbersConcat(a: seq<Tile>, b: seq<Tile>)
    ensures Numbers(a + b) == Numbers(a) + Numbers(b)
  {
    if a == [] {
      assert a + b == b;
    } else {
      assert (a + b)[0] == a[0] && (a + b)[1..] == a[1..] + b;
      NumbersConcat(a[1..], b);
    }
  }

  lemma {:induction false} NumbersAt(tiles: seq<Tile>, i: nat)
    requires i < |tiles|
    ensures Numbers(tiles)[i] == NumberOf(tiles[i])
  {
    if i > 0 {
      NumbersAt(tiles[1..], i - 1);
    }
  }

  lemma NumbersRemove(b: seq<Tile>, j: nat)
    requires j < |b|
    ensures multiset(Numbers(b)) == multiset(Numbers(b[..j] + b[j + 1..])) + multiset{NumberOf(b[j])}
  {
    SplitAround(b, j);
    NumbersConcat(b[..j], [b[j]] + b[j + 1..]);
    NumbersConcat([b[j]], b[j + 1..]);
    NumbersConcat(b[..j], b[j + 1..]);
    MiddleOut(Numbers(b[..j]), NumberOf(b[j]), Numbers(b[j + 1..]));
  }

  lemma MiddleOut(p: seq<int>, n: int, q: seq<int>)
    ensures multiset(p + ([n] + q)) == multiset(p + q) + multiset{n}
  {
  }

  /** Reordering the tiles reorders their numbers. */
  lemma {:induction false} NumbersPermutation(a: seq<Tile>, b: seq<Tile>)
    requires multiset(a) == multiset(b)
    ensures multiset(Numbers(a)) == multiset(Numbers(b))
  {
    if a == [] {
      assert |b| == |multiset(b)| == 0;
    } else {
      assert a[0] in multiset(b);
      var j :| 0 <= j < |b| && b[j] == a[0];
      var rest := b[..j] + b[j + 1..];
      RemoveAt(b, j);
      assert a == [a[0]] + a[1..];
      assert multiset(a[1..]) == multiset(a) - multiset{a[0]};
      NumbersPermutation(a[1..], rest);
      NumbersRemove(b, j);
      NumbersConcat([a[0]], a[1..]);
    }
  }

  lemma {:induction false} AllJokersHaveNoRegular(tiles: seq<Tile>)
    requires forall t <- tiles :: t.Joker?
    ensures Regular(tiles) == [] && JokerCount(tiles) == |tiles|
  {
    if tiles != [] {
      AllJokersHaveNoRegular(tiles[1..]);
    }
  }

  // ---------------------------------------------------------------------------
  // Groups
  // ---------------------------------------------------------------------------

  /** isValidGroup */
  predicate IsValidGroup(tiles: seq<Tile>) {
    if |tiles| < 3 || |tiles| > 4 then false
    else
      var regular := Regular(tiles);
      var jokerCount := JokerCount(tiles);
      if |regular| == 0 then |tiles| >= 3
      else
        var number := regular[0].number;
        var colors := ColorsOf(regular);
        && (forall t <- regular :: t.number == number)
        && SetSize(colors) == |colors|
        && SetSize(colors) + jokerCount <= 4
  }

  /**
   * The closing `uniqueColors.size + jokerCount > 4` test never rejects: once the colours
   * are distinct, that total is the set's own length.
   */
  lemma GroupColorBoundNeverRejects(tiles: seq<Tile>)
    requires 3 <= |tiles| <= 4
    requires SetSize(ColorsOf(Regular(tiles))) == |Regular(tiles)|
    ensures SetSize(ColorsOf(Regular(tiles))) + JokerCount(tiles) == |tiles| <= 4
  {
    RegularJokerSplit(tiles);
  }

  /** A group is 3 or 4 tiles whose non-jokers share one number and have distinct colours. */
  lemma ValidGroupIff(tiles: seq<Tile>)
    ensures IsValidGroup(tiles) <==>
      && 3 <= |tiles| <= 4
      && SameNumber(Regular(tiles))
      && Distinct(ColorsOf(Regular(tiles)))
  {
    var regular := Regular(tiles);
    SetSizeDistinct(ColorsOf(regular));
    if 3 <= |tiles| <= 4 && SetSize(ColorsOf(regular)) == |regular| {
      GroupColorBoundNeverRejects(tiles);
    }
  }

  // ---------------------------------------------------------------------------
  // Runs
  // ---------------------------------------------------------------------------

  /**
   * The `jokersUsed` the gap loop accumulates over a sorted list of numbers, or None when it
   * meets a duplicate number (a negative gap) and returns false.
   */
  function Gaps(sorted: seq<int>): Option<int>
    requires |sorted| >= 1
  {
    if |sorted| == 1 then Some(0)
    else match Gaps(sorted[..|sorted| - 1])
      case None => None
      case Some(used) =>
        var gap := sorted[|sorted| - 1] - sorted[|sorted| - 2] - 1;
        if gap < 0 then None else Some(used + gap)
  }

  /** The gaps telescope: their sum is the span minus the numbers already present. */
  lemma {:induction false} GapsTelescope(s: seq<int>)
    requires |s| >= 1
    ensures Gaps(s).Some? <==> Increasing(s)
    ensures Gaps(s).Some? ==> Gaps(s).value == s[|s| - 1] - s[0] - (|s| - 1)
  {
    if |s| > 1 {
      var init := s[..|s| - 1];
      GapsTelescope(init);
      assert forall i :: 0 <= i < |init| ==> init[i] == s[i];
    }
  }

  /** An increasing list of numbers is already sorted, and its gaps telescope. */
  lemma IncreasingGaps(ns: seq<int>)
    requires Increasing(ns) && |ns| >= 1
    ensures SortInts(ns) == ns
    ensures Gaps(ns).Some? && Gaps(ns).value == ns[|ns| - 1] - ns[0] - (|ns| - 1)
  {
    GapsTelescope(ns);
    IncreasingSorted(ns);
  }

  lemma IncreasingSorted(ns: seq<int>)
    requires Increasing(ns)
    ensures SortInts(ns) == ns
  {
    assert Sorted(ns) by {
      forall i, j | 0 <= i < j < |ns| ensures ns[i] <= ns[j] {
        IncreasingFrom(ns, i, j);
      }
    }
    SortIntsSpec(ns);
    SortedUnique(SortInts(ns), ns);
  }

  /** `maxNumber - minNumber + 1 + (jokerCount - jokersUsed)` */
  function RunLength(sorted: seq<int>, jokerCount: int, jokersUsed: int): int
    requires |sorted| >= 1
  {
    sorted[|sorted| - 1] - sorted[0] + 1 + (jokerCount - jokersUsed)
  }

  /** isValidRun, as a predicate over the tiles. */
  predicate ValidRun(tiles: seq<Tile>) {
    && 3 <= |tiles| <= 13
    && var regular := Regular(tiles);
       var jokerCount := JokerCount(tiles);
       (|regular| == 0 ||
        ((forall t <- regular :: t.color == regular[0].color) &&
         var sorted := SortInts(Numbers(regular));
         match Gaps(sorted)
         case None => false
         case Some(jokersUsed) =>
           jokersUsed <= jokerCount && RunLength(sorted, jokerCount, jokersUsed) <= 13))
  }

  /** isValidRun: filters, a colour check, a sort and the gap-summing loop. */
  method IsValidRun(tiles: seq<Tile>) returns (valid: bool)
    ensures valid == ValidRun(tiles)
  {
    if |tiles| < 3 || |tiles| > 13 {
      return false;
    }
    var regular := Regular(tiles);
    var jokerCount := JokerCount(tiles);
    if |regular| == 0 {
      return |tiles| >= 3;
    }
    var color := regular[0].color;
    if !(forall t <- regular :: t.color == color) {
      return false;
    }
    var sorted := SortInts(Numbers(regular));
    var jokersUsed := 0;
    var i := 1;
    while i < |sorted|
      invariant 1 <= i <= |sorted|
      invariant Gaps(sorted[..i]) == Some(jokersUsed)
    {
      assert sorted[..i + 1][..i] == sorted[..i];
      var gap := sorted[i] - sorted[i - 1] - 1;
      if gap < 0 {
        GapsTelescope(sorted[..i + 1]);
        GapsTelescope(sorted);
        assert sorted[..i + 1][i - 1] == sorted[i - 1] && sorted[..i + 1][i] == sorted[i];
        return false;
      }
      jokersUsed := jokersUsed + gap;
      i := i + 1;
    }
    assert sorted[..i] == sorted;
    if jokersUsed > jokerCount {
      return false;
    }
    var minNumber := sorted[0];
    var maxNumber := sorted[|sorted| - 1];
    var runLength := maxNumber - minNumber + 1 + (jokerCount - jokersUsed);
    return runLength <= 13;
  }

  /**
   * Once the gaps fit, `runLength` is exactly the number of tiles, so the final
   * `runLength <= 13` test never rejects after the length check.
   */
  lemma RunLengthIsTileCount(tiles: seq<Tile>)
    requires |Regular(tiles)| >= 1
    requires Gaps(SortInts(Numbers(Regular(tiles)))).Some?
    ensures var sorted := SortInts(Numbers(Regular(tiles)));
      RunLength(sorted, JokerCount(tiles), Gaps(sorted).value) == |tiles|
  {
    GapsTelescope(SortInts(Numbers(Regular(tiles))));
    RegularJokerSplit(tiles);
  }

  /**
   * A run is 3 to 13 tiles that are all jokers, or whose non-jokers share a colour, carry
   * pairwise distinct numbers, and leave no more holes between the lowest and the highest
   * number than there are jokers.
   */
  lemma ValidRunIff(tiles: seq<Tile>)
    ensures ValidRun(tiles) <==>
      && 3 <= |tiles| <= 13
      && var regular := Regular(tiles);
         (|regular| == 0 ||
          (SameColor(regular) && Distinct(Numbers(regular)) &&
           MaxOf(Numbers(regular)) - MinOf(Numbers(regular)) + 1 - |regular| <= JokerCount(tiles)))
  {
    var regular := Regular(tiles);
    if 3 <= |tiles| <= 13 && |regular| >= 1 {
      var numbers := Numbers(regular);
      var sorted := SortInts(numbers);
      SortIntsSpec(numbers);
      SortedEnds(sorted, numbers);
      GapsTelescope(sorted);
      SortedIncreasingIffDistinct(sorted);
      DistinctPermutation(sorted, numbers);
      if Gaps(sorted).Some? {
        RunLengthIsTileCount(tiles);
      }
    }
  }

  /** The run check ignores the order of the tiles. */
  lemma ValidRunPermutation(a: seq<Tile>, b: seq<Tile>)
    requires multiset(a) == multiset(b)
    ensures ValidRun(a) <==> ValidRun(b)
  {
    RegularPermutation(a, b);
    var ra, rb := Regular(a), Regular(b);
    NumbersPermutation(ra, rb);
    SortPermutation(Numbers(ra), Numbers(rb));
    assert |ra| == |multiset(ra)| == |multiset(rb)| == |rb|;
    if |ra| > 0 {
      SameColorPermutation(ra, rb);
    }
    ValidRunParts(a, b);
  }

  /** A colour test on the first tile agrees between two arrangements of the same tiles. */
  lemma SameColorPermutation(ra: seq<Tile>, rb: seq<Tile>)
    requires multiset(ra) == multiset(rb) && |ra| > 0 && |rb| > 0
    requires forall t <- ra :: t.Numbered?
    requires forall t <- rb :: t.Numbered?
    ensures (forall t <- ra :: t.color == ra[0].color) <==> (forall t <- rb :: t.color == rb[0].color)
  {
    forall t ensures t in ra <==> t in rb {
      assert t in ra <==> t in multiset(ra);
      assert t in rb <==> t in multiset(rb);
    }
    assert ra[0] in rb && rb[0] in ra;
  }

  /** The run check reads only the size, the joker count, the colour test and the sorted numbers. */
  lemma ValidRunParts(a: seq<Tile>, b: seq<Tile>)
    requires |a| == |b| && JokerCount(a) == JokerCount(b) && |Regular(a)| == |Regular(b)|
    requires SortInts(Numbers(Regular(a))) == SortInts(Numbers(Regular(b)))
    requires |Regular(a)| > 0 && |Regular(b)| > 0 ==>
      ((forall t <- Regular(a) :: t.color == Regular(a)[0].color) <==> (forall t <- Regular(b) :: t.color == Regular(b)[0].color))
    ensures ValidRun(a) <==> ValidRun(b)
  {
  }

  /** All-joker sets: groups at 3 to 4 tiles, runs at 3 to 13 tiles. */
  lemma AllJokerSets(tiles: seq<Tile>)
    requires forall t <- tiles :: t.Joker?
    ensures IsValidGroup(tiles) <==> 3 <= |tiles| <= 4
    ensures ValidRun(tiles) <==> 3 <= |tiles| <= 13
  {
    AllJokersHaveNoRegular(tiles);
  }

  // ---------------------------------------------------------------------------
  // Sets, points and the table
  // ---------------------------------------------------------------------------

  datatype SetKind = Group | Run

  /** `{valid, type}` with `type` null for an invalid set. */
  datatype SetCheck = SetCheck(valid: bool, kind: Option<SetKind>)

  /** isValidSet: a group first, then a run. */
  function IsValidSet(tiles: seq<Tile>): (r: SetCheck)
    ensures r.valid <==> IsValidGroup(tiles) || ValidRun(tiles)
    ensures r.kind == Some(Group) <==> IsValidGroup(tiles)
    ensures r.kind == Some(Run) <==> !IsValidGroup(tiles) && ValidRun(tiles)
    ensures r.valid <==> r.kind.Some?
  {
    if IsValidGroup(tiles) then SetCheck(true, Some(Group))
    else if ValidRun(tiles) then SetCheck(true, Some(Run))
    else SetCheck(false, None)
  }

  /** calculateSetPoints: the sum of the numbers, a joker adding nothing. */
  function SetPoints(tiles: seq<Tile>): int {
    if tiles == [] then 0
    else (if tiles[0].Joker? then 0 else tiles[0].number) + SetPoints(tiles[1..])
  }

  /** Set points add up over concatenation and are the sum of the non-joker numbers. */
  lemma {:induction false} SetPointsIgnoresJokers(a: seq<Tile>, b: seq<Tile>)
    ensures SetPoints(a + b) == SetPoints(a) + SetPoints(b)
    ensures SetPoints(a) == Sum(Numbers(Regular(a)))
  {
    if a == [] {
      assert a + b == b;
    } else {
      assert (a + b)[0] == a[0] && (a + b)[1..] == a[1..] + b;
      SetPointsIgnoresJokers(a[1..], b);
      var head := if a[0].Joker? then [] else [a[0]];
      assert Regular(a) == head + Regular(a[1..]);
      NumbersConcat(head, Regular(a[1..]));
      SumConcat(Numbers(head), Numbers(Regular(a[1..])));
    }
  }

  /** calculatePenaltyPoints: 30 per joker, the face value of every other tile. */
  function PenaltyPoints(tiles: seq<Tile>): int {
    if tiles == [] then 0
    else (if tiles[0].Joker? then 30 else tiles[0].number) + PenaltyPoints(tiles[1..])
  }

  lemma {:induction false} PenaltySplit(tiles: seq<Tile>)
    ensures PenaltyPoints(tiles) == 30 * JokerCount(tiles) + SetPoints(tiles)
  {
    if tiles != [] {
      PenaltySplit(tiles[1..]);
    }
  }

  /** hasPlayerWon */
  function HasPlayerWon(playerTiles: seq<Tile>): (won: bool)
    ensures won <==> playerTiles == []
    ensures won ==> PenaltyPoints(playerTiles) == 0
  {
    |playerTiles| == 0
  }

  /** `set.find(t => !t.isJoker)?.number || 0` */
  function FirstRegularNumber(tiles: seq<Tile>): int {
    var regular := Regular(tiles);
    if |regular| == 0 then 0 else regular[0].number
  }

  /**
   * The value the meld count gives the `i`-th joker beyond a run's gaps: the slot below
   * the run while one exists, otherwise `maxNum + i + 1` if that is at most 13, otherwise 0.
   */
  function JokerSlotValue(minNum: int, maxNum: int, i: nat): int {
    if minNum - i - 1 >= 1 then minNum - i - 1
    else if maxNum + i + 1 <= 13 then maxNum + i + 1
    else 0
  }

  /** The values of the first `n` extra jokers. */
  function ExtraJokerPoints(minNum: int, maxNum: int, n: nat): int {
    if n == 0 then 0 else ExtraJokerPoints(minNum, maxNum, n - 1) + JokerSlotValue(minNum, maxNum, n - 1)
  }

  /** The contribution of one valid set to the initial meld. */
  function SetMeldPoints(tiles: seq<Tile>): int {
    if IsValidGroup(tiles) then FirstRegularNumber(tiles) * |tiles|
    else
      var sorted := SortInts(Numbers(Regular(tiles)));
      if |sorted| == 0 then 0
      else
        var minNum, maxNum := sorted[0], sorted[|sorted| - 1];
        var extraJokers := JokerCount(tiles) - (maxNum - minNum + 1 - |sorted|);
        RangeSum(minNum, maxNum) + ExtraJokerPoints(minNum, maxNum, if extraJokers > 0 then extraJokers else 0)
  }

  predicate AllValid(sets: seq<seq<Tile>>) {
    forall i :: 0 <= i < |sets| ==> IsValidSet(sets[i]).valid
  }

  /** The loop's running total over `sets`, or None once it has met an invalid set. */
  function MeldTotal(sets: seq<seq<Tile>>): Option<int> {
    if sets == [] then Some(0)
    else match MeldTotal(sets[..|sets| - 1])
      case None => None
      case Some(total) =>
        var last := sets[|sets| - 1];
        if IsValidSet(last).valid then Some(total + SetMeldPoints(last)) else None
  }

  /** calculateInitialMeldPoints: the total, or 0 as soon as one set is invalid. */
  function InitialMeldPoints(sets: seq<seq<Tile>>): int {
    match MeldTotal(sets)
    case None => 0
    case Some(total) => total
  }

  /** The running total fails exactly when some set is invalid. */
  lemma {:induction false} MeldTotalFails(sets: seq<seq<Tile>>)
    ensures MeldTotal(sets).None? <==> !AllValid(sets)
  {
    if sets != [] {
      var init := sets[..|sets| - 1];
      MeldTotalFails(init);
      assert forall i :: 0 <= i < |init| ==> init[i] == sets[i];
      if !AllValid(sets) && AllValid(init) {
        assert !IsValidSet(sets[|sets| - 1]).valid;
      }
    }
  }

  method CalculateInitialMeldPoints(sets: seq<seq<Tile>>) returns (totalPoints: int)
    ensures totalPoints == InitialMeldPoints(sets)
  {
    totalPoints := 0;
    var k := 0;
    while k < |sets|
      invariant 0 <= k <= |sets|
      invariant MeldTotal(sets[..k]) == Some(totalPoints)
    {
      var tiles := sets[k];
      var result := IsValidSet(tiles);
      assert sets[..k + 1][..k] == sets[..k];
      if !result.valid {
        MeldTotalFails(sets[..k + 1]);
        MeldTotalFails(sets);
        assert sets[..k + 1][k] == sets[k];
        return 0;
      }
      var points := ValidSetMeldPoints(tiles, result);
      totalPoints := totalPoints + points;
      k := k + 1;
    }
    assert sets[..k] == sets;
  }

  /** The body of the meld loop for one valid set: a group's product or a run's range sum. */
  method ValidSetMeldPoints(tiles: seq<Tile>, result: SetCheck) returns (points: int)
    requires result == IsValidSet(tiles) && result.valid
    ensures points == SetMeldPoints(tiles)
  {
    points := 0;
    if result.kind == Some(Group) {
      var number := FirstRegularNumber(tiles);
      points := number * |tiles|;
    } else {
      var regular := SortInts(Numbers(Regular(tiles)));
      SortIntsSpec(Numbers(Regular(tiles)));
      if |regular| > 0 {
        var minNum := regular[0];
        var maxNum := regular[|regular| - 1];
        var n := minNum;
        while n <= maxNum
          invariant minNum <= n <= maxNum + 1
          invariant points == RangeSum(minNum, n - 1)
          decreases maxNum - n
        {
          points := points + n;
          n := n + 1;
        }
        var jokerCount := JokerCount(tiles);
        var gapJokers := maxNum - minNum + 1 - |regular|;
        var extraJokers := jokerCount - gapJokers;
        var i := 0;
        while i < extraJokers
          invariant 0 <= i && (extraJokers >= 0 ==> i <= extraJokers) && (extraJokers < 0 ==> i == 0)
          invariant points == RangeSum(minNum, maxNum) + ExtraJokerPoints(minNum, maxNum, i)
        {
          if minNum - i - 1 >= 1 {
            points := points + (minNum - i - 1);
          } else if maxNum + i + 1 <= 13 {
            points := points + (maxNum + i + 1);
          }
          i := i + 1;
        }
      }
    }
  }

  /** The meld count of a concatenation of valid plays is the sum of their counts. */
  lemma {:induction false} MeldPointsAdditive(a: seq<seq<Tile>>, b: seq<seq<Tile>>)
    requires AllValid(a) && AllValid(b)
    ensures AllValid(a + b)
    ensures InitialMeldPoints(a + b) == InitialMeldPoints(a) + InitialMeldPoints(b)
    decreases |b|
  {
    MeldTotalFails(a);
    MeldTotalFails(b);
    if b == [] {
      assert a + b == a;
    } else {
      var init := b[..|b| - 1];
      assert AllValid(init);
      MeldPointsAdditive(a, init);
      MeldTotalFails(init);
      MeldTotalFails(a + init);
      assert (a + b)[..|a + b| - 1] == a + init;
      assert (a + b)[|a + b| - 1] == b[|b| - 1];
    }
  }

  /** One invalid set zeroes the whole meld count. */
  lemma MeldPointsInvalidSet(sets: seq<seq<Tile>>, i: nat)
    requires i < |sets| && !IsValidSet(sets[i]).valid
    ensures InitialMeldPoints(sets) == 0
  {
    MeldTotalFails(sets);
  }

  /** A play of one valid set scores that set's contribution. */
  lemma MeldPointsSingle(tiles: seq<Tile>)
    requires IsValidSet(tiles).valid
    ensures InitialMeldPoints([tiles]) == SetMeldPoints(tiles)
  {
    var play := [tiles];
    assert play[..0] == [];
    assert MeldTotal(play[..0]) == Some(0);
    assert play[0] == tiles;
  }

  /** A valid group scores its number times its size, jokers taking that number. */
  lemma MeldPointsGroup(tiles: seq<Tile>)
    requires IsValidGroup(tiles)
    ensures InitialMeldPoints([tiles]) == FirstRegularNumber(tiles) * |tiles|
  {
    assert IsValidSet(tiles).valid;
    MeldPointsSingle(tiles);
  }

  lemma {:induction false} SumOfEqual(s: seq<int>, v: int)
    requires forall i :: 0 <= i < |s| ==> s[i] == v
    ensures Sum(s) == v * |s|
  {
    if s != [] {
      SumOfEqual(s[1..], v);
      assert v * |s| == v + v * (|s| - 1);
    }
  }

  /** A valid set without jokers scores exactly its face value in the meld count. */
  lemma MeldPointsJokerFree(tiles: seq<Tile>)
    requires IsValidSet(tiles).valid && JokerCount(tiles) == 0
    ensures InitialMeldPoints([tiles]) == SetPoints(tiles)
  {
    MeldPointsSingle(tiles);
    var regular := Regular(tiles);
    RegularJokerSplit(tiles);
    SetPointsIgnoresJokers(tiles, []);
    var numbers := Numbers(regular);
    if IsValidGroup(tiles) {
      ValidGroupIff(tiles);
      assert forall i :: 0 <= i < |numbers| ==> numbers[i] == regular[0].number by {
        forall i | 0 <= i < |numbers| ensures numbers[i] == regular[0].number {
          NumbersAt(regular, i);
          assert regular[i] in regular && regular[0] in regular;
        }
      }
      SumOfEqual(numbers, regular[0].number);
    } else {
      var sorted := SortInts(numbers);
      assert ValidRun(tiles) && |regular| >= 1;
      GapsTelescope(sorted);
      assert Gaps(sorted).Some?;
      IncreasingFrom(sorted, 0, |sorted| - 1);
      SumSort(numbers);
      forall i | 0 <= i < |sorted| ensures sorted[i] == sorted[0] + i {
        ConsecutiveAt(sorted, i);
      }
      ConsecutiveSum(sorted);
    }
  }

  /** A strictly increasing run whose span equals its length minus one has no holes. */
  lemma {:induction false} ConsecutiveAt(s: seq<int>, i: nat)
    requires i < |s| && Increasing(s) && s[|s| - 1] - s[0] == |s| - 1
    ensures s[i] == s[0] + i
  {
    assert s[i] >= s[0] + i by { IncreasingLower(s, i); }
    assert s[|s| - 1] >= s[i] + (|s| - 1 - i) by { IncreasingFrom(s, i, |s| - 1); }
  }

  lemma {:induction false} IncreasingLower(s: seq<int>, i: nat)
    requires i < |s| && Increasing(s)
    ensures s[i] >= s[0] + i
  {
    if i > 0 {
      IncreasingLower(s, i - 1);
    }
  }

  lemma {:induction false} IncreasingFrom(s: seq<int>, i: nat, j: nat)
    requires i <= j < |s| && Increasing(s)
    ensures s[j] >= s[i] + (j - i)
    decreases j - i
  {
    if i < j {
      IncreasingFrom(s, i, j - 1);
    }
  }

  /**
   * Extra jokers are valued below the run first and then from `maxNum + i + 1`, where `i`
   * still counts the jokers already placed below: R2 R3 R4 with two jokers scores
   * 2+3+4 + 1 + 6 = 16, the slot 5 being skipped.
   */
  lemma MeldPointsExtraJokers()
    ensures var tiles := [Numbered(0, Red, 2), Numbered(1, Red, 3), Numbered(2, Red, 4), Joker(3), Joker(4)];
      ValidRun(tiles) && InitialMeldPoints([tiles]) == 16
  {
    var tiles := [Numbered(0, Red, 2), Numbered(1, Red, 3), Numbered(2, Red, 4), Joker(3), Joker(4)];
    ExtraJokersNumbers(tiles);
    ExtraJokersRun(tiles);
    ExtraJokersPoints(tiles);
    MeldPointsSingle(tiles);
  }

  lemma ExtraJokersNumbers(tiles: seq<Tile>)
    requires tiles == [Numbered(0, Red, 2), Numbered(1, Red, 3), Numbered(2, Red, 4), Joker(3), Joker(4)]
    ensures Regular(tiles) == tiles[..3] && Numbers(Regular(tiles)) == [2, 3, 4]
    ensures JokerCount(tiles) == 2 && !IsValidGroup(tiles)
  {
    assert tiles[4..][1..] == [] && tiles[3..][1..] == tiles[4..];
    assert tiles[2..][1..] == tiles[3..] && tiles[1..][1..] == tiles[2..];
    assert Regular(tiles[4..]) == [] && JokerCount(tiles[4..]) == 1;
    assert Regular(tiles[3..]) == [] && JokerCount(tiles[3..]) == 2;
    assert Regular(tiles[2..]) == [tiles[2]] && JokerCount(tiles[2..]) == 2;
    assert Regular(tiles[1..]) == tiles[1..3] && JokerCount(tiles[1..]) == 2;
    assert Regular(tiles) == tiles[..3];
    NumbersAt(tiles[..3], 0);
    NumbersAt(tiles[..3], 1);
    NumbersAt(tiles[..3], 2);
  }

  lemma ExtraJokersRun(tiles: seq<Tile>)
    requires |tiles| == 5 && Regular(tiles) == tiles[..3] && Numbers(Regular(tiles)) == [2, 3, 4]
    requires tiles[0].color == Red && tiles[1].color == Red && tiles[2].color == Red
    requires JokerCount(tiles) == 2
    ensures ValidRun(tiles) && SortInts(Numbers(Regular(tiles))) == [2, 3, 4]
  {
    var numbers: seq<int> := [2, 3, 4];
    assert SortInts(numbers) == numbers;
    assert numbers[..2] == [2, 3] && numbers[..2][..1] == [2];
    assert Gaps(numbers) == Some(0);
  }

  lemma ExtraJokersPoints(tiles: seq<Tile>)
    requires SortInts(Numbers(Regular(tiles))) == [2, 3, 4] && JokerCount(tiles) == 2 && !IsValidGroup(tiles)
    ensures SetMeldPoints(tiles) == 16
  {
  }

  /** `{valid, points, required}` of validateInitialMeld. */
  datatype MeldCheck = MeldCheck(valid: bool, points: int, required: int)

  /** validateInitialMeld */
  function ValidateInitialMeld(sets: seq<seq<Tile>>, rules: Rules): (r: MeldCheck)
    ensures r.points == InitialMeldPoints(sets) && r.required == rules.initialMeldPoints
    ensures r.valid <==> r.points >= r.required
  {
    var points := InitialMeldPoints(sets);
    MeldCheck(points >= rules.initialMeldPoints, points, rules.initialMeldPoints)
  }

  /** An entry `{index, tiles}` of `invalidSets`. */
  datatype InvalidSet = InvalidSet(index: nat, tiles: seq<Tile>)

  /** The `invalidSets` list validateTableState builds, over the first `n` sets. */
  function InvalidSets(tableSets: seq<seq<Tile>>): seq<InvalidSet> {
    if tableSets == [] then []
    else
      var n := |tableSets| - 1;
      InvalidSets(tableSets[..n])
      + (if IsValidSet(tableSets[n]).valid then [] else [InvalidSet(n, tableSets[n])])
  }

  /** `{valid, invalidSets}` of validateTableState. */
  datatype TableCheck = TableCheck(valid: bool, invalidSets: seq<InvalidSet>)

  /** validateTableState */
  method ValidateTableState(tableSets: seq<seq<Tile>>) returns (result: TableCheck)
    ensures result.invalidSets == InvalidSets(tableSets)
    ensures result.valid <==> result.invalidSets == []
  {
    var invalidSets: seq<InvalidSet> := [];
    var i := 0;
    while i < |tableSets|
      invariant 0 <= i <= |tableSets|
      invariant invalidSets == InvalidSets(tableSets[..i])
    {
      var check := IsValidSet(tableSets[i]);
      assert tableSets[..i + 1][..i] == tableSets[..i];
      if !check.valid {
        invalidSets := invalidSets + [InvalidSet(i, tableSets[i])];
      }
      i := i + 1;
    }
    assert tableSets[..i] == tableSets;
    result := TableCheck(|invalidSets| == 0, invalidSets);
  }

  /**
   * Every entry of `invalidSets` names a set that fails isValidSet, with that set's tiles,
   * and the indices ascend.
   */
  lemma {:induction false} InvalidSetsSound(tableSets: seq<seq<Tile>>)
    ensures forall e <- InvalidSets(tableSets) ::
      e.index < |tableSets| && e.tiles == tableSets[e.index] && !IsValidSet(e.tiles).valid
    ensures forall j, j' :: 0 <= j < j' < |InvalidSets(tableSets)| ==>
      InvalidSets(tableSets)[j].index < InvalidSets(tableSets)[j'].index
  {
    if tableSets != [] {
      var n := |tableSets| - 1;
      var init := tableSets[..n];
      InvalidSetsSound(init);
      var r0 := InvalidSets(init);
      var r := InvalidSets(tableSets);
      var tail := if IsValidSet(tableSets[n]).valid then [] else [InvalidSet(n, tableSets[n])];
      assert r == r0 + tail;
      forall e <- r
        ensures e.index < |tableSets| && e.tiles == tableSets[e.index] && !IsValidSet(e.tiles).valid
      {
        if e in r0 {
          assert init[e.index] == tableSets[e.index];
        }
      }
      forall j, j' | 0 <= j < j' < |r| ensures r[j].index < r[j'].index {
        if j' < |r0| {
          assert r[j] == r0[j] && r[j'] == r0[j'];
        } else {
          assert r[j] == r0[j] && r[j] in r0;
        }
      }
    }
  }

  /** Every set that fails isValidSet has an entry in `invalidSets`. */
  lemma {:induction false} InvalidSetsComplete(tableSets: seq<seq<Tile>>, k: nat)
    requires k < |tableSets| && !IsValidSet(tableSets[k]).valid
    ensures exists j :: 0 <= j < |InvalidSets(tableSets)| && InvalidSets(tableSets)[j].index == k
  {
    var n := |tableSets| - 1;
    var init := tableSets[..n];
    var r := InvalidSets(tableSets);
    if k < n {
      assert init[k] == tableSets[k];
      InvalidSetsComplete(init, k);
      var r0 := InvalidSets(init);
      var j :| 0 <= j < |r0| && r0[j].index == k;
      assert r[j] == r0[j];
    } else {
      assert r[|r| - 1].index == k;
    }
  }

  /** validateTableState's `valid`: the table is valid iff every set is. */
  lemma TableValidIff(tableSets: seq<seq<Tile>>)
    ensures InvalidSets(tableSets) == [] <==> AllValid(tableSets)
  {
    InvalidSetsSound(tableSets);
    if !AllValid(tableSets) {
      var k :| 0 <= k < |tableSets| && !IsValidSet(tableSets[k]).valid;
      InvalidSetsComplete(tableSets, k);
    }
  }
}
