/**
 * What the bot strategies (the files under server/bot/strategies) share: searching and thinning a hand,
 * the stable sort by number, the first-occurrence orders that stand in for the key order of
 * JavaScript objects, the slicing of a colour's tiles into runs, and the enumeration of
 * non-overlapping combinations of candidate sets.
 */
module BotSets {
  import opened Tiles
  import opened Optional
  import opened Ordering
  import opened Rules

  // ---------------------------------------------------------------------------
  // Searching and thinning a hand
  // ---------------------------------------------------------------------------

  /** `tiles.findIndex(p)` when some tile satisfies `p`; `tiles.find(p)` is the tile there. */
  function FindFirst(tiles: seq<Tile>, p: Tile -> bool): (r: Option<nat>)
    ensures r.Some? ==> r.value < |tiles| && p(tiles[r.value])
    ensures r.Some? ==> forall j :: 0 <= j < r.value ==> !p(tiles[j])
    ensures r.None? ==> forall t <- tiles :: !p(t)
  {
    if tiles == [] then None
    else if p(tiles[0]) then Some(0)
    else match FindFirst(tiles[1..], p)
      case None => None
      case Some(k) => Some(k + 1)
  }

  /** `tiles.filter(t => t.id !== id)` */
  function RemoveId(tiles: seq<Tile>, id: int): (r: seq<Tile>)
    ensures |r| <= |tiles|
    ensures forall t <- r :: t in tiles && t.id != id
    ensures forall t <- tiles :: t.id != id ==> t in r
    ensures id in IdSet(tiles) ==> |r| < |tiles|
  {
    if tiles == [] then []
    else (if tiles[0].id == id then [] else [tiles[0]]) + RemoveId(tiles[1..], id)
  }

  /** The tile ids of a hand or a table, counted with multiplicity. */
  function IdBag(tiles: seq<Tile>): multiset<int> {
    multiset(IdsOf(tiles))
  }

  lemma IdBagConcat(a: seq<Tile>, b: seq<Tile>)
    ensures IdBag(a + b) == IdBag(a) + IdBag(b)
  {
    IdsOfConcat(a, b);
  }

  /** Splicing out the tile at `k` takes exactly one copy of its id out of the bag. */
  lemma SpliceBag(tiles: seq<Tile>, k: nat)
    requires k < |tiles|
    ensures IdBag(Splice(tiles, k)) == IdBag(tiles) - multiset{tiles[k].id}
  {
    assert tiles == tiles[..k] + [tiles[k]] + tiles[k + 1..];
    IdBagConcat(tiles[..k] + [tiles[k]], tiles[k + 1..]);
    IdBagConcat(tiles[..k], [tiles[k]]);
    IdBagConcat(tiles[..k], tiles[k + 1..]);
  }

  /** With the ids of a hand distinct, filtering by a present id is splicing out its tile. */
  lemma {:induction false} RemoveIdIsSplice(tiles: seq<Tile>, k: nat)
    requires k < |tiles| && Distinct(IdsOf(tiles))
    ensures RemoveId(tiles, tiles[k].id) == Splice(tiles, k)
  {
    DistinctIdsTail(tiles);
    if k == 0 {
      RemoveIdHead(tiles);
    } else {
      RemoveIdIsSplice(tiles[1..], k - 1);
      RemoveIdLater(tiles, k);
    }
  }

  lemma RemoveIdHead(tiles: seq<Tile>)
    requires tiles != [] && forall t <- tiles[1..] :: t.id != tiles[0].id
    ensures RemoveId(tiles, tiles[0].id) == Splice(tiles, 0)
  {
    RemoveIdKeeps(tiles[1..], tiles[0].id);
    assert Splice(tiles, 0) == tiles[1..];
  }

  lemma RemoveIdLater(tiles: seq<Tile>, k: nat)
    requires 0 < k < |tiles| && forall t <- tiles[1..] :: t.id != tiles[0].id
    requires RemoveId(tiles[1..], tiles[k].id) == Splice(tiles[1..], k - 1)
    ensures RemoveId(tiles, tiles[k].id) == Splice(tiles, k)
  {
    assert tiles[1..][k - 1] == tiles[k];
    assert tiles[k] in tiles[1..];
    assert RemoveId(tiles, tiles[k].id) == [tiles[0]] + RemoveId(tiles[1..], tiles[k].id);
    SpliceCons(tiles, k);
  }

  lemma DistinctIdsTail(tiles: seq<Tile>)
    requires tiles != [] && Distinct(IdsOf(tiles))
    ensures Distinct(IdsOf(tiles[1..]))
    ensures forall t <- tiles[1..] :: t.id != tiles[0].id
  {
    var ids := IdsOf(tiles);
    assert ids == [tiles[0].id] + IdsOf(tiles[1..]);
    forall i, j | 0 <= i < j < |IdsOf(tiles[1..])| ensures IdsOf(tiles[1..])[i] != IdsOf(tiles[1..])[j] {
      assert ids[i + 1] != ids[j + 1];
    }
    forall t <- tiles[1..] ensures t.id != tiles[0].id {
      var j :| 0 <= j < |tiles[1..]| && tiles[1..][j] == t;
      IdsOfAt(tiles[1..], j);
      assert ids[0] != ids[j + 1];
    }
  }

  lemma {:induction false} IdsOfAt(tiles: seq<Tile>, i: nat)
    requires i < |tiles|
    ensures IdsOf(tiles)[i] == tiles[i].id
  {
    if i > 0 {
      IdsOfAt(tiles[1..], i - 1);
    }
  }

  /** Filtering by an id no tile carries changes nothing. */
  lemma {:induction false} RemoveIdKeeps(tiles: seq<Tile>, id: int)
    requires forall t <- tiles :: t.id != id
    ensures RemoveId(tiles, id) == tiles
  {
    if tiles != [] {
      RemoveIdKeeps(tiles[1..], id);
      assert [tiles[0]] + tiles[1..] == tiles;
    }
  }

  // ---------------------------------------------------------------------------
  // The stable sort by number
  // ---------------------------------------------------------------------------

  predicate AscendingNumbers(s: seq<Tile>) {
    forall i, j :: 0 <= i < j < |s| ==> NumberOf(s[i]) <= NumberOf(s[j])
  }

  /** Places `t` before the first tile whose number is not smaller, so ties keep `t` first. */
  function InsertByNumber(t: Tile, s: seq<Tile>): (r: seq<Tile>)
    ensures multiset(r) == multiset(s) + multiset{t}
    ensures |r| == |s| + 1
  {
    if s == [] || NumberOf(t) <= NumberOf(s[0]) then [t] + s
    else
      assert s == [s[0]] + s[1..];
      [s[0]] + InsertByNumber(t, s[1..])
  }

  /** `[...tiles].sort((a, b) => a.number - b.number)`; the sort is stable. */
  function SortByNumber(tiles: seq<Tile>): (r: seq<Tile>)
    ensures multiset(r) == multiset(tiles)
    ensures |r| == |tiles|
  {
    if tiles == [] then []
    else
      assert tiles == [tiles[0]] + tiles[1..];
      InsertByNumber(tiles[0], SortByNumber(tiles[1..]))
  }

  lemma {:induction false} InsertByNumberAscending(t: Tile, s: seq<Tile>)
    requires AscendingNumbers(s)
    ensures AscendingNumbers(InsertByNumber(t, s))
  {
    if s != [] && NumberOf(t) > NumberOf(s[0]) {
      InsertByNumberAscending(t, s[1..]);
      var rest := InsertByNumber(t, s[1..]);
      assert forall x <- rest :: NumberOf(s[0]) <= NumberOf(x) by {
        forall x <- rest ensures NumberOf(s[0]) <= NumberOf(x) {
          InsertByNumberMember(t, s[1..], x);
          if x != t {
            var j :| 0 <= j < |s[1..]| && s[1..][j] == x;
            assert s[j + 1] == x;
          }
        }
      }
      AscendingCons(s[0], rest);
    }
  }

  lemma InsertByNumberMember(t: Tile, s: seq<Tile>, x: Tile)
    requires x in InsertByNumber(t, s)
    ensures x == t || x in s
  {
    assert x in multiset(InsertByNumber(t, s));
  }

  lemma AscendingCons(x: Tile, rest: seq<Tile>)
    requires AscendingNumbers(rest) && forall y <- rest :: NumberOf(x) <= NumberOf(y)
    ensures AscendingNumbers([x] + rest)
  {
    var r := [x] + rest;
    forall i, j | 0 <= i < j < |r| ensures NumberOf(r[i]) <= NumberOf(r[j]) {
      if i == 0 {
        assert r[j] == rest[j - 1] && r[j] in rest;
      } else {
        assert r[i] == rest[i - 1] && r[j] == rest[j - 1];
      }
    }
  }

  /** The sort orders the tiles by number. */
  lemma {:induction false} SortByNumberAscending(tiles: seq<Tile>)
    ensures AscendingNumbers(SortByNumber(tiles))
  {
    if tiles != [] {
      SortByNumberAscending(tiles[1..]);
      InsertByNumberAscending(tiles[0], SortByNumber(tiles[1..]));
    }
  }

  // ---------------------------------------------------------------------------
  // Object keys and first occurrences
  // ---------------------------------------------------------------------------

  /** The elements of `xs` in order of first occurrence: the key order of an object filled from `xs`. */
  function FirstOccurrences<T(==)>(xs: seq<T>): (r: seq<T>)
    ensures Distinct(r)
    ensures forall x <- r :: x in xs
    ensures forall x <- xs :: x in r
    decreases |xs|
  {
    if xs == [] then []
    else
      var rest := FirstOccurrences(Without(xs[1..], xs[0]));
      assert xs[0] !in rest;
      assert xs == [xs[0]] + xs[1..];
      [xs[0]] + rest
  }

  /** The values of `r` come from `xs`, in the order in which they first occur there. */
  predicate InFirstSeenOrder<T(==)>(xs: seq<T>, r: seq<T>) {
    && (forall x <- r :: x in xs)
    && forall i, j :: 0 <= i < j < |r| ==> FirstPos(xs, r[i]) < FirstPos(xs, r[j])
  }

  /** The keys come out in the order in which they first occur in `xs`, as `Object.keys` lists them. */
  lemma {:induction false} FirstOccurrencesOrder<T>(xs: seq<T>)
    ensures InFirstSeenOrder(xs, FirstOccurrences(xs))
    decreases |xs|
  {
    if xs != [] {
      var w := Without(xs[1..], xs[0]);
      FirstOccurrencesOrder(w);
      FirstOccurrencesStep(xs, w, FirstOccurrences(w));
    }
  }

  lemma FirstOccurrencesStep<T>(xs: seq<T>, w: seq<T>, rest: seq<T>)
    requires xs != [] && w == Without(xs[1..], xs[0])
    requires InFirstSeenOrder(w, rest) && xs[0] !in rest
    ensures InFirstSeenOrder(xs, [xs[0]] + rest)
  {
    var r := [xs[0]] + rest;
    forall x <- r ensures x in xs {
      if x != xs[0] {
        assert x in w;
      }
    }
    forall i, j | 0 <= i < j < |r| ensures FirstPos(xs, r[i]) < FirstPos(xs, r[j]) {
      assert r[j] == rest[j - 1] && r[j] in w;
      if i > 0 {
        assert r[i] == rest[i - 1] && r[i] in w;
        WithoutOrder(xs[1..], xs[0], r[i], r[j]);
      }
    }
  }

  /**
   * An integer that JavaScript treats as an array index: such object keys are visited first,
   * in ascending order, before every other key.
   */
  predicate IsArrayIndex(n: int) {
    0 <= n < 0xFFFF_FFFF
  }

  function IndexKeys(xs: seq<int>): (r: seq<int>)
    ensures forall x <- r :: x in xs && IsArrayIndex(x)
    ensures forall x <- xs :: IsArrayIndex(x) ==> x in r
  {
    if xs == [] then []
    else (if IsArrayIndex(xs[0]) then [xs[0]] else []) + IndexKeys(xs[1..])
  }

  function OtherKeys(xs: seq<int>): (r: seq<int>)
    ensures forall x <- r :: x in xs && !IsArrayIndex(x)
    ensures forall x <- xs :: !IsArrayIndex(x) ==> x in r
  {
    if xs == [] then []
    else (if IsArrayIndex(xs[0]) then [] else [xs[0]]) + OtherKeys(xs[1..])
  }

  /**
   * `for (const number in byNumber)` over an object keyed by the numbers of `tiles`' non-jokers:
   * array-index numbers ascending, then the others in order of first occurrence.
   */
  function NumberKeys(tiles: seq<Tile>): seq<int> {
    var firsts := FirstOccurrences(Numbers(Regular(tiles)));
    SortInts(IndexKeys(firsts)) + OtherKeys(firsts)
  }

  /**
   * The keys are exactly the numbers of the non-jokers, each once: first the array-index
   * numbers in ascending order, then the rest.
   */
  lemma NumberKeysSpec(tiles: seq<Tile>)
    ensures var r := NumberKeys(tiles);
      && (forall k <- r :: exists t <- tiles :: t.Numbered? && t.number == k)
      && (forall t <- tiles :: t.Numbered? ==> t.number in r)
      && exists i :: 0 <= i <= |r| && Sorted(r[..i])
           && (forall x <- r[..i] :: IsArrayIndex(x)) && forall x <- r[i..] :: !IsArrayIndex(x)
  {
    var ns := Numbers(Regular(tiles));
    var firsts := FirstOccurrences(ns);
    var ix := IndexKeys(firsts);
    SortIntsSpec(ix);
    forall x <- SortInts(ix) ensures IsArrayIndex(x) && x in firsts {
      assert x in multiset(ix);
    }
    forall x <- firsts | IsArrayIndex(x) ensures x in SortInts(ix) {
      assert x in multiset(SortInts(ix));
    }
    SplitKeys(firsts, SortInts(ix), OtherKeys(firsts));
    RegularNumbers(tiles);
    assert forall k :: k in firsts <==> k in ns;
  }

  /** An ascending list of the array-index keys followed by the other keys lists every key. */
  lemma SplitKeys(xs: seq<int>, s: seq<int>, o: seq<int>)
    requires Sorted(s)
    requires forall x <- s :: IsArrayIndex(x) && x in xs
    requires forall x <- xs :: IsArrayIndex(x) ==> x in s
    requires forall x <- o :: !IsArrayIndex(x) && x in xs
    requires forall x <- xs :: !IsArrayIndex(x) ==> x in o
    ensures forall x <- s + o :: x in xs
    ensures forall x <- xs :: x in s + o
    ensures var r := s + o;
      exists i :: 0 <= i <= |r| && Sorted(r[..i])
        && (forall x <- r[..i] :: IsArrayIndex(x)) && forall x <- r[i..] :: !IsArrayIndex(x)
  {
    var r := s + o;
    assert r[..|s|] == s && r[|s|..] == o;
  }

  /** The numbers of the non-jokers are the numbers of the tiles that are not jokers. */
  lemma {:induction false} RegularNumbers(tiles: seq<Tile>)
    ensures forall k :: k in Numbers(Regular(tiles)) <==> exists t <- tiles :: t.Numbered? && t.number == k
  {
    if tiles != [] {
      RegularNumbers(tiles[1..]);
      assert forall t <- tiles[1..] :: t in tiles;
      assert tiles == [tiles[0]] + tiles[1..];
      if tiles[0].Numbered? {
        assert Regular(tiles) == [tiles[0]] + Regular(tiles[1..]);
        assert Numbers(Regular(tiles)) == [tiles[0].number] + Numbers(Regular(tiles[1..]));
      } else {
        assert tiles[0].Joker? && Regular(tiles) == Regular(tiles[1..]);
        assert Numbers(Regular(tiles)) == Numbers(Regular(tiles[1..]));
      }
    }
  }

  /** `byNumber[n]`: the non-jokers numbered `n`, in hand order. */
  function OfNumber(tiles: seq<Tile>, n: int): (r: seq<Tile>)
    ensures forall t <- r :: t in tiles && t.Numbered? && t.number == n
    ensures forall t <- tiles :: t.Numbered? && t.number == n ==> t in r
  {
    if tiles == [] then []
    else (if tiles[0].Numbered? && tiles[0].number == n then [tiles[0]] else []) + OfNumber(tiles[1..], n)
  }

  /** `tiles.filter(t => !t.isJoker && t.color === color)` */
  function OfColor(tiles: seq<Tile>, c: Color): (r: seq<Tile>)
    ensures forall t <- r :: t in tiles && t.Numbered? && t.color == c
  {
    if tiles == [] then []
    else (if tiles[0].Numbered? && tiles[0].color == c then [tiles[0]] else []) + OfColor(tiles[1..], c)
  }

  /** The filter keeps every non-joker of the colour. */
  lemma {:induction false} OfColorComplete(tiles: seq<Tile>, c: Color)
    ensures forall t <- tiles :: t.Numbered? && t.color == c ==> t in OfColor(tiles, c)
  {
    if tiles != [] {
      OfColorComplete(tiles[1..], c);
      assert forall t <- tiles :: t == tiles[0] || t in tiles[1..];
    }
  }

  /** `tiles.filter(t => t.isJoker)` */
  function JokersOf(tiles: seq<Tile>): (r: seq<Tile>)
    ensures forall t <- r :: t in tiles && t.Joker?
  {
    if tiles == [] then []
    else (if tiles[0].Joker? then [tiles[0]] else []) + JokersOf(tiles[1..])
  }

  /** `Object.keys(byColor)` for the numbered tiles `ts`: their colours in order of first occurrence. */
  function ColorKeys(ts: seq<Tile>): (r: seq<Color>)
    requires forall t <- ts :: t.Numbered?
    ensures Distinct(r)
    ensures forall c <- r :: exists t <- ts :: t.color == c
    ensures forall t <- ts :: t.color in r
  {
    var r := FirstOccurrences(ColorsOf(ts));
    forall c <- r ensures exists t <- ts :: t.color == c {
      ColorsOfMember(ts, c);
    }
    forall t <- ts ensures t.color in r {
      ColorsOfHas(ts, t);
    }
    r
  }

  lemma {:induction false} ColorsOfHas(ts: seq<Tile>, t: Tile)
    requires forall u <- ts :: u.Numbered?
    requires t in ts
    ensures t.color in ColorsOf(ts)
  {
    if ts[0] != t {
      assert t in ts[1..];
      ColorsOfHas(ts[1..], t);
    }
  }

  lemma {:induction false} ColorsOfMember(ts: seq<Tile>, c: Color)
    requires forall t <- ts :: t.Numbered?
    requires c in ColorsOf(ts)
    ensures exists t <- ts :: t.color == c
  {
    if ts[0].color != c {
      assert c in ColorsOf(ts[1..]);
      ColorsOfMember(ts[1..], c);
    }
  }

  /** `byColor[c][0]`: the first of `ts` with colour `c`. */
  function FirstOfColor(ts: seq<Tile>, c: Color): (t: Tile)
    requires exists u <- ts :: u.Numbered? && u.color == c
    ensures t in ts && t.Numbered? && t.color == c
  {
    if ts[0].Numbered? && ts[0].color == c then ts[0]
    else
      assert exists u <- ts[1..] :: u.Numbered? && u.color == c;
      FirstOfColor(ts[1..], c)
  }

  // ---------------------------------------------------------------------------
  // Runs cut from one colour's tiles
  // ---------------------------------------------------------------------------

  /**
   * The `seenNumbers` loop: of the tiles, in order, the first of each number not in `seen`.
   * On the sorted tiles of one colour it leaves one tile per number.
   */
  function UniqueByNumber(tiles: seq<Tile>, seen: set<int>): (r: seq<Tile>)
    ensures forall t <- r :: t in tiles && NumberOf(t) !in seen
    ensures forall i, j :: 0 <= i < j < |r| ==> NumberOf(r[i]) != NumberOf(r[j])
  {
    if tiles == [] then []
    else if NumberOf(tiles[0]) in seen then UniqueByNumber(tiles[1..], seen)
    else
      var rest := UniqueByNumber(tiles[1..], seen + {NumberOf(tiles[0])});
      assert forall k :: 0 <= k < |rest| ==> NumberOf(rest[k]) != NumberOf(tiles[0]);
      [tiles[0]] + rest
  }

  /** The numbers the tiles carry. */
  function NumbersOf(tiles: seq<Tile>): set<int> {
    set t <- tiles :: NumberOf(t)
  }

  lemma NumbersOfCons(tiles: seq<Tile>)
    requires tiles != []
    ensures NumbersOf(tiles) == {NumberOf(tiles[0])} + NumbersOf(tiles[1..])
  {
    assert tiles == [tiles[0]] + tiles[1..];
  }

  /** Every number of the tiles that was not seen before is kept, and no other. */
  lemma {:induction false} UniqueByNumberComplete(tiles: seq<Tile>, seen: set<int>)
    ensures NumbersOf(UniqueByNumber(tiles, seen)) == NumbersOf(tiles) - seen
  {
    if tiles != [] {
      var n := NumberOf(tiles[0]);
      NumbersOfCons(tiles);
      if n in seen {
        UniqueByNumberComplete(tiles[1..], seen);
      } else {
        UniqueByNumberComplete(tiles[1..], seen + {n});
        NumbersOfCons(UniqueByNumber(tiles, seen));
      }
    }
  }

  /** `t` is a tile of `tiles` and none before it has its number. */
  predicate FirstOfNumber(tiles: seq<Tile>, t: Tile) {
    exists p :: 0 <= p < |tiles| && tiles[p] == t && forall q :: 0 <= q < p ==> NumberOf(tiles[q]) != NumberOf(t)
  }

  lemma FirstOfNumberTail(tiles: seq<Tile>, t: Tile)
    requires tiles != [] && FirstOfNumber(tiles[1..], t) && NumberOf(tiles[0]) != NumberOf(t)
    ensures FirstOfNumber(tiles, t)
  {
    var p :| 0 <= p < |tiles[1..]| && tiles[1..][p] == t
      && forall q :: 0 <= q < p ==> NumberOf(tiles[1..][q]) != NumberOf(t);
    forall q | 0 <= q < p + 1 ensures NumberOf(tiles[q]) != NumberOf(t) {
      if q > 0 {
        assert tiles[q] == tiles[1..][q - 1];
      }
    }
  }

  /** Each tile kept is the first of the tiles with its number. */
  lemma {:induction false} UniqueByNumberFirst(tiles: seq<Tile>, seen: set<int>)
    ensures forall t <- UniqueByNumber(tiles, seen) :: FirstOfNumber(tiles, t)
  {
    if tiles != [] {
      var n := NumberOf(tiles[0]);
      var seen' := if n in seen then seen else seen + {n};
      var rest := UniqueByNumber(tiles[1..], seen');
      UniqueByNumberFirst(tiles[1..], seen');
      var r := UniqueByNumber(tiles, seen);
      assert r == (if n in seen then [] else [tiles[0]]) + rest;
      forall t <- r ensures FirstOfNumber(tiles, t) {
        if t in rest {
          FirstOfNumberTail(tiles, t);
        } else {
          assert tiles[0] == t;
        }
      }
    }
  }

  /** The numbers strictly ascend from tile to tile. */
  predicate IncreasingNumbers(s: seq<Tile>) {
    forall i, j :: 0 <= i < j < |s| ==> NumberOf(s[i]) < NumberOf(s[j])
  }

  lemma IncreasingCons(t: Tile, rest: seq<Tile>)
    requires IncreasingNumbers(rest) && forall u <- rest :: NumberOf(t) < NumberOf(u)
    ensures IncreasingNumbers([t] + rest)
  {
    var r := [t] + rest;
    forall i, j | 0 <= i < j < |r| ensures NumberOf(r[i]) < NumberOf(r[j]) {
      assert r[j] == rest[j - 1] && r[j] in rest;
      if i > 0 {
        assert r[i] == rest[i - 1];
      }
    }
  }

  /** On tiles sorted by number the kept numbers strictly ascend. */
  lemma {:induction false} UniqueByNumberAscending(tiles: seq<Tile>, seen: set<int>)
    requires AscendingNumbers(tiles)
    ensures IncreasingNumbers(UniqueByNumber(tiles, seen))
  {
    if tiles != [] {
      var n := NumberOf(tiles[0]);
      var seen' := if n in seen then seen else seen + {n};
      assert AscendingNumbers(tiles[1..]) by {
        forall i, j | 0 <= i < j < |tiles[1..]| ensures NumberOf(tiles[1..][i]) <= NumberOf(tiles[1..][j]) {
          assert tiles[1..][i] == tiles[i + 1] && tiles[1..][j] == tiles[j + 1];
        }
      }
      UniqueByNumberAscending(tiles[1..], seen');
      var rest := UniqueByNumber(tiles[1..], seen');
      if n !in seen {
        forall u <- rest ensures n < NumberOf(u) {
          var p :| 0 <= p < |tiles[1..]| && tiles[1..][p] == u;
          assert tiles[p + 1] == u;
        }
        IncreasingCons(tiles[0], rest);
      }
    }
  }


  /** Each tile's number is one more than the one before it. */
  predicate Consecutive(run: seq<Tile>) {
    forall i :: 1 <= i < |run| ==> NumberOf(run[i]) == NumberOf(run[i - 1]) + 1
  }

  /** `[t]` when isValidSet accepts `t`, else nothing: the guarded `push`. */
  function IfValid(s: seq<Tile>): (r: seq<seq<Tile>>)
    ensures forall x <- r :: x == s && IsValidSet(x).valid
  {
    if IsValidSet(s).valid then [s] else []
  }

  /** The `end` loop: the slices `u[start..end]`, end from `end0`, that are consecutive and valid. */
  function SlicesFrom(u: seq<Tile>, start: nat, end0: nat): (r: seq<seq<Tile>>)
    requires start <= end0
    decreases |u| - end0
  {
    if end0 >= |u| then []
    else
      var run := u[start..end0 + 1];
      (if Consecutive(run) then IfValid(run) else []) + SlicesFrom(u, start, end0 + 1)
  }

  /** The `start` loop: `start < u.length - 2`, each with ends from `start + 2`. */
  function SliceRuns(u: seq<Tile>, start: nat): (r: seq<seq<Tile>>)
    decreases |u| - start
  {
    if start + 2 >= |u| then [] else SlicesFrom(u, start, start + 2) + SliceRuns(u, start + 1)
  }

  /** A slice candidate: at least 3 tiles, consecutive, valid, and a contiguous piece of `u`. */
  predicate SliceOf(run: seq<Tile>, u: seq<Tile>) {
    |run| >= 3 && Consecutive(run) && IsValidSet(run).valid
    && exists a, b :: 0 <= a <= b <= |u| && run == u[a..b]
  }

  lemma {:induction false} SlicesFromShape(u: seq<Tile>, start: nat, end0: nat)
    requires start + 2 <= end0
    ensures forall run <- SlicesFrom(u, start, end0) :: SliceOf(run, u)
    decreases |u| - end0
  {
    if end0 < |u| {
      SlicesFromShape(u, start, end0 + 1);
      var run := u[start..end0 + 1];
      var here := if Consecutive(run) then IfValid(run) else [];
      assert SlicesFrom(u, start, end0) == here + SlicesFrom(u, start, end0 + 1);
      forall x <- here ensures SliceOf(x, u) {
        assert x == u[start..end0 + 1];
      }
    }
  }

  /** Every run cut by the two loops is a consecutive, valid slice of at least 3 tiles. */
  lemma {:induction false} SliceRunsShape(u: seq<Tile>, start: nat)
    ensures forall run <- SliceRuns(u, start) :: SliceOf(run, u)
    decreases |u| - start
  {
    if start + 2 < |u| {
      SlicesFromShape(u, start, start + 2);
      SliceRunsShape(u, start + 1);
    }
  }

  // ---------------------------------------------------------------------------
  // Non-overlapping combinations (generateCombinations)
  // ---------------------------------------------------------------------------

  /** `set.some(tile => usedTileIds.has(tile.id))` */
  predicate Overlaps(s: seq<Tile>, used: set<int>) {
    !(IdSet(s) !! used)
  }

  /** No tile id is shared by two different members of `c`. */
  predicate PairwiseDisjoint(c: seq<seq<Tile>>) {
    forall i, j :: 0 <= i < j < |c| ==> IdSet(c[i]) !! IdSet(c[j])
  }

  predicate AvoidsIds(c: seq<seq<Tile>>, used: set<int>) {
    forall s <- c :: IdSet(s) !! used
  }

  /** `a` lists some of the members of `b`, in `b`'s order. */
  predicate Subsequence<T(==)>(a: seq<T>, b: seq<T>)
    decreases |b|
  {
    a == [] || (b != [] && ((a[0] == b[0] && Subsequence(a[1..], b[1..])) || Subsequence(a, b[1..])))
  }

  lemma {:induction false} SubsequenceMembers<T>(a: seq<T>, b: seq<T>)
    requires Subsequence(a, b)
    ensures forall x <- a :: x in b
    decreases |b|
  {
    if a != [] {
      if a[0] == b[0] && Subsequence(a[1..], b[1..]) {
        SubsequenceMembers(a[1..], b[1..]);
        forall x <- a ensures x in b {
          if x != a[0] {
            assert x in a[1..];
          }
        }
      } else {
        SubsequenceMembers(a, b[1..]);
      }
    }
  }

  /** Picking some members of a list without repeats, in order, picks none twice. */
  lemma {:induction false} SubsequenceDistinct<T>(a: seq<T>, b: seq<T>)
    requires Subsequence(a, b) && Distinct(b)
    ensures Distinct(a)
    decreases |b|
  {
    if a != [] {
      assert Distinct(b[1..]) by {
        forall i, j | 0 <= i < j < |b[1..]| ensures b[1..][i] != b[1..][j] {
          assert b[1..][i] == b[i + 1] && b[1..][j] == b[j + 1];
        }
      }
      if a[0] == b[0] && Subsequence(a[1..], b[1..]) {
        SubsequenceDistinct(a[1..], b[1..]);
        SubsequenceMembers(a[1..], b[1..]);
        assert b[0] !in b[1..] by {
          forall k | 0 <= k < |b[1..]| ensures b[1..][k] != b[0] {
            assert b[1..][k] == b[k + 1];
          }
        }
        forall i, j | 0 <= i < j < |a| ensures a[i] != a[j] {
          assert a[j] == a[1..][j - 1] && a[j] in a[1..];
          if i > 0 {
            assert a[i] == a[1..][i - 1];
          }
        }
      } else {
        SubsequenceDistinct(a, b[1..]);
      }
    }
  }

  /**
   * generateCombinations(sets, current, results, used): `current` itself when non-empty, then,
   * for each set in turn that shares no id with `used`, every combination extending
   * `current` with that set and drawing the rest from the sets after it.
   */
  function Combinations(sets: seq<seq<Tile>>, current: seq<seq<Tile>>, used: set<int>): seq<seq<seq<Tile>>>
    decreases |sets|, 1
  {
    (if current != [] then [current] else []) + Extensions(sets, current, used)
  }

  /** The loop of generateCombinations over the sets from `rest[0]` on. */
  function Extensions(rest: seq<seq<Tile>>, current: seq<seq<Tile>>, used: set<int>): seq<seq<seq<Tile>>>
    decreases |rest|, 0
  {
    if rest == [] then []
    else
      (if Overlaps(rest[0], used) then []
       else Combinations(rest[1..], current + [rest[0]], used + IdSet(rest[0])))
      + Extensions(rest[1..], current, used)
  }

  /** generateCombinations(allSets, [], combinations), starting with no id used. */
  function GenerateCombinations(sets: seq<seq<Tile>>): seq<seq<seq<Tile>>> {
    Combinations(sets, [], {})
  }

  lemma {:induction false} CombinationsSound(sets: seq<seq<Tile>>, current: seq<seq<Tile>>, used: set<int>)
    ensures forall r <- Combinations(sets, current, used) ::
      && |r| >= 1 && |r| >= |current| && r[..|current|] == current
      && Subsequence(r[|current|..], sets) && PairwiseDisjoint(r[|current|..]) && AvoidsIds(r[|current|..], used)
    decreases |sets|, 1
  {
    ExtensionsSound(sets, current, used);
    if current != [] {
      assert current[..|current|] == current && current[|current|..] == [];
    }
  }

  lemma {:induction false} ExtensionsSound(rest: seq<seq<Tile>>, current: seq<seq<Tile>>, used: set<int>)
    ensures forall r <- Extensions(rest, current, used) ::
      && |r| > |current| && r[..|current|] == current
      && Subsequence(r[|current|..], rest) && PairwiseDisjoint(r[|current|..]) && AvoidsIds(r[|current|..], used)
    decreases |rest|, 0
  {
    if rest != [] {
      ExtensionsSound(rest[1..], current, used);
      if !Overlaps(rest[0], used) {
        var cur := current + [rest[0]];
        var used' := used + IdSet(rest[0]);
        CombinationsSound(rest[1..], cur, used');
        forall r <- Combinations(rest[1..], cur, used')
          ensures && |r| > |current| && r[..|current|] == current
                  && Subsequence(r[|current|..], rest) && PairwiseDisjoint(r[|current|..])
                  && AvoidsIds(r[|current|..], used)
        {
          ChosenFirstSound(rest, current, used, r);
        }
      }
      forall r <- Extensions(rest[1..], current, used) ensures Subsequence(r[|current|..], rest) {
        assert r[|current|..] != [];
      }
    }
  }

  /** One combination that starts by choosing `rest[0]`, as the loop's first branch builds it. */
  lemma ChosenFirstSound(rest: seq<seq<Tile>>, current: seq<seq<Tile>>, used: set<int>, r: seq<seq<Tile>>)
    requires rest != [] && !Overlaps(rest[0], used)
    requires var cur := current + [rest[0]];
      && |r| >= |cur| && r[..|cur|] == cur
      && Subsequence(r[|cur|..], rest[1..]) && PairwiseDisjoint(r[|cur|..])
      && AvoidsIds(r[|cur|..], used + IdSet(rest[0]))
    ensures && |r| > |current| && r[..|current|] == current
            && Subsequence(r[|current|..], rest) && PairwiseDisjoint(r[|current|..])
            && AvoidsIds(r[|current|..], used)
  {
    var cur := current + [rest[0]];
    var later := r[|cur|..];
    var tail := r[|current|..];
    assert r[..|current|] == cur[..|current|] == current;
    assert tail == [rest[0]] + later by {
      assert tail[0] == r[|current|] == cur[|current|];
      assert tail[1..] == later;
    }
    assert Subsequence(tail, rest);
    forall i, j | 0 <= i < j < |tail| ensures IdSet(tail[i]) !! IdSet(tail[j]) {
      if i == 0 {
        assert tail[j] == later[j - 1] && tail[j] in later;
      } else {
        assert tail[i] == later[i - 1] && tail[j] == later[j - 1];
      }
    }
    forall s <- tail ensures IdSet(s) !! used {
      if s != rest[0] {
        assert s in later;
      }
    }
  }

  /** Every combination generateCombinations emits is non-empty and disjoint, in candidate order. */
  lemma GenerateCombinationsSound(sets: seq<seq<Tile>>)
    ensures forall c <- GenerateCombinations(sets) :: c != [] && Subsequence(c, sets) && PairwiseDisjoint(c)
  {
    CombinationsSound(sets, [], {});
    forall c <- GenerateCombinations(sets) ensures c[0..] == c {}
  }

  lemma {:induction false} CombinationsComplete(sets: seq<seq<Tile>>, current: seq<seq<Tile>>, used: set<int>, tail: seq<seq<Tile>>)
    requires Subsequence(tail, sets) && PairwiseDisjoint(tail) && AvoidsIds(tail, used)
    requires current + tail != []
    ensures current + tail in Combinations(sets, current, used)
    decreases |sets|, 1
  {
    if tail == [] {
      assert current + tail == current;
    } else {
      ExtensionsComplete(sets, current, used, tail);
    }
  }

  lemma {:induction false} ExtensionsComplete(rest: seq<seq<Tile>>, current: seq<seq<Tile>>, used: set<int>, tail: seq<seq<Tile>>)
    requires tail != [] && Subsequence(tail, rest) && PairwiseDisjoint(tail) && AvoidsIds(tail, used)
    ensures current + tail in Extensions(rest, current, used)
    decreases |rest|, 0
  {
    assert rest != [];
    if tail[0] == rest[0] && Subsequence(tail[1..], rest[1..]) {
      assert IdSet(tail[0]) !! used;
      var cur := current + [rest[0]];
      var used' := used + IdSet(rest[0]);
      assert PairwiseDisjoint(tail[1..]) by {
        forall i, j | 0 <= i < j < |tail[1..]| ensures IdSet(tail[1..][i]) !! IdSet(tail[1..][j]) {
          assert tail[1..][i] == tail[i + 1] && tail[1..][j] == tail[j + 1];
        }
      }
      assert AvoidsIds(tail[1..], used') by {
        forall s <- tail[1..] ensures IdSet(s) !! used' {
          var k :| 0 <= k < |tail[1..]| && tail[1..][k] == s;
          assert tail[k + 1] == s;
          assert IdSet(tail[0]) !! IdSet(tail[k + 1]);
        }
      }
      CombinationsComplete(rest[1..], cur, used', tail[1..]);
      assert cur + tail[1..] == current + tail;
    } else {
      assert Subsequence(tail, rest[1..]);
      ExtensionsComplete(rest[1..], current, used, tail);
    }
  }

  /** Every non-empty disjoint choice of candidates, in candidate order, is emitted. */
  lemma GenerateCombinationsComplete(sets: seq<seq<Tile>>, c: seq<seq<Tile>>)
    requires c != [] && Subsequence(c, sets) && PairwiseDisjoint(c)
    ensures c in GenerateCombinations(sets)
  {
    CombinationsComplete(sets, [], {}, c);
    assert [] + c == c;
  }

  // ---------------------------------------------------------------------------
  // What extending a table run preserves
  // ---------------------------------------------------------------------------

  /**
   * A run stored in ascending positions from `start`: the non-joker at position `j` has the
   * run's colour and the number `start + j`, and the positions stay inside 1..13. The
   * extension code reads a run's numbers off its positions, which is right for runs kept in
   * this form.
   */
  predicate LaidOut(run: seq<Tile>, color: Color, start: int) {
    && 1 <= start && start + |run| - 1 <= 13
    && forall j :: 0 <= j < |run| && run[j].Numbered? ==> run[j].color == color && run[j].number == start + j
  }

  lemma {:induction false} PositionedNumbers(s: seq<Tile>, start: int)
    requires forall j :: 0 <= j < |s| && s[j].Numbered? ==> s[j].number == start + j
    ensures Increasing(Numbers(Regular(s)))
    ensures forall x <- Numbers(Regular(s)) :: start <= x <= start + |s| - 1
  {
    if s != [] {
      var tail := s[1..];
      forall j | 0 <= j < |tail| && tail[j].Numbered? ensures tail[j].number == (start + 1) + j {
        assert tail[j] == s[j + 1];
      }
      PositionedNumbers(tail, start + 1);
      var head := if s[0].Joker? then [] else [s[0]];
      assert Regular(s) == head + Regular(tail);
      NumbersConcat(head, Regular(tail));
      var rest := Numbers(Regular(tail));
      if s[0].Numbered? {
        assert Numbers(head) == [s[0].number];
        var ns := [start] + rest;
        assert Numbers(Regular(s)) == ns;
        forall i | 0 < i < |ns| ensures ns[i - 1] < ns[i] {
          if i == 1 {
            assert ns[1] == rest[0] && rest[0] in rest;
          } else {
            assert ns[i - 1] == rest[i - 2] && ns[i] == rest[i - 1];
          }
        }
      } else {
        assert Numbers(head) == [];
        assert Numbers(Regular(s)) == rest;
      }
    }
  }

  /** A run kept in ascending positions, with at least one non-joker, passes isValidRun. */
  lemma LaidOutValid(run: seq<Tile>, color: Color, start: int)
    requires LaidOut(run, color, start) && |run| >= 3 && Regular(run) != []
    ensures ValidRun(run)
  {
    var regular := Regular(run);
    LaidOutColors(run, color, start);
    assert forall t <- regular :: t.color == regular[0].color by {
      assert regular[0] in regular;
    }
    LaidOutGaps(run, start);
    RegularJokerSplit(run);
    var ns := Numbers(regular);
    var jokers := JokerCount(run);
    var used := ns[|ns| - 1] - ns[0] - (|ns| - 1);
    assert used <= jokers;
    assert RunLength(SortInts(ns), jokers, used) == |run| <= 13;
  }

  lemma LaidOutColors(run: seq<Tile>, color: Color, start: int)
    requires LaidOut(run, color, start)
    ensures forall t <- Regular(run) :: t.color == color
  {
    forall t <- Regular(run) ensures t.color == color {
      RegularMember(run, t);
      var j :| 0 <= j < |run| && run[j] == t;
    }
  }

  lemma LaidOutGaps(run: seq<Tile>, start: int)
    requires forall j :: 0 <= j < |run| && run[j].Numbered? ==> run[j].number == start + j
    requires Regular(run) != []
    ensures var ns := Numbers(Regular(run));
      && SortInts(ns) == ns
      && Gaps(ns).Some? && Gaps(ns).value == ns[|ns| - 1] - ns[0] - (|ns| - 1)
      && start <= ns[0] && ns[|ns| - 1] <= start + |run| - 1
  {
    PositionedNumbers(run, start);
    var ns := Numbers(Regular(run));
    assert ns[0] in ns && ns[|ns| - 1] in ns;
    IncreasingGaps(ns);
  }

  lemma {:induction false} RegularAppend(s: seq<Tile>, t: Tile)
    requires t.Numbered?
    ensures Regular(s + [t]) == Regular(s) + [t]
  {
    if s == [] {
      assert [] + [t] == [t];
    } else {
      assert (s + [t])[1..] == s[1..] + [t];
      RegularAppend(s[1..], t);
    }
  }

  lemma {:induction false} ColorsOfAppend(s: seq<Tile>, t: Tile)
    requires (forall u <- s :: u.Numbered?) && t.Numbered?
    ensures ColorsOf(s + [t]) == ColorsOf(s) + [t.color]
  {
    if s == [] {
      assert [] + [t] == [t];
    } else {
      assert (s + [t])[1..] == s[1..] + [t];
      ColorsOfAppend(s[1..], t);
    }
  }

  /** A group of fewer than 4 stays a group when a tile of its number in an unused colour joins it. */
  lemma GroupGrowsValid(run: seq<Tile>, t: Tile)
    requires IsValidGroup(run) && |run| < 4 && Regular(run) != []
    requires t.Numbered? && t.number == Regular(run)[0].number && t.color !in ColorsOf(Regular(run))
    ensures IsValidGroup(run + [t])
  {
    ValidGroupIff(run);
    RegularAppend(run, t);
    ColorsOfAppend(Regular(run), t);
    var g := run + [t];
    ValidGroupIff(g);
    var cs := ColorsOf(Regular(run));
    assert ColorsOf(Regular(g)) == cs + [t.color];
    forall i, j | 0 <= i < j < |cs + [t.color]| ensures (cs + [t.color])[i] != (cs + [t.color])[j] {
      if j == |cs| {
        assert (cs + [t.color])[i] == cs[i] && cs[i] in cs;
      } else {
        assert (cs + [t.color])[i] == cs[i] && (cs + [t.color])[j] == cs[j];
      }
    }
    assert Regular(run)[0] in Regular(run);
  }
}
