/**
 * Tiles, enums, configuration constants, deck generation and shuffling
 * (common/constants.js).
 */
module Tiles {

  /** TILE_COLORS; `Colors` lists them in declaration order, the order of `Object.values`. */
  datatype Color = Black | Red | Blue | Orange

  const Colors: seq<Color> := [Black, Red, Blue, Orange]

  /**
   * A tile. A joker has neither colour nor number; a numbered tile carries any integer
   * (the server never checks the range of numbers a client submits).
   */
  datatype Tile = Numbered(id: nat, color: Color, number: int) | Joker(id: nat)

  /** GAME_STATE */
  datatype GameState = Waiting | InProgress | Paused | Finished

  const TilesPerSet: nat := 2
  const JokerCountDefault: nat := 2
  const InitialTilesPerPlayer: nat := 14
  const MinPlayers: nat := 2
  const MaxPlayers: nat := 4
  const DefaultTurnTimer: nat := 60
  const ReconnectGracePeriod: nat := 30
  const MaxMessageLength: nat := 200
  const ChatHistoryLength: nat := 50

  /** Number of numbered tiles: two copies of each of 4 colours x 13 numbers. */
  const NumberedCount: nat := 104

  /** `for (let i = 0; i < jokerCount; i++)` adds no joker for a negative count. */
  function JokersFor(jokerCount: int): nat {
    if jokerCount > 0 then jokerCount else 0
  }

  /** The tile at position `i` of a fresh deck: ids follow generation order. */
  function DeckTile(i: nat): Tile {
    if i < NumberedCount then Numbered(i, Colors[(i % 52) / 13], i % 13 + 1) else Joker(i)
  }

  /** The deck `generateTileset(jokerCount)` returns, position by position. */
  function Tileset(jokerCount: int): seq<Tile> {
    seq(NumberedCount + JokersFor(jokerCount), i requires 0 <= i => DeckTile(i))
  }

  lemma Split52(q: nat, r: nat)
    requires r < 52
    ensures (52 * q + r) % 52 == r && (52 * q + r) / 52 == q
  {
  }

  lemma Split13(q: nat, r: nat)
    requires r < 13
    ensures (13 * q + r) % 13 == r && (13 * q + r) / 13 == q
  {
  }

  /** Position of the copy `copy` of (colour index `c`, number `n`) in generation order. */
  lemma DeckPosition(copy: nat, c: nat, n: int)
    requires copy < 2 && c < 4 && 1 <= n <= 13
    ensures var i := 52 * copy + 13 * c + n - 1;
      i < NumberedCount && DeckTile(i) == Numbered(i, Colors[c], n)
  {
    var i := 52 * copy + 13 * c + n - 1;
    Split52(copy, 13 * c + n - 1);
    Split13(c, n - 1);
    Split13(4 * copy + c, n - 1);
    assert i == 13 * (4 * copy + c) + (n - 1);
  }

  /** generateTileset: nested loops pushing tiles with a running `id` counter. */
  method GenerateTileset(jokerCount: int) returns (tiles: seq<Tile>)
    ensures tiles == Tileset(jokerCount)
  {
    ghost var deck := Tileset(jokerCount);
    tiles := [];
    var id: nat := 0;
    var copy := 0;
    while copy < TilesPerSet
      invariant 0 <= copy <= TilesPerSet
      invariant id == 52 * copy
      invariant tiles == deck[..id]
    {
      var c := 0;
      while c < |Colors|
        invariant 0 <= c <= |Colors|
        invariant id == 52 * copy + 13 * c
        invariant tiles == deck[..id]
      {
        var number := 1;
        while number <= 13
          invariant 1 <= number <= 14
          invariant id == 52 * copy + 13 * c + number - 1
          invariant tiles == deck[..id]
        {
          DeckPosition(copy, c, number);
          assert deck[..id + 1] == deck[..id] + [deck[id]];
          tiles := tiles + [Numbered(id, Colors[c], number)];
          id := id + 1;
          number := number + 1;
        }
        c := c + 1;
      }
      copy := copy + 1;
    }
    var i := 0;
    while i < jokerCount
      invariant 0 <= i <= JokersFor(jokerCount)
      invariant id == NumberedCount + i
      invariant tiles == deck[..id]
    {
      assert deck[..id + 1] == deck[..id] + [deck[id]];
      tiles := tiles + [Joker(id)];
      id := id + 1;
      i := i + 1;
    }
    assert tiles == deck;
  }

  /** The deck holds 104 numbered tiles plus the configured jokers. */
  lemma TilesetSize(jokerCount: int)
    ensures |Tileset(jokerCount)| == 104 + JokersFor(jokerCount)
    ensures jokerCount >= 0 ==> |Tileset(jokerCount)| == 104 + jokerCount
  {
  }

  /** Ids are 0..n-1 in generation order, hence pairwise distinct. */
  lemma TilesetIdsUnique(jokerCount: int)
    ensures forall i :: 0 <= i < |Tileset(jokerCount)| ==> Tileset(jokerCount)[i].id == i
    ensures forall i, j :: 0 <= i < j < |Tileset(jokerCount)| ==>
      Tileset(jokerCount)[i].id != Tileset(jokerCount)[j].id
  {
  }

  /**
   * Each (colour, number) pair with number in 1..13 occurs exactly twice, at the two
   * positions given here, and nowhere else.
   */
  lemma {:induction false} TilesetPairTwice(jokerCount: int, c: nat, n: int)
    requires c < 4 && 1 <= n <= 13
    ensures var d, a := Tileset(jokerCount), 13 * c + n - 1;
      && a + 52 < |d|
      && d[a] == Numbered(a, Colors[c], n)
      && d[a + 52] == Numbered(a + 52, Colors[c], n)
      && forall i :: 0 <= i < |d| && d[i].Numbered? && d[i].color == Colors[c] && d[i].number == n ==>
           i == a || i == a + 52
  {
    var d, a := Tileset(jokerCount), 13 * c + n - 1;
    DeckPosition(0, c, n);
    DeckPosition(1, c, n);
    forall i | 0 <= i < |d| && d[i].Numbered? && d[i].color == Colors[c] && d[i].number == n
      ensures i == a || i == a + 52
    {
      var copy, r := i / 52, i % 52;
      assert i == 52 * copy + r;
      var c', n' := r / 13, r % 13 + 1;
      assert r == 13 * c' + n' - 1;
      DeckPosition(copy, c', n');
      assert Colors[c'] == Colors[c];
      assert c' == c;
      Split13(4 * copy + c', n' - 1);
      assert i == 13 * (4 * copy + c') + (n' - 1);
    }
  }

  /** Exactly the last `JokersFor(jokerCount)` tiles are jokers; no numbered tile is one. */
  lemma TilesetJokersLast(jokerCount: int)
    ensures forall i :: 0 <= i < |Tileset(jokerCount)| ==>
      (Tileset(jokerCount)[i].Joker? <==> i >= NumberedCount)
    ensures forall i :: 0 <= i < NumberedCount ==> 1 <= Tileset(jokerCount)[i].number <= 13
  {
    forall i | 0 <= i < NumberedCount ensures 1 <= Tileset(jokerCount)[i].number <= 13 {
      assert Tileset(jokerCount)[i] == DeckTile(i);
    }
  }

  // ---------------------------------------------------------------------------
  // Tile lists
  // ---------------------------------------------------------------------------

  /** `sets.flat()` */
  function Flatten(sets: seq<seq<Tile>>): seq<Tile> {
    if sets == [] then [] else sets[0] + Flatten(sets[1..])
  }

  lemma {:induction false} FlattenConcat(a: seq<seq<Tile>>, b: seq<seq<Tile>>)
    ensures Flatten(a + b) == Flatten(a) + Flatten(b)
  {
    if a == [] {
      assert a + b == b;
    } else {
      assert (a + b)[1..] == a[1..] + b;
      FlattenConcat(a[1..], b);
    }
  }

  /** Flattening one more set appends its tiles. */
  lemma FlattenSnoc(sets: seq<seq<Tile>>, i: nat)
    requires i < |sets|
    ensures Flatten(sets[..i + 1]) == Flatten(sets[..i]) + sets[i]
  {
    assert sets[..i + 1] == sets[..i] + [sets[i]];
    FlattenConcat(sets[..i], [sets[i]]);
    assert [sets[i]][1..] == [];
    assert Flatten([sets[i]]) == sets[i] + Flatten([]);
  }

  /** `tiles.map(t => t.id)` */
  function IdsOf(tiles: seq<Tile>): (r: seq<int>)
    ensures |r| == |tiles|
  {
    if tiles == [] then [] else [tiles[0].id] + IdsOf(tiles[1..])
  }

  /** `new Set(tiles.map(t => t.id))` */
  function IdSet(tiles: seq<Tile>): set<int> {
    set t <- tiles :: t.id as int
  }

  lemma {:induction false} IdsOfConcat(a: seq<Tile>, b: seq<Tile>)
    ensures IdsOf(a + b) == IdsOf(a) + IdsOf(b)
  {
    if a == [] {
      assert a + b == b;
    } else {
      assert (a + b)[1..] == a[1..] + b;
      IdsOfConcat(a[1..], b);
    }
  }

  /**
   * shuffleArray: copies the input and runs Fisher-Yates downwards over the copy.
   * `Math.random()` is replaced by an arbitrary choice of `j` in `0..i`.
   */
  method ShuffleArray<T>(a: array<T>) returns (shuffled: array<T>)
    ensures fresh(shuffled)
    ensures shuffled.Length == a.Length
    ensures multiset(shuffled[..]) == multiset(a[..])
    ensures a[..] == old(a[..])
  {
    shuffled := new T[a.Length](k requires 0 <= k < a.Length reads a => a[k]);
    assert shuffled[..] == a[..];
    var i := shuffled.Length - 1;
    while i > 0
      invariant -1 <= i < shuffled.Length
      invariant multiset(shuffled[..]) == multiset(a[..])
    {
      var j :| 0 <= j <= i;
      shuffled[i], shuffled[j] := shuffled[j], shuffled[i];
      i := i - 1;
    }
  }
}
