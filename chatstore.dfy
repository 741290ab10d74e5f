/**
 * The chat history store (server/stores/chatStore.js): one bounded list of messages per room,
 * and the text of the action messages the game posts, with tiles rendered as a colour emoji
 * followed by the number.
 */
module ChatStore {
  import opened Tiles
  import opened Optional
  import opened Ordering
  import opened Text

  // ---------------------------------------------------------------------------
  // Messages
  // ---------------------------------------------------------------------------

  /** The `type` of a message: 'chat' (the default), 'system', 'join', 'leave' or 'action'. */
  datatype MessageType = ChatMessage | SystemMessage | JoinMessage | LeaveMessage | ActionMessage

  /** `{ id, username, message, type, timestamp }`; the id is the clock rendered in decimal. */
  datatype Message = Message(id: string, username: string, message: string, kind: MessageType, timestamp: int)

  /** The message `addMessage` builds at time `now` (the clock is a parameter). */
  function NewMessage(username: string, text: string, kind: MessageType, now: nat): (m: Message)
    ensures |m.message| <= MaxMessageLength && m.message <= text
    ensures |text| <= MaxMessageLength ==> m.message == text
    ensures |text| > MaxMessageLength ==> m.message == text[..MaxMessageLength]
    ensures m.id == NatToString(now) && m.username == username
    ensures m.kind == kind && m.timestamp == now
  {
    Message(NatToString(now), username, Truncate(text, MaxMessageLength), kind, now)
  }

  /** A room's history after `push` and, when it grew past the limit, one `shift`. */
  function Kept(history: seq<Message>, m: Message): (r: seq<Message>)
    ensures |history| <= ChatHistoryLength ==> |r| <= ChatHistoryLength
    ensures r != [] && r[|r| - 1] == m
    ensures r == history + [m] || r == (history + [m])[1..]
  {
    var h := history + [m];
    if |h| > ChatHistoryLength then h[1..] else h
  }

  /** The last `n` entries of `s`, or all of them. */
  function Newest<T>(s: seq<T>, n: nat): (r: seq<T>)
    ensures |r| == if |s| <= n then |s| else n
  {
    if |s| <= n then s else s[|s| - n..]
  }

  /** Messages posted one after another, from an empty room. */
  function Posted(ms: seq<Message>): seq<Message> {
    if ms == [] then [] else Kept(Posted(ms[..|ms| - 1]), ms[|ms| - 1])
  }

  /**
   * However many messages are posted to a room, its history is exactly the newest
   * `CHAT_HISTORY_LENGTH` of them, oldest first.
   */
  lemma {:induction false} PostedKeepsNewest(ms: seq<Message>)
    ensures Posted(ms) == Newest(ms, ChatHistoryLength)
  {
    if ms != [] {
      var pre := ms[..|ms| - 1];
      PostedKeepsNewest(pre);
      var m := ms[|ms| - 1];
      assert ms == pre + [m];
      if |pre| >= ChatHistoryLength {
        assert Newest(pre, ChatHistoryLength) + [m] == ms[|ms| - ChatHistoryLength - 1..];
      }
    }
  }

  // ---------------------------------------------------------------------------
  // Tiles as text
  // ---------------------------------------------------------------------------

  /** The `{ color, number, isJoker }` copy of a tile that play messages list. */
  datatype Face = NumberFace(color: Color, number: int) | JokerFace

  function FaceOf(t: Tile): Face {
    match t
    case Numbered(_, c, n) => NumberFace(c, n)
    case Joker(_) => JokerFace
  }

  /** The joker card U+1F0CF. */
  const JokerEmoji: char := '\U{1F0CF}'

  /** Black, red, blue and orange squares (U+2B1B, U+1F7E5, U+1F7E6, U+1F7E7). */
  function ColorEmoji(c: Color): char {
    match c
    case Black => '\U{2B1B}'
    case Red => '\U{1F7E5}'
    case Blue => '\U{1F7E6}'
    case Orange => '\U{1F7E7}'
  }

  /** formatTile */
  function FormatTile(f: Face): string {
    match f
    case JokerFace => [JokerEmoji]
    case NumberFace(c, n) => [ColorEmoji(c)] + IntToString(n)
  }

  /** Only a negative number is written with a leading minus. */
  lemma SignFirst(i: int)
    ensures IntToString(i)[0] == '-' <==> i < 0
  {
    if i >= 0 {
      assert IntToString(i)[0] in NatToString(i);
    }
  }

  lemma IntToStringInjective(a: int, b: int)
    requires IntToString(a) == IntToString(b)
    ensures a == b
  {
    SignFirst(a);
    SignFirst(b);
    if a < 0 && b < 0 {
      assert NatToString(-a) == IntToString(a)[1..];
      NatToStringInjective(-a, -b);
    } else if a >= 0 && b >= 0 {
      NatToStringInjective(a, b);
    }
  }

  /** Different tiles render differently: the colour and the number can be read back. */
  lemma FormatTileInjective(f: Face, g: Face)
    requires FormatTile(f) == FormatTile(g)
    ensures f == g
  {
    if f.NumberFace? && g.NumberFace? {
      assert FormatTile(f)[1..] == IntToString(f.number);
      assert FormatTile(g)[1..] == IntToString(g.number);
      IntToStringInjective(f.number, g.number);
    }
  }

  /** `parts.join(sep)` */
  function Join(parts: seq<string>, sep: string): string {
    if parts == [] then ""
    else if |parts| == 1 then parts[0]
    else parts[0] + sep + Join(parts[1..], sep)
  }

  /** The key a face is grouped under: its colour, or 'joker'. */
  datatype Key = ColorKey(c: Color) | JokerKey

  function KeyOf(f: Face): Key {
    if f.JokerFace? then JokerKey else ColorKey(f.color)
  }

  function KeyList(fs: seq<Face>): (r: seq<Key>)
    ensures |r| == |fs| && forall i :: 0 <= i < |fs| ==> r[i] == KeyOf(fs[i])
  {
    seq(|fs|, i requires 0 <= i < |fs| => KeyOf(fs[i]))
  }

  /**
   * The keys of `byColor` in the order `Object.entries` lists them: all keys are non-numeric
   * strings, so in the order they were first added.
   */
  function KeysOf(fs: seq<Face>): seq<Key> {
    if fs == [] then []
    else
      var ks := KeysOf(fs[..|fs| - 1]);
      var k := KeyOf(fs[|fs| - 1]);
      if k in ks then ks else ks + [k]
  }

  /** Every key occurring in the list appears once, and nothing else does. */
  lemma {:induction false} KeysOfSpec(fs: seq<Face>)
    ensures Distinct(KeysOf(fs))
    ensures forall k :: k in KeysOf(fs) <==> k in KeyList(fs)
  {
    if fs != [] {
      var pre := fs[..|fs| - 1];
      KeysOfSpec(pre);
      assert KeyList(fs) == KeyList(pre) + [KeyOf(fs[|fs| - 1])];
    }
  }

  /** The numbers of the faces of colour `c`, in list order. */
  function NumbersIn(c: Color, fs: seq<Face>): seq<int> {
    if fs == [] then []
    else
      var f := fs[|fs| - 1];
      NumbersIn(c, fs[..|fs| - 1]) + (if f.NumberFace? && f.color == c then [f.number] else [])
  }

  function JokersIn(fs: seq<Face>): nat {
    if fs == [] then 0 else JokersIn(fs[..|fs| - 1]) + (if fs[|fs| - 1].JokerFace? then 1 else 0)
  }

  function NumberStrings(ns: seq<int>): (r: seq<string>)
    ensures |r| == |ns|
  {
    if ns == [] then [] else [IntToString(ns[0])] + NumberStrings(ns[1..])
  }

  /** One group of a long list: "<count>x🃏", or the colour emoji and the sorted numbers. */
  function Part(k: Key, fs: seq<Face>): string {
    match k
    case JokerKey => NatToString(JokersIn(fs)) + "x" + [JokerEmoji]
    case ColorKey(c) => [ColorEmoji(c)] + Join(NumberStrings(SortInts(NumbersIn(c, fs))), ",")
  }

  function Parts(ks: seq<Key>, fs: seq<Face>): (r: seq<string>)
    ensures |r| == |ks| && forall i :: 0 <= i < |ks| ==> r[i] == Part(ks[i], fs)
  {
    if ks == [] then [] else [Part(ks[0], fs)] + Parts(ks[1..], fs)
  }

  function Rendered(fs: seq<Face>): (r: seq<string>)
    ensures |r| == |fs| && forall i :: 0 <= i < |fs| ==> r[i] == FormatTile(fs[i])
  {
    if fs == [] then [] else [FormatTile(fs[0])] + Rendered(fs[1..])
  }

  /** formatTileList: up to four tiles one by one, more grouped by colour. */
  function FormatTileList(fs: seq<Face>): string {
    if fs == [] then ""
    else if |fs| <= 4 then Join(Rendered(fs), " ")
    else Join(Parts(KeysOf(fs), fs), " ")
  }

  /**
   * No tiles give the empty text. Up to four tiles are written one by one, in order, joined by
   * spaces. A list of more than four tiles is written as one group per colour present (and one
   * for the jokers), each group once; a colour's group lists the numbers of that colour in
   * ascending order, every one of them.
   */
  lemma FormatTileListGroups(fs: seq<Face>)
    ensures fs == [] ==> FormatTileList(fs) == ""
    ensures 0 < |fs| <= 4 ==> exists r: seq<string> ::
      && FormatTileList(fs) == Join(r, " ")
      && |r| == |fs|
      && forall i :: 0 <= i < |fs| ==> r[i] == FormatTile(fs[i])
    ensures |fs| > 4 ==> var ks := KeysOf(fs);
      && FormatTileList(fs) == Join(Parts(ks, fs), " ")
      && Distinct(ks)
      && (forall k :: k in ks <==> k in KeyList(fs))
      && (forall c :: Sorted(SortInts(NumbersIn(c, fs))) && multiset(SortInts(NumbersIn(c, fs))) == multiset(NumbersIn(c, fs)))
  {
    if 0 < |fs| <= 4 {
      var r := Rendered(fs);
      assert FormatTileList(fs) == Join(r, " ");
    }
    KeysOfSpec(fs);
    forall c ensures Sorted(SortInts(NumbersIn(c, fs))) && multiset(SortInts(NumbersIn(c, fs))) == multiset(NumbersIn(c, fs)) {
      SortIntsSpec(NumbersIn(c, fs));
    }
  }

  /** Each tile of a long list is counted in exactly one group: its colour's, or the jokers'. */
  lemma {:induction false} GroupsCoverList(fs: seq<Face>)
    ensures |NumbersIn(Black, fs)| + |NumbersIn(Red, fs)| + |NumbersIn(Blue, fs)| + |NumbersIn(Orange, fs)| + JokersIn(fs) == |fs|
  {
    if fs != [] {
      GroupsCoverList(fs[..|fs| - 1]);
    }
  }

  // ---------------------------------------------------------------------------
  // Action messages
  // ---------------------------------------------------------------------------

  /** `details` of a 'played' message; absent numbers read as 0. */
  datatype PlayDetails = PlayDetails(
    tilesPlayed: int,
    setsCreated: int,
    tilesInNewSets: int,
    isInitialMeld: bool,
    points: int,
    tiles: Option<seq<Face>>)

  /**
   * The action of `addActionMessage`, one constructor per case of its switch. `Other` stands
   * only for a name the switch does not list (not "played", "drew", "timeout", "passed",
   * "turn" or "won"), which takes the default case.
   */
  datatype Action =
    | Played(details: PlayDetails)
    | Drew
    | TimedOut
    | Passed
    | Turn
    | Won
    | Other(name: string)

  function Plural(n: int): string {
    if n != 1 then "s" else ""
  }

  /** The text `addActionMessage` posts for an action. */
  function ActionText(username: string, action: Action): string {
    match action
    case Played(d) =>
      var tilesAdded := d.tilesPlayed - d.tilesInNewSets;
      var tileDesc := if d.tiles.Some? then FormatTileList(d.tiles.value) else "";
      if d.isInitialMeld then
        username + " played initial meld (" + IntToString(d.points) + "pts): " + tileDesc
      else if d.setsCreated > 0 && tilesAdded > 0 then
        username + " played " + IntToString(d.tilesPlayed) + " tile" + Plural(d.tilesPlayed) + ": " + tileDesc
        + " (" + IntToString(d.setsCreated) + " new set" + Plural(d.setsCreated) + ", added to existing)"
      else if d.setsCreated > 0 then
        username + " played " + IntToString(d.tilesPlayed) + " tile" + Plural(d.tilesPlayed) + ": " + tileDesc
        + " (" + IntToString(d.setsCreated) + " new set" + Plural(d.setsCreated) + ")"
      else if tileDesc != "" then
        username + " played: " + tileDesc + " (added to existing set" + Plural(d.tilesPlayed) + ")"
      else
        username + " played " + IntToString(d.tilesPlayed) + " tile" + Plural(d.tilesPlayed)
    case Drew => username + " drew a tile"
    case TimedOut => username + " timed out, drew a tile"
    case Passed => username + " passed (pool empty)"
    case Turn => "\U{25B6}\U{FE0F} " + username + "'s turn"
    case Won => "\U{1F389} " + username + " won the game!"
    case Other(name) => username + " " + name
  }

  /** The personal copy of a draw message: `{ id, username, message, type, timestamp, tile }`. */
  datatype Personal = Personal(id: string, username: string, message: string, timestamp: int, tile: Tile)

  // ---------------------------------------------------------------------------
  // The store
  // ---------------------------------------------------------------------------

  class ChatStore {
    /** `chatHistory`: room id to its messages, oldest first. */
    var rooms: map<string, seq<Message>>

    /** No room holds more than `CHAT_HISTORY_LENGTH` messages. */
    ghost predicate Valid()
      reads this
    {
      forall r | r in rooms :: |rooms[r]| <= ChatHistoryLength
    }

    constructor()
      ensures Valid() && rooms == map[]
    {
      rooms := map[];
    }

    /** getHistory: an unknown room has an empty history. */
    function History(roomId: string): (h: seq<Message>)
      reads this
      ensures roomId !in rooms ==> h == []
      ensures roomId in rooms ==> h == rooms[roomId]
    {
      if roomId in rooms then rooms[roomId] else []
    }

    /**
     * addMessage: the text cut to `MAX_MESSAGE_LENGTH`, appended to the room (created when
     * missing), the oldest message dropped once the room is over the limit; no other room changes.
     */
    method AddMessage(roomId: string, username: string, text: string, kind: MessageType, now: nat)
      returns (m: Message)
      requires Valid()
      modifies this
      ensures Valid()
      ensures m == NewMessage(username, text, kind, now)
      ensures rooms == old(rooms)[roomId := Kept(old(History(roomId)), m)]
    {
      if roomId !in rooms {
        rooms := rooms[roomId := []];
      }
      var history := rooms[roomId];
      m := NewMessage(username, text, kind, now);
      history := history + [m];
      if |history| > ChatHistoryLength {
        history := history[1..];
      }
      rooms := rooms[roomId := history];
    }

    /** clearHistory */
    method ClearHistory(roomId: string)
      requires Valid()
      modifies this
      ensures Valid()
      ensures rooms == old(rooms) - {roomId}
    {
      rooms := rooms - {roomId};
    }

    /** addActionMessage: the action's text, posted under the user's name as an 'action' message. */
    method AddActionMessage(roomId: string, username: string, action: Action, now: nat) returns (m: Message)
      requires Valid()
      modifies this
      ensures Valid()
      ensures m == NewMessage(username, ActionText(username, action), ActionMessage, now)
      ensures rooms == old(rooms)[roomId := Kept(old(History(roomId)), m)]
    {
      m := AddMessage(roomId, username, ActionText(username, action), ActionMessage, now);
    }

    /**
     * addActionMessageWithTile: the drawing player's own message naming the tile. It is
     * returned only; no history changes.
     */
    method AddActionMessageWithTile(username: string, action: Action, tile: Tile, now: nat) returns (p: Personal)
      ensures p.id == NatToString(now) + "-personal" && p.username == username && p.timestamp == now && p.tile == tile
      ensures action == Drew ==> p.message == "You drew " + FormatTile(FaceOf(tile))
      ensures action == TimedOut ==> p.message == "You timed out, drew " + FormatTile(FaceOf(tile))
      ensures action != Drew && action != TimedOut ==> p.message == username + " " + ActionName(action)
    {
      var tileStr := FormatTile(FaceOf(tile));
      var message;
      match action {
        case Drew => message := "You drew " + tileStr;
        case TimedOut => message := "You timed out, drew " + tileStr;
        case _ => message := username + " " + ActionName(action);
      }
      p := Personal(NatToString(now) + "-personal", username, message, now, tile);
    }
  }

  /** The action's name as the callers spell it. */
  function ActionName(action: Action): string {
    match action
    case Played(_) => "played"
    case Drew => "drew"
    case TimedOut => "timeout"
    case Passed => "passed"
    case Turn => "turn"
    case Won => "won"
    case Other(name) => name
  }
}
