/**
 * The lobby registry (server/stores/lobbyStore.js): a `Map` from lobby id to lobby record.
 * The map's insertion order, which `getPublicLobbies` and `getLobbyByPlayer` follow, is kept
 * as the sequence `order` of keys.
 */
module LobbyStore {
  import opened Optional
  import opened Ordering
  import opened RulePresets
  import opened Text

  datatype LobbyPlayer = LobbyPlayer(
    socketId: string,
    username: string,
    isBot: bool,
    botDifficulty: Option<string>,
    isReady: bool)

  datatype Spectator = Spectator(socketId: string, username: string)

  datatype Lobby = Lobby(
    id: string,
    hostSocketId: string,
    hostUsername: string,
    isPublic: bool,
    players: seq<LobbyPlayer>,
    spectators: seq<Spectator>,
    rules: Rules,
    gameId: Option<string>,
    createdAt: int,
    gameInProgress: bool)

  /** The object `removePlayerFromLobby` returns: the lobby, whether it was deleted, who left. */
  datatype Removal = Removal(lobby: Lobby, deleted: bool, removedPlayer: LobbyPlayer)

  /** `players.findIndex(p => p.socketId === socketId)` */
  function PlayerIndex(players: seq<LobbyPlayer>, socketId: string): (i: int)
    ensures -1 <= i < |players|
    ensures i == -1 <==> forall p <- players :: p.socketId != socketId
    ensures i >= 0 ==> players[i].socketId == socketId
    ensures i >= 0 ==> forall j :: 0 <= j < i ==> players[j].socketId != socketId
  {
    if players == [] then -1
    else if players[0].socketId == socketId then 0
    else
      var k := PlayerIndex(players[1..], socketId);
      if k == -1 then -1 else k + 1
  }

  /** `players.findIndex(p => p.socketId === socketId && p.isBot)` */
  function BotIndex(players: seq<LobbyPlayer>, socketId: string): (i: int)
    ensures -1 <= i < |players|
    ensures i == -1 <==> forall p <- players :: !(p.socketId == socketId && p.isBot)
    ensures i >= 0 ==> players[i].socketId == socketId && players[i].isBot
    ensures i >= 0 ==> forall j :: 0 <= j < i ==> !(players[j].socketId == socketId && players[j].isBot)
  {
    if players == [] then -1
    else if players[0].socketId == socketId && players[0].isBot then 0
    else
      var k := BotIndex(players[1..], socketId);
      if k == -1 then -1 else k + 1
  }

  /** `spectators.findIndex(s => s.socketId === socketId)` */
  function SpectatorIndex(spectators: seq<Spectator>, socketId: string): (i: int)
    ensures -1 <= i < |spectators|
    ensures i == -1 <==> forall s <- spectators :: s.socketId != socketId
    ensures i >= 0 ==> spectators[i].socketId == socketId
    ensures i >= 0 ==> forall j :: 0 <= j < i ==> spectators[j].socketId != socketId
  {
    if spectators == [] then -1
    else if spectators[0].socketId == socketId then 0
    else
      var k := SpectatorIndex(spectators[1..], socketId);
      if k == -1 then -1 else k + 1
  }

  /** `players.filter(p => !p.isBot)` */
  function Humans(players: seq<LobbyPlayer>): (r: seq<LobbyPlayer>)
    ensures forall p <- r :: !p.isBot && p in players
    ensures forall p <- players :: !p.isBot ==> p in r
  {
    if players == [] then []
    else (if players[0].isBot then [] else [players[0]]) + Humans(players[1..])
  }

  /** `players.filter(p => p.isBot).length` */
  function BotCount(players: seq<LobbyPlayer>): (n: nat)
    ensures n <= |players|
  {
    if players == [] then 0
    else (if players[0].isBot then 1 else 0) + BotCount(players[1..])
  }

  /** The duplicate test of `addPlayerToLobby`: the socket or the name is already seated. */
  predicate Taken(players: seq<LobbyPlayer>, socketId: string, username: string) {
    exists p <- players :: p.socketId == socketId || p.username == username
  }

  predicate Full(lobby: Lobby) {
    |lobby.players| >= lobby.rules.maxPlayers
  }

  /** No two seated players share a socket or a name. */
  predicate UniqueSeats(players: seq<LobbyPlayer>) {
    forall i, j :: 0 <= i < j < |players| ==>
      players[i].socketId != players[j].socketId && players[i].username != players[j].username
  }

  /** `Bot ${botNumber} (${botDifficulty})` */
  function BotName(botNumber: nat, botDifficulty: string): string {
    "Bot " + NatToString(botNumber) + " (" + botDifficulty + ")"
  }

  /** Both players or spectators are searched by `getLobbyByPlayer`. */
  predicate Hosts(lobby: Lobby, socketId: string) {
    (exists p <- lobby.players :: p.socketId == socketId)
    || (exists s <- lobby.spectators :: s.socketId == socketId)
  }

  predicate Listed(lobby: Lobby) {
    lobby.isPublic && !lobby.gameInProgress
  }

  /** The public, idle lobbies among `keys`, in key order. */
  function PublicLobbies(keys: seq<string>, lobbies: map<string, Lobby>): (r: seq<Lobby>)
    requires forall k <- keys :: k in lobbies
    ensures forall l <- r :: Listed(l) && exists k <- keys :: lobbies[k] == l
    ensures forall k <- keys :: Listed(lobbies[k]) ==> lobbies[k] in r
  {
    if keys == [] then []
    else
      var init := keys[..|keys| - 1];
      var l := lobbies[keys[|keys| - 1]];
      assert forall k <- keys :: k in init || k == keys[|keys| - 1];
      PublicLobbies(init, lobbies) + (if Listed(l) then [l] else [])
  }

  /** Adding a seat to a lobby whose seats are unique keeps them unique when the newcomer is new. */
  lemma AddSeatUnique(players: seq<LobbyPlayer>, p: LobbyPlayer)
    requires UniqueSeats(players) && !Taken(players, p.socketId, p.username)
    ensures UniqueSeats(players + [p])
  {
    var s := players + [p];
    forall i, j | 0 <= i < j < |s|
      ensures s[i].socketId != s[j].socketId && s[i].username != s[j].username
    {
      if j == |players| {
        assert s[i] in players;
      }
    }
  }

  /**
   * The bot name `addBotToLobby` chooses depends only on the number of bots seated, so
   * after a bot other than the last is removed, the next bot repeats the last bot's name.
   */
  lemma BotNameRepeats(lobby: Lobby)
    requires |lobby.players| == 3
    requires lobby.players[0] == LobbyPlayer("h", "host", false, None, true)
    requires lobby.players[1] == LobbyPlayer("b1", BotName(1, "easy"), true, Some("easy"), true)
    requires lobby.players[2] == LobbyPlayer("b2", BotName(2, "easy"), true, Some("easy"), true)
    ensures var rest := Splice(lobby.players, 1);
      BotName(BotCount(rest) + 1, "easy") == rest[1].username
  {
    var rest := Splice(lobby.players, 1);
    assert rest == [lobby.players[0], lobby.players[2]];
    assert BotCount(rest) == 1 by {
      assert rest[1..] == [lobby.players[2]];
    }
  }

  /**
   * The seat change of removePlayerFromLobby: the player at `i` leaves; if that was the host,
   * the first remaining human becomes host, and with no human left the lobby is to be deleted.
   */
  function RemoveSeat(lobby: Lobby, i: nat): (r: Removal)
    requires i < |lobby.players|
    ensures r.removedPlayer == lobby.players[i]
    ensures r.lobby.players == Splice(lobby.players, i)
    ensures r.lobby == lobby.(players := r.lobby.players, hostSocketId := r.lobby.hostSocketId,
                              hostUsername := r.lobby.hostUsername)
    ensures lobby.players[i].socketId != lobby.hostSocketId ==>
      !r.deleted && r.lobby.hostSocketId == lobby.hostSocketId && r.lobby.hostUsername == lobby.hostUsername
    ensures lobby.players[i].socketId == lobby.hostSocketId ==>
      (r.deleted <==> forall p <- r.lobby.players :: p.isBot)
    ensures r.deleted ==> r.lobby.hostSocketId == lobby.hostSocketId
    ensures lobby.players[i].socketId == lobby.hostSocketId && !r.deleted ==>
      exists k :: (0 <= k < |r.lobby.players| && !r.lobby.players[k].isBot
                   && r.lobby.players[k].socketId == r.lobby.hostSocketId
                   && r.lobby.players[k].username == r.lobby.hostUsername
                   && forall j :: 0 <= j < k ==> r.lobby.players[j].isBot)
  {
    var rest := Splice(lobby.players, i);
    var left := lobby.(players := rest);
    if lobby.players[i].socketId == lobby.hostSocketId then
      var humans := Humans(rest);
      if |humans| > 0 then
        FirstHuman(rest);
        Removal(left.(hostSocketId := humans[0].socketId, hostUsername := humans[0].username),
                false, lobby.players[i])
      else
        Removal(left, true, lobby.players[i])
    else
      Removal(left, false, lobby.players[i])
  }

  /** The first element of Humans(players) is the first human seat. */
  lemma {:induction false} FirstHuman(players: seq<LobbyPlayer>)
    requires Humans(players) != []
    ensures exists k :: (0 <= k < |players| && players[k] == Humans(players)[0]
                         && forall j :: 0 <= j < k ==> players[j].isBot)
  {
    if players[0].isBot {
      FirstHuman(players[1..]);
      var k :| 0 <= k < |players[1..]| && players[1..][k] == Humans(players[1..])[0]
        && forall j :: 0 <= j < k ==> players[1..][j].isBot;
      assert players[k + 1] == Humans(players)[0];
      forall j | 0 <= j < k + 1 ensures players[j].isBot {
        if j > 0 { assert players[j] == players[1..][j - 1]; }
      }
    } else {
      assert players[0] == Humans(players)[0];
    }
  }

  class LobbyRegistry {
    var lobbies: map<string, Lobby>
    /** The keys of `lobbies` in insertion order. */
    var order: seq<string>

    ghost predicate Valid()
      reads this
    {
      Distinct(order) && (forall k :: k in order <==> k in lobbies)
    }

    constructor()
      ensures Valid() && lobbies == map[] && order == []
    {
      lobbies := map[];
      order := [];
    }

    /** Stores `lobby` under `lobbyId`; a new key goes to the end of the insertion order. */
    method Put(lobbyId: string, lobby: Lobby)
      requires Valid()
      modifies this
      ensures Valid()
      ensures lobbies == old(lobbies)[lobbyId := lobby]
      ensures order == if lobbyId in old(lobbies) then old(order) else old(order) + [lobbyId]
    {
      if lobbyId !in lobbies {
        assert lobbyId !in order;
        order := order + [lobbyId];
      }
      lobbies := lobbies[lobbyId := lobby];
    }

    /**
     * createLobby: the host is the only player, ready and human; default rules, no game.
     * The generated id and the clock are parameters.
     */
    method CreateLobby(lobbyId: string, hostSocketId: string, hostUsername: string, isPublic: bool, now: int)
      returns (lobby: Lobby)
      requires Valid()
      modifies this
      ensures Valid()
      ensures lobbies == old(lobbies)[lobbyId := lobby]
      ensures order == if lobbyId in old(lobbies) then old(order) else old(order) + [lobbyId]
      ensures lobby.id == lobbyId && lobby.isPublic == isPublic && lobby.createdAt == now
      ensures lobby.hostSocketId == hostSocketId && lobby.hostUsername == hostUsername
      ensures lobby.players == [LobbyPlayer(hostSocketId, hostUsername, false, None, true)]
      ensures lobby.spectators == [] && lobby.gameId == None && !lobby.gameInProgress
      ensures lobby.rules == OfficialRules && RuleErrors(lobby.rules) == []
      ensures UniqueSeats(lobby.players)
    {
      lobby := Lobby(lobbyId, hostSocketId, hostUsername, isPublic,
        [LobbyPlayer(hostSocketId, hostUsername, false, None, true)], [],
        GetDefaultRules(), None, now, false);
      Put(lobbyId, lobby);
    }

    function GetLobby(lobbyId: string): (r: Option<Lobby>)
      reads this
      ensures r.Some? <==> lobbyId in lobbies
      ensures r.Some? ==> r.value == lobbies[lobbyId]
    {
      if lobbyId in lobbies then Some(lobbies[lobbyId]) else None
    }

    /** deleteLobby: reports whether the key was present. */
    method DeleteLobby(lobbyId: string) returns (deleted: bool)
      requires Valid()
      modifies this
      ensures Valid()
      ensures deleted <==> lobbyId in old(lobbies)
      ensures lobbies == old(lobbies) - {lobbyId}
      ensures order == Without(old(order), lobbyId)
    {
      deleted := lobbyId in lobbies;
      WithoutDistinct(order, lobbyId);
      order := Without(order, lobbyId);
      lobbies := lobbies - {lobbyId};
    }

    /** getPublicLobbies: the lobbies that are public and have no game running, in insertion order. */
    method GetPublicLobbies() returns (r: seq<Lobby>)
      requires Valid()
      ensures r == PublicLobbies(order, lobbies)
      ensures forall l <- r :: l.isPublic && !l.gameInProgress && l in lobbies.Values
      ensures forall k <- lobbies :: lobbies[k].isPublic && !lobbies[k].gameInProgress ==> lobbies[k] in r
    {
      r := [];
      var i := 0;
      while i < |order|
        invariant 0 <= i <= |order|
        invariant r == PublicLobbies(order[..i], lobbies)
      {
        var l := lobbies[order[i]];
        assert order[..i + 1][..i] == order[..i];
        if l.isPublic && !l.gameInProgress {
          r := r + [l];
        }
        i := i + 1;
      }
      assert order[..i] == order;
    }

    /**
     * addPlayerToLobby: refused (null, nothing changes) for an unknown lobby, a full one, or
     * a socket or name already seated; otherwise exactly one player is appended, ready iff a bot.
     */
    method AddPlayerToLobby(lobbyId: string, socketId: string, username: string, isBot: bool,
                            botDifficulty: Option<string>)
      returns (r: Option<Lobby>)
      requires Valid()
      modifies this
      ensures Valid() && order == old(order)
      ensures r.None? <==>
        lobbyId !in old(lobbies) || Full(old(lobbies)[lobbyId])
        || Taken(old(lobbies)[lobbyId].players, socketId, username)
      ensures r.None? ==> lobbies == old(lobbies)
      ensures r.Some? ==>
        r.value == old(lobbies)[lobbyId].(players := old(lobbies)[lobbyId].players
                     + [LobbyPlayer(socketId, username, isBot, botDifficulty, isBot)])
        && lobbies == old(lobbies)[lobbyId := r.value]
      ensures r.Some? && UniqueSeats(old(lobbies)[lobbyId].players) ==> UniqueSeats(r.value.players)
    {
      if lobbyId !in lobbies {
        return None;
      }
      var lobby := lobbies[lobbyId];
      if |lobby.players| >= lobby.rules.maxPlayers {
        return None;
      }
      if Taken(lobby.players, socketId, username) {
        return None;
      }
      var player := LobbyPlayer(socketId, username, isBot, botDifficulty, isBot);
      if UniqueSeats(lobby.players) {
        AddSeatUnique(lobby.players, player);
      }
      lobby := lobby.(players := lobby.players + [player]);
      lobbies := lobbies[lobbyId := lobby];
      r := Some(lobby);
    }

    /**
     * removePlayerFromLobby: null when the lobby or the player is missing; otherwise the seat
     * is vacated as RemoveSeat describes, and a lobby left without humans is deleted.
     */
    method RemovePlayerFromLobby(lobbyId: string, socketId: string) returns (r: Option<Removal>)
      requires Valid()
      modifies this
      ensures Valid()
      ensures r.None? <==>
        lobbyId !in old(lobbies) || PlayerIndex(old(lobbies)[lobbyId].players, socketId) == -1
      ensures r.None? ==> lobbies == old(lobbies) && order == old(order)
      ensures r.Some? ==>
        r.value == RemoveSeat(old(lobbies)[lobbyId], PlayerIndex(old(lobbies)[lobbyId].players, socketId))
      ensures r.Some? && r.value.deleted ==>
        lobbies == old(lobbies) - {lobbyId} && order == Without(old(order), lobbyId)
      ensures r.Some? && !r.value.deleted ==>
        lobbies == old(lobbies)[lobbyId := r.value.lobby] && order == old(order)
    {
      if lobbyId !in lobbies {
        return None;
      }
      var lobby := lobbies[lobbyId];
      var playerIndex := PlayerIndex(lobby.players, socketId);
      if playerIndex == -1 {
        return None;
      }
      var removal := RemoveSeat(lobby, playerIndex);
      if removal.deleted {
        var _ := DeleteLobby(lobbyId);
      } else {
        lobbies := lobbies[lobbyId := removal.lobby];
      }
      r := Some(removal);
    }

    /** addSpectatorToLobby: null for an unknown lobby or a socket already watching. */
    method AddSpectatorToLobby(lobbyId: string, socketId: string, username: string) returns (r: Option<Lobby>)
      requires Valid()
      modifies this
      ensures Valid() && order == old(order)
      ensures r.None? <==>
        lobbyId !in old(lobbies) || exists s <- old(lobbies)[lobbyId].spectators :: s.socketId == socketId
      ensures r.None? ==> lobbies == old(lobbies)
      ensures r.Some? ==>
        r.value == old(lobbies)[lobbyId].(spectators := old(lobbies)[lobbyId].spectators + [Spectator(socketId, username)])
        && lobbies == old(lobbies)[lobbyId := r.value]
    {
      if lobbyId !in lobbies {
        return None;
      }
      var lobby := lobbies[lobbyId];
      if exists s <- lobby.spectators :: s.socketId == socketId {
        return None;
      }
      lobby := lobby.(spectators := lobby.spectators + [Spectator(socketId, username)]);
      lobbies := lobbies[lobbyId := lobby];
      r := Some(lobby);
    }

    /** removeSpectatorFromLobby: drops the first spectator with that socket, if any. */
    method RemoveSpectatorFromLobby(lobbyId: string, socketId: string) returns (r: Option<Lobby>)
      requires Valid()
      modifies this
      ensures Valid() && order == old(order)
      ensures r.None? <==> lobbyId !in old(lobbies)
      ensures r.None? ==> lobbies == old(lobbies)
      ensures r.Some? ==>
        var l := old(lobbies)[lobbyId];
        var i := SpectatorIndex(l.spectators, socketId);
        r.value == (if i == -1 then l else l.(spectators := Splice(l.spectators, i)))
        && lobbies == old(lobbies)[lobbyId := r.value]
    {
      if lobbyId !in lobbies {
        return None;
      }
      var lobby := lobbies[lobbyId];
      var index := SpectatorIndex(lobby.spectators, socketId);
      if index != -1 {
        lobby := lobby.(spectators := Splice(lobby.spectators, index));
      }
      lobbies := lobbies[lobbyId := lobby];
      r := Some(lobby);
    }

    /** updateLobbyRules: `{ ...lobby.rules, ...rules }`. */
    method UpdateLobbyRules(lobbyId: string, overrides: Overrides) returns (r: Option<Lobby>)
      requires Valid()
      modifies this
      ensures Valid() && order == old(order)
      ensures r.None? <==> lobbyId !in old(lobbies)
      ensures r.None? ==> lobbies == old(lobbies)
      ensures r.Some? ==>
        r.value == old(lobbies)[lobbyId].(rules := ApplyOverrides(old(lobbies)[lobbyId].rules, overrides))
        && lobbies == old(lobbies)[lobbyId := r.value]
    {
      if lobbyId !in lobbies {
        return None;
      }
      var lobby := lobbies[lobbyId];
      lobby := lobby.(rules := ApplyOverrides(lobby.rules, overrides));
      lobbies := lobbies[lobbyId := lobby];
      r := Some(lobby);
    }

    /** setLobbyVisibility */
    method SetLobbyVisibility(lobbyId: string, isPublic: bool) returns (r: Option<Lobby>)
      requires Valid()
      modifies this
      ensures Valid() && order == old(order)
      ensures r.None? <==> lobbyId !in old(lobbies)
      ensures r.None? ==> lobbies == old(lobbies)
      ensures r.Some? ==>
        r.value == old(lobbies)[lobbyId].(isPublic := isPublic) && lobbies == old(lobbies)[lobbyId := r.value]
    {
      if lobbyId !in lobbies {
        return None;
      }
      var lobby := lobbies[lobbyId].(isPublic := isPublic);
      lobbies := lobbies[lobbyId := lobby];
      r := Some(lobby);
    }

    /** setLobbyGameInProgress: the lobby leaves the public list once its game starts. */
    method SetLobbyGameInProgress(lobbyId: string, gameId: string) returns (r: Option<Lobby>)
      requires Valid()
      modifies this
      ensures Valid() && order == old(order)
      ensures r.None? <==> lobbyId !in old(lobbies)
      ensures r.None? ==> lobbies == old(lobbies)
      ensures r.Some? ==>
        r.value == old(lobbies)[lobbyId].(gameInProgress := true, gameId := Some(gameId))
        && lobbies == old(lobbies)[lobbyId := r.value]
        && !Listed(r.value)
    {
      if lobbyId !in lobbies {
        return None;
      }
      var lobby := lobbies[lobbyId].(gameInProgress := true, gameId := Some(gameId));
      lobbies := lobbies[lobbyId := lobby];
      r := Some(lobby);
    }

    /**
     * getLobbyByPlayer: the first lobby, in insertion order, that seats the socket as a
     * player or a spectator; null when none does.
     */
    method GetLobbyByPlayer(socketId: string) returns (r: Option<Lobby>)
      requires Valid()
      ensures r.Some? ==> Hosts(r.value, socketId) && r.value in lobbies.Values
      ensures r.Some? ==> (exists i :: 0 <= i < |order| && lobbies[order[i]] == r.value
                             && forall j :: 0 <= j < i ==> !Hosts(lobbies[order[j]], socketId))
      ensures r.None? <==> forall k <- lobbies :: !Hosts(lobbies[k], socketId)
    {
      var i := 0;
      while i < |order|
        invariant 0 <= i <= |order|
        invariant forall j :: 0 <= j < i ==> !Hosts(lobbies[order[j]], socketId)
      {
        var lobby := lobbies[order[i]];
        if exists p <- lobby.players :: p.socketId == socketId {
          return Some(lobby);
        }
        if exists s <- lobby.spectators :: s.socketId == socketId {
          return Some(lobby);
        }
        i := i + 1;
      }
      forall k <- lobbies ensures !Hosts(lobbies[k], socketId) {
        var j :| 0 <= j < |order| && order[j] == k;
      }
      r := None;
    }

    /**
     * addBotToLobby: refused when the lobby is missing or full; otherwise a ready bot named
     * "Bot n (difficulty)", n being one more than the bots already seated, is appended. The
     * generated part of its socket id is a parameter.
     */
    method AddBotToLobby(lobbyId: string, botDifficulty: string, generatedId: string) returns (r: Option<Lobby>)
      requires Valid()
      modifies this
      ensures Valid() && order == old(order)
      ensures r.None? <==> lobbyId !in old(lobbies) || Full(old(lobbies)[lobbyId])
      ensures r.None? ==> lobbies == old(lobbies)
      ensures r.Some? ==>
        var l := old(lobbies)[lobbyId];
        r.value == l.(players := l.players
          + [LobbyPlayer("bot-" + generatedId, BotName(BotCount(l.players) + 1, botDifficulty),
                         true, Some(botDifficulty), true)])
        && lobbies == old(lobbies)[lobbyId := r.value]
      ensures r.Some? ==> BotCount(r.value.players) == BotCount(old(lobbies)[lobbyId].players) + 1
    {
      if lobbyId !in lobbies {
        return None;
      }
      var lobby := lobbies[lobbyId];
      if |lobby.players| >= lobby.rules.maxPlayers {
        return None;
      }
      var botNumber := BotCount(lobby.players) + 1;
      var bot := LobbyPlayer("bot-" + generatedId, BotName(botNumber, botDifficulty), true, Some(botDifficulty), true);
      BotCountAppend(lobby.players, bot);
      lobby := lobby.(players := lobby.players + [bot]);
      lobbies := lobbies[lobbyId := lobby];
      r := Some(lobby);
    }

    /** removeBotFromLobby: only a seat that is a bot is vacated; a human's socket yields null. */
    method RemoveBotFromLobby(lobbyId: string, botSocketId: string) returns (r: Option<Lobby>)
      requires Valid()
      modifies this
      ensures Valid() && order == old(order)
      ensures r.None? <==> lobbyId !in old(lobbies) || BotIndex(old(lobbies)[lobbyId].players, botSocketId) == -1
      ensures r.None? ==> lobbies == old(lobbies)
      ensures r.Some? ==>
        var l := old(lobbies)[lobbyId];
        var i := BotIndex(l.players, botSocketId);
        l.players[i].isBot
        && r.value == l.(players := Splice(l.players, i))
        && lobbies == old(lobbies)[lobbyId := r.value]
        && Humans(r.value.players) == Humans(l.players)
    {
      if lobbyId !in lobbies {
        return None;
      }
      var lobby := lobbies[lobbyId];
      var botIndex := BotIndex(lobby.players, botSocketId);
      if botIndex == -1 {
        return None;
      }
      HumansSpliceBot(lobby.players, botIndex);
      lobby := lobby.(players := Splice(lobby.players, botIndex));
      lobbies := lobbies[lobbyId := lobby];
      r := Some(lobby);
    }
  }

  lemma {:induction false} BotCountAppend(players: seq<LobbyPlayer>, p: LobbyPlayer)
    ensures BotCount(players + [p]) == BotCount(players) + (if p.isBot then 1 else 0)
  {
    if players != [] {
      assert (players + [p])[1..] == players[1..] + [p];
      BotCountAppend(players[1..], p);
    } else {
      assert [p][1..] == [];
    }
  }

  /** Removing a bot leaves the humans, in order, untouched. */
  lemma {:induction false} HumansSpliceBot(players: seq<LobbyPlayer>, i: nat)
    requires i < |players| && players[i].isBot
    ensures Humans(Splice(players, i)) == Humans(players)
  {
    if i > 0 {
      HumansSpliceBot(players[1..], i - 1);
      SpliceCons(players, i);
    } else {
      assert Splice(players, 0) == players[1..];
    }
  }
}
