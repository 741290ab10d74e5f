# Rummikub Online — a verified model of the game core

This project models the core of Rummikub Online, a browser game for two to four players, some of which may be bots. The model covers four parts:

- **Shared rules.** The tile set and its shuffle, the set checks (groups and runs), scoring, and the rule presets.
- **Server.** The in-memory stores for games, lobbies, users and chat. The socket handlers that change a game: playing a turn, drawing, kicking, disconnecting and reconnecting. The three bot strategies and the bot manager that plays their turns.
- **Client: game store.** The board the player edits locally before sending it: moving tiles, sorting the rack, dropping duplicate tiles, and taking in the server's state.
- **Client: notifications.** The notification list.

Tiles are values: `Numbered(id, color, number)` or `Joker(id)`. A hand is a sequence of tiles and the table is a sequence of sets.

Where the server or the client keeps mutable state in an object, the model keeps it in a `class` whose fields are `map`s and `seq`s of datatype values:

- the game, lobby, user and chat stores;
- the client's game store and notification store.

Each operation is a method with `modifies this`. Its `ensures` ties the new state to a specification function of the old state. Lemmas about those functions state what the game promises: a set the rules accept is a group or a run, a drawn tile moves from the pool to one hand, a client drag keeps every tile in play, and so on. Where the code breaks a promise its design makes, the model runs the code as written, and the Findings below pair that with a corrected definition whose promise is proved. A bot's turn, for instance, is modelled as written; that it neither creates nor loses a tile is proved for the corrected strategies.

Algorithms that loop in the source are methods with loops, proved against a function. Examples are the run check, the meld count, deck generation, the shuffle, duplicate scans and the bots' search loops.

Clocks, random numbers and generated ids are method parameters. Socket traffic becomes a returned `Outcome` value: what would be emitted, to whom.

The model follows the code as written, including the kick and reconnect handlers and the bot strategies listed under Findings. Runs are usually laid out in ascending order, but `isValidRun` sorts the numbers first, so it also accepts runs that are not in order, with jokers filling any gap (`Rules.ValidRunIff`). The bots' extension step reads numbers off positions and goes wrong on such runs (`Extension.UnorderedRunBreaks`).

Files:

| file | module | models |
|---|---|---|
| optional.dfy | Optional | `Option` |
| tiles.dfy | Tiles | common/constants.js: the tile, the deck, the shuffle |
| ordering.dfy | Ordering | sorting, distinctness, sums and the JavaScript array/Map idioms the rules use |
| text.dfy | Text | number-to-text, ASCII lowercasing, `substring` |
| rulepresets.dfy | RulePresets | common/rulePresets.js |
| rules.dfy | Rules | common/rules.js |
| gamestore.dfy | GameStore | server/stores/gameStore.js |
| lobbystore.dfy | LobbyStore | server/stores/lobbyStore.js |
| userstore.dfy | UserStore | server/stores/userStore.js |
| chatstore.dfy | ChatStore | server/stores/chatStore.js |
| gamehandler.dfy | GameHandler | server/handlers/gameHandler.js |
| botsets.dfy, candidates.dfy, extension.dfy | BotSets, Candidates, Extension | the set search and set extension shared by the Easy and Medium bots |
| planstrategy.dfy, planexample.dfy | PlanStrategy, PlanExample | `play` of server/bot/strategies/EasyStrategy.js and MediumStrategy.js |
| hardsimple.dfy, hardmanip.dfy, hardstrategy.dfy, combineexample.dfy | HardSimple, HardManip, HardStrategy, CombineExample | server/bot/strategies/HardStrategy.js |
| botmanager.dfy | BotManager | server/bot/BotManager.js |
| clientgame.dfy | ClientGame | client/src/stores/gameStore.js |
| notificationstore.dfy | NotificationStore | client/src/stores/notificationStore.js |

## Model

| member | source | states |
|---|---|---|
| Tiles.GenerateTileset | common/constants.js:68-97 | the nested loops and the joker loop produce exactly the deck `Tileset(jokerCount)`, with ids in generation order |
| Tiles.TilesetSize | common/constants.js:72-94 | the deck holds 2 × 4 × 13 = 104 numbered tiles and then `jokerCount` jokers; a negative count adds none |
| Tiles.TilesetIdsUnique | common/constants.js:70-77 | tile ids are 0, 1, 2 … in deck order, so no two tiles share an id |
| Tiles.TilesetPairTwice | common/constants.js:73-84 | every colour/number pair with a number from 1 to 13 appears exactly twice, and the lemma gives both positions |
| Tiles.TilesetJokersLast | common/constants.js:86-94 | the jokers are exactly the last tiles; every tile before them carries a number from 1 to 13 |
| Tiles.ShuffleArray | common/constants.js:100-107 | Fisher–Yates works on a fresh copy; the copy is a permutation of the input and the input is unchanged |
| Ordering.SortIntsSpec | common/rules.js:71 | sorting numbers with `(a, b) => a - b` gives an ascending arrangement of the same numbers |
| Ordering.SortPermutation | common/rules.js:71 | the sorted result depends only on which numbers are present, not on their order |
| Ordering.SetSizeDistinct | common/rules.js:30-33 | the idiom `new Set(xs).size === xs.length` holds exactly when the values are pairwise distinct |
| Ordering.RangeSumClosedForm | common/rules.js:162-164 | the loop adding `minNum..maxNum` computes the Gauss sum |
| Ordering.Splice | server/stores/lobbyStore.js:81 | `splice(i, 1)` drops the element at `i` and shifts the later elements down by one |
| Ordering.WithoutDistinct | server/stores/lobbyStore.js:36 | deleting a key from a `Map` keeps the remaining keys distinct and in order |
| Ordering.WithoutOrder | server/stores/lobbyStore.js:36 | deleting a key keeps the first-occurrence order of the keys that remain |
| Text.NatToStringRoundTrip | server/stores/chatStore.js:18 | reading back the decimal text of a number gives the number; there is no leading zero |
| Text.NatToStringInjective | server/stores/chatStore.js:18 | different timestamps give different ids |
| Text.LowerIdempotent | server/stores/userStore.js:18 | lowercasing a name twice is the same as lowercasing it once |
| Text.LowerKeyIff | server/stores/userStore.js:36-56 | two names have the same lowercase key exactly when they differ only in the case of ASCII letters |
| Text.Truncate | server/stores/chatStore.js:15 | `substring(0, n)` gives the first `n` characters of a longer string, and the whole string when it is not longer |
| RulePresets.ValidateCustomRules | common/rulePresets.js:30-53 | the error list is `RuleErrors(rules)`, and `valid` holds exactly when that list is empty |
| RulePresets.RuleErrorsExact | common/rulePresets.js:33-47 | each of the four messages is reported exactly when its field is outside its bounds, in the fixed order meld points, timer, jokers, tiles |
| RulePresets.GetDefaultRules | common/rulePresets.js:56-58 | the default is the official preset, and that preset passes validation |
| RulePresets.CreateCustomRules | common/rulePresets.js:61-67 | each field given as an override wins; each field not given keeps the template's value; the name is always "Custom" |
| RulePresets.CreateCustomRulesOverrides | common/rulePresets.js:61-67 | no overrides give the template; a `name` override never survives |
| RulePresets.ApplyOverridesLaws | common/rulePresets.js:62-66 | spreading no overrides changes nothing; spreading the same overrides twice equals spreading them once |
| Rules.RegularJokerSplit | common/rules.js:15-16 | the two filters split a set: its size is the non-jokers plus the jokers |
| Rules.RegularCount | common/rules.js:15 | the non-joker filter keeps every numbered tile as many times as it occurs and drops every joker |
| Rules.ValidGroupIff | common/rules.js:9-43 | a group is 3 or 4 tiles whose non-jokers share one number and carry distinct colours |
| Rules.GroupColorBoundNeverRejects | common/rules.js:36-40 | once the colours are distinct, the `> 4` test on colours plus jokers cannot fail |
| Rules.IsValidRun | common/rules.js:50-101 | the filter, sort and gap loop compute `ValidRun(tiles)` |
| Rules.GapsTelescope | common/rules.js:74-82 | the gap loop sees no duplicate exactly when the numbers strictly increase, and then sums to the span minus the tiles already there |
| Rules.RunLengthIsTileCount | common/rules.js:89-100 | once the gaps fit, `runLength` is the tile count, so the final `<= 13` test cannot fail |
| Rules.ValidRunIff | common/rules.js:50-101 | a run is 3 to 13 tiles, either all jokers or non-jokers of one colour with distinct numbers, with enough jokers to fill the holes between min and max, in any order |
| Rules.ValidRunPermutation | common/rules.js:71 | the run check does not depend on the order of the tiles |
| Rules.AllJokerSets | common/rules.js:18-21 | a set of only jokers is a group at 3 to 4 tiles and a run at 3 to 13 tiles |
| Rules.IsValidSet | common/rules.js:108-116 | the set is valid exactly when it is a group or a run; it is reported as a group first and as a run only if it is not a group |
| Rules.SetPointsIgnoresJokers | common/rules.js:123-132 | set points add up over concatenation and equal the sum of the non-joker numbers |
| Rules.PenaltySplit | common/rules.js:229-236 | penalty points are 30 per joker plus the face values of the other tiles |
| Rules.HasPlayerWon | common/rules.js:243-245 | a player has won exactly when the rack is empty, and then owes no penalty |
| Rules.CalculateInitialMeldPoints | common/rules.js:140-183 | the loop computes `InitialMeldPoints(sets)` |
| Rules.ValidSetMeldPoints | common/rules.js:149-178 | one valid set adds the group product or the run's range sum plus the values given to extra jokers |
| Rules.MeldTotalFails | common/rules.js:143-147 | the running total fails exactly when some set is invalid |
| Rules.MeldPointsAdditive | common/rules.js:140-183 | the count for two valid plays put together is the sum of their counts |
| Rules.MeldPointsInvalidSet | common/rules.js:145-146 | one invalid set makes the whole count 0 |
| Rules.MeldPointsGroup | common/rules.js:149-152 | a group counts its number times its size; jokers take that number |
| Rules.MeldPointsJokerFree | common/rules.js:140-183 | a valid set with no jokers counts exactly its face value |
| Rules.MeldPointsExtraJokers | common/rules.js:172-177 | extra jokers fill slots below the run first and are then valued from `maxNum + i + 1`: red 2-3-4 with two jokers counts 16, skipping the slot 5 |
| Rules.ValidateInitialMeld | common/rules.js:191-198 | `points` is the meld count, `required` is the rules' threshold, and `valid` is `points >= required` |
| Rules.ValidateTableState | common/rules.js:205-222 | the loop builds `InvalidSets(tableSets)`, and `valid` holds exactly when that list is empty |
| Rules.InvalidSetsSound | common/rules.js:208-215 | each entry names a set that fails the check, with that set's tiles, and the indices go up |
| Rules.InvalidSetsComplete | common/rules.js:208-215 | every set that fails the check has an entry |
| Rules.TableValidIff | common/rules.js:218-221 | the table is valid exactly when every set is valid |
| GameStore.DealPlayersAt | server/stores/gameStore.js:14-29 | seat `i` gets a fresh player record holding `allTiles.slice(i*t, i*t+t)` |
| GameStore.DealtPrefix | server/stores/gameStore.js:14-16 | the hands dealt so far are exactly the first `n*t` tiles of the deck, or the whole deck when it runs out |
| GameStore.DealPartition | server/stores/gameStore.js:11-33 | the hands, seat after seat, followed by the pool, are the shuffled deck itself: no tile is lost or dealt twice |
| GameStore.DealSizes | server/stores/gameStore.js:14-33 | when the deck is large enough, every player gets exactly `tilesPerPlayer` tiles and the pool gets the rest |
| GameStore.NewGameFresh | server/stores/gameStore.js:35-53 | a new game is in progress, at seat 0, with an empty table, no winner, nobody melded and nobody disconnected |
| GameStore.FindPlayer | server/stores/gameStore.js:133 | `players.find` by socket: the first seat with that socket, or -1 exactly when no seat has it |
| GameStore.CurrentPlayer | server/stores/gameStore.js:93-95 | the current player exists exactly when the index is inside the seats |
| GameStore.AdvanceTurn | server/stores/gameStore.js:97-106 | the seats are unchanged, the new index is a seat, and the saved turn-start state is that of the new current player |
| GameStore.AfterTurnsWrap | server/stores/gameStore.js:101 | `k` turns after seat `i`, for `k` at most one round, play reaches seat `i + k` wrapped around the table |
| GameStore.RoundVisitsEverySeat | server/stores/gameStore.js:101 | in one round every seat plays exactly once and play comes back to the starting seat |
| GameStore.AdvanceTurnIsOneStep | server/stores/gameStore.js:97-106 | advanceTurn moves play on by exactly one seat |
| GameStore.RevertAtTurnStartIsIdentity | server/stores/gameStore.js:108-127 | reverting right after a turn starts changes nothing |
| GameStore.RevertUndoesEdits | server/stores/gameStore.js:117-127 | whatever a turn did to the hand, the table and the pool, reverting undoes it |
| GameStore.RevertRestoresSnapshot | server/stores/gameStore.js:117-127 | after a revert, the current hand, the table and the pool are the saved copies |
| GameStore.DrawTile | server/stores/gameStore.js:129-142 | the result is null exactly for a socket with no seat or an empty pool |
| GameStore.DrawMovesOneTile | server/stores/gameStore.js:136-141 | the last pool tile moves to the end of the drawing player's hand; other hands are untouched; no tile appears or disappears |
| GameStore.UpdatePlayerTiles | server/stores/gameStore.js:144-153 | the result is null exactly for an unknown socket |
| GameStore.FindPlayerSameSeats | server/stores/gameStore.js:148 | finding a seat depends only on which socket sits where |
| GameStore.SetPlayerInitialMeld | server/stores/gameStore.js:163-172 | only that seat's meld flag changes, and it becomes true; an unknown socket changes nothing |
| GameStore.SetGameWinner | server/stores/gameStore.js:174-188 | only a seated socket can win, and the game is then finished; hands, table and pool are unchanged |
| GameStore.ReconnectUndoesDisconnect | server/stores/gameStore.js:190-212 | reconnecting right after disconnecting restores a connected seat as it was |
| GameStore.ReplacePlayerWithBot | server/stores/gameStore.js:214-227 | the seat keeps its socket and tiles, becomes a connected bot of the given difficulty, and gets " (Bot)" added to its name; other seats are unchanged |
| GameStore.PauseResumeRoundTrip | server/stores/gameStore.js:229-247 | pausing a running game and resuming it gives back the same game |
| GameStore.SpectatorRoundTrip | server/stores/gameStore.js:249-268 | a new spectator who joins and leaves again leaves the game as it was |
| GameStore.AddSpectatorIdempotent | server/stores/gameStore.js:253-255 | adding the same spectator twice is the same as adding once |
| GameStore.SortByPenaltySorted | server/stores/gameStore.js:290 | the score rows come out in ascending order of penalty |
| GameStore.SortByPenaltyStable | server/stores/gameStore.js:290 | rows with equal penalties keep their seat order |
| GameStore.FinalScoresSpec | server/stores/gameStore.js:270-293 | one row per player with that player's tiles left and penalty, ascending by penalty, only the winner marked |
| GameStore.GameRegistry.constructor | server/stores/gameStore.js:5 | the store starts empty |
| GameStore.GameRegistry.CreateGame | server/stores/gameStore.js:7-57 | the new game is `NewGame` dealt from a shuffled copy of the lobby's tile set and is stored under its id |
| GameStore.GameRegistry.GetGame | server/stores/gameStore.js:59-61 | a game is found exactly when its id is stored |
| GameStore.GameRegistry.DeleteGame | server/stores/gameStore.js:63-69 | the game is removed, and the result says whether it was there |
| GameStore.GameRegistry.GetGameByPlayer | server/stores/gameStore.js:75-82 | the first game, in insertion order, that seats the socket; null exactly when no game seats it |
| GameStore.GameRegistry.GetGameByLobby | server/stores/gameStore.js:84-91 | the first game, in insertion order, started from the lobby; null exactly when there is none |
| GameStore.GameRegistry.AdvanceTurnOf | server/stores/gameStore.js:97-106 | null for an unknown game; otherwise the stored game becomes `AdvanceTurn` of it |
| GameStore.GameRegistry.RevertToTurnStartOf | server/stores/gameStore.js:117-127 | null, with nothing changed, for an unknown game or one with no saved state; otherwise the stored game is reverted |
| GameStore.GameRegistry.DrawTileOf | server/stores/gameStore.js:129-142 | null, with nothing changed, for an unknown game, an unknown player or an empty pool; otherwise the stored game is the drawn one |
| GameStore.GameRegistry.UpdatePlayerTilesOf | server/stores/gameStore.js:144-153 | null, with nothing changed, for an unknown game or player; otherwise that seat's hand is replaced |
| GameStore.GameRegistry.UpdateTableSetsOf | server/stores/gameStore.js:155-161 | null for an unknown game; otherwise the table is replaced |
| GameStore.GameRegistry.SetPlayerInitialMeldOf | server/stores/gameStore.js:163-172 | the stored game becomes `SetPlayerInitialMeld` of it |
| GameStore.GameRegistry.SetGameWinnerOf | server/stores/gameStore.js:174-188 | the stored game becomes `SetGameWinner` of it |
| GameStore.GameRegistry.SetPlayerDisconnectedOf | server/stores/gameStore.js:190-200 | the stored game becomes `SetPlayerDisconnected` of it |
| GameStore.GameRegistry.SetPlayerReconnectedOf | server/stores/gameStore.js:202-212 | the stored game becomes `SetPlayerReconnected` of it |
| GameStore.GameRegistry.ReplacePlayerWithBotOf | server/stores/gameStore.js:214-227 | the stored game becomes `ReplacePlayerWithBot` of it |
| GameStore.GameRegistry.PauseGameOf | server/stores/gameStore.js:229-239 | the stored game is paused |
| GameStore.GameRegistry.ResumeGameOf | server/stores/gameStore.js:241-247 | the stored game is in progress |
| GameStore.GameRegistry.AddSpectatorToGameOf | server/stores/gameStore.js:249-257 | the stored game becomes `AddSpectatorToGame` of it |
| GameStore.GameRegistry.RemoveSpectatorFromGameOf | server/stores/gameStore.js:259-268 | the stored game becomes `RemoveSpectatorFromGame` of it |
| GameStore.GameRegistry.CalculateFinalScores | server/stores/gameStore.js:270-293 | null for an unknown game; otherwise `FinalScores` of it, sorted by penalty, with one row per player |
| LobbyStore.PlayerIndex | server/stores/lobbyStore.js:78 | the first seat with that socket, or -1 exactly when no seat has it |
| LobbyStore.BotIndex | server/stores/lobbyStore.js:186 | the first seat that is a bot with that socket, or -1 exactly when there is none |
| LobbyStore.SpectatorIndex | server/stores/lobbyStore.js:115 | the first spectator with that socket, or -1 exactly when there is none |
| LobbyStore.Humans | server/stores/lobbyStore.js:85 | the human seats, and only those |
| LobbyStore.PublicLobbies | server/stores/lobbyStore.js:39-43 | every listed lobby is public with no game running, and every such lobby is listed |
| LobbyStore.AddSeatUnique | server/stores/lobbyStore.js:58-61 | the duplicate test keeps seats unique by socket and by name |
| LobbyStore.BotNameRepeats | server/stores/lobbyStore.js:167-168 | bot names count the bots seated, so after an earlier bot leaves, the next bot repeats the last bot's name |
| LobbyStore.RemoveSeat | server/stores/lobbyStore.js:78-96 | the removed seat is returned and spliced out; when the host leaves, the first remaining human becomes host; with no human left the lobby is marked deleted; nothing else changes |
| LobbyStore.FirstHuman | server/stores/lobbyStore.js:85-88 | the new host is the first human seat in seating order |
| LobbyStore.HumansSpliceBot | server/stores/lobbyStore.js:189 | removing a bot leaves the humans, in order, untouched |
| LobbyStore.LobbyRegistry.constructor | server/stores/lobbyStore.js:5 | the store starts empty |
| LobbyStore.LobbyRegistry.CreateLobby | server/stores/lobbyStore.js:7-29 | the new lobby has the host as its only player, ready and human; default rules, no spectators, no game; it is stored under its id |
| LobbyStore.LobbyRegistry.GetLobby | server/stores/lobbyStore.js:31-33 | a lobby is found exactly when its id is stored |
| LobbyStore.LobbyRegistry.DeleteLobby | server/stores/lobbyStore.js:35-37 | the lobby is removed, and the result says whether it was there |
| LobbyStore.LobbyRegistry.GetPublicLobbies | server/stores/lobbyStore.js:39-43 | public lobbies with no game running, in insertion order |
| LobbyStore.LobbyRegistry.AddPlayerToLobby | server/stores/lobbyStore.js:49-72 | refused, with nothing changed, for an unknown lobby, a full one, or a socket or name already seated; otherwise exactly one player is appended, ready exactly when a bot |
| LobbyStore.LobbyRegistry.RemovePlayerFromLobby | server/stores/lobbyStore.js:74-97 | null when the lobby or the player is missing; otherwise the result is `RemoveSeat`, and a lobby left without humans is deleted from the store |
| LobbyStore.LobbyRegistry.AddSpectatorToLobby | server/stores/lobbyStore.js:99-109 | null, with nothing changed, for an unknown lobby or a socket already watching; otherwise the spectator is appended |
| LobbyStore.LobbyRegistry.RemoveSpectatorFromLobby | server/stores/lobbyStore.js:111-120 | the first spectator with that socket is dropped, if there is one |
| LobbyStore.LobbyRegistry.UpdateLobbyRules | server/stores/lobbyStore.js:122-128 | the lobby's rules become `{ ...lobby.rules, ...rules }` |
| LobbyStore.LobbyRegistry.SetLobbyVisibility | server/stores/lobbyStore.js:130-136 | only the visibility flag changes |
| LobbyStore.LobbyRegistry.SetLobbyGameInProgress | server/stores/lobbyStore.js:138-145 | the game id is recorded, and the lobby leaves the public list |
| LobbyStore.LobbyRegistry.GetLobbyByPlayer | server/stores/lobbyStore.js:147-157 | the first lobby, in insertion order, seating the socket as a player or a spectator; null exactly when none does |
| LobbyStore.LobbyRegistry.AddBotToLobby | server/stores/lobbyStore.js:159-180 | refused for a missing or full lobby; otherwise a ready bot named "Bot n (difficulty)" is appended, where n is one more than the bots already seated |
| LobbyStore.LobbyRegistry.RemoveBotFromLobby | server/stores/lobbyStore.js:182-191 | only a bot's seat is vacated; a human's socket gives null and nothing changes |
| UserStore.Assign | server/stores/userStore.js:69-76 | `Object.assign`: each field given in the update is taken over and each other field is kept; the socket and the name never change |
| UserStore.Listed | server/stores/userStore.js:78-84 | the users listed are exactly the stored ones, or exactly the connected ones when only online users are asked for |
| UserStore.StaleKeys | server/stores/userStore.js:122-133 | the collected ids are exactly the stored users disconnected more than five minutes ago with no game, each once |
| UserStore.RemovedUsersSpec | server/stores/userStore.js:135-138 | removing the collected ids one by one removes exactly those ids |
| UserStore.CleanupRemovesStale | server/stores/userStore.js:120-141 | cleanup removes exactly the users disconnected more than five minutes ago with no game, counts them, and keeps every other user unchanged |
| UserStore.UserStore.constructor | server/stores/userStore.js:4-5 | the store and the name index start empty |
| UserStore.UserStore.AddUser | server/stores/userStore.js:7-20 | the new user is connected, in no lobby or game, stored under its socket, and reachable and taken under its lowercased name |
| UserStore.UserStore.RemoveUser | server/stores/userStore.js:22-29 | null, with nothing changed, for an unknown socket; otherwise the user and the index entry of its lowercased name go, and the user is returned |
| UserStore.UserStore.GetUser | server/stores/userStore.js:31-33 | a user is found exactly when its socket is stored |
| UserStore.UserStore.GetUserByUsername | server/stores/userStore.js:35-38 | found through the index of lowercased names, whatever the case of the name; null for an unknown name |
| UserStore.UserStore.IsUsernameTaken | server/stores/userStore.js:43-56 | a name is taken exactly when it leads to a user who is not disconnected |
| UserStore.UserStore.GetDisconnectedUser | server/stores/userStore.js:58-67 | the user of that name, exactly when that user is disconnected |
| UserStore.UserStore.NameIgnoresCase | server/stores/userStore.js:35-67 | names that differ only in the case of letters find the same user and are taken together |
| UserStore.UserStore.UpdateUser | server/stores/userStore.js:69-76 | null, with nothing changed, for an unknown socket; otherwise the stored user becomes `Assign(user, updates)` |
| UserStore.UserStore.GetAllUsers | server/stores/userStore.js:78-80 | every stored user, in insertion order |
| UserStore.UserStore.GetOnlineUsers | server/stores/userStore.js:82-84 | exactly the users not disconnected, in insertion order |
| UserStore.UserStore.SetUserDisconnected | server/stores/userStore.js:86-93 | the clock is recorded; a user disconnected at a non-zero time no longer holds its name and is found as disconnected |
| UserStore.UserStore.SetUserReconnected | server/stores/userStore.js:95-102 | the disconnection time is cleared; null for an unknown socket |
| UserStore.UserStore.TransferUser | server/stores/userStore.js:105-116 | the record moves from the old socket to the new one, is marked connected, and its lowercased name leads to the new socket; in the iteration order the old socket goes and the new one is appended, unless it was already a key and keeps its place |
| UserStore.UserStore.CollectStale | server/stores/userStore.js:124-133 | the first loop collects `StaleKeys` in iteration order |
| UserStore.UserStore.RemoveEach | server/stores/userStore.js:135-138 | the second loop leaves the users and the index as removing the ids in turn would, and the iteration order is the old one with exactly those ids left out |
| UserStore.ExcludingStep | server/stores/userStore.js:22-29 | deleting one more key from the Map drops exactly that key from what is left of the iteration order, the rest keeping their order |
| UserStore.UserStore.CleanupDisconnectedUsers | server/stores/userStore.js:122-141 | the count returned is the number of stale users, exactly they are gone, and the iteration order is the old one without them |
| ChatStore.NewMessage | server/stores/chatStore.js:14-23 | the text kept is the first `MAX_MESSAGE_LENGTH` characters of the text sent, or all of it when short enough; the id is the clock in decimal, the timestamp the clock, and the sender and type are those given |
| ChatStore.Kept | server/stores/chatStore.js:25-30 | the new message is last; the history grows by one or, once over the limit, also loses its oldest message |
| ChatStore.PostedKeepsNewest | common/constants.js:37 | however many messages are posted to a room, its history is exactly the newest `CHAT_HISTORY_LENGTH` of them, oldest first |
| ChatStore.FormatTileInjective | server/stores/chatStore.js:56-65 | different tiles are written differently: the colour and the number can be read back |
| ChatStore.KeysOfSpec | server/stores/chatStore.js:74-82 | the groups of a long list are keyed once per colour present, plus once for the jokers, in first-seen order |
| ChatStore.FormatTileListGroups | server/stores/chatStore.js:68-92 | no tiles give the empty text; one to four tiles are written each by `formatTile`, in order, joined by spaces; a longer list is written one group per key, each key present once, and a colour's group lists all that colour's numbers in ascending order |
| ChatStore.GroupsCoverList | server/stores/chatStore.js:74-79 | each tile of a long list is counted in exactly one group |
| ChatStore.ChatStore.constructor | server/stores/chatStore.js:5 | no room has any history yet |
| ChatStore.ChatStore.History | server/stores/chatStore.js:35-37 | an unknown room has an empty history |
| ChatStore.ChatStore.AddMessage | server/stores/chatStore.js:7-33 | the room, created when missing, becomes `Kept(history, message)`; no other room changes; no room exceeds the limit |
| ChatStore.ChatStore.ClearHistory | server/stores/chatStore.js:39-41 | the room's history is gone and no other room changes |
| ChatStore.ChatStore.AddActionMessage | server/stores/chatStore.js:94-137 | the action's text, chosen as the switch chooses it, is posted as an 'action' message |
| ChatStore.ChatStore.AddActionMessageWithTile | server/stores/chatStore.js:140-165 | the personal message names the drawn tile for a draw or a timeout; its id is the clock followed by "-personal"; no history changes |
| GameHandler.TableIdsDifferIff | server/handlers/gameHandler.js:393-402 | the three-part test of a modified table holds exactly when the id sets at turn start and at turn end differ |
| GameHandler.DuplicatesEmptyIff | server/handlers/gameHandler.js:460-480 | the scan reports nothing exactly when no id occurs twice across hand and table |
| GameHandler.NewSets | server/handlers/gameHandler.js:516-522 | the sets kept are exactly the submitted sets holding a tile that was not on the table at turn start |
| GameHandler.FindDuplicateIds | server/handlers/gameHandler.js:460-480 | the loops over the hand and then the table report `Duplicates` of that order, which is empty exactly when the ids are distinct |
| GameHandler.CheckEndTurn | server/handlers/gameHandler.js:386-536 | the checks run as in processEndTurn (joker custody, no empty turn, table shape, set shapes, duplicates, set legality, initial meld) and give `EndTurnVerdict` |
| GameHandler.JokerCustody | server/handlers/gameHandler.js:406-426 | taking a joker that lay on the table into the hand is refused and the turn is rolled back |
| GameHandler.NoNullTurn | server/handlers/gameHandler.js:428-435 | ending a turn without a change while the pool has tiles is refused, and nothing is rolled back |
| GameHandler.RefusalsRollBack | server/handlers/gameHandler.js:406-536 | each refusal leaves the game as it was or rolls it back to the turn start; a missing table is refused without a roll back although the reply says `reverted` |
| GameHandler.InvalidTableAlwaysCounted | server/handlers/gameHandler.js:503-510 | the "unknown error" text for an invalid table can never be produced |
| GameHandler.AcceptedTurnIsLegal | server/handlers/gameHandler.js:460-536 | an accepted turn leaves only legal sets on the table and no id twice across hand and table; a first meld reaches the required points |
| GameHandler.CommitTurnSpec | server/handlers/gameHandler.js:538-603 | committing puts the table and the hand in place; an empty hand wins the game for that seat; otherwise the turn passes |
| GameHandler.AcceptedTurnCommits | server/handlers/gameHandler.js:379-604 | after an accepted turn, the submitted table and hand are in place; an empty hand wins |
| GameHandler.EndTurnCases | server/handlers/gameHandler.js:379-604 | processEndTurn, one verdict at a time: each refusal and its roll back, or the commit |
| GameHandler.ProcessEndTurn | server/handlers/gameHandler.js:379-604 | the store changes only through its own operations, in the source's order, and ends as `EndTurn` says |
| GameHandler.ScanTiles | server/handlers/gameHandler.js:465-479 | the scan over one list of tiles adds to the duplicates found so far exactly the ids `Duplicates` reports for that list before the rest, given the ids seen so far |
| GameHandler.RejectTurnOf | server/handlers/gameHandler.js:412-530 | a refused end of turn rolls the game back to the turn start when the check says so, and leaves it as it was otherwise |
| GameHandler.AcceptTurnOf | server/handlers/gameHandler.js:534-603 | an accepted end of turn sets the meld flag when the play is the initial meld, then commits as `CommitTurn` says |
| GameHandler.CommitTurnOf | server/handlers/gameHandler.js:539-603 | the commit stores the submitted table and hand and then ends the game or passes the turn, as `CommitTurn` says |
| GameHandler.StoreTableAndHand | server/handlers/gameHandler.js:539-540 | the table becomes the submitted sets and the player's hand the submitted tiles |
| GameHandler.FinishTurnOf | server/handlers/gameHandler.js:594-603 | an empty hand ends the game with that player as winner and answers that the game ended; otherwise the turn passes on |
| GameHandler.EndTurnHandler | server/handlers/gameHandler.js:122-140 | a socket with no game, an unknown game or a player not on turn is refused with nothing changed; otherwise processEndTurn runs |
| GameHandler.FewestTiles | server/handlers/gameHandler.js:626-628 | the stalemate winner holds the fewest tiles, and is the first seat with that count |
| GameHandler.EndGameSpec | server/handlers/gameHandler.js:712-733 | hands, table and pool are unchanged; the game finishes with the given winner when that winner is seated |
| GameHandler.AdvanceToNextTurn | server/handlers/gameHandler.js:606-650 | hands, table and pool are unchanged; the game either stays in its state or finishes |
| GameHandler.StalemateStep | server/handlers/gameHandler.js:614-631 | once the tile sum is recorded, an idle turn raises the count, and at a full round the game ends |
| GameHandler.StalemateAfterRound | server/handlers/gameHandler.js:613-637 | with an empty pool and nobody playing, the game runs for `players.length - 1` more turns and finishes on the next, won by the first player holding the fewest tiles |
| GameHandler.AdvanceWithPool | server/handlers/gameHandler.js:614 | with tiles in the pool, the stalemate fields are left alone and the turn simply passes |
| GameHandler.StalemateResets | server/handlers/gameHandler.js:632-636 | a change in the tile sum restarts the count |
| GameHandler.AdvanceToNextTurnOf | server/handlers/gameHandler.js:606-639 | the stored game becomes `AdvanceToNextTurn` of it |
| GameHandler.DrawTurnSpec | server/handlers/gameHandler.js:159-192 | with an empty pool the turn passes; a hand smaller than at turn start is refused; otherwise the last pool tile goes to the drawing seat and the turn passes; "Could not draw tile" never happens |
| GameHandler.DrawHandler | server/handlers/gameHandler.js:143-193 | the draw event refuses a socket with no game, an unknown game or a player not on turn; otherwise the store ends as `DrawTurn` says |
| GameHandler.TimeoutDrawsOne | server/handlers/gameHandler.js:668-692 | a timeout with tiles in the pool rolls the turn back and leaves the player with exactly one more tile than at turn start |
| GameHandler.KickSkipsTurnAsWritten | server/handlers/gameHandler.js:294-305 | as written, kicking a player seated before the player on turn hands the turn to someone else |
| GameHandler.KickedIndexSpec | server/handlers/gameHandler.js:302-305 | the corrected index names the same player after the splice, or the next seat when the player on turn left |
| GameHandler.KickKeepsTurn | server/handlers/gameHandler.js:292-309 | with the correction, kicking one of three or more players keeps the turn with the same player, or passes it to the next seat when the kicked player was on turn |
| GameHandler.OnlyHostDecides | server/handlers/gameHandler.js:286-290 | anyone but the lobby's host is refused, and nothing changes |
| GameHandler.BotTakeoverSpec | server/handlers/gameHandler.js:310-331 | the seat is handed to a bot (medium when no difficulty is given), keeps its tiles, and a paused game resumes |
| GameHandler.HandleDisconnectedPlayer | server/handlers/gameHandler.js:278-333 | an unknown game is refused; otherwise the game becomes what `HostDecision` says (a kick recomputing the turn index as the code does, `KickPlayerAsWritten`) and no other game changes |
| GameHandler.PlayerDisconnectOf | server/handlers/gameHandler.js:775-795 | a socket with no running game changes nothing; otherwise the seat is marked disconnected and the game pauses if it was that player's turn |
| GameHandler.ReconnectResumesForOthersAsWritten | server/handlers/gameHandler.js:838-842 | as written, a player not on turn who reconnects resumes a game paused for the player on turn, who is still away |
| GameHandler.ReconnectResumesOnlyForTurn | server/handlers/gameHandler.js:823-842 | with the correction, a game never runs while the player on turn is disconnected, and it resumes once that player is back |
| GameHandler.DisconnectReconnect | server/handlers/gameHandler.js:775-842 | with the reconnect as written, a game paused when the player on turn disconnects runs again after that player reconnects, with the seat connected under the new socket and the hands untouched |
| GameHandler.PlayerReconnectOf | server/handlers/gameHandler.js:810-842 | the game of the user becomes `PlayerReconnectAsWritten`: the seat of the old socket takes the new socket, and a paused game resumes whichever player reconnected; no other game changes |
| BotSets.FindFirst | server/bot/strategies/EasyStrategy.js:366-368 | `find`/`findIndex`: the first tile satisfying the test, or none exactly when no tile does |
| BotSets.RemoveIdIsSplice | server/bot/strategies/EasyStrategy.js:372-373 | with the hand's ids distinct, removing a tile by id is splicing out its position |
| BotSets.SpliceBag | server/bot/strategies/EasyStrategy.js:55 | splicing out one tile removes exactly one copy of its id from the hand |
| BotSets.SortByNumber | server/bot/strategies/EasyStrategy.js:211-213 | sorting by number keeps the same tiles |
| BotSets.SortByNumberAscending | server/bot/strategies/EasyStrategy.js:213 | the sorted tiles ascend by number |
| BotSets.FirstOccurrences | server/bot/strategies/EasyStrategy.js:139-145 | the keys of an object filled in order are the distinct values, each once, and no other |
| BotSets.FirstOccurrencesOrder | server/bot/strategies/EasyStrategy.js:139-145 | those keys come in the order of their first occurrence, as `Object.keys` lists them |
| BotSets.NumberKeysSpec | server/bot/strategies/EasyStrategy.js:124-134 | the keys of `byNumber` are exactly the numbers of the non-jokers: the array-index numbers first in ascending order, then the others, as `for (const number in byNumber)` visits them |
| BotSets.OfNumber | server/bot/strategies/EasyStrategy.js:126-132 | `byNumber[n]` holds exactly the non-jokers numbered `n`, in hand order |
| BotSets.ColorKeys | server/bot/strategies/EasyStrategy.js:136-145 | `Object.keys(byColor)` lists every colour of the tiles, each once, and no other colour |
| BotSets.FirstOfColor | server/bot/strategies/EasyStrategy.js:159 | `byColor[c][0]` is a non-joker of colour `c` from the tiles |
| BotSets.UniqueByNumber | server/bot/strategies/EasyStrategy.js:215-225 | the `seenNumbers` loop keeps tiles of the list whose numbers were not seen, no two with the same number |
| BotSets.UniqueByNumberComplete | server/bot/strategies/EasyStrategy.js:215-225 | the numbers kept are exactly the numbers of the list not seen before |
| BotSets.UniqueByNumberFirst | server/bot/strategies/EasyStrategy.js:217-221 | each tile kept is the first tile of the list with its number |
| BotSets.UniqueByNumberAscending | server/bot/strategies/EasyStrategy.js:211-225 | on a list sorted by number, the kept numbers strictly ascend |
| BotSets.SliceRunsShape | server/bot/strategies/EasyStrategy.js:227-245 | every run the two slice loops keep has at least 3 tiles, is consecutive, passes isValidSet, and is a contiguous piece of the unique tiles |
| BotSets.GenerateCombinationsSound | server/bot/strategies/EasyStrategy.js:299-324 | every combination emitted is non-empty, lists candidates in candidate order, and no two of its sets share a tile id |
| BotSets.GenerateCombinationsComplete | server/bot/strategies/EasyStrategy.js:299-324 | every non-empty choice of candidates in candidate order that share no tile id is emitted |
| BotSets.LaidOutValid | server/bot/strategies/EasyStrategy.js:336-361 | a run kept in ascending positions, with at least one non-joker, passes isValidRun |
| BotSets.GroupGrowsValid | server/bot/strategies/EasyStrategy.js:392-406 | a group of fewer than 4 tiles stays a group when a tile of its number in an unused colour joins it |
| Candidates.JokerlessGroupValid | server/bot/strategies/MediumStrategy.js:144-150 | three or four non-jokers of one number in distinct colours form a valid set |
| Candidates.ColorChoicesSound | server/bot/strategies/EasyStrategy.js:190-203 | every colour choice generateGroupCombinations completes picks `size` colours in the order they are listed |
| Candidates.ColorChoicesComplete | server/bot/strategies/EasyStrategy.js:190-203 | every such pick of colours is completed |
| Candidates.TilesForColors | server/bot/strategies/EasyStrategy.js:192 | the group built from a colour choice carries exactly those colours |
| Candidates.GroupsOfChoices | server/bot/strategies/EasyStrategy.js:191-196 | one group per completed choice, its tiles the first of each chosen colour |
| Candidates.PairGroups | server/bot/strategies/EasyStrategy.js:157-175 | every group of two colours and one or two jokers pushed is valid and made of the hand's tiles |
| Candidates.JokerGroups | server/bot/strategies/EasyStrategy.js:156-184 | every joker group the Easy bot pushes is valid and made of the hand's tiles |
| Candidates.FullGroups | server/bot/strategies/EasyStrategy.js:147-154 | every group of 3 or 4 colours is a valid joker-free group of the number |
| Candidates.GroupsForKeys | server/bot/strategies/EasyStrategy.js:134-185 | every group found is valid and made of the hand's tiles; the Medium bot only finds joker-free groups (MediumStrategy.js:132-151) |
| Candidates.UniqueOfColor | server/bot/strategies/EasyStrategy.js:211-225 | the unique tiles of a colour are non-jokers of that colour from the hand, strictly ascending by number, so one per number |
| Candidates.UniqueOfColorSpec | server/bot/strategies/EasyStrategy.js:211-225 | every number the colour has in the hand is kept, and each tile kept is the first of its number in the colour's tiles sorted by number |
| Candidates.GapRunsFrom | server/bot/strategies/EasyStrategy.js:247-276 | every run with a joker in a gap of two, or before or after a consecutive pair, is valid and made of the hand's tiles |
| Candidates.SingleRuns | server/bot/strategies/EasyStrategy.js:278-293 | every `1 J J`, `J J 13` or `J x J` run pushed is valid and made of the hand's tiles |
| Candidates.RunsOfColor | server/bot/strategies/EasyStrategy.js:210-294 | every run of a colour is valid and made of the hand's tiles; the Medium bot only finds joker-free consecutive runs (MediumStrategy.js:175-209) |
| Candidates.SlicesJokerless | server/bot/strategies/MediumStrategy.js:190-208 | the slice runs are joker-free, consecutive, valid and of the colour |
| Candidates.FindAllRuns | server/bot/strategies/EasyStrategy.js:205-297 | every run found, colour by colour in the order of TILE_COLORS, is a valid set of the hand's tiles; for the medium bot, a jokerless run of one colour |
| Candidates.CandidateSets | server/bot/strategies/EasyStrategy.js:110-113 | every candidate, groups first and then runs, is valid and made of the hand's tiles |
| Candidates.PossibleSetsSound | server/bot/strategies/EasyStrategy.js:106-119 | each combination is a non-empty list of candidates that share no tile id, each accepted by isValidSet and made of the hand's tiles |
| Extension.SpliceOutIdSpec | server/bot/strategies/EasyStrategy.js:372-373 | `splice(findIndex(..), 1)` takes out the first tile with the id; with no such tile the index is -1 and `splice(-1, 1)` drops the last tile |
| Extension.TryExtendSets | server/bot/strategies/EasyStrategy.js:326-415 | the loop over the table's sets computes `ExtendAll(tableSets, tiles)`, each set extended from the hand as it then is (also MediumStrategy.js:241-332 and the set loop of HardStrategy.js:88-174) |
| Extension.AnchorIsFirstRegular | server/bot/strategies/EasyStrategy.js:343-352 | the anchor search finds the first non-joker, and finds none exactly when the set is all jokers |
| Extension.ExtendOneConserves | server/bot/strategies/EasyStrategy.js:363-406 | every id the step takes from the hand goes into the set, and `tilesPlayed` counts the tiles the hand lost |
| Extension.ExtendAllConserves | server/bot/strategies/EasyStrategy.js:326-415 | a pass keeps the ids of hand and table together, and its count is the number of tiles moved |
| Extension.ExtendAllIdle | server/bot/strategies/EasyStrategy.js:410-414 | a pass that moves nothing leaves the table and the hand as they were |
| Extension.ExtendOneShrinks | server/bot/strategies/EasyStrategy.js:370-405 | each tile a step places costs the hand at least one tile |
| Extension.ExtendAllShrinks | server/bot/strategies/EasyStrategy.js:326-415 | each tile a pass places costs the hand at least one tile |
| Extension.ExtendRunParts | server/bot/strategies/EasyStrategy.js:363-391 | a run gains at most one tile before it, numbered `startNum - 1` (at least 1), and at most one after it, numbered `endNum + 1` (at most 13), both of its colour and from the hand |
| Extension.ExtendOneRunShape | server/bot/strategies/EasyStrategy.js:335-391 | with `startNum` read off the first non-joker's position, a run grows only at its ends, in its colour, from the hand |
| Extension.ExtendOneGroupShape | server/bot/strategies/EasyStrategy.js:392-406 | a group of fewer than four tiles gains nothing, or one tile of its number in a colour it lacks |
| Extension.ExtendOneIdle | server/bot/strategies/EasyStrategy.js:333-339 | invalid sets, all-joker sets and groups of four are left as they are |
| Extension.ExtendOneValid | server/bot/strategies/EasyStrategy.js:335-406 | extending a set whose run tiles sit at the positions of their numbers gives a set of the same kind that stays valid |
| Extension.ExtendAllValid | server/bot/strategies/EasyStrategy.js:331-408 | a pass over a table of such sets leaves only such sets |
| Extension.UnorderedRunBreaks | server/bot/strategies/EasyStrategy.js:336-391 | reading numbers off positions goes wrong for a run not laid out in order: red 5, 4, 6 passes the run check, is read as 5-6-7, and a red 8 added to it makes an invalid set |
| PlanStrategy.SortBySize | server/bot/strategies/EasyStrategy.js:28-33 | sorting the combinations keeps the same combinations |
| PlanStrategy.SortBySizeOrdered | server/bot/strategies/EasyStrategy.js:28-33 | the sort puts combinations with more tiles first |
| PlanStrategy.SortBySizeStable | server/bot/strategies/EasyStrategy.js:28-33 | combinations of the same size keep the order findAllPossibleSets gave them |
| PlanStrategy.TakeAllIff | server/bot/strategies/EasyStrategy.js:48-57 | a set's tiles can all be spliced out of the hand exactly when the hand holds their ids; the ids then leave the hand |
| PlanStrategy.PlaceComboIff | server/bot/strategies/EasyStrategy.js:35-63 | a combination can be laid exactly when all its sets are valid and the hand holds all its ids; the ids then move from the hand to the table |
| PlanStrategy.FirstIndex | server/bot/strategies/EasyStrategy.js:35-81 | the loop stops at the first combination that passes, and none passes before it |
| PlanStrategy.TryCombination | server/bot/strategies/EasyStrategy.js:36-63 | the check of one combination succeeds exactly when `PlaceCombo` does, and then gives its hand, the table with the sets pushed, and the tile count |
| PlanStrategy.TakeTiles | server/bot/strategies/EasyStrategy.js:49-57 | splicing a set's tiles out of the hand one by one by id succeeds exactly when `TakeAll` does, and then leaves the hand `TakeAll` gives |
| PlanStrategy.ExtendTable | server/bot/strategies/EasyStrategy.js:16-23 | one tryExtendSets pass, kept only when it placed a tile |
| PlanStrategy.LayBestCombination | server/bot/strategies/EasyStrategy.js:35-81 | the loop over the sorted combinations gives `AfterChoice`, and the meld flag is set exactly when a combination was laid before the initial meld |
| PlanStrategy.PlayTurn | server/bot/strategies/EasyStrategy.js:7-104 | `play`, step by step, gives `Plan` (also MediumStrategy.js:6-103) |
| PlanStrategy.PlacedCount | server/bot/strategies/EasyStrategy.js:93 | a combination that can be laid and is not empty places at least three tiles |
| PlanStrategy.ChosenIsCandidate | server/bot/strategies/EasyStrategy.js:25-35 | the combination laid is one findAllPossibleSets offered: non-empty, its sets disjoint and from the hand |
| PlanStrategy.AfterChoiceCount | server/bot/strategies/EasyStrategy.js:35-81 | without a choice the loop changes nothing; with one it places at least one tile |
| PlanStrategy.PlanDrawIff | server/bot/strategies/EasyStrategy.js:93-103 | the bot draws exactly when the first extension placed nothing and no combination was acceptable |
| PlanStrategy.PlanBeforeMeld | server/bot/strategies/EasyStrategy.js:65-74 | before the initial meld nothing is extended: the table only gains the combination, and it is worth the meld |
| PlanStrategy.PlanMeldFlag | server/bot/strategies/EasyStrategy.js:66-99 | a play reports the initial meld exactly when the meld was not down before |
| PlanStrategy.PlanLaysLargest | server/bot/strategies/EasyStrategy.js:25-81 | the combination laid has as many tiles as any acceptable candidate |
| PlanStrategy.PlanConserves | server/bot/strategies/EasyStrategy.js:7-104 | with the corrected hand, a turn moves tiles from the hand to the table and nothing else: the ids of hand and table together are unchanged, and the hand shrinks by the count reported |
| PlanStrategy.SourcesAgree | server/bot/strategies/EasyStrategy.js:36 | before the initial meld, and whenever the first extension placed nothing, the hand as written and the corrected hand give the same plan |
| PlanStrategy.AsWrittenDuplicates | server/bot/strategies/EasyStrategy.js:36 | as written, once the first extension placed `n` tiles and a combination is laid, the turn ends with `n` more tiles on table and hand together than it started with |
| PlanExample.AsWrittenExample | server/bot/strategies/MediumStrategy.js:35 | with red 5-6-7 on the table and red 4 and blue 1-2-3 in hand, the turn as written ends with eight tiles where there were seven: red 4 is on the table and back in the hand |
| HardSimple.ExtendExistingSets | server/bot/strategies/HardStrategy.js:88-173 | the `while (changed)` loop, step by step, ends where `ExtendExisting` does |
| HardSimple.ExhaustStep | server/bot/strategies/HardStrategy.js:95-170 | one turn of the loop: a pass that lays nothing ends it, a pass that lays a tile leaves a shorter hand and the loop goes on from there |
| HardSimple.ExhaustSettled | server/bot/strategies/HardStrategy.js:95-170 | the loop ends settled: one more pass over what it leaves lays nothing, and the played count only grows |
| HardSimple.ExhaustMoves | server/bot/strategies/HardStrategy.js:95-170 | with the hand's ids distinct, the loop only moves tiles: the ids of table and hand together are kept, and the tiles counted are the tiles the hand lost |
| HardSimple.ExhaustValid | server/bot/strategies/HardStrategy.js:95-170 | a table of well-laid sets stays well laid however many passes run |
| HardSimple.ExtendExistingMoves | server/bot/strategies/HardStrategy.js:88-173 | extendExistingSets only moves tiles, and stops only when no set can take another tile of the hand |
| HardSimple.UniqueGroup | server/bot/strategies/HardStrategy.js:651-659 | the first tile of each colour among the tiles of one number, when there are three or more, cut to four, is a valid jokerless group of distinct hand tiles |
| HardSimple.GroupOfNumberSound | server/bot/strategies/HardStrategy.js:648-660 | every group findAllPossibleSets pushes for a number is a jokerless group of that number made of hand tiles |
| HardSimple.DistinctColorsBound | server/bot/strategies/HardStrategy.js:657 | there are four colours, so no more than four tiles have pairwise distinct colours |
| HardSimple.RunEnd | server/bot/strategies/HardStrategy.js:679-686 | the inner loop stops at the first tile not numbered one above the one before it, or at the end |
| HardSimple.LongestRunsShape | server/bot/strategies/HardStrategy.js:677-691 | every run cut is at least three tiles numbered one apart and a stretch of the de-duplicated tiles that stops only where the numbering breaks |
| HardSimple.HardRunsOfColorSound | server/bot/strategies/HardStrategy.js:663-692 | every run found for a colour is a jokerless run of that colour made of distinct hand tiles |
| HardSimple.ConsecutiveDistinct | server/bot/strategies/HardStrategy.js:679-686 | numbers that rise by one from tile to tile never repeat, so a run's tiles are distinct |
| HardSimple.HardPossibleSetsSound | server/bot/strategies/HardStrategy.js:637-695 | every candidate is three or four tiles of one number in distinct colours, or three or more tiles of one colour numbered one apart; never a joker, and distinct tiles of the hand |
| HardSimple.PossibleSetsDistinct | server/bot/strategies/HardStrategy.js:637-695 | from a hand with distinct ids every candidate has distinct ids |
| HardSimple.RemoveIdsMoves | server/bot/strategies/HardStrategy.js:190-193 | filtering out the ids of a set whose ids are distinct and all in the hand moves exactly those ids out of the hand |
| HardSimple.RemoveIdsConcat | server/bot/strategies/HardStrategy.js:190-193 | filtering out the ids of one set and then of another is filtering out those of both |
| HardSimple.RemoveSetTiles | server/bot/strategies/HardStrategy.js:190-193 | the `for (const tile of set)` loop leaves the hand without the set's ids |
| HardSimple.PlayNewShape | server/bot/strategies/HardStrategy.js:183-195 | playNewSetsFromHand keeps the table's sets and appends candidates that isValidSet accepts |
| HardSimple.LayEachStep | server/bot/strategies/HardStrategy.js:185-194 | a candidate is laid when all its ids are still in the hand and isValidSet accepts it, and is skipped otherwise |
| HardSimple.LayEachLays | server/bot/strategies/HardStrategy.js:183-195 | the loop lays some candidates and only those: the table grows by them, the hand loses their ids, the count grows by their tiles, and they are hand tiles with no id twice |
| HardSimple.PlayNewMoves | server/bot/strategies/HardStrategy.js:175-198 | playNewSetsFromHand only moves tiles: the ids of table and hand together are kept, and the count is the number of tiles the hand lost |
| HardSimple.LayCandidates | server/bot/strategies/HardStrategy.js:183-195 | the candidate loop, step by step, gives `PlayNew` |
| HardSimple.PlayNewSetsFromHand | server/bot/strategies/HardStrategy.js:175-198 | playNewSetsFromHand gives `PlayNew` over Hard's candidates |
| HardSimple.TrySimplePlays | server/bot/strategies/HardStrategy.js:64-86 | trySimplePlays gives `SimplePlays`: the extensions when they laid a tile, then new sets when they laid one |
| HardSimple.SimplePlaysMoves | server/bot/strategies/HardStrategy.js:64-86 | trySimplePlays only moves tiles from a hand with distinct ids to the table, and reports the number the hand lost |
| HardManip.MatchesFromSound | server/bot/strategies/HardStrategy.js:602-624 | every tile findMatchingTilesOnTable reports lies in a set other than the one skipped, is no joker, has the number asked, a colour not excluded, and leaves its set a valid set of at least three |
| HardManip.CombineMatchesFit | server/bot/strategies/HardStrategy.js:536-553 | every match tryCombineSets collects is a numbered tile of its set, and what it says the set keeps is that set without the tile |
| HardManip.SelectShape | server/bot/strategies/HardStrategy.js:556-567 | the selection keeps what was selected, adds matches only, stops at two, and with the one-per-set rule never takes two matches from one set |
| HardManip.RemoveIdSubsequence | server/bot/strategies/HardStrategy.js:625-636 | filtering one id out keeps a list a subsequence of the hand |
| HardManip.TakeRunEndSound | server/bot/strategies/HardStrategy.js:238-360 | tryTakeRunEnd, when it answers, leaves a valid table, moves only hand tiles to the table with the count it reports, plays at least one, leaves a filter of the hand and never takes a joker out of it |
| HardManip.TakeFromGroupSound | server/bot/strategies/HardStrategy.js:361-451 | tryTakeFromGroup, when it answers, is sound in the same sense |
| HardManip.SplitRunSound | server/bot/strategies/HardStrategy.js:452-530 | trySplitRun, when it answers, is sound in the same sense |
| HardManip.CombineSetsSound | server/bot/strategies/HardStrategy.js:531-599 | tryCombineSets with at most one tile taken from each set, when it answers, is sound in the same sense |
| HardManip.CombineBag | server/bot/strategies/HardStrategy.js:569-590 | the table tryCombineSets builds from two matches out of two sets holds the old table's ids plus the hand tile's |
| HardManip.OrElseSound | server/bot/strategies/HardStrategy.js:238-360 | of two sound attempts, the one tried first that answers is sound |
| HardStrategy.TryAllManipulations | server/bot/strategies/HardStrategy.js:200-235 | the loop over the hand tiles, step by step, gives `AllManipulations` in either reading of tryCombineSets |
| HardStrategy.BestOfMax | server/bot/strategies/HardStrategy.js:208-232 | no answer plays more tiles than the one kept, nor does the start |
| HardStrategy.BestOfPick | server/bot/strategies/HardStrategy.js:208-232 | the answer kept is the start when no answer plays more, or else the first answer that plays the most tiles |
| HardStrategy.BestOfConcat | server/bot/strategies/HardStrategy.js:208-232 | scanning two lists of answers one after the other is scanning them joined |
| HardStrategy.AllManipulationsSound | server/bot/strategies/HardStrategy.js:200-235 | with the corrected tryCombineSets (Findings, last row), tryAllManipulations leaves table and hand as they were, or moves at least one hand tile, never a joker, onto a valid table |
| HardStrategy.AllManipulationsBest | server/bot/strategies/HardStrategy.js:200-235 | tryAllManipulations keeps the answer that plays the most tiles, the earliest among equals, and nothing when no answer plays a tile |
| HardStrategy.PlayTurn | server/bot/strategies/HardStrategy.js:11-62 | `play`, step by step, gives `HardPlay` in the reading asked for: the medium play before the initial meld, simple plays then manipulations, manipulations alone, else the medium play |
| HardStrategy.UniqueReady | server/bot/strategies/HardStrategy.js:11-62 | a table and hand whose ids are unique give a hand of distinct ids and sets of distinct ids |
| HardStrategy.HardPlayConserves | server/bot/strategies/HardStrategy.js:11-62 | with the corrected Medium fallback and tryCombineSets (Findings, last two rows), a Hard turn on a table and hand with unique ids moves tiles from the hand to the table and nothing else: the ids of the two together are unchanged and the hand shrinks by the count reported |
| HardStrategy.ManipulationLeavesValid | server/bot/strategies/HardStrategy.js:47-57 | when the Hard bot plays by manipulation alone, the table it leaves is valid, as written and corrected alike |
| CombineExample.CombineAsWrittenDuplicates | server/bot/strategies/HardStrategy.js:556-590 | with black, red, blue and orange 5 on the table and another red 5 in hand, tryCombineSets as written answers with a valid table on which the blue 5 lies twice: six ids where there were five |
| CombineExample.CombineSetsDeclines | server/bot/strategies/HardStrategy.js:556-567 | with one tile taken per set, the same position selects the black 5 only, and no move is made |
| CombineExample.ExampleMatches | server/bot/strategies/HardStrategy.js:536-553 | on that table the matches are every 5 but the red one, each leaving a group of three |
| HardManip.RemoveFromSet | server/bot/strategies/HardStrategy.js:625-636 | no answer exactly when what the set keeps without the tile has fewer than three tiles or is not a valid set; otherwise only that set changes, to a valid set of at least three of its tiles without the tile's id |
| HardManip.SplitPointsAt | server/bot/strategies/HardStrategy.js:480-484 | an answer of the split loop is the answer at one split point from where it starts up to `length - 3` |
| HardManip.SplitAtShape | server/bot/strategies/HardStrategy.js:455-484 | trySplitRun answers on a set only when it is a run of the hand tile's colour with at least six tiles, split at a point from 3 to `length - 3` |
| BotManager.StrategyFallback | server/bot/BotManager.js:22 | only "easy" and "hard" pick their own strategy; anything else falls back to medium |
| BotManager.Play | server/bot/BotManager.js:30-36 | the strategy is called on copies of the hand and table, the meld flag and the rules, and answers with `Decide` in the reading asked for |
| BotManager.PlayedFacesSpec | server/bot/BotManager.js:50-61 | a face is reported exactly when some tile on the new table came from the bot's hand and was not on the table before, and there are no more faces than tiles |
| BotManager.CollectPlayed | server/bot/BotManager.js:50-61 | the nested loop over the new table, step by step, collects `PlayedFaces` |
| BotManager.NewSets | server/bot/BotManager.js:71-73 | the sets kept are exactly the sets of the new table that hold at least one tile from the bot's hand |
| BotManager.Report | server/bot/BotManager.js:63-83 | the message details are the played tiles and their count, the sets added (never below zero), and on the initial meld the points of the sets holding hand tiles |
| BotManager.ReportedTiles | server/bot/BotManager.js:49-64 | the report lists exactly the tiles that came from the hand and were not on the table, and counts them |
| BotManager.NotABotChangesNothing | server/bot/BotManager.js:18-20 | a seat that is not a bot's gets an error and the game is left as it was |
| BotManager.PlayIsApplied | server/bot/BotManager.js:38-47 | a play is applied as it comes: the table and the bot's hand become the strategy's, the meld flag is set exactly when it was not and the play reports the initial meld, and the pool and the other seats are untouched |
| BotManager.DrawOrPass | server/bot/BotManager.js:97-113 | without a play the bot draws exactly the last tile of a non-empty pool; with the pool empty it passes and the game is unchanged |
| BotManager.StorePlay | server/bot/BotManager.js:40-47 | updateTableSets, updatePlayerTiles and, on the initial meld, setPlayerInitialMeld leave the registry holding `ApplyPlay` |
| BotManager.FollowDecision | server/bot/BotManager.js:38-116 | after the strategy answers, the registry holds the game `TurnWith` computes and the action message is posted to the game's room |
| BotManager.ExecuteBotTurn | server/bot/BotManager.js:15-117 | the registry ends up holding the game `BotTurn` computes with the strategies as written, and the action is posted to the room `game:<id>` under the bot's name |
| BotManager.DecideConserves | server/bot/BotManager.js:30-36 | every corrected strategy (Findings, last two rows), on a table and hand with unique ids, keeps the ids of table and hand together |
| BotManager.BotTurnConserves | server/bot/BotManager.js:15-117 | with the corrected strategies, a bot's turn never creates or loses a tile: on a game whose tile ids are all different, the ids of hands, table and pool together are the same after it |
| ClientGame.SortTiles | client/src/stores/gameStore.js:273-280 | the sorted rack holds the same tiles as before |
| ClientGame.SortTilesOrdered | client/src/stores/gameStore.js:271-294 | every pair of neighbours in the sorted rack is in comparator order |
| ClientGame.SortTilesStable | client/src/stores/gameStore.js:271-294 | tiles that compare equal keep their relative order, as JavaScript's stable sort keeps them |
| ClientGame.SortTilesSpec | client/src/stores/gameStore.js:271-294 | both sorts rearrange the rack without adding or losing a tile; jokers go last; by colour, numbered tiles go black, red, blue, orange and by number within a colour; by number, they go by number and then by colour |
| ClientGame.RankInjective | client/src/stores/gameStore.js:272 | the colour order gives the four colours four different ranks |
| ClientGame.FreshSpec | client/src/stores/gameStore.js:313-319 | the rack loop keeps tiles with distinct ids, all tiles of the input, and loses only the ids already seen |
| ClientGame.FreshSetsSpec | client/src/stores/gameStore.js:323-335 | the table loop leaves non-empty sets whose tiles have distinct ids, all tiles of the input, and loses only the ids already seen |
| ClientGame.DeduplicatedSpec | client/src/stores/gameStore.js:309-337 | after deduplication no id appears twice anywhere, every id of rack and table is still present, nothing new appears and no set is empty; a rack and table already free of duplicates and empty sets come through unchanged |
| ClientGame.FindById | client/src/stores/gameStore.js:213 | findIndex gives the first position holding that id, or -1 exactly when none does |
| ClientGame.RemoveFirst | client/src/stores/gameStore.js:213-216 | the first tile with that id leaves the rack; without one nothing changes |
| ClientGame.PlacedOnTable | client/src/stores/gameStore.js:218-224 | the tile joins the set at `setIndex` when that index is in range, and starts a new last set otherwise; the table gains exactly that tile |
| ClientGame.TakenConserves | client/src/stores/gameStore.js:231-241 | taking a tile off a set that holds it loses exactly the first tile with its id |
| ClientGame.TakenKeepsNonEmpty | client/src/stores/gameStore.js:236-239 | a set emptied by the move goes, so a table without empty sets keeps none |
| ClientGame.MoveToTableConserves | client/src/stores/gameStore.js:211-227 | dragging a rack tile to the table keeps every tile in play: the tile leaving the rack is the one that appears on the table |
| ClientGame.MoveToRackConserves | client/src/stores/gameStore.js:229-246 | dragging a table tile back to the rack keeps every tile in play |
| ClientGame.MoveToRackUnfound | client/src/stores/gameStore.js:229-246 | with a stale set index the table is unchanged and the tile is still pushed onto the rack, a second copy in play that deduplicateTiles later removes |
| ClientGame.MoveRoundTrip | client/src/stores/gameStore.js:211-246 | dragging a rack tile onto a set and straight back restores the table, and the rack holds the same tiles, the tile now at its end |
| ClientGame.NewSetRoundTrip | client/src/stores/gameStore.js:211-246 | dragging a rack tile onto the table as a new set and straight back restores the table |
| ClientGame.IsMine | client/src/stores/gameStore.js:116-120 | it is this player's turn exactly when the seat at the index is this player's, or when there is neither a seat there nor a socket |
| ClientGame.ChatKeepsNewest | client/src/stores/gameStore.js:203-208 | pushing a message onto a buffer already cut to the newest hundred leaves the newest hundred of all messages |
| ClientGame.ClientGameStore.constructor | client/src/stores/gameStore.js:6-36 | the store starts with no game, no players, tiles or sets, index 0, an empty pool count, no chat, no edits, no sort order and nothing highlighted |
| ClientGame.ClientGameStore.AddChatMessage | client/src/stores/gameStore.js:203-208 | the chat becomes the newest hundred of the old messages and the new one |
| ClientGame.ClientGameStore.ApplySort | client/src/stores/gameStore.js:271-294 | the rack is sorted by the order given and nothing else changes |
| ClientGame.ClientGameStore.SortRack | client/src/stores/gameStore.js:297-306 | the order is remembered and the rack is sorted by it |
| ClientGame.ClientGameStore.Resort | client/src/stores/gameStore.js:89-94 | the remembered order, if any, is applied to the rack again |
| ClientGame.ClientGameStore.MoveTileToTable | client/src/stores/gameStore.js:211-227 | the rack loses the tile's first copy, the table gains it as `PlacedOnTable` says, and the store records edits |
| ClientGame.ClientGameStore.MoveTileToRack | client/src/stores/gameStore.js:229-246 | the table becomes `TakenFromTable`, the tile joins the end of the rack, and the store records edits |
| ClientGame.ClientGameStore.UpdateLocalTableSets | client/src/stores/gameStore.js:248-251 | the local table is replaced and edits are recorded |
| ClientGame.ClientGameStore.UpdateLocalMyTiles | client/src/stores/gameStore.js:253-256 | the rack is replaced and edits are recorded |
| ClientGame.ClientGameStore.RevertChanges | client/src/stores/gameStore.js:258-268 | the local copies become the committed state again, the rack in the remembered order and holding the committed tiles, and no edits are left |
| ClientGame.ClientGameStore.DedupeSet | client/src/stores/gameStore.js:314-319 | the loop over one list keeps the tiles `Fresh` keeps and adds the list's ids to those seen |
| ClientGame.ClientGameStore.DedupeTable | client/src/stores/gameStore.js:323-335 | the loop over the table sets gives `FreshSets` |
| ClientGame.ClientGameStore.DeduplicateTiles | client/src/stores/gameStore.js:309-337 | rack and table become `Deduplicated` of the old ones, the rack scanned before the table |
| ClientGame.ClientGameStore.Highlight | client/src/stores/gameStore.js:69-80 | the ids on the new table that were not on the committed one join the highlighted ids |
| ClientGame.ClientGameStore.ReceiveHand | client/src/stores/gameStore.js:84-96 | a player's committed hand follows the server, and so does the rack, in the remembered order, unless edits are kept; a spectator's stay as they were |
| ClientGame.ClientGameStore.ReceiveTable | client/src/stores/gameStore.js:98-101 | the committed table follows the server, and so does the local one unless edits are kept |
| ClientGame.ClientGameStore.ReceiveTurn | client/src/stores/gameStore.js:103-106 | the index and pool count follow the server and the turn flag is recomputed by checkIfMyTurn |
| ClientGame.ClientGameStore.Resync | client/src/stores/gameStore.js:108-113 | on reconnection the local copies are forced back to the committed state and no edits are left |
| ClientGame.ClientGameStore.UpdateGameState | client/src/stores/gameStore.js:68-114 | the committed state follows the server; local copies are replaced unless it was this player's turn with edits in progress, and a reconnection always replaces them; new table ids are highlighted |
| ClientGame.ClientGameStore.StartTurn | client/src/stores/gameStore.js:122-143 | it is this player's turn, the local copies are the committed state and no edits are left |
| ClientGame.ClientGameStore.HandleTurnTimeout | client/src/stores/gameStore.js:145-155 | the turn is over, the local copies revert to the committed state and no edits are left |
| NotificationStore.UnreadCount | client/src/stores/notificationStore.js:13-15 | the unread count never exceeds the list and is zero exactly when every entry is read |
| NotificationStore.HasUnread | client/src/stores/notificationStore.js:9-11 | the badge shows exactly when the unread count is positive |
| NotificationStore.UnreadCountConcat | client/src/stores/notificationStore.js:13-15 | the unread count of two lists joined is the sum of their counts |
| NotificationStore.Prepended | client/src/stores/notificationStore.js:19-29 | the new entry is first; the list is the old one behind it, cut to fifty when it grew past fifty |
| NotificationStore.AddedKeepsNewest | client/src/stores/notificationStore.js:17-30 | however many notifications arrive, the list holds exactly the fifty newest of them, newest first |
| NotificationStore.FindId | client/src/stores/notificationStore.js:51 | find gives the first entry with the id, and none exactly when no entry has it |
| NotificationStore.MarkLowersCount | client/src/stores/notificationStore.js:50-55 | marking an entry read lowers the unread count by one if it was unread, and keeps it otherwise |
| NotificationStore.SameMillisecondShadows | client/src/stores/notificationStore.js:18 | ids are the clock's milliseconds as text: two notifications in the same millisecond share an id, and marking that id reaches only the newer one |
| NotificationStore.NotificationStore.constructor | client/src/stores/notificationStore.js:5-7 | the store starts with no notifications, no pending invite and the panel closed |
| NotificationStore.NotificationStore.AddNotification | client/src/stores/notificationStore.js:17-30 | an unread entry with the clock as id and timestamp goes in front, the list cut to fifty; below fifty the unread count grows by one |
| NotificationStore.NotificationStore.AddInvite | client/src/stores/notificationStore.js:32-44 | the invite, stamped with the clock, becomes pending and one unread 'invite' notification naming the host goes in front |
| NotificationStore.NotificationStore.ClearInvite | client/src/stores/notificationStore.js:46-48 | the pending invite goes and nothing else changes |
| NotificationStore.NotificationStore.MarkAsRead | client/src/stores/notificationStore.js:50-55 | only the first entry with that id is marked read; an unknown id changes nothing |
| NotificationStore.NotificationStore.MarkAllAsRead | client/src/stores/notificationStore.js:57-59 | every entry is marked read and nothing else about it changes |
| NotificationStore.NotificationStore.ClearAll | client/src/stores/notificationStore.js:61-63 | the list empties and nothing else changes |
| NotificationStore.NotificationStore.TogglePanel | client/src/stores/notificationStore.js:65-70 | the panel flips; opening it leaves nothing unread, closing it changes nothing else |

## Left out

- Socket.io transport: room joins, `io.to(..).emit`, acknowledgement callbacks and payload projection. Handler results are returned as `Outcome` values that name what would be emitted.
- Timers, which are asynchronous scheduling: the server turn timer (`startTurnTimer`), the disconnect grace timer, the bot delay, the user cleanup `setInterval`, and on the client the turn countdown and the 3-second highlight removal. What a timeout does to the state is modelled (`GameHandler.TimeoutDrawsOne`, `ClientGame.ClientGameStore.HandleTurnTimeout`).
- `Date.now`, `uuidv4` and `Math.random` are parameters: a clock value `now`, a fresh id, and an arbitrary index in range for the shuffle.
- ChatStore.NewMessage: `addMessage` reads `Date.now()` twice, once for the id and once for the timestamp; the model passes one `now` for both, so it does not capture the two readings falling in different milliseconds.
- Candidates.UniqueOfColorSpec: the kept tile is stated to be the first of its number in the sorted list; that it is also the first in hand order, through the stability of the sort, is not stated.
- NotificationStore.NotificationStore.AddNotification: `addNotification` reads `Date.now()` twice, once for the id and once for the timestamp; the model passes one `now` for both, so it does not capture the two readings falling in different milliseconds.
- `console.log` calls.
- JavaScript object aliasing and Vue reactivity. Records are values, so a change through one reference is not seen through another; fields are plain fields.
- Text is a sequence of Unicode scalars. JavaScript's `substring` counts UTF-16 code units, so `Text.Truncate` differs from the code for text outside the Basic Multilingual Plane. `toLowerCase` is modelled for ASCII letters only.
- The colour fallback of `formatTile` for an unknown colour is unreachable in the model, where colours are an enumeration; the server can receive other colours (next line).
- Values the server receives from clients are typed in the model, but the code checks only bounds and shapes:
  - Rule values are integers in the model. `validateCustomRules` (common/rulePresets.js:33-46) compares bounds only, so a fraction such as `tilesPerPlayer: 7.5` passes; `createGame` (server/stores/gameStore.js:15-16, 32) then slices at truncated fractional indices, dealing seat 0 seven tiles and seat 1 eight. `jokerCount: 2.5` makes three jokers (common/constants.js:87 loops while `i < jokerCount`). `NaN` fails every comparison and so passes all four checks.
  - Tiles are a joker or a face with one of four colours and an integer number in the model. The end-turn handler (server/handlers/gameHandler.js:447-520) checks that the table and its sets are arrays but not the faces of submitted tiles, so a colour such as 'purple' or a number such as 5.5 reaches the rules.
  - The submitted hand is always a sequence in the model; a missing `playerTiles` makes the duplicate scan at server/handlers/gameHandler.js:465 throw instead of giving a refusal.
- A `botDifficulty` that names a member of `Object.prototype` would pick that member; the model sends every name other than "easy" and "hard" to the medium strategy.
- `validateTableState` does not look for duplicate tile ids; the model does what the code does, and the end-turn pipeline checks duplicates separately (`GameHandler.FindDuplicateIds`).
- Server handlers outside the core: start game, leave game, spectator join and leave, rematch, `broadcastGameState`.
- The chat action messages the game handler posts: 'played' on end turn (gameHandler.js:584), 'drew' on a draw (gameHandler.js:185), 'timeout' or 'passed' when the turn timer runs out (gameHandler.js:679-684) and 'won' when the game ends (gameHandler.js:718). `GameHandler.DrawHandler`, the timeout path and `GameHandler.EndGameSpec` change the game only; the bot manager's messages are modelled (`BotManager.ExecuteBotTurn`).
- Store operations that only return the map: `getAllGames` and `getAllLobbies`. The class fields `games` and `lobbies` are these values.
- Chat wrappers that only fix the message type: `addSystemMessage`, `addJoinMessage`, `addLeaveMessage`.
- Client store actions that only emit on the socket or reset fields: `initGame`, `endGame`, `clearGame`, `setDisconnectTimeout`, `clearDisconnectTimeout`, `drawTile`, `handleDisconnectedPlayer`, `requestRematch`, `sendMessage`.
- The emit of `endTurn`. Its local call to `deduplicateTiles` is modelled as `ClientGame.ClientGameStore.DeduplicateTiles`.
- UserStore.UserStore.RemoveUser: `removeUser` deletes the lowercased name's index entry even when it points at another socket. The model does the same, and states no invariant that the name index points back at its user after a removal.
- HardStrategy.AllManipulationsSound: proved for the corrected `tryCombineSets` only. As written, a manipulation can duplicate a tile (Findings, last row), so the table it leaves need not hold the ids it started with.
- HardStrategy.HardPlayConserves: proved for the corrected reading only (the Medium fallback taking its combination from what the extension left, and the corrected `tryCombineSets`). As written a Hard turn can duplicate tiles (Findings, last two rows).
- BotManager.DecideConserves: proved for the corrected strategies only, for the same two reasons. `BotManager.ExecuteBotTurn` runs the strategies as written.
- BotManager.BotTurnConserves: proved for a bot turn with the corrected strategies only. The turn `BotManager.ExecuteBotTurn` stores uses the strategies as written, which can duplicate tiles.
- Extension.ExtendAllValid: the run extension of `tryExtendSets` reads the run's end numbers from positions, so the valid table it promises is proved only for runs laid out in ascending order (`WellLaid`). `Extension.UnorderedRunBreaks` shows a run in another order that the rules accept but the extension breaks.
- HardSimple.ExhaustValid: the same position-based reading in `extendExistingSets`; the table is proved to stay valid only for runs laid out in ascending order.
- Rules.MeldPointsExtraJokers: jokers beyond the gaps in a run are valued at `maxNum + i + 1` with `i` counting from the first joker, not from the first extra one. The model follows the code; the lemma states the value for a concrete run.

## Findings

| source | as written | input that shows it | evidently intended | confidence | as-written member | corrected member |
|---|---|---|---|---|---|---|
| server/handlers/gameHandler.js:302-305 | after a kick, the turn index becomes `currentPlayerIndex % players.length` whenever the kicked seat is at or before the current one | seats A, B, C with C to play; kicking A gives the turn to B | the player on turn keeps it when someone seated before them is kicked; kicking the player on turn passes it to the next seat | not executed | GameHandler.KickSkipsTurnAsWritten | GameHandler.KickKeepsTurn |
| server/handlers/gameHandler.js:838-842 | any reconnecting player resumes a paused game, although the comment says "if it was paused for this player" | A on turn and both A and B disconnected; B's reconnect sets the game running while A is still away | the game resumes only once the player on turn is connected again | not executed | GameHandler.ReconnectResumesForOthersAsWritten | GameHandler.ReconnectResumesOnlyForTurn |
| server/bot/strategies/EasyStrategy.js:36 | when a combination is accepted, the hand is rebuilt from the original `playerTiles`, so tiles the first extension pass already put on the table come back into the hand (MediumStrategy.js:35 does the same) | red 5-6-7 on the table and red 4, blue 1, blue 2, blue 3 in hand, initial meld already made: red 4 extends the run, blue 1-2-3 is laid, and the turn ends with eight tiles where there were seven | the combination is taken out of what the extension pass left, so a turn only moves tiles from the hand to the table | not executed | PlanStrategy.AsWrittenDuplicates, PlanExample.AsWrittenExample | PlanStrategy.PlanConserves |
| server/bot/strategies/HardStrategy.js:556-590 | `tryCombineSets` may select two tiles out of the same set, and then rebuilds that set from the first selection only | black, red, blue and orange 5 as one group on the table, and another red 5 in hand: the black and blue 5 are both selected, the table keeps red-blue-orange 5 and gains red-black-blue 5, so the blue 5 lies twice | at most one tile is taken from each set, so no tile is duplicated | not executed | CombineExample.CombineAsWrittenDuplicates | HardManip.CombineSetsSound |
