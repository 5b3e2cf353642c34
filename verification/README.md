# Eigennamen, modelled and proved

Eigennamen is a browser game of words in two teams, with a server that can seat
bots. This project models the parts of it where state, arithmetic or formats
interact, in Dafny 4.11, and proves properties of the model. `dafny verify
dfyconfig.toml` checks all of it.

Where the program changes things in place, the model does too: each such part has
a class or a loop whose contract ties the new state to a specification function,
and the theorems are about that function, over whole runs. One module mirrors one
component:

- **Bots.** `BotRoomCache`, `BotDriver`, `BotWakeups`, `BotBackoff`, `BotStreaks`,
  `BotRoster` and the class `BotController.Controller` model the bot driver as a protocol. The code
  between two awaits is one step; notifications, timers, roster answers, failing
  actions and bots that come and go are steps too, in any interleaving of rooms.
  `ClueMemory`, `ClueHistory` and `ClueRooms` follow the clue tracker over whole
  snapshot histories. `Recency` and `InsertionMap` are the ordered maps below them.
- **Rate limiting.** `RateLimit`, `RateBounds`, `RateNumbers` and `RateSweep` prove the
  four-layer limiter against a log that never forgets; `RateMaps` and the class
  `RateLimiter.Limiter` are the closure's four maps and index, changed in place.
- **Links.** `JsText`, `Utf8`, `Base64`, `WordEscape` and `WordCodec` are the word
  list codec, layer by layer; `UrlQuery` is what a browser makes of a link on the way
  in and out; `SavedLink`, `Standalone`, `SavedGame` and the class
  `StandaloneGame.GameState` are the standalone game and the link it is saved in.
- **Seeds.** `Seeded`, `Shuffles`, `Board`, `Deals` and `BotRng` are hashing, shuffling,
  dealing and the bots' generator; `KnownAnswers` holds published values of the codecs.
- **Engine.** `Engine`, `EngineRuns`, `EngineTurns`, `EngineDuet`, `EngineVerdicts` and
  the class `EngineGame.Game` are the headless engine with its reveal rules in all three
  modes.
- **Roles and recap.** `RoleChange` and `RoleControls.Controls` are the optimistic role
  changes; `Recap` the clue blocks and statistics of a finished game.

Findings the proofs turned up, each with a lemma that exhibits or characterises it:

- The clue tracker map is not refreshed when a room starts a new game, although the
  comment at `server/src/bots/botController.ts:75-78` says every write site refreshes
  (`ClueRooms.NewGameDoesNotRefresh`). The model follows the code.
- A room can be known bot-less with a bot in it, and then that bot is never driven:
  after an add whose join times out or whose rollback fails
  (`BotRoster.AbandonedAddIsStranded`), and after a removal during a roster read
  (`BotRoster.StaleReadAfterARemoval`). `BotRoster.BotlessRecordsAreTrueIff` says these
  are all.
- A seed with `&`, `#`, `+`, a tab, a line break or a percent escape does not survive its
  own link, although links start games with such seeds (`SavedLink.SeedComesBackIff`,
  `SavedGame.EverySeedIsReached`, `SavedGame.TabIsLost`). Generated seeds hold none.
- What the server says of a player while that player's role change is in flight is undone
  by the change's error ack: a resync, and an update that does not confirm the change
  (`RoleChange.SpokenChangeReverts`, `RoleChange.IgnoredUpdate`).
- The guess-budget refusal of the reveal rules cannot happen in an engine run
  (`EngineRuns.ExactRefusals`).

## What the model assumes

- Time is a nondecreasing input. Random draws, roster answers, failing services and
  strategy choices are arbitrary.
- Room codes, socket and session ids, addresses, event names, clue words in the
  recap and operation ids are numbers: they are only compared. `RateKeys` states what
  the limiter's text keys need for that.
- Integers are unbounded where the program's stay small; 32-bit truncation is
  written out. Strings are sequences of 16-bit units.
- What is proved of shuffles, boards and the bots' generator holds for every seeded
  generator; `Seeded.Mulberry32` is the one the game uses. A draw is its numerator
  over 2^32, so scaling it is an exact integer division, as it is in double
  arithmetic for arrays of fewer than 2^21 items.
- `Math.ceil(total * 0.1)` is a tenth rounded up, as in double arithmetic for every total
  below 2^53: the double 0.1 exceeds a tenth by one part in 2^54, which never carries a
  product to or past an integer it would not reach exactly.
- `atob` is modelled with the whitespace, padding and left-over bits that browsers
  accept, on top of section 4 of RFC 4648.
- Links pass through the URL parser and the form decoder of the URL Standard (sections
  4.4 and 5.1) and the lossy UTF-8 decoder of the Encoding Standard (section 8.1.1).
- The built-in list has at least 25 words, none empty and none twice, as
  `server/src/shared/gameRules.ts` has it. Where `server/src/frontend/settings.ts` puts a
  list in place, `Standalone.Choose` does; `initGame` is called at
  `server/src/frontend/game.ts:184` and 361 only, so its branch for the localized list
  is modelled but taken in no run.
- Missing values take the defaults the source gives them; the arrays of a game
  have the length of the board.

## Model

| member | source | states |
|---|---|---|
| `Recency.KeysBounded` | server/src/bots/botRoomCache.ts:25-48 | Over any run of writes, refreshes and drops the kept keys are distinct and number at most the cap. |
| `Recency.LaterIsBehind` | server/src/bots/botRoomCache.ts:43-48 | A held key's place in the order is its recency, over every run of writes, refreshes, drops and clears: the keys behind it are exactly those placed last after it and not dropped again. |
| `Recency.LaterIsSince` | server/src/bots/botRoomCache.ts:43-48 | Each of them was written since the key was last placed, and where every call refreshes they are exactly those. |
| `Recency.JustWrittenStays` | server/src/bots/botRoomCache.ts:44-48 | The key just written is never the one evicted. |
| `Recency.EvictedOnlyAfterCapOthers` | server/src/bots/botRoomCache.ts:25-31 | A key goes without being dropped only when another key is written, and only after `cap` distinct other keys came since its last touch. |
| `Recency.HeldIffRecentEnough` | server/src/bots/botRoomCache.ts:25-64 | For every run of writes, refreshes, drops and clears: a key is held if and only if some call wrote it and since then none removed it and there were never `cap` keys behind it. |
| `InsertionMap.TouchSpec` | server/src/bots/botRoomCache.ts:44-48 | Delete, set and evict, in that order: the key ends last with its new value, only the oldest key can go, and every other entry that stays keeps its value. |
| `BotRoomCache.RunInvariant` | server/src/bots/botRoomCache.ts:19-64 | The cache follows the recency order through every run of its operations, holds at most 500 rooms, and each entry is the room's last recorded answer. |
| `BotRoomCache.JustRecordedIsKnown` | server/src/bots/botRoomCache.ts:44-48 | A room just recorded is known with just that answer, whatever came before. |
| `BotRoomCache.ForgottenOnlyAfterFiveHundredOthers` | server/src/bots/botRoomCache.ts:21-48 | A known room becomes unknown without a removal only after 500 distinct other rooms were recorded since. |
| `BotRoomCache.KnownIffRecentEnough` | server/src/bots/botRoomCache.ts:34-64 | After every run of records, removals and resets a room's tri-state is its last recorded answer exactly while it was not removed since and never had 500 rooms behind it, and unknown otherwise. |
| `BotRoomCache.Cache.RecordBotful` | server/src/bots/botRoomCache.ts:44-48 | In place, the map afterwards is the bounded insertion-ordered map with this entry touched. |
| `BotRoomCache.Cache.NoteBotRemoved` | server/src/bots/botRoomCache.ts:57-59 | In place, the room's entry is gone and all others stay. |
| `BotRoomCache.Cache.NoteRoomHasBot` | server/src/bots/botRoomCache.ts:50-53 | In place, the room is recorded as having a bot. |
| `BotRoomCache.Cache.ClearBotRoomCache` | server/src/bots/botRoomCache.ts:61-64 | In place, every room is unknown again. |
| `ClueMemory.Classify` | server/src/bots/botController.ts:116-124 | The classifying loop counts exactly the team's cards revealed since the snapshot, and reports a bounce exactly when some other card was. |
| `ClueMemory.ObserveKeepsMemory` | server/src/bots/botController.ts:96-146 | Observing one room's snapshot keeps the map bounded and well formed, stores exactly the advanced tracker for that room, and leaves every surviving other room's tracker alone. |
| `ClueMemory.Store.ReconcileClueMemory` | server/src/bots/botController.ts:96-146 | The in-place version does exactly that and hands back the stored tracker. |
| `ClueMemory.Store.EvictOldestBeyondCap` | server/src/bots/botController.ts:84-90 | The loop removes exactly the oldest keys beyond 500. |
| `ClueMemory.AdvanceTracker` | server/src/bots/botController.ts:107-145 | The in-place tracker update is the one-snapshot specification: end a clue that is gone, start one that has come, keep the last 64 entries. |
| `ClueHistory.SpansAreTheFinishedClues` | server/src/bots/botController.ts:108-144 | Over a game's snapshots the listed spans are exactly the maximal stretches showing one clue that a later snapshot no longer shows. |
| `ClueHistory.SpansAreInOrder` | server/src/bots/botController.ts:108-144 | Finished clues follow one another without overlap. |
| `ClueHistory.TrackerIsItsHistory` | server/src/bots/botController.ts:96-146 | After any snapshots of one classic or match game the tracker equals the specification over the whole history: the live clue with the board as it was first seen, and per team the last 64 of all finished clues with what each took and whether it bounced. |
| `ClueHistory.AttributionsAreDisjoint` | server/src/bots/botController.ts:116-131 | No card is attributed to two finished clues. |
| `ClueHistory.TakenNeverExceedsRevealed` | server/src/bots/botController.ts:118-131 | A team's total credit never exceeds its revealed cards. |
| `ClueRooms.RunAllInvariant` | server/src/bots/botController.ts:69-106 | The map of all rooms' trackers stays bounded and follows the recency order of its writes over every run. |
| `ClueRooms.TrackerLostOnlyAfterFiveHundredOthers` | server/src/bots/botController.ts:84-106 | A tracker is lost without being deleted only to another room's observation, after 500 distinct others since it was inserted or last continued its game. |
| `ClueRooms.TrackerFollowsItsRoom` | server/src/bots/botController.ts:96-146 | Whatever other rooms do in between, a room that is not evicted holds the tracker of its own current game's snapshots. |
| `ClueRooms.NewSeedStartsAfresh` | server/src/bots/botController.ts:96-146 | After every run, a snapshot with another seed than the one before it starts the room's tracker afresh under that seed, with no finished clue; one with the same seed, or both without, goes on with it. |
| `ClueRooms.TrackedIffRecentEnough` | server/src/bots/botController.ts:84-106 | After every run of observations and deletions a room has a tracker if and only if it was observed, not deleted since, and never had 500 rooms behind it. |
| `ClueRooms.RefreshesIff` | server/src/bots/botController.ts:97-106 | An observation leaves its room last in the order if and only if the room was absent, goes on with the game its tracker is of, or stood last already; a new game moves nothing. |
| `ClueRooms.NewGameDoesNotRefresh` | server/src/bots/botController.ts:97-106 | So the order is not least-recently-used, against the comment at lines 75-78: in any run with 500 rooms held, let the room in front start a new game and be observed; the next observation of another room evicts it if and only if that room is not held. |
| `ClueRooms.RoomsInOrder` | server/src/bots/botController.ts:84-106 | Such runs exist: after observing up to 500 rooms in turn, the map holds exactly them, in that order. |
| `BotDriver.EffectKeeps` | server/src/bots/botController.ts:251-290 | Every step of notifications, ticks, timers, failures and bots coming and going keeps single flight, `pending` inside `inFlight`, one timer per room, streaks of at most 6, fewer than 200 actions begun per tick, and the bounded cache. |
| `BotDriver.EveryRunKeepsTheProtocol` | server/src/bots/botController.ts:463-760 | So does every run from a started controller, in any interleaving of rooms. |
| `BotWakeups.OwedUntilServed` | server/src/bots/botController.ts:471-480 | A notification, once accepted, stays owed through every step that does not serve it: queued as a microtask, or pending under a running tick. |
| `BotWakeups.NoWakeupIsLost` | server/src/bots/botController.ts:743-752 | In every run a room that is owed a tick at some moment is still owed it or has been served by a later step. |
| `BotWakeups.EveryNotificationIsServed` | server/src/bots/botController.ts:293-303 | Once nothing is queued or in flight, each notification was followed by a serving step: a tick that started after it, or the skip of a room known bot-less by then. |
| `BotWakeups.ServingStartsATick` | server/src/bots/botController.ts:463-509 | A serving step starts a new tick unless the room is known bot-less; it begins with the roster exactly if the room is unknown. |
| `BotWakeups.StepAdvances` | server/src/bots/botController.ts:509-732 | Each step of a tick's own ends it or leaves it strictly fewer steps; other steps leave it where it is; an ended tick never returns. |
| `BotWakeups.EveryTickIsBounded` | server/src/bots/botController.ts:168-169 | In every run a tick completes at most 200 actions and takes at most 602 steps of its own. |
| `BotWakeups.FailedTickIsNotStranded` | server/src/bots/botController.ts:743-759 | A tick that ends in failure leaves its room with exactly one of: a queued re-tick, an armed timer with the right delay and the streak one higher, or the give-up run started and the backoff reset. |
| `BotStreaks.TickEndsIff` | server/src/bots/botController.ts:509-735 | A resumed tick goes on unless an await stops it or throws, its room turns out bot-less, or its 200 actions are done; these are exactly the ways it ends. |
| `BotStreaks.CleanEndSettles` | server/src/bots/botController.ts:743-759 | A tick that ends without a failure leaves its room with no timer and a streak of 0, unless a notification came meanwhile: then the room is queued again and keeps both. |
| `BotStreaks.ProgressSettles` | server/src/bots/botController.ts:730-731 | A completed action leaves its room with no timer and a streak of 0, whether its tick goes on or not. |
| `BotStreaks.StreakIsFailuresInARow` | server/src/bots/botController.ts:251-290 | In every run a room's streak is the number of its failed ticks since its last completed action, clean end, give-up or eviction, counted from the events; it never passes 6, and a give-up run starts exactly with the failure that finds 6. |
| `BotBackoff.OtherRoomsDoNotInterfere` | server/src/bots/botController.ts:250-290 | Steps of other rooms change nothing the driver holds about a room, short of evicting its cache or streak entry. |
| `BotBackoff.CarriesOn` | server/src/bots/botController.ts:264-279 | A room left to its retries always has exactly one of a running tick and an armed timer until the budget is spent. |
| `BotBackoff.GivesUpAfterSevenFailures` | server/src/bots/botController.ts:180-182 | Left to its retries a room fails at most 7 ticks; the armed delays are exactly the doubling schedule and add up to at most 7000 ms; the give-up run starts once, with the seventh failure. |
| `BotRoster.BotlessRecordsAreTrueIff` | server/src/bots/botController.ts:496-505 | In every run a room known bot-less seats a bot with no report to come if and only if it seats one whose add was abandoned, or one whose report came while the answer that wrote the record was on its way. |
| `BotRoster.BotlessRecordsAreTrue` | server/src/bots/botController.ts:496-505 | So while no such bot's add was abandoned and the record was not written by a tick whose room lost its cache entry under the read, every bot in a room known bot-less still has its report to come. |
| `BotRoster.StaleReadAfterARemoval` | server/src/services/botService.ts:205-207 | From every reachable state with the answer of an empty roster on its way there is a continuation that leaves a reported bot in a room known bot-less: two bots join and report, one is removed, the answer arrives. |
| `BotRoster.AbandonedAddIsStranded` | server/src/services/botService.ts:102-176 | From every reachable state with a room known bot-less, an add whose join times out or whose rollback fails leaves a bot seated there, with no report to come. |
| `BotRoster.BotlessRoomIsSkipped` | server/src/bots/botController.ts:466-470 | Through every run in which no add of the room reports and its entry is not lost, no tick of a room known bot-less starts: its bots are never driven. |
| `BotController.Controller.TickRoom` | server/src/bots/botController.ts:463-509 | In place, the start of a tick has exactly the specified effect on all module-level state. |
| `BotController.Controller.FinishTick` | server/src/bots/botController.ts:739-760 | In place, the end of a tick: released; queued again with streak and timer as they were if a notification is pending; else without streak and timer if nothing failed, and re-armed or given up as specified if something did. |
| `BotController.Controller.ScheduleReArm` | server/src/bots/botController.ts:251-280 | In place, one more failure: streak refreshed and bounded, then give-up, or at most one timer with the doubled and capped delay. |
| `BotController.Controller.ClearReArm` | server/src/bots/botController.ts:283-290 | In place, streak and timer of the room are gone, nothing else. |
| `BotController.Controller.AfterRoster` | server/src/bots/botController.ts:497-509 | In place, the re-check after the roster answer records only a room still unknown. |
| `BotController.Controller.AfterAction` | server/src/bots/botController.ts:730-732 | In place, a completed action resets the backoff and goes on to the loop's test. |
| `BotController.Controller.AfterStop` | server/src/bots/botController.ts:512-760 | In place, a clean stop or a failure of a tick has exactly the specified effect; a clean stop with nothing pending leaves no streak and no timer. |
| `BotController.Controller.OnGameMutation` | server/src/bots/botController.ts:296-301 | In place, a notification queues one call of the tick function. |
| `BotController.Controller.RunQueued` | server/src/bots/botController.ts:298-300 | In place, a queued call runs the start of a tick. |
| `BotController.Controller.AfterRead` | server/src/bots/botController.ts:510-529 | In place, a tick that has read the game goes on to its decision and its action. |
| `BotController.Controller.OnTimer` | server/src/bots/botController.ts:273-276 | In place, a firing timer forgets itself and starts a tick. |
| `SlidingWindow.FilterTimestampsInPlace` | server/src/middleware/rateLimit.ts:124-134 | In-place compaction keeps exactly the timestamps later than the window start, in order, and returns how many. |
| `RateLimit.EveryRunIsIndexed` | server/src/middleware/rateLimit.ts:218-227 | Through every mix of calls, sweeps, socket cleanups and evictions each live socket list is in its own socket's index entry, no entry is empty and none holds another socket's key. |
| `RateLimit.CleanupLeavesNothing` | server/src/middleware/rateLimit.ts:289-298 | After any run, cleaning up a socket leaves none of its lists, and no other list changes. |
| `RateBounds.OneCall` | server/src/middleware/rateLimit.ts:181-287 | What one call does to any one list, through all four layers: compacted if visited, appended exactly if counted, and the verdict in terms of the lists before. |
| `RateBounds.ListIsRecentLog` | server/src/middleware/rateLimit.ts:124-287 | Along every run a list that is not evicted agrees, within its window, with the log of all calls ever counted against it; the sweep never makes it disagree. |
| `RateBounds.LimiterDecidesByTheLog` | server/src/middleware/rateLimit.ts:181-287 | The limiter refines the simple one that never forgets: each call gets exactly the verdict of looking it up in the full log. |
| `RateNumbers.EveryWindowIsBounded` | server/src/middleware/rateLimit.ts:165-287 | In every run and every window of its length: a socket has at most `max` admitted calls of an event, a session at most `2 * max`, an address at most `3 * max`, and an address at most the global cap across events, with the configured limit of the event or 5 calls in 5000 ms; for lists that are not evicted and windows the sweep covers. |
| `RateNumbers.RefusedIffFull` | server/src/middleware/rateLimit.ts:203-283 | After every run each layer refuses a call exactly when the layers before it did not and the calls counted in its window have reached the global cap, `max`, `2 * max` or `3 * max`. |
| `RateSweep.ShortSweepBreaksTheBound` | server/src/middleware/rateLimit.ts:359-366 | The sweep has to cover an event's window: when it does not, a run exists that puts one call more than the limit into one window. |
| `RateMaps.RegisteredIsIndexed` | server/src/middleware/rateLimit.ts:218-227 | What the closure keeps about its socket map and index is the index invariant of the four maps taken together. |
| `RateMaps.ByActivityEntries` | server/src/middleware/rateLimit.ts:336 | The eviction's sort keeps every entry once and puts the least recently active first. |
| `RateMaps.FirstAreOldest` | server/src/middleware/rateLimit.ts:336-348 | The first n of the sorted entries leave no list behind that is older than one they take. |
| `RateMaps.JoinedSweep` | server/src/middleware/rateLimit.ts:371-416 | Sweeping the four maps one by one is sweeping them as one, each list against its own window. |
| `RateMaps.PrunedStep` | server/src/middleware/rateLimit.ts:376-384 | Dropping one key from the index changes only its own socket's entry, and drops that with its last key. |
| `RateMaps.SweepMap` | server/src/middleware/rateLimit.ts:393-406 | The sweep loop compacts every list of a map and deletes exactly those that end up empty. |
| `RateMaps.EntriesOf` | server/src/middleware/rateLimit.ts:309-313 | The collecting loop lists every key of a map once, with its last activity, 0 for an empty list. |
| `RateLimiter.Limiter.Check` | server/src/middleware/rateLimit.ts:181-287 | In place, the middleware's new state and verdict for one call are the four-layer specification's. |
| `RateLimiter.Limiter.VisitSocket` | server/src/middleware/rateLimit.ts:217-228 | In place, the socket list is created, registered and compacted as specified. |
| `RateLimiter.Limiter.CheckSession` | server/src/middleware/rateLimit.ts:238-260 | In place, the session layer, whose number `RateNumbers` states, records the call before the address layer may still refuse it. |
| `RateLimiter.Limiter.CheckIp` | server/src/middleware/rateLimit.ts:262-285 | In place, the address layer, whose number `RateNumbers` states, and the three appends of an admitted call. |
| `RateLimiter.Limiter.CleanupSocket` | server/src/middleware/rateLimit.ts:289-298 | In place, exactly the socket's registered lists and its index entry go. |
| `RateLimiter.Limiter.SweepWindow` | server/src/middleware/rateLimit.ts:362-365 | The sweep keeps the largest configured window, or a minute when no positive one is configured. |
| `RateLimiter.Limiter.SweepStale` | server/src/middleware/rateLimit.ts:359-416 | In place, the sweep's effect on all four maps and on the index is the specification's. |
| `RateLimiter.Limiter.PerformLRUEviction` | server/src/middleware/rateLimit.ts:300-357 | Eviction removes only lists, returns exactly the drop in size, removes nothing up to the cap and a tenth of the lists, rounded up, above it, and never keeps a list older than one it removed. |
| `RateLimiter.Limiter.CleanupStale` | server/src/middleware/rateLimit.ts:359-424 | The periodic cleanup is the sweep followed by such an eviction, and how many lists that takes. |
| `RateLimiter.Limiter.GetSize` | server/src/middleware/rateLimit.ts:478 | The size is the number of lists in the four maps together. |
| `RateKeys.SocketIsRecoveredIff` | server/src/middleware/rateLimit.ts:376 | The sweep finds a key's socket again exactly when the socket id holds no colon. |
| `RateKeys.KeysNeverMeetIff` | server/src/middleware/rateLimit.ts:188-240 | In each of the three keyed maps, the keys of two different events never meet, whatever ids and addresses stand before them, if and only if neither event name is what follows a colon in the other. |
| `RateKeys.OneKeyPerName` | server/src/middleware/rateLimit.ts:188-240 | The keys of one event are one to an id or address, colons in it or not. |
| `JsText.RepairedIffIllFormed` | server/src/frontend/utils.ts:113-115 | Encoding replaces unpaired surrogates, so it changes exactly the ill-formed strings. |
| `Utf8.RoundTrip` | server/src/frontend/utils.ts:114-129 | Strict UTF-8 decoding (section 3 of RFC 3629) undoes encoding for every sequence of Unicode scalar values. |
| `Utf8.AcceptsOnlyEncodings` | server/src/frontend/utils.ts:127-129 | The strict decoder accepts nothing but encoder outputs: no overlong form, surrogate, truncation or value beyond U+10FFFF. |
| `Utf8.TextRoundTrip` | server/src/frontend/utils.ts:114-129 | Encoding a string and decoding it strictly never fails and gives it back, surrogates repaired and one leading U+FEFF dropped. |
| `KnownAnswers.Utf8Examples` | server/src/frontend/utils.ts:114-129 | Code points encode as in the examples in section 7 of RFC 3629. |
| `Utf8.LossyAgrees` | server/src/frontend/game.ts:313-319 | The lossy decoder that query parameters are read with agrees with the strict one wherever that succeeds. |
| `Utf8.CutEncodingIsOneMark` | server/src/frontend/game.ts:313-319 | In lossy decoding an encoding cut short, by the end or by a byte that is no tail, is a single U+FFFD. |
| `Base64.UrlRoundTrip` | server/src/frontend/utils.ts:96-111 | Unpadded URL-safe base 64 (sections 4 and 5 of RFC 4648) decodes to the same bytes, for every byte sequence. |
| `Base64.UrlForm` | server/src/frontend/utils.ts:96-102 | The encoder's output is letters, digits, `-` and `_` only. |
| `Base64.UrlLength` | server/src/frontend/utils.ts:117-120 | The encoded length, which the cap measures, is four thirds of the bytes rounded up. |
| `Base64.PaddedRoundTrip` | server/src/frontend/utils.ts:104-111 | `atob` undoes `btoa`, padding and all, for every byte sequence. |
| `Base64.WhitespaceIsIgnored` | server/src/frontend/utils.ts:104-111 | Tabs, line and form feeds, carriage returns and spaces make no difference to `atob`. |
| `KnownAnswers.Base64Examples` | server/src/frontend/utils.ts:96-102 | The encoder gives the values in section 10 of RFC 4648, without padding. |
| `KnownAnswers.UrlSafeExample` | server/src/frontend/utils.ts:96-102 | And `-_-_` for bytes whose plain encoding is `+/+/`. |
| `WordEscape.UnescapeIsOnePass` | server/src/frontend/utils.ts:87-89 | The two replacements of unescape equal reading tokens once from the left, for every string and whatever its runs of backslashes. |
| `WordEscape.EscapeIsOnePass` | server/src/frontend/utils.ts:84-86 | The two replacements of escape equal escaping unit by unit. |
| `WordEscape.EscapeRoundTrip` | server/src/frontend/utils.ts:84-89 | Unescaping undoes escaping for every string. |
| `WordEscape.Split` | server/src/frontend/utils.ts:137-155 | The splitter loop computes the specified parts. |
| `WordEscape.SplitLosesNothing` | server/src/frontend/utils.ts:137-155 | Whatever the text, the parts joined again are the text. |
| `WordEscape.SplitUndoesJoin` | server/src/frontend/utils.ts:113-155 | Splitting a joined list of escaped words gives exactly those escaped words. |
| `WordEscape.TextRoundTrip` | server/src/frontend/utils.ts:113-156 | The text of any word list reads back as its nonempty words in order. |
| `KnownAnswers.EscapeExample` | server/src/frontend/utils.ts:84-115 | Of two joined words the bar inside the first is escaped and the one between them is not. |
| `KnownAnswers.LinkExample` | server/src/frontend/url-state.ts:18-27 | A small game is printed as `game=a&r=01&t=b`, with `&w=` and the words after it if it has some; a byte is escaped with upper-case digits. |
| `WordCodec.BytesToBase64Url` | server/src/frontend/utils.ts:96-102 | The byte loop and the replacements compute the URL-safe encoding. |
| `WordCodec.Base64UrlToBytes` | server/src/frontend/utils.ts:104-111 | The byte loop yields the decoded bytes; no result stands for the exception. |
| `WordCodec.DecodeWordsFromURL` | server/src/frontend/utils.ts:122-160 | The decoder, loops and both error paths included, is the specified decoding. |
| `WordCodec.DecodedEncoding` | server/src/frontend/utils.ts:113-160 | Exactly what decoding an encoded list gives, for every list: nothing beyond the cap, else its nonempty words with a leading mark dropped and surrogates repaired. |
| `WordCodec.RoundTripIff` | server/src/frontend/utils.ts:113-160 | An encoded list decodes to exactly its nonempty words, in order, if and only if it fits 8192 characters, every word is well-formed, and the list does not start with U+FEFF. |
| `WordCodec.FallbackNeverTaken` | server/src/frontend/utils.ts:127-136 | The one-byte reading is never taken on encoder output. |
| `WordCodec.AsciiLinksAreUnchanged` | server/src/frontend/utils.ts:90-95 | ASCII lists are encoded exactly as by the older scheme. |
| `WordCodec.OldLinksReadBack` | server/src/frontend/utils.ts:130-136 | Within the cap, an older one-byte link reads back to its words if and only if its text is ASCII or its bytes are not UTF-8. |
| `Seeded.HashString` | server/src/frontend/utils.ts:47-59 | The hashing loop returns the absolute value of the signed 32-bit residue of the base-31 polynomial over the code points, between 0 and 2^31. |
| `Seeded.PolynomialOfConcatenation` | server/src/frontend/utils.ts:47-59 | The polynomial of a + b is that of a times 31 to the power of the length of b, plus that of b. |
| `Seeded.HashOfConcatenation` | server/src/frontend/utils.ts:47-59 | And so are the signed 32-bit hashes, up to one final truncation. |
| `Seeded.ShuffleWithSeed` | server/src/frontend/utils.ts:61-69 | The in-place loop computes the shuffle that `Shuffles` characterises; each swap index lies in 0..i. |
| `Seeded.ShuffleIsAPermutation` | server/src/frontend/utils.ts:61-69 | The shuffle moves its items by one permutation of the positions, which depends on the length and the seed alone. |
| `Seeded.ShuffleKeepsCards` | server/src/frontend/utils.ts:61-69 | Every item occurs as often after as before. |
| `Seeded.Scaled` | server/src/frontend/utils.ts:65 | Scaling a draw is the floor: `r * 2^32 <= draw * n < (r + 1) * 2^32`. |
| `Shuffles.ShuffleTakesTheDrawn` | server/src/frontend/utils.ts:61-69 | The last item of a shuffle is the one at the drawn index; before it comes the shuffle, by the next seed, of what remains with the last item moved into its place. |
| `Shuffles.SameShuffleIff` | server/src/frontend/utils.ts:61-69 | Two generators shuffle distinct items alike if and only if they draw the same indices. |
| `Shuffles.EveryOrderIsDealt` | server/src/frontend/utils.ts:61-69 | Every order of up to 2^32 items is their shuffle under some generator. |
| `Deals.DrawOfZero` | server/src/frontend/utils.ts:39-45 | The first draw of the game's own generator from seed 0, over 2^32, is 1144304738. |
| `Deals.DrawOfMinusOne` | server/src/frontend/utils.ts:39-45 | From seed -1 it is 3850105811. |
| `Deals.DrawOfAThousand` | server/src/frontend/game.ts:39 | From seed 1000 it is 3415336119, so red starts on number 0. |
| `KnownAnswers.ShortHashes` | server/src/frontend/utils.ts:47-59 | The hashes of `ab` and of one emoji, a single code point, are 3105 and 128512. |
| `KnownAnswers.LongHash` | server/src/frontend/utils.ts:47-59 | The polynomial of six times `z` wraps round to the negative residue -685785664, whose absolute value is the hash. |
| `BotRng.Rng.Next` | server/src/bots/rng.ts:12-17 | In place, a draw uses the state of this many draws and advances it by the odd constant. |
| `BotRng.Rng.Int` | server/src/bots/rng.ts:18-21 | In place, `int(n)` lies in 0..n-1 and costs one draw for positive n; else it is 0 and costs none. |
| `BotRng.StatesRepeatOnlyAfterAFullPeriod` | server/src/bots/rng.ts:9-17 | The state after k draws is seed + k * 0x9e3779b9 mod 2^32, and two draws see the same state if and only if they are a multiple of 2^32 apart. |
| `BotRng.EveryStateComesUp` | server/src/bots/rng.ts:9-17 | Every one of the 2^32 states comes up within a period. |
| `Board.EveryBoardIsFair` | server/src/frontend/game.ts:34-62 | For every seed and generator: 25 cards, 9 for the starting team and 8 for the other, 7 neutral, 1 assassin. |
| `Deals.DeckInOrder` | server/src/frontend/game.ts:42-53 | Before the shuffle the 25 cards stand in order: red's, blue's, the neutral ones, the assassin. |
| `Board.WordsComeFromDistinctPositions` | server/src/frontend/game.ts:100-105 | A board's words come from distinct positions of their pool. |
| `Deals.StarterIff` | server/src/frontend/game.ts:39 | Red starts if and only if the draw of the number plus 1000 is over a half. |
| `Deals.EveryDealArises` | server/src/frontend/game.ts:34-105 | For pools of up to 500 words any starter, any arrangement of its cards and any 25 words of the pool in any order are dealt together under some generator: no part of a deal is fixed or tied to another. |
| `Standalone.StarterHasTheLargerShare` | server/src/frontend/game.ts:38-52 | The team that starts has exactly one card more than the other, and both totals are the cards on the board. |
| `UrlQuery.EscapesAreUndone` | server/src/frontend/url-state.ts:22-37 | The percent escapes the URL parser puts into a query make no difference to form decoding, whatever the text, percent signs and unpaired surrogates included. |
| `UrlQuery.ReadIff` | server/src/frontend/url-state.ts:22-37 | Text written into a link as it is is read back if and only if it is well formed and holds no plus sign, no percent sign with two hexadecimal digits after it, and no tab, line feed or carriage return; it never gets longer. |
| `UrlQuery.EscapedTextIsRead` | server/src/frontend/game.ts:313-314 | Text written with every byte escaped is read back as it is, unpaired surrogates replaced. |
| `UrlQuery.SearchedIsPrintable` | server/src/frontend/url-state.ts:37 | What the URL parser leaves in an address is printable ASCII without spaces, quotes, `#` and angle brackets. |
| `SavedLink.ParsePrinted` | server/src/frontend/url-state.ts:18-27 | A printed link parses back to exactly its parameters when the seed survives. |
| `SavedLink.SeedComesBackIff` | server/src/frontend/url-state.ts:22 | The seed is printed unescaped: every seed reads back from its own link if and only if it is well formed and holds none of `&`, `#`, `+`, tab, line feed, carriage return, and no percent sign with two hexadecimal digits after it. |
| `SavedLink.EveryTextIsAskedFor` | server/src/frontend/game.ts:313-314 | Every well-formed seed is what some link asks for: the one with each of its bytes escaped. |
| `SavedLink.FirstNameWins` | server/src/frontend/game.ts:313-319 | Of two parameters of one name the first counts. |
| `SavedLink.TrailingBlankIsIgnored` | server/src/frontend/game.ts:313 | Spaces and controls at the end of a link make no difference. |
| `SavedLink.FragmentIsIgnored` | server/src/frontend/game.ts:313 | Nor does what follows a `#`. |
| `Standalone.RevealKeeps` | server/src/frontend/game/reveal.ts:116-149 | A click keeps the game its seed's board, its scores the revealed cards, and its outcome what the board shows. |
| `Standalone.RestoringKeepsScores` | server/src/frontend/game.ts:366-375 | The restore loop reveals exactly the marked cards and counts each team's. |
| `SavedGame.ChosenWords` | server/src/frontend/settings.ts:239-251 | Wherever the settings leave the word source at default, the active list is the built-in one, word for word. |
| `SavedGame.DealtGameIsTheChoices` | server/src/frontend/game.ts:80-106 | A deal succeeds if and only if the chosen list has 25 words; the game then has the number's board and starter, the first 25 words of the shuffled list, and is marked custom exactly if the choice adds or names words of its own. |
| `SavedGame.DeduplicatedOnce` | server/src/frontend/settings.ts:243-247 | Merging lists keeps each word once, where it first was. |
| `SavedGame.PoolWithoutList` | server/src/frontend/game.ts:81-89 | Without a list argument the pool is the active list, or, when that has the built-in words and a localized list is at hand, all words of both, each once, the localized ones first. |
| `SavedGame.LoadedGameIsTheLinks` | server/src/frontend/game.ts:312-388 | A link is loaded if and only if it names a seed and there are words to deal; the game then has that seed and its board, shows exactly the cards marked `1`, has the turn of its `b` or `r` or else the starter's, and its words are the 25 the link carries or else the first 25 of the shuffled built-in list. |
| `SavedGame.ClickPassesTheTurnIff` | server/src/frontend/game/reveal.ts:116-149 | In every run a click on a hidden card of a running game turns exactly that card over, and passes the turn if and only if it neither ends the game nor is a card of the team to move; other clicks, and a pass after the end, change nothing. |
| `SavedGame.EveryGameIsConsistent` | server/src/frontend/game.ts:34-106 | In every run of deals, clicks, passes and loaded links, arbitrary ones included, the game is its seed's board, with 25 nonempty words, scores equal to the revealed cards and the outcome they give; and a game not marked custom has the words the built-in list deals. |
| `SavedGame.SavedGameReloads` | server/src/frontend/game.ts:348-388 | Saving and loading restores seed, types, reveals, turn, scores, totals, outcome and winner of every consistent game, and says exactly which words it comes back with. |
| `SavedGame.WordsComeBackIff` | server/src/frontend/game.ts:352-362 | The words come back if and only if the link carries them unharmed, or they are what the built-in list deals anyway. |
| `SavedGame.SavedGameComesBackIff` | server/src/frontend/url-state.ts:18-37 | The whole game comes back as it was if and only if its seed is nonempty and survives the link, and a custom list has 25 nonempty well-formed words, no leading U+FEFF and fits the cap, or a list not marked custom is the built-in deal. |
| `SavedGame.ReachedGameComesBackIff` | server/src/frontend/game.ts:34-106 | Of a game that a run of deals, clicks, passes and loaded links reaches, that is so if and only if its seed is nonempty and survives, and its words, if it is marked custom, are well formed, start with no U+FEFF and fit the cap: an unmarked game always gets its words back. |
| `SavedGame.EverySeedIsReached` | server/src/frontend/game.ts:313-361 | Every nonempty well-formed seed is the seed of some reached game, the ones that do not survive their link included. |
| `SavedGame.TabIsLost` | server/src/frontend/url-state.ts:22-37 | For one: the link `?game=a%09b` starts the game of "a", a tab and "b", and the link of that game asks for the game of "ab". |
| `SavedGame.PrintsTheSameAgain` | server/src/frontend/url-state.ts:18-27 | Printing a reloaded game gives the same seed, reveals and turn always, and the same words parameter if and only if there was none or the link carried the words without a leading mark. |
| `StandaloneGame.GameState.SetupGameBoard` | server/src/frontend/game.ts:34-62 | In place, the board, totals, turn and cleared play of a number. |
| `StandaloneGame.GameState.InitGameWithWords` | server/src/frontend/game.ts:65-77 | In place, the board of a seed with exactly these 25 words, or no change at all. |
| `StandaloneGame.GameState.InitGame` | server/src/frontend/game.ts:80-109 | In place, the board of a seed with words dealt from the chosen pool, or no change at all. |
| `StandaloneGame.GameState.CheckGameOver` | server/src/frontend/game/scoring.ts:13-32 | In place, the assassin first, then red's and blue's completed totals. |
| `StandaloneGame.GameState.RevealCard` | server/src/frontend/game/reveal.ts:29-149 | In place, one standalone click. |
| `StandaloneGame.GameState.EndTurn` | server/src/frontend/game.ts:410-443 | In place, the standalone turn flip, refused once the game is over. |
| `StandaloneGame.GameState.UpdateURL` | server/src/frontend/url-state.ts:18-27 | The printed query, parameter by parameter in order. |
| `StandaloneGame.GameState.LoadGameFromURL` | server/src/frontend/game.ts:312-388 | In place, loading a link: the specified game, or no change when it names none or none can be dealt. |
| `StandaloneGame.GameState.RestoreRevealed` | server/src/frontend/game.ts:366-375 | The restore loop is the specified fold over the characters. |
| `Engine.ClampClueNumber` | server/src/bots/engine.ts:107-112 | Whatever number a caller passes, the stored one lies between -1 and 9. |
| `EngineTurns.ClampIsNearest` | server/src/bots/engine.ts:107-112 | It is the number cut toward zero, the nearer end of -1 to 9 beyond that range, and 0 for one that is not finite. |
| `EngineTurns.EveryClueGrantsItsNumber` | server/src/bots/engine.ts:93-157 | In the log of every run each clue from 1 on grants one guess more than its number, any other no limit. |
| `EngineTurns.ClueIsOut` | server/src/bots/engine.ts:128-157 | After every run a clue is out as it was given, with no guess used; turn and board stay. |
| `EngineTurns.PassingPasses` | server/src/bots/engine.ts:201-214 | After every run a pass makes it the other team's turn with no clue out, and logs both teams. |
| `EngineTurns.RevealPassesTheTurnIff` | server/src/services/game/revealEngine.ts:121-166 | After an accepted reveal in any run of a classic or match game: unless the game ends, the turn passes and the clue is cleared if and only if the card is not the revealing team's or was the last guess of the log's last clue, its number plus one; the reported `turnEnded` and reason say exactly this. |
| `EngineTurns.DuetRevealPassesTheTurnIff` | server/src/services/game/revealEngine.ts:172-220 | The same in any run of a duet, where the turn passes on a bystander, as the team to move sees the card, or on the last guess; a bystander costs exactly one token; the six reported reasons are told apart exactly. |
| `EngineTurns.TurnIsTheMovers` | server/src/services/game/revealEngine.ts:111-166 | In every run of a classic or match game the turn is the one these rules give, counted from the first team. |
| `EngineTurns.DuetTurnIsTheMovers` | server/src/services/game/revealEngine.ts:111-220 | And in every run of a duet that is not over. |
| `EngineTurns.LogTellsTheBoard` | server/src/services/game/revealEngine.ts:59-106 | In every run the log names exactly the cards that are face up, who turned each over and what that team saw. |
| `EngineRuns.HistoryIsTheLogsTail` | server/src/bots/engine.ts:114-125 | Over any run the stored history is the last 200 entries of the log of everything applied, and the version is one more than the number of applied actions. |
| `EngineRuns.CluesAreAllKept` | server/src/bots/engine.ts:128-157 | The clue list holds every clue of the log. |
| `EngineRuns.EveryRunScoresItsCards` | server/src/services/game/revealEngine.ts:59-106 | Over any run each team's score is its revealed cards, in a duet the agents it found from its own side, which together are the agents found; and each match score is the sum of the values of the cards that team revealed. |
| `EngineRuns.MatchScoreIsConserved` | server/src/bots/engine.ts:173-180 | In a match the two scores add up to exactly the values of the revealed cards. |
| `EngineRuns.EveryRunIsPlayable` | server/src/services/game/revealEngine.ts:121-166 | A running game always has a guess left when guesses are limited, no winner yet, and outside duets neither team complete. |
| `EngineRuns.ExactRefusals` | server/src/services/game/revealEngine.ts:18-53 | So a reveal is accepted if and only if the index is on the board, the game runs, a clue is out and the card is hidden; each refusal names the first of these that fails, and the guess-budget refusal never happens in a run. |
| `EngineVerdicts.EveryGameIsWonByTheBoard` | server/src/services/game/revealEngine.ts:121-152 | In every run of a classic or match game the winner is the team that completed its cards, red before blue, or the other team of the one that hit the assassin; the game is over exactly when there is a winner, and the assassin is hit at most once. |
| `EngineVerdicts.EveryDuetIsDecidedByTheBoard` | server/src/services/game/revealEngine.ts:172-220 | In every run of a duet the game is over if and only if all agents are found, an assassin is hit, the tokens are used up or too few agents are in reach; it is won exactly in the first case; tokens left and revealed bystanders always make nine. |
| `EngineVerdicts.EveryGuessIsNumbered` | server/src/bots/engine.ts:164-198 | In the log of every run each reveal carries its place among the reveals of its clue, follows a clue, and stays within that clue's budget. |
| `EngineDuet.NothingBeyondReach` | server/src/services/game/revealEngine.ts:224-242 | However cards are uncovered, no more agents are found than the guard says are in reach. |
| `EngineDuet.WinIsPossible` | server/src/services/game/revealEngine.ts:172-242 | From every running duet there is a sequence of actions that wins it. |
| `EngineDuet.GuardIsExact` | server/src/services/game/revealEngine.ts:231-242 | A running duet can still be won by some sequence of actions if and only if the guard finds enough agents in reach. |
| `EngineDuet.DealtDuetIsAlive` | server/src/services/game/boardGenerator.ts:83-123 | Every dealt duet board has exactly the 15 agents to find, whatever the seed. |
| `EngineDuet.EveryRunningDuetCanBeWon` | server/src/services/game/revealEngine.ts:172-242 | So in every run of every dealt duet, a game that is not over can be played on to a win. |
| `EngineGame.Game.ApplyEngineClue` | server/src/bots/engine.ts:128-157 | In place, the clue with its clamped number, budget, log entry and version. |
| `EngineGame.Game.ApplyEngineReveal` | server/src/bots/engine.ts:160-198 | In place, a refused reveal changes nothing and says why; an accepted one has exactly the effect, card, verdict and reason that `EngineTurns` states for every run. |
| `EngineGame.Game.ApplyEngineEndTurn` | server/src/bots/engine.ts:201-214 | In place, the turn passes, the clue and its budget are cleared, and the entry is logged. |
| `EngineGame.Game.ExecuteCardReveal` | server/src/services/game/revealEngine.ts:59-106 | In place, the card is turned over and counted, in a duet from the perspective of the team to move. |
| `EngineGame.Game.DetermineRevealOutcome` | server/src/services/game/revealEngine.ts:121-166 | In place, the classic and match verdict: the assassin, a completed team, a wrong card, the last guess, in that order. |
| `EngineGame.Game.DetermineDuetRevealOutcome` | server/src/services/game/revealEngine.ts:172-220 | In place, the duet verdict, its guard included. |
| `EngineGame.Game.IsDuetWinUnreachable` | server/src/services/game/revealEngine.ts:231-242 | The counting loop decides exactly whether the agents in reach are too few. |
| `RoleChange.EveryRunKeepsRoles` | server/src/frontend/roles.ts:253-446 | Through every interleaving of clicks, acks, updates, resyncs, errors, resets and timers: never both roles, each role held is the player's own team's, at most the newest operation is in flight, it would revert to such a seat, and its own failsafe is armed, due ten seconds after its click. |
| `RoleChange.ErrorAckRestores` | server/src/frontend/roles.ts:283-302 | The error ack of a change still in flight restores exactly the team and roles its click found, whatever happened in between. |
| `RoleChange.MessageIsShown` | server/src/frontend/handlers/playerEventHandlers.ts:113-127 | In every run a resync, and an update that comes while no change is in flight or confirms it, shows the team it names, with the spymaster or clicker role if and only if it names that role and a team; any other update changes nothing. |
| `RoleChange.ClickIsShown` | server/src/frontend/roles.ts:253-446 | In every run a click outside rooms, or in a room with no change in flight, shows at once the clicked team with roles dropped if it changes, or the clicked role alone, or that role given up if it was held; in a room it is then in flight with the seat before it and a failsafe ten seconds off; otherwise it does nothing. |
| `RoleChange.EndIsShown` | server/src/frontend/roles.ts:57-66 | In every run an error ack of the change in flight, a server error and a lost connection show the seat before its click; other acks do nothing; a reset clears the seat; a local drop takes the roles. |
| `RoleChange.FallbackIsTheWordIff` | server/src/frontend/handlers/playerEventHandlers.ts:113-127 | In every run the seat a revert would show is the server's last word on it, updates the client leaves aside included, if and only if the last message, local change or failsafe that could have parted the two did not. |
| `RoleChange.ErrorAckIsTheWordIff` | server/src/frontend/roles.ts:283-302 | After every run, and every run of events that leaves a click's change in flight, the change's error ack shows the seat before the click, and that is the server's last word under exactly that condition. |
| `RoleChange.SilentChangeReverts` | server/src/frontend/roles.ts:57-66 | When the server says nothing during the change, the error shows its last word if and only if the client was in touch at the click. |
| `RoleChange.SpokenChangeReverts` | server/src/frontend/handlers/roomEventHandlers.ts:117-128 | When it speaks during the change without ending it, by a resync or an update that confirms nothing, the error undoes its last word, whatever else happens, if and only if that was not the seat before the click. |
| `RoleChange.OverwrittenResync` | server/src/frontend/handlers/roomEventHandlers.ts:117-128 | Such a run: a team click, a resync to the other team and the click's refusal leave the player with no team. |
| `RoleChange.IgnoredUpdate` | server/src/frontend/handlers/playerEventHandlers.ts:113-127 | And another: a spymaster clicks the other team, the server takes the role away, the click is refused; the player is shown as spymaster. |
| `RoleChange.FailsafeEndsItsChange` | server/src/frontend/roles.ts:27-37 | In every run a failsafe that fires leaves the shown seat, and ends the change in flight if and only if that is at least ten seconds old, whatever timers earlier changes have left armed. |
| `RoleControls.Controls.SetTeam` | server/src/frontend/roles.ts:253-329 | In place, a team click: shown at once with its revert and failsafe, ignored while another change is in flight or offline. |
| `RoleControls.Controls.SetRoleForTeam` | server/src/frontend/roles.ts:358-445 | In place, a role click likewise: taken with its team, or given up when clicked again. |
| `RoleControls.Controls.RevertAndClearRoleChange` | server/src/frontend/roles.ts:57-66 | In place, the seat before the click is back and the change is over; the failsafe stays armed. |
| `RoleControls.Controls.OnAck` | server/src/frontend/roles.ts:296-302 | In place, an error ack reverts exactly its own operation's change. |
| `RoleControls.Controls.OnAbsoluteTimeout` | server/src/frontend/roles.ts:29-36 | In place, the failsafe ends a change in flight and leaves the shown seat. |
| `RoleControls.Controls.OnPlayerUpdated` | server/src/frontend/handlers/playerEventHandlers.ts:113-125 | In place, a server update is applied and ends the change exactly when idle or when it confirms the change in flight. |
| `RoleControls.Controls.SetPlayerRole` | server/src/frontend/stateMutations.ts:33-56 | In place, the server's role and team, with roles only on a valid team. |
| `RoleControls.Controls.ResetMultiplayerState` | server/src/frontend/multiplayerSync.ts:152-157 | In place, the seat is cleared and any change ended. |
| `Recap.GroupClueBlocks` | server/src/frontend/recap.ts:53-74 | The grouping loop computes the specified blocks. |
| `Recap.BlocksAreTheGame` | server/src/frontend/recap.ts:53-74 | The blocks laid end to end are every clue and every guess from the first clue on, in order. |
| `Recap.ComputeClueEfficiency` | server/src/frontend/recap.ts:92-112 | The four counts partition the guesses, the rating is clean exactly when every guess was correct and enough landed, and the score is their weighted sum. |
| `Recap.BlocksCountTheirReveals` | server/src/frontend/recap.ts:45-106 | In every event stream each block's correct, wrong, neutral and assassin counts are exactly the reveals under its own clue of a card of the guessing team, of any other label, of a neutral card and of an assassin. |
| `Recap.ComputeStats` | server/src/frontend/recap.ts:121-137 | The statistics loop computes the specified fold. |
| `Recap.StatsAreCounts` | server/src/frontend/recap.ts:121-137 | For every event stream: red cards revealed by red, blue cards revealed by blue, all clues, and the team of the last reveal of an assassin. |
| `Recap.PassesBalance` | server/src/frontend/recap.ts:53-137 | For every event stream: what the blocks land plus the correct reveals before the first clue is what the statistics count plus the matches without a real team. |
| `Recap.LandedIsCorrectIff` | server/src/frontend/recap.ts:92-137 | For events of real teams the total landed equals red's plus blue's correct cards if and only if no correct reveal precedes the first clue. |

## Left out

- BotDriver.EveryRunKeepsTheProtocol: `stopBotController` is no step of a run, because it clears `inFlight` under a running tick.
- BotDriver.EffectKeeps: the awaits between reading the game and applying an action are merged into two phases, since nothing the driver keeps changes between them; advisor suggestions, language-model advice and pacing are therefore not separate steps.
- BotBackoff.GivesUpAfterSevenFailures: is about a room that no notification, successful action or eviction of its streak entry touches; each of these restarts the count.
- BotRoster.BotlessRecordsAreTrue: gives one direction; the exact condition is `BotRoster.BotlessRecordsAreTrueIff`.
- Deals.EveryDealArises: is about pools of up to 500 words; larger pools draw from the seeds the cards are shuffled by.
- Shuffles.EveryOrderIsDealt: is about arrays of up to 2^32 items, since a draw has 32 bits.
- ClueHistory.TrackerIsItsHistory: is about snapshots of one classic or match game with growing reveals; a duet's memory stays empty by design.
- RateNumbers.EveryWindowIsBounded: is about slots that are not evicted in the run and whose window the sweep covers; `RateSweep.ShortSweepBreaksTheBound` shows the second condition is needed.
- RateLimiter.Limiter.Check: the load-test bypass, counters, logs and unique-visitor sets are not modelled.
- SavedGame.SavedGameReloads: is about seeds that survive their link and are not empty; a link without a seed starts a new game with a random one.
- StandaloneGame.GameState.RevealCard: is the click of a player who may click; the role gates, the multiplayer paths and rendering are not modelled.
- StandaloneGame.GameState.EndTurn: the clicker gate, the toasts and the multiplayer path are not modelled.
- StandaloneGame.GameState.UpdateURL: the team names that may follow in the link are not modelled, nor is its catching of encoding errors.
- StandaloneGame.GameState.LoadGameFromURL: team names, the reset of the player's roles and the game-over dialog are not modelled.
- StandaloneGame.GameState.InitGame: the reason shown when there are too few words is not modelled.
- EngineGame.Game.ApplyEngineReveal: indices that are not integers and games whose arrays are shorter than the board are not modelled.
- EngineDuet.GuardIsExact: winning means some sequence of actions, chosen with both perspectives known; it says nothing about what players can know.
- RoleChange.EveryRunKeepsRoles: observer and advisor flags, the queued role that no code path sets, and the messages to the server are not modelled; operation ids are taken to be unique.
- Recap.PassesBalance: words and team names are opaque labels.
- Team names in the saved-game link: they are filtered on load and do not round-trip.
- Match rounds after the first, the generation of card scores, and round bonuses.
- Bot strategies, word semantics, personas and presets: any action may be chosen.
- Redis, sockets, HTTP, authentication, the user interface, translations, notifications, chat and settings: input and output around the modelled logic.
- The saved word list library and the room promises of the socket client.
