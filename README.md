# RankMyWord: a verified model of the game's core logic

RankMyWord (RMW2) is a Spanish word-association game. A player is given a
prompt word and answers with a word of their own. An AI judge scores how well
the two connect, from 0 to 10, and adds a comment. This project models the
parts of the game that are sequential logic rather than network or UI, and
proves properties of them.

- **Score resolution** (`Scoring`, `Game.App.GetCachedScore`) follows
  `getCachedScore`:
  - The cache key is case-normalised: `lower(prompt) + "_" + lower(response)`.
  - Three tiers are tried in strict order: the local map, the global store,
    then the scorer.
  - A scorer result is written back to both caches only when it is not an
    error. Every write touches one key and nothing else.
  - `checkGlobalCache` and `getWordScore` are function parameters.
    Every collaborator call is recorded, in order, in an event log.
- **The local multiplayer round** (`Players`, `Game.App`):
  - Start or restart a round.
  - Submit one answer per turn.
  - On the last turn, score every answer, accumulate the totals once and sort
    the players ascending by round score for the reveal.
- **The results reveal** (`Reveal`):
  - The reveal index starts at -1.
  - A thinking phase steps through five phrases; its end reveals the first
    player.
  - Each "show next" click reveals exactly one more player.
  - Once the round is finished, the standings appear, sorted descending by
    total score.
- **The countdowns** (`Countdown`): the `HH:MM:SS` text of the
  prompt-rotation timer and of the daily-ranking reset timer. Each text is
  proved to read back as the whole seconds left.
- **The daily prompts and the creative prompt** (`PromptPool`, `Prompts`):
  - `getDailyPrompts` returns three distinct words of the 40-word pool, chosen
    by `(seed * 17 + k * 31) % 40`.
  - `generateCreativePrompt` cleans the model's text, and falls back to one of
    seven words when the model call fails.
- **The scoring endpoint** (`ScoreApi`): the handler of `api/score.ts`.
  - Its checks run in a fixed order: the HTTP method, then the API key, then
    the parameters. Then come the model call and the parse of its text, and a
    catch-all.
  - Each path gives a status code (405, 500, 400, 200) and a JSON body.

Support modules:
- `Wrappers`: `Option`.
- `Text`: JavaScript white space, and Latin-1 case mapping.
- `Decimal`: `String(n)`, `padStart(2, '0')`, and a parse back used to state
  round trips.

The clock is never read. The timers and the daily prompts take the
millisecond difference, the UTC time, or the day of the year and the hour as
arguments.

## Model

| member | source | states |
|---|---|---|
| Scoring.Key | App.tsx:133 | the key is the lower-cased prompt, one `_`, then the lower-cased response, at those exact positions |
| Scoring.KeyIgnoresCase | App.tsx:133 | pairs that differ only in letter case (upper- or lower-cased) share one key |
| Scoring.KeyNotInjective | App.tsx:133 | ("a_b", "c") and ("a", "b_c") get the same key, so an `_` in a prompt can make two different pairs collide |
| Scoring.KeyInjectiveWithoutUnderscore | App.tsx:133 | when neither prompt holds `_`, two keys are equal if and only if both pairs are equal up to letter case |
| Scoring.Resolve | App.tsx:132-159 | tiers in order: a local hit iff the key is in the snapshot; a global hit iff the local lookup missed and the global store answers; otherwise the scorer. The result comes from the tier that answered. The global store is asked iff there was no local hit, and the scorer iff both caches missed. A save to the global store is the last call iff the scorer's result is not an error, and there is none otherwise. The value written locally is the one returned, and it is written iff it came from the global store or is a non-error scorer result |
| Scoring.Store | App.tsx:143-154 | the functional cache update: without a value the map is unchanged; with one, the key maps to the value and every other key keeps its presence and its entry |
| Scoring.CaseVariantsHitLocal | App.tsx:133-136 | any spelling of a pair that has a local entry gets that entry and makes no collaborator call |
| Scoring.ResolveThenHit | App.tsx:136-155 | after a resolution that wrote back, resolving the same pair against the updated map is a local hit with the same answer and no calls |
| Scoring.ErrorIsRetried | App.tsx:149-158 | an error result from the scorer leaves the map unchanged, is returned as it came, and the calls are only the global lookup and the scorer |
| Scoring.ResolveAll | App.tsx:282-283 | the lookups of one round: one per answer, all against the same captured map |
| Scoring.StoreAll | App.tsx:143-154 | the local map after a round's writes: no key is lost, and every new key is the key of one of the round's words |
| Scoring.EventsOf | App.tsx:282-290 | the round's collaborator calls: every call of every lookup is there, and nothing else |
| Scoring.StoreAllStep | App.tsx:282-290 | each further lookup's write is applied last and its calls are made last |
| Scoring.StoreAllOnlyRoundKeys | App.tsx:143-157 | every key that no lookup of the round wrote keeps its presence and its entry: a key no round word builds, and a round key whose every lookup was a local hit or an error result |
| Scoring.StoreAllKeepsWrites | App.tsx:143-154 | every write of the round is in the map afterwards, and keeps its value unless a later lookup of the same key writes again |
| Scoring.SameWordScoredTwice | App.tsx:136 | because every lookup reads the captured map, two players who give the same uncached word (in any letter case) both reach the scorer |
| Game.App.constructor | App.tsx:68-113 | the initial state: home screen, no players, turn 0, empty prompt, not loading, the stored cache |
| Game.App.GetCachedScore | App.tsx:132-159 | the returned value, the new local map and the calls made are those of `Scoring.Resolve` against the captured map. `loading` is left alone on a local hit and is false afterwards otherwise. No other field changes |
| Game.App.StartMultiplayerGame | App.tsx:167-177 | new players from the names, the creative prompt, the game screen at turn 0, not loading; the cache and the log are unchanged |
| Game.App.BeginRound | App.tsx:173-176 | the shared end of a start and a restart: the fresh prompt, not loading, the game screen at turn 0, the players, the cache and the log kept, and the turn invariant established |
| Game.App.RestartMultiplayerGame | App.tsx:179-189 | the same players with the round fields cleared, a new creative prompt, the game screen at turn 0, not loading |
| Game.App.FinishMultiplayer | App.tsx:304 | back to the home screen with everything else kept |
| Game.App.ScoreAnswers | App.tsx:282-290 | the loop over the answers, against the captured map and prompt: the results, the new map and the log are those of the round's resolutions (`ResolveAll`, `StoreAll`, `EventsOf`). `loading` keeps its value only when every lookup was a local hit, and is false otherwise. No other field changes |
| Game.App.ScoreNext | App.tsx:283 | one lookup of the round extends the results, the map, the log and `loading` by that answer's resolution, and changes no other field |
| Game.App.SubmitWord | App.tsx:274-296 | before the last turn: the word is recorded, the turn advances, and there is no scoring and no cache change. On the last turn: every player has answered, the players become the scored and sorted round, the map and the log take the round's writes and calls, the mode becomes the results screen and loading is off. The turn invariant is kept and the prompt is unchanged |
| Game.App.EndRound | App.tsx:280-294 | the last submission: scoring against the map as it was, the sorted scored players, the results screen |
| Game.App.ShowRound | App.tsx:292-294 | the scored players sorted by round score, not loading, the results screen; the map, the log, the turn and the prompt kept |
| Game.Answer | App.tsx:275-277 | the current player's word is set and every other player is unchanged |
| Game.WordsOf | App.tsx:283 | the answers in player order, one per player |
| Game.ScoredRound | App.tsx:282-292 | the scored round is a permutation of the players with their results, as many as the players, ascending by round score |
| Game.ScoredRoundAddsOnce | App.tsx:288 | the sum of the totals after the round is the sum before plus the sum of the round's scores |
| Players.NewPlayers | App.tsx:170 | one player per name, named in order, total 0, nothing recorded; the id of player i is `String(i)`, which reads back as i, and ids are pairwise distinct |
| Players.ClearRound | App.tsx:182 | same length; word, score and comment cleared; id, name and total kept |
| Players.ClearRoundIdempotent | App.tsx:182 | clearing twice is clearing once, and players with nothing recorded are left as they are |
| Players.NewPlayersAreClear | App.tsx:170-182 | restarting straight after starting changes no player |
| Players.ScoreRound | App.tsx:284-289 | each player keeps id, name and word, gets the score and comment of its result, and its total grows by exactly its round score |
| Players.RoundScore | App.tsx:292 | `a.score || 0`: the recorded round score, or 0 when there is none |
| Players.ScoreRoundAddsOnce | App.tsx:288 | the totals grow, in sum, by the sum of the round's scores |
| Players.ScoreRoundMonotone | App.tsx:288 | with non-negative scores no total goes down |
| Players.Insert | App.tsx:292 | inserting into a sorted list keeps it sorted, adds exactly that player (multiset) and adds its total to the sum |
| Players.SortBy | App.tsx:292 | the comparator sort: sorted by the key, a permutation, and the totals' sum is unchanged |
| Players.SortByRound | App.tsx:292 | the reveal order: a permutation, ascending by round score (a missing score counts as 0) |
| Players.Standings | App.tsx:944 | the standings: a permutation, descending by total score |
| Players.NegTotal | App.tsx:944 | the key of the standings sort: the negated total, so ascending keys are descending totals |
| Players.PermutationKeepsPlayers | App.tsx:292 | a sorted copy has as many players, and the same ones |
| Players.StandingsLeader | App.tsx:944 | the first of the standings is one of the players and has the highest total |
| Players.SortsKeepTotals | App.tsx:292 | neither sort changes the sum of the totals |
| Reveal.TickStep | App.tsx:912-924 | one firing of the interval: the next phrase while below the last; at the last one the timeout is scheduled; otherwise nothing. The reachable-state invariant is kept |
| Reveal.EndThinkingStep | App.tsx:916-919 | the timeout ends thinking and sets the reveal index to 0; it keeps the invariant |
| Reveal.ShowNextStep | App.tsx:1008-1009 | a click moves the index up by exactly one, and only while thinking is over and the index is below N-1; it keeps the invariant |
| Reveal.IsFinished | App.tsx:943 | finished only once thinking is over; for reachable states with at least one player, finished iff thinking is over and the index is exactly N-1 |
| Reveal.InitialState | App.tsx:890-892 | the reveal starts at index -1, phrase 0, thinking, with no timeout pending; this state is reachable and not finished |
| Reveal.Phrase | App.tsx:957 | the phrase on screen is one of the five thinking phrases |
| Reveal.Revealed | App.tsx:962 | a prefix of the players: none while thinking, then index + 1 players (at most N) |
| Reveal.StandingsShown | App.tsx:943-944 | the standings once finished, nothing before |
| Reveal.TicksFromStart | App.tsx:912-924 | k ticks from the start show phrase k up to the last phrase; after that the timeout is pending and nothing moves |
| Reveal.TicksFrom | App.tsx:912-924 | the same from any thinking state without a pending timeout |
| Reveal.TicksWhilePending | App.tsx:913-916 | once the timeout is pending, ticks change nothing |
| Reveal.ClicksAfterThinking | App.tsx:1008-1009 | after thinking ends, k clicks leave the index at min(k, N-1), and the round is finished exactly when k >= N-1 |
| Reveal.ClicksFrom | App.tsx:1008-1009 | the same from any index at or above 0 |
| Reveal.FinishedIsStable | App.tsx:943 | once finished, no action unfinishes it, and a click changes nothing |
| Reveal.FinishedRevealsAll | App.tsx:943-962 | when finished, the revealed prefix is every player, in order |
| Reveal.ShowNextRevealsOne | App.tsx:962-1009 | a click that changes anything reveals exactly the next player |
| Reveal.Results.constructor | App.tsx:890-892 | index -1, phrase 0, thinking, nothing pending |
| Reveal.Results.Tick | App.tsx:912-924 | the fields step as `TickStep` says, keeping the invariant |
| Reveal.Results.EndThinking | App.tsx:916-919 | the fields step as `EndThinkingStep` says, keeping the invariant |
| Reveal.Results.ShowNext | App.tsx:1008-1009 | the fields step as `ShowNextStep` says, keeping the invariant |
| Reveal.Results.Screen | App.tsx:943-962 | what is on screen: the revealed prefix, the standings, and whether the round is finished |
| Countdown.Two | App.tsx:449-451 | a field has at least two digits, exactly two below 100, and reads back as its value |
| Countdown.Clock | App.tsx:449-453 | three fields joined by `:`, minutes and seconds below 60, have the clock shape, and each field reads back as itself |
| Countdown.FormatHMS | App.tsx:449-453 | the text has the clock shape: hours of any length, then minutes and seconds of two digits each, both below 60 |
| Countdown.FormatHMSFields | App.tsx:449-451 | the three fields of the text read back as the hours, the minutes and the seconds the timer computed |
| Countdown.SixtyMinutesRejected | App.tsx:449-453 | `00:60:00` is not a clock text, while `01:00:00` reads back as 3600 seconds |
| Countdown.ParseClock | App.tsx:449-453 | three joined fields read back as hours * 3600 + minutes * 60 + seconds |
| Countdown.ParseHMS | App.tsx:453 | a text parses iff it has the clock shape, with minutes and seconds below 60, so only the canonical split reads back |
| Countdown.FieldsBySeconds | App.tsx:449-451 | each field computed from milliseconds equals the same field computed from whole seconds |
| Countdown.FieldsOfHMS | App.tsx:449-451 | minutes and seconds are below 60, and the three fields add up to the whole seconds |
| Countdown.ParseFormatHMS | App.tsx:449-453 | the text reads back as the whole seconds left |
| Countdown.FormatHMSInjective | App.tsx:449-453 | two differences give the same text iff they have the same whole seconds |
| Countdown.CountdownTick | App.tsx:440-453 | a reload iff the difference is not positive; otherwise the text reads back as the whole seconds left |
| Countdown.NextUtcMidnight | App.tsx:789 | the next UTC midnight is strictly after now, at most a day later, and falls on a day boundary |
| Countdown.FullDayText | App.tsx:796-806 | a full day is shown as `24:00:00` |
| Countdown.ResetTimerText | App.tsx:786-806 | the reset text reads back as the whole seconds to the next UTC midnight |
| Countdown.ResetTimerBounds | App.tsx:790-806 | the difference is positive and at most a day, so the branch for a past midnight is never taken; the text is `24:00:00` iff now is exactly a UTC midnight |
| Countdown.ResetFullDay | App.tsx:786-806 | the reset text is `24:00:00` iff now is exactly a UTC midnight |
| Countdown.MidnightDiff | App.tsx:789-790 | the time to the next UTC midnight is a day less the time since the last one |
| PromptPool.Pool | services/geminiService.ts:81-86 | the 40 pool words, in their order |
| PromptPool.PoolWordsDistinct | services/geminiService.ts:81-86 | the pool entries are pairwise different |
| PromptPool.PoolDistinct | services/geminiService.ts:81-86 | the pool has 40 pairwise different entries |
| Prompts.HourBlock | services/geminiService.ts:78 | the 4-hour block holds the hour, and it is below 6 for hours below 24 |
| Prompts.Seed | services/geminiService.ts:79 | the seed is the day of the year plus the 4-hour block that holds the hour, below the day plus 6 for hours below 24 |
| Prompts.WordIndex | services/geminiService.ts:88 | every index is inside the pool |
| Prompts.DailyPrompts | services/geminiService.ts:75-91 | three words; word k is the pool entry at `(seed*17 + k*31) % 40`; the three are pairwise distinct |
| Prompts.DailyWordsDistinct | services/geminiService.ts:81-88 | the three indices of a seed, and their words, are pairwise different |
| Prompts.DailyIndicesDistinct | services/geminiService.ts:88 | the three pool indices of any seed are pairwise different |
| Prompts.SameSeedSamePrompts | services/geminiService.ts:79-90 | the prompts depend only on `dayOfYear + hourBlock` |
| Prompts.NextBlockEqualsNextDay | services/geminiService.ts:77-79 | block b+1 of day d and block b of day d+1 have the same seed, and so the same prompts |
| Prompts.PromptsPeriodic | services/geminiService.ts:88 | seeds 40 apart give the same indices |
| Prompts.FirstToken | services/geminiService.ts:67 | `trim().split(/\s+/)[0]`: there is a cut point k with only white space before it and none at it, and the token is the longest white-space-free prefix from k on; it holds no white space and is no longer than the text |
| Prompts.TrimmedAtUnique | services/geminiService.ts:67 | the cut point of the leading white space is unique, so the first token is well defined |
| Prompts.TokenPrefixStops | services/geminiService.ts:67 | a white-space-free word followed by white space is the token |
| Prompts.FirstTokenAfterSpaces | services/geminiService.ts:67 | leading white space is skipped: the token of white space followed by a non-space is the token of the rest |
| Prompts.TokenPrefix | services/geminiService.ts:67 | the longest prefix without white space: a prefix, free of white space, followed by white space or the end |
| Prompts.StripQuotesAndDots | services/geminiService.ts:67 | no `"` or `.` is left, the result is no longer than the text, and only the text's own characters remain |
| Prompts.StripOne | services/geminiService.ts:67 | a single `"` or `.` is dropped, any other character is kept |
| Prompts.StripAppend | services/geminiService.ts:67 | the strip of a concatenation is the concatenation of the strips, so every other character is kept, in order |
| Prompts.CleanWord | services/geminiService.ts:67-68 | the creative word is the upper-cased first token of the trimmed text with every `"` and `.` removed; it has no white space, `"` or `.`, and is no longer than the text |
| Prompts.CleanWordExample | services/geminiService.ts:67-68 | the answer `  eco. más` gives `ECO` |
| Prompts.CleanWordIdempotent | services/geminiService.ts:67-68 | cleaning a cleaned word changes nothing |
| Prompts.TokenOfCleanWord | services/geminiService.ts:67 | a text without white space is its own first token |
| Prompts.StripClean | services/geminiService.ts:67 | a text without `"` or `.` is left unchanged by the strip |
| Prompts.CreativePrompt | services/geminiService.ts:60-72 | a model answer gives its cleaned word; any failure gives one of the seven fallback words |
| Prompts.FallbackIndex | services/geminiService.ts:71 | `floor(random * 7)` is inside the fallback list for `0 <= random < 1` |
| ScoreApi.ApiKey | api/score.ts:38 | the key is present iff one of the two variables is set; `GEMINI_API_KEY` wins when set |
| ScoreApi.Field | api/score.ts:39 | a parameter exists only in an object body, and then it is that body's field |
| ScoreApi.Truthy | api/score.ts:41 | JavaScript truthiness: a truthy value is present and not null; a string is truthy iff non-empty; a boolean iff true; a number iff non-zero; every array and object, even empty, is truthy |
| ScoreApi.HasParams | api/score.ts:48 | the parameter guard passes only for an object body holding both `prompt` and `responseWord`, and never when either of them is the empty string |
| ScoreApi.Spread | api/score.ts:70 | `{ ...scoreData }`: an object's fields; an array's or a string's index keys; nothing for other values |
| ScoreApi.Indexed | api/score.ts:70 | the index keys are exactly `"0"` to `"n-1"`, each mapped to its element |
| ScoreApi.InIndexKeys | api/score.ts:70 | `String(k)` is an index key below n iff k < n |
| ScoreApi.Details | api/score.ts:76 | the error's message when it is non-empty, else `Error desconocido`; never empty |
| ScoreApi.Crash | api/score.ts:72-78 | the catch branch answers 500 with exactly `error` and `details`: `error` is the fixed text, `details` the thrown message when there is one and `Error desconocido` otherwise |
| ScoreApi.TextOrEmpty | api/score.ts:68 | the model text when non-empty, else `"{}"`; never empty |
| ScoreApi.Handle | api/score.ts:31-79 | 405 iff the method is not POST. Then 500 for a missing key. Then 400 iff the parameters are missing. Then 200 iff the call answers and its text parses, with the parsed fields plus `isError: false`. Otherwise 500 with the thrown message. Each status comes with its exact body |
| ScoreApi.MethodDecidesFirst | api/score.ts:34-36 | every non-POST request gets the same response, whatever its body, the environment or the model |
| ScoreApi.KeyCheckedBeforeParams | api/score.ts:38-46 | a POST without a key is refused for configuration even when its parameters are missing too |
| ScoreApi.NoObjectNoParams | api/score.ts:39-50 | an absent or non-object body never carries the parameters |
| ScoreApi.SuccessOverridesIsError | api/score.ts:70 | a 200 body has `isError: false` whatever the payload said, and every other payload field as it was |
| ScoreApi.EmptyTextIsEmptyObject | api/score.ts:68-70 | an empty or absent model text gives 200 with only `isError: false` |
| ScoreApi.CrashHasDetails | api/score.ts:72-78 | a crash always explains itself: `details` is non-empty, and it is the default text when there is no message |
| Text.Lower | App.tsx:133 | `toLowerCase`, character by character, of the same length |
| Text.IsSpace | services/geminiService.ts:67 | the white space of `\s` and `trim()`: never a letter, a `"` or a `.` |
| Text.Upper | services/geminiService.ts:68 | `toUpperCase`, character by character, of the same length |
| Text.CaseMapKeepsSpace | services/geminiService.ts:67-68 | case mapping never creates or removes white space |
| Text.LowerIdempotent | App.tsx:133 | lower-casing twice is lower-casing once |
| Text.UpperIdempotent | services/geminiService.ts:68 | upper-casing twice is upper-casing once |
| Text.LowerOfUpper | App.tsx:133 | lower-casing forgets an earlier upper-casing |
| Decimal.NatToString | App.tsx:170 | `String(n)`: digits only, with no leading zero |
| Decimal.ParseNatToString | App.tsx:170 | `String(n)` reads back as n |
| Decimal.NatToStringInjective | App.tsx:170 | different numbers have different texts |
| Decimal.PadStart2 | App.tsx:449 | `padStart(2, '0')`: zeros in front up to length 2, and longer texts unchanged |
| Decimal.PaddedRoundTrip | App.tsx:449-451 | a padded number reads back as itself, with two digits below 100 |

## Left out

- Network and storage collaborators are function parameters, and their calls are log events:
  - Supabase's `checkGlobalCache` and `saveToGlobalCache` are imported by App.tsx; their definitions are not part of this model.
  - `services/supabaseClient.ts` is not part of this model.
- The Gemini SDK is not modelled. Instead:
  - the scorer is a function giving `{score, comment, isError}`;
  - `generateCreativePrompt`'s call is a text or a failure;
  - the endpoint's call is a text or a thrown message.
  - The endpoint builds its client with a constructor and method that would throw with the current SDK; that case is the thrown-message path.
- `Scoring`: `getWordScore`'s own fallback result (services/geminiService.ts:51-54) carries no `isError` field, so in the app it would be cached. The scorer here always returns an explicit flag, so the model makes no end-to-end claim that error results never reach the cache.
- Game.App.ScoreAnswers: the `Promise.all` lookups run concurrently. They are modelled one after the other, in player order. Each reads the map captured when the round ended, and the writes land in that order. Any other order in which the writes land is not modelled.
- Game.App.SubmitWord: `updated[currentPlayerIndex].word = word` mutates a player object shared with the previous array. The model updates a value; the aliasing is not captured.
- Game.App.SubmitWord: the intermediate `setPlayers(updated)` and `setLoading(true)` of the last turn are overwritten before the method ends; only the final state is stated.
- Wall-clock inputs are arguments:
  - clock readings, time zones and the day-of-year computation;
  - the `setInterval`/`setTimeout` pacing: each timer firing is an action;
  - `window.location.reload` is the `Reload` display.
- `getNextRotationTime` is not part of this model, so `Countdown.CountdownTick` takes the difference to the next rotation as its argument.
- `Countdown.ResetTimerText` takes the UTC time as a natural number of milliseconds. `Date` objects, negative times and `setUTCDate` overflow are not modelled.
- Nothing of the browser environment is modelled:
  - `localStorage` reads and writes, and the JSON encoding of the cache: the constructor takes the stored map as an argument;
  - the nickname and the tutorial flags;
  - every piece of rendering.
- The "new round" phrases, picked by `Date.now()` while a fresh prompt loads, are not modelled. Neither is the `p.word && p.score !== undefined` guard around each revealed result.
- Scores are Dafny reals:
  - floating point, NaN and `toFixed(3)` display are not modelled;
  - an `undefined` score from a malformed model answer is not modelled.
- Text.Lower: `toLowerCase`/`toUpperCase` are modelled on Latin-1, which covers Spanish letters. Other Unicode case mappings, and the special cases `ß` and `ÿ`, are not modelled.
- `Text`: strings are sequences of code points, while JavaScript strings are UTF-16 code units. This affects the index keys of a spread string beyond the Basic Multilingual Plane.
- Scoring: the local cache is a map, while `scoreCache[key]` reads a plain JavaScript object, whose inherited properties also answer. A key such as `__proto__` (the pair `"_"`, `"proto__"`) would be a local hit in the source and a miss in the model; such keys are not modelled.
- ScoreApi: JSON objects are maps, so key order in the response body is not modelled. A `__proto__` key, and lookups that reach `Object.prototype`, are not modelled.
- Players.SortBy: the sort is a stable insertion sort, so ties are kept in input order, which matches `Array.prototype.sort`. Stability is not stated as a separate property.
- Prompts.DailyPrompts: the schedule follows the code: a linear index formula over `dayOfYear + hourBlock`. Because of this, windows share prompts as `Prompts.NextBlockEqualsNextDay` shows. A per-window identifier with a pseudo-random pick would not behave this way.
