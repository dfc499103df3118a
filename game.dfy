/**
 * The state App.tsx keeps for a local multiplayer match and the actions that
 * change it: starting and restarting a round, submitting a word, finishing,
 * and the score lookup the last submission runs once per player.
 *
 * The collaborators of the lookup (`checkGlobalCache`, `getWordScore`) and
 * the model call of `generateCreativePrompt` are parameters; the calls made to
 * the collaborators are appended to `log`. `Promise.all` is modelled as the N
 * lookups run one after the other in player order, each against the map the
 * render captured.
 */
module Game {
  import opened Wrappers
  import opened Scoring
  import opened Players
  import Prompts

  /** `GameMode`. */
  datatype GameMode =
    | Home | Daily | MultiplayerSetup | MultiplayerGame | MultiplayerResults
    | DailyRanking | GlobalRanking | UserHistory | Privacy | Terms | Contact | Methodology | Faq

  /** Every player has answered. */
  predicate AllAnswered(ps: seq<Player>) {
    forall i :: 0 <= i < |ps| ==> ps[i].word.Some?
  }

  /** The answers, in player order. */
  function WordsOf(ps: seq<Player>): (ws: seq<string>)
    requires AllAnswered(ps)
    ensures |ws| == |ps| && forall i :: 0 <= i < |ps| ==> Some(ws[i]) == ps[i].word
  {
    seq(|ps|, i requires 0 <= i < |ps| => ps[i].word.value)
  }

  /** Every lookup was answered by the local map, so none of them touched `loading`. */
  predicate AllLocal(os: seq<Resolution>)
  {
    forall j :: 0 <= j < |os| ==> os[j].tier == Local
  }

  /** The scores the lookups returned. */
  function ResultsOf(os: seq<Resolution>): (rs: seq<ScoreResult>)
    ensures |rs| == |os| && forall i :: 0 <= i < |os| ==> rs[i] == os[i].result
  {
    seq(|os|, i requires 0 <= i < |os| => os[i].result)
  }

  /** `updated[currentPlayerIndex].word = word`. */
  function Answer(ps: seq<Player>, turn: nat, word: string): (r: seq<Player>)
    requires turn < |ps|
    ensures |r| == |ps| && r[turn].word == Some(word)
    ensures r[turn] == ps[turn].(word := Some(word))
    ensures forall j :: 0 <= j < |ps| && j != turn ==> r[j] == ps[j]
  {
    ps[turn := ps[turn].(word := Some(word))]
  }

  /** The players once the round is scored: recorded, accumulated and sorted for the reveal. */
  function ScoredRound(answered: seq<Player>, os: seq<Resolution>): (r: seq<Player>)
    requires |os| == |answered|
    ensures multiset(r) == multiset(ScoreRound(answered, ResultsOf(os)))
    ensures |r| == |answered|
    ensures forall i, j :: 0 <= i < j < |r| ==> RoundScore(r[i]) <= RoundScore(r[j])
  {
    var scored := ScoreRound(answered, ResultsOf(os));
    PermutationKeepsPlayers(scored, SortByRound(scored));
    SortByRound(scored)
  }

  /** Sorting the players scored with the lookups' results is the scored round. */
  lemma ScoredFromResults(answered: seq<Player>, os: seq<Resolution>, results: seq<ScoreResult>)
    requires |os| == |answered| && results == ResultsOf(os)
    ensures SortByRound(ScoreRound(answered, results)) == ScoredRound(answered, os)
  {
  }

  /** The totals of the scored round grew by the round's scores, each counted once. */
  lemma ScoredRoundAddsOnce(answered: seq<Player>, os: seq<Resolution>)
    requires |os| == |answered|
    ensures SumTotals(ScoredRound(answered, os)) == SumTotals(answered) + SumScores(ResultsOf(os))
  {
    var scored := ScoreRound(answered, ResultsOf(os));
    ScoreRoundAddsOnce(answered, ResultsOf(os));
    SortsKeepTotals(scored);
  }

  /** One more lookup of the round keeps the loop's account of the map, the calls and the results. */
  lemma RoundStep(c0: Cache, l0: seq<Event>, snapshot: Cache, p: string, words: seq<string>,
                  global: (string, string) -> Option<ScoreResult>, scorer: (string, string) -> ScoreResult,
                  os: seq<Resolution>, i: nat, before: Cache, after: Cache, logBefore: seq<Event>, logAfter: seq<Event>,
                  results: seq<ScoreResult>, res: ScoreResult, start: bool, loadingBefore: bool, loadingAfter: bool)
    requires os == ResolveAll(snapshot, p, words, global, scorer) && i < |words|
    requires before == StoreAll(c0, p, words[..i], os[..i]) && logBefore == l0 + EventsOf(os[..i])
    requires results == ResultsOf(os[..i])
    requires loadingBefore == (start && AllLocal(os[..i]))
    requires var o := Resolve(snapshot, p, words[i], global, scorer);
             res == o.result && after == Store(before, Key(p, words[i]), o.write) && logAfter == logBefore + o.events
             && loadingAfter == (loadingBefore && o.tier == Local)
    ensures after == StoreAll(c0, p, words[..i + 1], os[..i + 1])
    ensures logAfter == l0 + EventsOf(os[..i + 1])
    ensures results + [res] == ResultsOf(os[..i + 1])
    ensures loadingAfter == (start && AllLocal(os[..i + 1]))
  {
    var o := os[i];
    assert o == Resolve(snapshot, p, words[i], global, scorer);
    RoundStepCache(c0, p, words, os, i, before, after);
    RoundStepLog(l0, os, i, logBefore, logAfter);
    RoundStepResults(os, i, results, res);
    RoundStepLoading(os, i, start, loadingBefore, loadingAfter);
  }

  lemma RoundStepLoading(os: seq<Resolution>, i: nat, start: bool, loadingBefore: bool, loadingAfter: bool)
    requires i < |os|
    requires loadingBefore == (start && AllLocal(os[..i]))
    requires loadingAfter == (loadingBefore && os[i].tier == Local)
    ensures loadingAfter == (start && AllLocal(os[..i + 1]))
  {
    assert AllLocal(os[..i + 1]) <==> AllLocal(os[..i]) && os[i].tier == Local by {
      assert os[..i + 1] == os[..i] + [os[i]];
    }
  }

  lemma RoundStepCache(c0: Cache, p: string, words: seq<string>, os: seq<Resolution>, i: nat, before: Cache, after: Cache)
    requires |os| == |words| && i < |words|
    requires before == StoreAll(c0, p, words[..i], os[..i])
    requires after == Store(before, Key(p, words[i]), os[i].write)
    ensures after == StoreAll(c0, p, words[..i + 1], os[..i + 1])
  {
    StoreAllStep(c0, p, words, os, i);
  }

  lemma RoundStepLog(l0: seq<Event>, os: seq<Resolution>, i: nat, logBefore: seq<Event>, logAfter: seq<Event>)
    requires i < |os|
    requires logBefore == l0 + EventsOf(os[..i]) && logAfter == logBefore + os[i].events
    ensures logAfter == l0 + EventsOf(os[..i + 1])
  {
    assert os[..i + 1][..i] == os[..i];
  }

  lemma RoundStepResults(os: seq<Resolution>, i: nat, results: seq<ScoreResult>, res: ScoreResult)
    requires i < |os|
    requires results == ResultsOf(os[..i]) && res == os[i].result
    ensures results + [res] == ResultsOf(os[..i + 1])
  {
  }

  class App {
    var mode: GameMode
    var players: seq<Player>
    /** `currentPlayerIndex`. */
    var turn: nat
    /** `multiplayerPrompt`. */
    var prompt: string
    var loading: bool
    /** `scoreCache`. */
    var cache: Cache
    /** The collaborator calls made so far. */
    var log: seq<Event>

    /** During a round the turn points at a player, and everyone before it has answered. */
    ghost predicate Valid()
      reads this
    {
      mode == MultiplayerGame ==>
        (turn < |players| || (players == [] && turn == 0))
        && forall j :: 0 <= j < turn ==> players[j].word.Some?
    }

    /** The initial state, with the map read back from storage (`{}` when there is none). */
    constructor(saved: Cache)
      ensures mode == Home && players == [] && turn == 0 && prompt == "" && !loading
      ensures cache == saved && log == []
      ensures Valid()
    {
      mode := Home;
      players := [];
      turn := 0;
      prompt := "";
      loading := false;
      cache := saved;
      log := [];
    }

    /**
     * `getCachedScore(p, r)`, reading the local map `snapshot` its closure
     * captured and writing to the live map.
     */
    method GetCachedScore(snapshot: Cache, p: string, r: string,
                          global: (string, string) -> Option<ScoreResult>,
                          scorer: (string, string) -> ScoreResult) returns (res: ScoreResult)
      modifies this
      ensures var o := Resolve(snapshot, p, r, global, scorer);
              res == o.result
              && cache == Store(old(cache), Key(p, r), o.write)
              && log == old(log) + o.events
              && loading == (if o.tier == Local then old(loading) else false)
      ensures mode == old(mode) && players == old(players) && turn == old(turn) && prompt == old(prompt)
    {
      var key := Key(p, r);
      if key in snapshot {
        return snapshot[key];
      }
      loading := true;
      log := log + [GlobalLookup(p, r)];
      var globalCached := global(p, r);
      if globalCached.Some? {
        cache := cache[key := globalCached.value];
        loading := false;
        return globalCached.value;
      }
      log := log + [ScorerCall(p, r)];
      var result := scorer(p, r);
      if !result.isError {
        log := log + [GlobalSave(p, r, result.score, result.comment)];
        cache := cache[key := result];
      }
      loading := false;
      return result;
    }

    /** `startMultiplayerGame(playerNames)`: new players, a fresh prompt, the first turn. */
    method StartMultiplayerGame(names: seq<string>, reply: Prompts.ModelReply, random: real)
      requires 0.0 <= random < 1.0
      modifies this
      ensures players == NewPlayers(names) && prompt == Prompts.CreativePrompt(reply, random)
      ensures mode == MultiplayerGame && turn == 0 && !loading
      ensures cache == old(cache) && log == old(log)
      ensures Valid()
    {
      loading := true;
      var ps := NewPlayers(names);
      players := ps;
      var word := Prompts.CreativePrompt(reply, random);
      BeginRound(word);
    }

    /** `restartMultiplayerGame()`: the same players in their current order, round fields cleared, a fresh prompt. */
    method RestartMultiplayerGame(reply: Prompts.ModelReply, random: real)
      requires 0.0 <= random < 1.0
      modifies this
      ensures players == ClearRound(old(players)) && prompt == Prompts.CreativePrompt(reply, random)
      ensures mode == MultiplayerGame && turn == 0 && !loading
      ensures cache == old(cache) && log == old(log)
      ensures Valid()
    {
      loading := true;
      var ps := ClearRound(players);
      players := ps;
      var word := Prompts.CreativePrompt(reply, random);
      BeginRound(word);
    }

    /** The common end of a start and a restart: the fresh prompt, not loading, the game screen at the first turn. */
    method BeginRound(word: string)
      modifies this
      ensures prompt == word && !loading && mode == MultiplayerGame && turn == 0
      ensures players == old(players) && cache == old(cache) && log == old(log)
      ensures Valid()
    {
      prompt := word;
      loading := false;
      mode := MultiplayerGame;
      turn := 0;
    }

    /** `onFinish`: back to the home screen, everything else kept. */
    method FinishMultiplayer()
      modifies this
      ensures mode == Home
      ensures players == old(players) && turn == old(turn) && prompt == old(prompt) && loading == old(loading)
      ensures cache == old(cache) && log == old(log)
      ensures Valid()
    {
      mode := Home;
    }

    /**
     * The `Promise.all` of the last submission: one lookup per answer, in
     * player order, all against the map as it was when the round ended.
     */
    method ScoreAnswers(snapshot: Cache, p: string, words: seq<string>,
                        global: (string, string) -> Option<ScoreResult>,
                        scorer: (string, string) -> ScoreResult) returns (results: seq<ScoreResult>)
      modifies this
      ensures var os := ResolveAll(snapshot, p, words, global, scorer);
              results == ResultsOf(os)
              && cache == StoreAll(old(cache), p, words, os)
              && log == old(log) + EventsOf(os)
              && loading == (old(loading) && AllLocal(os))
      ensures mode == old(mode) && players == old(players) && turn == old(turn) && prompt == old(prompt)
    {
      var c0 := cache;
      ghost var l0 := log;
      ghost var os := ResolveAll(snapshot, p, words, global, scorer);
      results := [];
      var i := 0;
      while i < |words|
        invariant 0 <= i <= |words|
        invariant results == ResultsOf(os[..i])
        invariant cache == StoreAll(c0, p, words[..i], os[..i])
        invariant log == l0 + EventsOf(os[..i])
        invariant mode == old(mode) && players == old(players) && turn == old(turn) && prompt == old(prompt)
        invariant loading == (old(loading) && AllLocal(os[..i]))
      {
        results := ScoreNext(snapshot, p, words, global, scorer, c0, l0, old(loading), os, i, results);
        i := i + 1;
      }
      assert words[..i] == words && os[..i] == os;
    }

    /** One lookup of the round, extending the account of the map, the calls, the results and `loading`. */
    method ScoreNext(snapshot: Cache, p: string, words: seq<string>,
                     global: (string, string) -> Option<ScoreResult>,
                     scorer: (string, string) -> ScoreResult,
                     ghost c0: Cache, ghost l0: seq<Event>, ghost start: bool, ghost os: seq<Resolution>,
                     i: nat, results: seq<ScoreResult>) returns (next: seq<ScoreResult>)
      requires os == ResolveAll(snapshot, p, words, global, scorer) && i < |words|
      requires cache == StoreAll(c0, p, words[..i], os[..i]) && log == l0 + EventsOf(os[..i])
      requires results == ResultsOf(os[..i]) && loading == (start && AllLocal(os[..i]))
      modifies this
      ensures cache == StoreAll(c0, p, words[..i + 1], os[..i + 1]) && log == l0 + EventsOf(os[..i + 1])
      ensures next == ResultsOf(os[..i + 1]) && loading == (start && AllLocal(os[..i + 1]))
      ensures mode == old(mode) && players == old(players) && turn == old(turn) && prompt == old(prompt)
    {
      var before, loadingBefore := cache, loading;
      ghost var logBefore := log;
      var res := GetCachedScore(snapshot, p, words[i], global, scorer);
      RoundStep(c0, l0, snapshot, p, words, global, scorer, os, i, before, cache, logBefore, log, results, res,
                start, loadingBefore, loading);
      next := results + [res];
    }

    /**
     * `onSubmit(word)` for the current player. Before the last turn it only
     * records the word and moves on; on the last it scores every answer,
     * accumulates the totals, sorts for the reveal and shows the results.
     */
    method SubmitWord(word: string,
                      global: (string, string) -> Option<ScoreResult>,
                      scorer: (string, string) -> ScoreResult)
      requires Valid() && mode == MultiplayerGame && turn < |players|
      modifies this
      ensures Valid()
      ensures old(turn) < |old(players)| - 1 ==>
                players == Answer(old(players), old(turn), word) && turn == old(turn) + 1
                && mode == MultiplayerGame && loading == old(loading)
                && cache == old(cache) && log == old(log)
      ensures old(turn) == |old(players)| - 1 ==>
                var answered := Answer(old(players), old(turn), word);
                AllAnswered(answered)
                && var words := WordsOf(answered);
                   var os := ResolveAll(old(cache), old(prompt), words, global, scorer);
                   players == ScoredRound(answered, os)
                   && cache == StoreAll(old(cache), old(prompt), words, os)
                   && log == old(log) + EventsOf(os)
                   && mode == MultiplayerResults && turn == old(turn) && !loading
      ensures prompt == old(prompt)
    {
      var answered := Answer(players, turn, word);
      if turn < |players| - 1 {
        players := answered;
        turn := turn + 1;
      } else {
        assert AllAnswered(answered) by {
          forall j | 0 <= j < |answered|
            ensures answered[j].word.Some?
          {
            if j != turn {
              assert answered[j] == old(players)[j];
            }
          }
        }
        EndRound(answered, global, scorer);
      }
    }

    /** The last submission once every word is in: score, accumulate, sort, show the results. */
    method EndRound(answered: seq<Player>,
                    global: (string, string) -> Option<ScoreResult>,
                    scorer: (string, string) -> ScoreResult)
      requires AllAnswered(answered)
      modifies this
      ensures var os := ResolveAll(old(cache), old(prompt), WordsOf(answered), global, scorer);
              players == ScoredRound(answered, os)
              && cache == StoreAll(old(cache), old(prompt), WordsOf(answered), os)
              && log == old(log) + EventsOf(os)
      ensures mode == MultiplayerResults && turn == old(turn) && !loading && prompt == old(prompt)
    {
      var words, c0, p0 := WordsOf(answered), cache, prompt;
      ghost var os := ResolveAll(c0, p0, words, global, scorer);
      players := answered;
      loading := true;
      var results := ScoreAnswers(c0, p0, words, global, scorer);
      ScoredFromResults(answered, os, results);
      ShowRound(answered, results);
    }

    /** The end of the last submission: the scored players sorted for the reveal, the results screen. */
    method ShowRound(answered: seq<Player>, results: seq<ScoreResult>)
      requires |results| == |answered|
      modifies this
      ensures players == SortByRound(ScoreRound(answered, results)) && !loading && mode == MultiplayerResults
      ensures cache == old(cache) && log == old(log) && turn == old(turn) && prompt == old(prompt)
    {
      players := SortByRound(ScoreRound(answered, results));
      loading := false;
      mode := MultiplayerResults;
    }
  }
}
