/**
 * The score-resolution pipeline of App.tsx, `getCachedScore`, as functions of
 * the cache it reads and the answers of its two collaborators.
 *
 * `checkGlobalCache` and `getWordScore` are parameters (`global`, `scorer`);
 * `saveToGlobalCache` is an event. The class that holds the live cache and
 * calls into these functions is `Game.App`.
 */
module Scoring {
  import opened Wrappers
  import Text

  /** A score as the caches store it and as `getCachedScore` returns it. */
  datatype ScoreResult = ScoreResult(score: real, comment: string, isError: bool)

  /** `ScoreCache`: the local map from cache key to score. */
  type Cache = map<string, ScoreResult>

  /** A call to a collaborator, in the order the pipeline makes it. */
  datatype Event =
    | GlobalLookup(prompt: string, response: string)
    | ScorerCall(prompt: string, response: string)
    | GlobalSave(prompt: string, response: string, score: real, comment: string)

  /** The tier that answered. */
  datatype Tier = Local | Global | Scorer

  /**
   * One resolution: the tier that answered, the value returned, the value
   * written under the key in the local map (if any) and the collaborator calls.
   */
  datatype Resolution = Resolution(tier: Tier, result: ScoreResult, write: Option<ScoreResult>, events: seq<Event>)

  /** `${prompt.toLowerCase()}_${response.toLowerCase()}`. */
  function Key(prompt: string, response: string): (k: string)
    ensures |k| == |prompt| + 1 + |response|
    ensures k[..|prompt|] == Text.Lower(prompt) && k[|prompt|] == '_' && k[|prompt| + 1..] == Text.Lower(response)
  {
    Text.Lower(prompt) + "_" + Text.Lower(response)
  }

  /**
   * `getCachedScore(prompt, response)` against the local map `snapshot` its
   * closure captured: a local hit answers at once; otherwise the global store
   * is asked, and on a miss there the scorer, whose answer is written back
   * (to the global store and the local map) only when it is not an error.
   */
  function Resolve(snapshot: Cache, prompt: string, response: string,
                   global: (string, string) -> Option<ScoreResult>,
                   scorer: (string, string) -> ScoreResult): (o: Resolution)
    // the tiers are tried in order, each only when the ones before it missed
    ensures o.tier == Local <==> Key(prompt, response) in snapshot
    ensures o.tier == Global <==> Key(prompt, response) !in snapshot && global(prompt, response).Some?
    ensures o.tier == Local ==> o.result == snapshot[Key(prompt, response)] && o.events == []
    ensures o.tier == Global ==> o.result == global(prompt, response).value
    ensures o.tier == Scorer ==> o.result == scorer(prompt, response)
    // collaborators: the global store is asked unless there is a local hit,
    // and the scorer only when both caches miss
    ensures GlobalLookup(prompt, response) in o.events <==> o.tier != Local
    ensures ScorerCall(prompt, response) in o.events <==> o.tier == Scorer
    ensures o.tier == Scorer && !o.result.isError ==>
              o.events[|o.events| - 1] == GlobalSave(prompt, response, o.result.score, o.result.comment)
    ensures !(o.tier == Scorer && !o.result.isError) ==> forall e :: e in o.events ==> !e.GlobalSave?
    // write-back: what is stored is what is returned, and an error is never stored
    ensures o.write.Some? ==> o.write.value == o.result
    ensures o.write.Some? <==> o.tier == Global || (o.tier == Scorer && !o.result.isError)
  {
    var key := Key(prompt, response);
    if key in snapshot then
      Resolution(Local, snapshot[key], None, [])
    else
      match global(prompt, response)
      case Some(hit) => Resolution(Global, hit, Some(hit), [GlobalLookup(prompt, response)])
      case None =>
        var res := scorer(prompt, response);
        var calls := [GlobalLookup(prompt, response), ScorerCall(prompt, response)];
        if !res.isError then
          Resolution(Scorer, res, Some(res), calls + [GlobalSave(prompt, response, res.score, res.comment)])
        else
          Resolution(Scorer, res, None, calls)
  }

  /** The functional `setScoreCache(prev => ({ ...prev, [key]: value }))`, when there is a value. */
  function Store(cache: Cache, key: string, write: Option<ScoreResult>): (c: Cache)
    ensures write.None? ==> c == cache
    ensures write.Some? ==> key in c && c[key] == write.value
    ensures forall k :: k != key ==> (k in c <==> k in cache)
    ensures forall k :: k != key && k in c ==> c[k] == cache[k]
  {
    match write
    case None => cache
    case Some(v) => cache[key := v]
  }

  // ---- the key ----

  /** Prompts and responses that differ only in letter case share one cache key. */
  lemma KeyIgnoresCase(prompt: string, response: string)
    ensures Key(Text.Upper(prompt), Text.Upper(response)) == Key(prompt, response)
    ensures Key(Text.Lower(prompt), Text.Lower(response)) == Key(prompt, response)
  {
    Text.LowerOfUpper(prompt);
    Text.LowerOfUpper(response);
    Text.LowerIdempotent(prompt);
    Text.LowerIdempotent(response);
  }

  /** The key does not separate its two halves: an `_` may sit on either side of the separator. */
  lemma KeyNotInjective()
    ensures Key("a_b", "c") == Key("a", "b_c")
  {
    assert Text.Lower("a_b") == "a_b";
    assert Text.Lower("c") == "c";
    assert Text.Lower("a") == "a";
    assert Text.Lower("b_c") == "b_c";
  }

  /** With no `_` in either prompt, equal keys mean equal pairs up to letter case. */
  lemma KeyInjectiveWithoutUnderscore(p1: string, r1: string, p2: string, r2: string)
    requires '_' !in Text.Lower(p1) && '_' !in Text.Lower(p2)
    ensures Key(p1, r1) == Key(p2, r2) <==> Text.Lower(p1) == Text.Lower(p2) && Text.Lower(r1) == Text.Lower(r2)
  {
    var k1, k2 := Key(p1, r1), Key(p2, r2);
    if k1 == k2 {
      assert Text.Lower(p1) == k1[..|p1|];
      assert Text.Lower(r1) == k1[|p1| + 1..];
    }
  }

  // ---- one resolution ----

  /** Any spelling of a pair with a local entry is answered by that entry, with no calls. */
  lemma CaseVariantsHitLocal(snapshot: Cache, prompt: string, response: string, p2: string, r2: string,
                             global: (string, string) -> Option<ScoreResult>,
                             scorer: (string, string) -> ScoreResult)
    requires Key(prompt, response) in snapshot
    requires Text.Lower(p2) == Text.Lower(prompt) && Text.Lower(r2) == Text.Lower(response)
    ensures Resolve(snapshot, p2, r2, global, scorer).result == snapshot[Key(prompt, response)]
    ensures Resolve(snapshot, p2, r2, global, scorer).events == []
  {
    assert Key(p2, r2) == Key(prompt, response);
  }

  /**
   * A resolution that wrote back makes the next one, against the updated map,
   * a local hit with the same answer and no collaborator call.
   */
  lemma ResolveThenHit(cache: Cache, prompt: string, response: string,
                       global: (string, string) -> Option<ScoreResult>,
                       scorer: (string, string) -> ScoreResult)
    requires Resolve(cache, prompt, response, global, scorer).write.Some?
    ensures var o := Resolve(cache, prompt, response, global, scorer);
            var o2 := Resolve(Store(cache, Key(prompt, response), o.write), prompt, response, global, scorer);
            o2.tier == Local && o2.result == o.result && o2.events == []
  {
  }

  /** An error result leaves the map as it was, so the next resolution asks the collaborators again. */
  lemma ErrorIsRetried(cache: Cache, prompt: string, response: string,
                       global: (string, string) -> Option<ScoreResult>,
                       scorer: (string, string) -> ScoreResult)
    requires Key(prompt, response) !in cache && global(prompt, response).None?
    requires scorer(prompt, response).isError
    ensures var o := Resolve(cache, prompt, response, global, scorer);
            Store(cache, Key(prompt, response), o.write) == cache
            && o.result == scorer(prompt, response)
            && o.events == [GlobalLookup(prompt, response), ScorerCall(prompt, response)]
  {
  }

  // ---- the N resolutions of one round ----

  /** The resolutions of `words` against one snapshot, as `Promise.all` starts them. */
  function ResolveAll(snapshot: Cache, prompt: string, words: seq<string>,
                      global: (string, string) -> Option<ScoreResult>,
                      scorer: (string, string) -> ScoreResult): (os: seq<Resolution>)
    ensures |os| == |words|
    ensures forall i :: 0 <= i < |words| ==> os[i] == Resolve(snapshot, prompt, words[i], global, scorer)
  {
    seq(|words|, i requires 0 <= i < |words| => Resolve(snapshot, prompt, words[i], global, scorer))
  }

  /** The local map after the writes of `os`, applied in order. */
  function StoreAll(cache: Cache, prompt: string, words: seq<string>, os: seq<Resolution>): (c: Cache)
    requires |os| == |words|
    ensures forall k :: k in cache ==> k in c
    ensures forall k :: k in c && k !in cache ==> exists i :: 0 <= i < |words| && k == Key(prompt, words[i])
    decreases |os|
  {
    if os == [] then cache
    else
      var n := |os| - 1;
      var before := StoreAll(cache, prompt, words[..n], os[..n]);
      forall k | k in before && k !in cache
        ensures exists i :: 0 <= i < |words| && k == Key(prompt, words[i])
      {
        var i :| 0 <= i < n && k == Key(prompt, words[..n][i]);
        assert words[..n][i] == words[i];
      }
      Store(before, Key(prompt, words[n]), os[n].write)
  }

  /** The collaborator calls of `os`, in order. */
  function EventsOf(os: seq<Resolution>): (es: seq<Event>)
    ensures forall i, e :: 0 <= i < |os| && e in os[i].events ==> e in es
    ensures forall e :: e in es ==> exists i :: 0 <= i < |os| && e in os[i].events
    decreases |os|
  {
    if os == [] then [] else EventsOf(os[..|os| - 1]) + os[|os| - 1].events
  }

  /** One more resolution: its write applied last, its calls made last. */
  lemma StoreAllStep(cache: Cache, prompt: string, words: seq<string>, os: seq<Resolution>, i: nat)
    requires |os| == |words| && i < |os|
    ensures StoreAll(cache, prompt, words[..i + 1], os[..i + 1])
            == Store(StoreAll(cache, prompt, words[..i], os[..i]), Key(prompt, words[i]), os[i].write)
    ensures EventsOf(os[..i + 1]) == EventsOf(os[..i]) + os[i].events
  {
    assert words[..i + 1][..i] == words[..i] && os[..i + 1][..i] == os[..i];
  }

  /**
   * A key that no lookup of the round wrote (no round word builds it, or
   * every lookup of it was a local hit or an error result) keeps its
   * presence and its entry.
   */
  lemma {:induction false} StoreAllOnlyRoundKeys(cache: Cache, prompt: string, words: seq<string>, os: seq<Resolution>, k: string)
    requires |os| == |words|
    requires forall i :: 0 <= i < |words| && k == Key(prompt, words[i]) ==> os[i].write.None?
    ensures k in StoreAll(cache, prompt, words, os) <==> k in cache
    ensures k in cache ==> StoreAll(cache, prompt, words, os)[k] == cache[k]
    decreases |os|
  {
    if os != [] {
      var n := |os| - 1;
      StoreAllOnlyRoundKeys(cache, prompt, words[..n], os[..n], k);
    }
  }

  /** Every write of the round is in the map afterwards; a later write of the same key wins. */
  lemma {:induction false} StoreAllKeepsWrites(cache: Cache, prompt: string, words: seq<string>, os: seq<Resolution>, i: nat)
    requires |os| == |words| && i < |os| && os[i].write.Some?
    ensures Key(prompt, words[i]) in StoreAll(cache, prompt, words, os)
    ensures (forall j :: i < j < |os| && Key(prompt, words[j]) == Key(prompt, words[i]) ==> os[j].write.None?) ==>
              StoreAll(cache, prompt, words, os)[Key(prompt, words[i])] == os[i].write.value
    decreases |os|
  {
    var n := |os| - 1;
    if i < n {
      StoreAllKeepsWrites(cache, prompt, words[..n], os[..n], i);
    }
  }

  /**
   * Every caller reads the one snapshot, so two players who answer the same
   * word (in any letter case) that neither cache holds both reach the scorer.
   */
  lemma SameWordScoredTwice(snapshot: Cache, prompt: string, words: seq<string>,
                            global: (string, string) -> Option<ScoreResult>,
                            scorer: (string, string) -> ScoreResult, i: nat, j: nat)
    requires i < |words| && j < |words|
    requires Text.Lower(words[i]) == Text.Lower(words[j])
    requires Key(prompt, words[i]) !in snapshot
    requires global(prompt, words[i]).None? && global(prompt, words[j]).None?
    ensures var os := ResolveAll(snapshot, prompt, words, global, scorer);
            ScorerCall(prompt, words[i]) in os[i].events && ScorerCall(prompt, words[j]) in os[j].events
  {
    assert Key(prompt, words[j]) == Key(prompt, words[i]);
  }
}
