/**
 * The reveal sequencer of `MultiplayerResults` (App.tsx): a "thinking" phase
 * that steps through five phrases, then one player revealed per click in the
 * order the players arrive (ascending round score), then the standings.
 *
 * Timers are actions: `Tick` is one firing of the 1200 ms interval and
 * `EndThinking` the 800 ms timeout it schedules after the last phrase.
 */
module Reveal {
  import opened Players

  /** `initialThinkingPhrases`. */
  const ThinkingPhrases: seq<string> := [
    "ESCANEANDO SINAPSIS CREATIVAS...",
    "MIDIENDO LA DISTANCIA ENTRE LO OBVIO Y LO ABSURDO...",
    "CONSULTANDO EL ARCHIVO DE CLICH\U{00C9}S...",
    "ANALIZANDO NIVELES DE SARCASMO...",
    "CALCULANDO EL VEREDICTO FINAL..."
  ]

  const LastPhrase := |ThinkingPhrases| - 1

  /**
   * The component's state: `rev`, `thinkingIdx`, `isThinking`, and whether the
   * timeout that ends the thinking phase has been scheduled.
   */
  datatype RevealState = RevealState(rev: int, thinkingIdx: nat, isThinking: bool, timeoutPending: bool)

  /** The states reachable from `Initial` for `n` players. */
  predicate Inv(s: RevealState, n: nat) {
    && (s.isThinking ==> s.rev == -1 && s.thinkingIdx <= LastPhrase)
    && (s.timeoutPending ==> s.isThinking && s.thinkingIdx == LastPhrase)
    && (!s.isThinking ==> !s.timeoutPending && s.thinkingIdx == LastPhrase && 0 <= s.rev && (s.rev == 0 || s.rev <= n - 1))
  }

  /** `useState(-1)`, `useState(0)`, `useState(true)`. */
  const Initial := RevealState(-1, 0, true, false)

  /** The reveal starts thinking at the first phrase with nothing revealed, a reachable and unfinished state. */
  lemma InitialState(n: nat)
    ensures Initial.rev == -1 && Initial.thinkingIdx == 0 && Initial.isThinking && !Initial.timeoutPending
    ensures Inv(Initial, n) && !IsFinished(Initial, n)
  {
  }

  /** One firing of the interval: the next phrase, or after the last one the timeout is scheduled. */
  function TickStep(s: RevealState): (t: RevealState)
    ensures t.rev == s.rev && t.isThinking == s.isThinking
    ensures s.isThinking && !s.timeoutPending && s.thinkingIdx < LastPhrase ==> t == s.(thinkingIdx := s.thinkingIdx + 1)
    ensures s.isThinking && !s.timeoutPending && s.thinkingIdx >= LastPhrase ==> t == s.(timeoutPending := true)
    ensures !s.isThinking || s.timeoutPending ==> t == s
    ensures forall n: nat :: Inv(s, n) ==> Inv(t, n)
  {
    if !s.isThinking || s.timeoutPending then s
    else if s.thinkingIdx >= LastPhrase then s.(timeoutPending := true)
    else s.(thinkingIdx := s.thinkingIdx + 1)
  }

  /** The timeout: thinking ends and the first player is revealed. */
  function EndThinkingStep(s: RevealState): (t: RevealState)
    ensures s.timeoutPending ==> !t.isThinking && t.rev == 0 && !t.timeoutPending
    ensures !s.timeoutPending ==> t == s
    ensures forall n: nat :: Inv(s, n) ==> Inv(t, n)
  {
    if s.timeoutPending then s.(isThinking := false, rev := 0, timeoutPending := false) else s
  }

  /** The "show next" button, present only while thinking is over and `rev < n - 1`. */
  function ShowNextStep(s: RevealState, n: nat): (t: RevealState)
    ensures !s.isThinking && s.rev < n - 1 ==> t == s.(rev := s.rev + 1)
    ensures !(!s.isThinking && s.rev < n - 1) ==> t == s
    ensures Inv(s, n) ==> Inv(t, n)
  {
    if !s.isThinking && s.rev < n - 1 then s.(rev := s.rev + 1) else s
  }

  /** `isFinished`. */
  predicate IsFinished(s: RevealState, n: nat)
    ensures IsFinished(s, n) ==> !s.isThinking
    ensures Inv(s, n) && n >= 1 ==> (IsFinished(s, n) <==> !s.isThinking && s.rev == n - 1)
  {
    !s.isThinking && s.rev >= n - 1
  }

  /** The phrase on screen while thinking. */
  function Phrase(s: RevealState, n: nat): (p: string)
    requires Inv(s, n) && s.isThinking
    ensures p in ThinkingPhrases
  {
    ThinkingPhrases[s.thinkingIdx]
  }

  /** `players.slice(0, rev + 1)`, shown once thinking is over. */
  function Revealed(players: seq<Player>, s: RevealState): (r: seq<Player>)
    requires Inv(s, |players|)
    ensures s.isThinking ==> r == []
    ensures !s.isThinking ==> |r| == if s.rev + 1 <= |players| then s.rev + 1 else |players|
    ensures r <= players
  {
    if s.isThinking then []
    else if s.rev + 1 <= |players| then players[..s.rev + 1]
    else players
  }

  /** `sortedByTotal`: the standings once the round is finished, and nothing before. */
  function StandingsShown(players: seq<Player>, s: RevealState): (r: seq<Player>)
    ensures IsFinished(s, |players|) ==> r == Standings(players)
    ensures !IsFinished(s, |players|) ==> r == []
  {
    if IsFinished(s, |players|) then Standings(players) else []
  }

  // ---- runs of actions ----

  function Ticks(s: RevealState, k: nat): RevealState
    decreases k
  {
    if k == 0 then s else Ticks(TickStep(s), k - 1)
  }

  function Clicks(s: RevealState, n: nat, k: nat): RevealState
    decreases k
  {
    if k == 0 then s else Clicks(ShowNextStep(s, n), n, k - 1)
  }

  /** `k` ticks show phrase `k` for `k` up to the last; after that the timeout is scheduled and nothing moves. */
  lemma {:induction false} TicksFromStart(k: nat)
    ensures k <= LastPhrase ==> Ticks(Initial, k) == RevealState(-1, k, true, false)
    ensures k > LastPhrase ==> Ticks(Initial, k) == RevealState(-1, LastPhrase, true, true)
  {
    TicksFrom(Initial, k);
  }

  lemma {:induction false} TicksFrom(s: RevealState, k: nat)
    requires s.isThinking && !s.timeoutPending && s.thinkingIdx <= LastPhrase
    ensures s.thinkingIdx + k <= LastPhrase ==> Ticks(s, k) == s.(thinkingIdx := s.thinkingIdx + k)
    ensures s.thinkingIdx + k > LastPhrase ==> Ticks(s, k) == s.(thinkingIdx := LastPhrase, timeoutPending := true)
    decreases k
  {
    if k > 0 {
      var t := TickStep(s);
      if s.thinkingIdx < LastPhrase {
        TicksFrom(t, k - 1);
      } else {
        TicksWhilePending(t, k - 1);
      }
    }
  }

  lemma {:induction false} TicksWhilePending(s: RevealState, k: nat)
    requires s.timeoutPending
    ensures Ticks(s, k) == s
    decreases k
  {
    if k > 0 {
      TicksWhilePending(TickStep(s), k - 1);
    }
  }

  /**
   * After thinking ends (`rev == 0`), `k` clicks leave `rev` at `min(k, n - 1)`;
   * the round is finished exactly when `k >= n - 1`.
   */
  lemma {:induction false} ClicksAfterThinking(n: nat, k: nat, s: RevealState)
    requires !s.isThinking && s.rev == 0
    ensures Clicks(s, n, k).rev == if k <= n - 1 then k else if n >= 1 then n - 1 else 0
    ensures IsFinished(Clicks(s, n, k), n) <==> k >= n - 1
    ensures !Clicks(s, n, k).isThinking
  {
    ClicksFrom(n, k, s);
  }

  lemma {:induction false} ClicksFrom(n: nat, k: nat, s: RevealState)
    requires !s.isThinking && 0 <= s.rev
    ensures s.rev + k <= n - 1 ==> Clicks(s, n, k).rev == s.rev + k
    ensures s.rev + k > n - 1 ==> Clicks(s, n, k).rev == if s.rev <= n - 1 then n - 1 else s.rev
    ensures !Clicks(s, n, k).isThinking
    decreases k
  {
    if k > 0 {
      ClicksFrom(n, k - 1, ShowNextStep(s, n));
    }
  }

  /** Once finished, no action changes that: the standings stay on screen. */
  lemma FinishedIsStable(s: RevealState, n: nat)
    requires Inv(s, n) && IsFinished(s, n)
    ensures IsFinished(TickStep(s), n) && IsFinished(EndThinkingStep(s), n)
    ensures ShowNextStep(s, n) == s
  {
  }

  /** When finished, every player has been revealed, in the given order. */
  lemma FinishedRevealsAll(players: seq<Player>, s: RevealState)
    requires Inv(s, |players|) && IsFinished(s, |players|)
    ensures Revealed(players, s) == players
  {
  }

  /** A click that changes anything reveals exactly the next player. */
  lemma ShowNextRevealsOne(players: seq<Player>, s: RevealState)
    requires Inv(s, |players|) && !s.isThinking && s.rev < |players| - 1
    ensures Revealed(players, ShowNextStep(s, |players|)) == Revealed(players, s) + [players[s.rev + 1]]
  {
    assert players[..s.rev + 2] == players[..s.rev + 1] + [players[s.rev + 1]];
  }

  /** The component's state for one results screen. */
  class Results {
    const players: seq<Player>
    var rev: int
    var thinkingIdx: nat
    var isThinking: bool
    var timeoutPending: bool

    function State(): RevealState
      reads this
    {
      RevealState(rev, thinkingIdx, isThinking, timeoutPending)
    }

    ghost predicate Valid()
      reads this
    {
      Inv(State(), |players|)
    }

    constructor(players: seq<Player>)
      ensures this.players == players
      ensures State() == Initial && Valid()
    {
      this.players := players;
      rev := -1;
      thinkingIdx := 0;
      isThinking := true;
      timeoutPending := false;
    }

    /** One firing of the phrase interval. */
    method Tick()
      requires Valid()
      modifies this
      ensures State() == TickStep(old(State()))
      ensures Valid()
    {
      if isThinking && !timeoutPending {
        if thinkingIdx >= LastPhrase {
          timeoutPending := true;
        } else {
          thinkingIdx := thinkingIdx + 1;
        }
      }
    }

    /** The 800 ms timeout scheduled after the last phrase. */
    method EndThinking()
      requires Valid()
      modifies this
      ensures State() == EndThinkingStep(old(State()))
      ensures Valid()
    {
      if timeoutPending {
        isThinking := false;
        rev := 0;
        timeoutPending := false;
      }
    }

    /** A click on "show next", which is only on screen while `!isThinking && rev < players.length - 1`. */
    method ShowNext()
      requires Valid()
      modifies this
      ensures State() == ShowNextStep(old(State()), |players|)
      ensures Valid()
    {
      if !isThinking && rev < |players| - 1 {
        rev := rev + 1;
      }
    }

    /** What is on screen: the revealed players and, when finished, the standings. */
    method Screen() returns (revealed: seq<Player>, standings: seq<Player>, finished: bool)
      requires Valid()
      ensures finished <==> IsFinished(State(), |players|)
      ensures revealed == Revealed(players, State())
      ensures standings == StandingsShown(players, State())
    {
      finished := !isThinking && rev >= |players| - 1;
      if isThinking {
        revealed := [];
      } else if rev + 1 <= |players| {
        revealed := players[..rev + 1];
      } else {
        revealed := players;
      }
      standings := if finished then Standings(players) else [];
    }
  }
}
