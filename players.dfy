/**
 * The `Player` records of a local multiplayer match (types.ts) and the pure
 * list transformations App.tsx applies to them: creating the players,
 * clearing a round, recording a round's scores, and the two sorts.
 */
module Players {
  import opened Wrappers
  import Decimal
  import Scoring

  /** `Player`: the optional fields are those of the current round. */
  datatype Player = Player(id: string, name: string, word: Option<string>, score: Option<real>,
                           totalScore: real, comment: Option<string>)

  /** The player has nothing recorded for the current round. */
  predicate Fresh(p: Player) {
    p.word.None? && p.score.None? && p.comment.None?
  }

  /** `playerNames.map((name, i) => ({ id: String(i), name, totalScore: 0 }))`. */
  function NewPlayers(names: seq<string>): (ps: seq<Player>)
    ensures |ps| == |names|
    ensures forall i :: 0 <= i < |ps| ==> ps[i].name == names[i] && ps[i].totalScore == 0.0 && Fresh(ps[i])
    ensures forall i :: 0 <= i < |ps| ==> ps[i].id == Decimal.NatToString(i)
    ensures forall i :: 0 <= i < |ps| ==> Decimal.AllDigits(ps[i].id) && Decimal.ParseDigits(ps[i].id) == i
    ensures forall i, j :: 0 <= i < |ps| && 0 <= j < |ps| && i != j ==> ps[i].id != ps[j].id
  {
    var ps := seq(|names|, i requires 0 <= i < |names| => Player(Decimal.NatToString(i), names[i], None, None, 0.0, None));
    forall i | 0 <= i < |ps|
      ensures Decimal.ParseDigits(ps[i].id) == i
    {
      Decimal.ParseNatToString(i);
    }
    ps
  }

  /** `players.map(p => ({ ...p, word: undefined, score: undefined, comment: undefined }))`. */
  function ClearRound(ps: seq<Player>): (r: seq<Player>)
    ensures |r| == |ps|
    ensures forall i :: 0 <= i < |r| ==> Fresh(r[i])
    ensures forall i :: 0 <= i < |r| ==>
              r[i].id == ps[i].id && r[i].name == ps[i].name && r[i].totalScore == ps[i].totalScore
  {
    seq(|ps|, i requires 0 <= i < |ps| => ps[i].(word := None, score := None, comment := None))
  }

  /** Clearing keeps a fresh player as it is, so clearing twice is clearing once. */
  lemma ClearRoundIdempotent(ps: seq<Player>)
    ensures ClearRound(ClearRound(ps)) == ClearRound(ps)
    ensures (forall i :: 0 <= i < |ps| ==> Fresh(ps[i])) ==> ClearRound(ps) == ps
  {
  }

  /** The players just created are already clear. */
  lemma NewPlayersAreClear(names: seq<string>)
    ensures ClearRound(NewPlayers(names)) == NewPlayers(names)
  {
    ClearRoundIdempotent(NewPlayers(names));
  }

  /** `a.score || 0`: the round score, 0 when there is none. */
  function RoundScore(p: Player): (r: real)
    ensures p.score.Some? ==> r == p.score.value
    ensures p.score.None? ==> r == 0.0
  {
    p.score.GetOr(0.0)
  }

  /**
   * `{ ...p, score: res.score, comment: res.comment, totalScore: (p.totalScore || 0) + res.score }`
   * for each player and the result of its word.
   */
  function ScoreRound(ps: seq<Player>, rs: seq<Scoring.ScoreResult>): (r: seq<Player>)
    requires |rs| == |ps|
    ensures |r| == |ps|
    ensures forall i :: 0 <= i < |r| ==>
              r[i].id == ps[i].id && r[i].name == ps[i].name && r[i].word == ps[i].word
              && r[i].score == Some(rs[i].score) && r[i].comment == Some(rs[i].comment)
    ensures forall i :: 0 <= i < |r| ==> r[i].totalScore - ps[i].totalScore == RoundScore(r[i])
  {
    seq(|ps|, i requires 0 <= i < |ps| =>
      ps[i].(score := Some(rs[i].score), comment := Some(rs[i].comment),
             totalScore := ps[i].totalScore + rs[i].score))
  }

  /** The sum of the players' totals. */
  function SumTotals(ps: seq<Player>): real
    decreases |ps|
  {
    if ps == [] then 0.0 else SumTotals(ps[..|ps| - 1]) + ps[|ps| - 1].totalScore
  }

  /** The sum of the round's scores. */
  function SumScores(rs: seq<Scoring.ScoreResult>): real
    decreases |rs|
  {
    if rs == [] then 0.0 else SumScores(rs[..|rs| - 1]) + rs[|rs| - 1].score
  }

  /** Each round score is added to the totals exactly once. */
  lemma {:induction false} ScoreRoundAddsOnce(ps: seq<Player>, rs: seq<Scoring.ScoreResult>)
    requires |rs| == |ps|
    ensures SumTotals(ScoreRound(ps, rs)) == SumTotals(ps) + SumScores(rs)
    decreases |ps|
  {
    if ps != [] {
      var n := |ps| - 1;
      assert ScoreRound(ps, rs)[..n] == ScoreRound(ps[..n], rs[..n]);
      ScoreRoundAddsOnce(ps[..n], rs[..n]);
    }
  }

  /** With non-negative scores no total goes down. */
  lemma ScoreRoundMonotone(ps: seq<Player>, rs: seq<Scoring.ScoreResult>)
    requires |rs| == |ps|
    requires forall i :: 0 <= i < |rs| ==> rs[i].score >= 0.0
    ensures forall i :: 0 <= i < |ps| ==> ScoreRound(ps, rs)[i].totalScore >= ps[i].totalScore
  {
  }

  // ---- sorting ----

  /** Ascending by `key`. */
  predicate SortedBy(ps: seq<Player>, key: Player -> real) {
    forall i, j :: 0 <= i < j < |ps| ==> key(ps[i]) <= key(ps[j])
  }

  /** Insert `x` after every element whose key does not exceed its own. */
  function Insert(s: seq<Player>, x: Player, key: Player -> real): (r: seq<Player>)
    requires SortedBy(s, key)
    ensures SortedBy(r, key)
    ensures multiset(r) == multiset(s) + multiset{x}
    ensures forall y :: y in r ==> y == x || y in s
    ensures SumTotals(r) == SumTotals(s) + x.totalScore
    decreases |s|
  {
    if s == [] then [x]
    else if key(x) < key(s[0]) then
      InsertFront(s, x, key);
      [x] + s
    else
      var t := Insert(s[1..], x, key);
      InsertBehind(s, x, key, t);
      [s[0]] + t
  }

  /** Keeping the head of a sorted list whose first key is not larger, in front of the rest with `x` inserted. */
  lemma InsertBehind(s: seq<Player>, x: Player, key: Player -> real, t: seq<Player>)
    requires SortedBy(s, key) && s != [] && key(s[0]) <= key(x)
    requires SortedBy(t, key) && multiset(t) == multiset(s[1..]) + multiset{x}
    requires forall y :: y in t ==> y == x || y in s[1..]
    requires SumTotals(t) == SumTotals(s[1..]) + x.totalScore
    ensures SortedBy([s[0]] + t, key)
    ensures multiset([s[0]] + t) == multiset(s) + multiset{x}
    ensures forall y :: y in [s[0]] + t ==> y == x || y in s
    ensures SumTotals([s[0]] + t) == SumTotals(s) + x.totalScore
  {
    assert s == [s[0]] + s[1..];
    SumTotalsCons(s[0], s[1..]);
    SumTotalsCons(s[0], t);
    forall j | 0 <= j < |t|
      ensures key(s[0]) <= key(t[j])
    {
      assert t[j] in t;
      if t[j] != x {
        var k :| 0 <= k < |s[1..]| && s[1..][k] == t[j];
        assert s[k + 1] == t[j];
      }
    }
  }

  /** Putting `x` in front of a sorted list whose first key is larger. */
  lemma InsertFront(s: seq<Player>, x: Player, key: Player -> real)
    requires SortedBy(s, key) && s != [] && key(x) < key(s[0])
    ensures SortedBy([x] + s, key)
    ensures SumTotals([x] + s) == SumTotals(s) + x.totalScore
  {
    SumTotalsCons(x, s);
  }

  /** The sum read from the front. */
  lemma {:induction false} SumTotalsCons(x: Player, s: seq<Player>)
    ensures SumTotals([x] + s) == x.totalScore + SumTotals(s)
    decreases |s|
  {
    if s != [] {
      var n := |s| - 1;
      assert ([x] + s)[..|s|] == [x] + s[..n];
      SumTotalsCons(x, s[..n]);
    }
  }

  /**
   * `Array.prototype.sort` with the comparator `(a, b) => key(a) - key(b)`:
   * a stable insertion sort, ascending by `key`.
   */
  function SortBy(ps: seq<Player>, key: Player -> real): (r: seq<Player>)
    ensures SortedBy(r, key)
    ensures multiset(r) == multiset(ps)
    ensures SumTotals(r) == SumTotals(ps)
    decreases |ps|
  {
    if ps == [] then []
    else
      var n := |ps| - 1;
      assert ps == ps[..n] + [ps[n]];
      Insert(SortBy(ps[..n], key), ps[n], key)
  }

  /** The reveal order: ascending by round score. */
  function SortByRound(ps: seq<Player>): (r: seq<Player>)
    ensures multiset(r) == multiset(ps)
    ensures forall i, j :: 0 <= i < j < |r| ==> RoundScore(r[i]) <= RoundScore(r[j])
  {
    SortBy(ps, RoundScore)
  }

  /** The standings key: `b.totalScore - a.totalScore` compares by the negated total. */
  function NegTotal(p: Player): (r: real)
    ensures r + p.totalScore == 0.0
  {
    -p.totalScore
  }

  /** The standings: `[...players].sort((a, b) => b.totalScore - a.totalScore)`, descending by total. */
  function Standings(ps: seq<Player>): (r: seq<Player>)
    ensures multiset(r) == multiset(ps)
    ensures forall i, j :: 0 <= i < j < |r| ==> r[i].totalScore >= r[j].totalScore
  {
    var r := SortBy(ps, NegTotal);
    assert forall i, j :: 0 <= i < j < |r| ==> NegTotal(r[i]) <= NegTotal(r[j]);
    r
  }

  /** A permutation has as many players, and the same players. */
  lemma PermutationKeepsPlayers(ps: seq<Player>, qs: seq<Player>)
    requires multiset(ps) == multiset(qs)
    ensures |ps| == |qs|
    ensures forall p :: p in ps <==> p in qs
  {
    assert |multiset(ps)| == |ps| && |multiset(qs)| == |qs|;
    forall p
      ensures p in ps <==> p in qs
    {
      assert p in ps <==> p in multiset(ps);
      assert p in qs <==> p in multiset(qs);
    }
  }

  /** The standings are the round's players, and the leader has the highest total. */
  lemma StandingsLeader(ps: seq<Player>)
    requires ps != []
    ensures Standings(ps) != [] && Standings(ps)[0] in ps
    ensures forall p :: p in ps ==> Standings(ps)[0].totalScore >= p.totalScore
  {
    var r := Standings(ps);
    PermutationKeepsPlayers(ps, r);
    forall p | p in ps
      ensures r[0].totalScore >= p.totalScore
    {
      var j :| 0 <= j < |r| && r[j] == p;
      if j > 0 {
        assert r[0].totalScore >= r[j].totalScore;
      }
    }
  }

  /** The sorts keep the sum of the totals. */
  lemma SortsKeepTotals(ps: seq<Player>)
    ensures SumTotals(SortByRound(ps)) == SumTotals(ps)
    ensures SumTotals(Standings(ps)) == SumTotals(ps)
  {
  }
}
