/** The word pool of `getDailyPrompts`. */
module PromptPool {

  const PoolSize := 40

  /** Entry `i` of the pool, in the order the array literal lists them (the last one from 39 on). */
  function PoolWord(i: int): string {
    match i
    case 0 => "Olvido"
    case 1 => "Cicatriz"
    case 2 => "Eco"
    case 3 => "Vértigo"
    case 4 => "Susurro"
    case 5 => "Órbita"
    case 6 => "Espejismo"
    case 7 => "Raíz"
    case 8 => "Diluvio"
    case 9 => "Ceniza"
    case 10 => "Brújula"
    case 11 => "Naufragio"
    case 12 => "Hilo"
    case 13 => "Puente"
    case 14 => "Sombra"
    case 15 => "Latido"
    case 16 => "Velo"
    case 17 => "Abismo"
    case 18 => "Relámpago"
    case 19 => "Polvo"
    case 20 => "Mapa"
    case 21 => "Llave"
    case 22 => "Marea"
    case 23 => "Cristal"
    case 24 => "Muro"
    case 25 => "Espejo"
    case 26 => "Veneno"
    case 27 => "Laberinto"
    case 28 => "Péndulo"
    case 29 => "Horizonte"
    case 30 => "Grito"
    case 31 => "Calma"
    case 32 => "Nudo"
    case 33 => "Flecha"
    case 34 => "Máscara"
    case 35 => "Esqueleto"
    case 36 => "Néctar"
    case 37 => "Ciclo"
    case 38 => "Ritmo"
    case _ => "Fuego"
  }

  /** The pool as the sequence `getDailyPrompts` indexes. */
  function Pool(): (p: seq<string>)
    ensures |p| == PoolSize
    ensures forall i | 0 <= i < PoolSize :: p[i] == PoolWord(i)
  {
    seq(PoolSize, PoolWord)
  }

  lemma PoolWordsDistinct()
    ensures forall i, j | 0 <= i < j < PoolSize :: PoolWord(i) != PoolWord(j)
  {
  }

  /** The 40 pool entries are pairwise different. */
  lemma PoolDistinct()
    ensures |Pool()| == 40
    ensures forall i, j | 0 <= i < |Pool()| && 0 <= j < |Pool()| && i != j :: Pool()[i] != Pool()[j]
  {
    PoolWordsDistinct();
    forall i, j | 0 <= i < |Pool()| && 0 <= j < |Pool()| && i != j
      ensures Pool()[i] != Pool()[j]
    {
      if i < j {
        assert PoolWord(i) != PoolWord(j);
      } else {
        assert PoolWord(j) != PoolWord(i);
      }
    }
  }
}

/**
 * The deterministic prompt schedule and the prompt-word clean-up of
 * services/geminiService.ts.
 *
 * The clock is not read: `DailyPrompts` takes the ordinal day of the year and
 * the local hour that `getDailyPrompts` derives from `new Date()`.
 */
module Prompts {
  import opened Wrappers
  import Text
  import opened PromptPool

  /** The fallback words `generateCreativePrompt` picks from when the model call fails. */
  const Fallbacks: seq<string> := ["VAC\U{00CD}O", "RA\U{00CD}Z", "ECO", "BR\U{00DA}JULA", "MAREA", "CENIZA", "LABERINTO"]

  /** `Math.floor(hour / 4)`: the 4-hour window of the day. */
  function HourBlock(hour: nat): (b: nat)
    ensures hour < 24 ==> b < 6
    ensures 4 * b <= hour < 4 * b + 4
  {
    hour / 4
  }

  /** `dayOfYear + hourBlock`: the only input the daily prompts depend on. */
  function Seed(dayOfYear: nat, hour: nat): (s: nat)
    ensures dayOfYear <= s && 4 * (s - dayOfYear) <= hour < 4 * (s - dayOfYear) + 4
    ensures hour < 24 ==> s < dayOfYear + 6
  {
    dayOfYear + HourBlock(hour)
  }

  /** The pool index of word `k`: `(seed * 17 + k * 31) % pool.length`, where the length is 40. */
  function WordIndex(seed: nat, k: nat): (i: nat)
    ensures i < |Pool()|
  {
    (seed * 17 + k * 31) % 40
  }

  /** `getDailyPrompts()` for the window of `dayOfYear` and `hour`. */
  function DailyPrompts(dayOfYear: nat, hour: nat): (r: seq<string>)
    ensures |r| == 3
    ensures forall k :: 1 <= k <= 3 ==> r[k - 1] == Pool()[WordIndex(Seed(dayOfYear, hour), k)]
    ensures r[0] != r[1] && r[0] != r[2] && r[1] != r[2]
  {
    var seed := Seed(dayOfYear, hour);
    DailyWordsDistinct(seed);
    [Pool()[WordIndex(seed, 1)], Pool()[WordIndex(seed, 2)], Pool()[WordIndex(seed, 3)]]
  }

  /**
   * The three indices of a seed are 31 apart modulo 40, and 31 and 62 are not
   * multiples of 40, so the three words are different pool entries.
   */
  lemma DailyWordsDistinct(seed: nat)
    ensures WordIndex(seed, 1) != WordIndex(seed, 2) && WordIndex(seed, 1) != WordIndex(seed, 3)
    ensures WordIndex(seed, 2) != WordIndex(seed, 3)
    ensures Pool()[WordIndex(seed, 1)] != Pool()[WordIndex(seed, 2)]
    ensures Pool()[WordIndex(seed, 1)] != Pool()[WordIndex(seed, 3)]
    ensures Pool()[WordIndex(seed, 2)] != Pool()[WordIndex(seed, 3)]
  {
    DailyIndicesDistinct(seed);
    PoolDistinct();
  }

  /** Consecutive indices are 31 apart modulo 40, and neither 31 nor 62 is a multiple of 40. */
  lemma DailyIndicesDistinct(seed: nat)
    ensures WordIndex(seed, 1) != WordIndex(seed, 2) && WordIndex(seed, 1) != WordIndex(seed, 3)
    ensures WordIndex(seed, 2) != WordIndex(seed, 3)
  {
    var x := seed * 17;
    var a := x % 40;
    assert WordIndex(seed, 1) == (x + 31) % 40 && WordIndex(seed, 2) == (x + 62) % 40 && WordIndex(seed, 3) == (x + 93) % 40;
    ModShift(x, 31);
    ModShift(x, 62);
    ModShift(x, 93);
    StepsDiffer(a);
  }

  /** From any residue, steps of 31, 62 and 93 modulo 40 land on three different residues. */
  lemma StepsDiffer(a: nat)
    requires a < 40
    ensures (a + 31) % 40 != (a + 62) % 40 && (a + 31) % 40 != (a + 93) % 40 && (a + 62) % 40 != (a + 93) % 40
  {
    var p, q, r := (a + 31) % 40, (a + 62) % 40, (a + 93) % 40;
    assert p == if a < 9 then a + 31 else a - 9;
    assert q == if a < 18 then a + 22 else a - 18;
    assert r == if a < 27 then a + 13 else a - 27;
  }

  /** Two clock readings in windows with the same seed get the same prompts. */
  lemma SameSeedSamePrompts(d1: nat, h1: nat, d2: nat, h2: nat)
    requires Seed(d1, h1) == Seed(d2, h2)
    ensures DailyPrompts(d1, h1) == DailyPrompts(d2, h2)
  {
  }

  /**
   * The seed is not a window identifier: block `b + 1` of day `d` and block
   * `b` of day `d + 1` share a seed, hence their prompts.
   */
  lemma NextBlockEqualsNextDay(d: nat, b: nat, minute: nat)
    requires minute < 4
    ensures Seed(d, 4 * (b + 1) + minute) == Seed(d + 1, 4 * b + minute)
    ensures DailyPrompts(d, 4 * (b + 1) + minute) == DailyPrompts(d + 1, 4 * b + minute)
  {
    assert HourBlock(4 * (b + 1) + minute) == b + 1;
    assert HourBlock(4 * b + minute) == b;
  }

  /** Seeds 40 apart give the same prompts: the schedule has period 40 in the seed. */
  lemma {:induction false} PromptsPeriodic(seed: nat)
    ensures forall k :: 1 <= k <= 3 ==> WordIndex(seed + 40, k) == WordIndex(seed, k)
  {
    forall k | 1 <= k <= 3
      ensures WordIndex(seed + 40, k) == WordIndex(seed, k)
    {
      var y := seed * 17 + k * 31;
      assert (seed + 40) * 17 + k * 31 == y + 680;
      ModShift(y, 680);
    }
  }

  /** Adding `d` before or after reducing modulo 40 gives the same residue. */
  lemma ModShift(x: nat, d: nat)
    ensures (x % 40 + d) % 40 == (x + d) % 40
  {
    var q := x / 40;
    assert x == 40 * q + x % 40;
    assert x + d == 40 * q + (x % 40 + d);
  }

  // ---- generateCreativePrompt ----

  /** `k` is where `trim()` cuts `s` at the front: white space before it, and none at it. */
  predicate TrimmedAt(s: string, k: nat) {
    k <= |s| && (forall i :: 0 <= i < k ==> Text.IsSpace(s[i])) && (k < |s| ==> !Text.IsSpace(s[k]))
  }

  /** There is one cut point. */
  lemma TrimmedAtUnique(s: string, k: nat, j: nat)
    requires TrimmedAt(s, k) && TrimmedAt(s, j)
    ensures k == j
  {
  }

  /**
   * The first whitespace-separated token of `s` after `trim()`:
   * `trim().split(/\s+/)[0]`, the longest run without white space that
   * starts where the leading white space ends.
   */
  function FirstToken(s: string): (t: string)
    ensures forall i :: 0 <= i < |t| ==> !Text.IsSpace(t[i])
    ensures |t| <= |s|
    ensures exists k: nat :: TrimmedAt(s, k) && t == TokenPrefix(s[k..])
  {
    if s == [] then
      assert TrimmedAt(s, 0) && s[0..] == s;
      []
    else if Text.IsSpace(s[0]) then
      var t := FirstToken(s[1..]);
      assert exists k: nat :: TrimmedAt(s, k) && t == TokenPrefix(s[k..]) by {
        var k: nat :| TrimmedAt(s[1..], k) && t == TokenPrefix(s[1..][k..]);
        assert s[1..][k..] == s[k + 1..];
        assert TrimmedAt(s, k + 1);
      }
      t
    else
      assert TrimmedAt(s, 0) && s[0..] == s;
      TokenPrefix(s)
  }

  /** The longest prefix of `s` without white space. */
  function TokenPrefix(s: string): (t: string)
    ensures |t| <= |s| && t == s[..|t|]
    ensures forall i :: 0 <= i < |t| ==> !Text.IsSpace(t[i])
    ensures |t| < |s| ==> Text.IsSpace(s[|t|])
  {
    if s == [] || Text.IsSpace(s[0]) then [] else [s[0]] + TokenPrefix(s[1..])
  }

  /** `replace(/[".]/g, '')`: every `"` and `.` removed. */
  function StripQuotesAndDots(s: string): (t: string)
    ensures forall i :: 0 <= i < |t| ==> t[i] != '"' && t[i] != '.'
    ensures |t| <= |s|
    ensures forall c :: c in t ==> c in s
  {
    if s == [] then []
    else if s[0] == '"' || s[0] == '.' then StripQuotesAndDots(s[1..])
    else [s[0]] + StripQuotesAndDots(s[1..])
  }

  /** One character: a `"` or a `.` is dropped, anything else kept. */
  lemma StripOne(c: char)
    ensures StripQuotesAndDots([c]) == if c == '"' || c == '.' then [] else [c]
  {
    assert [c][1..] == [];
  }

  /** The strip works piece by piece, so together with `StripOne` it keeps every other character, in order. */
  lemma {:induction false} StripAppend(a: string, b: string)
    ensures StripQuotesAndDots(a + b) == StripQuotesAndDots(a) + StripQuotesAndDots(b)
    decreases |a|
  {
    if a == [] {
      assert a + b == b;
    } else {
      assert (a + b)[0] == a[0] && (a + b)[1..] == a[1..] + b;
      StripAppend(a[1..], b);
    }
  }

  /**
   * The word `generateCreativePrompt` makes of the model's text: the first
   * token of the trimmed text, without `"` and `.`, upper-cased.
   */
  function CleanWord(text: string): (w: string)
    ensures w == Text.Upper(StripQuotesAndDots(FirstToken(text)))
    ensures |w| <= |text|
    ensures forall i :: 0 <= i < |w| ==> !Text.IsSpace(w[i]) && w[i] != '"' && w[i] != '.'
  {
    var stripped := StripQuotesAndDots(FirstToken(text));
    var w := Text.Upper(stripped);
    forall i | 0 <= i < |w|
      ensures !Text.IsSpace(w[i]) && w[i] != '"' && w[i] != '.'
    {
      Text.CaseMapKeepsSpace(stripped[i]);
      assert stripped[i] in stripped;
    }
    w
  }

  /** The token ends at the first white space. */
  lemma {:induction false} TokenPrefixStops(a: string, b: string)
    requires forall i :: 0 <= i < |a| ==> !Text.IsSpace(a[i])
    requires b != [] && Text.IsSpace(b[0])
    ensures TokenPrefix(a + b) == a
    decreases |a|
  {
    if a == [] {
      assert a + b == b;
    } else {
      assert (a + b)[1..] == a[1..] + b;
      TokenPrefixStops(a[1..], b);
    }
  }

  /** A model answer with leading white space, a trailing dot and a second word. */
  lemma CleanWordExample()
    ensures CleanWord("  eco. m\U{00E1}s") == "ECO"
  {
    var t := "  eco. m\U{00E1}s";
    FirstTokenExample();
    StripExample();
    UpperExample();
    assert CleanWord(t) == Text.Upper(StripQuotesAndDots(FirstToken(t)));
  }

  lemma UpperExample()
    ensures Text.Upper("eco") == "ECO"
  {
    var u := Text.Upper("eco");
    assert u[0] == 'E' && u[1] == 'C' && u[2] == 'O';
  }

  lemma StripExample()
    ensures StripQuotesAndDots("eco.") == "eco"
  {
    assert "eco." == "eco" + ".";
    StripAppend("eco", ".");
    StripOne('.');
    StripClean("eco");
  }

  lemma FirstTokenExample()
    ensures FirstToken("  eco. m\U{00E1}s") == "eco."
  {
    var r := "eco. m\U{00E1}s";
    assert "  eco. m\U{00E1}s" == "  " + r;
    assert r == "eco." + " m\U{00E1}s";
    TokenPrefixStops("eco.", " m\U{00E1}s");
    FirstTokenAfterSpaces("  ", r);
  }

  /** Leading white space is skipped: the token starts at the first other character. */
  lemma {:induction false} FirstTokenAfterSpaces(w: string, r: string)
    requires forall i :: 0 <= i < |w| ==> Text.IsSpace(w[i])
    requires r != [] && !Text.IsSpace(r[0])
    ensures FirstToken(w + r) == TokenPrefix(r)
    decreases |w|
  {
    if w == [] {
      assert w + r == r;
    } else {
      assert (w + r)[0] == w[0] && (w + r)[1..] == w[1..] + r;
      FirstTokenAfterSpaces(w[1..], r);
    }
  }

  /** Cleaning a cleaned word changes nothing. */
  lemma CleanWordIdempotent(text: string)
    ensures CleanWord(CleanWord(text)) == CleanWord(text)
  {
    var w := CleanWord(text);
    TokenOfCleanWord(w);
    StripClean(w);
    Text.UpperIdempotent(StripQuotesAndDots(FirstToken(text)));
  }

  lemma {:induction false} TokenOfCleanWord(w: string)
    requires forall i :: 0 <= i < |w| ==> !Text.IsSpace(w[i])
    ensures FirstToken(w) == w && TokenPrefix(w) == w
    decreases |w|
  {
    if w != [] {
      TokenOfCleanWord(w[1..]);
    }
  }

  lemma {:induction false} StripClean(w: string)
    requires forall i :: 0 <= i < |w| ==> w[i] != '"' && w[i] != '.'
    ensures StripQuotesAndDots(w) == w
    decreases |w|
  {
    if w != [] {
      StripClean(w[1..]);
    }
  }

  /** What the model call of `generateCreativePrompt` does: answer with text, or throw. */
  datatype ModelReply = Text(text: string) | Throws

  /**
   * `generateCreativePrompt()`: the cleaned word on success; on any failure the
   * fallback at `Math.floor(random * 7)`, where `random` is `Math.random()`.
   */
  function CreativePrompt(reply: ModelReply, random: real): (w: string)
    requires 0.0 <= random < 1.0
    ensures reply.Text? ==> w == CleanWord(reply.text)
    ensures reply.Throws? ==> w in Fallbacks
  {
    match reply
    case Text(t) => CleanWord(t)
    case Throws => Fallbacks[FallbackIndex(random)]
  }

  /** `Math.floor(random * fallbacks.length)` lies in bounds for `0 <= random < 1`. */
  function FallbackIndex(random: real): (i: nat)
    requires 0.0 <= random < 1.0
    ensures i < |Fallbacks|
    ensures i as real <= random * 7.0 < i as real + 1.0
  {
    (random * 7.0).Floor
  }
}
