/** Answer matching, elimination and scoring of one round
    (packages/game-core/src/round-elimination.ts, packages/game-core/src/scoring.ts). */
module Rounds {
  import opened Wrappers
  import opened MatchTypes
  import opened Basics

  // ---- answer matching, folding the case of ASCII letters ----

  function LowerChar(c: char): char {
    if 'A' <= c <= 'Z' then (c as int + 32) as char else c
  }

  function Lower(s: string): (r: string)
    ensures |r| == |s|
  {
    seq(|s|, i requires 0 <= i < |s| => LowerChar(s[i]))
  }

  /** What `trim` removes: white space and line terminators. */
  predicate Blank(c: char) {
    var n := c as int;
    || 9 <= n <= 13 || n == 0x20 || n == 0xA0 || n == 0x1680 || 0x2000 <= n <= 0x200A
    || n == 0x2028 || n == 0x2029 || n == 0x202F || n == 0x205F || n == 0x3000 || n == 0xFEFF
  }

  function TrimLeft(s: string): string {
    if s != "" && Blank(s[0]) then TrimLeft(s[1..]) else s
  }

  function TrimRight(s: string): string {
    if s != "" && Blank(s[|s| - 1]) then TrimRight(s[..|s| - 1]) else s
  }

  function Trim(s: string): string {
    TrimRight(TrimLeft(s))
  }

  /** `text.trim().toLowerCase()` */
  function Clean(s: string): string {
    Lower(Trim(s))
  }

  /** Index of the letter code A-D the text stands for, or -1. */
  function CodeIndex(clean: string): int {
    if clean == "a" then 0 else if clean == "b" then 1 else if clean == "c" then 2 else if clean == "d" then 3 else -1
  }

  function FindOption(options: seq<string>, clean: string, from: nat): int
    requires from <= |options|
    decreases |options| - from
  {
    if from == |options| then -1
    else if Clean(options[from]) == clean then from
    else FindOption(options, clean, from + 1)
  }

  predicate PointsTo(code: string, options: seq<string>, clean: string) {
    var i := CodeIndex(code);
    0 <= i < |options| && Clean(options[i]) == clean
  }

  predicate IsAnswerMatch(submitted: string, correct: Option<string>, options: seq<string>) {
    && submitted != "" && correct.Some? && correct.value != ""
    && var sub, corr := Clean(submitted), Clean(correct.value);
       || sub == corr
       || PointsTo(sub, options, corr)
       || PointsTo(corr, options, sub)
       || (FindOption(options, sub, 0) >= 0 && FindOption(options, sub, 0) == FindOption(options, corr, 0))
  }

  lemma {:induction false} FindOptionHits(options: seq<string>, clean: string, from: nat)
    requires from <= |options|
    ensures var i := FindOption(options, clean, from);
            i == -1 || (from <= i < |options| && Clean(options[i]) == clean)
    decreases |options| - from
  {
    if from < |options| && Clean(options[from]) != clean {
      FindOptionHits(options, clean, from + 1);
    }
  }

  /** The position rule adds nothing: an answer matches iff it is the key up to case and outer blanks,
      or one of the two is the letter code of an option reading as the other.  So matching is
      symmetric between the answer and the key. */
  lemma MatchMeaning(submitted: string, correct: Option<string>, options: seq<string>)
    ensures IsAnswerMatch(submitted, correct, options) <==>
              && submitted != "" && correct.Some? && correct.value != ""
              && var sub, corr := Clean(submitted), Clean(correct.value);
                 sub == corr || PointsTo(sub, options, corr) || PointsTo(corr, options, sub)
    ensures correct.Some? ==>
              IsAnswerMatch(submitted, correct, options) == IsAnswerMatch(correct.value, Some(submitted), options)
  {
    if correct.Some? {
      FindOptionHits(options, Clean(submitted), 0);
      FindOptionHits(options, Clean(correct.value), 0);
    }
  }

  /** Trimming takes away blanks at both ends and nothing else, and leaves none there. */
  lemma {:induction false} TrimLeftMeaning(s: string) returns (i: nat)
    ensures i <= |s| && TrimLeft(s) == s[i..] && (forall j :: 0 <= j < i ==> Blank(s[j])) && (i < |s| ==> !Blank(s[i]))
  {
    if s != "" && Blank(s[0]) {
      var k := TrimLeftMeaning(s[1..]);
      i := k + 1;
      assert s[1..][k..] == s[i..];
    } else {
      i := 0;
    }
  }

  lemma {:induction false} TrimRightMeaning(s: string) returns (i: nat)
    ensures i <= |s| && TrimRight(s) == s[..i] && (forall j :: i <= j < |s| ==> Blank(s[j])) && (i > 0 ==> !Blank(s[i - 1]))
  {
    if s != "" && Blank(s[|s| - 1]) {
      i := TrimRightMeaning(s[..|s| - 1]);
      assert s[..|s| - 1][..i] == s[..i];
    } else {
      i := |s|;
      assert s[..|s|] == s;
    }
  }

  lemma TrimMeaning(s: string) returns (i: nat, j: nat)
    ensures i <= j <= |s| && Trim(s) == s[i..j]
    ensures forall k :: 0 <= k < |s| && (k < i || j <= k) ==> Blank(s[k])
    ensures i < j ==> !Blank(s[i]) && !Blank(s[j - 1])
  {
    i := TrimLeftMeaning(s);
    var t := s[i..];
    var k := TrimRightMeaning(t);
    j := i + k;
    assert t[..k] == s[i..j];
    forall x | j <= x < |s| ensures Blank(s[x]) { assert s[x] == t[x - i]; }
    if i < j { assert s[j - 1] == t[k - 1]; }
  }

  /** Two strings are folded together exactly when they differ in the case of letters A-Z alone. */
  lemma LowerMeaning(s: string, t: string)
    ensures Lower(s) == Lower(t) <==>
              && |s| == |t|
              && forall i :: 0 <= i < |s| ==>
                   || s[i] == t[i]
                   || ('A' <= s[i] <= 'Z' && t[i] as int == s[i] as int + 32)
                   || ('A' <= t[i] <= 'Z' && s[i] as int == t[i] as int + 32)
  {
    if |s| == |t| {
      forall i | 0 <= i < |s|
        ensures Lower(s)[i] == Lower(t)[i] <==>
                  (|| s[i] == t[i]
                   || ('A' <= s[i] <= 'Z' && t[i] as int == s[i] as int + 32)
                   || ('A' <= t[i] <= 'Z' && s[i] as int == t[i] as int + 32))
      {
      }
      assert Lower(s) == Lower(t) <==> forall i :: 0 <= i < |s| ==> Lower(s)[i] == Lower(t)[i];
    } else {
      assert |Lower(s)| != |Lower(t)|;
    }
  }

  /** The letter codes are the single letters a to d, in the order of the options; so the letter of the
      option that is the key is a right answer, in either case and among blanks. */
  lemma LetterMeaning(s: string, options: seq<string>, i: nat)
    ensures CodeIndex(s) == if |s| == 1 && 'a' <= s[0] <= 'd' then s[0] as int - 'a' as int else -1
    ensures i < |options| && i < 4 && options[i] != "" && s != "" && Clean(s) == [('a' as int + i) as char] ==>
              IsAnswerMatch(s, Some(options[i]), options)
  {
    hide Clean;
    if i < |options| && i < 4 && options[i] != "" && s != "" && Clean(s) == [('a' as int + i) as char] {
      assert CodeIndex(Clean(s)) == i;
      assert PointsTo(Clean(s), options, Clean(options[i]));
    }
  }

  // ---- scoring ----

  const SCORE_BASE_CORRECT := 100
  const SCORE_SPEED_BONUS_WINDOW_MS := 10000
  const SCORE_SPEED_BONUS_DIVISOR := 200

  /** `computeRoundScore(ms).total`, rounded down as evaluateRound does. */
  function RoundPoints(responseTimeMs: int): int {
    var raw := Max(0, SCORE_SPEED_BONUS_WINDOW_MS - Max(0, responseTimeMs));
    (SCORE_BASE_CORRECT as real + raw as real / SCORE_SPEED_BONUS_DIVISOR as real).Floor
  }

  /** Always between 100 and 150, and never more for a slower answer. */
  lemma RoundPointsRange(a: int, b: int)
    requires a <= b
    ensures 100 <= RoundPoints(b) <= RoundPoints(a) <= 150
    ensures RoundPoints(a) == 150 <==> a <= 0
  {
    var ra := Max(0, SCORE_SPEED_BONUS_WINDOW_MS - Max(0, a)) as real / 200.0;
    var rb := Max(0, SCORE_SPEED_BONUS_WINDOW_MS - Max(0, b)) as real / 200.0;
    assert 0.0 <= rb <= ra <= 50.0;
  }

  /** A hundred points, and one more for each 200 ms saved of the first ten seconds. */
  lemma RoundPointsMeaning(responseTimeMs: int)
    requires 0 <= responseTimeMs
    ensures RoundPoints(responseTimeMs) == if responseTimeMs >= 10000 then 100 else 100 + (10000 - responseTimeMs) / 200
  {
    var saved := 10000 - responseTimeMs;
    if saved > 0 {
      var q, rest := saved / 200, saved % 200;
      assert saved as real / 200.0 == q as real + rest as real / 200.0;
    }
  }

  // ---- elimination ----

  /** A player survives a round only with a correct answer on record. */
  predicate Survives(r: Round, playerId: string) {
    playerId in r.answers.m && r.answers.m[playerId].isCorrect
  }

  function Filter(ids: seq<string>, keep: string -> bool): (r: seq<string>)
    ensures forall x :: x in r <==> x in ids && keep(x)
  {
    if ids == [] then []
    else (if keep(ids[0]) then [ids[0]] else []) + Filter(ids[1..], keep)
  }

  function Survivors(r: Round, ids: seq<string>): seq<string> {
    Filter(ids, id => Survives(r, id))
  }

  function EliminationsForRound(r: Round, ids: seq<string>): seq<string> {
    Filter(ids, id => !Survives(r, id))
  }

  /** Nobody is lost and nobody is counted twice. */
  lemma {:induction false} EliminationPartitions(r: Round, ids: seq<string>)
    ensures multiset(Survivors(r, ids)) + multiset(EliminationsForRound(r, ids)) == multiset(ids)
  {
    if ids != [] {
      EliminationPartitions(r, ids[1..]);
      assert ids == [ids[0]] + ids[1..];
    }
  }
}
