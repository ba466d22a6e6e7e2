/** Topic ban voting (packages/game-core/src/topic-voting.ts). */
module TopicVoting {
  import Mulberry
  import Sorting
  import ClassEngine

  datatype VotingResult = VotingResult(banned: seq<string>, active: seq<string>, voteCounts: map<string, nat>)

  const CANDIDATE_POOL: seq<string> :=
    ["SCIENCE", "HISTORY", "GEOGRAPHY", "TECHNOLOGY", "SPORTS", "CULTURE", "LOGIC"]

  const CANDIDATE_COUNT := 6

  // ---- tallying ----

  function VotersFor(votes: map<string, string>, topic: string): set<string> {
    set p | p in votes && votes[p] == topic
  }

  function Tally(votes: map<string, string>, candidates: seq<string>): map<string, nat> {
    map t | t in candidates :: |VotersFor(votes, t)|
  }

  function TotalVotes(votes: map<string, string>, candidates: seq<string>): nat {
    if candidates == [] then 0
    else |VotersFor(votes, candidates[0])| + TotalVotes(votes, candidates[1..])
  }

  function VotersOf(votes: map<string, string>, candidates: seq<string>): set<string> {
    set p | p in votes && votes[p] in candidates
  }

  /** Summed over distinct candidates, the tallies count every voter of a candidate exactly once. */
  lemma {:induction false} TalliesCountVoters(votes: map<string, string>, candidates: seq<string>)
    requires forall i, j :: 0 <= i < j < |candidates| ==> candidates[i] != candidates[j]
    ensures TotalVotes(votes, candidates) == |VotersOf(votes, candidates)|
  {
    if candidates != [] {
      var head, rest := candidates[0], candidates[1..];
      TalliesCountVoters(votes, rest);
      SplitVoters(votes, head, rest);
      assert candidates == [head] + rest;
    }
  }

  lemma SplitVoters(votes: map<string, string>, head: string, rest: seq<string>)
    requires head !in rest
    ensures |VotersOf(votes, [head] + rest)| == |VotersFor(votes, head)| + |VotersOf(votes, rest)|
  {
    assert VotersOf(votes, [head] + rest) == VotersFor(votes, head) + VotersOf(votes, rest);
    assert VotersFor(votes, head) !! VotersOf(votes, rest);
  }

  /** Votes for t among the voters already seen, when `left` are still to come. */
  function Seen(votes: map<string, string>, t: string, left: set<string>): nat {
    |VotersFor(votes, t) - left|
  }

  lemma SeenSteps(votes: map<string, string>, t: string, left: set<string>, p: string)
    ensures Seen(votes, t, votes.Keys) == 0
    ensures Seen(votes, t, {}) == |VotersFor(votes, t)|
    ensures p in left && p in votes ==>
              Seen(votes, t, left - {p}) == Seen(votes, t, left) + (if votes[p] == t then 1 else 0)
  {
    assert VotersFor(votes, t) - votes.Keys == {};
    assert VotersFor(votes, t) - {} == VotersFor(votes, t);
    if p in left && p in votes {
      if votes[p] == t {
        assert VotersFor(votes, t) - (left - {p}) == (VotersFor(votes, t) - left) + {p};
      } else {
        assert VotersFor(votes, t) - (left - {p}) == VotersFor(votes, t) - left;
      }
    }
  }

  method TallyTopicVotes(votes: map<string, string>, candidates: seq<string>) returns (counts: map<string, nat>)
    ensures counts == Tally(votes, candidates)
  {
    hide Seen;
    counts := map t | t in candidates :: 0;
    var left := votes.Keys;
    forall t { SeenSteps(votes, t, {}, ""); }
    while left != {}
      invariant left <= votes.Keys
      invariant counts.Keys == set t | t in candidates
      invariant forall t :: t in counts ==> counts[t] == Seen(votes, t, left)
    {
      var p :| p in left;
      forall t { SeenSteps(votes, t, left, p); }
      left := left - {p};
      if votes[p] in counts {
        counts := counts[votes[p] := counts[votes[p]] + 1];
      }
    }
  }

  // ---- ranking ----

  function Scores(sorted: seq<string>, rolls: Mulberry.Rolls): map<string, Mulberry.Word> {
    if sorted == [] then map[]
    else
      var n := |sorted| - 1;
      Scores(sorted[..n], rolls)[sorted[n] := rolls(n)]
  }

  function Votes(counts: map<string, nat>, t: string): nat {
    if t in counts then counts[t] else 0
  }

  function Score(scores: map<string, Mulberry.Word>, t: string): Mulberry.Word {
    if t in scores then scores[t] else 0
  }

  /** Most votes first, then highest roll. */
  function BanOrder(counts: map<string, nat>, scores: map<string, Mulberry.Word>): (string, string) -> bool {
    (a, b) =>
      Votes(counts, a) > Votes(counts, b)
      || (Votes(counts, a) == Votes(counts, b) && Score(scores, a) >= Score(scores, b))
  }

  function Resolve(candidates: seq<string>, votes: map<string, string>, rolls: Mulberry.Rolls, bannedCount: nat): VotingResult {
    var counts := Tally(votes, candidates);
    if |candidates| <= bannedCount then VotingResult(candidates, [], counts)
    else
      var scores := Scores(Sorting.Sort(candidates, ClassEngine.IdOrder()), rolls);
      var ranked := Sorting.Sort(candidates, BanOrder(counts, scores));
      VotingResult(ranked[..bannedCount], ranked[bannedCount..], counts)
  }

  /** Bans and actives partition the candidates, and as many topics are banned as there can be. */
  lemma BansPartitionCandidates(candidates: seq<string>, votes: map<string, string>, rolls: Mulberry.Rolls, bannedCount: nat)
    ensures var r := Resolve(candidates, votes, rolls, bannedCount);
            && multiset(r.banned) + multiset(r.active) == multiset(candidates)
            && |r.banned| == (if bannedCount < |candidates| then bannedCount else |candidates|)
  {
    if bannedCount < |candidates| {
      var scores := Scores(Sorting.Sort(candidates, ClassEngine.IdOrder()), rolls);
      var ranked := Sorting.Sort(candidates, BanOrder(Tally(votes, candidates), scores));
      assert ranked == ranked[..bannedCount] + ranked[bannedCount..];
    }
  }

  /** No active topic has more votes than a banned one; between equal votes the higher roll is banned. */
  lemma BansAreTopVoted(candidates: seq<string>, votes: map<string, string>, rolls: Mulberry.Rolls, bannedCount: nat, b: string, a: string)
    requires b in Resolve(candidates, votes, rolls, bannedCount).banned
    requires a in Resolve(candidates, votes, rolls, bannedCount).active
    ensures |VotersFor(votes, b)| >= |VotersFor(votes, a)|
    ensures |VotersFor(votes, b)| == |VotersFor(votes, a)| ==>
              var scores := Scores(Sorting.Sort(candidates, ClassEngine.IdOrder()), rolls);
              Score(scores, b) >= Score(scores, a)
  {
    var counts := Tally(votes, candidates);
    var scores := Scores(Sorting.Sort(candidates, ClassEngine.IdOrder()), rolls);
    var order := BanOrder(counts, scores);
    var ranked := Sorting.Sort(candidates, order);
    hide Sorting.Sort, Scores;
    RankedOutvotes(candidates, counts, scores, bannedCount, b, a);
    assert b in multiset(candidates) && a in multiset(candidates);
  }

  lemma RankedOutvotes(candidates: seq<string>, counts: map<string, nat>, scores: map<string, Mulberry.Word>, n: nat, b: string, a: string)
    requires n <= |candidates|
    requires var ranked := Sorting.Sort(candidates, BanOrder(counts, scores)); b in ranked[..n] && a in ranked[n..]
    ensures BanOrder(counts, scores)(b, a)
    ensures var ranked := Sorting.Sort(candidates, BanOrder(counts, scores)); b in multiset(ranked) && a in multiset(ranked)
  {
    var order := BanOrder(counts, scores);
    BanOrderIsTotal(counts, scores);
    Sorting.SortSorts(candidates, order);
    AcrossSplit(Sorting.Sort(candidates, order), order, n, b, a);
  }

  lemma BanOrderIsTotal(counts: map<string, nat>, scores: map<string, Mulberry.Word>)
    ensures Sorting.TotalPreorder(BanOrder(counts, scores))
  {
  }

  lemma AcrossSplit(ranked: seq<string>, order: (string, string) -> bool, n: nat, b: string, a: string)
    requires Sorting.SortedBy(ranked, order) && n <= |ranked|
    requires b in ranked[..n] && a in ranked[n..]
    ensures order(b, a) && b in ranked && a in ranked
  {
    var i :| 0 <= i < n && ranked[i] == b;
    var j :| n <= j < |ranked| && ranked[j] == a;
  }

  method ResolveBannedTopics(candidates: seq<string>, votes: map<string, string>, rng: Mulberry.Generator, bannedCount: nat)
    returns (r: VotingResult)
    requires rng.Valid() && rng.calls == 0
    modifies rng
    ensures r == Resolve(candidates, votes, rng.rolls, bannedCount)
  {
    hide Mulberry.Mix;
    var counts := TallyTopicVotes(votes, candidates);
    if |candidates| <= bannedCount {
      return VotingResult(candidates, [], counts);
    }
    var sorted := Sorting.Sort(candidates, ClassEngine.IdOrder());
    var scores: map<string, Mulberry.Word> := map[];
    for i := 0 to |sorted|
      invariant rng.Valid() && rng.calls == i
      invariant scores == Scores(sorted[..i], rng.rolls)
    {
      var k := rng.Next();
      scores := scores[sorted[i] := k];
      assert sorted[..i + 1][..i] == sorted[..i];
    }
    assert sorted[..|sorted|] == sorted;
    var ranked := Sorting.Sort(candidates, BanOrder(counts, scores));
    r := VotingResult(ranked[..bannedCount], ranked[bannedCount..], counts);
  }

  /** `selectCandidateTopics`: the first topics of the pool in roll order. */
  function SelectCandidates(pool: seq<string>, count: nat, rolls: Mulberry.Rolls): seq<string> {
    if |pool| <= count then pool
    else ClassEngine.Ids(Sorting.Sort(ClassEngine.DrawRolls(pool, rolls), ClassEngine.RollOrder())[..count])
  }

  /** The candidates are distinct topics of the pool, as many as asked for. */
  lemma CandidatesComeFromPool(pool: seq<string>, count: nat, rolls: Mulberry.Rolls)
    ensures multiset(SelectCandidates(pool, count, rolls)) <= multiset(pool)
    ensures |SelectCandidates(pool, count, rolls)| == (if count < |pool| then count else |pool|)
  {
    if count < |pool| {
      hide Sorting.Sort, ClassEngine.DrawRolls;
      var drawn := ClassEngine.DrawRolls(pool, rolls);
      var ranked := Sorting.Sort(drawn, ClassEngine.RollOrder());
      ClassEngine.SortIds(drawn);
      ClassEngine.DrawRollsIds(pool, rolls);
      var ids := ClassEngine.Ids(ranked);
      IdsOfPrefix(ranked, count);
      PrefixIsSubset(ids, count);
    }
  }

  lemma IdsOfPrefix(ranked: seq<ClassEngine.Drawn>, n: nat)
    requires n <= |ranked|
    ensures ClassEngine.Ids(ranked[..n]) == ClassEngine.Ids(ranked)[..n]
  {
    hide ClassEngine.Ids;
  }

  lemma PrefixIsSubset(s: seq<string>, n: nat)
    requires n <= |s|
    ensures multiset(s[..n]) <= multiset(s)
  {
    assert s == s[..n] + s[n..];
  }
}
