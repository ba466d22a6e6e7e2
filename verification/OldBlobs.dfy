/** Matches saved before deadlines and submission ids were written (version 1 of
    packages/game-core/src/match-state.codec.ts). */
module OldBlobs {
  import opened MatchTypes
  import opened Wrappers
  import opened OrderedMap
  import opened Codec
  import MatchSpec
  import Text

  /** The match as version 1 wrote it: without the deadline of its phase. */
  function OldBlob(st: MatchState, round: Option<Round>, log: seq<Entry>): Blob {
    var b := Serialize(st, round, log);
    b.(version := Num(1), state := Some(b.state.value.(phaseEndsAt := Undefined)))
  }

  /** The deadline the phase of a match implies. */
  function Implied(st: MatchState, round: Option<Round>): Option<int> {
    match st.status
    case Countdown => if st.startedAt.Some? then Some(st.startedAt.value + 5000) else None
    case RoundActive => if round.Some? then Some(round.value.endsAt) else None
    case RoundResult => if st.roundResultStartedAt.Some? then Some(st.roundResultStartedAt.value + 3000) else None
    case _ => None
  }

  function OldTimings(st: MatchState, round: Option<Round>): Timings {
    TimingsOf(st, round).(phaseEndsAt := Absent)
  }

  lemma OldTimingsAre(st: MatchState, round: Option<Round>, log: seq<Entry>)
    ensures var b := OldBlob(st, round, log);
            ValidateMatchTiming(b.state.value, b.currentRound, 1) == Ok(OldTimings(st, round))
  {
    hide OfAnswers;
  }

  lemma OldStateDecodes(st: MatchState, round: Option<Round>, log: seq<Entry>)
    requires TimingReady(st, round)
    ensures DecodeMatchState(OldBlob(st, round, log).state.value, 1, OldTimings(st, round))
            == st.(phaseEndsAt := Implied(st, round))
  {
    hide FromEntries, Entries;
    EntriesRoundTrip(st.players);
  }

  lemma SameAnswers(es: seq<WireAnswer>)
    requires forall i :: 0 <= i < |es| ==> ValidAnswer(es[i], 2)
    ensures forall i :: 0 <= i < |es| ==> ValidAnswer(es[i], 1)
    ensures DecodeAnswers(es, 1) == DecodeAnswers(es, 2)
  {
    hide Text.OfInt;
    assert forall i :: 0 <= i < |es| ==> DecodeAnswer(es[i], 1) == DecodeAnswer(es[i], 2);
  }

  lemma OldAnswersDecode(r: Round)
    requires RoundReady(r)
    ensures var w := OfRound(r);
            && ValidRoundShape(w, 1)
            && FromEntries(DecodeAnswers(w.answers.value, 1)) == r.answers
            && ParseStatus(w.status) == Some(r.status)
            && DecodeStartingPlayers(w.startingPlayers) == r.startingPlayers
  {
    hide OfAnswers, DecodeAnswers, DecodeStartingPlayers, OfStartingPlayers, ValidAnswer, FromEntries, Entries;
    AnswersRoundTrip(r);
    StartingPlayersRoundTrip(r.startingPlayers);
    SameAnswers(OfAnswers(Entries(r.answers)));
  }

  lemma OldRoundDecodes(st: MatchState, r: Round)
    requires RoundReady(r) && ValidRoundShape(OfRound(r), 1) && r.startedAt <= r.endsAt
    ensures DecodeCurrentRound(ARound(OfRound(r)), 1, st, OldTimings(st, Some(r))) == Ok(EraseAnswer(Some(r)))
  {
    OldAnswersDecode(r);
    hide DecodeAnswers, OfAnswers, ParseStatus, DecodeStartingPlayers, OfStartingPlayers;
  }

  /** A version 1 match loads with the deadline its phase implies: five seconds after the start of a
      countdown, the end of the open round, three seconds after the start of a result, none otherwise.
      So it comes back whole exactly if that was its deadline. */
  lemma OldBlobRestoresDeadline(st: MatchState, round: Option<Round>, log: seq<Entry>)
    requires Ready(st, round)
    ensures Deserialize(OldBlob(st, round, log))
            == Ok(Decoded(st.(phaseEndsAt := Implied(st, round)), EraseAnswer(round), log, AllFinite))
    ensures Deserialize(OldBlob(st, round, log)) == Ok(Decoded(st, EraseAnswer(round), log, AllFinite))
            <==> st.phaseEndsAt == Implied(st, round)
  {
    hide OfRound, DecodeMatchState, DecodeCurrentRound, ValidateMatchTiming, ValidRoundShape, Implied, OldTimings;
    OldTimingsAre(st, round, log);
    OldStateDecodes(st, round, log);
    LogRoundTrip(st, round, log);
    if round.Some? {
      OldAnswersDecode(round.value);
      OldRoundDecodes(st, round.value);
      SameSpan(st, round.value, st.(phaseEndsAt := Implied(st, round)));
    } else {
      NoRoundDecodes(1, st.(phaseEndsAt := Implied(st, round)), OldTimings(st, round));
    }
  }

  /** The times of a round that has both do not depend on the phase's deadline. */
  lemma SameSpan(st: MatchState, r: Round, other: MatchState)
    requires ValidRoundShape(OfRound(r), 1) && other.status == st.status
    ensures DecodeCurrentRound(ARound(OfRound(r)), 1, other, OldTimings(st, Some(r)))
            == DecodeCurrentRound(ARound(OfRound(r)), 1, st, OldTimings(st, Some(r)))
  {
    hide DecodeAnswers, OfAnswers, ParseStatus, DecodeStartingPlayers, OfStartingPlayers;
  }

  /** A version 1 round that lacks one of its times gets it from the other, fifteen seconds away. */
  lemma MissingRoundTime(st: MatchState, r: WireRound, t: Timings, at: int)
    requires ValidRoundShape(r, 1) && st.status != RoundActive
    ensures var loaded := DecodeCurrentRound(ARound(r), 1, st, t.(roundStartedAt := At(at), roundEndsAt := Absent));
            loaded.Ok? && loaded.value.Some? && loaded.value.value.startedAt == at && loaded.value.value.endsAt == at + 15000
    ensures var loaded := DecodeCurrentRound(ARound(r), 1, st, t.(roundStartedAt := Absent, roundEndsAt := At(at)));
            loaded.Ok? && loaded.value.Some? && loaded.value.value.startedAt == at - 15000 && loaded.value.value.endsAt == at
    ensures DecodeCurrentRound(ARound(r), 1, st, t.(roundStartedAt := Absent, roundEndsAt := Absent)) == Err(NoReconstructableTiming)
  {
    hide DecodeAnswers, ParseStatus, DecodeStartingPlayers;
  }

  /** An answer stored without a submission id loads with the one a submission without an id gets now. */
  lemma LegacyIdsAgree(r: Round, p: string, answer: string, at: int)
    ensures var a := MatchSpec.NewAnswer(r, p, answer, at, None);
            var w := OfAnswer(p, a).(submissionId := Undefined);
            ValidAnswer(w, 1) && !ValidAnswer(w, 2) && DecodeAnswer(w, 1) == (p, a)
  {
    hide Text.OfInt;
  }

  /** Log entries stored without numbers load with their positions; stored numbers are kept. */
  lemma OldLogIsNumbered(log: seq<WireEntry>, i: nat)
    requires i < |log|
    ensures var e := BackfillEventSequence(log)[i];
            && e.event == log[i].event && e.timestamp == log[i].timestamp
            && (!log[i].seqNo.Num? && !log[i].seqNo.Infinite? ==> e.seqNo == i + 1)
            && (log[i].seqNo.Num? ==> e.seqNo == log[i].seqNo.n)
  {
  }
}
