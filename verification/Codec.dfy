/** Saving and loading a match (packages/game-core/src/match-state.codec.ts).  A blob is the tree that
    JSON.parse returns: the fields the decoder checks are JSON values, the ones it trusts are typed. */
module Codec {
  import opened MatchTypes
  import opened Wrappers
  import opened OrderedMap
  import opened Basics
  import Text

  /** Infinite is what a literal such as 1e999 is read as; it is written back as null. */
  datatype Json =
    | Undefined
    | Null
    | Bool(b: bool)
    | Num(n: int)
    | Infinite
    | Str(s: string)
    | Arr(items: seq<Json>)
    | Obj

  datatype WireEntry = WireEntry(event: Event, timestamp: int, seqNo: Json)

  datatype WireQuestion = BadQuestion | GoodQuestion(q: Question)

  datatype WireAnswer =
    | BadEntry
    | WireAnswer(key: Json, playerId: Json, answer: Json, submissionId: Json,
                 isCorrect: Json, responseTimeMs: Json, submittedAt: Json)

  datatype WireRound = WireRound(
    matchId: string, roundNo: Json, question: WireQuestion, startedAt: Json, endsAt: Json,
    answers: Option<seq<WireAnswer>>, status: Json, startingPlayers: Json, correctAnswer: Json)

  /** A falsy value, a truthy value that is no object, or an object. */
  datatype RoundSlot = NoRound | Garbage | ARound(r: WireRound)

  /** `rest` carries the fields that are copied through; its players and timing are placeholders. */
  datatype WireState = WireState(
    rest: MatchState, players: Option<seq<(string, PlayerInfo)>>,
    startedAt: Json, phaseEndsAt: Json, roundResultStartedAt: Json)

  datatype Blob = Blob(version: Json, state: Option<WireState>, currentRound: RoundSlot, eventLog: Option<seq<WireEntry>>)

  datatype Decoded = Decoded(st: MatchState, round: Option<Round>, log: seq<Entry>, infinite: Infinities)

  /** Which of the numbers that are only tested for being numbers were read as infinite: the round
      number and the seqNo at some positions of the log.  The model's integer in their place is 0. */
  datatype Infinities = Infinities(roundNo: bool, seqNos: set<nat>)

  const AllFinite := Infinities(false, {})

  datatype CodecError =
    | UnsupportedVersion | InvalidData | InvalidTimingField | MissingPhaseEndsAt
    | NoReconstructableTiming | EndsBeforeStart | DeadlineMismatch

  // ---- serialize ----

  const UNAVAILABLE_SENTINEL := "__UNAVAILABLE__"

  function OfOption(t: Option<int>): Json {
    if t.Some? then Num(t.value) else Null
  }

  function StatusName(s: RoundStatus): string {
    match s
    case Pending => "PENDING"
    case Open => "ACTIVE"
    case Evaluating => "EVALUATING"
    case Completed => "COMPLETED"
  }

  function OfStartingPlayers(s: StartingPlayers): Json {
    match s
    case Unavailable => Str(UNAVAILABLE_SENTINEL)
    case Available(ids) => Arr(seq(|ids|, i requires 0 <= i < |ids| => Str(ids[i])))
  }

  function OfAnswer(key: string, a: AnswerState): WireAnswer {
    WireAnswer(Str(key), Str(a.playerId), Str(a.answer), Str(a.submissionId),
               Bool(a.isCorrect), Num(a.responseTimeMs), Num(a.submittedAt))
  }

  function OfAnswers(es: seq<(string, AnswerState)>): (r: seq<WireAnswer>)
    ensures |r| == |es|
  {
    seq(|es|, i requires 0 <= i < |es| => OfAnswer(es[i].0, es[i].1))
  }

  /** The answer key is left out. */
  function OfRound(r: Round): WireRound {
    WireRound(r.matchId, Num(r.roundNo), GoodQuestion(r.question), Num(r.startedAt), Num(r.endsAt),
              Some(OfAnswers(Entries(r.answers))), Str(StatusName(r.status)),
              OfStartingPlayers(r.startingPlayers), Undefined)
  }

  function Blank(st: MatchState): MatchState {
    st.(players := Empty(), startedAt := None, phaseEndsAt := None, roundResultStartedAt := None)
  }

  function Serialize(st: MatchState, round: Option<Round>, log: seq<Entry>): Blob {
    Blob(
      Num(2),
      Some(WireState(Blank(st), Some(Entries(st.players)), OfOption(st.startedAt), OfOption(st.phaseEndsAt), OfOption(st.roundResultStartedAt))),
      if round.Some? then ARound(OfRound(round.value)) else NoRound,
      Some(seq(|log|, i requires 0 <= i < |log| => WireEntry(log[i].event, log[i].timestamp, Num(log[i].seqNo)))))
  }

  /** Saving what was loaded. */
  function Reserialize(d: Decoded): Blob {
    var b := Serialize(d.st, d.round, d.log);
    b.(currentRound := if d.infinite.roundNo && b.currentRound.ARound? then ARound(b.currentRound.r.(roundNo := Null)) else b.currentRound,
       eventLog := Some(seq(|d.log|, i requires 0 <= i < |d.log| =>
         WireEntry(d.log[i].event, d.log[i].timestamp, if i in d.infinite.seqNos then Null else Num(d.log[i].seqNo)))))
  }

  // ---- parse and shape checks ----

  function ParseStatus(j: Json): Option<RoundStatus> {
    if j == Str("PENDING") then Some(Pending)
    else if j == Str("ACTIVE") then Some(Open)
    else if j == Str("EVALUATING") then Some(Evaluating)
    else if j == Str("COMPLETED") then Some(Completed)
    else None
  }

  function SupportedVersion(j: Json): Option<nat> {
    if j == Num(1) then Some(1) else if j == Num(2) then Some(2) else None
  }

  /** `typeof j === "number"` */
  predicate IsNumber(j: Json) {
    j.Num? || j.Infinite?
  }

  function IntOf(j: Json): int {
    if j.Num? then j.n else 0
  }

  predicate ValidAnswer(a: WireAnswer, version: nat) {
    && a.WireAnswer?
    && a.key.Str? && a.playerId.Str? && a.key == a.playerId
    && a.answer.Str? && a.isCorrect.Bool? && a.responseTimeMs.Num? && a.submittedAt.Num?
    && (a.submissionId.Str? || (version == 1 && a.submissionId.Undefined?))
  }

  predicate ValidRoundShape(r: WireRound, version: nat) {
    && (r.correctAnswer.Undefined? || r.correctAnswer.Str?)
    && r.answers.Some? && (forall i :: 0 <= i < |r.answers.value| ==> ValidAnswer(r.answers.value[i], version))
    && r.question.GoodQuestion? && IsNumber(r.roundNo) && ParseStatus(r.status).Some?
  }

  // ---- timing ----

  datatype Timing = Absent | NullTime | At(t: int) {
    function ToOption(): Option<int> {
      if At? then Some(t) else None
    }
  }

  function ValidateTimingField(j: Json): Result<Timing, CodecError> {
    match j
    case Undefined => Ok(Absent)
    case Null => Ok(NullTime)
    case Num(n) => Ok(At(n))
    case _ => Err(InvalidTimingField)
  }

  datatype Timings = Timings(startedAt: Timing, phaseEndsAt: Timing, roundResultStartedAt: Timing, roundStartedAt: Timing, roundEndsAt: Timing)

  function ValidateMatchTiming(ws: WireState, slot: RoundSlot, version: nat): Result<Timings, CodecError> {
    var s := ValidateTimingField(ws.startedAt);
    var p := ValidateTimingField(ws.phaseEndsAt);
    var r := ValidateTimingField(ws.roundResultStartedAt);
    var rs := if slot.ARound? then ValidateTimingField(slot.r.startedAt) else Ok(Absent);
    var re := if slot.ARound? then ValidateTimingField(slot.r.endsAt) else Ok(Absent);
    if s.Err? || p.Err? || r.Err? || rs.Err? || re.Err? then Err(InvalidTimingField)
    else if version == 2 && p.value.Absent? then Err(MissingPhaseEndsAt)
    else Ok(Timings(s.value, p.value, r.value, rs.value, re.value))
  }

  /** The deadline of a version 1 blob, from the anchors it does carry. */
  function BackfillPhaseEndsAt(status: MatchStatus, t: Timings, roundResultStartedAt: Option<int>): Option<int> {
    match status
    case RoundActive =>
      if t.roundEndsAt.At? then Some(t.roundEndsAt.t)
      else if t.roundStartedAt.At? then Some(t.roundStartedAt.t + ROUND_DURATION_MS)
      else None
    case Countdown => if t.startedAt.At? then Some(t.startedAt.t + COUNTDOWN_DURATION_MS) else None
    case RoundResult => After(roundResultStartedAt, RESULT_DISPLAY_MS)
    case _ => None
  }

  function After(anchor: Option<int>, ms: int): Option<int> {
    if anchor.Some? then Some(anchor.value + ms) else None
  }

  // ---- decode ----

  function DecodeMatchState(ws: WireState, version: nat, t: Timings): MatchState
    requires ws.players.Some?
  {
    var status := ws.rest.status;
    var resultAt := if status == RoundResult then t.roundResultStartedAt.ToOption() else None;
    var phase := if t.phaseEndsAt.Absent? then BackfillPhaseEndsAt(status, t, resultAt) else t.phaseEndsAt.ToOption();
    ws.rest.(
      startedAt := t.startedAt.ToOption(),
      phaseEndsAt := if version == 2 && status == RoundResult then After(resultAt, RESULT_DISPLAY_MS) else phase,
      roundResultStartedAt := resultAt,
      players := FromEntries(ws.players.value))
  }

  function DecodeAnswer(a: WireAnswer, version: nat): (string, AnswerState)
    requires ValidAnswer(a, version)
  {
    (a.key.s, AnswerState(
      a.playerId.s, a.answer.s,
      if a.submissionId.Str? then a.submissionId.s else "legacy-" + a.key.s + "-" + Text.OfInt(a.submittedAt.n),
      a.isCorrect.b, a.responseTimeMs.n, a.submittedAt.n))
  }

  function DecodeAnswers(answers: seq<WireAnswer>, version: nat): (r: seq<(string, AnswerState)>)
    requires forall i :: 0 <= i < |answers| ==> ValidAnswer(answers[i], version)
    ensures |r| == |answers|
  {
    seq(|answers|, i requires 0 <= i < |answers| => DecodeAnswer(answers[i], version))
  }

  function DecodeStartingPlayers(j: Json): StartingPlayers {
    if j.Arr? && forall i :: 0 <= i < |j.items| ==> j.items[i].Str? then
      var ids := seq(|j.items|, i requires 0 <= i < |j.items| => j.items[i].s);
      if Distinct(ids) then Available(ids) else Unavailable
    else Unavailable
  }

  datatype Span = Span(startedAt: Option<int>, endsAt: Option<int>)

  /** Fill a missing start or end of the round from the other and from the phase deadline. */
  function RoundSpan(st: MatchState, t: Timings): Span {
    var started, ends0 := t.roundStartedAt.ToOption(), t.roundEndsAt.ToOption();
    var ends1 := if ends0.None? && st.status == RoundActive && st.phaseEndsAt.Some? then st.phaseEndsAt else ends0;
    var ends := if ends1.None? && started.Some? then Some(started.value + ROUND_DURATION_MS) else ends1;
    Span(if started.None? && ends.Some? then Some(ends.value - ROUND_DURATION_MS) else started, ends)
  }

  function ValidateRoundTiming(version: nat, st: MatchState, t: Timings, span: Span): (r: Result<(int, int), CodecError>)
    ensures r.Ok? ==> r.value.0 <= r.value.1
  {
    if span.startedAt.None? || span.endsAt.None? then Err(NoReconstructableTiming)
    else if span.endsAt.value < span.startedAt.value then Err(EndsBeforeStart)
    else if version == 2 && st.status == RoundActive && t.phaseEndsAt != At(span.endsAt.value) then Err(DeadlineMismatch)
    else Ok((span.startedAt.value, span.endsAt.value))
  }

  function DecodeCurrentRound(slot: RoundSlot, version: nat, st: MatchState, t: Timings): Result<Option<Round>, CodecError>
    requires slot.ARound? ==> ValidRoundShape(slot.r, version)
  {
    if !slot.ARound? then Ok(None)
    else
      match ValidateRoundTiming(version, st, t, RoundSpan(st, t))
      case Err(e) => Err(e)
      case Ok((startedAt, endsAt)) =>
        var r := slot.r;
        Ok(Some(Round(
          r.matchId, IntOf(r.roundNo), r.question.q, startedAt, endsAt,
          FromEntries(DecodeAnswers(r.answers.value, version)),
          ParseStatus(r.status).value, DecodeStartingPlayers(r.startingPlayers), None)))
  }

  function BackfillEventSequence(log: seq<WireEntry>): (r: seq<Entry>)
    ensures |r| == |log|
  {
    seq(|log|, i requires 0 <= i < |log| =>
      Entry(log[i].event, log[i].timestamp, if IsNumber(log[i].seqNo) then IntOf(log[i].seqNo) else i + 1))
  }

  function InfinitiesOf(slot: RoundSlot, log: seq<WireEntry>): Infinities {
    Infinities(slot.ARound? && slot.r.roundNo.Infinite?, set i: nat | i < |log| && log[i].seqNo.Infinite?)
  }

  function Deserialize(b: Blob): Result<Decoded, CodecError> {
    var v := SupportedVersion(b.version);
    if v.None? then Err(UnsupportedVersion)
    else if b.state.None? || b.state.value.players.None? || b.eventLog.None? then Err(InvalidData)
    else if b.currentRound.Garbage? then Err(InvalidData)
    else if b.currentRound.ARound? && !ValidRoundShape(b.currentRound.r, v.value) then Err(InvalidData)
    else
      match ValidateMatchTiming(b.state.value, b.currentRound, v.value)
      case Err(e) => Err(e)
      case Ok(t) =>
        var st := DecodeMatchState(b.state.value, v.value, t);
        match DecodeCurrentRound(b.currentRound, v.value, st, t)
        case Err(e) => Err(e)
        case Ok(round) =>
          var log := b.eventLog.value;
          Ok(Decoded(st, round, BackfillEventSequence(log), InfinitiesOf(b.currentRound, log)))
  }

  // ---- what survives the round trip ----

  function EraseAnswer(round: Option<Round>): Option<Round> {
    if round.Some? then Some(round.value.(correctAnswer := None)) else None
  }

  /** What the decoder demands of a match and of its timing. */
  predicate TimingReady(st: MatchState, round: Option<Round>) {
    && (st.status != RoundResult ==> st.roundResultStartedAt.None?)
    && (st.status == RoundResult ==> st.phaseEndsAt == After(st.roundResultStartedAt, RESULT_DISPLAY_MS))
    && (st.status == RoundActive && round.Some? ==> st.phaseEndsAt == Some(round.value.endsAt))
  }

  predicate RoundReady(r: Round) {
    && (forall k :: k in r.answers.m ==> r.answers.m[k].playerId == k)
    && (r.startingPlayers.Available? ==> Distinct(r.startingPlayers.ids))
  }

  predicate Ready(st: MatchState, round: Option<Round>) {
    && TimingReady(st, round)
    && (round.Some? ==> RoundReady(round.value) && round.value.startedAt <= round.value.endsAt)
  }

  lemma StartingPlayersRoundTrip(s: StartingPlayers)
    ensures DecodeStartingPlayers(OfStartingPlayers(s)) ==
              if s.Available? && Distinct(s.ids) then s else Unavailable
  {
    if s.Available? {
      var j := OfStartingPlayers(s);
      assert seq(|j.items|, i requires 0 <= i < |j.items| => j.items[i].s) == s.ids;
    }
  }

  lemma AnswersValidIffKeyed(r: Round)
    ensures (forall i :: 0 <= i < |r.answers.keys| ==> ValidAnswer(OfAnswers(Entries(r.answers))[i], 2))
              <==> forall k :: k in r.answers.m ==> r.answers.m[k].playerId == k
  {
    var es := OfAnswers(Entries(r.answers));
    if forall i :: 0 <= i < |r.answers.keys| ==> ValidAnswer(es[i], 2) {
      forall k | k in r.answers.m ensures r.answers.m[k].playerId == k {
        assert k in r.answers.keys;
        var i :| 0 <= i < |r.answers.keys| && r.answers.keys[i] == k;
        assert ValidAnswer(es[i], 2);
      }
    }
  }

  lemma AnswersRoundTrip(r: Round)
    requires forall k :: k in r.answers.m ==> r.answers.m[k].playerId == k
    ensures forall i :: 0 <= i < |r.answers.keys| ==> ValidAnswer(OfAnswers(Entries(r.answers))[i], 2)
    ensures FromEntries(DecodeAnswers(OfAnswers(Entries(r.answers)), 2)) == r.answers
  {
    AnswersValidIffKeyed(r);
    assert DecodeAnswers(OfAnswers(Entries(r.answers)), 2) == Entries(r.answers);
    EntriesRoundTrip(r.answers);
  }

  lemma ShapeRoundTrip(r: Round)
    ensures ValidRoundShape(OfRound(r), 2) <==> forall k :: k in r.answers.m ==> r.answers.m[k].playerId == k
  {
    AnswersValidIffKeyed(r);
  }

  lemma LogRoundTrip(st: MatchState, round: Option<Round>, log: seq<Entry>)
    ensures BackfillEventSequence(Serialize(st, round, log).eventLog.value) == log
    ensures InfinitiesOf(Serialize(st, round, log).currentRound, Serialize(st, round, log).eventLog.value) == AllFinite
  {
  }

  function OfTime(t: Option<int>): Timing {
    if t.Some? then At(t.value) else NullTime
  }

  function TimingsOf(st: MatchState, round: Option<Round>): Timings {
    Timings(OfTime(st.startedAt), OfTime(st.phaseEndsAt), OfTime(st.roundResultStartedAt),
            if round.Some? then At(round.value.startedAt) else Absent,
            if round.Some? then At(round.value.endsAt) else Absent)
  }

  lemma SerializedTiming(st: MatchState, round: Option<Round>, log: seq<Entry>)
    ensures var b := Serialize(st, round, log);
            ValidateMatchTiming(b.state.value, b.currentRound, 2) == Ok(TimingsOf(st, round))
  {
  }

  /** The state as version 2 decoding normalises it. */
  function Normal(st: MatchState): MatchState {
    if st.status == RoundResult then st.(phaseEndsAt := After(st.roundResultStartedAt, RESULT_DISPLAY_MS))
    else st.(roundResultStartedAt := None)
  }

  lemma StateRoundTrip(st: MatchState, round: Option<Round>, log: seq<Entry>)
    ensures var ws := Serialize(st, round, log).state.value;
            DecodeMatchState(ws, 2, TimingsOf(st, round)) == Normal(st)
  {
    EntriesRoundTrip(st.players);
  }

  function NormalRound(r: Round): Round {
    r.(correctAnswer := None,
       startingPlayers := if r.startingPlayers.Available? && Distinct(r.startingPlayers.ids) then r.startingPlayers else Unavailable)
  }

  lemma RoundTimingRoundTrip(st: MatchState, r: Round)
    ensures var t := TimingsOf(st, Some(r));
            ValidateRoundTiming(2, Normal(st), t, RoundSpan(Normal(st), t)) ==
              if r.endsAt < r.startedAt then Err(EndsBeforeStart)
              else if st.status == RoundActive && st.phaseEndsAt != Some(r.endsAt) then Err(DeadlineMismatch)
              else Ok((r.startedAt, r.endsAt))
  {
  }

  lemma RoundFieldsRoundTrip(r: Round)
    requires ValidRoundShape(OfRound(r), 2)
    ensures var w := OfRound(r);
            && FromEntries(DecodeAnswers(w.answers.value, 2)) == r.answers
            && ParseStatus(w.status) == Some(r.status)
            && DecodeStartingPlayers(w.startingPlayers) == NormalRound(r).startingPlayers
  {
    ShapeRoundTrip(r);
    hide OfAnswers, DecodeAnswers, OfStartingPlayers, DecodeStartingPlayers, FromEntries, Entries, Distinct;
    AnswersRoundTrip(r);
    StartingPlayersRoundTrip(r.startingPlayers);
  }

  lemma RoundRoundTrip(st: MatchState, r: Round)
    requires ValidRoundShape(OfRound(r), 2)
    ensures DecodeCurrentRound(ARound(OfRound(r)), 2, Normal(st), TimingsOf(st, Some(r))) ==
              if r.endsAt < r.startedAt then Err(EndsBeforeStart)
              else if st.status == RoundActive && st.phaseEndsAt != Some(r.endsAt) then Err(DeadlineMismatch)
              else Ok(Some(NormalRound(r)))
  {
    hide ValidateRoundTiming;
    hide RoundSpan;
    hide DecodeAnswers;
    hide ParseStatus;
    hide DecodeStartingPlayers;
    hide OfStartingPlayers;
    hide OfAnswers;
    RoundTimingRoundTrip(st, r);
    RoundFieldsRoundTrip(r);
  }

  /** Saving and loading gives back the match with only the answer key erased, exactly when the match
      meets the decoder's demands. */
  lemma RoundTripIffReady(st: MatchState, round: Option<Round>, log: seq<Entry>)
    ensures Deserialize(Serialize(st, round, log)) == Ok(Decoded(st, EraseAnswer(round), log, AllFinite)) <==> Ready(st, round)
  {
    hide OfRound;
    hide DecodeMatchState;
    hide DecodeCurrentRound;
    hide ValidateMatchTiming;
    hide ValidRoundShape;
    LogRoundTrip(st, round, log);
    SerializedTiming(st, round, log);
    StateRoundTrip(st, round, log);
    if round.Some? {
      ShapeRoundTrip(round.value);
      if ValidRoundShape(OfRound(round.value), 2) {
        RoundRoundTrip(st, round.value);
      }
    } else {
      NoRoundDecodes(2, Normal(st), TimingsOf(st, round));
    }
  }

  /** With consistent deadlines and answers, only a round that ends before it starts is rejected. */
  lemma RejectedIffBackwards(st: MatchState, round: Option<Round>, log: seq<Entry>)
    requires TimingReady(st, round) && (round.Some? ==> RoundReady(round.value))
    ensures Deserialize(Serialize(st, round, log)).Ok? <==> !(round.Some? && round.value.endsAt < round.value.startedAt)
  {
    hide OfRound;
    hide DecodeMatchState;
    hide DecodeCurrentRound;
    hide ValidateMatchTiming;
    hide ValidRoundShape;
    SerializedTiming(st, round, log);
    StateRoundTrip(st, round, log);
    if round.Some? {
      ShapeRoundTrip(round.value);
      RoundRoundTrip(st, round.value);
    } else {
      NoRoundDecodes(2, Normal(st), TimingsOf(st, round));
    }
  }

  lemma NoRoundDecodes(version: nat, st: MatchState, t: Timings)
    ensures DecodeCurrentRound(NoRound, version, st, t) == Ok(None)
  {
  }

  // ---- loading is a normal form ----

  predicate HasPhaseField(b: Blob) {
    b.state.Some? && !b.state.value.phaseEndsAt.Undefined?
  }

  /** What a version 1 blob that already carries phaseEndsAt must satisfy to be re-readable. */
  predicate PhaseFieldFits(b: Blob, d: Decoded)
    requires b.state.Some?
  {
    && (d.st.status == RoundActive && d.round.Some? ==> b.state.value.phaseEndsAt == Num(d.round.value.endsAt))
    && (d.st.status == RoundResult ==>
          b.state.value.phaseEndsAt ==
            if d.st.roundResultStartedAt.Some? then Num(d.st.roundResultStartedAt.value + RESULT_DISPLAY_MS) else Null)
  }

  lemma {:induction false} DecodedAnswersKeyed(answers: seq<WireAnswer>, version: nat)
    requires forall i :: 0 <= i < |answers| ==> ValidAnswer(answers[i], version)
    ensures var m := FromEntries(DecodeAnswers(answers, version)).m;
            forall k :: k in m ==> m[k].playerId == k
  {
    if answers != [] {
      var n := |answers| - 1;
      var es := DecodeAnswers(answers, version);
      DecodedAnswersKeyed(answers[..n], version);
      assert es[..n] == DecodeAnswers(answers[..n], version);
      assert es[n] == DecodeAnswer(answers[n], version);
      assert FromEntries(es).m == FromEntries(es[..n]).m[es[n].0 := es[n].1];
    }
  }

  lemma DecodedStartersDistinct(j: Json)
    ensures DecodeStartingPlayers(j).Available? ==> Distinct(DecodeStartingPlayers(j).ids)
  {
  }

  lemma DecodedRoundReady(slot: RoundSlot, version: nat, st: MatchState, t: Timings)
    requires slot.ARound? && ValidRoundShape(slot.r, version)
    requires DecodeCurrentRound(slot, version, st, t).Ok?
    ensures var round := DecodeCurrentRound(slot, version, st, t).value;
            && round.Some? && RoundReady(round.value) && round.value.correctAnswer.None?
            && ValidateRoundTiming(version, st, t, RoundSpan(st, t)) == Ok((round.value.startedAt, round.value.endsAt))
  {
    hide ValidateRoundTiming;
    hide RoundSpan;
    var r := DecodeCurrentRound(slot, version, st, t).value.value;
    assert r.answers == FromEntries(DecodeAnswers(slot.r.answers.value, version));
    assert r.startingPlayers == DecodeStartingPlayers(slot.r.startingPlayers);
    DecodedAnswersKeyed(slot.r.answers.value, version);
    DecodedStartersDistinct(slot.r.startingPlayers);
  }

  /** Which decoded matches meet the version 2 demands on their timing. */
  lemma DecodedTiming(ws: WireState, slot: RoundSlot, version: nat, t: Timings)
    requires ws.players.Some? && (version == 1 || version == 2)
    requires ValidateMatchTiming(ws, slot, version) == Ok(t)
    requires slot.ARound? ==> ValidateRoundTiming(version, DecodeMatchState(ws, version, t), t, RoundSpan(DecodeMatchState(ws, version, t), t)).Ok?
    ensures ws.phaseEndsAt == (if t.phaseEndsAt.Absent? then Undefined else OfOption(t.phaseEndsAt.ToOption()))
    ensures var st := DecodeMatchState(ws, version, t);
            && (st.status != RoundResult ==> st.roundResultStartedAt.None?)
            && ((version == 2 || t.phaseEndsAt.Absent?) && st.status == RoundResult ==>
                  st.phaseEndsAt == After(st.roundResultStartedAt, RESULT_DISPLAY_MS))
            && (version == 1 && !t.phaseEndsAt.Absent? ==> st.phaseEndsAt == t.phaseEndsAt.ToOption())
            && (slot.ARound? ==>
                  var endsAt := ValidateRoundTiming(version, st, t, RoundSpan(st, t)).value.1;
                  && (version == 2 && st.status == RoundActive ==> st.phaseEndsAt == Some(endsAt))
                  && (t.phaseEndsAt.Absent? && st.status == RoundActive ==> st.phaseEndsAt == Some(endsAt)))
  {
  }

  lemma ReserializeFinite(d: Decoded)
    requires d.infinite == AllFinite
    ensures Reserialize(d) == Serialize(d.st, d.round, d.log)
  {
    hide OfRound;
    assert Reserialize(d).eventLog.value == Serialize(d.st, d.round, d.log).eventLog.value;
  }

  /** Null is neither a round number nor a seqNo: an infinite one is refused or renumbered. */
  lemma InfinityIsLost(d: Decoded)
    requires d.round.None? ==> !d.infinite.roundNo
    requires forall i :: i in d.infinite.seqNos ==> i < |d.log|
    requires d.infinite != AllFinite
    ensures Deserialize(Reserialize(d)) != Ok(d)
  {
    hide DecodeMatchState, DecodeCurrentRound, ValidateMatchTiming;
    var b := Reserialize(d);
    if d.infinite.roundNo {
      assert !ValidRoundShape(b.currentRound.r, 2);
    } else {
      assert InfinitiesOf(b.currentRound, b.eventLog.value) == AllFinite;
    }
  }

  /** Loading is a normal form: what an accepted blob decodes to is saved and reloaded unchanged exactly
      when its round number and seqNos are finite and, for a version 1 blob with a phaseEndsAt field,
      that field fits the round or result it is stored with. */
  lemma LoadingIsNormalForm(b: Blob)
    requires Deserialize(b).Ok?
    ensures var d := Deserialize(b).value;
            Deserialize(Reserialize(d)) == Ok(d) <==>
              && InfinitiesOf(b.currentRound, b.eventLog.value) == AllFinite
              && (b.version == Num(2) || !HasPhaseField(b) || PhaseFieldFits(b, d))
  {
    var d := Deserialize(b).value;
    DecodedInfinities(b);
    if d.infinite == AllFinite {
      ReserializeFinite(d);
      FiniteIsNormalForm(b);
    } else {
      InfinityIsLost(d);
    }
  }

  lemma DecodedInfinities(b: Blob)
    requires Deserialize(b).Ok?
    ensures var d := Deserialize(b).value;
            && b.eventLog.Some? && d.infinite == InfinitiesOf(b.currentRound, b.eventLog.value)
            && (d.round.None? ==> !d.infinite.roundNo)
            && forall i :: i in d.infinite.seqNos ==> i < |d.log|
  {
    hide DecodeMatchState, ValidateMatchTiming, ValidRoundShape, ValidateRoundTiming, RoundSpan;
  }

  lemma FiniteIsNormalForm(b: Blob)
    requires Deserialize(b).Ok? && Deserialize(b).value.infinite == AllFinite
    ensures var d := Deserialize(b).value;
            Deserialize(Serialize(d.st, d.round, d.log)) == Ok(d) <==>
              (b.version == Num(2) || !HasPhaseField(b) || PhaseFieldFits(b, d))
  {
    hide DecodeMatchState;
    hide DecodeCurrentRound;
    hide ValidateMatchTiming;
    hide ValidRoundShape;
    hide RoundSpan;
    hide ValidateRoundTiming;
    hide Serialize;
    var d := Deserialize(b).value;
    RoundTripIffReady(d.st, d.round, d.log);
    var version := SupportedVersion(b.version).value;
    var t := ValidateMatchTiming(b.state.value, b.currentRound, version).value;
    var st := DecodeMatchState(b.state.value, version, t);
    if b.currentRound.ARound? {
      DecodedRoundReady(b.currentRound, version, st, t);
    } else {
      NoRoundDecodes(version, st, t);
    }
    DecodedTiming(b.state.value, b.currentRound, version, t);
  }

  /** A round from 0 to 10 whose phase is stored as ending at `phaseEndsAt`. */
  function RoundBlob(version: nat, rest: MatchState, q: Question, roundNo: Json, phaseEndsAt: Json): Blob {
    Blob(
      Num(version),
      Some(WireState(rest.(status := RoundActive), Some([]), Null, phaseEndsAt, Undefined)),
      ARound(WireRound("m", roundNo, GoodQuestion(q), Num(0), Num(10), Some([]), Str("ACTIVE"), Arr([]), Undefined)),
      Some([]))
  }

  /** Both conditions can fail: a version 1 blob stored with another deadline than its round's, and a
      version 2 blob with an infinite round number, load but are refused when saved again. */
  lemma LoadedCanBeUnreadable(rest: MatchState, q: Question)
    ensures var b := RoundBlob(1, rest, q, Num(1), Num(5));
            Deserialize(b).Ok? && Deserialize(Reserialize(Deserialize(b).value)) == Err(DeadlineMismatch)
    ensures var b := RoundBlob(2, rest, q, Infinite, Num(10));
            Deserialize(b).Ok? && Deserialize(Reserialize(Deserialize(b).value)) == Err(InvalidData)
  {
    MisfitReloads(rest, q);
    InfiniteReloads(rest, q);
  }

  lemma MisfitDecodes(rest: MatchState, q: Question)
    ensures var b := RoundBlob(1, rest, q, Num(1), Num(5));
            && Deserialize(b).Ok?
            && var d := Deserialize(b).value;
               && d.infinite == AllFinite && d.st.status == RoundActive && d.st.phaseEndsAt == Some(5)
               && d.round.Some? && RoundReady(d.round.value)
               && d.round.value.startedAt == 0 && d.round.value.endsAt == 10
  {
    var b := RoundBlob(1, rest, q, Num(1), Num(5));
    var t := Timings(NullTime, At(5), Absent, At(0), At(10));
    assert ValidRoundShape(b.currentRound.r, 1);
    assert ValidateMatchTiming(b.state.value, b.currentRound, 1) == Ok(t);
    var st := DecodeMatchState(b.state.value, 1, t);
    assert st.phaseEndsAt == Some(5) && RoundSpan(st, t) == Span(Some(0), Some(10));
    DecodedRoundReady(b.currentRound, 1, st, t);
  }

  lemma MisfitReloads(rest: MatchState, q: Question)
    ensures var b := RoundBlob(1, rest, q, Num(1), Num(5));
            Deserialize(b).Ok? && Deserialize(Reserialize(Deserialize(b).value)) == Err(DeadlineMismatch)
  {
    hide RoundBlob;
    MisfitDecodes(rest, q);
    var d := Deserialize(RoundBlob(1, rest, q, Num(1), Num(5))).value;
    hide DecodeMatchState, DecodeCurrentRound, ValidateMatchTiming, ValidRoundShape, RoundSpan, ValidateRoundTiming, OfRound;
    ReserializeFinite(d);
    ShapeRoundTrip(d.round.value);
    SerializedTiming(d.st, d.round, d.log);
    StateRoundTrip(d.st, d.round, d.log);
    RoundRoundTrip(d.st, d.round.value);
  }

  lemma InfiniteReloads(rest: MatchState, q: Question)
    ensures var b := RoundBlob(2, rest, q, Infinite, Num(10));
            Deserialize(b).Ok? && Deserialize(Reserialize(Deserialize(b).value)) == Err(InvalidData)
  {
    var b := RoundBlob(2, rest, q, Infinite, Num(10));
    var t := Timings(NullTime, At(10), Absent, At(0), At(10));
    assert ValidRoundShape(b.currentRound.r, 2);
    assert ValidateMatchTiming(b.state.value, b.currentRound, 2) == Ok(t);
    var st := DecodeMatchState(b.state.value, 2, t);
    assert RoundSpan(st, t) == Span(Some(0), Some(10));
    var d := Deserialize(b).value;
    assert !ValidRoundShape(Reserialize(d).currentRound.r, 2);
  }
}
