# Verified model of the arena game core

This project models the deterministic core of the game server in Dafny and proves what its
design relies on. `dafny verify dfyconfig.toml` checks everything.

## What is modelled

**The match.** A match is an object that changes its own mirrors (classes, hands, picked and
played cards, active effects, area-effect counts, second chances) and appends to an event log
that is meant to be the only source of truth. `MatchSpec` gives each public operation as a
function from machine to machine, with the branches, error results and order of log entries of
the TypeScript class; `MatchMachine.MatchStateMachine` is that class with its fields updated in
place, each method proved equal to its function. `MatchRuns` lets any operations run in any
order, with a save-and-reload through the codec anywhere in between. `Rehydrate` is the fold that
rebuilds the mirrors from the log, and `Codec` is the wire format as a value tree in which
absent, null, number and infinity are distinct.

The main results over all runs: mirrors equal the replay of the log, the log is dense, and a
failover at any moment loses only the answer key of the round in flight (`MatchInvariants`, which
also says how the empty player id differs); what is on record is the last accepted answer, and it
decides who survives (`AnswerRecords`); survivors and eliminated players are exactly the roster,
with the scores their answers allow (`Roster`), and the winner is the one contender that beats all
others (`Winners`); rounds are numbered in turn and no phase is gone back to (`Phases`); ballots are
the last votes taken, neither lost nor counted twice, and decide the bans (`TopicBallots`); a card
goes from an offer to the hand to its effect (`CardLives`), within the limits on cards and area
effects (`CardLimits`, `AoeCap`, `AoeRounds`), as answers stay within theirs (`AnswerLimits`); who
leaves can come back (`Presence`); a reconnecting client catches up (`DeltaReplay`). `Rollbacks`
adds the fall back to any earlier save, which the server takes when a save is refused, and
`OldBlobs` the matches saved before deadlines were written.

**Randomness.** `Sha256` states FIPS 180-4 and proves the in-place implementation computes it,
including that the constants are the prime roots the standard names. `Utf8` does the same for
RFC 3629 and RFC 2781. `Mulberry` proves the generator has full period, from which `CardEngine`
derives that the sampler's unbounded retry ends for every seed and pool. `Draws`, `ClassEngine`,
`TieBreak`, `TopicVoting` and `Rounds` are the draws and rankings built on top, and `FairDraws` says
at each of them which element a float draws.

**Stand-alone protocols and data.** `Reconnect` is the load client's generation-token protocol
under every interleaving of its callbacks, and `Retries` says when it tries again. `ObjectGraph` is
deep freeze and clone on heaps with sharing and cycles. `CanonicalJson` is the canonical text, written with `JsonText`, and the payload
comparison; the two agree on JSON values, which is all that is stored. `Elo` is
the rating exchange over the reals. `DailySeed` and `CardVariants` are the append protocols of
the daily challenge, as atomic reads and unique-key writes with anything in between;
`StreakPayouts` says when each streak is paid.

## What is assumed

- Time is the sequence of clock readings a call makes, `nat -> int`, with no order among them.
- Seeds and rolls are functions (`MatchSpec.Source`); `Prng.GameSource` builds the real ones, for
  any reading of strings as UTF-16 units.
- `evaluateRound` runs once per started round. The code does not enforce this; `Roster` shows
  what a second call does.
- A reload in a run of `MatchRuns` loads the state of that moment: every call was saved. Without
  that, everything said of one state still holds (`Rollbacks`), but results that compare two states
  of a run do not: that the log only grows, `Roster.EliminationIsFinal`, `Phases.StagesNeverGoBack`
  and `DeltaReplay.ReconnectCatchesUp`; and what is said of earlier calls is said of those kept.
- Roster ids are distinct. The empty player id is allowed and is singled out where it matters.
- Elo's base-10 power is any positive monotone function with `pow(x) * pow(-x) == 1`.

## Where the code and its promises part

- A second chance granted to the empty player id is held live but not after a failover: the
  replay tests the id for truthiness. It is the only operation after which the mirrors differ from
  the replay (`MatchInvariants.StepKeepsMirrors`); nothing else that is proved depends on it.
- A round started with a negative duration makes the saved match unreadable
  (`MatchInvariants.StartedRoundIsReadable`); nothing else does (`Codec.RejectedIffBackwards`).
- A loaded blob can be refused or changed when saved again: a version 1 blob with a `phaseEndsAt`
  that does not fit its round or result, or an infinite round number or seqNo, which JSON writes as
  null (`Codec.LoadingIsNormalForm` gives the exact condition, `Codec.LoadedCanBeUnreadable` inputs).
- A failover between two answers of a round grades them differently. The service says that a round
  whose key cannot be attached again is graded wrong for everyone; answers are graded when they are
  submitted, so those given before keep their marks (`AnswerRecords.LostKeyKeepsMarks`), while those
  given before the key is back are wrong even if right (`AnswerRecords.KeylessAnswerIsWrong`).
  `AnswerRecords.RoundKeepsTheRight` gives the condition under which a round is graded by its key.
- Where nobody survives, the comment speaks of the last player with the best record; the code takes
  everybody ever eliminated and the least time first, so a player out in the first round, who has
  spent none, wins (`Winners.FirstOutWinsIfNobodyIsLeft`).
- A second `evaluateRound` of the same round counts every answer twice
  (`Roster.SecondEvaluationCountsTwice`).
- The reconnect loop can report success with no live socket (`Reconnect.SuccessCanBeDead`): the
  socket that joined is live exactly when it was neither closed nor replaced in the meantime
  (`Reconnect.SuccessIsLiveIffNotClosedSince`).
- After a refused save and the fall back to an earlier one, a client that saw an undone event can
  keep it for good: its number is given to another event and the client is told that nothing is
  missing (`Rollbacks.UndonePickIsKeptByClient`; `Rollbacks.ClientCatchesUpIff` says exactly when).
- An earned streak does not always bring one variant. It brings none when its unlock fails and the
  failure is not put down (`StreakPayouts.UnrecordedFailureLosesAStreak`) or when two requests cross
  (`StreakPayouts.CrossedReadsLoseAGrant`), and two when the unlock lands but its answer is lost, though
  a replay is said to change nothing (`StreakPayouts.LostAnswerPaysTwice`).
  `StreakPayouts.EveryEarnedStreakPaysIff` gives the exact condition over streaks earned and
  `StreakPayouts.EveryStreakPaysIffUncrossed` over writes made.

## Model

| member | source | states |
|---|---|---|
| MatchInvariants.EveryRunSurvivesFailover | packages/game-core/src/match-state-machine.ts:1289-1432 | after any sequence of calls and reloads the log is dense, the mirrors equal the replay of the log iff the empty id holds no second chance, the saved match is readable iff its open round does not end before it starts, and reading it back loses only the answer key and that chance |
| MatchInvariants.NoReachableMatchIsRefused | packages/game-core/src/match-state.codec.ts:209-226 | no match reached with rounds of non-negative length is refused by the decoder |
| MatchInvariants.StartedRoundIsReadable | packages/game-core/src/match-state-machine.ts:269-330 | a match saved just after a round starts is readable iff the round was not given a negative duration |
| MatchInvariants.FailoverLosesOnlyTheKey | packages/game-core/src/match-state-machine.ts:1412-1432 | for every machine meeting the invariants, reload keeps everything but the answer key and a second chance of the empty id, and is refused iff the round is backwards |
| MatchInvariants.AttachRestores | packages/game-core/src/match-state-machine.ts:816-822 | attaching the key to a reloaded match with an open round gives back the saved machine, up to a second chance of the empty id |
| MatchInvariants.StepKeepsMirrors | packages/game-core/src/match-state-machine.ts:1302-1401 | from mirrors equal to the fold of the log, an operation leads to such mirrors iff it is not a second chance granted to the empty id in an open round |
| MatchInvariants.NamelessGrantDiverges | packages/game-core/src/match-state-machine.ts:1302-1335 | what that exception looks like: the live set holds the empty id and no replay does |
| MatchInvariants.StepGrowsLog | packages/game-core/src/match-state-machine.ts:709-719 | each operation only appends and numbers entries one above the last |
| MatchInvariants.StepKeepsTiming | packages/game-core/src/match-state-machine.ts:208-330 | every operation keeps the deadline and result-time equations the decoder checks |
| MatchInvariants.StepKeepsInv | packages/game-core/src/match-state-machine.ts:208-1196 | one step, reload included, keeps all three invariants and extends the log |
| Rehydrate.ReplayAppend | packages/game-core/src/match-state-machine.ts:1289-1300 | replaying a longer log is replaying the prefix and then the entry |
| Codec.RoundTripIffReady | packages/game-core/src/match-state.codec.ts:165-226 | decode(encode(m)) is m with the answer erased, iff m meets the cross-field timing, answer-key and roster checks |
| Codec.RejectedIffBackwards | packages/game-core/src/match-state.codec.ts:465-493 | with consistent deadlines the only refused match is one whose round ends before it starts |
| Codec.LoadingIsNormalForm | packages/game-core/src/match-state.codec.ts:358-560 | an accepted blob decodes to a state that is saved and reloaded unchanged iff its round number and seqNos are finite and, in version 1 with a phaseEndsAt field, that field fits the round or result |
| Codec.LoadedCanBeUnreadable | packages/game-core/src/match-state.codec.ts:264-317 | both conditions can fail: a version 1 blob with another deadline and a version 2 blob with an infinite round number load, and are refused when saved again |
| Codec.DecodedRoundReady | packages/game-core/src/match-state.codec.ts:400-463 | every decoded round has keyed answers and distinct starters, so it can be saved again |
| Codec.StartingPlayersRoundTrip | packages/game-core/src/match-state.codec.ts:562-580 | a duplicate-free starting list survives the wire |
| Codec.AnswersRoundTrip | packages/game-core/src/match-state.codec.ts:264-317 | the answer table survives the wire, order included, iff every key names its own answer |
| OrderedMap.EntriesRoundTrip | packages/game-core/src/match-state.codec.ts:165-199 | a Map written as entries and read back is the same Map in the same order |
| MatchMachine.MatchStateMachine.constructor | packages/game-core/src/match-state-machine.ts:123-140 | a new machine is the fresh match of the roster |
| MatchMachine.MatchStateMachine.LogEvent | packages/game-core/src/match-state-machine.ts:709-719 | allocates the next seqNo and appends one entry |
| MatchMachine.MatchStateMachine.DoTransition | packages/game-core/src/match-state-machine.ts:208-266 | the checked status change with its deadline and result-time effects, or the error with nothing changed |
| MatchMachine.MatchStateMachine.BeginRound | packages/game-core/src/match-state-machine.ts:269-330 | starts a round as the specification function does, or fails unchanged |
| MatchMachine.MatchStateMachine.Submit | packages/game-core/src/match-state-machine.ts:333-422 | accepts, replays or rejects an answer, consuming a second chance where one is used; AnswerRecords says what is recorded |
| MatchMachine.MatchStateMachine.EvaluateStarters | packages/game-core/src/match-state-machine.ts:434-474 | the in-place loop over starters computes the pointwise evaluation and the elimination split |
| MatchMachine.MatchStateMachine.Evaluate | packages/game-core/src/match-state-machine.ts:425-493 | evaluates the round as specified |
| MatchMachine.MatchStateMachine.BreakTie | packages/game-core/src/match-state-machine.ts:555-572 | logs the tie-break exactly when there was someone to tie |
| MatchMachine.MatchStateMachine.Finish | packages/game-core/src/match-state-machine.ts:585-603 | crowns the determined winner, possibly none, and logs the finish; Winners says who that is |
| MatchMachine.MatchStateMachine.Disconnect | packages/game-core/src/match-state-machine.ts:606-622 | marks a known player offline; only an active one becomes disconnected |
| MatchMachine.MatchStateMachine.Reconnect | packages/game-core/src/match-state-machine.ts:625-643 | marks a known player online again; an eliminated one stays eliminated |
| MatchMachine.MatchStateMachine.BeginTopicVoting | packages/game-core/src/match-state-machine.ts:828-851 | opens the ballot; keeps the candidates written before a refused transition |
| MatchMachine.MatchStateMachine.Vote | packages/game-core/src/match-state-machine.ts:853-899 | records the last vote of an active player for a candidate topic before the deadline, or says why not |
| MatchMachine.MatchStateMachine.CloseTopicVoting | packages/game-core/src/match-state-machine.ts:901-925 | stores the resolved bans and actives and logs them |
| MatchMachine.MatchStateMachine.AssignClasses | packages/game-core/src/match-state-machine.ts:951-968 | logs and stores the class of every player |
| MatchMachine.MatchStateMachine.Offer | packages/game-core/src/match-state-machine.ts:980-1014 | deals three unplayed cards of the player's class or fails unchanged |
| MatchMachine.MatchStateMachine.Pick | packages/game-core/src/match-state-machine.ts:1027-1061 | moves a card from hand to picked, or fails unchanged |
| MatchMachine.MatchStateMachine.RecordResolution | packages/game-core/src/match-state-machine.ts:1140-1190 | the mirror updates of a resolved card, used live and on replay |
| MatchMachine.MatchStateMachine.PlayCardNow | packages/game-core/src/match-state-machine.ts:1078-1196 | logs the resolution, updates the mirrors and grants a second chance where the effect is one |
| MatchMachine.MatchStateMachine.Attach | packages/game-core/src/match-state-machine.ts:816-822 | puts the answer key back into a round |
| MatchMachine.MatchStateMachine.RehydrateEvent | packages/game-core/src/match-state-machine.ts:1302-1401 | one entry of the replay, in place |
| MatchMachine.MatchStateMachine.RehydrateCardState | packages/game-core/src/match-state-machine.ts:1289-1300 | the replay loop rebuilds exactly the fold of the log |
| MatchMachine.Deserialize | packages/game-core/src/match-state-machine.ts:1412-1432 | a machine built from a blob is the decoded match with the replayed mirrors, or the decoder's error |
| Roster.EveryRunAccountsForRoster | packages/game-core/src/match-state-machine.ts:425-493 | with each round evaluated once: survivors plus eliminated are the roster as multisets, survivors have answered every round and eliminated fewer, 100c <= score <= 150c, time <= c times the longest round |
| Roster.EliminationIsFinal | packages/game-core/src/match-state-machine.ts:425-493 | an eliminated player stays eliminated to the end of the run |
| Roster.SecondEvaluationCountsTwice | packages/game-core/src/match-state-machine.ts:425-493 | evaluating a round again credits every survivor again, and survivors plus eliminated remain the roster iff the round eliminated nobody |
| Roster.StepKeepsRoster | packages/game-core/src/match-state-machine.ts:333-643 | every operation keeps the roster accounts, the elimination list as a prefix and the player order |
| Rounds.EliminationPartitions | packages/game-core/src/round-elimination.ts:74-89 | survivors and eliminated of a round are together exactly its starters |
| Rounds.MatchMeaning | packages/game-core/src/round-elimination.ts:19-72 | an answer matches iff both are non-empty and, trimmed and with case folded, it equals the key or one is the letter code of an option reading as the other; symmetric in answer and key |
| Rounds.RoundPointsRange | packages/game-core/src/scoring.ts:16-22 | points lie in 100..150 and never grow with response time |
| AnswerLimits.AnswersAreLimited | packages/game-core/src/match-state-machine.ts:333-402 | over every run, answers accepted from a player in a round are at most one more than the second chances granted in it |
| AnswerLimits.StepKeepsAnswers | packages/game-core/src/match-state-machine.ts:333-402 | each operation keeps the bound together with the held-or-consumed account of second chances |
| CardLimits.CardLimitsHold | apps/api/src/modules/match/match-card-command-authoritative.ts:277-480 | over runs of validated plays and any other calls: each (player, card) resolves at most once, at most two multi-target resolutions a round, machine counter equal to the log's, each resolution after its offer and a pick |
| CardLimits.ValidateCardCommand | apps/api/src/modules/match/card-validator.ts:178-223 | accepted iff the round is open, the card is known, picked, offered and unplayed, the target is legal for the card's class, and area budget is left |
| CardLimits.ValidPlayIsOwed | apps/api/src/modules/match/card-validator.ts:131-223 | a play that passes the validator is one the log still allows |
| CardLimits.OfferMeansOffered | packages/game-core/src/match-state-machine.ts:1212-1226 | the offer looked up for a seqNo is an earlier offer to that player at that seqNo |
| CardLimits.PlayedMeansResolved | packages/game-core/src/match-state-machine.ts:1242-1244 | the played set holds exactly the cards the log shows resolved |
| CardLimits.PickedMeansPicked | packages/game-core/src/match-state-machine.ts:1234-1236 | a card in the picked set was picked earlier in the log |
| AoeCap.CountAoeResolved | apps/api/src/modules/match/aoe-cap.ts:31-48 | the loop counts the multi-target resolutions of the match and round |
| AoeCap.AoeCapTracker.constructor | apps/api/src/modules/match/aoe-cap.ts:68-76 | a tracker starts with the round and count it is given |
| AoeCap.AoeCapTracker.RebuildFromLog | apps/api/src/modules/match/aoe-cap.ts:83-90 | a rebuilt tracker agrees with the log |
| AoeCap.AoeCapTracker.OnCardResolved | apps/api/src/modules/match/aoe-cap.ts:108-114 | told of each appended event, the tracker keeps agreeing with the log |
| AoeCap.AoeCapTracker.OnEndRound | apps/api/src/modules/match/aoe-cap.ts:118-121 | moving to a round the log has no area effect of leaves the tracker in agreement |
| AoeCap.AoeCapTracker.IsExhausted | apps/api/src/modules/match/aoe-cap.ts:124-126 | full iff the log shows as many area effects in the round as are allowed |
| AoeRounds.LaterRoundsAreEmpty | apps/api/src/modules/match/aoe-cap.ts:118-121 | at every reachable state the log has no area effect of any round later than the current one, so a tracker may start it at zero |
| AoeRounds.StepKeepsPast | packages/game-core/src/match-state-machine.ts:269-330 | every operation keeps all logged cards at or before the current round |
| AoeCap.MachineCounterAgrees | packages/game-core/src/match-state-machine.ts:1250-1252 | the replayed per-round counter is the log count, for a log of one match |
| DeltaReplay.DeltaIsTheMissingSuffix | packages/game-core/src/match-state-machine.ts:744-760 | prefix plus delta is the whole log for every cursor up to the head, and a delta is sent exactly for cursors 1..head |
| DeltaReplay.ClientEndsAtHead | apps/api/src/gateways/handlers/match.handler.ts:211-236 | whichever branch answers, the client ends with the whole log, and with the head as next cursor |
| DeltaReplay.ReconnectCatchesUp | apps/api/src/gateways/handlers/match.handler.ts:211-236 | where every call is saved, a client up to date after any part of a run is up to date again after the rest of it, reloads included |
| Rollbacks.ClientCatchesUpIff | apps/api/src/gateways/handlers/match.handler.ts:211-236 | after a fall back to an earlier save, a client is brought up to date iff what it has seen was kept or is longer than the log that replaced it |
| Rollbacks.UndonePickIsKeptByClient | apps/api/src/modules/match/match-card-command-authoritative.ts:229-252 | a pick shown to a client and then undone by a refused save, its number taken by another pick, stays with the client for good |
| Rollbacks.RolledBackIsReachable | apps/api/src/modules/match/match.service.ts:286-325 | whatever calls are undone by falling back to earlier saves, the match is in a state that a run without rollbacks reaches |
| Rollbacks.RollbacksKeepState | apps/api/src/modules/match/match.service.ts:286-325 | with rollbacks anywhere: dense log, mirrors equal to its replay iff the empty id holds no second chance, readable iff not backwards, answers within second chances, ballots for candidates, cards in started rounds |
| Rollbacks.NoSaveIsRefused | apps/api/src/modules/match/match.service.ts:286-325 | with rollbacks anywhere and rounds of non-negative length, every save can be loaded |
| Rollbacks.RollbacksKeepRoster | packages/game-core/src/match-state-machine.ts:425-493 | with rollbacks anywhere, the roster accounts hold of what is kept |
| Rollbacks.RollbacksKeepCardLimits | apps/api/src/modules/match/match-card-command-authoritative.ts:277-490 | with rollbacks anywhere, the card and area-effect limits hold |
| Sha256.Sha256Bytes | packages/game-core/src/prng.ts:169-264 | the array implementation computes the SHA-256 of every byte string, its length field taken modulo 2^64 bits (section 5.1.1 and 6.2.2 of FIPS 180-4) |
| Sha256.PadMessage | packages/game-core/src/prng.ts:169-190 | the padding written in place is the specified one |
| Sha256.ExpandBlock | packages/game-core/src/prng.ts:199-218 | the message schedule of section 6.2.2 |
| Sha256.Compress | packages/game-core/src/prng.ts:220-254 | sixty-four rounds in place are the specified rounds |
| Sha256.PaddingIsMinimal | packages/game-core/src/prng.ts:173-175 | a padded message fills whole blocks with the fewest zero bytes possible |
| Sha256.PaddingIsInvertible | packages/game-core/src/prng.ts:173-190 | the message is recoverable from its padding |
| Sha256.PaddingRecordsLength | packages/game-core/src/prng.ts:179-190 | the last eight bytes read back as the bit length |
| Sha256.RoundConstants0To15 | packages/game-core/src/prng.ts:113-125 | entries 0 to 15 are the first 32 fraction bits of the cube roots of the first primes |
| Sha256.RoundConstants16To31 | packages/game-core/src/prng.ts:113-125 | entries 16 to 31 likewise |
| Sha256.RoundConstants32To47 | packages/game-core/src/prng.ts:113-125 | entries 32 to 47 likewise |
| Sha256.RoundConstants48To63 | packages/game-core/src/prng.ts:113-125 | entries 48 to 63 likewise |
| Sha256.InitialHashConstants | packages/game-core/src/prng.ts:192-195 | the initial words are the first 32 fraction bits of the square roots of the first eight primes |
| Sha256.WordBytesRoundTrip | packages/game-core/src/prng.ts:256-264 | the digest bytes are its words, most significant byte first |
| Utf8.Utf8Encode | packages/game-core/src/prng.ts:127-163 | the loop computes the encoding of every sequence of UTF-16 units |
| Utf8.EncodeMeansCodePoints | packages/game-core/src/prng.ts:127-163 | decoding the output gives the input's code points with lone surrogates replaced by U+FFFD, so strings encode alike iff those agree |
| Utf8.DecodeEncodes | packages/game-core/src/prng.ts:127-163 | decoding the encoding of scalar values gives them back |
| Utf8.EncodeDecodes | packages/game-core/src/prng.ts:127-163 | the decoder accepts nothing but encodings: no overlong forms, no surrogates |
| Utf8.UnitsRoundTrip | packages/game-core/src/prng.ts:131-155 | writing the code points as UTF-16 again gives the string, iff it has no lone surrogate |
| Utf8.EncodeIsInjective | packages/game-core/src/prng.ts:127-163 | injective on strings without lone surrogates |
| Prng.HashStringToSeed | packages/game-core/src/prng.ts:24-31 | the FNV-1a fold over code units on 32-bit words |
| Prng.ComputeSeed | packages/game-core/src/prng.ts:47-58 | the seed is the first four digest bytes of the UTF-8 of the string, least significant first |
| Prng.DistinctStringsHashDistinctMessages | packages/game-core/src/prng.ts:47-73 | distinct well-formed labels are hashed from distinct padded messages |
| Prng.GameSourceCoherent | packages/game-core/src/prng.ts:71-96 | the real seeds and generators fit together as the match specification assumes |
| Mulberry.DistanceReaches | packages/game-core/src/prng.ts:87-96 | from any seed every 32-bit word is the state after some call |
| Mulberry.ExactPeriod | packages/game-core/src/prng.ts:87-96 | two calls see the same state iff they are a multiple of 2^32 apart |
| Mulberry.DistanceDrops | packages/game-core/src/prng.ts:87-96 | each call brings every other state exactly one call nearer |
| Mulberry.MixSamples | packages/game-core/src/prng.ts:87-96 | three states whose outputs fall in the three tiers |
| Mulberry.Generator.constructor | packages/game-core/src/prng.ts:87-96 | a closure over a seed that has made no call |
| Mulberry.Generator.Step | packages/game-core/src/prng.ts:88-90 | adds the odd step modulo 2^32 |
| Mulberry.Generator.Next | packages/game-core/src/prng.ts:87-96 | the n-th call returns the mix of the n-th state |
| CardEngine.TierCuts | packages/game-core/src/card-engine.ts:78-82 | the tier weights cut the 2^32 draws at exactly 0x99999999 and 0xE6666666 |
| CardEngine.EveryTierIsHit | packages/game-core/src/card-engine.ts:78-82 | every tier is reached from every state |
| CardEngine.MissComesNearer | packages/game-core/src/card-engine.ts:156-169 | a draw that misses is strictly nearer to one that hits: the retry ends for every seed and pool |
| CardEngine.OfferDrawsWithoutReplacement | packages/game-core/src/card-engine.ts:118-202 | min(3, size) cards, none more often than the pool holds it |
| CardEngine.OfferIgnoresPoolOrder | packages/game-core/src/card-engine.ts:118-140 | the offer depends on the pool as a multiset, not on its order |
| CardEngine.TraceReproducesOffer | packages/game-core/src/card-engine.ts:50-66 | the float trace alone reproduces the offer |
| CardEngine.SampleOfferLoop | packages/game-core/src/card-engine.ts:118-202 | the loop with its retry computes the specified offer, trace and final generator state |
| CardEngine.DrawOneLoop | packages/game-core/src/card-engine.ts:153-198 | one draw in place: retry until a tier has cards, then remove one |
| CardEngine.PickTierLoop | packages/game-core/src/card-engine.ts:156-169 | the unbounded retry returns the first tier drawn that still has a card |
| CardEngine.CanonicalOrderIsTotal | packages/shared/src/cards.ts:89-103 | compareCardId is a total order |
| Cards.ClassPool | packages/shared/src/cards.ts:517-534 | each class pool is duplicate-free and of its class |
| Draws.OptionDisableMeaning | packages/game-core/src/card-engine.ts:254-291 | min(count, available) distinct wrong positions, never a correct one |
| Draws.ResolveOptionDisable | packages/game-core/src/card-engine.ts:254-291 | the draw loop computes that selection |
| Draws.HandDestroyMeaning | packages/game-core/src/card-engine.ts:296-327 | min(count, hand) cards of the hand, independent of the hand's order |
| Draws.ResolveHandDestroy | packages/game-core/src/card-engine.ts:296-327 | the draw loop computes that selection |
| Draws.AreaTargetsMeaning | apps/api/src/modules/match/match-card-targeting.ts:19-70 | an area card reaches min(count, available) distinct active players other than its player, independent of roster order |
| Draws.ExpandTargets | apps/api/src/modules/match/match-card-targeting.ts:19-70 | never more targets than the card names, and several only for an area card |
| Draws.DayQuestionsAreDistinct | apps/api/prisma/seed-daily.ts:141-158 | the day's questions come from the bank without repetition and the pool stays a permutation |
| Draws.ShuffleFixesPrefix | apps/api/prisma/seed-daily.ts:141-158 | each swap fixes one position for good |
| Draws.PickQuestionsForDay | apps/api/prisma/seed-daily.ts:141-158 | the partial shuffle in a loop computes that selection |
| TopicVoting.BansPartitionCandidates | packages/game-core/src/topic-voting.ts:62-106 | bans and actives partition the candidates, as many banned as asked for or available |
| TopicVoting.BansAreTopVoted | packages/game-core/src/topic-voting.ts:62-106 | no active topic has more votes than a banned one; ties go to the higher roll |
| TopicVoting.TalliesCountVoters | packages/game-core/src/topic-voting.ts:40-56 | for any table of votes, tallies over distinct candidates sum to the number of players voting for one |
| TopicBallots.TalliesSumToVoters | packages/game-core/src/match-state-machine.ts:853-925 | over every run, votes being cast only through voteBanTopic, the tallies sum to the number of players who have voted |
| TopicBallots.StepKeepsBallots | packages/game-core/src/match-state-machine.ts:828-899 | every operation, reload included, keeps every stored ballot naming a current candidate |
| TopicVoting.TallyTopicVotes | packages/game-core/src/topic-voting.ts:40-56 | the counting loops compute, for each candidate, the number of its voters |
| TopicVoting.ResolveBannedTopics | packages/game-core/src/topic-voting.ts:62-106 | the score-filling loop and sorts compute the specified split |
| TopicVoting.CandidatesComeFromPool | packages/game-core/src/topic-voting.ts:18-35 | as many candidates as asked for or available, none more often than in the pool |
| TieBreak.WinnerIsLexicographicMinimum | packages/game-core/src/tie-break.ts:34-82 | against every candidate the first difference in time, correct answers, offset, id favours the winner |
| TieBreak.ComparatorIsTotalOrder | packages/game-core/src/tie-break.ts:58-79 | the comparator is total, transitive and ties only equal ids |
| TieBreak.ResolveTieBreak | packages/game-core/src/tie-break.ts:34-82 | the offset loop and sort return that winner, none iff no candidate is in the match |
| ClassEngine.FairSplit | packages/game-core/src/class-engine.ts:54-82 | the classes split the players evenly; an odd one attacks |
| ClassEngine.EveryPlayerAssigned | packages/game-core/src/class-engine.ts:54-82 | every player gets one class per listing |
| ClassEngine.AssignmentIgnoresInputOrder | packages/game-core/src/class-engine.ts:54-82 | the assignment depends on the players and the seed, not on their order |
| ClassEngine.AssignClasses | packages/game-core/src/class-engine.ts:54-82 | the drawing loop computes the specified assignment |
| Reconnect.LoopsAreSerialized | load-test/lib/reconnect.js:90-199 | in every interleaving: running iff a token is held; a running loop waits for exactly one attempt or timer; every ended loop is recorded once or aborted; at most max(1, maxAttempts) attempts |
| Reconnect.NothingHappensAfterDispose | load-test/lib/reconnect.js:195-199 | after dispose no attempt starts and no sample is recorded |
| Reconnect.LoopsNeedOutages | load-test/lib/reconnect.js:110-132 | loops begin only for unexpected closes of the live generation |
| Reconnect.SuccessIsLiveIffNotClosedSince | load-test/lib/reconnect.js:110-173 | over every run: the current attempt joining ends its loop with success reported, and its socket is the live one iff, since the attempt started, that socket has not closed and no other was registered |
| Reconnect.LiveIffNotDisplaced | load-test/lib/reconnect.js:90-165 | while an attempt is current its socket is live iff no step since its start closed it or registered another |
| Reconnect.EveryAttemptStarts | load-test/lib/reconnect.js:153-158 | every attempt in flight was started by some step of the run |
| Reconnect.SuccessCanBeDead | load-test/lib/reconnect.js:141-173 | the other case is reachable, with no live socket and nothing left to reconnect |
| Reconnect.DelayGrowsToCap | load-test/lib/reconnect.js:182-187 | waits never shrink and never exceed the cap |
| Reconnect.StepKeepsInv | load-test/lib/reconnect.js:90-199 | every callback keeps the protocol invariant for every loop |
| Reconnect.Controller.constructor | load-test/lib/reconnect.js:68-88 | the controller starts idle with no generation |
| Reconnect.Controller.DoRegisterPrimary | load-test/lib/reconnect.js:90-94 | mints a generation and makes it live |
| Reconnect.Controller.DoClearPending | load-test/lib/reconnect.js:96-101 | disarms the pending timer |
| Reconnect.Controller.DoAbortLoop | load-test/lib/reconnect.js:103-107 | drops the token and the timer |
| Reconnect.Controller.DoHandleClose | load-test/lib/reconnect.js:110-132 | the close callback, stale and intentional cases included |
| Reconnect.Controller.DoStartLoop | load-test/lib/reconnect.js:134-190 | mints a token and makes the first attempt |
| Reconnect.Controller.DoRunAttempt | load-test/lib/reconnect.js:153-168 | an attempt up to its await |
| Reconnect.Controller.DoAttemptSettled | load-test/lib/reconnect.js:169-188 | an attempt after its await |
| Reconnect.Controller.DoFinish | load-test/lib/reconnect.js:141-151 | records the result of the current loop only |
| Reconnect.Controller.DoTimerFired | load-test/lib/reconnect.js:183-187 | the backoff timer's callback |
| Reconnect.Controller.DoDispose | load-test/lib/reconnect.js:195-199 | teardown |
| ObjectGraph.Objects.DeepFreeze | packages/game-core/src/match-state-machine.ts:1513-1534 | on any finite graph, shared or cyclic, exactly the reachable objects end frozen and nothing else changes |
| ObjectGraph.Objects.FreezeValue | packages/shared/src/cards.sampling-vector-helpers.ts:6-15 | the recursive walk with a shared visited set freezes exactly what it newly visits and ends |
| ObjectGraph.CloneSucceedsIffAcyclic | packages/shared/src/events.ts:538-612 | a clone succeeds iff no cycle and nothing unserializable is reachable; sharing is fine |
| ObjectGraph.CloneUnfolds | packages/shared/src/events.ts:558-612 | the cloned tree is the unfolding of the graph, key for key |
| ObjectGraph.Objects.CloneInto | packages/shared/src/events.ts:558-612 | the result is that tree laid out in fresh frozen objects, the original heap unchanged; or the same error |
| CanonicalJson.CanonicalForm | packages/shared/src/cards.sampling-vector-helpers.ts:28-100 | two serializable values, over all UTF-16 strings, have the same text iff they are equal up to key order and undefined-valued keys |
| CanonicalJson.SamePayloadIffSameText | apps/api/prisma/seed-daily.ts:112-131 | on JSON values isSamePayload decides exactly equality of canonical texts |
| CanonicalJson.SamePayloadIsSameValue | apps/api/prisma/seed-daily.ts:112-135 | on JSON values isSamePayload decides equality up to key order |
| CanonicalJson.ComparedRightlyIffJson | apps/api/prisma/seed-daily.ts:112-131 | a serializable value is compared rightly with every stored JSON value iff it is JSON itself, with no undefined-valued key at any depth |
| CanonicalJson.UndefinedKeysSeparateThem | apps/api/prisma/seed-daily.ts:112-131 | witnesses in both directions for values that are not JSON |
| CanonicalJson.CanonicalSerialize | packages/shared/src/cards.sampling-vector-helpers.ts:28-100 | the recursive serializer returns the canonical text, or throws iff the value holds something it refuses |
| CanonicalJson.SerializeItems | packages/shared/src/cards.sampling-vector-helpers.ts:53-72 | the array loop |
| CanonicalJson.SerializeFields | packages/shared/src/cards.sampling-vector-helpers.ts:83-99 | the loop over sorted defined keys |
| CanonicalJson.KeysFixTheirOrder | packages/shared/src/cards.sampling-vector-helpers.ts:83-85 | objects with the same defined keys list them in the same order |
| JsonText.QuoteReads | packages/shared/src/cards.sampling-vector-helpers.ts:47-49 | a quoted string is read back in one way whatever follows it: escapes, surrogate pairs and lone surrogates never confuse two strings |
| JsonText.IntReads | packages/shared/src/cards.sampling-vector-helpers.ts:47-49 | a printed integer is read back in one way up to the next separator |
| JsonText.JoinReads | packages/shared/src/cards.sampling-vector-helpers.ts:72-98 | a bracketed list of texts is read back part by part |
| Elo.RawDeltasSumToZero | packages/game-core/src/elo-engine.ts:68-98 | unrounded changes sum to zero for any factor, ratings and placements |
| Elo.RoundedDeltasNearlyCancel | packages/game-core/src/elo-engine.ts:98-99 | rounded changes sum to within n/2 |
| Elo.DeltaWithinFactor | packages/game-core/src/elo-engine.ts:68-99 | no rounded change exceeds the factor |
| Elo.BetterPlacedEarnsNoLess | packages/game-core/src/elo-engine.ts:68-99 | a player placed no worse and rated no higher earns no less |
| Elo.ClampOnlyAdds | packages/game-core/src/elo-engine.ts:99-101 | clamping at zero can only raise the total, and leaves it alone iff nobody is clamped |
| Elo.NearlyZeroSum | packages/game-core/src/elo-engine.ts:24-39 | ratings in play shrink by at most n/2, and grow by no more than that if no one is clamped |
| Elo.ExpectedSumsToOne | packages/game-core/src/elo-engine.ts:80-83 | opposed expectations sum to one and lie strictly between 0 and 1 |
| Elo.CalculateMultiplayerElo | packages/game-core/src/elo-engine.ts:40-114 | the nested loops return each player's specified result in order |
| Elo.SumAgainst | packages/game-core/src/elo-engine.ts:73-96 | the inner loop sums expectations and outcomes over the others |
| Elo.PlacementsFollowRanking | packages/game-core/src/elo-engine.ts:123-170 | everyone is placed once, places run 1, 2, 3, …, and no one stands before a player with the winner's mark, more rounds, a higher score or a faster time |
| Elo.WinnerIsPlacedFirst | packages/game-core/src/elo-engine.ts:133-147 | a winner id that names a player puts that name first whatever the scores |
| DailySeed.EveryScheduleAppends | apps/api/prisma/seed-daily.ts:182-230 | any seeders, interleaved, crashing and losing answers anywhere: published rows never change, a date's versions stay 1..n, n grows by one per insert that took effect, no version repeats the one it replaces |
| DailySeed.EveryReportIsTrue | apps/api/prisma/seed-daily.ts:182-230 | a seeder that reports publishing owns a row with its questions that no other published; one that reports unchanged found an equal payload |
| DailySeed.GivingUpTakesFivePublications | apps/api/prisma/seed-daily.ts:187-193 | giving up on a date means five others published it meanwhile |
| DailySeed.StepKeepsInv | apps/api/prisma/seed-daily.ts:182-230 | every read, write, crash or lost answer keeps the invariant |
| CardVariants.EveryScheduleClimbsLadder | apps/api/src/modules/daily/daily.service.ts:900-1091 | a user's rows are a prefix of (CB-1, NEON), (CB-2, GOLD) that never shrinks, no larger than the earned streaks allow, one paid and then put down as unpaid counting twice, and no pending row is consumed twice |
| StreakPayouts.CrossedReadsLoseAGrant | apps/api/src/modules/daily/daily.service.ts:915-958 | a drained seven-day streak crossing the fourteenth day's unlock: two earned streaks bring one grant |
| StreakPayouts.EveryStreakPaysIffUncrossed | apps/api/src/modules/daily/daily.service.ts:900-1091 | over every run: without crossing requests of the user each write for an earned streak brings a variant, up to the two there are; and while the ladder is incomplete, only then |
| StreakPayouts.EveryEarnedStreakPaysIff | apps/api/src/modules/daily/daily.service.ts:367-449 | with nothing left open: if no streak was dropped, none paid twice and no requests crossed, every earned streak brought its variant, up to the two there are; while the ladder is incomplete, exactly if none was dropped and none crossed |
| StreakPayouts.StreaksAreConserved | apps/api/src/modules/daily/daily.service.ts:367-449 | every earned streak is spent, dropped or still open exactly once, and once more if it was paid and then put down as unpaid |
| StreakPayouts.PaidTwiceCompletes | apps/api/src/modules/daily/daily.service.ts:1020-1075 | once nothing is open, a streak that was paid twice has brought the whole ladder |
| StreakPayouts.UnrecordedFailureLosesAStreak | apps/api/src/modules/daily/daily.service.ts:403-433 | an unlock that fails and is not put down brings nothing and leaves nothing to drain |
| StreakPayouts.LostAnswerPaysTwice | apps/api/src/modules/daily/daily.service.ts:889-893 | an unlock whose answer is lost is granted again by the drain of the same request, as the next variant: one streak, both variants |
| StreakPayouts.WriteGrantsIffUncrossed | apps/api/src/modules/daily/daily.service.ts:915-958 | a write for an earned streak brings a grant iff a rung was left at its read and no other request brought one since |
| StreakPayouts.WriteGrantsIffCurrent | apps/api/src/modules/daily/daily.service.ts:945-958 | a write brings a grant iff it names the next rung |
| CardVariants.WantedIsNextRung | packages/shared/src/cards.ts:630-658 | after reading a prefix of the ladder a request wants the next rung, if any |
| CardVariants.NextCardVariant | packages/shared/src/cards.ts:630-638 | the first unowned variant above DEFAULT |
| CardVariants.StepKeepsInv | apps/api/src/modules/daily/daily.service.ts:996-1091 | every read, write, lock, commit, rollback, failure or lost answer keeps the ladder, the locks exclusive and each pending row at one commit |
| FairDraws.IndexMeaning | packages/game-core/src/card-engine.ts:170-174 | of n elements the float u draws the i-th with i/n <= u < (i+1)/n |
| FairDraws.IndexGrows | packages/game-core/src/card-engine.ts:170-174 | a larger float never draws an earlier position |
| FairDraws.EveryIndexIsDrawn | packages/game-core/src/card-engine.ts:170-174 | up to 2^32 elements, every position is drawn by some word |
| FairDraws.CardStepMeaning | packages/game-core/src/card-engine.ts:127-201 | over the trace of any offer: a recorded card float lies in the recorded index's part of the cards left of the tier drawn just before, and the card is the one at that index in canonical order, the pool less the cards drawn before |
| FairDraws.CatalogueIsInOrder | packages/game-core/src/card-engine.ts:109-113 | the catalogue is in canonical order, by number and attack before defence |
| FairDraws.OptionDrawMeaning | packages/game-core/src/card-engine.ts:267-285 | the n-th disabled option is the one its float hits among the wrong ones still enabled, ascending |
| FairDraws.HandDrawMeaning | packages/game-core/src/card-engine.ts:301-321 | the n-th destroyed card is the one its float hits among those still held, in canonical order |
| FairDraws.TargetMeaning | apps/api/src/modules/match/match-card-targeting.ts:19-70 | the n-th player of an area card is the one its float hits among the eligible not reached yet, by id; a single card reaches its target or its player, if active |
| FairDraws.QuestionMeaning | apps/api/prisma/seed-daily.ts:141-150 | the n-th question is the one its float hits among positions n.. of the bank as shuffled so far, and the one at n takes its place |
| FairDraws.ClassMeaning | packages/game-core/src/class-engine.ts:54-82 | players in id order draw a roll each, rank by roll with ties to the smaller id, and ranks attack and defend in turn |
| FairDraws.CandidatesByRoll | packages/game-core/src/topic-voting.ts:18-35 | the candidates are the topics with the lowest rolls, lowest first |
| FairDraws.ScoreMeaning | packages/game-core/src/topic-voting.ts:80-88 | in a tie each topic, in order of name, has its own roll |
| AnswerRecords.AnswersAreOnRecord | packages/game-core/src/match-state-machine.ts:333-402 | over every run: an answer is on record iff one was accepted since the round started; it is the last accepted text, time and id, and correct iff it agreed with the key held at that moment |
| AnswerRecords.SubmissionIsLoggedIff | packages/game-core/src/match-state-machine.ts:333-372 | a submission is logged iff the round is open, it is in time, its player active and nothing or a second chance stands against it; otherwise nothing changes, and a retry gets the answer on record |
| AnswerRecords.SubmitIsIdempotent | packages/game-core/src/match-state-machine.ts:340-352 | the same submission id again changes nothing and returns the same answer |
| AnswerRecords.SecondChanceAllowsRetry | packages/game-core/src/match-state-machine.ts:345-376 | a second chance played in an open round lets its player, who could not, answer once more and no more |
| AnswerRecords.EvaluationFollowsAnswers | packages/game-core/src/match-state-machine.ts:425-493 | over every run: evaluating keeps exactly the starters whose last accepted answer agreed with its key, credits their time and points, and eliminates the others |
| AnswerRecords.RoundKeepsTheRight | packages/game-core/src/match-state-machine.ts:425-493 | where every failover gives the key back before the next answer, a round keeps exactly the starters whose last accepted answer agrees with the key it was started with |
| AnswerRecords.KeylessAnswerIsWrong | packages/game-core/src/match-state-machine.ts:816-822 | an answer accepted while the key is missing is wrong for good, whatever it is |
| AnswerRecords.LostKeyKeepsMarks | apps/api/src/modules/match/match.service.ts:343-349 | losing the key changes nobody's fate among those who answered before |
| Winners.FinishCrowns | packages/game-core/src/match-state-machine.ts:521-603 | one survivor wins; among several, or among everybody where none survived, the one that beats every other in time, answers, roll and id wins; nobody wins iff there are no players; the winner is stored, logged and alone gets the status |
| Winners.RunIsWon | packages/game-core/src/match-state-machine.ts:521-603 | the same over every run that evaluates each started round once |
| Winners.FinishRecords | packages/game-core/src/match-state-machine.ts:585-603 | finishing changes the winner's status, the winner id, the end time and the log, and nothing else |
| Winners.FirstOutWinsIfNobodyIsLeft | packages/game-core/src/match-state-machine.ts:528-538 | where nobody is left, a player out with no right answer wins against all who spent any time |
| Phases.TransitionMeaning | packages/game-core/src/match-state-machine.ts:208-222 | the table: play is entered from the countdown and circles through evaluation and result, anything past the lobby can finish, nothing goes back |
| Phases.RoundsRepeat | packages/game-core/src/match-state-machine.ts:208-266 | three transitions lead from a round over its result to the next |
| Phases.StepTakesTransition | packages/game-core/src/match-state-machine.ts:208-266 | every operation leaves the phase alone or takes a transition of the table, and a transition is taken iff the table has it |
| Phases.StagesNeverGoBack | packages/game-core/src/match-state-machine.ts:208-266 | over every run no stage is gone back to and a finished match stays finished |
| Phases.RoundsAreNumberedInTurn | packages/game-core/src/match-state-machine.ts:269-330 | over every run the logged rounds are numbered 1, 2, 3, … and the current number and the total are how many started |
| Presence.LeavingMeans | packages/game-core/src/match-state-machine.ts:606-622 | an active player leaves play, any player goes offline; leaving twice is leaving once |
| Presence.ComingBackRestores | packages/game-core/src/match-state-machine.ts:625-643 | who leaves and comes back is as before, online; out stays out |
| TopicBallots.VoteTakesEffect | packages/game-core/src/match-state-machine.ts:853-899 | a vote is taken iff voting is open, the player active and the topic a candidate; it becomes the player's ballot and touches no other |
| TopicBallots.BallotsAreLastVotes | packages/game-core/src/match-state-machine.ts:853-899 | over every run a player's ballot is the last vote taken since the ballot was opened |
| TopicBallots.StoredBansAreTopVoted | packages/game-core/src/match-state-machine.ts:901-925 | of what is stored on closing: no active topic has more of the stored ballots than a banned one, bans and actives are the candidates, and the logged counts are the ballots |
| CardLives.AssignedClassIsHeld | packages/game-core/src/match-state-machine.ts:951-968 | every player listed once holds the class drawn for it, nobody else's changes |
| CardLives.OfferMeaning | packages/game-core/src/match-state-machine.ts:980-1014 | dealt iff the player has a class and three cards of it are neither picked nor played: three different such cards, the new hand |
| CardLives.OfferedIsUnplayed | packages/game-core/src/match-state-machine.ts:980-1014 | no offered card was played before, by the log |
| CardLives.PickMeaning | packages/game-core/src/match-state-machine.ts:1027-1061 | picked iff in the hand: it leaves the hand, the others stay, and joins the picked cards |
| CardLives.OfferIsFound | packages/game-core/src/match-state-machine.ts:1212-1226 | in a dense log the offer with a number is found exactly where it was logged |
| CardLives.PickedCardCanBePlayed | apps/api/src/modules/match/match-card-command-authoritative.ts:277-480 | a card offered and picked in an open round is played iff the target is legal, area budget is left and somebody can be reached |
| CardLives.PlayMeaning | packages/game-core/src/match-state-machine.ts:1078-1196 | what is logged is what was played; the card moves from picked to played, and a temporary effect runs for its duration from the play |
| CardLives.EffectsAreLogged | packages/game-core/src/match-state-machine.ts:1302-1401 | the effects kept beside the log are the temporary ones it shows, in order |
| OldBlobs.OldBlobRestoresDeadline | packages/game-core/src/match-state.codec.ts:516-560 | a version 1 match loads with the deadline its phase implies, so whole iff that was its deadline |
| OldBlobs.MissingRoundTime | packages/game-core/src/match-state.codec.ts:400-463 | a version 1 round without one of its times gets it fifteen seconds from the other |
| OldBlobs.LegacyIdsAgree | packages/game-core/src/match-state.codec.ts:400-463 | an answer stored without an id loads with the id that a submission without one gets |
| Rounds.TrimMeaning | packages/game-core/src/round-elimination.ts:24-26 | trimming removes blanks at both ends, all of them and nothing else |
| Rounds.LowerMeaning | packages/game-core/src/round-elimination.ts:24-30 | folding identifies exactly the strings that differ in the case of ASCII letters |
| Rounds.LetterMeaning | packages/game-core/src/round-elimination.ts:33-50 | the letter codes are a to d in option order, so the letter of the right option is right |
| Rounds.RoundPointsMeaning | packages/game-core/src/scoring.ts:16-22 | a hundred points, and one for each 200 ms saved of ten seconds |
| Prng.FnvTestValues | packages/game-core/src/prng.ts:24-36 | the published test values of FNV-1a |
| Elo.OutcomeCounts | packages/game-core/src/elo-engine.ts:86-95 | an outcome is the number of players placed worse plus half the number placed the same |
| Elo.BetterPlacedEarnsMore | packages/game-core/src/elo-engine.ts:73-98 | placed strictly better and rated no higher, a player's change is strictly larger before rounding |
| Elo.EqualRatingsDelta | packages/game-core/src/elo-engine.ts:73-98 | among equal ratings the change is the factor's share times how far the outcome exceeds half the opponents |
| Elo.WinnerOfTwoGains | packages/game-core/src/elo-engine.ts:40-114 | the winner of two equals gains half the factor, rounded |
| Elo.ExpectedOdds | packages/game-core/src/elo-engine.ts:80-83 | the odds of two players are the power of their rating difference over 400 |
| Elo.PlacementsReadFields | packages/game-core/src/elo-engine.ts:133-170 | the same of the fields themselves: winner mark, rounds survived or round of elimination, score, time |
| Retries.FailedAttemptRetriesIff | load-test/lib/reconnect.js:153-188 | over every run: when the current attempt fails, the loop is recorded as failed iff its attempts or its time since the close that began it are used up, and otherwise goes on with one timer for min(max, base * 2^(attempts-1)) |
| Retries.TimerStartsOneAttempt | load-test/lib/reconnect.js:183-187 | an armed timer that fires starts exactly one attempt, live under the next generation |
| Retries.LoopBeginsIff | load-test/lib/reconnect.js:110-139 | a loop begins iff the live socket closes unexpectedly while none runs, with one attempt |
| Retries.CloseEndsLoopIff | load-test/lib/reconnect.js:110-132 | any other close leaves the loop alone, except an intentional one of the live socket or of any while none is live |
| Retries.LateAttemptIsIgnored | load-test/lib/reconnect.js:165-168 | an attempt that settles after its loop ended changes nothing |
| Retries.WaitsDouble | load-test/lib/reconnect.js:182-187 | the first wait is the base, each further one twice the last, up to the cap |
| DailySeed.UninterruptedSeederPublishes | apps/api/prisma/seed-daily.ts:182-230 | a seeder left alone publishes the first or next version, or leaves an equal set, or without the overwrite flag any set, and reports which |
| DailySeed.ConflictRetries | apps/api/prisma/seed-daily.ts:218-228 | a seeder that finds its version taken writes nothing and reads again |
| FairDraws.RetriesAreFlagged | packages/game-core/src/card-engine.ts:150-167 | a tier step is marked as a retry iff its tier was empty or it follows such a step |
| Phases.TransitionSetsDeadline | packages/game-core/src/match-state-machine.ts:208-266 | the deadline and times each transition sets, and the round it drops |
| TopicBallots.VotingStaysOpen | packages/game-core/src/match-state-machine.ts:828-870 | a ballot that opens takes votes of active players for its candidates for exactly its duration |
| AnswerRecords.StartedRoundAccepts | packages/game-core/src/match-state-machine.ts:269-372 | a started round takes one answer of every active player until its time is up; its starters are the survivors |
| Elo.ResultMeaning | packages/game-core/src/elo-engine.ts:98-111 | a result names its player, never goes below zero, and moves the rating by the rounded change unless held at zero |
| Sha256.SeedIsLittleEndian | packages/game-core/src/prng.ts:47-58 | the seed's bytes are the first four of the digest, least significant first |
| OldBlobs.OldLogIsNumbered | packages/game-core/src/match-state.codec.ts:495-499 | entries stored without a number load with their position, others keep theirs |

## Left out

- The web client, NestJS modules, controllers, pipes, cookies, tokens, Redis and Socket.IO adapters, and k6 scenarios: plumbing; a client is a prefix of the log.
- Database and Redis calls are atomic steps that take effect or not, with or without an answer; isolation inside one statement is not modelled.
- CardLimits.CardLimitsHold: the effect a play resolves to is a parameter; the pass-through templates of resolveCardEffect, duplicate-command recovery and the error code sent to each kind of inactive player are not modelled.
- CanonicalJson.CanonicalForm: numbers are safe integers, so the decimal text of fractions is not modelled; the object identity behind the cycle test is the subject of ObjectGraph; a key named __proto__, which a plain lookup resolves to the prototype, is not modelled.
- Elo.CalculateMultiplayerElo: non-finite ratings, which the code refuses, and floating-point rounding are not modelled.
- Rounds.MatchMeaning: case is folded for ASCII letters only.
- MatchMachine.MatchStateMachine.Evaluate: logging a tie-break freezes the list it names, so evaluateRound after a tie-break among the eliminated throws where it appends to that list; the model appends.
- MatchMachine.MatchStateMachine.Vote: ballots are a plain object, so a vote under the player id __proto__ is logged and not stored; the model stores it.
- TieBreak.WinnerIsLexicographicMinimum: strings are basic-plane characters, so character order is code-unit order.
- CardEngine.TierCuts: draws are the exact integers k of k / 2^32; that the double sums 0.6 and 0.9 fall between the same two integers is not part of the proof.
- Codec.RoundTripIffReady: JSON text syntax and fields the decoder copies without looking at them are not modelled, numbers in those fields being finite; event payloads are typed values.
- MatchMachine.Deserialize: a machine holding an infinite round number or seqNo; its integer fields hold 0 there.
- Sha256.Sha256Bytes: the input is any byte string; JavaScript array limits are not modelled.
- getState, getCurrentRound, getSnapshot, getEventLog, getPlayerScores and forEachEvent: copies of fields; shouldEndMatch and getActiveEffects: one-line queries.
- eliminationsForRound with an answer whose isCorrect flag is not a boolean: answers are typed.
- The wiring of AoeCapTracker into the services, owner leases, the command stream and the game loop.
- The streak, score and leaderboard computations of the daily service, its session tokens, and the environment switches of the seed script beyond the overwrite flag.
- Statistical quality of the generator, collision resistance of the hash, and localeCompare beyond being a total preorder.
