/** The client's reconnect controller (load-test/lib/reconnect.js) as a protocol: its callbacks interleave
    in any order.  A loop is identified by its token; an awaited attempt and an armed timer carry the
    token of the loop they belong to. */
module Reconnect {
  import opened Wrappers
  import opened Basics

  datatype Config = Config(baseMs: nat, maxMs: nat, maxAttempts: int, budgetMs: int)

  datatype Attempt = Attempt(token: nat, generation: nat, number: nat, startedAt: int)

  datatype Timer = Timer(token: nat, afterAttempt: nat, startedAt: int, delayMs: nat)

  datatype Event =
    | AttemptStarted(token: nat)
    | Recorded(token: nat, success: bool)
    | Aborted(token: nat)

  /** The controller's variables, what it is waiting for, and what it has done. */
  datatype State = State(
    gen: nat, liveGen: nat, running: bool, loopToken: Option<nat>, pendingTimer: Option<Timer>, disposed: bool,
    nextToken: nat, inFlight: set<Attempt>, armed: seq<Timer>, history: seq<Event>)

  const Initial := State(0, 0, false, None, None, false, 0, {}, [], [])

  // ---- the callbacks ----

  function RegisterPrimary(s: State): State {
    s.(gen := s.gen + 1, liveGen := s.gen + 1)
  }

  function RemoveTimer(armed: seq<Timer>, t: Timer): seq<Timer> {
    if armed == [] then [] else if armed[0] == t then armed[1..] else [armed[0]] + RemoveTimer(armed[1..], t)
  }

  function ClearPending(s: State): State {
    if s.pendingTimer.None? then s
    else s.(armed := RemoveTimer(s.armed, s.pendingTimer.value), pendingTimer := None)
  }

  function AbortLoop(s: State): State {
    var noted := if s.loopToken.Some? then s.(history := s.history + [Aborted(s.loopToken.value)]) else s;
    ClearPending(noted.(loopToken := None, running := false))
  }

  /** Up to the await: the attempt counts, mints a generation and becomes the live one. */
  function RunAttempt(s: State, token: nat, number: nat, startedAt: int): State {
    if s.loopToken != Some(token) then s
    else
      var g := s.gen + 1;
      s.(gen := g, liveGen := g, inFlight := s.inFlight + {Attempt(token, g, number + 1, startedAt)},
         history := s.history + [AttemptStarted(token)])
  }

  function StartLoop(s: State, now: int): State {
    var token := s.nextToken;
    RunAttempt(s.(running := true, loopToken := Some(token), nextToken := token + 1), token, 0, now)
  }

  function HandleClose(s: State, sourceGen: nat, intentional: bool, now: int): State {
    if s.disposed then s
    else if intentional then
      if s.liveGen != 0 && sourceGen != s.liveGen then s else AbortLoop(s.(liveGen := 0))
    else if sourceGen != s.liveGen then s
    else if s.running then s.(liveGen := 0)
    else StartLoop(s.(liveGen := 0), now)
  }

  function Finish(s: State, token: nat, success: bool): State {
    if s.loopToken != Some(token) then s
    else
      var cleared := ClearPending(s.(running := false, loopToken := None));
      cleared.(history := cleared.history + [Recorded(token, success)])
  }

  function Pow2(n: nat): nat {
    if n == 0 then 1 else 2 * Pow2(n - 1)
  }

  function Delay(cfg: Config, number: nat): (d: nat)
    ensures d <= cfg.maxMs
  {
    Min(cfg.maxMs, cfg.baseMs * Pow2(if number == 0 then 0 else number - 1))
  }

  /** The awaited attempt settles; a rejection counts as not joined. */
  function AttemptSettled(s: State, a: Attempt, joined: bool, now: int, cfg: Config): State {
    var t := s.(inFlight := s.inFlight - {a});
    if t.loopToken != Some(a.token) then t
    else if joined then Finish(t, a.token, true)
    else
      var down := t.(liveGen := 0);
      if a.number >= cfg.maxAttempts || now - a.startedAt >= cfg.budgetMs then Finish(down, a.token, false)
      else
        var timer := Timer(a.token, a.number, a.startedAt, Delay(cfg, a.number));
        down.(armed := down.armed + [timer], pendingTimer := Some(timer))
  }

  function TimerFired(s: State, t: Timer): State {
    var fired := s.(armed := RemoveTimer(s.armed, t), pendingTimer := None);
    RunAttempt(fired, t.token, t.afterAttempt, t.startedAt)
  }

  function Dispose(s: State): State {
    AbortLoop(s.(disposed := true, liveGen := 0))
  }

  // ---- interleavings ----

  datatype Step =
    | Register
    | Close(sourceGen: nat, intentional: bool, closedAt: int)
    | Settle(attempt: Attempt, joined: bool, settledAt: int)
    | Fire(timer: Timer)
    | Teardown

  /** Only what is awaited can settle and only what is armed can fire. */
  predicate Enabled(s: State, step: Step) {
    match step
    case Settle(a, _, _) => a in s.inFlight
    case Fire(t) => t in s.armed
    case _ => true
  }

  function Next(s: State, step: Step, cfg: Config): State {
    match step
    case Register => RegisterPrimary(s)
    case Close(g, intentional, now) => HandleClose(s, g, intentional, now)
    case Settle(a, joined, now) => AttemptSettled(s, a, joined, now, cfg)
    case Fire(t) => TimerFired(s, t)
    case Teardown => Dispose(s)
  }

  function Do(s: State, step: Step, cfg: Config): State {
    if Enabled(s, step) then Next(s, step, cfg) else s
  }

  function Run(steps: seq<Step>, cfg: Config): State {
    if steps == [] then Initial else Do(Run(steps[..|steps| - 1], cfg), steps[|steps| - 1], cfg)
  }

  // ---- what history says of a loop ----

  function Starts(h: seq<Event>, token: nat): nat {
    if h == [] then 0 else Starts(h[..|h| - 1], token) + (if h[|h| - 1] == AttemptStarted(token) then 1 else 0)
  }

  function Results(h: seq<Event>, token: nat): nat {
    if h == [] then 0
    else Results(h[..|h| - 1], token) + (if h[|h| - 1].Recorded? && h[|h| - 1].token == token then 1 else 0)
  }

  function Aborts(h: seq<Event>, token: nat): nat {
    if h == [] then 0 else Aborts(h[..|h| - 1], token) + (if h[|h| - 1] == Aborted(token) then 1 else 0)
  }

  lemma HistoryAppend(h: seq<Event>, e: Event, token: nat)
    ensures Starts(h + [e], token) == Starts(h, token) + (if e == AttemptStarted(token) then 1 else 0)
    ensures Results(h + [e], token) == Results(h, token) + (if e.Recorded? && e.token == token then 1 else 0)
    ensures Aborts(h + [e], token) == Aborts(h, token) + (if e == Aborted(token) then 1 else 0)
  {
    assert (h + [e])[..|h|] == h;
  }

  // ---- invariants ----

  function Budget(cfg: Config): nat {
    if cfg.maxAttempts < 1 then 1 else cfg.maxAttempts
  }

  /** The attempts of the current loop. */
  predicate Current(s: State, a: Attempt) {
    a in s.inFlight && s.loopToken == Some(a.token)
  }

  ghost predicate Idle(s: State) {
    s.pendingTimer.None? && forall a :: !Current(s, a)
  }

  /** A loop in flight waits for at most one thing that can still move it: one attempt or one timer. */
  ghost predicate LoopCore(s: State) {
    && (s.running <==> s.loopToken.Some?)
    && (s.disposed ==> s.loopToken.None?)
    && (s.loopToken.Some? ==> s.loopToken.value < s.nextToken)
    && s.armed == (if s.pendingTimer.Some? then [s.pendingTimer.value] else [])
    && (s.pendingTimer.Some? ==> s.loopToken == Some(s.pendingTimer.value.token))
    && (forall a :: a in s.inFlight ==> a.token < s.nextToken && 0 < a.generation <= s.gen)
    && (forall a, b :: Current(s, a) && Current(s, b) ==> a == b)
    && (s.pendingTimer.Some? ==> forall a :: !Current(s, a))
  }

  /** And it never waits for nothing. */
  ghost predicate LoopInv(s: State) {
    LoopCore(s) && (s.running ==> !Idle(s))
  }

  /** A loop is current, recorded once, or aborted: exactly one of the three. */
  predicate LoopFate(s: State, token: nat) {
    Results(s.history, token) + Aborts(s.history, token)
      == if token >= s.nextToken || s.loopToken == Some(token) then 0 else 1
  }

  ghost predicate CountInv(s: State, cfg: Config, token: nat) {
    && LoopFate(s, token)
    && (token >= s.nextToken ==> Starts(s.history, token) == 0)
    && Starts(s.history, token) <= Budget(cfg)
    && (s.pendingTimer.Some? && s.pendingTimer.value.token == token ==>
          s.pendingTimer.value.afterAttempt == Starts(s.history, token) < Budget(cfg))
    && (forall a :: Current(s, a) && a.token == token ==> a.number == Starts(s.history, token))
  }

  // ---- every step keeps them ----

  lemma RemoveOnly(t: Timer)
    ensures RemoveTimer([t], t) == []
  {
  }

  lemma AbortKeeps(s: State, cfg: Config, token: nat)
    requires LoopInv(s) && CountInv(s, cfg, token)
    ensures LoopInv(AbortLoop(s)) && CountInv(AbortLoop(s), cfg, token)
  {
    if s.pendingTimer.Some? {
      RemoveOnly(s.pendingTimer.value);
    }
    if s.loopToken.Some? {
      HistoryAppend(s.history, Aborted(s.loopToken.value), token);
    }
  }

  lemma FinishKeeps(s: State, current: nat, success: bool, cfg: Config, token: nat)
    requires s.loopToken == Some(current) && LoopCore(s) && Idle(s) && CountInv(s, cfg, token)
    ensures LoopInv(Finish(s, current, success)) && CountInv(Finish(s, current, success), cfg, token)
  {
    HistoryAppend(s.history, Recorded(current, success), token);
  }

  lemma RunAttemptKeeps(s: State, current: nat, number: nat, startedAt: int, cfg: Config, token: nat)
    requires s.loopToken == Some(current) && LoopCore(s) && Idle(s)
    requires CountInv(s, cfg, token) && number == Starts(s.history, current) < Budget(cfg)
    ensures var after := RunAttempt(s, current, number, startedAt);
            LoopInv(after) && CountInv(after, cfg, token)
  {
    var after := RunAttempt(s, current, number, startedAt);
    var a := Attempt(current, s.gen + 1, number + 1, startedAt);
    HistoryAppend(s.history, AttemptStarted(current), token);
    assert Current(after, a);
    assert forall b :: Current(after, b) <==> b == a || Current(s, b);
  }

  lemma StartLoopKeeps(s: State, now: int, cfg: Config, token: nat)
    requires LoopInv(s) && !s.running && !s.disposed
    requires CountInv(s, cfg, token) && CountInv(s, cfg, s.nextToken)
    ensures LoopInv(StartLoop(s, now)) && CountInv(StartLoop(s, now), cfg, token)
  {
    var begunToken := s.nextToken;
    var begun := s.(running := true, loopToken := Some(begunToken), nextToken := begunToken + 1);
    assert Idle(begun) && LoopCore(begun);
    assert CountInv(begun, cfg, token);
    RunAttemptKeeps(begun, begunToken, 0, now, cfg, token);
  }

  lemma CloseKeeps(s: State, g: nat, intentional: bool, now: int, cfg: Config, token: nat)
    requires LoopInv(s) && CountInv(s, cfg, token) && CountInv(s, cfg, s.nextToken)
    ensures LoopInv(HandleClose(s, g, intentional, now)) && CountInv(HandleClose(s, g, intentional, now), cfg, token)
  {
    hide AbortLoop;
    hide StartLoop;
    var down := s.(liveGen := 0);
    SameLoops(s, down, cfg, token);
    SameLoops(s, down, cfg, s.nextToken);
    AbortKeeps(down, cfg, token);
    if !s.running && !s.disposed {
      StartLoopKeeps(down, now, cfg, token);
    }
  }

  /** Which generation is live does not enter the invariants of the loops. */
  lemma SameLoops(s: State, t: State, cfg: Config, token: nat)
    requires LoopInv(s) && CountInv(s, cfg, token)
    requires t.gen >= s.gen && t == s.(gen := t.gen, liveGen := t.liveGen)
    ensures LoopInv(t) && CountInv(t, cfg, token)
  {
    assert forall a :: Current(t, a) <==> Current(s, a);
  }

  lemma SettleKeeps(s: State, a: Attempt, joined: bool, now: int, cfg: Config, token: nat)
    requires LoopInv(s) && a in s.inFlight && CountInv(s, cfg, token) && CountInv(s, cfg, a.token)
    ensures LoopInv(AttemptSettled(s, a, joined, now, cfg)) && CountInv(AttemptSettled(s, a, joined, now, cfg), cfg, token)
  {
    hide Finish;
    hide Delay;
    var t := s.(inFlight := s.inFlight - {a});
    assert forall b :: Current(t, b) <==> Current(s, b) && b != a;
    if s.loopToken == Some(a.token) {
      assert Current(s, a) && Idle(t) && LoopCore(t);
      assert CountInv(t, cfg, token);
      var down := t.(liveGen := 0);
      assert Idle(down) && LoopCore(down) && CountInv(down, cfg, token) by {
        assert forall b :: Current(down, b) <==> Current(t, b);
      }
      if joined {
        FinishKeeps(t, a.token, true, cfg, token);
      } else if a.number >= cfg.maxAttempts || now - a.startedAt >= cfg.budgetMs {
        FinishKeeps(down, a.token, false, cfg, token);
      } else {
        var timer := Timer(a.token, a.number, a.startedAt, Delay(cfg, a.number));
        var waiting := down.(armed := down.armed + [timer], pendingTimer := Some(timer));
        assert forall b :: Current(waiting, b) <==> Current(down, b);
      }
    }
  }

  lemma FireKeeps(s: State, t: Timer, cfg: Config, token: nat)
    requires LoopInv(s) && t in s.armed && CountInv(s, cfg, token) && CountInv(s, cfg, t.token)
    ensures LoopInv(TimerFired(s, t)) && CountInv(TimerFired(s, t), cfg, token)
  {
    RemoveOnly(t);
    var fired := s.(armed := RemoveTimer(s.armed, t), pendingTimer := None);
    assert forall b :: Current(fired, b) <==> Current(s, b);
    RunAttemptKeeps(fired, t.token, t.afterAttempt, t.startedAt, cfg, token);
  }

  ghost predicate Inv(s: State, cfg: Config) {
    LoopInv(s) && forall token: nat :: CountInv(s, cfg, token)
  }

  lemma StepKeepsInv(s: State, step: Step, cfg: Config)
    requires Inv(s, cfg)
    ensures Inv(Do(s, step, cfg), cfg)
  {
    hide CountInv;
    hide LoopInv;
    forall token: nat
      ensures LoopInv(Do(s, step, cfg)) && CountInv(Do(s, step, cfg), cfg, token)
    {
      OneStepKeeps(s, step, cfg, token);
    }
    assert LoopInv(Do(s, step, cfg)) by { OneStepKeeps(s, step, cfg, 0); }
  }

  lemma OneStepKeeps(s: State, step: Step, cfg: Config, token: nat)
    requires Inv(s, cfg)
    ensures LoopInv(Do(s, step, cfg)) && CountInv(Do(s, step, cfg), cfg, token)
  {
    hide CountInv;
    hide LoopInv;
    hide HandleClose;
    hide AttemptSettled;
    hide TimerFired;
    hide AbortLoop;
    if Enabled(s, step) {
      match step
      case Register => SameLoops(s, RegisterPrimary(s), cfg, token);
      case Close(g, intentional, now) => CloseKeeps(s, g, intentional, now, cfg, token);
      case Settle(a, joined, now) => SettleKeeps(s, a, joined, now, cfg, token);
      case Fire(t) => FireKeeps(s, t, cfg, token);
      case Teardown => TeardownKeeps(s, cfg, token);
    }
  }

  lemma TeardownKeeps(s: State, cfg: Config, token: nat)
    requires LoopInv(s) && CountInv(s, cfg, token)
    ensures LoopInv(Dispose(s)) && CountInv(Dispose(s), cfg, token)
  {
    SameLoops(s, s.(liveGen := 0), cfg, token);
    AbortKeeps(s.(liveGen := 0), cfg, token);
    var aborted := AbortLoop(s.(liveGen := 0));
    assert Dispose(s) == aborted.(disposed := true);
    assert forall a :: Current(Dispose(s), a) <==> Current(aborted, a);
  }

  // ---- theorems ----

  lemma {:induction false} EveryRunKeepsInv(steps: seq<Step>, cfg: Config)
    ensures Inv(Run(steps, cfg), cfg)
  {
    if steps != [] {
      hide Inv;
      var n := |steps| - 1;
      EveryRunKeepsInv(steps[..n], cfg);
      StepKeepsInv(Run(steps[..n], cfg), steps[n], cfg);
    }
  }

  /** In every interleaving: the controller is running iff it holds a loop token; a running loop waits
      for exactly one thing, an attempt or a timer, never both and never neither; every loop begun
      ends recorded once or aborted, not both; and a loop makes at most max(1, maxAttempts) attempts. */
  lemma LoopsAreSerialized(steps: seq<Step>, cfg: Config, token: nat, a: Attempt, b: Attempt)
    ensures var s := Run(steps, cfg);
            && (s.running <==> s.loopToken.Some?)
            && |s.armed| <= 1
            && (Current(s, a) && Current(s, b) ==> a == b && s.armed == [])
            && (s.running ==> s.armed != [] || exists c :: Current(s, c))
            && Results(s.history, token) + Aborts(s.history, token)
                 == (if token < s.nextToken && s.loopToken != Some(token) then 1 else 0)
            && Starts(s.history, token) <= Budget(cfg)
  {
    hide Run;
    EveryRunKeepsInv(steps, cfg);
    assert CountInv(Run(steps, cfg), cfg, token);
  }

  lemma DisposedStepIsQuiet(s: State, step: Step, cfg: Config)
    requires LoopInv(s) && s.disposed
    ensures var after := Do(s, step, cfg); after.disposed && after.history == s.history
  {
  }

  /** After dispose no attempt starts and no sample is recorded, whatever still settles or closes. */
  lemma {:induction false} NothingHappensAfterDispose(steps: seq<Step>, cfg: Config, i: nat)
    requires i <= |steps| && Run(steps[..i], cfg).disposed
    ensures Run(steps, cfg).disposed && Run(steps, cfg).history == Run(steps[..i], cfg).history
  {
    hide Do;
    if i < |steps| {
      var n := |steps| - 1;
      assert steps[..n][..i] == steps[..i];
      NothingHappensAfterDispose(steps[..n], cfg, i);
      EveryRunKeepsInv(steps[..n], cfg);
      DisposedStepIsQuiet(Run(steps[..n], cfg), steps[n], cfg);
    } else {
      assert steps[..i] == steps;
    }
  }

  /** Unexpected closes of the generation that was live at the time. */
  function Outages(steps: seq<Step>, cfg: Config): nat {
    if steps == [] then 0
    else
      var n := |steps| - 1;
      var s := Run(steps[..n], cfg);
      Outages(steps[..n], cfg)
      + (if steps[n].Close? && !steps[n].intentional && steps[n].sourceGen == s.liveGen then 1 else 0)
  }

  /** Loops begin only for outages of the live socket: stale closes, flapping during backoff and
      teardowns never begin one. */
  lemma {:induction false} LoopsNeedOutages(steps: seq<Step>, cfg: Config)
    ensures Run(steps, cfg).nextToken <= Outages(steps, cfg)
  {
    if steps != [] {
      var n := |steps| - 1;
      LoopsNeedOutages(steps[..n], cfg);
      StepBeginsLoop(Run(steps[..n], cfg), steps[n], cfg);
    }
  }

  lemma StepBeginsLoop(s: State, step: Step, cfg: Config)
    ensures var after := Do(s, step, cfg);
            after.nextToken == s.nextToken
            || (after.nextToken == s.nextToken + 1 && step.Close? && !step.intentional && step.sourceGen == s.liveGen
                && !s.running && !s.disposed)
  {
  }

  // ---- when a reported success is live ----

  /** Step i of the run starts attempt a. */
  predicate StartedAt(steps: seq<Step>, cfg: Config, i: nat, a: Attempt)
    requires i < |steps|
  {
    a !in Run(steps[..i], cfg).inFlight && a in Run(steps[..i + 1], cfg).inFlight
  }

  /** A step after which the socket of generation g is not the live one: its close, or a new primary. */
  predicate Displaces(step: Step, g: nat) {
    step.Register? || (step.Close? && step.sourceGen == g)
  }

  /** A started attempt takes the newest generation and is live. */
  lemma StartIsLive(s: State, step: Step, cfg: Config, a: Attempt)
    requires a !in s.inFlight && a in Do(s, step, cfg).inFlight
    ensures var after := Do(s, step, cfg); a.generation == after.gen == after.liveGen && s.gen < after.gen
  {
    hide Delay;
  }

  lemma GenerationsGrow(s: State, step: Step, cfg: Config)
    ensures s.gen <= Do(s, step, cfg).gen
  {
    hide Delay;
  }

  /** While an attempt stays current, exactly the displacing steps take its socket from live. */
  lemma CurrentStays(s: State, step: Step, cfg: Config, a: Attempt)
    requires LoopInv(s) && a in s.inFlight && Current(Do(s, step, cfg), a)
    ensures Current(s, a)
    ensures Do(s, step, cfg).liveGen == a.generation
            <==> s.liveGen == a.generation && !Displaces(step, a.generation)
  {
    hide Delay;
    if Enabled(s, step) {
      match step
      case Register =>
      case Close(g, intentional, now) =>
        assert s.loopToken == Some(a.token);
      case Settle(b, joined, now) =>
        assert Current(s, a);
        assert Current(s, b) ==> a == b;
      case Fire(t) =>
      case Teardown =>
    }
  }

  lemma {:induction false} StartedGeneration(steps: seq<Step>, cfg: Config, i: nat, a: Attempt)
    requires i < |steps| && StartedAt(steps, cfg, i, a)
    ensures a.generation <= Run(steps, cfg).gen
  {
    var n := |steps| - 1;
    if i == n {
      hide Do;
      assert steps[..n + 1] == steps;
      StartIsLive(Run(steps[..n], cfg), steps[n], cfg, a);
    } else {
      hide Do;
      assert steps[..n][..i] == steps[..i] && steps[..n][..i + 1] == steps[..i + 1];
      StartedGeneration(steps[..n], cfg, i, a);
      GenerationsGrow(Run(steps[..n], cfg), steps[n], cfg);
    }
  }

  /** While an attempt is current, its socket is live iff no step since its start displaced it. */
  lemma {:induction false} LiveIffNotDisplaced(steps: seq<Step>, cfg: Config, i: nat, a: Attempt)
    requires i < |steps| && StartedAt(steps, cfg, i, a) && Current(Run(steps, cfg), a)
    ensures Run(steps, cfg).liveGen == a.generation
            <==> forall j :: i < j < |steps| ==> !Displaces(steps[j], a.generation)
  {
    hide Do;
    var n := |steps| - 1;
    var before := Run(steps[..n], cfg);
    if i == n {
      assert steps[..n + 1] == steps;
      StartIsLive(before, steps[n], cfg, a);
    } else {
      assert steps[..n][..i] == steps[..i] && steps[..n][..i + 1] == steps[..i + 1];
      StartedGeneration(steps[..n], cfg, i, a);
      if a !in before.inFlight { StartIsLive(before, steps[n], cfg, a); }
      EveryRunKeepsInv(steps[..n], cfg);
      CurrentStays(before, steps[n], cfg, a);
      LiveIffNotDisplaced(steps[..n], cfg, i, a);
      assert forall j :: i < j < n ==> steps[..n][j] == steps[j];
    }
  }

  /** Every attempt in flight was started by some step of the run. */
  lemma {:induction false} EveryAttemptStarts(steps: seq<Step>, cfg: Config, a: Attempt) returns (i: nat)
    requires a in Run(steps, cfg).inFlight
    ensures i < |steps| && StartedAt(steps, cfg, i, a)
  {
    hide Do;
    var n := |steps| - 1;
    if a in Run(steps[..n], cfg).inFlight {
      i := EveryAttemptStarts(steps[..n], cfg, a);
      assert steps[..n][..i] == steps[..i] && steps[..n][..i + 1] == steps[..i + 1];
    } else {
      i := n;
      assert steps[..n + 1] == steps;
    }
  }

  /** In every run: when the current attempt settles as joined, the loop ends reporting success, and the
      socket that joined is the live one exactly when, since the attempt started, that socket has not
      closed and no other was registered. */
  lemma SuccessIsLiveIffNotClosedSince(steps: seq<Step>, cfg: Config, i: nat, a: Attempt, now: int)
    requires i < |steps| && StartedAt(steps, cfg, i, a) && Current(Run(steps, cfg), a)
    ensures var before, after := Run(steps, cfg), Run(steps + [Settle(a, true, now)], cfg);
            && after.history == before.history + [Recorded(a.token, true)] && !after.running
            && (after.liveGen == a.generation
                <==> forall j :: i < j < |steps| ==> !Displaces(steps[j], a.generation))
  {
    RunAppend(steps, Settle(a, true, now), cfg);
    LiveIffNotDisplaced(steps, cfg, i, a);
    hide Run;
  }

  /** The gap is reachable: the recovered socket drops before the promise resolves, the close joins
      the running loop, the loop reports success, and nothing is left to reconnect. */
  lemma SuccessCanBeDead(cfg: Config)
    ensures var a := Attempt(0, 2, 1, 0);
            var s := Run([Register, Close(1, false, 0), Close(2, false, 10), Settle(a, true, 20)], cfg);
            s.history == [AttemptStarted(0), Recorded(0, true)] && s.liveGen == 0 && !s.running && s.inFlight == {} && s.armed == []
  {
    hide Run;
    var a := Attempt(0, 2, 1, 0);
    var steps: seq<Step> := [];
    RunAppend(steps, Register, cfg);
    RunAppend(steps + [Register], Close(1, false, 0), cfg);
    RunAppend(steps + [Register] + [Close(1, false, 0)], Close(2, false, 10), cfg);
    RunAppend(steps + [Register] + [Close(1, false, 0)] + [Close(2, false, 10)], Settle(a, true, 20), cfg);
    RunNothing(cfg);
    assert steps + [Register] + [Close(1, false, 0)] + [Close(2, false, 10)] + [Settle(a, true, 20)]
        == [Register, Close(1, false, 0), Close(2, false, 10), Settle(a, true, 20)];
  }

  lemma RunNothing(cfg: Config)
    ensures Run([], cfg) == Initial
  {
  }

  lemma RunAppend(steps: seq<Step>, step: Step, cfg: Config)
    ensures Run(steps + [step], cfg) == Do(Run(steps, cfg), step, cfg)
  {
    hide Do;
    assert (steps + [step])[..|steps|] == steps;
  }

  lemma {:induction false} Pow2Grows(m: nat, n: nat)
    requires m <= n
    ensures Pow2(m) <= Pow2(n)
  {
    if m < n {
      Pow2Grows(m, n - 1);
    }
  }

  /** Waits never shrink from one attempt to the next and never exceed the cap. */
  lemma DelayGrowsToCap(cfg: Config, m: nat, n: nat)
    requires 0 < m <= n
    ensures Delay(cfg, m) <= Delay(cfg, n) <= cfg.maxMs
  {
    Pow2Grows(m - 1, n - 1);
    assert cfg.baseMs * Pow2(m - 1) <= cfg.baseMs * Pow2(n - 1);
  }

  // ---- the controller ----

  class Controller {
    const cfg: Config
    var gen: nat
    var liveGen: nat
    var running: bool
    var loopToken: Option<nat>
    var pendingTimer: Option<Timer>
    var disposed: bool
    var nextToken: nat
    var inFlight: set<Attempt>
    var armed: seq<Timer>
    var history: seq<Event>

    constructor (cfg: Config)
      ensures Model() == Initial && this.cfg == cfg
    {
      this.cfg := cfg;
      gen, liveGen, running, loopToken, pendingTimer, disposed := 0, 0, false, None, None, false;
      nextToken, inFlight, armed, history := 0, {}, [], [];
    }

    function Model(): State
      reads this
    {
      State(gen, liveGen, running, loopToken, pendingTimer, disposed, nextToken, inFlight, armed, history)
    }

    method DoRegisterPrimary() returns (g: nat)
      modifies this
      ensures Model() == RegisterPrimary(old(Model())) && g == gen
    {
      gen := gen + 1;
      liveGen := gen;
      g := gen;
    }

    method DoClearPending()
      modifies this
      ensures Model() == ClearPending(old(Model()))
    {
      if pendingTimer.Some? {
        armed := RemoveTimer(armed, pendingTimer.value);
        pendingTimer := None;
      }
    }

    method DoAbortLoop()
      modifies this
      ensures Model() == AbortLoop(old(Model()))
    {
      if loopToken.Some? {
        history := history + [Aborted(loopToken.value)];
      }
      loopToken := None;
      running := false;
      DoClearPending();
    }

    method DoHandleClose(sourceGen: nat, intentional: bool, now: int)
      modifies this
      ensures Model() == HandleClose(old(Model()), sourceGen, intentional, now)
    {
      hide AbortLoop;
      hide StartLoop;
      if disposed { return; }
      if intentional {
        if liveGen != 0 && sourceGen != liveGen { return; }
        liveGen := 0;
        DoAbortLoop();
        return;
      }
      if sourceGen != liveGen { return; }
      liveGen := 0;
      if running { return; }
      DoStartLoop(now);
    }

    method DoStartLoop(now: int)
      modifies this
      ensures Model() == StartLoop(old(Model()), now)
    {
      hide RunAttempt;
      running := true;
      var token := nextToken;
      nextToken := nextToken + 1;
      loopToken := Some(token);
      DoRunAttempt(token, 0, now);
    }

    /** runAttempt up to its await. */
    method DoRunAttempt(token: nat, number: nat, startedAt: int)
      modifies this
      ensures Model() == RunAttempt(old(Model()), token, number, startedAt)
    {
      if loopToken != Some(token) { return; }
      gen := gen + 1;
      var myGen := gen;
      liveGen := myGen;
      inFlight := inFlight + {Attempt(token, myGen, number + 1, startedAt)};
      history := history + [AttemptStarted(token)];
    }

    method DoFinish(token: nat, success: bool)
      modifies this
      ensures Model() == Finish(old(Model()), token, success)
    {
      if loopToken != Some(token) { return; }
      running := false;
      loopToken := None;
      DoClearPending();
      history := history + [Recorded(token, success)];
    }

    /** runAttempt after its await. */
    method DoAttemptSettled(a: Attempt, joined: bool, now: int)
      modifies this
      ensures Model() == AttemptSettled(old(Model()), a, joined, now, cfg)
    {
      hide Finish;
      hide Delay;
      inFlight := inFlight - {a};
      if loopToken != Some(a.token) { return; }
      if joined {
        DoFinish(a.token, true);
        return;
      }
      liveGen := 0;
      var elapsed := now - a.startedAt;
      if a.number >= cfg.maxAttempts || elapsed >= cfg.budgetMs {
        DoFinish(a.token, false);
        return;
      }
      var timer := Timer(a.token, a.number, a.startedAt, Delay(cfg, a.number));
      armed := armed + [timer];
      pendingTimer := Some(timer);
    }

    method DoTimerFired(t: Timer)
      modifies this
      ensures Model() == TimerFired(old(Model()), t)
    {
      hide RunAttempt;
      armed := RemoveTimer(armed, t);
      pendingTimer := None;
      DoRunAttempt(t.token, t.afterAttempt, t.startedAt);
    }

    method DoDispose()
      modifies this
      ensures Model() == Dispose(old(Model()))
    {
      hide AbortLoop;
      disposed := true;
      liveGen := 0;
      DoAbortLoop();
    }
  }
}
