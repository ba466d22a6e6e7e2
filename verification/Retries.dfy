/** When a reconnect loop tries again and when it gives up (load-test/lib/reconnect.js). */
module Retries {
  import opened Wrappers
  import opened Basics
  import opened Reconnect

  // ---- how long a loop has been running ----

  /** The unexpected close of the live socket of a controller that is neither running nor disposed. */
  predicate Outage(s: State, step: Step) {
    step.Close? && !step.intentional && step.sourceGen == s.liveGen && !s.running && !s.disposed
  }

  /** The time of the close that began the loop: the token-th outage of the run. */
  function BeganAt(steps: seq<Step>, cfg: Config, token: nat): int {
    if steps == [] then 0
    else
      var n := |steps| - 1;
      var s := Run(steps[..n], cfg);
      if s.nextToken == token && Outage(s, steps[n]) then steps[n].closedAt else BeganAt(steps[..n], cfg, token)
  }

  /** What the current loop waits for carries the start of the loop, and its timer the wait due. */
  ghost predicate Dated(s: State, cfg: Config, began: int) {
    && (forall a :: Current(s, a) ==> a.startedAt == began)
    && (s.pendingTimer.Some? ==>
          var t := s.pendingTimer.value;
          t.startedAt == began && t.delayMs == Delay(cfg, t.afterAttempt))
  }

  /** The start of the loop in progress: an outage begins it now, no other step moves it. */
  function Began(s: State, step: Step, began: int): int {
    if Outage(s, step) then step.closedAt else began
  }

  /** A loop begins exactly with an outage: running, with one attempt started and the next token. */
  lemma LoopBeginsIff(s: State, step: Step, cfg: Config)
    ensures var after := Do(s, step, cfg);
            && after.nextToken == s.nextToken + (if Outage(s, step) then 1 else 0)
            && (Outage(s, step) ==>
                  && after.running && after.loopToken == Some(s.nextToken)
                  && after.history == s.history + [AttemptStarted(s.nextToken)]
                  && after.gen == s.gen + 1 == after.liveGen
                  && after.inFlight == s.inFlight + {Attempt(s.nextToken, s.gen + 1, 1, step.closedAt)}
                  && after.armed == s.armed)
  {
    hide Delay;
  }

  /** Any other close leaves the loop alone, except an intentional one of the live socket, or of any socket
      while none is live, which aborts it. */
  lemma CloseEndsLoopIff(s: State, step: Step, cfg: Config)
    requires LoopInv(s) && step.Close? && !Outage(s, step)
    ensures var after := Do(s, step, cfg);
            var heard := !s.disposed && (step.sourceGen == s.liveGen || (step.intentional && s.liveGen == 0));
            if heard && step.intentional then
              && after.liveGen == 0 && !after.running && after.armed == [] && after.inFlight == s.inFlight
              && after.history == s.history + (if s.running then [Aborted(s.loopToken.value)] else [])
            else after == s.(liveGen := if heard then 0 else s.liveGen)
  {
    if s.pendingTimer.Some? { RemoveOnly(s.pendingTimer.value); }
  }

  lemma CurrentLoopStays(s: State, step: Step, cfg: Config)
    requires LoopInv(s) && !Outage(s, step)
    ensures var after := Do(s, step, cfg); after.loopToken.Some? ==> after.loopToken == s.loopToken
  {
    hide Delay;
  }

  lemma OutageIsDated(s: State, step: Step, cfg: Config)
    requires LoopInv(s) && Outage(s, step)
    ensures Dated(Do(s, step, cfg), cfg, step.closedAt)
  {
    hide Delay;
    LoopBeginsIff(s, step, cfg);
    var after := Do(s, step, cfg);
    forall a | Current(after, a) ensures a.startedAt == step.closedAt {
      assert a in s.inFlight ==> a.token < s.nextToken;
    }
  }

  lemma StepKeepsDates(s: State, step: Step, cfg: Config, began: int)
    requires LoopInv(s) && (s.loopToken.Some? ==> Dated(s, cfg, began)) && !Outage(s, step)
    ensures var after := Do(s, step, cfg); after.loopToken.Some? ==> Dated(after, cfg, began)
  {
    hide Delay;
    CurrentLoopStays(s, step, cfg);
    var after := Do(s, step, cfg);
    if after.loopToken.Some? {
      forall a | Current(after, a) ensures a.startedAt == began {
        if a in s.inFlight { assert Current(s, a); }
      }
      if after.pendingTimer.Some? && after.pendingTimer != s.pendingTimer {
        assert step.Settle? && Current(s, step.attempt);
      }
    }
  }

  lemma {:induction false} EveryLoopIsDated(steps: seq<Step>, cfg: Config)
    ensures var s := Run(steps, cfg);
            s.loopToken.Some? ==> Dated(s, cfg, BeganAt(steps, cfg, s.loopToken.value))
  {
    hide Do, Dated, LoopInv;
    if steps != [] {
      var n := |steps| - 1;
      var s := Run(steps[..n], cfg);
      EveryLoopIsDated(steps[..n], cfg);
      EveryRunKeepsInv(steps[..n], cfg);
      LoopBeginsIff(s, steps[n], cfg);
      if Outage(s, steps[n]) {
        OutageIsDated(s, steps[n], cfg);
      } else {
        CurrentLoopStays(s, steps[n], cfg);
        StepKeepsDates(s, steps[n], cfg, if s.loopToken.Some? then BeganAt(steps[..n], cfg, s.loopToken.value) else 0);
      }
    }
  }

  // ---- what a failed attempt leads to ----

  /** After a failed attempt, the loop is recorded as failed if its attempts or its time are used up;
      otherwise it goes on, with one timer armed for min(max, base * 2^(attempts - 1)). */
  predicate GivesUpOrWaits(before: State, after: State, token: nat, attempts: nat, began: int, now: int, cfg: Config) {
    && attempts > 0 && after.liveGen == 0
    && if attempts >= cfg.maxAttempts || now - began >= cfg.budgetMs then
         && after.history == before.history + [Recorded(token, false)]
         && !after.running && after.armed == []
       else
         && after.history == before.history
         && after.running && after.loopToken == Some(token)
         && after.armed == [Timer(token, attempts, began, Min(cfg.maxMs, cfg.baseMs * Pow2(attempts - 1)))]
  }

  /** In every run, when the current attempt of a loop settles without having joined: the loop is recorded
      as failed exactly when it has made as many attempts as allowed or its time is up, counted from the
      close that began it; otherwise it goes on, with one timer armed for the wait due. */
  lemma FailedAttemptRetriesIff(steps: seq<Step>, cfg: Config, a: Attempt, now: int)
    requires Current(Run(steps, cfg), a)
    ensures var before := Run(steps, cfg);
            GivesUpOrWaits(before, Run(steps + [Settle(a, false, now)], cfg), a.token,
                           Starts(before.history, a.token), BeganAt(steps, cfg, a.token), now, cfg)
  {
    CurrentIsCounted(steps, cfg, a);
    EveryRunKeepsInv(steps, cfg);
    EveryLoopIsDated(steps, cfg);
    RunAppend(steps, Settle(a, false, now), cfg);
    hide Run, BeganAt, Starts, Do, Pow2, GivesUpOrWaits;
    var s := Run(steps, cfg);
    AttemptCounts(s, a, cfg);
    FailedLeadsTo(s, a, now, cfg);
  }

  lemma AttemptCounts(s: State, a: Attempt, cfg: Config)
    requires Inv(s, cfg) && Current(s, a)
    ensures a.number == Starts(s.history, a.token)
  {
    assert CountInv(s, cfg, a.token);
  }

  /** The step by itself, in terms of what the attempt carries. */
  lemma FailedLeadsTo(s: State, a: Attempt, now: int, cfg: Config)
    requires LoopInv(s) && Current(s, a) && a.number > 0
    ensures GivesUpOrWaits(s, Do(s, Settle(a, false, now), cfg), a.token, a.number, a.startedAt, now, cfg)
  {
    hide Pow2;
  }

  lemma {:induction false} CurrentIsCounted(steps: seq<Step>, cfg: Config, a: Attempt)
    requires a in Run(steps, cfg).inFlight
    ensures a.number > 0
  {
    hide Delay;
    if steps != [] && a in Run(steps[..|steps| - 1], cfg).inFlight {
      CurrentIsCounted(steps[..|steps| - 1], cfg, a);
    }
  }

  /** An armed timer that fires starts exactly one attempt of its loop, with the next generation, which
      is live and the only thing the loop waits for. */
  lemma TimerStartsOneAttempt(steps: seq<Step>, cfg: Config, t: Timer)
    requires t in Run(steps, cfg).armed
    ensures var before, after := Run(steps, cfg), Run(steps + [Fire(t)], cfg);
            var a := Attempt(t.token, before.gen + 1, Starts(before.history, t.token) + 1, BeganAt(steps, cfg, t.token));
            && before.armed == [t] && before.loopToken == Some(t.token) == after.loopToken
            && after.history == before.history + [AttemptStarted(t.token)]
            && after.inFlight == before.inFlight + {a}
            && (forall b :: Current(after, b) <==> b == a)
            && after.liveGen == a.generation && after.armed == [] && after.running
  {
    hide Run, BeganAt, Starts, Do, Delay, Current;
    EveryRunKeepsInv(steps, cfg);
    EveryLoopIsDated(steps, cfg);
    RunAppend(steps, Fire(t), cfg);
    var s := Run(steps, cfg);
    FiredStartsOne(s, t, cfg);
    TimerCounts(s, t, cfg);
  }

  lemma TimerCounts(s: State, t: Timer, cfg: Config)
    requires Inv(s, cfg) && s.pendingTimer == Some(t)
    ensures t.afterAttempt == Starts(s.history, t.token)
  {
    assert CountInv(s, cfg, t.token);
  }

  lemma FiredStartsOne(s: State, t: Timer, cfg: Config)
    requires LoopInv(s) && t in s.armed
    ensures var after := Do(s, Fire(t), cfg);
            var a := Attempt(t.token, s.gen + 1, t.afterAttempt + 1, t.startedAt);
            && s.armed == [t] && s.pendingTimer == Some(t) && s.loopToken == Some(t.token) == after.loopToken
            && after.history == s.history + [AttemptStarted(t.token)]
            && after.inFlight == s.inFlight + {a}
            && (forall b :: Current(after, b) <==> b == a)
            && after.liveGen == a.generation && after.armed == [] && after.running
  {
    RemoveOnly(t);
    var after := Do(s, Fire(t), cfg);
    forall b ensures Current(after, b) <==> b == Attempt(t.token, s.gen + 1, t.afterAttempt + 1, t.startedAt) {
      assert !Current(s, b);
    }
  }

  /** An attempt that settles after its loop has ended changes nothing else. */
  lemma LateAttemptIsIgnored(steps: seq<Step>, cfg: Config, a: Attempt, joined: bool, now: int)
    requires a in Run(steps, cfg).inFlight && !Current(Run(steps, cfg), a)
    ensures var before, after := Run(steps, cfg), Run(steps + [Settle(a, joined, now)], cfg);
            after == before.(inFlight := before.inFlight - {a})
  {
    RunAppend(steps, Settle(a, joined, now), cfg);
    hide Run;
  }

  /** The first wait is the base and each wait is twice the one before, up to the cap. */
  lemma WaitsDouble(cfg: Config, n: nat)
    requires n > 0
    ensures Delay(cfg, 1) == Min(cfg.maxMs, cfg.baseMs)
    ensures Delay(cfg, n + 1) == Min(cfg.maxMs, 2 * Delay(cfg, n))
  {
    assert Pow2(0) == 1 && Pow2(n) == 2 * Pow2(n - 1);
    assert cfg.baseMs * Pow2(n) == 2 * (cfg.baseMs * Pow2(n - 1));
  }
}
