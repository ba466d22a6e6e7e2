/** When every earned streak brings its own variant: the requests of a user must not cross. */
module StreakPayouts {
  import opened Wrappers
  import opened CardVariants
  import opened Basics

  // One write.

  function Height(grants: set<Grant>, userId: string): nat {
    |OwnedRows(grants, userId)|
  }

  /** A write brings the user a grant exactly when it names the next rung: when its read is current. */
  lemma WriteGrantsIffCurrent(grants: set<Grant>, userId: string, want: Grant)
    requires OnLadder(grants, userId) && WithinReach(grants, userId, Some(want))
    ensures var n := Height(grants, userId);
            Height(Write(grants, Some(want)), userId)
              == if n < 2 && want == Ladder(userId)[n] then n + 1 else n
  {
    var n := Height(grants, userId);
    var k :| 0 <= k < 2 && k <= n && want == Ladder(userId)[k];
    RungsAre(userId);
    assert OwnedRows(Write(grants, Some(want)), userId) == OwnedRows(grants, userId) + {want};
    AddRung(userId, n, k);
  }

  // Reads and writes of a run.

  function At(s: Store, actions: seq<Action>, t: nat): Store
    requires t <= |actions|
  {
    Run(s, actions[..t])
  }

  lemma AtStart(s: Store, actions: seq<Action>)
    ensures At(s, actions, 0) == s
  {
  }

  lemma AtStep(s: Store, actions: seq<Action>, t: nat)
    requires t < |actions|
    ensures At(s, actions, t + 1) == Step(At(s, actions, t), actions[t])
  {
    assert actions[..t + 1][..t] == actions[..t];
  }

  lemma AtInv(s: Store, actions: seq<Action>, t: nat, userId: string)
    requires AtRest(s) && t <= |actions|
    ensures Inv(At(s, actions, t)) && OnLadder(At(s, actions, t).grants, userId)
  {
    RunKeepsInv(s, actions[..t], userId);
  }

  predicate Reading(s: Store, w: Worker) {
    w.Submitting? || (w.Locked? && w.row < |s.pending|)
  }

  predicate HasRead(w: Worker) {
    w.Unlocking? || w.Granting?
  }

  function StreakOf(s: Store, w: Worker): int {
    if w.Submitting? || w.Unlocking? then w.streak
    else if (w.Locked? || w.Granting?) && w.row < |s.pending| then s.pending[w.row].streak
    else 0
  }

  /** The step is worker id's read of the user's rows. */
  predicate Reads(s: Store, a: Action, id: nat) {
    a == Advance(id) && id < |s.workers| && Reading(s, s.workers[id])
  }

  /** The step writes for an earned streak of the user. */
  predicate Spends(s: Store, a: Action, userId: string) {
    && (a.Advance? || a.Lose?) && a.id < |s.workers|
    && var w := s.workers[a.id];
       w.userId == userId && HasRead(w) && (w.Granting? ==> w.row < |s.pending|) && Earns(StreakOf(s, w))
  }

  /** How many earned streaks of the user have been written for in the first t steps. */
  function Spent(s: Store, actions: seq<Action>, userId: string, t: nat): nat
    requires t <= |actions|
  {
    if t == 0 then 0
    else Spent(s, actions, userId, t - 1) + if Spends(At(s, actions, t - 1), actions[t - 1], userId) then 1 else 0
  }

  /** Between the read and the write of one request of the user, another one writes. */
  ghost predicate Cross(s: Store, actions: seq<Action>, userId: string, i: nat, k: nat, j: nat)
    requires i < k < j < |actions|
  {
    && Spends(At(s, actions, j), actions[j], userId)
    && Spends(At(s, actions, k), actions[k], userId)
    && Reads(At(s, actions, i), actions[i], actions[j].id)
  }

  ghost predicate Crossed(s: Store, actions: seq<Action>, userId: string, t: nat)
    requires t <= |actions|
  {
    exists i: nat, k: nat, j: nat :: i < k < j < t && Cross(s, actions, userId, i, k, j)
  }

  /** What a request holds after its read is what it read. */
  lemma HeldIsRead(s: Store, a: Action, id: nat)
    requires Inv(s) && id < |Step(s, a).workers| && HasRead(Step(s, a).workers[id])
    ensures var after := Step(s, a);
            var w := after.workers[id];
            && id < |s.workers| && s.workers[id].userId == w.userId
            && ((s.workers[id] == w && StreakOf(s, w) == StreakOf(after, w))
                || (Reads(s, a, id) && w.want == Wanted(OwnedRows(s.grants, w.userId), w.userId, StreakOf(after, w))))
  {
    hide OwnedRows, Wanted;
    if id < |s.workers| { assert WorkerInv(s, s.workers[id]); }
  }

  lemma {:induction false} ReadOf(s: Store, actions: seq<Action>, t: nat, id: nat) returns (i: nat)
    requires AtRest(s) && t <= |actions|
    requires id < |At(s, actions, t).workers| && HasRead(At(s, actions, t).workers[id])
    ensures i < t && Reads(At(s, actions, i), actions[i], id)
    ensures var now := At(s, actions, t);
            var w := now.workers[id];
            w.want == Wanted(OwnedRows(At(s, actions, i).grants, w.userId), w.userId, StreakOf(now, w))
  {
    var u := At(s, actions, t).workers[id].userId;
    AtStart(s, actions);
    AtStep(s, actions, t - 1);
    AtInv(s, actions, t - 1, u);
    hide Step, At, Inv, OwnedRows, Wanted;
    HeldIsRead(At(s, actions, t - 1), actions[t - 1], id);
    if Reads(At(s, actions, t - 1), actions[t - 1], id) {
      i := t - 1;
    } else {
      i := ReadOf(s, actions, t - 1, id);
    }
  }

  /** Between its read and its write a worker has read and not stopped; it reads once. */
  lemma StaysPast(s: Store, a: Action, id: nat)
    requires id < |s.workers| && (HasRead(s.workers[id]) || s.workers[id].Stopped?)
    ensures var after := Step(s, a).workers; id < |after| && (HasRead(after[id]) || after[id].Stopped?)
  {
    hide OwnedRows, Wanted, Write;
  }

  lemma ReadPasses(s: Store, a: Action, id: nat)
    requires Reads(s, a, id)
    ensures var after := Step(s, a).workers; id < |after| && HasRead(after[id])
  {
    hide OwnedRows, Wanted, Write;
  }

  lemma {:induction false} ReadsOnce(s: Store, actions: seq<Action>, i: nat, t: nat, id: nat)
    requires i < t <= |actions| && Reads(At(s, actions, i), actions[i], id)
    ensures var workers := At(s, actions, t).workers;
            id < |workers| && (HasRead(workers[id]) || workers[id].Stopped?)
    decreases t
  {
    AtStep(s, actions, t - 1);
    hide Step, At;
    if t == i + 1 {
      ReadPasses(At(s, actions, i), actions[i], id);
    } else {
      ReadsOnce(s, actions, i, t - 1, id);
      StaysPast(At(s, actions, t - 1), actions[t - 1], id);
    }
  }

  lemma SameRead(s: Store, actions: seq<Action>, i: nat, j: nat, id: nat)
    requires i < |actions| && j < |actions|
    requires Reads(At(s, actions, i), actions[i], id) && Reads(At(s, actions, j), actions[j], id)
    ensures i == j
  {
    hide At;
    if i < j { ReadsOnce(s, actions, i, j, id); }
    if j < i { ReadsOnce(s, actions, j, i, id); }
  }

  // How the user's rows move.

  lemma OthersRowsStay(grants: set<Grant>, want: Option<Grant>, userId: string)
    requires want.Some? ==> want.value.userId != userId
    ensures OwnedRows(Write(grants, want), userId) == OwnedRows(grants, userId)
  {
  }

  lemma WantIsOwn(s: Store, w: Worker)
    requires WorkerInv(s, w) && HasRead(w) && w.want.Some?
    ensures w.want.value.userId == w.userId
  {
  }

  /** Only a spending step moves the user's rows. */
  lemma IdleKeepsRows(s: Store, a: Action, userId: string)
    requires Inv(s) && !Spends(s, a, userId)
    ensures OwnedRows(Step(s, a).grants, userId) == OwnedRows(s.grants, userId)
  {
    hide OwnedRows;
    if (a.Advance? || a.Lose?) && a.id < |s.workers| && HasRead(s.workers[a.id]) {
      var w := s.workers[a.id];
      assert WorkerInv(s, w);
      if w.want.Some? {
        WantIsOwn(s, w);
        OthersRowsStay(s.grants, w.want, userId);
      }
    }
  }

  /** A spending step writes what its request read. */
  lemma SpendWrites(s: Store, a: Action, userId: string)
    requires Inv(s) && Spends(s, a, userId)
    ensures var w := s.workers[a.id];
            && Step(s, a).grants == Write(s.grants, w.want)
            && WithinReach(s.grants, userId, w.want)
  {
    assert WorkerInv(s, s.workers[a.id]);
    hide OwnedRows;
  }

  lemma StepMovesByOne(s: Store, a: Action, userId: string)
    requires Inv(s)
    ensures Height(s.grants, userId) <= Height(Step(s, a).grants, userId)
    ensures Height(Step(s, a).grants, userId) <= Height(s.grants, userId) + if Spends(s, a, userId) then 1 else 0
  {
    assert OnLadder(s.grants, userId);
    hide Step, Inv, OwnedRows, OnLadder, Spends;
    if Spends(s, a, userId) {
      SpendWrites(s, a, userId);
      var want := s.workers[a.id].want;
      if want.Some? { WriteGrantsIffCurrent(s.grants, userId, want.value); }
    } else {
      IdleKeepsRows(s, a, userId);
    }
  }

  lemma {:induction false} RowsGrow(s: Store, actions: seq<Action>, userId: string, i: nat, t: nat)
    requires AtRest(s) && i <= t <= |actions|
    ensures Height(At(s, actions, i).grants, userId) <= Height(At(s, actions, t).grants, userId)
    ensures (forall k :: i <= k < t ==> !Spends(At(s, actions, k), actions[k], userId))
            ==> Height(At(s, actions, i).grants, userId) == Height(At(s, actions, t).grants, userId)
    decreases t
  {
    if i < t {
      RowsGrow(s, actions, userId, i, t - 1);
      AtStep(s, actions, t - 1);
      AtInv(s, actions, t - 1, userId);
      hide Step, At, Inv, Height, Spends;
      StepMovesByOne(At(s, actions, t - 1), actions[t - 1], userId);
    }
  }

  /** In every run: a write for an earned streak brings the user a grant exactly when a rung was left
      when its request read, and no other request has brought one since. */
  lemma WriteGrantsIffUncrossed(s: Store, actions: seq<Action>, userId: string, i: nat, j: nat)
    requires AtRest(s) && i < j < |actions|
    requires Spends(At(s, actions, j), actions[j], userId) && Reads(At(s, actions, i), actions[i], actions[j].id)
    ensures var atRead, before := Height(At(s, actions, i).grants, userId), Height(At(s, actions, j).grants, userId);
            Height(At(s, actions, j + 1).grants, userId) == before + if atRead == before < 2 then 1 else 0
  {
    var id := actions[j].id;
    var now := At(s, actions, j);
    AtStep(s, actions, j);
    AtInv(s, actions, j, userId);
    AtInv(s, actions, i, userId);
    var r := ReadOf(s, actions, j, id);
    SameRead(s, actions, i, r, id);
    var w := now.workers[id];
    var readStore := At(s, actions, i).grants;
    hide At, Step, Inv;
    SpendWrites(now, actions[j], userId);
    WantedIsNextRung(userId, Height(readStore, userId), StreakOf(now, w));
    hide Wanted, Write;
    RowsGrow(s, actions, userId, i, j);
    if w.want.Some? { WriteGrantsIffCurrent(now.grants, userId, w.want.value); }
  }

  lemma CrossedGrows(s: Store, actions: seq<Action>, userId: string, t: nat)
    requires 0 < t <= |actions| && Crossed(s, actions, userId, t - 1)
    ensures Crossed(s, actions, userId, t)
  {
    var i: nat, k: nat, j: nat :| i < k < j < t - 1 && Cross(s, actions, userId, i, k, j);
    assert i < k < j < t && Cross(s, actions, userId, i, k, j);
  }

  lemma NotSpending(s: Store, actions: seq<Action>, userId: string, i: nat, k: nat, j: nat)
    requires i < k < j < |actions| && !Crossed(s, actions, userId, j + 1)
    requires Spends(At(s, actions, j), actions[j], userId) && Reads(At(s, actions, i), actions[i], actions[j].id)
    ensures !Spends(At(s, actions, k), actions[k], userId)
  {
    assert !Cross(s, actions, userId, i, k, j);
  }

  /** The last spending step of an uncrossed run writes on the rows it read. */
  lemma UncrossedReadIsCurrent(s: Store, actions: seq<Action>, userId: string, j: nat) returns (i: nat)
    requires AtRest(s) && j < |actions| && !Crossed(s, actions, userId, j + 1)
    requires Spends(At(s, actions, j), actions[j], userId)
    ensures i < j && Reads(At(s, actions, i), actions[i], actions[j].id)
    ensures Height(At(s, actions, i).grants, userId) == Height(At(s, actions, j).grants, userId)
  {
    var id := actions[j].id;
    i := ReadOf(s, actions, j, id);
    hide At, Height;
    forall k | i <= k < j ensures !Spends(At(s, actions, k), actions[k], userId) {
      if k != i { NotSpending(s, actions, userId, i, k, j); }
    }
    RowsGrow(s, actions, userId, i, j);
  }

  lemma {:induction false} UncrossedPays(s: Store, actions: seq<Action>, userId: string, t: nat)
    requires AtRest(s) && t <= |actions| && !Crossed(s, actions, userId, t)
    ensures Height(At(s, actions, t).grants, userId) == Min(2, Height(s.grants, userId) + Spent(s, actions, userId, t))
  {
    hide At, Step, Inv, Crossed, Spends, Reads;
    AtStart(s, actions);
    if t == 0 {
      AtInv(s, actions, 0, userId);
    } else {
      hide OnLadder, OwnedRows;
      var before := At(s, actions, t - 1);
      if Crossed(s, actions, userId, t - 1) { CrossedGrows(s, actions, userId, t); }
      UncrossedPays(s, actions, userId, t - 1);
      AtStep(s, actions, t - 1);
      AtInv(s, actions, t - 1, userId);
      if Spends(before, actions[t - 1], userId) {
        var i := UncrossedReadIsCurrent(s, actions, userId, t - 1);
        WriteGrantsIffUncrossed(s, actions, userId, i, t - 1);
      } else {
        IdleKeepsRows(before, actions[t - 1], userId);
      }
    }
  }

  lemma {:induction false} SpentBounds(s: Store, actions: seq<Action>, userId: string, t: nat)
    requires AtRest(s) && t <= |actions|
    ensures Height(At(s, actions, t).grants, userId) <= Height(s.grants, userId) + Spent(s, actions, userId, t)
  {
    AtStart(s, actions);
    if t != 0 {
      SpentBounds(s, actions, userId, t - 1);
      AtStep(s, actions, t - 1);
      AtInv(s, actions, t - 1, userId);
      hide At, Step, Inv, Height, Spends;
      StepMovesByOne(At(s, actions, t - 1), actions[t - 1], userId);
    }
  }

  /** If as many grants came as streaks were spent, each spending step brought one. */
  lemma {:induction false} EachSpendPaid(s: Store, actions: seq<Action>, userId: string, t: nat, k: nat)
    requires AtRest(s) && k < t <= |actions| && Spends(At(s, actions, k), actions[k], userId)
    requires Height(At(s, actions, t).grants, userId) == Height(s.grants, userId) + Spent(s, actions, userId, t)
    ensures Height(At(s, actions, k + 1).grants, userId) == Height(At(s, actions, k).grants, userId) + 1
  {
    hide At, Step, Inv, Height, Spends, OnLadder, AtRest;
    SpentBounds(s, actions, userId, t - 1);
    AtStep(s, actions, t - 1);
    AtInv(s, actions, t - 1, userId);
    StepMovesByOne(At(s, actions, t - 1), actions[t - 1], userId);
    if k < t - 1 { EachSpendPaid(s, actions, userId, t - 1, k); }
  }

  /** A crossing with a rung left at the end means that some spent streak brought nothing. */
  lemma CrossingCosts(s: Store, actions: seq<Action>, userId: string)
    requires AtRest(s) && Crossed(s, actions, userId, |actions|)
    ensures Height(At(s, actions, |actions|).grants, userId)
            < Height(s.grants, userId) + Spent(s, actions, userId, |actions|)
  {
    var i: nat, k: nat, j: nat :| i < k < j < |actions| && Cross(s, actions, userId, i, k, j);
    hide At, Height, Cross, Crossed, AtRest, Spent;
    ThisCrossingCosts(s, actions, userId, i, k, j);
  }

  lemma ThisCrossingCosts(s: Store, actions: seq<Action>, userId: string, i: nat, k: nat, j: nat)
    requires AtRest(s) && i < k < j < |actions| && Cross(s, actions, userId, i, k, j)
    ensures Height(At(s, actions, |actions|).grants, userId)
            < Height(s.grants, userId) + Spent(s, actions, userId, |actions|)
  {
    var t := |actions|;
    hide At, Height, Reads, Spends, Spent, AtRest;
    SpentBounds(s, actions, userId, t);
    if Height(At(s, actions, t).grants, userId) == Height(s.grants, userId) + Spent(s, actions, userId, t) {
      EachSpendPaid(s, actions, userId, t, k);
      EachSpendPaid(s, actions, userId, t, j);
      RowsGrow(s, actions, userId, i, k);
      RowsGrow(s, actions, userId, k + 1, j);
      WriteGrantsIffUncrossed(s, actions, userId, i, j);
    }
  }

  /** Every streak spent brings its own variant, up to the two there are, if no two requests of the
      user cross; and exactly then, as long as the ladder is not complete at the end. */
  lemma EveryStreakPaysIffUncrossed(s: Store, actions: seq<Action>, userId: string)
    requires AtRest(s)
    ensures var end, due := Height(Run(s, actions).grants, userId),
                            Height(s.grants, userId) + Spent(s, actions, userId, |actions|);
            && (!Crossed(s, actions, userId, |actions|) ==> end == Min(2, due))
            && (end < 2 ==> (end == due <==> !Crossed(s, actions, userId, |actions|)))
  {
    hide Run, Crossed, Height, AtRest;
    assert actions[..|actions|] == actions;
    assert At(s, actions, |actions|) == Run(s, actions);
    hide At;
    if Crossed(s, actions, userId, |actions|) {
      CrossingCosts(s, actions, userId);
    } else {
      UncrossedPays(s, actions, userId, |actions|);
    }
  }

  // From streaks earned to streaks spent.

  /** An earned unlock fails and is not put down to be drained. */
  predicate Drops(s: Store, a: Action, userId: string) {
    && (a.Fail? || a.Lose?) && !a.recorded && a.id < |s.workers| && Earning(userId)(s.workers[a.id])
    && (a.Lose? ==> s.workers[a.id].Submitting?)
  }

  function Dropped(s: Store, actions: seq<Action>, userId: string, t: nat): nat
    requires t <= |actions|
  {
    if t == 0 then 0
    else Dropped(s, actions, userId, t - 1) + if Drops(At(s, actions, t - 1), actions[t - 1], userId) then 1 else 0
  }

  /** Earned streaks that a request or a pending row may still be paid for. */
  function Open(s: Store, userId: string): nat {
    Count(s.pending, Unspent(userId)) + Count(s.workers, Earning(userId))
  }

  /** Streaks earned in the run, or before it and still pending at its start. */
  function Earned(s: Store, actions: seq<Action>, userId: string): nat {
    EarningSubmits(actions, userId) + Count(s.pending, Unspent(userId))
  }

  function One(b: bool): nat {
    if b then 1 else 0
  }

  lemma WorkerMoves(s: Store, id: nat, w: Worker, userId: string)
    requires id < |s.workers|
    ensures Count(s.workers[id := w], Earning(userId)) + One(Earning(userId)(s.workers[id]))
            == Count(s.workers, Earning(userId)) + One(Earning(userId)(w))
  {
    CountUpdate(s.workers, id, w, Earning(userId));
  }

  lemma NextConserves(s: Store, id: nat, userId: string)
    requires Inv(s) && id < |s.workers|
    ensures Open(Next(s, id), userId) + One(Spends(s, Advance(id), userId)) == Open(s, userId)
  {
    var w, s' := s.workers[id], Next(s, id);
    assert WorkerInv(s, w);
    WorkerMoves(s, id, s'.workers[id], userId);
    if w.Granting? { CountUpdate(s.pending, w.row, s'.pending[w.row], Unspent(userId)); }
    hide OwnedRows, Wanted, Write, Count;
  }

  lemma FailConserves(s: Store, id: nat, recorded: bool, userId: string)
    requires id < |s.workers|
    ensures Open(Failed(s, id, recorded), userId) + One(Drops(s, Fail(id, recorded), userId)) == Open(s, userId)
  {
    var w := s.workers[id];
    WorkerMoves(s, id, Stopped(w.userId), userId);
    if w.Submitting? || w.Unlocking? { CountAppend(s.pending, PendingUnlock(w.userId, w.streak, 0), Unspent(userId)); }
    hide Count;
  }

  lemma LoseConserves(s: Store, id: nat, recorded: bool, userId: string)
    requires Inv(s) && id < |s.workers|
    ensures var a := Lose(id, recorded);
            Open(Lost(s, id, recorded), userId) + One(Spends(s, a, userId)) + One(Drops(s, a, userId))
            == Open(s, userId) + One(PaidTwice(s, a, userId))
  {
    var w := s.workers[id];
    if w.Granting? {
      NextConserves(s, id, userId);
    } else {
      WorkerMoves(s, id, Stopped(w.userId), userId);
      if w.Submitting? || w.Unlocking? { CountAppend(s.pending, PendingUnlock(w.userId, w.streak, 0), Unspent(userId)); }
      hide Count;
    }
  }

  lemma StepConserves(s: Store, a: Action, userId: string)
    requires Inv(s)
    ensures Open(Step(s, a), userId) + One(Spends(s, a, userId)) + One(Drops(s, a, userId))
            == Open(s, userId) + One(EarningSubmit(a, userId)) + One(PaidTwice(s, a, userId))
  {
    match a
    case Advance(id) => if id < |s.workers| { NextConserves(s, id, userId); }
    case Fail(id, recorded) => if id < |s.workers| { FailConserves(s, id, recorded, userId); }
    case Lose(id, recorded) => if id < |s.workers| { LoseConserves(s, id, recorded, userId); }
    case Submit(u, streak) => CountAppend(s.workers, Submitting(u, streak), Earning(userId));
    case Drain(u, row) => CountAppend(s.workers, Draining(u, row), Earning(userId));
  }

  lemma TotalsStep(s: Store, actions: seq<Action>, userId: string, t: nat)
    requires t < |actions|
    ensures EarningSubmits(actions[..t + 1], userId) == EarningSubmits(actions[..t], userId) + One(EarningSubmit(actions[t], userId))
    ensures PaidTwices(s, actions[..t + 1], userId)
            == PaidTwices(s, actions[..t], userId) + One(PaidTwice(At(s, actions, t), actions[t], userId))
  {
    assert actions[..t + 1][..t] == actions[..t];
  }

  lemma NothingSpentYet(s: Store, actions: seq<Action>, userId: string)
    requires AtRest(s)
    ensures Earned(s, actions[..0], userId) == Open(At(s, actions, 0), userId) == Count(s.pending, Unspent(userId))
    ensures PaidTwices(s, actions[..0], userId) == 0
  {
    AtStart(s, actions);
  }

  /** Every earned streak is spent, dropped or still open, once; one that was paid and then put down as
      unpaid comes up twice. */
  lemma {:induction false} StreaksAreConserved(s: Store, actions: seq<Action>, userId: string, t: nat)
    requires AtRest(s) && t <= |actions|
    ensures Earned(s, actions[..t], userId) + PaidTwices(s, actions[..t], userId)
            == Spent(s, actions, userId, t) + Dropped(s, actions, userId, t) + Open(At(s, actions, t), userId)
  {
    hide At, Step, Inv, OnLadder, AtRest, Open, EarningSubmits, PaidTwices, Count;
    hide Spends, Drops, PaidTwice, EarningSubmit;
    if t == 0 {
      NothingSpentYet(s, actions, userId);
    } else {
      StreaksAreConserved(s, actions, userId, t - 1);
      TotalsStep(s, actions, userId, t - 1);
      AtStep(s, actions, t - 1);
      AtInv(s, actions, t - 1, userId);
      StepConserves(At(s, actions, t - 1), actions[t - 1], userId);
    }
  }

  // A streak that is paid twice completes the ladder.

  /** A row put down after its streak was paid: whoever drains it takes the last rung. */
  ghost predicate PaidRow(s: Store, userId: string, r: nat) {
    && r < |s.pending| && s.pending[r].userId == userId && Earns(s.pending[r].streak)
    && 1 <= Height(s.grants, userId)
    && (s.pending[r].commits > 0 ==> Height(s.grants, userId) == 2)
    && forall i :: 0 <= i < |s.workers| && s.workers[i].Granting? && s.workers[i].row == r ==>
         Height(s.grants, userId) == 2 || s.workers[i].want == Some(Ladder(userId)[1])
  }

  lemma ReadAfterPayment(grants: set<Grant>, userId: string, streak: int)
    requires OnLadder(grants, userId) && 1 <= Height(grants, userId) && Earns(streak)
    ensures Height(grants, userId) == 2 || Wanted(OwnedRows(grants, userId), userId, streak) == Some(Ladder(userId)[1])
  {
    WantedIsNextRung(userId, Height(grants, userId), streak);
  }

  /** The step that pays a streak and puts it down as unpaid leaves such a row. */
  lemma PaidRowAppears(s: Store, actions: seq<Action>, userId: string, t: nat)
    requires AtRest(s) && t < |actions| && PaidTwice(At(s, actions, t), actions[t], userId)
    ensures PaidRow(At(s, actions, t + 1), userId, |At(s, actions, t).pending|)
  {
    var now, id := At(s, actions, t), actions[t].id;
    var w := now.workers[id];
    AtStep(s, actions, t);
    AtInv(s, actions, t, userId);
    var i := ReadOf(s, actions, t, id);
    AtInv(s, actions, i, userId);
    RowsGrow(s, actions, userId, i, t);
    var atRead := At(s, actions, i).grants;
    assert WorkerInv(now, w);
    assert forall k :: 0 <= k < |now.workers| && now.workers[k].Granting? ==> WorkerInv(now, now.workers[k]);
    hide At, Inv, OwnedRows, Wanted;
    WantedIsNextRung(userId, Height(atRead, userId), w.streak);
    if w.want.Some? { WriteGrantsIffCurrent(now.grants, userId, w.want.value); }
  }

  lemma LastRungCompletes(grants: set<Grant>, userId: string)
    requires OnLadder(grants, userId) && 1 <= Height(grants, userId)
    ensures Height(Write(grants, Some(Ladder(userId)[1])), userId) == 2
  {
    assert WithinReach(grants, userId, Some(Ladder(userId)[1]));
    WriteGrantsIffCurrent(grants, userId, Ladder(userId)[1]);
  }

  lemma PaidRowGranted(s: Store, id: nat, userId: string, r: nat)
    requires Inv(s) && PaidRow(s, userId, r) && id < |s.workers| && s.workers[id].Granting? && s.workers[id].row == r
    ensures Height(Next(s, id).grants, userId) == 2
  {
    assert OnLadder(s.grants, userId) && WorkerInv(s, s.workers[id]);
    hide OnLadder, OwnedRows;
    if Height(s.grants, userId) == 2 {
      RowsStayTwo(s, Advance(id), userId);
    } else {
      LastRungCompletes(s.grants, userId);
    }
  }

  lemma RowsStayTwo(s: Store, a: Action, userId: string)
    requires Inv(s) && Height(s.grants, userId) == 2
    ensures Height(Step(s, a).grants, userId) == 2
  {
    StepKeepsInv(s, a);
    StepMovesByOne(s, a, userId);
    assert OnLadder(Step(s, a).grants, userId);
  }

  /** The worker that drains such a row reads after the payment. */
  lemma PaidRowRead(s: Store, a: Action, userId: string, r: nat, i: nat)
    requires Inv(s) && PaidRow(s, userId, r) && i < |Step(s, a).workers|
    requires Step(s, a).workers[i].Granting? && Step(s, a).workers[i].row == r
    ensures Height(s.grants, userId) == 2 || Step(s, a).workers[i].want == Some(Ladder(userId)[1])
  {
    var w := Step(s, a).workers[i];
    StepKeepsInv(s, a);
    assert WorkerInv(Step(s, a), w);
    HeldIsRead(s, a, i);
    assert OnLadder(s.grants, userId);
    hide OwnedRows, Wanted, OnLadder, Inv;
    if s.workers[i] != w {
      ReadAfterPayment(s.grants, userId, s.pending[r].streak);
    }
  }

  lemma PaidRowStays(s: Store, a: Action, userId: string, r: nat)
    requires Inv(s) && PaidRow(s, userId, r)
    ensures PaidRow(Step(s, a), userId, r)
  {
    StepMovesByOne(s, a, userId);
    if Height(s.grants, userId) == 2 { RowsStayTwo(s, a, userId); }
    var s' := Step(s, a);
    forall i | 0 <= i < |s'.workers| && s'.workers[i].Granting? && s'.workers[i].row == r
      ensures Height(s'.grants, userId) == 2 || s'.workers[i].want == Some(Ladder(userId)[1])
    {
      PaidRowRead(s, a, userId, r, i);
    }
    if (a.Advance? || a.Lose?) && a.id < |s.workers| && s.workers[a.id].Granting? && s.workers[a.id].row == r {
      PaidRowGranted(s, a.id, userId, r);
    }
    hide Height, Inv, OwnedRows, Wanted, Write;
  }

  lemma {:induction false} PaidRowRemains(s: Store, actions: seq<Action>, userId: string, r: nat, i: nat, t: nat)
    requires AtRest(s) && i <= t <= |actions| && PaidRow(At(s, actions, i), userId, r)
    ensures PaidRow(At(s, actions, t), userId, r)
    decreases t
  {
    hide At, PaidRow, Step, Inv, AtRest;
    if i < t {
      PaidRowRemains(s, actions, userId, r, i, t - 1);
      AtStep(s, actions, t - 1);
      AtInv(s, actions, t - 1, userId);
      PaidRowStays(At(s, actions, t - 1), actions[t - 1], userId, r);
    }
  }

  lemma {:induction false} NoneCounted<T>(s: seq<T>, counts: T -> bool, i: nat)
    requires Count(s, counts) == 0 && i < |s|
    ensures !counts(s[i])
  {
    if i < |s| - 1 { NoneCounted(s[..|s| - 1], counts, i); }
  }

  lemma {:induction false} PaidTwiceHappens(s: Store, actions: seq<Action>, userId: string, t: nat) returns (k: nat)
    requires t <= |actions| && PaidTwices(s, actions[..t], userId) > 0
    ensures k < t && PaidTwice(At(s, actions, k), actions[k], userId)
  {
    TotalsStep(s, actions, userId, t - 1);
    hide PaidTwices, At, PaidTwice;
    if PaidTwice(At(s, actions, t - 1), actions[t - 1], userId) {
      k := t - 1;
    } else {
      k := PaidTwiceHappens(s, actions, userId, t - 1);
    }
  }

  /** When nothing is left open, a streak that was paid twice has brought the whole ladder. */
  lemma PaidTwiceCompletes(s: Store, actions: seq<Action>, userId: string)
    requires AtRest(s) && Open(Run(s, actions), userId) == 0 && PaidTwices(s, actions, userId) > 0
    ensures Height(Run(s, actions).grants, userId) == 2
  {
    var t := |actions|;
    assert actions[..t] == actions && At(s, actions, t) == Run(s, actions);
    var k := PaidTwiceHappens(s, actions, userId, t);
    PaidRowAppears(s, actions, userId, k);
    var r := |At(s, actions, k).pending|;
    hide At, Run, AtRest, PaidTwices, PaidTwice;
    PaidRowRemains(s, actions, userId, r, k + 1, t);
    NoneCounted(Run(s, actions).pending, Unspent(userId), r);
  }

  /** Streaks earned against grants brought, once no request and no pending row of the user is left open.
      If none was dropped, none paid twice and no requests crossed, every streak brought its variant, up
      to the two there are.  While the ladder is incomplete at the end, that is exactly when none was
      dropped and no requests crossed: paying twice completes the ladder. */
  lemma EveryEarnedStreakPaysIff(s: Store, actions: seq<Action>, userId: string)
    requires AtRest(s) && Open(Run(s, actions), userId) == 0
    ensures var t := |actions|;
            var end, due := Height(Run(s, actions).grants, userId), Height(s.grants, userId) + Earned(s, actions, userId);
            var crossed, dropped, twice :=
              Crossed(s, actions, userId, t), Dropped(s, actions, userId, t), PaidTwices(s, actions, userId);
            && (!crossed && dropped == 0 && twice == 0 ==> end == Min(2, due))
            && (end < 2 ==> twice == 0 && (end == due <==> !crossed && dropped == 0))
  {
    hide Run, AtRest, Open, Earned, Crossed, Dropped, PaidTwices, Spent, Height;
    var t := |actions|;
    assert actions[..t] == actions;
    assert At(s, actions, t) == Run(s, actions);
    hide At;
    StreaksAreConserved(s, actions, userId, t);
    SpentBounds(s, actions, userId, t);
    EveryStreakPaysIffUncrossed(s, actions, userId);
    if PaidTwices(s, actions, userId) > 0 { PaidTwiceCompletes(s, actions, userId); }
  }

  /** A failure that is not put down loses the streak for good. */
  lemma UnrecordedFailureLosesAStreak(userId: string)
    ensures var t := Step(Step(Store({}, [], []), Submit(userId, 7)), Fail(0, false));
            t.grants == {} && t.pending == [] && Open(t, userId) == 0
  {
    var t := Step(Step(Store({}, [], []), Submit(userId, 7)), Fail(0, false));
    assert t.workers == [] + [Stopped(userId)];
    CountAppend([], Stopped(userId), Earning(userId));
  }

  /** One streak brings both variants: its unlock lands, the answer is lost, the streak is put down as
      unpaid, and the drain at the end of the same request grants the next rung. */
  lemma LostAnswerPaysTwice(userId: string)
    ensures var unlocked := Step(Step(Step(Store({}, [], []), Submit(userId, 7)), Advance(0)), Lose(0, true));
            var t := Step(Step(Step(Step(unlocked, Drain(userId, 0)), Advance(1)), Advance(1)), Advance(1));
            t.grants == {Ladder(userId)[0], Ladder(userId)[1]} && t.pending == [PendingUnlock(userId, 7, 1)]
  {
    RungsAre(userId);
    assert OwnedRows({}, userId) == Rungs(userId, 0);
    assert OwnedRows({Ladder(userId)[0]}, userId) == Rungs(userId, 1);
    WantedIsNextRung(userId, 0, 7);
    WantedIsNextRung(userId, 1, 7);
  }

  /** Crossings happen: a row left pending for a seven-day streak is drained while the submission of the
      fourteenth day unlocks; both read before either writes, and two earned streaks bring one grant. */
  lemma CrossedReadsLoseAGrant(userId: string)
    ensures var s := Store({}, [PendingUnlock(userId, 7, 0)], []);
            var reading := Step(Step(Step(Step(Step(s,
                             Drain(userId, 0)), Advance(0)), Submit(userId, 14)), Advance(0)), Advance(1));
            var t := Step(Step(reading, Advance(0)), Advance(1));
            t.grants == {Ladder(userId)[0]} && t.pending == [PendingUnlock(userId, 7, 1)]
  {
    assert OwnedRows({}, userId) == Rungs(userId, 0) by { RungsAre(userId); }
    WantedIsNextRung(userId, 0, 7);
    WantedIsNextRung(userId, 0, 14);
  }
}
