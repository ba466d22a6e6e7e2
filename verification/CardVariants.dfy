/** Streak rewards granted by concurrent requests (apps/api/src/modules/daily/daily.service.ts).
    A read and a unique-key write are one atomic step each; other requests run in between. */
module CardVariants {
  import opened Wrappers
  import opened MatchTypes
  import Cards

  const STREAK_THRESHOLD := 7

  datatype Variant = Default | Neon | Gold

  const VARIANT_ORDER: seq<Variant> := [Default, Neon, Gold]

  /** A row of user_card_variants; all three columns are the key. */
  datatype Grant = Grant(userId: string, card: CardId, variant: Variant)

  /** The first variant in order that is neither DEFAULT nor owned. */
  function FirstMissing(owned: set<Variant>, order: seq<Variant>): Option<Variant> {
    if order == [] then None
    else if order[0] != Default && order[0] !in owned then Some(order[0])
    else FirstMissing(owned, order[1..])
  }

  method NextCardVariant(owned: set<Variant>) returns (next: Option<Variant>)
    ensures next == FirstMissing(owned, VARIANT_ORDER)
  {
    for i := 0 to |VARIANT_ORDER|
      invariant FirstMissing(owned, VARIANT_ORDER) == FirstMissing(owned, VARIANT_ORDER[i..])
    {
      var key := VARIANT_ORDER[i];
      assert VARIANT_ORDER[i..][0] == key && VARIANT_ORDER[i..][1..] == VARIANT_ORDER[i + 1..];
      if key == Default { continue; }
      if key !in owned { return Some(key); }
    }
    return None;
  }

  function PickCardForVariantUnlock(c: ClassId, unlockIndex: nat): CardId {
    var pool := Cards.ClassPool(c);
    pool[unlockIndex % |pool|]
  }

  function OwnedRows(grants: set<Grant>, userId: string): set<Grant> {
    set g | g in grants && g.userId == userId
  }

  function VariantsOf(rows: set<Grant>): set<Variant> {
    set g | g in rows :: g.variant
  }

  predicate Earns(streak: int) {
    0 < streak && streak % STREAK_THRESHOLD == 0
  }

  /** The row maybeUnlockCardVariantInTx writes after reading these rows. */
  function Wanted(rows: set<Grant>, userId: string, streak: int): Option<Grant> {
    if !Earns(streak) then None
    else
      match FirstMissing(VariantsOf(rows), VARIANT_ORDER)
      case None => None
      case Some(v) => Some(Grant(userId, PickCardForVariantUnlock(Attack, |rows|), v))
  }

  // Requests.

  datatype PendingUnlock = PendingUnlock(userId: string, streak: int, commits: nat)

  datatype Worker =
    | Submitting(userId: string, streak: int)
    | Unlocking(userId: string, streak: int, want: Option<Grant>)
    | Draining(userId: string, row: nat)
    | Locked(userId: string, row: nat)
    | Granting(userId: string, row: nat, want: Option<Grant>)
    | Stopped(userId: string)

  datatype Store = Store(grants: set<Grant>, pending: seq<PendingUnlock>, workers: seq<Worker>)

  datatype Action =
    | Submit(userId: string, streak: int)
    | Drain(userId: string, row: nat)
    | Advance(id: nat)
    | Fail(id: nat, recorded: bool)
    | Lose(id: nat, recorded: bool)

  /** Some transaction holds the row's lock. */
  predicate Held(workers: seq<Worker>, row: nat) {
    exists i :: 0 <= i < |workers| && Holds(workers[i], row)
  }

  predicate Holds(w: Worker, row: nat) {
    (w.Locked? || w.Granting?) && w.row == row
  }

  function Write(grants: set<Grant>, want: Option<Grant>): set<Grant> {
    if want.Some? then grants + {want.value} else grants
  }

  function Next(s: Store, id: nat): Store
    requires id < |s.workers|
  {
    var w := s.workers[id];
    match w
    case Submitting(u, streak) =>
      s.(workers := s.workers[id := Unlocking(u, streak, Wanted(OwnedRows(s.grants, u), u, streak))])
    case Unlocking(u, _, want) =>
      s.(grants := Write(s.grants, want), workers := s.workers[id := Stopped(u)])
    case Draining(u, row) =>
      if |s.pending| <= row || s.pending[row].userId != u || s.pending[row].commits > 0 then
        s.(workers := s.workers[id := Stopped(u)])
      else if Held(s.workers, row) then s
      else s.(workers := s.workers[id := Locked(u, row)])
    case Locked(u, row) =>
      if |s.pending| <= row then s
      else
        s.(workers := s.workers[id := Granting(u, row, Wanted(OwnedRows(s.grants, u), u, s.pending[row].streak))])
    case Granting(u, row, want) =>
      if |s.pending| <= row then s
      else
        Store(
          Write(s.grants, want),
          s.pending[row := s.pending[row].(commits := s.pending[row].commits + 1)],
          s.workers[id := Stopped(u)])
    case Stopped(_) => s
  }

  /** A failed unlock leaves a pending row when that write succeeds; a failed drain rolls back. */
  function Failed(s: Store, id: nat, recorded: bool): Store
    requires id < |s.workers|
  {
    var w := s.workers[id];
    var stopped := s.(workers := s.workers[id := Stopped(w.userId)]);
    if (w.Submitting? || w.Unlocking?) && recorded then
      stopped.(pending := s.pending + [PendingUnlock(w.userId, w.streak, 0)])
    else stopped
  }

  /** The write lands but its acknowledgement is lost: an unlock is then taken to have failed, while a
      drain's transaction has committed all the same. */
  function Lost(s: Store, id: nat, recorded: bool): Store
    requires id < |s.workers|
  {
    var w := s.workers[id];
    if w.Granting? then Next(s, id)
    else Failed(if w.Unlocking? then s.(grants := Write(s.grants, w.want)) else s, id, recorded)
  }

  function Step(s: Store, a: Action): Store {
    match a
    case Submit(u, streak) => s.(workers := s.workers + [Submitting(u, streak)])
    case Drain(u, row) => s.(workers := s.workers + [Draining(u, row)])
    case Advance(id) => if id < |s.workers| then Next(s, id) else s
    case Fail(id, recorded) => if id < |s.workers| then Failed(s, id, recorded) else s
    case Lose(id, recorded) => if id < |s.workers| then Lost(s, id, recorded) else s
  }

  function Run(s: Store, actions: seq<Action>): Store {
    if actions == [] then s else Step(Run(s, actions[..|actions| - 1]), actions[|actions| - 1])
  }

  // The reward ladder.

  function Ladder(userId: string): (r: seq<Grant>)
    ensures |r| == 2 && r[0] != r[1]
  {
    [Grant(userId, CB(1), Neon), Grant(userId, CB(2), Gold)]
  }

  /** The first n rungs. */
  ghost function Rungs(userId: string, n: nat): set<Grant>
    requires n <= 2
  {
    set g | g in Ladder(userId)[..n]
  }

  lemma RungsAre(userId: string)
    ensures Rungs(userId, 0) == {}
    ensures Rungs(userId, 1) == {Ladder(userId)[0]}
    ensures Rungs(userId, 2) == {Ladder(userId)[0], Ladder(userId)[1]}
  {
    assert Ladder(userId)[..2] == Ladder(userId);
  }

  /** After reading a prefix of the ladder a request wants the next rung, if there is one. */
  lemma WantedIsNextRung(userId: string, n: nat, streak: int)
    requires n <= 2
    ensures |Rungs(userId, n)| == n
    ensures Wanted(Rungs(userId, n), userId, streak)
            == if Earns(streak) && n < 2 then Some(Ladder(userId)[n]) else None
  {
    RungsAre(userId);
    var rows := Rungs(userId, n);
    var vs := VariantsOf(rows);
    assert vs == if n == 0 then {} else if n == 1 then {Neon} else {Neon, Gold} by {
      if n >= 1 { assert Ladder(userId)[0] in rows; }
      if n == 2 { assert Ladder(userId)[1] in rows; }
    }
    assert VARIANT_ORDER[1..] == [Neon, Gold] && [Neon, Gold][1..] == [Gold] && [Gold][1..] == [];
    assert FirstMissing(vs, VARIANT_ORDER) == FirstMissing(vs, [Neon, Gold]);
    assert FirstMissing(vs, [Neon, Gold]) == if Neon !in vs then Some(Neon) else FirstMissing(vs, [Gold]);
    assert FirstMissing(vs, [Gold]) == if Gold !in vs then Some(Gold) else None;
  }

  // What every schedule keeps.

  ghost predicate OnLadder(grants: set<Grant>, userId: string) {
    |OwnedRows(grants, userId)| <= 2 && OwnedRows(grants, userId) == Rungs(userId, |OwnedRows(grants, userId)|)
  }

  /** A wanted row is a rung the user has or the next one. */
  ghost predicate WithinReach(grants: set<Grant>, userId: string, want: Option<Grant>) {
    want.Some? ==>
      exists k :: 0 <= k < 2 && k <= |OwnedRows(grants, userId)| && want.value == Ladder(userId)[k]
  }

  ghost predicate WorkerInv(s: Store, w: Worker) {
    match w
    case Unlocking(u, streak, want) => WithinReach(s.grants, u, want) && (want.Some? ==> Earns(streak))
    case Locked(u, row) => row < |s.pending| && s.pending[row].userId == u && s.pending[row].commits == 0
    case Granting(u, row, want) =>
      && row < |s.pending| && s.pending[row].userId == u && s.pending[row].commits == 0
      && WithinReach(s.grants, u, want) && (want.Some? ==> Earns(s.pending[row].streak))
    case _ => true
  }

  ghost predicate LocksExclusive(workers: seq<Worker>) {
    forall i, j, row :: 0 <= i < j < |workers| && Holds(workers[i], row) ==> !Holds(workers[j], row)
  }

  ghost predicate Inv(s: Store) {
    && (forall u :: OnLadder(s.grants, u))
    && (forall i :: 0 <= i < |s.workers| ==> WorkerInv(s, s.workers[i]))
    && LocksExclusive(s.workers)
    && (forall r :: 0 <= r < |s.pending| ==> s.pending[r].commits <= 1)
  }

  lemma AddRung(userId: string, n: nat, k: nat)
    requires n <= 2 && k < 2 && k <= n
    ensures var more := Rungs(userId, n) + {Ladder(userId)[k]};
            var m := if k < n then n else n + 1;
            more == Rungs(userId, m) && |more| == m
  {
    RungsAre(userId);
  }

  lemma WriteMovesOneUser(grants: set<Grant>, userId: string, k: nat, u: string)
    requires OnLadder(grants, u) && k < 2 && (u == userId ==> k <= |OwnedRows(grants, u)|)
    ensures var grants' := grants + {Ladder(userId)[k]};
            && OnLadder(grants', u)
            && |OwnedRows(grants, u)| <= |OwnedRows(grants', u)| <= |OwnedRows(grants, u)| + if u == userId then 1 else 0
  {
    var g := Ladder(userId)[k];
    assert g.userId == userId;
    hide Ladder, Rungs;
    if u != userId {
      assert OwnedRows(grants + {g}, u) == OwnedRows(grants, u);
    } else {
      assert OwnedRows(grants + {g}, u) == OwnedRows(grants, u) + {g};
      AddRung(u, |OwnedRows(grants, u)|, k);
    }
  }

  /** Writing a row within reach keeps every user on the ladder and moves only that user, by one rung. */
  lemma WriteKeepsLadder(grants: set<Grant>, userId: string, want: Option<Grant>)
    requires forall u :: OnLadder(grants, u)
    requires WithinReach(grants, userId, want)
    ensures forall u :: OnLadder(Write(grants, want), u)
    ensures forall u :: |OwnedRows(grants, u)| <= |OwnedRows(Write(grants, want), u)|
                        <= |OwnedRows(grants, u)| + if u == userId && want.Some? then 1 else 0
  {
    if want.Some? {
      var k :| 0 <= k < 2 && k <= |OwnedRows(grants, userId)| && want.value == Ladder(userId)[k];
      hide OnLadder, OwnedRows, Ladder;
      forall u
        ensures OnLadder(Write(grants, want), u)
        ensures |OwnedRows(grants, u)| <= |OwnedRows(Write(grants, want), u)|
        ensures |OwnedRows(Write(grants, want), u)| <= |OwnedRows(grants, u)| + if u == userId then 1 else 0
      {
        assert OnLadder(grants, u);
        WriteMovesOneUser(grants, userId, k, u);
      }
    }
  }

  lemma ReachKeeps(grants: set<Grant>, more: set<Grant>, userId: string, want: Option<Grant>)
    requires WithinReach(grants, userId, want) && |OwnedRows(grants, userId)| <= |OwnedRows(more, userId)|
    ensures WithinReach(more, userId, want)
  {
  }

  lemma ReadIsWithinReach(grants: set<Grant>, userId: string, streak: int)
    requires OnLadder(grants, userId)
    ensures var want := Wanted(OwnedRows(grants, userId), userId, streak);
            WithinReach(grants, userId, want) && (want.Some? ==> Earns(streak))
  {
    WantedIsNextRung(userId, |OwnedRows(grants, userId)|, streak);
  }

  /** A step of one worker that writes nothing and takes no lock it does not have. */
  lemma QuietStep(s: Store, id: nat, w: Worker)
    requires Inv(s) && id < |s.workers| && WorkerInv(s, w)
    requires forall row :: Holds(w, row) ==> Holds(s.workers[id], row) || !Held(s.workers, row)
    ensures Inv(s.(workers := s.workers[id := w]))
  {
    var s' := s.(workers := s.workers[id := w]);
    forall i | 0 <= i < |s'.workers| ensures WorkerInv(s', s'.workers[i]) {
      assert WorkerInv(s, s'.workers[i]);
    }
  }

  /** A worker finishes by writing, and in a drain marks its pending row. */
  lemma WriteStep(s: Store, id: nat, pending: seq<PendingUnlock>)
    requires Inv(s) && id < |s.workers|
    requires var w := s.workers[id];
             || (w.Unlocking? && pending == s.pending)
             || (w.Granting? && w.row < |s.pending|
                 && pending == s.pending[w.row := s.pending[w.row].(commits := s.pending[w.row].commits + 1)])
    ensures Inv(Store(Write(s.grants, s.workers[id].want), pending, s.workers[id := Stopped(s.workers[id].userId)]))
  {
    var w := s.workers[id];
    var s' := Store(Write(s.grants, w.want), pending, s.workers[id := Stopped(w.userId)]);
    assert WorkerInv(s, w);
    WriteKeepsLadder(s.grants, w.userId, w.want);
    forall i | 0 <= i < |s'.workers| ensures WorkerInv(s', s'.workers[i]) {
      if i != id {
        var v := s.workers[i];
        assert WorkerInv(s, v);
        if v.Unlocking? || v.Granting? { ReachKeeps(s.grants, s'.grants, v.userId, v.want); }
        assert w.Granting? ==> Holds(w, w.row) && !Holds(v, w.row);
      }
    }
  }

  lemma NextKeepsInv(s: Store, id: nat)
    requires Inv(s) && id < |s.workers|
    ensures Inv(Next(s, id))
  {
    var w := s.workers[id];
    assert WorkerInv(s, w);
    assert OnLadder(s.grants, w.userId);
    match w
    case Submitting(u, streak) =>
      ReadIsWithinReach(s.grants, u, streak);
      QuietStep(s, id, Unlocking(u, streak, Wanted(OwnedRows(s.grants, u), u, streak)));
    case Unlocking(u, _, want) => WriteStep(s, id, s.pending);
    case Draining(u, row) =>
      if |s.pending| <= row || s.pending[row].userId != u || s.pending[row].commits > 0 {
        QuietStep(s, id, Stopped(u));
      } else if !Held(s.workers, row) {
        QuietStep(s, id, Locked(u, row));
      }
    case Locked(u, row) =>
      ReadIsWithinReach(s.grants, u, s.pending[row].streak);
      assert Holds(w, row);
      QuietStep(s, id, Granting(u, row, Wanted(OwnedRows(s.grants, u), u, s.pending[row].streak)));
    case Granting(u, row, want) =>
      WriteStep(s, id, s.pending[row := s.pending[row].(commits := s.pending[row].commits + 1)]);
    case Stopped(_) =>
  }

  lemma FailKeepsInv(s: Store, id: nat, recorded: bool)
    requires Inv(s) && id < |s.workers|
    ensures Inv(Failed(s, id, recorded))
  {
    var w := s.workers[id];
    QuietStep(s, id, Stopped(w.userId));
    var stopped := s.(workers := s.workers[id := Stopped(w.userId)]);
    var s' := Failed(s, id, recorded);
    forall i | 0 <= i < |s'.workers| ensures WorkerInv(s', s'.workers[i]) {
      assert WorkerInv(stopped, s'.workers[i]);
    }
  }

  lemma RecordKeepsInv(s: Store, p: PendingUnlock)
    requires Inv(s) && p.commits == 0
    ensures Inv(s.(pending := s.pending + [p]))
  {
    var s' := s.(pending := s.pending + [p]);
    forall i | 0 <= i < |s'.workers| ensures WorkerInv(s', s'.workers[i]) {
      assert WorkerInv(s, s.workers[i]);
    }
  }

  lemma LoseKeepsInv(s: Store, id: nat, recorded: bool)
    requires Inv(s) && id < |s.workers|
    ensures Inv(Lost(s, id, recorded))
  {
    var w := s.workers[id];
    if w.Granting? {
      NextKeepsInv(s, id);
    } else if w.Unlocking? {
      WriteStep(s, id, s.pending);
      RecordKeepsInv(Next(s, id), PendingUnlock(w.userId, w.streak, 0));
    } else {
      FailKeepsInv(s, id, recorded);
    }
  }

  lemma StepKeepsInv(s: Store, a: Action)
    requires Inv(s)
    ensures Inv(Step(s, a))
  {
    match a
    case Advance(id) => if id < |s.workers| { NextKeepsInv(s, id); }
    case Fail(id, recorded) => if id < |s.workers| { FailKeepsInv(s, id, recorded); }
    case Lose(id, recorded) => if id < |s.workers| { LoseKeepsInv(s, id, recorded); }
    case Submit(u, streak) => JoinKeepsInv(s, Submitting(u, streak));
    case Drain(u, row) => JoinKeepsInv(s, Draining(u, row));
  }

  lemma JoinKeepsInv(s: Store, w: Worker)
    requires Inv(s) && (w.Submitting? || w.Draining?)
    ensures Inv(s.(workers := s.workers + [w]))
  {
    var s' := s.(workers := s.workers + [w]);
    forall i | 0 <= i < |s'.workers| ensures WorkerInv(s', s'.workers[i]) {
      if i < |s.workers| { assert WorkerInv(s, s.workers[i]); }
    }
  }

  // Every grant is paid for by one earned streak.

  function Count<T>(s: seq<T>, counts: T -> bool): nat {
    if s == [] then 0 else Count(s[..|s| - 1], counts) + if counts(s[|s| - 1]) then 1 else 0
  }

  lemma {:induction false} CountUpdate<T>(s: seq<T>, i: nat, x: T, counts: T -> bool)
    requires i < |s|
    ensures Count(s[i := x], counts) + (if counts(s[i]) then 1 else 0) == Count(s, counts) + if counts(x) then 1 else 0
  {
    var n := |s| - 1;
    var t := s[i := x];
    if i < n {
      CountUpdate(s[..n], i, x, counts);
      assert t[..n] == s[..n][i := x];
    } else {
      assert t[..n] == s[..n];
    }
  }

  lemma CountAppend<T>(s: seq<T>, x: T, counts: T -> bool)
    ensures Count(s + [x], counts) == Count(s, counts) + if counts(x) then 1 else 0
  {
    assert (s + [x])[..|s|] == s;
  }

  /** A pending row that can still bring the user a grant. */
  function Unspent(userId: string): PendingUnlock -> bool {
    (p: PendingUnlock) => p.userId == userId && p.commits == 0 && Earns(p.streak)
  }

  function Earning(userId: string): Worker -> bool {
    (w: Worker) => (w.Submitting? || w.Unlocking?) && w.userId == userId && Earns(w.streak)
  }

  /** What the user has and what the running requests may still bring. */
  function Credit(s: Store, userId: string): nat {
    |OwnedRows(s.grants, userId)| + Count(s.pending, Unspent(userId)) + Count(s.workers, Earning(userId))
  }

  predicate EarningSubmit(a: Action, userId: string) {
    a.Submit? && a.userId == userId && Earns(a.streak)
  }

  function EarningSubmits(actions: seq<Action>, userId: string): nat {
    Count(actions, (a: Action) => EarningSubmit(a, userId))
  }

  /** An earned unlock whose write lands, is thought to have failed and is put down to be drained. */
  predicate PaidTwice(s: Store, a: Action, userId: string) {
    && a.Lose? && a.recorded && a.id < |s.workers|
    && s.workers[a.id].Unlocking? && s.workers[a.id].userId == userId && Earns(s.workers[a.id].streak)
  }

  function PaidTwices(s: Store, actions: seq<Action>, userId: string): nat {
    if actions == [] then 0
    else
      var n := |actions| - 1;
      PaidTwices(s, actions[..n], userId) + if PaidTwice(Run(s, actions[..n]), actions[n], userId) then 1 else 0
  }

  lemma NextSpendsCredit(s: Store, id: nat, userId: string)
    requires Inv(s) && id < |s.workers|
    ensures Credit(Next(s, id), userId) <= Credit(s, userId)
    ensures |OwnedRows(s.grants, userId)| <= |OwnedRows(Next(s, id).grants, userId)|
  {
    var w := s.workers[id];
    var s' := Next(s, id);
    assert WorkerInv(s, w);
    CountUpdate(s.workers, id, s'.workers[id], Earning(userId));
    if w.Unlocking? || w.Granting? { WriteKeepsLadder(s.grants, w.userId, w.want); }
    if w.Granting? { CountUpdate(s.pending, w.row, s'.pending[w.row], Unspent(userId)); }
  }

  lemma FailSpendsCredit(s: Store, id: nat, recorded: bool, userId: string)
    requires id < |s.workers|
    ensures Credit(Failed(s, id, recorded), userId) <= Credit(s, userId)
  {
    var w := s.workers[id];
    CountUpdate(s.workers, id, Stopped(w.userId), Earning(userId));
    if w.Submitting? || w.Unlocking? { CountAppend(s.pending, PendingUnlock(w.userId, w.streak, 0), Unspent(userId)); }
  }

  lemma LoseSpendsCredit(s: Store, id: nat, recorded: bool, userId: string)
    requires Inv(s) && id < |s.workers|
    ensures Credit(Lost(s, id, recorded), userId)
            <= Credit(s, userId) + if PaidTwice(s, Lose(id, recorded), userId) then 1 else 0
    ensures |OwnedRows(s.grants, userId)| <= |OwnedRows(Lost(s, id, recorded).grants, userId)|
  {
    var w := s.workers[id];
    if w.Unlocking? {
      NextSpendsCredit(s, id, userId);
      CountAppend(s.pending, PendingUnlock(w.userId, w.streak, 0), Unspent(userId));
    } else if w.Granting? {
      NextSpendsCredit(s, id, userId);
    } else {
      FailSpendsCredit(s, id, recorded, userId);
    }
  }

  lemma StepSpendsCredit(s: Store, a: Action, userId: string)
    requires Inv(s)
    ensures Credit(Step(s, a), userId)
            <= Credit(s, userId) + (if EarningSubmit(a, userId) then 1 else 0) + if PaidTwice(s, a, userId) then 1 else 0
    ensures |OwnedRows(s.grants, userId)| <= |OwnedRows(Step(s, a).grants, userId)|
  {
    match a
    case Advance(id) => if id < |s.workers| { NextSpendsCredit(s, id, userId); }
    case Fail(id, recorded) => if id < |s.workers| { FailSpendsCredit(s, id, recorded, userId); }
    case Lose(id, recorded) => if id < |s.workers| { LoseSpendsCredit(s, id, recorded, userId); }
    case Submit(u, streak) => CountAppend(s.workers, Submitting(u, streak), Earning(userId));
    case Drain(u, row) => CountAppend(s.workers, Draining(u, row), Earning(userId));
  }

  /** The stores a run may start from: no request in flight, every user on the ladder. */
  ghost predicate AtRest(s: Store) {
    && s.workers == []
    && (forall u :: OnLadder(s.grants, u))
    && (forall r :: 0 <= r < |s.pending| ==> s.pending[r].commits <= 1)
  }

  lemma {:induction false} RunKeepsInv(s: Store, actions: seq<Action>, userId: string)
    requires AtRest(s)
    ensures Inv(Run(s, actions))
    ensures Credit(Run(s, actions), userId)
            <= Credit(s, userId) + EarningSubmits(actions, userId) + PaidTwices(s, actions, userId)
    ensures |OwnedRows(s.grants, userId)| <= |OwnedRows(Run(s, actions).grants, userId)|
  {
    if actions != [] {
      var n := |actions| - 1;
      RunKeepsInv(s, actions[..n], userId);
      StepKeepsInv(Run(s, actions[..n]), actions[n]);
      StepSpendsCredit(Run(s, actions[..n]), actions[n], userId);
    }
  }

  /** Whatever requests run, fail and interleave: a user's rows are a prefix of (CB-1, NEON),
      (CB-2, GOLD) that never shrinks, no larger than the streaks earned allow (a streak paid and
      then put down as unpaid counting twice), and no pending row is consumed twice. */
  lemma EveryScheduleClimbsLadder(s: Store, actions: seq<Action>, userId: string)
    requires AtRest(s)
    ensures var t := Run(s, actions);
            var n := |OwnedRows(t.grants, userId)|;
            && |OwnedRows(s.grants, userId)| <= n <= 2
            && OwnedRows(t.grants, userId) == Rungs(userId, n)
            && n <= |OwnedRows(s.grants, userId)| + Count(s.pending, Unspent(userId))
                      + EarningSubmits(actions, userId) + PaidTwices(s, actions, userId)
            && forall r :: 0 <= r < |t.pending| ==> t.pending[r].commits <= 1
  {
    RunKeepsInv(s, actions, userId);
    assert OnLadder(Run(s, actions).grants, userId);
  }
}
