/** Concurrent publication of daily question sets (apps/api/prisma/seed-daily.ts).
    A database call is one atomic step; between two calls of one seeder any other may run. */
module DailySeed {
  import opened Wrappers
  import CanonicalJson

  type Payload = CanonicalJson.Value

  const MAX_PUBLISH_RETRIES := 5

  /** The unique key of a published row. */
  datatype Key = Key(dateKey: string, version: int)

  type Table = map<Key, Payload>

  datatype Row = Row(version: int, questions: Payload)

  /** What a call reports; Unacknowledged reports nothing: its insert committed, but the answer was lost
      and the seeder died of the error. */
  datatype Outcome = Created | Versioned | Unchanged | Skipped | Unacknowledged

  datatype Phase =
    | Reading(attempt: nat)
    | Deciding(attempt: nat, latest: Option<Row>)
    | Done(outcome: Outcome, version: int)
    | GaveUp
    | Crashed

  /** One call of upsertDay. */
  datatype Seeder = Seeder(dateKey: string, questions: Payload, overwrite: bool, phase: Phase)

  datatype System = System(table: Table, seeders: seq<Seeder>)

  /** Crash: the next database call fails.  Lose: it takes effect, but its answer is lost. */
  datatype Action = Advance(id: nat) | Crash(id: nat) | Lose(id: nat)

  ghost predicate IsNewest(t: Table, d: string, v: int) {
    Key(d, v) in t && forall w :: Key(d, w) in t ==> w <= v
  }

  /** `findFirst` by date, newest version first. */
  ghost function Latest(t: Table, d: string): Option<Row> {
    if exists v :: IsNewest(t, d, v) then
      var v :| IsNewest(t, d, v);
      Some(Row(v, t[Key(d, v)]))
    else None
  }

  function NextVersion(latest: Option<Row>): int {
    if latest.Some? then latest.value.version + 1 else 1
  }

  ghost function Step(s: System, a: Action): System {
    if |s.seeders| <= a.id then s
    else
      var me := s.seeders[a.id];
      if !me.phase.Reading? && !me.phase.Deciding? then s
      else if a.Lose? && me.phase.Deciding? && Inserts(s.table, me, me.phase.latest) then
        var key := Key(me.dateKey, NextVersion(me.phase.latest));
        System(s.table[key := me.questions], s.seeders[a.id := me.(phase := Done(Unacknowledged, key.version))])
      else if !a.Advance? then s.(seeders := s.seeders[a.id := me.(phase := Crashed)])
      else
        match me.phase
        case Deciding(attempt, latest) => Decide(s, a.id, me, attempt, latest)
        case Reading(attempt) =>
          var next := if attempt >= MAX_PUBLISH_RETRIES then GaveUp else Deciding(attempt, Latest(s.table, me.dateKey));
          s.(seeders := s.seeders[a.id := me.(phase := next)])
  }

  /** The decision is to insert, and the version is free. */
  predicate Inserts(t: Table, me: Seeder, latest: Option<Row>) {
    && (latest.Some? ==> !CanonicalJson.IsSamePayload(latest.value.questions, me.questions) && me.overwrite)
    && Key(me.dateKey, NextVersion(latest)) !in t
  }

  ghost function Decide(s: System, id: nat, me: Seeder, attempt: nat, latest: Option<Row>): System
    requires id < |s.seeders|
  {
    var key := Key(me.dateKey, NextVersion(latest));
    if latest.Some? && CanonicalJson.IsSamePayload(latest.value.questions, me.questions) then
      s.(seeders := s.seeders[id := me.(phase := Done(Unchanged, latest.value.version))])
    else if latest.Some? && !me.overwrite then
      s.(seeders := s.seeders[id := me.(phase := Done(Skipped, latest.value.version))])
    else if key in s.table then
      s.(seeders := s.seeders[id := me.(phase := Reading(attempt + 1))])
    else
      System(
        s.table[key := me.questions],
        s.seeders[id := me.(phase := Done(if latest.Some? then Versioned else Created, key.version))])
  }

  ghost function Run(s: System, actions: seq<Action>): System {
    if actions == [] then s else Step(Run(s, actions[..|actions| - 1]), actions[|actions| - 1])
  }

  // What every schedule keeps.

  /** The versions of a date are exactly 1..n. */
  ghost predicate Versions(t: Table, d: string, n: nat) {
    forall v :: Key(d, v) in t <==> 1 <= v <= n
  }

  ghost predicate HasVersions(t: Table, d: string) {
    exists n :: Versions(t, d, n)
  }

  ghost predicate Dense(t: Table) {
    forall d :: HasVersions(t, d)
  }

  ghost function Head(t: Table, d: string): (n: nat)
    requires Dense(t)
    ensures Versions(t, d, n)
  {
    assert HasVersions(t, d);
    var n :| Versions(t, d, n);
    n
  }

  lemma HeadIs(t: Table, d: string, n: nat)
    requires Dense(t) && Versions(t, d, n)
    ensures Head(t, d) == n
  {
    var m := Head(t, d);
    assert n >= 1 ==> Key(d, n) in t;
    assert m >= 1 ==> Key(d, m) in t;
  }

  /** No version repeats the payload of the one before it. */
  ghost predicate NoRepeats(t: Table) {
    forall d, v :: Key(d, v) in t && Key(d, v - 1) in t ==>
      !CanonicalJson.IsSamePayload(t[Key(d, v - 1)], t[Key(d, v)])
  }

  predicate Published(s: Seeder, d: string) {
    s.dateKey == d && s.phase.Done? && s.phase.outcome != Unchanged && s.phase.outcome != Skipped
  }

  function Publications(seeders: seq<Seeder>, d: string): nat {
    if seeders == [] then 0
    else
      Publications(seeders[..|seeders| - 1], d) + if Published(seeders[|seeders| - 1], d) then 1 else 0
  }

  lemma {:induction false} PublicationsUpdate(seeders: seq<Seeder>, id: nat, s: Seeder, d: string)
    requires id < |seeders|
    ensures Publications(seeders[id := s], d)
            == Publications(seeders, d) - (if Published(seeders[id], d) then 1 else 0) + if Published(s, d) then 1 else 0
  {
    var n := |seeders| - 1;
    var updated := seeders[id := s];
    if id < n {
      PublicationsUpdate(seeders[..n], id, s, d);
      assert updated[..n] == seeders[..n][id := s];
    } else {
      assert updated[..n] == seeders[..n];
    }
  }

  ghost predicate RowIsThere(t: Table, d: string, row: Row) {
    Key(d, row.version) in t && t[Key(d, row.version)] == row.questions
  }

  /** What a seeder knows about the table; base is the newest version when it started. */
  ghost predicate Knows(t: Table, s: Seeder, base: nat)
    requires Dense(t)
  {
    match s.phase
    case Reading(attempt) => base + attempt <= Head(t, s.dateKey)
    case Deciding(attempt, latest) =>
      && (latest.Some? ==> RowIsThere(t, s.dateKey, latest.value))
      && base + attempt < NextVersion(latest)
    case Done(outcome, version) =>
      && Key(s.dateKey, version) in t
      && (outcome != Skipped && outcome != Unchanged ==> base < version && t[Key(s.dateKey, version)] == s.questions)
      && (outcome == Unchanged ==> CanonicalJson.IsSamePayload(t[Key(s.dateKey, version)], s.questions))
    case GaveUp => base + MAX_PUBLISH_RETRIES <= Head(t, s.dateKey)
    case Crashed => true
  }

  ghost predicate Inv(start: Table, s: System)
    requires Dense(start)
  {
    && Dense(s.table)
    && NoRepeats(s.table)
    && (forall k :: k in start ==> k in s.table && s.table[k] == start[k])
    && (forall d :: Head(s.table, d) == Head(start, d) + Publications(s.seeders, d))
    && (forall i :: 0 <= i < |s.seeders| ==> Knows(s.table, s.seeders[i], Head(start, s.seeders[i].dateKey)))
    && ForeverDistinct(s.seeders)
  }

  /** Two publications of one date carry different versions. */
  ghost predicate ForeverDistinct(seeders: seq<Seeder>) {
    forall i, j, d :: 0 <= i < j < |seeders| && Published(seeders[i], d) && Published(seeders[j], d) ==>
      seeders[i].phase.version != seeders[j].phase.version
  }

  lemma LatestIsHead(t: Table, d: string)
    requires Dense(t)
    ensures Latest(t, d) == if Head(t, d) == 0 then None else Some(Row(Head(t, d), t[Key(d, Head(t, d))]))
  {
    var n := Head(t, d);
    if n == 0 {
      assert forall v :: Key(d, v) !in t;
    } else {
      assert IsNewest(t, d, n);
      assert forall v :: IsNewest(t, d, v) ==> v == n;
    }
  }

  /** A step that changes one seeder's knowledge and nothing in the table. */
  lemma QuietStep(start: Table, s: System, id: nat, me: Seeder)
    requires Dense(start) && Inv(start, s) && id < |s.seeders|
    requires me.dateKey == s.seeders[id].dateKey && !s.seeders[id].phase.Done?
    requires forall d :: !Published(me, d)
    requires Knows(s.table, me, Head(start, me.dateKey))
    ensures Inv(start, s.(seeders := s.seeders[id := me]))
  {
    var s' := s.(seeders := s.seeders[id := me]);
    forall d ensures Publications(s'.seeders, d) == Publications(s.seeders, d) {
      PublicationsUpdate(s.seeders, id, me, d);
    }
  }

  lemma AppendKeepsDense(t: Table, key: Key, q: Payload)
    requires Dense(t) && key.version == Head(t, key.dateKey) + 1
    ensures Dense(t[key := q])
    ensures forall d :: Head(t[key := q], d) == Head(t, d) + if d == key.dateKey then 1 else 0
  {
    var t' := t[key := q];
    forall d ensures Versions(t', d, Head(t, d) + if d == key.dateKey then 1 else 0) && HasVersions(t', d) {
      assert Versions(t, d, Head(t, d));
      assert Versions(t', d, Head(t, d) + if d == key.dateKey then 1 else 0);
    }
    forall d ensures Head(t', d) == Head(t, d) + if d == key.dateKey then 1 else 0 {
      HeadIs(t', d, Head(t, d) + if d == key.dateKey then 1 else 0);
    }
  }

  /** A free next version can only be the one after the head: the row read is the newest one. */
  lemma FreeKeyIsNext(t: Table, me: Seeder, base: nat)
    requires Dense(t) && Knows(t, me, base) && me.phase.Deciding?
    ensures var key := Key(me.dateKey, NextVersion(me.phase.latest));
            if key in t then base + me.phase.attempt + 1 <= Head(t, me.dateKey)
            else key.version == Head(t, me.dateKey) + 1
  {
    var n, v := Head(t, me.dateKey), NextVersion(me.phase.latest);
    assert Key(me.dateKey, v) in t <==> 1 <= v <= n;
    assert v == 1 || Key(me.dateKey, v - 1) in t;
  }

  lemma PublishKeepsRows(t: Table, me: Seeder, base: nat)
    requires Dense(t) && NoRepeats(t) && Knows(t, me, base) && me.phase.Deciding?
    requires Key(me.dateKey, NextVersion(me.phase.latest)) !in t
    requires me.phase.latest.Some? ==> !CanonicalJson.IsSamePayload(me.phase.latest.value.questions, me.questions)
    ensures NoRepeats(t[Key(me.dateKey, NextVersion(me.phase.latest)) := me.questions])
  {
    var key := Key(me.dateKey, NextVersion(me.phase.latest));
    var t' := t[key := me.questions];
    FreeKeyIsNext(t, me, base);
    assert Key(me.dateKey, key.version + 1) !in t;
    forall d, v | Key(d, v) in t' && Key(d, v - 1) in t'
      ensures !CanonicalJson.IsSamePayload(t'[Key(d, v - 1)], t'[Key(d, v)])
    {
      if Key(d, v) == key {
        assert me.phase.latest.Some?;
      } else {
        assert Key(d, v - 1) != key;
        assert Key(d, v) in t && Key(d, v - 1) in t;
      }
    }
  }

  /** What a seeder knows survives another one's publication. */
  lemma KnowledgeKeeps(t: Table, key: Key, q: Payload, s: Seeder, base: nat)
    requires Dense(t) && key.version == Head(t, key.dateKey) + 1 && Knows(t, s, base)
    ensures Dense(t[key := q]) && Knows(t[key := q], s, base)
  {
    AppendKeepsDense(t, key, q);
    assert key !in t;
  }

  lemma PublicationStaysDistinct(t: Table, seeders: seq<Seeder>, id: nat, me: Seeder)
    requires Dense(t) && id < |seeders| && ForeverDistinct(seeders)
    requires me.phase.Done? && me.phase.version == Head(t, me.dateKey) + 1
    requires forall i :: 0 <= i < |seeders| && seeders[i].phase.Done? ==> Key(seeders[i].dateKey, seeders[i].phase.version) in t
    ensures ForeverDistinct(seeders[id := me])
  {
    assert Key(me.dateKey, me.phase.version) !in t;
    forall i, d | 0 <= i < |seeders| && i != id && Published(seeders[i], d) && Published(me, d)
      ensures seeders[i].phase.version != me.phase.version
    {
      assert Key(seeders[i].dateKey, seeders[i].phase.version) in t;
    }
  }

  lemma PublishStep(start: Table, s: System, id: nat, outcome: Outcome)
    requires outcome != Unchanged && outcome != Skipped
    requires Dense(start) && Inv(start, s) && id < |s.seeders|
    requires var me := s.seeders[id];
             && me.phase.Deciding?
             && Key(me.dateKey, NextVersion(me.phase.latest)) !in s.table
             && (me.phase.latest.Some? ==> !CanonicalJson.IsSamePayload(me.phase.latest.value.questions, me.questions))
    ensures var me := s.seeders[id];
            var key := Key(me.dateKey, NextVersion(me.phase.latest));
            var done := me.(phase := Done(outcome, key.version));
            Inv(start, System(s.table[key := me.questions], s.seeders[id := done]))
  {
    var me, t := s.seeders[id], s.table;
    var base := Head(start, me.dateKey);
    var key := Key(me.dateKey, NextVersion(me.phase.latest));
    var done := me.(phase := Done(outcome, key.version));
    var t', seeders' := t[key := me.questions], s.seeders[id := done];
    FreeKeyIsNext(t, me, base);
    PublishKeepsRows(t, me, base);
    AppendKeepsDense(t, key, me.questions);
    PublicationStaysDistinct(t, s.seeders, id, done);
    forall d ensures Head(t', d) == Head(start, d) + Publications(seeders', d) {
      PublicationsUpdate(s.seeders, id, done, d);
    }
    forall i | 0 <= i < |seeders'| ensures Knows(t', seeders'[i], Head(start, seeders'[i].dateKey)) {
      if i != id { KnowledgeKeeps(t, key, me.questions, s.seeders[i], Head(start, s.seeders[i].dateKey)); }
    }
  }

  lemma ReadStep(start: Table, s: System, id: nat)
    requires Dense(start) && Inv(start, s) && id < |s.seeders| && s.seeders[id].phase.Reading?
    ensures Inv(start, Step(s, Advance(id)))
  {
    var me := s.seeders[id];
    var attempt := me.phase.attempt;
    LatestIsHead(s.table, me.dateKey);
    var next := if attempt >= MAX_PUBLISH_RETRIES then GaveUp else Deciding(attempt, Latest(s.table, me.dateKey));
    QuietStep(start, s, id, me.(phase := next));
  }

  lemma DecideStep(start: Table, s: System, id: nat)
    requires Dense(start) && Inv(start, s) && id < |s.seeders| && s.seeders[id].phase.Deciding?
    ensures Inv(start, Step(s, Advance(id)))
  {
    var me := s.seeders[id];
    var latest := me.phase.latest;
    var base := Head(start, me.dateKey);
    FreeKeyIsNext(s.table, me, base);
    if latest.Some? && CanonicalJson.IsSamePayload(latest.value.questions, me.questions) {
      QuietStep(start, s, id, me.(phase := Done(Unchanged, latest.value.version)));
    } else if latest.Some? && !me.overwrite {
      QuietStep(start, s, id, me.(phase := Done(Skipped, latest.value.version)));
    } else if Key(me.dateKey, NextVersion(latest)) in s.table {
      QuietStep(start, s, id, me.(phase := Reading(me.phase.attempt + 1)));
    } else {
      PublishStep(start, s, id, if latest.Some? then Versioned else Created);
    }
  }

  lemma LoseStep(start: Table, s: System, id: nat)
    requires Dense(start) && Inv(start, s) && id < |s.seeders|
    ensures Inv(start, Step(s, Lose(id)))
  {
    var me := s.seeders[id];
    if me.phase.Deciding? && Inserts(s.table, me, me.phase.latest) {
      PublishStep(start, s, id, Unacknowledged);
    } else if me.phase.Reading? || me.phase.Deciding? {
      QuietStep(start, s, id, me.(phase := Crashed));
    }
  }

  lemma CrashStep(start: Table, s: System, id: nat)
    requires Dense(start) && Inv(start, s) && id < |s.seeders|
    ensures Inv(start, Step(s, Crash(id)))
  {
    var me := s.seeders[id];
    if me.phase.Reading? || me.phase.Deciding? { QuietStep(start, s, id, me.(phase := Crashed)); }
  }

  lemma StepKeepsInv(start: Table, s: System, a: Action)
    requires Dense(start) && Inv(start, s)
    ensures Inv(start, Step(s, a))
  {
    if a.id < |s.seeders| {
      match a
      case Crash(id) => CrashStep(start, s, id);
      case Lose(id) => LoseStep(start, s, id);
      case Advance(id) =>
        if s.seeders[id].phase.Reading? {
          ReadStep(start, s, id);
        } else if s.seeders[id].phase.Deciding? {
          DecideStep(start, s, id);
        }
    }
  }

  /** A system in which every seeder is about to read for the first time. */
  ghost predicate Fresh(s: System) {
    && Dense(s.table) && NoRepeats(s.table)
    && forall i :: 0 <= i < |s.seeders| ==> s.seeders[i].phase == Reading(0)
  }

  lemma {:induction false} NonePublished(seeders: seq<Seeder>, d: string)
    requires forall i :: 0 <= i < |seeders| ==> !seeders[i].phase.Done?
    ensures Publications(seeders, d) == 0
  {
    if seeders != [] { NonePublished(seeders[..|seeders| - 1], d); }
  }

  lemma FreshInv(s: System)
    requires Fresh(s)
    ensures Inv(s.table, s)
  {
    forall d ensures Publications(s.seeders, d) == 0 { NonePublished(s.seeders, d); }
  }

  lemma {:induction false} RunKeepsInv(s: System, actions: seq<Action>)
    requires Fresh(s)
    ensures Inv(s.table, Run(s, actions))
  {
    if actions == [] {
      FreshInv(s);
    } else {
      RunKeepsInv(s, actions[..|actions| - 1]);
      StepKeepsInv(s.table, Run(s, actions[..|actions| - 1]), actions[|actions| - 1]);
    }
  }

  /** Any number of seeders, interleaved in any way, crashing anywhere and losing answers anywhere: no
      published row is ever changed or lost, a date's versions are exactly 1..n, n grows by one for
      each seeder whose insert took effect, and no version repeats the payload it replaces. */
  lemma EveryScheduleAppends(s: System, actions: seq<Action>, d: string)
    requires Fresh(s)
    ensures var t := Run(s, actions).table;
            && (forall k :: k in s.table ==> k in t && t[k] == s.table[k])
            && Versions(t, d, Head(s.table, d) + Publications(Run(s, actions).seeders, d))
            && (forall v :: 1 < v && Key(d, v) in t && Key(d, v - 1) in t ==>
                  !CanonicalJson.IsSamePayload(t[Key(d, v - 1)], t[Key(d, v)]))
  {
    RunKeepsInv(s, actions);
    var t := Run(s, actions).table;
    assert Versions(t, d, Head(t, d));
  }

  /** What a finished seeder reports is true of the table, now and after every later step: its
      own questions stand under a version no other seeder published, or an equal payload does. */
  lemma EveryReportIsTrue(s: System, actions: seq<Action>, i: nat, j: nat)
    requires Fresh(s) && i < |Run(s, actions).seeders| && j < |Run(s, actions).seeders|
    requires Run(s, actions).seeders[i].phase.Done?
    ensures var r := Run(s, actions);
            var me := r.seeders[i];
            var key := Key(me.dateKey, me.phase.version);
            && key in r.table
            && (me.phase.outcome == Unchanged ==> CanonicalJson.IsSamePayload(r.table[key], me.questions))
            && (Published(me, me.dateKey) ==> key !in s.table && r.table[key] == me.questions)
            && (i != j && Published(me, me.dateKey) && Published(r.seeders[j], me.dateKey) ==>
                  r.seeders[j].phase.version != me.phase.version)
  {
    RunKeepsInv(s, actions);
    var r := Run(s, actions);
    var me := r.seeders[i];
    assert Knows(r.table, me, Head(s.table, me.dateKey));
    assert Versions(s.table, me.dateKey, Head(s.table, me.dateKey));
  }

  /** A seeder gives up on a date only after five others have published it meanwhile. */
  lemma GivingUpTakesFivePublications(s: System, actions: seq<Action>, i: nat)
    requires Fresh(s) && i < |Run(s, actions).seeders| && Run(s, actions).seeders[i].phase == GaveUp
    ensures Publications(Run(s, actions).seeders, Run(s, actions).seeders[i].dateKey) >= MAX_PUBLISH_RETRIES
  {
    RunKeepsInv(s, actions);
    var r := Run(s, actions);
    assert Knows(r.table, r.seeders[i], Head(s.table, r.seeders[i].dateKey));
  }

  lemma ReadsHead(t: Table, d: string)
    requires Dense(t)
    ensures var n := Head(t, d);
            && Versions(t, d, n)
            && (if n == 0 then Latest(t, d) == None else Key(d, n) in t && Latest(t, d) == Some(Row(n, t[Key(d, n)])))
  {
    LatestIsHead(t, d);
  }

  /** A seeder that nobody interrupts publishes the first set of a date, leaves an equal set or, unless told
      to overwrite, any set alone, and otherwise publishes the next version; it reports which it did. */
  lemma UninterruptedSeederPublishes(s: System, id: nat)
    requires Dense(s.table) && id < |s.seeders|
    requires s.seeders[id].phase.Reading? && s.seeders[id].phase.attempt < MAX_PUBLISH_RETRIES
    ensures var me, r := s.seeders[id], Step(Step(s, Advance(id)), Advance(id));
            var n := Head(s.table, me.dateKey);
            var same := n > 0 && Key(me.dateKey, n) in s.table
                        && CanonicalJson.IsSamePayload(s.table[Key(me.dateKey, n)], me.questions);
            && |r.seeders| == |s.seeders|
            && r.seeders[id].phase
                 == (if n == 0 then Done(Created, 1) else if same then Done(Unchanged, n)
                     else if !me.overwrite then Done(Skipped, n) else Done(Versioned, n + 1))
            && r.table == if n == 0 || (!same && me.overwrite) then s.table[Key(me.dateKey, n + 1) := me.questions] else s.table
  {
    hide Latest, CanonicalJson.IsSamePayload, Dense;
    var me := s.seeders[id];
    ReadsHead(s.table, me.dateKey);
    var read := Step(s, Advance(id));
    assert read.seeders[id] == me.(phase := Deciding(me.phase.attempt, Latest(s.table, me.dateKey)));
  }

  /** One that finds its version taken reads again; nothing is written. */
  lemma ConflictRetries(s: System, id: nat)
    requires id < |s.seeders| && s.seeders[id].phase.Deciding?
    requires var me := s.seeders[id];
             var latest := me.phase.latest;
             && Key(me.dateKey, NextVersion(latest)) in s.table
             && (latest.Some? ==> me.overwrite && !CanonicalJson.IsSamePayload(latest.value.questions, me.questions))
    ensures var r := Step(s, Advance(id));
            r.table == s.table && r.seeders[id].phase == Reading(s.seeders[id].phase.attempt + 1)
  {
  }
}
