// Every interleaving of request tasks, the flush worker, failures and crashes.

module Delivery {
  import opened Domain
  import opened RowOrder
  import opened AttemptStore
  import opened UsageSpool

  datatype Worker =
    | Idle
    | Delivering(batch: seq<SpoolEntry>, acknowledged: nat, stopped: bool)

  /** The durable stores, the volatile tasks, and the history the properties speak about. */
  datatype World = World(
    clock: int,
    primary: AttemptTable,
    spool: seq<SpoolEntry>,
    inFlight: set<AttemptRecord>,  // the primary answered with an error, the spool append is still to come
    worker: Worker,
    emitted: set<AttemptRecord>,   // history: every record a task ever tried to persist
    accepted: set<AttemptRecord>,  // history: every record whose `persist` returned Ok
    applied: seq<AttemptRecord>    // history: every upsert the primary performed, in order
  )

  datatype Step =
    | Tick(seconds: nat)
    | Offer(record: AttemptRecord, reply: Reply)
    | Queue(record: AttemptRecord, reply: Reply)
    | Read(limit: nat)
    | Deliver(reply: Reply)
    | Acknowledge(reply: Reply)
    | Crash

  const Start := World(0, map[], [], {}, Idle, {}, {}, [])

  /** Tasks emit one identity per attempt and one record per attempt and outcome. */
  predicate Compatible(r: AttemptRecord, q: AttemptRecord) {
    r.attemptId == q.attemptId ==>
      r.requestId == q.requestId && r.routeId == q.routeId && (r.outcome == q.outcome ==> r == q)
  }

  predicate MayEmit(w: World, r: AttemptRecord) {
    forall q :: q in w.emitted ==> Compatible(r, q)
  }

  function Write(w: World, r: AttemptRecord, reply: Reply): World {
    w.(primary := RowsAfter(w.primary, r, reply),
       applied := if reply.Unreachable? then w.applied else w.applied + [r])
  }

  predicate Enabled(w: World, step: Step) {
    match step
    case Tick(_) => true
    case Offer(r, _) => MayEmit(w, r)
    case Queue(r, _) => r in w.inFlight
    case Read(_) => w.worker.Idle?
    case Deliver(_) => w.worker.Delivering? && !w.worker.stopped && w.worker.acknowledged < |w.worker.batch|
    case Acknowledge(_) =>
      w.worker.Delivering? && w.worker.acknowledged <= |w.worker.batch| &&
      (w.worker.stopped || w.worker.acknowledged == |w.worker.batch|)
    case Crash => true
  }

  function Next(w: World, step: Step): World
    requires Enabled(w, step)
  {
    match step
    case Tick(d) => w.(clock := w.clock + d)
    case Offer(r, reply) =>
      var v := Write(w, r, reply).(emitted := w.emitted + {r});
      if Accepts(w.primary, r, reply) then v.(accepted := v.accepted + {r})
      else v.(inFlight := v.inFlight + {r})
    case Queue(r, reply) =>
      w.(inFlight := w.inFlight - {r},
         spool := if reply.Unreachable? then w.spool else InsertNew(w.spool, EntryOf(r, w.clock)),
         accepted := if reply.Answered? then w.accepted + {r} else w.accepted)
    case Read(limit) => w.(worker := Delivering(Oldest(w.spool, limit), 0, false))
    case Deliver(reply) =>
      var r := w.worker.batch[w.worker.acknowledged].payload;
      var v := Write(w, r, reply);
      if Accepts(w.primary, r, reply) then v.(worker := v.worker.(acknowledged := v.worker.acknowledged + 1))
      else v.(worker := v.worker.(stopped := true))
    case Acknowledge(reply) =>
      var v := w.(worker := Idle);
      if reply.Unreachable? then v
      else v.(spool := Without(v.spool, Ids(w.worker.batch[..w.worker.acknowledged])))
    case Crash => w.(worker := Idle, inFlight := {})
  }

  ghost predicate Run(w: World, steps: seq<Step>, v: World)
    decreases |steps|
  {
    if steps == [] then w == v
    else Enabled(w, steps[0]) && Run(Next(w, steps[0]), steps[1..], v)
  }

  // ---------- The invariant ----------

  ghost predicate Safe(w: World, r: AttemptRecord) {
    r in w.applied || EntryFor(w.spool, r)
  }

  ghost predicate EntryFor(spool: seq<SpoolEntry>, r: AttemptRecord) {
    exists e :: e in spool && e.payload == r
  }

  ghost predicate Entries(w: World, entries: seq<SpoolEntry>) {
    forall e :: e in entries ==> e.id == EntryId(e.payload) && e.payload in w.emitted
  }

  /** The worker's batch is made of real entries, and what it counts as accepted was applied. */
  ghost predicate WorkerInv(w: World) {
    w.worker.Delivering? ==>
      && w.worker.acknowledged <= |w.worker.batch|
      && Entries(w, w.worker.batch)
      && forall i :: 0 <= i < w.worker.acknowledged ==> w.worker.batch[i].payload in w.applied
  }

  ghost predicate StoreInv(w: World) {
    && w.primary == DeliverAll(map[], w.applied)
    && (forall r :: r in w.accepted ==> Safe(w, r))
    && (forall r :: r in w.applied ==> r in w.emitted)
    && w.inFlight <= w.emitted && w.accepted <= w.emitted
    && (forall r, q :: r in w.emitted && q in w.emitted ==> Compatible(r, q))
    && Entries(w, w.spool) && UniqueIds(w.spool)
  }

  ghost predicate Inv(w: World) {
    StoreInv(w) && WorkerInv(w)
  }

  lemma WorkerDoesNotMatter(w: World, worker: Worker)
    requires StoreInv(w)
    ensures StoreInv(w.(worker := worker))
  {
    StillSafe(w, w.(worker := worker));
  }

  lemma SameEntry(w: World, a: SpoolEntry, b: SpoolEntry)
    requires forall r, q :: r in w.emitted && q in w.emitted ==> Compatible(r, q)
    requires a.id == EntryId(a.payload) && b.id == EntryId(b.payload) && a.id == b.id
    requires a.payload in w.emitted && b.payload in w.emitted
    ensures a.payload == b.payload
  {
    EntryIdIsInjective(a.payload, b.payload);
  }

  lemma WriteKeepsInv(w: World, r: AttemptRecord, reply: Reply)
    requires Inv(w) && r in w.emitted
    ensures Inv(Write(w, r, reply))
    ensures Accepts(w.primary, r, reply) ==> r in Write(w, r, reply).applied
  {
    var v := Write(w, r, reply);
    if !reply.Unreachable? {
      assert v.applied[..|v.applied| - 1] == w.applied && v.applied[|v.applied| - 1] == r;
      assert forall q :: q in v.applied <==> q in w.applied || q == r;
      forall q | q in v.accepted
        ensures Safe(v, q)
      {
        assert Safe(w, q);
      }
    }
  }

  lemma QueueKeepsInv(w: World, r: AttemptRecord, reply: Reply)
    requires Inv(w) && r in w.inFlight
    ensures Inv(Next(w, Queue(r, reply)))
  {
    var v := Next(w, Queue(r, reply));
    if reply.Unreachable? {
      assert forall q :: q in v.accepted ==> Safe(w, q) && Safe(v, q);
    } else {
      var e := EntryOf(r, w.clock);
      InsertUnique(w.spool, e);
      if HasId(w.spool, e.id) {
        var d :| d in w.spool && d.id == e.id;
        SameEntry(w, d, e);
      } else {
        assert v.spool[|w.spool|] == e;
      }
      assert EntryFor(v.spool, r);
      forall q | q in v.accepted
        ensures Safe(v, q)
      {
        if q != r {
          assert Safe(w, q);
          if EntryFor(w.spool, q) {
            var d :| d in w.spool && d.payload == q;
            assert d in v.spool;
          }
        }
      }
    }
  }

  lemma AcknowledgeKeepsInv(w: World, reply: Reply)
    requires Inv(w) && Enabled(w, Acknowledge(reply))
    ensures Inv(Next(w, Acknowledge(reply)))
  {
    var v := Next(w, Acknowledge(reply));
    var gone := w.worker.batch[..w.worker.acknowledged];
    if !reply.Unreachable? {
      WithoutUnique(w.spool, Ids(gone));
    }
    forall e | e in v.spool
      ensures e in w.spool
    {
      if !reply.Unreachable? {
        WithoutMembers(w.spool, Ids(gone), e);
      }
    }
    forall q | q in v.accepted
      ensures Safe(v, q)
    {
      assert Safe(w, q);
      if q !in w.applied {
        var e :| e in w.spool && e.payload == q;
        if !reply.Unreachable? {
          WithoutMembers(w.spool, Ids(gone), e);
          if e.id in Ids(gone) {
            var d :| d in gone && d.id == e.id;
            SameEntry(w, d, e);
          }
        }
      }
    }
  }

  /** Steps that touch neither the spool nor the history of applied upserts keep every record safe. */
  lemma StillSafe(w: World, v: World)
    requires v.spool == w.spool && v.applied == w.applied
    ensures forall r :: Safe(w, r) ==> Safe(v, r)
  {
  }

  lemma OfferKeepsInv(w: World, r: AttemptRecord, reply: Reply)
    requires Inv(w) && MayEmit(w, r)
    ensures Inv(Next(w, Offer(r, reply)))
  {
    var v := w.(emitted := w.emitted + {r});
    StillSafe(w, v);
    WriteKeepsInv(v, r, reply);
    StillSafe(Write(v, r, reply), Next(w, Offer(r, reply)));
  }

  lemma ReadKeepsInv(w: World, limit: nat)
    requires Inv(w) && w.worker.Idle?
    ensures Inv(Next(w, Read(limit)))
  {
    OrderBySorts(w.spool);
    forall e | e in Oldest(w.spool, limit)
      ensures e in w.spool
    {
      assert e in OrderBy(w.spool) && e in multiset(OrderBy(w.spool));
    }
    StillSafe(w, Next(w, Read(limit)));
  }

  lemma OneMoreAccepted(u: World)
    requires WorkerInv(u) && u.worker.Delivering? && u.worker.acknowledged < |u.worker.batch|
    requires u.worker.batch[u.worker.acknowledged].payload in u.applied
    ensures WorkerInv(u.(worker := u.worker.(acknowledged := u.worker.acknowledged + 1)))
  {
  }

  lemma {:induction false} DeliverKeepsInv(w: World, reply: Reply)
    requires Inv(w) && Enabled(w, Deliver(reply))
    ensures Inv(Next(w, Deliver(reply)))
  {
    var e := w.worker.batch[w.worker.acknowledged];
    assert e in w.worker.batch;
    WriteKeepsInv(w, e.payload, reply);
    var u := Write(w, e.payload, reply);
    if Accepts(w.primary, e.payload, reply) {
      OneMoreAccepted(u);
      WorkerDoesNotMatter(u, u.worker.(acknowledged := u.worker.acknowledged + 1));
    } else {
      WorkerDoesNotMatter(u, u.worker.(stopped := true));
    }
  }

  lemma StepKeepsInv(w: World, step: Step)
    requires Inv(w) && Enabled(w, step)
    ensures Inv(Next(w, step))
  {
    match step
    case Tick(_) => StillSafe(w, Next(w, step));
    case Offer(r, reply) => OfferKeepsInv(w, r, reply);
    case Queue(r, reply) => QueueKeepsInv(w, r, reply);
    case Read(limit) => ReadKeepsInv(w, limit);
    case Deliver(reply) => DeliverKeepsInv(w, reply);
    case Acknowledge(reply) => AcknowledgeKeepsInv(w, reply);
    case Crash => StillSafe(w, Next(w, step));
  }

  lemma {:induction false} RunKeepsInv(w: World, steps: seq<Step>, v: World)
    requires Inv(w) && Run(w, steps, v)
    ensures Inv(v)
    decreases |steps|
  {
    if steps != [] {
      StepKeepsInv(w, steps[0]);
      RunKeepsInv(Next(w, steps[0]), steps[1..], v);
    }
  }

  // ---------- The results ----------

  /** In every run, whatever fails or crashes, a record that was accepted is queued or was applied. */
  lemma NothingAcceptedIsLost(steps: seq<Step>, w: World, r: AttemptRecord)
    requires Run(Start, steps, w) && r in w.accepted
    ensures r in w.applied || exists e :: e in w.spool && e.payload == r && e.id == EntryId(r)
  {
    RunKeepsInv(Start, steps, w);
    assert Safe(w, r);
  }

  ghost function EmittedFor(w: World, id: AttemptId): set<AttemptRecord> {
    set r | r in w.emitted && r.attemptId == id
  }

  /** Once the spool is empty, an attempt whose emitted records hold one terminal record that was accepted has
      exactly that record's row, whatever the delivery order, duplication, failures and crashes were. */
  lemma DrainedSpoolSettles(steps: seq<Step>, w: World, t: AttemptRecord)
    requires Run(Start, steps, w) && w.spool == []
    requires t in w.accepted && Decides(EmittedFor(w, t.attemptId), t) && OneTerminal(EmittedFor(w, t.attemptId))
    ensures t.attemptId in w.primary && w.primary[t.attemptId] == RowOf(t)
  {
    RunKeepsInv(Start, steps, w);
    assert Safe(w, t);
    var s := EmittedFor(w, t.attemptId);
    forall r, q | r in s && q in s
      ensures r.requestId == q.requestId && r.routeId == q.routeId
    {
      assert Compatible(r, q);
    }
    assert OneAttempt(s, t.attemptId);
    RowSoFar(w.applied, t.attemptId, s, t);
  }

  // ---------- Draining ----------

  /** Every row of the primary has the identity of a record that was applied for its attempt. */
  lemma {:induction false} RowComesFrom(log: seq<AttemptRecord>, id: AttemptId) returns (r: AttemptRecord)
    requires id in DeliverAll(map[], log)
    ensures r in log && r.attemptId == id && SameIdentity(DeliverAll(map[], log)[id], r)
  {
    var front := log[..|log| - 1];
    r := log[|log| - 1];
    if id in DeliverAll(map[], front) {
      r := RowComesFrom(front, id);
    }
  }

  /** An answering primary accepts every record that was ever emitted. */
  lemma EmittedIsWelcome(w: World, r: AttemptRecord)
    requires StoreInv(w) && r in w.emitted
    ensures r.attemptId in w.primary ==> SameIdentity(w.primary[r.attemptId], r)
    ensures Accepts(w.primary, r, Answered)
  {
    if r.attemptId in w.primary {
      var q := RowComesFrom(w.applied, r.attemptId);
      assert Compatible(r, q);
    }
  }

  /** What draining needs of a spool holds in every reachable world. */
  lemma ReachableSpoolIsWelcome(steps: seq<Step>, w: World)
    requires Run(Start, steps, w)
    ensures UniqueIds(w.spool) && Welcome(w.primary, w.spool) && OneIdentity(w.spool)
  {
    RunKeepsInv(Start, steps, w);
    forall e | e in w.spool && e.payload.attemptId in w.primary
      ensures SameIdentity(w.primary[e.payload.attemptId], e.payload)
    {
      EmittedIsWelcome(w, e.payload);
    }
    forall d, e | d in w.spool && e in w.spool && d.payload.attemptId == e.payload.attemptId
      ensures d.payload.requestId == e.payload.requestId && d.payload.routeId == e.payload.routeId
    {
      assert Compatible(d.payload, e.payload);
    }
  }

  /** From every reachable world, ceil(size / limit) flushes with an answering primary drain the spool. */
  lemma ReachableSpoolDrains(steps: seq<Step>, w: World, limit: nat, n: nat)
    requires Run(Start, steps, w) && limit > 0
    ensures |FlushTimes(w.primary, w.spool, limit, n)| == LeftAfter(|w.spool|, limit, n)
  {
    ReachableSpoolIsWelcome(steps, w);
    FlushesDrain(w.primary, w.spool, limit, n);
  }

  lemma {:induction false} RunConcat(u: World, a: seq<Step>, v: World, b: seq<Step>, w: World)
    requires Run(u, a, v) && Run(v, b, w)
    ensures Run(u, a + b, w)
    decreases |a|
  {
    if a == [] {
      assert a + b == b;
    } else {
      assert (a + b)[1..] == a[1..] + b;
      RunConcat(Next(u, a[0]), a[1..], v, b, w);
    }
  }

  lemma OneStep(u: World, step: Step, b: seq<Step>, w: World)
    requires Enabled(u, step) && Run(Next(u, step), b, w)
    ensures Run(u, [step] + b, w)
  {
  }

  /** `v` continues `u` on the worker's side alone: no request task takes a step. */
  ghost predicate WorkerOnly(u: World, v: World) {
    v.emitted == u.emitted && v.accepted == u.accepted && v.inFlight == u.inFlight
  }

  /** A worker that delivers to an answering primary accepts its whole batch and acknowledges it. */
  lemma {:induction false} FinishBatch(u: World) returns (steps: seq<Step>, v: World)
    requires Inv(u) && u.worker.Delivering? && !u.worker.stopped
    ensures Run(u, steps, v) && Inv(v) && WorkerOnly(u, v) && v.worker == Idle
    ensures v.spool == Without(u.spool, Ids(u.worker.batch))
    decreases |u.worker.batch| - u.worker.acknowledged
  {
    var batch, k := u.worker.batch, u.worker.acknowledged;
    if k == |batch| {
      assert batch[..k] == batch;
      v := Next(u, Acknowledge(Answered));
      AcknowledgeKeepsInv(u, Answered);
      assert Run(v, [], v);
      steps := [Acknowledge(Answered)] + [];
      OneStep(u, Acknowledge(Answered), [], v);
    } else {
      assert batch[k] in batch;
      EmittedIsWelcome(u, batch[k].payload);
      DeliverKeepsInv(u, Answered);
      var rest;
      rest, v := FinishBatch(Next(u, Deliver(Answered)));
      steps := [Deliver(Answered)] + rest;
      OneStep(u, Deliver(Answered), rest, v);
    }
  }

  /** Whatever the worker was doing, it can come to rest without touching the spool. */
  lemma WorkerRests(u: World) returns (steps: seq<Step>, v: World)
    requires Inv(u)
    ensures Run(u, steps, v) && Inv(v) && WorkerOnly(u, v) && v.worker == Idle && v.spool == u.spool
  {
    steps, v := [], u;
    if u.worker.Delivering? {
      var mid := u;
      var first: seq<Step> := [];
      if !u.worker.stopped && u.worker.acknowledged < |u.worker.batch| {
        DeliverKeepsInv(u, Unreachable);
        mid := Next(u, Deliver(Unreachable));
        first := [Deliver(Unreachable)];
        OneStep(u, Deliver(Unreachable), [], mid);
      }
      AcknowledgeKeepsInv(mid, Unreachable);
      v := Next(mid, Acknowledge(Unreachable));
      OneStep(mid, Acknowledge(Unreachable), [], v);
      steps := first + [Acknowledge(Unreachable)];
      RunConcat(u, first, mid, [Acknowledge(Unreachable)], v);
    }
  }

  lemma {:induction false} DrainIdle(u: World, limit: nat) returns (steps: seq<Step>, v: World)
    requires Inv(u) && u.worker == Idle && limit > 0
    ensures Run(u, steps, v) && Inv(v) && WorkerOnly(u, v) && v.spool == []
    decreases |u.spool|
  {
    steps, v := [], u;
    if u.spool != [] {
      var batch := Oldest(u.spool, limit);
      ReadKeepsInv(u, limit);
      var reading := Next(u, Read(limit));
      var flushed;
      steps, flushed := FinishBatch(reading);
      OneStep(u, Read(limit), steps, flushed);
      OrderBySorts(u.spool);
      assert batch[..|batch|] == batch;
      AcknowledgeRemovesPrefix(u.spool, limit, |batch|, batch[0]);
      var rest;
      rest, v := DrainIdle(flushed, limit);
      RunConcat(u, [Read(limit)] + steps, flushed, rest, v);
      steps := ([Read(limit)] + steps) + rest;
    }
  }

  /** `t` was accepted, and decides an attempt with one distinct terminal record. */
  ghost predicate IsAcceptedOutcome(w: World, t: AttemptRecord) {
    var s := EmittedFor(w, t.attemptId);
    t in w.accepted && Decides(s, t) && OneTerminal(s)
  }

  /** From every reachable world the worker alone, with a primary that answers, can drain the spool; then every attempt
      with one accepted terminal record has exactly that record's row. */
  lemma AcceptedOutcomesArrive(steps: seq<Step>, w: World, limit: nat) returns (more: seq<Step>, v: World)
    requires Run(Start, steps, w) && limit > 0
    ensures Run(w, more, v) && WorkerOnly(w, v) && v.spool == []
    ensures forall t :: IsAcceptedOutcome(w, t) ==> t.attemptId in v.primary && v.primary[t.attemptId] == RowOf(t)
  {
    RunKeepsInv(Start, steps, w);
    var first, rested := WorkerRests(w);
    var second;
    second, v := DrainIdle(rested, limit);
    RunConcat(w, first, rested, second, v);
    more := first + second;
    RunConcat(Start, steps, w, more, v);
    forall t | IsAcceptedOutcome(w, t)
      ensures t.attemptId in v.primary && v.primary[t.attemptId] == RowOf(t)
    {
      assert EmittedFor(v, t.attemptId) == EmittedFor(w, t.attemptId);
      DrainedSpoolSettles(steps + more, v, t);
    }
  }

  lemma AcceptedAfterQueue(u: World, r: AttemptRecord) returns (steps: seq<Step>, v: World)
    requires Inv(u) && (r in u.accepted || r in u.inFlight)
    ensures Run(u, steps, v) && Inv(v) && r in v.accepted && v.emitted == u.emitted
  {
    if r in u.accepted {
      steps, v := [], u;
    } else {
      v := Next(u, Queue(r, Answered));
      QueueKeepsInv(u, r, Answered);
      steps := [Queue(r, Answered)];
      assert Run(v, [], v);
      OneStep(u, Queue(r, Answered), [], v);
    }
  }

  /** Delivery is not only safe: however the primary answers the first offer of a record, the task can still have it
      accepted, the worker can drain the spool, and the attempt's row is there, with this record's outcome if it is the
      one terminal record. */
  lemma OfferedRecordArrives(steps: seq<Step>, w: World, r: AttemptRecord, reply: Reply, limit: nat)
    returns (more: seq<Step>, v: World)
    requires Run(Start, steps, w) && MayEmit(w, r) && limit > 0
    ensures Run(w, [Offer(r, reply)] + more, v) && v.spool == [] && r in v.accepted && r.attemptId in v.primary
    ensures OneTerminal(EmittedFor(v, r.attemptId)) && r.outcome != Committed ==> v.primary[r.attemptId] == RowOf(r)
  {
    RunKeepsInv(Start, steps, w);
    OfferKeepsInv(w, r, reply);
    var offered := Next(w, Offer(r, reply));
    var first, taken := AcceptedAfterQueue(offered, r);
    var second, rested := WorkerRests(taken);
    var third, drained := DrainIdle(rested, limit);
    v := drained;
    RunConcat(taken, second, rested, third, v);
    RunConcat(offered, first, taken, second + third, v);
    more := first + (second + third);
    OneStep(w, Offer(r, reply), more, v);
    RunConcat(Start, steps, w, [Offer(r, reply)] + more, v);
    assert Safe(v, r);
    AppliedHasRow(v.applied, r);
    if OneTerminal(EmittedFor(v, r.attemptId)) && r.outcome != Committed {
      DrainedSpoolSettles(steps + ([Offer(r, reply)] + more), v, r);
    }
  }

  lemma {:induction false} AppliedHasRow(log: seq<AttemptRecord>, r: AttemptRecord)
    requires r in log
    ensures r.attemptId in DeliverAll(map[], log)
  {
    var front, last := log[..|log| - 1], log[|log| - 1];
    assert log == front + [last];
    if r != last {
      AppliedHasRow(front, r);
    }
  }

  /** Redelivery after a lost acknowledgement is harmless: writing an applied record again leaves the primary as it
      was. */
  lemma RedeliveryIsHarmless(steps: seq<Step>, w: World, r: AttemptRecord, reply: Reply)
    requires Run(Start, steps, w) && r in w.applied
    ensures Write(w, r, reply).primary == w.primary
  {
    RunKeepsInv(Start, steps, w);
    RedeliveryIsIdempotent(map[], w.applied, r);
  }

  /** Without the one-record-per-outcome rule an accepted append can be dropped, exactly when a different record
      already holds its entry id. */
  lemma {:induction false} AppendKeepsRecordIff(spool: seq<SpoolEntry>, r: AttemptRecord, now: int)
    requires UniqueIds(spool) && forall e :: e in spool ==> e.id == EntryId(e.payload)
    ensures EntryFor(InsertNew(spool, EntryOf(r, now)), r) <==>
            !exists e :: e in spool && e.id == EntryId(r) && e.payload != r
  {
    var entry := EntryOf(r, now);
    var after := InsertNew(spool, entry);
    if !HasId(spool, entry.id) {
      assert after[|spool|] == entry;
    } else {
      var d :| d in spool && d.id == entry.id;
      forall e | e in spool && e.id == EntryId(r)
        ensures e == d
      {
        SameRow(spool, d, e);
      }
    }
  }

  /** Such an append: two outcomes of one attempt that differ only in their failure category. The second is dropped,
      although the append reports success. */
  lemma DifferentCategoryIsDropped(first: AttemptRecord, category: Option<string>, now: int)
    requires category != first.failureCategory
    ensures var second := first.(failureCategory := category);
            var spool := InsertNew([], EntryOf(first, now));
            InsertNew(spool, EntryOf(second, now)) == spool && !EntryFor(spool, second)
  {
    assert InsertNew([], EntryOf(first, now)) == [EntryOf(first, now)];
    assert EntryOf(first, now) in [EntryOf(first, now)];
  }
}
