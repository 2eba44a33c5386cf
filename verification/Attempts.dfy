// Every record one streamed attempt emits: committed, finished, cancelled.

module Attempts {
  import opened Domain
  import opened AttemptStore
  import opened SseFraming
  import opened ManagedStream
  import Delivery

  /** The identity every record of an attempt carries. */
  datatype Attempt = Attempt(id: AttemptId, requestId: string, routeId: RouteId)

  function RecordOf(a: Attempt, outcome: AttemptOutcome, category: Option<ErrorCategory>): AttemptRecord {
    AttemptRecord(a.id, a.requestId, a.routeId, outcome,
                  if category.Some? then Some(CategoryName(category.value)) else None)
  }

  function CallsOf(log: seq<Done>): seq<Call> {
    seq(|log|, k requires 0 <= k < |log| => log[k].call)
  }

  /** The calls a stream has made: the answered ones, and the one its held future is waiting for. */
  function Tried(m: Managed): seq<Call> {
    CallsOf(m.log) + if m.pending.Some? && m.pending.value.1 != [] then [m.pending.value.1[0]] else []
  }

  predicate Carries(c: Call, outcome: AttemptOutcome, category: Option<ErrorCategory>) {
    (c.Record? || c.Spool?) ==> c.outcome == outcome && c.category == category
  }

  /** The records of an attempt: `Committed`, and one per call that offered a record to a store. */
  function Emitted(a: Attempt, calls: seq<Call>): set<AttemptRecord> {
    {RecordOf(a, Committed, None)} + set c | c in calls && (c.Record? || c.Spool?) :: RecordOf(a, c.outcome, c.category)
  }

  // ---------- What polling can record ----------

  lemma {:induction false} RemainingCarries(
      calls: seq<Call>, log: seq<Done>, hasSpool: bool, outcome: AttemptOutcome, category: Option<ErrorCategory>)
    requires forall c :: c in calls ==> Carries(c, outcome, category)
    requires Remaining(calls, log, hasSpool).Some?
    ensures forall d :: d in log ==> Carries(d.call, outcome, category)
    ensures forall c :: c in Remaining(calls, log, hasSpool).value ==> Carries(c, outcome, category)
    decreases |log|
  {
    if log != [] {
      assert calls[0] in calls && log == [log[0]] + log[1..];
      var rest := AfterAnswer(calls, log[0].ok, hasSpool);
      forall c | c in rest
        ensures Carries(c, outcome, category)
      {
        assert c in calls || (calls[0].Record? && c == Spool(calls[0].outcome, calls[0].category));
      }
      RemainingCarries(rest, log[1..], hasSpool, outcome, category);
    }
  }

  /** Once a terminal event is held or out, its future has offered at least one record, and all of them are the
      same; before that nothing was offered. */
  lemma PolledRecords(hasSpool: bool, upstream: seq<UpstreamItem>, replies: seq<PortReply>, n: nat)
    returns (outcome: AttemptOutcome, category: Option<ErrorCategory>)
    ensures var m := PollTimes(Start(hasSpool, upstream, replies), n).1;
            && (m.pending.None? && !m.terminalEmitted ==> m.log == [])
            && (m.pending.Some? || m.terminalEmitted ==> Tried(m) != [] && Tried(m)[0].Record?)
            && (m.log != [] ==> m.log[0].call.Record?)
            && (m.terminalEmitted ==> m.log != [])
            && outcome in {Succeeded, PartialFailed}
            && forall c :: c in Tried(m) ==> Carries(c, outcome, category)
  {
    var start := Start(hasSpool, upstream, replies);
    PollTimesInOrder(start, n);
    var run := PollTimes(start, n);
    var m := run.1;
    outcome, category := Succeeded, None;
    if m.pending.Some? || m.terminalEmitted {
      var event := if m.pending.Some? then m.pending.value.0 else run.0[|run.0| - 1];
      var calls := CallsFor(event);
      outcome, category := calls[0].outcome, calls[0].category;
      RemainingCarries(calls, m.log, hasSpool, outcome, category);
      forall c | c in Tried(m)
        ensures Carries(c, outcome, category)
      {
        if c in CallsOf(m.log) {
          var k :| 0 <= k < |m.log| && CallsOf(m.log)[k] == c;
          assert m.log[k] in m.log;
        }
      }
    }
  }

  // ---------- One attempt, dropped anywhere ----------

  /** The records as a set of at most three. */
  function Records(a: Attempt, finished: Option<AttemptRecord>, cancelled: bool): set<AttemptRecord> {
    {RecordOf(a, Committed, None)}
    + (if finished.Some? then {finished.value} else {})
    + (if cancelled then {RecordOf(a, Cancelled, None)} else {})
  }

  lemma RecordsAreCompatible(a: Attempt, finished: Option<AttemptRecord>, cancelled: bool)
    requires finished.Some? ==>
      exists outcome, category ::
        && outcome in {Succeeded, PartialFailed}
        && finished.value == RecordOf(a, outcome, category)
    ensures var s := Records(a, finished, cancelled);
            && OneAttempt(s, a.id)
            && (forall r, q :: r in s && q in s ==> Delivery.Compatible(r, q))
            && (OneTerminal(s) <==> finished.None? || !cancelled)
  {
    var s := Records(a, finished, cancelled);
    assert RecordOf(a, Committed, None) in s;
    if finished.Some? && cancelled {
      assert finished.value in s && RecordOf(a, Cancelled, None) in s;
    }
  }

  lemma EmittedIsRecords(
      a: Attempt, polled: seq<Call>, cancelling: seq<Call>, outcome: AttemptOutcome, category: Option<ErrorCategory>)
    requires forall c :: c in polled ==> Carries(c, outcome, category)
    requires polled != [] ==> polled[0].Record?
    requires forall c :: c in cancelling ==> (c.Record? || c.Spool?) && Carries(c, Cancelled, None)
    ensures Emitted(a, polled + cancelling)
         == Records(a, if polled == [] then None else Some(RecordOf(a, outcome, category)), cancelling != [])
  {
    var calls := polled + cancelling;
    if polled != [] {
      assert polled[0] in calls && polled[0] in polled;
    }
    if cancelling != [] {
      assert cancelling[0] in calls && cancelling[0] in cancelling;
    }
    var finished := if polled == [] then None else Some(RecordOf(a, outcome, category));
    forall r
      ensures r in Emitted(a, calls) <==> r in Records(a, finished, cancelling != [])
    {
      if r in Emitted(a, calls) && r != RecordOf(a, Committed, None) {
        var c :| c in calls && (c.Record? || c.Spool?) && r == RecordOf(a, c.outcome, c.category);
        assert c in polled || c in cancelling;
      }
    }
  }

  function CancellationCalls(m: Managed, hasRuntime: bool, recordOk: bool, spoolOk: bool): seq<Call> {
    if DropSpawns(m, hasRuntime) then CallsOf(Cancellation(m.hasSpool, recordOk, spoolOk)) else []
  }

  /** Every record of an attempt carries its id, its request and its route; one is `Committed`, and each of the others
      repeats the outcome and category of a call. */
  lemma EmittedFields(a: Attempt, calls: seq<Call>, r: AttemptRecord)
    ensures r in Emitted(a, calls) <==>
              && r.attemptId == a.id && r.requestId == a.requestId && r.routeId == a.routeId
              && ((r.outcome == Committed && r.failureCategory == None)
                  || exists c :: c in calls && (c.Record? || c.Spool?) && r.outcome == c.outcome
                       && r.failureCategory ==
                          if c.category.Some? then Some(CategoryName(c.category.value)) else None)
  {
    if r.attemptId == a.id && r.requestId == a.requestId && r.routeId == a.routeId {
      if c :| c in calls && (c.Record? || c.Spool?) && r.outcome == c.outcome
              && r.failureCategory == if c.category.Some? then Some(CategoryName(c.category.value)) else None {
        assert r == RecordOf(a, c.outcome, c.category);
      }
    }
  }

  /** Everything a streamed attempt ever tries to record, for every upstream, every pattern of answers, every number of
      polls and every drop point: one record per outcome under one identity, which is what delivery relies on; and one
      distinct terminal record at most, unless the stream was dropped while it held a terminal event. */
  lemma TriedRecords(
      a: Attempt, hasSpool: bool, upstream: seq<UpstreamItem>, replies: seq<PortReply>, n: nat,
      hasRuntime: bool, recordOk: bool, spoolOk: bool)
    ensures var m := PollTimes(Start(hasSpool, upstream, replies), n).1;
            var s := Emitted(a, Tried(m) + CancellationCalls(m, hasRuntime, recordOk, spoolOk));
            && OneAttempt(s, a.id)
            && (forall r, q :: r in s && q in s ==> Delivery.Compatible(r, q))
            && (OneTerminal(s) <==> m.pending.None? || !DropSpawns(m, hasRuntime))
  {
    var m := PollTimes(Start(hasSpool, upstream, replies), n).1;
    var outcome, category := PolledRecords(hasSpool, upstream, replies, n);
    var cancelling := CancellationCalls(m, hasRuntime, recordOk, spoolOk);
    EmittedIsRecords(a, Tried(m), cancelling, outcome, category);
    RecordsAreCompatible(a, if Tried(m) == [] then None else Some(RecordOf(a, outcome, category)), cancelling != []);
    PollTimesInOrder(Start(hasSpool, upstream, replies), n);
  }

  /** The same for the records that were answered: two distinct terminal records come out exactly when the stream was
      dropped after its outcome was answered and before its terminal event was out. */
  lemma AnsweredRecords(
      a: Attempt, hasSpool: bool, upstream: seq<UpstreamItem>, replies: seq<PortReply>, n: nat,
      hasRuntime: bool, recordOk: bool, spoolOk: bool)
    ensures var m := PollTimes(Start(hasSpool, upstream, replies), n).1;
            var s := Emitted(a, CallsOf(Dropped(m, hasRuntime, recordOk, spoolOk)));
            && OneAttempt(s, a.id)
            && (forall r, q :: r in s && q in s ==> Delivery.Compatible(r, q))
            && (OneTerminal(s) <==> m.terminalEmitted || m.log == [] || !hasRuntime)
  {
    var m := PollTimes(Start(hasSpool, upstream, replies), n).1;
    var outcome, category := PolledRecords(hasSpool, upstream, replies, n);
    var polled, cancelling := CallsOf(m.log), CancellationCalls(m, hasRuntime, recordOk, spoolOk);
    forall c | c in polled
      ensures Carries(c, outcome, category)
    {
      assert c in Tried(m);
    }
    assert CallsOf(Dropped(m, hasRuntime, recordOk, spoolOk)) == polled + cancelling;
    EmittedIsRecords(a, polled, cancelling, outcome, category);
    RecordsAreCompatible(a, if polled == [] then None else Some(RecordOf(a, outcome, category)), cancelling != []);
  }

  /** A real input with two terminal records: the success was recorded, the route mark is pending, and the client goes
      away. The stored row then depends on the order of delivery. */
  lemma CancelledAfterSuccess(a: Attempt)
    ensures var m := PollTimes(Start(false, [Next(Completed)], [Answer(true), Pending]), 1).1;
            var log := Dropped(m, true, true, true);
            && log == [Done(Record(Succeeded, None), true), Done(Record(Cancelled, None), true)]
            && !OrderInsensitive(Emitted(a, CallsOf(log)), a.id)
  {
    var start := Start(false, [Next(Completed)], [Answer(true), Pending]);
    var held := Held(start.(upstream := []), Completed);
    var asked := held.(replies := [Pending], pending := Some((Completed, [MarkSuccess])),
                       log := [Done(Record(Succeeded, None), true)]);
    assert PollFuture(held) == PollFuture(asked);
    assert PollTimes(start, 1).1 == Poll(start).1 == PollFuture(asked);
    AnsweredRecords(a, false, [Next(Completed)], [Answer(true), Pending], 1, true, true, true);
    OrderInsensitiveIff(Emitted(a, CallsOf(Dropped(PollTimes(start, 1).1, true, true, true))), a.id);
  }

  lemma PartSettles(s: set<AttemptRecord>, steps: seq<Delivery.Step>, w: Delivery.World, t: AttemptRecord)
    requires OneTerminal(s) && Delivery.EmittedFor(w, t.attemptId) <= s
    requires Delivery.Run(Delivery.Start, steps, w) && w.spool == []
    requires t in w.accepted && Decides(Delivery.EmittedFor(w, t.attemptId), t)
    ensures t.attemptId in w.primary && w.primary[t.attemptId] == RowOf(t)
  {
    Delivery.RunKeepsInv(Delivery.Start, steps, w);
    var part := Delivery.EmittedFor(w, t.attemptId);
    forall r, q | r in part && q in part && r.outcome == q.outcome == Committed
      ensures r == q
    {
      assert Delivery.Compatible(r, q);
    }
    Delivery.DrainedSpoolSettles(steps, w, t);
  }

  /** A stream that was not dropped while it held its terminal event settles: whichever of its records were emitted,
      once the spool is empty the row is that of its one terminal record, whatever failed or crashed on the way. */
  lemma StreamSettles(
      a: Attempt, hasSpool: bool, upstream: seq<UpstreamItem>, replies: seq<PortReply>, n: nat,
      hasRuntime: bool, recordOk: bool, spoolOk: bool,
      steps: seq<Delivery.Step>, w: Delivery.World, t: AttemptRecord)
    requires var m := PollTimes(Start(hasSpool, upstream, replies), n).1;
             && (m.pending.None? || !DropSpawns(m, hasRuntime))
             && Delivery.EmittedFor(w, a.id) <=
                Emitted(a, Tried(m) + CancellationCalls(m, hasRuntime, recordOk, spoolOk))
    requires Delivery.Run(Delivery.Start, steps, w) && w.spool == []
    requires t in w.accepted && t.attemptId == a.id && Decides(Delivery.EmittedFor(w, a.id), t)
    ensures a.id in w.primary && w.primary[a.id] == RowOf(t)
  {
    var m := PollTimes(Start(hasSpool, upstream, replies), n).1;
    TriedRecords(a, hasSpool, upstream, replies, n, hasRuntime, recordOk, spoolOk);
    PartSettles(Emitted(a, Tried(m) + CancellationCalls(m, hasRuntime, recordOk, spoolOk)), steps, w, t);
  }
}
