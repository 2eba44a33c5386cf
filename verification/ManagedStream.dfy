// The stream a client receives after commitment: one terminal event, released once its outcome was attempted.

module ManagedStream {
  import opened Domain
  import opened AttemptStore
  import opened SseFraming

  /** What one poll of the upstream yields; `Over` is the end of a stream that sent no terminal event. */
  datatype UpstreamItem = Next(event: Event) | Over | NotReady

  /** One call on a port. */
  datatype Call =
    | Record(outcome: AttemptOutcome, category: Option<ErrorCategory>)
    | Spool(outcome: AttemptOutcome, category: Option<ErrorCategory>)
    | MarkSuccess
    | MarkAccount(failure: ProviderFailure)
    | MarkRoute(failure: ProviderFailure)

  /** A call that was answered. */
  datatype Done = Done(call: Call, ok: bool)

  /** How a port answers the next time the terminal future is polled. */
  datatype PortReply = Pending | Answer(ok: bool)

  const POST_COMMIT_FAILURE :=
    ProviderFailure(ProviderUnavailable, "provider stream could not be completed", None, None)

  // ---------- The terminal future ----------

  /** The calls `succeed` and `fail` still have to make. */
  function CallsFor(event: Event): seq<Call>
    requires IsTerminal(event)
  {
    match event
    case Completed => [Record(Succeeded, None), MarkSuccess]
    case Failed(failure) =>
      [Record(PartialFailed, Some(failure.category))]
      + (if failure.category.BlocksAccount() then [MarkAccount(failure)] else [])
      + (if failure.category.OpensRoute() then [MarkRoute(failure)] else [])
  }

  /** What is left after the first call was answered: a failed record goes to the spool if there is one, and
      success is marked only if its outcome was persisted. */
  function AfterAnswer(calls: seq<Call>, ok: bool, hasSpool: bool): seq<Call>
    requires calls != []
  {
    match calls[0]
    case Record(outcome, category) =>
      if ok then calls[1..]
      else if hasSpool then [Spool(outcome, category)] + calls[1..]
      else Unpersisted(calls)
    case Spool(_, _) => if ok then calls[1..] else Unpersisted(calls)
    case _ => calls[1..]
  }

  function Unpersisted(calls: seq<Call>): seq<Call>
    requires calls != [] && (calls[0].Record? || calls[0].Spool?)
  {
    if calls[0].outcome.Succeeded? then [] else calls[1..]
  }

  /** Which calls remain once `log` was answered, if `log` is what the future makes. */
  function Remaining(calls: seq<Call>, log: seq<Done>, hasSpool: bool): Option<seq<Call>>
    decreases |log|
  {
    if log == [] then Some(calls)
    else if calls == [] || log[0].call != calls[0] then None
    else Remaining(AfterAnswer(calls, log[0].ok, hasSpool), log[1..], hasSpool)
  }

  // ---------- The stream ----------

  /** The stream with what its environment will still answer, and the calls answered so far. */
  datatype Managed = Managed(
    hasSpool: bool,
    upstream: seq<UpstreamItem>,
    replies: seq<PortReply>,
    pending: Option<(Event, seq<Call>)>,
    terminalEmitted: bool,
    log: seq<Done>
  )

  datatype Polled = Ready(event: Option<Event>) | NotNow

  function Held(m: Managed, event: Event): Managed
    requires IsTerminal(event)
  {
    m.(pending := Some((event, CallsFor(event))))
  }

  /** Runs the pending future until a port is not ready or the future is done. */
  function PollFuture(m: Managed): (n: Managed)
    requires m.pending.Some?
    ensures n.pending.Some? && n.pending.value.0 == m.pending.value.0
    decreases |m.replies|
  {
    var calls := m.pending.value.1;
    if calls == [] || m.replies == [] then m
    else
      var rest := m.(replies := m.replies[1..]);
      match m.replies[0]
      case Pending => rest
      case Answer(ok) =>
        PollFuture(rest.(pending := Some((m.pending.value.0, AfterAnswer(calls, ok, m.hasSpool))),
                         log := m.log + [Done(calls[0], ok)]))
  }

  function PollPending(m: Managed): (Polled, Managed)
    requires m.pending.Some?
  {
    var n := PollFuture(m);
    if n.pending.value.1 != [] then (NotNow, n)
    else (Ready(Some(n.pending.value.0)), n.(pending := None, terminalEmitted := true))
  }

  function Poll(m: Managed): (Polled, Managed) {
    if m.terminalEmitted then (Ready(None), m)
    else if m.pending.Some? then PollPending(m)
    else if m.upstream == [] then (NotNow, m)
    else
      var rest := m.(upstream := m.upstream[1..]);
      match m.upstream[0]
      case NotReady => (NotNow, rest)
      case Over => PollPending(Held(rest, Event.Failed(POST_COMMIT_FAILURE)))
      case Next(event) => if event.Frame? then (Ready(Some(event)), rest) else PollPending(Held(rest, event))
  }

  /** Dropping the stream before its terminal event spawns a cancellation, if there is a runtime to run it. */
  predicate DropSpawns(m: Managed, hasRuntime: bool) {
    !m.terminalEmitted && hasRuntime
  }

  /** What the spawned task does when it runs. */
  function Cancellation(hasSpool: bool, recordOk: bool, spoolOk: bool): seq<Done> {
    if recordOk || !hasSpool then [Done(Record(Cancelled, None), recordOk)]
    else [Done(Record(Cancelled, None), false), Done(Spool(Cancelled, None), spoolOk)]
  }

  /** The log once the stream was dropped and the spawned task, if any, has run. */
  function Dropped(m: Managed, hasRuntime: bool, recordOk: bool, spoolOk: bool): seq<Done> {
    if DropSpawns(m, hasRuntime) then m.log + Cancellation(m.hasSpool, recordOk, spoolOk) else m.log
  }

  class ManagedInferenceStream {
    const hasSpool: bool
    var upstream: seq<UpstreamItem>
    var replies: seq<PortReply>
    var pendingTerminal: Option<(Event, seq<Call>)>
    var terminalEmitted: bool
    var log: seq<Done>

    constructor (hasSpool: bool, upstream: seq<UpstreamItem>, replies: seq<PortReply>)
      ensures State() == Start(hasSpool, upstream, replies)
    {
      this.hasSpool, this.upstream, this.replies := hasSpool, upstream, replies;
      pendingTerminal, terminalEmitted, log := None, false, [];
    }

    ghost function State(): Managed
      reads this
    {
      Managed(hasSpool, upstream, replies, pendingTerminal, terminalEmitted, log)
    }

    /** Polls the terminal future once. */
    method PollTerminalFuture() returns (done: bool)
      requires pendingTerminal.Some?
      modifies this`replies, this`pendingTerminal, this`log
      ensures State() == PollFuture(old(State()))
      ensures done <==> pendingTerminal.value.1 == []
    {
      var event := pendingTerminal.value.0;
      while pendingTerminal.value.1 != [] && replies != []
        invariant pendingTerminal.Some? && pendingTerminal.value.0 == event
        invariant PollFuture(State()) == PollFuture(old(State()))
        decreases |replies|
      {
        var calls := pendingTerminal.value.1;
        var reply := replies[0];
        replies := replies[1..];
        if reply.Pending? {
          return false;
        }
        log := log + [Done(calls[0], reply.ok)];
        pendingTerminal := Some((event, AfterAnswer(calls, reply.ok, hasSpool)));
      }
      return pendingTerminal.value.1 == [];
    }

    method PollNext() returns (r: Polled)
      modifies this
      ensures (r, State()) == Poll(old(State()))
    {
      while true
        invariant Poll(State()) == Poll(old(State()))
        decreases pendingTerminal.None?, |upstream|
      {
        if terminalEmitted {
          return Ready(None);
        }
        if pendingTerminal.Some? {
          var done := PollTerminalFuture();
          if !done {
            return NotNow;
          }
          var event := pendingTerminal.value.0;
          pendingTerminal, terminalEmitted := None, true;
          return Ready(Some(event));
        }
        if upstream == [] {
          return NotNow;
        }
        var item := upstream[0];
        upstream := upstream[1..];
        match item {
          case NotReady => return NotNow;
          case Over =>
            pendingTerminal := Some((Event.Failed(POST_COMMIT_FAILURE), CallsFor(Event.Failed(POST_COMMIT_FAILURE))));
          case Next(event) =>
            if event.Frame? {
              return Ready(Some(event));
            }
            pendingTerminal := Some((event, CallsFor(event)));
        }
      }
    }

    /** Nothing is recorded at the drop itself. */
    method Drop(hasRuntime: bool) returns (spawned: bool)
      ensures spawned <==> DropSpawns(State(), hasRuntime)
    {
      if terminalEmitted {
        return false;
      }
      return hasRuntime;
    }

    /** The task that a drop spawned. */
    method RunCancellation(recordOk: bool, spoolOk: bool)
      modifies this`log
      ensures log == old(log) + Cancellation(hasSpool, recordOk, spoolOk)
    {
      log := log + [Done(Record(Cancelled, None), recordOk)];
      if !recordOk && hasSpool {
        log := log + [Done(Spool(Cancelled, None), spoolOk)];
      }
    }
  }

  // ---------- Runs ----------

  function Start(hasSpool: bool, upstream: seq<UpstreamItem>, replies: seq<PortReply>): Managed {
    Managed(hasSpool, upstream, replies, None, false, [])
  }

  /** `n` polls: the events the client sees, and the stream afterwards. */
  function PollTimes(m: Managed, n: nat): (seq<Event>, Managed)
    decreases n
  {
    if n == 0 then ([], m)
    else
      var step := Poll(m);
      var more := PollTimes(step.1, n - 1);
      (Seen(step.0) + more.0, more.1)
  }

  /** The upstream's frames up to its first terminal item, and that one terminal event. */
  function Promised(upstream: seq<UpstreamItem>): seq<Event> {
    if upstream == [] then []
    else
      match upstream[0]
      case NotReady => Promised(upstream[1..])
      case Over => [Event.Failed(POST_COMMIT_FAILURE)]
      case Next(event) => if event.Frame? then [event] + Promised(upstream[1..]) else [event]
  }

  /** What is still to come. */
  function ToCome(m: Managed): seq<Event> {
    if m.terminalEmitted then []
    else if m.pending.Some? then [m.pending.value.0]
    else Promised(m.upstream)
  }

  /** Nothing is recorded before a terminal event arrives; from then on the log is what its future makes. */
  ghost predicate Consistent(m: Managed) {
    && (m.terminalEmitted ==> m.pending.None?)
    && (m.pending.None? && !m.terminalEmitted ==> m.log == [])
    && (m.pending.Some? ==>
          && IsTerminal(m.pending.value.0)
          && Remaining(CallsFor(m.pending.value.0), m.log, m.hasSpool) == Some(m.pending.value.1))
  }

  lemma {:induction false} RemainingAppend(calls: seq<Call>, log: seq<Done>, last: Done, hasSpool: bool)
    ensures var left := Remaining(calls, log, hasSpool);
            left.Some? && left.value != [] && left.value[0] == last.call ==>
              Remaining(calls, log + [last], hasSpool) == Some(AfterAnswer(left.value, last.ok, hasSpool))
    decreases |log|
  {
    if log == [] {
      assert (log + [last])[1..] == [];
    } else if calls != [] && log[0].call == calls[0] {
      assert (log + [last])[1..] == log[1..] + [last];
      RemainingAppend(AfterAnswer(calls, log[0].ok, hasSpool), log[1..], last, hasSpool);
    }
  }

  lemma {:induction false} FutureKeepsConsistent(m: Managed)
    requires Consistent(m) && m.pending.Some?
    ensures var n := PollFuture(m);
            && Consistent(n) && n.terminalEmitted == m.terminalEmitted
            && n.upstream == m.upstream && n.hasSpool == m.hasSpool
    decreases |m.replies|
  {
    var calls := m.pending.value.1;
    if calls != [] && m.replies != [] && m.replies[0].Answer? {
      var ok := m.replies[0].ok;
      RemainingAppend(CallsFor(m.pending.value.0), m.log, Done(calls[0], ok), m.hasSpool);
      FutureKeepsConsistent(m.(
        replies := m.replies[1..],
        pending := Some((m.pending.value.0, AfterAnswer(calls, ok, m.hasSpool))),
        log := m.log + [Done(calls[0], ok)]));
    }
  }

  lemma HeldIsConsistent(m: Managed, event: Event)
    requires Consistent(m) && m.pending.None? && !m.terminalEmitted && IsTerminal(event)
    ensures Consistent(Held(m, event))
  {
  }

  /** One poll hands out the head of what was to come, or nothing; a terminal event comes out only when every
      call its future makes has been answered. */
  lemma PollStep(m: Managed)
    requires Consistent(m)
    ensures var step := Poll(m);
            && Consistent(step.1) && step.1.hasSpool == m.hasSpool
            && (step.0.Ready? && step.0.event.Some? ==>
                  && ToCome(m) == [step.0.event.value] + ToCome(step.1)
                  && (IsTerminal(step.0.event.value) <==> step.1.terminalEmitted)
                  && (step.1.terminalEmitted ==>
                        Remaining(CallsFor(step.0.event.value), step.1.log, m.hasSpool) == Some([])))
            && (!(step.0.Ready? && step.0.event.Some?) ==>
                  ToCome(m) == ToCome(step.1) && step.1.terminalEmitted == m.terminalEmitted)
            && (m.terminalEmitted ==> step == (Ready(None), m))
            && (step.0 == Ready(None) ==> m.terminalEmitted)
  {
    if !m.terminalEmitted {
      if m.pending.Some? {
        FutureKeepsConsistent(m);
      } else if m.upstream != [] {
        var rest := m.(upstream := m.upstream[1..]);
        match m.upstream[0] {
          case NotReady =>
          case Over =>
            HeldIsConsistent(rest, Event.Failed(POST_COMMIT_FAILURE));
            FutureKeepsConsistent(Held(rest, Event.Failed(POST_COMMIT_FAILURE)));
          case Next(event) =>
            if !event.Frame? {
              HeldIsConsistent(rest, event);
              FutureKeepsConsistent(Held(rest, event));
            }
        }
      }
    }
  }

  /** `events` came out between `m` and `after`: the head of what was to come, and a terminal only with a full log. */
  ghost predicate InOrder(m: Managed, events: seq<Event>, after: Managed) {
    && Consistent(after) && after.hasSpool == m.hasSpool
    && ToCome(m) == events + ToCome(after)
    && (m.terminalEmitted ==> events == [] && after == m)
    && (after.terminalEmitted && !m.terminalEmitted ==>
          && events != [] && IsTerminal(events[|events| - 1])
          && Remaining(CallsFor(events[|events| - 1]), after.log, m.hasSpool) == Some([]))
  }

  lemma InOrderTrans(m: Managed, a: seq<Event>, mid: Managed, b: seq<Event>, after: Managed)
    requires InOrder(m, a, mid) && InOrder(mid, b, after)
    ensures InOrder(m, a + b, after)
  {
    assert (a + b) + ToCome(after) == a + (b + ToCome(after));
    if b == [] {
      assert a + b == a;
    } else {
      assert (a + b)[|a + b| - 1] == b[|b| - 1];
    }
  }

  function Seen(polled: Polled): seq<Event> {
    if polled.Ready? && polled.event.Some? then [polled.event.value] else []
  }

  lemma PollInOrder(m: Managed)
    requires Consistent(m)
    ensures InOrder(m, Seen(Poll(m).0), Poll(m).1)
  {
    PollStep(m);
    assert [] + ToCome(m) == ToCome(m);
  }

  lemma {:induction false} PollTimesInOrder(m: Managed, n: nat)
    requires Consistent(m)
    ensures InOrder(m, PollTimes(m, n).0, PollTimes(m, n).1)
    decreases n
  {
    if n == 0 {
      assert [] + ToCome(m) == ToCome(m);
    } else {
      PollInOrder(m);
      var mid := Poll(m).1;
      PollTimesInOrder(mid, n - 1);
      InOrderTrans(m, Seen(Poll(m).0), mid, PollTimes(mid, n - 1).0, PollTimes(mid, n - 1).1);
    }
  }

  /** For every upstream, every pattern of pending polls and every number of polls, the client has seen a prefix of
      the promised events: the frames in order, then one terminal. Once the terminal is out, every call of the
      matching future was answered first; before a terminal arrived, nothing was recorded. */
  lemma ClientSeesPromisedPrefix(hasSpool: bool, upstream: seq<UpstreamItem>, replies: seq<PortReply>, n: nat)
    ensures var run := PollTimes(Start(hasSpool, upstream, replies), n);
            && run.0 <= Promised(upstream)
            && (run.1.terminalEmitted ==>
                  && run.0 == Promised(upstream) && run.0 != [] && IsTerminal(run.0[|run.0| - 1])
                  && Remaining(CallsFor(run.0[|run.0| - 1]), run.1.log, hasSpool) == Some([]))
            && (!run.1.terminalEmitted ==> forall e :: e in run.0 ==> e.Frame?)
            && (run.1.pending.None? && !run.1.terminalEmitted ==> run.1.log == [])
  {
    var m := Start(hasSpool, upstream, replies);
    PollTimesInOrder(m, n);
    var run := PollTimes(m, n);
    PromisedOneTerminal(upstream);
    if run.1.terminalEmitted {
      assert run.0 + [] == run.0;
    } else {
      forall e | e in run.0
        ensures e.Frame?
      {
        var k :| 0 <= k < |run.0| && run.0[k] == e;
        assert Promised(upstream)[k] == e;
        FramesOnly(m, n, k);
      }
    }
  }

  lemma {:induction false} PromisedOneTerminal(upstream: seq<UpstreamItem>)
    ensures forall i :: 0 <= i < |Promised(upstream)| - 1 ==> Promised(upstream)[i].Frame?
  {
    if upstream != [] {
      PromisedOneTerminal(upstream[1..]);
    }
  }

  /** As long as the terminal is not out, only frames came out. */
  lemma {:induction false} FramesOnly(m: Managed, n: nat, k: nat)
    requires Consistent(m) && !PollTimes(m, n).1.terminalEmitted && k < |PollTimes(m, n).0|
    ensures PollTimes(m, n).0[k].Frame?
    decreases n
  {
    if n > 0 {
      PollStep(m);
      PollTimesInOrder(m, n);
      var step := Poll(m);
      PollTimesInOrder(step.1, n - 1);
      if step.0.Ready? && step.0.event.Some? {
        if k > 0 {
          FramesOnly(step.1, n - 1, k - 1);
        }
      } else {
        assert [] + PollTimes(step.1, n - 1).0 == PollTimes(step.1, n - 1).0;
        FramesOnly(step.1, n - 1, k);
      }
    }
  }

  /** How many of the replies are answers rather than pending polls. */
  function Answers(replies: seq<PortReply>): (n: nat)
    ensures n <= |replies|
  {
    if replies == [] then 0 else (if replies[0].Answer? then 1 else 0) + Answers(replies[1..])
  }

  /** Replies a future may need: one per call, and one more for a spool append after a failed record. */
  function Needed(calls: seq<Call>): nat {
    |calls| + if calls != [] && calls[0].Record? then 1 else 0
  }

  predicate MarksAfterFirst(calls: seq<Call>) {
    forall i :: 0 < i < |calls| ==> !calls[i].Record?
  }

  lemma {:induction false} RemainingMarks(calls: seq<Call>, log: seq<Done>, hasSpool: bool)
    requires MarksAfterFirst(calls) && Remaining(calls, log, hasSpool).Some?
    ensures MarksAfterFirst(Remaining(calls, log, hasSpool).value)
    decreases |log|
  {
    if log != [] {
      RemainingMarks(AfterAnswer(calls, log[0].ok, hasSpool), log[1..], hasSpool);
    }
  }

  /** A poll of the future uses up a reply or finishes, and never more answers than it needs. */
  lemma {:induction false} FutureAdvances(m: Managed)
    requires m.pending.Some? && MarksAfterFirst(m.pending.value.1)
    requires Answers(m.replies) >= Needed(m.pending.value.1)
    ensures var n := PollFuture(m);
            && |n.replies| <= |m.replies| && Answers(n.replies) >= Needed(n.pending.value.1)
            && (m.pending.value.1 != [] && n.pending.value.1 != [] ==> |n.replies| < |m.replies|)
    decreases |m.replies|
  {
    var calls := m.pending.value.1;
    if calls != [] && m.replies[0].Answer? {
      var ok := m.replies[0].ok;
      FutureAdvances(m.(
        replies := m.replies[1..],
        pending := Some((m.pending.value.0, AfterAnswer(calls, ok, m.hasSpool))),
        log := m.log + [Done(calls[0], ok)]));
    }
  }

  predicate HasTerminal(upstream: seq<UpstreamItem>) {
    exists item :: item in upstream && (item.Over? || (item.Next? && IsTerminal(item.event)))
  }

  lemma {:induction false} EmittedStays(m: Managed, n: nat)
    requires m.terminalEmitted
    ensures PollTimes(m, n) == ([], m)
    decreases n
  {
    if n > 0 {
      EmittedStays(m, n - 1);
      assert Seen(Poll(m).0) + [] == [];
    }
  }

  lemma TerminalInRest(upstream: seq<UpstreamItem>)
    requires HasTerminal(upstream) && !upstream[0].Over? && !(upstream[0].Next? && IsTerminal(upstream[0].event))
    ensures HasTerminal(upstream[1..])
  {
    var t :| t in upstream && (t.Over? || (t.Next? && IsTerminal(t.event)));
    assert t in upstream[1..];
  }

  /** Between polls: the future of a terminal that is still held has calls to make. */
  ghost predicate Resting(m: Managed) {
    Consistent(m) && (m.pending.Some? ==> m.pending.value.1 != [])
  }

  /** The terminal event is out, held, or on its way, and the ports will give the answers that takes. */
  ghost predicate WillEnd(m: Managed) {
    || m.terminalEmitted
    || (m.pending.Some? && Answers(m.replies) >= Needed(m.pending.value.1))
    || (m.pending.None? && HasTerminal(m.upstream) && Answers(m.replies) >= 3)
  }

  lemma HeldAdvances(m: Managed)
    requires Consistent(m) && m.pending.Some? && m.pending.value.1 != [] && WillEnd(m)
    ensures var after := PollPending(m).1;
            && Resting(after) && WillEnd(after) && |after.replies| <= |m.replies| && after.upstream == m.upstream
            && (after.terminalEmitted || |after.replies| < |m.replies|)
  {
    FutureKeepsConsistent(m);
    RemainingMarks(CallsFor(m.pending.value.0), m.log, m.hasSpool);
    FutureAdvances(m);
  }

  /** Every poll of a stream that will end brings the end nearer. */
  lemma PollAdvances(m: Managed)
    requires Resting(m) && WillEnd(m) && !m.terminalEmitted
    ensures var after := Poll(m).1;
            && Resting(after) && WillEnd(after)
            && (after.terminalEmitted || |after.upstream| + |after.replies| < |m.upstream| + |m.replies|)
  {
    if m.pending.Some? {
      HeldAdvances(m);
    } else {
      var item, rest := m.upstream[0], m.(upstream := m.upstream[1..]);
      if item.Over? || (item.Next? && IsTerminal(item.event)) {
        var event := if item.Over? then Event.Failed(POST_COMMIT_FAILURE) else item.event;
        HeldIsConsistent(rest, event);
        HeldAdvances(Held(rest, event));
      } else {
        TerminalInRest(m.upstream);
      }
    }
  }

  lemma {:induction false} TerminalGetsOut(m: Managed, n: nat)
    requires Resting(m) && WillEnd(m) && n >= |m.upstream| + |m.replies|
    ensures PollTimes(m, n).1.terminalEmitted
    decreases n
  {
    if m.terminalEmitted {
      EmittedStays(m, n);
    } else {
      PollAdvances(m);
      var after := Poll(m).1;
      if after.terminalEmitted {
        EmittedStays(after, n - 1);
      } else {
        TerminalGetsOut(after, n - 1);
      }
    }
  }

  /** Nothing promised is withheld. In any state between polls, even with a terminal event already held, and for any
      pending polls among enough answers: as many polls as there are upstream items and replies hand out every frame
      still to come and the terminal event. */
  lemma EverythingPromisedArrives(m: Managed, n: nat)
    requires Resting(m) && WillEnd(m) && n >= |m.upstream| + |m.replies|
    ensures PollTimes(m, n).0 == ToCome(m) && PollTimes(m, n).1.terminalEmitted
  {
    TerminalGetsOut(m, n);
    PollTimesInOrder(m, n);
    assert PollTimes(m, n).0 + [] == PollTimes(m, n).0;
  }

  // ---------- What the finished log contains ----------

  /** After `Completed`: the success was offered to the primary, then if need be to the spool, and the route was
      marked exactly if one of them took it. */
  lemma CompletedLog(log: seq<Done>, hasSpool: bool)
    requires Remaining(CallsFor(Completed), log, hasSpool) == Some([])
    ensures log != [] && log[0].call == Record(Succeeded, None)
    ensures log[0].ok ==> |log| == 2 && log[1].call == MarkSuccess
    ensures !log[0].ok && !hasSpool ==> |log| == 1
    ensures !log[0].ok && hasSpool ==> |log| >= 2 && log[1].call == Spool(Succeeded, None)
    ensures !log[0].ok && hasSpool && log[1].ok ==> |log| == 3 && log[2].call == MarkSuccess
    ensures !log[0].ok && hasSpool && !log[1].ok ==> |log| == 2
  {
    var log1 := log[1..];
    if log[0].ok {
      OnlyMark(log1, hasSpool);
    } else if hasSpool {
      if log1[0].ok {
        OnlyMark(log1[1..], hasSpool);
      } else {
        assert Remaining([], log1[1..], hasSpool) == Some([]);
      }
    }
  }

  lemma OnlyMark(log: seq<Done>, hasSpool: bool)
    requires Remaining([MarkSuccess], log, hasSpool) == Some([])
    ensures |log| == 1 && log[0].call == MarkSuccess
  {
  }

  /** The calls a failed stream makes: the partial failure goes to the primary, then if refused to the spool, and after
      that the account or the route is marked once, whether or not the outcome could be persisted. */
  function FailedCalls(failure: ProviderFailure, recorded: bool, hasSpool: bool): seq<Call> {
    var category := Some(failure.category);
    [Record(PartialFailed, category)]
    + (if !recorded && hasSpool then [Spool(PartialFailed, category)] else [])
    + [if failure.category.BlocksAccount() then MarkAccount(failure) else MarkRoute(failure)]
  }

  /** After `Failed`: the log is exactly that. */
  lemma FailedLog(failure: ProviderFailure, log: seq<Done>, hasSpool: bool)
    requires Remaining(CallsFor(Event.Failed(failure)), log, hasSpool) == Some([])
    ensures log != []
    ensures var calls := FailedCalls(failure, log[0].ok, hasSpool);
            |log| == |calls| && forall k :: 0 <= k < |log| ==> log[k].call == calls[k]
  {
    var category := Some(failure.category);
    var mark := if failure.category.BlocksAccount() then MarkAccount(failure) else MarkRoute(failure);
    assert CallsFor(Event.Failed(failure)) == [Record(PartialFailed, category), mark];
    if !log[0].ok && hasSpool {
      var calls := [Record(PartialFailed, category), mark];
      assert AfterAnswer(calls, false, true) == [Spool(PartialFailed, category), mark];
      OneMark(mark, log[2..], hasSpool);
    } else {
      OneMark(mark, log[1..], hasSpool);
    }
  }

  lemma OneMark(mark: Call, log: seq<Done>, hasSpool: bool)
    requires mark.MarkAccount? || mark.MarkRoute?
    requires Remaining([mark], log, hasSpool) == Some([])
    ensures |log| == 1 && log[0].call == mark
  {
  }

  // ---------- Cancellation ----------

  /** A drop before the terminal event offers exactly one `Cancelled`, to the primary and if it refuses to the spool,
      after everything offered before; a drop after it, or without a runtime, offers nothing. */
  lemma DropOffersOneCancelled(
      hasSpool: bool, upstream: seq<UpstreamItem>, replies: seq<PortReply>, n: nat,
      hasRuntime: bool, recordOk: bool, spoolOk: bool)
    ensures var m := PollTimes(Start(hasSpool, upstream, replies), n).1;
            && (forall d :: d in m.log ==> d.call != Record(Cancelled, None))
            && Dropped(m, hasRuntime, recordOk, spoolOk) == m.log +
               (if m.terminalEmitted || !hasRuntime then []
                else if !recordOk && hasSpool then
                  [Done(Record(Cancelled, None), false), Done(Spool(Cancelled, None), spoolOk)]
                else [Done(Record(Cancelled, None), recordOk)])
  {
    var m := Start(hasSpool, upstream, replies);
    PollTimesInOrder(m, n);
    NeverCancelledByPolling(m, n);
    var after := PollTimes(m, n).1;
    assert after.log + [] == after.log;
  }

  /** A stream that ends without a terminal event counts as an unavailable provider: its partial failure names that
      category and the route is opened without a retry time. */
  lemma EarlyEndOpensTheRoute(recorded: bool, hasSpool: bool)
    ensures var calls := FailedCalls(POST_COMMIT_FAILURE, recorded, hasSpool);
            && calls[0] == Record(PartialFailed, Some(ProviderUnavailable))
            && calls[|calls| - 1].MarkRoute? && calls[|calls| - 1].failure.category == ProviderUnavailable
            && calls[|calls| - 1].failure.retryAt == None
  {
  }

  lemma {:induction false} RemainingNoCancel(calls: seq<Call>, log: seq<Done>, hasSpool: bool)
    requires forall c :: c in calls ==> !((c.Record? || c.Spool?) && c.outcome == Cancelled)
    requires Remaining(calls, log, hasSpool).Some?
    ensures forall d :: d in log ==> d.call != Record(Cancelled, None)
    decreases |log|
  {
    if log != [] {
      assert calls[0] in calls;
      var rest := AfterAnswer(calls, log[0].ok, hasSpool);
      forall c | c in rest
        ensures !((c.Record? || c.Spool?) && c.outcome == Cancelled)
      {
        assert c in calls || (calls[0].Record? && c == Spool(calls[0].outcome, calls[0].category));
      }
      RemainingNoCancel(rest, log[1..], hasSpool);
      assert log == [log[0]] + log[1..];
    }
  }

  lemma NeverCancelledByPolling(m: Managed, n: nat)
    requires Consistent(m) && m.log == [] && !m.terminalEmitted
    ensures forall d :: d in PollTimes(m, n).1.log ==> d.call != Record(Cancelled, None)
  {
    PollTimesInOrder(m, n);
    var run := PollTimes(m, n);
    if run.1.pending.Some? {
      RemainingNoCancel(CallsFor(run.1.pending.value.0), run.1.log, m.hasSpool);
    } else if run.1.terminalEmitted {
      RemainingNoCancel(CallsFor(run.0[|run.0| - 1]), run.1.log, m.hasSpool);
    }
  }

  /** A late `Cancelled` cannot rewrite an outcome: whatever is delivered after the first terminal record of a
      committed attempt, the row keeps that record's outcome. */
  lemma LateRecordsAreIgnored(committed: AttemptRecord, first: AttemptRecord, later: seq<AttemptRecord>)
    requires committed.outcome == AttemptOutcome.Committed && first.outcome.IsStreamTerminal()
    requires first.attemptId == committed.attemptId && first.requestId == committed.requestId
             && first.routeId == committed.routeId
    ensures var rows := DeliverAll(map[], [committed, first] + later);
            first.attemptId in rows && rows[first.attemptId] == RowOf(first)
  {
    var two := [committed, first];
    DeliverConcat(map[], two, later);
    assert two[..1] == [committed] && [committed][..0] == [];
    assert DeliverAll(map[], [committed]) == Upsert(map[], committed);
    assert DeliverAll(map[], two) == Upsert(Upsert(map[], committed), first);
    TerminalRowIsFinal(DeliverAll(map[], two), later, first.attemptId);
  }
}
