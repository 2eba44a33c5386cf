// The request loop: candidates in order, one attempt each, no replay once an execution succeeded.

module Gateway {
  import opened Domain
  import opened AttemptStore
  import Evidence

  /** What one outbound attempt returns. */
  datatype Execution =
    | Failure(failure: ProviderFailure)
    | Complete(evidence: Option<Evidence.Evidence>)
    | Streaming

  /** How the ports answer while one candidate is handled. */
  datatype Answers = Answers(
    secret: Result<(), string>,
    execution: Execution,
    recorded: bool,
    spooled: bool,
    accountMarked: Result<(), string>,
    routeMarked: Result<(), string>,
    observedAt: Option<int>  // when evidence is observed, if an accounting repository is configured
  )

  datatype Mark = AccountFailure(account: AccountId) | RouteFailure(routeId: RouteId) | RouteSuccess(routeId: RouteId)

  /** What the loop does to the outside world, in order. */
  datatype Action =
    | Executed(route: RouteCandidate, execution: Execution)
    | Recorded(record: AttemptRecord, byPrimary: bool, bySpool: Option<bool>)  // the spool is asked second, if at all
    | Marked(mark: Mark, answer: Result<(), string>)
    | Accounted(offer: Evidence.Offer)
  {
    predicate Taken() {
      Recorded? && (byPrimary || bySpool == Some(true))
    }
  }

  datatype Response = CompleteResponse | StreamingResponse

  /** Why the control plane failed a request: the text of a store's error, or one of the fixed texts. */
  datatype Reason =
    | Reported(error: string)
    | NoSpoolConfigured
    | SpoolUnavailable
    | CommitNotPersisted

  datatype ApplicationError =
    | Unauthorized
    | Configuration(reason: Reason)
    | UpstreamUnavailable
    | Upstream(message: string)

  type Inferred = Result<Response, ApplicationError>

  // ---------- One candidate ----------

  predicate Accepted(a: Answers, hasSpool: bool) {
    a.recorded || (hasSpool && a.spooled)
  }

  function FirstRecord(request: string, route: RouteCandidate, execution: Execution, id: AttemptId): AttemptRecord {
    match execution
    case Failure(f) => AttemptRecord(id, request, route.routeId, Failed, Some(CategoryName(f.category)))
    case Complete(_) => AttemptRecord(id, request, route.routeId, Succeeded, None)
    case Streaming => AttemptRecord(id, request, route.routeId, Committed, None)
  }

  function NotPersisted(execution: Execution, hasSpool: bool): Reason {
    if execution.Streaming? then CommitNotPersisted else if hasSpool then SpoolUnavailable else NoSpoolConfigured
  }

  function StoreError(marked: Result<(), string>): Inferred
    requires marked.Err?
  {
    Err(Configuration(Reported(marked.error)))
  }

  /** Whether handling the candidate ends the loop, and how. */
  function Ends(route: RouteCandidate, a: Answers, hasSpool: bool): Option<Inferred> {
    if !Accepted(a, hasSpool) then Some(Err(Configuration(NotPersisted(a.execution, hasSpool))))
    else
      match a.execution
      case Streaming => Some(Ok(StreamingResponse))
      case Complete(_) => Some(if a.routeMarked.Ok? then Ok(CompleteResponse) else StoreError(a.routeMarked))
      case Failure(f) =>
        if f.category.BlocksAccount() && a.accountMarked.Err? then Some(StoreError(a.accountMarked))
        else if f.category.OpensRoute() && a.routeMarked.Err? then Some(StoreError(a.routeMarked))
        else None
  }

  function MarksFor(route: RouteCandidate, a: Answers): seq<Action> {
    match a.execution
    case Streaming => []
    case Complete(_) => [Marked(RouteSuccess(route.routeId), a.routeMarked)]
    case Failure(f) =>
      (if f.category.BlocksAccount() then [Marked(AccountFailure(route.accountId), a.accountMarked)] else [])
      + (if f.category.OpensRoute() && !(f.category.BlocksAccount() && a.accountMarked.Err?)
         then [Marked(RouteFailure(route.routeId), a.routeMarked)] else [])
  }

  /** The record goes to the primary, and to the spool only if the primary refuses it. */
  function Offered(record: AttemptRecord, a: Answers, hasSpool: bool): Action {
    Recorded(record, a.recorded, if !a.recorded && hasSpool then Some(a.spooled) else None)
  }

  /** The evidence of a response, offered once its success is recorded and marked. */
  function EvidenceFor(route: RouteCandidate, a: Answers, hasSpool: bool, id: AttemptId): seq<Action> {
    if Accepted(a, hasSpool) && a.execution.Complete? && a.execution.evidence.Some? && a.routeMarked.Ok? then
      AsActions(Evidence.Offers(a.execution.evidence.value, route.accountId, id, a.observedAt))
    else []
  }

  function AsActions(offers: seq<Evidence.Offer>): seq<Action> {
    seq(|offers|, k requires 0 <= k < |offers| => Accounted(offers[k]))
  }

  /** Everything one executed candidate does. */
  function ActionsFor(request: string, route: RouteCandidate, a: Answers, hasSpool: bool, id: AttemptId): seq<Action> {
    [Executed(route, a.execution), Offered(FirstRecord(request, route, a.execution, id), a, hasSpool)]
    + (if Accepted(a, hasSpool) then MarksFor(route, a) else [])
    + EvidenceFor(route, a, hasSpool, id)
  }

  // ---------- The loop ----------

  /** From here on: the actions and the result, with one fresh attempt id per execution. */
  function InferFrom(
      request: string, candidates: seq<RouteCandidate>, answers: seq<Answers>, hasSpool: bool, ids: seq<AttemptId>,
      last: Option<string>)
    : (seq<Action>, Inferred)
    requires |answers| == |ids| == |candidates|
    decreases |candidates|
  {
    if candidates == [] then
      ([], Err(Upstream(if last.Some? then last.value else "no eligible route")))
    else if answers[0].secret.Err? then
      InferFrom(request, candidates[1..], answers[1..], hasSpool, ids[1..], Some(answers[0].secret.error))
    else
      var here := ActionsFor(request, candidates[0], answers[0], hasSpool, ids[0]);
      var ends := Ends(candidates[0], answers[0], hasSpool);
      if ends.Some? then (here, ends.value)
      else
        var more := InferFrom(request, candidates[1..], answers[1..], hasSpool, ids[1..],
            Some(answers[0].execution.failure.message));
        (here + more.0, more.1)
  }

  predicate RouteUnavailable(error: string) {
    "no eligible route exists for" <= error || "requested logical model" <= error
  }

  function CandidatesFailed(error: string): ApplicationError {
    if RouteUnavailable(error) then UpstreamUnavailable else Configuration(Reported(error))
  }

  function InferSpec(
      authenticated: Result<bool, string>, found: Result<seq<RouteCandidate>, string>,
      request: string, answers: seq<Answers>, hasSpool: bool, ids: seq<AttemptId>)
    : (seq<Action>, Inferred)
    requires found.Ok? ==> |answers| == |ids| == |found.value|
  {
    if authenticated.Err? then ([], Err(Configuration(Reported(authenticated.error))))
    else if !authenticated.value then ([], Err(Unauthorized))
    else if found.Err? then ([], Err(CandidatesFailed(found.error)))
    else InferFrom(request, found.value, answers, hasSpool, ids, None)
  }

  method PersistAttempt(record: AttemptRecord, a: Answers, hasSpool: bool) returns (ok: bool, log: seq<Action>)
    ensures ok <==> Accepted(a, hasSpool)
    ensures log == [Offered(record, a, hasSpool)]
  {
    if a.recorded {
      return true, [Recorded(record, true, None)];
    }
    if !hasSpool {
      return false, [Recorded(record, false, None)];
    }
    return a.spooled, [Recorded(record, false, Some(a.spooled))];
  }

  method HandleExecution(request: string, route: RouteCandidate, a: Answers, hasSpool: bool, id: AttemptId)
    returns (r: Inferred, log: seq<Action>)
    requires !a.execution.Failure?
    ensures [Executed(route, a.execution)] + log == ActionsFor(request, route, a, hasSpool, id)
    ensures Ends(route, a, hasSpool) == Some(r)
  {
    var ok;
    if a.execution.Complete? {
      ok, log := PersistAttempt(AttemptRecord(id, request, route.routeId, Succeeded, None), a, hasSpool);
      if !ok {
        return Err(Configuration(NotPersisted(a.execution, hasSpool))), log;
      }
      log := log + [Marked(RouteSuccess(route.routeId), a.routeMarked)];
      if a.routeMarked.Err? {
        return Err(Configuration(Reported(a.routeMarked.error))), log;
      }
      if a.execution.evidence.Some? {
        var offers :=
          Evidence.PersistAuthoritativeEvidence(a.execution.evidence.value, route.accountId, id, a.observedAt);
        log := log + AsActions(offers);
      }
      return Ok(CompleteResponse), log;
    }
    ok, log := PersistAttempt(AttemptRecord(id, request, route.routeId, Committed, None), a, hasSpool);
    if !ok {
      return Err(Configuration(NotPersisted(a.execution, hasSpool))), log;
    }
    return Ok(StreamingResponse), log;
  }

  method HandlePreCommitFailure(request: string, route: RouteCandidate, a: Answers, hasSpool: bool, id: AttemptId)
    returns (r: Result<(), ApplicationError>, log: seq<Action>)
    requires a.execution.Failure?
    ensures [Executed(route, a.execution)] + log == ActionsFor(request, route, a, hasSpool, id)
    ensures Ends(route, a, hasSpool) == if r.Ok? then None else Some(Err(r.error))
  {
    var f := a.execution.failure;
    var ok;
    var record := AttemptRecord(id, request, route.routeId, Failed, Some(CategoryName(f.category)));
    ok, log := PersistAttempt(record, a, hasSpool);
    if !ok {
      return Err(Configuration(NotPersisted(a.execution, hasSpool))), log;
    }
    if f.category.BlocksAccount() {
      log := log + [Marked(AccountFailure(route.accountId), a.accountMarked)];
      if a.accountMarked.Err? {
        return Err(Configuration(Reported(a.accountMarked.error))), log;
      }
    }
    if f.category.OpensRoute() {
      log := log + [Marked(RouteFailure(route.routeId), a.routeMarked)];
      if a.routeMarked.Err? {
        return Err(Configuration(Reported(a.routeMarked.error))), log;
      }
    }
    return Ok(()), log;
  }

  method Infer(
      authenticated: Result<bool, string>, found: Result<seq<RouteCandidate>, string>,
      request: string, answers: seq<Answers>, hasSpool: bool, ids: seq<AttemptId>)
    returns (r: Inferred, log: seq<Action>)
    requires found.Ok? ==> |answers| == |ids| == |found.value|
    ensures (log, r) == InferSpec(authenticated, found, request, answers, hasSpool, ids)
  {
    log := [];
    if authenticated.Err? {
      return Err(Configuration(Reported(authenticated.error))), log;
    }
    if !authenticated.value {
      return Err(Unauthorized), log;
    }
    if found.Err? {
      return Err(CandidatesFailed(found.error)), log;
    }
    var candidates := found.value;
    var lastFailure: Option<string> := None;
    for i := 0 to |candidates|
      invariant Continues(request, candidates, answers, hasSpool, ids, i, log, lastFailure)
    {
      var route, a := candidates[i], answers[i];
      ContinuesStep(request, candidates, answers, hasSpool, ids, i, log, lastFailure);
      if a.secret.Err? {
        lastFailure := Some(a.secret.error);
        continue;
      }
      ghost var before := log;
      log := log + [Executed(route, a.execution)];
      var more;
      if !a.execution.Failure? {
        r, more := HandleExecution(request, route, a, hasSpool, ids[i]);
        Regroup(before, Executed(route, a.execution), more);
        log := log + more;
        return;
      }
      var handled;
      handled, more := HandlePreCommitFailure(request, route, a, hasSpool, ids[i]);
      Regroup(before, Executed(route, a.execution), more);
      log := log + more;
      if handled.Err? {
        return Err(handled.error), log;
      }
      lastFailure := Some(a.execution.failure.message);
    }
    assert candidates[|candidates|..] == [] && log + [] == log;
    r := Err(Upstream(if lastFailure.Some? then lastFailure.value else "no eligible route"));
  }

  /** After `i` candidates: what was done, followed by the run from there, is the whole run. */
  ghost predicate Continues(
      request: string, candidates: seq<RouteCandidate>, answers: seq<Answers>, hasSpool: bool, ids: seq<AttemptId>,
      i: nat, log: seq<Action>, last: Option<string>)
    requires |answers| == |ids| == |candidates| && i <= |candidates|
  {
    var whole := InferFrom(request, candidates, answers, hasSpool, ids, None);
    var rest := InferFrom(request, candidates[i..], answers[i..], hasSpool, ids[i..], last);
    whole.0 == log + rest.0 && whole.1 == rest.1
  }

  lemma ContinuesStep(
      request: string, candidates: seq<RouteCandidate>, answers: seq<Answers>, hasSpool: bool, ids: seq<AttemptId>,
      i: nat, log: seq<Action>, last: Option<string>)
    requires |answers| == |ids| == |candidates| && i < |candidates|
    requires Continues(request, candidates, answers, hasSpool, ids, i, log, last)
    ensures var a := answers[i];
            if a.secret.Err? then
              Continues(request, candidates, answers, hasSpool, ids, i + 1, log, Some(a.secret.error))
            else
              var here := log + ActionsFor(request, candidates[i], a, hasSpool, ids[i]);
              var ends := Ends(candidates[i], a, hasSpool);
              if ends.Some? then InferFrom(request, candidates, answers, hasSpool, ids, None) == (here, ends.value)
              else
                var message := Some(a.execution.failure.message);
                Continues(request, candidates, answers, hasSpool, ids, i + 1, here, message)
  {
    RestStep(request, candidates[i..], answers[i..], hasSpool, ids[i..], log, last);
    assert candidates[i..][1..] == candidates[i + 1..] && answers[i..][1..] == answers[i + 1..]
        && ids[i..][1..] == ids[i + 1..];
  }

  /** One candidate of a run, after `log`. */
  lemma RestStep(
      request: string, candidates: seq<RouteCandidate>, answers: seq<Answers>, hasSpool: bool, ids: seq<AttemptId>,
      log: seq<Action>, last: Option<string>)
    requires |answers| == |ids| == |candidates| && candidates != []
    ensures var run := InferFrom(request, candidates, answers, hasSpool, ids, last);
            var a := answers[0];
            if a.secret.Err? then
              run == InferFrom(request, candidates[1..], answers[1..], hasSpool, ids[1..], Some(a.secret.error))
            else
              var here := log + ActionsFor(request, candidates[0], a, hasSpool, ids[0]);
              var ends := Ends(candidates[0], a, hasSpool);
              if ends.Some? then log + run.0 == here && run.1 == ends.value
              else
                var message := Some(a.execution.failure.message);
                var rest := InferFrom(request, candidates[1..], answers[1..], hasSpool, ids[1..], message);
                log + run.0 == here + rest.0 && run.1 == rest.1
  {
    var a := answers[0];
    if a.secret.Ok? && Ends(candidates[0], a, hasSpool).None? {
      var message := Some(a.execution.failure.message);
      GroupLogs(log, ActionsFor(request, candidates[0], a, hasSpool, ids[0]),
                InferFrom(request, candidates[1..], answers[1..], hasSpool, ids[1..], message).0);
    }
  }

  lemma GroupLogs(a: seq<Action>, b: seq<Action>, c: seq<Action>)
    ensures a + (b + c) == (a + b) + c
  {
  }

  lemma Regroup(log: seq<Action>, first: Action, more: seq<Action>)
    ensures (log + [first]) + more == log + ([first] + more)
  {}

  // ---------- Properties of every run ----------

  /** The routes that were executed, in order. */
  function ExecutedRoutes(log: seq<Action>): seq<RouteCandidate> {
    if log == [] then []
    else if log[0].Executed? then [log[0].route] + ExecutedRoutes(log[1..])
    else ExecutedRoutes(log[1..])
  }

  lemma {:induction false} ExecutedConcat(a: seq<Action>, b: seq<Action>)
    ensures ExecutedRoutes(a + b) == ExecutedRoutes(a) + ExecutedRoutes(b)
  {
    if a == [] {
      assert a + b == b;
    } else {
      assert (a + b)[1..] == a[1..] + b;
      ExecutedConcat(a[1..], b);
    }
  }

  /** The candidates whose secret resolves, in order. */
  function Resolved(candidates: seq<RouteCandidate>, answers: seq<Answers>): seq<RouteCandidate>
    requires |answers| == |candidates|
  {
    if candidates == [] then []
    else if answers[0].secret.Ok? then [candidates[0]] + Resolved(candidates[1..], answers[1..])
    else Resolved(candidates[1..], answers[1..])
  }

  lemma {:induction false} NoExecutions(log: seq<Action>)
    requires forall a :: a in log ==> !a.Executed?
    ensures ExecutedRoutes(log) == []
  {
    if log != [] {
      assert log[0] in log;
      NoExecutions(log[1..]);
    }
  }

  lemma ActionsExecuteOnce(request: string, route: RouteCandidate, a: Answers, hasSpool: bool, id: AttemptId)
    ensures ExecutedRoutes(ActionsFor(request, route, a, hasSpool, id)) == [route]
    ensures forall k :: 2 <= k < |ActionsFor(request, route, a, hasSpool, id)| ==>
              && !ActionsFor(request, route, a, hasSpool, id)[k].Executed?
              && !ActionsFor(request, route, a, hasSpool, id)[k].Recorded?
  {
    var log := ActionsFor(request, route, a, hasSpool, id);
    NoExecutions(log[1..]);
  }

  /** The executed routes are the candidates whose secret resolves, in order, up to the one that ended the loop;
      all of them if no route succeeded and no store failed. */
  lemma {:induction false} ExecutesInOrder(
      request: string, candidates: seq<RouteCandidate>, answers: seq<Answers>, hasSpool: bool, ids: seq<AttemptId>,
      last: Option<string>)
    requires |answers| == |ids| == |candidates|
    ensures var run := InferFrom(request, candidates, answers, hasSpool, ids, last);
            && ExecutedRoutes(run.0) <= Resolved(candidates, answers)
            && (run.1.Err? && run.1.error.Upstream? ==> ExecutedRoutes(run.0) == Resolved(candidates, answers))
    decreases |candidates|
  {
    if candidates != [] {
      if answers[0].secret.Err? {
        ExecutesInOrder(request, candidates[1..], answers[1..], hasSpool, ids[1..], Some(answers[0].secret.error));
      } else {
        var here := ActionsFor(request, candidates[0], answers[0], hasSpool, ids[0]);
        ActionsExecuteOnce(request, candidates[0], answers[0], hasSpool, ids[0]);
        if Ends(candidates[0], answers[0], hasSpool).None? {
          var message := Some(answers[0].execution.failure.message);
          ExecutesInOrder(request, candidates[1..], answers[1..], hasSpool, ids[1..], message);
          ExecutedConcat(here, InferFrom(request, candidates[1..], answers[1..], hasSpool, ids[1..], message).0);
        }
      }
    }
  }

  /** `Failed` with its category, `Succeeded`, or `Committed` for a stream, on the request and the route. */
  predicate IsFirstRecord(r: AttemptRecord, request: string, route: RouteCandidate, execution: Execution) {
    && r.requestId == request && r.routeId == route.routeId
    && r.outcome == (if execution.Failure? then Failed else if execution.Complete? then Succeeded else Committed)
    && r.failureCategory ==
       (if execution.Failure? then Some(CategoryName(execution.failure.category)) else None)
  }

  /** Each executed call is recorded at once under its own attempt id; the spool is asked exactly if the primary
      refused. */
  ghost predicate RecordedAtOnce(log: seq<Action>, request: string, hasSpool: bool, ids: seq<AttemptId>) {
    && (forall p :: 0 <= p < |log| && log[p].Executed? ==>
          && p + 1 < |log| && log[p + 1].Recorded? && log[p + 1].record.attemptId in ids
          && IsFirstRecord(log[p + 1].record, request, log[p].route, log[p].execution))
    && (forall p :: 0 <= p < |log| && log[p].Recorded? ==>
          && p > 0 && log[p - 1].Executed? && log[p].record.attemptId in ids
          && (log[p].bySpool.Some? <==> !log[p].byPrimary && hasSpool))
    && (forall p, q :: 0 <= p < q < |log| && log[p].Recorded? && log[q].Recorded? ==>
          log[p].record.attemptId != log[q].record.attemptId)
  }

  /** Whatever follows an execution came after a failure whose record was accepted. */
  ghost predicate OnlyAfterFailures(log: seq<Action>) {
    forall p, q :: 0 <= p < q < |log| && log[p].Executed? && log[q].Executed? ==>
      log[p].execution.Failure? && log[p + 1].Recorded? && log[p + 1].Taken()
  }

  /** Execution `p` produced the response, and its record was accepted. */
  predicate Answered(log: seq<Action>, p: nat, response: Response)
    requires p + 1 < |log|
  {
    && log[p].Executed? && log[p + 1].Recorded? && log[p + 1].Taken()
    && (if response.CompleteResponse? then log[p].execution.Complete? else log[p].execution.Streaming?)
  }

  /** The result reflects the last execution. */
  ghost predicate ResultMatches(log: seq<Action>, r: Inferred) {
    && (r.Ok? ==> exists p :: 0 <= p < |log| - 1 && Answered(log, p, r.value))
    && (r.Err? && r.error.Upstream? ==> forall p :: 0 <= p < |log| ==>
          (log[p].Executed? ==> log[p].execution.Failure?) && (log[p].Recorded? ==> log[p].Taken()))
    && (forall p :: 0 <= p < |log| && log[p].Recorded? && !log[p].Taken() ==>
        p == |log| - 1 && r.Err? && r.error.Configuration?)
  }

  lemma OneCandidateRecorded(request: string, route: RouteCandidate, a: Answers, hasSpool: bool, id: AttemptId)
    ensures RecordedAtOnce(ActionsFor(request, route, a, hasSpool, id), request, hasSpool, [id])
  {
    ActionsExecuteOnce(request, route, a, hasSpool, id);
  }

  lemma JoinRecorded(
      a: seq<Action>, b: seq<Action>, request: string, hasSpool: bool, id: AttemptId, ids: seq<AttemptId>)
    requires RecordedAtOnce(a, request, hasSpool, [id]) && RecordedAtOnce(b, request, hasSpool, ids) && id !in ids
    ensures RecordedAtOnce(a + b, request, hasSpool, [id] + ids)
  {
    var log := a + b;
    forall p | 0 <= p < |log| && log[p].Executed?
      ensures p + 1 < |log| && log[p + 1].Recorded? && log[p + 1].record.attemptId in [id] + ids
      ensures IsFirstRecord(log[p + 1].record, request, log[p].route, log[p].execution)
    {
      if p < |a| {
        assert log[p] == a[p] && log[p + 1] == a[p + 1];
      } else {
        assert log[p] == b[p - |a|] && log[p + 1] == b[p - |a| + 1];
      }
    }
    forall p | 0 <= p < |log| && log[p].Recorded?
      ensures p > 0 && log[p - 1].Executed? && log[p].record.attemptId in [id] + ids
      ensures log[p].bySpool.Some? <==> !log[p].byPrimary && hasSpool
      ensures p < |a| ==> log[p].record.attemptId == id
      ensures p >= |a| ==> log[p].record.attemptId in ids
    {
      if p < |a| {
        assert log[p] == a[p] && log[p - 1] == a[p - 1];
      } else {
        assert log[p] == b[p - |a|] && log[p - 1] == b[p - |a| - 1];
      }
    }
  }

  lemma {:induction false} EveryExecutionRecorded(
      request: string, candidates: seq<RouteCandidate>, answers: seq<Answers>, hasSpool: bool, ids: seq<AttemptId>,
      last: Option<string>)
    requires |answers| == |ids| == |candidates|
    requires forall i, j :: 0 <= i < j < |ids| ==> ids[i] != ids[j]
    ensures RecordedAtOnce(InferFrom(request, candidates, answers, hasSpool, ids, last).0, request, hasSpool, ids)
    decreases |candidates|
  {
    if candidates != [] {
      assert ids == [ids[0]] + ids[1..];
      if answers[0].secret.Err? {
        EveryExecutionRecorded(request, candidates[1..], answers[1..], hasSpool, ids[1..],
          Some(answers[0].secret.error));
      } else {
        var here := ActionsFor(request, candidates[0], answers[0], hasSpool, ids[0]);
        OneCandidateRecorded(request, candidates[0], answers[0], hasSpool, ids[0]);
        if Ends(candidates[0], answers[0], hasSpool).None? {
          var message := Some(answers[0].execution.failure.message);
          EveryExecutionRecorded(request, candidates[1..], answers[1..], hasSpool, ids[1..], message);
          var more := InferFrom(request, candidates[1..], answers[1..], hasSpool, ids[1..], message);
          JoinRecorded(here, more.0, request, hasSpool, ids[0], ids[1..]);
        }
      }
    }
  }

  lemma JoinAfterFailure(a: seq<Action>, b: seq<Action>, r: Inferred)
    requires |a| >= 2 && a[0].Executed? && a[0].execution.Failure? && a[1].Recorded? && a[1].Taken()
    requires forall k :: 2 <= k < |a| ==> !a[k].Executed? && !a[k].Recorded?
    requires OnlyAfterFailures(b) && ResultMatches(b, r)
    requires forall p :: 0 <= p < |b| && b[p].Executed? ==> p + 1 < |b|
    ensures OnlyAfterFailures(a + b) && ResultMatches(a + b, r)
  {
    var log := a + b;
    forall p, q | 0 <= p < q < |log| && log[p].Executed? && log[q].Executed?
      ensures log[p].execution.Failure? && log[p + 1].Recorded? && log[p + 1].Taken()
    {
      if p >= |a| {
        assert log[p] == b[p - |a|] && log[q] == b[q - |a|] && log[p + 1] == b[p - |a| + 1];
      }
    }
    if r.Ok? {
      var p :| 0 <= p < |b| - 1 && Answered(b, p, r.value);
      assert log[|a| + p] == b[p] && log[|a| + p + 1] == b[p + 1];
      assert Answered(log, |a| + p, r.value);
    }
  }

  lemma LastCandidate(request: string, route: RouteCandidate, a: Answers, hasSpool: bool, id: AttemptId)
    requires Ends(route, a, hasSpool).Some?
    ensures var here := ActionsFor(request, route, a, hasSpool, id);
            OnlyAfterFailures(here) && ResultMatches(here, Ends(route, a, hasSpool).value)
  {
    ActionsExecuteOnce(request, route, a, hasSpool, id);
    var here, r := ActionsFor(request, route, a, hasSpool, id), Ends(route, a, hasSpool).value;
    assert r.Ok? ==> Answered(here, 0, r.value);
  }

  lemma {:induction false} FallbackOnlyBeforeCommit(
      request: string, candidates: seq<RouteCandidate>, answers: seq<Answers>, hasSpool: bool, ids: seq<AttemptId>,
      last: Option<string>)
    requires |answers| == |ids| == |candidates|
    requires forall i, j :: 0 <= i < j < |ids| ==> ids[i] != ids[j]
    ensures var run := InferFrom(request, candidates, answers, hasSpool, ids, last);
            OnlyAfterFailures(run.0) && ResultMatches(run.0, run.1)
    decreases |candidates|
  {
    if candidates != [] {
      if answers[0].secret.Err? {
        FallbackOnlyBeforeCommit(request, candidates[1..], answers[1..], hasSpool, ids[1..],
          Some(answers[0].secret.error));
      } else {
        var here := ActionsFor(request, candidates[0], answers[0], hasSpool, ids[0]);
        if Ends(candidates[0], answers[0], hasSpool).None? {
          ActionsExecuteOnce(request, candidates[0], answers[0], hasSpool, ids[0]);
          var message := Some(answers[0].execution.failure.message);
          var more := InferFrom(request, candidates[1..], answers[1..], hasSpool, ids[1..], message);
          FallbackOnlyBeforeCommit(request, candidates[1..], answers[1..], hasSpool, ids[1..], message);
          EveryExecutionRecorded(request, candidates[1..], answers[1..], hasSpool, ids[1..], message);
          JoinAfterFailure(here, more.0, more.1);
        } else {
          LastCandidate(request, candidates[0], answers[0], hasSpool, ids[0]);
        }
      }
    }
  }

  /** The one mark an accepted record calls for: a failure reaches the whole account or just the route. */
  function MarkCalledFor(route: RouteCandidate, execution: Execution): Option<Mark> {
    match execution
    case Streaming => None
    case Complete(_) => Some(RouteSuccess(route.routeId))
    case Failure(f) =>
      Some(if f.category in {QuotaExhausted, CreditExhausted, SpendLimitExceeded, AuthenticationFailed}
           then AccountFailure(route.accountId) else RouteFailure(route.routeId))
  }

  /** An accepted record after execution `p` is followed by the mark it calls for, or ends the run. */
  predicate MarkAfter(log: seq<Action>, p: nat)
    requires p < |log|
  {
    log[p].Executed? && p + 1 < |log| && log[p + 1].Recorded? && log[p + 1].Taken() ==>
      var called := MarkCalledFor(log[p].route, log[p].execution);
      if called.Some? then p + 2 < |log| && log[p + 2].Marked? && log[p + 2].mark == called.value
      else p + 2 == |log|
  }

  /** Action `p`, if it is a mark, is the one that the accepted record before it calls for. */
  predicate MarkEarned(log: seq<Action>, p: nat)
    requires p < |log|
  {
    log[p].Marked? ==>
      && p >= 2 && log[p - 2].Executed? && log[p - 1].Recorded? && log[p - 1].Taken()
      && MarkCalledFor(log[p - 2].route, log[p - 2].execution) == Some(log[p].mark)
  }

  /** After each accepted record comes exactly the mark it calls for, and no mark comes from anywhere else. */
  ghost predicate MarksMatch(log: seq<Action>) {
    forall p :: 0 <= p < |log| ==> MarkAfter(log, p) && MarkEarned(log, p)
  }

  lemma OneCandidateMarks(request: string, route: RouteCandidate, a: Answers, hasSpool: bool, id: AttemptId)
    ensures MarksMatch(ActionsFor(request, route, a, hasSpool, id))
    ensures Ends(route, a, hasSpool).None? ==> |ActionsFor(request, route, a, hasSpool, id)| == 3
  {
    assert a.execution.Failure? ==>
        (a.execution.failure.category.OpensRoute() <==> !a.execution.failure.category.BlocksAccount());
    var log := ActionsFor(request, route, a, hasSpool, id);
    var marks := if Accepted(a, hasSpool) then MarksFor(route, a) else [];
    var first := [Executed(route, a.execution), Offered(FirstRecord(request, route, a.execution, id), a, hasSpool)];
    assert log == first + marks + EvidenceFor(route, a, hasSpool, id);
    MarksOfOne(first, marks, EvidenceFor(route, a, hasSpool, id));
  }

  lemma MarksOfOne(first: seq<Action>, marks: seq<Action>, evidence: seq<Action>)
    requires |first| == 2 && first[0].Executed? && first[1].Recorded?
    requires var called := MarkCalledFor(first[0].route, first[0].execution);
             if first[1].Taken() && called.Some? then |marks| == 1 && marks[0].Marked? && marks[0].mark == called.value
             else marks == []
    requires evidence != [] ==> marks != []
    requires forall k :: 0 <= k < |evidence| ==> evidence[k].Accounted?
    ensures MarksMatch(first + marks + evidence)
  {
    var log := first + marks + evidence;
    forall p | 0 <= p < |log|
      ensures MarkAfter(log, p) && MarkEarned(log, p)
    {
      if p >= 2 + |marks| {
        assert log[p] == evidence[p - 2 - |marks|];
      }
    }
  }

  lemma JoinMarks(a: seq<Action>, b: seq<Action>)
    requires MarksMatch(a) && MarksMatch(b)
    requires |a| == 3 && a[0].Executed? && a[0].execution.Failure? && a[1].Recorded? && !a[2].Executed?
    ensures MarksMatch(a + b)
  {
    var log := a + b;
    forall p | 0 <= p < |log|
      ensures MarkAfter(log, p) && MarkEarned(log, p)
    {
      if p < 3 {
        assert MarkAfter(a, p) && MarkEarned(a, p);
        assert log[p] == a[p];
      } else {
        assert MarkAfter(b, p - 3) && MarkEarned(b, p - 3);
        assert forall q :: 0 <= q < |b| ==> log[q + 3] == b[q];
      }
    }
  }

  lemma {:induction false} MarksFollowRecords(
      request: string, candidates: seq<RouteCandidate>, answers: seq<Answers>, hasSpool: bool, ids: seq<AttemptId>,
      last: Option<string>)
    requires |answers| == |ids| == |candidates|
    ensures var log := InferFrom(request, candidates, answers, hasSpool, ids, last).0;
            MarksMatch(log)
    decreases |candidates|
  {
    if candidates != [] {
      if answers[0].secret.Err? {
        MarksFollowRecords(request, candidates[1..], answers[1..], hasSpool, ids[1..], Some(answers[0].secret.error));
      } else {
        var here := ActionsFor(request, candidates[0], answers[0], hasSpool, ids[0]);
        OneCandidateMarks(request, candidates[0], answers[0], hasSpool, ids[0]);
        ActionsExecuteOnce(request, candidates[0], answers[0], hasSpool, ids[0]);
        if Ends(candidates[0], answers[0], hasSpool).None? {
          var message := Some(answers[0].execution.failure.message);
          MarksFollowRecords(request, candidates[1..], answers[1..], hasSpool, ids[1..], message);
          JoinMarks(here, InferFrom(request, candidates[1..], answers[1..], hasSpool, ids[1..], message).0);
        }
      }
    }
  }

  /** Execution `q` completed with `evidence`, was recorded and marked, and everything after that is what its evidence
      gives the accounting repository under the attempt's id. */
  ghost predicate EvidenceAfter(log: seq<Action>, q: nat, evidence: Evidence.Evidence, at: Option<int>) {
    && q + 2 < |log|
    && log[q].Executed? && log[q].execution == Complete(Some(evidence))
    && log[q + 1].Taken() && log[q + 2].Marked? && log[q + 2].answer.Ok?
    && log[q + 2].mark == RouteSuccess(log[q].route.routeId)
    && log[q + 3..] == AsActions(Evidence.Offers(evidence, log[q].route.accountId, log[q + 1].record.attemptId, at))
  }

  ghost predicate EvidenceEarned(log: seq<Action>, p: nat) {
    exists q: nat, evidence, at :: q + 2 < p && EvidenceAfter(log, q, evidence, at)
  }

  /** Evidence is offered, if at all, at the very end of a run, for the one execution that completed. */
  ghost predicate EvidenceComesLast(log: seq<Action>) {
    forall p :: 0 <= p < |log| && log[p].Accounted? ==> EvidenceEarned(log, p)
  }

  lemma OneCandidateEvidence(request: string, route: RouteCandidate, a: Answers, hasSpool: bool, id: AttemptId)
    ensures EvidenceComesLast(ActionsFor(request, route, a, hasSpool, id))
  {
    var log := ActionsFor(request, route, a, hasSpool, id);
    forall p | 0 <= p < |log| && log[p].Accounted?
      ensures EvidenceEarned(log, p)
    {
      assert log[3..] == EvidenceFor(route, a, hasSpool, id);
      assert EvidenceAfter(log, 0, a.execution.evidence.value, a.observedAt);
    }
  }

  lemma ShiftEvidence(a: seq<Action>, b: seq<Action>, q: nat, evidence: Evidence.Evidence, at: Option<int>)
    requires EvidenceAfter(b, q, evidence, at)
    ensures EvidenceAfter(a + b, |a| + q, evidence, at)
  {
    var log, n := a + b, |a| + q;
    assert log[n] == b[q] && log[n + 1] == b[q + 1] && log[n + 2] == b[q + 2] && log[n + 3..] == b[q + 3..];
  }

  lemma JoinEvidence(a: seq<Action>, b: seq<Action>)
    requires EvidenceComesLast(b) && forall p :: 0 <= p < |a| ==> !a[p].Accounted?
    ensures EvidenceComesLast(a + b)
  {
    forall p | 0 <= p < |a + b| && (a + b)[p].Accounted?
      ensures EvidenceEarned(a + b, p)
    {
      assert (a + b)[p] == b[p - |a|];
      assert EvidenceEarned(b, p - |a|);
      var q: nat, evidence, at :| q + 2 < p - |a| && EvidenceAfter(b, q, evidence, at);
      ShiftEvidence(a, b, q, evidence, at);
    }
  }

  lemma {:induction false} EvidenceFollowsSuccess(
      request: string, candidates: seq<RouteCandidate>, answers: seq<Answers>, hasSpool: bool, ids: seq<AttemptId>,
      last: Option<string>)
    requires |answers| == |ids| == |candidates|
    ensures EvidenceComesLast(InferFrom(request, candidates, answers, hasSpool, ids, last).0)
    decreases |candidates|
  {
    if candidates != [] {
      if answers[0].secret.Err? {
        EvidenceFollowsSuccess(request, candidates[1..], answers[1..], hasSpool, ids[1..],
          Some(answers[0].secret.error));
      } else {
        var here := ActionsFor(request, candidates[0], answers[0], hasSpool, ids[0]);
        OneCandidateEvidence(request, candidates[0], answers[0], hasSpool, ids[0]);
        if Ends(candidates[0], answers[0], hasSpool).None? {
          var message := Some(answers[0].execution.failure.message);
          EvidenceFollowsSuccess(request, candidates[1..], answers[1..], hasSpool, ids[1..], message);
          JoinEvidence(here, InferFrom(request, candidates[1..], answers[1..], hasSpool, ids[1..], message).0);
        }
      }
    }
  }

  // ---------- Where a run ends ----------

  /** The one record is taken by the primary or, with a spool, by the spool. */
  predicate RecordKept(a: Answers, hasSpool: bool) {
    a.recorded || (hasSpool && a.spooled)
  }

  /** The answer to the mark that the execution calls for. */
  function MarkAnswer(a: Answers): Result<(), string> {
    match a.execution
    case Streaming => Ok(())
    case Complete(_) => a.routeMarked
    case Failure(f) =>
      if f.category in {QuotaExhausted, CreditExhausted, SpendLimitExceeded, AuthenticationFailed} then a.accountMarked
      else a.routeMarked
  }

  /** The run cannot go past this candidate: it did not fail, or a store refused its record or its mark. */
  predicate Halts(a: Answers, hasSpool: bool) {
    a.secret.Ok? && (!a.execution.Failure? || !RecordKept(a, hasSpool) || MarkAnswer(a).Err?)
  }

  /** How the run ends there. */
  function Outcome(a: Answers, hasSpool: bool): Inferred {
    if !RecordKept(a, hasSpool) then
      Err(Configuration(if a.execution.Streaming? then CommitNotPersisted
                        else if hasSpool then SpoolUnavailable else NoSpoolConfigured))
    else if MarkAnswer(a).Err? then Err(Configuration(Reported(MarkAnswer(a).error)))
    else Ok(if a.execution.Streaming? then StreamingResponse else CompleteResponse)
  }

  /** The last message: of an unresolved secret or a failed execution. */
  function LastMessage(answers: seq<Answers>, before: Option<string>): string {
    if answers == [] then (if before.Some? then before.value else "no eligible route")
    else
      var a := answers[|answers| - 1];
      if a.secret.Err? then a.secret.error else if a.execution.Failure? then a.execution.failure.message else ""
  }

  lemma EndsIff(route: RouteCandidate, a: Answers, hasSpool: bool)
    requires a.secret.Ok?
    ensures Ends(route, a, hasSpool) == if Halts(a, hasSpool) then Some(Outcome(a, hasSpool)) else None
  {
    if a.execution.Failure? {
      FailureScopes(a.execution.failure.category);
    }
  }

  lemma ResolvedStep(candidates: seq<RouteCandidate>, answers: seq<Answers>, i: nat)
    requires |answers| == |candidates| && 0 < i <= |candidates|
    ensures Resolved(candidates[..i], answers[..i]) ==
              (if answers[0].secret.Ok? then [candidates[0]] else [])
              + Resolved(candidates[1..][..i - 1], answers[1..][..i - 1])
  {
    assert candidates[..i][1..] == candidates[1..][..i - 1] && answers[..i][1..] == answers[1..][..i - 1];
  }

  /** A run ends at the first candidate it cannot go past, and nowhere before: until then it tries every candidate whose
      secret resolves, in order, whatever the failures were. */
  lemma {:induction false} RunEndsAtFirstHalt(
      request: string, candidates: seq<RouteCandidate>, answers: seq<Answers>, hasSpool: bool, ids: seq<AttemptId>,
      last: Option<string>, i: nat)
    requires |answers| == |ids| == |candidates| && i < |candidates|
    requires Halts(answers[i], hasSpool) && forall k :: 0 <= k < i ==> !Halts(answers[k], hasSpool)
    ensures var run := InferFrom(request, candidates, answers, hasSpool, ids, last);
            && run.1 == Outcome(answers[i], hasSpool)
            && ExecutedRoutes(run.0) == Resolved(candidates[..i + 1], answers[..i + 1])
    decreases |candidates|
  {
    ResolvedStep(candidates, answers, i + 1);
    if answers[0].secret.Err? {
      var message := Some(answers[0].secret.error);
      RunEndsAtFirstHalt(request, candidates[1..], answers[1..], hasSpool, ids[1..], message, i - 1);
    } else {
      EndsIff(candidates[0], answers[0], hasSpool);
      var here := ActionsFor(request, candidates[0], answers[0], hasSpool, ids[0]);
      ActionsExecuteOnce(request, candidates[0], answers[0], hasSpool, ids[0]);
      if i == 0 {
        assert candidates[1..][..0] == [] && [candidates[0]] + [] == [candidates[0]];
      } else {
        assert !Halts(answers[0], hasSpool);
        var message := Some(answers[0].execution.failure.message);
        RunEndsAtFirstHalt(request, candidates[1..], answers[1..], hasSpool, ids[1..], message, i - 1);
        ExecutedConcat(here, InferFrom(request, candidates[1..], answers[1..], hasSpool, ids[1..], message).0);
      }
    }
  }

  /** If it can go past every candidate, it tries them all and reports the last message. */
  lemma {:induction false} RunExhausts(
      request: string, candidates: seq<RouteCandidate>, answers: seq<Answers>, hasSpool: bool, ids: seq<AttemptId>,
      last: Option<string>)
    requires |answers| == |ids| == |candidates|
    requires forall k :: 0 <= k < |answers| ==> !Halts(answers[k], hasSpool)
    ensures var run := InferFrom(request, candidates, answers, hasSpool, ids, last);
            && run.1 == Err(Upstream(LastMessage(answers, last)))
            && ExecutedRoutes(run.0) == Resolved(candidates, answers)
    decreases |candidates|
  {
    if candidates != [] {
      var a := answers[0];
      var message := Some(if a.secret.Err? then a.secret.error else a.execution.failure.message);
      RunExhausts(request, candidates[1..], answers[1..], hasSpool, ids[1..], message);
      if a.secret.Ok? {
        EndsIff(candidates[0], a, hasSpool);
        var here := ActionsFor(request, candidates[0], a, hasSpool, ids[0]);
        ActionsExecuteOnce(request, candidates[0], a, hasSpool, ids[0]);
        ExecutedConcat(here, InferFrom(request, candidates[1..], answers[1..], hasSpool, ids[1..], message).0);
      }
    }
  }

  /** With stores that take every record and answer every mark, fallback goes on until the first candidate that does not
      fail, and that candidate answers the request. */
  lemma FallbackReachesTheFirstSuccess(
      request: string, candidates: seq<RouteCandidate>, answers: seq<Answers>, hasSpool: bool, ids: seq<AttemptId>,
      i: nat)
    requires |answers| == |ids| == |candidates| && i < |candidates|
    requires forall k :: 0 <= k <= i ==>
               RecordKept(answers[k], hasSpool) && answers[k].accountMarked.Ok? && answers[k].routeMarked.Ok?
    requires forall k :: 0 <= k < i ==> answers[k].secret.Err? || answers[k].execution.Failure?
    requires answers[i].secret.Ok? && !answers[i].execution.Failure?
    ensures var run := InferFrom(request, candidates, answers, hasSpool, ids, None);
            && run.1 == Ok(if answers[i].execution.Streaming? then StreamingResponse else CompleteResponse)
            && ExecutedRoutes(run.0) == Resolved(candidates[..i + 1], answers[..i + 1])
  {
    RunEndsAtFirstHalt(request, candidates, answers, hasSpool, ids, None, i);
  }

  /** The last action of a log shows a store that refused: a record nobody took, or a mark answered with an error. */
  predicate EndsRefused(log: seq<Action>, reason: Reason) {
    && log != []
    && var last := log[|log| - 1];
       || (last.Recorded? && !last.Taken() && reason in {CommitNotPersisted, SpoolUnavailable, NoSpoolConfigured})
       || (last.Marked? && last.answer.Err? && reason == Reported(last.answer.error))
  }

  lemma {:induction false} ConfigurationMeansRefused(
      request: string, candidates: seq<RouteCandidate>, answers: seq<Answers>, hasSpool: bool, ids: seq<AttemptId>,
      last: Option<string>)
    requires |answers| == |ids| == |candidates|
    ensures var run := InferFrom(request, candidates, answers, hasSpool, ids, last);
            && (run.1.Err? ==> run.1.error.Upstream? || run.1.error.Configuration?)
            && (run.1.Err? && run.1.error.Configuration? ==> EndsRefused(run.0, run.1.error.reason))
    decreases |candidates|
  {
    if candidates != [] {
      var a := answers[0];
      if a.secret.Err? {
        ConfigurationMeansRefused(request, candidates[1..], answers[1..], hasSpool, ids[1..], Some(a.secret.error));
      } else {
        var here := ActionsFor(request, candidates[0], a, hasSpool, ids[0]);
        if Ends(candidates[0], a, hasSpool).None? {
          var message := Some(a.execution.failure.message);
          ConfigurationMeansRefused(request, candidates[1..], answers[1..], hasSpool, ids[1..], message);
          LastOfBoth(here, InferFrom(request, candidates[1..], answers[1..], hasSpool, ids[1..], message).0);
        } else if Ends(candidates[0], a, hasSpool).value.Err? {
          RefusedHere(request, candidates[0], a, hasSpool, ids[0]);
        }
      }
    }
  }

  lemma RefusedHere(request: string, route: RouteCandidate, a: Answers, hasSpool: bool, id: AttemptId)
    requires a.secret.Ok? && Ends(route, a, hasSpool).Some? && Ends(route, a, hasSpool).value.Err?
    ensures Ends(route, a, hasSpool).value.error.Configuration?
    ensures EndsRefused(ActionsFor(request, route, a, hasSpool, id), Ends(route, a, hasSpool).value.error.reason)
  {
    if a.execution.Failure? {
      FailureScopes(a.execution.failure.category);
    }
    assert EvidenceFor(route, a, hasSpool, id) == [];
    var log := ActionsFor(request, route, a, hasSpool, id);
    assert |log| == if Accepted(a, hasSpool) then 3 else 2;
  }

  lemma LastOfBoth(a: seq<Action>, b: seq<Action>)
    ensures b != [] ==> (a + b)[|a + b| - 1] == b[|b| - 1]
  {
  }

  // ---------- What reaches the loop ----------

  /** Requests that never reach a candidate: a store that cannot authenticate, an unknown key, and no candidates. */
  lemma RefusedBeforeTheLoop(
      authenticated: Result<bool, string>, found: Result<seq<RouteCandidate>, string>,
      request: string, answers: seq<Answers>, hasSpool: bool, ids: seq<AttemptId>)
    requires found.Ok? ==> |answers| == |ids| == |found.value|
    requires authenticated != Ok(true) || found.Err?
    ensures var run := InferSpec(authenticated, found, request, answers, hasSpool, ids);
            && run.0 == []
            && (authenticated.Err? ==> run.1 == Err(Configuration(Reported(authenticated.error))))
            && (authenticated == Ok(false) ==> run.1 == Err(Unauthorized))
            && (authenticated == Ok(true) ==>
                  run.1 == (if || (exists rest :: found.error == "no eligible route exists for" + rest)
                               || (exists rest :: found.error == "requested logical model" + rest)
                            then Err(UpstreamUnavailable) else Err(Configuration(Reported(found.error)))))
  {
    if found.Err? {
      StartsWith("no eligible route exists for", found.error);
      StartsWith("requested logical model", found.error);
    }
  }

  lemma StartsWith(prefix: string, text: string)
    ensures prefix <= text <==> exists rest :: text == prefix + rest
  {
    if prefix <= text {
      assert text == prefix + text[|prefix|..];
    }
  }

  /** A completed response's evidence is offered, all of it that is usable, right after its mark. */
  lemma {:induction false} CompletedEvidenceIsOffered(
      request: string, candidates: seq<RouteCandidate>, answers: seq<Answers>, hasSpool: bool, ids: seq<AttemptId>,
      last: Option<string>)
    requires |answers| == |ids| == |candidates|
    requires InferFrom(request, candidates, answers, hasSpool, ids, last).1 == Ok(CompleteResponse)
    ensures var log := InferFrom(request, candidates, answers, hasSpool, ids, last).0;
            exists q: nat, i: nat :: Completed(log, q, candidates, answers, i)
    decreases |candidates|
  {
    var a := answers[0];
    if a.secret.Err? {
      CompletedEvidenceIsOffered(request, candidates[1..], answers[1..], hasSpool, ids[1..], Some(a.secret.error));
      var log := InferFrom(request, candidates[1..], answers[1..], hasSpool, ids[1..], Some(a.secret.error)).0;
      var q: nat, i: nat :| Completed(log, q, candidates[1..], answers[1..], i);
      assert Completed(log, q, candidates, answers, i + 1);
    } else {
      var here := ActionsFor(request, candidates[0], a, hasSpool, ids[0]);
      if Ends(candidates[0], a, hasSpool).None? {
        var message := Some(a.execution.failure.message);
        CompletedEvidenceIsOffered(request, candidates[1..], answers[1..], hasSpool, ids[1..], message);
        var log := InferFrom(request, candidates[1..], answers[1..], hasSpool, ids[1..], message).0;
        var q: nat, i: nat :| Completed(log, q, candidates[1..], answers[1..], i);
        ShiftCompleted(here, log, q, candidates, answers, i);
      } else {
        assert here[3..] == EvidenceFor(candidates[0], a, hasSpool, ids[0]);
        assert Completed(here, 0, candidates, answers, 0);
      }
    }
  }

  /** Candidate `i` completed at `q`, and what follows its mark is exactly what its evidence gives. */
  ghost predicate Completed(
      log: seq<Action>, q: nat, candidates: seq<RouteCandidate>, answers: seq<Answers>, i: nat)
  {
    && i < |candidates| == |answers| && q + 2 < |log|
    && answers[i].execution.Complete? && log[q] == Executed(candidates[i], answers[i].execution)
    && log[q + 1].Taken() && log[q + 2].Marked? && log[q + 2].mark == RouteSuccess(candidates[i].routeId)
    && log[q + 3..] ==
       match answers[i].execution.evidence
       case None => []
       case Some(e) =>
         AsActions(Evidence.Offers(e, candidates[i].accountId, log[q + 1].record.attemptId, answers[i].observedAt))
  }

  lemma ShiftCompleted(
      a: seq<Action>, b: seq<Action>, q: nat, candidates: seq<RouteCandidate>, answers: seq<Answers>, i: nat)
    requires candidates != [] && |candidates| == |answers| && Completed(b, q, candidates[1..], answers[1..], i)
    ensures Completed(a + b, |a| + q, candidates, answers, i + 1)
  {
    var log, n := a + b, |a| + q;
    assert log[n] == b[q] && log[n + 1] == b[q + 1] && log[n + 2] == b[q + 2] && log[n + 3..] == b[q + 3..];
  }

  // ---------- Every run ----------

  /** Every run of `infer`: routes execute in candidate order; each is recorded at once under its own id; another
      route executes only after a failure whose record was accepted; each accepted record is followed by exactly the
      mark it calls for; evidence comes last, under the completed attempt's id; and the result is the last
      execution's. */
  lemma InferIsSafe(
      authenticated: Result<bool, string>, found: Result<seq<RouteCandidate>, string>,
      request: string, answers: seq<Answers>, hasSpool: bool, ids: seq<AttemptId>)
    requires found.Ok? ==> |answers| == |ids| == |found.value|
    requires forall i, j :: 0 <= i < j < |ids| ==> ids[i] != ids[j]
    ensures var run := InferSpec(authenticated, found, request, answers, hasSpool, ids);
            && RecordedAtOnce(run.0, request, hasSpool, ids) && OnlyAfterFailures(run.0)
            && ResultMatches(run.0, run.1) && MarksMatch(run.0) && EvidenceComesLast(run.0)
            && (run.0 != [] ==>
                  && authenticated == Ok(true) && found.Ok?
                  && ExecutedRoutes(run.0) <= Resolved(found.value, answers))
  {
    if authenticated == Ok(true) && found.Ok? {
      EveryExecutionRecorded(request, found.value, answers, hasSpool, ids, None);
      FallbackOnlyBeforeCommit(request, found.value, answers, hasSpool, ids, None);
      ExecutesInOrder(request, found.value, answers, hasSpool, ids, None);
      MarksFollowRecords(request, found.value, answers, hasSpool, ids, None);
      EvidenceFollowsSuccess(request, found.value, answers, hasSpool, ids, None);
    }
  }
}
