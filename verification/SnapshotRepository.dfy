// The in-process repository that serves the last-known-good snapshot while the primary is unreachable.

module SnapshotRepository {
  import opened Domain
  import opened FallbackGraph
  import opened Planning
  import opened ProbeLeases

  /** The maps behind the mutex. */
  datatype RuntimeState = RuntimeState(routes: map<RouteId, RouteRow>, accounts: map<AccountId, AccountRow>)
  {
    predicate AccountAllows(r: RouteCandidate) {
      r.accountId in accounts ==> !accounts[r.accountId].state.Blocked?
    }

    predicate ClosedRoute(r: RouteCandidate) {
      AccountAllows(r) && (r.routeId in routes ==> routes[r.routeId].state.Closed?)
    }

    predicate Retryable(r: RouteCandidate, now: int) {
      && AccountAllows(r)
      && r.routeId in routes && routes[r.routeId].state.Open?
      && routes[r.routeId].retryAt.Some? && routes[r.routeId].retryAt.value <= now
    }

    function SetRoute(route: RouteId, row: RouteRow): RuntimeState {
      if route in routes then this.(routes := routes[route := row]) else this
    }

    function SetAccount(account: AccountId, row: AccountRow): RuntimeState {
      if account in accounts then this.(accounts := accounts[account := row]) else this
    }
  }

  /** The rows that satisfy a filter, in their given order. */
  function Select(rows: seq<RouteCandidate>, keep: RouteCandidate -> bool): seq<RouteCandidate> {
    if rows == [] then []
    else if keep(rows[0]) then [rows[0]] + Select(rows[1..], keep)
    else Select(rows[1..], keep)
  }

  lemma {:induction false} SelectCount(rows: seq<RouteCandidate>, keep: RouteCandidate -> bool, r: RouteCandidate)
    ensures multiset(Select(rows, keep))[r] == if keep(r) then multiset(rows)[r] else 0
    ensures r in Select(rows, keep) <==> r in rows && keep(r)
  {
    if rows != [] {
      SelectCount(rows[1..], keep, r);
      assert rows == [rows[0]] + rows[1..];
      assert r in rows <==> r == rows[0] || r in rows[1..];
    }
  }

  lemma {:induction false} SelectAgrees(rows: seq<RouteCandidate>, p: RouteCandidate -> bool, q: RouteCandidate -> bool)
    requires forall r :: r in rows ==> p(r) == q(r)
    ensures Select(rows, p) == Select(rows, q)
  {
    if rows != [] {
      assert rows[0] in rows;
      SelectAgrees(rows[1..], p, q);
    }
  }

  function ClosedPlan(model: Model, routes: seq<RouteCandidate>, fallbacks: Graph, s: RuntimeState): Plan {
    PlanFor(model, Select(routes, r => s.ClosedRoute(r)), fallbacks)
  }

  function RetryPlan(model: Model, routes: seq<RouteCandidate>, fallbacks: Graph, s: RuntimeState, now: int): Plan {
    PlanFor(model, Select(routes, r => s.Retryable(r, now)), fallbacks)
  }

  /** The candidates a call returns and the state it leaves. */
  function CandidatesFor(model: Model, routes: seq<RouteCandidate>, fallbacks: Graph, s: RuntimeState, now: int)
    : (Plan, RuntimeState)
  {
    var closed := ClosedPlan(model, routes, fallbacks, s);
    if closed.Ok? then (closed, s)
    else
      var due := RetryPlan(model, routes, fallbacks, s, now);
      if due.Err? then (due, s)
      else
        PlanNonEmpty(model, Select(routes, r => s.Retryable(r, now)), fallbacks);
        var probe := due.value[0];
        (Ok([probe]), s.SetRoute(probe.routeId, RouteRow(HalfOpen, RetryAt(s, probe.routeId))))
  }

  function RetryAt(s: RuntimeState, route: RouteId): Option<int> {
    if route in s.routes then s.routes[route].retryAt else None
  }

  lemma PlanNonEmpty(model: Model, rows: seq<RouteCandidate>, fallbacks: Graph)
    requires PlanFor(model, rows, fallbacks).Ok?
    ensures PlanFor(model, rows, fallbacks).value != []
  {
  }

  class SnapshotStore {
    const routes: seq<RouteCandidate>
    const fallbacks: Graph
    var state: RuntimeState

    constructor (routes: seq<RouteCandidate>, fallbacks: Graph, state: RuntimeState)
      ensures this.routes == routes && this.fallbacks == fallbacks && this.state == state
    {
      this.routes, this.fallbacks, this.state := routes, fallbacks, state;
    }

    method Filter(keep: RouteCandidate -> bool) returns (kept: seq<RouteCandidate>)
      ensures kept == Select(routes, keep)
    {
      kept := [];
      for i := 0 to |routes|
        invariant Select(routes, keep) == kept + Select(routes[i..], keep)
      {
        assert routes[i..][1..] == routes[i + 1..];
        if keep(routes[i]) {
          kept := kept + [routes[i]];
        }
      }
    }

    method Candidates(model: Model, now: int) returns (r: Plan)
      modifies this
      ensures (r, state) == CandidatesFor(model, routes, fallbacks, old(state), now)
      ensures state.accounts == old(state).accounts
      ensures var probed := r.Ok? && r.value != [] && ClosedPlan(model, routes, fallbacks, old(state)).Err?;
              if probed && r.value[0].routeId in old(state).routes then
                var id := r.value[0].routeId;
                state.routes == old(state).routes[id := RouteRow(HalfOpen, old(state).routes[id].retryAt)]
              else state.routes == old(state).routes
    {
      var s := state;
      var closedRoutes := Filter(route => s.ClosedRoute(route));
      var closedPlan := CandidatePlan(model, closedRoutes, fallbacks);
      if closedPlan.Ok? {
        return closedPlan;
      }
      var retryableRoutes := Filter(route => s.Retryable(route, now));
      var duePlan := CandidatePlan(model, retryableRoutes, fallbacks);
      if duePlan.Err? {
        return duePlan;
      }
      PlanNonEmpty(model, retryableRoutes, fallbacks);
      var probe := duePlan.value[0];
      if probe.routeId in state.routes {
        var row := state.routes[probe.routeId];
        state := state.(routes := state.routes[probe.routeId := row.(state := HalfOpen)]);
      }
      return Ok([probe]);
    }

    method MarkRouteSuccess(route: RouteId)
      modifies this
      ensures state == Apply(routes, fallbacks, old(state), Succeeded(route))
      ensures state.accounts == old(state).accounts
      ensures state.routes == if route in old(state).routes then old(state).routes[route := RouteRow(Closed, None)]
                              else old(state).routes
    {
      if route in state.routes {
        state := state.(routes := state.routes[route := RouteRow(Closed, None)]);
      }
    }

    method MarkRouteFailure(route: RouteId, failure: ProviderFailure)
      modifies this
      ensures state == Apply(routes, fallbacks, old(state), RouteFailed(route, failure))
      ensures state.accounts == old(state).accounts
      ensures state.routes == if failure.category.OpensRoute() && route in old(state).routes
                              then old(state).routes[route := RouteRow(Open, failure.retryAt)] else old(state).routes
    {
      if !failure.category.OpensRoute() {
        return;
      }
      if route in state.routes {
        state := state.(routes := state.routes[route := RouteRow(Open, failure.retryAt)]);
      }
    }

    method MarkAccountFailure(account: AccountId, failure: ProviderFailure)
      modifies this
      ensures state == Apply(routes, fallbacks, old(state), AccountFailed(account, failure))
      ensures state.routes == old(state).routes
      ensures state.accounts == if failure.category.BlocksAccount() && account in old(state).accounts
                                then old(state).accounts[account := AccountRow(Blocked, failure.retryAt)]
                                else old(state).accounts
    {
      if !failure.category.BlocksAccount() {
        return;
      }
      if account in state.accounts {
        state := state.(accounts := state.accounts[account := AccountRow(Blocked, failure.retryAt)]);
      }
    }
  }

  // ---------- Runs ----------

  datatype Op =
    | Asked(model: Model, now: int)
    | Succeeded(route: RouteId)
    | RouteFailed(route: RouteId, failure: ProviderFailure)
    | AccountFailed(account: AccountId, failure: ProviderFailure)

  function Apply(routes: seq<RouteCandidate>, fallbacks: Graph, s: RuntimeState, op: Op): RuntimeState {
    match op
    case Asked(model, now) => CandidatesFor(model, routes, fallbacks, s, now).1
    case Succeeded(route) => s.SetRoute(route, RouteRow(Closed, None))
    case RouteFailed(route, failure) =>
      if failure.category.OpensRoute() then s.SetRoute(route, RouteRow(Open, failure.retryAt)) else s
    case AccountFailed(account, failure) =>
      if failure.category.BlocksAccount() then s.SetAccount(account, AccountRow(Blocked, failure.retryAt)) else s
  }

  /** The candidates one operation hands out. */
  function Offered(routes: seq<RouteCandidate>, fallbacks: Graph, s: RuntimeState, op: Op): seq<RouteCandidate> {
    match op
    case Asked(model, now) =>
      var answer := CandidatesFor(model, routes, fallbacks, s, now).0;
      if answer.Ok? then answer.value else []
    case _ => []
  }

  function OfferedInRun(routes: seq<RouteCandidate>, fallbacks: Graph, s: RuntimeState, ops: seq<Op>)
    : seq<RouteCandidate>
    decreases |ops|
  {
    if ops == [] then []
    else
      var after := Apply(routes, fallbacks, s, ops[0]);
      Offered(routes, fallbacks, s, ops[0]) + OfferedInRun(routes, fallbacks, after, ops[1..])
  }

  /** Operation `op` reports on route `id`. */
  predicate Marks(op: Op, id: RouteId) {
    (op.Succeeded? || op.RouteFailed?) && op.route == id
  }

  /** What is offered is either a closed route of an account that is not blocked, or one due route. */
  lemma OfferedAreEligible(routes: seq<RouteCandidate>, fallbacks: Graph, s: RuntimeState, op: Op, r: RouteCandidate)
    requires r in Offered(routes, fallbacks, s, op)
    ensures r in routes && op.Asked?
    ensures s.ClosedRoute(r) || (s.Retryable(r, op.now) && Offered(routes, fallbacks, s, op) == [r])
  {
    var closed := Select(routes, q => s.ClosedRoute(q));
    var due := Select(routes, q => s.Retryable(q, op.now));
    if PlanFor(op.model, closed, fallbacks).Ok? {
      PlanContents(op.model, closed, fallbacks);
      assert r in multiset(PlanFor(op.model, closed, fallbacks).value);
      assert r in multiset(closed);
      SelectCount(routes, q => s.ClosedRoute(q), r);
    } else {
      PlanHead(op.model, due, fallbacks);
      SelectCount(routes, q => s.Retryable(q, op.now), r);
    }
  }

  /** The account of `r` is not blocked, as far as the snapshot knows. */
  predicate Unblocked(s: RuntimeState, r: RouteCandidate) {
    r.accountId !in s.accounts || s.accounts[r.accountId].state != Blocked
  }

  /** `r` is closed, or has no row, and its account is not blocked. */
  predicate Takes(s: RuntimeState, r: RouteCandidate) {
    Unblocked(s, r) && (r.routeId !in s.routes || s.routes[r.routeId].state == Closed)
  }

  /** `r` is open with a retry time that has come, and its account is not blocked. */
  predicate MayProbe(s: RuntimeState, r: RouteCandidate, now: int) {
    && Unblocked(s, r)
    && r.routeId in s.routes && s.routes[r.routeId].state == Open
    && s.routes[r.routeId].retryAt.Some? && s.routes[r.routeId].retryAt.value <= now
  }

  /** The due route of the model itself that a probe would take. */
  function BestDue(routes: seq<RouteCandidate>, s: RuntimeState, model: Model, now: int): Option<RouteCandidate> {
    var due := SortByPriority(OfModel(Select(routes, r => MayProbe(s, r, now)), model));
    if due == [] then None else Some(due[0])
  }

  /** When a request for `model` is offered `r`. */
  ghost predicate OfferCondition(
      routes: seq<RouteCandidate>, fallbacks: Graph, s: RuntimeState, model: Model, now: int, r: RouteCandidate)
  {
    && !CycleReachable(fallbacks, model) && r in routes && Unblocked(s, r)
    && if exists q :: q in routes && q.logicalModel == model && Takes(s, q)
       then Takes(s, r) && Reaches(fallbacks, model, r.logicalModel)
       else BestDue(routes, s, model, now) == Some(r) && r.logicalModel == model && MayProbe(s, r, now)
  }

  lemma ClosedOffersIff(routes: seq<RouteCandidate>, fallbacks: Graph, s: RuntimeState, model: Model, r: RouteCandidate)
    ensures ClosedPlan(model, routes, fallbacks, s).Ok? <==>
              !CycleReachable(fallbacks, model)
              && exists q :: q in routes && q.logicalModel == model && s.ClosedRoute(q)
    ensures ClosedPlan(model, routes, fallbacks, s).Ok? ==>
              (r in ClosedPlan(model, routes, fallbacks, s).value <==>
                 r in routes && s.ClosedRoute(r) && Reaches(fallbacks, model, r.logicalModel))
  {
    var rows := Select(routes, q => s.ClosedRoute(q));
    PlanOutcome(model, rows, fallbacks);
    forall q
      ensures q in rows <==> q in routes && s.ClosedRoute(q)
    {
      SelectCount(routes, q => s.ClosedRoute(q), q);
    }
    if PlanFor(model, rows, fallbacks).Ok? {
      PlanContents(model, rows, fallbacks);
      var plan := PlanFor(model, rows, fallbacks).value;
      assert r in plan <==> multiset(plan)[r] > 0;
      assert r in rows <==> multiset(rows)[r] > 0;
    }
  }

  lemma DueOffersIff(routes: seq<RouteCandidate>, fallbacks: Graph, s: RuntimeState, model: Model, now: int)
    ensures RetryPlan(model, routes, fallbacks, s, now).Ok? <==>
              !CycleReachable(fallbacks, model) && BestDue(routes, s, model, now).Some?
    ensures RetryPlan(model, routes, fallbacks, s, now).Ok? ==>
              && RetryPlan(model, routes, fallbacks, s, now).value != []
              && BestDue(routes, s, model, now) == Some(RetryPlan(model, routes, fallbacks, s, now).value[0])
  {
    var rows := Select(routes, q => s.Retryable(q, now));
    SelectAgrees(routes, q => s.Retryable(q, now), q => MayProbe(s, q, now));
    var own := OfModel(rows, model);
    PlanOutcome(model, rows, fallbacks);
    HasRouteIff(rows, model);
    if own == [] {
      assert SortByPriority(own) == [];
    } else {
      SortedHead(own);
      if PlanFor(model, rows, fallbacks).Ok? {
        PlanHead(model, rows, fallbacks);
        SameBest(rows, model, PlanFor(model, rows, fallbacks).value[0]);
      }
    }
  }

  /** Two descriptions of the first route of smallest priority number. */
  lemma SameBest(rows: seq<RouteCandidate>, model: Model, head: RouteCandidate)
    requires head in rows && head.logicalModel == model
    requires forall r :: r in rows && r.logicalModel == model ==> head.priority <= r.priority
    requires [head] <= OfPriority(OfModel(rows, model), head.priority)
    ensures OfModel(rows, model) != [] && SortByPriority(OfModel(rows, model)) != []
    ensures SortByPriority(OfModel(rows, model))[0] == head
  {
    var own := OfModel(rows, model);
    HasRouteIff(rows, model);
    SortedHead(own);
    var first := SortByPriority(own)[0];
    OfModelCount(rows, model, first);
    OfModelCount(rows, model, head);
    assert first in multiset(own) && head in multiset(own);
    assert first in multiset(rows);
  }

  /** A request is offered a route exactly under that condition. */
  lemma OfferedIff(
      routes: seq<RouteCandidate>, fallbacks: Graph, s: RuntimeState, model: Model, now: int, r: RouteCandidate)
    ensures r in Offered(routes, fallbacks, s, Asked(model, now)) <==>
              OfferCondition(routes, fallbacks, s, model, now, r)
  {
    assert forall q :: Takes(s, q) <==> s.ClosedRoute(q);
    ClosedOffersIff(routes, fallbacks, s, model, r);
    DueOffersIff(routes, fallbacks, s, model, now);
    if ClosedPlan(model, routes, fallbacks, s).Err? && RetryPlan(model, routes, fallbacks, s, now).Ok? {
      ProbeIsBestDueRoute(routes, fallbacks, s, model, now);
    }
  }

  /** A half-open route, or an open one that is not due by `deadline`. */
  predicate Withheld(s: RuntimeState, id: RouteId, deadline: Option<int>) {
    && id in s.routes
    && var row := s.routes[id];
       || row.state.HalfOpen?
       || (row.state.Open? && (row.retryAt.Some? ==> deadline.Some? && deadline.value < row.retryAt.value))
  }

  predicate AsksBy(ops: seq<Op>, deadline: Option<int>) {
    forall op :: op in ops && op.Asked? && deadline.Some? ==> op.now <= deadline.value
  }

  lemma {:induction false} WithheldIsNotOffered(
      routes: seq<RouteCandidate>, fallbacks: Graph, s: RuntimeState, ops: seq<Op>, id: RouteId, deadline: Option<int>)
    requires Withheld(s, id, deadline) && AsksBy(ops, deadline)
    requires forall op :: op in ops ==> !Marks(op, id)
    ensures forall r :: r in OfferedInRun(routes, fallbacks, s, ops) ==> r.routeId != id
    decreases |ops|
  {
    if ops != [] {
      assert ops[0] in ops;
      forall r | r in Offered(routes, fallbacks, s, ops[0])
        ensures r.routeId != id
      {
        OfferedAreEligible(routes, fallbacks, s, ops[0], r);
      }
      ProbeMovesOnlyDueRoutes(routes, fallbacks, s, ops[0], id);
      WithheldIsNotOffered(routes, fallbacks, Apply(routes, fallbacks, s, ops[0]), ops[1..], id, deadline);
    }
  }

  /** Without a mark for it, a route's row changes only by being probed, and a probe keeps its retry time. */
  lemma ProbeMovesOnlyDueRoutes(routes: seq<RouteCandidate>, fallbacks: Graph, s: RuntimeState, op: Op, id: RouteId)
    requires id in s.routes && !Marks(op, id)
    ensures var after := Apply(routes, fallbacks, s, op);
            && id in after.routes
            && (after.routes[id] == s.routes[id] || after.routes[id] == s.routes[id].(state := HalfOpen))
  {
  }

  /** A probed route is offered to no one until somebody marks it. */
  lemma ProbeIsExclusive(
      routes: seq<RouteCandidate>, fallbacks: Graph, s: RuntimeState, model: Model, now: int, ops: seq<Op>,
      probe: RouteCandidate)
    requires CandidatesFor(model, routes, fallbacks, s, now).0 == Ok([probe]) && !s.ClosedRoute(probe)
    requires forall op :: op in ops ==> !Marks(op, probe.routeId)
    ensures forall r :: r in OfferedInRun(routes, fallbacks, Apply(routes, fallbacks, s, Asked(model, now)), ops) ==>
              r.routeId != probe.routeId
  {
    assert probe in Offered(routes, fallbacks, s, Asked(model, now));
    OfferedAreEligible(routes, fallbacks, s, Asked(model, now), probe);
    var closed := ClosedPlan(model, routes, fallbacks, s);
    if closed.Ok? {
      PlanContents(model, Select(routes, q => s.ClosedRoute(q)), fallbacks);
      assert probe in multiset(closed.value);
      assert probe in multiset(Select(routes, q => s.ClosedRoute(q)));
      SelectCount(routes, q => s.ClosedRoute(q), probe);
      assert false;
    }
    WithheldIsNotOffered(routes, fallbacks, Apply(routes, fallbacks, s, Asked(model, now)), ops, probe.routeId, None);
  }

  /** A probe is offered only when no closed plan exists, and it is the due route of the requested model itself
      with the smallest priority number. */
  lemma ProbeIsBestDueRoute(routes: seq<RouteCandidate>, fallbacks: Graph, s: RuntimeState, model: Model, now: int)
    requires ClosedPlan(model, routes, fallbacks, s).Err? && CandidatesFor(model, routes, fallbacks, s, now).0.Ok?
    ensures var answer := CandidatesFor(model, routes, fallbacks, s, now).0.value;
            && |answer| == 1
            && var probe := answer[0];
               && probe in routes && probe.logicalModel == model && s.Retryable(probe, now)
               && (forall r :: r in routes && r.logicalModel == model && s.Retryable(r, now) ==>
                   probe.priority <= r.priority)
  {
    var due := Select(routes, q => s.Retryable(q, now));
    PlanHead(model, due, fallbacks);
    var probe := PlanFor(model, due, fallbacks).value[0];
    SelectCount(routes, q => s.Retryable(q, now), probe);
    forall r | r in routes && r.logicalModel == model && s.Retryable(r, now)
      ensures probe.priority <= r.priority
    {
      SelectCount(routes, q => s.Retryable(q, now), r);
    }
  }

  /** A route opened by a failure is not offered before its retry time (never, if it has none) unless marked again. */
  lemma OpenedRouteIsWithheld(
      routes: seq<RouteCandidate>, fallbacks: Graph, s: RuntimeState, id: RouteId, failure: ProviderFailure,
      ops: seq<Op>)
    requires id in s.routes && failure.category.OpensRoute()
    requires forall op :: op in ops ==> !Marks(op, id)
    requires forall op :: op in ops && op.Asked? && failure.retryAt.Some? ==> op.now < failure.retryAt.value
    ensures var after := Apply(routes, fallbacks, s, RouteFailed(id, failure));
            forall r :: r in OfferedInRun(routes, fallbacks, after, ops) ==> r.routeId != id
  {
    var after := Apply(routes, fallbacks, s, RouteFailed(id, failure));
    var deadline := if failure.retryAt.Some? then Some(failure.retryAt.value - 1) else None;
    WithheldIsNotOffered(routes, fallbacks, after, ops, id, deadline);
  }

  /** Once an account is blocked none of its routes is ever offered again, whatever is marked. */
  lemma {:induction false} BlockedAccountStaysOut(
      routes: seq<RouteCandidate>, fallbacks: Graph, s: RuntimeState, account: AccountId, ops: seq<Op>)
    requires account in s.accounts && s.accounts[account].state.Blocked?
    ensures forall r :: r in OfferedInRun(routes, fallbacks, s, ops) ==> r.accountId != account
    decreases |ops|
  {
    if ops != [] {
      forall r | r in Offered(routes, fallbacks, s, ops[0])
        ensures r.accountId != account
      {
        OfferedAreEligible(routes, fallbacks, s, ops[0], r);
      }
      BlockedAccountStaysOut(routes, fallbacks, Apply(routes, fallbacks, s, ops[0]), account, ops[1..]);
    }
  }
}
