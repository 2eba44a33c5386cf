// The repository the gateway runs on: the primary, and the snapshot for whatever the primary refuses.

module SnapshotFallback {
  import opened Domain
  import opened FallbackGraph
  import opened Planning
  import opened ProbeLeases
  import opened SnapshotRepository
  import opened Repositories

  /** One call, with the primary's answer to it. */
  datatype Call =
    | Ask(model: Model, now: int, primary: Candidates)
    | Mark(op: Op, accepted: bool)

  /** The operation the snapshot sees, if the primary refuses the call. */
  function FallenThrough(call: Call): Option<Op> {
    match call
    case Ask(model, now, primary) => if primary.Ok? then None else Some(Asked(model, now))
    case Mark(op, accepted) => if accepted then None else Some(op)
  }

  function StateAfter(routes: seq<RouteCandidate>, fallbacks: Graph, s: RuntimeState, call: Call): RuntimeState {
    var op := FallenThrough(call);
    if op.None? then s else Apply(routes, fallbacks, s, op.value)
  }

  /** The candidates one call hands out. */
  function Answer(routes: seq<RouteCandidate>, fallbacks: Graph, s: RuntimeState, call: Call): seq<RouteCandidate> {
    var op := FallenThrough(call);
    if op.Some? then Offered(routes, fallbacks, s, op.value)
    else if call.Ask? then call.primary.value
    else []
  }

  class SnapshotFallback {
    const fallback: SnapshotStore

    constructor (fallback: SnapshotStore)
      ensures this.fallback == fallback
    {
      this.fallback := fallback;
    }

    method Candidates(model: Model, now: int, primary: Candidates) returns (r: Plan)
      modifies fallback
      ensures fallback.state ==
              StateAfter(fallback.routes, fallback.fallbacks, old(fallback.state), Ask(model, now, primary))
      ensures r == if primary.Ok? then Ok(primary.value)
                   else CandidatesFor(model, fallback.routes, fallback.fallbacks, old(fallback.state), now).0
    {
      if primary.Ok? {
        return Ok(primary.value);
      }
      r := fallback.Candidates(model, now);
    }

    method MarkRouteSuccess(route: RouteId, primary: Result<(), string>)
      modifies fallback
      ensures fallback.state ==
              StateAfter(fallback.routes, fallback.fallbacks, old(fallback.state), Mark(Succeeded(route), primary.Ok?))
    {
      if primary.Err? {
        fallback.MarkRouteSuccess(route);
      }
    }

    method MarkRouteFailure(route: RouteId, failure: ProviderFailure, primary: Result<(), string>)
      modifies fallback
      ensures fallback.state ==
              StateAfter(fallback.routes, fallback.fallbacks, old(fallback.state),
                         Mark(RouteFailed(route, failure), primary.Ok?))
    {
      if primary.Err? {
        fallback.MarkRouteFailure(route, failure);
      }
    }

    method MarkAccountFailure(account: AccountId, failure: ProviderFailure, primary: Result<(), string>)
      modifies fallback
      ensures fallback.state ==
              StateAfter(fallback.routes, fallback.fallbacks, old(fallback.state),
                         Mark(AccountFailed(account, failure), primary.Ok?))
    {
      if primary.Err? {
        fallback.MarkAccountFailure(account, failure);
      }
    }
  }

  // ---------- Runs of the pair ----------

  function Answers(routes: seq<RouteCandidate>, fallbacks: Graph, s: RuntimeState, calls: seq<Call>)
    : seq<RouteCandidate>
    decreases |calls|
  {
    if calls == [] then []
    else
      var after := StateAfter(routes, fallbacks, s, calls[0]);
      Answer(routes, fallbacks, s, calls[0]) + Answers(routes, fallbacks, after, calls[1..])
  }

  /** The snapshot's own history: the calls the primary refused. */
  function SnapshotRun(calls: seq<Call>): seq<Op> {
    if calls == [] then []
    else
      var op := FallenThrough(calls[0]);
      (if op.Some? then [op.value] else []) + SnapshotRun(calls[1..])
  }

  /** The primary offers no route of `account`, as after the account was blocked there. */
  predicate PrimaryWithholds(calls: seq<Call>, account: AccountId) {
    forall call :: call in calls && call.Ask? && call.primary.Ok? ==>
      forall r :: r in call.primary.value ==> r.accountId != account
  }

  /** The primary's answer to a request, with the account blocked in its tables: whatever its rows and leases are, or
      the error of a store that could not be reached. */
  ghost predicate BlockedAnswer(call: Call, account: AccountId)
    requires call.Ask?
  {
    || call.primary == Err(StoreFailed)
    || exists rows, fallbacks, t, accounts, outcomes ::
         IsBlockedAnswer(call, account, rows, fallbacks, t, accounts, outcomes)
  }

  ghost predicate IsBlockedAnswer(
      call: Call, account: AccountId, rows: seq<RouteCandidate>, fallbacks: Graph, t: Tables,
      accounts: map<AccountId, AccountRow>, outcomes: seq<Acquired>)
    requires call.Ask?
  {
    && account in accounts && accounts[account].state.Blocked?
    && var kept := PostgresRows(call.model, rows, fallbacks, t, accounts);
       var plan := PlanFor(call.model, kept, fallbacks);
       && (plan.Ok? ==> |outcomes| == |plan.value|)
       && call.primary == PrimaryAnswer(call.model, kept, fallbacks, t, outcomes)
  }

  /** Every request in the run finds the account blocked in the primary. */
  ghost predicate PrimaryBlocks(calls: seq<Call>, account: AccountId) {
    forall call :: call in calls && call.Ask? ==> BlockedAnswer(call, account)
  }

  /** What the runs below assume of a primary holds of the one whose tables have the account blocked. */
  lemma BlockedPrimaryWithholds(calls: seq<Call>, account: AccountId)
    requires PrimaryBlocks(calls, account)
    ensures PrimaryWithholds(calls, account)
  {
    forall call, r | call in calls && call.Ask? && call.primary.Ok? && r in call.primary.value
      ensures r.accountId != account
    {
      var rows, fallbacks, t, accounts, outcomes :|
        IsBlockedAnswer(call, account, rows, fallbacks, t, accounts, outcomes);
      PrimaryWithholdsBlocked(call.model, rows, fallbacks, t, accounts, outcomes, r);
    }
  }

  /** The pair offers a route of an account the primary withholds exactly where the snapshot, knowing only the calls
      the primary refused, offers it. */
  lemma {:induction false} OnlyTheSnapshotOffers(
      routes: seq<RouteCandidate>, fallbacks: Graph, s: RuntimeState, calls: seq<Call>, account: AccountId,
      r: RouteCandidate)
    requires PrimaryWithholds(calls, account) && r.accountId == account
    ensures r in Answers(routes, fallbacks, s, calls) <==> r in OfferedInRun(routes, fallbacks, s, SnapshotRun(calls))
    decreases |calls|
  {
    if calls != [] {
      var rest := SnapshotRun(calls[1..]);
      OnlyTheSnapshotOffers(routes, fallbacks, StateAfter(routes, fallbacks, s, calls[0]), calls[1..], account, r);
      assert calls[0] in calls;
      var op := FallenThrough(calls[0]);
      if op.Some? {
        assert SnapshotRun(calls)[1..] == rest;
      } else {
        assert SnapshotRun(calls) == rest;
      }
    }
  }

  // ---------- Which calls offer such a route ----------

  /** One call offers a route of an account the primary withholds if and only if the primary refuses the call, no cycle
      is reachable from the model, the snapshot allows the account, and the route is either closed and belongs to a
      reachable model, where the model has a closed route of its own, or is otherwise the model's best due route. */
  lemma OfferedByCallIff(
      routes: seq<RouteCandidate>, fallbacks: Graph, s: RuntimeState, model: Model, now: int, primary: Candidates,
      r: RouteCandidate)
    requires PrimaryWithholds([Ask(model, now, primary)], r.accountId)
    ensures r in Answer(routes, fallbacks, s, Ask(model, now, primary)) <==>
              primary.Err? && OfferCondition(routes, fallbacks, s, model, now, r)
  {
    var call := Ask(model, now, primary);
    assert call in [call];
    if primary.Err? {
      OfferedIff(routes, fallbacks, s, model, now, r);
    }
  }

  // ---------- Whether such a route can come back at all ----------

  lemma CycleThroughReached(g: Graph, a: Model, b: Model)
    requires Reaches(g, a, b) && CycleReachable(g, b)
    ensures CycleReachable(g, a)
  {
    var c :| Reaches(g, b, c) && OnCycle(g, c);
    var p :| Path(g, p, a, b);
    var q :| Path(g, q, b, c);
    JoinPaths(g, p, q, a, b, c);
  }

  lemma OfferedNowIsAllowed(routes: seq<RouteCandidate>, fallbacks: Graph, s: RuntimeState, op: Op, r: RouteCandidate)
    requires r in Offered(routes, fallbacks, s, op)
    ensures r in routes && s.AccountAllows(r) && !CycleReachable(fallbacks, r.logicalModel)
  {
    OfferedIff(routes, fallbacks, s, op.model, op.now, r);
    if CycleReachable(fallbacks, r.logicalModel) {
      ReachesSelf(fallbacks, r.logicalModel);
      CycleThroughReached(fallbacks, op.model, r.logicalModel);
    }
  }

  /** No operation unblocks an account. */
  lemma BlocksStay(routes: seq<RouteCandidate>, fallbacks: Graph, s: RuntimeState, op: Op, r: RouteCandidate)
    requires Apply(routes, fallbacks, s, op).AccountAllows(r)
    ensures s.AccountAllows(r)
  {
  }

  lemma {:induction false} OfferedWasAllowed(
      routes: seq<RouteCandidate>, fallbacks: Graph, s: RuntimeState, ops: seq<Op>, r: RouteCandidate)
    requires r in OfferedInRun(routes, fallbacks, s, ops)
    ensures r in routes && s.AccountAllows(r) && !CycleReachable(fallbacks, r.logicalModel)
    decreases |ops|
  {
    if r in Offered(routes, fallbacks, s, ops[0]) {
      OfferedNowIsAllowed(routes, fallbacks, s, ops[0], r);
    } else {
      OfferedWasAllowed(routes, fallbacks, Apply(routes, fallbacks, s, ops[0]), ops[1..], r);
      BlocksStay(routes, fallbacks, s, ops[0], r);
    }
  }

  /** The two calls that bring a route back: the primary refuses a success mark for it, and then a request. */
  function ComeBackRun(r: RouteCandidate, now: int): seq<Call> {
    [Mark(Succeeded(r.routeId), false), Ask(r.logicalModel, now, Err(StoreFailed))]
  }

  lemma ComeBackRunOffers(
      routes: seq<RouteCandidate>, fallbacks: Graph, s: RuntimeState, r: RouteCandidate, now: int)
    requires r in routes && s.AccountAllows(r) && !CycleReachable(fallbacks, r.logicalModel)
    ensures PrimaryBlocks(ComeBackRun(r, now), r.accountId)
    ensures r in Answers(routes, fallbacks, s, ComeBackRun(r, now))
  {
    var calls := ComeBackRun(r, now);
    var after := StateAfter(routes, fallbacks, s, calls[0]);
    assert after.ClosedRoute(r);
    ReachesSelf(fallbacks, r.logicalModel);
    OfferedIff(routes, fallbacks, after, r.logicalModel, now, r);
    assert calls[1..] == [calls[1]];
    assert r in Answer(routes, fallbacks, after, calls[1]);
  }

  /** A route of an account that is blocked in the primary can come back through the pair if and only if the snapshot
      lists it, its own state does not block the account, and no fallback cycle is reachable from the route's model.
      The same for every primary that withholds the account's routes, and for the one whose tables block it. */
  lemma BlockedRouteComesBackIff(routes: seq<RouteCandidate>, fallbacks: Graph, s: RuntimeState, r: RouteCandidate)
    ensures (exists calls :: PrimaryWithholds(calls, r.accountId) && r in Answers(routes, fallbacks, s, calls))
            <==> r in routes && s.AccountAllows(r) && !CycleReachable(fallbacks, r.logicalModel)
    ensures (exists calls :: PrimaryBlocks(calls, r.accountId) && r in Answers(routes, fallbacks, s, calls))
            <==> r in routes && s.AccountAllows(r) && !CycleReachable(fallbacks, r.logicalModel)
  {
    forall calls | PrimaryWithholds(calls, r.accountId) && r in Answers(routes, fallbacks, s, calls)
      ensures r in routes && s.AccountAllows(r) && !CycleReachable(fallbacks, r.logicalModel)
    {
      OnlyTheSnapshotOffers(routes, fallbacks, s, calls, r.accountId, r);
      OfferedWasAllowed(routes, fallbacks, s, SnapshotRun(calls), r);
    }
    forall calls | PrimaryBlocks(calls, r.accountId)
      ensures PrimaryWithholds(calls, r.accountId)
    {
      BlockedPrimaryWithholds(calls, r.accountId);
    }
    if r in routes && s.AccountAllows(r) && !CycleReachable(fallbacks, r.logicalModel) {
      ComeBackRunOffers(routes, fallbacks, s, r, 0);
    }
  }

  /** It stays out once the snapshot itself has the account blocked, which takes a mark the primary refused. */
  lemma BlockedInBothStaysOut(
      routes: seq<RouteCandidate>, fallbacks: Graph, s: RuntimeState, calls: seq<Call>, account: AccountId)
    requires PrimaryWithholds(calls, account) && account in s.accounts && s.accounts[account].state.Blocked?
    ensures forall r :: r in Answers(routes, fallbacks, s, calls) ==> r.accountId != account
  {
    forall r | r in Answers(routes, fallbacks, s, calls) && r.accountId == account
      ensures false
    {
      BlockedRouteComesBackIff(routes, fallbacks, s, r);
    }
  }

  /** No run ever offers a route of `account` that the primary blocks. */
  ghost predicate NeverOffered(routes: seq<RouteCandidate>, fallbacks: Graph, s: RuntimeState, account: AccountId) {
    forall calls, r: RouteCandidate :: PrimaryBlocks(calls, account) && r.accountId == account ==>
      r !in Answers(routes, fallbacks, s, calls)
  }

  /** An account blocked in the primary stays out of every run if and only if the snapshot's own state blocks it too,
      or every route the snapshot lists for it belongs to a model from which a cycle is reachable. */
  lemma BlockedAccountStaysOutIff(routes: seq<RouteCandidate>, fallbacks: Graph, s: RuntimeState, account: AccountId)
    ensures NeverOffered(routes, fallbacks, s, account) <==>
              || (account in s.accounts && s.accounts[account].state.Blocked?)
              || forall r :: r in routes && r.accountId == account ==> CycleReachable(fallbacks, r.logicalModel)
  {
    if NeverOffered(routes, fallbacks, s, account) {
      forall r | r in routes && r.accountId == account && s.AccountAllows(r)
        ensures CycleReachable(fallbacks, r.logicalModel)
      {
        BlockedRouteComesBackIff(routes, fallbacks, s, r);
      }
    } else {
      var calls, r: RouteCandidate :|
        PrimaryBlocks(calls, account) && r.accountId == account && r in Answers(routes, fallbacks, s, calls);
      BlockedRouteComesBackIff(routes, fallbacks, s, r);
    }
  }

  // ---------- An input ----------

  /** The primary blocks the account of a model's only route, accepts the mark, and so has no route for the next
      request; the snapshot, which never heard of the block, offers the route again. */
  lemma BlockedInPrimaryOnly(
      r: RouteCandidate, failure: ProviderFailure, now: int, t: Tables, accounts: map<AccountId, AccountRow>)
    requires failure.category.BlocksAccount()
    ensures var blocked := accounts[r.accountId := AccountRow(Blocked, failure.retryAt)];
            var kept := PostgresRows(r.logicalModel, [r], map[], t, blocked);
            PlanFor(r.logicalModel, kept, map[]) == Err(UnknownModel(r.logicalModel))
            && var answer := PrimaryAnswer(r.logicalModel, kept, map[], t, []);
               var calls := [Mark(AccountFailed(r.accountId, failure), true), Ask(r.logicalModel, now, answer)];
               var s := RuntimeState(map[], map[r.accountId := AccountRow(Available, None)]);
               PrimaryBlocks(calls, r.accountId) && Answers([r], map[], s, calls) == [r]
  {
    var blocked := accounts[r.accountId := AccountRow(Blocked, failure.retryAt)];
    var kept := PostgresRows(r.logicalModel, [r], map[], t, blocked);
    NothingKept(r, t, blocked);
    var answer := PrimaryAnswer(r.logicalModel, kept, map[], t, []);
    var mark := Mark(AccountFailed(r.accountId, failure), true);
    var ask := Ask(r.logicalModel, now, answer);
    assert IsBlockedAnswer(ask, r.accountId, [r], map[], t, blocked, []);
    var s := RuntimeState(map[], map[r.accountId := AccountRow(Available, None)]);
    OnlyRoutePlan(r, s);
    assert Answer([r], map[], s, ask) == [r];
    assert [mark, ask][1..] == [ask] && [ask][1..] == [];
    assert Answers([r], map[], s, [ask]) == [r];
    assert Answer([r], map[], s, mark) == [];
  }

  lemma NothingKept(r: RouteCandidate, t: Tables, accounts: map<AccountId, AccountRow>)
    requires r.accountId in accounts && accounts[r.accountId].state.Blocked?
    ensures PostgresRows(r.logicalModel, [r], map[], t, accounts) == []
  {
    var reachable := ReachableModels(map[], {r.logicalModel});
    var keep := (q: RouteCandidate) => q.logicalModel in reachable && RowEligible(t, accounts, q);
    SelectAgrees([r], keep, q => false);
    assert [r][1..] == [] && Select([r], q => false) == [];
  }

  lemma OnlyRoutePlan(r: RouteCandidate, s: RuntimeState)
    requires s.ClosedRoute(r)
    ensures ClosedPlan(r.logicalModel, [r], map[], s) == Ok([r])
  {
    var rows := Select([r], q => s.ClosedRoute(q));
    SelectAgrees([r], q => s.ClosedRoute(q), q => true);
    assert [r][1..] == [] && Select([r], q => true) == [r] + Select([], q => true);
    var plan := PlanFor(r.logicalModel, rows, map[]);
    PlanOutcome(r.logicalModel, rows, map[]);
    NoCycle(r.logicalModel);
    PlanContents(r.logicalModel, rows, map[]);
    ReachesSelf(map[], r.logicalModel);
    OnlyMember(plan.value, r);
  }

  lemma OnlyMember(routes: seq<RouteCandidate>, r: RouteCandidate)
    requires multiset(routes)[r] == 1 && forall q :: q != r ==> multiset(routes)[q] == 0
    ensures routes == [r]
  {
    assert multiset(routes) == multiset([r]);
    SameLength(routes, [r]);
    assert routes[0] in multiset(routes);
  }

  lemma NoCycle(m: Model)
    ensures !CycleReachable(map[], m)
  {
    assert Visit(map[], m, {}, {}).Walked?;
    WalkTheorem(map[], m);
  }


  /** A block that the primary refuses does reach the snapshot, and then keeps the account out of every later run. */
  lemma RefusedBlockReachesTheSnapshot(
      routes: seq<RouteCandidate>, fallbacks: Graph, s: RuntimeState, account: AccountId, failure: ProviderFailure)
    requires account in s.accounts && failure.category.BlocksAccount()
    ensures var after := StateAfter(routes, fallbacks, s, Mark(AccountFailed(account, failure), false));
            after.accounts == s.accounts[account := AccountRow(Blocked, failure.retryAt)]
            && NeverOffered(routes, fallbacks, after, account)
  {
    var after := StateAfter(routes, fallbacks, s, Mark(AccountFailed(account, failure), false));
    BlockedAccountStaysOutIff(routes, fallbacks, after, account);
  }
}
