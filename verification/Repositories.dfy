// How the PostgreSQL, SQLite and snapshot repositories feed the planner, and when they agree.

module Repositories {
  import opened Domain
  import opened FallbackGraph
  import opened Planning
  import opened ProbeLeases
  import opened SnapshotRepository

  // ---------- Row filters ----------

  /** The shared part of both SQL filters; both tables are inner-joined, so a missing state row drops the route. */
  predicate RowEligible(t: Tables, accounts: map<AccountId, AccountRow>, r: RouteCandidate) {
    && r.routeId in t.routes && r.accountId in accounts && !accounts[r.accountId].state.Blocked?
    && (t.routes[r.routeId].state.Closed? || t.Due(r.routeId))
  }

  function SqliteRows(rows: seq<RouteCandidate>, t: Tables, accounts: map<AccountId, AccountRow>): seq<RouteCandidate> {
    Select(rows, r => RowEligible(t, accounts, r))
  }

  function PostgresRows(
      model: Model, rows: seq<RouteCandidate>, fallbacks: Graph, t: Tables, accounts: map<AccountId, AccountRow>)
    : seq<RouteCandidate>
  {
    var reachable := ReachableModels(fallbacks, {model});
    Select(rows, (r: RouteCandidate) => r.logicalModel in reachable && RowEligible(t, accounts, r))
  }

  /** The conditions of both queries, written out. */
  predicate Keeps(t: Tables, accounts: map<AccountId, AccountRow>, r: RouteCandidate) {
    && r.accountId in accounts && accounts[r.accountId].state != Blocked
    && r.routeId in t.routes
    && (t.routes[r.routeId].state == Closed
        || (t.routes[r.routeId].state in {Open, HalfOpen}
            && t.routes[r.routeId].retryAt.Some? && t.routes[r.routeId].retryAt.value <= t.now))
  }

  /** The SQLite query keeps every row that meets them, as often as it is there, and no other. */
  lemma SqliteRowsIff(rows: seq<RouteCandidate>, t: Tables, accounts: map<AccountId, AccountRow>, r: RouteCandidate)
    ensures multiset(SqliteRows(rows, t, accounts))[r] == if Keeps(t, accounts, r) then multiset(rows)[r] else 0
  {
    SelectCount(rows, q => RowEligible(t, accounts, q), r);
  }

  /** The PostgreSQL query does the same for the routes of reachable models. */
  lemma PostgresRowsIff(
      model: Model, rows: seq<RouteCandidate>, fallbacks: Graph, t: Tables, accounts: map<AccountId, AccountRow>,
      r: RouteCandidate)
    ensures multiset(PostgresRows(model, rows, fallbacks, t, accounts))[r] ==
              if Keeps(t, accounts, r) && Reaches(fallbacks, model, r.logicalModel) then multiset(rows)[r] else 0
  {
    var reachable := ReachableModels(fallbacks, {model});
    SelectCount(rows, (q: RouteCandidate) => q.logicalModel in reachable && RowEligible(t, accounts, q), r);
    ReachableModelsExact(fallbacks, model, r.logicalModel);
  }

  method SqliteCandidates(
      model: Model, rows: seq<RouteCandidate>, fallbacks: Graph, t: Tables, accounts: map<AccountId, AccountRow>)
    returns (r: Plan)
    ensures r == PlanFor(model, SqliteRows(rows, t, accounts), fallbacks)
  {
    var routes := SqliteRows(rows, t, accounts);
    r := CandidatePlan(model, routes, fallbacks);
  }

  // ---------- Choosing from the PostgreSQL plan ----------

  datatype CandidatesError = PlanFailed(error: DomainError) | NothingEligible | StoreFailed

  type Candidates = Result<seq<RouteCandidate>, CandidatesError>

  /** The outcome each plan entry's acquire would have, had it been tried: the tables it finds are whatever
      other instances left by then. */
  function Outcomes(
      local: map<RouteId, LeaseId>, plan: seq<RouteCandidate>, found: seq<Tables>, leases: seq<LeaseId>,
      replies: seq<Reply>)
    : (outcomes: seq<Acquired>)
    requires |found| == |leases| == |replies| == |plan|
    ensures |outcomes| == |plan|
  {
    seq(|plan|, i requires 0 <= i < |plan| => AcquireOutcome(local, found[i], plan[i].routeId, leases[i], replies[i]))
  }

  /** The loop over the plan from `eligible` on. */
  function Choose(
      plan: seq<RouteCandidate>, states: map<RouteId, CircuitState>, outcomes: seq<Acquired>,
      eligible: seq<RouteCandidate>)
    : Candidates
    requires |outcomes| == |plan|
    decreases |plan|
  {
    if plan == [] then
      if eligible == [] then Err(NothingEligible) else Ok(eligible)
    else if plan[0].routeId !in states then
      Choose(plan[1..], states, outcomes[1..], eligible)
    else if states[plan[0].routeId].Closed? then
      Choose(plan[1..], states, outcomes[1..], eligible + [plan[0]])
    else if eligible != [] || outcomes[0].Refused? then
      Choose(plan[1..], states, outcomes[1..], eligible)
    else if outcomes[0].Won? then
      Choose(plan[1..], states, outcomes[1..], [plan[0]])
    else
      Err(StoreFailed)
  }

  function StatesOf(rows: seq<RouteCandidate>, t: Tables): map<RouteId, CircuitState> {
    map r | r in rows && r.routeId in t.routes :: r.routeId := t.routes[r.routeId].state
  }

  /** Plan entry `i` is the head of the answer, it is not a closed route, and its acquire was won. */
  predicate HeadIsProbe(
      r: Candidates, plan: seq<RouteCandidate>, states: map<RouteId, CircuitState>, outcomes: seq<Acquired>, i: nat)
    requires i < |plan| == |outcomes|
  {
    && outcomes[i].Won? && plan[i].routeId in states && !states[plan[i].routeId].Closed?
    && r.Ok? && r.value != [] && r.value[0] == plan[i]
  }

  /** What the primary answers from the rows its query kept, given the outcome of each acquire. */
  function PrimaryAnswer(
      model: Model, kept: seq<RouteCandidate>, fallbacks: Graph, t: Tables, outcomes: seq<Acquired>)
    : Candidates
    requires var plan := PlanFor(model, kept, fallbacks); plan.Ok? ==> |outcomes| == |plan.value|
  {
    var plan := PlanFor(model, kept, fallbacks);
    if plan.Err? then Err(PlanFailed(plan.error)) else Choose(plan.value, StatesOf(kept, t), outcomes, [])
  }

  /** The local entries after choosing from `plan`: unchanged, or with the lease of the probe at the head. */
  ghost predicate AtMostOneLease(
      before: map<RouteId, LeaseId>, after: map<RouteId, LeaseId>, r: Candidates, plan: seq<RouteCandidate>,
      states: map<RouteId, CircuitState>, outcomes: seq<Acquired>, leases: seq<LeaseId>)
    requires |plan| == |outcomes| == |leases|
  {
    after == before
    || exists i :: 0 <= i < |plan| && HeadIsProbe(r, plan, states, outcomes, i)
                     && after == before[plan[i].routeId := leases[i]]
  }

  /** The loop over the plan. `found[i]` is the shared state when entry `i` is reached, after any steps of other
      instances. */
  method ChooseFromPlan(
      store: PostgresStore, plan: seq<RouteCandidate>, states: map<RouteId, CircuitState>,
      found: seq<Tables>, leases: seq<LeaseId>, replies: seq<Reply>)
    returns (r: Candidates)
    requires |found| == |leases| == |replies| == |plan|
    modifies store, store.db
    ensures var outcomes := Outcomes(old(store.probeLeases), plan, found, leases, replies);
            && r == Choose(plan, states, outcomes, [])
            && AtMostOneLease(old(store.probeLeases), store.probeLeases, r, plan, states, outcomes, leases)
  {
    ghost var local := store.probeLeases;
    ghost var outcomes := Outcomes(local, plan, found, leases, replies);
    var eligible: seq<RouteCandidate> := [];
    for i := 0 to |plan|
      invariant Choose(plan, states, outcomes, []) == Choose(plan[i..], states, outcomes[i..], eligible)
      invariant eligible == [] ==> store.probeLeases == local
      invariant AtMostOneLease(local, store.probeLeases, Ok(eligible), plan, states, outcomes, leases)
    {
      assert plan[i..][1..] == plan[i + 1..] && outcomes[i..][1..] == outcomes[i + 1..];
      var candidate := plan[i];
      if candidate.routeId !in states {
        continue;
      }
      if states[candidate.routeId] == Closed {
        eligible := eligible + [candidate];
        continue;
      }
      if eligible == [] {
        store.db.tables := found[i];
        var acquired := store.AcquireHalfOpenProbe(candidate.routeId, leases[i], replies[i]);
        assert acquired == outcomes[i];
        if acquired.Errored? {
          return Err(StoreFailed);
        }
        if acquired.Won? {
          eligible := [candidate];
          assert HeadIsProbe(Ok(eligible), plan, states, outcomes, i);
        }
      }
    }
    assert plan[|plan|..] == [];
    if eligible == [] {
      return Err(NothingEligible);
    }
    return Ok(eligible);
  }

  /** The PostgreSQL `candidates`. The rows and states are read once, before the probing loop. */
  method PostgresCandidates(
      store: PostgresStore, model: Model, rows: seq<RouteCandidate>, fallbacks: Graph,
      found: seq<Tables>, leases: seq<LeaseId>, replies: seq<Reply>)
    returns (r: Candidates)
    requires |found| == |leases| == |replies|
    requires var kept := PostgresRows(model, rows, fallbacks, store.db.tables, store.db.accounts);
             var plan := PlanFor(model, kept, fallbacks);
             plan.Ok? ==> |plan.value| == |found|
    modifies store, store.db
    ensures var kept := PostgresRows(model, rows, fallbacks, old(store.db.tables), old(store.db.accounts));
            var plan := PlanFor(model, kept, fallbacks);
            if plan.Err? then
              && r == PrimaryAnswer(model, kept, fallbacks, old(store.db.tables), [])
              && store.probeLeases == old(store.probeLeases)
            else
              var states := StatesOf(kept, old(store.db.tables));
              var outcomes := Outcomes(old(store.probeLeases), plan.value, found, leases, replies);
              && r == PrimaryAnswer(model, kept, fallbacks, old(store.db.tables), outcomes)
              && AtMostOneLease(old(store.probeLeases), store.probeLeases, r, plan.value, states, outcomes, leases)
  {
    var t := store.db.tables;
    var kept := PostgresRows(model, rows, fallbacks, t, store.db.accounts);
    var planned := CandidatePlan(model, kept, fallbacks);
    if planned.Err? {
      return Err(PlanFailed(planned.error));
    }
    r := ChooseFromPlan(store, planned.value, StatesOf(kept, t), found, leases, replies);
  }

  /** The closed routes of the plan, in plan order. */
  function ClosedOf(plan: seq<RouteCandidate>, states: map<RouteId, CircuitState>): seq<RouteCandidate> {
    if plan == [] then []
    else if plan[0].routeId in states && states[plan[0].routeId].Closed? then [plan[0]] + ClosedOf(plan[1..], states)
    else ClosedOf(plan[1..], states)
  }

  predicate IsClosed(states: map<RouteId, CircuitState>, r: RouteCandidate) {
    r.routeId in states && states[r.routeId].Closed?
  }

  /** Plan entry `i` gives the loop nothing: it has no state, or it is not closed and its acquire was refused. */
  predicate TriedInVain(plan: seq<RouteCandidate>, states: map<RouteId, CircuitState>, outcomes: seq<Acquired>, i: nat)
    requires |outcomes| == |plan| && i < |plan|
  {
    plan[i].routeId !in states || (!states[plan[i].routeId].Closed? && outcomes[i].Refused?)
  }

  lemma {:induction false} ChooseWithHead(
      plan: seq<RouteCandidate>, states: map<RouteId, CircuitState>, outcomes: seq<Acquired>,
      eligible: seq<RouteCandidate>)
    requires |outcomes| == |plan| && eligible != []
    ensures Choose(plan, states, outcomes, eligible) == Ok(eligible + ClosedOf(plan, states))
    decreases |plan|
  {
    if plan == [] {
      assert eligible + ClosedOf(plan, states) == eligible;
    } else if IsClosed(states, plan[0]) {
      ChooseWithHead(plan[1..], states, outcomes[1..], eligible + [plan[0]]);
      Regroup(eligible, [plan[0]], ClosedOf(plan[1..], states));
    } else {
      ChooseWithHead(plan[1..], states, outcomes[1..], eligible);
    }
  }

  /** What the loop hands out: the closed routes in plan order, headed by at most one probe; every entry of the
      plan ahead of the head gave nothing. Or nothing was eligible, or the store failed on a probe. */
  lemma {:induction false} ChooseResult(
      plan: seq<RouteCandidate>, states: map<RouteId, CircuitState>, outcomes: seq<Acquired>)
    returns (p: nat)
    requires |outcomes| == |plan|
    ensures p <= |plan| && forall i :: 0 <= i < p ==> TriedInVain(plan, states, outcomes, i)
    ensures p == |plan| ==> Choose(plan, states, outcomes, []) == Err(NothingEligible)
    ensures p < |plan| ==> !TriedInVain(plan, states, outcomes, p)
    ensures p < |plan| ==>
      Choose(plan, states, outcomes, []) ==
        if IsClosed(states, plan[p]) then Ok(ClosedOf(plan, states))
        else if outcomes[p].Won? then Ok([plan[p]] + ClosedOf(plan, states))
        else Err(StoreFailed)
    decreases |plan|
  {
    p := 0;
    if plan != [] {
      if TriedInVain(plan, states, outcomes, 0) {
        var q := ChooseResult(plan[1..], states, outcomes[1..]);
        p := q + 1;
        assert q < |plan[1..]| ==> plan[p] == plan[1..][q] && outcomes[p] == outcomes[1..][q];
        forall i | 0 <= i < p
          ensures TriedInVain(plan, states, outcomes, i)
        {
          if i > 0 {
            assert TriedInVain(plan[1..], states, outcomes[1..], i - 1);
          }
        }
      } else if IsClosed(states, plan[0]) {
        assert [] + [plan[0]] == [plan[0]];
        ChooseWithHead(plan[1..], states, outcomes[1..], [plan[0]]);
      } else if outcomes[0].Won? {
        ChooseWithHead(plan[1..], states, outcomes[1..], [plan[0]]);
      }
    }
  }

  predicate ClosedIn(t: Tables, r: RouteCandidate) {
    r.routeId in t.routes && t.routes[r.routeId].state.Closed?
  }

  /** A row that the query kept has a state, and is closed or due. */
  lemma KeptRow(
      model: Model, rows: seq<RouteCandidate>, fallbacks: Graph, t: Tables, accounts: map<AccountId, AccountRow>,
      r: RouteCandidate)
    requires r in PostgresRows(model, rows, fallbacks, t, accounts)
    ensures RowEligible(t, accounts, r)
    ensures var states := StatesOf(PostgresRows(model, rows, fallbacks, t, accounts), t);
            r.routeId in states && states[r.routeId] == t.routes[r.routeId].state
  {
    var reachable := ReachableModels(fallbacks, {model});
    SelectCount(rows, (q: RouteCandidate) => q.logicalModel in reachable && RowEligible(t, accounts, q), r);
  }

  lemma PlannedRow(
      model: Model, rows: seq<RouteCandidate>, fallbacks: Graph, t: Tables, accounts: map<AccountId, AccountRow>,
      i: nat)
    requires var plan := PlanFor(model, PostgresRows(model, rows, fallbacks, t, accounts), fallbacks);
             plan.Ok? && i < |plan.value|
    ensures var kept := PostgresRows(model, rows, fallbacks, t, accounts);
            var r := PlanFor(model, kept, fallbacks).value[i];
            RowEligible(t, accounts, r)
            && r.routeId in StatesOf(kept, t) && StatesOf(kept, t)[r.routeId] == t.routes[r.routeId].state
  {
    var kept := PostgresRows(model, rows, fallbacks, t, accounts);
    var r := PlanFor(model, kept, fallbacks).value[i];
    PlanMember(model, kept, fallbacks, r);
    KeptRow(model, rows, fallbacks, t, accounts, r);
  }

  /** The primary's answer, for every table state and every outcome of the acquires: the closed routes in plan order,
      headed by at most one probe. Every entry of the plan ahead of the head was due and was refused; a probe at the
      head was due and was won. Otherwise every entry was due and refused, or the store failed on the first that was
      not. */
  lemma PrimaryAnswerShape(
      model: Model, rows: seq<RouteCandidate>, fallbacks: Graph, t: Tables, accounts: map<AccountId, AccountRow>,
      outcomes: seq<Acquired>)
    returns (p: nat)
    requires var plan := PlanFor(model, PostgresRows(model, rows, fallbacks, t, accounts), fallbacks);
             plan.Ok? && |outcomes| == |plan.value|
    ensures var kept := PostgresRows(model, rows, fallbacks, t, accounts);
            var plan := PlanFor(model, kept, fallbacks).value;
            var closed := ClosedOf(plan, StatesOf(kept, t));
            && p <= |plan|
            && (forall i :: 0 <= i < p ==> t.Due(plan[i].routeId) && outcomes[i].Refused?)
            && PrimaryAnswer(model, kept, fallbacks, t, outcomes) ==
               (if p == |plan| then Err(NothingEligible)
                else if ClosedIn(t, plan[p]) then Ok(closed)
                else if outcomes[p].Won? then Ok([plan[p]] + closed)
                else Err(StoreFailed))
            && (p < |plan| ==>
                  ClosedIn(t, plan[p]) || (t.Due(plan[p].routeId) && !outcomes[p].Refused?))
  {
    var kept := PostgresRows(model, rows, fallbacks, t, accounts);
    var plan := PlanFor(model, kept, fallbacks).value;
    p := ChooseResult(plan, StatesOf(kept, t), outcomes);
    forall i | 0 <= i < p
      ensures t.Due(plan[i].routeId) && outcomes[i].Refused?
    {
      assert TriedInVain(plan, StatesOf(kept, t), outcomes, i);
      PlannedRow(model, rows, fallbacks, t, accounts, i);
    }
    if p < |plan| {
      PlannedRow(model, rows, fallbacks, t, accounts, p);
    }
  }

  /** A half-open route whose owner crashed is not only free for the next acquire: an instance that asks for its model
      finds it in its plan, and if the closed routes and the other probes ahead of it give nothing, wins it and hands it
      out first. */
  lemma CrashedRouteIsProbedAgain(
      c: Cluster, crashed: InstanceId, steps: seq<Step>, d: Cluster, i: InstanceId, lease: LeaseId,
      rows: seq<RouteCandidate>, fallbacks: Graph, accounts: map<AccountId, AccountRow>, r: RouteCandidate)
    requires Reachable(c) && r.routeId in c.tables.routes && c.tables.routes[r.routeId].state.HalfOpen?
    requires Run(ProbeLeases.Next(c, Crash(crashed)), steps, d)
    requires d.tables.now >= c.tables.now + HALF_OPEN_LEASE_SECONDS
    requires NoNewGrant(c, d, r.routeId) && forall step :: step in steps ==> !ProbeLeases.Marks(step, r.routeId)
    requires i == crashed || r.routeId !in InstanceOf(c, i).local
    requires r in rows && r.accountId in accounts && accounts[r.accountId].state != Blocked
    requires !CycleReachable(fallbacks, r.logicalModel)
    ensures var kept := PostgresRows(r.logicalModel, rows, fallbacks, d.tables, accounts);
            && PlanFor(r.logicalModel, kept, fallbacks).Ok? && r in PlanFor(r.logicalModel, kept, fallbacks).value
    ensures AcquireOutcome(InstanceOf(d, i).local, d.tables, r.routeId, lease, Answered) == Won
    ensures var kept := PostgresRows(r.logicalModel, rows, fallbacks, d.tables, accounts);
            var plan := PlanFor(r.logicalModel, kept, fallbacks).value;
            forall outcomes, k ::
              IsFirstWinner(plan, d.tables, outcomes, k) && plan[k] == r
              ==> PrimaryAnswer(r.logicalModel, kept, fallbacks, d.tables, outcomes)
                  == Ok([r] + ClosedOf(plan, StatesOf(kept, d.tables)))
  {
    CrashedOwnerCannotStrand(c, crashed, steps, d, i, r.routeId, lease);
    RunLeaves(ProbeLeases.Next(c, Crash(crashed)), steps, d, i, r.routeId);
    ReachableInv(c);
    var kept := PostgresRows(r.logicalModel, rows, fallbacks, d.tables, accounts);
    ReachesSelf(fallbacks, r.logicalModel);
    PostgresRowsIff(r.logicalModel, rows, fallbacks, d.tables, accounts, r);
    assert r in multiset(rows) && r in multiset(kept);
    PlanOutcome(r.logicalModel, kept, fallbacks);
    PlanContents(r.logicalModel, kept, fallbacks);
    var plan := PlanFor(r.logicalModel, kept, fallbacks).value;
    assert multiset(plan)[r] > 0;
    forall outcomes, k | IsFirstWinner(plan, d.tables, outcomes, k) && plan[k] == r
      ensures PrimaryAnswer(r.logicalModel, kept, fallbacks, d.tables, outcomes)
           == Ok([r] + ClosedOf(plan, StatesOf(kept, d.tables)))
    {
      FirstWinnerIsHead(r.logicalModel, rows, fallbacks, d.tables, accounts, outcomes, k);
    }
  }

  /** Entry `k` of the plan is the first that is closed or whose acquire was not refused, and its acquire was won. */
  ghost predicate IsFirstWinner(plan: seq<RouteCandidate>, t: Tables, outcomes: seq<Acquired>, k: int) {
    && |outcomes| == |plan| && 0 <= k < |plan| && !ClosedIn(t, plan[k]) && outcomes[k] == Won
    && forall j :: 0 <= j < k ==> !ClosedIn(t, plan[j]) && outcomes[j] == Refused
  }

  lemma FirstWinnerIsHead(
      model: Model, rows: seq<RouteCandidate>, fallbacks: Graph, t: Tables, accounts: map<AccountId, AccountRow>,
      outcomes: seq<Acquired>, k: int)
    requires var plan := PlanFor(model, PostgresRows(model, rows, fallbacks, t, accounts), fallbacks);
             plan.Ok? && IsFirstWinner(plan.value, t, outcomes, k)
    ensures var kept := PostgresRows(model, rows, fallbacks, t, accounts);
            var plan := PlanFor(model, kept, fallbacks).value;
            PrimaryAnswer(model, kept, fallbacks, t, outcomes) == Ok([plan[k]] + ClosedOf(plan, StatesOf(kept, t)))
  {
    var p := PrimaryAnswerShape(model, rows, fallbacks, t, accounts, outcomes);
  }

  /** The closed part of an answer: every closed entry of the plan, as often as it is there, in plan order. */
  lemma {:induction false} ClosedOfIs(plan: seq<RouteCandidate>, states: map<RouteId, CircuitState>, r: RouteCandidate)
    ensures multiset(ClosedOf(plan, states))[r] ==
              if r.routeId in states && states[r.routeId] == Closed then multiset(plan)[r] else 0
    ensures PartOf(ClosedOf(plan, states), plan)
  {
    if plan != [] {
      assert plan == [plan[0]] + plan[1..];
      ClosedOfIs(plan[1..], states, r);
    }
  }

  /** `a` is `b` with some entries left out. */
  predicate PartOf(a: seq<RouteCandidate>, b: seq<RouteCandidate>)
    decreases |b|
  {
    if b == [] then a == []
    else (a != [] && a[0] == b[0] && PartOf(a[1..], b[1..])) || PartOf(a, b[1..])
  }

  lemma {:induction false} ChosenIsPlanned(
      plan: seq<RouteCandidate>, states: map<RouteId, CircuitState>, outcomes: seq<Acquired>,
      eligible: seq<RouteCandidate>, r: RouteCandidate)
    requires |outcomes| == |plan| && Choose(plan, states, outcomes, eligible).Ok?
    requires r in Choose(plan, states, outcomes, eligible).value
    ensures r in eligible || r in plan
    decreases |plan|
  {
    if plan != [] {
      var next :=
        if IsClosed(states, plan[0]) then eligible + [plan[0]]
        else if plan[0].routeId in states && eligible == [] && outcomes[0].Won? then [plan[0]]
        else eligible;
      ChosenIsPlanned(plan[1..], states, outcomes[1..], next, r);
    }
  }

  /** The primary never offers a route of an account it has blocked. */
  lemma PrimaryWithholdsBlocked(
      model: Model, rows: seq<RouteCandidate>, fallbacks: Graph, t: Tables, accounts: map<AccountId, AccountRow>,
      outcomes: seq<Acquired>, r: RouteCandidate)
    requires var plan := PlanFor(model, PostgresRows(model, rows, fallbacks, t, accounts), fallbacks);
             plan.Ok? ==> |outcomes| == |plan.value|
    requires var kept := PostgresRows(model, rows, fallbacks, t, accounts);
             var answer := PrimaryAnswer(model, kept, fallbacks, t, outcomes);
             answer.Ok? && r in answer.value
    ensures r.accountId in accounts && !accounts[r.accountId].state.Blocked?
  {
    var kept := PostgresRows(model, rows, fallbacks, t, accounts);
    var plan := PlanFor(model, kept, fallbacks).value;
    ChosenIsPlanned(plan, StatesOf(kept, t), outcomes, [], r);
    PlanMember(model, kept, fallbacks, r);
    KeptRow(model, rows, fallbacks, t, accounts, r);
  }

  // ---------- The three repositories agree when nothing is due ----------

  /** A state row for every route and account, and no route that is not closed is due for a retry. */
  predicate Quiet(rows: seq<RouteCandidate>, t: Tables, accounts: map<AccountId, AccountRow>) {
    forall r :: r in rows ==> r.routeId in t.routes && r.accountId in accounts && !t.Due(r.routeId)
  }

  lemma SamePlan(model: Model, a: seq<RouteCandidate>, b: seq<RouteCandidate>, fallbacks: Graph,
                 p: RouteCandidate -> bool, q: RouteCandidate -> bool)
    requires multiset(a) == multiset(b) && UniquePriorities(a)
    requires forall r :: r in a ==> p(r) == q(r)
    ensures PlanFor(model, Select(a, p), fallbacks) == PlanFor(model, Select(b, q), fallbacks)
  {
    var x, y := Select(a, p), Select(b, q);
    forall r ensures multiset(x)[r] == multiset(y)[r] {
      SelectCount(a, p, r);
      SelectCount(b, q, r);
      if multiset(a)[r] > 0 {
        assert r in multiset(a);
      }
    }
    assert multiset(x) == multiset(y);
    forall r, s | r in x && s in x && r.logicalModel == s.logicalModel && r.priority == s.priority
      ensures r == s
    {
      SelectCount(a, p, r);
      SelectCount(a, p, s);
    }
    PlanIgnoresRowOrder(model, x, y, fallbacks);
  }

  lemma {:induction false} WithinSelect(rows: seq<RouteCandidate>, models: set<Model>, p: RouteCandidate -> bool)
    ensures Select(rows, (r: RouteCandidate) => r.logicalModel in models && p(r)) == Within(Select(rows, p), models)
  {
    if rows != [] {
      WithinSelect(rows[1..], models, p);
      var kept := Select(rows[1..], p);
      assert ([rows[0]] + kept)[1..] == kept;
    }
  }

  /** Restricting the PostgreSQL query to the reachable models changes neither the plan nor its error. */
  lemma PostgresFilterIsTransparent(
      model: Model, rows: seq<RouteCandidate>, fallbacks: Graph, t: Tables, accounts: map<AccountId, AccountRow>)
    ensures PlanFor(model, PostgresRows(model, rows, fallbacks, t, accounts), fallbacks)
         == PlanFor(model, SqliteRows(rows, t, accounts), fallbacks)
  {
    var reachable := ReachableModels(fallbacks, {model});
    var p := r => RowEligible(t, accounts, r);
    forall m | Reaches(fallbacks, model, m)
      ensures m in reachable
    {
      ReachableModelsExact(fallbacks, model, m);
    }
    WithinSelect(rows, reachable, p);
    SelectAgrees(rows,
                 (r: RouteCandidate) => r.logicalModel in reachable && RowEligible(t, accounts, r),
                 (r: RouteCandidate) => r.logicalModel in reachable && p(r));
    PlanIgnoresUnreachable(model, Select(rows, p), fallbacks, reachable);
  }

  lemma {:induction false} AllClosed(plan: seq<RouteCandidate>, states: map<RouteId, CircuitState>)
    requires forall r :: r in plan ==> IsClosed(states, r)
    ensures ClosedOf(plan, states) == plan
  {
    if plan != [] {
      assert plan[0] in plan;
      AllClosed(plan[1..], states);
    }
  }

  lemma QuietPostgresTakesThePlan(
      model: Model, rows: seq<RouteCandidate>, fallbacks: Graph, t: Tables, accounts: map<AccountId, AccountRow>,
      outcomes: seq<Acquired>)
    requires Quiet(rows, t, accounts)
    requires var plan := PlanFor(model, PostgresRows(model, rows, fallbacks, t, accounts), fallbacks);
             plan.Ok? && |outcomes| == |plan.value|
    ensures var kept := PostgresRows(model, rows, fallbacks, t, accounts);
            var plan := PlanFor(model, kept, fallbacks).value;
            Choose(plan, StatesOf(kept, t), outcomes, []) == Ok(plan)
  {
    var kept := PostgresRows(model, rows, fallbacks, t, accounts);
    var plan := PlanFor(model, kept, fallbacks).value;
    var states := StatesOf(kept, t);
    forall r | r in plan
      ensures IsClosed(states, r)
    {
      PlanMember(model, kept, fallbacks, r);
      QuietRowIsClosed(model, rows, fallbacks, t, accounts, r);
    }
    AllClosed(plan, states);
    var p := ChooseResult(plan, states, outcomes);
    PlanNonEmpty(model, kept, fallbacks);
    assert plan[0] in plan;
    assert !TriedInVain(plan, states, outcomes, 0);
  }

  lemma PlanMember(model: Model, rows: seq<RouteCandidate>, fallbacks: Graph, r: RouteCandidate)
    requires PlanFor(model, rows, fallbacks).Ok? && r in PlanFor(model, rows, fallbacks).value
    ensures r in rows
  {
    PlanContents(model, rows, fallbacks);
    assert r in multiset(PlanFor(model, rows, fallbacks).value);
    assert r in multiset(rows);
  }

  lemma QuietRowIsClosed(
      model: Model, rows: seq<RouteCandidate>, fallbacks: Graph, t: Tables, accounts: map<AccountId, AccountRow>,
      r: RouteCandidate)
    requires Quiet(rows, t, accounts) && r in PostgresRows(model, rows, fallbacks, t, accounts)
    ensures IsClosed(StatesOf(PostgresRows(model, rows, fallbacks, t, accounts), t), r)
  {
    var reachable := ReachableModels(fallbacks, {model});
    SelectCount(rows, (q: RouteCandidate) => q.logicalModel in reachable && RowEligible(t, accounts, q), r);
  }

  /** With the same configuration, a state row per route and account, and nothing due for a retry, the three
      repositories succeed together and return the same list, in whatever order each reads its rows. */
  lemma RepositoriesAgree(
      model: Model, fallbacks: Graph, t: Tables, accounts: map<AccountId, AccountRow>, now: int,
      sqliteOrder: seq<RouteCandidate>, postgresOrder: seq<RouteCandidate>, snapshotOrder: seq<RouteCandidate>,
      outcomes: seq<Acquired>)
    requires UniquePriorities(sqliteOrder) && Quiet(sqliteOrder, t, accounts)
    requires multiset(sqliteOrder) == multiset(postgresOrder) == multiset(snapshotOrder)
    requires now == t.now
    requires var plan := PlanFor(model, PostgresRows(model, postgresOrder, fallbacks, t, accounts), fallbacks);
             plan.Ok? ==> |outcomes| == |plan.value|
    ensures var sqlite := PlanFor(model, SqliteRows(sqliteOrder, t, accounts), fallbacks);
            var kept := PostgresRows(model, postgresOrder, fallbacks, t, accounts);
            var postgres := PlanFor(model, kept, fallbacks);
            var snapshot := CandidatesFor(model, snapshotOrder, fallbacks, RuntimeState(t.routes, accounts), now).0;
            && (sqlite.Ok? <==> postgres.Ok?) && (sqlite.Ok? <==> snapshot.Ok?)
            && (sqlite.Ok? ==>
                  && snapshot.value == sqlite.value
                  && Choose(postgres.value, StatesOf(kept, t), outcomes, []) == Ok(sqlite.value))
  {
    var s := RuntimeState(t.routes, accounts);
    var eligible := r => RowEligible(t, accounts, r);
    SameMembers(sqliteOrder, postgresOrder);
    SameMembers(sqliteOrder, snapshotOrder);
    PostgresFilterIsTransparent(model, postgresOrder, fallbacks, t, accounts);
    SamePlan(model, sqliteOrder, postgresOrder, fallbacks, eligible, eligible);
    SelectAgrees(sqliteOrder, r => RowEligible(t, accounts, r), eligible);
    SelectAgrees(postgresOrder, r => RowEligible(t, accounts, r), eligible);
    SamePlan(model, sqliteOrder, snapshotOrder, fallbacks, eligible, r => s.ClosedRoute(r));
    NothingRetryable(snapshotOrder, t, accounts);
    var kept := PostgresRows(model, postgresOrder, fallbacks, t, accounts);
    if PlanFor(model, kept, fallbacks).Ok? {
      QuietPostgresTakesThePlan(model, postgresOrder, fallbacks, t, accounts, outcomes);
    }
  }

  lemma SameMembers(a: seq<RouteCandidate>, b: seq<RouteCandidate>)
    requires multiset(a) == multiset(b)
    ensures forall r :: r in a <==> r in b
  {
    forall r ensures r in a <==> r in b {
      assert r in a <==> r in multiset(a);
      assert r in b <==> r in multiset(b);
    }
  }

  lemma {:induction false} NothingRetryable(rows: seq<RouteCandidate>, t: Tables, accounts: map<AccountId, AccountRow>)
    requires Quiet(rows, t, accounts)
    ensures Select(rows, r => RuntimeState(t.routes, accounts).Retryable(r, t.now)) == []
  {
    var s := RuntimeState(t.routes, accounts);
    var kept := Select(rows, r => s.Retryable(r, t.now));
    if kept != [] {
      SelectCount(rows, r => s.Retryable(r, t.now), kept[0]);
      assert t.Due(kept[0].routeId);
    }
  }
}
