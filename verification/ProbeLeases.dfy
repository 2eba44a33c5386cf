// Cluster-wide half-open probe leases: shared circuit rows and expiring leases, with a lease map per instance.

module ProbeLeases {
  import opened Domain

  type LeaseId = string
  type InstanceId = nat

  const HALF_OPEN_LEASE_SECONDS := 60

  datatype CircuitState = Closed | Open | HalfOpen

  datatype RouteRow = RouteRow(state: CircuitState, retryAt: Option<int>)

  datatype AccountState = UnknownState | Available | Blocked

  datatype AccountRow = AccountRow(state: AccountState, retryAt: Option<int>)

  datatype Lease = Lease(id: LeaseId, expiresAt: int)

  /** The shared tables, as of database time `now`. */
  datatype Tables = Tables(now: int, routes: map<RouteId, RouteRow>, leases: map<RouteId, Lease>)
  {
    predicate Due(route: RouteId) {
      && route in routes && !routes[route].state.Closed?
      && routes[route].retryAt.Some? && routes[route].retryAt.value <= now
    }

    predicate LeaseFree(route: RouteId) {
      route in leases ==> leases[route].expiresAt <= now
    }

    /** The acquire transaction: take the lease row if it is absent or expired, then move the route to
        `half_open`; roll back if the route is not due. */
    function TryLease(route: RouteId, id: LeaseId): Option<Tables> {
      if !LeaseFree(route) then None
      else if !Due(route) then None
      else Some(this.(leases := leases[route := Lease(id, now + HALF_OPEN_LEASE_SECONDS)],
                      routes := routes[route := routes[route].(state := HalfOpen)]))
    }

    /** `DELETE ... WHERE route_id = $1 AND lease_id = $2` */
    function DeleteLease(route: RouteId, id: LeaseId): Tables {
      if route in leases && leases[route].id == id then this.(leases := leases - {route}) else this
    }

    function SetRoute(route: RouteId, row: RouteRow): Tables {
      if route in routes then this.(routes := routes[route := row]) else this
    }
  }

  // ---------- The store as each instance runs it ----------

  class Database {
    var tables: Tables
    var accounts: map<AccountId, AccountRow>

    constructor (tables: Tables, accounts: map<AccountId, AccountRow>)
      ensures this.tables == tables && this.accounts == accounts
    {
      this.tables, this.accounts := tables, accounts;
    }

    /** Statement 1 of the acquire transaction, on a working copy. */
    method UpsertLease(route: RouteId, id: LeaseId) returns (written: bool, working: Tables)
      ensures written <==> tables.LeaseFree(route)
      ensures written ==>
                working == tables.(leases := tables.leases[route := Lease(id, tables.now + HALF_OPEN_LEASE_SECONDS)])
      ensures !written ==> working == tables
    {
      working := tables;
      if route !in tables.leases {
        written := true;
      } else {
        written := tables.leases[route].expiresAt <= tables.now;
      }
      if written {
        working := working.(leases := working.leases[route := Lease(id, tables.now + HALF_OPEN_LEASE_SECONDS)]);
      }
    }

    /** Statement 2, on the same working copy: how many rows moved to `half_open`. */
    method HalfOpenDueRoute(working: Tables, route: RouteId) returns (count: nat, after: Tables)
      ensures count == 1 <==> working.Due(route)
      ensures count == 1 ==>
                after == working.(routes := working.routes[route := working.routes[route].(state := HalfOpen)])
    {
      count, after := 0, working;
      if route in working.routes {
        var row := working.routes[route];
        if row.state in {Open, HalfOpen} && row.retryAt.Some? && row.retryAt.value <= working.now {
          count := 1;
          after := working.(routes := working.routes[route := RouteRow(HalfOpen, row.retryAt)]);
        }
      }
    }
  }

  /** What came of one acquire: the lease, a refusal, or an error of the store. */
  datatype Acquired = Won | Refused | Errored

  /** The acquire as a function of the local entries, the shared tables and the database's answer. */
  function AcquireOutcome(local: map<RouteId, LeaseId>, t: Tables, route: RouteId, id: LeaseId, reply: Reply)
    : Acquired
  {
    if route in local then Refused
    else if reply != Answered then Errored
    else if t.TryLease(route, id).None? then Refused
    else Won
  }

  /** The route is not held locally, no unexpired lease exists, and it is open or half-open with a retry time that has
      come. */
  predicate MayProbe(local: map<RouteId, LeaseId>, t: Tables, route: RouteId) {
    && route !in local
    && (route !in t.leases || t.leases[route].expiresAt <= t.now)
    && route in t.routes && t.routes[route].state in {Open, HalfOpen}
    && t.routes[route].retryAt.Some? && t.routes[route].retryAt.value <= t.now
  }

  /** The lease row is written for sixty seconds, the route becomes half-open and keeps its retry time, and nothing else
      changes. */
  predicate Granting(t: Tables, after: Tables, route: RouteId, id: LeaseId) {
    && route in t.routes
    && after == Tables(t.now,
                       t.routes[route := RouteRow(HalfOpen, t.routes[route].retryAt)],
                       t.leases[route := Lease(id, t.now + 60)])
  }

  lemma TryLeaseIff(local: map<RouteId, LeaseId>, t: Tables, route: RouteId, id: LeaseId)
    ensures (route !in local && t.TryLease(route, id).Some?) <==> MayProbe(local, t, route)
    ensures t.TryLease(route, id).Some? ==> Granting(t, t.TryLease(route, id).value, route, id)
  {
  }

  /** One release: the local entry goes first; the row goes only if it still carries that lease. */
  datatype Released = Released(local: map<RouteId, LeaseId>, tables: Tables, ok: bool)

  function ReleaseOne(local: map<RouteId, LeaseId>, t: Tables, route: RouteId, reply: Reply): Released {
    if route !in local then Released(local, t, true)
    else
      var after := if reply == Unreachable then t else t.DeleteLease(route, local[route]);
      Released(local - {route}, after, reply == Answered)
  }

  /** Releases in order, until one fails. */
  function ReleaseAll(local: map<RouteId, LeaseId>, t: Tables, routes: seq<RouteId>, replies: seq<Reply>): Released
    requires |replies| == |routes|
    decreases |routes|
  {
    if routes == [] then Released(local, t, true)
    else
      var one := ReleaseOne(local, t, routes[0], replies[0]);
      if one.ok then ReleaseAll(one.local, one.tables, routes[1..], replies[1..]) else one
  }

  /** Releases an account's probes: only leases this instance holds for the given routes can go, and if no delete
      fails all of them go, from the local entries and from the table. */
  lemma {:induction false} ReleaseAllTouchesOnlyOwn(
      local: map<RouteId, LeaseId>, t: Tables, routes: seq<RouteId>, replies: seq<Reply>, r: RouteId)
    requires |replies| == |routes|
    ensures var after := ReleaseAll(local, t, routes, replies);
            && after.tables.now == t.now && after.tables.routes == t.routes
            && (r in after.tables.leases ==> r in t.leases && after.tables.leases[r] == t.leases[r])
            && (r in t.leases && r !in after.tables.leases ==> r in routes && r in local && t.leases[r].id == local[r])
            && (r in after.local ==> r in local && after.local[r] == local[r])
            && (r in local && r !in after.local ==> r in routes)
            && (after.ok && r in routes ==> r !in after.local)
            && (after.ok && r in routes && r in local && r in t.leases && t.leases[r].id == local[r] ==>
                  r !in after.tables.leases)
    decreases |routes|
  {
    if routes != [] {
      var one := ReleaseOne(local, t, routes[0], replies[0]);
      assert r in routes <==> r == routes[0] || r in routes[1..];
      if one.ok {
        ReleaseAllTouchesOnlyOwn(one.local, one.tables, routes[1..], replies[1..], r);
      }
    }
  }

  /** The first release that fails is the last: no other lease is touched after it. */
  lemma ReleaseStopsAtFailure(
      local: map<RouteId, LeaseId>, t: Tables, routes: seq<RouteId>, replies: seq<Reply>, r: RouteId)
    requires |replies| == |routes| && routes != [] && routes[0] in local && replies[0] != Answered && r != routes[0]
    ensures var after := ReleaseAll(local, t, routes, replies);
            && !after.ok
            && (r in after.local <==> r in local) && (r in after.tables.leases <==> r in t.leases)
  {
  }

  class PostgresStore {
    const db: Database
    var probeLeases: map<RouteId, LeaseId>

    constructor (db: Database)
      ensures this.db == db && probeLeases == map[]
    {
      this.db := db;
      probeLeases := map[];
    }

    method AcquireHalfOpenProbe(route: RouteId, leaseId: LeaseId, reply: Reply) returns (r: Acquired)
      modifies this, db
      ensures var grant := if route in old(probeLeases) then None else old(db.tables).TryLease(route, leaseId);
              && db.tables == (if grant.Some? && reply != Unreachable then grant.value else old(db.tables))
              && r == AcquireOutcome(old(probeLeases), old(db.tables), route, leaseId, reply)
              && probeLeases == (if r.Won? then old(probeLeases)[route := leaseId] else old(probeLeases))
              && db.accounts == old(db.accounts)
      ensures r.Won? <==> reply == Answered && MayProbe(old(probeLeases), old(db.tables), route)
      ensures r.Won? ==> Granting(old(db.tables), db.tables, route, leaseId)
    {
      TryLeaseIff(probeLeases, db.tables, route, leaseId);
      if route in probeLeases {
        return Refused;
      }
      if reply == Unreachable {
        return Errored;
      }
      var written, working := db.UpsertLease(route, leaseId);
      if !written {
        return if reply == Answered then Refused else Errored;
      }
      var transitioned, after := db.HalfOpenDueRoute(working, route);
      if transitioned != 1 {
        return if reply == Answered then Refused else Errored;
      }
      db.tables := after;
      if reply != Answered {
        return Errored;
      }
      probeLeases := probeLeases[route := leaseId];
      return Won;
    }

    method ReleaseHalfOpenProbe(route: RouteId, reply: Reply) returns (ok: bool)
      modifies this, db
      ensures Released(probeLeases, db.tables, ok) == ReleaseOne(old(probeLeases), old(db.tables), route, reply)
      ensures probeLeases == old(probeLeases) - {route} && (ok <==> route !in old(probeLeases) || reply == Answered)
      ensures db.tables.routes == old(db.tables.routes) && db.tables.now == old(db.tables.now)
      ensures var held := old(db.tables.leases);
              db.tables.leases ==
                if && route in old(probeLeases) && reply != Unreachable
                   && route in held && held[route].id == old(probeLeases)[route]
                then held - {route} else held
      ensures db.accounts == old(db.accounts)
    {
      assert route !in probeLeases ==> probeLeases - {route} == probeLeases;
      if route !in probeLeases {
        return true;
      }
      var leaseId := probeLeases[route];
      probeLeases := probeLeases - {route};
      if reply != Unreachable {
        if route in db.tables.leases && db.tables.leases[route].id == leaseId {
          db.tables := db.tables.(leases := db.tables.leases - {route});
        }
      }
      return reply == Answered;
    }

    /** If the update fails the lease is kept. */
    method MarkRouteSuccess(route: RouteId, update: Reply, delete: Reply) returns (ok: bool)
      modifies this, db
      ensures db.tables.routes ==
                if update != Unreachable && route in old(db.tables.routes)
                then old(db.tables.routes)[route := RouteRow(Closed, None)] else old(db.tables.routes)
      ensures var closed := if update == Unreachable then old(db.tables)
                            else old(db.tables).SetRoute(route, RouteRow(Closed, None));
              Released(probeLeases, db.tables, ok) ==
                if update == Answered then ReleaseOne(old(probeLeases), closed, route, delete)
                else Released(old(probeLeases), closed, false)
      ensures db.accounts == old(db.accounts)
    {
      if update != Unreachable {
        db.tables := db.tables.SetRoute(route, RouteRow(Closed, None));
      }
      if update != Answered {
        return false;
      }
      ok := ReleaseHalfOpenProbe(route, delete);
    }

    method MarkRouteFailure(route: RouteId, failure: ProviderFailure, update: Reply, delete: Reply) returns (ok: bool)
      modifies this, db
      ensures db.tables.routes ==
                if update != Unreachable && route in old(db.tables.routes)
                then old(db.tables.routes)[route := RouteRow(Open, failure.retryAt)] else old(db.tables.routes)
      ensures var reopened := if update == Unreachable then old(db.tables)
                             else old(db.tables).SetRoute(route, RouteRow(Open, failure.retryAt));
              Released(probeLeases, db.tables, ok) ==
                if update == Answered then ReleaseOne(old(probeLeases), reopened, route, delete)
                else Released(old(probeLeases), reopened, false)
      ensures db.accounts == old(db.accounts)
    {
      if update != Unreachable {
        db.tables := db.tables.SetRoute(route, RouteRow(Open, failure.retryAt));
      }
      if update != Answered {
        return false;
      }
      ok := ReleaseHalfOpenProbe(route, delete);
    }

    /** Blocks the account, reads its routes, and releases their probes one by one. */
    method MarkAccountFailure(
        account: AccountId, failure: ProviderFailure, update: Reply, selected: Option<seq<RouteId>>,
          deletes: seq<Reply>)
      returns (ok: bool)
      requires selected.Some? ==> |deletes| == |selected.value|
      modifies this, db
      ensures db.accounts ==
                if update != Unreachable && account in old(db.accounts)
                then old(db.accounts)[account := AccountRow(Blocked, failure.retryAt)] else old(db.accounts)
      ensures Released(probeLeases, db.tables, ok) ==
                if update == Answered && selected.Some?
                then ReleaseAll(old(probeLeases), old(db.tables), selected.value, deletes)
                else Released(old(probeLeases), old(db.tables), false)
    {
      if update != Unreachable && account in db.accounts {
        db.accounts := db.accounts[account := AccountRow(Blocked, failure.retryAt)];
      }
      if update != Answered || selected.None? {
        return false;
      }
      var routes := selected.value;
      assert routes[0..] == routes && deletes[0..] == deletes;
      ghost var accounts := db.accounts;
      for i := 0 to |routes|
        invariant db.accounts == accounts
        invariant ReleaseAll(old(probeLeases), old(db.tables), routes, deletes)
               == ReleaseAll(probeLeases, db.tables, routes[i..], deletes[i..])
      {
        assert routes[i..][1..] == routes[i + 1..] && deletes[i..][1..] == deletes[i + 1..];
        ok := ReleaseHalfOpenProbe(routes[i], deletes[i]);
        if !ok {
          return;
        }
      }
      return true;
    }
  }

  // ---------- The cluster as a state machine over statements ----------

  /** One process: its lease map, and the deletes it has decided on but not yet sent. */
  datatype Instance = Instance(local: map<RouteId, LeaseId>, releasing: set<(RouteId, LeaseId)>)

  /** A lease row that an acquire wrote. */
  datatype Grant = Grant(instance: InstanceId, route: RouteId, lease: LeaseId, expiresAt: int)

  datatype Cluster = Cluster(
    tables: Tables,
    instances: map<InstanceId, Instance>,
    issued: set<LeaseId>,     // history: every lease id ever generated
    grants: seq<Grant>,       // history: every lease row ever written, in order
    released: set<LeaseId>    // history: every lease whose delete statement was executed
  )

  datatype Step =
    | Tick(seconds: nat)
    | CreateRoute(route: RouteId)
    | Acquire(instance: InstanceId, route: RouteId, lease: LeaseId, reply: Reply)
    | StartRelease(instance: InstanceId, route: RouteId)
    | FinishRelease(instance: InstanceId, route: RouteId, lease: LeaseId, reply: Reply)
    | CloseRoute(route: RouteId)
    | OpenRoute(route: RouteId, retryAt: Option<int>)
    | Crash(instance: InstanceId)

  function InstanceOf(c: Cluster, i: InstanceId): Instance {
    if i in c.instances then c.instances[i] else Instance(map[], {})
  }

  function Start(now: int): Cluster {
    Cluster(Tables(now, map[], map[]), map[], {}, [], {})
  }

  predicate Enabled(c: Cluster, step: Step) {
    match step
    case Acquire(_, _, lease, _) => lease !in c.issued
    case FinishRelease(i, route, lease, _) => (route, lease) in InstanceOf(c, i).releasing
    case CreateRoute(route) => route !in c.tables.routes
    case _ => true
  }

  function AcquireResult(c: Cluster, i: InstanceId, route: RouteId, lease: LeaseId): Option<Tables> {
    if route in InstanceOf(c, i).local then None else c.tables.TryLease(route, lease)
  }

  function Next(c: Cluster, step: Step): Cluster
    requires Enabled(c, step)
  {
    match step
    case Tick(d) => c.(tables := c.tables.(now := c.tables.now + d))
    case CreateRoute(route) =>
      c.(tables := c.tables.(routes := c.tables.routes[route := RouteRow(Closed, None)]))
    case Acquire(i, route, lease, reply) =>
      var v := c.(issued := c.issued + {lease});
      var grant := AcquireResult(c, i, route, lease);
      if grant.None? || reply == Unreachable then v
      else
        var me := InstanceOf(c, i);
        v.(tables := grant.value,
           grants := c.grants + [Grant(i, route, lease, c.tables.now + HALF_OPEN_LEASE_SECONDS)],
           instances := if reply == Answered then c.instances[i := me.(local := me.local[route := lease])]
             else c.instances)
    case StartRelease(i, route) =>
      var me := InstanceOf(c, i);
      if route !in me.local then c
      else c.(instances := c.instances[i := Instance(me.local - {route}, me.releasing + {(route, me.local[route])})])
    case FinishRelease(i, route, lease, reply) =>
      var me := InstanceOf(c, i);
      var v := c.(instances := c.instances[i := me.(releasing := me.releasing - {(route, lease)})]);
      if reply == Unreachable then v
      else v.(tables := c.tables.DeleteLease(route, lease), released := c.released + {lease})
    case CloseRoute(route) => c.(tables := c.tables.SetRoute(route, RouteRow(Closed, None)))
    case OpenRoute(route, retryAt) => c.(tables := c.tables.SetRoute(route, RouteRow(Open, retryAt)))
    case Crash(i) => c.(instances := c.instances[i := Instance(map[], {})])
  }

  /** What the steps do, in the terms of the tables: an acquire that the database answers is granted exactly if the
      route may be probed; marks write exactly one route row; a finished release removes at most its own lease row. */
  lemma StepsDo(c: Cluster, step: Step)
    requires Enabled(c, step)
    ensures var d := Next(c, step);
            match step
            case Tick(seconds) => d == c.(tables := c.tables.(now := c.tables.now + seconds))
            case CreateRoute(route) =>
              d == c.(tables := c.tables.(routes := c.tables.routes[route := RouteRow(Closed, None)]))
            case CloseRoute(route) => d == c.(tables := d.tables) && WritesRoute(c, d, route, RouteRow(Closed, None))
            case OpenRoute(route, retryAt) =>
              d == c.(tables := d.tables) && WritesRoute(c, d, route, RouteRow(Open, retryAt))
            case Acquire(i, route, lease, reply) =>
              && lease in d.issued
              && (if reply != Unreachable && MayProbe(InstanceOf(c, i).local, c.tables, route) then
                    && Granting(c.tables, d.tables, route, lease)
                    && d.grants == c.grants + [Grant(i, route, lease, c.tables.now + 60)]
                  else d.tables == c.tables && d.grants == c.grants)
              && ((route in InstanceOf(d, i).local && route !in InstanceOf(c, i).local) <==>
                    reply == Answered && MayProbe(InstanceOf(c, i).local, c.tables, route))
              && (route in InstanceOf(d, i).local && route !in InstanceOf(c, i).local ==>
                    InstanceOf(d, i).local[route] == lease)
            case StartRelease(i, route) =>
              && d.tables == c.tables && route !in InstanceOf(d, i).local
              && (route in InstanceOf(c, i).local ==>
                    (route, InstanceOf(c, i).local[route]) in InstanceOf(d, i).releasing)
            case FinishRelease(i, route, lease, reply) =>
              && d.tables.routes == c.tables.routes && (route, lease) !in InstanceOf(d, i).releasing
              && d.tables.leases ==
                 (if reply != Unreachable && route in c.tables.leases && c.tables.leases[route].id == lease
                  then c.tables.leases - {route} else c.tables.leases)
            case Crash(i) => d.tables == c.tables && InstanceOf(d, i) == Instance(map[], {})
  {
    if step.Acquire? {
      TryLeaseIff(InstanceOf(c, step.instance).local, c.tables, step.route, step.lease);
    }
  }

  predicate WritesRoute(c: Cluster, d: Cluster, route: RouteId, row: RouteRow) {
    && d.tables.now == c.tables.now && d.tables.leases == c.tables.leases
    && d.tables.routes == if route in c.tables.routes then c.tables.routes[route := row] else c.tables.routes
  }

  ghost predicate Run(c: Cluster, steps: seq<Step>, d: Cluster)
    decreases |steps|
  {
    if steps == [] then c == d
    else Enabled(c, steps[0]) && Run(Next(c, steps[0]), steps[1..], d)
  }

  ghost predicate Reachable(c: Cluster) {
    exists now, steps :: Run(Start(now), steps, c)
  }

  // ---------- The invariant ----------

  predicate Live(c: Cluster, g: Grant) {
    g.lease !in c.released && g.expiresAt > c.tables.now
  }

  ghost predicate Granted(c: Cluster, i: InstanceId, route: RouteId, lease: LeaseId) {
    exists g :: g in c.grants && g.instance == i && g.route == route && g.lease == lease
  }

  ghost predicate HistoryInv(c: Cluster) {
    && (forall g :: g in c.grants ==> g.lease in c.issued)
    && (forall j, k :: 0 <= j < k < |c.grants| ==> c.grants[j].lease != c.grants[k].lease)
    && (forall i, route, lease :: i in c.instances && (route, lease) in c.instances[i].releasing ==>
        Granted(c, i, route, lease))
    && (forall i, route :: i in c.instances && route in c.instances[i].local ==>
        Granted(c, i, route, c.instances[i].local[route]))
  }

  ghost predicate LeaseInv(c: Cluster) {
    && (forall g :: g in c.grants && Live(c, g) ==>
        g.route in c.tables.leases && c.tables.leases[g.route] == Lease(g.lease, g.expiresAt))
    && (forall route :: route in c.tables.leases ==>
        c.tables.leases[route].expiresAt <= c.tables.now + HALF_OPEN_LEASE_SECONDS)
  }

  ghost predicate CircuitInv(c: Cluster) {
    forall route :: route in c.tables.routes ==>
      var row := c.tables.routes[route];
      && (row.state.Closed? ==> row.retryAt == None)
      && (row.state.HalfOpen? ==> row.retryAt.Some? && row.retryAt.value <= c.tables.now)
  }

  ghost predicate Inv(c: Cluster) {
    HistoryInv(c) && LeaseInv(c) && CircuitInv(c)
  }

  lemma AcquireKeepsHistory(c: Cluster, i: InstanceId, route: RouteId, lease: LeaseId, reply: Reply)
    requires HistoryInv(c) && lease !in c.issued
    ensures HistoryInv(Next(c, Acquire(i, route, lease, reply)))
  {
    var d := Next(c, Acquire(i, route, lease, reply));
    if AcquireResult(c, i, route, lease).Some? && reply != Unreachable {
      var g := d.grants[|c.grants|];
      assert g in d.grants && Granted(d, i, route, lease);
      assert forall h :: h in c.grants ==> h in d.grants;
      forall j, k | 0 <= j < k < |d.grants|
        ensures d.grants[j].lease != d.grants[k].lease
      {
        assert d.grants[j] in c.grants;
      }
      forall j, r, l | j in d.instances && (r, l) in d.instances[j].releasing
        ensures Granted(d, j, r, l)
      {
        assert (r, l) in InstanceOf(c, j).releasing;
        assert Granted(c, j, r, l);
      }
      forall j, r | j in d.instances && r in d.instances[j].local
        ensures Granted(d, j, r, d.instances[j].local[r])
      {
        if !(j == i && r == route) {
          assert r in InstanceOf(c, j).local;
          assert Granted(c, j, r, c.instances[j].local[r]);
        }
      }
    } else {
      SameGrants(c, d);
    }
  }

  lemma SameGrants(c: Cluster, d: Cluster)
    requires c.grants == d.grants
    ensures forall i, route, lease :: Granted(c, i, route, lease) ==> Granted(d, i, route, lease)
  {
  }

  lemma ReleaseKeepsHistory(c: Cluster, step: Step)
    requires HistoryInv(c) && Enabled(c, step)
    requires step.StartRelease? || step.FinishRelease? || step.Crash?
    ensures HistoryInv(Next(c, step))
  {
    var d := Next(c, step);
    SameGrants(c, d);
    var i := step.instance;
    var me := InstanceOf(c, i);
    forall j, r, l | j in d.instances && (r, l) in d.instances[j].releasing
      ensures Granted(d, j, r, l)
    {
      if j == i && (r, l) !in me.releasing {
        assert r in me.local && l == me.local[r];
      }
      assert Granted(c, j, r, l);
    }
    forall j, r | j in d.instances && r in d.instances[j].local
      ensures Granted(d, j, r, d.instances[j].local[r])
    {
      assert Granted(c, j, r, c.instances[j].local[r]);
    }
  }

  lemma StepKeepsHistory(c: Cluster, step: Step)
    requires HistoryInv(c) && Enabled(c, step)
    ensures HistoryInv(Next(c, step))
  {
    match step
    case Acquire(i, route, lease, reply) => AcquireKeepsHistory(c, i, route, lease, reply);
    case StartRelease(_, _) => ReleaseKeepsHistory(c, step);
    case FinishRelease(_, _, _, _) => ReleaseKeepsHistory(c, step);
    case Crash(_) => ReleaseKeepsHistory(c, step);
    case Tick(_) => SameGrants(c, Next(c, step));
    case CreateRoute(_) => SameGrants(c, Next(c, step));
    case CloseRoute(_) => SameGrants(c, Next(c, step));
    case OpenRoute(_, _) => SameGrants(c, Next(c, step));
  }

  lemma StepKeepsLeases(c: Cluster, step: Step)
    requires Inv(c) && Enabled(c, step)
    ensures LeaseInv(Next(c, step))
  {
    var d := Next(c, step);
    forall g | g in d.grants && Live(d, g)
      ensures g.route in d.tables.leases && d.tables.leases[g.route] == Lease(g.lease, g.expiresAt)
    {
      if g in c.grants {
        assert Live(c, g);
      }
    }
  }

  lemma StepKeepsInv(c: Cluster, step: Step)
    requires Inv(c) && Enabled(c, step)
    ensures Inv(Next(c, step))
  {
    StepKeepsHistory(c, step);
    StepKeepsLeases(c, step);
    assert CircuitInv(Next(c, step));
  }

  lemma {:induction false} RunKeepsInv(c: Cluster, steps: seq<Step>, d: Cluster)
    requires Inv(c) && Run(c, steps, d)
    ensures Inv(d)
    decreases |steps|
  {
    if steps != [] {
      StepKeepsInv(c, steps[0]);
      RunKeepsInv(Next(c, steps[0]), steps[1..], d);
    }
  }

  lemma ReachableInv(c: Cluster)
    requires Reachable(c)
    ensures Inv(c)
  {
    var now, steps :| Run(Start(now), steps, c);
    RunKeepsInv(Start(now), steps, c);
  }

  // ---------- The results ----------

  /** In every run, over any number of instances, a route has at most one unexpired, unreleased lease. */
  lemma OneLiveLeasePerRoute(c: Cluster, j: nat, k: nat)
    requires Reachable(c) && j < k < |c.grants| && c.grants[j].route == c.grants[k].route
    ensures !(Live(c, c.grants[j]) && Live(c, c.grants[k]))
  {
    ReachableInv(c);
    assert c.grants[j] in c.grants && c.grants[k] in c.grants;
  }

  /** A successful acquire means every earlier lease of the route was released or has expired. */
  lemma AcquireFindsNoLiveLease(c: Cluster, i: InstanceId, route: RouteId, lease: LeaseId, g: Grant)
    requires Reachable(c) && AcquireResult(c, i, route, lease).Some? && g in c.grants && g.route == route
    ensures !Live(c, g)
  {
    ReachableInv(c);
  }

  /** A release, however late, never touches a lease row other than the releasing instance's own grant. */
  lemma StaleReleaseIsHarmless(c: Cluster, i: InstanceId, route: RouteId, lease: LeaseId, other: RouteId)
    requires Reachable(c) && Enabled(c, FinishRelease(i, route, lease, Answered)) && other in c.tables.leases
    ensures var d := Next(c, FinishRelease(i, route, lease, Answered));
            if other in d.tables.leases then d.tables.leases[other] == c.tables.leases[other]
            else other == route && c.tables.leases[other].id == lease && Granted(c, i, route, lease)
  {
    ReachableInv(c);
  }

  /** In particular a lease another instance was granted in the meantime stays live. */
  lemma SuccessorSurvivesRelease(c: Cluster, i: InstanceId, route: RouteId, lease: LeaseId, g: Grant)
    requires Reachable(c) && Enabled(c, FinishRelease(i, route, lease, Answered))
    requires g in c.grants && Live(c, g) && g.instance != i
    ensures var d := Next(c, FinishRelease(i, route, lease, Answered));
            Live(d, g) && g.route in d.tables.leases && d.tables.leases[g.route] == Lease(g.lease, g.expiresAt)
  {
    ReachableInv(c);
    var h :| h in c.grants && h.instance == i && h.route == route && h.lease == lease;
    var j :| 0 <= j < |c.grants| && c.grants[j] == g;
    var k :| 0 <= k < |c.grants| && c.grants[k] == h;
    StepKeepsInv(c, FinishRelease(i, route, lease, Answered));
  }

  /** In every reachable state a closed route has no retry time and a half-open route is due. */
  lemma CircuitRowsAreConsistent(c: Cluster, route: RouteId)
    requires Reachable(c) && route in c.tables.routes
    ensures c.tables.routes[route].state.Closed? ==> c.tables.routes[route].retryAt == None
    ensures c.tables.routes[route].state.HalfOpen? ==> c.tables.Due(route)
  {
    ReachableInv(c);
  }

  /** A half-open route is won exactly by an instance with no local entry once its lease is gone or expired. */
  lemma HalfOpenWonIff(c: Cluster, i: InstanceId, route: RouteId, lease: LeaseId)
    requires Reachable(c) && route in c.tables.routes && c.tables.routes[route].state.HalfOpen?
    ensures AcquireResult(c, i, route, lease).Some? <==>
            && route !in InstanceOf(c, i).local
            && (route in c.tables.leases ==> c.tables.leases[route].expiresAt <= c.tables.now)
  {
    ReachableInv(c);
  }

  /** `step` reports on `route`. */
  predicate Marks(step: Step, route: RouteId) {
    (step.CloseRoute? || step.OpenRoute?) && step.route == route
  }

  /** While nobody wins or marks a half-open route, its row stays, its lease row stays or goes, and no instance
      gains a local entry for it. */
  ghost predicate Left(c: Cluster, d: Cluster, i: InstanceId, route: RouteId) {
    && c.tables.now <= d.tables.now
    && route in c.tables.routes && route in d.tables.routes && d.tables.routes[route] == c.tables.routes[route]
    && (route in d.tables.leases ==> route in c.tables.leases && d.tables.leases[route] == c.tables.leases[route])
    && (route in InstanceOf(d, i).local ==> route in InstanceOf(c, i).local)
  }

  ghost predicate NoNewGrant(c: Cluster, d: Cluster, route: RouteId) {
    |c.grants| <= |d.grants| && forall k :: |c.grants| <= k < |d.grants| ==> d.grants[k].route != route
  }

  lemma {:induction false} GrantsGrow(c: Cluster, steps: seq<Step>, d: Cluster)
    requires Run(c, steps, d)
    ensures c.grants <= d.grants
    decreases |steps|
  {
    if steps != [] {
      GrantsGrow(Next(c, steps[0]), steps[1..], d);
    }
  }

  lemma StepLeaves(c: Cluster, step: Step, i: InstanceId, route: RouteId)
    requires Enabled(c, step) && !Marks(step, route) && route in c.tables.routes
    requires NoNewGrant(c, Next(c, step), route)
    ensures Left(c, Next(c, step), i, route)
  {
    if step.Acquire? && Next(c, step).grants != c.grants {
      assert Next(c, step).grants[|c.grants|].route == step.route;
    }
  }

  lemma {:induction false} RunLeaves(c: Cluster, steps: seq<Step>, d: Cluster, i: InstanceId, route: RouteId)
    requires Run(c, steps, d) && route in c.tables.routes
    requires NoNewGrant(c, d, route) && forall step :: step in steps ==> !Marks(step, route)
    ensures Left(c, d, i, route)
    decreases |steps|
  {
    if steps != [] {
      var mid := Next(c, steps[0]);
      GrantsGrow(mid, steps[1..], d);
      forall k | |c.grants| <= k < |mid.grants|
        ensures mid.grants[k].route != route
      {
        assert mid.grants[k] == d.grants[k];
      }
      assert steps[0] in steps;
      StepLeaves(c, steps[0], i, route);
      RunLeaves(mid, steps[1..], d, i, route);
    }
  }

  /** A crashed owner cannot strand a half-open route. Take any run after the crash that lasts at least one lease
      period and in which nobody wins or marks the route: then the restarted instance, and every instance that had no
      local entry, wins the next acquire. */
  lemma CrashedOwnerCannotStrand(
      c: Cluster, crashed: InstanceId, steps: seq<Step>, d: Cluster, i: InstanceId, route: RouteId, lease: LeaseId)
    requires Reachable(c) && route in c.tables.routes && c.tables.routes[route].state.HalfOpen?
    requires Run(Next(c, Crash(crashed)), steps, d) && d.tables.now >= c.tables.now + HALF_OPEN_LEASE_SECONDS
    requires NoNewGrant(c, d, route) && forall step :: step in steps ==> !Marks(step, route)
    requires i == crashed || route !in InstanceOf(c, i).local
    ensures AcquireResult(d, i, route, lease).Some?
  {
    ReachableInv(c);
    RunLeaves(Next(c, Crash(crashed)), steps, d, i, route);
  }

  /** A route that was opened by a failure and is due does become half-open: the states the theorems above speak about
      are reached. */
  lemma OpenedRouteBecomesHalfOpen(route: RouteId, i: InstanceId, lease: LeaseId, now: int, wait: nat)
    returns (c: Cluster)
    ensures Reachable(c) && c.tables.now == now + wait
    ensures route in c.tables.routes && c.tables.routes[route] == RouteRow(HalfOpen, Some(now + wait))
    ensures route in c.tables.leases && c.tables.leases[route] == Lease(lease, now + wait + 60)
    ensures route in InstanceOf(c, i).local && InstanceOf(c, i).local[route] == lease
  {
    var created := Next(Start(now), CreateRoute(route));
    var failed := Next(created, OpenRoute(route, Some(now + wait)));
    var later := Next(failed, Tick(wait));
    c := Next(later, Acquire(i, route, lease, Answered));
    var last := [Acquire(i, route, lease, Answered)];
    assert last[1..] == [] && Run(c, [], c);
    assert Run(later, last, c);
    var three := [Tick(wait)] + last;
    assert three[1..] == last && Run(failed, three, c);
    var four := [OpenRoute(route, Some(now + wait))] + three;
    assert four[1..] == three && Run(created, four, c);
    var steps := [CreateRoute(route)] + four;
    assert steps[1..] == four && Run(Start(now), steps, c);
  }
}
