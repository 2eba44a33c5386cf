// Expansion of a model and its ordered fallbacks into a route plan.

module Planning {
  import opened Domain
  import opened FallbackGraph

  datatype DomainError =
    | UnknownModel(model: Model)
    | FallbackCycle(model: Model)
    | NoEligibleRoute(model: Model)

  type Plan = Result<seq<RouteCandidate>, DomainError>

  // ---------- Routes of one model, by priority ----------

  function OfModel(routes: seq<RouteCandidate>, m: Model): seq<RouteCandidate> {
    if routes == [] then []
    else if routes[0].logicalModel == m then [routes[0]] + OfModel(routes[1..], m)
    else OfModel(routes[1..], m)
  }

  function Insert(r: RouteCandidate, sorted: seq<RouteCandidate>): seq<RouteCandidate> {
    if sorted == [] || r.priority <= sorted[0].priority then [r] + sorted
    else [sorted[0]] + Insert(r, sorted[1..])
  }

  /** The standard library's stable sort by priority. */
  function SortByPriority(routes: seq<RouteCandidate>): seq<RouteCandidate> {
    if routes == [] then [] else Insert(routes[0], SortByPriority(routes[1..]))
  }

  function OfPriority(routes: seq<RouteCandidate>, p: nat): seq<RouteCandidate> {
    if routes == [] then []
    else if routes[0].priority == p then [routes[0]] + OfPriority(routes[1..], p)
    else OfPriority(routes[1..], p)
  }

  ghost predicate Ascending(routes: seq<RouteCandidate>) {
    forall i, j :: 0 <= i < j < |routes| ==> routes[i].priority <= routes[j].priority
  }

  lemma AscendingCons(r: RouteCandidate, rest: seq<RouteCandidate>)
    requires Ascending(rest) && forall s :: s in rest ==> r.priority <= s.priority
    ensures Ascending([r] + rest)
  {
  }

  lemma {:induction false} InsertSorts(r: RouteCandidate, sorted: seq<RouteCandidate>)
    requires Ascending(sorted)
    ensures Ascending(Insert(r, sorted))
    ensures multiset(Insert(r, sorted)) == multiset{r} + multiset(sorted)
  {
    if sorted == [] || r.priority <= sorted[0].priority {
      AscendingCons(r, sorted);
    } else {
      var least, rest := sorted[0], sorted[1..];
      assert sorted == [least] + rest;
      InsertSorts(r, rest);
      forall s | s in Insert(r, rest)
        ensures least.priority <= s.priority
      {
        assert s in multiset(Insert(r, rest));
      }
      AscendingCons(least, Insert(r, rest));
    }
  }

  lemma OfPriorityCons(r: RouteCandidate, rest: seq<RouteCandidate>, p: nat)
    ensures OfPriority([r] + rest, p) == if r.priority == p then [r] + OfPriority(rest, p) else OfPriority(rest, p)
  {
    assert ([r] + rest)[1..] == rest;
  }

  lemma {:induction false} InsertIsStable(r: RouteCandidate, sorted: seq<RouteCandidate>, p: nat)
    ensures OfPriority(Insert(r, sorted), p) == OfPriority([r] + sorted, p)
  {
    if sorted != [] && r.priority > sorted[0].priority {
      InsertIsStable(r, sorted[1..], p);
      OfPriorityCons(sorted[0], Insert(r, sorted[1..]), p);
      OfPriorityCons(r, sorted[1..], p);
      OfPriorityCons(r, sorted, p);
    }
  }

  /** The sort is ascending, keeps every route, and keeps routes of equal priority in their given order. */
  lemma {:induction false} SortIsStable(routes: seq<RouteCandidate>, p: nat)
    ensures Ascending(SortByPriority(routes))
    ensures multiset(SortByPriority(routes)) == multiset(routes)
    ensures OfPriority(SortByPriority(routes), p) == OfPriority(routes, p)
  {
    if routes != [] {
      SortIsStable(routes[1..], p);
      var sorted := SortByPriority(routes[1..]);
      InsertSorts(routes[0], sorted);
      InsertIsStable(routes[0], sorted, p);
      OfPriorityCons(routes[0], sorted, p);
      assert routes == [routes[0]] + routes[1..];
    }
  }

  lemma {:induction false} OfModelCount(routes: seq<RouteCandidate>, m: Model, r: RouteCandidate)
    ensures multiset(OfModel(routes, m))[r] == if r.logicalModel == m then multiset(routes)[r] else 0
  {
    if routes != [] {
      OfModelCount(routes[1..], m, r);
      assert routes == [routes[0]] + routes[1..];
    }
  }

  lemma {:induction false} OfModelAppend(a: seq<RouteCandidate>, b: seq<RouteCandidate>, m: Model)
    ensures OfModel(a + b, m) == OfModel(a, m) + OfModel(b, m)
  {
    if a == [] {
      assert a + b == b;
    } else {
      assert (a + b)[1..] == a[1..] + b;
      OfModelAppend(a[1..], b, m);
    }
  }

  // ---------- The specification ----------

  function Flatten(order: seq<Model>, routes: seq<RouteCandidate>): seq<RouteCandidate> {
    if order == [] then []
    else SortByPriority(OfModel(routes, order[0])) + Flatten(order[1..], routes)
  }

  lemma {:induction false} FlattenAppend(a: seq<Model>, b: seq<Model>, routes: seq<RouteCandidate>)
    ensures Flatten(a + b, routes) == Flatten(a, routes) + Flatten(b, routes)
  {
    if a == [] {
      assert a + b == b;
    } else {
      assert (a + b)[1..] == a[1..] + b;
      FlattenAppend(a[1..], b, routes);
    }
  }

  /** The visited set and output list once walk `w` is over, or the cycle it met. */
  function Final(output: seq<RouteCandidate>, w: Walk, routes: seq<RouteCandidate>)
    : Result<(set<Model>, seq<RouteCandidate>), DomainError>
  {
    match w
    case CycleAt(m) => Err(FallbackCycle(m))
    case Walked(visited, order) => Ok((visited, output + Flatten(order, routes)))
  }

  lemma FinalBefore(output: seq<RouteCandidate>, order: seq<Model>, w: Walk, routes: seq<RouteCandidate>)
    ensures Final(output, Before(order, w), routes) == Final(output + Flatten(order, routes), w, routes)
  {
    if w.Walked? {
      FlattenAppend(order, w.order, routes);
      Regroup(output, Flatten(order, routes), Flatten(w.order, routes));
    }
  }

  function PlanFor(requested: Model, routes: seq<RouteCandidate>, fallbacks: Graph): Plan {
    if OfModel(routes, requested) == [] then
      Err(UnknownModel(requested))
    else
      match Visit(fallbacks, requested, {}, {})
      case CycleAt(m) => Err(FallbackCycle(m))
      case Walked(_, order) =>
        var output := Flatten(order, routes);
        if output == [] then Err(NoEligibleRoute(requested)) else Ok(output)
  }

  // ---------- The planner as the source runs it ----------

  /** The mutable sets and output list that `visit` threads through its recursion. */
  class Planner {
    const routesByModel: map<Model, seq<RouteCandidate>>
    const fallbacks: Graph
    ghost const routes: seq<RouteCandidate>
    var visiting: set<Model>
    var visited: set<Model>
    var output: seq<RouteCandidate>

    constructor (routesByModel: map<Model, seq<RouteCandidate>>, fallbacks: Graph, ghost routes: seq<RouteCandidate>)
      requires Grouped(routesByModel, routes)
      ensures Valid() && this.fallbacks == fallbacks && this.routes == routes
      ensures visiting == {} && visited == {} && output == []
    {
      this.routesByModel, this.fallbacks, this.routes := routesByModel, fallbacks, routes;
      visiting, visited, output := {}, {}, [];
    }

    ghost predicate Valid() {
      Grouped(routesByModel, routes)
    }

    method VisitModel(model: Model) returns (r: Result<(), DomainError>)
      requires Valid()
      modifies this
      ensures Final(old(output), Visit(fallbacks, model, old(visiting), old(visited)), routes) == State(r)
      ensures r.Ok? ==> visiting == old(visiting)
      decreases |fallbacks.Keys - visited|, 0
    {
      if model in visiting {
        return Err(FallbackCycle(model));
      }
      visiting := visiting + {model};
      if model in visited {
        visiting := visiting - {model};
        assert output + Flatten([], routes) == output;
        return Ok(());
      }
      FewerLeft(fallbacks, visited, visited + {model});
      visited := visited + {model};
      if model in routesByModel {
        output := output + routesByModel[model];
      }
      assert Flatten([model], routes) == SortByPriority(OfModel(routes, model));
      assert output == old(output) + Flatten([model], routes);
      if model in fallbacks {
        FinalBefore(old(output), [model], VisitAll(fallbacks, fallbacks[model], visiting, visited), routes);
        r := VisitNext(fallbacks[model]);
        if r.Err? {
          return;
        }
      }
      visiting := visiting - {model};
      return Ok(());
    }

    /** The loop over a model's fallbacks. */
    method VisitNext(nextModels: seq<Model>) returns (r: Result<(), DomainError>)
      requires Valid()
      modifies this
      ensures Final(old(output), VisitAll(fallbacks, nextModels, old(visiting), old(visited)), routes) == State(r)
      ensures r.Ok? ==> visiting == old(visiting)
      decreases |fallbacks.Keys - visited|, 1
    {
      ghost var whole := Final(output, VisitAll(fallbacks, nextModels, visiting, visited), routes);
      for i := 0 to |nextModels|
        invariant visiting == old(visiting) && old(visited) <= visited
        invariant whole == Final(output, VisitAll(fallbacks, nextModels[i..], visiting, visited), routes)
      {
        FewerLeft(fallbacks, old(visited), visited);
        FinalStep(output, nextModels[i..], visiting, visited);
        assert nextModels[i..][1..] == nextModels[i + 1..];
        r := VisitModel(nextModels[i]);
        if r.Err? {
          return;
        }
      }
      assert output + Flatten([], routes) == output;
      return Ok(());
    }

    lemma FinalStep(output: seq<RouteCandidate>, ms: seq<Model>, visiting: set<Model>, visited: set<Model>)
      requires ms != []
      ensures var here := Final(output, Visit(fallbacks, ms[0], visiting, visited), routes);
              var all := Final(output, VisitAll(fallbacks, ms, visiting, visited), routes);
              if here.Err? then all == here
              else visited <= here.value.0 &&
                   all == Final(here.value.1, VisitAll(fallbacks, ms[1..], visiting, here.value.0), routes)
    {
      var first := Visit(fallbacks, ms[0], visiting, visited);
      if first.Walked? {
        FinalBefore(output, first.order, VisitAll(fallbacks, ms[1..], visiting, first.visited), routes);
      }
    }

    /** The fields after a walk that returned `r`. */
    ghost function State(r: Result<(), DomainError>): Result<(set<Model>, seq<RouteCandidate>), DomainError>
      reads this
    {
      if r.Err? then Err(r.error) else Ok((visited, output))
    }
  }

  ghost predicate Grouped(grouped: map<Model, seq<RouteCandidate>>, routes: seq<RouteCandidate>) {
    forall m :: (m in grouped <==> OfModel(routes, m) != []) &&
                (m in grouped ==> grouped[m] == SortByPriority(OfModel(routes, m)))
  }

  method GroupByModel(routes: seq<RouteCandidate>) returns (grouped: map<Model, seq<RouteCandidate>>)
    ensures Grouped(grouped, routes)
  {
    grouped := map[];
    for i := 0 to |routes|
      invariant forall m :: (m in grouped <==> OfModel(routes[..i], m) != []) &&
                            (m in grouped ==> grouped[m] == OfModel(routes[..i], m))
    {
      var route := routes[i];
      var entry := if route.logicalModel in grouped then grouped[route.logicalModel] else [];
      assert routes[..i + 1] == routes[..i] + [route];
      forall m: Model
        ensures OfModel(routes[..i + 1], m) ==
                if m == route.logicalModel then OfModel(routes[..i], m) + [route] else OfModel(routes[..i], m)
      {
        OfModelAppend(routes[..i], [route], m);
      }
      grouped := grouped[route.logicalModel := entry + [route]];
    }
    assert routes[..|routes|] == routes;
    var unsorted := grouped.Keys;
    while unsorted != {}
      invariant unsorted <= grouped.Keys
      invariant forall m :: m in grouped <==> OfModel(routes, m) != []
      invariant forall m :: m in grouped ==>
        grouped[m] == if m in unsorted then OfModel(routes, m) else SortByPriority(OfModel(routes, m))
      decreases unsorted
    {
      var m :| m in unsorted;
      grouped := grouped[m := SortByPriority(grouped[m])];
      unsorted := unsorted - {m};
    }
  }

  method CandidatePlan(requested: Model, routes: seq<RouteCandidate>, fallbacks: Graph) returns (plan: Plan)
    ensures plan == PlanFor(requested, routes, fallbacks)
  {
    var routesByModel := GroupByModel(routes);
    if requested !in routesByModel {
      return Err(UnknownModel(requested));
    }
    var planner := new Planner(routesByModel, fallbacks, routes);
    var visit := planner.VisitModel(requested);
    if visit.Err? {
      return Err(visit.error);
    }
    assert visit.Ok? ==> planner.output == Flatten(Visit(fallbacks, requested, {}, {}).order, routes);
    if planner.output == [] {
      return Err(NoEligibleRoute(requested));
    }
    return Ok(planner.output);
  }

  // ---------- When planning succeeds, and what its errors mean ----------

  ghost predicate HasRoute(routes: seq<RouteCandidate>, m: Model) {
    exists r :: r in routes && r.logicalModel == m
  }

  lemma HasRouteIff(routes: seq<RouteCandidate>, m: Model)
    ensures HasRoute(routes, m) <==> OfModel(routes, m) != []
  {
    if r :| r in routes && r.logicalModel == m {
      OfModelCount(routes, m, r);
      assert r in multiset(routes) && r in multiset(OfModel(routes, m));
    }
    if OfModel(routes, m) != [] {
      var r := OfModel(routes, m)[0];
      assert r in multiset(OfModel(routes, m));
      OfModelCount(routes, m, r);
      assert r in multiset(routes);
    }
  }

  /** The plan exists exactly when the requested model itself has a route and no cycle is reachable from it.
      `NoEligibleRoute` never comes out, and a reported cycle is a real, reachable one. */
  lemma PlanOutcome(requested: Model, routes: seq<RouteCandidate>, fallbacks: Graph)
    ensures var plan := PlanFor(requested, routes, fallbacks);
            && (plan.Ok? <==> HasRoute(routes, requested) && !CycleReachable(fallbacks, requested))
            && (plan.Err? ==>
                  match plan.error
                  case UnknownModel(m) => m == requested && !HasRoute(routes, requested)
                  case FallbackCycle(m) => Reaches(fallbacks, requested, m) && OnCycle(fallbacks, m)
                  case NoEligibleRoute(_) => false)
  {
    HasRouteIff(routes, requested);
    WalkTheorem(fallbacks, requested);
    var w := Visit(fallbacks, requested, {}, {});
    if OfModel(routes, requested) != [] && w.Walked? {
      ReachesSelf(fallbacks, requested);
      var r := OfModel(routes, requested)[0];
      assert r in multiset(OfModel(routes, requested));
      FlattenCount(w.order, routes, r);
      OfModelCount(routes, requested, r);
      assert r in multiset(Flatten(w.order, routes));
    }
  }

  ghost predicate Distinct(order: seq<Model>) {
    forall i, j :: 0 <= i < j < |order| ==> order[i] != order[j]
  }

  lemma {:induction false} FlattenCount(order: seq<Model>, routes: seq<RouteCandidate>, r: RouteCandidate)
    requires Distinct(order)
    ensures multiset(Flatten(order, routes))[r] == if r.logicalModel in order then multiset(routes)[r] else 0
  {
    if order != [] {
      var first := SortByPriority(OfModel(routes, order[0]));
      FlattenCount(order[1..], routes, r);
      SortIsStable(OfModel(routes, order[0]), 0);
      OfModelCount(routes, order[0], r);
      assert multiset(Flatten(order, routes)) == multiset(first) + multiset(Flatten(order[1..], routes));
      if r.logicalModel == order[0] {
        assert forall k :: 0 <= k < |order[1..]| ==> order[1..][k] == order[k + 1];
      }
    }
  }

  /** `a` comes before `b`: its model is visited earlier, or it is the same model and its priority is no larger. */
  ghost predicate PlannedBefore(order: seq<Model>, a: RouteCandidate, b: RouteCandidate) {
    exists i, j ::
      && 0 <= i <= j < |order| && order[i] == a.logicalModel && order[j] == b.logicalModel
      && (i == j ==> a.priority <= b.priority)
  }

  lemma FlattenMember(order: seq<Model>, routes: seq<RouteCandidate>, r: RouteCandidate) returns (k: nat)
    requires Distinct(order) && r in Flatten(order, routes)
    ensures k < |order| && order[k] == r.logicalModel
  {
    assert r in multiset(Flatten(order, routes));
    FlattenCount(order, routes, r);
    k :| 0 <= k < |order| && order[k] == r.logicalModel;
  }

  lemma SortedMember(routes: seq<RouteCandidate>, m: Model, r: RouteCandidate)
    requires r in SortByPriority(OfModel(routes, m))
    ensures r.logicalModel == m
  {
    assert r in multiset(SortByPriority(OfModel(routes, m)));
    SortIsStable(OfModel(routes, m), 0);
    OfModelCount(routes, m, r);
  }

  lemma {:induction false} FlattenOrdered(order: seq<Model>, routes: seq<RouteCandidate>, x: nat, y: nat)
    requires Distinct(order) && x < y < |Flatten(order, routes)|
    ensures PlannedBefore(order, Flatten(order, routes)[x], Flatten(order, routes)[y])
  {
    var first := SortByPriority(OfModel(routes, order[0]));
    var tail := order[1..];
    var rest := Flatten(tail, routes);
    var a, b := Flatten(order, routes)[x], Flatten(order, routes)[y];
    if y < |first| {
      SortIsStable(OfModel(routes, order[0]), 0);
      SortedMember(routes, order[0], a);
      SortedMember(routes, order[0], b);
      assert order[0] == a.logicalModel && order[0] == b.logicalModel;
    } else if x < |first| {
      SortedMember(routes, order[0], a);
      assert b == rest[y - |first|];
      var k := FlattenMember(tail, routes, b);
      assert order[0] == a.logicalModel && order[k + 1] == b.logicalModel;
    } else {
      FlattenOrdered(tail, routes, x - |first|, y - |first|);
      assert PlannedBefore(tail, a, b);
      var i, j :| 0 <= i <= j < |tail| && tail[i] == a.logicalModel && tail[j] == b.logicalModel &&
                  (i == j ==> a.priority <= b.priority);
      assert order[i + 1] == a.logicalModel && order[j + 1] == b.logicalModel;
    }
  }

  /** A successful plan holds exactly the routes of the reachable models, each as often as it was given,
      ordered by first depth-first visit of the model and then by ascending priority. */
  lemma PlanContents(requested: Model, routes: seq<RouteCandidate>, fallbacks: Graph)
    requires PlanFor(requested, routes, fallbacks).Ok?
    ensures var plan := PlanFor(requested, routes, fallbacks).value;
            var order := Preorder(fallbacks, [requested], {});
            && Distinct(order)
            && (forall m :: m in order <==> Reaches(fallbacks, requested, m))
            && (forall r :: multiset(plan)[r] ==
                  if Reaches(fallbacks, requested, r.logicalModel) then multiset(routes)[r] else 0)
            && (forall x, y :: 0 <= x < y < |plan| ==> PlannedBefore(order, plan[x], plan[y]))
            && plan[0].logicalModel == requested
  {
    WalkTheorem(fallbacks, requested);
    var order := Visit(fallbacks, requested, {}, {}).order;
    var plan := PlanFor(requested, routes, fallbacks).value;
    forall r: RouteCandidate
      ensures multiset(plan)[r] == if Reaches(fallbacks, requested, r.logicalModel) then multiset(routes)[r] else 0
    {
      FlattenCount(order, routes, r);
    }
    forall x, y | 0 <= x < y < |plan|
      ensures PlannedBefore(order, plan[x], plan[y])
    {
      FlattenOrdered(order, routes, x, y);
    }
    PlanHead(requested, routes, fallbacks);
  }

  lemma {:induction false} FirstOfPriority(sorted: seq<RouteCandidate>)
    requires sorted != []
    ensures OfPriority(sorted, sorted[0].priority) != [] && OfPriority(sorted, sorted[0].priority)[0] == sorted[0]
  {
  }

  lemma SortedHead(own: seq<RouteCandidate>)
    requires own != []
    ensures var sorted := SortByPriority(own);
            && sorted != [] && sorted[0] in own
            && (forall r :: r in own ==> sorted[0].priority <= r.priority)
            && OfPriority(own, sorted[0].priority) != []
            && sorted[0] == OfPriority(own, sorted[0].priority)[0]
  {
    var sorted := SortByPriority(own);
    SortIsStable(own, 0);
    assert |sorted| == |multiset(sorted)| == |own|;
    SortIsStable(own, sorted[0].priority);
    FirstOfPriority(sorted);
    assert sorted[0] in multiset(sorted);
    forall r | r in own
      ensures sorted[0].priority <= r.priority
    {
      assert r in multiset(sorted);
    }
  }

  /** The head of a plan is the first route of the requested model with the smallest priority number. */
  lemma PlanHead(requested: Model, routes: seq<RouteCandidate>, fallbacks: Graph)
    requires PlanFor(requested, routes, fallbacks).Ok?
    ensures var head := PlanFor(requested, routes, fallbacks).value[0];
            && head in routes && head.logicalModel == requested
            && (forall r :: r in routes && r.logicalModel == requested ==> head.priority <= r.priority)
            && [head] <= OfPriority(OfModel(routes, requested), head.priority)
  {
    var own := OfModel(routes, requested);
    SortedHead(own);
    var head := SortByPriority(own)[0];
    OfModelCount(routes, requested, head);
    assert head in multiset(own) && head in multiset(routes);
    forall r | r in routes && r.logicalModel == requested
      ensures head.priority <= r.priority
    {
      OfModelCount(routes, requested, r);
      assert r in multiset(routes) && r in multiset(own);
    }
  }

  // ---------- Independence from row order and from unreachable routes ----------

  /** The schema's UNIQUE (logical_model, priority) constraint. */
  ghost predicate UniquePriorities(routes: seq<RouteCandidate>) {
    forall r, s :: r in routes && s in routes && r.logicalModel == s.logicalModel && r.priority == s.priority ==> r == s
  }

  lemma WithoutHead(a: seq<RouteCandidate>)
    requires a != []
    ensures multiset(a[1..]) == multiset(a) - multiset{a[0]}
  {
    assert a == [a[0]] + a[1..];
  }

  lemma SameLength(a: seq<RouteCandidate>, b: seq<RouteCandidate>)
    requires multiset(a) == multiset(b)
    ensures |a| == |b|
  {
    assert |a| == |multiset(a)| && |b| == |multiset(b)|;
  }

  lemma {:induction false} SortedUnique(a: seq<RouteCandidate>, b: seq<RouteCandidate>)
    requires Ascending(a) && Ascending(b) && multiset(a) == multiset(b)
    requires forall r, s :: r in a && s in a && r.priority == s.priority ==> r == s
    ensures a == b
  {
    SameLength(a, b);
    if a != [] {
      SameHead(a, b);
      WithoutHead(a);
      WithoutHead(b);
      SortedUnique(a[1..], b[1..]);
      SameCons(a, b);
    }
  }

  lemma SameCons(a: seq<RouteCandidate>, b: seq<RouteCandidate>)
    requires a != [] && b != [] && a[0] == b[0] && a[1..] == b[1..]
    ensures a == b
  {
    assert a == [a[0]] + a[1..] && b == [b[0]] + b[1..];
  }

  lemma SameHead(a: seq<RouteCandidate>, b: seq<RouteCandidate>)
    requires a != [] && b != []
    requires Ascending(a) && Ascending(b) && multiset(a) == multiset(b)
    requires forall r, s :: r in a && s in a && r.priority == s.priority ==> r == s
    ensures a[0] == b[0]
  {
    assert a[0] in multiset(b) && b[0] in multiset(a);
    var i :| 0 <= i < |b| && b[i] == a[0];
    var j :| 0 <= j < |a| && a[j] == b[0];
    assert b[0].priority <= b[i].priority && a[0].priority <= a[j].priority;
  }

  lemma SameRoutesOfModel(a: seq<RouteCandidate>, b: seq<RouteCandidate>, m: Model)
    requires multiset(a) == multiset(b) && UniquePriorities(a)
    ensures SortByPriority(OfModel(a, m)) == SortByPriority(OfModel(b, m))
    ensures OfModel(a, m) == [] <==> OfModel(b, m) == []
  {
    var x, y := OfModel(a, m), OfModel(b, m);
    forall r ensures multiset(x)[r] == multiset(y)[r] {
      OfModelCount(a, m, r);
      OfModelCount(b, m, r);
    }
    assert multiset(x) == multiset(y);
    assert |x| == |multiset(x)| == |y|;
    SortIsStable(x, 0);
    SortIsStable(y, 0);
    forall r, s | r in SortByPriority(x) && s in SortByPriority(x) && r.priority == s.priority
      ensures r == s
    {
      assert r in multiset(SortByPriority(x)) && s in multiset(SortByPriority(x));
      OfModelCount(a, m, r);
      OfModelCount(a, m, s);
      assert r in multiset(a) && s in multiset(a);
    }
    SortedUnique(SortByPriority(x), SortByPriority(y));
  }

  lemma {:induction false} FlattenAgrees(order: seq<Model>, a: seq<RouteCandidate>, b: seq<RouteCandidate>)
    requires forall m :: m in order ==> SortByPriority(OfModel(a, m)) == SortByPriority(OfModel(b, m))
    ensures Flatten(order, a) == Flatten(order, b)
  {
    if order != [] {
      FlattenAgrees(order[1..], a, b);
    }
  }

  /** With unique priorities the plan does not depend on the order in which the rows were read. */
  lemma PlanIgnoresRowOrder(requested: Model, a: seq<RouteCandidate>, b: seq<RouteCandidate>, fallbacks: Graph)
    requires multiset(a) == multiset(b) && UniquePriorities(a)
    ensures PlanFor(requested, a, fallbacks) == PlanFor(requested, b, fallbacks)
  {
    forall m
      ensures SortByPriority(OfModel(a, m)) == SortByPriority(OfModel(b, m))
      ensures OfModel(a, m) == [] <==> OfModel(b, m) == []
    {
      SameRoutesOfModel(a, b, m);
    }
    var w := Visit(fallbacks, requested, {}, {});
    if w.Walked? {
      FlattenAgrees(w.order, a, b);
    }
  }

  function Within(routes: seq<RouteCandidate>, models: set<Model>): seq<RouteCandidate> {
    if routes == [] then []
    else if routes[0].logicalModel in models then [routes[0]] + Within(routes[1..], models)
    else Within(routes[1..], models)
  }

  lemma {:induction false} OfModelWithin(routes: seq<RouteCandidate>, models: set<Model>, m: Model)
    requires m in models
    ensures OfModel(Within(routes, models), m) == OfModel(routes, m)
  {
    if routes != [] {
      OfModelWithin(routes[1..], models, m);
      assert ([routes[0]] + Within(routes[1..], models))[1..] == Within(routes[1..], models);
    }
  }

  /** Dropping the routes of unreachable models changes neither the plan nor its error. */
  lemma PlanIgnoresUnreachable(requested: Model, routes: seq<RouteCandidate>, fallbacks: Graph, models: set<Model>)
    requires forall m :: Reaches(fallbacks, requested, m) ==> m in models
    ensures PlanFor(requested, Within(routes, models), fallbacks) == PlanFor(requested, routes, fallbacks)
  {
    ReachesSelf(fallbacks, requested);
    OfModelWithin(routes, models, requested);
    WalkTheorem(fallbacks, requested);
    var w := Visit(fallbacks, requested, {}, {});
    if w.Walked? {
      forall m | m in w.order
        ensures OfModel(Within(routes, models), m) == OfModel(routes, m)
      {
        OfModelWithin(routes, models, m);
      }
      FlattenAgrees(w.order, Within(routes, models), routes);
    }
  }

  // ---------- The recursive query that computes the reachable models ----------

  function Targets(fallbacks: Graph, models: set<Model>): set<Model> {
    set m, n | m in models && m in fallbacks && n in fallbacks[m] :: n
  }

  /** `WITH RECURSIVE ... UNION`: adds the targets of what was found until nothing new appears. */
  function ReachableModels(fallbacks: Graph, found: set<Model>): (all: set<Model>)
    ensures found <= all
    decreases |Targets(fallbacks, fallbacks.Keys) - found|
  {
    var more := Targets(fallbacks, found);
    if more <= found then
      found
    else
      assert more <= Targets(fallbacks, fallbacks.Keys);
      StrictlyFewer(Targets(fallbacks, fallbacks.Keys) - (found + more), Targets(fallbacks, fallbacks.Keys) - found);
      ReachableModels(fallbacks, found + more)
  }

  lemma StrictlyFewer<T>(a: set<T>, b: set<T>)
    requires a < b
    ensures |a| < |b|
  {
    assert b == a + (b - a);
    assert b - a != {};
  }

  lemma {:induction false} ReachableModelsSound(fallbacks: Graph, root: Model, found: set<Model>)
    requires forall m :: m in found ==> Reaches(fallbacks, root, m)
    ensures forall m :: m in ReachableModels(fallbacks, found) ==> Reaches(fallbacks, root, m)
    ensures Closed(fallbacks, ReachableModels(fallbacks, found))
    decreases |Targets(fallbacks, fallbacks.Keys) - found|
  {
    var more := Targets(fallbacks, found);
    if more <= found {
    } else {
      assert more <= Targets(fallbacks, fallbacks.Keys);
      StrictlyFewer(Targets(fallbacks, fallbacks.Keys) - (found + more), Targets(fallbacks, fallbacks.Keys) - found);
      forall n | n in more
        ensures Reaches(fallbacks, root, n)
      {
        var m :| m in found && m in fallbacks && n in fallbacks[m];
        EdgeFollows(fallbacks, m, n);
        ReachesThenFollows(fallbacks, root, m, n);
      }
      ReachableModelsSound(fallbacks, root, found + more);
    }
  }

  lemma ReachableModelsExact(fallbacks: Graph, root: Model, m: Model)
    ensures m in ReachableModels(fallbacks, {root}) <==> Reaches(fallbacks, root, m)
  {
    ReachesSelf(fallbacks, root);
    ReachableModelsSound(fallbacks, root, {root});
    if p :| Path(fallbacks, p, root, m) {
      ClosedContains(fallbacks, ReachableModels(fallbacks, {root}), p, root, m);
    }
  }

  /** A model that has no route of its own is refused, although its fallback has one. */
  lemma FallbackRouteIsNotEnough(requested: Model, r: RouteCandidate)
    requires requested != r.logicalModel
    ensures var fallbacks := map[requested := [r.logicalModel]];
            && Reaches(fallbacks, requested, r.logicalModel)
            && PlanFor(requested, [r], fallbacks) == Err(UnknownModel(requested))
  {
    var fallbacks := map[requested := [r.logicalModel]];
    EdgeFollows(fallbacks, requested, r.logicalModel);
    FollowsReaches(fallbacks, requested, r.logicalModel);
    assert [r][1..] == [];
    assert OfModel([r], requested) == [];
  }

  /** Depth first and in the given order: the first fallback comes before the second, and so does everything below
      it. */
  lemma FirstFallbackFirst(m: Model, a: Model, b: Model, below: Model)
    requires m !in {a, b, below} && a !in {b, below} && b != below
    ensures Preorder(map[m := [a, b], a := [below]], [m], {}) == [m, a, below, b]
  {
    var g: Graph := map[m := [a, b], a := [below]];
    PreorderHead(g, m, [], {});
    assert [m] + [] == [m] && [a, b] + [] == [a] + [b];
    PreorderHead(g, a, [b], {} + {m});
    assert [below] + [b] == [below, b];
    PreorderHead(g, below, [b], {} + {m} + {a});
    assert [] + [b] == [b] + [];
    PreorderHead(g, b, [], {} + {m} + {a} + {below});
  }
}
