// The fallback graph: paths, cycles, and the depth-first walk `visit` performs on it.

module FallbackGraph {
  import opened Domain

  type Graph = map<Model, seq<Model>>

  function Next(g: Graph, m: Model): seq<Model> {
    if m in g then g[m] else []
  }

  // ---------- Paths ----------

  ghost predicate Path(g: Graph, p: seq<Model>, a: Model, b: Model) {
    && |p| > 0 && p[0] == a && p[|p| - 1] == b
    && forall i :: 0 <= i < |p| - 1 ==> p[i + 1] in Next(g, p[i])
  }

  /** `b` is `a` itself or a fallback of it, at any depth. */
  ghost predicate Reaches(g: Graph, a: Model, b: Model) {
    exists p :: Path(g, p, a, b)
  }

  /** `b` is reached from `a` over at least one fallback edge. */
  ghost predicate Follows(g: Graph, a: Model, b: Model) {
    exists p :: Path(g, p, a, b) && |p| > 1
  }

  ghost predicate OnCycle(g: Graph, m: Model) {
    Follows(g, m, m)
  }

  ghost predicate CycleReachable(g: Graph, m: Model) {
    exists c :: Reaches(g, m, c) && OnCycle(g, c)
  }

  lemma ReachesSelf(g: Graph, a: Model)
    ensures Reaches(g, a, a)
  {
    assert Path(g, [a], a, a);
  }

  lemma EdgeFollows(g: Graph, a: Model, b: Model)
    requires b in Next(g, a)
    ensures Follows(g, a, b)
  {
    assert Path(g, [a, b], a, b);
  }

  lemma JoinPaths(g: Graph, p: seq<Model>, q: seq<Model>, a: Model, b: Model, c: Model)
    requires Path(g, p, a, b) && Path(g, q, b, c)
    ensures Path(g, p + q[1..], a, c)
  {
    var r := p + q[1..];
    forall i | 0 <= i < |r| - 1
      ensures r[i + 1] in Next(g, r[i])
    {
      if i < |p| - 1 {
        assert r[i] == p[i] && r[i + 1] == p[i + 1];
      } else {
        assert r[i] == q[i - (|p| - 1)] && r[i + 1] == q[i - (|p| - 1) + 1];
      }
    }
  }

  lemma ReachesThenFollows(g: Graph, a: Model, b: Model, c: Model)
    requires Reaches(g, a, b) && Follows(g, b, c)
    ensures Follows(g, a, c) && Reaches(g, a, c)
  {
    var p :| Path(g, p, a, b);
    var q :| Path(g, q, b, c) && |q| > 1;
    JoinPaths(g, p, q, a, b, c);
  }

  lemma FollowsReaches(g: Graph, a: Model, b: Model)
    requires Follows(g, a, b)
    ensures Reaches(g, a, b)
  {
  }

  ghost predicate Closed(g: Graph, s: set<Model>) {
    forall m :: m in s ==> forall n :: n in Next(g, m) ==> n in s
  }

  /** A path cannot leave a set closed under fallbacks. */
  lemma {:induction false} ClosedContains(g: Graph, s: set<Model>, p: seq<Model>, a: Model, b: Model)
    requires Closed(g, s) && a in s && Path(g, p, a, b)
    ensures b in s
    decreases |p|
  {
    if |p| > 1 {
      assert p[0 + 1] in Next(g, p[0]);
      var q := p[1..];
      forall i | 0 <= i < |q| - 1
        ensures q[i + 1] in Next(g, q[i])
      {
        assert p[(i + 1) + 1] in Next(g, p[i + 1]);
      }
      ClosedContains(g, s, q, p[1], b);
    }
  }

  // ---------- The depth-first walk ----------

  /** What `visit` leaves behind: the visited set and the models newly output, or the cycle it met. */
  datatype Walk = Walked(visited: set<Model>, order: seq<Model>) | CycleAt(model: Model)

  lemma FewerLeft(g: Graph, visited: set<Model>, more: set<Model>)
    requires visited <= more
    ensures |g.Keys - more| <= |g.Keys - visited|
    ensures (exists m :: m in g && m in more && m !in visited) ==> |g.Keys - more| < |g.Keys - visited|
  {
    var small, large := g.Keys - more, g.Keys - visited;
    assert large == small + (large - small);
    if m :| m in g && m in more && m !in visited {
      assert m in large - small;
    }
  }

  function Visit(g: Graph, m: Model, visiting: set<Model>, visited: set<Model>): (w: Walk)
    ensures w.Walked? ==> visited <= w.visited
    decreases |g.Keys - visited|, 0
  {
    if m in visiting then
      CycleAt(m)
    else if m in visited then
      Walked(visited, [])
    else if m in g then
      FewerLeft(g, visited, visited + {m});
      Before([m], VisitAll(g, g[m], visiting + {m}, visited + {m}))
    else
      Walked(visited + {m}, [m])
  }

  function VisitAll(g: Graph, ms: seq<Model>, visiting: set<Model>, visited: set<Model>): (w: Walk)
    ensures w.Walked? ==> visited <= w.visited
    decreases |g.Keys - visited|, |ms|
  {
    if ms == [] then
      Walked(visited, [])
    else
      var first := Visit(g, ms[0], visiting, visited);
      if first.CycleAt? then
        first
      else
        FewerLeft(g, visited, first.visited);
        Before(first.order, VisitAll(g, ms[1..], visiting, first.visited))
  }

  function Before(order: seq<Model>, w: Walk): Walk {
    if w.CycleAt? then w else w.(order := order + w.order)
  }

  // ---------- What the walk means ----------

  /** First-visit depth-first order by an explicit work list: no `visiting` set and no cycle check. */
  function Preorder(g: Graph, todo: seq<Model>, seen: set<Model>): seq<Model>
    decreases |g.Keys - seen|, |todo|
  {
    if todo == [] then
      []
    else if todo[0] in seen then
      Preorder(g, todo[1..], seen)
    else
      FewerLeft(g, seen, seen + {todo[0]});
      [todo[0]] + Preorder(g, Next(g, todo[0]) + todo[1..], seen + {todo[0]})
  }

  lemma PreorderHead(g: Graph, m: Model, rest: seq<Model>, seen: set<Model>)
    ensures Preorder(g, [m] + rest, seen) ==
            if m in seen then Preorder(g, rest, seen) else [m] + Preorder(g, Next(g, m) + rest, seen + {m})
  {
    assert ([m] + rest)[1..] == rest;
  }

  lemma {:induction false} VisitIsPreorder(
      g: Graph, m: Model, visiting: set<Model>, visited: set<Model>, rest: seq<Model>)
    requires Visit(g, m, visiting, visited).Walked?
    ensures var w := Visit(g, m, visiting, visited);
            Preorder(g, [m] + rest, visited) == w.order + Preorder(g, rest, w.visited)
    decreases |g.Keys - visited|, 0
  {
    PreorderHead(g, m, rest, visited);
    if m !in visited {
      if m in g {
        FewerLeft(g, visited, visited + {m});
        VisitAllIsPreorder(g, g[m], visiting + {m}, visited + {m}, rest);
        var w := VisitAll(g, g[m], visiting + {m}, visited + {m});
        Regroup([m], w.order, Preorder(g, rest, w.visited));
      } else {
        assert Next(g, m) + rest == rest;
      }
    }
  }

  lemma {:induction false} VisitAllIsPreorder(
      g: Graph, ms: seq<Model>, visiting: set<Model>, visited: set<Model>, rest: seq<Model>)
    requires VisitAll(g, ms, visiting, visited).Walked?
    ensures var w := VisitAll(g, ms, visiting, visited);
            Preorder(g, ms + rest, visited) == w.order + Preorder(g, rest, w.visited)
    decreases |g.Keys - visited|, |ms|
  {
    if ms == [] {
      assert ms + rest == rest;
    } else {
      var first := Visit(g, ms[0], visiting, visited);
      var more := VisitAll(g, ms[1..], visiting, first.visited);
      var tail := ms[1..] + rest;
      calc {
        Preorder(g, ms + rest, visited);
        { HeadFirst(ms, rest); }
        Preorder(g, [ms[0]] + tail, visited);
        { VisitIsPreorder(g, ms[0], visiting, visited, tail); }
        first.order + Preorder(g, tail, first.visited);
        { FewerLeft(g, visited, first.visited); VisitAllIsPreorder(g, ms[1..], visiting, first.visited, rest); }
        first.order + (more.order + Preorder(g, rest, more.visited));
        { Regroup(first.order, more.order, Preorder(g, rest, more.visited)); }
        (first.order + more.order) + Preorder(g, rest, more.visited);
      }
    }
  }

  lemma HeadFirst<T>(s: seq<T>, rest: seq<T>)
    requires s != []
    ensures s + rest == [s[0]] + (s[1..] + rest)
  {
  }

  lemma Regroup<T>(a: seq<T>, b: seq<T>, c: seq<T>)
    ensures a + (b + c) == (a + b) + c
  {
  }

  /** Finished models: their fallbacks are finished too, none is still on the stack, none lies on a cycle. */
  ghost predicate Finished(g: Graph, done: set<Model>) {
    Closed(g, done) && forall m :: m in done ==> !OnCycle(g, m)
  }

  /** The walk's bookkeeping: what it outputs is new, and each model is output once. */
  ghost predicate Fresh(visited: set<Model>, w: Walk) {
    w.Walked? ==>
      && w.visited == visited + (set m | m in w.order)
      && (forall m :: m in w.order ==> m !in visited)
      && (forall i, j :: 0 <= i < j < |w.order| ==> w.order[i] != w.order[j])
  }

  lemma FreshBefore(visited: set<Model>, order: seq<Model>, middle: set<Model>, w: Walk)
    requires w.Walked? && Fresh(visited, Walked(middle, order)) && Fresh(middle, w)
    ensures Fresh(visited, Before(order, w))
  {
    var all := order + w.order;
    forall i, j | 0 <= i < j < |all|
      ensures all[i] != all[j]
    {
      if i < |order| <= j {
        assert all[i] in order && all[j] in w.order;
      }
    }
    assert (set m | m in all) == (set m | m in order) + (set m | m in w.order);
  }

  lemma FreshOne(m: Model, visited: set<Model>)
    requires m !in visited
    ensures Fresh(visited, Walked(visited + {m}, [m]))
  {
    assert (set n | n in [m]) == {m};
  }

  lemma {:induction false} VisitFresh(g: Graph, m: Model, visiting: set<Model>, visited: set<Model>)
    requires visiting <= visited
    ensures Fresh(visited, Visit(g, m, visiting, visited))
    decreases |g.Keys - visited|, 0
  {
    if m !in visited {
      FreshOne(m, visited);
    }
    if m !in visited && m in g {
      FewerLeft(g, visited, visited + {m});
      VisitAllFresh(g, g[m], visiting + {m}, visited + {m});
      var w := VisitAll(g, g[m], visiting + {m}, visited + {m});
      if w.Walked? {
        FreshBefore(visited, [m], visited + {m}, w);
      }
    }
  }

  lemma {:induction false} VisitAllFresh(g: Graph, ms: seq<Model>, visiting: set<Model>, visited: set<Model>)
    requires visiting <= visited
    ensures Fresh(visited, VisitAll(g, ms, visiting, visited))
    decreases |g.Keys - visited|, |ms|
  {
    if ms != [] {
      VisitFresh(g, ms[0], visiting, visited);
      var first := Visit(g, ms[0], visiting, visited);
      if first.Walked? {
        FewerLeft(g, visited, first.visited);
        VisitAllFresh(g, ms[1..], visiting, first.visited);
        var rest := VisitAll(g, ms[1..], visiting, first.visited);
        if rest.Walked? {
          FreshBefore(visited, first.order, first.visited, rest);
        }
      }
    }
  }

  /** A successful visit finishes `m` and everything it outputs, so none of it lies on a cycle. */
  lemma {:induction false} VisitFinishes(g: Graph, m: Model, visiting: set<Model>, visited: set<Model>)
    requires visiting <= visited && Finished(g, visited - visiting)
    requires Visit(g, m, visiting, visited).Walked?
    ensures Finished(g, Visit(g, m, visiting, visited).visited - visiting)
    ensures m in Visit(g, m, visiting, visited).visited - visiting
    decreases |g.Keys - visited|, 0
  {
    if m !in visited {
      if m in g {
        FewerLeft(g, visited, visited + {m});
        SameWithout(visited, visiting, m);
        VisitAllFinishes(g, g[m], visiting + {m}, visited + {m});
        var w := VisitAll(g, g[m], visiting + {m}, visited + {m});
        FinishOne(g, m, w.visited - (visiting + {m}));
        SameWith(w.visited, visiting, m);
      } else {
        FinishOne(g, m, visited - visiting);
        assert (visited + {m}) - visiting == (visited - visiting) + {m};
      }
    }
  }

  lemma SameWithout(visited: set<Model>, visiting: set<Model>, m: Model)
    requires m !in visited
    ensures (visited + {m}) - (visiting + {m}) == visited - visiting
  {
  }

  lemma SameWith(visited: set<Model>, visiting: set<Model>, m: Model)
    requires m in visited && m !in visiting
    ensures (visited - (visiting + {m})) + {m} == visited - visiting
  {
  }

  lemma FinishOne(g: Graph, m: Model, inner: set<Model>)
    requires Finished(g, inner) && m !in inner
    requires forall n :: n in Next(g, m) ==> n in inner
    ensures Finished(g, inner + {m})
  {
    if p :| Path(g, p, m, m) && |p| > 1 {
      assert p[0 + 1] in Next(g, p[0]);
      var q := p[1..];
      forall i | 0 <= i < |q| - 1
        ensures q[i + 1] in Next(g, q[i])
      {
        assert p[(i + 1) + 1] in Next(g, p[i + 1]);
      }
      ClosedContains(g, inner, q, p[1], m);
    }
  }

  lemma {:induction false} VisitAllFinishes(g: Graph, ms: seq<Model>, visiting: set<Model>, visited: set<Model>)
    requires visiting <= visited && Finished(g, visited - visiting)
    requires VisitAll(g, ms, visiting, visited).Walked?
    ensures var w := VisitAll(g, ms, visiting, visited);
            Finished(g, w.visited - visiting) && forall n :: n in ms ==> n in w.visited - visiting
    decreases |g.Keys - visited|, |ms|
  {
    if ms != [] {
      var first := Visit(g, ms[0], visiting, visited);
      VisitFinishes(g, ms[0], visiting, visited);
      FewerLeft(g, visited, first.visited);
      VisitAllFinishes(g, ms[1..], visiting, first.visited);
      var w := VisitAll(g, ms, visiting, visited);
      forall n | n in ms
        ensures n in w.visited - visiting
      {
        if n != ms[0] {
          assert n in ms[1..];
        }
      }
    }
  }

  /** Whatever the walk outputs, and the cycle it reports, is reached from `root`. */
  ghost predicate FoundFrom(g: Graph, root: Model, w: Walk) {
    match w
    case Walked(_, order) => forall n :: n in order ==> Reaches(g, root, n)
    case CycleAt(c) => Reaches(g, root, c) && OnCycle(g, c)
  }

  lemma {:induction false} VisitFinds(g: Graph, root: Model, m: Model, visiting: set<Model>, visited: set<Model>)
    requires Reaches(g, root, m)
    requires forall v :: v in visiting ==> Follows(g, v, m)
    ensures FoundFrom(g, root, Visit(g, m, visiting, visited))
    decreases |g.Keys - visited|, 0
  {
    if m !in visiting && m !in visited && m in g {
      FewerLeft(g, visited, visited + {m});
      forall v, n | v in visiting + {m} && n in g[m]
        ensures Follows(g, v, n)
      {
        EdgeFollows(g, m, n);
        if v != m {
          FollowsReaches(g, v, m);
          ReachesThenFollows(g, v, m, n);
        }
      }
      VisitAllFinds(g, root, m, g[m], visiting + {m}, visited + {m});
    }
  }

  lemma {:induction false} VisitAllFinds(
      g: Graph, root: Model, m: Model, ms: seq<Model>, visiting: set<Model>, visited: set<Model>)
    requires Reaches(g, root, m) && forall n :: n in ms ==> n in Next(g, m)
    requires forall v, n :: v in visiting && n in ms ==> Follows(g, v, n)
    ensures FoundFrom(g, root, VisitAll(g, ms, visiting, visited))
    decreases |g.Keys - visited|, |ms|
  {
    if ms != [] {
      EdgeFollows(g, m, ms[0]);
      ReachesThenFollows(g, root, m, ms[0]);
      VisitFinds(g, root, ms[0], visiting, visited);
      var first := Visit(g, ms[0], visiting, visited);
      if first.Walked? {
        FewerLeft(g, visited, first.visited);
        VisitAllFinds(g, root, m, ms[1..], visiting, first.visited);
      }
    }
  }

  /** The walk from a fresh start, for every graph: it reports a cycle exactly when one is reachable, the
      reported model lies on it, and otherwise it outputs exactly the reachable models, once each, in
      depth-first order. */
  lemma WalkTheorem(g: Graph, m: Model)
    ensures var w := Visit(g, m, {}, {});
            && (w.CycleAt? <==> CycleReachable(g, m))
            && (w.CycleAt? ==> Reaches(g, m, w.model) && OnCycle(g, w.model))
            && (w.Walked? ==>
                  && w.order == Preorder(g, [m], {})
                  && (forall n :: n in w.order <==> Reaches(g, m, n))
                  && (forall i, j :: 0 <= i < j < |w.order| ==> w.order[i] != w.order[j]))
  {
    var w := Visit(g, m, {}, {});
    ReachesSelf(g, m);
    VisitFinds(g, m, m, {}, {});
    if w.Walked? {
      VisitIsPreorder(g, m, {}, {}, []);
      assert [m] + [] == [m] && Preorder(g, [], w.visited) == [];
      VisitFresh(g, m, {}, {});
      VisitFinishes(g, m, {}, {});
      assert w.visited - {} == w.visited;
      forall n | Reaches(g, m, n)
        ensures n in w.order && !OnCycle(g, n)
      {
        var p :| Path(g, p, m, n);
        ClosedContains(g, w.visited, p, m, n);
      }
    }
  }
}
