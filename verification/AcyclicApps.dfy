// From the dependency graph to the memo table: what acyclic applications, with
// whatever overrides and security scopes, can rely on.
module AcyclicApps {
  import opened Wrappers
  import opened DependencyPlan
  import opened AcyclicGraphs
  import opened YieldDependencies
  import opened Resolver
  import opened Memoisation
  import opened InvocationOrder
  import opened UseAgreement
  import opened MemoExactness

  // The one plan a callable has.
  function PlanOf(g: Graph, c: Callable): seq<Entry> {
    if c in g.schemes then [] else Compiled(g, SignatureOf(g, c), {})
  }

  // An entry as the compiler makes it, for a handler or at route level.
  predicate Compiles(g: Graph, e: Entry) {
    e.Dep? ==> e.securityClass == (e.callable in g.schemes) && e.plan == PlanOf(g, e.callable)
  }

  lemma {:induction false} CompiledCompiles(g: Graph, rank: map<Callable, nat>, params: seq<Param>, bound: nat, seen: set<Callable>)
    requires Ranked(g, rank) && Below(g, rank, params, bound)
    requires forall c <- seen :: c in rank ==> rank[c] >= bound
    ensures forall e <- Compiled(g, params, seen) :: Compiles(g, e)
    decreases |params|
  {
    if params != [] {
      CompiledCompiles(g, rank, params[1..], bound, seen);
      assert params[0] in params;
      if params[0].DepParam? && Expandable(g, params[0].callable) {
        PlansAgreeIfAcyclic(g, rank, params[0].callable, seen + {params[0].callable});
      }
    }
  }

  lemma PlanOfCompiles(g: Graph, c: Callable)
    requires Acyclic(g)
    ensures forall e <- PlanOf(g, c) :: Compiles(g, e)
  {
    if Expandable(g, c) {
      var rank, bound := FindRank(g, g.signatures[c]);
      CompiledCompiles(g, rank, g.signatures[c], bound, {});
    }
  }

  lemma RouteLevelCompiles(g: Graph, name: string, m: Marker)
    requires m.dependency.Some?
    ensures Compiles(g, RouteLevelEntry(g, name, m))
  {
  }

  // A request's plan: route-level dependencies, then the handler's parameters.
  function RequestPlan(g: Graph, routeLevel: seq<Entry>, params: seq<Param>): seq<Entry> {
    routeLevel + Compiled(g, params, {})
  }

  // Entries that markers stand for.
  ghost predicate FromMarkers(g: Graph, routeLevel: seq<Entry>) {
    forall e <- routeLevel :: exists name, m: Marker :: m.dependency.Some? && e == RouteLevelEntry(g, name, m)
  }

  lemma RequestPlanCompiles(g: Graph, routeLevel: seq<Entry>, params: seq<Param>)
    requires Acyclic(g) && FromMarkers(g, routeLevel)
    ensures forall e <- RequestPlan(g, routeLevel, params) :: Compiles(g, e)
  {
    var rank, bound := FindRank(g, params);
    CompiledCompiles(g, rank, params, bound, {});
    forall e <- routeLevel
      ensures Compiles(g, e)
    {
      var name, m: Marker :| m.dependency.Some? && e == RouteLevelEntry(g, name, m);
      RouteLevelCompiles(g, name, m);
    }
  }

  // ---- overrides ----------------------------------------------------------

  // The callables of a forest, before overrides.
  function InPlay(plan: seq<Entry>): set<Callable>
    decreases plan
  {
    if plan == [] then {} else InPlayOf(plan[0]) + InPlay(plan[1..])
  }

  function InPlayOf(e: Entry): set<Callable>
    decreases e
  {
    if e.Dep? then {e.callable} + InPlay(e.plan) else {}
  }

  // Two callables overridden to one have the same plan to lend it.
  predicate OverridesFit(overrides: Overrides, g: Graph, cs: set<Callable>) {
    forall c, d :: c in cs && d in cs && Overridden(overrides, c) == Overridden(overrides, d) ==>
      PlanOf(g, c) == PlanOf(g, d) && (c in g.schemes <==> d in g.schemes)
  }

  predicate Injective(overrides: Overrides, cs: set<Callable>) {
    forall c, d :: c in cs && d in cs && Overridden(overrides, c) == Overridden(overrides, d) ==> c == d
  }

  // An occurrence of `c`, overridden or not.
  predicate IsOf(overrides: Overrides, g: Graph, o: Occurrence, c: Callable) {
    o.c == Overridden(overrides, c) && o.plan == PlanOf(g, c) && o.security == (c in g.schemes)
  }

  // Every occurrence is of a callable in play.
  lemma {:induction false} CallableOf(overrides: Overrides, g: Graph, e: Entry, parent: seq<string>, o: Occurrence)
    returns (c: Callable)
    requires Acyclic(g) && e.Dep? && Compiles(g, e) && o in Occurrences(overrides, e, parent)
    ensures c in InPlayOf(e) && IsOf(overrides, g, o, c)
    decreases e
  {
    c := e.callable;
    if o != OccurrenceOf(overrides, e, parent) {
      PlanOfCompiles(g, c);
      c := CallableIn(overrides, g, e.plan, OwnScopes(e, parent), o);
    }
  }

  lemma {:induction false} CallableIn(overrides: Overrides, g: Graph, plan: seq<Entry>, own: seq<string>, o: Occurrence)
    returns (c: Callable)
    requires Acyclic(g) && (forall e <- plan :: Compiles(g, e)) && o in OccurrencesIn(overrides, plan, own)
    ensures c in InPlay(plan) && IsOf(overrides, g, o, c)
    decreases plan
  {
    assert plan[0] in plan;
    if plan[0].Dep? && o in Occurrences(overrides, plan[0], own) {
      c := CallableOf(overrides, g, plan[0], own, o);
    } else {
      c := CallableIn(overrides, g, plan[1..], own, o);
    }
  }

  lemma {:induction false} CallableOfPlan(overrides: Overrides, g: Graph, plan: seq<Entry>, o: Occurrence)
    returns (c: Callable)
    requires Acyclic(g) && (forall e <- plan :: Compiles(g, e)) && o in OccurrencesOfPlan(overrides, plan)
    ensures c in InPlay(plan) && IsOf(overrides, g, o, c)
    decreases plan
  {
    assert plan[0] in plan;
    if plan[0].Dep? && o in Occurrences(overrides, plan[0], plan[0].scopes) {
      c := CallableOf(overrides, g, plan[0], plan[0].scopes, o);
    } else {
      c := CallableOfPlan(overrides, g, plan[1..], o);
    }
  }

  // And every callable in play has one.
  lemma {:induction false} UseOf(overrides: Overrides, g: Graph, e: Entry, parent: seq<string>, c: Callable)
    returns (o: Occurrence)
    requires Acyclic(g) && e.Dep? && Compiles(g, e) && c in InPlayOf(e)
    ensures o in Occurrences(overrides, e, parent) && IsOf(overrides, g, o, c)
    decreases e
  {
    o := OccurrenceOf(overrides, e, parent);
    if c != e.callable {
      PlanOfCompiles(g, e.callable);
      o := UseIn(overrides, g, e.plan, OwnScopes(e, parent), c);
    }
  }

  lemma {:induction false} UseIn(overrides: Overrides, g: Graph, plan: seq<Entry>, own: seq<string>, c: Callable)
    returns (o: Occurrence)
    requires Acyclic(g) && (forall e <- plan :: Compiles(g, e)) && c in InPlay(plan)
    ensures o in OccurrencesIn(overrides, plan, own) && IsOf(overrides, g, o, c)
    decreases plan
  {
    assert plan[0] in plan;
    if c in InPlayOf(plan[0]) {
      o := UseOf(overrides, g, plan[0], own, c);
    } else {
      o := UseIn(overrides, g, plan[1..], own, c);
    }
  }

  lemma {:induction false} UseInPlan(overrides: Overrides, g: Graph, plan: seq<Entry>, c: Callable)
    returns (o: Occurrence)
    requires Acyclic(g) && (forall e <- plan :: Compiles(g, e)) && c in InPlay(plan)
    ensures o in OccurrencesOfPlan(overrides, plan) && IsOf(overrides, g, o, c)
    decreases plan
  {
    assert plan[0] in plan;
    if c in InPlayOf(plan[0]) {
      o := UseOf(overrides, g, plan[0], plan[0].scopes, c);
    } else {
      o := UseInPlan(overrides, g, plan[1..], c);
    }
  }

  // On an acyclic graph the memo key determines the sub-plan iff the overrides
  // fit; so whenever no two callables in play are overridden to the same one.
  lemma PlansAreSameIff(overrides: Overrides, g: Graph, plan: seq<Entry>)
    requires Acyclic(g) && forall e <- plan :: Compiles(g, e)
    ensures SamePlans(OccurrencesOfPlan(overrides, plan)) <==> OverridesFit(overrides, g, InPlay(plan))
    ensures Injective(overrides, InPlay(plan)) ==> OverridesFit(overrides, g, InPlay(plan))
  {
    var u, cs := OccurrencesOfPlan(overrides, plan), InPlay(plan);
    forall c, d | SamePlans(u) && c in cs && d in cs && Overridden(overrides, c) == Overridden(overrides, d)
      ensures PlanOf(g, c) == PlanOf(g, d) && (c in g.schemes <==> d in g.schemes)
    {
      var o := UseInPlan(overrides, g, plan, c);
      var p := UseInPlan(overrides, g, plan, d);
    }
    forall o, p | OverridesFit(overrides, g, cs) && o in u && p in u && o.c == p.c
      ensures o.plan == p.plan && o.security == p.security
    {
      var c := CallableOfPlan(overrides, g, plan, o);
      var d := CallableOfPlan(overrides, g, plan, p);
    }
  }

  // Two dependencies overridden to one callable lend it different plans: the
  // second use is given the value made with the first one's arguments.
  lemma OverridesCollide(w: World, c: Callable, d: Callable, z: Callable, v: Value, s: State)
    requires Fresh(s) && c != d && w.overrides == map[c := z, d := z]
    requires w.fromRequest(0) == Found(v)
    requires
      var a, b := w.call(z, map["x" := v]), w.call(z, map["y" := v]);
      a.Ok? && b.Ok? && a.value != b.value
    ensures
      var plan := [Dep("a", c, true, [], false, false, [Leaf("x", FromRequest(0))]),
                   Dep("b", d, true, [], false, false, [Leaf("y", FromRequest(0))])];
      var va, vb := w.call(z, map["x" := v]).value, w.call(z, map["y" := v]).value;
      ResolvePlan(w, plan, map[], s).0 == Ok(map["a" := va]["b" := va]) &&
      EvalPlan(w, plan, map[]) == Ok(map["a" := va]["b" := vb]) && !Transparent(w, plan, s)
  {
    var x, y := [Leaf("x", FromRequest(0))], [Leaf("y", FromRequest(0))];
    var a, b := Dep("a", c, true, [], false, false, x), Dep("b", d, true, [], false, false, y);
    var va := w.call(z, map["x" := v]).value;
    assert x[1..] == [] && y[1..] == [] && [a, b][1..] == [b] && [b][1..] == [];
    assert ResolveSubs(w, x, [], map[], s) == (Ok(map["x" := v]), s);
    var (p, t) := ResolveDep(w, a, [], s);
    assert p == Ok(va) && t.cache == map[z := va];
    assert ResolveDep(w, b, [], t) == (Ok(va), t);
    assert ResolvePlan(w, [b], map["a" := va], t).0 == Ok(map["a" := va]["b" := va]);
    assert EvalSubs(w, x, [], map[]) == Ok(map["x" := v]);
    assert EvalSubs(w, y, [], map[]) == Ok(map["y" := v]);
    var vb := w.call(z, map["y" := v]).value;
    assert Eval(w, a, []) == Ok(va) && Eval(w, b, []) == Ok(vb);
    assert EvalPlan(w, [b], map["a" := va]) == Ok(map["a" := va]["b" := vb]);
    assert map["a" := va]["b" := va]["b"] != map["a" := va]["b" := vb]["b"];
  }

  // ---- scopes -------------------------------------------------------------

  // No parameter of a dependency asks for the security scopes.
  predicate GraphReadsNoScopes(g: Graph) {
    forall c <- g.signatures :: NoScopeReaders(g.signatures[c])
  }

  predicate NoScopeReaders(params: seq<Param>) {
    forall p <- params :: !(p.LeafParam? && p.source.SecurityScopes?)
  }

  lemma {:induction false} CompiledReadsNoScopes(g: Graph, params: seq<Param>, seen: set<Callable>)
    requires GraphReadsNoScopes(g) && NoScopeReaders(params)
    ensures !UsesScopes(Compiled(g, params, seen))
    decreases g.signatures.Keys - seen, |params|
  {
    if params != [] {
      assert params[0] in params;
      CompiledReadsNoScopes(g, params[1..], seen);
      assert Compiled(g, params, seen)[1..] == Compiled(g, params[1..], seen);
      if params[0].DepParam? {
        var c := params[0].callable;
        if Expandable(g, c) && c !in seen {
          CompiledReadsNoScopes(g, g.signatures[c], seen + {c});
        }
        assert !UsesScopes(CompiledParam(g, params[0], seen).plan);
      }
      assert !EntryUsesScopes(CompiledParam(g, params[0], seen));
    }
  }

  lemma ScopesAreSame(overrides: Overrides, g: Graph, plan: seq<Entry>)
    requires Acyclic(g) && GraphReadsNoScopes(g) && forall e <- plan :: Compiles(g, e)
    ensures SameScopes(OccurrencesOfPlan(overrides, plan))
  {
    ScopesOnlyIfUsed(overrides, plan);
    forall o <- OccurrencesOfPlan(overrides, plan)
      ensures o.scopes == []
    {
      var c := CallableOfPlan(overrides, g, plan, o);
      if Expandable(g, c) {
        CompiledReadsNoScopes(g, g.signatures[c], {});
      }
    }
  }

  // ---- names --------------------------------------------------------------

  // The parameters of one signature have different names.
  predicate NamesDiffer(params: seq<Param>) {
    forall i, j :: 0 <= i < j < |params| ==> params[i].name != params[j].name
  }

  lemma {:induction false} CompiledNames(g: Graph, params: seq<Param>, seen: set<Callable>)
    ensures forall i :: 0 <= i < |params| ==> Compiled(g, params, seen)[i].name == params[i].name
    decreases |params|
  {
    if params != [] {
      CompiledNames(g, params[1..], seen);
    }
  }

  lemma {:induction false} CompiledWellNamed(g: Graph, params: seq<Param>, seen: set<Callable>)
    requires NamesDiffer(params) && forall c <- g.signatures :: NamesDiffer(g.signatures[c])
    ensures WellNamed(Compiled(g, params, seen))
    decreases g.signatures.Keys - seen, |params|
  {
    if params != [] {
      CompiledNames(g, params, seen);
      CompiledWellNamed(g, params[1..], seen);
      if params[0].DepParam? {
        var c := params[0].callable;
        if Expandable(g, c) && c !in seen {
          CompiledWellNamed(g, g.signatures[c], seen + {c});
        }
      }
    }
  }

  lemma {:induction false} CompiledRootsWellNamed(g: Graph, params: seq<Param>)
    requires forall c <- g.signatures :: NamesDiffer(g.signatures[c])
    ensures RootsWellNamed(Compiled(g, params, {}))
    decreases |params|
  {
    if params != [] {
      CompiledRootsWellNamed(g, params[1..]);
      if params[0].DepParam? && Expandable(g, params[0].callable) {
        var c := params[0].callable;
        CompiledWellNamed(g, g.signatures[c], {} + {c});
      }
    }
  }

  lemma RequestPlanWellNamed(g: Graph, routeLevel: seq<Entry>, params: seq<Param>)
    requires FromMarkers(g, routeLevel) && forall c <- g.signatures :: NamesDiffer(g.signatures[c])
    ensures RootsWellNamed(RequestPlan(g, routeLevel, params))
  {
    CompiledRootsWellNamed(g, params);
    forall e <- routeLevel
      ensures EntryWellNamed(e)
    {
      var name, m: Marker :| m.dependency.Some? && e == RouteLevelEntry(g, name, m);
      CompiledWellNamed(g, SignatureOf(g, m.dependency.value), {});
    }
  }

  // ---- main results -------------------------------------------------------

  // Where no dependency reads the scopes and the overrides fit, every request of
  // an acyclic application resolves as if nothing were memoised, whatever
  // route-level dependencies come first.
  lemma AcyclicAppsMemoiseSafely(w: World, g: Graph, routeLevel: seq<Entry>, params: seq<Param>, s: State)
    requires Acyclic(g) && FromMarkers(g, routeLevel) && Fresh(s) && GraphReadsNoScopes(g)
    requires OverridesFit(w.overrides, g, InPlay(RequestPlan(g, routeLevel, params)))
    ensures
      var plan := RequestPlan(g, routeLevel, params);
      ResolvePlan(w, plan, map[], s).0 == EvalPlan(w, plan, map[]) &&
      (AllCached(plan) && ResolvePlan(w, plan, map[], s).0.Ok? ==>
        ResolvePlan(w, plan, map[], s).1.log == AppendNew([], PostOrderOf(w.overrides, plan)))
  {
    var plan := RequestPlan(g, routeLevel, params);
    RequestPlanCompiles(g, routeLevel, params);
    PlansAreSameIff(w.overrides, g, plan);
    ScopesAreSame(w.overrides, g, plan);
    MemoisationIsTransparent(w, plan, s);
    if AllCached(plan) {
      InvocationsArePostOrder(w, plan, s);
    }
  }

  // Then no callable is below itself either.
  lemma FittingDoNotNest(overrides: Overrides, g: Graph, plan: seq<Entry>)
    requires Acyclic(g) && (forall e <- plan :: Compiles(g, e)) && OverridesFit(overrides, g, InPlay(plan))
    ensures NotNested(overrides, plan)
  {
    PlansAreSameIff(overrides, g, plan);
    SamePlansDoNotNestInPlan(overrides, OccurrencesOfPlan(overrides, plan), plan);
  }

  // For every graph, cyclic or not, and all overrides under which no callable
  // is below itself: requests with every entry cached resolve as if nothing were
  // memoised, whatever the callables do, iff the uses of each callable agree.
  lemma RequestsMemoiseSafelyIff(overrides: Overrides, g: Graph, routeLevel: seq<Entry>, params: seq<Param>, s: State)
    requires FromMarkers(g, routeLevel) && Fresh(s)
    requires forall c <- g.signatures :: NamesDiffer(g.signatures[c])
    requires
      var plan := RequestPlan(g, routeLevel, params);
      AllCached(plan) && NotNested(overrides, plan)
    ensures
      var plan := RequestPlan(g, routeLevel, params);
      (forall w: World :: w.overrides == overrides ==> Transparent(w, plan, s)) <==> UsesOfPlanAgree(overrides, plan)
  {
    RequestPlanWellNamed(g, routeLevel, params);
    MemoisationIsTransparentIff(overrides, RequestPlan(g, routeLevel, params), s);
  }
}
