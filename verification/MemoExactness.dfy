// The other half: where two uses of one callable bind their parameters
// differently, some world tells the memo table from plain evaluation.
module MemoExactness {
  import opened Wrappers
  import opened DependencyPlan
  import opened YieldDependencies
  import opened Resolver
  import opened Memoisation
  import opened InvocationOrder
  import opened UseAgreement

  // ---- worlds of marks ----------------------------------------------------

  // Every callable gives its own mark, every request value too.
  function Mark(b: Binding): Value {
    match b
    case ToSpec(spec) => Object(2 * spec + 1)
    case ToScopes(scopes) => ScopesValue(scopes)
    case ToCallable(c) => Object(2 * c)
  }

  function Marked(bindings: map<string, Binding>): Kwargs {
    map name | name in bindings :: Mark(bindings[name])
  }

  lemma MarksDiffer(a: map<string, Binding>, b: map<string, Binding>)
    requires Marked(a) == Marked(b)
    ensures a == b
  {
    assert a.Keys == Marked(a).Keys && b.Keys == Marked(b).Keys;
    forall name <- a
      ensures a[name] == b[name]
    {
      assert Marked(a)[name] == Marked(b)[name];
    }
  }

  // And `d` refuses one demand.
  function Refusing(overrides: Overrides, d: Callable, x: Demand): World {
    World(
      overrides,
      (spec: nat) => Found(Object(2 * spec + 1)),
      (c: Callable, kwargs) => if c == d && x.With? && kwargs == Marked(x.bindings) then Err(0) else Ok(Object(2 * c)),
      (c, kwargs, id) => NotAGenerator,
      (c: Callable) => if c == d && x.AsScheme? then Err(0) else Ok(Object(2 * c)),
      false)
  }

  // ---- plain evaluation meets the refusal ---------------------------------

  lemma MarkedMerge(kwargs: Kwargs, name: string, b: Binding, rest: map<string, Binding>)
    ensures kwargs[name := Mark(b)] + Marked(rest) == kwargs + Marked(map[name := b] + rest)
  {
  }

  // The kwargs after an entry that does not fail.
  function After(overrides: Overrides, e: Entry, own: seq<string>, kwargs: Kwargs): Kwargs {
    var b := BindingOf(overrides, e, own);
    if b.Some? then kwargs[e.name := Mark(b.value)] else kwargs
  }

  lemma EntryMarks(overrides: Overrides, d: Callable, x: Demand, subs: seq<Entry>, own: seq<string>, kwargs: Kwargs)
    requires subs != []
    ensures
      var w, more := Refusing(overrides, d, x), After(overrides, subs[0], own, kwargs);
      EvalSubs(w, subs, own, kwargs).Ok? ==> EvalSubs(w, subs, own, kwargs) == EvalSubs(w, subs[1..], own, more)
  {
  }

  lemma {:induction false} EvalSubsMarks(overrides: Overrides, d: Callable, x: Demand, subs: seq<Entry>, own: seq<string>, kwargs: Kwargs)
    ensures
      var r := EvalSubs(Refusing(overrides, d, x), subs, own, kwargs);
      r.Ok? ==> r.value == kwargs + Marked(Bindings(overrides, subs, own))
    decreases |subs|
  {
    if subs == [] {
      assert kwargs + Marked(map[]) == kwargs;
    } else {
      var b, rest := BindingOf(overrides, subs[0], own), Bindings(overrides, subs[1..], own);
      EntryMarks(overrides, d, x, subs, own, kwargs);
      EvalSubsMarks(overrides, d, x, subs[1..], own, After(overrides, subs[0], own, kwargs));
      if b.Some? {
        MarkedMerge(kwargs, subs[0].name, b.value, rest);
      } else {
        assert map[] + rest == rest;
      }
    }
  }

  lemma {:induction false} EvalRefused(overrides: Overrides, u: Use, e: Entry, parent: seq<string>)
    requires e.Dep? && u in Uses(e, parent) && u.entry.Dep?
    ensures Eval(Refusing(overrides, Callee(overrides, u), DemandOf(overrides, u)), e, parent).Err?
    decreases e
  {
    var d, x, own := Callee(overrides, u), DemandOf(overrides, u), OwnScopes(e, parent);
    if u != Use(e, own) {
      EvalSubsRefused(overrides, u, e.plan, own, map[]);
    } else if !e.securityClass {
      EvalSubsMarks(overrides, d, x, e.plan, own, map[]);
      assert map[] + Marked(x.bindings) == Marked(x.bindings);
    }
  }

  lemma {:induction false} EvalSubsRefused(overrides: Overrides, u: Use, subs: seq<Entry>, own: seq<string>, kwargs: Kwargs)
    requires u in UsesIn(subs, own) && u.entry.Dep?
    ensures EvalSubs(Refusing(overrides, Callee(overrides, u), DemandOf(overrides, u)), subs, own, kwargs).Err?
    decreases subs
  {
    var w := Refusing(overrides, Callee(overrides, u), DemandOf(overrides, u));
    if subs[0].Dep? && u in Uses(subs[0], own) {
      EvalRefused(overrides, u, subs[0], own);
    } else {
      match subs[0]
      case Leaf(name, source) =>
        match LeafBinding(w, source, own) {
          case Bad(_) =>
          case UseDefault => EvalSubsRefused(overrides, u, subs[1..], own, kwargs);
          case Found(v) => EvalSubsRefused(overrides, u, subs[1..], own, kwargs[name := v]);
        }
      case Dep(name, _, _, _, _, _, _) =>
        match Eval(w, subs[0], own) {
          case Err(_) =>
          case Ok(v) => EvalSubsRefused(overrides, u, subs[1..], own, kwargs[name := v]);
        }
    }
  }

  lemma {:induction false} EvalPlanRefused(overrides: Overrides, u: Use, plan: seq<Entry>, out: Kwargs)
    requires u in UsesOfPlan(plan) && u.entry.Dep?
    ensures EvalPlan(Refusing(overrides, Callee(overrides, u), DemandOf(overrides, u)), plan, out).Err?
    decreases plan
  {
    var w := Refusing(overrides, Callee(overrides, u), DemandOf(overrides, u));
    if plan[0].Dep? && u in Uses(plan[0], plan[0].scopes) {
      EvalRefused(overrides, u, plan[0], plan[0].scopes);
    } else {
      match plan[0]
      case Leaf(name, source) =>
        EvalPlanRefused(overrides, u, plan[1..], if source.BackgroundTasks? then out[name := TasksValue] else out);
      case Dep(name, _, _, scopes, _, isInternal, _) =>
        match Eval(w, plan[0], scopes) {
          case Err(_) =>
          case Ok(v) => EvalPlanRefused(overrides, u, plan[1..], if isInternal then out else out[name := v]);
        }
    }
  }

  // ---- the memoising resolver in two such worlds --------------------------

  // No callable is below itself.
  predicate NotNested(overrides: Overrides, subs: seq<Entry>)
    decreases subs
  {
    subs == [] || (EntryNotNested(overrides, subs[0]) && NotNested(overrides, subs[1..]))
  }

  predicate EntryNotNested(overrides: Overrides, e: Entry)
    decreases e
  {
    e.Dep? && !e.securityClass ==>
      Overridden(overrides, e.callable) !in PostOrderOf(overrides, e.plan) && NotNested(overrides, e.plan)
  }

  // A leaf leaves its mark, in every such world.
  lemma LeafMarks(overrides: Overrides, d: Callable, x: Demand, subs: seq<Entry>, own: seq<string>, kwargs: Kwargs, s: State)
    requires subs != [] && subs[0].Leaf?
    ensures
      var w := Refusing(overrides, d, x);
      ResolveSubs(w, subs, own, kwargs, s) == ResolveSubs(w, subs[1..], own, After(overrides, subs[0], own, kwargs), s)
  {
  }

  // Once `d` is cached it is not called again, and nothing else fails.
  lemma {:induction false} CachedSurvives(overrides: Overrides, d: Callable, x: Demand, e: Entry, parent: seq<string>, s: State)
    requires e.Dep? && EntryCached(e) && d in s.cache
    ensures
      var (r, t) := ResolveDep(Refusing(overrides, d, x), e, parent, s);
      r.Ok? && d in t.cache
    decreases e
  {
    if Overridden(overrides, e.callable) !in s.cache && !e.securityClass {
      CachedSurvivesIn(overrides, d, x, e.plan, OwnScopes(e, parent), map[], s);
    }
  }

  lemma {:induction false} CachedSurvivesIn(overrides: Overrides, d: Callable, x: Demand,
                                            subs: seq<Entry>, own: seq<string>, kwargs: Kwargs, s: State)
    requires AllCached(subs) && d in s.cache
    ensures
      var (r, t) := ResolveSubs(Refusing(overrides, d, x), subs, own, kwargs, s);
      r.Ok? && d in t.cache
    decreases subs
  {
    if subs != [] {
      var w := Refusing(overrides, d, x);
      match subs[0]
      case Leaf(name, source) =>
        LeafMarks(overrides, d, x, subs, own, kwargs, s);
        CachedSurvivesIn(overrides, d, x, subs[1..], own, After(overrides, subs[0], own, kwargs), s);
      case Dep(name, _, _, _, _, _, _) =>
        CachedSurvives(overrides, d, x, subs[0], own, s);
        var (r, t) := ResolveDep(w, subs[0], own, s);
        CachedSurvivesIn(overrides, d, x, subs[1..], own, kwargs[name := r.value], t);
    }
  }

  lemma {:induction false} CachedSurvivesPlan(overrides: Overrides, d: Callable, x: Demand, plan: seq<Entry>, out: Kwargs, s: State)
    requires AllCached(plan) && d in s.cache
    ensures ResolvePlan(Refusing(overrides, d, x), plan, out, s).0.Ok?
    decreases plan
  {
    if plan != [] {
      match plan[0]
      case Leaf(name, source) =>
        CachedSurvivesPlan(overrides, d, x, plan[1..],
                           if source.BackgroundTasks? then out[name := TasksValue] else out,
                           if source.BackgroundTasks? then s.(tasks := true) else s);
      case Dep(name, _, _, scopes, _, isInternal, _) =>
        CachedSurvives(overrides, d, x, plan[0], scopes, s);
        var (r, t) := ResolveDep(Refusing(overrides, d, x), plan[0], scopes, s);
        CachedSurvivesPlan(overrides, d, x, plan[1..], if isInternal then out else out[name := r.value], t);
    }
  }

  // The same success in both worlds, with `d` not called yet.
  predicate Same<T(==)>(d: Callable, a: (Result<T, Failure>, State), b: (Result<T, Failure>, State)) {
    a.0.Ok? && a == b && d !in a.1.cache
  }

  // Or else a success in one of them, with `d` cached.
  predicate OneSurvives<T(==)>(d: Callable, a: (Result<T, Failure>, State), b: (Result<T, Failure>, State)) {
    Same(d, a, b) || (a.0.Ok? && d in a.1.cache) || (b.0.Ok? && d in b.1.cache)
  }

  // No call of `d` is refused in both worlds.
  lemma OneAccepts(overrides: Overrides, d: Callable, x: Demand, y: Demand, kwargs: Kwargs)
    requires x != y
    ensures Refusing(overrides, d, x).call(d, kwargs).Ok? || Refusing(overrides, d, y).call(d, kwargs).Ok?
  {
    if x.With? && y.With? && Marked(x.bindings) == Marked(y.bindings) {
      MarksDiffer(x.bindings, y.bindings);
    }
  }

  // The call after a sub-plan with these two outcomes.
  lemma TwoCalls(overrides: Overrides, d: Callable, x: Demand, y: Demand, c: Callable,
                 a: (Result<Kwargs, Failure>, State), b: (Result<Kwargs, Failure>, State), e: Entry)
    requires x != y && OneSurvives(d, a, b) && (c == d ==> Same(d, a, b)) && e.Dep? && e.useCache
    ensures
      var p := if a.0.Ok? then CallAndStore(Refusing(overrides, d, x), e, c, a.0.value, a.1) else (Err(a.0.error), a.1);
      var q := if b.0.Ok? then CallAndStore(Refusing(overrides, d, y), e, c, b.0.value, b.1) else (Err(b.0.error), b.1);
      OneSurvives(d, p, q) && (c != d && Same(d, a, b) ==> Same(d, p, q))
  {
    if c == d {
      OneAccepts(overrides, d, x, y, a.0.value);
    }
  }

  function CallAndStore(w: World, e: Entry, c: Callable, kwargs: Kwargs, s: State): (Result<Value, Failure>, State)
    requires e.Dep?
  {
    var (v, t) := Called(w, c, kwargs, s);
    Remember(e, c, v, t)
  }

  lemma {:induction false} TwoRuns(overrides: Overrides, d: Callable, x: Demand, y: Demand, e: Entry, parent: seq<string>, s: State)
    requires x != y && e.Dep? && EntryCached(e) && EntryNotNested(overrides, e) && d !in s.cache
    ensures
      var a := ResolveDep(Refusing(overrides, d, x), e, parent, s);
      var b := ResolveDep(Refusing(overrides, d, y), e, parent, s);
      OneSurvives(d, a, b) && (d !in PostOrder(overrides, e) ==> Same(d, a, b))
    decreases e
  {
    var c, own := Overridden(overrides, e.callable), OwnScopes(e, parent);
    if c !in s.cache && !e.securityClass {
      TwoRunsIn(overrides, d, x, y, e.plan, own, map[], s);
      TwoCalls(overrides, d, x, y, c, ResolveSubs(Refusing(overrides, d, x), e.plan, own, map[], s),
               ResolveSubs(Refusing(overrides, d, y), e.plan, own, map[], s), e);
    }
  }

  lemma {:induction false} TwoRunsIn(overrides: Overrides, d: Callable, x: Demand, y: Demand,
                                     subs: seq<Entry>, own: seq<string>, kwargs: Kwargs, s: State)
    requires x != y && AllCached(subs) && NotNested(overrides, subs) && d !in s.cache
    ensures
      var a := ResolveSubs(Refusing(overrides, d, x), subs, own, kwargs, s);
      var b := ResolveSubs(Refusing(overrides, d, y), subs, own, kwargs, s);
      OneSurvives(d, a, b) && (d !in PostOrderOf(overrides, subs) ==> Same(d, a, b))
    decreases subs
  {
    if subs != [] {
      match subs[0]
      case Leaf(name, source) =>
        LeafMarks(overrides, d, x, subs, own, kwargs, s);
        LeafMarks(overrides, d, y, subs, own, kwargs, s);
        TwoRunsIn(overrides, d, x, y, subs[1..], own, After(overrides, subs[0], own, kwargs), s);
      case Dep(name, _, _, _, _, _, _) =>
        TwoRuns(overrides, d, x, y, subs[0], own, s);
        var (p, t) := ResolveDep(Refusing(overrides, d, x), subs[0], own, s);
        var (q, v) := ResolveDep(Refusing(overrides, d, y), subs[0], own, s);
        if Same(d, (p, t), (q, v)) {
          TwoRunsIn(overrides, d, x, y, subs[1..], own, kwargs[name := p.value], t);
        } else if p.Ok? && d in t.cache {
          CachedSurvivesIn(overrides, d, x, subs[1..], own, kwargs[name := p.value], t);
        } else {
          CachedSurvivesIn(overrides, d, y, subs[1..], own, kwargs[name := q.value], v);
        }
    }
  }

  // In one of the two worlds the resolver succeeds.
  lemma {:induction false} TwoRunsOfPlan(overrides: Overrides, d: Callable, x: Demand, y: Demand, plan: seq<Entry>, out: Kwargs, s: State)
    requires x != y && AllCached(plan) && NotNested(overrides, plan) && d !in s.cache
    ensures
      ResolvePlan(Refusing(overrides, d, x), plan, out, s).0.Ok? ||
      ResolvePlan(Refusing(overrides, d, y), plan, out, s).0.Ok?
    decreases plan
  {
    if plan != [] {
      match plan[0]
      case Leaf(name, source) =>
        TwoRunsOfPlan(overrides, d, x, y, plan[1..],
                      if source.BackgroundTasks? then out[name := TasksValue] else out,
                      if source.BackgroundTasks? then s.(tasks := true) else s);
      case Dep(name, _, _, scopes, _, isInternal, _) =>
        TwoRuns(overrides, d, x, y, plan[0], scopes, s);
        var (p, t) := ResolveDep(Refusing(overrides, d, x), plan[0], scopes, s);
        var (q, v) := ResolveDep(Refusing(overrides, d, y), plan[0], scopes, s);
        if Same(d, (p, t), (q, v)) {
          TwoRunsOfPlan(overrides, d, x, y, plan[1..], if isInternal then out else out[name := p.value], t);
        } else if p.Ok? && d in t.cache {
          CachedSurvivesPlan(overrides, d, x, plan[1..], if isInternal then out else out[name := p.value], t);
        } else {
          CachedSurvivesPlan(overrides, d, y, plan[1..], if isInternal then out else out[name := q.value], v);
        }
    }
  }

  // ---- when nothing is nested ---------------------------------------------

  // Where the callable determines its sub-plan, no callable is below itself.
  lemma {:induction false} SamePlansDoNotNest(overrides: Overrides, u: set<Occurrence>, e: Entry, parent: seq<string>)
    requires e.Dep? && Occurrences(overrides, e, parent) <= u && SamePlans(u)
    ensures EntryNotNested(overrides, e)
    decreases e
  {
    if !e.securityClass {
      NotBelowItself(overrides, u, e, parent);
      SamePlansDoNotNestIn(overrides, u, e.plan, OwnScopes(e, parent));
    }
  }

  lemma {:induction false} SamePlansDoNotNestIn(overrides: Overrides, u: set<Occurrence>, subs: seq<Entry>, own: seq<string>)
    requires OccurrencesIn(overrides, subs, own) <= u && SamePlans(u)
    ensures NotNested(overrides, subs)
    decreases subs
  {
    if subs != [] {
      if subs[0].Dep? {
        SamePlansDoNotNest(overrides, u, subs[0], own);
      }
      SamePlansDoNotNestIn(overrides, u, subs[1..], own);
    }
  }

  lemma {:induction false} SamePlansDoNotNestInPlan(overrides: Overrides, u: set<Occurrence>, plan: seq<Entry>)
    requires OccurrencesOfPlan(overrides, plan) <= u && SamePlans(u)
    ensures NotNested(overrides, plan)
    decreases plan
  {
    if plan != [] {
      if plan[0].Dep? {
        SamePlansDoNotNest(overrides, u, plan[0], plan[0].scopes);
      }
      SamePlansDoNotNestInPlan(overrides, u, plan[1..]);
    }
  }

  // ---- main result --------------------------------------------------------

  lemma FindRevealingWorld(overrides: Overrides, plan: seq<Entry>, s: State) returns (w: World)
    requires Fresh(s) && AllCached(plan) && NotNested(overrides, plan) && !UsesOfPlanAgree(overrides, plan)
    ensures w.overrides == overrides && !Transparent(w, plan, s)
  {
    var us := UsesOfPlan(plan);
    UsesOfPlanAreClosed(plan);
    var a, b :| a in us && b in us && Callee(overrides, a) == Callee(overrides, b) &&
      DemandOf(overrides, a) != DemandOf(overrides, b);
    var d, x, y := Callee(overrides, a), DemandOf(overrides, a), DemandOf(overrides, b);
    EvalPlanRefused(overrides, a, plan, map[]);
    EvalPlanRefused(overrides, b, plan, map[]);
    TwoRunsOfPlan(overrides, d, x, y, plan, map[], s);
    w := if ResolvePlan(Refusing(overrides, d, x), plan, map[], s).0.Ok? then Refusing(overrides, d, x)
         else Refusing(overrides, d, y);
  }

  // Whatever the callables do, resolution is plain evaluation; iff any two uses
  // of one callable are both security schemes, or fill the same parameters from
  // the same specs, scopes and callables.
  lemma MemoisationIsTransparentIff(overrides: Overrides, plan: seq<Entry>, s: State)
    requires Fresh(s) && AllCached(plan) && NotNested(overrides, plan) && RootsWellNamed(plan)
    ensures
      (forall w: World :: w.overrides == overrides ==> Transparent(w, plan, s)) <==> UsesOfPlanAgree(overrides, plan)
  {
    if UsesOfPlanAgree(overrides, plan) {
      forall w: World | w.overrides == overrides
        ensures Transparent(w, plan, s)
      {
        AgreeingUsesAreTransparent(w, plan, s);
      }
    } else {
      var w := FindRevealingWorld(overrides, plan, s);
    }
  }

  // ---- why every entry is cached, and none below itself -------------------

  // A route-level use of a callable that takes the scopes.
  function Guard(c: Callable, useCache: bool, scopes: seq<string>): Entry {
    Dep("", c, useCache, scopes, false, true, [Leaf("s", SecurityScopes)])
  }

  lemma GuardStep(w: World, c: Callable, useCache: bool, scopes: seq<string>, rest: seq<Entry>, s: State) returns (t: State)
    requires w.overrides == map[] && scopes != []
    ensures
      var plan, kwargs := [Guard(c, useCache, scopes)] + rest, map["s" := ScopesValue(scopes)];
      var r := w.call(c, kwargs);
      EvalPlan(w, plan, map[]) == (if r.Ok? then EvalPlan(w, rest, map[]) else Err(Raised(r.error))) &&
      (r.Err? && !(useCache && c in s.cache) ==> ResolvePlan(w, plan, map[], s).0 == Err(Raised(r.error))) &&
      (r.Ok? || (useCache && c in s.cache) ==>
        (useCache ==> c in t.cache) && ResolvePlan(w, plan, map[], s) == ResolvePlan(w, rest, map[], t))
  {
    var g, sub, kwargs := Guard(c, useCache, scopes), [Leaf("s", SecurityScopes)], map["s" := ScopesValue(scopes)];
    assert ([g] + rest)[1..] == rest && sub[1..] == [];
    assert ResolveSubs(w, sub, scopes, map[], s) == (Ok(kwargs), s);
    assert EvalSubs(w, sub, scopes, map[]) == Ok(kwargs);
    t := ResolveDep(w, g, scopes, s).1;
  }

  lemma GuardsDisagree(a: Entry, b: Entry, rest: seq<Entry>, c: Callable, x: seq<string>, y: seq<string>)
    requires a == Guard(c, true, x) && b == Guard(c, true, y) && x != [] && y != [] && x != y
    ensures !UsesOfPlanAgree(map[], [a] + ([b] + rest))
  {
    var plan := [a] + ([b] + rest);
    var u, v := Use(a, x), Use(b, y);
    assert u in UsesOfPlan(plan) && v in UsesOfPlan(plan[1..]);
    assert BindingOf(map[], a.plan[0], x) == Some(ToScopes(x)) && BindingOf(map[], b.plan[0], y) == Some(ToScopes(y));
    assert Bindings(map[], a.plan, x)["s"] != Bindings(map[], b.plan, y)["s"];
  }

  // With an entry that is not cached the bindings may differ and no world tells:
  // here the third guard checks what the memo table spared the second.
  lemma UncachedMayRepair(w: World, c: Callable, x: seq<string>, y: seq<string>, s: State)
    requires Fresh(s) && w.overrides == map[] && x != [] && y != [] && x != y
    ensures
      var plan := [Guard(c, true, x), Guard(c, true, y), Guard(c, false, y)];
      Transparent(w, plan, s) && !UsesOfPlanAgree(map[], plan)
  {
    var a, b, d := Guard(c, true, x), Guard(c, true, y), Guard(c, false, y);
    var plan := [a, b, d];
    assert plan == [a] + [b, d] && [b, d] == [b] + [d] && [d] == [d] + [];
    var t := GuardStep(w, c, true, x, [b, d], s);
    if w.call(c, map["s" := ScopesValue(x)]).Ok? {
      var u := GuardStep(w, c, true, y, [d], t);
      var v := GuardStep(w, c, false, y, [], u);
    }
    GuardsDisagree(a, b, [d], c, x, y);
  }

  // A callable below itself is called twice, whatever the memo table holds; so
  // its two uses may bind differently and no world tells.
  lemma NestedMayDiffer(w: World, c: Callable, d: Callable, z: Callable, s: State)
    requires Fresh(s) && w.overrides == map[c := z, d := z] && c != d
    ensures
      var plan := [Dep("a", c, true, [], false, true, [Dep("b", d, true, [], false, false, [])])];
      AllCached(plan) && Transparent(w, plan, s) && !UsesOfPlanAgree(w.overrides, plan)
  {
    var inner := Dep("b", d, true, [], false, false, []);
    var outer := Dep("a", c, true, [], false, true, [inner]);
    assert [outer][1..] == [] && [inner][1..] == [];
    var (p, t) := ResolveDep(w, inner, [], s);
    assert ResolveSubs(w, [], [], map[], s) == (Ok(map[]), s);
    assert p == Eval(w, inner, []) == CallResult(w, z, map[]);
    assert EntryCached(inner) && AllCached([inner]) && EntryCached(outer) && AllCached([outer][1..]);
    if p.Ok? {
      var kwargs := map["b" := p.value];
      assert ResolveSubs(w, [], [], kwargs, t) == (Ok(kwargs), t);
      assert ResolveSubs(w, [inner], [], map[], s) == (Ok(kwargs), t);
      assert EvalSubs(w, [inner], [], map[]) == Ok(kwargs);
    } else {
      assert ResolveSubs(w, [inner], [], map[], s) == (Err(p.error), t);
      assert EvalSubs(w, [inner], [], map[]) == Err(p.error);
    }
    assert ResolveDep(w, outer, [], s).0 == Eval(w, outer, []);
    var u, v := Use(outer, []), Use(inner, []);
    assert v in UsesIn([inner], []) && u in UsesOfPlan([outer]) && v in UsesOfPlan([outer]);
    assert "b" in Bindings(w.overrides, outer.plan, []) && "b" !in Bindings(w.overrides, inner.plan, []);
  }

  lemma TwoUses(a: Entry, b: Entry)
    requires a.Dep? && b.Dep? && UsesIn(a.plan, a.scopes) == UsesIn(b.plan, b.scopes) == {}
    ensures UsesOfPlan([a, b]) == {Use(a, a.scopes), Use(b, b.scopes)}
  {
    assert [a, b][1..] == [b] && [b][1..] == [];
    assert UsesOfPlan([]) == {};
    assert UsesOfPlan([b]) == {Use(b, b.scopes)};
  }

  // Two callables overridden to one with different plans do no harm if the plans
  // bind the same: here nothing.
  lemma HarmlessCollision(c: Callable, d: Callable, z: Callable, s: State)
    requires Fresh(s) && c != d
    ensures
      var overrides := map[c := z, d := z];
      var plan := [Dep("a", c, true, [], false, false, []),
                   Dep("b", d, true, [], false, false, [Leaf("y", BackgroundTasks)])];
      !SamePlans(OccurrencesOfPlan(overrides, plan)) &&
      forall w: World :: w.overrides == overrides ==> Transparent(w, plan, s)
  {
    var overrides := map[c := z, d := z];
    var a, b := Dep("a", c, true, [], false, false, []), Dep("b", d, true, [], false, false, [Leaf("y", BackgroundTasks)]);
    var plan := [a, b];
    assert plan[1..] == [b] && b.plan[1..] == [];
    var o, p := OccurrenceOf(overrides, a, []), OccurrenceOf(overrides, b, []);
    assert o in OccurrencesOfPlan(overrides, plan) && p in OccurrencesOfPlan(overrides, plan[1..]);
    assert UsesIn(b.plan, []) == {};
    TwoUses(a, b);
    assert Bindings(overrides, b.plan, []) == map[] == Bindings(overrides, a.plan, []);
    forall w: World | w.overrides == overrides
      ensures Transparent(w, plan, s)
    {
      AgreeingUsesAreTransparent(w, plan, s);
    }
  }
}
