// Security scopes flow down the dependency forest: each callable is given those
// of the nearest entry on the way to it that names any.
module ScopeFlow {
  import opened Wrappers
  import opened DependencyPlan
  import opened YieldDependencies
  import opened Resolver
  import opened Memoisation
  import opened UseAgreement

  // ---- scopes along a path ------------------------------------------------

  // The last scopes named along the path, or `default`.
  function LastScopes(path: seq<Entry>, default: seq<string>): seq<string>
    requires forall e <- path :: e.Dep?
  {
    if path == [] then default
    else if path[|path| - 1].scopes != [] then path[|path| - 1].scopes
    else LastScopes(path[..|path| - 1], default)
  }

  lemma {:induction false} LastScopesCons(e: Entry, rest: seq<Entry>, default: seq<string>)
    requires e.Dep? && forall x <- rest :: x.Dep?
    ensures LastScopes([e] + rest, default) == LastScopes(rest, if e.scopes != [] then e.scopes else default)
  {
    var path := [e] + rest;
    if rest == [] {
      assert path[..0] == [];
    } else {
      assert path[..|path| - 1] == [e] + rest[..|rest| - 1];
      LastScopesCons(e, rest[..|rest| - 1], default);
    }
  }

  // A path whose inner entries are evaluated, which a scheme's plan is not.
  predicate Evaluated(plan: seq<Entry>, path: seq<Entry>) {
    path != [] && IsPath(plan, path) && (forall e <- path :: e.Dep?) &&
    forall i :: 0 <= i < |path| - 1 ==> !path[i].securityClass
  }

  predicate EndsAt(path: seq<Entry>, default: seq<string>, u: Use)
    requires forall e <- path :: e.Dep?
  {
    path != [] && u == Use(path[|path| - 1], LastScopes(path, default))
  }

  // ---- every path ends in a use -------------------------------------------

  lemma {:induction false} PathIsUse(e: Entry, parent: seq<string>, path: seq<Entry>)
    requires Evaluated([e], path) && path[0] == e
    ensures Use(path[|path| - 1], LastScopes(path, parent)) in Uses(e, parent)
    decreases |path|, 0
  {
    var rest := path[1..];
    var own := if e.scopes != [] then e.scopes else parent;
    assert path == [e] + rest;
    LastScopesCons(e, rest, parent);
    if rest != [] {
      PathIsUseIn(e.plan, own, rest);
      assert path[|path| - 1] == rest[|rest| - 1];
    }
  }

  lemma {:induction false} PathIsUseIn(subs: seq<Entry>, own: seq<string>, path: seq<Entry>)
    requires Evaluated(subs, path)
    ensures Use(path[|path| - 1], LastScopes(path, own)) in UsesIn(subs, own)
    decreases |path|, |subs|
  {
    if path[0] == subs[0] {
      PathIsUse(subs[0], own, path);
    } else {
      PathIsUseIn(subs[1..], own, path);
    }
  }

  lemma {:induction false} PathOfPlanIsUse(plan: seq<Entry>, path: seq<Entry>)
    requires Evaluated(plan, path)
    ensures Use(path[|path| - 1], LastScopes(path, [])) in UsesOfPlan(plan)
    decreases |plan|
  {
    if path[0] == plan[0] {
      PathIsUse(plan[0], plan[0].scopes, path);
      RootDefault(path);
    } else {
      PathOfPlanIsUse(plan[1..], path);
    }
  }

  // A root's own scopes are no more than the default.
  lemma RootDefault(path: seq<Entry>)
    requires path != [] && forall e <- path :: e.Dep?
    ensures LastScopes(path, path[0].scopes) == LastScopes(path, [])
  {
    assert path == [path[0]] + path[1..];
    LastScopesCons(path[0], path[1..], path[0].scopes);
    LastScopesCons(path[0], path[1..], []);
  }

  // ---- and every use arises so --------------------------------------------

  lemma {:induction false} UseHasPath(e: Entry, parent: seq<string>, u: Use) returns (path: seq<Entry>)
    requires e.Dep? && u in Uses(e, parent)
    ensures Evaluated([e], path) && path[0] == e && EndsAt(path, parent, u)
    decreases e
  {
    var own := if e.scopes != [] then e.scopes else parent;
    path := [e];
    assert path[..0] == [];
    if u != Use(e, own) {
      var rest := UseInHasPath(e.plan, own, u);
      path := [e] + rest;
      assert path[1..] == rest;
      LastScopesCons(e, rest, parent);
    }
  }

  lemma {:induction false} UseInHasPath(subs: seq<Entry>, own: seq<string>, u: Use) returns (path: seq<Entry>)
    requires u in UsesIn(subs, own)
    ensures Evaluated(subs, path) && EndsAt(path, own, u)
    decreases subs
  {
    if subs[0].Dep? && u in Uses(subs[0], own) {
      path := UseHasPath(subs[0], own, u);
    } else {
      path := UseInHasPath(subs[1..], own, u);
    }
  }

  lemma {:induction false} UseOfPlanHasPath(plan: seq<Entry>, u: Use) returns (path: seq<Entry>)
    requires u in UsesOfPlan(plan)
    ensures Evaluated(plan, path) && EndsAt(path, [], u)
    decreases plan
  {
    if plan[0].Dep? && u in Uses(plan[0], plan[0].scopes) {
      path := UseHasPath(plan[0], plan[0].scopes, u);
      RootDefault(path);
    } else {
      path := UseOfPlanHasPath(plan[1..], u);
    }
  }

  // The uses of a plan are the ends of its paths, each with the last scopes
  // named on the way.
  lemma UsesArePaths(plan: seq<Entry>, u: Use)
    ensures u in UsesOfPlan(plan) <==> exists path :: Evaluated(plan, path) && EndsAt(path, [], u)
  {
    if u in UsesOfPlan(plan) {
      var path := UseOfPlanHasPath(plan, u);
    }
    forall path | Evaluated(plan, path) && EndsAt(path, [], u)
      ensures u in UsesOfPlan(plan)
    {
      PathOfPlanIsUse(plan, path);
    }
  }

  // ---- what the callables are called with ---------------------------------

  lemma {:induction false} EveryUseEvaluates(w: World, e: Entry, parent: seq<string>, u: Use)
    requires e.Dep? && u in Uses(e, parent) && u.entry.Dep? && Eval(w, e, parent).Ok?
    ensures EvalUse(w, u).Ok?
    decreases e
  {
    if u != Use(e, OwnScopes(e, parent)) {
      EveryUseEvaluatesIn(w, e.plan, OwnScopes(e, parent), map[], u);
    }
  }

  lemma {:induction false} EveryUseEvaluatesIn(w: World, subs: seq<Entry>, own: seq<string>, kwargs: Kwargs, u: Use)
    requires u in UsesIn(subs, own) && u.entry.Dep? && EvalSubs(w, subs, own, kwargs).Ok?
    ensures EvalUse(w, u).Ok?
    decreases subs
  {
    match subs[0]
    case Leaf(name, source) =>
      match LeafBinding(w, source, own) {
        case Bad(_) =>
        case UseDefault => EveryUseEvaluatesIn(w, subs[1..], own, kwargs, u);
        case Found(v) => EveryUseEvaluatesIn(w, subs[1..], own, kwargs[name := v], u);
      }
    case Dep(name, _, _, _, _, _, _) =>
      if u in Uses(subs[0], own) {
        EveryUseEvaluates(w, subs[0], own, u);
      } else {
        EveryUseEvaluatesIn(w, subs[1..], own, kwargs[name := Eval(w, subs[0], own).value], u);
      }
  }

  lemma {:induction false} EveryUseOfPlanEvaluates(w: World, plan: seq<Entry>, out: Kwargs, u: Use)
    requires u in UsesOfPlan(plan) && u.entry.Dep? && EvalPlan(w, plan, out).Ok?
    ensures EvalUse(w, u).Ok?
    decreases plan
  {
    match plan[0]
    case Leaf(name, source) =>
      var more :=
        if source.BackgroundTasks? then out[name := TasksValue]
        else if source.RequestObject? && w.hasRequest then out[name := RequestValue]
        else out;
      EveryUseOfPlanEvaluates(w, plan[1..], more, u);
    case Dep(name, _, _, scopes, _, isInternal, _) =>
      if u in Uses(plan[0], scopes) {
        EveryUseEvaluates(w, plan[0], scopes, u);
      } else {
        var v := Eval(w, plan[0], scopes).value;
        EveryUseOfPlanEvaluates(w, plan[1..], if isInternal then out else out[name := v], u);
      }
  }

  // The callable of an entry after overrides.
  function Target(w: World, e: Entry): Callable
    requires e.Dep?
  {
    if e.callable in w.overrides then w.overrides[e.callable] else e.callable
  }

  // What an entry of a sub-plan gives its callable, under its own name.
  predicate Filled(w: World, e: Entry, scopes: seq<string>, kwargs: Kwargs) {
    match e
    case Leaf(name, SecurityScopes) => name in kwargs && kwargs[name] == ScopesValue(scopes)
    case Leaf(name, FromRequest(spec)) =>
      (match w.fromRequest(spec)
       case Found(v) => name in kwargs && kwargs[name] == v
       case UseDefault => name !in kwargs
       case Bad(_) => false)
    case Leaf(name, _) => name !in kwargs
    case Dep(name, _, _, inner, _, _, _) =>
      name in kwargs && Eval(w, e, if inner != [] then inner else scopes) == Ok(kwargs[name])
  }

  // The callable was given each of its parameters, and nothing else.
  predicate CalledWith(w: World, e: Entry, scopes: seq<string>, kwargs: Kwargs) {
    e.Dep? && w.call(Target(w, e), kwargs).Ok? &&
    (forall x <- e.plan :: Filled(w, x, scopes, kwargs)) &&
    forall name <- kwargs :: exists x <- e.plan :: x.name == name
  }

  lemma SameEval(w: World, e: Entry, parent: seq<string>)
    requires e.Dep?
    ensures Eval(w, e, if e.scopes != [] then e.scopes else parent) == Eval(w, e, parent)
  {
  }

  // A use that evaluates calls its callable, overridden or not, with what its
  // sub-plan says; a scheme is asked instead.
  lemma UseIsCalled(w: World, u: Use) returns (kwargs: Kwargs)
    requires u.entry.Dep? && EntryWellNamed(u.entry) && EvalUse(w, u).Ok?
    ensures u.entry.securityClass ==> w.security(Target(w, u.entry)) == Ok(EvalUse(w, u).value)
    ensures !u.entry.securityClass ==>
      CalledWith(w, u.entry, u.own, kwargs) && w.call(Target(w, u.entry), kwargs) == Ok(EvalUse(w, u).value)
  {
    kwargs := map[];
    if !u.entry.securityClass {
      kwargs := EvalSubs(w, u.entry.plan, u.own, map[]).value;
      Collected(w, u.entry.plan, u.own, map[], kwargs);
      forall x <- u.entry.plan
        ensures Filled(w, x, u.own, kwargs)
      {
        assert Gives(w, x, u.own, kwargs);
        if x.Dep? {
          SameEval(w, x, u.own);
        }
      }
    }
  }

  // If a plan resolves, every callable on an evaluated path was called with its
  // parameters filled, its scopes being the last that the path names.
  lemma ScopesReach(w: World, plan: seq<Entry>, path: seq<Entry>, s: State) returns (kwargs: Kwargs)
    requires Fresh(s) && RootsWellNamed(plan) && UsesOfPlanAgree(w.overrides, plan)
    requires Evaluated(plan, path) && !path[|path| - 1].securityClass
    requires ResolvePlan(w, plan, map[], s).0.Ok?
    ensures CalledWith(w, path[|path| - 1], LastScopes(path, []), kwargs)
  {
    var u := Use(path[|path| - 1], LastScopes(path, []));
    PathOfPlanIsUse(plan, path);
    UsesOfPlanAreClosed(plan);
    NamedUsesOfPlan(plan);
    AgreeingUsesAreTransparent(w, plan, s);
    EveryUseOfPlanEvaluates(w, plan, map[], u);
    kwargs := UseIsCalled(w, u);
  }

  lemma ParameterIsFilled(w: World, g: Graph, e: Entry, param: string, scopes: seq<string>, kwargs: Kwargs)
    requires e.Dep? && e.callable in g.signatures && e.plan == Compiled(g, g.signatures[e.callable], {})
    requires LeafParam(param, SecurityScopes) in g.signatures[e.callable] && CalledWith(w, e, scopes, kwargs)
    ensures param in kwargs && kwargs[param] == ScopesValue(scopes)
  {
    var params := g.signatures[e.callable];
    var i :| 0 <= i < |params| && params[i] == LeafParam(param, SecurityScopes);
    CompiledMirrors(g, params, {});
    assert Mirrors(g, e.plan[i], params[i]) && e.plan[i] in e.plan;
    assert Filled(w, e.plan[i], scopes, kwargs);
  }

  // In particular for a marker `dependencies=[Security(c, scopes=...)]`: its
  // callable is given the marker's scopes.
  lemma MarkerScopesReach(w: World, g: Graph, plan: seq<Entry>, e: Entry, name: string, m: Marker, param: string, s: State)
    returns (kwargs: Kwargs)
    requires Fresh(s) && RootsWellNamed(plan) && UsesOfPlanAgree(w.overrides, plan)
    requires e in plan && Stands(g, e, name, m) && e.callable in g.signatures && e.callable !in g.schemes
    requires LeafParam(param, SecurityScopes) in g.signatures[e.callable]
    requires ResolvePlan(w, plan, map[], s).0.Ok?
    ensures param in kwargs && kwargs[param] == ScopesValue(m.scopes) && w.call(Target(w, e), kwargs).Ok?
  {
    RootPath(plan, e);
    kwargs := ScopesReach(w, plan, [e], s);
    ParameterIsFilled(w, g, e, param, m.scopes, kwargs);
  }

  lemma RootPath(plan: seq<Entry>, e: Entry)
    requires e in plan && e.Dep?
    ensures Evaluated(plan, [e]) && LastScopes([e], []) == e.scopes
  {
    assert [e][..0] == [] && [e][1..] == [];
  }
}
