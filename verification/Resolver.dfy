// resolve_dependencies of python/hyperfastapi/_routing.py: the plan forest is
// evaluated with overrides, scopes and a per-request memo table.
module Resolver {
  import opened Wrappers
  import opened DependencyPlan
  import opened YieldDependencies

  // ---- the memoising evaluator --------------------------------------------

  datatype State = State(
    cache: map<Callable, Value>,
    tasks: bool,
    log: seq<Callable>,
    gens: seq<Generator>,
    trace: seq<Event>)

  function Overridden(overrides: Overrides, c: Callable): Callable {
    if c in overrides then overrides[c] else c
  }

  // `entry.get("scopes") or parent_scopes or []`
  function OwnScopes(e: Entry, parent: seq<string>): seq<string>
    requires e.Dep?
  {
    if e.scopes != [] then e.scopes else parent
  }

  // A leaf below a dependency.
  function LeafBinding(w: World, source: LeafSource, own: seq<string>): Extraction {
    match source
    case SecurityScopes => Found(ScopesValue(own))
    case FromRequest(spec) => w.fromRequest(spec)
    case BackgroundTasks => UseDefault
    case RequestObject => UseDefault
  }

  function Called(w: World, c: Callable, kwargs: Kwargs, s: State): (Result<Value, Failure>, State) {
    var s1 := s.(log := s.log + [c]);
    match w.call(c, kwargs)
    case Err(e) => (Err(Raised(e)), s1)
    case Ok(v) =>
      var opens := OpenedBy(w, c, kwargs, |s.gens|);
      (Ok(v), s1.(gens := s.gens + opens, trace := s.trace + OpenEvents(opens)))
  }

  function Remember(e: Entry, c: Callable, r: Result<Value, Failure>, s: State): (Result<Value, Failure>, State)
    requires e.Dep?
  {
    match r
    case Err(_) => (r, s)
    case Ok(v) => (r, if e.useCache then s.(cache := s.cache[c := v]) else s)
  }

  function Secured(w: World, c: Callable, s: State): (Result<Value, Failure>, State) {
    var s1 := s.(log := s.log + [c]);
    match w.security(c)
    case Err(e) => (Err(Raised(e)), s1)
    case Ok(v) => (Ok(v), s1)
  }

  function ResolveDep(w: World, e: Entry, parent: seq<string>, s: State): (Result<Value, Failure>, State)
    requires e.Dep?
    decreases e
  {
    var c := Overridden(w.overrides, e.callable);
    if e.useCache && c in s.cache then (Ok(s.cache[c]), s)
    else if e.securityClass then
      var (r, s1) := Secured(w, c, s);
      Remember(e, c, r, s1)
    else
      var (r, s1) := ResolveSubs(w, e.plan, OwnScopes(e, parent), map[], s);
      match r
      case Err(f) => (Err(f), s1)
      case Ok(kwargs) =>
        var (v, s2) := Called(w, c, kwargs, s1);
        Remember(e, c, v, s2)
  }

  function ResolveSubs(w: World, subs: seq<Entry>, own: seq<string>, kwargs: Kwargs, s: State): (Result<Kwargs, Failure>, State)
    decreases subs
  {
    if subs == [] then (Ok(kwargs), s)
    else
      match subs[0]
      case Leaf(name, source) =>
        (match LeafBinding(w, source, own)
         case Bad(d) => (Err(Invalid(d)), s)
         case UseDefault => ResolveSubs(w, subs[1..], own, kwargs, s)
         case Found(v) => ResolveSubs(w, subs[1..], own, kwargs[name := v], s))
      case Dep(name, _, _, _, _, _, _) =>
        var (r, s1) := ResolveDep(w, subs[0], own, s);
        match r
        case Err(f) => (Err(f), s1)
        case Ok(v) => ResolveSubs(w, subs[1..], own, kwargs[name := v], s1)
  }

  // The handler's own plan.  Route-level entries run for their effects only.
  function ResolvePlan(w: World, plan: seq<Entry>, out: Kwargs, s: State): (Result<Kwargs, Failure>, State)
    decreases plan
  {
    if plan == [] then (Ok(out), s)
    else
      match plan[0]
      case Leaf(name, source) =>
        (match source
         case BackgroundTasks => ResolvePlan(w, plan[1..], out[name := TasksValue], s.(tasks := true))
         case RequestObject =>
           ResolvePlan(w, plan[1..], if w.hasRequest then out[name := RequestValue] else out, s)
         case _ => ResolvePlan(w, plan[1..], out, s))
      case Dep(name, _, _, scopes, _, isInternal, _) =>
        var (r, s1) := ResolveDep(w, plan[0], scopes, s);
        match r
        case Err(f) => (Err(f), s1)
        case Ok(v) => ResolvePlan(w, plan[1..], if isInternal then out else out[name := v], s1)
  }

  // ---- the resolver -------------------------------------------------------

  class DependencyResolver {
    const bg: BgState
    var cache: map<Callable, Value>

    constructor (bg: BgState)
      ensures this.bg == bg && cache == map[]
    {
      this.bg := bg;
      cache := map[];
    }

    ghost function View(): State
      reads this, bg
    {
      State(cache, bg.tasks, bg.log, bg.yieldGens, bg.trace)
    }

    method Dependency(w: World, e: Entry, parent: seq<string>) returns (r: Result<Value, Failure>)
      requires e.Dep?
      modifies this, bg
      ensures (r, View()) == ResolveDep(w, e, parent, old(View()))
      decreases e
    {
      var c := if e.callable in w.overrides then w.overrides[e.callable] else e.callable;
      if e.useCache && c in cache {
        return Ok(cache[c]);
      }
      if e.securityClass {
        bg.log := bg.log + [c];
        var v := w.security(c);
        if v.Err? {
          return Err(Raised(v.error));
        }
        if e.useCache {
          cache := cache[c := v.value];
        }
        return Ok(v.value);
      }
      var own := if e.scopes != [] then e.scopes else parent;
      var kwargs := SubDependencies(w, e.plan, own);
      if kwargs.Err? {
        return Err(kwargs.error);
      }
      r := bg.CallWithAsyncHandling(w, c, kwargs.value);
      if r.Ok? && e.useCache {
        cache := cache[c := r.value];
      }
    }

    // The loop over one entry's sub-plan.
    method SubDependencies(w: World, subs: seq<Entry>, own: seq<string>) returns (r: Result<Kwargs, Failure>)
      modifies this, bg
      ensures (r, View()) == ResolveSubs(w, subs, own, map[], old(View()))
      decreases subs
    {
      var kwargs: Kwargs := map[];
      for i := 0 to |subs|
        invariant ResolveSubs(w, subs[i..], own, kwargs, View()) == ResolveSubs(w, subs, own, map[], old(View()))
      {
        assert subs[i..][0] == subs[i] && subs[i..][1..] == subs[i + 1..];
        match subs[i] {
          case Leaf(name, source) =>
            var x := LeafBinding(w, source, own);
            match x {
              case Bad(d) => return Err(Invalid(d));
              case UseDefault =>
              case Found(v) => kwargs := kwargs[name := v];
            }
          case Dep(name, _, _, _, _, _, _) =>
            var v := Dependency(w, subs[i], own);
            if v.Err? {
              return Err(v.error);
            }
            kwargs := kwargs[name := v.value];
        }
      }
      return Ok(kwargs);
    }

    method Resolve(w: World, plan: seq<Entry>) returns (r: Result<Kwargs, Failure>)
      modifies this, bg
      ensures (r, View()) == ResolvePlan(w, plan, map[], old(View()))
    {
      var out: Kwargs := map[];
      for i := 0 to |plan|
        invariant ResolvePlan(w, plan[i..], out, View()) == ResolvePlan(w, plan, map[], old(View()))
      {
        assert plan[i..][0] == plan[i] && plan[i..][1..] == plan[i + 1..];
        match plan[i] {
          case Leaf(name, source) =>
            if source.BackgroundTasks? {
              bg.tasks := true;
              out := out[name := TasksValue];
            } else if source.RequestObject? && w.hasRequest {
              out := out[name := RequestValue];
            }
          case Dep(name, _, _, scopes, _, isInternal, _) =>
            var v := Dependency(w, plan[i], scopes);
            if v.Err? {
              return Err(v.error);
            }
            if !isInternal {
              out := out[name := v.value];
            }
        }
      }
      return Ok(out);
    }
  }
}
