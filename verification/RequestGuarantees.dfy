// What holds of every request: when each generator dependency is torn down, and
// what the handler is called with.
module RequestGuarantees {
  import opened Sequences
  import opened Wrappers
  import opened DependencyPlan
  import opened YieldDependencies
  import opened Resolver
  import opened Parameters
  import opened RequestLifecycle

  // ---- generators are numbered as they are opened -------------------------

  // A generator does what the callable that made it lays down.
  ghost predicate Scripted(w: World, g: Generator) {
    exists c, kwargs :: w.call(c, kwargs).Ok? && w.script(c, kwargs, g.id) == Yields(g.kind, g.onNext, g.onThrow)
  }

  ghost predicate Tracked(w: World, s: State) {
    (forall i :: 0 <= i < |s.gens| ==> s.gens[i].id == i && Scripted(w, s.gens[i])) && s.trace == OpenEvents(s.gens)
  }

  lemma CallTracked(w: World, c: Callable, kwargs: Kwargs, s: State)
    requires Tracked(w, s)
    ensures Tracked(w, Called(w, c, kwargs, s).1)
  {
    if w.call(c, kwargs).Ok? {
      var opens := OpenedBy(w, c, kwargs, |s.gens|);
      assert OpenEvents(s.gens + opens) == OpenEvents(s.gens) + OpenEvents(opens);
      forall g <- opens
        ensures Scripted(w, g)
      {
      }
    }
  }

  lemma {:induction false} DepTracked(w: World, e: Entry, parent: seq<string>, s: State)
    requires e.Dep? && Tracked(w, s)
    ensures Tracked(w, ResolveDep(w, e, parent, s).1)
    decreases e
  {
    if !e.securityClass {
      SubsTracked(w, e.plan, OwnScopes(e, parent), map[], s);
      var (r, t) := ResolveSubs(w, e.plan, OwnScopes(e, parent), map[], s);
      if r.Ok? {
        CallTracked(w, Overridden(w.overrides, e.callable), r.value, t);
      }
    }
  }

  lemma {:induction false} SubsTracked(w: World, subs: seq<Entry>, own: seq<string>, kwargs: Kwargs, s: State)
    requires Tracked(w, s)
    ensures Tracked(w, ResolveSubs(w, subs, own, kwargs, s).1)
    decreases subs
  {
    if subs != [] {
      match subs[0]
      case Leaf(name, source) =>
        match LeafBinding(w, source, own) {
          case Bad(_) =>
          case UseDefault => SubsTracked(w, subs[1..], own, kwargs, s);
          case Found(v) => SubsTracked(w, subs[1..], own, kwargs[name := v], s);
        }
      case Dep(name, _, _, _, _, _, _) =>
        DepTracked(w, subs[0], own, s);
        var (r, t) := ResolveDep(w, subs[0], own, s);
        if r.Ok? {
          SubsTracked(w, subs[1..], own, kwargs[name := r.value], t);
        }
    }
  }

  lemma {:induction false} PlanTracked(w: World, plan: seq<Entry>, out: Kwargs, s: State)
    requires Tracked(w, s)
    ensures Tracked(w, ResolvePlan(w, plan, out, s).1)
    decreases plan
  {
    if plan != [] {
      match plan[0]
      case Leaf(name, source) =>
        match source {
          case BackgroundTasks => PlanTracked(w, plan[1..], out[name := TasksValue], s.(tasks := true));
          case RequestObject => PlanTracked(w, plan[1..], if w.hasRequest then out[name := RequestValue] else out, s);
          case _ => PlanTracked(w, plan[1..], out, s);
        }
      case Dep(name, _, _, scopes, _, isInternal, _) =>
        DepTracked(w, plan[0], scopes, s);
        var (r, t) := ResolveDep(w, plan[0], scopes, s);
        if r.Ok? {
          PlanTracked(w, plan[1..], if isInternal then out else out[name := r.value], t);
        }
    }
  }

  lemma HandledTracked(w: World, route: HandlerRoute, taken: Kwargs, s: State)
    requires Tracked(w, s)
    ensures Tracked(w, Handled(w, route, taken, s).1)
  {
    PlanTracked(w, ResolverPlan(route), map[], s);
    var (deps, s1) := ResolvePlan(w, ResolverPlan(route), map[], s);
    if deps.Ok? {
      CallTracked(w, route.handler, taken + deps.value, s1);
    }
  }

  lemma BodyTracked(w: World, lib: Library, route: HandlerRoute, r: RequestData)
    ensures Tracked(w, Body(w, lib, route, r, START).1)
  {
    assert Tracked(w, START);
    HandledTracked(w, route, TakenKwargs(lib, route, r), START);
  }

  // ---- what one drain covers ----------------------------------------------

  // The generators, other than the first opened, at which a drain stops.
  function LateStoppers(gens: seq<Generator>): nat {
    if |gens| <= 1 then 0
    else
      var g := gens[|gens| - 1];
      LateStoppers(gens[..|gens| - 1]) + if g.kind == Sync && g.onNext.Raises? then 1 else 0
  }

  lemma {:induction false} StopIndexCounts(gens: seq<Generator>)
    ensures
      var i := StopIndex(gens);
      LateStoppers(gens) == if i <= 0 then 0 else LateStoppers(gens[..i]) + 1
  {
    if |gens| > 1 && !StopsDrain(gens[|gens| - 1]) {
      var init := gens[..|gens| - 1];
      StopIndexCounts(init);
      var i := StopIndex(init);
      if i > 0 {
        assert init[..i] == gens[..i];
      }
    }
  }

  lemma {:induction false} TeardownConcat(a: seq<Generator>, b: seq<Generator>, exc: Option<Exn>)
    ensures Teardown(a + b, exc) == Teardown(b, exc) + Teardown(a, exc)
    decreases |b|
  {
    if b == [] {
      assert a + b == a;
    } else {
      var n := |b| - 1;
      TeardownConcat(a, b[..n], exc);
      assert (a + b)[..|a + b| - 1] == a + b[..n];
      Assoc([Resumed(b[n].id, exc), Closed(b[n].id)], Teardown(b[..n], exc), Teardown(a, exc));
    }
  }

  lemma DrainCovers(gens: seq<Generator>)
    ensures Teardown(gens, None) == Teardown(Processed(gens), None) + Teardown(Remainder(gens), None)
    ensures Remainder(gens) == [] <==> LateStoppers(gens) == 0
    ensures Remainder(gens) != [] ==> LateStoppers(gens) == LateStoppers(Remainder(gens)) + 1
  {
    StopIndexCounts(gens);
    TeardownConcat(Remainder(gens), Processed(gens), None);
    assert Remainder(gens) + Processed(gens) == gens;
  }

  // The condition for a complete teardown: leaving aside the first generator
  // opened, at most one sync generator raises after a successful handler, and
  // none after a request that stopped before the handler.
  predicate FewEnoughRaise(e: Ending, gens: seq<Generator>) {
    match e
    case HandlerRaised(_) => true
    case HandlerReturned(_) => LateStoppers(gens) <= 1
    case _ => LateStoppers(gens) == 0
  }

  lemma TeardownCompleteIff(e: Ending, gens: seq<Generator>)
    ensures TeardownEvents(e, gens) <= Teardown(gens, Thrown(e))
    ensures TeardownEvents(e, gens) == Teardown(gens, Thrown(e)) <==> FewEnoughRaise(e, gens)
  {
    DrainCovers(gens);
    var rest := Remainder(gens);
    DrainCovers(rest);
    Assoc(Teardown(Processed(gens), None), Teardown(Processed(rest), None), Teardown(Remainder(rest), None));
  }

  // ---- the trace of a request ---------------------------------------------

  function OpenedInTurn(n: nat): seq<Event> {
    seq(n, (i: nat) => Opened(i))
  }

  // The generators n-1 down to 0, each resumed once and then closed.
  function ClosedInReverse(n: nat, exc: Option<Exn>): seq<Event> {
    if n == 0 then [] else [Resumed(n - 1, exc), Closed(n - 1)] + ClosedInReverse(n - 1, exc)
  }

  function IdealTrace(n: nat, exc: Option<Exn>): seq<Event> {
    OpenedInTurn(n) + [BodyEnded] + ClosedInReverse(n, exc)
  }

  lemma {:induction false} TeardownInReverse(gens: seq<Generator>, exc: Option<Exn>)
    requires forall i :: 0 <= i < |gens| ==> gens[i].id == i
    ensures Teardown(gens, exc) == ClosedInReverse(|gens|, exc)
  {
    if gens != [] {
      TeardownInReverse(gens[..|gens| - 1], exc);
    }
  }

  // The events of a whole request, as DispatchAsync leaves them.
  function RequestTrace(w: World, lib: Library, route: HandlerRoute, r: RequestData): seq<Event> {
    var (e, s) := Body(w, lib, route, r, START);
    s.trace + [BodyEnded] + TeardownEvents(e, s.gens)
  }

  // Whatever happens, generators are resumed only after resolution or handler
  // have ended, at most once, in reverse order of opening, with the handler's
  // exception thrown in iff it raised; and all of them are iff few enough raise.
  lemma WholeRequestTeardown(w: World, lib: Library, route: HandlerRoute, r: RequestData)
    ensures
      var (e, s) := Body(w, lib, route, r, START);
      var ideal := IdealTrace(|s.gens|, match e case HandlerRaised(x) => Some(x) case _ => None);
      RequestTrace(w, lib, route, r) <= ideal &&
      (RequestTrace(w, lib, route, r) == ideal <==> FewEnoughRaise(e, s.gens))
  {
    var (e, s) := Body(w, lib, route, r, START);
    BodyTracked(w, lib, route, r);
    TeardownInReverse(s.gens, Thrown(e));
    TeardownCompleteIff(e, s.gens);
    assert OpenEvents(s.gens) == OpenedInTurn(|s.gens|);
    CommonPrefix(s.trace + [BodyEnded], TeardownEvents(e, s.gens), ClosedInReverse(|s.gens|, Thrown(e)));
  }

  lemma CommonPrefix<T>(p: seq<T>, a: seq<T>, b: seq<T>)
    ensures p + a <= p + b <==> a <= b
    ensures p + a == p + b <==> a == b
  {
    if p + a == p + b {
      assert a == (p + a)[|p|..] && b == (p + b)[|p|..];
    }
    if p + a <= p + b {
      assert p + a == (p + b)[..|p + a|];
      assert a == (p + a)[|p|..] == b[..|a|];
    }
  }

  // ---- the handler's keyword arguments ------------------------------------

  lemma FilterMapEmpty<T, U>(f: T -> Option<U>, s: seq<T>)
    requires FilterMap(f, s) == []
    ensures forall x <- s :: f(x).None?
  {
    forall x <- s
      ensures f(x).None?
    {
      if f(x).Some? {
        FilterMapMembers(f, s, f(x).value);
      }
    }
  }

  lemma {:induction false} FlatMapEmpty<T, U>(f: T -> seq<U>, s: seq<T>)
    requires FlatMap(f, s) == []
    ensures forall x <- s :: f(x) == []
  {
    if s != [] {
      assert f(s[0]) == [] && FlatMap(f, s[1..]) == [];
      FlatMapEmpty(f, s[1..]);
      assert s == [s[0]] + s[1..];
    }
  }

  lemma {:induction false} BindKeys(kwargs: Kwargs, ps: seq<ParamSpec>, f: ParamSpec -> Option<Value>, name: string)
    ensures name in Bind(kwargs, ps, f) <==> name in kwargs || exists p <- ps :: p.name == name && f(p).Some?
    decreases |ps|
  {
    if ps != [] {
      var n := |ps| - 1;
      BindKeys(kwargs, ps[..n], f, name);
      assert ps == ps[..n] + [ps[n]];
    }
  }

  // A failed validation reports at least one error.
  ghost predicate HonestLibrary(lib: Library) {
    (forall m, k, b :: lib.validateJson(m, k, b).Err? ==> lib.validateJson(m, k, b).error > 0) &&
    (forall m, k, j :: lib.validatePython(m, k, j).Err? ==> lib.validatePython(m, k, j).error > 0)
  }

  // The compiler gives every model parameter its model.
  predicate ModelsPresent(ps: seq<ParamSpec>) {
    forall p <- ps :: p.source.InBody? && IsModel(p) ==> p.model.Some?
  }

  lemma RequiredFromRequest(lib: Library, p: ParamSpec, r: RequestData)
    requires p.required && !p.source.InBody? && !ExtractOne(lib, p, r).Failed?
    ensures ExtractOne(lib, p, r).Bound?
  {
  }

  lemma RequiredFromBody(lib: Library, p: ParamSpec, body: string, mode: BodyMode)
    requires HonestLibrary(lib) && p.required && (IsModel(p) ==> p.model.Some?)
    requires !mode.Broken? && BodyEntry(lib, body, mode, p).1 == []
    ensures BodyEntry(lib, body, mode, p).0.Some?
  {
    if mode.Whole? && IsModel(p) {
      ReportedErrors(p, lib.validateJson(p.model.value, p.kind, body));
    } else if mode.Envelope? && p.name in mode.members && IsModel(p) {
      ReportedErrors(p, lib.validatePython(p.model.value, p.kind, mode.members[p.name]));
    }
  }

  lemma ReportedErrors(p: ParamSpec, r: Result<Value, nat>)
    requires r.Err? ==> r.error > 0
    ensures Validated(p, r).1 == [] ==> Validated(p, r).0.Some?
  {
    if r.Err? {
      assert |ModelErrors(p.name, r.error)| > 0;
    }
  }

  lemma BodyParamsMembers(ps: seq<ParamSpec>, p: ParamSpec)
    ensures p in BodyParams(ps) <==> p in ps && p.source.InBody?
  {
    FilterMapMembers(IfBody, ps, p);
  }

  // Every required parameter is bound, and nothing but parameters.
  predicate TakenComplete(ps: seq<ParamSpec>, kwargs: Kwargs) {
    (forall p <- ps :: p.required ==> p.name in kwargs) &&
    (forall name <- kwargs :: exists p <- ps :: p.name == name)
  }

  // What is bound from the request, if nothing failed.
  lemma TakenAreBound(lib: Library, ps: seq<ParamSpec>, r: RequestData)
    requires HonestLibrary(lib) && ModelsPresent(ps)
    requires NoErrors(lib, ps, r)
    ensures TakenComplete(ps, BodyKwargs(lib, ps, r, Bind(map[], ps, ValueIn(lib, r))))
  {
    var bodies := BodyParams(ps);
    var mode := ModeOf(lib, bodies, r.body);
    var first, value := Bind(map[], ps, ValueIn(lib, r)), BodyValue(lib, r.body, mode);
    forall p <- ps | p.required
      ensures p.name in BodyKwargs(lib, ps, r, first)
    {
      BindKeys(map[], ps, ValueIn(lib, r), p.name);
      BindKeys(first, bodies, value, p.name);
      if p.source.InBody? {
        BodyParamsMembers(ps, p);
        FlatMapEmpty(BodyErrorsOf(lib, r.body, mode), bodies);
        assert BodyErrorsOf(lib, r.body, mode)(p) == [];
        RequiredFromBody(lib, p, r.body, mode);
        assert value(p).Some?;
      } else {
        FilterMapEmpty(ErrorIn(lib, r), ps);
        assert ErrorIn(lib, r)(p).None?;
        RequiredFromRequest(lib, p, r);
        assert ValueIn(lib, r)(p).Some?;
      }
    }
    forall name <- BodyKwargs(lib, ps, r, first)
      ensures exists p <- ps :: p.name == name
    {
      BindKeys(map[], ps, ValueIn(lib, r), name);
      BindKeys(first, bodies, value, name);
      if name !in first {
        var p :| p in bodies && p.name == name;
        BodyParamsMembers(ps, p);
      }
    }
  }

  // The entries that give the handler an argument.
  predicate Supplies(w: World, e: Entry) {
    match e
    case Leaf(_, source) => source.BackgroundTasks? || (source.RequestObject? && w.hasRequest)
    case Dep(_, _, _, _, _, isInternal, _) => !isInternal
  }

  lemma {:induction false} ResolvedKeys(w: World, plan: seq<Entry>, out: Kwargs, s: State, name: string)
    requires ResolvePlan(w, plan, out, s).0.Ok?
    ensures
      name in ResolvePlan(w, plan, out, s).0.value <==>
        name in out || exists e <- plan :: e.name == name && Supplies(w, e)
    decreases plan
  {
    if plan != [] {
      assert plan == [plan[0]] + plan[1..];
      match plan[0]
      case Leaf(n, source) =>
        match source {
          case BackgroundTasks => ResolvedKeys(w, plan[1..], out[n := TasksValue], s.(tasks := true), name);
          case RequestObject =>
            ResolvedKeys(w, plan[1..], if w.hasRequest then out[n := RequestValue] else out, s, name);
          case _ => ResolvedKeys(w, plan[1..], out, s, name);
        }
      case Dep(n, _, _, scopes, _, isInternal, _) =>
        var (r, t) := ResolveDep(w, plan[0], scopes, s);
        ResolvedKeys(w, plan[1..], if isInternal then out else out[n := r.value], t, name);
    }
  }

  // What must be there when the handler is called, and what may be.
  predicate Complete(w: World, items: seq<Item>, kwargs: Kwargs) {
    (forall i <- items :: i.Taken? && i.spec.required ==> i.spec.name in kwargs) &&
    (forall i <- items :: i.FromEntry? && Supplies(w, i.entry) ==> i.entry.name in kwargs) &&
    (forall name <- kwargs :: exists i <- items :: name == if i.Taken? then i.spec.name else i.entry.name)
  }

  lemma ItemMembers(items: seq<Item>)
    ensures forall p :: p in SpecsOf(items) <==> Taken(p) in items
    ensures forall e :: e in EntriesOf(items) <==> FromEntry(e) in items
  {
    forall p
      ensures p in SpecsOf(items) <==> Taken(p) in items
    {
      FilterMapMembers(IfTaken, items, p);
    }
    forall e
      ensures e in EntriesOf(items) <==> FromEntry(e) in items
    {
      FilterMapMembers(IfFromEntry, items, e);
    }
  }

  // What the resolver binds, in terms of the handler's items.
  lemma ResolvedAreBound(w: World, route: HandlerRoute, s: State)
    requires forall e <- route.routeLevel :: e.Dep? && e.isInternal
    requires ResolvePlan(w, ResolverPlan(route), map[], s).0.Ok?
    ensures
      var deps := ResolvePlan(w, ResolverPlan(route), map[], s).0.value;
      (forall e <- EntriesOf(route.items) :: Supplies(w, e) ==> e.name in deps) &&
      (forall name <- deps :: exists e <- EntriesOf(route.items) :: e.name == name)
  {
    var plan := ResolverPlan(route);
    var deps := ResolvePlan(w, plan, map[], s).0.value;
    forall e <- EntriesOf(route.items) | Supplies(w, e)
      ensures e.name in deps
    {
      assert e in plan;
      ResolvedKeys(w, plan, map[], s, e.name);
    }
    forall name <- deps
      ensures exists e <- EntriesOf(route.items) :: e.name == name
    {
      ResolvedKeys(w, plan, map[], s, name);
      var e :| e in plan && e.name == name && Supplies(w, e);
      assert e in EntriesOf(route.items);
    }
  }

  lemma MergedAreComplete(w: World, items: seq<Item>, taken: Kwargs, deps: Kwargs)
    requires TakenComplete(SpecsOf(items), taken)
    requires forall e <- EntriesOf(items) :: Supplies(w, e) ==> e.name in deps
    requires forall name <- deps :: exists e <- EntriesOf(items) :: e.name == name
    ensures Complete(w, items, taken + deps)
  {
    ItemMembers(items);
    forall i <- items | i.Taken? && i.spec.required
      ensures i.spec.name in taken
    {
      assert i == Taken(i.spec);
    }
    forall i <- items | i.FromEntry? && Supplies(w, i.entry)
      ensures i.entry.name in deps
    {
      assert i == FromEntry(i.entry);
    }
    forall name <- taken + deps
      ensures exists i <- items :: name == if i.Taken? then i.spec.name else i.entry.name
    {
      if name in deps {
        var e :| e in EntriesOf(items) && e.name == name;
        assert FromEntry(e) in items;
      } else {
        var p :| p in SpecsOf(items) && p.name == name;
        assert Taken(p) in items;
      }
    }
  }

  lemma CallIsComplete(w: World, route: HandlerRoute, taken: Kwargs, s: State)
    requires TakenComplete(SpecsOf(route.items), taken)
    requires forall e <- route.routeLevel :: e.Dep? && e.isInternal
    requires ResolvePlan(w, ResolverPlan(route), map[], s).0.Ok?
    ensures Complete(w, route.items, taken + ResolvePlan(w, ResolverPlan(route), map[], s).0.value)
  {
    var deps := ResolvePlan(w, ResolverPlan(route), map[], s).0.value;
    ResolvedAreBound(w, route, s);
    MergedAreComplete(w, route.items, taken, deps);
  }

  // The handler is called only with every required parameter and every
  // dependency bound, and with nothing that is not a parameter.
  lemma HandlerCallIsComplete(w: World, lib: Library, route: HandlerRoute, r: RequestData, s: State)
    requires HonestLibrary(lib) && ModelsPresent(SpecsOf(route.items))
    requires forall e <- route.routeLevel :: e.Dep? && e.isInternal
    ensures
      var deps := ResolvePlan(w, ResolverPlan(route), map[], s).0;
      Acceptable(lib, route, r) && deps.Ok? ==> Complete(w, route.items, TakenKwargs(lib, route, r) + deps.value)
  {
    if Acceptable(lib, route, r) && ResolvePlan(w, ResolverPlan(route), map[], s).0.Ok? {
      TakenAreBound(lib, SpecsOf(route.items), r);
      CallIsComplete(w, route, TakenKwargs(lib, route, r), s);
    }
  }

  // A sub-dependency and the handler that ask for the same parameter are given
  // the same value, or the same error, where the two casts agree, its alias is
  // not empty and no validator objects.
  lemma SharedParameter(w: World, lib: Library, specs: seq<ParamSpec>, r: RequestData, code: ParamError -> nat,
                        n: nat, own: seq<string>)
    requires n < |specs| && w.fromRequest == FromRequestBy(lib, specs, r, code)
    requires
      var p := specs[n];
      p.source in {InPath, InQuery, InHeader, InCookie} && !(p.source.InPath? && IsList(p.kind)) &&
      CastsAgree(lib, p, r) && p.alias != Some("")
    ensures
      match ExtractOne(lib, specs[n], r)
      case Bound(v) => LeafBinding(w, FromRequest(n), own) == Found(v)
      case Default => LeafBinding(w, FromRequest(n), own) == UseDefault
      case Failed(e) => e.Rejected? || LeafBinding(w, FromRequest(n), own) == Bad(code(e))
  {
    ExtractorsAgree(lib, specs[n], r);
  }

  // ---- a teardown that stays incomplete -----------------------------------

  // A route-level dependency that only makes a generator.
  function Opener(c: Callable): Entry {
    Dep("", c, false, [], false, true, [])
  }

  // The generator that a call of `c` opens, when there are `id` already.
  function OpenedAs(w: World, c: Callable, id: nat): Generator
    requires w.script(c, map[], id).Yields?
  {
    var y := w.script(c, map[], id);
    Generator(id, y.kind, y.onNext, y.onThrow)
  }

  function AfterOpening(w: World, c: Callable, s: State): State
    requires w.script(c, map[], |s.gens|).Yields?
  {
    s.(log := s.log + [c], gens := s.gens + [OpenedAs(w, c, |s.gens|)], trace := s.trace + [Opened(|s.gens|)])
  }

  lemma OpenerOpens(w: World, c: Callable, rest: seq<Entry>, s: State)
    requires w.overrides == map[] && w.call(c, map[]).Ok? && w.script(c, map[], |s.gens|).Yields?
    ensures ResolvePlan(w, [Opener(c)] + rest, map[], s) == ResolvePlan(w, rest, map[], AfterOpening(w, c, s))
  {
    var plan, gen := [Opener(c)] + rest, OpenedAs(w, c, |s.gens|);
    assert plan[1..] == rest;
    assert OpenEvents([gen]) == [Opened(|s.gens|)];
    assert ResolveSubs(w, [], [], map[], s) == (Ok(map[]), s);
    assert ResolveDep(w, Opener(c), [], s) == (Ok(w.call(c, map[]).value), AfterOpening(w, c, s));
  }

  lemma ThreeOpen(w: World, c: Callable)
    requires w.overrides == map[] && w.call(c, map[]).Ok? && forall id :: 0 <= id < 3 ==> w.script(c, map[], id).Yields?
    ensures
      var (r, t) := ResolvePlan(w, [Opener(c), Opener(c), Opener(c)], map[], START);
      r == Ok(map[]) && t.gens == [OpenedAs(w, c, 0), OpenedAs(w, c, 1), OpenedAs(w, c, 2)] &&
      t.trace == [Opened(0), Opened(1), Opened(2)]
  {
    var o := Opener(c);
    var s1 := AfterOpening(w, c, START);
    var s2 := AfterOpening(w, c, s1);
    OpenerOpens(w, c, [o, o], START);
    OpenerOpens(w, c, [o], s1);
    OpenerOpens(w, c, [], s2);
    assert [o] + [o, o] == [o, o, o] && [o] + [o] == [o, o] && [o] + [] == [o];
  }

  // Two drains of three raising generators.
  lemma TwoDrains(a: Generator, b: Generator, c: Generator)
    requires StopsDrain(a) && StopsDrain(b) && StopsDrain(c)
    ensures
      Teardown(Processed([a, b, c]), None) + Teardown(Processed(Remainder([a, b, c])), None) ==
        [Resumed(c.id, None), Closed(c.id), Resumed(b.id, None), Closed(b.id)]
  {
    var all := [a, b, c];
    assert StopIndex(all) == 2 && all[2..] == [c] && all[..2] == [a, b];
    assert StopIndex([a, b]) == 1 && [a, b][1..] == [b];
    assert [c][..0] == [] && [b][..0] == [];
    assert Teardown([c], None) == [Resumed(c.id, None), Closed(c.id)];
    assert Teardown([b], None) == [Resumed(b.id, None), Closed(b.id)];
  }

  lemma BodyOfOpeners(w: World, lib: Library, route: HandlerRoute, r: RequestData, c: Callable)
    requires w.overrides == map[] && w.call(c, map[]).Ok? && forall id :: 0 <= id < 3 ==> w.script(c, map[], id).Yields?
    requires route.routeLevel == [Opener(c), Opener(c), Opener(c)] && route.items == [] && NoErrors(lib, [], r)
    requires w.call(route.handler, map[]).Ok? && w.script(route.handler, map[], 3) == NotAGenerator
    ensures
      var (e, s) := Body(w, lib, route, r, START);
      e.HandlerReturned? && s.gens == [OpenedAs(w, c, 0), OpenedAs(w, c, 1), OpenedAs(w, c, 2)] &&
      s.trace == [Opened(0), Opened(1), Opened(2)]
  {
    ThreeOpen(w, c);
    assert ResolverPlan(route) == route.routeLevel;
    assert TakenKwargs(lib, route, r) + map[] == map[];
    var (deps, t) := ResolvePlan(w, route.routeLevel, map[], START);
    HandlerLeavesNothing(w, route.handler, t);
  }

  lemma HandlerLeavesNothing(w: World, handler: Callable, s: State)
    requires w.call(handler, map[]).Ok? && w.script(handler, map[], |s.gens|) == NotAGenerator
    ensures
      var (v, t) := Called(w, handler, map[], s);
      v.Ok? && t.gens == s.gens && t.trace == s.trace
  {
  }

  // Three synchronous generators that raise after their yield: the first drain
  // stops at the last of them, the second at the one before, and the first one
  // opened is never resumed.
  lemma ThirdIsNotResumed(w: World, lib: Library, route: HandlerRoute, r: RequestData, c: Callable)
    requires w.overrides == map[] && w.call(c, map[]).Ok?
    requires forall id :: 0 <= id < 3 ==>
      var y := w.script(c, map[], id);
      y.Yields? && y.kind.Sync? && y.onNext.Raises?
    requires route.routeLevel == [Opener(c), Opener(c), Opener(c)] && route.items == [] && NoErrors(lib, [], r)
    requires w.call(route.handler, map[]).Ok? && w.script(route.handler, map[], 3) == NotAGenerator
    ensures
      RequestTrace(w, lib, route, r) ==
        [Opened(0), Opened(1), Opened(2)] + [BodyEnded] + [Resumed(2, None), Closed(2), Resumed(1, None), Closed(1)]
  {
    BodyOfOpeners(w, lib, route, r, c);
    TwoDrains(OpenedAs(w, c, 0), OpenedAs(w, c, 1), OpenedAs(w, c, 2));
  }
}
