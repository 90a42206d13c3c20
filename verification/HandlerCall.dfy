// What the handler of a request is called with, and what comes of it.
module HandlerCall {
  import opened Sequences
  import opened Wrappers
  import opened DependencyPlan
  import opened YieldDependencies
  import opened Resolver
  import opened Memoisation
  import opened UseAgreement
  import opened CallSequence
  import opened Parameters
  import opened ExtractionLaws
  import opened RequestLifecycle
  import opened RequestGuarantees

  // ---- names --------------------------------------------------------------

  function NameOf(i: Item): string {
    match i
    case Taken(spec) => spec.name
    case FromEntry(entry) => entry.name
  }

  // The parameters of a handler have different names.
  predicate ItemsApart(items: seq<Item>) {
    forall i, j :: 0 <= i < j < |items| ==> NameOf(items[i]) != NameOf(items[j])
  }

  predicate SpecsApart(ps: seq<ParamSpec>) {
    forall i, j :: 0 <= i < j < |ps| ==> ps[i].name != ps[j].name
  }

  lemma {:induction false} SpecsAreApart(items: seq<Item>)
    requires ItemsApart(items)
    ensures SpecsApart(SpecsOf(items))
  {
    if items != [] {
      var n := |items| - 1;
      SpecsAreApart(items[..n]);
      forall p <- SpecsOf(items[..n])
        ensures p.name != NameOf(items[n])
      {
        FilterMapMembers(IfTaken, items[..n], p);
      }
    }
  }

  lemma {:induction false} BodiesAreApart(ps: seq<ParamSpec>)
    requires SpecsApart(ps)
    ensures SpecsApart(BodyParams(ps))
  {
    if ps != [] {
      var n := |ps| - 1;
      BodiesAreApart(ps[..n]);
      forall p <- BodyParams(ps[..n])
        ensures p.name != ps[n].name
      {
        BodyParamsAre(ps[..n], p);
      }
    }
  }

  // ---- what binding leaves under a name -----------------------------------

  lemma {:induction false} BindIs(before: Kwargs, ps: seq<ParamSpec>, f: ParamSpec -> Option<Value>, p: ParamSpec)
    requires SpecsApart(ps) && p in ps
    ensures
      var all := Bind(before, ps, f);
      match f(p)
      case Some(v) => p.name in all && all[p.name] == v
      case None => (p.name in all <==> p.name in before) && (p.name in all ==> all[p.name] == before[p.name])
    decreases |ps|
  {
    var n := |ps| - 1;
    if p == ps[n] {
      BindKeeps(before, ps[..n], f, p.name);
    } else {
      assert p in ps[..n];
      BindIs(before, ps[..n], f, p);
    }
  }

  lemma {:induction false} BindKeeps(before: Kwargs, ps: seq<ParamSpec>, f: ParamSpec -> Option<Value>, name: string)
    requires forall p <- ps :: p.name != name
    ensures
      var all := Bind(before, ps, f);
      (name in all <==> name in before) && (name in all ==> all[name] == before[name])
    decreases |ps|
  {
    if ps != [] {
      BindKeeps(before, ps[..|ps| - 1], f, name);
    }
  }

  // The value, if any, of each body parameter, by the layout of the body.
  ghost predicate BodyGives(lib: Library, ps: seq<ParamSpec>, body: string, p: ParamSpec, value: Option<Value>) {
    exists errors ::
      if OnlyBody(ps, p) then WholeIs(lib, p, body, value, errors) else EnvelopeIs(lib, p, body, value, errors)
  }

  // A parameter taken from the request is under its name, or not there.
  ghost predicate TakenRightly(lib: Library, ps: seq<ParamSpec>, r: RequestData, p: ParamSpec, kwargs: Kwargs) {
    if p.source == InBody then
      BodyGives(lib, ps, r.body, p, if p.name in kwargs then Some(kwargs[p.name]) else None)
    else
      match ExtractOne(lib, p, r)
      case Bound(v) => p.name in kwargs && kwargs[p.name] == v
      case Default => p.name !in kwargs
      case Failed(_) => false
  }

  lemma OnlyBodyIs(ps: seq<ParamSpec>, p: ParamSpec, q: ParamSpec)
    requires OnlyBody(ps, q) && p in ps && p.source == InBody
    ensures p == q
  {
  }

  lemma BodyEntryGives(lib: Library, ps: seq<ParamSpec>, body: string, p: ParamSpec)
    requires p in ps && p.source == InBody
    ensures BodyGives(lib, ps, body, p, BodyEntry(lib, body, ModeOf(lib, BodyParams(ps), body), p).0)
  {
    if NeedsEnvelope(ps) {
      EnvelopeModes(lib, ps, body, p);
    } else {
      var q :| q in ps && OnlyBody(ps, q);
      OnlyBodyIs(ps, p, q);
      OnlyBodyParam(ps, p);
      BodyEntryIs(lib, [p], body, p);
    }
  }

  lemma BodyTakenRightly(lib: Library, ps: seq<ParamSpec>, r: RequestData, p: ParamSpec, first: Kwargs)
    requires SpecsApart(ps) && p in ps && p.source == InBody && p.name !in first
    ensures TakenRightly(lib, ps, r, p, BodyKwargs(lib, ps, r, first))
  {
    var mode := ModeOf(lib, BodyParams(ps), r.body);
    BodiesAreApart(ps);
    BodyParamsAre(ps, p);
    BindIs(first, BodyParams(ps), BodyValue(lib, r.body, mode), p);
    BodyEntryGives(lib, ps, r.body, p);
  }

  lemma OtherTakenRightly(lib: Library, ps: seq<ParamSpec>, r: RequestData, p: ParamSpec, first: Kwargs)
    requires SpecsApart(ps) && p in ps && p.source != InBody && !ExtractOne(lib, p, r).Failed?
    requires
      match ExtractOne(lib, p, r)
      case Bound(v) => p.name in first && first[p.name] == v
      case _ => p.name !in first
    ensures TakenRightly(lib, ps, r, p, BodyKwargs(lib, ps, r, first))
  {
    forall q <- BodyParams(ps)
      ensures q.name != p.name
    {
      BodyParamsAre(ps, q);
    }
    BindKeeps(first, BodyParams(ps), BodyValue(lib, r.body, ModeOf(lib, BodyParams(ps), r.body)), p.name);
  }

  lemma NoneFails(lib: Library, ps: seq<ParamSpec>, r: RequestData, p: ParamSpec)
    requires NoErrors(lib, ps, r) && p in ps
    ensures !ExtractOne(lib, p, r).Failed?
  {
    FilterMapEmpty(ErrorIn(lib, r), ps);
    assert ErrorIn(lib, r)(p).None?;
  }

  lemma AllTakenRightly(lib: Library, ps: seq<ParamSpec>, r: RequestData, p: ParamSpec)
    requires SpecsApart(ps) && p in ps && NoErrors(lib, ps, r)
    ensures TakenRightly(lib, ps, r, p, BodyKwargs(lib, ps, r, Bind(map[], ps, ValueIn(lib, r))))
  {
    var first := Bind(map[], ps, ValueIn(lib, r));
    BindIs(map[], ps, ValueIn(lib, r), p);
    NoneFails(lib, ps, r, p);
    if p.source == InBody {
      BodyTakenRightly(lib, ps, r, p, first);
    } else {
      OtherTakenRightly(lib, ps, r, p, first);
    }
  }

  // ---- the call -----------------------------------------------------------

  // A dependency's argument is what resolution has under its name.
  predicate SuppliedRightly(w: World, e: Entry, deps: Kwargs, kwargs: Kwargs) {
    if Supplies(w, e) then e.name in deps && e.name in kwargs && kwargs[e.name] == deps[e.name]
    else e.name !in kwargs
  }

  ghost predicate ArgumentsAre(w: World, lib: Library, route: HandlerRoute, r: RequestData, deps: Kwargs, kwargs: Kwargs) {
    (forall i <- route.items ::
       match i
       case Taken(p) => TakenRightly(lib, SpecsOf(route.items), r, p, kwargs)
       case FromEntry(e) => SuppliedRightly(w, e, deps, kwargs)) &&
    (forall name <- kwargs :: exists i <- route.items :: name == NameOf(i))
  }

  lemma {:induction false} ExpandedAreInternal(g: Graph, entries: seq<Entry>, markers: seq<Marker>, names: seq<string>)
    requires |names| == |markers| && Expanded(g, entries, markers, names)
    ensures forall e <- entries :: e.Dep? && e.isInternal
  {
    forall k | 0 <= k < |entries|
      ensures entries[k].Dep? && entries[k].isInternal
    {
      assert Stands(g, entries[k], Usable(markers, names)[k].0, Usable(markers, names)[k].1);
    }
  }

  lemma SameItem(items: seq<Item>, i: Item, j: Item)
    requires ItemsApart(items) && i in items && j in items && NameOf(i) == NameOf(j)
    ensures i == j
  {
  }

  // Only names of dependencies, or only names of other parameters.
  predicate NamesFromEntries(items: seq<Item>, kwargs: Kwargs) {
    forall name <- kwargs :: exists e <- EntriesOf(items) :: e.name == name
  }

  predicate NamesFromSpecs(items: seq<Item>, kwargs: Kwargs) {
    forall name <- kwargs :: exists p <- SpecsOf(items) :: p.name == name
  }

  lemma NotADependency(items: seq<Item>, deps: Kwargs, p: ParamSpec)
    requires ItemsApart(items) && Taken(p) in items && NamesFromEntries(items, deps)
    ensures p.name !in deps
  {
    if p.name in deps {
      var e :| e in EntriesOf(items) && e.name == p.name;
      FilterMapMembers(IfFromEntry, items, e);
      SameItem(items, Taken(p), FromEntry(e));
      assert false;
    }
  }

  lemma NotTaken(items: seq<Item>, taken: Kwargs, e: Entry)
    requires ItemsApart(items) && FromEntry(e) in items && NamesFromSpecs(items, taken)
    ensures e.name !in taken
  {
    if e.name in taken {
      var p :| p in SpecsOf(items) && p.name == e.name;
      FilterMapMembers(IfTaken, items, p);
      SameItem(items, Taken(p), FromEntry(e));
      assert false;
    }
  }

  lemma SuppliedIff(w: World, route: HandlerRoute, s: State, e: Entry)
    requires ItemsApart(route.items) && FromEntry(e) in route.items
    requires forall x <- route.routeLevel :: x.Dep? && x.isInternal
    requires ResolvePlan(w, ResolverPlan(route), map[], s).0.Ok?
    ensures e.name in ResolvePlan(w, ResolverPlan(route), map[], s).0.value <==> Supplies(w, e)
  {
    var plan := ResolverPlan(route);
    FilterMapMembers(IfFromEntry, route.items, e);
    ResolvedKeys(w, plan, map[], s, e.name);
    if x :| x in plan && x.name == e.name && Supplies(w, x) {
      FilterMapMembers(IfFromEntry, route.items, x);
      SameItem(route.items, FromEntry(e), FromEntry(x));
    }
  }

  // Adding what was resolved to what was taken changes neither.
  lemma TakenSurvives(lib: Library, ps: seq<ParamSpec>, r: RequestData, p: ParamSpec, taken: Kwargs, deps: Kwargs)
    requires p.name !in deps && TakenRightly(lib, ps, r, p, taken)
    ensures TakenRightly(lib, ps, r, p, taken + deps)
  {
    var all := taken + deps;
    assert (p.name in all <==> p.name in taken) && (p.name in all ==> all[p.name] == taken[p.name]);
  }

  lemma SuppliedMerges(w: World, e: Entry, taken: Kwargs, deps: Kwargs)
    requires e.name !in taken && (e.name in deps <==> Supplies(w, e))
    ensures SuppliedRightly(w, e, deps, taken + deps)
  {
  }

  lemma NamesMerge(items: seq<Item>, taken: Kwargs, deps: Kwargs, name: string) returns (i: Item)
    requires NamesFromSpecs(items, taken) && NamesFromEntries(items, deps) && name in taken + deps
    ensures i in items && NameOf(i) == name
  {
    if name in deps {
      var e :| e in EntriesOf(items) && e.name == name;
      FilterMapMembers(IfFromEntry, items, e);
      i := FromEntry(e);
    } else {
      var p :| p in SpecsOf(items) && p.name == name;
      FilterMapMembers(IfTaken, items, p);
      i := Taken(p);
    }
  }

  lemma ItemMerges(w: World, lib: Library, route: HandlerRoute, r: RequestData, taken: Kwargs, deps: Kwargs, i: Item)
    requires ItemsApart(route.items) && NamesFromSpecs(route.items, taken) && NamesFromEntries(route.items, deps)
    requires forall p <- SpecsOf(route.items) :: TakenRightly(lib, SpecsOf(route.items), r, p, taken)
    requires forall e <- EntriesOf(route.items) :: e.name in deps <==> Supplies(w, e)
    requires i in route.items
    ensures
      match i
      case Taken(p) => TakenRightly(lib, SpecsOf(route.items), r, p, taken + deps)
      case FromEntry(e) => SuppliedRightly(w, e, deps, taken + deps)
  {
    match i
    case Taken(p) =>
      FilterMapMembers(IfTaken, route.items, p);
      NotADependency(route.items, deps, p);
      TakenSurvives(lib, SpecsOf(route.items), r, p, taken, deps);
    case FromEntry(e) =>
      FilterMapMembers(IfFromEntry, route.items, e);
      NotTaken(route.items, taken, e);
      SuppliedMerges(w, e, taken, deps);
  }

  lemma ArgumentsMerge(w: World, lib: Library, route: HandlerRoute, r: RequestData, taken: Kwargs, deps: Kwargs)
    requires ItemsApart(route.items) && NamesFromSpecs(route.items, taken) && NamesFromEntries(route.items, deps)
    requires forall p <- SpecsOf(route.items) :: TakenRightly(lib, SpecsOf(route.items), r, p, taken)
    requires forall e <- EntriesOf(route.items) :: e.name in deps <==> Supplies(w, e)
    ensures ArgumentsAre(w, lib, route, r, deps, taken + deps)
  {
    forall i <- route.items
      ensures
        match i
        case Taken(p) => TakenRightly(lib, SpecsOf(route.items), r, p, taken + deps)
        case FromEntry(e) => SuppliedRightly(w, e, deps, taken + deps)
    {
      ItemMerges(w, lib, route, r, taken, deps, i);
    }
    forall name <- taken + deps
      ensures exists i <- route.items :: name == NameOf(i)
    {
      var i := NamesMerge(route.items, taken, deps, name);
    }
  }

  lemma ArgumentsOf(w: World, lib: Library, route: HandlerRoute, r: RequestData, s: State)
    requires HonestLibrary(lib) && ModelsPresent(SpecsOf(route.items)) && ItemsApart(route.items)
    requires forall e <- route.routeLevel :: e.Dep? && e.isInternal
    requires Acceptable(lib, route, r) && ResolvePlan(w, ResolverPlan(route), map[], s).0.Ok?
    ensures
      var deps := ResolvePlan(w, ResolverPlan(route), map[], s).0.value;
      ArgumentsAre(w, lib, route, r, deps, TakenKwargs(lib, route, r) + deps)
  {
    var ps := SpecsOf(route.items);
    TakenAreBound(lib, ps, r);
    ResolvedAreBound(w, route, s);
    SpecsAreApart(route.items);
    forall p <- ps
      ensures TakenRightly(lib, ps, r, p, TakenKwargs(lib, route, r))
    {
      AllTakenRightly(lib, ps, r, p);
    }
    forall e <- EntriesOf(route.items)
      ensures e.name in ResolvePlan(w, ResolverPlan(route), map[], s).0.value <==> Supplies(w, e)
    {
      FilterMapMembers(IfFromEntry, route.items, e);
      SuppliedIff(w, route, s, e);
    }
    ArgumentsMerge(w, lib, route, r, TakenKwargs(lib, route, r), ResolvePlan(w, ResolverPlan(route), map[], s).0.value);
  }

  // How a request ends once its handler was called.
  predicate EndsWith(w: World, c: Callable, kwargs: Kwargs, e: Ending) {
    match w.call(c, kwargs)
    case Ok(v) => e == HandlerReturned(v)
    case Err(x) => e == HandlerRaised(x)
  }

  // Whenever a handler ran, it was called once, last, and with these arguments:
  // every parameter has its value from the request, every dependency what
  // resolution made of it, and there is nothing else.  The request ends with
  // what it returned or raised.
  lemma HandlerIsCalledWith(w: World, lib: Library, route: HandlerRoute, r: RequestData,
                            g: Graph, markers: seq<Marker>, names: seq<string>) returns (kwargs: Kwargs)
    requires HonestLibrary(lib) && ModelsPresent(SpecsOf(route.items)) && ItemsApart(route.items)
    requires |names| == |markers| && Expanded(g, route.routeLevel, markers, names)
    requires
      var e := Body(w, lib, route, r, START).0;
      e.HandlerReturned? || e.HandlerRaised?
    ensures
      var (deps, t) := ResolvePlan(w, ResolverPlan(route), map[], START);
      deps.Ok? && ArgumentsAre(w, lib, route, r, deps.value, kwargs) && Complete(w, route.items, kwargs) &&
      EndsWith(w, route.handler, kwargs, Body(w, lib, route, r, START).0) &&
      Body(w, lib, route, r, START).1.log == t.log + [route.handler]
  {
    ExpandedAreInternal(g, route.routeLevel, markers, names);
    CalledIsHandled(w, lib, route, r);
    kwargs := TakenKwargs(lib, route, r) + ResolvePlan(w, ResolverPlan(route), map[], START).0.value;
    ArgumentsOf(w, lib, route, r, START);
    HandlerCallIsComplete(w, lib, route, r, START);
  }

  lemma CalledIsHandled(w: World, lib: Library, route: HandlerRoute, r: RequestData)
    requires
      var e := Body(w, lib, route, r, START).0;
      e.HandlerReturned? || e.HandlerRaised?
    ensures Acceptable(lib, route, r)
    ensures
      var (deps, t) := ResolvePlan(w, ResolverPlan(route), map[], START);
      deps.Ok? &&
      EndsWith(w, route.handler, TakenKwargs(lib, route, r) + deps.value, Body(w, lib, route, r, START).0) &&
      Body(w, lib, route, r, START).1.log == t.log + [route.handler]
  {
    HandledEnds(w, route, TakenKwargs(lib, route, r), START);
  }

  // ---- the values of dependencies -----------------------------------------

  // Entries that bind have different names.
  predicate Binds(e: Entry) {
    match e
    case Leaf(_, source) => source.BackgroundTasks? || source.RequestObject?
    case Dep(_, _, _, _, _, isInternal, _) => !isInternal
  }

  predicate BindersApart(plan: seq<Entry>) {
    forall i, j :: 0 <= i < j < |plan| && Binds(plan[i]) && Binds(plan[j]) ==> plan[i].name != plan[j].name
  }

  // The tasks, the request if there is one, or what plain evaluation makes of the
  // dependency.  An internal one is evaluated too.
  predicate ArgumentIs(w: World, e: Entry, all: Kwargs) {
    match e
    case Leaf(name, BackgroundTasks) => name in all && all[name] == TasksValue
    case Leaf(name, RequestObject) => w.hasRequest ==> name in all && all[name] == RequestValue
    case Leaf(_, _) => true
    case Dep(name, _, _, scopes, _, isInternal, _) =>
      if isInternal then Eval(w, e, scopes).Ok? else name in all && Eval(w, e, scopes) == Ok(all[name])
  }

  lemma {:induction false} PlanKeeps(w: World, plan: seq<Entry>, out: Kwargs, name: string)
    requires EvalPlan(w, plan, out).Ok? && name in out && forall e <- plan :: Binds(e) ==> e.name != name
    ensures name in EvalPlan(w, plan, out).value && EvalPlan(w, plan, out).value[name] == out[name]
    decreases plan
  {
    if plan != [] {
      assert plan[0] in plan;
      PlanKeeps(w, plan[1..], AfterEntry(w, plan[0], out), name);
    }
  }

  // The arguments so far and that of one more entry.
  function AfterEntry(w: World, e: Entry, out: Kwargs): Kwargs
    requires e.Dep? ==> Eval(w, e, e.scopes).Ok?
  {
    match e
    case Leaf(name, BackgroundTasks) => out[name := TasksValue]
    case Leaf(name, RequestObject) => if w.hasRequest then out[name := RequestValue] else out
    case Leaf(_, _) => out
    case Dep(name, _, _, scopes, _, isInternal, _) =>
      if isInternal then out else out[name := Eval(w, e, scopes).value]
  }

  lemma {:induction false} PlanGives(w: World, plan: seq<Entry>, out: Kwargs, e: Entry)
    requires EvalPlan(w, plan, out).Ok? && BindersApart(plan) && e in plan
    ensures ArgumentIs(w, e, EvalPlan(w, plan, out).value)
    decreases plan
  {
    var after := AfterEntry(w, plan[0], out);
    assert EvalPlan(w, plan, out) == EvalPlan(w, plan[1..], after);
    if e in plan[1..] {
      PlanGives(w, plan[1..], after, e);
    } else if Binds(e) && e.name in after {
      PlanKeeps(w, plan[1..], after, e.name);
    }
  }

  // Where the uses of each callable agree, every dependency's argument is what
  // plain evaluation of its entry gives.
  lemma DependencyArgumentIs(w: World, route: HandlerRoute, s: State, e: Entry)
    requires Fresh(s) && RootsWellNamed(ResolverPlan(route)) && UsesOfPlanAgree(w.overrides, ResolverPlan(route))
    requires BindersApart(ResolverPlan(route)) && e in ResolverPlan(route)
    requires ResolvePlan(w, ResolverPlan(route), map[], s).0.Ok?
    ensures ArgumentIs(w, e, ResolvePlan(w, ResolverPlan(route), map[], s).0.value)
  {
    AgreeingUsesAreTransparent(w, ResolverPlan(route), s);
    PlanGives(w, ResolverPlan(route), map[], e);
  }

  // ---- the other endings --------------------------------------------------

  // Resolution and the handler, given what was taken.
  lemma HandledEnds(w: World, route: HandlerRoute, taken: Kwargs, s: State)
    ensures
      var (deps, t) := ResolvePlan(w, ResolverPlan(route), map[], s);
      var (e, u) := Handled(w, route, taken, s);
      match deps
      case Err(Invalid(d)) => e == NotCalled(Refused(d)) && u == t
      case Err(Raised(x)) => e == ResolutionRaised(x) && u == t
      case Ok(kwargs) => EndsWith(w, route.handler, taken + kwargs, e) && u.log == t.log + [route.handler]
  {
  }

  // A request with errors is answered with all of them, in order, before
  // anything is resolved or called.
  lemma ErrorsAreAnswered(w: World, lib: Library, route: HandlerRoute, r: RequestData) returns (errors: seq<ParamError>)
    ensures ListsErrors(lib, SpecsOf(route.items), r, errors)
    ensures
      var bodyErrors := BodyErrors(lib, SpecsOf(route.items), r);
      if errors != [] || bodyErrors != [] then
        Body(w, lib, route, r, START) == (NotCalled(Unprocessable(errors, bodyErrors)), START)
      else Body(w, lib, route, r, START) == Handled(w, route, TakenKwargs(lib, route, r), START)
  {
    errors := ParamErrors(lib, route, r);
    ErrorsAreListed(lib, SpecsOf(route.items), r);
  }

  // What goes out: the answer of a request that was not called, the exception of
  // one that raised, or the response made of the handler's value.
  lemma AnswerIs(route: HandlerRoute, e: Ending)
    ensures
      match e
      case NotCalled(a) => ResultOf(route, e) == Ok(a)
      case ResolutionRaised(x) => ResultOf(route, e) == Err(x)
      case HandlerRaised(x) => ResultOf(route, e) == Err(x)
      case HandlerReturned(v) =>
        match route.respond(v)
        case Some(x) => ResultOf(route, e) == Err(x)
        case None => ResultOf(route, e) == Ok(Answered(v))
  {
  }

  // ---- the calls of a request ---------------------------------------------

  // Route-level dependencies come first, then those of the handler, then the
  // handler; a request that does not get to its handler made some first ones of
  // these calls.
  lemma RequestCalls(w: World, lib: Library, route: HandlerRoute, r: RequestData)
    ensures
      var (e, s) := Body(w, lib, route, r, START);
      var level := CallsIn(w.overrides, route.routeLevel, {});
      var own := CallsIn(w.overrides, EntriesOf(route.items), level.known);
      if e.HandlerReturned? || e.HandlerRaised? then s.log == level.made + own.made + [route.handler]
      else s.log <= level.made + own.made
  {
    var level := CallsIn(w.overrides, route.routeLevel, {});
    var own := CallsIn(w.overrides, EntriesOf(route.items), level.known);
    CallsConcat(w.overrides, route.routeLevel, EntriesOf(route.items), {});
    PlanCalls(w, ResolverPlan(route), map[], START);
    HandledEnds(w, route, TakenKwargs(lib, route, r), START);
    assert START.cache.Keys == {} && [] + (level.made + own.made) == level.made + own.made;
  }

  // ---- background tasks ---------------------------------------------------

  lemma {:induction false} DepKeepsTasks(w: World, e: Entry, parent: seq<string>, s: State)
    requires e.Dep?
    ensures ResolveDep(w, e, parent, s).1.tasks == s.tasks
    decreases e
  {
    if !e.securityClass {
      SubsKeepTasks(w, e.plan, OwnScopes(e, parent), map[], s);
    }
  }

  lemma {:induction false} SubsKeepTasks(w: World, subs: seq<Entry>, own: seq<string>, kwargs: Kwargs, s: State)
    ensures ResolveSubs(w, subs, own, kwargs, s).1.tasks == s.tasks
    decreases subs
  {
    if subs != [] {
      match subs[0]
      case Leaf(name, source) =>
        match LeafBinding(w, source, own) {
          case Bad(_) =>
          case UseDefault => SubsKeepTasks(w, subs[1..], own, kwargs, s);
          case Found(v) => SubsKeepTasks(w, subs[1..], own, kwargs[name := v], s);
        }
      case Dep(name, _, _, _, _, _, _) =>
        DepKeepsTasks(w, subs[0], own, s);
        var (r, t) := ResolveDep(w, subs[0], own, s);
        if r.Ok? {
          SubsKeepTasks(w, subs[1..], own, kwargs[name := r.value], t);
        }
    }
  }

  // A tasks object is made iff the handler asks for one.
  lemma {:induction false} TasksAreMadeIff(w: World, plan: seq<Entry>, out: Kwargs, s: State)
    requires ResolvePlan(w, plan, out, s).0.Ok?
    ensures ResolvePlan(w, plan, out, s).1.tasks <==>
      s.tasks || exists e <- plan :: e.Leaf? && e.source == BackgroundTasks
    decreases plan
  {
    if plan != [] {
      assert plan == [plan[0]] + plan[1..];
      match plan[0]
      case Leaf(n, source) =>
        match source {
          case BackgroundTasks =>
            TasksAreMadeIff(w, plan[1..], out[n := TasksValue], s.(tasks := true));
          case RequestObject => TasksAreMadeIff(w, plan[1..], if w.hasRequest then out[n := RequestValue] else out, s);
          case _ => TasksAreMadeIff(w, plan[1..], out, s);
        }
      case Dep(n, _, _, scopes, _, isInternal, _) =>
        DepKeepsTasks(w, plan[0], scopes, s);
        var (r, t) := ResolveDep(w, plan[0], scopes, s);
        TasksAreMadeIff(w, plan[1..], if isInternal then out else out[n := r.value], t);
    }
  }
}
