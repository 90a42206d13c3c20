// One request through _dispatch (crates/fr-pyiface/src/app.rs) and
// _dispatch_async (python/hyperfastapi/applications.py): extraction, dependency
// resolution, the handler, and the teardown of generator dependencies.
module RequestLifecycle {
  import opened Sequences
  import opened Wrappers
  import opened DependencyPlan
  import opened YieldDependencies
  import opened Resolver
  import opened Parameters

  // A parameter of the handler: taken from the request, or resolved.
  datatype Item = Taken(spec: ParamSpec) | FromEntry(entry: Entry)

  datatype HandlerRoute = HandlerRoute(
    routeLevel: seq<Entry>,  // app-level, then route-level dependencies
    items: seq<Item>,
    handler: Callable,
    respond: Value -> Option<Exn>)  // building the response may raise

  datatype Answer =
    | Unprocessable(errors: seq<ParamError>, bodyErrors: seq<BodyError>)  // 422
    | Refused(detail: nat)  // the error a dependency's parameter reported
    | Answered(v: Value)

  // How the part before the teardown ended.
  datatype Ending =
    | NotCalled(a: Answer)          // answered without calling the handler
    | ResolutionRaised(e: Exn)
    | HandlerRaised(e: Exn)
    | HandlerReturned(v: Value)

  // ---- what happens -------------------------------------------------------

  function IfTaken(i: Item): Option<ParamSpec> {
    if i.Taken? then Some(i.spec) else None
  }

  function IfFromEntry(i: Item): Option<Entry> {
    if i.FromEntry? then Some(i.entry) else None
  }

  function SpecsOf(items: seq<Item>): seq<ParamSpec> {
    FilterMap(IfTaken, items)
  }

  function EntriesOf(items: seq<Item>): seq<Entry> {
    FilterMap(IfFromEntry, items)
  }

  function ResolverPlan(route: HandlerRoute): seq<Entry> {
    route.routeLevel + EntriesOf(route.items)
  }

  function ParamErrors(lib: Library, route: HandlerRoute, r: RequestData): seq<ParamError> {
    FilterMap(ErrorIn(lib, r), SpecsOf(route.items))
  }

  function TakenKwargs(lib: Library, route: HandlerRoute, r: RequestData): Kwargs {
    var ps := SpecsOf(route.items);
    BodyKwargs(lib, ps, r, Bind(map[], ps, ValueIn(lib, r)))
  }

  predicate NoErrors(lib: Library, ps: seq<ParamSpec>, r: RequestData) {
    FilterMap(ErrorIn(lib, r), ps) == [] && BodyErrors(lib, ps, r) == []
  }

  predicate Acceptable(lib: Library, route: HandlerRoute, r: RequestData) {
    NoErrors(lib, SpecsOf(route.items), r)
  }

  // Up to the end of the handler.
  function Body(w: World, lib: Library, route: HandlerRoute, r: RequestData, s: State): (Ending, State) {
    if !Acceptable(lib, route, r) then
      (NotCalled(Unprocessable(ParamErrors(lib, route, r), BodyErrors(lib, SpecsOf(route.items), r))), s)
    else Handled(w, route, TakenKwargs(lib, route, r), s)
  }

  // Resolution and the handler, given what was taken from the request.
  function Handled(w: World, route: HandlerRoute, taken: Kwargs, s: State): (Ending, State) {
    var (deps, s1) := ResolvePlan(w, ResolverPlan(route), map[], s);
    match deps
    case Err(Invalid(d)) => (NotCalled(Refused(d)), s1)
    case Err(Raised(e)) => (ResolutionRaised(e), s1)
    case Ok(kwargs) =>
      var (v, s2) := Called(w, route.handler, taken + kwargs, s1);
      match v
      case Ok(x) => (HandlerReturned(x), s2)
      case Err(Raised(e)) => (HandlerRaised(e), s2)
      case Err(Invalid(d)) => (NotCalled(Refused(d)), s2)
  }

  // The exception thrown into the generators.
  function Thrown(e: Ending): Option<Exn> {
    if e.HandlerRaised? then Some(e.e) else None
  }

  // After a handler the drain runs, and what it leaves is drained once more;
  // without a handler call there is only the second drain.
  function TeardownEvents(e: Ending, gens: seq<Generator>): seq<Event> {
    match e
    case HandlerRaised(x) => Teardown(gens, Some(x))
    case HandlerReturned(_) => Teardown(Processed(gens), None) + Teardown(Processed(Remainder(gens)), None)
    case _ => Teardown(Processed(gens), None)
  }

  function ResultOf(route: HandlerRoute, e: Ending): Result<Answer, Exn> {
    match e
    case NotCalled(a) => Ok(a)
    case ResolutionRaised(x) => Err(x)
    case HandlerRaised(x) => Err(x)
    case HandlerReturned(v) => if route.respond(v).Some? then Err(route.respond(v).value) else Ok(Answered(v))
  }

  const START := State(map[], false, [], [], [])

  // ---- the dispatcher -----------------------------------------------------

  ghost predicate AtStart(bg: BgState)
    reads bg
  {
    bg.log == [] && bg.yieldGens == [] && bg.trace == [] && !bg.tasks
  }

  ghost predicate Reflects(bg: BgState, s: State)
    reads bg
  {
    bg.log == s.log && bg.tasks == s.tasks && bg.yieldGens == s.gens && bg.trace == s.trace
  }

  // FastAPI._dispatch, from the matched route to the end of the handler.
  method RunBody(w: World, lib: Library, route: HandlerRoute, r: RequestData, bg: BgState) returns (ending: Ending)
    requires AtStart(bg)
    modifies bg
    ensures ending == Body(w, lib, route, r, START).0
    ensures Reflects(bg, Body(w, lib, route, r, START).1)
  {
    var specs := SpecsOf(route.items);
    var kwargs, errors := ExtractParams(lib, specs, r);
    var bodyErrors;
    kwargs, bodyErrors := ExtractBodyParams(lib, specs, r, kwargs);
    if errors != [] || bodyErrors != [] {
      return NotCalled(Unprocessable(errors, bodyErrors));
    }
    var resolver := new DependencyResolver(bg);
    var deps := resolver.Resolve(w, ResolverPlan(route));
    if deps.Err? {
      match deps.error {
        case Invalid(d) => return NotCalled(Refused(d));
        case Raised(e) => return ResolutionRaised(e);
      }
    }
    kwargs := kwargs + deps.value;
    var result := bg.CallWithAsyncHandling(w, route.handler, kwargs);
    match result {
      case Ok(v) => return HandlerReturned(v);
      case Err(f) => return HandlerRaised(f.e);
    }
  }

  // The rest of it: its own drain, whose error is discarded, and the response.
  method Dispatch(w: World, lib: Library, route: HandlerRoute, r: RequestData, bg: BgState)
    returns (answer: Result<Answer, Exn>, ghost ending: Ending)
    requires AtStart(bg)
    modifies bg
    ensures ending == Body(w, lib, route, r, START).0 && answer == ResultOf(route, ending)
    ensures
      var s := Body(w, lib, route, r, START).1;
      bg.log == s.log && bg.tasks == s.tasks &&
      match ending
      case HandlerRaised(e) =>
        bg.yieldGens == [] && bg.trace == s.trace + [BodyEnded] + Teardown(s.gens, Some(e))
      case HandlerReturned(_) =>
        bg.yieldGens == Remainder(s.gens) && bg.trace == s.trace + [BodyEnded] + Teardown(Processed(s.gens), None)
      case _ => bg.yieldGens == s.gens && bg.trace == s.trace + [BodyEnded]
  {
    var end := RunBody(w, lib, route, r, bg);
    ending := end;
    bg.MarkBodyEnded();
    match end {
      case NotCalled(a) => return Ok(a), end;
      case ResolutionRaised(e) => return Err(e), end;
      case HandlerRaised(e) =>
        var _ := bg.DrainYieldDeps(Some(e));
        return Err(e), end;
      case HandlerReturned(v) =>
        var _ := bg.DrainYieldDeps(None);
        var failure := route.respond(v);
        return if failure.Some? then Err(failure.value) else Ok(Answered(v)), end;
    }
  }

  // FastAPI._dispatch_async: a fresh stack before, and whatever is left of it
  // drained after, with errors ignored.
  method DispatchAsync(w: World, lib: Library, route: HandlerRoute, r: RequestData, bg: BgState)
    returns (answer: Result<Answer, Exn>)
    requires bg.log == [] && bg.trace == []
    modifies bg
    ensures
      var (ending, s) := Body(w, lib, route, r, START);
      answer == ResultOf(route, ending) && bg.log == s.log &&
      bg.trace == s.trace + [BodyEnded] + TeardownEvents(ending, s.gens)
    ensures bg.yieldGens == [] && !bg.tasks
  {
    bg.Reset();
    ghost var ending;
    answer, ending := Dispatch(w, lib, route, r, bg);
    ghost var s := Body(w, lib, route, r, START).1;
    ghost var before, left := bg.trace, bg.yieldGens;
    if bg.yieldGens != [] {
      var _ := bg.DrainYieldDeps(None);
    }
    assert bg.trace == before + Teardown(Processed(left), None);
    if ending.HandlerReturned? {
      Assoc(s.trace + [BodyEnded], Teardown(Processed(s.gens), None), Teardown(Processed(left), None));
    }
    bg.Reset();
  }
}
