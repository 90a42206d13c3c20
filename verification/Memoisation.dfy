// The memo table changes no result, and runs every callable once, in order.
module Memoisation {
  import opened Wrappers
  import opened DependencyPlan
  import opened YieldDependencies
  import opened Resolver

  // ---- plain recursive evaluation -----------------------------------------

  function CallResult(w: World, c: Callable, kwargs: Kwargs): Result<Value, Failure> {
    match w.call(c, kwargs)
    case Err(e) => Err(Raised(e))
    case Ok(v) => Ok(v)
  }

  function SecurityResult(w: World, c: Callable): Result<Value, Failure> {
    match w.security(c)
    case Err(e) => Err(Raised(e))
    case Ok(v) => Ok(v)
  }

  function Eval(w: World, e: Entry, parent: seq<string>): Result<Value, Failure>
    requires e.Dep?
    decreases e
  {
    var c := Overridden(w.overrides, e.callable);
    if e.securityClass then SecurityResult(w, c)
    else
      match EvalSubs(w, e.plan, OwnScopes(e, parent), map[])
      case Err(f) => Err(f)
      case Ok(kwargs) => CallResult(w, c, kwargs)
  }

  function EvalSubs(w: World, subs: seq<Entry>, own: seq<string>, kwargs: Kwargs): Result<Kwargs, Failure>
    decreases subs
  {
    if subs == [] then Ok(kwargs)
    else
      match subs[0]
      case Leaf(name, source) =>
        (match LeafBinding(w, source, own)
         case Bad(d) => Err(Invalid(d))
         case UseDefault => EvalSubs(w, subs[1..], own, kwargs)
         case Found(v) => EvalSubs(w, subs[1..], own, kwargs[name := v]))
      case Dep(name, _, _, _, _, _, _) =>
        match Eval(w, subs[0], own)
        case Err(f) => Err(f)
        case Ok(v) => EvalSubs(w, subs[1..], own, kwargs[name := v])
  }

  function EvalPlan(w: World, plan: seq<Entry>, out: Kwargs): Result<Kwargs, Failure>
    decreases plan
  {
    if plan == [] then Ok(out)
    else
      match plan[0]
      case Leaf(name, source) =>
        (match source
         case BackgroundTasks => EvalPlan(w, plan[1..], out[name := TasksValue])
         case RequestObject => EvalPlan(w, plan[1..], if w.hasRequest then out[name := RequestValue] else out)
         case _ => EvalPlan(w, plan[1..], out))
      case Dep(name, _, _, scopes, _, isInternal, _) =>
        match Eval(w, plan[0], scopes)
        case Err(f) => Err(f)
        case Ok(v) => EvalPlan(w, plan[1..], if isInternal then out else out[name := v])
  }

  // ---- occurrences of callables in a forest -------------------------------

  // The plan reads the scopes of the dependency it belongs to.
  predicate UsesScopes(subs: seq<Entry>)
    decreases subs
  {
    subs != [] && (EntryUsesScopes(subs[0]) || UsesScopes(subs[1..]))
  }

  predicate EntryUsesScopes(e: Entry)
    decreases e
  {
    match e
    case Leaf(_, source) => source.SecurityScopes?
    case Dep(_, _, _, scopes, securityClass, _, plan) => !securityClass && scopes == [] && UsesScopes(plan)
  }

  // What a call of `c` depends on besides the request: its sub-plan and, if
  // that reads them, the scopes in effect.
  datatype Occurrence = Occurrence(c: Callable, plan: seq<Entry>, scopes: seq<string>, security: bool)

  function OccurrenceOf(overrides: Overrides, e: Entry, parent: seq<string>): Occurrence
    requires e.Dep?
  {
    var c := Overridden(overrides, e.callable);
    if e.securityClass then Occurrence(c, [], [], true)
    else Occurrence(c, e.plan, if UsesScopes(e.plan) then OwnScopes(e, parent) else [], false)
  }

  function Occurrences(overrides: Overrides, e: Entry, parent: seq<string>): set<Occurrence>
    requires e.Dep?
    decreases e
  {
    {OccurrenceOf(overrides, e, parent)} +
    if e.securityClass then {} else OccurrencesIn(overrides, e.plan, OwnScopes(e, parent))
  }

  function OccurrencesIn(overrides: Overrides, subs: seq<Entry>, own: seq<string>): set<Occurrence>
    decreases subs
  {
    if subs == [] then {}
    else (if subs[0].Dep? then Occurrences(overrides, subs[0], own) else {}) + OccurrencesIn(overrides, subs[1..], own)
  }

  // The occurrences of the handler's plan; each root starts from its own scopes.
  function OccurrencesOfPlan(overrides: Overrides, plan: seq<Entry>): set<Occurrence>
    decreases plan
  {
    if plan == [] then {}
    else (if plan[0].Dep? then Occurrences(overrides, plan[0], plan[0].scopes) else {}) + OccurrencesOfPlan(overrides, plan[1..])
  }

  // The memo key, the callable after overrides, determines the sub-plan.
  predicate SamePlans(u: set<Occurrence>) {
    forall a, b :: a in u && b in u && a.c == b.c ==> a.plan == b.plan && a.security == b.security
  }

  // Any two uses of a callable that reads the scopes have the same in effect.
  predicate SameScopes(u: set<Occurrence>) {
    forall a, b :: a in u && b in u && a.c == b.c ==> a.scopes == b.scopes
  }

  // So the memo key determines the occurrence.
  predicate Consistent(u: set<Occurrence>) {
    SamePlans(u) && SameScopes(u)
  }

  // An occurrence holds scopes only if its plan uses them.
  predicate Sparing(u: set<Occurrence>) {
    forall o <- u :: o.scopes != [] ==> !o.security && UsesScopes(o.plan)
  }

  lemma {:induction false} ScopesOnlyIfUsed(overrides: Overrides, plan: seq<Entry>)
    ensures Sparing(OccurrencesOfPlan(overrides, plan))
    decreases plan
  {
    if plan != [] {
      if plan[0].Dep? {
        SparingBelow(overrides, plan[0], plan[0].scopes);
      }
      ScopesOnlyIfUsed(overrides, plan[1..]);
    }
  }

  lemma {:induction false} SparingBelow(overrides: Overrides, e: Entry, parent: seq<string>)
    requires e.Dep?
    ensures Sparing(Occurrences(overrides, e, parent))
    decreases e
  {
    SparingIn(overrides, e.plan, OwnScopes(e, parent));
  }

  lemma {:induction false} SparingIn(overrides: Overrides, subs: seq<Entry>, own: seq<string>)
    ensures Sparing(OccurrencesIn(overrides, subs, own))
    decreases subs
  {
    if subs != [] {
      if subs[0].Dep? {
        SparingBelow(overrides, subs[0], own);
      }
      SparingIn(overrides, subs[1..], own);
    }
  }

  // ---- the memo table changes no result -----------------------------------

  function EvalOccurrence(w: World, o: Occurrence): Result<Value, Failure> {
    if o.security then SecurityResult(w, o.c)
    else
      match EvalSubs(w, o.plan, o.scopes, map[])
      case Err(f) => Err(f)
      case Ok(kwargs) => CallResult(w, o.c, kwargs)
  }

  lemma {:induction false} ScopesUnused(w: World, subs: seq<Entry>, own: seq<string>, other: seq<string>, kwargs: Kwargs)
    requires !UsesScopes(subs)
    ensures EvalSubs(w, subs, own, kwargs) == EvalSubs(w, subs, other, kwargs)
    decreases subs
  {
    if subs != [] {
      match subs[0]
      case Leaf(name, source) =>
        match LeafBinding(w, source, own) {
          case Bad(_) =>
          case UseDefault => ScopesUnused(w, subs[1..], own, other, kwargs);
          case Found(v) => ScopesUnused(w, subs[1..], own, other, kwargs[name := v]);
        }
      case Dep(name, _, _, _, _, _, _) =>
        ScopesUnusedBelow(w, subs[0], own, other);
        match Eval(w, subs[0], own) {
          case Err(_) =>
          case Ok(v) => ScopesUnused(w, subs[1..], own, other, kwargs[name := v]);
        }
    }
  }

  lemma {:induction false} ScopesUnusedBelow(w: World, e: Entry, own: seq<string>, other: seq<string>)
    requires e.Dep? && !EntryUsesScopes(e)
    ensures Eval(w, e, own) == Eval(w, e, other)
    decreases e
  {
    if !e.securityClass && e.scopes == [] {
      ScopesUnused(w, e.plan, own, other, map[]);
    }
  }

  lemma EvalIsOfOccurrence(w: World, e: Entry, parent: seq<string>)
    requires e.Dep?
    ensures Eval(w, e, parent) == EvalOccurrence(w, OccurrenceOf(w.overrides, e, parent))
  {
    if !e.securityClass && !UsesScopes(e.plan) {
      ScopesUnused(w, e.plan, OwnScopes(e, parent), [], map[]);
    }
  }

  // Every cached value is what evaluation gives at some occurrence.
  predicate CacheOk(w: World, u: set<Occurrence>, cache: map<Callable, Value>) {
    forall c <- cache :: exists o :: o in u && o.c == c && EvalOccurrence(w, o) == Ok(cache[c])
  }

  lemma CacheStores(w: World, u: set<Occurrence>, cache: map<Callable, Value>, o: Occurrence, v: Value)
    requires CacheOk(w, u, cache) && o in u && EvalOccurrence(w, o) == Ok(v)
    ensures CacheOk(w, u, cache[o.c := v])
  {
    var cache1 := cache[o.c := v];
    forall c <- cache1
      ensures exists p :: p in u && p.c == c && EvalOccurrence(w, p) == Ok(cache1[c])
    {
      if c == o.c {
        assert o in u && o.c == c;
      } else {
        assert c in cache;
      }
    }
  }

  lemma {:induction false} DepUnchanged(w: World, u: set<Occurrence>, e: Entry, parent: seq<string>, s: State)
    requires e.Dep? && Occurrences(w.overrides, e, parent) <= u && Consistent(u) && CacheOk(w, u, s.cache)
    ensures
      var (r, t) := ResolveDep(w, e, parent, s);
      r == Eval(w, e, parent) && CacheOk(w, u, t.cache)
    decreases e
  {
    var o := OccurrenceOf(w.overrides, e, parent);
    assert o in Occurrences(w.overrides, e, parent);
    EvalIsOfOccurrence(w, e, parent);
    if e.useCache && o.c in s.cache {
      var p :| p in u && p.c == o.c && EvalOccurrence(w, p) == Ok(s.cache[o.c]);
      assert p == o;
    } else {
      if !e.securityClass {
        SubsUnchanged(w, u, e.plan, OwnScopes(e, parent), map[], s);
      }
      var (r, t) := ResolveDep(w, e, parent, s);
      assert r == Eval(w, e, parent);
      if r.Ok? && e.useCache {
        var before := if e.securityClass then s.cache else ResolveSubs(w, e.plan, OwnScopes(e, parent), map[], s).1.cache;
        CacheStores(w, u, before, o, r.value);
        assert t.cache == before[o.c := r.value];
      }
    }
  }

  lemma {:induction false} SubsUnchanged(w: World, u: set<Occurrence>, subs: seq<Entry>, own: seq<string>, kwargs: Kwargs, s: State)
    requires OccurrencesIn(w.overrides, subs, own) <= u && Consistent(u) && CacheOk(w, u, s.cache)
    ensures
      var (r, t) := ResolveSubs(w, subs, own, kwargs, s);
      r == EvalSubs(w, subs, own, kwargs) && CacheOk(w, u, t.cache)
    decreases subs
  {
    if subs != [] {
      match subs[0]
      case Leaf(name, source) =>
        match LeafBinding(w, source, own) {
          case Bad(_) =>
          case UseDefault => SubsUnchanged(w, u, subs[1..], own, kwargs, s);
          case Found(v) => SubsUnchanged(w, u, subs[1..], own, kwargs[name := v], s);
        }
      case Dep(name, _, _, _, _, _, _) =>
        DepUnchanged(w, u, subs[0], own, s);
        var (r, t) := ResolveDep(w, subs[0], own, s);
        if r.Ok? {
          SubsUnchanged(w, u, subs[1..], own, kwargs[name := r.value], t);
        }
    }
  }

  lemma {:induction false} PlanUnchanged(w: World, u: set<Occurrence>, plan: seq<Entry>, out: Kwargs, s: State)
    requires OccurrencesOfPlan(w.overrides, plan) <= u && Consistent(u) && CacheOk(w, u, s.cache)
    ensures ResolvePlan(w, plan, out, s).0 == EvalPlan(w, plan, out)
    decreases plan
  {
    if plan != [] {
      match plan[0]
      case Leaf(name, source) =>
        match source {
          case BackgroundTasks => PlanUnchanged(w, u, plan[1..], out[name := TasksValue], s.(tasks := true));
          case RequestObject =>
            PlanUnchanged(w, u, plan[1..], if w.hasRequest then out[name := RequestValue] else out, s);
          case _ => PlanUnchanged(w, u, plan[1..], out, s);
        }
      case Dep(name, _, _, scopes, _, isInternal, _) =>
        DepUnchanged(w, u, plan[0], scopes, s);
        var (r, t) := ResolveDep(w, plan[0], scopes, s);
        if r.Ok? {
          PlanUnchanged(w, u, plan[1..], if isInternal then out else out[name := r.value], t);
        }
    }
  }

  // A request starts with an empty memo table.
  predicate Fresh(s: State) {
    s.cache == map[] && s.log == []
  }

  // Resolution with the memo table gives the keyword arguments, or the first
  // error, of plain recursive evaluation, for any mix of use_cache flags.
  lemma MemoisationIsTransparent(w: World, plan: seq<Entry>, s: State)
    requires Fresh(s) && Consistent(OccurrencesOfPlan(w.overrides, plan))
    ensures ResolvePlan(w, plan, map[], s).0 == EvalPlan(w, plan, map[])
  {
    PlanUnchanged(w, OccurrencesOfPlan(w.overrides, plan), plan, map[], s);
  }

  // Scopes are not part of the memo key: of two uses of one dependency with
  // different scopes, the second is given the value made for the first.
  lemma ScopesLeak(w: World, c: Callable, r: seq<string>, t: seq<string>, s: State)
    requires Fresh(s) && w.overrides == map[] && r != [] && t != []
    requires
      var a, b := w.call(c, map["s" := ScopesValue(r)]), w.call(c, map["s" := ScopesValue(t)]);
      a.Ok? && b.Ok? && a.value != b.value
    ensures
      var sub := [Leaf("s", SecurityScopes)];
      var plan := [Dep("a", c, true, r, false, false, sub), Dep("b", c, true, t, false, false, sub)];
      var va := w.call(c, map["s" := ScopesValue(r)]).value;
      var vb := w.call(c, map["s" := ScopesValue(t)]).value;
      ResolvePlan(w, plan, map[], s).0 == Ok(map["a" := va]["b" := va]) &&
      EvalPlan(w, plan, map[]) == Ok(map["a" := va]["b" := vb]) &&
      map["a" := va]["b" := va] != map["a" := va]["b" := vb]
  {
    var sub := [Leaf("s", SecurityScopes)];
    var a, b := Dep("a", c, true, r, false, false, sub), Dep("b", c, true, t, false, false, sub);
    var plan := [a, b];
    var va, vb := w.call(c, map["s" := ScopesValue(r)]).value, w.call(c, map["s" := ScopesValue(t)]).value;
    var wrong, right := map["a" := va]["b" := va], map["a" := va]["b" := vb];
    assert wrong["b"] != right["b"];
    assert sub[1..] == [] && plan[1..] == [b] && [b][1..] == [];
    assert ResolveSubs(w, sub, r, map[], s) == (Ok(map["s" := ScopesValue(r)]), s);
    var (x, s1) := ResolveDep(w, a, r, s);
    assert x == Ok(va) && s1.cache == map[c := va];
    assert ResolveDep(w, b, t, s1) == (Ok(va), s1);
    assert ResolvePlan(w, [b], map["a" := va], s1).0 == Ok(wrong);
    assert EvalSubs(w, sub, r, map[]) == Ok(map["s" := ScopesValue(r)]);
    assert EvalSubs(w, sub, t, map[]) == Ok(map["s" := ScopesValue(t)]);
    assert EvalPlan(w, [b], map["a" := va]) == Ok(right);
  }
}
