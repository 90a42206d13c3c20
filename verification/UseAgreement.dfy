// When exactly the memo table is transparent: with every entry cached and no
// callable below itself, iff any two uses of one callable bind their parameters
// alike.
module UseAgreement {
  import opened Wrappers
  import opened DependencyPlan
  import opened YieldDependencies
  import opened Resolver
  import opened Memoisation
  import opened InvocationOrder

  // ---- uses of callables --------------------------------------------------

  // A dependency entry with the scopes in effect for its parameters.
  datatype Use = Use(entry: Entry, own: seq<string>)

  function Uses(e: Entry, parent: seq<string>): set<Use>
    requires e.Dep?
    decreases e
  {
    {Use(e, OwnScopes(e, parent))} + if e.securityClass then {} else UsesIn(e.plan, OwnScopes(e, parent))
  }

  function UsesIn(subs: seq<Entry>, own: seq<string>): set<Use>
    decreases subs
  {
    if subs == [] then {} else (if subs[0].Dep? then Uses(subs[0], own) else {}) + UsesIn(subs[1..], own)
  }

  function UsesOfPlan(plan: seq<Entry>): set<Use>
    decreases plan
  {
    if plan == [] then {}
    else (if plan[0].Dep? then Uses(plan[0], plan[0].scopes) else {}) + UsesOfPlan(plan[1..])
  }

  // What a parameter is filled from, after overrides.
  datatype Binding = ToSpec(spec: nat) | ToScopes(scopes: seq<string>) | ToCallable(c: Callable)

  function BindingOf(overrides: Overrides, e: Entry, own: seq<string>): Option<Binding> {
    match e
    case Leaf(_, FromRequest(spec)) => Some(ToSpec(spec))
    case Leaf(_, SecurityScopes) => Some(ToScopes(own))
    case Leaf(_, _) => None
    case Dep(_, c, _, _, _, _, _) => Some(ToCallable(Overridden(overrides, c)))
  }

  function Bindings(overrides: Overrides, subs: seq<Entry>, own: seq<string>): map<string, Binding>
    decreases |subs|
  {
    if subs == [] then map[]
    else
      var b := BindingOf(overrides, subs[0], own);
      (if b.Some? then map[subs[0].name := b.value] else map[]) + Bindings(overrides, subs[1..], own)
  }

  // How a use goes about its callable.
  datatype Demand = AsScheme | With(bindings: map<string, Binding>)

  function Callee(overrides: Overrides, u: Use): Callable
    requires u.entry.Dep?
  {
    Overridden(overrides, u.entry.callable)
  }

  function DemandOf(overrides: Overrides, u: Use): Demand
    requires u.entry.Dep?
  {
    if u.entry.securityClass then AsScheme else With(Bindings(overrides, u.entry.plan, u.own))
  }

  predicate AllDeps(us: set<Use>) {
    forall u <- us :: u.entry.Dep?
  }

  predicate UsesAgree(overrides: Overrides, us: set<Use>)
    requires AllDeps(us)
  {
    forall a, b :: a in us && b in us && Callee(overrides, a) == Callee(overrides, b) ==>
      DemandOf(overrides, a) == DemandOf(overrides, b)
  }

  // The uses below a use of the set are in the set.
  predicate Closed(us: set<Use>)
    requires AllDeps(us)
  {
    forall u <- us :: !u.entry.securityClass ==> UsesIn(u.entry.plan, u.own) <= us
  }

  lemma {:induction false} UsesAreClosed(e: Entry, parent: seq<string>)
    requires e.Dep?
    ensures AllDeps(Uses(e, parent)) && Closed(Uses(e, parent))
    decreases e
  {
    if !e.securityClass {
      UsesInAreClosed(e.plan, OwnScopes(e, parent));
    }
  }

  lemma {:induction false} UsesInAreClosed(subs: seq<Entry>, own: seq<string>)
    ensures AllDeps(UsesIn(subs, own)) && Closed(UsesIn(subs, own))
    decreases subs
  {
    if subs != [] {
      if subs[0].Dep? {
        UsesAreClosed(subs[0], own);
      }
      UsesInAreClosed(subs[1..], own);
    }
  }

  lemma {:induction false} UsesOfPlanAreClosed(plan: seq<Entry>)
    ensures AllDeps(UsesOfPlan(plan)) && Closed(UsesOfPlan(plan))
    decreases plan
  {
    if plan != [] {
      if plan[0].Dep? {
        UsesAreClosed(plan[0], plan[0].scopes);
      }
      UsesOfPlanAreClosed(plan[1..]);
    }
  }

  lemma {:induction false} EntryIsUsed(subs: seq<Entry>, own: seq<string>, e: Entry)
    requires e in subs && e.Dep?
    ensures Use(e, OwnScopes(e, own)) in UsesIn(subs, own)
    decreases |subs|
  {
    if e != subs[0] {
      EntryIsUsed(subs[1..], own, e);
    }
  }

  // ---- names --------------------------------------------------------------

  // The parameters of one signature have different names.
  predicate WellNamed(subs: seq<Entry>)
    decreases subs
  {
    subs == [] ||
    (EntryWellNamed(subs[0]) && (forall e <- subs[1..] :: e.name != subs[0].name) && WellNamed(subs[1..]))
  }

  predicate EntryWellNamed(e: Entry)
    decreases e
  {
    e.Dep? ==> WellNamed(e.plan)
  }

  predicate RootsWellNamed(plan: seq<Entry>) {
    forall e <- plan :: EntryWellNamed(e)
  }

  predicate UsesWellNamed(us: set<Use>) {
    forall u <- us :: EntryWellNamed(u.entry)
  }

  lemma {:induction false} NamedUses(e: Entry, parent: seq<string>)
    requires e.Dep? && EntryWellNamed(e)
    ensures UsesWellNamed(Uses(e, parent))
    decreases e
  {
    NamedUsesIn(e.plan, OwnScopes(e, parent));
  }

  lemma {:induction false} NamedUsesIn(subs: seq<Entry>, own: seq<string>)
    requires WellNamed(subs)
    ensures UsesWellNamed(UsesIn(subs, own))
    decreases subs
  {
    if subs != [] {
      if subs[0].Dep? {
        NamedUses(subs[0], own);
      }
      NamedUsesIn(subs[1..], own);
    }
  }

  lemma {:induction false} NamedUsesOfPlan(plan: seq<Entry>)
    requires RootsWellNamed(plan)
    ensures UsesWellNamed(UsesOfPlan(plan))
    decreases plan
  {
    if plan != [] {
      assert plan[0] in plan;
      if plan[0].Dep? {
        NamedUses(plan[0], plan[0].scopes);
      }
      NamedUsesOfPlan(plan[1..]);
    }
  }

  lemma {:induction false} EntryOfBinding(overrides: Overrides, subs: seq<Entry>, own: seq<string>, name: string) returns (e: Entry)
    requires WellNamed(subs) && name in Bindings(overrides, subs, own)
    ensures e in subs && e.name == name && BindingOf(overrides, e, own) == Some(Bindings(overrides, subs, own)[name])
    decreases |subs|
  {
    if name in Bindings(overrides, subs[1..], own) {
      e := EntryOfBinding(overrides, subs[1..], own, name);
    } else {
      e := subs[0];
    }
  }

  lemma {:induction false} BindingOfEntry(overrides: Overrides, subs: seq<Entry>, own: seq<string>, e: Entry)
    requires WellNamed(subs) && e in subs
    ensures
      var b, all := BindingOf(overrides, e, own), Bindings(overrides, subs, own);
      if b.Some? then e.name in all && all[e.name] == b.value else e.name !in all
    decreases |subs|
  {
    if e in subs[1..] {
      BindingOfEntry(overrides, subs[1..], own, e);
    } else if e.name in Bindings(overrides, subs[1..], own) {
      var f := EntryOfBinding(overrides, subs[1..], own, e.name);
      assert false;
    }
  }

  // ---- agreement is enough ------------------------------------------------

  function EvalUse(w: World, u: Use): Result<Value, Failure>
    requires u.entry.Dep?
  {
    var c := Callee(w.overrides, u);
    if u.entry.securityClass then SecurityResult(w, c)
    else
      match EvalSubs(w, u.entry.plan, u.own, map[])
      case Err(f) => Err(f)
      case Ok(kwargs) => CallResult(w, c, kwargs)
  }

  // The entry evaluates, to what `kwargs` has under its name.
  predicate Gives(w: World, e: Entry, own: seq<string>, kwargs: Kwargs) {
    match e
    case Leaf(name, source) =>
      (match LeafBinding(w, source, own)
       case Bad(_) => false
       case UseDefault => name !in kwargs
       case Found(v) => name in kwargs && kwargs[name] == v)
    case Dep(name, _, _, _, _, _, _) => name in kwargs && Eval(w, e, own) == Ok(kwargs[name])
  }

  predicate Extends(more: Kwargs, less: Kwargs) {
    forall name <- less :: name in more && more[name] == less[name]
  }

  function Names(subs: seq<Entry>): set<string> {
    set e <- subs :: e.name
  }

  // What an evaluated plan has collected.
  lemma {:induction false} Collected(w: World, subs: seq<Entry>, own: seq<string>, kwargs: Kwargs, all: Kwargs)
    requires WellNamed(subs) && Names(subs) !! kwargs.Keys && EvalSubs(w, subs, own, kwargs) == Ok(all)
    ensures Extends(all, kwargs) && all.Keys <= kwargs.Keys + Names(subs)
    ensures forall e <- subs :: Gives(w, e, own, all)
    decreases subs
  {
    if subs != [] {
      var e := subs[0];
      assert e.name in Names(subs) && Names(subs[1..]) <= Names(subs);
      match e
      case Leaf(name, source) =>
        match LeafBinding(w, source, own) {
          case Bad(_) =>
          case UseDefault => Collected(w, subs[1..], own, kwargs, all);
          case Found(v) => Collected(w, subs[1..], own, kwargs[name := v], all);
        }
      case Dep(name, _, _, _, _, _, _) =>
        Collected(w, subs[1..], own, kwargs[name := Eval(w, e, own).value], all);
    }
  }

  // And the other way round: whatever the order of the entries.
  lemma {:induction false} Rebuilt(w: World, subs: seq<Entry>, own: seq<string>, kwargs: Kwargs, all: Kwargs)
    requires WellNamed(subs) && Names(subs) !! kwargs.Keys
    requires Extends(all, kwargs) && all.Keys <= kwargs.Keys + Names(subs)
    requires forall e <- subs :: Gives(w, e, own, all)
    ensures EvalSubs(w, subs, own, kwargs) == Ok(all)
    decreases subs
  {
    if subs == [] {
      assert kwargs == all;
    } else {
      var e := subs[0];
      assert e in subs && Gives(w, e, own, all);
      assert Names(subs) == {e.name} + Names(subs[1..]) && Names(subs[1..]) !! {e.name};
      match e
      case Leaf(name, source) =>
        match LeafBinding(w, source, own) {
          case Bad(_) =>
          case UseDefault => Rebuilt(w, subs[1..], own, kwargs, all);
          case Found(v) => Rebuilt(w, subs[1..], own, kwargs[name := v], all);
        }
      case Dep(name, _, _, _, _, _, _) =>
        Rebuilt(w, subs[1..], own, kwargs[name := all[name]], all);
    }
  }

  // What the theorems need of the set of uses.
  predicate Agreeing(overrides: Overrides, us: set<Use>) {
    AllDeps(us) && Closed(us) && UsesWellNamed(us) && UsesAgree(overrides, us)
  }

  // One entry of the second use, from the entry of the first with its name.
  lemma {:induction false} SameEntry(w: World, us: set<Use>, a: Use, b: Use, kwargs: Kwargs, e: Entry)
    requires Agreeing(w.overrides, us) && a in us && b in us && !a.entry.securityClass && !b.entry.securityClass
    requires Bindings(w.overrides, a.entry.plan, a.own) == Bindings(w.overrides, b.entry.plan, b.own)
    requires EvalSubs(w, a.entry.plan, a.own, map[]) == Ok(kwargs) && e in b.entry.plan
    ensures Gives(w, e, b.own, kwargs)
    decreases b.entry, 0
  {
    Collected(w, a.entry.plan, a.own, map[], kwargs);
    BindingOfEntry(w.overrides, b.entry.plan, b.own, e);
    if BindingOf(w.overrides, e, b.own).None? {
      NotBound(w, a, kwargs, e.name);
    } else {
      var f := EntryOfBinding(w.overrides, a.entry.plan, a.own, e.name);
      assert Gives(w, f, a.own, kwargs);
      if e.Dep? {
        EntryIsUsed(a.entry.plan, a.own, f);
        EntryIsUsed(b.entry.plan, b.own, e);
        SameValue(w, us, Use(f, OwnScopes(f, a.own)), Use(e, OwnScopes(e, b.own)), kwargs[e.name]);
      }
    }
  }

  // A name that the bindings do not have is not collected.
  lemma NotBound(w: World, u: Use, kwargs: Kwargs, name: string)
    requires u.entry.Dep? && EntryWellNamed(u.entry) && name !in Bindings(w.overrides, u.entry.plan, u.own)
    requires EvalSubs(w, u.entry.plan, u.own, map[]) == Ok(kwargs)
    ensures name !in kwargs
  {
    Collected(w, u.entry.plan, u.own, map[], kwargs);
    if name in kwargs {
      var e :| e in u.entry.plan && e.name == name;
      assert Gives(w, e, u.own, kwargs);
      BindingOfEntry(w.overrides, u.entry.plan, u.own, e);
      assert false;
    }
  }

  // If one use of a callable evaluates, each other does, and to the same value.
  lemma {:induction false} SameValue(w: World, us: set<Use>, a: Use, b: Use, v: Value)
    requires Agreeing(w.overrides, us) && a in us && b in us
    requires Callee(w.overrides, a) == Callee(w.overrides, b) && EvalUse(w, a) == Ok(v)
    ensures EvalUse(w, b) == Ok(v)
    decreases b.entry, 1
  {
    assert DemandOf(w.overrides, a) == DemandOf(w.overrides, b);
    if !b.entry.securityClass {
      var kwargs := EvalSubs(w, a.entry.plan, a.own, map[]).value;
      forall e <- b.entry.plan
        ensures Gives(w, e, b.own, kwargs)
      {
        SameEntry(w, us, a, b, kwargs, e);
      }
      forall name <- kwargs
        ensures name in Names(b.entry.plan)
      {
        if name !in Bindings(w.overrides, b.entry.plan, b.own) {
          NotBound(w, a, kwargs, name);
          assert false;
        }
        var e := EntryOfBinding(w.overrides, b.entry.plan, b.own, name);
      }
      Rebuilt(w, b.entry.plan, b.own, map[], kwargs);
    }
  }

  // A cached value is what every use of its callable evaluates to.
  predicate CacheServes(w: World, us: set<Use>, cache: map<Callable, Value>)
    requires AllDeps(us)
  {
    forall u <- us :: Callee(w.overrides, u) in cache ==> EvalUse(w, u) == Ok(cache[Callee(w.overrides, u)])
  }

  lemma CacheStillServes(w: World, us: set<Use>, cache: map<Callable, Value>, u: Use, v: Value)
    requires Agreeing(w.overrides, us) && CacheServes(w, us, cache) && u in us && EvalUse(w, u) == Ok(v)
    ensures CacheServes(w, us, cache[Callee(w.overrides, u) := v])
  {
    forall b <- us | Callee(w.overrides, b) == Callee(w.overrides, u)
      ensures EvalUse(w, b) == Ok(v)
    {
      SameValue(w, us, u, b, v);
    }
  }

  lemma {:induction false} DepServed(w: World, us: set<Use>, e: Entry, parent: seq<string>, s: State)
    requires Agreeing(w.overrides, us) && e.Dep? && Uses(e, parent) <= us && CacheServes(w, us, s.cache)
    ensures
      var (r, t) := ResolveDep(w, e, parent, s);
      r == Eval(w, e, parent) && CacheServes(w, us, t.cache)
    decreases e
  {
    var own := OwnScopes(e, parent);
    var u := Use(e, own);
    assert u in Uses(e, parent) && EvalUse(w, u) == Eval(w, e, parent);
    if !(e.useCache && Callee(w.overrides, u) in s.cache) {
      if !e.securityClass {
        SubsServed(w, us, e.plan, own, map[], s);
      }
      var (r, t) := ResolveDep(w, e, parent, s);
      assert r == Eval(w, e, parent);
      if r.Ok? && e.useCache {
        var before := if e.securityClass then s.cache else ResolveSubs(w, e.plan, own, map[], s).1.cache;
        CacheStillServes(w, us, before, u, r.value);
        assert t.cache == before[Callee(w.overrides, u) := r.value];
      }
    }
  }

  lemma {:induction false} SubsServed(w: World, us: set<Use>, subs: seq<Entry>, own: seq<string>, kwargs: Kwargs, s: State)
    requires Agreeing(w.overrides, us) && UsesIn(subs, own) <= us && CacheServes(w, us, s.cache)
    ensures
      var (r, t) := ResolveSubs(w, subs, own, kwargs, s);
      r == EvalSubs(w, subs, own, kwargs) && CacheServes(w, us, t.cache)
    decreases subs
  {
    if subs != [] {
      match subs[0]
      case Leaf(name, source) =>
        match LeafBinding(w, source, own) {
          case Bad(_) =>
          case UseDefault => SubsServed(w, us, subs[1..], own, kwargs, s);
          case Found(v) => SubsServed(w, us, subs[1..], own, kwargs[name := v], s);
        }
      case Dep(name, _, _, _, _, _, _) =>
        DepServed(w, us, subs[0], own, s);
        var (r, t) := ResolveDep(w, subs[0], own, s);
        if r.Ok? {
          SubsServed(w, us, subs[1..], own, kwargs[name := r.value], t);
        }
    }
  }

  lemma {:induction false} PlanServed(w: World, us: set<Use>, plan: seq<Entry>, out: Kwargs, s: State)
    requires Agreeing(w.overrides, us) && UsesOfPlan(plan) <= us && CacheServes(w, us, s.cache)
    ensures ResolvePlan(w, plan, out, s).0 == EvalPlan(w, plan, out)
    decreases plan
  {
    if plan != [] {
      match plan[0]
      case Leaf(name, source) =>
        match source {
          case BackgroundTasks => PlanServed(w, us, plan[1..], out[name := TasksValue], s.(tasks := true));
          case RequestObject =>
            PlanServed(w, us, plan[1..], if w.hasRequest then out[name := RequestValue] else out, s);
          case _ => PlanServed(w, us, plan[1..], out, s);
        }
      case Dep(name, _, _, scopes, _, isInternal, _) =>
        DepServed(w, us, plan[0], scopes, s);
        var (r, t) := ResolveDep(w, plan[0], scopes, s);
        if r.Ok? {
          PlanServed(w, us, plan[1..], if isInternal then out else out[name := r.value], t);
        }
    }
  }

  // In this world the memo table makes no difference.
  predicate Transparent(w: World, plan: seq<Entry>, s: State) {
    ResolvePlan(w, plan, map[], s).0 == EvalPlan(w, plan, map[])
  }

  predicate UsesOfPlanAgree(overrides: Overrides, plan: seq<Entry>) {
    AllDeps(UsesOfPlan(plan)) && UsesAgree(overrides, UsesOfPlan(plan))
  }

  // Where the uses of each callable bind their parameters alike, the memo table
  // makes none, for any mix of use_cache flags.
  lemma AgreeingUsesAreTransparent(w: World, plan: seq<Entry>, s: State)
    requires Fresh(s) && RootsWellNamed(plan) && UsesOfPlanAgree(w.overrides, plan)
    ensures Transparent(w, plan, s)
  {
    UsesOfPlanAreClosed(plan);
    NamedUsesOfPlan(plan);
    PlanServed(w, UsesOfPlan(plan), plan, map[], s);
  }
}
