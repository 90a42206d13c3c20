// Exactly which callables a resolution invokes, for every plan and any mix of
// `use_cache` flags.
module CallSequence {
  import opened Sequences
  import opened DependencyPlan
  import opened YieldDependencies
  import opened Resolver
  import opened InvocationOrder

  // The invocations made, in order, and the callables remembered afterwards.
  datatype Calls = Calls(made: seq<Callable>, known: set<Callable>)

  // What is remembered is not called again by an entry that uses the memo
  // table.  Any other entry calls what is below it, unless it is a scheme, and
  // then its own callable, which it adds to the table only if it uses it.
  function CallsOf(overrides: Overrides, e: Entry, known: set<Callable>): Calls
    requires e.Dep?
    decreases e
  {
    var c := if e.callable in overrides then overrides[e.callable] else e.callable;
    if e.useCache && c in known then Calls([], known)
    else
      var below := if e.securityClass then Calls([], known) else CallsIn(overrides, e.plan, known);
      Calls(below.made + [c], if e.useCache then below.known + {c} else below.known)
  }

  function CallsIn(overrides: Overrides, plan: seq<Entry>, known: set<Callable>): Calls
    decreases plan
  {
    if plan == [] then Calls([], known)
    else if plan[0].Leaf? then CallsIn(overrides, plan[1..], known)
    else
      var first := CallsOf(overrides, plan[0], known);
      var rest := CallsIn(overrides, plan[1..], first.known);
      Calls(first.made + rest.made, rest.known)
  }

  // A resolution that succeeds made all the calls, one that fails some first
  // ones of them.
  predicate Made(ok: bool, s: State, t: State, calls: Calls) {
    t.log <= s.log + calls.made &&
    (ok ==> t.log == s.log + calls.made && t.cache.Keys == calls.known)
  }

  lemma MadeThen(s: State, t: State, u: State, ok: bool, first: Calls, rest: Calls)
    requires Made(true, s, t, first) && Made(ok, t, u, rest)
    ensures Made(ok, s, u, Calls(first.made + rest.made, rest.known))
  {
    Assoc(s.log, first.made, rest.made);
  }

  lemma MadeFewer(s: State, t: State, first: Calls, rest: Calls)
    requires Made(false, s, t, first)
    ensures Made(false, s, t, Calls(first.made + rest.made, rest.known))
  {
    Assoc(s.log, first.made, rest.made);
    assert s.log + first.made <= s.log + first.made + rest.made;
  }

  // The call of an entry's own callable, after those below it.
  lemma OwnCall(w: World, e: Entry, parent: seq<string>, s: State)
    requires e.Dep? && !(e.useCache && Overridden(w.overrides, e.callable) in s.cache)
    requires !e.securityClass ==>
      var (r, t) := ResolveSubs(w, e.plan, OwnScopes(e, parent), map[], s);
      Made(r.Ok?, s, t, CallsIn(w.overrides, e.plan, s.cache.Keys))
    ensures
      var (r, t) := ResolveDep(w, e, parent, s);
      Made(r.Ok?, s, t, CallsOf(w.overrides, e, s.cache.Keys))
  {
    var c := Overridden(w.overrides, e.callable);
    if e.securityClass {
      assert [] + [c] == [c];
    } else {
      var below := CallsIn(w.overrides, e.plan, s.cache.Keys);
      Assoc(s.log, below.made, [c]);
    }
  }

  lemma {:induction false} DepCalls(w: World, e: Entry, parent: seq<string>, s: State)
    requires e.Dep?
    ensures
      var (r, t) := ResolveDep(w, e, parent, s);
      Made(r.Ok?, s, t, CallsOf(w.overrides, e, s.cache.Keys))
    decreases e
  {
    if !(e.useCache && Overridden(w.overrides, e.callable) in s.cache) {
      if !e.securityClass {
        SubsCalls(w, e.plan, OwnScopes(e, parent), map[], s);
      }
      OwnCall(w, e, parent, s);
    } else {
      assert s.log + [] == s.log;
    }
  }

  lemma {:induction false} SubsCalls(w: World, subs: seq<Entry>, own: seq<string>, kwargs: Kwargs, s: State)
    ensures
      var (r, t) := ResolveSubs(w, subs, own, kwargs, s);
      Made(r.Ok?, s, t, CallsIn(w.overrides, subs, s.cache.Keys))
    decreases subs
  {
    if subs == [] {
      assert s.log + [] == s.log;
    } else {
      match subs[0]
      case Leaf(name, source) =>
        match LeafBinding(w, source, own) {
          case Bad(_) =>
          case UseDefault => SubsCalls(w, subs[1..], own, kwargs, s);
          case Found(v) => SubsCalls(w, subs[1..], own, kwargs[name := v], s);
        }
      case Dep(name, _, _, _, _, _, _) =>
        var (r, t) := ResolveDep(w, subs[0], own, s);
        var first := CallsOf(w.overrides, subs[0], s.cache.Keys);
        var rest := CallsIn(w.overrides, subs[1..], first.known);
        DepCalls(w, subs[0], own, s);
        if r.Ok? {
          SubsCalls(w, subs[1..], own, kwargs[name := r.value], t);
          var (r1, u) := ResolveSubs(w, subs[1..], own, kwargs[name := r.value], t);
          MadeThen(s, t, u, r1.Ok?, first, rest);
        } else {
          MadeFewer(s, t, first, rest);
        }
    }
  }

  lemma {:induction false} PlanCalls(w: World, plan: seq<Entry>, out: Kwargs, s: State)
    ensures
      var (r, t) := ResolvePlan(w, plan, out, s);
      Made(r.Ok?, s, t, CallsIn(w.overrides, plan, s.cache.Keys))
    decreases plan
  {
    if plan == [] {
      assert s.log + [] == s.log;
    } else {
      match plan[0]
      case Leaf(name, source) =>
        match source {
          case BackgroundTasks => PlanCalls(w, plan[1..], out[name := TasksValue], s.(tasks := true));
          case RequestObject => PlanCalls(w, plan[1..], if w.hasRequest then out[name := RequestValue] else out, s);
          case _ => PlanCalls(w, plan[1..], out, s);
        }
      case Dep(name, _, _, scopes, _, isInternal, _) =>
        var (r, t) := ResolveDep(w, plan[0], scopes, s);
        var first := CallsOf(w.overrides, plan[0], s.cache.Keys);
        var rest := CallsIn(w.overrides, plan[1..], first.known);
        DepCalls(w, plan[0], scopes, s);
        if r.Ok? {
          var after := if isInternal then out else out[name := r.value];
          PlanCalls(w, plan[1..], after, t);
          var (r1, u) := ResolvePlan(w, plan[1..], after, t);
          MadeThen(s, t, u, r1.Ok?, first, rest);
        } else {
          MadeFewer(s, t, first, rest);
        }
    }
  }

  lemma {:induction false} CallsConcat(overrides: Overrides, a: seq<Entry>, b: seq<Entry>, known: set<Callable>)
    ensures
      var first := CallsIn(overrides, a, known);
      var rest := CallsIn(overrides, b, first.known);
      CallsIn(overrides, a + b, known) == Calls(first.made + rest.made, rest.known)
    decreases |a|
  {
    if a == [] {
      assert a + b == b;
      var rest := CallsIn(overrides, b, known);
      assert [] + rest.made == rest.made;
    } else {
      assert (a + b)[0] == a[0] && (a + b)[1..] == a[1..] + b;
      if a[0].Leaf? {
        CallsConcat(overrides, a[1..], b, known);
      } else {
        var head := CallsOf(overrides, a[0], known);
        CallsConcat(overrides, a[1..], b, head.known);
        var tail := CallsIn(overrides, a[1..], head.known);
        Assoc(head.made, tail.made, CallsIn(overrides, b, tail.known).made);
      }
    }
  }

  // ---- without the memo table ---------------------------------------------

  predicate NoneCached(plan: seq<Entry>)
    decreases plan
  {
    plan == [] || (EntryUncached(plan[0]) && NoneCached(plan[1..]))
  }

  predicate EntryUncached(e: Entry)
    decreases e
  {
    e.Dep? ==> !e.useCache && NoneCached(e.plan)
  }

  lemma {:induction false} UncachedCallsAll(overrides: Overrides, plan: seq<Entry>, known: set<Callable>)
    requires NoneCached(plan)
    ensures CallsIn(overrides, plan, known) == Calls(PostOrderOf(overrides, plan), known)
    decreases plan
  {
    if plan != [] {
      if plan[0].Dep? {
        UncachedEntryCallsAll(overrides, plan[0], known);
      } else {
        assert [] + PostOrderOf(overrides, plan[1..]) == PostOrderOf(overrides, plan[1..]);
      }
      UncachedCallsAll(overrides, plan[1..], known);
    }
  }

  lemma {:induction false} UncachedEntryCallsAll(overrides: Overrides, e: Entry, known: set<Callable>)
    requires e.Dep? && EntryUncached(e)
    ensures CallsOf(overrides, e, known) == Calls(PostOrder(overrides, e), known)
    decreases e
  {
    if !e.securityClass {
      UncachedCallsAll(overrides, e.plan, known);
    }
  }

  // With `use_cache=False` throughout, a successful resolution calls the whole
  // post-order, every occurrence anew, whatever was remembered before.
  lemma UncachedCallsRepeat(w: World, plan: seq<Entry>, s: State)
    requires NoneCached(plan)
    ensures
      var (r, t) := ResolvePlan(w, plan, map[], s);
      var all := s.log + PostOrderOf(w.overrides, plan);
      t.log <= all && (r.Ok? ==> t.log == all && t.cache.Keys == s.cache.Keys)
  {
    PlanCalls(w, plan, map[], s);
    UncachedCallsAll(w.overrides, plan, s.cache.Keys);
  }
}
