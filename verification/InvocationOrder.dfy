// The order in which a resolution invokes the callables.
module InvocationOrder {
  import opened Sequences
  import opened DependencyPlan
  import opened YieldDependencies
  import opened Resolver
  import opened Memoisation

  // ---- post-order, repeats removed ----------------------------------------

  // The callables below an entry and then its own; a security scheme is asked
  // directly.
  function PostOrder(overrides: Overrides, e: Entry): seq<Callable>
    requires e.Dep?
    decreases e
  {
    (if e.securityClass then [] else PostOrderOf(overrides, e.plan)) + [Overridden(overrides, e.callable)]
  }

  function PostOrderOf(overrides: Overrides, plan: seq<Entry>): seq<Callable>
    decreases plan
  {
    if plan == [] then []
    else (if plan[0].Dep? then PostOrder(overrides, plan[0]) else []) + PostOrderOf(overrides, plan[1..])
  }

  // `log` with the new elements of `xs` appended, each at its first place.
  function AppendNew(log: seq<Callable>, xs: seq<Callable>): seq<Callable>
    decreases |xs|
  {
    if xs == [] then log
    else AppendNew(if xs[0] in log then log else log + [xs[0]], xs[1..])
  }

  lemma {:induction false} AppendNewConcat(log: seq<Callable>, a: seq<Callable>, b: seq<Callable>)
    ensures AppendNew(log, a + b) == AppendNew(AppendNew(log, a), b)
    decreases |a|
  {
    if a == [] {
      assert a + b == b;
    } else {
      assert (a + b)[1..] == a[1..] + b;
      AppendNewConcat(if a[0] in log then log else log + [a[0]], a[1..], b);
    }
  }

  lemma {:induction false} AppendNewGrows(log: seq<Callable>, xs: seq<Callable>)
    ensures log <= AppendNew(log, xs)
    ensures forall x :: x in AppendNew(log, xs) <==> x in log || x in xs
    decreases |xs|
  {
    if xs != [] {
      AppendNewGrows(if xs[0] in log then log else log + [xs[0]], xs[1..]);
      assert xs == [xs[0]] + xs[1..];
    }
  }

  lemma {:induction false} AppendNewKnown(log: seq<Callable>, xs: seq<Callable>)
    requires forall x <- xs :: x in log
    ensures AppendNew(log, xs) == log
    decreases |xs|
  {
    if xs != [] {
      assert xs[0] in xs;
      AppendNewKnown(log, xs[1..]);
    }
  }

  lemma AppendNewOne(log: seq<Callable>, xs: seq<Callable>, c: Callable)
    requires c !in AppendNew(log, xs)
    ensures AppendNew(log, xs + [c]) == AppendNew(log, xs) + [c]
  {
    AppendNewConcat(log, xs, [c]);
    assert [c][1..] == [];
  }

  // ---- a callable is not below itself -------------------------------------

  function Size(plan: seq<Entry>): nat
    decreases plan
  {
    if plan == [] then 0 else EntrySize(plan[0]) + Size(plan[1..])
  }

  function EntrySize(e: Entry): nat
    decreases e
  {
    match e
    case Leaf(_, _) => 1
    case Dep(_, _, _, _, _, _, plan) => 1 + Size(plan)
  }

  // Every callable of a plan occurs in it, with a smaller plan of its own.
  lemma {:induction false} PostOrderOccurs(overrides: Overrides, subs: seq<Entry>, own: seq<string>, x: Callable)
    requires x in PostOrderOf(overrides, subs)
    ensures exists o :: o in OccurrencesIn(overrides, subs, own) && o.c == x && (o.security || Size(o.plan) < Size(subs))
    decreases subs
  {
    if subs[0].Dep? && x in PostOrder(overrides, subs[0]) {
      PostOrderOccursAt(overrides, subs[0], own, x);
    } else {
      PostOrderOccurs(overrides, subs[1..], own, x);
    }
  }

  lemma {:induction false} PostOrderOccursAt(overrides: Overrides, e: Entry, parent: seq<string>, x: Callable)
    requires e.Dep? && x in PostOrder(overrides, e)
    ensures exists o :: o in Occurrences(overrides, e, parent) && o.c == x && (o.security || Size(o.plan) < EntrySize(e))
    decreases e
  {
    if x == Overridden(overrides, e.callable) {
      assert OccurrenceOf(overrides, e, parent) in Occurrences(overrides, e, parent);
    } else {
      PostOrderOccurs(overrides, e.plan, OwnScopes(e, parent), x);
    }
  }

  // So where the callable determines its sub-plan, no callable is below itself.
  lemma NotBelowItself(overrides: Overrides, u: set<Occurrence>, e: Entry, parent: seq<string>)
    requires e.Dep? && !e.securityClass && Occurrences(overrides, e, parent) <= u && SamePlans(u)
    ensures Overridden(overrides, e.callable) !in PostOrderOf(overrides, e.plan)
  {
    var o := OccurrenceOf(overrides, e, parent);
    assert o in u;
    assert forall p :: p in OccurrencesIn(overrides, e.plan, OwnScopes(e, parent)) && p.c == o.c ==> p.plan == o.plan && p.security == o.security;
    if o.c in PostOrderOf(overrides, e.plan) {
      PostOrderOccurs(overrides, e.plan, OwnScopes(e, parent), o.c);
    }
  }

  // ---- the invariant of a resolution --------------------------------------

  predicate AllCached(plan: seq<Entry>)
    decreases plan
  {
    plan == [] || (EntryCached(plan[0]) && AllCached(plan[1..]))
  }

  predicate EntryCached(e: Entry)
    decreases e
  {
    e.Dep? ==> e.useCache && AllCached(e.plan)
  }

  // Whatever is invoked, its sub-dependencies were invoked before.
  predicate SubsFirst(w: World, u: set<Occurrence>, log: seq<Callable>) {
    forall i, o :: 0 <= i < |log| && o in u && o.c == log[i] && !o.security ==>
      forall x <- PostOrderOf(w.overrides, o.plan) :: x in log[..i]
  }

  predicate Tidy(w: World, u: set<Occurrence>, log: seq<Callable>) {
    NoDuplicates(log) && SubsFirst(w, u, log)
  }

  // Between calls, what was invoked is what is cached.
  predicate Ordered(w: World, u: set<Occurrence>, s: State) {
    s.cache.Keys == (set c <- s.log) && Tidy(w, u, s.log)
  }

  // A resolution that should invoke the new callables of `order` did so, or
  // failed on the way.
  predicate Follows(w: World, u: set<Occurrence>, ok: bool, s: State, t: State, order: seq<Callable>) {
    Tidy(w, u, t.log) && t.log <= AppendNew(s.log, order) &&
    (ok ==> t.log == AppendNew(s.log, order) && Ordered(w, u, t))
  }

  // One more invocation, after those of its sub-plan.
  lemma Invoked(w: World, u: set<Occurrence>, o: Occurrence, log: seq<Callable>)
    requires SamePlans(u) && o in u && Tidy(w, u, log) && o.c !in log
    requires !o.security ==> forall x <- PostOrderOf(w.overrides, o.plan) :: x in log
    ensures Tidy(w, u, log + [o.c])
  {
    var log1 := log + [o.c];
    forall i, p | 0 <= i < |log1| && p in u && p.c == log1[i] && !p.security
      ensures forall x <- PostOrderOf(w.overrides, p.plan) :: x in log1[..i]
    {
      if i < |log| {
        assert log1[..i] == log[..i];
      } else {
        assert p.plan == o.plan && p.security == o.security && log1[..i] == log;
      }
    }
  }

  // The invocation of `o` itself, from a state where its sub-plan is done.
  lemma InvokeOne(w: World, u: set<Occurrence>, o: Occurrence, s: State, t: State)
    requires SamePlans(u) && o in u && Ordered(w, u, s) && o.c !in s.log
    requires !o.security ==> forall x <- PostOrderOf(w.overrides, o.plan) :: x in s.log
    requires t.log == s.log + [o.c]
    ensures Tidy(w, u, t.log)
    ensures t.cache.Keys == s.cache.Keys + {o.c} ==> Ordered(w, u, t)
  {
    Invoked(w, u, o, s.log);
  }

  lemma SchemeOrder(w: World, u: set<Occurrence>, e: Entry, parent: seq<string>, s: State)
    requires e.Dep? && EntryCached(e) && e.securityClass && SamePlans(u) && Ordered(w, u, s)
    requires OccurrenceOf(w.overrides, e, parent) in u && Overridden(w.overrides, e.callable) !in s.cache
    ensures
      var (r, t) := ResolveDep(w, e, parent, s);
      Follows(w, u, r.Ok?, s, t, PostOrder(w.overrides, e))
  {
    var o := OccurrenceOf(w.overrides, e, parent);
    InvokeOne(w, u, o, s, ResolveDep(w, e, parent, s).1);
    AppendNewOne(s.log, [], o.c);
    assert [] + [o.c] == [o.c];
  }

  // The call after a resolved sub-plan.
  lemma CallOrder(w: World, u: set<Occurrence>, e: Entry, parent: seq<string>, s: State)
    requires e.Dep? && EntryCached(e) && !e.securityClass && SamePlans(u) && Ordered(w, u, s)
    requires Occurrences(w.overrides, e, parent) <= u && Overridden(w.overrides, e.callable) !in s.cache
    requires
      var (r, t) := ResolveSubs(w, e.plan, OwnScopes(e, parent), map[], s);
      Follows(w, u, r.Ok?, s, t, PostOrderOf(w.overrides, e.plan))
    ensures
      var (r, t) := ResolveDep(w, e, parent, s);
      Follows(w, u, r.Ok?, s, t, PostOrder(w.overrides, e))
  {
    var o, below := OccurrenceOf(w.overrides, e, parent), PostOrderOf(w.overrides, e.plan);
    assert o in Occurrences(w.overrides, e, parent);
    NotBelowItself(w.overrides, u, e, parent);
    AppendNewGrows(s.log, below);
    AppendNewOne(s.log, below, o.c);
    var (r, s1) := ResolveSubs(w, e.plan, OwnScopes(e, parent), map[], s);
    if r.Ok? {
      InvokeOne(w, u, o, s1, ResolveDep(w, e, parent, s).1);
    }
  }

  lemma {:induction false} DepOrder(w: World, u: set<Occurrence>, e: Entry, parent: seq<string>, s: State)
    requires e.Dep? && EntryCached(e) && Occurrences(w.overrides, e, parent) <= u && SamePlans(u) && Ordered(w, u, s)
    ensures
      var (r, t) := ResolveDep(w, e, parent, s);
      Follows(w, u, r.Ok?, s, t, PostOrder(w.overrides, e))
    decreases e
  {
    var o := OccurrenceOf(w.overrides, e, parent);
    assert o in Occurrences(w.overrides, e, parent);
    if o.c in s.cache {
      AlreadyInvoked(w, u, e, o, s);
    } else if e.securityClass {
      SchemeOrder(w, u, e, parent, s);
    } else {
      SubsOrder(w, u, e.plan, OwnScopes(e, parent), map[], s);
      CallOrder(w, u, e, parent, s);
    }
  }

  // A cached callable and everything below it were invoked already.
  lemma AlreadyInvoked(w: World, u: set<Occurrence>, e: Entry, o: Occurrence, s: State)
    requires e.Dep? && o in u && SamePlans(u) && Ordered(w, u, s)
    requires o.c == Overridden(w.overrides, e.callable) && o.security == e.securityClass && (!o.security ==> o.plan == e.plan)
    requires o.c in s.cache
    ensures AppendNew(s.log, PostOrder(w.overrides, e)) == s.log
  {
    assert o.c in s.log;
    var i :| 0 <= i < |s.log| && s.log[i] == o.c;
    forall x <- PostOrder(w.overrides, e)
      ensures x in s.log
    {
      if x != o.c {
        assert x in s.log[..i];
      }
    }
    AppendNewKnown(s.log, PostOrder(w.overrides, e));
  }

  lemma {:induction false} SubsOrder(w: World, u: set<Occurrence>, subs: seq<Entry>, own: seq<string>, kwargs: Kwargs, s: State)
    requires AllCached(subs) && OccurrencesIn(w.overrides, subs, own) <= u && SamePlans(u) && Ordered(w, u, s)
    ensures
      var (r, t) := ResolveSubs(w, subs, own, kwargs, s);
      Follows(w, u, r.Ok?, s, t, PostOrderOf(w.overrides, subs))
    decreases subs
  {
    if subs != [] {
      AppendNewGrows(s.log, PostOrderOf(w.overrides, subs));
      match subs[0]
      case Leaf(name, source) =>
        assert [] + PostOrderOf(w.overrides, subs[1..]) == PostOrderOf(w.overrides, subs[1..]);
        match LeafBinding(w, source, own) {
          case Bad(_) =>
          case UseDefault => SubsOrder(w, u, subs[1..], own, kwargs, s);
          case Found(v) => SubsOrder(w, u, subs[1..], own, kwargs[name := v], s);
        }
      case Dep(name, _, _, _, _, _, _) =>
        var (r, t) := ResolveDep(w, subs[0], own, s);
        DepOrder(w, u, subs[0], own, s);
        AppendNewConcat(s.log, PostOrder(w.overrides, subs[0]), PostOrderOf(w.overrides, subs[1..]));
        AppendNewGrows(AppendNew(s.log, PostOrder(w.overrides, subs[0])), PostOrderOf(w.overrides, subs[1..]));
        if r.Ok? {
          SubsOrder(w, u, subs[1..], own, kwargs[name := r.value], t);
        }
    }
  }

  lemma {:induction false} PlanOrder(w: World, u: set<Occurrence>, plan: seq<Entry>, out: Kwargs, s: State)
    requires AllCached(plan) && OccurrencesOfPlan(w.overrides, plan) <= u && SamePlans(u) && Ordered(w, u, s)
    ensures
      var (r, t) := ResolvePlan(w, plan, out, s);
      Follows(w, u, r.Ok?, s, t, PostOrderOf(w.overrides, plan))
    decreases plan
  {
    if plan != [] {
      match plan[0]
      case Leaf(name, source) =>
        assert [] + PostOrderOf(w.overrides, plan[1..]) == PostOrderOf(w.overrides, plan[1..]);
        match source {
          case BackgroundTasks => PlanOrder(w, u, plan[1..], out[name := TasksValue], s.(tasks := true));
          case RequestObject =>
            PlanOrder(w, u, plan[1..], if w.hasRequest then out[name := RequestValue] else out, s);
          case _ => PlanOrder(w, u, plan[1..], out, s);
        }
      case Dep(name, _, _, scopes, _, isInternal, _) =>
        var (r, t) := ResolveDep(w, plan[0], scopes, s);
        DepOrder(w, u, plan[0], scopes, s);
        AppendNewConcat(s.log, PostOrder(w.overrides, plan[0]), PostOrderOf(w.overrides, plan[1..]));
        AppendNewGrows(AppendNew(s.log, PostOrder(w.overrides, plan[0])), PostOrderOf(w.overrides, plan[1..]));
        if r.Ok? {
          PlanOrder(w, u, plan[1..], if isInternal then out else out[name := r.value], t);
        }
    }
  }

  // ---- main result --------------------------------------------------------

  // With every entry cached, a successful resolution invokes exactly the
  // post-order of the forest with repeats removed, so each callable once and
  // after everything below it; a failing one stops somewhere along that order.
  lemma InvocationsArePostOrder(w: World, plan: seq<Entry>, s: State)
    requires Fresh(s) && AllCached(plan) && SamePlans(OccurrencesOfPlan(w.overrides, plan))
    ensures
      var (r, t) := ResolvePlan(w, plan, map[], s);
      var order := AppendNew([], PostOrderOf(w.overrides, plan));
      t.log <= order && (r.Ok? ==> t.log == order) &&
      NoDuplicates(t.log) && SubsFirst(w, OccurrencesOfPlan(w.overrides, plan), t.log)
  {
    PlanOrder(w, OccurrencesOfPlan(w.overrides, plan), plan, map[], s);
  }
}
