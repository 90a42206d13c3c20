// compile_route_plan of python/hyperfastapi/_routing.py: a dependency graph,
// possibly cyclic, unfolded into a forest of plan entries.
module DependencyPlan {
  import Sequences
  import opened Wrappers

  type Callable = nat

  // What a parameter that is not a dependency is filled from.
  datatype LeafSource = FromRequest(spec: nat) | SecurityScopes | BackgroundTasks | RequestObject

  datatype Entry =
    | Leaf(name: string, source: LeafSource)
    | Dep(name: string, callable: Callable, useCache: bool, scopes: seq<string>,
          securityClass: bool, isInternal: bool, plan: seq<Entry>)

  // A parameter of an inspected signature.
  datatype Param =
    | LeafParam(name: string, source: LeafSource)
    | DepParam(name: string, callable: Callable, useCache: bool, scopes: seq<string>)

  // `signatures` holds the callables that can be inspected, `schemes` those
  // that are security schemes.
  datatype Graph = Graph(signatures: map<Callable, seq<Param>>, schemes: set<Callable>)

  function SignatureOf(g: Graph, c: Callable): seq<Param> {
    if c in g.signatures then g.signatures[c] else []
  }

  // ---- the compiler -------------------------------------------------------

  // The plan of a signature, where the callables in `seen` are being expanded.
  function Compiled(g: Graph, params: seq<Param>, seen: set<Callable>): (plan: seq<Entry>)
    ensures |plan| == |params|
    decreases g.signatures.Keys - seen, |params|
  {
    if params == [] then []
    else [CompiledParam(g, params[0], seen)] + Compiled(g, params[1..], seen)
  }

  function CompiledParam(g: Graph, p: Param, seen: set<Callable>): Entry
    decreases g.signatures.Keys - seen, 0
  {
    match p
    case LeafParam(name, source) => Leaf(name, source)
    case DepParam(name, c, useCache, scopes) =>
      var sub :=
        if c in g.schemes || c in seen || c !in g.signatures then []
        else Compiled(g, g.signatures[c], seen + {c});
      Dep(name, c, useCache, scopes, c in g.schemes, false, sub)
  }

  // The mutable guard set that the recursive calls share.
  class PlanCompiler {
    var seen: set<Callable>

    constructor ()
      ensures seen == {}
    {
      seen := {};
    }

    // The guard set is left as it was found.
    method CompileRoutePlan(g: Graph, handler: Callable) returns (plan: seq<Entry>)
      modifies this
      ensures plan == Compiled(g, SignatureOf(g, handler), old(seen))
      ensures seen == old(seen)
      decreases g.signatures.Keys - seen, handler in g.signatures
    {
      plan := [];
      if handler !in g.signatures {
        return;
      }
      var params := g.signatures[handler];
      for i := 0 to |params|
        invariant seen == old(seen)
        invariant plan + Compiled(g, params[i..], seen) == Compiled(g, params, seen)
      {
        var entry: Entry;
        match params[i] {
          case LeafParam(name, source) =>
            entry := Leaf(name, source);
          case DepParam(name, c, useCache, scopes) =>
            var sub := [];
            if c !in g.schemes && c !in seen {
              seen := seen + {c};
              sub := CompileRoutePlan(g, c);
              seen := seen - {c};
            }
            entry := Dep(name, c, useCache, scopes, c in g.schemes, false, sub);
        }
        assert seen == old(seen);
        CompiledStep(g, params, i, seen);
        Sequences.Assoc(plan, [entry], Compiled(g, params[i + 1..], seen));
        plan := plan + [entry];
      }
    }
  }

  lemma CompiledStep(g: Graph, params: seq<Param>, i: nat, seen: set<Callable>)
    requires i < |params|
    ensures Compiled(g, params[i..], seen) ==
      [CompiledParam(g, params[i], seen)] + Compiled(g, params[i + 1..], seen)
  {
    assert params[i..][0] == params[i] && params[i..][1..] == params[i + 1..];
  }

  // ---- entries mirror their parameters ------------------------------------

  // An entry keeps what its parameter says.
  predicate Mirrors(g: Graph, e: Entry, p: Param) {
    match p
    case LeafParam(name, source) => e == Leaf(name, source)
    case DepParam(name, c, useCache, scopes) =>
      e.Dep? && e.name == name && e.callable == c && e.useCache == useCache && e.scopes == scopes &&
      e.securityClass == (c in g.schemes) && !e.isInternal
  }

  // One entry for each parameter, in order, on every graph and below every
  // guard.  Its sub-plan has one for each parameter of the callable's signature,
  // unless the callable is a scheme, has none, or is being expanded.
  lemma {:induction false} CompiledMirrors(g: Graph, params: seq<Param>, seen: set<Callable>)
    ensures
      var plan := Compiled(g, params, seen);
      |plan| == |params| &&
      forall i :: 0 <= i < |params| ==>
        Mirrors(g, plan[i], params[i]) &&
        (plan[i].Dep? ==>
          var c := plan[i].callable;
          if c in g.signatures && c !in g.schemes && c !in seen then |plan[i].plan| == |g.signatures[c]|
          else plan[i].plan == [])
    decreases |params|
  {
    if params != [] {
      CompiledMirrors(g, params[1..], seen);
    }
  }

  // ---- no expanded callable repeats on a path -----------------------------

  // A chain of dependency entries from a root of the forest downwards.
  predicate IsPath(plan: seq<Entry>, path: seq<Entry>)
    decreases |path|
  {
    path == [] || (path[0].Dep? && path[0] in plan && IsPath(path[0].plan, path[1..]))
  }

  lemma {:induction false} CompiledEntry(g: Graph, params: seq<Param>, seen: set<Callable>, e: Entry)
    requires e in Compiled(g, params, seen) && e.Dep? && e.plan != []
    ensures e.callable in g.signatures && e.callable !in seen && e.callable !in g.schemes
    ensures e.plan == Compiled(g, g.signatures[e.callable], seen + {e.callable})
    decreases |params|
  {
    if e != CompiledParam(g, params[0], seen) {
      CompiledEntry(g, params[1..], seen, e);
    }
  }

  predicate NoRepeat(path: seq<Entry>, seen: set<Callable>)
    requires forall e <- path :: e.Dep?
  {
    (forall j :: 0 <= j < |path| && path[j].plan != [] ==> path[j].callable !in seen) &&
    (forall i, j :: 0 <= i < j < |path| && path[j].plan != [] ==> path[i].callable != path[j].callable)
  }

  lemma {:induction false} PathEntriesAreDeps(plan: seq<Entry>, path: seq<Entry>)
    requires IsPath(plan, path)
    ensures forall e <- path :: e.Dep?
    decreases |path|
  {
    if path != [] {
      PathEntriesAreDeps(path[0].plan, path[1..]);
      assert path == [path[0]] + path[1..];
    }
  }

  // On every path, a callable that occurs again below itself is not expanded
  // again; so a path is no longer than the number of callables plus one.
  lemma {:induction false} NoRepeatOnPaths(g: Graph, params: seq<Param>, seen: set<Callable>, path: seq<Entry>)
    requires IsPath(Compiled(g, params, seen), path)
    ensures forall e <- path :: e.Dep?
    ensures NoRepeat(path, seen)
    ensures |path| <= |g.signatures.Keys - seen| + 1
    decreases |path|
  {
    PathEntriesAreDeps(Compiled(g, params, seen), path);
    if path != [] {
      var e, rest := path[0], path[1..];
      assert IsPath(e.plan, rest);
      if e.plan == [] {
        assert rest == [];
      } else {
        CompiledEntry(g, params, seen, e);
        NoRepeatOnPaths(g, g.signatures[e.callable], seen + {e.callable}, rest);
        OneLess(g.signatures.Keys, seen, e.callable);
        NoRepeatCons(path, seen);
      }
    }
  }

  lemma OneLess(all: set<Callable>, seen: set<Callable>, c: Callable)
    requires c in all && c !in seen
    ensures |all - (seen + {c})| + 1 == |all - seen|
  {
    assert all - (seen + {c}) == (all - seen) - {c};
  }

  lemma NoRepeatCons(path: seq<Entry>, seen: set<Callable>)
    requires path != [] && forall e <- path :: e.Dep?
    requires path[0].callable !in seen
    requires (forall e <- path[1..] :: e.Dep?) && NoRepeat(path[1..], seen + {path[0].callable})
    ensures NoRepeat(path, seen)
  {
    var rest := path[1..];
    forall j | 0 < j < |path| && path[j].plan != []
      ensures path[j].callable !in seen && path[j].callable != path[0].callable
    {
      assert rest[j - 1] == path[j];
    }
    forall i, j | 0 < i < j < |path| && path[j].plan != []
      ensures path[i].callable != path[j].callable
    {
      assert rest[i - 1] == path[i] && rest[j - 1] == path[j];
    }
  }

  // ---- acyclic graphs are unfolded in full --------------------------------

  // A callable whose signature the compiler would expand.
  predicate Expandable(g: Graph, c: Callable) {
    c in g.signatures && c !in g.schemes
  }

  // `rank` falls along every dependency that is expanded.
  predicate Ranked(g: Graph, rank: map<Callable, nat>) {
    forall c <- g.signatures :: c !in g.schemes ==> c in rank && Below(g, rank, g.signatures[c], rank[c])
  }

  predicate Below(g: Graph, rank: map<Callable, nat>, params: seq<Param>, bound: nat) {
    forall p <- params :: p.DepParam? && Expandable(g, p.callable) ==>
      p.callable in rank && rank[p.callable] < bound
  }

  // The unfolding with no guard set.
  function Unfolded(g: Graph, rank: map<Callable, nat>, params: seq<Param>, bound: nat): seq<Entry>
    requires Ranked(g, rank) && Below(g, rank, params, bound)
    decreases bound, |params|
  {
    if params == [] then []
    else
      [match params[0]
       case LeafParam(name, source) => Leaf(name, source)
       case DepParam(name, c, useCache, scopes) =>
         Dep(name, c, useCache, scopes, c in g.schemes, false,
             if c in g.schemes || c !in g.signatures then []
             else Unfolded(g, rank, g.signatures[c], rank[c]))]
      + Unfolded(g, rank, params[1..], bound)
  }

  // On an acyclic graph the guard never cuts: the plan is the full unfolding.
  lemma {:induction false} AcyclicIsUnfolded(g: Graph, rank: map<Callable, nat>, params: seq<Param>, bound: nat, seen: set<Callable>)
    requires Ranked(g, rank) && Below(g, rank, params, bound)
    requires forall c <- seen :: c in rank ==> rank[c] >= bound
    ensures Compiled(g, params, seen) == Unfolded(g, rank, params, bound)
    decreases bound, |params|
  {
    if params != [] {
      AcyclicIsUnfolded(g, rank, params[1..], bound, seen);
      match params[0]
      case LeafParam(_, _) =>
      case DepParam(_, c, _, _) =>
        assert params[0] in params;
        if c !in g.schemes && c in g.signatures {
          AcyclicIsUnfolded(g, rank, g.signatures[c], rank[c], seen + {c});
        }
    }
  }

  // ---- route-level dependencies -------------------------------------------

  // A marker of `dependencies=[Depends(...), ...]`; one without a callable is
  // skipped.
  datatype Marker = Marker(dependency: Option<Callable>, useCache: bool, scopes: seq<string>)

  // Compiled on its own, with an empty guard set and without its own callable.
  function RouteLevelEntry(g: Graph, name: string, m: Marker): Entry
    requires m.dependency.Some?
  {
    var c := m.dependency.value;
    Dep(name, c, m.useCache, m.scopes, c in g.schemes, true,
        if c in g.schemes then [] else Compiled(g, SignatureOf(g, c), {}))
  }

  // The markers that have a callable, with their names.
  function Usable(markers: seq<Marker>, names: seq<string>): seq<(string, Marker)>
    requires |names| == |markers|
  {
    if markers == [] then []
    else
      var n := |markers| - 1;
      Usable(markers[..n], names[..n]) + if markers[n].dependency.Some? then [(names[n], markers[n])] else []
  }

  // An internal entry keeps what its marker says.
  predicate Stands(g: Graph, e: Entry, name: string, m: Marker) {
    e.Dep? && e.isInternal && e.name == name && m.dependency == Some(e.callable) &&
    e.useCache == m.useCache && e.scopes == m.scopes && e.securityClass == (e.callable in g.schemes) &&
    e.plan == if e.callable !in g.signatures || e.securityClass then [] else Compiled(g, g.signatures[e.callable], {})
  }

  // The entries of a list of markers: one for each usable one, in order.
  predicate Expanded(g: Graph, entries: seq<Entry>, markers: seq<Marker>, names: seq<string>)
    requires |names| == |markers|
  {
    var usable := Usable(markers, names);
    |entries| == |usable| && forall k :: 0 <= k < |entries| ==> Stands(g, entries[k], usable[k].0, usable[k].1)
  }

  // `names` gives the synthetic parameter name of each position.
  method ExpandRouteLevelDependencies(g: Graph, markers: seq<Marker>, names: seq<string>) returns (out: seq<Entry>)
    requires |names| == |markers|
    ensures Expanded(g, out, markers, names)
  {
    out := [];
    for i := 0 to |markers|
      invariant Expanded(g, out, markers[..i], names[..i])
    {
      assert markers[..i + 1][..i] == markers[..i] && names[..i + 1][..i] == names[..i];
      if markers[i].dependency.None? {
        continue;
      }
      var c := markers[i].dependency.value;
      var sub := [];
      if c !in g.schemes {
        var compiler := new PlanCompiler();
        sub := compiler.CompileRoutePlan(g, c);
      }
      out := out + [Dep(names[i], c, markers[i].useCache, markers[i].scopes, c in g.schemes, true, sub)];
    }
    assert markers[..|markers|] == markers && names[..|names|] == names;
  }

  lemma StandsIsEntry(g: Graph, e: Entry, name: string, m: Marker)
    requires m.dependency.Some?
    ensures Stands(g, e, name, m) <==> e == RouteLevelEntry(g, name, m)
  {
  }

  lemma {:induction false} UsableHaveCallables(markers: seq<Marker>, names: seq<string>)
    requires |names| == |markers|
    ensures forall k :: 0 <= k < |Usable(markers, names)| ==> Usable(markers, names)[k].1.dependency.Some?
    decreases |markers|
  {
    if markers != [] {
      var n := |markers| - 1;
      UsableHaveCallables(markers[..n], names[..n]);
    }
  }

  // On an acyclic graph a dependency has the same plan wherever it stands: at
  // route level, or below any handler.
  lemma PlansAgreeIfAcyclic(g: Graph, rank: map<Callable, nat>, c: Callable, seen: set<Callable>)
    requires Ranked(g, rank) && Expandable(g, c)
    requires forall d <- seen :: d in rank ==> rank[d] >= rank[c]
    ensures Compiled(g, g.signatures[c], seen) == Compiled(g, g.signatures[c], {})
  {
    AcyclicIsUnfolded(g, rank, g.signatures[c], rank[c], seen);
    AcyclicIsUnfolded(g, rank, g.signatures[c], rank[c], {});
  }
}
