// include_router of FastAPI and APIRouter (crates/fr-pyiface/src/app.rs): what
// the flat table holds after a tree of routers is included bottom-up.
module RouterTree {
  import Sequences
  import opened Wrappers
  import opened Routes

  // The arguments of one include_router call.  FastAPI's hides routes from the
  // schema and supplies a response class; APIRouter's does neither.
  datatype Include =
    | IntoApp(prefix: string, tags: seq<string>, inSchema: bool, defaultClass: Option<ResponseClass>)
    | IntoRouter(prefix: string, tags: seq<string>)

  // A router's own settings.
  datatype Config = Config(
    prefix: string,
    tags: seq<string>,
    dependencies: seq<Dependency>,
    defaultClass: Option<ResponseClass>)

  // ---- one include --------------------------------------------------------

  function MergeTags(tags: seq<string>, more: seq<string>): seq<string>
    decreases |more|
  {
    if more == [] then tags
    else MergeTags(if more[0] in tags then tags else tags + [more[0]], more[1..])
  }

  function EffectiveClass(inc: Include, c: Config): Option<ResponseClass> {
    match inc
    case IntoRouter(_, _) => None
    case IntoApp(_, _, _, given) => if given.Some? then given else c.defaultClass
  }

  function InSchema(inc: Include): bool {
    inc.IntoApp? ==> inc.inSchema
  }

  // The copy of a child's route that the including table gets.
  function Adopted(r: Route, inc: Include, c: Config): Route {
    r.(path := inc.prefix + c.prefix + r.path,
       tags := MergeTags(MergeTags(r.tags, c.tags), inc.tags),
       dependencies := c.dependencies + r.dependencies,
       includeInSchema := r.includeInSchema && InSchema(inc),
       responseClass := if r.responseClass.Some? then r.responseClass else EffectiveClass(inc, c))
  }

  function AdoptedAll(rs: seq<Route>, inc: Include, c: Config): (r: seq<Route>)
    ensures |r| == |rs| && forall i :: 0 <= i < |rs| ==> r[i] == Adopted(rs[i], inc, c)
  {
    seq(|rs|, i requires 0 <= i < |rs| => Adopted(rs[i], inc, c))
  }

  method PushTags(tags: seq<string>, more: seq<string>) returns (merged: seq<string>)
    ensures merged == MergeTags(tags, more)
  {
    merged := tags;
    for i := 0 to |more|
      invariant MergeTags(merged, more[i..]) == MergeTags(tags, more)
    {
      assert more[i..][0] == more[i] && more[i..][1..] == more[i + 1..];
      if more[i] !in merged {
        merged := merged + [more[i]];
      }
    }
    assert more[|more|..] == [];
  }

  // FastAPI or APIRouter: the routes of both are one mutable list.
  class APIRouter {
    const config: Config
    var routes: seq<Route>

    constructor (config: Config)
      ensures this.config == config && routes == []
    {
      this.config := config;
      routes := [];
    }

    method AddRoute(r: Route)
      modifies this
      ensures routes == old(routes) + [r]
    {
      routes := routes + [r];
    }

    // The source locks both route lists, so a router never includes itself.
    method IncludeRouter(router: APIRouter, inc: Include)
      requires router != this
      modifies this
      ensures routes == old(routes) + AdoptedAll(router.routes, inc, router.config)
    {
      var c := router.config;
      var effective := EffectiveClass(inc, c);
      for i := 0 to |router.routes|
        invariant router.routes == old(router.routes)
        invariant routes == old(routes) + AdoptedAll(router.routes, inc, c)[..i]
      {
        var r := router.routes[i];
        var joined := inc.prefix + c.prefix + r.path;
        var merged := PushTags(r.tags, c.tags);
        merged := PushTags(merged, inc.tags);
        var routeClass := if r.responseClass.Some? then r.responseClass else effective;
        routes := routes + [r.(path := joined,
                               tags := merged,
                               dependencies := c.dependencies + r.dependencies,
                               includeInSchema := r.includeInSchema && InSchema(inc),
                               responseClass := routeClass)];
      }
    }
  }

  // ---- a tree of routers --------------------------------------------------

  datatype Tree = Tree(config: Config, items: seq<Item>)

  // In registration order: an own route, or an included router.
  datatype Item = Own(route: Route) | Child(inc: Include, tree: Tree)

  function Flatten(items: seq<Item>): seq<Route>
    decreases items
  {
    if items == [] then [] else FlattenItem(items[0]) + Flatten(items[1..])
  }

  function FlattenItem(item: Item): seq<Route>
    decreases item
  {
    match item
    case Own(r) => [r]
    case Child(inc, t) => AdoptedAll(Flatten(t.items), inc, t.config)
  }

  // Building the routers and including each child once it is complete.
  method Build(t: Tree) returns (router: APIRouter)
    ensures fresh(router) && router.config == t.config && router.routes == Flatten(t.items)
    decreases t
  {
    router := new APIRouter(t.config);
    for i := 0 to |t.items|
      invariant fresh(router) && router.config == t.config
      invariant router.routes + Flatten(t.items[i..]) == Flatten(t.items)
    {
      assert t.items[i..][0] == t.items[i] && t.items[i..][1..] == t.items[i + 1..];
      ghost var before := router.routes;
      Sequences.Assoc(before, FlattenItem(t.items[i]), Flatten(t.items[i + 1..]));
      match t.items[i] {
        case Own(r) =>
          router.AddRoute(r);
        case Child(inc, sub) =>
          var child := Build(sub);
          router.IncludeRouter(child, inc);
      }
      assert router.routes == before + FlattenItem(t.items[i]);
    }
    assert t.items[|t.items|..] == [];
  }

  // ---- the closed form ----------------------------------------------------

  // One include on the way from the root to a route.
  datatype Hop = Hop(inc: Include, config: Config)

  // A route with the includes above it, outermost first.
  datatype Leaf = Leaf(chain: seq<Hop>, route: Route)

  function Under(h: Hop, leaves: seq<Leaf>): (r: seq<Leaf>)
    ensures |r| == |leaves|
    ensures forall i :: 0 <= i < |leaves| ==> r[i] == Leaf([h] + leaves[i].chain, leaves[i].route)
  {
    seq(|leaves|, i requires 0 <= i < |leaves| => Leaf([h] + leaves[i].chain, leaves[i].route))
  }

  // The leaves from left to right.
  function Leaves(items: seq<Item>): seq<Leaf>
    decreases items
  {
    if items == [] then [] else LeavesOf(items[0]) + Leaves(items[1..])
  }

  function LeavesOf(item: Item): seq<Leaf>
    decreases item
  {
    match item
    case Own(r) => [Leaf([], r)]
    case Child(inc, t) => Under(Hop(inc, t.config), Leaves(t.items))
  }

  function PrefixOf(chain: seq<Hop>): string {
    if chain == [] then "" else chain[0].inc.prefix + chain[0].config.prefix + PrefixOf(chain[1..])
  }

  function DependenciesOf(chain: seq<Hop>): seq<Dependency> {
    if chain == [] then [] else chain[0].config.dependencies + DependenciesOf(chain[1..])
  }

  function TagsOf(tags: seq<string>): set<string> {
    set t <- tags
  }

  function TagSet(chain: seq<Hop>): set<string> {
    if chain == [] then {}
    else TagsOf(chain[0].config.tags) + TagsOf(chain[0].inc.tags) + TagSet(chain[1..])
  }

  // The route's own class, or the innermost one an include supplies.
  function ClassOf(chain: seq<Hop>, own: Option<ResponseClass>): Option<ResponseClass> {
    if chain == [] then own
    else
      var inner := ClassOf(chain[1..], own);
      if inner.Some? then inner
      else
        match chain[0].inc
        case IntoRouter(_, _) => None
        case IntoApp(_, _, _, given) => if given == None then chain[0].config.defaultClass else given
  }

  // `merged` adds to `own` exactly the missing tags of `extra`, each once.
  predicate TagsMerged(own: seq<string>, merged: seq<string>, extra: set<string>) {
    own <= merged &&
    TagsOf(merged) == TagsOf(own) + extra &&
    (var added := merged[|own|..]; Sequences.NoDuplicates(added) && forall t <- added :: t !in own)
  }

  // What a flat route owes to its leaf.
  predicate Describes(r: Route, leaf: Leaf) {
    var own := leaf.route;
    r.path == PrefixOf(leaf.chain) + own.path &&
    r.dependencies == DependenciesOf(leaf.chain) + own.dependencies &&
    TagsMerged(own.tags, r.tags, TagSet(leaf.chain)) &&
    r.includeInSchema == (own.includeInSchema && forall h <- leaf.chain :: h.inc.IntoRouter? || h.inc.inSchema) &&
    r.responseClass == ClassOf(leaf.chain, own.responseClass) &&
    r.(path := own.path, dependencies := own.dependencies, tags := own.tags,
       includeInSchema := own.includeInSchema, responseClass := own.responseClass) == own
  }

  lemma OneTagAdded(own: seq<string>, tags: seq<string>, extra: set<string>, t: string)
    requires TagsMerged(own, tags, extra)
    ensures TagsMerged(own, if t in tags then tags else tags + [t], extra + {t})
  {
    if t in tags {
      assert t in TagsOf(tags);
    } else {
      var added := tags[|own|..];
      assert (tags + [t])[|own|..] == added + [t];
      assert forall x :: x in own || x in added ==> x in tags;
      assert TagsOf(tags + [t]) == TagsOf(tags) + {t};
    }
  }

  lemma {:induction false} MergeTagsAdds(own: seq<string>, tags: seq<string>, extra: set<string>, more: seq<string>)
    requires TagsMerged(own, tags, extra)
    ensures TagsMerged(own, MergeTags(tags, more), extra + TagsOf(more))
    decreases |more|
  {
    if more == [] {
      assert extra + TagsOf(more) == extra;
    } else {
      OneTagAdded(own, tags, extra, more[0]);
      MergeTagsAdds(own, if more[0] in tags then tags else tags + [more[0]], extra + {more[0]}, more[1..]);
      assert more == [more[0]] + more[1..];
      assert extra + {more[0]} + TagsOf(more[1..]) == extra + TagsOf(more);
    }
  }

  lemma AdoptedTags(r: Route, leaf: Leaf, h: Hop)
    requires TagsMerged(leaf.route.tags, r.tags, TagSet(leaf.chain))
    ensures TagsMerged(leaf.route.tags, Adopted(r, h.inc, h.config).tags, TagSet([h] + leaf.chain))
  {
    var extra, c, i := TagSet(leaf.chain), TagsOf(h.config.tags), TagsOf(h.inc.tags);
    MergeTagsAdds(leaf.route.tags, r.tags, extra, h.config.tags);
    MergeTagsAdds(leaf.route.tags, MergeTags(r.tags, h.config.tags), extra + c, h.inc.tags);
    assert ([h] + leaf.chain)[1..] == leaf.chain;
    assert extra + c + i == TagSet([h] + leaf.chain);
  }

  lemma AdoptedDescribes(r: Route, leaf: Leaf, h: Hop)
    requires Describes(r, leaf)
    ensures Describes(Adopted(r, h.inc, h.config), Leaf([h] + leaf.chain, leaf.route))
  {
    var chain := [h] + leaf.chain;
    assert chain[1..] == leaf.chain;
    AdoptedTags(r, leaf, h);
    Sequences.Assoc(h.inc.prefix + h.config.prefix, PrefixOf(leaf.chain), leaf.route.path);
    Sequences.Assoc(h.config.dependencies, DependenciesOf(leaf.chain), leaf.route.dependencies);
    assert chain[0] == h && h in chain;
    forall x <- leaf.chain
      ensures x in chain
    {
    }
  }

  // The flat table lists the leaves in registration order, and each route is
  // described by the chain of includes above it.
  lemma {:induction false} FlattenDescribesLeaves(items: seq<Item>)
    ensures |Flatten(items)| == |Leaves(items)|
    ensures forall i :: 0 <= i < |Leaves(items)| ==> Describes(Flatten(items)[i], Leaves(items)[i])
    decreases items
  {
    if items != [] {
      FlattenItemDescribesLeaves(items[0]);
      FlattenDescribesLeaves(items[1..]);
    }
  }

  lemma {:induction false} FlattenItemDescribesLeaves(item: Item)
    ensures |FlattenItem(item)| == |LeavesOf(item)|
    ensures forall i :: 0 <= i < |LeavesOf(item)| ==> Describes(FlattenItem(item)[i], LeavesOf(item)[i])
    decreases item
  {
    match item
    case Own(r) =>
      assert "" + r.path == r.path && [] + r.dependencies == r.dependencies;
    case Child(inc, t) =>
      FlattenDescribesLeaves(t.items);
      forall i | 0 <= i < |Leaves(t.items)|
        ensures Describes(FlattenItem(item)[i], LeavesOf(item)[i])
      {
        AdoptedDescribes(Flatten(t.items)[i], Leaves(t.items)[i], Hop(inc, t.config));
      }
  }
}
