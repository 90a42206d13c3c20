// Every reference in the document resolves (section 4.8.23 of OpenAPI 3.1.0).
module OpenApiClosure {
  import opened Wrappers
  import opened OpenApi

  // A model's schemas refer to its own definitions only.
  predicate SelfContained(m: Model) {
    m.top.refs <= m.defs.Keys && forall k <- m.defs :: m.defs[k].refs <= m.defs.Keys
  }

  predicate ModelsOk(r: RouteDoc) {
    (forall e <- r.plan :: e.model.Some? ==> SelfContained(e.model.value)) &&
    (r.responseModel.Some? ==> SelfContained(r.responseModel.value)) &&
    (forall x <- r.extras :: x.1.Described? && x.1.model.Some? ==> SelfContained(x.1.model.value))
  }

  // ---- references ---------------------------------------------------------

  function RefsIn(m: map<string, Option<string>>): set<string> {
    set k | k in m && m[k].Some? :: m[k].value
  }

  function BodyRefs(b: RequestBody): set<string> {
    match b
    case RefBody(ref) => {ref}
    case InlineBody(properties) => RefsIn(properties)
    case _ => {}
  }

  function OperationRefs(op: Operation): set<string> {
    BodyRefs(op.body) + RefsIn(op.responses)
  }

  // Schemas that refer to each other only.
  predicate ClosedSchemas(schemas: Components) {
    forall k <- schemas :: schemas[k].refs <= schemas.Keys
  }

  predicate ClosedDocument(d: Document) {
    ClosedSchemas(d.schemas) &&
    (forall k <- d.operations :: OperationRefs(d.operations[k]) <= d.schemas.Keys) &&
    (forall k <- d.operations :: forall s <- d.operations[k].security :: s in d.securitySchemes)
  }

  // ---- merging keeps closure ----------------------------------------------

  lemma AddModelCloses(defs: Components, m: Model)
    requires ClosedSchemas(defs) && SelfContained(m)
    ensures ClosedSchemas(AddModel(defs, m)) && ComponentName(m) in AddModel(defs, m)
    ensures defs.Keys <= AddModel(defs, m).Keys
  {
  }

  // The value kept for a name may be another model's, but its references were
  // merged with it.
  lemma FirstWinsCloses(a: Components, b: Components)
    requires ClosedSchemas(a) && ClosedSchemas(b)
    ensures ClosedSchemas(FirstWins(a, b)) && FirstWins(a, b).Keys == a.Keys + b.Keys
  {
  }

  lemma RefsInUpdate(m: map<string, Option<string>>, k: string, v: Option<string>)
    ensures RefsIn(m[k := v]) <= RefsIn(m) + if v.Some? then {v.value} else {}
  {
  }

  lemma {:induction false} InlineCloses(entries: seq<PlanEntry>)
    requires forall e <- entries :: e.model.Some? ==> SelfContained(e.model.value)
    ensures
      var (properties, defs) := InlineProperties(entries);
      ClosedSchemas(defs) && RefsIn(properties) <= defs.Keys
  {
    if entries != [] {
      var init, e := entries[..|entries| - 1], entries[|entries| - 1];
      assert e in entries;
      InlineCloses(init);
      var (properties, defs) := InlineProperties(init);
      if e.source.InBody? {
        match e.model {
          case None => RefsInUpdate(properties, e.name, None);
          case Some(m) =>
            AddModelCloses(defs, m);
            RefsInUpdate(properties, e.name, Some(ComponentName(m)));
        }
      }
    }
  }

  lemma RequestBodyCloses(entries: seq<PlanEntry>)
    requires forall e <- entries :: e.model.Some? ==> SelfContained(e.model.value)
    ensures
      var (body, defs) := RequestBodyOf(entries);
      ClosedSchemas(defs) && BodyRefs(body) <= defs.Keys
  {
    if entries != [] {
      assert entries[0] in entries;
      if entries[0].model.Some? {
        AddModelCloses(map[], entries[0].model.value);
      }
      InlineCloses(entries);
    }
  }

  lemma {:induction false} DeclaredClose(r: RouteDoc, n: nat)
    requires n <= |r.extras| && ModelsOk(r)
    ensures
      var (responses, defs) := DeclaredResponses(r, n);
      ClosedSchemas(defs) && RefsIn(responses) <= defs.Keys
  {
    if n == 0 {
      if r.responseModel.Some? {
        AddModelCloses(map[], r.responseModel.value);
      }
    } else {
      DeclaredClose(r, n - 1);
      var (responses, defs) := DeclaredResponses(r, n - 1);
      assert r.extras[n - 1] in r.extras;
      match r.extras[n - 1]
      case (_, NotADict) =>
      case (status, Described(None)) => RefsInUpdate(responses, status, None);
      case (status, Described(Some(m))) =>
        AddModelCloses(defs, m);
        RefsInUpdate(responses, status, Some(ComponentName(m)));
    }
  }

  // The reference added for validation errors is resolved at the end.
  function Pending(r: RouteDoc): set<string> {
    if Capable(r.plan) then {HTTP_VALIDATION_ERROR} else {}
  }

  lemma ResponsesClose(r: RouteDoc)
    requires ModelsOk(r)
    ensures
      var (responses, defs) := ResponsesOf(r);
      ClosedSchemas(defs) && RefsIn(responses) <= defs.Keys + Pending(r)
  {
    DeclaredClose(r, |r.extras|);
    RefsInUpdate(DeclaredResponses(r, |r.extras|).0, "422", Some(HTTP_VALIDATION_ERROR));
  }

  lemma {:induction false} SelectedMembers(plan: seq<PlanEntry>, f: ParamSource -> bool)
    ensures forall e <- Selected(plan, f) :: e in plan
  {
    if plan != [] {
      SelectedMembers(plan[..|plan| - 1], f);
    }
  }

  lemma {:induction false} SchemesCover(security: seq<(string, nat)>)
    ensures forall s <- SchemeNames(security) :: s in SchemesOf(security)
  {
    if security != [] {
      var n := |security| - 1;
      SchemesCover(security[..n]);
      assert SchemeNames(security) == SchemeNames(security[..n]) + [security[n].0];
    }
  }

  // ---- the routes, one after the other ------------------------------------

  // Closed, except for a reference that waits for the validation schemas.
  predicate ClosedUpTo(d: Document, pending: set<string>) {
    ClosedSchemas(d.schemas) &&
    (forall k <- d.operations :: OperationRefs(d.operations[k]) <= d.schemas.Keys + pending) &&
    (forall k <- d.operations :: forall s <- d.operations[k].security :: s in d.securitySchemes)
  }

  lemma WithRouteCloses(d: Document, r: RouteDoc, pending: set<string>)
    requires ClosedUpTo(d, pending) && ModelsOk(r)
    ensures ClosedUpTo(WithRoute(d, r), pending + if r.inSchema then Pending(r) else {})
  {
    if r.inSchema {
      var entries := Selected(r.plan, IsBodySource);
      var bodyDefs, responseDefs := RequestBodyOf(entries).1, ResponsesOf(r).1;
      SelectedMembers(r.plan, IsBodySource);
      RequestBodyCloses(entries);
      ResponsesClose(r);
      FirstWinsCloses(d.schemas, bodyDefs);
      FirstWinsCloses(FirstWins(d.schemas, bodyDefs), responseDefs);
      SchemesCover(r.security);
    }
  }

  lemma {:induction false} WithRoutesCloses(routes: seq<RouteDoc>)
    requires forall r <- routes :: ModelsOk(r)
    ensures ClosedUpTo(WithRoutes(routes), if AnyCapable(routes) then {HTTP_VALIDATION_ERROR} else {})
  {
    if routes != [] {
      var init, r := routes[..|routes| - 1], routes[|routes| - 1];
      assert routes == init + [r] && r in routes;
      WithRoutesCloses(init);
      WithRouteCloses(WithRoutes(init), r, if AnyCapable(init) then {HTTP_VALIDATION_ERROR} else {});
    }
  }

  // For every list of routes the built document is closed: each `$ref` names a
  // component, and each required scheme is declared.
  lemma ReferencesResolve(routes: seq<RouteDoc>)
    requires forall r <- routes :: ModelsOk(r)
    ensures ClosedDocument(DocumentOf(routes))
  {
    WithRoutesCloses(routes);
    var d := WithRoutes(routes);
    if AnyCapable(routes) {
      FirstWinsCloses(d.schemas, VALIDATION_SCHEMAS);
    }
  }

  // ---- first come, first served -------------------------------------------

  predicate Extends<K, V(==)>(more: map<K, V>, less: map<K, V>) {
    forall k <- less :: k in more && more[k] == less[k]
  }

  // A component or scheme, once there, is never changed by a later route.
  lemma {:induction false} LaterRoutesKeepComponents(routes: seq<RouteDoc>, n: nat)
    requires n <= |routes|
    ensures Extends(WithRoutes(routes).schemas, WithRoutes(routes[..n]).schemas)
    ensures Extends(DocumentOf(routes).schemas, WithRoutes(routes[..n]).schemas)
    ensures Extends(DocumentOf(routes).securitySchemes, WithRoutes(routes[..n]).securitySchemes)
    decreases |routes|
  {
    if n == |routes| {
      assert routes[..n] == routes;
    } else {
      var init := routes[..|routes| - 1];
      LaterRoutesKeepComponents(init, n);
      assert init[..n] == routes[..n];
    }
  }

  predicate Publishes(r: RouteDoc, path: string, verb: string) {
    r.inSchema && r.path == path && r.verb == verb
  }

  predicate LastPublisher(routes: seq<RouteDoc>, i: int, path: string, verb: string) {
    0 <= i < |routes| && Publishes(routes[i], path, verb) &&
    forall j :: i < j < |routes| ==> !Publishes(routes[j], path, verb)
  }

  lemma OperationAdded(d: Document, r: RouteDoc, path: string, verb: string)
    ensures
      var before, after := d.operations, WithRoute(d, r).operations;
      if Publishes(r, path, verb) then (path, verb) in after && after[(path, verb)] == OperationOf(r)
      else ((path, verb) in after <==> (path, verb) in before) &&
           ((path, verb) in before ==> after[(path, verb)] == before[(path, verb)])
  {
  }

  lemma LastOfInit(routes: seq<RouteDoc>, i: int, path: string, verb: string)
    requires routes != []
    ensures
      var n := |routes| - 1;
      LastPublisher(routes, i, path, verb) <==>
        if Publishes(routes[n], path, verb) then i == n else LastPublisher(routes[..n], i, path, verb)
  {
  }

  lemma {:induction false} LastIsKept(routes: seq<RouteDoc>, path: string, verb: string)
    ensures
      var ops := WithRoutes(routes).operations;
      ((path, verb) in ops <==> exists i :: LastPublisher(routes, i, path, verb)) &&
      forall i :: LastPublisher(routes, i, path, verb) ==> ops[(path, verb)] == OperationOf(routes[i])
  {
    if routes != [] {
      var n := |routes| - 1;
      LastIsKept(routes[..n], path, verb);
      OperationAdded(WithRoutes(routes[..n]), routes[n], path, verb);
      forall i
        ensures LastPublisher(routes, i, path, verb) <==>
          if Publishes(routes[n], path, verb) then i == n else LastPublisher(routes[..n], i, path, verb)
      {
        LastOfInit(routes, i, path, verb);
      }
      if Publishes(routes[n], path, verb) {
        assert LastPublisher(routes, n, path, verb);
      }
    }
  }

  lemma {:induction false} LastExists(routes: seq<RouteDoc>, path: string, verb: string)
    ensures (exists r <- routes :: Publishes(r, path, verb)) <==> exists i :: LastPublisher(routes, i, path, verb)
  {
    if routes != [] {
      var n := |routes| - 1;
      LastExists(routes[..n], path, verb);
      assert routes == routes[..n] + [routes[n]];
      forall i
        ensures LastPublisher(routes, i, path, verb) <==>
          if Publishes(routes[n], path, verb) then i == n else LastPublisher(routes[..n], i, path, verb)
      {
        LastOfInit(routes, i, path, verb);
      }
      if Publishes(routes[n], path, verb) {
        assert LastPublisher(routes, n, path, verb);
      }
    }
  }

  // ---- whose schema a name has --------------------------------------------

  // The components that a route brings.
  function Contribution(r: RouteDoc): Components {
    if r.inSchema then FirstWins(RequestBodyOf(Selected(r.plan, IsBodySource)).1, ResponsesOf(r).1) else map[]
  }

  predicate Contributes(routes: seq<RouteDoc>, i: int, name: string) {
    0 <= i < |routes| && name in Contribution(routes[i])
  }

  predicate FirstContributor(routes: seq<RouteDoc>, i: int, name: string) {
    Contributes(routes, i, name) && forall j :: 0 <= j < i ==> !Contributes(routes, j, name)
  }

  lemma ContributionIsMerged(d: Document, r: RouteDoc)
    ensures WithRoute(d, r).schemas == FirstWins(d.schemas, Contribution(r))
  {
  }

  lemma {:induction false} FirstContributorWins(routes: seq<RouteDoc>, i: int, name: string)
    requires FirstContributor(routes, i, name)
    ensures name in WithRoutes(routes).schemas && WithRoutes(routes).schemas[name] == Contribution(routes[i])[name]
  {
    var n := |routes| - 1;
    ContributionIsMerged(WithRoutes(routes[..n]), routes[n]);
    if i < n {
      assert forall j :: 0 <= j < n ==> routes[..n][j] == routes[j];
      assert forall j :: 0 <= j <= i ==> (Contributes(routes[..n], j, name) <==> Contributes(routes, j, name));
      FirstContributorWins(routes[..n], i, name);
    } else {
      forall j | 0 <= j < n
        ensures name !in Contribution(routes[..n][j])
      {
        assert !Contributes(routes, j, name);
      }
      NotContributed(routes[..n], name);
    }
  }

  lemma {:induction false} NotContributed(routes: seq<RouteDoc>, name: string)
    requires forall j :: 0 <= j < |routes| ==> name !in Contribution(routes[j])
    ensures name !in WithRoutes(routes).schemas
  {
    if routes != [] {
      var n := |routes| - 1;
      NotContributed(routes[..n], name);
      ContributionIsMerged(WithRoutes(routes[..n]), routes[n]);
    }
  }

  // ---- model by model -----------------------------------------------------

  // What the export of one model brings: its schema under its title, or else its
  // name, and its definitions; a model that cannot be exported brings an empty
  // schema under its name.
  function Brings(m: Model): Components {
    if !m.exportable then map[m.name := Schema(None, {})]
    else if m.top.title == None || m.top.title == Some("") then map[m.name := m.top] + m.defs
    else map[m.top.title.value := m.top] + m.defs
  }

  // The models that a route refers to.
  function Models(r: RouteDoc): set<Model> {
    BodyModels(r.plan) + ResponseModels(r, |r.extras|)
  }

  function BodyModels(plan: seq<PlanEntry>): set<Model> {
    set e <- plan | e.source.InBody? && e.model.Some? :: e.model.value
  }

  function ResponseModels(r: RouteDoc, n: nat): set<Model>
    requires n <= |r.extras|
  {
    if n == 0 then
      if ForbidsBody(r.statusCode) || r.responseModel.None? then {} else {r.responseModel.value}
    else
      ResponseModels(r, n - 1) +
      match r.extras[n - 1].1
      case Described(Some(m)) => {m}
      case _ => {}
  }

  function Published(routes: seq<RouteDoc>): set<Model> {
    if routes == [] then {}
    else
      var r := routes[|routes| - 1];
      Published(routes[..|routes| - 1]) + if r.inSchema then Models(r) else {}
  }

  lemma AddModelIsMerge(defs: Components, m: Model)
    ensures AddModel(defs, m) == defs + Brings(m)
  {
  }

  // Every component comes from a model ...
  lemma {:induction false} InlineSource(entries: seq<PlanEntry>, name: string) returns (m: Model)
    requires name in InlineProperties(entries).1
    ensures m in BodyModels(entries) && name in Brings(m) && InlineProperties(entries).1[name] == Brings(m)[name]
  {
    var init, e := entries[..|entries| - 1], entries[|entries| - 1];
    assert e in entries;
    if e.source.InBody? && e.model.Some? && name in Brings(e.model.value) {
      m := e.model.value;
      AddModelIsMerge(InlineProperties(init).1, m);
    } else {
      if e.source.InBody? && e.model.Some? {
        AddModelIsMerge(InlineProperties(init).1, e.model.value);
      }
      m := InlineSource(init, name);
    }
  }

  lemma BodySource(entries: seq<PlanEntry>, name: string) returns (m: Model)
    requires name in RequestBodyOf(entries).1
    ensures m in BodyModels(entries) && name in Brings(m) && RequestBodyOf(entries).1[name] == Brings(m)[name]
  {
    if |entries| == 1 && entries[0].source.InBody? {
      assert entries[0] in entries;
      m := entries[0].model.value;
    } else {
      m := InlineSource(entries, name);
    }
  }

  lemma {:induction false} ResponseSource(r: RouteDoc, n: nat, name: string) returns (m: Model)
    requires n <= |r.extras| && name in DeclaredResponses(r, n).1
    ensures m in ResponseModels(r, n) && name in Brings(m) && DeclaredResponses(r, n).1[name] == Brings(m)[name]
  {
    if n == 0 {
      m := r.responseModel.value;
    } else {
      match r.extras[n - 1] {
        case (_, Described(Some(x))) =>
          AddModelIsMerge(DeclaredResponses(r, n - 1).1, x);
          if name in Brings(x) {
            m := x;
          } else {
            m := ResponseSource(r, n - 1, name);
          }
        case _ => m := ResponseSource(r, n - 1, name);
      }
    }
  }

  // ... and every model's components are there.
  lemma {:induction false} InlineCovers(entries: seq<PlanEntry>, m: Model)
    requires m in BodyModels(entries)
    ensures Brings(m).Keys <= InlineProperties(entries).1.Keys
  {
    var init, e := entries[..|entries| - 1], entries[|entries| - 1];
    if e.source.InBody? && e.model.Some? {
      AddModelIsMerge(InlineProperties(init).1, e.model.value);
    }
    if !(e.source.InBody? && e.model == Some(m)) {
      var f :| f in entries && f.source.InBody? && f.model == Some(m);
      assert f in init;
      InlineCovers(init, m);
    }
  }

  lemma BodyCovers(entries: seq<PlanEntry>, m: Model)
    requires m in BodyModels(entries)
    ensures Brings(m).Keys <= RequestBodyOf(entries).1.Keys
  {
    var e :| e in entries && e.source.InBody? && e.model == Some(m);
    if |entries| == 1 {
      assert entries[0] == e;
    } else {
      InlineCovers(entries, m);
    }
  }

  lemma {:induction false} ResponsesCover(r: RouteDoc, n: nat, m: Model)
    requires n <= |r.extras| && m in ResponseModels(r, n)
    ensures Brings(m).Keys <= DeclaredResponses(r, n).1.Keys
  {
    if n > 0 {
      match r.extras[n - 1] {
        case (_, Described(Some(x))) =>
          AddModelIsMerge(DeclaredResponses(r, n - 1).1, x);
          if x != m {
            ResponsesCover(r, n - 1, m);
          }
        case _ => ResponsesCover(r, n - 1, m);
      }
    }
  }

  lemma {:induction false} SelectedKeepsBodies(plan: seq<PlanEntry>)
    ensures BodyModels(Selected(plan, IsBodySource)) == BodyModels(plan)
  {
    if plan != [] {
      var init, e := plan[..|plan| - 1], plan[|plan| - 1];
      SelectedKeepsBodies(init);
      assert plan == init + [e];
      BodyModelsSnoc(init, e);
      if IsBodySource(e.source) {
        BodyModelsSnoc(Selected(init, IsBodySource), e);
      }
    }
  }

  lemma BodyModelsSnoc(plan: seq<PlanEntry>, e: PlanEntry)
    ensures BodyModels(plan + [e]) ==
      BodyModels(plan) + if e.source.InBody? && e.model.Some? then {e.model.value} else {}
  {
  }

  lemma ContributionSource(r: RouteDoc, name: string) returns (m: Model)
    requires name in Contribution(r)
    ensures m in Models(r) && name in Brings(m) && Contribution(r)[name] == Brings(m)[name]
  {
    var entries := Selected(r.plan, IsBodySource);
    SelectedKeepsBodies(r.plan);
    if name in RequestBodyOf(entries).1 {
      m := BodySource(entries, name);
    } else {
      m := ResponseSource(r, |r.extras|, name);
    }
  }

  lemma ContributionCovers(r: RouteDoc, m: Model)
    requires r.inSchema && m in Models(r)
    ensures Brings(m).Keys <= Contribution(r).Keys
  {
    var entries := Selected(r.plan, IsBodySource);
    SelectedKeepsBodies(r.plan);
    if m in BodyModels(r.plan) {
      BodyCovers(entries, m);
    } else {
      ResponsesCover(r, |r.extras|, m);
    }
  }

  lemma {:induction false} ComponentSource(routes: seq<RouteDoc>, name: string) returns (m: Model)
    requires name in WithRoutes(routes).schemas
    ensures m in Published(routes) && name in Brings(m) && WithRoutes(routes).schemas[name] == Brings(m)[name]
  {
    var init, r := routes[..|routes| - 1], routes[|routes| - 1];
    ContributionIsMerged(WithRoutes(init), r);
    if name in WithRoutes(init).schemas {
      m := ComponentSource(init, name);
    } else {
      m := ContributionSource(r, name);
    }
  }

  lemma {:induction false} ComponentsCover(routes: seq<RouteDoc>, m: Model)
    requires m in Published(routes)
    ensures Brings(m).Keys <= WithRoutes(routes).schemas.Keys
  {
    var init, r := routes[..|routes| - 1], routes[|routes| - 1];
    ContributionIsMerged(WithRoutes(init), r);
    if m in Published(init) {
      ComponentsCover(init, m);
    } else {
      ContributionCovers(r, m);
    }
  }

  // Everything that brings components: the models, and the validation schemas
  // if some route can fail validation.
  predicate Brought(routes: seq<RouteDoc>, b: Components) {
    (exists m <- Published(routes) :: b == Brings(m)) ||
    ((exists r <- routes :: r.inSchema && exists e <- r.plan :: e.source != Other) && b == VALIDATION_SCHEMAS)
  }

  // What is brought is found.
  predicate Found(b: Components, schemas: Components) {
    forall name <- b :: name in schemas && schemas[name] == b[name]
  }

  predicate Agree(a: Components, b: Components) {
    forall name <- a :: name in b ==> a[name] == b[name]
  }

  lemma DocumentSource(routes: seq<RouteDoc>, name: string) returns (b: Components)
    requires name in DocumentOf(routes).schemas
    ensures Brought(routes, b) && name in b && DocumentOf(routes).schemas[name] == b[name]
  {
    if name in WithRoutes(routes).schemas {
      var m := ComponentSource(routes, name);
      b := Brings(m);
    } else {
      b := VALIDATION_SCHEMAS;
    }
  }

  lemma DocumentCovers(routes: seq<RouteDoc>, b: Components)
    requires Brought(routes, b)
    ensures b.Keys <= DocumentOf(routes).schemas.Keys
  {
    if m :| m in Published(routes) && b == Brings(m) {
      ComponentsCover(routes, m);
    }
  }

  // Every model, and the validation schemas, are documented as they were
  // exported iff no two of them bring different schemas under one name.
  lemma NamesAreOwnIff(routes: seq<RouteDoc>)
    ensures
      (forall b :: Brought(routes, b) ==> Found(b, DocumentOf(routes).schemas)) <==>
      (forall a, b :: Brought(routes, a) && Brought(routes, b) ==> Agree(a, b))
  {
    var schemas := DocumentOf(routes).schemas;
    if forall a, b :: Brought(routes, a) && Brought(routes, b) ==> Agree(a, b) {
      forall b, name | Brought(routes, b) && name in b
        ensures name in schemas && schemas[name] == b[name]
      {
        DocumentCovers(routes, b);
        var a := DocumentSource(routes, name);
        assert Agree(a, b);
      }
    }
    if forall b :: Brought(routes, b) ==> Found(b, schemas) {
      forall a, b | Brought(routes, a) && Brought(routes, b)
        ensures Agree(a, b)
      {
        assert Found(a, schemas) && Found(b, schemas);
      }
    }
  }

  // ---- collisions ---------------------------------------------------------

  lemma BodyContributes(r: RouteDoc, e: PlanEntry)
    requires r.inSchema && r.plan == [e] && e.source.InBody? && e.model.Some?
    ensures
      var name := ComponentName(e.model.value);
      OperationOf(r).body == RefBody(name) &&
      name in Contribution(r) && Contribution(r)[name] == Brings(e.model.value)[name]
  {
    assert [e][..0] == [];
    assert Selected([e], IsBodySource) == [e];
  }

  // Two models of one name: the second route's body refers to the first's
  // schema.
  lemma SameNameCollides(r: RouteDoc, s: RouteDoc, a: PlanEntry, b: PlanEntry)
    requires r.inSchema && r.plan == [a] && a.source.InBody? && a.model.Some?
    requires s.inSchema && s.plan == [b] && b.source.InBody? && b.model.Some?
    requires ComponentName(a.model.value) == ComponentName(b.model.value)
    ensures
      var name, d := ComponentName(b.model.value), DocumentOf([r, s]);
      OperationOf(s).body == RefBody(name) && name in d.schemas &&
      d.schemas[name] == Brings(a.model.value)[name]
  {
    var routes, name := [r, s], ComponentName(b.model.value);
    BodyContributes(r, a);
    BodyContributes(s, b);
    FirstContributorWins(routes, 0, name);
    LaterRoutesKeepComponents(routes, 2);
    assert routes[..2] == routes;
  }

  // In one route, the body's schema wins over the response's.
  lemma BodyWinsOverResponse(r: RouteDoc, e: PlanEntry, m: Model)
    requires r.inSchema && r.plan == [e] && e.source.InBody? && e.model.Some?
    requires r.responseModel == Some(m) && !ForbidsBody(r.statusCode) && r.extras == []
    requires ComponentName(e.model.value) == ComponentName(m) && r.statusText != "422"
    ensures
      var name, d := ComponentName(m), DocumentOf([r]);
      OperationOf(r).responses[r.statusText] == Some(name) && name in d.schemas &&
      d.schemas[name] == Brings(e.model.value)[name]
  {
    BodyContributes(r, e);
    FirstContributorWins([r], 0, ComponentName(m));
    LaterRoutesKeepComponents([r], 1);
    assert [r][..1] == [r];
  }

  // Of two body parameters, the last one's schema is kept for both.
  lemma LastBodyWins(a: PlanEntry, b: PlanEntry)
    requires a.source.InBody? && b.source.InBody? && a.model.Some? && b.model.Some? && a.name != b.name
    requires ComponentName(a.model.value) == ComponentName(b.model.value)
    ensures
      var name, (body, defs) := ComponentName(b.model.value), RequestBodyOf([a, b]);
      body == InlineBody(map[a.name := Some(name), b.name := Some(name)]) &&
      name in defs && defs[name] == Brings(b.model.value)[name]
  {
    assert [a, b][..1] == [a] && [a][..0] == [];
    assert InlineProperties([]) == (map[], map[]);
    AddModelIsMerge(map[], a.model.value);
    assert map[] + Brings(a.model.value) == Brings(a.model.value);
    assert InlineProperties([a]) == (map[a.name := Some(ComponentName(a.model.value))], Brings(a.model.value));
    AddModelIsMerge(Brings(a.model.value), b.model.value);
  }

  // A model named like the validation error takes its place in every 422.
  lemma ValidationErrorTaken(r: RouteDoc, e: PlanEntry)
    requires r.inSchema && r.plan == [e] && e.source.InBody? && e.model.Some?
    requires ComponentName(e.model.value) == HTTP_VALIDATION_ERROR
    requires r.extras == [] && r.statusText != "422"
    ensures
      var name, d := HTTP_VALIDATION_ERROR, DocumentOf([r]);
      "422" in OperationOf(r).responses && OperationOf(r).responses["422"] == Some(name) &&
      name in d.schemas && d.schemas[name] == Brings(e.model.value)[name]
  {
    BodyContributes(r, e);
    assert r.plan[0] == e && Capable(r.plan);
    FirstContributorWins([r], 0, HTTP_VALIDATION_ERROR);
    LaterRoutesKeepComponents([r], 1);
    assert [r][..1] == [r];
  }

  // ---- operations ---------------------------------------------------------

  // Every published route has its operation; of two with the same path and
  // method the later one's is kept.
  lemma OperationsAreLast(routes: seq<RouteDoc>, path: string, verb: string)
    ensures
      var ops := DocumentOf(routes).operations;
      ((path, verb) in ops <==> exists r <- routes :: Publishes(r, path, verb)) &&
      forall i :: LastPublisher(routes, i, path, verb) ==> ops[(path, verb)] == OperationOf(routes[i])
  {
    LastIsKept(routes, path, verb);
    LastExists(routes, path, verb);
  }
}
