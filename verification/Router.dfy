// Route selection in FastAPI._dispatch (crates/fr-pyiface/src/app.rs) and the
// trivial-route index of crates/fr-pyiface/src/server.rs.
module Router {
  import opened Wrappers
  import opened PathTemplate
  import opened Routes

  datatype App = App(
    routes: seq<Route>,
    dependencies: seq<Dependency>,
    openapiUrl: Option<string>,
    docsUrl: Option<string>,
    redocUrl: Option<string>,
    defaultClass: Option<ResponseClass>)

  datatype Outcome =
    | BuiltIn  // the schema or a documentation page
    | Matched(index: nat, params: seq<Capture>)
    | Redirect(path: string)  // 307
    | MethodNotAllowed  // 405
    | NotFound  // 404

  predicate IsBuiltIn(app: App, verb: string, path: string) {
    (verb == "GET" || verb == "HEAD") &&
    Some(path) in {app.openapiUrl, app.docsUrl, app.redocUrl}
  }

  predicate MatchesPath(r: Route, path: string) {
    Match(r.path, path).Some?
  }

  predicate Serves(r: Route, verb: string, path: string) {
    r.verb == verb && MatchesPath(r, path)
  }

  // ---- the other trailing-slash form --------------------------------------

  function TrimEndSlashes(s: string): (r: string)
    ensures r <= s
    ensures r == [] || r[|r| - 1] != '/'
    ensures forall k :: |r| <= k < |s| ==> s[k] == '/'
  {
    if s != [] && s[|s| - 1] == '/' then TrimEndSlashes(s[..|s| - 1]) else s
  }

  function AlternatePath(path: string): string {
    if path != [] && path[|path| - 1] == '/' then TrimEndSlashes(path) else path + "/"
  }

  // ---- selection ----------------------------------------------------------

  // The least index from i on of a route that serves the request, or |routes|.
  function FirstServing(routes: seq<Route>, i: nat, verb: string, path: string): (k: nat)
    requires i <= |routes|
    ensures i <= k <= |routes|
    ensures k < |routes| ==> Serves(routes[k], verb, path)
    ensures forall j :: i <= j < k ==> !Serves(routes[j], verb, path)
    decreases |routes| - i
  {
    if i == |routes| || Serves(routes[i], verb, path) then i
    else FirstServing(routes, i + 1, verb, path)
  }

  function Select(routes: seq<Route>, verb: string, path: string): Outcome {
    var k := FirstServing(routes, 0, verb, path);
    var g := FirstServing(routes, 0, "GET", path);
    if k < |routes| then Matched(k, Match(routes[k].path, path).value)
    else if verb == "HEAD" && g < |routes| then Matched(g, Match(routes[g].path, path).value)
    else if path != "/" && exists r <- routes :: Serves(r, verb, AlternatePath(path)) then
      Redirect(AlternatePath(path))
    else if exists r <- routes :: MatchesPath(r, path) then MethodNotAllowed
    else NotFound
  }

  function Dispatch(app: App, verb: string, path: string): Outcome {
    if IsBuiltIn(app, verb, path) then BuiltIn else Select(app.routes, verb, path)
  }

  // The schema and documentation pages answer GET and HEAD at their own URLs,
  // whatever the table holds.
  lemma BuiltInIff(app: App, verb: string, path: string)
    ensures Dispatch(app, verb, path) == BuiltIn <==>
      (verb == "GET" || verb == "HEAD") &&
      (app.openapiUrl == Some(path) || app.docsUrl == Some(path) || app.redocUrl == Some(path))
    ensures Dispatch(app, verb, path) != BuiltIn ==>
      Dispatch(app, verb, path) == Dispatch(App(app.routes, [], None, None, None, None), verb, path)
  {
    Classification(app.routes, verb, path, Select(app.routes, verb, path));
  }

  // The scan: one pass for the exact method, one for HEAD served by GET, one
  // for the redirect.
  method SelectRoute(app: App, verb: string, path: string) returns (r: Outcome)
    ensures r == Dispatch(app, verb, path)
  {
    if app.openapiUrl == Some(path) && (verb == "GET" || verb == "HEAD") {
      return BuiltIn;
    }
    if app.docsUrl == Some(path) && (verb == "GET" || verb == "HEAD") {
      return BuiltIn;
    }
    if app.redocUrl == Some(path) && (verb == "GET" || verb == "HEAD") {
      return BuiltIn;
    }
    var routes := app.routes;
    var pathExists := false;
    var methodMatch: Option<(nat, seq<Capture>)> := None;
    for i := 0 to |routes|
      invariant methodMatch.None?
      invariant pathExists <==> exists j :: 0 <= j < i && MatchesPath(routes[j], path)
      invariant FirstServing(routes, 0, verb, path) == FirstServing(routes, i, verb, path)
    {
      var params := MatchPathTemplate(routes[i].path, path);
      if params.Some? {
        pathExists := true;
        if routes[i].verb == verb {
          methodMatch := Some((i, params.value));
          break;
        }
      }
    }
    if methodMatch.None? && verb == "HEAD" {
      for i := 0 to |routes|
        invariant methodMatch.None?
        invariant FirstServing(routes, 0, "GET", path) == FirstServing(routes, i, "GET", path)
      {
        if routes[i].verb == "GET" {
          var params := MatchPathTemplate(routes[i].path, path);
          if params.Some? {
            methodMatch := Some((i, params.value));
            break;
          }
        }
      }
    }
    match methodMatch
    case Some((i, params)) => return Matched(i, params);
    case None =>
      if path != "/" {
        var alt := AlternatePath(path);
        for i := 0 to |routes|
          invariant forall j :: 0 <= j < i ==> !Serves(routes[j], verb, alt)
        {
          var params := MatchPathTemplate(routes[i].path, alt);
          if routes[i].verb == verb && params.Some? {
            assert routes[i] in routes;
            return Redirect(alt);
          }
        }
      }
      return if pathExists then MethodNotAllowed else NotFound;
  }

  // ---- the classification is total and exclusive --------------------------

  predicate Least(routes: seq<Route>, k: int, verb: string, path: string) {
    0 <= k < |routes| && Serves(routes[k], verb, path) &&
    forall j :: 0 <= j < k ==> !Serves(routes[j], verb, path)
  }

  predicate NoneServes(routes: seq<Route>, verb: string, path: string) {
    forall r <- routes :: !Serves(r, verb, path)
  }

  predicate Redirects(routes: seq<Route>, verb: string, path: string) {
    path != "/" && exists r <- routes :: Serves(r, verb, AlternatePath(path))
  }

  // What each answer means, read off the table.
  predicate Means(routes: seq<Route>, verb: string, path: string, o: Outcome) {
    var unserved := NoneServes(routes, verb, path) && (verb == "HEAD" ==> NoneServes(routes, "GET", path));
    match o
    case BuiltIn => false
    case Matched(k, params) =>
      (Least(routes, k, verb, path) ||
       (verb == "HEAD" && NoneServes(routes, "HEAD", path) && Least(routes, k, "GET", path))) &&
      Fills(routes[k].path, params, path)
    case Redirect(alt) => unserved && Redirects(routes, verb, path) && alt == AlternatePath(path)
    case MethodNotAllowed =>
      unserved && !Redirects(routes, verb, path) && exists r <- routes :: MatchesPath(r, path)
    case NotFound =>
      unserved && !Redirects(routes, verb, path) && forall r <- routes :: !MatchesPath(r, path)
  }

  lemma NoneServesIff(routes: seq<Route>, verb: string, path: string)
    ensures NoneServes(routes, verb, path) <==> FirstServing(routes, 0, verb, path) == |routes|
    ensures forall k :: Least(routes, k, verb, path) <==> k == FirstServing(routes, 0, verb, path) < |routes|
  {
    var k := FirstServing(routes, 0, verb, path);
    if k < |routes| {
      assert routes[k] in routes;
    }
  }

  // Every request gets exactly one answer, and it means what it should.
  lemma Classification(routes: seq<Route>, verb: string, path: string, o: Outcome)
    ensures Means(routes, verb, path, o) <==> o == Select(routes, verb, path)
  {
    NoneServesIff(routes, verb, path);
    NoneServesIff(routes, "GET", path);
    if o.Matched? && o.index < |routes| {
      MatchIffFills(routes[o.index].path, path, o.params);
    }
    var s := Select(routes, verb, path);
    if s.Matched? {
      MatchIffFills(routes[s.index].path, path, s.params);
    }
  }

  // Following a redirect with the same method reaches a handler (or a built-in
  // page), never a second redirect.
  lemma RedirectsDoNotChain(app: App, verb: string, path: string)
    requires Dispatch(app, verb, path).Redirect?
    ensures
      var next := Dispatch(app, verb, Dispatch(app, verb, path).path);
      next.BuiltIn? || (next.Matched? && app.routes[next.index].verb == verb)
  {
    NoneServesIff(app.routes, verb, AlternatePath(path));
  }

  // The target is the path with its trailing slash toggled.  It is empty, and
  // so no usable Location, exactly for a path of slashes only.  Two slashes at
  // the start, which make it a network-path reference, stay.
  lemma RedirectTarget(path: string)
    requires path != "/"
    ensures var alt := AlternatePath(path);
      alt != path &&
      (alt == path + "/" || (alt < path && forall k :: |alt| <= k < |path| ==> path[k] == '/')) &&
      (alt == "" <==> path != "" && forall k :: 0 <= k < |path| ==> path[k] == '/') &&
      (alt != "" ==> ("//" <= path <==> "//" <= alt))
  {
    var t := TrimEndSlashes(path);
    if path != [] && path[|path| - 1] == '/' {
      assert t != path;
      if t != "" {
        assert path[|t| - 1] == t[|t| - 1];
      }
    }
  }

  // A table that answers with the empty target.
  lemma RedirectToNothing(r: Route)
    requires r.path == ""
    ensures Dispatch(App([r], [], None, None, None, None), r.verb, "//") == Redirect("")
  {
    var routes := [r];
    assert AlternatePath("//") == "" by {
      RedirectTarget("//");
    }
    assert Match("", "") == Some([]) && Match("", "//").None?;
    assert Serves(routes[0], r.verb, "") && forall j :: 0 <= j < 1 ==> !MatchesPath(routes[j], "//");
  }

  // ---- the trivial-route index --------------------------------------------

  datatype Trivial = Trivial(handler: Handler, statusCode: nat, isAsync: bool, isHead: bool)

  type Key = (string, string)

  predicate Eligible(r: Route) {
    '{' !in r.path && !r.hasParams && r.dependencies == [] && !r.hasResponseModel && r.responseClass.None?
  }

  function EntryFor(r: Route, verb: string): Trivial {
    Trivial(r.handler, StatusOf(r), r.isAsync, verb == "HEAD")
  }

  function Insert(m: map<Key, Trivial>, r: Route): map<Key, Trivial> {
    if !Eligible(r) then m
    else
      var m1 := m[(r.verb, r.path) := EntryFor(r, r.verb)];
      if r.verb == "GET" then m1[("HEAD", r.path) := EntryFor(r, "HEAD")] else m1
  }

  function Inserted(routes: seq<Route>): map<Key, Trivial> {
    if routes == [] then map[] else Insert(Inserted(routes[..|routes| - 1]), routes[|routes| - 1])
  }

  function Snapshot(app: App): map<Key, Trivial> {
    if app.dependencies != [] then map[] else Inserted(app.routes)
  }

  method SnapshotTrivialRoutes(app: App) returns (out: map<Key, Trivial>)
    ensures out == Snapshot(app)
  {
    out := map[];
    if app.dependencies != [] {
      return;
    }
    for i := 0 to |app.routes|
      invariant out == Inserted(app.routes[..i])
    {
      var r := app.routes[i];
      assert app.routes[..i + 1][..i] == app.routes[..i];
      if '{' in r.path {
        continue;
      }
      if !(!r.hasParams && r.dependencies == [] && !r.hasResponseModel && r.responseClass.None?) {
        continue;
      }
      out := out[(r.verb, r.path) := Trivial(r.handler, StatusOf(r), r.isAsync, r.verb == "HEAD")];
      if r.verb == "GET" {
        out := out[("HEAD", r.path) := Trivial(r.handler, StatusOf(r), r.isAsync, true)];
      }
    }
    assert app.routes[..|app.routes|] == app.routes;
  }

  // r is indexed under the key.
  predicate Registers(r: Route, verb: string, path: string) {
    Eligible(r) && r.path == path && (r.verb == verb || (verb == "HEAD" && r.verb == "GET"))
  }

  predicate LastRegistration(routes: seq<Route>, k: int, verb: string, path: string) {
    0 <= k < |routes| && Registers(routes[k], verb, path) &&
    forall j :: k < j < |routes| ==> !Registers(routes[j], verb, path)
  }

  lemma InsertAt(m: map<Key, Trivial>, r: Route, verb: string, path: string)
    ensures
      var m1, key := Insert(m, r), (verb, path);
      if Registers(r, verb, path) then key in m1 && m1[key] == EntryFor(r, verb)
      else (key in m1 <==> key in m) && (key in m ==> m1[key] == m[key])
  {
  }

  lemma LastOfInit(routes: seq<Route>, k: int, verb: string, path: string)
    requires routes != []
    ensures
      var n := |routes| - 1;
      LastRegistration(routes, k, verb, path) <==>
        if Registers(routes[n], verb, path) then k == n
        else LastRegistration(routes[..n], k, verb, path)
  {
  }

  // A hit is the last eligible registration for its key.
  lemma {:induction false} InsertedIff(routes: seq<Route>, verb: string, path: string)
    ensures (verb, path) in Inserted(routes) <==> exists k :: LastRegistration(routes, k, verb, path)
    ensures forall k :: LastRegistration(routes, k, verb, path) ==>
      (verb, path) in Inserted(routes) && Inserted(routes)[(verb, path)] == EntryFor(routes[k], verb)
  {
    if routes != [] {
      var n := |routes| - 1;
      InsertedIff(routes[..n], verb, path);
      InsertAt(Inserted(routes[..n]), routes[n], verb, path);
      forall k
        ensures LastRegistration(routes, k, verb, path) <==>
          if Registers(routes[n], verb, path) then k == n
          else LastRegistration(routes[..n], k, verb, path)
      {
        LastOfInit(routes, k, verb, path);
      }
      if Registers(routes[n], verb, path) {
        assert LastRegistration(routes, n, verb, path);
      }
    }
  }

  // Indexed under a key are the plain literal routes with this path, under their
  // own method, and GET routes under HEAD too.
  predicate IndexedAs(r: Route, verb: string, path: string) {
    r.path == path && '{' !in path && (r.verb == verb || (r.verb == "GET" && verb == "HEAD")) &&
    !r.hasParams && r.dependencies == [] && !r.hasResponseModel && r.responseClass.None?
  }

  lemma RegistersIff(r: Route, verb: string, path: string)
    ensures Registers(r, verb, path) <==> IndexedAs(r, verb, path)
  {
  }

  // The index of an app with dependencies is empty; otherwise it answers for
  // exactly these keys.
  lemma IndexHas(app: App, verb: string, path: string)
    ensures (verb, path) in Snapshot(app) <==>
      app.dependencies == [] && exists r <- app.routes :: IndexedAs(r, verb, path)
  {
    if app.dependencies == [] {
      var routes := app.routes;
      InsertedIff(routes, verb, path);
      if (verb, path) in Inserted(routes) {
        var k :| LastRegistration(routes, k, verb, path);
        RegistersIff(routes[k], verb, path);
        assert routes[k] in routes;
      } else if exists r <- routes :: IndexedAs(r, verb, path) {
        var k := LastIndexed(routes, verb, path);
        LastIndexedIsRegistered(routes, k, verb, path);
      }
    }
  }

  lemma LastIndexedIsRegistered(routes: seq<Route>, k: nat, verb: string, path: string)
    requires k < |routes| && IndexedAs(routes[k], verb, path)
    requires forall j :: k < j < |routes| ==> !IndexedAs(routes[j], verb, path)
    ensures LastRegistration(routes, k, verb, path)
  {
    forall j | k <= j < |routes|
      ensures Registers(routes[j], verb, path) <==> IndexedAs(routes[j], verb, path)
    {
      RegistersIff(routes[j], verb, path);
    }
  }

  // The last such route gives the entry: its handler, its status in sixteen
  // bits (200 where none is given), and its flags.
  lemma IndexEntryIs(app: App, k: nat, verb: string, path: string)
    requires app.dependencies == [] && k < |app.routes| && IndexedAs(app.routes[k], verb, path)
    requires forall j :: k < j < |app.routes| ==> !IndexedAs(app.routes[j], verb, path)
    ensures (verb, path) in Snapshot(app)
    ensures
      var r, t := app.routes[k], Snapshot(app)[(verb, path)];
      t.handler == r.handler && t.isAsync == r.isAsync && (t.isHead <==> verb == "HEAD") &&
      t.statusCode == (match r.statusCode case None => 200 case Some(c) => c % 0x10000)
  {
    InsertedIff(app.routes, verb, path);
    LastIndexedIsRegistered(app.routes, k, verb, path);
  }

  lemma {:induction false} LastIndexed(routes: seq<Route>, verb: string, path: string) returns (k: nat)
    requires exists r <- routes :: IndexedAs(r, verb, path)
    ensures k < |routes| && IndexedAs(routes[k], verb, path)
    ensures forall j :: k < j < |routes| ==> !IndexedAs(routes[j], verb, path)
  {
    k := |routes| - 1;
    if !IndexedAs(routes[k], verb, path) {
      k := LastIndexed(routes[..k], verb, path);
    }
  }

  lemma LiteralMatchesItself(r: Route)
    requires Eligible(r)
    ensures Match(r.path, r.path) == Some([])
  {
  }

  // With no hypothesis on the table: whatever the index answers, the dispatcher
  // answers with a route or a built-in page, so a hit never hides a 404, 405 or
  // 307.
  lemma HitIsMatched(app: App, verb: string, path: string)
    requires (verb, path) in Snapshot(app)
    ensures Dispatch(app, verb, path).BuiltIn? || Dispatch(app, verb, path).Matched?
    ensures exists k ::
      LastRegistration(app.routes, k, verb, path) &&
      Snapshot(app)[(verb, path)] == EntryFor(app.routes[k], verb)
  {
    InsertedIff(app.routes, verb, path);
    var k :| LastRegistration(app.routes, k, verb, path);
    LiteralMatchesItself(app.routes[k]);
    assert Serves(app.routes[k], app.routes[k].verb, path);
    assert app.routes[k] in app.routes;
    NoneServesIff(app.routes, verb, path);
    NoneServesIff(app.routes, "GET", path);
  }

  // The index answers with the last registration.  The dispatcher chooses that
  // route too iff the URL is not built in and no other route comes before it.
  lemma HitAgreesIff(app: App, k: int, verb: string, path: string)
    requires app.dependencies == [] && LastRegistration(app.routes, k, verb, path)
    ensures (verb, path) in Snapshot(app) && Snapshot(app)[(verb, path)] == EntryFor(app.routes[k], verb)
    ensures Dispatch(app, verb, path) == Matched(k, []) <==>
      !IsBuiltIn(app, verb, path) &&
      (forall j :: 0 <= j < k ==> !Serves(app.routes[j], app.routes[k].verb, path)) &&
      (app.routes[k].verb != verb ==> NoneServes(app.routes, "HEAD", path))
  {
    var routes := app.routes;
    InsertedIff(routes, verb, path);
    LiteralMatchesItself(routes[k]);
    NoneServesIff(routes, verb, path);
    NoneServesIff(routes, "GET", path);
    assert routes[k] in routes;
  }

  // Literal routes are registered once, behind no template of their method
  // that matches them, and no HEAD route matches a literal GET path.
  predicate WellFormedTable(routes: seq<Route>) {
    (forall j, k :: 0 <= j < k < |routes| && Eligible(routes[k]) ==>
      !Serves(routes[j], routes[k].verb, routes[k].path)) &&
    (forall k :: 0 <= k < |routes| && Eligible(routes[k]) && routes[k].verb == "GET" ==>
      NoneServes(routes, "HEAD", routes[k].path))
  }

  // On such a table the index refines the dispatcher, except at built-in URLs,
  // which it does not know.
  lemma IndexRefinesDispatch(app: App, verb: string, path: string)
    requires WellFormedTable(app.routes) && (verb, path) in Snapshot(app)
    ensures
      var o, t := Dispatch(app, verb, path), Snapshot(app)[(verb, path)];
      if IsBuiltIn(app, verb, path) then o == BuiltIn
      else
        o.Matched? && o.params == [] &&
        t.handler == app.routes[o.index].handler && t.isAsync == app.routes[o.index].isAsync &&
        t.statusCode == (match app.routes[o.index].statusCode case None => 200 case Some(c) => c % 0x10000)
  {
    HitIsMatched(app, verb, path);
    var k :| LastRegistration(app.routes, k, verb, path) &&
      Snapshot(app)[(verb, path)] == EntryFor(app.routes[k], verb);
    HitAgreesIff(app, k, verb, path);
  }

  // Without it they differ: of two registrations of one key the index serves
  // the second, the scan the first.
  lemma DuplicateKeysDiffer(r: Route, s: Route)
    requires Eligible(r) && Eligible(s) && r.verb == s.verb && r.path == s.path
    requires r.handler != s.handler
    ensures
      var app := App([r, s], [], None, None, None, None);
      var key := (r.verb, r.path);
      Dispatch(app, r.verb, r.path) == Matched(0, []) &&
      key in Snapshot(app) && Snapshot(app)[key].handler == s.handler != app.routes[0].handler
  {
    var routes := [r, s];
    LiteralMatchesItself(r);
    assert Serves(routes[0], r.verb, r.path);
    assert LastRegistration(routes, 1, r.verb, r.path);
    InsertedIff(routes, r.verb, r.path);
  }

  // And at a built-in URL the index serves a route that the dispatcher never
  // reaches.
  lemma BuiltInIsOverruled(r: Route)
    requires Eligible(r) && r.verb == "GET"
    ensures
      var app := App([r], [], None, Some(r.path), None, None);
      WellFormedTable(app.routes) && Dispatch(app, "GET", r.path) == BuiltIn &&
      ("GET", r.path) in Snapshot(app) && Snapshot(app)[("GET", r.path)].handler == r.handler
  {
    var routes := [r];
    assert LastRegistration(routes, 0, "GET", r.path);
    InsertedIff(routes, "GET", r.path);
  }

  // ---- the check that skips the per-request state -------------------------

  predicate TakesFastPath(r: Route) {
    !r.hasParams && r.dependencies == [] && !r.hasResponseModel && r.responseClass.None?
  }

  // The first route with this very method and path text decides.
  predicate FirstExact(routes: seq<Route>, k: int, verb: string, path: string) {
    0 <= k < |routes| && routes[k].verb == verb && routes[k].path == path &&
    forall j :: 0 <= j < k ==> !(routes[j].verb == verb && routes[j].path == path)
  }

  method IsTrivialRoute(app: App, verb: string, path: string) returns (trivial: bool)
    ensures trivial <==>
      app.dependencies == [] &&
      exists k :: FirstExact(app.routes, k, verb, path) && var r := app.routes[k];
        !r.hasParams && r.dependencies == [] && !r.hasResponseModel && r.responseClass.None?
  {
    if app.dependencies != [] {
      return false;
    }
    for i := 0 to |app.routes|
      invariant forall j :: 0 <= j < i ==> !(app.routes[j].verb == verb && app.routes[j].path == path)
    {
      var r := app.routes[i];
      if r.verb != verb {
        continue;
      }
      if r.path != path {
        continue;
      }
      assert FirstExact(app.routes, i, verb, path);
      return !r.hasParams && r.dependencies == [] && !r.hasResponseModel && r.responseClass.None?;
    }
    return false;
  }

  lemma {:induction false} SegmentsMatchThemselves(ts: seq<string>)
    ensures MatchSegments(ts, ts).Some?
  {
    if ts != [] {
      SegmentsMatchThemselves(ts[1..]);
    }
  }

  // The check looks at path texts only, so it speaks of the route that is
  // dispatched to iff the URL is not built in and no earlier template of the
  // method matches.
  lemma TrivialRouteIsSelectedIff(app: App, k: int, verb: string, path: string)
    requires FirstExact(app.routes, k, verb, path)
    ensures
      var o := Dispatch(app, verb, path);
      (o.Matched? && o.index == k) <==>
      !IsBuiltIn(app, verb, path) && forall j :: 0 <= j < k ==> !Serves(app.routes[j], verb, path)
  {
    var routes := app.routes;
    FastPathAgrees(path, path);
    SegmentsMatchThemselves(Split(path));
    NoneServesIff(routes, verb, path);
    assert Serves(routes[k], verb, path);
    assert routes[k] in routes;
  }

  // The condition of the shortcut in the dispatcher itself, where the app's
  // default response class stands in for the route's and captures count.
  predicate RunsFastPath(app: App, verb: string, path: string) {
    var o := Dispatch(app, verb, path);
    o.Matched? && o.params == [] && app.dependencies == [] && app.defaultClass.None? &&
    TakesFastPath(app.routes[o.index])
  }

  lemma NoCapturesIff(template: string, path: string)
    requires Match(template, path).Some?
    ensures Match(template, path).value == [] <==> Names(Split(template)) == []
  {
    var cs := Match(template, path).value;
    MatchIffFills(template, path, cs);
    assert |NamesOf(cs)| == |cs|;
  }

  // A request that the check calls trivial, and for which the per-request state
  // is therefore not reset, takes the shortcut iff there is no default response
  // class, the URL is not built in, and the first route that serves it is a
  // fast one without placeholders.
  lemma TrivialTakesFastPathIff(app: App, k: int, verb: string, path: string)
    requires app.dependencies == [] && FirstExact(app.routes, k, verb, path) && TakesFastPath(app.routes[k])
    ensures RunsFastPath(app, verb, path) <==>
      app.defaultClass.None? && !IsBuiltIn(app, verb, path) &&
      exists j :: Least(app.routes, j, verb, path) && var r := app.routes[j];
        Names(Split(r.path)) == [] &&
        !r.hasParams && r.dependencies == [] && !r.hasResponseModel && r.responseClass.None?
  {
    var routes := app.routes;
    FastPathAgrees(path, path);
    SegmentsMatchThemselves(Split(path));
    assert Serves(routes[k], verb, path) && routes[k] in routes;
    NoneServesIff(routes, verb, path);
    var j := FirstServing(routes, 0, verb, path);
    assert Least(routes, j, verb, path);
    NoCapturesIff(routes[j].path, path);
  }

  // A fast literal route in an app with a default response class: the state is
  // not reset, and the shortcut is not taken.
  lemma DefaultClassNeedsState(r: Route, rc: ResponseClass)
    requires TakesFastPath(r)
    ensures
      var app := App([r], [], None, None, None, Some(rc));
      FirstExact(app.routes, 0, r.verb, r.path) && TakesFastPath(app.routes[0]) &&
      Dispatch(app, r.verb, r.path).Matched? && !RunsFastPath(app, r.verb, r.path)
  {
    var app := App([r], [], None, None, None, Some(rc));
    TrivialRouteIsSelectedIff(app, 0, r.verb, r.path);
  }
}
