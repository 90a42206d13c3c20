// What the operation of a route says, in terms of the route alone: its request
// body, its responses and the security schemes it needs.
module OpenApiLaws {
  import opened Wrappers
  import opened OpenApi
  import opened OpenApiClosure

  // The component that stands for a model: its title if it has one that is not
  // empty, and otherwise the class name, as for a model that cannot be exported.
  predicate Named(m: Model, name: string) {
    if m.exportable && m.top.title.Some? && m.top.title.value != "" then name == m.top.title.value else name == m.name
  }

  predicate RefersTo(ref: Option<string>, model: Option<Model>) {
    match model
    case None => ref == None
    case Some(m) => ref.Some? && Named(m, ref.value)
  }

  // ---- request bodies -----------------------------------------------------

  predicate InTheBody(e: PlanEntry) {
    e.source == InBody || e.source == InForm || e.source == InFile
  }

  // The names of the form fields and files, in order.
  function FormNames(plan: seq<PlanEntry>): seq<string> {
    if plan == [] then []
    else
      var rest, e := FormNames(plan[1..]), plan[0];
      if e.source == InForm || e.source == InFile then [e.name] + rest else rest
  }

  lemma {:induction false} SelectedIff(plan: seq<PlanEntry>, e: PlanEntry)
    ensures e in Selected(plan, IsBodySource) <==> e in plan && InTheBody(e)
  {
    if plan != [] {
      var n := |plan| - 1;
      SelectedIff(plan[..n], e);
      assert plan == plan[..n] + [plan[n]];
    }
  }

  lemma {:induction false} SelectedOne(plan: seq<PlanEntry>, i: nat)
    requires i < |plan| && InTheBody(plan[i])
    requires forall j :: 0 <= j < |plan| && j != i ==> !InTheBody(plan[j])
    ensures Selected(plan, IsBodySource) == [plan[i]]
  {
    var n := |plan| - 1;
    if i == n {
      SelectedNone(plan[..n]);
    } else {
      SelectedOne(plan[..n], i);
    }
  }

  lemma {:induction false} SelectedNone(plan: seq<PlanEntry>)
    requires forall e <- plan :: !InTheBody(e)
    ensures Selected(plan, IsBodySource) == []
  {
    if plan != [] {
      assert plan[|plan| - 1] in plan;
      SelectedNone(plan[..|plan| - 1]);
    }
  }

  lemma {:induction false} SelectedTwo(plan: seq<PlanEntry>, i: nat, j: nat)
    requires i < j < |plan| && InTheBody(plan[i]) && InTheBody(plan[j])
    ensures |Selected(plan, IsBodySource)| >= 2
  {
    var n := |plan| - 1;
    if j == n {
      SelectedIff(plan[..n], plan[..n][i]);
    } else {
      SelectedTwo(plan[..n], i, j);
    }
  }

  // There is a request body iff some parameter is taken from it.
  lemma NoBodyIff(r: RouteDoc)
    ensures OperationOf(r).body == NoBody <==> forall e <- r.plan :: !InTheBody(e)
  {
    var entries := Selected(r.plan, IsBodySource);
    if entries == [] {
      forall e <- r.plan
        ensures !InTheBody(e)
      {
        SelectedIff(r.plan, e);
      }
    } else {
      SelectedIff(r.plan, entries[0]);
    }
  }

  // A lone body parameter is the body: a reference to its model, if it has one.
  lemma LoneBody(r: RouteDoc, i: nat)
    requires i < |r.plan| && r.plan[i].source == InBody
    requires forall j :: 0 <= j < |r.plan| && j != i ==> !InTheBody(r.plan[j])
    ensures
      match OperationOf(r).body
      case RefBody(ref) => RefersTo(Some(ref), r.plan[i].model)
      case PlainBody => r.plan[i].model.None?
      case _ => false
  {
    SelectedOne(r.plan, i);
  }

  lemma {:induction false} FormNamesSnoc(plan: seq<PlanEntry>, e: PlanEntry)
    ensures FormNames(plan + [e]) == FormNames(plan) + if e.source == InForm || e.source == InFile then [e.name] else []
  {
    if plan == [] {
      assert [e][1..] == [] && [] + [e] == [e];
    } else {
      FormNamesSnoc(plan[1..], e);
      assert (plan + [e])[1..] == plan[1..] + [e];
    }
  }

  lemma {:induction false} SelectedNames(plan: seq<PlanEntry>)
    requires forall e <- plan :: e.source != InBody
    ensures EntryNames(Selected(plan, IsBodySource)) == FormNames(plan)
  {
    if plan != [] {
      var n := |plan| - 1;
      SelectedNames(plan[..n]);
      assert plan == plan[..n] + [plan[n]];
      FormNamesSnoc(plan[..n], plan[n]);
    }
  }

  // Form fields and files, with no other body parameter, make a form.
  lemma FormBodyIs(r: RouteDoc)
    requires (exists e <- r.plan :: InTheBody(e)) && forall e <- r.plan :: e.source != InBody
    ensures OperationOf(r).body == FormBody(FormNames(r.plan))
  {
    var entries := Selected(r.plan, IsBodySource);
    var e :| e in r.plan && InTheBody(e);
    SelectedIff(r.plan, e);
    forall x <- entries
      ensures x.source.InForm? || x.source.InFile?
    {
      SelectedIff(r.plan, x);
    }
    assert entries[0] in entries;
    SelectedNames(r.plan);
  }

  lemma {:induction false} InlineHas(entries: seq<PlanEntry>, name: string)
    ensures name in InlineProperties(entries).0 <==> exists e <- entries :: e.source == InBody && e.name == name
  {
    if entries != [] {
      var n := |entries| - 1;
      InlineHas(entries[..n], name);
      assert entries == entries[..n] + [entries[n]];
    }
  }

  // The last body parameter of its name.
  predicate LastOfName(plan: seq<PlanEntry>, i: int) {
    0 <= i < |plan| && plan[i].source == InBody &&
    forall j :: i < j < |plan| ==> plan[j].source != InBody || plan[j].name != plan[i].name
  }

  lemma InlineSnoc(before: seq<PlanEntry>, e: PlanEntry)
    ensures
      var p, q := InlineProperties(before).0, InlineProperties(before + [e]).0;
      if e.source != InBody then q == p
      else
        q.Keys == p.Keys + {e.name} && RefersTo(q[e.name], e.model) &&
        forall name <- p :: name != e.name ==> q[name] == p[name]
  {
    var entries := before + [e];
    assert entries[..|entries| - 1] == before && entries[|entries| - 1] == e;
  }

  // The property after one more parameter.
  lemma InlineStep(plan: seq<PlanEntry>, e: PlanEntry, name: string)
    ensures
      var p := InlineProperties(Selected(plan, IsBodySource)).0;
      var q := InlineProperties(Selected(plan + [e], IsBodySource)).0;
      if e.source == InBody && e.name == name then name in q && RefersTo(q[name], e.model)
      else name in p ==> name in q && q[name] == p[name]
  {
    assert (plan + [e])[..|plan|] == plan;
    var before := Selected(plan, IsBodySource);
    assert Selected(plan + [e], IsBodySource) == before + if InTheBody(e) then [e] else [];
    if InTheBody(e) {
      InlineSnoc(before, e);
    } else {
      assert before + [] == before;
    }
  }

  lemma {:induction false} InlineIs(plan: seq<PlanEntry>, i: nat)
    requires LastOfName(plan, i)
    ensures
      var properties := InlineProperties(Selected(plan, IsBodySource)).0;
      plan[i].name in properties && RefersTo(properties[plan[i].name], plan[i].model)
  {
    var n := |plan| - 1;
    InlineStep(plan[..n], plan[n], plan[i].name);
    assert plan == plan[..n] + [plan[n]];
    if i < n {
      assert LastOfName(plan[..n], i);
      InlineIs(plan[..n], i);
    }
  }

  // Any other body is an object with a property for every body parameter, and
  // of two with the same name the later one's model.
  lemma InlineBodyIs(r: RouteDoc, b: nat, i: nat, j: nat)
    requires b < |r.plan| && r.plan[b].source == InBody
    requires i < j < |r.plan| && InTheBody(r.plan[i]) && InTheBody(r.plan[j])
    ensures OperationOf(r).body.InlineBody?
    ensures forall name :: name in OperationOf(r).body.properties <==>
      exists e <- r.plan :: e.source == InBody && e.name == name
    ensures forall k :: LastOfName(r.plan, k) ==>
      r.plan[k].name in OperationOf(r).body.properties &&
      RefersTo(OperationOf(r).body.properties[r.plan[k].name], r.plan[k].model)
  {
    var entries := Selected(r.plan, IsBodySource);
    SelectedTwo(r.plan, i, j);
    SelectedIff(r.plan, r.plan[b]);
    forall name
      ensures name in InlineProperties(entries).0 <==> exists e <- r.plan :: e.source == InBody && e.name == name
    {
      InlineHas(entries, name);
      forall e: PlanEntry
        ensures e in entries <==> e in r.plan && InTheBody(e)
      {
        SelectedIff(r.plan, e);
      }
    }
    forall k | LastOfName(r.plan, k)
      ensures r.plan[k].name in InlineProperties(entries).0 &&
              RefersTo(InlineProperties(entries).0[r.plan[k].name], r.plan[k].model)
    {
      InlineIs(r.plan, k);
    }
  }

  // ---- responses ----------------------------------------------------------

  // The decorator declares the status with a dictionary.
  predicate Declares(extras: seq<(string, Extra)>, i: int, status: string) {
    0 <= i < |extras| && extras[i].0 == status && extras[i].1.Described?
  }

  predicate DeclaresLast(extras: seq<(string, Extra)>, i: int, status: string) {
    Declares(extras, i, status) && forall j :: i < j < |extras| ==> !Declares(extras, j, status)
  }

  predicate Declared(extras: seq<(string, Extra)>, status: string) {
    exists i :: 0 <= i < |extras| && Declares(extras, i, status)
  }

  // Some parameter can fail validation.
  predicate CanFail(r: RouteDoc) {
    exists e <- r.plan ::
      e.source in {InPath, InQuery, InHeader, InCookie, InBody, InForm, InFile, InDepends, InSecurity}
  }

  predicate HasNoContent(code: int) {
    code == 204 || code == 304 || code < 200 || 300 <= code <= 399
  }

  lemma CapableIff(r: RouteDoc)
    ensures Capable(r.plan) <==> CanFail(r)
  {
    forall e: PlanEntry
      ensures e.source != Other <==>
        e.source in {InPath, InQuery, InHeader, InCookie, InBody, InForm, InFile, InDepends, InSecurity}
    {
    }
  }

  lemma {:induction false} DeclaredHas(r: RouteDoc, n: nat, status: string)
    requires n <= |r.extras|
    ensures status in DeclaredResponses(r, n).0 <==>
      status == r.statusText || exists i :: 0 <= i < n && Declares(r.extras, i, status)
  {
    if n > 0 {
      DeclaredHas(r, n - 1, status);
      assert Declares(r.extras, n - 1, status) || !Declares(r.extras, n - 1, status);
    }
  }

  // The statuses documented: that of success, those the decorator declares, and
  // 422 if some parameter can fail validation.
  lemma ResponsesAre(r: RouteDoc, status: string)
    ensures status in OperationOf(r).responses <==>
      status == r.statusText || Declared(r.extras, status) || (status == "422" && CanFail(r))
  {
    DeclaredHas(r, |r.extras|, status);
    CapableIff(r);
  }

  lemma {:induction false} DeclaredIs(r: RouteDoc, n: nat, i: nat, status: string)
    requires i < n <= |r.extras| && Declares(r.extras, i, status)
    requires forall j :: i < j < n ==> !Declares(r.extras, j, status)
    ensures
      var responses := DeclaredResponses(r, n).0;
      status in responses && RefersTo(responses[status], r.extras[i].1.model)
  {
    if i < n - 1 {
      assert !Declares(r.extras, n - 1, status);
      DeclaredIs(r, n - 1, i, status);
    }
  }

  lemma {:induction false} UndeclaredIs(r: RouteDoc, n: nat)
    requires n <= |r.extras| && forall j :: 0 <= j < n ==> !Declares(r.extras, j, r.statusText)
    ensures r.statusText in DeclaredResponses(r, n).0
    ensures DeclaredResponses(r, n).0[r.statusText] == DeclaredResponses(r, 0).0[r.statusText]
  {
    if n > 0 {
      assert !Declares(r.extras, n - 1, r.statusText);
      UndeclaredIs(r, n - 1);
    }
  }

  // What each of them refers to: the model of its last declaration; failing
  // that, for success the response model, unless the status forbids a body, and
  // for 422 the validation error.
  lemma ResponseIs(r: RouteDoc, status: string)
    requires status in OperationOf(r).responses
    ensures
      var ref := OperationOf(r).responses[status];
      (forall i :: DeclaresLast(r.extras, i, status) ==> RefersTo(ref, r.extras[i].1.model)) &&
      (!Declared(r.extras, status) ==>
        if status == r.statusText then RefersTo(ref, if HasNoContent(r.statusCode) then None else r.responseModel)
        else ref == Some("HTTPValidationError"))
  {
    var n := |r.extras|;
    DeclaredHas(r, n, status);
    forall i | DeclaresLast(r.extras, i, status)
      ensures RefersTo(OperationOf(r).responses[status], r.extras[i].1.model)
    {
      DeclaredIs(r, n, i, status);
    }
    if !Declared(r.extras, status) && status == r.statusText {
      UndeclaredIs(r, n);
    }
  }

  // ---- security -----------------------------------------------------------

  predicate Asks(r: RouteDoc, name: string) {
    exists s <- r.security :: s.0 == name
  }

  predicate FirstToName(security: seq<(string, nat)>, j: int, name: string) {
    0 <= j < |security| && security[j].0 == name && forall i :: 0 <= i < j ==> security[i].0 != name
  }

  lemma {:induction false} SchemesAre(security: seq<(string, nat)>, name: string)
    ensures name in SchemesOf(security) <==> exists s <- security :: s.0 == name
    ensures forall j :: FirstToName(security, j, name) ==>
      name in SchemesOf(security) && SchemesOf(security)[name] == security[j].1
  {
    if security != [] {
      var n := |security| - 1;
      SchemesAre(security[..n], name);
      assert security == security[..n] + [security[n]];
      forall j | FirstToName(security, j, name)
        ensures name in SchemesOf(security) && SchemesOf(security)[name] == security[j].1
      {
        if j < n {
          assert FirstToName(security[..n], j, name);
        } else {
          assert forall i :: 0 <= i < n ==> security[..n][i].0 != name;
        }
      }
    }
  }

  // A scheme is declared iff some published route asks for it, and as the
  // first entry that names it in the first such route.
  lemma {:induction false} DeclaredSchemesAre(routes: seq<RouteDoc>, name: string)
    ensures name in DocumentOf(routes).securitySchemes <==> exists r <- routes :: r.inSchema && Asks(r, name)
  {
    if routes != [] {
      var n := |routes| - 1;
      DeclaredSchemesAre(routes[..n], name);
      SchemesAre(routes[n].security, name);
      assert routes == routes[..n] + [routes[n]];
    }
  }

  lemma {:induction false} DeclaredSchemeIs(routes: seq<RouteDoc>, k: nat, j: nat)
    requires k < |routes| && routes[k].inSchema && j < |routes[k].security|
    requires FirstToName(routes[k].security, j, routes[k].security[j].0)
    requires forall l :: 0 <= l < k && routes[l].inSchema ==> !Asks(routes[l], routes[k].security[j].0)
    ensures
      var (name, model) := routes[k].security[j];
      name in DocumentOf(routes).securitySchemes && DocumentOf(routes).securitySchemes[name] == model
  {
    var n := |routes| - 1;
    var (name, model) := routes[k].security[j];
    SchemesAre(routes[k].security, name);
    if k < n {
      DeclaredSchemeIs(routes[..n], k, j);
    } else {
      DeclaredSchemesAre(routes[..n], name);
    }
  }

  // The operation kept for a path and method asks for the schemes of its route,
  // in order, and every one of them is declared.
  lemma OperationSecurity(routes: seq<RouteDoc>, i: nat, path: string, verb: string)
    requires LastPublisher(routes, i, path, verb)
    ensures (path, verb) in DocumentOf(routes).operations
    ensures
      var d := DocumentOf(routes);
      var names, security := d.operations[(path, verb)].security, routes[i].security;
      |names| == |security| &&
      forall j :: 0 <= j < |names| ==> names[j] == security[j].0 && names[j] in d.securitySchemes
  {
    OperationsAreLast(routes, path, verb);
    assert routes[i] in routes;
    var names := OperationOf(routes[i]).security;
    forall j | 0 <= j < |names|
      ensures names[j] in DocumentOf(routes).securitySchemes
    {
      assert routes[i].security[j] in routes[i].security;
      DeclaredSchemesAre(routes, names[j]);
    }
  }
}
