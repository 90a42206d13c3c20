// The OpenAPI 3.1 document builder of python/hyperfastapi/_openapi.py: the
// components it collects and the references it emits.
module OpenApi {
  import opened Wrappers

  // A JSON schema, as far as references go: its title and the components its
  // `$ref`s name.
  datatype Schema = Schema(title: Option<string>, refs: set<string>)

  // A Pydantic model and what `model_json_schema` gives for it; the export of
  // some models fails.
  datatype Model = Model(name: string, exportable: bool, top: Schema, defs: map<string, Schema>)

  datatype ParamSource = InPath | InQuery | InHeader | InCookie | InBody | InForm | InFile | InDepends | InSecurity | Other

  datatype PlanEntry = PlanEntry(name: string, source: ParamSource, model: Option<Model>)

  // One value of `responses={code: ...}`.
  datatype Extra = NotADict | Described(model: Option<Model>)

  datatype RouteDoc = RouteDoc(
    inSchema: bool,
    path: string,
    verb: string,  // in lower case
    plan: seq<PlanEntry>,
    statusCode: int,  // after the default 200
    statusText: string,  // str(statusCode)
    responseModel: Option<Model>,
    extras: seq<(string, Extra)>,
    security: seq<(string, nat)>)  // scheme name and model

  // ---- the document -------------------------------------------------------

  datatype RequestBody =
    | NoBody
    | RefBody(ref: string)
    | PlainBody
    | FormBody(names: seq<string>)
    | InlineBody(properties: map<string, Option<string>>)  // each with its $ref, if it has one

  datatype Operation = Operation(
    body: RequestBody,
    responses: map<string, Option<string>>,  // status to $ref
    security: seq<string>)

  type Components = map<string, Schema>

  datatype Document = Document(
    operations: map<(string, string), Operation>,
    schemas: Components,
    securitySchemes: map<string, nat>)

  const HTTP_VALIDATION_ERROR := "HTTPValidationError"
  const VALIDATION_ERROR := "ValidationError"

  function Exported(m: Model): (Schema, Components) {
    if m.exportable then (m.top, m.defs) else (Schema(None, {}), map[])
  }

  // `top.get("title") or model.__name__`
  function ComponentName(m: Model): string {
    var title := Exported(m).0.title;
    if title.Some? && title.value != "" then title.value else m.name
  }

  // `defs[name] = top; defs.update(sub_defs)`
  function AddModel(defs: Components, m: Model): Components {
    defs[ComponentName(m) := Exported(m).0] + Exported(m).1
  }

  // `setdefault` for every entry of `more`.
  function FirstWins(first: Components, more: Components): Components {
    more + first
  }

  predicate IsBodySource(s: ParamSource) {
    s.InBody? || s.InForm? || s.InFile?
  }

  function Selected(plan: seq<PlanEntry>, f: ParamSource -> bool): seq<PlanEntry> {
    if plan == [] then []
    else Selected(plan[..|plan| - 1], f) + if f(plan[|plan| - 1].source) then [plan[|plan| - 1]] else []
  }

  function EntryNames(entries: seq<PlanEntry>): seq<string> {
    seq(|entries|, i requires 0 <= i < |entries| => entries[i].name)
  }

  // The inline object of a request with several body parameters.
  function InlineProperties(entries: seq<PlanEntry>): (map<string, Option<string>>, Components) {
    if entries == [] then (map[], map[])
    else
      var (properties, defs) := InlineProperties(entries[..|entries| - 1]);
      var e := entries[|entries| - 1];
      if !e.source.InBody? then (properties, defs)
      else
        match e.model
        case None => (properties[e.name := None], defs)
        case Some(m) => (properties[e.name := Some(ComponentName(m))], AddModel(defs, m))
  }

  function RequestBodyOf(entries: seq<PlanEntry>): (RequestBody, Components) {
    if entries == [] then (NoBody, map[])
    else if |entries| == 1 && entries[0].source.InBody? then
      match entries[0].model
      case Some(m) => (RefBody(ComponentName(m)), AddModel(map[], m))
      case None => (PlainBody, map[])
    else if forall e <- entries :: e.source.InForm? || e.source.InFile? then (FormBody(EntryNames(entries)), map[])
    else
      var (properties, defs) := InlineProperties(entries);
      (InlineBody(properties), defs)
  }

  predicate Capable(plan: seq<PlanEntry>) {
    exists e <- plan :: e.source != Other
  }

  predicate ForbidsBody(code: int) {
    code == 204 || code == 304 || code < 200 || 300 <= code < 400
  }

  // The success response, and then those of the decorator.
  function DeclaredResponses(r: RouteDoc, n: nat): (map<string, Option<string>>, Components)
    requires n <= |r.extras|
  {
    if n == 0 then
      match if ForbidsBody(r.statusCode) then None else r.responseModel
      case None => (map[r.statusText := None], map[])
      case Some(m) => (map[r.statusText := Some(ComponentName(m))], AddModel(map[], m))
    else
      var (responses, defs) := DeclaredResponses(r, n - 1);
      match r.extras[n - 1]
      case (_, NotADict) => (responses, defs)
      case (status, Described(None)) => (responses[status := None], defs)
      case (status, Described(Some(m))) => (responses[status := Some(ComponentName(m))], AddModel(defs, m))
  }

  function ResponsesOf(r: RouteDoc): (map<string, Option<string>>, Components) {
    var (responses, defs) := DeclaredResponses(r, |r.extras|);
    if Capable(r.plan) && "422" !in responses
    then (responses["422" := Some(HTTP_VALIDATION_ERROR)], defs)
    else (responses, defs)
  }

  function SchemesOf(security: seq<(string, nat)>): map<string, nat> {
    if security == [] then map[]
    else
      var before := SchemesOf(security[..|security| - 1]);
      var (name, model) := security[|security| - 1];
      if name in before then before else before[name := model]
  }

  function SchemeNames(security: seq<(string, nat)>): seq<string> {
    seq(|security|, i requires 0 <= i < |security| => security[i].0)
  }

  function OperationOf(r: RouteDoc): Operation {
    Operation(
      RequestBodyOf(Selected(r.plan, IsBodySource)).0,
      ResponsesOf(r).0,
      SchemeNames(r.security))
  }

  // One route's contribution; a later route replaces an earlier operation of
  // the same path and method, but never a component.
  function WithRoute(d: Document, r: RouteDoc): Document {
    if !r.inSchema then d
    else Document(
      d.operations[(r.path, r.verb) := OperationOf(r)],
      FirstWins(FirstWins(d.schemas, RequestBodyOf(Selected(r.plan, IsBodySource)).1), ResponsesOf(r).1),
      SchemesOf(r.security) + d.securitySchemes)
  }

  function WithRoutes(routes: seq<RouteDoc>): Document {
    if routes == [] then Document(map[], map[], map[])
    else WithRoute(WithRoutes(routes[..|routes| - 1]), routes[|routes| - 1])
  }

  predicate AnyCapable(routes: seq<RouteDoc>) {
    exists r <- routes :: r.inSchema && Capable(r.plan)
  }

  const VALIDATION_SCHEMAS: Components :=
    map[HTTP_VALIDATION_ERROR := Schema(Some(HTTP_VALIDATION_ERROR), {VALIDATION_ERROR}),
        VALIDATION_ERROR := Schema(Some(VALIDATION_ERROR), {})]

  function DocumentOf(routes: seq<RouteDoc>): Document {
    var d := WithRoutes(routes);
    if AnyCapable(routes) then d.(schemas := FirstWins(d.schemas, VALIDATION_SCHEMAS)) else d
  }

  // ---- the builder --------------------------------------------------------

  method BuildRequestBody(entries: seq<PlanEntry>) returns (body: RequestBody, defs: Components)
    ensures (body, defs) == RequestBodyOf(entries)
  {
    defs := map[];
    if entries == [] {
      return NoBody, defs;
    }
    if |entries| == 1 && entries[0].source.InBody? {
      match entries[0].model {
        case Some(m) =>
          var (top, subDefs) := Exported(m);
          defs := defs[ComponentName(m) := top];
          defs := defs + subDefs;
          return RefBody(ComponentName(m)), defs;
        case None =>
          return PlainBody, defs;
      }
    }
    if forall e <- entries :: e.source.InForm? || e.source.InFile? {
      return FormBody(EntryNames(entries)), defs;
    }
    var properties: map<string, Option<string>> := map[];
    for i := 0 to |entries|
      invariant (properties, defs) == InlineProperties(entries[..i])
    {
      assert entries[..i + 1][..i] == entries[..i];
      var e := entries[i];
      if !e.source.InBody? {
        continue;
      }
      match e.model {
        case Some(m) =>
          var (top, subDefs) := Exported(m);
          defs := defs[ComponentName(m) := top];
          defs := defs + subDefs;
          properties := properties[e.name := Some(ComponentName(m))];
        case None =>
          properties := properties[e.name := None];
      }
    }
    assert entries[..|entries|] == entries;
    return InlineBody(properties), defs;
  }

  method BuildResponses(r: RouteDoc, capable: bool) returns (responses: map<string, Option<string>>, defs: Components)
    requires capable == Capable(r.plan)
    ensures (responses, defs) == ResponsesOf(r)
  {
    responses, defs := map[r.statusText := None], map[];
    if !ForbidsBody(r.statusCode) && r.responseModel.Some? {
      var m := r.responseModel.value;
      defs := AddModel(defs, m);
      responses := map[r.statusText := Some(ComponentName(m))];
    }
    for i := 0 to |r.extras|
      invariant (responses, defs) == DeclaredResponses(r, i)
    {
      var (status, extra) := r.extras[i];
      if extra.NotADict? {
        continue;
      }
      match extra.model {
        case Some(m) =>
          defs := AddModel(defs, m);
          responses := responses[status := Some(ComponentName(m))];
        case None =>
          responses := responses[status := None];
      }
    }
    if capable && "422" !in responses {
      responses := responses["422" := Some(HTTP_VALIDATION_ERROR)];
    }
  }

  method CollectSchemes(schemes: map<string, nat>, security: seq<(string, nat)>) returns (merged: map<string, nat>)
    ensures merged == SchemesOf(security) + schemes
  {
    merged := schemes;
    for i := 0 to |security|
      invariant merged == SchemesOf(security[..i]) + schemes
    {
      assert security[..i + 1][..i] == security[..i];
      var (name, model) := security[i];
      if name !in merged {
        merged := merged[name := model];
      }
    }
    assert security[..|security|] == security;
  }

  method BuildOpenApiSchema(routes: seq<RouteDoc>) returns (d: Document)
    ensures d == DocumentOf(routes)
  {
    d := Document(map[], map[], map[]);
    var anyCapable := false;
    for i := 0 to |routes|
      invariant d == WithRoutes(routes[..i])
      invariant anyCapable <==> AnyCapable(routes[..i])
    {
      assert routes[..i + 1][..i] == routes[..i] && routes[..i + 1] == routes[..i] + [routes[i]];
      var r := routes[i];
      if !r.inSchema {
        continue;
      }
      var body, bodyDefs := BuildRequestBody(Selected(r.plan, IsBodySource));
      var capable := Capable(r.plan);
      anyCapable := anyCapable || capable;
      var responses, responseDefs := BuildResponses(r, capable);
      var schemes := CollectSchemes(d.securitySchemes, r.security);
      var op := Operation(body, responses, SchemeNames(r.security));
      d := Document(
        d.operations[(r.path, r.verb) := op],
        FirstWins(FirstWins(d.schemas, bodyDefs), responseDefs),
        schemes);
    }
    assert routes[..|routes|] == routes;
    if anyCapable {
      d := d.(schemas := FirstWins(d.schemas, VALIDATION_SCHEMAS));
    }
  }
}
