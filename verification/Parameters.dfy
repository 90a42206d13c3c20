// Extraction of handler parameters from a request: extract_one_param and
// extract_body_params of crates/fr-pyiface/src/app.rs.
module Parameters {
  import opened Sequences
  import opened Wrappers
  import opened YieldDependencies

  datatype Source = InPath | InQuery | InHeader | InCookie | InForm | InFile | InBody

  // One plan entry that is filled from the request.
  datatype ParamSpec = ParamSpec(
    name: string,
    source: Source,
    kind: string,
    alias: Option<string>,
    required: bool,
    convertUnderscores: bool,
    embed: bool,
    jsonMedia: bool,      // its media type is JSON
    model: Option<nat>)

  datatype FormItem = FormText(s: string) | FormFile(id: nat)

  // The request, parsed once: header names are in lower case.
  datatype RequestData = RequestData(
    path: seq<(string, string)>,
    query: map<string, seq<string>>,
    headers: map<string, seq<string>>,
    cookies: map<string, string>,
    form: map<string, seq<FormItem>>,
    body: string)

  // A parsed JSON body: itself, and its members if it is an object.
  datatype ParsedBody = NotJson | Parsed(v: nat, members: Option<map<string, nat>>)

  // From a raw text and a type to a value.
  type Cast = (string, string) -> Option<Value>

  // Casts, validators, Pydantic and the JSON parser.  Sub-dependencies have a
  // cast of their own.  A failed validation says how many errors it reports.
  datatype Library = Library(
    cast: Cast,
    simpleCast: Cast,
    listOf: seq<Value> -> Value,
    accepts: (ParamSpec, Value) -> bool,
    formItem: FormItem -> Value,
    formItems: seq<FormItem> -> Value,
    readItem: FormItem -> Option<Value>,
    parse: string -> ParsedBody,
    raw: nat -> Value,
    validateJson: (nat, string, string) -> Result<Value, nat>,
    validatePython: (nat, string, nat) -> Result<Value, nat>,
    isJsonType: string -> bool)

  datatype ParamError =
    | Missing(loc: Source, key: string)
    | CannotCast(loc: Source, name: string, input: string)
    | Rejected(loc: Source, name: string, input: string)

  datatype Extracted = Bound(v: Value) | Default | Failed(e: ParamError)

  // ---- one parameter ------------------------------------------------------

  function Dashed(s: string): string {
    seq(|s|, i requires 0 <= i < |s| => if s[i] == '_' then '-' else s[i])
  }

  function AsciiLower(s: string): string {
    seq(|s|, i requires 0 <= i < |s| => if 'A' <= s[i] <= 'Z' then (s[i] as int + 32) as char else s[i])
  }

  function LookupKey(p: ParamSpec): string {
    if p.alias.Some? then p.alias.value
    else if p.source.InHeader? && p.convertUnderscores then Dashed(p.name)
    else p.name
  }

  function PathValue(path: seq<(string, string)>, name: string): seq<string> {
    if path == [] then []
    else if path[0].0 == name then [path[0].1]
    else PathValue(path[1..], name)
  }

  // The raw values; none at all counts like an empty list.
  function RawValues(p: ParamSpec, r: RequestData): seq<string> {
    var key := LookupKey(p);
    match p.source
    case InPath => PathValue(r.path, p.name)
    case InQuery => if key in r.query then r.query[key] else []
    case InHeader => if AsciiLower(key) in r.headers then r.headers[AsciiLower(key)] else []
    case InCookie => if key in r.cookies then [r.cookies[key]] else []
    case _ => []
  }

  function Texts(items: seq<FormItem>): seq<string> {
    if items == [] then []
    else (if items[0].FormText? then [items[0].s] else []) + Texts(items[1..])
  }

  predicate IsList(kind: string) {
    "list[" <= kind
  }

  function ElementKind(kind: string): string
    requires IsList(kind)
  {
    if |kind| > 5 && kind[|kind| - 1] == ']' then kind[5..|kind| - 1] else "str"
  }

  function Absent(p: ParamSpec, loc: Source, key: string): Extracted {
    if p.required then Failed(Missing(loc, key)) else Default
  }

  // The values cast in order, or the first that cannot be.
  function CastAll(cast: Cast, raws: seq<string>, kind: string): Result<seq<Value>, string> {
    if raws == [] then Ok([])
    else
      match cast(raws[0], kind)
      case None => Err(raws[0])
      case Some(v) =>
        match CastAll(cast, raws[1..], kind)
        case Err(s) => Err(s)
        case Ok(vs) => Ok([v] + vs)
  }

  // Casting, then the validators; lists are not validated.
  function FromRaw(lib: Library, p: ParamSpec, raws: seq<string>, loc: Source, key: string): Extracted {
    if raws == [] then Absent(p, loc, key)
    else if IsList(p.kind) then
      match CastAll(lib.cast, raws, ElementKind(p.kind))
      case Err(s) => Failed(CannotCast(loc, p.name, s))
      case Ok(vs) => Bound(lib.listOf(vs))
    else
      match lib.cast(raws[0], p.kind)
      case None => Failed(CannotCast(loc, p.name, raws[0]))
      case Some(v) => if lib.accepts(p, v) then Bound(v) else Failed(Rejected(loc, p.name, raws[0]))
  }

  const FORM_SCALARS := {"any", "str", "int", "float", "bool", "uuid"}

  function FromForm(lib: Library, p: ParamSpec, r: RequestData): Extracted {
    var key := if p.alias.Some? then p.alias.value else p.name;
    var items := if key in r.form then r.form[key] else [];
    if p.kind == "uploadfile" then
      if items == [] then Absent(p, InBody, key) else Bound(lib.formItem(items[0]))
    else if p.kind == "list[uploadfile]" then
      if key in r.form then Bound(lib.formItems(items)) else Absent(p, InBody, key)
    else if p.kind == "bytes" then
      match if items == [] then None else lib.readItem(items[0])
      case Some(v) => Bound(v)
      case None => Absent(p, InBody, key)
    else if p.kind in FORM_SCALARS || IsList(p.kind) then FromRaw(lib, p, Texts(items), InBody, key)
    else Absent(p, InBody, key)
  }

  function ExtractOne(lib: Library, p: ParamSpec, r: RequestData): Extracted {
    match p.source
    case InBody => Default
    case InForm => FromForm(lib, p, r)
    case InFile => FromForm(lib, p, r)
    case _ => FromRaw(lib, p, RawValues(p, r), p.source, LookupKey(p))
  }

  // ---- the same extraction for sub-dependencies ---------------------------

  // `alias if alias else ...`: an empty alias counts as none.
  function SimpleLookupKey(p: ParamSpec): string {
    LookupKey(if p.alias == Some("") then p.(alias := None) else p)
  }

  // _extract_simple of python/hyperfastapi/_routing.py, for the sources outside
  // the body: it knows no validators, and no lists in a path.
  function ExtractSimple(lib: Library, p: ParamSpec, r: RequestData): Extracted
    requires p.source in {InPath, InQuery, InHeader, InCookie}
  {
    var key := SimpleLookupKey(p);
    if p.source.InPath? then
      var vs := PathValue(r.path, p.name);
      if vs == [] then Absent(p, InPath, key) else SafeCast(lib, p, vs[0])
    else
      var values :=
        if p.source.InQuery? then if key in r.query then r.query[key] else []
        else if p.source.InHeader? then
          if AsciiLower(key) in r.headers then r.headers[AsciiLower(key)] else []
        else if key in r.cookies then [r.cookies[key]] else [];
      if values == [] then Absent(p, p.source, key)
      else if IsList(p.kind) then
        match CastAll(lib.simpleCast, values, ElementKind(p.kind))
        case Err(s) => Failed(CannotCast(p.source, p.name, s))
        case Ok(vs) => Bound(lib.listOf(vs))
      else SafeCast(lib, p, values[0])
  }

  function SafeCast(lib: Library, p: ParamSpec, raw: string): Extracted {
    match lib.simpleCast(raw, p.kind)
    case None => Failed(CannotCast(p.source, p.name, raw))
    case Some(v) => Bound(v)
  }

  // The two casts agree on the raw values of a parameter.
  predicate CastsAgree(lib: Library, p: ParamSpec, r: RequestData) {
    var kind := if IsList(p.kind) then ElementKind(p.kind) else p.kind;
    forall raw <- RawValues(p, r) :: lib.cast(raw, kind) == lib.simpleCast(raw, kind)
  }

  lemma {:induction false} CastAllAgrees(cast: Cast, other: Cast, raws: seq<string>, kind: string)
    requires forall raw <- raws :: cast(raw, kind) == other(raw, kind)
    ensures CastAll(cast, raws, kind) == CastAll(other, raws, kind)
  {
    if raws != [] {
      assert raws[0] in raws;
      CastAllAgrees(cast, other, raws[1..], kind);
    }
  }

  // Wherever the two casts agree and the alias is not empty, the two extractors
  // do: on keys, defaults, lists and errors.  Only a value that a validator
  // rejects gets through to a sub-dependency.
  lemma ExtractorsAgree(lib: Library, p: ParamSpec, r: RequestData)
    requires p.source in {InPath, InQuery, InHeader, InCookie} && !(p.source.InPath? && IsList(p.kind))
    requires CastsAgree(lib, p, r) && p.alias != Some("")
    ensures
      match ExtractOne(lib, p, r)
      case Failed(Rejected(loc, name, input)) =>
        loc == p.source && name == p.name && input == RawValues(p, r)[0] &&
        lib.cast(input, p.kind).Some? && ExtractSimple(lib, p, r) == Bound(lib.cast(input, p.kind).value)
      case x => ExtractSimple(lib, p, r) == x
  {
    var raws := RawValues(p, r);
    if IsList(p.kind) {
      CastAllAgrees(lib.cast, lib.simpleCast, raws, ElementKind(p.kind));
    } else if raws != [] {
      assert raws[0] in raws;
    }
  }

  // With an empty alias they look in different places: a handler is refused the
  // value that a sub-dependency is given.
  lemma EmptyAliasDiffers(lib: Library, p: ParamSpec, r: RequestData, raw: string)
    requires p.source.InQuery? && p.alias == Some("") && p.required && !IsList(p.kind)
    requires "" !in r.query && p.name in r.query && r.query[p.name] == [raw] && lib.simpleCast(raw, p.kind).Some?
    ensures ExtractOne(lib, p, r) == Failed(Missing(InQuery, ""))
    ensures ExtractSimple(lib, p, r) == Bound(lib.simpleCast(raw, p.kind).value)
  {
  }

  // What a sub-dependency is given for each of its parameters.
  function FromRequestBy(lib: Library, specs: seq<ParamSpec>, r: RequestData, code: ParamError -> nat): nat -> Extraction {
    (n: nat) =>
      if n < |specs| && specs[n].source in {InPath, InQuery, InHeader, InCookie} then
        match ExtractSimple(lib, specs[n], r)
        case Bound(v) => Found(v)
        case Default => UseDefault
        case Failed(e) => Bad(code(e))
      else UseDefault
  }

  // ---- all of them --------------------------------------------------------

  // The keyword arguments after binding the parameters to which f gives a value.
  function Bind(kwargs: Kwargs, ps: seq<ParamSpec>, f: ParamSpec -> Option<Value>): Kwargs
    decreases |ps|
  {
    if ps == [] then kwargs
    else
      var p := ps[|ps| - 1];
      var before := Bind(kwargs, ps[..|ps| - 1], f);
      match f(p)
      case None => before
      case Some(v) => before[p.name := v]
  }

  function ValueIn(lib: Library, r: RequestData): ParamSpec -> Option<Value> {
    p => match ExtractOne(lib, p, r) case Bound(v) => Some(v) case _ => None
  }

  function ErrorIn(lib: Library, r: RequestData): ParamSpec -> Option<ParamError> {
    p => match ExtractOne(lib, p, r) case Failed(e) => Some(e) case _ => None
  }

  // One error for each failing entry, in plan order.
  method ExtractParams(lib: Library, ps: seq<ParamSpec>, r: RequestData)
    returns (kwargs: Kwargs, errors: seq<ParamError>)
    ensures kwargs == Bind(map[], ps, ValueIn(lib, r))
    ensures errors == FilterMap(ErrorIn(lib, r), ps)
  {
    kwargs, errors := map[], [];
    for i := 0 to |ps|
      invariant kwargs == Bind(map[], ps[..i], ValueIn(lib, r))
      invariant errors == FilterMap(ErrorIn(lib, r), ps[..i])
    {
      FilterMapStep(ErrorIn(lib, r), ps, i);
      assert ps[..i + 1][..i] == ps[..i];
      match ExtractOne(lib, ps[i], r) {
        case Bound(v) => kwargs := kwargs[ps[i].name := v];
        case Default =>
        case Failed(e) => errors := errors + [e];
      }
    }
    assert ps[..|ps|] == ps;
  }

  // ---- the body -----------------------------------------------------------

  datatype BodyError = MissingBody(loc: seq<string>) | JsonInvalid | ModelError(name: string, number: nat)

  // How the body is read: as one value, or as an envelope with a member for
  // each parameter.
  datatype BodyMode =
    | Empty(single: bool)
    | Whole
    | Broken              // an envelope is needed and the body is not JSON
    | NoEnvelope          // ... or not an object
    | Envelope(members: map<string, nat>)

  function IfBody(p: ParamSpec): Option<ParamSpec> {
    if p.source.InBody? then Some(p) else None
  }

  function BodyParams(ps: seq<ParamSpec>): seq<ParamSpec> {
    FilterMap(IfBody, ps)
  }

  function ModeOf(lib: Library, bodies: seq<ParamSpec>, body: string): BodyMode {
    var single := |bodies| == 1 && !exists p <- bodies :: p.embed;
    if body == "" then Empty(single)
    else if single then Whole
    else
      match lib.parse(body)
      case NotJson => Broken
      case Parsed(_, None) => NoEnvelope
      case Parsed(_, Some(ms)) => Envelope(ms)
  }

  function ModelErrors(name: string, n: nat): seq<BodyError> {
    seq(n, (i: nat) => ModelError(name, i))
  }

  function Validated(p: ParamSpec, r: Result<Value, nat>): (Option<Value>, seq<BodyError>) {
    match r
    case Ok(v) => (Some(v), [])
    case Err(n) => (None, ModelErrors(p.name, n))
  }

  predicate IsModel(p: ParamSpec) {
    p.kind == "model" || p.kind == "list[model]"
  }

  // The value and the errors of one body parameter.
  function BodyEntry(lib: Library, body: string, mode: BodyMode, p: ParamSpec): (Option<Value>, seq<BodyError>) {
    match mode
    case Empty(single) => (None, if p.required then [MissingBody(if single then [p.name] else ["body", p.name])] else [])
    case NoEnvelope => (None, if p.required then [MissingBody(["body", p.name])] else [])
    case Broken => (None, [])
    case Whole =>
      if IsModel(p) then
        if p.model.None? then (None, []) else Validated(p, lib.validateJson(p.model.value, p.kind, body))
      else
        (match lib.parse(body)
         case NotJson => (None, [JsonInvalid])
         case Parsed(v, _) => (Some(lib.raw(v)), []))
    case Envelope(members) =>
      if p.name !in members then (None, if p.required then [MissingBody(["body", p.name])] else [])
      else if IsModel(p) then
        if p.model.None? then (None, []) else Validated(p, lib.validatePython(p.model.value, p.kind, members[p.name]))
      else (Some(lib.raw(members[p.name])), [])
  }

  function BodyValue(lib: Library, body: string, mode: BodyMode): ParamSpec -> Option<Value> {
    p => BodyEntry(lib, body, mode, p).0
  }

  function BodyErrorsOf(lib: Library, body: string, mode: BodyMode): ParamSpec -> seq<BodyError> {
    p => BodyEntry(lib, body, mode, p).1
  }

  // All errors of the body, after the check of its content type.
  function BodyErrors(lib: Library, ps: seq<ParamSpec>, r: RequestData): seq<BodyError> {
    var bodies := BodyParams(ps);
    var mode := ModeOf(lib, bodies, r.body);
    ContentTypeErrors(lib, ps, r) +
    if mode.Broken? && bodies != [] then [JsonInvalid] else FlatMap(BodyErrorsOf(lib, r.body, mode), bodies)
  }

  function ContentTypeErrors(lib: Library, ps: seq<ParamSpec>, r: RequestData): seq<BodyError> {
    var types := if "content-type" in r.headers then r.headers["content-type"] else [];
    if (exists p <- ps :: p.source.InBody? && p.jsonMedia) && r.body != "" &&
       types != [] && types[0] != "" && !lib.isJsonType(types[0])
    then [JsonInvalid] else []
  }

  function BodyKwargs(lib: Library, ps: seq<ParamSpec>, r: RequestData, kwargs: Kwargs): Kwargs {
    var bodies := BodyParams(ps);
    Bind(kwargs, bodies, BodyValue(lib, r.body, ModeOf(lib, bodies, r.body)))
  }

  lemma FlatMapStep<T, U>(f: T -> seq<U>, s: seq<T>, i: nat)
    requires i < |s|
    ensures FlatMap(f, s[..i + 1]) == FlatMap(f, s[..i]) + f(s[i])
  {
    assert s[..i + 1] == s[..i] + [s[i]];
    FlatMapConcat(f, s[..i], [s[i]]);
    FlatMapSingle(f, s[i]);
  }

  lemma BindStep(kwargs: Kwargs, ps: seq<ParamSpec>, i: nat, f: ParamSpec -> Option<Value>)
    requires i < |ps|
    ensures
      var before := Bind(kwargs, ps[..i], f);
      Bind(kwargs, ps[..i + 1], f) == if f(ps[i]).Some? then before[ps[i].name := f(ps[i]).value] else before
  {
    assert ps[..i + 1][..i] == ps[..i];
  }

  // The loop over the body parameters.
  method ReadEntries(lib: Library, body: string, mode: BodyMode, bodies: seq<ParamSpec>, before: Kwargs)
    returns (kwargs: Kwargs, errors: seq<BodyError>)
    ensures kwargs == Bind(before, bodies, BodyValue(lib, body, mode))
    ensures errors == FlatMap(BodyErrorsOf(lib, body, mode), bodies)
  {
    kwargs, errors := before, [];
    var value, errorsOf := BodyValue(lib, body, mode), BodyErrorsOf(lib, body, mode);
    for i := 0 to |bodies|
      invariant kwargs == Bind(before, bodies[..i], value)
      invariant errors == FlatMap(errorsOf, bodies[..i])
    {
      BindStep(before, bodies, i, value);
      FlatMapStep(errorsOf, bodies, i);
      var v := value(bodies[i]);
      if v.Some? {
        kwargs := kwargs[bodies[i].name := v.value];
      }
      errors := errors + errorsOf(bodies[i]);
    }
    assert bodies[..|bodies|] == bodies;
  }

  method ExtractBodyParams(lib: Library, ps: seq<ParamSpec>, r: RequestData, before: Kwargs)
    returns (kwargs: Kwargs, errors: seq<BodyError>)
    ensures kwargs == BodyKwargs(lib, ps, r, before)
    ensures errors == BodyErrors(lib, ps, r)
  {
    kwargs, errors := before, ContentTypeErrors(lib, ps, r);
    var bodies := BodyParams(ps);
    if bodies == [] {
      assert errors + [] == errors;
      return;
    }
    var mode := ModeOf(lib, bodies, r.body);
    if mode.Broken? {
      BrokenBindsNothing(lib, r.body, bodies, before);
      errors := errors + [JsonInvalid];
      return;
    }
    var found;
    kwargs, found := ReadEntries(lib, r.body, mode, bodies, before);
    errors := errors + found;
  }

  lemma {:induction false} BrokenBindsNothing(lib: Library, body: string, bodies: seq<ParamSpec>, before: Kwargs)
    ensures Bind(before, bodies, BodyValue(lib, body, Broken)) == before
    decreases |bodies|
  {
    if bodies != [] {
      BrokenBindsNothing(lib, body, bodies[..|bodies| - 1], before);
    }
  }
}
