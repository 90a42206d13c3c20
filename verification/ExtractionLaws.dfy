// What extraction takes from a request, source by source.
module ExtractionLaws {
  import opened Sequences
  import opened Wrappers
  import opened YieldDependencies
  import opened Parameters

  // ---- where a parameter is looked up -------------------------------------

  // The alias, or the name; in headers with dashes for underscores.
  predicate KeyIs(p: ParamSpec, key: string) {
    match p.alias
    case Some(a) => key == a
    case None =>
      |key| == |p.name| && forall i :: 0 <= i < |key| ==>
        key[i] == if p.source == InHeader && p.convertUnderscores && p.name[i] == '_' then '-' else p.name[i]
  }

  predicate LowerIs(key: string, low: string) {
    |low| == |key| && forall i :: 0 <= i < |key| ==>
      low[i] == if 65 <= key[i] as int <= 90 then (key[i] as int + 32) as char else key[i]
  }

  // Path parameters go by name, the first of the name counting; headers by the
  // lower-case key; the others by key.
  predicate RawsAre(p: ParamSpec, r: RequestData, key: string, low: string, raws: seq<string>) {
    match p.source
    case InPath =>
      (raws == [] && forall c <- r.path :: c.0 != p.name) ||
      (exists i :: 0 <= i < |r.path| && r.path[i].0 == p.name && raws == [r.path[i].1] &&
                   forall j :: 0 <= j < i ==> r.path[j].0 != p.name)
    case InQuery => raws == if key in r.query then r.query[key] else []
    case InHeader => raws == if low in r.headers then r.headers[low] else []
    case InCookie => raws == if key in r.cookies then [r.cookies[key]] else []
    case _ => false
  }

  // ---- what is made of the raw values -------------------------------------

  predicate ScalarIs(lib: Library, p: ParamSpec, loc: Source, raw: string, x: Extracted) {
    match lib.cast(raw, p.kind)
    case None => x == Failed(CannotCast(loc, p.name, raw))
    case Some(v) => x == if lib.accepts(p, v) then Bound(v) else Failed(Rejected(loc, p.name, raw))
  }

  // All values cast, in order; or the first that cannot be is reported.
  ghost predicate ListIs(lib: Library, p: ParamSpec, loc: Source, inner: string, raws: seq<string>, x: Extracted) {
    (exists vs: seq<Value> :: |vs| == |raws| && x == Bound(lib.listOf(vs)) &&
       forall i :: 0 <= i < |raws| ==> lib.cast(raws[i], inner) == Some(vs[i])) ||
    (exists i :: 0 <= i < |raws| && lib.cast(raws[i], inner).None? && x == Failed(CannotCast(loc, p.name, raws[i])) &&
       forall j :: 0 <= j < i ==> lib.cast(raws[j], inner).Some?)
  }

  // Nothing there: an error if it is required.  A list type has its element
  // type in brackets, or text; of the other types the first value counts.
  ghost predicate ConvertedIs(lib: Library, p: ParamSpec, loc: Source, key: string, raws: seq<string>, x: Extracted) {
    if raws == [] then x == if p.required then Failed(Missing(loc, key)) else Default
    else
      (forall inner :: p.kind == "list[" + inner + "]" ==> ListIs(lib, p, loc, inner, raws, x)) &&
      ("list[" <= p.kind && p.kind[|p.kind| - 1] != ']' ==> ListIs(lib, p, loc, "str", raws, x)) &&
      (!("list[" <= p.kind) ==> ScalarIs(lib, p, loc, raws[0], x))
  }

  lemma {:induction false} CastAllIs(lib: Library, raws: seq<string>, kind: string)
    ensures
      match CastAll(lib.cast, raws, kind)
      case Ok(vs) => |vs| == |raws| && forall i :: 0 <= i < |raws| ==> lib.cast(raws[i], kind) == Some(vs[i])
      case Err(raw) =>
        exists i :: 0 <= i < |raws| && raws[i] == raw && lib.cast(raws[i], kind).None? &&
          forall j :: 0 <= j < i ==> lib.cast(raws[j], kind).Some?
  {
    if raws != [] && lib.cast(raws[0], kind).Some? {
      CastAllIs(lib, raws[1..], kind);
      if CastAll(lib.cast, raws[1..], kind).Err? {
        var i :| 0 <= i < |raws[1..]| && raws[1..][i] == CastAll(lib.cast, raws[1..], kind).error &&
          lib.cast(raws[1..][i], kind).None? && forall j :: 0 <= j < i ==> lib.cast(raws[1..][j], kind).Some?;
        assert raws[i + 1] == raws[1..][i];
        forall j | 0 <= j < i + 1
          ensures lib.cast(raws[j], kind).Some?
        {
          if j > 0 {
            assert raws[j] == raws[1..][j - 1];
          }
        }
      }
    }
  }

  lemma FromRawConverts(lib: Library, p: ParamSpec, raws: seq<string>, loc: Source, key: string)
    ensures ConvertedIs(lib, p, loc, key, raws, FromRaw(lib, p, raws, loc, key))
  {
    if raws != [] {
      forall inner | p.kind == "list[" + inner + "]"
        ensures ListIs(lib, p, loc, inner, raws, FromRaw(lib, p, raws, loc, key))
      {
        assert "list[" <= p.kind && p.kind[5..|p.kind| - 1] == inner;
        CastAllIs(lib, raws, inner);
      }
      CastAllIs(lib, raws, "str");
    }
  }

  lemma {:induction false} PathValueIs(p: ParamSpec, r: RequestData, key: string, low: string, raws: seq<string>, n: nat)
    requires p.source.InPath? && RawsAre(p, r, key, low, raws) && n <= |r.path|
    requires forall j :: 0 <= j < n ==> r.path[j].0 != p.name
    ensures PathValue(r.path[n..], p.name) == raws
    decreases |r.path| - n
  {
    if n < |r.path| {
      assert r.path[n..][0] == r.path[n] && r.path[n..][1..] == r.path[n + 1..];
      assert r.path[n] in r.path;
      if r.path[n].0 != p.name {
        PathValueIs(p, r, key, low, raws, n + 1);
      }
    }
  }

  // A path, query, header or cookie parameter is the conversion of the values
  // found where it is looked up.
  lemma ExtractedFromRequest(lib: Library, p: ParamSpec, r: RequestData, key: string, low: string, raws: seq<string>)
    requires KeyIs(p, key) && LowerIs(key, low) && RawsAre(p, r, key, low, raws)
    ensures ConvertedIs(lib, p, p.source, key, raws, ExtractOne(lib, p, r))
  {
    assert LookupKey(p) == key;
    assert AsciiLower(key) == low;
    if p.source.InPath? {
      assert r.path[0..] == r.path;
      PathValueIs(p, r, key, low, raws, 0);
    }
    assert RawValues(p, r) == raws;
    FromRawConverts(lib, p, raws, p.source, key);
  }

  // ---- forms --------------------------------------------------------------

  // The text items, in order.
  predicate TextsAre(items: seq<FormItem>, texts: seq<string>)
    decreases |items|
  {
    if items == [] then texts == []
    else
      match items[0]
      case FormText(s) => texts != [] && texts[0] == s && TextsAre(items[1..], texts[1..])
      case FormFile(_) => TextsAre(items[1..], texts)
  }

  lemma {:induction false} TextsIs(items: seq<FormItem>, texts: seq<string>)
    requires TextsAre(items, texts)
    ensures Texts(items) == texts
    decreases |items|
  {
    if items != [] {
      TextsIs(items[1..], if items[0].FormText? then texts[1..] else texts);
    }
  }

  // A form or file parameter goes by its alias or plain name.
  predicate ItemsAre(p: ParamSpec, r: RequestData, key: string, items: seq<FormItem>) {
    (p.source == InForm || p.source == InFile) && key == (if p.alias.Some? then p.alias.value else p.name) &&
    items == if key in r.form then r.form[key] else []
  }

  function AbsentIs(p: ParamSpec, key: string): Extracted {
    if p.required then Failed(Missing(InBody, key)) else Default
  }

  // An upload is the first item, a list of uploads all of them, and `bytes` the
  // first item's content.
  lemma UploadsAre(lib: Library, p: ParamSpec, r: RequestData, key: string, items: seq<FormItem>)
    requires ItemsAre(p, r, key, items)
    ensures p.kind == "uploadfile" ==>
      ExtractOne(lib, p, r) == if items == [] then AbsentIs(p, key) else Bound(lib.formItem(items[0]))
    ensures p.kind == "list[uploadfile]" ==>
      ExtractOne(lib, p, r) == if key in r.form then Bound(lib.formItems(items)) else AbsentIs(p, key)
    ensures p.kind == "bytes" ==>
      ExtractOne(lib, p, r) ==
        if items != [] && lib.readItem(items[0]).Some? then Bound(lib.readItem(items[0]).value) else AbsentIs(p, key)
  {
  }

  predicate TextKind(kind: string) {
    kind == "any" || kind == "str" || kind == "int" || kind == "float" || kind == "bool" || kind == "uuid" ||
    ("list[" <= kind && kind != "list[uploadfile]")
  }

  lemma NotUpload(kind: string)
    requires TextKind(kind)
    ensures kind != "uploadfile" && kind != "list[uploadfile]" && kind != "bytes"
    ensures kind in FORM_SCALARS || IsList(kind)
  {
    if "list[" <= kind {
      assert kind[0] == 'l';
    }
  }

  // The other types are converted from the text items, in order; what is no type
  // of a form counts as absent.
  lemma ExtractedFromForm(lib: Library, p: ParamSpec, r: RequestData, key: string, items: seq<FormItem>, texts: seq<string>)
    requires ItemsAre(p, r, key, items) && TextsAre(items, texts)
    ensures TextKind(p.kind) ==> ConvertedIs(lib, p, InBody, key, texts, ExtractOne(lib, p, r))
    ensures !TextKind(p.kind) && p.kind != "uploadfile" && p.kind != "list[uploadfile]" && p.kind != "bytes" ==>
      ExtractOne(lib, p, r) == AbsentIs(p, key)
  {
    if TextKind(p.kind) {
      NotUpload(p.kind);
      TextsIs(items, texts);
      FromRawConverts(lib, p, texts, InBody, key);
      assert ExtractOne(lib, p, r) == FromRaw(lib, p, texts, InBody, key);
    }
  }

  // ---- the errors of all of them ------------------------------------------

  // One error for each entry that fails, in plan order.
  predicate ListsErrors(lib: Library, ps: seq<ParamSpec>, r: RequestData, errors: seq<ParamError>)
    decreases |ps|
  {
    if ps == [] then errors == []
    else
      match ExtractOne(lib, ps[0], r)
      case Failed(e) => errors != [] && errors[0] == e && ListsErrors(lib, ps[1..], r, errors[1..])
      case _ => ListsErrors(lib, ps[1..], r, errors)
  }

  lemma {:induction false} ErrorsAreListed(lib: Library, ps: seq<ParamSpec>, r: RequestData)
    ensures ListsErrors(lib, ps, r, FilterMap(ErrorIn(lib, r), ps))
    decreases |ps|
  {
    if ps != [] {
      FilterMapCons(ErrorIn(lib, r), ps);
      ErrorsAreListed(lib, ps[1..], r);
      var rest := FilterMap(ErrorIn(lib, r), ps[1..]);
      match ExtractOne(lib, ps[0], r) {
        case Failed(e) => assert ([e] + rest)[1..] == rest;
        case _ => assert [] + rest == rest;
      }
    }
  }

  // ---- the body -----------------------------------------------------------

  // `p` is the one body parameter, and not embedded.
  predicate OnlyBody(ps: seq<ParamSpec>, p: ParamSpec) {
    exists i :: 0 <= i < |ps| && ps[i] == p && p.source == InBody && !p.embed &&
      forall j :: 0 <= j < |ps| && j != i ==> ps[j].source != InBody
  }

  // A body that is not said to be JSON, although some parameter wants it.
  predicate WrongType(lib: Library, ps: seq<ParamSpec>, r: RequestData) {
    r.body != "" && (exists q <- ps :: q.source == InBody && q.jsonMedia) &&
    "content-type" in r.headers && r.headers["content-type"] != [] && r.headers["content-type"][0] != "" &&
    !lib.isJsonType(r.headers["content-type"][0])
  }

  // Errors number 0 to n-1 of a model.
  predicate ModelFails(name: string, n: nat, errors: seq<BodyError>) {
    |errors| == n && forall i :: 0 <= i < n ==> errors[i] == ModelError(name, i)
  }

  // The value and the errors of a validation.
  predicate ValidatedIs(p: ParamSpec, r: Result<Value, nat>, value: Option<Value>, errors: seq<BodyError>) {
    match r
    case Ok(v) => value == Some(v) && errors == []
    case Err(n) => value == None && ModelFails(p.name, n, errors)
  }

  predicate AModel(p: ParamSpec) {
    p.kind == "model" || p.kind == "list[model]"
  }

  // A single body: the whole text is validated or parsed.
  predicate WholeIs(lib: Library, p: ParamSpec, body: string, value: Option<Value>, errors: seq<BodyError>) {
    if body == "" then value == None && errors == if p.required then [MissingBody([p.name])] else []
    else if AModel(p) then
      match p.model
      case None => value == None && errors == []
      case Some(m) => ValidatedIs(p, lib.validateJson(m, p.kind, body), value, errors)
    else
      match lib.parse(body)
      case NotJson => value == None && errors == [JsonInvalid]
      case Parsed(v, _) => value == Some(lib.raw(v)) && errors == []
  }

  // An envelope: each parameter has the member of its name.
  predicate MemberIs(lib: Library, p: ParamSpec, members: map<string, nat>, value: Option<Value>, errors: seq<BodyError>) {
    if p.name !in members then value == None && errors == if p.required then [MissingBody(["body", p.name])] else []
    else if AModel(p) then
      match p.model
      case None => value == None && errors == []
      case Some(m) => ValidatedIs(p, lib.validatePython(m, p.kind, members[p.name]), value, errors)
    else value == Some(lib.raw(members[p.name])) && errors == []
  }

  // The same where there is no object to look in.
  predicate NoMember(p: ParamSpec, value: Option<Value>, errors: seq<BodyError>) {
    value == None && errors == if p.required then [MissingBody(["body", p.name])] else []
  }

  lemma OnlyBodyParam(ps: seq<ParamSpec>, p: ParamSpec)
    requires OnlyBody(ps, p)
    ensures BodyParams(ps) == [p]
  {
    var i :| 0 <= i < |ps| && ps[i] == p && forall j :: 0 <= j < |ps| && j != i ==> ps[j].source != InBody;
    FilterMapOne(IfBody, ps, i, p);
  }

  lemma WrongTypeIs(lib: Library, ps: seq<ParamSpec>, r: RequestData)
    ensures ContentTypeErrors(lib, ps, r) == if WrongType(lib, ps, r) then [JsonInvalid] else []
  {
  }

  // What one body parameter gives, in each layout of the body.
  lemma BodyEntryIs(lib: Library, bodies: seq<ParamSpec>, body: string, p: ParamSpec)
    ensures
      var (value, errors) := BodyEntry(lib, body, ModeOf(lib, bodies, body), p);
      if |bodies| == 1 && !bodies[0].embed then WholeIs(lib, p, body, value, errors)
      else if body == "" then NoMember(p, value, errors)
      else
        match lib.parse(body)
        case NotJson => value == None
        case Parsed(_, None) => NoMember(p, value, errors)
        case Parsed(_, Some(members)) => MemberIs(lib, p, members, value, errors)
  {
    if |bodies| == 1 {
      assert bodies == [bodies[0]];
    }
  }

  lemma BindOne(before: Kwargs, p: ParamSpec, f: ParamSpec -> Option<Value>)
    ensures Bind(before, [p], f) == match f(p) case None => before case Some(v) => before[p.name := v]
  {
    assert [p][..0] == [];
    assert Bind(before, [], f) == before;
  }

  // Of a single body: what is bound, and what is reported.
  lemma SingleBodyIs(lib: Library, ps: seq<ParamSpec>, r: RequestData, before: Kwargs, p: ParamSpec)
    returns (value: Option<Value>, errors: seq<BodyError>)
    requires OnlyBody(ps, p)
    ensures WholeIs(lib, p, r.body, value, errors)
    ensures BodyKwargs(lib, ps, r, before) == match value case None => before case Some(v) => before[p.name := v]
    ensures BodyErrors(lib, ps, r) == (if WrongType(lib, ps, r) then [JsonInvalid] else []) + errors
  {
    OnlyBodyParam(ps, p);
    WrongTypeIs(lib, ps, r);
    BodyEntryIs(lib, [p], r.body, p);
    var mode := ModeOf(lib, [p], r.body);
    value, errors := BodyEntry(lib, r.body, mode, p).0, BodyEntry(lib, r.body, mode, p).1;
    BindOne(before, p, BodyValue(lib, r.body, mode));
    FlatMapSingle(BodyErrorsOf(lib, r.body, mode), p);
    NotBroken(lib, p, r.body);
  }

  lemma NotBroken(lib: Library, p: ParamSpec, body: string)
    requires !p.embed
    ensures !ModeOf(lib, [p], body).Broken?
  {
  }

  // Several body parameters, or an embedded one.
  predicate NeedsEnvelope(ps: seq<ParamSpec>) {
    (exists p <- ps :: p.source == InBody) && !exists p <- ps :: OnlyBody(ps, p)
  }

  predicate EnvelopeIs(lib: Library, p: ParamSpec, body: string, value: Option<Value>, errors: seq<BodyError>) {
    if body == "" then NoMember(p, value, errors)
    else
      match lib.parse(body)
      case NotJson => value == None && errors == []
      case Parsed(_, None) => NoMember(p, value, errors)
      case Parsed(_, Some(members)) => MemberIs(lib, p, members, value, errors)
  }

  // The errors of the body parameters, in plan order.
  ghost predicate ListsBodyErrors(lib: Library, ps: seq<ParamSpec>, body: string, errors: seq<BodyError>)
    decreases |ps|
  {
    if ps == [] then errors == []
    else if ps[0].source != InBody then ListsBodyErrors(lib, ps[1..], body, errors)
    else
      exists n, value :: 0 <= n <= |errors| && EnvelopeIs(lib, ps[0], body, value, errors[..n]) &&
        ListsBodyErrors(lib, ps[1..], body, errors[n..])
  }

  lemma {:induction false} BodyParamsAre(ps: seq<ParamSpec>, p: ParamSpec)
    ensures p in BodyParams(ps) <==> p in ps && p.source == InBody
  {
    if ps != [] {
      BodyParamsAre(ps[..|ps| - 1], p);
      BodyParamsSnoc(ps);
    }
  }

  lemma BodyParamsSnoc(ps: seq<ParamSpec>)
    requires ps != []
    ensures
      var n := |ps| - 1;
      ps == ps[..n] + [ps[n]] &&
      BodyParams(ps) == BodyParams(ps[..n]) + if ps[n].source == InBody then [ps[n]] else []
  {
  }

  lemma {:induction false} SingleIsOnly(ps: seq<ParamSpec>)
    requires |BodyParams(ps)| == 1 && !BodyParams(ps)[0].embed
    ensures OnlyBody(ps, BodyParams(ps)[0])
  {
    var n, p := |ps| - 1, BodyParams(ps)[0];
    BodyParamsSnoc(ps);
    if ps[n].source == InBody {
      assert BodyParams(ps[..n]) == [];
      forall j | 0 <= j < n
        ensures ps[j].source != InBody
      {
        BodyParamsAre(ps[..n], ps[j]);
        assert ps[j] in ps[..n];
      }
    } else {
      SingleIsOnly(ps[..n]);
      var i :| 0 <= i < n && ps[..n][i] == p && forall j :: 0 <= j < n && j != i ==> ps[..n][j].source != InBody;
      assert forall j :: 0 <= j < n ==> ps[..n][j] == ps[j];
    }
  }

  lemma EnvelopeModes(lib: Library, ps: seq<ParamSpec>, body: string, p: ParamSpec)
    requires NeedsEnvelope(ps) && p in ps && p.source == InBody
    ensures
      var (value, errors) := BodyEntry(lib, body, ModeOf(lib, BodyParams(ps), body), p);
      EnvelopeIs(lib, p, body, value, errors)
  {
    var bodies := BodyParams(ps);
    BodyParamsAre(ps, p);
    BodyEntryIs(lib, bodies, body, p);
    if |bodies| == 1 && !bodies[0].embed {
      BodyParamsAre(ps, bodies[0]);
      SingleIsOnly(ps);
      assert false;
    }
    BrokenHasNoErrors(lib, body, p);
  }

  lemma BrokenHasNoErrors(lib: Library, body: string, p: ParamSpec)
    ensures BodyEntry(lib, body, Broken, p) == (None, [])
  {
  }

  lemma {:induction false} BodyParamsCons(ps: seq<ParamSpec>)
    requires ps != []
    ensures BodyParams(ps) == (if ps[0].source == InBody then [ps[0]] else []) + BodyParams(ps[1..])
  {
    FilterMapCons(IfBody, ps);
  }

  lemma {:induction false} BodyErrorsAreListed(lib: Library, ps: seq<ParamSpec>, body: string, mode: BodyMode)
    requires forall p <- ps :: p.source == InBody ==>
      EnvelopeIs(lib, p, body, BodyEntry(lib, body, mode, p).0, BodyEntry(lib, body, mode, p).1)
    ensures ListsBodyErrors(lib, ps, body, FlatMap(BodyErrorsOf(lib, body, mode), BodyParams(ps)))
    decreases |ps|
  {
    if ps != [] {
      var f := BodyErrorsOf(lib, body, mode);
      BodyParamsCons(ps);
      BodyErrorsAreListed(lib, ps[1..], body, mode);
      assert ps[0] in ps;
      if ps[0].source == InBody {
        var here, rest := f(ps[0]), FlatMap(f, BodyParams(ps[1..]));
        assert ([ps[0]] + BodyParams(ps[1..]))[1..] == BodyParams(ps[1..]);
        assert FlatMap(f, BodyParams(ps)) == here + rest;
        assert (here + rest)[..|here|] == here && (here + rest)[|here|..] == rest;
      } else {
        assert [] + BodyParams(ps[1..]) == BodyParams(ps[1..]);
      }
    }
  }

  // Of an envelope: the errors of its parameters, in plan order, after that of
  // the content type; a body that is not JSON is one error.
  lemma EnvelopeErrorsAre(lib: Library, ps: seq<ParamSpec>, r: RequestData) returns (errors: seq<BodyError>)
    requires NeedsEnvelope(ps)
    ensures BodyErrors(lib, ps, r) == (if WrongType(lib, ps, r) then [JsonInvalid] else []) + errors
    ensures if r.body != "" && lib.parse(r.body).NotJson? then errors == [JsonInvalid]
            else ListsBodyErrors(lib, ps, r.body, errors)
  {
    var bodies := BodyParams(ps);
    var mode := ModeOf(lib, bodies, r.body);
    WrongTypeIs(lib, ps, r);
    var p :| p in ps && p.source == InBody;
    BodyParamsAre(ps, p);
    if |bodies| == 1 && !bodies[0].embed {
      BodyParamsAre(ps, bodies[0]);
      SingleIsOnly(ps);
      assert false;
    }
    SeveralModes(lib, bodies, r.body);
    errors := if mode.Broken? then [JsonInvalid] else FlatMap(BodyErrorsOf(lib, r.body, mode), bodies);
    if !mode.Broken? {
      forall q <- ps | q.source == InBody
        ensures EnvelopeIs(lib, q, r.body, BodyEntry(lib, r.body, mode, q).0, BodyEntry(lib, r.body, mode, q).1)
      {
        EnvelopeModes(lib, ps, r.body, q);
      }
      BodyErrorsAreListed(lib, ps, r.body, mode);
    }
  }

  lemma SeveralModes(lib: Library, bodies: seq<ParamSpec>, body: string)
    requires bodies != [] && !(|bodies| == 1 && !bodies[0].embed)
    ensures ModeOf(lib, bodies, body).Broken? <==> body != "" && lib.parse(body).NotJson?
  {
    if |bodies| == 1 {
      assert bodies[0] in bodies;
    }
  }
}
