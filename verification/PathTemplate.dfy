// Path templates: match_path_template of crates/fr-pyiface/src/app.rs and
// extract_path_param_names of python/hyperfastapi/_routing.py.
module PathTemplate {
  import opened Wrappers

  // One captured (name, value) pair.
  type Capture = (string, string)

  // ---- splitting on '/' ---------------------------------------------------

  function Split(s: string): (r: seq<string>)
    ensures |r| >= 1
  {
    if s == [] then [""]
    else
      var r := Split(s[1..]);
      if s[0] == '/' then [""] + r else [[s[0]] + r[0]] + r[1..]
  }

  function Join(segs: seq<string>): string {
    if segs == [] then ""
    else if |segs| == 1 then segs[0]
    else segs[0] + "/" + Join(segs[1..])
  }

  predicate SlashFree(segs: seq<string>) {
    forall k :: 0 <= k < |segs| ==> '/' !in segs[k]
  }

  lemma {:induction false} JoinSplit(s: string)
    ensures Join(Split(s)) == s && SlashFree(Split(s))
  {
    if s != [] {
      JoinSplit(s[1..]);
      var r := Split(s[1..]);
      if s[0] == '/' {
        assert ([""] + r)[1..] == r;
      } else {
        assert ([[s[0]] + r[0]] + r[1..])[1..] == r[1..];
      }
    }
  }

  lemma {:induction false} SplitPlain(a: string)
    requires '/' !in a
    ensures Split(a) == [a]
  {
    if a != [] {
      SplitPlain(a[1..]);
      assert [a[0]] + a[1..] == a;
      assert [a[1..]][1..] == [];
    }
  }

  lemma {:induction false} SplitCons(a: string, b: string)
    requires '/' !in a
    ensures Split(a + "/" + b) == [a] + Split(b)
  {
    var s := a + "/" + b;
    if a == [] {
      assert s[0] == '/' && s[1..] == b;
    } else {
      SplitCons(a[1..], b);
      assert s[0] == a[0] && s[1..] == a[1..] + "/" + b;
      var r := Split(s[1..]);
      assert r[0] == a[1..] && r[1..] == Split(b);
      assert [s[0]] + a[1..] == a;
    }
  }

  // ---- one template segment -----------------------------------------------

  datatype Segment = Literal(text: string) | Single(name: string) | CatchAll(name: string)

  function IndexOf(s: string, c: char): (n: nat)
    ensures n <= |s|
    ensures n < |s| ==> s[n] == c
    ensures forall k :: 0 <= k < n ==> s[k] != c
  {
    if s == [] || s[0] == c then 0 else 1 + IndexOf(s[1..], c)
  }

  function ParseSegment(t: string): Segment {
    if t != [] && t[0] == '{' && t[|t| - 1] == '}' then
      var inner := t[1..|t| - 1];
      var colon := IndexOf(inner, ':');
      if colon == |inner| then Single(inner)
      else if inner[colon + 1..] == "path" then CatchAll(inner[..colon])
      else Single(inner[..colon])
    else Literal(t)
  }

  // ---- matching -----------------------------------------------------------

  function MatchSegments(ts: seq<string>, ps: seq<string>): Option<seq<Capture>> {
    if ts == [] then
      if ps == [] then Some([]) else None
    else if ps == [] then None
    else
      match ParseSegment(ts[0])
      case CatchAll(name) => Some([(name, Join(ps))])
      case Single(name) => Cons((name, ps[0]), MatchSegments(ts[1..], ps[1..]))
      case Literal(text) => if text == ps[0] then MatchSegments(ts[1..], ps[1..]) else None
  }

  function Cons(c: Capture, r: Option<seq<Capture>>): Option<seq<Capture>> {
    match r
    case None => None
    case Some(cs) => Some([c] + cs)
  }

  function Match(template: string, path: string): Option<seq<Capture>> {
    if '{' !in template then
      if template == path then Some([]) else None
    else MatchSegments(Split(template), Split(path))
  }

  // The captures so far, then those of what is left.
  function Append(cs: seq<Capture>, r: Option<seq<Capture>>): Option<seq<Capture>> {
    match r
    case None => None
    case Some(ds) => Some(cs + ds)
  }

  method MatchPathTemplate(template: string, path: string) returns (r: Option<seq<Capture>>)
    ensures r == Match(template, path)
  {
    if '{' !in template {
      return if template == path then Some([]) else None;
    }
    var ts, ps := Split(template), Split(path);
    var params: seq<Capture> := [];
    var t, p := 0, 0;
    assert ts[0..] == ts && ps[0..] == ps;
    AppendNone(MatchSegments(ts, ps));
    while t < |ts|
      invariant t <= |ts| && p <= |ps|
      invariant Match(template, path) == Append(params, MatchSegments(ts[t..], ps[p..]))
    {
      var segment := ParseSegment(ts[t]);
      assert ts[t..][0] == ts[t] && ts[t..][1..] == ts[t + 1..];
      if p >= |ps| {
        return None;
      }
      assert ps[p..][0] == ps[p] && ps[p..][1..] == ps[p + 1..];
      match segment {
        case CatchAll(name) =>
          return Some(params + [(name, Join(ps[p..]))]);
        case Single(name) =>
          AppendCons(params, (name, ps[p]), MatchSegments(ts[t + 1..], ps[p + 1..]));
          params := params + [(name, ps[p])];
        case Literal(text) =>
          if ps[p] != text {
            return None;
          }
      }
      t, p := t + 1, p + 1;
    }
    assert ts[t..] == [];
    assert params + [] == params;
    return if p == |ps| then Some(params) else None;
  }

  lemma AppendNone(r: Option<seq<Capture>>)
    ensures Append([], r) == r
  {
    if r.Some? {
      assert [] + r.value == r.value;
    }
  }

  lemma AppendCons(cs: seq<Capture>, c: Capture, r: Option<seq<Capture>>)
    ensures Append(cs, Cons(c, r)) == Append(cs + [c], r)
  {
    if r.Some? {
      assert cs + ([c] + r.value) == cs + [c] + r.value;
    }
  }

  // ---- substitution -------------------------------------------------------

  // The names a match binds: those up to the first catch-all.
  function Names(ts: seq<string>): seq<string> {
    if ts == [] then []
    else
      match ParseSegment(ts[0])
      case CatchAll(name) => [name]
      case Single(name) => [name] + Names(ts[1..])
      case Literal(_) => Names(ts[1..])
  }

  function NamesOf(cs: seq<Capture>): seq<string> {
    seq(|cs|, i requires 0 <= i < |cs| => cs[i].0)
  }

  // The template with its placeholders replaced by the captured values, in
  // order.  Whatever follows a catch-all is ignored, as the matcher ignores it.
  function Filled(ts: seq<string>, cs: seq<Capture>): seq<string>
    requires NamesOf(cs) == Names(ts)
  {
    if ts == [] then []
    else
      match ParseSegment(ts[0])
      case CatchAll(_) => [cs[0].1]
      case Single(name) => NamesTail(ts, cs); [cs[0].1] + Filled(ts[1..], cs[1..])
      case Literal(text) => [text] + Filled(ts[1..], cs)
  }

  lemma NamesTail(ts: seq<string>, cs: seq<Capture>)
    requires ts != [] && ParseSegment(ts[0]).Single? && NamesOf(cs) == Names(ts)
    ensures cs != [] && cs[0].0 == Names(ts)[0] && NamesOf(cs[1..]) == Names(ts[1..])
  {
    assert |NamesOf(cs)| == |cs|;
    assert NamesOf(cs)[0] == cs[0].0;
    assert NamesOf(cs[1..]) == NamesOf(cs)[1..];
  }

  // A single-segment placeholder captures no slash.
  predicate SinglesSlashFree(ts: seq<string>, cs: seq<Capture>)
    requires NamesOf(cs) == Names(ts)
  {
    if ts == [] then true
    else
      match ParseSegment(ts[0])
      case CatchAll(_) => true
      case Single(name) =>
        NamesTail(ts, cs);
        '/' !in cs[0].1 && SinglesSlashFree(ts[1..], cs[1..])
      case Literal(_) => SinglesSlashFree(ts[1..], cs)
  }

  predicate Fills(template: string, cs: seq<Capture>, path: string) {
    var ts := Split(template);
    NamesOf(cs) == Names(ts) && SinglesSlashFree(ts, cs) && Join(Filled(ts, cs)) == path
  }

  // The captures fill these segments, and the result is the path.
  predicate FillsSegments(ts: seq<string>, cs: seq<Capture>, ps: seq<string>) {
    NamesOf(cs) == Names(ts) && SinglesSlashFree(ts, cs) && Join(Filled(ts, cs)) == Join(ps) &&
    (ts == [] <==> ps == []) && (ts != [] ==> Filled(ts, cs) != [])
  }

  lemma FillSingle(ts: seq<string>, cs: seq<Capture>, ps: seq<string>)
    requires ts != [] && ps != [] && ParseSegment(ts[0]).Single? && '/' !in ps[0]
    requires FillsSegments(ts[1..], cs, ps[1..])
    ensures FillsSegments(ts, [(ParseSegment(ts[0]).name, ps[0])] + cs, ps)
  {
    var all := [(ParseSegment(ts[0]).name, ps[0])] + cs;
    assert all[1..] == cs;
    assert NamesOf(all) == [ParseSegment(ts[0]).name] + NamesOf(cs);
    FillStep(ps[0], Filled(ts[1..], cs), ps, ts[1..] == []);
  }

  lemma FillLiteral(ts: seq<string>, cs: seq<Capture>, ps: seq<string>)
    requires ts != [] && ps != [] && ParseSegment(ts[0]) == Literal(ps[0])
    requires FillsSegments(ts[1..], cs, ps[1..])
    ensures FillsSegments(ts, cs, ps)
  {
    FillStep(ps[0], Filled(ts[1..], cs), ps, ts[1..] == []);
  }

  lemma {:induction false} MatchedFills(ts: seq<string>, ps: seq<string>)
    requires SlashFree(ps) && MatchSegments(ts, ps).Some?
    ensures FillsSegments(ts, MatchSegments(ts, ps).value, ps)
  {
    if ts != [] {
      match ParseSegment(ts[0])
      case CatchAll(name) =>
        assert NamesOf([(name, Join(ps))]) == [name];
      case Single(name) =>
        MatchedFills(ts[1..], ps[1..]);
        FillSingle(ts, MatchSegments(ts[1..], ps[1..]).value, ps);
      case Literal(text) =>
        MatchedFills(ts[1..], ps[1..]);
        FillLiteral(ts, MatchSegments(ts[1..], ps[1..]).value, ps);
    }
  }

  lemma FillStep(v: string, filled: seq<string>, ps: seq<string>, last: bool)
    requires ps != [] && v == ps[0] && Join(filled) == Join(ps[1..])
    requires last ==> filled == [] && ps[1..] == []
    requires !last ==> filled != [] && ps[1..] != []
    ensures Join([v] + filled) == Join(ps)
  {
    assert ([v] + filled)[1..] == filled;
  }

  lemma {:induction false} FilledMatches(ts: seq<string>, cs: seq<Capture>)
    requires ts != [] && SlashFree(ts)
    requires NamesOf(cs) == Names(ts) && SinglesSlashFree(ts, cs)
    ensures MatchSegments(ts, Split(Join(Filled(ts, cs)))) == Some(cs)
  {
    match ParseSegment(ts[0])
    case CatchAll(name) =>
      assert |NamesOf(cs)| == |cs| && NamesOf(cs)[0] == cs[0].0;
      JoinSplit(cs[0].1);
      assert cs == [(name, cs[0].1)];
    case Single(name) =>
      NamesTail(ts, cs);
      assert cs == [(name, cs[0].1)] + cs[1..];
      SplitFilled(cs[0].1, ts[1..], cs[1..]);
      if ts[1..] != [] {
        FilledMatches(ts[1..], cs[1..]);
      } else {
        assert |NamesOf(cs[1..])| == |cs[1..]|;
      }
    case Literal(text) =>
      SplitFilled(text, ts[1..], cs);
      if ts[1..] != [] {
        FilledMatches(ts[1..], cs);
      } else {
        assert |NamesOf(cs)| == |cs|;
      }
  }

  lemma SplitFilled(v: string, ts: seq<string>, cs: seq<Capture>)
    requires '/' !in v && NamesOf(cs) == Names(ts)
    ensures
      var filled := Filled(ts, cs);
      Split(Join([v] + filled)) == [v] + if ts == [] then [] else Split(Join(filled))
  {
    var filled := Filled(ts, cs);
    assert ([v] + filled)[1..] == filled;
    if ts == [] {
      SplitPlain(v);
    } else {
      SplitCons(v, Join(filled));
    }
  }

  // ---- the fast path ------------------------------------------------------

  lemma {:induction false} SplitKeepsChars(s: string, c: char)
    requires c !in s
    ensures forall k :: 0 <= k < |Split(s)| ==> c !in Split(s)[k]
  {
    if s != [] {
      SplitKeepsChars(s[1..], c);
    }
  }

  lemma {:induction false} LiteralsMatch(ts: seq<string>, ps: seq<string>)
    requires forall k :: 0 <= k < |ts| ==> '{' !in ts[k]
    ensures MatchSegments(ts, ps) == if ts == ps then Some([]) else None
    ensures Names(ts) == []
  {
    if ts != [] {
      if ps == [] {
        LiteralsMatch(ts[1..], []);
      } else {
        LiteralsMatch(ts[1..], ps[1..]);
        assert ts == [ts[0]] + ts[1..] && ps == [ps[0]] + ps[1..];
      }
    }
  }

  // Byte equality on a template without placeholders is what the segment loop
  // would have answered.
  lemma FastPathAgrees(template: string, path: string)
    ensures Match(template, path) == MatchSegments(Split(template), Split(path))
  {
    if '{' !in template {
      SplitKeepsChars(template, '{');
      LiteralsMatch(Split(template), Split(path));
      JoinSplit(template);
      JoinSplit(path);
    }
  }

  // ---- main results -------------------------------------------------------

  // Matching inverts substitution, for every template and path.
  lemma MatchIffFills(template: string, path: string, cs: seq<Capture>)
    ensures Match(template, path) == Some(cs) <==> Fills(template, cs, path)
  {
    var ts := Split(template);
    FastPathAgrees(template, path);
    JoinSplit(template);
    JoinSplit(path);
    if Match(template, path) == Some(cs) {
      MatchedFills(ts, Split(path));
    }
    if Fills(template, cs, path) {
      FilledMatches(ts, cs);
    }
  }

  // So a path determines its captures.
  lemma FillsUnique(template: string, path: string, cs: seq<Capture>, ds: seq<Capture>)
    requires Fills(template, cs, path) && Fills(template, ds, path)
    ensures cs == ds
  {
    MatchIffFills(template, path, cs);
    MatchIffFills(template, path, ds);
  }
}
