// The parameter names that the plan compiler finds in a path template
// (extract_path_param_names of python/hyperfastapi/_routing.py), against those
// that a match binds.
module TemplateNames {
  import opened Wrappers
  import Sequences
  import opened PathTemplate

  // The length of the longest prefix without '}' (nor ':', for a name).
  function Run(s: string, name: bool): (n: nat)
    ensures n <= |s|
  {
    if s == [] || s[0] == '}' || (name && s[0] == ':') then 0 else 1 + Run(s[1..], name)
  }

  // The regular expression \{([^}:]+)(?::[^}]+)?\} at the start of s: the name
  // and the length matched.  Its character classes leave nothing to backtrack.
  function PlaceholderAt(s: string): (r: Option<(string, nat)>)
    ensures r.Some? ==> 0 < r.value.1 <= |s|
  {
    if s == [] || s[0] != '{' then None
    else
      var n := Run(s[1..], true);
      var t := s[1 + n..];
      if n == 0 || t == [] then None
      else if t[0] == '}' then Some((s[1..1 + n], n + 2))
      else
        var m := Run(t[1..], false);
        if m == 0 || 1 + m == |t| then None else Some((s[1..1 + n], n + m + 3))
  }

  // findall: non-overlapping matches from left to right.
  function ExtractPathParamNames(s: string): seq<string>
    decreases |s|
  {
    if s == [] then []
    else
      match PlaceholderAt(s)
      case None => ExtractPathParamNames(s[1..])
      case Some((name, len)) => [name] + ExtractPathParamNames(s[len..])
  }

  // ---- templates ----------------------------------------------------------

  // A literal without '{', or a placeholder that is the whole segment, with a
  // non-empty name and, after a colon, a non-empty type.
  predicate WellFormedSegment(t: string) {
    '{' !in t ||
    (|t| > 2 && t[0] == '{' && t[|t| - 1] == '}' &&
     var inner := t[1..|t| - 1];
     var colon := IndexOf(inner, ':');
     '}' !in inner && colon > 0 && (colon < |inner| ==> colon + 1 < |inner|))
  }

  predicate BraceFree(ts: seq<string>) {
    forall k :: 0 <= k < |ts| ==> '{' !in ts[k]
  }

  // Well-formed segments, and no placeholder after a catch-all.
  predicate WellFormed(ts: seq<string>) {
    ts == [] ||
    (WellFormedSegment(ts[0]) && (ParseSegment(ts[0]).CatchAll? ==> BraceFree(ts[1..])) && WellFormed(ts[1..]))
  }

  // Text without braces, mixed with placeholders.
  predicate IsMixed(t: string)
    decreases |t|
  {
    t == [] ||
    (if t[0] == '{' then PlaceholderAt(t).Some? && IsMixed(t[PlaceholderAt(t).value.1..])
     else t[0] != '}' && IsMixed(t[1..]))
  }

  predicate AllMixed(ts: seq<string>) {
    forall k :: 0 <= k < |ts| ==> IsMixed(ts[k])
  }

  // ---- segments, one by one -----------------------------------------------

  lemma {:induction false} ExtractSkips(a: string, rest: string)
    requires '{' !in a
    ensures ExtractPathParamNames(a + rest) == ExtractPathParamNames(rest)
  {
    if a == [] {
      assert a + rest == rest;
    } else {
      ExtractSkips(a[1..], rest);
      assert (a + rest)[1..] == a[1..] + rest;
    }
  }

  lemma {:induction false} RunStops(a: string, b: string, name: bool)
    requires '}' !in a && (name ==> ':' !in a)
    requires b != [] && (b[0] == '}' || (name && b[0] == ':'))
    ensures Run(a + b, name) == |a|
  {
    if a == [] {
      assert a + b == b;
    } else {
      RunStops(a[1..], b, name);
      assert (a + b)[1..] == a[1..] + b;
    }
  }

  lemma ExtractPlaceholder(t: string, rest: string)
    requires '{' in t && WellFormedSegment(t)
    ensures ParseSegment(t).Single? || ParseSegment(t).CatchAll?
    ensures ExtractPathParamNames(t + rest) == [ParseSegment(t).name] + ExtractPathParamNames(rest)
  {
    var inner := t[1..|t| - 1];
    var colon := IndexOf(inner, ':');
    var s := t + rest;
    var name, after := inner[..colon], inner[colon..] + "}" + rest;
    assert s[1..] == name + after;
    RunStops(name, after, true);
    assert s[1 + colon..] == after;
    assert s[1..1 + colon] == name;
    if colon < |inner| {
      assert after[1..] == inner[colon + 1..] + ("}" + rest);
      RunStops(inner[colon + 1..], "}" + rest, false);
    }
    assert PlaceholderAt(s) == Some((name, |t|));
    assert s[|t|..] == rest;
    assert colon == |inner| ==> name == inner;
  }

  lemma {:induction false} RunIs(s: string, name: bool)
    ensures
      var n := Run(s, name);
      (forall k :: 0 <= k < n ==> s[k] != '}' && (name ==> s[k] != ':')) &&
      (n < |s| ==> s[n] == '}' || (name && s[n] == ':'))
  {
    if s != [] && Run(s, name) > 0 {
      RunIs(s[1..], name);
    }
  }

  lemma SkipOne(s: string)
    requires s != [] && s[0] != '{'
    ensures ExtractPathParamNames(s) == ExtractPathParamNames(s[1..])
  {
  }

  lemma TakeName(s: string, name: string, n: nat)
    requires PlaceholderAt(s) == Some((name, n))
    ensures 0 < n <= |s| && ExtractPathParamNames(s) == [name] + ExtractPathParamNames(s[n..])
  {
  }

  lemma {:induction false} RunStable(a: string, b: string, name: bool)
    requires Run(a, name) < |a|
    ensures Run(a + b, name) == Run(a, name)
  {
    assert (a + b)[0] == a[0];
    if Run(a, name) > 0 {
      assert (a + b)[1..] == a[1..] + b;
      RunStable(a[1..], b, name);
    }
  }

  lemma PlaceholderStable(t: string, rest: string)
    requires PlaceholderAt(t).Some?
    ensures PlaceholderAt(t + rest) == PlaceholderAt(t)
  {
    var n, s := Run(t[1..], true), t + rest;
    assert s[1..] == t[1..] + rest;
    RunStable(t[1..], rest, true);
    assert n + 1 < |t| <= |s| && forall k :: 0 <= k < |t| ==> s[k] == t[k];
    assert s[1..1 + n] == t[1..1 + n];
    TypeStable(t[1 + n..], rest);
    assert s[1 + n..] == t[1 + n..] + rest;
  }

  lemma TypeStable(u: string, rest: string)
    requires u != [] && (u[0] != '}' ==> Run(u[1..], false) < |u| - 1)
    ensures (u + rest)[0] == u[0] && (u[0] != '}' ==> Run((u + rest)[1..], false) == Run(u[1..], false))
  {
    assert (u + rest)[1..] == u[1..] + rest;
    if u[0] != '}' {
      RunStable(u[1..], rest, false);
    }
  }

  lemma ConcatAfterName(t: string, rest: string, name: string, n: nat)
    requires PlaceholderAt(t) == Some((name, n)) && n <= |t|
    requires ExtractPathParamNames(t[n..] + rest) == ExtractPathParamNames(t[n..]) + ExtractPathParamNames(rest)
    ensures ExtractPathParamNames(t + rest) == ExtractPathParamNames(t) + ExtractPathParamNames(rest)
  {
    var s := t + rest;
    assert PlaceholderAt(s) == Some((name, n)) by {
      PlaceholderStable(t, rest);
    }
    DropConcat(t, rest, n);
    TakeName(t, name, n);
    TakeName(s, name, n);
    Sequences.Assoc([name], ExtractPathParamNames(t[n..]), ExtractPathParamNames(rest));
  }

  lemma DropConcat(t: string, rest: string, n: nat)
    requires n <= |t|
    ensures (t + rest)[n..] == t[n..] + rest
  {
  }

  lemma MixedAfterName(t: string)
    requires IsMixed(t) && t != [] && t[0] == '{'
    ensures PlaceholderAt(t).Some? && 0 < PlaceholderAt(t).value.1 <= |t| && IsMixed(t[PlaceholderAt(t).value.1..])
  {
  }

  lemma {:induction false} MixedConcat(t: string, rest: string)
    requires IsMixed(t)
    ensures ExtractPathParamNames(t + rest) == ExtractPathParamNames(t) + ExtractPathParamNames(rest)
    decreases |t|
  {
    if t == [] {
      assert t + rest == rest;
    } else if t[0] == '{' {
      MixedAfterName(t);
      var (name, n) := PlaceholderAt(t).value;
      MixedConcat(t[n..], rest);
      ConcatAfterName(t, rest, name, n);
    } else {
      MixedConcat(t[1..], rest);
      SkipOne(t);
      SkipOne(t + rest);
      assert (t + rest)[1..] == t[1..] + rest;
    }
  }

  lemma SegmentConcat(t: string, rest: string)
    requires IsMixed(t) || WellFormedSegment(t)
    ensures ExtractPathParamNames(t + rest) == ExtractPathParamNames(t) + ExtractPathParamNames(rest)
  {
    assert t + "" == t;
    if IsMixed(t) {
      MixedConcat(t, rest);
    } else if '{' in t {
      ExtractPlaceholder(t, rest);
      ExtractPlaceholder(t, "");
    } else {
      ExtractSkips(t, rest);
      ExtractSkips(t, "");
    }
  }

  // The names in the segments, one after the other.
  function Placeholders(ts: seq<string>): seq<string> {
    if ts == [] then [] else ExtractPathParamNames(ts[0]) + Placeholders(ts[1..])
  }

  lemma {:induction false} ExtractJoin(ts: seq<string>)
    requires forall k :: 0 <= k < |ts| ==> IsMixed(ts[k]) || WellFormedSegment(ts[k])
    ensures ExtractPathParamNames(Join(ts)) == Placeholders(ts)
  {
    if |ts| == 1 {
      assert ts[1..] == [];
    } else if |ts| > 1 {
      ExtractJoin(ts[1..]);
      var rest := "/" + Join(ts[1..]);
      assert Join(ts) == ts[0] + rest;
      SegmentConcat(ts[0], rest);
      ExtractSkips("/", Join(ts[1..]));
    }
  }

  lemma NoName(t: string)
    requires '{' !in t
    ensures ExtractPathParamNames(t) == []
  {
    ExtractSkips(t, "");
    assert t + "" == t;
  }

  lemma WholeName(t: string)
    requires '{' in t && WellFormedSegment(t)
    ensures ParseSegment(t).Single? || ParseSegment(t).CatchAll?
    ensures ExtractPathParamNames(t) == [ParseSegment(t).name]
  {
    ExtractPlaceholder(t, "");
    assert t + "" == t;
  }

  lemma {:induction false} BraceFreeNames(ts: seq<string>)
    requires BraceFree(ts)
    ensures Placeholders(ts) == []
  {
    if ts != [] {
      NoName(ts[0]);
      BraceFreeNames(ts[1..]);
    }
  }

  lemma {:induction false} WellFormedNames(ts: seq<string>)
    requires WellFormed(ts)
    ensures Placeholders(ts) == Names(ts)
    ensures forall k :: 0 <= k < |ts| ==> WellFormedSegment(ts[k])
  {
    if ts != [] {
      WellFormedNames(ts[1..]);
      if '{' !in ts[0] {
        NoName(ts[0]);
      } else {
        WholeName(ts[0]);
        if ParseSegment(ts[0]).CatchAll? {
          BraceFreeNames(ts[1..]);
        }
      }
    }
  }

  // ---- what the expression matches ----------------------------------------

  // The first n characters are {name} or {name:type}, with neither part empty.
  predicate IsPlaceholder(s: string, name: string, n: nat) {
    var m := |name|;
    0 < m && '}' !in name && ':' !in name && m + 2 <= n <= |s| &&
    s[0] == '{' && s[1..1 + m] == name && s[n - 1] == '}' &&
    (n == m + 2 || (s[m + 1] == ':' && m + 3 < n && forall k :: m + 2 <= k < n - 1 ==> s[k] != '}'))
  }

  lemma RunFrom(s: string, i: nat, name: bool)
    requires i <= |s|
    ensures
      var n := Run(s[i..], name);
      (forall k :: i <= k < i + n ==> s[k] != '}' && (name ==> s[k] != ':')) &&
      (i + n < |s| ==> s[i + n] == '}' || (name && s[i + n] == ':'))
  {
    RunIs(s[i..], name);
    assert forall k :: i <= k < |s| ==> s[k] == s[i..][k - i];
  }

  lemma PlaceholderHasShape(s: string, name: string, n: nat)
    requires PlaceholderAt(s) == Some((name, n))
    ensures IsPlaceholder(s, name, n)
  {
    var r := 1 + Run(s[1..], true);
    RunFrom(s, 1, true);
    assert s[1..r] == name && s[r..][0] == s[r];
    assert forall k :: 1 <= k < r ==> name[k - 1] == s[k];
    if s[r] != '}' {
      assert s[r..][1..] == s[r + 1..];
      RunFrom(s, r + 1, false);
    }
  }

  lemma ShapeIsPlaceholder(s: string, name: string, n: nat)
    requires IsPlaceholder(s, name, n)
    ensures PlaceholderAt(s) == Some((name, n))
  {
    var m := |name|;
    var t := s[1 + m..];
    assert s[1..] == name + t && t[0] == s[1 + m];
    RunStops(name, t, true);
    if n > m + 2 {
      var kind, after := s[m + 2..n - 1], s[n - 1..];
      assert t[1..] == kind + after;
      RunStops(kind, after, false);
    }
  }

  // The expression matches a placeholder at the start of a text, and nothing
  // else there: not {} nor {name:}.
  lemma PlaceholderIff(s: string, name: string, n: nat)
    ensures PlaceholderAt(s) == Some((name, n)) <==> IsPlaceholder(s, name, n)
  {
    if PlaceholderAt(s) == Some((name, n)) {
      PlaceholderHasShape(s, name, n);
    }
    if IsPlaceholder(s, name, n) {
      ShapeIsPlaceholder(s, name, n);
    }
  }

  // ---- counting -----------------------------------------------------------

  // Mixed text with a brace of either kind has a placeholder.
  lemma {:induction false} MixedHasName(t: string)
    requires IsMixed(t) && ('{' in t || '}' in t)
    ensures ExtractPathParamNames(t) != []
    decreases |t|
  {
    if t[0] != '{' {
      assert t == [t[0]] + t[1..];
      MixedHasName(t[1..]);
    }
  }

  lemma IndexOfIs(s: string, c: char, n: nat)
    requires n <= |s| && (forall k :: 0 <= k < n ==> s[k] != c) && (n < |s| ==> s[n] == c)
    ensures IndexOf(s, c) == n
  {
  }

  // n characters of name between the braces, and a type if there are more.
  lemma ShapeIsWellFormed(t: string, n: nat)
    requires |t| > 2 && t[0] == '{' && t[|t| - 1] == '}' && 0 < n <= |t| - 2
    requires forall k :: 1 <= k < |t| - 1 ==> t[k] != '}' && (k <= n ==> t[k] != ':')
    requires n < |t| - 2 ==> n + 1 < |t| - 2 && t[n + 1] == ':'
    ensures WellFormedSegment(t)
  {
    var inner := t[1..|t| - 1];
    assert forall k :: 0 <= k < |inner| ==> inner[k] == t[k + 1];
    IndexOfIs(inner, ':', n);
  }

  // A placeholder that is the whole text is well formed.
  lemma WholeIsWellFormed(t: string, name: string)
    requires PlaceholderAt(t) == Some((name, |t|))
    ensures WellFormedSegment(t)
  {
    var s := t[1..];
    var n := Run(s, true);
    RunIs(s, true);
    assert forall k :: 1 <= k <= n ==> t[k] == s[k - 1];
    assert t[1 + n..][0] == t[1 + n];
    if t[1 + n] != '}' {
      TypeRuns(t, n + 2);
    }
    ShapeIsWellFormed(t, n);
  }

  lemma TypeRuns(t: string, i: nat)
    requires i < |t| && i + Run(t[i..], false) == |t| - 1
    ensures t[|t| - 1] == '}' && forall k :: i <= k < |t| - 1 ==> t[k] != '}'
  {
    RunIs(t[i..], false);
    assert forall k :: i <= k < |t| ==> t[k] == t[i..][k - i];
  }

  // A segment that the matcher takes for a placeholder, with one name in it, is
  // that placeholder.
  lemma OneNameIsWhole(t: string)
    requires IsMixed(t) && t != [] && t[0] == '{' && t[|t| - 1] == '}'
    requires |ExtractPathParamNames(t)| == 1
    ensures WellFormedSegment(t)
  {
    MixedAfterName(t);
    var (name, n) := PlaceholderAt(t).value;
    TakeName(t, name, n);
    if n < |t| {
      assert t[n..][|t| - n - 1] == '}';
      MixedHasName(t[n..]);
      assert false;
    }
    WholeIsWellFormed(t, name);
  }

  // Per segment, the matcher has one name at most, and as many as the compiler
  // iff the segment is well formed.
  lemma SegmentCounts(t: string)
    requires IsMixed(t)
    ensures
      var n := if ParseSegment(t).Literal? then 0 else 1;
      n <= |ExtractPathParamNames(t)| && (n == |ExtractPathParamNames(t)| <==> WellFormedSegment(t))
  {
    if '{' !in t {
      NoName(t);
    } else {
      MixedHasName(t);
      if WellFormedSegment(t) {
        WholeName(t);
      } else if !ParseSegment(t).Literal? && |ExtractPathParamNames(t)| == 1 {
        OneNameIsWhole(t);
        assert false;
      }
    }
  }

  lemma {:induction false} NoMoreNames(ts: seq<string>)
    requires AllMixed(ts)
    ensures Placeholders(ts) == [] <==> BraceFree(ts)
  {
    if ts != [] {
      NoMoreNames(ts[1..]);
      assert BraceFree(ts) <==> '{' !in ts[0] && BraceFree(ts[1..]);
      if '{' in ts[0] {
        MixedHasName(ts[0]);
      } else {
        NoName(ts[0]);
      }
    }
  }

  lemma NamesStep(ts: seq<string>)
    requires ts != []
    ensures
      |Names(ts)| == (if ParseSegment(ts[0]).Literal? then 0 else 1) +
                     if ParseSegment(ts[0]).CatchAll? then 0 else |Names(ts[1..])|
  {
  }

  lemma {:induction false} NamesCount(ts: seq<string>)
    requires AllMixed(ts)
    ensures |Names(ts)| <= |Placeholders(ts)|
    ensures |Names(ts)| == |Placeholders(ts)| <==> WellFormed(ts)
  {
    if ts != [] {
      var here, after := |ExtractPathParamNames(ts[0])|, |Placeholders(ts[1..])|;
      assert |Placeholders(ts)| == here + after;
      NamesStep(ts);
      SegmentCounts(ts[0]);
      NamesCount(ts[1..]);
      NoMoreNames(ts[1..]);
      if BraceFree(ts[1..]) {
        BraceFreeIsWellFormed(ts[1..]);
      }
    }
  }

  lemma {:induction false} BraceFreeIsWellFormed(ts: seq<string>)
    requires BraceFree(ts)
    ensures WellFormed(ts)
  {
    if ts != [] {
      BraceFreeIsWellFormed(ts[1..]);
    }
  }

  // ---- main results -------------------------------------------------------

  // The compiler finds the names that a match binds, in the same order, iff
  // every placeholder is a whole segment and none follows a catch-all.
  lemma NamesAgreeIff(template: string)
    requires AllMixed(Split(template))
    ensures ExtractPathParamNames(template) == Names(Split(template)) <==> WellFormed(Split(template))
  {
    var ts := Split(template);
    JoinSplit(template);
    ExtractJoin(ts);
    NamesCount(ts);
    if WellFormed(ts) {
      WellFormedNames(ts);
    }
  }

  // So for what a match captures.
  lemma CapturedNamesIff(template: string, path: string)
    requires AllMixed(Split(template)) && Match(template, path).Some?
    ensures NamesOf(Match(template, path).value) == ExtractPathParamNames(template) <==> WellFormed(Split(template))
  {
    MatchIffFills(template, path, Match(template, path).value);
    NamesAgreeIff(template);
  }

  // On well-formed templates with any text in the literal segments, too.
  lemma CapturedNames(template: string, path: string)
    requires WellFormed(Split(template)) && Match(template, path).Some?
    ensures NamesOf(Match(template, path).value) == ExtractPathParamNames(template)
  {
    MatchIffFills(template, path, Match(template, path).value);
    JoinSplit(template);
    WellFormedNames(Split(template));
    ExtractJoin(Split(template));
  }

  lemma PlainPlaceholder(name: string)
    requires name != [] && '}' !in name && ':' !in name
    ensures
      var t := "{" + name + "}";
      ParseSegment(t) == Single(name) && WellFormedSegment(t) && '{' in t
  {
    var t := "{" + name + "}";
    assert t[0] == '{' && t[1..|t| - 1] == name;
    IndexOfIs(name, ':', |name|);
  }

  lemma TypedPlaceholder(name: string, kind: string)
    requires name != [] && '}' !in name && ':' !in name && kind != [] && '}' !in kind
    ensures
      var t := "{" + (name + ":" + kind) + "}";
      ParseSegment(t) == (if kind == "path" then CatchAll(name) else Single(name)) && WellFormedSegment(t) && '{' in t
  {
    var inner := name + ":" + kind;
    var t := "{" + inner + "}";
    assert t[0] == '{' && t[1..|t| - 1] == inner;
    assert forall k :: 0 <= k < |name| ==> inner[k] == name[k];
    IndexOfIs(inner, ':', |name|);
    assert inner[..|name|] == name && inner[|name| + 1..] == kind;
  }

  // A placeholder after other text in its segment is a name to the compiler and
  // plain text to the matcher.
  lemma PartialPlaceholderDiffers(lead: string)
    requires lead != [] && '/' !in lead && '{' !in lead
    ensures
      var template := "/" + (lead + "{a}");
      Match(template, template) == Some([]) && ExtractPathParamNames(template) == ["a"]
  {
    var t := lead + "{a}";
    var template := "/" + t;
    SplitTwo(t);
    FastPathAgrees(template, template);
    MatchLiterals("", t);
    ExtractSkips("/", t);
    ExtractSkips(lead, "{a}");
    NameA();
  }

  lemma NameA()
    ensures ExtractPathParamNames("{a}") == ["a"]
  {
    PlainPlaceholder("a");
    assert "{" + "a" + "}" == "{a}";
    WholeName("{a}");
  }

  lemma SplitTwo(t: string)
    requires '/' !in t
    ensures Split("/" + t) == ["", t]
  {
    SplitCons("", t);
    SplitPlain(t);
    assert "" + "/" + t == "/" + t;
  }

  lemma MatchLiterals(a: string, b: string)
    requires ParseSegment(a) == Literal(a) && ParseSegment(b) == Literal(b)
    ensures MatchSegments([a, b], [a, b]) == Some([])
  {
    assert [a, b][1..] == [b] && [b][1..] == [];
    assert MatchSegments([], []) == Some([]);
    assert MatchSegments([b], [b]) == Some([]);
  }

  // What follows a catch-all is a parameter to the compiler and nothing to the
  // matcher.
  lemma CatchAllHidesRest(path: string)
    ensures
      var template := "/" + ("{a:path}" + ("/" + "{b}"));
      Match(template, "/" + path) == Some([("a", path)]) && ExtractPathParamNames(template) == ["a", "b"]
  {
    var a, b := "{a:path}", "{b}";
    var template := "/" + (a + ("/" + b));
    TypedPlaceholder("a", "path");
    assert "{" + ("a" + ":" + "path") + "}" == a;
    PlainPlaceholder("b");
    assert "{" + "b" + "}" == b;
    CatchAllTakesRest(a, b, "a", path);
    ExtractSkips("/", a + ("/" + b));
    ExtractPlaceholder(a, "/" + b);
    ExtractSkips("/", b);
    WholeName(b);
  }

  lemma CatchAllTakesRest(a: string, b: string, name: string, path: string)
    requires ParseSegment(a) == CatchAll(name) && '{' in a && '/' !in a
    ensures Match("/" + (a + ("/" + b)), "/" + path) == Some([(name, path)])
  {
    var template := "/" + (a + ("/" + b));
    assert template == "" + "/" + (a + "/" + b) && "/" + path == "" + "/" + path;
    SplitCons("", a + "/" + b);
    SplitCons(a, b);
    SplitCons("", path);
    JoinSplit(path);
    FastPathAgrees(template, "/" + path);
    var ts, ps := Split(template), Split("/" + path);
    assert ts[1..] == [a] + Split(b) && ps[1..] == Split(path);
    assert MatchSegments(ts[1..], ps[1..]) == Some([(name, path)]);
  }
}
