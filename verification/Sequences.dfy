// Facts about sequences that several modules use.
module Sequences {
  import opened Wrappers

  function FlatMap<T, U>(f: T -> seq<U>, s: seq<T>): seq<U> {
    if s == [] then [] else f(s[0]) + FlatMap(f, s[1..])
  }

  predicate NoDuplicates<T(==)>(s: seq<T>) {
    forall i, j :: 0 <= i < j < |s| ==> s[i] != s[j]
  }

  lemma Assoc<T>(a: seq<T>, b: seq<T>, c: seq<T>)
    ensures a + b + c == a + (b + c)
  {
  }

  lemma HeadTail<T>(s: seq<T>, t: seq<T>)
    requires s != []
    ensures [s[0]] + (s[1..] + t) == s + t
  {
  }

  lemma {:induction false} FlatMapConcat<T, U>(f: T -> seq<U>, a: seq<T>, b: seq<T>)
    ensures FlatMap(f, a + b) == FlatMap(f, a) + FlatMap(f, b)
  {
    if a == [] {
      assert a + b == b;
    } else {
      FlatMapConcat(f, a[1..], b);
      assert (a + b)[0] == a[0] && (a + b)[1..] == a[1..] + b;
      Assoc(f(a[0]), FlatMap(f, a[1..]), FlatMap(f, b));
    }
  }

  lemma FlatMapSingle<T, U>(f: T -> seq<U>, x: T)
    ensures FlatMap(f, [x]) == f(x)
  {
    assert [x][1..] == [];
  }

  lemma {:induction false} FlatMapIdentity<T>(f: T -> seq<T>, s: seq<T>)
    requires forall k :: 0 <= k < |s| ==> f(s[k]) == [s[k]]
    ensures FlatMap(f, s) == s
  {
    if s != [] {
      FlatMapIdentity(f, s[1..]);
    }
  }

  // A run of elements that f leaves alone, then one more element.
  lemma FlatMapRun<T>(f: T -> seq<T>, s: seq<T>, start: nat, i: nat)
    requires start <= i < |s|
    requires forall k :: start <= k < i ==> f(s[k]) == [s[k]]
    ensures FlatMap(f, s[..i + 1]) == FlatMap(f, s[..start]) + s[start..i] + f(s[i])
  {
    FlatMapIdentity(f, s[start..i]);
    FlatMapConcat(f, s[..start], s[start..i]);
    assert s[..start] + s[start..i] == s[..i];
    FlatMapSingle(f, s[i]);
    FlatMapConcat(f, s[..i], [s[i]]);
    assert s[..i] + [s[i]] == s[..i + 1];
  }

  // The results of f that are there, in order.
  function FilterMap<T, U>(f: T -> Option<U>, s: seq<T>): seq<U> {
    if s == [] then []
    else FilterMap(f, s[..|s| - 1]) + ToSeq(f(s[|s| - 1]))
  }

  function ToSeq<U>(r: Option<U>): seq<U> {
    match r
    case None => []
    case Some(u) => [u]
  }

  lemma FilterMapStep<T, U>(f: T -> Option<U>, s: seq<T>, n: nat)
    requires n < |s|
    ensures FilterMap(f, s[..n + 1]) == FilterMap(f, s[..n]) + ToSeq(f(s[n]))
  {
    assert s[..n + 1][..n] == s[..n];
  }

  lemma {:induction false} FilterMapAll<T, U>(f: T -> Option<U>, s: seq<T>, us: seq<U>)
    requires |s| == |us| && forall i :: 0 <= i < |s| ==> f(s[i]) == Some(us[i])
    ensures FilterMap(f, s) == us
  {
    if s != [] {
      var n := |s| - 1;
      FilterMapAll(f, s[..n], us[..n]);
      assert us == us[..n] + [us[n]];
    }
  }

  lemma {:induction false} FilterMapMembers<T, U>(f: T -> Option<U>, s: seq<T>, u: U)
    ensures u in FilterMap(f, s) <==> exists x <- s :: f(x) == Some(u)
  {
    if s != [] {
      var n := |s| - 1;
      FilterMapMembers(f, s[..n], u);
      assert s == s[..n] + [s[n]];
    }
  }

  lemma {:induction false} FilterMapCons<T, U>(f: T -> Option<U>, s: seq<T>)
    requires s != []
    ensures FilterMap(f, s) == ToSeq(f(s[0])) + FilterMap(f, s[1..])
  {
    var n, t := |s| - 1, s[1..];
    var last := ToSeq(f(s[n]));
    if n == 0 {
      assert t == [] && s[..0] == [];
    } else {
      FilterMapCons(f, s[..n]);
      assert s[..n][0] == s[0] && s[..n][1..] == t[..n - 1] && t[n - 1] == s[n];
      Assoc(ToSeq(f(s[0])), FilterMap(f, t[..n - 1]), last);
    }
  }

  lemma {:induction false} FilterMapNone<T, U>(f: T -> Option<U>, s: seq<T>)
    requires forall x <- s :: f(x).None?
    ensures FilterMap(f, s) == []
  {
    if s != [] {
      FilterMapNone(f, s[..|s| - 1]);
    }
  }

  lemma {:induction false} FilterMapOne<T, U>(f: T -> Option<U>, s: seq<T>, i: nat, u: U)
    requires i < |s| && f(s[i]) == Some(u) && forall j :: 0 <= j < |s| && j != i ==> f(s[j]).None?
    ensures FilterMap(f, s) == [u]
  {
    var n := |s| - 1;
    if i == n {
      FilterMapNone(f, s[..n]);
    } else {
      FilterMapOne(f, s[..n], i, u);
    }
  }
}
