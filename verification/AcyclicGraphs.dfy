// Dependency graphs without cycles, and the ranks they have.
module AcyclicGraphs {
  import Sequences
  import opened DependencyPlan

  predicate Expands(g: Graph, c: Callable, d: Callable) {
    Expandable(g, c) && Expandable(g, d) &&
    exists p <- g.signatures[c] :: p.DepParam? && p.callable == d
  }

  predicate IsWalk(g: Graph, walk: seq<Callable>) {
    forall i :: 0 <= i < |walk| - 1 ==> Expands(g, walk[i], walk[i + 1])
  }

  // No walk along dependencies comes back to where it started.
  ghost predicate Acyclic(g: Graph) {
    forall walk :: IsWalk(g, walk) && |walk| > 1 ==> walk[0] != walk[|walk| - 1]
  }

  // ---- a cycle in every walk that is too long -----------------------------

  lemma {:induction false} Pigeonhole<T>(s: seq<T>, all: set<T>)
    requires Sequences.NoDuplicates(s) && forall i :: 0 <= i < |s| ==> s[i] in all
    ensures |s| <= |all|
  {
    if s != [] {
      var n := |s| - 1;
      Pigeonhole(s[..n], all - {s[n]});
    }
  }

  predicate LeadsInto(g: Graph, c: Callable, rest: set<Callable>) {
    exists d <- rest :: Expands(g, c, d)
  }

  lemma WalkOn(g: Graph, walk: seq<Callable>, d: Callable)
    requires IsWalk(g, walk) && walk != [] && Expands(g, walk[|walk| - 1], d)
    ensures IsWalk(g, walk + [d])
  {
    forall i | 0 <= i < |walk|
      ensures Expands(g, (walk + [d])[i], (walk + [d])[i + 1])
    {
    }
  }

  predicate AllLeadOn(g: Graph, rest: set<Callable>) {
    forall c <- rest :: LeadsInto(g, c, rest)
  }

  lemma NextOf(g: Graph, rest: set<Callable>, c: Callable) returns (d: Callable)
    requires AllLeadOn(g, rest) && c in rest
    ensures d in rest && Expands(g, c, d)
  {
    assert LeadsInto(g, c, rest);
    d :| d in rest && Expands(g, c, d);
  }

  lemma LongWalk(g: Graph, rest: set<Callable>, c: Callable, n: nat) returns (walk: seq<Callable>)
    requires AllLeadOn(g, rest) && c in rest
    ensures IsWalk(g, walk) && |walk| == n + 1 && forall i :: 0 <= i <= n ==> walk[i] in rest
  {
    walk := [c];
    for k := 0 to n
      invariant IsWalk(g, walk) && |walk| == k + 1 && forall i :: 0 <= i <= k ==> walk[i] in rest
    {
      var d := NextOf(g, rest, walk[k]);
      WalkOn(g, walk, d);
      walk := walk + [d];
    }
  }

  lemma RepeatIsCycle(g: Graph, walk: seq<Callable>, i: nat, j: nat)
    requires IsWalk(g, walk) && i < j < |walk| && walk[i] == walk[j]
    ensures !Acyclic(g)
  {
    var cycle := walk[i..j + 1];
    assert IsWalk(g, cycle) && |cycle| > 1;
  }

  // Some callable of an acyclic graph leads to no other of the rest.
  lemma FindSink(g: Graph, rest: set<Callable>) returns (c: Callable)
    requires Acyclic(g) && rest != {}
    ensures c in rest && !LeadsInto(g, c, rest)
  {
    if AllLeadOn(g, rest) {
      c :| c in rest;
      var walk := LongWalk(g, rest, c, |rest|);
      if Sequences.NoDuplicates(walk) {
        Pigeonhole(walk, rest);
      }
      var i, j :| 0 <= i < j < |walk| && walk[i] == walk[j];
      RepeatIsCycle(g, walk, i, j);
      assert false;
    }
    c :| c in rest && !LeadsInto(g, c, rest);
  }

  // ---- ranks --------------------------------------------------------------

  // Ranks under `bound` for some of the callables and all that they lead to.
  predicate PartlyRanked(g: Graph, rank: map<Callable, nat>, bound: nat) {
    forall c <- rank :: Expandable(g, c) && rank[c] < bound && Below(g, rank, g.signatures[c], rank[c])
  }

  lemma ExtendRank(g: Graph, rank: map<Callable, nat>, bound: nat, c: Callable, rest: set<Callable>)
    requires PartlyRanked(g, rank, bound) && Expandable(g, c) && c in rest && !LeadsInto(g, c, rest)
    requires forall x :: Expandable(g, x) ==> x in rank || x in rest
    requires c !in rank
    ensures PartlyRanked(g, rank[c := bound], bound + 1)
  {
    forall p <- g.signatures[c] | p.DepParam? && Expandable(g, p.callable)
      ensures p.callable in rank && p.callable != c
    {
      assert Expands(g, c, p.callable);
    }
  }

  lemma {:induction false} CompleteRank(g: Graph, part: map<Callable, nat>, n: nat)
    returns (rank: map<Callable, nat>, bound: nat)
    requires Acyclic(g) && PartlyRanked(g, part, n)
    ensures PartlyRanked(g, rank, bound) && forall c :: Expandable(g, c) ==> c in rank
    decreases |g.signatures.Keys - g.schemes - part.Keys|
  {
    var rest := g.signatures.Keys - g.schemes - part.Keys;
    if rest == {} {
      rank, bound := part, n;
      assert forall c :: Expandable(g, c) ==> c in part || c in rest;
    } else {
      var c := FindSink(g, rest);
      ExtendRank(g, part, n, c, rest);
      assert g.signatures.Keys - g.schemes - part[c := n].Keys == rest - {c};
      rank, bound := CompleteRank(g, part[c := n], n + 1);
    }
  }

  // A rank that also bounds the dependencies of any handler.
  lemma FindRank(g: Graph, params: seq<Param>) returns (rank: map<Callable, nat>, bound: nat)
    requires Acyclic(g)
    ensures Ranked(g, rank) && Below(g, rank, params, bound)
  {
    rank, bound := CompleteRank(g, map[], 0);
  }

  lemma {:induction false} RankFalls(g: Graph, rank: map<Callable, nat>, walk: seq<Callable>)
    requires Ranked(g, rank) && IsWalk(g, walk) && |walk| > 1
    ensures walk[0] in rank && walk[|walk| - 1] in rank && rank[walk[|walk| - 1]] < rank[walk[0]]
  {
    assert Expands(g, walk[0], walk[1]);
    if |walk| > 2 {
      RankFalls(g, rank, walk[1..]);
    }
  }

  // The acyclic graphs are the ranked ones.
  lemma AcyclicIffRanked(g: Graph)
    ensures Acyclic(g) <==> exists rank :: Ranked(g, rank)
  {
    if Acyclic(g) {
      var rank, _ := FindRank(g, []);
    }
    if rank :| Ranked(g, rank) {
      forall walk | IsWalk(g, walk) && |walk| > 1
        ensures walk[0] != walk[|walk| - 1]
      {
        RankFalls(g, rank, walk);
      }
    }
  }
}
