// Generator dependencies: call_with_async_handling and drain_yield_deps of
// python/hyperfastapi/_routing.py, over the state record of _bg.py.
module YieldDependencies {
  import Sequences
  import opened Wrappers
  import opened DependencyPlan

  // Exceptions, by identity.  All of them derive from Exception.
  type Exn = nat

  datatype Value = ScopesValue(scopes: seq<string>) | TasksValue | RequestValue | Object(id: nat)

  type Kwargs = map<string, Value>

  // ---- generators ---------------------------------------------------------

  datatype Kind = Sync | Async

  // What resuming a suspended generator does: run to its end, stop at another
  // yield, or raise.
  datatype Resume = Returns | YieldsAgain | Raises(e: Exn)

  // A generator suspended at its yield.  `onThrow` is its answer to the one
  // exception the request may throw into it.
  datatype Generator = Generator(id: nat, kind: Kind, onNext: Resume, onThrow: Resume)

  // Whether calling a callable makes a generator, and what it would do later.
  datatype Script = NotAGenerator | Yields(kind: Kind, onNext: Resume, onThrow: Resume)

  datatype Event =
    | Opened(id: nat)                        // ran to its yield
    | BodyEnded                              // resolution failed, or the handler ended
    | Resumed(id: nat, thrown: Option<Exn>)  // resumed past its yield
    | Closed(id: nat)                        // close() or aclose()

  // ---- calling ------------------------------------------------------------

  type Overrides = map<Callable, Callable>

  // The callables: the value, or first yielded value, of a call, and the
  // generator it leaves behind.  Values are functions of the arguments; what a
  // generator will do depends on how many were opened before it, too.
  datatype World = World(
    overrides: Overrides,
    fromRequest: nat -> Extraction,
    call: (Callable, Kwargs) -> Result<Value, Exn>,
    script: (Callable, Kwargs, nat) -> Script,
    security: Callable -> Result<Value, Exn>,
    hasRequest: bool)

  // One value taken from the request for a sub-dependency.
  datatype Extraction = Found(v: Value) | UseDefault | Bad(detail: nat)

  // A validation error is returned as a value, everything else propagates.
  datatype Failure = Invalid(detail: nat) | Raised(e: Exn)

  // ---- tearing down -------------------------------------------------------

  // Every generator resumed and closed, last opened first.
  function Teardown(gens: seq<Generator>, exc: Option<Exn>): seq<Event> {
    if gens == [] then []
    else
      var g := gens[|gens| - 1];
      [Resumed(g.id, exc), Closed(g.id)] + Teardown(gens[..|gens| - 1], exc)
  }

  // The first opened comes last.
  lemma {:induction false} TeardownCons(g: Generator, gens: seq<Generator>, exc: Option<Exn>)
    ensures Teardown([g] + gens, exc) == Teardown(gens, exc) + [Resumed(g.id, exc), Closed(g.id)]
  {
    var all := [g] + gens;
    if gens == [] {
      assert all[..0] == [];
    } else {
      var n := |gens| - 1;
      TeardownCons(g, gens[..n], exc);
      assert all[..n + 1] == [g] + gens[..n] && all[n + 1] == gens[n];
      Sequences.Assoc([Resumed(gens[n].id, exc), Closed(gens[n].id)], Teardown(gens[..n], exc),
                      [Resumed(g.id, exc), Closed(g.id)]);
    }
  }

  lemma TeardownSplit(gens: seq<Generator>, n: nat, exc: Option<Exn>)
    requires 0 < n <= |gens|
    ensures Teardown(gens[n - 1..], exc)
         == Teardown(gens[n..], exc) + [Resumed(gens[n - 1].id, exc), Closed(gens[n - 1].id)]
  {
    TeardownCons(gens[n - 1], gens[n..], exc);
    assert gens[n - 1..] == [gens[n - 1]] + gens[n..];
  }

  predicate StopsDrain(g: Generator) {
    g.kind == Sync && g.onNext.Raises?
  }

  // The index of the last opened generator that stops a drain, or -1.
  function StopIndex(gens: seq<Generator>): (i: int)
    ensures -1 <= i < |gens|
    ensures i >= 0 ==> StopsDrain(gens[i])
    ensures forall j :: i < j < |gens| ==> !StopsDrain(gens[j])
  {
    if gens == [] then -1
    else if StopsDrain(gens[|gens| - 1]) then |gens| - 1
    else StopIndex(gens[..|gens| - 1])
  }

  // What a drain without an exception leaves on the stack.
  function Remainder(gens: seq<Generator>): seq<Generator> {
    var i := StopIndex(gens);
    if i < 0 then [] else gens[..i]
  }

  // What it processes.
  function Processed(gens: seq<Generator>): seq<Generator> {
    var i := StopIndex(gens);
    if i < 0 then gens else gens[i..]
  }

  // The last error collected: of the first opened generator that raises.
  function LastError(gens: seq<Generator>): Option<Exn> {
    if gens == [] then None
    else if gens[0].onNext.Raises? then Some(gens[0].onNext.e)
    else LastError(gens[1..])
  }

  // What a drain without an exception raises.
  function DrainError(gens: seq<Generator>): Option<Exn> {
    var i := StopIndex(gens);
    if i < 0 then LastError(gens) else Some(gens[i].onNext.e)
  }

  class BgState {
    var tasks: bool  // a BackgroundTasks object was made
    var yieldGens: seq<Generator>
    ghost var log: seq<Callable>  // callables invoked
    ghost var trace: seq<Event>   // what happened to generators

    constructor ()
      ensures !tasks && yieldGens == [] && log == [] && trace == []
    {
      tasks := false;
      yieldGens, log, trace := [], [], [];
    }

    // The per-request reset; it drops a stack that was not drained.
    method Reset()
      modifies this
      ensures !tasks && yieldGens == []
      ensures log == old(log) && trace == old(trace)
    {
      tasks := false;
      yieldGens := [];
    }

    // Resolution failed, or the handler returned or raised.
    ghost method MarkBodyEnded()
      modifies `trace
      ensures trace == old(trace) + [BodyEnded]
    {
      trace := trace + [BodyEnded];
    }

    // The value of the call.  A generator is left on the stack, at its yield.
    method CallWithAsyncHandling(w: World, c: Callable, kwargs: Kwargs) returns (r: Result<Value, Failure>)
      modifies this
      ensures tasks == old(tasks) && log == old(log) + [c]
      ensures
        match w.call(c, kwargs)
        case Err(e) => r == Err(Raised(e)) && yieldGens == old(yieldGens) && trace == old(trace)
        case Ok(v) =>
          var opens := OpenedBy(w, c, kwargs, |old(yieldGens)|);
          r == Ok(v) && yieldGens == old(yieldGens) + opens && trace == old(trace) + OpenEvents(opens)
    {
      log := log + [c];
      var value := w.call(c, kwargs);
      if value.Err? {
        return Err(Raised(value.error));
      }
      match w.script(c, kwargs, |yieldGens|) {
        case NotAGenerator =>
        case Yields(kind, onNext, onThrow) =>
          trace := trace + [Opened(|yieldGens|)];
          yieldGens := yieldGens + [Generator(|yieldGens|, kind, onNext, onThrow)];
      }
      return Ok(value.value);
    }

    // `next` or `throw`, and then `close`, whose errors are ignored.
    method ResumeAndClose(g: Generator, exc: Option<Exn>) returns (answer: Resume)
      modifies `trace
      ensures trace == old(trace) + [Resumed(g.id, exc), Closed(g.id)]
      ensures answer == if exc.Some? then g.onThrow else g.onNext
    {
      trace := trace + [Resumed(g.id, exc)];
      answer := if exc.Some? then g.onThrow else g.onNext;
      trace := trace + [Closed(g.id)];
    }

    // Pops every generator, last opened first.  With an exception it is thrown
    // into each; without one, a sync generator that raises ends the drain.
    method DrainYieldDeps(exc: Option<Exn>) returns (r: Result<(), Exn>)
      modifies this
      ensures tasks == old(tasks) && log == old(log)
      ensures exc.Some? ==>
        r == Ok(()) && yieldGens == [] && trace == old(trace) + Teardown(old(yieldGens), exc)
      ensures exc.None? ==>
        r == (if DrainError(old(yieldGens)).Some? then Err(DrainError(old(yieldGens)).value) else Ok(())) &&
        yieldGens == Remainder(old(yieldGens)) &&
        trace == old(trace) + Teardown(Processed(old(yieldGens)), None)
    {
      var teardownError: Option<Exn> := None;
      ghost var gens := yieldGens;
      ghost var n := |gens|;
      while yieldGens != []
        invariant n == |yieldGens| && yieldGens == gens[..n]
        invariant tasks == old(tasks) && log == old(log)
        invariant trace == old(trace) + Teardown(gens[n..], exc)
        invariant exc.None? ==> forall j :: n <= j < |gens| ==> !StopsDrain(gens[j])
        invariant exc.None? ==> teardownError == LastError(gens[n..])
        decreases |yieldGens|
      {
        var g := yieldGens[|yieldGens| - 1];
        yieldGens := yieldGens[..|yieldGens| - 1];
        TeardownSplit(gens, n, exc);
        Sequences.Assoc(old(trace), Teardown(gens[n..], exc), [Resumed(g.id, exc), Closed(g.id)]);
        n := n - 1;
        var answer := ResumeAndClose(g, exc);
        assert gens[n..][0] == g && gens[n..][1..] == gens[n + 1..];
        if answer.Raises? {
          if exc.Some? {
            if answer.e != exc.value {
              teardownError := Some(answer.e);
            }
          } else if g.kind == Sync {
            StopsAt(gens, n);
            return Err(answer.e);
          } else {
            teardownError := Some(answer.e);
          }
        }
      }
      assert gens[0..] == gens;
      if exc.None? {
        StopsAt(gens, -1);
      }
      if teardownError.Some? && exc.None? {
        return Err(teardownError.value);
      }
      return Ok(());
    }
  }

  lemma StopsAt(gens: seq<Generator>, n: int)
    requires -1 <= n < |gens| && (n >= 0 ==> StopsDrain(gens[n]))
    requires forall j :: n < j < |gens| ==> !StopsDrain(gens[j])
    ensures StopIndex(gens) == n
  {
    var i := StopIndex(gens);
    assert i <= n || i < 0;
  }

  // A sync generator that raises ends the drain there and then: what was opened
  // before it stays on the stack, and its error is the one reported.
  lemma DrainStopsAt(gens: seq<Generator>, i: nat)
    requires i < |gens| && gens[i].kind == Sync && gens[i].onNext.Raises?
    requires forall j :: i < j < |gens| ==> gens[j].kind == Async || !gens[j].onNext.Raises?
    ensures Remainder(gens) == gens[..i] && Processed(gens) == gens[i..]
    ensures DrainError(gens) == Some(gens[i].onNext.e)
  {
    StopsAt(gens, i);
  }

  // Without one the stack is emptied.  Errors of async generators do not stop
  // the drain: it reports the last it meets, that of the first generator opened
  // among those that raise.
  lemma DrainRunsThrough(gens: seq<Generator>)
    requires forall g <- gens :: g.kind == Async || !g.onNext.Raises?
    ensures Remainder(gens) == [] && Processed(gens) == gens
    ensures DrainError(gens).None? <==> forall g <- gens :: !g.onNext.Raises?
    ensures forall i :: 0 <= i < |gens| && gens[i].onNext.Raises? && (forall j :: 0 <= j < i ==> !gens[j].onNext.Raises?) ==>
      DrainError(gens) == Some(gens[i].onNext.e)
  {
    StopsAt(gens, -1);
    LastErrorIs(gens);
  }

  lemma {:induction false} LastErrorIs(gens: seq<Generator>)
    ensures LastError(gens).None? <==> forall g <- gens :: !g.onNext.Raises?
    ensures forall i :: 0 <= i < |gens| && gens[i].onNext.Raises? && (forall j :: 0 <= j < i ==> !gens[j].onNext.Raises?) ==>
      LastError(gens) == Some(gens[i].onNext.e)
  {
    if gens != [] {
      LastErrorIs(gens[1..]);
      assert gens == [gens[0]] + gens[1..];
      if !gens[0].onNext.Raises? {
        forall i | 0 <= i < |gens| && gens[i].onNext.Raises? && (forall j :: 0 <= j < i ==> !gens[j].onNext.Raises?)
          ensures LastError(gens) == Some(gens[i].onNext.e)
        {
          var t := gens[1..];
          assert t[i - 1] == gens[i];
          assert forall j :: 0 <= j < i - 1 ==> t[j] == gens[j + 1];
        }
      }
    }
  }

  // What the drain does to the generators it takes: the k-th from the top is
  // the k-th to be resumed, and is closed at once.
  lemma {:induction false} TeardownAt(gens: seq<Generator>, exc: Option<Exn>, k: nat)
    requires k < |gens|
    ensures |Teardown(gens, exc)| == 2 * |gens|
    ensures
      var g := gens[|gens| - 1 - k];
      Teardown(gens, exc)[2 * k] == Resumed(g.id, exc) && Teardown(gens, exc)[2 * k + 1] == Closed(g.id)
  {
    var rest := gens[..|gens| - 1];
    if k > 0 {
      TeardownAt(rest, exc, k - 1);
    } else if rest != [] {
      TeardownAt(rest, exc, 0);
    }
  }

  // The generator that a successful call leaves, if any.
  function OpenedBy(w: World, c: Callable, kwargs: Kwargs, id: nat): seq<Generator> {
    match w.script(c, kwargs, id)
    case NotAGenerator => []
    case Yields(kind, onNext, onThrow) => [Generator(id, kind, onNext, onThrow)]
  }

  function OpenEvents(gens: seq<Generator>): (r: seq<Event>)
    ensures |r| == |gens| && forall i :: 0 <= i < |gens| ==> r[i] == Opened(gens[i].id)
  {
    seq(|gens|, i requires 0 <= i < |gens| => Opened(gens[i].id))
  }
}
