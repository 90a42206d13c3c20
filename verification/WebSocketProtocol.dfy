// All interleavings of the reader task, the worker loop, the handler and the
// writer task of one WebSocket connection.
module WebSocketProtocol {
  import Sequences
  import opened Wrappers
  import opened WebSocketBridge

  datatype Reader = Reading | Stopping | ReaderDone

  // The writer task: between frames, holding one, closing the socket after its
  // loop, or finished.  Only then is the receiving end of the channel dropped.
  datatype Writer = Idle | Writing(f: OutFrame) | Exiting(failed: bool) | WriterDone(failed: bool)

  datatype State = State(
    received: seq<Incoming>,   // what the reader took from the socket
    reader: Reader,
    scheduled: seq<Frame>,     // call_soon_threadsafe callbacks, in order
    end: Endpoint,
    handlerEnded: bool,
    closedByHandler: bool,     // the handler called close() while open
    endedInTime: bool,         // the writer was alive when the handler ended
    taken: seq<OutFrame>,      // what the writer took from the channel
    forwarded: seq<OutFrame>,  // what reached the socket
    writer: Writer)

  const INITIAL := State([], Reading, [], Endpoint(false, [], [], [], true), false, false, false, [], [], Idle)

  datatype Event =
    | ReaderTakes(m: Incoming)
    | StreamEnds            // end of stream, or a read error
    | ReaderFinishes        // the push after the loop
    | LoopRuns              // one scheduled put_nowait
    | HandlerReceives
    | HandlerSends(f: OutFrame)
    | HandlerCloses(code: int, reason: string)
    | HandlerEnds           // returns or raises: the `finally` closes
    | WriterTakes
    | WriterWrites(ok: bool)
    | WriterExits           // the socket is closed, the channel dropped

  predicate Enabled(s: State, e: Event) {
    match e
    case ReaderTakes(_) => s.reader == Reading
    case StreamEnds => s.reader == Reading
    case ReaderFinishes => s.reader == Stopping
    case LoopRuns => s.scheduled != []
    case HandlerReceives => s.end.queue != []
    case HandlerSends(f) => !f.OutClose?
    case HandlerCloses(_, _) => true
    case HandlerEnds => !s.handlerEnded
    case WriterTakes => s.writer == Idle && |s.taken| < |s.end.sent|
    case WriterWrites(_) => s.writer.Writing?
    case WriterExits => s.writer.Exiting?
  }

  function Step(s: State, e: Event): State
    requires Enabled(s, e)
  {
    match e
    case ReaderTakes(m) =>
      s.(received := s.received + [m],
         scheduled := s.scheduled + FrameFor(m),
         reader := if m.InClose? then Stopping else Reading)
    case StreamEnds => s.(reader := Stopping)
    case ReaderFinishes => s.(reader := ReaderDone, scheduled := s.scheduled + [Disconnect])
    case LoopRuns =>
      s.(scheduled := s.scheduled[1..], end := s.end.(queue := s.end.queue + [s.scheduled[0]]))
    case HandlerReceives => s.(end := Next(s.end).0)
    case HandlerSends(f) => s.(end := Send(s.end, f).0)
    case HandlerCloses(code, reason) =>
      s.(end := Close(s.end, code, reason).0,
         closedByHandler := s.closedByHandler || (!s.end.closed && !s.handlerEnded))
    case HandlerEnds =>
      s.(end := Close(s.end, 1000, "").0, handlerEnded := true, endedInTime := s.end.writerAlive)
    case WriterTakes =>
      var f := s.end.sent[|s.taken|];
      s.(taken := s.taken + [f], writer := Writing(f))
    case WriterWrites(ok) =>
      s.(forwarded := if ok then s.forwarded + [s.writer.f] else s.forwarded,
         writer := if ok && !s.writer.f.OutClose? then Idle else Exiting(!ok))
    case WriterExits => s.(writer := WriterDone(s.writer.failed), end := s.end.(writerAlive := false))
  }

  // A run: each event in turn, from the initial state; None if one of them
  // cannot happen.
  function Run(events: seq<Event>): Option<State> {
    if events == [] then Some(INITIAL)
    else
      match Run(events[..|events| - 1])
      case None => None
      case Some(s) =>
        var e := events[|events| - 1];
        if Enabled(s, e) then Some(Step(s, e)) else None
  }

  // ---- the invariant ------------------------------------------------------

  // Everything the reader has pushed so far.
  function Pushed(s: State): seq<Frame> {
    PushedBy(s.received, s.reader == ReaderDone)
  }

  predicate Inbound(s: State) {
    s.end.delivered + s.end.queue + s.scheduled == Pushed(s) &&
    (s.reader == Reading ==> InClose !in s.received) &&
    (Disconnect in s.end.delivered ==> s.end.closed)
  }

  // Data frames, then at most one Close.
  predicate CloseLast(fs: seq<OutFrame>) {
    forall i :: 0 <= i < |fs| - 1 ==> !fs[i].OutClose?
  }

  predicate EndsWithClose(fs: seq<OutFrame>) {
    fs != [] && fs[|fs| - 1].OutClose?
  }

  predicate WriterOk(s: State) {
    s.taken <= s.end.sent && s.forwarded <= s.taken &&
    (s.end.writerAlive <==> !s.writer.WriterDone?) &&
    match s.writer
    case Idle => s.forwarded == s.taken && !EndsWithClose(s.taken)
    case Writing(f) => s.taken == s.forwarded + [f]
    case Exiting(failed) => LoopEnded(s, failed)
    case WriterDone(failed) => LoopEnded(s, failed)
  }

  // The loop ended at a write that failed, or at a Close that was written.
  predicate LoopEnded(s: State, failed: bool) {
    s.taken != [] &&
    if failed then s.taken == s.forwarded + [s.taken[|s.taken| - 1]]
    else s.forwarded == s.taken && EndsWithClose(s.taken)
  }

  predicate Outbound(s: State) {
    CloseLast(s.end.sent) &&
    (EndsWithClose(s.end.sent) ==> s.end.closed) &&
    (s.end.closed && !s.closedByHandler && !s.handlerEnded ==>
      Disconnect in s.end.delivered && !EndsWithClose(s.end.sent)) &&
    (s.closedByHandler ==> s.end.closed) &&
    (s.handlerEnded ==> s.end.closed) &&
    (s.handlerEnded && Disconnect !in s.end.delivered && !s.closedByHandler ==>
      if s.endedInTime then EndsWithClose(s.end.sent) && s.end.sent[|s.end.sent| - 1] == OutClose(1000, "")
      else !EndsWithClose(s.end.sent) && s.writer == WriterDone(true))
  }

  predicate Invariant(s: State) {
    Inbound(s) && WriterOk(s) && Outbound(s)
  }

  lemma BeforeCloseSnoc(ms: seq<Incoming>, m: Incoming)
    requires InClose !in ms
    ensures BeforeClose(ms) == ms
    ensures BeforeClose(ms + [m]) == if m.InClose? then ms else ms + [m]
  {
    assert forall i :: 0 <= i < |ms| ==> (ms + [m])[i] in ms;
    assert (ms + [m])[|ms|] == m && (ms + [m])[..|ms|] == ms;
    var r := BeforeClose(ms + [m]);
    assert |r| >= |ms|;
  }

  // Moving one frame along keeps the order of the whole line.
  lemma MoveOne<T>(a: seq<T>, b: seq<T>, c: seq<T>)
    requires c != []
    ensures a + (b + [c[0]]) + c[1..] == a + b + c
  {
  }

  lemma PushedOpen(ms: seq<Incoming>)
    requires InClose !in ms
    ensures PushedBy(ms, false) == DataOf(ms)
  {
    assert BeforeClose(ms) == ms;
    assert DataOf(ms) + [] + [] == DataOf(ms);
  }

  lemma DataSnoc(ms: seq<Incoming>, m: Incoming)
    requires !m.InClose?
    ensures DataOf(ms + [m]) == DataOf(ms) + FrameFor(m)
  {
    assert (ms + [m])[..|ms|] == ms;
  }

  lemma PushedClose(ms: seq<Incoming>)
    requires InClose !in ms
    ensures PushedBy(ms + [InClose], false) == DataOf(ms) + [Disconnect]
  {
    BeforeCloseSnoc(ms, InClose);
    assert (ms + [InClose])[|ms|] == InClose;
    assert DataOf(ms) + [Disconnect] + [] == DataOf(ms) + [Disconnect];
  }

  lemma PushedSnoc(ms: seq<Incoming>, m: Incoming)
    requires InClose !in ms
    ensures PushedBy(ms + [m], false) == PushedBy(ms, false) + FrameFor(m)
  {
    PushedOpen(ms);
    if m.InClose? {
      PushedClose(ms);
    } else {
      PushedOpen(ms + [m]);
      DataSnoc(ms, m);
    }
  }

  lemma ReaderKeepsInbound(s: State, m: Incoming)
    requires Inbound(s) && s.reader == Reading
    ensures Inbound(Step(s, ReaderTakes(m)))
  {
    PushedSnoc(s.received, m);
    Sequences.Assoc(s.end.delivered + s.end.queue, s.scheduled, FrameFor(m));
    if !m.InClose? {
      NoCloseSnoc(s.received, m);
    }
  }

  lemma NoCloseSnoc(ms: seq<Incoming>, m: Incoming)
    requires InClose !in ms && !m.InClose?
    ensures InClose !in ms + [m]
  {
  }

  lemma ReceiveKeepsInbound(s: State)
    requires Inbound(s) && s.end.queue != []
    ensures Inbound(Step(s, HandlerReceives))
  {
    var t := Step(s, HandlerReceives);
    assert t.end.delivered + t.end.queue == s.end.delivered + s.end.queue;
    assert Pushed(t) == Pushed(s);
  }

  lemma FinishKeepsInbound(s: State)
    requires Inbound(s) && s.reader == Stopping
    ensures Inbound(Step(s, ReaderFinishes))
  {
    var line := s.end.delivered + s.end.queue;
    assert line + (s.scheduled + [Disconnect]) == (line + s.scheduled) + [Disconnect];
    assert Pushed(Step(s, ReaderFinishes)) == Pushed(s) + [Disconnect];
  }

  // The other events leave the line of frames as it is.
  lemma OthersKeepInbound(s: State, e: Event)
    requires Inbound(s) && Enabled(s, e)
    requires !(e.ReaderTakes? || e.ReaderFinishes? || e.LoopRuns? || e.HandlerReceives?)
    ensures Inbound(Step(s, e))
  {
    var t := Step(s, e);
    assert t.end.delivered == s.end.delivered && t.end.queue == s.end.queue && t.scheduled == s.scheduled;
    assert Pushed(t) == Pushed(s);
  }

  lemma InboundStep(s: State, e: Event)
    requires Inbound(s) && Enabled(s, e)
    ensures Inbound(Step(s, e))
  {
    match e
    case ReaderTakes(m) => ReaderKeepsInbound(s, m);
    case ReaderFinishes => FinishKeepsInbound(s);
    case LoopRuns => MoveOne(s.end.delivered, s.end.queue, s.scheduled);
    case HandlerReceives => ReceiveKeepsInbound(s);
    case _ => OthersKeepInbound(s, e);
  }

  lemma HandlerKeepsOutbound(s: State, e: Event)
    requires WriterOk(s) && Outbound(s) && Enabled(s, e)
    requires e.HandlerSends? || e.HandlerCloses? || e.HandlerEnds?
    ensures WriterOk(Step(s, e)) && Outbound(Step(s, e))
  {
  }

  lemma WriterKeepsOutbound(s: State, e: Event)
    requires WriterOk(s) && Outbound(s) && Enabled(s, e)
    requires e.WriterTakes? || e.WriterWrites? || e.WriterExits?
    ensures WriterOk(Step(s, e)) && Outbound(Step(s, e))
  {
    var t := Step(s, e);
    assert Outbound(t);
    match e
    case WriterTakes =>
      assert t.taken[..|s.taken|] == s.taken;
    case WriterWrites(ok) =>
      assert s.taken == s.forwarded + [s.writer.f];
    case WriterExits =>
  }

  lemma ReceiveKeepsOutbound(s: State)
    requires WriterOk(s) && Outbound(s) && s.end.queue != []
    ensures WriterOk(Step(s, HandlerReceives)) && Outbound(Step(s, HandlerReceives))
  {
    var t := Step(s, HandlerReceives);
    assert t.end.sent == s.end.sent && t.end.writerAlive == s.end.writerAlive;
    assert Disconnect in s.end.delivered ==> Disconnect in t.end.delivered;
  }

  lemma ReaderKeepsOutbound(s: State, e: Event)
    requires WriterOk(s) && Outbound(s) && Enabled(s, e)
    requires e.ReaderTakes? || e.StreamEnds? || e.ReaderFinishes? || e.LoopRuns?
    ensures WriterOk(Step(s, e)) && Outbound(Step(s, e))
  {
    var t := Step(s, e);
    assert t.end == s.end.(queue := t.end.queue);
  }

  lemma OutboundStep(s: State, e: Event)
    requires WriterOk(s) && Outbound(s) && Enabled(s, e)
    ensures WriterOk(Step(s, e)) && Outbound(Step(s, e))
  {
    match e
    case HandlerSends(_) => HandlerKeepsOutbound(s, e);
    case HandlerCloses(_, _) => HandlerKeepsOutbound(s, e);
    case HandlerEnds => HandlerKeepsOutbound(s, e);
    case WriterTakes => WriterKeepsOutbound(s, e);
    case WriterWrites(_) => WriterKeepsOutbound(s, e);
    case WriterExits => WriterKeepsOutbound(s, e);
    case HandlerReceives => ReceiveKeepsOutbound(s);
    case _ => ReaderKeepsOutbound(s, e);
  }

  lemma {:induction false} RunKeepsInvariant(events: seq<Event>)
    requires Run(events).Some?
    ensures Invariant(Run(events).value)
  {
    if events != [] {
      var init := events[..|events| - 1];
      RunKeepsInvariant(init);
      InboundStep(Run(init).value, events[|events| - 1]);
      OutboundStep(Run(init).value, events[|events| - 1]);
    }
  }

  // ---- what the handler receives ------------------------------------------

  // The frames that are on their way or delivered.
  function Line(s: State): seq<Frame> {
    s.end.delivered + s.end.queue + s.scheduled
  }

  // Over every run nothing is lost, added or changed: the line holds one frame
  // for each text or binary message before the first Close, in order, then a
  // disconnect for the Close and one for the end of the reader.
  lemma LineIsExact(events: seq<Event>)
    requires Run(events).Some?
    ensures
      var s := Run(events).value;
      InLine(Line(s), s.received, Disconnects(s.received, s.reader == ReaderDone))
  {
    RunKeepsInvariant(events);
    var s := Run(events).value;
    PushedInLine(s.received, s.reader == ReaderDone);
  }

  // The messages before the first Close or some first ones of them, and only
  // after all of them, and with the reader stopped, disconnects.
  predicate ReceivedInOrder(s: State) {
    var messages, got := Messages(BeforeClose(s.received)), s.end.delivered;
    (forall i :: 0 <= i < |got| ==>
      if i < |messages| then Carries(got[i], messages[i]) else got[i] == Disconnect) &&
    (|got| > |messages| ==> s.reader != Reading)
  }

  lemma IsPrefix<T>(a: seq<T>, b: seq<T>, c: seq<T>)
    ensures a <= a + b + c
  {
  }

  // Over every run: the handler takes the text and binary messages received
  // before the first Close, in order, each once.
  lemma InboundSafety(events: seq<Event>)
    requires Run(events).Some?
    ensures ReceivedInOrder(Run(events).value)
  {
    var s := Run(events).value;
    RunKeepsInvariant(events);
    LineIsExact(events);
    IsPrefix(s.end.delivered, s.end.queue, s.scheduled);
    assert forall i :: 0 <= i < |s.end.delivered| ==> s.end.delivered[i] == Line(s)[i];
  }

  // A text message arrives as text.
  lemma TextArrives(text: string)
    ensures
      var r := Run([ReaderTakes(InText(text)), LoopRuns]);
      r.Some? && r.value.end.queue == [TextFrame(text)]
  {
    var a, b := [ReaderTakes(InText(text))], [ReaderTakes(InText(text)), LoopRuns];
    assert a[..0] == [] && b[..1] == a;
    assert Run(a) == Some(Step(INITIAL, ReaderTakes(InText(text))));
  }

  // ---- what the peer receives ---------------------------------------------

  // What one event queues: the frame of an accepted send, or the first Close.
  function Queued(s: State, e: Event): seq<OutFrame> {
    if s.end.closed || !s.end.writerAlive then []
    else
      match e
      case HandlerSends(f) => [f]
      case HandlerCloses(code, reason) => if 0 <= code < 65536 then [OutClose(code, reason)] else []
      case HandlerEnds => [OutClose(1000, "")]
      case _ => []
  }

  // And what it puts on the socket: a frame that was written.
  function Written(s: State, e: Event): seq<OutFrame> {
    if e == WriterWrites(true) && 0 < |s.taken| <= |s.end.sent| then [s.end.sent[|s.taken| - 1]] else []
  }

  // The outbound frames over a whole run.
  function AllQueued(events: seq<Event>): seq<OutFrame>
    requires Run(events).Some?
  {
    if events == [] then []
    else
      var init := events[..|events| - 1];
      AllQueued(init) + Queued(Run(init).value, events[|events| - 1])
  }

  function AllWritten(events: seq<Event>): seq<OutFrame>
    requires Run(events).Some?
  {
    if events == [] then []
    else
      var init := events[..|events| - 1];
      AllWritten(init) + Written(Run(init).value, events[|events| - 1])
  }

  lemma HandlerQueues(s: State, e: Event)
    requires Enabled(s, e) && (e.HandlerSends? || e.HandlerCloses? || e.HandlerEnds?)
    ensures Step(s, e).end.sent == s.end.sent + Queued(s, e)
    ensures Step(s, e).forwarded == s.forwarded
  {
  }

  lemma WriterWritesOne(s: State, ok: bool)
    requires WriterOk(s) && s.writer.Writing?
    ensures Step(s, WriterWrites(ok)).end.sent == s.end.sent
    ensures Step(s, WriterWrites(ok)).forwarded == s.forwarded + Written(s, WriterWrites(ok))
  {
    assert s.end.sent[|s.taken| - 1] == s.taken[|s.taken| - 1] == s.writer.f;
    assert s.forwarded + [] == s.forwarded;
  }

  lemma StepQueues(s: State, e: Event)
    requires WriterOk(s) && Enabled(s, e)
    ensures Step(s, e).end.sent == s.end.sent + Queued(s, e)
    ensures Step(s, e).forwarded == s.forwarded + Written(s, e)
  {
    assert s.end.sent + [] == s.end.sent && s.forwarded + [] == s.forwarded;
    match e
    case HandlerSends(_) => HandlerQueues(s, e);
    case HandlerCloses(_, _) => HandlerQueues(s, e);
    case HandlerEnds => HandlerQueues(s, e);
    case WriterWrites(ok) => WriterWritesOne(s, ok);
    case _ =>
  }

  // Over every run: the channel was given the accepted frames and nothing else,
  // and the socket those that the writer wrote, each as it was accepted.
  lemma {:induction false} OutboundIsExact(events: seq<Event>)
    requires Run(events).Some?
    ensures Run(events).value.end.sent == AllQueued(events) && Run(events).value.forwarded == AllWritten(events)
  {
    if events != [] {
      var init := events[..|events| - 1];
      OutboundIsExact(init);
      RunKeepsInvariant(init);
      StepQueues(Run(init).value, events[|events| - 1]);
    }
  }

  // Over every run: the socket carries a prefix of what was queued, and what
  // was queued is data followed by at most one Close.
  lemma OutboundSafety(events: seq<Event>)
    requires Run(events).Some?
    ensures
      var s := Run(events).value;
      s.forwarded <= s.end.sent && CloseLast(s.end.sent) && CloseLast(s.forwarded) &&
      (EndsWithClose(s.end.sent) ==> s.end.closed)
  {
    RunKeepsInvariant(events);
  }

  lemma RunSnoc(events: seq<Event>, more: seq<Event>)
    requires more != [] && Run(events + more).Some?
    ensures
      var n := |more| - 1;
      var r := Run(events + more[..n]);
      r.Some? && Enabled(r.value, more[n]) && Run(events + more) == Some(Step(r.value, more[n]))
  {
    var n := |more| - 1;
    assert (events + more)[..|events + more| - 1] == events + more[..n];
  }

  // Once closed, always closed, and nothing more is ever queued.
  lemma {:induction false} NothingQueuedOnceClosed(events: seq<Event>, more: seq<Event>)
    requires Run(events).Some? && Run(events + more).Some?
    requires Run(events).value.end.closed
    ensures
      var s, t := Run(events).value, Run(events + more).value;
      t.end.closed && t.end.sent == s.end.sent
  {
    if more == [] {
      assert events + more == events;
    } else {
      RunSnoc(events, more);
      NothingQueuedOnceClosed(events, more[..|more| - 1]);
    }
  }

  predicate EndedUnclosed(s: State) {
    s.handlerEnded && !s.closedByHandler && Disconnect !in s.end.delivered
  }

  // Close(1000) is the one and last Close queued, iff the writer was there to
  // take it.
  predicate CloseQueued(s: State) {
    (s.endedInTime <==> EndsWithClose(s.end.sent)) &&
    (s.endedInTime ==> CloseLast(s.end.sent) && s.end.sent[|s.end.sent| - 1] == OutClose(1000, "")) &&
    (!s.endedInTime ==> s.writer == WriterDone(true))
  }

  // A handler that ends having neither closed nor seen a disconnect leaves one
  // Close(1000), unless a failed write had already stopped the writer.
  lemma EndQueuesClose(events: seq<Event>)
    requires Run(events).Some? && EndedUnclosed(Run(events).value)
    ensures CloseQueued(Run(events).value)
  {
    RunKeepsInvariant(events);
    OutboundMeansClose(Run(events).value);
  }

  lemma OutboundMeansClose(s: State)
    requires Outbound(s) && EndedUnclosed(s)
    ensures CloseQueued(s)
  {
  }

  predicate InLoop(w: Writer) {
    w.Idle? || w.Writing?
  }

  // Closed, with no Close queued and the writer's loop still waiting for one.
  predicate WriterWaits(s: State) {
    s.end.closed && !EndsWithClose(s.end.sent) && InLoop(s.writer)
  }

  // A disconnect closes the bridge without queueing anything: wherever neither
  // the handler nor its end did it, the writer waits.
  lemma DisconnectLeavesWriter(events: seq<Event>)
    requires Run(events).Some?
    requires
      var s := Run(events).value;
      s.end.closed && !s.closedByHandler && !s.handlerEnded && InLoop(s.writer)
    ensures WriterWaits(Run(events).value) && Disconnect in Run(events).value.end.delivered
  {
    RunKeepsInvariant(events);
  }

  // There are such runs: the peer closes and the handler is told.
  lemma DisconnectHappens()
    ensures
      var r := Run([ReaderTakes(InClose), LoopRuns, HandlerReceives]);
      r.Some? && r.value.end.closed && !r.value.closedByHandler && !r.value.handlerEnded && InLoop(r.value.writer)
  {
    var a, b := [ReaderTakes(InClose)], [ReaderTakes(InClose), LoopRuns];
    var c := [ReaderTakes(InClose), LoopRuns, HandlerReceives];
    assert a[..0] == [] && b[..1] == a && c[..2] == b;
    assert Run(a) == Some(Step(INITIAL, ReaderTakes(InClose)));
    assert Run(b) == Some(Step(Run(a).value, LoopRuns));
  }

  // Nor is a disconnect needed: a close code that is no u16 sets the flag, and
  // raises before anything is queued.
  lemma BadCodeLeavesWriter(code: int, reason: string)
    requires !(0 <= code < 0x10000)
    ensures
      var r := Run([HandlerCloses(code, reason)]);
      r.Some? && WriterWaits(r.value) && r.value.closedByHandler && r.value.end.delivered == []
  {
    assert [HandlerCloses(code, reason)][..0] == [];
  }

  lemma WriterWaitsOn(s: State, e: Event)
    requires Invariant(s) && Enabled(s, e) && WriterWaits(s) && e != WriterWrites(false)
    ensures WriterWaits(Step(s, e))
  {
    if s.writer.Writing? {
      assert s.end.sent[|s.taken| - 1] == s.taken[|s.taken| - 1] == s.writer.f;
    }
  }

  // No continuation without a failed write ends a waiting writer.
  lemma {:induction false} WriterOutlivesDisconnect(events: seq<Event>, more: seq<Event>)
    requires Run(events).Some? && WriterWaits(Run(events).value)
    requires Run(events + more).Some? && WriterWrites(false) !in more
    ensures WriterWaits(Run(events + more).value)
  {
    if more == [] {
      assert events + more == events;
    } else {
      var n := |more| - 1;
      RunSnoc(events, more);
      WriterOutlivesDisconnect(events, more[..n]);
      RunKeepsInvariant(events + more[..n]);
      WriterWaitsOn(Run(events + more[..n]).value, more[n]);
    }
  }

  lemma OneMore(events: seq<Event>, e: Event)
    requires Run(events).Some? && Enabled(Run(events).value, e)
    ensures Run(events + [e]) == Some(Step(Run(events).value, e))
  {
    assert (events + [e])[..|events|] == events;
  }

  // What the writer does next, and how much it has left to do.
  function NextWrite(s: State): Event {
    if s.writer.Idle? then WriterTakes else WriterWrites(true)
  }

  function WritesLeft(s: State): int {
    2 * (|s.end.sent| - |s.taken|) + if s.writer.Writing? then 1 else 0
  }

  // The channel ends with a Close that the writer has not written.
  predicate CloseAhead(s: State) {
    EndsWithClose(s.end.sent) && InLoop(s.writer)
  }

  lemma NextWriteAdvances(s: State)
    requires WriterOk(s) && CloseLast(s.end.sent) && CloseAhead(s)
    ensures Enabled(s, NextWrite(s))
    ensures
      var t := Step(s, NextWrite(s));
      t.writer == Exiting(false) || (CloseAhead(t) && 0 <= WritesLeft(t) < WritesLeft(s))
  {
    if s.writer.Idle? {
      assert s.taken == s.end.sent[..|s.taken|];
      assert s.taken != s.end.sent;
    }
  }

  // It can write all of the channel and finish.
  lemma {:induction false} FinishWriting(events: seq<Event>) returns (more: seq<Event>)
    requires Run(events).Some? && CloseAhead(Run(events).value)
    ensures WriterWrites(false) !in more && Run(events + more).Some?
    ensures Run(events + more).value.writer == WriterDone(false)
    decreases WritesLeft(Run(events).value)
  {
    var s := Run(events).value;
    RunKeepsInvariant(events);
    NextWriteAdvances(s);
    var e := NextWrite(s);
    OneMore(events, e);
    var rest;
    if Step(s, e).writer == Exiting(false) {
      OneMore(events + [e], WriterExits);
      rest := [WriterExits];
    } else {
      rest := FinishWriting(events + [e]);
    }
    more := [e] + rest;
    Sequences.Assoc(events, [e], rest);
  }

  // Once the bridge is closed, the writer can end without a failed write iff
  // a Close was queued.
  lemma WriterEndsIff(events: seq<Event>)
    requires Run(events).Some? && Run(events).value.end.closed && InLoop(Run(events).value.writer)
    ensures EndsWithClose(Run(events).value.end.sent) <==>
      exists more :: WriterWrites(false) !in more && Run(events + more).Some? &&
                     !InLoop(Run(events + more).value.writer)
  {
    if EndsWithClose(Run(events).value.end.sent) {
      var more := FinishWriting(events);
    } else {
      forall more | WriterWrites(false) !in more && Run(events + more).Some?
        ensures InLoop(Run(events + more).value.writer)
      {
        WriterOutlivesDisconnect(events, more);
      }
    }
  }
}
