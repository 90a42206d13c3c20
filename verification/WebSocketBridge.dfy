// The WebSocket bridge: drive_websocket of crates/fr-pyiface/src/ws.rs and
// NativeWebSocket of python/hyperfastapi/_ws.py.
module WebSocketBridge {
  import opened Wrappers

  // A message the reader task takes from the socket.
  datatype Incoming = InText(s: string) | InBinary(s: string) | InClose | InControl

  // A frame on its way to the handler.
  datatype Frame = TextFrame(s: string) | BytesFrame(s: string) | Disconnect

  datatype OutFrame = OutText(s: string) | OutBinary(s: string) | OutClose(code: int, reason: string)

  datatype Error =
    | Disconnected  // WebSocketDisconnect
    | WrongKind     // RuntimeError: text where bytes were expected, or the reverse
    | ChannelClosed // RuntimeError: the writer task has gone
    | BadCode       // OverflowError: the close code is no u16

  // ---- the handler's end --------------------------------------------------

  // `sent` is every frame ever queued, `taken` those the writer took.
  datatype Endpoint = Endpoint(
    closed: bool,
    queue: seq<Frame>,
    delivered: seq<Frame>,
    sent: seq<OutFrame>,
    writerAlive: bool)

  function Send(e: Endpoint, f: OutFrame): (Endpoint, Result<(), Error>) {
    if e.closed then (e, Err(Disconnected))
    else if !e.writerAlive then (e, Err(ChannelClosed))
    else (e.(sent := e.sent + [f]), Ok(()))
  }

  function Next(e: Endpoint): (Endpoint, Result<Frame, Error>)
    requires e.queue != []
  {
    var f := e.queue[0];
    var e1 := e.(queue := e.queue[1..], delivered := e.delivered + [f]);
    if f.Disconnect? then (e1.(closed := true), Err(Disconnected)) else (e1, Ok(f))
  }

  // The flag is set before the frame is queued, and stays set if that fails.
  function Close(e: Endpoint, code: int, reason: string): (Endpoint, Result<(), Error>) {
    if e.closed then (e, Ok(()))
    else if !(0 <= code < 0x10000) then (e.(closed := true), Err(BadCode))
    else if !e.writerAlive then (e.(closed := true), Ok(()))
    else (e.(closed := true, sent := e.sent + [OutClose(code, reason)]), Ok(()))
  }

  // A frame is queued, last, exactly when the send succeeds: on an open bridge
  // whose writer is there.
  lemma SendQueues(e: Endpoint, f: OutFrame)
    ensures
      var (t, r) := Send(e, f);
      t == e.(sent := t.sent) &&
      (r == Ok(()) <==> !e.closed && e.writerAlive) &&
      (e.closed ==> r == Err(Disconnected)) && (!e.closed && !e.writerAlive ==> r == Err(ChannelClosed)) &&
      t.sent == if r.Ok? then e.sent + [f] else e.sent
  {
  }

  // After a close the bridge is closed.  It queues a Close with its code and
  // reason exactly when it is the first, the code fits and the writer is there,
  // and fails exactly when it is the first and the code does not fit.
  lemma CloseQueues(e: Endpoint, code: int, reason: string)
    ensures
      var (t, r) := Close(e, code, reason);
      t == e.(sent := t.sent, closed := true) &&
      (r == if !e.closed && (code < 0 || code > 65535) then Err(BadCode) else Ok(())) &&
      t.sent == e.sent + if !e.closed && r.Ok? && e.writerAlive then [OutClose(code, reason)] else []
  {
  }

  // The oldest frame is delivered; a disconnect closes and raises.
  lemma NextDelivers(e: Endpoint)
    requires e.queue != []
    ensures
      var (t, r) := Next(e);
      [e.queue[0]] + t.queue == e.queue && t.delivered == e.delivered + [e.queue[0]] && t.sent == e.sent &&
      t.writerAlive == e.writerAlive && t.closed == (e.closed || e.queue[0] == Disconnect) &&
      r == if e.queue[0] == Disconnect then Err(Disconnected) else Ok(e.queue[0])
  {
  }

  // The sending half of the unbounded channel to the writer task.
  class WsSendHandle {
    var items: seq<OutFrame>
    var receiverAlive: bool
    ghost var sent: seq<OutFrame>

    constructor ()
      ensures items == sent == [] && receiverAlive
    {
      items, sent, receiverAlive := [], [], true;
    }

    method Queue(f: OutFrame) returns (r: Result<(), Error>)
      modifies this
      ensures receiverAlive == old(receiverAlive)
      ensures if receiverAlive then r == Ok(()) && items == old(items) + [f] && sent == old(sent) + [f]
              else r == Err(ChannelClosed) && items == old(items) && sent == old(sent)
    {
      if !receiverAlive {
        return Err(ChannelClosed);
      }
      items := items + [f];
      sent := sent + [f];
      return Ok(());
    }
  }

  class NativeWebSocket {
    const send: WsSendHandle
    var queue: seq<Frame>
    var closed: bool
    ghost var delivered: seq<Frame>

    constructor (send: WsSendHandle)
      ensures this.send == send && queue == delivered == [] && !closed
    {
      this.send := send;
      queue, delivered, closed := [], [], false;
    }

    ghost function View(): Endpoint
      reads this, send
    {
      Endpoint(closed, queue, delivered, send.sent, send.receiverAlive)
    }

    method SendText(data: string) returns (r: Result<(), Error>)
      modifies send
      ensures (View(), r) == Send(old(View()), OutText(data))
    {
      if closed {
        return Err(Disconnected);
      }
      r := send.Queue(OutText(data));
    }

    method SendBytes(data: string) returns (r: Result<(), Error>)
      modifies send
      ensures (View(), r) == Send(old(View()), OutBinary(data))
    {
      if closed {
        return Err(Disconnected);
      }
      r := send.Queue(OutBinary(data));
    }

    // `_next` waits for a frame; it resumes once the queue holds one.
    method TakeNext() returns (r: Result<Frame, Error>)
      requires queue != []
      modifies this
      ensures (View(), r) == Next(old(View()))
    {
      var msg := queue[0];
      queue, delivered := queue[1..], delivered + [msg];
      if msg.Disconnect? {
        closed := true;
        return Err(Disconnected);
      }
      return Ok(msg);
    }

    // A frame of the other kind is consumed all the same.
    method ReceiveText() returns (r: Result<string, Error>)
      requires queue != []
      modifies this
      ensures View() == Next(old(View())).0
      ensures r == (match Next(old(View())).1
                    case Err(e) => Err(e)
                    case Ok(f) => if f.TextFrame? then Ok(f.s) else Err(WrongKind))
    {
      var msg := TakeNext();
      match msg
      case Err(e) => return Err(e);
      case Ok(f) =>
        if !f.TextFrame? {
          return Err(WrongKind);
        }
        return Ok(f.s);
    }

    method ReceiveBytes() returns (r: Result<string, Error>)
      requires queue != []
      modifies this
      ensures View() == Next(old(View())).0
      ensures r == (match Next(old(View())).1
                    case Err(e) => Err(e)
                    case Ok(f) => if f.BytesFrame? then Ok(f.s) else Err(WrongKind))
    {
      var msg := TakeNext();
      match msg
      case Err(e) => return Err(e);
      case Ok(f) =>
        if !f.BytesFrame? {
          return Err(WrongKind);
        }
        return Ok(f.s);
    }

    method CloseWith(code: int, reason: string) returns (r: Result<(), Error>)
      modifies this, send
      ensures (View(), r) == Close(old(View()), code, reason)
    {
      if closed {
        return Ok(());
      }
      closed := true;
      if !(0 <= code < 0x10000) {
        return Err(BadCode);
      }
      r := send.Queue(OutClose(code, reason));
      return Ok(());
    }
  }

  // ---- the two tasks, each on its own -------------------------------------

  // What the reader pushes for a message, if anything.
  function FrameFor(m: Incoming): seq<Frame> {
    match m
    case InText(s) => [TextFrame(s)]
    case InBinary(s) => [BytesFrame(s)]
    case InClose => [Disconnect]
    case InControl => []
  }

  function DataOf(ms: seq<Incoming>): seq<Frame> {
    if ms == [] then []
    else
      var m := ms[|ms| - 1];
      DataOf(ms[..|ms| - 1]) + if m.InClose? then [] else FrameFor(m)
  }

  // The messages before the first Close.
  function BeforeClose(ms: seq<Incoming>): (r: seq<Incoming>)
    ensures r <= ms && InClose !in r
    ensures r == ms || ms[|r|] == InClose
  {
    if ms == [] || ms[0] == InClose then [] else [ms[0]] + BeforeClose(ms[1..])
  }

  // Everything the reader pushes for `ms`, and once its loop is over.
  function PushedBy(ms: seq<Incoming>, done: bool): seq<Frame> {
    DataOf(BeforeClose(ms)) +
    (if InClose in ms then [Disconnect] else []) +
    (if done then [Disconnect] else [])
  }

  // The text and binary messages, in order.
  function Messages(ms: seq<Incoming>): seq<Incoming> {
    if ms == [] then []
    else
      var m := ms[|ms| - 1];
      Messages(ms[..|ms| - 1]) + if m.InText? || m.InBinary? then [m] else []
  }

  // A text frame for a text message, bytes for a binary one, with its content.
  predicate Carries(f: Frame, m: Incoming) {
    match m
    case InText(s) => f == TextFrame(s)
    case InBinary(s) => f == BytesFrame(s)
    case _ => false
  }

  // One frame for each message before the first Close, and then disconnects.
  predicate InLine(line: seq<Frame>, ms: seq<Incoming>, disconnects: nat) {
    var messages := Messages(BeforeClose(ms));
    |line| == |messages| + disconnects &&
    forall i :: 0 <= i < |line| ==> if i < |messages| then Carries(line[i], messages[i]) else line[i] == Disconnect
  }

  lemma {:induction false} DataCarries(ms: seq<Incoming>)
    requires InClose !in ms
    ensures |DataOf(ms)| == |Messages(ms)|
    ensures forall i :: 0 <= i < |DataOf(ms)| ==> Carries(DataOf(ms)[i], Messages(ms)[i])
  {
    if ms != [] {
      assert ms[|ms| - 1] in ms;
      DataCarries(ms[..|ms| - 1]);
    }
  }

  function Disconnects(ms: seq<Incoming>, done: bool): nat {
    (if InClose in ms then 1 else 0) + if done then 1 else 0
  }

  lemma PushedInLine(ms: seq<Incoming>, done: bool)
    ensures InLine(PushedBy(ms, done), ms, Disconnects(ms, done))
  {
    DataCarries(BeforeClose(ms));
  }

  // The reader loop on a stream that delivers `source` and then ends or fails.
  method ReadLoop(source: seq<Incoming>) returns (pushed: seq<Frame>)
    ensures pushed == PushedBy(source, true)
    ensures InLine(pushed, source, if InClose in source then 2 else 1)
  {
    PushedInLine(source, true);
    pushed := [];
    ghost var before := BeforeClose(source);
    assert InClose in source <==> before != source by {
      assert before == source[..|before|];
    }
    var i := 0;
    while i < |source|
      invariant i <= |before|
      invariant pushed == DataOf(before[..i])
    {
      var msg := source[i];
      if msg.InClose? {
        pushed := pushed + [Disconnect];
        break;
      }
      assert i < |before| && before[i] == msg;
      assert before[..i + 1][..i] == before[..i];
      var put := FrameFor(msg);
      if put != [] {
        pushed := pushed + put;
      }
      i := i + 1;
    }
    assert i == |before| && before[..i] == before;
    pushed := pushed + [Disconnect];
  }

  // The writer loop on a channel that holds `frames` and is then closed; ok
  // says which writes to the socket succeed.
  method WriteLoop(frames: seq<OutFrame>, ok: seq<bool>) returns (forwarded: seq<OutFrame>)
    requires |ok| == |frames|
    ensures forwarded <= frames
    ensures forall i :: 0 <= i < |forwarded| ==> ok[i]
    ensures forall i :: 0 <= i < |forwarded| - 1 ==> !frames[i].OutClose?
    ensures var n := |forwarded|;
      n == |frames| || !ok[n] || (n > 0 && frames[n - 1].OutClose?)
  {
    forwarded := [];
    var i := 0;
    while i < |frames|
      invariant i <= |frames| && forwarded == frames[..i]
      invariant forall k :: 0 <= k < i ==> ok[k] && !frames[k].OutClose?
    {
      if ok[i] {
        forwarded := forwarded + [frames[i]];
      }
      if frames[i].OutClose? {
        break;
      }
      if !ok[i] {
        break;
      }
      i := i + 1;
    }
  }
}
