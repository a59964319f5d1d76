/** A streamed response: the head wait of `dispatch`, `WebIngressResponseStream::receive` and
    `StreamingBody::poll_frame`, driven by an arbitrary sequence of provider events. A provider
    that produces no further event leaves the call pending. */
module ResponseStreams {
  import opened JsonValues
  import opened Texts

  datatype Kind = Head | Chunk

  datatype Frame = Frame(kind: Kind, status: Option<int>, headers: Option<seq<(string, string)>>, body: Option<Octets>)

  datatype Event = Message(frame: Frame) | HalfClosed | TerminalOk | TerminalErr | Failure

  /** A head with status and headers and without a body. */
  predicate GoodHead(e: Event) {
    e.Message? && e.frame.kind.Head? && e.frame.status.Some? && e.frame.headers.Some? && e.frame.body.None?
  }

  /** A chunk without status and headers; it may have no body. */
  predicate GoodChunk(e: Event) {
    e.Message? && e.frame.kind.Chunk? && e.frame.status.None? && e.frame.headers.None?
  }

  function BodyOf(e: Event): Octets
    requires e.Message?
  {
    if e.frame.body.Some? then e.frame.body.value else []
  }

  ghost predicate HeadWith(e: Event, status: int, headers: seq<(string, string)>) {
    e == Message(Frame(Head, Some(status), Some(headers), None))
  }

  ghost predicate IsHead(e: Event) { exists status, headers :: HeadWith(e, status, headers) }

  ghost predicate IsChunk(e: Event, body: Option<Octets>) { e == Message(Frame(Chunk, None, None, body)) }

  lemma HeadIff(e: Event)
    ensures GoodHead(e) <==> IsHead(e)
  {
    if GoodHead(e) {
      assert HeadWith(e, e.frame.status.value, e.frame.headers.value);
    }
  }

  ghost predicate AnyChunk(e: Event) { exists body :: IsChunk(e, body) }

  lemma ChunkIff(e: Event)
    ensures GoodChunk(e) <==> AnyChunk(e)
    ensures forall body :: IsChunk(e, body) ==> BodyOf(e) == if body.Some? then body.value else []
  {
    if GoodChunk(e) {
      assert IsChunk(e, e.frame.body);
    }
  }

  // ---------------------------------------------------------------- what a sequence means

  /** Half-close notices carry no meaning in a response. */
  function Meaningful(events: seq<Event>): seq<Event> {
    if events == [] then []
    else if events[0].HalfClosed? then Meaningful(events[1..])
    else [events[0]] + Meaningful(events[1..])
  }

  /** The longest run of good chunks at the front. */
  function Chunks(es: seq<Event>): seq<Octets> {
    if es == [] || !GoodChunk(es[0]) then [] else [BodyOf(es[0])] + Chunks(es[1..])
  }

  datatype Ending = Open | Clean | Broken

  function EndingOf(es: seq<Event>): Ending {
    if es == [] then Open
    else if GoodChunk(es[0]) then EndingOf(es[1..])
    else if es[0].TerminalOk? then Clean
    else Broken
  }

  datatype Reply = NoHead | Refused | Unavailable | Streaming(head: Frame, chunks: seq<Octets>, ending: Ending)

  /** The reply that a sequence without half-closes stands for. */
  function ReplyTo(es: seq<Event>): Reply {
    if es == [] then NoHead
    else if GoodHead(es[0]) then Streaming(es[0].frame, Chunks(es[1..]), EndingOf(es[1..]))
    else if es[0].Failure? then Unavailable
    else Refused
  }

  /** Head, chunks, successful terminal: the promised shape of a complete response. */
  ghost predicate Complete(es: seq<Event>, n: nat) {
    && n + 2 <= |es| && IsHead(es[0])
    && (forall i :: 1 <= i <= n ==> AnyChunk(es[i]))
    && es[n + 1] == TerminalOk
  }

  lemma {:induction false} ChunksAreThePrefix(es: seq<Event>)
    ensures var n := |Chunks(es)|;
            && n <= |es|
            && (forall i :: 0 <= i < n ==> GoodChunk(es[i]) && Chunks(es)[i] == BodyOf(es[i]))
            && (n < |es| ==> !GoodChunk(es[n]))
            && EndingOf(es) == (if n == |es| then Open else if es[n].TerminalOk? then Clean else Broken)
  {
    if es != [] && GoodChunk(es[0]) {
      ChunksAreThePrefix(es[1..]);
      assert forall i :: 1 <= i < |es| ==> es[i] == es[1..][i - 1];
    }
  }

  /** The client gets exactly the bodies of the chunks before the first event that is not a good
      chunk, in order, and a clean end exactly when the events are a head, chunks and a successful
      terminal. */
  lemma ReplyIsExact(es: seq<Event>)
    ensures ReplyTo(es).Streaming? <==> es != [] && IsHead(es[0])
    ensures ReplyTo(es).Streaming? ==>
              var r := ReplyTo(es);
              && |r.chunks| < |es|
              && es[0] == Message(r.head)
              && (forall i :: 0 <= i < |r.chunks| ==> IsChunk(es[i + 1], Some(r.chunks[i])) || (IsChunk(es[i + 1], None) && r.chunks[i] == []))
              && (|r.chunks| + 1 < |es| ==> !AnyChunk(es[|r.chunks| + 1]))
              && (r.ending.Open? <==> |r.chunks| + 1 == |es|)
    ensures (ReplyTo(es).Streaming? && ReplyTo(es).ending.Clean?) <==> exists n :: Complete(es, n)
    ensures forall n :: Complete(es, n) ==> |ReplyTo(es).chunks| == n
  {
    if es != [] {
      forall i | 0 <= i < |es| ensures GoodHead(es[i]) <==> IsHead(es[i]) { HeadIff(es[i]); }
      forall i | 0 <= i < |es| ensures GoodChunk(es[i]) <==> AnyChunk(es[i]) { ChunkIff(es[i]); }
      ChunksAreThePrefix(es[1..]);
      var n := |Chunks(es[1..])|;
      assert forall i :: 1 <= i < |es| ==> es[i] == es[1..][i - 1];
      forall i | 0 <= i < n ensures IsChunk(es[i + 1], Some(Chunks(es[1..])[i])) || (IsChunk(es[i + 1], None) && Chunks(es[1..])[i] == []) {
        ChunkIff(es[i + 1]);
        var body :| IsChunk(es[i + 1], body);
      }
      if GoodHead(es[0]) && EndingOf(es[1..]).Clean? {
        assert Complete(es, n);
      }
      forall k | Complete(es, k) ensures k == n && EndingOf(es[1..]).Clean? {
        assert !GoodChunk(es[k + 1]);
      }
    }
  }

  lemma MeaningfulStep(events: seq<Event>, next: nat)
    requires next < |events|
    ensures Meaningful(events[next..]) ==
              if events[next].HalfClosed? then Meaningful(events[next + 1..]) else [events[next]] + Meaningful(events[next + 1..])
  {
    assert events[next..][1..] == events[next + 1..];
  }

  // ---------------------------------------------------------------- the objects

  /** The provider side of a capability stream: its events and how many were taken. */
  class NativeStream {
    const events: seq<Event>
    var next: nat
    var cancelled: bool

    constructor (events: seq<Event>)
      ensures this.events == events && next == 0 && !cancelled
    {
      this.events, next, cancelled := events, 0, false;
    }

    function Rest(): seq<Event>
      requires next <= |events|
      reads this
    {
      events[next..]
    }
  }

  datatype Received = Nothing | Data(bytes: Octets) | End | Error

  class WebIngressResponseStream {
    const stream: NativeStream
    var permit: bool
    var done: bool
    var cancelled: bool
    var receiving: bool

    ghost predicate Valid()
      reads this, stream
    {
      stream.next <= |stream.events| && (cancelled ==> done) && (done ==> !permit)
    }

    constructor (stream: NativeStream, permit: bool)
      requires stream.next <= |stream.events|
      ensures this.stream == stream && Valid() && !done && !cancelled && !receiving && this.permit == permit
    {
      this.stream, this.permit, done, cancelled, receiving := stream, permit, false, false, false;
    }

    method Cancel()
      requires Valid()
      modifies this`permit, this`cancelled, this`done, stream`cancelled
      ensures Valid() && cancelled && done && !permit && stream.cancelled
    {
      permit, cancelled, done := false, true, true;
      stream.cancelled := true;
    }

    /** Receives one chunk; `Nothing` while the provider has no further event. A second read
        while one is pending is refused and changes nothing. */
    method Receive() returns (r: Received)
      requires Valid()
      modifies this, stream
      ensures Valid() && stream.next >= old(stream.next)
      ensures old(done) || old(receiving) ==>
                && unchanged(this) && unchanged(stream)
                && r == if old(cancelled) then Error else if old(done) then End else Error
      ensures !old(done) && !old(receiving) ==> (receiving <==> r.Nothing?)
      ensures !old(done) && !old(receiving) ==>
                var es := Meaningful(old(stream.Rest()));
                if es == [] then r.Nothing? && !done && permit == old(permit) && stream.next == |stream.events|
                else
                  && Meaningful(stream.Rest()) == es[1..]
                  && r == (if GoodChunk(es[0]) then Data(BodyOf(es[0])) else if es[0].TerminalOk? then End else Error)
                  && done == !GoodChunk(es[0]) && cancelled == r.Error?
                  && permit == (old(permit) && GoodChunk(es[0]))
    {
      if cancelled {
        return Error;
      }
      if done {
        return End;
      }
      if receiving {
        return Error;
      }
      receiving := true;
      while stream.next < |stream.events|
        invariant stream.next <= |stream.events| && stream.next >= old(stream.next)
        invariant Meaningful(stream.Rest()) == Meaningful(old(stream.Rest()))
        invariant !done && !cancelled && permit == old(permit) && receiving
      {
        var event := stream.events[stream.next];
        MeaningfulStep(stream.events, stream.next);
        stream.next := stream.next + 1;
        if GoodChunk(event) {
          receiving := false;
          return Data(BodyOf(event));
        } else if event.TerminalOk? {
          done, permit, receiving := true, false, false;
          return End;
        } else if !event.HalfClosed? {
          Cancel();
          receiving := false;
          return Error;
        }
      }
      r := Nothing;
    }
  }

  /** Waits for the head of a streamed response. */
  method AwaitHead(stream: NativeStream) returns (r: Reply)
    requires stream.next <= |stream.events|
    modifies stream
    ensures stream.next <= |stream.events|
    ensures var es := Meaningful(old(stream.Rest()));
            match ReplyTo(es)
            case Streaming(head, _, _) => r == Streaming(head, [], Open) && Meaningful(stream.Rest()) == es[1..]
            case other => r == other
  {
    while stream.next < |stream.events|
      invariant stream.next <= |stream.events|
      invariant Meaningful(stream.Rest()) == Meaningful(old(stream.Rest()))
    {
      var event := stream.events[stream.next];
      MeaningfulStep(stream.events, stream.next);
      stream.next := stream.next + 1;
      match event
      case Failure => return Unavailable;
      case HalfClosed =>
      case Message(frame) =>
        if !frame.kind.Head? || frame.status.None? || frame.headers.None? || frame.body.Some? {
          stream.cancelled := true;
          return Refused;
        }
        return Streaming(frame, [], Open);
      case _ =>
        stream.cancelled := true;
        return Refused;
    }
    r := NoHead;
  }

  /** Polls the body until it ends or the provider pauses. */
  method PollBody(stream: NativeStream, permit: bool) returns (chunks: seq<Octets>, ending: Ending)
    requires stream.next <= |stream.events|
    modifies stream
    ensures chunks == Chunks(Meaningful(old(stream.Rest())))
    ensures ending == EndingOf(Meaningful(old(stream.Rest())))
  {
    var body := new WebIngressResponseStream(stream, permit);
    ghost var es := Meaningful(stream.Rest());
    chunks, ending := [], Open;
    var done := false;
    while !done
      invariant body.Valid() && fresh(body) && body.stream == stream && !body.receiving
      invariant !done ==> !body.done && ending == Open
      invariant !done ==> chunks + Chunks(Meaningful(stream.Rest())) == Chunks(es)
                          && EndingOf(Meaningful(stream.Rest())) == EndingOf(es)
      invariant done ==> chunks == Chunks(es) && ending == EndingOf(es)
      decreases !done, |Meaningful(stream.Rest())|
    {
      ghost var rest := Meaningful(stream.Rest());
      var received := body.Receive();
      match received
      case Nothing =>
        return;
      case Data(bytes) =>
        chunks := chunks + [bytes];
      case End =>
        ending, done := Clean, true;
      case Error =>
        ending, done := Broken, true;
    }
  }

  /** For every sequence of provider events the client sees what the sequence without its
      half-closes stands for. */
  method Serve(events: seq<Event>) returns (r: Reply)
    ensures r == ReplyTo(Meaningful(events))
  {
    var stream := new NativeStream(events);
    assert stream.Rest() == events;
    r := AwaitHead(stream);
    if r.Streaming? {
      var chunks, ending := PollBody(stream, true);
      r := Streaming(r.head, chunks, ending);
    }
  }
}
