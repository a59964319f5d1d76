/** Request permits in event mode. A permit is taken before dispatch, sits in the call's
    `body_permit` cell while the request is dispatched, and moves into the response stream or the
    WebSocket session when the response has one; otherwise it is returned when the call returns. */
module EventPermits {
  import ResponseStreams
  import WebSocketSessions

  // ---------------------------------------------------------------- which body a response ends up with

  datatype Body = Buffered | Streaming | WebSocket

  /** `with_session`: a middleware that overrides the status of an upgrade cancels the session. */
  function WithSession(status: nat, body: Body): Body {
    if body.WebSocket? && status != 101 then Buffered else body
  }

  /** `normalize_body`: bodiless responses lose their body, and its session is cancelled. */
  function NormalizeBody(isHead: bool, status: nat, body: Body): Body {
    if isHead || (100 <= status < 200 && !body.WebSocket?) || status == 204 || status == 304 then Buffered else body
  }

  function FinalBody(isHead: bool, status: nat, body: Body): Body {
    NormalizeBody(isHead, status, WithSession(status, body))
  }

  // ---------------------------------------------------------------- one request

  /** The cells of a response stream that matter here. */
  datatype StreamCells = StreamCells(permit: bool, done: bool, cancelled: bool)

  function CancelStream(c: StreamCells): StreamCells { StreamCells(false, true, true) }

  /** The stream answers a pending receive. */
  function StreamEvent(c: StreamCells, event: ResponseStreams.Event): StreamCells {
    if event.HalfClosed? || ResponseStreams.GoodChunk(event) then c
    else if event.TerminalOk? then c.(permit := false, done := true)
    else CancelStream(c)
  }

  datatype Phase =
    | Waiting
    | Dispatching
    | StreamBody(cells: StreamCells)
    | Socket(session: WebSocketSessions.Session)
    | Returned

  predicate Holds(phase: Phase) {
    match phase
    case Dispatching => true
    case StreamBody(cells) => cells.permit
    case Socket(session) => session.permit
    case _ => false
  }

  /** Still in use: being dispatched, or a stream or socket that has neither ended nor been cancelled. */
  predicate Live(phase: Phase) {
    match phase
    case Dispatching => true
    case StreamBody(cells) => !cells.done
    case Socket(session) => !session.cancelled && !session.terminal
    case _ => false
  }

  function Respond(isHead: bool, status: nat, body: Body): Phase {
    match FinalBody(isHead, status, body)
    case Buffered => Returned
    case Streaming => StreamBody(StreamCells(true, false, false))
    case WebSocket => Socket(WebSocketSessions.Init(true))
  }

  // ---------------------------------------------------------------- the machine

  /** `free` permits of the semaphore, one phase per request, and per request how often a permit
      was taken and given back. */
  datatype State = State(free: nat, requests: map<nat, Phase>, acquired: multiset<nat>, released: multiset<nat>)

  function Init(maxRequests: nat): State { State(maxRequests, map[], multiset{}, multiset{}) }

  datatype Step =
    | Start(id: nat)
    | Refuse(id: nat)                                       // not accepting, cancelled, or head too large
    | Acquire(id: nat)
    | Finish(id: nat, isHead: bool, status: nat, body: Body) // dispatch produced a response
    | OnStream(id: nat, event: ResponseStreams.Event)
    | CancelBody(id: nat)
    | OnSocket(id: nat, step: WebSocketSessions.Step)
    | Drop(id: nat)                                          // the call, the stream or the session is dropped

  predicate Enabled(s: State, step: Step) {
    if step.Start? then step.id !in s.requests else
    step.id in s.requests &&
    var phase := s.requests[step.id];
    match step
    case Start(_) => false
    case Refuse(_) => phase.Waiting?
    case Acquire(_) => phase.Waiting? && s.free > 0
    case Finish(_, _, _, _) => phase.Dispatching?
    case OnStream(_, _) => phase.StreamBody?
    case CancelBody(_) => phase.StreamBody? || phase.Socket?
    case OnSocket(_, step) => phase.Socket? && WebSocketSessions.Enabled(phase.session, step)
    case Drop(_) => true
  }

  function NextPhase(l: WebSocketSessions.Limits, phase: Phase, step: Step): Phase
    requires step.OnSocket? ==> phase.Socket? && WebSocketSessions.Enabled(phase.session, step.step)
    requires step.OnStream? ==> phase.StreamBody?
  {
    match step
    case Start(_) => Waiting
    case Refuse(_) => Returned
    case Acquire(_) => Dispatching
    case Finish(_, isHead, status, body) => Respond(isHead, status, body)
    case OnStream(_, event) => StreamBody(StreamEvent(phase.cells, event))
    case CancelBody(_) =>
      if phase.StreamBody? then StreamBody(CancelStream(phase.cells))
      else if phase.Socket? then Socket(WebSocketSessions.Cancel(phase.session))
      else phase
    case OnSocket(_, step) => Socket(WebSocketSessions.Apply(l, phase.session, step))
    case Drop(_) => Returned
  }

  function PhaseOf(s: State, id: nat): Phase { if id in s.requests then s.requests[id] else Returned }

  /** A cell that loses its permit gives it back to the semaphore. */
  function Move(s: State, id: nat, after: Phase, acquiring: bool): State
    requires acquiring ==> s.free > 0
  {
    var requests := s.requests[id := after];
    if acquiring then State(s.free - 1, requests, s.acquired + multiset{id}, s.released)
    else if Holds(PhaseOf(s, id)) && !Holds(after) then State(s.free + 1, requests, s.acquired, s.released + multiset{id})
    else s.(requests := requests)
  }

  function Apply(l: WebSocketSessions.Limits, s: State, step: Step): State
    requires Enabled(s, step)
  {
    Move(s, step.id, NextPhase(l, PhaseOf(s, step.id), step), step.Acquire?)
  }

  function Holders(s: State): set<nat> { set id | id in s.requests && Holds(s.requests[id]) }

  ghost predicate HeldWhileLive(s: State) {
    forall id :: id in s.requests ==> (Holds(s.requests[id]) <==> Live(s.requests[id]))
  }

  /** What was taken is given back or held; nothing is taken twice or before its turn. */
  ghost predicate Balanced(s: State) {
    && (forall id :: s.acquired[id] == s.released[id] + if Holds(PhaseOf(s, id)) then 1 else 0)
    && (forall id :: s.acquired[id] <= if PhaseOf(s, id).Waiting? || id !in s.requests then 0 else 1)
  }

  ghost predicate Inv(maxRequests: nat, s: State) {
    s.free + |Holders(s)| == maxRequests && HeldWhileLive(s) && Balanced(s)
  }

  /** No step but the acquisition gives a request a permit, and a body keeps its permit exactly
      while it is live. */
  lemma {:induction false} PhaseStep(l: WebSocketSessions.Limits, s: State, step: Step)
    requires Enabled(s, step) && (Holds(PhaseOf(s, step.id)) <==> Live(PhaseOf(s, step.id)))
    ensures var before := PhaseOf(s, step.id);
            var after := NextPhase(l, before, step);
            && (Holds(after) <==> Live(after))
            && (Holds(after) && !Holds(before) ==> step.Acquire?)
            && (after.Waiting? ==> step.Start?)
  {
  }

  /** A phase change that acquires exactly when it says so. */
  ghost predicate Lawful(s: State, id: nat, after: Phase, acquiring: bool) {
    && (if acquiring then s.free > 0 && PhaseOf(s, id).Waiting? && Holds(after)
        else Holds(after) ==> Holds(PhaseOf(s, id)))
    && (after.Waiting? ==> id !in s.requests)
  }

  lemma MoveKeepsCount(s: State, id: nat, after: Phase, acquiring: bool)
    requires Lawful(s, id, after, acquiring)
    ensures var t := Move(s, id, after, acquiring); t.free + |Holders(t)| == s.free + |Holders(s)|
  {
    var t := Move(s, id, after, acquiring);
    assert id in Holders(s) <==> Holds(PhaseOf(s, id));
    assert Holders(t) == if Holds(after) then Holders(s) + {id} else Holders(s) - {id};
  }

  lemma {:induction false} MoveKeepsBalance(s: State, id: nat, after: Phase, acquiring: bool)
    requires Lawful(s, id, after, acquiring) && Balanced(s)
    ensures Balanced(Move(s, id, after, acquiring))
  {
    var t := Move(s, id, after, acquiring);
    assert PhaseOf(t, id) == after;
    assert forall k :: k != id ==> PhaseOf(t, k) == PhaseOf(s, k) && (k in t.requests <==> k in s.requests);
    assert forall k :: k != id ==> t.acquired[k] == s.acquired[k] && t.released[k] == s.released[k];
  }

  /** Every step keeps the permits accounted for. */
  lemma {:induction false} StepKeepsInv(l: WebSocketSessions.Limits, maxRequests: nat, s: State, step: Step)
    requires Inv(maxRequests, s) && Enabled(s, step)
    ensures Inv(maxRequests, Apply(l, s, step))
  {
    PhaseStep(l, s, step);
    var after := NextPhase(l, PhaseOf(s, step.id), step);
    MoveKeepsCount(s, step.id, after, step.Acquire?);
    MoveKeepsBalance(s, step.id, after, step.Acquire?);
  }

  ghost predicate Runs(l: WebSocketSessions.Limits, s: State, steps: seq<Step>, t: State)
    decreases |steps|
  {
    if steps == [] then s == t else Enabled(s, steps[0]) && Runs(l, Apply(l, s, steps[0]), steps[1..], t)
  }

  lemma {:induction false} RunsKeepInv(l: WebSocketSessions.Limits, maxRequests: nat, s: State, steps: seq<Step>, t: State)
    requires Inv(maxRequests, s) && Runs(l, s, steps, t)
    ensures Inv(maxRequests, t)
    decreases |steps|
  {
    if steps != [] {
      StepKeepsInv(l, maxRequests, s, steps[0]);
      RunsKeepInv(l, maxRequests, Apply(l, s, steps[0]), steps[1..], t);
    }
  }

  // ---------------------------------------------------------------- when a permit comes back

  /** A dispatched request gives its permit back at once exactly when it was a HEAD request, its response
      is buffered, streamed under a status without a body, or an upgrade whose status was overridden;
      otherwise the stream or the socket keeps it. */
  lemma PermitComesBackIff(l: WebSocketSessions.Limits, maxRequests: nat, s: State, id: nat, isHead: bool, status: nat, body: Body)
    requires Inv(maxRequests, s) && Enabled(s, Finish(id, isHead, status, body))
    ensures var t := Apply(l, s, Finish(id, isHead, status, body));
            var back := || isHead || body.Buffered?
                        || (body.Streaming? && (100 <= status < 200 || status == 204 || status == 304))
                        || (body.WebSocket? && status != 101);
            && t.free == s.free + (if back then 1 else 0)
            && (t.requests[id].Returned? <==> back)
            && (t.requests[id].Socket? <==> !back && body.WebSocket?)
            && (t.requests[id].StreamBody? <==> !back && body.Streaming?)
  {
  }

  /** A streamed body that is still open keeps its permit on a half-close and on a chunk without status
      and headers, and on nothing else. */
  lemma StreamKeepsPermitIff(l: WebSocketSessions.Limits, maxRequests: nat, s: State, id: nat, event: ResponseStreams.Event)
    requires Inv(maxRequests, s) && Enabled(s, OnStream(id, event)) && Live(s.requests[id])
    ensures Apply(l, s, OnStream(id, event)).free == s.free <==>
              || event == ResponseStreams.HalfClosed
              || ResponseStreams.AnyChunk(event)
  {
    ResponseStreams.ChunkIff(event);
  }

  function InDispatch(s: State): set<nat> { set id | id in s.requests && s.requests[id].Dispatching? }

  function LiveStreams(s: State): set<nat> { set id | id in s.requests && s.requests[id].StreamBody? && Live(s.requests[id]) }

  function LiveSockets(s: State): set<nat> { set id | id in s.requests && s.requests[id].Socket? && Live(s.requests[id]) }

  lemma HoldersAreLive(maxRequests: nat, s: State)
    requires Inv(maxRequests, s)
    ensures |Holders(s)| == |InDispatch(s)| + |LiveStreams(s)| + |LiveSockets(s)|
  {
    var a, b, c := InDispatch(s), LiveStreams(s), LiveSockets(s);
    assert Holders(s) == a + b + c;
    assert a !! b && (a + b) !! c;
    assert |a + b| == |a| + |b| && |a + b + c| == |a + b| + |c|;
  }

  /** In every reachable state free permits, dispatching requests, live response streams and live
      sockets add up to the configured number; each permit that was taken is given back exactly
      once, when its request stops being live, and never before. */
  lemma PermitsAreConserved(l: WebSocketSessions.Limits, maxRequests: nat, steps: seq<Step>, s: State)
    requires Runs(l, Init(maxRequests), steps, s)
    ensures s.free + |InDispatch(s)| + |LiveStreams(s)| + |LiveSockets(s)| == maxRequests
    ensures forall id :: s.acquired[id] <= 1
    ensures forall id :: s.released[id] == if s.acquired[id] == 1 && !Live(PhaseOf(s, id)) then 1 else 0
  {
    assert Holders(Init(maxRequests)) == {};
    RunsKeepInv(l, maxRequests, Init(maxRequests), steps, s);
    HoldersAreLive(maxRequests, s);
  }
}
