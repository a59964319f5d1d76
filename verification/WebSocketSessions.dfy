/** The WebSocket session state machine, under every interleaving of sends, receives and cancels
    and an arbitrary peer. A call is split at its awaits: it begins, the stream answers (or the
    caller drops the future), it ends. An in-flight receive is not assumed to fail after cancel. */
module WebSocketSessions {
  import opened JsonValues
  import opened Texts

  datatype Kind = Accept | Text | Binary | Close

  /** A frame of the endpoint capability. Text and reason are UTF-8 octets. */
  datatype Frame = Frame(kind: Kind, protocol: Option<string>, text: Option<Octets>, body: Option<Octets>,
                         code: Option<int>, reason: Option<Octets>)

  datatype Limits = Limits(message: nat, session: nat)

  function Length(payload: Option<Octets>): nat { if payload.Some? then |payload.value| else 0 }

  function Payload(frame: Frame): nat { Length(frame.text) + Length(frame.body) }

  /** Close codes an application may use. */
  predicate SendableCode(code: int) { 1000 <= code <= 1003 || 1007 <= code <= 1014 || 3000 <= code <= 4999 }

  /** `validate_frame`. */
  predicate ValidFrame(frame: Frame, limit: nat) {
    frame.protocol.None? &&
    match frame.kind
    case Text => frame.text.Some? && |frame.text.value| <= limit && frame.body.None? && frame.code.None? && frame.reason.None?
    case Binary => frame.body.Some? && |frame.body.value| <= limit && frame.text.None? && frame.code.None? && frame.reason.None?
    case Close =>
      && frame.text.None? && frame.body.None?
      && frame.code.Some? && SendableCode(frame.code.value)
      && (frame.reason.Some? ==> |frame.reason.value| <= 123)
    case Accept => false
  }

  /** The cells of a session, followed by what happened: calls in flight, frames handed to the
      stream, frames delivered to the transport. */
  datatype Session = Session(
    permit: bool, transferred: nat, cancelled: bool, terminal: bool, sentClose: bool, receivedClose: bool,
    reading: bool, writing: bool,
    sends: nat, receives: nat, sent: seq<Frame>, delivered: seq<Frame>)

  function Init(permit: bool): Session {
    Session(permit, 0, false, false, false, false, false, false, 0, 0, [], [])
  }

  /** What a call returns, or that it is waiting for the stream. */
  datatype Outcome = Pending | Fails | Sends | Delivers(frame: Frame) | Ends

  datatype Event = Message(frame: Frame) | HalfClosed | TerminalOk | TerminalErr | Failure

  // ---------------------------------------------------------------- the calls

  function Saturating(a: nat, b: nat): nat { if a >= b then a - b else 0 }

  predicate Fits(l: Limits, s: Session, frame: Frame) {
    ValidFrame(frame, l.message) && Payload(frame) <= Saturating(l.session, s.transferred)
  }

  function Cancel(s: Session): Session { s.(permit := false, cancelled := true) }

  function BeginSend(l: Limits, s: Session, frame: Frame): (Session, Outcome) {
    if s.cancelled || s.terminal || s.sentClose || s.writing then (s, Fails)
    else if !Fits(l, s, frame) then (Cancel(s), Fails)
    else (s.(writing := true, transferred := s.transferred + Payload(frame), sentClose := frame.kind.Close?,
             sends := s.sends + 1, sent := s.sent + [frame]), Pending)
  }

  function EndSend(s: Session, ok: bool): (Session, Outcome)
    requires s.sends > 0
  {
    var t := s.(writing := false, sends := s.sends - 1);
    if ok then (t, Sends) else (Cancel(t), Fails)
  }

  function BeginReceive(s: Session): (Session, Outcome) {
    if s.cancelled then (s, Fails)
    else if s.terminal then (s, Ends)
    else if s.reading then (s, Fails)
    else (s.(reading := true, receives := s.receives + 1), Pending)
  }

  function DropReceive(s: Session): Session
    requires s.receives > 0
  {
    s.(reading := false, receives := s.receives - 1)
  }

  /** The stream answers a pending receive. A half-close is skipped; everything else ends the call. */
  function OnEvent(l: Limits, s: Session, event: Event): (Session, Outcome)
    requires s.receives > 0
  {
    var t := DropReceive(s);
    match event
    case HalfClosed => (s, Pending)
    case TerminalOk => (t.(terminal := true, permit := false), Ends)
    case TerminalErr => (Cancel(t), Fails)
    case Failure => (Cancel(t), Fails)
    case Message(frame) =>
      if s.receivedClose || !Fits(l, s, frame) then (Cancel(t), Fails)
      else (t.(transferred := s.transferred + Payload(frame), receivedClose := frame.kind.Close?,
               delivered := s.delivered + [frame]), Delivers(frame))
  }

  // ---------------------------------------------------------------- steps and runs

  datatype Step = DoBeginSend(frame: Frame) | DoEndSend(ok: bool) | DoDropSend
                | DoBeginReceive | DoEvent(event: Event) | DoDropReceive | DoCancel

  predicate Enabled(s: Session, step: Step) {
    match step
    case DoEndSend(_) => s.sends > 0
    case DoDropSend => s.sends > 0
    case DoEvent(_) => s.receives > 0
    case DoDropReceive => s.receives > 0
    case _ => true
  }

  function Apply(l: Limits, s: Session, step: Step): Session
    requires Enabled(s, step)
  {
    match step
    case DoBeginSend(frame) => BeginSend(l, s, frame).0
    case DoEndSend(ok) => EndSend(s, ok).0
    case DoDropSend => EndSend(s, true).0
    case DoBeginReceive => BeginReceive(s).0
    case DoEvent(event) => OnEvent(l, s, event).0
    case DoDropReceive => DropReceive(s)
    case DoCancel => Cancel(s)
  }

  function Bytes(frames: seq<Frame>): nat {
    if frames == [] then 0 else Bytes(frames[..|frames| - 1]) + Payload(frames[|frames| - 1])
  }

  /** A close frame, if there is one, is the last frame; and every frame was valid. */
  ghost predicate WellClosed(l: Limits, frames: seq<Frame>, closed: bool) {
    && (forall i :: 0 <= i < |frames| ==> ValidFrame(frames[i], l.message))
    && (forall i :: 0 <= i < |frames| ==> (frames[i].kind.Close? <==> closed && i == |frames| - 1))
    && (closed ==> frames != [])
  }

  ghost predicate Inv(l: Limits, s: Session) {
    && s.sends == (if s.writing then 1 else 0) && s.receives == (if s.reading then 1 else 0)
    && s.transferred == Bytes(s.sent) + Bytes(s.delivered) && s.transferred <= l.session
    && WellClosed(l, s.sent, s.sentClose) && WellClosed(l, s.delivered, s.receivedClose)
    && (s.cancelled || s.terminal ==> !s.permit)
  }

  lemma AppendFrame(l: Limits, frames: seq<Frame>, frame: Frame)
    requires WellClosed(l, frames, false) && ValidFrame(frame, l.message)
    ensures WellClosed(l, frames + [frame], frame.kind.Close?)
    ensures Bytes(frames + [frame]) == Bytes(frames) + Payload(frame)
  {
    assert (frames + [frame])[..|frames + [frame]| - 1] == frames;
  }

  lemma BeginSendKeepsInv(l: Limits, s: Session, frame: Frame)
    requires Inv(l, s)
    ensures Inv(l, BeginSend(l, s, frame).0)
  {
    if BeginSend(l, s, frame).1.Pending? {
      AppendFrame(l, s.sent, frame);
    }
  }

  lemma EventKeepsInv(l: Limits, s: Session, event: Event)
    requires Inv(l, s) && s.receives > 0
    ensures Inv(l, OnEvent(l, s, event).0)
  {
    if OnEvent(l, s, event).1.Delivers? {
      AppendFrame(l, s.delivered, event.frame);
    }
  }

  /** Each flag is set exactly while one matching call is in flight, the payload of both directions
      together stays within the session limit, nothing follows a close in either direction, and a
      cancelled or ended session holds no permit: every step keeps all of it. */
  lemma {:induction false} StepKeepsInv(l: Limits, s: Session, step: Step)
    requires Inv(l, s) && Enabled(s, step)
    ensures Inv(l, Apply(l, s, step))
  {
    match step
    case DoBeginSend(frame) => BeginSendKeepsInv(l, s, frame);
    case DoEvent(event) => EventKeepsInv(l, s, event);
    case DoEndSend(ok) => assert Inv(l, EndSend(s, ok).0);
    case DoDropSend => assert Inv(l, EndSend(s, true).0);
    case DoBeginReceive => assert Inv(l, BeginReceive(s).0);
    case DoDropReceive => assert Inv(l, DropReceive(s));
    case DoCancel => assert Inv(l, Cancel(s));
  }

  /** Neither cancellation nor the end is ever undone, and what was exchanged stays exchanged. */
  ghost predicate Extends(s: Session, t: Session) {
    (s.cancelled ==> t.cancelled) && (s.terminal ==> t.terminal) && s.sent <= t.sent && s.delivered <= t.delivered
  }

  lemma StepExtends(l: Limits, s: Session, step: Step)
    requires Enabled(s, step)
    ensures Extends(s, Apply(l, s, step))
  {
    match step
    case DoBeginSend(frame) => assert s.sent <= s.sent + [frame];
    case DoEvent(event) => assert event.Message? ==> s.delivered <= s.delivered + [event.frame];
    case _ =>
  }

  ghost predicate Runs(l: Limits, s: Session, steps: seq<Step>, t: Session)
    decreases |steps|
  {
    if steps == [] then s == t else Enabled(s, steps[0]) && Runs(l, Apply(l, s, steps[0]), steps[1..], t)
  }

  lemma InitEstablishesInv(l: Limits, permit: bool)
    ensures Inv(l, Init(permit))
  {
    assert Bytes([]) == 0;
  }

  lemma {:induction false} RunsKeepInv(l: Limits, s: Session, steps: seq<Step>, t: Session)
    requires Inv(l, s) && Runs(l, s, steps, t)
    ensures Inv(l, t) && Extends(s, t)
    decreases |steps|
  {
    if steps != [] {
      StepKeepsInv(l, s, steps[0]);
      StepExtends(l, s, steps[0]);
      RunsKeepInv(l, Apply(l, s, steps[0]), steps[1..], t);
    }
  }

  /** Whatever happens after a cancel, every call begun later fails and changes nothing, no frame
      is handed to the stream any more, and the permit is gone. */
  lemma CallsAfterCancelFail(l: Limits, s: Session, before: seq<Step>, after: seq<Step>, u: Session, t: Session, frame: Frame)
    requires Inv(l, s) && Runs(l, s, before, u) && Runs(l, Cancel(u), after, t)
    ensures BeginSend(l, t, frame) == (t, Fails) && BeginReceive(t) == (t, Fails)
    ensures t.sent == u.sent && !t.permit
  {
    RunsKeepInv(l, s, before, u);
    StepKeepsInv(l, u, DoCancel);
    RunsKeepInv(l, Cancel(u), after, t);
    NothingFollowsClose(l, Cancel(u), after, t);
  }

  /** `t` has sent nothing that a close or a cancel forbids. */
  ghost predicate SendsRespectClose(s: Session, t: Session) {
    && (s.sentClose || s.cancelled ==> t.sent == s.sent)
    && (s.sentClose ==> t.sentClose) && (s.cancelled ==> t.cancelled)
  }

  /** `t` has delivered nothing after a close. */
  ghost predicate DeliveriesRespectClose(s: Session, t: Session) {
    s.receivedClose ==> t.delivered == s.delivered && t.receivedClose
  }

  ghost predicate RespectsClose(s: Session, t: Session) { SendsRespectClose(s, t) && DeliveriesRespectClose(s, t) }

  lemma {:induction false} StepSendsRespectClose(l: Limits, s: Session, step: Step)
    requires Enabled(s, step)
    ensures SendsRespectClose(s, Apply(l, s, step))
  {
  }

  lemma {:induction false} StepDeliveriesRespectClose(l: Limits, s: Session, step: Step)
    requires Enabled(s, step)
    ensures DeliveriesRespectClose(s, Apply(l, s, step))
  {
  }

  /** After a close was sent, or the session was cancelled, nothing more is handed to the stream;
      after a close was received nothing more is delivered. */
  lemma {:induction false} NothingFollowsClose(l: Limits, s: Session, steps: seq<Step>, t: Session)
    requires Runs(l, s, steps, t)
    ensures RespectsClose(s, t)
    decreases |steps|
  {
    if steps != [] {
      StepSendsRespectClose(l, s, steps[0]);
      StepDeliveriesRespectClose(l, s, steps[0]);
      NothingFollowsClose(l, Apply(l, s, steps[0]), steps[1..], t);
    }
  }

  // ---------------------------------------------------------------- the budget, frame kind by frame kind

  /** What a frame carries: the text of a text frame, the body of a binary one. */
  function Carried(frame: Frame): nat {
    match frame.kind
    case Text => if frame.text.Some? then |frame.text.value| else 0
    case Binary => if frame.body.Some? then |frame.body.value| else 0
    case _ => 0
  }

  function CarriedBy(frames: seq<Frame>): nat {
    if frames == [] then 0 else CarriedBy(frames[..|frames| - 1]) + Carried(frames[|frames| - 1])
  }

  lemma {:induction false} ValidFramesCarryTheirPayload(l: Limits, frames: seq<Frame>)
    requires forall i :: 0 <= i < |frames| ==> ValidFrame(frames[i], l.message)
    ensures Bytes(frames) == CarriedBy(frames)
    decreases |frames|
  {
    if frames != [] {
      ValidFramesCarryTheirPayload(l, frames[..|frames| - 1]);
      assert ValidFrame(frames[|frames| - 1], l.message);
    }
  }

  /** In every run, the texts and bodies sent and delivered together stay within the session limit, and
      the counter holds exactly their length. */
  lemma SessionStaysWithinBudget(l: Limits, permit: bool, steps: seq<Step>, s: Session)
    requires Runs(l, Init(permit), steps, s)
    ensures s.transferred == CarriedBy(s.sent) + CarriedBy(s.delivered) <= l.session
  {
    InitEstablishesInv(l, permit);
    RunsKeepInv(l, Init(permit), steps, s);
    ValidFramesCarryTheirPayload(l, s.sent);
    ValidFramesCarryTheirPayload(l, s.delivered);
  }

  /** A text or binary message with nothing else in it, within both limits; or a close with a code that
      section 7.4 of RFC 6455 lets applications use and a reason that fits a control frame. */
  ghost predicate Admissible(l: Limits, transferred: nat, frame: Frame) {
    || (exists octets :: frame == Frame(Text, None, Some(octets), None, None, None) && Allowed(l, transferred, |octets|))
    || (exists octets :: frame == Frame(Binary, None, None, Some(octets), None, None) && Allowed(l, transferred, |octets|))
    || (exists code, reason :: frame == Frame(Close, None, None, None, Some(code), reason) && Closing(code, reason))
  }

  predicate Allowed(l: Limits, transferred: nat, size: nat) { size <= l.message && transferred + size <= l.session }

  predicate Closing(code: int, reason: Option<Octets>) {
    (1000 <= code <= 1003 || 1007 <= code <= 1014 || 3000 <= code <= 4999) && (reason.Some? ==> |reason.value| <= 123)
  }

  lemma FitsIff(l: Limits, s: Session, frame: Frame)
    requires s.transferred <= l.session
    ensures Fits(l, s, frame) <==> Admissible(l, s.transferred, frame)
  {
    if Fits(l, s, frame) {
      match frame.kind
      case Text => assert frame == Frame(Text, None, Some(frame.text.value), None, None, None);
      case Binary => assert frame == Frame(Binary, None, None, Some(frame.body.value), None, None);
      case Close => assert frame == Frame(Close, None, None, None, Some(frame.code.value), frame.reason);
    }
  }

  /** A send begun on a session that is live and not busy is handed to the stream exactly when its frame
      is admissible, and otherwise cancels the session; one begun on any other session fails. */
  lemma SendBeginsIff(l: Limits, s: Session, frame: Frame)
    requires Inv(l, s)
    ensures var (t, outcome) := BeginSend(l, s, frame);
            var idle := !s.cancelled && !s.terminal && !s.sentClose && !s.writing;
            && (outcome == Pending <==> idle && Admissible(l, s.transferred, frame))
            && (outcome != Pending ==> outcome == Fails && t == if idle then s.(permit := false, cancelled := true) else s)
            && (outcome == Pending ==> t.sent == s.sent + [frame])
  {
    FitsIff(l, s, frame);
  }

  /** A pending receive delivers a message exactly when no close came before and it is admissible; it ends
      on a successful terminal, goes on after a half-close, and otherwise cancels the session. */
  lemma MessageIsDeliveredIff(l: Limits, s: Session, event: Event)
    requires Inv(l, s) && s.receives > 0
    ensures var (t, outcome) := OnEvent(l, s, event);
            && (outcome.Delivers? <==> event.Message? && !s.receivedClose && Admissible(l, s.transferred, event.frame))
            && (outcome.Delivers? ==> outcome.frame == event.frame && t.delivered == s.delivered + [event.frame])
            && (outcome == Pending <==> event.HalfClosed?) && (outcome == Ends <==> event.TerminalOk?)
            && (outcome == Fails ==> t.cancelled && !t.permit && t.delivered == s.delivered)
  {
    if event.Message? {
      FitsIff(l, s, event.frame);
    }
  }

  // ---------------------------------------------------------------- the object

  class WebSocketSession {
    const limits: Limits
    var permit: bool
    var transferred: nat
    var cancelled: bool
    var terminal: bool
    var sentClose: bool
    var receivedClose: bool
    var reading: bool
    var writing: bool
    ghost var sends: nat
    ghost var receives: nat
    ghost var sent: seq<Frame>
    ghost var delivered: seq<Frame>

    ghost function View(): Session
      reads this
    {
      Session(permit, transferred, cancelled, terminal, sentClose, receivedClose, reading, writing, sends, receives, sent, delivered)
    }

    constructor (limits: Limits, permit: bool)
      ensures this.limits == limits && View() == Init(permit)
    {
      this.limits, this.permit := limits, permit;
      transferred, cancelled, terminal, sentClose, receivedClose := 0, false, false, false, false;
      reading, writing, sends, receives, sent, delivered := false, false, 0, 0, [], [];
    }

    method CancelSession()
      modifies this`permit, this`cancelled
      ensures View() == Cancel(old(View()))
    {
      permit, cancelled := false, true;
    }

    /** Accounts for a frame, or refuses it. */
    method ValidateData(frame: Frame) returns (ok: bool)
      modifies this`transferred
      ensures ok == Fits(limits, old(View()), frame)
      ensures transferred == if ok then old(transferred) + Payload(frame) else old(transferred)
    {
      ok := ValidFrame(frame, limits.message);
      if ok {
        var bytes := Payload(frame);
        if bytes > Saturating(limits.session, transferred) {
          return false;
        }
        transferred := transferred + bytes;
      }
    }

    /** `send` up to the point where the frame is handed to the stream. */
    method StartSend(frame: Frame) returns (outcome: Outcome)
      modifies this
      ensures (View(), outcome) == BeginSend(limits, old(View()), frame)
    {
      if cancelled || terminal || sentClose || writing {
        return Fails;
      }
      writing := true;
      var ok := ValidateData(frame);
      if !ok {
        CancelSession();
        writing := false;
        return Fails;
      }
      sentClose := frame.kind.Close?;
      sends, sent := sends + 1, sent + [frame];
      outcome := Pending;
    }

    /** The stream has taken the frame, or not. */
    method FinishSend(ok: bool) returns (outcome: Outcome)
      requires sends > 0
      modifies this
      ensures (View(), outcome) == EndSend(old(View()), ok)
    {
      sends := sends - 1;
      outcome := Sends;
      if !ok {
        CancelSession();
        outcome := Fails;
      }
      writing := false;
    }

    method StartReceive() returns (outcome: Outcome)
      modifies this`reading, this`receives
      ensures (View(), outcome) == BeginReceive(old(View()))
    {
      if cancelled {
        return Fails;
      }
      if terminal {
        return Ends;
      }
      if reading {
        return Fails;
      }
      reading := true;
      receives := receives + 1;
      outcome := Pending;
    }

    /** One turn of the receive loop. */
    method ReceiveEvent(event: Event) returns (outcome: Outcome)
      requires receives > 0
      modifies this
      ensures (View(), outcome) == OnEvent(limits, old(View()), event)
    {
      if event.HalfClosed? {
        return Pending;
      }
      reading, receives := false, receives - 1;
      if event.TerminalOk? {
        terminal, permit := true, false;
        return Ends;
      }
      if !event.Message? {
        CancelSession();
        return Fails;
      }
      outcome := Deliver(event.frame);
    }

    method Deliver(frame: Frame) returns (outcome: Outcome)
      modifies this
      ensures var t := old(View());
              (View(), outcome) ==
                if t.receivedClose || !Fits(limits, t, frame) then (Cancel(t), Fails)
                else (t.(transferred := t.transferred + Payload(frame), receivedClose := frame.kind.Close?,
                         delivered := t.delivered + [frame]), Delivers(frame))
    {
      if receivedClose {
        CancelSession();
        return Fails;
      }
      var ok := ValidateData(frame);
      if !ok {
        CancelSession();
        return Fails;
      }
      receivedClose := frame.kind.Close?;
      delivered := delivered + [frame];
      outcome := Delivers(frame);
    }
  }
}
