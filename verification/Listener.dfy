/** The replicated listener: lane registration behind one ready gate, and distribution of accepted
    sockets, each carrying a connection permit, over bounded lane queues.

    A step is the code between two awaits. Channel receivers and connection tasks belong to the
    lanes and act at any time. */
module Listener {
  import opened JsonValues
  import opened Counting
  import opened Manifests

  type Socket = nat

  datatype Params = Params(lanes: nat, maxConnections: nat)

  ghost predicate Proper(p: Params) { p.lanes > 0 }

  /** Bound of every lane queue. */
  function Capacity(p: Params): nat
    requires p.lanes > 0
  {
    var share := DivCeil(p.maxConnections, p.lanes);
    if share >= 1 then share else 1
  }

  datatype Slot = Slot(taken: bool, manifest: Option<Manifest>, channel: Option<nat>)

  /** A bounded queue of connections. Closing it drops what it holds. */
  datatype Channel = Channel(queue: seq<Socket>, open: bool)

  /** The acceptor's hands: empty, or a connection that waits for room in one of some channels. */
  datatype Hand = Empty | Waiting(socket: Socket, on: seq<nat>)

  /** Who may serve. `handed` records the slots that the two allocation calls returned. */
  datatype Gate = Gate(slots: seq<Slot>, canonical: Option<Manifest>, ready: bool, nextSlot: nat, handed: seq<nat>)

  /** Where the connections are. The last three fields are history: how many sockets were
      accepted, which are dropped or finished, and how often each was put into a lane queue. */
  datatype Flow = Flow(nextConnection: nat, free: nat, hand: Hand, channels: seq<Channel>, serving: multiset<Socket>,
                       accepted: nat, gone: multiset<Socket>, placed: multiset<Socket>)

  datatype State = State(gate: Gate, flow: Flow)

  function Init(p: Params): State {
    State(Gate(seq(p.lanes, i => Slot(false, None, None)), None, false, 0, []),
          Flow(0, p.maxConnections, Empty, [], multiset{}, 0, multiset{}, multiset{}))
  }

  predicate AllRegistered(slots: seq<Slot>) {
    forall i | 0 <= i < |slots| :: slots[i].manifest.Some?
  }

  // ---------------------------------------------------------------- allocation and registration

  function AllocateAt(g: Gate, slot: nat): Gate {
    if slot < |g.slots| && !g.slots[slot].taken then
      g.(slots := g.slots[slot := g.slots[slot].(taken := true)], handed := g.handed + [slot])
    else g
  }

  function Allocate(g: Gate): Gate {
    AllocateAt(g.(nextSlot := g.nextSlot + 1), g.nextSlot)
  }

  predicate Admissible(g: Gate, manifest: Manifest) { g.canonical.None? || g.canonical == Some(manifest) }

  function RegisterGate(g: Gate, slot: nat, manifest: Manifest, channel: nat): Gate
    requires slot < |g.slots|
  {
    var slots := g.slots[slot := g.slots[slot].(manifest := Some(manifest), channel := Some(channel))];
    g.(canonical := Some(manifest), slots := slots, ready := g.ready || AllRegistered(slots))
  }

  function Register(s: State, slot: nat, manifest: Manifest): State
    requires slot < |s.gate.slots|
  {
    if !Admissible(s.gate, manifest) then s else
    State(RegisterGate(s.gate, slot, manifest, |s.flow.channels|),
          s.flow.(channels := s.flow.channels + [Channel([], true)]))
  }

  // ---------------------------------------------------------------- distribution

  predicate Room(p: Params, channel: Channel)
    requires p.lanes > 0
  {
    channel.open && |channel.queue| < Capacity(p)
  }

  /** Channels named by slots exist. */
  predicate Wired(slots: seq<Slot>, channels: nat) {
    forall i | 0 <= i < |slots| :: slots[i].channel.Some? ==> slots[i].channel.value < channels
  }

  datatype Scan = Sent(channel: nat) | Blocked(full: seq<nat>)

  /** The non-blocking pass over the lanes, from `offset` places after `start`. */
  function ScanFrom(p: Params, slots: seq<Slot>, channels: seq<Channel>, start: nat, offset: nat): (r: Scan)
    requires p.lanes > 0 && |slots| == p.lanes && offset <= p.lanes && Wired(slots, |channels|)
    ensures r.Sent? ==> r.channel < |channels| && Room(p, channels[r.channel])
    ensures r.Blocked? ==> forall c :: c in r.full ==> c < |channels|
    decreases p.lanes - offset
  {
    if offset == p.lanes then Blocked([]) else
    var channel := slots[(start + offset) % p.lanes].channel;
    var rest := ScanFrom(p, slots, channels, start, offset + 1);
    if channel.None? then rest
    else if Room(p, channels[channel.value]) then Sent(channel.value)
    else if !channels[channel.value].open || rest.Sent? then rest
    else Blocked([channel.value] + rest.full)
  }

  function Push(f: Flow, channel: nat, socket: Socket): Flow
    requires channel < |f.channels|
  {
    var c := f.channels[channel];
    f.(channels := f.channels[channel := c.(queue := c.queue + [socket])], placed := f.placed + multiset{socket})
  }

  /** Takes a permit for the next socket and acts on the outcome of the scan. */
  function Settle(f: Flow, scan: Scan): Flow
    requires f.free > 0 && (scan.Sent? ==> scan.channel < |f.channels|)
  {
    var g := f.(accepted := f.accepted + 1, free := f.free - 1, nextConnection := f.nextConnection + 1);
    match scan
    case Sent(channel) => Push(g, channel, f.accepted)
    case Blocked(full) => g.(hand := Waiting(f.accepted, full))
  }

  /** `distribute_connection` up to its first await. Without a free permit the socket is dropped. */
  function Distribute(p: Params, slots: seq<Slot>, f: Flow): Flow
    requires p.lanes > 0 && |slots| == p.lanes && Wired(slots, |f.channels|)
  {
    if f.free == 0 then f.(accepted := f.accepted + 1, gone := f.gone + multiset{f.accepted})
    else Settle(f, ScanFrom(p, slots, f.channels, f.nextConnection, 0))
  }

  // ---------------------------------------------------------------- what lanes and reservations do

  /** A waiting connection gets a reservation and is sent. */
  function Grant(f: Flow, c: nat): Flow
    requires f.hand.Waiting? && c < |f.channels|
  {
    Push(f, c, f.hand.socket).(hand := Empty)
  }

  /** Every channel waited for is closed: the connection is dropped, and its permit with it. */
  function GiveUp(f: Flow): Flow
    requires f.hand.Waiting?
  {
    f.(hand := Empty, free := f.free + 1, gone := f.gone + multiset{f.hand.socket})
  }

  /** A lane takes the next connection from its queue and serves it. */
  function Receive(f: Flow, c: nat): Flow
    requires c < |f.channels| && f.channels[c].queue != []
  {
    var queue := f.channels[c].queue;
    f.(channels := f.channels[c := f.channels[c].(queue := queue[1..])], serving := f.serving + multiset{queue[0]})
  }

  /** A lane drops its receiver. */
  function Close(f: Flow, c: nat): Flow
    requires c < |f.channels|
  {
    var queue := f.channels[c].queue;
    f.(channels := f.channels[c := Channel([], false)], free := f.free + |queue|, gone := f.gone + multiset(queue))
  }

  /** A connection task ends. */
  function Finish(f: Flow, socket: Socket): Flow {
    f.(serving := f.serving - multiset{socket}, free := f.free + 1, gone := f.gone + multiset{socket})
  }

  // ---------------------------------------------------------------- steps

  datatype Step =
    | DoAllocate
    | DoAllocateAt(slot: nat)
    | DoRegister(slot: nat, manifest: Manifest)
    | DoAccept
    | DoGrant(channel: nat)
    | DoGiveUp
    | DoReceive(channel: nat)
    | DoClose(channel: nat)
    | DoFinish(socket: Socket)

  predicate Enabled(p: Params, s: State, step: Step)
    requires p.lanes > 0
  {
    var f := s.flow;
    match step
    case DoAllocate => true
    case DoAllocateAt(_) => true
    case DoRegister(slot, _) => slot < |s.gate.slots| && s.gate.slots[slot].taken
    case DoAccept => s.gate.ready && f.hand.Empty?
    case DoGrant(c) => f.hand.Waiting? && c in f.hand.on && c < |f.channels| && Room(p, f.channels[c])
    case DoGiveUp => f.hand.Waiting? && forall c | c in f.hand.on :: c < |f.channels| ==> !f.channels[c].open
    case DoReceive(c) => c < |f.channels| && f.channels[c].open && f.channels[c].queue != []
    case DoClose(c) => c < |f.channels| && f.channels[c].open
    case DoFinish(socket) => socket in f.serving
  }

  function Apply(p: Params, s: State, step: Step): State
    requires p.lanes > 0 && |s.gate.slots| == p.lanes && Wired(s.gate.slots, |s.flow.channels|) && Enabled(p, s, step)
  {
    match step
    case DoAllocate => s.(gate := Allocate(s.gate))
    case DoAllocateAt(slot) => s.(gate := AllocateAt(s.gate, slot))
    case DoRegister(slot, manifest) => Register(s, slot, manifest)
    case DoAccept => s.(flow := Distribute(p, s.gate.slots, s.flow))
    case DoGrant(c) => s.(flow := Grant(s.flow, c))
    case DoGiveUp => s.(flow := GiveUp(s.flow))
    case DoReceive(c) => s.(flow := Receive(s.flow, c))
    case DoClose(c) => s.(flow := Close(s.flow, c))
    case DoFinish(socket) => s.(flow := Finish(s.flow, socket))
  }

  // ---------------------------------------------------------------- the invariant of the gate

  ghost predicate SlotsConsistent(p: Params, g: Gate, channels: nat) {
    && |g.slots| == p.lanes && Wired(g.slots, channels)
    && (forall i :: 0 <= i < |g.slots| ==> (g.slots[i].manifest.Some? <==> g.slots[i].channel.Some?))
    && (forall i :: 0 <= i < |g.slots| && g.slots[i].manifest.Some? ==> g.slots[i].manifest == g.canonical)
    && (forall i, j :: 0 <= i < j < |g.slots| && g.slots[i].channel.Some? ==> g.slots[i].channel != g.slots[j].channel)
    && g.ready == AllRegistered(g.slots)
  }

  /** No slot is handed out twice. */
  ghost predicate HandedOnce(g: Gate) {
    && (forall i, j :: 0 <= i < j < |g.handed| ==> g.handed[i] != g.handed[j])
    && (forall k: nat :: k in g.handed <==> k < |g.slots| && g.slots[k].taken)
  }

  lemma AllocateAtKeepsGate(p: Params, g: Gate, channels: nat, slot: nat)
    requires SlotsConsistent(p, g, channels) && HandedOnce(g)
    ensures SlotsConsistent(p, AllocateAt(g, slot), channels) && HandedOnce(AllocateAt(g, slot))
    ensures AllocateAt(g, slot).ready == g.ready
  {
    var h := AllocateAt(g, slot);
    assert forall i :: 0 <= i < |g.slots| ==> h.slots[i].manifest == g.slots[i].manifest && h.slots[i].channel == g.slots[i].channel;
  }

  lemma RegisterKeepsGate(p: Params, g: Gate, channels: nat, slot: nat, manifest: Manifest)
    requires SlotsConsistent(p, g, channels) && HandedOnce(g) && slot < |g.slots| && Admissible(g, manifest)
    requires p.lanes > 0
    ensures var h := RegisterGate(g, slot, manifest, channels);
            SlotsConsistent(p, h, channels + 1) && HandedOnce(h) && (g.ready ==> h.ready)
  {
    var h := RegisterGate(g, slot, manifest, channels);
    assert forall i :: 0 <= i < |g.slots| && i != slot ==> h.slots[i] == g.slots[i];
    assert h.slots[slot].manifest == Some(manifest) && h.slots[slot].taken == g.slots[slot].taken;
    if g.ready {
      assert AllRegistered(h.slots);
    }
  }

  // ---------------------------------------------------------------- the invariant of the connections

  /** Connections and occurrences of one socket over all lane queues. */
  function Total(channels: seq<Channel>): nat {
    if channels == [] then 0
    else Total(channels[..|channels| - 1]) + |channels[|channels| - 1].queue|
  }

  function Count(channels: seq<Channel>, k: Socket): nat {
    if channels == [] then 0
    else Count(channels[..|channels| - 1], k) + multiset(channels[|channels| - 1].queue)[k]
  }

  function HandSize(f: Flow): nat { if f.hand.Waiting? then 1 else 0 }

  function HandCount(f: Flow, k: Socket): nat { if f.hand.Waiting? && f.hand.socket == k then 1 else 0 }

  /** How many permit-holding places `k` is in: the acceptor's hands, a queue, a connection task. */
  function Places(f: Flow, k: Socket): nat { HandCount(f, k) + Count(f.channels, k) + f.serving[k] }

  /** Free permits and permits in hand, queued and serving make up the configured number. */
  ghost predicate Conserved(p: Params, f: Flow) {
    f.free + HandSize(f) + Total(f.channels) + |f.serving| == p.maxConnections
  }

  /** Every accepted socket is in exactly one place or gone, and no other socket is anywhere. */
  ghost predicate Located(f: Flow) {
    forall k: Socket :: Places(f, k) + f.gone[k] == if k < f.accepted then 1 else 0
  }

  /** No socket enters a lane queue twice, and what is in hand has not entered one. */
  ghost predicate PlacedOnce(f: Flow) {
    forall k: Socket :: f.placed[k] + HandCount(f, k) <= if k < f.accepted then 1 else 0
  }

  ghost predicate Bounded(p: Params, f: Flow)
    requires p.lanes > 0
  {
    && (forall c :: 0 <= c < |f.channels| ==> |f.channels[c].queue| <= Capacity(p))
    && (f.hand.Waiting? ==> forall c :: c in f.hand.on ==> c < |f.channels|)
  }

  /** Sockets already accepted that may be queued: all, or those before the one in hand. */
  function Limit(f: Flow): nat { if f.hand.Waiting? then f.hand.socket else f.accepted }

  /** A lane that is down holds nothing, and every queue is in the order of acceptance. */
  ghost predicate Tidy(f: Flow) {
    && (forall c :: 0 <= c < |f.channels| && !f.channels[c].open ==> f.channels[c].queue == [])
    && (forall c :: 0 <= c < |f.channels| ==> Increasing(f.channels[c].queue, Limit(f)))
    && Limit(f) <= f.accepted && (f.hand.Waiting? ==> Limit(f) < f.accepted)
  }

  ghost predicate Increasing(queue: seq<Socket>, limit: nat) {
    && (forall i, j :: 0 <= i < j < |queue| ==> queue[i] < queue[j])
    && (forall i :: 0 <= i < |queue| ==> queue[i] < limit)
  }

  ghost predicate FlowInv(p: Params, f: Flow)
    requires p.lanes > 0
  {
    Conserved(p, f) && Located(f) && PlacedOnce(f) && Bounded(p, f)
  }

  lemma {:induction false} UpdateChannel(channels: seq<Channel>, c: nat, channel: Channel)
    requires c < |channels|
    ensures Total(channels[c := channel]) == Total(channels) - |channels[c].queue| + |channel.queue|
    ensures forall k :: Count(channels[c := channel], k)
                        == Count(channels, k) - multiset(channels[c].queue)[k] + multiset(channel.queue)[k]
    decreases |channels|
  {
    var last := |channels| - 1;
    if c == last {
      assert channels[c := channel][..last] == channels[..last];
    } else {
      assert channels[c := channel][..last] == channels[..last][c := channel];
      UpdateChannel(channels[..last], c, channel);
    }
  }

  lemma PushMoves(p: Params, f: Flow, c: nat, socket: Socket)
    requires p.lanes > 0 && c < |f.channels|
    ensures var g := Push(f, c, socket);
            && Total(g.channels) == Total(f.channels) + 1
            && (forall k :: Count(g.channels, k) == Count(f.channels, k) + if k == socket then 1 else 0)
            && (Bounded(p, f) && Room(p, f.channels[c]) ==> Bounded(p, g))
  {
    var queue := f.channels[c].queue;
    UpdateChannel(f.channels, c, f.channels[c].(queue := queue + [socket]));
    assert multiset(queue + [socket]) == multiset(queue) + multiset{socket};
  }

  lemma DistributeKeepsFlow(p: Params, slots: seq<Slot>, f: Flow)
    requires p.lanes > 0 && |slots| == p.lanes && Wired(slots, |f.channels|)
    requires FlowInv(p, f) && f.hand.Empty?
    ensures FlowInv(p, Distribute(p, slots, f))
  {
    var scan := ScanFrom(p, slots, f.channels, f.nextConnection, 0);
    if f.free > 0 && scan.Sent? {
      PushMoves(p, f, scan.channel, f.accepted);
    }
  }

  lemma GrantKeepsFlow(p: Params, f: Flow, c: nat)
    requires p.lanes > 0 && FlowInv(p, f) && f.hand.Waiting? && c < |f.channels| && Room(p, f.channels[c])
    ensures FlowInv(p, Grant(f, c))
  {
    PushMoves(p, f, c, f.hand.socket);
  }

  lemma {:induction false} ReceiveKeepsFlow(p: Params, f: Flow, c: nat)
    requires p.lanes > 0 && FlowInv(p, f) && c < |f.channels| && f.channels[c].queue != []
    ensures FlowInv(p, Receive(f, c))
  {
    var queue := f.channels[c].queue;
    UpdateChannel(f.channels, c, f.channels[c].(queue := queue[1..]));
    assert queue == [queue[0]] + queue[1..];
    assert multiset(queue) == multiset{queue[0]} + multiset(queue[1..]);
  }

  lemma CloseKeepsFlow(p: Params, f: Flow, c: nat)
    requires p.lanes > 0 && FlowInv(p, f) && c < |f.channels|
    ensures FlowInv(p, Close(f, c))
  {
    UpdateChannel(f.channels, c, Channel([], false));
  }

  lemma ReleaseKeepsFlow(p: Params, f: Flow, socket: Socket)
    requires p.lanes > 0 && FlowInv(p, f)
    ensures f.hand.Waiting? ==> FlowInv(p, GiveUp(f))
    ensures socket in f.serving ==> FlowInv(p, Finish(f, socket))
  {
  }

  // ---------------------------------------------------------------- every run

  ghost predicate Inv(p: Params, s: State) {
    && Proper(p)
    && SlotsConsistent(p, s.gate, |s.flow.channels|) && HandedOnce(s.gate) && FlowInv(p, s.flow) && Tidy(s.flow)
    && (s.flow.accepted > 0 ==> s.gate.ready)
  }

  lemma InitEstablishesInv(p: Params)
    requires Proper(p)
    ensures Inv(p, Init(p))
  {
    var slots := Init(p).gate.slots;
    assert slots[0].manifest.None?;
  }

  lemma {:induction false} StepKeepsGate(p: Params, s: State, step: Step)
    requires Inv(p, s) && Enabled(p, s, step)
    ensures var t := Apply(p, s, step);
            SlotsConsistent(p, t.gate, |t.flow.channels|) && HandedOnce(t.gate) && (s.gate.ready ==> t.gate.ready)
  {
    match step
    case DoAllocate => AllocateAtKeepsGate(p, s.gate.(nextSlot := s.gate.nextSlot + 1), |s.flow.channels|, s.gate.nextSlot);
    case DoAllocateAt(slot) => AllocateAtKeepsGate(p, s.gate, |s.flow.channels|, slot);
    case DoRegister(slot, manifest) =>
      if Admissible(s.gate, manifest) {
        RegisterKeepsGate(p, s.gate, |s.flow.channels|, slot, manifest);
      }
    case _ =>
  }

  lemma {:induction false} StepKeepsFlow(p: Params, s: State, step: Step)
    requires Inv(p, s) && Enabled(p, s, step)
    ensures FlowInv(p, Apply(p, s, step).flow)
  {
    match step
    case DoRegister(slot, manifest) =>
      if Admissible(s.gate, manifest) {
        NewChannelKeepsFlow(p, s.flow);
      }
    case DoAccept => DistributeKeepsFlow(p, s.gate.slots, s.flow);
    case DoGrant(c) => GrantKeepsFlow(p, s.flow, c);
    case DoGiveUp => ReleaseKeepsFlow(p, s.flow, 0);
    case DoReceive(c) => ReceiveKeepsFlow(p, s.flow, c);
    case DoClose(c) => CloseKeepsFlow(p, s.flow, c);
    case DoFinish(socket) => ReleaseKeepsFlow(p, s.flow, socket);
    case _ =>
  }

  /** Every step keeps the invariant, and readiness never reverts. */
  lemma {:induction false} StepKeepsInv(p: Params, s: State, step: Step)
    requires Inv(p, s) && Enabled(p, s, step)
    ensures Inv(p, Apply(p, s, step))
    ensures s.gate.ready ==> Apply(p, s, step).gate.ready
  {
    StepKeepsTidy(p, s, step);
    StepKeepsGate(p, s, step);
    StepKeepsFlow(p, s, step);
  }

  /** Sending to an open lane keeps its queue in order. */
  lemma PushKeepsTidy(f: Flow, g: Flow, c: nat, socket: Socket)
    requires Tidy(f) && c < |f.channels| && f.channels[c].open && Limit(f) <= socket < Limit(g) <= g.accepted && g.hand.Empty?
    requires g.channels == f.channels[c := Channel(f.channels[c].queue + [socket], true)]
    ensures Tidy(g)
  {
    forall i | 0 <= i < |g.channels| ensures Increasing(g.channels[i].queue, Limit(g)) {
      assert Increasing(f.channels[i].queue, Limit(f));
    }
  }

  lemma {:induction false} StepKeepsTidy(p: Params, s: State, step: Step)
    requires p.lanes > 0 && |s.gate.slots| == p.lanes && Wired(s.gate.slots, |s.flow.channels|)
    requires Tidy(s.flow) && Enabled(p, s, step)
    ensures Tidy(Apply(p, s, step).flow)
  {
    var f, g := s.flow, Apply(p, s, step).flow;
    match step
    case DoAccept =>
      var scan := ScanFrom(p, s.gate.slots, f.channels, f.nextConnection, 0);
      if f.free > 0 && scan.Sent? {
        PushKeepsTidy(f, g, scan.channel, f.accepted);
      } else {
        SameChannelsKeepTidy(f, g);
      }
    case DoGrant(c) => PushKeepsTidy(f, g, c, f.hand.socket);
    case DoReceive(c) =>
      forall i | 0 <= i < |g.channels| ensures Increasing(g.channels[i].queue, Limit(g)) {
        assert Increasing(f.channels[i].queue, Limit(f));
      }
    case DoClose(c) =>
    case _ => SameChannelsKeepTidy(f, g);
  }

  lemma SameChannelsKeepTidy(f: Flow, g: Flow)
    requires Tidy(f) && Limit(f) <= Limit(g) <= g.accepted && (g.hand.Waiting? ==> Limit(g) < g.accepted)
    requires g.channels == f.channels || g.channels == f.channels + [Channel([], true)]
    ensures Tidy(g)
  {
    forall i | 0 <= i < |f.channels| ensures Increasing(f.channels[i].queue, Limit(g)) {
      assert Increasing(f.channels[i].queue, Limit(f));
    }
  }

  /** A lane serves its connections in the order in which they were accepted. */
  lemma LanesServeInOrder(p: Params, s: State, c: nat)
    requires Inv(p, s) && Enabled(p, s, DoReceive(c))
    ensures var queue, after := s.flow.channels[c].queue, Apply(p, s, DoReceive(c)).flow;
            exists k :: k in queue && after.serving == s.flow.serving + multiset{k}
                        && multiset(queue) == multiset(after.channels[c].queue) + multiset{k}
                        && forall later :: later in after.channels[c].queue ==> k < later
  {
    var queue := s.flow.channels[c].queue;
    assert Increasing(queue, Limit(s.flow));
    assert queue == [queue[0]] + queue[1..];
    assert multiset(queue) == multiset{queue[0]} + multiset(queue[1..]);
  }

  lemma {:induction false} NewChannelKeepsFlow(p: Params, f: Flow)
    requires p.lanes > 0 && FlowInv(p, f)
    ensures FlowInv(p, f.(channels := f.channels + [Channel([], true)]))
  {
    var g := f.(channels := f.channels + [Channel([], true)]);
    EmptyChannelAdds(f.channels);
    assert Conserved(p, g);
    forall k: Socket ensures Places(g, k) == Places(f, k) && HandCount(g, k) == HandCount(f, k) {}
    forall k: Socket ensures Places(g, k) + g.gone[k] == if k < g.accepted then 1 else 0 {
      assert Places(f, k) + f.gone[k] == if k < f.accepted then 1 else 0;
    }
  }

  lemma {:induction false} EmptyChannelAdds(channels: seq<Channel>)
    ensures var more := channels + [Channel([], true)];
            Total(more) == Total(channels) && forall k :: Count(more, k) == Count(channels, k)
  {
    var more := channels + [Channel([], true)];
    assert more[..|more| - 1] == channels;
  }

  /** `steps` is executable from `s` and ends in `t`. */
  ghost predicate Runs(p: Params, s: State, steps: seq<Step>, t: State)
    requires Inv(p, s)
    decreases |steps|
  {
    if steps == [] then s == t
    else Enabled(p, s, steps[0]) && (StepKeepsInv(p, s, steps[0]); Runs(p, Apply(p, s, steps[0]), steps[1..], t))
  }

  /** In every reachable state the permits are conserved, every accepted socket is in one place
      and has entered at most one lane queue, no slot was handed out twice, and nothing was
      accepted before the gate opened; and the gate stays open. */
  lemma {:induction false} RunsKeepInv(p: Params, s: State, steps: seq<Step>, t: State)
    requires Inv(p, s) && Runs(p, s, steps, t)
    ensures Inv(p, t)
    ensures s.gate.ready ==> t.gate.ready
    decreases |steps|
  {
    if steps != [] {
      StepKeepsInv(p, s, steps[0]);
      RunsKeepInv(p, Apply(p, s, steps[0]), steps[1..], t);
    }
  }
}
