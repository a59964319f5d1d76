/** Why an admitted connection never waits while the lanes are up, and when the gate opens. */
module ListenerPlacement {
  import opened JsonValues
  import opened Counting
  import opened Sorting
  import opened Manifests
  import opened Listener

  // ---------------------------------------------------------------- what the scan finds

  /** The lane `offset` places after `start` is registered and its queue takes another connection. */
  predicate HasRoom(p: Params, slots: seq<Slot>, channels: seq<Channel>, start: nat, offset: nat)
    requires p.lanes > 0 && |slots| == p.lanes && Wired(slots, |channels|)
  {
    var channel := slots[(start + offset) % p.lanes].channel;
    channel.Some? && Room(p, channels[channel.value])
  }

  /** The scan sends to the first lane with room in cyclic order, and blocks only if there is none. */
  lemma {:induction false} ScanFindsFirst(p: Params, slots: seq<Slot>, channels: seq<Channel>, start: nat, offset: nat) returns (found: nat)
    requires p.lanes > 0 && |slots| == p.lanes && Wired(slots, |channels|) && offset <= p.lanes
    ensures var r := ScanFrom(p, slots, channels, start, offset);
            && offset <= found <= p.lanes
            && (forall o :: offset <= o < found ==> !HasRoom(p, slots, channels, start, o))
            && (r.Sent? <==> found < p.lanes)
            && (found < p.lanes ==> HasRoom(p, slots, channels, start, found)
                                    && slots[(start + found) % p.lanes].channel == Some(r.channel))
    decreases p.lanes - offset
  {
    found := offset;
    if offset < p.lanes && !HasRoom(p, slots, channels, start, offset) {
      found := ScanFindsFirst(p, slots, channels, start, offset + 1);
    }
  }

  /** Every lane is visited. */
  lemma LaneVisited(p: Params, start: nat, lane: nat) returns (offset: nat)
    requires p.lanes > 0 && lane < p.lanes
    ensures offset < p.lanes && (start + offset) % p.lanes == lane
  {
    var at := start % p.lanes;
    offset := if lane >= at then lane - at else lane + p.lanes - at;
    assert start == p.lanes * (start / p.lanes) + at;
    var q := start / p.lanes;
    if lane >= at {
      ModuloIs(start + offset, p.lanes, q, lane);
    } else {
      assert start + offset == p.lanes * q + p.lanes + lane;
      assert p.lanes * (q + 1) == p.lanes * q + p.lanes;
      ModuloIs(start + offset, p.lanes, q + 1, lane);
    }
  }

  lemma ModuloIs(x: nat, n: nat, q: nat, r: nat)
    requires n > 0 && r < n && x == n * q + r
    ensures x % n == r
  {
    var d := x / n - q;
    assert x == n * (x / n) + x % n;
    assert n * (x / n) - n * q == n * d;
    assert n * d == r - x % n;
    MultipleIsFar(n, d);
  }

  lemma MultipleIsFar(n: nat, d: int)
    ensures d >= 1 ==> n * d >= n
    ensures d <= -1 ==> n * d <= 0 - n
  {
    if d >= 1 {
      assert n * d == n + n * (d - 1);
    } else if d <= -1 {
      assert n * d == n * (d + 1) - n;
    }
  }

  // ---------------------------------------------------------------- what a connection waits for

  ghost predicate OpenAt(p: Params, slots: seq<Slot>, channels: seq<Channel>, start: nat, offset: nat, c: nat)
    requires p.lanes > 0 && |slots| == p.lanes
  {
    slots[(start + offset) % p.lanes].channel == Some(c) && c < |channels| && channels[c].open
  }

  lemma {:induction false} ScanBlocksOn(p: Params, slots: seq<Slot>, channels: seq<Channel>, start: nat, offset: nat, c: nat)
    requires p.lanes > 0 && |slots| == p.lanes && Wired(slots, |channels|) && offset <= p.lanes
    ensures var r := ScanFrom(p, slots, channels, start, offset);
            r.Blocked? ==> (c in r.full <==> exists o :: offset <= o < p.lanes && OpenAt(p, slots, channels, start, o, c))
    decreases p.lanes - offset
  {
    if offset < p.lanes {
      ScanBlocksOn(p, slots, channels, start, offset + 1, c);
      assert OpenAt(p, slots, channels, start, offset, c) <==>
          slots[(start + offset) % p.lanes].channel == Some(c) && channels[c].open;
    }
  }

  /** A connection that has to wait waits for room in every lane whose receiver is open, and all of them
      are full. */
  lemma {:induction false} WaitsForEveryOpenLane(p: Params, s: State, c: nat)
    requires Inv(p, s) && Enabled(p, s, DoAccept) && s.flow.free > 0 && Apply(p, s, DoAccept).flow.hand.Waiting?
    ensures var hand := Apply(p, s, DoAccept).flow.hand;
            && hand.socket == s.flow.accepted
            && (c in hand.on <==>
                  exists lane :: 0 <= lane < p.lanes && s.gate.slots[lane].channel == Some(c) && s.flow.channels[c].open)
            && (c in hand.on ==> |s.flow.channels[c].queue| >= Capacity(p))
  {
    var slots, channels, start := s.gate.slots, s.flow.channels, s.flow.nextConnection;
    ScanBlocksOn(p, slots, channels, start, 0, c);
    var found := ScanFindsFirst(p, slots, channels, start, 0);
    forall lane | 0 <= lane < p.lanes && slots[lane].channel == Some(c) && channels[c].open
      ensures exists o :: 0 <= o < p.lanes && OpenAt(p, slots, channels, start, o, c)
    {
      var o := LaneVisited(p, start, lane);
      assert OpenAt(p, slots, channels, start, o, c);
    }
    if o :| 0 <= o < p.lanes && OpenAt(p, slots, channels, start, o, c) {
      assert !HasRoom(p, slots, channels, start, o);
    }
  }

  // ---------------------------------------------------------------- the pigeonhole argument

  /** The bound of a lane queue is at least one, and otherwise the least with which the queues together
      have room for every connection permit. */
  lemma CapacityIsLeast(p: Params, bound: nat)
    requires p.lanes > 0
    ensures bound >= Capacity(p) <==> bound >= 1 && p.lanes * bound >= p.maxConnections
  {
    ShareIsLeast(p.maxConnections, p.lanes, bound);
  }

  /** The lane queues together have room for every connection permit. */
  lemma QueuesHoldEveryPermit(p: Params)
    requires p.lanes > 0
    ensures p.lanes * Capacity(p) >= p.maxConnections
  {
    SharesCover(p.maxConnections, p.lanes);
    assert p.lanes * 1 >= p.lanes;
  }

  lemma {:induction false} FullChannelsHold(channels: seq<Channel>, full: set<nat>, capacity: nat)
    requires forall c :: c in full ==> c < |channels| && |channels[c].queue| >= capacity
    ensures Total(channels) >= |full| * capacity
    decreases |channels|
  {
    if channels == [] {
      assert full == {};
    } else {
      var last := |channels| - 1;
      var rest := full - {last};
      forall c | c in rest ensures c < last && |channels[..last][c].queue| >= capacity { }
      FullChannelsHold(channels[..last], rest, capacity);
      if last in full {
        assert |full| == |rest| + 1;
        assert |full| * capacity == |rest| * capacity + capacity;
      } else {
        assert rest == full;
      }
    }
  }

  function ChannelsOf(slots: seq<Slot>): set<nat> {
    set i | 0 <= i < |slots| && slots[i].channel.Some? :: slots[i].channel.value
  }

  lemma {:induction false} DistinctChannels(slots: seq<Slot>)
    requires forall i :: 0 <= i < |slots| ==> slots[i].channel.Some?
    requires forall i, j :: 0 <= i < j < |slots| ==> slots[i].channel != slots[j].channel
    ensures |ChannelsOf(slots)| == |slots|
  {
    if slots != [] {
      var last := |slots| - 1;
      DistinctChannels(slots[..last]);
      var c := slots[last].channel.value;
      assert c !in ChannelsOf(slots[..last]);
      assert ChannelsOf(slots) == ChannelsOf(slots[..last]) + {c};
    }
  }

  ghost predicate LanesOpen(s: State) {
    forall i :: 0 <= i < |s.gate.slots| && s.gate.slots[i].channel.Some? && s.gate.slots[i].channel.value < |s.flow.channels| ==>
      s.flow.channels[s.gate.slots[i].channel.value].open
  }

  /** With the gate open, every lane up and a permit free, some lane queue is not full. */
  lemma SomeLaneHasRoom(p: Params, s: State)
    requires Inv(p, s) && s.gate.ready && LanesOpen(s) && s.flow.free > 0
    ensures exists o :: 0 <= o < p.lanes && HasRoom(p, s.gate.slots, s.flow.channels, s.flow.nextConnection, o)
  {
    var slots, channels := s.gate.slots, s.flow.channels;
    if forall o :: 0 <= o < p.lanes ==> !HasRoom(p, slots, channels, s.flow.nextConnection, o) {
      forall i | 0 <= i < |slots| ensures slots[i].channel.Some? && |channels[slots[i].channel.value].queue| >= Capacity(p) {
        var o := LaneVisited(p, s.flow.nextConnection, i);
        assert !HasRoom(p, slots, channels, s.flow.nextConnection, o);
      }
      DistinctChannels(slots);
      FullChannelsHold(channels, ChannelsOf(slots), Capacity(p));
      QueuesHoldEveryPermit(p);
      assert false;
    }
  }

  lemma PlacedFromStart(p: Params, s: State) returns (offset: nat)
    requires Inv(p, s) && Enabled(p, s, DoAccept) && LanesOpen(s) && s.flow.free > 0
    ensures offset < p.lanes
    ensures forall o :: 0 <= o < offset ==> !HasRoom(p, s.gate.slots, s.flow.channels, s.flow.nextConnection, o)
    ensures HasRoom(p, s.gate.slots, s.flow.channels, s.flow.nextConnection, offset)
    ensures var lane := s.gate.slots[(s.flow.nextConnection + offset) % p.lanes].channel.value;
            Apply(p, s, DoAccept).flow == Admitted(s.flow, lane)
  {
    SomeLaneHasRoom(p, s);
    offset := ScanFindsFirst(p, s.gate.slots, s.flow.channels, s.flow.nextConnection, 0);
  }

  /** The next socket takes a permit and the next turn, and goes to this lane. */
  function Admitted(f: Flow, lane: nat): Flow
    requires f.free > 0 && lane < |f.channels| && f.channels[lane].open
  {
    f.(accepted := f.accepted + 1, free := f.free - 1, nextConnection := f.nextConnection + 1,
       channels := f.channels[lane := Channel(f.channels[lane].queue + [f.accepted], true)],
       placed := f.placed + multiset{f.accepted})
  }

  /** How many sockets got a permit in a run. */
  ghost function Admissions(p: Params, s: State, steps: seq<Step>): nat
    requires Inv(p, s)
    decreases |steps|
  {
    if steps == [] || !Enabled(p, s, steps[0]) then 0
    else
      StepKeepsInv(p, s, steps[0]);
      (if steps[0].DoAccept? && s.flow.free > 0 then 1 else 0) + Admissions(p, Apply(p, s, steps[0]), steps[1..])
  }

  lemma {:induction false} AdmissionsAreCounted(p: Params, s: State, steps: seq<Step>, t: State)
    requires Inv(p, s) && Runs(p, s, steps, t)
    ensures t.flow.nextConnection == s.flow.nextConnection + Admissions(p, s, steps)
    decreases |steps|
  {
    if steps != [] {
      StepKeepsInv(p, s, steps[0]);
      AdmissionsAreCounted(p, Apply(p, s, steps[0]), steps[1..], t);
    }
  }

  /** Round robin: in every run from the start, once every lane is registered and its receiver is open,
      the k-th connection that gets a permit is placed by the non-blocking scan, on the first lane with
      room in cyclic order from lane k modulo the number of lanes. The waiting branch is not taken. */
  lemma AdmittedConnectionIsPlaced(p: Params, steps: seq<Step>, s: State) returns (offset: nat)
    requires Proper(p) && Inv(p, Init(p)) && Runs(p, Init(p), steps, s)
    requires Enabled(p, s, DoAccept) && LanesOpen(s) && s.flow.free > 0
    ensures Inv(p, s) && offset < p.lanes
    ensures var k := Admissions(p, Init(p), steps);
            && (forall o :: 0 <= o < offset ==> !HasRoom(p, s.gate.slots, s.flow.channels, k, o))
            && HasRoom(p, s.gate.slots, s.flow.channels, k, offset)
            && var lane := s.gate.slots[(k + offset) % p.lanes].channel.value;
               var before, after := s.flow, Apply(p, s, DoAccept).flow;
               && after.hand.Empty?
               && after.channels == before.channels[lane := Channel(before.channels[lane].queue + [before.accepted], true)]
               && after.free == before.free - 1
  {
    RunsKeepInv(p, Init(p), steps, s);
    AdmissionsAreCounted(p, Init(p), steps, s);
    offset := PlacedFromStart(p, s);
  }

  // ---------------------------------------------------------------- consecutive connections

  /** Every lane takes another connection. */
  ghost predicate AllHaveRoom(p: Params, s: State) {
    p.lanes > 0 && |s.gate.slots| == p.lanes && Wired(s.gate.slots, |s.flow.channels|)
    && forall o :: 0 <= o < p.lanes ==> HasRoom(p, s.gate.slots, s.flow.channels, s.flow.nextConnection, o)
  }

  /** The channel of the lane `o` places after the next one. */
  function LaneAt(p: Params, s: State, o: nat): nat
    requires p.lanes > 0 && |s.gate.slots| == p.lanes && s.gate.slots[(s.flow.nextConnection + o) % p.lanes].channel.Some?
  {
    s.gate.slots[(s.flow.nextConnection + o) % p.lanes].channel.value
  }

  /** `n` accepts in a row. */
  ghost function Accepts(n: nat): seq<Step> { seq(n, _ => DoAccept) }

  lemma {:induction false} RemaindersDiffer(n: nat, a: nat, i: nat, j: nat)
    requires 0 < n && i < j < i + n
    ensures (a + i) % n != (a + j) % n
  {
    if (a + i) % n == (a + j) % n {
      DivisionIs(a + i, n);
      DivisionIs(a + j, n);
      var d := (a + j) / n - (a + i) / n;
      assert a + i == n * ((a + i) / n) + (a + i) % n && a + j == n * ((a + j) / n) + (a + j) % n;
      assert n * ((a + j) / n) - n * ((a + i) / n) == n * d;
      assert n * d == j - i;
      MultipleIsFar(n, d);
    }
  }

  /** As many consecutive connections as there are lanes, each with room, go to as many different lanes,
      one after the other. */
  lemma {:induction false} ConsecutiveConnectionsSpread(p: Params, s: State, n: nat) returns (t: State)
    requires Inv(p, s) && s.gate.ready && s.flow.hand.Empty? && LanesOpen(s) && AllHaveRoom(p, s)
    requires n <= p.lanes && n <= s.flow.free
    ensures Runs(p, s, Accepts(n), t)
    ensures t.gate == s.gate && t.flow.hand.Empty? && t.flow.free == s.flow.free - n && t.flow.accepted == s.flow.accepted + n
    ensures t.flow.nextConnection == s.flow.nextConnection + n && |t.flow.channels| == |s.flow.channels|
    ensures forall o :: 0 <= o < p.lanes ==>
              t.flow.channels[LaneAt(p, s, o)] ==
                if o < n then Channel(s.flow.channels[LaneAt(p, s, o)].queue + [s.flow.accepted + o], true) else s.flow.channels[LaneAt(p, s, o)]
    decreases n
  {
    t := s;
    if n == 0 {
      assert Accepts(0) == [];
    } else {
      var u := ConsecutiveConnectionsSpread(p, s, n - 1);
      RunsKeepInv(p, s, Accepts(n - 1), u);
      t := AcceptNext(p, s, n - 1, u);
      assert Accepts(n) == Accepts(n - 1) + [DoAccept];
      RunsOn(p, s, Accepts(n - 1), u, DoAccept);
    }
  }

  lemma {:induction false} RunsOn(p: Params, s: State, steps: seq<Step>, t: State, step: Step)
    requires Inv(p, s) && Runs(p, s, steps, t) && Inv(p, t) && Enabled(p, t, step)
    ensures Runs(p, s, steps + [step], Apply(p, t, step))
    decreases |steps|
  {
    if steps == [] {
      assert steps + [step] == [step] && [step][1..] == [];
      StepKeepsInv(p, s, step);
      assert Runs(p, Apply(p, s, step), [], Apply(p, t, step));
    } else {
      StepKeepsInv(p, s, steps[0]);
      RunsOn(p, Apply(p, s, steps[0]), steps[1..], t, step);
      assert (steps + [step])[0] == steps[0] && (steps + [step])[1..] == steps[1..] + [step];
    }
  }

  /** After some of them, the next one finds its lane as it was. */
  lemma {:induction false} AcceptNext(p: Params, s: State, m: nat, u: State) returns (t: State)
    requires Inv(p, s) && Inv(p, u) && s.gate.ready && LanesOpen(s) && AllHaveRoom(p, s) && m < p.lanes && m < s.flow.free
    requires u.gate == s.gate && u.flow.hand.Empty? && u.flow.free == s.flow.free - m && u.flow.accepted == s.flow.accepted + m
    requires u.flow.nextConnection == s.flow.nextConnection + m && |u.flow.channels| == |s.flow.channels|
    requires forall o :: 0 <= o < p.lanes ==>
               u.flow.channels[LaneAt(p, s, o)] ==
                 if o < m then Channel(s.flow.channels[LaneAt(p, s, o)].queue + [s.flow.accepted + o], true) else s.flow.channels[LaneAt(p, s, o)]
    ensures Enabled(p, u, DoAccept) && t == Apply(p, u, DoAccept)
    ensures t.gate == s.gate && t.flow.hand.Empty? && t.flow.free == s.flow.free - m - 1 && t.flow.accepted == s.flow.accepted + m + 1
    ensures t.flow.nextConnection == s.flow.nextConnection + m + 1 && |t.flow.channels| == |s.flow.channels|
    ensures forall o :: 0 <= o < p.lanes ==>
              t.flow.channels[LaneAt(p, s, o)] ==
                if o <= m then Channel(s.flow.channels[LaneAt(p, s, o)].queue + [s.flow.accepted + o], true) else s.flow.channels[LaneAt(p, s, o)]
  {
    t := Apply(p, u, DoAccept);
    var lane := LaneAt(p, s, m);
    assert HasRoom(p, s.gate.slots, s.flow.channels, s.flow.nextConnection, m);
    assert u.flow.channels[lane] == s.flow.channels[lane];
    PlacedAtOnce(p, u, lane);
    forall o | 0 <= o < p.lanes && o != m ensures LaneAt(p, s, o) != lane {
      OtherLane(p, s, o, m);
    }
  }

  lemma {:induction false} PlacedAtOnce(p: Params, s: State, lane: nat)
    requires Inv(p, s) && Enabled(p, s, DoAccept) && s.flow.free > 0
    requires s.gate.slots[s.flow.nextConnection % p.lanes].channel == Some(lane) && Room(p, s.flow.channels[lane])
    ensures Apply(p, s, DoAccept) == s.(flow := Admitted(s.flow, lane))
  {
    assert HasRoom(p, s.gate.slots, s.flow.channels, s.flow.nextConnection, 0);
    var found := ScanFindsFirst(p, s.gate.slots, s.flow.channels, s.flow.nextConnection, 0);
  }

  lemma {:induction false} OtherLane(p: Params, s: State, o: nat, m: nat)
    requires Inv(p, s) && AllHaveRoom(p, s) && o < p.lanes && m < p.lanes && o != m
    ensures HasRoom(p, s.gate.slots, s.flow.channels, s.flow.nextConnection, o)
    ensures HasRoom(p, s.gate.slots, s.flow.channels, s.flow.nextConnection, m)
    ensures LaneAt(p, s, o) != LaneAt(p, s, m)
  {
    if o < m { RemaindersDiffer(p.lanes, s.flow.nextConnection, o, m); } else { RemaindersDiffer(p.lanes, s.flow.nextConnection, m, o); }
    LanesAreDistinct(p, s, o, m);
  }

  lemma {:induction false} LanesAreDistinct(p: Params, s: State, o: nat, m: nat)
    requires Inv(p, s) && o < p.lanes && m < p.lanes
    requires HasRoom(p, s.gate.slots, s.flow.channels, s.flow.nextConnection, o)
    requires HasRoom(p, s.gate.slots, s.flow.channels, s.flow.nextConnection, m)
    requires (s.flow.nextConnection + o) % p.lanes != (s.flow.nextConnection + m) % p.lanes
    ensures LaneAt(p, s, o) != LaneAt(p, s, m)
  {
  }

  // ---------------------------------------------------------------- no waiting

  ghost predicate AllUp(f: Flow) { f.hand.Empty? && forall c :: 0 <= c < |f.channels| ==> f.channels[c].open }

  lemma {:induction false} AcceptStaysUp(p: Params, s: State)
    requires Inv(p, s) && AllUp(s.flow) && Enabled(p, s, DoAccept)
    ensures AllUp(Apply(p, s, DoAccept).flow)
  {
    if s.flow.free > 0 {
      var _ := PlacedFromStart(p, s);
    }
  }

  lemma {:induction false} StepStaysUp(p: Params, s: State, step: Step)
    requires Inv(p, s) && AllUp(s.flow) && Enabled(p, s, step) && !step.DoClose?
    ensures AllUp(Apply(p, s, step).flow)
  {
    if step.DoAccept? {
      AcceptStaysUp(p, s);
    }
  }

  /** While no lane goes down the acceptor never waits. */
  lemma {:induction false} NeverWaitsWhileLanesAreUp(p: Params, s: State, steps: seq<Step>, t: State)
    requires Inv(p, s) && Runs(p, s, steps, t)
    requires AllUp(s.flow) && forall i :: 0 <= i < |steps| ==> !steps[i].DoClose?
    ensures AllUp(t.flow)
    decreases |steps|
  {
    if steps != [] {
      StepKeepsInv(p, s, steps[0]);
      StepStaysUp(p, s, steps[0]);
      NeverWaitsWhileLanesAreUp(p, Apply(p, s, steps[0]), steps[1..], t);
    }
  }

  // ---------------------------------------------------------------- handing out slots

  /** The k-th call of `allocate_replica`, if no slot was asked for by number, hands out slot k. */
  ghost function AllocateTimes(g: Gate, n: nat): Gate { if n == 0 then g else Allocate(AllocateTimes(g, n - 1)) }

  lemma {:induction false} AllocationsCountUp(p: Params, n: nat)
    ensures var g := AllocateTimes(Init(p).gate, n);
            && g.nextSlot == n && |g.slots| == p.lanes
            && g.handed == seq(if n <= p.lanes then n else p.lanes, i => i)
            && forall i :: 0 <= i < p.lanes ==> (g.slots[i].taken <==> i < n)
  {
    if n > 0 {
      AllocationsCountUp(p, n - 1);
    }
  }

  // ---------------------------------------------------------------- the ready gate

  datatype Registration = Registration(slot: nat, routes: seq<Route>, middleware: seq<string>)

  function ManifestOf(r: Registration): Manifest { NewManifest(r.middleware, r.routes) }

  function RegisterAll(s: State, regs: seq<Registration>): (t: State)
    requires forall r :: r in regs ==> r.slot < |s.gate.slots|
    ensures |t.gate.slots| == |s.gate.slots|
  {
    if regs == [] then s
    else Register(RegisterAll(s, regs[..|regs| - 1]), regs[|regs| - 1].slot, ManifestOf(regs[|regs| - 1]))
  }

  ghost predicate Covered(regs: seq<Registration>, slot: nat) {
    exists i :: 0 <= i < |regs| && regs[i].slot == slot
  }

  ghost predicate DistinctSlots(p: Params, regs: seq<Registration>) {
    && (forall i :: 0 <= i < |regs| ==> regs[i].slot < p.lanes)
    && (forall i, j :: 0 <= i < j < |regs| ==> regs[i].slot != regs[j].slot)
  }

  /** One registration per slot, in any order. */
  ghost predicate OnePerSlot(p: Params, regs: seq<Registration>) {
    DistinctSlots(p, regs) && forall slot :: 0 <= slot < p.lanes ==> Covered(regs, slot)
  }

  /** After some registrations of distinct slots, exactly those whose manifest equals the first
      one's have taken effect. */
  ghost predicate Accumulated(p: Params, regs: seq<Registration>, g: Gate) {
    && |g.slots| == p.lanes && DistinctSlots(p, regs)
    && g.ready == AllRegistered(g.slots)
    && g.canonical == (if regs == [] then None else Some(ManifestOf(regs[0])))
    && (forall i :: 0 <= i < |regs| ==>
          (g.slots[regs[i].slot].manifest.Some? <==> ManifestOf(regs[i]) == ManifestOf(regs[0])))
    && (forall slot :: 0 <= slot < p.lanes && !Covered(regs, slot) ==> g.slots[slot].manifest.None?)
  }

  lemma AccumulateOne(p: Params, regs: seq<Registration>, g: Gate, last: Registration, channel: nat)
    requires Accumulated(p, regs, g) && DistinctSlots(p, regs + [last]) && last.slot < p.lanes
    ensures var h := if Admissible(g, ManifestOf(last)) then RegisterGate(g, last.slot, ManifestOf(last), channel) else g;
            Accumulated(p, regs + [last], h)
  {
    var all := regs + [last];
    assert all[|regs|] == last && forall i :: 0 <= i < |regs| ==> all[i] == regs[i];
    assert !Covered(regs, last.slot);
    assert g.slots[last.slot].manifest.None? && !g.ready;
    forall slot | 0 <= slot < p.lanes && !Covered(all, slot) ensures !Covered(regs, slot) && slot != last.slot {
      assert all[|regs|].slot != slot;
    }
  }

  lemma NothingAccumulated(p: Params)
    requires Proper(p)
    ensures Accumulated(p, [], Init(p).gate)
  {
    assert Init(p).gate.slots[0].manifest.None?;
  }

  lemma {:induction false} RegisterAllStep(s: State, prefix: seq<Registration>, last: Registration)
    requires forall r :: r in prefix + [last] ==> r.slot < |s.gate.slots|
    ensures forall r :: r in prefix ==> r in prefix + [last]
    ensures last in prefix + [last]
    ensures RegisterAll(s, prefix + [last]) == Register(RegisterAll(s, prefix), last.slot, ManifestOf(last))
  {
    assert (prefix + [last])[..|prefix|] == prefix;
  }

  lemma {:induction false} RegistrationsAccumulate(p: Params, regs: seq<Registration>)
    requires Proper(p) && DistinctSlots(p, regs)
    ensures Accumulated(p, regs, RegisterAll(Init(p), regs).gate)
  {
    if regs == [] {
      NothingAccumulated(p);
    } else {
      var last := regs[|regs| - 1];
      var prefix := regs[..|regs| - 1];
      RegistrationsAccumulate(p, prefix);
      assert prefix + [last] == regs;
      RegisterAllStep(Init(p), prefix, last);
      var before := RegisterAll(Init(p), prefix);
      AccumulateOne(p, prefix, before.gate, last, |before.flow.channels|);
    }
  }

  ghost predicate SamePolicy(a: Registration, b: Registration) {
    a.middleware == b.middleware && multiset(a.routes) == multiset(b.routes)
  }

  /** For every order of one registration per slot the gate opens exactly when all lanes own the
      same routes, in any order, and run the same middleware in the same order. */
  lemma GateOpensIff(p: Params, regs: seq<Registration>)
    requires Proper(p) && OnePerSlot(p, regs)
    ensures RegisterAll(Init(p), regs).gate.ready
       <==> forall i, j :: 0 <= i < |regs| && 0 <= j < |regs| ==> SamePolicy(regs[i], regs[j])
  {
    RegistrationsAccumulate(p, regs);
    var g := RegisterAll(Init(p), regs).gate;
    GateOpensOnManifests(p, regs, g);
    forall i | 0 <= i < |regs| ensures ManifestOf(regs[i]) == ManifestOf(regs[0]) <==> SamePolicy(regs[i], regs[0]) {
      ManifestsEqualIff(regs[i].middleware, regs[i].routes, regs[0].middleware, regs[0].routes);
    }
  }

  lemma GateOpensOnManifests(p: Params, regs: seq<Registration>, g: Gate)
    requires OnePerSlot(p, regs) && Accumulated(p, regs, g)
    ensures g.ready <==> forall i :: 0 <= i < |regs| ==> ManifestOf(regs[i]) == ManifestOf(regs[0])
  {
    if !g.ready {
      var slot :| 0 <= slot < p.lanes && g.slots[slot].manifest.None?;
      assert Covered(regs, slot);
      var i :| 0 <= i < |regs| && regs[i].slot == slot;
    }
  }

  function Matches(first: Registration): Registration -> bool { r => ManifestOf(r) == ManifestOf(first) }

  /** The registrations that publish what the first one published. */
  function Matching(regs: seq<Registration>): seq<Registration> {
    if regs == [] then [] else Filter(Matches(regs[0]), regs)
  }

  lemma {:induction false} MatchingMembers(regs: seq<Registration>, r: Registration)
    requires r in Matching(regs)
    ensures r in regs
  {
    FilterMembers(Matches(regs[0]), regs, r);
  }

  lemma {:induction false} MatchingStep(prefix: seq<Registration>, last: Registration)
    requires prefix != []
    ensures Matching(prefix + [last]) == if Matches(prefix[0])(last) then Matching(prefix) + [last] else Matching(prefix)
  {
    assert (prefix + [last])[0] == prefix[0];
    FilterJoins(Matches(prefix[0]), prefix, [last]);
    FilterUnfolds(Matches(prefix[0]), last, []);
    assert [last] + [] == [last];
    assert Matching(prefix) + [] == Matching(prefix);
  }

  lemma {:induction false} MatchingOne(r: Registration)
    ensures Matching([r]) == [r]
  {
    assert [r] + [] == [r];
    FilterUnfolds(Matches(r), r, []);
  }

  lemma {:induction false} CanonicalDecides(s: State, r: Registration, canonical: Manifest)
    requires r.slot < |s.gate.slots| && s.gate.canonical == Some(canonical)
    ensures var t := Register(s, r.slot, ManifestOf(r));
            t.gate.canonical == Some(canonical) && (ManifestOf(r) != canonical ==> t == s)
  {
  }

  lemma {:induction false} RegisterDecides(s: State, slot: nat, manifest: Manifest)
    requires slot < |s.gate.slots| && s.gate.canonical.None?
    ensures Register(s, slot, manifest).gate.canonical == Some(manifest)
  {
  }

  lemma {:induction false} FirstIsCanonical(s: State, r: Registration)
    requires r.slot < |s.gate.slots| && s.gate.canonical.None?
    ensures RegisterAll(s, [r]).gate.canonical == Some(ManifestOf(r))
  {
    var none: seq<Registration> := [];
    RegisterAllStep(s, none, r);
    assert none + [r] == [r];
    assert RegisterAll(s, none) == s;
    RegisterDecides(s, r.slot, ManifestOf(r));
  }

  lemma {:induction false} TraceStep(s: State, prefix: seq<Registration>, last: Registration)
    requires prefix != [] && last.slot < |s.gate.slots|
    requires forall r :: r in prefix ==> r.slot < |s.gate.slots|
    requires forall r :: r in Matching(prefix) ==> r.slot < |s.gate.slots|
    requires RegisterAll(s, prefix) == RegisterAll(s, Matching(prefix))
    requires RegisterAll(s, prefix).gate.canonical == Some(ManifestOf(prefix[0]))
    ensures RegisterAll(s, prefix + [last]).gate.canonical == Some(ManifestOf(prefix[0]))
    ensures Matches(prefix[0])(last) ==> RegisterAll(s, prefix + [last]) == RegisterAll(s, Matching(prefix) + [last])
    ensures !Matches(prefix[0])(last) ==> RegisterAll(s, prefix + [last]) == RegisterAll(s, Matching(prefix))
  {
    RegisterAllStep(s, prefix, last);
    RegisterAllStep(s, Matching(prefix), last);
    CanonicalDecides(RegisterAll(s, prefix), last, ManifestOf(prefix[0]));
  }

  lemma {:induction false} OnlyMatchingOnesCount(s: State, regs: seq<Registration>)
    requires s.gate.canonical.None? && forall r :: r in regs ==> r.slot < |s.gate.slots|
    ensures forall r :: r in Matching(regs) ==> r.slot < |s.gate.slots|
    ensures RegisterAll(s, regs) == RegisterAll(s, Matching(regs))
    ensures regs != [] ==> RegisterAll(s, regs).gate.canonical == Some(ManifestOf(regs[0]))
    decreases |regs|
  {
    forall r | r in Matching(regs) ensures r.slot < |s.gate.slots| { MatchingMembers(regs, r); }
    if |regs| == 1 {
      assert regs == [regs[0]];
      MatchingOne(regs[0]);
      FirstIsCanonical(s, regs[0]);
    } else if |regs| > 1 {
      var prefix, last := regs[..|regs| - 1], regs[|regs| - 1];
      assert regs == prefix + [last];
      OnlyMatchingOnesCount(s, prefix);
      MatchingStep(prefix, last);
      TraceStep(s, prefix, last);
    }
  }

  /** A refused registration leaves no trace: after any registrations, repeated slots included, the
      whole state is what the matching ones alone produce. */
  lemma {:induction false} RefusedRegistrationsLeaveNoTrace(p: Params, regs: seq<Registration>)
    requires forall r :: r in regs ==> r.slot < p.lanes
    ensures forall r :: r in Matching(regs) ==> r.slot < p.lanes
    ensures RegisterAll(Init(p), regs) == RegisterAll(Init(p), Matching(regs))
    ensures regs != [] ==> RegisterAll(Init(p), regs).gate.canonical == Some(ManifestOf(regs[0]))
  {
    OnlyMatchingOnesCount(Init(p), regs);
  }
}
