/** The listener coordinator as an object: its fields under the mutex, its counters, and the
    channels it sends to. Each method is one step of `Listener`. */
module Coordinator {
  import opened JsonValues
  import opened Manifests
  import opened Listener

  class ListenerCoordinator {
    const p: Params
    var slots: seq<Slot>
    var canonical: Option<Manifest>
    var ready: bool
    var nextSlot: nat
    var nextConnection: nat
    var freeConnections: nat
    var waiting: Hand
    var channels: seq<Channel>
    var accepted: nat // numbers the sockets
    ghost var handed: seq<nat>
    ghost var serving: multiset<Socket>
    ghost var gone: multiset<Socket>
    ghost var placed: multiset<Socket>

    ghost function View(): State
      reads this
    {
      State(Gate(slots, canonical, ready, nextSlot, handed),
            Flow(nextConnection, freeConnections, waiting, channels, serving, accepted, gone, placed))
    }

    ghost predicate Valid()
      reads this
    {
      Inv(p, View())
    }

    constructor (replicas: nat, maxConnections: nat)
      requires replicas > 0
      ensures p == Params(replicas, maxConnections) && View() == Init(p) && Valid()
    {
      p := Params(replicas, maxConnections);
      slots := seq(replicas, i => Slot(false, None, None));
      canonical, ready, nextSlot, nextConnection := None, false, 0, 0;
      freeConnections, waiting, channels := maxConnections, Empty, [];
      handed, serving, accepted, gone, placed := [], multiset{}, 0, multiset{}, multiset{};
      new;
      InitEstablishesInv(p);
      assert View().gate.slots == Init(p).gate.slots;
    }

    /** Hands out `slot` unless it does not exist or was handed out before. */
    method AllocateReplicaAt(slot: nat) returns (r: Result<nat>)
      requires Valid()
      modifies this
      ensures Valid() && View() == old(View()).(gate := AllocateAt(old(View()).gate, slot))
      ensures r.Ok? <==> slot < old(|slots|) && slot !in old(handed)
      ensures r == Ok(slot) || r.Err?
      ensures handed == if r.Ok? then old(handed) + [slot] else old(handed)
    {
      StepKeepsInv(p, View(), DoAllocateAt(slot));
      if slot >= |slots| || slots[slot].taken {
        return Err;
      }
      slots := slots[slot := slots[slot].(taken := true)];
      handed := handed + [slot];
      r := Ok(slot);
    }

    /** Hands out the slot named by a bare counter; taken slots are not skipped. */
    method AllocateReplica() returns (r: Result<nat>)
      requires Valid()
      modifies this
      ensures Valid() && View() == old(View()).(gate := Allocate(old(View()).gate))
      ensures r.Ok? <==> old(nextSlot) < old(|slots|) && old(nextSlot) !in old(handed)
      ensures handed == if r.Ok? then old(handed) + [old(nextSlot)] else old(handed)
    {
      var slot := nextSlot;
      nextSlot := nextSlot + 1;
      r := AllocateReplicaAt(slot);
    }

    /** Registers a lane; the result names the channel its connections arrive on. */
    method RegisterReplica(slot: nat, routes: seq<Route>, middleware: seq<string>) returns (r: Result<nat>)
      requires Valid() && slot < |slots| && slots[slot].taken
      modifies this
      ensures Valid() && View() == Register(old(View()), slot, NewManifest(middleware, routes))
      ensures r.Ok? <==> old(canonical).None? || old(canonical) == Some(NewManifest(middleware, routes))
      ensures r.Err? ==> View() == old(View())
    {
      StepKeepsInv(p, View(), DoRegister(slot, NewManifest(middleware, routes)));
      r := Publish(slot, NewManifest(middleware, routes));
    }

    method Publish(slot: nat, manifest: Manifest) returns (r: Result<nat>)
      requires slot < |slots|
      modifies this
      ensures View() == Register(old(View()), slot, manifest)
      ensures r == if Admissible(old(View()).gate, manifest) then Ok(old(|channels|)) else Err
    {
      if canonical.Some? && canonical.value != manifest {
        return Err;
      }
      canonical := Some(manifest);
      slots := slots[slot := slots[slot].(manifest := Some(manifest), channel := Some(|channels|))];
      r := Ok(|channels|);
      channels := channels + [Channel([], true)];
      if AllRegistered(slots) {
        ready := true;
      }
    }

    /** Tries each lane in turn: the first channel with room, or the open channels that are full. */
    method OfferToLanes(start: nat) returns (r: Scan)
      requires p.lanes > 0 && |slots| == p.lanes && Wired(slots, |channels|)
      ensures r == ScanFrom(p, slots, channels, start, 0)
    {
      var full: seq<nat> := [];
      ghost var scan := ScanFrom(p, slots, channels, start, 0);
      for offset := 0 to p.lanes
        invariant var rest := ScanFrom(p, slots, channels, start, offset);
                  scan == if rest.Sent? then rest else Blocked(full + rest.full)
      {
        var channel := slots[(start + offset) % p.lanes].channel;
        if channel.Some? {
          if Room(p, channels[channel.value]) {
            return Sent(channel.value);
          }
          if channels[channel.value].open {
            full := full + [channel.value];
          }
        }
      }
      r := Blocked(full);
    }

    /** Takes a permit for a new socket and sends the connection to a lane, or starts to wait. */
    method DistributeConnection()
      requires Valid() && ready && waiting.Empty?
      modifies this
      ensures Valid() && View() == Apply(p, old(View()), DoAccept)
    {
      StepKeepsInv(p, View(), DoAccept);
      PlaceConnection();
    }

    method PlaceConnection()
      requires p.lanes > 0 && |slots| == p.lanes && Wired(slots, |channels|)
      modifies this
      ensures View() == old(View()).(flow := Distribute(p, old(slots), old(View()).flow))
    {
      if freeConnections == 0 {
        gone := gone + multiset{accepted};
        accepted := accepted + 1;
      } else {
        var scan := OfferToLanes(nextConnection);
        Commit(scan);
      }
    }

    method Commit(scan: Scan)
      requires freeConnections > 0 && (scan.Sent? ==> scan.channel < |channels|)
      modifies this
      ensures View() == old(View()).(flow := Settle(old(View()).flow, scan))
    {
      var socket := accepted;
      accepted, freeConnections, nextConnection := accepted + 1, freeConnections - 1, nextConnection + 1;
      match scan
      case Sent(channel) =>
        channels := channels[channel := channels[channel].(queue := channels[channel].queue + [socket])];
        placed := placed + multiset{socket};
      case Blocked(full) =>
        waiting := Waiting(socket, full);
    }

    /** A reservation succeeds: the waiting connection goes to that lane, its permit with it. */
    method SendReserved(channel: nat)
      requires Valid() && Enabled(p, View(), DoGrant(channel))
      modifies this
      ensures Valid() && View() == Apply(p, old(View()), DoGrant(channel))
    {
      StepKeepsInv(p, View(), DoGrant(channel));
      PushWaiting(channel);
    }

    method PushWaiting(channel: nat)
      requires waiting.Waiting? && channel < |channels|
      modifies this`channels, this`waiting, this`placed
      ensures View() == old(View()).(flow := Grant(old(View()).flow, channel))
    {
      var socket := waiting.socket;
      channels := channels[channel := channels[channel].(queue := channels[channel].queue + [socket])];
      placed, waiting := placed + multiset{socket}, Empty;
    }

    /** Every reservation failed: the waiting connection is dropped and its permit is free again. */
    method DropWaiting()
      requires Valid() && Enabled(p, View(), DoGiveUp)
      modifies this
      ensures Valid() && View() == Apply(p, old(View()), DoGiveUp)
    {
      StepKeepsInv(p, View(), DoGiveUp);
      ForgetWaiting();
    }

    method ForgetWaiting()
      requires waiting.Waiting?
      modifies this`freeConnections, this`waiting, this`gone
      ensures View() == old(View()).(flow := GiveUp(old(View()).flow))
    {
      gone, freeConnections := gone + multiset{waiting.socket}, freeConnections + 1;
      waiting := Empty;
    }
  }
}
