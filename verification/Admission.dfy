/** Request admission over replicated lanes: a lane permit first, then one of the global permits.

    Each request is a token; a semaphore is its number of free permits. Every interleaving of
    arrivals, acquisitions, cancellations and completions is a run of `Step`. On the socket
    transport a request completes when its response head exists. */
module Admission {
  import opened Counting

  datatype Phase = WantsLane | WantsGlobal | Running

  datatype Request = Request(lane: nat, phase: Phase)

  datatype Limits = Limits(lanes: nat, maxRequests: nat)

  ghost predicate Proper(l: Limits) { l.lanes > 0 && l.maxRequests > 0 }

  function LaneLimit(l: Limits): nat
    requires l.lanes > 0
  {
    DivCeil(l.maxRequests, l.lanes)
  }

  datatype State = State(requests: map<nat, Request>, laneFree: seq<nat>, globalFree: nat)

  datatype Step = Arrive(id: nat, lane: nat) | TakeLane(id: nat) | TakeGlobal(id: nat) | Cancel(id: nat) | Complete(id: nat)

  function Init(l: Limits): State
    requires l.lanes > 0
  {
    State(map[], seq(l.lanes, _ => LaneLimit(l)), l.maxRequests)
  }

  predicate Enabled(s: State, step: Step) {
    match step
    case Arrive(id, lane) => id !in s.requests && lane < |s.laneFree|
    case TakeLane(id) => id in s.requests && s.requests[id].phase.WantsLane? && s.requests[id].lane < |s.laneFree| && s.laneFree[s.requests[id].lane] > 0
    case TakeGlobal(id) => id in s.requests && s.requests[id].phase.WantsGlobal? && s.globalFree > 0
    case Cancel(id) => id in s.requests && !s.requests[id].phase.Running? && s.requests[id].lane < |s.laneFree|
    case Complete(id) => id in s.requests && s.requests[id].phase.Running? && s.requests[id].lane < |s.laneFree|
  }

  function Apply(s: State, step: Step): State
    requires Enabled(s, step)
  {
    match step
    case Arrive(id, lane) => s.(requests := s.requests[id := Request(lane, WantsLane)])
    case TakeLane(id) =>
      var lane := s.requests[id].lane;
      s.(requests := s.requests[id := Request(lane, WantsGlobal)], laneFree := s.laneFree[lane := s.laneFree[lane] - 1])
    case TakeGlobal(id) =>
      s.(requests := s.requests[id := s.requests[id].(phase := Running)], globalFree := s.globalFree - 1)
    case Cancel(id) =>
      var Request(lane, phase) := s.requests[id];
      // a request cancelled between the two acquisitions drops its lane permit
      s.(requests := s.requests - {id},
         laneFree := if phase.WantsGlobal? then s.laneFree[lane := s.laneFree[lane] + 1] else s.laneFree)
    case Complete(id) =>
      var lane := s.requests[id].lane;
      s.(requests := s.requests - {id}, laneFree := s.laneFree[lane := s.laneFree[lane] + 1], globalFree := s.globalFree + 1)
  }

  // ---------------------------------------------------------------- counting tokens

  function Present(s: State, lane: nat): set<nat> {
    set id | id in s.requests && s.requests[id].lane == lane
  }

  /** Requests that hold a permit of `lane`. */
  function Holding(s: State, lane: nat): set<nat> {
    set id | id in s.requests && s.requests[id].lane == lane && !s.requests[id].phase.WantsLane?
  }

  function RunningIn(s: State, lane: nat): set<nat> {
    set id | id in s.requests && s.requests[id].lane == lane && s.requests[id].phase.Running?
  }

  function AllRunning(s: State): set<nat> {
    set id | id in s.requests && s.requests[id].phase.Running?
  }

  ghost predicate Inv(l: Limits, s: State) {
    && Proper(l) && |s.laneFree| == l.lanes
    && (forall id :: id in s.requests ==> s.requests[id].lane < l.lanes)
    && s.globalFree + |AllRunning(s)| == l.maxRequests
    && (forall lane :: 0 <= lane < l.lanes ==> s.laneFree[lane] + |Holding(s, lane)| == LaneLimit(l))
  }

  lemma InitEstablishesInv(l: Limits)
    requires Proper(l)
    ensures Inv(l, Init(l))
  {
    var s := Init(l);
    assert AllRunning(s) == {};
    forall lane | 0 <= lane < l.lanes ensures Holding(s, lane) == {} { }
  }

  /** How one step changes the two counted sets: nobody but `id` moves. */
  lemma StepMovesOne(s: State, step: Step)
    requires Enabled(s, step)
    ensures var t := Apply(s, step);
            && AllRunning(t) == (match step
                                 case TakeGlobal(id) => AllRunning(s) + {id}
                                 case Complete(id) => AllRunning(s) - {id}
                                 case _ => AllRunning(s))
            && (forall lane :: Holding(t, lane) ==
                 (match step
                  case TakeLane(id) => if s.requests[id].lane == lane then Holding(s, lane) + {id} else Holding(s, lane)
                  case Cancel(id) => Holding(s, lane) - {id}
                  case Complete(id) => Holding(s, lane) - {id}
                  case _ => Holding(s, lane)))
  {
  }

  /** Permits are conserved by every step. */
  lemma {:induction false} StepKeepsInv(l: Limits, s: State, step: Step)
    requires Inv(l, s) && Enabled(s, step)
    ensures Inv(l, Apply(s, step))
  {
    StepMovesOne(s, step);
    var t := Apply(s, step);
    forall lane | 0 <= lane < l.lanes ensures t.laneFree[lane] + |Holding(t, lane)| == LaneLimit(l) {
      assert s.laneFree[lane] + |Holding(s, lane)| == LaneLimit(l);
      match step
      case TakeLane(id) => assert id !in Holding(s, lane);
      case Cancel(id) => assert id in Holding(s, lane) <==> s.requests[id] == Request(lane, WantsGlobal);
      case Complete(id) => assert id in Holding(s, lane) <==> s.requests[id].lane == lane;
      case _ =>
    }
    match step
    case TakeGlobal(id) => assert id !in AllRunning(s);
    case Complete(id) => assert id in AllRunning(s);
    case _ =>
  }

  ghost predicate Runs(s: State, steps: seq<Step>, t: State)
    decreases |steps|
  {
    if steps == [] then s == t else Enabled(s, steps[0]) && Runs(Apply(s, steps[0]), steps[1..], t)
  }

  lemma {:induction false} RunsKeepInv(l: Limits, s: State, steps: seq<Step>, t: State)
    requires Inv(l, s) && Runs(s, steps, t)
    ensures Inv(l, t)
    decreases |steps|
  {
    if steps != [] {
      StepKeepsInv(l, s, steps[0]);
      RunsKeepInv(l, Apply(s, steps[0]), steps[1..], t);
    }
  }

  // ---------------------------------------------------------------- what that means

  /** In every reachable state at most `maxRequests` requests run, and in each lane at most any share
      with which the lanes together could run them all. */
  lemma RunningIsBounded(l: Limits, steps: seq<Step>, s: State, lane: nat, share: nat)
    requires Proper(l) && Runs(Init(l), steps, s) && lane < l.lanes && l.lanes * share >= l.maxRequests
    ensures |AllRunning(s)| <= l.maxRequests && |RunningIn(s, lane)| <= share
  {
    InitEstablishesInv(l);
    RunsKeepInv(l, Init(l), steps, s);
    assert RunningIn(s, lane) <= Holding(s, lane);
    SubsetIsSmaller(RunningIn(s, lane), Holding(s, lane));
    ShareIsLeast(l.maxRequests, l.lanes, share);
  }

  ghost predicate CanAcquire(s: State) {
    exists id :: id in s.requests && (Enabled(s, TakeLane(id)) || Enabled(s, TakeGlobal(id)))
  }

  /** No deadlock: while requests wait and none runs, some request can take its next permit. */
  lemma SomeoneProceeds(l: Limits, s: State, waiting: nat)
    requires Inv(l, s) && waiting in s.requests && AllRunning(s) == {}
    ensures CanAcquire(s)
  {
    var lane := s.requests[waiting].lane;
    SharesCover(l.maxRequests, l.lanes);
    if s.requests[waiting].phase.WantsGlobal? {
      assert Enabled(s, TakeGlobal(waiting));
    } else {
      assert waiting !in AllRunning(s);
      if Holding(s, lane) == {} {
        assert Enabled(s, TakeLane(waiting));
      } else {
        var id :| id in Holding(s, lane);
        assert id !in AllRunning(s);
        assert Enabled(s, TakeGlobal(id));
      }
    }
  }

  function RunningBelow(s: State, lane: nat): set<nat> {
    set id | id in s.requests && s.requests[id].lane < lane && s.requests[id].phase.Running?
  }

  lemma {:induction false} FullLanesRun(s: State, lanes: nat, share: nat)
    requires forall lane :: 0 <= lane < lanes ==> |RunningIn(s, lane)| >= share
    ensures |RunningBelow(s, lanes)| >= lanes * share
  {
    if lanes > 0 {
      FullLanesRun(s, lanes - 1, share);
      var below, here := RunningBelow(s, lanes - 1), RunningIn(s, lanes - 1);
      assert RunningBelow(s, lanes) == below + here && below !! here;
      assert |below + here| == |below| + |here|;
      assert lanes * share == (lanes - 1) * share + share;
    }
  }

  /** A free global permit that nobody can take means every loaded lane runs its whole share. */
  lemma StalledLaneIsFull(l: Limits, s: State, lane: nat)
    requires Inv(l, s) && !CanAcquire(s) && s.globalFree > 0
    requires lane < l.lanes && |Present(s, lane)| >= LaneLimit(l)
    ensures |RunningIn(s, lane)| >= LaneLimit(l)
  {
    forall id | id in s.requests && s.requests[id].lane == lane
      ensures !s.requests[id].phase.WantsGlobal? && (s.requests[id].phase.WantsLane? ==> s.laneFree[lane] == 0)
    {
      assert !Enabled(s, TakeGlobal(id)) && !Enabled(s, TakeLane(id));
    }
    assert RunningIn(s, lane) == Holding(s, lane);
    assert s.laneFree[lane] > 0 ==> Present(s, lane) == Holding(s, lane);
  }

  /** The split over lanes wastes nothing: a state in which no acquisition is possible although
      every lane has its share of requests runs exactly `maxRequests`. */
  lemma LoadedLanesUseEveryPermit(l: Limits, s: State)
    requires Inv(l, s) && !CanAcquire(s)
    requires forall lane :: 0 <= lane < l.lanes ==> |Present(s, lane)| >= LaneLimit(l)
    ensures |AllRunning(s)| == l.maxRequests
  {
    if s.globalFree > 0 {
      forall lane | 0 <= lane < l.lanes ensures |RunningIn(s, lane)| >= LaneLimit(l) {
        StalledLaneIsFull(l, s, lane);
      }
      FullLanesRun(s, l.lanes, LaneLimit(l));
      assert RunningBelow(s, l.lanes) == AllRunning(s);
      SharesCover(l.maxRequests, l.lanes);
    }
  }
}
