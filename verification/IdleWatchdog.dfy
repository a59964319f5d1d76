/** The connection idle watchdog: a count of active requests, the time it last became zero, and a
    loop that sleeps until a deadline and then decides.

    A request is active until its response head exists; a body that is still being streamed does not
    count. The timer is ideal: time does not pass a pending deadline before the sleeper runs. */
module IdleWatchdog {

  datatype State = State(now: nat, active: nat, idleSince: nat, deadline: nat, fired: bool)

  datatype Step = Tick | Begin | End | Wake

  /** A new connection whose watchdog has computed its first deadline. */
  function Init(timeout: nat, start: nat): State { State(start, 0, start, start + timeout, false) }

  predicate Enabled(s: State, step: Step) {
    !s.fired &&
    match step
    case Tick => s.now < s.deadline
    case Begin => true
    case End => s.active > 0
    case Wake => s.now >= s.deadline
  }

  function NextDeadline(timeout: nat, s: State): nat {
    (if s.active == 0 then s.idleSince else s.now) + timeout
  }

  function Apply(timeout: nat, s: State, step: Step): State
    requires Enabled(s, step)
  {
    match step
    case Tick => s.(now := s.now + 1)
    case Begin => s.(active := s.active + 1)
    case End => s.(active := s.active - 1, idleSince := if s.active == 1 then s.now else s.idleSince)
    case Wake =>
      if s.active == 0 && s.now - s.idleSince >= timeout then s.(fired := true)
      else s.(deadline := NextDeadline(timeout, s))
  }

  /** While idle the pending deadline is never later than the idle limit. */
  ghost predicate Inv(timeout: nat, s: State) {
    && s.idleSince <= s.now <= s.deadline <= s.now + timeout
    && (s.active == 0 ==> s.deadline <= s.idleSince + timeout)
    && (s.fired ==> s.active == 0 && s.now == s.idleSince + timeout)
  }

  /** States that follow each other by enabled steps. */
  ghost predicate Run(timeout: nat, run: seq<State>) {
    run != [] && forall i :: 0 < i < |run| ==> Next(timeout, run[i - 1], run[i])
  }

  ghost predicate Next(timeout: nat, s: State, t: State) {
    exists step :: Enabled(s, step) && t == Apply(timeout, s, step)
  }

  lemma {:induction false} RunKeepsInv(timeout: nat, run: seq<State>, k: nat)
    requires Run(timeout, run) && Inv(timeout, run[0]) && k < |run|
    ensures Inv(timeout, run[k])
  {
    if k > 0 {
      RunKeepsInv(timeout, run, k - 1);
      assert Next(timeout, run[k - 1], run[k]);
    }
  }

  /** After a busy moment the connection is still busy, or has become idle no earlier than that. */
  lemma {:induction false} BusyMomentsAreRemembered(timeout: nat, run: seq<State>, i: nat, k: nat)
    requires Run(timeout, run) && Inv(timeout, run[0]) && i <= k < |run| && run[i].active > 0
    ensures run[i].now <= run[k].now
    ensures run[k].active > 0 || run[i].now <= run[k].idleSince
    decreases k
  {
    if i < k {
      BusyMomentsAreRemembered(timeout, run, i, k - 1);
      assert Next(timeout, run[k - 1], run[k]);
    }
  }

  /** The watchdog fires only if no request was active during the whole preceding timeout, and
      then exactly at the last completion (or the start of the connection) plus the timeout. */
  lemma FiresOnlyAfterIdleTimeout(timeout: nat, start: nat, run: seq<State>, k: nat)
    requires Run(timeout, run) && run[0] == Init(timeout, start) && k < |run| && run[k].fired
    ensures run[k].now == run[k].idleSince + timeout
    ensures forall i :: 0 <= i <= k && run[i].active > 0 ==> run[i].now + timeout <= run[k].now
  {
    RunKeepsInv(timeout, run, k);
    forall i | 0 <= i <= k && run[i].active > 0 ensures run[i].now + timeout <= run[k].now {
      BusyMomentsAreRemembered(timeout, run, i, k);
    }
  }

  /** While no request is active, the idle time counts from the moment that began: the end of the last
      request, or the start of the connection. */
  lemma {:induction false} IdleSinceLastEnd(timeout: nat, start: nat, run: seq<State>, i: nat, k: nat)
    requires Run(timeout, run) && run[0] == Init(timeout, start) && i <= k < |run|
    requires (i > 0 ==> run[i - 1].active > 0) && (forall j :: i <= j <= k ==> run[j].active == 0)
    ensures run[k].idleSince == run[i].now
  {
    if i < k {
      IdleSinceLastEnd(timeout, start, run, i, k - 1);
      assert Next(timeout, run[k - 1], run[k]);
    } else if k > 0 {
      assert Next(timeout, run[k - 1], run[k]);
    }
  }

  /** An idle connection does not outlive its limit: time cannot pass it, and the wake-up that is
      then due closes the connection unless a request starts first. */
  lemma IdleConnectionIsClosedOnTime(timeout: nat, start: nat, run: seq<State>, k: nat)
    requires Run(timeout, run) && run[0] == Init(timeout, start) && k < |run|
    requires !run[k].fired && run[k].active == 0
    ensures var s := run[k];
            && s.now <= s.idleSince + timeout
            && (s.now == s.idleSince + timeout ==>
                  !Enabled(s, Tick) && Enabled(s, Wake) && Apply(timeout, s, Wake).fired)
            // an early wake-up re-arms for exactly the limit
            && (Enabled(s, Wake) && s.now < s.idleSince + timeout ==>
                  Apply(timeout, s, Wake) == s.(deadline := s.idleSince + timeout))
  {
    RunKeepsInv(timeout, run, k);
  }

  // ---------------------------------------------------------------- open response bodies

  /** A connection together with the number of response bodies it is still streaming. */
  datatype Load = Load(watch: State, bodies: nat)

  /** `Answer` ends a request whose response has a streamed body. */
  datatype LoadStep = Watch(step: Step) | Answer | CloseBody

  predicate LoadEnabled(s: Load, step: LoadStep) {
    match step
    case Watch(step) => Enabled(s.watch, step)
    case Answer => Enabled(s.watch, End)
    case CloseBody => !s.watch.fired && s.bodies > 0
  }

  function LoadApply(timeout: nat, s: Load, step: LoadStep): Load
    requires LoadEnabled(s, step)
  {
    match step
    case Watch(step) => s.(watch := Apply(timeout, s.watch, step))
    case Answer => Load(Apply(timeout, s.watch, End), s.bodies + 1)
    case CloseBody => s.(bodies := s.bodies - 1)
  }

  ghost predicate LoadRuns(timeout: nat, s: Load, steps: seq<LoadStep>, t: Load)
    decreases |steps|
  {
    if steps == [] then s == t else LoadEnabled(s, steps[0]) && LoadRuns(timeout, LoadApply(timeout, s, steps[0]), steps[1..], t)
  }

  lemma {:induction false} LoadRunsKeepInv(timeout: nat, s: Load, steps: seq<LoadStep>, t: Load)
    requires Inv(timeout, s.watch) && LoadRuns(timeout, s, steps, t)
    ensures Inv(timeout, t.watch)
    decreases |steps|
  {
    if steps != [] {
      LoadRunsKeepInv(timeout, LoadApply(timeout, s, steps[0]), steps[1..], t);
    }
  }

  /** In every run, whether a due wake-up closes the connection depends on the requests alone: it does
      exactly when none is active and the timeout has passed since the last one was answered. Open
      bodies neither count nor are waited for. */
  lemma BodiesAreNotWaitedFor(timeout: nat, start: nat, bodies: nat, steps: seq<LoadStep>, s: Load)
    requires LoadRuns(timeout, Load(Init(timeout, start), bodies), steps, s) && LoadEnabled(s, Watch(Wake))
    ensures var t := LoadApply(timeout, s, Watch(Wake));
            && (t.watch.fired <==> s.watch.active == 0 && s.watch.now == s.watch.idleSince + timeout)
            && t.bodies == s.bodies
  {
    LoadRunsKeepInv(timeout, Load(Init(timeout, start), bodies), steps, s);
  }

  function Ticks(n: nat): seq<LoadStep> { if n == 0 then [] else [Watch(Tick)] + Ticks(n - 1) }

  lemma {:induction false} WaitThenWake(timeout: nat, s: Load, n: nat)
    requires !s.watch.fired && s.watch.now + n == s.watch.deadline && s.watch.active == 0
    requires s.watch.deadline == s.watch.idleSince + timeout
    ensures LoadRuns(timeout, s, Ticks(n) + [Watch(Wake)], s.(watch := s.watch.(now := s.watch.deadline, fired := true)))
    decreases n
  {
    var steps := Ticks(n) + [Watch(Wake)];
    if n == 0 {
      assert steps == [Watch(Wake)] && steps[1..] == [];
      var t := LoadApply(timeout, s, Watch(Wake));
      assert LoadRuns(timeout, t, [], t);
    } else {
      var t := LoadApply(timeout, s, Watch(Tick));
      WaitThenWake(timeout, t, n - 1);
      assert steps[0] == Watch(Tick) && steps[1..] == Ticks(n - 1) + [Watch(Wake)];
    }
  }

  /** So "a connection in use is left open" is false: one request answered at once, its body still open,
      and a timeout later the connection is told to shut down. */
  lemma OpenBodyDoesNotDelayClosing(timeout: nat, start: nat) returns (steps: seq<LoadStep>, t: Load)
    ensures LoadRuns(timeout, Load(Init(timeout, start), 0), steps, t)
    ensures t.watch.fired && t.bodies == 1 && t.watch.now == start + timeout
  {
    var s := Load(Init(timeout, start), 0);
    var begun := LoadApply(timeout, s, Watch(Begin));
    var answered := LoadApply(timeout, begun, Answer);
    WaitThenWake(timeout, answered, timeout);
    var rest := Ticks(timeout) + [Watch(Wake)];
    steps := [Watch(Begin), Answer] + rest;
    t := answered.(watch := answered.watch.(now := answered.watch.deadline, fired := true));
    assert steps[1..] == [Answer] + rest && steps[1..][1..] == rest;
    assert LoadRuns(timeout, begun, steps[1..], t);
  }

  // ---------------------------------------------------------------- the object

  /** The two cells of the connection and the local state of the watchdog loop. */
  class ConnectionWatch {
    const timeout: nat
    var now: nat
    var activeRequests: nat
    var idleSince: nat
    var deadline: nat
    var closing: bool

    ghost function View(): State
      reads this
    {
      State(now, activeRequests, idleSince, deadline, closing)
    }

    constructor (timeout: nat, start: nat)
      ensures this.timeout == timeout && View() == Init(timeout, start) && Inv(timeout, View())
    {
      this.timeout := timeout;
      now, activeRequests, idleSince, deadline, closing := start, 0, start, start + timeout, false;
    }

    method BeginRequest()
      requires Inv(timeout, View()) && !closing
      modifies this`activeRequests
      ensures Inv(timeout, View()) && View() == Apply(timeout, old(View()), Begin)
    {
      activeRequests := activeRequests + 1;
    }

    /** Dropping the guard of a request. */
    method EndRequest()
      requires Inv(timeout, View()) && !closing && activeRequests > 0
      modifies this`activeRequests, this`idleSince
      ensures Inv(timeout, View()) && View() == Apply(timeout, old(View()), End)
    {
      activeRequests := activeRequests - 1;
      if activeRequests == 0 {
        idleSince := now;
      }
    }

    /** One turn of the loop after its sleep. */
    method OnDeadline() returns (close: bool)
      requires Inv(timeout, View()) && Enabled(View(), Wake)
      modifies this`deadline, this`closing
      ensures Inv(timeout, View()) && View() == Apply(timeout, old(View()), Wake)
      ensures close == closing
      ensures close <==> activeRequests == 0 && now == idleSince + timeout
    {
      if activeRequests == 0 && now - idleSince >= timeout {
        closing := true;
      } else if activeRequests == 0 {
        deadline := idleSince + timeout;
      } else {
        deadline := now + timeout;
      }
      close := closing;
    }
  }
}
