/** The middleware chain: an iterative loop that must equal the recursive onion.

    Hooks are arbitrary functions of a world `W` (whatever state they share), the request they may
    rewrite and the response; every call they get is recorded in a trace. */
module Middleware {
  import opened JsonValues

  datatype Decision<+R> = Continue | Respond(response: R) | Fail

  datatype Layer<!W, !Q, !R> = Layer(before: (W, Q) -> (W, Q, Decision<R>), after: (W, Q, R) -> (W, Result<R>))

  type Dispatch<!W, !Q, !R> = (W, Q) -> (W, R)

  datatype Call = Before(layer: nat) | Dispatched | After(layer: nat)

  /** Where a run stands: the request as rewritten so far, the response or failure, the calls made. */
  datatype Progress<W, Q, R> = Progress(world: W, request: Q, result: Result<R>, trace: seq<Call>)

  /** The after-hook of one layer, run on what the inner layers made; a failure skips it. */
  function Leave<W, Q, R>(layer: Layer<W, Q, R>, index: nat, inner: Progress<W, Q, R>): Progress<W, Q, R> {
    if inner.result.Err? then inner
    else
      var (world, result) := layer.after(inner.world, inner.request, inner.result.value);
      Progress(world, inner.request, result, inner.trace + [After(index)])
  }

  /** The onion: each layer surrounds the layers behind it, the innermost of all surrounds dispatch. */
  function Onion<W, Q, R>(layers: seq<Layer<W, Q, R>>, index: nat, dispatch: Dispatch<W, Q, R>, world: W, request: Q, trace: seq<Call>): Progress<W, Q, R>
    requires index <= |layers|
    decreases |layers| - index
  {
    if index == |layers| then
      var (after, response) := dispatch(world, request);
      Progress(after, request, Ok(response), trace + [Dispatched])
    else
      var (entered, rewritten, decision) := layers[index].before(world, request);
      var seen := trace + [Before(index)];
      match decision
      case Fail => Progress(entered, rewritten, Err, seen)
      case Respond(response) => Leave(layers[index], index, Progress(entered, rewritten, Ok(response), seen))
      case Continue => Leave(layers[index], index, Onion(layers, index + 1, dispatch, entered, rewritten, seen))
  }

  /** The after-hooks of the first `entered` layers, innermost first. */
  function Unwind<W, Q, R>(layers: seq<Layer<W, Q, R>>, entered: nat, inner: Progress<W, Q, R>): Progress<W, Q, R>
    requires entered <= |layers|
  {
    if entered == 0 then inner else Unwind(layers, entered - 1, Leave(layers[entered - 1], entered - 1, inner))
  }

  lemma {:induction false} FailureUnwindsSilently<W, Q, R>(layers: seq<Layer<W, Q, R>>, entered: nat, inner: Progress<W, Q, R>)
    requires entered <= |layers| && inner.result.Err?
    ensures Unwind(layers, entered, inner) == inner
  {
    if entered > 0 {
      FailureUnwindsSilently(layers, entered - 1, inner);
    }
  }

  /** `run`: a forward loop that counts the entered layers, then a reverse loop over exactly those. */
  method Run<W, Q, R>(layers: seq<Layer<W, Q, R>>, dispatch: Dispatch<W, Q, R>, world: W, request: Q) returns (r: Progress<W, Q, R>)
    ensures r == Onion(layers, 0, dispatch, world, request, [])
  {
    ghost var onion := Onion(layers, 0, dispatch, world, request, []);
    var current, rewritten, trace := world, request, [];
    var entered := 0;
    var response: Option<R> := None;
    while entered < |layers| && response.None?
      invariant entered <= |layers|
      invariant response.None? ==> onion == Unwind(layers, entered, Onion(layers, entered, dispatch, current, rewritten, trace))
      invariant response.Some? ==> onion == Unwind(layers, entered, Progress(current, rewritten, Ok(response.value), trace))
      decreases |layers| - entered
    {
      var (next, changed, decision) := layers[entered].before(current, rewritten);
      trace := trace + [Before(entered)];
      current, rewritten := next, changed;
      if decision.Fail? {
        r := Progress(current, rewritten, Err, trace);
        FailureUnwindsSilently(layers, entered, r);
        return;
      }
      entered := entered + 1;
      if decision.Respond? {
        response := Some(decision.response);
      }
    }
    if response.None? {
      var (next, value) := dispatch(current, rewritten);
      current, response, trace := next, Some(value), trace + [Dispatched];
    }
    var value := response.value;
    var layer := entered;
    while layer > 0
      invariant layer <= |layers|
      invariant onion == Unwind(layers, layer, Progress(current, rewritten, Ok(value), trace))
    {
      layer := layer - 1;
      var (next, result) := layers[layer].after(current, rewritten, value);
      current, trace := next, trace + [After(layer)];
      if result.Err? {
        r := Progress(current, rewritten, Err, trace);
        FailureUnwindsSilently(layers, layer, r);
        return;
      }
      value := result.value;
    }
    r := Progress(current, rewritten, Ok(value), trace);
  }

  // ---------------------------------------------------------------- the calls a run makes

  /** Before-hooks of layers `low` to `high - 1`, in order. */
  function Befores(low: nat, high: nat): seq<Call>
    requires low <= high
    decreases high - low
  {
    if low == high then [] else [Before(low)] + Befores(low + 1, high)
  }

  /** After-hooks of layers `high - 1` down to `low`. */
  function Afters(high: nat, low: nat): seq<Call>
    requires low <= high
    decreases high - low
  {
    if low == high then [] else Afters(high, low + 1) + [After(low)]
  }

  /** Every hook from `index` on lets the request pass. */
  ghost predicate AllContinue<W, Q, R>(layers: seq<Layer<W, Q, R>>, index: nat, world: W, request: Q)
    requires index <= |layers|
    decreases |layers| - index
  {
    index < |layers| ==>
      var (next, rewritten, decision) := layers[index].before(world, request);
      decision.Continue? && AllContinue(layers, index + 1, next, rewritten)
  }

  /** The trace enters layers up to `entered`, dispatches or not, and leaves them again down to `left`. */
  ghost predicate Shape(trace: seq<Call>, index: nat, entered: nat, dispatched: bool, left: nat)
  {
    && index <= left <= entered
    && trace == Befores(index, entered) + (if dispatched then [Dispatched] else []) + Afters(entered, left)
  }

  lemma ShapeGrows(inner: seq<Call>, index: nat, entered: nat, dispatched: bool, left: nat)
    requires Shape(inner, index + 1, entered, dispatched, left)
    ensures Shape([Before(index)] + inner, index, entered, dispatched, left)
    ensures left == index + 1 ==> Shape([Before(index)] + inner + [After(index)], index, entered, dispatched, index)
  {
    var middle := if dispatched then [Dispatched] else [];
    assert Befores(index, entered) == [Before(index)] + Befores(index + 1, entered);
    assert [Before(index)] + inner == Befores(index, entered) + middle + Afters(entered, left);
  }

  /** From layer `index` on: hooks run outside in, dispatch happens exactly when all of them let the
      request pass, and a run without error calls the after-hooks of exactly the entered layers in
      reverse order. */
  lemma {:induction false} OnionCalls<W, Q, R>(layers: seq<Layer<W, Q, R>>, index: nat, dispatch: Dispatch<W, Q, R>, world: W, request: Q, trace: seq<Call>)
      returns (entered: nat, left: nat)
    requires index <= |layers|
    ensures var run := Onion(layers, index, dispatch, world, request, trace);
            var dispatched := AllContinue(layers, index, world, request);
            && trace <= run.trace
            && entered <= |layers|
            && (dispatched ==> entered == |layers|)
            && Shape(run.trace[|trace|..], index, entered, dispatched, left)
            && (run.result.Ok? ==> left == index)
    decreases |layers| - index
  {
    var run := Onion(layers, index, dispatch, world, request, trace);
    if index == |layers| {
      assert run.trace[|trace|..] == [Dispatched];
      return index, index;
    }
    var (next, rewritten, decision) := layers[index].before(world, request);
    var seen := trace + [Before(index)];
    assert Befores(index, index + 1) == [Before(index)] + Befores(index + 1, index + 1);
    if decision.Fail? {
      assert run.trace[|trace|..] == [Before(index)];
      return index + 1, index + 1;
    }
    if decision.Respond? {
      assert Afters(index + 1, index) == Afters(index + 1, index + 1) + [After(index)];
      assert run.trace[|trace|..] == [Before(index), After(index)];
      return index + 1, index;
    }
    var inner := Onion(layers, index + 1, dispatch, next, rewritten, seen);
    entered, left := OnionCalls(layers, index + 1, dispatch, next, rewritten, seen);
    assert inner.trace[|trace|..] == [Before(index)] + inner.trace[|seen|..];
    ShapeGrows(inner.trace[|seen|..], index, entered, AllContinue(layers, index + 1, next, rewritten), left);
    if inner.result.Ok? {
      assert run.trace[|trace|..] == [Before(index)] + inner.trace[|seen|..] + [After(index)];
      left := index;
    }
  }

  /** Dispatch runs at most once, and exactly when every layer lets the request pass. */
  lemma DispatchesAtMostOnce<W, Q, R>(layers: seq<Layer<W, Q, R>>, dispatch: Dispatch<W, Q, R>, world: W, request: Q)
    ensures var trace := Onion(layers, 0, dispatch, world, request, []).trace;
            multiset(trace)[Dispatched] == if AllContinue(layers, 0, world, request) then 1 else 0
  {
    var entered, left := OnionCalls(layers, 0, dispatch, world, request, []);
    var trace := Onion(layers, 0, dispatch, world, request, []).trace;
    assert trace[0..] == trace;
    NoDispatchInHooks(0, entered);
    NoDispatchInHooks(left, entered);
  }

  lemma {:induction false} NoDispatchInHooks(low: nat, high: nat)
    requires low <= high
    ensures Dispatched !in Befores(low, high) && Dispatched !in Afters(high, low)
    decreases high - low
  {
    if low < high {
      NoDispatchInHooks(low + 1, high);
    }
  }

  /** A run without error leaves exactly the layers it entered, in reverse. */
  lemma CleanRunLeavesWhatItEntered<W, Q, R>(layers: seq<Layer<W, Q, R>>, dispatch: Dispatch<W, Q, R>, world: W, request: Q) returns (entered: nat)
    requires Onion(layers, 0, dispatch, world, request, []).result.Ok?
    ensures entered <= |layers|
    ensures var dispatched := AllContinue(layers, 0, world, request);
            && (dispatched ==> entered == |layers|)
            && Onion(layers, 0, dispatch, world, request, []).trace ==
                 Befores(0, entered) + (if dispatched then [Dispatched] else []) + Afters(entered, 0)
  {
    var left;
    entered, left := OnionCalls(layers, 0, dispatch, world, request, []);
    var trace := Onion(layers, 0, dispatch, world, request, []).trace;
    assert trace[0..] == trace;
  }

  // ---------------------------------------------------------------- where the response comes from

  /** A clean visit from some layer on, written out: worlds and requests on the way in, worlds and
      responses on the way out, the innermost last in each; a layer may have answered itself. */
  datatype Visit<W, Q, R> = Visit(worldsIn: seq<W>, requests: seq<Q>, worldsOut: seq<W>, responses: seq<R>, answered: bool)

  ghost predicate Enters<W, Q, R>(layer: Layer<W, Q, R>, visit: Visit<W, Q, R>, i: nat)
    requires i + 1 < |visit.worldsIn| == |visit.requests| == |visit.responses|
  {
    var decision := if visit.answered && i + 2 == |visit.requests| then Respond(visit.responses[i + 1]) else Continue;
    layer.before(visit.worldsIn[i], visit.requests[i]) == (visit.worldsIn[i + 1], visit.requests[i + 1], decision)
  }

  /** Every after-hook sees the request as the innermost entered layer left it. */
  ghost predicate Leaves<W, Q, R>(layer: Layer<W, Q, R>, visit: Visit<W, Q, R>, i: nat)
    requires i + 1 < |visit.requests| == |visit.worldsOut| == |visit.responses|
  {
    layer.after(visit.worldsOut[i + 1], visit.requests[|visit.requests| - 1], visit.responses[i + 1]) == (visit.worldsOut[i], Ok(visit.responses[i]))
  }

  ghost predicate Passes<W, Q, R>(layers: seq<Layer<W, Q, R>>, index: nat, visit: Visit<W, Q, R>, i: nat)
    requires i + 1 < |visit.worldsIn| == |visit.requests| == |visit.worldsOut| == |visit.responses|
    requires index + i < |layers|
  {
    Enters(layers[index + i], visit, i) && Leaves(layers[index + i], visit, i)
  }

  ghost predicate Clean<W, Q, R>(layers: seq<Layer<W, Q, R>>, index: nat, dispatch: Dispatch<W, Q, R>, visit: Visit<W, Q, R>) {
    var n := |visit.requests| - 1;
    && 0 <= n && |visit.worldsIn| == |visit.worldsOut| == |visit.responses| == n + 1 && index + n <= |layers|
    && (forall i :: 0 <= i < n ==> Passes(layers, index, visit, i))
    && if visit.answered then n > 0 && visit.worldsOut[n] == visit.worldsIn[n]
       else index + n == |layers| && dispatch(visit.worldsIn[n], visit.requests[n]) == (visit.worldsOut[n], visit.responses[n])
  }

  ghost predicate Explains<W, Q, R>(visit: Visit<W, Q, R>, world: W, request: Q, run: Progress<W, Q, R>)
    requires |visit.worldsIn| == |visit.requests| == |visit.worldsOut| == |visit.responses| > 0
  {
    && visit.worldsIn[0] == world && visit.requests[0] == request
    && run.world == visit.worldsOut[0] && run.result == Ok(visit.responses[0]) && run.request == visit.requests[|visit.requests| - 1]
  }

  /** Every run without error is a clean visit: its response is what the outermost after-hook made of the
      response of the layers inside it, down to the dispatched one or the one a layer answered with. */
  lemma {:induction false} CleanRunIsVisit<W, Q, R>(layers: seq<Layer<W, Q, R>>, index: nat, dispatch: Dispatch<W, Q, R>, world: W, request: Q, trace: seq<Call>)
      returns (visit: Visit<W, Q, R>)
    requires index <= |layers| && Onion(layers, index, dispatch, world, request, trace).result.Ok?
    ensures Clean(layers, index, dispatch, visit) && Explains(visit, world, request, Onion(layers, index, dispatch, world, request, trace))
    decreases |layers| - index
  {
    var run := Onion(layers, index, dispatch, world, request, trace);
    if index == |layers| {
      return Visit([world], [request], [run.world], [run.result.value], false);
    }
    var (next, rewritten, decision) := layers[index].before(world, request);
    if decision.Respond? {
      return Visit([world, next], [request, rewritten], [run.world, next], [run.result.value, decision.response], true);
    }
    var inner := CleanRunIsVisit(layers, index + 1, dispatch, next, rewritten, trace + [Before(index)]);
    visit := Visit([world] + inner.worldsIn, [request] + inner.requests, [run.world] + inner.worldsOut, [run.result.value] + inner.responses, inner.answered);
    forall i | 0 <= i < |visit.requests| - 1 ensures Passes(layers, index, visit, i) {
      if i > 0 {
        assert layers[index + i] == layers[index + 1 + (i - 1)];
        assert Passes(layers, index + 1, inner, i - 1);
      }
    }
  }

  /** And every clean visit is that run: no other response is possible. */
  lemma {:induction false} VisitIsCleanRun<W, Q, R>(layers: seq<Layer<W, Q, R>>, index: nat, dispatch: Dispatch<W, Q, R>, visit: Visit<W, Q, R>, trace: seq<Call>)
    requires index <= |layers| && Clean(layers, index, dispatch, visit)
    ensures Explains(visit, visit.worldsIn[0], visit.requests[0], Onion(layers, index, dispatch, visit.worldsIn[0], visit.requests[0], trace))
    decreases |layers| - index
  {
    var n := |visit.requests| - 1;
    if n > 0 {
      assert Passes(layers, index, visit, 0);
      if !(visit.answered && n == 1) {
        var inner := Visit(visit.worldsIn[1..], visit.requests[1..], visit.worldsOut[1..], visit.responses[1..], visit.answered);
        var next := index + 1;
        forall i | 0 <= i < n - 1 ensures Passes(layers, next, inner, i) {
          assert Passes(layers, index, visit, i + 1);
          assert layers[index + (i + 1)] == layers[next + i];
        }
        VisitIsCleanRun(layers, next, dispatch, inner, trace + [Before(index)]);
      }
    }
  }
}
