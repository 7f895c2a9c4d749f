/** Dynamic stacks of exit callbacks, and the nested `with` statements they stand for. */
module ExitStacks {
  import opened Results

  /** An exception, known by its identity. */
  type Exc = nat

  /** One invocation of an exit callback: which one, and the exception it was shown. */
  datatype Call = Call(id: nat, seen: Option<Exc>)

  datatype Behaviour = ReturnFalse | Suppress | Raise(exc: Exc)

  /** A callback may look at everything that happened before, and at the pending exception. */
  datatype Callback = Callback(id: nat, run: (seq<Call>, Option<Exc>) -> Behaviour)

  /** What has happened so far and the exception on its way out. */
  datatype Outcome = Outcome(trace: seq<Call>, pending: Option<Exc>)

  // ----- the reference: nested with statements -----

  /** Leaving one `with` block: its exit callback sees the pending exception; a true result
      swallows it, an exception raised by the callback replaces it. */
  function LeaveWith(cb: Callback, body: Outcome): Outcome {
    var trace := body.trace + [Call(cb.id, body.pending)];
    match cb.run(body.trace, body.pending)
    case ReturnFalse => Outcome(trace, body.pending)
    case Suppress => Outcome(trace, None)
    case Raise(e) => Outcome(trace, Some(e))
  }

  /** `with cbs[0]: with cbs[1]: ... body` */
  function NestedWith(cbs: seq<Callback>, body: Outcome): Outcome {
    if cbs == [] then body else LeaveWith(cbs[0], NestedWith(cbs[1..], body))
  }

  lemma {:induction false} InnermostFirst(cbs: seq<Callback>, body: Outcome)
    requires cbs != []
    ensures NestedWith(cbs, body) == NestedWith(cbs[..|cbs| - 1], LeaveWith(cbs[|cbs| - 1], body))
    decreases |cbs|
  {
    var n := |cbs| - 1;
    if n > 0 {
      InnermostFirst(cbs[1..], body);
      assert cbs[1..][..n - 1] == cbs[..n][1..];
    }
  }

  /** Each callback runs exactly once, last pushed first, and is shown whatever is pending
      when the blocks inside its own have been left. */
  lemma {:induction false} OnceInReverse(cbs: seq<Callback>, body: Outcome)
    ensures body.trace <= NestedWith(cbs, body).trace
    ensures var ran := NestedWith(cbs, body).trace[|body.trace|..];
      && |ran| == |cbs|
      && forall k :: 0 <= k < |ran| ==> ran[k] == Call(cbs[|cbs| - 1 - k].id, NestedWith(cbs[|cbs| - k..], body).pending)
    decreases |cbs|
  {
    if cbs != [] {
      OnceInReverse(cbs[1..], body);
      var ran, inner := NestedWith(cbs, body).trace[|body.trace|..], NestedWith(cbs[1..], body).trace[|body.trace|..];
      var n := |cbs| - 1;
      assert ran == inner + [Call(cbs[0].id, NestedWith(cbs[1..], body).pending)];
      forall k | 0 <= k < n
        ensures ran[k] == Call(cbs[n - k].id, NestedWith(cbs[|cbs| - k..], body).pending)
      {
        assert ran[k] == inner[k];
        assert cbs[1..][n - k..] == cbs[|cbs| - k..];
      }
    }
  }

  // ----- the stack -----

  /** How `__exit__` ends. */
  datatype ExitResult = Returned(suppressed: bool) | Raised(exc: Exc)

  /** What a `with` statement makes of the end of `__exit__`. */
  function AfterExit(received: Option<Exc>, r: ExitResult): Option<Exc> {
    match r
    case Raised(e) => Some(e)
    case Returned(suppressed) => if suppressed then None else received
  }

  class ExitStack {
    var callbacks: seq<Callback>

    constructor ()
      ensures callbacks == []
    {
      callbacks := [];
    }

    method Push(exit: Callback)
      modifies this
      ensures callbacks == old(callbacks) + [exit]
    {
      callbacks := callbacks + [exit];
    }

    /** A plain callback is shown no exception and its result is dropped, so it cannot suppress. */
    method PushPlain(id: nat, f: seq<Call> -> Behaviour) returns (wrapped: Callback)
      modifies this
      ensures callbacks == old(callbacks) + [wrapped] && wrapped.id == id
      ensures forall t, e :: wrapped.run(t, e) == if f(t).Raise? then f(t) else ReturnFalse
      ensures forall body: Outcome :: body.pending.Some? ==> LeaveWith(wrapped, body).pending.Some?
    {
      wrapped := Callback(id, (trace, _) => if f(trace).Raise? then f(trace) else ReturnFalse);
      callbacks := callbacks + [wrapped];
    }

    /** Hand all callbacks over to a new stack. */
    method PopAll() returns (other: ExitStack)
      modifies this
      ensures fresh(other) && other.callbacks == old(callbacks) && callbacks == []
    {
      other := new ExitStack();
      other.callbacks := callbacks;
      callbacks := [];
    }

    /** Unwinding in one loop is leaving the nested `with` statements one by one: the same calls
        with the same exceptions in the same order, and the same exception (or none) at the end. */
    method Exit(trace0: seq<Call>, received: Option<Exc>) returns (trace: seq<Call>, r: ExitResult)
      modifies this
      ensures callbacks == []
      ensures Outcome(trace, AfterExit(received, r)) == NestedWith(old(callbacks), Outcome(trace0, received))
      ensures received.None? ==> r != Returned(true)
    {
      trace := trace0;
      var excDetails := received;
      var suppressedExc, pendingRaise := false, false;
      while callbacks != []
        invariant NestedWith(callbacks, Outcome(trace, excDetails)) == NestedWith(old(callbacks), Outcome(trace0, received))
        invariant pendingRaise ==> excDetails.Some?
        invariant !pendingRaise ==> excDetails == if suppressedExc then None else received
        decreases |callbacks|
      {
        InnermostFirst(callbacks, Outcome(trace, excDetails));
        var cb := callbacks[|callbacks| - 1];
        callbacks := callbacks[..|callbacks| - 1];
        var b := cb.run(trace, excDetails);
        trace := trace + [Call(cb.id, excDetails)];
        match b
        case ReturnFalse =>
        case Suppress =>
          suppressedExc := true;
          pendingRaise := false;
          excDetails := None;
        case Raise(e) =>
          pendingRaise := true;
          excDetails := Some(e);
      }
      if pendingRaise {
        return trace, Raised(excDetails.value);
      }
      r := Returned(received.Some? && suppressedExc);
    }

    /** Unwinding with no exception pending. */
    method Close(trace0: seq<Call>) returns (trace: seq<Call>, raised: Option<Exc>)
      modifies this
      ensures callbacks == [] && Outcome(trace, raised) == NestedWith(old(callbacks), Outcome(trace0, None))
    {
      var r;
      trace, r := Exit(trace0, None);
      raised := AfterExit(None, r);
    }
  }

  /** Moving callbacks to another stack and unwinding both, inner one first, is unwinding them together. */
  lemma {:induction false} SplitStacks(outer: seq<Callback>, inner: seq<Callback>, body: Outcome)
    ensures NestedWith(outer + inner, body) == NestedWith(outer, NestedWith(inner, body))
    decreases |outer|
  {
    if outer == [] {
      assert outer + inner == inner;
    } else {
      SplitStacks(outer[1..], inner, body);
      assert (outer + inner)[1..] == outer[1..] + inner;
    }
  }

  /** The exception that leaves the stack is the last one raised, unless it was suppressed later; with
      callbacks that never suppress, no exception is lost. */
  lemma {:induction false} NothingLost(cbs: seq<Callback>, body: Outcome)
    requires body.pending.Some?
    requires forall k, trace, e :: 0 <= k < |cbs| ==> !cbs[k].run(trace, Some(e)).Suppress?
    ensures NestedWith(cbs, body).pending.Some?
    decreases |cbs|
  {
    if cbs != [] {
      forall k, trace, e | 0 <= k < |cbs[1..]| ensures !cbs[1..][k].run(trace, Some(e)).Suppress? {
        assert cbs[1..][k] == cbs[k + 1];
      }
      NothingLost(cbs[1..], body);
    }
  }

  /** What callback k does when its turn comes. */
  function BehaviourOf(cbs: seq<Callback>, body: Outcome, k: nat): Behaviour
    requires k < |cbs|
  {
    var inner := NestedWith(cbs[k + 1..], body);
    cbs[k].run(inner.trace, inner.pending)
  }

  /** The last callback to run that suppresses or raises has the last word; if there is none, what was
      pending stays so. */
  lemma {:induction false} LastWord(cbs: seq<Callback>, body: Outcome)
    ensures (forall i :: 0 <= i < |cbs| ==> BehaviourOf(cbs, body, i) == ReturnFalse) ==> NestedWith(cbs, body).pending == body.pending
    ensures forall k :: 0 <= k < |cbs| && (forall i :: 0 <= i < k ==> BehaviourOf(cbs, body, i) == ReturnFalse) ==>
      && (BehaviourOf(cbs, body, k) == Suppress ==> NestedWith(cbs, body).pending == None)
      && (BehaviourOf(cbs, body, k).Raise? ==> NestedWith(cbs, body).pending == Some(BehaviourOf(cbs, body, k).exc))
    decreases |cbs|
  {
    if cbs != [] {
      var rest := cbs[1..];
      LastWord(rest, body);
      forall i | 0 <= i < |rest| ensures BehaviourOf(cbs, body, i + 1) == BehaviourOf(rest, body, i) {
        assert cbs[i + 1 + 1..] == rest[i + 1..];
      }
      hide BehaviourOf;
      assert BehaviourOf(cbs, body, 0) == cbs[0].run(NestedWith(rest, body).trace, NestedWith(rest, body).pending) by {
        assert cbs[0 + 1..] == rest;
        FirstBehaviour(cbs, body);
      }
      if BehaviourOf(cbs, body, 0) == ReturnFalse {
        forall k | 0 <= k < |cbs| && (forall i :: 0 <= i < k ==> BehaviourOf(cbs, body, i) == ReturnFalse)
          ensures BehaviourOf(cbs, body, k) == Suppress ==> NestedWith(cbs, body).pending == None
          ensures BehaviourOf(cbs, body, k).Raise? ==> NestedWith(cbs, body).pending == Some(BehaviourOf(cbs, body, k).exc)
        {
          if k > 0 {
            forall i | 0 <= i < k - 1 ensures BehaviourOf(rest, body, i) == ReturnFalse { assert BehaviourOf(cbs, body, i + 1) == ReturnFalse; }
            assert BehaviourOf(cbs, body, k - 1 + 1) == BehaviourOf(rest, body, k - 1);
          }
        }
        if forall i :: 0 <= i < |cbs| ==> BehaviourOf(cbs, body, i) == ReturnFalse {
          forall i | 0 <= i < |rest| ensures BehaviourOf(rest, body, i) == ReturnFalse { assert BehaviourOf(cbs, body, i + 1) == ReturnFalse; }
        }
      }
    }
  }

  lemma FirstBehaviour(cbs: seq<Callback>, body: Outcome)
    requires cbs != []
    ensures BehaviourOf(cbs, body, 0) == cbs[0].run(NestedWith(cbs[1..], body).trace, NestedWith(cbs[1..], body).pending)
  {
  }
}
