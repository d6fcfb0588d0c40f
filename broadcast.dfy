/**
 * Reference semantics of one broadcast over an ordered list of listeners,
 * and what it guarantees. `FailFast` is how the six non-failure phases
 * notify listeners; `Guarded` is how the failure phase does. Both are
 * defined on the suffix of the list that starts at position `i` (0 for a
 * whole broadcast), which lets the loops that implement them keep the
 * unprocessed part as their invariant.
 */
module Broadcast {
  import opened Events

  /** What a broadcast did: the listeners it invoked, in order, what it logged and how it ended. */
  datatype Run = Run(delivered: seq<Listener>, log: seq<LogEntry>, outcome: Outcome)

  /** Listener `l` was invoked and logged `entries`, and then `rest` happened. */
  function Then(l: Listener, entries: seq<LogEntry>, rest: Run): Run
  {
    Run([l] + rest.delivered, entries + rest.log, rest.outcome)
  }

  /**
   * Notify `ls[i..]` of `ev` with no error handling: the first listener that
   * throws ends the broadcast and its error reaches the caller.
   */
  function FailFast(ls: seq<Listener>, ev: Event, i: nat): Run
    requires i <= |ls|
    decreases |ls| - i
  {
    if i == |ls| then Run([], [], Returned)
    else match Reaction(ls[i], ev)
      case Some(e) => Run([ls[i]], [], Threw(e))
      case None => Then(ls[i], [], FailFast(ls, ev, i + 1))
  }

  /**
   * Tell one listener that the run failed, inside a guard: an error it
   * raises is rethrown when there is no original exception, and is
   * otherwise swallowed and logged.
   */
  function GuardedCall(l: Listener, context: Option<Context>, exception: Option<Error>, debugEnabled: bool): Run
  {
    match Reaction(l, Failed(context, exception))
      case None => Run([l], [], Returned)
      case Some(e) =>
        if exception.None? then Run([l], [], Threw(e))
        else Run([l], [SwallowedEntry(e, debugEnabled)], Returned)
  }

  /** Notify `ls[i..]` that the run failed, one guarded call after another, until a call throws. */
  function Guarded(ls: seq<Listener>, context: Option<Context>, exception: Option<Error>,
                   debugEnabled: bool, i: nat): Run
    requires i <= |ls|
    decreases |ls| - i
  {
    if i == |ls| then Run([], [], Returned)
    else
      var call := GuardedCall(ls[i], context, exception, debugEnabled);
      if call.outcome.Threw? then call
      else Then(ls[i], call.log, Guarded(ls, context, exception, debugEnabled, i + 1))
  }

  /**
   * `whole` is what happens when the listeners in `done` are invoked, logging
   * `logged` and returning normally, followed by `rest`.
   */
  ghost predicate Resumes(whole: Run, done: seq<Listener>, logged: seq<LogEntry>, rest: Run)
  {
    whole == Run(done + rest.delivered, logged + rest.log, rest.outcome)
  }

  /** One more listener that returns normally moves from the unprocessed suffix to `done`. */
  lemma FailFastAdvance(ls: seq<Listener>, ev: Event, i: nat, logged: seq<LogEntry>)
    requires i < |ls| && Reaction(ls[i], ev).None?
    requires Resumes(FailFast(ls, ev, 0), ls[..i], logged, FailFast(ls, ev, i))
    ensures Resumes(FailFast(ls, ev, 0), ls[..i + 1], logged, FailFast(ls, ev, i + 1))
  {
    var rest := FailFast(ls, ev, i + 1);
    assert ls[..i] + ([ls[i]] + rest.delivered) == ls[..i + 1] + rest.delivered;
  }

  /** A listener that throws ends a fail-fast broadcast with its error. */
  lemma FailFastStops(ls: seq<Listener>, ev: Event, i: nat, logged: seq<LogEntry>)
    requires i < |ls| && Reaction(ls[i], ev).Some?
    requires Resumes(FailFast(ls, ev, 0), ls[..i], logged, FailFast(ls, ev, i))
    ensures FailFast(ls, ev, 0) == Run(ls[..i + 1], logged, Threw(Reaction(ls[i], ev).value))
  {
    assert ls[..i] + [ls[i]] == ls[..i + 1];
  }

  /** One more guarded call that returns normally moves from the unprocessed suffix to `done`. */
  lemma GuardedAdvance(ls: seq<Listener>, context: Option<Context>, exception: Option<Error>,
                       debugEnabled: bool, i: nat, logged: seq<LogEntry>)
    requires i < |ls| && GuardedCall(ls[i], context, exception, debugEnabled).outcome == Returned
    requires Resumes(Guarded(ls, context, exception, debugEnabled, 0), ls[..i], logged,
                     Guarded(ls, context, exception, debugEnabled, i))
    ensures Resumes(Guarded(ls, context, exception, debugEnabled, 0), ls[..i + 1],
                    logged + GuardedCall(ls[i], context, exception, debugEnabled).log,
                    Guarded(ls, context, exception, debugEnabled, i + 1))
  {
    var call := GuardedCall(ls[i], context, exception, debugEnabled);
    var rest := Guarded(ls, context, exception, debugEnabled, i + 1);
    assert ls[..i] + ([ls[i]] + rest.delivered) == ls[..i + 1] + rest.delivered;
    assert logged + (call.log + rest.log) == (logged + call.log) + rest.log;
  }

  /** A guarded call that throws ends the failure broadcast with its error. */
  lemma GuardedStops(ls: seq<Listener>, context: Option<Context>, exception: Option<Error>,
                     debugEnabled: bool, i: nat, logged: seq<LogEntry>)
    requires i < |ls| && GuardedCall(ls[i], context, exception, debugEnabled).outcome.Threw?
    requires Resumes(Guarded(ls, context, exception, debugEnabled, 0), ls[..i], logged,
                     Guarded(ls, context, exception, debugEnabled, i))
    ensures Guarded(ls, context, exception, debugEnabled, 0)
         == Run(ls[..i + 1], logged, GuardedCall(ls[i], context, exception, debugEnabled).outcome)
  {
    var call := GuardedCall(ls[i], context, exception, debugEnabled);
    assert call.delivered == [ls[i]] && call.log == [];
    assert ls[..i] + [ls[i]] == ls[..i + 1];
  }

  /** Once every listener is in `done`, the whole broadcast returned normally. */
  lemma Finished(whole: Run, ls: seq<Listener>, logged: seq<LogEntry>)
    requires Resumes(whole, ls[..|ls|], logged, Run([], [], Returned))
    ensures whole == Run(ls, logged, Returned)
  {
    assert ls[..|ls|] == ls;
  }

  /**
   * The position of the first listener in `ls[i..]` that throws on `ev`,
   * or `|ls|` when none does.
   */
  function FirstThrower(ls: seq<Listener>, ev: Event, i: nat): (k: nat)
    requires i <= |ls|
    ensures i <= k <= |ls|
    ensures forall j :: i <= j < k ==> Reaction(ls[j], ev).None?
    ensures k < |ls| ==> Reaction(ls[k], ev).Some?
    decreases |ls| - i
  {
    if i == |ls| || Reaction(ls[i], ev).Some? then i else FirstThrower(ls, ev, i + 1)
  }

  /**
   * The positions of the listeners in `ls[i..]` that throw on `ev`, in
   * increasing order (`ThrowerIndicesSorted` and `ThrowerIndicesComplete`
   * show it lists each of them exactly once).
   */
  function ThrowerIndices(ls: seq<Listener>, ev: Event, i: nat): (idx: seq<nat>)
    requires i <= |ls|
    ensures forall k :: 0 <= k < |idx| ==> i <= idx[k] < |ls| && Reaction(ls[idx[k]], ev).Some?
    decreases |ls| - i
  {
    if i == |ls| then []
    else if Reaction(ls[i], ev).Some? then [i] + ThrowerIndices(ls, ev, i + 1)
    else ThrowerIndices(ls, ev, i + 1)
  }

  /** Each position in `idx` is greater than the one before it. */
  ghost predicate StrictlyIncreasing(idx: seq<nat>)
  {
    forall k, m :: 0 <= k < m < |idx| ==> idx[k] < idx[m]
  }

  /** `ThrowerIndices` lists positions in strictly increasing order, so none of them twice. */
  lemma {:induction false} ThrowerIndicesSorted(ls: seq<Listener>, ev: Event, i: nat)
    requires i <= |ls|
    ensures StrictlyIncreasing(ThrowerIndices(ls, ev, i))
    decreases |ls| - i
  {
    if i < |ls| {
      ThrowerIndicesSorted(ls, ev, i + 1);
      var idx' := ThrowerIndices(ls, ev, i + 1);
      if Reaction(ls[i], ev).Some? {
        var idx := [i] + idx';
        assert idx == ThrowerIndices(ls, ev, i);
        forall k, m | 0 <= k < m < |idx| ensures idx[k] < idx[m] {
          assert idx[m] == idx'[m - 1];
          assert i + 1 <= idx'[m - 1];
          if k > 0 {
            assert idx[k] == idx'[k - 1];
            assert idx'[k - 1] < idx'[m - 1];
          }
        }
      } else {
        assert ThrowerIndices(ls, ev, i) == idx';
      }
    }
  }

  /** Every listener in `ls[i..]` that throws on `ev` has its position in `ThrowerIndices`. */
  lemma {:induction false} ThrowerIndicesComplete(ls: seq<Listener>, ev: Event, i: nat)
    requires i <= |ls|
    ensures forall j :: i <= j < |ls| && Reaction(ls[j], ev).Some? ==> j in ThrowerIndices(ls, ev, i)
    decreases |ls| - i
  {
    if i < |ls| {
      ThrowerIndicesComplete(ls, ev, i + 1);
      var idx' := ThrowerIndices(ls, ev, i + 1);
      var idx := ThrowerIndices(ls, ev, i);
      forall j | i <= j < |ls| && Reaction(ls[j], ev).Some?
        ensures j in idx
      {
        if j == i {
          assert idx[0] == j;
        } else {
          assert j in idx';
          var k' :| 0 <= k' < |idx'| && idx'[k'] == j;
          if Reaction(ls[i], ev).Some? {
            assert idx[k' + 1] == j;
          }
        }
      }
    }
  }

  /**
   * If the listeners of `ls[i..k]` return normally on `ev` and `ls[k]` (if
   * any) throws, the fail-fast broadcast from `i` invokes exactly `ls[i..k]`
   * and `ls[k]`, and ends as `ls[k]` does.
   */
  lemma {:induction false} FailFastUpTo(ls: seq<Listener>, ev: Event, i: nat, k: nat)
    requires i <= k <= |ls|
    requires forall j :: i <= j < k ==> Reaction(ls[j], ev).None?
    requires k < |ls| ==> Reaction(ls[k], ev).Some?
    ensures k < |ls| ==> FailFast(ls, ev, i) == Run(ls[i..k + 1], [], Threw(Reaction(ls[k], ev).value))
    ensures k == |ls| ==> FailFast(ls, ev, i) == Run(ls[i..], [], Returned)
    decreases |ls| - i
  {
    if i < k {
      FailFastUpTo(ls, ev, i + 1, k);
      var rest := FailFast(ls, ev, i + 1);
      assert FailFast(ls, ev, i) == Then(ls[i], [], rest);
      if k < |ls| {
        assert ls[i..k + 1] == [ls[i]] + ls[i + 1..k + 1];
      } else {
        assert ls[i..] == [ls[i]] + ls[i + 1..];
      }
    } else if k < |ls| {
      assert ls[i..k + 1] == [ls[i]];
    }
  }

  /**
   * A fail-fast broadcast invokes the listeners up to and including the
   * first one that throws, and no later one; the caller receives exactly
   * that listener's error, or returns normally when no listener throws.
   * Nothing is logged.
   */
  lemma {:induction false} FailFastCharacterization(ls: seq<Listener>, ev: Event)
    ensures FailFast(ls, ev, 0).log == []
    ensures FirstThrower(ls, ev, 0) < |ls| ==>
      && FailFast(ls, ev, 0).delivered == ls[..FirstThrower(ls, ev, 0) + 1]
      && FailFast(ls, ev, 0).outcome == Threw(Reaction(ls[FirstThrower(ls, ev, 0)], ev).value)
    ensures FirstThrower(ls, ev, 0) == |ls| ==>
      && FailFast(ls, ev, 0).delivered == ls
      && FailFast(ls, ev, 0).outcome == Returned
  {
    var k := FirstThrower(ls, ev, 0);
    FailFastUpTo(ls, ev, 0, k);
    assert ls[0..] == ls;
    if k < |ls| {
      assert ls[0..k + 1] == ls[..k + 1];
    }
  }

  /**
   * When no listener throws on `ev`, a fail-fast broadcast invokes every
   * listener once, in registration order, returns normally and logs nothing.
   */
  lemma {:induction false} QuietBroadcast(ls: seq<Listener>, ev: Event)
    requires forall j :: 0 <= j < |ls| ==> Reaction(ls[j], ev).None?
    ensures FailFast(ls, ev, 0) == Run(ls, [], Returned)
  {
    FailFastUpTo(ls, ev, 0, |ls|);
    assert ls[0..] == ls;
  }

  /**
   * The entries logged for the errors of the listeners at positions `idx`,
   * one entry per position, in the same order.
   */
  function SwallowedFor(ls: seq<Listener>, ev: Event, debugEnabled: bool, idx: seq<nat>): seq<LogEntry>
    requires forall k :: 0 <= k < |idx| ==> idx[k] < |ls| && Reaction(ls[idx[k]], ev).Some?
  {
    if idx == [] then []
    else [SwallowedEntry(Reaction(ls[idx[0]], ev).value, debugEnabled)] + SwallowedFor(ls, ev, debugEnabled, idx[1..])
  }

  /** Entry `k` of `SwallowedFor` is the one for the error of listener `idx[k]`. */
  lemma {:induction false} SwallowedForAt(ls: seq<Listener>, ev: Event, debugEnabled: bool, idx: seq<nat>)
    requires forall k :: 0 <= k < |idx| ==> idx[k] < |ls| && Reaction(ls[idx[k]], ev).Some?
    ensures |SwallowedFor(ls, ev, debugEnabled, idx)| == |idx|
    ensures forall k :: 0 <= k < |idx| ==>
      SwallowedFor(ls, ev, debugEnabled, idx)[k] == SwallowedEntry(Reaction(ls[idx[k]], ev).value, debugEnabled)
  {
    if idx != [] {
      SwallowedForAt(ls, ev, debugEnabled, idx[1..]);
      var rest := SwallowedFor(ls, ev, debugEnabled, idx[1..]);
      forall k | 0 < k < |idx|
        ensures SwallowedFor(ls, ev, debugEnabled, idx)[k] == SwallowedEntry(Reaction(ls[idx[k]], ev).value, debugEnabled)
      {
        assert SwallowedFor(ls, ev, debugEnabled, idx)[k] == rest[k - 1];
        assert idx[1..][k - 1] == idx[k];
      }
    }
  }

  /** The entries logged, in order, for the listeners in `ls[i..]` that throw on `ev`, one each. */
  function Swallowed(ls: seq<Listener>, ev: Event, debugEnabled: bool, i: nat): seq<LogEntry>
    requires i <= |ls|
    decreases |ls| - i
  {
    if i == |ls| then []
    else match Reaction(ls[i], ev)
      case Some(e) => [SwallowedEntry(e, debugEnabled)] + Swallowed(ls, ev, debugEnabled, i + 1)
      case None => Swallowed(ls, ev, debugEnabled, i + 1)
  }

  /** `Swallowed` holds exactly one entry per listener that throws, taken in the order of `ThrowerIndices`. */
  lemma {:induction false} SwallowedMatchesThrowers(ls: seq<Listener>, ev: Event, debugEnabled: bool, i: nat)
    requires i <= |ls|
    ensures Swallowed(ls, ev, debugEnabled, i) == SwallowedFor(ls, ev, debugEnabled, ThrowerIndices(ls, ev, i))
    decreases |ls| - i
  {
    if i < |ls| {
      SwallowedMatchesThrowers(ls, ev, debugEnabled, i + 1);
      var idx := ThrowerIndices(ls, ev, i);
      var idx' := ThrowerIndices(ls, ev, i + 1);
      if Reaction(ls[i], ev).Some? {
        assert idx == [i] + idx';
        assert idx[1..] == idx';
        assert SwallowedFor(ls, ev, debugEnabled, idx)
            == [SwallowedEntry(Reaction(ls[i], ev).value, debugEnabled)] + SwallowedFor(ls, ev, debugEnabled, idx');
      } else {
        assert idx == idx';
      }
    }
  }

  /** With an original exception present, the guarded broadcast tells everyone and logs `Swallowed`. */
  lemma {:induction false} GuardedWithCauseShape(ls: seq<Listener>, context: Option<Context>, exception: Option<Error>,
                                                 debugEnabled: bool, i: nat)
    requires i <= |ls| && exception.Some?
    ensures Guarded(ls, context, exception, debugEnabled, i)
         == Run(ls[i..], Swallowed(ls, Failed(context, exception), debugEnabled, i), Returned)
    decreases |ls| - i
  {
    if i < |ls| {
      GuardedWithCauseShape(ls, context, exception, debugEnabled, i + 1);
      assert ls[i..] == [ls[i]] + ls[i + 1..];
    }
  }

  /**
   * With an original exception present, every listener is told of the
   * failure, in order, however many of them throw; the broadcast returns
   * normally; and the log holds one entry per listener that threw, in the
   * order they threw, each built from that listener's error.
   */
  lemma {:induction false} GuardedWithCause(ls: seq<Listener>, context: Option<Context>, exception: Option<Error>,
                                            debugEnabled: bool)
    requires exception.Some?
    ensures Guarded(ls, context, exception, debugEnabled, 0).delivered == ls
    ensures Guarded(ls, context, exception, debugEnabled, 0).outcome == Returned
    ensures |Guarded(ls, context, exception, debugEnabled, 0).log| == |ThrowerIndices(ls, Failed(context, exception), 0)|
    ensures forall k :: 0 <= k < |ThrowerIndices(ls, Failed(context, exception), 0)| ==>
      Guarded(ls, context, exception, debugEnabled, 0).log[k]
        == SwallowedEntry(Reaction(ls[ThrowerIndices(ls, Failed(context, exception), 0)[k]], Failed(context, exception)).value,
                          debugEnabled)
  {
    GuardedWithCauseShape(ls, context, exception, debugEnabled, 0);
    SwallowedMatchesThrowers(ls, Failed(context, exception), debugEnabled, 0);
    SwallowedForAt(ls, Failed(context, exception), debugEnabled, ThrowerIndices(ls, Failed(context, exception), 0));
    assert ls[0..] == ls;
  }

  /**
   * Without an original exception, the failure broadcast behaves exactly as
   * a fail-fast one: the first listener error ends it and reaches the
   * caller, and nothing is logged.
   */
  lemma {:induction false} GuardedWithoutCause(ls: seq<Listener>, context: Option<Context>, debugEnabled: bool, i: nat)
    requires i <= |ls|
    ensures Guarded(ls, context, None, debugEnabled, i) == FailFast(ls, Failed(context, None), i)
    decreases |ls| - i
  {
    if i < |ls| && Reaction(ls[i], Failed(context, None)).None? {
      GuardedWithoutCause(ls, context, debugEnabled, i + 1);
    }
  }

  /**
   * Without an original exception, when exactly one listener `t` throws
   * while handling the failure, every listener up to `t` is told, none
   * after it, and `t`'s error becomes the caller-visible result.
   */
  lemma {:induction false} SoleThrowerReported(ls: seq<Listener>, context: Option<Context>, debugEnabled: bool, t: nat)
    requires t < |ls|
    requires Reaction(ls[t], Failed(context, None)).Some?
    requires forall j :: 0 <= j < |ls| && j != t ==> Reaction(ls[j], Failed(context, None)).None?
    ensures Guarded(ls, context, None, debugEnabled, 0)
         == Run(ls[..t + 1], [], Threw(Reaction(ls[t], Failed(context, None)).value))
  {
    GuardedWithoutCause(ls, context, debugEnabled, 0);
    FailFastUpTo(ls, Failed(context, None), 0, t);
    assert ls[0..t + 1] == ls[..t + 1];
  }
}
