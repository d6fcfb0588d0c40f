/**
 * The broadcaster itself: a fixed, ordered list of run listeners, notified
 * one phase at a time. Calling a listener is recorded in `calls`; what the
 * broadcaster writes to its log is recorded in `log`. Each phase method is a
 * loop proved to do exactly what the reference semantics in `Broadcast`
 * says, whose guarantees are proved there.
 */
module RunListeners {
  import opened Events
  import opened Broadcast

  class SpringApplicationRunListeners {
    /** The listeners, in registration order; fixed at construction. */
    const listeners: seq<Listener>
    /** Whether the log is enabled at debug level. */
    const debugEnabled: bool
    /** Every listener invocation made so far, in order. */
    var calls: seq<Call>
    /** Every entry written to the log so far, in order. */
    var log: seq<LogEntry>

    /** Copies the given listeners, keeping their order; nothing is invoked or logged yet. */
    constructor (debugEnabled: bool, listeners: seq<Listener>)
      ensures this.listeners == listeners && this.debugEnabled == debugEnabled
      ensures calls == [] && log == []
    {
      this.listeners := listeners;
      this.debugEnabled := debugEnabled;
      calls := [];
      log := [];
    }

    /** Calls the method of `l` that handles `ev`; it returns or throws as `l` reacts. */
    method Invoke(l: Listener, ev: Event) returns (r: Outcome)
      modifies this
      ensures calls == old(calls) + [Call(l, ev)] && log == old(log)
      ensures r == match Reaction(l, ev) case None => Returned case Some(e) => Threw(e)
    {
      calls := calls + [Call(l, ev)];
      r := match Reaction(l, ev) case None => Returned case Some(e) => Threw(e);
    }

    /**
     * Notifies every listener of `ev`, in order, with no error handling: a
     * listener's error ends the loop and is thrown to the caller.
     */
    method Notify(ev: Event) returns (r: Outcome)
      modifies this
      ensures calls == old(calls) + Deliveries(FailFast(listeners, ev, 0).delivered, ev)
      ensures log == old(log) + FailFast(listeners, ev, 0).log
      ensures r == FailFast(listeners, ev, 0).outcome
    {
      var i := 0;
      while i < |listeners|
        invariant 0 <= i <= |listeners|
        invariant Resumes(FailFast(listeners, ev, 0), listeners[..i], [], FailFast(listeners, ev, i))
        invariant calls == old(calls) + Deliveries(listeners[..i], ev)
        invariant log == old(log)
      {
        DeliveriesExtend(old(calls), listeners, i, ev);
        var o := Invoke(listeners[i], ev);
        if o.Threw? {
          FailFastStops(listeners, ev, i, []);
          return o;
        }
        FailFastAdvance(listeners, ev, i, []);
        i := i + 1;
      }
      Finished(FailFast(listeners, ev, 0), listeners, []);
      r := Returned;
    }

    method Starting() returns (r: Outcome)
      modifies this
      ensures calls == old(calls) + Deliveries(FailFast(listeners, Event.Starting, 0).delivered, Event.Starting)
      ensures log == old(log) + FailFast(listeners, Event.Starting, 0).log
      ensures r == FailFast(listeners, Event.Starting, 0).outcome
    {
      r := Notify(Event.Starting);
    }

    method EnvironmentPrepared(environment: Environment) returns (r: Outcome)
      modifies this
      ensures var ev := Event.EnvironmentPrepared(environment);
        && calls == old(calls) + Deliveries(FailFast(listeners, ev, 0).delivered, ev)
        && log == old(log) + FailFast(listeners, ev, 0).log
        && r == FailFast(listeners, ev, 0).outcome
    {
      r := Notify(Event.EnvironmentPrepared(environment));
    }

    method ContextPrepared(context: Context) returns (r: Outcome)
      modifies this
      ensures var ev := Event.ContextPrepared(context);
        && calls == old(calls) + Deliveries(FailFast(listeners, ev, 0).delivered, ev)
        && log == old(log) + FailFast(listeners, ev, 0).log
        && r == FailFast(listeners, ev, 0).outcome
    {
      r := Notify(Event.ContextPrepared(context));
    }

    method ContextLoaded(context: Context) returns (r: Outcome)
      modifies this
      ensures var ev := Event.ContextLoaded(context);
        && calls == old(calls) + Deliveries(FailFast(listeners, ev, 0).delivered, ev)
        && log == old(log) + FailFast(listeners, ev, 0).log
        && r == FailFast(listeners, ev, 0).outcome
    {
      r := Notify(Event.ContextLoaded(context));
    }

    method Started(context: Context) returns (r: Outcome)
      modifies this
      ensures var ev := Event.Started(context);
        && calls == old(calls) + Deliveries(FailFast(listeners, ev, 0).delivered, ev)
        && log == old(log) + FailFast(listeners, ev, 0).log
        && r == FailFast(listeners, ev, 0).outcome
    {
      r := Notify(Event.Started(context));
    }

    method Running(context: Context) returns (r: Outcome)
      modifies this
      ensures var ev := Event.Running(context);
        && calls == old(calls) + Deliveries(FailFast(listeners, ev, 0).delivered, ev)
        && log == old(log) + FailFast(listeners, ev, 0).log
        && r == FailFast(listeners, ev, 0).outcome
    {
      r := Notify(Event.Running(context));
    }

    /**
     * Tells every listener, in order, that the run failed with `exception`
     * (either may be absent), each call guarded as `CallFailedListener` does.
     */
    method Failed(context: Option<Context>, exception: Option<Error>) returns (r: Outcome)
      modifies this
      ensures calls == old(calls) + Deliveries(Guarded(listeners, context, exception, debugEnabled, 0).delivered,
                                               Event.Failed(context, exception))
      ensures log == old(log) + Guarded(listeners, context, exception, debugEnabled, 0).log
      ensures r == Guarded(listeners, context, exception, debugEnabled, 0).outcome
    {
      ghost var ev := Event.Failed(context, exception);
      ghost var logged: seq<LogEntry> := [];
      var i := 0;
      while i < |listeners|
        invariant 0 <= i <= |listeners|
        invariant Resumes(Guarded(listeners, context, exception, debugEnabled, 0), listeners[..i], logged,
                          Guarded(listeners, context, exception, debugEnabled, i))
        invariant calls == old(calls) + Deliveries(listeners[..i], ev)
        invariant log == old(log) + logged
      {
        DeliveriesExtend(old(calls), listeners, i, ev);
        var o := CallFailedListener(listeners[i], context, exception);
        if o.Threw? {
          GuardedStops(listeners, context, exception, debugEnabled, i, logged);
          return o;
        }
        GuardedAdvance(listeners, context, exception, debugEnabled, i, logged);
        logged := logged + GuardedCall(listeners[i], context, exception, debugEnabled).log;
        i := i + 1;
      }
      Finished(Guarded(listeners, context, exception, debugEnabled, 0), listeners, logged);
      r := Returned;
    }

    /**
     * Tells one listener that the run failed. An error it raises is thrown
     * on when there is no original exception; otherwise it is swallowed and
     * logged, with the throwable at error level when debug logging is
     * enabled, or as a warning naming the error's message otherwise.
     */
    method CallFailedListener(l: Listener, context: Option<Context>, exception: Option<Error>) returns (r: Outcome)
      modifies this
      ensures calls == old(calls) + [Call(l, Event.Failed(context, exception))]
      ensures log == old(log) + GuardedCall(l, context, exception, debugEnabled).log
      ensures r == GuardedCall(l, context, exception, debugEnabled).outcome
    {
      var o := Invoke(l, Event.Failed(context, exception));
      if o.Threw? {
        if exception.None? {
          return o;
        }
        if debugEnabled {
          log := log + [ErrorEntry(FailureHeading, o.error)];
        } else {
          var message := match o.error.message case Some(m) => m case None => NoErrorMessage;
          log := log + [WarnEntry(FailureHeading + " (" + message + ")")];
        }
      }
      r := Returned;
    }
  }
}
