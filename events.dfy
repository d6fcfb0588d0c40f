/**
 * The values that flow through the run-listener broadcaster: the opaque
 * payloads of each startup phase, the errors a listener may raise, the
 * listeners themselves (each reduced to how it reacts to each notification),
 * the record of listener invocations and the entries written to the log.
 */
module Events {

  datatype Option<+T> = None | Some(value: T)

  /** The prepared environment; passed through to listeners, never inspected. */
  datatype Environment = Environment(id: nat)

  /** An application context; passed through to listeners, never inspected. */
  datatype Context = Context(id: nat)

  /** A throwable: an identity and a message that may be absent (null). */
  datatype Error = Error(id: nat, message: Option<string>)

  /**
   * One notification a listener can receive: the listener method that is
   * called, together with the arguments it is called with. In `Failed`, both
   * the context and the original exception may be absent.
   */
  datatype Event =
    | Starting
    | EnvironmentPrepared(environment: Environment)
    | ContextPrepared(context: Context)
    | ContextLoaded(context: Context)
    | Started(context: Context)
    | Running(context: Context)
    | Failed(failedContext: Option<Context>, exception: Option<Error>)

  /**
   * A run listener, seen only from outside: the notifications on which its
   * method throws, and the error it throws on each. On every other
   * notification its method returns normally.
   */
  datatype Listener = Listener(id: nat, throwsOn: map<Event, Error>)

  /** What calling the listener's method for `ev` does: `Some(e)` if it throws `e`. */
  function Reaction(l: Listener, ev: Event): Option<Error>
  {
    if ev in l.throwsOn then Some(l.throwsOn[ev]) else None
  }

  /** How a call ends: it returns normally, or it throws an error to its caller. */
  datatype Outcome = Returned | Threw(error: Error)

  /** One invocation of a listener's method for a notification. */
  datatype Call = Call(listener: Listener, event: Event)

  /** The invocations made when `ls` are notified of `ev`, one each, in order. */
  function Deliveries(ls: seq<Listener>, ev: Event): seq<Call>
  {
    seq(|ls|, j requires 0 <= j < |ls| => Call(ls[j], ev))
  }

  /** After the invocations `before`, delivering to one more listener appends one invocation. */
  lemma DeliveriesExtend(before: seq<Call>, ls: seq<Listener>, i: nat, ev: Event)
    requires i < |ls|
    ensures before + Deliveries(ls[..i + 1], ev) == before + Deliveries(ls[..i], ev) + [Call(ls[i], ev)]
  {
    assert Deliveries(ls[..i + 1], ev) == Deliveries(ls[..i], ev) + [Call(ls[i], ev)];
  }

  /** A log entry: error level with a throwable attached, or warn level with text only. */
  datatype LogEntry = ErrorEntry(message: string, throwable: Error) | WarnEntry(message: string)

  const FailureHeading: string := "Error handling failed"
  const NoErrorMessage: string := "no error message"

  /**
   * The entry logged for an error that a listener raised while handling a
   * failure and that is swallowed: with debug logging, an error-level entry
   * carrying the throwable; otherwise a warn-level entry naming the error's
   * message, or a placeholder when the message is absent.
   */
  function SwallowedEntry(e: Error, debugEnabled: bool): LogEntry
  {
    if debugEnabled then ErrorEntry(FailureHeading, e)
    else
      var message := match e.message case Some(m) => m case None => NoErrorMessage;
      WarnEntry(FailureHeading + " (" + message + ")")
  }
}
