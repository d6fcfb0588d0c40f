# Run-listener broadcaster

A model, in Dafny, of `SpringApplicationRunListeners`, the Spring Boot class
that holds the application's `SpringApplicationRunListener`s and notifies
them as an application run proceeds: `starting`, `environmentPrepared`,
`contextPrepared`, `contextLoaded`, `started`, `running` and `failed`.

- `events.dfy` (module `Events`): the values involved. Environments and
  contexts are opaque handles. An `Error` is a throwable with a message that
  may be absent. An `Event` is one notification: the listener method called
  and its arguments. A `Listener` is seen only from outside, as the
  notifications on which its method throws and what it throws. A `LogEntry`
  is an error-level entry with a throwable or a warn-level entry with text.
  `SwallowedEntry` is the entry written for a swallowed error.
- `broadcast.dfy` (module `Broadcast`): the reference semantics of one
  broadcast as functions on values. `FailFast` is the six non-failure
  phases: the first listener that throws ends the loop, and its error goes to
  the caller. `Guarded` and `GuardedCall` are `failed`: a listener's
  error is rethrown when the original exception is null, and otherwise
  logged and swallowed. Beside them are the lemmas stating what these
  guarantee.
- `run_listeners.dfy` (module `RunListeners`): the class
  `SpringApplicationRunListeners`. The listener list and the debug flag are
  `const` fields, set only by the constructor. `calls` records every
  listener invocation, in order, with its arguments. `log` records every log
  entry written. Each phase method is a loop over the listeners, proved to
  leave `calls`, `log` and its result exactly as the reference semantics
  says. A thrown exception is modelled as a returned `Outcome`:
  `Returned` or `Threw(e)`.

The six non-failure phase methods in the source are six copies of one loop.
They differ only in which listener method is called and with what. The model
writes that loop once, as `Notify(ev)`, and each phase method passes its own
`Event`. Some descriptions of this component count five non-failure phases
plus `starting`. The code has six non-failure phase methods, and the model
follows the code.

## Model

| member | source | states |
|---|---|---|
| RunListeners.SpringApplicationRunListeners.constructor | spring-boot-project/spring-boot/src/main/java/org/springframework/boot/SpringApplicationRunListeners.java:40-43 | the broadcaster holds exactly the given listeners, in the given order; nothing has been invoked or logged |
| RunListeners.SpringApplicationRunListeners.Invoke | spring-boot-project/spring-boot/src/main/java/org/springframework/boot/SpringApplicationRunListeners.java:49-50 | one listener call: it is recorded with its arguments, and it returns or throws as that listener does for that notification |
| RunListeners.SpringApplicationRunListeners.Notify | spring-boot-project/spring-boot/src/main/java/org/springframework/boot/SpringApplicationRunListeners.java:48-102 | the shared phase loop: the new invocations are exactly `FailFast`'s, each carrying the same unchanged event; the result is `FailFast`'s; the log is unchanged |
| RunListeners.SpringApplicationRunListeners.Starting | spring-boot-project/spring-boot/src/main/java/org/springframework/boot/SpringApplicationRunListeners.java:48-52 | `starting` notifies the listeners fail-fast, as `Notify` does |
| RunListeners.SpringApplicationRunListeners.EnvironmentPrepared | spring-boot-project/spring-boot/src/main/java/org/springframework/boot/SpringApplicationRunListeners.java:58-62 | `environmentPrepared` passes the same environment to each listener, fail-fast |
| RunListeners.SpringApplicationRunListeners.ContextPrepared | spring-boot-project/spring-boot/src/main/java/org/springframework/boot/SpringApplicationRunListeners.java:68-72 | `contextPrepared` passes the same context to each listener, fail-fast |
| RunListeners.SpringApplicationRunListeners.ContextLoaded | spring-boot-project/spring-boot/src/main/java/org/springframework/boot/SpringApplicationRunListeners.java:78-82 | `contextLoaded` passes the same context to each listener, fail-fast |
| RunListeners.SpringApplicationRunListeners.Started | spring-boot-project/spring-boot/src/main/java/org/springframework/boot/SpringApplicationRunListeners.java:88-92 | `started` passes the same context to each listener, fail-fast |
| RunListeners.SpringApplicationRunListeners.Running | spring-boot-project/spring-boot/src/main/java/org/springframework/boot/SpringApplicationRunListeners.java:98-102 | `running` passes the same context to each listener, fail-fast |
| RunListeners.SpringApplicationRunListeners.Failed | spring-boot-project/spring-boot/src/main/java/org/springframework/boot/SpringApplicationRunListeners.java:110-114 | the new invocations, the new log entries and the result are exactly those of `Guarded` for the given context and exception |
| RunListeners.SpringApplicationRunListeners.CallFailedListener | spring-boot-project/spring-boot/src/main/java/org/springframework/boot/SpringApplicationRunListeners.java:116-134 | one guarded call: recorded once. If the listener throws and the exception is null, the error is rethrown and nothing is logged. If it throws otherwise, one `SwallowedEntry` is logged (error level with the throwable when debug is on; otherwise warn level with "Error handling failed (" + message + ")", or "no error message" for a null message) and the call returns |
| Broadcast.FirstThrower | spring-boot-project/spring-boot/src/main/java/org/springframework/boot/SpringApplicationRunListeners.java:49-51 | the position of the first listener that throws: every listener before it returns normally, and it throws unless it is the end of the list |
| Broadcast.ThrowerIndices | spring-boot-project/spring-boot/src/main/java/org/springframework/boot/SpringApplicationRunListeners.java:118-121 | the positions of listeners whose `failed` call throws: each is in range and each listener there throws |
| Broadcast.ThrowerIndicesSorted | spring-boot-project/spring-boot/src/main/java/org/springframework/boot/SpringApplicationRunListeners.java:111-113 | those positions are in strictly increasing (registration) order, so none appears twice |
| Broadcast.ThrowerIndicesComplete | spring-boot-project/spring-boot/src/main/java/org/springframework/boot/SpringApplicationRunListeners.java:111-113 | every listener that throws has its position listed |
| Broadcast.FailFastUpTo | spring-boot-project/spring-boot/src/main/java/org/springframework/boot/SpringApplicationRunListeners.java:48-52 | if listeners i..k-1 return and listener k throws, the broadcast from i invokes exactly listeners i..k and ends with k's error; if none throws, it invokes all of them and returns |
| Broadcast.FailFastCharacterization | spring-boot-project/spring-boot/src/main/java/org/springframework/boot/SpringApplicationRunListeners.java:48-102 | every non-failure phase invokes the listeners up to and including the first that throws, and none after it; the caller gets exactly that listener's error, or a normal return when none throws; nothing is logged |
| Broadcast.QuietBroadcast | spring-boot-project/spring-boot/src/main/java/org/springframework/boot/SpringApplicationRunListeners.java:48-102 | when no listener throws, a phase invokes every listener once, in registration order, returns normally and logs nothing |
| Broadcast.SwallowedMatchesThrowers | spring-boot-project/spring-boot/src/main/java/org/springframework/boot/SpringApplicationRunListeners.java:121-132 | the entries swallowed across the listener list are one per throwing listener, in the order of `ThrowerIndices` |
| Broadcast.GuardedWithCauseShape | spring-boot-project/spring-boot/src/main/java/org/springframework/boot/SpringApplicationRunListeners.java:110-133 | with a non-null exception, `failed` from position i invokes every remaining listener and returns normally, having logged one entry per throwing listener |
| Broadcast.GuardedWithCause | spring-boot-project/spring-boot/src/main/java/org/springframework/boot/SpringApplicationRunListeners.java:110-133 | with a non-null exception, `failed` invokes every listener in order, however many throw, and returns normally. The log has as many entries as listeners that threw, and entry k is the one for the k-th throwing listener's error |
| Broadcast.GuardedWithoutCause | spring-boot-project/spring-boot/src/main/java/org/springframework/boot/SpringApplicationRunListeners.java:118-123 | with a null exception, `failed` behaves exactly like a fail-fast phase: the first listener error ends the loop and reaches the caller, and nothing is logged |
| Broadcast.SoleThrowerReported | spring-boot-project/spring-boot/src/main/java/org/springframework/boot/SpringApplicationRunListeners.java:118-123 | with a null exception and exactly one listener t throwing, listeners 0..t are invoked, none after, nothing is logged, and t's error is the result |

## Left out

- `EnableAutoConfiguration.java` is an annotation declaration with attribute defaults and a property-name constant, and has no behaviour to model. The selector it imports, `AutoConfigurationImportSelector`, is not part of this model.
- What listeners do inside their methods. A listener is modelled only by the notifications on which it throws. Its reaction to a notification is therefore fixed: a listener whose behaviour depends on earlier calls is not modelled.
- `ConfigurableEnvironment` and `ConfigurableApplicationContext` are opaque handles passed through unchanged.
- The `Log` backend. `isDebugEnabled()` is a boolean fixed at construction. The log is a sequence that starts empty and only grows. Errors raised by the log itself are not modelled.
- `ReflectionUtils.rethrowRuntimeException` wraps checked exceptions in `UndeclaredThrowableException`. The model rethrows the listener's error itself.
- `Throwable.getMessage()` is modelled as a message stored with the error, possibly absent.
- Phase order. The class neither checks nor enforces that phases are called in order or only once, and the model claims neither.
- Null arguments other than `failed`'s context and exception: a null listener collection or a null listener element would raise a `NullPointerException`; the model has no nulls there.
- Aliasing of the collection passed to the constructor. The source copies it into a new `ArrayList`. The model takes the sequence as a value, so a later change to the caller's collection cannot affect it, and that independence is not stated separately.
