# async-exit-hook, modelled in Dafny

A model of the shutdown coordinator of `async-exit-hook` (`src/index.ts`).
The coordinator keeps a handful of module globals:

- the normal hooks and the error hooks;
- the `called` flag;
- the `waitingFor` counter of async hooks still running;
- the force-exit timeout;
- the table of installed event listeners and the table of per-event filters.

Its public surface:

- `add`, `add.uncaughtExceptionHandler`, `add.unhandledRejectionHandler` and `add.forceExitTimeout` register things.
- `add.hookEvent`, `add.unhookEvent` and `add.hookedEvents` manage the triggers.
- The inner `exit(exit, code, err)` sequence runs every hook once. It counts the async ones, arms a force-exit timer, and lets its one-shot `doExit` issue `process.exit(code)`.

The model is a functional state machine. One immutable `State` record holds three things:

- the globals;
- the closure state of the single exit sequence that runs (its force flag, its code and its `doExitDone` guard);
- an explicit stand-in for the Node runtime: a sequence of subscriptions, a next-tick queue, one timer, a log of hook invocations and an exit record.

Each operation is a pure function on that record. `Runtime.Step` puts together every way the world can reach the coordinator:

- a registration call;
- an emitted event;
- a native error;
- a hook calling its completion callback;
- a queued tick running;
- the timer firing.

`Invariants.Inv` is preserved by every such step, provided each async hook calls its `stepTowardExit` callback at most once. A sync hook may call its no-op callback any number of times. The invariant also says that every `process.on` subscription holds the listener built for its own event. From it follow the counter bookkeeping, the one-shot exit, the no-early-exit guarantees and the filter veto on emitted events.

Files and modules:

- `model.dfy` (`Model`) — the datatypes and the initial state.
- `event_table.dfy` (`EventTable`) — the listener table, an insertion-ordered association list.
- `process.dfy` (`Process`) — the subscription list: listeners of an event, `removeListener`.
- `call_log.dfy` (`CallLog`) — counts over the hook invocation log.
- `coordinator.dfy` (`Coordinator`) — `exit`, `runHook`, `doExit`, `stepTowardExit`.
- `router.dfy` (`Router`) — `hookEvent`, `unhookEvent`, `hookedEvents`, the listener closure and its filter loop.
- `registry.dfy` (`Registry`) — `add`, the error-hook registrations, `forceExitTimeout`.
- `runtime.dfy` (`Runtime`) — the environment's events and the step function.
- `invariants.dfy` (`Invariants`) — the invariant and the theorems over every admissible trace.
- `scenarios.dfy` (`Scenarios`) — the behaviours the repository's test cases check.

Representation choices:

- A hook is an id plus its declared parameter count (what `Function.length` reports).
- The `err` value is an id plus its truthiness, since a rejection reason may be falsy.
- Invoking a hook appends a `Call` to the log. The hook later calling its callback is the separate event `Next(i)`.
- Every listener closure built by `hookEvent` gets a fresh identity. `unhookEvent` can therefore remove only the current one, as `removeListener` does, and earlier listeners stay subscribed.
- A caller's filter is judged by a verdict function passed in as a parameter. The built-in `message` filter is modelled exactly.

## Model

| member | source | states |
|---|---|---|
| Coordinator.Exit | src/index.ts:72-95 | A call after `called` is set changes nothing. The first call sets `called`, logs exactly the sequence's hook invocations and raises the counter by the number of async ones. Only then it either runs `doExit` (counter zero: done, and `process.exit(code)` queued iff forcing) or arms the timer with the configured timeout. Registration state and subscriptions are untouched. |
| Coordinator.StartSequence | src/index.ts:77-84 | Marks the sequence started, then appends the error-hook invocations (only for a truthy error) and the normal-hook invocations, and raises the counter by their async count. |
| Coordinator.RunErrorHooks | src/index.ts:80-83 | The error-hook batch runs only when the error is truthy. Its hooks are async only with more than one declared parameter. |
| Coordinator.RunHook | src/index.ts:51-70 | Running one hook logs one invocation, handed the error only when it is truthy. The hook gets `stepTowardExit`, and the counter rises by one, exactly when the sequence forces exit and the hook declares more than `syncArgCount` parameters. Nothing else changes. |
| Coordinator.RunHooks | src/index.ts:51-70 | Running a batch of hooks appends one invocation per hook in order, each handed the error only when it is truthy, and raises the counter by the number handed `stepTowardExit`. Nothing else changes. |
| Coordinator.SequenceOrder | src/index.ts:80-84 | The hooks invoked by a sequence are the error hooks (only when the error is truthy) followed by the normal hooks, each exactly once in registration order. Error hooks receive the error; normal hooks receive `null`. |
| Coordinator.AsyncCountIsClassified | src/index.ts:53-55 | The counter rises by exactly the number of hooks that are async: force flag set and declared parameters more than 1 for error hooks, more than 0 for normal ones. |
| Coordinator.NoAsyncWithoutForce | src/index.ts:52-53 | Without the force flag (the `exit` event) no hook is handed `stepTowardExit`, so the counter does not rise. |
| Coordinator.DoExit | src/index.ts:29-39 | `doExit` marks the sequence done. It queues `process.exit(code)` only the first time and only when the sequence forces exit. A second call changes nothing. |
| Coordinator.DoExitOneShot | src/index.ts:29-39 | `doExit` is idempotent, and it adds at most one queued `process.exit`. |
| Coordinator.CallNext | src/index.ts:42-48 | A hook calling its callback never changes the counter in the current turn. A real `stepTowardExit` queues one deferred decrement; the no-op queues nothing. |
| Coordinator.RunDecrement | src/index.ts:43-46 | The deferred decrement lowers the counter by one and runs `doExit` exactly when the result is zero. On zero the sequence is done, and `process.exit(code)` is queued iff the sequence forces exit and `doExit` had not run yet. Nothing but the counter, the sequence's done flag and the tick queue changes. |
| Router.FirstVeto | src/index.ts:125-129 | The filter loop returns the first filter whose verdict is truthy, with every earlier one falsy. It returns none exactly when no filter vetoes. |
| Router.RunHandler | src/index.ts:122-131 | A listener with a missing filter list throws. A vetoed payload changes nothing. Otherwise the listener calls `exit` with the force flag set exactly when its code is present, and with that code. |
| Router.RunListeners | src/index.ts:122-131 | The emitted event's listeners run in order. If every one is vetoed nothing changes. Otherwise the result is the exit sequence started by one of them, and nothing once `called` is set. When the first listener's filters let the payload through, the sequence is the one it starts with its own code, whatever the later listeners carry. |
| Router.Fire | src/index.ts:125-140 | Emitting an event either changes nothing or starts the exit sequence with the code of one of the listeners subscribed to that event. When the earliest subscribed listener's filters let the payload through, its code is the one used. |
| Router.FireVetoed | src/index.ts:122-129 | When every subscription holds its own event's listener and the event has no filter list, or one of its filters vetoes the payload, emitting it changes nothing. |
| Router.FirePasses | src/index.ts:122-130 | When every subscription holds its own event's listener and the event's filters let the payload through, the first subscribed listener starts the sequence with its code. |
| Router.SoleListenerStarts | src/index.ts:122-131 | An event whose one listener's filters let the payload through starts the exit sequence with that listener's code, forcing exactly when the code is present. |
| Router.HookEventListensLast | src/index.ts:119-140 | Hooking a name subscribes the new listener behind every listener the name already has. A listener from an earlier hooking of the same name stays subscribed and runs first. |
| Router.ShutdownFilter | src/index.ts:112-116 | The built-in `message` filter lets through exactly the `shutdown` payload. |
| Router.HookEvent | src/index.ts:121-141 | Installs or overwrites the name's listener with a fresh closure carrying the code. The name goes at the end of the listing only if it is new. Existing filters are kept and the given filter is appended. The new listener is subscribed. No other name's listener or filters change. |
| Router.UnhookEvent | src/index.ts:144-150 | For a hooked name, it unsubscribes the current listener once and removes the name from both tables. Every other name keeps its table entry and its listeners, in the same order. For a name that is not hooked it does nothing. |
| Router.HookedEvents | src/index.ts:153-161 | The listing holds exactly the names with an installed listener. |
| Router.HookUnhookRehook | test/async-exit-hook.test.ts:40-50 | A name is listed after `hookEvent`, not after `unhookEvent`, and listed again after rehooking. |
| EventTable.Put | src/index.ts:122 | Assigning a listener to a name: the name maps to it, other names keep theirs, and a new name is enumerated last. |
| EventTable.Delete | src/index.ts:147 | Deleting a name: it maps to nothing, other names keep their listeners, and the enumeration loses exactly that name. |
| Process.RemoveListener | src/index.ts:146 | Removing a subscribed listener cuts out its most recent occurrence, leaving the other subscriptions in order. Removing an absent one changes nothing. |
| Process.RemoveListenerKeepsOthers | src/index.ts:146 | Removing one subscription leaves every other event's listeners, and their order, unchanged. |
| Registry.HookAllInstalls | src/index.ts:101-116 | After a batch of `hookEvent` calls, each name carries the code of the last call naming it and ends with that call's filter. |
| Registry.HookAllSubscribes | src/index.ts:119-140 | A batch of `hookEvent` calls subscribes one listener per call, after the existing subscriptions and in call order. Each listener has a fresh identity and carries its call's name and code. |
| Registry.HookAllFrame | src/index.ts:119-140 | A batch of `hookEvent` calls changes only the event table, the filters, the handler counter and the listener list; hooks, the run and the timer stay as they were. |
| Registry.HookAllFilters | src/index.ts:130-136 | A batch keeps every name's filter list and appends, in call order, the filters its calls hand over for that name. A call without a filter appends none, and a fresh name starts empty. |
| Registry.InstallDefaults | src/index.ts:100-116 | Installing the defaults changes only the listener table, the filters, the identity counter and the subscriptions. Hooks, the sequence state and the runtime queues are untouched. |
| Registry.DefaultsSubscribed | src/index.ts:100-116 | Installing the defaults subscribes seven listeners, one per default trigger in the order `exit`, `beforeExit`, `SIGHUP`, `SIGINT`, `SIGTERM`, `SIGBREAK`, `message`. Each carries its trigger's code and a fresh identity. |
| Registry.DefaultsInstalled | src/index.ts:102-116 | The default triggers are installed with their codes: `exit` none, `beforeExit` 0, `SIGHUP` 129, `SIGINT` 130, `SIGTERM` 143, `SIGBREAK` 149, and `message` 0 ending with the shutdown filter. |
| Registry.Add | src/index.ts:98-118 | `add` appends the hook. Only the registration that makes the list one long installs the default triggers and subscribes one fresh listener per trigger, in trigger order. Every later one changes nothing but the hook list. |
| Registry.AddFilters | src/index.ts:98-116 | The first registration gives each default name exactly the filters of its `hookEvent` call: none, except the shutdown filter for `message`. Later registrations leave every filter list alone. |
| Registry.AddErrorHook | src/index.ts:164-179 | Appends to the shared error-hook list. Subscribes the channel only when the list becomes one long. |
| Registry.AddUncaughtExceptionHandler | src/index.ts:164-170 | Appends the error hook. It adds one `once` subscription to the uncaught-exception channel exactly when this is the first error hook, and adds nothing otherwise. Nothing else changes. |
| Registry.AddUnhandledRejectionHandler | src/index.ts:173-179 | Appends the error hook. It adds one `once` subscription to the rejection channel exactly when this is the first error hook, and adds nothing otherwise. Nothing else changes. |
| Registry.OnlyFirstErrorKindSubscribed | src/index.ts:164-179 | With a rejection handler registered first and an exception handler second, both hooks share the list but only the rejection channel is subscribed. |
| Registry.ForceExitTimeout | src/index.ts:182-184 | Sets the timeout a later sequence arms its timer with, and nothing else. |
| Runtime.DeliverError | src/index.ts:168 | A native error reaching a subscribed one-shot channel removes that subscription and calls `exit(true, 1, err)`. Every event's listeners stay as they were, in order. An unsubscribed channel does not involve the coordinator. |
| Runtime.RunNextTick | src/index.ts:37-47 | Running the next tick performs the queued `process.exit(code)` or the deferred decrement. |
| Runtime.FireForceTimer | src/index.ts:86-90 | The force-exit timer firing clears the timer, records the timeout and runs `doExit`. The sequence is left done, and `process.exit(code)` is queued iff the sequence forces exit and `doExit` had not run yet. Nothing else changes. |
| Runtime.Step | src/index.ts:25-184 | Once the process has exited no event changes anything. Registration events never touch the exit sequence, the log, the tick queue, the timer or the exit record. The process exits only by running a queued `process.exit(code)` task, with that code. |
| Invariants.ExitInv | src/index.ts:72-95 | The `exit` sequence preserves the invariant: the counter equals callbacks owed plus decrements queued, there is at most one exit, it has not drained early, and the timer is armed. |
| Invariants.NextInv | src/index.ts:42-48 | A hook's first callback call preserves the invariant. |
| Invariants.TickInv | src/index.ts:43-47 | Running a tick preserves the invariant. |
| Invariants.TimerInv | src/index.ts:86-90 | The timer firing preserves the invariant. |
| Invariants.StepInv | src/index.ts:25-184 | Every admissible event preserves the invariant. |
| Invariants.ExecuteInv | src/index.ts:25-184 | Every admissible trace preserves the invariant. |
| Invariants.CounterNeverNegative | src/index.ts:42-48 | If each `stepTowardExit` callback fires at most once, `waitingFor` never goes below zero. |
| Invariants.ExitIssuedAtMostOnce | src/index.ts:29-39 | `process.exit` is queued or performed at most once, only by a forcing sequence, and with that sequence's code. |
| Invariants.NoExitBeforeHooksFinish | src/index.ts:42-48 | Unless the force-exit timer fired, `doExit` has run only after every async hook called back and its decrement ran. |
| Invariants.SequenceAlwaysEnds | src/index.ts:86-94 | A started sequence has either run `doExit` or has its timer armed. |
| Invariants.HooksNeverRerun | src/index.ts:72-77 | Once the sequence has started, no event invokes any hook again. |
| Invariants.HookedEventsOnce | src/index.ts:153-161 | The hooked-events listing never lists a name twice. |
| Invariants.VetoedEmitChangesNothing | src/index.ts:122-129 | On every admissible run, emitting an event whose filters veto the payload, or which has no filter list, leaves the state unchanged. |
| Invariants.OtherMessageNeverStarts | src/index.ts:112-116 | On every admissible run, while the shutdown filter guards `message`, a message other than `shutdown` leaves the state unchanged. |
| Scenarios.AsyncShutdownMessage | test/cases/async.ts:4-16 | On `shutdown`, an async hook and then a sync hook run. The counter waits for one; after the callback and the deferred decrement the process exits with 0. |
| Scenarios.LastCallbackExits | src/index.ts:42-47 | When the last awaited hook of a forcing sequence calls back, the deferred decrement reaches zero, `doExit` queues the exit, and the next tick exits with the sequence's code. |
| Scenarios.OtherMessageVetoed | src/index.ts:112-116 | A `message` other than `shutdown` does nothing. |
| Scenarios.InterruptExitCode | src/index.ts:105 | On `SIGINT` the hook runs and the process exits with 130. |
| Scenarios.SyncSequenceExits | src/index.ts:72-95 | A forcing sequence over one sync hook queues its exit at once, and the next tick exits with its code. |
| Scenarios.RehookedInterruptKeepsFirstCode | src/index.ts:119-140 | Hooking `SIGINT` again with code 1 after the defaults leaves the default listener first. On `SIGINT` the process exits with 130, not 1. |
| Scenarios.FirstRegistration | src/index.ts:98-140 | Registering the first hook from the initial state leaves nothing triggered. The interrupt has one listener, with code 130 and no filters, and `message` has one listener, with code 0 and the shutdown filter. |
| Scenarios.RegisteredInterruptExits | src/index.ts:98-140 | Registering one sync hook and then interrupting the process runs the hook and exits with 130. |
| Scenarios.RegisteredRehookKeepsFirstCode | src/index.ts:119-140 | After the first registration, re-hooking the interrupt with code 1 adds a second listener behind the default one, so an interrupt still exits with 130. |
| Scenarios.ProcessExitRunsHooksSynchronously | test/cases/async-process-exit.ts:4-19 | On the `exit` event an async hook is handed the no-op, nothing is awaited, and the coordinator issues no exit of its own. |
| Scenarios.UncaughtErrorTimesOut | test/cases/async-exit-timeout.ts:4-28 | On an uncaught error, the error hook runs first with the error, then the normal hooks with none. Two callbacks are awaited; when neither arrives, the 500 ms timer forces exit code 1. |

## Left out

- Node's runtime primitives are replaced by explicit state:
  - `process.on`, `process.once` and `process.removeListener` by a subscription sequence;
  - `process.nextTick` by a FIFO tick queue;
  - `setTimeout` by one pending timer;
  - `process.exit` by an exit record.
  Real time, OS signals and Node's own listener bookkeeping are not modelled.
- Event interleaving: the environment may interleave any event with pending ticks and the timer. This is a superset of Node's scheduling, so the invariants hold a fortiori.
- Hook and filter bodies are not modelled. A hook is an id plus its declared parameter count; a caller's filter is a verdict function. `this`, `arguments` and `apply` (src/index.ts:126) are not modelled.
- The `exit` event that `process.exit` itself emits, and the listeners it runs, are not modelled. The model records the exit and stops.
- Node's default handling of an error with no listener (printing it and exiting with 1) is not modelled.
- An error thrown by a stale listener whose filters `unhookEvent` deleted is modelled as stopping the emit (`Router.RunHandler` faulted). Its delivery as an uncaught exception is left to the environment's `Deliver` event.
- Exceptions thrown by hooks, and hooks re-entering the API, are not modelled.
- Invariants.StepInv: the invariant is proved only for admissible events, where each `stepTowardExit` callback fires at most once. The source does not guard against a second call, which would decrement `waitingFor` twice.
- Runtime.RunNextTick: for a decrement it states the counter, the log and the exit record; what `doExit` then does, including the queued exit, is stated by Coordinator.RunDecrement.
- Runtime.Step: beyond the post-exit no-op, the registration frame and the exit-only-by-tick rule, what each event does is stated by the member it dispatches to.
- `process.exit(undefined)` exits with the process's current exit code. The model records the code as absent (`None`) and does not resolve it.
- Event names are taken to enumerate in insertion order. A plain object lists integer-like keys first, in numeric order. The names hooked here (`exit`, `beforeExit`, the `SIG*` signals, `message`) are not integer-like, so this does not arise for them. Integer-like names passed to `hookEvent` are not modelled.
- Timeouts are unbounded integers; the timer's millisecond argument is only stored.
