/**
 The data model of the shutdown coordinator: the module globals of the
 coordinator (its hook lists, the `called` flag, the pending counter, the
 timeout, the event and filter tables), the closure state of the one exit
 sequence that runs, and an explicit stand-in for the runtime around it
 (listener subscriptions, a next-tick queue, a single timer, a log of hook
 invocations and the final exit record).
 */
module Model {

  datatype Option<T> = None | Some(value: T)

  /** A registered hook: an opaque identity and the number of parameters it
      declares (what the runtime reports as the function's length). */
  datatype Hook = Hook(id: nat, arity: nat)

  /** A value delivered as the `err` argument. `truthy` records whether the
      runtime treats it as true: an Error object is, but a rejection reason
      may be `undefined`, `0` or `''`. */
  datatype Reason = Reason(id: nat, truthy: bool)

  /** The completion callback a hook receives: a no-op, or the sequence's
      `stepTowardExit`. */
  datatype Callback = Noop | StepTowardExit

  /** One invocation of a hook, as recorded by the environment: which hook,
      the error it was given (`None` stands for `null`), the callback it was
      given, and whether the hook has since called that callback. */
  datatype Call = Call(hook: Hook, err: Option<Reason>, next: Callback, completed: bool)

  /** The arguments an event is emitted with, as far as filters look at them. */
  datatype Payload = NoPayload | Text(text: string) | Number(n: int)

  /** A filter on an event: the built-in one on `message`, which vetoes every
      payload except the shutdown keyword, or a caller's filter, whose verdict
      the environment supplies. */
  datatype Filter = ShutdownOnly | Custom(id: nat)

  /** The listener closure `hookEvent` builds: a fresh identity, the event it
      was built for and the exit code it captured (`None` for both `undefined`
      and `null`). */
  datatype Handler = Handler(id: nat, event: string, code: Option<int>)

  /** The two native error channels. */
  datatype Channel = UncaughtException | UnhandledRejection

  /** A subscription held by the process: a persistent listener on a named
      event, or a one-shot listener on an error channel that calls
      `exit(true, 1, err)`. */
  datatype Subscription = On(event: string, handler: Handler) | Once(channel: Channel)

  /** A queued next-tick task: the deferred decrement scheduled by
      `stepTowardExit`, or the deferred `process.exit(code)` scheduled by
      `doExit`. */
  datatype Tick = Decrement | ProcessExit(code: Option<int>)

  /** The closure state of the exit sequence that ran: its force flag, its
      exit code and its one-shot `doExitDone` guard. */
  datatype Run = Run(exit: bool, code: Option<int>, doExitDone: bool)

  datatype State = State(
    // module globals
    hooks: seq<Hook>,
    errHooks: seq<Hook>,
    called: bool,
    waitingFor: int,
    asyncTimeoutMs: int,
    events: seq<(string, Handler)>,
    filters: map<string, seq<Filter>>,
    // source of fresh closure identities
    nextHandler: nat,
    // the exit sequence that ran, once one has
    run: Option<Run>,
    // the environment
    subs: seq<Subscription>,
    ticks: seq<Tick>,
    timer: Option<int>,
    timedOut: bool,
    log: seq<Call>,
    exited: Option<Option<int>>
  )

  /** The default force-exit timeout, `10e3` milliseconds. */
  const DefaultTimeoutMs: int := 10000

  /** The state at module load: nothing registered, nothing hooked. */
  function Init(): State {
    State([], [], false, 0, DefaultTimeoutMs, [], map[], 0, None, [], [], None, false, [], None)
  }
}
