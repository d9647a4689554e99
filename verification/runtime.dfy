/**
 The environment driving the coordinator: every way the outside world can
 reach it, as one step function over the state. Registration calls come from
 application code; emits and error deliveries come from the process; a hook
 calling its completion callback, a queued tick running and the timer firing
 are the runtime's own events. Once `process.exit` has run, nothing happens.
 */
module Runtime {
  import opened Model
  import Coordinator
  import Router
  import Registry
  import Process

  datatype Event =
    | Register(hook: Hook)
    | RegisterUncaughtException(hook: Hook)
    | RegisterUnhandledRejection(hook: Hook)
    | SetForceExitTimeout(ms: int)
    | HookTrigger(name: string, code: Option<int>, filter: Option<Filter>)
    | UnhookTrigger(name: string)
    | Emit(name: string, payload: Payload)
    | Deliver(channel: Channel, reason: Reason)
    | Next(index: nat)
    | RunTick
    | FireTimer

  /** An error delivered on a native channel. The one-shot listener, when
      subscribed, is removed and calls `exit(true, 1, err)`; without it the
      coordinator is not involved. */
  function DeliverError(s: State, channel: Channel, err: Reason): (r: State)
    ensures Once(channel) !in s.subs ==> r == s
    ensures Once(channel) in s.subs ==>
              multiset(r.subs) == multiset(s.subs) - multiset{Once(channel)}
              && r == Coordinator.Exit(s.(subs := r.subs), true, Some(1), Some(err))
    ensures forall n :: Process.Listeners(r.subs, n) == Process.Listeners(s.subs, n)
  {
    Process.RemoveListenerKeepsOthers(s.subs, Once(channel));
    if Once(channel) in s.subs then
      Coordinator.Exit(s.(subs := Process.RemoveListener(s.subs, Once(channel))), true, Some(1), Some(err))
    else s
  }

  /** The next queued tick runs: a deferred decrement, or `process.exit(code)`,
      which records the exit. An empty queue does nothing. */
  function RunNextTick(s: State): (r: State)
    ensures s.ticks == [] ==> r == s
    ensures s.ticks != [] && s.ticks[0].ProcessExit? ==>
              r == s.(ticks := s.ticks[1..], exited := Some(s.ticks[0].code))
    ensures s.ticks != [] && s.ticks[0] == Decrement ==>
              r.waitingFor == s.waitingFor - 1 && r.log == s.log && r.exited == s.exited
  {
    if s.ticks == [] then s
    else match s.ticks[0]
      case Decrement => Coordinator.RunDecrement(s.(ticks := s.ticks[1..]))
      case ProcessExit(code) => s.(ticks := s.ticks[1..], exited := Some(code))
  }

  /** The force-exit timer fires: `doExit` runs whatever is still pending,
      and queues the exit unless the sequence already finished or does not
      force exit. */
  function FireForceTimer(s: State): (r: State)
    ensures s.timer.None? ==> r == s
    ensures s.timer.Some? && s.run.Some? ==> r.timedOut && r.timer.None? && r.run.Some? && r.run.value.doExitDone
    ensures s.timer.Some? && s.run.Some? ==> r.run == Some(s.run.value.(doExitDone := true))
    ensures s.timer.Some? && s.run.Some? && !s.run.value.doExitDone && s.run.value.exit ==>
              r.ticks == s.ticks + [ProcessExit(s.run.value.code)]
    ensures s.timer.Some? && s.run.Some? && (s.run.value.doExitDone || !s.run.value.exit) ==>
              r.ticks == s.ticks
    ensures s.timer.Some? ==> r == s.(timer := None, timedOut := true, run := r.run, ticks := r.ticks)
  {
    if s.timer.None? then s
    else Coordinator.DoExit(s.(timer := None, timedOut := true))
  }

  /** One event. After `process.exit` has run the state never changes;
      registrations never touch a sequence; and the process exits only by
      running a queued `process.exit` task. */
  function Step(s: State, ev: Event, verdict: (nat, Payload) -> bool): (r: State)
    ensures s.exited.Some? ==> r == s
    ensures ev.Register? || ev.RegisterUncaughtException? || ev.RegisterUnhandledRejection? ||
            ev.SetForceExitTimeout? || ev.HookTrigger? || ev.UnhookTrigger? ==>
              && r.called == s.called && r.run == s.run && r.waitingFor == s.waitingFor
              && r.log == s.log && r.ticks == s.ticks && r.timer == s.timer && r.exited == s.exited
    ensures s.exited.None? && r.exited.Some? ==>
              ev.RunTick? && s.ticks != [] && s.ticks[0] == ProcessExit(r.exited.value)
  {
    if s.exited.Some? then s
    else
      match ev
      case Register(h) => Registry.Add(s, h)
      case RegisterUncaughtException(h) => Registry.AddUncaughtExceptionHandler(s, h)
      case RegisterUnhandledRejection(h) => Registry.AddUnhandledRejectionHandler(s, h)
      case SetForceExitTimeout(ms) => Registry.ForceExitTimeout(s, ms)
      case HookTrigger(name, code, filter) => Router.HookEvent(s, name, code, filter)
      case UnhookTrigger(name) => Router.UnhookEvent(s, name)
      case Emit(name, payload) => Router.Fire(s, name, payload, verdict).state
      case Deliver(channel, reason) => DeliverError(s, channel, reason)
      case Next(i) => Coordinator.CallNext(s, i)
      case RunTick => RunNextTick(s)
      case FireTimer => FireForceTimer(s)
  }

  /** A sequence of events, in order. */
  function Execute(s: State, evs: seq<Event>, verdict: (nat, Payload) -> bool): State
    decreases |evs|
  {
    if evs == [] then s else Execute(Step(s, evs[0], verdict), evs[1..], verdict)
  }

  /** The one assumption about hooks: each async hook calls its
      `stepTowardExit` callback at most once. A sync hook may call its no-op
      callback as often as it likes. */
  predicate Admissible(s: State, ev: Event) {
    ev.Next? && ev.index < |s.log| && s.log[ev.index].next == StepTowardExit ==> !s.log[ev.index].completed
  }

  predicate AdmissibleTrace(s: State, evs: seq<Event>, verdict: (nat, Payload) -> bool)
    decreases |evs|
  {
    evs == [] || (Admissible(s, evs[0]) && AdmissibleTrace(Step(s, evs[0], verdict), evs[1..], verdict))
  }
}
