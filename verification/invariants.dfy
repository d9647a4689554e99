/**
 The invariant every reachable state keeps, its preservation by every
 event (given that each completion callback fires at most once), and the
 guarantees that follow: the pending counter never goes negative, the exit
 is issued at most once, the process never exits ahead of an async hook
 unless the timeout fired, a started sequence always has a way to end, and
 no hook runs a second time.
 */
module Invariants {
  import opened Model
  import opened EventTable
  import opened CallLog
  import opened Process
  import opened Coordinator
  import Router
  import Registry
  import opened Runtime

  /** The listener table and the filter table name the same events, each once. */
  ghost predicate TablesAgree(s: State) {
    Distinct(Keys(s.events)) && forall n :: n in s.filters <==> n in Keys(s.events)
  }

  /** Before the first exit call nothing of a sequence exists. */
  ghost predicate Idle(s: State) {
    !s.called ==>
      s.run.None? && s.waitingFor == 0 && s.log == [] && s.ticks == []
      && s.timer.None? && !s.timedOut && s.exited.None?
  }

  /** The counter equals the callbacks still owed plus the decrements queued. */
  ghost predicate Counted(s: State) {
    s.waitingFor == Pending(s.log) + multiset(s.ticks)[Decrement]
  }

  /** A queued or performed `process.exit` belongs to the forcing sequence
      whose `doExit` has run, carries its code, and there is exactly one. */
  ghost predicate ExitOnce(s: State) {
    && (s.called ==> s.run.Some?)
    && (forall t :: t in s.ticks && t.ProcessExit? ==>
          s.run.Some? && s.run.value.exit && s.run.value.doExitDone && t.code == s.run.value.code)
    && (s.exited.Some? ==>
          s.run.Some? && s.run.value.exit && s.run.value.doExitDone && s.exited.value == s.run.value.code)
    && (s.run.Some? && s.run.value.exit && s.run.value.doExitDone ==>
          ExitTicks(s.ticks) + (if s.exited.Some? then 1 else 0) == 1)
  }

  /** Unless the timer fired, `doExit` has run only with every async hook
      finished and its decrement processed. */
  ghost predicate Drained(s: State) {
    s.run.Some? && s.run.value.doExitDone && !s.timedOut ==>
      Pending(s.log) == 0 && multiset(s.ticks)[Decrement] == 0
  }

  /** A started sequence that has not yet run `doExit` has its timer armed. */
  ghost predicate Armed(s: State) {
    s.run.Some? && !s.run.value.doExitDone ==> s.timer.Some?
  }

  ghost predicate Inv(s: State) {
    TablesAgree(s) && ListenOwnEvent(s.subs) && Idle(s) && Counted(s) && ExitOnce(s) && Drained(s) && Armed(s)
  }

  lemma InitInv()
    ensures Inv(Init())
  {
  }

  /** The parts of the invariant about the exit sequence read none of the
      registration tables. */
  lemma SequenceInvFrame(s: State, s': State)
    requires Inv(s)
    requires s'.called == s.called && s'.run == s.run && s'.waitingFor == s.waitingFor && s'.log == s.log
    requires s'.ticks == s.ticks && s'.timer == s.timer && s'.timedOut == s.timedOut && s'.exited == s.exited
    requires TablesAgree(s') && ListenOwnEvent(s'.subs)
    ensures Inv(s')
  {
  }

  lemma {:induction false} FreshCalls(exit: bool, k: nat, err: Option<Reason>, hs: seq<Hook>)
    ensures Fresh(Calls(exit, k, err, hs))
  {
  }

  /** A state that has just run a fresh batch of invocations from an idle
      state satisfies the invariant, whichever way the first `exit` call
      ended. */
  lemma StartedInv(s: State, r: State, exit: bool, code: Option<int>, calls: seq<Call>)
    requires Inv(s) && !s.called && Fresh(calls)
    requires r.called && r.log == calls && r.waitingFor == AsyncCount(calls)
    requires r.events == s.events && r.filters == s.filters && r.subs == s.subs
    requires r.timedOut == s.timedOut && r.exited == s.exited
    requires r.waitingFor == 0 ==>
      r.run == Some(Run(exit, code, true)) && r.ticks == (if exit then [ProcessExit(code)] else [])
    requires r.waitingFor != 0 ==> r.run == Some(Run(exit, code, false)) && r.ticks == [] && r.timer.Some?
    ensures Inv(r)
  {
    PendingFresh(calls);
    assert Counted(r);
  }

  /** A first exit call starts a sequence that satisfies the invariant. */
  lemma ExitInv(s: State, exit: bool, code: Option<int>, err: Option<Reason>)
    requires Inv(s)
    ensures Inv(Exit(s, exit, code, err))
  {
    if !s.called {
      var calls := SequenceCalls(exit, err, s.errHooks, s.hooks);
      FreshCalls(exit, 1, err, s.errHooks);
      FreshCalls(exit, 0, None, s.hooks);
      assert Fresh(calls);
      assert s.log + calls == calls;
      StartedInv(s, Exit(s, exit, code, err), exit, code, calls);
    }
  }

  lemma HookEventInv(s: State, name: string, code: Option<int>, filter: Option<Filter>)
    requires Inv(s)
    ensures Inv(Router.HookEvent(s, name, code, filter))
  {
    var r := Router.HookEvent(s, name, code, filter);
    PutDistinct(s.events, name, Handler(s.nextHandler, name, code));
    assert TablesAgree(r);
    assert forall x :: x in r.subs ==> x in s.subs || x == On(name, Handler(s.nextHandler, name, code));
    SequenceInvFrame(s, r);
  }

  lemma UnhookEventInv(s: State, name: string)
    requires Inv(s)
    ensures Inv(Router.UnhookEvent(s, name))
  {
    var r := Router.UnhookEvent(s, name);
    if Find(s.events, name).Some? {
      DeleteKeys(s.events, name);
      assert r.events == Delete(s.events, name);
      assert TablesAgree(r);
      RemoveListenerShrinks(s.subs, On(name, Find(s.events, name).value));
      SequenceInvFrame(s, r);
    }
  }

  lemma {:induction false} HookAllInv(s: State, ts: seq<Registry.Trigger>)
    requires Inv(s)
    ensures Inv(Registry.HookAll(s, ts))
    decreases |ts|
  {
    if ts != [] {
      HookEventInv(s, ts[0].name, ts[0].code, ts[0].filter);
      HookAllInv(Router.HookEvent(s, ts[0].name, ts[0].code, ts[0].filter), ts[1..]);
    }
  }

  lemma AddInv(s: State, h: Hook)
    requires Inv(s)
    ensures Inv(Registry.Add(s, h))
  {
    var s1 := s.(hooks := s.hooks + [h]);
    SequenceInvFrame(s, s1);
    if |s1.hooks| == 1 {
      HookAllInv(s1, Registry.DefaultTriggers);
    }
  }

  /** Emitting an event either changes nothing or starts the sequence. */
  lemma FireInv(s: State, name: string, p: Payload, verdict: (nat, Payload) -> bool)
    requires Inv(s)
    ensures Inv(Router.Fire(s, name, p, verdict).state)
  {
    var r := Router.Fire(s, name, p, verdict).state;
    if r != s {
      var h :| On(name, h) in s.subs && r == Exit(s, h.code.Some?, h.code, None);
      ExitInv(s, h.code.Some?, h.code, None);
    }
  }

  lemma DeliverInv(s: State, channel: Channel, err: Reason)
    requires Inv(s)
    ensures Inv(DeliverError(s, channel, err))
  {
    if Once(channel) in s.subs {
      var s1 := s.(subs := RemoveListener(s.subs, Once(channel)));
      RemoveListenerShrinks(s.subs, Once(channel));
      SequenceInvFrame(s, s1);
      ExitInv(s1, true, Some(1), Some(err));
    }
  }

  /** A hook calling `stepTowardExit` for the first time, or the no-op at
      any time, keeps the count exact. */
  lemma NextInv(s: State, i: nat)
    requires Inv(s)
    requires i < |s.log| && s.log[i].next == StepTowardExit ==> !s.log[i].completed
    ensures Inv(CallNext(s, i))
  {
    if i < |s.log| && s.log[i].completed {
      assert s.log[i := s.log[i].(completed := true)] == s.log;
    } else if i < |s.log| {
      var r := CallNext(s, i);
      PendingComplete(s.log, i);
      if s.log[i].next == StepTowardExit {
        assert multiset(r.ticks)[Decrement] == multiset(s.ticks)[Decrement] + 1;
        if s.run.Some? && s.run.value.doExitDone && !s.timedOut {
          NothingPending(s.log);
          assert false;
        }
        assert forall t :: t in r.ticks ==> t in s.ticks || t == Decrement;
        ExitTicksAppend(s.ticks, [Decrement]);
      }
    }
  }

  /** `doExit` from a state whose pending `process.exit` count is zero. */
  lemma DoExitInv(s: State)
    requires TablesAgree(s) && ListenOwnEvent(s.subs) && Idle(s) && Counted(s) && ExitOnce(s) && s.called
    requires s.timedOut || (Pending(s.log) == 0 && multiset(s.ticks)[Decrement] == 0)
    ensures Inv(DoExit(s))
  {
    var run := s.run.value;
    if !run.doExitDone && run.exit {
      assert forall t :: t in s.ticks ==> !t.ProcessExit?;
      ExitTicksZero(s.ticks);
      ExitTicksAppend(s.ticks, [ProcessExit(run.code)]);
    }
  }

  /** Running a queued decrement. */
  lemma DecrementTickInv(s: State)
    requires Inv(s) && s.exited.None? && s.ticks != [] && s.ticks[0] == Decrement
    ensures Inv(RunNextTick(s))
  {
    var rest := s.ticks[1..];
    assert s.ticks == [Decrement] + rest;
    assert multiset(s.ticks) == multiset{Decrement} + multiset(rest);
    assert forall x :: x in rest ==> x in s.ticks;
    ExitTicksAppend([Decrement], rest);
    var s2 := s.(ticks := rest, waitingFor := s.waitingFor - 1);
    if s2.waitingFor == 0 {
      DoExitInv(s2);
    }
  }

  /** Running the queued `process.exit`. */
  lemma ExitTickInv(s: State)
    requires Inv(s) && s.exited.None? && s.ticks != [] && s.ticks[0].ProcessExit?
    ensures Inv(RunNextTick(s))
  {
    var rest := s.ticks[1..];
    assert s.ticks == [s.ticks[0]] + rest;
    assert multiset(s.ticks) == multiset{s.ticks[0]} + multiset(rest);
    assert forall x :: x in rest ==> x in s.ticks;
    ExitTicksAppend([s.ticks[0]], rest);
  }

  lemma TickInv(s: State)
    requires Inv(s) && s.exited.None?
    ensures Inv(RunNextTick(s))
  {
    if s.ticks != [] {
      if s.ticks[0] == Decrement {
        DecrementTickInv(s);
      } else {
        ExitTickInv(s);
      }
    }
  }

  lemma TimerInv(s: State)
    requires Inv(s)
    ensures Inv(FireForceTimer(s))
  {
    if s.timer.Some? {
      DoExitInv(s.(timer := None, timedOut := true));
    }
  }

  /** Every event keeps the invariant, given that a hook calling back does
      so for the first time. */
  lemma StepInv(s: State, ev: Event, verdict: (nat, Payload) -> bool)
    requires Inv(s) && Admissible(s, ev)
    ensures Inv(Step(s, ev, verdict))
  {
    if s.exited.None? {
      match ev
      case Register(h) => AddInv(s, h);
      case RegisterUncaughtException(h) => SequenceInvFrame(s, Step(s, ev, verdict));
      case RegisterUnhandledRejection(h) => SequenceInvFrame(s, Step(s, ev, verdict));
      case SetForceExitTimeout(ms) => SequenceInvFrame(s, Step(s, ev, verdict));
      case HookTrigger(name, code, filter) => HookEventInv(s, name, code, filter);
      case UnhookTrigger(name) => UnhookEventInv(s, name);
      case Emit(name, payload) => FireInv(s, name, payload, verdict);
      case Deliver(channel, reason) => DeliverInv(s, channel, reason);
      case Next(i) => NextInv(s, i);
      case RunTick => TickInv(s);
      case FireTimer => TimerInv(s);
    }
  }

  /** Every admissible run from module load keeps the invariant. */
  lemma {:induction false} ExecuteInv(s: State, evs: seq<Event>, verdict: (nat, Payload) -> bool)
    requires Inv(s) && AdmissibleTrace(s, evs, verdict)
    ensures Inv(Execute(s, evs, verdict))
    decreases |evs|
  {
    if evs != [] {
      StepInv(s, evs[0], verdict);
      ExecuteInv(Step(s, evs[0], verdict), evs[1..], verdict);
    }
  }

  /** The pending counter never goes below zero. */
  lemma CounterNeverNegative(evs: seq<Event>, verdict: (nat, Payload) -> bool)
    requires AdmissibleTrace(Init(), evs, verdict)
    ensures Execute(Init(), evs, verdict).waitingFor >= 0
  {
    ExecuteInv(Init(), evs, verdict);
  }

  /** `process.exit` is issued at most once, only by a forcing sequence, and
      with the code of the sequence, whether it is still queued or has run. */
  lemma ExitIssuedAtMostOnce(evs: seq<Event>, verdict: (nat, Payload) -> bool)
    requires AdmissibleTrace(Init(), evs, verdict)
    ensures var s := Execute(Init(), evs, verdict);
      ExitTicks(s.ticks) + (if s.exited.Some? then 1 else 0) <= 1
      && (s.exited.Some? ==> s.run.Some? && s.run.value.exit && s.exited.value == s.run.value.code)
      && (forall t :: t in s.ticks && t.ProcessExit? ==> s.run.Some? && s.run.value.exit && t.code == s.run.value.code)
  {
    var s := Execute(Init(), evs, verdict);
    ExecuteInv(Init(), evs, verdict);
    if !(s.run.Some? && s.run.value.exit && s.run.value.doExitDone) {
      ExitTicksZero(s.ticks);
    }
  }

  /** Unless the force-exit timer fired, the sequence has exited (or
      scheduled its exit) only after every hook handed `stepTowardExit` has
      called it and the decrement has run. */
  lemma NoExitBeforeHooksFinish(evs: seq<Event>, verdict: (nat, Payload) -> bool)
    requires AdmissibleTrace(Init(), evs, verdict)
    ensures var s := Execute(Init(), evs, verdict);
      s.run.Some? && s.run.value.doExitDone && !s.timedOut ==>
        && (forall i :: 0 <= i < |s.log| && s.log[i].next == StepTowardExit ==> s.log[i].completed)
        && multiset(s.ticks)[Decrement] == 0
  {
    var s := Execute(Init(), evs, verdict);
    ExecuteInv(Init(), evs, verdict);
    NothingPending(s.log);
  }

  /** A started sequence always has a way to end: `doExit` has run or the
      force-exit timer is armed. */
  lemma SequenceAlwaysEnds(evs: seq<Event>, verdict: (nat, Payload) -> bool)
    requires AdmissibleTrace(Init(), evs, verdict)
    ensures var s := Execute(Init(), evs, verdict);
      s.called ==> s.run.Some? && (s.run.value.doExitDone || s.timer.Some?)
  {
    ExecuteInv(Init(), evs, verdict);
  }

  /** On every admissible run, emitting an event whose filters veto the
      payload, or which has no filter list, changes nothing. */
  lemma VetoedEmitChangesNothing(evs: seq<Event>, verdict: (nat, Payload) -> bool, name: string, p: Payload)
    requires AdmissibleTrace(Init(), evs, verdict)
    requires var s := Execute(Init(), evs, verdict);
      name !in s.filters || Router.Vetoed(s.filters[name], p, verdict)
    ensures var s := Execute(Init(), evs, verdict);
      Step(s, Emit(name, p), verdict) == s
  {
    var s := Execute(Init(), evs, verdict);
    ExecuteInv(Init(), evs, verdict);
    Router.FireVetoed(s, name, p, verdict);
  }

  /** While the shutdown filter guards `message`, a message other than
      `shutdown` never starts the exit sequence. */
  lemma OtherMessageNeverStarts(evs: seq<Event>, verdict: (nat, Payload) -> bool, p: Payload)
    requires AdmissibleTrace(Init(), evs, verdict)
    requires var s := Execute(Init(), evs, verdict);
      "message" in s.filters && ShutdownOnly in s.filters["message"] && p != Text("shutdown")
    ensures var s := Execute(Init(), evs, verdict);
      Step(s, Emit("message", p), verdict) == s
  {
    var s := Execute(Init(), evs, verdict);
    var fs := s.filters["message"];
    var j :| 0 <= j < |fs| && fs[j] == ShutdownOnly;
    assert Router.Vetoes(fs[j], p, verdict);
    VetoedEmitChangesNothing(evs, verdict, "message", p);
  }

  /** `hookedEvents()` never lists a name twice. */
  lemma HookedEventsOnce(evs: seq<Event>, verdict: (nat, Payload) -> bool)
    requires AdmissibleTrace(Init(), evs, verdict)
    ensures var names := Router.HookedEvents(Execute(Init(), evs, verdict));
      forall i, j :: 0 <= i < j < |names| ==> names[i] != names[j]
  {
    ExecuteInv(Init(), evs, verdict);
  }

  /** Once a sequence has started, no event invokes a hook again. */
  lemma HooksNeverRerun(s: State, ev: Event, verdict: (nat, Payload) -> bool)
    requires s.called
    ensures Invoked(Step(s, ev, verdict).log) == Invoked(s.log)
  {
    var r := Step(s, ev, verdict);
    if s.exited.None? {
      match ev
      case Next(i) =>
        if i < |s.log| {
          assert forall j :: 0 <= j < |s.log| ==> r.log[j].hook == s.log[j].hook;
        }
      case RunTick =>
        if s.ticks != [] && s.ticks[0] == Decrement {
          assert r.log == s.log;
        }
      case _ =>
    }
  }
}
