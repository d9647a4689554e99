/**
 The exit sequence: `exit(exit, code, err)` with its inner `runHook`,
 `doExit` and `stepTowardExit`, and the deferred decrement that
 `stepTowardExit` queues.
 */
module Coordinator {
  import opened Model
  import opened CallLog
  import opened Process

  /** JavaScript truthiness of the `err` argument (`None` is `undefined`/`null`). */
  predicate Truthy(err: Option<Reason>) {
    err.Some? && err.value.truthy
  }

  /** The error a hook is handed: the error itself when truthy, else `null`. */
  function Passed(err: Option<Reason>): Option<Reason> {
    if Truthy(err) then err else None
  }

  /** Reference classification: a hook is run asynchronously exactly when the
      sequence may wait for it (`exit` is true, so not the `'exit'` event) and
      it declares more than `syncArgCount` parameters. */
  predicate IsAsync(exit: bool, syncArgCount: nat, h: Hook) {
    exit && h.arity > syncArgCount
  }

  /** Reference definition of the invocations a hook batch makes: one per hook,
      in the order given, classified by `IsAsync`. */
  function Calls(exit: bool, syncArgCount: nat, err: Option<Reason>, hs: seq<Hook>): seq<Call> {
    seq(|hs|, i requires 0 <= i < |hs| =>
      Call(hs[i], Passed(err), if IsAsync(exit, syncArgCount, hs[i]) then StepTowardExit else Noop, false))
  }

  /** The invocations of one whole exit sequence: the error hooks first when
      the error is truthy, then the normal hooks, which are always handed `null`. */
  function SequenceCalls(exit: bool, err: Option<Reason>, errHooks: seq<Hook>, hooks: seq<Hook>): seq<Call> {
    (if Truthy(err) then Calls(exit, 1, err, errHooks) else []) + Calls(exit, 0, None, hooks)
  }

  /** `runHook`: an async hook raises the counter and gets `stepTowardExit`;
      any other hook gets the no-op. */
  function RunHook(s: State, exit: bool, syncArgCount: nat, err: Option<Reason>, h: Hook): (r: State)
    ensures r.log == s.log + Calls(exit, syncArgCount, err, [h])
    ensures r.waitingFor == s.waitingFor + AsyncCount(Calls(exit, syncArgCount, err, [h]))
    ensures r.waitingFor == s.waitingFor + 1 <==> IsAsync(exit, syncArgCount, h)
    ensures r == s.(waitingFor := r.waitingFor, log := r.log)
  {
    if exit && h.arity > syncArgCount then
      s.(waitingFor := s.waitingFor + 1, log := s.log + [Call(h, Passed(err), StepTowardExit, false)])
    else
      s.(log := s.log + [Call(h, Passed(err), Noop, false)])
  }

  /** `hs.map(runHook.bind(null, syncArgCount, err))`: runs every hook of the
      batch once, in order, and raises the counter by the number handed
      `stepTowardExit`; nothing else changes. */
  function RunHooks(s: State, exit: bool, syncArgCount: nat, err: Option<Reason>, hs: seq<Hook>): (r: State)
    ensures r.log == s.log + Calls(exit, syncArgCount, err, hs)
    ensures r.waitingFor == s.waitingFor + AsyncCount(Calls(exit, syncArgCount, err, hs))
    ensures r == s.(log := r.log, waitingFor := r.waitingFor)
    decreases |hs|
  {
    if hs == [] then s
    else
      var s1 := RunHook(s, exit, syncArgCount, err, hs[0]);
      var r := RunHooks(s1, exit, syncArgCount, err, hs[1..]);
      assert Calls(exit, syncArgCount, err, hs)[1..] == Calls(exit, syncArgCount, err, hs[1..]);
      assert Calls(exit, syncArgCount, err, hs) == [Calls(exit, syncArgCount, err, hs)[0]] + Calls(exit, syncArgCount, err, hs[1..]);
      r
  }

  /** `doExit`: the first call marks the sequence done and, when the
      sequence forces exit, queues `process.exit(code)`; later calls do nothing. */
  function DoExit(s: State): (r: State)
    ensures s.run.None? ==> r == s
    ensures s.run.Some? ==> r.run == Some(s.run.value.(doExitDone := true))
    ensures s.run.Some? && !s.run.value.doExitDone && s.run.value.exit ==>
              r.ticks == s.ticks + [ProcessExit(s.run.value.code)]
    ensures s.run.Some? && (s.run.value.doExitDone || !s.run.value.exit) ==> r.ticks == s.ticks
    ensures r == s.(run := r.run, ticks := r.ticks)
  {
    match s.run
    case None => s
    case Some(run) =>
      if run.doExitDone then s
      else
        var s1 := s.(run := Some(run.(doExitDone := true)));
        if run.exit then s1.(ticks := s1.ticks + [ProcessExit(run.code)]) else s1
  }

  /** `doExit` is one-shot: a second call, from whichever path, changes nothing. */
  lemma DoExitOneShot(s: State)
    ensures DoExit(DoExit(s)) == DoExit(s)
    ensures s.run.Some? ==> ExitTicks(DoExit(s).ticks) <= ExitTicks(s.ticks) + 1
  {
    if s.run.Some? && !s.run.value.doExitDone && s.run.value.exit {
      assert DoExit(s).ticks == s.ticks + [ProcessExit(s.run.value.code)];
      ExitTicksAppend(s.ticks, [ProcessExit(s.run.value.code)]);
    }
  }

  /** The error-hook batch of a sequence: run only for a truthy error, with
      one more parameter counting as synchronous. */
  function RunErrorHooks(s: State, exit: bool, err: Option<Reason>): (r: State)
    ensures r.log == s.log + (if Truthy(err) then Calls(exit, 1, err, s.errHooks) else [])
    ensures r.waitingFor == s.waitingFor + AsyncCount(if Truthy(err) then Calls(exit, 1, err, s.errHooks) else [])
    ensures r == s.(log := r.log, waitingFor := r.waitingFor)
  {
    if Truthy(err) then RunHooks(s, exit, 1, err, s.errHooks) else s
  }

  /** The async count of a whole sequence is that of its two batches. */
  lemma SequenceAsyncCount(exit: bool, err: Option<Reason>, errHooks: seq<Hook>, hooks: seq<Hook>)
    ensures AsyncCount(SequenceCalls(exit, err, errHooks, hooks)) ==
      AsyncCount(if Truthy(err) then Calls(exit, 1, err, errHooks) else []) + AsyncCount(Calls(exit, 0, None, hooks))
  {
    AsyncCountAppend(if Truthy(err) then Calls(exit, 1, err, errHooks) else [], Calls(exit, 0, None, hooks));
  }

  /** The hook-running part of a first `exit` call: sets `called`, records
      the sequence, and runs the error hooks (only for a truthy error) and then
      the normal hooks. */
  function StartSequence(s: State, exit: bool, code: Option<int>, err: Option<Reason>): (r: State)
    ensures r.log == s.log + SequenceCalls(exit, err, s.errHooks, s.hooks)
    ensures r.waitingFor == s.waitingFor + AsyncCount(SequenceCalls(exit, err, s.errHooks, s.hooks))
    ensures r == s.(called := true, run := Some(Run(exit, code, false)), log := r.log, waitingFor := r.waitingFor)
  {
    StartSequenceLog(s, exit, code, err);
    StartSequenceWaiting(s, exit, code, err);
    StartSequenceFrame(s, exit, code, err);
    RunHooks(RunErrorHooks(s.(called := true, run := Some(Run(exit, code, false))), exit, err), exit, 0, None, s.hooks)
  }

  /** The two batches of a sequence log their calls one after the other. */
  lemma StartSequenceLog(s: State, exit: bool, code: Option<int>, err: Option<Reason>)
    ensures RunHooks(RunErrorHooks(s.(called := true, run := Some(Run(exit, code, false))), exit, err), exit, 0, None, s.hooks).log
      == s.log + SequenceCalls(exit, err, s.errHooks, s.hooks)
  {
    var s2 := RunErrorHooks(s.(called := true, run := Some(Run(exit, code, false))), exit, err);
    assert s2.hooks == s.hooks;
  }

  /** The async counts of the two batches add up. */
  lemma StartSequenceWaiting(s: State, exit: bool, code: Option<int>, err: Option<Reason>)
    ensures RunHooks(RunErrorHooks(s.(called := true, run := Some(Run(exit, code, false))), exit, err), exit, 0, None, s.hooks).waitingFor
      == s.waitingFor + AsyncCount(SequenceCalls(exit, err, s.errHooks, s.hooks))
  {
    var s2 := RunErrorHooks(s.(called := true, run := Some(Run(exit, code, false))), exit, err);
    assert s2.hooks == s.hooks;
    SequenceAsyncCount(exit, err, s.errHooks, s.hooks);
  }

  /** Running the two batches moves nothing but the log and the counter. */
  lemma StartSequenceFrame(s: State, exit: bool, code: Option<int>, err: Option<Reason>)
    ensures var s1 := s.(called := true, run := Some(Run(exit, code, false)));
      var r := RunHooks(RunErrorHooks(s1, exit, err), exit, 0, None, s.hooks);
      r == s1.(log := r.log, waitingFor := r.waitingFor)
  {
    var s1 := s.(called := true, run := Some(Run(exit, code, false)));
    var s2 := RunErrorHooks(s1, exit, err);
    assert s2 == s1.(log := s2.log, waitingFor := s2.waitingFor);
  }

  /** `exit(exit, code, err)`. A second call changes nothing. The first sets
      `called`, runs the error hooks (only for a truthy error) and then the
      normal hooks, each once and in registration order, raises the counter
      by the number of async hooks, and only after all hooks have started
      either exits at once (counter zero) or arms the force-exit timer with
      the configured timeout. */
  function Exit(s: State, exit: bool, code: Option<int>, err: Option<Reason>): (r: State)
    ensures s.called ==> r == s
    ensures !s.called ==> r.called
    ensures !s.called ==> r.log == s.log + SequenceCalls(exit, err, s.errHooks, s.hooks)
    ensures !s.called ==> r.waitingFor == s.waitingFor + AsyncCount(SequenceCalls(exit, err, s.errHooks, s.hooks))
    ensures !s.called && r.waitingFor == 0 ==>
              r.run == Some(Run(exit, code, true))
              && r.ticks == s.ticks + (if exit then [ProcessExit(code)] else [])
              && r.timer == s.timer
    ensures !s.called && r.waitingFor != 0 ==>
              r.run == Some(Run(exit, code, false)) && r.ticks == s.ticks && r.timer == Some(s.asyncTimeoutMs)
    ensures r.hooks == s.hooks && r.errHooks == s.errHooks && r.asyncTimeoutMs == s.asyncTimeoutMs
    ensures r.events == s.events && r.filters == s.filters && r.nextHandler == s.nextHandler
    ensures r.subs == s.subs && r.timedOut == s.timedOut && r.exited == s.exited
  {
    if s.called then s
    else
      var s3 := StartSequence(s, exit, code, err);
      if s3.waitingFor != 0 then s3.(timer := Some(s3.asyncTimeoutMs)) else DoExit(s3)
  }

  /** On the `'exit'` event (`exit` false) every hook is handed the no-op, so
      the sequence never waits. */
  lemma {:induction false} NoAsyncWithoutForce(syncArgCount: nat, err: Option<Reason>, hs: seq<Hook>)
    ensures AsyncCount(Calls(false, syncArgCount, err, hs)) == 0
    decreases |hs|
  {
    if hs != [] {
      assert Calls(false, syncArgCount, err, hs)[1..] == Calls(false, syncArgCount, err, hs[1..]);
      NoAsyncWithoutForce(syncArgCount, err, hs[1..]);
    }
  }

  /** The counter rises by exactly the number of hooks `IsAsync` selects. */
  lemma {:induction false} AsyncCountIsClassified(exit: bool, syncArgCount: nat, err: Option<Reason>, hs: seq<Hook>)
    ensures AsyncCount(Calls(exit, syncArgCount, err, hs)) == |set i | 0 <= i < |hs| && IsAsync(exit, syncArgCount, hs[i])|
    decreases |hs|
  {
    var all := set i | 0 <= i < |hs| && IsAsync(exit, syncArgCount, hs[i]);
    if hs == [] {
      assert all == {};
    } else {
      var n := |hs| - 1;
      var init := hs[..n];
      var before := set i | 0 <= i < |init| && IsAsync(exit, syncArgCount, init[i]);
      AsyncCountIsClassified(exit, syncArgCount, err, init);
      assert Calls(exit, syncArgCount, err, hs) == Calls(exit, syncArgCount, err, init) + [Calls(exit, syncArgCount, err, hs)[n]];
      AsyncCountAppend(Calls(exit, syncArgCount, err, init), [Calls(exit, syncArgCount, err, hs)[n]]);
      if IsAsync(exit, syncArgCount, hs[n]) {
        assert all == before + {n};
      } else {
        assert all == before;
      }
    }
  }

  /** Hook order: a sequence invokes every error hook (only for a truthy
      error) and then every normal hook, each exactly once and in
      registration order; the error hooks are handed the error and the
      normal hooks `null`. */
  lemma SequenceOrder(exit: bool, err: Option<Reason>, errHooks: seq<Hook>, hooks: seq<Hook>)
    ensures Invoked(SequenceCalls(exit, err, errHooks, hooks)) == (if Truthy(err) then errHooks else []) + hooks
    ensures var n := if Truthy(err) then |errHooks| else 0;
      forall i :: 0 <= i < |SequenceCalls(exit, err, errHooks, hooks)| ==>
        SequenceCalls(exit, err, errHooks, hooks)[i].err == (if i < n then err else None)
  {
    var calls := SequenceCalls(exit, err, errHooks, hooks);
    var hs := (if Truthy(err) then errHooks else []) + hooks;
    assert |calls| == |hs|;
    forall i | 0 <= i < |calls| ensures Invoked(calls)[i] == hs[i] {
    }
  }

  /** `stepTowardExit` as called by the hook at `log[i]`: it never touches the
      counter in the current turn; a real callback queues one deferred
      decrement, the no-op queues nothing. The call is recorded in the log. */
  function CallNext(s: State, i: nat): (r: State)
    ensures r.waitingFor == s.waitingFor
    ensures i < |s.log| && s.log[i].next == StepTowardExit ==> r.ticks == s.ticks + [Decrement]
    ensures !(i < |s.log| && s.log[i].next == StepTowardExit) ==> r.ticks == s.ticks
    ensures i < |s.log| ==> r.log == s.log[i := s.log[i].(completed := true)]
    ensures r == s.(log := r.log, ticks := r.ticks)
  {
    if i >= |s.log| then s
    else
      var s1 := s.(log := s.log[i := s.log[i].(completed := true)]);
      if s.log[i].next == StepTowardExit then s1.(ticks := s1.ticks + [Decrement]) else s1
  }

  /** The deferred decrement `stepTowardExit` queued: lowers the counter and
      calls `doExit` exactly when the result is zero, which queues the exit of
      a forcing sequence that has not finished yet. */
  function RunDecrement(s: State): (r: State)
    ensures r.waitingFor == s.waitingFor - 1
    ensures r.waitingFor == 0 && s.run.Some? ==> r.run == Some(s.run.value.(doExitDone := true))
    ensures r.waitingFor == 0 && s.run.Some? && !s.run.value.doExitDone && s.run.value.exit ==>
              r.ticks == s.ticks + [ProcessExit(s.run.value.code)]
    ensures r.waitingFor == 0 && s.run.Some? && (s.run.value.doExitDone || !s.run.value.exit) ==>
              r.ticks == s.ticks
    ensures r.waitingFor != 0 ==> r == s.(waitingFor := s.waitingFor - 1)
    ensures r == s.(waitingFor := s.waitingFor - 1, run := r.run, ticks := r.ticks)
  {
    var s1 := s.(waitingFor := s.waitingFor - 1);
    if s1.waitingFor == 0 then DoExit(s1) else s1
  }
}
