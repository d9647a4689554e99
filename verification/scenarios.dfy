/**
 The behaviours the repository's test cases check, replayed on the model
 from the moment a trigger arrives: which hooks run and in what order, what
 each is handed, and which exit the process takes.
 */
module Scenarios {
  import opened Model
  import opened Process
  import opened CallLog
  import opened Coordinator
  import Router
  import Registry
  import Runtime

  /** The verdict of caller filters; the scenarios install none. */
  predicate NoVeto(id: nat, p: Payload) {
    false
  }

  /** A hook declaring the callback parameter, and one declaring none. */
  const AsyncHook: Hook := Hook(0, 2)
  const SyncHook: Hook := Hook(1, 0)
  const AsyncErrHook: Hook := Hook(2, 2)

  /** A state in which nothing has been triggered yet. */
  predicate Quiet(s: State) {
    && !s.called && s.run.None? && s.waitingFor == 0 && s.log == []
    && s.ticks == [] && s.timer.None? && s.exited.None?
  }

  /** The `message` trigger as the first registration installs it, listened
      to by its one current listener. */
  predicate MessageHooked(s: State, k: nat) {
    && Listeners(s.subs, "message") == [Handler(k, "message", Some(0))]
    && "message" in s.filters && s.filters["message"] == [ShutdownOnly]
  }

  /** The last async hook of a forcing sequence calling back: its deferred
      decrement brings the counter to zero, `doExit` queues the exit, and
      the next tick performs it with the sequence's code. */
  lemma LastCallbackExits(s: State, i: nat, code: Option<int>)
    requires s.waitingFor == 1 && s.ticks == [] && s.run == Some(Run(true, code, false)) && s.exited.None?
    requires i < |s.log| && s.log[i].next == StepTowardExit
    ensures var r := Runtime.RunNextTick(Runtime.RunNextTick(CallNext(s, i)));
      r.waitingFor == 0 && r.exited == Some(code)
  {
    var s2 := CallNext(s, i);
    assert s2.ticks == [Decrement];
    var s3 := Runtime.RunNextTick(s2);
    assert s3 == DoExit(s2.(ticks := [], waitingFor := 0));
    assert s3.ticks == [ProcessExit(code)] && s3.exited.None?;
  }

  /** A forcing sequence without an error over an async and a sync hook
      hands the callback to the first only, so it waits for one. */
  lemma ForcedPair(errHooks: seq<Hook>)
    ensures SequenceCalls(true, None, errHooks, [AsyncHook, SyncHook]) ==
      [Call(AsyncHook, None, StepTowardExit, false), Call(SyncHook, None, Noop, false)]
    ensures AsyncCount(SequenceCalls(true, None, errHooks, [AsyncHook, SyncHook])) == 1
  {
    var calls := [Call(AsyncHook, None, StepTowardExit, false), Call(SyncHook, None, Noop, false)];
    assert SequenceCalls(true, None, errHooks, [AsyncHook, SyncHook]) == calls;
    AsyncCountAppend(calls[..1], calls[1..]);
    assert calls == calls[..1] + calls[1..];
  }

  /** An async hook and a sync hook, then the `shutdown` message: both run in
      order, the sequence waits for the async one, and when it calls back the
      deferred decrement reaches zero and the process exits with code 0. */
  lemma AsyncShutdownMessage(s: State, k: nat)
    requires Quiet(s) && s.hooks == [AsyncHook, SyncHook] && MessageHooked(s, k)
    ensures Router.Fire(s, "message", Text("shutdown"), NoVeto).state.log ==
      [Call(AsyncHook, None, StepTowardExit, false), Call(SyncHook, None, Noop, false)]
    ensures var s1 := Router.Fire(s, "message", Text("shutdown"), NoVeto).state;
      s1.waitingFor == 1 && s1.timer == Some(s.asyncTimeoutMs) && s1.ticks == []
    ensures var s1 := Router.Fire(s, "message", Text("shutdown"), NoVeto).state;
      var s2 := Runtime.RunNextTick(Runtime.RunNextTick(CallNext(s1, 0)));
      s2.waitingFor == 0 && s2.exited == Some(Some(0))
  {
    Router.ShutdownFilter(Text("shutdown"), NoVeto);
    Router.SoleListenerStarts(s, "message", Handler(k, "message", Some(0)), Text("shutdown"), NoVeto);
    ForcedPair(s.errHooks);
    LastCallbackExits(Exit(s, true, Some(0), None), 0, Some(0));
  }

  /** Any other message is vetoed by the built-in filter: nothing happens. */
  lemma OtherMessageVetoed(s: State, k: nat, text: string)
    requires !s.called && MessageHooked(s, k) && text != "shutdown"
    ensures Router.Fire(s, "message", Text(text), NoVeto) == Router.Outcome(s, false)
  {
    Router.ShutdownFilter(Text(text), NoVeto);
  }

  /** An interrupt with a sync hook: the hook runs and the process exits
      with 128 plus the signal number. */
  lemma InterruptExitCode(s: State, k: nat)
    requires Quiet(s) && s.hooks == [SyncHook]
    requires Listeners(s.subs, "SIGINT") == [Handler(k, "SIGINT", Some(128 + 2))]
    requires "SIGINT" in s.filters && s.filters["SIGINT"] == []
    ensures var s1 := Router.Fire(s, "SIGINT", NoPayload, NoVeto).state;
      s1.log == [Call(SyncHook, None, Noop, false)] && s1.waitingFor == 0 && s1.timer.None?
    ensures Runtime.RunNextTick(Router.Fire(s, "SIGINT", NoPayload, NoVeto).state).exited == Some(Some(130))
  {
    Router.SoleListenerStarts(s, "SIGINT", Handler(k, "SIGINT", Some(128 + 2)), NoPayload, NoVeto);
    assert SequenceCalls(true, None, s.errHooks, s.hooks) == [Call(SyncHook, None, Noop, false)];
    var s1 := Exit(s, true, Some(130), None);
    assert s1.ticks == [ProcessExit(Some(130))];
  }

  /** The default subscriptions of a first registration from the initial
      state, one per trigger in trigger order, with identities 0 to 6. */
  const DefaultSubs: seq<Subscription> := [
    On("exit", Handler(0, "exit", None)),
    On("beforeExit", Handler(1, "beforeExit", Some(0))),
    On("SIGHUP", Handler(2, "SIGHUP", Some(129))),
    On("SIGINT", Handler(3, "SIGINT", Some(130))),
    On("SIGTERM", Handler(4, "SIGTERM", Some(143))),
    On("SIGBREAK", Handler(5, "SIGBREAK", Some(149))),
    On("message", Handler(6, "message", Some(0)))]

  lemma DefaultSubscriptionList()
    ensures Registry.Subscriptions(0, Registry.DefaultTriggers) == DefaultSubs
  {
    var ts := Registry.DefaultTriggers;
    assert ts[1..][1..][1..][1..][1..][1..][1..] == [];
  }

  /** Among them the interrupt has one listener, with code 130. */
  lemma InterruptListener()
    ensures Listeners(DefaultSubs, "SIGINT") == [Handler(3, "SIGINT", Some(128 + 2))]
  {
    ListenersAlong(DefaultSubs, "SIGINT", 3);
  }

  /** Among them `message` has one listener, with code 0. */
  lemma MessageListener()
    ensures Listeners(DefaultSubs, "message") == [Handler(6, "message", Some(0))]
  {
    ListenersAlong(DefaultSubs, "message", 6);
  }

  /** The listeners of `name` in a list whose only subscription to it sits
      at position `k`. */
  lemma {:induction false} ListenersAlong(subs: seq<Subscription>, name: string, k: nat)
    requires k < |subs| && subs[k].On? && subs[k].event == name
    requires forall j :: 0 <= j < |subs| && j != k ==> !(subs[j].On? && subs[j].event == name)
    ensures Listeners(subs, name) == [subs[k].handler]
  {
    assert subs == subs[..k] + ([subs[k]] + subs[k + 1..]);
    ListenersConcat(subs[..k], [subs[k]] + subs[k + 1..], name);
    ListenersConcat([subs[k]], subs[k + 1..], name);
    ListenersNone(subs[..k], name);
    ListenersNone(subs[k + 1..], name);
  }

  /** A list without a subscription to `name` has no listeners for it. */
  lemma {:induction false} ListenersNone(subs: seq<Subscription>, name: string)
    requires forall j :: 0 <= j < |subs| ==> !(subs[j].On? && subs[j].event == name)
    ensures Listeners(subs, name) == []
    decreases |subs|
  {
    if subs != [] {
      ListenersNone(subs[1..], name);
    }
  }

  /** The first registration from the initial state: nothing has been
      triggered, the interrupt has its one default listener with code 130
      and no filter, and `message` has its listener and the shutdown filter. */
  lemma FirstRegistration(h: Hook)
    ensures var s := Registry.Add(Init(), h);
      && Quiet(s) && s.hooks == [h]
      && Listeners(s.subs, "SIGINT") == [Handler(3, "SIGINT", Some(128 + 2))]
      && "SIGINT" in s.filters && s.filters["SIGINT"] == []
      && MessageHooked(s, 6)
  {
    var s := Registry.Add(Init(), h);
    assert s.subs == Registry.Subscriptions(0, Registry.DefaultTriggers);
    DefaultSubscriptionList();
    InterruptListener();
    MessageListener();
    FirstRegistrationFilters(h);
  }

  /** The filters the first registration leaves: none for the interrupt,
      the shutdown filter alone for `message`. */
  lemma FirstRegistrationFilters(h: Hook)
    ensures var s := Registry.Add(Init(), h);
      && "SIGINT" in s.filters && s.filters["SIGINT"] == []
      && "message" in s.filters && s.filters["message"] == [ShutdownOnly]
  {
    var s := Registry.Add(Init(), h);
    Registry.AddFilters(Init(), h, "SIGINT");
    Registry.AddFilters(Init(), h, "message");
    DefaultFilters();
    assert Registry.Installed(s, Registry.DefaultTriggers[3]);
    assert Registry.Installed(s, Registry.DefaultTriggers[6]);
  }

  /** Of the default triggers only `message` hands over a filter. */
  lemma DefaultFilters()
    ensures Registry.FiltersOf(Registry.DefaultTriggers, "SIGINT") == []
    ensures Registry.FiltersOf(Registry.DefaultTriggers, "message") == [ShutdownOnly]
  {
    var ts := Registry.DefaultTriggers;
    assert ts[1..][1..][1..][1..][1..][1..][1..] == [];
  }

  /** Registering one sync hook and then interrupting the process: the hook
      runs and the process exits with 130. */
  lemma RegisteredInterruptExits()
    ensures var s := Registry.Add(Init(), SyncHook);
      Runtime.RunNextTick(Router.Fire(s, "SIGINT", NoPayload, NoVeto).state).exited == Some(Some(130))
  {
    FirstRegistration(SyncHook);
    InterruptExitCode(Registry.Add(Init(), SyncHook), 3);
  }

  /** A forcing sequence over one sync hook exits at once, with its code. */
  lemma SyncSequenceExits(s: State, code: Option<int>)
    requires Quiet(s) && s.hooks == [SyncHook]
    ensures Runtime.RunNextTick(Exit(s, true, code, None)).exited == Some(code)
  {
    assert SequenceCalls(true, None, s.errHooks, s.hooks) == [Call(SyncHook, None, Noop, false)];
    assert Exit(s, true, code, None).ticks == [ProcessExit(code)];
  }

  /** Hooking `SIGINT` again with another code adds a second listener behind
      the default one; the default listener runs first and its code, 130,
      is the one the process exits with. */
  lemma RehookedInterruptKeepsFirstCode(s: State, k: nat)
    requires Quiet(s) && s.hooks == [SyncHook]
    requires Listeners(s.subs, "SIGINT") == [Handler(k, "SIGINT", Some(128 + 2))]
    requires "SIGINT" in s.filters && s.filters["SIGINT"] == []
    ensures var s2 := Router.HookEvent(s, "SIGINT", Some(1), None);
      Runtime.RunNextTick(Router.Fire(s2, "SIGINT", NoPayload, NoVeto).state).exited == Some(Some(130))
  {
    var s2 := Router.HookEvent(s, "SIGINT", Some(1), None);
    Router.HookEventListensLast(s, "SIGINT", Some(1), None);
    assert Listeners(s2.subs, "SIGINT")[0] == Handler(k, "SIGINT", Some(128 + 2));
    assert Router.Fire(s2, "SIGINT", NoPayload, NoVeto).state == Exit(s2, true, Some(130), None);
    SyncSequenceExits(s2, Some(130));
  }

  /** Registering one sync hook, re-hooking the interrupt with code 1 and
      then interrupting: the default listener still decides, with 130. */
  lemma RegisteredRehookKeepsFirstCode()
    ensures var s := Router.HookEvent(Registry.Add(Init(), SyncHook), "SIGINT", Some(1), None);
      Runtime.RunNextTick(Router.Fire(s, "SIGINT", NoPayload, NoVeto).state).exited == Some(Some(130))
  {
    FirstRegistration(SyncHook);
    RehookedInterruptKeepsFirstCode(Registry.Add(Init(), SyncHook), 3);
  }

  /** `process.exit()` emits `exit`: an async hook is run synchronously
      with the no-op, the sequence never waits, and the coordinator issues no
      exit of its own. */
  lemma ProcessExitRunsHooksSynchronously(s: State, k: nat, p: Payload)
    requires Quiet(s) && s.hooks == [AsyncHook]
    requires Listeners(s.subs, "exit") == [Handler(k, "exit", None)]
    requires "exit" in s.filters && s.filters["exit"] == []
    ensures var s1 := Router.Fire(s, "exit", p, NoVeto).state;
      && s1.log == [Call(AsyncHook, None, Noop, false)]
      && s1.waitingFor == 0 && s1.ticks == [] && s1.timer.None? && s1.run == Some(Run(false, None, true))
  {
    Router.SoleListenerStarts(s, "exit", Handler(k, "exit", None), p, NoVeto);
    assert SequenceCalls(false, None, s.errHooks, s.hooks) == [Call(AsyncHook, None, Noop, false)];
  }

  /** An async hook, a sync hook and an async uncaught-exception handler with
      the timeout at 500 ms, then an uncaught error: the error hook runs
      first with the error, then the normal hooks with none; when neither
      async hook calls back, the timer forces exit code 1. */
  lemma UncaughtErrorTimesOut(s: State, err: Reason)
    requires Quiet(s) && s.hooks == [AsyncHook, SyncHook] && s.errHooks == [AsyncErrHook]
    requires Once(UncaughtException) in s.subs && s.asyncTimeoutMs == 500 && err.truthy
    ensures var s1 := Runtime.DeliverError(s, UncaughtException, err);
      && s1.log == [Call(AsyncErrHook, Some(err), StepTowardExit, false),
                    Call(AsyncHook, None, StepTowardExit, false),
                    Call(SyncHook, None, Noop, false)]
      && s1.waitingFor == 2 && s1.timer == Some(500)
    ensures var s2 := Runtime.RunNextTick(Runtime.FireForceTimer(Runtime.DeliverError(s, UncaughtException, err)));
      s2.exited == Some(Some(1)) && s2.waitingFor == 2 && s2.timedOut
  {
    var s1 := Runtime.DeliverError(s, UncaughtException, err);
    UncaughtErrorStartsHooks(s, err);
    var s2 := Runtime.FireForceTimer(s1);
    assert s2.ticks == [ProcessExit(Some(1))] && s2.exited.None?;
  }

  /** The first half of the scenario above: the error hook and both hooks
      start, two of them async, and the timer is armed. */
  lemma UncaughtErrorStartsHooks(s: State, err: Reason)
    requires Quiet(s) && s.hooks == [AsyncHook, SyncHook] && s.errHooks == [AsyncErrHook]
    requires Once(UncaughtException) in s.subs && s.asyncTimeoutMs == 500 && err.truthy
    ensures var s1 := Runtime.DeliverError(s, UncaughtException, err);
      && s1.log == [Call(AsyncErrHook, Some(err), StepTowardExit, false),
                    Call(AsyncHook, None, StepTowardExit, false),
                    Call(SyncHook, None, Noop, false)]
      && s1.waitingFor == 2 && s1.timer == Some(500)
      && s1.ticks == [] && s1.run == Some(Run(true, Some(1), false)) && s1.exited.None?
  {
    var a := [Call(AsyncErrHook, Some(err), StepTowardExit, false)];
    var b := [Call(AsyncHook, None, StepTowardExit, false), Call(SyncHook, None, Noop, false)];
    assert SequenceCalls(true, Some(err), s.errHooks, s.hooks) == a + b;
    AsyncCountAppend(b[..1], b[1..]);
    assert b == b[..1] + b[1..];
    AsyncCountAppend(a, b);
  }
}
