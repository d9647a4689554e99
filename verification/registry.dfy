/**
 The public registration surface: `add` (a normal hook), the two error-hook
 registrations, and `forceExitTimeout`.
 */
module Registry {
  import opened Model
  import opened EventTable
  import Router

  /** One `hookEvent(name, code, filter)` call. */
  datatype Trigger = Trigger(name: string, code: Option<int>, filter: Option<Filter>)

  /** The `hookEvent` calls the first normal hook makes, in order: the signals
      map to 128 plus the signal number, `beforeExit` to 0, `exit` to no code,
      and `message` to 0 behind the shutdown-keyword filter. */
  const DefaultTriggers: seq<Trigger> := [
    Trigger("exit", None, None),
    Trigger("beforeExit", Some(0), None),
    Trigger("SIGHUP", Some(128 + 1), None),
    Trigger("SIGINT", Some(128 + 2), None),
    Trigger("SIGTERM", Some(128 + 15), None),
    Trigger("SIGBREAK", Some(128 + 21), None),
    Trigger("message", Some(0), Some(ShutdownOnly))
  ]

  /** No later call in `ts` names the same event as position `i`. */
  predicate LastFor(ts: seq<Trigger>, i: int)
    requires 0 <= i < |ts|
  {
    forall j :: i < j < |ts| ==> ts[j].name != ts[i].name
  }

  /** The `hookEvent` calls of `ts`, one after the other. */
  function HookAll(s: State, ts: seq<Trigger>): State
    decreases |ts|
  {
    if ts == [] then s
    else HookAll(Router.HookEvent(s, ts[0].name, ts[0].code, ts[0].filter), ts[1..])
  }

  /** A batch changes only the listener table, the filters, the identity
      counter and the subscriptions. */
  lemma {:induction false} HookAllFrame(s: State, ts: seq<Trigger>)
    ensures var r := HookAll(s, ts);
      r == s.(events := r.events, filters := r.filters, nextHandler := r.nextHandler, subs := r.subs)
    decreases |ts|
  {
    if ts != [] {
      HookAllFrame(Router.HookEvent(s, ts[0].name, ts[0].code, ts[0].filter), ts[1..]);
    }
  }

  /** The installed listener and filters of one name after a batch of calls. */
  predicate Installed(s: State, t: Trigger) {
    && Find(s.events, t.name).Some?
    && Find(s.events, t.name).value.code == t.code
    && t.name in s.filters
    && (t.filter.Some? ==> |s.filters[t.name]| > 0 && s.filters[t.name][|s.filters[t.name]| - 1] == t.filter.value)
  }

  /** A name no call of the batch mentions keeps its listener and filters. */
  lemma {:induction false} HookAllUntouched(s: State, ts: seq<Trigger>, n: string)
    requires forall j :: 0 <= j < |ts| ==> ts[j].name != n
    ensures Find(HookAll(s, ts).events, n) == Find(s.events, n)
    ensures n in HookAll(s, ts).filters <==> n in s.filters
    ensures n in s.filters ==> HookAll(s, ts).filters[n] == s.filters[n]
    decreases |ts|
  {
    if ts != [] {
      var s1 := Router.HookEvent(s, ts[0].name, ts[0].code, ts[0].filter);
      assert forall j :: 0 <= j < |ts[1..]| ==> ts[1..][j] == ts[j + 1];
      HookAllUntouched(s1, ts[1..], n);
    }
  }

  lemma HookEventInstalls(s: State, t: Trigger)
    ensures Installed(Router.HookEvent(s, t.name, t.code, t.filter), t)
  {
  }

  /** The tail of a batch with no call naming `n`. */
  lemma TailAvoids(ts: seq<Trigger>, n: string)
    requires |ts| > 0 && LastFor(ts, 0) && n == ts[0].name
    ensures forall j :: 0 <= j < |ts[1..]| ==> ts[1..][j].name != n
  {
    forall j | 0 <= j < |ts[1..]| ensures ts[1..][j].name != n {
      assert ts[1..][j] == ts[j + 1];
    }
  }

  /** Dropping the first call keeps a later position last for its name. */
  lemma TailLastFor(ts: seq<Trigger>, i: nat)
    requires 0 < i < |ts| && LastFor(ts, i)
    ensures ts[1..][i - 1] == ts[i] && LastFor(ts[1..], i - 1)
  {
    forall j | i - 1 < j < |ts[1..]| ensures ts[1..][j].name != ts[1..][i - 1].name {
      assert ts[1..][j] == ts[j + 1];
    }
  }

  /** The first call of a batch decides its name when no later call names it. */
  lemma HookAllInstallsLast(s: State, ts: seq<Trigger>)
    requires |ts| > 0 && LastFor(ts, 0)
    ensures Installed(HookAll(s, ts), ts[0])
  {
    var s1 := Router.HookEvent(s, ts[0].name, ts[0].code, ts[0].filter);
    assert HookAll(s, ts) == HookAll(s1, ts[1..]);
    TailAvoids(ts, ts[0].name);
    HookEventInstalls(s, ts[0]);
    HookAllUntouched(s1, ts[1..], ts[0].name);
  }

  /** A non-empty batch is its first call followed by the rest. */
  lemma HookAllFirst(s: State, ts: seq<Trigger>)
    requires |ts| > 0
    ensures HookAll(s, ts) == HookAll(Router.HookEvent(s, ts[0].name, ts[0].code, ts[0].filter), ts[1..])
  {
  }

  /** For each name, the last call of the batch naming it decides the
      installed code and the last filter. */
  lemma {:induction false} HookAllInstalls(s: State, ts: seq<Trigger>, i: nat)
    requires i < |ts| && LastFor(ts, i)
    ensures Installed(HookAll(s, ts), ts[i])
    decreases |ts|, 1
  {
    if i == 0 {
      HookAllInstallsLast(s, ts);
    } else {
      HookAllInstallsLater(s, ts, i);
    }
  }

  /** A position after the first: the batch after the first call decides it. */
  lemma {:induction false} HookAllInstallsLater(s: State, ts: seq<Trigger>, i: nat)
    requires 0 < i < |ts| && LastFor(ts, i)
    ensures Installed(HookAll(s, ts), ts[i])
    decreases |ts|, 0
  {
    TailLastFor(ts, i);
    HookAllInstalls(Router.HookEvent(s, ts[0].name, ts[0].code, ts[0].filter), ts[1..], i - 1);
    HookAllFirst(s, ts);
  }

  /** The filter list of a name, empty when the name has none. */
  function FilterList(filters: map<string, seq<Filter>>, n: string): seq<Filter> {
    if n in filters then filters[n] else []
  }

  /** The filters the calls of a batch naming `n` hand over, in call order. */
  function FiltersOf(ts: seq<Trigger>, n: string): (r: seq<Filter>)
    ensures |r| <= |ts|
    decreases |ts|
  {
    if ts == [] then []
    else (if ts[0].name == n && ts[0].filter.Some? then [ts[0].filter.value] else []) + FiltersOf(ts[1..], n)
  }

  /** A batch keeps every name's filters and appends, in call order, the
      filters its calls name for it; a call without a filter appends none. */
  lemma {:induction false} HookAllFilters(s: State, ts: seq<Trigger>, n: string)
    ensures FilterList(HookAll(s, ts).filters, n) == FilterList(s.filters, n) + FiltersOf(ts, n)
    decreases |ts|
  {
    if ts == [] {
      assert FilterList(s.filters, n) + [] == FilterList(s.filters, n);
    } else {
      var s1 := Router.HookEvent(s, ts[0].name, ts[0].code, ts[0].filter);
      HookAllFilters(s1, ts[1..], n);
      HookEventFilters(s, ts[0], n);
      var head := if ts[0].name == n && ts[0].filter.Some? then [ts[0].filter.value] else [];
      var a, c := FilterList(s.filters, n), FiltersOf(ts[1..], n);
      assert FiltersOf(ts, n) == head + c;
      AppendAssoc(a, head, c);
    }
  }

  lemma AppendAssoc(a: seq<Filter>, b: seq<Filter>, c: seq<Filter>)
    ensures (a + b) + c == a + (b + c)
  {
  }

  /** One `hookEvent` call appends its filter, when given, to its own name's
      list and leaves every other name's list alone. */
  lemma HookEventFilters(s: State, t: Trigger, n: string)
    ensures FilterList(Router.HookEvent(s, t.name, t.code, t.filter).filters, n) ==
              FilterList(s.filters, n) + (if t.name == n && t.filter.Some? then [t.filter.value] else [])
  {
  }

  /** The subscriptions a batch makes: one fresh listener per call, in call
      order, each capturing its call's code. */
  function Subscriptions(n: nat, ts: seq<Trigger>): (r: seq<Subscription>)
    ensures |r| == |ts|
    decreases |ts|
  {
    if ts == [] then []
    else [On(ts[0].name, Handler(n, ts[0].name, ts[0].code))] + Subscriptions(n + 1, ts[1..])
  }

  /** The `i`-th subscription of a batch is its `i`-th call's, with the
      `i`-th identity. */
  lemma {:induction false} SubscriptionsAt(n: nat, ts: seq<Trigger>, i: nat)
    requires i < |ts|
    ensures Subscriptions(n, ts)[i] == On(ts[i].name, Handler(n + i, ts[i].name, ts[i].code))
    decreases i
  {
    if i > 0 {
      SubscriptionsAt(n + 1, ts[1..], i - 1);
    }
  }

  /** A batch draws one identity per call and adds one subscription per
      call. */
  lemma {:induction false} HookAllGrows(s: State, ts: seq<Trigger>)
    ensures |HookAll(s, ts).subs| == |s.subs| + |ts|
    ensures HookAll(s, ts).nextHandler == s.nextHandler + |ts|
    decreases |ts|
  {
    if ts != [] {
      HookAllGrows(Router.HookEvent(s, ts[0].name, ts[0].code, ts[0].filter), ts[1..]);
      HookAllFirst(s, ts);
    }
  }

  /** A batch leaves every existing subscription where it was. */
  lemma {:induction false} HookAllKeeps(s: State, ts: seq<Trigger>, k: nat)
    requires k < |s.subs|
    ensures k < |HookAll(s, ts).subs| && HookAll(s, ts).subs[k] == s.subs[k]
    decreases |ts|
  {
    if ts != [] {
      var s1 := Router.HookEvent(s, ts[0].name, ts[0].code, ts[0].filter);
      assert s1.subs[k] == s.subs[k];
      HookAllKeeps(s1, ts[1..], k);
      HookAllFirst(s, ts);
    }
  }

  /** The first call of a batch subscribes its listener right after the
      existing subscriptions. */
  lemma HookAllSubscribesFirst(s: State, ts: seq<Trigger>)
    requires 0 < |ts|
    ensures |s.subs| < |HookAll(s, ts).subs|
    ensures HookAll(s, ts).subs[|s.subs|] == On(ts[0].name, Handler(s.nextHandler, ts[0].name, ts[0].code))
  {
    var s1 := Router.HookEvent(s, ts[0].name, ts[0].code, ts[0].filter);
    HookAllFirst(s, ts);
    HookAllKeeps(s1, ts[1..], |s.subs|);
  }

  /** The `i`-th call of a batch, `t`, subscribes its own listener, with
      the `i`-th fresh identity `n`, at the `i`-th new position `k`. */
  lemma {:induction false} HookAllSubscribesAt(s: State, ts: seq<Trigger>, i: nat, t: Trigger, k: nat, n: nat)
    requires i < |ts| && ts[i] == t
    requires k == |s.subs| + i && n == s.nextHandler + i
    ensures k < |HookAll(s, ts).subs|
    ensures HookAll(s, ts).subs[k] == On(t.name, Handler(n, t.name, t.code))
    decreases i, 1
  {
    if i == 0 {
      HookAllSubscribesFirst(s, ts);
    } else {
      HookAllSubscribesLater(s, ts, i, t, k, n);
    }
  }

  /** A call after the first: the batch after the first call places it. */
  lemma {:induction false} HookAllSubscribesLater(s: State, ts: seq<Trigger>, i: nat, t: Trigger, k: nat, n: nat)
    requires 0 < i < |ts| && ts[i] == t
    requires k == |s.subs| + i && n == s.nextHandler + i
    ensures k < |HookAll(s, ts).subs|
    ensures HookAll(s, ts).subs[k] == On(t.name, Handler(n, t.name, t.code))
    decreases i, 0
  {
    HookAllFirst(s, ts);
    HookAllSubscribesAt(Router.HookEvent(s, ts[0].name, ts[0].code, ts[0].filter), ts[1..], i - 1, t, k, n);
  }

  /** A list that keeps `pre` and then holds, position by position, the
      subscriptions of `ts` is `pre` followed by them. */
  lemma SubscriptionsAfter(r: seq<Subscription>, pre: seq<Subscription>, n: nat, ts: seq<Trigger>)
    requires |r| == |pre| + |ts|
    requires forall k :: 0 <= k < |pre| ==> r[k] == pre[k]
    requires forall k :: |pre| <= k < |r| ==>
               r[k] == On(ts[k - |pre|].name, Handler(n + (k - |pre|), ts[k - |pre|].name, ts[k - |pre|].code))
    ensures r == pre + Subscriptions(n, ts)
  {
    forall k | |pre| <= k < |r| ensures r[k] == Subscriptions(n, ts)[k - |pre|] {
      SubscriptionsAt(n, ts, k - |pre|);
    }
  }

  /** Every existing subscription stays in place. */
  lemma HookAllKeepsAll(s: State, ts: seq<Trigger>)
    ensures |HookAll(s, ts).subs| == |s.subs| + |ts|
    ensures forall k :: 0 <= k < |s.subs| ==> HookAll(s, ts).subs[k] == s.subs[k]
  {
    HookAllGrows(s, ts);
    forall k | 0 <= k < |s.subs| ensures HookAll(s, ts).subs[k] == s.subs[k] {
      HookAllKeeps(s, ts, k);
    }
  }

  /** Every new position holds the subscription of the matching call. */
  lemma HookAllSubscribesAll(s: State, ts: seq<Trigger>)
    ensures |HookAll(s, ts).subs| == |s.subs| + |ts|
    ensures forall k :: |s.subs| <= k < |s.subs| + |ts| ==>
      HookAll(s, ts).subs[k] ==
        On(ts[k - |s.subs|].name, Handler(s.nextHandler + (k - |s.subs|), ts[k - |s.subs|].name, ts[k - |s.subs|].code))
  {
    HookAllGrows(s, ts);
    forall k | |s.subs| <= k < |s.subs| + |ts|
      ensures HookAll(s, ts).subs[k] ==
        On(ts[k - |s.subs|].name, Handler(s.nextHandler + (k - |s.subs|), ts[k - |s.subs|].name, ts[k - |s.subs|].code))
    {
      HookAllPlaces(s, ts, k);
    }
  }

  /** The subscription at a new position `k` is the one the call at `k`'s
      offset into the batch made. */
  lemma HookAllPlaces(s: State, ts: seq<Trigger>, k: nat)
    requires |s.subs| <= k < |s.subs| + |ts|
    ensures k < |HookAll(s, ts).subs|
    ensures HookAll(s, ts).subs[k] ==
      On(ts[k - |s.subs|].name, Handler(s.nextHandler + (k - |s.subs|), ts[k - |s.subs|].name, ts[k - |s.subs|].code))
  {
    HookAllSubscribesAt(s, ts, k - |s.subs|, ts[k - |s.subs|], k, s.nextHandler + (k - |s.subs|));
  }

  /** Every call of a batch subscribes its own fresh listener (`process.on`),
      after the existing subscriptions and in call order. */
  lemma HookAllSubscribes(s: State, ts: seq<Trigger>)
    ensures HookAll(s, ts).subs == s.subs + Subscriptions(s.nextHandler, ts)
    ensures HookAll(s, ts).nextHandler == s.nextHandler + |ts|
  {
    HookAllGrows(s, ts);
    HookAllKeepsAll(s, ts);
    HookAllSubscribesAll(s, ts);
    SubscriptionsAfter(HookAll(s, ts).subs, s.subs, s.nextHandler, ts);
  }

  /** What `add` installs on the first hook. */
  function InstallDefaults(s: State): (r: State)
    ensures r == s.(events := r.events, filters := r.filters, nextHandler := r.nextHandler, subs := r.subs)
  {
    HookAllFrame(s, DefaultTriggers);
    HookAll(s, DefaultTriggers)
  }

  /** Every default trigger is installed with its code, and `message` ends
      with the shutdown-keyword filter. */
  lemma DefaultsInstalled(s: State)
    ensures forall i :: 0 <= i < |DefaultTriggers| ==> Installed(InstallDefaults(s), DefaultTriggers[i])
  {
    forall i | 0 <= i < |DefaultTriggers| ensures Installed(InstallDefaults(s), DefaultTriggers[i]) {
      HookAllInstalls(s, DefaultTriggers, i);
    }
  }

  /** Each default trigger's listener is subscribed, in order, with a fresh
      identity. */
  lemma DefaultsSubscribed(s: State)
    ensures InstallDefaults(s).subs == s.subs + Subscriptions(s.nextHandler, DefaultTriggers)
    ensures InstallDefaults(s).nextHandler == s.nextHandler + |DefaultTriggers|
  {
    HookAllSubscribes(s, DefaultTriggers);
  }

  /** `add(hook)`: appends the hook. Only the registration that makes the
      list one long installs the default triggers, each with its code, and
      the `message` trigger's last filter is the shutdown-keyword filter;
      it subscribes one fresh listener per trigger, in trigger order. Every
      later registration changes nothing else. */
  function Add(s: State, h: Hook): (r: State)
    ensures r.hooks == s.hooks + [h]
    ensures |s.hooks| != 0 ==> r == s.(hooks := s.hooks + [h])
    ensures |s.hooks| == 0 ==> forall i :: 0 <= i < |DefaultTriggers| ==> Installed(r, DefaultTriggers[i])
    ensures |s.hooks| == 0 ==>
              r.subs == s.subs + Subscriptions(s.nextHandler, DefaultTriggers)
              && r.nextHandler == s.nextHandler + |DefaultTriggers|
    ensures r == s.(hooks := r.hooks, events := r.events, filters := r.filters, nextHandler := r.nextHandler, subs := r.subs)
  {
    var s1 := s.(hooks := s.hooks + [h]);
    if |s1.hooks| == 1 then
      DefaultsInstalled(s1);
      DefaultsSubscribed(s1);
      InstallDefaults(s1)
    else s1
  }

  /** The first registration gives each default trigger's name the filters
      its `hookEvent` call hands over (only `message` has one); every other
      registration leaves the filters alone. */
  lemma AddFilters(s: State, h: Hook, n: string)
    ensures FilterList(Add(s, h).filters, n) ==
              FilterList(s.filters, n) + (if |s.hooks| == 0 then FiltersOf(DefaultTriggers, n) else [])
  {
    if |s.hooks| == 0 {
      HookAllFilters(s.(hooks := s.hooks + [h]), DefaultTriggers, n);
    } else {
      assert FilterList(s.filters, n) + [] == FilterList(s.filters, n);
    }
  }

  /** The shared body of the two error-hook registrations: appends to the
      shared error-hook list and subscribes `channel` only when this
      registration makes the list one long. */
  function AddErrorHook(s: State, h: Hook, channel: Channel): (r: State)
    ensures r.errHooks == s.errHooks + [h]
    ensures |s.errHooks| == 0 ==> r.subs == s.subs + [Once(channel)]
    ensures |s.errHooks| != 0 ==> r.subs == s.subs
    ensures r == s.(errHooks := r.errHooks, subs := r.subs)
  {
    var s1 := s.(errHooks := s.errHooks + [h]);
    if |s1.errHooks| == 1 then s1.(subs := s1.subs + [Once(channel)]) else s1
  }

  /** `uncaughtExceptionHandler(hook)`. */
  function AddUncaughtExceptionHandler(s: State, h: Hook): (r: State)
    ensures r.errHooks == s.errHooks + [h]
    ensures Once(UncaughtException) in r.subs <==> Once(UncaughtException) in s.subs || |s.errHooks| == 0
    ensures Once(UnhandledRejection) in r.subs <==> Once(UnhandledRejection) in s.subs
    ensures r.subs == s.subs + (if |s.errHooks| == 0 then [Once(UncaughtException)] else [])
    ensures r == s.(errHooks := s.errHooks + [h], subs := r.subs)
  {
    AddErrorHook(s, h, UncaughtException)
  }

  /** `unhandledRejectionHandler(hook)`. */
  function AddUnhandledRejectionHandler(s: State, h: Hook): (r: State)
    ensures r.errHooks == s.errHooks + [h]
    ensures Once(UnhandledRejection) in r.subs <==> Once(UnhandledRejection) in s.subs || |s.errHooks| == 0
    ensures Once(UncaughtException) in r.subs <==> Once(UncaughtException) in s.subs
    ensures r.subs == s.subs + (if |s.errHooks| == 0 then [Once(UnhandledRejection)] else [])
    ensures r == s.(errHooks := s.errHooks + [h], subs := r.subs)
  {
    AddErrorHook(s, h, UnhandledRejection)
  }

  /** `forceExitTimeout(ms)`: the timeout any later exit sequence arms its
      timer with. */
  function ForceExitTimeout(s: State, ms: int): (r: State)
    ensures r.asyncTimeoutMs == ms
    ensures r == s.(asyncTimeoutMs := ms)
  {
    s.(asyncTimeoutMs := ms)
  }

  /** Only the first error-hook kind registered gets its channel: registering
      a rejection handler and then an exception handler on a fresh state
      leaves the uncaught-exception channel unsubscribed, though both hooks
      are in the shared list. */
  lemma OnlyFirstErrorKindSubscribed(h1: Hook, h2: Hook)
    ensures AddUncaughtExceptionHandler(AddUnhandledRejectionHandler(Init(), h1), h2).errHooks == [h1, h2]
    ensures Once(UnhandledRejection) in AddUncaughtExceptionHandler(AddUnhandledRejectionHandler(Init(), h1), h2).subs
    ensures Once(UncaughtException) !in AddUncaughtExceptionHandler(AddUnhandledRejectionHandler(Init(), h1), h2).subs
  {
  }
}
