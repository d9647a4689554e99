/**
 The trigger router: `hookEvent`, `unhookEvent`, `hookedEvents`, and what a
 listener closure built by `hookEvent` does when its event is emitted.
 */
module Router {
  import opened Model
  import opened EventTable
  import opened Process
  import Coordinator

  /** The verdict of one filter on a payload; a truthy verdict vetoes. The
      built-in `message` filter vetoes everything except the shutdown
      keyword; a caller's filter is judged by `verdict`. */
  predicate Vetoes(f: Filter, p: Payload, verdict: (nat, Payload) -> bool) {
    match f
    case ShutdownOnly => p != Text("shutdown")
    case Custom(id) => verdict(id, p)
  }

  /** Some filter in the list vetoes the payload. */
  predicate Vetoed(fs: seq<Filter>, p: Payload, verdict: (nat, Payload) -> bool) {
    exists j :: 0 <= j < |fs| && Vetoes(fs[j], p, verdict)
  }

  /** The filter loop from position `from` on: the index of the first filter
      that vetoes, if any. */
  function FirstVeto(fs: seq<Filter>, p: Payload, verdict: (nat, Payload) -> bool, from: nat): (r: Option<nat>)
    requires from <= |fs|
    ensures r.Some? ==> from <= r.value < |fs| && Vetoes(fs[r.value], p, verdict)
    ensures r.Some? ==> forall j :: from <= j < r.value ==> !Vetoes(fs[j], p, verdict)
    ensures r.None? <==> forall j :: from <= j < |fs| ==> !Vetoes(fs[j], p, verdict)
    decreases |fs| - from
  {
    if from == |fs| then None
    else if Vetoes(fs[from], p, verdict) then Some(from)
    else FirstVeto(fs, p, verdict, from + 1)
  }

  /** `hookEvent(name, code, filter)`: installs a fresh listener capturing
      `code` (overwriting the table entry in place, or adding the name at the
      end), keeps any existing filters and appends `filter` when given, and
      subscribes the new listener. Earlier listeners stay subscribed. */
  function HookEvent(s: State, name: string, code: Option<int>, filter: Option<Filter>): (r: State)
    ensures Find(r.events, name) == Some(Handler(s.nextHandler, name, code))
    ensures forall n :: n != name ==> Find(r.events, n) == Find(s.events, n)
    ensures Keys(r.events) == if name in Keys(s.events) then Keys(s.events) else Keys(s.events) + [name]
    ensures name in r.filters
    ensures r.filters[name] ==
              (if name in s.filters then s.filters[name] else []) + (if filter.Some? then [filter.value] else [])
    ensures forall n :: n != name ==> (n in r.filters <==> n in s.filters)
    ensures forall n :: n != name && n in s.filters ==> r.filters[n] == s.filters[n]
    ensures r.subs == s.subs + [On(name, Handler(s.nextHandler, name, code))]
    ensures r == s.(events := r.events, filters := r.filters, nextHandler := s.nextHandler + 1, subs := r.subs)
  {
    var h := Handler(s.nextHandler, name, code);
    var prior := if name in s.filters then s.filters[name] else [];
    s.(events := Put(s.events, name, h),
       filters := s.filters[name := if filter.Some? then prior + [filter.value] else prior],
       nextHandler := s.nextHandler + 1,
       subs := s.subs + [On(name, h)])
  }

  /** `unhookEvent(name)`: for a hooked name, unsubscribes its current
      listener and forgets the listener and the filters; for any other name,
      does nothing. */
  function UnhookEvent(s: State, name: string): (r: State)
    ensures Find(s.events, name).None? ==> r == s
    ensures name !in Keys(r.events)
    ensures forall n :: n != name ==> Find(r.events, n) == Find(s.events, n)
    ensures Find(s.events, name).Some? ==>
              name !in r.filters && r.filters == map n | n in s.filters && n != name :: s.filters[n]
    ensures Find(s.events, name).Some? && On(name, Find(s.events, name).value) in s.subs ==>
              multiset(r.subs) == multiset(s.subs) - multiset{On(name, Find(s.events, name).value)}
    ensures forall n :: n != name ==> Listeners(r.subs, n) == Listeners(s.subs, n)
    ensures r == s.(events := r.events, filters := r.filters, subs := r.subs)
  {
    match Find(s.events, name)
    case None => s
    case Some(h) =>
      Process.RemoveListenerKeepsOthers(s.subs, On(name, h));
      s.(subs := RemoveListener(s.subs, On(name, h)),
         events := Delete(s.events, name),
         filters := map n | n in s.filters && n != name :: s.filters[n])
  }

  /** `hookedEvents()`: the hooked names in enumeration order, exactly those
      with an installed listener. */
  function HookedEvents(s: State): (r: seq<string>)
    ensures forall n :: n in r <==> Find(s.events, n).Some?
  {
    Keys(s.events)
  }

  datatype Outcome = Outcome(state: State, faulted: bool)

  /** The listener closure `h` running on payload `p`. It reads the filter
      list of its own event (a missing list makes it throw); a vetoing
      filter ends it; otherwise it calls `exit(code present, code)`. */
  function RunHandler(s: State, h: Handler, p: Payload, verdict: (nat, Payload) -> bool): (r: Outcome)
    ensures r.faulted <==> h.event !in s.filters
    ensures h.event in s.filters && Vetoed(s.filters[h.event], p, verdict) ==> r.state == s
    ensures h.event in s.filters && !Vetoed(s.filters[h.event], p, verdict) ==>
              r.state == Coordinator.Exit(s, h.code.Some?, h.code, None)
    ensures r.faulted ==> r.state == s
  {
    if h.event !in s.filters then Outcome(s, true)
    else
      match FirstVeto(s.filters[h.event], p, verdict, 0)
      case Some(_) => Outcome(s, false)
      case None => Outcome(Coordinator.Exit(s, h.code.Some?, h.code, None), false)
  }

  /** The listeners `hs` called one after the other, each seeing the state
      the previous one left; a listener that throws ends the emit. The
      result is either the unchanged state or the exit sequence started by
      one of the listeners with its own code; when the first listener's
      filters let the payload through, it is that listener's code. */
  function RunListeners(s: State, hs: seq<Handler>, p: Payload, verdict: (nat, Payload) -> bool): (r: Outcome)
    ensures s.called ==> r.state == s
    ensures |hs| > 0 && hs[0].event in s.filters && !Vetoed(s.filters[hs[0].event], p, verdict) ==>
              r.state == Coordinator.Exit(s, hs[0].code.Some?, hs[0].code, None)
    ensures (forall i :: 0 <= i < |hs| ==> hs[i].event in s.filters && Vetoed(s.filters[hs[i].event], p, verdict)) ==>
              r == Outcome(s, false)
    ensures r.state == s || exists h :: h in hs && r.state == Coordinator.Exit(s, h.code.Some?, h.code, None)
    decreases |hs|
  {
    if hs == [] then Outcome(s, false)
    else
      var o := RunHandler(s, hs[0], p, verdict);
      if o.faulted then o
      else
        var r := RunListeners(o.state, hs[1..], p, verdict);
        assert forall i :: 1 <= i < |hs| ==> hs[1..][i - 1] == hs[i];
        r
  }

  /** Emitting `name` with payload `p`: the listeners subscribed at that
      moment run in subscription order. */
  function Fire(s: State, name: string, p: Payload, verdict: (nat, Payload) -> bool): (r: Outcome)
    ensures s.called ==> r.state == s
    ensures var hs := Listeners(s.subs, name);
              |hs| > 0 && hs[0].event in s.filters && !Vetoed(s.filters[hs[0].event], p, verdict) ==>
              r.state == Coordinator.Exit(s, hs[0].code.Some?, hs[0].code, None)
    ensures r.state == s || exists h :: On(name, h) in s.subs && r.state == Coordinator.Exit(s, h.code.Some?, h.code, None)
  {
    RunListeners(s, Listeners(s.subs, name), p, verdict)
  }

  /** When every subscription holds its own event's listener, every
      listener an emit of `name` calls was built for `name`. */
  lemma ListenersOwn(subs: seq<Subscription>, name: string)
    requires ListenOwnEvent(subs)
    ensures forall i :: 0 <= i < |Listeners(subs, name)| ==> Listeners(subs, name)[i].event == name
  {
    var hs := Listeners(subs, name);
    forall i | 0 <= i < |hs| ensures hs[i].event == name {
      assert hs[i] in hs;
      assert On(name, hs[i]) in subs;
    }
  }

  /** The veto half of an emit: when the event has no filter list, or one
      of its filters vetoes the payload, nothing changes. */
  lemma FireVetoed(s: State, name: string, p: Payload, verdict: (nat, Payload) -> bool)
    requires ListenOwnEvent(s.subs)
    requires name !in s.filters || Vetoed(s.filters[name], p, verdict)
    ensures Fire(s, name, p, verdict).state == s
  {
    var hs := Listeners(s.subs, name);
    ListenersOwn(s.subs, name);
    if name !in s.filters && hs != [] {
      assert RunHandler(s, hs[0], p, verdict).faulted;
    }
  }

  /** The passing half: when the event's filters let the payload through,
      its first listener starts the sequence with its code. */
  lemma FirePasses(s: State, name: string, p: Payload, verdict: (nat, Payload) -> bool)
    requires ListenOwnEvent(s.subs)
    requires Listeners(s.subs, name) != [] && name in s.filters && !Vetoed(s.filters[name], p, verdict)
    ensures var h := Listeners(s.subs, name)[0];
      Fire(s, name, p, verdict).state == Coordinator.Exit(s, h.code.Some?, h.code, None)
  {
    ListenersOwn(s.subs, name);
  }

  /** An event with one listener whose filters let the payload through
      starts the exit sequence with that listener's code. */
  lemma SoleListenerStarts(s: State, name: string, h: Handler, p: Payload, verdict: (nat, Payload) -> bool)
    requires Listeners(s.subs, name) == [h] && h.event in s.filters && !Vetoed(s.filters[h.event], p, verdict)
    ensures Fire(s, name, p, verdict) == Outcome(Coordinator.Exit(s, h.code.Some?, h.code, None), false)
  {
    var o := RunHandler(s, h, p, verdict);
    assert !o.faulted && o.state == Coordinator.Exit(s, h.code.Some?, h.code, None);
    assert [h][1..] == [];
    assert RunListeners(s, [h], p, verdict) == RunListeners(o.state, [], p, verdict);
  }

  /** Hooking a name subscribes the new listener behind every listener the
      name already has: a listener from an earlier hooking of the same name
      stays subscribed and still runs first. */
  lemma HookEventListensLast(s: State, name: string, code: Option<int>, filter: Option<Filter>)
    ensures Listeners(HookEvent(s, name, code, filter).subs, name) ==
              Listeners(s.subs, name) + [Handler(s.nextHandler, name, code)]
  {
    ListenersAppend(s.subs, On(name, Handler(s.nextHandler, name, code)), name);
  }

  /** The built-in `message` filter lets exactly the shutdown keyword through. */
  lemma ShutdownFilter(p: Payload, verdict: (nat, Payload) -> bool)
    ensures FirstVeto([ShutdownOnly], p, verdict, 0).None? <==> p == Text("shutdown")
  {
    assert Vetoes([ShutdownOnly][0], p, verdict) <==> p != Text("shutdown");
  }

  /** Unhooking and rehooking: the name leaves the hooked list and comes back. */
  lemma HookUnhookRehook(s: State, name: string, code: Option<int>)
    ensures name in HookedEvents(HookEvent(s, name, code, None))
    ensures name !in HookedEvents(UnhookEvent(HookEvent(s, name, code, None), name))
    ensures name in HookedEvents(HookEvent(UnhookEvent(HookEvent(s, name, code, None), name), name, code, None))
  {
  }
}
