/**
 The parts of the host process the coordinator talks to, as data: the
 listener list (`process.on`, `process.once`, `process.removeListener`) and
 the count of `process.exit` tasks in the next-tick queue.
 */
module Process {
  import opened Model

  /** The listeners subscribed to the named event, in subscription order: the
      snapshot an emit of `name` calls. */
  function Listeners(subs: seq<Subscription>, name: string): (hs: seq<Handler>)
    ensures forall h :: h in hs <==> On(name, h) in subs
    ensures |hs| <= |subs|
  {
    if subs == [] then []
    else
      var rest := Listeners(subs[1..], name);
      assert forall x :: x in subs <==> x == subs[0] || x in subs[1..] by {
        assert subs == [subs[0]] + subs[1..];
      }
      if subs[0].On? && subs[0].event == name then [subs[0].handler] + rest else rest
  }

  /** Every `process.on` subscription holds the listener built for its own
      event, as `hookEvent` subscribes them. */
  predicate ListenOwnEvent(subs: seq<Subscription>) {
    forall x :: x in subs && x.On? ==> x.handler.event == x.event
  }

  /** Removing a subscription adds none. */
  lemma RemoveListenerShrinks(subs: seq<Subscription>, x: Subscription)
    ensures forall y :: y in RemoveListener(subs, x) ==> y in subs
  {
    forall y | y in RemoveListener(subs, x) ensures y in subs {
      assert multiset(RemoveListener(subs, x))[y] <= multiset(subs)[y];
    }
  }

  /** A subscription added last is called last: the earlier listeners of
      the name keep their order ahead of it. */
  lemma {:induction false} ListenersAppend(subs: seq<Subscription>, x: Subscription, name: string)
    ensures Listeners(subs + [x], name) ==
              Listeners(subs, name) + (if x.On? && x.event == name then [x.handler] else [])
    decreases |subs|
  {
    if subs == [] {
      assert subs + [x] == [x];
      assert Listeners([x], name) == (if x.On? && x.event == name then [x.handler] else []) + Listeners([], name);
    } else {
      assert (subs + [x])[1..] == subs[1..] + [x];
      ListenersAppend(subs[1..], x, name);
    }
  }

  /** Where the most recently added instance of `x` sits, if any. */
  function LastIndexOf(subs: seq<Subscription>, x: Subscription): (r: Option<nat>)
    ensures r.None? ==> x !in subs
    ensures r.Some? ==> r.value < |subs| && subs[r.value] == x && x !in subs[r.value + 1..]
  {
    if subs == [] then None
    else if subs[|subs| - 1] == x then Some(|subs| - 1)
    else
      var r := LastIndexOf(subs[..|subs| - 1], x);
      assert subs == subs[..|subs| - 1] + [subs[|subs| - 1]];
      match r
      case None => None
      case Some(i) =>
        assert subs[i + 1..] == subs[..|subs| - 1][i + 1..] + [subs[|subs| - 1]];
        Some(i)
  }

  /** `removeListener`: drops the most recently added instance of `x`, and
      nothing when `x` is not subscribed. */
  function RemoveListener(subs: seq<Subscription>, x: Subscription): (r: seq<Subscription>)
    ensures x !in subs ==> r == subs
    ensures x in subs ==> |r| == |subs| - 1 && multiset(r) == multiset(subs) - multiset{x}
    ensures x in subs ==> exists i :: 0 <= i < |subs| && subs[i] == x && x !in subs[i + 1..]
                                      && r == subs[..i] + subs[i + 1..]
  {
    match LastIndexOf(subs, x)
    case None => subs
    case Some(i) =>
      assert subs == subs[..i] + [subs[i]] + subs[i + 1..];
      subs[..i] + subs[i + 1..]
  }

  /** The listeners of a name in two stretches of subscriptions are those of
      the first stretch followed by those of the second. */
  lemma {:induction false} ListenersConcat(a: seq<Subscription>, b: seq<Subscription>, name: string)
    ensures Listeners(a + b, name) == Listeners(a, name) + Listeners(b, name)
    decreases |a|
  {
    if a == [] {
      assert a + b == b;
    } else {
      assert (a + b)[1..] == a[1..] + b;
      ListenersConcat(a[1..], b, name);
    }
  }

  /** Removing a subscription leaves every other event's listeners, and
      their order, as they were. */
  lemma RemoveListenerKeepsOthers(subs: seq<Subscription>, x: Subscription)
    ensures forall n :: !(x.On? && x.event == n) ==> Listeners(RemoveListener(subs, x), n) == Listeners(subs, n)
  {
    match LastIndexOf(subs, x)
    case None =>
    case Some(i) =>
      forall n | !(x.On? && x.event == n)
        ensures Listeners(RemoveListener(subs, x), n) == Listeners(subs, n)
      {
        CutKeepsListeners(subs, i, n);
      }
  }

  /** Cutting out one subscription that does not listen to `n` leaves the
      listeners of `n` as they were. */
  lemma CutKeepsListeners(subs: seq<Subscription>, i: nat, n: string)
    requires i < |subs| && !(subs[i].On? && subs[i].event == n)
    ensures Listeners(subs[..i] + subs[i + 1..], n) == Listeners(subs, n)
  {
    assert subs == subs[..i] + ([subs[i]] + subs[i + 1..]);
    ListenersConcat(subs[..i], [subs[i]] + subs[i + 1..], n);
    ListenersConcat([subs[i]], subs[i + 1..], n);
    ListenersConcat(subs[..i], subs[i + 1..], n);
    assert Listeners([subs[i]], n) == [];
  }

  /** The number of `process.exit` tasks waiting in the tick queue. */
  function ExitTicks(ts: seq<Tick>): nat {
    if ts == [] then 0 else (if ts[0].ProcessExit? then 1 else 0) + ExitTicks(ts[1..])
  }

  lemma {:induction false} ExitTicksAppend(a: seq<Tick>, b: seq<Tick>)
    ensures ExitTicks(a + b) == ExitTicks(a) + ExitTicks(b)
    decreases |a|
  {
    if a != [] {
      assert (a + b)[1..] == a[1..] + b;
      ExitTicksAppend(a[1..], b);
    } else {
      assert a + b == b;
    }
  }

  lemma {:induction false} ExitTicksZero(ts: seq<Tick>)
    ensures ExitTicks(ts) == 0 <==> forall t :: t in ts ==> !t.ProcessExit?
    decreases |ts|
  {
    if ts != [] {
      ExitTicksZero(ts[1..]);
      assert ts == [ts[0]] + ts[1..];
    }
  }
}
