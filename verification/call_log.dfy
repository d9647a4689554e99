/**
 Counts over the log of hook invocations: how many hooks were handed the
 real completion callback, and how many of those have not called it yet.
 */
module CallLog {
  import opened Model

  /** The number of invocations that were handed `stepTowardExit`. */
  function AsyncCount(log: seq<Call>): nat {
    if log == [] then 0
    else (if log[0].next == StepTowardExit then 1 else 0) + AsyncCount(log[1..])
  }

  /** The number of invocations handed `stepTowardExit` that have not called it. */
  function Pending(log: seq<Call>): nat {
    if log == [] then 0
    else (if log[0].next == StepTowardExit && !log[0].completed then 1 else 0) + Pending(log[1..])
  }

  /** The hooks invoked, in invocation order. */
  function Invoked(log: seq<Call>): seq<Hook> {
    seq(|log|, i requires 0 <= i < |log| => log[i].hook)
  }

  predicate Fresh(log: seq<Call>) {
    forall i :: 0 <= i < |log| ==> !log[i].completed
  }

  lemma {:induction false} PendingAppend(a: seq<Call>, b: seq<Call>)
    ensures Pending(a + b) == Pending(a) + Pending(b)
    decreases |a|
  {
    if a != [] {
      assert (a + b)[1..] == a[1..] + b;
      PendingAppend(a[1..], b);
    } else {
      assert a + b == b;
    }
  }

  lemma {:induction false} AsyncCountAppend(a: seq<Call>, b: seq<Call>)
    ensures AsyncCount(a + b) == AsyncCount(a) + AsyncCount(b)
    decreases |a|
  {
    if a != [] {
      assert (a + b)[1..] == a[1..] + b;
      AsyncCountAppend(a[1..], b);
    } else {
      assert a + b == b;
    }
  }

  /** Until a hook calls back, every async invocation is pending. */
  lemma {:induction false} PendingFresh(log: seq<Call>)
    requires Fresh(log)
    ensures Pending(log) == AsyncCount(log)
    decreases |log|
  {
    if log != [] {
      PendingFresh(log[1..]);
    }
  }

  /** Marking one invocation completed lowers the pending count by one
      exactly when it was an async invocation still pending. */
  lemma {:induction false} PendingComplete(log: seq<Call>, i: nat)
    requires i < |log|
    ensures Pending(log[i := log[i].(completed := true)])
         == Pending(log) - (if log[i].next == StepTowardExit && !log[i].completed then 1 else 0)
    decreases |log|
  {
    var log' := log[i := log[i].(completed := true)];
    if i == 0 {
      assert log'[1..] == log[1..];
    } else {
      assert log'[1..] == log[1..][i - 1 := log[i].(completed := true)];
      PendingComplete(log[1..], i - 1);
    }
  }

  /** Nothing pending means every async invocation has called back. */
  lemma {:induction false} NothingPending(log: seq<Call>)
    ensures Pending(log) == 0 <==>
      forall i :: 0 <= i < |log| && log[i].next == StepTowardExit ==> log[i].completed
    decreases |log|
  {
    if log != [] {
      NothingPending(log[1..]);
      assert forall i :: 1 <= i < |log| ==> log[i] == log[1..][i - 1];
    }
  }
}
