/**
 The vocabulary shared by both lock managers: argument validation, the
 `TimeSpan?` to cancellation-token adapter, and the record each invocation of
 `PerformInLock`/`PerformInLockAsync` leaves behind while it runs.

 The synchronous, asynchronous, `Action` and `Func<TResult>` overloads all run
 the same algorithm, so they are modelled once: a work item is described by
 what it does when it runs (returns a value, or throws), and an `Action` or
 `Func<Task>` returns no value.
 */
module Calls {

  datatype Option<+T> = None | Some(value: T)

  datatype Result<+T, +E> = Success(value: T) | Failure(error: E)

  /** Identifies one invocation of a lock manager operation (one thread or task). */
  type CallerId = nat

  /** The parameter an `ArgumentNullException` names. */
  datatype Param = KeyParam | ActionParam

  /** What `actionTodo` does once it runs: returns (`None` for a void action) or throws. */
  datatype WorkResult = Returns(value: Option<int>) | Throws(exception: string)

  /** How a call that got past validation ends: with the work item's own result, or
      with an `OperationCanceledException` raised while waiting for the lock. */
  datatype Outcome = Completed(result: WorkResult) | Canceled

  /** The cancellation token the acquisition honours. `Never` is `default` /
      `CancellationToken.None`; `CancelAfter` is the token of a
      `CancellationTokenSource` built from a `TimeSpan`; `Signal` is a
      cancellable token supplied by the caller. */
  datatype Token = Never | CancelAfter(milliseconds: nat) | Signal
  {
    predicate CanFire() { !Never? }
  }

  /** The three overload families: no limit, a `TimeSpan? expireIn`, or an explicit token. */
  datatype Wait = NoLimit | ExpireIn(span: Option<nat>) | WithToken(token: Token)

  /** Where one call is in the algorithm. `Leaving` is after the `using` block
      ended (lock released or never taken) and before the `finally` block's
      write-locked cleanup; `Done` is after it. */
  datatype Phase = Waiting | Holding | Leaving(outcome: Outcome) | Done(outcome: Outcome)

  /** One call. A call rejected by validation touches nothing and only records
      which argument was null. An admitted call remembers its key, the item or
      lock it captured (`handle`), its effective token, its work item, and its phase. */
  datatype Caller =
    | Rejected(param: Param)
    | Active(key: string, handle: nat, token: Token, work: WorkResult, phase: Phase)

  /** `string.IsNullOrEmpty`, with `None` standing for `null`. */
  predicate IsNullOrEmpty(s: Option<string>) {
    s.None? || s.value == ""
  }

  /** The argument checks at the head of every overload: the key first, then the action.
      `None` means both arguments are acceptable. */
  function Validate(key: Option<string>, work: Option<WorkResult>): (r: Option<Param>)
    ensures r == Some(KeyParam) <==> IsNullOrEmpty(key)
    ensures r == Some(ActionParam) <==> !IsNullOrEmpty(key) && work.None?
    ensures r.None? ==> key.Some? && key.value != "" && work.Some?
  {
    if IsNullOrEmpty(key) then Some(KeyParam)
    else if work.None? then Some(ActionParam)
    else None
  }

  /** The token an overload hands to the token overload: `CancellationToken.None`
      for the two-argument overload, `default` for a null `expireIn`, a deadline
      token for a present one, and the caller's own token otherwise. */
  function EffectiveToken(wait: Wait): (t: Token)
    ensures t.CanFire() <==> (wait.ExpireIn? && wait.span.Some?) || (wait.WithToken? && wait.token.CanFire())
    ensures wait.ExpireIn? && wait.span.Some? ==> t == CancelAfter(wait.span.value)
    ensures wait.WithToken? ==> t == wait.token
  {
    match wait
    case NoLimit => Never
    case ExpireIn(span) =>
      if span.Some? then CancelAfter(span.value) else Never
    case WithToken(token) => token
  }

  /** A call that holds its lock and is running its work item. */
  predicate Running(c: Caller) {
    c.Active? && c.phase.Holding?
  }

  /** A call still between its registration and the end of its cleanup. */
  predicate InFlight(c: Caller) {
    c.Active? && !c.phase.Done?
  }

  /** An admitted call that has left the `using` block reports exactly its work
      item's result, or a cancellation, and a cancellation only with a token
      that can fire. */
  predicate OutcomeFaithful(c: Caller) {
    c.Active? && (c.phase.Leaving? || c.phase.Done?) ==>
      c.phase.outcome == Completed(c.work) || (c.phase.outcome == Canceled && c.token.CanFire())
  }
}
