/**
 The earlier lock manager of `Abp.DistributedLock`: a dictionary from key to
 `AsyncLock`, filled with `GetOrAdd` and emptied by an unconditional
 `TryRemove(key)` in every call's `finally` block. It keeps no count of the
 calls interested in a key.

 The steps are the same as in `LockRegistry`, with the dictionary operations
 atomic (the dictionary is a `ConcurrentDictionary`): a call gets or adds the
 key's lock and waits for it, runs its work item while holding it, leaves the
 `using` block, and removes the key. Each `AsyncLock` still admits one holder at
 a time, but a call arriving after the key was removed gets a new lock while an
 earlier call may still hold, or wait for, the old one.
 */
module NaiveRegistry {
  import opened Calls

  type LockId = nat

  /** The dictionary, every `AsyncLock` ever allocated with its current holder,
      and the calls. */
  datatype State = State(
    storage: map<string, LockId>,
    locks: map<LockId, Option<CallerId>>,
    callers: map<CallerId, Caller>,
    nextLock: LockId)

  const Init: State := State(map[], map[], map[], 0)

  /** Every identity the state mentions denotes an allocated lock, and
      `nextLock` is an identity not yet allocated. */
  predicate Wf(s: State) {
    && (forall k :: k in s.storage ==> s.storage[k] in s.locks)
    && (forall c :: c in s.callers && s.callers[c].Active? ==> s.callers[c].handle in s.locks)
    && (forall l :: l in s.locks ==> l < s.nextLock)
  }

  // ---------------------------------------------------------------------------
  // Operations
  // ---------------------------------------------------------------------------

  /** `_locksStorage.GetOrAdd(key, _ => new AsyncLock())`: the lock already stored
      for the key, or a newly allocated free lock, stored under the key. */
  function GetOrAdd(s: State, key: string): (r: (State, LockId))
    requires Wf(s)
    ensures Wf(r.0) && r.0.callers == s.callers
    ensures key in r.0.storage && r.0.storage[key] == r.1
    ensures key in s.storage ==> r == (s, s.storage[key])
    ensures key !in s.storage ==>
      && r.1 !in s.locks
      && r.0.locks == s.locks[r.1 := None]
      && r.0.storage == s.storage[key := r.1]
  {
    if key in s.storage then (s, s.storage[key])
    else
      var l := s.nextLock;
      (s.(storage := s.storage[key := l], locks := s.locks[l := None], nextLock := l + 1), l)
  }

  /** The three-argument `PerformInLock`/`PerformInLockAsync` up to the point where
      it waits for the lock: validate (throwing before the dictionary is touched),
      resolve the effective token, and get or add the key's lock. */
  function PerformInLock(s: State, c: CallerId, key: Option<string>, work: Option<WorkResult>, wait: Wait): (s': State)
    requires Wf(s) && c !in s.callers
    ensures Wf(s') && c in s'.callers
    ensures s'.callers[c].Rejected? <==> IsNullOrEmpty(key) || work.None?
    ensures s'.callers[c].Rejected? ==>
      && s'.callers[c].param == (if IsNullOrEmpty(key) then KeyParam else ActionParam)
      && s'.storage == s.storage && s'.locks == s.locks
    ensures s'.callers == s.callers[c := s'.callers[c]]
    ensures s'.callers[c].Active? ==>
      && key.value in s'.storage
      && s'.callers[c] == Active(key.value, s'.storage[key.value], EffectiveToken(wait), work.value, Waiting)
      && (key.value in s.storage ==>
            s'.storage == s.storage && s'.locks == s.locks && s'.callers[c].handle == s.storage[key.value])
      && (key.value !in s.storage ==>
            && s'.callers[c].handle !in s.locks
            && s'.locks == s.locks[s'.callers[c].handle := None]
            && s'.storage == s.storage[key.value := s'.callers[c].handle])
  {
    match Validate(key, work)
    case Some(p) => s.(callers := s.callers[c := Rejected(p)])
    case None =>
      var (s1, l) := GetOrAdd(s, key.value);
      s1.(callers := s1.callers[c := Active(key.value, l, EffectiveToken(wait), work.value, Waiting)])
  }

  /** The caller is waiting and the lock it got is free. */
  predicate CanAcquire(s: State, c: CallerId) {
    && c in s.callers && s.callers[c].Active? && s.callers[c].phase.Waiting?
    && s.callers[c].handle in s.locks && s.locks[s.callers[c].handle].None?
  }

  /** `_lock.Lock(cancellationToken)` succeeds and the work item starts. */
  function Acquire(s: State, c: CallerId): (s': State)
    requires Wf(s) && CanAcquire(s, c)
    ensures Wf(s') && s'.storage == s.storage
    ensures s'.callers == s.callers[c := s.callers[c].(phase := Holding)]
    ensures s'.locks == s.locks[s.callers[c].handle := Some(c)]
  {
    s.(locks := s.locks[s.callers[c].handle := Some(c)],
       callers := s.callers[c := s.callers[c].(phase := Holding)])
  }

  /** The caller is waiting with a token that can fire. */
  predicate CanCancel(s: State, c: CallerId) {
    c in s.callers && s.callers[c].Active? && s.callers[c].phase.Waiting? && s.callers[c].token.CanFire()
  }

  /** The token fires before the lock is obtained; the work item never runs. */
  function CancelWait(s: State, c: CallerId): (s': State)
    requires Wf(s) && CanCancel(s, c)
    ensures Wf(s') && s'.storage == s.storage && s'.locks == s.locks
    ensures s'.callers == s.callers[c := s.callers[c].(phase := Leaving(Canceled))]
  {
    s.(callers := s.callers[c := s.callers[c].(phase := Leaving(Canceled))])
  }

  /** The caller holds its lock. */
  predicate CanRelease(s: State, c: CallerId) {
    c in s.callers && s.callers[c].Active? && s.callers[c].phase.Holding?
  }

  /** The work item returns or throws and the `using` block disposes the lock. */
  function Release(s: State, c: CallerId): (s': State)
    requires Wf(s) && CanRelease(s, c)
    ensures Wf(s') && s'.storage == s.storage
    ensures s'.callers == s.callers[c := s.callers[c].(phase := Leaving(Completed(s.callers[c].work)))]
    ensures s'.locks == s.locks[s.callers[c].handle := None]
  {
    s.(locks := s.locks[s.callers[c].handle := None],
       callers := s.callers[c := s.callers[c].(phase := Leaving(Completed(s.callers[c].work)))])
  }

  /** The caller has left the `using` block and has not run its `finally` block. */
  predicate CanExit(s: State, c: CallerId) {
    c in s.callers && s.callers[c].Active? && s.callers[c].phase.Leaving?
  }

  /** The `finally` block: `TryRemove(key)` removes whatever lock is stored under
      the key, whether or not other calls still wait for or hold it. */
  function Exit(s: State, c: CallerId): (s': State)
    requires Wf(s) && CanExit(s, c)
    ensures Wf(s') && s'.locks == s.locks
    ensures s'.callers == s.callers[c := s.callers[c].(phase := Done(s.callers[c].phase.outcome))]
    ensures s.callers[c].key !in s'.storage
    ensures forall k :: k != s.callers[c].key ==> (k in s'.storage <==> k in s.storage)
    ensures forall k :: k in s'.storage ==> s'.storage[k] == s.storage[k]
  {
    var cl := s.callers[c];
    s.(storage := s.storage - {cl.key},
       callers := s.callers[c := cl.(phase := Done(cl.phase.outcome))])
  }

  // ---------------------------------------------------------------------------
  // The transition system
  // ---------------------------------------------------------------------------

  datatype Step =
    | CallStep(c: CallerId, key: Option<string>, work: Option<WorkResult>, wait: Wait)
    | AcquireStep(c: CallerId)
    | CancelStep(c: CallerId)
    | ReleaseStep(c: CallerId)
    | ExitStep(c: CallerId)

  predicate Enabled(s: State, step: Step) {
    match step
    case CallStep(c, _, _, _) => c !in s.callers
    case AcquireStep(c) => CanAcquire(s, c)
    case CancelStep(c) => CanCancel(s, c)
    case ReleaseStep(c) => CanRelease(s, c)
    case ExitStep(c) => CanExit(s, c)
  }

  function Apply(s: State, step: Step): (r: Option<State>)
    requires Wf(s)
    ensures r.Some? <==> Enabled(s, step)
    ensures r.Some? ==> Wf(r.value)
  {
    if !Enabled(s, step) then None
    else
      match step
      case CallStep(c, key, work, wait) => Some(PerformInLock(s, c, key, work, wait))
      case AcquireStep(c) => Some(Acquire(s, c))
      case CancelStep(c) => Some(CancelWait(s, c))
      case ReleaseStep(c) => Some(Release(s, c))
      case ExitStep(c) => Some(Exit(s, c))
  }

  function Run(s: State, steps: seq<Step>): Option<State>
    requires Wf(s)
    decreases |steps|
  {
    if steps == [] then Some(s)
    else
      match Apply(s, steps[0])
      case None => None
      case Some(s1) => Run(s1, steps[1..])
  }

  // ---------------------------------------------------------------------------
  // What still holds: each lock has at most one holder
  // ---------------------------------------------------------------------------

  /** A lock's holder is the holding call that got it, and a holding call is its lock's holder. */
  ghost predicate Inv(s: State) {
    && Wf(s)
    && (forall l :: l in s.locks && s.locks[l].Some? ==>
          var h := s.locks[l].value;
          h in s.callers && Running(s.callers[h]) && s.callers[h].handle == l)
    && (forall c :: c in s.callers && Running(s.callers[c]) ==> s.locks[s.callers[c].handle] == Some(c))
    && (forall c :: c in s.callers ==> OutcomeFaithful(s.callers[c]))
  }

  /** Two running calls that got the same `AsyncLock` are the same call. */
  ghost predicate LockExclusion(s: State) {
    forall c1, c2 ::
      (c1 in s.callers && c2 in s.callers && Running(s.callers[c1]) && Running(s.callers[c2]) &&
       s.callers[c1].handle == s.callers[c2].handle) ==> c1 == c2
  }

  /** At most one call per key is running its work item: what this design fails to keep. */
  ghost predicate MutualExclusion(s: State) {
    forall c1, c2 ::
      (c1 in s.callers && c2 in s.callers && Running(s.callers[c1]) && Running(s.callers[c2]) &&
       s.callers[c1].key == s.callers[c2].key) ==> c1 == c2
  }

  lemma StepPreservesInv(s: State, step: Step)
    requires Inv(s) && Apply(s, step).Some?
    ensures Inv(Apply(s, step).value)
  {
  }

  lemma {:induction false} RunPreservesInv(s: State, steps: seq<Step>)
    requires Inv(s) && Run(s, steps).Some?
    ensures Inv(Run(s, steps).value)
    decreases |steps|
  {
    if steps != [] {
      StepPreservesInv(s, steps[0]);
      RunPreservesInv(Apply(s, steps[0]).value, steps[1..]);
    }
  }

  /** In every reachable state each `AsyncLock` runs at most one work item, and
      a finished call reports its work item's result or a cancellation. */
  lemma ReachableLockExclusion(steps: seq<Step>)
    requires Run(Init, steps).Some?
    ensures Inv(Run(Init, steps).value)
    ensures LockExclusion(Run(Init, steps).value)
  {
    RunPreservesInv(Init, steps);
  }

  // ---------------------------------------------------------------------------
  // The race
  // ---------------------------------------------------------------------------

  /** Call 1 takes key "A"; call 2 arrives and waits on the same lock; call 1
      finishes and its `finally` removes "A"; call 2 takes the old lock; call 3
      arrives, finds no "A", adds a new lock and takes it. */
  const RaceSchedule: seq<Step> := [
    CallStep(1, Some("A"), Some(Returns(None)), NoLimit),
    AcquireStep(1),
    CallStep(2, Some("A"), Some(Returns(None)), NoLimit),
    ReleaseStep(1),
    ExitStep(1),
    AcquireStep(2),
    CallStep(3, Some("A"), Some(Returns(None)), NoLimit),
    AcquireStep(3)
  ]

  /** Running a schedule whose first two steps lead from `s` through `s1` to `s2`. */
  lemma RunTwo(s: State, steps: seq<Step>, s1: State, s2: State)
    requires Wf(s) && |steps| >= 2
    requires Apply(s, steps[0]) == Some(s1) && Apply(s1, steps[1]) == Some(s2)
    ensures Run(s, steps) == Run(s2, steps[2..])
  {
    assert steps[1..][0] == steps[1];
    assert steps[1..][1..] == steps[2..];
  }

  /** The state after two steps: call 1 holds lock 0 for "A". */
  const RaceHeld: State := State(
    map["A" := 0], map[0 := Some(1)],
    map[1 := Active("A", 0, Never, Returns(None), Holding)],
    1)

  /** The state after four steps: call 1 has released the lock and call 2 waits on it. */
  const RaceReleased: State := State(
    map["A" := 0], map[0 := None],
    map[1 := Active("A", 0, Never, Returns(None), Leaving(Completed(Returns(None)))),
        2 := Active("A", 0, Never, Returns(None), Waiting)],
    1)

  /** The state after six steps: "A" is gone from the dictionary while call 2 holds lock 0. */
  const RaceRemoved: State := State(
    map[], map[0 := Some(2)],
    map[1 := Active("A", 0, Never, Returns(None), Done(Completed(Returns(None)))),
        2 := Active("A", 0, Never, Returns(None), Holding)],
    1)

  /** The state the schedule ends in: "A" maps to lock 1, held by call 3, while
      call 2 still holds lock 0. */
  const RaceEnd: State := State(
    map["A" := 1], map[0 := Some(2), 1 := Some(3)],
    map[1 := Active("A", 0, Never, Returns(None), Done(Completed(Returns(None)))),
        2 := Active("A", 0, Never, Returns(None), Holding),
        3 := Active("A", 1, Never, Returns(None), Holding)],
    2)

  lemma RaceSteps01()
    ensures Run(Init, RaceSchedule) == Run(RaceHeld, RaceSchedule[2..])
  {
    var s1 := State(map["A" := 0], map[0 := None], map[1 := Active("A", 0, Never, Returns(None), Waiting)], 1);
    assert s1.locks[0 := Some(1)] == RaceHeld.locks;
    assert s1.callers[1 := s1.callers[1].(phase := Holding)] == RaceHeld.callers;
    RunTwo(Init, RaceSchedule, s1, RaceHeld);
  }

  lemma RaceSteps23()
    ensures Run(RaceHeld, RaceSchedule[2..]) == Run(RaceReleased, RaceSchedule[4..])
  {
    var w := Returns(None);
    var s3 := RaceHeld.(callers := RaceHeld.callers[2 := Active("A", 0, Never, w, Waiting)]);
    assert s3.locks[0 := None] == RaceReleased.locks;
    assert s3.callers[1 := s3.callers[1].(phase := Leaving(Completed(w)))] == RaceReleased.callers;
    RunTwo(RaceHeld, RaceSchedule[2..], s3, RaceReleased);
    assert RaceSchedule[2..][2..] == RaceSchedule[4..];
  }

  lemma RaceSteps45()
    ensures Run(RaceReleased, RaceSchedule[4..]) == Run(RaceRemoved, RaceSchedule[6..])
  {
    var w := Returns(None);
    var s5 := RaceReleased.(storage := map[], callers := RaceReleased.callers[1 := Active("A", 0, Never, w, Done(Completed(w)))]);
    assert RaceReleased.storage - {"A"} == map[];
    assert s5.locks[0 := Some(2)] == RaceRemoved.locks;
    assert s5.callers[2 := s5.callers[2].(phase := Holding)] == RaceRemoved.callers;
    RunTwo(RaceReleased, RaceSchedule[4..], s5, RaceRemoved);
    assert RaceSchedule[4..][2..] == RaceSchedule[6..];
  }

  lemma RaceSteps67()
    ensures Run(RaceRemoved, RaceSchedule[6..]) == Some(RaceEnd)
  {
    var w := Returns(None);
    var s7 := RaceRemoved.(storage := map["A" := 1], locks := RaceRemoved.locks[1 := None], nextLock := 2,
                           callers := RaceRemoved.callers[3 := Active("A", 1, Never, w, Waiting)]);
    assert s7.locks[1 := Some(3)] == RaceEnd.locks;
    assert s7.callers[3 := s7.callers[3].(phase := Holding)] == RaceEnd.callers;
    RunTwo(RaceRemoved, RaceSchedule[6..], s7, RaceEnd);
    assert RaceSchedule[6..][2..] == [];
  }

  /** The schedule runs to completion from a fresh manager and ends with calls 2
      and 3 both running their work items for key "A", on two different locks,
      although each lock on its own still has a single holder. */
  lemma RaceScheduleEnd()
    ensures Run(Init, RaceSchedule) == Some(RaceEnd)
    ensures var s := RaceEnd;
      && Running(s.callers[2]) && Running(s.callers[3])
      && s.callers[2].key == s.callers[3].key == "A"
      && s.callers[2].handle != s.callers[3].handle
      && LockExclusion(s)
      && !MutualExclusion(s)
  {
    RaceSteps01();
    RaceSteps23();
    RaceSteps45();
    RaceSteps67();
    ReachableLockExclusion(RaceSchedule);
  }

  /** Some schedule from a fresh manager reaches a state where two different
      calls for the same key run their work items at once. */
  lemma RaceBreaksMutualExclusion()
    ensures exists steps :: Run(Init, steps).Some? && !MutualExclusion(Run(Init, steps).value)
  {
    RaceScheduleEnd();
    assert Run(Init, RaceSchedule).Some? && !MutualExclusion(Run(Init, RaceSchedule).value);
  }
}
