/**
 The reference-counted lock registry of `Abp.Locking.LockManager`.

 The registry maps each key to a `LockManagerDictionaryItem` holding an
 `AsyncLock` and a `Counter`. Every change to the map or to a counter happens
 inside a write-locked section of `_storageLock`, so each such section is one
 atomic transition here; taking the item's lock, giving up on it when the token
 fires, and leaving the `using` block are transitions of their own.

 Items are objects on the heap: `entries` holds every item ever allocated under
 its identity, and `storage` is the dictionary from key to item. A caller keeps
 the identity of the item it registered on (`_item`), so "decrement the captured
 item, not a fresh lookup" is what `Unregister` does.
 */
module LockRegistry {
  import opened Calls

  type EntryId = nat

  /** One `LockManagerDictionaryItem`: the key it was created for, its `Counter`,
      and the caller (if any) that currently holds its `AsyncLock`. */
  datatype Entry = Entry(key: string, counter: int, holder: Option<CallerId>)

  datatype State = State(
    storage: map<string, EntryId>,
    entries: map<EntryId, Entry>,
    callers: map<CallerId, Caller>,
    nextEntry: EntryId)

  /** A freshly constructed `LockManager`: an empty dictionary and no calls. */
  const Init: State := State(map[], map[], map[], 0)

  /** Every identity the state mentions denotes an allocated item, and
      `nextEntry` is an identity not yet allocated. */
  predicate Wf(s: State) {
    && (forall k :: k in s.storage ==> s.storage[k] in s.entries)
    && (forall c :: c in s.callers && s.callers[c].Active? ==> s.callers[c].handle in s.entries)
    && (forall e :: e in s.entries ==> e < s.nextEntry)
  }

  // ---------------------------------------------------------------------------
  // Operations
  // ---------------------------------------------------------------------------

  /** `CheckLockSet`: under the read lock, false when no item is stored for the
      key, otherwise whether its counter is positive. A null key makes the
      dictionary lookup throw `ArgumentNullException`; an empty key is not rejected. */
  function CheckLockSet(s: State, key: Option<string>): (r: Result<bool, Param>)
    requires Wf(s)
    ensures r.Failure? <==> key.None?
    ensures r.Failure? ==> r.error == KeyParam
    ensures key.Some? && key.value !in s.storage ==> r == Success(false)
  {
    match key
    case None => Failure(KeyParam)
    case Some(k) => Success(k in s.storage && s.entries[s.storage[k]].counter > 0)
  }

  /** `CheckLockSetAsync` wraps the synchronous answer in a completed task. */
  function CheckLockSetAsync(s: State, key: Option<string>): (r: Result<bool, Param>)
    requires Wf(s)
    ensures r == CheckLockSet(s, key)
  {
    CheckLockSet(s, key)
  }

  /** `_locksStorage.GetOrAdd(key, _ => new LockManagerDictionaryItem { Counter = 0 })`:
      the item already stored for the key, or a newly allocated one with counter 0
      and a free lock, stored under the key. */
  function GetOrAdd(s: State, key: string): (r: (State, EntryId))
    requires Wf(s)
    ensures Wf(r.0) && r.0.callers == s.callers
    ensures key in r.0.storage && r.0.storage[key] == r.1
    ensures key in s.storage ==> r == (s, s.storage[key])
    ensures key !in s.storage ==>
      && r.1 !in s.entries
      && r.0.entries == s.entries[r.1 := Entry(key, 0, None)]
      && r.0.storage == s.storage[key := r.1]
  {
    if key in s.storage then (s, s.storage[key])
    else
      var e := s.nextEntry;
      (s.(storage := s.storage[key := e], entries := s.entries[e := Entry(key, 0, None)], nextEntry := e + 1), e)
  }

  /** The first write-locked block of `PerformInLock`: get or create the key's
      item, increment its counter, and capture it. The caller then waits for the
      item's lock. */
  function Register(s: State, c: CallerId, key: string, token: Token, work: WorkResult): (s': State)
    requires Wf(s) && c !in s.callers
    ensures Wf(s')
    ensures key in s'.storage
    ensures s'.callers == s.callers[c := Active(key, s'.storage[key], token, work, Waiting)]
    ensures key in s.storage ==> s'.storage == s.storage
    ensures key !in s.storage ==>
      && s'.storage[key] !in s.entries
      && s'.storage == s.storage[key := s'.storage[key]]
      && s'.entries == s.entries[s'.storage[key] := Entry(key, 1, None)]
    ensures key in s.storage ==>
      var e := s.storage[key];
      s'.entries == s.entries[e := s.entries[e].(counter := s.entries[e].counter + 1)]
  {
    var (s1, e) := GetOrAdd(s, key);
    var item := s1.entries[e];
    s1.(entries := s1.entries[e := item.(counter := item.counter + 1)],
        callers := s1.callers[c := Active(key, e, token, work, Waiting)])
  }

  /** The three-argument `PerformInLock`/`PerformInLockAsync` up to the point where
      it waits for the lock: validate the arguments (throwing before the registry
      is touched), resolve the effective token, and register. The two-argument and
      `TimeSpan?` overloads reach this with `NoLimit` and `ExpireIn`. */
  function PerformInLock(s: State, c: CallerId, key: Option<string>, work: Option<WorkResult>, wait: Wait): (s': State)
    requires Wf(s) && c !in s.callers
    ensures Wf(s') && c in s'.callers
    ensures s'.callers[c].Rejected? <==> IsNullOrEmpty(key) || work.None?
    ensures s'.callers[c].Rejected? ==>
      && s'.callers[c].param == (if IsNullOrEmpty(key) then KeyParam else ActionParam)
      && s'.storage == s.storage && s'.entries == s.entries
    ensures s'.callers == s.callers[c := s'.callers[c]]
    ensures s'.callers[c].Active? ==>
      s' == Register(s, c, key.value, EffectiveToken(wait), work.value)
  {
    match Validate(key, work)
    case Some(p) => s.(callers := s.callers[c := Rejected(p)])
    case None => Register(s, c, key.value, EffectiveToken(wait), work.value)
  }

  /** The caller is waiting and the lock of its captured item is free. */
  predicate CanAcquire(s: State, c: CallerId) {
    && c in s.callers && s.callers[c].Active? && s.callers[c].phase.Waiting?
    && s.callers[c].handle in s.entries
    && s.entries[s.callers[c].handle].holder.None?
  }

  /** `_item.Lock.Lock(cancellationToken)` succeeds: the caller holds its item's
      lock and starts the work item. The dictionary is not touched. */
  function Acquire(s: State, c: CallerId): (s': State)
    requires Wf(s) && CanAcquire(s, c)
    ensures Wf(s')
    ensures s'.storage == s.storage
    ensures s'.callers == s.callers[c := s.callers[c].(phase := Holding)]
    ensures var h := s.callers[c].handle;
      s'.entries == s.entries[h := s.entries[h].(holder := Some(c))]
  {
    var e := s.callers[c].handle;
    s.(entries := s.entries[e := s.entries[e].(holder := Some(c))],
       callers := s.callers[c := s.callers[c].(phase := Holding)])
  }

  /** The caller is waiting with a token that can fire. */
  predicate CanCancel(s: State, c: CallerId) {
    c in s.callers && s.callers[c].Active? && s.callers[c].phase.Waiting? && s.callers[c].token.CanFire()
  }

  /** The token fires before the lock is obtained: `Lock` throws
      `OperationCanceledException`, the work item never runs, and the call heads
      for its `finally` block. */
  function CancelWait(s: State, c: CallerId): (s': State)
    requires Wf(s) && CanCancel(s, c)
    ensures Wf(s')
    ensures s'.storage == s.storage && s'.entries == s.entries
    ensures s'.callers == s.callers[c := s.callers[c].(phase := Leaving(Canceled))]
  {
    s.(callers := s.callers[c := s.callers[c].(phase := Leaving(Canceled))])
  }

  /** The caller holds its item's lock. */
  predicate CanRelease(s: State, c: CallerId) {
    c in s.callers && s.callers[c].Active? && s.callers[c].phase.Holding? && s.callers[c].handle in s.entries
  }

  /** The work item returns or throws and the `using` block disposes the lock,
      whichever way the work item ended. */
  function Release(s: State, c: CallerId): (s': State)
    requires Wf(s) && CanRelease(s, c)
    ensures Wf(s')
    ensures s'.storage == s.storage
    ensures s'.callers == s.callers[c := s.callers[c].(phase := Leaving(Completed(s.callers[c].work)))]
    ensures var h := s.callers[c].handle;
      s'.entries == s.entries[h := s.entries[h].(holder := None)]
  {
    var e := s.callers[c].handle;
    s.(entries := s.entries[e := s.entries[e].(holder := None)],
       callers := s.callers[c := s.callers[c].(phase := Leaving(Completed(s.callers[c].work)))])
  }

  /** The caller has left the `using` block and has not run its cleanup yet. */
  predicate CanUnregister(s: State, c: CallerId) {
    c in s.callers && s.callers[c].Active? && s.callers[c].phase.Leaving? && s.callers[c].handle in s.entries
  }

  /** The `finally` block's write-locked section: decrement the captured item's
      counter and, when it reaches 0, `TryRemove` the key. The call then returns
      or rethrows its outcome. */
  function Unregister(s: State, c: CallerId): (s': State)
    requires Wf(s) && CanUnregister(s, c)
    ensures Wf(s')
    ensures s'.callers == s.callers[c := s.callers[c].(phase := Done(s.callers[c].phase.outcome))]
    ensures s'.entries.Keys == s.entries.Keys
    ensures s'.entries[s.callers[c].handle].counter == s.entries[s.callers[c].handle].counter - 1
    ensures s.callers[c].key in s'.storage <==>
      s.callers[c].key in s.storage && s'.entries[s.callers[c].handle].counter != 0
    ensures forall k :: k in s.storage && k != s.callers[c].key ==> k in s'.storage && s'.storage[k] == s.storage[k]
    ensures s'.storage.Keys <= s.storage.Keys
    ensures var h := s.callers[c].handle;
      s'.entries == s.entries[h := s.entries[h].(counter := s.entries[h].counter - 1)]
    ensures s'.storage ==
      if s'.entries[s.callers[c].handle].counter == 0 then s.storage - {s.callers[c].key} else s.storage
  {
    var cl := s.callers[c];
    var item := s.entries[cl.handle];
    var item' := item.(counter := item.counter - 1);
    var storage' := if item'.counter == 0 then s.storage - {cl.key} else s.storage;
    s.(storage := storage',
       entries := s.entries[cl.handle := item'],
       callers := s.callers[c := cl.(phase := Done(cl.phase.outcome))])
  }

  // ---------------------------------------------------------------------------
  // The transition system
  // ---------------------------------------------------------------------------

  /** One atomic step of one caller. */
  datatype Step =
    | CallStep(c: CallerId, key: Option<string>, work: Option<WorkResult>, wait: Wait)
    | AcquireStep(c: CallerId)
    | CancelStep(c: CallerId)
    | ReleaseStep(c: CallerId)
    | UnregisterStep(c: CallerId)

  predicate Enabled(s: State, step: Step) {
    match step
    case CallStep(c, _, _, _) => c !in s.callers
    case AcquireStep(c) => CanAcquire(s, c)
    case CancelStep(c) => CanCancel(s, c)
    case ReleaseStep(c) => CanRelease(s, c)
    case UnregisterStep(c) => CanUnregister(s, c)
  }

  /** The state after `step`, or `None` when the step is not enabled. */
  function Apply(s: State, step: Step): (r: Option<State>)
    requires Wf(s)
    ensures r.Some? <==> Enabled(s, step)
    ensures r.Some? ==> Wf(r.value)
  {
    if !Enabled(s, step) then None
    else
      match step
      case CallStep(c, key, work, wait) => Some(PerformInLock(s, c, key, work, wait))
      case AcquireStep(c) => Some(Acquire(s, c))
      case CancelStep(c) => Some(CancelWait(s, c))
      case ReleaseStep(c) => Some(Release(s, c))
      case UnregisterStep(c) => Some(Unregister(s, c))
  }

  /** Runs a schedule from `s`; `None` when some step of it is not enabled. */
  function Run(s: State, steps: seq<Step>): Option<State>
    requires Wf(s)
    decreases |steps|
  {
    if steps == [] then Some(s)
    else
      match Apply(s, steps[0])
      case None => None
      case Some(s1) => Run(s1, steps[1..])
  }

  // ---------------------------------------------------------------------------
  // The inductive invariant
  // ---------------------------------------------------------------------------

  /** The calls registered on item `e` that have not finished their cleanup. */
  ghost function Interested(s: State, e: EntryId): set<CallerId> {
    set c | c in s.callers && InFlight(s.callers[c]) && s.callers[c].handle == e
  }

  /** A stored item belongs to its key and has a positive counter. */
  ghost predicate StoredLive(s: State)
    requires Wf(s)
  {
    forall k :: k in s.storage ==> s.entries[s.storage[k]].key == k && s.entries[s.storage[k]].counter > 0
  }

  /** An admitted call captured an item created for its own, non-empty key. */
  ghost predicate CallersKeyed(s: State)
    requires Wf(s)
  {
    forall c :: c in s.callers && s.callers[c].Active? ==>
      s.callers[c].key != "" && s.entries[s.callers[c].handle].key == s.callers[c].key
  }

  /** While a call is in flight, its captured item is the one stored under its key. */
  ghost predicate InFlightStored(s: State) {
    forall c :: c in s.callers && InFlight(s.callers[c]) ==>
      s.callers[c].key in s.storage && s.storage[s.callers[c].key] == s.callers[c].handle
  }

  /** Every item's counter is the number of in-flight calls registered on it. */
  ghost predicate CountersExact(s: State) {
    forall e :: e in s.entries ==> s.entries[e].counter == |Interested(s, e)|
  }

  /** An item's lock is held exactly by the holding call registered on it. */
  ghost predicate HoldersConsistent(s: State)
    requires Wf(s)
  {
    && (forall e :: e in s.entries && s.entries[e].holder.Some? ==>
          var h := s.entries[e].holder.value;
          h in s.callers && s.callers[h].Active? && s.callers[h].phase.Holding? && s.callers[h].handle == e)
    && (forall c :: c in s.callers && s.callers[c].Active? && s.callers[c].phase.Holding? ==>
          s.entries[s.callers[c].handle].holder == Some(c))
  }

  ghost predicate OutcomesFaithful(s: State) {
    forall c :: c in s.callers ==> OutcomeFaithful(s.callers[c])
  }

  ghost predicate Inv(s: State) {
    && Wf(s)
    && StoredLive(s)
    && CallersKeyed(s)
    && InFlightStored(s)
    && CountersExact(s)
    && HoldersConsistent(s)
    && OutcomesFaithful(s)
  }

  lemma InitInv()
    ensures Inv(Init)
  {
  }

  lemma StepPreservesInv(s: State, step: Step, s': State)
    requires Inv(s) && Apply(s, step) == Some(s')
    ensures Inv(s')
  {
    match step
    case CallStep(c, key, work, wait) =>
      if Validate(key, work).None? {
        RegisterPreservesInv(s, c, key.value, EffectiveToken(wait), work.value);
      } else {
        RejectPreservesInv(s, c, s');
      }
    case AcquireStep(c) => AcquirePreservesInv(s, c);
    case CancelStep(c) => CancelPreservesInv(s, c);
    case ReleaseStep(c) => ReleasePreservesInv(s, c);
    case UnregisterStep(c) => UnregisterPreservesInv(s, c);
  }

  /** Two states with the same in-flight calls, registered on the same items. */
  lemma SameInterest(s: State, s': State)
    requires s'.callers.Keys == s.callers.Keys
    requires forall c :: c in s.callers ==>
      InFlight(s'.callers[c]) == InFlight(s.callers[c]) &&
      (InFlight(s.callers[c]) ==> s'.callers[c].handle == s.callers[c].handle)
    ensures forall e :: Interested(s', e) == Interested(s, e)
  {
  }

  lemma RejectPreservesInv(s: State, c: CallerId, s': State)
    requires Inv(s) && c !in s.callers
    requires c in s'.callers && s'.callers[c].Rejected?
    requires s' == s.(callers := s.callers[c := s'.callers[c]])
    ensures Inv(s')
  {
    forall e | e in s'.entries
      ensures s'.entries[e].counter == |Interested(s', e)|
    {
      assert Interested(s', e) == Interested(s, e);
    }
  }

  lemma RegisterPreservesInv(s: State, c: CallerId, key: string, token: Token, work: WorkResult)
    requires Inv(s) && c !in s.callers && key != ""
    ensures Inv(Register(s, c, key, token, work))
  {
    RegisterKeepsCounters(s, c, key, token, work);
    RegisterKeepsStorage(s, c, key, token, work);
    RegisterKeepsHolders(s, c, key, token, work);
  }

  lemma RegisterKeepsStorage(s: State, c: CallerId, key: string, token: Token, work: WorkResult)
    requires Inv(s) && c !in s.callers && key != ""
    ensures var s' := Register(s, c, key, token, work);
      StoredLive(s') && CallersKeyed(s') && InFlightStored(s') && OutcomesFaithful(s')
  {
  }

  lemma RegisterKeepsHolders(s: State, c: CallerId, key: string, token: Token, work: WorkResult)
    requires Inv(s) && c !in s.callers
    ensures HoldersConsistent(Register(s, c, key, token, work))
  {
  }

  lemma RegisterKeepsCounters(s: State, c: CallerId, key: string, token: Token, work: WorkResult)
    requires Inv(s) && c !in s.callers
    ensures CountersExact(Register(s, c, key, token, work))
  {
    var s' := Register(s, c, key, token, work);
    var e := s'.storage[key];
    assert s'.callers == s.callers[c := Active(key, e, token, work, Waiting)];
    if key !in s.storage {
      assert Interested(s, e) == {} by {
        forall x | x in Interested(s, e) ensures false {
        }
      }
    }
    assert s'.entries[e].counter == |Interested(s, e)| + 1;
    assert Interested(s', e) == Interested(s, e) + {c};
    forall e2 | e2 in s'.entries
      ensures s'.entries[e2].counter == |Interested(s', e2)|
    {
      if e2 != e {
        assert s'.entries[e2] == s.entries[e2];
        assert Interested(s', e2) == Interested(s, e2);
      }
    }
  }

  lemma AcquirePreservesInv(s: State, c: CallerId)
    requires Inv(s) && CanAcquire(s, c)
    ensures Inv(Acquire(s, c))
  {
    var s' := Acquire(s, c);
    SameInterest(s, s');
  }

  lemma CancelPreservesInv(s: State, c: CallerId)
    requires Inv(s) && CanCancel(s, c)
    ensures Inv(CancelWait(s, c))
  {
    var s' := CancelWait(s, c);
    SameInterest(s, s');
  }

  lemma ReleasePreservesInv(s: State, c: CallerId)
    requires Inv(s) && CanRelease(s, c)
    ensures Inv(Release(s, c))
  {
    var s' := Release(s, c);
    SameInterest(s, s');
  }

  lemma UnregisterPreservesInv(s: State, c: CallerId)
    requires Inv(s) && CanUnregister(s, c)
    ensures Inv(Unregister(s, c))
  {
    var s' := Unregister(s, c);
    UnregisterKeepsCounters(s, c);
    UnregisterKeepsStorage(s, c);
    assert CallersKeyed(s');
    assert HoldersConsistent(s');
    assert OutcomesFaithful(s');
  }

  lemma UnregisterKeepsCounters(s: State, c: CallerId)
    requires Inv(s) && CanUnregister(s, c)
    ensures CountersExact(Unregister(s, c))
  {
    var s' := Unregister(s, c);
    var e := s.callers[c].handle;
    assert c in Interested(s, e);
    assert Interested(s', e) == Interested(s, e) - {c};
    forall e2 | e2 in s'.entries
      ensures s'.entries[e2].counter == |Interested(s', e2)|
    {
      if e2 != e {
        assert Interested(s', e2) == Interested(s, e2);
      }
    }
  }

  lemma UnregisterKeepsStorage(s: State, c: CallerId)
    requires Inv(s) && CanUnregister(s, c)
    ensures Wf(Unregister(s, c))
    ensures StoredLive(Unregister(s, c)) && InFlightStored(Unregister(s, c))
  {
    var s' := Unregister(s, c);
    var cl := s.callers[c];
    var e := cl.handle;
    UnregisterKeepsCounters(s, c);
    forall c2 | c2 in s'.callers && InFlight(s'.callers[c2])
      ensures s'.callers[c2].key in s'.storage && s'.storage[s'.callers[c2].key] == s'.callers[c2].handle
    {
      if s'.callers[c2].key == cl.key {
        assert c2 in Interested(s', e);
      }
    }
  }

  // ---------------------------------------------------------------------------
  // What the invariant buys
  // ---------------------------------------------------------------------------

  /** At most one call per key is running its work item. */
  ghost predicate MutualExclusion(s: State) {
    forall c1, c2 ::
      (c1 in s.callers && c2 in s.callers && Running(s.callers[c1]) && Running(s.callers[c2]) &&
       s.callers[c1].key == s.callers[c2].key) ==> c1 == c2
  }

  /** The in-flight calls for key `k`, whichever item they captured. */
  ghost function InterestedIn(s: State, k: string): set<CallerId> {
    set c | c in s.callers && InFlight(s.callers[c]) && s.callers[c].key == k
  }

  /** No call for any key is in flight. */
  ghost predicate Quiescent(s: State) {
    forall c :: c in s.callers ==> !InFlight(s.callers[c])
  }

  /** All in-flight calls on one key share the stored item, whose lock has one holder. */
  lemma InvImpliesMutualExclusion(s: State)
    requires Inv(s)
    ensures MutualExclusion(s)
  {
    forall c1, c2 | c1 in s.callers && c2 in s.callers && Running(s.callers[c1]) && Running(s.callers[c2]) &&
      s.callers[c1].key == s.callers[c2].key
      ensures c1 == c2
    {
      assert InFlight(s.callers[c1]) && InFlight(s.callers[c2]);
      assert s.callers[c1].handle == s.callers[c2].handle;
    }
  }

  /** The stored item's counter is the number of calls for its key that are in flight. */
  lemma CounterCountsKeyInterest(s: State, k: string)
    requires Inv(s) && k in s.storage
    ensures s.entries[s.storage[k]].counter == |InterestedIn(s, k)|
  {
    var e := s.storage[k];
    assert Interested(s, e) == InterestedIn(s, k) by {
      forall x | x in s.callers && InFlight(s.callers[x])
        ensures x in Interested(s, e) <==> x in InterestedIn(s, k)
      {
        assert s.entries[s.callers[x].handle].key == s.callers[x].key;
      }
    }
  }

  /** A key is stored exactly while some call for it is in flight. */
  lemma StoredIffInterested(s: State, k: string)
    requires Inv(s)
    ensures k in s.storage <==> InterestedIn(s, k) != {}
  {
    if k in s.storage {
      CounterCountsKeyInterest(s, k);
    }
  }

  /** `CheckLockSet` is true exactly while some call for the key is in flight,
      which under the invariant is exactly while the key is stored. An empty key
      is never set. */
  lemma CheckLockSetMeaning(s: State, k: string)
    requires Inv(s)
    ensures CheckLockSet(s, Some(k)) == Success(k in s.storage)
    ensures CheckLockSet(s, Some(k)) == Success(InterestedIn(s, k) != {})
    ensures CheckLockSetAsync(s, Some(k)) == CheckLockSet(s, Some(k))
    ensures CheckLockSet(s, Some("")) == Success(false)
  {
    StoredIffInterested(s, k);
    StoredIffInterested(s, "");
  }

  /** No leak: once every call has finished its cleanup, the dictionary is empty. */
  lemma QuiescentMeansEmpty(s: State)
    requires Inv(s) && Quiescent(s)
    ensures s.storage == map[]
  {
    forall k | k in s.storage
      ensures InterestedIn(s, k) != {}
    {
      StoredIffInterested(s, k);
    }
  }

  /** Registration leaves the caller's captured item stored under its key with a
      counter that counts every in-flight call for the key, the new one included. */
  lemma RegisterInterest(s: State, c: CallerId, key: string, token: Token, work: WorkResult)
    requires Inv(s) && c !in s.callers && key != ""
    ensures var s' := Register(s, c, key, token, work);
      && Inv(s')
      && s'.storage[key] == s'.callers[c].handle
      && s'.entries[s'.callers[c].handle].counter == |InterestedIn(s, key)| + 1 >= 1
  {
    var s' := Register(s, c, key, token, work);
    RegisterPreservesInv(s, c, key, token, work);
    CounterCountsKeyInterest(s', key);
    RegisterAddsInterest(s, c, key, token, work);
  }

  lemma RegisterAddsInterest(s: State, c: CallerId, key: string, token: Token, work: WorkResult)
    requires Wf(s) && c !in s.callers
    ensures InterestedIn(Register(s, c, key, token, work), key) == InterestedIn(s, key) + {c}
  {
    var s' := Register(s, c, key, token, work);
    assert s'.callers == s.callers[c := Active(key, s'.storage[key], token, work, Waiting)];
  }

  /** The cleanup of a call that has left its `using` block is always possible,
      decrements the item the call captured, and that item is the one stored
      under its key, so the by-key `TryRemove` removes the caller's own item and
      only when no other call for the key is still in flight. */
  lemma UnregisterTargetsOwnItem(s: State, c: CallerId)
    requires Inv(s) && c in s.callers && s.callers[c].Active? && s.callers[c].phase.Leaving?
    ensures CanUnregister(s, c)
    ensures s.storage[s.callers[c].key] == s.callers[c].handle
    ensures var s' := Unregister(s, c);
      s.callers[c].key !in s'.storage <==> InterestedIn(s, s.callers[c].key) == {c}
  {
    var k := s.callers[c].key;
    CounterCountsKeyInterest(s, k);
    assert c in InterestedIn(s, k);
    if InterestedIn(s, k) != {c} {
      var x :| x in InterestedIn(s, k) && x != c;
      assert {c, x} <= InterestedIn(s, k);
      assert |{c, x}| == 2;
      SubsetCard({c, x}, InterestedIn(s, k));
    }
  }

  lemma SubsetCard<T>(a: set<T>, b: set<T>)
    requires a <= b
    ensures |a| <= |b|
  {
    assert b == a + (b - a);
  }

  /** A call that has finished reports its work item's own result, or a
      cancellation, and a cancellation only when its effective token could fire:
      a call with no deadline, or with a null `expireIn`, returns or rethrows
      exactly what its work item did. */
  lemma OutcomeIsWorkResult(s: State, c: CallerId)
    requires Inv(s) && c in s.callers && s.callers[c].Active? && s.callers[c].phase.Done?
    ensures s.callers[c].phase.outcome == Completed(s.callers[c].work) ||
            (s.callers[c].phase.outcome == Canceled && s.callers[c].token.CanFire())
    ensures !s.callers[c].token.CanFire() ==> s.callers[c].phase.outcome == Completed(s.callers[c].work)
  {
    assert OutcomeFaithful(s.callers[c]);
  }

  // ---------------------------------------------------------------------------
  // Reachable states
  // ---------------------------------------------------------------------------

  lemma {:induction false} RunPreservesInv(s: State, steps: seq<Step>)
    requires Inv(s) && Run(s, steps).Some?
    ensures Inv(Run(s, steps).value)
    decreases |steps|
  {
    if steps != [] {
      var s1 := Apply(s, steps[0]).value;
      StepPreservesInv(s, steps[0], s1);
      RunPreservesInv(s1, steps[1..]);
    }
  }

  /** Every state some schedule reaches from a fresh manager keeps one call per
      key in its work item, and a key is stored exactly while a call for it is in flight. */
  lemma ReachableSafe(steps: seq<Step>)
    requires Run(Init, steps).Some?
    ensures var s := Run(Init, steps).value;
      && Inv(s)
      && MutualExclusion(s)
      && (forall k :: k in s.storage <==> InterestedIn(s, k) != {})
      && (Quiescent(s) ==> s.storage == map[])
  {
    var s := Run(Init, steps).value;
    InitInv();
    RunPreservesInv(Init, steps);
    InvImpliesMutualExclusion(s);
    forall k
      ensures k in s.storage <==> InterestedIn(s, k) != {}
    {
      StoredIffInterested(s, k);
    }
    if Quiescent(s) {
      QuiescentMeansEmpty(s);
    }
  }
}
