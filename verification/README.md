# Per-key lock registry of the ABP lock manager, in Dafny

This project models the in-process lock manager of the `Abp.Locking` package.
`PerformInLock(key, action)` and its variants run `action` while holding a lock
that belongs to `key`. Work items for the same key run one at a time, and work
items for different keys run independently. The locks live in a registry that
maps each key to an item. An item holds an `AsyncLock` and a `Counter` of the
calls interested in it. A call increments the counter before it waits. It
decrements the counter on every way out, and the key is removed when the counter
reaches zero.

The project also models the earlier manager in `Abp.DistributedLock`. That one
adds a lock with `GetOrAdd` and removes the key in every call's `finally` block,
keeping no count.

## How the model is built

- `Calls` (`calls.dfy`) holds what both managers share:
  - argument validation;
  - the adapter from `TimeSpan? expireIn` to a cancellation token;
  - the record of one call: key, captured item, effective token, work item and phase.
- A work item is described by what it does when it runs: it returns a value
  (none for `Action` and `Func<Task>`) or throws. All the variants run one
  algorithm: synchronous and `async`, void and `TResult`, and the four method
  bodies per file. So they share one model.
- `LockRegistry` (`lock_registry.dfy`) is the reference-counted manager, a
  transition system over immutable states:
  - `storage` is the dictionary from key to item identity;
  - `entries` holds every item ever allocated, as `{key, counter, holder}`;
  - `callers` maps each call to its record.
- Each write-locked block of `_storageLock` is one atomic step. So are:
  - taking the item's lock;
  - giving up when the token fires;
  - leaving the `using` block.
- A call's phases are:
  - normal path: `Waiting → Holding → Leaving(Completed(result)) → Done`;
  - cancelled path: `Waiting → Leaving(Canceled) → Done`.
- Besides well-formedness, the inductive invariant `Inv` says six things:
  - a stored item has a positive counter and is stored under its own key (`StoredLive`);
  - an admitted call has a non-empty key, and the item it captured was created for that key (`CallersKeyed`);
  - an in-flight call's captured item is the one stored under its key (`InFlightStored`);
  - every item's counter equals the number of in-flight calls registered on it (`CountersExact`);
  - a lock's holder is the holding call on that item (`HoldersConsistent`);
  - a call past its `using` block has its work item's result as outcome, or a cancellation by a token that can fire (`OutcomesFaithful`).

  Every step keeps `Inv`, and it implies mutual exclusion per key, no leak, and
  the meaning of `CheckLockSet`.
- `NaiveRegistry` (`naive_registry.dfy`) is the earlier manager, built from the
  same steps. Each `AsyncLock` still has at most one holder. `RaceSchedule` is a
  schedule from a fresh manager that ends with two calls running work items for
  key `"A"` at the same time.
- `RaceContrast` (`race_contrast.dfy`) replays that schedule against the
  reference-counted manager. There, the third call captures the item the second
  call still holds, and it cannot acquire the lock.

Outside inputs become parameters:
- the scheduler is the order of the steps in a schedule;
- a token firing is the `CancelStep` transition, which is enabled only for a
  token that can fire;
- what the work item does is a value in the call record.

The model cannot use `null`, so `Option` stands for a nullable key or action.

Where the two sources differ from a plain reading of their contract, the model
follows the code:
- `CheckLockSet` does not validate its key. A null key fails inside
  `ConcurrentDictionary.TryGetValue` with `ArgumentNullException`. An empty key
  simply answers `false`.
- `Read()` takes an upgradeable read lock, so `CheckLockSet` is one atomic step.

The `TimeSpan?` overloads of `Abp.DistributedLock/LockManager.cs:25-39`,
`:72-86`, `:119-133` and `:166-181` are the same adapter as in `Abp.Locking`. So are their checks at
`:43-46`. Both are modelled by `Calls.EffectiveToken` and `Calls.Validate`.

## Model

| member | source | states |
|---|---|---|
| Calls.Validate | Abp.Locking/LockManager.cs:60-65 | The key is rejected exactly when it is null or empty, and it is checked first. The action is rejected exactly when the key is fine and the action is null. A call is admitted only with a non-empty key and an action. |
| Calls.EffectiveToken | Abp.Locking/LockManager.cs:101-114 | The resulting token can fire exactly when `expireIn` has a value or the caller passed a cancellable token. A present `expireIn` gives a deadline of exactly that span. A passed token is used unchanged. |
| LockRegistry.CheckLockSet | Abp.Locking/LockManager.cs:17-26 | A null key fails with `ArgumentNullException` naming the key, and only a null key fails. A key with no stored item answers false. |
| LockRegistry.CheckLockSetAsync | Abp.Locking/LockManager.cs:28-32 | Gives the same answer as `CheckLockSet`. |
| LockRegistry.GetOrAdd | Abp.Locking/LockManager.cs:70 | Returns the item already stored for the key. Otherwise it returns a newly allocated item, distinct from every existing one, with counter 0 and a free lock, stored under the key. |
| LockRegistry.Register | Abp.Locking/LockManager.cs:67-72 | Afterwards the key is stored and the caller is waiting on the item stored under it. An existing item's counter goes up by one and the map is unchanged. Otherwise a new item with counter 1 is added under the key. Every other key, item and call is unchanged. |
| LockRegistry.PerformInLock | Abp.Locking/LockManager.cs:60-72 | A null or empty key, or a null action, rejects the call with the right parameter name. The dictionary and the items stay unchanged. Otherwise the call registers with the token resolved from its overload. Other calls are unchanged. |
| LockRegistry.Acquire | Abp.Locking/LockManager.cs:75-77 | Acquiring is possible only while the item's lock is free. The caller becomes its holder. The dictionary, every counter and every other item are unchanged. |
| LockRegistry.CancelWait | Abp.Locking/LockManager.cs:73-81 | A waiting call whose token fires leaves the `using` block as cancelled, without running its work item. The dictionary and items stay unchanged. |
| LockRegistry.Release | Abp.Locking/LockManager.cs:75-79 | Leaving the `using` block frees the item's lock. It records the work item's own result, whether the work item returned or threw. The dictionary, every counter and every other item are unchanged. |
| LockRegistry.Unregister | Abp.Locking/LockManager.cs:80-88 | The captured item's counter goes down by one. The call's key leaves the dictionary exactly when that counter reaches 0. Otherwise the dictionary is unchanged, so the key still maps to the captured item. Every other item is unchanged. |
| LockRegistry.StepPreservesInv | Abp.Locking/LockManager.cs:60-89 | Every atomic step of every call preserves the invariant (exact counters, stored item live and shared, holders consistent, outcomes faithful). |
| LockRegistry.InvImpliesMutualExclusion | Abp.Locking/LockManager.cs:70-78 | Two calls running work items for the same key are the same call. |
| LockRegistry.CounterCountsKeyInterest | Abp.Locking/LockManager.cs:68-87 | A stored item's counter is the number of calls for its key that are between registration and the end of cleanup. |
| LockRegistry.StoredIffInterested | Abp.Locking/LockManager.cs:68-87 | A key is in the dictionary exactly while some call for it is in flight. |
| LockRegistry.CheckLockSetMeaning | Abp.Locking/LockManager.cs:17-32 | In both forms, `CheckLockSet(k)` is true iff `k` is stored, iff some call for `k` is in flight. An empty key is never set. |
| LockRegistry.QuiescentMeansEmpty | Abp.Locking/LockManager.cs:80-88 | No leak: once every call has finished its cleanup, the dictionary is empty. |
| LockRegistry.RegisterInterest | Abp.Locking/LockManager.cs:68-72 | Right after registering, the caller's item is the one stored under its key. Its counter is one more than the calls already in flight for the key, so it is at least 1. |
| LockRegistry.UnregisterTargetsOwnItem | Abp.Locking/LockManager.cs:82-87 | Cleanup is always enabled once a call leaves `using`. The captured item is the one stored under the key, so the by-key `TryRemove` removes the caller's own item. That happens exactly when no other call for the key is in flight. |
| LockRegistry.OutcomeIsWorkResult | Abp.Locking/LockManager.cs:130-145 | A finished call reports its work item's result unchanged, or a cancellation. A cancellation happens only with a token that can fire, so with no deadline, or a null `expireIn`, the result is always the work item's own. |
| LockRegistry.RunPreservesInv | Abp.Locking/LockManager.cs:60-89 | Any schedule of steps, from any state satisfying the invariant, ends in a state satisfying it. |
| LockRegistry.ReachableSafe | Abp.Locking/LockManager.cs:60-89 | Every state reached from a fresh manager satisfies the invariant, has at most one running work item per key, and stores a key exactly while a call for it is in flight. It is empty when no call is in flight. |
| NaiveRegistry.GetOrAdd | Abp.DistributedLock/LockManager.cs:48 | Returns the lock already stored for the key. Otherwise it returns a newly allocated free lock, distinct from every existing one, stored under the key. |
| NaiveRegistry.PerformInLock | Abp.DistributedLock/LockManager.cs:41-48 | Invalid arguments reject the call with the right parameter name and leave storage and locks unchanged. An admitted call waits on the key's stored lock, with storage and locks unchanged. When the key is absent it waits on a new free lock stored under the key, and nothing else changes. Other calls are unchanged. |
| NaiveRegistry.Acquire | Abp.DistributedLock/LockManager.cs:51-53 | The lock must be free. The caller becomes its holder. The dictionary and every other lock are unchanged. |
| NaiveRegistry.CancelWait | Abp.DistributedLock/LockManager.cs:49-59 | A waiting call whose token fires ends as cancelled without running its work item. The dictionary and locks stay unchanged. |
| NaiveRegistry.Release | Abp.DistributedLock/LockManager.cs:51-54 | Leaving `using` frees the lock and records the work item's own result. |
| NaiveRegistry.Exit | Abp.DistributedLock/LockManager.cs:56-59 | After any call's `finally`, its key is absent from the dictionary, even if other calls still wait for or hold the removed lock. Every other key is unchanged. |
| NaiveRegistry.ReachableLockExclusion | Abp.DistributedLock/LockManager.cs:48-59 | In every reachable state, each individual `AsyncLock` runs at most one work item, and finished calls report their work item's result or a cancellation. |
| NaiveRegistry.RaceScheduleEnd | Abp.DistributedLock/LockManager.cs:48-58 | `RaceSchedule` runs from a fresh manager to a state where two calls for `"A"` run work items on two different locks. Each lock still has one holder, but per-key mutual exclusion fails. |
| NaiveRegistry.RaceBreaksMutualExclusion | Abp.DistributedLock/LockManager.cs:56-58 | Some schedule from a fresh manager reaches a state where two different calls for one key run their work items at the same time. |
| RaceContrast.RefcountingPreventsRace | Abp.Locking/LockManager.cs:67-88 | Under reference counting, the same schedule cannot complete. After the first call's cleanup, `"A"` still maps to the item the second call holds. The third call captures that item and must wait. |

## Findings

| source | as written | input that shows it | evidently intended | confidence | as-written member | corrected member |
|---|---|---|---|---|---|---|
| Abp.DistributedLock/LockManager.cs:48-58 | The `finally` block calls `TryRemove(key)` unconditionally, although other calls may still wait for or hold the removed lock. | Call 1 takes `"A"`, then call 2 waits on the same lock. Call 1 finishes and removes `"A"`, and call 2 takes the old lock. Call 3 finds no `"A"`, then adds and takes a new lock. | At most one work item per key runs at a time, which is what the counter in `Abp.Locking/LockManager.cs:67-88` restores. | high; not executed | NaiveRegistry.RaceBreaksMutualExclusion | LockRegistry.ReachableSafe |

## Left out

- `AsyncLock` internals and queue fairness. The lock is a `holder` field, and acquiring is enabled whenever the lock is free.
- Cancellation is enabled whenever a call with a cancellable token is waiting. The real `AsyncLock` grants a free lock without looking at the token, so the model allows more cancellations than the real one. Every property proved here holds for all of them.
- `ReaderWriterLockSlim` and `Abp.DistributedLock/Internal/ReaderWriterLockSlimExtensions.cs`. These are library wrappers. Each `Write()` block and the `Read()` block is one atomic step.
- `CancellationTokenSource` timers and `TimeSpan` arithmetic. A deadline is a token that may fire at any time while the call waits.
- `CancellationTokenSource` argument checks. Its constructor rejects negative spans other than -1 ms and spans that are too large, and -1 ms means no deadline. Spans are natural numbers of milliseconds here.
- `Task`, `async` and `await` machinery, and the thread safety of `ConcurrentDictionary`; the atomic steps subsume both. In the three-argument `async` methods, an argument error is stored in the returned task instead of being thrown synchronously. The model does not distinguish this: awaiting the task rethrows the same `ArgumentNullException`, and the registry is untouched either way.
- The work item runs as one step between `Acquire` and `Release`. What it does meanwhile is not modelled. Mid-work cancellation is its own business.
- `Counter` is modelled as an unbounded integer. The source's 32-bit `int` cannot overflow in practice, because the counter equals the number of in-flight calls.
- The undisposed `CancellationTokenSource` objects. This is a resource leak outside the registry.
- `LockManagerDictionaryItem` is not part of this model's source files. Its two members, `Lock` and `Counter`, are taken from how `LockManager` uses them.
- `Abp.DistributedLock/ILockManager.cs` (signatures only) and `Abp.Locking/LockingModule.cs` (dependency-injection registration).
