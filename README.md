# Lock-and-dispatch core of the cachalot cache manager

This project models `BaseManager`, the part of the cachalot cache layer that
prevents cache stampedes. When a read misses, the manager first resolves a
named "locked-key retrieve strategy", then asks storage for the key's lock.
What happens next depends on the answer:

- If `lockKey` rejects, the manager runs the executor directly.
- If another caller holds the lock, the manager hands the request to the
  strategy.
- If the manager takes the lock, it runs the executor and writes the result
  through. It releases the key in a `finally` block.

The model also covers the strategy registry that the constructor builds and
the `del` pass-through.

Files:

- `outcomes.dfy` (module `Outcomes`): how a promise settles (`Outcome`), the
  errors that can surface, and `Option` for an absent argument.
- `storage.dfy` (module `StorageContract`): the storage adapter seen through
  its contract. `StoreState` holds records by key and the set of locked keys.
  The pure transitions are `TryLock`, `Put`, `Unlock` and `Remove`. The class
  `Storage` changes its fields in place, and each of its methods is proved
  against the matching transition.
- `registry.dfy` (module `Registry`): the strategies, the two built-in names,
  the in-order registration fold `Register`, and the lookup
  `GetLockedKeyRetrieveStrategy`.
- `manager.dfy` (module `Managers`):
  - `Protocol` is the specification of `updateCacheAndGetResult`. It gives the
    settled result, the store afterwards, and the ordered log of calls (`Step`).
  - The class `Manager` holds the registry. It keeps a ghost `history` of the
    calls it made.
  - Its constructor runs the registration loop.
  - `Del` and `UpdateCacheAndGetResult` are proved against `StorageContract.Remove`
    and `Protocol`.

Everything the manager cannot see into is a parameter. An `Oracle` says:

- how `lockKey` settles;
- what the executor settles to;
- how the write-through settles;
- how `releaseKey` settles;
- what each strategy's `get(context)` settles to.

A storage call either resolves or rejects, and a rejected call may or may not
have taken effect in the store (a timeout after the store acted, say). When
`lockKey` resolves, whether it returns true or false follows from the
locked-key set. Each `await` is one ordinary sequential step.

Three consequences of the code's error handling are worth stating:

- A failed release is not caught. The `await releaseKey` in `finally`
  (src/managers/BaseManager.ts:87-89) replaces the request's outcome, even a
  successful one. `Managers.ReleaseFailureSurfaces` states this.
- A rejected `lockKey` is handled by running the executor, and the catch path
  never releases the key (src/managers/BaseManager.ts:66-74). If the rejected
  call had in fact taken the lock, the key stays locked.
  `Managers.LockErrorRunsExecutor` states this.
- A rejected write-through on the winning branch reaches the caller
  (src/managers/BaseManager.ts:84), after the release.

## Model

| member | source | states |
|---|---|---|
| `Registry.Register` | src/managers/BaseManager.ts:22-38 | after construction the registry's names are exactly the two built-ins plus every name a caller pair registers |
| `Registry.RegisterLastWins` | src/managers/BaseManager.ts:34-37 | pairs are applied in array order with `Map.set`: a name maps to the strategy of the last pair that registers it, built-in names included; a name no pair registers keeps its earlier entry |
| `Registry.GetLockedKeyRetrieveStrategy` | src/managers/BaseManager.ts:92-102 | lookup succeeds iff the name (default `runExecutor`) is registered, then returns that entry unchanged; a miss rejects with StrategyNotFound for that name and never falls back to a default |
| `Registry.DefaultStrategyAfterConstruction` | src/managers/BaseManager.ts:92-95 | after construction the default lookup returns the `runExecutor` entry: the built-in unless a caller pair overrode that name, then the last such pair's strategy; `waitForResult` is always found |
| `Registry.LookupAfterConstruction` | src/managers/BaseManager.ts:95-101 | after construction a name is found iff it is built in or some pair registers it; an unregistered name rejects; a registered one yields its last pair's strategy |
| `Managers.Manager.constructor` | src/managers/BaseManager.ts:19-38 | the registry field equals the built-ins with the supplied pairs applied in order, or the built-ins alone when no list is given; the call log starts empty |
| `Managers.Manager.Del` | src/managers/BaseManager.ts:51-53 | `del` settles to storage's `del` answer unchanged, changes only what storage's `del` changes, and logs that one call |
| `Managers.Manager.UpdateCacheAndGetResult` | src/managers/BaseManager.ts:55-90 | the settled result, the store afterwards and the calls appended to the log are those of `Protocol` for the store as it was |
| `Managers.Holding` | src/managers/BaseManager.ts:80-89 | the winning branch's `try`/`finally`: its own contract states only that the executor runs first and `releaseKey(key)` is the last call; its further properties are stated by the lemmas below it |
| `Managers.Protocol` | src/managers/BaseManager.ts:55-90 | the specification of `updateCacheAndGetResult`: its own contract states only that every call it makes comes after `lockKey(key)`; its properties are stated by the lemmas that follow it |
| `Managers.ProtocolInvariants` | src/managers/BaseManager.ts:55-90 | for every input: no call at all iff the strategy is unknown; `releaseKey(key)` is called exactly once if the lock was taken and never otherwise; without the lock there is no write and no release and the records are unchanged; no other key's record changes; the lock set ends as it started except when a rejected `lockKey` had taken the lock or the request's own release rejected before taking effect, and then only the key is added |
| `Managers.UnknownStrategyFailsFirst` | src/managers/BaseManager.ts:59-65 | an unknown strategy name rejects with StrategyNotFound before `lockKey`: no storage call, no executor run, store unchanged |
| `Managers.LockErrorRunsExecutor` | src/managers/BaseManager.ts:64-74 | if `lockKey` rejects, the result is the executor's outcome, the only calls are the lock attempt and one executor run, the records are unchanged, and a lock the rejected call took is never released by the manager |
| `Managers.LosingBranchDelegates` | src/managers/BaseManager.ts:76-78 | if the lock is held elsewhere, the result is exactly the chosen strategy's `get(context)` answer; the manager neither writes, releases nor runs the executor |
| `Managers.WinnerReleasesLast` | src/managers/BaseManager.ts:80-89 | after taking the lock, the executor runs once, and `releaseKey(key)` is called exactly once as the last call, after the executor and the write, on every exit path |
| `Managers.WinnerWritesExecutorResult` | src/managers/BaseManager.ts:80-89 | after taking the lock: a write happens iff the executor succeeds, and then writes exactly its result once; a successful result equals the executor's, which is then stored under the key with the key unlocked; executor and write failures reach the caller |
| `Managers.ReleaseFailureSurfaces` | src/managers/BaseManager.ts:87-89 | a rejected `releaseKey` replaces the request's outcome, even a successful one; the key stays locked exactly when the rejected release did not take effect |
| `StorageContract.LockIsExclusive` | src/managers/BaseManager.ts:65 | right after `lockKey` returned true, the next `lockKey` on the key does not return true; after a release it can be taken again |
| `StorageContract.LockSurvivesOtherCalls` | src/managers/BaseManager.ts:65 | a held lock survives every call but its own release: no `lockKey` on it returns true, and no lock, write or delete of any key and no release of another key frees it, however the call settles |
| `StorageContract.UnlockUndoesTryLock` | src/managers/BaseManager.ts:88 | releasing a lock just taken restores the store; releasing twice is the same as releasing once |
| `StorageContract.RemoveReportsPresence` | src/managers/BaseManager.ts:52 | `del` resolves to whether the key had a record, removes it, and changes nothing else |
| `StorageContract.Storage.LockKey` | src/managers/BaseManager.ts:65 | the storage object's fields change as `TryLock` says, and the reply is `TryLock`'s |
| `StorageContract.Storage.Set` | src/managers/BaseManager.ts:84 | the record write of the manager's write-through `set`: the storage object's fields change as `Put` says, and the result is `Put`'s |
| `StorageContract.Storage.ReleaseKey` | src/managers/BaseManager.ts:88 | the storage object's fields change as `Unlock` says, and the result is `Unlock`'s |
| `StorageContract.Storage.Del` | src/managers/BaseManager.ts:52 | the storage object's fields change as `Remove` says, and the result is `Remove`'s |

## Left out

- `get` and `set` of the concrete managers (the write-through manager) are not part of this model. Their freshness check (expiry against the clock, tag versions) and the way they build a record are therefore absent. The write-through step is one abstract write of the executor's result under the key.
- The strategy implementations (`WaitForResult` polling, `RunExecutor`) and the `runExecutor` helper are not part of this model. Each is the answer an `Oracle` gives.
- Real concurrency, lock expiry (TTL) and cross-process mutual exclusion belong to the storage adapter. The lock is an abstract set of keys, and one request runs as one sequential call.
- The logger calls (src/managers/BaseManager.ts:67-71, 81) have no effect on behaviour.
- The binding of `keyIsLocked` and `get` to the manager when the built-in strategy is constructed (src/managers/BaseManager.ts:26-27) is a JavaScript `this` detail. Only the strategy's identity is modelled.
- `prefix`, `hashKeys` and `refreshAheadFactor` are declared in the options (src/managers/BaseManager.ts:10-14) but not used by this code.
- `LockedKeyRetrieveStrategyTypes` is not part of this model. Its two identifiers are taken to be `"waitForResult"` and `"runExecutor"`.
- Executor results are modelled as strings, the serialised payload. The generic result type `R` and undefined values are not modelled.
- A strategy registered as a falsy JavaScript value would make the lookup throw although the name is present. The declared types exclude this, so the model does not represent it.
- Managers.Manager.UpdateCacheAndGetResult: a rejected write-through is one settlement of one abstract write; a `set` that fails part way (tag versions fetched, record not stored) is not distinguished. The executor is one outcome per request. A strategy that itself runs the executor does so inside its own `Oracle` answer. The manager's log records that call as a single `Delegate` step.
