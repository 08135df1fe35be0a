/** The manager's lock-and-dispatch protocol: on a cache miss, take the
    key's lock and run the executor, or hand the call to the configured
    locked-key retrieve strategy when another caller holds the lock. */
module Managers {
  import opened Outcomes
  import opened StorageContract
  import opened Registry

  /** One call the manager makes while serving a request, in order. */
  datatype Step =
    | Lock(key: Key)                 // storage.lockKey(key)
    | Execute                        // runExecutor(context.executor)
    | Delegate(strategy: Strategy)   // strategy.get(context)
    | Write(key: Key, value: Value)  // this.set(key, result, options)
    | Release(key: Key)              // storage.releaseKey(key)
    | Delete(key: Key)               // storage.del(key)

  /** How each call the manager cannot see into settles during one request. */
  datatype Oracle = Oracle(
    lock: Settlement,                         // storage.lockKey
    executor: Outcome<Value>,                 // what the executor settles to
    write: Settlement,                        // the write-through this.set
    release: Settlement,                      // storage.releaseKey
    strategyGet: Strategy -> Outcome<Value>)  // what a strategy's get settles to

  /** What a request settles to, the store afterwards, and the calls it made. */
  datatype Reply = Reply(result: Outcome<Value>, state: StoreState, steps: seq<Step>)

  /** The request takes the key's lock: the strategy resolves, lockKey
      resolves, and it returns true. */
  predicate Won(registry: map<string, Strategy>, strategyName: Option<string>, key: Key, st: StoreState, w: Oracle)
  {
    GetLockedKeyRetrieveStrategy(registry, strategyName).Ok? && w.lock.Resolves? && key !in st.locked
  }

  predicate NoWrites(steps: seq<Step>)
  {
    forall s :: s in steps ==> !s.Write?
  }

  predicate NoReleases(steps: seq<Step>)
  {
    forall s :: s in steps ==> !s.Release?
  }

  /** `try { result := runExecutor(); await this.set(key, result) } finally
      { await releaseKey(key) }`, once the lock is held. A rejected release
      replaces whatever the block settled to. */
  function Holding(key: Key, st: StoreState, w: Oracle): (r: Reply)
    ensures |r.steps| >= 2 && r.steps[0] == Execute && r.steps[|r.steps| - 1] == Release(key)
  {
    var (body, written, steps) :=
      match w.executor
      case Fail(e) => (Fail(e), st, [Execute])
      case Ok(v) =>
        var (ok, st') := Put(st, key, v, w.write);
        (if ok then Ok(v) else Fail(StorageFailure(SetCall)), st', [Execute, Write(key, v)]);
    var (released, st'') := Unlock(written, key, w.release);
    Reply(if released then body else Fail(StorageFailure(ReleaseKeyCall)), st'', steps + [Release(key)])
  }

  /** `updateCacheAndGetResult(context, options)`: resolve the strategy,
      then call lockKey and take one of its three branches. */
  function Protocol(registry: map<string, Strategy>, strategyName: Option<string>, key: Key, st: StoreState, w: Oracle): (p: Reply)
    ensures p.steps != [] ==> p.steps[0] == Lock(key)
  {
    match GetLockedKeyRetrieveStrategy(registry, strategyName)
    case Fail(e) => Reply(Fail(e), st, [])
    case Ok(strategy) =>
      var (reply, st') := TryLock(st, key, w.lock);
      match reply
      case LockThrew => Reply(w.executor, st', [Lock(key), Execute])
      case HeldElsewhere => Reply(w.strategyGet(strategy), st', [Lock(key), Delegate(strategy)])
      case Acquired =>
        var held := Holding(key, st', w);
        held.(steps := [Lock(key)] + held.steps)
  }

  /** For every input: the request calls nothing when the strategy is unknown,
      releases the key exactly once when it took the lock and never
      otherwise, writes only when it took the lock, touches no other key, and
      leaves the lock set as it found it except in two cases: a rejected
      lockKey that had taken the lock, or its own release rejected before
      taking effect. */
  lemma ProtocolInvariants(registry: map<string, Strategy>, strategyName: Option<string>, key: Key, st: StoreState, w: Oracle)
    ensures var p := Protocol(registry, strategyName, key, st, w);
      && (p.steps == [] <==> GetLockedKeyRetrieveStrategy(registry, strategyName).Fail?)
      && multiset(p.steps)[Release(key)] == (if Won(registry, strategyName, key, st, w) then 1 else 0)
      && (!Won(registry, strategyName, key, st, w) ==> NoWrites(p.steps) && NoReleases(p.steps) && p.state.records == st.records)
      && p.state.records - {key} == st.records - {key}
      && (p.state.locked == st.locked
          || (key !in st.locked && p.state.locked == st.locked + {key}
              && ((GetLockedKeyRetrieveStrategy(registry, strategyName).Ok? && w.lock.RejectsAfterEffect?)
                  || (Won(registry, strategyName, key, st, w) && w.release.RejectsBeforeEffect?))))
  {
    var p := Protocol(registry, strategyName, key, st, w);
    if Won(registry, strategyName, key, st, w) {
      var locked := TryLock(st, key, w.lock).1;
      assert locked == st.(locked := st.locked + {key});
      if w.executor.Ok? {
        assert p.steps == [Lock(key), Execute, Write(key, w.executor.value), Release(key)];
      } else {
        assert p.steps == [Lock(key), Execute, Release(key)];
      }
      assert st.locked + {key} - {key} == st.locked;
    }
  }

  /** The strategy is resolved before the lock is touched: an unknown name
      rejects with no storage call, no executor run and no change to the store. */
  lemma UnknownStrategyFailsFirst(registry: map<string, Strategy>, strategyName: Option<string>, key: Key, st: StoreState, w: Oracle)
    requires StrategyName(strategyName) !in registry
    ensures var p := Protocol(registry, strategyName, key, st, w);
      p.result == Fail(StrategyNotFound(StrategyName(strategyName))) && p.state == st && p.steps == []
  {
  }

  /** A rejected lockKey runs the executor directly and settles to its
      outcome, with no write and no release. If the rejected call had taken
      the lock, the manager leaves it held. */
  lemma LockErrorRunsExecutor(registry: map<string, Strategy>, strategyName: Option<string>, key: Key, st: StoreState, w: Oracle)
    requires StrategyName(strategyName) in registry && w.lock.Rejects()
    ensures var p := Protocol(registry, strategyName, key, st, w);
      && p.result == w.executor
      && p.steps == [Lock(key), Execute]
      && p.state.records == st.records
      && p.state.locked == (if w.lock.Applies() then st.locked + {key} else st.locked)
      && (w.lock.RejectsAfterEffect? ==> key in p.state.locked)
  {
  }

  /** A lock held elsewhere hands the request to the chosen strategy: the
      result is exactly its answer, and the manager neither writes, releases
      nor runs the executor. */
  lemma LosingBranchDelegates(registry: map<string, Strategy>, strategyName: Option<string>, key: Key, st: StoreState, w: Oracle)
    requires StrategyName(strategyName) in registry && w.lock.Resolves? && key in st.locked
    ensures var p := Protocol(registry, strategyName, key, st, w);
      && p.result == w.strategyGet(registry[StrategyName(strategyName)])
      && p.state == st
      && NoWrites(p.steps) && NoReleases(p.steps) && Execute !in p.steps
  {
  }

  /** Having taken the lock, the request releases it exactly once, as its
      last call, after the executor and the write, on every exit path. */
  lemma WinnerReleasesLast(registry: map<string, Strategy>, strategyName: Option<string>, key: Key, st: StoreState, w: Oracle)
    requires Won(registry, strategyName, key, st, w)
    ensures var p := Protocol(registry, strategyName, key, st, w);
      && |p.steps| >= 3
      && p.steps[0] == Lock(key)
      && p.steps[1] == Execute
      && p.steps[|p.steps| - 1] == Release(key)
      && multiset(p.steps)[Release(key)] == 1
      && multiset(p.steps)[Execute] == 1
  {
  }

  /** Having taken the lock, the request writes only a successful executor
      result, returns exactly that result, and lets every failure through. */
  lemma WinnerWritesExecutorResult(registry: map<string, Strategy>, strategyName: Option<string>, key: Key, st: StoreState, w: Oracle)
    requires Won(registry, strategyName, key, st, w)
    ensures var p := Protocol(registry, strategyName, key, st, w);
      && (NoWrites(p.steps) <==> w.executor.Fail?)
      && (w.executor.Ok? ==> multiset(p.steps)[Write(key, w.executor.value)] == 1)
      && (p.result.Ok? ==> p.result == w.executor && key in p.state.records
                           && p.state.records[key] == w.executor.value && key !in p.state.locked)
      && (w.executor.Fail? ==> p.result.Fail? && p.state.records == st.records)
      && (w.release.Resolves? && w.executor.Fail? ==> p.result == w.executor)
      && (w.release.Resolves? && w.executor.Ok? && w.write.Rejects() ==> p.result == Fail(StorageFailure(SetCall)))
      && (w.release.Resolves? && w.executor.Ok? && w.write.Resolves? ==> p.result == w.executor)
  {
    var p := Protocol(registry, strategyName, key, st, w);
    if w.executor.Ok? {
      assert p.steps[2] == Write(key, w.executor.value);
    }
  }

  /** A rejected release replaces the outcome, even a successful one; the key
      stays locked exactly when the rejected release did not take effect. */
  lemma ReleaseFailureSurfaces(registry: map<string, Strategy>, strategyName: Option<string>, key: Key, st: StoreState, w: Oracle)
    requires Won(registry, strategyName, key, st, w) && w.release.Rejects()
    ensures var p := Protocol(registry, strategyName, key, st, w);
      && p.result == Fail(StorageFailure(ReleaseKeyCall))
      && (key in p.state.locked <==> w.release.RejectsBeforeEffect?)
  {
  }

  /** The cache manager: a store shared with other processes, and the
      strategy registry it filled at construction and only reads afterwards. */
  class Manager {
    const storage: Storage
    var lockedKeyRetrieveStrategies: map<string, Strategy>

    /** The calls this manager has made, oldest first. */
    ghost var history: seq<Step>

    /** Registers the built-ins, then applies the caller's pairs in order
        when a list is given. */
    constructor (storage: Storage, supplied: Option<seq<Registration>>)
      ensures this.storage == storage
      ensures lockedKeyRetrieveStrategies == Register(BuiltIns(), supplied.GetOr([]))
      ensures history == []
    {
      this.storage := storage;
      lockedKeyRetrieveStrategies := BuiltIns();
      history := [];
      new;
      if supplied.Some? {
        var pairs := supplied.value;
        for i := 0 to |pairs|
          invariant lockedKeyRetrieveStrategies == Register(BuiltIns(), pairs[..i])
          invariant history == []
        {
          var (name, strategy) := pairs[i];
          assert pairs[..i + 1][..i] == pairs[..i];
          lockedKeyRetrieveStrategies := lockedKeyRetrieveStrategies[name := strategy];
        }
        assert pairs[..|pairs|] == pairs;
      }
    }

    /** `del(key)`: settles to storage's answer and makes no other call. */
    method Del(key: Key, how: Settlement) returns (r: Outcome<bool>)
      modifies storage, this`history
      ensures (r, storage.Current()) == Remove(old(storage.Current()), key, how)
      ensures history == old(history) + [Delete(key)]
    {
      history := history + [Delete(key)];
      r := storage.Del(key, how);
    }

    /** `updateCacheAndGetResult(context, options)` for `context.key == key`
        and `options.lockedKeyRetrieveStrategyType == strategyName`. */
    method UpdateCacheAndGetResult(key: Key, strategyName: Option<string>, w: Oracle) returns (r: Outcome<Value>)
      modifies storage, this`history
      ensures var p := Protocol(lockedKeyRetrieveStrategies, strategyName, key, old(storage.Current()), w);
        r == p.result && storage.Current() == p.state && history == old(history) + p.steps
    {
      ghost var st := storage.Current();
      var found := GetLockedKeyRetrieveStrategy(lockedKeyRetrieveStrategies, strategyName);
      if found.Fail? {
        return Fail(found.error);
      }
      var strategy := found.value;

      history := history + [Lock(key)];
      var reply := storage.LockKey(key, w.lock);
      if reply == LockThrew {
        history := history + [Execute];
        return w.executor;
      }
      var isKeySuccessfullyLocked := reply == Acquired;
      if !isKeySuccessfullyLocked {
        history := history + [Delegate(strategy)];
        return w.strategyGet(strategy);
      }

      assert storage.Current() == TryLock(st, key, w.lock).1;
      history := history + [Execute];
      var outcome := w.executor;
      if outcome.Ok? {
        history := history + [Write(key, outcome.value)];
        var written := storage.Set(key, outcome.value, w.write);
        if !written {
          outcome := Fail(StorageFailure(SetCall));
        }
      }
      history := history + [Release(key)];
      var released := storage.ReleaseKey(key, w.release);
      if !released {
        outcome := Fail(StorageFailure(ReleaseKeyCall));
      }
      r := outcome;
    }
  }
}
