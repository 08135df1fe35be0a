/** The storage adapter as the manager sees it: records by key and a set of
    locked keys. The adapter's own code is not part of this model; each
    operation is stated by the contract a conforming adapter keeps, and how
    a call settles (resolves, or rejects before or after taking effect) is a
    parameter. */
module StorageContract {
  import opened Outcomes

  type Key = string

  /** A record's payload, in the serialised form the write-through step stores. */
  type Value = string

  datatype StoreState = StoreState(records: map<Key, Value>, locked: set<Key>)

  /** How a storage call settles. A call that rejects (a timeout, a lost
      connection) may or may not have taken effect in the store. */
  datatype Settlement = Resolves | RejectsBeforeEffect | RejectsAfterEffect {
    predicate Rejects() { !Resolves? }
    predicate Applies() { !RejectsBeforeEffect? }
  }

  /** How a call to `lockKey` settles: rejected, true, or false. */
  datatype LockReply = LockThrew | Acquired | HeldElsewhere

  /** `lockKey(key)`: true iff this call took the lock. */
  function TryLock(st: StoreState, key: Key, how: Settlement): (LockReply, StoreState)
  {
    var after := if how.Applies() && key !in st.locked then st.(locked := st.locked + {key}) else st;
    if how.Rejects() then (LockThrew, after)
    else if key in st.locked then (HeldElsewhere, after)
    else (Acquired, after)
  }

  /** The write of a record for `key`; true iff the write resolved. */
  function Put(st: StoreState, key: Key, value: Value, how: Settlement): (bool, StoreState)
  {
    (how.Resolves?, if how.Applies() then st.(records := st.records[key := value]) else st)
  }

  /** `releaseKey(key)`: releasing a key that is not locked is not an error. */
  function Unlock(st: StoreState, key: Key, how: Settlement): (bool, StoreState)
  {
    (how.Resolves?, if how.Applies() then st.(locked := st.locked - {key}) else st)
  }

  /** `del(key)`: resolves to whether a record existed. */
  function Remove(st: StoreState, key: Key, how: Settlement): (Outcome<bool>, StoreState)
  {
    var after := if how.Applies() then st.(records := st.records - {key}) else st;
    if how.Rejects() then (Fail(StorageFailure(DelCall)), after)
    else (Ok(key in st.records), after)
  }

  /** Mutual exclusion: once `lockKey` has returned true for a key, no later
      `lockKey` for it returns true until the key is released. */
  lemma LockIsExclusive(st: StoreState, key: Key, first: Settlement, second: Settlement)
    requires TryLock(st, key, first).0 == Acquired
    ensures TryLock(TryLock(st, key, first).1, key, second).0 != Acquired
    ensures TryLock(Unlock(TryLock(st, key, first).1, key, Resolves).1, key, Resolves).0 == Acquired
  {
  }

  /** A held lock survives every call but its own release: no `lockKey` on it
      returns true, and no lock, write, delete or release of another key
      frees it. */
  lemma LockSurvivesOtherCalls(st: StoreState, key: Key, k: Key, v: Value, how: Settlement)
    requires key in st.locked
    ensures TryLock(st, key, how).0 != Acquired
    ensures key in TryLock(st, k, how).1.locked
    ensures key in Put(st, k, v, how).1.locked
    ensures key in Remove(st, k, how).1.locked
    ensures k != key ==> key in Unlock(st, k, how).1.locked
  {
  }

  /** Release is idempotent, and a lock taken and released leaves the lock set as it was. */
  lemma UnlockUndoesTryLock(st: StoreState, key: Key)
    requires TryLock(st, key, Resolves).0 == Acquired
    ensures Unlock(TryLock(st, key, Resolves).1, key, Resolves).1 == st
    ensures Unlock(Unlock(st, key, Resolves).1, key, Resolves) == Unlock(st, key, Resolves)
  {
    assert st.locked - {key} - {key} == st.locked - {key};
  }

  /** `del` reports exactly whether the key had a record, and afterwards it has none. */
  lemma RemoveReportsPresence(st: StoreState, key: Key)
    ensures Remove(st, key, Resolves).0 == Ok(key in st.records)
    ensures key !in Remove(st, key, Resolves).1.records
    ensures Remove(st, key, Resolves).1.records - {key} == st.records - {key}
    ensures Remove(st, key, Resolves).1.locked == st.locked
  {
  }

  /** The shared store. Its fields are changed in place by each call. */
  class Storage {
    var records: map<Key, Value>
    var locked: set<Key>

    function Current(): StoreState
      reads this
    {
      StoreState(records, locked)
    }

    method LockKey(key: Key, how: Settlement) returns (reply: LockReply)
      modifies this
      ensures (reply, Current()) == TryLock(old(Current()), key, how)
    {
      var wasLocked := key in locked;
      if how.Applies() && !wasLocked {
        locked := locked + {key};
      }
      if how.Rejects() {
        return LockThrew;
      }
      reply := if wasLocked then HeldElsewhere else Acquired;
    }

    /** The record write that the manager's write-through `set` performs;
        building the record (expiry, tags) is not part of this model. */
    method Set(key: Key, value: Value, how: Settlement) returns (ok: bool)
      modifies this
      ensures (ok, Current()) == Put(old(Current()), key, value, how)
    {
      if how.Applies() {
        records := records[key := value];
      }
      ok := how.Resolves?;
    }

    method ReleaseKey(key: Key, how: Settlement) returns (ok: bool)
      modifies this
      ensures (ok, Current()) == Unlock(old(Current()), key, how)
    {
      if how.Applies() {
        locked := locked - {key};
      }
      ok := how.Resolves?;
    }

    method Del(key: Key, how: Settlement) returns (r: Outcome<bool>)
      modifies this
      ensures (r, Current()) == Remove(old(Current()), key, how)
    {
      r := if how.Rejects() then Fail(StorageFailure(DelCall)) else Ok(key in records);
      if how.Applies() {
        records := records - {key};
      }
    }
  }
}
