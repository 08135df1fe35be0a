/** The named "locked-key retrieve strategies": what a caller does when
    another caller holds the lock of the key it wants. */
module Registry {
  import opened Outcomes

  /** A strategy object. Only its identity matters to the manager; what its
      `get(context)` does is the strategy's own code. */
  datatype Strategy =
    | WaitForResult          // polls the lock, then re-reads the record
    | RunExecutor            // runs the executor regardless of the lock
    | Supplied(id: string)   // an object a caller registered

  /** The identifiers of the two built-in strategies. */
  const WaitForResultName: string := "waitForResult"
  const RunExecutorName: string := "runExecutor"

  /** One `(name, strategy)` pair of the manager's options. */
  type Registration = (string, Strategy)

  /** The registry before any caller-supplied pair is applied. */
  function BuiltIns(): map<string, Strategy>
  {
    map[WaitForResultName := WaitForResult, RunExecutorName := RunExecutor]
  }

  /** The names the pairs register. */
  ghost function Names(pairs: seq<Registration>): set<string>
  {
    set i | 0 <= i < |pairs| :: pairs[i].0
  }

  /** The registry after applying the pairs to `base` in order, each one
      overwriting whatever its name held before. */
  function Register(base: map<string, Strategy>, pairs: seq<Registration>): (r: map<string, Strategy>)
    ensures r.Keys == base.Keys + Names(pairs)
  {
    if pairs == [] then base
    else
      var last := pairs[|pairs| - 1];
      var before := pairs[..|pairs| - 1];
      assert Names(pairs) == Names(before) + {last.0} by {
        forall n | n in Names(pairs) ensures n in Names(before) + {last.0} {
          var i :| 0 <= i < |pairs| && pairs[i].0 == n;
          if i < |before| { assert before[i] == pairs[i]; }
        }
        forall n | n in Names(before) ensures n in Names(pairs) {
          var i :| 0 <= i < |before| && before[i].0 == n;
          assert pairs[i] == before[i];
        }
      }
      Register(base, before)[last.0 := last.1]
  }

  /** Pair `i` is the last pair that registers `name`. */
  ghost predicate LastRegistered(pairs: seq<Registration>, name: string, i: int)
  {
    0 <= i < |pairs| && pairs[i].0 == name
    && forall j :: i < j < |pairs| ==> pairs[j].0 != name
  }

  /** Later registrations win: a name any pair registers maps to the
      strategy of the last such pair, built-in names included; every other
      name keeps what `base` gave it. */
  lemma {:induction false} RegisterLastWins(base: map<string, Strategy>, pairs: seq<Registration>, name: string)
    ensures forall i :: LastRegistered(pairs, name, i) ==> Register(base, pairs)[name] == pairs[i].1
    ensures name !in Names(pairs) && name in base ==> Register(base, pairs)[name] == base[name]
  {
    if pairs != [] {
      var last := pairs[|pairs| - 1];
      var before := pairs[..|pairs| - 1];
      RegisterLastWins(base, before, name);
      forall i | LastRegistered(pairs, name, i) ensures Register(base, pairs)[name] == pairs[i].1 {
        if i < |before| {
          assert last.0 != name;
          assert LastRegistered(before, name, i);
        }
      }
      if name !in Names(pairs) && name in base {
        assert last.0 != name by { assert pairs[|pairs| - 1].0 in Names(pairs); }
      }
    }
  }

  /** Every name has a last registration among the pairs that register it. */
  lemma {:induction false} LastRegistrationExists(pairs: seq<Registration>, name: string)
    requires name in Names(pairs)
    ensures exists i :: LastRegistered(pairs, name, i)
  {
    var last := |pairs| - 1;
    if pairs[last].0 == name {
      assert LastRegistered(pairs, name, last);
    } else {
      var before := pairs[..last];
      assert name in Names(before) by {
        var i :| 0 <= i < |pairs| && pairs[i].0 == name;
        assert before[i].0 == name;
      }
      LastRegistrationExists(before, name);
      var i :| LastRegistered(before, name, i);
      assert LastRegistered(pairs, name, i);
    }
  }

  /** The name a lookup uses: an absent name means `runExecutor`. */
  function StrategyName(name: Option<string>): string
  {
    name.GetOr(RunExecutorName)
  }

  /** `getLockedKeyRetrieveStrategy(name)`: the registered strategy, or a
      StrategyNotFound error; a miss is never replaced by a default. */
  function GetLockedKeyRetrieveStrategy(registry: map<string, Strategy>, name: Option<string>): (r: Outcome<Strategy>)
    ensures r.Ok? <==> StrategyName(name) in registry
    ensures r.Ok? ==> r.value == registry[StrategyName(name)]
    ensures r.Fail? ==> r.error == StrategyNotFound(StrategyName(name))
    ensures name.None? && r.Ok? ==> r.value == registry[RunExecutorName]
  {
    var n := StrategyName(name);
    if n in registry then Ok(registry[n]) else Fail(StrategyNotFound(n))
  }

  /** After construction both built-ins can be looked up, and the default
      lookup returns the `runExecutor` entry: the built-in one unless a
      caller pair registered that name, in which case the last such pair's. */
  lemma DefaultStrategyAfterConstruction(pairs: seq<Registration>)
    ensures GetLockedKeyRetrieveStrategy(Register(BuiltIns(), pairs), Some(WaitForResultName)).Ok?
    ensures RunExecutorName !in Names(pairs) ==>
      GetLockedKeyRetrieveStrategy(Register(BuiltIns(), pairs), None) == Ok(RunExecutor)
    ensures forall i :: LastRegistered(pairs, RunExecutorName, i) ==>
      GetLockedKeyRetrieveStrategy(Register(BuiltIns(), pairs), None) == Ok(pairs[i].1)
  {
    RegisterLastWins(BuiltIns(), pairs, RunExecutorName);
  }

  /** A name is found after construction iff it is built in or some pair registers it. */
  lemma LookupAfterConstruction(pairs: seq<Registration>, name: string)
    ensures GetLockedKeyRetrieveStrategy(Register(BuiltIns(), pairs), Some(name)).Ok?
        <==> name in {WaitForResultName, RunExecutorName} || name in Names(pairs)
    ensures name !in Names(pairs) && name !in {WaitForResultName, RunExecutorName} ==>
      GetLockedKeyRetrieveStrategy(Register(BuiltIns(), pairs), Some(name)) == Fail(StrategyNotFound(name))
    ensures name in Names(pairs) ==>
      exists i :: LastRegistered(pairs, name, i)
        && GetLockedKeyRetrieveStrategy(Register(BuiltIns(), pairs), Some(name)) == Ok(pairs[i].1)
  {
    if name in Names(pairs) {
      LastRegistrationExists(pairs, name);
      RegisterLastWins(BuiltIns(), pairs, name);
    }
  }
}
