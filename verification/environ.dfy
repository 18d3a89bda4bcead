/** The environment `exec` hands the executed command: a list of "key=value"
    entries that the command edits in place, and the merge of the service
    configurations that fills it. */
module Environment {
  import opened Wrappers
  import opened Strings
  import opened Maps
  import opened Ssm
  import opened Storage
  import opened ServicePaths
  import opened ParameterStoreSpec
  import opened ParameterStoreAdapter
  import opened Paths
  import opened ConfmanCore

  /** The variables `exec` removes unless told to keep AWS credentials. */
  const AwsVariables: seq<string> := [
    "AWS_VAULT", "AWS_DEFAULT_REGION", "AWS_REGION", "AWS_ACCESS_KEY_ID",
    "AWS_SECRET_ACCESS_KEY", "AWS_SESSION_TOKEN", "AWS_SECURITY_TOKEN", "AWS_SESSION_EXPIRATION"
  ]

  /** An entry sets `key`: it starts with `key=`. */
  predicate Matches(entry: string, key: string) {
    HasPrefix(entry, key + "=")
  }

  /** Some entry sets `key`. */
  predicate Defines(entries: seq<string>, key: string) {
    exists i | 0 <= i < |entries| :: Matches(entries[i], key)
  }

  /** The index of the first entry setting `key`, from `from` on. */
  function FirstMatchFrom(entries: seq<string>, key: string, from: nat): (r: Option<nat>)
    requires from <= |entries|
    ensures r.Some? ==> from <= r.value < |entries| && Matches(entries[r.value], key)
                        && forall j | from <= j < r.value :: !Matches(entries[j], key)
    ensures r.None? ==> forall j | from <= j < |entries| :: !Matches(entries[j], key)
    decreases |entries| - from
  {
    if from == |entries| then None
    else if Matches(entries[from], key) then Some(from)
    else FirstMatchFrom(entries, key, from + 1)
  }

  function FirstMatch(entries: seq<string>, key: string): Option<nat> {
    FirstMatchFrom(entries, key, 0)
  }

  /** Unset on a value: the first entry setting `key` is overwritten by the
      last entry, and the last slot is cut off. */
  function Unsetting(entries: seq<string>, key: string): seq<string> {
    match FirstMatch(entries, key)
    case None => entries
    case Some(i) => entries[i := entries[|entries| - 1]][..|entries| - 1]
  }

  /** Set on a value. */
  function Setting(entries: seq<string>, key: string, value: string): seq<string> {
    Unsetting(entries, key) + [key + "=" + value]
  }

  /** The credential stripping: Unset of each variable in turn. */
  function UnsetAll(entries: seq<string>, keys: seq<string>): seq<string>
    decreases |keys|
  {
    if keys == [] then entries else UnsetAll(Unsetting(entries, keys[0]), keys[1..])
  }

  /** The final loop: Set of each key of the merged configuration in `order`. */
  function SetAll(entries: seq<string>, config: map<string, string>, order: seq<string>): seq<string>
    requires forall i | 0 <= i < |order| :: order[i] in config
    decreases |order|
  {
    if order == [] then entries
    else SetAll(Setting(entries, order[0], config[order[0]]), config, order[1..])
  }

  class Environ {
    var entries: seq<string>

    constructor (entries: seq<string>)
      ensures this.entries == entries
    {
      this.entries := entries;
    }

    /** Contains: whether some entry starts with `key=`. */
    method Contains(key: string) returns (r: bool)
      ensures r == Defines(entries, key)
    {
      for i := 0 to |entries|
        invariant forall j | 0 <= j < i :: !Matches(entries[j], key)
      {
        if HasPrefix(entries[i], key + "=") {
          return true;
        }
      }
      return false;
    }

    /** Unset: swap-remove the first entry setting `key`, if any. */
    method Unset(key: string)
      modifies this
      ensures entries == Unsetting(old(entries), key)
    {
      for i := 0 to |entries|
        invariant entries == old(entries)
        invariant forall j | 0 <= j < i :: !Matches(entries[j], key)
      {
        if HasPrefix(entries[i], key + "=") {
          assert FirstMatch(entries, key) == Some(i);
          entries := entries[i := entries[|entries| - 1]];
          entries := entries[..|entries| - 1];
          return;
        }
      }
      assert FirstMatch(entries, key) == None;
    }

    /** Set: whether `key` was set before; then unset it and append
        `key=value`. */
    method Set(key: string, value: string) returns (overwritten: bool)
      modifies this
      ensures overwritten == Defines(old(entries), key)
      ensures entries == Setting(old(entries), key, value)
    {
      var present := Contains(key);
      Unset(key);
      entries := entries + [key + "=" + value];
      return present;
    }
  }

  // ------------------------------------------------------ environ lemmas

  /** Swap-removing entry `i` drops exactly that entry. */
  lemma SwapRemove(entries: seq<string>, i: nat)
    requires i < |entries|
    ensures var last := |entries| - 1;
      multiset(entries[i := entries[last]][..last]) + multiset{entries[i]} == multiset(entries)
  {
    var last := |entries| - 1;
    var r := entries[i := entries[last]][..last];
    if i == last {
      assert entries == r + [entries[i]];
    } else {
      assert r == entries[..i] + [entries[last]] + entries[i + 1..last];
      assert entries == entries[..i] + [entries[i]] + entries[i + 1..last] + [entries[last]];
    }
  }

  /** Unset drops one entry exactly when `key` is set, and that entry is
      the first one setting it; every other entry is kept. */
  lemma UnsetMeaning(entries: seq<string>, key: string)
    ensures var r := Unsetting(entries, key);
      && |r| == (if Defines(entries, key) then |entries| - 1 else |entries|)
      && (Defines(entries, key) ==> exists i | 0 <= i < |entries| ::
            Matches(entries[i], key) && (forall j | 0 <= j < i :: !Matches(entries[j], key))
            && multiset(r) + multiset{entries[i]} == multiset(entries))
      && (!Defines(entries, key) ==> r == entries)
  {
    match FirstMatch(entries, key)
    case None =>
    case Some(i) =>
      SwapRemove(entries, i);
  }

  /** When `key` was set by one entry at most, Unset leaves it unset. */
  lemma UnsetClearsUnique(entries: seq<string>, key: string)
    requires forall i, j | 0 <= i < j < |entries| :: !(Matches(entries[i], key) && Matches(entries[j], key))
    ensures !Defines(Unsetting(entries, key), key)
  {
    match FirstMatch(entries, key)
    case None =>
    case Some(i) =>
      var last := |entries| - 1;
      var r := Unsetting(entries, key);
      forall j | 0 <= j < |r|
        ensures !Matches(r[j], key)
      {
        if j == i {
          assert r[j] == entries[last];
        } else {
          assert r[j] == entries[j];
        }
      }
  }

  /** Set leaves `key=value` as the last entry and reports whether the key
      was set before. */
  lemma SetMeaning(entries: seq<string>, key: string, value: string)
    ensures var r := Setting(entries, key, value);
      && r[|r| - 1] == key + "=" + value
      && |r| == (if Defines(entries, key) then |entries| else |entries| + 1)
      && Defines(r, key)
  {
    UnsetMeaning(entries, key);
    var r := Setting(entries, key, value);
    assert Matches(r[|r| - 1], key) by {
      assert (key + "=" + value)[..|key + "="|] == key + "=";
    }
  }

  /** The text of an entry before its first '='. */
  function NameOf(entry: string): string
    decreases |entry|
  {
    if entry == [] || entry[0] == '=' then [] else [entry[0]] + NameOf(entry[1..])
  }

  /** An entry that sets a key without '=' is named by that key. */
  lemma {:induction false} MatchedName(entry: string, key: string)
    requires '=' !in key && Matches(entry, key)
    ensures NameOf(entry) == key
    decreases |key|
  {
    if key != [] {
      assert entry[0] == key[0];
      assert Matches(entry[1..], key[1..]) by {
        assert (key + "=")[1..] == key[1..] + "=";
      }
      MatchedName(entry[1..], key[1..]);
      assert key == [key[0]] + key[1..];
    } else {
      assert entry[0] == '=';
    }
  }

  /** An entry sets one key without '=' at most. */
  lemma MatchesOneKey(entry: string, a: string, b: string)
    requires '=' !in a && '=' !in b && Matches(entry, a) && Matches(entry, b)
    ensures a == b
  {
    MatchedName(entry, a);
    MatchedName(entry, b);
  }

  /** Setting a key keeps every entry that does not set it. */
  lemma SettingKeeps(entries: seq<string>, key: string, value: string, entry: string)
    requires entry in entries && !Matches(entry, key)
    ensures entry in Setting(entries, key, value)
  {
    UnsetMeaning(entries, key);
    var r := Unsetting(entries, key);
    if Defines(entries, key) {
      var i :| 0 <= i < |entries| && Matches(entries[i], key) && multiset(r) + multiset{entries[i]} == multiset(entries);
      assert entry in multiset(entries);
      assert entry != entries[i];
      assert entry in multiset(r);
    }
  }

  /** After the final loop, each key of the merged configuration is set to
      its value, provided no key contains '='. */
  lemma {:induction false} SetAllHolds(entries: seq<string>, config: map<string, string>, order: seq<string>)
    requires Distinct(order) && forall i | 0 <= i < |order| :: order[i] in config && '=' !in order[i]
    ensures forall i | 0 <= i < |order| :: order[i] + "=" + config[order[i]] in SetAll(entries, config, order)
    decreases |order|
  {
    if order != [] {
      var k := order[0];
      var next := Setting(entries, k, config[k]);
      SetMeaning(entries, k, config[k]);
      var rest := order[1..];
      assert forall i, j | 0 <= i < j < |rest| :: rest[i] == order[i + 1] && rest[j] == order[j + 1];
      SetAllHolds(next, config, rest);
      SetAllKeeps(next, config, rest, k + "=" + config[k]);
      forall i | 0 <= i < |order|
        ensures order[i] + "=" + config[order[i]] in SetAll(entries, config, order)
      {
        if i > 0 {
          assert order[i] == rest[i - 1];
        }
      }
    }
  }

  /** The final loop keeps an entry setting a key the loop does not set. */
  lemma {:induction false} SetAllKeeps(entries: seq<string>, config: map<string, string>, order: seq<string>, entry: string)
    requires forall i | 0 <= i < |order| :: order[i] in config && '=' !in order[i]
    requires entry in entries
    requires exists k | '=' !in k :: Matches(entry, k) && k !in order
    ensures entry in SetAll(entries, config, order)
    decreases |order|
  {
    if order != [] {
      var k :| '=' !in k && Matches(entry, k) && k !in order;
      if Matches(entry, order[0]) {
        MatchesOneKey(entry, k, order[0]);
      }
      SettingKeeps(entries, order[0], config[order[0]], entry);
      assert k !in order[1..];
      SetAllKeeps(Setting(entries, order[0], config[order[0]]), config, order[1..], entry);
    }
  }

  /** Unset of other keys keeps one-entry-at-most for `key`. */
  lemma UnsetKeepsUnique(entries: seq<string>, other: string, key: string)
    requires forall i, j | 0 <= i < j < |entries| :: !(Matches(entries[i], key) && Matches(entries[j], key))
    ensures var r := Unsetting(entries, other);
      forall i, j | 0 <= i < j < |r| :: !(Matches(r[i], key) && Matches(r[j], key))
  {
    match FirstMatch(entries, other)
    case None =>
    case Some(m) =>
      var last := |entries| - 1;
      var r := Unsetting(entries, other);
      forall i, j | 0 <= i < j < |r|
        ensures !(Matches(r[i], key) && Matches(r[j], key))
      {
        var i' := if i == m then last else i;
        var j' := if j == m then last else j;
        assert r[i] == entries[i'] && r[j] == entries[j'];
        assert i' != j';
        if i' < j' {
        } else {
        }
      }
  }

  /** Unset of a different key keeps `key` unset. */
  lemma UnsetKeepsUnset(entries: seq<string>, other: string, key: string)
    requires !Defines(entries, key)
    ensures !Defines(Unsetting(entries, other), key)
  {
    UnsetMeaning(entries, other);
    var r := Unsetting(entries, other);
    forall j | 0 <= j < |r|
      ensures !Matches(r[j], key)
    {
      assert r[j] in multiset(r);
      if Defines(entries, other) {
        var i :| 0 <= i < |entries| && Matches(entries[i], other) && multiset(r) + multiset{entries[i]} == multiset(entries);
        assert r[j] in multiset(entries);
      } else {
        assert r[j] == entries[j];
      }
    }
  }

  /** Stripping the credential variables from an environment that sets each
      of them once at most leaves none of them set. */
  lemma {:induction false} UnsetAllClears(entries: seq<string>, keys: seq<string>)
    requires forall k | k in keys :: forall i, j | 0 <= i < j < |entries| :: !(Matches(entries[i], k) && Matches(entries[j], k))
    ensures forall k | k in keys :: !Defines(UnsetAll(entries, keys), k)
    decreases |keys|
  {
    if keys != [] {
      var next := Unsetting(entries, keys[0]);
      assert keys[0] in keys;
      UnsetClearsUnique(entries, keys[0]);
      forall k | k in keys[1..]
        ensures forall i, j | 0 <= i < j < |next| :: !(Matches(next[i], k) && Matches(next[j], k))
      {
        assert k in keys;
        UnsetKeepsUnique(entries, keys[0], k);
      }
      UnsetAllClears(next, keys[1..]);
      UnsetAllKeepsUnset(next, keys[1..], keys[0]);
    }
  }

  lemma {:induction false} UnsetAllKeepsUnset(entries: seq<string>, keys: seq<string>, key: string)
    requires !Defines(entries, key)
    ensures !Defines(UnsetAll(entries, keys), key)
    decreases |keys|
  {
    if keys != [] {
      UnsetKeepsUnset(entries, keys[0], key);
      UnsetAllKeepsUnset(Unsetting(entries, keys[0]), keys[1..], key);
    }
  }

  // ----------------------------------------------------- building the environment

  /** The merge loop of ExecCommand over `paths`: ReadAll through a new
      confman per path (keys upper-cased in `orders[i]` when chamber
      compatibility is on), each result copied into the merged map so that
      a later path wins. The first failing read ends the run. */
  function MergeRun(rm: Remote, faults: map<nat, ApiError>, paths: seq<string>, chamber: bool, orders: seq<seq<string>>)
    : (Result<map<string, string>, Error>, Remote)
    requires |orders| == |paths|
    decreases |paths|
  {
    if paths == [] then (Success(map[]), rm)
    else
      var n := |paths| - 1;
      MergeStep(MergeRun(rm, faults, paths[..n], chamber, orders[..n]), faults, paths[n], chamber, orders[n])
  }

  /** One round of the merge loop: after the merge so far succeeded, read
      `path` and copy its (chamber-folded) configuration over it. */
  function MergeStep(sofar: (Result<map<string, string>, Error>, Remote), faults: map<nat, ApiError>, path: string, chamber: bool, order: seq<string>)
    : (Result<map<string, string>, Error>, Remote)
  {
    if sofar.0.Failure? then sofar
    else
      var run := ReadAllRun(sofar.1, faults, FormatServiceName(path));
      if run.0.Failure? then (Failure(run.0.error), run.1)
      else (Success(sofar.0.value + Chambered(chamber, run.0.value, order, true)), run.1)
  }

  /** A reference for the merge: the configurations combined in order, a
      later one winning on a shared key. */
  function Merged(configs: seq<map<string, string>>): map<string, string>
    decreases |configs|
  {
    if configs == [] then map[] else Merged(configs[..|configs| - 1]) + configs[|configs| - 1]
  }

  /** What each path's read returns from a store that does not change. */
  function PathConfigs(s: Store, paths: seq<string>, chamber: bool, orders: seq<seq<string>>): (r: seq<map<string, string>>)
    requires |orders| == |paths|
    ensures |r| == |paths|
  {
    seq(|paths|, i requires 0 <= i < |paths| => Chambered(chamber, Config(s, FormatServiceName(paths[i])), orders[i], true))
  }

  /** The map copy loop: every entry of `cur` overwrites `config`'s. */
  method CopyEntries(config: map<string, string>, cur: map<string, string>) returns (r: map<string, string>)
    ensures r.Keys == config.Keys + cur.Keys
    ensures forall k | k in r :: r[k] == if k in cur then cur[k] else config[k]
    ensures r == config + cur
  {
    r := config;
    var keys := Keys(cur);
    for i := 0 to |keys|
      invariant forall k :: k in r <==> k in config || k in keys[..i]
      invariant forall k | k in r :: r[k] == if k in keys[..i] then cur[k] else config[k]
    {
      assert keys[..i + 1] == keys[..i] + [keys[i]];
      r := r[keys[i] := cur[keys[i]]];
    }
    assert keys[..|keys|] == keys;
    assert r.Keys == (config + cur).Keys;
    forall k | k in r
      ensures r[k] == (config + cur)[k]
    {
    }
  }

  /** The merge loop of ExecCommand: a new confman per path, its ReadAll
      result copied over the merged map. On the first failing read the loop
      stops; `orders` records the range order of every read made. */
  method MergeServicePaths(storage: ParameterStore, paths: seq<string>, chamber: bool)
    returns (r: Result<map<string, string>, Error>, ghost orders: seq<seq<string>>)
    requires storage.Valid()
    modifies storage.ssm
    ensures storage.Valid()
    ensures |orders| <= |paths| && (r.Success? ==> |orders| == |paths|)
    ensures (r, storage.ssm.remote) == MergeRun(old(storage.ssm.remote), storage.ssm.faults, paths[..|orders|], chamber, orders)
  {
    var merged: map<string, string> := map[];
    orders := [];
    ghost var rm0, faults := storage.ssm.remote, storage.ssm.faults;
    for i := 0 to |paths|
      invariant storage.Valid() && storage.ssm.faults == faults && |orders| == i
      invariant MergeRun(rm0, faults, paths[..i], chamber, orders) == (Success(merged), storage.ssm.remote)
    {
      var cur, order := MergeOne(storage, paths[i], chamber, merged);
      MergeRunSnoc(rm0, faults, paths, chamber, orders, order, i);
      orders := orders + [order];
      if cur.Failure? {
        return cur, orders;
      }
      merged := cur.value;
    }
    assert paths[..|paths|] == paths;
    r := Success(merged);
  }

  /** One round of the merge loop. */
  method MergeOne(storage: ParameterStore, path: string, chamber: bool, merged: map<string, string>)
    returns (r: Result<map<string, string>, Error>, ghost order: seq<string>)
    requires storage.Valid()
    modifies storage.ssm
    ensures storage.Valid()
    ensures r == MergeStep((Success(merged), old(storage.ssm.remote)), storage.ssm.faults, path, chamber, order).0
    ensures storage.ssm.remote == MergeStep((Success(merged), old(storage.ssm.remote)), storage.ssm.faults, path, chamber, order).1
  {
    ghost var sofar := (Success(merged), storage.ssm.remote);
    var cm := new Confman(storage, path, chamber);
    var cur;
    cur, order := cm.ReadAll();
    MergeStepRead(sofar, storage.ssm.faults, path, chamber, order, cur);
    if cur.Failure? {
      return cur, order;
    }
    var next := CopyEntries(merged, cur.value);
    return Success(next), order;
  }

  lemma MergeStepRead(sofar: (Result<map<string, string>, Error>, Remote), faults: map<nat, ApiError>, path: string, chamber: bool,
                      order: seq<string>, cur: Result<map<string, string>, Error>)
    requires sofar.0.Success?
    requires cur == ChamberedRead(chamber, ReadAllRun(sofar.1, faults, FormatServiceName(path)).0, order)
    ensures MergeStep(sofar, faults, path, chamber, order).1 == ReadAllRun(sofar.1, faults, FormatServiceName(path)).1
    ensures cur.Failure? ==> MergeStep(sofar, faults, path, chamber, order).0 == cur
    ensures cur.Success? ==> MergeStep(sofar, faults, path, chamber, order).0 == Success(sofar.0.value + cur.value)
  {
  }

  lemma MergeRunSnoc(rm: Remote, faults: map<nat, ApiError>, paths: seq<string>, chamber: bool, orders: seq<seq<string>>,
                     order: seq<string>, i: nat)
    requires i == |orders| < |paths|
    ensures MergeRun(rm, faults, paths[..i + 1], chamber, orders + [order])
         == MergeStep(MergeRun(rm, faults, paths[..i], chamber, orders), faults, paths[i], chamber, order)
  {
    assert paths[..i + 1][..i] == paths[..i] && (orders + [order])[..i] == orders;
  }

  /** The loop that unsets every AWS variable. */
  method StripAwsVariables(env: Environ)
    modifies env
    ensures env.entries == UnsetAll(old(env.entries), AwsVariables)
  {
    for i := 0 to |AwsVariables|
      invariant UnsetAll(env.entries, AwsVariables[i..]) == UnsetAll(old(env.entries), AwsVariables)
    {
      assert AwsVariables[i..][1..] == AwsVariables[i + 1..];
      env.Unset(AwsVariables[i]);
    }
  }

  /** The loop that sets every key of the merged configuration, in the
      order the range over the map took. */
  method SetConfig(env: Environ, config: map<string, string>) returns (ghost order: seq<string>)
    modifies env
    ensures Enumerates(order, config)
    ensures env.entries == SetAll(old(env.entries), config, order)
  {
    var keys := Keys(config);
    order := keys;
    for i := 0 to |keys|
      invariant SetAll(env.entries, config, keys[i..]) == SetAll(old(env.entries), config, keys)
    {
      assert keys[i..][1..] == keys[i + 1..];
      var overwritten := env.Set(keys[i], config[keys[i]]);
    }
  }

  /** ExecCommand up to the command itself. `built` is false when a read
      failed: then ExecCommand returns nil and neither builds the
      environment nor runs anything. Otherwise the environment loses the AWS
      variables (unless they are kept) and gets every merged key set. */
  method ExecEnvironment(storage: ParameterStore, servicePaths: string, keepAwsCredentials: bool, chamber: bool, env: Environ)
    returns (built: bool, ghost orders: seq<seq<string>>, ghost config: map<string, string>, ghost setOrder: seq<string>)
    requires storage.Valid()
    modifies storage.ssm, env
    ensures storage.Valid()
    ensures |orders| <= |ParseServicePaths(servicePaths)|
    ensures var run := MergeRun(old(storage.ssm.remote), storage.ssm.faults, ParseServicePaths(servicePaths)[..|orders|], chamber, orders);
      && storage.ssm.remote == run.1
      && (built <==> run.0.Success?)
      && (!built ==> env.entries == old(env.entries))
      && (built ==> (|orders| == |ParseServicePaths(servicePaths)| && run.0.value == config && Enumerates(setOrder, config)
            && env.entries == SetAll(if keepAwsCredentials then old(env.entries) else UnsetAll(old(env.entries), AwsVariables),
                                     config, setOrder)))
  {
    var paths := ParseServicePaths(servicePaths);
    var merged;
    merged, orders := MergeServicePaths(storage, paths, chamber);
    if merged.Failure? {
      return false, orders, map[], [];
    }
    config := merged.value;
    if !keepAwsCredentials {
      StripAwsVariables(env);
    }
    setOrder := SetConfig(env, merged.value);
    built := true;
  }

  // ------------------------------------------------------ merge lemmas

  /** A key the merge holds has the value of the last configuration
      that has it. */
  lemma {:induction false} MergedLastWins(configs: seq<map<string, string>>, k: string, i: nat)
    requires i < |configs| && k in configs[i]
    requires forall j | i < j < |configs| :: k !in configs[j]
    ensures k in Merged(configs) && Merged(configs)[k] == configs[i][k]
    decreases |configs|
  {
    var n := |configs| - 1;
    if i < n {
      MergedLastWins(configs[..n], k, i);
    }
  }

  /** The merge holds exactly the keys some configuration has. */
  lemma {:induction false} MergedKeys(configs: seq<map<string, string>>)
    ensures forall k :: k in Merged(configs) <==> exists i | 0 <= i < |configs| :: k in configs[i]
    decreases |configs|
  {
    if configs != [] {
      var n := |configs| - 1;
      MergedKeys(configs[..n]);
      forall k | k in Merged(configs)
        ensures exists i | 0 <= i < |configs| :: k in configs[i]
      {
        if k !in configs[n] {
          assert k in Merged(configs[..n]);
          var i :| 0 <= i < |configs[..n]| && k in configs[..n][i];
          assert k in configs[i];
        }
      }
      forall k, i | 0 <= i < |configs| && k in configs[i]
        ensures k in Merged(configs)
      {
        if i < n {
          assert k in configs[..n][i];
        }
      }
    }
  }

  /** With no faults and valid service paths, the merge succeeds with the
      paths' configurations merged in order, and the store is unchanged. */
  lemma {:induction false} MergeAll(rm: Remote, faults: map<nat, ApiError>, paths: seq<string>, chamber: bool, orders: seq<seq<string>>)
    requires |orders| == |paths|
    requires Listed(rm.store) && NoFaultsFrom(faults, |rm.log|)
    requires forall i | 0 <= i < |paths| :: IsServicePath(FormatServiceName(paths[i]))
    ensures MergeRun(rm, faults, paths, chamber, orders).0 == Success(Merged(PathConfigs(rm.store, paths, chamber, orders)))
    ensures MergeRun(rm, faults, paths, chamber, orders).1.store == rm.store
    ensures rm.log <= MergeRun(rm, faults, paths, chamber, orders).1.log
    decreases |paths|
  {
    if paths != [] {
      var n := |paths| - 1;
      var front, fronts := paths[..n], orders[..n];
      forall i | 0 <= i < |front|
        ensures IsServicePath(FormatServiceName(front[i]))
      {
        assert front[i] == paths[i];
      }
      MergeAll(rm, faults, front, chamber, fronts);
      var sofar := MergeRun(rm, faults, front, chamber, fronts);
      MergeStepAll(sofar, faults, paths[n], chamber, orders[n], rm.log);
      PathConfigsSnoc(rm.store, paths, chamber, orders);
    }
  }

  /** The configurations of all paths but the last, then the last one's. */
  lemma PathConfigsSnoc(s: Store, paths: seq<string>, chamber: bool, orders: seq<seq<string>>)
    requires |orders| == |paths| && paths != []
    ensures var n := |paths| - 1;
      Merged(PathConfigs(s, paths, chamber, orders))
        == Merged(PathConfigs(s, paths[..n], chamber, orders[..n]))
           + Chambered(chamber, Config(s, FormatServiceName(paths[n])), orders[n], true)
  {
    var n := |paths| - 1;
    var configs := PathConfigs(s, paths, chamber, orders);
    assert configs[..n] == PathConfigs(s, paths[..n], chamber, orders[..n]);
  }

  lemma MergeStepAll(sofar: (Result<map<string, string>, Error>, Remote), faults: map<nat, ApiError>, path: string, chamber: bool,
                     order: seq<string>, log: seq<Call>)
    requires sofar.0.Success? && Listed(sofar.1.store) && log <= sofar.1.log && NoFaultsFrom(faults, |log|)
    requires IsServicePath(FormatServiceName(path))
    ensures MergeStep(sofar, faults, path, chamber, order).0
         == Success(sofar.0.value + Chambered(chamber, Config(sofar.1.store, FormatServiceName(path)), order, true))
    ensures MergeStep(sofar, faults, path, chamber, order).1.store == sofar.1.store
    ensures log <= MergeStep(sofar, faults, path, chamber, order).1.log
  {
    ReadAllConfig(sofar.1, faults, FormatServiceName(path));
  }
}
