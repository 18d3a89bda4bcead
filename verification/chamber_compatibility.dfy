/** The chamber-compatibility storage decorator: it wraps a Parameter Store,
    lower-cases keys on their way in and upper-cases them on their way out
    of ReadAll and ReadAllMetadata. Its helpers build new maps and slices and
    leave their inputs alone. */
module Chamber {
  import opened Wrappers
  import opened Strings
  import opened Maps
  import opened CaseFolding
  import opened Ssm
  import opened Storage
  import opened Contexts
  import opened ParameterStoreSpec
  import opened ParameterStoreAdapter

  /** chamberKeysToLower: a new slice holding the lower-cased keys. */
  method KeysToLower(keys: seq<string>) returns (newKeys: seq<string>)
    ensures |newKeys| == |keys|
    ensures forall i | 0 <= i < |keys| :: newKeys[i] == ToLower(keys[i])
  {
    var a := new string[|keys|];
    for i := 0 to |keys|
      invariant forall j | 0 <= j < i :: a[j] == ToLower(keys[j])
    {
      a[i] := ToLower(keys[i]);
    }
    newKeys := a[..];
  }

  /** chamberConfigToLower (`upper` false) and chamberConfigToUpper (`upper`
      true): a new map filled while ranging over `config`; `order` is the
      order the range took. */
  method FoldConfig(config: map<string, string>, upper: bool)
    returns (newConfig: map<string, string>, ghost order: seq<string>)
    ensures Enumerates(order, config)
    ensures newConfig == Refold(config, order, upper)
  {
    var keys := Keys(config);
    order := keys;
    newConfig := map[];
    for i := 0 to |keys|
      invariant newConfig == Refold(config, keys[..i], upper)
    {
      assert keys[..i + 1] == keys[..i] + [keys[i]];
      RefoldSnoc(config, keys[..i], keys[i], upper);
      newConfig := newConfig[Fold(keys[i], upper) := config[keys[i]]];
    }
    assert keys[..|keys|] == keys;
  }

  /** chamberKeyMetaToUpper: a new slice of the same records in the same
      order, only their keys upper-cased. Colliding keys are all kept. */
  method KeyMetaToUpper(records: seq<KeyMetadata>) returns (newRecords: seq<KeyMetadata>)
    ensures |newRecords| == |records|
    ensures forall i | 0 <= i < |records| :: newRecords[i] == records[i].(key := ToUpper(records[i].key))
  {
    var a := new KeyMetadata[|records|](i requires 0 <= i < |records| => records[i]);
    for i := 0 to |records|
      invariant forall j | 0 <= j < i :: a[j] == records[j].(key := ToUpper(records[j].key))
      invariant forall j | i <= j < |records| :: a[j] == records[j]
    {
      a[i] := a[i].(key := ToUpper(a[i].key));
    }
    newRecords := a[..];
  }

  class ChamberCompatibility {
    const storage: ParameterStore

    ghost predicate Valid()
      reads this, storage, storage.ssm
    {
      storage.Valid()
    }

    /** NewChamberCompatibility. */
    constructor (storage: ParameterStore)
      ensures this.storage == storage
    {
      this.storage := storage;
    }

    /** Write: the wrapped Write with the key lower-cased. */
    method Write(servicePath: string, key: string, value: string) returns (r: Result<(), Error>)
      requires Valid()
      modifies storage.ssm
      ensures Valid()
      ensures (r, storage.ssm.remote)
           == WriteRun(old(storage.ssm.remote), storage.ssm.faults, storage.kmsKeyId, servicePath, ToLower(key), value)
    {
      r := storage.Write(servicePath, ToLower(key), value);
    }

    /** WriteKeys: the wrapped WriteKeys on a lower-cased copy of the config. */
    method WriteKeys(ctx: Context, servicePath: string, config: map<string, string>)
      returns (r: Result<(), Error>, ghost lowered: map<string, string>, ghost keys: seq<string>, ghost writeOrder: seq<string>)
      requires Valid()
      modifies storage.ssm, ctx
      ensures Valid()
      ensures exists order :: Enumerates(order, config) && lowered == Refold(config, order, false)
      ensures Enumerates(keys, lowered) && Enumerates(writeOrder, lowered)
      ensures Outcome(r, storage.ssm.remote, ctx.checks)
           == WriteKeysRun(old(storage.ssm.remote), storage.ssm.faults, ctx.cancelAt, old(ctx.checks), storage.kmsKeyId,
                           servicePath, lowered, keys, writeOrder)
    {
      var newConfig, order := FoldConfig(config, false);
      lowered := newConfig;
      r, keys, writeOrder := storage.WriteKeys(ctx, servicePath, newConfig);
    }

    /** Read: the wrapped Read with the key lower-cased. */
    method Read(servicePath: string, key: string) returns (r: Result<string, Error>)
      requires Valid()
      modifies storage.ssm
      ensures Valid()
      ensures (r, storage.ssm.remote) == ReadRun(old(storage.ssm.remote), storage.ssm.faults, servicePath, ToLower(key))
    {
      r := storage.Read(servicePath, ToLower(key));
    }

    /** ReadKeys: the wrapped ReadKeys on the lower-cased keys; the result
        is passed on as it is, so its keys stay lower-case. */
    method ReadKeys(servicePath: string, keys: seq<string>) returns (r: Result<map<string, string>, Error>, ghost lowered: seq<string>)
      requires Valid()
      modifies storage.ssm
      ensures Valid()
      ensures |lowered| == |keys| && forall i | 0 <= i < |keys| :: lowered[i] == ToLower(keys[i])
      ensures (r, storage.ssm.remote) == ReadKeysRun(old(storage.ssm.remote), storage.ssm.faults, servicePath, lowered)
    {
      var newKeys := KeysToLower(keys);
      lowered := newKeys;
      r := storage.ReadKeys(servicePath, newKeys);
    }

    /** ReadAll: the wrapped result with its keys upper-cased, returned
        together with the error. The wrapped store returns no map with an
        error, so the map returned with an error is empty. */
    method ReadAll(servicePath: string)
      returns (config: map<string, string>, err: Option<Error>, ghost order: seq<string>)
      requires Valid()
      modifies storage.ssm
      ensures Valid()
      ensures var run := ReadAllRun(old(storage.ssm.remote), storage.ssm.faults, servicePath);
        var read := if run.0.Success? then run.0.value else map[];
        && storage.ssm.remote == run.1
        && err == (if run.0.Failure? then Some(run.0.error) else None)
        && Enumerates(order, read)
        && config == Refold(read, order, true)
    {
      var r := storage.ReadAll(servicePath);
      var read := if r.Success? then r.value else map[];
      config, order := FoldConfig(read, true);
      err := if r.Failure? then Some(r.error) else None;
    }

    /** ReadAllMetadata: the wrapped records with their keys upper-cased,
        returned together with the error. */
    method ReadAllMetadata(servicePath: string) returns (records: seq<KeyMetadata>, err: Option<Error>)
      requires Valid()
      modifies storage.ssm
      ensures Valid()
      ensures var run := ReadAllMetadataRun(old(storage.ssm.remote), storage.ssm.faults, storage.ssm.describePageSize, servicePath);
        var read := if run.0.Success? then run.0.value else [];
        && storage.ssm.remote == run.1
        && err == (if run.0.Failure? then Some(run.0.error) else None)
        && |records| == |read|
        && forall i | 0 <= i < |read| :: records[i] == read[i].(key := ToUpper(read[i].key))
    {
      var r := storage.ReadAllMetadata(servicePath);
      var read := if r.Success? then r.value else [];
      records := KeyMetaToUpper(read);
      err := if r.Failure? then Some(r.error) else None;
    }

    /** Delete: the wrapped Delete with the key lower-cased. */
    method Delete(servicePath: string, key: string) returns (r: Result<(), Error>)
      requires Valid()
      modifies storage.ssm
      ensures Valid()
      ensures (r, storage.ssm.remote) == DeleteRun(old(storage.ssm.remote), storage.ssm.faults, servicePath, ToLower(key))
    {
      r := storage.Delete(servicePath, ToLower(key));
    }

    /** DeleteKeys: the wrapped DeleteKeys on the lower-cased keys. */
    method DeleteKeys(servicePath: string, keys: seq<string>) returns (r: Result<(), Error>, ghost lowered: seq<string>)
      requires Valid()
      modifies storage.ssm
      ensures Valid()
      ensures |lowered| == |keys| && forall i | 0 <= i < |keys| :: lowered[i] == ToLower(keys[i])
      ensures (r, storage.ssm.remote) == DeleteKeysRun(old(storage.ssm.remote), storage.ssm.faults, servicePath, lowered)
    {
      var newKeys := KeysToLower(keys);
      lowered := newKeys;
      r := storage.DeleteKeys(servicePath, newKeys);
    }
  }

  /** Every key the decorator hands the wrapped WriteKeys is lower-case. */
  lemma WrittenKeysLowerCase(config: map<string, string>, order: seq<string>)
    requires Enumerates(order, config)
    ensures forall k | k in Refold(config, order, false) :: ToLower(k) == k
  {
    RefoldFolded(config, order, false);
  }

  /** Every key the decorator's ReadAll returns is upper-case; with an error
      the map is empty. */
  lemma ReadAllUpperCase(read: map<string, string>, order: seq<string>)
    requires Enumerates(order, read)
    ensures forall k | k in Refold(read, order, true) :: ToUpper(k) == k
    ensures read == map[] ==> Refold(read, order, true) == map[]
  {
    RefoldFolded(read, order, true);
    RefoldKeys(read, order, true);
  }
}
