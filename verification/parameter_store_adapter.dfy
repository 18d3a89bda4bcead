/** The Parameter Store adapter as an object: a client of the service and the
    key id every put uses. Each method follows the control flow of its Go
    counterpart and is proved to end with the result and the remote state
    that the matching `...Run` function of module ParameterStoreSpec gives; what
    those functions mean for the stored configuration is proved there. */
module ParameterStoreAdapter {
  import opened Wrappers
  import opened Maps
  import opened Paths
  import opened Ssm
  import opened Storage
  import opened Contexts
  import opened ParameterStoreSpec

  /** The loop that files each (name, value) pair under the name's base name. */
  method AddByBaseName(config: map<string, string>, items: seq<(string, string)>) returns (r: map<string, string>)
    ensures r == config + BaseMap(items)
  {
    r := config;
    assert items[..0] == [];
    var i := 0;
    while i < |items|
      invariant 0 <= i <= |items|
      invariant r == config + BaseMap(items[..i])
    {
      BaseMapSnoc(items[..i], config, items[i]);
      assert items[..i + 1] == items[..i] + [items[i]];
      r := r[Base(items[i].0) := items[i].1];
      i := i + 1;
    }
    assert items[..|items|] == items;
  }

  /** The entries of `config` whose value differs from what `current`
      holds, gathered by a loop over the keys. */
  method NewValues(config: map<string, string>, current: map<string, string>, keys: seq<string>)
    returns (newValues: map<string, string>)
    requires Enumerates(keys, config)
    ensures newValues == Changed(config, current)
  {
    newValues := map[];
    var i := 0;
    while i < |keys|
      invariant 0 <= i <= |keys|
      invariant forall k :: k in newValues <==> k in keys[..i] && config[k] != Lookup(current, k)
      invariant forall k | k in newValues :: newValues[k] == config[k]
    {
      assert keys[..i + 1] == keys[..i] + [keys[i]];
      var k := keys[i];
      if config[k] != Lookup(current, k) {
        newValues := newValues[k := config[k]];
      }
      i := i + 1;
    }
    assert keys[..|keys|] == keys;
  }

  /** readAllKeyMetadata's loop: one record per described parameter, with
      its base name and its value from `config` ("" when absent). */
  method MetadataRecords(config: map<string, string>, ms: seq<ParameterMetadata>) returns (records: seq<KeyMetadata>)
    ensures records == seq(|ms|, i requires 0 <= i < |ms| =>
                         KeyMetadata(Base(ms[i].name), Lookup(config, Base(ms[i].name)), ms[i]))
  {
    records := [];
    var i := 0;
    while i < |ms|
      invariant 0 <= i <= |ms| && |records| == i
      invariant forall j | 0 <= j < i :: records[j] == KeyMetadata(Base(ms[j].name), Lookup(config, Base(ms[j].name)), ms[j])
    {
      var key := Base(ms[i].name);
      records := records + [KeyMetadata(key, Lookup(config, key), ms[i])];
      i := i + 1;
    }
  }

  class ParameterStore {
    const ssm: Client
    const kmsKeyId: string

    ghost predicate Valid()
      reads this, ssm
    {
      ssm.Valid()
    }

    /** New: the key id is the alias, with "alias/" put in front when missing. */
    constructor (ssm: Client, kmsKeyAlias: string)
      ensures this.ssm == ssm && kmsKeyId == KmsKeyId(kmsKeyAlias)
    {
      this.ssm := ssm;
      kmsKeyId := KmsKeyId(kmsKeyAlias);
    }

    /** readKeys: one GetParameters call for at most ten keys. */
    method ReadBatch(servicePath: string, keys: seq<string>) returns (r: Result<map<string, string>, Error>)
      requires Valid()
      modifies ssm
      ensures Valid()
      ensures (r, ssm.remote) == BatchReadRun(old(ssm.remote), ssm.faults, servicePath, keys)
    {
      if |keys| > MaxKeysPerRequest {
        return Failure(TooManyKeys);
      }
      var out := ssm.GetParameters(ParameterNames(servicePath, keys));
      if out.Failure? {
        return Failure(FromRemote(out.error));
      }
      if out.value.invalid != [] {
        return Failure(ConfigNotFound);
      }
      var config := AddByBaseName(map[], out.value.found);
      assert map[] + BaseMap(out.value.found) == BaseMap(out.value.found);
      return Success(config);
    }

    method ReadKeys(servicePath: string, keys: seq<string>) returns (r: Result<map<string, string>, Error>)
      requires Valid()
      modifies ssm
      ensures Valid()
      ensures (r, ssm.remote) == ReadKeysRun(old(ssm.remote), ssm.faults, servicePath, keys)
    {
      if |keys| == 0 {
        return Success(map[]);
      }
      var batched := BatchKeysAsWritten(keys, MaxKeysPerRequest);
      if batched.None? {
        return Failure(IndexOutOfRange);
      }
      var batches := batched.value;
      var config: map<string, string> := map[];
      var b := 0;
      ThenEmpty(ReadBatchesRun(ssm.remote, ssm.faults, servicePath, batches));
      while b < |batches|
        invariant 0 <= b <= |batches|
        invariant Valid()
        invariant ReadKeysRun(old(ssm.remote), ssm.faults, servicePath, keys)
               == Then(config, ReadBatchesRun(ssm.remote, ssm.faults, servicePath, batches[b..]))
      {
        assert batches[b..][1..] == batches[b + 1..];
        var batchConfig := ReadBatch(servicePath, batches[b]);
        if batchConfig.Failure? {
          return Failure(batchConfig.error);
        }
        ThenThen(config, batchConfig.value, ReadBatchesRun(ssm.remote, ssm.faults, servicePath, batches[b + 1..]));
        config := config + batchConfig.value;
        b := b + 1;
      }
      assert config + map[] == config;
      return Success(config);
    }

    method Read(servicePath: string, key: string) returns (r: Result<string, Error>)
      requires Valid()
      modifies ssm
      ensures Valid()
      ensures (r, ssm.remote) == ReadRun(old(ssm.remote), ssm.faults, servicePath, key)
    {
      var config := ReadKeys(servicePath, [key]);
      if config.Failure? {
        return Failure(config.error);
      }
      return Success(Lookup(config.value, key));
    }

    /** ReadAll: GetParametersByPath page after page, ten entries a page. */
    method ReadAll(servicePath: string) returns (r: Result<map<string, string>, Error>)
      requires Valid()
      modifies ssm
      ensures Valid()
      ensures (r, ssm.remote) == ReadAllRun(old(ssm.remote), ssm.faults, servicePath)
    {
      var config: map<string, string> := map[];
      var page: nat := 0;
      var more := true;
      ghost var listing := Listing(ssm.remote.store, servicePath);
      ThenEmpty(ReadPagesRun(ssm.remote, ssm.faults, servicePath, 0));
      while more
        invariant Valid()
        invariant ssm.remote.store == old(ssm.remote).store
        invariant more ==> page * MaxKeysPerRequest <= |listing|
        invariant more ==> (ReadAllRun(old(ssm.remote), ssm.faults, servicePath)
                            == Then(config, ReadPagesRun(ssm.remote, ssm.faults, servicePath, page)))
        invariant !more ==> ReadAllRun(old(ssm.remote), ssm.faults, servicePath) == (Success(config), ssm.remote)
        decreases |listing| + (if more then 1 else 0) - page * MaxKeysPerRequest
      {
        ghost var before := ssm.remote;
        var out := ssm.GetParametersByPath(servicePath, MaxKeysPerRequest, Token(page));
        ReadPageUnfold(before, ssm.faults, servicePath, page, out, ssm.remote);
        if out.Failure? {
          return Failure(FromRemote(out.error));
        }
        var items := out.value.items;
        ghost var prefix := config;
        config := AddByBaseName(config, items);
        if out.value.next.None? {
          more := false;
        } else {
          ThenThen(prefix, BaseMap(items), ReadPagesRun(ssm.remote, ssm.faults, servicePath, page + 1));
          page := page + 1;
        }
      }
      return Success(config);
    }

    /** Write: the value is put only when it differs from what Read finds. */
    method Write(servicePath: string, key: string, value: string) returns (r: Result<(), Error>)
      requires Valid()
      modifies ssm
      ensures Valid()
      ensures (r, ssm.remote) == WriteRun(old(ssm.remote), ssm.faults, kmsKeyId, servicePath, key, value)
    {
      var cur := Read(servicePath, key);
      if cur.Failure? && !IsConfigNotFound(cur.error) {
        return Failure(cur.error);
      }
      var curValue := if cur.Success? then cur.value else "";
      if curValue == value {
        return Success(());
      }
      var put := ssm.PutParameter(ParameterPath(servicePath, key), value, kmsKeyId, "");
      if put.Failure? {
        return Failure(Service(put.error));
      }
      return Success(());
    }

    /** WriteKeys. The ghost results are the orders Go's map iteration
        chose: `keys` for the read, `writeOrder` for the writes. */
    method WriteKeys(ctx: Context, servicePath: string, config: map<string, string>)
      returns (r: Result<(), Error>, ghost keys: seq<string>, ghost writeOrder: seq<string>)
      requires Valid()
      modifies ssm, ctx
      ensures Valid()
      ensures Enumerates(keys, config) && Enumerates(writeOrder, config)
      ensures Outcome(r, ssm.remote, ctx.checks)
           == WriteKeysRun(old(ssm.remote), ssm.faults, ctx.cancelAt, old(ctx.checks), kmsKeyId, servicePath, config, keys, writeOrder)
    {
      var ks := Keys(config);
      keys, writeOrder := ks, ks;
      if |config| == 0 {
        return Success(()), keys, writeOrder;
      }
      var cur := ReadKeys(servicePath, ks);
      if cur.Failure? && !IsConfigNotFound(cur.error) {
        return Failure(cur.error), keys, writeOrder;
      }
      var current := if cur.Success? then cur.value else map[];
      assert current == Current(cur);
      var newValues := NewValues(config, current, ks);
      var order := Keys(newValues);
      EnumeratesSplit(order, ks, newValues, config);
      writeOrder := order + Outside(ks, newValues);
      WriteEachTail(ssm.remote, ssm.faults, ctx.cancelAt, ctx.checks, kmsKeyId, servicePath, newValues, order, Outside(ks, newValues));
      r := WriteChanged(ctx, servicePath, newValues, order);
    }

    /** The write loop of WriteKeys: before each write the context is asked
        whether it is done. */
    method WriteChanged(ctx: Context, servicePath: string, newValues: map<string, string>, order: seq<string>)
      returns (r: Result<(), Error>)
      requires Valid()
      requires forall i | 0 <= i < |order| :: order[i] in newValues
      modifies ssm, ctx
      ensures Valid()
      ensures Outcome(r, ssm.remote, ctx.checks)
           == WriteEachRun(old(ssm.remote), ssm.faults, ctx.cancelAt, old(ctx.checks), kmsKeyId, servicePath, newValues, order)
    {
      var j := 0;
      while j < |order|
        invariant 0 <= j <= |order|
        invariant Valid()
        invariant WriteEachRun(old(ssm.remote), ssm.faults, ctx.cancelAt, old(ctx.checks), kmsKeyId, servicePath, newValues, order)
               == WriteEachRun(ssm.remote, ssm.faults, ctx.cancelAt, ctx.checks, kmsKeyId, servicePath, newValues, order[j..])
      {
        assert order[j..][0] == order[j] && order[j..][1..] == order[j + 1..];
        var done := ctx.Done();
        if done {
          return Failure(Canceled);
        }
        var w := Write(servicePath, order[j], newValues[order[j]]);
        if w.Failure? {
          return w;
        }
        j := j + 1;
      }
      return Success(());
    }

    /** deleteKeys: names the service does not know are not an error. */
    method DeleteBatch(servicePath: string, keys: seq<string>) returns (r: Result<(), Error>)
      requires Valid()
      modifies ssm
      ensures Valid()
      ensures (r, ssm.remote) == DeleteBatchRun(old(ssm.remote), ssm.faults, servicePath, keys)
    {
      if |keys| == 0 {
        return Success(());
      }
      if |keys| > MaxKeysPerRequest {
        return Failure(TooManyKeys);
      }
      var out := ssm.DeleteParameters(ParameterNames(servicePath, keys));
      if out.Failure? {
        return Failure(Service(out.error));
      }
      return Success(());
    }

    method DeleteKeys(servicePath: string, keys: seq<string>) returns (r: Result<(), Error>)
      requires Valid()
      modifies ssm
      ensures Valid()
      ensures (r, ssm.remote) == DeleteKeysRun(old(ssm.remote), ssm.faults, servicePath, keys)
    {
      if |keys| == 0 {
        return Success(());
      }
      var batched := BatchKeysAsWritten(keys, MaxKeysPerRequest);
      if batched.None? {
        return Failure(IndexOutOfRange);
      }
      var batches := batched.value;
      var b := 0;
      while b < |batches|
        invariant 0 <= b <= |batches|
        invariant Valid()
        invariant DeleteKeysRun(old(ssm.remote), ssm.faults, servicePath, keys)
               == DeleteBatchesRun(ssm.remote, ssm.faults, servicePath, batches[b..])
      {
        assert batches[b..][1..] == batches[b + 1..];
        var err := DeleteBatch(servicePath, batches[b]);
        if err.Failure? {
          return err;
        }
        b := b + 1;
      }
      return Success(());
    }

    method Delete(servicePath: string, key: string) returns (r: Result<(), Error>)
      requires Valid()
      modifies ssm
      ensures Valid()
      ensures (r, ssm.remote) == DeleteRun(old(ssm.remote), ssm.faults, servicePath, key)
    {
      r := DeleteBatch(servicePath, [key]);
    }

    /** ReadAllMetadata with readAllKeyMetadata: ReadAll, then the describe
        pages, then one record per described parameter. */
    method ReadAllMetadata(servicePath: string) returns (r: Result<seq<KeyMetadata>, Error>)
      requires Valid()
      modifies ssm
      ensures Valid()
      ensures (r, ssm.remote) == ReadAllMetadataRun(old(ssm.remote), ssm.faults, ssm.describePageSize, servicePath)
    {
      var config := ReadAll(servicePath);
      if config.Failure? {
        return Failure(config.error);
      }
      ghost var afterRead := ssm.remote;
      var described := DescribeAllPages(servicePath);
      if described.Failure? {
        return Failure(described.error);
      }
      var records := MetadataRecords(config.value, described.value);
      return Success(records);
    }

    /** The describe paginator of readAllKeyMetadata. */
    method DescribeAllPages(servicePath: string) returns (r: Result<seq<ParameterMetadata>, Error>)
      requires Valid()
      modifies ssm
      ensures Valid()
      ensures (r, ssm.remote) == DescribePagesRun(old(ssm.remote), ssm.faults, ssm.describePageSize, servicePath, 0)
    {
      var described: seq<ParameterMetadata> := [];
      var page: nat := 0;
      var more := true;
      var size := ssm.describePageSize;
      ghost var ds := Descriptions(ssm.remote.store, servicePath);
      PrependEmpty(DescribePagesRun(ssm.remote, ssm.faults, size, servicePath, 0));
      while more
        invariant Valid()
        invariant ssm.remote.store == old(ssm.remote).store
        invariant more ==> page * size <= |ds|
        invariant more ==> (DescribePagesRun(old(ssm.remote), ssm.faults, size, servicePath, 0)
                            == Prepend(described, DescribePagesRun(ssm.remote, ssm.faults, size, servicePath, page)))
        invariant !more ==> DescribePagesRun(old(ssm.remote), ssm.faults, size, servicePath, 0) == (Success(described), ssm.remote)
        decreases |ds| + (if more then 1 else 0) - page * size
      {
        var out := ssm.DescribeParameters(servicePath, Token(page));
        if out.Failure? {
          return Failure(FromRemote(out.error));
        }
        ghost var prefix := described;
        described := described + out.value.items;
        if out.value.next.None? {
          more := false;
        } else {
          assert (page + 1) * size == page * size + size;
          PrependPrepend(prefix, out.value.items, DescribePagesRun(ssm.remote, ssm.faults, size, servicePath, page + 1));
          page := page + 1;
        }
      }
      return Success(described);
    }
  }
}
