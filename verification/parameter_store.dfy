/** The Parameter Store adapter: configuration of a service path kept as
    one remote parameter per key, named `path.Join(servicePath, key)`.

    Every operation that talks to the service is a method of the class
    ParameterStore and is proved against a function of the remote state
    before the call (the `...Run` functions below); what those functions
    mean for the stored configuration is proved as lemmas. */
module ParameterStoreSpec {
  import opened Wrappers
  import opened Strings
  import opened Paths
  import opened Maps
  import opened Ssm
  import opened Storage
  import opened Contexts

  /** The most names the service accepts in one request. */
  const MaxKeysPerRequest: nat := 10

  const KmsKeyAliasPrefix: string := "alias/"

  /** The key id New stores: the alias with "alias/" put in front unless
      it is already there. */
  function KmsKeyId(alias: string): (id: string)
    ensures HasPrefix(id, KmsKeyAliasPrefix)
    ensures |alias| <= |id| && id[|id| - |alias|..] == alias
  {
    if HasPrefix(alias, KmsKeyAliasPrefix) then alias else KmsKeyAliasPrefix + alias
  }

  /** The metadata fields a record read with ReadAllMetadata carries. */
  const RecordMetadataFields: set<string> :=
    {"description", "version", "parameter_type", "last_modified_date", "last_modified_user", "tier"}

  /** MetadataKeys: the metadata fields worth listing, each once, all of
      them fields every metadata record carries. */
  function MetadataKeys(): (keys: seq<string>)
    ensures |keys| == 3 && Distinct(keys)
    ensures forall i | 0 <= i < |keys| :: keys[i] in RecordMetadataFields
  {
    ["version", "last_modified_date", "last_modified_user"]
  }

  /** A stored key id is left alone by a second pass. */
  lemma KmsKeyIdIdempotent(alias: string)
    ensures KmsKeyId(KmsKeyId(alias)) == KmsKeyId(alias)
  {
  }

  /** parameterPath: the full name of a key's parameter. */
  function ParameterPath(servicePath: string, key: string): string {
    Join(servicePath, key)
  }

  /** keysToParameterNames. */
  function ParameterNames(servicePath: string, keys: seq<string>): (names: seq<string>)
    ensures |names| == |keys|
  {
    seq(|keys|, i requires 0 <= i < |keys| => ParameterPath(servicePath, keys[i]))
  }

  /** The configuration a sequence of (name, value) pairs spells: each pair
      sets its name's base name to its value, a later pair winning. */
  function BaseMap(pairs: seq<(string, string)>): map<string, string> {
    if pairs == [] then map[]
    else map[Base(pairs[0].0) := pairs[0].1] + BaseMap(pairs[1..])
  }

  /** What a read of `key` below `servicePath` finds: the stored value,
      or "" when there is none. */
  function StoredValue(s: Store, servicePath: string, key: string): string {
    var name := ParameterPath(servicePath, key);
    if name in s.parameters then s.parameters[name].value else ""
  }

  /** The keys below a service path that have a parameter. */
  function StoredKeys(s: Store, servicePath: string): set<string> {
    set n | n in s.parameters && IsChild(n, servicePath) :: Base(n)
  }

  /** The configuration stored below a service path, by key. */
  function Config(s: Store, servicePath: string): map<string, string> {
    map k | k in StoredKeys(s, servicePath) :: StoredValue(s, servicePath, k)
  }

  /** The requested keys that have a parameter, with their values. */
  function KeyValues(s: Store, servicePath: string, keys: seq<string>): map<string, string> {
    map k | k in keys && ParameterPath(servicePath, k) in s.parameters :: StoredValue(s, servicePath, k)
  }

  /** The batches batchKeys is evidently meant to build: consecutive runs
      of `size` keys, the last one shorter. ReadKeys and DeleteKeys use
      batchKeys as written instead (BatchKeys below). */
  function Chunks(keys: seq<string>, size: nat): (batches: seq<seq<string>>)
    requires size > 0
    ensures |batches| >= 1
    ensures forall i | 0 <= i < |batches| :: |batches[i]| <= size
    ensures keys != [] ==> forall i | 0 <= i < |batches| :: batches[i] != []
    decreases |keys|
  {
    if |keys| <= size then [keys] else [keys[..size]] + Chunks(keys[size..], size)
  }

  function Flatten(batches: seq<seq<string>>): seq<string> {
    if batches == [] then [] else batches[0] + Flatten(batches[1..])
  }

  /** Chunks keeps every key, in order. */
  lemma {:induction false} ChunksCover(keys: seq<string>, size: nat)
    requires size > 0
    ensures Flatten(Chunks(keys, size)) == keys
    decreases |keys|
  {
    if |keys| > size {
      ChunksCover(keys[size..], size);
      assert keys == keys[..size] + keys[size..];
    } else {
      assert Chunks(keys, size)[1..] == [];
    }
  }

  // -------------------------------------------------------------- reading

  /** Then(acc, run): the run's configuration on top of `acc`, or its error. */
  function Then(acc: map<string, string>, run: (Result<map<string, string>, Error>, Remote)): (Result<map<string, string>, Error>, Remote) {
    (if run.0.Failure? then run.0 else Success(acc + run.0.value), run.1)
  }

  /** readKeys: at most ten keys in one GetParameters call; one name the
      service does not know fails the whole batch. */
  function BatchReadRun(rm: Remote, faults: map<nat, ApiError>, servicePath: string, keys: seq<string>)
    : (Result<map<string, string>, Error>, Remote)
  {
    if |keys| > MaxKeysPerRequest then (Failure(TooManyKeys), rm)
    else
      var (out, next) := GetStep(rm, faults, ParameterNames(servicePath, keys));
      match out
      case Failure(e) => (Failure(FromRemote(e)), next)
      case Success(o) => (if o.invalid != [] then Failure(ConfigNotFound) else Success(BaseMap(o.found)), next)
  }

  /** The batches of ReadKeys, one after the other, stopping at the first error. */
  function ReadBatchesRun(rm: Remote, faults: map<nat, ApiError>, servicePath: string, batches: seq<seq<string>>)
    : (Result<map<string, string>, Error>, Remote)
    decreases |batches|
  {
    if batches == [] then (Success(map[]), rm)
    else
      var first := BatchReadRun(rm, faults, servicePath, batches[0]);
      if first.0.Failure? then first
      else Then(first.0.value, ReadBatchesRun(first.1, faults, servicePath, batches[1..]))
  }

  /** ReadKeys: no call for no keys; otherwise the batches of batchKeys,
      whose panic ends the read before any call. */
  function ReadKeysRun(rm: Remote, faults: map<nat, ApiError>, servicePath: string, keys: seq<string>)
    : (Result<map<string, string>, Error>, Remote)
  {
    if keys == [] then (Success(map[]), rm)
    else match BatchKeys(keys, MaxKeysPerRequest)
      case None => (Failure(IndexOutOfRange), rm)
      case Some(batches) => ReadBatchesRun(rm, faults, servicePath, batches)
  }

  /** Read: the key's entry of a one-key ReadKeys. */
  function ReadRun(rm: Remote, faults: map<nat, ApiError>, servicePath: string, key: string)
    : (Result<string, Error>, Remote)
  {
    var (r, next) := ReadKeysRun(rm, faults, servicePath, [key]);
    (if r.Failure? then Failure(r.error) else Success(Lookup(r.value, key)), next)
  }

  /** The entries ReadAll finds below a service path, in listing order. */
  function Listing(s: Store, servicePath: string): seq<(string, string)> {
    Found(s.parameters, Children(s.order, servicePath))
  }

  function Token(page: nat): Option<nat> {
    if page == 0 then None else Some(page)
  }

  /** ReadAll from page `page` on: each page's entries by base name, until a
      page comes without a next token. */
  function ReadPagesRun(rm: Remote, faults: map<nat, ApiError>, servicePath: string, page: nat)
    : (Result<map<string, string>, Error>, Remote)
    decreases |Listing(rm.store, servicePath)| - page * MaxKeysPerRequest
  {
    var (out, next) := ByPathStep(rm, faults, servicePath, MaxKeysPerRequest, Token(page));
    match out
    case Failure(e) => (Failure(FromRemote(e)), next)
    case Success(p) =>
      if p.next.None? then (Success(BaseMap(p.items)), next)
      else
        assert next.store == rm.store;
        Then(BaseMap(p.items), ReadPagesRun(next, faults, servicePath, page + 1))
  }

  /** ReadAll. */
  function ReadAllRun(rm: Remote, faults: map<nat, ApiError>, servicePath: string)
    : (Result<map<string, string>, Error>, Remote)
  {
    ReadPagesRun(rm, faults, servicePath, 0)
  }

  // ---------------------------------------------------------- read lemmas

  lemma UnionAssociative(a: map<string, string>, b: map<string, string>, c: map<string, string>)
    ensures a + (b + c) == (a + b) + c
  {
  }

  lemma ThenThen(a: map<string, string>, b: map<string, string>, run: (Result<map<string, string>, Error>, Remote))
    ensures Then(a, Then(b, run)) == Then(a + b, run)
  {
    if run.0.Success? {
      UnionAssociative(a, b, run.0.value);
    }
  }

  lemma {:induction false} BaseMapAppend(p: seq<(string, string)>, q: seq<(string, string)>)
    ensures BaseMap(p + q) == BaseMap(p) + BaseMap(q)
    decreases |p|
  {
    if p == [] {
      assert p + q == q;
    } else {
      var pq := p + q;
      assert pq[0] == p[0];
      assert pq[1..] == p[1..] + q;
      BaseMapAppend(p[1..], q);
      var head := map[Base(p[0].0) := p[0].1];
      calc {
        BaseMap(pq);
        head + BaseMap(pq[1..]);
        head + (BaseMap(p[1..]) + BaseMap(q));
        { UnionAssociative(head, BaseMap(p[1..]), BaseMap(q)); }
        (head + BaseMap(p[1..])) + BaseMap(q);
      }
    }
  }

  /** Adding one more pair to a list sets its base name last. */
  lemma BaseMapSnoc(pairs: seq<(string, string)>, m: map<string, string>, pair: (string, string))
    ensures m + BaseMap(pairs + [pair]) == (m + BaseMap(pairs))[Base(pair.0) := pair.1]
  {
    var single := map[Base(pair.0) := pair.1];
    assert BaseMap(pairs + [pair]) == BaseMap(pairs) + single by {
      BaseMapAppend(pairs, [pair]);
      assert [pair][1..] == [];
      assert BaseMap([pair]) == single;
    }
    UnionAssociative(m, BaseMap(pairs), single);
    UnionSingle(m + BaseMap(pairs), Base(pair.0), pair.1);
  }

  lemma UnionSingle(a: map<string, string>, k: string, v: string)
    ensures a + map[k := v] == a[k := v]
  {
  }

  lemma ThenEmpty(run: (Result<map<string, string>, Error>, Remote))
    ensures Then(map[], run) == run
  {
    if run.0.Success? {
      assert map[] + run.0.value == run.0.value;
    }
  }

  lemma {:induction false} FoundAppend(ps: map<string, Parameter>, a: seq<string>, b: seq<string>)
    ensures Found(ps, a + b) == Found(ps, a) + Found(ps, b)
    decreases |a|
  {
    if a == [] {
      assert a + b == b;
    } else {
      assert (a + b)[1..] == a[1..] + b;
      FoundAppend(ps, a[1..], b);
    }
  }

  lemma ParameterNamesAppend(servicePath: string, a: seq<string>, b: seq<string>)
    ensures ParameterNames(servicePath, a + b) == ParameterNames(servicePath, a) + ParameterNames(servicePath, b)
  {
  }

  /** Reads never change the stored parameters. */
  lemma {:induction false} ReadBatchesKeepStore(rm: Remote, faults: map<nat, ApiError>, servicePath: string, batches: seq<seq<string>>)
    ensures ReadBatchesRun(rm, faults, servicePath, batches).1.store == rm.store
    ensures rm.log <= ReadBatchesRun(rm, faults, servicePath, batches).1.log
    decreases |batches|
  {
    if batches != [] {
      var first := BatchReadRun(rm, faults, servicePath, batches[0]);
      if first.0.Success? {
        ReadBatchesKeepStore(first.1, faults, servicePath, batches[1..]);
      }
    }
  }

  /** One batch whose names all exist, with no fault: its configuration. */
  lemma BatchReadFound(rm: Remote, faults: map<nat, ApiError>, servicePath: string, keys: seq<string>)
    requires |rm.log| !in faults && |keys| <= MaxKeysPerRequest
    requires forall i | 0 <= i < |keys| :: ParameterPath(servicePath, keys[i]) in rm.store.parameters
    ensures BatchReadRun(rm, faults, servicePath, keys)
         == (Success(BaseMap(Found(rm.store.parameters, ParameterNames(servicePath, keys)))),
             Remote(rm.store, rm.log + [GetCall(ParameterNames(servicePath, keys))]))
  {
    var names := ParameterNames(servicePath, keys);
    assert forall i | 0 <= i < |names| :: names[i] == ParameterPath(servicePath, keys[i]);
    assert Missing(rm.store.parameters, names) == [];
  }

  /** With no faults, batch by batch reading of names that all exist reads
      the same configuration as one unbatched lookup would. */
  lemma {:induction false} ReadBatchesFound(rm: Remote, faults: map<nat, ApiError>, servicePath: string, batches: seq<seq<string>>)
    requires forall k | |rm.log| <= k < |rm.log| + |batches| :: k !in faults
    requires forall i | 0 <= i < |batches| :: |batches[i]| <= MaxKeysPerRequest
    requires forall i | 0 <= i < |Flatten(batches)| :: ParameterPath(servicePath, Flatten(batches)[i]) in rm.store.parameters
    ensures ReadBatchesRun(rm, faults, servicePath, batches).0
         == Success(BaseMap(Found(rm.store.parameters, ParameterNames(servicePath, Flatten(batches)))))
    decreases |batches|
  {
    var ps := rm.store.parameters;
    if batches != [] {
      var b := batches[0];
      var rest := batches[1..];
      var all := Flatten(batches);
      assert all == b + Flatten(rest);
      forall i | 0 <= i < |b|
        ensures ParameterPath(servicePath, b[i]) in ps
      {
        assert all[i] == b[i];
      }
      var next := Remote(rm.store, rm.log + [GetCall(ParameterNames(servicePath, b))]);
      forall i | 0 <= i < |Flatten(rest)|
        ensures ParameterPath(servicePath, Flatten(rest)[i]) in next.store.parameters
      {
        assert Flatten(rest)[i] == all[|b| + i];
      }
      ReadBatchesFound(next, faults, servicePath, rest);
      BatchesFoundStep(rm, faults, servicePath, batches);
    }
  }

  /** One batch whose names all exist, followed by what the later batches read. */
  lemma BatchesFoundStep(rm: Remote, faults: map<nat, ApiError>, servicePath: string, batches: seq<seq<string>>)
    requires batches != [] && |rm.log| !in faults && |batches[0]| <= MaxKeysPerRequest
    requires forall i | 0 <= i < |batches[0]| :: ParameterPath(servicePath, batches[0][i]) in rm.store.parameters
    requires var next := Remote(rm.store, rm.log + [GetCall(ParameterNames(servicePath, batches[0]))]);
      ReadBatchesRun(next, faults, servicePath, batches[1..]).0
        == Success(BaseMap(Found(rm.store.parameters, ParameterNames(servicePath, Flatten(batches[1..])))))
    ensures ReadBatchesRun(rm, faults, servicePath, batches).0
         == Success(BaseMap(Found(rm.store.parameters, ParameterNames(servicePath, Flatten(batches)))))
  {
    var ps := rm.store.parameters;
    var b := batches[0];
    var rest := Flatten(batches[1..]);
    BatchReadFound(rm, faults, servicePath, b);
    assert Flatten(batches) == b + rest;
    ParameterNamesAppend(servicePath, b, rest);
    FoundAppend(ps, ParameterNames(servicePath, b), ParameterNames(servicePath, rest));
    BaseMapAppend(Found(ps, ParameterNames(servicePath, b)), Found(ps, ParameterNames(servicePath, rest)));
  }

  /** KeyValues, one key at a time from the front. */
  lemma KeyValuesCons(s: Store, servicePath: string, k: string, keys: seq<string>)
    ensures KeyValues(s, servicePath, [k] + keys)
         == (if ParameterPath(servicePath, k) in s.parameters then map[k := StoredValue(s, servicePath, k)] else map[])
            + KeyValues(s, servicePath, keys)
  {
    var lhs := KeyValues(s, servicePath, [k] + keys);
    var rhs := (if ParameterPath(servicePath, k) in s.parameters then map[k := StoredValue(s, servicePath, k)] else map[])
            + KeyValues(s, servicePath, keys);
    assert forall j :: j in [k] + keys <==> j == k || j in keys;
    assert lhs.Keys == rhs.Keys;
  }

  /** Found on a list of names, one name at a time from the front. */
  lemma BaseMapFoundCons(ps: map<string, Parameter>, name: string, names: seq<string>)
    ensures BaseMap(Found(ps, [name] + names))
         == (if name in ps then map[Base(name) := ps[name].value] else map[]) + BaseMap(Found(ps, names))
  {
    var all := [name] + names;
    assert all[0] == name && all[1..] == names;
    if name in ps {
      var head := [(name, ps[name].value)];
      assert Found(ps, all) == head + Found(ps, names);
      BaseMapAppend(head, Found(ps, names));
      assert head[1..] == [];
    } else {
      assert Found(ps, all) == Found(ps, names);
    }
  }

  /** Below a service path, the base names of plain keys' parameters are the
      keys themselves. */
  lemma {:induction false} BaseMapOfKeys(s: Store, servicePath: string, keys: seq<string>)
    requires IsServicePath(servicePath)
    requires forall i | 0 <= i < |keys| :: IsElement(keys[i])
    ensures BaseMap(Found(s.parameters, ParameterNames(servicePath, keys))) == KeyValues(s, servicePath, keys)
    decreases |keys|
  {
    if keys != [] {
      var k := keys[0];
      assert keys == [k] + keys[1..];
      var names := ParameterNames(servicePath, keys);
      assert names == [ParameterPath(servicePath, k)] + ParameterNames(servicePath, keys[1..]);
      BaseMapOfKeys(s, servicePath, keys[1..]);
      JoinedKeyIsChild(servicePath, k);
      BaseMapFoundCons(s.parameters, ParameterPath(servicePath, k), ParameterNames(servicePath, keys[1..]));
      KeyValuesCons(s, servicePath, k, keys[1..]);
    }
  }

  /** ReadKeys of fewer than ten keys, when its call succeeds and every key
      has a parameter, returns each key with its stored value. */
  lemma ReadKeysValues(rm: Remote, faults: map<nat, ApiError>, servicePath: string, keys: seq<string>)
    requires IsServicePath(servicePath) && |keys| < MaxKeysPerRequest
    requires forall i | 0 <= i < |keys| :: IsElement(keys[i]) && ParameterPath(servicePath, keys[i]) in rm.store.parameters
    requires |rm.log| !in faults
    ensures ReadKeysRun(rm, faults, servicePath, keys).0 == Success(KeyValues(rm.store, servicePath, keys))
    ensures forall k | k in keys :: k in KeyValues(rm.store, servicePath, keys)
  {
    if keys != [] {
      ReadBatchesFound(rm, faults, servicePath, [keys]);
      BaseMapOfKeys(rm.store, servicePath, keys);
    }
  }

  /** With the intended batches, when every call succeeds and every key has
      a parameter, reading returns each key with its stored value however
      many keys there are. */
  lemma ChunkedReadValues(rm: Remote, faults: map<nat, ApiError>, servicePath: string, keys: seq<string>)
    requires IsServicePath(servicePath)
    requires forall i | 0 <= i < |keys| :: IsElement(keys[i]) && ParameterPath(servicePath, keys[i]) in rm.store.parameters
    requires forall k | |rm.log| <= k < |rm.log| + |Chunks(keys, MaxKeysPerRequest)| :: k !in faults
    ensures ReadBatchesRun(rm, faults, servicePath, Chunks(keys, MaxKeysPerRequest)).0
         == Success(KeyValues(rm.store, servicePath, keys))
  {
    ChunksCover(keys, MaxKeysPerRequest);
    ReadBatchesFound(rm, faults, servicePath, Chunks(keys, MaxKeysPerRequest));
    BaseMapOfKeys(rm.store, servicePath, keys);
  }

  /** The base names of a list of names. */
  function Bases(names: seq<string>): (keys: seq<string>)
    ensures |keys| == |names|
  {
    seq(|names|, i requires 0 <= i < |names| => Base(names[i]))
  }

  /** One page of ReadAll, when its call does not fail. */
  lemma PageStep(rm: Remote, faults: map<nat, ApiError>, servicePath: string, page: nat)
    requires |rm.log| !in faults
    ensures var listing := Listing(rm.store, servicePath);
      var start := Min(page * MaxKeysPerRequest, |listing|);
      var end := Min(start + MaxKeysPerRequest, |listing|);
      var next := Remote(rm.store, rm.log + [ByPathCall(servicePath, MaxKeysPerRequest, Token(page))]);
      ReadPagesRun(rm, faults, servicePath, page)
        == if end < |listing| then Then(BaseMap(listing[start..end]), ReadPagesRun(next, faults, servicePath, page + 1))
           else (Success(BaseMap(listing[start..end])), next)
  {
    var listing := Listing(rm.store, servicePath);
    assert FaultAt(faults, |rm.log|) == None;
    assert Token(page).GetOr(0) == page;
    assert ByPathStep(rm, faults, servicePath, MaxKeysPerRequest, Token(page)).0
      == Success(PageOf(listing, MaxKeysPerRequest, Token(page)));
  }

  /** One ByPath call of ReadAll, in the terms a caller that made the call sees. */
  lemma ReadPageUnfold(rm: Remote, faults: map<nat, ApiError>, servicePath: string, page: nat,
                       out: Result<Page<(string, string)>, ApiError>, next: Remote)
    requires (out, next) == ByPathStep(rm, faults, servicePath, MaxKeysPerRequest, Token(page))
    ensures next == Remote(rm.store, rm.log + [ByPathCall(servicePath, MaxKeysPerRequest, Token(page))])
    ensures out.Failure? ==> ReadPagesRun(rm, faults, servicePath, page) == (Failure(FromRemote(out.error)), next)
    ensures out.Success? && out.value.next.None? ==>
      ReadPagesRun(rm, faults, servicePath, page) == (Success(BaseMap(out.value.items)), next)
    ensures out.Success? && out.value.next.Some? ==>
      next.store == rm.store
      && (page + 1) * MaxKeysPerRequest < |Listing(rm.store, servicePath)|
      && ReadPagesRun(rm, faults, servicePath, page)
         == Then(BaseMap(out.value.items), ReadPagesRun(next, faults, servicePath, page + 1))
  {
    if out.Success? {
      var listing := Listing(rm.store, servicePath);
      assert FaultAt(faults, |rm.log|) == None;
      assert out.value == PageOf(listing, MaxKeysPerRequest, Token(page));
      if out.value.next.Some? {
        assert Token(page).GetOr(0) == page;
        assert Min(page * MaxKeysPerRequest, |listing|) == page * MaxKeysPerRequest;
        assert (page + 1) * MaxKeysPerRequest == page * MaxKeysPerRequest + MaxKeysPerRequest;
      }
    }
  }

  lemma BaseMapSuffix(pairs: seq<(string, string)>, i: nat, j: nat)
    requires i <= j <= |pairs|
    ensures BaseMap(pairs[i..]) == BaseMap(pairs[i..j]) + BaseMap(pairs[j..])
  {
    assert pairs[i..] == pairs[i..j] + pairs[j..];
    BaseMapAppend(pairs[i..j], pairs[j..]);
  }

  /** Where one ByPath call of ReadAll leaves the remote. */
  lemma ReadPageRemote(rm: Remote, faults: map<nat, ApiError>, servicePath: string, page: nat,
                       out: Result<Page<(string, string)>, ApiError>, next: Remote)
    requires (out, next) == ByPathStep(rm, faults, servicePath, MaxKeysPerRequest, Token(page))
    ensures next.store == rm.store && rm.log < next.log
    ensures out.Success? && out.value.next.Some? ==>
      (page + 1) * MaxKeysPerRequest < |Listing(rm.store, servicePath)|
      && ReadPagesRun(rm, faults, servicePath, page).1 == ReadPagesRun(next, faults, servicePath, page + 1).1
    ensures !(out.Success? && out.value.next.Some?) ==> ReadPagesRun(rm, faults, servicePath, page).1 == next
  {
    ReadPageUnfold(rm, faults, servicePath, page, out, next);
  }

  /** ReadAll never changes the stored parameters, and makes at least one call. */
  lemma {:induction false} ReadPagesKeepStore(rm: Remote, faults: map<nat, ApiError>, servicePath: string, page: nat)
    ensures ReadPagesRun(rm, faults, servicePath, page).1.store == rm.store
    ensures rm.log < ReadPagesRun(rm, faults, servicePath, page).1.log
    decreases |Listing(rm.store, servicePath)| - page * MaxKeysPerRequest
  {
    var step := ByPathStep(rm, faults, servicePath, MaxKeysPerRequest, Token(page));
    ReadPageRemote(rm, faults, servicePath, page, step.0, step.1);
    if step.0.Success? && step.0.value.next.Some? {
      ReadPagesKeepStore(step.1, faults, servicePath, page + 1);
    }
  }

  /** From page `page` on, ReadAll with no faults reads the rest of the listing. */
  lemma {:induction false} ReadPagesAll(rm: Remote, faults: map<nat, ApiError>, servicePath: string, page: nat)
    requires NoFaultsFrom(faults, |rm.log|)
    ensures var listing := Listing(rm.store, servicePath);
      ReadPagesRun(rm, faults, servicePath, page).0
        == Success(BaseMap(listing[Min(page * MaxKeysPerRequest, |listing|)..]))
    decreases |Listing(rm.store, servicePath)| - page * MaxKeysPerRequest
  {
    var listing := Listing(rm.store, servicePath);
    var next := Remote(rm.store, rm.log + [ByPathCall(servicePath, MaxKeysPerRequest, Token(page))]);
    if (page + 1) * MaxKeysPerRequest < |listing| {
      ReadPagesAll(next, faults, servicePath, page + 1);
    }
    PagesFrom(rm, faults, servicePath, page);
  }

  /** One page of ReadAll with no fault, followed by what the later pages read. */
  lemma PagesFrom(rm: Remote, faults: map<nat, ApiError>, servicePath: string, page: nat)
    requires |rm.log| !in faults
    requires var listing := Listing(rm.store, servicePath);
      var next := Remote(rm.store, rm.log + [ByPathCall(servicePath, MaxKeysPerRequest, Token(page))]);
      (page + 1) * MaxKeysPerRequest < |listing| ==>
        ReadPagesRun(next, faults, servicePath, page + 1).0
          == Success(BaseMap(listing[(page + 1) * MaxKeysPerRequest..]))
    ensures var listing := Listing(rm.store, servicePath);
      ReadPagesRun(rm, faults, servicePath, page).0
        == Success(BaseMap(listing[Min(page * MaxKeysPerRequest, |listing|)..]))
  {
    var listing := Listing(rm.store, servicePath);
    var first := page * MaxKeysPerRequest;
    var start := Min(first, |listing|);
    var end := Min(start + MaxKeysPerRequest, |listing|);
    var next := Remote(rm.store, rm.log + [ByPathCall(servicePath, MaxKeysPerRequest, Token(page))]);
    var tail := ReadPagesRun(next, faults, servicePath, page + 1);
    if end < |listing| {
      assert ReadPagesRun(rm, faults, servicePath, page).0 == Then(BaseMap(listing[start..end]), tail).0 by {
        PageStep(rm, faults, servicePath, page);
      }
      assert end == (page + 1) * MaxKeysPerRequest by {
        assert (page + 1) * MaxKeysPerRequest == first + MaxKeysPerRequest;
      }
      ThenSuffix(listing, start, end, tail);
    } else {
      assert ReadPagesRun(rm, faults, servicePath, page).0 == Success(BaseMap(listing[start..end])) by {
        PageStep(rm, faults, servicePath, page);
      }
      assert listing[start..] == listing[start..end];
    }
  }

  /** A page followed by the pages after it reads the listing from the page on. */
  lemma ThenSuffix(listing: seq<(string, string)>, start: nat, end: nat, tail: (Result<map<string, string>, Error>, Remote))
    requires start <= end <= |listing| && tail.0 == Success(BaseMap(listing[end..]))
    ensures Then(BaseMap(listing[start..end]), tail).0 == Success(BaseMap(listing[start..]))
  {
    BaseMapSuffix(listing, start, end);
  }

  /** Named by their base names, the entries below a service path are
      the parameter names of those base names. */
  lemma ChildrenKeys(servicePath: string, children: seq<string>)
    requires IsServicePath(servicePath)
    requires forall i | 0 <= i < |children| :: IsChild(children[i], servicePath)
    ensures forall i | 0 <= i < |children| :: IsElement(Bases(children)[i])
    ensures ParameterNames(servicePath, Bases(children)) == children
  {
    var keys := Bases(children);
    forall i | 0 <= i < |children|
      ensures IsElement(keys[i]) && ParameterPath(servicePath, keys[i]) == children[i]
    {
      ChildJoin(servicePath, children[i]);
    }
  }

  /** Every key of the listing is a stored key. */
  lemma ListedKeysStored(s: Store, servicePath: string, k: string)
    requires IsServicePath(servicePath)
    requires k in KeyValues(s, servicePath, Bases(Children(s.order, servicePath)))
    ensures k in StoredKeys(s, servicePath)
  {
    var children := Children(s.order, servicePath);
    var keys := Bases(children);
    var i :| 0 <= i < |keys| && keys[i] == k;
    var n := children[i];
    assert Base(n) == k && IsChild(n, servicePath);
    ChildJoin(servicePath, n);
    assert n in s.parameters;
  }

  /** Every stored key is a key of the listing. */
  lemma StoredKeysListed(s: Store, servicePath: string, k: string)
    requires Listed(s) && IsServicePath(servicePath)
    requires k in StoredKeys(s, servicePath)
    ensures k in KeyValues(s, servicePath, Bases(Children(s.order, servicePath)))
  {
    var children := Children(s.order, servicePath);
    var n :| n in s.parameters && IsChild(n, servicePath) && Base(n) == k;
    ChildrenExact(s.order, servicePath);
    BaseInBases(children, n);
    ChildJoin(servicePath, n);
    assert ParameterPath(servicePath, k) in s.parameters;
  }

  lemma BaseInBases(names: seq<string>, n: string)
    requires n in names
    ensures Base(n) in Bases(names)
  {
    var i :| 0 <= i < |names| && names[i] == n;
    assert Bases(names)[i] == Base(n);
  }

  /** The base names of the listing below a service path are its stored keys. */
  lemma ListingKeys(s: Store, servicePath: string)
    requires Listed(s) && IsServicePath(servicePath)
    ensures KeyValues(s, servicePath, Bases(Children(s.order, servicePath))).Keys == StoredKeys(s, servicePath)
  {
    var kv := KeyValues(s, servicePath, Bases(Children(s.order, servicePath)));
    forall k | k in kv
      ensures k in StoredKeys(s, servicePath)
    {
      ListedKeysStored(s, servicePath, k);
    }
    forall k | k in StoredKeys(s, servicePath)
      ensures k in kv
    {
      StoredKeysListed(s, servicePath, k);
    }
  }

  /** The listing below a service path, read by base name, is the
      configuration stored there. */
  lemma ListingConfig(s: Store, servicePath: string)
    requires Listed(s) && IsServicePath(servicePath)
    ensures BaseMap(Listing(s, servicePath)) == Config(s, servicePath)
  {
    var children := Children(s.order, servicePath);
    ChildrenKeys(servicePath, children);
    BaseMapOfKeys(s, servicePath, Bases(children));
    ListingKeys(s, servicePath);
  }

  /** ReadAll with no faults returns the configuration stored below the
      service path, and changes nothing. */
  lemma ReadAllConfig(rm: Remote, faults: map<nat, ApiError>, servicePath: string)
    requires Listed(rm.store) && IsServicePath(servicePath)
    requires NoFaultsFrom(faults, |rm.log|)
    ensures ReadAllRun(rm, faults, servicePath).0 == Success(Config(rm.store, servicePath))
    ensures ReadAllRun(rm, faults, servicePath).1.store == rm.store
    ensures rm.log < ReadAllRun(rm, faults, servicePath).1.log
  {
    ReadPagesAll(rm, faults, servicePath, 0);
    ReadPagesKeepStore(rm, faults, servicePath, 0);
    var listing := Listing(rm.store, servicePath);
    assert listing[0..] == listing;
    ListingConfig(rm.store, servicePath);
  }

  /** ReadKeys and Read never change the stored parameters; they only add
      calls to the log. */
  lemma ReadKeepsStore(rm: Remote, faults: map<nat, ApiError>, servicePath: string, keys: seq<string>)
    ensures ReadKeysRun(rm, faults, servicePath, keys).1.store == rm.store
    ensures rm.log <= ReadKeysRun(rm, faults, servicePath, keys).1.log
    ensures ReadRun(rm, faults, servicePath, keys[0]).1 == ReadKeysRun(rm, faults, servicePath, [keys[0]]).1 <== keys != []
  {
    if keys != [] && |keys| < MaxKeysPerRequest {
      ReadBatchesKeepStore(rm, faults, servicePath, [keys]);
    }
  }

  /** ReadKeys of a single key is a single batch. */
  lemma ReadKeysOne(rm: Remote, faults: map<nat, ApiError>, servicePath: string, key: string)
    ensures ReadKeysRun(rm, faults, servicePath, [key]) == BatchReadRun(rm, faults, servicePath, [key])
  {
    assert [[key]][1..] == [];
    var first := BatchReadRun(rm, faults, servicePath, [key]);
    assert ReadBatchesRun(first.1, faults, servicePath, []) == (Success(map[]), first.1);
    if first.0.Success? {
      assert first.0.value + map[] == first.0.value;
    }
  }

  /** With no fault, a read of one plain key finds its stored value, or
      reports that the configuration is not found. */
  lemma ReadOne(rm: Remote, faults: map<nat, ApiError>, servicePath: string, key: string)
    requires |rm.log| !in faults
    requires IsServicePath(servicePath) && IsElement(key)
    ensures var name := ParameterPath(servicePath, key);
      ReadRun(rm, faults, servicePath, key)
        == (if name in rm.store.parameters then Success(rm.store.parameters[name].value) else Failure(ConfigNotFound),
            Remote(rm.store, rm.log + [GetCall([name])]))
  {
    var name := ParameterPath(servicePath, key);
    var ps := rm.store.parameters;
    ReadKeysOne(rm, faults, servicePath, key);
    assert ParameterNames(servicePath, [key]) == [name];
    if name in ps {
      JoinedKeyIsChild(servicePath, key);
      BatchReadFound(rm, faults, servicePath, [key]);
      assert Found(ps, [name]) == [(name, ps[name].value)];
      assert BaseMap(Found(ps, [name])) == map[key := ps[name].value];
    } else {
      assert Missing(ps, [name]) == [name];
    }
  }

  /** A batch of at most ten keys makes exactly one call and keeps the store. */
  lemma BatchReadNext(rm: Remote, faults: map<nat, ApiError>, servicePath: string, keys: seq<string>)
    requires NoFaultsFrom(faults, |rm.log|) && |keys| <= MaxKeysPerRequest
    ensures var next := BatchReadRun(rm, faults, servicePath, keys).1;
      next.store == rm.store && |next.log| == |rm.log| + 1 && NoFaultsFrom(faults, |next.log|)
  {
  }

  /** One batch holding a name with no parameter fails, when its call succeeds. */
  lemma BatchReadMissing(rm: Remote, faults: map<nat, ApiError>, servicePath: string, keys: seq<string>, i: nat)
    requires |rm.log| !in faults && |keys| <= MaxKeysPerRequest
    requires i < |keys| && ParameterPath(servicePath, keys[i]) !in rm.store.parameters
    ensures BatchReadRun(rm, faults, servicePath, keys).0 == Failure(ConfigNotFound)
  {
    var names := ParameterNames(servicePath, keys);
    assert names[i] !in rm.store.parameters;
    assert Missing(rm.store.parameters, names) != [];
  }

  /** Batch by batch reading fails when some name has no parameter, and
      no call fails. */
  lemma {:induction false} ReadBatchesMissing(rm: Remote, faults: map<nat, ApiError>, servicePath: string, batches: seq<seq<string>>, i: nat)
    requires NoFaultsFrom(faults, |rm.log|)
    requires forall j | 0 <= j < |batches| :: |batches[j]| <= MaxKeysPerRequest
    requires i < |Flatten(batches)| && ParameterPath(servicePath, Flatten(batches)[i]) !in rm.store.parameters
    ensures ReadBatchesRun(rm, faults, servicePath, batches).0 == Failure(ConfigNotFound)
    decreases |batches|
  {
    var b := batches[0];
    var rest := batches[1..];
    var all := Flatten(batches);
    assert all == b + Flatten(rest);
    if i < |b| {
      assert all[i] == b[i];
      BatchReadMissing(rm, faults, servicePath, b, i);
    } else {
      var first := BatchReadRun(rm, faults, servicePath, b);
      if first.0.Success? {
        BatchReadNext(rm, faults, servicePath, b);
        var tail := ReadBatchesRun(first.1, faults, servicePath, rest);
        assert ReadBatchesRun(rm, faults, servicePath, batches) == Then(first.0.value, tail);
        assert Flatten(rest)[i - |b|] == all[i];
        ReadBatchesMissing(first.1, faults, servicePath, rest, i - |b|);
      }
    }
  }

  /** With no faults, ReadKeys of fewer than ten keys fails with
      ConfigNotFound exactly when one of the keys has no parameter, and
      otherwise returns every key. */
  lemma ReadKeysMissing(rm: Remote, faults: map<nat, ApiError>, servicePath: string, keys: seq<string>)
    requires NoFaultsFrom(faults, |rm.log|)
    requires IsServicePath(servicePath) && |keys| < MaxKeysPerRequest
    requires forall i | 0 <= i < |keys| :: IsElement(keys[i])
    ensures var r := ReadKeysRun(rm, faults, servicePath, keys).0;
      && (r == Failure(ConfigNotFound) <==> exists i | 0 <= i < |keys| :: ParameterPath(servicePath, keys[i]) !in rm.store.parameters)
      && (r != Failure(ConfigNotFound) ==> r == Success(KeyValues(rm.store, servicePath, keys)))
  {
    if i :| 0 <= i < |keys| && ParameterPath(servicePath, keys[i]) !in rm.store.parameters {
      assert Flatten([keys]) == keys + Flatten([]);
      ReadBatchesMissing(rm, faults, servicePath, [keys], i);
    } else {
      ReadKeysValues(rm, faults, servicePath, keys);
    }
  }

  // -------------------------------------------------------------- writing

  /** Write: read the key, and put the value only when it differs from what
      the read found ("" when the key has no parameter). */
  function WriteRun(rm: Remote, faults: map<nat, ApiError>, keyId: string, servicePath: string, key: string, value: string)
    : (Result<(), Error>, Remote)
  {
    var (cur, afterRead) := ReadRun(rm, faults, servicePath, key);
    if cur.Failure? && !IsConfigNotFound(cur.error) then (Failure(cur.error), afterRead)
    else
      var curValue := if cur.Success? then cur.value else "";
      if curValue == value then (Success(()), afterRead)
      else
        var (put, next) := PutStep(afterRead, faults, ParameterPath(servicePath, key), value, keyId, "");
        (if put.Failure? then Failure(Service(put.error)) else Success(()), next)
  }

  /** The state a run of several calls ends in: its result, the remote, and
      how many times the context has been asked whether it is done. */
  datatype Outcome = Outcome(result: Result<(), Error>, remote: Remote, checks: nat)

  /** The write loop of WriteKeys over `order`, skipping keys without a new
      value; the context is asked before every write. */
  function WriteEachRun(rm: Remote, faults: map<nat, ApiError>, cancelAt: Option<nat>, checks: nat,
                        keyId: string, servicePath: string, newValues: map<string, string>, order: seq<string>): Outcome
    decreases |order|
  {
    if order == [] then Outcome(Success(()), rm, checks)
    else if order[0] !in newValues then WriteEachRun(rm, faults, cancelAt, checks, keyId, servicePath, newValues, order[1..])
    else if DoneAt(cancelAt, checks) then Outcome(Failure(Canceled), rm, checks + 1)
    else
      var (w, next) := WriteRun(rm, faults, keyId, servicePath, order[0], newValues[order[0]]);
      if w.Failure? then Outcome(w, next, checks + 1)
      else WriteEachRun(next, faults, cancelAt, checks + 1, keyId, servicePath, newValues, order[1..])
  }

  /** The entries of `config` whose value differs from what `current` holds. */
  function Changed(config: map<string, string>, current: map<string, string>): (r: map<string, string>)
    ensures forall k :: k in r <==> k in config && config[k] != Lookup(current, k)
    ensures forall k | k in r :: r[k] == config[k]
  {
    map k | k in config && config[k] != Lookup(current, k) :: config[k]
  }

  /** WriteKeys: read all keys at once (a missing key reads as ""), then
      write the changed ones in `writeOrder`, Go's map order. */
  function WriteKeysRun(rm: Remote, faults: map<nat, ApiError>, cancelAt: Option<nat>, checks: nat, keyId: string,
                        servicePath: string, config: map<string, string>, keys: seq<string>, writeOrder: seq<string>): Outcome
  {
    if |config| == 0 then Outcome(Success(()), rm, checks)
    else
      var (cur, afterRead) := ReadKeysRun(rm, faults, servicePath, keys);
      if cur.Failure? && !IsConfigNotFound(cur.error) then Outcome(Failure(cur.error), afterRead, checks)
      else
        var current := if cur.Success? then cur.value else map[];
        WriteEachRun(afterRead, faults, cancelAt, checks, keyId, servicePath, Changed(config, current), writeOrder)
  }

  // --------------------------------------------------------- write lemmas

  /** `n` names the same parameter, or none, in both stores. */
  predicate SameAt(s: Store, t: Store, n: string) {
    (n in s.parameters <==> n in t.parameters) && (n in s.parameters ==> s.parameters[n] == t.parameters[n])
  }

  /** The names of some keys' parameters. */
  function Touched(servicePath: string, keys: set<string>): set<string> {
    set k | k in keys :: ParameterPath(servicePath, k)
  }

  /** A write that fails to read for any reason but a missing key puts nothing. */
  lemma WriteReadError(rm: Remote, faults: map<nat, ApiError>, keyId: string, servicePath: string, key: string, value: string)
    requires var r := ReadRun(rm, faults, servicePath, key).0; r.Failure? && !IsConfigNotFound(r.error)
    ensures WriteRun(rm, faults, keyId, servicePath, key, value)
         == (Failure(ReadRun(rm, faults, servicePath, key).0.error), ReadRun(rm, faults, servicePath, key).1)
    ensures WriteRun(rm, faults, keyId, servicePath, key, value).1.store == rm.store
  {
    ReadKeepsStore(rm, faults, servicePath, [key]);
  }

  /** With no faults, Write of a plain key succeeds, leaves that key holding
      the value and every other name as it was; it changes nothing at all
      when the key already reads as the value. */
  lemma WriteOne(rm: Remote, faults: map<nat, ApiError>, keyId: string, servicePath: string, key: string, value: string)
    requires NoFaultsFrom(faults, |rm.log|)
    requires IsServicePath(servicePath) && IsElement(key)
    ensures var (r, next) := WriteRun(rm, faults, keyId, servicePath, key, value);
      && r == Success(())
      && StoredValue(next.store, servicePath, key) == value
      && (forall n | n != ParameterPath(servicePath, key) :: SameAt(rm.store, next.store, n))
      && (StoredValue(rm.store, servicePath, key) == value ==> next.store == rm.store)
      && rm.log < next.log
  {
    var name := ParameterPath(servicePath, key);
    ReadOne(rm, faults, servicePath, key);
    var afterRead := Remote(rm.store, rm.log + [GetCall([name])]);
    if StoredValue(rm.store, servicePath, key) != value {
      assert |afterRead.log| !in faults;
      var next := Remote(Put(rm.store, name, value, keyId, ""), afterRead.log + [PutCall(name, value, keyId)]);
      assert WriteRun(rm, faults, keyId, servicePath, key, value) == (Success(()), next);
    }
  }

  /** Writing "" to a key without a parameter creates no parameter. */
  lemma WriteEmptyToMissing(rm: Remote, faults: map<nat, ApiError>, keyId: string, servicePath: string, key: string)
    requires NoFaultsFrom(faults, |rm.log|)
    requires IsServicePath(servicePath) && IsElement(key)
    requires ParameterPath(servicePath, key) !in rm.store.parameters
    ensures WriteRun(rm, faults, keyId, servicePath, key, "").1.store == rm.store
  {
    WriteOne(rm, faults, keyId, servicePath, key, "");
  }

  /** The keys of `order` that have a new value. */
  function WrittenKeys(order: seq<string>, newValues: map<string, string>): set<string> {
    set k | k in order && k in newValues
  }

  /** A plain key outside a set of plain keys names a parameter none of them names. */
  lemma NameOutside(servicePath: string, key: string, keys: set<string>)
    requires IsServicePath(servicePath) && IsElement(key)
    requires forall k | k in keys :: IsElement(k)
    requires key !in keys
    ensures ParameterPath(servicePath, key) !in Touched(servicePath, keys)
  {
    if ParameterPath(servicePath, key) in Touched(servicePath, keys) {
      var k :| k in keys && ParameterPath(servicePath, k) == ParameterPath(servicePath, key);
      JoinedKeysDistinct(servicePath, k, key);
      assert false;
    }
  }

  /** The step of WriteEachAll for a key written first. */
  lemma WriteEachHead(rm: Remote, next: Remote, last: Store, servicePath: string, newValues: map<string, string>, order: seq<string>)
    requires IsServicePath(servicePath) && order != [] && order[0] in newValues
    requires Distinct(order) && forall i | 0 <= i < |order| :: IsElement(order[i])
    requires StoredValue(next.store, servicePath, order[0]) == newValues[order[0]]
    requires forall n | n != ParameterPath(servicePath, order[0]) :: SameAt(rm.store, next.store, n)
    requires forall n | n !in Touched(servicePath, WrittenKeys(order[1..], newValues)) :: SameAt(next.store, last, n)
    ensures StoredValue(last, servicePath, order[0]) == newValues[order[0]]
    ensures forall n | n !in Touched(servicePath, WrittenKeys(order, newValues)) :: SameAt(rm.store, last, n)
  {
    var k := order[0];
    assert k !in order[1..];
    NameOutside(servicePath, k, WrittenKeys(order[1..], newValues));
    assert SameAt(next.store, last, ParameterPath(servicePath, k));
    forall n | n !in Touched(servicePath, WrittenKeys(order, newValues))
      ensures SameAt(rm.store, last, n)
    {
      assert k in WrittenKeys(order, newValues);
      assert WrittenKeys(order[1..], newValues) <= WrittenKeys(order, newValues);
      assert n != ParameterPath(servicePath, k);
      assert SameAt(rm.store, next.store, n) && SameAt(next.store, last, n);
    }
  }

  /** With no faults and no cancellation, the write loop succeeds, every key
      of `order` with a new value ends up holding it, and no other
      parameter changes. */
  lemma {:induction false} WriteEachAll(rm: Remote, faults: map<nat, ApiError>, cancelAt: Option<nat>, checks: nat,
                                        keyId: string, servicePath: string, newValues: map<string, string>, order: seq<string>)
    requires NoFaultsFrom(faults, |rm.log|)
    requires cancelAt.None? || checks + |order| <= cancelAt.value
    requires IsServicePath(servicePath)
    requires Distinct(order) && forall i | 0 <= i < |order| :: IsElement(order[i])
    ensures var o := WriteEachRun(rm, faults, cancelAt, checks, keyId, servicePath, newValues, order);
      && o.result == Success(())
      && (forall i | 0 <= i < |order| && order[i] in newValues :: StoredValue(o.remote.store, servicePath, order[i]) == newValues[order[i]])
      && (forall n | n !in Touched(servicePath, WrittenKeys(order, newValues)) :: SameAt(rm.store, o.remote.store, n))
      && rm.log <= o.remote.log
    decreases |order|
  {
    if order != [] {
      var k := order[0];
      var rest := order[1..];
      assert forall i | 0 <= i < |rest| :: rest[i] == order[i + 1];
      if k !in newValues {
        WriteEachAll(rm, faults, cancelAt, checks, keyId, servicePath, newValues, rest);
        assert WrittenKeys(order, newValues) == WrittenKeys(rest, newValues);
      } else {
        assert !DoneAt(cancelAt, checks);
        WriteOne(rm, faults, keyId, servicePath, k, newValues[k]);
        var next := WriteRun(rm, faults, keyId, servicePath, k, newValues[k]).1;
        WriteEachAll(next, faults, cancelAt, checks + 1, keyId, servicePath, newValues, rest);
        var o := WriteEachRun(next, faults, cancelAt, checks + 1, keyId, servicePath, newValues, rest);
        WriteEachHead(rm, next, o.remote.store, servicePath, newValues, order);
      }
    }
  }

  /** A key ReadKeys returned reads as its stored value. */
  lemma LookupKeyValues(s: Store, servicePath: string, keys: seq<string>, k: string)
    requires k in keys
    ensures Lookup(KeyValues(s, servicePath, keys), k) == StoredValue(s, servicePath, k)
  {
  }

  /** What a key of WriteKeys ends up holding, given what the read found. */
  lemma WriteKeysKey(s: Store, last: Store, servicePath: string, config: map<string, string>,
                     current: map<string, string>, keys: seq<string>, writeOrder: seq<string>, k: string)
    requires IsServicePath(servicePath) && forall j | j in config :: IsElement(j)
    requires Enumerates(writeOrder, config) && k in config
    requires current == map[] || current == KeyValues(s, servicePath, keys)
    requires k in keys
    requires forall i | 0 <= i < |writeOrder| && writeOrder[i] in Changed(config, current)
               :: StoredValue(last, servicePath, writeOrder[i]) == Changed(config, current)[writeOrder[i]]
    requires forall n | n !in Touched(servicePath, WrittenKeys(writeOrder, Changed(config, current))) :: SameAt(s, last, n)
    ensures StoredValue(last, servicePath, k) == config[k]
         || (config[k] == "" && SameAt(s, last, ParameterPath(servicePath, k)))
    ensures current != map[] ==> StoredValue(last, servicePath, k) == config[k]
  {
    var nv := Changed(config, current);
    if k in nv {
      var i :| 0 <= i < |writeOrder| && writeOrder[i] == k;
    } else {
      forall j | j in WrittenKeys(writeOrder, nv)
        ensures IsElement(j)
      {
      }
      NameOutside(servicePath, k, WrittenKeys(writeOrder, nv));
      assert SameAt(s, last, ParameterPath(servicePath, k));
      if current != map[] {
        LookupKeyValues(s, servicePath, keys, k);
      }
    }
  }

  /** What WriteKeys compares against: the configuration read, or nothing
      when the read found a key missing. */
  function Current(read: Result<map<string, string>, Error>): map<string, string> {
    if read.Success? then read.value else map[]
  }

  /** The read phase of WriteKeys, with no faults: it changes nothing and
      finds either every key or none. */
  lemma WriteKeysRead(rm: Remote, faults: map<nat, ApiError>, servicePath: string, config: map<string, string>, keys: seq<string>)
    requires NoFaultsFrom(faults, |rm.log|)
    requires IsServicePath(servicePath) && forall k | k in config :: IsElement(k)
    requires Enumerates(keys, config) && 0 < |config| < MaxKeysPerRequest
    ensures var (cur, afterRead) := ReadKeysRun(rm, faults, servicePath, keys);
      && (cur.Failure? ==> IsConfigNotFound(cur.error))
      && afterRead.store == rm.store && NoFaultsFrom(faults, |afterRead.log|)
      && (Current(cur) == map[] || Current(cur) == KeyValues(rm.store, servicePath, keys))
      && ((forall k | k in config :: ParameterPath(servicePath, k) in rm.store.parameters)
            ==> Current(cur) != map[])
  {
    forall i | 0 <= i < |keys|
      ensures IsElement(keys[i])
    {
      assert keys[i] in config;
    }
    EnumeratesSize(keys, config);
    ReadKeysMissing(rm, faults, servicePath, keys);
    ReadKeepsStore(rm, faults, servicePath, keys);
    var cur := ReadKeysRun(rm, faults, servicePath, keys).0;
    if cur != Failure(ConfigNotFound) {
      assert Current(cur) == KeyValues(rm.store, servicePath, keys);
    }
    if forall k | k in config :: ParameterPath(servicePath, k) in rm.store.parameters {
      assert forall i | 0 <= i < |keys| :: ParameterPath(servicePath, keys[i]) in rm.store.parameters;
      var k0 :| k0 in config;
      assert k0 in KeyValues(rm.store, servicePath, keys);
    }
  }

  /** With no faults and no cancellation, WriteKeys succeeds. Every key ends
      up holding its new value, except that a key given "" keeps its old
      parameter when some key of the configuration had none before; and
      every parameter outside the configuration's keys is left alone. */
  lemma WriteKeysAll(rm: Remote, faults: map<nat, ApiError>, cancelAt: Option<nat>, checks: nat, keyId: string,
                     servicePath: string, config: map<string, string>, keys: seq<string>, writeOrder: seq<string>)
    requires NoFaultsFrom(faults, |rm.log|)
    requires cancelAt.None? || checks + |writeOrder| <= cancelAt.value
    requires IsServicePath(servicePath) && forall k | k in config :: IsElement(k)
    requires Enumerates(keys, config) && Enumerates(writeOrder, config) && |config| < MaxKeysPerRequest
    ensures var o := WriteKeysRun(rm, faults, cancelAt, checks, keyId, servicePath, config, keys, writeOrder);
      && o.result == Success(())
      && (forall k | k in config :: StoredValue(o.remote.store, servicePath, k) == config[k]
            || (config[k] == "" && SameAt(rm.store, o.remote.store, ParameterPath(servicePath, k))))
      && ((forall k | k in config :: ParameterPath(servicePath, k) in rm.store.parameters)
            ==> forall k | k in config :: StoredValue(o.remote.store, servicePath, k) == config[k])
      && (forall n | n !in Touched(servicePath, config.Keys) :: SameAt(rm.store, o.remote.store, n))
      && rm.log <= o.remote.log
  {
    if |config| != 0 {
      var s := rm.store;
      WriteKeysRead(rm, faults, servicePath, config, keys);
      ReadKeepsStore(rm, faults, servicePath, keys);
      var (cur, afterRead) := ReadKeysRun(rm, faults, servicePath, keys);
      var current := Current(cur);
      var nv := Changed(config, current);
      assert WriteKeysRun(rm, faults, cancelAt, checks, keyId, servicePath, config, keys, writeOrder)
          == WriteEachRun(afterRead, faults, cancelAt, checks, keyId, servicePath, nv, writeOrder);
      forall i | 0 <= i < |writeOrder|
        ensures IsElement(writeOrder[i])
      {
        assert writeOrder[i] in config;
      }
      WriteEachAll(afterRead, faults, cancelAt, checks, keyId, servicePath, nv, writeOrder);
      var last := WriteEachRun(afterRead, faults, cancelAt, checks, keyId, servicePath, nv, writeOrder).remote.store;
      forall k | k in config
        ensures StoredValue(last, servicePath, k) == config[k]
             || (config[k] == "" && SameAt(s, last, ParameterPath(servicePath, k)))
        ensures current != map[] ==> StoredValue(last, servicePath, k) == config[k]
      {
        WriteKeysKey(s, last, servicePath, config, current, keys, writeOrder, k);
      }
      assert Touched(servicePath, WrittenKeys(writeOrder, nv)) <= Touched(servicePath, config.Keys);
    }
  }

  /** The write loop skips keys without a new value. */
  lemma {:induction false} WriteEachSkips(rm: Remote, faults: map<nat, ApiError>, cancelAt: Option<nat>, checks: nat,
                                          keyId: string, servicePath: string, newValues: map<string, string>, order: seq<string>)
    requires forall i | 0 <= i < |order| :: order[i] !in newValues
    ensures WriteEachRun(rm, faults, cancelAt, checks, keyId, servicePath, newValues, order) == Outcome(Success(()), rm, checks)
    decreases |order|
  {
    if order != [] {
      assert forall i | 0 <= i < |order[1..]| :: order[1..][i] == order[i + 1];
      WriteEachSkips(rm, faults, cancelAt, checks, keyId, servicePath, newValues, order[1..]);
    }
  }

  /** Keys without a new value at the end of the write order change nothing. */
  lemma {:induction false} WriteEachTail(rm: Remote, faults: map<nat, ApiError>, cancelAt: Option<nat>, checks: nat,
                                         keyId: string, servicePath: string, newValues: map<string, string>, order: seq<string>, rest: seq<string>)
    requires forall i | 0 <= i < |rest| :: rest[i] !in newValues
    ensures WriteEachRun(rm, faults, cancelAt, checks, keyId, servicePath, newValues, order + rest)
         == WriteEachRun(rm, faults, cancelAt, checks, keyId, servicePath, newValues, order)
    decreases |order|
  {
    if order == [] {
      assert order + rest == rest;
      WriteEachSkips(rm, faults, cancelAt, checks, keyId, servicePath, newValues, rest);
    } else {
      assert (order + rest)[0] == order[0] && (order + rest)[1..] == order[1..] + rest;
      var k := order[0];
      if k !in newValues || DoneAt(cancelAt, checks) {
        WriteEachTail(rm, faults, cancelAt, checks, keyId, servicePath, newValues, order[1..], rest);
      } else {
        var next := WriteRun(rm, faults, keyId, servicePath, k, newValues[k]).1;
        WriteEachTail(next, faults, cancelAt, checks + 1, keyId, servicePath, newValues, order[1..], rest);
      }
    }
  }

  /** Before any write, a context that is already done stops the write loop
      at the first key with a new value: nothing is written. */
  lemma {:induction false} WriteEachCanceled(rm: Remote, faults: map<nat, ApiError>, cancelAt: Option<nat>, checks: nat,
                                             keyId: string, servicePath: string, newValues: map<string, string>, order: seq<string>)
    requires DoneAt(cancelAt, checks)
    requires exists i | 0 <= i < |order| :: order[i] in newValues
    ensures WriteEachRun(rm, faults, cancelAt, checks, keyId, servicePath, newValues, order)
         == Outcome(Failure(Canceled), rm, checks + 1)
    decreases |order|
  {
    if order[0] !in newValues {
      var i :| 0 <= i < |order| && order[i] in newValues;
      assert order[1..][i - 1] == order[i];
      WriteEachCanceled(rm, faults, cancelAt, checks, keyId, servicePath, newValues, order[1..]);
    }
  }

  // ------------------------------------------------------------- deleting

  /** deleteKeys: nothing for no keys, at most ten keys per call, and names
      the service does not know are not an error. */
  function DeleteBatchRun(rm: Remote, faults: map<nat, ApiError>, servicePath: string, keys: seq<string>)
    : (Result<(), Error>, Remote)
  {
    if keys == [] then (Success(()), rm)
    else if |keys| > MaxKeysPerRequest then (Failure(TooManyKeys), rm)
    else
      var (out, next) := DeleteStep(rm, faults, ParameterNames(servicePath, keys));
      (if out.Failure? then Failure(Service(out.error)) else Success(()), next)
  }

  /** The batches of DeleteKeys, one after the other, stopping at the first error. */
  function DeleteBatchesRun(rm: Remote, faults: map<nat, ApiError>, servicePath: string, batches: seq<seq<string>>)
    : (Result<(), Error>, Remote)
    decreases |batches|
  {
    if batches == [] then (Success(()), rm)
    else
      var first := DeleteBatchRun(rm, faults, servicePath, batches[0]);
      if first.0.Failure? then first
      else DeleteBatchesRun(first.1, faults, servicePath, batches[1..])
  }

  /** DeleteKeys: no call for no keys; otherwise the batches of batchKeys,
      whose panic ends the deletion before any call. */
  function DeleteKeysRun(rm: Remote, faults: map<nat, ApiError>, servicePath: string, keys: seq<string>)
    : (Result<(), Error>, Remote)
  {
    if keys == [] then (Success(()), rm)
    else match BatchKeys(keys, MaxKeysPerRequest)
      case None => (Failure(IndexOutOfRange), rm)
      case Some(batches) => DeleteBatchesRun(rm, faults, servicePath, batches)
  }

  /** Delete: a batch of one key. */
  function DeleteRun(rm: Remote, faults: map<nat, ApiError>, servicePath: string, key: string)
    : (Result<(), Error>, Remote)
  {
    DeleteBatchRun(rm, faults, servicePath, [key])
  }

  // -------------------------------------------------------- delete lemmas

  lemma Flattened(batches: seq<seq<string>>)
    requires batches != []
    ensures Flatten(batches) == batches[0] + Flatten(batches[1..])
  {
  }

  /** With no faults, batch by batch deletion removes every named
      parameter, as one deletion of all the names would. */
  lemma {:induction false} DeleteBatchesAll(rm: Remote, faults: map<nat, ApiError>, servicePath: string, batches: seq<seq<string>>)
    requires NoFaultsFrom(faults, |rm.log|)
    requires forall i | 0 <= i < |batches| :: |batches[i]| <= MaxKeysPerRequest
    ensures DeleteBatchesRun(rm, faults, servicePath, batches)
         == (Success(()), DeleteBatchesRun(rm, faults, servicePath, batches).1)
    ensures DeleteBatchesRun(rm, faults, servicePath, batches).1.store
         == Delete(rm.store, ParameterNames(servicePath, Flatten(batches)))
    decreases |batches|
  {
    if batches == [] {
      DeleteNothing(rm.store);
    } else {
      var b := batches[0];
      Flattened(batches);
      var first := DeleteBatchRun(rm, faults, servicePath, b);
      if b == [] {
        assert first == (Success(()), rm);
        assert ParameterNames(servicePath, b) == [];
        DeleteNothing(rm.store);
      } else {
        assert FaultAt(faults, |rm.log|) == None;
      }
      assert first.0 == Success(()) && first.1.store == Delete(rm.store, ParameterNames(servicePath, b));
      assert |first.1.log| >= |rm.log|;
      DeleteBatchesAll(first.1, faults, servicePath, batches[1..]);
      DeleteDelete(rm.store, ParameterNames(servicePath, b), ParameterNames(servicePath, Flatten(batches[1..])));
      ParameterNamesAppend(servicePath, b, Flatten(batches[1..]));
    }
  }

  /** With no faults, DeleteKeys of fewer than ten keys succeeds and leaves
      the store without the keys' parameters: every other parameter is kept
      as it was. */
  lemma DeleteKeysAll(rm: Remote, faults: map<nat, ApiError>, servicePath: string, keys: seq<string>)
    requires NoFaultsFrom(faults, |rm.log|) && |keys| < MaxKeysPerRequest
    ensures DeleteKeysRun(rm, faults, servicePath, keys).0 == Success(())
    ensures DeleteKeysRun(rm, faults, servicePath, keys).1.store == Delete(rm.store, ParameterNames(servicePath, keys))
  {
    if keys == [] {
      DeleteNothing(rm.store);
    } else {
      DeleteBatchesAll(rm, faults, servicePath, [keys]);
    }
  }

  /** With no faults, deleting through the intended batches succeeds and
      removes every key's parameter, however many keys there are. */
  lemma ChunkedDeleteAll(rm: Remote, faults: map<nat, ApiError>, servicePath: string, keys: seq<string>)
    requires NoFaultsFrom(faults, |rm.log|)
    ensures DeleteBatchesRun(rm, faults, servicePath, Chunks(keys, MaxKeysPerRequest)).0 == Success(())
    ensures DeleteBatchesRun(rm, faults, servicePath, Chunks(keys, MaxKeysPerRequest)).1.store
         == Delete(rm.store, ParameterNames(servicePath, keys))
  {
    ChunksCover(keys, MaxKeysPerRequest);
    DeleteBatchesAll(rm, faults, servicePath, Chunks(keys, MaxKeysPerRequest));
  }

  /** Deleting parameters by name: a name is kept exactly when it is not
      named, and a kept parameter is unchanged. */
  lemma DeleteMeaning(s: Store, servicePath: string, keys: seq<string>)
    requires IsServicePath(servicePath) && forall i | 0 <= i < |keys| :: IsElement(keys[i])
    ensures var t := Delete(s, ParameterNames(servicePath, keys));
      && (forall k | k in keys :: StoredValue(t, servicePath, k) == "" && ParameterPath(servicePath, k) !in t.parameters)
      && (forall n | n !in Touched(servicePath, set k | k in keys) :: SameAt(s, t, n))
  {
    var names := ParameterNames(servicePath, keys);
    var t := Delete(s, names);
    forall k | k in keys
      ensures ParameterPath(servicePath, k) !in t.parameters
    {
      var i :| 0 <= i < |keys| && keys[i] == k;
      assert names[i] == ParameterPath(servicePath, k);
    }
    forall n | n !in Touched(servicePath, set k | k in keys)
      ensures SameAt(s, t, n)
    {
      forall i | 0 <= i < |names|
        ensures names[i] != n
      {
        assert keys[i] in (set k | k in keys);
      }
    }
  }

  // ------------------------------------------------------------- metadata

  /** What a describe call lists below a service path, in listing order. */
  function Descriptions(s: Store, servicePath: string): seq<ParameterMetadata> {
    Describe(s.parameters, Children(s.order, servicePath))
  }

  /** Prepend(items, run): `items` followed by what the run lists, or its error. */
  function Prepend(items: seq<ParameterMetadata>, run: (Result<seq<ParameterMetadata>, Error>, Remote))
    : (Result<seq<ParameterMetadata>, Error>, Remote)
  {
    (if run.0.Failure? then Failure(run.0.error) else Success(items + run.0.value), run.1)
  }

  lemma PrependEmpty(run: (Result<seq<ParameterMetadata>, Error>, Remote))
    ensures Prepend([], run) == run
  {
    if run.0.Success? {
      assert [] + run.0.value == run.0.value;
    }
  }

  lemma PrependPrepend(a: seq<ParameterMetadata>, b: seq<ParameterMetadata>, run: (Result<seq<ParameterMetadata>, Error>, Remote))
    ensures Prepend(a, Prepend(b, run)) == Prepend(a + b, run)
  {
    if run.0.Success? {
      assert a + (b + run.0.value) == (a + b) + run.0.value;
    }
  }

  /** The describe pages of readAllKeyMetadata from page `page` on. */
  function DescribePagesRun(rm: Remote, faults: map<nat, ApiError>, pageSize: nat, servicePath: string, page: nat)
    : (Result<seq<ParameterMetadata>, Error>, Remote)
    requires pageSize > 0
    decreases |Descriptions(rm.store, servicePath)| - page * pageSize
  {
    var (out, next) := DescribeStep(rm, faults, pageSize, servicePath, Token(page));
    match out
    case Failure(e) => (Failure(FromRemote(e)), next)
    case Success(p) =>
      if p.next.None? then (Success(p.items), next)
      else
        assert next.store == rm.store;
        assert (page + 1) * pageSize == page * pageSize + pageSize;
        Prepend(p.items, DescribePagesRun(next, faults, pageSize, servicePath, page + 1))
  }

  /** ReadAllMetadata: ReadAll, then one record per described parameter,
      holding its base name, its value from the ReadAll ("" when the
      ReadAll did not see it) and what the describe call reports. */
  function ReadAllMetadataRun(rm: Remote, faults: map<nat, ApiError>, pageSize: nat, servicePath: string)
    : (Result<seq<KeyMetadata>, Error>, Remote)
    requires pageSize > 0
  {
    var (all, afterRead) := ReadAllRun(rm, faults, servicePath);
    if all.Failure? then (Failure(all.error), afterRead)
    else
      var (described, next) := DescribePagesRun(afterRead, faults, pageSize, servicePath, 0);
      if described.Failure? then (Failure(described.error), next)
      else
        var ms := described.value;
        (Success(seq(|ms|, i requires 0 <= i < |ms| =>
                   KeyMetadata(Base(ms[i].name), Lookup(all.value, Base(ms[i].name)), ms[i]))), next)
  }

  // ------------------------------------------------------ metadata lemmas

  /** One describe page, when its call does not fail. */
  lemma DescribePageStep(rm: Remote, faults: map<nat, ApiError>, pageSize: nat, servicePath: string, page: nat)
    requires pageSize > 0 && |rm.log| !in faults
    ensures var ds := Descriptions(rm.store, servicePath);
      var start := Min(page * pageSize, |ds|);
      var end := Min(start + pageSize, |ds|);
      var next := Remote(rm.store, rm.log + [DescribeCall(servicePath, Token(page))]);
      var run := DescribePagesRun(rm, faults, pageSize, servicePath, page);
      if end < |ds| then
        run == Prepend(ds[start..end], DescribePagesRun(next, faults, pageSize, servicePath, page + 1))
      else run == (Success(ds[start..end]), next)
  {
    assert FaultAt(faults, |rm.log|) == None;
    assert Token(page).GetOr(0) == page;
  }

  lemma SliceSplit(ds: seq<ParameterMetadata>, i: nat, j: nat)
    requires i <= j <= |ds|
    ensures ds[i..] == ds[i..j] + ds[j..]
  {
  }

  /** From page `page` on, with no faults, the describe pages list the rest
      of the descriptions. */
  lemma {:induction false} DescribePagesAll(rm: Remote, faults: map<nat, ApiError>, pageSize: nat, servicePath: string, page: nat)
    requires pageSize > 0 && NoFaultsFrom(faults, |rm.log|)
    ensures var ds := Descriptions(rm.store, servicePath);
      DescribePagesRun(rm, faults, pageSize, servicePath, page).0 == Success(ds[Min(page * pageSize, |ds|)..])
    ensures DescribePagesRun(rm, faults, pageSize, servicePath, page).1.store == rm.store
    decreases |Descriptions(rm.store, servicePath)| - page * pageSize
  {
    var ds := Descriptions(rm.store, servicePath);
    var next := Remote(rm.store, rm.log + [DescribeCall(servicePath, Token(page))]);
    var first := page * pageSize;
    assert (page + 1) * pageSize == first + pageSize;
    if first + pageSize < |ds| {
      DescribePagesAll(next, faults, pageSize, servicePath, page + 1);
    }
    DescribeFrom(rm, faults, pageSize, servicePath, page, first);
  }

  /** One describe page with no fault, followed by what the later pages report. */
  lemma DescribeFrom(rm: Remote, faults: map<nat, ApiError>, pageSize: nat, servicePath: string, page: nat, first: nat)
    requires pageSize > 0 && |rm.log| !in faults && first == page * pageSize
    requires var ds := Descriptions(rm.store, servicePath);
      var next := Remote(rm.store, rm.log + [DescribeCall(servicePath, Token(page))]);
      first + pageSize < |ds| ==>
        DescribePagesRun(next, faults, pageSize, servicePath, page + 1).0 == Success(ds[first + pageSize..])
        && DescribePagesRun(next, faults, pageSize, servicePath, page + 1).1.store == rm.store
    ensures var ds := Descriptions(rm.store, servicePath);
      DescribePagesRun(rm, faults, pageSize, servicePath, page).0 == Success(ds[Min(first, |ds|)..])
    ensures DescribePagesRun(rm, faults, pageSize, servicePath, page).1.store == rm.store
  {
    var ds := Descriptions(rm.store, servicePath);
    var start := Min(first, |ds|);
    var end := Min(start + pageSize, |ds|);
    var next := Remote(rm.store, rm.log + [DescribeCall(servicePath, Token(page))]);
    var tail := DescribePagesRun(next, faults, pageSize, servicePath, page + 1);
    if end < |ds| {
      assert DescribePagesRun(rm, faults, pageSize, servicePath, page) == Prepend(ds[start..end], tail) by {
        DescribePageStep(rm, faults, pageSize, servicePath, page);
      }
      SliceSplit(ds, start, end);
    } else {
      assert DescribePagesRun(rm, faults, pageSize, servicePath, page) == (Success(ds[start..end]), next) by {
        DescribePageStep(rm, faults, pageSize, servicePath, page);
      }
      assert ds[start..] == ds[start..end];
    }
  }

  /** When every name exists, a describe call reports each of them, in order. */
  lemma {:induction false} DescribeAll(ps: map<string, Parameter>, names: seq<string>)
    requires forall i | 0 <= i < |names| :: names[i] in ps
    ensures |Describe(ps, names)| == |names|
    ensures forall i | 0 <= i < |names| :: Describe(ps, names)[i]
              == ParameterMetadata(names[i], ps[names[i]].version, ps[names[i]].keyId, ps[names[i]].description)
    decreases |names|
  {
    if names != [] {
      DescribeAll(ps, names[1..]);
      var d := Describe(ps, names);
      assert forall i | 1 <= i < |names| :: d[i] == Describe(ps, names[1..])[i - 1] && names[i] == names[1..][i - 1];
    }
  }

  /** The value ReadAll reports for an entry below a service path is its
      stored value. */
  lemma ConfigOfChild(s: Store, servicePath: string, n: string)
    requires IsServicePath(servicePath) && n in s.parameters && IsChild(n, servicePath)
    ensures Lookup(Config(s, servicePath), Base(n)) == StoredValue(s, servicePath, Base(n)) == s.parameters[n].value
  {
    ChildJoin(servicePath, n);
    assert Base(n) in StoredKeys(s, servicePath);
  }

  /** With no faults, ReadAllMetadata reports every parameter one level below
      the service path, in listing order, with its base name, its stored
      value and its version. */
  lemma ReadAllMetadataAll(rm: Remote, faults: map<nat, ApiError>, pageSize: nat, servicePath: string)
    requires pageSize > 0 && NoFaultsFrom(faults, |rm.log|)
    requires Listed(rm.store) && IsServicePath(servicePath)
    ensures var r := ReadAllMetadataRun(rm, faults, pageSize, servicePath).0;
      var children := Children(rm.store.order, servicePath);
      && r.Success? && |r.value| == |children|
      && forall i | 0 <= i < |children| ::
           && r.value[i].metadata.name == children[i]
           && r.value[i].key == Base(children[i])
           && r.value[i].value == StoredValue(rm.store, servicePath, r.value[i].key)
           && r.value[i].metadata.version == rm.store.parameters[children[i]].version
  {
    var s := rm.store;
    var children := Children(s.order, servicePath);
    ReadAllConfig(rm, faults, servicePath);
    var afterRead := ReadAllRun(rm, faults, servicePath).1;
    DescribePagesAll(afterRead, faults, pageSize, servicePath, 0);
    var ds := Descriptions(s, servicePath);
    assert ds[0..] == ds;
    DescribeAll(s.parameters, children);
    forall i | 0 <= i < |children|
      ensures Lookup(Config(s, servicePath), Base(children[i])) == StoredValue(s, servicePath, Base(children[i]))
    {
      ConfigOfChild(s, servicePath, children[i]);
    }
  }

  // ------------------------------------------------------ calls avoided

  /** No keys means no remote call for ReadKeys, DeleteKeys and WriteKeys,
      and a batch of more than ten keys fails with TooManyKeys before any
      call. */
  lemma NoCallWithoutWork(rm: Remote, faults: map<nat, ApiError>, cancelAt: Option<nat>, checks: nat, keyId: string,
                          servicePath: string, keys: seq<string>, writeOrder: seq<string>, batch: seq<string>)
    ensures ReadKeysRun(rm, faults, servicePath, []) == (Success(map[]), rm)
    ensures DeleteKeysRun(rm, faults, servicePath, []) == (Success(()), rm)
    ensures WriteKeysRun(rm, faults, cancelAt, checks, keyId, servicePath, map[], keys, writeOrder)
         == Outcome(Success(()), rm, checks)
    ensures |batch| > MaxKeysPerRequest ==> BatchReadRun(rm, faults, servicePath, batch) == (Failure(TooManyKeys), rm)
    ensures |batch| > MaxKeysPerRequest ==> DeleteBatchRun(rm, faults, servicePath, batch) == (Failure(TooManyKeys), rm)
  {
  }

  // ------------------------------------------------------------ batchKeys

  /** From ten keys on, ReadKeys and DeleteKeys end in batchKeys' panic
      before any call is made, and so does WriteKeys, which reads its keys
      first. */
  lemma ManyKeysPanic(rm: Remote, faults: map<nat, ApiError>, cancelAt: Option<nat>, checks: nat, keyId: string,
                      servicePath: string, keys: seq<string>, config: map<string, string>, writeOrder: seq<string>)
    requires |keys| >= MaxKeysPerRequest
    ensures ReadKeysRun(rm, faults, servicePath, keys) == (Failure(IndexOutOfRange), rm)
    ensures DeleteKeysRun(rm, faults, servicePath, keys) == (Failure(IndexOutOfRange), rm)
    ensures Enumerates(keys, config) ==>
      WriteKeysRun(rm, faults, cancelAt, checks, keyId, servicePath, config, keys, writeOrder)
        == Outcome(Failure(IndexOutOfRange), rm, checks)
  {
    if Enumerates(keys, config) {
      EnumeratesSize(keys, config);
    }
  }

  lemma DivisionBounds(n: nat, size: nat)
    requires size > 0
    ensures (n / size) * size <= n < (n / size) * size + size
    ensures n < size ==> n / size == 0
  {
  }

  /** What batchKeys returns: the keys as one batch when there are fewer
      than `size` of them; otherwise None, for the panic that ends the
      program (BatchKeysReadsPastEnd). */
  function BatchKeys(keys: seq<string>, size: nat): (batches: Option<seq<seq<string>>>)
    requires size > 0
    ensures batches.Some? ==> Flatten(batches.value) == keys
    ensures batches.Some? ==> forall i | 0 <= i < |batches.value| :: |batches.value[i]| <= size
  {
    if |keys| < size then
      assert Flatten([keys]) == keys + Flatten([]);
      Some([keys])
    else None
  }

  /** batchKeys as written: `len/size + 1` batches, each reading
      `min(len, size)` keys from `batch * size` on. An index past the end,
      where Go panics, makes the result None. It only succeeds for fewer
      keys than one batch holds, and then returns the keys as one batch. */
  method BatchKeysAsWritten(keys: seq<string>, batchSize: nat) returns (r: Option<seq<seq<string>>>)
    requires batchSize > 0
    ensures r.Some? <==> |keys| < batchSize
    ensures r.Some? ==> r.value == [keys]
    ensures r == BatchKeys(keys, batchSize)
  {
    DivisionBounds(|keys|, batchSize);
    var numBatches := |keys| / batchSize + 1;
    var maxIters := Min(|keys|, batchSize);
    var batches: seq<seq<string>> := [];
    var batchI := 0;
    while batchI < numBatches
      invariant 0 <= batchI <= numBatches
      invariant batchI > 0 ==> (batchI - 1) * batchSize + maxIters <= |keys|
      invariant |keys| < batchSize ==> batches == (if batchI == 0 then [] else [keys])
    {
      var batch: seq<string> := [];
      var i := 0;
      while i < maxIters
        invariant 0 <= i <= maxIters && |batch| == i
        invariant i > 0 ==> batchI * batchSize + i <= |keys|
        invariant forall j | 0 <= j < i :: batch[j] == keys[batchI * batchSize + j]
      {
        var keyI := batchI * batchSize + i;
        if keyI >= |keys| {
          return None;
        }
        batch := batch + [keys[keyI]];
        i := i + 1;
      }
      assert maxIters == 0 ==> batchI == 0;
      if |keys| < batchSize {
        assert batchI == 0 && maxIters == |keys|;
        assert forall j | 0 <= j < |keys| :: batch[j] == keys[j];
        assert batch == keys;
      }
      batches := batches + [batch];
      batchI := batchI + 1;
    }
    return Some(batches);
  }

  /** The last batch batchKeys builds for `size` keys or more ends past the
      last key: ten keys with batches of ten read `keys[10]`. */
  lemma BatchKeysReadsPastEnd(n: nat, size: nat)
    requires 0 < size <= n
    ensures (n / size) * size + Min(n, size) - 1 >= n
  {
    DivisionBounds(n, size);
  }
}
