/** Confman: one service path of a store, with the chamber-compatible key
    case folding applied in place to the caller's maps and slices, and the
    orchestrations built from several store calls (Define, copy, Move,
    DeleteAll). Add and AddKeys are the store's Write and WriteKeys. */
module ConfmanCore {
  import opened Wrappers
  import opened Strings
  import opened Paths
  import opened Maps
  import opened CaseFolding
  import opened Ssm
  import opened Storage
  import opened Contexts
  import opened ServicePaths
  import opened ParameterStoreSpec
  import opened ParameterStoreAdapter

  // ----------------------------------------------------- chamber helpers

  /** chamberKeyToLower (`upper` false) and chamberKeyToUpper: fold the key
      when compatibility is on, leave it alone otherwise. */
  function ChamberKey(enabled: bool, key: string, upper: bool): (r: string)
    ensures Fold(r, upper) == Fold(key, upper)
    ensures enabled ==> Fold(r, upper) == r
    ensures !enabled ==> r == key
  {
    FoldIdempotent(key, upper);
    if enabled then Fold(key, upper) else key
  }

  /** The caller's map after chamberConfigToLower/ToUpper ranged over it in
      `order`; untouched when compatibility is off. */
  function Chambered(enabled: bool, m: map<string, string>, order: seq<string>, upper: bool): map<string, string> {
    if enabled then RefoldInPlace(m, order, upper) else m
  }

  /** A read result with its keys upper-cased in place; an error passes. */
  function ChamberedRead(enabled: bool, read: Result<map<string, string>, Error>, order: seq<string>)
    : Result<map<string, string>, Error>
  {
    if read.Success? then Success(Chambered(enabled, read.value, order, true)) else read
  }

  /** With compatibility off the map helpers change nothing; with it on the
      caller's map ends up holding the folded keys, each with the value of
      some original key that folds to it. */
  lemma ChamberedMeaning(enabled: bool, m: map<string, string>, order: seq<string>, upper: bool)
    requires enabled ==> Enumerates(order, m)
    ensures !enabled ==> Chambered(enabled, m, order, upper) == m
    ensures var r := Chambered(enabled, m, order, upper);
      enabled ==> (r.Keys == Image(m.Keys, upper)
                   && forall k | k in r :: exists x :: x in m && Fold(x, upper) == k && r[k] == m[x])
  {
    if enabled {
      RefoldInPlaceMeaning(m, order, upper);
    }
  }

  // -------------------------------------------------- orchestration specs

  /** Define's calls: read the current configuration, write the new one,
      then delete the current keys the new configuration lacks. */
  function DefineRun(rm: Remote, faults: map<nat, ApiError>, cancelAt: Option<nat>, checks: nat, keyId: string,
                     servicePath: string, config: map<string, string>, currentOrder: seq<string>,
                     keys: seq<string>, writeOrder: seq<string>): Outcome
  {
    var (current, afterRead) := ReadAllRun(rm, faults, servicePath);
    if current.Failure? then Outcome(Failure(current.error), afterRead, checks)
    else
      var w := WriteKeysRun(afterRead, faults, cancelAt, checks, keyId, servicePath, config, keys, writeOrder);
      if w.result.Failure? then w
      else
        var d := DeleteKeysRun(w.remote, faults, servicePath, Outside(currentOrder, config));
        Outcome(d.0, d.1, w.checks)
  }

  /** DeleteAll's calls: read everything, then delete the keys read. */
  function DeleteAllRun(rm: Remote, faults: map<nat, ApiError>, servicePath: string, order: seq<string>)
    : (Result<(), Error>, Remote)
  {
    var (current, afterRead) := ReadAllRun(rm, faults, servicePath);
    if current.Failure? then (Failure(current.error), afterRead)
    else DeleteKeysRun(afterRead, faults, servicePath, order)
  }

  /** The outcome of copy or Move: the result, the source's and the
      target's remote, and how often the context was asked. When both
      confmans share one client, both remotes are the same. */
  datatype Transfer<T> = Transfer(result: Result<T, Error>, source: Remote, target: Remote, checks: nat)

  /** The target side of copy: a cancellation check, then the target's
      AddKeys on the map read (which the target folds in place, and which
      copy then returns). */
  datatype Copied = Copied(result: Result<map<string, string>, Error>, target: Remote, checks: nat)

  function CopyWriteRun(before: Remote, faults: map<nat, ApiError>, cancelAt: Option<nat>, checks: nat, keyId: string,
                        targetPath: string, targetFolds: bool, read: map<string, string>,
                        foldOrder: seq<string>, keys: seq<string>, writeOrder: seq<string>): Copied
  {
    if DoneAt(cancelAt, checks) then Copied(Failure(Canceled), before, checks + 1)
    else
      var config := Chambered(targetFolds, read, foldOrder, false);
      var w := WriteKeysRun(before, faults, cancelAt, checks + 1, keyId, targetPath, config, keys, writeOrder);
      Copied(if w.result.Success? then Success(config) else Failure(w.result.error), w.remote, w.checks)
  }

  /** copy's calls: a cancellation check, ReadAll on the source, then the
      target side on the map read. */
  function CopyRun(source: Remote, target: Remote, shared: bool, sourceFaults: map<nat, ApiError>,
                   targetFaults: map<nat, ApiError>, cancelAt: Option<nat>, checks: nat, sourcePath: string,
                   keyId: string, targetPath: string, targetFolds: bool,
                   foldOrder: seq<string>, keys: seq<string>, writeOrder: seq<string>): Transfer<map<string, string>>
  {
    if DoneAt(cancelAt, checks) then Transfer(Failure(Canceled), source, target, checks + 1)
    else
      var (read, afterRead) := ReadAllRun(source, sourceFaults, sourcePath);
      var before := if shared then afterRead else target;
      if read.Failure? then Transfer(Failure(read.error), afterRead, before, checks + 1)
      else
        var w := CopyWriteRun(before, targetFaults, cancelAt, checks + 1, keyId, targetPath, targetFolds, read.value,
                              foldOrder, keys, writeOrder);
        Transfer(w.result, if shared then w.target else afterRead, w.target, w.checks)
  }

  /** Move's calls: copy, then delete the copied map's keys from the source. */
  function MoveRun(source: Remote, target: Remote, shared: bool, sourceFaults: map<nat, ApiError>,
                   targetFaults: map<nat, ApiError>, cancelAt: Option<nat>, checks: nat, sourcePath: string,
                   keyId: string, targetPath: string, targetFolds: bool,
                   foldOrder: seq<string>, keys: seq<string>, writeOrder: seq<string>, moveOrder: seq<string>): Transfer<()>
  {
    var c := CopyRun(source, target, shared, sourceFaults, targetFaults, cancelAt, checks, sourcePath,
                     keyId, targetPath, targetFolds, foldOrder, keys, writeOrder);
    if c.result.Failure? then Transfer(Failure(c.result.error), c.source, c.target, c.checks)
    else
      var d := DeleteKeysRun(c.source, sourceFaults, sourcePath, moveOrder);
      Transfer(d.0, d.1, if shared then d.1 else c.target, c.checks)
  }

  /** Move's key list as written: `make([]string, len(config))` already
      holds len(config) empty keys, and the range loop appends every key
      after them. */
  method MoveKeysAsWritten(config: map<string, string>) returns (keys: seq<string>, ghost order: seq<string>)
    ensures Enumerates(order, config)
    ensures |keys| == 2 * |config|
    ensures keys == seq(|config|, i => "") + order
  {
    var blanks := new string[|config|](i => "");
    keys := blanks[..];
    ghost var empty := blanks[..];
    assert empty == seq(|config|, i => "");
    var ks := Keys(config);
    order := ks;
    for i := 0 to |ks|
      invariant keys == empty + ks[..i]
    {
      ConcatAssoc(empty, ks[..i], [ks[i]]);
      assert ks[..i + 1] == ks[..i] + [ks[i]];
      keys := keys + [ks[i]];
    }
    assert ks[..|ks|] == ks;
    EnumeratesSize(order, config);
  }

  /** Define's deletion list: the current keys, in their order, that the
      new configuration lacks. */
  method KeysToDelete(currentKeys: seq<string>, config: map<string, string>) returns (keysToDelete: seq<string>)
    ensures keysToDelete == Outside(currentKeys, config)
  {
    keysToDelete := [];
    for i := 0 to |currentKeys|
      invariant keysToDelete + Outside(currentKeys[i..], config) == Outside(currentKeys, config)
    {
      var key := currentKeys[i];
      var rest := Outside(currentKeys[i + 1..], config);
      assert currentKeys[i..][1..] == currentKeys[i + 1..];
      assert Outside(currentKeys[i..], config) == (if key in config then [] else [key]) + rest;
      if key !in config {
        assert (keysToDelete + [key]) + rest == keysToDelete + ([key] + rest);
        keysToDelete := keysToDelete + [key];
      }
    }
  }

  // --------------------------------------------------------------- lemmas

  /** Folding keeps a key a single path element. */
  lemma FoldElement(key: string, upper: bool)
    requires IsElement(key)
    ensures IsElement(Fold(key, upper))
  {
    var f := Fold(key, upper);
    forall i | 0 <= i < |f|
      ensures f[i] != '/'
    {
      assert key[i] != '/';
    }
  }

  /** Every key stored below a service path is a single path element. */
  lemma StoredKeysAreElements(s: Store, servicePath: string)
    requires IsServicePath(servicePath)
    ensures forall k | k in StoredKeys(s, servicePath) :: IsElement(k)
  {
    forall k | k in StoredKeys(s, servicePath)
      ensures IsElement(k)
    {
      var n :| n in s.parameters && IsChild(n, servicePath) && Base(n) == k;
      ChildJoin(servicePath, n);
    }
  }

  /** A parameter named by a joined key is a child whose base is that key. */
  lemma TouchedAreChildren(servicePath: string, keys: set<string>, n: string)
    requires IsServicePath(servicePath) && forall k | k in keys :: IsElement(k)
    requires n in Touched(servicePath, keys)
    ensures IsChild(n, servicePath) && Base(n) in keys
  {
    var k :| k in keys && n == ParameterPath(servicePath, k);
    JoinedKeyIsChild(servicePath, k);
  }

  /** With no faults and fewer than ten keys stored, DeleteAll succeeds, no
      key is left below the service path, and every parameter outside it is
      unchanged. */
  lemma DeleteAllEmpties(rm: Remote, faults: map<nat, ApiError>, servicePath: string, order: seq<string>)
    requires Listed(rm.store) && IsServicePath(servicePath) && NoFaultsFrom(faults, |rm.log|)
    requires Enumerates(order, Config(rm.store, servicePath)) && |Config(rm.store, servicePath)| < MaxKeysPerRequest
    ensures var (r, after) := DeleteAllRun(rm, faults, servicePath, order);
      && r == Success(())
      && StoredKeys(after.store, servicePath) == {}
      && forall n | !IsChild(n, servicePath) :: SameAt(rm.store, after.store, n)
  {
    var s := rm.store;
    ReadAllConfig(rm, faults, servicePath);
    var afterRead := ReadAllRun(rm, faults, servicePath).1;
    EnumeratesSize(order, Config(rm.store, servicePath));
    DeleteKeysAll(afterRead, faults, servicePath, order);
    StoredKeysAreElements(s, servicePath);
    assert forall i | 0 <= i < |order| :: IsElement(order[i]) by {
      forall i | 0 <= i < |order| ensures IsElement(order[i]) {
        assert order[i] in Config(s, servicePath);
      }
    }
    DeleteMeaning(s, servicePath, order);
    var t := Delete(s, ParameterNames(servicePath, order));
    assert DeleteAllRun(rm, faults, servicePath, order) == (Success(()), DeleteKeysRun(afterRead, faults, servicePath, order).1);
    forall n | IsChild(n, servicePath)
      ensures n !in t.parameters
    {
      ChildJoin(servicePath, n);
      if n in s.parameters {
        assert Base(n) in StoredKeys(s, servicePath);
        assert Base(n) in Config(s, servicePath);
      }
    }
    forall n | !IsChild(n, servicePath)
      ensures SameAt(s, t, n)
    {
      if n in Touched(servicePath, set k | k in order) {
        TouchedAreChildren(servicePath, (set k | k in order), n);
      }
    }
  }

  /** Define's deletion on stores: after a write that changed only the new
      configuration's parameters, deleting the current keys the new
      configuration lacks leaves no other key below the service path, keeps
      the configuration's parameters, and touches nothing outside. */
  lemma DefineDeletes(s: Store, written: Store, servicePath: string, config: map<string, string>, currentOrder: seq<string>)
    requires IsServicePath(servicePath) && forall k | k in config :: IsElement(k)
    requires Enumerates(currentOrder, Config(s, servicePath))
    requires forall n | n !in Touched(servicePath, config.Keys) :: SameAt(s, written, n)
    ensures var t := Delete(written, ParameterNames(servicePath, Outside(currentOrder, config)));
      && StoredKeys(t, servicePath) <= config.Keys
      && (forall k | k in config :: SameAt(written, t, ParameterPath(servicePath, k)))
      && forall n | !IsChild(n, servicePath) :: SameAt(s, t, n)
  {
    var del := Outside(currentOrder, config);
    StoredKeysAreElements(s, servicePath);
    OutsideExactly(currentOrder, Config(s, servicePath), config);
    assert forall i | 0 <= i < |del| :: IsElement(del[i]) by {
      forall i | 0 <= i < |del| ensures IsElement(del[i]) {
        assert del[i] in Config(s, servicePath);
      }
    }
    DeleteMeaning(written, servicePath, del);
    var t := Delete(written, ParameterNames(servicePath, del));
    var deleted := set k | k in del;
    forall n | !IsChild(n, servicePath)
      ensures SameAt(s, t, n)
    {
      if n in Touched(servicePath, config.Keys) {
        TouchedAreChildren(servicePath, config.Keys, n);
      }
      if n in Touched(servicePath, deleted) {
        TouchedAreChildren(servicePath, deleted, n);
      }
    }
    forall k | k in config
      ensures SameAt(written, t, ParameterPath(servicePath, k))
    {
      if ParameterPath(servicePath, k) in Touched(servicePath, deleted) {
        TouchedAreChildren(servicePath, deleted, ParameterPath(servicePath, k));
        JoinedKeyIsChild(servicePath, k);
      }
    }
    forall n | IsChild(n, servicePath) && Base(n) !in config
      ensures n !in t.parameters
    {
      ChildJoin(servicePath, n);
      if n in Touched(servicePath, config.Keys) {
        TouchedAreChildren(servicePath, config.Keys, n);
      }
      if n in s.parameters {
        assert Base(n) in StoredKeys(s, servicePath);
        assert Base(n) in Config(s, servicePath);
        assert Base(n) in del;
      }
    }
  }

  /** With no faults, no cancellation, fewer than ten keys to write and
      fewer than ten stale keys to delete, Define succeeds and leaves the
      service path holding the new configuration: no key outside it remains,
      every key of it holds its value (a key given "" may keep an old value,
      as WriteKeys allows), and nothing outside the service path changes. */
  lemma DefineAll(rm: Remote, faults: map<nat, ApiError>, cancelAt: Option<nat>, checks: nat, keyId: string,
                  servicePath: string, config: map<string, string>, currentOrder: seq<string>,
                  keys: seq<string>, writeOrder: seq<string>)
    requires Listed(rm.store) && IsServicePath(servicePath) && NoFaultsFrom(faults, |rm.log|)
    requires cancelAt.None? || checks + |writeOrder| <= cancelAt.value
    requires forall k | k in config :: IsElement(k)
    requires Enumerates(currentOrder, Config(rm.store, servicePath))
    requires Enumerates(keys, config) && Enumerates(writeOrder, config)
    requires |config| < MaxKeysPerRequest && |Outside(currentOrder, config)| < MaxKeysPerRequest
    ensures var o := DefineRun(rm, faults, cancelAt, checks, keyId, servicePath, config, currentOrder, keys, writeOrder);
      && o.result == Success(())
      && StoredKeys(o.remote.store, servicePath) <= config.Keys
      && (forall k | k in config :: StoredValue(o.remote.store, servicePath, k) == config[k]
            || (config[k] == "" && SameAt(rm.store, o.remote.store, ParameterPath(servicePath, k))))
      && forall n | !IsChild(n, servicePath) :: SameAt(rm.store, o.remote.store, n)
  {
    var s := rm.store;
    ReadAllConfig(rm, faults, servicePath);
    var afterRead := ReadAllRun(rm, faults, servicePath).1;
    WriteKeysAll(afterRead, faults, cancelAt, checks, keyId, servicePath, config, keys, writeOrder);
    var w := WriteKeysRun(afterRead, faults, cancelAt, checks, keyId, servicePath, config, keys, writeOrder);
    var del := Outside(currentOrder, config);
    DeleteKeysAll(w.remote, faults, servicePath, del);
    DefineDeletes(s, w.remote.store, servicePath, config, currentOrder);
    assert DefineRun(rm, faults, cancelAt, checks, keyId, servicePath, config, currentOrder, keys, writeOrder)
        == Outcome(Success(()), DeleteKeysRun(w.remote, faults, servicePath, del).1, w.checks);
  }

  /** With no faults, no cancellation and fewer than ten keys to write, copy
      succeeds and returns the source's configuration as the target folded it; the source's
      parameters are unchanged, the target holds every copied key with its
      value (a key copied with "" may keep an old value, as WriteKeys
      allows), and nothing outside the target's service path changes. */
  lemma CopyAll(source: Remote, target: Remote, shared: bool, sourceFaults: map<nat, ApiError>,
                targetFaults: map<nat, ApiError>, cancelAt: Option<nat>, checks: nat, sourcePath: string,
                keyId: string, targetPath: string, targetFolds: bool,
                foldOrder: seq<string>, keys: seq<string>, writeOrder: seq<string>)
    requires Listed(source.store) && IsServicePath(sourcePath) && IsServicePath(targetPath)
    requires NoFaultsFrom(sourceFaults, |source.log|) && NoFaultsFrom(targetFaults, |target.log|)
    requires shared ==> target == source && targetFaults == sourceFaults
    requires cancelAt.None? || checks + 2 + |writeOrder| <= cancelAt.value
    requires targetFolds ==> Enumerates(foldOrder, Config(source.store, sourcePath))
    requires var m := Chambered(targetFolds, Config(source.store, sourcePath), foldOrder, false);
      Enumerates(keys, m) && Enumerates(writeOrder, m) && |m| < MaxKeysPerRequest
    ensures var c := CopyRun(source, target, shared, sourceFaults, targetFaults, cancelAt, checks, sourcePath,
                             keyId, targetPath, targetFolds, foldOrder, keys, writeOrder);
      var m := Chambered(targetFolds, Config(source.store, sourcePath), foldOrder, false);
      var before := if shared then source.store else target.store;
      && c.result == Success(m)
      && c.source.store == (if shared then c.target.store else source.store)
      && source.log <= c.source.log
      && (forall k | k in m :: StoredValue(c.target.store, targetPath, k) == m[k]
            || (m[k] == "" && SameAt(before, c.target.store, ParameterPath(targetPath, k))))
      && forall n | !IsChild(n, targetPath) :: SameAt(before, c.target.store, n)
  {
    var config := Config(source.store, sourcePath);
    var m := Chambered(targetFolds, config, foldOrder, false);
    ReadAllConfig(source, sourceFaults, sourcePath);
    ReadPagesKeepStore(source, sourceFaults, sourcePath, 0);
    var afterRead := ReadAllRun(source, sourceFaults, sourcePath).1;
    var before := if shared then afterRead else target;
    StoredKeysAreElements(source.store, sourcePath);
    forall k | k in m
      ensures IsElement(k)
    {
      if targetFolds {
        ChamberedMeaning(targetFolds, config, foldOrder, false);
        var x :| x in config && Fold(x, false) == k;
        FoldElement(x, false);
      }
    }
    WriteKeysAll(before, targetFaults, cancelAt, checks + 2, keyId, targetPath, m, keys, writeOrder);
    var w := WriteKeysRun(before, targetFaults, cancelAt, checks + 2, keyId, targetPath, m, keys, writeOrder);
    CopyRunWrites(source, target, shared, sourceFaults, targetFaults, cancelAt, checks, sourcePath,
                  keyId, targetPath, targetFolds, foldOrder, keys, writeOrder);
    forall n | !IsChild(n, targetPath)
      ensures n !in Touched(targetPath, m.Keys)
    {
      if n in Touched(targetPath, m.Keys) {
        TouchedAreChildren(targetPath, m.Keys, n);
      }
    }
  }

  /** A copy whose cancellation checks pass and whose ReadAll returns the
      source's configuration ends with the target's write of that map. */
  lemma CopyRunWrites(source: Remote, target: Remote, shared: bool, sourceFaults: map<nat, ApiError>,
                      targetFaults: map<nat, ApiError>, cancelAt: Option<nat>, checks: nat, sourcePath: string,
                      keyId: string, targetPath: string, targetFolds: bool,
                      foldOrder: seq<string>, keys: seq<string>, writeOrder: seq<string>)
    requires !DoneAt(cancelAt, checks) && !DoneAt(cancelAt, checks + 1)
    requires ReadAllRun(source, sourceFaults, sourcePath).0 == Success(Config(source.store, sourcePath))
    ensures var afterRead := ReadAllRun(source, sourceFaults, sourcePath).1;
      var before := if shared then afterRead else target;
      var m := Chambered(targetFolds, Config(source.store, sourcePath), foldOrder, false);
      var w := WriteKeysRun(before, targetFaults, cancelAt, checks + 2, keyId, targetPath, m, keys, writeOrder);
      CopyRun(source, target, shared, sourceFaults, targetFaults, cancelAt, checks, sourcePath,
              keyId, targetPath, targetFolds, foldOrder, keys, writeOrder)
        == Transfer(if w.result.Success? then Success(m) else Failure(w.result.error),
                    if shared then w.remote else afterRead, w.remote, w.checks)
  {
  }

  /** With the hypotheses of CopyAll, Move succeeds. The target is what
      copy left (CopyAll), and the source then loses exactly the parameters
      named by the copied map's keys: under a folding target those are the
      lower-cased keys, so a source key with an upper-case letter keeps its
      parameter. */
  lemma MoveAll(source: Remote, target: Remote, shared: bool, sourceFaults: map<nat, ApiError>,
                targetFaults: map<nat, ApiError>, cancelAt: Option<nat>, checks: nat, sourcePath: string,
                keyId: string, targetPath: string, targetFolds: bool,
                foldOrder: seq<string>, keys: seq<string>, writeOrder: seq<string>, moveOrder: seq<string>)
    requires Listed(source.store) && IsServicePath(sourcePath) && IsServicePath(targetPath)
    requires NoFaultsFrom(sourceFaults, |source.log|) && NoFaultsFrom(targetFaults, |target.log|)
    requires shared ==> target == source && targetFaults == sourceFaults
    requires cancelAt.None? || checks + 2 + |writeOrder| <= cancelAt.value
    requires targetFolds ==> Enumerates(foldOrder, Config(source.store, sourcePath))
    requires var m := Chambered(targetFolds, Config(source.store, sourcePath), foldOrder, false);
      Enumerates(keys, m) && Enumerates(writeOrder, m) && Enumerates(moveOrder, m) && |m| < MaxKeysPerRequest
    ensures var mv := MoveRun(source, target, shared, sourceFaults, targetFaults, cancelAt, checks, sourcePath,
                              keyId, targetPath, targetFolds, foldOrder, keys, writeOrder, moveOrder);
      var c := CopyRun(source, target, shared, sourceFaults, targetFaults, cancelAt, checks, sourcePath,
                       keyId, targetPath, targetFolds, foldOrder, keys, writeOrder);
      var m := Chambered(targetFolds, Config(source.store, sourcePath), foldOrder, false);
      && mv.result == Success(())
      && mv.target == (if shared then mv.source else c.target)
      && (!shared ==> forall k | k in m ::
            || StoredValue(mv.target.store, targetPath, k) == m[k]
            || (m[k] == "" && SameAt(target.store, mv.target.store, ParameterPath(targetPath, k))))
      && mv.source.store == Delete(if shared then c.target.store else source.store, ParameterNames(sourcePath, moveOrder))
  {
    CopyAll(source, target, shared, sourceFaults, targetFaults, cancelAt, checks, sourcePath,
            keyId, targetPath, targetFolds, foldOrder, keys, writeOrder);
    var c := CopyRun(source, target, shared, sourceFaults, targetFaults, cancelAt, checks, sourcePath,
                     keyId, targetPath, targetFolds, foldOrder, keys, writeOrder);
    var m := Chambered(targetFolds, Config(source.store, sourcePath), foldOrder, false);
    EnumeratesSize(moveOrder, m);
    DeleteKeysAll(c.source, sourceFaults, sourcePath, moveOrder);
  }

  /** A Move whose copy fails deletes nothing: its source is the one copy
      left, which with two clients is the source as it was. */
  lemma MoveCopyFailed(source: Remote, target: Remote, shared: bool, sourceFaults: map<nat, ApiError>,
                       targetFaults: map<nat, ApiError>, cancelAt: Option<nat>, checks: nat, sourcePath: string,
                       keyId: string, targetPath: string, targetFolds: bool,
                       foldOrder: seq<string>, keys: seq<string>, writeOrder: seq<string>, moveOrder: seq<string>)
    requires CopyRun(source, target, shared, sourceFaults, targetFaults, cancelAt, checks, sourcePath,
                     keyId, targetPath, targetFolds, foldOrder, keys, writeOrder).result.Failure?
    ensures var mv := MoveRun(source, target, shared, sourceFaults, targetFaults, cancelAt, checks, sourcePath,
                              keyId, targetPath, targetFolds, foldOrder, keys, writeOrder, moveOrder);
      var c := CopyRun(source, target, shared, sourceFaults, targetFaults, cancelAt, checks, sourcePath,
                       keyId, targetPath, targetFolds, foldOrder, keys, writeOrder);
      && mv.result == Failure(c.result.error)
      && mv.source == c.source && mv.target == c.target
      && (!shared ==> mv.source.store == source.store)
  {
    ReadPagesKeepStore(source, sourceFaults, sourcePath, 0);
  }

  /** Move as written: with anything to move, its key list starts with
      empty keys, whose parameter name is the source's service path itself,
      so a parameter stored under exactly that name is deleted too. */
  lemma MoveAsWrittenDeletesServicePath(s: Store, servicePath: string, config: map<string, string>, order: seq<string>)
    requires IsServicePath(servicePath) && config != map[] && Enumerates(order, config)
    ensures var names := ParameterNames(servicePath, seq(|config|, i => "") + order);
      && servicePath in names
      && servicePath !in Delete(s, names).parameters
  {
    JoinEmptyKey(servicePath);
    var keys := seq(|config|, i => "") + order;
    assert keys[0] == "";
    assert ParameterNames(servicePath, keys)[0] == servicePath;
  }

  /** Move as written, once five keys are moved: the doubled list holds at
      least ten keys, so deleting it stops in batchKeys' index-out-of-range
      panic before any call, and the source keeps every parameter. */
  lemma MoveAsWrittenPanics(rm: Remote, faults: map<nat, ApiError>, servicePath: string,
                            config: map<string, string>, order: seq<string>)
    requires Enumerates(order, config) && |config| >= 5
    ensures DeleteKeysRun(rm, faults, servicePath, seq(|config|, i => "") + order) == (Failure(IndexOutOfRange), rm)
  {
    EnumeratesSize(order, config);
  }

  /** Move's key list as intended, each copied key once: the parameter
      named like the service path itself is not among the deleted names. */
  lemma MoveKeepsServicePath(s: Store, servicePath: string, config: map<string, string>, order: seq<string>)
    requires IsServicePath(servicePath) && Enumerates(order, config) && forall k | k in config :: IsElement(k)
    ensures var names := ParameterNames(servicePath, order);
      && servicePath !in names
      && SameAt(s, Delete(s, names), servicePath)
  {
    NotOwnChild(servicePath);
    var names := ParameterNames(servicePath, order);
    forall i | 0 <= i < |names|
      ensures names[i] != servicePath
    {
      assert order[i] in config;
      JoinedKeyIsChild(servicePath, order[i]);
    }
  }

  class Confman {
    const storage: ParameterStore
    const serviceName: string
    const chamberCompatible: bool

    ghost predicate Valid()
      reads this, storage, storage.ssm
    {
      storage.Valid()
    }

    /** New: the service name is kept in FormatServiceName's form;
        `chamberCompatible` is the package-level switch at creation time. */
    constructor (storage: ParameterStore, serviceName: string, chamberCompatible: bool)
      ensures this.storage == storage && this.serviceName == FormatServiceName(serviceName)
      ensures this.chamberCompatible == chamberCompatible
    {
      this.storage := storage;
      this.serviceName := FormatServiceName(serviceName);
      this.chamberCompatible := chamberCompatible;
    }

    // ------------------------------------------------- in-place helpers

    /** chamberKeysToLower: rewrites the caller's slice. */
    method KeysToLower(keys: array<string>)
      modifies keys
      ensures forall i | 0 <= i < keys.Length :: keys[i] == ChamberKey(chamberCompatible, old(keys[i]), false)
    {
      if chamberCompatible {
        for i := 0 to keys.Length
          invariant forall j | 0 <= j < i :: keys[j] == ToLower(old(keys[j]))
          invariant forall j | i <= j < keys.Length :: keys[j] == old(keys[j])
        {
          keys[i] := ChamberKey(chamberCompatible, keys[i], false);
        }
      }
    }

    /** chamberKeyMetaToUpper: rewrites the keys of the caller's records. */
    method KeyMetaToUpper(records: array<KeyMetadata>)
      modifies records
      ensures forall i | 0 <= i < records.Length ::
        records[i] == old(records[i]).(key := ChamberKey(chamberCompatible, old(records[i]).key, true))
    {
      for i := 0 to records.Length
        invariant forall j | 0 <= j < i :: records[j] == old(records[j]).(key := ChamberKey(chamberCompatible, old(records[j]).key, true))
        invariant forall j | i <= j < records.Length :: records[j] == old(records[j])
      {
        records[i] := records[i].(key := ChamberKey(chamberCompatible, records[i].key, true));
      }
    }

    /** chamberConfigToLower (`upper` false) and chamberConfigToUpper:
        with compatibility on, range over the caller's map, deleting each
        key and storing its current value under the folded key. */
    method FoldConfig(config: StringMap, upper: bool) returns (ghost order: seq<string>)
      modifies config
      ensures chamberCompatible ==> Enumerates(order, old(config.entries))
      ensures config.entries == Chambered(chamberCompatible, old(config.entries), order, upper)
    {
      order := [];
      if chamberCompatible {
        var keys := Keys(config.entries);
        order := keys;
        ghost var original := config.entries;
        for i := 0 to |keys|
          invariant config.entries == RefoldInPlace(original, keys[..i], upper)
        {
          RefoldInPlaceVisit(original, keys, i, upper);
          var key := keys[i];
          var value := config.entries[key];
          config.entries := config.entries - {key};
          config.entries := config.entries[Fold(key, upper) := value];
        }
        assert keys[..|keys|] == keys;
      }
    }

    // ------------------------------------------------------ operations

    /** Add: the store's Write of the (lower-cased) key below the service. */
    method Add(key: string, value: string) returns (r: Result<(), Error>)
      requires Valid()
      modifies storage.ssm
      ensures Valid()
      ensures (r, storage.ssm.remote) == WriteRun(old(storage.ssm.remote), storage.ssm.faults, storage.kmsKeyId,
                                                   serviceName, ChamberKey(chamberCompatible, key, false), value)
    {
      r := storage.Write(serviceName, ChamberKey(chamberCompatible, key, false), value);
    }

    /** AddKeys: lower-case the caller's map in place, then the store's
        WriteKeys of it. */
    method AddKeys(ctx: Context, config: StringMap)
      returns (r: Result<(), Error>, ghost foldOrder: seq<string>, ghost keys: seq<string>, ghost writeOrder: seq<string>)
      requires Valid()
      modifies config, storage.ssm, ctx
      ensures Valid()
      ensures chamberCompatible ==> Enumerates(foldOrder, old(config.entries))
      ensures config.entries == Chambered(chamberCompatible, old(config.entries), foldOrder, false)
      ensures Enumerates(keys, config.entries) && Enumerates(writeOrder, config.entries)
      ensures Outcome(r, storage.ssm.remote, ctx.checks)
           == WriteKeysRun(old(storage.ssm.remote), storage.ssm.faults, ctx.cancelAt, old(ctx.checks), storage.kmsKeyId,
                           serviceName, config.entries, keys, writeOrder)
    {
      foldOrder := FoldConfig(config, false);
      r, keys, writeOrder := storage.WriteKeys(ctx, serviceName, config.entries);
    }

    /** Read: the store's Read of the (lower-cased) key. */
    method Read(key: string) returns (r: Result<string, Error>)
      requires Valid()
      modifies storage.ssm
      ensures Valid()
      ensures (r, storage.ssm.remote)
           == ReadRun(old(storage.ssm.remote), storage.ssm.faults, serviceName, ChamberKey(chamberCompatible, key, false))
    {
      r := storage.Read(serviceName, ChamberKey(chamberCompatible, key, false));
    }

    /** ReadKeys: lower-case the caller's slice in place, read those keys,
        and upper-case the result's keys in place. */
    method ReadKeys(keys: array<string>) returns (r: Result<map<string, string>, Error>, ghost order: seq<string>)
      requires Valid()
      modifies keys, storage.ssm
      ensures Valid()
      ensures forall i | 0 <= i < keys.Length :: keys[i] == ChamberKey(chamberCompatible, old(keys[i]), false)
      ensures var run := ReadKeysRun(old(storage.ssm.remote), storage.ssm.faults, serviceName, keys[..]);
        && storage.ssm.remote == run.1
        && (chamberCompatible && run.0.Success? ==> Enumerates(order, run.0.value))
        && r == ChamberedRead(chamberCompatible, run.0, order)
    {
      order := [];
      KeysToLower(keys);
      var config := storage.ReadKeys(serviceName, keys[..]);
      if config.Failure? {
        return Failure(config.error), order;
      }
      var m := new StringMap(config.value);
      order := FoldConfig(m, true);
      return Success(m.entries), order;
    }

    /** ReadAll: the store's ReadAll, its keys upper-cased in place. */
    method ReadAll() returns (r: Result<map<string, string>, Error>, ghost order: seq<string>)
      requires Valid()
      modifies storage.ssm
      ensures Valid()
      ensures var run := ReadAllRun(old(storage.ssm.remote), storage.ssm.faults, serviceName);
        && storage.ssm.remote == run.1
        && (chamberCompatible && run.0.Success? ==> Enumerates(order, run.0.value))
        && r == ChamberedRead(chamberCompatible, run.0, order)
    {
      order := [];
      var config := storage.ReadAll(serviceName);
      if config.Failure? {
        return Failure(config.error), order;
      }
      var m := new StringMap(config.value);
      order := FoldConfig(m, true);
      return Success(m.entries), order;
    }

    /** ReadAllMetadata: the store's records, their keys upper-cased in place. */
    method ReadAllMetadata() returns (r: Result<seq<KeyMetadata>, Error>)
      requires Valid()
      modifies storage.ssm
      ensures Valid()
      ensures var run := ReadAllMetadataRun(old(storage.ssm.remote), storage.ssm.faults, storage.ssm.describePageSize, serviceName);
        && storage.ssm.remote == run.1
        && (r.Success? <==> run.0.Success?)
        && (r.Failure? ==> r.error == run.0.error)
        && (r.Success? ==> (|r.value| == |run.0.value| &&
              forall i | 0 <= i < |r.value| ::
                r.value[i] == run.0.value[i].(key := ChamberKey(chamberCompatible, run.0.value[i].key, true))))
    {
      var read := storage.ReadAllMetadata(serviceName);
      if read.Failure? {
        return Failure(read.error);
      }
      var records := new KeyMetadata[|read.value|](i requires 0 <= i < |read.value| => read.value[i]);
      KeyMetaToUpper(records);
      return Success(records[..]);
    }

    /** copy: two cancellation checks around the source's ReadAll, then the
        target's AddKeys on the map read; the map, as AddKeys left it, is
        returned. An empty source is still written. */
    method Copy(ctx: Context, dst: Confman)
      returns (r: Result<StringMap, Error>, ghost foldOrder: seq<string>, ghost keys: seq<string>, ghost writeOrder: seq<string>)
      requires Valid() && dst.Valid()
      modifies storage.ssm, dst.storage.ssm, ctx
      ensures Valid() && dst.Valid()
      ensures var c := CopyRun(old(storage.ssm.remote), old(dst.storage.ssm.remote), storage.ssm == dst.storage.ssm,
                               storage.ssm.faults, dst.storage.ssm.faults, ctx.cancelAt, old(ctx.checks), serviceName,
                               dst.storage.kmsKeyId, dst.serviceName, dst.chamberCompatible, foldOrder, keys, writeOrder);
        && storage.ssm.remote == c.source && dst.storage.ssm.remote == c.target && ctx.checks == c.checks
        && (r.Success? <==> c.result.Success?)
        && (r.Failure? ==> r.error == c.result.error)
        && (r.Success? ==> (fresh(r.value) && r.value.entries == c.result.value
              && Enumerates(keys, r.value.entries) && Enumerates(writeOrder, r.value.entries)))
    {
      foldOrder, keys, writeOrder := [], [], [];
      var done := ctx.Done();
      if done {
        return Failure(Canceled), foldOrder, keys, writeOrder;
      }
      var read := storage.ReadAll(serviceName);
      if read.Failure? {
        return Failure(read.error), foldOrder, keys, writeOrder;
      }
      r, foldOrder, keys, writeOrder := dst.CopyInto(ctx, read.value);
    }

    /** The target side of copy, run by the target. */
    method CopyInto(ctx: Context, read: map<string, string>)
      returns (r: Result<StringMap, Error>, ghost foldOrder: seq<string>, ghost keys: seq<string>, ghost writeOrder: seq<string>)
      requires Valid()
      modifies storage.ssm, ctx
      ensures Valid()
      ensures var c := CopyWriteRun(old(storage.ssm.remote), storage.ssm.faults, ctx.cancelAt, old(ctx.checks), storage.kmsKeyId,
                                    serviceName, chamberCompatible, read, foldOrder, keys, writeOrder);
        && storage.ssm.remote == c.target && ctx.checks == c.checks
        && (r.Success? <==> c.result.Success?)
        && (r.Failure? ==> r.error == c.result.error)
        && (r.Success? ==> (fresh(r.value) && r.value.entries == c.result.value
              && Enumerates(keys, r.value.entries) && Enumerates(writeOrder, r.value.entries)))
    {
      foldOrder, keys, writeOrder := [], [], [];
      var done := ctx.Done();
      if done {
        return Failure(Canceled), foldOrder, keys, writeOrder;
      }
      var config := new StringMap(read);
      var w;
      w, foldOrder, keys, writeOrder := AddKeys(ctx, config);
      if w.Failure? {
        return Failure(w.error), foldOrder, keys, writeOrder;
      }
      return Success(config), foldOrder, keys, writeOrder;
    }

    /** Move: copy, then delete the keys of the map copy returned from the
        source's service path. The key list holds each key once; see
        MoveKeysAsWritten for the list the code builds. */
    method Move(ctx: Context, dst: Confman)
      returns (r: Result<(), Error>, ghost foldOrder: seq<string>, ghost keys: seq<string>, ghost writeOrder: seq<string>,
               ghost moveOrder: seq<string>)
      requires Valid() && dst.Valid()
      modifies storage.ssm, dst.storage.ssm, ctx
      ensures Valid() && dst.Valid()
      ensures var m := MoveRun(old(storage.ssm.remote), old(dst.storage.ssm.remote), storage.ssm == dst.storage.ssm,
                               storage.ssm.faults, dst.storage.ssm.faults, ctx.cancelAt, old(ctx.checks), serviceName,
                               dst.storage.kmsKeyId, dst.serviceName, dst.chamberCompatible, foldOrder, keys, writeOrder, moveOrder);
        storage.ssm.remote == m.source && dst.storage.ssm.remote == m.target && ctx.checks == m.checks && r == m.result
      ensures var c := CopyRun(old(storage.ssm.remote), old(dst.storage.ssm.remote), storage.ssm == dst.storage.ssm,
                               storage.ssm.faults, dst.storage.ssm.faults, ctx.cancelAt, old(ctx.checks), serviceName,
                               dst.storage.kmsKeyId, dst.serviceName, dst.chamberCompatible, foldOrder, keys, writeOrder);
        c.result.Success? ==> Enumerates(moveOrder, c.result.value)
    {
      var c;
      moveOrder := [];
      c, foldOrder, keys, writeOrder := Copy(ctx, dst);
      if c.Failure? {
        return Failure(c.error), foldOrder, keys, writeOrder, moveOrder;
      }
      var names := Keys(c.value.entries);
      moveOrder := names;
      r := storage.DeleteKeys(serviceName, names);
    }

    /** Define: lower-case the caller's map in place, read the current
        configuration, write the new one, then delete the current keys the
        new one lacks. */
    method Define(ctx: Context, config: StringMap)
      returns (r: Result<(), Error>, ghost foldOrder: seq<string>, ghost currentOrder: seq<string>,
               ghost keys: seq<string>, ghost writeOrder: seq<string>)
      requires Valid()
      modifies config, storage.ssm, ctx
      ensures Valid()
      ensures chamberCompatible ==> Enumerates(foldOrder, old(config.entries))
      ensures config.entries == Chambered(chamberCompatible, old(config.entries), foldOrder, false)
      ensures var current := ReadAllRun(old(storage.ssm.remote), storage.ssm.faults, serviceName).0;
        current.Success? ==> (Enumerates(currentOrder, current.value)
          && Enumerates(keys, config.entries) && Enumerates(writeOrder, config.entries))
      ensures Outcome(r, storage.ssm.remote, ctx.checks)
           == DefineRun(old(storage.ssm.remote), storage.ssm.faults, ctx.cancelAt, old(ctx.checks), storage.kmsKeyId,
                        serviceName, config.entries, currentOrder, keys, writeOrder)
    {
      currentOrder, keys, writeOrder := [], [], [];
      foldOrder := FoldConfig(config, false);
      var current := storage.ReadAll(serviceName);
      if current.Failure? {
        return Failure(current.error), foldOrder, currentOrder, keys, writeOrder;
      }
      var currentKeys := Keys(current.value);
      currentOrder := currentKeys;
      var keysToDelete := KeysToDelete(currentKeys, config.entries);
      var w;
      w, keys, writeOrder := storage.WriteKeys(ctx, serviceName, config.entries);
      if w.Failure? {
        return w, foldOrder, currentOrder, keys, writeOrder;
      }
      r := storage.DeleteKeys(serviceName, keysToDelete);
    }

    /** Delete: the store's Delete of the (lower-cased) key. */
    method Delete(key: string) returns (r: Result<(), Error>)
      requires Valid()
      modifies storage.ssm
      ensures Valid()
      ensures (r, storage.ssm.remote)
           == DeleteRun(old(storage.ssm.remote), storage.ssm.faults, serviceName, ChamberKey(chamberCompatible, key, false))
    {
      r := storage.Delete(serviceName, ChamberKey(chamberCompatible, key, false));
    }

    /** DeleteKeys: lower-case the caller's slice in place, then delete. */
    method DeleteKeys(keys: array<string>) returns (r: Result<(), Error>)
      requires Valid()
      modifies keys, storage.ssm
      ensures Valid()
      ensures forall i | 0 <= i < keys.Length :: keys[i] == ChamberKey(chamberCompatible, old(keys[i]), false)
      ensures (r, storage.ssm.remote) == DeleteKeysRun(old(storage.ssm.remote), storage.ssm.faults, serviceName, keys[..])
    {
      KeysToLower(keys);
      r := storage.DeleteKeys(serviceName, keys[..]);
    }

    /** DeleteAll: delete exactly the keys ReadAll returns. */
    method DeleteAll() returns (r: Result<(), Error>, ghost order: seq<string>)
      requires Valid()
      modifies storage.ssm
      ensures Valid()
      ensures var current := ReadAllRun(old(storage.ssm.remote), storage.ssm.faults, serviceName).0;
        current.Success? ==> Enumerates(order, current.value)
      ensures (r, storage.ssm.remote) == DeleteAllRun(old(storage.ssm.remote), storage.ssm.faults, serviceName, order)
    {
      order := [];
      var config := storage.ReadAll(serviceName);
      if config.Failure? {
        return Failure(config.error), order;
      }
      var keys := Keys(config.value);
      order := keys;
      r := storage.DeleteKeys(serviceName, keys);
    }

    /** FormatKeyPath: the key's full name below the service. */
    function FormatKeyPath(key: string): (r: string)
      ensures IsServicePath(serviceName) && IsElement(key) ==> IsChild(r, serviceName) && Base(r) == key
    {
      assert IsServicePath(serviceName) && IsElement(key) ==> IsChild(Join(serviceName, key), serviceName) && Base(Join(serviceName, key)) == key by {
        if IsServicePath(serviceName) && IsElement(key) {
          JoinedKeyIsChild(serviceName, key);
        }
      }
      Join(serviceName, key)
    }
  }
}
