/** The deploy command's decisions: which service path a configuration file
    deploys to, which keys a defining deploy deletes and when the user's
    answer lets it, and the define-then-write order over the files. Reading
    the files, printing and the prompt text are left out; the answers the
    user types are a sequence of already scanned lines. */
module Deploy {
  import opened Wrappers
  import opened Strings
  import opened Paths
  import opened Maps
  import opened Ssm
  import opened Storage
  import opened Contexts
  import opened ServicePaths
  import opened ParameterStoreSpec
  import opened ParameterStoreAdapter
  import opened ConfmanCore

  // ------------------------------------------------------ file paths

  /** filePathToServicePath: the file path without the base in front and
      without the extension. None stands for the slice that runs out of
      range (a run-time panic) when what is left after the base is shorter
      than the extension. */
  function FilePathToServicePath(base: string, filePath: string): (r: Option<string>)
    ensures r.Some? <==> |Ext(filePath)| <= |TrimPrefix(filePath, base)|
    ensures r.Some? ==> r.value + Ext(filePath) == TrimPrefix(filePath, base)
  {
    var servicePath := TrimPrefix(filePath, base);
    var ext := Ext(filePath);
    if |servicePath| < |ext| then None
    else
      SuffixOfSuffix(filePath, servicePath, ext);
      Some(servicePath[..|servicePath| - |ext|])
  }

  /** Two suffixes of one string: the shorter is a suffix of the longer. */
  lemma SuffixOfSuffix(s: string, long: string, short: string)
    requires |short| <= |long| <= |s|
    requires long == s[|s| - |long|..] && short == s[|s| - |short|..]
    ensures long[..|long| - |short|] + short == long
  {
    assert long[|long| - |short|..] == short;
  }

  /** A file below the base deploys to its path relative to the base,
      extension dropped: base, service path and extension spell the file
      path. */
  lemma FilePathBelowBase(base: string, filePath: string)
    requires HasPrefix(filePath, base) && |base| + |Ext(filePath)| <= |filePath|
    ensures FilePathToServicePath(base, filePath).Some?
    ensures base + FilePathToServicePath(base, filePath).value + Ext(filePath) == filePath
  {
    var trimmed := TrimPrefix(filePath, base);
    assert base + trimmed == filePath;
    var r := FilePathToServicePath(base, filePath);
    assert r.Some? && r.value + Ext(filePath) == trimmed;
    ConcatAssoc(base, r.value, Ext(filePath));
  }

  /** A base equal to a file path with an extension leaves nothing to slice
      the extension off: the conversion panics. */
  lemma BaseIsFilePath(filePath: string)
    requires Ext(filePath) != ""
    ensures FilePathToServicePath(filePath, filePath) == None
  {
    assert TrimPrefix(filePath, filePath) == "";
  }

  lemma FilePathExample()
    ensures FilePathToServicePath("/conf", "/conf/service/dev.yaml") == Some("/service/dev")
  {
    var p := "/conf/service/dev.yaml";
    YamlExtension();
    assert HasPrefix(p, "/conf");
    assert TrimPrefix(p, "/conf")[..12] == "/service/dev";
  }

  /** The extension of the example file is `.yaml`, built up one character
      at a time from the dot. */
  lemma YamlExtension()
    ensures Ext("/conf/service/dev.yaml") == ".yaml"
  {
    var p := "/conf/service/dev.yaml";
    assert p[..18] == p[..17] + ".";
    ExtDot(p[..17]);
    assert p[..19] == p[..18] + [p[18]];
    ExtGrows(p[..18], p[18]);
    assert p[..20] == p[..19] + [p[19]];
    ExtGrows(p[..19], p[19]);
    assert p[..21] == p[..20] + [p[20]];
    ExtGrows(p[..20], p[20]);
    assert p == p[..21] + [p[21]];
    ExtGrows(p[..21], p[21]);
  }

  lemma ExtDot(p: string)
    ensures Ext(p + ".") == "."
  {
  }

  /** A character other than a slash or a dot extends a non-empty extension. */
  lemma ExtGrows(p: string, c: char)
    requires c != '/' && c != '.' && Ext(p) != ""
    ensures Ext(p + [c]) == Ext(p) + [c]
  {
    assert (p + [c])[..|p|] == p;
  }

  // ------------------------------------------------------- the prompt

  /** What the user types: one scanned answer per line, None for a line
      that cannot be scanned. Reading past the end fails. */
  class Terminal {
    var input: seq<Option<string>>

    constructor (input: seq<Option<string>>)
      ensures this.input == input
    {
      this.input := input;
    }

    /** fmt.Fscanln of one answer. */
    method ReadAnswer() returns (answer: Option<string>)
      modifies this
      ensures answer == (if old(input) == [] then None else old(input)[0])
      ensures input == Rest(old(input))
    {
      if input == [] {
        return None;
      }
      answer := input[0];
      input := input[1..];
    }
  }

  /** The input left after one line is read. */
  function Rest(input: seq<Option<string>>): (r: seq<Option<string>>)
    ensures input != [] ==> |r| + 1 == |input|
  {
    if input == [] then [] else input[1..]
  }

  /** The acceptance rule: the lower-cased answer starts with "y". */
  predicate Accepts(answer: string) {
    HasPrefix(ToLower(answer), "y")
  }

  /** The first line of `input` is an answer that accepts. */
  predicate AcceptedBy(input: seq<Option<string>>) {
    input != [] && input[0].Some? && Accepts(input[0].value)
  }

  // ------------------------------------------------------ handleDefine

  /** The outcome of handleDefine: its error, the remote and the input
      left unread. */
  datatype Decided = Decided(result: Result<(), Error>, remote: Remote, input: seq<Option<string>>)

  /** The keys as the confman's DeleteKeys passes them on. */
  function LoweredKeys(enabled: bool, keys: seq<string>): (r: seq<string>)
    ensures |r| == |keys|
  {
    seq(|keys|, i requires 0 <= i < |keys| => ChamberKey(enabled, keys[i], false))
  }

  /** handleDefine's calls: ReadAll through the confman, then, when some
      existing key (in `keysOrder`, the order of the range over the map
      read) is absent from the new configuration, ask unless `assumeYes`
      and delete those keys only on an accepting answer. */
  function HandleDefineRun(rm: Remote, faults: map<nat, ApiError>, servicePath: string, chamber: bool,
                           newConfig: map<string, string>, assumeYes: bool, input: seq<Option<string>>,
                           keysOrder: seq<string>): Decided
  {
    var run := ReadAllRun(rm, faults, servicePath);
    if run.0.Failure? then Decided(Failure(run.0.error), run.1, input)
    else
      var deleteKeys := Outside(keysOrder, newConfig);
      if deleteKeys == [] then Decided(Success(()), run.1, input)
      else if !assumeYes && (input == [] || input[0].None?) then Decided(Failure(PromptFailed), run.1, Rest(input))
      else if !assumeYes && !Accepts(input[0].value) then Decided(Failure(UserAborted), run.1, input[1..])
      else
        var d := DeleteKeysRun(run.1, faults, servicePath, LoweredKeys(chamber, deleteKeys));
        Decided(d.0, d.1, if assumeYes then input else input[1..])
  }

  /** handleDefine. The deletion list is built as Define builds its own. */
  method HandleDefine(cm: Confman, terminal: Terminal, newConfig: map<string, string>, assumeYes: bool)
    returns (r: Result<(), Error>, ghost readOrder: seq<string>, ghost keysOrder: seq<string>)
    requires cm.Valid()
    modifies cm.storage.ssm, terminal
    ensures cm.Valid()
    ensures var run := ReadAllRun(old(cm.storage.ssm.remote), cm.storage.ssm.faults, cm.serviceName);
      run.0.Success? ==> Enumerates(keysOrder, Chambered(cm.chamberCompatible, run.0.value, readOrder, true))
    ensures Decided(r, cm.storage.ssm.remote, terminal.input)
         == HandleDefineRun(old(cm.storage.ssm.remote), cm.storage.ssm.faults, cm.serviceName, cm.chamberCompatible,
                            newConfig, assumeYes, old(terminal.input), keysOrder)
  {
    keysOrder := [];
    var existing;
    existing, readOrder := cm.ReadAll();
    if existing.Failure? {
      return Failure(existing.error), readOrder, keysOrder;
    }
    var existingKeys := Keys(existing.value);
    keysOrder := existingKeys;
    var deleteKeys := KeysToDelete(existingKeys, newConfig);
    if |deleteKeys| == 0 {
      return Success(()), readOrder, keysOrder;
    }
    if !assumeYes {
      var answer := terminal.ReadAnswer();
      if answer.None? {
        return Failure(PromptFailed), readOrder, keysOrder;
      }
      var userInput := ToLower(answer.value);
      if !HasPrefix(userInput, "y") {
        return Failure(UserAborted), readOrder, keysOrder;
      }
    }
    r := DeleteListed(cm, deleteKeys);
  }

  /** The deletion list handed to the confman's DeleteKeys as a slice, which
      it lower-cases in place when compatibility is on. */
  method DeleteListed(cm: Confman, deleteKeys: seq<string>) returns (r: Result<(), Error>)
    requires cm.Valid()
    modifies cm.storage.ssm
    ensures cm.Valid()
    ensures (r, cm.storage.ssm.remote)
         == DeleteKeysRun(old(cm.storage.ssm.remote), cm.storage.ssm.faults, cm.serviceName,
                          LoweredKeys(cm.chamberCompatible, deleteKeys))
  {
    var keys := new string[|deleteKeys|](i requires 0 <= i < |deleteKeys| => deleteKeys[i]);
    r := cm.DeleteKeys(keys);
    assert keys[..] == LoweredKeys(cm.chamberCompatible, deleteKeys);
  }

  /** With nothing to delete, handleDefine neither asks nor deletes. */
  lemma NothingToDelete(rm: Remote, faults: map<nat, ApiError>, servicePath: string, chamber: bool,
                        newConfig: map<string, string>, assumeYes: bool, input: seq<Option<string>>,
                        existing: map<string, string>, keysOrder: seq<string>)
    requires ReadAllRun(rm, faults, servicePath).0 == Success(existing)
    requires Enumerates(keysOrder, existing)
    requires existing.Keys <= newConfig.Keys
    ensures HandleDefineRun(rm, faults, servicePath, chamber, newConfig, assumeYes, input, keysOrder)
         == Decided(Success(()), ReadAllRun(rm, faults, servicePath).1, input)
  {
    forall i | 0 <= i < |keysOrder|
      ensures keysOrder[i] in newConfig
    {
      assert keysOrder[i] in existing;
    }
    OutsideAll(keysOrder, newConfig);
  }

  /** When there is something to delete and no `assumeYes`, one line is
      read; the keys are deleted exactly when it accepts, and otherwise
      handleDefine fails with the user's abort (or the scan error) and the
      remote is as the read left it. */
  lemma PromptDecides(rm: Remote, faults: map<nat, ApiError>, servicePath: string, chamber: bool,
                      newConfig: map<string, string>, input: seq<Option<string>>,
                      existing: map<string, string>, keysOrder: seq<string>, k: string)
    requires ReadAllRun(rm, faults, servicePath).0 == Success(existing)
    requires Enumerates(keysOrder, existing)
    requires k in existing && k !in newConfig
    ensures var d := HandleDefineRun(rm, faults, servicePath, chamber, newConfig, false, input, keysOrder);
      var del := LoweredKeys(chamber, Outside(keysOrder, newConfig));
      && d.input == Rest(input)
      && (AcceptedBy(input) ==> (d.result, d.remote) == DeleteKeysRun(ReadAllRun(rm, faults, servicePath).1, faults, servicePath, del))
      && (!AcceptedBy(input) ==> (d.remote == ReadAllRun(rm, faults, servicePath).1
            && d.result == Failure(if input != [] && input[0].Some? then UserAborted else PromptFailed)))
  {
    assert Outside(keysOrder, newConfig) != [] by {
      OutsideExactly(keysOrder, existing, newConfig);
      assert k in Outside(keysOrder, newConfig);
    }
    var run := ReadAllRun(rm, faults, servicePath);
    var d := HandleDefineRun(rm, faults, servicePath, chamber, newConfig, false, input, keysOrder);
    if input == [] || input[0].None? {
      assert d == Decided(Failure(PromptFailed), run.1, Rest(input));
    } else if Accepts(input[0].value) {
      var del := DeleteKeysRun(run.1, faults, servicePath, LoweredKeys(chamber, Outside(keysOrder, newConfig)));
      assert d == Decided(del.0, del.1, input[1..]);
    } else {
      assert d == Decided(Failure(UserAborted), run.1, input[1..]);
    }
  }

  /** `assumeYes` deletes without reading an answer. */
  lemma AssumeYesDeletes(rm: Remote, faults: map<nat, ApiError>, servicePath: string, chamber: bool,
                         newConfig: map<string, string>, input: seq<Option<string>>,
                         existing: map<string, string>, keysOrder: seq<string>)
    requires ReadAllRun(rm, faults, servicePath).0 == Success(existing)
    ensures var d := HandleDefineRun(rm, faults, servicePath, chamber, newConfig, true, input, keysOrder);
      && d.input == input
      && (d.result, d.remote)
         == DeleteKeysRun(ReadAllRun(rm, faults, servicePath).1, faults, servicePath, LoweredKeys(chamber, Outside(keysOrder, newConfig)))
  {
  }

  /** With no faults, compatibility off and fewer than ten keys to delete,
      an accepted handleDefine (or one with `assumeYes`) succeeds and leaves
      below the service path only
      keys of the new configuration; the new configuration's parameters and
      everything outside the service path are as they were. */
  lemma HandleDefineAccepted(rm: Remote, faults: map<nat, ApiError>, servicePath: string,
                             newConfig: map<string, string>, assumeYes: bool, input: seq<Option<string>>,
                             keysOrder: seq<string>)
    requires Listed(rm.store) && IsServicePath(servicePath) && NoFaultsFrom(faults, |rm.log|)
    requires forall k | k in newConfig :: IsElement(k)
    requires Enumerates(keysOrder, Config(rm.store, servicePath))
    requires assumeYes || AcceptedBy(input)
    requires |Outside(keysOrder, newConfig)| < MaxKeysPerRequest
    ensures var d := HandleDefineRun(rm, faults, servicePath, false, newConfig, assumeYes, input, keysOrder);
      && d.result == Success(())
      && StoredKeys(d.remote.store, servicePath) <= newConfig.Keys
      && (forall k | k in newConfig :: SameAt(rm.store, d.remote.store, ParameterPath(servicePath, k)))
      && forall n | !IsChild(n, servicePath) :: SameAt(rm.store, d.remote.store, n)
  {
    HandleDefineDeletes(rm, faults, servicePath, false, newConfig, assumeYes, input, keysOrder);
    assert LoweredKeys(false, Outside(keysOrder, newConfig)) == Outside(keysOrder, newConfig);
    DefineDeletes(rm.store, rm.store, servicePath, newConfig, keysOrder);
  }

  /** An accepted handleDefine with no faults and fewer than ten keys to
      delete deletes the keys outside the new configuration (lower-cased
      under compatibility) and nothing else. */
  lemma HandleDefineDeletes(rm: Remote, faults: map<nat, ApiError>, servicePath: string, chamber: bool,
                            newConfig: map<string, string>, assumeYes: bool, input: seq<Option<string>>,
                            keysOrder: seq<string>)
    requires Listed(rm.store) && IsServicePath(servicePath) && NoFaultsFrom(faults, |rm.log|)
    requires assumeYes || AcceptedBy(input)
    requires |Outside(keysOrder, newConfig)| < MaxKeysPerRequest
    ensures var d := HandleDefineRun(rm, faults, servicePath, chamber, newConfig, assumeYes, input, keysOrder);
      && d.result == Success(())
      && d.remote.store == Delete(rm.store, ParameterNames(servicePath, LoweredKeys(chamber, Outside(keysOrder, newConfig))))
  {
    ReadAllConfig(rm, faults, servicePath);
    var afterRead := ReadAllRun(rm, faults, servicePath).1;
    var del := Outside(keysOrder, newConfig);
    if del == [] {
      DeleteNothing(rm.store);
      assert ParameterNames(servicePath, LoweredKeys(chamber, del)) == [];
    } else {
      DeleteKeysAll(afterRead, faults, servicePath, LoweredKeys(chamber, del));
    }
  }

  /** A handleDefine the user refuses changes no parameter. */
  lemma HandleDefineRefused(rm: Remote, faults: map<nat, ApiError>, servicePath: string, chamber: bool,
                            newConfig: map<string, string>, input: seq<Option<string>>, keysOrder: seq<string>)
    requires Listed(rm.store) && IsServicePath(servicePath) && NoFaultsFrom(faults, |rm.log|)
    requires !AcceptedBy(input)
    ensures HandleDefineRun(rm, faults, servicePath, chamber, newConfig, false, input, keysOrder).remote.store == rm.store
  {
    ReadAllConfig(rm, faults, servicePath);
  }

  // ---------------------------------------------------- DeployCommand

  /** A configuration file read: its path and its configuration. */
  datatype ServiceConfig = ServiceConfig(path: string, config: map<string, string>)

  /** The orders one round of the deploy loop ranged over its maps in:
      the existing keys for handleDefine, the in-place fold and WriteKeys'
      read and write orders. */
  datatype Round = Round(keysOrder: seq<string>, foldOrder: seq<string>, keys: seq<string>, writeOrder: seq<string>)

  /** The state the deploy loop threads: the result so far, the remote,
      the cancellation checks made and the unread input. */
  datatype Deployed = Deployed(result: Result<(), Error>, remote: Remote, checks: nat, input: seq<Option<string>>)

  /** One round of DeployCommand for a file: the file path converted (its
      out-of-range slice panics, here IndexOutOfRange), handleDefine when
      defining, then WriteKeys of the (compatibility-folded) configuration
      through a new confman; an error ends the round with it. */
  function DeployStep(d: Deployed, faults: map<nat, ApiError>, cancelAt: Option<nat>, keyId: string, chamber: bool,
                      base: string, define: bool, assumeYes: bool, sc: ServiceConfig, round: Round): Deployed
  {
    var converted := FilePathToServicePath(base, sc.path);
    if d.result.Failure? then d
    else if converted.None? then d.(result := Failure(IndexOutOfRange))
    else
      var servicePath := FormatServiceName(converted.value);
      var h := if define then HandleDefineRun(d.remote, faults, servicePath, chamber, sc.config, assumeYes, d.input, round.keysOrder)
               else Decided(Success(()), d.remote, d.input);
      if h.result.Failure? then Deployed(h.result, h.remote, d.checks, h.input)
      else
        var w := WriteKeysRun(h.remote, faults, cancelAt, d.checks, keyId, servicePath,
                              Chambered(chamber, sc.config, round.foldOrder, false), round.keys, round.writeOrder);
        Deployed(w.result, w.remote, w.checks, h.input)
  }

  /** The deploy loop over `configs`, round by round. */
  function DeployRun(start: Deployed, faults: map<nat, ApiError>, cancelAt: Option<nat>, keyId: string, chamber: bool,
                     base: string, define: bool, assumeYes: bool, configs: seq<ServiceConfig>, rounds: seq<Round>): Deployed
    requires |rounds| == |configs|
    decreases |configs|
  {
    if configs == [] then start
    else
      var n := |configs| - 1;
      DeployStep(DeployRun(start, faults, cancelAt, keyId, chamber, base, define, assumeYes, configs[..n], rounds[..n]),
                 faults, cancelAt, keyId, chamber, base, define, assumeYes, configs[n], rounds[n])
  }

  /** DeployCommand's loop over the files read. */
  method DeployCommand(ctx: Context, storage: ParameterStore, terminal: Terminal, chamber: bool,
                       base: string, define: bool, assumeYes: bool, configs: seq<ServiceConfig>)
    returns (r: Result<(), Error>, ghost rounds: seq<Round>)
    requires storage.Valid()
    modifies storage.ssm, ctx, terminal
    ensures storage.Valid()
    ensures |rounds| <= |configs| && (r.Success? ==> |rounds| == |configs|)
    ensures Deployed(r, storage.ssm.remote, ctx.checks, terminal.input)
         == DeployRun(Deployed(Success(()), old(storage.ssm.remote), old(ctx.checks), old(terminal.input)),
                      storage.ssm.faults, ctx.cancelAt, storage.kmsKeyId, chamber, base, define, assumeYes,
                      configs[..|rounds|], rounds)
  {
    r, rounds := Success(()), [];
    ghost var start := Deployed(r, storage.ssm.remote, ctx.checks, terminal.input);
    for i := 0 to |configs|
      invariant storage.Valid() && |rounds| == i && r == Success(())
      invariant DeployRun(start, storage.ssm.faults, ctx.cancelAt, storage.kmsKeyId, chamber, base, define, assumeYes,
                          configs[..i], rounds)
             == Deployed(r, storage.ssm.remote, ctx.checks, terminal.input)
    {
      r, rounds := DeployOne(ctx, storage, terminal, chamber, base, define, assumeYes, configs, i, start, rounds);
      if r.Failure? {
        return r, rounds;
      }
      assert r.value == ();
    }
    assert configs[..|configs|] == configs;
  }

  /** One round of the deploy loop: the file after the `rounds` already
      deployed from `start`. */
  method DeployOne(ctx: Context, storage: ParameterStore, terminal: Terminal, chamber: bool,
                   base: string, define: bool, assumeYes: bool, configs: seq<ServiceConfig>, i: nat,
                   ghost start: Deployed, ghost rounds: seq<Round>)
    returns (r: Result<(), Error>, ghost next: seq<Round>)
    requires storage.Valid() && i == |rounds| < |configs|
    requires DeployRun(start, storage.ssm.faults, ctx.cancelAt, storage.kmsKeyId, chamber, base, define, assumeYes,
                       configs[..|rounds|], rounds)
          == Deployed(Success(()), storage.ssm.remote, ctx.checks, terminal.input)
    modifies storage.ssm, ctx, terminal
    ensures storage.Valid() && |next| == |rounds| + 1
    ensures DeployRun(start, storage.ssm.faults, ctx.cancelAt, storage.kmsKeyId, chamber, base, define, assumeYes,
                      configs[..|next|], next)
         == Deployed(r, storage.ssm.remote, ctx.checks, terminal.input)
  {
    ghost var d := Deployed(Success(()), storage.ssm.remote, ctx.checks, terminal.input);
    ghost var round;
    r, round := DeployRound(ctx, storage, terminal, chamber, base, define, assumeYes, configs[i], d);
    DeployRunSnoc(start, storage.ssm.faults, ctx.cancelAt, storage.kmsKeyId, chamber, base, define, assumeYes,
                  configs, rounds, round, i);
    next := rounds + [round];
  }

  /** The round's work for one file, from the loop's state `d`:
      handleDefine when defining, then WriteKeys through a new confman. */
  method DeployRound(ctx: Context, storage: ParameterStore, terminal: Terminal, chamber: bool,
                     base: string, define: bool, assumeYes: bool, sc: ServiceConfig, ghost d: Deployed)
    returns (r: Result<(), Error>, ghost round: Round)
    requires storage.Valid()
    requires d.result.Success? && d.remote == storage.ssm.remote && d.checks == ctx.checks && d.input == terminal.input
    modifies storage.ssm, ctx, terminal
    ensures storage.Valid()
    ensures Deployed(r, storage.ssm.remote, ctx.checks, terminal.input)
         == DeployStep(d, storage.ssm.faults, ctx.cancelAt, storage.kmsKeyId, chamber, base, define, assumeYes, sc, round)
  {
    var converted := FilePathToServicePath(base, sc.path);
    if converted.None? {
      return Failure(IndexOutOfRange), Round([], [], [], []);
    }
    var servicePath := converted.value;
    var cm := new Confman(storage, servicePath, chamber);
    ghost var readOrder, keysOrder := [], [];
    if define {
      var h;
      h, readOrder, keysOrder := HandleDefine(cm, terminal, sc.config, assumeYes);
      if h.Failure? {
        return h, Round(keysOrder, [], [], []);
      }
    }
    ghost var foldOrder, keys, writeOrder;
    r, foldOrder, keys, writeOrder := WriteConfig(ctx, cm, sc.config);
    round := Round(keysOrder, foldOrder, keys, writeOrder);
  }

  /** The round's WriteKeys: the configuration, folded when compatibility
      is on, written through the confman. */
  method WriteConfig(ctx: Context, cm: Confman, entries: map<string, string>)
    returns (r: Result<(), Error>, ghost foldOrder: seq<string>, ghost keys: seq<string>, ghost writeOrder: seq<string>)
    requires cm.Valid()
    modifies cm.storage.ssm, ctx
    ensures cm.Valid()
    ensures Outcome(r, cm.storage.ssm.remote, ctx.checks)
         == WriteKeysRun(old(cm.storage.ssm.remote), cm.storage.ssm.faults, ctx.cancelAt, old(ctx.checks), cm.storage.kmsKeyId,
                         cm.serviceName, Chambered(cm.chamberCompatible, entries, foldOrder, false), keys, writeOrder)
  {
    var config := new StringMap(entries);
    r, foldOrder, keys, writeOrder := cm.AddKeys(ctx, config);
  }

  lemma DeployRunSnoc(start: Deployed, faults: map<nat, ApiError>, cancelAt: Option<nat>, keyId: string, chamber: bool,
                      base: string, define: bool, assumeYes: bool, configs: seq<ServiceConfig>, rounds: seq<Round>,
                      round: Round, i: nat)
    requires i == |rounds| < |configs|
    ensures DeployRun(start, faults, cancelAt, keyId, chamber, base, define, assumeYes, configs[..i + 1], rounds + [round])
         == DeployStep(DeployRun(start, faults, cancelAt, keyId, chamber, base, define, assumeYes, configs[..i], rounds),
                       faults, cancelAt, keyId, chamber, base, define, assumeYes, configs[i], round)
  {
    assert configs[..i + 1][..i] == configs[..i] && (rounds + [round])[..i] == rounds;
  }

  /** The loop stops at the first error: once a prefix of the files has
      failed, the later files change nothing and the error is the result. */
  lemma {:induction false} DeployStopsAtFirstError(start: Deployed, faults: map<nat, ApiError>, cancelAt: Option<nat>,
                                                   keyId: string, chamber: bool, base: string, define: bool, assumeYes: bool,
                                                   configs: seq<ServiceConfig>, rounds: seq<Round>, i: nat)
    requires |rounds| == |configs| && i <= |configs|
    requires DeployRun(start, faults, cancelAt, keyId, chamber, base, define, assumeYes, configs[..i], rounds[..i]).result.Failure?
    ensures DeployRun(start, faults, cancelAt, keyId, chamber, base, define, assumeYes, configs, rounds)
         == DeployRun(start, faults, cancelAt, keyId, chamber, base, define, assumeYes, configs[..i], rounds[..i])
    decreases |configs|
  {
    if i < |configs| {
      var n := |configs| - 1;
      assert configs[..n][..i] == configs[..i] && rounds[..n][..i] == rounds[..i];
      DeployStopsAtFirstError(start, faults, cancelAt, keyId, chamber, base, define, assumeYes, configs[..n], rounds[..n], i);
      var prev := DeployRun(start, faults, cancelAt, keyId, chamber, base, define, assumeYes, configs[..n], rounds[..n]);
      assert DeployRun(start, faults, cancelAt, keyId, chamber, base, define, assumeYes, configs, rounds)
          == DeployStep(prev, faults, cancelAt, keyId, chamber, base, define, assumeYes, configs[n], rounds[n]);
    } else {
      assert configs[..i] == configs && rounds[..i] == rounds;
    }
  }

  /** A defining round runs handleDefine before writing: when handleDefine
      fails nothing is written, and otherwise the write starts from the
      remote handleDefine left. */
  lemma DefineBeforeWrite(d: Deployed, faults: map<nat, ApiError>, cancelAt: Option<nat>, keyId: string, chamber: bool,
                          base: string, assumeYes: bool, sc: ServiceConfig, round: Round)
    requires d.result.Success? && FilePathToServicePath(base, sc.path).Some?
    ensures var servicePath := FormatServiceName(FilePathToServicePath(base, sc.path).value);
      var h := HandleDefineRun(d.remote, faults, servicePath, chamber, sc.config, assumeYes, d.input, round.keysOrder);
      var step := DeployStep(d, faults, cancelAt, keyId, chamber, base, true, assumeYes, sc, round);
      && (h.result.Failure? ==> step == Deployed(h.result, h.remote, d.checks, h.input))
      && (h.result.Success? ==> (step.remote
            == WriteKeysRun(h.remote, faults, cancelAt, d.checks, keyId, servicePath,
                            Chambered(chamber, sc.config, round.foldOrder, false), round.keys, round.writeOrder).remote))
  {
    var servicePath := FormatServiceName(FilePathToServicePath(base, sc.path).value);
    var h := HandleDefineRun(d.remote, faults, servicePath, chamber, sc.config, assumeYes, d.input, round.keysOrder);
    var step := DeployStep(d, faults, cancelAt, keyId, chamber, base, true, assumeYes, sc, round);
    if h.result.Success? {
      var w := WriteKeysRun(h.remote, faults, cancelAt, d.checks, keyId, servicePath,
                            Chambered(chamber, sc.config, round.foldOrder, false), round.keys, round.writeOrder);
      assert step == Deployed(w.result, w.remote, w.checks, h.input);
    }
  }
}
