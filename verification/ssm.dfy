/** The remote parameter store: the five calls the adapter makes, over a map
    from full parameter name to stored parameter. Each call is a function
    from the remote state to its answer and the next state; a call is
    recorded in the log whether it fails or not. Which calls fail is fixed in
    advance by a fault schedule indexed by the position of the call in the
    log, standing in for the network and the service's own errors. */
module Ssm {
  import opened Wrappers
  import opened Paths
  import opened Maps

  /** An error answered by the service, reduced to its error code. */
  datatype ApiError = ApiError(code: string)

  /** A stored parameter. Every put stores a SecureString; its type is not kept. */
  datatype Parameter = Parameter(value: string, version: nat, keyId: string, description: string)

  /** What a describe call reports about one parameter. */
  datatype ParameterMetadata = ParameterMetadata(name: string, version: nat, keyId: string, description: string)

  /** The parameters and the order in which the service lists them. */
  datatype Store = Store(parameters: map<string, Parameter>, order: seq<string>)

  datatype Call =
    | PutCall(name: string, value: string, keyId: string)
    | GetCall(names: seq<string>)
    | ByPathCall(path: string, maxResults: nat, token: Option<nat>)
    | DescribeCall(path: string, token: Option<nat>)
    | DeleteCall(names: seq<string>)

  /** Everything a caller can observe of the service: its contents and the
      calls made so far. */
  datatype Remote = Remote(store: Store, log: seq<Call>)

  /** GetParameters' answer: the parameters found, in request order, and the
      requested names that do not exist. */
  datatype GetOutput = GetOutput(found: seq<(string, string)>, invalid: seq<string>)

  /** DeleteParameters' answer: the names deleted and the names that did not exist. */
  datatype DeleteOutput = DeleteOutput(deleted: seq<string>, invalid: seq<string>)

  /** One page of a listing and the token of the next page, if any. */
  datatype Page<T> = Page(items: seq<T>, next: Option<nat>)

  /** The order lists every parameter exactly once. */
  predicate Listed(s: Store) {
    Distinct(s.order) &&
    (forall n | n in s.parameters :: n in s.order) &&
    (forall i | 0 <= i < |s.order| :: s.order[i] in s.parameters)
  }

  function FaultAt(faults: map<nat, ApiError>, k: nat): Option<ApiError> {
    if k in faults then Some(faults[k]) else None
  }

  /** No call from the `n`-th on fails. */
  predicate NoFaultsFrom(faults: map<nat, ApiError>, n: nat) {
    forall k | k in faults :: k < n
  }

  /** The (name, value) pairs of the requested names that exist, in request order. */
  function Found(parameters: map<string, Parameter>, names: seq<string>): (r: seq<(string, string)>)
    ensures |r| <= |names|
    ensures forall i | 0 <= i < |r| :: r[i].0 in parameters && r[i].1 == parameters[r[i].0].value
  {
    if names == [] then []
    else
      (if names[0] in parameters then [(names[0], parameters[names[0]].value)] else [])
      + Found(parameters, names[1..])
  }

  /** The requested names that do not exist, in request order. */
  function Missing(parameters: map<string, Parameter>, names: seq<string>): (r: seq<string>)
    ensures r == [] <==> forall i | 0 <= i < |names| :: names[i] in parameters
    ensures forall i | 0 <= i < |r| :: r[i] !in parameters
  {
    if names == [] then []
    else
      var rest := Missing(parameters, names[1..]);
      assert forall i | 1 <= i < |names| :: names[i] == names[1..][i - 1];
      (if names[0] in parameters then [] else [names[0]]) + rest
  }

  /** The requested names that exist, in request order. */
  function Present(parameters: map<string, Parameter>, names: seq<string>): (r: seq<string>)
    ensures forall i | 0 <= i < |r| :: r[i] in parameters
  {
    if names == [] then []
    else (if names[0] in parameters then [names[0]] else []) + Present(parameters, names[1..])
  }

  /** The names one level below `path`, in listing order. */
  function Children(order: seq<string>, path: string): (r: seq<string>)
    ensures forall i | 0 <= i < |r| :: IsChild(r[i], path) && r[i] in order
  {
    if order == [] then []
    else (if IsChild(order[0], path) then [order[0]] else []) + Children(order[1..], path)
  }

  /** What a describe call reports about the named parameters that exist. */
  function Describe(parameters: map<string, Parameter>, names: seq<string>): (r: seq<ParameterMetadata>)
    ensures |r| <= |names|
  {
    if names == [] then []
    else
      (if names[0] in parameters
       then var p := parameters[names[0]]; [ParameterMetadata(names[0], p.version, p.keyId, p.description)]
       else [])
      + Describe(parameters, names[1..])
  }

  function Min(a: int, b: int): int {
    if a <= b then a else b
  }

  /** Page number `token` (the first page when absent) of `size` items. */
  function PageOf<T>(items: seq<T>, size: nat, token: Option<nat>): (p: Page<T>)
    requires size > 0
    ensures p.next.Some? ==> p.next.value == token.GetOr(0) + 1
  {
    var start := Min(token.GetOr(0) * size, |items|);
    var end := Min(start + size, |items|);
    Page(items[start..end], if end < |items| then Some(token.GetOr(0) + 1) else None)
  }

  /** The store after a put: a new parameter gets version 1 and goes to the
      end of the listing, an existing one gets the next version. */
  function Put(s: Store, name: string, value: string, keyId: string, description: string): Store {
    var version := if name in s.parameters then s.parameters[name].version + 1 else 1;
    Store(s.parameters[name := Parameter(value, version, keyId, description)],
          if name in s.parameters then s.order else s.order + [name])
  }

  /** The order without the given names. */
  function Without(order: seq<string>, names: set<string>): (r: seq<string>)
    ensures forall n :: n in r <==> n in order && n !in names
  {
    if order == [] then []
    else (if order[0] in names then [] else [order[0]]) + Without(order[1..], names)
  }

  function Delete(s: Store, names: seq<string>): Store {
    var gone := set i | 0 <= i < |names| :: names[i];
    Store(map n | n in s.parameters && n !in gone :: s.parameters[n], Without(s.order, gone))
  }

  // ------------------------------------------------------------- the calls

  function PutStep(rm: Remote, faults: map<nat, ApiError>, name: string, value: string, keyId: string, description: string)
    : (Result<(), ApiError>, Remote)
  {
    var log := rm.log + [PutCall(name, value, keyId)];
    match FaultAt(faults, |rm.log|)
    case Some(e) => (Failure(e), Remote(rm.store, log))
    case None => (Success(()), Remote(Put(rm.store, name, value, keyId, description), log))
  }

  function GetStep(rm: Remote, faults: map<nat, ApiError>, names: seq<string>): (Result<GetOutput, ApiError>, Remote) {
    var log := rm.log + [GetCall(names)];
    match FaultAt(faults, |rm.log|)
    case Some(e) => (Failure(e), Remote(rm.store, log))
    case None =>
      var ps := rm.store.parameters;
      (Success(GetOutput(Found(ps, names), Missing(ps, names))), Remote(rm.store, log))
  }

  function ByPathStep(rm: Remote, faults: map<nat, ApiError>, path: string, maxResults: nat, token: Option<nat>)
    : (Result<Page<(string, string)>, ApiError>, Remote)
    requires maxResults > 0
  {
    var log := rm.log + [ByPathCall(path, maxResults, token)];
    match FaultAt(faults, |rm.log|)
    case Some(e) => (Failure(e), Remote(rm.store, log))
    case None =>
      var listing := Found(rm.store.parameters, Children(rm.store.order, path));
      (Success(PageOf(listing, maxResults, token)), Remote(rm.store, log))
  }

  function DescribeStep(rm: Remote, faults: map<nat, ApiError>, pageSize: nat, path: string, token: Option<nat>)
    : (Result<Page<ParameterMetadata>, ApiError>, Remote)
    requires pageSize > 0
  {
    var log := rm.log + [DescribeCall(path, token)];
    match FaultAt(faults, |rm.log|)
    case Some(e) => (Failure(e), Remote(rm.store, log))
    case None =>
      var listing := Describe(rm.store.parameters, Children(rm.store.order, path));
      (Success(PageOf(listing, pageSize, token)), Remote(rm.store, log))
  }

  function DeleteStep(rm: Remote, faults: map<nat, ApiError>, names: seq<string>): (Result<DeleteOutput, ApiError>, Remote) {
    var log := rm.log + [DeleteCall(names)];
    match FaultAt(faults, |rm.log|)
    case Some(e) => (Failure(e), Remote(rm.store, log))
    case None =>
      var ps := rm.store.parameters;
      (Success(DeleteOutput(Present(ps, names), Missing(ps, names))), Remote(Delete(rm.store, names), log))
  }

  // ---------------------------------------------------------------- lemmas

  lemma ListedPut(s: Store, name: string, value: string, keyId: string, description: string)
    requires Listed(s)
    ensures Listed(Put(s, name, value, keyId, description))
  {
    var t := Put(s, name, value, keyId, description);
    if name !in s.parameters {
      forall i, j | 0 <= i < j < |t.order|
        ensures t.order[i] != t.order[j]
      {
        if j == |s.order| {
          assert t.order[j] == name;
          assert t.order[i] == s.order[i];
        }
      }
    }
  }

  lemma {:induction false} WithoutDistinct(order: seq<string>, names: set<string>)
    requires Distinct(order)
    ensures Distinct(Without(order, names))
    decreases |order|
  {
    if order != [] {
      var tail := order[1..];
      assert forall i, j | 0 <= i < j < |tail| :: tail[i] == order[i + 1] && tail[j] == order[j + 1];
      WithoutDistinct(tail, names);
      assert order[0] !in tail;
      var rest := Without(tail, names);
      assert order[0] !in rest;
      var r := Without(order, names);
      if order[0] in names {
        assert r == rest;
      } else {
        assert r == [order[0]] + rest;
        forall i, j | 0 <= i < j < |r|
          ensures r[i] != r[j]
        {
          assert r[j] == rest[j - 1];
          if i > 0 {
            assert r[i] == rest[i - 1];
          }
        }
      }
    }
  }

  lemma ListedDelete(s: Store, names: seq<string>)
    requires Listed(s)
    ensures Listed(Delete(s, names))
  {
    var gone := set i | 0 <= i < |names| :: names[i];
    WithoutDistinct(s.order, gone);
    var t := Delete(s, names);
    forall n | n in t.parameters
      ensures n in t.order
    {
      assert n in s.parameters && n !in gone;
    }
    forall i | 0 <= i < |t.order|
      ensures t.order[i] in t.parameters
    {
      var n := t.order[i];
      assert n in s.order && n !in gone;
    }
  }

  lemma {:induction false} WithoutWithout(order: seq<string>, a: set<string>, b: set<string>)
    ensures Without(Without(order, a), b) == Without(order, a + b)
    decreases |order|
  {
    if order != [] {
      WithoutWithout(order[1..], a, b);
      var head: seq<string> := if order[0] in a then [] else [order[0]];
      var w := Without(order, a);
      assert w == head + Without(order[1..], a);
      if order[0] !in a {
        assert w[0] == order[0] && w[1..] == Without(order[1..], a);
      } else {
        assert w == Without(order[1..], a);
      }
    }
  }

  lemma {:induction false} WithoutNothing(order: seq<string>)
    ensures Without(order, {}) == order
    decreases |order|
  {
    if order != [] {
      WithoutNothing(order[1..]);
      assert order == [order[0]] + order[1..];
    }
  }

  /** Deleting no names changes nothing. */
  lemma DeleteNothing(s: Store)
    ensures Delete(s, []) == s
  {
    var none: seq<string> := [];
    assert (set i | 0 <= i < |none| :: none[i]) == {};
    WithoutNothing(s.order);
  }

  /** Deleting two lists of names one after the other deletes both. */
  lemma DeleteDelete(s: Store, a: seq<string>, b: seq<string>)
    ensures Delete(Delete(s, a), b) == Delete(s, a + b)
  {
    var ga := set i | 0 <= i < |a| :: a[i];
    var gb := set i | 0 <= i < |b| :: b[i];
    var ab := a + b;
    var gab := set i | 0 <= i < |ab| :: ab[i];
    forall n | n in gab
      ensures n in ga + gb
    {
      var i :| 0 <= i < |ab| && ab[i] == n;
      if i < |a| {
        assert a[i] == n;
      } else {
        assert b[i - |a|] == n;
      }
    }
    forall n | n in ga + gb
      ensures n in gab
    {
      if n in ga {
        var i :| 0 <= i < |a| && a[i] == n;
        assert ab[i] == n;
      } else {
        var i :| 0 <= i < |b| && b[i] == n;
        assert ab[|a| + i] == n;
      }
    }
    assert gab == ga + gb;
    WithoutWithout(s.order, ga, gb);
  }

  /** Puts, gets, listings and deletes keep the listing exact. */
  lemma ListedSteps(rm: Remote, faults: map<nat, ApiError>, names: seq<string>, name: string, value: string, keyId: string, description: string)
    requires Listed(rm.store)
    ensures Listed(PutStep(rm, faults, name, value, keyId, description).1.store)
    ensures Listed(DeleteStep(rm, faults, names).1.store)
  {
    ListedPut(rm.store, name, value, keyId, description);
    ListedDelete(rm.store, names);
  }

  /** The listing below a path holds exactly the entries one level below it. */
  lemma {:induction false} ChildrenExact(order: seq<string>, path: string)
    ensures forall n :: n in Children(order, path) <==> n in order && IsChild(n, path)
    decreases |order|
  {
    if order != [] {
      ChildrenExact(order[1..], path);
      assert forall n :: n in order <==> n == order[0] || n in order[1..];
    }
  }

  /** A client of the service. Its fault schedule and the page size of its
      describe calls are fixed when it is made. */
  class Client {
    var remote: Remote
    const faults: map<nat, ApiError>
    const describePageSize: nat

    ghost predicate Valid()
      reads this
    {
      Listed(remote.store) && describePageSize > 0
    }

    constructor (store: Store, faults: map<nat, ApiError>, describePageSize: nat)
      requires Listed(store) && describePageSize > 0
      ensures Valid()
      ensures remote == Remote(store, []) && this.faults == faults && this.describePageSize == describePageSize
    {
      remote := Remote(store, []);
      this.faults := faults;
      this.describePageSize := describePageSize;
    }

    method PutParameter(name: string, value: string, keyId: string, description: string) returns (r: Result<(), ApiError>)
      requires Valid()
      modifies this
      ensures Valid()
      ensures (r, remote) == PutStep(old(remote), faults, name, value, keyId, description)
    {
      ListedSteps(remote, faults, [], name, value, keyId, description);
      r, remote := PutStep(remote, faults, name, value, keyId, description).0, PutStep(remote, faults, name, value, keyId, description).1;
    }

    method GetParameters(names: seq<string>) returns (r: Result<GetOutput, ApiError>)
      requires Valid()
      modifies this
      ensures Valid()
      ensures (r, remote) == GetStep(old(remote), faults, names)
    {
      r, remote := GetStep(remote, faults, names).0, GetStep(remote, faults, names).1;
    }

    method GetParametersByPath(path: string, maxResults: nat, token: Option<nat>) returns (r: Result<Page<(string, string)>, ApiError>)
      requires Valid() && maxResults > 0
      modifies this
      ensures Valid()
      ensures (r, remote) == ByPathStep(old(remote), faults, path, maxResults, token)
    {
      r, remote := ByPathStep(remote, faults, path, maxResults, token).0, ByPathStep(remote, faults, path, maxResults, token).1;
    }

    method DescribeParameters(path: string, token: Option<nat>) returns (r: Result<Page<ParameterMetadata>, ApiError>)
      requires Valid()
      modifies this
      ensures Valid()
      ensures (r, remote) == DescribeStep(old(remote), faults, describePageSize, path, token)
    {
      r, remote := DescribeStep(remote, faults, describePageSize, path, token).0, DescribeStep(remote, faults, describePageSize, path, token).1;
    }

    method DeleteParameters(names: seq<string>) returns (r: Result<DeleteOutput, ApiError>)
      requires Valid()
      modifies this
      ensures Valid()
      ensures (r, remote) == DeleteStep(old(remote), faults, names)
    {
      ListedSteps(remote, faults, names, "", "", "", "");
      r, remote := DeleteStep(remote, faults, names).0, DeleteStep(remote, faults, names).1;
    }
  }
}
