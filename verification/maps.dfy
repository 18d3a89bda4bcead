/** Go maps as the configuration code uses them: a read of a missing key
    gives the empty string, and the keys come out in no fixed order. */
module Maps {

  /** A Go map value: a reference, so a callee that changes it changes the
      caller's map. */
  class StringMap {
    var entries: map<string, string>

    constructor (entries: map<string, string>)
      ensures this.entries == entries
    {
      this.entries := entries;
    }
  }

  /** A Go map read: the empty string for a missing key. */
  function Lookup(m: map<string, string>, key: string): (v: string)
    ensures key in m ==> v == m[key]
    ensures key !in m ==> v == ""
  {
    if key in m then m[key] else ""
  }

  predicate Distinct(names: seq<string>) {
    forall i, j | 0 <= i < j < |names| :: names[i] != names[j]
  }

  /** `keys` lists every key of `m` once. */
  predicate Enumerates(keys: seq<string>, m: map<string, string>) {
    Distinct(keys) && (forall k | k in m :: k in keys) && (forall i | 0 <= i < |keys| :: keys[i] in m)
  }

  /** Distinct keys are as many as the set they make. */
  lemma {:induction false} DistinctSize(keys: seq<string>)
    requires Distinct(keys)
    ensures |set k | k in keys| == |keys|
  {
    if keys != [] {
      var rest := keys[1..];
      DistinctSize(rest);
      assert (set k | k in keys) == {keys[0]} + (set k | k in rest);
      assert keys[0] !in rest;
    }
  }

  /** A list enumerating a map is as long as the map. */
  lemma EnumeratesSize(keys: seq<string>, m: map<string, string>)
    requires Enumerates(keys, m)
    ensures |keys| == |m|
  {
    DistinctSize(keys);
    assert (set k | k in keys) == m.Keys;
  }

  /** mapy.Keys: the keys of a map, each once, in an order the map chooses. */
  method Keys(m: map<string, string>) returns (keys: seq<string>)
    ensures Enumerates(keys, m)
  {
    keys := [];
    var rest := m.Keys;
    while rest != {}
      invariant forall k :: k in m <==> k in rest || k in keys
      invariant forall i | 0 <= i < |keys| :: keys[i] !in rest
      invariant Distinct(keys)
      decreases |rest|
    {
      var k :| k in rest;
      keys := keys + [k];
      rest := rest - {k};
    }
  }

  /** The keys of `keys` that `m` does not hold, in order. */
  function Outside(keys: seq<string>, m: map<string, string>): (r: seq<string>)
    ensures forall i | 0 <= i < |r| :: r[i] !in m && r[i] in keys
  {
    if keys == [] then []
    else (if keys[0] in m then [] else [keys[0]]) + Outside(keys[1..], m)
  }

  lemma {:induction false} OutsideOf(keys: seq<string>, m: map<string, string>)
    requires Distinct(keys)
    ensures Distinct(Outside(keys, m))
    ensures forall k | k in keys && k !in m :: k in Outside(keys, m)
    decreases |keys|
  {
    if keys != [] {
      var rest := keys[1..];
      assert Distinct(rest) by {
        forall i, j | 0 <= i < j < |rest|
          ensures rest[i] != rest[j]
        {
          assert rest[i] == keys[i + 1] && rest[j] == keys[j + 1];
        }
      }
      OutsideOf(rest, m);
      assert forall k | k in keys :: k == keys[0] || k in rest;
      if keys[0] !in m {
        assert keys[0] !in rest;
        ConsDistinct(keys[0], Outside(rest, m));
      }
    }
  }

  /** A new name in front of distinct names keeps them distinct. */
  lemma ConsDistinct(x: string, names: seq<string>)
    requires Distinct(names) && x !in names
    ensures Distinct([x] + names)
  {
    var r := [x] + names;
    forall i, j | 0 <= i < j < |r|
      ensures r[i] != r[j]
    {
      assert r[j] == names[j - 1];
      if i > 0 {
        assert r[i] == names[i - 1];
      }
    }
  }

  /** No key of `keys` lies outside a map that holds them all. */
  lemma {:induction false} OutsideAll(keys: seq<string>, m: map<string, string>)
    requires forall i | 0 <= i < |keys| :: keys[i] in m
    ensures Outside(keys, m) == []
    decreases |keys|
  {
    if keys != [] {
      assert keys[0] in m;
      OutsideAll(keys[1..], m);
    }
  }

  /** Every key of `m`, those of `order` first: `order` followed by the keys
      of `keys` outside `m`, when `order` lists `m`, which lies inside the
      map `keys` lists. */
  lemma EnumeratesSplit(order: seq<string>, keys: seq<string>, m: map<string, string>, all: map<string, string>)
    requires Enumerates(order, m) && Enumerates(keys, all)
    requires forall k | k in m :: k in all
    ensures Enumerates(order + Outside(keys, m), all)
  {
    OutsideOf(keys, m);
    var w := order + Outside(keys, m);
    forall i, j | 0 <= i < j < |w|
      ensures w[i] != w[j]
    {
      if j >= |order| && i < |order| {
        assert w[i] in m && w[j] !in m;
      }
      if i >= |order| {
        assert w[i] == Outside(keys, m)[i - |order|] && w[j] == Outside(keys, m)[j - |order|];
      }
    }
    forall k | k in all
      ensures k in w
    {
      if k !in m {
        assert k in Outside(keys, m);
      }
    }
  }

  /** The keys of an enumeration of `current` that `config` lacks: each
      once, and exactly those. */
  lemma OutsideExactly(order: seq<string>, current: map<string, string>, config: map<string, string>)
    requires Enumerates(order, current)
    ensures Distinct(Outside(order, config))
    ensures forall k :: k in Outside(order, config) <==> k in current && k !in config
  {
    OutsideOf(order, config);
  }
}
