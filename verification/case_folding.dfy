/** Case folding of configuration keys. The chamber-compatibility code folds
    the keys of a map in two ways: the storage decorator builds a new map
    while ranging over the old one, and Confman rewrites the map it ranges
    over, deleting each visited key and storing its value under the folded
    key. Both are specified here for a given range order. */
module CaseFolding {
  import opened Strings
  import opened Maps

  /** A key folded to upper case (`upper`) or to lower case. */
  function Fold(key: string, upper: bool): string {
    if upper then ToUpper(key) else ToLower(key)
  }

  lemma FoldIdempotent(key: string, upper: bool)
    ensures Fold(Fold(key, upper), upper) == Fold(key, upper)
  {
    FoldingForgetsCase(key);
  }

  /** The elements of a sequence. */
  function SetOf(s: seq<string>): set<string> {
    set x | x in s
  }

  /** The folded keys. */
  function Image(keys: set<string>, upper: bool): set<string> {
    set k | k in keys :: Fold(k, upper)
  }

  /** No two keys fold to the same key. */
  predicate NoCollisions(keys: set<string>, upper: bool) {
    forall a, b | a in keys && b in keys && Fold(a, upper) == Fold(b, upper) :: a == b
  }

  /** Folding never adds keys. */
  lemma {:induction false} ImageSize(keys: set<string>, upper: bool)
    ensures |Image(keys, upper)| <= |keys|
    decreases |keys|
  {
    if keys != {} {
      var k :| k in keys;
      var rest := keys - {k};
      ImageSize(rest, upper);
      assert Image(keys, upper) == Image(rest, upper) + {Fold(k, upper)};
    }
  }

  lemma SetOfSnoc(s: seq<string>, x: string)
    ensures SetOf(s + [x]) == SetOf(s) + {x}
  {
    assert forall y :: y in s + [x] <==> y in s || y == x;
  }

  lemma SetOfEnumeration(order: seq<string>, m: map<string, string>)
    requires Enumerates(order, m)
    ensures SetOf(order) == m.Keys
  {
  }

  // ----------------------------------------------------- folding into a copy

  /** The map a range loop over `config` builds when it stores every visited
      value under the folded key: a key visited later wins. */
  function Refold(config: map<string, string>, order: seq<string>, upper: bool): map<string, string>
    decreases |order|
  {
    if order == [] then map[]
    else
      var last := order[|order| - 1];
      Refold(config, order[..|order| - 1], upper)[Fold(last, upper) := Lookup(config, last)]
  }

  lemma RefoldSnoc(config: map<string, string>, order: seq<string>, k: string, upper: bool)
    ensures Refold(config, order + [k], upper) == Refold(config, order, upper)[Fold(k, upper) := Lookup(config, k)]
  {
    assert (order + [k])[..|order|] == order;
  }

  /** The copy has exactly the folded keys, and every value comes from a
      visited key that folds to its key. */
  lemma {:induction false} RefoldKeys(config: map<string, string>, order: seq<string>, upper: bool)
    requires forall i | 0 <= i < |order| :: order[i] in config
    ensures Refold(config, order, upper).Keys == Image(SetOf(order), upper)
    ensures forall k | k in Refold(config, order, upper) ::
      exists x :: x in order && Fold(x, upper) == k && Refold(config, order, upper)[k] == config[x]
    decreases |order|
  {
    if order != [] {
      var prefix, last := order[..|order| - 1], order[|order| - 1];
      assert order == prefix + [last];
      RefoldKeys(config, prefix, upper);
      SetOfSnoc(prefix, last);
      assert Image(SetOf(order), upper) == Image(SetOf(prefix), upper) + {Fold(last, upper)};
    }
  }

  /** The key visited last among those folding together wins. */
  lemma {:induction false} RefoldLastWins(config: map<string, string>, order: seq<string>, upper: bool, i: nat)
    requires i < |order| && order[i] in config
    requires forall j | i < j < |order| :: Fold(order[j], upper) != Fold(order[i], upper)
    ensures Fold(order[i], upper) in Refold(config, order, upper)
    ensures Refold(config, order, upper)[Fold(order[i], upper)] == config[order[i]]
    decreases |order|
  {
    var prefix := order[..|order| - 1];
    if i < |order| - 1 {
      assert prefix[i] == order[i];
      RefoldLastWins(config, prefix, upper, i);
    }
  }

  /** chamberConfigToLower/ToUpper's promise: the copy's keys are the folded
      keys of the input, each value is the value of some key folding to it,
      the copy is never larger, and without collisions every value is kept
      under its folded key. */
  lemma RefoldMeaning(config: map<string, string>, order: seq<string>, upper: bool)
    requires Enumerates(order, config)
    ensures var r := Refold(config, order, upper);
      && r.Keys == Image(config.Keys, upper)
      && (forall k | k in r :: exists x :: x in config && Fold(x, upper) == k && r[k] == config[x])
      && |r| <= |config|
      && (NoCollisions(config.Keys, upper) ==> forall k | k in config :: r[Fold(k, upper)] == config[k])
  {
    var r := Refold(config, order, upper);
    RefoldKeys(config, order, upper);
    SetOfEnumeration(order, config);
    ImageSize(config.Keys, upper);
    assert |r| == |r.Keys|;
    if NoCollisions(config.Keys, upper) {
      forall k | k in config
        ensures r[Fold(k, upper)] == config[k]
      {
        var i :| 0 <= i < |order| && order[i] == k;
        forall j | i < j < |order|
          ensures Fold(order[j], upper) != Fold(order[i], upper)
        {
          assert order[j] != order[i];
        }
        RefoldLastWins(config, order, upper, i);
      }
    }
  }

  /** Every key of a folded copy is already folded. */
  lemma RefoldFolded(config: map<string, string>, order: seq<string>, upper: bool)
    requires forall i | 0 <= i < |order| :: order[i] in config
    ensures forall k | k in Refold(config, order, upper) :: Fold(k, upper) == k
  {
    RefoldKeys(config, order, upper);
    forall k | k in Refold(config, order, upper)
      ensures Fold(k, upper) == k
    {
      var x :| x in SetOf(order) && Fold(x, upper) == k;
      FoldIdempotent(x, upper);
    }
  }

  // ---------------------------------------------------- folding in place

  /** One visit of the in-place loop: the key is deleted and its current
      value stored under the folded key. */
  function Rekey(m: map<string, string>, key: string, upper: bool): map<string, string> {
    if key in m then (m - {key})[Fold(key, upper) := m[key]] else m
  }

  /** The map after the in-place loop has visited `order`. Keys the loop
      adds itself are already folded, so visiting them changes nothing. */
  function RefoldInPlace(m: map<string, string>, order: seq<string>, upper: bool): map<string, string>
    decreases |order|
  {
    if order == [] then m
    else Rekey(RefoldInPlace(m, order[..|order| - 1], upper), order[|order| - 1], upper)
  }

  lemma RefoldInPlaceSnoc(m: map<string, string>, order: seq<string>, k: string, upper: bool)
    ensures RefoldInPlace(m, order + [k], upper) == Rekey(RefoldInPlace(m, order, upper), k, upper)
  {
    assert (order + [k])[..|order|] == order;
  }

  /** One visit replaces the visited key by its folded form. */
  lemma RekeyKeys(before: map<string, string>, key: string, upper: bool, rest: set<string>, done: set<string>)
    requires before.Keys == rest + done && key in rest
    requires key in done ==> Fold(key, upper) == key
    ensures Rekey(before, key, upper).Keys == (rest - {key}) + done + {Fold(key, upper)}
  {
  }

  /** Midway through the loop, the unvisited keys are still there and the
      visited ones have been replaced by their folded forms. */
  lemma {:induction false} RefoldInPlaceKeys(m: map<string, string>, order: seq<string>, upper: bool)
    requires Distinct(order) && forall i | 0 <= i < |order| :: order[i] in m
    ensures RefoldInPlace(m, order, upper).Keys == (m.Keys - SetOf(order)) + Image(SetOf(order), upper)
    decreases |order|
  {
    if order != [] {
      var prefix, last := order[..|order| - 1], order[|order| - 1];
      assert order == prefix + [last];
      RefoldInPlaceKeys(m, prefix, upper);
      assert last !in SetOf(prefix);
      RekeyStep(m, RefoldInPlace(m, prefix, upper), prefix, last, upper);
    }
  }

  /** One more visit of the in-place loop keeps RefoldInPlaceKeys' shape. */
  lemma RekeyStep(m: map<string, string>, before: map<string, string>, prefix: seq<string>, last: string, upper: bool)
    requires before.Keys == (m.Keys - SetOf(prefix)) + Image(SetOf(prefix), upper)
    requires last in m && last !in SetOf(prefix)
    ensures Rekey(before, last, upper).Keys
         == (m.Keys - SetOf(prefix + [last])) + Image(SetOf(prefix + [last]), upper)
  {
    var rest, done := m.Keys - SetOf(prefix), Image(SetOf(prefix), upper);
    var f := Fold(last, upper);
    SetOfSnoc(prefix, last);
    assert last in done ==> f == last by {
      if last in done {
        var x :| x in SetOf(prefix) && Fold(x, upper) == last;
        FoldIdempotent(x, upper);
      }
    }
    RekeyKeys(before, last, upper, rest, done);
    ImageAdd(SetOf(prefix), last, upper);
    assert m.Keys - SetOf(prefix + [last]) == rest - {last};
  }

  lemma ImageAdd(keys: set<string>, x: string, upper: bool)
    ensures Image(keys + {x}, upper) == Image(keys, upper) + {Fold(x, upper)}
  {
  }

  /** The in-place loop's next visit: the key it reaches is still in the
      map, and visiting it is one Rekey. */
  lemma RefoldInPlaceVisit(m: map<string, string>, order: seq<string>, i: nat, upper: bool)
    requires Distinct(order) && forall j | 0 <= j < |order| :: order[j] in m
    requires i < |order|
    ensures order[i] in RefoldInPlace(m, order[..i], upper)
    ensures RefoldInPlace(m, order[..i + 1], upper) == Rekey(RefoldInPlace(m, order[..i], upper), order[i], upper)
  {
    var prefix := order[..i];
    assert order[..i + 1] == prefix + [order[i]];
    RefoldInPlaceSnoc(m, prefix, order[i], upper);
    RefoldInPlaceKeys(m, prefix, upper);
    assert order[i] !in SetOf(prefix);
  }

  /** Every value the in-place loop leaves under a key is the original
      value of some key folding like it. */
  lemma {:induction false} RefoldInPlaceValues(m: map<string, string>, order: seq<string>, upper: bool)
    ensures var r := RefoldInPlace(m, order, upper);
      forall k | k in r :: exists x :: x in m && Fold(x, upper) == Fold(k, upper) && r[k] == m[x]
    decreases |order|
  {
    if order != [] {
      var prefix, last := order[..|order| - 1], order[|order| - 1];
      RefoldInPlaceValues(m, prefix, upper);
      var before := RefoldInPlace(m, prefix, upper);
      if last in before {
        var f := Fold(last, upper);
        FoldIdempotent(last, upper);
        var x :| x in m && Fold(x, upper) == Fold(last, upper) && before[last] == m[x];
        assert Fold(x, upper) == Fold(f, upper);
      }
    }
  }

  /** Without collisions the in-place loop keeps every value: a visited key's
      value under its folded key, an unvisited key's under itself. */
  lemma {:induction false} RefoldInPlaceExact(m: map<string, string>, order: seq<string>, upper: bool)
    requires Distinct(order) && forall i | 0 <= i < |order| :: order[i] in m
    requires NoCollisions(m.Keys, upper)
    ensures var r := RefoldInPlace(m, order, upper);
      && (forall k | k in SetOf(order) :: Fold(k, upper) in r && r[Fold(k, upper)] == m[k])
      && (forall k | k in m && k !in SetOf(order) :: k in r && r[k] == m[k])
    decreases |order|
  {
    if order != [] {
      var prefix, last := order[..|order| - 1], order[|order| - 1];
      assert order == prefix + [last];
      RefoldInPlaceExact(m, prefix, upper);
      SetOfSnoc(prefix, last);
      var before := RefoldInPlace(m, prefix, upper);
      var f := Fold(last, upper);
      assert last !in SetOf(prefix);
      FoldIdempotent(last, upper);
      forall k | k in SetOf(prefix)
        ensures Fold(k, upper) != last && Fold(k, upper) != f
      {
        FoldIdempotent(k, upper);
      }
      forall k | k in m && k !in SetOf(order)
        ensures k != f
      {
      }
    }
  }

  /** chamberConfigToLower/ToUpper on the caller's map: afterwards its keys
      are the folded original keys, each value is the original value of a
      key folding to it, the map never grows, and without collisions every
      value is kept under its folded key. */
  lemma RefoldInPlaceMeaning(m: map<string, string>, order: seq<string>, upper: bool)
    requires Enumerates(order, m)
    ensures var r := RefoldInPlace(m, order, upper);
      && r.Keys == Image(m.Keys, upper)
      && (forall k | k in r :: exists x :: x in m && Fold(x, upper) == k && r[k] == m[x])
      && |r| <= |m|
      && (NoCollisions(m.Keys, upper) ==> forall k | k in m :: r[Fold(k, upper)] == m[k])
  {
    var r := RefoldInPlace(m, order, upper);
    assert r.Keys == Image(m.Keys, upper) by {
      SetOfEnumeration(order, m);
      RefoldInPlaceKeys(m, order, upper);
    }
    assert forall k | k in r :: exists x :: x in m && Fold(x, upper) == k && r[k] == m[x] by {
      RefoldInPlaceValues(m, order, upper);
      ValuesOfFolded(m, r, upper);
    }
    assert |r| <= |m| by {
      ImageSize(m.Keys, upper);
      assert |r| == |r.Keys|;
    }
    if NoCollisions(m.Keys, upper) {
      SetOfEnumeration(order, m);
      RefoldInPlaceExact(m, order, upper);
    }
  }

  /** In a map whose keys are all folded, a key folding like `x` is the
      folded `x` itself. */
  lemma ValuesOfFolded(m: map<string, string>, r: map<string, string>, upper: bool)
    requires r.Keys == Image(m.Keys, upper)
    requires forall k | k in r :: exists x :: x in m && Fold(x, upper) == Fold(k, upper) && r[k] == m[x]
    ensures forall k | k in r :: exists x :: x in m && Fold(x, upper) == k && r[k] == m[x]
  {
    forall k | k in r
      ensures Fold(k, upper) == k
    {
      var x :| x in m && Fold(x, upper) == k;
      FoldIdempotent(x, upper);
    }
  }

  /** Without collisions the decorator's copy and Confman's in-place rewrite
      end with the same map, whatever the range order. */
  lemma FoldsAgree(m: map<string, string>, order: seq<string>, upper: bool)
    requires Enumerates(order, m) && NoCollisions(m.Keys, upper)
    ensures Refold(m, order, upper) == RefoldInPlace(m, order, upper)
  {
    var a, b := Refold(m, order, upper), RefoldInPlace(m, order, upper);
    assert a.Keys == Image(m.Keys, upper) && forall k | k in m :: a[Fold(k, upper)] == m[k] by {
      RefoldMeaning(m, order, upper);
    }
    assert b.Keys == Image(m.Keys, upper) && forall k | k in m :: b[Fold(k, upper)] == m[k] by {
      RefoldInPlaceMeaning(m, order, upper);
    }
    SameFolded(m, a, b, upper);
  }

  /** Two maps over the folded keys of `m` that both hold every value of `m`
      under its folded key are equal. */
  lemma SameFolded(m: map<string, string>, a: map<string, string>, b: map<string, string>, upper: bool)
    requires a.Keys == Image(m.Keys, upper) && b.Keys == Image(m.Keys, upper)
    requires forall k | k in m :: Fold(k, upper) in a && a[Fold(k, upper)] == m[k]
    requires forall k | k in m :: Fold(k, upper) in b && b[Fold(k, upper)] == m[k]
    ensures a == b
  {
    forall k | k in a
      ensures a[k] == b[k]
    {
      var x :| x in m && Fold(x, upper) == k;
    }
  }

  /** With a collision the two differ: ranging over {"A": "1", "a": "2"} with
      "A" first, the copy keeps the "a" value visited last, while the
      in-place rewrite first stores "1" under "a" and then revisits "a"
      holding that value. */
  lemma InPlaceCollision(m: map<string, string>, order: seq<string>)
    requires m == map["A" := "1", "a" := "2"] && order == ["A", "a"]
    ensures Refold(m, order, false) == map["a" := "2"]
    ensures RefoldInPlace(m, order, false) == map["a" := "1"]
  {
    assert ToLower("A") == "a";
    assert ToLower("a") == "a";
    assert order[..1] == ["A"];
    assert RefoldInPlace(m, ["A"], false) == map["a" := "1"];
  }
}
