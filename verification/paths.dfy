/** The parts of Go's `path` package (and of `path/filepath` on slash-separated
    names) that parameter names and service paths go through. A name is read as
    its list of non-empty slash-separated elements; the `.` and `..` elements
    that `path.Clean` would resolve are treated as ordinary elements. */
module Paths {
  import opened Strings

  /** A single path element: non-empty and slash-free. */
  predicate IsElement(e: string) {
    e != "" && '/' !in e
  }

  predicate Rooted(p: string) {
    |p| > 0 && p[0] == '/'
  }

  /** The non-empty slash-separated elements of a name, in order. */
  function Elements(p: string): (es: seq<string>)
    ensures forall i | 0 <= i < |es| :: IsElement(es[i])
  {
    var parts := Split(p, '/');
    var es := NonEmpty(parts);
    assert forall i | 0 <= i < |es| :: es[i] in parts;
    es
  }

  /** The rooted name spelled by a list of elements, "" for no elements. */
  function Canonical(es: seq<string>): string {
    if es == [] then "" else "/" + JoinWith(es, '/')
  }

  /** path.Clean, with `.` and `..` left as they are. */
  function Clean(p: string): string {
    var es := Elements(p);
    if Rooted(p) then "/" + JoinWith(es, '/')
    else if es == [] then "."
    else JoinWith(es, '/')
  }

  /** path.Join of two names. */
  function Join(a: string, b: string): string {
    if a != "" then Clean(a + "/" + b)
    else if b != "" then Clean(b)
    else ""
  }

  /** path.Split: everything up to and including the last slash, and the rest. */
  function PathSplit(p: string): (string, string)
    decreases |p|
  {
    if p == "" then ("", "")
    else if p[|p| - 1] == '/' then (p, "")
    else
      var r := PathSplit(p[..|p| - 1]);
      (r.0, r.1 + [p[|p| - 1]])
  }

  /** path.Base: the last element, "/" for a name made of slashes only,
      "." for the empty name. */
  function Base(p: string): string {
    if p == "" then "."
    else
      var t := TrimRight(p, '/');
      if t == "" then "/" else PathSplit(t).1
  }

  /** filepath.Ext: the suffix of the final element that starts at its last
      dot, or "" when the final element has no dot. */
  function Ext(p: string): (r: string)
    ensures |r| <= |p| && r == p[|p| - |r|..]
    ensures r != "" ==> r[0] == '.' && '/' !in r && '.' !in r[1..]
    ensures r == "" ==> '.' !in PathSplit(p).1
    decreases |p|
  {
    if p == "" || p[|p| - 1] == '/' then ""
    else if p[|p| - 1] == '.' then "."
    else
      var e := Ext(p[..|p| - 1]);
      if e == "" then "" else e + [p[|p| - 1]]
  }

  /** The prefix shared by the names one level below `p`. */
  function ChildPrefix(p: string): string {
    TrimRight(p, '/') + "/"
  }

  /** `n` names an entry exactly one level below `p`. */
  predicate IsChild(n: string, p: string) {
    HasPrefix(n, ChildPrefix(p)) && IsElement(n[|ChildPrefix(p)|..])
  }

  /** A service path in normal form: a slash followed by one or more elements. */
  predicate IsServicePath(p: string) {
    Elements(p) != [] && p == Canonical(Elements(p))
  }

  // ---------------------------------------------------------------- lemmas

  /** A slash in the middle of a name only separates elements. */
  lemma ElementsAround(a: string, b: string)
    ensures Elements(a + "/" + b) == Elements(a) + Elements(b)
  {
    SplitAround(a, b, '/');
    NonEmptyAppend(Split(a, '/'), Split(b, '/'));
  }

  lemma ElementsOfElement(e: string)
    requires IsElement(e)
    ensures Elements(e) == [e]
  {
    SplitWithoutSeparator(e, '/');
  }

  lemma {:induction false} ElementsOfJoin(es: seq<string>)
    requires forall i | 0 <= i < |es| :: IsElement(es[i])
    ensures Elements(JoinWith(es, '/')) == es
  {
    if es != [] {
      JoinThenSplit(es, '/');
      NonEmptyOfNonEmpty(es);
    }
  }

  /** The elements of a canonical name are the ones it was built from. */
  lemma ElementsOfCanonical(es: seq<string>)
    requires forall i | 0 <= i < |es| :: IsElement(es[i])
    ensures Elements(Canonical(es)) == es
  {
    if es != [] {
      ElementsOfJoin(es);
      ElementsAround("", JoinWith(es, '/'));
    }
  }

  /** Trailing slashes carry no elements. */
  lemma {:induction false} ElementsTrimRight(s: string)
    ensures Elements(TrimRight(s, '/')) == Elements(s)
    decreases |s|
  {
    if |s| > 0 && s[|s| - 1] == '/' {
      var t := s[..|s| - 1];
      ElementsTrimRight(t);
      assert s == t + "/" + "";
      ElementsAround(t, "");
    }
  }

  /** A leading slash carries no elements. */
  lemma ElementsLeadingSlash(s: string)
    ensures Elements("/" + s) == Elements(s)
  {
    ElementsAround("", s);
  }

  /** A non-empty name that does not start with a slash has an element. */
  lemma UnrootedHasElement(p: string)
    requires p != "" && !Rooted(p)
    ensures Elements(p) != []
  {
    var parts := Split(p, '/');
    assert parts[0] != "";
    assert NonEmpty(parts) == [parts[0]] + NonEmpty(parts[1..]);
  }

  lemma {:induction false} JoinWithEnds(es: seq<string>)
    requires es != []
    requires forall i | 0 <= i < |es| :: IsElement(es[i])
    ensures JoinWith(es, '/') != ""
    ensures JoinWith(es, '/')[0] != '/'
    ensures JoinWith(es, '/')[|JoinWith(es, '/')| - 1] != '/'
    decreases |es|
  {
    if |es| > 1 {
      JoinWithEnds(es[1..]);
    }
  }

  /** Cleaning keeps the elements of any non-empty name. */
  lemma CleanElements(p: string)
    requires p != ""
    ensures Elements(Clean(p)) == Elements(p)
  {
    var es := Elements(p);
    ElementsOfJoin(es);
    if Rooted(p) {
      ElementsLeadingSlash(JoinWith(es, '/'));
    } else {
      UnrootedHasElement(p);
    }
  }

  /** path.Join concatenates the element lists of its arguments. */
  lemma JoinElements(a: string, b: string)
    ensures Elements(Join(a, b)) == Elements(a) + Elements(b)
  {
    if a != "" {
      CleanElements(a + "/" + b);
      ElementsAround(a, b);
    } else if b != "" {
      CleanElements(b);
      assert Elements(a) == [];
    } else {
      assert Elements(a) == [] && Elements(b) == [];
    }
  }

  /** Forcing a leading slash onto a cleaned non-empty name gives a slash
      followed by its elements. */
  lemma RootedClean(p: string)
    requires p != ""
    ensures (if Rooted(Clean(p)) then Clean(p) else "/" + Clean(p)) == "/" + JoinWith(Elements(p), '/')
  {
    var es := Elements(p);
    if !Rooted(p) {
      UnrootedHasElement(p);
      JoinWithEnds(es);
    }
  }

  /** A canonical name never ends in a slash. */
  lemma CanonicalEnds(es: seq<string>)
    requires forall i | 0 <= i < |es| :: IsElement(es[i])
    ensures Canonical(es) == "" || (Rooted(Canonical(es)) && Canonical(es)[|Canonical(es)| - 1] != '/')
  {
    if es != [] {
      JoinWithEnds(es);
    }
  }

  lemma CanonicalSnoc(es: seq<string>, k: string)
    ensures Canonical(es + [k]) == Canonical(es) + "/" + k
  {
    if es != [] {
      JoinWithSnoc(es, k, '/');
    } else {
      assert es + [k] == [k];
    }
  }

  /** Below a service path, joining a plain key appends it after one slash. */
  lemma JoinServicePath(sp: string, k: string)
    requires IsServicePath(sp) && IsElement(k)
    ensures Join(sp, k) == sp + "/" + k
  {
    var es := Elements(sp);
    ElementsAround(sp, k);
    ElementsOfElement(k);
    assert Rooted(sp + "/" + k);
    CanonicalSnoc(es, k);
  }

  /** Joining the empty key names the service path itself. */
  lemma JoinEmptyKey(sp: string)
    requires IsServicePath(sp)
    ensures Join(sp, "") == sp
  {
    var es := Elements(sp);
    ElementsAround(sp, "");
    assert Elements("") == [];
    assert Elements(sp + "/" + "") == es;
    CanonicalEnds(es);
    assert Rooted(sp + "/" + "");
    assert Clean(sp + "/" + "") == "/" + JoinWith(es, '/') == Canonical(es);
  }

  /** A service path is not below itself. */
  lemma NotOwnChild(sp: string)
    requires IsServicePath(sp)
    ensures !IsChild(sp, sp)
  {
    ChildPrefixOfServicePath(sp);
  }

  /** The prefix of the entries below a service path is the path and a slash. */
  lemma ChildPrefixOfServicePath(sp: string)
    requires IsServicePath(sp)
    ensures ChildPrefix(sp) == sp + "/"
  {
    CanonicalEnds(Elements(sp));
  }

  /** path.Split cuts a name at its last slash. */
  lemma {:induction false} PathSplitParts(p: string)
    ensures PathSplit(p).0 + PathSplit(p).1 == p
    ensures '/' !in PathSplit(p).1
    ensures PathSplit(p).0 == "" || PathSplit(p).0[|PathSplit(p).0| - 1] == '/'
    decreases |p|
  {
    if p != "" && p[|p| - 1] != '/' {
      var q, c := p[..|p| - 1], p[|p| - 1];
      PathSplitParts(q);
      var r := PathSplit(q);
      assert PathSplit(p) == (r.0, r.1 + [c]);
      FileGrows(q, c, r.0, r.1);
      assert p == q + [c];
    }
  }

  /** One more slash-free character extends the file part. */
  lemma FileGrows(q: string, c: char, d: string, f: string)
    requires d + f == q && '/' !in f && c != '/'
    ensures d + (f + [c]) == q + [c] && '/' !in f + [c]
  {
    assert d + (f + [c]) == (d + f) + [c];
  }

  /** A name made of a slash-terminated directory and a slash-free file
      splits back into the two. */
  lemma {:induction false} PathSplitAt(d: string, f: string)
    requires d == "" || d[|d| - 1] == '/'
    requires '/' !in f
    ensures PathSplit(d + f) == (d, f)
    decreases |f|
  {
    if f == "" {
      assert d + f == d;
    } else {
      var g := f[..|f| - 1];
      PathSplitAt(d, g);
      assert (d + f)[..|d + f| - 1] == d + g;
      assert f == g + [f[|f| - 1]];
    }
  }

  /** The base name of an entry below `p` is what follows the shared prefix. */
  lemma ChildBase(n: string, p: string)
    requires IsChild(n, p)
    ensures Base(n) == n[|ChildPrefix(p)|..]
    ensures n == ChildPrefix(p) + Base(n)
  {
    var c := ChildPrefix(p);
    var k := n[|c|..];
    assert n == c + k;
    assert n[|n| - 1] == k[|k| - 1];
    assert TrimRight(n, '/') == n;
    PathSplitAt(c, k);
  }

  /** Entries below the same path are told apart by their base names. */
  lemma ChildBaseInjective(n: string, m: string, p: string)
    requires IsChild(n, p) && IsChild(m, p) && Base(n) == Base(m)
    ensures n == m
  {
    ChildBase(n, p);
    ChildBase(m, p);
  }

  /** A plain key joined below a service path is an entry one level below it,
      and path.Base gives the key back. */
  lemma JoinedKeyIsChild(sp: string, k: string)
    requires IsServicePath(sp) && IsElement(k)
    ensures IsChild(Join(sp, k), sp)
    ensures Base(Join(sp, k)) == k
  {
    JoinServicePath(sp, k);
    ChildPrefixOfServicePath(sp);
    var n := sp + "/" + k;
    assert n[|sp + "/"|..] == k;
    ChildBase(n, sp);
  }

  /** An entry one level below a service path is the path joined with its
      base name. */
  lemma ChildJoin(sp: string, n: string)
    requires IsServicePath(sp) && IsChild(n, sp)
    ensures IsElement(Base(n)) && Join(sp, Base(n)) == n
  {
    ChildBase(n, sp);
    ChildPrefixOfServicePath(sp);
    JoinServicePath(sp, Base(n));
  }

  /** Two plain keys joined below one service path give different names
      unless the keys are equal. */
  lemma JoinedKeysDistinct(sp: string, k: string, j: string)
    requires IsServicePath(sp) && IsElement(k) && IsElement(j)
    ensures Join(sp, k) == Join(sp, j) <==> k == j
  {
    JoinedKeyIsChild(sp, k);
    JoinedKeyIsChild(sp, j);
  }
}
