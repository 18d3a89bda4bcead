/** Service-path normalisation and the `dir/a+b,other` expansion used by the
    command line to name several services at once. */
module ServicePaths {
  import opened Strings
  import opened Paths

  /** FormatServiceName: force a leading slash, drop trailing slashes. */
  function FormatServiceName(serviceName: string): (r: string)
    ensures r == "" || (r[0] == '/' && r[|r| - 1] != '/')
  {
    var rooted := if HasPrefix(serviceName, "/") then serviceName else "/" + serviceName;
    TrimRight(rooted, '/')
  }

  /** parseServicePath: `dir/env1+env2+...` names `dir/env1`, `dir/env2`, ... */
  function ParseServicePath(servicePath: string): (r: seq<string>)
    ensures |r| == |Split(servicePath, '+')|
  {
    var environments := Split(servicePath, '+');
    var first := PathSplit(FormatServiceName(environments[0]));
    ExpandEnvironments(first.0, [first.1] + environments[1..])
  }

  /** The formatted names of the environments inside one directory. */
  function ExpandEnvironments(serviceDir: string, envs: seq<string>): (r: seq<string>)
    ensures |r| == |envs|
  {
    seq(|envs|, i requires 0 <= i < |envs| => FormatServiceName(Join(serviceDir, envs[i])))
  }

  /** The expansions of the segments, in segment order. */
  function ExpandSegments(segments: seq<string>): seq<string> {
    if segments == [] then [] else ParseServicePath(segments[0]) + ExpandSegments(segments[1..])
  }

  /** ParseServicePaths: expand every comma-separated segment, giving one
      normal service path per `+`-part. */
  function ParseServicePaths(input: string): (r: seq<string>)
    ensures |r| == PartCount(Split(input, ','))
    ensures forall p | p in r :: FormatServiceName(p) == p
  {
    ExpandSegmentsCount(Split(input, ','));
    ExpandedFormatted(Split(input, ','));
    ExpandSegments(Split(input, ','))
  }

  /** How many `+`-parts the segments have altogether. */
  function PartCount(segments: seq<string>): nat {
    if segments == [] then 0 else |Split(segments[0], '+')| + PartCount(segments[1..])
  }

  /** All elements of a name but its last one. */
  function ParentElements(p: string): seq<string> {
    var es := Elements(p);
    if es == [] then [] else es[..|es| - 1]
  }

  // ---------------------------------------------------------------- lemmas

  /** FormatServiceName keeps the elements of its input. */
  lemma FormatElements(s: string)
    ensures Elements(FormatServiceName(s)) == Elements(s)
  {
    var rooted := if HasPrefix(s, "/") then s else "/" + s;
    ElementsTrimRight(rooted);
    if !HasPrefix(s, "/") {
      ElementsLeadingSlash(s);
    }
  }

  /** A rooted name without a trailing slash is already formatted. */
  lemma FormatKeepsFormatted(s: string)
    requires Rooted(s) && s[|s| - 1] != '/'
    ensures FormatServiceName(s) == s
  {
    assert HasPrefix(s, "/");
  }

  /** FormatServiceName sends "" and "/" to "" and is idempotent. */
  lemma FormatServiceNameNormalises(s: string)
    ensures FormatServiceName("") == "" && FormatServiceName("/") == ""
    ensures FormatServiceName(FormatServiceName(s)) == FormatServiceName(s)
  {
    assert HasPrefix("/", "/");
    assert TrimRight("/", '/') == TrimRight("", '/');
    var r := FormatServiceName(s);
    if r != "" {
      FormatKeepsFormatted(r);
    }
  }

  /** A canonical name is its own format. */
  lemma FormatCanonical(es: seq<string>)
    requires forall i | 0 <= i < |es| :: IsElement(es[i])
    ensures FormatServiceName(Canonical(es)) == Canonical(es)
  {
    CanonicalEnds(es);
    if es != [] {
      FormatKeepsFormatted(Canonical(es));
    }
  }

  /** Formatting a cleaned name gives the canonical name of its elements. */
  lemma FormatClean(p: string)
    requires p != ""
    ensures FormatServiceName(Clean(p)) == Canonical(Elements(p))
  {
    var es := Elements(p);
    var c := Clean(p);
    var rooted := "/" + JoinWith(es, '/');
    RootedClean(p);
    assert HasPrefix(c, "/") == Rooted(c);
    assert FormatServiceName(c) == TrimRight(rooted, '/');
    if es == [] {
      assert TrimRight(rooted, '/') == TrimRight("", '/');
    } else {
      JoinWithEnds(es);
    }
  }

  /** Formatting a joined name gives the canonical name of all the elements. */
  lemma FormatJoin(a: string, b: string)
    ensures FormatServiceName(Join(a, b)) == Canonical(Elements(a) + Elements(b))
  {
    if a != "" {
      var p := a + "/" + b;
      assert Join(a, b) == Clean(p);
      FormatClean(p);
      ElementsAround(a, b);
    } else if b != "" {
      assert Join(a, b) == Clean(b);
      FormatClean(b);
      assert Elements(a) == [];
      assert Elements(a) + Elements(b) == Elements(b);
    } else {
      assert Elements(a) == [] && Elements(b) == [];
      assert FormatServiceName("") == TrimRight("/", '/') == "";
    }
  }

  /** The directory and the file that path.Split makes of a formatted name
      hold all of its elements, the file holding at most the last one. */
  lemma SplitFormatted(p: string)
    ensures Elements(PathSplit(FormatServiceName(p)).0) == ParentElements(p)
    ensures Elements(PathSplit(FormatServiceName(p)).1) ==
              (if Elements(p) == [] then [] else [Elements(p)[|Elements(p)| - 1]])
  {
    var f := FormatServiceName(p);
    FormatElements(p);
    var sp := PathSplit(f);
    PathSplitParts(f);
    var dir, env := sp.0, sp.1;
    if f == "" {
      assert dir == "" && env == "";
    } else {
      assert env != "";
      ElementsOfElement(env);
      assert f[0] == '/';
      assert dir != "";
      var d := dir[..|dir| - 1];
      assert dir == d + "/" + "";
      ElementsAround(d, "");
      assert f == d + "/" + env;
      ElementsAround(d, env);
      assert Elements(f) == Elements(dir) + [env];
    }
  }

  /** The i-th expansion is the canonical name of the directory's elements
      followed by the i-th environment's. */
  lemma ExpandEnvironmentsAt(serviceDir: string, envs: seq<string>, i: nat)
    requires i < |envs|
    ensures ExpandEnvironments(serviceDir, envs)[i] == Canonical(Elements(serviceDir) + Elements(envs[i]))
  {
    FormatJoin(serviceDir, envs[i]);
  }

  /** The elements of a formatted name's directory, followed by those of its
      file, are the elements of the name. */
  lemma SplitFormattedJoins(first: string)
    ensures var sp := PathSplit(FormatServiceName(first));
      Elements(sp.0) + Elements(sp.1) == Elements(first)
  {
    var sp := PathSplit(FormatServiceName(first));
    SplitFormatted(first);
    var es := Elements(first);
    if es != [] {
      DropLast(es);
    }
  }

  /** A non-empty list is its front followed by its last element. */
  lemma DropLast(es: seq<string>)
    requires es != []
    ensures es[..|es| - 1] + [es[|es| - 1]] == es
  {
  }

  /** The first environment of a segment names the first part itself. */
  lemma FirstEnvironment(first: string, rest: seq<string>)
    ensures var sp := PathSplit(FormatServiceName(first));
      ExpandEnvironments(sp.0, [sp.1] + rest)[0] == Canonical(Elements(first))
  {
    var sp := PathSplit(FormatServiceName(first));
    SplitFormattedJoins(first);
    ExpandEnvironmentsAt(sp.0, [sp.1] + rest, 0);
  }

  /** Every further environment is placed in the directory of the first part. */
  lemma SiblingEnvironment(parts: seq<string>, i: nat)
    requires 1 <= i < |parts|
    ensures var sp := PathSplit(FormatServiceName(parts[0]));
      ExpandEnvironments(sp.0, [sp.1] + parts[1..])[i] == Canonical(ParentElements(parts[0]) + Elements(parts[i]))
  {
    var sp := PathSplit(FormatServiceName(parts[0]));
    var envs := [sp.1] + parts[1..];
    SplitFormatted(parts[0]);
    ExpandEnvironmentsAt(sp.0, envs, i);
    assert envs[i] == parts[i];
  }

  /** Path i of a segment is the expansion of part i. */
  lemma ParseServicePathAt(servicePath: string, i: nat)
    requires i < |Split(servicePath, '+')|
    ensures var parts := Split(servicePath, '+');
      var sp := PathSplit(FormatServiceName(parts[0]));
      ParseServicePath(servicePath)[i] == ExpandEnvironments(sp.0, [sp.1] + parts[1..])[i]
  {
  }

  /** A further part of a segment names a sibling of the first part. */
  lemma ParseServicePathSibling(servicePath: string, i: nat)
    requires 1 <= i < |Split(servicePath, '+')|
    ensures var parts := Split(servicePath, '+');
      ParseServicePath(servicePath)[i] == Canonical(ParentElements(parts[0]) + Elements(parts[i]))
  {
    ParseServicePathAt(servicePath, i);
    SiblingEnvironment(Split(servicePath, '+'), i);
  }

  /** The meaning of one segment: its first part names itself, and every
      further part names a sibling, in the directory of the first part. */
  lemma ParseServicePathMeaning(servicePath: string)
    ensures var parts := Split(servicePath, '+');
      var r := ParseServicePath(servicePath);
      && r[0] == Canonical(Elements(parts[0]))
      && forall i | 1 <= i < |parts| :: r[i] == Canonical(ParentElements(parts[0]) + Elements(parts[i]))
  {
    var parts := Split(servicePath, '+');
    FirstEnvironment(parts[0], parts[1..]);
    forall i | 1 <= i < |parts|
      ensures ParseServicePath(servicePath)[i] == Canonical(ParentElements(parts[0]) + Elements(parts[i]))
    {
      ParseServicePathSibling(servicePath, i);
    }
  }

  /** Every expanded path is in the form FormatServiceName produces. */
  lemma ParsedPathsFormatted(input: string)
    ensures forall p | p in ParseServicePaths(input) :: FormatServiceName(p) == p
  {
    ExpandedFormatted(Split(input, ','));
  }

  lemma {:induction false} ExpandedFormatted(segments: seq<string>)
    ensures forall p | p in ExpandSegments(segments) :: FormatServiceName(p) == p
  {
    if segments != [] {
      ExpandedFormatted(segments[1..]);
      var parts := Split(segments[0], '+');
      var sp := PathSplit(FormatServiceName(parts[0]));
      var envs := [sp.1] + parts[1..];
      var r := ExpandEnvironments(sp.0, envs);
      assert ParseServicePath(segments[0]) == r;
      forall p | p in r
        ensures FormatServiceName(p) == p
      {
        var i :| 0 <= i < |r| && r[i] == p;
        ExpandEnvironmentsAt(sp.0, envs, i);
        FormatCanonical(Elements(sp.0) + Elements(envs[i]));
      }
    }
  }

  lemma {:induction false} ExpandSegmentsAppend(a: seq<string>, b: seq<string>)
    ensures ExpandSegments(a + b) == ExpandSegments(a) + ExpandSegments(b)
    decreases |a|
  {
    if a == [] {
      assert a + b == b;
    } else {
      assert (a + b)[1..] == a[1..] + b;
      ExpandSegmentsAppend(a[1..], b);
    }
  }

  /** The output has one path per `+`-part of every segment. */
  lemma {:induction false} ExpandSegmentsCount(segments: seq<string>)
    ensures |ExpandSegments(segments)| == PartCount(segments)
  {
    if segments != [] {
      ExpandSegmentsCount(segments[1..]);
    }
  }

  /** Segments are expanded in order: the paths of `a` come before those of `b`. */
  lemma ParseServicePathsConcat(a: string, b: string)
    ensures ParseServicePaths(a + "," + b) == ParseServicePaths(a) + ParseServicePaths(b)
    ensures |ParseServicePaths(a + "," + b)| == PartCount(Split(a, ',')) + PartCount(Split(b, ','))
  {
    SplitAround(a, b, ',');
    ExpandSegmentsAppend(Split(a, ','), Split(b, ','));
    ExpandSegmentsCount(Split(a, ','));
    ExpandSegmentsCount(Split(b, ','));
  }
}
