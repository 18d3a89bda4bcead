/** The rows of the service-path test table, derived from the general
    properties of ParseServicePaths. Each row is first proved for arbitrary
    plain names standing in for the literal ones, then instantiated. */
module ServicePathExamples {
  import opened Strings
  import opened Paths
  import opened ServicePaths

  /** A name usable inside a service-path list: one element, no `,` or `+`. */
  predicate Plain(e: string) {
    IsElement(e) && ',' !in e && '+' !in e
  }

  lemma ElementsTrailingSlash(x: string)
    ensures Elements(x + "/") == Elements(x)
  {
    assert x + "/" == x + "/" + "";
    ElementsAround(x, "");
  }

  lemma TwoElements(x: string, y: string)
    requires IsElement(x) && IsElement(y)
    ensures Elements(x + "/" + y) == [x, y]
    ensures Elements("/" + x + "/" + y) == [x, y]
  {
    ElementsOfElement(x);
    ElementsOfElement(y);
    ElementsAround(x, y);
    ElementsAround("/" + x, y);
    ElementsLeadingSlash(x);
  }

  lemma CanonicalOne(x: string)
    ensures Canonical([x]) == "/" + x
  {
  }

  lemma CanonicalTwo(x: string, y: string)
    ensures Canonical([x, y]) == "/" + x + "/" + y
  {
    assert [x, y][1..] == [y];
    assert JoinWith([y], '/') == y;
    assert JoinWith([x, y], '/') == x + "/" + y;
  }

  lemma ExpandOne(s: string)
    ensures ExpandSegments([s]) == ParseServicePath(s)
  {
    assert [s][1..] == [];
  }

  lemma TwoParts(a: string, b: string, sep: char)
    requires sep !in a && sep !in b
    ensures Split(a + [sep] + b, sep) == [a, b]
  {
    SplitAround(a, b, sep);
    SplitWithoutSeparator(a, sep);
    SplitWithoutSeparator(b, sep);
  }

  /** One segment without `+` names a single service. */
  lemma SingleSegment(s: string, es: seq<string>)
    requires ',' !in s && '+' !in s
    requires Elements(s) == es
    ensures ParseServicePaths(s) == [Canonical(es)]
  {
    SplitWithoutSeparator(s, ',');
    SplitWithoutSeparator(s, '+');
    ExpandOne(s);
    ParseServicePathMeaning(s);
  }

  /** One segment `first+second` names two services in one directory. */
  lemma PairSegment(first: string, second: string, x: string, y: string, z: string)
    requires ',' !in first && '+' !in first && ',' !in second && '+' !in second
    requires Elements(first) == [x, y] && Elements(second) == [z]
    ensures ParseServicePaths(first + "+" + second) == [Canonical([x, y]), Canonical([x, z])]
  {
    var s := first + "+" + second;
    assert ',' !in s;
    SplitWithoutSeparator(s, ',');
    TwoParts(first, second, '+');
    ExpandOne(s);
    ParseServicePathMeaning(s);
    assert ParentElements(first) == [x];
    assert [x] + [z] == [x, z];
  }

  /** `/s/d/+p/`: a rooted directory with trailing slashes on both parts. */
  lemma SlashedPair(seg: string, s: string, d: string, p: string)
    requires Plain(s) && Plain(d) && Plain(p)
    requires seg == "/" + s + "/" + d + "/+" + p + "/"
    ensures ParseServicePaths(seg) == ["/" + s + "/" + d, "/" + s + "/" + p]
  {
    var first, second := "/" + s + "/" + d + "/", p + "/";
    assert seg == first + "+" + second;
    TwoElements(s, d);
    ElementsTrailingSlash("/" + s + "/" + d);
    ElementsOfElement(p);
    ElementsTrailingSlash(p);
    PairSegment(first, second, s, d, p);
    CanonicalTwo(s, d);
    CanonicalTwo(s, p);
  }

  /** `s/a+f`: an unrooted directory. */
  lemma UnrootedPair(seg: string, s: string, a: string, f: string)
    requires Plain(s) && Plain(a) && Plain(f)
    requires seg == s + "/" + a + "+" + f
    ensures ParseServicePaths(seg) == ["/" + s + "/" + a, "/" + s + "/" + f]
  {
    TwoElements(s, a);
    ElementsOfElement(f);
    PairSegment(s + "/" + a, f, s, a, f);
    CanonicalTwo(s, a);
    CanonicalTwo(s, f);
  }

  /** `/s/d+p`: a rooted directory without trailing slashes. */
  lemma RootedPair(seg: string, s: string, d: string, p: string)
    requires Plain(s) && Plain(d) && Plain(p)
    requires seg == "/" + s + "/" + d + "+" + p
    ensures ParseServicePaths(seg) == ["/" + s + "/" + d, "/" + s + "/" + p]
  {
    TwoElements(s, d);
    ElementsOfElement(p);
    PairSegment("/" + s + "/" + d, p, s, d, p);
    CanonicalTwo(s, d);
    CanonicalTwo(s, p);
  }

  /** A single plain name gets a leading slash. */
  lemma BareName(seg: string)
    requires Plain(seg)
    ensures ParseServicePaths(seg) == ["/" + seg]
  {
    ElementsOfElement(seg);
    SingleSegment(seg, [seg]);
  }

  /** `/h/` loses its trailing slash. */
  lemma RootedSlashedName(seg: string, h: string)
    requires Plain(h)
    requires seg == "/" + h + "/"
    ensures ParseServicePaths(seg) == ["/" + h]
  {
    ElementsOfElement(h);
    ElementsLeadingSlash(h);
    ElementsTrailingSlash("/" + h);
    SingleSegment("/" + h + "/", [h]);
  }

  /** A list is expanded segment by segment. */
  lemma Segments(input: string, x: string, y: string)
    requires input == x + "," + y
    ensures ParseServicePaths(input) == ParseServicePaths(x) + ParseServicePaths(y)
  {
    ParseServicePathsConcat(x, y);
  }

  // The literal rows. The facts about the literals themselves are kept in
  // small helper lemmas of their own, so that each proof handles few
  // literals; the helpers state nothing about the parser.

  /** Helper: the names of the rows are plain. */
  lemma PlainNames()
    ensures Plain("service") && Plain("dev") && Plain("prod") && Plain("service2")
    ensures Plain("abc") && Plain("def") && Plain("haps")
  {
  }

  /** Helper: the rows' paths, spelled out from their pieces. */
  lemma SpelledPaths()
    ensures "/" + "service" + "/" + "dev" == "/service/dev"
    ensures "/" + "service" + "/" + "prod" == "/service/prod"
    ensures "/" + "service2" + "/" + "abc" == "/service2/abc"
    ensures "/" + "service2" + "/" + "def" == "/service2/def"
    ensures "/" + "service2" == "/service2"
    ensures "/" + "haps" == "/haps"
  {
  }

  /** Helper: the fuzzy row cut at its first comma. */
  lemma FuzzySegments(input: string, x: string, yh: string)
    requires input == "/service/dev/+prod/,service2/abc+def,haps"
    requires x == "/service/dev/+prod/" && yh == "service2/abc+def,haps"
    ensures input == x + "," + yh
  {
  }

  /** Helper: the fuzzy row's tail cut at its comma and its slash. */
  lemma FuzzyTailSegments(yh: string, y: string, h: string)
    requires yh == "service2/abc+def,haps"
    requires y == "service2/abc+def" && h == "haps"
    ensures yh == y + "," + h
    ensures y == "service2" + "/" + "abc" + "+" + "def"
  {
  }

  /** The last two segments of the fuzzy row. */
  lemma FuzzyTail(yh: string)
    requires yh == "service2/abc+def,haps"
    ensures ParseServicePaths(yh) == ["/service2/abc", "/service2/def", "/haps"]
  {
    var y, h := "service2/abc+def", "haps";
    FuzzyTailSegments(yh, y, h);
    PlainNames();
    SpelledPaths();
    ParseServicePathsConcat(y, h);
    UnrootedPair(y, "service2", "abc", "def");
    BareName(h);
  }

  /** The first segment of the fuzzy row. */
  lemma FuzzyHead(x: string)
    requires x == "/service/dev/+prod/"
    ensures ParseServicePaths(x) == ["/service/dev", "/service/prod"]
  {
    assert x == "/" + "service" + "/" + "dev" + "/+" + "prod" + "/";
    PlainNames();
    SpelledPaths();
    SlashedPair(x, "service", "dev", "prod");
  }

  lemma FuzzySplit(input: string)
    requires input == "/service/dev/+prod/,service2/abc+def,haps"
    ensures ParseServicePaths(input)
         == ParseServicePaths("/service/dev/+prod/") + ParseServicePaths("service2/abc+def,haps")
  {
    var x, yh := "/service/dev/+prod/", "service2/abc+def,haps";
    FuzzySegments(input, x, yh);
    Segments(input, x, yh);
  }

  /** Helper: the fuzzy row's expected list, from its two halves. */
  lemma FuzzyRowLists()
    ensures ["/service/dev", "/service/prod"] + ["/service2/abc", "/service2/def", "/haps"]
         == ["/service/dev", "/service/prod", "/service2/abc", "/service2/def", "/haps"]
  {
  }

  /** The fuzzy row of the test table: missing and trailing slashes, `+` and `,`. */
  lemma FuzzyServicePathsExample(input: string)
    requires input == "/service/dev/+prod/,service2/abc+def,haps"
    ensures ParseServicePaths(input)
         == ["/service/dev", "/service/prod", "/service2/abc", "/service2/def", "/haps"]
  {
    FuzzySplit(input);
    FuzzyHead("/service/dev/+prod/");
    FuzzyTail("service2/abc+def,haps");
    FuzzyRowLists();
  }

  /** Helper: the two-path row cut at its comma, each half spelled out. */
  lemma TwoSegments(input: string, x: string, y: string)
    requires input == "/service/dev+prod,/service2/"
    requires x == "/service/dev+prod" && y == "/service2/"
    ensures input == x + "," + y
    ensures x == "/" + "service" + "/" + "dev" + "+" + "prod"
    ensures y == "/" + "service2" + "/"
  {
  }

  /** Two segments, the second with a trailing slash. */
  lemma TwoSegmentExample(input: string)
    requires input == "/service/dev+prod,/service2/"
    ensures ParseServicePaths(input) == ["/service/dev", "/service/prod", "/service2"]
  {
    var x, y := "/service/dev+prod", "/service2/";
    TwoSegments(input, x, y);
    PlainNames();
    SpelledPaths();
    ParseServicePathsConcat(x, y);
    RootedPair(x, "service", "dev", "prod");
    RootedSlashedName(y, "service2");
  }

  /** A directory with two environments. */
  lemma PairExample(input: string)
    requires input == "/service/dev+prod"
    ensures ParseServicePaths(input) == ["/service/dev", "/service/prod"]
  {
    assert input == "/" + "service" + "/" + "dev" + "+" + "prod";
    PlainNames();
    SpelledPaths();
    RootedPair(input, "service", "dev", "prod");
  }
}
