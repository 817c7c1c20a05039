/** Path helpers of the extension: overlap-aware path combination
    (`combinePaths`) and the forward-slash rewriting of relative paths
    (`getRelativePath`).

    The separator is fixed to '/'. Node's `path.normalize` is modelled by
    `NormalizePath` (without resolving `.` and `..`), `path.join` by
    `JoinPath`, and `path.relative` is a parameter. */
module Utils {

  const Sep: char := '/'
  const Backslash: char := '\\'

  // ---------------------------------------------------------------------
  // Splitting and joining on the separator (String.split / Array.join)
  // ---------------------------------------------------------------------

  /** `s.split('/')`: the pieces between separators, empty pieces included;
      a string with n separators has n + 1 pieces. */
  function Split(s: string): (parts: seq<string>)
    ensures |parts| >= 1
    ensures forall i :: 0 <= i < |parts| ==> Sep !in parts[i]
    decreases |s|
  {
    if s == [] then [""]
    else
      var rest := Split(s[1..]);
      if s[0] == Sep then [""] + rest
      else [[s[0]] + rest[0]] + rest[1..]
  }

  /** `parts.join('/')`. */
  function Join(parts: seq<string>): string
    decreases |parts|
  {
    if |parts| == 0 then ""
    else if |parts| == 1 then parts[0]
    else parts[0] + [Sep] + Join(parts[1..])
  }

  /** Joining the pieces of a split gives back the string. */
  lemma {:induction false} JoinSplit(s: string)
    ensures Join(Split(s)) == s
    decreases |s|
  {
    if s != [] {
      JoinSplit(s[1..]);
      var rest := Split(s[1..]);
      if s[0] == Sep {
        assert Split(s) == [""] + rest;
      } else if |rest| == 1 {
        assert Split(s) == [[s[0]] + rest[0]];
      } else {
        var head := [s[0]] + rest[0];
        assert Split(s) == [head] + rest[1..];
        assert Join(rest) == rest[0] + [Sep] + Join(rest[1..]);
        assert Join(Split(s)) == head + [Sep] + Join(rest[1..]);
      }
    }
  }

  /** A string without separators is a single piece. */
  lemma {:induction false} SplitNoSeparator(s: string)
    requires Sep !in s
    ensures Split(s) == [s]
    decreases |s|
  {
    if s != [] {
      assert Sep !in s[1..] by {
        forall c | c in s[1..] ensures c != Sep { assert c in s; }
      }
      SplitNoSeparator(s[1..]);
      assert [s[0]] + s[1..] == s;
    }
  }

  /** One step of `Split`: the first character either starts a new piece or
      extends the first piece of the rest. */
  lemma SplitCons(c: char, t: string)
    ensures Split([c] + t) == if c == Sep then [""] + Split(t)
                              else [[c] + Split(t)[0]] + Split(t)[1..]
  {
    assert ([c] + t)[0] == c && ([c] + t)[1..] == t;
  }

  /** Splitting distributes over a separator. */
  lemma {:induction false} SplitAtSeparator(a: string, b: string)
    ensures Split(a + [Sep] + b) == Split(a) + Split(b)
    decreases |a|
  {
    if a == [] {
      assert a + [Sep] + b == [Sep] + b;
      SplitCons(Sep, b);
    } else {
      var tail := a[1..];
      assert a == [a[0]] + tail;
      assert a + [Sep] + b == [a[0]] + (tail + [Sep] + b);
      SplitCons(a[0], tail + [Sep] + b);
      SplitCons(a[0], tail);
      SplitAtSeparator(tail, b);
    }
  }

  /** Splitting a join of separator-free pieces gives back the pieces. */
  lemma {:induction false} SplitJoin(parts: seq<string>)
    requires |parts| >= 1
    requires forall i :: 0 <= i < |parts| ==> Sep !in parts[i]
    ensures Split(Join(parts)) == parts
    decreases |parts|
  {
    SplitNoSeparator(parts[0]);
    if |parts| > 1 {
      SplitJoin(parts[1..]);
      SplitAtSeparator(parts[0], Join(parts[1..]));
      assert [parts[0]] + parts[1..] == parts;
    }
  }

  // ---------------------------------------------------------------------
  // Segments: split, then drop the empty pieces (src/utils.ts:107-108)
  // ---------------------------------------------------------------------

  /** `parts.filter(s => s !== '')`. */
  function NonEmpty(parts: seq<string>): (r: seq<string>)
    ensures forall i :: 0 <= i < |r| ==> r[i] != ""
    ensures forall x :: x in r <==> x in parts && x != ""
    decreases |parts|
  {
    if parts == [] then []
    else if parts[0] == "" then NonEmpty(parts[1..])
    else [parts[0]] + NonEmpty(parts[1..])
  }

  lemma {:induction false} NonEmptyConcat(a: seq<string>, b: seq<string>)
    ensures NonEmpty(a + b) == NonEmpty(a) + NonEmpty(b)
    decreases |a|
  {
    if a == [] {
      assert a + b == b;
    } else {
      assert (a + b)[0] == a[0] && (a + b)[1..] == a[1..] + b;
      NonEmptyConcat(a[1..], b);
    }
  }

  /** A sequence of non-empty pieces is kept as it is by the filter. */
  lemma {:induction false} NonEmptyKeepsNonEmpty(parts: seq<string>)
    requires forall i :: 0 <= i < |parts| ==> parts[i] != ""
    ensures NonEmpty(parts) == parts
    decreases |parts|
  {
    if parts != [] {
      NonEmptyKeepsNonEmpty(parts[1..]);
    }
  }

  /** The segments of a path: the non-empty pieces between separators. */
  function Segments(s: string): (r: seq<string>)
    ensures forall i :: 0 <= i < |r| ==> r[i] != "" && Sep !in r[i]
  {
    var parts := Split(s);
    assert forall x :: x in parts ==> Sep !in x;
    NonEmpty(parts)
  }

  /** True of the segment lists `Segments` can produce. */
  predicate IsSegmentList(parts: seq<string>) {
    forall i :: 0 <= i < |parts| ==> parts[i] != "" && Sep !in parts[i]
  }

  /** A separator between two strings splits their segments apart, so a
      leading separator or a doubled one never yields an empty segment. */
  lemma SegmentsAtSeparator(a: string, b: string)
    ensures Segments(a + [Sep] + b) == Segments(a) + Segments(b)
  {
    SplitAtSeparator(a, b);
    NonEmptyConcat(Split(a), Split(b));
  }

  /** Leading and doubled separators do not change the segments. */
  lemma ExtraSeparatorsIgnored(a: string, b: string)
    ensures Segments([Sep] + b) == Segments(b)
    ensures Segments(a + [Sep, Sep] + b) == Segments(a + [Sep] + b)
  {
    SegmentsAtSeparator([], b);
    assert [] + [Sep] + b == [Sep] + b;
    SegmentsAtSeparator(a, [Sep] + b);
    SegmentsAtSeparator(a, b);
    assert a + [Sep] + ([Sep] + b) == a + [Sep, Sep] + b;
  }

  /** Segments and Join are inverse on segment lists. */
  lemma SegmentsOfJoin(parts: seq<string>)
    requires IsSegmentList(parts)
    ensures Segments(Join(parts)) == parts
  {
    if parts == [] {
      assert Split("") == [""];
    } else {
      SplitJoin(parts);
      NonEmptyKeepsNonEmpty(parts);
    }
  }

  // ---------------------------------------------------------------------
  // The overlap between the workspace path and the relative segments
  // ---------------------------------------------------------------------

  /** `s.endsWith(suffix)`. */
  predicate EndsWith(s: string, suffix: string) {
    |suffix| <= |s| && s[|s| - |suffix|..] == suffix
  }

  /** The first k relative segments, joined, sit at the end of the workspace
      path right after a separator, or are the whole workspace path
      (the condition at src/utils.ts:125). */
  predicate OverlapsAt(workspacePath: string, segments: seq<string>, k: int) {
    && 1 <= k <= |segments|
    && var prefix := Join(segments[..k]);
       EndsWith(workspacePath, [Sep] + prefix) || workspacePath == prefix
  }

  /** k is the number of segments to skip: the largest overlapping prefix
      length, or 0 when no prefix overlaps. */
  predicate IsLongestOverlap(workspacePath: string, segments: seq<string>, k: int) {
    && 0 <= k <= |segments|
    && (k == 0 || OverlapsAt(workspacePath, segments, k))
    && forall j :: k < j <= |segments| ==> !OverlapsAt(workspacePath, segments, j)
  }

  lemma LongestOverlapUnique(workspacePath: string, segments: seq<string>, k1: int, k2: int)
    requires IsLongestOverlap(workspacePath, segments, k1)
    requires IsLongestOverlap(workspacePath, segments, k2)
    ensures k1 == k2
  {
  }

  /** The largest overlapping prefix length among the first n, searching
      downwards from n. */
  function LongestOverlapUpTo(workspacePath: string, segments: seq<string>, n: nat): (k: nat)
    requires n <= |segments|
    ensures k <= n
    ensures k == 0 || OverlapsAt(workspacePath, segments, k)
    ensures forall j :: k < j <= n ==> !OverlapsAt(workspacePath, segments, j)
  {
    if n == 0 then 0
    else if OverlapsAt(workspacePath, segments, n) then n
    else LongestOverlapUpTo(workspacePath, segments, n - 1)
  }

  /** The number of relative segments `combinePaths` skips. */
  function LongestOverlap(workspacePath: string, segments: seq<string>): (k: nat)
    ensures IsLongestOverlap(workspacePath, segments, k)
  {
    LongestOverlapUpTo(workspacePath, segments, |segments|)
  }

  // ---------------------------------------------------------------------
  // path.normalize (src/utils.ts:99-100)
  // ---------------------------------------------------------------------

  /** Node's `path.normalize` on '/' paths, for paths whose segments hold no
      `.` or `..`: the segments joined by single separators, keeping one
      leading and one trailing separator when the path has them; `.` for the
      empty path. A non-empty path without segments consists of separators
      only, and normalises to the root. */
  function NormalizePath(p: string): (r: string)
    ensures r != ""
  {
    if p == [] then "."
    else
      var body := Join(Segments(p));
      if body == [] then [Sep]
      else (if p[0] == Sep then [Sep] else []) + body + (if p[|p| - 1] == Sep then [Sep] else [])
  }

  /** The first piece opens the join. */
  lemma JoinHead(parts: seq<string>)
    requires |parts| >= 1
    ensures parts[0] <= Join(parts)
  {
    var first := parts[0];
    if |parts| > 1 {
      var after := [Sep] + Join(parts[1..]);
      assert Join(parts) == first + after;
      assert (first + after)[..|first|] == first;
    } else {
      assert Join(parts) == first;
    }
  }

  /** The last piece closes the join. */
  lemma {:induction false} JoinLast(parts: seq<string>)
    requires |parts| >= 1
    ensures EndsWith(Join(parts), parts[|parts| - 1])
    decreases |parts|
  {
    if |parts| > 1 {
      JoinLast(parts[1..]);
      assert Join(parts) == (parts[0] + [Sep]) + Join(parts[1..]);
    }
  }

  /** A join of segments neither starts nor ends with a separator. */
  lemma JoinEnds(parts: seq<string>)
    requires IsSegmentList(parts) && parts != []
    ensures var s := Join(parts); s != [] && s[0] != Sep && s[|s| - 1] != Sep
  {
    JoinHead(parts);
    JoinLast(parts);
    var first, last := parts[0], parts[|parts| - 1];
    assert first[0] in first;
    assert last[|last| - 1] in last;
  }

  /** Separators around a string do not change its segments. */
  lemma SeparatorsAround(body: string, lead: bool, trail: bool)
    ensures Segments((if lead then [Sep] else []) + body + (if trail then [Sep] else [])) == Segments(body)
  {
    var front := (if lead then [Sep] else []) + body;
    if lead {
      ExtraSeparatorsIgnored([], body);
    } else {
      assert front == body;
    }
    if trail {
      SegmentsAtSeparator(front, "");
      assert Split("") == [""];
      assert front + [Sep] + "" == front + [Sep];
    } else {
      assert front + [] == front;
    }
  }

  /** Normalising keeps the segments of every non-empty path. */
  lemma NormalizeSegments(p: string)
    ensures p != "" ==> Segments(NormalizePath(p)) == Segments(p)
  {
    if p != "" {
      var segments := Segments(p);
      var body := Join(segments);
      SegmentsOfJoin(segments);
      if body == [] {
        SegmentsAtSeparator("", "");
        assert Split("") == [""];
        assert "" + [Sep] + "" == [Sep];
      } else {
        SeparatorsAround(body, p[0] == Sep, p[|p| - 1] == Sep);
      }
    }
  }

  /** A path already in normal form is left as it is. */
  lemma NormalizeJoined(parts: seq<string>, lead: bool)
    requires IsSegmentList(parts) && parts != []
    ensures var p := (if lead then [Sep] else []) + Join(parts);
            NormalizePath(p) == p
  {
    var body := Join(parts);
    var p := (if lead then [Sep] else []) + body;
    JoinEnds(parts);
    SegmentsOfJoin(parts);
    SeparatorsAround(body, lead, false);
    assert p + [] == p;
    assert p[0] == Sep <==> lead;
    assert p[|p| - 1] == body[|body| - 1];
  }

  /** Normalising twice is normalising once. */
  lemma NormalizeIdempotent(p: string)
    ensures NormalizePath(NormalizePath(p)) == NormalizePath(p)
  {
    if p == [] {
      NormalizeDot(".");
    } else if Join(Segments(p)) == [] {
      NormalizeRoot([Sep]);
    } else {
      NormalizeNormal(p);
    }
  }

  lemma NormalizeDot(dot: string)
    requires dot == "."
    ensures NormalizePath(dot) == dot
  {
    NormalizeJoined(["."], false);
    assert Join(["."]) == "." && [] + "." == dot;
  }

  lemma NormalizeRoot(root: string)
    requires root == [Sep]
    ensures NormalizePath(root) == root
  {
    SegmentsAtSeparator("", "");
    assert Split("") == [""];
    assert "" + [Sep] + "" == root;
  }

  /** The normal form of a path with segments is its own normal form. */
  lemma NormalizeNormal(p: string)
    requires p != [] && Join(Segments(p)) != []
    ensures NormalizePath(NormalizePath(p)) == NormalizePath(p)
  {
    var segments := Segments(p);
    var body := Join(segments);
    var lead, trail := p[0] == Sep, p[|p| - 1] == Sep;
    var r := (if lead then [Sep] else []) + body + (if trail then [Sep] else []);
    assert NormalizePath(p) == r;
    assert segments != [];
    JoinEnds(segments);
    SegmentsOfJoin(segments);
    SeparatorsAround(body, lead, trail);
    assert r[0] == Sep <==> lead;
    assert r[|r| - 1] == Sep <==> trail;
  }

  /** A doubled separator anywhere in a path normalises like a single one. */
  lemma NormalizeCollapsesSeparators(a: string, b: string)
    ensures NormalizePath(a + [Sep, Sep] + b) == NormalizePath(a + [Sep] + b)
  {
    var doubled, single := a + [Sep, Sep] + b, a + [Sep] + b;
    ExtraSeparatorsIgnored(a, b);
    assert doubled[0] == single[0] by {
      if a != [] { assert doubled[0] == a[0] == single[0]; }
    }
    assert doubled[|doubled| - 1] == single[|single| - 1] by {
      if b != [] { assert doubled[|doubled| - 1] == b[|b| - 1] == single[|single| - 1]; }
    }
  }

  // ---------------------------------------------------------------------
  // Combining (src/utils.ts:97-139)
  // ---------------------------------------------------------------------

  /** `path.join(base, ...parts)` on an already normalised base: the parts are
      appended after one separator (none is added when the base already ends
      with one, or is empty). */
  function JoinPath(base: string, parts: seq<string>): string {
    if parts == [] then base
    else if base == [] || base[|base| - 1] == Sep then base + Join(parts)
    else base + [Sep] + Join(parts)
  }

  /** The segments of a joined path are the base's followed by the parts. */
  lemma JoinPathSegments(base: string, parts: seq<string>)
    requires IsSegmentList(parts)
    ensures Segments(JoinPath(base, parts)) == Segments(base) + parts
  {
    if parts != [] {
      SegmentsOfJoin(parts);
      if base == [] {
        assert Split("") == [""];
        assert base + Join(parts) == Join(parts);
      } else if base[|base| - 1] == Sep {
        var init := base[..|base| - 1];
        assert base == init + [Sep] + "";
        SegmentsAtSeparator(init, "");
        assert Split("") == [""];
        assert base + Join(parts) == init + [Sep] + Join(parts);
        SegmentsAtSeparator(init, Join(parts));
      } else {
        SegmentsAtSeparator(base, Join(parts));
      }
    }
  }

  /** What `combinePaths(workspacePath, relativePath)` returns: the normalised
      workspace path joined with the segments of the normalised relative path
      that follow the longest overlap. */
  function CombinedPath(workspacePath: string, relativePath: string): (r: string)
    ensures NormalizePath(workspacePath) <= r
  {
    var base := NormalizePath(workspacePath);
    var segments := Segments(NormalizePath(relativePath));
    JoinPath(base, segments[LongestOverlap(base, segments)..])
  }

  /** `combinePaths`: both paths are normalised, then the search loop of
      src/utils.ts:118-128 keeps the last (hence longest) overlapping prefix,
      and the remainder is joined on. */
  method CombinePaths(workspacePath: string, relativePath: string) returns (fullPath: string)
    ensures var base := NormalizePath(workspacePath);
            var segments := Segments(NormalizePath(relativePath));
            exists k :: IsLongestOverlap(base, segments, k) && fullPath == JoinPath(base, segments[k..])
    ensures fullPath == CombinedPath(workspacePath, relativePath)
  {
    var normalizedWorkspacePath := NormalizePath(workspacePath);
    var normalizedRelativePath := NormalizePath(relativePath);
    var relativeSegments := Segments(normalizedRelativePath);
    var relStartIndex := 0;
    for i := 0 to |relativeSegments|
      invariant relStartIndex <= i
      invariant relStartIndex == 0 || OverlapsAt(normalizedWorkspacePath, relativeSegments, relStartIndex)
      invariant forall j :: relStartIndex < j <= i ==> !OverlapsAt(normalizedWorkspacePath, relativeSegments, j)
    {
      var currentRelativePrefix := Join(relativeSegments[..i + 1]);
      if EndsWith(normalizedWorkspacePath, [Sep] + currentRelativePrefix)
         || normalizedWorkspacePath == currentRelativePrefix
      {
        relStartIndex := i + 1;
      }
    }
    var finalRelativeParts := relativeSegments[relStartIndex..];
    fullPath := JoinPath(normalizedWorkspacePath, finalRelativeParts);
    LongestOverlapUnique(normalizedWorkspacePath, relativeSegments, relStartIndex,
                         LongestOverlap(normalizedWorkspacePath, relativeSegments));
  }

  /** Nothing is reordered or invented: the combined path's segments are the
      workspace's followed by a suffix of the relative segments, and the
      dropped prefix is exactly the longest overlap. */
  lemma CombinedSegments(workspacePath: string, relativePath: string)
    ensures var base := NormalizePath(workspacePath);
            var segments := Segments(NormalizePath(relativePath));
            Segments(CombinedPath(workspacePath, relativePath))
              == Segments(base) + segments[LongestOverlap(base, segments)..]
    ensures workspacePath != "" ==>
              var base := NormalizePath(workspacePath);
              var segments := Segments(NormalizePath(relativePath));
              Segments(CombinedPath(workspacePath, relativePath))
                == Segments(workspacePath) + segments[LongestOverlap(base, segments)..]
  {
    var base := NormalizePath(workspacePath);
    var segments := Segments(NormalizePath(relativePath));
    var rest := segments[LongestOverlap(base, segments)..];
    assert IsSegmentList(rest);
    JoinPathSegments(base, rest);
    NormalizeSegments(workspacePath);
  }

  /** Without any overlap the result is plain concatenation, and plain
      concatenation is the result only when nothing overlaps. */
  lemma NoOverlapIsConcatenation(workspacePath: string, relativePath: string)
    ensures var base := NormalizePath(workspacePath);
            var segments := Segments(NormalizePath(relativePath));
            (CombinedPath(workspacePath, relativePath) == JoinPath(base, segments))
              <==> (forall j :: 1 <= j <= |segments| ==> !OverlapsAt(base, segments, j))
  {
    var base := NormalizePath(workspacePath);
    var segments := Segments(NormalizePath(relativePath));
    var k := LongestOverlap(base, segments);
    if CombinedPath(workspacePath, relativePath) == JoinPath(base, segments) {
      CombinedSegments(workspacePath, relativePath);
      JoinPathSegments(base, segments);
      assert |segments[k..]| == |segments|;
    }
  }

  /** `Join` one piece at a time. */
  lemma JoinCons(first: string, rest: seq<string>)
    requires rest != []
    ensures Join([first] + rest) == first + [Sep] + Join(rest)
  {
    assert ([first] + rest)[0] == first && ([first] + rest)[1..] == rest;
  }

  /** The pieces of the relative path of the doc-comment example. */
  lemma ExampleJoins(segments: seq<string>)
    requires segments == ["b", "c", "d", "x.txt"]
    ensures Join(segments[..2]) == "b/c"
    ensures Join(segments[..3]) == "b/c/d"
    ensures Join(segments) == "b/c/d/x.txt" && |Join(segments)| == 11
  {
    assert segments[..2] == ["b"] + ["c"];
    JoinCons("b", ["c"]);
    assert segments[..3] == ["b"] + (["c"] + ["d"]);
    JoinCons("c", ["d"]);
    JoinCons("b", ["c", "d"]);
    assert segments == ["b"] + (["c"] + (["d"] + ["x.txt"]));
    JoinCons("d", ["x.txt"]);
    JoinCons("c", ["d", "x.txt"]);
    JoinCons("b", ["c", "d", "x.txt"]);
  }

  /** The relative path of the doc-comment example is already normal, and its
      segments are its four names. */
  lemma ExampleSegments(relativePath: string, segments: seq<string>)
    requires relativePath == "b/c/d/x.txt" && segments == ["b", "c", "d", "x.txt"]
    ensures NormalizePath(relativePath) == relativePath
    ensures Segments(relativePath) == segments
  {
    ExampleJoins(segments);
    assert IsSegmentList(segments);
    SegmentsOfJoin(segments);
    NormalizeJoined(segments, false);
    assert [] + Join(segments) == relativePath;
  }

  /** A doubled leading separator normalises to a single one, as for the
      workspace `//a/b/c` of the doc comment. */
  lemma LeadingDoubleSeparator(parts: seq<string>)
    requires IsSegmentList(parts) && parts != []
    ensures NormalizePath([Sep, Sep] + Join(parts)) == [Sep] + Join(parts)
  {
    var body := Join(parts);
    var doubled, single := [Sep, Sep] + body, [Sep] + body;
    assert [] + [Sep, Sep] + body == doubled && [] + [Sep] + body == single;
    NormalizeCollapsesSeparators([], body);
    assert NormalizePath(doubled) == NormalizePath(single);
    NormalizeJoined(parts, true);
    assert NormalizePath(single) == single;
  }

  /** The names of the doc-comment workspace. */
  lemma ExampleWorkspace(parts: seq<string>)
    requires parts == ["a", "b", "c"]
    ensures IsSegmentList(parts) && Join(parts) == "a/b/c"
  {
    JoinCons("b", ["c"]);
    assert parts == ["a"] + ["b", "c"];
    JoinCons("a", ["b", "c"]);
  }

  /** The skip count, read off one prefix length at a time from the top. */
  lemma LongestOverlapSteps(workspacePath: string, segments: seq<string>, k: nat)
    requires k <= |segments|
    requires k == 0 || OverlapsAt(workspacePath, segments, k)
    requires forall j :: k < j <= |segments| ==> !OverlapsAt(workspacePath, segments, j)
    ensures LongestOverlap(workspacePath, segments) == k
  {
    LongestOverlapUnique(workspacePath, segments, k, LongestOverlap(workspacePath, segments));
  }

  /** `/a/b/c` ends with `/b/c`. */
  lemma ExampleEndsWith(base: string, prefix: string)
    requires base == "/a/b/c" && prefix == "b/c"
    ensures EndsWith(base, [Sep] + prefix)
  {
    assert base[|base| - 4..] == [Sep] + prefix;
  }

  /** `/a/b/c` neither ends with `/b/c/d` nor is `b/c/d`. */
  lemma ExampleNotEndsWith(base: string, prefix: string)
    requires base == "/a/b/c" && prefix == "b/c/d"
    ensures !EndsWith(base, [Sep] + prefix) && base != prefix
  {
    assert |[Sep] + prefix| == |base|;
    assert ([Sep] + prefix)[1] == 'b' && base[1] == 'a';
    assert base[|base| - 6..] == base;
  }

  /** In the doc-comment example exactly two segments overlap. */
  lemma ExampleOverlap(base: string, segments: seq<string>)
    requires base == "/a/b/c" && |segments| == 4
    requires Join(segments[..2]) == "b/c" && Join(segments[..3]) == "b/c/d"
    requires |Join(segments)| == 11
    ensures LongestOverlap(base, segments) == 2
  {
    ExampleEndsWith(base, Join(segments[..2]));
    assert OverlapsAt(base, segments, 2);
    ExampleNotEndsWith(base, Join(segments[..3]));
    assert !OverlapsAt(base, segments, 3);
    assert !OverlapsAt(base, segments, 4) by {
      assert segments[..4] == segments;
    }
    LongestOverlapSteps(base, segments, 2);
  }

  /** The last step of the doc-comment example: appending `d/x.txt`. */
  lemma ExampleJoin(base: string, rest: seq<string>)
    requires base == "/a/b/c" && rest == ["d", "x.txt"]
    ensures JoinPath(base, rest) == "/a/b/c/d/x.txt"
  {
    JoinCons("d", ["x.txt"]);
    assert rest == ["d"] + ["x.txt"];
    assert base[|base| - 1] != Sep;
  }

  /** The example of the doc comment at src/utils.ts:89-95: the workspace
      `//a/b/c` is normalised, and the overlapping `b/c` is not duplicated. */
  lemma OverlapExample()
    ensures CombinedPath("//a/b/c", "b/c/d/x.txt") == "/a/b/c/d/x.txt"
  {
    var segments := ["b", "c", "d", "x.txt"];
    var parts := ["a", "b", "c"];
    ExampleWorkspace(parts);
    LeadingDoubleSeparator(parts);
    assert [Sep, Sep] + Join(parts) == "//a/b/c" && [Sep] + Join(parts) == "/a/b/c";
    ExampleSegments("b/c/d/x.txt", segments);
    ExampleJoins(segments);
    ExampleOverlap("/a/b/c", segments);
    assert segments[2..] == ["d", "x.txt"];
    ExampleJoin("/a/b/c", segments[2..]);
  }

  /** Without overlap the relative path is appended whole. */
  lemma AppendExample()
    ensures CombinedPath("/a/b/c", "d/x.txt") == "/a/b/c/d/x.txt"
  {
    AppendNormalized("/a/b/c", "d/x.txt", ["a", "b", "c"], ["d", "x.txt"]);
    AppendJoins(["d", "x.txt"]);
    AppendNoOverlap("/a/b/c", ["d", "x.txt"]);
    ExampleAppend("/a/b/c", ["d", "x.txt"]);
  }

  /** Both paths of the append example are already normal. */
  lemma AppendNormalized(ws: string, rel: string, parts: seq<string>, segments: seq<string>)
    requires ws == "/a/b/c" && rel == "d/x.txt"
    requires parts == ["a", "b", "c"] && segments == ["d", "x.txt"]
    ensures NormalizePath(ws) == ws && NormalizePath(rel) == rel && Segments(rel) == segments
  {
    JoinCons("b", ["c"]);
    assert parts == ["a"] + ["b", "c"];
    JoinCons("a", ["b", "c"]);
    NormalizeJoined(parts, true);
    assert [Sep] + Join(parts) == ws;
    JoinCons("d", ["x.txt"]);
    assert segments == ["d"] + ["x.txt"];
    assert Join(segments) == rel;
    NormalizeJoined(segments, false);
    assert [] + Join(segments) == rel;
    SegmentsOfJoin(segments);
  }

  /** In the append example no prefix overlaps. */
  lemma AppendNoOverlap(ws: string, segments: seq<string>)
    requires ws == "/a/b/c" && |segments| == 2
    requires Join(segments[..1]) == "d" && |Join(segments)| == 7
    ensures LongestOverlap(ws, segments) == 0
  {
    assert !OverlapsAt(ws, segments, 1) by {
      assert ws[|ws| - 2..] == "/c" && ([Sep] + "d")[1] == 'd';
    }
    assert !OverlapsAt(ws, segments, 2) by {
      assert segments[..2] == segments;
    }
    LongestOverlapSteps(ws, segments, 0);
  }

  /** The pieces of the append example's relative path. */
  lemma AppendJoins(segments: seq<string>)
    requires segments == ["d", "x.txt"]
    ensures Join(segments[..1]) == "d" && Join(segments) == "d/x.txt" && |Join(segments)| == 7
  {
    assert segments[..1] == ["d"];
    assert segments == ["d"] + ["x.txt"];
    JoinCons("d", ["x.txt"]);
  }

  /** The last step of the append example. */
  lemma ExampleAppend(base: string, parts: seq<string>)
    requires base == "/a/b/c" && parts == ["d", "x.txt"]
    ensures JoinPath(base, parts[0..]) == "/a/b/c/d/x.txt"
  {
    assert parts[0..] == parts;
    ExampleJoin(base, parts);
  }

  // ---------------------------------------------------------------------
  // Forward slashes for git (src/utils.ts:26-38)
  // ---------------------------------------------------------------------

  /** `s.replace(/\\/g, '/')`. */
  function ToForwardSlashes(s: string): (r: string)
    ensures |r| == |s|
    ensures Backslash !in r
    ensures forall i :: 0 <= i < |s| && s[i] != Backslash ==> r[i] == s[i]
    ensures forall i :: 0 <= i < |s| && s[i] == Backslash ==> r[i] == Sep
    decreases |s|
  {
    if s == [] then []
    else [if s[0] == Backslash then Sep else s[0]] + ToForwardSlashes(s[1..])
  }

  /** Replacing twice is replacing once. */
  lemma ToForwardSlashesIdempotent(s: string)
    ensures ToForwardSlashes(ToForwardSlashes(s)) == ToForwardSlashes(s)
  {
  }

  /** A string is left unchanged exactly when it holds no backslash. */
  lemma ToForwardSlashesFixedPoint(s: string)
    ensures ToForwardSlashes(s) == s <==> Backslash !in s
  {
  }

  /** `getRelativePath`: Node's `path.relative` is the parameter `relative`;
      its result is rewritten to forward slashes. */
  function GetRelativePath(relative: (string, string) -> string, workspacePath: string, filePath: string): (r: string)
    ensures Backslash !in r && |r| == |relative(workspacePath, filePath)|
    ensures forall i :: 0 <= i < |r| && relative(workspacePath, filePath)[i] != Backslash
                        ==> r[i] == relative(workspacePath, filePath)[i]
    ensures forall i :: 0 <= i < |r| && relative(workspacePath, filePath)[i] == Backslash
                        ==> r[i] == Sep
  {
    ToForwardSlashes(relative(workspacePath, filePath))
  }
}
