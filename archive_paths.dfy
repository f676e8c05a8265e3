/** The archive-entry guard shared by the package syncers
    (`isPotentiallyMaliciousFilepathInArchive`, identical in
    vcs_dependencies_syncer.go and vcs_syncer_packages.go), together with the
    lexical path operations of Go's `path` package it relies on: `path.Clean`
    and `path.Join`, written over lists of slash-separated segments. */
module ArchivePaths {
  import opened Strings

  /** `os.PathSeparator` on the platforms the server runs on. */
  const Separator: char := '/'

  /** A segment that names an entry: not empty, not `.`, not `..`. */
  predicate IsNormalSegment(seg: string) {
    seg != [] && seg != "." && seg != ".." && Separator !in seg
  }

  /** One step of `path.Clean`: `.` and empty segments vanish, `..` removes
      the previous real segment, is dropped at the root of an absolute path,
      and is kept at the start of a relative one. */
  function CleanStep(rooted: bool, acc: seq<string>, seg: string): seq<string> {
    if seg == [] || seg == "." then acc
    else if seg == ".." then
      if |acc| > 0 && acc[|acc| - 1] != ".." then acc[..|acc| - 1]
      else if rooted then acc
      else acc + [".."]
    else acc + [seg]
  }

  /** `CleanStep` applied to each segment in turn. */
  function CleanSegments(rooted: bool, acc: seq<string>, segs: seq<string>): seq<string>
    decreases |segs|
  {
    if segs == [] then acc else CleanSegments(rooted, CleanStep(rooted, acc, segs[0]), segs[1..])
  }

  /** `path.Clean`: the shortest lexically equivalent path. */
  function Clean(p: string): string {
    if p == [] then "."
    else
      var rooted := p[0] == Separator;
      var body := JoinWith(CleanSegments(rooted, [], Split(p, Separator)), [Separator]);
      if rooted then [Separator] + body
      else if body == [] then "."
      else body
  }

  /** `path.Join(a, b)`: empty elements are ignored and the result is cleaned;
      two empty elements give the empty string. */
  function Join(a: string, b: string): string {
    if a == [] then (if b == [] then [] else Clean(b))
    else Clean(a + [Separator] + b)
  }

  /** `isPotentiallyMaliciousFilepathInArchive(filepath, destinationDir)`:
      returns `(outputPath, true)` to skip an entry and `(cleaned, false)` to
      extract it to `cleaned`. */
  function IsPotentiallyMaliciousFilepathInArchive(filepath: string, destinationDir: string): (r: (string, bool))
    ensures r.1 ==> r.0 == ""
    ensures !r.1 ==> HasPrefix(r.0, destinationDir) && !HasPrefix(filepath, "/") && ".git" !in Split(filepath, Separator)
  {
    if HasSuffix(filepath, "/") then ("", true)
    else if HasPrefix(filepath, "/") then ("", true)
    else if ".git" in Split(filepath, Separator) then ("", true)
    else
      var cleanedOutputPath := Join(destinationDir, filepath);
      if !HasPrefix(cleanedOutputPath, destinationDir) then ("", true)
      else (cleanedOutputPath, false)
  }

  /** A path lies strictly inside the directory `dir` (given with its trailing
      separator) when it is `dir` followed by one or more real segments. */
  predicate StrictlyUnder(p: string, dir: string) {
    dir <= p && |p| > |dir|
    && forall seg :: seg in Split(p[|dir|..], Separator) ==> IsNormalSegment(seg)
  }

  /** An absolute destination directory written with its trailing separator,
      as `unzipJarFile` passes it. */
  predicate IsDirectoryPrefix(dir: string) {
    |dir| >= 2 && dir[0] == Separator && dir[|dir| - 1] == Separator
  }

  /** The zip-slip guard: whatever the entry name, an accepted output path
      lies strictly inside the destination directory. */
  lemma AcceptedPathStaysInside(filepath: string, destinationDir: string)
    requires IsDirectoryPrefix(destinationDir)
    requires !IsPotentiallyMaliciousFilepathInArchive(filepath, destinationDir).1
    ensures StrictlyUnder(IsPotentiallyMaliciousFilepathInArchive(filepath, destinationDir).0, destinationDir)
  {
    var out := Join(destinationDir, filepath);
    assert IsPotentiallyMaliciousFilepathInArchive(filepath, destinationDir).0 == out;
    var p := destinationDir + [Separator] + filepath;
    assert out == Clean(p);
    assert p[0] == Separator;
    var parts := Split(p, Separator);
    var segs := CleanSegments(true, [], parts);
    RootedSegmentsNormal([], parts);
    var body := JoinWith(segs, [Separator]);
    assert out == [Separator] + body;
    var q := destinationDir[1..];
    var r := out[|destinationDir|..];
    assert destinationDir <= out;
    assert body == q + r by {
      assert out == destinationDir + r;
      assert destinationDir == [Separator] + q;
    }
    assert |q| >= 1 && q[|q| - 1] == Separator;
    assert forall i :: 0 <= i < |segs| ==> segs[i] != [] && Separator !in segs[i];
    var k := JoinPrefix(segs, q, r);
    SplitJoin(segs[k..], Separator);
    assert Split(r, Separator) == segs[k..];
    assert |r| > 0 by { JoinStartsWithFirst(segs[k..]); }
  }

  /** Cleaning an absolute path leaves only real segments. */
  lemma {:induction false} RootedSegmentsNormal(acc: seq<string>, segs: seq<string>)
    requires forall i :: 0 <= i < |acc| ==> IsNormalSegment(acc[i])
    requires forall i :: 0 <= i < |segs| ==> Separator !in segs[i]
    ensures forall i :: 0 <= i < |CleanSegments(true, acc, segs)| ==> IsNormalSegment(CleanSegments(true, acc, segs)[i])
    decreases |segs|
  {
    if segs != [] {
      var next := CleanStep(true, acc, segs[0]);
      assert forall i :: 0 <= i < |next| ==> IsNormalSegment(next[i]);
      RootedSegmentsNormal(next, segs[1..]);
      assert CleanSegments(true, acc, segs) == CleanSegments(true, next, segs[1..]);
    }
  }

  /** The first segment of a join is its prefix; hence a join of non-empty
      segments is non-empty. */
  lemma {:induction false} JoinStartsWithFirst(segs: seq<string>)
    requires |segs| >= 1
    ensures segs[0] <= JoinWith(segs, [Separator])
  {
    if |segs| > 1 {
      assert JoinWith(segs, [Separator]) == segs[0] + ([Separator] + JoinWith(segs[1..], [Separator]));
    }
  }

  /** If a join of real segments starts with a string ending in a separator,
      the rest is the join of a non-empty tail of the segments. */
  lemma {:induction false} JoinPrefix(segs: seq<string>, q: string, r: string) returns (k: nat)
    requires forall i :: 0 <= i < |segs| ==> segs[i] != [] && Separator !in segs[i]
    requires JoinWith(segs, [Separator]) == q + r
    requires |q| >= 1 && q[|q| - 1] == Separator
    ensures 1 <= k < |segs| && r == JoinWith(segs[k..], [Separator])
    decreases |segs|
  {
    var j := JoinWith(segs, [Separator]);
    if |segs| == 0 {
      assert false;
    }
    var s := segs[0];
    if |segs| == 1 {
      assert false;
    }
    var t := segs[1..];
    var jt := JoinWith(t, [Separator]);
    assert j == s + [Separator] + jt;
    assert q[|q| - 1] == j[|q| - 1];
    assert forall i :: 0 <= i < |s| ==> j[i] == s[i] && s[i] != Separator;
    assert |q| > |s|;
    if |q| == |s| + 1 {
      assert r == j[|s| + 1..] == jt;
      k := 1;
    } else {
      var q' := q[|s| + 1..];
      assert q == q[..|s| + 1] + q';
      assert q[..|s| + 1] == j[..|s| + 1] == s + [Separator];
      assert jt == q' + r by {
        assert j == s + [Separator] + (q' + r);
      }
      var k' := JoinPrefix(t, q', r);
      k := k' + 1;
      assert segs[k..] == t[k'..];
    }
  }

  /** Cleaning real segments keeps them all, in order. */
  lemma {:induction false} CleanNormalSegments(acc: seq<string>, segs: seq<string>)
    requires forall i :: 0 <= i < |segs| ==> IsNormalSegment(segs[i])
    ensures CleanSegments(true, acc, segs) == acc + segs
    decreases |segs|
  {
    if segs != [] {
      CleanNormalSegments(acc + [segs[0]], segs[1..]);
      assert acc + [segs[0]] + segs[1..] == acc + segs;
    }
  }

  /** An empty segment leaves the cleaning unchanged. */
  lemma CleanSkipsEmpty(rooted: bool, acc: seq<string>, segs: seq<string>)
    ensures CleanSegments(rooted, acc, [[]] + segs) == CleanSegments(rooted, acc, segs)
  {
    assert ([[]] + segs)[1..] == segs;
  }

  /** Joining two non-empty lists puts one separator between the joins. */
  lemma {:induction false} JoinAppend(a: seq<string>, b: seq<string>)
    requires |a| >= 1 && |b| >= 1
    ensures JoinWith(a + b, [Separator]) == JoinWith(a, [Separator]) + [Separator] + JoinWith(b, [Separator])
    decreases |a|
  {
    if |a| == 1 {
      assert (a + b)[1..] == b;
    } else {
      JoinAppend(a[1..], b);
      assert (a + b)[1..] == a[1..] + b;
    }
  }

  /** The other direction: a benign relative name of real segments, none of
      them `.git`, is accepted under a clean absolute destination and keeps
      its directory structure. */
  lemma BenignPathAccepted(dirSegs: seq<string>, nameSegs: seq<string>)
    requires |dirSegs| >= 1 && |nameSegs| >= 1
    requires forall i :: 0 <= i < |dirSegs| ==> IsNormalSegment(dirSegs[i])
    requires forall i :: 0 <= i < |nameSegs| ==> IsNormalSegment(nameSegs[i])
    requires ".git" !in nameSegs
    ensures var dest := [Separator] + JoinWith(dirSegs, [Separator]) + [Separator];
      var name := JoinWith(nameSegs, [Separator]);
      IsPotentiallyMaliciousFilepathInArchive(name, dest) == (dest + name, false)
  {
    var dest := [Separator] + JoinWith(dirSegs, [Separator]) + [Separator];
    var name := JoinWith(nameSegs, [Separator]);
    BenignNamePassesGuards(nameSegs);
    BenignJoinKeepsSegments(dirSegs, nameSegs);
    assert HasPrefix(dest + name, dest);
  }

  /** A join of real segments other than `.git` passes the three syntactic
      tests of the guard. */
  lemma BenignNamePassesGuards(nameSegs: seq<string>)
    requires |nameSegs| >= 1
    requires forall i :: 0 <= i < |nameSegs| ==> IsNormalSegment(nameSegs[i])
    requires ".git" !in nameSegs
    ensures var name := JoinWith(nameSegs, [Separator]);
      !HasSuffix(name, "/") && !HasPrefix(name, "/") && ".git" !in Split(name, Separator)
  {
    var name := JoinWith(nameSegs, [Separator]);
    BenignNameShape(nameSegs);
    SplitJoin(nameSegs, Separator);
    assert !HasPrefix(name, "/") by { assert name[0] != "/"[0]; }
  }

  /** Joined under a clean absolute destination, such a name keeps all its
      segments. */
  lemma BenignJoinKeepsSegments(dirSegs: seq<string>, nameSegs: seq<string>)
    requires |dirSegs| >= 1 && |nameSegs| >= 1
    requires forall i :: 0 <= i < |dirSegs| ==> IsNormalSegment(dirSegs[i])
    requires forall i :: 0 <= i < |nameSegs| ==> IsNormalSegment(nameSegs[i])
    ensures var dest := [Separator] + JoinWith(dirSegs, [Separator]) + [Separator];
      var name := JoinWith(nameSegs, [Separator]);
      Join(dest, name) == dest + name
  {
    var jd := JoinWith(dirSegs, [Separator]);
    var dest := [Separator] + jd + [Separator];
    var name := JoinWith(nameSegs, [Separator]);
    SplitDestinationAndName(dirSegs, nameSegs);
    var segs := [[]] + (dirSegs + ([[]] + nameSegs));
    assert dest + [Separator] + name == [Separator] + jd + [Separator] + [Separator] + name;
    CleanDestinationAndName(dirSegs, nameSegs);
    JoinAppend(dirSegs, nameSegs);
    JoinUnderRoot(dest, name, segs, jd + [Separator] + name);
    RegroupUnderRoot(jd, name);
  }

  lemma RegroupUnderRoot(jd: string, name: string)
    ensures [Separator] + (jd + [Separator] + name) == [Separator] + jd + [Separator] + name
  {
  }

  /** `path.Join` under an absolute directory, given the segments of the
      joined path and the join of their cleaned form. */
  lemma JoinUnderRoot(dest: string, name: string, segs: seq<string>, out: string)
    requires dest != [] && dest[0] == Separator
    requires Split(dest + [Separator] + name, Separator) == segs
    requires JoinWith(CleanSegments(true, [], segs), [Separator]) == out
    ensures Join(dest, name) == [Separator] + out
  {
    assert (dest + [Separator] + name)[0] == Separator;
  }

  /** A join of real segments neither starts nor ends with the separator. */
  lemma BenignNameShape(nameSegs: seq<string>)
    requires |nameSegs| >= 1
    requires forall i :: 0 <= i < |nameSegs| ==> IsNormalSegment(nameSegs[i])
    ensures var name := JoinWith(nameSegs, [Separator]);
      name != [] && name[0] != Separator && !HasSuffix(name, "/")
  {
    var name := JoinWith(nameSegs, [Separator]);
    JoinStartsWithFirst(nameSegs);
    assert nameSegs[0][0] == name[0];
    LastSegmentEndsJoin(nameSegs);
    var last := nameSegs[|nameSegs| - 1];
    assert last[|last| - 1] == name[|name| - 1];
  }

  /** The segments of `dest + "/" + name` for the destination and name of
      `BenignPathAccepted`. */
  lemma SplitDestinationAndName(dirSegs: seq<string>, nameSegs: seq<string>)
    requires |dirSegs| >= 1 && |nameSegs| >= 1
    requires forall i :: 0 <= i < |dirSegs| ==> IsNormalSegment(dirSegs[i])
    requires forall i :: 0 <= i < |nameSegs| ==> IsNormalSegment(nameSegs[i])
    ensures var jd := JoinWith(dirSegs, [Separator]);
      var name := JoinWith(nameSegs, [Separator]);
      Split([Separator] + jd + [Separator] + [Separator] + name, Separator) == [[]] + (dirSegs + ([[]] + nameSegs))
  {
    var jd := JoinWith(dirSegs, [Separator]);
    var name := JoinWith(nameSegs, [Separator]);
    SplitJoin(nameSegs, Separator);
    SplitJoin(dirSegs, Separator);
    var p := [Separator] + jd + [Separator] + [Separator] + name;
    assert p == [] + [Separator] + (jd + [Separator] + ([] + [Separator] + name));
    SplitConcat([], jd + [Separator] + ([] + [Separator] + name), Separator);
    SplitConcat(jd, [] + [Separator] + name, Separator);
    SplitConcat([], name, Separator);
  }

  /** Cleaning drops the two empty segments and keeps the real ones. */
  lemma CleanDestinationAndName(dirSegs: seq<string>, nameSegs: seq<string>)
    requires forall i :: 0 <= i < |dirSegs| ==> IsNormalSegment(dirSegs[i])
    requires forall i :: 0 <= i < |nameSegs| ==> IsNormalSegment(nameSegs[i])
    ensures CleanSegments(true, [], [[]] + (dirSegs + ([[]] + nameSegs))) == dirSegs + nameSegs
  {
    CleanSkipsEmpty(true, [], dirSegs + ([[]] + nameSegs));
    CleanSegmentsAppend(true, [], dirSegs, [[]] + nameSegs);
    CleanNormalSegments([], dirSegs);
    assert [] + dirSegs == dirSegs;
    CleanSkipsEmpty(true, dirSegs, nameSegs);
    CleanNormalSegments(dirSegs, nameSegs);
  }

  /** The last segment of a join is its suffix. */
  lemma {:induction false} LastSegmentEndsJoin(segs: seq<string>)
    requires |segs| >= 1
    ensures var j := JoinWith(segs, [Separator]);
      var last := segs[|segs| - 1];
      |last| <= |j| && j[|j| - |last|..] == last
    decreases |segs|
  {
    if |segs| > 1 {
      LastSegmentEndsJoin(segs[1..]);
    }
  }

  /** Cleaning a concatenation cleans the second part after the first. */
  lemma {:induction false} CleanSegmentsAppend(rooted: bool, acc: seq<string>, a: seq<string>, b: seq<string>)
    ensures CleanSegments(rooted, acc, a + b) == CleanSegments(rooted, CleanSegments(rooted, acc, a), b)
    decreases |a|
  {
    if a == [] {
      assert a + b == b;
    } else {
      assert (a + b)[0] == a[0];
      assert (a + b)[1..] == a[1..] + b;
      CleanSegmentsAppend(rooted, CleanStep(rooted, acc, a[0]), a[1..], b);
    }
  }

  /** Why the destination needs its trailing separator: compared against a
      bare directory name, the prefix test accepts a sibling directory
      (`../ab` under `/a` comes out as `/ab`). */
  lemma PrefixTestNeedsTrailingSeparator()
    ensures IsPotentiallyMaliciousFilepathInArchive("../ab", "/a") == ("/ab", false)
    ensures !StrictlyUnder("/ab", "/a/")
  {
    SiblingNameSegments();
    SiblingPathCleaned();
    assert "/a" <= "/ab";
    assert "/a/"[2] != "/ab"[2];
  }

  lemma SiblingNameSegments()
    ensures Split("../ab", Separator) == ["..", "ab"]
  {
    assert "../ab" == ".." + [Separator] + "ab";
    ClimbSplit("ab");
  }

  /** `../y` splits into a climb and `y`. */
  lemma ClimbSplit(y: string)
    requires Separator !in y
    ensures Split(".." + [Separator] + y, Separator) == ["..", y]
  {
    SplitConcat("..", y, Separator);
    SplitWithoutSeparator("..", Separator);
    SplitWithoutSeparator(y, Separator);
  }

  /** `/x/../y` splits into the root, `x`, a climb and `y`. */
  lemma RootedClimbSplit(x: string, y: string)
    requires Separator !in x && Separator !in y
    ensures Split([Separator] + x + [Separator] + (".." + [Separator] + y), Separator) == ["", x, "..", y]
  {
    var rest := ".." + [Separator] + y;
    assert [Separator] + x + [Separator] + rest == [] + [Separator] + (x + [Separator] + rest);
    SplitConcat([], x + [Separator] + rest, Separator);
    SplitConcat(x, rest, Separator);
    SplitWithoutSeparator(x, Separator);
    ClimbSplit(y);
  }

  /** Under the root, a climb cancels the normal segment before it. */
  lemma RootedClimbCleaned(x: string, y: string)
    requires IsNormalSegment(x)
    ensures CleanSegments(true, [], ["", x, "..", y]) == CleanSegments(true, [], [y])
  {
    var segs := ["", x, "..", y];
    assert segs[1..] == [x, "..", y];
    assert CleanSegments(true, [], segs) == CleanSegments(true, [], [x, "..", y]);
    CleanTwo(x, y);
  }

  lemma CleanTwo(x: string, y: string)
    requires IsNormalSegment(x)
    ensures CleanSegments(true, [], [x, "..", y]) == CleanSegments(true, [], [y])
  {
    var segs := [x, "..", y];
    assert segs[1..] == ["..", y];
    assert CleanSegments(true, [], segs) == CleanSegments(true, [x], ["..", y]);
    assert ["..", y][1..] == [y];
    assert CleanStep(true, [x], "..") == [];
  }

  lemma SiblingPathCleaned()
    ensures Clean("/a" + [Separator] + "../ab") == "/ab"
  {
    var p := "/a" + [Separator] + "../ab";
    assert p == [Separator] + "a" + [Separator] + (".." + [Separator] + "ab");
    RootedClimbSplit("a", "ab");
    RootedClimbCleaned("a", "ab");
    assert CleanSegments(true, [], ["ab"]) == ["ab"] by {
      assert CleanStep(true, [], "ab") == ["ab"];
      assert ["ab"][1..] == [];
    }
    assert JoinWith(["ab"], [Separator]) == "ab";
  }
  /** An entry whose name climbs with `..` but stays inside the destination is
      not rejected: the guard only turns away names that leave it, so
      `a/../b` under `/d/` is written to `/d/b`. */
  lemma DotDotInsideAccepted()
    ensures IsPotentiallyMaliciousFilepathInArchive("a/../b", "/d/") == ("/d/b", false)
  {
    ClimbNameSplit();
    ClimbNameJoined();
    assert !HasSuffix("a/../b", "/") && !HasPrefix("a/../b", "/");
    assert HasPrefix("/d/b", "/d/");
  }

  /** `a/../b` splits into `a`, a climb and `b`. */
  lemma ClimbNameSplit()
    ensures Split("a/../b", Separator) == ["a", "..", "b"]
  {
    assert "a/../b" == "a" + [Separator] + (".." + [Separator] + "b");
    SplitConcat("a", ".." + [Separator] + "b", Separator);
    SplitWithoutSeparator("a", Separator);
    ClimbSplit("b");
  }

  /** Joining `a/../b` to `/d/` cleans the climb away. */
  lemma ClimbNameJoined()
    ensures Join("/d/", "a/../b") == "/d/b"
  {
    var p := "/d/" + [Separator] + "a/../b";
    assert p == [Separator] + "d" + [Separator] + [Separator] + ("a" + [Separator] + (".." + [Separator] + "b"));
    InsideClimbSplit("d", "a", "b");
    InsideClimbCleaned("d", "a", "b");
    assert JoinWith(["d", "b"], [Separator]) == "d/b" by {
      assert ["d", "b"][..1] == ["d"];
    }
    assert Clean(p) == "/d/b";
  }

  /** `/d//a/../b` splits into the root, `d`, an empty segment, `a`, a climb
      and `b`. */
  lemma InsideClimbSplit(d: string, a: string, b: string)
    requires Separator !in d && Separator !in a && Separator !in b
    ensures Split([Separator] + d + [Separator] + [Separator] + (a + [Separator] + (".." + [Separator] + b)), Separator)
      == ["", d, "", a, "..", b]
  {
    var climb := ".." + [Separator] + b;
    var rest := a + [Separator] + climb;
    assert [Separator] + d + [Separator] + [Separator] + rest == [] + [Separator] + (d + [Separator] + ([] + [Separator] + rest));
    SplitWithoutSeparator([], Separator);
    SplitConcat([], d + [Separator] + ([] + [Separator] + rest), Separator);
    SplitConcat(d, [] + [Separator] + rest, Separator);
    SplitWithoutSeparator(d, Separator);
    SplitConcat([], rest, Separator);
    SplitConcat(a, climb, Separator);
    SplitWithoutSeparator(a, Separator);
    ClimbSplit(b);
  }

  /** Cleaning those segments drops the empty ones and lets the climb cancel
      `a`. */
  lemma InsideClimbCleaned(d: string, a: string, b: string)
    requires IsNormalSegment(d) && IsNormalSegment(a) && IsNormalSegment(b)
    ensures CleanSegments(true, [], ["", d, "", a, "..", b]) == [d, b]
  {
    var segs := ["", d, "", a, "..", b];
    assert segs[1..] == [d, "", a, "..", b];
    assert [d, "", a, "..", b][1..] == ["", a, "..", b];
    assert ["", a, "..", b][1..] == [a, "..", b];
    assert [a, "..", b][1..] == ["..", b];
    assert ["..", b][1..] == [b];
    assert [b][1..] == [];
    calc {
      CleanSegments(true, [], segs);
      CleanSegments(true, [], [d, "", a, "..", b]);
      { assert CleanStep(true, [], d) == [d]; }
      CleanSegments(true, [d], ["", a, "..", b]);
      CleanSegments(true, [d], [a, "..", b]);
      { assert CleanStep(true, [d], a) == [d, a]; }
      CleanSegments(true, [d, a], ["..", b]);
      { assert CleanStep(true, [d, a], "..") == [d]; }
      CleanSegments(true, [d], [b]);
      CleanSegments(true, [d, b], []);
    }
  }
}
