/** The path globs of the noise rules: "*" is one segment, "**" is any number. */
module Glob {
  import opened Text

  /** What a pattern means. "**" either matches nothing here, or swallows one segment
      and stays. This is the exponential recursion that the matcher avoids. */
  predicate Matches(pattern: seq<string>, path: seq<string>)
    decreases |pattern| + |path|
  {
    if pattern == [] then path == []
    else if pattern[0] == "**" then
      Matches(pattern[1..], path) || (path != [] && Matches(pattern, path[1..]))
    else
      path != [] && Fits(pattern[0], path[0]) && Matches(pattern[1..], path[1..])
  }

  predicate Fits(p: string, segment: string) {
    p == "*" || p == segment
  }

  // ----- The same, without recursion ---------------------------------------------------

  /** What one pattern segment may take of a path: "**" any stretch, "*" any one segment, and
      everything else one segment that is equal to it. */
  predicate Takes(p: string, path: seq<string>, lo: nat, hi: nat) {
    if p == "**" then lo <= hi <= |path|
    else lo + 1 == hi <= |path| && (p == "*" || p == path[lo])
  }

  /** The pattern laid over the path: its segment i takes the path from cuts[i] to cuts[i + 1]. */
  ghost predicate Laid(pattern: seq<string>, path: seq<string>, cuts: seq<nat>) {
    && |cuts| == |pattern| + 1 && cuts[0] == 0 && cuts[|pattern|] == |path|
    && forall i | 0 <= i < |pattern| :: Takes(pattern[i], path, cuts[i], cuts[i + 1])
  }

  // ----- Why only the last "**" needs to be retried ---------------------------------

  /** Pattern and path match from these positions on. */
  predicate At(pattern: seq<string>, path: seq<string>, i: nat, j: nat)
    decreases |pattern| - i + |path| - j
  {
    && i <= |pattern| && j <= |path|
    && (if i == |pattern| then j == |path|
        else if pattern[i] == "**" then At(pattern, path, i + 1, j) || At(pattern, path, i, j + 1)
        else j < |path| && Fits(pattern[i], path[j]) && At(pattern, path, i + 1, j + 1))
  }

  lemma {:induction false} AtIsMatches(pattern: seq<string>, path: seq<string>, i: nat, j: nat)
    requires i <= |pattern| && j <= |path|
    ensures At(pattern, path, i, j) <==> Matches(pattern[i..], path[j..])
    decreases |pattern| - i + |path| - j
  {
    if i < |pattern| {
      assert pattern[i..][1..] == pattern[i + 1..];
      if pattern[i] == "**" { AtIsMatches(pattern, path, i + 1, j); }
      if j < |path| {
        assert path[j..][1..] == path[j + 1..];
        if pattern[i] == "**" {
          AtIsMatches(pattern, path, i, j + 1);
        } else {
          AtIsMatches(pattern, path, i + 1, j + 1);
        }
      }
    }
  }

  lemma AtStart(pattern: seq<string>, path: seq<string>)
    ensures At(pattern, path, 0, 0) <==> Matches(pattern, path)
  {
    AtIsMatches(pattern, path, 0, 0);
    assert pattern[0..] == pattern && path[0..] == path;
  }

  /** A "**" that matches from further along also matches from here. */
  lemma {:induction false} StarAbsorbs(pattern: seq<string>, path: seq<string>, i: nat, j: nat, k: nat)
    requires i < |pattern| && pattern[i] == "**" && j <= k
    requires At(pattern, path, i, k)
    ensures At(pattern, path, i, j)
    decreases k - j
  {
    if j == k {
    } else {
      StarAbsorbs(pattern, path, i, j + 1, k);
    }
  }

  /** A "**" matches exactly when what follows it matches somewhere further along. */
  lemma {:induction false} StarWitness(pattern: seq<string>, path: seq<string>, i: nat, j: nat) returns (k: nat)
    requires i < |pattern| && pattern[i] == "**"
    requires At(pattern, path, i, j)
    ensures j <= k && At(pattern, path, i + 1, k)
    decreases |path| - j
  {
    if At(pattern, path, i + 1, j) {
      k := j;
    } else {
      k := StarWitness(pattern, path, i, j + 1);
    }
  }

  lemma {:induction false} LayFrom(pattern: seq<string>, path: seq<string>, i: nat, j: nat) returns (cuts: seq<nat>)
    requires At(pattern, path, i, j)
    ensures |cuts| == |pattern| - i + 1 && cuts[0] == j && cuts[|pattern| - i] == |path|
    ensures forall x | 0 <= x < |pattern| - i :: Takes(pattern[i + x], path, cuts[x], cuts[x + 1])
    decreases |pattern| - i
  {
    if i == |pattern| {
      cuts := [j];
    } else {
      var k := j + 1;
      if pattern[i] == "**" { k := StarWitness(pattern, path, i, j); }
      var rest := LayFrom(pattern, path, i + 1, k);
      cuts := [j] + rest;
      forall x | 0 <= x < |pattern| - i ensures Takes(pattern[i + x], path, cuts[x], cuts[x + 1]) {
        if x > 0 { assert Takes(pattern[i + 1 + (x - 1)], path, rest[x - 1], rest[x]); }
      }
    }
  }

  lemma {:induction false} LaidFrom(pattern: seq<string>, path: seq<string>, cuts: seq<nat>, i: nat)
    requires Laid(pattern, path, cuts) && i <= |pattern|
    ensures At(pattern, path, i, cuts[i])
    decreases |pattern| - i
  {
    if i == |pattern| {
    } else {
      LaidFrom(pattern, path, cuts, i + 1);
      assert Takes(pattern[i], path, cuts[i], cuts[i + 1]);
      if pattern[i] == "**" { StarAbsorbs(pattern, path, i, cuts[i], cuts[i + 1]); }
    }
  }

  /** A pattern matches a path exactly when it can be laid over it: "*" takes any one segment,
      "**" any stretch of them, and every other segment takes its own equal. */
  lemma MatchesIffLaid(pattern: seq<string>, path: seq<string>)
    ensures Matches(pattern, path) <==> exists cuts :: Laid(pattern, path, cuts)
  {
    AtStart(pattern, path);
    if Matches(pattern, path) {
      var cuts := LayFrom(pattern, path, 0, 0);
      assert Laid(pattern, path, cuts);
    }
    if cuts :| Laid(pattern, path, cuts) { LaidFrom(pattern, path, cuts, 0); }
  }

  /** Without "**", pattern and path are equally long and agree segment by segment, where "*"
      agrees with every segment. */
  lemma {:induction false} StarFreeMatches(p: seq<string>, s: seq<string>)
    requires forall i | 0 <= i < |p| :: p[i] != "**"
    ensures Matches(p, s) <==> |p| == |s| && forall i | 0 <= i < |p| :: p[i] == "*" || p[i] == s[i]
  {
    if p == [] || s == [] {
    } else {
      StarFreeMatches(p[1..], s[1..]);
      assert forall i | 1 <= i < |p| :: p[i] == p[1..][i - 1];
      assert |p| == |s| ==> forall i | 1 <= i < |s| :: s[i] == s[1..][i - 1];
    }
  }

  predicate NoStars(pattern: seq<string>, lo: nat, hi: nat) {
    hi <= |pattern| && forall x | lo <= x < hi :: pattern[x] != "**"
  }

  /** Without a "**" in the way, matching moves in lockstep. */
  lemma {:induction false} Lockstep(pattern: seq<string>, path: seq<string>, i: nat, hi: nat, j: nat)
    requires i <= hi && NoStars(pattern, i, hi)
    requires At(pattern, path, i, j)
    ensures At(pattern, path, hi, j + (hi - i))
    decreases hi - i
  {
    if i == hi {
    } else {
      Lockstep(pattern, path, i + 1, hi, j + 1);
    }
  }

  /** What the matcher knows while it runs: the whole answer is the answer of the last
      "**" from `rewind` on, and the attempt that starts right there stands at (pi, si). */
  ghost predicate OnTrack(pattern: seq<string>, path: seq<string>, pi: nat, si: nat, star: int, rewind: nat) {
    && pi <= |pattern| && si <= |path|
    && -1 <= star < |pattern|
    && (star == -1 ==> rewind == 0 && (At(pattern, path, 0, 0) <==> At(pattern, path, pi, si)))
    && (star >= 0 ==>
          && pattern[star] == "**" && star < pi && rewind <= si
          && pi - (star + 1) == si - rewind
          && NoStars(pattern, star + 1, pi)
          && (At(pattern, path, 0, 0) <==> At(pattern, path, star, rewind))
          && (At(pattern, path, star + 1, rewind) <==> At(pattern, path, pi, si)))
  }

  /** The exchange argument: on reaching a second "**", the first one is settled. */
  lemma NextStar(pattern: seq<string>, path: seq<string>, pi: nat, si: nat, star: int, rewind: nat)
    requires OnTrack(pattern, path, pi, si, star, rewind)
    requires pi < |pattern| && pattern[pi] == "**"
    ensures At(pattern, path, 0, 0) <==> At(pattern, path, pi, si)
    ensures OnTrack(pattern, path, pi + 1, si, pi, si)
  {
    if star >= 0 && At(pattern, path, star, rewind) {
      var k := StarWitness(pattern, path, star, rewind);
      Lockstep(pattern, path, star + 1, pi, k);
      StarAbsorbs(pattern, path, pi, si, k + (pi - (star + 1)));
    }
  }

  /** A segment that fits: the attempt moves on. */
  lemma Advance(pattern: seq<string>, path: seq<string>, pi: nat, si: nat, star: int, rewind: nat)
    requires OnTrack(pattern, path, pi, si, star, rewind)
    requires pi < |pattern| && pattern[pi] != "**" && si < |path| && Fits(pattern[pi], path[si])
    ensures OnTrack(pattern, path, pi + 1, si + 1, star, rewind)
  {}

  /** A mismatch: the attempt fails, and without a "**" so does the match. */
  lemma Retry(pattern: seq<string>, path: seq<string>, pi: nat, si: nat, star: int, rewind: nat)
    requires OnTrack(pattern, path, pi, si, star, rewind) && si < |path|
    requires pi < |pattern| ==> pattern[pi] != "**" && !Fits(pattern[pi], path[si])
    ensures star == -1 ==> !At(pattern, path, 0, 0)
    ensures star >= 0 ==> OnTrack(pattern, path, star + 1, rewind + 1, star, rewind + 1)
  {
    assert !At(pattern, path, pi, si);
  }

  /** At the end of the path no later start of the last "**" can do better. */
  lemma PathExhausted(pattern: seq<string>, path: seq<string>, pi: nat, star: int, rewind: nat)
    requires OnTrack(pattern, path, pi, |path|, star, rewind)
    ensures At(pattern, path, 0, 0) <==> At(pattern, path, pi, |path|)
  {
    if star >= 0 && At(pattern, path, star, rewind) {
      var k := StarWitness(pattern, path, star, rewind);
      Lockstep(pattern, path, star + 1, pi, k);
    }
  }

  /** The single-pass matcher. `steps` counts iterations of its main loop. */
  method MatchSegments(pattern: seq<string>, path: seq<string>) returns (ok: bool, ghost steps: nat)
    ensures ok <==> Matches(pattern, path)
    ensures ok <==> exists cuts :: Laid(pattern, path, cuts)
    ensures steps <= (|path| + 1) * (|pattern| + 1) - 1
  {
    var pi, si := 0, 0;
    var star, rewind := -1, 0;
    steps := 0;
    AtStart(pattern, path);
    MatchesIffLaid(pattern, path);
    while si < |path|
      invariant OnTrack(pattern, path, pi, si, star, rewind)
      invariant steps <= Room(rewind, pi, |pattern| + 1)
      decreases |path| - rewind, |pattern| - pi
    {
      steps := steps + 1;
      if pi < |pattern| && pattern[pi] == "**" {
        NextStar(pattern, path, pi, si, star, rewind);
        RoomGrows(rewind, si, pi, |pattern| + 1);
        star, rewind := pi, si;
        pi := pi + 1;
      } else if pi < |pattern| && Fits(pattern[pi], path[si]) {
        Advance(pattern, path, pi, si, star, rewind);
        pi := pi + 1;
        si := si + 1;
      } else if star >= 0 {
        Retry(pattern, path, pi, si, star, rewind);
        RoomGrows(rewind, rewind + 1, pi, |pattern| + 1);
        rewind := rewind + 1;
        pi, si := star + 1, rewind;
      } else {
        Retry(pattern, path, pi, si, star, rewind);
        RoomGrows(rewind, |path|, pi, |pattern| + 1);
        return false, steps;
      }
    }
    RoomGrows(rewind, |path|, pi, |pattern| + 1);
    PathExhausted(pattern, path, pi, star, rewind);
    while pi < |pattern| && pattern[pi] == "**"
      invariant pi <= |pattern|
      invariant Matches(pattern, path) <==> At(pattern, path, pi, |path|)
    {
      pi := pi + 1;
    }
    ok := pi == |pattern|;
  }

  /** How many steps the matcher can have taken. */
  function Room(rewind: nat, pi: nat, width: nat): int {
    rewind * width + pi
  }

  lemma RoomGrows(a: nat, b: nat, pi: nat, width: nat)
    requires a <= b && pi < width
    ensures Room(a, pi, width) <= Room(b, pi, width)
    ensures a < b ==> Room(a, pi, width) < Room(b, 0, width)
    ensures Room(b, pi, width) <= (b + 1) * width - 1
  {
    assert (b + 1) * width == b * width + width;
    MulGrows(a, b, width);
    if a < b { MulGrows(a + 1, b, width); assert (a + 1) * width == a * width + width; }
  }

  lemma MulGrows(a: nat, b: nat, width: nat)
    requires a <= b
    ensures a * width <= b * width
  {}
  // ----- What operators rely on -------------------------------------------------------

  /** Patterns compose: a joined pattern matches exactly the joined paths. */
  lemma {:induction false} MatchesConcat(p: seq<string>, q: seq<string>, path: seq<string>)
    ensures Matches(p + q, path) <==>
            exists k :: 0 <= k <= |path| && Matches(p, path[..k]) && Matches(q, path[k..])
    decreases |p| + |path|
  {
    if p == [] {
      assert p + q == q;
      assert path[0..] == path && path[..0] == [];
      forall k | 0 <= k <= |path| && Matches(p, path[..k]) ensures k == 0 { assert |path[..k]| == k; }
    } else {
      assert (p + q)[1..] == p[1..] + q;
      MatchesConcat(p[1..], q, path);
      if path != [] {
        if p[0] == "**" { MatchesConcat(p, q, path[1..]); } else { MatchesConcat(p[1..], q, path[1..]); }
      }
      if Matches(p + q, path) {
        ConcatSplits(p, q, path);
      }
      forall k | 0 <= k <= |path| && Matches(p, path[..k]) && Matches(q, path[k..])
        ensures Matches(p + q, path)
      {
        ConcatJoins(p, q, path, k);
      }
    }
  }

  lemma ConcatSplits(p: seq<string>, q: seq<string>, path: seq<string>)
    requires p != [] && (p + q)[1..] == p[1..] + q && Matches(p + q, path)
    requires Matches(p[1..] + q, path) ==>
               exists k :: 0 <= k <= |path| && Matches(p[1..], path[..k]) && Matches(q, path[k..])
    requires path != [] ==>
               var rest := if p[0] == "**" then p else p[1..];
               Matches(rest + q, path[1..]) ==>
                 exists k :: 0 <= k < |path| && Matches(rest, path[1..][..k]) && Matches(q, path[1..][k..])
    ensures exists k :: 0 <= k <= |path| && Matches(p, path[..k]) && Matches(q, path[k..])
  {
    if p[0] == "**" && Matches(p[1..] + q, path) {
      var k :| 0 <= k <= |path| && Matches(p[1..], path[..k]) && Matches(q, path[k..]);
      assert Matches(p, path[..k]);
    } else {
      var rest := if p[0] == "**" then p else p[1..];
      assert Matches(rest + q, path[1..]);
      var k :| 0 <= k < |path| && Matches(rest, path[1..][..k]) && Matches(q, path[1..][k..]);
      assert path[..k + 1][1..] == path[1..][..k] && path[1..][k..] == path[k + 1..];
      assert Matches(p, path[..k + 1]) && Matches(q, path[k + 1..]);
    }
  }

  lemma ConcatJoins(p: seq<string>, q: seq<string>, path: seq<string>, k: nat)
    requires p != [] && (p + q)[1..] == p[1..] + q
    requires k <= |path| && Matches(p, path[..k]) && Matches(q, path[k..])
    requires forall j :: 0 <= j <= |path| && Matches(p[1..], path[..j]) && Matches(q, path[j..]) ==>
                           Matches(p[1..] + q, path)
    requires path != [] ==>
               var rest := if p[0] == "**" then p else p[1..];
               forall j :: 0 <= j < |path| && Matches(rest, path[1..][..j]) && Matches(q, path[1..][j..]) ==>
                             Matches(rest + q, path[1..])
    ensures Matches(p + q, path)
  {
    if p[0] == "**" && Matches(p[1..], path[..k]) {
    } else {
      var rest := if p[0] == "**" then p else p[1..];
      assert path[..k][1..] == path[1..][..k - 1] && path[1..][k - 1..] == path[k..];
      assert Matches(rest, path[1..][..k - 1]);
    }
  }

  /** A trailing "**" accepts every extension of what the rest accepts, and nothing else. */
  lemma StarAcceptsExtensions(p: seq<string>, path: seq<string>)
    ensures Matches(p + ["**"], path) <==> exists k :: 0 <= k <= |path| && Matches(p, path[..k])
  {
    MatchesConcat(p, ["**"], path);
    forall k | 0 <= k <= |path| ensures Matches(["**"], path[k..]) { StarMatchesAll(path[k..]); }
  }

  lemma {:induction false} StarMatchesAll(path: seq<string>)
    ensures Matches(["**"], path)
  {
    if path != [] {
      StarMatchesAll(path[1..]);
    } else {
      assert Matches(["**"][1..], []);
    }
  }

  /** Whatever its segments contain, a pattern matches itself. */
  lemma {:induction false} SelfMatch(p: seq<string>)
    ensures Matches(p, p)
  {
    if p == [] {
    } else {
      SelfMatch(p[1..]);
      if p[0] == "**" {
        AtIsMatches(p, p, 1, 1);
        AtStart(p, p);
        assert At(p, p, 0, 1);
      }
    }
  }

  // ----- On strings -----------------------------------------------------------------------

  function Segments(s: string): (segments: seq<string>)
    ensures forall x | x in segments :: '/' !in x
  {
    var parts := Split(if s != "" && s[0] == '/' then s[1..] else s, '/');
    if parts == [""] then [] else parts
  }

  /** A path written out, each segment after a slash. */
  function Slashed(segments: seq<string>): string {
    if segments == [] then "" else "/" + segments[0] + Slashed(segments[1..])
  }

  lemma {:induction false} SplitSlashed(segments: seq<string>)
    requires segments != [] && forall x | x in segments :: '/' !in x
    ensures Slashed(segments) != "" && Slashed(segments)[0] == '/'
    ensures Split(Slashed(segments)[1..], '/') == segments
  {
    var head, rest := segments[0], segments[1..];
    assert segments == [head] + rest;
    if rest == [] {
      assert Slashed(segments)[1..] == head;
      SplitSegment(head, '/', "");
    } else {
      SplitSlashed(rest);
      assert Slashed(segments)[1..] == head + ['/'] + Slashed(rest)[1..];
      SplitSegment(head, '/', Slashed(rest)[1..]);
    }
  }

  /** The segments of a path are what stands between its slashes, with or without the first. */
  lemma SegmentsOfPath(segments: seq<string>)
    requires forall x | x in segments :: '/' !in x
    ensures segments != [""] ==> Segments(Slashed(segments)) == segments
    ensures segments != [] && segments[0] != "" ==> Segments(Slashed(segments)[1..]) == segments
  {
    if segments != [] {
      SplitSlashed(segments);
      if segments[0] != "" {
        var s := Slashed(segments)[1..];
        assert s[0] == segments[0][0] && segments[0][0] in segments[0];
      }
    }
  }

  predicate MatchesPath(pattern: string, path: string) {
    Matches(Segments(Lower(pattern)), Segments(Lower(path)))
  }

  method MatchGlob(pattern: string, path: string) returns (ok: bool)
    ensures ok <==> MatchesPath(pattern, path)
  {
    ghost var steps;
    ok, steps := MatchSegments(Segments(Lower(pattern)), Segments(Lower(path)));
  }

  /** Every path is its own pattern, and letter case never matters. */
  lemma PathMatchesItself(path: string, other: string)
    requires Lower(path) == Lower(other)
    ensures MatchesPath(path, other)
  {
    SelfMatch(Segments(Lower(path)));
  }
}
