/** Ignoring during the comparison against ignoring afterwards. */
module NoiseApply {
  import opened Text
  import opened Sorting
  import opened Json
  import opened Collector
  import opened Diff
  import opened DiffPaths
  import opened DiffRules
  import opened Noise
  import opened NoiseLaws
  import Glob

  predicate IgnoreOnly(rules: Ruleset) {
    forall i | 0 <= i < |rules| :: rules[i].ignore
  }

  predicate Ignored(rules: Ruleset, path: string) {
    Match(rules, path).Some?
  }

  /** Rules that only ignore look at paths and at nothing else. */
  lemma IgnoreOnlyAsksPaths(lib: Library, rules: Ruleset, path: string, v: Json, w: Json)
    requires IgnoreOnly(rules)
    ensures Suppress(lib, rules, path, v, w) <==> Ignored(rules, path)
    ensures forall d: Difference :: d.path == path ==> (AppliesTo(lib, rules, d) <==> Ignored(rules, path))
  {
    MatchIsLast(rules, path);
    if Match(rules, path).Some? {
      var i: nat :| Governs(rules, path, i);
      assert rules[i].ignore;
    }
  }

  // ----- Subsequences and filters --------------------------------------------------------------------

  lemma {:induction false} WithoutMeans(f: Difference -> bool, ds: seq<Difference>, d: Difference)
    ensures d in Without(f, ds) <==> d in ds && !f(d)
  {
    if ds == [] {
    } else {
      WithoutMeans(f, ds[1..], d);
      assert ds == [ds[0]] + ds[1..];
    }
  }

  lemma {:induction false} SubsequenceFiltered(f: Difference -> bool, xs: seq<Difference>, ys: seq<Difference>)
    requires IsSubsequence(xs, ys)
    requires forall x | x in xs :: !f(x)
    ensures IsSubsequence(xs, Without(f, ys))
    decreases |ys|
  {
    if xs == [] {
    } else {
      var rest := Without(f, ys[1..]);
      if xs[0] == ys[0] && IsSubsequence(xs[1..], ys[1..]) {
        SubsequenceFiltered(f, xs[1..], ys[1..]);
        assert xs[0] in xs;
        assert Without(f, ys)[1..] == rest;
      } else {
        SubsequenceFiltered(f, xs, ys[1..]);
        if f(ys[0]) {
          assert Without(f, ys) == rest;
        } else {
          assert Without(f, ys)[1..] == rest;
        }
      }
    }
  }

  lemma {:induction false} SubsequenceMembers(xs: seq<Difference>, ys: seq<Difference>, x: Difference)
    requires IsSubsequence(xs, ys) && x in xs
    ensures x in ys
    decreases |ys|
  {
    if xs[0] == ys[0] && IsSubsequence(xs[1..], ys[1..]) {
      if x != xs[0] { SubsequenceMembers(xs[1..], ys[1..], x); }
    } else {
      SubsequenceMembers(xs, ys[1..], x);
    }
  }

  lemma {:induction false} WithoutOnePerPath(f: Difference -> bool, ds: seq<Difference>)
    requires OnePerPath(ds)
    ensures OnePerPath(Without(f, ds))
  {
    if ds == [] {
    } else {
      WithoutOnePerPath(f, ds[1..]);
      var rest := Without(f, ds[1..]);
      forall j | 0 <= j < |rest| ensures rest[j].path != ds[0].path {
        WithoutMeans(f, ds[1..], rest[j]);
      }
    }
  }

  /** A subsequence that misses nothing is everything. */
  lemma {:induction false} FullSubsequence(xs: seq<Difference>, ys: seq<Difference>)
    requires IsSubsequence(xs, ys) && OnePerPath(ys)
    requires forall y | y in ys :: y in xs
    ensures xs == ys
    decreases |ys|
  {
    if ys == [] {
    } else {
      assert ys[0] in ys;
      if xs[0] == ys[0] && IsSubsequence(xs[1..], ys[1..]) {
        forall y | y in ys[1..] ensures y in xs[1..] {
          assert y in ys && y in xs && y != ys[0];
        }
        FullSubsequence(xs[1..], ys[1..]);
        assert xs == [xs[0]] + xs[1..] && ys == [ys[0]] + ys[1..];
      } else {
        SubsequenceMembers(xs, ys[1..], ys[0]);
      }
    }
  }

  // ----- Nothing is reported below two arrays that were hidden, in a whole comparison -----

  lemma CutIsInBody(e: Engine, p: Pair, h: Event)
    requires h in PairEvents(e, p) && CutsArrays(h)
    ensures h in BodyEvents(e, p.primary.resBody, p.shadow.resBody)
  {
    TopOrBody(e, p, h);
    if h in TopEvents(e, p) { TopEvent(e, p, h); }
  }

  /** Once two whole arrays are hidden, nothing at or below them is reported. */
  lemma CutIsFinal(e: Engine, p: Pair, h: Event, d: Difference)
    requires h in PairEvents(e, p) && CutsArrays(h) && Found(d) in PairEvents(e, p)
    ensures !Under(h.path, d.path)
  {
    if Under(h.path, d.path) {
      CutIsInBody(e, p, h);
      BodyPath(e, p.primary.resBody, p.shadow.resBody, h);
      BelowBodyIsBody(e, p, Found(d));
      CutIsFinalInBody(e, p.primary.resBody, p.shadow.resBody, h, d);
    }
  }

  lemma CutIsFinalInBody(e: Engine, p: string, s: string, h: Event, d: Difference)
    requires h in BodyEvents(e, p, s) && CutsArrays(h) && Found(d) in BodyEvents(e, p, s)
    ensures !Under(h.path, d.path)
  {
    var a, b := e.decode(p), e.decode(s);
    if a.Some? && b.Some? && Under(h.path, d.path) {
      var x := Locate(e, PATH_BODY, a.value, b.value, h);
      var y := Locate(e, PATH_BODY, a.value, b.value, Found(d));
      UnderAlongTokens(PATH_BODY, x, y);
      NothingBelowCut(e, PATH_BODY, a.value, b.value, h, x, d, y);
    }
  }

  /** What is reported, the rules were asked about and did not give up. */
  lemma FoundWasRefused(e: Engine, p: Pair, d: Difference)
    requires Found(d) in PairEvents(e, p)
    ensures !e.Asks(d.path, d.primary, d.shadow)
  {
    EveryEventIsAnswered(e, p, Found(d));
  }

  // ----- The two passes ----------------------------------------------------------------------------------

  /** Whatever raw difference lies below two arrays that were hidden is ignored by itself. */
  ghost predicate CutsOnlyIgnored(rules: Ruleset, events: seq<Event>, raw: seq<Difference>) {
    forall h, d | h in events && CutsArrays(h) && d in raw && Under(h.path, d.path) :: Ignored(rules, d.path)
  }

  ghost function During(lib: Library, rules: Ruleset, decode: string -> Option<Json>, p: Pair): seq<Difference> {
    ResultOf(EngineWith(lib, rules, decode), p).differences
  }

  ghost function Before(lib: Library, rules: Ruleset, decode: string -> Option<Json>, p: Pair): Result {
    ResultOf(EngineWith(lib, rules, decode).Raw(), p)
  }

  ghost function Afterwards(lib: Library, rules: Ruleset, decode: string -> Option<Json>, p: Pair): seq<Difference> {
    ApplyTo(lib, rules, Before(lib, rules, decode, p)).differences
  }

  lemma AfterwardsMeans(lib: Library, rules: Ruleset, decode: string -> Option<Json>, p: Pair, d: Difference)
    requires IgnoreOnly(rules)
    ensures d in Afterwards(lib, rules, decode, p) <==>
            d in Before(lib, rules, decode, p).differences && !Ignored(rules, d.path)
  {
    WithoutMeans(d => AppliesTo(lib, rules, d), Before(lib, rules, decode, p).differences, d);
    IgnoreOnlyAsksPaths(lib, rules, d.path, d.primary, d.shadow);
  }

  lemma DuringRefused(lib: Library, rules: Ruleset, decode: string -> Option<Json>, p: Pair, d: Difference)
    requires IgnoreOnly(rules) && d in During(lib, rules, decode, p)
    ensures Found(d) in PairEvents(EngineWith(lib, rules, decode), p) && !Ignored(rules, d.path)
  {
    var e := EngineWith(lib, rules, decode);
    ReportedIsFound(PairEvents(e, p), d);
    FoundWasRefused(e, p, d);
    IgnoreOnlyAsksPaths(lib, rules, d.path, d.primary, d.shadow);
  }

  lemma DuringWithinAfterwards(lib: Library, rules: Ruleset, decode: string -> Option<Json>, p: Pair)
    requires IgnoreOnly(rules)
    ensures IsSubsequence(During(lib, rules, decode, p), Afterwards(lib, rules, decode, p))
  {
    var f := d => AppliesTo(lib, rules, d);
    RulesOnlyTakeAway(EngineWith(lib, rules, decode), p);
    forall d | d in During(lib, rules, decode, p) ensures !f(d) {
      DuringRefused(lib, rules, decode, p, d);
      IgnoreOnlyAsksPaths(lib, rules, d.path, d.primary, d.shadow);
    }
    SubsequenceFiltered(f, During(lib, rules, decode, p), Before(lib, rules, decode, p).differences);
  }

  /** A difference that only the pass during the comparison takes away lies below a cut. */
  lemma LostBelowCut(lib: Library, rules: Ruleset, decode: string -> Option<Json>, p: Pair, d: Difference)
    requires IgnoreOnly(rules)
    requires d in Afterwards(lib, rules, decode, p) && d !in During(lib, rules, decode, p)
    ensures exists h :: h in PairEvents(EngineWith(lib, rules, decode), p) && CutsArrays(h) && Under(h.path, d.path)
  {
    var e := EngineWith(lib, rules, decode);
    AfterwardsMeans(lib, rules, decode, p, d);
    RulesOnlyTakeAway(e, p);
    var h :| h in PairEvents(e, p) && Covers(h, d);
    HiddenWasAsked(e, p, h);
    IgnoreOnlyAsksPaths(lib, rules, h.path, h.primary, h.shadow);
  }

  /** With rules that only ignore, the comparison reports a part, in order, of what the
      post-hoc pass leaves of the raw result; and it reports all of that if and only if every
      raw difference below two arrays hidden as a whole is ignored by itself. */
  lemma IgnoringDuringAndAfter(lib: Library, rules: Ruleset, decode: string -> Option<Json>, p: Pair)
    requires IgnoreOnly(rules)
    ensures IsSubsequence(During(lib, rules, decode, p), Afterwards(lib, rules, decode, p))
    ensures During(lib, rules, decode, p) == Afterwards(lib, rules, decode, p) <==>
            CutsOnlyIgnored(rules, PairEvents(EngineWith(lib, rules, decode), p),
                            Before(lib, rules, decode, p).differences)
  {
    var e := EngineWith(lib, rules, decode);
    var events, raw := PairEvents(e, p), Before(lib, rules, decode, p).differences;
    var now, later := During(lib, rules, decode, p), Afterwards(lib, rules, decode, p);
    DuringWithinAfterwards(lib, rules, decode, p);
    if now == later {
      forall h, d | h in events && CutsArrays(h) && d in raw && Under(h.path, d.path) ensures Ignored(rules, d.path) {
        AfterwardsMeans(lib, rules, decode, p, d);
        if d in now {
          DuringRefused(lib, rules, decode, p, d);
          CutIsFinal(e, p, h, d);
        }
      }
    }
    if CutsOnlyIgnored(rules, events, raw) {
      forall d | d in later ensures d in now {
        AfterwardsMeans(lib, rules, decode, p, d);
        if d !in now { LostBelowCut(lib, rules, decode, p, d); }
      }
      ResultPathsUnique(e.Raw(), p);
      WithoutOnePerPath(d => AppliesTo(lib, rules, d), raw);
      FullSubsequence(now, later);
    }
  }

  // ----- When the two passes agree on every pair -----------------------------------------------------------

  function Place(tokens: seq<string>): string {
    PATH_BODY + Pointer(tokens)
  }

  /** Whatever place in a body is ignored, so is everything below it that an array there could
      hold. This looks at the rules alone. */
  ghost predicate ReachesDown(rules: Ruleset) {
    forall s: seq<string>, i: nat, t: seq<string> ::
      Ignored(rules, Place(s)) ==> Ignored(rules, Place(s + [Itoa(i)] + t))
  }

  /** What an array holds below itself is under an index. */
  lemma BelowArray(a: Json, s: seq<string>, t: seq<string>) returns (i: nat)
    requires Resolve(a, s).Some? && Resolve(a, s).value.Arr?
    requires s < t && Resolve(a, t).Some?
    ensures t == s + [Itoa(i)] + t[|s| + 1..]
  {
    var rest := t[|s|..];
    assert t == s + rest;
    ResolveFurther(a, s, rest);
    i := FirstIsIndex(Resolve(a, s).value, rest);
    assert rest == [rest[0]] + rest[1..] && rest[1..] == t[|s| + 1..];
  }

  lemma FirstIsIndex(v: Json, tokens: seq<string>) returns (i: nat)
    requires v.Arr? && tokens != [] && Resolve(v, tokens).Some?
    ensures tokens[0] == Itoa(i)
  {
    i := ParseIndex(tokens[0]).value;
    IndexRoundTrip(tokens[0], i);
  }

  lemma CutReachesDown(rules: Ruleset, num: Valuation, a: Json, b: Json,
                       s: seq<string>, t: seq<string>, d: Difference)
    requires ReachesDown(rules) && Ignored(rules, Place(s)) && s <= t
    requires Resolve(a, s).Some? && Resolve(a, s).value.Arr? && Resolve(b, s).Some? && Resolve(b, s).value.Arr?
    requires Genuine(num, d, Resolve(a, t), Resolve(b, t))
    ensures Ignored(rules, Place(t))
  {
    if s != t {
      var i: nat;
      if Resolve(a, t).Some? { i := BelowArray(a, s, t); } else { i := BelowArray(b, s, t); }
      assert Ignored(rules, Place(s + [Itoa(i)] + t[|s| + 1..]));
    }
  }

  lemma BodyCutsOnlyIgnored(lib: Library, rules: Ruleset, decode: string -> Option<Json>, p: Pair,
                            a: Json, b: Json, h: Event, d: Difference)
    requires IgnoreOnly(rules) && ReachesDown(rules)
    requires var e := EngineWith(lib, rules, decode);
             h in Walk(e, PATH_BODY, a, b) && Found(d) in Walk(e.Raw(), PATH_BODY, a, b)
    requires CutsArrays(h) && Under(h.path, d.path)
    ensures Ignored(rules, d.path)
  {
    var e := EngineWith(lib, rules, decode);
    var s := CutPosition(e, PATH_BODY, a, b, h);
    var x := Locate(e, PATH_BODY, a, b, h);
    var t := Locate(e.Raw(), PATH_BODY, a, b, Found(d));
    IgnoreOnlyAsksPaths(lib, rules, h.path, h.primary, h.shadow);
    UnderAlongTokens(PATH_BODY, s, t);
    CutReachesDown(rules, lib.num, a, b, s, t, d);
  }

  lemma ReachingDownAgrees(lib: Library, rules: Ruleset, decode: string -> Option<Json>, p: Pair)
    requires IgnoreOnly(rules) && ReachesDown(rules)
    ensures During(lib, rules, decode, p) == Afterwards(lib, rules, decode, p)
  {
    var e := EngineWith(lib, rules, decode);
    var raw := Before(lib, rules, decode, p).differences;
    forall h, d | h in PairEvents(e, p) && CutsArrays(h) && d in raw && Under(h.path, d.path)
      ensures Ignored(rules, d.path)
    {
      ReportedIsFound(PairEvents(e.Raw(), p), d);
      CutIsInBody(e, p, h);
      BodyPath(e, p.primary.resBody, p.shadow.resBody, h);
      BelowBodyIsBody(e.Raw(), p, Found(d));
      CutWasWalked(e, p.primary.resBody, p.shadow.resBody, h);
      BodyCutsOnlyIgnored(lib, rules, decode, p, decode(p.primary.resBody).value, decode(p.shadow.resBody).value, h, d);
    }
    IgnoringDuringAndAfter(lib, rules, decode, p);
  }

  lemma CutWasWalked(e: Engine, p: string, s: string, h: Event)
    requires h in BodyEvents(e, p, s) && CutsArrays(h)
    ensures e.decode(p).Some? && e.decode(s).Some?
  {}

  // ----- And when they do not --------------------------------------------------------------------------------

  lemma {:induction false} PointerConcat(s: seq<string>, t: seq<string>)
    ensures Pointer(s + t) == Pointer(s) + Pointer(t)
  {
    if s == [] {
      assert s + t == t;
    } else {
      assert (s + t)[0] == s[0] && (s + t)[1..] == s[1..] + t;
      PointerConcat(s[1..], t);
      Associative("/" + Escape(s[0]), Pointer(s[1..]), Pointer(t));
    }
  }

  /** A document that holds one value, at this place. */
  function Nest(tokens: seq<string>, v: Json): Json {
    if tokens == [] then v else Obj(map[tokens[0] := Nest(tokens[1..], v)])
  }

  /** Comparing two such documents is comparing the two values there. */
  lemma {:induction false} NestedWalk(e: Engine, path: string, tokens: seq<string>, v: Json, w: Json)
    ensures Walk(e, path, Nest(tokens, v), Nest(tokens, w)) == Walk(e, path + Pointer(tokens), v, w)
    decreases |tokens|
  {
    if tokens == [] {
      assert path + "" == path;
    } else {
      var k, rest := tokens[0], tokens[1..];
      OneLevel(e, path, k, Nest(rest, v), Nest(rest, w));
      NestedWalk(e, ChildPath(path, k), rest, v, w);
      OneStep(path, tokens);
    }
  }

  lemma OneStep(path: string, tokens: seq<string>)
    requires tokens != []
    ensures ChildPath(path, tokens[0]) + Pointer(tokens[1..]) == path + Pointer(tokens)
  {
    PathStep(path, tokens[0], tokens[1..]);
    assert [tokens[0]] + tokens[1..] == tokens;
  }

  lemma OneLevel(e: Engine, path: string, k: string, v: Json, w: Json)
    ensures Walk(e, path, Obj(map[k := v]), Obj(map[k := w])) == Walk(e, ChildPath(path, k), v, w)
  {
    OneKeyWalk(e, path, map[k := v], map[k := w], k);
  }

  /** An array that holds one value, at index i. */
  function Padded(i: nat, v: Json): Json {
    Arr(seq(i + 1, k => if k == i then v else Null))
  }

  /** Two documents that differ at one place, below two arrays. */
  function Differing(s: seq<string>, i: nat, t: seq<string>, b: bool): Json {
    Nest(s, Padded(i, Nest(t, Bool(b))))
  }

  lemma DifferenceBelow(e: Engine, s: seq<string>, i: nat, t: seq<string>) returns (d: Difference)
    requires e.suppressor.NoRules?
    ensures Found(d) in Walk(e, PATH_BODY, Differing(s, i, t, true), Differing(s, i, t, false))
    ensures d.path == Place(s + [Itoa(i)] + t)
  {
    var v, w := Padded(i, Nest(t, Bool(true))), Padded(i, Nest(t, Bool(false)));
    NestedWalk(e, PATH_BODY, s, v, w);
    d := DifferenceInArrays(e, Place(s), i, t);
    PointerConcat(s + [Itoa(i)], t);
    PointerConcat(s, [Itoa(i)]);
    PathStep(Place(s), Itoa(i), []);
    Associative(PATH_BODY, Pointer(s), Pointer([Itoa(i)]));
    Associative(PATH_BODY, Pointer(s) + Pointer([Itoa(i)]), Pointer(t));
    assert ChildPath(Place(s), Itoa(i)) + "" == ChildPath(Place(s), Itoa(i));
    assert [Itoa(i)] + [] == [Itoa(i)];
  }

  lemma DifferenceInArrays(e: Engine, path: string, i: nat, t: seq<string>) returns (d: Difference)
    requires e.suppressor.NoRules?
    ensures Found(d) in Walk(e, path, Padded(i, Nest(t, Bool(true))), Padded(i, Nest(t, Bool(false))))
    ensures d.path == ChildPath(path, Itoa(i)) + Pointer(t)
  {
    var a, b := Padded(i, Nest(t, Bool(true))), Padded(i, Nest(t, Bool(false)));
    var kids := Children(a, b);
    assert kids[i] == Child(Itoa(i), Some(Nest(t, Bool(true))), Some(Nest(t, Bool(false)))) && kids[i] in kids;
    var below := ChildPath(path, Itoa(i));
    NestedWalk(e, below, t, Bool(true), Bool(false));
    d := Difference(BodyVal, below + Pointer(t), Bool(true), Bool(false));
    BooleansDiffer(e, below + Pointer(t));
    assert Found(d) in WalkChild(e, path, a, kids[i]);
    ChildIsWalked(e, path, a, kids, i, Found(d));
  }

  lemma BooleansDiffer(e: Engine, path: string)
    requires e.suppressor.NoRules?
    ensures Found(Difference(BodyVal, path, Bool(true), Bool(false))) in Walk(e, path, Bool(true), Bool(false))
  {
    assert Found(Difference(BodyVal, path, Bool(true), Bool(false))) in Here(e, path, Bool(true), Bool(false));
  }

  function Answer(body: string): Capture {
    Capture(PRIMARY, "", "", "", map[], "", 200, map[], body, None)
  }

  /** A pair whose bodies decode to these two documents. */
  function Decoding(a: Json, b: Json): string -> Option<Json> {
    (body: string) => Some(if body == "p" then a else b)
  }

  const TWO_BODIES := Pair("", Answer("p"), Answer("s"))

  lemma NothingOnTop(e: Engine, p: Pair)
    requires p.primary.status == p.shadow.status
    requires p.primary.resHeaders.Keys == {} && p.shadow.resHeaders.Keys == {}
    ensures TopEvents(e, p) == []
  {
    assert HeaderNames(p.primary.resHeaders, p.shadow.resHeaders) == {};
    NothingSorted();
  }

  lemma NothingSorted()
    ensures SortedSeq({}) == []
  {
    assert multiset(SortedSeq({})) == multiset{};
    assert |multiset(SortedSeq({}))| == |SortedSeq({})|;
  }

  lemma OnlyBodiesDiffer(e: Engine, a: Json, b: Json)
    requires e.decode == Decoding(a, b)
    ensures PairEvents(e, TWO_BODIES) == Walk(e, PATH_BODY, a, b)
  {
    var p := TWO_BODIES;
    NothingOnTop(e, p);
    BodiesAreWalked(e, p.primary.resBody, p.shadow.resBody, a, b);
    assert [] + Walk(e, PATH_BODY, a, b) == Walk(e, PATH_BODY, a, b);
  }

  lemma BodiesAreWalked(e: Engine, p: string, s: string, a: Json, b: Json)
    requires e.decode(p) == Some(a) && e.decode(s) == Some(b)
    ensures BodyEvents(e, p, s) == Walk(e, PATH_BODY, a, b)
  {}

  /** If an array may be ignored and something below it is not, the passes disagree where the
      two arrays differ just there: only the pass afterwards reports it. */
  lemma CutLosesBelow(lib: Library, rules: Ruleset, s: seq<string>, i: nat, t: seq<string>)
      returns (decode: string -> Option<Json>, p: Pair)
    requires IgnoreOnly(rules)
    requires Ignored(rules, Place(s)) && !Ignored(rules, Place(s + [Itoa(i)] + t))
    ensures During(lib, rules, decode, p) != Afterwards(lib, rules, decode, p)
  {
    var a, b := Differing(s, i, t, true), Differing(s, i, t, false);
    decode, p := Decoding(a, b), TWO_BODIES;
    var e := EngineWith(lib, rules, decode);
    var d := DifferenceBelow(e.Raw(), s, i, t);
    OnlyBodiesDiffer(e, a, b);
    OnlyBodiesDiffer(e.Raw(), a, b);
    ReportedIsFound(PairEvents(e.Raw(), p), d);
    var h := CutAt(lib, rules, decode, s, i, t);
    ItemsAreUnder(s, i, t);
    IgnoringDuringAndAfter(lib, rules, decode, p);
  }

  lemma ItemsAreUnder(s: seq<string>, i: nat, t: seq<string>)
    ensures Under(Place(s), Place(s + [Itoa(i)] + t))
  {
    PointerConcat(s, [Itoa(i)] + t);
    assert s + ([Itoa(i)] + t) == s + [Itoa(i)] + t;
    Associative(PATH_BODY, Pointer(s), Pointer([Itoa(i)] + t));
    PointerUnder(Place(s), [Itoa(i)] + t);
  }

  lemma CutAt(lib: Library, rules: Ruleset, decode: string -> Option<Json>, s: seq<string>, i: nat, t: seq<string>)
      returns (h: Event)
    requires IgnoreOnly(rules) && Ignored(rules, Place(s))
    ensures h in Walk(EngineWith(lib, rules, decode), PATH_BODY, Differing(s, i, t, true), Differing(s, i, t, false))
    ensures CutsArrays(h) && h.path == Place(s)
  {
    var e := EngineWith(lib, rules, decode);
    var v, w := Padded(i, Nest(t, Bool(true))), Padded(i, Nest(t, Bool(false)));
    NestedWalk(e, PATH_BODY, s, v, w);
    IgnoreOnlyAsksPaths(lib, rules, Place(s), v, w);
    h := Hid(Place(s), v, w);
  }

  /** With rules that only ignore, ignoring during the comparison and ignoring afterwards report
      the same for every pair of responses if and only if whatever place in a body is ignored,
      so is everything an array there could hold. */
  lemma PassesAgreeIffReachingDown(lib: Library, rules: Ruleset)
    requires IgnoreOnly(rules)
    ensures (forall decode, p :: During(lib, rules, decode, p) == Afterwards(lib, rules, decode, p)) <==>
            ReachesDown(rules)
  {
    if ReachesDown(rules) {
      forall decode, p ensures During(lib, rules, decode, p) == Afterwards(lib, rules, decode, p) {
        ReachingDownAgrees(lib, rules, decode, p);
      }
    } else {
      var s: seq<string>, i: nat, t: seq<string> :|
        Ignored(rules, Place(s)) && !Ignored(rules, Place(s + [Itoa(i)] + t));
      var decode, p := CutLosesBelow(lib, rules, s, i, t);
    }
  }

  // ----- Rules that reach all the way down ------------------------------------------------------------------

  lemma SplitCons(c: char, s: string, sep: char)
    ensures Split([c] + s, sep) ==
            if c == sep then [""] + Split(s, sep) else [[c] + Split(s, sep)[0]] + Split(s, sep)[1..]
  {
    assert ([c] + s)[1..] == s;
  }

  lemma FirstPart(head: seq<string>, more: seq<string>)
    requires head != []
    ensures (head + more)[0] == head[0] && (head + more)[1..] == head[1..] + more
  {}

  lemma {:induction false} SplitConcat(x: string, sep: char, y: string)
    ensures Split(x + [sep] + y, sep) == Split(x, sep) + Split(y, sep)
  {
    if x == "" {
      SplitCons(sep, y, sep);
      assert x + [sep] + y == [sep] + y;
    } else {
      var rest, more := Split(x[1..], sep), Split(y, sep);
      SplitConcat(x[1..], sep, y);
      assert x == [x[0]] + x[1..] && x + [sep] + y == [x[0]] + (x[1..] + [sep] + y);
      SplitCons(x[0], x[1..], sep);
      SplitCons(x[0], x[1..] + [sep] + y, sep);
      FirstPart(rest, more);
      Associative([""], rest, more);
      Associative([[x[0]] + rest[0]], rest[1..], more);
    }
  }

  lemma SegmentsBelow(path: string, x: string)
    requires path != "" && path != "/"
    ensures Glob.Segments(path + "/" + x) == Glob.Segments(path) + Split(x, '/')
  {
    var core := if path[0] == '/' then path[1..] else path;
    var q := path + "/" + x;
    assert (if q[0] == '/' then q[1..] else q) == core + ['/'] + x;
    SplitConcat(core, '/', x);
    NonEmptySplit(core);
  }

  lemma NonEmptySplit(s: string)
    requires s != ""
    ensures Split(s, '/') != [""]
  {}

  /** A glob that ends in "**". */
  predicate Open(pattern: string) {
    var segments := Glob.Segments(Lower(pattern));
    segments != [] && segments[|segments| - 1] == "**"
  }

  /** A glob that ends in "**" matches everything below what it matches. */
  lemma OpenGlobReachesDown(pattern: string, path: string, below: string)
    requires Open(pattern)
    requires path != "" && path != "/" && Under(path, below)
    requires Glob.MatchesPath(pattern, path)
    ensures Glob.MatchesPath(pattern, below)
  {
    if path != below {
      var segments := Glob.Segments(Lower(pattern));
      var more := LowerBelow(path, below);
      OpenReaches(segments, Glob.Segments(Lower(path)), more);
    }
  }

  lemma LowerJoin(path: string, x: string)
    ensures Lower(path + "/" + x) == Lower(path) + "/" + Lower(x)
  {}

  lemma LowerBelow(path: string, below: string) returns (more: seq<string>)
    requires path != "" && path != "/" && path + "/" <= below
    ensures Glob.Segments(Lower(below)) == Glob.Segments(Lower(path)) + more
  {
    var x := below[|path| + 1..];
    assert below == path + "/" + x;
    LowerJoin(path, x);
    SegmentsBelow(Lower(path), Lower(x));
    more := Split(Lower(x), '/');
  }

  lemma OpenReaches(segments: seq<string>, s: seq<string>, more: seq<string>)
    requires segments != [] && segments[|segments| - 1] == "**" && Glob.Matches(segments, s)
    ensures Glob.Matches(segments, s + more)
  {
    var head := segments[..|segments| - 1];
    assert segments == head + ["**"];
    Glob.StarAcceptsExtensions(head, s);
    var k :| 0 <= k <= |s| && Glob.Matches(head, s[..k]);
    assert (s + more)[..k] == s[..k];
    Glob.StarAcceptsExtensions(head, s + more);
  }

  /** A glob that matches no place in a body: its first segment is plain and not "body". */
  predicate OffBody(pattern: string) {
    var segments := Glob.Segments(Lower(pattern));
    segments != [] && segments[0] !in {"*", "**", "body"}
  }

  lemma LowerStays(s: string)
    requires forall i | 0 <= i < |s| :: !('A' <= s[i] <= 'Z')
    ensures Lower(s) == s
  {}

  lemma LowerConcat(x: string, y: string)
    ensures Lower(x + y) == Lower(x) + Lower(y)
  {}

  lemma LoweredPath(name: string, rest: string)
    requires Lower(name) == name
    ensures Lower("/" + (name + rest)) == "/" + (name + Lower(rest))
  {
    LowerConcat("/", name + rest);
    LowerConcat(name, rest);
    LowerStays("/");
  }

  lemma FirstOfSplit(name: string, rest: string)
    requires name != "" && '/' !in name && (rest == "" || rest[0] == '/')
    ensures Split(name + rest, '/') != [""] && Split(name + rest, '/')[0] == name
  {
    if rest == "" {
      assert name + rest == name;
      SplitSegment(name, '/', "");
    } else {
      assert name + rest == name + ['/'] + rest[1..];
      SplitSegment(name, '/', rest[1..]);
    }
  }

  /** The first segment of a path, whatever follows it. */
  lemma FirstSegment(name: string, rest: string)
    requires name != "" && '/' !in name && Lower(name) == name
    requires rest == "" || rest[0] == '/'
    ensures var segments := Glob.Segments(Lower("/" + (name + rest))); segments != [] && segments[0] == name
  {
    var q := name + Lower(rest);
    LoweredPath(name, rest);
    assert ("/" + q)[1..] == q;
    FirstOfSplit(name, Lower(rest));
  }

  lemma BodySegments(tokens: seq<string>)
    ensures var segments := Glob.Segments(Lower(Place(tokens))); segments != [] && segments[0] == "body"
  {
    var name := PATH_BODY[1..];
    LowerStays(name);
    Associative("/", name, Pointer(tokens));
    assert PATH_BODY == "/" + name;
    FirstSegment(name, Pointer(tokens));
  }

  lemma OffBodyMisses(pattern: string, tokens: seq<string>)
    requires OffBody(pattern)
    ensures !Glob.MatchesPath(pattern, Place(tokens))
  {
    BodySegments(tokens);
  }

  lemma OpenOrOffBodyReachesDown(rules: Ruleset)
    requires forall i | 0 <= i < |rules| :: Open(rules[i].path) || OffBody(rules[i].path)
    ensures ReachesDown(rules)
  {
    forall s: seq<string>, i: nat, t: seq<string> | Ignored(rules, Place(s))
      ensures Ignored(rules, Place(s + [Itoa(i)] + t))
    {
      MatchIsLast(rules, Place(s));
      var k: nat :| Governs(rules, Place(s), k);
      if OffBody(rules[k].path) { OffBodyMisses(rules[k].path, s); }
      ItemsAreUnder(s, i, t);
      OpenGlobReachesDown(rules[k].path, Place(s), Place(s + [Itoa(i)] + t));
      MatchIsLast(rules, Place(s + [Itoa(i)] + t));
    }
  }

  /** So the passes agree when every glob ends in "**" or is not about bodies. */
  lemma OpenIgnoresAgree(lib: Library, rules: Ruleset, decode: string -> Option<Json>, p: Pair)
    requires IgnoreOnly(rules)
    requires forall i | 0 <= i < |rules| :: Open(rules[i].path) || OffBody(rules[i].path)
    ensures During(lib, rules, decode, p) == Afterwards(lib, rules, decode, p)
  {
    OpenOrOffBodyReachesDown(rules);
    ReachingDownAgrees(lib, rules, decode, p);
  }

  lemma HeaderGlobIsOffBody(name: string)
    ensures OffBody(PATH_HEADERS + "/" + name)
  {
    var headers := PATH_HEADERS[1..];
    LowerStays(headers);
    assert PATH_HEADERS + "/" + name == "/" + (headers + ("/" + name));
    FirstSegment(headers, "/" + name);
    assert headers[0] == 'h';
  }

  /** As with the ruleset a fresh install starts from. */
  lemma DefaultPassesAgree(lib: Library, decode: string -> Option<Json>, p: Pair)
    ensures During(lib, DEFAULT, decode, p) == Afterwards(lib, DEFAULT, decode, p)
  {
    forall i | 0 <= i < |DEFAULT| ensures OffBody(DEFAULT[i].path) {
      HeaderGlobIsOffBody(DEFAULT_HEADERS[i]);
    }
    OpenIgnoresAgree(lib, DEFAULT, decode, p);
  }

  // ----- A rule that does not reach down ------------------------------------------------------------------

  /** A pattern without "*" and "**" matches only itself. */
  lemma {:induction false} LiteralMatchesItself(pattern: seq<string>, path: seq<string>)
    requires forall i | 0 <= i < |pattern| :: pattern[i] != "*" && pattern[i] != "**"
    ensures Glob.Matches(pattern, path) ==> pattern == path
  {
    if pattern == [] || path == [] || !Glob.Matches(pattern, path) {
    } else {
      LiteralMatchesItself(pattern[1..], path[1..]);
      assert pattern == [pattern[0]] + pattern[1..] && path == [path[0]] + path[1..];
    }
  }

  lemma {:induction false} SplitKeepsOut(s: string, sep: char, c: char)
    requires c !in s
    ensures forall part | part in Split(s, sep) :: c !in part
  {
    if s == "" {
    } else {
      SplitKeepsOut(s[1..], sep, c);
    }
  }

  lemma StarlessSegments(path: string)
    requires '*' !in path
    ensures forall i | 0 <= i < |Glob.Segments(Lower(path))| ::
              Glob.Segments(Lower(path))[i] != "*" && Glob.Segments(Lower(path))[i] != "**"
  {
    var q := Lower(path);
    assert '*' !in q by {
      forall i | 0 <= i < |q| ensures q[i] != '*' { assert path[i] in path; }
    }
    var core := if q != "" && q[0] == '/' then q[1..] else q;
    SplitKeepsOut(core, '/', '*');
    forall i | 0 <= i < |Glob.Segments(q)| ensures '*' !in Glob.Segments(q)[i] {
      assert Glob.Segments(q)[i] in Split(core, '/');
    }
  }

  /** Ignoring an array by its plain path, such as /body/items, does not ignore its items, so the
      two passes disagree on a pair whose arrays differ in an item. */
  lemma PlainIgnoreDisagrees(lib: Library, s: seq<string>, i: nat)
      returns (decode: string -> Option<Json>, p: Pair)
    requires '*' !in Place(s)
    ensures During(lib, [Ignoring(Place(s))], decode, p) != Afterwards(lib, [Ignoring(Place(s))], decode, p)
  {
    var rules, item := [Ignoring(Place(s))], Place(s + [Itoa(i)] + []);
    Glob.PathMatchesItself(Place(s), Place(s));
    OnlyRuleGoverns(rules[0], Place(s));
    ItemIsNotArray(s, i);
    assert Match(rules, item).None? by { MatchIsLast(rules, item); }
    decode, p := CutLosesBelow(lib, rules, s, i, []);
  }

  lemma ItemIsNotArray(s: seq<string>, i: nat)
    requires '*' !in Place(s)
    ensures !Glob.MatchesPath(Place(s), Place(s + [Itoa(i)] + []))
  {
    assert s + [Itoa(i)] + [] == s + [Itoa(i)];
    PointerConcat(s, [Itoa(i)]);
    Associative(PATH_BODY, Pointer(s), Pointer([Itoa(i)]));
    PathStep(Place(s), Itoa(i), []);
    assert [Itoa(i)] + [] == [Itoa(i)];
    StarlessSegments(Place(s));
    LowerJoin(Place(s), Escape(Itoa(i)));
    assert Place(s) + Pointer([Itoa(i)]) == Place(s) + "/" + Escape(Itoa(i));
    SegmentsBelow(Lower(Place(s)), Lower(Escape(Itoa(i))));
    LiteralMatchesItself(Glob.Segments(Lower(Place(s))), Glob.Segments(Lower(Place(s + [Itoa(i)]))));
  }
}
