/** What the noise rules promise, and where the promise ends. */
module NoiseLaws {
  import opened Text
  import opened Sorting
  import opened Json
  import opened Collector
  import opened Diff
  import opened DiffPaths
  import opened DiffRules
  import opened Noise
  import Glob

  // ----- Which rule governs ------------------------------------------------------------------------

  /** Of the first n rules, rule i fits and no later one does. */
  ghost predicate LastToFit(rules: Ruleset, n: nat, fits: Rule -> bool, i: nat)
    requires n <= |rules|
  {
    i < n && fits(rules[i]) && forall j | i < j < n :: !fits(rules[j])
  }

  lemma {:induction false} LastFitIsLast(rules: Ruleset, n: nat, fits: Rule -> bool)
    requires n <= |rules|
    ensures forall i: nat | LastToFit(rules, n, fits, i) :: LastFit(rules[..n], fits) == Some(rules[i])
    ensures LastFit(rules[..n], fits).Some? ==> exists i: nat :: LastToFit(rules, n, fits, i)
    ensures LastFit(rules[..n], fits).None? <==> forall i | 0 <= i < n :: !fits(rules[i])
  {
    if n == 0 {
    } else {
      var m := n - 1;
      LastFitIsLast(rules, m, fits);
      assert rules[..n] == rules[..m] + [rules[m]];
      LastFitAppend(rules[..m], rules[m], fits);
      if fits(rules[m]) {
        assert LastToFit(rules, n, fits, m);
      } else if LastFit(rules[..m], fits).Some? {
        var i: nat :| LastToFit(rules, m, fits, i);
        assert LastToFit(rules, n, fits, i);
      }
    }
  }

  /** Rule i governs a path: its glob matches and no later one does. */
  ghost predicate Governs(rules: Ruleset, path: string, i: nat) {
    && i < |rules| && Glob.MatchesPath(rules[i].path, path)
    && forall j | i < j < |rules| :: !Glob.MatchesPath(rules[j].path, path)
  }

  /** The governing rule is found, and none exactly when no glob matches. */
  lemma MatchIsLast(rules: Ruleset, path: string)
    ensures forall i: nat | Governs(rules, path, i) :: Match(rules, path) == Some(rules[i])
    ensures Match(rules, path).Some? ==> exists i: nat :: Governs(rules, path, i)
    ensures Match(rules, path).None? <==> forall i | 0 <= i < |rules| :: !Glob.MatchesPath(rules[i].path, path)
  {
    var fits := Matching(path);
    LastFitIsLast(rules, |rules|, fits);
    assert rules[..|rules|] == rules;
    forall i: nat ensures Governs(rules, path, i) <==> LastToFit(rules, |rules|, fits, i) {}
    forall i | 0 <= i < |rules| ensures fits(rules[i]) <==> Glob.MatchesPath(rules[i].path, path) {}
  }

  /** Merged rules: an operator's rule governs wherever it matches, a default elsewhere. */
  lemma MergeOverrides(rules: Ruleset, more: Ruleset, path: string)
    ensures Match(Merge(rules, more), path) ==
            if Match(more, path).Some? then Match(more, path) else Match(rules, path)
  {
    LastFitOfMerged(rules, more, Matching(path));
  }

  lemma {:induction false} LastFitOfMerged(rules: Ruleset, more: Ruleset, fits: Rule -> bool)
    ensures LastFit(rules + more, fits) ==
            if LastFit(more, fits).Some? then LastFit(more, fits) else LastFit(rules, fits)
  {
    if more == [] {
      assert rules + more == rules;
    } else {
      var n := |more| - 1;
      LastFitOfMerged(rules, more[..n], fits);
      assert more == more[..n] + [more[n]] && rules + more == (rules + more[..n]) + [more[n]];
      LastFitAppend(rules + more[..n], more[n], fits);
      LastFitAppend(more[..n], more[n], fits);
    }
  }

  // ----- Normalised equality ---------------------------------------------------------------------------

  /** What a normaliser makes of a value it can judge. */
  datatype Form = Rounded(n: int) | Ordered(strings: seq<string>) | Folded(s: string) | Count(len: nat)

  function NormalForm(lib: Library, n: Normaliser, v: Json): Option<Form> {
    match n
    case Round(places) =>
      var x := ToFloat(lib.num, v);
      if x.None? then None else Some(Rounded(RoundAt(x.value, Pow10(places))))
    case SortItems => if v.Arr? then Some(Ordered(Sort(Leq, Canonicals(lib.canon, v.items)))) else None
    case TrimSpace => if v.Str? then Some(Folded(Trim(v.s))) else None
    case LowerCase => if v.Str? then Some(Folded(Lower(v.s))) else None
    case Length => var k := LengthOf(v); if k.None? then None else Some(Count(k.value))
  }

  /** Every normaliser compares normal forms, and a value it cannot judge equals nothing. So
      normalised equality does not depend on the order of its arguments, and it chains. */
  lemma NormalisedEquality(lib: Library, n: Normaliser, v: Json, w: Json)
    ensures EqualUnder(lib, n, v, w) <==> NormalForm(lib, n, v).Some? && NormalForm(lib, n, v) == NormalForm(lib, n, w)
  {
    match n
    case Round(places) =>
    case SortItems =>
      var x, y := SortedStrings(lib.canon, v), SortedStrings(lib.canon, w);
      assert EqualSorted(lib.canon, v, w) <==> x.Some? && x == y;
    case TrimSpace =>
    case LowerCase =>
    case Length =>
  }

  lemma RulesAreImpartial(lib: Library, rules: Ruleset, decode: string -> Option<Json>)
    ensures Impartial(EngineWith(lib, rules, decode))
  {
    var e := EngineWith(lib, rules, decode);
    forall p, v, w ensures e.Asks(p, v, w) == e.Asks(p, w, v) {
      var r := Match(rules, p);
      if r.Some? && ParseNormalise(r.value.normalise).Some? {
        NormalisedEquality(lib, ParseNormalise(r.value.normalise).value, v, w);
        NormalisedEquality(lib, ParseNormalise(r.value.normalise).value, w, v);
      }
    }
  }

  /** Under any rules, and under none, exchanging primary and shadow gives the same differences
      in the same order with their sides exchanged, and hides as much. */
  lemma SidesAreSymmetricUnderRules(lib: Library, rules: Ruleset, decode: string -> Option<Json>, p: Pair)
    ensures var e := EngineWith(lib, rules, decode);
            forall f | f in {e, e.Raw()} ::
              var r, t := ResultOf(f, p), ResultOf(f, Pair(p.correlId, p.shadow, p.primary));
              t.differences == SwapDifferences(r.differences) && t.suppressed == r.suppressed
  {
    var e := EngineWith(lib, rules, decode);
    RulesAreImpartial(lib, rules, decode);
    SidesAreSymmetric(e, p);
    SidesAreSymmetric(e.Raw(), p);
  }

  lemma {:induction false} CountMapped(canon: Json -> string, xs: seq<Json>, v: Json)
    requires forall x, y :: canon(x) == canon(y) ==> x == y
    ensures multiset(Canonicals(canon, xs))[canon(v)] == multiset(xs)[v]
  {
    if xs == [] {
      assert Canonicals(canon, xs) == [];
    } else {
      var n := |xs| - 1;
      CountMapped(canon, xs[..n], v);
      assert xs == xs[..n] + [xs[n]];
      assert Canonicals(canon, xs) == Canonicals(canon, xs[..n]) + [canon(xs[n])];
    }
  }

  /** `sort` accepts two values exactly when both are arrays and their renderings are the
      same up to order; with faithful renderings, when their items are. */
  lemma SortAcceptsPermutations(lib: Library, v: Json, w: Json)
    ensures EqualUnder(lib, SortItems, v, w) <==>
            v.Arr? && w.Arr? &&
            multiset(Canonicals(lib.canon, v.items)) == multiset(Canonicals(lib.canon, w.items))
    ensures lib.Faithful() ==>
              (EqualUnder(lib, SortItems, v, w) <==> v.Arr? && w.Arr? && multiset(v.items) == multiset(w.items))
  {
    if v.Arr? && w.Arr? {
      var x, y := Canonicals(lib.canon, v.items), Canonicals(lib.canon, w.items);
      LeqTotalPreorder();
      SortSorted(Leq, x);
      SortSorted(Leq, y);
      if multiset(x) == multiset(y) {
        OneSortedArrangement(Sort(Leq, x), Sort(Leq, y));
      }
      if lib.Faithful() {
        FaithfulPermutation(lib, v.items, w.items);
      }
    }
  }

  lemma SameRenderings(lib: Library, xs: seq<Json>, ys: seq<Json>, s: string)
    requires lib.Faithful() && multiset(xs) == multiset(ys) && s in Canonicals(lib.canon, xs)
    ensures multiset(Canonicals(lib.canon, xs))[s] == multiset(Canonicals(lib.canon, ys))[s]
  {
    var x := Canonicals(lib.canon, xs);
    var k :| 0 <= k < |x| && x[k] == s;
    CountMapped(lib.canon, xs, xs[k]);
    CountMapped(lib.canon, ys, xs[k]);
  }

  lemma FaithfulPermutation(lib: Library, xs: seq<Json>, ys: seq<Json>)
    requires lib.Faithful()
    ensures multiset(Canonicals(lib.canon, xs)) == multiset(Canonicals(lib.canon, ys)) <==> multiset(xs) == multiset(ys)
  {
    var x, y := Canonicals(lib.canon, xs), Canonicals(lib.canon, ys);
    if multiset(x) == multiset(y) {
      forall v ensures multiset(xs)[v] == multiset(ys)[v] {
        CountMapped(lib.canon, xs, v);
        CountMapped(lib.canon, ys, v);
      }
    } else if multiset(xs) == multiset(ys) {
      forall s ensures multiset(x)[s] == multiset(y)[s] {
        InMultiset(x, s);
        InMultiset(y, s);
        if s in x { SameRenderings(lib, xs, ys, s); }
        if s in y { SameRenderings(lib, ys, xs, s); }
      }
    }
  }

  /** Rounding takes the nearest integer. */
  lemma RoundIsNearest(x: real)
    ensures -0.5 <= RoundHalfAway(x) as real - x <= 0.5
  {}

  /** Numbers that `round:N` takes for equal are less than one unit of the last place apart. */
  lemma RoundedEqualMeansClose(num: Valuation, places: nat, v: Json, w: Json)
    requires EqualRounded(num, places, v, w)
    ensures var x, y := ToFloat(num, v).value, ToFloat(num, w).value;
            -1.0 < (x - y) * Pow10(places) < 1.0
  {
    RoundAtClose(ToFloat(num, v).value, ToFloat(num, w).value, Pow10(places));
  }

  lemma RoundAtClose(x: real, y: real, shift: real)
    requires RoundAt(x, shift) == RoundAt(y, shift)
    ensures -1.0 < (x - y) * shift < 1.0
  {
    SameRoundClose(x * shift, y * shift);
    assert (x - y) * shift == x * shift - y * shift;
  }

  lemma SameRoundClose(x: real, y: real)
    requires RoundHalfAway(x) == RoundHalfAway(y)
    ensures -1.0 < x - y < 1.0
  {
    RoundIsNearest(x);
    RoundIsNearest(y);
    if x >= 0.0 && y < 0.0 {
      assert (x + 0.5).Floor >= 0 && (-y + 0.5).Floor >= 0;
    }
  }

  // ----- Values that are equal already --------------------------------------------------------------

  /** Values with the same rendering are hidden exactly where the governing rule ignores: a
      normalising rule never hides them, an ignoring rule does not look. */
  lemma EqualValuesAreHiddenByIgnoreOnly(lib: Library, rules: Ruleset, path: string, v: Json, w: Json)
    requires lib.canon(v) == lib.canon(w)
    ensures Suppress(lib, rules, path, v, w) <==> Match(rules, path).Some? && Match(rules, path).value.ignore
  {}

  /** A rule gives up two arrays that the comparison takes for equal: it ignores, or their
      renderings differ and it compares lengths, or sorts renderings that are the same up to order. */
  ghost predicate GivesUpEqualArrays(lib: Library, rule: Rule, v: Json, w: Json)
    requires v.Arr? && w.Arr?
  {
    || rule.ignore
    || (lib.canon(v) != lib.canon(w) &&
        match ParseNormalise(rule.normalise)
        case Some(Length) => true
        case Some(SortItems) =>
          multiset(Canonicals(lib.canon, v.items)) == multiset(Canonicals(lib.canon, w.items))
        case _ => false)
  }

  /** Two arrays that the comparison takes for equal are suppressed if and only if the governing
      rule is of that kind. */
  lemma EqualArraysSuppressed(lib: Library, rules: Ruleset, path: string, v: Json, w: Json)
    requires v.Arr? && w.Arr? && Equiv(lib.num, v, w)
    ensures Suppress(lib, rules, path, v, w) <==>
            Match(rules, path).Some? && GivesUpEqualArrays(lib, Match(rules, path).value, v, w)
  {
    SortAcceptsPermutations(lib, v, w);
  }

  /** So comparing two such arrays hides and counts something, where without rules there is
      nothing to report, if and only if the governing rule is of that kind. */
  lemma EqualArraysHidden(lib: Library, rules: Ruleset, decode: string -> Option<Json>, path: string, v: Json, w: Json)
    requires v.Arr? && w.Arr? && Equiv(lib.num, v, w)
    ensures Walk(EngineWith(lib, rules, decode).Raw(), path, v, w) == []
    ensures Hid(path, v, w) in Walk(EngineWith(lib, rules, decode), path, v, w) <==>
            Match(rules, path).Some? && GivesUpEqualArrays(lib, Match(rules, path).value, v, w)
  {
    var e := EngineWith(lib, rules, decode);
    EqualArraysSuppressed(lib, rules, path, v, w);
    SilentIffEquivalent(e.Raw(), path, v, w);
    if !e.Asks(path, v, w) && Hid(path, v, w) in Walk(e, path, v, w) {
      var tokens := Locate(e, path, v, w, Hid(path, v, w));
    }
  }

  /** A difference reported at a place makes the values there diverge. */
  lemma GenuineDiverges(num: Valuation, d: Difference, x: Option<Json>, y: Option<Json>)
    requires Genuine(num, d, x, y)
    ensures Diverge(num, x, y)
  {}

  lemma {:induction false} ResolveFurther(v: Json, s: seq<string>, t: seq<string>)
    requires Resolve(v, s).Some?
    ensures Resolve(v, s + t) == Resolve(Resolve(v, s).value, t)
  {
    if s == [] {
      assert s + t == t;
    } else {
      assert (s + t)[0] == s[0] && (s + t)[1..] == s[1..] + t;
      ResolveFurther(Lookup(v, s[0]).value, s[1..], t);
    }
  }

  /** Where values diverge at s + t, the values found at s diverge at t. */
  lemma DivergesBelow(num: Valuation, a: Json, b: Json, s: seq<string>, t: seq<string>, v: Json, w: Json)
    requires Resolve(a, s) == Some(v) && Resolve(b, s) == Some(w)
    requires Diverge(num, Resolve(a, s + t), Resolve(b, s + t))
    ensures Diverge(num, Resolve(v, t), Resolve(w, t))
  {
    ResolveFurther(a, s, t);
    ResolveFurther(b, s, t);
  }

  /** A raw difference is a divergence at some position. */
  lemma RawDiverges(e: Engine, path: string, a: Json, b: Json, d: Difference) returns (tokens: seq<string>)
    requires Found(d) in Walk(e, path, a, b)
    ensures d.path == path + Pointer(tokens) && Diverge(e.num, Resolve(a, tokens), Resolve(b, tokens))
  {
    tokens := Locate(e, path, a, b, Found(d));
    GenuineDiverges(e.num, d, Resolve(a, tokens), Resolve(b, tokens));
  }

  lemma CutPosition(e: Engine, path: string, a: Json, b: Json, h: Event) returns (tokens: seq<string>)
    requires h in Walk(e, path, a, b) && CutsArrays(h)
    ensures h.path == path + Pointer(tokens)
    ensures Resolve(a, tokens) == Some(h.primary) && Resolve(b, tokens) == Some(h.shadow)
  {
    tokens := Locate(e, path, a, b, h);
    AboutCut(e, h, Resolve(a, tokens), Resolve(b, tokens));
  }

  lemma AboutCut(e: Engine, h: Event, x: Option<Json>, y: Option<Json>)
    requires CutsArrays(h) && About(e, h, x, y)
    ensures x == Some(h.primary) && y == Some(h.shadow)
  {}

  /** Below two equivalent arrays that were hidden there is no raw difference. */
  lemma NothingBelowEqualArrays(e: Engine, path: string, a: Json, b: Json, h: Event, d: Difference)
    requires h in Walk(e, path, a, b) && CutsArrays(h) && Equiv(e.num, h.primary, h.shadow)
    requires Found(d) in Walk(e.Raw(), path, a, b)
    ensures !Under(h.path, d.path)
  {
    var s := CutPosition(e, path, a, b, h);
    var t := RawDiverges(e.Raw(), path, a, b, d);
    if Under(h.path, d.path) {
      UnderAlongTokens(path, s, t);
      EquivalentBelow(e.num, a, b, s, t, h.primary, h.shadow);
    }
  }

  lemma EquivalentBelow(num: Valuation, a: Json, b: Json, s: seq<string>, t: seq<string>, v: Json, w: Json)
    requires Resolve(a, s) == Some(v) && Resolve(b, s) == Some(w) && s <= t && Equiv(num, v, w)
    ensures !Diverge(num, Resolve(a, t), Resolve(b, t))
  {
    var below := t[|s|..];
    assert t == s + below;
    if Diverge(num, Resolve(a, t), Resolve(b, t)) {
      DivergesBelow(num, a, b, s, below, v, w);
      EquivalentNowhereDiverge(Engine(num, NoRules, (body: string) => None), "", v, w, below);
    }
  }

  lemma EquivalentNowhereDiverge(e: Engine, path: string, v: Json, w: Json, tokens: seq<string>)
    requires e.suppressor.NoRules? && Equiv(e.num, v, w)
    ensures !Diverge(e.num, Resolve(v, tokens), Resolve(w, tokens))
  {
    SilentIffEquivalent(e, path, v, w);
    if Diverge(e.num, Resolve(v, tokens), Resolve(w, tokens)) {
      var at, d := EveryDivergenceIsReported(e, path, v, w, tokens);
    }
  }

  /** What is found in two hidden arrays by themselves is part of the raw comparison. */
  lemma {:induction false} CutIsRaw(e: Engine, path: string, a: Json, b: Json, h: Event, ev: Event)
    requires h in Walk(e, path, a, b) && CutsArrays(h)
    requires ev in Walk(e.Raw(), h.path, h.primary, h.shadow)
    ensures ev in Walk(e.Raw(), path, a, b)
    decreases a
  {
    if !(a.Arr? && b.Arr? && e.Asks(path, a, b)) {
      HereCutsNothing(e, path, a, b, h);
      var kids := Children(a, b);
      var i := FromWhichChild(e, path, a, kids, h);
      var kid := kids[i];
      if kid.left.Some? && kid.right.Some? {
        CutIsRaw(e, ChildPath(path, kid.token), kid.left.value, kid.right.value, h, ev);
        ChildIsWalked(e.Raw(), path, a, kids, i, ev);
      } else {
        OneSidedCutsNothing(e, path, a, kid, h);
      }
    }
  }

  lemma HereCutsNothing(e: Engine, path: string, a: Json, b: Json, h: Event)
    requires CutsArrays(h)
    ensures h !in Here(e, path, a, b)
  {}

  /** Something hidden by a comparison hides no raw difference, at its path or below it, if and
      only if it is two whole arrays that are equivalent; and then the governing rule is of the
      kind that gives up equal arrays. */
  lemma HiddenForNothing(lib: Library, rules: Ruleset, decode: string -> Option<Json>,
                         path: string, a: Json, b: Json, h: Event)
    requires h in Walk(EngineWith(lib, rules, decode), path, a, b) && h.Hid?
    ensures (forall d | Found(d) in Walk(EngineWith(lib, rules, decode).Raw(), path, a, b) :: !Under(h.path, d.path))
            <==> CutsArrays(h) && Equiv(lib.num, h.primary, h.shadow)
    ensures CutsArrays(h) && Equiv(lib.num, h.primary, h.shadow) ==>
              Match(rules, h.path).Some? && GivesUpEqualArrays(lib, Match(rules, h.path).value, h.primary, h.shadow)
  {
    var e := EngineWith(lib, rules, decode);
    var raw := Walk(e.Raw(), path, a, b);
    if !CutsArrays(h) {
      HiddenIsRaw(e, path, a, b, h);
      var d :| Found(d) in raw && d.path == h.path && d.primary == h.primary && d.shadow == h.shadow;
      assert Under(h.path, d.path);
    } else if Equiv(lib.num, h.primary, h.shadow) {
      forall d | Found(d) in raw ensures !Under(h.path, d.path) { NothingBelowEqualArrays(e, path, a, b, h, d); }
      var tokens := Locate(e, path, a, b, h);
      EqualArraysSuppressed(lib, rules, h.path, h.primary, h.shadow);
    } else {
      var d := SomethingBelowCut(e, path, a, b, h);
      assert Found(d) in raw && Under(h.path, d.path);
    }
  }

  /** Below two hidden arrays that are not equivalent there is a raw difference. */
  lemma SomethingBelowCut(e: Engine, path: string, a: Json, b: Json, h: Event) returns (d: Difference)
    requires h in Walk(e, path, a, b) && CutsArrays(h) && !Equiv(e.num, h.primary, h.shadow)
    ensures Found(d) in Walk(e.Raw(), path, a, b) && Under(h.path, d.path)
  {
    SilentIffEquivalent(e.Raw(), h.path, h.primary, h.shadow);
    var ev := Walk(e.Raw(), h.path, h.primary, h.shadow)[0];
    assert ev in Walk(e.Raw(), h.path, h.primary, h.shadow);
    var tokens := Locate(e.Raw(), h.path, h.primary, h.shadow, ev);
    d := ev.d;
    WalkIsUnder(e.Raw(), h.path, h.primary, h.shadow, d);
    CutIsRaw(e, path, a, b, h, ev);
  }

  lemma HiddenHereIsRaw(e: Engine, path: string, a: Json, b: Json, h: Event)
    requires h in Here(e, path, a, b) && h.Hid?
    ensures exists d :: Found(d) in Walk(e.Raw(), path, a, b)
                        && d.path == h.path && d.primary == h.primary && d.shadow == h.shadow
  {
    var ev := Here(e.Raw(), path, a, b)[0];
    assert ev in Here(e.Raw(), path, a, b);
    assert Found(ev.d) in Walk(e.Raw(), path, a, b);
  }

  lemma {:induction false} HiddenIsRaw(e: Engine, path: string, a: Json, b: Json, h: Event)
    requires h in Walk(e, path, a, b) && h.Hid? && !CutsArrays(h)
    ensures exists d :: Found(d) in Walk(e.Raw(), path, a, b)
                        && d.path == h.path && d.primary == h.primary && d.shadow == h.shadow
    decreases a, 1
  {
    if h in Here(e, path, a, b) {
      HiddenHereIsRaw(e, path, a, b, h);
    } else {
      var kids := Children(a, b);
      var i := FromWhichChild(e, path, a, kids, h);
      HiddenIsRawInChild(e, path, a, kids[i], h);
      var d :| Found(d) in WalkChild(e.Raw(), path, a, kids[i])
               && d.path == h.path && d.primary == h.primary && d.shadow == h.shadow;
      ChildIsWalked(e.Raw(), path, a, kids, i, Found(d));
    }
  }

  lemma {:induction false} HiddenIsRawInChild(e: Engine, path: string, a: Json, kid: Child, h: Event)
    requires kid.left.Some? ==> kid.left.value < a
    requires h in WalkChild(e, path, a, kid) && h.Hid? && !CutsArrays(h)
    ensures exists d :: Found(d) in WalkChild(e.Raw(), path, a, kid)
                        && d.path == h.path && d.primary == h.primary && d.shadow == h.shadow
    decreases a, 0
  {
    if kid.left.Some? && kid.right.Some? {
      HiddenIsRaw(e, ChildPath(path, kid.token), kid.left.value, kid.right.value, h);
    } else {
      var ev := WalkChild(e.Raw(), path, a, kid)[0];
      assert Found(ev.d) in WalkChild(e.Raw(), path, a, kid);
    }
  }

  /** Two equal arrays at an ignored path are hidden and counted. */
  lemma IgnoreCountsEqualArrays(lib: Library, rules: Ruleset, decode: string -> Option<Json>,
                                path: string, items: seq<Json>)
    requires Match(rules, path).Some? && Match(rules, path).value.ignore
    ensures var e := EngineWith(lib, rules, decode);
            && Walk(e, path, Arr(items), Arr(items)) == [Hid(path, Arr(items), Arr(items))]
            && Walk(e.Raw(), path, Arr(items), Arr(items)) == []
  {
    EquivReflexive(lib.num, Arr(items));
    EqualArraysHidden(lib, rules, decode, path, Arr(items), Arr(items));
  }

  lemma OnlyRuleGoverns(rule: Rule, path: string)
    requires Glob.MatchesPath(rule.path, path)
    ensures Match([rule], path) == Some(rule)
  {}

  /** The only rule there is, at the path it names. */
  lemma RuleOfItsOwnHides(lib: Library, decode: string -> Option<Json>, rule: Rule, v: Json, w: Json)
    requires v.Arr? && w.Arr? && Equiv(lib.num, v, w) && GivesUpEqualArrays(lib, rule, v, w)
    ensures var e := EngineWith(lib, [rule], decode);
            Walk(e, rule.path, v, w) == [Hid(rule.path, v, w)] && Walk(e.Raw(), rule.path, v, w) == []
  {
    Glob.PathMatchesItself(rule.path, rule.path);
    OnlyRuleGoverns(rule, rule.path);
    EqualArraysSuppressed(lib, [rule], rule.path, v, w);
    EqualArraysHidden(lib, [rule], decode, rule.path, v, w);
  }

  lemma SwappedBag(s: string, t: string)
    ensures multiset([s, t]) == multiset([t, s])
  {}

  lemma SwappedRenderings(canon: Json -> string, x: Json, y: Json)
    ensures multiset(Canonicals(canon, [x, y])) == multiset(Canonicals(canon, [y, x]))
  {
    assert Canonicals(canon, [x, y]) == [canon(x), canon(y)];
    assert Canonicals(canon, [y, x]) == [canon(y), canon(x)];
    SwappedBag(canon(x), canon(y));
  }

  lemma SwappedDiffer(canon: Json -> string, x: Json, y: Json)
    requires forall v, w :: canon(v) == canon(w) ==> v == w
    requires x != y
    ensures canon(Arr([x, y])) != canon(Arr([y, x]))
  {
    assert [x, y][0] != [y, x][0];
  }

  lemma SwappedEquivalent(num: Valuation, x: Json, y: Json)
    requires Equiv(num, x, y) && Equiv(num, y, x)
    ensures Equiv(num, Arr([x, y]), Arr([y, x]))
  {}

  lemma SwappedIsGivenUp(lib: Library, path: string, x: Json, y: Json)
    requires lib.Faithful() && x != y && Equiv(lib.num, x, y)
    ensures var v, w := Arr([x, y]), Arr([y, x]);
            Equiv(lib.num, v, w) && GivesUpEqualArrays(lib, Rule(path, false, "sort"), v, w)
  {
    EquivSymmetric(lib.num, x, y);
    SwappedEquivalent(lib.num, x, y);
    SwappedDiffer(lib.canon, x, y);
    SwappedRenderings(lib.canon, x, y);
  }

  /** Under a `sort` rule, two arrays with the same items in another order and another spelling,
      such as 1 and 1.0, are taken for equal by the comparison, hidden and counted. */
  lemma SortCountsEqualArrays(lib: Library, decode: string -> Option<Json>, path: string, x: Json, y: Json)
    requires lib.Faithful() && x != y && Equiv(lib.num, x, y)
    ensures var v, w := Arr([x, y]), Arr([y, x]);
            var e := EngineWith(lib, [Rule(path, false, "sort")], decode);
            Walk(e, path, v, w) == [Hid(path, v, w)] && Walk(e.Raw(), path, v, w) == []
  {
    SwappedIsGivenUp(lib, path, x, y);
    RuleOfItsOwnHides(lib, decode, Rule(path, false, "sort"), Arr([x, y]), Arr([y, x]));
  }

  /** And under a `len` rule, already one item spelled differently is enough. */
  lemma LengthCountsEqualArrays(lib: Library, decode: string -> Option<Json>, path: string, x: Json, y: Json)
    requires lib.Faithful() && x != y && Equiv(lib.num, x, y)
    ensures var v, w := Arr([x]), Arr([y]);
            var e := EngineWith(lib, [Rule(path, false, "len")], decode);
            Walk(e, path, v, w) == [Hid(path, v, w)] && Walk(e.Raw(), path, v, w) == []
  {
    var v, w := Arr([x]), Arr([y]);
    assert v.items[0] != w.items[0];
    RuleOfItsOwnHides(lib, decode, Rule(path, false, "len"), v, w);
  }

  // ----- Structure survives the gentle rules -----------------------------------------------------------

  /** No rule ignores, and none compares lengths. */
  predicate Gentle(rules: Ruleset) {
    forall i | 0 <= i < |rules| :: !rules[i].ignore && ParseNormalise(rules[i].normalise) != Some(Length)
  }

  /** Neither type names nor item counts are numerals. */
  ghost predicate ReadsNumeralsOnly(num: Valuation) {
    && (forall v: Json :: num(TypeName(v)).None?)
    && (forall n: nat :: num(Itoa(n) + " items").None?)
    && num("valid JSON").None? && num("not JSON").None?
  }

  predicate Plain(s: string) {
    s != "" && !IsSpace(s[0]) && !IsSpace(s[|s| - 1]) && forall i | 0 <= i < |s| :: LowerChar(s[i]) == s[i]
  }

  lemma PlainStays(s: string)
    requires Plain(s)
    ensures Lower(s) == s && Trim(s) == s
  {}

  lemma TypeNamePlain(v: Json)
    ensures Plain(TypeName(v))
  {}

  lemma ItemsPlain(n: nat)
    ensures Plain(Itoa(n) + " items")
  {
    FormatValue(n, 10);
    var s, d := Itoa(n) + " items", Itoa(n);
    assert s[|s| - 1] == 's';
    assert s[0] == d[0] && d[0] in d;
    forall i | 0 <= i < |s| ensures LowerChar(s[i]) == s[i] {
      if i < |d| { assert s[i] == d[i] && d[i] in d; } else { assert s[i] == " items"[i - |d|]; }
    }
  }

  lemma PlainWordsDiffer(lib: Library, n: Normaliser, s: string, t: string)
    requires Plain(s) && Plain(t) && s != t && n != Length
    requires lib.num(s).None?
    ensures !EqualUnder(lib, n, Str(s), Str(t))
  {
    PlainStays(s);
    PlainStays(t);
  }

  /** What a shape difference or a missing key puts before the rules, no gentle rule hides. */
  lemma StructureIsNotHidden(lib: Library, n: Normaliser, d: Difference, x: Option<Json>, y: Option<Json>)
    requires ReadsNumeralsOnly(lib.num) && (n != Length || d.kind == BodyKey)
    requires d.kind == Shape || d.kind == BodyKey
    requires Genuine(lib.num, d, x, y)
    ensures !EqualUnder(lib, n, d.primary, d.shadow)
  {
    if d.kind == Shape {
      if && d.primary == Str(TypeName(x.value)) && d.shadow == Str(TypeName(y.value))
         && TypeName(x.value) != TypeName(y.value)
      {
        TypeNamePlain(x.value);
        TypeNamePlain(y.value);
        PlainWordsDiffer(lib, n, TypeName(x.value), TypeName(y.value));
      } else {
        var k, l := |x.value.items|, |y.value.items|;
        ItemsPlain(k);
        ItemsPlain(l);
        ItemsDiffer(k, l);
        PlainWordsDiffer(lib, n, Itoa(k) + " items", Itoa(l) + " items");
      }
    }
  }

  /** The structural differences of two bodies. */
  lemma StructuralDifference(e: Engine, p: Pair, d: Difference) returns (x: Option<Json>, y: Option<Json>)
    requires Found(d) in PairEvents(e, p) && (d.kind == Shape || d.kind == BodyKey)
    ensures Genuine(e.num, d, x, y) || OneIsJson(d)
  {
    TopOrBody(e, p, Found(d));
    if Found(d) in TopEvents(e, p) { TopEvent(e, p, Found(d)); }
    x, y := StructuralBodyDifference(e, p.primary.resBody, p.shadow.resBody, d);
  }

  /** One body decodes and the other does not. */
  predicate OneIsJson(d: Difference) {
    d.kind == Shape && {d.primary, d.shadow} == {Str("valid JSON"), Str("not JSON")}
  }

  lemma StructuralBodyDifference(e: Engine, p: string, s: string, d: Difference)
      returns (x: Option<Json>, y: Option<Json>)
    requires Found(d) in BodyEvents(e, p, s) && (d.kind == Shape || d.kind == BodyKey)
    ensures Genuine(e.num, d, x, y) || OneIsJson(d)
  {
    var a, b := e.decode(p), e.decode(s);
    x, y := None, None;
    if a.Some? && b.Some? {
      var tokens := Locate(e, PATH_BODY, a.value, b.value, Found(d));
      x, y := Resolve(a.value, tokens), Resolve(b.value, tokens);
    }
  }

  lemma JsonWordsDiffer(lib: Library, n: Normaliser)
    requires n != Length && ReadsNumeralsOnly(lib.num)
    ensures !EqualUnder(lib, n, Str("valid JSON"), Str("not JSON"))
    ensures !EqualUnder(lib, n, Str("not JSON"), Str("valid JSON"))
  {
    var s, t := "valid JSON", "not JSON";
    assert |Lower(s)| != |Lower(t)|;
    assert Trim(s) == s && Trim(t) == t;
  }

  lemma StructureStays(lib: Library, n: Normaliser, e: Engine, p: Pair, d: Difference)
    requires ReadsNumeralsOnly(lib.num) && n != Length && e.num == lib.num
    requires Found(d) in PairEvents(e, p) && (d.kind == Shape || d.kind == BodyKey)
    ensures !EqualUnder(lib, n, d.primary, d.shadow)
  {
    var x, y := StructuralDifference(e, p, d);
    if Genuine(e.num, d, x, y) {
      StructureIsNotHidden(lib, n, d, x, y);
    } else {
      JsonWordsDiffer(lib, n);
      OneOrTheOther(d.primary, d.shadow, Str("valid JSON"), Str("not JSON"));
    }
  }

  lemma OneOrTheOther(v: Json, w: Json, x: Json, y: Json)
    requires {v, w} == {x, y} && x != y
    ensures (v == x && w == y) || (v == y && w == x)
  {
    assert x in {v, w} && y in {v, w} && v in {x, y};
  }

  /** Under rules that only round, sort, trim or fold case, every type change, missing key and
      length change of the raw result is reported, unless it lies at or under two arrays that
      a `sort` rule gave up as permutations of each other. */
  lemma GentleRulesKeepStructure(lib: Library, rules: Ruleset, decode: string -> Option<Json>, p: Pair, d: Difference)
    requires Gentle(rules) && ReadsNumeralsOnly(lib.num)
    requires d.kind == Shape || d.kind == BodyKey
    requires d in ResultOf(EngineWith(lib, rules, decode).Raw(), p).differences
    ensures var e := EngineWith(lib, rules, decode);
            || d in ResultOf(e, p).differences
            || exists h :: h in PairEvents(e, p) && HidPermutation(lib, h) && Under(h.path, d.path)
  {
    var e := EngineWith(lib, rules, decode);
    RulesOnlyTakeAway(e, p);
    if d !in ResultOf(e, p).differences {
      var h :| h in PairEvents(e, p) && Covers(h, d);
      HiddenWasAsked(e, p, h);
      var n := GentleRule(lib, rules, h.path, h.primary, h.shadow);
      if h == Hid(d.path, d.primary, d.shadow) {
        ReportedIsFound(PairEvents(e.Raw(), p), d);
        StructureStays(lib, n, e.Raw(), p, d);
      } else {
        SortAcceptsPermutations(lib, h.primary, h.shadow);
      }
    }
  }

  ghost predicate HidPermutation(lib: Library, h: Event) {
    && h.Hid? && h.primary.Arr? && h.shadow.Arr?
    && multiset(Canonicals(lib.canon, h.primary.items)) == multiset(Canonicals(lib.canon, h.shadow.items))
  }

  lemma GentleRule(lib: Library, rules: Ruleset, path: string, v: Json, w: Json) returns (n: Normaliser)
    requires Gentle(rules) && Suppress(lib, rules, path, v, w)
    ensures n != Length && EqualUnder(lib, n, v, w)
  {
    MatchIsLast(rules, path);
    var i: nat :| Governs(rules, path, i);
    n := ParseNormalise(rules[i].normalise).value;
  }

  // ----- What `len` does to structure ------------------------------------------------------------------

  /** The governing rule compares lengths. */
  ghost predicate LengthGoverns(rules: Ruleset, path: string) {
    var r := Match(rules, path);
    r.Some? && !r.value.ignore && ParseNormalise(r.value.normalise) == Some(Length)
  }

  lemma LengthSuppresses(lib: Library, rules: Ruleset, path: string, v: Json, w: Json)
    requires LengthGoverns(rules, path) && lib.Faithful()
    ensures Suppress(lib, rules, path, v, w) <==> v != w && LengthOf(v).Some? && LengthOf(v) == LengthOf(w)
  {}

  lemma NameLengths(a: Json, b: Json)
    ensures |TypeName(a)| == |TypeName(b)| && TypeName(a) != TypeName(b) ==> |TypeName(a)| == 6
    ensures |TypeName(a)| == 6 <==> a.Num? || a.Str? || a.Obj?
  {}

  /** A type change under a `len` rule is hidden exactly when both types are among number,
      string and object: what is measured is the type's name. */
  lemma LengthHidesTypeChange(lib: Library, rules: Ruleset, decode: string -> Option<Json>,
                              path: string, a: Json, b: Json)
    requires LengthGoverns(rules, path) && lib.Faithful()
    requires TypeName(a) != TypeName(b)
    ensures var e := EngineWith(lib, rules, decode);
            Walk(e, path, a, b) ==
            if (a.Num? || a.Str? || a.Obj?) && (b.Num? || b.Str? || b.Obj?)
            then [Hid(path, Str(TypeName(a)), Str(TypeName(b)))]
            else [Found(Difference(Shape, path, Str(TypeName(a)), Str(TypeName(b))))]
  {
    var e := EngineWith(lib, rules, decode);
    NameLengths(a, b);
    LengthSuppresses(lib, rules, path, Str(TypeName(a)), Str(TypeName(b)));
    assert Children(a, b) == [];
    assert Here(e, path, a, b) + [] == Here(e, path, a, b);
  }

  /** Arrays of different lengths are compared under a `len` rule, but the difference in length
      is hidden exactly when both counts have as many digits: 8 and 9 items, not 9 and 10. */
  lemma LengthHidesCounts(lib: Library, rules: Ruleset, decode: string -> Option<Json>,
                          path: string, x: seq<Json>, y: seq<Json>)
    requires LengthGoverns(rules, path) && lib.Faithful()
    requires |x| != |y|
    ensures var e := EngineWith(lib, rules, decode);
            var events := Walk(e, path, Arr(x), Arr(y));
            && events != []
            && events[0] == if |Itoa(|x|)| == |Itoa(|y|)|
                            then Hid(path, Items(|x|), Items(|y|))
                            else Found(Difference(Shape, path, Items(|x|), Items(|y|)))
  {
    ItemsDiffer(|x|, |y|);
    LengthSuppresses(lib, rules, path, Arr(x), Arr(y));
    LengthSuppresses(lib, rules, path, Items(|x|), Items(|y|));
  }

  // ----- One-sided keys survive every rule that does not ignore ------------------------------------------

  predicate NeverIgnores(rules: Ruleset) {
    forall i | 0 <= i < |rules| :: !rules[i].ignore
  }

  lemma NormaliserOfHidden(lib: Library, rules: Ruleset, path: string, v: Json, w: Json) returns (n: Normaliser)
    requires NeverIgnores(rules) && Suppress(lib, rules, path, v, w)
    ensures EqualUnder(lib, n, v, w)
  {
    MatchIsLast(rules, path);
    var i: nat :| Governs(rules, path, i);
    n := ParseNormalise(rules[i].normalise).value;
  }

  /** Only `sort` and `len` take two arrays for equal, and only arrays of one length. */
  lemma EqualArraysHaveOneLength(lib: Library, n: Normaliser, v: Json, w: Json)
    requires v.Arr? && w.Arr? && EqualUnder(lib, n, v, w)
    ensures |v.items| == |w.items|
  {
    if n.SortItems? {
      SortAcceptsPermutations(lib, v, w);
      var x, y := Canonicals(lib.canon, v.items), Canonicals(lib.canon, w.items);
      assert |multiset(x)| == |x| && |multiset(y)| == |y|;
    }
  }

  lemma OneSidedKeyStays(lib: Library, n: Normaliser, e: Engine, p: Pair, d: Difference)
    requires Found(d) in PairEvents(e, p) && d.kind == BodyKey
    ensures !EqualUnder(lib, n, d.primary, d.shadow)
  {
    var x, y := StructuralDifference(e, p, d);
    assert Genuine(e.num, d, x, y);
  }

  /** Under rules that normalise in any way but never ignore, every key of the raw result that
      one side lacks is reported, unless it lies at or under two arrays of one length that a
      `sort` or `len` rule gave up as a whole. */
  lemma OneSidedKeysSurvive(lib: Library, rules: Ruleset, decode: string -> Option<Json>, p: Pair, d: Difference)
    requires NeverIgnores(rules)
    requires d.kind == BodyKey && d in ResultOf(EngineWith(lib, rules, decode).Raw(), p).differences
    ensures var e := EngineWith(lib, rules, decode);
            || d in ResultOf(e, p).differences
            || exists h :: h in PairEvents(e, p) && CutsEqualLengths(h) && Under(h.path, d.path)
  {
    var e := EngineWith(lib, rules, decode);
    RulesOnlyTakeAway(e, p);
    if d !in ResultOf(e, p).differences {
      var h :| h in PairEvents(e, p) && Covers(h, d);
      HiddenWasAsked(e, p, h);
      var n := NormaliserOfHidden(lib, rules, h.path, h.primary, h.shadow);
      if CutsArrays(h) {
        EqualArraysHaveOneLength(lib, n, h.primary, h.shadow);
      } else {
        ReportedIsFound(PairEvents(e.Raw(), p), d);
        OneSidedKeyStays(lib, n, e.Raw(), p, d);
      }
    }
  }

  predicate CutsEqualLengths(h: Event) {
    CutsArrays(h) && |h.primary.items| == |h.shadow.items|
  }
}
