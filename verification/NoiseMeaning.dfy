/** What the rules hide, in terms of the words a rule is written in and of the two values. */
module NoiseMeaning {
  import opened Text
  import opened Json
  import opened Diff
  import opened DiffRules
  import opened Noise
  import opened NoiseLaws
  import opened NoiseApply
  import Glob

  // ----- round:N ---------------------------------------------------------------------------------------

  function Zeros(n: nat): (s: string)
    ensures |s| == n
  {
    if n == 0 then "" else Zeros(n - 1) + "0"
  }

  lemma {:induction false} ValueOfPadded(zeros: nat, s: string)
    ensures Value(Zeros(zeros) + s, 10) == Value(s, 10)
    ensures s != "" && IsNumeral(s, 10) ==> IsNumeral(Zeros(zeros) + s, 10)
    decreases zeros, |s|
  {
    var t := Zeros(zeros) + s;
    if s == "" {
      assert t == Zeros(zeros);
      ZerosAreZero(zeros);
    } else {
      var init := s[..|s| - 1];
      ValueOfPadded(zeros, init);
      assert t[..|t| - 1] == Zeros(zeros) + init;
      ZerosAreZero(zeros);
    }
  }

  lemma {:induction false} ZerosAreZero(n: nat)
    ensures Value(Zeros(n), 10) == 0
    ensures forall c | c in Zeros(n) :: c == '0'
  {
    if n == 0 {
    } else {
      ZerosAreZero(n - 1);
      assert Zeros(n)[..n - 1] == Zeros(n - 1);
    }
  }

  lemma LeadingZero(s: string)
    requires IsNumeral(s, 10) && s != "0" && s[0] == '0'
    ensures IsNumeral(s[1..], 10) && Value(s[1..], 10) == Value(s, 10) && s == "0" + s[1..]
  {
    var rest := s[1..];
    assert |s| == 1 ==> s == ['0'];
    assert forall c | c in rest :: c in s;
    assert s == "0" + rest && Zeros(1) == Zeros(0) + "0";
    ValueOfPadded(1, rest);
    assert Zeros(1) + rest == s;
  }

  /** Every numeral is a number as it is usually written, behind some zeros. */
  lemma {:induction false} StripZeros(s: string) returns (zeros: nat)
    requires IsNumeral(s, 10)
    ensures s == Zeros(zeros) + Itoa(Value(s, 10))
    decreases |s|
  {
    if s == "0" || s[0] != '0' {
      ValueFormat(s, 10);
      zeros := 0;
    } else {
      var rest := s[1..];
      LeadingZero(s);
      var more := StripZeros(rest);
      zeros := more + 1;
      OneMoreZero(more, Itoa(Value(rest, 10)));
    }
  }

  lemma {:induction false} OneMoreZero(n: nat, s: string)
    ensures "0" + (Zeros(n) + s) == Zeros(n + 1) + s
  {
    ZerosFromTheLeft(n);
    Associative("0", Zeros(n), s);
  }

  lemma {:induction false} ZerosFromTheLeft(n: nat)
    ensures "0" + Zeros(n) == Zeros(n + 1)
  {
    if n == 0 {
      assert "0" + Zeros(0) == Zeros(0) + "0";
    } else {
      ZerosFromTheLeft(n - 1);
      Associative("0", Zeros(n - 1), "0");
    }
  }

  /** A number from 0 to 15 in decimal, with a sign and leading zeros if one likes. */
  ghost predicate Spells(s: string, n: nat, sign: string, zeros: nat) {
    && n <= 15 && s == sign + (Zeros(zeros) + Itoa(n))
    && (sign == "" || sign == "+" || (sign == "-" && n == 0))
  }

  /** How a rule says that numbers are to be rounded to n places. */
  ghost predicate SaysRound(spec: string, n: nat) {
    "round:" <= spec && exists sign, zeros :: Spells(spec[|"round:"|..], n, sign, zeros)
  }

  lemma Padded(zeros: nat, n: nat)
    ensures var s := Zeros(zeros) + Itoa(n); IsNumeral(s, 10) && Value(s, 10) == n
  {
    FormatValue(n, 10);
    ValueOfPadded(zeros, Itoa(n));
  }

  lemma NumeralsAreUnsigned(s: string)
    requires IsNumeral(s, 10)
    ensures s[0] != '+' && s[0] != '-'
  {
    assert s[0] in s;
  }

  lemma SignedPlaces(sign: string, digits: string, n: nat)
    requires IsNumeral(digits, 10) && Value(digits, 10) == n && n <= 15
    requires sign == "" || sign == "+" || (sign == "-" && n == 0)
    ensures ParsePlaces(sign + digits) == Some(n)
  {
    NumeralsAreUnsigned(digits);
    if sign == "" {
      assert sign + digits == digits;
    } else {
      assert (sign + digits)[1..] == digits && (sign + digits)[0] == sign[0];
    }
  }

  lemma PlacesFrom(s: string) returns (sign: string, zeros: nat)
    requires ParsePlaces(s).Some?
    ensures Spells(s, ParsePlaces(s).value, sign, zeros)
  {
    var signed := s != "" && (s[0] == '+' || s[0] == '-');
    sign := if signed then s[..1] else "";
    var digits := if signed then s[1..] else s;
    zeros := StripZeros(digits);
    assert s == sign + digits;
  }

  lemma PlacesMean(s: string, n: nat)
    ensures ParsePlaces(s) == Some(n) <==> exists sign, zeros :: Spells(s, n, sign, zeros)
  {
    if ParsePlaces(s) == Some(n) {
      var sign, zeros := PlacesFrom(s);
      assert Spells(s, n, sign, zeros);
    }
    if sign, zeros :| Spells(s, n, sign, zeros) {
      Padded(zeros, n);
      SignedPlaces(sign, Zeros(zeros) + Itoa(n), n);
    }
  }

  lemma RoundSpecs(spec: string, n: nat)
    ensures ParseNormalise(spec) == Some(Round(n)) <==> SaysRound(spec, n)
  {
    if |spec| >= 6 {
      PlacesMean(spec[6..], n);
      assert spec[..6] == "round:" ==> spec[5] == ':';
    }
  }

  /** The words of a rule. Everything else is no normalisation at all. */
  lemma SpecsMean(spec: string)
    ensures ParseNormalise(spec) == Some(SortItems) <==> spec == "sort"
    ensures ParseNormalise(spec) == Some(TrimSpace) <==> spec == "trim"
    ensures ParseNormalise(spec) == Some(LowerCase) <==> spec == "lower"
    ensures ParseNormalise(spec) == Some(Length) <==> spec == "len"
    ensures forall n :: ParseNormalise(spec) == Some(Round(n)) <==> SaysRound(spec, n)
  {
    forall n ensures ParseNormalise(spec) == Some(Round(n)) <==> SaysRound(spec, n) { RoundSpecs(spec, n); }
  }

  /** The number that is written as a one and n zeros. */
  lemma {:induction false} Pow10Means(n: nat)
    ensures Pow10(n) == Value("1" + Zeros(n), 10) as real
  {
    var s := "1" + Zeros(n);
    if n == 0 {
      assert s == "1" && s[..0] == "";
      assert Value(s, 10) == Value("", 10) * 10 + DigitValue('1');
    } else {
      Pow10Means(n - 1);
      assert s[..|s| - 1] == "1" + Zeros(n - 1);
    }
  }

  /** k is the integer next to x; halfway between two it is the one further from zero. */
  predicate Nearest(x: real, k: int) {
    if x >= 0.0 then k as real <= x + 0.5 < k as real + 1.0 else k as real - 1.0 < x - 0.5 <= k as real
  }

  lemma RoundIsTheNearest(x: real, k: int)
    ensures RoundHalfAway(x) == k <==> Nearest(x, k)
  {}

  predicate NearestScaled(x: real, scale: real, k: int) {
    Nearest(x * scale, k)
  }

  lemma RoundsScaled(x: real, scale: real, k: int)
    ensures RoundAt(x, scale) == k <==> NearestScaled(x, scale, k)
  {
    RoundIsTheNearest(x * scale, k);
  }

  /** The number that a value stands for: a number's, or that of a string that spells one. */
  predicate StandsFor(num: Valuation, v: Json, x: real) {
    (v.Num? && num(v.literal) == Some(x)) || (v.Str? && num(v.s) == Some(x))
  }

  /** The value stands for a number that, scaled, rounds to k. */
  ghost predicate RoundsTo(num: Valuation, v: Json, scale: real, k: int) {
    exists x :: StandsFor(num, v, x) && NearestScaled(x, scale, k)
  }

  /** Both values stand for numbers, and these round to the same. */
  ghost predicate RoundAlike(num: Valuation, n: nat, v: Json, w: Json) {
    exists k :: RoundsTo(num, v, Pow10(n), k) && RoundsTo(num, w, Pow10(n), k)
  }

  lemma RoundsToMeans(num: Valuation, v: Json, scale: real, k: int)
    ensures RoundsTo(num, v, scale, k) <==> ToFloat(num, v).Some? && RoundAt(ToFloat(num, v).value, scale) == k
  {
    var a := ToFloat(num, v);
    if a.Some? {
      OneNumber(num, v, scale, k, a.value);
      RoundsScaled(a.value, scale, k);
    }
  }

  lemma OneNumber(num: Valuation, v: Json, scale: real, k: int, x: real)
    requires ToFloat(num, v) == Some(x)
    ensures RoundsTo(num, v, scale, k) <==> NearestScaled(x, scale, k)
  {
    assert StandsFor(num, v, x);
  }

  lemma RoundsAlike(num: Valuation, n: nat, v: Json, w: Json)
    ensures EqualRounded(num, n, v, w) <==> RoundAlike(num, n, v, w)
  {
    if EqualRounded(num, n, v, w) {
      var k := RoundAt(ToFloat(num, v).value, Pow10(n));
      RoundsToMeans(num, v, Pow10(n), k);
      RoundsToMeans(num, w, Pow10(n), k);
    }
    if k :| RoundsTo(num, v, Pow10(n), k) && RoundsTo(num, w, Pow10(n), k) {
      RoundsToMeans(num, v, Pow10(n), k);
      RoundsToMeans(num, w, Pow10(n), k);
    }
  }

  // ----- What a rule takes for the same ---------------------------------------------------------------------

  /** The same string but for the case of its letters. */
  predicate SameButCase(s: string, t: string) {
    |s| == |t| && forall i | 0 <= i < |s| :: s[i] == t[i] || OtherCase(s[i], t[i]) || OtherCase(t[i], s[i])
  }

  /** A capital and its small letter. */
  predicate OtherCase(c: char, d: char) {
    exists k :: 0 <= k < 26 && c == UPPER[k] && d == LOWER[k]
  }

  lemma OtherCaseMeans(c: char, d: char)
    ensures OtherCase(c, d) <==> 'A' <= c <= 'Z' && d == c - 'A' + 'a'
  {
    if 'A' <= c <= 'Z' && d == c - 'A' + 'a' {
      var k := (c - 'A') as nat;
      LetterPlaces(k);
      assert c == UPPER[k] && d == LOWER[k];
    }
    if k :| 0 <= k < 26 && c == UPPER[k] && d == LOWER[k] { LetterPlaces(k); }
  }

  lemma LowerCharMeans(c: char, d: char)
    ensures LowerChar(c) == LowerChar(d) <==> c == d || OtherCase(c, d) || OtherCase(d, c)
  {
    OtherCaseMeans(c, d);
    OtherCaseMeans(d, c);
  }

  lemma LowerAlike(s: string, t: string)
    ensures Lower(s) == Lower(t) <==> SameButCase(s, t)
  {
    if |s| == |t| {
      forall i | 0 <= i < |s|
        ensures Lower(s)[i] == Lower(t)[i] <==> s[i] == t[i] || OtherCase(s[i], t[i]) || OtherCase(t[i], s[i])
      {
        LowerCharMeans(s[i], t[i]);
      }
    }
  }

  predicate HasSize(v: Json, n: nat) {
    (v.Str? && |v.s| == n) || (v.Arr? && |v.items| == n)
  }

  /** What the words of a normalising rule say about two values. */
  ghost predicate Agree(lib: Library, spec: string, v: Json, w: Json) {
    || (spec == "sort" && v.Arr? && w.Arr?
        && multiset(Canonicals(lib.canon, v.items)) == multiset(Canonicals(lib.canon, w.items)))
    || (spec == "trim" && v.Str? && w.Str? && SameCore(v.s, w.s))
    || (spec == "lower" && v.Str? && w.Str? && SameButCase(v.s, w.s))
    || (spec == "len" && exists n :: HasSize(v, n) && HasSize(w, n))
    || exists n :: SaysRound(spec, n) && RoundAlike(lib.num, n, v, w)
  }

  lemma AgreeMeans(lib: Library, spec: string, v: Json, w: Json)
    ensures Agree(lib, spec, v, w) <==>
            ParseNormalise(spec).Some? && EqualUnder(lib, ParseNormalise(spec).value, v, w)
  {
    SpecsMean(spec);
    match ParseNormalise(spec)
    case Some(Round(n)) =>
      assert SaysRound(spec, n);
      RoundsAlike(lib.num, n, v, w);
    case Some(SortItems) => SortAcceptsPermutations(lib, v, w);
    case Some(TrimSpace) => if v.Str? && w.Str? { SameTrim(v.s, w.s); }
    case Some(LowerCase) => if v.Str? && w.Str? { LowerAlike(v.s, w.s); }
    case Some(Length) => SizesAgree(v, w);
    case None =>
  }

  lemma SizesAgree(v: Json, w: Json)
    ensures LengthOf(v).Some? && LengthOf(v) == LengthOf(w) <==> exists n :: HasSize(v, n) && HasSize(w, n)
  {
    if LengthOf(v).Some? && LengthOf(v) == LengthOf(w) {
      assert HasSize(v, LengthOf(v).value) && HasSize(w, LengthOf(v).value);
    }
  }

  // ----- What is hidden -----------------------------------------------------------------------------------------

  /** Two values at a path are hidden if and only if the last rule whose glob matches the path
      ignores, or takes the two, whose renderings differ, for the same. */
  lemma SuppressMeans(lib: Library, rules: Ruleset, path: string, v: Json, w: Json)
    ensures Suppress(lib, rules, path, v, w) <==>
            exists i: nat :: Governs(rules, path, i) &&
              (rules[i].ignore || (lib.canon(v) != lib.canon(w) && Agree(lib, rules[i].normalise, v, w)))
  {
    MatchIsLast(rules, path);
    forall i: nat | Governs(rules, path, i)
      ensures Suppress(lib, rules, path, v, w) <==>
              rules[i].ignore || (lib.canon(v) != lib.canon(w) && Agree(lib, rules[i].normalise, v, w))
    {
      AgreeMeans(lib, rules[i].normalise, v, w);
    }
  }

  /** Afterwards, a rule that sorts can hide nothing, and the others see what the report shows: they
      hide two texts that differ and that they take for the same, where a text that spells a number
      stands for it. */
  ghost predicate TextsAgree(lib: Library, spec: string, x: string, y: string) {
    x != y && spec != "sort" && Agree(lib, spec, Str(x), Str(y))
  }

  lemma TextsAgreeMeans(lib: Library, spec: string, x: string, y: string)
    ensures SuppressRendered(lib, spec, x, y) <==> TextsAgree(lib, spec, x, y)
  {
    AgreeMeans(lib, spec, Str(x), Str(y));
    SpecsMean(spec);
  }

  /** The post-hoc pass hides a difference if and only if the last rule whose glob matches its path
      ignores, or takes the two texts shown for the same. */
  lemma AppliesMeans(lib: Library, rules: Ruleset, d: Difference)
    ensures AppliesTo(lib, rules, d) <==>
            exists i: nat :: Governs(rules, d.path, i) &&
              (rules[i].ignore || TextsAgree(lib, rules[i].normalise, lib.render(d.primary), lib.render(d.shadow)))
  {
    MatchIsLast(rules, d.path);
    forall i: nat | Governs(rules, d.path, i)
      ensures AppliesTo(lib, rules, d) <==>
              rules[i].ignore || TextsAgree(lib, rules[i].normalise, lib.render(d.primary), lib.render(d.shadow))
    {
      TextsAgreeMeans(lib, rules[i].normalise, lib.render(d.primary), lib.render(d.shadow));
    }
  }

  lemma {:induction false} WithoutCounts(f: Difference -> bool, ds: seq<Difference>, d: Difference)
    ensures multiset(Without(f, ds))[d] == if f(d) then 0 else multiset(ds)[d]
  {
    if ds == [] {
    } else {
      WithoutCounts(f, ds[1..], d);
      assert ds == [ds[0]] + ds[1..];
    }
  }

  lemma {:induction false} WithoutIsPart(f: Difference -> bool, ds: seq<Difference>)
    ensures IsSubsequence(Without(f, ds), ds)
  {
    if ds == [] {
    } else {
      WithoutIsPart(f, ds[1..]);
      var rest := Without(f, ds[1..]);
      if f(ds[0]) {
        assert Without(f, ds) == rest;
      } else {
        assert Without(f, ds)[1..] == rest;
      }
    }
  }

  /** What the pass leaves of a result: every difference no rule hides, as often as it was there and
      in the same order, and nothing else; the rest is added to the suppressed count. */
  lemma ApplyMeans(lib: Library, rules: Ruleset, r: Result, d: Difference)
    ensures var out := ApplyTo(lib, rules, r);
            && multiset(out.differences)[d] == (if AppliesTo(lib, rules, d) then 0 else multiset(r.differences)[d])
            && IsSubsequence(out.differences, r.differences)
            && out.suppressed == r.suppressed + |r.differences| - |out.differences|
            && out.correlId == r.correlId && out.httpMethod == r.httpMethod && out.url == r.url
  {
    WithoutCounts(d => AppliesTo(lib, rules, d), r.differences, d);
    WithoutIsPart(d => AppliesTo(lib, rules, d), r.differences);
  }

  // ----- The rules of a fresh install --------------------------------------------------------------------------

  predicate NoisyHeader(name: string) {
    name in {"date", "server", "x-request-id", "x-dark-canary-id", "set-cookie", "age", "etag"}
  }

  lemma PlainGlob(pattern: string, path: string)
    requires '*' !in pattern
    ensures Glob.MatchesPath(pattern, path) <==> Glob.Segments(Lower(pattern)) == Glob.Segments(Lower(path))
  {
    StarlessSegments(pattern);
    LiteralMatchesItself(Glob.Segments(Lower(pattern)), Glob.Segments(Lower(path)));
    Glob.SelfMatch(Glob.Segments(Lower(path)));
  }

  lemma TwoSegments(x: string, y: string)
    ensures Glob.Slashed([x, y]) == "/" + x + "/" + y
  {
    assert [x, y][1..] == [y] && [y][1..] == [];
    assert Glob.Slashed([]) == "";
    assert Glob.Slashed([y]) == "/" + y;
    assert Glob.Slashed([x, y]) == "/" + x + Glob.Slashed([y]);
  }

  lemma HeaderSegments(name: string)
    requires '/' !in name
    ensures Glob.Segments(Lower("/headers/" + name)) == ["headers", Lower(name)]
  {
    var q := Lower(name);
    forall i | 0 <= i < |q| ensures q[i] != '/' { assert name[i] in name; }
    LowerStays("/headers/");
    LowerConcat("/headers/", name);
    var segments := ["headers", q];
    TwoSegments("headers", q);
    assert "/" + "headers" + "/" == "/headers/";
    assert '/' !in "headers";
    Glob.SegmentsOfPath(segments);
  }

  lemma DefaultNames(i: nat)
    requires i < |DEFAULT_HEADERS|
    ensures NoisyHeader(DEFAULT_HEADERS[i]) && Lower(DEFAULT_HEADERS[i]) == DEFAULT_HEADERS[i]
    ensures '/' !in DEFAULT_HEADERS[i] && '*' !in DEFAULT[i].path
    ensures DEFAULT[i].path == "/headers/" + DEFAULT_HEADERS[i] && DEFAULT[i].ignore
  {
    var name := DEFAULT_HEADERS[i];
    NoisyIsDefault(name);
    NoisyIsSmall(name);
    LowerStays(name);
    assert PATH_HEADERS + "/" == "/headers/";
  }

  predicate Small(s: string) {
    forall i | 0 <= i < |s| :: s[i] == '-' || 'a' <= s[i] <= 'z'
  }

  lemma NoisyIsSmall(name: string)
    requires NoisyHeader(name)
    ensures Small(name) && '/' !in name && '*' !in name
  {
    assert Small("date") && Small("server") && Small("age") && Small("etag");
    assert Small("set-cookie");
    assert Small("x-request-id");
    assert Small("x-dark-canary-id");
  }

  /** A fresh install ignores seven headers, in any letter case, and no other header. */
  lemma DefaultIgnores(name: string)
    requires '/' !in name
    ensures Ignored(DEFAULT, "/headers/" + name) <==> NoisyHeader(Lower(name))
    ensures Ignored(DEFAULT, "/headers/" + name) ==> Match(DEFAULT, "/headers/" + name).value.ignore
  {
    MatchIsLast(DEFAULT, "/headers/" + name);
    HeaderSegments(name);
    forall i | 0 <= i < |DEFAULT|
      ensures Glob.MatchesPath(DEFAULT[i].path, "/headers/" + name) <==> DEFAULT_HEADERS[i] == Lower(name)
      ensures DEFAULT[i].ignore
    {
      DefaultNames(i);
      HeaderSegments(DEFAULT_HEADERS[i]);
      PlainGlob(DEFAULT[i].path, "/headers/" + name);
    }
    NoisyIsDefault(Lower(name));
  }

  lemma NoisyIsDefault(name: string)
    ensures NoisyHeader(name) <==> exists i :: 0 <= i < |DEFAULT_HEADERS| && DEFAULT_HEADERS[i] == name
  {
    var d := DEFAULT_HEADERS;
    assert d[0] == "date" && d[1] == "server" && d[2] == "x-request-id" && d[3] == "x-dark-canary-id";
    assert d[4] == "set-cookie" && d[5] == "age" && d[6] == "etag" && |d| == 7;
  }

  lemma DefaultMisses(path: string)
    requires Glob.Segments(Lower(path)) != [] && Glob.Segments(Lower(path))[0] != "headers"
    ensures !Ignored(DEFAULT, path)
  {
    MatchIsLast(DEFAULT, path);
    forall i | 0 <= i < |DEFAULT| ensures !Glob.MatchesPath(DEFAULT[i].path, path) {
      DefaultNames(i);
      HeaderSegments(DEFAULT_HEADERS[i]);
      PlainGlob(DEFAULT[i].path, path);
    }
  }

  /** And nothing else: neither the status nor any place in a body. */
  lemma DefaultIgnoresHeadersOnly(tokens: seq<string>)
    ensures !Ignored(DEFAULT, "/status") && !Ignored(DEFAULT, "/body" + Pointer(tokens))
  {
    assert "headers"[0] == 'h' && "status"[0] == 's' && "body"[0] == 'b';
    LowerStays("status");
    FirstSegment("status", "");
    assert "/" + ("status" + "") == "/status";
    DefaultMisses("/status");
    BodySegments(tokens);
    DefaultMisses(Place(tokens));
  }
}
