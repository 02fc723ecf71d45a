/** The noise rules: which rule governs a path, and when it hides a difference. */
module Noise {
  import opened Text
  import opened Sorting
  import opened Json
  import opened Diff
  import Glob

  datatype Rule = Rule(path: string, ignore: bool, normalise: string)

  type Ruleset = seq<Rule>

  /** What the rules need from libraries: the value of a numeral, the stable rendering used
      for equality, and the rendering used for reports. */
  datatype Library = Library(num: Valuation, canon: Json -> string, render: Json -> string)
  {
    /** Different values have different stable renderings. */
    ghost predicate Faithful() {
      forall v, w :: canon(v) == canon(w) ==> v == w
    }
  }

  // ----- Which rule governs ------------------------------------------------------------------------

  /** Whether a rule's glob matches a path. */
  function Matching(path: string): Rule -> bool {
    (r: Rule) => Glob.MatchesPath(r.path, path)
  }

  /** The last of some rules that fits, so later rules override earlier ones. */
  function LastFit(rules: Ruleset, fits: Rule -> bool): Option<Rule> {
    if rules == [] then None
    else
      var last := rules[|rules| - 1];
      if fits(last) then Some(last) else LastFit(rules[..|rules| - 1], fits)
  }

  lemma LastFitAppend(rules: Ruleset, rule: Rule, fits: Rule -> bool)
    ensures LastFit(rules + [rule], fits) == if fits(rule) then Some(rule) else LastFit(rules, fits)
  {
    assert (rules + [rule])[..|rules|] == rules;
  }

  lemma LastFitNext(rules: Ruleset, i: nat, fits: Rule -> bool)
    requires i < |rules|
    ensures LastFit(rules[..i + 1], fits) == if fits(rules[i]) then Some(rules[i]) else LastFit(rules[..i], fits)
  {
    assert rules[..i + 1] == rules[..i] + [rules[i]];
    LastFitAppend(rules[..i], rules[i], fits);
  }

  function Match(rules: Ruleset, path: string): Option<Rule> {
    LastFit(rules, Matching(path))
  }

  method FindMatch(rules: Ruleset, path: string) returns (r: Option<Rule>)
    ensures r == Match(rules, path)
  {
    r := None;
    ghost var fits := Matching(path);
    var i := 0;
    while i < |rules|
      invariant 0 <= i <= |rules|
      invariant r == LastFit(rules[..i], fits)
    {
      LastFitNext(rules, i, fits);
      var ok := Glob.MatchGlob(rules[i].path, path);
      if ok {
        r := Some(rules[i]);
      }
      i := i + 1;
    }
    assert rules[..|rules|] == rules;
  }

  function Ignoring(path: string): Rule {
    Rule(path, true, "")
  }

  const DEFAULT_HEADERS := ["date", "server", "x-request-id", "x-dark-canary-id", "set-cookie", "age", "etag"]

  /** The ruleset a fresh install starts from. */
  const DEFAULT: Ruleset :=
    seq(|DEFAULT_HEADERS|, i requires 0 <= i < |DEFAULT_HEADERS| => Ignoring(PATH_HEADERS + "/" + DEFAULT_HEADERS[i]))

  function Merge(rules: Ruleset, more: Ruleset): Ruleset {
    rules + more
  }

  // ----- Normalisations ------------------------------------------------------------------------------

  datatype Normaliser = Round(places: nat) | SortItems | TrimSpace | LowerCase | Length

  /** strconv.Atoi, as far as it matters for 0..15. */
  function ParsePlaces(s: string): Option<nat> {
    var digits := if s != "" && (s[0] == '+' || s[0] == '-') then s[1..] else s;
    if !IsNumeral(digits, 10) then None
    else
      var n := Value(digits, 10);
      if n > 15 || (n > 0 && s[0] == '-') then None else Some(n)
  }

  function ParseNormalise(spec: string): Option<Normaliser> {
    if spec == "sort" then Some(SortItems)
    else if spec == "trim" then Some(TrimSpace)
    else if spec == "lower" then Some(LowerCase)
    else if spec == "len" then Some(Length)
    else if |spec| >= 6 && spec[..6] == "round:" then
      var n := ParsePlaces(spec[6..]);
      if n.None? then None else Some(Round(n.value))
    else None
  }

  function ToFloat(num: Valuation, v: Json): Option<real> {
    match v
    case Num(literal) => num(literal)
    case Str(s) => num(s)
    case _ => None
  }

  function Pow10(n: nat): (r: real)
    ensures r >= 1.0
  {
    if n == 0 then 1.0 else 10.0 * Pow10(n - 1)
  }

  /** Round half away from zero. */
  function RoundHalfAway(x: real): int {
    if x >= 0.0 then (x + 0.5).Floor else -((-x + 0.5).Floor)
  }

  function RoundAt(x: real, shift: real): int {
    RoundHalfAway(x * shift)
  }

  function EqualRounded(num: Valuation, places: nat, v: Json, w: Json): bool {
    var x, y := ToFloat(num, v), ToFloat(num, w);
    x.Some? && y.Some? && RoundAt(x.value, Pow10(places)) == RoundAt(y.value, Pow10(places))
  }

  function Canonicals(canon: Json -> string, items: seq<Json>): (r: seq<string>)
    ensures |r| == |items|
  {
    seq(|items|, i requires 0 <= i < |items| => canon(items[i]))
  }

  function SortedStrings(canon: Json -> string, v: Json): Option<seq<string>> {
    if v.Arr? then Some(Sort(Leq, Canonicals(canon, v.items))) else None
  }

  /** Fill a list with the renderings and sort it. */
  method ToSortedStrings(canon: Json -> string, v: Json) returns (r: Option<seq<string>>)
    ensures r == SortedStrings(canon, v)
  {
    if !v.Arr? {
      return None;
    }
    var out: seq<string> := [];
    var i := 0;
    while i < |v.items|
      invariant 0 <= i <= |v.items|
      invariant |out| == i && forall k | 0 <= k < i :: out[k] == canon(v.items[k])
    {
      out := out + [canon(v.items[i])];
      i := i + 1;
    }
    assert out == Canonicals(canon, v.items);
    r := Some(Sort(Leq, out));
  }

  function EqualSorted(canon: Json -> string, v: Json, w: Json): bool {
    var x, y := SortedStrings(canon, v), SortedStrings(canon, w);
    x.Some? && x == y
  }

  function LengthOf(v: Json): Option<nat> {
    match v
    case Str(s) => Some(|s|)
    case Arr(items) => Some(|items|)
    case _ => None
  }

  function EqualUnder(lib: Library, n: Normaliser, v: Json, w: Json): bool {
    match n
    case Round(places) => EqualRounded(lib.num, places, v, w)
    case SortItems => EqualSorted(lib.canon, v, w)
    case TrimSpace => v.Str? && w.Str? && Trim(v.s) == Trim(w.s)
    case LowerCase => v.Str? && w.Str? && Lower(v.s) == Lower(w.s)
    case Length => LengthOf(v).Some? && LengthOf(v) == LengthOf(w)
  }

  // ----- Suppression -----------------------------------------------------------------------------------

  /** A normalising rule hides values that are not equal already but are once normalised. */
  predicate HidesByNormalising(lib: Library, spec: string, v: Json, w: Json) {
    var n := ParseNormalise(spec);
    n.Some? && lib.canon(v) != lib.canon(w) && EqualUnder(lib, n.value, v, w)
  }

  predicate Suppress(lib: Library, rules: Ruleset, path: string, v: Json, w: Json) {
    match Match(rules, path)
    case None => false
    case Some(rule) => rule.ignore || HidesByNormalising(lib, rule.normalise, v, w)
  }

  /** The comparison engine under a ruleset. */
  function EngineWith(lib: Library, rules: Ruleset, decode: string -> Option<Json>): Engine {
    Engine(lib.num, Rules((path, v, w) => Suppress(lib, rules, path, v, w)), decode)
  }

  /** On rendered values only the string-shaped normalisations survive. */
  predicate SuppressRendered(lib: Library, spec: string, x: string, y: string) {
    var n := ParseNormalise(spec);
    && x != y && n.Some?
    && (if n.value.Round? then EqualUnder(lib, n.value, Num(x), Num(y)) else EqualUnder(lib, n.value, Str(x), Str(y)))
  }

  predicate AppliesTo(lib: Library, rules: Ruleset, d: Difference) {
    match Match(rules, d.path)
    case None => false
    case Some(rule) => rule.ignore || SuppressRendered(lib, rule.normalise, lib.render(d.primary), lib.render(d.shadow))
  }

  function Without(f: Difference -> bool, ds: seq<Difference>): (r: seq<Difference>)
    ensures |r| <= |ds|
  {
    if ds == [] then [] else (if f(ds[0]) then [] else [ds[0]]) + Without(f, ds[1..])
  }

  /** The post-hoc pass over a stored result. */
  function ApplyTo(lib: Library, rules: Ruleset, r: Result): Result {
    var kept := Without(d => AppliesTo(lib, rules, d), r.differences);
    r.(differences := kept, suppressed := r.suppressed + (|r.differences| - |kept|))
  }

  lemma {:induction false} WithoutNext(f: Difference -> bool, ds: seq<Difference>, i: nat)
    requires i < |ds|
    ensures Without(f, ds[..i + 1]) == Without(f, ds[..i]) + (if f(ds[i]) then [] else [ds[i]])
  {
    if i == 0 {
      assert ds[..1] == [ds[0]] && ds[..1][1..] == [] && ds[..0] == [];
    } else {
      WithoutNext(f, ds[1..], i - 1);
      assert ds[..i + 1][1..] == ds[1..][..i] && ds[..i][1..] == ds[1..][..i - 1];
    }
  }

  method Apply(lib: Library, rules: Ruleset, r: Result) returns (out: Result)
    ensures out == ApplyTo(lib, rules, r)
    ensures |out.differences| + out.suppressed == |r.differences| + r.suppressed
  {
    ghost var f := d => AppliesTo(lib, rules, d);
    var kept: seq<Difference>, suppressed := [], r.suppressed;
    var i := 0;
    while i < |r.differences|
      invariant 0 <= i <= |r.differences|
      invariant kept == Without(f, r.differences[..i])
      invariant |kept| + suppressed == i + r.suppressed
    {
      var d := r.differences[i];
      WithoutNext(f, r.differences, i);
      var rule := FindMatch(rules, d.path);
      assert f(d) == AppliesTo(lib, rules, d);
      if rule.Some? && (rule.value.ignore ||
                        SuppressRendered(lib, rule.value.normalise, lib.render(d.primary), lib.render(d.shadow))) {
        suppressed := suppressed + 1;
      } else {
        kept := kept + [d];
      }
      i := i + 1;
    }
    assert r.differences[..|r.differences|] == r.differences;
    out := r.(differences := kept, suppressed := suppressed);
  }
}
