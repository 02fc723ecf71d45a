/** The report: what diverged, how often, and what an operator should look at first. */
module Report {
  import opened Text
  import opened Sorting
  import opened Json
  import opened Diff
  import opened DiffPaths

  // ----- Kinds, severities and keys ---------------------------------------------------------------

  function KindName(k: Kind): string {
    match k
    case Status => "status"
    case Header => "header"
    case BodyVal => "body_value"
    case BodyKey => "body_key"
    case Shape => "shape"
  }

  function SeverityOf(k: Kind): string {
    match k
    case Status => "high"
    case Shape => "medium"
    case BodyKey => "medium"
    case _ => "low"
  }

  function Rank(severity: string): nat {
    if severity == "high" then 3 else if severity == "medium" then 2 else 1
  }

  function Key(kind: Kind, path: string): string {
    KindName(kind) + " " + path
  }

  lemma KindNamesApart(k: Kind, l: Kind)
    ensures KindName(k) == KindName(l) ==> k == l
    ensures ' ' !in KindName(k)
  {}

  lemma FirstSpace(x: string, u: string, y: string, v: string)
    requires ' ' !in x && ' ' !in y && x + " " + u == y + " " + v
    ensures |x| == |y|
  {
    var s := x + " " + u;
    assert s[|x|] == ' ' && s[|y|] == ' ';
    assert forall i | 0 <= i < |x| :: s[i] == x[i];
    assert forall i | 0 <= i < |y| :: s[i] == y[i];
  }

  /** One key for each kind and path: groups never merge two findings. */
  lemma KeyInjective(k: Kind, p: string, l: Kind, q: string)
    requires Key(k, p) == Key(l, q)
    ensures k == l && p == q
  {
    KindNamesApart(k, l);
    KindNamesApart(l, k);
    FirstSpace(KindName(k), p, KindName(l), q);
    var n := |KindName(k)|;
    assert Key(k, p)[..n] == KindName(k) && Key(l, q)[..n] == KindName(l);
    assert Key(k, p)[n + 1..] == p && Key(l, q)[n + 1..] == q;
  }

  // ----- What was seen, and what it amounts to -----------------------------------------------------

  datatype Example = Example(correlId: string, httpMethod: string, url: string, primary: Json, shadow: Json)

  datatype Group = Group(kind: Kind, path: string, count: nat, severity: string, rate: real,
                         example: Example, firstAt: int, lastAt: int)

  /** One result, and the clock reading it was added with. */
  datatype Seen = Seen(r: Result, at: int)

  /** One difference of one result. */
  datatype Occurrence = Occurrence(kind: Kind, path: string, example: Example, at: int)

  function OccurrenceOf(s: Seen, i: nat): Occurrence
    requires i < |s.r.differences|
  {
    var d := s.r.differences[i];
    Occurrence(d.kind, d.path, Example(s.r.correlId, s.r.httpMethod, s.r.url, d.primary, d.shadow), s.at)
  }

  function OccurrencesIn(s: Seen): (os: seq<Occurrence>)
    ensures |os| == |s.r.differences|
  {
    seq(|s.r.differences|, i requires 0 <= i < |s.r.differences| => OccurrenceOf(s, i))
  }

  function Occurrences(history: seq<Seen>): seq<Occurrence> {
    if history == [] then []
    else Occurrences(history[..|history| - 1]) + OccurrencesIn(history[|history| - 1])
  }

  /** What has been seen before a result, and of its differences the first i. */
  function SoFar(before: seq<Occurrence>, s: Seen, i: nat): seq<Occurrence>
    requires i <= |s.r.differences|
  {
    before + OccurrencesIn(s)[..i]
  }

  lemma SoFarStep(before: seq<Occurrence>, s: Seen, i: nat)
    requires i < |s.r.differences|
    ensures SoFar(before, s, i + 1) == SoFar(before, s, i) + [OccurrenceOf(s, i)]
  {}

  lemma SoFarEnds(before: seq<Occurrence>, s: Seen)
    ensures SoFar(before, s, 0) == before
    ensures SoFar(before, s, |s.r.differences|) == before + OccurrencesIn(s)
  {
    assert OccurrencesIn(s)[..|s.r.differences|] == OccurrencesIn(s);
  }

  function Divergent(history: seq<Seen>): (n: nat)
    ensures n <= |history|
  {
    if history == [] then 0
    else Divergent(history[..|history| - 1]) + if history[|history| - 1].r.Identical() then 0 else 1
  }

  lemma HistoryMore(history: seq<Seen>, s: Seen)
    ensures var more := history + [s];
            && Occurrences(more) == Occurrences(history) + OccurrencesIn(s)
            && Divergent(more) == Divergent(history) + (if s.r.Identical() then 0 else 1)
            && Suppressed(more) == Suppressed(history) + s.r.suppressed
            && (s.r.Identical() ==> Occurrences(more) == Occurrences(history))
  {
    assert (history + [s])[..|history|] == history;
    if s.r.Identical() { assert OccurrencesIn(s) == []; }
  }

  function Suppressed(history: seq<Seen>): nat {
    if history == [] then 0
    else Suppressed(history[..|history| - 1]) + history[|history| - 1].r.suppressed
  }

  function KeyOf(o: Occurrence): string {
    Key(o.kind, o.path)
  }

  function Began(o: Occurrence): Group {
    Group(o.kind, o.path, 0, SeverityOf(o.kind), 0.0, o.example, o.at, o.at)
  }

  function Again(g: Group, at: int): Group {
    g.(count := g.count + 1, lastAt := at)
  }

  /** The group that some occurrences leave under a key. */
  function Tally(os: seq<Occurrence>, key: string): Option<Group> {
    if os == [] then None
    else
      var o := os[|os| - 1];
      var before := Tally(os[..|os| - 1], key);
      if KeyOf(o) != key then before
      else if before.None? then Some(Again(Began(o), o.at))
      else Some(Again(before.value, o.at))
  }

  function CountThose(os: seq<Occurrence>, f: Occurrence -> bool): (n: nat)
    ensures n <= |os|
  {
    if os == [] then 0
    else CountThose(os[..|os| - 1], f) + if f(os[|os| - 1]) then 1 else 0
  }

  lemma CountAppend(os: seq<Occurrence>, o: Occurrence, f: Occurrence -> bool)
    ensures CountThose(os + [o], f) == CountThose(os, f) + if f(o) then 1 else 0
  {
    assert (os + [o])[..|os|] == os;
  }

  lemma {:induction false} CountConcat(x: seq<Occurrence>, y: seq<Occurrence>, f: Occurrence -> bool)
    ensures CountThose(x + y, f) == CountThose(x, f) + CountThose(y, f)
  {
    if y == [] {
      assert x + y == x;
    } else {
      var n := |y| - 1;
      CountConcat(x, y[..n], f);
      assert y == y[..n] + [y[n]] && x + y == (x + y[..n]) + [y[n]];
      CountAppend(x + y[..n], y[n], f);
      CountAppend(y[..n], y[n], f);
    }
  }

  function HasKey(key: string): Occurrence -> bool {
    (o: Occurrence) => KeyOf(o) == key
  }

  function CountKey(os: seq<Occurrence>, key: string): nat {
    CountThose(os, HasKey(key))
  }

  /** The group shows the first occurrence of its key. */
  ghost predicate Opens(os: seq<Occurrence>, key: string, g: Group, i: nat) {
    && i < |os| && KeyOf(os[i]) == key && g.example == os[i].example && g.firstAt == os[i].at
    && forall j | 0 <= j < i :: KeyOf(os[j]) != key
  }

  /** The group bears the time of the last occurrence of its key. */
  ghost predicate Closes(os: seq<Occurrence>, key: string, g: Group, i: nat) {
    && i < |os| && KeyOf(os[i]) == key && g.lastAt == os[i].at
    && forall j | i < j < |os| :: KeyOf(os[j]) != key
  }

  ghost predicate Occurs(os: seq<Occurrence>, key: string) {
    exists i :: 0 <= i < |os| && KeyOf(os[i]) == key
  }

  lemma OccursMore(os: seq<Occurrence>, o: Occurrence, key: string)
    ensures Occurs(os + [o], key) <==> Occurs(os, key) || KeyOf(o) == key
  {
    if Occurs(os, key) {
      var i :| 0 <= i < |os| && KeyOf(os[i]) == key;
      assert (os + [o])[i] == os[i];
    }
    assert (os + [o])[|os|] == o;
  }

  /** There is a group exactly when something occurred under its key, and it counts that. */
  lemma {:induction false} TallyMeans(os: seq<Occurrence>, key: string)
    ensures Tally(os, key).Some? <==> Occurs(os, key)
    ensures Tally(os, key).None? <==> CountKey(os, key) == 0
    ensures Tally(os, key).Some? ==>
              var g := Tally(os, key).value;
              && Key(g.kind, g.path) == key && g.severity == SeverityOf(g.kind) && g.rate == 0.0
              && g.count == CountKey(os, key)
  {
    if os == [] {
    } else {
      var n := |os| - 1;
      TallyMeans(os[..n], key);
      assert os == os[..n] + [os[n]];
      OccursMore(os[..n], os[n], key);
      CountKeyAppend(os[..n], os[n], key);
      TallyAppend(os[..n], os[n], key);
    }
  }

  lemma TallyAppend(os: seq<Occurrence>, o: Occurrence, key: string)
    ensures Tally(os + [o], key) ==
            var before := Tally(os, key);
            if KeyOf(o) != key then before
            else Some(Again(if before.None? then Began(o) else before.value, o.at))
  {
    assert (os + [o])[..|os|] == os;
  }

  lemma OpensMore(os: seq<Occurrence>, o: Occurrence, key: string, g: Group, h: Group, i: nat)
    requires Opens(os, key, g, i) && h.example == g.example && h.firstAt == g.firstAt
    ensures Opens(os + [o], key, h, i)
  {}

  lemma OpensNow(os: seq<Occurrence>, o: Occurrence, g: Group)
    requires !Occurs(os, KeyOf(o)) && g.example == o.example && g.firstAt == o.at
    ensures Opens(os + [o], KeyOf(o), g, |os|)
  {
    forall j | 0 <= j < |os| ensures KeyOf((os + [o])[j]) != KeyOf(o) { assert (os + [o])[j] == os[j]; }
  }

  /** Its example and its first time are those of the first occurrence. */
  lemma {:induction false} TallyOpens(os: seq<Occurrence>, key: string) returns (first: nat)
    requires Tally(os, key).Some?
    ensures Opens(os, key, Tally(os, key).value, first)
  {
    var n := |os| - 1;
    var init := os[..n];
    assert os == init + [os[n]];
    TallyMeans(init, key);
    if Tally(init, key).None? {
      first := n;
      OpensNow(init, os[n], Tally(os, key).value);
    } else {
      first := TallyOpens(init, key);
      OpensMore(init, os[n], key, Tally(init, key).value, Tally(os, key).value, first);
    }
  }

  lemma ClosesMore(os: seq<Occurrence>, o: Occurrence, key: string, g: Group, i: nat)
    requires Closes(os, key, g, i) && KeyOf(o) != key
    ensures Closes(os + [o], key, g, i)
  {}

  /** And its last time is that of the last one. */
  lemma {:induction false} TallyCloses(os: seq<Occurrence>, key: string) returns (last: nat)
    requires Tally(os, key).Some?
    ensures Closes(os, key, Tally(os, key).value, last)
  {
    var n := |os| - 1;
    var init := os[..n];
    assert os == init + [os[n]];
    if KeyOf(os[n]) == key {
      last := n;
    } else {
      last := TallyCloses(init, key);
      ClosesMore(init, os[n], key, Tally(init, key).value, last);
    }
  }

  // ----- Counts are numbers of pairs --------------------------------------------------------------

  ghost predicate ShowsWithin(r: Result, n: nat, kind: Kind, path: string)
    requires n <= |r.differences|
  {
    exists i :: 0 <= i < n && r.differences[i].kind == kind && r.differences[i].path == path
  }

  ghost predicate Shows(r: Result, kind: Kind, path: string) {
    ShowsWithin(r, |r.differences|, kind, path)
  }

  /** How many results show this kind of difference at this path. */
  ghost function ShownBy(history: seq<Seen>, kind: Kind, path: string): (n: nat)
    ensures n <= Divergent(history)
  {
    if history == [] then 0
    else
      var s := history[|history| - 1];
      ShownBy(history[..|history| - 1], kind, path) + if Shows(s.r, kind, path) then 1 else 0
  }

  lemma CountKeyAppend(os: seq<Occurrence>, o: Occurrence, key: string)
    ensures CountKey(os + [o], key) == CountKey(os, key) + if KeyOf(o) == key then 1 else 0
  {
    CountAppend(os, o, HasKey(key));
  }

  /** The occurrences of the first n differences. */
  function FirstIn(s: Seen, n: nat): seq<Occurrence>
    requires n <= |s.r.differences|
  {
    OccurrencesIn(s)[..n]
  }

  lemma FirstInStep(s: Seen, n: nat)
    requires n < |s.r.differences|
    ensures FirstIn(s, n + 1) == FirstIn(s, n) + [OccurrenceOf(s, n)]
  {}

  lemma ShowsMore(r: Result, n: nat, kind: Kind, path: string)
    requires n < |r.differences| && OnePerPath(r.differences)
    ensures var now := r.differences[n].kind == kind && r.differences[n].path == path;
            && (ShowsWithin(r, n + 1, kind, path) <==> ShowsWithin(r, n, kind, path) || now)
            && !(ShowsWithin(r, n, kind, path) && now)
  {}

  lemma KeyOfIs(s: Seen, n: nat, kind: Kind, path: string)
    requires n < |s.r.differences|
    ensures KeyOf(OccurrenceOf(s, n)) == Key(kind, path) <==>
            s.r.differences[n].kind == kind && s.r.differences[n].path == path
  {
    var d := s.r.differences[n];
    if Key(d.kind, d.path) == Key(kind, path) { KeyInjective(d.kind, d.path, kind, path); }
  }

  lemma {:induction false} CountKeyFirst(s: Seen, n: nat, kind: Kind, path: string)
    requires n <= |s.r.differences| && OnePerPath(s.r.differences)
    ensures CountKey(FirstIn(s, n), Key(kind, path)) == if ShowsWithin(s.r, n, kind, path) then 1 else 0
    decreases n
  {
    if n == 0 {
    } else {
      var m := n - 1;
      CountKeyFirst(s, m, kind, path);
      FirstInStep(s, m);
      CountKeyAppend(FirstIn(s, m), OccurrenceOf(s, m), Key(kind, path));
      KeyOfIs(s, m, kind, path);
      ShowsMore(s.r, m, kind, path);
    }
  }

  ghost predicate EachOnePerPath(history: seq<Seen>) {
    forall i | 0 <= i < |history| :: OnePerPath(history[i].r.differences)
  }

  lemma CountIn(s: Seen, kind: Kind, path: string)
    requires OnePerPath(s.r.differences)
    ensures CountKey(OccurrencesIn(s), Key(kind, path)) == if Shows(s.r, kind, path) then 1 else 0
  {
    CountKeyFirst(s, |s.r.differences|, kind, path);
    assert OccurrencesIn(s)[..|s.r.differences|] == OccurrencesIn(s);
  }

  lemma CountMore(init: seq<Seen>, s: Seen, kind: Kind, path: string)
    requires OnePerPath(s.r.differences)
    ensures CountKey(Occurrences(init) + OccurrencesIn(s), Key(kind, path)) ==
            CountKey(Occurrences(init), Key(kind, path)) + if Shows(s.r, kind, path) then 1 else 0
  {
    CountIn(s, kind, path);
    CountConcat(Occurrences(init), OccurrencesIn(s), HasKey(Key(kind, path)));
  }

  /** When no result reports a path twice, a group counts the pairs that show it. */
  lemma {:induction false} CountsArePairs(history: seq<Seen>, kind: Kind, path: string)
    requires EachOnePerPath(history)
    ensures CountKey(Occurrences(history), Key(kind, path)) == ShownBy(history, kind, path)
  {
    if history == [] {
    } else {
      var n := |history| - 1;
      CountsArePairs(history[..n], kind, path);
      CountMore(history[..n], history[n], kind, path);
    }
  }

  lemma {:induction false} NothingOccurredIffAllIdentical(history: seq<Seen>)
    ensures Occurrences(history) == [] <==> Divergent(history) == 0
  {
    if history == [] {
    } else {
      NothingOccurredIffAllIdentical(history[..|history| - 1]);
    }
  }

  // ----- The totals --------------------------------------------------------------------------------

  function SumKeys(os: seq<Occurrence>, keys: seq<string>): nat {
    if keys == [] then 0 else SumKeys(os, keys[..|keys| - 1]) + CountKey(os, keys[|keys| - 1])
  }

  function SumFirst(os: seq<Occurrence>, keys: seq<string>, i: nat): nat
    requires i <= |keys|
  {
    SumKeys(os, keys[..i])
  }

  lemma SumFirstStep(os: seq<Occurrence>, keys: seq<string>, i: nat)
    requires i < |keys|
    ensures SumFirst(os, keys, i + 1) == SumFirst(os, keys, i) + CountKey(os, keys[i])
  {
    assert keys[..i + 1][..i] == keys[..i];
  }

  lemma {:induction false} SumKeysNone(keys: seq<string>)
    ensures SumKeys([], keys) == 0
  {
    if keys == [] {
    } else {
      SumKeysNone(keys[..|keys| - 1]);
    }
  }

  /** One more occurrence adds one to the counts, if its key is among them once. */
  lemma {:induction false} SumKeysOneMore(os: seq<Occurrence>, o: Occurrence, keys: seq<string>)
    requires Distinct(keys)
    ensures SumKeys(os + [o], keys) == SumKeys(os, keys) + if KeyOf(o) in keys then 1 else 0
  {
    if keys == [] {
    } else {
      var n := |keys| - 1;
      SumKeysOneMore(os, o, keys[..n]);
      CountKeyAppend(os, o, keys[n]);
      assert keys == keys[..n] + [keys[n]];
      assert keys[n] !in keys[..n];
    }
  }

  /** Under keys that cover everything, each once, the counts add up to all occurrences. */
  lemma {:induction false} CountsAddUp(os: seq<Occurrence>, keys: seq<string>)
    requires Distinct(keys) && Covered(os, keys)
    ensures SumKeys(os, keys) == |os|
  {
    if os == [] {
      SumKeysNone(keys);
    } else {
      var n := |os| - 1;
      CoveredInit(os, keys);
      CountsAddUp(os[..n], keys);
      SumKeysOneMore(os[..n], os[n], keys);
      assert os == os[..n] + [os[n]];
    }
  }

  ghost predicate Covered(os: seq<Occurrence>, keys: seq<string>) {
    forall i | 0 <= i < |os| :: KeyOf(os[i]) in keys
  }

  lemma CoveredInit(os: seq<Occurrence>, keys: seq<string>)
    requires os != [] && Covered(os, keys)
    ensures Covered(os[..|os| - 1], keys) && KeyOf(os[|os| - 1]) in keys
  {}

  function Total(gs: seq<Group>): nat {
    if gs == [] then 0 else gs[0].count + Total(gs[1..])
  }

  lemma {:induction false} TotalAppend(gs: seq<Group>, g: Group)
    ensures Total(gs + [g]) == Total(gs) + g.count
  {
    if gs == [] {
      assert [g][1..] == [] && gs + [g] == [g];
    } else {
      TotalAppend(gs[1..], g);
      assert (gs + [g])[1..] == gs[1..] + [g];
    }
  }

  lemma {:induction false} TotalInsert(leq: (Group, Group) -> bool, g: Group, gs: seq<Group>)
    ensures Total(Insert(leq, g, gs)) == g.count + Total(gs)
  {
    if gs == [] || leq(g, gs[0]) {
    } else {
      TotalInsert(leq, g, gs[1..]);
    }
  }

  lemma {:induction false} TotalSort(leq: (Group, Group) -> bool, gs: seq<Group>)
    ensures Total(Sort(leq, gs)) == Total(gs)
  {
    if gs == [] {
    } else {
      TotalSort(leq, gs[1..]);
      TotalInsert(leq, gs[0], Sort(leq, gs[1..]));
    }
  }

  // ----- The order of the report -------------------------------------------------------------------

  predicate Before(a: Group, b: Group) {
    var x, y := Rank(a.severity), Rank(b.severity);
    if x != y then x > y
    else if a.count != b.count then a.count > b.count
    else !Leq(b.path, a.path)
  }

  predicate NotAfter(a: Group, b: Group) {
    !Before(b, a)
  }

  lemma NotAfterTotalPreorder()
    ensures TotalPreorder(NotAfter)
  {
    LeqTotalPreorder();
    forall a, b ensures NotAfter(a, b) || NotAfter(b, a) { LeqTotal(a.path, b.path); }
  }

  /** The word an operator reads for each kind of difference. */
  predicate SeverityIs(g: Group, word: string) {
    match word
    case "high" => g.kind == Status
    case "medium" => g.kind == Shape || g.kind == BodyKey
    case "low" => g.kind == Header || g.kind == BodyVal
    case _ => false
  }

  /** How the lines of a report follow each other: status codes before everything, changes of shape
      and one-sided keys before headers and values; of one such class the more frequent first, and
      of equally frequent ones by the bytes of their paths. */
  ghost predicate MayPrecede(a: Group, b: Group) {
    && (b.kind == Status ==> a.kind == Status)
    && (b.kind in {Shape, BodyKey} ==> a.kind in {Status, Shape, BodyKey})
    && (SameClass(a.kind, b.kind) ==>
          a.count >= b.count && (a.count == b.count ==> a.path == b.path || BytesBefore(a.path, b.path)))
  }

  predicate SameClass(k: Kind, l: Kind) {
    (k == Status && l == Status) || (k in {Shape, BodyKey} && l in {Shape, BodyKey})
    || (k in {Header, BodyVal} && l in {Header, BodyVal})
  }

  lemma SeverityMeans(g: Group)
    requires g.severity == SeverityOf(g.kind)
    ensures SeverityIs(g, g.severity)
  {}

  lemma RanksByClass(k: Kind)
    ensures Rank(SeverityOf(k)) == if k == Status then 3 else if k in {Shape, BodyKey} then 2 else 1
  {
    assert "high"[0] == 'h' && "medium"[0] == 'm' && "low"[0] == 'l';
  }

  lemma NotAfterMeans(a: Group, b: Group)
    requires a.severity == SeverityOf(a.kind) && b.severity == SeverityOf(b.kind)
    ensures NotAfter(a, b) <==> MayPrecede(a, b)
  {
    RanksByClass(a.kind);
    RanksByClass(b.kind);
    LeqMeans(a.path, b.path);
  }

  lemma SortedMeans(gs: seq<Group>)
    requires Sorted(NotAfter, gs) && forall g | g in gs :: g.severity == SeverityOf(g.kind)
    ensures forall i, j | 0 <= i < j < |gs| :: MayPrecede(gs[i], gs[j])
    ensures forall g | g in gs :: SeverityIs(g, g.severity)
  {
    forall i, j | 0 <= i < j < |gs| ensures MayPrecede(gs[i], gs[j]) {
      assert gs[i] in gs && gs[j] in gs;
      NotAfterMeans(gs[i], gs[j]);
    }
    forall g | g in gs ensures SeverityIs(g, g.severity) { SeverityMeans(g); }
  }

  datatype Summary = Summary(pairs: nat, identical: nat, divergent: nat, suppressed: nat,
                             groups: seq<Group>, since: int, now: int)
  {
    function AgreementRate(): (rate: real) {
      if pairs == 0 then 0.0 else identical as real / pairs as real
    }
  }

  /** Full agreement is exactly a report in which pairs were compared and none diverged. */
  lemma AgreementRateMeans(s: Summary)
    requires s.identical + s.divergent == s.pairs
    ensures 0.0 <= s.AgreementRate() <= 1.0
    ensures s.AgreementRate() == 1.0 <==> s.pairs > 0 && s.divergent == 0
  {
    if s.identical > 0 { ShareBounds(s.identical, s.pairs); }
    if s.pairs > 0 { assert s.AgreementRate() * s.pairs as real == s.identical as real; }
  }

  function Rated(g: Group, pairs: nat): Group {
    if pairs > 0 then g.(rate := g.count as real / pairs as real) else g
  }

  // ----- The aggregator -------------------------------------------------------------------------------

  function StoredAt(groups: map<string, Group>, key: string): Option<Group> {
    if key in groups then Some(groups[key]) else None
  }

  /** The groups are the tallies of all occurrences, and there are no others. */
  ghost predicate Tallied(groups: map<string, Group>, os: seq<Occurrence>) {
    forall key :: StoredAt(groups, key) == Tally(os, key)
  }

  function Recorded(groups: map<string, Group>, o: Occurrence): map<string, Group> {
    groups[KeyOf(o) := Again(if KeyOf(o) in groups then groups[KeyOf(o)] else Began(o), o.at)]
  }

  lemma OneMoreOccurrence(groups: map<string, Group>, os: seq<Occurrence>, o: Occurrence)
    requires Tallied(groups, os)
    ensures Tallied(Recorded(groups, o), os + [o])
  {
    assert (os + [o])[..|os|] == os;
    assert StoredAt(groups, KeyOf(o)) == Tally(os, KeyOf(o));
    forall key ensures StoredAt(Recorded(groups, o), key) == Tally(os + [o], key) {
      assert StoredAt(groups, key) == Tally(os, key);
    }
  }

  /** The stored groups, each with its share of the pairs. */
  ghost function RatedGroups(groups: map<string, Group>, pairs: nat): set<Group> {
    set k | k in groups :: Rated(groups[k], pairs)
  }

  lemma OneMoreGroup(gs: seq<Group>, s: set<Group>, g: Group)
    requires multiset(gs) == multiset(s) && g !in s
    ensures multiset(gs + [g]) == multiset(s + {g})
  {}

  ghost function RatedFirst(groups: map<string, Group>, keys: seq<string>, i: nat, pairs: nat): set<Group>
    requires i <= |keys|
  {
    set k | k in keys[..i] && k in groups :: Rated(groups[k], pairs)
  }

  /** What is stored under a key is what occurred under it. */
  lemma StoredMeans(groups: map<string, Group>, os: seq<Occurrence>, key: string)
    requires Tallied(groups, os) && key in groups
    ensures groups[key].count == CountKey(os, key) >= 1 && groups[key].severity == SeverityOf(groups[key].kind)
    ensures Key(groups[key].kind, groups[key].path) == key
  {
    assert StoredAt(groups, key) == Tally(os, key);
    TallyMeans(os, key);
  }

  /** Groups under different keys are different groups. */
  lemma NextIsNew(groups: map<string, Group>, os: seq<Occurrence>, keys: seq<string>, i: nat, pairs: nat)
    requires Tallied(groups, os) && Distinct(keys) && i < |keys| && keys[i] in groups
    ensures Rated(groups[keys[i]], pairs) !in RatedFirst(groups, keys, i, pairs)
    ensures RatedFirst(groups, keys, i + 1, pairs) ==
            RatedFirst(groups, keys, i, pairs) + {Rated(groups[keys[i]], pairs)}
  {
    forall k | k in groups ensures Key(groups[k].kind, groups[k].path) == k {
      StoredMeans(groups, os, k);
    }
    assert keys[..i + 1] == keys[..i] + [keys[i]];
    assert keys[i] !in keys[..i];
  }

  lemma CopyOneMore(groups: map<string, Group>, os: seq<Occurrence>, keys: seq<string>, i: nat, pairs: nat,
                    out: seq<Group>)
    requires Tallied(groups, os) && Distinct(keys) && i < |keys| && keys[i] in groups
    requires multiset(out) == multiset(RatedFirst(groups, keys, i, pairs)) && Total(out) == SumFirst(os, keys, i)
    ensures var more := out + [Rated(groups[keys[i]], pairs)];
            && multiset(more) == multiset(RatedFirst(groups, keys, i + 1, pairs))
            && Total(more) == SumFirst(os, keys, i + 1)
  {
    var g := Rated(groups[keys[i]], pairs);
    NextIsNew(groups, os, keys, i, pairs);
    OneMoreGroup(out, RatedFirst(groups, keys, i, pairs), g);
    TotalAppend(out, g);
    StoredMeans(groups, os, keys[i]);
    SumFirstStep(os, keys, i);
  }

  lemma EveryOccurrenceIsStored(groups: map<string, Group>, os: seq<Occurrence>)
    requires Tallied(groups, os)
    ensures forall i | 0 <= i < |os| :: KeyOf(os[i]) in groups
    ensures os == [] ==> groups.Keys == {}
  {
    forall i | 0 <= i < |os| ensures KeyOf(os[i]) in groups {
      assert StoredAt(groups, KeyOf(os[i])) == Tally(os, KeyOf(os[i]));
      TallyMeans(os, KeyOf(os[i]));
      assert Occurs(os, KeyOf(os[i]));
    }
    if os == [] {
      forall key ensures key !in groups { assert StoredAt(groups, key) == Tally(os, key); }
    }
  }

  lemma RatedSeverities(groups: map<string, Group>, os: seq<Occurrence>, pairs: nat, gs: seq<Group>)
    requires Tallied(groups, os) && multiset(gs) == multiset(RatedGroups(groups, pairs))
    ensures forall g | g in gs :: g.severity == SeverityOf(g.kind)
  {
    forall g | g in gs ensures g.severity == SeverityOf(g.kind) {
      InMultiset(gs, g);
      assert g in multiset(RatedGroups(groups, pairs));
      var k :| k in groups && g == Rated(groups[k], pairs);
      StoredMeans(groups, os, k);
    }
  }

  class Aggregator {
    var groups: map<string, Group>
    var pairs: nat
    var identical: nat
    var suppressed: nat
    const since: int
    ghost var history: seq<Seen>

    ghost predicate Valid()
      reads this
    {
      && pairs == |history|
      && identical == |history| - Divergent(history)
      && suppressed == Suppressed(history)
      && Tallied(groups, Occurrences(history))
    }

    constructor (since: int)
      ensures Valid() && history == [] && this.since == since
    {
      groups, pairs, identical, suppressed, history := map[], 0, 0, 0, [];
      this.since := since;
    }

    /** Fold one comparison into the report. */
    method Add(r: Result, t: int)
      requires Valid()
      modifies this
      ensures Valid() && history == old(history) + [Seen(r, t)]
    {
      HistoryMore(history, Seen(r, t));
      history := history + [Seen(r, t)];
      pairs := pairs + 1;
      suppressed := suppressed + r.suppressed;
      if r.Identical() {
        identical := identical + 1;
        return;
      }
      AddGroups(r, t, Occurrences(old(history)));
    }

    /** Take in the differences one by one. */
    method AddGroups(r: Result, t: int, ghost before: seq<Occurrence>)
      requires Tallied(groups, before)
      modifies this`groups
      ensures Tallied(groups, before + OccurrencesIn(Seen(r, t)))
    {
      ghost var s := Seen(r, t);
      SoFarEnds(before, s);
      var i := 0;
      while i < |r.differences|
        invariant 0 <= i <= |r.differences|
        invariant Tallied(groups, SoFar(before, s, i))
      {
        var d := r.differences[i];
        OneMoreOccurrence(groups, SoFar(before, s, i), OccurrenceOf(s, i));
        SoFarStep(before, s, i);
        Count(d, Example(r.correlId, r.httpMethod, r.url, d.primary, d.shadow), t);
        i := i + 1;
      }
    }

    method Count(d: Difference, example: Example, t: int)
      modifies this`groups
      ensures groups == Recorded(old(groups), Occurrence(d.kind, d.path, example, t))
    {
      var key := Key(d.kind, d.path);
      if key !in groups {
        groups := groups[key := Group(d.kind, d.path, 0, SeverityOf(d.kind), 0.0, example, t, t)];
      }
      groups := groups[key := Again(groups[key], t)];
    }

    /** Copy the groups out in whatever order they are iterated, rate them, and sort them.
        Groups that tie in severity, count and path may come in either order. */
    method Summarise(now: int) returns (s: Summary)
      requires Valid()
      ensures s.pairs == |history| && s.divergent == Divergent(history) && s.suppressed == Suppressed(history)
      ensures s.identical + s.divergent == s.pairs && s.since == since && s.now == now
      ensures multiset(s.groups) == multiset(RatedGroups(groups, pairs))
      ensures Sorted(NotAfter, s.groups)
      ensures forall i, j | 0 <= i < j < |s.groups| :: MayPrecede(s.groups[i], s.groups[j])
      ensures forall g | g in s.groups :: SeverityIs(g, g.severity)
      ensures Total(s.groups) == |Occurrences(history)|
      ensures s.groups == [] <==> s.divergent == 0
    {
      var out := Copied();
      NotAfterTotalPreorder();
      SortSorted(NotAfter, out);
      TotalSort(NotAfter, out);
      NothingOccurredIffAllIdentical(history);
      s := Summary(pairs, identical, pairs - identical, suppressed, Sort(NotAfter, out), since, now);
      RatedSeverities(groups, Occurrences(history), pairs, s.groups);
      SortedMeans(s.groups);
    }

    /** The groups with their rates, in no particular order. */
    method Copied() returns (out: seq<Group>)
      requires Valid()
      ensures multiset(out) == multiset(RatedGroups(groups, pairs))
      ensures Total(out) == |Occurrences(history)|
      ensures out == [] <==> Occurrences(history) == []
    {
      var keys := Collect(groups.Keys);
      DistinctByMultiset(keys, groups.Keys);
      ghost var os := Occurrences(history);
      out := [];
      var i := 0;
      while i < |keys|
        invariant 0 <= i <= |keys| && |out| == i
        invariant multiset(out) == multiset(RatedFirst(groups, keys, i, pairs))
        invariant Total(out) == SumFirst(os, keys, i)
      {
        var g := Rated(groups[keys[i]], pairs);
        CopyOneMore(groups, os, keys, i, pairs, out);
        out := out + [g];
        i := i + 1;
      }
      assert keys[..|keys|] == keys;
      assert RatedFirst(groups, keys, |keys|, pairs) == RatedGroups(groups, pairs);
      EveryOccurrenceIsStored(groups, os);
      CountsAddUp(os, keys);
    }
  }

  ghost predicate Honest(g: Group, history: seq<Seen>) {
    && g.count == ShownBy(history, g.kind, g.path) && 1 <= g.count <= Divergent(history)
    && |history| > 0 && g.rate == g.count as real / |history| as real && 0.0 < g.rate <= 1.0
  }

  /** What a line of the report says when no result reports a path twice: how many of the
      compared pairs show this difference, at least one and at most those that diverged. */
  lemma {:induction false} RatesAreShares(history: seq<Seen>, groups: map<string, Group>, g: Group)
    requires EachOnePerPath(history) && Tallied(groups, Occurrences(history))
    requires g in RatedGroups(groups, |history|)
    ensures Honest(g, history)
  {
    var k :| k in groups && g == Rated(groups[k], |history|);
    StoredCountsPairs(history, groups, k);
    ShareBounds(groups[k].count, |history|);
  }

  lemma StoredCountsPairs(history: seq<Seen>, groups: map<string, Group>, k: string)
    requires EachOnePerPath(history) && Tallied(groups, Occurrences(history)) && k in groups
    ensures groups[k].count == ShownBy(history, groups[k].kind, groups[k].path) >= 1
  {
    StoredMeans(groups, Occurrences(history), k);
    CountsArePairs(history, groups[k].kind, groups[k].path);
  }

  lemma ShareBounds(n: nat, of: nat)
    requires 1 <= n <= of
    ensures 0.0 < n as real / of as real <= 1.0
  {}

  // ----- What a line shows ------------------------------------------------------------------------------

  /** How many occurrences the first h results make. */
  function Offset(history: seq<Seen>, h: nat): nat
    requires h <= |history|
  {
    |Occurrences(history[..h])|
  }

  lemma OffsetStep(history: seq<Seen>, h: nat)
    requires h < |history|
    ensures Offset(history, h + 1) == Offset(history, h) + |history[h].r.differences|
  {
    assert history[..h + 1][..h] == history[..h];
  }

  lemma {:induction false} OffsetGrows(history: seq<Seen>, g: nat, h: nat)
    requires g <= h <= |history|
    ensures Offset(history, g) <= Offset(history, h)
    decreases h
  {
    if g == h {
    } else {
      OffsetGrows(history, g, h - 1);
      OffsetStep(history, h - 1);
    }
  }

  /** The occurrence that difference i of result h makes. */
  lemma {:induction false} OccurrenceAt(history: seq<Seen>, h: nat, i: nat)
    requires h < |history| && i < |history[h].r.differences|
    ensures Offset(history, h) + i < |Occurrences(history)|
    ensures Occurrences(history)[Offset(history, h) + i] == OccurrenceOf(history[h], i)
  {
    var n := |history| - 1;
    var init := history[..n];
    assert history[..n] == init;
    if h == n {
    } else {
      OccurrenceAt(init, h, i);
      assert init[..h] == history[..h];
    }
  }

  /** And which difference makes occurrence n. */
  lemma {:induction false} WhoseOccurrence(history: seq<Seen>, n: nat) returns (h: nat, i: nat)
    requires n < |Occurrences(history)|
    ensures h < |history| && i < |history[h].r.differences| && n == Offset(history, h) + i
  {
    var last := |history| - 1;
    var init := history[..last];
    if n < |Occurrences(init)| {
      h, i := WhoseOccurrence(init, n);
      assert init[..h] == history[..h];
    } else {
      h, i := last, n - |Occurrences(init)|;
    }
  }

  lemma KeyIsItsOwn(s: Seen, i: nat, kind: Kind, path: string)
    requires i < |s.r.differences|
    ensures KeyOf(OccurrenceOf(s, i)) == Key(kind, path) <==>
            s.r.differences[i].kind == kind && s.r.differences[i].path == path
  {
    KeyOfIs(s, i, kind, path);
  }

  /** No result before h shows this kind of difference at this path, and h shows it as its
      difference i. */
  ghost predicate FirstShown(history: seq<Seen>, g: Group, h: nat, i: nat) {
    && h < |history| && i < |history[h].r.differences|
    && (forall j | 0 <= j < h :: !Shows(history[j].r, g.kind, g.path))
    && var r, d := history[h].r, history[h].r.differences[i];
    && d.kind == g.kind && d.path == g.path
    && g.example == Example(r.correlId, r.httpMethod, r.url, d.primary, d.shadow) && g.firstAt == history[h].at
  }

  /** Result h shows it and bears the group's last time, and no later result shows it. */
  ghost predicate LastShown(history: seq<Seen>, g: Group, h: nat) {
    && h < |history| && Shows(history[h].r, g.kind, g.path) && g.lastAt == history[h].at
    && forall j | h < j < |history| :: !Shows(history[j].r, g.kind, g.path)
  }

  /** A line of the report shows the request and the two values of the first pair that differed
      there, when that was, and when it was last so. */
  ghost predicate Telling(g: Group, history: seq<Seen>) {
    && (exists h: nat, i: nat :: FirstShown(history, g, h, i))
    && (exists h: nat :: LastShown(history, g, h))
  }

  lemma NotShownBefore(history: seq<Seen>, kind: Kind, path: string, n: nat, h: nat, j: nat)
    requires n < |Occurrences(history)| && h < |history| && Offset(history, h) <= n && j < h
    requires forall m | 0 <= m < n :: KeyOf(Occurrences(history)[m]) != Key(kind, path)
    ensures !Shows(history[j].r, kind, path)
  {
    var r := history[j].r;
    forall i | 0 <= i < |r.differences| ensures !(r.differences[i].kind == kind && r.differences[i].path == path) {
      OccurrenceAt(history, j, i);
      OffsetStep(history, j);
      OffsetGrows(history, j + 1, h);
      KeyIsItsOwn(history[j], i, kind, path);
    }
  }

  lemma NotShownAfter(history: seq<Seen>, kind: Kind, path: string, n: nat, h: nat, j: nat)
    requires h < |history| && n < Offset(history, h + 1) && h < j < |history|
    requires forall m | n < m < |Occurrences(history)| :: KeyOf(Occurrences(history)[m]) != Key(kind, path)
    ensures !Shows(history[j].r, kind, path)
  {
    var r := history[j].r;
    forall i | 0 <= i < |r.differences| ensures !(r.differences[i].kind == kind && r.differences[i].path == path) {
      OccurrenceAt(history, j, i);
      OffsetGrows(history, h + 1, j);
      KeyIsItsOwn(history[j], i, kind, path);
    }
  }

  lemma OpensTells(history: seq<Seen>, g: Group, n: nat) returns (h: nat, i: nat)
    requires Opens(Occurrences(history), Key(g.kind, g.path), g, n)
    ensures FirstShown(history, g, h, i)
  {
    h, i := WhoseOccurrence(history, n);
    OccurrenceAt(history, h, i);
    KeyIsItsOwn(history[h], i, g.kind, g.path);
    forall j | 0 <= j < h ensures !Shows(history[j].r, g.kind, g.path) {
      NotShownBefore(history, g.kind, g.path, n, h, j);
    }
  }

  lemma ClosesTells(history: seq<Seen>, g: Group, n: nat) returns (h: nat)
    requires Closes(Occurrences(history), Key(g.kind, g.path), g, n)
    ensures LastShown(history, g, h)
  {
    var i;
    h, i := WhoseOccurrence(history, n);
    OccurrenceAt(history, h, i);
    OffsetStep(history, h);
    KeyIsItsOwn(history[h], i, g.kind, g.path);
    forall j | h < j < |history| ensures !Shows(history[j].r, g.kind, g.path) {
      NotShownAfter(history, g.kind, g.path, n, h, j);
    }
  }

  lemma {:induction false} EveryGroupTells(history: seq<Seen>, groups: map<string, Group>, g: Group)
    requires Tallied(groups, Occurrences(history)) && g in RatedGroups(groups, |history|)
    ensures Telling(g, history)
  {
    var os := Occurrences(history);
    var k :| k in groups && g == Rated(groups[k], |history|);
    assert StoredAt(groups, k) == Tally(os, k);
    StoredMeans(groups, os, k);
    var first := TallyOpens(os, k);
    var last := TallyCloses(os, k);
    assert Opens(os, k, g, first) && Closes(os, k, g, last);
    var h, i := OpensTells(history, g, first);
    var l := ClosesTells(history, g, last);
  }
}
