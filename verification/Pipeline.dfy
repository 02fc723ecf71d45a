/** The consumer: it takes completed pairs off the backlog, compares them and reports. */
module Pipeline {
  import opened Text
  import opened Sorting
  import opened Collector
  import opened Diff
  import opened DiffPaths
  import opened Report

  /** What the comparison of the first n pairs leaves in the report's history. */
  ghost function Outcomes(e: Engine, pairs: seq<Pair>, clock: seq<int>, n: nat): (history: seq<Seen>)
    requires n <= |pairs| && n <= |clock|
    ensures |history| == n
  {
    if n == 0 then [] else Outcomes(e, pairs, clock, n - 1) + [Seen(ResultOf(e, pairs[n - 1]), clock[n - 1])]
  }

  lemma {:induction false} OutcomesAreUnique(e: Engine, pairs: seq<Pair>, clock: seq<int>, n: nat)
    requires n <= |pairs| && n <= |clock|
    ensures EachOnePerPath(Outcomes(e, pairs, clock, n))
  {
    if n == 0 {
    } else {
      OutcomesAreUnique(e, pairs, clock, n - 1);
      ResultPathsUnique(e, pairs[n - 1]);
    }
  }

  lemma UniqueConcat(x: seq<Seen>, y: seq<Seen>)
    requires EachOnePerPath(x) && EachOnePerPath(y)
    ensures EachOnePerPath(x + y)
  {}

  /** The pairs of a backlog as the comparison reads them. */
  ghost predicate AllReadAs(read: seq<Pair>, pairs: seq<Pair>) {
    |read| == |pairs| && forall i | 0 <= i < |pairs| :: ReadAs(read[i], pairs[i])
  }

  /** After n rounds: what is left of the backlog, and how the pairs taken off it were read. */
  ghost predicate TakenOff(rest: seq<Pair>, all: seq<Pair>, read: seq<Pair>, n: nat) {
    n <= |all| && rest == all[n..] && AllReadAs(read, all[..n])
  }

  /** And what has been added to the report. */
  ghost predicate Added(history: seq<Seen>, e: Engine, read: seq<Pair>, before: seq<Seen>, clock: seq<int>, n: nat) {
    n == |read| && n <= |clock| && history == before + Outcomes(e, read, clock, n)
  }

  lemma {:induction false} OutcomesFrame(e: Engine, pairs: seq<Pair>, p: Pair, clock: seq<int>, n: nat)
    requires n <= |pairs| && n <= |clock|
    ensures Outcomes(e, pairs + [p], clock, n) == Outcomes(e, pairs, clock, n)
  {
    if n == 0 {
    } else {
      OutcomesFrame(e, pairs, p, clock, n - 1);
    }
  }

  lemma OneMoreTaken(rest: seq<Pair>, all: seq<Pair>, read: seq<Pair>, n: nat, q: Pair)
    requires TakenOff(rest, all, read, n) && rest != [] && ReadAs(q, rest[0])
    ensures TakenOff(rest[1..], all, read + [q], n + 1)
  {
    assert rest[0] == all[n] && rest[1..] == all[n + 1..];
    assert all[..n + 1] == all[..n] + [all[n]];
    OneMoreRead(read, all[..n], q, all[n]);
  }

  lemma OneMoreAdded(history: seq<Seen>, e: Engine, read: seq<Pair>, before: seq<Seen>,
                     clock: seq<int>, n: nat, q: Pair)
    requires Added(history, e, read, before, clock, n) && n < |clock|
    ensures Added(history + [Seen(ResultOf(e, q), clock[n])], e, read + [q], before, clock, n + 1)
  {
    OneMoreOutcome(e, read, q, clock, n);
    Associative(before, Outcomes(e, read, clock, n), [Seen(ResultOf(e, q), clock[n])]);
  }

  lemma OneMoreRead(read: seq<Pair>, pairs: seq<Pair>, q: Pair, p: Pair)
    requires AllReadAs(read, pairs) && ReadAs(q, p)
    ensures AllReadAs(read + [q], pairs + [p])
  {}

  lemma OneMoreOutcome(e: Engine, read: seq<Pair>, q: Pair, clock: seq<int>, n: nat)
    requires n == |read| && n < |clock|
    ensures Outcomes(e, read + [q], clock, n + 1) == Outcomes(e, read, clock, n) + [Seen(ResultOf(e, q), clock[n])]
  {
    OutcomesFrame(e, read, q, clock, n);
    assert (read + [q])[n] == q;
  }

  /** Compare a pair and report what came out. */
  method Digest(e: Engine, p: Pair, agg: Aggregator, t: int) returns (ghost q: Pair)
    requires agg.Valid()
    modifies agg
    ensures agg.Valid()
    ensures ReadAs(q, p) && agg.history == old(agg.history) + [Seen(ResultOf(e, q), t)]
  {
    var r;
    r, q := Diff.Compare(e, p);
    agg.Add(r, t);
  }

  /** One round of the consumer. */
  method ConsumeOne(buf: Buffer, e: Engine, agg: Aggregator, t: int) returns (ghost q: Pair)
    requires buf.Inv() && agg.Valid() && buf.pairs != []
    modifies buf`pairs, agg
    ensures buf.Inv() && agg.Valid() && buf.Abs() == old(buf.Abs())
    ensures buf.pairs == old(buf.pairs[1..])
    ensures ReadAs(q, old(buf.pairs[0])) && agg.history == old(agg.history) + [Seen(ResultOf(e, q), t)]
  {
    var p := buf.Receive();
    q := Digest(e, p, agg, t);
  }

  /** Take pairs off the backlog until it is empty, or the consumer is stopped: it makes as many
      rounds as there are clock readings. No result it adds reports a path twice. */
  method Consume(buf: Buffer, e: Engine, agg: Aggregator, clock: seq<int>) returns (taken: nat, ghost read: seq<Pair>)
    requires buf.Inv() && agg.Valid()
    modifies buf`pairs, agg
    ensures buf.Inv() && agg.Valid() && buf.Abs() == old(buf.Abs())
    ensures taken <= |clock| && taken <= |old(buf.pairs)|
    ensures taken == |clock| || taken == |old(buf.pairs)|
    ensures buf.pairs == old(buf.pairs)[taken..] && AllReadAs(read, old(buf.pairs)[..taken])
    ensures agg.history == old(agg.history) + Outcomes(e, read, clock, taken)
    ensures old(EachOnePerPath(agg.history)) ==> EachOnePerPath(agg.history)
  {
    taken, read := 0, [];
    ghost var all, before := buf.pairs, agg.history;
    while taken < |clock| && buf.pairs != []
      invariant buf.Inv() && buf.Abs() == old(buf.Abs()) && agg.Valid()
      invariant TakenOff(buf.pairs, all, read, taken) && Added(agg.history, e, read, before, clock, taken)
      decreases |clock| - taken
    {
      ghost var rest, history := buf.pairs, agg.history;
      ghost var q := ConsumeOne(buf, e, agg, clock[taken]);
      OneMoreTaken(rest, all, read, taken, q);
      OneMoreAdded(history, e, read, before, clock, taken, q);
      read := read + [q];
      taken := taken + 1;
    }
    OutcomesAreUnique(e, read, clock, taken);
    if EachOnePerPath(before) { UniqueConcat(before, Outcomes(e, read, clock, taken)); }
  }

  lemma InBag(gs: seq<Group>, s: set<Group>, g: Group)
    requires multiset(gs) == multiset(s) && g in gs
    ensures g in s
  {
    InMultiset(gs, g);
  }

  lemma EveryLineIsHonest(history: seq<Seen>, groups: map<string, Group>, gs: seq<Group>)
    requires EachOnePerPath(history) && Tallied(groups, Occurrences(history))
    requires multiset(gs) == multiset(RatedGroups(groups, |history|))
    ensures forall g | g in gs :: Honest(g, history)
  {
    forall g | g in gs ensures Honest(g, history) {
      InBag(gs, RatedGroups(groups, |history|), g);
      RatesAreShares(history, groups, g);
    }
  }

  lemma EveryLineTells(history: seq<Seen>, groups: map<string, Group>, gs: seq<Group>)
    requires Tallied(groups, Occurrences(history))
    requires multiset(gs) == multiset(RatedGroups(groups, |history|))
    ensures forall g | g in gs :: Telling(g, history)
  {
    forall g | g in gs ensures Telling(g, history) {
      InBag(gs, RatedGroups(groups, |history|), g);
      EveryGroupTells(history, groups, g);
    }
  }

  /** What the report page shows after any such consuming, under any rules: the headline numbers
      add up, each line counts the pairs that show that difference and its rate is their share,
      the counts add up to the differences, and there are no lines exactly when every pair was
      found identical. */
  method ReadReport(agg: Aggregator, now: int) returns (s: Summary)
    requires agg.Valid() && EachOnePerPath(agg.history)
    ensures s.pairs == |agg.history| && s.identical + s.divergent == s.pairs && s.divergent == Divergent(agg.history)
    ensures Total(s.groups) == |Occurrences(agg.history)|
    ensures s.groups == [] <==> s.divergent == 0
    ensures forall i, j | 0 <= i < j < |s.groups| :: MayPrecede(s.groups[i], s.groups[j])
    ensures forall g | g in s.groups :: SeverityIs(g, g.severity)
    ensures forall g | g in s.groups :: Honest(g, agg.history) && Telling(g, agg.history)
  {
    s := agg.Summarise(now);
    EveryLineIsHonest(agg.history, agg.groups, s.groups);
    EveryLineTells(agg.history, agg.groups, s.groups);
  }

  // ----- Lines count requests ---------------------------------------------------------------------------

  ghost predicate IdsApart(history: seq<Seen>) {
    forall i, j | 0 <= i < j < |history| :: history[i].r.correlId != history[j].r.correlId
  }

  /** The ids of the results that show this kind of difference at this path. */
  ghost function IdsShowing(history: seq<Seen>, kind: Kind, path: string): set<string> {
    set i | 0 <= i < |history| && Shows(history[i].r, kind, path) :: history[i].r.correlId
  }

  lemma IdsShowingMore(history: seq<Seen>, s: Seen, kind: Kind, path: string)
    requires IdsApart(history + [s])
    ensures IdsApart(history)
    ensures IdsShowing(history + [s], kind, path) ==
            IdsShowing(history, kind, path) + if Shows(s.r, kind, path) then {s.r.correlId} else {}
    ensures s.r.correlId !in IdsShowing(history, kind, path)
  {
    var more := history + [s];
    assert more[|history|] == s;
    forall i | 0 <= i < |history| ensures more[i] == history[i] {}
    forall i, j | 0 <= i < j < |history| ensures history[i].r.correlId != history[j].r.correlId {
      assert more[i].r.correlId != more[j].r.correlId;
    }
    forall i | 0 <= i < |history| ensures history[i].r.correlId != s.r.correlId {
      assert more[i].r.correlId != more[|history|].r.correlId;
    }
  }

  /** When no two results are of one request, which is so of a buffer fed only by the proxy, a
      line of the report counts the requests that show its difference. */
  lemma {:induction false} LinesCountRequests(history: seq<Seen>, kind: Kind, path: string)
    requires IdsApart(history)
    ensures ShownBy(history, kind, path) == |IdsShowing(history, kind, path)|
  {
    if history == [] {
      assert IdsShowing(history, kind, path) == {};
    } else {
      var n := |history| - 1;
      assert history == history[..n] + [history[n]];
      IdsShowingMore(history[..n], history[n], kind, path);
      LinesCountRequests(history[..n], kind, path);
    }
  }

  /** A result bears the id of the pair it came from. */
  lemma {:induction false} OutcomeBearsId(e: Engine, pairs: seq<Pair>, clock: seq<int>, n: nat, i: nat)
    requires i < n <= |pairs| && n <= |clock|
    ensures Outcomes(e, pairs, clock, n)[i].r.correlId == pairs[i].correlId
  {
    if i == n - 1 {
      assert Outcomes(e, pairs, clock, n)[i] == Seen(ResultOf(e, pairs[i]), clock[i]);
    } else {
      OutcomeBearsId(e, pairs, clock, n - 1, i);
      assert Outcomes(e, pairs, clock, n)[i] == Outcomes(e, pairs, clock, n - 1)[i];
    }
  }

  /** So pairs of different requests make lines that count requests. */
  lemma OutcomesCountRequests(e: Engine, pairs: seq<Pair>, clock: seq<int>, n: nat, kind: Kind, path: string)
    requires n <= |pairs| && n <= |clock|
    requires forall i, j | 0 <= i < j < n :: pairs[i].correlId != pairs[j].correlId
    ensures var history := Outcomes(e, pairs, clock, n);
            ShownBy(history, kind, path) == |IdsShowing(history, kind, path)|
  {
    var history := Outcomes(e, pairs, clock, n);
    forall i, j | 0 <= i < j < n ensures history[i].r.correlId != history[j].r.correlId {
      OutcomeBearsId(e, pairs, clock, n, i);
      OutcomeBearsId(e, pairs, clock, n, j);
    }
    LinesCountRequests(history, kind, path);
  }
}
