/** What a run's history says about its pairs: whose halves they are, and how old. */
module CollectorHistory {
  import opened Text
  import opened Sorting
  import opened Collector
  import opened CollectorRuns

  /** The halves of a pair are two sides of one id, and nothing with that id was filed in
      between: the held half is the most recent capture of its side. */
  ghost predicate GoodMade(filed: seq<Capture>, m: Made) {
    && m.earlier < m.later < |filed|
    && var first, second := filed[m.earlier], filed[m.later];
    && WellFormed(first) && WellFormed(second) && first.path != second.path
    && Last(filed, m.later, second.correlId) == Some(m.earlier)
    && m.pair == MakePair(second, first)
  }

  ghost predicate NeverLater(made: seq<Made>, i: nat) {
    forall k | 0 <= k < |made| :: made[k].later != i
  }

  /** A pending capture is the last one filed under its id, and completed no pair. */
  ghost predicate HeldIsLast(filed: seq<Capture>, made: seq<Made>, id: string, c: Capture) {
    match Last(filed, |filed|, id)
    case None => false
    case Some(i) => filed[i] == c && NeverLater(made, i)
  }

  ghost predicate GoodPairs(filed: seq<Capture>, made: seq<Made>) {
    && (forall k | 0 <= k < |made| :: GoodMade(filed, made[k]))
    && (forall i, j | 0 <= i < j < |made| :: made[i].later < made[j].later && made[i].later != made[j].earlier)
  }

  ghost predicate Traced(s: Sys) {
    && GoodPairs(s.filed, s.made)
    && forall id | id in s.buf.pending :: HeldIsLast(s.filed, s.made, id, s.buf.pending[id].capture)
  }

  lemma {:induction false} LastFrame(filed: seq<Capture>, c: Capture, n: nat, id: string)
    requires n <= |filed|
    ensures Last(filed + [c], n, id) == Last(filed, n, id)
  {
    if n == 0 {
    } else {
      LastFrame(filed, c, n - 1, id);
    }
  }

  lemma {:induction false} LastBears(filed: seq<Capture>, n: nat, id: string)
    requires n <= |filed|
    ensures match Last(filed, n, id)
            case None => forall j | 0 <= j < n :: filed[j].correlId != id
            case Some(i) => i < n && filed[i].correlId == id && forall j | i < j < n :: filed[j].correlId != id
  {
    if n == 0 || filed[n - 1].correlId == id {
    } else {
      LastBears(filed, n - 1, id);
    }
  }

  lemma GoodPairsFrame(filed: seq<Capture>, made: seq<Made>, c: Capture)
    requires GoodPairs(filed, made)
    ensures GoodPairs(filed + [c], made)
  {
    forall k | 0 <= k < |made| ensures GoodMade(filed + [c], made[k]) {
      var m := made[k];
      assert GoodMade(filed, m);
      LastFrame(filed, c, m.later, filed[m.later].correlId);
    }
  }

  lemma HeldFrame(filed: seq<Capture>, made: seq<Made>, c: Capture, id: string, held: Capture)
    requires HeldIsLast(filed, made, id, held) && c.correlId != id
    ensures HeldIsLast(filed + [c], made, id, held)
  {
    LastFrame(filed, c, |filed|, id);
    LastBears(filed, |filed|, id);
  }

  lemma NewIsLast(filed: seq<Capture>, made: seq<Made>, c: Capture)
    requires GoodPairs(filed, made)
    ensures HeldIsLast(filed + [c], made, c.correlId, c)
  {
    forall k | 0 <= k < |made| ensures made[k].later != |filed| { assert GoodMade(filed, made[k]); }
  }

  lemma RepeatedTraced(s: Sys, c: Capture, now: int)
    requires Traced(s) && c.correlId in s.buf.pending
    ensures Traced(Repeated(s, c, now))
  {
    var t := Repeated(s, c, now);
    GoodPairsFrame(s.filed, s.made, c);
    NewIsLast(s.filed, s.made, c);
    forall id | id in t.buf.pending && id != c.correlId
      ensures HeldIsLast(t.filed, t.made, id, t.buf.pending[id].capture)
    {
      HeldFrame(s.filed, s.made, c, id, s.buf.pending[id].capture);
    }
  }

  lemma HeldTraced(o: Options, s: Sys, c: Capture, now: int)
    requires Legal(o, s) && Traced(s) && WellFormed(c) && c.correlId !in s.buf.pending
    ensures Traced(Held(o, s, c, now))
  {
    var t := Held(o, s, c, now);
    HoldSplits(o, Arrive(s.buf), c, now);
    GoodPairsFrame(s.filed, s.made, c);
    NewIsLast(s.filed, s.made, c);
    forall id | id in t.buf.pending && id != c.correlId
      ensures HeldIsLast(t.filed, t.made, id, t.buf.pending[id].capture)
    {
      DropHeadsPending(Arrive(s.buf), Overflow(o, s.buf), id);
      HeldFrame(s.filed, s.made, c, id, s.buf.pending[id].capture);
    }
  }

  lemma PairedIsGood(o: Options, s: Sys, c: Capture, now: int)
    requires Legal(o, s) && Traced(s) && WellFormed(c)
    requires c.correlId in s.buf.pending && s.buf.pending[c.correlId].capture.path != c.path
    ensures var t := Paired(s, c, now); GoodMade(t.filed, t.made[|s.made|]) && t.made[|s.made|].later == |s.filed|
    ensures NeverLater(s.made, Paired(s, c, now).made[|s.made|].earlier)
  {
    ListedMeans(s.buf.order, s.buf.pending);
    assert FiledUnder(c.correlId, s.buf.pending[c.correlId]);
    assert HeldIsLast(s.filed, s.made, c.correlId, s.buf.pending[c.correlId].capture);
    LastFrame(s.filed, c, |s.filed|, c.correlId);
  }

  lemma GoodPairsAppend(filed: seq<Capture>, made: seq<Made>, c: Capture, m: Made)
    requires GoodPairs(filed, made) && GoodMade(filed + [c], m)
    requires m.later == |filed| && NeverLater(made, m.earlier)
    ensures GoodPairs(filed + [c], made + [m])
  {
    var more := made + [m];
    GoodPairsFrame(filed, made, c);
    forall k | 0 <= k < |more| ensures GoodMade(filed + [c], more[k]) {
      if k < |made| { assert more[k] == made[k]; }
    }
    forall i, j | 0 <= i < j < |more| ensures more[i].later < more[j].later && more[i].later != more[j].earlier {
      assert more[i] == made[i] && GoodMade(filed, made[i]);
    }
  }

  lemma OthersStayHeld(filed: seq<Capture>, made: seq<Made>, c: Capture, m: Made, id: string, held: Capture)
    requires HeldIsLast(filed, made, id, held) && c.correlId != id && m.later == |filed|
    ensures HeldIsLast(filed + [c], made + [m], id, held)
  {
    HeldFrame(filed, made, c, id, held);
    LastFrame(filed, c, |filed|, id);
    LastBears(filed, |filed|, id);
  }

  lemma PairedTraced(o: Options, s: Sys, c: Capture, now: int)
    requires Legal(o, s) && Traced(s) && WellFormed(c)
    requires c.correlId in s.buf.pending && s.buf.pending[c.correlId].capture.path != c.path
    ensures Traced(Paired(s, c, now))
  {
    var t := Paired(s, c, now);
    var m := t.made[|s.made|];
    PairedIsGood(o, s, c, now);
    GoodPairsAppend(s.filed, s.made, c, m);
    forall id | id in t.buf.pending ensures HeldIsLast(t.filed, t.made, id, t.buf.pending[id].capture) {
      OthersStayHeld(s.filed, s.made, c, m, id, s.buf.pending[id].capture);
    }
  }

  lemma AgeTraced(o: Options, s: Sys, now: int)
    requires Legal(o, s) && Traced(s)
    ensures Traced(Age(o, s, now))
  {
    var _ := ExpireShrinks(o, s.buf, now);
  }

  lemma FileTraced(o: Options, s: Sys, c: Capture, now: int)
    requires Legal(o, s) && Traced(s) && WellFormed(c)
    ensures Traced(File(o, s, c, now))
  {
    if c.correlId !in s.buf.pending {
      HeldTraced(o, s, c, now);
    } else if s.buf.pending[c.correlId].capture.path == c.path {
      RepeatedTraced(s, c, now);
    } else {
      PairedTraced(o, s, c, now);
    }
  }

  lemma ArrivalTraced(o: Options, s: Sys, c: Capture, now: int)
    requires Legal(o, s) && Traced(s)
    ensures Traced(Arrival(o, s, c, now))
  {
    if WellFormed(c) {
      IngestIsLock(o, s, c, now);
      AgeTraced(o, s, now);
      FileTraced(o, Age(o, s, now), Stamp(c, now), now);
    }
  }

  lemma MoveTraced(s: Sys, k: nat, stage: Stage)
    requires Traced(s) && k < |s.made|
    ensures Traced(Move(s, k, stage))
  {
    var t := Move(s, k, stage);
    forall i | 0 <= i < |t.made| ensures GoodMade(t.filed, t.made[i]) {
      assert GoodMade(s.filed, s.made[i]);
    }
    forall i, j | 0 <= i < j < |t.made|
      ensures t.made[i].later < t.made[j].later && t.made[i].later != t.made[j].earlier
    {
      assert s.made[i].later < s.made[j].later && s.made[i].later != s.made[j].earlier;
    }
    forall id | id in t.buf.pending ensures HeldIsLast(t.filed, t.made, id, t.buf.pending[id].capture) {
      assert HeldIsLast(s.filed, s.made, id, s.buf.pending[id].capture);
    }
  }

  lemma StepTraced(o: Options, s: Sys, e: Event)
    requires Legal(o, s) && Traced(s)
    ensures Traced(Step(o, s, e))
  {
    match e
    case Ingest(c, now) => ArrivalTraced(o, s, c, now);
    case Sweep(now) => AgeTraced(o, s, now);
    case Send(k) => OfferTraced(o, s, k);
    case SecondLock(k) => LoseTraced(s, k);
    case Receive => if s.backlog != [] && s.backlog[0] < |s.made| { MoveTraced(s, s.backlog[0], Consumed); }
  }

  lemma OfferTraced(o: Options, s: Sys, k: nat)
    requires Traced(s)
    ensures Traced(Offer(o, s, k))
  {
    if k < |s.made| { MoveTraced(s, k, if |s.backlog| < o.backlog then Queued else Refused); }
  }

  lemma LoseTraced(s: Sys, k: nat)
    requires Traced(s)
    ensures Traced(Lose(s, k))
  {
    if k < |s.made| { MoveTraced(s, k, Lost); }
  }

  lemma {:induction false} RunTraced(o: Options, events: seq<Event>)
    requires o.Valid()
    ensures Traced(Run(o, events))
  {
    if events == [] {
    } else {
      RunTraced(o, events[..|events| - 1]);
      StepTraced(o, Run(o, events[..|events| - 1]), events[|events| - 1]);
    }
  }

  /** In every interleaving, a pair joins the primary and the shadow capture of one id; the
      earlier half is the latest capture filed under that id before the later half; and no
      filed capture is a half of two pairs. */
  lemma PairsAreSound(o: Options, events: seq<Event>, k: nat)
    requires o.Valid() && k < |Run(o, events).made|
    ensures var s := Run(o, events);
            var m, p := s.made[k], s.made[k].pair;
            && p.primary.path == PRIMARY && p.shadow.path == SHADOW
            && p.primary.correlId == p.shadow.correlId == p.correlId && p.correlId != ""
            && m.earlier < m.later < |s.filed|
            && {s.filed[m.earlier], s.filed[m.later]} == {p.primary, p.shadow}
            && (forall j | m.earlier < j < m.later :: s.filed[j].correlId != p.correlId)
            && (forall j | 0 <= j < |s.made| && j != k ::
                  {s.made[j].earlier, s.made[j].later} !! {m.earlier, m.later})
  {
    RunTraced(o, events);
    var s := Run(o, events);
    var m := s.made[k];
    assert GoodMade(s.filed, m);
    LastBears(s.filed, m.later, m.pair.correlId);
    forall j | 0 <= j < |s.made| && j != k
      ensures {s.made[j].earlier, s.made[j].later} !! {m.earlier, m.later}
    {
      HalvesApart(s.filed, s.made, if j < k then j else k, if j < k then k else j);
    }
  }

  lemma HalvesApart(filed: seq<Capture>, made: seq<Made>, i: nat, j: nat)
    requires GoodPairs(filed, made) && i < j < |made|
    ensures {made[i].earlier, made[i].later} !! {made[j].earlier, made[j].later}
  {
    var m, n := made[i], made[j];
    assert GoodMade(filed, m) && GoodMade(filed, n);
    assert m.later < n.later && m.later != n.earlier;
    LastBears(filed, m.later, filed[m.later].correlId);
    LastBears(filed, n.later, filed[n.later].correlId);
  }

  // ----- Insertion order --------------------------------------------------------------------------

  ghost predicate Entered(order: seq<string>, since: map<string, nat>, bound: nat) {
    && (forall i | 0 <= i < |order| :: order[i] in since && since[order[i]] < bound)
    && (forall i, j | 0 <= i < j < |order| :: since[order[i]] < since[order[j]])
  }

  lemma EnteredWithout(order: seq<string>, since: map<string, nat>, bound: nat, k: nat)
    requires Entered(order, since, bound) && k < |order|
    ensures Entered(order[..k] + order[k + 1..], since, bound)
  {}

  lemma EnteredAppend(order: seq<string>, since: map<string, nat>, bound: nat, id: string)
    requires Entered(order, since, bound) && id !in order
    ensures Entered(order + [id], since[id := bound], bound + 1)
  {
    forall i | 0 <= i < |order| ensures order[i] != id { assert order[i] in order; }
  }

  lemma HeldKeepsEntered(o: Options, s: Sys, c: Capture, now: int)
    requires Legal(o, s) && Entered(s.buf.order, s.since, |s.filed|)
    requires WellFormed(c) && c.correlId !in s.buf.pending
    ensures var t := Held(o, s, c, now); Entered(t.buf.order, t.since, |t.filed|)
  {
    var n := HoldOrder(o, Arrive(s.buf), c, now);
    EnteredAppend(s.buf.order[n..], s.since, |s.filed|, c.correlId);
  }

  lemma HoldOrder(o: Options, b: State, c: Capture, now: int) returns (n: nat)
    requires o.Valid() && Collector.Valid(o, b) && WellFormed(c) && c.correlId !in b.pending
    ensures n <= |b.order| && c.correlId !in b.order[n..]
    ensures Hold(o, b, c, now).order == b.order[n..] + [c.correlId]
  {
    n := Overflow(o, b);
    HoldSplits(o, b, c, now);
    ListedMeans(b.order, b.pending);
    assert forall id | id in b.order[n..] :: id in b.order;
  }

  lemma FileKeepsEntered(o: Options, s: Sys, c: Capture, now: int)
    requires Legal(o, s) && Entered(s.buf.order, s.since, |s.filed|) && WellFormed(c)
    ensures var t := File(o, s, c, now); Entered(t.buf.order, t.since, |t.filed|)
  {
    if c.correlId !in s.buf.pending {
      HeldKeepsEntered(o, s, c, now);
    } else if s.buf.pending[c.correlId].capture.path != c.path {
      var k := CompleteKeepsValid(o, Arrive(s.buf), c.correlId);
      EnteredWithout(s.buf.order, s.since, |s.filed|, k);
    }
  }

  lemma EnteredSuffix(order: seq<string>, since: map<string, nat>, bound: nat, n: nat)
    requires Entered(order, since, bound) && n <= |order|
    ensures Entered(order[n..], since, bound)
  {}

  lemma AgeKeepsEntered(o: Options, s: Sys, now: int)
    requires Legal(o, s) && Entered(s.buf.order, s.since, |s.filed|)
    ensures var t := Age(o, s, now); Entered(t.buf.order, t.since, |t.filed|)
  {
    var n := ExpireShrinks(o, s.buf, now);
    EnteredSuffix(s.buf.order, s.since, |s.filed|, n);
  }

  lemma ArrivalKeepsEntered(o: Options, s: Sys, c: Capture, now: int)
    requires Legal(o, s) && Entered(s.buf.order, s.since, |s.filed|)
    ensures var t := Arrival(o, s, c, now); Entered(t.buf.order, t.since, |t.filed|)
  {
    if WellFormed(c) {
      IngestIsLock(o, s, c, now);
      AgeKeepsEntered(o, s, now);
      FileKeepsEntered(o, Age(o, s, now), Stamp(c, now), now);
    }
  }

  lemma StepKeepsEntered(o: Options, s: Sys, e: Event)
    requires Legal(o, s) && Entered(s.buf.order, s.since, |s.filed|)
    ensures var t := Step(o, s, e); Entered(t.buf.order, t.since, |t.filed|)
  {
    match e
    case Ingest(c, now) => ArrivalKeepsEntered(o, s, c, now);
    case Sweep(now) => AgeKeepsEntered(o, s, now);
    case Send(k) =>
    case SecondLock(k) =>
    case Receive =>
  }

  /** In every interleaving the list holds exactly the pending ids, each once and in the order
      in which they entered, and they are never too many; so the evicted id is the one that
      entered first. */
  lemma {:induction false} OrderIsInsertionOrder(o: Options, events: seq<Event>)
    requires o.Valid()
    ensures var s := Run(o, events);
            && Distinct(s.buf.order)
            && (forall id :: id in s.buf.order <==> id in s.buf.pending)
            && |s.buf.pending| <= o.maxPending
            && Entered(s.buf.order, s.since, |s.filed|)
    ensures var b := Run(o, events).buf;
            b.order != [] ==>
              && EvictOldest(b).pending == b.pending - {b.order[0]}
              && var since := Run(o, events).since;
                 forall id | id in b.order :: id in since && since[b.order[0]] <= since[id]
  {
    var s := Run(o, events);
    if events == [] {
    } else {
      OrderIsInsertionOrder(o, events[..|events| - 1]);
      StepKeepsEntered(o, Run(o, events[..|events| - 1]), events[|events| - 1]);
    }
    ListedMeans(s.buf.order, s.buf.pending);
    if s.buf.order != [] {
      EvictTakesHead(o, s.buf);
    }
  }
}
