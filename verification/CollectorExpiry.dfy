/** When timing out the head of the list is the same as timing out by age. */
module CollectorExpiry {
  import opened Text
  import opened Collector
  import opened CollectorRuns

  /** Exactly the entries younger than Timeout. */
  function ByAge(pending: map<string, Pending>, cutoff: int): map<string, Pending> {
    map id | id in pending && pending[id].at > cutoff :: pending[id]
  }

  /** Some entry is overdue but listed after one that is not. */
  ghost predicate StaleBehindFresh(s: State, cutoff: int)
    requires Listed(s.order, s.pending)
  {
    ListedMeans(s.order, s.pending);
    exists i, j | 0 <= i < j < |s.order| :: AtOf(s, i) > cutoff && AtOf(s, j) <= cutoff
  }

  ghost function AtOf(s: State, i: nat): int
    requires i < |s.order| && forall id :: id in s.order <==> id in s.pending
  {
    assert s.order[i] in s.order;
    s.pending[s.order[i]].at
  }

  lemma PrefixSparesFresh(s: State, cutoff: int, id: string)
    requires Listed(s.order, s.pending)
    requires id in s.pending && s.pending[id].at > cutoff
    ensures id in DropStale(s, cutoff).pending
  {
    ListedMeans(s.order, s.pending);
    StalePrefixIsMaximal(s.order, s.pending, cutoff);
    var j :| 0 <= j < |s.order| && s.order[j] == id;
    LiveAfterDropStale(s, cutoff, j);
  }

  lemma OverdueStandsBehind(s: State, cutoff: int, id: string)
    requires Listed(s.order, s.pending)
    requires id in s.pending && s.pending[id].at <= cutoff && id in DropStale(s, cutoff).pending
    ensures StaleBehindFresh(s, cutoff)
  {
    var n := StalePrefix(s.order, s.pending, cutoff);
    ListedMeans(s.order, s.pending);
    StalePrefixIsMaximal(s.order, s.pending, cutoff);
    var j :| 0 <= j < |s.order| && s.order[j] == id;
    LiveAfterDropStale(s, cutoff, j);
    assert s.order[n] in s.order;
    assert n < j && AtOf(s, n) > cutoff && AtOf(s, j) <= cutoff;
  }

  lemma BehindFreshStays(s: State, cutoff: int, i: nat, j: nat)
    requires Listed(s.order, s.pending)
    requires i < j < |s.order| && forall id :: id in s.order <==> id in s.pending
    requires AtOf(s, i) > cutoff
    ensures s.order[j] in DropStale(s, cutoff).pending
  {
    StalePrefixIsMaximal(s.order, s.pending, cutoff);
    LiveAfterDropStale(s, cutoff, j);
  }

  /** `expire` never takes a capture younger than Timeout. */
  lemma ExpireSparesFresh(o: Options, s: State, now: int, id: string)
    requires Listed(s.order, s.pending)
    requires id in s.pending && s.pending[id].at > now - o.timeout
    ensures id in Expire(o, s, now).pending
  {
    ExpireTakesStalePrefix(o, s, now);
    PrefixSparesFresh(s, now - o.timeout, id);
  }

  lemma PrefixLeavesOverdue(s: State, cutoff: int)
    requires Listed(s.order, s.pending)
    ensures (exists id :: id in s.pending && s.pending[id].at <= cutoff && id in DropStale(s, cutoff).pending)
            <==> StaleBehindFresh(s, cutoff)
  {
    if id :| id in s.pending && s.pending[id].at <= cutoff && id in DropStale(s, cutoff).pending {
      OverdueStandsBehind(s, cutoff, id);
    }
    if StaleBehindFresh(s, cutoff) {
      var id := SomethingOverdueStays(s, cutoff);
    }
  }

  lemma SomethingOverdueStays(s: State, cutoff: int) returns (id: string)
    requires Listed(s.order, s.pending) && StaleBehindFresh(s, cutoff)
    ensures id in s.pending && s.pending[id].at <= cutoff && id in DropStale(s, cutoff).pending
  {
    ListedMeans(s.order, s.pending);
    var i, j :| 0 <= i < j < |s.order| && AtOf(s, i) > cutoff && AtOf(s, j) <= cutoff;
    BehindFreshStays(s, cutoff, i, j);
    id := s.order[j];
  }

  /** It leaves an overdue capture in place exactly when that one stands behind a younger one. */
  lemma ExpireLeavesOverdue(o: Options, s: State, now: int)
    requires Listed(s.order, s.pending)
    ensures (exists id :: id in s.pending && s.pending[id].at <= now - o.timeout && id in Expire(o, s, now).pending)
            <==> StaleBehindFresh(s, now - o.timeout)
  {
    PrefixLeavesOverdue(s, now - o.timeout);
    ExpireTakesStalePrefix(o, s, now);
  }

  /** So expiry is by age if and only if nothing overdue stands behind something younger. */
  lemma ExpireByAge(o: Options, s: State, now: int)
    requires Listed(s.order, s.pending)
    ensures Expire(o, s, now).pending == ByAge(s.pending, now - o.timeout) <==>
            !StaleBehindFresh(s, now - o.timeout)
  {
    var young := ByAge(s.pending, now - o.timeout);
    ExpireLeavesOverdue(o, s, now);
    var _ := ExpireShrinks(o, s, now);
    forall id | id in young ensures id in Expire(o, s, now).pending {
      ExpireSparesFresh(o, s, now, id);
    }
  }

  // ----- When an overdue partner is still paired ----------------------------------------------------

  /** What is listed at position i is younger than Timeout. */
  predicate FreshAt(s: State, cutoff: int, i: nat) {
    i < |s.order| && s.order[i] in s.pending && s.pending[s.order[i]].at > cutoff
  }

  /** Something younger than Timeout is listed at this id or before it. */
  ghost predicate FreshAtOrBefore(s: State, cutoff: int, id: string) {
    exists i: nat, j: nat :: i <= j < |s.order| && s.order[j] == id && FreshAt(s, cutoff, i)
  }

  lemma SurvivesIffFreshBefore(s: State, cutoff: int, id: string)
    requires Listed(s.order, s.pending) && id in s.pending
    ensures id in DropStale(s, cutoff).pending <==> FreshAtOrBefore(s, cutoff, id)
  {
    var n := StalePrefix(s.order, s.pending, cutoff);
    ListedMeans(s.order, s.pending);
    StalePrefixIsMaximal(s.order, s.pending, cutoff);
    var j :| 0 <= j < |s.order| && s.order[j] == id;
    LiveAfterDropStale(s, cutoff, j);
    if j >= n {
      assert s.order[n] in s.order;
      assert FreshAt(s, cutoff, n) && s.order[j] == id;
    }
    if FreshAtOrBefore(s, cutoff, id) {
      var i: nat, k: nat :| i <= k < |s.order| && s.order[k] == id && FreshAt(s, cutoff, i);
      LiveAfterDropStale(s, cutoff, i);
    }
  }

  /** An id survives expiry exactly when it, or something listed before it, is younger than
      Timeout. */
  lemma SurvivesExpiry(o: Options, s: State, now: int, id: string)
    requires Listed(s.order, s.pending) && id in s.pending
    ensures id in Expire(o, s, now).pending <==> FreshAtOrBefore(s, now - o.timeout, id)
    ensures id in Expire(o, s, now).pending ==> Expire(o, s, now).pending[id] == s.pending[id]
  {
    var _ := ExpireShrinks(o, s, now);
    ExpireTakesStalePrefix(o, s, now);
    SurvivesIffFreshBefore(s, now - o.timeout, id);
  }

  // ----- What a locked section does, told by the state before it ----------------------------------

  function Stamped(c: Capture, now: int): Capture {
    c.(at := Some(if c.at.Some? then c.at.value else now))
  }

  /** What is left then is a valid buffer. */
  lemma SweptIsValid(o: Options, s: State, cutoff: int)
    requires Valid(o, s)
    ensures Valid(o, Arrive(DropStale(s, cutoff)))
  {
    StaleKeepsValid(o, s, DropStale(s, cutoff), cutoff);
  }

  /** A well-formed capture, stamped with this time if it bears none, is counted as received and
      filed in what is left of the buffer once the stale prefix of the list has timed out. */
  lemma LockFilesOn(o: Options, s: State, c: Capture, now: int)
    requires Valid(o, s) && WellFormed(c)
    ensures Lock(o, s, c, now) == FileLocked(o, Arrive(DropStale(s, now - o.timeout)), Stamped(c, now), now)
  {
    ExpireArrived(o, s, now);
    ExpireTakesStalePrefix(o, s, now);
  }

  /** A capture without an id, or of neither side, is counted and changes nothing else. */
  lemma LockDiscards(o: Options, s: State, c: Capture, now: int)
    requires c.correlId == "" || (c.path != "primary" && c.path != "shadow")
    ensures Lock(o, s, c, now) ==
            (s.(stats := s.stats.(received := s.stats.received + 1, discarded := s.stats.discarded + 1)), None)
  {}

  /** What filing makes of the buffer u: if the other side waits the two leave as a pair, primary
      first; if the same side waits it is replaced; and otherwise the capture waits at the end of the
      list, if the buffer is full in place of the one listed longest. */
  ghost predicate Files(o: Options, u: State, c: Capture, now: int, t: State, made: Option<Pair>) {
    var id := c.correlId;
    if id !in u.pending then
      made == None && Waits(o, u, id, Pending(c, now), t)
    else if u.pending[id].capture.path == c.path then
      made == None && t == u.(pending := u.pending[id := Pending(c, now)])
    else
      var held := u.pending[id].capture;
      && made == Some(if c.path == "primary" then Pair(id, c, held) else Pair(id, held, c))
      && t.pending == u.pending - {id} && t.stats == u.stats.(paired := u.stats.paired + 1)
      && exists k :: 0 <= k < |u.order| && u.order[k] == id && t.order == u.order[..k] + u.order[k + 1..]
  }

  ghost predicate Waits(o: Options, u: State, id: string, entry: Pending, t: State) {
    if |u.pending| < o.maxPending then
      t == u.(pending := u.pending[id := entry], order := u.order + [id])
    else
      && u.order != []
      && t == State((u.pending - {u.order[0]})[id := entry], u.order[1..] + [id],
                    u.stats.(dropped := u.stats.dropped + 1))
  }

  lemma FileHolds(o: Options, u: State, c: Capture, now: int)
    requires o.Valid() && Valid(o, u) && c.correlId !in u.pending
    ensures Waits(o, u, c.correlId, Pending(c, now), Hold(o, u, c, now))
  {
    ListedMeans(u.order, u.pending);
    if |u.pending| >= o.maxPending { EvictTakesHead(o, u); }
  }

  /** And filing does just that. */
  lemma FileMeans(o: Options, u: State, c: Capture, now: int)
    requires o.Valid() && Valid(o, u)
    ensures var (t, made) := FileLocked(o, u, c, now); Files(o, u, c, now, t, made)
  {
    if c.correlId !in u.pending {
      FileHolds(o, u, c, now);
    } else if u.pending[c.correlId].capture.path != c.path {
      var k := CompleteKeepsValid(o, u, c.correlId);
    }
  }

  /** A sweep, whenever it comes, times out the stale prefix and touches no pair. */
  lemma SweepMeans(o: Options, events: seq<Event>, now: int)
    requires o.Valid()
    ensures var s, t := Run(o, events), Run(o, events + [Sweep(now)]);
            && t.buf == DropStale(s.buf, now - o.timeout)
            && t.made == s.made && t.backlog == s.backlog && t.filed == s.filed
  {
    RunMore(o, events, Sweep(now));
    ExpireTakesStalePrefix(o, Run(o, events).buf, now);
  }

  /** The other side of this capture waits. */
  predicate PartnerWaits(s: State, c: Capture) {
    WellFormed(c) && c.correlId in s.pending && s.pending[c.correlId].capture.path != c.path
  }

  /** A locked section makes a pair exactly when the partner waits and it, or something listed
      before it, is younger than Timeout. So an overdue partner is still paired if and only
      if something younger is listed before it. */
  lemma PairsIffFreshBefore(o: Options, s: State, c: Capture, now: int)
    requires Listed(s.order, s.pending)
    ensures Lock(o, s, c, now).1.Some? <==> PartnerWaits(s, c) && FreshAtOrBefore(s, now - o.timeout, c.correlId)
  {
    if WellFormed(c) {
      ExpireArrived(o, s, now);
      var _ := ExpireShrinks(o, s, now);
      if c.correlId in s.pending {
        SurvivesExpiry(o, s, now, c.correlId);
      }
    }
  }

  /** This capture, filed now, completes a pair whose halves are Timeout or more apart, or
      the first of which bears a later time. */
  ghost predicate PairsLate(o: Options, s: State, c: Capture, now: int)
    requires Listed(s.order, s.pending)
  {
    && PartnerWaits(s, c) && FreshAtOrBefore(s, now - o.timeout, c.correlId)
    && (s.pending[c.correlId].at <= now - o.timeout || s.pending[c.correlId].at > now)
  }

  lemma ArrivalTiming(o: Options, s: Sys, c: Capture, now: int)
    requires Legal(o, s)
    ensures Timely(o, Arrival(o, s, c, now).made) <==> Timely(o, s.made) && !PairsLate(o, s.buf, c, now)
  {
    PairsIffFreshBefore(o, s.buf, c, now);
    ArrivalMakes(o, s, c, now);
    if Lock(o, s.buf, c, now).1.Some? {
      TimelyAppend(o, s.made, Arrival(o, s, c, now).made);
    }
  }

  /** Whether an arrival makes a pair, and the times that pair bears. */
  lemma ArrivalMakes(o: Options, s: Sys, c: Capture, now: int)
    requires Legal(o, s)
    ensures var t := Arrival(o, s, c, now).made;
            if Lock(o, s.buf, c, now).1.None? then t == s.made
            else
              && c.correlId in s.buf.pending
              && |t| == |s.made| + 1 && t[..|s.made|] == s.made
              && t[|s.made|].heldAt == s.buf.pending[c.correlId].at && t[|s.made|].pairedAt == now
  {
    if WellFormed(c) {
      IngestIsLock(o, s, c, now);
      var _ := ExpireShrinks(o, s.buf, now);
    }
  }

  lemma TimelyAppend(o: Options, made: seq<Made>, more: seq<Made>)
    requires |more| == |made| + 1 && more[..|made|] == made
    ensures Timely(o, more) <==> Timely(o, made) && 0 <= more[|made|].pairedAt - more[|made|].heldAt < o.timeout
  {
    forall k | 0 <= k < |made| ensures more[k] == made[k] { assert more[k] == more[..|made|][k]; }
  }

  lemma MoveTiming(o: Options, made: seq<Made>, k: nat, stage: Stage)
    requires k < |made|
    ensures Timely(o, made[k := made[k].(stage := stage)]) <==> Timely(o, made)
  {
    var moved := made[k := made[k].(stage := stage)];
    forall i | 0 <= i < |made|
      ensures moved[i].pairedAt == made[i].pairedAt && moved[i].heldAt == made[i].heldAt
    {}
  }

  lemma OtherTiming(o: Options, s: Sys, e: Event)
    requires Legal(o, s) && !e.Ingest?
    ensures Timely(o, Step(o, s, e).made) <==> Timely(o, s.made)
  {
    match e
    case Sweep(now) =>
    case Send(k) => if k < |s.made| { MoveTiming(o, s.made, k, Queued); MoveTiming(o, s.made, k, Refused); }
    case SecondLock(k) => if k < |s.made| { MoveTiming(o, s.made, k, Lost); }
    case Receive => if s.backlog != [] && s.backlog[0] < |s.made| { MoveTiming(o, s.made, s.backlog[0], Consumed); }
  }

  ghost predicate LateAt(o: Options, events: seq<Event>, i: nat)
    requires o.Valid() && i < |events|
  {
    events[i].Ingest? && PairsLate(o, Run(o, events[..i]).buf, events[i].c, events[i].now)
  }

  ghost predicate NeverLate(o: Options, events: seq<Event>)
    requires o.Valid()
  {
    forall i: nat | i < |events| :: !LateAt(o, events, i)
  }

  lemma NeverLateMore(o: Options, events: seq<Event>)
    requires o.Valid() && events != []
    ensures var n := |events| - 1;
            NeverLate(o, events) <==> NeverLate(o, events[..n]) && !LateAt(o, events, n)
  {
    var n := |events| - 1;
    forall i: nat | i < n ensures LateAt(o, events[..n], i) <==> LateAt(o, events, i) { LateInInit(o, events, i); }
  }

  lemma LateInInit(o: Options, events: seq<Event>, i: nat)
    requires o.Valid() && i < |events| - 1
    ensures LateAt(o, events[..|events| - 1], i) <==> LateAt(o, events, i)
  {
    assert events[..|events| - 1][..i] == events[..i];
  }

  lemma StepTiming(o: Options, s: Sys, e: Event)
    requires Legal(o, s)
    ensures Timely(o, Step(o, s, e).made) <==> Timely(o, s.made) && !(e.Ingest? && PairsLate(o, s.buf, e.c, e.now))
  {
    if e.Ingest? { ArrivalTiming(o, s, e.c, e.now); } else { OtherTiming(o, s, e); }
  }

  /** In every interleaving all pairs join captures filed in order and less than Timeout apart
      if and only if no arrival found an overdue partner behind something younger, or a
      partner that bears a later time. */
  lemma {:induction false} TimelyIffNeverLate(o: Options, events: seq<Event>)
    requires o.Valid()
    ensures Timely(o, Run(o, events).made) <==> NeverLate(o, events)
  {
    if events == [] {
      assert Timely(o, START.made);
    } else {
      var n := |events| - 1;
      TimelyIffNeverLate(o, events[..n]);
      StepTiming(o, Run(o, events[..n]), events[n]);
      NeverLateMore(o, events);
    }
  }

  // ----- Runs in which it always is -----------------------------------------------------------------

  ghost predicate Ascending(order: seq<string>, pending: map<string, Pending>) {
    forall i, j | 0 <= i < j < |order| ::
      order[i] in pending && order[j] in pending ==> pending[order[i]].at <= pending[order[j]].at
  }

  ghost predicate NotAfter(pending: map<string, Pending>, clock: Option<int>) {
    forall id | id in pending :: clock.Some? && pending[id].at <= clock.value
  }

  /** The halves of a pair were filed less than Timeout apart. */
  ghost predicate Timely(o: Options, made: seq<Made>) {
    forall k | 0 <= k < |made| :: 0 <= made[k].pairedAt - made[k].heldAt < o.timeout
  }

  ghost predicate SmoothInv(o: Options, s: Sys) {
    s.smooth ==> Ascending(s.buf.order, s.buf.pending) && NotAfter(s.buf.pending, s.clock) && Timely(o, s.made)
  }

  lemma AgeSmooth(o: Options, s: Sys, now: int)
    requires Legal(o, s) && SmoothInv(o, s)
    ensures SmoothInv(o, Age(o, s, now))
    ensures var t := Age(o, s, now).buf;
            s.smooth ==> forall id | id in t.pending :: t.pending[id].at > now - o.timeout
  {
    var t := Age(o, s, now).buf;
    var n := ExpireShrinks(o, s.buf, now);
    ExpireKeepsValid(o, s.buf, now);
    ListedMeans(t.order, t.pending);
    ListedMeans(s.buf.order, s.buf.pending);
    if s.smooth {
      forall i, j | 0 <= i < j < |t.order| ensures t.pending[t.order[i]].at <= t.pending[t.order[j]].at {
        assert t.order[i] in t.order && t.order[j] in t.order;
        assert s.buf.order[n + i] == t.order[i] && s.buf.order[n + j] == t.order[j];
      }
      forall id | id in t.pending ensures t.pending[id].at > now - o.timeout {
        var j :| 0 <= j < |t.order| && t.order[j] == id;
        assert t.order[0] in t.order;
        if j > 0 { assert t.pending[t.order[0]].at <= t.pending[t.order[j]].at; }
      }
    }
  }

  lemma AscendingAppend(order: seq<string>, pending: map<string, Pending>, id: string, p: Pending)
    requires Ascending(order, pending) && NotAfter(pending, Some(p.at)) && id !in order
    ensures Ascending(order + [id], pending[id := p])
  {
    forall i | 0 <= i < |order| ensures order[i] != id { assert order[i] in order; }
  }

  lemma {:induction false} DropHeadsAscending(b: State, n: nat)
    requires n <= |b.order| && Ascending(b.order, b.pending)
    ensures Ascending(DropHeads(b, n).order, DropHeads(b, n).pending)
    decreases n
  {
    if n == 0 {
    } else {
      assert Ascending(DropHead(b).order, DropHead(b).pending);
      DropHeadsAscending(DropHead(b), n - 1);
    }
  }

  lemma RoomyAscending(b: State, n: nat, id: string, now: int)
    requires Listed(b.order, b.pending) && n <= |b.order| && id !in b.pending
    requires Ascending(b.order, b.pending) && NotAfter(b.pending, Some(now))
    ensures var d := DropHeads(b, n); Ascending(d.order, d.pending) && NotAfter(d.pending, Some(now)) && id !in d.order
  {
    var d := DropHeads(b, n);
    DropHeadsAscending(b, n);
    forall k | k in d.pending ensures d.pending[k].at <= now { DropHeadsPending(b, n, k); }
    ListedMeans(b.order, b.pending);
    assert forall k | k in b.order[n..] :: k in b.order;
  }

  lemma HoldAscending(o: Options, b: State, c: Capture, now: int)
    requires o.Valid() && Collector.Valid(o, b) && WellFormed(c) && c.correlId !in b.pending
    requires Ascending(b.order, b.pending) && NotAfter(b.pending, Some(now))
    ensures var t := Hold(o, b, c, now); Ascending(t.order, t.pending) && NotAfter(t.pending, Some(now))
  {
    var d := DropHeads(b, Overflow(o, b));
    HoldSplits(o, b, c, now);
    RoomyAscending(b, Overflow(o, b), c.correlId, now);
    AscendingAppend(d.order, d.pending, c.correlId, Pending(c, now));
  }

  lemma HeldSmooth(o: Options, s: Sys, c: Capture, now: int)
    requires Legal(o, s) && WellFormed(c) && c.correlId !in s.buf.pending
    requires SmoothInv(o, s) && (s.clock.None? || s.clock.value <= now)
    ensures SmoothInv(o, Tick(Held(o, s, c, now), now))
  {
    if s.smooth {
      assert NotAfter(s.buf.pending, Some(now));
      HoldAscending(o, Arrive(s.buf), c, now);
    }
  }

  lemma PairedSmooth(o: Options, s: Sys, c: Capture, now: int)
    requires Legal(o, s) && c.correlId in s.buf.pending
    requires SmoothInv(o, s) && (s.clock.None? || s.clock.value <= now)
    requires s.smooth ==> forall id | id in s.buf.pending :: s.buf.pending[id].at > now - o.timeout
    ensures SmoothInv(o, Tick(Paired(s, c, now), now))
  {
    var t := Paired(s, c, now);
    var k := CompleteKeepsValid(o, Arrive(s.buf), c.correlId);
    if s.smooth {
      AscendingWithout(s.buf.order, s.buf.pending, k);
    }
  }

  lemma AscendingWithout(order: seq<string>, pending: map<string, Pending>, k: nat)
    requires Ascending(order, pending) && k < |order|
    ensures Ascending(order[..k] + order[k + 1..], pending - {order[k]})
  {
    var rest, left := order[..k] + order[k + 1..], pending - {order[k]};
    forall i, j | 0 <= i < j < |rest| && rest[i] in left && rest[j] in left
      ensures left[rest[i]].at <= left[rest[j]].at
    {
      assert rest[i] == order[if i < k then i else i + 1];
      assert rest[j] == order[if j < k then j else j + 1];
    }
  }

  lemma ArrivalSmooth(o: Options, s: Sys, c: Capture, now: int)
    requires Legal(o, s) && SmoothInv(o, s)
    ensures SmoothInv(o, Arrival(o, s, c, now))
  {
    if WellFormed(c) && Arrival(o, s, c, now).smooth {
      IngestIsLock(o, s, c, now);
      AgeSmooth(o, s, now);
      var a, d := Age(o, s, now), Stamp(c, now);
      if d.correlId !in a.buf.pending {
        HeldSmooth(o, a, d, now);
      } else {
        PairedSmooth(o, a, d, now);
      }
    }
  }

  /** Sends, second sections and receives leave alone what the invariant is about. */
  lemma OthersAreSmooth(o: Options, s: Sys, e: Event)
    requires Legal(o, s) && SmoothInv(o, s) && !e.Ingest? && !e.Sweep?
    ensures SmoothInv(o, Step(o, s, e))
  {
    OtherTiming(o, s, e);
  }

  lemma StepSmooth(o: Options, s: Sys, e: Event)
    requires Legal(o, s) && SmoothInv(o, s)
    ensures SmoothInv(o, Step(o, s, e))
  {
    match e
    case Ingest(c, now) => ArrivalSmooth(o, s, c, now);
    case Sweep(now) => AgeSmooth(o, s, now);
    case _ => OthersAreSmooth(o, s, e);
  }

  lemma {:induction false} RunSmooth(o: Options, events: seq<Event>)
    requires o.Valid()
    ensures SmoothInv(o, Run(o, events))
  {
    if events == [] {
    } else {
      RunSmooth(o, events[..|events| - 1]);
      StepSmooth(o, Run(o, events[..|events| - 1]), events[|events| - 1]);
    }
  }

  /** While the clock readings of the locked sections never go back and no held side is
      repeated, expiry at any time is by age, and every pair joins captures filed less than
      Timeout apart. Sweeps may come at any time and with any reading. */
  lemma SmoothRunsExpireByAge(o: Options, events: seq<Event>, now: int)
    requires o.Valid()
    ensures var s := Run(o, events);
            s.smooth ==>
              && Expire(o, s.buf, now).pending == ByAge(s.buf.pending, now - o.timeout)
              && forall k | 0 <= k < |s.made| :: 0 <= s.made[k].pairedAt - s.made[k].heldAt < o.timeout
  {
    var s := Run(o, events);
    RunSmooth(o, events);
    if s.smooth {
      ListedMeans(s.buf.order, s.buf.pending);
      assert !StaleBehindFresh(s.buf, now - o.timeout);
      ExpireByAge(o, s.buf, now);
    }
  }

  // ----- Neither hypothesis can be dropped -------------------------------------------------------------

  function Bare(path: string, id: string): Capture {
    Capture(path, id, "GET", "/", map[], "", 200, map[], "", Some(0))
  }

  lemma FreshHeadStops(o: Options, s: State, now: int)
    requires s.order == [] || (s.order[0] in s.pending && s.pending[s.order[0]].at > now - o.timeout)
    ensures Expire(o, s, now) == s
  {}

  /** Only "a" waits, or "a" and behind it "b". */
  ghost predicate AWaits(s: Sys, a: int) {
    && s.made == [] && s.buf.order == ["a"]
    && s.buf.pending == map["a" := Pending(Bare(PRIMARY, "a"), a)]
  }

  ghost predicate BothWait(s: Sys, a: int, b: int) {
    && s.made == [] && s.buf.order == ["a", "b"]
    && s.buf.pending == map["a" := Pending(Bare(PRIMARY, "a"), a), "b" := Pending(Bare(PRIMARY, "b"), b)]
  }

  lemma AArrives(o: Options, a: int)
    requires o == Options(10, 5, 5)
    ensures AWaits(Step(o, START, Ingest(Bare(PRIMARY, "a"), a)), a)
    ensures Step(o, START, Ingest(Bare(PRIMARY, "a"), a)).superseded == multiset{}
  {
    FreshHeadStops(o, EMPTY, a);
  }

  lemma BArrives(o: Options, s: Sys, a: int, b: int)
    requires o == Options(10, 5, 5) && Legal(o, s) && AWaits(s, a) && a > b - 10
    ensures var t := Step(o, s, Ingest(Bare(PRIMARY, "b"), b));
            BothWait(t, a, b) && t.superseded == s.superseded
  {
    FreshHeadStops(o, s.buf, b);
  }

  lemma ARepeats(o: Options, s: Sys, a: int, b: int, now: int)
    requires o == Options(10, 5, 5) && Legal(o, s) && BothWait(s, a, b) && a > now - 10
    ensures var t := Step(o, s, Ingest(Bare(PRIMARY, "a"), now));
            BothWait(t, now, b) && t.superseded == s.superseded + multiset{Bare(PRIMARY, "a")}
  {
    FreshHeadStops(o, s.buf, now);
  }

  /** With "a" fresh at the head, the overdue "b" is still paired. */
  lemma BPairs(o: Options, s: Sys, a: int, b: int, now: int)
    requires o == Options(10, 5, 5) && Legal(o, s) && BothWait(s, a, b) && a > now - 10
    ensures var t := Step(o, s, Ingest(Bare(SHADOW, "b"), now));
            |t.made| == 1 && t.made[0].pairedAt == now && t.made[0].heldAt == b && t.superseded == s.superseded
  {
    FreshHeadStops(o, s.buf, now);
  }

  /** The locked sections see a clock that never goes back. */
  ghost predicate NeverBack(events: seq<Event>) {
    forall i, j | 0 <= i < j < |events| && events[i].Ingest? && events[j].Ingest? :: events[i].now <= events[j].now
  }

  lemma BothArrive(o: Options, a: int, b: int) returns (events: seq<Event>)
    requires o == Options(10, 5, 5) && a > b - 10
    ensures events == [Ingest(Bare(PRIMARY, "a"), a), Ingest(Bare(PRIMARY, "b"), b)]
    ensures BothWait(Run(o, events), a, b) && Run(o, events).superseded == multiset{}
  {
    var first, second := Ingest(Bare(PRIMARY, "a"), a), Ingest(Bare(PRIMARY, "b"), b);
    RunMore(o, [], first);
    AArrives(o, a);
    RunMore(o, [] + [first], second);
    BArrives(o, Run(o, [] + [first]), a, b);
    events := [] + [first] + [second];
  }

  /** A reading taken before the lock may reach the lock late. Then "b", 12 old against a
      Timeout of 10, is paired, although no side was repeated. */
  lemma LateReadingBreaksTiming() returns (o: Options, events: seq<Event>)
    ensures o.Valid() && Run(o, events).superseded == multiset{}
    ensures !Timely(o, Run(o, events).made)
  {
    o := Options(10, 5, 5);
    var both := BothArrive(o, 5, 0);
    RunMore(o, both, Ingest(Bare(SHADOW, "b"), 12));
    BPairs(o, Run(o, both), 5, 0, 12);
    events := both + [Ingest(Bare(SHADOW, "b"), 12)];
  }

  lemma RepeatThenPair(o: Options, s: Sys)
    requires o == Options(10, 5, 5) && Legal(o, s) && BothWait(s, 0, 1)
    ensures var t := Step(o, s, Ingest(Bare(PRIMARY, "a"), 9));
            var u := Step(o, t, Ingest(Bare(SHADOW, "b"), 12));
            !Timely(o, u.made) && Bare(PRIMARY, "a") in u.superseded
  {
    ARepeats(o, s, 0, 1, 9);
    BPairs(o, Step(o, s, Ingest(Bare(PRIMARY, "a"), 9)), 9, 1, 12);
  }

  lemma RunTwoMore(o: Options, events: seq<Event>, e: Event, f: Event)
    requires o.Valid()
    ensures Run(o, events + [e] + [f]) == Step(o, Step(o, Run(o, events), e), f)
  {
    RunMore(o, events, e);
    RunMore(o, events + [e], f);
  }

  lemma FourReadings(a: Capture, b: Capture, c: Capture, d: Capture)
    ensures NeverBack([Ingest(a, 0), Ingest(b, 1)] + [Ingest(c, 9)] + [Ingest(d, 12)])
  {}

  /** A repeated side is refreshed in place, at the head of the list. Then "b", 11 old
      against a Timeout of 10, is paired, although the clock never went back. */
  lemma RefreshBreaksTiming() returns (o: Options, events: seq<Event>)
    ensures o.Valid() && NeverBack(events)
    ensures !Timely(o, Run(o, events).made) && Run(o, events).superseded != multiset{}
  {
    o := Options(10, 5, 5);
    var both := BothArrive(o, 0, 1);
    var again, last := Ingest(Bare(PRIMARY, "a"), 9), Ingest(Bare(SHADOW, "b"), 12);
    RepeatThenPair(o, Run(o, both));
    RunTwoMore(o, both, again, last);
    FourReadings(Bare(PRIMARY, "a"), Bare(PRIMARY, "b"), Bare(PRIMARY, "a"), Bare(SHADOW, "b"));
    events := both + [again] + [last];
  }
}
