/** The buffer under interleaving. A run is any sequence of locked sections, channel sends
    and receives, in whatever order the goroutines reach them; an event whose turn has not
    come leaves the state alone, so every sequence of events is a run. */
module CollectorRuns {
  import opened Text
  import opened Sorting
  import opened Collector

  /** A pair between its completion under the lock and its end. */
  datatype Stage = InFlight | Refused | Queued | Consumed | Lost

  /** A completed pair: the positions of its halves in the history of filed captures, and
      the clock readings it was held at and completed at. */
  datatype Made = Made(pair: Pair, earlier: nat, later: nat, heldAt: int, pairedAt: int, stage: Stage)

  datatype Sys = Sys(
    buf: State,
    made: seq<Made>,
    backlog: seq<nat>,               // the channel: positions in `made`
    filed: seq<Capture>,             // the well-formed captures, in the order of their locked sections
    discarded: seq<Capture>,
    expired: multiset<Capture>,
    evicted: multiset<Capture>,
    superseded: multiset<Capture>,
    since: map<string, nat>,         // the position in `filed` at which an id entered the buffer
    clock: Option<int>,              // the last clock reading filed under
    smooth: bool)                    // no reading went back, and no held side was repeated

  datatype Event =
    | Ingest(c: Capture, now: int)   // the first locked section
    | Send(k: nat)                   // the non-blocking send of pair k
    | SecondLock(k: nat)             // the locked section after a refused send
    | Sweep(now: int)
    | Receive

  const START := Sys(EMPTY, [], [], [], [], multiset{}, multiset{}, multiset{}, map[], None, true)

  // ----- Steps --------------------------------------------------------------------------------

  ghost predicate Legal(o: Options, s: Sys) {
    o.Valid() && Collector.Valid(o, s.buf)
  }

  /** Time out what is stale. */
  ghost function Age(o: Options, s: Sys, now: int): Sys
    requires Legal(o, s)
  {
    s.(buf := Expire(o, s.buf, now),
       expired := s.expired + Stale(s.buf, now - o.timeout))
  }

  /** The latest of the first n filed captures that bears this id. */
  function Last(filed: seq<Capture>, n: nat, id: string): (r: Option<nat>)
    requires n <= |filed|
    ensures r.Some? ==> r.value < n && filed[r.value].correlId == id
  {
    if n == 0 then None
    else if filed[n - 1].correlId == id then Some(n - 1)
    else Last(filed, n - 1, id)
  }

  ghost function Repeated(s: Sys, c: Capture, now: int): Sys
    requires c.correlId in s.buf.pending
  {
    s.(buf := Refresh(Arrive(s.buf), c, now),
       superseded := s.superseded + multiset{s.buf.pending[c.correlId].capture},
       filed := s.filed + [c],
       smooth := false)
  }

  ghost function Paired(s: Sys, c: Capture, now: int): Sys
    requires c.correlId in s.buf.pending
  {
    var held := s.buf.pending[c.correlId];
    var earlier := match Last(s.filed, |s.filed|, c.correlId) case Some(i) => i case None => 0;
    s.(buf := Complete(Arrive(s.buf), c.correlId),
       made := s.made + [Made(MakePair(c, held.capture), earlier, |s.filed|, held.at, now, InFlight)],
       filed := s.filed + [c])
  }

  /** How many ids must make room for one more. */
  function Overflow(o: Options, b: State): nat {
    if |b.pending| >= o.maxPending && b.order != [] then 1 else 0
  }

  ghost function Held(o: Options, s: Sys, c: Capture, now: int): Sys
    requires Legal(o, s)
  {
    s.(buf := Hold(o, Arrive(s.buf), c, now),
       evicted := s.evicted + Heads(s.buf, Overflow(o, s.buf)),
       since := s.since[c.correlId := |s.filed|],
       filed := s.filed + [c])
  }

  ghost function File(o: Options, s: Sys, c: Capture, now: int): Sys
    requires Legal(o, s)
  {
    if c.correlId !in s.buf.pending then Held(o, s, c, now)
    else if s.buf.pending[c.correlId].capture.path == c.path then Repeated(s, c, now)
    else Paired(s, c, now)
  }

  ghost function Tick(s: Sys, now: int): Sys {
    s.(clock := Some(now), smooth := s.smooth && (s.clock.None? || s.clock.value <= now))
  }

  ghost function Arrival(o: Options, s: Sys, c: Capture, now: int): (t: Sys)
    requires Legal(o, s)
    ensures Legal(o, t)
  {
    LockKeepsValid(o, s.buf, c, now);
    if !WellFormed(c) then s.(buf := Discard(Arrive(s.buf)), discarded := s.discarded + [c])
    else
      IngestIsLock(o, s, c, now);
      Tick(File(o, Age(o, s, now), Stamp(c, now), now), now)
  }

  function Offer(o: Options, s: Sys, k: nat): Sys {
    if k >= |s.made| || !s.made[k].stage.InFlight? then s
    else if |s.backlog| < o.backlog then Move(s, k, Queued).(backlog := s.backlog + [k])
    else Move(s, k, Refused)
  }

  function Lose(s: Sys, k: nat): Sys {
    if k >= |s.made| || !s.made[k].stage.Refused? then s
    else Move(s, k, Lost).(buf := Relock(s.buf))
  }

  function Take(s: Sys): Sys {
    if s.backlog == [] || s.backlog[0] >= |s.made| then s
    else Move(s, s.backlog[0], Consumed).(backlog := s.backlog[1..])
  }

  ghost function Step(o: Options, s: Sys, e: Event): (t: Sys)
    requires Legal(o, s)
    ensures Legal(o, t)
  {
    match e
    case Ingest(c, now) => Arrival(o, s, c, now)
    case Sweep(now) =>
      ExpireKeepsValid(o, s.buf, now);
      Age(o, s, now)
    case Send(k) => Offer(o, s, k)
    case SecondLock(k) => Lose(s, k)
    case Receive => Take(s)
  }

  function Move(s: Sys, k: nat, stage: Stage): Sys
    requires k < |s.made|
  {
    s.(made := s.made[k := s.made[k].(stage := stage)])
  }

  ghost function Run(o: Options, events: seq<Event>): (s: Sys)
    requires o.Valid()
    ensures Legal(o, s)
  {
    if events == [] then START
    else Step(o, Run(o, events[..|events| - 1]), events[|events| - 1])
  }

  /** The state and the pair, if any, of the first locked section are those of Lock, which
      is what the buffer's own method performs. */
  lemma IngestIsLock(o: Options, s: Sys, c: Capture, now: int)
    requires Legal(o, s) && WellFormed(c)
    ensures Collector.Valid(o, Age(o, s, now).buf)
    ensures var t := File(o, Age(o, s, now), Stamp(c, now), now);
            var (locked, pair) := Lock(o, s.buf, c, now);
            && t.buf == locked
            && (pair.None? ==> t.made == s.made)
            && (pair.Some? ==> |t.made| == |s.made| + 1 && t.made[..|s.made|] == s.made &&
                               t.made[|s.made|].pair == pair.value && t.made[|s.made|].stage == InFlight)
  {
    ExpireKeepsValid(o, s.buf, now);
    ExpireArrived(o, s.buf, now);
    FileIsLocked(o, Age(o, s, now), Stamp(c, now), now);
  }

  lemma ExpireArrived(o: Options, b: State, now: int)
    ensures Expire(o, Arrive(b), now) == Arrive(Expire(o, b, now))
  {}

  lemma FileIsLocked(o: Options, s: Sys, c: Capture, now: int)
    requires Legal(o, s)
    ensures var t := File(o, s, c, now);
            var (locked, pair) := FileLocked(o, Arrive(s.buf), c, now);
            && t.buf == locked
            && (pair.None? ==> t.made == s.made)
            && (pair.Some? ==> |t.made| == |s.made| + 1 && t.made[..|s.made|] == s.made &&
                               t.made[|s.made|].pair == pair.value && t.made[|s.made|].stage == InFlight)
  {}

  // ----- Conservation ------------------------------------------------------------------------------

  /** The captures that ended up in pairs. */
  function Halves(made: seq<Made>): (cs: multiset<Capture>)
    ensures |cs| == 2 * |made|
  {
    if made == [] then multiset{}
    else
      var n := |made| - 1;
      Halves(made[..n]) + multiset{made[n].pair.primary, made[n].pair.shadow}
  }

  function CountLost(made: seq<Made>): (n: nat)
    ensures n <= |made|
  {
    if made == [] then 0
    else CountLost(made[..|made| - 1]) + if made[|made| - 1].stage.Lost? then 1 else 0
  }

  /** The captures that have left the buffer, by every way there is. */
  ghost function Gone(s: Sys): multiset<Capture> {
    s.expired + s.evicted + s.superseded + Halves(s.made)
  }

  /** Every filed capture is in exactly one place. */
  ghost predicate Conserved(o: Options, s: Sys)
    requires Legal(o, s)
  {
    multiset(s.filed) == Holds(s.buf) + Gone(s)
  }

  /** The counters count those places. */
  ghost predicate Counted(s: Sys) {
    && s.buf.stats.received == |s.filed| + |s.discarded|
    && s.buf.stats.discarded == |s.discarded|
    && s.buf.stats.expired == |s.expired|
    && s.buf.stats.dropped == |s.evicted| + CountLost(s.made)
    && s.buf.stats.paired == |s.made| - CountLost(s.made)
  }

  /** The buffer took in `arrived` and let `left` go. */
  lemma Rebalance(o: Options, s: Sys, t: Sys, arrived: multiset<Capture>, left: multiset<Capture>)
    requires Legal(o, s) && Legal(o, t) && Conserved(o, s)
    requires multiset(t.filed) == multiset(s.filed) + arrived
    requires Holds(t.buf) + left == Holds(s.buf) + arrived
    requires Gone(t) == Gone(s) + left
    ensures Conserved(o, t)
  {
    var w, v := Holds(s.buf), Holds(t.buf);
    assert v + Gone(t) == (v + left) + Gone(s);
  }

  lemma AgeConserves(o: Options, s: Sys, now: int)
    requires Legal(o, s) && Conserved(o, s) && Counted(s)
    ensures Legal(o, Age(o, s, now)) && Conserved(o, Age(o, s, now)) && Counted(Age(o, s, now))
  {
    ExpireSplits(o, s.buf, now);
    Rebalance(o, s, Age(o, s, now), multiset{}, Stale(s.buf, now - o.timeout));
  }

  lemma RepeatedConserves(o: Options, s: Sys, c: Capture, now: int)
    requires Legal(o, s) && Conserved(o, s) && Counted(s)
    requires WellFormed(c) && c.correlId in s.buf.pending
    ensures var t := Repeated(s, c, now); Legal(o, t) && Conserved(o, t) && Counted(t)
  {
    RefreshKeepsValid(o, Arrive(s.buf), c, now);
    WaitingUpdate(s.buf.order, s.buf.pending, c.correlId, Pending(c, now));
    Rebalance(o, s, Repeated(s, c, now), multiset{c}, multiset{s.buf.pending[c.correlId].capture});
  }

  lemma PairedCounts(s: Sys, c: Capture, now: int)
    requires c.correlId in s.buf.pending
    ensures var t := Paired(s, c, now);
            && CountLost(t.made) == CountLost(s.made)
            && Gone(t) == Gone(s) + multiset{s.buf.pending[c.correlId].capture, c}
  {
    var t := Paired(s, c, now);
    assert t.made[..|s.made|] == s.made;
  }

  lemma PairedMoves(o: Options, s: Sys, c: Capture, now: int)
    requires Legal(o, s) && c.correlId in s.buf.pending
    ensures var t, held := Paired(s, c, now), s.buf.pending[c.correlId].capture;
            && Legal(o, t)
            && Holds(t.buf) + multiset{held, c} == Holds(s.buf) + multiset{c}
            && t.buf.stats == Arrive(s.buf).stats.(paired := s.buf.stats.paired + 1)
  {
    var k := CompleteKeepsValid(o, Arrive(s.buf), c.correlId);
    WaitingRemove(s.buf.order, s.buf.pending, k);
  }

  lemma PairedConserves(o: Options, s: Sys, c: Capture, now: int)
    requires Legal(o, s) && Conserved(o, s) && Counted(s)
    requires c.correlId in s.buf.pending
    ensures var t := Paired(s, c, now); Legal(o, t) && Conserved(o, t) && Counted(t)
  {
    PairedMoves(o, s, c, now);
    PairedCounts(s, c, now);
    Rebalance(o, s, Paired(s, c, now), multiset{c}, multiset{s.buf.pending[c.correlId].capture, c});
  }

  /** Room is made by dropping the head of the list, if it must be made. */
  lemma RoomIsMade(o: Options, b: State)
    requires o.Valid() && Collector.Valid(o, b)
    ensures var n := Overflow(o, b);
            var roomy := if |b.pending| >= o.maxPending then EvictOldest(b) else b;
            && roomy.order == b.order[n..] && roomy.pending == DropHeads(b, n).pending
            && roomy.stats == b.stats.(dropped := b.stats.dropped + n)
  {
    ListedMeans(b.order, b.pending);
    if |b.pending| >= o.maxPending {
      EvictTakesHead(o, b);
      assert DropHeads(b, 1) == DropHeads(DropHead(b), 0);
    }
  }

  /** The oldest leave and a new id joins at the end. */
  lemma HeadsLeave(b: State, n: nat, id: string, p: Pending)
    requires Listed(b.order, b.pending) && n <= |b.order| && id !in b.pending && FiledUnder(id, p)
    ensures var order, pending := b.order[n..] + [id], DropHeads(b, n).pending[id := p];
            Listed(order, pending) && Waiting(order, pending) + Heads(b, n) == Holds(b) + multiset{p.capture}
  {
    var d := DropHeads(b, n);
    HoldsDrop(b, n);
    DropHeadsPending(b, n, id);
    ListedAppend(d.order, d.pending, id, p);
    WaitingAppend(d.order, d.pending, id, p);
  }

  /** What taking in a new id does to the buffer. */
  lemma HoldSplits(o: Options, b: State, c: Capture, now: int)
    requires o.Valid() && Collector.Valid(o, b) && WellFormed(c) && c.correlId !in b.pending
    ensures var n := Overflow(o, b);
            var t := Hold(o, b, c, now);
            && Collector.Valid(o, t)
            && Holds(t) + Heads(b, n) == Holds(b) + multiset{c}
            && t.stats == b.stats.(dropped := b.stats.dropped + n)
            && t.order == b.order[n..] + [c.correlId]
            && t.pending == DropHeads(b, n).pending[c.correlId := Pending(c, now)]
  {
    HoldKeepsValid(o, b, c, now);
    RoomIsMade(o, b);
    HeadsLeave(b, Overflow(o, b), c.correlId, Pending(c, now));
  }

  /** What holding a new id moves where. */
  lemma HeldMoves(o: Options, s: Sys, c: Capture, now: int)
    requires Legal(o, s) && WellFormed(c) && c.correlId !in s.buf.pending
    ensures var t, left := Held(o, s, c, now), Heads(s.buf, Overflow(o, s.buf));
            && Legal(o, t)
            && Holds(t.buf) + left == Holds(s.buf) + multiset{c}
            && t.evicted == s.evicted + left && |left| == Overflow(o, s.buf)
            && t.buf.stats == Arrive(s.buf).stats.(dropped := s.buf.stats.dropped + Overflow(o, s.buf))
            && t.filed == s.filed + [c] && t.made == s.made && t.expired == s.expired
            && t.superseded == s.superseded && t.discarded == s.discarded
  {
    HoldSplits(o, Arrive(s.buf), c, now);
    HeadsArrive(s.buf, Overflow(o, s.buf));
    HoldsArrive(s.buf);
  }

  lemma HoldsArrive(b: State)
    requires Listed(b.order, b.pending)
    ensures Holds(Arrive(b)) == Holds(b)
  {}

  lemma HeldConserves(o: Options, s: Sys, c: Capture, now: int)
    requires Legal(o, s) && Conserved(o, s) && Counted(s)
    requires WellFormed(c) && c.correlId !in s.buf.pending
    ensures var t := Held(o, s, c, now); Legal(o, t) && Conserved(o, t) && Counted(t)
  {
    var t, left := Held(o, s, c, now), Heads(s.buf, Overflow(o, s.buf));
    HeldMoves(o, s, c, now);
    EvictedLeave(s, t, left);
    Rebalance(o, s, t, multiset{c}, left);
    HeldCounts(o, s, c, now);
  }

  lemma EvictedLeave(s: Sys, t: Sys, left: multiset<Capture>)
    requires t.evicted == s.evicted + left
    requires t.expired == s.expired && t.superseded == s.superseded && t.made == s.made
    ensures Gone(t) == Gone(s) + left
  {}

  lemma HeldCounts(o: Options, s: Sys, c: Capture, now: int)
    requires Legal(o, s) && Counted(s) && WellFormed(c) && c.correlId !in s.buf.pending
    ensures Counted(Held(o, s, c, now))
  {
    HeldMoves(o, s, c, now);
  }

  lemma {:induction false} HeadsArrive(b: State, n: nat)
    requires Listed(b.order, b.pending) && n <= |b.order|
    ensures Heads(Arrive(b), n) == Heads(b, n)
    decreases n
  {
    if n == 0 {
    } else {
      DropHeadsListed(b, 1);
      HeadsArrive(DropHead(b), n - 1);
      assert Arrive(DropHead(b)) == DropHead(Arrive(b));
    }
  }

  lemma MovedInit(made: seq<Made>, k: nat, stage: Stage)
    requires k < |made|
    ensures var n := |made| - 1;
            made[k := made[k].(stage := stage)][..n] ==
              if k == n then made[..n] else made[..n][k := made[k].(stage := stage)]
  {}

  lemma {:induction false} MoveKeepsHalves(made: seq<Made>, k: nat, stage: Stage)
    requires k < |made|
    ensures Halves(made[k := made[k].(stage := stage)]) == Halves(made)
  {
    MovedInit(made, k, stage);
    if k == |made| - 1 {
    } else {
      MoveKeepsHalves(made[..|made| - 1], k, stage);
    }
  }

  lemma {:induction false} MoveCountsLost(made: seq<Made>, k: nat, stage: Stage)
    requires k < |made|
    ensures CountLost(made[k := made[k].(stage := stage)]) ==
            CountLost(made) - (if made[k].stage.Lost? then 1 else 0) + (if stage.Lost? then 1 else 0)
  {
    MovedInit(made, k, stage);
    if k == |made| - 1 {
    } else {
      MoveCountsLost(made[..|made| - 1], k, stage);
    }
  }

  ghost predicate QueueHoldsQueued(s: Sys) {
    forall i | 0 <= i < |s.backlog| :: s.backlog[i] < |s.made| && s.made[s.backlog[i]].stage.Queued?
  }

  lemma FileConserves(o: Options, s: Sys, c: Capture, now: int)
    requires Legal(o, s) && Conserved(o, s) && Counted(s) && WellFormed(c)
    ensures var t := File(o, s, c, now); Legal(o, t) && Conserved(o, t) && Counted(t)
  {
    if c.correlId !in s.buf.pending {
      HeldConserves(o, s, c, now);
    } else if s.buf.pending[c.correlId].capture.path == c.path {
      RepeatedConserves(o, s, c, now);
    } else {
      PairedConserves(o, s, c, now);
    }
  }

  lemma ArrivalConserves(o: Options, s: Sys, c: Capture, now: int)
    requires Legal(o, s) && Conserved(o, s) && Counted(s)
    ensures var t := Arrival(o, s, c, now); Conserved(o, t) && Counted(t)
  {
    if WellFormed(c) {
      AgeConserves(o, s, now);
      FileConserves(o, Age(o, s, now), Stamp(c, now), now);
      TickConserves(o, File(o, Age(o, s, now), Stamp(c, now), now), now);
    }
  }

  lemma TickConserves(o: Options, s: Sys, now: int)
    requires Legal(o, s) && Conserved(o, s) && Counted(s)
    ensures Conserved(o, Tick(s, now)) && Counted(Tick(s, now))
  {}

  lemma MoveConserves(o: Options, s: Sys, k: nat, stage: Stage)
    requires Legal(o, s) && Conserved(o, s) && Counted(s)
    requires k < |s.made| && !stage.Lost? && !s.made[k].stage.Lost?
    ensures Conserved(o, Move(s, k, stage)) && Counted(Move(s, k, stage))
  {
    MoveKeepsHalves(s.made, k, stage);
    MoveCountsLost(s.made, k, stage);
  }

  lemma OfferConserves(o: Options, s: Sys, k: nat)
    requires Legal(o, s) && Conserved(o, s) && Counted(s)
    ensures Conserved(o, Offer(o, s, k)) && Counted(Offer(o, s, k))
  {
    if k < |s.made| && s.made[k].stage.InFlight? {
      MoveConserves(o, s, k, if |s.backlog| < o.backlog then Queued else Refused);
    }
  }

  lemma LoseConserves(o: Options, s: Sys, k: nat)
    requires Legal(o, s) && Conserved(o, s) && Counted(s)
    ensures Legal(o, Lose(s, k)) && Conserved(o, Lose(s, k)) && Counted(Lose(s, k))
  {
    if k < |s.made| && s.made[k].stage.Refused? {
      MoveKeepsHalves(s.made, k, Lost);
      MoveCountsLost(s.made, k, Lost);
    }
  }

  lemma TakeConserves(o: Options, s: Sys)
    requires Legal(o, s) && Conserved(o, s) && Counted(s) && QueueHoldsQueued(s)
    ensures Conserved(o, Take(s)) && Counted(Take(s))
  {
    if s.backlog != [] {
      assert s.backlog[0] < |s.made| && s.made[s.backlog[0]].stage.Queued?;
      MoveConserves(o, s, s.backlog[0], Consumed);
    }
  }

  /** Sends, second sections and receives. */
  lemma ChannelConserves(o: Options, s: Sys, e: Event)
    requires Legal(o, s) && Conserved(o, s) && Counted(s) && QueueHoldsQueued(s)
    requires !e.Ingest? && !e.Sweep?
    ensures Conserved(o, Step(o, s, e)) && Counted(Step(o, s, e))
  {
    if e.Send? {
      OfferConserves(o, s, e.k);
    } else if e.SecondLock? {
      LoseConserves(o, s, e.k);
    } else {
      TakeConserves(o, s);
    }
  }

  lemma StepConserves(o: Options, s: Sys, e: Event)
    requires Legal(o, s) && Conserved(o, s) && Counted(s) && QueueHoldsQueued(s)
    ensures Conserved(o, Step(o, s, e)) && Counted(Step(o, s, e))
  {
    if e.Ingest? {
      ArrivalConserves(o, s, e.c, e.now);
    } else if e.Sweep? {
      AgeConserves(o, s, e.now);
    } else {
      ChannelConserves(o, s, e);
    }
  }

  /** The channel holds exactly the queued pairs, each once, and never too many. */
  ghost predicate QueueInv(o: Options, s: Sys) {
    && |s.backlog| <= o.backlog
    && Distinct(s.backlog)
    && QueueHoldsQueued(s)
    && forall k | 0 <= k < |s.made| && s.made[k].stage.Queued? :: k in s.backlog
  }

  lemma ArrivalKeepsQueue(o: Options, s: Sys, c: Capture, now: int)
    requires Legal(o, s) && QueueInv(o, s)
    ensures QueueInv(o, Arrival(o, s, c, now))
  {
    var t := Arrival(o, s, c, now);
    ArrivalMade(o, s, c, now);
    forall k | 0 <= k < |t.made| && t.made[k].stage.Queued? ensures k in t.backlog {
      assert k < |s.made| && t.made[k] == s.made[k];
    }
  }

  /** An arrival leaves the earlier pairs and the channel alone. */
  lemma ArrivalMade(o: Options, s: Sys, c: Capture, now: int)
    requires Legal(o, s)
    ensures var t := Arrival(o, s, c, now);
            && t.backlog == s.backlog
            && |s.made| <= |t.made| <= |s.made| + 1
            && t.made[..|s.made|] == s.made
            && (|t.made| > |s.made| ==> t.made[|s.made|].stage.InFlight?)
            && (forall k | 0 <= k < |s.made| :: t.made[k] == s.made[k])
  {
    if WellFormed(c) {
      IngestIsLock(o, s, c, now);
      FileMade(o, Age(o, s, now), Stamp(c, now), now);
    }
  }

  lemma FileMade(o: Options, s: Sys, c: Capture, now: int)
    requires Legal(o, s)
    ensures var t := File(o, s, c, now);
            && t.backlog == s.backlog
            && |s.made| <= |t.made| <= |s.made| + 1
            && t.made[..|s.made|] == s.made
            && (|t.made| > |s.made| ==> t.made[|s.made|].stage.InFlight?)
  {}

  lemma OfferKeepsQueue(o: Options, s: Sys, k: nat)
    requires QueueInv(o, s)
    ensures QueueInv(o, Offer(o, s, k))
  {
    var t := Offer(o, s, k);
    if k < |s.made| && s.made[k].stage.InFlight? && |s.backlog| < o.backlog {
      assert t.backlog[|s.backlog|] == k;
      forall i | 0 <= i < |t.made| && t.made[i].stage.Queued? ensures i in t.backlog {
        if i != k {
          assert s.made[i].stage.Queued? && i in s.backlog;
        }
      }
    }
  }

  lemma TakeKeepsQueue(o: Options, s: Sys)
    requires QueueInv(o, s)
    ensures QueueInv(o, Take(s))
  {
    var t := Take(s);
    if s.backlog != [] {
      var k := s.backlog[0];
      forall i | 0 <= i < |t.made| && t.made[i].stage.Queued? ensures i in t.backlog {
        assert i != k && s.made[i].stage.Queued? && i in s.backlog;
        assert s.backlog == [k] + t.backlog;
      }
      forall i | 0 <= i < |t.backlog| ensures t.backlog[i] < |t.made| && t.made[t.backlog[i]].stage.Queued? {
        assert t.backlog[i] == s.backlog[i + 1] && s.backlog[0] != s.backlog[i + 1];
      }
    }
  }

  lemma StepKeepsQueue(o: Options, s: Sys, e: Event)
    requires Legal(o, s) && QueueInv(o, s)
    ensures QueueInv(o, Step(o, s, e))
  {
    match e
    case Ingest(c, now) => ArrivalKeepsQueue(o, s, c, now);
    case Sweep(now) =>
    case Send(k) => OfferKeepsQueue(o, s, k);
    case SecondLock(k) =>
    case Receive => TakeKeepsQueue(o, s);
  }

  lemma {:induction false} RunKeepsBooks(o: Options, events: seq<Event>)
    requires o.Valid()
    ensures var s := Run(o, events); Conserved(o, s) && Counted(s) && QueueInv(o, s)
  {
    if events == [] {
    } else {
      var s, e := Run(o, events[..|events| - 1]), events[|events| - 1];
      RunKeepsBooks(o, events[..|events| - 1]);
      StepConserves(o, s, e);
      StepKeepsQueue(o, s, e);
    }
  }

  /** What an operator reads: the counters, and how many captures wait. */
  function Shown(s: Sys): int {
    var st := s.buf.stats;
    st.discarded + |s.buf.pending| + st.expired + st.dropped + 2 * st.paired
  }

  /** In every interleaving every capture received is accounted for, and the counters an
      operator sees fall short by exactly the superseded captures and one per lost pair:
      they add up if and only if there were none of either. */
  lemma Accounting(o: Options, events: seq<Event>)
    requires o.Valid()
    ensures var s := Run(o, events);
            var st, pending := s.buf.stats, |s.buf.pending|;
            && st.received == st.discarded + pending + st.expired + |s.evicted| + |s.superseded|
                              + 2 * (st.paired + CountLost(s.made))
            && st.dropped == |s.evicted| + CountLost(s.made)
            && st.received == Shown(s) + |s.superseded| + CountLost(s.made)
            && (st.received == Shown(s) <==> s.superseded == multiset{} && CountLost(s.made) == 0)
  {
    RunKeepsBooks(o, events);
    var s := Run(o, events);
    ListedMeans(s.buf.order, s.buf.pending);
    assert |multiset(s.filed)| == |s.filed|;
    assert s.superseded == multiset{} <==> |s.superseded| == 0;
  }

  // ----- When the counters do not add up -------------------------------------------------------------

  lemma RunMore(o: Options, events: seq<Event>, e: Event)
    requires o.Valid()
    ensures Run(o, events + [e]) == Step(o, Run(o, events), e)
  {
    assert (events + [e])[..|events|] == events;
  }

  lemma EmptyIsFresh(o: Options, b: State, now: int)
    requires b.order == []
    ensures Expire(o, b, now) == b
  {}

  /** A side comes first: it waits alone. */
  lemma FirstWaits(o: Options, s: Sys, c: Capture, now: int)
    requires Legal(o, s) && WellFormed(c) && s.buf.order == []
    ensures var t := Arrival(o, s, c, now);
            && t.buf.order == [c.correlId] && t.buf.pending == map[c.correlId := Pending(Stamp(c, now), now)]
            && t.made == s.made && t.superseded == s.superseded && t.backlog == s.backlog
  {
    EmptyIsFresh(o, s.buf, now);
    assert s.buf.pending == map[];
  }

  /** A side that waits alone and is still young comes again: the newer capture replaces it. */
  lemma SideRepeats(o: Options, s: Sys, c: Capture, now: int, held: Pending)
    requires Legal(o, s) && WellFormed(c)
    requires s.buf.order == [c.correlId] && s.buf.pending == map[c.correlId := held]
    requires held.capture.path == c.path && held.at > now - o.timeout
    ensures Arrival(o, s, c, now).superseded == s.superseded + multiset{held.capture}
  {
    YoungStays(o, s.buf, now);
    assert s.expired + Stale(s.buf, now - o.timeout) == s.expired;
  }

  /** Its partner comes in time: the pair is made, and nothing waits any more. */
  lemma PartnerPairs(o: Options, s: Sys, c: Capture, now: int, held: Pending)
    requires Legal(o, s) && WellFormed(c)
    requires s.buf.order == [c.correlId] && s.buf.pending == map[c.correlId := held]
    requires held.capture.path != c.path && held.at > now - o.timeout
    ensures var t := Arrival(o, s, c, now);
            && t.buf.order == [] && t.superseded == s.superseded && t.backlog == s.backlog
            && |t.made| == |s.made| + 1 && t.made[..|s.made|] == s.made && t.made[|s.made|].stage == InFlight
  {
    YoungStays(o, s.buf, now);
    var k := CompleteKeepsValid(o, Arrive(s.buf), c.correlId);
    PairedEmpties(o, Age(o, s, now), Stamp(c, now), now, k);
  }

  lemma YoungStays(o: Options, b: State, now: int)
    requires b.order != [] ==> b.order[0] in b.pending && b.pending[b.order[0]].at > now - o.timeout
    ensures Expire(o, b, now) == b
  {}

  lemma PairedEmpties(o: Options, s: Sys, c: Capture, now: int, k: nat)
    requires Legal(o, s) && s.buf.order == [c.correlId] && c.correlId in s.buf.pending && k == 0
    requires Complete(Arrive(s.buf), c.correlId).order == s.buf.order[..k] + s.buf.order[k + 1..]
    ensures var t := Paired(s, c, now);
            && t.buf.order == [] && t.superseded == s.superseded && t.backlog == s.backlog
            && |t.made| == |s.made| + 1 && t.made[..|s.made|] == s.made && t.made[|s.made|].stage == InFlight
  {}

  /** A repeated side: of two captures received one is accounted for nowhere. */
  lemma RepeatIsNotShown(o: Options, c: Capture, now: int) returns (events: seq<Event>)
    requires o.Valid() && WellFormed(c)
    ensures events == [Ingest(c, now), Ingest(c, now)]
    ensures var s := Run(o, events); s.buf.stats.received == 2 && Shown(s) == 1 && CountLost(s.made) == 0
  {
    var first := Ingest(c, now);
    events := [] + [first] + [first];
    RunMore(o, [], first);
    RunMore(o, [] + [first], first);
    FirstWaits(o, START, c, now);
    SideRepeats(o, Run(o, [first]), c, now, Pending(Stamp(c, now), now));
    Accounting(o, events);
  }

  /** Both sides of one id, one after the other, on a buffer in which nothing waits. */
  lemma BothSidesPair(o: Options, events: seq<Event>, c: Capture, d: Capture, now: int) returns (more: seq<Event>)
    requires o.Valid() && WellFormed(c) && WellFormed(d) && c.correlId == d.correlId && c.path != d.path
    requires Run(o, events).buf.order == []
    ensures more == events + [Ingest(c, now)] + [Ingest(d, now)]
    ensures var s, t := Run(o, events), Run(o, more);
            && t.buf.order == [] && t.superseded == s.superseded && t.backlog == s.backlog
            && |t.made| == |s.made| + 1 && t.made[..|s.made|] == s.made && t.made[|s.made|].stage == InFlight
  {
    more := events + [Ingest(c, now)] + [Ingest(d, now)];
    RunMore(o, events, Ingest(c, now));
    RunMore(o, events + [Ingest(c, now)], Ingest(d, now));
    FirstWaits(o, Run(o, events), c, now);
    PartnerPairs(o, Run(o, events + [Ingest(c, now)]), d, now, Pending(Stamp(c, now), now));
  }

  lemma SecondIsLost(o: Options, events: seq<Event>)
    requires o.Valid() && o.backlog == 1
    requires var s := Run(o, events);
             |s.made| == 2 && |s.backlog| == 1 && s.made[0].stage == Queued && s.made[1].stage == InFlight
    ensures var t := Run(o, events + [Send(1)] + [SecondLock(1)]);
            CountLost(t.made) == 1 && t.superseded == Run(o, events).superseded
  {
    var s := Run(o, events);
    RunMore(o, events, Send(1));
    RunMore(o, events + [Send(1)], SecondLock(1));
    MoveCountsLost(s.made, 1, Refused);
    MoveCountsLost(Offer(o, s, 1).made, 1, Lost);
    assert s.made[..1][..0] == [] && s.made[..1][0] == s.made[0];
  }

  /** A pair lost to a full backlog, with no side repeated: two captures, shown as one drop. */
  lemma LossIsNotShown(o: Options, c: Capture, d: Capture, now: int) returns (events: seq<Event>)
    requires o.Valid() && o.backlog == 1
    requires WellFormed(c) && WellFormed(d) && c.correlId == d.correlId && c.path != d.path
    ensures var s := Run(o, events);
            s.buf.stats.received == Shown(s) + 1 && s.superseded == multiset{} && CountLost(s.made) == 1
  {
    var one := BothSidesPair(o, [], c, d, now);
    RunMore(o, one, Send(0));
    var two := BothSidesPair(o, one + [Send(0)], c, d, now);
    assert Run(o, two).made[0] == Run(o, two).made[..1][0];
    SecondIsLost(o, two);
    events := two + [Send(1)] + [SecondLock(1)];
    Accounting(o, events);
  }
}
