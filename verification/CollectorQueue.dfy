/** The backlog as a queue: which pairs go in, and which come out. */
module CollectorQueue {
  import opened Text
  import opened Sorting
  import opened Collector
  import opened CollectorRuns

  /** The pair's send goes through: it has not been tried before, and there is room. */
  predicate GoesThrough(o: Options, s: Sys, e: Event) {
    e.Send? && e.k < |s.made| && s.made[e.k].stage == InFlight && |s.backlog| < o.backlog
  }

  /** The pairs whose sends went through, in that order. */
  ghost function Accepted(o: Options, events: seq<Event>): seq<nat>
    requires o.Valid()
  {
    if events == [] then []
    else
      var init, e := events[..|events| - 1], events[|events| - 1];
      Accepted(o, init) + if GoesThrough(o, Run(o, init), e) then [e.k] else []
  }

  /** The pairs the consumer got, in that order: at each receive what was at the head. */
  ghost function Received(o: Options, events: seq<Event>): seq<nat>
    requires o.Valid()
  {
    if events == [] then []
    else
      var init, e := events[..|events| - 1], events[|events| - 1];
      var queue := Run(o, init).backlog;
      Received(o, init) + if e.Receive? && queue != [] then [queue[0]] else []
  }

  lemma StepQueues(o: Options, s: Sys, e: Event)
    requires Legal(o, s) && QueueInv(o, s)
    ensures var t, first := Step(o, s, e).backlog, if e.Receive? && s.backlog != [] then s.backlog[..1] else [];
            first + t == s.backlog + if GoesThrough(o, s, e) then [e.k] else []
  {
    match e
    case Ingest(c, now) => ArrivalMade(o, s, c, now);
    case Receive => if s.backlog != [] { assert s.backlog == s.backlog[..1] + s.backlog[1..]; }
    case _ =>
  }

  /** In every run, what went into the backlog has come out of it in the same order or is still
      there: no pair is lost in it, none overtakes another. */
  lemma {:induction false} FirstInFirstOut(o: Options, events: seq<Event>)
    requires o.Valid()
    ensures Accepted(o, events) == Received(o, events) + Run(o, events).backlog
  {
    if events == [] {
    } else {
      var init, e := events[..|events| - 1], events[|events| - 1];
      FirstInFirstOut(o, init);
      RunKeepsBooks(o, init);
      StepQueues(o, Run(o, init), e);
      OneMoreStep(o, events);
    }
  }

  lemma OneMoreStep(o: Options, events: seq<Event>)
    requires o.Valid() && events != []
    requires var init, e := events[..|events| - 1], events[|events| - 1];
             var s, t := Run(o, init), Run(o, events);
             && Accepted(o, init) == Received(o, init) + s.backlog
             && (if e.Receive? && s.backlog != [] then s.backlog[..1] else []) + t.backlog ==
                s.backlog + (if GoesThrough(o, s, e) then [e.k] else [])
    ensures Accepted(o, events) == Received(o, events) + Run(o, events).backlog
  {
    var init, e := events[..|events| - 1], events[|events| - 1];
    var s, t := Run(o, init), Run(o, events);
    var first := if e.Receive? && s.backlog != [] then s.backlog[..1] else [];
    var last := if GoesThrough(o, s, e) then [e.k] else [];
    assert Received(o, events) == Received(o, init) + first;
    assert Accepted(o, events) == Accepted(o, init) + last;
    Associative(Received(o, init), first, t.backlog);
    Associative(Received(o, init), s.backlog, last);
  }

  ghost predicate AllConsumed(made: seq<Made>, ks: seq<nat>) {
    forall i | 0 <= i < |ks| :: ks[i] < |made| && made[ks[i]].stage == Consumed
  }

  lemma StepKeepsConsumed(o: Options, s: Sys, e: Event, k: nat)
    requires Legal(o, s) && QueueInv(o, s) && k < |s.made| && s.made[k].stage == Consumed
    ensures var t := Step(o, s, e); k < |t.made| && t.made[k].stage == Consumed
  {
    match e
    case Ingest(c, now) => ArrivalMade(o, s, c, now);
    case _ =>
  }

  lemma {:induction false} ReceivedAreConsumed(o: Options, events: seq<Event>)
    requires o.Valid()
    ensures AllConsumed(Run(o, events).made, Received(o, events))
  {
    if events == [] {
    } else {
      var init, e := events[..|events| - 1], events[|events| - 1];
      ReceivedAreConsumed(o, init);
      RunKeepsBooks(o, init);
      ConsumedMore(o, Run(o, init), e, Received(o, init));
    }
  }

  lemma ConsumedMore(o: Options, s: Sys, e: Event, received: seq<nat>)
    requires Legal(o, s) && QueueInv(o, s) && AllConsumed(s.made, received)
    ensures AllConsumed(Step(o, s, e).made,
                        received + if e.Receive? && s.backlog != [] then [s.backlog[0]] else [])
  {
    forall i | 0 <= i < |received|
      ensures received[i] < |Step(o, s, e).made| && Step(o, s, e).made[received[i]].stage == Consumed
    {
      StepKeepsConsumed(o, s, e, received[i]);
    }
    if e.Receive? && s.backlog != [] {
      assert s.backlog[0] < |s.made| && s.made[s.backlog[0]].stage == Queued;
    }
  }

  /** No pair goes in twice, so none comes out twice. */
  lemma {:induction false} EachGoesInOnce(o: Options, events: seq<Event>)
    requires o.Valid()
    ensures Distinct(Accepted(o, events))
    ensures forall k | k in Accepted(o, events) ::
              k < |Run(o, events).made| && Run(o, events).made[k].stage in {Queued, Consumed}
  {
    FirstInFirstOut(o, events);
    ReceivedAreConsumed(o, events);
    RunKeepsBooks(o, events);
    var s, ks := Run(o, events), Accepted(o, events);
    forall k | k in ks ensures k < |s.made| && s.made[k].stage in {Queued, Consumed} {
      StageOfAccepted(s, Received(o, events), k);
    }
    if events == [] {
    } else {
      EachGoesInOnce(o, events[..|events| - 1]);
    }
  }

  lemma StageOfAccepted(s: Sys, received: seq<nat>, k: nat)
    requires AllConsumed(s.made, received) && QueueHoldsQueued(s) && k in received + s.backlog
    ensures k < |s.made| && s.made[k].stage in {Queued, Consumed}
  {
    InConcat(received, s.backlog, k);
  }

  /** A send that finds the backlog full refuses the pair, and touches nothing else. */
  lemma FullBacklogRefuses(o: Options, events: seq<Event>, k: nat)
    requires o.Valid() && k < |Run(o, events).made|
    ensures var s, t := Run(o, events), Run(o, events + [Send(k)]);
            s.made[k].stage == InFlight && |s.backlog| >= o.backlog ==>
              t == s.(made := s.made[k := s.made[k].(stage := Refused)])
  {
    RunMore(o, events, Send(k));
  }

  /** The locked section after it counts the pair as dropped and no longer as paired. */
  lemma RefusedIsLost(o: Options, events: seq<Event>, k: nat)
    requires o.Valid() && k < |Run(o, events).made|
    ensures var s, t := Run(o, events), Run(o, events + [SecondLock(k)]);
            s.made[k].stage == Refused ==>
              && t.made == s.made[k := s.made[k].(stage := Lost)] && t.backlog == s.backlog
              && t.buf == s.buf.(stats := s.buf.stats.(dropped := s.buf.stats.dropped + 1,
                                                       paired := s.buf.stats.paired - 1))
  {
    RunMore(o, events, SecondLock(k));
  }
}
