/** Proxy mode gets things done: a free slot is taken, every turn is taken, and a request that is
    answered leaves its captures. All of it is about runs and what they leave behind. */
module ProxyProgress {
  import opened Text
  import opened Proxy
  import Collector

  lemma RunMore(cap: nat, events: seq<Event>, e: Event)
    ensures Run(cap, events + [e]) == Step(cap, Run(cap, events), e)
  {
    assert (events + [e])[..|events|] == events;
  }

  // ----- Arrivals ----------------------------------------------------------------------------------

  /** How many slots are held, by requests still reading their body and by live shadows. */
  function SlotsHeld(reqs: seq<Request>): nat {
    Count(ReadingBody, reqs) + Count(ShadowLives, reqs)
  }

  /** One more request arrives. If it is to be mirrored it takes a slot if and only if one is free,
      and is refused otherwise; if not, it is left alone. Nothing else changes. */
  lemma SlotIsTried(cap: nat, events: seq<Event>, mirrored: bool)
    ensures var s, t := Run(cap, events), Run(cap, events + [Arrive(mirrored)]);
            && |t.reqs| == |s.reqs| + 1 && t.reqs[..|s.reqs|] == s.reqs
            && var q := t.reqs[|s.reqs|];
            && q.mirrored == mirrored && q.back == NotStarted
            && (q.front == Admitted <==> mirrored && SlotsHeld(s.reqs) < cap)
            && (q.front == Refused <==> mirrored && SlotsHeld(s.reqs) >= cap)
            && (q.front == Plain <==> !mirrored)
            && t.used == s.used + (if q.front == Admitted then 1 else 0)
            && t.n == s.n && t.skipped == s.skipped && t.trace == s.trace
  {
    RunMore(cap, events, Arrive(mirrored));
    RunKeepsSlots(cap, events);
  }

  /** The arrivals of a run, in order: which of them were to be mirrored. */
  function Arrivals(events: seq<Event>): seq<bool> {
    if events == [] then []
    else
      var e := events[|events| - 1];
      Arrivals(events[..|events| - 1]) + if e.Arrive? then [e.mirrored] else []
  }

  /** The requests of a run are its arrivals, and each is to be mirrored exactly when its arrival
      said so. */
  lemma {:induction false} RequestsAreArrivals(cap: nat, events: seq<Event>)
    ensures var s := Run(cap, events);
            |s.reqs| == |Arrivals(events)| &&
            forall r | 0 <= r < |s.reqs| :: s.reqs[r].mirrored == Arrivals(events)[r]
  {
    if events == [] {
    } else {
      RequestsAreArrivals(cap, events[..|events| - 1]);
      StepKeepsMirrored(cap, Run(cap, events[..|events| - 1]), events[|events| - 1]);
    }
  }

  lemma StepKeepsMirrored(cap: nat, s: Sys, e: Event)
    ensures var t := Step(cap, s, e);
            && |t.reqs| == |s.reqs| + (if e.Arrive? then 1 else 0)
            && (e.Arrive? ==> t.reqs[|s.reqs|].mirrored == e.mirrored)
            && forall r | 0 <= r < |s.reqs| :: t.reqs[r].mirrored == s.reqs[r].mirrored
  {}

  // ----- Turns ---------------------------------------------------------------------------------------

  /** What an event of request r leaves alone: the other requests, and how they were asked. */
  ghost predicate OnlyMoves(s: Sys, t: Sys, r: nat)
    requires r < |s.reqs|
  {
    |t.reqs| == |s.reqs| && forall q | 0 <= q < |s.reqs| && q != r :: t.reqs[q] == s.reqs[q]
  }

  /** A request that was admitted draws the next number. */
  lemma DrawsANumber(cap: nat, events: seq<Event>, r: nat)
    requires r < |Run(cap, events).reqs|
    ensures var s, t := Run(cap, events), Run(cap, events + [Draw(r)]);
            if s.reqs[r].front == Admitted
            then OnlyMoves(s, t, r) && t.reqs[r].front == Reading && t.reqs[r].ticket == t.n == s.n + 1
            else t == s
  {
    RunMore(cap, events, Draw(r));
  }

  /** A body read in full starts the shadow, which keeps the slot. */
  lemma ReadsItsBody(cap: nat, events: seq<Event>, r: nat, body: string)
    requires r < |Run(cap, events).reqs|
    ensures var s, t := Run(cap, events), Run(cap, events + [BodyRead(r, body)]);
            if s.reqs[r].front == Reading
            then && OnlyMoves(s, t, r) && t.used == s.used
                 && t.reqs[r] == s.reqs[r].(front := Forwarding, back := Asking, body := body)
            else t == s
  {
    RunMore(cap, events, BodyRead(r, body));
  }

  /** A body that is too large or breaks off gives the slot back. */
  lemma BailsOut(cap: nat, events: seq<Event>, r: nat)
    requires r < |Run(cap, events).reqs|
    ensures var s, t := Run(cap, events), Run(cap, events + [BodyRefused(r)]);
            if s.reqs[r].front == Reading
            then OnlyMoves(s, t, r) && t.reqs[r] == s.reqs[r].(front := Bailed) && t.used == s.used - 1
            else t == s
  {
    RunMore(cap, events, BodyRefused(r));
    SlotsAreHeld(cap, events, r);
  }

  /** Whoever found no slot, or gave it back, is counted as skipped, once, and then runs on. */
  lemma IsSkipped(cap: nat, events: seq<Event>, r: nat)
    requires r < |Run(cap, events).reqs|
    ensures var s, t := Run(cap, events), Run(cap, events + [CountSkip(r)]);
            if s.reqs[r].front in {Bailed, Refused}
            then OnlyMoves(s, t, r) && t.reqs[r] == s.reqs[r].(front := Plain) && t.skipped == s.skipped + 1
            else t == s
  {
    RunMore(cap, events, CountSkip(r));
  }

  /** The primary answers. */
  lemma PrimaryResponds(cap: nat, events: seq<Event>, r: nat, head: Exchange)
    requires r < |Run(cap, events).reqs|
    ensures var s, t := Run(cap, events), Run(cap, events + [PrimaryAnswers(r, head)]);
            if s.reqs[r].front == Forwarding
            then OnlyMoves(s, t, r) && t.reqs[r] == s.reqs[r].(front := Streaming(head))
            else t == s
  {
    RunMore(cap, events, PrimaryAnswers(r, head));
  }

  /** Or it fails, and leaves no capture. */
  lemma PrimaryGivesUp(cap: nat, events: seq<Event>, r: nat)
    requires r < |Run(cap, events).reqs|
    ensures var s, t := Run(cap, events), Run(cap, events + [PrimaryFails(r)]);
            if s.reqs[r].front == Forwarding
            then OnlyMoves(s, t, r) && t.reqs[r] == s.reqs[r].(front := Plain) && t.trace == s.trace
            else t == s
  {
    RunMore(cap, events, PrimaryFails(r));
    PrimaryFailsQuietly(cap, Run(cap, events), r);
  }

  lemma PrimaryFailsQuietly(cap: nat, s: Sys, r: nat)
    requires r < |s.reqs|
    ensures Step(cap, s, PrimaryFails(r)) ==
            if s.reqs[r].front == Forwarding then s.(reqs := s.reqs[r := s.reqs[r].(front := Plain)]) else s
  {}

  /** The primary's capture: it bears no request body. */
  function OfPrimary(x: Exchange, ticket: nat, kept: string): Collector.Capture {
    Collector.Capture("primary", Id(ticket), x.httpMethod, x.url, x.reqHeaders, "", x.status, x.resHeaders, kept, None)
  }

  /** The shadow's: it bears the body the request was mirrored with. */
  function OfShadow(x: Exchange, ticket: nat, body: string): Collector.Capture {
    Collector.Capture("shadow", Id(ticket), x.httpMethod, x.url, x.reqHeaders, body, x.status, x.resHeaders,
                      x.resBody, None)
  }

  /** When the primary's response is closed its capture is handed over, with what was kept of the
      body. */
  lemma PrimaryIsCaptured(cap: nat, events: seq<Event>, r: nat, kept: string)
    requires r < |Run(cap, events).reqs|
    ensures var s, t := Run(cap, events), Run(cap, events + [Close(r, kept)]);
            var q := s.reqs[r];
            if q.front.Streaming?
            then && OnlyMoves(s, t, r) && t.reqs[r] == q.(front := Closed(q.front.head.(resBody := kept)))
                 && t.trace == s.trace + [Filed(r, OfPrimary(q.front.head, q.ticket, kept))]
            else t == s
  {
    RunMore(cap, events, Close(r, kept));
  }

  /** When the shadow answers its capture is handed over. */
  lemma ShadowIsCaptured(cap: nat, events: seq<Event>, r: nat, x: Exchange)
    requires r < |Run(cap, events).reqs|
    ensures var s, t := Run(cap, events), Run(cap, events + [ShadowAnswers(r, x)]);
            var q := s.reqs[r];
            if q.back == Asking
            then && OnlyMoves(s, t, r) && t.reqs[r] == q.(back := Leaving(Some(x)))
                 && t.trace == s.trace + [Filed(r, OfShadow(x, q.ticket, q.body))]
            else t == s
  {
    RunMore(cap, events, ShadowAnswers(r, x));
  }

  /** It may also fail, and then there is none. */
  lemma ShadowGivesUp(cap: nat, events: seq<Event>, r: nat)
    requires r < |Run(cap, events).reqs|
    ensures var s, t := Run(cap, events), Run(cap, events + [ShadowFails(r)]);
            if s.reqs[r].back == Asking
            then OnlyMoves(s, t, r) && t.reqs[r] == s.reqs[r].(back := Leaving(None)) && t.trace == s.trace
            else t == s
  {
    RunMore(cap, events, ShadowFails(r));
  }

  /** Either way the slot is given back after. */
  lemma ShadowLeaves(cap: nat, events: seq<Event>, r: nat)
    requires r < |Run(cap, events).reqs|
    ensures var s, t := Run(cap, events), Run(cap, events + [Release(r)]);
            if s.reqs[r].back.Leaving?
            then && OnlyMoves(s, t, r) && t.reqs[r] == s.reqs[r].(back := Gone(s.reqs[r].back.answer))
                 && t.used == s.used - 1
            else t == s
  {
    RunMore(cap, events, Release(r));
    SlotsAreHeld(cap, events, r);
    ReleaseGivesBack(cap, Run(cap, events), r);
  }

  lemma ReleaseGivesBack(cap: nat, s: Sys, r: nat)
    requires r < |s.reqs| && (s.reqs[r].back.Leaving? ==> s.used > 0)
    ensures var t := Step(cap, s, Release(r));
            if s.reqs[r].back.Leaving?
            then t == s.(used := s.used - 1, reqs := s.reqs[r := s.reqs[r].(back := Gone(s.reqs[r].back.answer))])
            else t == s
  {}

  // ----- The trace is complete --------------------------------------------------------------------------

  /** Entry i of the trace is request r's capture of this side. */
  predicate IsEntry(s: Sys, i: nat, r: nat, path: string) {
    i < |s.trace| && s.trace[i].req == r && s.trace[i].capture.path == path
  }

  ghost predicate HasEntry(s: Sys, r: nat, path: string) {
    exists i: nat :: IsEntry(s, i, r, path)
  }

  ghost predicate Complete(s: Sys) {
    forall r | 0 <= r < |s.reqs| ::
      && (s.reqs[r].Primary().Some? ==> HasEntry(s, r, Collector.PRIMARY))
      && (s.reqs[r].Shadow().Some? ==> HasEntry(s, r, Collector.SHADOW))
  }

  lemma EntryStays(s: Sys, t: Sys, r: nat, path: string)
    requires s.trace <= t.trace && HasEntry(s, r, path)
    ensures HasEntry(t, r, path)
  {
    var i: nat :| IsEntry(s, i, r, path);
    assert IsEntry(t, i, r, path);
  }

  lemma TraceGrowsByStep(cap: nat, s: Sys, e: Event)
    ensures s.trace <= Step(cap, s, e).trace
  {}

  lemma StepKeepsComplete(cap: nat, s: Sys, e: Event)
    requires Complete(s)
    ensures Complete(Step(cap, s, e))
  {
    var t := Step(cap, s, e);
    TraceGrowsByStep(cap, s, e);
    forall r | 0 <= r < |t.reqs|
      ensures t.reqs[r].Primary().Some? ==> HasEntry(t, r, Collector.PRIMARY)
      ensures t.reqs[r].Shadow().Some? ==> HasEntry(t, r, Collector.SHADOW)
    {
      if r < |s.reqs| && s.reqs[r].Primary().Some? { EntryStays(s, t, r, Collector.PRIMARY); }
      if r < |s.reqs| && s.reqs[r].Shadow().Some? { EntryStays(s, t, r, Collector.SHADOW); }
      NewEntry(cap, s, e, r);
    }
  }

  /** Who hands something over now has just been given an entry. */
  lemma NewEntry(cap: nat, s: Sys, e: Event, r: nat)
    requires r < |Step(cap, s, e).reqs|
    ensures var t := Step(cap, s, e);
            && (t.reqs[r].Primary().Some? ==>
                  (r < |s.reqs| && s.reqs[r].Primary().Some?) || HasEntry(t, r, Collector.PRIMARY))
            && (t.reqs[r].Shadow().Some? ==>
                  (r < |s.reqs| && s.reqs[r].Shadow().Some?) || HasEntry(t, r, Collector.SHADOW))
  {
    var t := Step(cap, s, e);
    if e.Close? { assert |t.trace| > |s.trace| ==> IsEntry(t, |s.trace|, e.r, Collector.PRIMARY); }
    if e.ShadowAnswers? { assert |t.trace| > |s.trace| ==> IsEntry(t, |s.trace|, e.r, Collector.SHADOW); }
  }

  lemma {:induction false} RunKeepsComplete(cap: nat, events: seq<Event>)
    ensures Complete(Run(cap, events))
  {
    if events == [] {
    } else {
      RunKeepsComplete(cap, events[..|events| - 1]);
      StepKeepsComplete(cap, Run(cap, events[..|events| - 1]), events[|events| - 1]);
    }
  }

  lemma EntryIsGiven(s: Sys, i: nat, r: nat, path: string)
    requires TraceInv(s) && IsEntry(s, i, r, path)
    ensures r < |s.reqs|
    ensures path == Collector.PRIMARY ==> s.reqs[r].Primary().Some?
    ensures path == Collector.SHADOW ==> s.reqs[r].Shadow().Some?
  {
    assert Given(s, s.trace[i]);
  }

  /** In every run, a request has exactly one entry in the trace for a side it has handed over, and
      none for a side it has not. */
  lemma TraceIsComplete(cap: nat, events: seq<Event>, r: nat)
    requires r < |Run(cap, events).reqs|
    ensures var s := Run(cap, events);
            && (s.reqs[r].Primary().Some? <==> HasEntry(s, r, "primary"))
            && (s.reqs[r].Shadow().Some? <==> HasEntry(s, r, "shadow"))
    ensures var s := Run(cap, events);
            forall i: nat, j: nat, path ::
              i != j && IsEntry(s, i, r, path) && IsEntry(s, j, r, path) ==> path !in {"primary", "shadow"}
  {
    var s := Run(cap, events);
    RunKeepsComplete(cap, events);
    RunKeepsTrace(cap, events);
    if HasEntry(s, r, Collector.PRIMARY) {
      var i: nat :| IsEntry(s, i, r, Collector.PRIMARY);
      EntryIsGiven(s, i, r, Collector.PRIMARY);
    }
    if HasEntry(s, r, Collector.SHADOW) {
      var i: nat :| IsEntry(s, i, r, Collector.SHADOW);
      EntryIsGiven(s, i, r, Collector.SHADOW);
    }
  }

  // ----- An answered request leaves its captures -------------------------------------------------------------

  predicate MovesBack(e: Event, r: nat) {
    (e.ShadowAnswers? || e.ShadowFails? || e.Release?) && e.r == r
  }

  predicate MovesFront(e: Event, r: nat) {
    !e.Arrive? && e.r == r && !MovesBack(e, r)
  }

  ghost predicate FrontRests(events: seq<Event>, r: nat) {
    forall e | e in events :: !MovesFront(e, r)
  }

  ghost predicate BackRests(events: seq<Event>, r: nat) {
    forall e | e in events :: !MovesBack(e, r)
  }

  /** The same as far as the goroutine that serves the request goes. */
  predicate SameFront(s: Sys, t: Sys, r: nat) {
    && r < |s.reqs| && r < |t.reqs|
    && t.reqs[r].front == s.reqs[r].front && t.reqs[r].ticket == s.reqs[r].ticket
  }

  lemma StepFrontStays(cap: nat, s: Sys, e: Event, r: nat)
    requires r < |s.reqs| && !MovesFront(e, r)
    ensures SameFront(s, Step(cap, s, e), r)
  {}

  lemma {:induction false} FrontStays(cap: nat, events: seq<Event>, more: seq<Event>, r: nat)
    requires r < |Run(cap, events).reqs| && FrontRests(more, r)
    ensures SameFront(Run(cap, events), Run(cap, events + more), r)
    decreases |more|
  {
    if more == [] {
      assert events + more == events;
    } else {
      var n := |more| - 1;
      assert events + more == (events + more[..n]) + [more[n]];
      FrontStays(cap, events, more[..n], r);
      RunMore(cap, events + more[..n], more[n]);
      StepFrontStays(cap, Run(cap, events + more[..n]), more[n], r);
    }
  }

  /** Its shadow is still asking, for the same request. */
  predicate StillAsks(s: Sys, t: Sys, r: nat) {
    && r < |s.reqs| && r < |t.reqs| && t.reqs[r].back == Asking
    && t.reqs[r].ticket == s.reqs[r].ticket && t.reqs[r].body == s.reqs[r].body
  }

  lemma StepBackStays(cap: nat, s: Sys, e: Event, r: nat)
    requires r < |s.reqs| && s.reqs[r].back == Asking && StartsInOrder(s) && !MovesBack(e, r)
    ensures StillAsks(s, Step(cap, s, e), r)
  {
    assert !ReadingBody(s.reqs[r]);
  }

  lemma {:induction false} BackStays(cap: nat, events: seq<Event>, more: seq<Event>, r: nat)
    requires r < |Run(cap, events).reqs| && Run(cap, events).reqs[r].back == Asking && BackRests(more, r)
    ensures StillAsks(Run(cap, events), Run(cap, events + more), r)
    decreases |more|
  {
    if more == [] {
      assert events + more == events;
    } else {
      var n := |more| - 1;
      assert events + more == (events + more[..n]) + [more[n]];
      BackStays(cap, events, more[..n], r);
      RunMore(cap, events + more[..n], more[n]);
      RunKeepsSlots(cap, events + more[..n]);
      StepBackStays(cap, Run(cap, events + more[..n]), more[n], r);
    }
  }

  lemma {:induction false} TraceGrows(cap: nat, events: seq<Event>, more: seq<Event>)
    ensures Run(cap, events).trace <= Run(cap, events + more).trace
    decreases |more|
  {
    if more == [] {
      assert events + more == events;
    } else {
      var n := |more| - 1;
      assert events + more == (events + more[..n]) + [more[n]];
      TraceGrows(cap, events, more[..n]);
      RunMore(cap, events + more[..n], more[n]);
    }
  }

  /** An admitted request draws its number and reads its body; whatever else happens in between. */
  function Started(before: seq<Event>, r: nat, m: seq<Event>, body: string): seq<Event> {
    before + [Draw(r)] + m + [BodyRead(r, body)]
  }

  lemma StartsForwarding(cap: nat, before: seq<Event>, r: nat, m: seq<Event>, body: string)
    requires r < |Run(cap, before).reqs| && Run(cap, before).reqs[r].front == Admitted && FrontRests(m, r)
    ensures var s := Run(cap, Started(before, r, m, body));
            && r < |s.reqs| && s.reqs[r].front == Forwarding && s.reqs[r].back == Asking
            && s.reqs[r].ticket == Run(cap, before).n + 1 && s.reqs[r].body == body
  {
    DrawsANumber(cap, before, r);
    FrontStays(cap, before + [Draw(r)], m, r);
    ReadsItsBody(cap, before + [Draw(r)] + m, r, body);
  }

  /** When the primary answers an admitted request and its response is closed, the primary's
      capture is in the trace, under the number the request drew, whatever else happens before,
      in between and after. */
  lemma PrimaryLeavesCapture(cap: nat, before: seq<Event>, r: nat, m: seq<Event>, body: string, m2: seq<Event>,
                             x: Exchange, m3: seq<Event>, kept: string, rest: seq<Event>)
    requires r < |Run(cap, before).reqs| && Run(cap, before).reqs[r].front == Admitted
    requires FrontRests(m, r) && FrontRests(m2, r) && FrontRests(m3, r)
    ensures var events := Started(before, r, m, body) + m2 + [PrimaryAnswers(r, x)] + m3 + [Close(r, kept)] + rest;
            Filed(r, OfPrimary(x, Run(cap, before).n + 1, kept)) in Run(cap, events).trace
  {
    var one := Started(before, r, m, body);
    StartsForwarding(cap, before, r, m, body);
    FrontStays(cap, one, m2, r);
    PrimaryResponds(cap, one + m2, r, x);
    var two := one + m2 + [PrimaryAnswers(r, x)];
    FrontStays(cap, two, m3, r);
    PrimaryIsCaptured(cap, two + m3, r, kept);
    TraceGrows(cap, two + m3 + [Close(r, kept)], rest);
    var s := Run(cap, two + m3 + [Close(r, kept)]);
    assert s.trace[|s.trace| - 1] in s.trace;
  }

  /** And when its shadow answers, so is the shadow's, with the body the request was mirrored with. */
  lemma ShadowLeavesCapture(cap: nat, before: seq<Event>, r: nat, m: seq<Event>, body: string, m2: seq<Event>,
                            x: Exchange, rest: seq<Event>)
    requires r < |Run(cap, before).reqs| && Run(cap, before).reqs[r].front == Admitted
    requires FrontRests(m, r) && BackRests(m2, r)
    ensures var events := Started(before, r, m, body) + m2 + [ShadowAnswers(r, x)] + rest;
            Filed(r, OfShadow(x, Run(cap, before).n + 1, body)) in Run(cap, events).trace
  {
    var one := Started(before, r, m, body);
    StartsForwarding(cap, before, r, m, body);
    BackStays(cap, one, m2, r);
    ShadowIsCaptured(cap, one + m2, r, x);
    TraceGrows(cap, one + m2 + [ShadowAnswers(r, x)], rest);
    var s := Run(cap, one + m2 + [ShadowAnswers(r, x)]);
    assert s.trace[|s.trace| - 1] in s.trace;
  }
}
