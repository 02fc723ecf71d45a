/** The proxy feeding the buffer: no side is ever repeated, so what the buffer promises only
    under that condition holds. */
module Edge {
  import opened Text
  import opened Sorting
  import opened Collector
  import opened CollectorRuns
  import opened CollectorHistory
  import opened CollectorExpiry
  import Proxy
  import Tee

  type Side = (string, string)

  function SideOf(c: Capture): Side {
    (c.path, c.correlId)
  }

  /** The sides and ids of the captures a run files, in the order of their locked sections. */
  function Sides(events: seq<Event>): seq<Side> {
    if events == [] then []
    else
      var e := events[|events| - 1];
      Sides(events[..|events| - 1]) + if e.Ingest? then [SideOf(e.c)] else []
  }

  /** The captures themselves, as they are when they reach the buffer. */
  function Ingested(events: seq<Event>): seq<Capture> {
    if events == [] then []
    else
      var e := events[|events| - 1];
      Ingested(events[..|events| - 1]) + if e.Ingest? then [e.c] else []
  }

  /** The door into the buffer: how captures are scrubbed, and how long bodies may be. */
  datatype Door = Door(scrubber: Tee.Scrubber, max: nat)
  {
    function Through(c: Capture): (d: Capture)
      ensures d.path == c.path && d.correlId == c.correlId
    {
      Tee.Stored(scrubber, max, c)
    }
  }

  /** What the proxy has handed over, as it leaves the door. */
  function Handed(door: Door, p: Proxy.Sys): (cs: seq<Capture>)
    ensures |cs| == |p.trace|
  {
    seq(|p.trace|, i requires 0 <= i < |p.trace| => door.Through(p.trace[i].capture))
  }

  /** Every capture that reaches the buffer was handed over by the proxy, in whatever order the
      goroutines get the lock; some may not have reached it yet. */
  ghost predicate FedBy(events: seq<Event>, door: Door, p: Proxy.Sys) {
    multiset(Ingested(events)) <= multiset(Handed(door, p))
  }

  // ----- Without repeats nothing is superseded ----------------------------------------------------------

  ghost predicate FiledBefore(s: Sys, sides: seq<Side>) {
    forall i | 0 <= i < |s.filed| :: SideOf(s.filed[i]) in sides
  }

  /** What the buffer holds was filed before. */
  lemma HeldWasFiled(s: Sys, sides: seq<Side>, id: string)
    requires Traced(s) && FiledBefore(s, sides) && id in s.buf.pending
    ensures (s.buf.pending[id].capture.path, id) in sides
  {
    assert HeldIsLast(s.filed, s.made, id, s.buf.pending[id].capture);
    var i := Last(s.filed, |s.filed|, id).value;
    assert SideOf(s.filed[i]) in sides;
  }

  /** The clock was read for some capture that has been filed. */
  ghost predicate ReadFor(events: seq<Event>, clock: Option<int>) {
    clock.Some? ==> exists i :: 0 <= i < |events| && events[i].Ingest? && events[i].now == clock.value
  }

  ghost predicate NoRepeatSoFar(s: Sys, events: seq<Event>) {
    && FiledBefore(s, Sides(events))
    && s.superseded == multiset{}
    && ReadFor(events, s.clock)
    && (NeverBack(events) ==> s.smooth)
  }

  lemma FileNew(o: Options, s: Sys, c: Capture, now: int, sides: seq<Side>)
    requires Legal(o, s) && Traced(s) && FiledBefore(s, sides) && SideOf(c) !in sides
    ensures var t := File(o, s, c, now);
            && t.superseded == s.superseded && t.smooth == s.smooth && t.clock == s.clock
            && FiledBefore(t, sides + [SideOf(c)])
  {
    if c.correlId in s.buf.pending {
      HeldWasFiled(s, sides, c.correlId);
    }
  }

  /** What filing without a repeat does to the clock, if it does anything. */
  ghost predicate Ticked(s: Sys, t: Sys, now: int) {
    || (t.smooth == s.smooth && t.clock == s.clock)
    || (t.smooth == (s.smooth && (s.clock.None? || s.clock.value <= now)) && t.clock == Some(now))
  }

  lemma ArrivalNew(o: Options, s: Sys, c: Capture, now: int, sides: seq<Side>)
    requires Legal(o, s) && Traced(s) && FiledBefore(s, sides) && SideOf(c) !in sides
    ensures var t := Arrival(o, s, c, now);
            && t.superseded == s.superseded
            && FiledBefore(t, sides + [SideOf(c)])
            && Ticked(s, t, now)
  {
    if WellFormed(c) {
      IngestIsLock(o, s, c, now);
      AgeTraced(o, s, now);
      FileNew(o, Age(o, s, now), Stamp(c, now), now, sides);
    }
  }

  lemma NeverBackPrefix(events: seq<Event>)
    requires events != [] && NeverBack(events)
    ensures NeverBack(events[..|events| - 1])
  {}

  lemma NeverBackLast(events: seq<Event>, clock: Option<int>)
    requires events != [] && NeverBack(events) && ReadFor(events[..|events| - 1], clock)
    requires events[|events| - 1].Ingest? && clock.Some?
    ensures clock.value <= events[|events| - 1].now
  {
    var init := events[..|events| - 1];
    var i :| 0 <= i < |init| && init[i].Ingest? && init[i].now == clock.value;
    assert events[i] == init[i];
  }

  lemma ReadForMore(events: seq<Event>, clock: Option<int>)
    requires events != [] && ReadFor(events[..|events| - 1], clock)
    ensures ReadFor(events, clock)
  {
    var init := events[..|events| - 1];
    if clock.Some? {
      var i :| 0 <= i < |init| && init[i].Ingest? && init[i].now == clock.value;
      assert events[i] == init[i];
    }
  }

  lemma LastSideIsNew(events: seq<Event>)
    requires events != [] && events[|events| - 1].Ingest? && Distinct(Sides(events))
    ensures SideOf(events[|events| - 1].c) !in Sides(events[..|events| - 1])
    ensures Distinct(Sides(events[..|events| - 1]))
  {
    var sides, init := Sides(events), Sides(events[..|events| - 1]);
    assert init == sides[..|sides| - 1];
  }

  lemma {:induction false} NoRepeats(o: Options, events: seq<Event>)
    requires o.Valid() && Distinct(Sides(events))
    ensures NoRepeatSoFar(Run(o, events), events)
  {
    if events == [] {
    } else {
      var init, e := events[..|events| - 1], events[|events| - 1];
      var s := Run(o, init);
      RunTraced(o, init);
      if e.Ingest? {
        LastSideIsNew(events);
        NoRepeats(o, init);
        ArrivalNew(o, s, e.c, e.now, Sides(init));
        IngestKeepsNoRepeat(o, events);
      } else {
        assert Sides(events) == Sides(init);
        NoRepeats(o, init);
        OthersKeepNoRepeat(o, s, e, init, events);
      }
    }
  }

  lemma OthersKeepNoRepeat(o: Options, s: Sys, e: Event, init: seq<Event>, events: seq<Event>)
    requires Legal(o, s) && NoRepeatSoFar(s, init) && !e.Ingest?
    requires events == init + [e]
    ensures NoRepeatSoFar(Step(o, s, e), events)
  {
    assert events[..|events| - 1] == init;
    var t := Step(o, s, e);
    assert t.filed == s.filed && t.superseded == s.superseded && t.clock == s.clock && t.smooth == s.smooth;
    assert Sides(events) == Sides(init) + [] == Sides(init);
    ReadForMore(events, s.clock);
    if NeverBack(events) { NeverBackPrefix(events); }
  }

  lemma IngestKeepsNoRepeat(o: Options, events: seq<Event>)
    requires o.Valid() && events != [] && events[|events| - 1].Ingest?
    requires var init, e := events[..|events| - 1], events[|events| - 1];
             var s, t := Run(o, init), Run(o, events);
             && NoRepeatSoFar(s, init)
             && t.superseded == s.superseded
             && FiledBefore(t, Sides(init) + [SideOf(e.c)])
             && Ticked(s, t, e.now)
    ensures NoRepeatSoFar(Run(o, events), events)
  {
    var init, e := events[..|events| - 1], events[|events| - 1];
    var s := Run(o, init);
    ReadForMore(events, s.clock);
    assert ReadFor(events, Some(e.now));
    if NeverBack(events) {
      NeverBackPrefix(events);
      if s.clock.Some? { NeverBackLast(events, s.clock); }
    }
  }

  // ----- What the proxy hands over has no repeats ----------------------------------------------------------

  lemma OccursTwice<T>(xs: seq<T>, i: nat, j: nat)
    requires i < j < |xs| && xs[i] == xs[j]
    ensures multiset(xs)[xs[i]] >= 2
  {
    var rest := xs[i + 1..];
    assert rest[j - i - 1] == xs[j];
    InMultiset(rest, xs[j]);
    assert xs == xs[..i] + [xs[i]] + rest;
    assert multiset(xs) == multiset(xs[..i]) + multiset{xs[i]} + multiset(rest);
  }

  lemma {:induction false} OccursOnce<T>(xs: seq<T>, x: T)
    requires Distinct(xs)
    ensures multiset(xs)[x] <= 1
  {
    if xs == [] {
    } else {
      OccursOnce(xs[1..], x);
      assert xs == [xs[0]] + xs[1..];
      if x == xs[0] { InMultiset(xs[1..], x); }
    }
  }

  lemma DistinctPart<T>(xs: seq<T>, ys: seq<T>)
    requires multiset(xs) <= multiset(ys) && Distinct(ys)
    ensures Distinct(xs)
    ensures forall x | x in xs :: x in ys
  {
    forall i, j | 0 <= i < j < |xs| ensures xs[i] != xs[j] {
      if xs[i] == xs[j] {
        OccursTwice(xs, i, j);
        OccursOnce(ys, xs[i]);
      }
    }
    forall x | x in xs ensures x in ys {
      InMultiset(xs, x);
      InMultiset(ys, x);
    }
  }

  lemma {:induction false} SidesOfIngested(events: seq<Event>)
    ensures |Sides(events)| == |Ingested(events)|
    ensures forall i | 0 <= i < |Sides(events)| :: Sides(events)[i] == SideOf(Ingested(events)[i])
  {
    if events == [] {
    } else {
      SidesOfIngested(events[..|events| - 1]);
    }
  }

  lemma HandedApart(cap: nat, proxied: seq<Proxy.Event>, door: Door, i: nat, j: nat)
    requires Proxy.Run(cap, proxied).n < Proxy.WRAP
    requires i < j < |Handed(door, Proxy.Run(cap, proxied))|
    ensures var cs := Handed(door, Proxy.Run(cap, proxied)); SideOf(cs[i]) != SideOf(cs[j])
  {
    Proxy.OneCapturePerSide(cap, proxied, i, j);
  }

  /** A capture is told apart from all others by its side and its id. */
  lemma DistinctSides(xs: seq<Capture>, ys: seq<Capture>)
    requires multiset(xs) <= multiset(ys)
    requires forall i, j | 0 <= i < j < |ys| :: SideOf(ys[i]) != SideOf(ys[j])
    ensures forall i, j | 0 <= i < j < |xs| :: SideOf(xs[i]) != SideOf(xs[j])
    ensures forall x | x in xs :: x in ys
  {
    DistinctPart(xs, ys);
    forall i, j | 0 <= i < j < |xs| ensures SideOf(xs[i]) != SideOf(xs[j]) {
      assert xs[i] in ys && xs[j] in ys;
      var a :| 0 <= a < |ys| && ys[a] == xs[i];
      var b :| 0 <= b < |ys| && ys[b] == xs[j];
      assert a != b;
    }
  }

  lemma FedWithoutRepeats(cap: nat, proxied: seq<Proxy.Event>, door: Door, events: seq<Event>)
    requires Proxy.Run(cap, proxied).n < Proxy.WRAP && FedBy(events, door, Proxy.Run(cap, proxied))
    ensures Distinct(Sides(events))
    ensures forall c | c in Ingested(events) :: c in Handed(door, Proxy.Run(cap, proxied))
  {
    var handed := Handed(door, Proxy.Run(cap, proxied));
    forall i, j | 0 <= i < j < |handed| ensures SideOf(handed[i]) != SideOf(handed[j]) {
      HandedApart(cap, proxied, door, i, j);
    }
    DistinctSides(Ingested(events), handed);
    SidesOfIngested(events);
  }

  /** A buffer fed only by the proxy, in whatever order its captures get the lock: nothing is
      ever superseded, so the counters account for everything received but the pairs that
      found the backlog full, two captures each of which the counters show one. And while the
      clock readings of the locked sections do not go back, expiry is by age and every pair
      joins captures filed less than Timeout apart. */
  lemma ProxyFeedsSafely(cap: nat, proxied: seq<Proxy.Event>, door: Door, o: Options, events: seq<Event>, now: int)
    requires o.Valid()
    requires Proxy.Run(cap, proxied).n < Proxy.WRAP && FedBy(events, door, Proxy.Run(cap, proxied))
    ensures var s := Run(o, events);
            s.superseded == multiset{} && s.buf.stats.received == Shown(s) + CountLost(s.made)
    ensures var s := Run(o, events);
            NeverBack(events) ==>
              && Expire(o, s.buf, now).pending == ByAge(s.buf.pending, now - o.timeout)
              && Timely(o, s.made)
  {
    FedWithoutRepeats(cap, proxied, door, events);
    NoRepeats(o, events);
    Accounting(o, events);
    SmoothRunsExpireByAge(o, events, now);
  }

  // ----- Whose halves a pair joins --------------------------------------------------------------------------

  /** Filing stamps a capture and changes nothing else. */
  ghost predicate StampOf(f: Capture, cs: seq<Capture>) {
    exists c :: c in cs && f == c.(at := f.at)
  }

  ghost predicate FromIngested(filed: seq<Capture>, cs: seq<Capture>) {
    forall i | 0 <= i < |filed| :: StampOf(filed[i], cs)
  }

  lemma {:induction false} FiledWasIngested(o: Options, events: seq<Event>)
    requires o.Valid()
    ensures FromIngested(Run(o, events).filed, Ingested(events))
  {
    if events == [] {
    } else {
      var n := |events| - 1;
      FiledWasIngested(o, events[..n]);
      MoreIngested(o, Run(o, events[..n]), events[n], Ingested(events[..n]));
    }
  }

  lemma MoreIngested(o: Options, s: Sys, e: Event, cs: seq<Capture>)
    requires Legal(o, s) && FromIngested(s.filed, cs)
    ensures FromIngested(Step(o, s, e).filed, cs + if e.Ingest? then [e.c] else [])
  {
    var t, more := Step(o, s, e), cs + if e.Ingest? then [e.c] else [];
    StepFiles(o, s, e);
    forall i | 0 <= i < |t.filed| ensures StampOf(t.filed[i], more) {
      if i < |s.filed| {
        assert StampOf(s.filed[i], cs);
        var c :| c in cs && s.filed[i] == c.(at := s.filed[i].at);
        assert c in more;
      } else {
        assert e.c in more;
      }
    }
  }

  lemma StepFiles(o: Options, s: Sys, e: Event)
    requires Legal(o, s)
    ensures var t := Step(o, s, e).filed;
            t == s.filed || (e.Ingest? && t == s.filed + [Stamp(e.c, e.now)])
  {
    if e.Ingest? && WellFormed(e.c) {
      IngestIsLock(o, s, e.c, e.now);
    }
  }

  /** What a request saw of one side, as the buffer gets it. */
  predicate IsExchange(door: Door, c: Capture, path: string, q: Proxy.Request, x: Option<Proxy.Exchange>) {
    x.Some? && c.(at := None) == door.Through(Proxy.CaptureOf(path, q, x.value))
  }

  /** A capture filed by a buffer that only the proxy feeds. */
  lemma FiledIsExchange(cap: nat, proxied: seq<Proxy.Event>, door: Door, o: Options, events: seq<Event>, i: nat)
      returns (k: nat)
    requires o.Valid() && i < |Run(o, events).filed|
    requires Proxy.Run(cap, proxied).n < Proxy.WRAP && FedBy(events, door, Proxy.Run(cap, proxied))
    ensures var p, c := Proxy.Run(cap, proxied), Run(o, events).filed[i];
            && k < |p.trace| && p.trace[k].req < |p.reqs| && SideOf(c) == Proxy.SideOf(p.trace[k])
            && var q := p.reqs[p.trace[k].req];
               && (c.path == PRIMARY ==> IsExchange(door, c, PRIMARY, q, q.Primary()))
               && (c.path == SHADOW ==> IsExchange(door, c, SHADOW, q, q.Shadow()))
  {
    var p, f := Proxy.Run(cap, proxied), Run(o, events).filed[i];
    FiledWasIngested(o, events);
    assert StampOf(f, Ingested(events));
    var c :| c in Ingested(events) && f == c.(at := f.at);
    FedWithoutRepeats(cap, proxied, door, events);
    assert c in Handed(door, p);
    k :| 0 <= k < |p.trace| && Handed(door, p)[k] == c;
    Proxy.TraceIsGiven(cap, proxied, k);
    assert c.at == None;
  }

  /** Both halves of a pair are what the proxy saw of request r: the primary's response to it and
      the shadow's, scrubbed and cut. */
  ghost predicate OfRequest(p: Proxy.Sys, door: Door, pair: Pair, r: nat) {
    && r < |p.reqs| && pair.correlId == Proxy.Id(p.reqs[r].ticket)
    && IsExchange(door, pair.primary, PRIMARY, p.reqs[r], p.reqs[r].Primary())
    && IsExchange(door, pair.shadow, SHADOW, p.reqs[r], p.reqs[r].Shadow())
  }

  /** A half of a pair tells this exchange: side, id, method, URL and status as they were, and of
      bodies and headers what the scrubber makes of them, bodies cut to the limit. */
  predicate Tells(door: Door, half: Capture, path: string, id: string, x: Proxy.Exchange, reqBody: string) {
    && half.path == path && half.correlId == id
    && half.httpMethod == x.httpMethod && half.url == x.url && half.status == x.status
    && Tee.BodyStored(door.scrubber, door.max, reqBody, half.reqBody)
    && Tee.BodyStored(door.scrubber, door.max, x.resBody, half.resBody)
    && Tee.HeadersStored(door.scrubber, x.reqHeaders, half.reqHeaders)
    && Tee.HeadersStored(door.scrubber, x.resHeaders, half.resHeaders)
  }

  lemma ExchangeTells(door: Door, c: Capture, path: string, q: Proxy.Request, x: Option<Proxy.Exchange>)
    requires IsExchange(door, c, path, q, x)
    ensures Tells(door, c, path, Proxy.Id(q.ticket), x.value, if path == "shadow" then q.body else "")
  {
    Tee.StoredIsScrubbed(door.scrubber, door.max, Proxy.CaptureOf(path, q, x.value));
  }

  /** Both halves of every pair are what the proxy saw of one and the same request, and of no
      other. */
  lemma PairIsOneRequest(cap: nat, proxied: seq<Proxy.Event>, door: Door, o: Options, events: seq<Event>, k: nat)
      returns (r: nat)
    requires o.Valid() && k < |Run(o, events).made|
    requires Proxy.Run(cap, proxied).n < Proxy.WRAP && FedBy(events, door, Proxy.Run(cap, proxied))
    ensures var p, pair := Proxy.Run(cap, proxied), Run(o, events).made[k].pair;
            && OfRequest(p, door, pair, r)
            && forall f | f in p.trace && f.capture.correlId == pair.correlId :: f.req == r
    ensures var pair, q := Run(o, events).made[k].pair, Proxy.Run(cap, proxied).reqs[r];
            && q.Primary().Some? && Tells(door, pair.primary, "primary", Proxy.Id(q.ticket), q.Primary().value, "")
            && q.Shadow().Some? && Tells(door, pair.shadow, "shadow", Proxy.Id(q.ticket), q.Shadow().value, q.body)
  {
    var p, s := Proxy.Run(cap, proxied), Run(o, events);
    var pair := s.made[k].pair;
    PairsAreSound(o, events, k);
    var a, b := HalvesFiled(o, events, k);
    var i := FiledIsExchange(cap, proxied, door, o, events, a);
    var j := FiledIsExchange(cap, proxied, door, o, events, b);
    r := p.trace[i].req;
    SameRequest(cap, proxied, i, j);
    forall f | f in p.trace && f.capture.correlId == pair.correlId ensures f.req == r {
      var l :| 0 <= l < |p.trace| && p.trace[l] == f;
      SameRequest(cap, proxied, i, l);
    }
    Proxy.TraceIsGiven(cap, proxied, i);
    ExchangeTells(door, pair.primary, PRIMARY, p.reqs[r], p.reqs[r].Primary());
    ExchangeTells(door, pair.shadow, SHADOW, p.reqs[r], p.reqs[r].Shadow());
  }

  // ----- No request is counted twice -------------------------------------------------------------------------

  /** A buffer that is never fed a side twice never files one twice. */
  lemma {:induction false} FiledSidesApart(o: Options, events: seq<Event>)
    requires o.Valid() && Distinct(Sides(events))
    ensures forall i, j | 0 <= i < j < |Run(o, events).filed| ::
              SideOf(Run(o, events).filed[i]) != SideOf(Run(o, events).filed[j])
  {
    if events == [] {
    } else {
      var init, e := events[..|events| - 1], events[|events| - 1];
      StepFiles(o, Run(o, init), e);
      if e.Ingest? {
        LastSideIsNew(events);
        FiledSidesApart(o, init);
        NoRepeats(o, init);
        NewSideIsApart(Run(o, init).filed, Stamp(e.c, e.now), Sides(init));
      } else {
        assert Sides(events) == Sides(init);
        FiledSidesApart(o, init);
      }
    }
  }

  lemma NewSideIsApart(filed: seq<Capture>, c: Capture, sides: seq<Side>)
    requires forall i | 0 <= i < |filed| :: SideOf(filed[i]) in sides
    requires SideOf(c) !in sides
    requires forall i, j | 0 <= i < j < |filed| :: SideOf(filed[i]) != SideOf(filed[j])
    ensures forall i, j | 0 <= i < j < |filed + [c]| :: SideOf((filed + [c])[i]) != SideOf((filed + [c])[j])
  {}

  lemma PairIdsApart(o: Options, events: seq<Event>, j: nat, k: nat)
    requires o.Valid() && Distinct(Sides(events)) && j < k < |Run(o, events).made|
    ensures Run(o, events).made[j].pair.correlId != Run(o, events).made[k].pair.correlId
  {
    PairsAreSound(o, events, j);
    PairsAreSound(o, events, k);
    var a, _ := HalvesFiled(o, events, j);
    var b, _ := HalvesFiled(o, events, k);
    FiledSidesApart(o, events);
    var filed := Run(o, events).filed;
    assert a != b;
    assert SideOf(filed[a]) != SideOf(filed[b]) by {
      if a < b {} else {}
    }
  }

  /** Two pairs are of two requests. */
  lemma PairsAreOfDifferentRequests(cap: nat, proxied: seq<Proxy.Event>, door: Door, o: Options, events: seq<Event>,
                                    j: nat, k: nat)
      returns (r: nat, t: nat)
    requires o.Valid() && j < k < |Run(o, events).made|
    requires Proxy.Run(cap, proxied).n < Proxy.WRAP && FedBy(events, door, Proxy.Run(cap, proxied))
    ensures OfRequest(Proxy.Run(cap, proxied), door, Run(o, events).made[j].pair, r)
    ensures OfRequest(Proxy.Run(cap, proxied), door, Run(o, events).made[k].pair, t)
    ensures r != t && Run(o, events).made[j].pair.correlId != Run(o, events).made[k].pair.correlId
  {
    FedWithoutRepeats(cap, proxied, door, events);
    PairIdsApart(o, events, j, k);
    r := PairIsOneRequest(cap, proxied, door, o, events, j);
    t := PairIsOneRequest(cap, proxied, door, o, events, k);
  }

  /** Where the two halves were filed. */
  lemma HalvesFiled(o: Options, events: seq<Event>, k: nat) returns (a: nat, b: nat)
    requires o.Valid() && k < |Run(o, events).made|
    ensures var s := Run(o, events);
            && a < |s.filed| && s.filed[a] == s.made[k].pair.primary
            && b < |s.filed| && s.filed[b] == s.made[k].pair.shadow
            && a in {s.made[k].earlier, s.made[k].later}
  {
    PairsAreSound(o, events, k);
    var m := Run(o, events).made[k];
    var filed := Run(o, events).filed;
    assert m.pair.primary in {filed[m.earlier], filed[m.later]};
    assert m.pair.shadow in {filed[m.earlier], filed[m.later]};
    a := if filed[m.earlier] == m.pair.primary then m.earlier else m.later;
    b := if filed[m.earlier] == m.pair.shadow then m.earlier else m.later;
  }

  lemma SameRequest(cap: nat, proxied: seq<Proxy.Event>, i: nat, j: nat)
    requires i < |Proxy.Run(cap, proxied).trace| && j < |Proxy.Run(cap, proxied).trace|
    requires Proxy.Run(cap, proxied).n < Proxy.WRAP
    requires var p := Proxy.Run(cap, proxied); p.trace[i].capture.correlId == p.trace[j].capture.correlId
    ensures var p := Proxy.Run(cap, proxied); p.trace[i].req == p.trace[j].req
  {
    if i < j {
      Proxy.OneCapturePerSide(cap, proxied, i, j);
    } else if j < i {
      Proxy.OneCapturePerSide(cap, proxied, j, i);
    }
  }
}
