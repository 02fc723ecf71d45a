/** Proxy mode: who holds a slot, and which captures a request can leave behind. A run is any
    sequence of events; an event whose turn has not come leaves the state alone. */
module Proxy {
  import opened Text
  import Collector

  /** What one side saw of a request, and its response. */
  datatype Exchange = Exchange(
    httpMethod: string,
    url: string,
    reqHeaders: map<string, seq<string>>,
    status: int,
    resHeaders: map<string, seq<string>>,
    resBody: string)

  /** Where the goroutine that serves a request stands. */
  datatype Front =
    | Admitted                   // holds a slot, has no number yet
    | Reading                    // has its number and reads the request body
    | Bailed                     // gave the slot back: the body is too large or unreadable
    | Refused                    // found no slot
    | Forwarding                 // started the shadow, waits for the primary
    | Streaming(head: Exchange)  // the primary's response runs through the tee
    | Closed(seen: Exchange)     // the primary's capture has been handed over
    | Plain                      // no longer mirrored, or never was

  /** Where its shadow goroutine stands, and what the shadow answered if it did. */
  datatype Back =
    | NotStarted
    | Asking
    | Leaving(answer: Option<Exchange>)
    | Gone(answer: Option<Exchange>)

  /** One request: whether it was to be mirrored, the number it drew if it got that far, and the
      body it was mirrored with. */
  datatype Request = Request(mirrored: bool, front: Front, back: Back, ticket: nat, body: string)
  {
    /** What has been handed over of each side. */
    function Primary(): Option<Exchange> {
      if front.Closed? then Some(front.seen) else None
    }

    function Shadow(): Option<Exchange> {
      if back.Leaving? || back.Gone? then back.answer else None
    }
  }

  /** A capture handed over, and the request it belongs to. */
  datatype Filed = Filed(req: nat, capture: Collector.Capture)

  datatype Sys = Sys(
    used: nat,                 // the length of the slot channel
    n: nat,                    // how many numbers have been drawn
    skipped: nat,
    reqs: seq<Request>,
    trace: seq<Filed>)

  datatype Event =
    | Arrive(mirrored: bool)   // kill switch, method and sampling decide, then a slot is tried for
    | Draw(r: nat)
    | BodyRead(r: nat, body: string)   // the body is replayed and the shadow goroutine starts
    | BodyRefused(r: nat)
    | CountSkip(r: nat)
    | PrimaryAnswers(r: nat, head: Exchange)
    | PrimaryFails(r: nat)
    | Close(r: nat, kept: string)   // with what the tee has kept of the body
    | ShadowAnswers(r: nat, x: Exchange)
    | ShadowFails(r: nat)
    | Release(r: nat)

  const START := Sys(0, 0, 0, [], [])

  const WRAP: nat := 0x1_0000_0000_0000_0000

  /** The correlation id: the counter is 64 bits wide and written in base 36. */
  function Id(ticket: nat): (id: string)
    ensures id != ""
  {
    Format(ticket % WRAP, 36)
  }

  // ----- Steps --------------------------------------------------------------------------------------

  function Put(s: Sys, r: nat, q: Request): Sys
    requires r < |s.reqs|
  {
    s.(reqs := s.reqs[r := q])
  }

  /** A capture of one side. Only the shadow's bears the request's body. */
  function CaptureOf(path: string, q: Request, x: Exchange): Collector.Capture {
    Collector.Capture(path, Id(q.ticket), x.httpMethod, x.url, x.reqHeaders,
                      if path == Collector.SHADOW then q.body else "",
                      x.status, x.resHeaders, x.resBody, None)
  }

  /** Hand over a capture of request r. */
  function HandOver(s: Sys, r: nat, path: string, x: Exchange): Sys
    requires r < |s.reqs|
  {
    s.(trace := s.trace + [Filed(r, CaptureOf(path, s.reqs[r], x))])
  }

  /** Receive from the slot channel. On an empty channel this would block for ever. */
  function GiveBack(s: Sys, r: nat, q: Request): Sys
    requires r < |s.reqs|
  {
    if s.used == 0 then s else Put(s, r, q).(used := s.used - 1)
  }

  /** How a request starts out. */
  function Newcomer(cap: nat, s: Sys, mirrored: bool): Request {
    Request(mirrored, if !mirrored then Plain else if s.used < cap then Admitted else Refused, NotStarted, 0, "")
  }

  function Admit(cap: nat, s: Sys, mirrored: bool): Sys {
    s.(used := if mirrored && s.used < cap then s.used + 1 else s.used,
       reqs := s.reqs + [Newcomer(cap, s, mirrored)])
  }

  /** What request r does next, told by the event. */
  function Act(s: Sys, e: Event, r: nat): Sys
    requires r < |s.reqs|
  {
    var q := s.reqs[r];
    match e
    case Arrive(_) => s
    case Draw(_) =>
      if q.front.Admitted? then Put(s, r, q.(front := Reading, ticket := s.n + 1)).(n := s.n + 1) else s
    case BodyRead(_, body) =>
      if q.front.Reading? then Put(s, r, q.(front := Forwarding, back := Asking, body := body)) else s
    case BodyRefused(_) =>
      if q.front.Reading? then GiveBack(s, r, q.(front := Bailed)) else s
    case CountSkip(_) =>
      if q.front.Bailed? || q.front.Refused? then Put(s, r, q.(front := Plain)).(skipped := s.skipped + 1) else s
    case PrimaryAnswers(_, head) =>
      if q.front.Forwarding? then Put(s, r, q.(front := Streaming(head))) else s
    case PrimaryFails(_) =>
      if q.front.Forwarding? then Put(s, r, q.(front := Plain)) else s
    case Close(_, kept) =>
      if !q.front.Streaming? then s
      else
        var seen := q.front.head.(resBody := kept);
        HandOver(Put(s, r, q.(front := Closed(seen))), r, Collector.PRIMARY, seen)
    case ShadowAnswers(_, x) =>
      if !q.back.Asking? then s
      else HandOver(Put(s, r, q.(back := Leaving(Some(x)))), r, Collector.SHADOW, x)
    case ShadowFails(_) =>
      if q.back.Asking? then Put(s, r, q.(back := Leaving(None))) else s
    case Release(_) =>
      if q.back.Leaving? then GiveBack(s, r, q.(back := Gone(q.back.answer))) else s
  }

  function Step(cap: nat, s: Sys, e: Event): Sys {
    match e
    case Arrive(mirrored) => Admit(cap, s, mirrored)
    case _ => if e.r < |s.reqs| then Act(s, e, e.r) else s
  }

  function Run(cap: nat, events: seq<Event>): Sys {
    if events == [] then START
    else Step(cap, Run(cap, events[..|events| - 1]), events[|events| - 1])
  }

  // ----- Slots ----------------------------------------------------------------------------------------

  /** A request holds a slot until it starts its shadow or bails; from then on its shadow does. */
  predicate ReadingBody(q: Request) {
    q.front.Admitted? || q.front.Reading?
  }

  predicate ShadowLives(q: Request) {
    q.back.Asking? || q.back.Leaving?
  }

  function Count(f: Request -> bool, reqs: seq<Request>): (n: nat)
    ensures n <= |reqs|
  {
    if reqs == [] then 0 else Count(f, reqs[..|reqs| - 1]) + if f(reqs[|reqs| - 1]) then 1 else 0
  }

  lemma {:induction false} CountPut(f: Request -> bool, reqs: seq<Request>, r: nat, q: Request)
    requires r < |reqs|
    ensures Count(f, reqs[r := q]) == Count(f, reqs) - (if f(reqs[r]) then 1 else 0) + (if f(q) then 1 else 0)
    decreases |reqs|
  {
    var n := |reqs| - 1;
    if r == n {
      assert reqs[r := q][..n] == reqs[..n];
    } else {
      CountPut(f, reqs[..n], r, q);
      assert reqs[r := q][..n] == reqs[..n][r := q];
    }
  }

  lemma CountAppend(f: Request -> bool, reqs: seq<Request>, q: Request)
    ensures Count(f, reqs + [q]) == Count(f, reqs) + if f(q) then 1 else 0
  {
    assert (reqs + [q])[..|reqs|] == reqs;
  }

  lemma {:induction false} CountSome(f: Request -> bool, reqs: seq<Request>, r: nat)
    requires r < |reqs| && f(reqs[r])
    ensures Count(f, reqs) > 0
  {
    if r == |reqs| - 1 {
    } else {
      CountSome(f, reqs[..|reqs| - 1], r);
    }
  }

  predicate Skipping(q: Request) {
    q.front.Bailed? || q.front.Refused?
  }

  predicate ShadowStarted(q: Request) {
    !q.back.NotStarted?
  }

  /** It was to be mirrored, and runs on without a shadow. */
  predicate GivenUp(q: Request) {
    q.mirrored && q.front.Plain? && !ShadowStarted(q)
  }

  ghost predicate SlotInv(cap: nat, s: Sys) {
    && s.used == Count(ReadingBody, s.reqs) + Count(ShadowLives, s.reqs)
    && s.used <= cap
    && StartsInOrder(s)
  }

  /** The shadow starts when the request is forwarded, not before. */
  ghost predicate StartsInOrder(s: Sys) {
    forall r | 0 <= r < |s.reqs| ::
      && (ReadingBody(s.reqs[r]) || Skipping(s.reqs[r]) ==> s.reqs[r].back.NotStarted?)
      && (s.reqs[r].front.Forwarding? || s.reqs[r].front.Streaming? ==> ShadowStarted(s.reqs[r]))
  }

  /** A shadow belongs to a request that was to be mirrored, and the skipped are counted. */
  ghost predicate SkipInv(s: Sys) {
    && s.skipped == Count(GivenUp, s.reqs)
    && forall r | 0 <= r < |s.reqs| :: s.reqs[r].mirrored || (s.reqs[r].front.Plain? && s.reqs[r].back.NotStarted?)
  }

  lemma ActStartsInOrder(s: Sys, e: Event, r: nat)
    requires StartsInOrder(s) && r < |s.reqs|
    ensures StartsInOrder(Act(s, e, r))
  {}

  lemma ActKeepsUsed(cap: nat, s: Sys, e: Event, r: nat)
    requires SlotInv(cap, s) && r < |s.reqs|
    ensures var q, t := s.reqs[r], Act(s, e, r);
            && t.reqs == s.reqs[r := t.reqs[r]]
            && t.used == s.used + HeldBy(t.reqs[r]) - HeldBy(q)
            && t.used <= s.used
  {
    var q := s.reqs[r];
    if ReadingBody(q) { CountSome(ReadingBody, s.reqs, r); }
    if ShadowLives(q) { CountSome(ShadowLives, s.reqs, r); }
  }

  /** How many slots a request holds, itself or through its shadow. */
  function HeldBy(q: Request): nat {
    (if ReadingBody(q) then 1 else 0) + (if ShadowLives(q) then 1 else 0)
  }

  lemma ActKeepsSlots(cap: nat, s: Sys, e: Event, r: nat)
    requires SlotInv(cap, s) && r < |s.reqs|
    ensures SlotInv(cap, Act(s, e, r))
  {
    ActStartsInOrder(s, e, r);
    ActKeepsUsed(cap, s, e, r);
    CountPut(ReadingBody, s.reqs, r, Act(s, e, r).reqs[r]);
    CountPut(ShadowLives, s.reqs, r, Act(s, e, r).reqs[r]);
  }

  lemma ActKeepsSkips(cap: nat, s: Sys, e: Event, r: nat)
    requires SlotInv(cap, s) && SkipInv(s) && r < |s.reqs|
    ensures SkipInv(Act(s, e, r))
  {
    var t := Act(s, e, r);
    CountPut(GivenUp, s.reqs, r, t.reqs[r]);
    assert t.reqs == s.reqs[r := t.reqs[r]];
  }

  lemma AdmitKeepsSlots(cap: nat, s: Sys, mirrored: bool)
    requires SlotInv(cap, s)
    ensures SlotInv(cap, Admit(cap, s, mirrored))
  {
    var q := Newcomer(cap, s, mirrored);
    CountAppend(ReadingBody, s.reqs, q);
    CountAppend(ShadowLives, s.reqs, q);
    AppendStartsInOrder(s, Admit(cap, s, mirrored), q);
  }

  lemma AppendStartsInOrder(s: Sys, t: Sys, q: Request)
    requires StartsInOrder(s) && t.reqs == s.reqs + [q]
    requires q.back.NotStarted? && !q.front.Forwarding? && !q.front.Streaming?
    ensures StartsInOrder(t)
  {}

  lemma AdmitKeepsSkips(cap: nat, s: Sys, mirrored: bool)
    requires SkipInv(s)
    ensures SkipInv(Admit(cap, s, mirrored))
  {
    CountAppend(GivenUp, s.reqs, Newcomer(cap, s, mirrored));
  }

  lemma {:induction false} RunKeepsSlots(cap: nat, events: seq<Event>)
    ensures SlotInv(cap, Run(cap, events)) && SkipInv(Run(cap, events))
  {
    if events == [] {
    } else {
      var s, e := Run(cap, events[..|events| - 1]), events[|events| - 1];
      RunKeepsSlots(cap, events[..|events| - 1]);
      if e.Arrive? {
        AdmitKeepsSlots(cap, s, e.mirrored);
        AdmitKeepsSkips(cap, s, e.mirrored);
      } else if e.r < |s.reqs| {
        ActKeepsSlots(cap, s, e, e.r);
        ActKeepsSkips(cap, s, e, e.r);
      }
    }
  }

  /** In every interleaving the slots in use are the requests still reading their body plus the
      live shadow goroutines, never more than the limit; whoever is about to give a slot back
      finds one there, so no release blocks; and `skipped` counts exactly the requests that were
      to be mirrored but run on without a shadow. */
  lemma SlotsAreHeld(cap: nat, events: seq<Event>, r: nat)
    ensures var s := Run(cap, events);
            s.used == Count(ReadingBody, s.reqs) + Count(ShadowLives, s.reqs) <= cap
    ensures var s := Run(cap, events);
            r < |s.reqs| && (s.reqs[r].front.Reading? || s.reqs[r].back.Leaving?) ==> s.used > 0
    ensures var s := Run(cap, events);
            s.skipped == Count(GivenUp, s.reqs)
  {
    RunKeepsSlots(cap, events);
    var s := Run(cap, events);
    if r < |s.reqs| && s.reqs[r].front.Reading? { CountSome(ReadingBody, s.reqs, r); }
    if r < |s.reqs| && s.reqs[r].back.Leaving? { CountSome(ShadowLives, s.reqs, r); }
  }

  // ----- Captures ----------------------------------------------------------------------------------------

  /** Numbers are drawn once each. */
  ghost predicate TicketsApart(s: Sys) {
    && (forall r | 0 <= r < |s.reqs| :: s.reqs[r].ticket <= s.n)
    && (forall r, t | 0 <= r < t < |s.reqs| && s.reqs[r].ticket == s.reqs[t].ticket :: s.reqs[r].ticket == 0)
  }

  /** A request that reads its body, or got further, has a number; it starts its shadow after. */
  ghost predicate Numbered(q: Request) {
    && (q.front.Reading? || q.front.Forwarding? || q.front.Streaming? || q.front.Closed? || ShadowStarted(q) ==>
          q.ticket > 0)
    && (ReadingBody(q) ==> q.back.NotStarted?)
  }

  /** A capture in the trace is one its request has handed over, of one side or the other. */
  ghost predicate Given(s: Sys, f: Filed) {
    && f.req < |s.reqs| && s.reqs[f.req].ticket > 0
    && GivenBy(s.reqs[f.req], f.capture)
  }

  predicate GivenBy(q: Request, c: Collector.Capture) {
    || (q.Primary().Some? && c == CaptureOf(Collector.PRIMARY, q, q.Primary().value))
    || (q.Shadow().Some? && c == CaptureOf(Collector.SHADOW, q, q.Shadow().value))
  }

  ghost predicate TraceInv(s: Sys) {
    && TicketsApart(s)
    && (forall r | 0 <= r < |s.reqs| :: Numbered(s.reqs[r]))
    && (forall i | 0 <= i < |s.trace| :: Given(s, s.trace[i]))
    && (forall i, j | 0 <= i < j < |s.trace| ::
          s.trace[i].req != s.trace[j].req || s.trace[i].capture.path != s.trace[j].capture.path)
  }

  /** The request stands by what it has handed over. */
  predicate StandsBy(q: Request, before: Request) {
    && q.ticket == before.ticket
    && (before.Primary().Some? ==> q.Primary() == before.Primary())
    && (before.Shadow().Some? ==> q.Shadow() == before.Shadow() && q.body == before.body)
  }

  /** Moves that hand nothing over and take nothing back. */
  lemma QuietMove(s: Sys, r: nat, q: Request, t: Sys)
    requires TraceInv(s) && r < |s.reqs|
    requires t.reqs == s.reqs[r := q] && t.trace == s.trace && t.n == s.n
    requires Numbered(q) && StandsBy(q, s.reqs[r])
    ensures TraceInv(t)
  {
    forall i | 0 <= i < |t.trace| ensures Given(t, t.trace[i]) { assert Given(s, s.trace[i]); }
  }

  lemma HandOverKeepsTrace(s: Sys, r: nat, q: Request, path: string, x: Exchange)
    requires TraceInv(s) && r < |s.reqs|
    requires Numbered(q) && StandsBy(q, s.reqs[r]) && q.ticket > 0
    requires path == Collector.PRIMARY ==> s.reqs[r].Primary().None? && q.Primary() == Some(x)
    requires path == Collector.SHADOW ==> s.reqs[r].Shadow().None? && q.Shadow() == Some(x)
    requires path in {Collector.PRIMARY, Collector.SHADOW}
    ensures TraceInv(HandOver(Put(s, r, q), r, path, x))
  {
    var mid := Put(s, r, q);
    QuietMove(s, r, q, mid);
    var t := HandOver(mid, r, path, x);
    forall i | 0 <= i < |t.trace| ensures Given(t, t.trace[i]) {
      if i < |s.trace| { assert Given(mid, s.trace[i]); }
    }
    forall i | 0 <= i < |s.trace| ensures s.trace[i].req != r || s.trace[i].capture.path != path {
      assert Given(s, s.trace[i]);
    }
  }

  lemma DrawKeepsTrace(s: Sys, r: nat)
    requires TraceInv(s) && r < |s.reqs| && s.reqs[r].front.Admitted? && s.reqs[r].ticket == 0
    ensures TraceInv(Act(s, Draw(r), r))
  {
    var t := Act(s, Draw(r), r);
    forall i | 0 <= i < |t.trace| ensures Given(t, t.trace[i]) { assert Given(s, s.trace[i]); }
  }

  lemma ActKeepsTrace(s: Sys, e: Event, r: nat)
    requires TraceInv(s) && r < |s.reqs|
    requires s.reqs[r].front.Admitted? ==> s.reqs[r].ticket == 0
    ensures TraceInv(Act(s, e, r))
  {
    var q, t := s.reqs[r], Act(s, e, r);
    assert Numbered(q);
    if e.Draw? && q.front.Admitted? {
      DrawKeepsTrace(s, r);
    } else if e.Close? && q.front.Streaming? {
      var seen := q.front.head.(resBody := e.kept);
      HandOverKeepsTrace(s, r, q.(front := Closed(seen)), Collector.PRIMARY, seen);
    } else if e.ShadowAnswers? && q.back.Asking? {
      HandOverKeepsTrace(s, r, q.(back := Leaving(Some(e.x))), Collector.SHADOW, e.x);
    } else if t != s {
      QuietMove(s, r, t.reqs[r], t);
    }
  }

  /** Before it draws a number a request has none. */
  ghost predicate Undrawn(s: Sys) {
    forall r | 0 <= r < |s.reqs| :: s.reqs[r].front.Admitted? ==> s.reqs[r].ticket == 0
  }

  lemma AdmitKeepsTrace(cap: nat, s: Sys, mirrored: bool)
    requires TraceInv(s)
    ensures TraceInv(Admit(cap, s, mirrored))
  {
    var t := Admit(cap, s, mirrored);
    forall i | 0 <= i < |t.trace| ensures Given(t, t.trace[i]) { assert Given(s, s.trace[i]); }
  }

  lemma StepKeepsTrace(cap: nat, s: Sys, e: Event)
    requires TraceInv(s) && Undrawn(s)
    ensures TraceInv(Step(cap, s, e)) && Undrawn(Step(cap, s, e))
  {
    if e.Arrive? {
      AdmitKeepsTrace(cap, s, e.mirrored);
    } else if e.r < |s.reqs| {
      ActKeepsTrace(s, e, e.r);
    }
  }

  lemma {:induction false} RunKeepsTrace(cap: nat, events: seq<Event>)
    ensures TraceInv(Run(cap, events)) && Undrawn(Run(cap, events))
  {
    if events == [] {
    } else {
      RunKeepsTrace(cap, events[..|events| - 1]);
      StepKeepsTrace(cap, Run(cap, events[..|events| - 1]), events[|events| - 1]);
    }
  }

  /** Two numbers share an id exactly when the 64-bit counter makes them the same. */
  lemma IdsClash(t: nat, u: nat)
    ensures Id(t) == Id(u) <==> t % WRAP == u % WRAP
  {
    if Id(t) == Id(u) { FormatInjective(t % WRAP, u % WRAP, 36); }
  }

  /** The id is the number, as a 64-bit counter has it, written in base 36. */
  lemma IdSpells(t: nat, k: nat)
    requires k < |Id(t)|
    ensures Id(t)[|Id(t)| - 1 - k] == DIGITS[DigitAt(t % 0x1_0000_0000_0000_0000, 36, k)]
    ensures t % 0x1_0000_0000_0000_0000 > 0 ==> Id(t)[0] != '0'
  {
    FormatDigits(t % WRAP, 36, k);
    FormatValue(t % WRAP, 36);
  }

  /** The side and the correlation id of a capture. */
  function SideOf(f: Filed): (string, string) {
    (f.capture.path, f.capture.correlId)
  }

  lemma TraceApart(s: Sys, i: nat, j: nat)
    requires TraceInv(s) && i < j < |s.trace|
    ensures var f, g := s.trace[i], s.trace[j];
            && (f.req != g.req || f.capture.path != g.capture.path) && f.req < |s.reqs| && g.req < |s.reqs|
            && s.reqs[f.req].ticket <= s.n && s.reqs[g.req].ticket <= s.n
            && f.capture.correlId == Id(s.reqs[f.req].ticket) && g.capture.correlId == Id(s.reqs[g.req].ticket)
            && (s.reqs[f.req].ticket == s.reqs[g.req].ticket <==> f.req == g.req)
  {
    assert Given(s, s.trace[i]) && Given(s, s.trace[j]);
  }

  /** In every run a capture in the trace is what its request saw of one side, under the id that
      request drew. */
  lemma TraceIsGiven(cap: nat, events: seq<Event>, i: nat)
    requires i < |Run(cap, events).trace|
    ensures var s := Run(cap, events);
            s.trace[i].req < |s.reqs| && GivenBy(s.reqs[s.trace[i].req], s.trace[i].capture)
  {
    RunKeepsTrace(cap, events);
    assert Given(Run(cap, events), Run(cap, events).trace[i]);
  }

  /** In every interleaving that draws fewer than 2^64 numbers, no two captures have the same
      side and id, and captures with the same id belong to the same request. */
  lemma OneCapturePerSide(cap: nat, events: seq<Event>, i: nat, j: nat)
    requires i < j < |Run(cap, events).trace| && Run(cap, events).n < WRAP
    ensures var f, g := Run(cap, events).trace[i], Run(cap, events).trace[j];
            SideOf(f) != SideOf(g) && (f.capture.correlId == g.capture.correlId <==> f.req == g.req)
  {
    RunKeepsTrace(cap, events);
    SidesApart(Run(cap, events), i, j);
  }

  lemma SidesApart(s: Sys, i: nat, j: nat)
    requires TraceInv(s) && i < j < |s.trace| && s.n < WRAP
    ensures SideOf(s.trace[i]) != SideOf(s.trace[j])
    ensures s.trace[i].capture.correlId == s.trace[j].capture.correlId <==> s.trace[i].req == s.trace[j].req
  {
    TraceApart(s, i, j);
    SmallIdsApart(s.reqs[s.trace[i].req].ticket, s.reqs[s.trace[j].req].ticket);
  }

  lemma SmallIdsApart(t: nat, u: nat)
    requires t < WRAP && u < WRAP
    ensures Id(t) == Id(u) <==> t == u
  {
    IdsClash(t, u);
  }
}
