/** The correlating buffer: what one locked section does, and the class that does it in place. */
module Collector {
  import opened Text
  import opened Sorting

  const PRIMARY := "primary"
  const SHADOW := "shadow"

  /** One response observed on one side. `at` is None until it has been stamped. */
  datatype Capture = Capture(
    path: string,
    correlId: string,
    httpMethod: string,
    url: string,
    reqHeaders: map<string, seq<string>>,
    reqBody: string,
    status: int,
    resHeaders: map<string, seq<string>>,
    resBody: string,
    at: Option<int>)

  datatype Pair = Pair(correlId: string, primary: Capture, shadow: Capture)

  datatype Pending = Pending(capture: Capture, at: int)

  datatype Stats = Stats(received: int, paired: int, expired: int, dropped: int, discarded: int)

  /** Time is counted in nanoseconds. */
  datatype Options = Options(timeout: int, maxPending: int, backlog: int)
  {
    predicate Valid() {
      timeout > 0 && maxPending > 0 && backlog > 0
    }

    function WithDefaults(): (o: Options)
      ensures o.Valid()
      ensures timeout > 0 ==> o.timeout == timeout
      ensures maxPending > 0 ==> o.maxPending == maxPending
      ensures backlog > 0 ==> o.backlog == backlog
      ensures timeout <= 0 ==> o.timeout == 30 * 1_000_000_000
      ensures maxPending <= 0 ==> o.maxPending == 10_000
      ensures backlog <= 0 ==> o.backlog == 256
    {
      Options(
        if timeout <= 0 then 30_000_000_000 else timeout,
        if maxPending <= 0 then 10_000 else maxPending,
        if backlog <= 0 then 256 else backlog)
    }
  }

  /** What the lock protects. */
  datatype State = State(pending: map<string, Pending>, order: seq<string>, stats: Stats)

  const EMPTY := State(map[], [], Stats(0, 0, 0, 0, 0))

  predicate WellFormed(c: Capture) {
    c.correlId != "" && (c.path == PRIMARY || c.path == SHADOW)
  }

  /** `order` lists exactly the pending ids, each once, and every entry is filed under
      its own id. ListedMeans spells this out. */
  ghost predicate Listed(order: seq<string>, pending: map<string, Pending>) {
    if order == [] then pending == map[]
    else
      && order[0] in pending
      && FiledUnder(order[0], pending[order[0]])
      && Listed(order[1..], pending - {order[0]})
  }

  predicate FiledUnder(id: string, p: Pending) {
    p.capture.correlId == id && WellFormed(p.capture)
  }

  ghost predicate Valid(o: Options, s: State) {
    Listed(s.order, s.pending) && |s.pending| <= o.maxPending
  }

  lemma {:induction false} ListedMeans(order: seq<string>, pending: map<string, Pending>)
    requires Listed(order, pending)
    ensures Distinct(order) && |order| == |pending|
    ensures forall id :: id in order <==> id in pending
    ensures forall id | id in pending :: FiledUnder(id, pending[id])
  {
    if order == [] {
    } else {
      MapMinus(pending, order[0]);
      ListedMeans(order[1..], pending - {order[0]});
      assert order == [order[0]] + order[1..];
    }
  }

  /** The captures held in the buffer. */
  ghost function Waiting(order: seq<string>, pending: map<string, Pending>): (w: multiset<Capture>)
    requires Listed(order, pending)
    ensures |w| == |order|
  {
    if order == [] then multiset{}
    else multiset{pending[order[0]].capture} + Waiting(order[1..], pending - {order[0]})
  }

  lemma MapMinus<V>(m: map<string, V>, id: string)
    requires id in m
    ensures (m - {id}).Keys == m.Keys - {id}
    ensures |m - {id}| == |m| - 1
  {
    assert (m - {id}).Keys == m.Keys - {id};
    assert |m - {id}| == |(m - {id}).Keys| && |m| == |m.Keys|;
  }

  lemma MapPlus<V>(m: map<string, V>, id: string, v: V)
    ensures |m[id := v]| == |m| + if id in m then 0 else 1
  {
    assert m[id := v].Keys == m.Keys + {id};
    assert |m[id := v]| == |m[id := v].Keys| && |m| == |m.Keys|;
  }

  // ----- The pieces of a locked section ----------------------------------------------------

  /** The ids that are still live, in their order. */
  function Keep(order: seq<string>, live: set<string>): (kept: seq<string>)
    ensures |kept| <= |order|
  {
    if order == [] then []
    else (if order[0] in live then [order[0]] else []) + Keep(order[1..], live)
  }

  /** The scan of `expire`: it skips ids no longer pending and stops at the first fresh one. */
  function Scan(order: seq<string>, pending: map<string, Pending>, cutoff: int): (rest: map<string, Pending>)
    ensures rest.Keys <= pending.Keys
    ensures |rest| <= |pending|
  {
    if order == [] then pending
    else if order[0] !in pending then Scan(order[1..], pending, cutoff)
    else if pending[order[0]].at > cutoff then pending
    else
      var fewer := pending - {order[0]};
      MapMinus(pending, order[0]);
      Scan(order[1..], fewer, cutoff)
  }

  function Expire(o: Options, s: State, now: int): State {
    var rest := Scan(s.order, s.pending, now - o.timeout);
    var expired := |s.pending| - |rest|;
    if expired == 0 then s
    else State(rest, Keep(s.order, rest.Keys), s.stats.(expired := s.stats.expired + expired))
  }

  function FirstLive(order: seq<string>, live: set<string>): Option<string> {
    if order == [] then None
    else if order[0] in live then Some(order[0])
    else FirstLive(order[1..], live)
  }

  function Remove(s: State, id: string): State {
    var rest := s.pending - {id};
    s.(pending := rest, order := Keep(s.order, rest.Keys))
  }

  function EvictOldest(s: State): State {
    match FirstLive(s.order, s.pending.Keys)
    case None => s
    case Some(id) => Remove(s, id).(stats := s.stats.(dropped := s.stats.dropped + 1))
  }

  function Stamp(c: Capture, now: int): Capture {
    if c.at.None? then c.(at := Some(now)) else c
  }

  function MakePair(c: Capture, held: Capture): Pair {
    if c.path == PRIMARY then Pair(c.correlId, c, held) else Pair(c.correlId, held, c)
  }

  /** The same side again: the newer capture replaces the held one, in its place. */
  function Refresh(s: State, c: Capture, now: int): State {
    s.(pending := s.pending[c.correlId := Pending(c, now)])
  }

  /** The other side: both halves leave the buffer. */
  function Complete(s: State, id: string): State {
    var left := Remove(s, id);
    left.(stats := left.stats.(paired := left.stats.paired + 1))
  }

  /** A new id: it waits at the end of the list, if need be in place of the oldest. */
  function Hold(o: Options, s: State, c: Capture, now: int): State {
    var roomy := if |s.pending| >= o.maxPending then EvictOldest(s) else s;
    roomy.(pending := roomy.pending[c.correlId := Pending(c, now)], order := roomy.order + [c.correlId])
  }

  function Arrive(s: State): State {
    s.(stats := s.stats.(received := s.stats.received + 1))
  }

  function Discard(s: State): State {
    s.(stats := s.stats.(discarded := s.stats.discarded + 1))
  }

  /** The locked section of Ingest: the new state, and the pair it completed if any. */
  function Lock(o: Options, s: State, c: Capture, now: int): (State, Option<Pair>) {
    if !WellFormed(c) then (Discard(Arrive(s)), None)
    else
      FileLocked(o, Expire(o, Arrive(s), now), Stamp(c, now), now)
  }

  /** After expiry: file a stamped capture. */
  function FileLocked(o: Options, s: State, c: Capture, now: int): (State, Option<Pair>) {
    if c.correlId in s.pending then
      var held := s.pending[c.correlId].capture;
      if held.path == c.path then (Refresh(s, c, now), None)
      else (Complete(s, c.correlId), Some(MakePair(c, held)))
    else (Hold(o, s, c, now), None)
  }

  /** The second locked section, taken only when the backlog was full. */
  function Relock(s: State): State {
    s.(stats := s.stats.(dropped := s.stats.dropped + 1, paired := s.stats.paired - 1))
  }

  // ----- What the pieces amount to in a valid state ------------------------------------------

  lemma {:induction false} KeepConcat(a: seq<string>, b: seq<string>, live: set<string>)
    ensures Keep(a + b, live) == Keep(a, live) + Keep(b, live)
  {
    if a == [] {
      assert a + b == b;
    } else {
      assert (a + b)[1..] == a[1..] + b;
      KeepConcat(a[1..], b, live);
      Associative(if a[0] in live then [a[0]] else [], Keep(a[1..], live), Keep(b, live));
    }
  }

  /** One more id. */
  lemma KeepNext(order: seq<string>, i: nat, live: set<string>)
    requires i < |order|
    ensures Keep(order[..i + 1], live) == Keep(order[..i], live) + if order[i] in live then [order[i]] else []
  {
    var id := order[i];
    assert order[..i + 1] == order[..i] + [id];
    KeepConcat(order[..i], [id], live);
    assert [id][1..] == [];
  }

  /** Compaction is a filter: it keeps the order of the survivors. */
  lemma {:induction false} KeepSuffix(order: seq<string>, n: nat, live: set<string>)
    requires n <= |order|
    requires forall i | 0 <= i < |order| :: order[i] in live <==> i >= n
    ensures Keep(order, live) == order[n..]
  {
    if order == [] {
    } else {
      KeepSuffix(order[1..], if n == 0 then 0 else n - 1, live);
    }
  }

  lemma {:induction false} KeepAllBut(order: seq<string>, k: nat, live: set<string>)
    requires k < |order|
    requires forall i | 0 <= i < |order| :: order[i] in live <==> i != k
    ensures Keep(order, live) == order[..k] + order[k + 1..]
  {
    if k == 0 {
      KeepSuffix(order, 1, live);
    } else {
      KeepAllBut(order[1..], k - 1, live);
    }
  }

  /** How many ids at the head of the list are at least Timeout old. */
  function StalePrefix(order: seq<string>, pending: map<string, Pending>, cutoff: int): (n: nat)
    ensures n <= |order|
  {
    if order == [] || order[0] !in pending || pending[order[0]].at > cutoff then 0
    else 1 + StalePrefix(order[1..], pending, cutoff)
  }

  lemma {:induction false} StalePrefixIsMaximal(order: seq<string>, pending: map<string, Pending>, cutoff: int)
    ensures var n := StalePrefix(order, pending, cutoff);
            && (forall i | 0 <= i < n :: order[i] in pending && pending[order[i]].at <= cutoff)
            && (n < |order| && order[n] in pending ==> pending[order[n]].at > cutoff)
  {
    if order == [] {
    } else {
      StalePrefixIsMaximal(order[1..], pending, cutoff);
    }
  }

  lemma {:induction false} StalePrefixFrame(order: seq<string>, pending: map<string, Pending>, id: string, cutoff: int)
    requires id !in order
    ensures StalePrefix(order, pending - {id}, cutoff) == StalePrefix(order, pending, cutoff)
  {
    if order == [] {
    } else {
      StalePrefixFrame(order[1..], pending, id, cutoff);
    }
  }

  lemma HeadIsListedOnce(order: seq<string>, pending: map<string, Pending>)
    requires Listed(order, pending) && order != []
    ensures order[0] !in order[1..]
  {
    ListedMeans(order[1..], pending - {order[0]});
  }

  lemma StalePrefixStep(order: seq<string>, pending: map<string, Pending>, cutoff: int)
    requires Listed(order, pending) && order != [] && pending[order[0]].at <= cutoff
    ensures StalePrefix(order, pending, cutoff) == 1 + StalePrefix(order[1..], pending - {order[0]}, cutoff)
    ensures Scan(order, pending, cutoff) == Scan(order[1..], pending - {order[0]}, cutoff)
  {
    HeadIsListedOnce(order, pending);
    StalePrefixFrame(order[1..], pending, order[0], cutoff);
  }

  /** The state with its n oldest entries expired. */
  ghost function DropHeads(s: State, n: nat): (t: State)
    requires n <= |s.order|
    ensures t.order == s.order[n..]
    ensures t.stats == s.stats.(expired := s.stats.expired + n)
    decreases n
  {
    if n == 0 then s else DropHeads(DropHead(s), n - 1)
  }

  ghost function DropHead(s: State): State
    requires s.order != []
  {
    State(s.pending - {s.order[0]}, s.order[1..], s.stats.(expired := s.stats.expired + 1))
  }

  lemma {:induction false} DropHeadsListed(s: State, n: nat)
    requires Listed(s.order, s.pending) && n <= |s.order|
    ensures Listed(s.order[n..], DropHeads(s, n).pending)
    ensures |DropHeads(s, n).pending| == |s.pending| - n
    decreases n
  {
    if n == 0 {
    } else {
      MapMinus(s.pending, s.order[0]);
      DropHeadsListed(DropHead(s), n - 1);
    }
  }

  /** The captures of the n oldest entries. */
  ghost function Heads(s: State, n: nat): (w: multiset<Capture>)
    requires Listed(s.order, s.pending) && n <= |s.order|
    ensures |w| == n
    decreases n
  {
    if n == 0 then multiset{} else multiset{s.pending[s.order[0]].capture} + Heads(DropHead(s), n - 1)
  }

  ghost function Holds(s: State): (w: multiset<Capture>)
    requires Listed(s.order, s.pending)
    ensures |w| == |s.order|
  {
    Waiting(s.order, s.pending)
  }

  lemma {:induction false} HoldsDrop(s: State, n: nat)
    requires Listed(s.order, s.pending) && n <= |s.order|
    ensures var t := DropHeads(s, n); Listed(t.order, t.pending) && Holds(s) == Heads(s, n) + Holds(t)
    decreases n
  {
    DropHeadsListed(s, n);
    if n == 0 {
    } else {
      HoldsDrop(DropHead(s), n - 1);
      HoldsHead(s);
      HeadsHead(s, n);
    }
  }

  lemma HoldsHead(s: State)
    requires Listed(s.order, s.pending) && s.order != []
    ensures Holds(s) == multiset{s.pending[s.order[0]].capture} + Holds(DropHead(s))
  {}

  lemma HeadsHead(s: State, n: nat)
    requires Listed(s.order, s.pending) && 0 < n <= |s.order|
    ensures Heads(s, n) == multiset{s.pending[s.order[0]].capture} + Heads(DropHead(s), n - 1)
    ensures DropHeads(s, n) == DropHeads(DropHead(s), n - 1)
  {}

  /** Which entries survive, and that they are untouched. */
  lemma {:induction false} DropHeadsPending(s: State, n: nat, id: string)
    requires n <= |s.order|
    ensures var t := DropHeads(s, n).pending;
            && (id in t <==> id in s.pending && id !in s.order[..n])
            && (id in t ==> t[id] == s.pending[id])
    decreases n
  {
    if n == 0 {
    } else {
      DropHeadsPending(DropHead(s), n - 1, id);
      assert s.order[..n] == [s.order[0]] + s.order[1..][..n - 1];
    }
  }

  lemma {:induction false} ScanIsPrefix(s: State, cutoff: int)
    requires Listed(s.order, s.pending)
    ensures Scan(s.order, s.pending, cutoff) == DropHeads(s, StalePrefix(s.order, s.pending, cutoff)).pending
    decreases |s.order|
  {
    if s.order == [] || s.pending[s.order[0]].at > cutoff {
    } else {
      ScanIsPrefix(DropHead(s), cutoff);
      StalePrefixStep(s.order, s.pending, cutoff);
    }
  }

  lemma LiveAt(s: State, n: nat, j: nat)
    requires Listed(s.order, s.pending) && n <= |s.order| && j < |s.order|
    ensures s.order[j] in s.pending
    ensures s.order[j] in DropHeads(s, n).pending <==> j >= n
  {
    ListedMeans(s.order, s.pending);
    DropHeadsPending(s, n, s.order[j]);
    assert s.order[j] in s.order;
    if j < n {
      assert s.order[j] == s.order[..n][j];
    }
  }

  lemma LiveAfterDrop(s: State, n: nat)
    requires Listed(s.order, s.pending) && n <= |s.order|
    ensures Keep(s.order, DropHeads(s, n).pending.Keys) == s.order[n..]
  {
    var live := DropHeads(s, n).pending.Keys;
    forall j | 0 <= j < |s.order|
      ensures s.order[j] in live <==> j >= n
    {
      LiveAt(s, n, j);
    }
    KeepSuffix(s.order, n, live);
  }

  /** The state without its maximal stale prefix. */
  ghost function DropStale(s: State, cutoff: int): State {
    DropHeads(s, StalePrefix(s.order, s.pending, cutoff))
  }

  lemma DropStaleFacts(s: State, cutoff: int)
    requires Listed(s.order, s.pending)
    ensures var t := DropStale(s, cutoff);
            && t.pending == Scan(s.order, s.pending, cutoff)
            && t.order == Keep(s.order, t.pending.Keys)
            && t.stats == s.stats.(expired := s.stats.expired + |s.pending| - |t.pending|)
            && (|t.pending| == |s.pending| ==> t == s)
            && Listed(t.order, t.pending) && |t.pending| <= |s.pending|
  {
    var n := StalePrefix(s.order, s.pending, cutoff);
    ScanIsPrefix(s, cutoff);
    DropHeadsListed(s, n);
    LiveAfterDrop(s, n);
  }

  lemma DropStaleCount(s: State, cutoff: int)
    requires Listed(s.order, s.pending)
    ensures |DropStale(s, cutoff).pending| == |s.pending| - StalePrefix(s.order, s.pending, cutoff)
  {
    DropHeadsListed(s, StalePrefix(s.order, s.pending, cutoff));
  }

  /** The captures of the maximal stale prefix. */
  ghost function Stale(s: State, cutoff: int): multiset<Capture>
    requires Listed(s.order, s.pending)
  {
    Heads(s, StalePrefix(s.order, s.pending, cutoff))
  }

  lemma DropStaleSplits(s: State, cutoff: int)
    requires Listed(s.order, s.pending)
    ensures var t := DropStale(s, cutoff);
            && Listed(t.order, t.pending)
            && Holds(s) == Stale(s, cutoff) + Holds(t)
            && t.stats == s.stats.(expired := s.stats.expired + |Stale(s, cutoff)|)
            && |t.order| <= |s.order|
  {
    HoldsDrop(s, StalePrefix(s.order, s.pending, cutoff));
  }

  /** `expire` takes exactly the maximal stale prefix of the list, however the map is aged. */
  lemma ExpireTakesStalePrefix(o: Options, s: State, now: int)
    requires Listed(s.order, s.pending)
    ensures Expire(o, s, now) == DropStale(s, now - o.timeout)
  {
    DropStaleFacts(s, now - o.timeout);
  }

  /** The survivors are untouched, keep their order, and begin with a fresh one. */
  lemma DropStaleShrinks(s: State, cutoff: int)
    requires Listed(s.order, s.pending)
    ensures var t, n := DropStale(s, cutoff), StalePrefix(s.order, s.pending, cutoff);
            && t.order == s.order[n..]
            && (forall id | id in t.pending :: id in s.pending && t.pending[id] == s.pending[id])
            && (t.order != [] ==> t.order[0] in t.pending && t.pending[t.order[0]].at > cutoff)
  {
    var t, n := DropStale(s, cutoff), StalePrefix(s.order, s.pending, cutoff);
    forall id | id in t.pending ensures id in s.pending && t.pending[id] == s.pending[id] {
      DropHeadsPending(s, n, id);
    }
    DropHeadsListed(s, n);
    ListedMeans(s.order, s.pending);
    StalePrefixIsMaximal(s.order, s.pending, cutoff);
    if t.order != [] {
      assert t.order[0] == s.order[n];
    }
  }

  lemma LiveAfterDropStale(s: State, cutoff: int, j: nat)
    requires Listed(s.order, s.pending) && j < |s.order|
    ensures s.order[j] in s.pending
    ensures s.order[j] in DropStale(s, cutoff).pending <==> j >= StalePrefix(s.order, s.pending, cutoff)
  {
    LiveAt(s, StalePrefix(s.order, s.pending, cutoff), j);
  }

  lemma ExpireShrinks(o: Options, s: State, now: int) returns (n: nat)
    requires Listed(s.order, s.pending)
    ensures var t := Expire(o, s, now);
            && n <= |s.order| && t.order == s.order[n..]
            && (forall id | id in t.pending :: id in s.pending && t.pending[id] == s.pending[id])
            && (t.order != [] ==> t.order[0] in t.pending && t.pending[t.order[0]].at > now - o.timeout)
  {
    n := StalePrefix(s.order, s.pending, now - o.timeout);
    ExpireTakesStalePrefix(o, s, now);
    DropStaleShrinks(s, now - o.timeout);
  }

  lemma ExpireKeepsValid(o: Options, s: State, now: int)
    requires Valid(o, s)
    ensures Valid(o, Expire(o, s, now))
  {
    ExpireTakesStalePrefix(o, s, now);
    StaleKeepsValid(o, s, Expire(o, s, now), now - o.timeout);
  }

  lemma StaleKeepsValid(o: Options, s: State, t: State, cutoff: int)
    requires Valid(o, s) && t == DropStale(s, cutoff)
    ensures Valid(o, t)
  {
    DropStaleFacts(s, cutoff);
  }

  lemma ExpireSplits(o: Options, s: State, now: int)
    requires Valid(o, s)
    ensures var t := Expire(o, s, now);
            && Valid(o, t)
            && Holds(s) == Stale(s, now - o.timeout) + Holds(t)
            && t.stats == s.stats.(expired := s.stats.expired + |Stale(s, now - o.timeout)|)
  {
    ExpireKeepsValid(o, s, now);
    ExpireTakesStalePrefix(o, s, now);
    DropStaleSplits(s, now - o.timeout);
  }

  lemma {:induction false} ListedRemove(order: seq<string>, pending: map<string, Pending>, k: nat)
    requires Listed(order, pending) && k < |order|
    ensures order[k] in pending
    ensures Listed(order[..k] + order[k + 1..], pending - {order[k]})
  {
    if k == 0 {
      assert order[..0] + order[1..] == order[1..];
    } else {
      HeadIsListedOnce(order, pending);
      ListedRemove(order[1..], pending - {order[0]}, k - 1);
      RemovedTail(order, pending, k);
    }
  }

  lemma RemovedTail(order: seq<string>, pending: map<string, Pending>, k: nat)
    requires 0 < k < |order|
    ensures (order[..k] + order[k + 1..])[0] == order[0]
    ensures (order[..k] + order[k + 1..])[1..] == order[1..][..k - 1] + order[1..][k..]
    ensures pending - {order[0]} - {order[k]} == pending - {order[k]} - {order[0]}
  {}

  lemma {:induction false} WaitingRemove(order: seq<string>, pending: map<string, Pending>, k: nat)
    requires Listed(order, pending) && k < |order| && order[k] in pending
    requires Listed(order[..k] + order[k + 1..], pending - {order[k]})
    ensures Waiting(order, pending) ==
            Waiting(order[..k] + order[k + 1..], pending - {order[k]}) + multiset{pending[order[k]].capture}
  {
    var rest, left := order[..k] + order[k + 1..], pending - {order[k]};
    if k == 0 {
      assert rest == order[1..];
    } else {
      var p := pending - {order[0]};
      var head := multiset{pending[order[0]].capture};
      assert order[k] == order[1..][k - 1];
      ListedRemove(order[1..], p, k - 1);
      assert rest[0] == order[0] && rest[1..] == order[1..][..k - 1] + order[1..][k..];
      assert p - {order[k]} == left - {order[0]};
      WaitingRemove(order[1..], p, k - 1);
      assert Waiting(order, pending) == head + Waiting(order[1..], p);
      assert Waiting(rest, left) == head + Waiting(rest[1..], left - {order[0]});
      assert p[order[k]] == pending[order[k]];
    }
  }

  lemma {:induction false} ListedAppend(order: seq<string>, pending: map<string, Pending>, id: string, p: Pending)
    requires Listed(order, pending) && id !in pending && FiledUnder(id, p)
    ensures Listed(order + [id], pending[id := p])
  {
    AppendedTail(order, pending, id, p);
    if order == [] {
    } else {
      ListedAppend(order[1..], pending - {order[0]}, id, p);
    }
  }

  lemma AppendedTail(order: seq<string>, pending: map<string, Pending>, id: string, p: Pending)
    requires Listed(order, pending) && id !in pending
    ensures order == [] ==> (order + [id])[1..] == [] && pending[id := p] - {id} == map[]
    ensures order != [] ==>
              && (order + [id])[1..] == order[1..] + [id]
              && pending[id := p] - {order[0]} == (pending - {order[0]})[id := p]
  {}

  lemma {:induction false} WaitingAppend(order: seq<string>, pending: map<string, Pending>, id: string, p: Pending)
    requires Listed(order, pending) && id !in pending && FiledUnder(id, p)
    requires Listed(order + [id], pending[id := p])
    ensures Waiting(order + [id], pending[id := p]) == Waiting(order, pending) + multiset{p.capture}
  {
    AppendedTail(order, pending, id, p);
    if order == [] {
    } else {
      ListedAppend(order[1..], pending - {order[0]}, id, p);
      WaitingAppend(order[1..], pending - {order[0]}, id, p);
    }
  }

  lemma {:induction false} ListedUpdate(order: seq<string>, pending: map<string, Pending>, id: string, p: Pending)
    requires Listed(order, pending) && id in pending && FiledUnder(id, p)
    ensures Listed(order, pending[id := p])
  {
    if order[0] == id {
      assert pending[id := p] - {id} == pending - {id};
    } else {
      ListedUpdate(order[1..], pending - {order[0]}, id, p);
      assert pending[id := p] - {order[0]} == (pending - {order[0]})[id := p];
    }
  }

  lemma {:induction false} WaitingUpdate(order: seq<string>, pending: map<string, Pending>, id: string, p: Pending)
    requires Listed(order, pending) && id in pending && Listed(order, pending[id := p])
    ensures Waiting(order, pending[id := p]) + multiset{pending[id].capture} ==
            Waiting(order, pending) + multiset{p.capture}
  {
    var changed := pending[id := p];
    if order[0] == id {
      assert changed - {id} == pending - {id};
      assert Waiting(order, changed) == multiset{p.capture} + Waiting(order[1..], pending - {id});
    } else {
      var rest := pending - {order[0]};
      assert changed - {order[0]} == rest[id := p];
      WaitingUpdate(order[1..], rest, id, p);
      var head := multiset{pending[order[0]].capture};
      assert Waiting(order, changed) == head + Waiting(order[1..], rest[id := p]);
      assert Waiting(order, pending) == head + Waiting(order[1..], rest);
      assert Waiting(order, changed) + multiset{pending[id].capture} ==
             head + (Waiting(order[1..], rest[id := p]) + multiset{rest[id].capture});
      assert Waiting(order, pending) + multiset{p.capture} ==
             head + (Waiting(order[1..], rest) + multiset{p.capture});
    }
  }

  lemma RemoveTakesOne(o: Options, s: State, k: nat)
    requires Valid(o, s) && k < |s.order|
    ensures s.order[k] in s.pending
    ensures Remove(s, s.order[k]) == s.(pending := s.pending - {s.order[k]}, order := s.order[..k] + s.order[k + 1..])
    ensures Valid(o, Remove(s, s.order[k]))
    ensures |Remove(s, s.order[k]).pending| == |s.pending| - 1
  {
    ListedMeans(s.order, s.pending);
    ListedRemove(s.order, s.pending, k);
    MapMinus(s.pending, s.order[k]);
    var live := (s.pending - {s.order[k]}).Keys;
    forall i | 0 <= i < |s.order| ensures s.order[i] in live <==> i != k {
      assert s.order[i] in s.order;
    }
    KeepAllBut(s.order, k, live);
  }

  /** Eviction takes the id that has been listed longest. */
  lemma EvictTakesHead(o: Options, s: State)
    requires Valid(o, s) && s.order != []
    ensures s.order[0] in s.pending
    ensures EvictOldest(s) == State(
              s.pending - {s.order[0]}, s.order[1..], s.stats.(dropped := s.stats.dropped + 1))
    ensures Valid(o, EvictOldest(s)) && |EvictOldest(s).pending| == |s.pending| - 1
  {
    RemoveTakesOne(o, s, 0);
    assert s.order[..0] + s.order[1..] == s.order[1..];
  }

  lemma RefreshKeepsValid(o: Options, s: State, c: Capture, now: int)
    requires Valid(o, s) && WellFormed(c) && c.correlId in s.pending
    ensures Valid(o, Refresh(s, c, now))
  {
    MapPlus(s.pending, c.correlId, Pending(c, now));
    ListedUpdate(s.order, s.pending, c.correlId, Pending(c, now));
  }

  lemma CompleteKeepsValid(o: Options, s: State, id: string) returns (k: nat)
    requires Valid(o, s) && id in s.pending
    ensures k < |s.order| && s.order[k] == id
    ensures Valid(o, Complete(s, id))
    ensures Complete(s, id) == State(
              s.pending - {id}, s.order[..k] + s.order[k + 1..], s.stats.(paired := s.stats.paired + 1))
  {
    ListedMeans(s.order, s.pending);
    k :| 0 <= k < |s.order| && s.order[k] == id;
    RemoveTakesOne(o, s, k);
  }

  lemma HoldKeepsValid(o: Options, s: State, c: Capture, now: int)
    requires o.Valid() && Valid(o, s) && WellFormed(c) && c.correlId !in s.pending
    ensures Valid(o, Hold(o, s, c, now))
  {
    ListedMeans(s.order, s.pending);
    var roomy := if |s.pending| >= o.maxPending then EvictOldest(s) else s;
    if |s.pending| >= o.maxPending {
      EvictTakesHead(o, s);
    }
    MapPlus(roomy.pending, c.correlId, Pending(c, now));
    ListedAppend(roomy.order, roomy.pending, c.correlId, Pending(c, now));
  }

  /** Every locked section keeps the buffer valid. */
  lemma LockKeepsValid(o: Options, s: State, c: Capture, now: int)
    requires o.Valid() && Valid(o, s)
    ensures Valid(o, Lock(o, s, c, now).0)
  {
    if WellFormed(c) {
      ExpireKeepsValid(o, Arrive(s), now);
      var swept := Expire(o, Arrive(s), now);
      if c.correlId !in swept.pending {
        HoldKeepsValid(o, swept, Stamp(c, now), now);
      } else if swept.pending[c.correlId].capture.path == c.path {
        RefreshKeepsValid(o, swept, Stamp(c, now), now);
      } else {
        var _ := CompleteKeepsValid(o, swept, c.correlId);
      }
    }
  }

  lemma ExpireCounts(o: Options, s: State, now: int)
    ensures var t := Expire(o, s, now).stats;
            t.received == s.stats.received && t.discarded == s.stats.discarded
  {}

  /** Every capture is received; it is discarded if and only if it is malformed. */
  lemma LockCounts(o: Options, s: State, c: Capture, now: int)
    ensures var t := Lock(o, s, c, now).0.stats;
            && t.received == s.stats.received + 1
            && t.discarded == s.stats.discarded + if WellFormed(c) then 0 else 1
  {
    ExpireCounts(o, Arrive(s), now);
    FileCounts(o, Expire(o, Arrive(s), now), Stamp(c, now), now);
  }

  lemma FileCounts(o: Options, s: State, c: Capture, now: int)
    ensures var t := FileLocked(o, s, c, now).0.stats;
            t.received == s.stats.received && t.discarded == s.stats.discarded
  {}

  /** What the scan leaves when it has come to position i. */
  function ScanAt(order: seq<string>, i: nat, pending: map<string, Pending>, cutoff: int): map<string, Pending>
    requires i <= |order|
  {
    Scan(order[i..], pending, cutoff)
  }

  lemma ScanFrom(order: seq<string>, i: nat, pending: map<string, Pending>, cutoff: int)
    requires i < |order|
    ensures ScanAt(order, i, pending, cutoff) ==
            if order[i] !in pending then ScanAt(order, i + 1, pending, cutoff)
            else if pending[order[i]].at > cutoff then pending
            else ScanAt(order, i + 1, pending - {order[i]}, cutoff)
  {
    assert order[i..][1..] == order[i + 1..];
  }

  lemma ScanDone(order: seq<string>, i: nat, pending: map<string, Pending>, cutoff: int)
    requires i <= |order|
    requires i == |order| || (order[i] in pending && pending[order[i]].at > cutoff)
    ensures ScanAt(order, i, pending, cutoff) == pending
  {}

  lemma SweepCounts(o: Options, s: State, now: int)
    requires Valid(o, s)
    ensures Valid(o, Expire(o, s, now))
    ensures |s.pending| - |Expire(o, s, now).pending| == StalePrefix(s.order, s.pending, now - o.timeout)
  {
    ExpireKeepsValid(o, s, now);
    ExpireTakesStalePrefix(o, s, now);
    DropStaleCount(s, now - o.timeout);
  }

  // ----- The buffer ------------------------------------------------------------------------------

  class Buffer {
    const opts: Options
    var pending: map<string, Pending>
    var order: array<string>
    var count: nat
    var stats: Stats
    var pairs: seq<Pair>

    ghost predicate Inv()
      reads this, order
    {
      && opts.Valid() && count <= order.Length && |pairs| <= opts.backlog
      && Valid(opts, Abs())
    }

    ghost function Abs(): State
      reads this, order
      requires count <= order.Length
    {
      State(pending, order[..count], stats)
    }

    constructor (o: Options)
      ensures Inv() && fresh(order)
      ensures opts == o.WithDefaults() && Abs() == EMPTY && pairs == []
    {
      opts := o.WithDefaults();
      pending, stats, pairs := map[], Stats(0, 0, 0, 0, 0), [];
      count := 0;
      order := new string[0];
    }

    /** Compaction in place: the kept ids move down over the removed ones. */
    method CompactOrder()
      requires count <= order.Length
      modifies this`count, order
      ensures count <= order.Length
      ensures order[..count] == Keep(old(order[..count]), pending.Keys)
    {
      ghost var was := order[..count];
      var kept, i, n := 0, 0, count;
      while i < n
        invariant 0 <= kept <= i <= n && n == count == |was|
        invariant forall k | i <= k < n :: order[k] == was[k]
        invariant order[..kept] == Keep(was[..i], pending.Keys)
      {
        var id := order[i];
        KeepNext(was, i, pending.Keys);
        if id in pending {
          ghost var done := order[..kept];
          order[kept] := id;
          kept := kept + 1;
          assert order[..kept] == done + [id];
        }
        i := i + 1;
      }
      assert was[..count] == was;
      count := kept;
    }

    method ExpireAt(now: int) returns (expired: nat)
      requires count <= order.Length
      modifies this`count, this`pending, this`stats, order
      ensures count <= order.Length
      ensures Abs() == Expire(opts, old(Abs()), now)
      ensures expired == old(|pending|) - |pending|
    {
      ghost var was := order[..count];
      expired := ScanInPlace(now - opts.timeout);
      assert order[..count] == was;
      ScanShrinks(was, old(pending), now - opts.timeout);
      if expired > 0 {
        CompactOrder();
      }
    }

    /** The scan of the list, which takes out of the map what is stale and stops at the first
        fresh entry. */
    method ScanInPlace(cutoff: int) returns (expired: nat)
      requires count <= order.Length
      modifies this`pending, this`stats
      ensures pending == Scan(order[..count], old(pending), cutoff)
      ensures expired == old(|pending|) - |pending|
      ensures stats == old(stats).(expired := old(stats).expired + expired)
    {
      ghost var was := order[..count];
      expired := 0;
      var i := 0;
      while i < count
        invariant 0 <= i <= count
        invariant ScanAt(was, 0, old(pending), cutoff) == ScanAt(was, i, pending, cutoff)
        invariant expired == old(|pending|) - |pending|
        invariant stats == old(stats).(expired := old(stats).expired + expired)
        modifies this`pending, this`stats
      {
        var id := order[i];
        ScanFrom(was, i, pending, cutoff);
        if id in pending {
          if pending[id].at > cutoff {
            break;
          }
          MapMinus(pending, id);
          pending := pending - {id};
          stats := stats.(expired := stats.expired + 1);
          expired := expired + 1;
        }
        i := i + 1;
      }
      ScanDone(was, i, pending, cutoff);
      assert was[0..] == was;
    }

    method EvictOldestInPlace()
      requires count <= order.Length
      modifies this`count, this`pending, this`stats, order
      ensures count <= order.Length
      ensures Abs() == EvictOldest(old(Abs()))
    {
      var i := 0;
      while i < count
        invariant 0 <= i <= count
        invariant unchanged(this) && unchanged(order)
        invariant FirstLive(order[..count], pending.Keys) == FirstLive(order[..count][i..], pending.Keys)
      {
        assert order[..count][i..][1..] == order[..count][i + 1..];
        if order[i] in pending {
          pending := pending - {order[i]};
          stats := stats.(dropped := stats.dropped + 1);
          CompactOrder();
          return;
        }
        i := i + 1;
      }
    }

    method RemoveInPlace(id: string)
      requires count <= order.Length
      modifies this`count, this`pending, order
      ensures count <= order.Length
      ensures Abs() == Remove(old(Abs()), id)
    {
      pending := pending - {id};
      CompactOrder();
    }

    /** The list's backing array is replaced when it is full. */
    method Append(id: string)
      requires count <= order.Length
      modifies this`count, this`order, order
      ensures count <= order.Length
      ensures order[..count] == old(order[..count]) + [id]
      ensures order == old(order) || fresh(order)
    {
      if count == order.Length {
        var bigger := new string[2 * count + 1];
        var i, n := 0, count;
        while i < n
          invariant 0 <= i <= n && n == count
          invariant order == old(order) && order[..n] == old(order[..count])
          invariant bigger[..i] == order[..i]
          modifies bigger
        {
          bigger[i] := order[i];
          i := i + 1;
        }
        order := bigger;
      }
      order[count] := id;
      count := count + 1;
    }

    /** The locked section, with the pair it hands out. */
    method IngestLocked(c: Capture, now: int) returns (made: Option<Pair>)
      requires count <= order.Length
      modifies this`count, this`pending, this`stats, this`order, order
      ensures count <= order.Length && (order == old(order) || fresh(order))
      ensures (Abs(), made) == Lock(opts, old(Abs()), c, now)
    {
      made := None;
      stats := stats.(received := stats.received + 1);
      if !WellFormed(c) {
        stats := stats.(discarded := stats.discarded + 1);
        return;
      }
      var _ := ExpireAt(now);
      made := FileStamped(Stamp(c, now), now);
    }

    /** After expiry: replace, pair or hold. */
    method FileStamped(c: Capture, now: int) returns (made: Option<Pair>)
      requires count <= order.Length
      modifies this`count, this`pending, this`stats, this`order, order
      ensures count <= order.Length && (order == old(order) || fresh(order))
      ensures (Abs(), made) == FileLocked(opts, old(Abs()), c, now)
    {
      made := None;
      if c.correlId in pending {
        var held := pending[c.correlId].capture;
        if held.path == c.path {
          pending := pending[c.correlId := Pending(c, now)];
          return;
        }
        RemoveInPlace(c.correlId);
        made := Some(if c.path == PRIMARY then Pair(c.correlId, c, held) else Pair(c.correlId, held, c));
        stats := stats.(paired := stats.paired + 1);
        return;
      }
      if |pending| >= opts.maxPending {
        EvictOldestInPlace();
      }
      pending := pending[c.correlId := Pending(c, now)];
      Append(c.correlId);
    }

    /** File one capture. A completed pair is offered to the backlog without blocking. */
    method Ingest(c: Capture, now: int)
      requires Inv()
      modifies this, order
      ensures Inv() && (order == old(order) || fresh(order))
      ensures var (locked, made) := Lock(opts, old(Abs()), c, now);
              if made.None? then Abs() == locked && pairs == old(pairs)
              else if |old(pairs)| < opts.backlog then Abs() == locked && pairs == old(pairs) + [made.value]
              else Abs() == Relock(locked) && pairs == old(pairs)
      ensures c.correlId == "" || (c.path != "primary" && c.path != "shadow") ==>
                && Abs().pending == old(pending) && Abs().order == old(order[..count]) && pairs == old(pairs)
                && stats == old(stats).(received := old(stats).received + 1, discarded := old(stats).discarded + 1)
      ensures c.correlId != "" && (c.path == "primary" || c.path == "shadow") ==>
                stats.discarded == old(stats).discarded && stats.received == old(stats).received + 1
    {
      LockKeepsValid(opts, Abs(), c, now);
      LockCounts(opts, Abs(), c, now);
      var made := IngestLocked(c, now);
      if made.Some? {
        Offer(made.value);
      }
    }

    /** Send without blocking; a pair that finds the backlog full is dropped and uncounted. */
    method Offer(p: Pair)
      requires Inv()
      modifies this`pairs, this`stats
      ensures Inv()
      ensures if |old(pairs)| < opts.backlog then Abs() == old(Abs()) && pairs == old(pairs) + [p]
              else Abs() == Relock(old(Abs())) && pairs == old(pairs)
    {
      if |pairs| < opts.backlog {
        pairs := pairs + [p];
      } else {
        stats := stats.(dropped := stats.dropped + 1, paired := stats.paired - 1);
      }
    }

    method Sweep(now: int) returns (expired: nat)
      requires Inv()
      modifies this, order
      ensures Inv() && order == old(order)
      ensures Abs() == Expire(opts, old(Abs()), now) && pairs == old(pairs)
      ensures expired == StalePrefix(old(order[..count]), old(pending), now - opts.timeout)
    {
      SweepCounts(opts, Abs(), now);
      expired := ExpireAt(now);
    }

    /** The consumer's receive. */
    method Receive() returns (p: Pair)
      requires Inv() && pairs != []
      modifies this`pairs
      ensures Inv() && Abs() == old(Abs())
      ensures [p] + pairs == old(pairs)
    {
      p := pairs[0];
      pairs := pairs[1..];
    }
  }

  lemma {:induction false} ScanShrinks(order: seq<string>, pending: map<string, Pending>, cutoff: int)
    ensures Scan(order, pending, cutoff) == pending || |Scan(order, pending, cutoff)| < |pending|
  {
    if order == [] {
    } else {
      if order[0] !in pending {
        ScanShrinks(order[1..], pending, cutoff);
      } else if pending[order[0]].at <= cutoff {
        MapMinus(pending, order[0]);
      }
    }
  }
}
