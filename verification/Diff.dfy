/** The structural diff: what a comparison of two decoded bodies reports, and the engine
    that collects it in a sink. */
module Diff {
  import opened Text
  import opened Sorting
  import opened Json
  import opened Collector

  datatype Kind = Status | Header | BodyVal | BodyKey | Shape

  /** Values are kept as they are; how they are rendered is not part of the comparison. */
  datatype Difference = Difference(kind: Kind, path: string, primary: Json, shadow: Json)

  /** The noise rules, if there are any, as the engine sees them. */
  datatype Suppressor = NoRules | Rules(ask: (string, Json, Json) -> bool)
  {
    predicate Asks(path: string, primary: Json, shadow: Json) {
      Rules? && ask(path, primary, shadow)
    }
  }

  datatype Engine = Engine(num: Valuation, suppressor: Suppressor, decode: string -> Option<Json>)
  {
    predicate Asks(path: string, primary: Json, shadow: Json) {
      suppressor.Asks(path, primary, shadow)
    }

    /** The same engine without noise rules. */
    function Raw(): Engine {
      this.(suppressor := NoRules)
    }
  }

  const PATH_STATUS := "/status"
  const PATH_HEADERS := "/headers"
  const PATH_BODY := "/body"

  // ----- What happens during a comparison, in order ---------------------------------------------

  /** A difference is reported, or the rules said that these two values do not matter. */
  datatype Event = Found(d: Difference) | Hid(path: string, primary: Json, shadow: Json)

  function Offer(e: Engine, kind: Kind, path: string, primary: Json, shadow: Json): seq<Event> {
    if e.Asks(path, primary, shadow) then [Hid(path, primary, shadow)]
    else [Found(Difference(kind, path, primary, shadow))]
  }

  function Items(n: nat): Json {
    Str(Itoa(n) + " items")
  }

  /** What is said about two values as a whole. */
  function Here(e: Engine, path: string, a: Json, b: Json): seq<Event> {
    if TypeName(a) != TypeName(b) then Offer(e, Shape, path, Str(TypeName(a)), Str(TypeName(b)))
    else if a.Arr? && b.Arr? && |a.items| != |b.items| then
      Offer(e, Shape, path, Items(|a.items|), Items(|b.items|))
    else if IsScalar(a) && !ScalarEqual(e.num, a, b) then Offer(e, BodyVal, path, a, b)
    else []
  }

  /** A place below two values, with what each of them holds there. */
  datatype Child = Child(token: string, left: Option<Json>, right: Option<Json>)

  ghost function Keys(a: map<string, Json>, b: map<string, Json>): seq<string> {
    SortedSeq(a.Keys + b.Keys)
  }

  function Field(m: map<string, Json>, key: string): Option<Json> {
    if key in m then Some(m[key]) else None
  }

  /** Objects are compared key by key in byte order, arrays index by index as far as the
      shorter one goes. */
  ghost function Children(a: Json, b: Json): (kids: seq<Child>)
    ensures forall kid | kid in kids :: kid.left.Some? ==> kid.left.value < a
  {
    match (a, b)
    case (Obj(f), Obj(g)) =>
      var keys := Keys(f, g);
      seq(|keys|, i requires 0 <= i < |keys| => Child(keys[i], Field(f, keys[i]), Field(g, keys[i])))
    case (Arr(x), Arr(y)) =>
      seq(Min(|x|, |y|), i requires 0 <= i < Min(|x|, |y|) => Child(Itoa(i), Some(x[i]), Some(y[i])))
    case _ => []
  }

  function Min(m: nat, n: nat): nat {
    if m < n then m else n
  }

  function ChildPath(path: string, token: string): string {
    path + "/" + Escape(token)
  }

  ghost function Walk(e: Engine, path: string, a: Json, b: Json): seq<Event>
    decreases a, 1, 0
  {
    if a.Arr? && b.Arr? && e.Asks(path, a, b) then [Hid(path, a, b)]
    else Here(e, path, a, b) + WalkAll(e, path, a, Children(a, b))
  }

  ghost function WalkAll(e: Engine, path: string, a: Json, kids: seq<Child>): seq<Event>
    requires forall kid | kid in kids :: kid.left.Some? ==> kid.left.value < a
    decreases a, 0, |kids|
  {
    if kids == [] then [] else WalkChild(e, path, a, kids[0]) + WalkAll(e, path, a, kids[1..])
  }

  ghost function WalkChild(e: Engine, path: string, a: Json, kid: Child): seq<Event>
    requires kid.left.Some? ==> kid.left.value < a
    decreases a, 0, 0
  {
    var p := ChildPath(path, kid.token);
    match (kid.left, kid.right)
    case (Some(l), Some(r)) => Walk(e, p, l, r)
    case (Some(l), None) => Offer(e, BodyKey, p, l, Null)
    case (None, Some(r)) => Offer(e, BodyKey, p, Null, r)
    case (None, None) => []
  }

  // ----- Headers and whole responses -----------------------------------------------------------------

  const TRANSPORT_HEADERS: set<string> := {
    "connection", "keep-alive", "transfer-encoding", "content-length", "te", "trailer",
    "upgrade", "proxy-authenticate", "proxy-authorization"
  }

  type Headers = map<string, seq<string>>

  /** No two names of one response differ in letter case only. Where two do, the one that is
      read is whichever the map iteration meets first. */
  ghost predicate FoldDistinct(h: Headers) {
    forall k, l | k in h && l in h && Lower(k) == Lower(l) :: k == l
  }

  function Join(values: seq<string>): string {
    if values == [] then "" else if |values| == 1 then values[0] else values[0] + ", " + Join(values[1..])
  }

  /** The value under a lower-case name; an absent header and an empty one are the same. */
  ghost function HeaderValue(h: Headers, name: string): string {
    if k :| k in h && Lower(k) == name then Join(h[k]) else ""
  }

  function HeaderNames(h: Headers, g: Headers): set<string> {
    set k | k in h.Keys + g.Keys && Lower(k) !in TRANSPORT_HEADERS :: Lower(k)
  }

  ghost function HeaderEvent(e: Engine, h: Headers, g: Headers, name: string): seq<Event> {
    EventBetween(e, name, HeaderValue(h, name), HeaderValue(g, name))
  }

  function EventBetween(e: Engine, name: string, a: string, b: string): seq<Event> {
    if a != b then Offer(e, Header, PATH_HEADERS + "/" + name, Str(a), Str(b)) else []
  }

  ghost function HeaderEvents(e: Engine, h: Headers, g: Headers, names: seq<string>): seq<Event> {
    if names == [] then [] else HeaderEvent(e, h, g, names[0]) + HeaderEvents(e, h, g, names[1..])
  }

  function Jsonness(decoded: Option<Json>): Json {
    Str(if decoded.Some? then "valid JSON" else "not JSON")
  }

  ghost function BodyEvents(e: Engine, p: string, s: string): seq<Event> {
    var a, b := e.decode(p), e.decode(s);
    if a.Some? && b.Some? then Walk(e, PATH_BODY, a.value, b.value)
    else if a.Some? != b.Some? then Offer(e, Shape, PATH_BODY, Jsonness(a), Jsonness(b))
    else if p != s then Offer(e, BodyVal, PATH_BODY, Str(p), Str(s))
    else []
  }

  /** A status is offered as the number it is; its sign matters to no one but the spelling. */
  function StatusValue(n: int): Json {
    Num(if n < 0 then "-" + Itoa(-n) else Itoa(n))
  }

  function StatusEvents(e: Engine, p: int, s: int): seq<Event> {
    if p != s then Offer(e, Status, PATH_STATUS, StatusValue(p), StatusValue(s)) else []
  }

  ghost function PairEvents(e: Engine, p: Pair): seq<Event> {
    StatusEvents(e, p.primary.status, p.shadow.status)
      + HeaderEvents(e, p.primary.resHeaders, p.shadow.resHeaders,
                     SortedSeq(HeaderNames(p.primary.resHeaders, p.shadow.resHeaders)))
      + BodyEvents(e, p.primary.resBody, p.shadow.resBody)
  }

  /** The differences reported. */
  function Reported(events: seq<Event>): seq<Difference> {
    if events == [] then []
    else (if events[0].Found? then [events[0].d] else []) + Reported(events[1..])
  }

  /** How often the rules said that something does not matter. */
  function Hidden(events: seq<Event>): nat {
    if events == [] then 0 else (if events[0].Hid? then 1 else 0) + Hidden(events[1..])
  }

  lemma {:induction false} EventsConcat(x: seq<Event>, y: seq<Event>)
    ensures Reported(x + y) == Reported(x) + Reported(y)
    ensures Hidden(x + y) == Hidden(x) + Hidden(y)
  {
    if x == [] {
      assert x + y == y;
    } else {
      assert (x + y)[1..] == x[1..] + y;
      EventsConcat(x[1..], y);
      Associative(if x[0].Found? then [x[0].d] else [], Reported(x[1..]), Reported(y));
    }
  }

  lemma {:induction false} WalkAllSplit(e: Engine, path: string, a: Json, x: seq<Child>, y: seq<Child>)
    requires forall kid | kid in x + y :: kid.left.Some? ==> kid.left.value < a
    ensures (forall kid | kid in x :: kid in x + y) && (forall kid | kid in y :: kid in x + y)
    ensures WalkAll(e, path, a, x + y) == WalkAll(e, path, a, x) + WalkAll(e, path, a, y)
    decreases |x|
  {
    assert forall kid | kid in x :: kid in x + y;
    assert forall kid | kid in y :: kid in x + y;
    if x == [] {
      assert x + y == y;
    } else {
      assert (x + y)[1..] == x[1..] + y;
      WalkAllSplit(e, path, a, x[1..], y);
      Associative(WalkChild(e, path, a, x[0]), WalkAll(e, path, a, x[1..]), WalkAll(e, path, a, y));
    }
  }

  /** The first i children, and then one more. */
  ghost function WalkFirst(e: Engine, path: string, a: Json, kids: seq<Child>, i: nat): seq<Event>
    requires forall kid | kid in kids :: kid.left.Some? ==> kid.left.value < a
    requires i <= |kids|
  {
    WalkAll(e, path, a, kids[..i])
  }

  lemma WalkNext(e: Engine, path: string, a: Json, kids: seq<Child>, i: nat)
    requires forall kid | kid in kids :: kid.left.Some? ==> kid.left.value < a
    requires i < |kids|
    ensures kids[i] in kids
    ensures WalkFirst(e, path, a, kids, i + 1) == WalkFirst(e, path, a, kids, i) + WalkChild(e, path, a, kids[i])
  {
    assert kids[..i + 1] == kids[..i] + [kids[i]];
    WalkAllSplit(e, path, a, kids[..i], [kids[i]]);
    assert [kids[i]][1..] == [];
    assert WalkAll(e, path, a, [kids[i]]) == WalkChild(e, path, a, kids[i]) + [];
  }

  lemma ObjectWalk(e: Engine, path: string, a: Json, b: Json)
    requires a.Obj? && b.Obj?
    ensures Walk(e, path, a, b) == WalkFirst(e, path, a, Children(a, b), |Children(a, b)|)
  {
    var kids := Children(a, b);
    assert kids[..|kids|] == kids;
    assert Here(e, path, a, b) == [];
    assert [] + WalkAll(e, path, a, kids) == WalkAll(e, path, a, kids);
  }

  lemma ArrayWalkNext(e: Engine, path: string, a: Json, b: Json, i: nat)
    requires a.Arr? && b.Arr? && i < Min(|a.items|, |b.items|)
    ensures var kids, next := Children(a, b), Walk(e, path + "/" + Itoa(i), a.items[i], b.items[i]);
            && |kids| == Min(|a.items|, |b.items|)
            && WalkFirst(e, path, a, kids, i + 1) == WalkFirst(e, path, a, kids, i) + next
  {
    var kids := Children(a, b);
    WalkNext(e, path, a, kids, i);
    IndexNeedsNoEscape(i);
    assert kids[i] == Child(Itoa(i), Some(a.items[i]), Some(b.items[i]));
  }

  lemma ArrayWalk(e: Engine, path: string, a: Json, b: Json)
    requires a.Arr? && b.Arr? && !e.Asks(path, a, b)
    ensures Walk(e, path, a, b)
         == Here(e, path, a, b) + WalkFirst(e, path, a, Children(a, b), |Children(a, b)|)
  {
    var kids := Children(a, b);
    assert kids[..|kids|] == kids;
  }

  lemma {:induction false} HeaderEventsSplit(e: Engine, h: Headers, g: Headers, x: seq<string>, y: seq<string>)
    ensures HeaderEvents(e, h, g, x + y) == HeaderEvents(e, h, g, x) + HeaderEvents(e, h, g, y)
  {
    if x == [] {
      assert x + y == y;
    } else {
      assert (x + y)[1..] == x[1..] + y;
      HeaderEventsSplit(e, h, g, x[1..], y);
      Associative(HeaderEvent(e, h, g, x[0]), HeaderEvents(e, h, g, x[1..]), HeaderEvents(e, h, g, y));
    }
  }

  ghost function HeaderFirst(e: Engine, h: Headers, g: Headers, names: seq<string>, i: nat): seq<Event>
    requires i <= |names|
  {
    HeaderEvents(e, h, g, names[..i])
  }

  lemma HeaderNext(e: Engine, h: Headers, g: Headers, names: seq<string>, i: nat)
    requires i < |names|
    ensures HeaderFirst(e, h, g, names, i + 1) == HeaderFirst(e, h, g, names, i) + HeaderEvent(e, h, g, names[i])
  {
    assert names[..i + 1] == names[..i] + [names[i]];
    HeaderEventsSplit(e, h, g, names[..i], [names[i]]);
    assert [names[i]][1..] == [];
    assert HeaderEvents(e, h, g, [names[i]]) == HeaderEvent(e, h, g, names[i]) + [];
  }

  lemma OneMoreName(e: Engine, h2: Headers, h: Headers, g2: Headers, g: Headers, names: seq<string>, i: nat,
                    k: Option<string>, a: string, l: Option<string>, b: string)
    requires i < |names| && Distinct(names) && KeepsOne(h2, h, names[..i]) && KeepsOne(g2, g, names[..i])
    requires MayRead(h, names[i], k, a) && MayRead(g, names[i], l, b)
    ensures KeepsOne(With(h2, h, k), h, names[..i + 1]) && KeepsOne(With(g2, g, l), g, names[..i + 1])
    ensures HeaderFirst(e, With(h2, h, k), With(g2, g, l), names, i + 1) ==
            HeaderFirst(e, h2, g2, names, i) + EventBetween(e, names[i], a, b)
  {
    KeepsOneMore(h2, h, names, i, k, a);
    KeepsOneMore(g2, g, names, i, l, b);
    HeaderNext(e, With(h2, h, k), With(g2, g, l), names, i);
    HeaderEventsFrame(e, h2, g2, With(h2, h, k), With(g2, g, l), names[..i]);
  }

  lemma LowerIdempotent(h: Headers, g: Headers, name: string)
    requires name in HeaderNames(h, g)
    ensures Lower(name) == name
  {
    var k :| k in h.Keys + g.Keys && Lower(k) == name;
  }

  // ----- Header names that differ in letter case only ---------------------------------------------

  /** What a scan for a name may come up with: one of the headers of that name, or nothing. */
  ghost predicate MayRead(h: Headers, name: string, key: Option<string>, value: string) {
    match key
    case None => value == "" && forall k | k in h :: Lower(k) != name
    case Some(k) => k in h && Lower(k) == name && value == Join(h[k])
  }

  /** g keeps, of the headers of h with these names, one per name. */
  ghost predicate KeepsOne(g: Headers, h: Headers, names: seq<string>) {
    && FoldDistinct(g)
    && (forall k | k in g :: k in h && g[k] == h[k] && Lower(k) in names)
    && (forall k | k in h && Lower(k) in names :: exists l :: l in g && Lower(l) == Lower(k))
  }

  /** g keeps, of the headers of h outside the transport ones, one per name. */
  ghost predicate Narrows(g: Headers, h: Headers) {
    && FoldDistinct(g)
    && (forall k | k in g :: k in h && g[k] == h[k] && Lower(k) !in TRANSPORT_HEADERS)
    && (forall k | k in h && Lower(k) !in TRANSPORT_HEADERS :: exists l :: l in g && Lower(l) == Lower(k))
  }

  function With(g: Headers, h: Headers, key: Option<string>): Headers
    requires key.Some? ==> key.value in h
  {
    if key.None? then g else g[key.value := h[key.value]]
  }

  lemma ValueOf(h: Headers, name: string, key: Option<string>, value: string)
    requires FoldDistinct(h) && MayRead(h, name, key, value)
    ensures HeaderValue(h, name) == value
  {}

  /** One more name read. */
  lemma KeepsOneMore(g: Headers, h: Headers, names: seq<string>, i: nat, key: Option<string>, value: string)
    requires i < |names| && Distinct(names) && KeepsOne(g, h, names[..i])
    requires MayRead(h, names[i], key, value)
    ensures KeepsOne(With(g, h, key), h, names[..i + 1])
    ensures HeaderValue(With(g, h, key), names[i]) == value
    ensures forall name | name in names[..i] :: HeaderValue(With(g, h, key), name) == HeaderValue(g, name)
  {
    assert names[..i + 1] == names[..i] + [names[i]];
    assert names[i] !in names[..i];
    NewNameIsApart(g, h, names[..i], names[i], key);
    KeepsThisToo(g, h, names[..i], names[i], key, value);
    ValueOf(With(g, h, key), names[i], key, value);
    forall name | name in names[..i] ensures HeaderValue(With(g, h, key), name) == HeaderValue(g, name) {
      OtherNamesStay(g, h, name, names[i], key);
    }
  }

  lemma KeepsThisToo(g: Headers, h: Headers, names: seq<string>, name: string, key: Option<string>, value: string)
    requires KeepsOne(g, h, names) && name !in names && MayRead(h, name, key, value)
    requires FoldDistinct(With(g, h, key))
    ensures KeepsOne(With(g, h, key), h, names + [name]) && MayRead(With(g, h, key), name, key, value)
  {
    var w := With(g, h, key);
    forall k | k in h && Lower(k) in names + [name] ensures exists l :: l in w && Lower(l) == Lower(k) {
      KeepsSpelling(g, h, names, name, key, value, k);
    }
    KeepsValues(g, h, names, name, key, value);
  }

  lemma KeepsValues(g: Headers, h: Headers, names: seq<string>, name: string, key: Option<string>, value: string)
    requires KeepsOne(g, h, names) && name !in names && MayRead(h, name, key, value)
    ensures var w := With(g, h, key);
            && (forall k | k in w :: k in h && w[k] == h[k] && Lower(k) in names + [name])
            && MayRead(w, name, key, value)
  {}

  lemma KeepsSpelling(g: Headers, h: Headers, names: seq<string>, name: string, key: Option<string>, value: string,
                      k: string)
    requires KeepsOne(g, h, names) && MayRead(h, name, key, value)
    requires k in h && Lower(k) in names + [name]
    ensures exists l :: l in With(g, h, key) && Lower(l) == Lower(k)
  {
    if Lower(k) in names {
      var l :| l in g && Lower(l) == Lower(k);
      assert l in With(g, h, key);
    } else {
      assert Lower(k) == name;
    }
  }

  lemma NewNameIsApart(g: Headers, h: Headers, names: seq<string>, name: string, key: Option<string>)
    requires KeepsOne(g, h, names) && name !in names
    requires key.Some? ==> key.value in h && Lower(key.value) == name
    ensures FoldDistinct(With(g, h, key))
    ensures forall k | k in g :: Lower(k) != name
  {}

  lemma OtherNamesStay(g: Headers, h: Headers, name: string, other: string, key: Option<string>)
    requires key.Some? ==> key.value in h && Lower(key.value) == other
    requires FoldDistinct(g) && FoldDistinct(With(g, h, key)) && name != other
    ensures HeaderValue(With(g, h, key), name) == HeaderValue(g, name)
  {
    if k :| k in g && Lower(k) == name {
      ValueOf(g, name, Some(k), Join(g[k]));
      ValueOf(With(g, h, key), name, Some(k), Join(g[k]));
    } else {
      ValueOf(g, name, None, "");
      ValueOf(With(g, h, key), name, None, "");
    }
  }

  lemma {:induction false} HeaderEventsFrame(e: Engine, h: Headers, g: Headers, h': Headers, g': Headers,
                                             names: seq<string>)
    requires forall name | name in names ::
               HeaderValue(h, name) == HeaderValue(h', name) && HeaderValue(g, name) == HeaderValue(g', name)
    ensures HeaderEvents(e, h, g, names) == HeaderEvents(e, h', g', names)
  {
    if names == [] {
    } else {
      assert names[0] in names;
      HeaderEventsFrame(e, h, g, h', g', names[1..]);
    }
  }

  function SideNames(h: Headers): set<string> {
    set k | k in h && Lower(k) !in TRANSPORT_HEADERS :: Lower(k)
  }

  lemma NamesOfSides(h: Headers, g: Headers)
    ensures HeaderNames(h, g) == SideNames(h) + SideNames(g)
  {}

  lemma NarrowKeepsNames(g: Headers, h: Headers)
    requires Narrows(g, h)
    ensures SideNames(g) == SideNames(h)
  {
    forall name ensures name in SideNames(g) <==> name in SideNames(h) {
      if name in SideNames(h) { NarrowKeepsName(g, h, name); }
      if name in SideNames(g) { NarrowAddsNoName(g, h, name); }
    }
  }

  lemma NarrowKeepsName(g: Headers, h: Headers, name: string)
    requires Narrows(g, h) && name in SideNames(h)
    ensures name in SideNames(g)
  {
    var k :| k in h && Lower(k) !in TRANSPORT_HEADERS && Lower(k) == name;
    var l :| l in g && Lower(l) == Lower(k);
  }

  lemma NarrowAddsNoName(g: Headers, h: Headers, name: string)
    requires Narrows(g, h) && name in SideNames(g)
    ensures name in SideNames(h)
  {
    var k :| k in g && Lower(k) !in TRANSPORT_HEADERS && Lower(k) == name;
    assert k in h;
  }

  lemma HeaderNamesMeans(h: Headers, g: Headers)
    ensures forall x | x in HeaderNames(h, g) :: x !in TRANSPORT_HEADERS
    ensures forall k | k in h && Lower(k) !in TRANSPORT_HEADERS :: Lower(k) in HeaderNames(h, g)
    ensures forall k | k in g && Lower(k) !in TRANSPORT_HEADERS :: Lower(k) in HeaderNames(h, g)
  {
    forall k | k in h || k in g ensures k in h.Keys + g.Keys {}
  }

  /** All names read: nothing but the choice among spellings has been made. */
  lemma KeptAll(h2: Headers, h: Headers, g2: Headers, g: Headers)
    requires var names := SortedSeq(HeaderNames(h, g)); KeepsOne(h2, h, names) && KeepsOne(g2, g, names)
    ensures Narrows(h2, h) && Narrows(g2, g) && HeaderNames(h2, g2) == HeaderNames(h, g)
  {
    SortedSeqProperties(HeaderNames(h, g));
    HeaderNamesMeans(h, g);
    NarrowsAll(h2, h, SortedSeq(HeaderNames(h, g)), HeaderNames(h, g));
    NarrowsAll(g2, g, SortedSeq(HeaderNames(h, g)), HeaderNames(h, g));
    NarrowKeepsNames(h2, h);
    NarrowKeepsNames(g2, g);
    NamesOfSides(h, g);
    NamesOfSides(h2, g2);
  }

  lemma NarrowsAll(g: Headers, h: Headers, names: seq<string>, s: set<string>)
    requires KeepsOne(g, h, names) && forall x :: x in names <==> x in s
    requires forall x | x in s :: x !in TRANSPORT_HEADERS
    requires forall k | k in h && Lower(k) !in TRANSPORT_HEADERS :: Lower(k) in s
    ensures Narrows(g, h)
  {}

  /** Where no two names differ in letter case only there is no choice to make. */
  lemma NoChoice(g: Headers, h: Headers, name: string)
    requires Narrows(g, h) && FoldDistinct(h) && name !in TRANSPORT_HEADERS
    ensures HeaderValue(g, name) == HeaderValue(h, name)
  {
    if k :| k in h && Lower(k) == name {
      var l :| l in g && Lower(l) == Lower(k);
      ValueOf(g, name, Some(l), Join(g[l]));
      ValueOf(h, name, Some(l), Join(h[l]));
    } else {
      ValueOf(g, name, None, "");
      ValueOf(h, name, None, "");
    }
  }

  /** A pair as it is read: one spelling of each header name. */
  ghost predicate ReadAs(q: Pair, p: Pair) {
    && Narrows(q.primary.resHeaders, p.primary.resHeaders)
    && Narrows(q.shadow.resHeaders, p.shadow.resHeaders)
    && HeaderNames(q.primary.resHeaders, q.shadow.resHeaders) ==
         HeaderNames(p.primary.resHeaders, p.shadow.resHeaders)
    && q == Pair(p.correlId, p.primary.(resHeaders := q.primary.resHeaders),
                 p.shadow.(resHeaders := q.shadow.resHeaders))
  }

  lemma ReadAsIs(e: Engine, q: Pair, p: Pair)
    requires ReadAs(q, p) && FoldDistinct(p.primary.resHeaders) && FoldDistinct(p.shadow.resHeaders)
    ensures ResultOf(e, q) == ResultOf(e, p)
  {
    var s := HeaderNames(p.primary.resHeaders, p.shadow.resHeaders);
    SortedSeqProperties(s);
    forall name | name in SortedSeq(s)
      ensures HeaderValue(q.primary.resHeaders, name) == HeaderValue(p.primary.resHeaders, name)
      ensures HeaderValue(q.shadow.resHeaders, name) == HeaderValue(p.shadow.resHeaders, name)
    {
      NoChoice(q.primary.resHeaders, p.primary.resHeaders, name);
      NoChoice(q.shadow.resHeaders, p.shadow.resHeaders, name);
    }
    HeaderEventsFrame(e, q.primary.resHeaders, q.shadow.resHeaders,
                      p.primary.resHeaders, p.shadow.resHeaders, SortedSeq(s));
  }

  // ----- The engine -------------------------------------------------------------------------------------

  /** Result: the identification of the pair, what was reported, and how much was hidden. */
  datatype Result = Result(correlId: string, httpMethod: string, url: string,
                           differences: seq<Difference>, suppressed: nat)
  {
    predicate Identical() {
      differences == []
    }
  }

  ghost function ResultOf(e: Engine, p: Pair): Result {
    var events := PairEvents(e, p);
    Result(p.correlId, p.primary.httpMethod, p.primary.url, Reported(events), Hidden(events))
  }

  class Sink {
    const e: Engine
    var differences: seq<Difference>
    var suppressed: nat

    constructor (e: Engine)
      ensures this.e == e && differences == [] && suppressed == 0
    {
      this.e := e;
      differences, suppressed := [], 0;
    }

    /** This sink has taken in these events since the state given by d and n. */
    ghost predicate TookIn(events: seq<Event>, d: seq<Difference>, n: nat)
      reads this
    {
      differences == d + Reported(events) && suppressed == n + Hidden(events)
    }

    /** Taking in some events and then some more. */
    lemma TookInMore(x: seq<Event>, y: seq<Event>, d: seq<Difference>, n: nat, d': seq<Difference>, n': nat)
      requires d' == d + Reported(x) && n' == n + Hidden(x)
      requires TookIn(y, d', n')
      ensures TookIn(x + y, d, n)
    {
      EventsConcat(x, y);
      Associative(d, Reported(x), Reported(y));
    }

    method Suppressed(path: string, primary: Json, shadow: Json) returns (yes: bool)
      modifies this
      ensures yes == e.Asks(path, primary, shadow)
      ensures TookIn(if yes then [Hid(path, primary, shadow)] else [], old(differences), old(suppressed))
    {
      if e.suppressor.NoRules? || !e.suppressor.ask(path, primary, shadow) {
        return false;
      }
      suppressed := suppressed + 1;
      return true;
    }

    method Add(kind: Kind, path: string, primary: Json, shadow: Json)
      modifies this
      ensures TookIn(Offer(e, kind, path, primary, shadow), old(differences), old(suppressed))
    {
      var dropped := Suppressed(path, primary, shadow);
      if !dropped {
        differences := differences + [Difference(kind, path, primary, shadow)];
      }
    }

    method Compare(path: string, a: Json, b: Json)
      modifies this
      ensures TookIn(Walk(e, path, a, b), old(differences), old(suppressed))
      decreases a, 1
    {
      if TypeName(a) != TypeName(b) {
        assert Children(a, b) == [];
        assert Here(e, path, a, b) + [] == Here(e, path, a, b);
        Add(Shape, path, Str(TypeName(a)), Str(TypeName(b)));
        return;
      }
      TypeNames(a, b);
      match a {
        case Obj(f) => CompareObjects(path, a, b);
        case Arr(x) => CompareArrays(path, a, b);
        case _ =>
          assert Here(e, path, a, b) + [] == Here(e, path, a, b);
          if !ScalarEqual(e.num, a, b) {
            Add(BodyVal, path, a, b);
          }
      }
    }

    method CompareObjects(path: string, a: Json, b: Json)
      requires a.Obj? && b.Obj?
      modifies this
      ensures TookIn(Walk(e, path, a, b), old(differences), old(suppressed))
      decreases a, 0, 1
    {
      var keys := SortedKeys(a.fields, b.fields);
      ghost var kids := Children(a, b);
      var i := 0;
      while i < |keys|
        invariant 0 <= i <= |keys| == |kids|
        invariant TookIn(WalkFirst(e, path, a, kids, i), old(differences), old(suppressed))
      {
        WalkNext(e, path, a, kids, i);
        assert kids[i] == Child(keys[i], Field(a.fields, keys[i]), Field(b.fields, keys[i]));
        ghost var d, n := differences, suppressed;
        CompareField(path, a, b, keys[i]);
        TookInMore(WalkFirst(e, path, a, kids, i), WalkChild(e, path, a, kids[i]),
                   old(differences), old(suppressed), d, n);
        i := i + 1;
      }
      ObjectWalk(e, path, a, b);
    }

    method CompareField(path: string, a: Json, b: Json, key: string)
      requires a.Obj? && b.Obj?
      modifies this
      ensures TookIn(WalkChild(e, path, a, Child(key, Field(a.fields, key), Field(b.fields, key))),
                     old(differences), old(suppressed))
      decreases a, 0, 0
    {
      var childPath := path + "/" + Escape(key);
      var left, right := Field(a.fields, key), Field(b.fields, key);
      if left.Some? && right.None? {
        Add(BodyKey, childPath, left.value, Null);
      } else if left.None? && right.Some? {
        Add(BodyKey, childPath, Null, right.value);
      } else if left.Some? {
        Compare(childPath, left.value, right.value);
      }
    }

    method CompareArrays(path: string, a: Json, b: Json)
      requires a.Arr? && b.Arr?
      modifies this
      ensures TookIn(Walk(e, path, a, b), old(differences), old(suppressed))
      decreases a, 0
    {
      var dropped := Suppressed(path, a, b);
      if dropped {
        return;
      }
      ghost var kids := Children(a, b);
      ghost var here := Here(e, path, a, b);
      if |a.items| != |b.items| {
        Add(Shape, path, Items(|a.items|), Items(|b.items|));
      }
      ghost var d0, n0 := differences, suppressed;
      var i := 0;
      while i < Min(|a.items|, |b.items|)
        invariant 0 <= i <= |kids| == Min(|a.items|, |b.items|)
        invariant TookIn(WalkFirst(e, path, a, kids, i), d0, n0)
      {
        ArrayWalkNext(e, path, a, b, i);
        ghost var d, n := differences, suppressed;
        Compare(path + "/" + Itoa(i), a.items[i], b.items[i]);
        TookInMore(WalkFirst(e, path, a, kids, i), Walk(e, path + "/" + Itoa(i), a.items[i], b.items[i]), d0, n0, d, n);
        i := i + 1;
      }
      ArrayWalk(e, path, a, b);
      TookInMore(here, WalkFirst(e, path, a, kids, |kids|), old(differences), old(suppressed), d0, n0);
    }

    method CompareStatus(p: int, s: int)
      modifies this
      ensures TookIn(StatusEvents(e, p, s), old(differences), old(suppressed))
    {
      if p != s {
        Add(Status, PATH_STATUS, StatusValue(p), StatusValue(s));
      }
    }

    /** Compare what a scan on either side comes up with. */
    method CompareHeader(h: Headers, g: Headers, name: string)
        returns (ghost k: Option<string>, ghost l: Option<string>, ghost a: string, ghost b: string)
      requires Lower(name) == name
      modifies this
      ensures MayRead(h, name, k, a) && MayRead(g, name, l, b)
      ensures TookIn(EventBetween(e, name, a, b), old(differences), old(suppressed))
    {
      var x, y;
      x, k := FindHeader(h, name);
      y, l := FindHeader(g, name);
      a, b := x, y;
      if x != y {
        Add(Header, PATH_HEADERS + "/" + name, Str(x), Str(y));
      }
    }

    /** Compare all headers, each under one of its spellings: those kept in h2 and g2. */
    method CompareHeaders(h: Headers, g: Headers) returns (ghost h2: Headers, ghost g2: Headers)
      modifies this
      ensures Narrows(h2, h) && Narrows(g2, g) && HeaderNames(h2, g2) == HeaderNames(h, g)
      ensures TookIn(HeaderEvents(e, h2, g2, SortedSeq(HeaderNames(h, g))), old(differences), old(suppressed))
    {
      var names := SortedNames(h, g);
      h2, g2 := CompareNamed(h, g, names);
      KeptAll(h2, h, g2, g);
    }

    method CompareNamed(h: Headers, g: Headers, names: seq<string>) returns (ghost h2: Headers, ghost g2: Headers)
      requires Distinct(names) && forall i | 0 <= i < |names| :: Lower(names[i]) == names[i]
      modifies this
      ensures KeepsOne(h2, h, names) && KeepsOne(g2, g, names)
      ensures TookIn(HeaderEvents(e, h2, g2, names), old(differences), old(suppressed))
    {
      h2, g2 := map[], map[];
      var i := 0;
      while i < |names|
        invariant 0 <= i <= |names|
        invariant KeepsOne(h2, h, names[..i]) && KeepsOne(g2, g, names[..i])
        invariant TookIn(HeaderFirst(e, h2, g2, names, i), old(differences), old(suppressed))
      {
        ghost var d, n := differences, suppressed;
        ghost var k, l, a, b := CompareHeader(h, g, names[i]);
        TookInMore(HeaderFirst(e, h2, g2, names, i), EventBetween(e, names[i], a, b),
                   old(differences), old(suppressed), d, n);
        OneMoreName(e, h2, h, g2, g, names, i, k, a, l, b);
        h2, g2 := With(h2, h, k), With(g2, g, l);
        i := i + 1;
      }
      assert names[..|names|] == names;
    }

    method CompareBodies(p: string, s: string)
      modifies this
      ensures TookIn(BodyEvents(e, p, s), old(differences), old(suppressed))
    {
      var a, b := e.decode(p), e.decode(s);
      if a.Some? && b.Some? {
        Compare(PATH_BODY, a.value, b.value);
      } else if a.Some? != b.Some? {
        Add(Shape, PATH_BODY, Jsonness(a), Jsonness(b));
      } else if p != s {
        Add(BodyVal, PATH_BODY, Str(p), Str(s));
      }
    }
  }

  lemma OneMoreKey(keys: seq<string>, seen: set<string>, k: string)
    requires multiset(keys) == multiset(seen) && k !in seen
    ensures multiset(keys + [k]) == multiset(seen + {k})
  {}

  /** Iterate over some keys in whatever order they come. */
  method Collect(ks: set<string>) returns (keys: seq<string>)
    ensures multiset(keys) == multiset(ks)
  {
    keys := [];
    var rest, seen := ks, {};
    while rest != {}
      invariant seen !! rest && seen + rest == ks && multiset(keys) == multiset(seen)
      decreases rest
    {
      var k :| k in rest;
      OneMoreKey(keys, seen, k);
      keys := keys + [k];
      seen, rest := seen + {k}, rest - {k};
    }
  }

  /** All keys of the one map, then the other map's keys not seen yet, sorted. */
  method SortedKeys(a: map<string, Json>, b: map<string, Json>) returns (keys: seq<string>)
    ensures keys == Keys(a, b)
  {
    var first := Collect(a.Keys);
    var second := Collect(b.Keys - a.Keys);
    assert multiset(a.Keys + (b.Keys - a.Keys)) == multiset(a.Keys) + multiset(b.Keys - a.Keys);
    assert a.Keys + (b.Keys - a.Keys) == a.Keys + b.Keys;
    SortCanonical(first + second, a.Keys + b.Keys);
    keys := Sort(Leq, first + second);
  }

  /** The names to compare, without the transport headers, sorted. */
  method SortedNames(h: Headers, g: Headers) returns (names: seq<string>)
    ensures names == SortedSeq(HeaderNames(h, g))
    ensures Distinct(names) && forall i | 0 <= i < |names| :: Lower(names[i]) == names[i]
  {
    var found := Collect(HeaderNames(h, g));
    SortCanonical(found, HeaderNames(h, g));
    names := Sort(Leq, found);
    SortedSeqProperties(HeaderNames(h, g));
    forall i | 0 <= i < |names| ensures Lower(names[i]) == names[i] {
      assert names[i] in names;
      LowerIdempotent(h, g, names[i]);
    }
  }

  /** Scan one response's headers for a name, whatever its letter case there. */
  method FindHeader(h: Headers, name: string) returns (value: string, ghost key: Option<string>)
    requires Lower(name) == name
    ensures MayRead(h, name, key, value)
    ensures FoldDistinct(h) ==> value == HeaderValue(h, name)
  {
    var rest := h.Keys;
    while rest != {}
      invariant rest <= h.Keys && forall k | k in h && k !in rest :: Lower(k) != name
      decreases rest
    {
      var k :| k in rest;
      if Lower(k) == Lower(name) {
        return Join(h[k]), Some(k);
      }
      rest := rest - {k};
    }
    return "", None;
  }

  /** Compare one pair, reading each header under one of its spellings. */
  method Compare(e: Engine, p: Pair) returns (r: Result, ghost q: Pair)
    ensures ReadAs(q, p) && r == ResultOf(e, q)
    ensures r.correlId == p.correlId && r.httpMethod == p.primary.httpMethod && r.url == p.primary.url
    ensures FoldDistinct(p.primary.resHeaders) && FoldDistinct(p.shadow.resHeaders) ==> r == ResultOf(e, p)
  {
    var s := new Sink(e);
    s.CompareStatus(p.primary.status, p.shadow.status);
    ghost var d, n := s.differences, s.suppressed;
    ghost var h2, g2 := s.CompareHeaders(p.primary.resHeaders, p.shadow.resHeaders);
    q := Pair(p.correlId, p.primary.(resHeaders := h2), p.shadow.(resHeaders := g2));
    ghost var status := StatusEvents(e, p.primary.status, p.shadow.status);
    ghost var headers := HeaderEvents(e, h2, g2, SortedSeq(HeaderNames(h2, g2)));
    s.TookInMore(status, headers, [], 0, d, n);
    d, n := s.differences, s.suppressed;
    s.CompareBodies(p.primary.resBody, p.shadow.resBody);
    s.TookInMore(status + headers, BodyEvents(e, p.primary.resBody, p.shadow.resBody), [], 0, d, n);
    r := Result(p.correlId, p.primary.httpMethod, p.primary.url, s.differences, s.suppressed);
    if FoldDistinct(p.primary.resHeaders) && FoldDistinct(p.shadow.resHeaders) {
      ReadAsIs(e, q, p);
    }
  }
}
