/** In which order a comparison reports: always the same for the same two responses. */
module DiffOrder {
  import opened Text
  import opened Sorting
  import opened Json
  import opened Collector
  import opened Diff
  import opened DiffPaths
  import opened DiffRules

  // ----- Places in a document ------------------------------------------------------------------------

  /** Items come by their index, keys by their bytes. */
  ghost predicate TokenBefore(v: Json, s: string, t: string) {
    match v
    case Arr(_) => ParseIndex(s).Some? && ParseIndex(t).Some? && ParseIndex(s).value < ParseIndex(t).value
    case Obj(_) => BytesBefore(s, t)
    case _ => false
  }

  /** Document order: a value comes before what is in it, and siblings come in their order. */
  ghost predicate PlaceBefore(v: Json, s: seq<string>, t: seq<string>)
    decreases |s|
  {
    if s == [] || t == [] then s == [] && t != []
    else if s[0] != t[0] then TokenBefore(v, s[0], t[0])
    else Lookup(v, s[0]).Some? && PlaceBefore(Lookup(v, s[0]).value, s[1..], t[1..])
  }

  ghost predicate InPlaceOrder(v: Json, path: string, p: string, q: string) {
    forall s, t :: p == path + Pointer(s) && q == path + Pointer(t) ==> PlaceBefore(v, s, t)
  }

  ghost predicate Ordered(v: Json, path: string, events: seq<Event>) {
    forall i, j | 0 <= i < j < |events| :: InPlaceOrder(v, path, PathOf(events[i]), PathOf(events[j]))
  }

  lemma OrderedConcat(v: Json, path: string, x: seq<Event>, y: seq<Event>)
    requires Ordered(v, path, x) && Ordered(v, path, y)
    requires forall ev, w | ev in x && w in y :: InPlaceOrder(v, path, PathOf(ev), PathOf(w))
    ensures Ordered(v, path, x + y)
  {}

  lemma SamePlace(path: string, s: seq<string>, t: seq<string>)
    requires path + Pointer(s) == path + Pointer(t)
    ensures s == t
  {
    if s != t { PlacesApart(path, s, t); }
  }

  /** Children are compared in the order of their tokens. */
  lemma ChildrenInOrder(a: Json, b: Json, i: nat, j: nat)
    requires i < j < |Children(a, b)|
    ensures TokenBefore(a, Children(a, b)[i].token, Children(a, b)[j].token)
  {
    if a.Arr? && b.Arr? {
      IndexRoundTrip(Itoa(i), i);
      IndexRoundTrip(Itoa(j), j);
    } else {
      var keys := Keys(a.fields, b.fields);
      SortedSeqProperties(a.fields.Keys + b.fields.Keys);
      LeqMeans(keys[i], keys[j]);
    }
  }

  ghost predicate KidsOf(a: Json, kids: seq<Child>) {
    && (forall kid | kid in kids :: kid.left.Some? ==> kid.left.value < a)
    && (forall i | 0 <= i < |kids| :: Lookup(a, kids[i].token) == kids[i].left)
    && (forall i, j | 0 <= i < j < |kids| :: TokenBefore(a, kids[i].token, kids[j].token))
  }

  lemma ChildrenAreKids(a: Json, b: Json)
    ensures KidsOf(a, Children(a, b))
  {
    var kids := Children(a, b);
    forall i | 0 <= i < |kids| ensures Lookup(a, kids[i].token) == kids[i].left { ChildIs(a, b, i); }
    forall i, j | 0 <= i < j < |kids| ensures TokenBefore(a, kids[i].token, kids[j].token) {
      ChildrenInOrder(a, b, i, j);
    }
  }

  lemma HereComesFirst(e: Engine, path: string, a: Json, b: Json, v: Event, w: Event)
    requires v in Here(e, path, a, b) && w in WalkAll(e, path, a, Children(a, b))
    ensures InPlaceOrder(a, path, PathOf(v), PathOf(w))
  {
    HereIsAbout(e, path, a, b, v);
    HereApart(e, path, a, b, v, w);
    forall s, t | PathOf(v) == path + Pointer(s) && PathOf(w) == path + Pointer(t) ensures PlaceBefore(a, s, t) {
      assert path + Pointer([]) == path;
      SamePlace(path, s, []);
    }
  }

  /** The events of a walk, reported or hidden, come in document order. */
  lemma {:induction false} WalkOrdered(e: Engine, path: string, a: Json, b: Json)
    ensures Ordered(a, path, Walk(e, path, a, b))
    decreases a, 1, 0
  {
    if !(a.Arr? && b.Arr? && e.Asks(path, a, b)) {
      ChildrenAreKids(a, b);
      WalkAllOrdered(e, path, a, Children(a, b));
      HereThenBelow(e, path, a, b);
    }
  }

  lemma HereThenBelow(e: Engine, path: string, a: Json, b: Json)
    requires Ordered(a, path, WalkAll(e, path, a, Children(a, b)))
    ensures Ordered(a, path, Here(e, path, a, b) + WalkAll(e, path, a, Children(a, b)))
  {
    AllHereComesFirst(e, path, a, b);
    OneIsOrdered(a, path, Here(e, path, a, b));
    OrderedConcat(a, path, Here(e, path, a, b), WalkAll(e, path, a, Children(a, b)));
  }

  lemma AllHereComesFirst(e: Engine, path: string, a: Json, b: Json)
    ensures forall v, w | v in Here(e, path, a, b) && w in WalkAll(e, path, a, Children(a, b)) ::
              InPlaceOrder(a, path, PathOf(v), PathOf(w))
    ensures |Here(e, path, a, b)| <= 1
  {
    var here, below := Here(e, path, a, b), WalkAll(e, path, a, Children(a, b));
    forall v, w | v in here && w in below ensures InPlaceOrder(a, path, PathOf(v), PathOf(w)) {
      HereComesFirst(e, path, a, b, v, w);
    }
  }

  lemma OneIsOrdered(v: Json, path: string, events: seq<Event>)
    requires |events| <= 1
    ensures Ordered(v, path, events)
  {}

  lemma EarlierChildFirst(e: Engine, path: string, a: Json, kids: seq<Child>, v: Event, w: Event)
    requires kids != [] && KidsOf(a, kids) && kids[0] in kids
    requires v in WalkChild(e, path, a, kids[0]) && w in WalkAll(e, path, a, kids[1..])
    ensures InPlaceOrder(a, path, PathOf(v), PathOf(w))
  {
    var i := FromWhichChild(e, path, a, kids[1..], w);
    assert kids[1..][i] == kids[i + 1];
    var s' := ChildEventPath(e, path, a, kids[0], v);
    var t' := ChildEventPath(e, path, a, kids[i + 1], w);
    assert TokenBefore(a, s'[0], t'[0]);
    TokensDiffer(a, s'[0], t'[0]);
    forall s, t | PathOf(v) == path + Pointer(s) && PathOf(w) == path + Pointer(t) ensures PlaceBefore(a, s, t) {
      SamePlace(path, s, s');
      SamePlace(path, t, t');
    }
  }

  lemma TokensDiffer(v: Json, s: string, t: string)
    requires TokenBefore(v, s, t)
    ensures s != t
  {}

  lemma {:induction false} WalkAllOrdered(e: Engine, path: string, a: Json, kids: seq<Child>)
    requires KidsOf(a, kids)
    ensures Ordered(a, path, WalkAll(e, path, a, kids))
    decreases a, 0, |kids|
  {
    if kids == [] {
    } else {
      var kid, rest := kids[0], WalkAll(e, path, a, kids[1..]);
      assert kid in kids;
      ChildOrdered(e, path, a, kid);
      RestAreKids(a, kids);
      WalkAllOrdered(e, path, a, kids[1..]);
      forall v, w | v in WalkChild(e, path, a, kid) && w in rest ensures InPlaceOrder(a, path, PathOf(v), PathOf(w)) {
        EarlierChildFirst(e, path, a, kids, v, w);
      }
      OrderedConcat(a, path, WalkChild(e, path, a, kid), rest);
    }
  }

  lemma RestAreKids(a: Json, kids: seq<Child>)
    requires KidsOf(a, kids) && kids != []
    ensures KidsOf(a, kids[1..])
  {}

  lemma {:induction false} ChildOrdered(e: Engine, path: string, a: Json, kid: Child)
    requires (kid.left.Some? ==> kid.left.value < a) && Lookup(a, kid.token) == kid.left
    ensures Ordered(a, path, WalkChild(e, path, a, kid))
    decreases a, 0, 0
  {
    if kid.left.Some? && kid.right.Some? {
      WalkOrdered(e, ChildPath(path, kid.token), kid.left.value, kid.right.value);
      LiftOrder(e, path, a, kid, Walk(e, ChildPath(path, kid.token), kid.left.value, kid.right.value));
    } else {
      OneSidedIsOne(e, path, a, kid);
      OneIsOrdered(a, path, WalkChild(e, path, a, kid));
    }
  }

  lemma OneSidedIsOne(e: Engine, path: string, a: Json, kid: Child)
    requires (kid.left.Some? ==> kid.left.value < a) && (kid.left.None? || kid.right.None?)
    ensures |WalkChild(e, path, a, kid)| <= 1
  {}

  /** Document order in a child is document order in its parent. */
  lemma LiftOrder(e: Engine, path: string, a: Json, kid: Child, events: seq<Event>)
    requires kid.left.Some? && kid.right.Some? && kid.left.value < a && Lookup(a, kid.token) == kid.left
    requires events == WalkChild(e, path, a, kid)
    requires Ordered(kid.left.value, ChildPath(path, kid.token), events)
    ensures Ordered(a, path, events)
  {
    forall i, j | 0 <= i < j < |events| ensures InPlaceOrder(a, path, PathOf(events[i]), PathOf(events[j])) {
      InChildInOrder(e, path, a, kid, events[i], events[j]);
    }
  }

  lemma InChildInOrder(e: Engine, path: string, a: Json, kid: Child, v: Event, w: Event)
    requires kid.left.Some? && kid.right.Some? && kid.left.value < a && Lookup(a, kid.token) == kid.left
    requires v in WalkChild(e, path, a, kid) && w in WalkChild(e, path, a, kid)
    requires InPlaceOrder(kid.left.value, ChildPath(path, kid.token), PathOf(v), PathOf(w))
    ensures InPlaceOrder(a, path, PathOf(v), PathOf(w))
  {
    var s' := LocateInChild(e, path, a, kid, v);
    var t' := LocateInChild(e, path, a, kid, w);
    assert PlaceBefore(kid.left.value, s', t');
    PathStep(path, kid.token, s');
    PathStep(path, kid.token, t');
    forall s, t | PathOf(v) == path + Pointer(s) && PathOf(w) == path + Pointer(t) ensures PlaceBefore(a, s, t) {
      SamePlace(path, s, [kid.token] + s');
      SamePlace(path, t, [kid.token] + t');
      assert s[1..] == s' && t[1..] == t';
    }
  }

  // ----- Whole results -----------------------------------------------------------------------------------

  function HeaderPath(name: string): string {
    "/headers/" + name
  }

  function BodyPlace(tokens: seq<string>): string {
    "/body" + Pointer(tokens)
  }

  /** What is reported at p comes before what is reported at q: the status first, then the headers
      by the bytes of their names, then the body in document order. */
  ghost predicate Precedes(doc: Option<Json>, p: string, q: string) {
    && q != "/status"
    && (forall m, n :: p == HeaderPath(m) && q == HeaderPath(n) ==> BytesBefore(m, n))
    && ("/body" <= p ==> "/body" <= q)
    && (doc.Some? ==> forall s, t :: p == BodyPlace(s) && q == BodyPlace(t) ==> PlaceBefore(doc.value, s, t))
  }

  ghost predicate AllInOrder(doc: Option<Json>, events: seq<Event>) {
    forall i, j | 0 <= i < j < |events| :: Precedes(doc, PathOf(events[i]), PathOf(events[j]))
  }

  lemma AllInOrderConcat(doc: Option<Json>, x: seq<Event>, y: seq<Event>)
    requires AllInOrder(doc, x) && AllInOrder(doc, y)
    requires forall v, w | v in x && w in y :: Precedes(doc, PathOf(v), PathOf(w))
    ensures AllInOrder(doc, x + y)
  {}

  /** The primary's document, when both bodies are documents. */
  function Document(e: Engine, p: Pair): Option<Json> {
    if e.decode(p.shadow.resBody).Some? then e.decode(p.primary.resBody) else None
  }

  lemma StatusBefore(doc: Option<Json>, q: string)
    requires q != "/status"
    ensures Precedes(doc, "/status", q)
  {
    forall m ensures "/status" != HeaderPath(m) { assert HeaderPath(m)[1] == 'h' && "/status"[1] == 's'; }
    forall s ensures "/status" != BodyPlace(s) { assert BodyPlace(s)[1] == 'b' && "/status"[1] == 's'; }
    assert "/status"[1] == 's' && "/body"[1] == 'b';
  }

  lemma HeaderBefore(doc: Option<Json>, name: string, q: string)
    requires q != "/status" && forall n :: q == HeaderPath(n) ==> BytesBefore(name, n)
    ensures Precedes(doc, HeaderPath(name), q)
  {
    var p := HeaderPath(name);
    assert p[1] == 'h' && "/body"[1] == 'b';
    forall s ensures p != BodyPlace(s) { assert BodyPlace(s)[1] == 'b'; }
    forall m | p == HeaderPath(m) ensures m == name { SameTail("/headers/", m, name); }
  }

  lemma {:induction false} HeadersInOrder(doc: Option<Json>, e: Engine, h: Headers, g: Headers, names: seq<string>)
    requires forall i, j | 0 <= i < j < |names| :: BytesBefore(names[i], names[j])
    ensures AllInOrder(doc, HeaderEvents(e, h, g, names))
  {
    if names == [] {
    } else {
      var first, rest := HeaderEvent(e, h, g, names[0]), HeaderEvents(e, h, g, names[1..]);
      HeadersInOrder(doc, e, h, g, names[1..]);
      forall v, w | v in first && w in rest ensures Precedes(doc, PathOf(v), PathOf(w)) {
        FirstHeaderBefore(doc, e, h, g, names, v, w);
      }
      AllInOrderConcat(doc, first, rest);
    }
  }

  lemma FirstHeaderBefore(doc: Option<Json>, e: Engine, h: Headers, g: Headers, names: seq<string>, v: Event, w: Event)
    requires forall i, j | 0 <= i < j < |names| :: BytesBefore(names[i], names[j])
    requires names != [] && v in HeaderEvent(e, h, g, names[0]) && w in HeaderEvents(e, h, g, names[1..])
    ensures Precedes(doc, PathOf(v), PathOf(w))
  {
    var i := HeaderEventFrom(e, h, g, names[1..], w);
    EventBetweenPath(e, names[0], HeaderValue(h, names[0]), HeaderValue(g, names[0]), v);
    assert names[1..][i] == names[i + 1] && PATH_HEADERS + "/" == "/headers/";
    NamesInOrder(doc, names[0], names[i + 1]);
  }

  lemma NamesInOrder(doc: Option<Json>, m: string, n: string)
    requires BytesBefore(m, n)
    ensures Precedes(doc, HeaderPath(m), HeaderPath(n))
  {
    var q := HeaderPath(n);
    assert q[1] == 'h' && "/status"[1] == 's';
    forall x | q == HeaderPath(x) ensures x == n { SameTail("/headers/", x, n); }
    HeaderBefore(doc, m, q);
  }

  lemma BodyInOrder(e: Engine, p: Pair)
    ensures AllInOrder(Document(e, p), BodyEvents(e, p.primary.resBody, p.shadow.resBody))
  {
    var a, b := e.decode(p.primary.resBody), e.decode(p.shadow.resBody);
    var events := BodyEvents(e, p.primary.resBody, p.shadow.resBody);
    if a.Some? && b.Some? { WalkOrdered(e, PATH_BODY, a.value, b.value); }
    forall i, j | 0 <= i < j < |events| ensures Precedes(Document(e, p), PathOf(events[i]), PathOf(events[j])) {
      BodyPath(e, p.primary.resBody, p.shadow.resBody, events[i]);
      BodyPath(e, p.primary.resBody, p.shadow.resBody, events[j]);
      WithinBody(e, PATH_BODY, a.value, PathOf(events[i]), PathOf(events[j]));
    }
  }

  lemma WithinBody(e: Engine, path: string, a: Json, p: string, q: string)
    requires path == "/body" && path <= p && path <= q && InPlaceOrder(a, path, p, q)
    ensures Precedes(Some(a), p, q)
  {
    assert p[1] == 'b' && q[1] == 'b' && "/status"[1] == 's';
    forall m ensures p != HeaderPath(m) { assert HeaderPath(m)[1] == 'h'; }
  }

  lemma TopBeforeBody(doc: Option<Json>, p: string, q: string)
    requires !("/body" <= p) && "/body" <= q
    ensures Precedes(doc, p, q)
  {
    assert q[1] == 'b' && "/status"[1] == 's';
    forall n ensures q != HeaderPath(n) { assert HeaderPath(n)[1] == 'h'; }
    forall s ensures p != BodyPlace(s) { assert "/body" <= BodyPlace(s); }
  }

  lemma TopInOrder(doc: Option<Json>, e: Engine, p: Pair)
    ensures AllInOrder(doc, TopEvents(e, p))
  {
    var h, g := p.primary.resHeaders, p.shadow.resHeaders;
    var names := SortedSeq(HeaderNames(h, g));
    var status, headers := StatusEvents(e, p.primary.status, p.shadow.status), HeaderEvents(e, h, g, names);
    SortedAscends(HeaderNames(h, g));
    HeadersInOrder(doc, e, h, g, names);
    forall v, w | v in status && w in headers ensures Precedes(doc, PathOf(v), PathOf(w)) {
      StatusBeforeHeader(doc, e, p, v, w, names);
    }
    AllInOrderConcat(doc, status, headers);
  }

  lemma StatusBeforeHeader(doc: Option<Json>, e: Engine, p: Pair, v: Event, w: Event, names: seq<string>)
    requires v in StatusEvents(e, p.primary.status, p.shadow.status)
    requires w in HeaderEvents(e, p.primary.resHeaders, p.shadow.resHeaders, names)
    ensures Precedes(doc, PathOf(v), PathOf(w))
  {
    var i := HeaderEventFrom(e, p.primary.resHeaders, p.shadow.resHeaders, names, w);
    AtHeaderPath(names[i], PathOf(w));
    AtStatus(e, p.primary.status, p.shadow.status, v);
    StatusBefore(doc, PathOf(w));
  }

  lemma AtStatus(e: Engine, p: int, s: int, v: Event)
    requires v in StatusEvents(e, p, s)
    ensures PathOf(v) == "/status"
  {}

  lemma AtHeaderPath(name: string, path: string)
    requires path == PATH_HEADERS + "/" + name
    ensures path != "/status"
  {
    assert PATH_HEADERS + "/" == "/headers/";
    HeaderIsNoStatus(name);
  }

  lemma HeaderIsNoStatus(name: string)
    ensures HeaderPath(name) != "/status"
  {
    assert HeaderPath(name)[1] == 'h' && "/status"[1] == 's';
  }

  lemma PairInOrder(e: Engine, p: Pair)
    ensures AllInOrder(Document(e, p), PairEvents(e, p))
  {
    var doc, body := Document(e, p), BodyEvents(e, p.primary.resBody, p.shadow.resBody);
    TopInOrder(doc, e, p);
    BodyInOrder(e, p);
    forall v, w | v in TopEvents(e, p) && w in body ensures Precedes(doc, PathOf(v), PathOf(w)) {
      TopEvent(e, p, v);
      BodyPath(e, p.primary.resBody, p.shadow.resBody, w);
      TopBeforeBody(doc, PathOf(v), PathOf(w));
    }
    AllInOrderConcat(doc, TopEvents(e, p), body);
  }

  lemma ReportedGrows(events: seq<Event>, k: nat, l: nat)
    requires k <= l <= |events|
    ensures |Reported(events[..k])| <= |Reported(events[..l])|
  {
    assert events[..l] == events[..k] + events[k..l];
    EventsConcat(events[..k], events[k..l]);
  }

  /** The differences of a result come in one order: the status, then the headers by the bytes of
      their names, then the places of the body in document order, where items come by index and
      keys by their bytes. */
  lemma ReportOrder(e: Engine, p: Pair, i: nat, j: nat)
    requires i < j < |ResultOf(e, p).differences|
    ensures var ds := ResultOf(e, p).differences; Precedes(Document(e, p), ds[i].path, ds[j].path)
  {
    var events := PairEvents(e, p);
    var k := ReportedFrom(events, i);
    var l := ReportedFrom(events, j);
    if l <= k { ReportedGrows(events, l, k); }
    PairInOrder(e, p);
    assert Precedes(Document(e, p), PathOf(events[k]), PathOf(events[l]));
  }
}
