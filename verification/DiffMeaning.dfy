/** What a comparison says, in terms of the two responses and of nothing else. */
module DiffMeaning {
  import opened Text
  import opened Sorting
  import opened Json
  import opened Collector
  import opened Diff
  import opened DiffPaths
  import opened DiffRules

  // ----- Bodies, place by place -----------------------------------------------------------------

  /** What two documents hold at one place is the same as far as this place goes: nothing on
      either side, or two leaves that are equal, two arrays of one length, or two objects. */
  ghost predicate SameThere(num: Valuation, x: Option<Json>, y: Option<Json>) {
    match (x, y)
    case (None, None) => true
    case (Some(v), Some(w)) =>
      (match (v, w)
       case (Null, Null) => true
       case (Bool(b), Bool(c)) => b == c
       case (Str(s), Str(t)) => s == t
       case (Num(s), Num(t)) =>
         if num(s).Some? && num(t).Some? then num(s).value == num(t).value else s == t
       case (Arr(xs), Arr(ys)) => |xs| == |ys|
       case (Obj(_), Obj(_)) => true
       case _ => false)
    case _ => false
  }

  lemma DivergeMeans(num: Valuation, x: Option<Json>, y: Option<Json>)
    ensures Diverge(num, x, y) <==> !SameThere(num, x, y)
  {
    if x.Some? && y.Some? { TypeNames(x.value, y.value); }
  }

  lemma GenuineIsNotSame(num: Valuation, d: Difference, x: Option<Json>, y: Option<Json>)
    requires Genuine(num, d, x, y)
    ensures !SameThere(num, x, y)
  {
    if x.Some? && y.Some? { TypeNames(x.value, y.value); }
  }

  /** Without rules, wherever a pointer leads to different leaves, to arrays of different lengths,
      to different kinds of value, or to something on one side only, a difference is reported at
      that place or above it. */
  lemma DifferenceIsReported(e: Engine, path: string, a: Json, b: Json, tokens: seq<string>)
      returns (at: seq<string>, d: Difference)
    requires e.suppressor.NoRules? && !SameThere(e.num, Resolve(a, tokens), Resolve(b, tokens))
    ensures at <= tokens && Found(d) in Walk(e, path, a, b) && d.path == path + Pointer(at)
  {
    DivergeMeans(e.num, Resolve(a, tokens), Resolve(b, tokens));
    at, d := EveryDivergenceIsReported(e, path, a, b, tokens);
  }

  /** Every pointer leads to the same in both documents. */
  ghost predicate SameEverywhere(num: Valuation, a: Json, b: Json) {
    forall tokens :: SameThere(num, Resolve(a, tokens), Resolve(b, tokens))
  }

  /** Without rules, two documents have nothing to report if and only if every pointer leads to
      the same on both sides. */
  lemma SilentIffSameEverywhere(e: Engine, path: string, a: Json, b: Json)
    requires e.suppressor.NoRules?
    ensures Walk(e, path, a, b) == [] <==> SameEverywhere(e.num, a, b)
  {
    if Walk(e, path, a, b) == [] {
      forall tokens ensures SameThere(e.num, Resolve(a, tokens), Resolve(b, tokens)) {
        if !SameThere(e.num, Resolve(a, tokens), Resolve(b, tokens)) {
          var at, d := DifferenceIsReported(e, path, a, b, tokens);
          assert false;
        }
      }
      assert Walk(e, path, a, b) == [];
    } else {
      var ev := Walk(e, path, a, b)[0];
      var tokens := Locate(e, path, a, b, ev);
      GenuineIsNotSame(e.num, ev.d, Resolve(a, tokens), Resolve(b, tokens));
      assert !SameThere(e.num, Resolve(a, tokens), Resolve(b, tokens));
    }
  }

  // ----- What is said about it ---------------------------------------------------------------------

  /** The word for a kind of value. */
  ghost predicate Called(v: Json, word: string) {
    match word
    case "null" => v.Null?
    case "boolean" => v.Bool?
    case "number" => v.Num?
    case "string" => v.Str?
    case "array" => v.Arr?
    case "object" => v.Obj?
    case _ => false
  }

  lemma TypeNameIsCalled(v: Json, word: string)
    ensures Called(v, word) <==> word == TypeName(v)
  {}

  /** Two values of different kinds are reported as their two words, and as nothing else. */
  lemma KindsAreNamed(e: Engine, path: string, a: Json, b: Json, x: string, y: string)
    requires e.suppressor.NoRules? && x != y && Called(a, x) && Called(b, y)
    ensures Walk(e, path, a, b) == [Found(Difference(Shape, path, Str(x), Str(y)))]
  {
    TypeNameIsCalled(a, x);
    TypeNameIsCalled(b, y);
    TypeNames(a, b);
    assert Children(a, b) == [];
  }

  /** Two arrays of different lengths are reported with both lengths, before anything in them. */
  lemma LengthsAreNamed(e: Engine, path: string, x: seq<Json>, y: seq<Json>)
    requires e.suppressor.NoRules? && |x| != |y|
    ensures var events := Walk(e, path, Arr(x), Arr(y));
            events != [] &&
            events[0] == Found(Difference(Shape, path, Str(Itoa(|x|) + " items"), Str(Itoa(|y|) + " items")))
  {}

  // ----- Status and headers ----------------------------------------------------------------------------

  function Decimal(n: int): Json {
    Num(if n < 0 then "-" + Itoa(-n) else Itoa(n))
  }

  /** Two status codes are reported if and only if they differ and the rules let it pass, as the
      numbers they are; and nothing else is ever reported as a status. */
  lemma StatusIsReported(e: Engine, p: Pair)
    ensures var d := Difference(Status, "/status", Decimal(p.primary.status), Decimal(p.shadow.status));
            && (d in ResultOf(e, p).differences <==>
                p.primary.status != p.shadow.status && !e.Asks("/status", d.primary, d.shadow))
            && forall f | f in ResultOf(e, p).differences && f.path == "/status" :: f == d
  {
    var d := Difference(Status, "/status", Decimal(p.primary.status), Decimal(p.shadow.status));
    StatusAtItsPath(e, p, d);
    forall f | f in ResultOf(e, p).differences && f.path == "/status" ensures f == d { StatusAtItsPath(e, p, f); }
  }

  lemma StatusAtItsPath(e: Engine, p: Pair, f: Difference)
    requires f.path == "/status"
    ensures f in ResultOf(e, p).differences <==> Found(f) in StatusEvents(e, p.primary.status, p.shadow.status)
  {
    assert f.path[1] == 's';
    OnTop(e, p, f);
    if Found(f) in HeadersOf(e, p) {
      var name := NamedIn(e, p, Found(f));
    }
  }

  ghost function HeadersOf(e: Engine, p: Pair): seq<Event> {
    var h, g := p.primary.resHeaders, p.shadow.resHeaders;
    HeaderEvents(e, h, g, SortedSeq(HeaderNames(h, g)))
  }

  /** What is reported outside the body is about the status or about a header. */
  lemma OnTop(e: Engine, p: Pair, d: Difference)
    requires !(PATH_BODY <= d.path)
    ensures d in ResultOf(e, p).differences <==>
            Found(d) in StatusEvents(e, p.primary.status, p.shadow.status) || Found(d) in HeadersOf(e, p)
  {
    ReportedIsFound(PairEvents(e, p), d);
    TopOrBody(e, p, Found(d));
    InConcat(StatusEvents(e, p.primary.status, p.shadow.status), HeadersOf(e, p), Found(d));
    if Found(d) in BodyEvents(e, p.primary.resBody, p.shadow.resBody) {
      BodyPath(e, p.primary.resBody, p.shadow.resBody, Found(d));
    }
  }

  lemma NamedIn(e: Engine, p: Pair, ev: Event) returns (name: string)
    requires ev in HeadersOf(e, p)
    ensures var h, g := p.primary.resHeaders, p.shadow.resHeaders;
            name in HeaderNames(h, g) && ev in HeaderEvent(e, h, g, name)
    ensures PathOf(ev) == "/headers/" + name
  {
    var h, g := p.primary.resHeaders, p.shadow.resHeaders;
    var s := HeaderNames(h, g);
    var i := HeaderEventFrom(e, h, g, SortedSeq(s), ev);
    name := SortedSeq(s)[i];
    InSorted(s, i);
    assert PATH_HEADERS + "/" == "/headers/";
  }

  lemma InSorted(s: set<string>, i: nat)
    requires i < |SortedSeq(s)|
    ensures SortedSeq(s)[i] in s
  {
    SortedSeqProperties(s);
    assert SortedSeq(s)[i] in SortedSeq(s);
  }

  /** The headers that say how a message is carried, not what it says. */
  predicate OfTransport(name: string) {
    name in {"connection", "keep-alive", "transfer-encoding", "content-length", "te", "trailer", "upgrade",
             "proxy-authenticate", "proxy-authorization"}
  }

  /** Several values of one header are joined by a comma and a space. */
  lemma {:induction false} JoinMeans(values: seq<string>, v: string)
    ensures Join([]) == "" && Join([v]) == v
    ensures values != [] ==> Join(values + [v]) == Join(values) + ", " + v
  {
    if |values| <= 1 {
      if |values| == 1 { assert (values + [v])[1..] == [v]; }
    } else {
      JoinMeans(values[1..], v);
      assert (values + [v])[1..] == values[1..] + [v];
      Associative(values[0] + ", ", Join(values[1..]), ", " + v);
      Associative(Join(values[1..]), ", ", v);
      Associative(values[0] + ", " + Join(values[1..]), ", ", v);
    }
  }

  lemma {:induction false} NameIsCompared(e: Engine, h: Headers, g: Headers, names: seq<string>, name: string,
                                          ev: Event)
    requires name in names && ev in HeaderEvent(e, h, g, name)
    ensures ev in HeaderEvents(e, h, g, names)
  {
    if names[0] == name {
    } else {
      assert names == [names[0]] + names[1..];
      NameIsCompared(e, h, g, names[1..], name, ev);
    }
  }

  /** One header, of the values v and w, is reported if and only if these differ, it is not a
      transport header and the rules let it pass; under its lower-case name, primary first; and
      nothing else is reported there. */
  lemma HeaderIsReported(e: Engine, p: Pair, name: string, k: Option<string>, v: string, l: Option<string>, w: string)
    requires FoldDistinct(p.primary.resHeaders) && FoldDistinct(p.shadow.resHeaders)
    requires MayRead(p.primary.resHeaders, name, k, v) && MayRead(p.shadow.resHeaders, name, l, w)
    ensures var d := Difference(Header, "/headers/" + name, Str(v), Str(w));
            && (d in ResultOf(e, p).differences <==> v != w && !OfTransport(name) && !e.Asks(d.path, Str(v), Str(w)))
            && forall f | f in ResultOf(e, p).differences && f.path == d.path :: f == d
  {
    var d := Difference(Header, "/headers/" + name, Str(v), Str(w));
    ReadingAtItsPath(e, p, name, k, v, l, w, d);
    OnlyEventBetween(e, name, v, w, d);
    forall f | f in ResultOf(e, p).differences && f.path == d.path ensures f == d {
      ReadingAtItsPath(e, p, name, k, v, l, w, f);
      OnlyEventBetween(e, name, v, w, f);
    }
  }

  lemma OnlyEventBetween(e: Engine, name: string, v: string, w: string, f: Difference)
    ensures var d := Difference(Header, "/headers/" + name, Str(v), Str(w));
            v != w ==> (Found(f) in EventBetween(e, name, v, w) <==> f == d && !e.Asks(d.path, Str(v), Str(w)))
  {
    assert PATH_HEADERS + "/" == "/headers/";
  }

  lemma ReadingAtItsPath(e: Engine, p: Pair, name: string, k: Option<string>, v: string, l: Option<string>, w: string,
                         f: Difference)
    requires FoldDistinct(p.primary.resHeaders) && FoldDistinct(p.shadow.resHeaders)
    requires MayRead(p.primary.resHeaders, name, k, v) && MayRead(p.shadow.resHeaders, name, l, w)
    requires f.path == "/headers/" + name
    ensures f in ResultOf(e, p).differences <==> v != w && !OfTransport(name) && Found(f) in EventBetween(e, name, v, w)
  {
    var h, g := p.primary.resHeaders, p.shadow.resHeaders;
    HeaderAtItsPath(e, p, name, f);
    ValueOf(h, name, k, v);
    ValueOf(g, name, l, w);
    TransportNames(h, g, name);
    if v != w { ValueHasName(h, g, name, k, v, l, w); }
  }

  lemma HeaderAtItsPath(e: Engine, p: Pair, name: string, f: Difference)
    requires f.path == "/headers/" + name
    ensures var h, g := p.primary.resHeaders, p.shadow.resHeaders;
            f in ResultOf(e, p).differences <==> name in HeaderNames(h, g) && Found(f) in HeaderEvent(e, h, g, name)
  {
    var h, g := p.primary.resHeaders, p.shadow.resHeaders;
    assert f.path[1] == 'h';
    OnTop(e, p, f);
    if Found(f) in HeadersOf(e, p) {
      var found := NamedIn(e, p, Found(f));
      SameTail("/headers/", name, found);
    }
    if name in HeaderNames(h, g) && Found(f) in HeaderEvent(e, h, g, name) {
      SortedSeqProperties(HeaderNames(h, g));
      NameIsCompared(e, h, g, SortedSeq(HeaderNames(h, g)), name, Found(f));
    }
  }

  lemma ValueHasName(h: Headers, g: Headers, name: string, k: Option<string>, v: string, l: Option<string>, w: string)
    requires MayRead(h, name, k, v) && MayRead(g, name, l, w) && v != w
    ensures name in HeaderNames(h, g) <==> name !in TRANSPORT_HEADERS
  {
    HeaderNamesMeans(h, g);
  }

  lemma TransportNames(h: Headers, g: Headers, name: string)
    ensures name in TRANSPORT_HEADERS <==> OfTransport(name)
    ensures name in HeaderNames(h, g) ==> name !in TRANSPORT_HEADERS
  {
    HeaderNamesMeans(h, g);
  }

  // ----- Whole bodies ----------------------------------------------------------------------------------

  lemma OnBody(e: Engine, p: Pair, d: Difference)
    requires PATH_BODY <= d.path
    ensures d in ResultOf(e, p).differences <==> Found(d) in BodyEvents(e, p.primary.resBody, p.shadow.resBody)
  {
    ReportedIsFound(PairEvents(e, p), d);
    TopOrBody(e, p, Found(d));
    if Found(d) in TopEvents(e, p) { TopEvent(e, p, Found(d)); }
  }

  /** When neither body is a document they are compared as bytes, and reported whole. */
  lemma BytesAreReported(e: Engine, p: Pair)
    requires e.decode(p.primary.resBody).None? && e.decode(p.shadow.resBody).None?
    ensures var d := Difference(BodyVal, "/body", Str(p.primary.resBody), Str(p.shadow.resBody));
            && (d in ResultOf(e, p).differences <==>
                p.primary.resBody != p.shadow.resBody && !e.Asks("/body", d.primary, d.shadow))
            && forall f | f in ResultOf(e, p).differences && "/body" <= f.path :: f == d
  {
    forall f: Difference | "/body" <= f.path
      ensures f in ResultOf(e, p).differences <==> Found(f) in BodyEvents(e, p.primary.resBody, p.shadow.resBody)
    {
      OnBody(e, p, f);
    }
  }

  function Word(decoded: Option<Json>): string {
    if decoded.None? then "not JSON" else "valid JSON"
  }

  /** When only one body is a document, that is what is reported of the bodies. */
  lemma OneDocumentIsReported(e: Engine, p: Pair)
    requires e.decode(p.primary.resBody).Some? != e.decode(p.shadow.resBody).Some?
    ensures var d := Difference(Shape, "/body", Str(Word(e.decode(p.primary.resBody))),
                                Str(Word(e.decode(p.shadow.resBody))));
            && (d in ResultOf(e, p).differences <==> !e.Asks("/body", d.primary, d.shadow))
            && forall f | f in ResultOf(e, p).differences && "/body" <= f.path :: f == d
  {
    forall f: Difference | "/body" <= f.path
      ensures f in ResultOf(e, p).differences <==> Found(f) in BodyEvents(e, p.primary.resBody, p.shadow.resBody)
    {
      OnBody(e, p, f);
    }
  }

  // ----- When there is nothing to say ---------------------------------------------------------------------

  /** All headers but the transport ones read the same on both sides, whatever their letter case. */
  ghost predicate HeadersAgree(h: Headers, g: Headers) {
    forall name, k, v, l, w :: MayRead(h, name, k, v) && MayRead(g, name, l, w) && !OfTransport(name) ==> v == w
  }

  /** The same bytes where neither body is a document, the same at every place where both are. */
  ghost predicate BodiesAgree(e: Engine, p: string, s: string) {
    match (e.decode(p), e.decode(s))
    case (Some(a), Some(b)) => SameEverywhere(e.num, a, b)
    case (None, None) => p == s
    case _ => false
  }

  lemma AgreeingHeaders(h: Headers, g: Headers)
    requires FoldDistinct(h) && FoldDistinct(g)
    ensures SameHeaders(h, g) <==> HeadersAgree(h, g)
  {
    if SameHeaders(h, g) {
      forall name, k, v, l, w | MayRead(h, name, k, v) && MayRead(g, name, l, w) && !OfTransport(name)
        ensures v == w
      {
        ValueOf(h, name, k, v);
        ValueOf(g, name, l, w);
        TransportNames(h, g, name);
        if v != w { ValueHasName(h, g, name, k, v, l, w); }
      }
    }
    if HeadersAgree(h, g) {
      forall name | name in HeaderNames(h, g) ensures HeaderValue(h, name) == HeaderValue(g, name) {
        var k := SomeReading(h, name);
        var l := SomeReading(g, name);
        TransportNames(h, g, name);
        assert MayRead(h, name, k, HeaderValue(h, name)) && MayRead(g, name, l, HeaderValue(g, name));
      }
    }
  }

  lemma SomeReading(h: Headers, name: string) returns (k: Option<string>)
    requires FoldDistinct(h)
    ensures MayRead(h, name, k, HeaderValue(h, name))
  {
    if x :| x in h && Lower(x) == name { k := Some(x); } else { k := None; }
  }

  /** Without rules a pair is identical if and only if the status codes are equal, every header
      but the transport ones reads the same, and the bodies are the same bytes or, where both are
      documents, lead to the same under every pointer. */
  lemma IdenticalMeans(e: Engine, p: Pair)
    requires e.suppressor.NoRules? && FoldDistinct(p.primary.resHeaders) && FoldDistinct(p.shadow.resHeaders)
    ensures ResultOf(e, p).differences == [] <==>
            && p.primary.status == p.shadow.status
            && HeadersAgree(p.primary.resHeaders, p.shadow.resHeaders)
            && BodiesAgree(e, p.primary.resBody, p.shadow.resBody)
  {
    IdenticalIffSame(e, p);
    AgreeingHeaders(p.primary.resHeaders, p.shadow.resHeaders);
    AgreeingBodies(e, p.primary.resBody, p.shadow.resBody);
  }

  lemma EquivIsSameEverywhere(e: Engine, a: Json, b: Json)
    requires e.suppressor.NoRules?
    ensures Equiv(e.num, a, b) <==> SameEverywhere(e.num, a, b)
  {
    SilentIffSameEverywhere(e, PATH_BODY, a, b);
    SilentIffEquivalent(e, PATH_BODY, a, b);
  }

  lemma AgreeingBodies(e: Engine, p: string, s: string)
    requires e.suppressor.NoRules?
    ensures SameBodies(e, p, s) <==> BodiesAgree(e, p, s)
  {
    var a, b := e.decode(p), e.decode(s);
    if a.Some? && b.Some? {
      EquivIsSameEverywhere(e, a.value, b.value);
    }
  }

  // ----- Where a name occurs in two letter cases ----------------------------------------------------------

  lemma KeptSpelling(g: Headers, h: Headers, x: string) returns (l: string)
    requires Narrows(g, h) && x in h && Lower(x) !in TRANSPORT_HEADERS
    ensures l in g && Lower(l) == Lower(x)
  {
    l :| l in g && Lower(l) == Lower(x);
  }

  /** A pair is compared with one spelling kept of each header name; whatever is read of it so is
      one of the readings of the pair itself. */
  lemma KeptReadingIsAReading(g: Headers, h: Headers, name: string, k: Option<string>, v: string)
    requires Narrows(g, h) && MayRead(g, name, k, v) && !OfTransport(name)
    ensures MayRead(h, name, k, v)
  {
    TransportNames(g, h, name);
    if k.None? {
      forall x | x in h ensures Lower(x) != name {
        if Lower(x) == name { var l := KeptSpelling(g, h, x); }
      }
    }
  }
}
