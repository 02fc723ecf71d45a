/** What noise rules can and cannot do to a comparison, whatever they are. */
module DiffRules {
  import opened Text
  import opened Sorting
  import opened Json
  import opened Collector
  import opened Diff
  import opened DiffPaths

  // ----- Rules only take away, and every loss has a witness ---------------------------------------

  ghost predicate IsSubsequence<T>(xs: seq<T>, ys: seq<T>) {
    if xs == [] then true
    else ys != [] && ((xs[0] == ys[0] && IsSubsequence(xs[1..], ys[1..])) || IsSubsequence(xs, ys[1..]))
  }

  lemma {:induction false} SubsequenceConcat<T>(x: seq<T>, y: seq<T>, v: seq<T>, w: seq<T>)
    requires IsSubsequence(x, y) && IsSubsequence(v, w)
    ensures IsSubsequence(x + v, y + w)
    decreases |y|
  {
    if y == [] {
      assert x + v == v && y + w == w;
    } else {
      assert (y + w)[1..] == y[1..] + w;
      if x == [] {
        SubsequenceConcat(x, y[1..], v, w);
      } else if x[0] == y[0] && IsSubsequence(x[1..], y[1..]) {
        SubsequenceConcat(x[1..], y[1..], v, w);
        assert (x + v)[1..] == x[1..] + v;
      } else {
        SubsequenceConcat(x, y[1..], v, w);
      }
    }
  }

  lemma {:induction false} SubsequenceOfSame<T>(x: seq<T>)
    ensures IsSubsequence(x, x)
  {
    if x == [] {
    } else {
      SubsequenceOfSame(x[1..]);
    }
  }

  lemma {:induction false} EmptySubsequence<T>(y: seq<T>)
    ensures IsSubsequence([], y)
  {}

  predicate Under(p: string, q: string) {
    p == q || p + "/" <= q
  }

  /** The rules hid this very difference, or two whole arrays at or above its path. */
  predicate Covers(h: Event, d: Difference) {
    h.Hid? && (h == Hid(d.path, d.primary, d.shadow) || (h.primary.Arr? && h.shadow.Arr? && Under(h.path, d.path)))
  }

  ghost predicate Covered(events: seq<Event>, d: Difference) {
    exists h | h in events :: Covers(h, d)
  }

  /** How events under some rules relate to the events without rules. */
  ghost predicate Thinned(ruled: seq<Event>, raw: seq<Event>) {
    && IsSubsequence(Reported(ruled), Reported(raw))
    && (forall d | Found(d) in raw :: Found(d) in ruled || Covered(ruled, d))
    && (Hidden(ruled) == 0 ==> ruled == raw)
  }

  lemma CoveredConcat(x: seq<Event>, y: seq<Event>, d: Difference)
    requires Covered(x, d) || Covered(y, d)
    ensures Covered(x + y, d)
  {
    if Covered(x, d) {
      var h :| h in x && Covers(h, d);
      assert h in x + y;
    } else {
      var h :| h in y && Covers(h, d);
      assert h in x + y;
    }
  }

  lemma ThinnedConcat(x: seq<Event>, rx: seq<Event>, y: seq<Event>, ry: seq<Event>)
    requires Thinned(x, rx) && Thinned(y, ry)
    ensures Thinned(x + y, rx + ry)
  {
    EventsConcat(x, y);
    EventsConcat(rx, ry);
    SubsequenceConcat(Reported(x), Reported(rx), Reported(y), Reported(ry));
    forall d | Found(d) in rx + ry ensures Found(d) in x + y || Covered(x + y, d) {
      if Found(d) !in x + y { CoveredConcat(x, y, d); }
    }
  }

  lemma OfferThinned(e: Engine, kind: Kind, path: string, primary: Json, shadow: Json)
    ensures Thinned(Offer(e, kind, path, primary, shadow), Offer(e.Raw(), kind, path, primary, shadow))
  {
    var d := Difference(kind, path, primary, shadow);
    var ruled, raw := Offer(e, kind, path, primary, shadow), Offer(e.Raw(), kind, path, primary, shadow);
    assert raw == [Found(d)] && raw[1..] == [] && ruled[1..] == [];
    SubsequenceOfSame(Reported(raw));
    if e.Asks(path, primary, shadow) {
      assert ruled[0] in ruled && Covers(ruled[0], d);
    }
  }

  lemma NothingThinned()
    ensures Thinned([], [])
  {}

  lemma PrefixOfConcat<T>(x: seq<T>, y: seq<T>)
    ensures x <= x + y
  {}

  lemma PointerUnder(path: string, tokens: seq<string>)
    ensures Under(path, path + Pointer(tokens))
  {
    if tokens == [] {
      assert path + "" == path;
    } else {
      var rest := Escape(tokens[0]) + Pointer(tokens[1..]);
      Associative("/", Escape(tokens[0]), Pointer(tokens[1..]));
      Associative(path, "/", rest);
      PrefixOfConcat(path + "/", rest);
    }
  }

  /** Two whole arrays hidden cover all that would have been said about them. */
  lemma CutThinned(path: string, a: Json, b: Json, raw: seq<Event>)
    requires a.Arr? && b.Arr?
    requires forall d | Found(d) in raw :: Under(path, d.path)
    ensures Thinned([Hid(path, a, b)], raw)
  {
    var cut := Hid(path, a, b);
    assert [cut][1..] == [];
    assert Reported([cut]) == [];
    HiddenCounts([cut]);
    EmptySubsequence(Reported(raw));
    forall d | Found(d) in raw ensures Covered([cut], d) {
      assert cut in [cut] && Covers(cut, d);
    }
  }

  lemma WalkIsUnder(e: Engine, path: string, a: Json, b: Json, d: Difference)
    requires Found(d) in Walk(e, path, a, b)
    ensures Under(path, d.path)
  {
    var tokens := Locate(e, path, a, b, Found(d));
    PointerUnder(path, tokens);
  }

  lemma ArraysThinned(e: Engine, path: string, a: Json, b: Json)
    requires a.Arr? && b.Arr? && e.Asks(path, a, b)
    ensures Thinned(Walk(e, path, a, b), Walk(e.Raw(), path, a, b))
  {
    var raw := Walk(e.Raw(), path, a, b);
    forall d | Found(d) in raw ensures Under(path, d.path) {
      WalkIsUnder(e.Raw(), path, a, b, d);
    }
    CutThinned(path, a, b, raw);
  }

  lemma {:induction false} WalkThinned(e: Engine, path: string, a: Json, b: Json)
    ensures Thinned(Walk(e, path, a, b), Walk(e.Raw(), path, a, b))
    decreases a, 1, 0
  {
    if a.Arr? && b.Arr? && e.Asks(path, a, b) {
      ArraysThinned(e, path, a, b);
    } else {
      var kids := Children(a, b);
      HereThinned(e, path, a, b);
      WalkAllThinned(e, path, a, kids);
      ThinnedConcat(Here(e, path, a, b), Here(e.Raw(), path, a, b),
                    WalkAll(e, path, a, kids), WalkAll(e.Raw(), path, a, kids));
    }
  }

  lemma HereThinned(e: Engine, path: string, a: Json, b: Json)
    ensures Thinned(Here(e, path, a, b), Here(e.Raw(), path, a, b))
  {
    NothingThinned();
    OfferThinned(e, Shape, path, Str(TypeName(a)), Str(TypeName(b)));
    OfferThinned(e, BodyVal, path, a, b);
    if a.Arr? && b.Arr? {
      OfferThinned(e, Shape, path, Items(|a.items|), Items(|b.items|));
    }
  }

  lemma {:induction false} WalkAllThinned(e: Engine, path: string, a: Json, kids: seq<Child>)
    requires forall kid | kid in kids :: kid.left.Some? ==> kid.left.value < a
    ensures Thinned(WalkAll(e, path, a, kids), WalkAll(e.Raw(), path, a, kids))
    decreases a, 0, |kids|
  {
    if kids == [] {
      NothingThinned();
    } else {
      assert kids[0] in kids;
      WalkChildThinned(e, path, a, kids[0]);
      WalkAllThinned(e, path, a, kids[1..]);
      ThinnedConcat(WalkChild(e, path, a, kids[0]), WalkChild(e.Raw(), path, a, kids[0]),
                    WalkAll(e, path, a, kids[1..]), WalkAll(e.Raw(), path, a, kids[1..]));
    }
  }

  lemma {:induction false} WalkChildThinned(e: Engine, path: string, a: Json, kid: Child)
    requires kid.left.Some? ==> kid.left.value < a
    ensures Thinned(WalkChild(e, path, a, kid), WalkChild(e.Raw(), path, a, kid))
    decreases a, 0, 0
  {
    var p := ChildPath(path, kid.token);
    match (kid.left, kid.right)
    case (Some(l), Some(r)) => WalkThinned(e, p, l, r);
    case (Some(l), None) => OfferThinned(e, BodyKey, p, l, Null);
    case (None, Some(r)) => OfferThinned(e, BodyKey, p, Null, r);
    case (None, None) => NothingThinned();
  }

  lemma {:induction false} HeadersThinned(e: Engine, h: Headers, g: Headers, names: seq<string>)
    ensures Thinned(HeaderEvents(e, h, g, names), HeaderEvents(e.Raw(), h, g, names))
  {
    NothingThinned();
    if names == [] {
    } else {
      var a, b := HeaderValue(h, names[0]), HeaderValue(g, names[0]);
      OfferThinned(e, Header, PATH_HEADERS + "/" + names[0], Str(a), Str(b));
      HeadersThinned(e, h, g, names[1..]);
      ThinnedConcat(HeaderEvent(e, h, g, names[0]), HeaderEvent(e.Raw(), h, g, names[0]),
                    HeaderEvents(e, h, g, names[1..]), HeaderEvents(e.Raw(), h, g, names[1..]));
    }
  }

  lemma BodyThinned(e: Engine, p: string, s: string)
    ensures Thinned(BodyEvents(e, p, s), BodyEvents(e.Raw(), p, s))
  {
    NothingThinned();
    var a, b := e.decode(p), e.decode(s);
    if a.Some? && b.Some? {
      WalkThinned(e, PATH_BODY, a.value, b.value);
    }
    OfferThinned(e, Shape, PATH_BODY, Jsonness(a), Jsonness(b));
    OfferThinned(e, BodyVal, PATH_BODY, Str(p), Str(s));
  }

  lemma PairThinned(e: Engine, p: Pair)
    ensures Thinned(PairEvents(e, p), PairEvents(e.Raw(), p))
  {
    var h, g := p.primary.resHeaders, p.shadow.resHeaders;
    var names := SortedSeq(HeaderNames(h, g));
    var x, y := p.primary.status, p.shadow.status;
    NothingThinned();
    OfferThinned(e, Status, PATH_STATUS, StatusValue(x), StatusValue(y));
    HeadersThinned(e, h, g, names);
    ThinnedConcat(StatusEvents(e, x, y), StatusEvents(e.Raw(), x, y),
                  HeaderEvents(e, h, g, names), HeaderEvents(e.Raw(), h, g, names));
    BodyThinned(e, p.primary.resBody, p.shadow.resBody);
    ThinnedConcat(StatusEvents(e, x, y) + HeaderEvents(e, h, g, names),
                  StatusEvents(e.Raw(), x, y) + HeaderEvents(e.Raw(), h, g, names),
                  BodyEvents(e, p.primary.resBody, p.shadow.resBody),
                  BodyEvents(e.Raw(), p.primary.resBody, p.shadow.resBody));
  }

  lemma {:induction false} ReportedIsFound(events: seq<Event>, d: Difference)
    ensures d in Reported(events) <==> Found(d) in events
  {
    if events == [] {
    } else {
      ReportedIsFound(events[1..], d);
      assert events == [events[0]] + events[1..];
    }
  }

  /** Nothing is hidden unless the rules said so about those very values. */
  lemma HiddenWasAsked(e: Engine, p: Pair, h: Event)
    requires h in PairEvents(e, p) && h.Hid?
    ensures e.Asks(h.path, h.primary, h.shadow)
  {
    EveryEventIsAnswered(e, p, h);
  }

  lemma {:induction false} HiddenCounts(events: seq<Event>)
    ensures Hidden(events) + |Reported(events)| == |events|
    ensures Hidden(events) == 0 <==> forall h | h in events :: !h.Hid?
  {
    if events == [] {
    } else {
      HiddenCounts(events[1..]);
      assert events == [events[0]] + events[1..];
    }
  }

  /** Whatever the rules: they add nothing and reorder nothing; each difference they take
      away is one they were asked about and gave up, or lies at or under two arrays they
      gave up; and a result with nothing suppressed is the raw result. */
  lemma RulesOnlyTakeAway(e: Engine, p: Pair)
    ensures var r, raw := ResultOf(e, p), ResultOf(e.Raw(), p);
            && IsSubsequence(r.differences, raw.differences)
            && raw.suppressed == 0
            && (r.suppressed == 0 ==> r == raw)
            && forall d | d in raw.differences && d !in r.differences :: Covered(PairEvents(e, p), d)
  {
    var ruled, raw := PairEvents(e, p), PairEvents(e.Raw(), p);
    PairThinned(e, p);
    forall h | h in raw ensures !h.Hid? {
      if h.Hid? { HiddenWasAsked(e.Raw(), p, h); }
    }
    HiddenCounts(raw);
    forall d | d in Reported(raw) && d !in Reported(ruled) ensures Covered(ruled, d) {
      ReportedIsFound(raw, d);
      ReportedIsFound(ruled, d);
    }
  }

  // ----- Exchanging the sides ------------------------------------------------------------------------

  function SwapDifference(d: Difference): Difference {
    Difference(d.kind, d.path, d.shadow, d.primary)
  }

  function Swap(ev: Event): Event {
    match ev
    case Found(d) => Found(SwapDifference(d))
    case Hid(p, v, w) => Hid(p, w, v)
  }

  function SwapAll(events: seq<Event>): (r: seq<Event>)
    ensures |r| == |events|
  {
    if events == [] then [] else [Swap(events[0])] + SwapAll(events[1..])
  }

  lemma {:induction false} SwapConcat(x: seq<Event>, y: seq<Event>)
    ensures SwapAll(x + y) == SwapAll(x) + SwapAll(y)
  {
    if x == [] {
      assert x + y == y;
    } else {
      assert (x + y)[1..] == x[1..] + y;
      SwapConcat(x[1..], y);
      Associative([Swap(x[0])], SwapAll(x[1..]), SwapAll(y));
    }
  }

  /** The rules judge two values the same way round and the other way round. */
  ghost predicate Impartial(e: Engine) {
    forall p, v, w :: e.Asks(p, v, w) == e.Asks(p, w, v)
  }

  lemma OfferSwaps(e: Engine, kind: Kind, path: string, v: Json, w: Json)
    requires Impartial(e)
    ensures SwapAll(Offer(e, kind, path, v, w)) == Offer(e, kind, path, w, v)
  {
    var events := Offer(e, kind, path, v, w);
    assert events[1..] == [];
    assert e.Asks(path, v, w) == e.Asks(path, w, v);
  }

  function SwapChild(kid: Child): Child {
    Child(kid.token, kid.right, kid.left)
  }

  lemma ChildrenSwap(a: Json, b: Json)
    ensures |Children(b, a)| == |Children(a, b)|
    ensures forall i | 0 <= i < |Children(a, b)| :: Children(b, a)[i] == SwapChild(Children(a, b)[i])
  {
    if a.Obj? && b.Obj? {
      assert a.fields.Keys + b.fields.Keys == b.fields.Keys + a.fields.Keys;
    }
  }

  lemma HereSwaps(e: Engine, path: string, a: Json, b: Json)
    requires Impartial(e)
    ensures SwapAll(Here(e, path, a, b)) == Here(e, path, b, a)
  {
    TypeNames(a, b);
    OfferSwaps(e, Shape, path, Str(TypeName(a)), Str(TypeName(b)));
    OfferSwaps(e, BodyVal, path, a, b);
    if a.Arr? && b.Arr? {
      OfferSwaps(e, Shape, path, Items(|a.items|), Items(|b.items|));
    }
  }

  lemma {:induction false} WalkSwaps(e: Engine, path: string, a: Json, b: Json)
    requires Impartial(e)
    ensures SwapAll(Walk(e, path, a, b)) == Walk(e, path, b, a)
    decreases a, 1, 0
  {
    assert e.Asks(path, a, b) == e.Asks(path, b, a);
    if a.Arr? && b.Arr? && e.Asks(path, a, b) {
      assert [Hid(path, a, b)][1..] == [];
    } else {
      ChildrenSwap(a, b);
      HereSwaps(e, path, a, b);
      WalkAllSwaps(e, path, a, b, Children(a, b), Children(b, a));
      SwapConcat(Here(e, path, a, b), WalkAll(e, path, a, Children(a, b)));
    }
  }

  lemma {:induction false} WalkAllSwaps(e: Engine, path: string, a: Json, b: Json,
                                        kids: seq<Child>, swapped: seq<Child>)
    requires Impartial(e) && |kids| == |swapped|
    requires forall i | 0 <= i < |kids| :: swapped[i] == SwapChild(kids[i])
    requires forall kid | kid in kids :: kid.left.Some? ==> kid.left.value < a
    requires forall kid | kid in swapped :: kid.left.Some? ==> kid.left.value < b
    ensures SwapAll(WalkAll(e, path, a, kids)) == WalkAll(e, path, b, swapped)
    decreases a, 0, |kids|
  {
    if kids == [] {
    } else {
      assert kids[0] in kids && swapped[0] in swapped && swapped[0] == SwapChild(kids[0]);
      WalkChildSwaps(e, path, a, b, kids[0]);
      forall i | 0 <= i < |kids[1..]| ensures swapped[1..][i] == SwapChild(kids[1..][i]) {
        assert swapped[i + 1] == SwapChild(kids[i + 1]);
      }
      WalkAllSwaps(e, path, a, b, kids[1..], swapped[1..]);
      SwapConcat(WalkChild(e, path, a, kids[0]), WalkAll(e, path, a, kids[1..]));
    }
  }

  lemma {:induction false} WalkChildSwaps(e: Engine, path: string, a: Json, b: Json, kid: Child)
    requires Impartial(e)
    requires kid.left.Some? ==> kid.left.value < a
    requires kid.right.Some? ==> kid.right.value < b
    ensures SwapAll(WalkChild(e, path, a, kid)) == WalkChild(e, path, b, SwapChild(kid))
    decreases a, 0, 0
  {
    var p := ChildPath(path, kid.token);
    match (kid.left, kid.right)
    case (Some(l), Some(r)) => WalkSwaps(e, p, l, r);
    case (Some(l), None) => OfferSwaps(e, BodyKey, p, l, Null);
    case (None, Some(r)) => OfferSwaps(e, BodyKey, p, Null, r);
    case (None, None) =>
  }

  lemma {:induction false} HeadersSwap(e: Engine, h: Headers, g: Headers, names: seq<string>)
    requires Impartial(e)
    ensures SwapAll(HeaderEvents(e, h, g, names)) == HeaderEvents(e, g, h, names)
  {
    if names == [] {
    } else {
      OfferSwaps(e, Header, PATH_HEADERS + "/" + names[0],
                 Str(HeaderValue(h, names[0])), Str(HeaderValue(g, names[0])));
      HeadersSwap(e, h, g, names[1..]);
      SwapConcat(HeaderEvent(e, h, g, names[0]), HeaderEvents(e, h, g, names[1..]));
    }
  }

  lemma BodySwaps(e: Engine, p: string, s: string)
    requires Impartial(e)
    ensures SwapAll(BodyEvents(e, p, s)) == BodyEvents(e, s, p)
  {
    var a, b := e.decode(p), e.decode(s);
    if a.Some? && b.Some? {
      WalkSwaps(e, PATH_BODY, a.value, b.value);
    }
    OfferSwaps(e, Shape, PATH_BODY, Jsonness(a), Jsonness(b));
    OfferSwaps(e, BodyVal, PATH_BODY, Str(p), Str(s));
  }

  function SwapDifferences(ds: seq<Difference>): (r: seq<Difference>)
    ensures |r| == |ds| && forall i | 0 <= i < |ds| :: r[i] == SwapDifference(ds[i])
  {
    seq(|ds|, i requires 0 <= i < |ds| => SwapDifference(ds[i]))
  }

  lemma SwapDifferencesCons(d: Difference, ds: seq<Difference>)
    ensures SwapDifferences([d] + ds) == [SwapDifference(d)] + SwapDifferences(ds)
  {}

  lemma {:induction false} SwapReported(events: seq<Event>)
    ensures Reported(SwapAll(events)) == SwapDifferences(Reported(events))
    ensures Hidden(SwapAll(events)) == Hidden(events)
  {
    if events == [] {
    } else {
      SwapReported(events[1..]);
      var rest := SwapAll(events[1..]);
      assert SwapAll(events)[0] == Swap(events[0]) && SwapAll(events)[1..] == rest;
      if events[0].Found? {
        SwapDifferencesCons(events[0].d, Reported(events[1..]));
      }
    }
  }

  /** Exchanging primary and shadow exchanges the two sides of every difference, in the same
      order, and hides as much as before. */
  lemma SidesAreSymmetric(e: Engine, p: Pair)
    requires Impartial(e)
    ensures var r, t := ResultOf(e, p), ResultOf(e, Pair(p.correlId, p.shadow, p.primary));
            t.differences == SwapDifferences(r.differences) && t.suppressed == r.suppressed
  {
    PairSwaps(e, p);
    SwapReported(PairEvents(e, p));
  }

  lemma NamesSwap(h: Headers, g: Headers)
    ensures HeaderNames(g, h) == HeaderNames(h, g)
  {
    assert g.Keys + h.Keys == h.Keys + g.Keys;
  }

  lemma PairSwaps(e: Engine, p: Pair)
    requires Impartial(e)
    ensures SwapAll(PairEvents(e, p)) == PairEvents(e, Pair(p.correlId, p.shadow, p.primary))
  {
    var h, g := p.primary.resHeaders, p.shadow.resHeaders;
    var names := SortedSeq(HeaderNames(h, g));
    var x, y := p.primary.status, p.shadow.status;
    NamesSwap(h, g);
    OfferSwaps(e, Status, PATH_STATUS, StatusValue(x), StatusValue(y));
    HeadersSwap(e, h, g, names);
    BodySwaps(e, p.primary.resBody, p.shadow.resBody);
    SwapConcat(StatusEvents(e, x, y), HeaderEvents(e, h, g, names));
    SwapConcat(StatusEvents(e, x, y) + HeaderEvents(e, h, g, names),
               BodyEvents(e, p.primary.resBody, p.shadow.resBody));
  }

  // ----- Nothing is reported below two arrays that were hidden -------------------------------------------

  lemma LongerHasSlash(x: string, u: string, y: string, v: string)
    requires x + u == y + v && |x| < |y|
    requires u == "" || u[0] == '/'
    ensures '/' in y
  {
    assert |x + u| == |y + v|;
    assert (x + u)[|x|] == (y + v)[|x|] == y[|x|];
  }

  lemma FirstSlash(x: string, u: string, y: string, v: string)
    requires '/' !in x && '/' !in y && x + u == y + v
    requires u != "" && u[0] == '/' && (v == "" || v[0] == '/')
    ensures x == y && u == v
  {
    if |x| < |y| {
      LongerHasSlash(x, u, y, v);
    } else if |y| < |x| {
      LongerHasSlash(y, v, x, u);
    } else {
      assert (x + u)[..|x|] == x && (y + v)[..|y|] == y;
      assert (x + u)[|x|..] == u && (y + v)[|y|..] == v;
    }
  }

  lemma SplitHere(tokens: seq<string>, tail: string)
    requires tokens != []
    ensures Pointer(tokens) + tail == "/" + (Escape(tokens[0]) + (Pointer(tokens[1..]) + tail))
  {}

  /** One pointer lies under another exactly along the tokens. */
  lemma {:induction false} PointerPrefix(s: seq<string>, t: seq<string>, x: string)
    requires Pointer(s) + "/" + x == Pointer(t)
    ensures s <= t
    decreases |s|
  {
    if s == [] {
    } else {
      SameFirstToken(s, t, x);
      PointerPrefix(s[1..], t[1..], x);
      assert s == [s[0]] + s[1..] && t == [t[0]] + t[1..];
    }
  }

  lemma SameFirstToken(s: seq<string>, t: seq<string>, x: string)
    requires s != [] && Pointer(s) + "/" + x == Pointer(t)
    ensures t != [] && s[0] == t[0] && Pointer(s[1..]) + "/" + x == Pointer(t[1..])
  {
    var u, v := Pointer(s[1..]) + ("/" + x), Pointer(t[1..]);
    SplitHere(s, "/" + x);
    SplitHere(t, "");
    Associative(Pointer(s), "/", x);
    assert v + "" == v && Pointer(t) + "" == Pointer(t);
    SameTail("/", Escape(s[0]) + u, Escape(t[0]) + v);
    FirstSlash(Escape(s[0]), u, Escape(t[0]), v);
    UnescapeEscape(s[0]);
    UnescapeEscape(t[0]);
    Associative(Pointer(s[1..]), "/", x);
  }

  lemma UnderAlongTokens(path: string, s: seq<string>, t: seq<string>)
    requires Under(path + Pointer(s), path + Pointer(t))
    ensures s <= t
  {
    var p, q := path + Pointer(s), path + Pointer(t);
    if p == q {
      SameTail(path, Pointer(s), Pointer(t));
      PointerInjective(s, t);
    } else {
      var x := q[|p| + 1..];
      assert q == p + "/" + x;
      Associative(path, Pointer(s), "/");
      Associative(path, Pointer(s) + "/", x);
      SameTail(path, Pointer(s) + "/" + x, Pointer(t));
      PointerPrefix(s, t, x);
    }
  }

  /** Two whole arrays were given up. */
  predicate CutsArrays(h: Event) {
    h.Hid? && h.primary.Arr? && h.shadow.Arr?
  }

  lemma ChildOf(e: Engine, path: string, a: Json, b: Json, ev: Event, tokens: seq<string>) returns (i: nat)
    requires !(a.Arr? && b.Arr? && e.Asks(path, a, b))
    requires ev in Walk(e, path, a, b) && ev !in Here(e, path, a, b)
    requires PathOf(ev) == path + Pointer(tokens)
    ensures i < |Children(a, b)| && tokens != [] && Children(a, b)[i].token == tokens[0]
    ensures Children(a, b)[i] in Children(a, b) && ev in WalkChild(e, path, a, Children(a, b)[i])
    ensures PathOf(ev) == ChildPath(path, tokens[0]) + Pointer(tokens[1..])
  {
    InConcat(Here(e, path, a, b), WalkAll(e, path, a, Children(a, b)), ev);
    i := FromWhichChild(e, path, a, Children(a, b), ev);
    var t := ChildEventPath(e, path, a, Children(a, b)[i], ev);
    SamePlace(path, t, tokens);
    PathStep(path, tokens[0], tokens[1..]);
    assert [tokens[0]] + tokens[1..] == tokens;
  }

  lemma SamePlace(path: string, s: seq<string>, t: seq<string>)
    requires path + Pointer(s) == path + Pointer(t)
    ensures s == t
  {
    SameTail(path, Pointer(s), Pointer(t));
    PointerInjective(s, t);
  }

  /** An event at a place other than this very one is about a child. */
  lemma NotHere(e: Engine, path: string, a: Json, b: Json, ev: Event, tokens: seq<string>)
    requires ev in Walk(e, path, a, b) && PathOf(ev) == path + Pointer(tokens) && tokens != []
    ensures ev !in Here(e, path, a, b)
  {
    PlacesApart(path, [], tokens);
    if ev in Here(e, path, a, b) { HereIsAbout(e, path, a, b, ev); }
  }

  lemma SameChildOf(e: Engine, path: string, a: Json, b: Json,
                    h: Event, s: seq<string>, d: Difference, t: seq<string>) returns (i: nat)
    requires !(a.Arr? && b.Arr? && e.Asks(path, a, b))
    requires h in Walk(e, path, a, b) && CutsArrays(h) && h.path == path + Pointer(s)
    requires Found(d) in Walk(e, path, a, b) && d.path == path + Pointer(t)
    requires s <= t
    ensures i < |Children(a, b)| && s != [] && Children(a, b)[i] in Children(a, b)
    ensures var kid := Children(a, b)[i];
            && h in WalkChild(e, path, a, kid) && h.path == ChildPath(path, kid.token) + Pointer(s[1..])
            && Found(d) in WalkChild(e, path, a, kid) && d.path == ChildPath(path, kid.token) + Pointer(t[1..])
  {
    CutsElsewhere(e, path, a, b, h);
    i := ChildOf(e, path, a, b, h, s);
    NotHere(e, path, a, b, Found(d), t);
    var j := ChildOf(e, path, a, b, Found(d), t);
    SameToken(a, b, i, j);
  }

  /** What is offered at a place itself is never two whole arrays. */
  lemma CutsElsewhere(e: Engine, path: string, a: Json, b: Json, h: Event)
    requires CutsArrays(h)
    ensures h !in Here(e, path, a, b)
  {}

  lemma SameToken(a: Json, b: Json, i: nat, j: nat)
    requires i < |Children(a, b)| && j < |Children(a, b)|
    requires Children(a, b)[i].token == Children(a, b)[j].token
    ensures i == j
  {
    if i < j { ChildrenApart(a, b, i, j); } else if j < i { ChildrenApart(a, b, j, i); }
  }

  lemma OneSidedCutsNothing(e: Engine, path: string, a: Json, kid: Child, h: Event)
    requires kid.left.Some? ==> kid.left.value < a
    requires kid.left.None? || kid.right.None?
    requires h in WalkChild(e, path, a, kid)
    ensures !CutsArrays(h)
  {}

  lemma {:induction false} NothingBelowCut(e: Engine, path: string, a: Json, b: Json,
                                           h: Event, s: seq<string>, d: Difference, t: seq<string>)
    requires h in Walk(e, path, a, b) && CutsArrays(h) && h.path == path + Pointer(s)
    requires Found(d) in Walk(e, path, a, b) && d.path == path + Pointer(t)
    ensures !(s <= t)
    decreases a
  {
    if s <= t && !(a.Arr? && b.Arr? && e.Asks(path, a, b)) {
      var i := SameChildOf(e, path, a, b, h, s, d, t);
      var kid := Children(a, b)[i];
      if kid.left.Some? && kid.right.Some? {
        NothingBelowCut(e, ChildPath(path, kid.token), kid.left.value, kid.right.value, h, s[1..], d, t[1..]);
      } else {
        OneSidedCutsNothing(e, path, a, kid, h);
      }
    }
  }

  // ----- How many raw differences a suppression stands for --------------------------------------------

  /** What something hidden takes away: a single difference, or all of two arrays' differences. */
  ghost function Worth(e: Engine, h: Event): nat
    requires h.Hid?
  {
    if CutsArrays(h) then |Reported(Walk(e.Raw(), h.path, h.primary, h.shadow))| else 1
  }

  ghost function TotalWorth(e: Engine, events: seq<Event>): nat {
    if events == [] then 0
    else (if events[0].Hid? then Worth(e, events[0]) else 0) + TotalWorth(e, events[1..])
  }

  lemma {:induction false} TotalWorthConcat(e: Engine, x: seq<Event>, y: seq<Event>)
    ensures TotalWorth(e, x + y) == TotalWorth(e, x) + TotalWorth(e, y)
  {
    if x == [] {
      assert x + y == y;
    } else {
      assert (x + y)[0] == x[0] && (x + y)[1..] == x[1..] + y;
      TotalWorthConcat(e, x[1..], y);
    }
  }

  /** What is reported under rules and what they took away make up the raw differences. */
  ghost predicate Balanced(e: Engine, ruled: seq<Event>, raw: seq<Event>) {
    |Reported(raw)| == |Reported(ruled)| + TotalWorth(e, ruled)
  }

  lemma BalancedConcat(e: Engine, x: seq<Event>, rx: seq<Event>, y: seq<Event>, ry: seq<Event>)
    requires Balanced(e, x, rx) && Balanced(e, y, ry)
    ensures Balanced(e, x + y, rx + ry)
  {
    EventsConcat(x, y);
    EventsConcat(rx, ry);
    TotalWorthConcat(e, x, y);
  }

  lemma OneReported(d: Difference)
    ensures Reported([Found(d)]) == [d]
  {
    assert [Found(d)][1..] == [];
  }

  lemma OneWorth(e: Engine, h: Event)
    requires h.Hid?
    ensures Reported([h]) == [] && TotalWorth(e, [h]) == Worth(e, h)
  {
    assert [h][1..] == [];
  }

  lemma OfferBalanced(e: Engine, kind: Kind, path: string, primary: Json, shadow: Json)
    requires !(primary.Arr? && shadow.Arr?)
    ensures Balanced(e, Offer(e, kind, path, primary, shadow), Offer(e.Raw(), kind, path, primary, shadow))
  {
    var d := Difference(kind, path, primary, shadow);
    OneReported(d);
    if e.Asks(path, primary, shadow) {
      OneWorth(e, Hid(path, primary, shadow));
    } else {
      assert [Found(d)][1..] == [];
      assert TotalWorth(e, [Found(d)]) == 0 + TotalWorth(e, []);
    }
  }

  lemma HereBalanced(e: Engine, path: string, a: Json, b: Json)
    ensures Balanced(e, Here(e, path, a, b), Here(e.Raw(), path, a, b))
  {
    OfferBalanced(e, Shape, path, Str(TypeName(a)), Str(TypeName(b)));
    if a.Arr? && b.Arr? {
      OfferBalanced(e, Shape, path, Items(|a.items|), Items(|b.items|));
    } else {
      OfferBalanced(e, BodyVal, path, a, b);
    }
  }

  lemma {:induction false} WalkBalanced(e: Engine, path: string, a: Json, b: Json)
    ensures Balanced(e, Walk(e, path, a, b), Walk(e.Raw(), path, a, b))
    decreases a, 1, 0
  {
    if a.Arr? && b.Arr? && e.Asks(path, a, b) {
      OneWorth(e, Hid(path, a, b));
    } else {
      var kids := Children(a, b);
      HereBalanced(e, path, a, b);
      WalkAllBalanced(e, path, a, kids);
      BalancedConcat(e, Here(e, path, a, b), Here(e.Raw(), path, a, b),
                     WalkAll(e, path, a, kids), WalkAll(e.Raw(), path, a, kids));
    }
  }

  lemma {:induction false} WalkAllBalanced(e: Engine, path: string, a: Json, kids: seq<Child>)
    requires forall kid | kid in kids :: kid.left.Some? ==> kid.left.value < a
    ensures Balanced(e, WalkAll(e, path, a, kids), WalkAll(e.Raw(), path, a, kids))
    decreases a, 0, |kids|
  {
    if kids == [] {
    } else {
      assert kids[0] in kids;
      WalkChildBalanced(e, path, a, kids[0]);
      WalkAllBalanced(e, path, a, kids[1..]);
      BalancedConcat(e, WalkChild(e, path, a, kids[0]), WalkChild(e.Raw(), path, a, kids[0]),
                     WalkAll(e, path, a, kids[1..]), WalkAll(e.Raw(), path, a, kids[1..]));
    }
  }

  lemma {:induction false} WalkChildBalanced(e: Engine, path: string, a: Json, kid: Child)
    requires kid.left.Some? ==> kid.left.value < a
    ensures Balanced(e, WalkChild(e, path, a, kid), WalkChild(e.Raw(), path, a, kid))
    decreases a, 0, 0
  {
    var p := ChildPath(path, kid.token);
    match (kid.left, kid.right)
    case (Some(l), Some(r)) => WalkBalanced(e, p, l, r);
    case (Some(l), None) => OfferBalanced(e, BodyKey, p, l, Null);
    case (None, Some(r)) => OfferBalanced(e, BodyKey, p, Null, r);
    case (None, None) =>
  }

  lemma {:induction false} HeadersBalanced(e: Engine, h: Headers, g: Headers, names: seq<string>)
    ensures Balanced(e, HeaderEvents(e, h, g, names), HeaderEvents(e.Raw(), h, g, names))
  {
    if names == [] {
    } else {
      OfferBalanced(e, Header, PATH_HEADERS + "/" + names[0],
                    Str(HeaderValue(h, names[0])), Str(HeaderValue(g, names[0])));
      HeadersBalanced(e, h, g, names[1..]);
      BalancedConcat(e, HeaderEvent(e, h, g, names[0]), HeaderEvent(e.Raw(), h, g, names[0]),
                     HeaderEvents(e, h, g, names[1..]), HeaderEvents(e.Raw(), h, g, names[1..]));
    }
  }

  lemma BodyBalanced(e: Engine, p: string, s: string)
    ensures Balanced(e, BodyEvents(e, p, s), BodyEvents(e.Raw(), p, s))
  {
    var a, b := e.decode(p), e.decode(s);
    if a.Some? && b.Some? {
      WalkBalanced(e, PATH_BODY, a.value, b.value);
    }
    OfferBalanced(e, Shape, PATH_BODY, Jsonness(a), Jsonness(b));
    OfferBalanced(e, BodyVal, PATH_BODY, Str(p), Str(s));
  }

  lemma PairBalanced(e: Engine, p: Pair)
    ensures Balanced(e, PairEvents(e, p), PairEvents(e.Raw(), p))
  {
    var h, g := p.primary.resHeaders, p.shadow.resHeaders;
    var names := SortedSeq(HeaderNames(h, g));
    var x, y := p.primary.status, p.shadow.status;
    OfferBalanced(e, Status, PATH_STATUS, StatusValue(x), StatusValue(y));
    HeadersBalanced(e, h, g, names);
    BalancedConcat(e, StatusEvents(e, x, y), StatusEvents(e.Raw(), x, y),
                   HeaderEvents(e, h, g, names), HeaderEvents(e.Raw(), h, g, names));
    BodyBalanced(e, p.primary.resBody, p.shadow.resBody);
    BalancedConcat(e, TopEvents(e, p), TopEvents(e.Raw(), p),
                   BodyEvents(e, p.primary.resBody, p.shadow.resBody),
                   BodyEvents(e.Raw(), p.primary.resBody, p.shadow.resBody));
  }

  lemma {:induction false} SinglesCountOnce(e: Engine, events: seq<Event>)
    requires forall h | h in events :: !CutsArrays(h)
    ensures TotalWorth(e, events) == Hidden(events)
  {
    if events == [] {
    } else {
      assert events[0] in events;
      SinglesCountOnce(e, events[1..]);
    }
  }

  /** Conservation: the raw differences are those reported and those the suppressions stand for.
      So the suppressed count is the number of raw differences removed if and only if what was
      hidden is worth as much as it counts; two arrays hidden as a whole count once and are worth
      all their differences, so the count is right whenever no arrays were hidden as a whole. */
  lemma SuppressedStandsFor(e: Engine, p: Pair)
    ensures var r, raw, worth := ResultOf(e, p), ResultOf(e.Raw(), p), TotalWorth(e, PairEvents(e, p));
            && |raw.differences| == |r.differences| + worth
            && (r.suppressed == |raw.differences| - |r.differences| <==> worth == Hidden(PairEvents(e, p)))
    ensures (forall h | h in PairEvents(e, p) :: !CutsArrays(h)) ==>
              ResultOf(e, p).suppressed == |ResultOf(e.Raw(), p).differences| - |ResultOf(e, p).differences|
  {
    PairBalanced(e, p);
    if forall h | h in PairEvents(e, p) :: !CutsArrays(h) {
      SinglesCountOnce(e, PairEvents(e, p));
    }
  }

  lemma TypeChangeAlone(e: Engine, path: string, x: Json, y: Json)
    requires e.suppressor.NoRules? && TypeName(x) != TypeName(y)
    ensures |Reported(Walk(e, path, x, y))| == 1 && Hidden(Walk(e, path, x, y)) == 0
  {
    TypeNames(x, y);
    assert Walk(e, path, x, y) == [Found(Difference(Shape, path, Str(TypeName(x)), Str(TypeName(y))))];
  }

  /** One suppression that stands for two differences: two hidden arrays whose items change type. */
  lemma OneHidesTwo(e: Engine, path: string)
    requires e.Asks(path, Arr([Null, Null]), Arr([Str(""), Str("")]))
    ensures var v, w := Arr([Null, Null]), Arr([Str(""), Str("")]);
            Walk(e, path, v, w) == [Hid(path, v, w)] && |Reported(Walk(e.Raw(), path, v, w))| == 2
  {
    var v, w := Arr([Null, Null]), Arr([Str(""), Str("")]);
    TwoTypeChanges(e.Raw(), path, v, w);
  }

  lemma TwoTypeChanges(e: Engine, path: string, a: Json, b: Json)
    requires e.suppressor.NoRules? && a.Arr? && b.Arr? && |a.items| == |b.items| == 2
    requires forall i | 0 <= i < 2 :: TypeName(a.items[i]) != TypeName(b.items[i])
    ensures |Reported(Walk(e, path, a, b))| == 2
  {
    var kids, p, q := Children(a, b), path + "/" + Itoa(0), path + "/" + Itoa(1);
    var first, second := Walk(e, p, a.items[0], b.items[0]), Walk(e, q, a.items[1], b.items[1]);
    ArrayWalkNext(e, path, a, b, 0);
    ArrayWalkNext(e, path, a, b, 1);
    ArrayWalk(e, path, a, b);
    assert WalkFirst(e, path, a, kids, 0) == [] && Here(e, path, a, b) == [];
    assert Walk(e, path, a, b) == first + second;
    TypeChangeAlone(e, p, a.items[0], b.items[0]);
    TypeChangeAlone(e, q, a.items[1], b.items[1]);
    EventsConcat(first, second);
  }
}
