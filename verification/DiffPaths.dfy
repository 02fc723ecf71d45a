/** Where the differences of two bodies are, and that none is missed. */
module DiffPaths {
  import opened Text
  import opened Sorting
  import opened Json
  import opened Collector
  import opened Diff

  /** What a report claims about the values a pointer leads to on either side. */
  ghost predicate Genuine(num: Valuation, d: Difference, x: Option<Json>, y: Option<Json>) {
    match d.kind
    case BodyKey =>
      || (x.Some? && y.None? && d.primary == x.value && d.shadow == Null)
      || (x.None? && y.Some? && d.primary == Null && d.shadow == y.value)
    case Shape =>
      && x.Some? && y.Some?
      && (|| (TypeName(x.value) != TypeName(y.value)
              && d.primary == Str(TypeName(x.value)) && d.shadow == Str(TypeName(y.value)))
          || (x.value.Arr? && y.value.Arr? && |x.value.items| != |y.value.items|
              && d.primary == Items(|x.value.items|) && d.shadow == Items(|y.value.items|)))
    case BodyVal =>
      && x.Some? && y.Some? && d.primary == x.value && d.shadow == y.value
      && TypeName(d.primary) == TypeName(d.shadow) && IsScalar(d.primary) && !ScalarEqual(num, d.primary, d.shadow)
    case _ => false
  }

  /** Where an event is, and that it is about what is there. An event is hidden if and only if
      the rules said so: about two whole arrays, or about something that would be reported. */
  ghost predicate About(e: Engine, ev: Event, x: Option<Json>, y: Option<Json>) {
    match ev
    case Found(d) => Genuine(e.num, d, x, y) && !e.Asks(d.path, d.primary, d.shadow)
    case Hid(p, v, w) =>
      && e.Asks(p, v, w)
      && (|| (v.Arr? && w.Arr? && x == Some(v) && y == Some(w))
          || Genuine(e.num, Difference(BodyKey, p, v, w), x, y)
          || Genuine(e.num, Difference(Shape, p, v, w), x, y)
          || Genuine(e.num, Difference(BodyVal, p, v, w), x, y))
  }

  function PathOf(ev: Event): string {
    match ev
    case Found(d) => d.path
    case Hid(p, _, _) => p
  }

  // ----- Children -------------------------------------------------------------------------------

  lemma ChildIs(a: Json, b: Json, i: nat)
    requires i < |Children(a, b)|
    ensures var kid := Children(a, b)[i];
            && Lookup(a, kid.token) == kid.left && Lookup(b, kid.token) == kid.right
            && (kid.left.Some? || kid.right.Some?)
  {
    if a.Arr? && b.Arr? {
      ItemIs(a, b, i);
    } else {
      FieldIs(a, b, i);
    }
  }

  lemma ItemIs(a: Json, b: Json, i: nat)
    requires a.Arr? && b.Arr? && i < |Children(a, b)|
    ensures var kid := Children(a, b)[i];
            && Lookup(a, kid.token) == kid.left && Lookup(b, kid.token) == kid.right && kid.left.Some?
  {
    IndexRoundTrip(Itoa(i), i);
  }

  lemma FieldIs(a: Json, b: Json, i: nat)
    requires a.Obj? && b.Obj? && i < |Children(a, b)|
    ensures var kid := Children(a, b)[i];
            && Lookup(a, kid.token) == kid.left && Lookup(b, kid.token) == kid.right
            && (kid.left.Some? || kid.right.Some?)
  {
    var keys := Keys(a.fields, b.fields);
    KeysAreKeys(a.fields, b.fields, keys[i]);
    assert keys[i] in keys;
  }

  lemma KeysAreKeys(a: map<string, Json>, b: map<string, Json>, k: string)
    ensures k in Keys(a, b) <==> k in a || k in b
  {
    SortedSeqProperties(a.Keys + b.Keys);
  }

  lemma ChildrenApart(a: Json, b: Json, i: nat, j: nat)
    requires i < j < |Children(a, b)|
    ensures Children(a, b)[i].token != Children(a, b)[j].token
  {
    if a.Arr? && b.Arr? {
      if Itoa(i) == Itoa(j) { FormatInjective(i, j, 10); }
    } else {
      SortedSeqProperties(a.fields.Keys + b.fields.Keys);
    }
  }

  lemma AllChildrenApart(a: Json, b: Json)
    ensures forall i, j | 0 <= i < j < |Children(a, b)| :: Children(a, b)[i].token != Children(a, b)[j].token
  {
    forall i, j | 0 <= i < j < |Children(a, b)| ensures Children(a, b)[i].token != Children(a, b)[j].token {
      ChildrenApart(a, b, i, j);
    }
  }

  /** A place that exists on one side is a child, unless the values already differ as a whole. */
  lemma EveryPlaceIsAChild(a: Json, b: Json, token: string) returns (i: nat)
    requires Lookup(a, token).Some? || Lookup(b, token).Some?
    requires TypeName(a) == TypeName(b)
    requires a.Arr? && b.Arr? ==> |a.items| == |b.items|
    ensures i < |Children(a, b)| && Children(a, b)[i].token == token
  {
    TypeNames(a, b);
    if a.Arr? {
      i := ParseIndex(token).value;
      IndexRoundTrip(token, i);
    } else {
      i := SortedSeqIndex(a.fields.Keys + b.fields.Keys, token);
    }
  }

  // ----- Every event is at a place -----------------------------------------------------------------

  lemma {:induction false} FromWhichChild(e: Engine, path: string, a: Json, kids: seq<Child>, ev: Event)
      returns (i: nat)
    requires forall kid | kid in kids :: kid.left.Some? ==> kid.left.value < a
    requires ev in WalkAll(e, path, a, kids)
    ensures i < |kids| && kids[i] in kids && ev in WalkChild(e, path, a, kids[i])
    decreases |kids|
  {
    if ev in WalkChild(e, path, a, kids[0]) {
      i := 0;
    } else {
      var j := FromWhichChild(e, path, a, kids[1..], ev);
      i := j + 1;
    }
  }

  lemma PathStep(path: string, token: string, rest: seq<string>)
    ensures ChildPath(path, token) + Pointer(rest) == path + Pointer([token] + rest)
  {
    assert ([token] + rest)[1..] == rest;
  }

  lemma HereIsAbout(e: Engine, path: string, a: Json, b: Json, ev: Event)
    requires ev in Here(e, path, a, b)
    ensures PathOf(ev) == path && About(e, ev, Some(a), Some(b))
  {}

  lemma {:induction false} Locate(e: Engine, path: string, a: Json, b: Json, ev: Event) returns (tokens: seq<string>)
    requires ev in Walk(e, path, a, b)
    ensures PathOf(ev) == path + Pointer(tokens)
    ensures About(e, ev, Resolve(a, tokens), Resolve(b, tokens))
    ensures tokens == [] ==> ev in Here(e, path, a, b) || ev == Hid(path, a, b)
    decreases a, 1
  {
    if a.Arr? && b.Arr? && e.Asks(path, a, b) {
      tokens := [];
    } else if ev in Here(e, path, a, b) {
      tokens := [];
      HereIsAbout(e, path, a, b, ev);
    } else {
      var kids := Children(a, b);
      var i := FromWhichChild(e, path, a, kids, ev);
      ChildIs(a, b, i);
      var rest := LocateInChild(e, path, a, kids[i], ev);
      tokens := [kids[i].token] + rest;
      PathStep(path, kids[i].token, rest);
      assert tokens[1..] == rest;
    }
  }

  lemma {:induction false} LocateInChild(e: Engine, path: string, a: Json, kid: Child, ev: Event)
      returns (rest: seq<string>)
    requires kid.left.Some? ==> kid.left.value < a
    requires ev in WalkChild(e, path, a, kid)
    ensures PathOf(ev) == ChildPath(path, kid.token) + Pointer(rest)
    ensures kid.left.Some? && kid.right.Some? ==>
              About(e, ev, Resolve(kid.left.value, rest), Resolve(kid.right.value, rest))
    ensures kid.left.None? || kid.right.None? ==> rest == [] && About(e, ev, kid.left, kid.right)
    decreases a, 0
  {
    if kid.left.Some? && kid.right.Some? {
      rest := Locate(e, ChildPath(path, kid.token), kid.left.value, kid.right.value, ev);
    } else {
      rest := [];
    }
  }

  /** Every reported body difference carries a JSON pointer that leads, on both sides, to
      what the report says is there: values that differ, or a key that one side lacks. */
  lemma BodyDifferenceResolves(e: Engine, a: Json, b: Json, d: Difference)
    requires Found(d) in Walk(e, PATH_BODY, a, b)
    ensures |PATH_BODY| <= |d.path| && d.path[..|PATH_BODY|] == PATH_BODY
    ensures var tokens := ParsePointer(d.path[|PATH_BODY|..]);
            tokens.Some? && Genuine(e.num, d, Resolve(a, tokens.value), Resolve(b, tokens.value))
  {
    var tokens := Locate(e, PATH_BODY, a, b, Found(d));
    assert d.path[|PATH_BODY|..] == Pointer(tokens);
    ParsePointerOfPointer(tokens);
  }

  // ----- No two events share a path -------------------------------------------------------------------

  ghost predicate PathsApart(events: seq<Event>) {
    forall i, j | 0 <= i < j < |events| :: PathOf(events[i]) != PathOf(events[j])
  }

  lemma PathsApartConcat(x: seq<Event>, y: seq<Event>)
    requires PathsApart(x) && PathsApart(y)
    requires forall v, w | v in x && w in y :: PathOf(v) != PathOf(w)
    ensures PathsApart(x + y)
  {}

  lemma PlacesApart(path: string, s: seq<string>, t: seq<string>)
    requires s != t
    ensures path + Pointer(s) != path + Pointer(t)
  {
    if path + Pointer(s) == path + Pointer(t) {
      assert (path + Pointer(s))[|path|..] == Pointer(s);
      assert (path + Pointer(t))[|path|..] == Pointer(t);
      PointerInjective(s, t);
    }
  }

  lemma ChildEventPath(e: Engine, path: string, a: Json, kid: Child, ev: Event) returns (tokens: seq<string>)
    requires kid.left.Some? ==> kid.left.value < a
    requires ev in WalkChild(e, path, a, kid)
    ensures tokens != [] && tokens[0] == kid.token && PathOf(ev) == path + Pointer(tokens)
  {
    var rest := LocateInChild(e, path, a, kid, ev);
    PathStep(path, kid.token, rest);
    tokens := [kid.token] + rest;
  }

  lemma HereApart(e: Engine, path: string, a: Json, b: Json, v: Event, w: Event)
    requires v in Here(e, path, a, b) && w in WalkAll(e, path, a, Children(a, b))
    ensures PathOf(v) != PathOf(w)
  {
    HereIsAbout(e, path, a, b, v);
    var i := FromWhichChild(e, path, a, Children(a, b), w);
    var tokens := ChildEventPath(e, path, a, Children(a, b)[i], w);
    PlacesApart(path, [], tokens);
    assert path + "" == path;
  }

  lemma {:induction false} WalkPathsApart(e: Engine, path: string, a: Json, b: Json)
    ensures PathsApart(Walk(e, path, a, b))
    decreases a, 1, 0
  {
    if !(a.Arr? && b.Arr? && e.Asks(path, a, b)) {
      var kids, below := Children(a, b), WalkAll(e, path, a, Children(a, b));
      AllChildrenApart(a, b);
      WalkAllPathsApart(e, path, a, kids);
      forall v, w | v in Here(e, path, a, b) && w in below ensures PathOf(v) != PathOf(w) {
        HereApart(e, path, a, b, v, w);
      }
      PathsApartConcat(Here(e, path, a, b), below);
    }
  }

  lemma ChildrenEventsApart(e: Engine, path: string, a: Json, kids: seq<Child>, v: Event, w: Event)
    requires kids != [] && forall kid | kid in kids :: kid.left.Some? ==> kid.left.value < a
    requires forall i, j | 0 <= i < j < |kids| :: kids[i].token != kids[j].token
    requires kids[0] in kids && v in WalkChild(e, path, a, kids[0]) && w in WalkAll(e, path, a, kids[1..])
    ensures PathOf(v) != PathOf(w)
  {
    var i := FromWhichChild(e, path, a, kids[1..], w);
    assert kids[1..][i] == kids[i + 1];
    var s := ChildEventPath(e, path, a, kids[0], v);
    var t := ChildEventPath(e, path, a, kids[i + 1], w);
    PlacesApart(path, s, t);
  }

  lemma {:induction false} WalkAllPathsApart(e: Engine, path: string, a: Json, kids: seq<Child>)
    requires forall kid | kid in kids :: kid.left.Some? ==> kid.left.value < a
    requires forall i, j | 0 <= i < j < |kids| :: kids[i].token != kids[j].token
    ensures PathsApart(WalkAll(e, path, a, kids))
    decreases a, 0, |kids|
  {
    if kids == [] {
    } else {
      var kid, rest := kids[0], WalkAll(e, path, a, kids[1..]);
      assert kid in kids;
      if kid.left.Some? && kid.right.Some? {
        WalkPathsApart(e, ChildPath(path, kid.token), kid.left.value, kid.right.value);
      }
      WalkAllPathsApart(e, path, a, kids[1..]);
      forall v, w | v in WalkChild(e, path, a, kid) && w in rest ensures PathOf(v) != PathOf(w) {
        ChildrenEventsApart(e, path, a, kids, v, w);
      }
      PathsApartConcat(WalkChild(e, path, a, kid), rest);
    }
  }

  // ----- Without noise rules: nothing reported exactly when nothing differs -------------------------------

  lemma {:induction false} SilentIffEquivalent(e: Engine, path: string, a: Json, b: Json)
    requires e.suppressor.NoRules?
    ensures Walk(e, path, a, b) == [] <==> Equiv(e.num, a, b)
    decreases a, 1, 0
  {
    ChildrenExist(a, b);
    AllSilentIffEquivalent(e, path, a, Children(a, b));
    ChildrenDecide(e, path, a, b);
  }

  lemma ChildrenExist(a: Json, b: Json)
    ensures forall kid | kid in Children(a, b) :: kid.left.Some? || kid.right.Some?
  {
    forall kid | kid in Children(a, b) ensures kid.left.Some? || kid.right.Some? {
      var i :| 0 <= i < |Children(a, b)| && Children(a, b)[i] == kid;
      ChildIs(a, b, i);
    }
  }

  lemma ChildrenDecide(e: Engine, path: string, a: Json, b: Json)
    requires e.suppressor.NoRules?
    ensures Equiv(e.num, a, b) <==>
            Here(e, path, a, b) == [] && forall i | 0 <= i < |Children(a, b)| :: SameChild(e.num, Children(a, b)[i])
  {
    TypeNames(a, b);
    if Here(e, path, a, b) == [] {
      if a.Obj? {
        ObjectsEquivalent(e.num, a, b);
      } else if a.Arr? {
        ArraysEquivalent(e.num, a, b);
      }
    }
  }

  ghost predicate SameChild(num: Valuation, kid: Child) {
    kid.left.Some? && kid.right.Some? && Equiv(num, kid.left.value, kid.right.value)
  }

  lemma ArraysEquivalent(num: Valuation, a: Json, b: Json)
    requires a.Arr? && b.Arr? && |a.items| == |b.items|
    ensures Equiv(num, a, b) <==> forall i | 0 <= i < |Children(a, b)| :: SameChild(num, Children(a, b)[i])
  {
    var kids := Children(a, b);
    forall i | 0 <= i < |a.items|
      ensures kids[i].left == Some(a.items[i]) && kids[i].right == Some(b.items[i])
    {}
    if forall i | 0 <= i < |kids| :: SameChild(num, kids[i]) {
      forall i | 0 <= i < |a.items| ensures Equiv(num, a.items[i], b.items[i]) { assert SameChild(num, kids[i]); }
    }
  }

  lemma FieldChild(a: map<string, Json>, b: map<string, Json>, k: string) returns (i: nat)
    requires k in a || k in b
    ensures i < |Children(Obj(a), Obj(b))| && Children(Obj(a), Obj(b))[i] == Child(k, Field(a, k), Field(b, k))
  {
    i := SortedSeqIndex(a.Keys + b.Keys, k);
  }

  lemma ChildField(a: map<string, Json>, b: map<string, Json>, i: nat) returns (k: string)
    requires i < |Children(Obj(a), Obj(b))|
    ensures (k in a || k in b) && Children(Obj(a), Obj(b))[i] == Child(k, Field(a, k), Field(b, k))
  {
    SortedSeqProperties(a.Keys + b.Keys);
    k := Keys(a, b)[i];
    assert k in Keys(a, b);
  }

  lemma ObjectsEquivalent(num: Valuation, a: Json, b: Json)
    requires a.Obj? && b.Obj?
    ensures Equiv(num, a, b) <==> forall i | 0 <= i < |Children(a, b)| :: SameChild(num, Children(a, b)[i])
  {
    var f, g, kids := a.fields, b.fields, Children(a, b);
    if Equiv(num, a, b) {
      forall i | 0 <= i < |kids| ensures SameChild(num, kids[i]) {
        var k := ChildField(f, g, i);
      }
    } else if forall i | 0 <= i < |kids| :: SameChild(num, kids[i]) {
      forall k | k in f || k in g ensures k in f && k in g && Equiv(num, f[k], g[k]) {
        var i := FieldChild(f, g, k);
        assert SameChild(num, kids[i]);
      }
    }
  }

  lemma {:induction false} AllSilentIffEquivalent(e: Engine, path: string, a: Json, kids: seq<Child>)
    requires e.suppressor.NoRules?
    requires forall kid | kid in kids :: kid.left.Some? ==> kid.left.value < a
    requires forall kid | kid in kids :: kid.left.Some? || kid.right.Some?
    ensures WalkAll(e, path, a, kids) == [] <==> forall i | 0 <= i < |kids| :: SameChild(e.num, kids[i])
    decreases a, 0, |kids|
  {
    if kids == [] {
    } else {
      assert kids[0] in kids;
      ChildSilentIffEquivalent(e, path, a, kids[0]);
      AllSilentIffEquivalent(e, path, a, kids[1..]);
      assert forall i | 1 <= i < |kids| :: kids[i] == kids[1..][i - 1];
    }
  }

  lemma {:induction false} ChildSilentIffEquivalent(e: Engine, path: string, a: Json, kid: Child)
    requires e.suppressor.NoRules? && (kid.left.Some? ==> kid.left.value < a)
    requires kid.left.Some? || kid.right.Some?
    ensures WalkChild(e, path, a, kid) == [] <==> SameChild(e.num, kid)
    decreases a, 0, 0
  {
    if kid.left.Some? && kid.right.Some? {
      SilentIffEquivalent(e, ChildPath(path, kid.token), kid.left.value, kid.right.value);
    }
  }

  // ----- Nothing is missed --------------------------------------------------------------------------------

  /** Two values, or their absence, differ at the very place. */
  ghost predicate Diverge(num: Valuation, x: Option<Json>, y: Option<Json>) {
    || x.Some? != y.Some?
    || (x.Some? && y.Some?
        && (|| TypeName(x.value) != TypeName(y.value)
            || (x.value.Arr? && y.value.Arr? && |x.value.items| != |y.value.items|)
            || (IsScalar(x.value) && !ScalarEqual(num, x.value, y.value))))
  }

  lemma {:induction false} ChildIsWalked(e: Engine, path: string, a: Json, kids: seq<Child>, i: nat, ev: Event)
    requires forall kid | kid in kids :: kid.left.Some? ==> kid.left.value < a
    requires i < |kids| && kids[i] in kids && ev in WalkChild(e, path, a, kids[i])
    ensures ev in WalkAll(e, path, a, kids)
    decreases |kids|
  {
    if i == 0 {
    } else {
      assert kids[1..][i - 1] == kids[i];
      ChildIsWalked(e, path, a, kids[1..], i - 1, ev);
    }
  }

  /** A divergence below shows up among the children. */
  lemma DivergentChild(e: Engine, path: string, a: Json, b: Json, tokens: seq<string>) returns (i: nat)
    requires e.suppressor.NoRules? && Here(e, path, a, b) == []
    requires Diverge(e.num, Resolve(a, tokens), Resolve(b, tokens))
    ensures tokens != [] && i < |Children(a, b)|
    ensures var kid := Children(a, b)[i];
            && kid in Children(a, b) && kid.token == tokens[0]
            && (kid.left.Some? && kid.right.Some? ==>
                  Diverge(e.num, Resolve(kid.left.value, tokens[1..]), Resolve(kid.right.value, tokens[1..])))
            && (kid.left.Some? || kid.right.Some?)
  {
    TypeNames(a, b);
    i := EveryPlaceIsAChild(a, b, tokens[0]);
    ChildIs(a, b, i);
  }

  lemma LiftToParent(e: Engine, path: string, a: Json, b: Json, i: nat, at: seq<string>, d: Difference)
    requires e.suppressor.NoRules? && i < |Children(a, b)| && Children(a, b)[i] in Children(a, b)
    requires Found(d) in WalkChild(e, path, a, Children(a, b)[i])
    requires d.path == ChildPath(path, Children(a, b)[i].token) + Pointer(at)
    ensures Found(d) in Walk(e, path, a, b) && d.path == path + Pointer([Children(a, b)[i].token] + at)
  {
    ChildIsWalked(e, path, a, Children(a, b), i, Found(d));
    PathStep(path, Children(a, b)[i].token, at);
    InConcat(Here(e, path, a, b), WalkAll(e, path, a, Children(a, b)), Found(d));
  }

  lemma HereIsReported(e: Engine, path: string, a: Json, b: Json) returns (d: Difference)
    requires e.suppressor.NoRules? && Here(e, path, a, b) != []
    ensures Found(d) in Walk(e, path, a, b) && d.path == path + Pointer([])
  {
    d := Here(e, path, a, b)[0].d;
    assert Found(d) in Here(e, path, a, b);
    assert path + "" == path;
  }

  lemma OneSidedIsReported(e: Engine, path: string, a: Json, kid: Child) returns (d: Difference)
    requires e.suppressor.NoRules? && (kid.left.Some? ==> kid.left.value < a)
    requires kid.left.Some? != kid.right.Some?
    ensures Found(d) in WalkChild(e, path, a, kid) && d.path == ChildPath(path, kid.token) + Pointer([])
  {
    d := WalkChild(e, path, a, kid)[0].d;
    assert Found(d) in WalkChild(e, path, a, kid);
    assert ChildPath(path, kid.token) + "" == ChildPath(path, kid.token);
  }

  /** Without noise rules, wherever the two documents diverge a difference is reported, at
      that place or above it. */
  lemma {:induction false} EveryDivergenceIsReported(e: Engine, path: string, a: Json, b: Json, tokens: seq<string>)
      returns (at: seq<string>, d: Difference)
    requires e.suppressor.NoRules?
    requires Diverge(e.num, Resolve(a, tokens), Resolve(b, tokens))
    ensures at <= tokens
    ensures Found(d) in Walk(e, path, a, b) && d.path == path + Pointer(at)
    decreases |tokens|
  {
    if Here(e, path, a, b) != [] {
      at := [];
      d := HereIsReported(e, path, a, b);
    } else {
      var i := DivergentChild(e, path, a, b, tokens);
      var t, kid := tokens[0], Children(a, b)[i];
      if kid.left.Some? && kid.right.Some? {
        at, d := EveryDivergenceIsReported(e, ChildPath(path, t), kid.left.value, kid.right.value, tokens[1..]);
      } else {
        at := [];
        d := OneSidedIsReported(e, path, a, kid);
      }
      LiftToParent(e, path, a, b, i, at, d);
      at := [t] + at;
    }
  }

  // ----- Whole results ----------------------------------------------------------------------------------------

  lemma {:induction false} HeaderEventFrom(e: Engine, h: Headers, g: Headers, names: seq<string>, ev: Event)
      returns (i: nat)
    requires ev in HeaderEvents(e, h, g, names)
    ensures i < |names| && ev in HeaderEvent(e, h, g, names[i]) && PathOf(ev) == PATH_HEADERS + "/" + names[i]
    decreases |names|
  {
    InConcat(HeaderEvent(e, h, g, names[0]), HeaderEvents(e, h, g, names[1..]), ev);
    if ev in HeaderEvent(e, h, g, names[0]) {
      i := 0;
      EventBetweenPath(e, names[0], HeaderValue(h, names[0]), HeaderValue(g, names[0]), ev);
    } else {
      var j := HeaderEventFrom(e, h, g, names[1..], ev);
      i := j + 1;
    }
  }

  lemma EventBetweenPath(e: Engine, name: string, a: string, b: string, ev: Event)
    requires ev in EventBetween(e, name, a, b)
    ensures PathOf(ev) == PATH_HEADERS + "/" + name
  {}

  lemma HeaderEventsApart(e: Engine, h: Headers, g: Headers, names: seq<string>, v: Event, w: Event)
    requires names != [] && Distinct(names)
    requires v in HeaderEvent(e, h, g, names[0]) && w in HeaderEvents(e, h, g, names[1..])
    ensures PathOf(v) != PathOf(w)
  {
    var i := HeaderEventFrom(e, h, g, names[1..], w);
    assert names[1..][i] == names[i + 1];
    EventBetweenPath(e, names[0], HeaderValue(h, names[0]), HeaderValue(g, names[0]), v);
    if PathOf(v) == PathOf(w) { SameTail(PATH_HEADERS + "/", names[0], names[i + 1]); }
  }

  lemma {:induction false} HeaderPathsApart(e: Engine, h: Headers, g: Headers, names: seq<string>)
    requires Distinct(names)
    ensures PathsApart(HeaderEvents(e, h, g, names))
  {
    if names == [] {
    } else {
      HeaderPathsApart(e, h, g, names[1..]);
      var rest := HeaderEvents(e, h, g, names[1..]);
      forall v, w | v in HeaderEvent(e, h, g, names[0]) && w in rest ensures PathOf(v) != PathOf(w) {
        HeaderEventsApart(e, h, g, names, v, w);
      }
      PathsApartConcat(HeaderEvent(e, h, g, names[0]), rest);
    }
  }

  lemma BodyPath(e: Engine, p: string, s: string, ev: Event)
    requires ev in BodyEvents(e, p, s)
    ensures PATH_BODY <= PathOf(ev)
  {
    var a, b := e.decode(p), e.decode(s);
    if a.Some? && b.Some? {
      var tokens := Locate(e, PATH_BODY, a.value, b.value, ev);
    }
  }

  lemma BodyPathsApart(e: Engine, p: string, s: string)
    ensures PathsApart(BodyEvents(e, p, s))
  {
    var a, b := e.decode(p), e.decode(s);
    if a.Some? && b.Some? {
      WalkPathsApart(e, PATH_BODY, a.value, b.value);
    }
  }

  lemma PrefixesApart(p: string, q: string)
    requires PATH_BODY <= p
    ensures p != PATH_STATUS && p != PATH_HEADERS + "/" + q && PATH_STATUS != PATH_HEADERS + "/" + q
  {
    assert p[1] == 'b' && PATH_STATUS[1] == 's' && (PATH_HEADERS + "/" + q)[1] == 'h';
  }

  /** What is not about the body. */
  ghost function TopEvents(e: Engine, p: Pair): seq<Event> {
    StatusEvents(e, p.primary.status, p.shadow.status)
      + HeaderEvents(e, p.primary.resHeaders, p.shadow.resHeaders,
                     SortedSeq(HeaderNames(p.primary.resHeaders, p.shadow.resHeaders)))
  }

  lemma TopOrBody(e: Engine, p: Pair, ev: Event)
    ensures ev in PairEvents(e, p) <==>
            ev in TopEvents(e, p) || ev in BodyEvents(e, p.primary.resBody, p.shadow.resBody)
  {
    InConcat(TopEvents(e, p), BodyEvents(e, p.primary.resBody, p.shadow.resBody), ev);
  }

  /** The rules were asked about every event: what is reported they let through, what is hidden
      they gave up. */
  predicate Answered(e: Engine, ev: Event) {
    match ev
    case Found(d) => !e.Asks(d.path, d.primary, d.shadow)
    case Hid(p, v, w) => e.Asks(p, v, w)
  }

  /** Neither a place in a body, nor about arrays, nor of the kinds that bodies have. */
  predicate NotOfBody(ev: Event) {
    && !(PATH_BODY <= PathOf(ev))
    && match ev
       case Found(d) => d.kind == Status || d.kind == Header
       case Hid(_, v, w) => !v.Arr? && !w.Arr?
  }

  lemma HeaderEventIsTop(e: Engine, name: string, a: string, b: string, ev: Event)
    requires ev in EventBetween(e, name, a, b)
    ensures Answered(e, ev) && NotOfBody(ev)
  {
    PrefixesApart(PATH_BODY, name);
    assert (PATH_HEADERS + "/" + name)[1] == 'h';
  }

  lemma StatusEventIsTop(e: Engine, p: int, s: int, ev: Event)
    requires ev in StatusEvents(e, p, s)
    ensures Answered(e, ev) && NotOfBody(ev)
  {
    assert PATH_STATUS[1] == 's';
  }

  lemma TopEvent(e: Engine, p: Pair, ev: Event)
    requires ev in TopEvents(e, p)
    ensures Answered(e, ev) && NotOfBody(ev)
  {
    var h, g := p.primary.resHeaders, p.shadow.resHeaders;
    var names := SortedSeq(HeaderNames(h, g));
    InConcat(StatusEvents(e, p.primary.status, p.shadow.status), HeaderEvents(e, h, g, names), ev);
    if ev in HeaderEvents(e, h, g, names) {
      var i := HeaderEventFrom(e, h, g, names, ev);
      HeaderEventIsTop(e, names[i], HeaderValue(h, names[i]), HeaderValue(g, names[i]), ev);
    } else {
      StatusEventIsTop(e, p.primary.status, p.shadow.status, ev);
    }
  }

  lemma BodyEvent(e: Engine, p: string, s: string, ev: Event)
    requires ev in BodyEvents(e, p, s)
    ensures Answered(e, ev)
  {
    var a, b := e.decode(p), e.decode(s);
    if a.Some? && b.Some? {
      var tokens := Locate(e, PATH_BODY, a.value, b.value, ev);
    }
  }

  lemma EveryEventIsAnswered(e: Engine, p: Pair, ev: Event)
    requires ev in PairEvents(e, p)
    ensures Answered(e, ev)
  {
    TopOrBody(e, p, ev);
    if ev in TopEvents(e, p) {
      TopEvent(e, p, ev);
    } else {
      BodyEvent(e, p.primary.resBody, p.shadow.resBody, ev);
    }
  }

  lemma BelowBodyIsBody(e: Engine, p: Pair, ev: Event)
    requires ev in PairEvents(e, p) && PATH_BODY <= PathOf(ev)
    ensures ev in BodyEvents(e, p.primary.resBody, p.shadow.resBody)
  {
    TopOrBody(e, p, ev);
    if ev in TopEvents(e, p) { TopEvent(e, p, ev); }
  }

  lemma TopPathsApart(e: Engine, p: int, s: int, h: Headers, g: Headers, names: seq<string>)
    requires Distinct(names)
    ensures PathsApart(StatusEvents(e, p, s) + HeaderEvents(e, h, g, names))
  {
    var status, headers := StatusEvents(e, p, s), HeaderEvents(e, h, g, names);
    HeaderPathsApart(e, h, g, names);
    forall v, w | v in status && w in headers ensures PathOf(v) != PathOf(w) {
      var i := HeaderEventFrom(e, h, g, names, w);
      PrefixesApart(PATH_BODY, names[i]);
    }
    PathsApartConcat(status, headers);
  }

  /** In one comparison, no two events, reported or hidden, share a path. */
  lemma PairPathsApart(e: Engine, p: Pair)
    ensures PathsApart(PairEvents(e, p))
  {
    var h, g := p.primary.resHeaders, p.shadow.resHeaders;
    SortedSeqProperties(HeaderNames(h, g));
    TopPathsApart(e, p.primary.status, p.shadow.status, h, g, SortedSeq(HeaderNames(h, g)));
    BodyPathsApart(e, p.primary.resBody, p.shadow.resBody);
    var body := BodyEvents(e, p.primary.resBody, p.shadow.resBody);
    forall v, w | v in TopEvents(e, p) && w in body ensures PathOf(v) != PathOf(w) {
      TopEvent(e, p, v);
      BodyPath(e, p.primary.resBody, p.shadow.resBody, w);
    }
    PathsApartConcat(TopEvents(e, p), body);
  }

  lemma {:induction false} ReportedFrom(events: seq<Event>, i: nat) returns (k: nat)
    requires i < |Reported(events)|
    ensures k < |events| && events[k] == Found(Reported(events)[i])
    ensures |Reported(events[..k])| == i
  {
    if events[0].Found? && i == 0 {
      k := 0;
    } else {
      var first := if events[0].Found? then 1 else 0;
      var j := ReportedFrom(events[1..], i - first);
      k := j + 1;
      assert events[..k][1..] == events[1..][..j];
    }
  }

  lemma ReportedApart(events: seq<Event>, i: nat, j: nat)
    requires PathsApart(events) && i < j < |Reported(events)|
    ensures Reported(events)[i].path != Reported(events)[j].path
  {
    var k := ReportedFrom(events, i);
    var l := ReportedFrom(events, j);
    assert PathOf(events[k]) == Reported(events)[i].path && PathOf(events[l]) == Reported(events)[j].path;
    assert k != l;
  }

  ghost predicate OnePerPath(ds: seq<Difference>) {
    forall i, j | 0 <= i < j < |ds| :: ds[i].path != ds[j].path
  }

  /** So within one result every path, and with it every (kind, path), is reported once. */
  lemma ResultPathsUnique(e: Engine, p: Pair)
    ensures OnePerPath(ResultOf(e, p).differences)
  {
    var events := PairEvents(e, p);
    var ds := Reported(events);
    PairPathsApart(e, p);
    forall i, j | 0 <= i < j < |ds| ensures ds[i].path != ds[j].path { ReportedApart(events, i, j); }
  }

  // ----- When a result is identical -------------------------------------------------------------------------

  ghost predicate SameHeaders(h: Headers, g: Headers) {
    forall name | name in HeaderNames(h, g) :: HeaderValue(h, name) == HeaderValue(g, name)
  }

  /** Equivalent documents, or the same bytes where neither side is a document. */
  ghost predicate SameBodies(e: Engine, p: string, s: string) {
    match (e.decode(p), e.decode(s))
    case (Some(a), Some(b)) => Equiv(e.num, a, b)
    case (None, None) => p == s
    case _ => false
  }

  lemma {:induction false} HeadersSilentIffSame(e: Engine, h: Headers, g: Headers, names: seq<string>)
    requires e.suppressor.NoRules?
    ensures HeaderEvents(e, h, g, names) == [] <==>
            forall name | name in names :: HeaderValue(h, name) == HeaderValue(g, name)
  {
    if names == [] {
    } else {
      HeadersSilentIffSame(e, h, g, names[1..]);
      SilentBetween(e, names[0], HeaderValue(h, names[0]), HeaderValue(g, names[0]));
      forall name ensures name in names <==> name == names[0] || name in names[1..] {
        InConcat([names[0]], names[1..], name);
        assert names == [names[0]] + names[1..];
      }
    }
  }

  lemma SilentBetween(e: Engine, name: string, a: string, b: string)
    requires e.suppressor.NoRules?
    ensures EventBetween(e, name, a, b) == [] <==> a == b
  {}

  lemma {:induction false} RawReports(events: seq<Event>)
    requires forall ev | ev in events :: ev.Found?
    ensures Reported(events) == [] <==> events == []
  {
    if events != [] { assert events[0] in events; }
  }

  /** Without noise rules a pair is identical if and only if the status codes are equal, every
      header outside the transport ones has the same value on both sides, and the bodies are
      equivalent documents or, where neither is a document, the same bytes. */
  lemma IdenticalIffSame(e: Engine, p: Pair)
    requires e.suppressor.NoRules?
    ensures ResultOf(e, p).Identical() <==>
            && p.primary.status == p.shadow.status
            && SameHeaders(p.primary.resHeaders, p.shadow.resHeaders)
            && SameBodies(e, p.primary.resBody, p.shadow.resBody)
  {
    var h, g := p.primary.resHeaders, p.shadow.resHeaders;
    var names := SortedSeq(HeaderNames(h, g));
    forall ev | ev in PairEvents(e, p) ensures ev.Found? { EveryEventIsAnswered(e, p, ev); }
    RawReports(PairEvents(e, p));
    SortedSeqProperties(HeaderNames(h, g));
    HeadersSilentIffSame(e, h, g, names);
    BodiesSilentIffSame(e, p.primary.resBody, p.shadow.resBody);
  }

  lemma BodiesSilentIffSame(e: Engine, p: string, s: string)
    requires e.suppressor.NoRules?
    ensures BodyEvents(e, p, s) == [] <==> SameBodies(e, p, s)
  {
    var a, b := e.decode(p), e.decode(s);
    if a.Some? && b.Some? { SilentIffEquivalent(e, PATH_BODY, a.value, b.value); }
  }

  // ----- Differences that look like none ---------------------------------------------------------------------

  lemma ItemsDiffer(m: nat, n: nat)
    requires m != n
    ensures Itoa(m) + " items" != Itoa(n) + " items"
  {
    var s, t := Itoa(m) + " items", Itoa(n) + " items";
    if s == t {
      assert |Itoa(m)| == |Itoa(n)|;
      assert s[..|Itoa(m)|] == Itoa(m) && t[..|Itoa(n)|] == Itoa(n);
      FormatInjective(m, n, 10);
    }
  }

  lemma GenuineSides(num: Valuation, d: Difference, x: Option<Json>, y: Option<Json>)
    requires Genuine(num, d, x, y)
    ensures d.primary == d.shadow <==> d.kind == BodyKey && d.primary == Null && d.shadow == Null
  {
    if d.kind == Shape && x.value.Arr? && y.value.Arr? && |x.value.items| != |y.value.items| {
      ItemsDiffer(|x.value.items|, |y.value.items|);
    }
  }

  /** A reported body difference has the same value on both sides if and only if it is a key
      that holds null on one side and is missing from the other, where missing reads as null. */
  lemma EqualSidesAreNullKeys(e: Engine, p: string, s: string, d: Difference)
    requires Found(d) in BodyEvents(e, p, s)
    ensures d.primary == d.shadow <==> d.kind == BodyKey && d.primary == Null && d.shadow == Null
  {
    var a, b := e.decode(p), e.decode(s);
    if a.Some? && b.Some? {
      var tokens := Locate(e, PATH_BODY, a.value, b.value, Found(d));
      GenuineSides(e.num, d, Resolve(a.value, tokens), Resolve(b.value, tokens));
    }
  }

  /** A null on one side and nothing on the other. */
  predicate NullAlone(x: Option<Json>, y: Option<Json>) {
    (x == Some(Null) && y == None) || (x == None && y == Some(Null))
  }

  /** Somewhere both documents hold an object, and a key of one is null and of the other missing. */
  ghost predicate HoldsNullKey(a: Json, b: Json) {
    match (a, b)
    case (Obj(f), Obj(g)) =>
      exists k ::
        && (k in f || k in g)
        && (NullAlone(Field(f, k), Field(g, k)) || (k in f && k in g && HoldsNullKey(f[k], g[k])))
    case (Arr(x), Arr(y)) => exists i :: 0 <= i < Min(|x|, |y|) && HoldsNullKey(x[i], y[i])
    case _ => false
  }

  ghost predicate NullChild(kid: Child) {
    || NullAlone(kid.left, kid.right)
    || (kid.left.Some? && kid.right.Some? && HoldsNullKey(kid.left.value, kid.right.value))
  }

  lemma ObjectNullChild(f: map<string, Json>, g: map<string, Json>)
    ensures HoldsNullKey(Obj(f), Obj(g)) <==>
            exists i :: 0 <= i < |Children(Obj(f), Obj(g))| && NullChild(Children(Obj(f), Obj(g))[i])
  {
    var kids := Children(Obj(f), Obj(g));
    if HoldsNullKey(Obj(f), Obj(g)) {
      var k :| && (k in f || k in g)
               && (NullAlone(Field(f, k), Field(g, k)) || (k in f && k in g && HoldsNullKey(f[k], g[k])));
      var i := FieldChild(f, g, k);
      assert NullChild(kids[i]);
    }
    if i :| 0 <= i < |kids| && NullChild(kids[i]) {
      var k := ChildField(f, g, i);
    }
  }

  lemma ArrayNullChild(x: seq<Json>, y: seq<Json>)
    ensures HoldsNullKey(Arr(x), Arr(y)) <==>
            exists i :: 0 <= i < |Children(Arr(x), Arr(y))| && NullChild(Children(Arr(x), Arr(y))[i])
  {
    var kids := Children(Arr(x), Arr(y));
    forall i | 0 <= i < |kids| ensures NullChild(kids[i]) <==> HoldsNullKey(x[i], y[i]) {}
    if HoldsNullKey(Arr(x), Arr(y)) {
      var i :| 0 <= i < Min(|x|, |y|) && HoldsNullKey(x[i], y[i]);
      assert NullChild(kids[i]);
    }
  }

  lemma NullKeyIsInAChild(a: Json, b: Json)
    ensures HoldsNullKey(a, b) <==> exists i :: 0 <= i < |Children(a, b)| && NullChild(Children(a, b)[i])
  {
    if a.Obj? && b.Obj? {
      ObjectNullChild(a.fields, b.fields);
    } else if a.Arr? && b.Arr? {
      ArrayNullChild(a.items, b.items);
    }
  }

  /** Some reported difference has the same value on both sides. */
  ghost predicate LooksEqual(events: seq<Event>) {
    exists d :: Found(d) in events && d.primary == d.shadow
  }

  lemma LooksEqualConcat(x: seq<Event>, y: seq<Event>)
    ensures LooksEqual(x + y) <==> LooksEqual(x) || LooksEqual(y)
  {
    if LooksEqual(x) {
      var d :| Found(d) in x && d.primary == d.shadow;
      InConcat(x, y, Found(d));
    }
    if LooksEqual(y) {
      var d :| Found(d) in y && d.primary == d.shadow;
      InConcat(x, y, Found(d));
    }
  }

  lemma HereLooksDifferent(e: Engine, path: string, a: Json, b: Json)
    ensures !LooksEqual(Here(e, path, a, b))
  {
    forall d | Found(d) in Here(e, path, a, b) ensures d.primary != d.shadow {
      HereIsAbout(e, path, a, b, Found(d));
      GenuineSides(e.num, d, Some(a), Some(b));
    }
  }

  lemma {:induction false} WalkLooksEqual(e: Engine, path: string, a: Json, b: Json)
    requires e.suppressor.NoRules?
    ensures LooksEqual(Walk(e, path, a, b)) <==> HoldsNullKey(a, b)
    decreases a, 1, 0
  {
    HereLooksDifferent(e, path, a, b);
    AllLookEqual(e, path, a, Children(a, b));
    LooksEqualConcat(Here(e, path, a, b), WalkAll(e, path, a, Children(a, b)));
    NullKeyIsInAChild(a, b);
  }

  lemma {:induction false} AllLookEqual(e: Engine, path: string, a: Json, kids: seq<Child>)
    requires e.suppressor.NoRules?
    requires forall kid | kid in kids :: kid.left.Some? ==> kid.left.value < a
    ensures LooksEqual(WalkAll(e, path, a, kids)) <==> exists i :: 0 <= i < |kids| && NullChild(kids[i])
    decreases a, 0, |kids|
  {
    if kids == [] {
    } else {
      assert kids[0] in kids;
      ChildLooksEqual(e, path, a, kids[0]);
      AllLookEqual(e, path, a, kids[1..]);
      LooksEqualConcat(WalkChild(e, path, a, kids[0]), WalkAll(e, path, a, kids[1..]));
      FirstOrLater(kids);
    }
  }

  lemma FirstOrLater(kids: seq<Child>)
    requires kids != []
    ensures (exists i :: 0 <= i < |kids| && NullChild(kids[i])) <==>
            NullChild(kids[0]) || exists i :: 0 <= i < |kids[1..]| && NullChild(kids[1..][i])
  {
    if i :| 0 <= i < |kids[1..]| && NullChild(kids[1..][i]) {
      assert kids[1..][i] == kids[i + 1];
    }
    if i :| 0 <= i < |kids| && NullChild(kids[i]) {
      if i > 0 { assert kids[1..][i - 1] == kids[i]; }
    }
  }

  lemma {:induction false} ChildLooksEqual(e: Engine, path: string, a: Json, kid: Child)
    requires e.suppressor.NoRules? && (kid.left.Some? ==> kid.left.value < a)
    ensures LooksEqual(WalkChild(e, path, a, kid)) <==> NullChild(kid)
    decreases a, 0, 0
  {
    var p := ChildPath(path, kid.token);
    match (kid.left, kid.right)
    case (Some(l), Some(r)) => WalkLooksEqual(e, p, l, r);
    case (Some(l), None) => assert Found(Difference(BodyKey, p, l, Null)) in WalkChild(e, path, a, kid);
    case (None, Some(r)) => assert Found(Difference(BodyKey, p, Null, r)) in WalkChild(e, path, a, kid);
    case (None, None) =>
  }

  /** Without noise rules, a comparison of two bodies reports a difference with the same value on
      both sides if and only if both are documents, and somewhere in both an object holds null
      under a key that the other lacks. */
  lemma LooksEqualIffNullKey(e: Engine, p: string, s: string)
    requires e.suppressor.NoRules?
    ensures LooksEqual(BodyEvents(e, p, s)) <==>
            e.decode(p).Some? && e.decode(s).Some? && HoldsNullKey(e.decode(p).value, e.decode(s).value)
  {
    var a, b := e.decode(p), e.decode(s);
    if a.Some? && b.Some? {
      WalkLooksEqual(e, PATH_BODY, a.value, b.value);
    } else {
      forall d | Found(d) in BodyEvents(e, p, s) ensures d.primary != d.shadow { EqualSidesAreNullKeys(e, p, s, d); }
    }
  }

  lemma SortedSingleton(k: string)
    ensures SortedSeq({k}) == [k]
  {
    SortedSeqProperties({k});
    var keys := SortedSeq({k});
    assert multiset(keys) == multiset{k};
    assert |multiset(keys)| == |keys| == 1;
    assert keys[0] in keys;
  }

  /** Two objects with at most one key between them. */
  lemma OneKeyWalk(e: Engine, path: string, a: map<string, Json>, b: map<string, Json>, k: string)
    requires a.Keys + b.Keys == {k}
    ensures (Child(k, Field(a, k), Field(b, k)).left.Some? ==> Child(k, Field(a, k), Field(b, k)).left.value < Obj(a))
    ensures Walk(e, path, Obj(a), Obj(b)) == WalkChild(e, path, Obj(a), Child(k, Field(a, k), Field(b, k)))
  {
    var kid := Child(k, Field(a, k), Field(b, k));
    var kids := Children(Obj(a), Obj(b));
    SortedSingleton(k);
    assert Keys(a, b) == [k];
    assert |kids| == 1 && kids[0] == kid;
    assert kids[1..] == [] && kid in kids;
    assert WalkAll(e, path, Obj(a), kids) == WalkChild(e, path, Obj(a), kid) + [];
    assert Walk(e, path, Obj(a), Obj(b)) == [] + WalkAll(e, path, Obj(a), kids);
  }

  /** Such a case: a null key against no key is reported, as null against null. */
  lemma NullKeyAgainstNone(e: Engine, path: string, k: string)
    requires e.suppressor.NoRules?
    ensures Walk(e, path, Obj(map[k := Null]), Obj(map[])) ==
            [Found(Difference(BodyKey, ChildPath(path, k), Null, Null))]
    ensures !Equiv(e.num, Obj(map[k := Null]), Obj(map[]))
  {
    var a, b := Obj(map[k := Null]), Obj(map[]);
    SilentIffEquivalent(e, path, a, b);
    OneKeyWalk(e, path, a.fields, b.fields, k);
  }
}
