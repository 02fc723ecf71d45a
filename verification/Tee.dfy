/** Where captured bodies come from: the tee on the primary's response, the limited read of
    the shadow's, and the one door into the buffer that both pass. */
module Tee {
  import opened Text
  import opened Json
  import opened Collector
  import opened Diff
  import opened DiffPaths
  import opened DiffRules

  /** The first n bytes, or all there are. */
  function First(s: string, n: nat): (r: string)
    ensures r <= s && |r| == if |s| <= n then |s| else n
    ensures |s| <= n ==> r == s
  {
    s[..Min(|s|, n)]
  }

  lemma FirstGrows(s: string, chunk: string, n: nat)
    ensures First(s + chunk, n) == First(s, n) + First(chunk, n - |First(s, n)|)
  {
    if |s| < n {
      assert First(s, n) == s;
      assert (s + chunk)[..Min(|s + chunk|, n)] == s + chunk[..Min(|chunk|, n - |s|)];
    } else {
      assert (s + chunk)[..n] == s[..n] == First(s, n);
    }
  }

  /** The body of the primary's response on its way to the client. */
  class TeeBody {
    const max: nat
    var buf: string
    var armed: bool            // the capture has not been handed over
    ghost var passed: string   // what the client has been given

    ghost predicate Valid()
      reads this
    {
      buf == First(passed, max)
    }

    constructor (max: nat)
      ensures Valid() && this.max == max && armed && passed == ""
    {
      this.max := max;
      buf, passed, armed := "", "", true;
    }

    /** Whatever the upstream read yields goes to the client unchanged. */
    method Read(chunk: string) returns (out: string)
      requires Valid()
      modifies this
      ensures Valid() && armed == old(armed)
      ensures out == chunk && passed == old(passed) + chunk
    {
      FirstGrows(passed, chunk, max);
      passed := passed + chunk;
      if |chunk| > 0 && |buf| < max {
        buf := buf + chunk[..Min(|chunk|, max - |buf|)];
      }
      out := chunk;
    }

    /** The first Close hands over what was kept; a second one hands over nothing. */
    method Close() returns (handed: Option<string>)
      requires Valid()
      modifies this
      ensures Valid() && !armed && passed == old(passed)
      ensures handed == if old(armed) then Some(First(passed, max)) else None
    {
      handed := None;
      if armed {
        handed := Some(buf);
        armed := false;
      }
    }
  }

  function Flatten(chunks: seq<string>): string {
    if chunks == [] then "" else Flatten(chunks[..|chunks| - 1]) + chunks[|chunks| - 1]
  }

  /** The forwarding library copies the response in these chunks and closes it: the client sees
      the bytes as they are, and the capture holds the first max of them, however cut up. */
  method Stream(max: nat, chunks: seq<string>) returns (seen: string, handed: Option<string>)
    ensures seen == Flatten(chunks)
    ensures handed == Some(First(Flatten(chunks), max))
  {
    var t := new TeeBody(max);
    seen := "";
    var i := 0;
    while i < |chunks|
      invariant 0 <= i <= |chunks|
      invariant t.Valid() && t.armed && t.max == max && t.passed == seen == Flatten(chunks[..i])
      invariant fresh(t)
    {
      var out := t.Read(chunks[i]);
      assert chunks[..i + 1][..i] == chunks[..i];
      seen := seen + out;
      i := i + 1;
    }
    assert chunks[..|chunks|] == chunks;
    handed := t.Close();
  }

  /** The shadow's response is read whole, up to the limit. */
  method ReadLimited(max: nat, chunks: seq<string>) returns (body: string)
    ensures body == First(Flatten(chunks), max)
  {
    body := "";
    var i := 0;
    while i < |chunks| && |body| < max
      invariant 0 <= i <= |chunks|
      invariant body == First(Flatten(chunks[..i]), max)
    {
      FirstGrows(Flatten(chunks[..i]), chunks[i], max);
      assert chunks[..i + 1][..i] == chunks[..i];
      body := body + First(chunks[i], max - |body|);
      i := i + 1;
    }
    FlattenSplit(chunks, i);
    FirstGrows(Flatten(chunks[..i]), Flatten(chunks[i..]), max);
  }

  lemma {:induction false} FlattenSplit(chunks: seq<string>, i: nat)
    requires i <= |chunks|
    ensures Flatten(chunks) == Flatten(chunks[..i]) + Flatten(chunks[i..])
  {
    if i == |chunks| {
      assert chunks[..i] == chunks && chunks[i..] == [];
    } else {
      var n := |chunks| - 1;
      FlattenSplit(chunks[..n], i);
      assert chunks[..n][..i] == chunks[..i] && chunks[..n][i..] == chunks[i..][..n - i];
    }
  }

  /** The request body: what has come in and, if it breaks off, that it does. It is read up to
      one byte over the limit and then put back together. It is mirrored exactly when it is
      complete and within the limit; the primary gets every byte of it in any case. */
  method ReadRequest(max: nat, data: string, breaksOff: bool) returns (mirrored: bool, copy: string, forwarded: string)
    ensures mirrored <==> !breaksOff && |data| <= max
    ensures forwarded == data
    ensures mirrored ==> copy == data
  {
    copy := First(data, max + 1);
    var rest := data[|copy|..];
    var failed := breaksOff && |copy| < max + 1;   // the limit hides what comes after it
    mirrored := !failed && |copy| <= max;
    forwarded := if mirrored then copy else copy + rest;
  }

  // ----- The door into the buffer ---------------------------------------------------------------------

  /** What the scrubber makes of a body and of a header. */
  datatype Scrubber = Scrubber(body: string -> string, header: (string, seq<string>) -> seq<string>)

  function Limit(b: string, max: nat): (r: string)
    ensures r == First(b, max)
  {
    if |b| > max then b[..max] else b
  }

  function ScrubHeaders(s: Scrubber, h: Headers): (r: Headers)
    ensures r.Keys == h.Keys
  {
    map k | k in h :: s.header(k, h[k])
  }

  /** What is stored of a capture: scrubbed, and the bodies then cut. */
  function Stored(s: Scrubber, max: nat, c: Capture): Capture {
    c.(reqBody := First(s.body(c.reqBody), max), resBody := First(s.body(c.resBody), max),
       reqHeaders := ScrubHeaders(s, c.reqHeaders), resHeaders := ScrubHeaders(s, c.resHeaders))
  }

  /** A stored body: the scrubbed one, or as much of it as may be kept. */
  predicate BodyStored(s: Scrubber, max: nat, raw: string, stored: string) {
    stored <= s.body(raw) && |stored| == if |s.body(raw)| <= max then |s.body(raw)| else max
  }

  /** Stored headers: under the same names, what the scrubber makes of each name and its values. */
  predicate HeadersStored(s: Scrubber, raw: Headers, stored: Headers) {
    stored.Keys == raw.Keys && forall k | k in raw :: stored[k] == s.header(k, raw[k])
  }

  /** The scrubbed form of a capture: both bodies and both header maps, and nothing else changed. */
  predicate Scrubbed(s: Scrubber, max: nat, raw: Capture, stored: Capture) {
    && BodyStored(s, max, raw.reqBody, stored.reqBody) && BodyStored(s, max, raw.resBody, stored.resBody)
    && HeadersStored(s, raw.reqHeaders, stored.reqHeaders) && HeadersStored(s, raw.resHeaders, stored.resHeaders)
    && stored.path == raw.path && stored.correlId == raw.correlId && stored.httpMethod == raw.httpMethod
    && stored.url == raw.url && stored.status == raw.status && stored.at == raw.at
  }

  lemma StoredIsScrubbed(s: Scrubber, max: nat, c: Capture)
    ensures Scrubbed(s, max, c, Stored(s, max, c))
  {}

  /** Nothing of a raw body or a raw header reaches the buffer but through the scrubber: two
      captures that it makes the same of, and that are otherwise the same, are stored the same. */
  lemma OnlyScrubbedIsStored(s: Scrubber, max: nat, c: Capture, d: Capture, c': Capture, d': Capture)
    requires Scrubbed(s, max, c, c') && Scrubbed(s, max, d, d')
    requires s.body(c.reqBody) == s.body(d.reqBody) && s.body(c.resBody) == s.body(d.resBody)
    requires c.reqHeaders.Keys == d.reqHeaders.Keys && c.resHeaders.Keys == d.resHeaders.Keys
    requires forall k | k in c.reqHeaders :: s.header(k, c.reqHeaders[k]) == s.header(k, d.reqHeaders[k])
    requires forall k | k in c.resHeaders :: s.header(k, c.resHeaders[k]) == s.header(k, d.resHeaders[k])
    requires d == c.(reqBody := d.reqBody, resBody := d.resBody, reqHeaders := d.reqHeaders,
                     resHeaders := d.resHeaders)
    ensures c' == d'
  {
    assert c'.reqHeaders == d'.reqHeaders && c'.resHeaders == d'.resHeaders;
  }

  /** Rewrite the values of a header map, name by name. */
  method RewriteHeaders(s: Scrubber, h: Headers) returns (headers: Headers)
    ensures headers == ScrubHeaders(s, h)
  {
    headers := h;
    var rest := h.Keys;
    while rest != {}
      invariant rest <= h.Keys == headers.Keys
      invariant forall k | k in headers :: headers[k] == if k in rest then h[k] else s.header(k, h[k])
      decreases rest
    {
      var k :| k in rest;
      headers := headers[k := s.header(k, headers[k])];
      rest := rest - {k};
    }
    assert headers == ScrubHeaders(s, h);
  }

  method Prepare(s: Scrubber, max: nat, c: Capture) returns (d: Capture)
    ensures d == Stored(s, max, c) && Scrubbed(s, max, c, d)
    ensures |d.reqBody| <= max && |d.resBody| <= max
    ensures FoldDistinct(c.resHeaders) ==> FoldDistinct(d.resHeaders)
  {
    var reqHeaders := RewriteHeaders(s, c.reqHeaders);
    var resHeaders := RewriteHeaders(s, c.resHeaders);
    d := c.(reqBody := Limit(s.body(c.reqBody), max), resBody := Limit(s.body(c.resBody), max),
            reqHeaders := reqHeaders, resHeaders := resHeaders);
    StoredIsScrubbed(s, max, c);
  }

  // ----- Equal responses are found equal -----------------------------------------------------------------

  /** Equal bodies give no difference, whatever the rules say. */
  lemma EqualBodiesAreSilent(e: Engine, body: string)
    ensures Reported(BodyEvents(e, body, body)) == []
  {
    var a := e.decode(body);
    if a.Some? {
      EquivReflexive(e.num, a.value);
      SilentIffEquivalent(e.Raw(), PATH_BODY, a.value, a.value);
    }
    BodyThinned(e, body, body);
    assert BodyEvents(e.Raw(), body, body) == [];
  }

  /** When the client reads the primary's response to its end and the shadow answered with the
      same bytes, both captures are stored with the same body, however the bytes arrived, and
      the comparison reports no difference in the body. */
  lemma SameBytesSameBody(s: Scrubber, max: nat, e: Engine, p: Pair, primary: Capture, shadow: Capture,
                          here: seq<string>, there: seq<string>)
    requires Flatten(here) == Flatten(there)
    requires primary.resBody == First(Flatten(here), max)     // as Stream hands it over
    requires shadow.resBody == First(Flatten(there), max)     // as ReadLimited returns it
    requires p.primary == Stored(s, max, primary) && p.shadow == Stored(s, max, shadow)
    ensures p.primary.resBody == p.shadow.resBody
    ensures forall d | d in ResultOf(e, p).differences :: !(PATH_BODY <= d.path)
  {
    var body := p.primary.resBody;
    EqualBodiesAreSilent(e, body);
    forall d | d in ResultOf(e, p).differences ensures !(PATH_BODY <= d.path) {
      if PATH_BODY <= d.path {
        ReportedIsFound(PairEvents(e, p), d);
        BelowBodyIsBody(e, p, Found(d));
        ReportedIsFound(BodyEvents(e, body, body), d);
      }
    }
  }
}
