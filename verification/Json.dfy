/** Decoded JSON values, when two of them are the same, and JSON pointers into them. */
module Json {
  import opened Text

  /** A number keeps its spelling; an object's keys are unordered. */
  datatype Json =
    | Null
    | Bool(b: bool)
    | Num(literal: string)
    | Str(s: string)
    | Arr(items: seq<Json>)
    | Obj(fields: map<string, Json>)

  /** The value of a numeral, where there is one: strconv.ParseFloat. Different spellings,
      and even different integers, may share a value. */
  type Valuation = string -> Option<real>

  function TypeName(v: Json): string {
    match v
    case Null => "null"
    case Bool(_) => "boolean"
    case Num(_) => "number"
    case Str(_) => "string"
    case Arr(_) => "array"
    case Obj(_) => "object"
  }

  predicate IsScalar(v: Json) {
    !v.Arr? && !v.Obj?
  }

  /** Numbers compare by value when both have one, everything else by identity. */
  predicate ScalarEqual(num: Valuation, a: Json, b: Json) {
    if a.Num? && b.Num? && num(a.literal).Some? && num(b.literal).Some? then
      num(a.literal) == num(b.literal)
    else a == b
  }

  /** Structural equality, independent of any walk over the values. */
  predicate Equiv(num: Valuation, a: Json, b: Json) {
    match (a, b)
    case (Obj(f), Obj(g)) => f.Keys == g.Keys && forall k | k in f :: Equiv(num, f[k], g[k])
    case (Arr(x), Arr(y)) => |x| == |y| && forall i | 0 <= i < |x| :: Equiv(num, x[i], y[i])
    case _ => TypeName(a) == TypeName(b) && IsScalar(a) && ScalarEqual(num, a, b)
  }

  lemma TypeNames(a: Json, b: Json)
    ensures TypeName(a) == TypeName(b) <==>
            (a.Null? && b.Null?) || (a.Bool? && b.Bool?) || (a.Num? && b.Num?) || (a.Str? && b.Str?) ||
            (a.Arr? && b.Arr?) || (a.Obj? && b.Obj?)
  {
    assert TypeName(a)[0] in {'n', 'b', 's', 'a', 'o'};
    assert "null"[2] != "number"[2];
  }

  lemma {:induction false} EquivReflexive(num: Valuation, a: Json)
    ensures Equiv(num, a, a)
  {
    match a
    case Obj(f) => forall k | k in f ensures Equiv(num, f[k], f[k]) { EquivReflexive(num, f[k]); }
    case Arr(x) => forall i | 0 <= i < |x| ensures Equiv(num, x[i], x[i]) { EquivReflexive(num, x[i]); }
    case _ =>
  }

  lemma {:induction false} EquivSymmetric(num: Valuation, a: Json, b: Json)
    requires Equiv(num, a, b)
    ensures Equiv(num, b, a)
  {
    match (a, b)
    case (Obj(f), Obj(g)) => forall k | k in g ensures Equiv(num, g[k], f[k]) { EquivSymmetric(num, f[k], g[k]); }
    case (Arr(x), Arr(y)) =>
      forall i | 0 <= i < |x| ensures Equiv(num, y[i], x[i]) { EquivSymmetric(num, x[i], y[i]); }
    case _ =>
  }

  lemma {:induction false} EquivTransitive(num: Valuation, a: Json, b: Json, c: Json)
    requires Equiv(num, a, b) && Equiv(num, b, c)
    ensures Equiv(num, a, c)
  {
    TypeNames(a, b);
    TypeNames(b, c);
    match (a, c)
    case (Obj(f), Obj(h)) =>
      forall k | k in f ensures Equiv(num, f[k], h[k]) { EquivTransitive(num, f[k], b.fields[k], h[k]); }
    case (Arr(x), Arr(z)) =>
      forall i | 0 <= i < |x| ensures Equiv(num, x[i], z[i]) { EquivTransitive(num, x[i], b.items[i], z[i]); }
    case _ =>
  }

  /** Which leaves are equivalent: the same strings, the same Booleans, null and null, and
      numbers of the same value or, where one has none, of the same spelling. */
  lemma EquivOfLeaves(num: Valuation, s: string, t: string, b: bool, c: bool, v: Json)
    ensures Equiv(num, Str(s), Str(t)) <==> s == t
    ensures Equiv(num, Bool(b), Bool(c)) <==> b == c
    ensures Equiv(num, Null, v) <==> v == Null
    ensures Equiv(num, Num(s), Num(t)) <==>
            if num(s).Some? && num(t).Some? then num(s).value == num(t).value else s == t
    ensures !Equiv(num, Str(s), Num(t)) && !Equiv(num, Str(s), Bool(c)) && !Equiv(num, Bool(b), Num(t))
  {
    TypeNames(Null, v);
  }

  // ----- JSON pointers, RFC 6901 --------------------------------------------------------------

  function EscapeChar(c: char): string {
    if c == '~' then "~0" else if c == '/' then "~1" else [c]
  }

  /** Section 3 of RFC 6901: "~" becomes "~0" and "/" becomes "~1". */
  function Escape(token: string): (r: string)
    ensures '/' !in r
  {
    if token == "" then "" else EscapeChar(token[0]) + Escape(token[1..])
  }

  lemma {:induction false} EscapeConcat(s: string, t: string)
    ensures Escape(s + t) == Escape(s) + Escape(t)
  {
    if s == "" {
      assert s + t == t;
    } else {
      EscapeConcat(s[1..], t);
      assert (s + t)[1..] == s[1..] + t;
      Associative(EscapeChar(s[0]), Escape(s[1..]), Escape(t));
    }
  }

  lemma {:induction false} NothingToEscape(s: string)
    requires '~' !in s && '/' !in s
    ensures Escape(s) == s
  {
    if s == "" {
    } else {
      NothingToEscape(s[1..]);
      assert s[0] in s && s == [s[0]] + s[1..];
    }
  }

  lemma EscapeAround(s: string, c: char, t: string)
    ensures Escape(s + [c] + t) == Escape(s) + EscapeChar(c) + Escape(t)
  {
    EscapeConcat(s + [c], t);
    EscapeConcat(s, [c]);
    assert [c][1..] == "" && Escape([c]) == EscapeChar(c) + "";
  }

  /** Each "~" is written "~0" and each "/" is written "~1"; everything else stays. */
  lemma EscapeMeans(s: string, t: string)
    ensures Escape(s + "~" + t) == Escape(s) + "~0" + Escape(t)
    ensures Escape(s + "/" + t) == Escape(s) + "~1" + Escape(t)
    ensures '~' !in s && '/' !in s ==> Escape(s) == s
  {
    EscapeAround(s, '~', t);
    EscapeAround(s, '/', t);
    if '~' !in s && '/' !in s { NothingToEscape(s); }
  }

  /** Section 4 of RFC 6901; a "~" that escapes nothing is an error. */
  function Unescape(r: string): Option<string> {
    if r == "" then Some("")
    else if r[0] == '~' then
      if |r| < 2 || r[1] !in "01" then None
      else
        var rest := Unescape(r[2..]);
        if rest.None? then None else Some([if r[1] == '0' then '~' else '/'] + rest.value)
    else
      var rest := Unescape(r[1..]);
      if rest.None? then None else Some([r[0]] + rest.value)
  }

  lemma {:induction false} UnescapeEscape(token: string)
    ensures Unescape(Escape(token)) == Some(token)
  {
    if token == "" {
    } else {
      UnescapeEscape(token[1..]);
      var head, r := EscapeChar(token[0]), Escape(token);
      assert r[|head|..] == Escape(token[1..]);
      assert [token[0]] + token[1..] == token;
    }
  }

  /** Section 3: each reference token is preceded by "/". */
  function Pointer(tokens: seq<string>): string {
    if tokens == [] then "" else "/" + Escape(tokens[0]) + Pointer(tokens[1..])
  }

  function UnescapeAll(parts: seq<string>): Option<seq<string>> {
    if parts == [] then Some([])
    else
      var head, rest := Unescape(parts[0]), UnescapeAll(parts[1..]);
      if head.None? || rest.None? then None else Some([head.value] + rest.value)
  }

  function ParsePointer(p: string): Option<seq<string>> {
    if p == "" then Some([])
    else if p[0] != '/' then None
    else UnescapeAll(Split(p[1..], '/'))
  }

  lemma UnescapeAllStep(token: string, parts: seq<string>, tokens: seq<string>)
    requires UnescapeAll(parts) == Some(tokens)
    ensures UnescapeAll([Escape(token)] + parts) == Some([token] + tokens)
  {
    UnescapeEscape(token);
    assert ([Escape(token)] + parts)[1..] == parts;
  }

  lemma PointerParts(token: string, rest: string)
    requires rest == "" || rest[0] == '/'
    ensures Split(Escape(token) + rest, '/') ==
            [Escape(token)] + (if rest == "" then [] else Split(rest[1..], '/'))
  {
    var t := Escape(token);
    if rest == "" {
      SplitSegment(t, '/', "");
      assert t + rest == t;
    } else {
      SplitSegment(t, '/', rest[1..]);
      assert t + rest == t + ['/'] + rest[1..];
    }
  }

  lemma {:induction false} ParsePointerOfPointer(tokens: seq<string>)
    ensures ParsePointer(Pointer(tokens)) == Some(tokens)
  {
    if tokens == [] {
    } else {
      ParsePointerOfPointer(tokens[1..]);
      PointerStep(tokens[0], tokens[1..]);
      assert [tokens[0]] + tokens[1..] == tokens;
    }
  }

  lemma PointerStep(token: string, tokens: seq<string>)
    requires ParsePointer(Pointer(tokens)) == Some(tokens)
    ensures ParsePointer(Pointer([token] + tokens)) == Some([token] + tokens)
  {
    var rest := Pointer(tokens);
    assert ([token] + tokens)[1..] == tokens;
    assert Pointer([token] + tokens)[1..] == Escape(token) + rest;
    PointerParts(token, rest);
    UnescapeAllStep(token, if rest == "" then [] else Split(rest[1..], '/'), tokens);
  }

  /** A pointer names one position only, so a key cannot forge a path. */
  lemma PointerInjective(s: seq<string>, t: seq<string>)
    requires Pointer(s) == Pointer(t)
    ensures s == t
  {
    ParsePointerOfPointer(s);
    ParsePointerOfPointer(t);
  }

  /** Section 4: an array index is "0" or digits without a leading zero. */
  function ParseIndex(token: string): Option<nat> {
    if IsNumeral(token, 10) && (token == "0" || token[0] != '0') then Some(Value(token, 10)) else None
  }

  lemma IndexRoundTrip(token: string, i: nat)
    ensures ParseIndex(token) == Some(i) <==> token == Itoa(i)
  {
    FormatValue(i, 10);
    if ParseIndex(token) == Some(i) {
      ValueFormat(token, 10);
    }
  }

  lemma IndexNeedsNoEscape(i: nat)
    ensures Escape(Itoa(i)) == Itoa(i)
  {
    FormatValue(i, 10);
    assert DigitValue('~') == 36 && DigitValue('/') == 36;
    NothingToEscape(Itoa(i));
  }

  /** What a value holds under one reference token. */
  function Lookup(v: Json, token: string): Option<Json> {
    match v
    case Obj(f) => if token in f then Some(f[token]) else None
    case Arr(x) =>
      var i := ParseIndex(token);
      if i.Some? && i.value < |x| then Some(x[i.value]) else None
    case _ => None
  }

  /** Section 4: evaluation of a pointer against a document. */
  function Resolve(v: Json, tokens: seq<string>): Option<Json> {
    if tokens == [] then Some(v)
    else
      var child := Lookup(v, tokens[0]);
      if child.None? then None else Resolve(child.value, tokens[1..])
  }
}
