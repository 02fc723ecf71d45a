/** Strings as the program sees them: sequences of bytes, one `char` per byte.
    Letter case and white space are those of ASCII. */
module Text {

  datatype Option<+T> = None | Some(value: T)

  function LowerChar(c: char): char {
    if 'A' <= c <= 'Z' then c - 'A' + 'a' else c
  }

  function Lower(s: string): (r: string)
    ensures |r| == |s|
    ensures forall i | 0 <= i < |s| :: r[i] == LowerChar(s[i])
  {
    seq(|s|, i requires 0 <= i < |s| => LowerChar(s[i]))
  }

  const UPPER := "ABCDEFGHIJKLMNOPQRSTUVWXYZ"
  const LOWER := "abcdefghijklmnopqrstuvwxyz"

  /** Lower case, letter by letter: a capital becomes the small letter at its place in the
      alphabet, everything else stays. */
  lemma LowerMeans(s: string, i: nat)
    requires i < |s|
    ensures forall k | 0 <= k < 26 && s[i] == UPPER[k] :: Lower(s)[i] == LOWER[k]
    ensures s[i] !in UPPER ==> Lower(s)[i] == s[i]
  {
    if 'A' <= s[i] <= 'Z' {
      LetterPlaces((s[i] - 'A') as nat);
      assert UPPER[(s[i] - 'A') as nat] in UPPER;
    }
    forall k | 0 <= k < 26 && s[i] == UPPER[k] ensures Lower(s)[i] == LOWER[k] { LetterPlaces(k); }
  }

  lemma LetterPlaces(k: nat)
    requires k < 26
    ensures UPPER[k] == 'A' + k as char && LOWER[k] == 'a' + k as char
  {}

  predicate IsSpace(c: char) {
    c == ' ' || '\t' <= c <= '\r'
  }

  function TrimLeft(s: string): string {
    if s != "" && IsSpace(s[0]) then TrimLeft(s[1..]) else s
  }

  function TrimRight(s: string): string {
    if s != "" && IsSpace(s[|s| - 1]) then TrimRight(s[..|s| - 1]) else s
  }

  function Trim(s: string): string {
    TrimRight(TrimLeft(s))
  }

  const WHITE_SPACE := {' ', '\t', '\n', '\U{000B}', '\U{000C}', '\r'}

  ghost predicate Blank(s: string) {
    forall c | c in s :: c in WHITE_SPACE
  }

  lemma {:induction false} TrimLeftSplits(s: string) returns (l: string)
    ensures s == l + TrimLeft(s) && Blank(l)
    ensures TrimLeft(s) == "" || TrimLeft(s)[0] !in WHITE_SPACE
  {
    if s == "" || !IsSpace(s[0]) {
      l := "";
    } else {
      var rest := TrimLeftSplits(s[1..]);
      l := [s[0]] + rest;
      assert s == [s[0]] + s[1..];
    }
  }

  lemma {:induction false} TrimRightSplits(s: string) returns (r: string)
    ensures s == TrimRight(s) + r && Blank(r)
    ensures TrimRight(s) == "" || TrimRight(s)[|TrimRight(s)| - 1] !in WHITE_SPACE
  {
    if s == "" || !IsSpace(s[|s| - 1]) {
      r := "";
    } else {
      var rest := TrimRightSplits(s[..|s| - 1]);
      r := rest + [s[|s| - 1]];
      assert s == s[..|s| - 1] + [s[|s| - 1]];
    }
  }

  /** Trimming takes white space off both ends, and all of it. */
  lemma TrimMeans(s: string) returns (l: string, r: string)
    ensures s == l + Trim(s) + r && Blank(l) && Blank(r)
    ensures Trim(s) != "" ==> Trim(s)[0] !in WHITE_SPACE && Trim(s)[|Trim(s)| - 1] !in WHITE_SPACE
  {
    l := TrimLeftSplits(s);
    r := TrimRightSplits(TrimLeft(s));
    assert s == l + (Trim(s) + r);
  }

  lemma {:induction false} TrimLeftIgnores(l: string, s: string)
    requires Blank(l)
    ensures TrimLeft(l + s) == TrimLeft(s)
  {
    if l == "" {
      assert l + s == s;
    } else {
      assert l[0] in l && (l + s)[1..] == l[1..] + s;
      TrimLeftIgnores(l[1..], s);
    }
  }

  lemma {:induction false} TrimRightIgnores(s: string, r: string)
    requires Blank(r)
    ensures TrimRight(s + r) == TrimRight(s)
    decreases |r|
  {
    if r == "" {
      assert s + r == s;
    } else {
      var n := |r| - 1;
      assert r[n] in r && (s + r)[..|s + r| - 1] == s + r[..n];
      TrimRightIgnores(s, r[..n]);
    }
  }

  /** White space at the ends makes no difference. */
  lemma TrimIgnores(l: string, s: string, r: string)
    requires Blank(l) && Blank(r)
    ensures Trim(l + s + r) == Trim(s)
  {
    Associative(l, s, r);
    TrimLeftIgnores(l, s + r);
    var m := TrimLeftSplits(s);
    Associative(m, TrimLeft(s), r);
    TrimLeftIgnores(m, TrimLeft(s) + r);
    if TrimLeft(s) == "" {
      assert "" + r == r;
      BlankTrims(r);
    } else {
      assert TrimLeft(TrimLeft(s) + r) == TrimLeft(s) + r;
      TrimRightIgnores(TrimLeft(s), r);
    }
  }

  lemma BlankTrims(r: string)
    requires Blank(r)
    ensures Trim(r) == ""
  {
    assert r + "" == r;
    TrimLeftIgnores(r, "");
  }

  /** Two strings that are the same but for white space at their ends. */
  ghost predicate SameCore(s: string, t: string) {
    exists core, l, r, l', r' ::
      s == l + core + r && t == l' + core + r' && Blank(l) && Blank(r) && Blank(l') && Blank(r')
  }

  lemma SameTrim(s: string, t: string)
    ensures Trim(s) == Trim(t) <==> SameCore(s, t)
  {
    var l, r := TrimMeans(s);
    var l', r' := TrimMeans(t);
    if core, k, q, k', q' :|
      s == k + core + q && t == k' + core + q' && Blank(k) && Blank(q) && Blank(k') && Blank(q')
    {
      TrimIgnores(k, core, q);
      TrimIgnores(k', core, q');
    }
  }

  lemma Associative<T>(x: seq<T>, y: seq<T>, z: seq<T>)
    ensures (x + y) + z == x + (y + z)
  {}

  lemma InConcat<T>(x: seq<T>, y: seq<T>, v: T)
    ensures v in x + y <==> v in x || v in y
  {}

  lemma SameTail(path: string, x: string, y: string)
    requires path + x == path + y
    ensures x == y
  {
    assert (path + x)[|path|..] == x && (path + y)[|path|..] == y;
  }

  // ----- Splitting at a separator ---------------------------------------------

  function Split(s: string, sep: char): (parts: seq<string>)
    ensures |parts| >= 1
    ensures forall p | p in parts :: sep !in p
  {
    if s == "" then [""]
    else
      var rest := Split(s[1..], sep);
      if s[0] == sep then [""] + rest else [[s[0]] + rest[0]] + rest[1..]
  }

  lemma {:induction false} SplitSegment(head: string, sep: char, tail: string)
    requires sep !in head
    ensures Split(head, sep) == [head]
    ensures Split(head + [sep] + tail, sep) == [head] + Split(tail, sep)
  {
    var s := head + [sep] + tail;
    if head == "" {
      assert s[1..] == tail;
    } else {
      assert s[1..] == head[1..] + [sep] + tail;
      SplitSegment(head[1..], sep, tail);
      assert [head[0]] + head[1..] == head;
    }
  }

  // ----- The byte order used by sort.Strings ------------------------------------

  predicate Leq(a: string, b: string) {
    a == "" || (b != "" && (a[0] < b[0] || (a[0] == b[0] && Leq(a[1..], b[1..]))))
  }

  lemma {:induction false} LeqTotal(a: string, b: string)
    ensures Leq(a, b) || Leq(b, a)
  {
    if a == "" || b == "" {
    } else {
      LeqTotal(a[1..], b[1..]);
    }
  }

  lemma {:induction false} LeqAntisymmetric(a: string, b: string)
    requires Leq(a, b) && Leq(b, a)
    ensures a == b
  {
    if a == "" {
    } else {
      LeqAntisymmetric(a[1..], b[1..]);
      assert a == [a[0]] + a[1..] && b == [b[0]] + b[1..];
    }
  }

  lemma {:induction false} LeqTransitive(a: string, b: string, c: string)
    requires Leq(a, b) && Leq(b, c)
    ensures Leq(a, c)
  {
    if a == "" || a[0] != b[0] || b[0] != c[0] {
    } else {
      LeqTransitive(a[1..], b[1..], c[1..]);
    }
  }

  /** They first differ at i, where a has the smaller byte. */
  predicate DifferAt(a: string, b: string, i: nat) {
    i < |a| && i < |b| && a[..i] == b[..i] && a[i] < b[i]
  }

  /** At the first place where the two differ, a has the smaller byte or has ended. */
  ghost predicate BytesBefore(a: string, b: string) {
    a < b || exists i: nat :: DifferAt(a, b, i)
  }

  lemma DifferLater(a: string, b: string, i: nat)
    requires i > 0 && DifferAt(a, b, i)
    ensures DifferAt(a[1..], b[1..], i - 1)
  {
    assert a[1..][..i - 1] == a[..i][1..];
    assert b[1..][..i - 1] == b[..i][1..];
  }

  lemma DifferEarlier(a: string, b: string, i: nat)
    requires a != "" && b != "" && a[0] == b[0] && DifferAt(a[1..], b[1..], i)
    ensures DifferAt(a, b, i + 1)
  {
    assert a[..i + 1] == [a[0]] + a[1..][..i];
    assert b[..i + 1] == [b[0]] + b[1..][..i];
  }

  lemma BytesBeforeStep(a: string, b: string)
    requires a != "" && b != "" && a[0] == b[0]
    ensures BytesBefore(a, b) <==> BytesBefore(a[1..], b[1..])
  {
    assert a == [a[0]] + a[1..] && b == [b[0]] + b[1..];
    if i: nat :| DifferAt(a, b, i) { DifferLater(a, b, i); }
    if i: nat :| DifferAt(a[1..], b[1..], i) { DifferEarlier(a, b, i); }
  }

  lemma SameHead(a: string, b: string, i: nat)
    requires i < |a| && i < |b| && a[..i] == b[..i]
    ensures i == 0 || a[0] == b[0]
  {
    if i > 0 { assert a[..i][0] == b[..i][0]; }
  }

  /** The order compares bytes, from the left, and puts a prefix first. */
  lemma {:induction false} LeqMeans(a: string, b: string)
    ensures Leq(a, b) <==> a == b || BytesBefore(a, b)
  {
    if a == "" {
      assert b == "" || a < b;
    } else if b == "" {
    } else if a[0] != b[0] {
      assert a[0] < b[0] ==> DifferAt(a, b, 0);
      if i: nat :| DifferAt(a, b, i) { SameHead(a, b, i); }
    } else {
      LeqMeans(a[1..], b[1..]);
      BytesBeforeStep(a, b);
      assert a == [a[0]] + a[1..] && b == [b[0]] + b[1..];
    }
  }

  // ----- Numerals -----------------------------------------------------------------

  function Digit(d: nat): char
    requires d < 36
  {
    if d < 10 then '0' + d as char else 'a' + (d - 10) as char
  }

  function DigitValue(c: char): nat {
    if '0' <= c <= '9' then (c - '0') as nat
    else if 'a' <= c <= 'z' then (c - 'a') as nat + 10
    else 36
  }

  /** strconv.FormatUint(n, base). */
  function Format(n: nat, base: nat): (s: string)
    requires 2 <= base <= 36
    ensures s != ""
  {
    if n < base then [Digit(n)] else Format(n / base, base) + [Digit(n % base)]
  }

  predicate IsNumeral(s: string, base: nat) {
    s != "" && forall c | c in s :: DigitValue(c) < base
  }

  function Value(s: string, base: nat): nat {
    if s == "" then 0 else Value(s[..|s| - 1], base) * base + DigitValue(s[|s| - 1])
  }

  lemma FormatStep(n: nat, base: nat)
    requires 2 <= base <= 36 && n >= base
    ensures n / base < n && n / base > 0
  {
    DivMod(n, base);
    var q := n / base;
    if q >= 1 {
      assert q * base >= q * 2 by { MulAtLeast(base - 1, q); }
    }
  }

  lemma {:induction false} FormatValue(n: nat, base: nat)
    requires 2 <= base <= 36
    ensures IsNumeral(Format(n, base), base)
    ensures Value(Format(n, base), base) == n
    ensures n > 0 ==> Format(n, base)[0] != '0'
    ensures n == 0 ==> Format(n, base) == "0"
    decreases n
  {
    var s := Format(n, base);
    if n < base {
      assert s[..|s| - 1] == "";
      assert Value(s, base) == Value("", base) * base + DigitValue(Digit(n));
    } else {
      FormatStep(n, base);
      FormatValue(n / base, base);
      assert s[..|s| - 1] == Format(n / base, base);
      DivMod(n, base);
    }
  }

  /** Two numbers never share a numeral. */
  lemma FormatInjective(m: nat, n: nat, base: nat)
    requires 2 <= base <= 36
    requires Format(m, base) == Format(n, base)
    ensures m == n
  {
    FormatValue(m, base);
    FormatValue(n, base);
  }

  lemma {:induction false} LeadingDigit(s: string, base: nat)
    requires 2 <= base <= 36 && IsNumeral(s, base) && s[0] != '0'
    ensures Value(s, base) > 0
    decreases |s|
  {
    var init := s[..|s| - 1];
    if init == "" {
      assert Value(s, base) == Value("", base) * base + DigitValue(s[0]);
    } else {
      LeadingDigit(init, base);
      MulAtLeast(Value(init, base), base);
    }
  }

  lemma {:induction false} ValueFormat(s: string, base: nat)
    requires 2 <= base <= 36 && IsNumeral(s, base)
    requires s == "0" || s[0] != '0'
    ensures Format(Value(s, base), base) == s
    decreases |s|
  {
    var init, last := s[..|s| - 1], s[|s| - 1];
    assert s == init + [last];
    assert Digit(DigitValue(last)) == last;
    var v := Value(init, base);
    if init == "" {
      assert Value(s, base) == Value("", base) * base + DigitValue(last);
    } else {
      ValueFormat(init, base);
      LeadingDigit(init, base);
      DivModOf(v, base, DigitValue(last));
      MulAtLeast(v, base);
    }
  }

  lemma MulAtLeast(k: int, base: nat)
    requires k >= 1
    ensures k * base >= base
  {}

  lemma DivMod(n: nat, base: nat)
    requires 2 <= base
    ensures n == (n / base) * base + n % base
  {}

  lemma DivModOf(q: nat, base: nat, r: nat)
    requires 2 <= base && r < base
    ensures (q * base + r) / base == q && (q * base + r) % base == r
  {
    var n := q * base + r;
    DivMod(n, base);
    var d := n / base - q;
    assert d * base == (n / base) * base - q * base;
    if d >= 1 {
      MulAtLeast(d, base);
    } else if d <= -1 {
      MulAtLeast(-d, base);
    }
  }

  /** strconv.Itoa on the non-negative numbers it is used for. */
  function Itoa(n: nat): string {
    Format(n, 10)
  }

  const DIGITS := "0123456789abcdefghijklmnopqrstuvwxyz"

  lemma DigitMeans(d: nat)
    requires d < 36
    ensures Digit(d) == DIGITS[d]
  {}

  lemma LastDigit(n: nat, base: nat)
    requires 2 <= base <= 36
    ensures Format(n, base)[|Format(n, base)| - 1] == DIGITS[n % base]
  {
    DigitMeans(n % base);
    if n < base { SmallMod(n, base); }
  }

  lemma OtherDigits(n: nat, base: nat, k: nat)
    requires 2 <= base <= 36 && n >= base && 0 < k < |Format(n, base)|
    ensures k - 1 < |Format(n / base, base)|
    ensures Format(n, base)[|Format(n, base)| - 1 - k] ==
            Format(n / base, base)[|Format(n / base, base)| - 1 - (k - 1)]
  {}

  /** Which digit stands k places from the right: divide k times, and take the remainder. */
  function DigitAt(n: nat, base: nat, k: nat): (d: nat)
    requires base >= 2
    ensures d < base
  {
    if k == 0 then n % base else DigitAt(n / base, base, k - 1)
  }

  /** A numeral shows, at each place, the digit that stands there. */
  lemma {:induction false} FormatDigits(n: nat, base: nat, k: nat)
    requires 2 <= base <= 36 && k < |Format(n, base)|
    ensures Format(n, base)[|Format(n, base)| - 1 - k] == DIGITS[DigitAt(n, base, k)]
    decreases k
  {
    if k == 0 {
      LastDigit(n, base);
    } else {
      OtherDigits(n, base, k);
      FormatDigits(n / base, base, k - 1);
    }
  }

  lemma SmallMod(n: nat, base: nat)
    requires n < base
    ensures n % base == n
  {}
}
