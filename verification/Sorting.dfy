/** Sorting as the library functions promise it, and why a sorted list of distinct
    keys does not depend on the order in which a map was iterated. */
module Sorting {
  import opened Text

  ghost predicate TotalPreorder<T(!new)>(leq: (T, T) -> bool) {
    && (forall x, y :: leq(x, y) || leq(y, x))
    && (forall x, y, z :: leq(x, y) && leq(y, z) ==> leq(x, z))
  }

  ghost predicate Sorted<T>(leq: (T, T) -> bool, xs: seq<T>) {
    forall i, j | 0 <= i < j < |xs| :: leq(xs[i], xs[j])
  }

  function Insert<T>(leq: (T, T) -> bool, x: T, xs: seq<T>): (ys: seq<T>)
    ensures |ys| == |xs| + 1
    ensures multiset(ys) == multiset{x} + multiset(xs)
  {
    if xs == [] then [x]
    else if leq(x, xs[0]) then
      [x] + xs
    else
      assert xs == [xs[0]] + xs[1..];
      [xs[0]] + Insert(leq, x, xs[1..])
  }

  function Sort<T>(leq: (T, T) -> bool, xs: seq<T>): (ys: seq<T>)
    ensures |ys| == |xs|
    ensures multiset(ys) == multiset(xs)
  {
    if xs == [] then []
    else
      assert xs == [xs[0]] + xs[1..];
      Insert(leq, xs[0], Sort(leq, xs[1..]))
  }

  lemma InMultiset<T>(xs: seq<T>, x: T)
    ensures x in multiset(xs) <==> x in xs
  {}

  lemma {:induction false} InsertSorted<T(!new)>(leq: (T, T) -> bool, x: T, xs: seq<T>)
    requires TotalPreorder(leq) && Sorted(leq, xs)
    ensures Sorted(leq, Insert(leq, x, xs))
  {
    if xs == [] || leq(x, xs[0]) {
    } else {
      var rest := Insert(leq, x, xs[1..]);
      InsertSorted(leq, x, xs[1..]);
      forall j | 0 <= j < |rest|
        ensures leq(xs[0], rest[j])
      {
        assert rest[j] in multiset(rest);
        assert rest[j] == x || rest[j] in xs[1..];
      }
    }
  }

  lemma {:induction false} SortSorted<T(!new)>(leq: (T, T) -> bool, xs: seq<T>)
    requires TotalPreorder(leq)
    ensures Sorted(leq, Sort(leq, xs))
  {
    if xs == [] {
    } else {
      SortSorted(leq, xs[1..]);
      InsertSorted(leq, xs[0], Sort(leq, xs[1..]));
    }
  }

  lemma LeqTotalPreorder()
    ensures TotalPreorder(Leq)
  {
    forall x, y ensures Leq(x, y) || Leq(y, x) { LeqTotal(x, y); }
    forall x, y, z | Leq(x, y) && Leq(y, z) ensures Leq(x, z) { LeqTransitive(x, y, z); }
  }

  lemma SortedHead(xs: seq<string>, ys: seq<string>)
    requires Sorted(Leq, xs) && xs != [] && ys != []
    requires multiset(xs) == multiset(ys)
    ensures Leq(xs[0], ys[0])
  {
    InMultiset(xs, ys[0]);
    assert ys[0] in multiset(ys);
    var j :| 0 <= j < |xs| && xs[j] == ys[0];
    LeqTotal(xs[0], xs[0]);
  }

  /** A list of strings has one sorted arrangement only. */
  lemma {:induction false} OneSortedArrangement(xs: seq<string>, ys: seq<string>)
    requires Sorted(Leq, xs) && Sorted(Leq, ys)
    requires multiset(xs) == multiset(ys)
    ensures xs == ys
  {
    assert |multiset(xs)| == |xs| && |multiset(ys)| == |ys|;
    if xs == [] {
    } else {
      var x, y := xs[0], ys[0];
      SortedHead(xs, ys);
      SortedHead(ys, xs);
      LeqAntisymmetric(x, y);
      assert [x] + xs[1..] == xs && [x] + ys[1..] == ys;
      SameRest(x, xs[1..], ys[1..]);
      OneSortedArrangement(xs[1..], ys[1..]);
    }
  }

  lemma SameRest<T>(x: T, xs: seq<T>, ys: seq<T>)
    requires multiset([x] + xs) == multiset([x] + ys)
    ensures multiset(xs) == multiset(ys)
  {
    assert multiset([x] + xs) - multiset{x} == multiset(xs);
    assert multiset([x] + ys) - multiset{x} == multiset(ys);
  }

  ghost predicate Distinct<T>(xs: seq<T>) {
    forall i, j | 0 <= i < j < |xs| :: xs[i] != xs[j]
  }

  /** The elements of a set of strings in byte order. */
  ghost function SortedSeq(s: set<string>): (xs: seq<string>) {
    Sort(Leq, Enumerate(s))
  }

  ghost function Enumerate(s: set<string>): (xs: seq<string>)
    ensures multiset(xs) == multiset(s)
  {
    if s == {} then [] else
      var x :| x in s;
      [x] + Enumerate(s - {x})
  }

  lemma DistinctByMultiset(xs: seq<string>, s: set<string>)
    requires multiset(xs) == multiset(s)
    ensures Distinct(xs)
    ensures forall x :: x in xs <==> x in s
  {
    forall x ensures x in xs <==> x in s { InMultiset(xs, x); }
    forall i, j | 0 <= i < j < |xs| ensures xs[i] != xs[j] {
      var rest := xs[i + 1..];
      assert rest[j - i - 1] == xs[j];
      InMultiset(rest, xs[j]);
      assert xs == xs[..i] + [xs[i]] + rest;
      assert multiset(xs) == multiset(xs[..i]) + multiset{xs[i]} + multiset(rest);
      assert multiset(s)[xs[i]] <= 1;
    }
  }

  lemma SortedSeqProperties(s: set<string>)
    ensures Sorted(Leq, SortedSeq(s)) && Distinct(SortedSeq(s))
    ensures forall x :: x in SortedSeq(s) <==> x in s
  {
    LeqTotalPreorder();
    SortSorted(Leq, Enumerate(s));
    DistinctByMultiset(SortedSeq(s), s);
  }

  /** Sorted without repeats: each comes before the next by its bytes. */
  lemma SortedAscends(s: set<string>)
    ensures forall x :: x in SortedSeq(s) <==> x in s
    ensures forall i, j | 0 <= i < j < |SortedSeq(s)| :: BytesBefore(SortedSeq(s)[i], SortedSeq(s)[j])
  {
    SortedSeqProperties(s);
    forall i, j | 0 <= i < j < |SortedSeq(s)| ensures BytesBefore(SortedSeq(s)[i], SortedSeq(s)[j]) {
      LeqMeans(SortedSeq(s)[i], SortedSeq(s)[j]);
    }
  }

  lemma SortedSeqIndex(s: set<string>, x: string) returns (i: nat)
    requires x in s
    ensures i < |SortedSeq(s)| && SortedSeq(s)[i] == x
  {
    SortedSeqProperties(s);
    assert x in SortedSeq(s);
    i :| 0 <= i < |SortedSeq(s)| && SortedSeq(s)[i] == x;
  }

  /** However the keys were collected, sorting them gives SortedSeq. */
  lemma SortCanonical(keys: seq<string>, s: set<string>)
    requires multiset(keys) == multiset(s)
    ensures Sort(Leq, keys) == SortedSeq(s)
  {
    LeqTotalPreorder();
    SortSorted(Leq, keys);
    SortSorted(Leq, Enumerate(s));
    OneSortedArrangement(Sort(Leq, keys), SortedSeq(s));
  }
}
