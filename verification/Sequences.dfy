/** Mapping over lists and joining the results. */
module Sequences {

  lemma Assoc<T>(a: seq<T>, b: seq<T>, c: seq<T>)
    ensures (a + b) + c == a + (b + c)
  {
  }

  /** A slice of a slice is a slice. */
  lemma SliceOfSlice<T>(s: seq<T>, at: nat, n: nat, from: nat, to: nat)
    requires at + n <= |s| && from <= to <= n
    ensures s[at..at + n][from..to] == s[at + from..at + to]
  {
    var part := s[at..at + n];
    assert forall i :: 0 <= i < n ==> part[i] == s[at + i];
    assert forall i :: from <= i < to ==> part[from..to][i - from] == part[i];
  }

  /** `part` stands in `s` at an offset. */
  ghost predicate Stands<T>(s: seq<T>, at: nat, part: seq<T>) {
    at + |part| <= |s| && s[at..at + |part|] == part
  }

  lemma StandsInside<T>(s: seq<T>, at: nat, part: seq<T>, from: nat, to: nat)
    requires Stands(s, at, part) && from <= to <= |part|
    ensures Stands(s, at + from, part[from..to])
  {
    SliceOfSlice(s, at, |part|, from, to);
  }

  lemma StandsAfter<T>(a: seq<T>, b: seq<T>, c: seq<T>)
    ensures Stands(a + b + c, |a|, b)
  {
  }

  /** What stands in a part stands in the whole. */
  lemma StandsWithin<T>(s: seq<T>, at: nat, part: seq<T>, offset: nat, inner: seq<T>)
    requires Stands(s, at, part) && Stands(part, offset, inner)
    ensures Stands(s, at + offset, inner)
  {
    StandsInside(s, at, part, offset, offset + |inner|);
  }

  function Map<T, U>(f: T -> U, s: seq<T>): (r: seq<U>)
    ensures |r| == |s|
  {
    seq(|s|, i requires 0 <= i < |s| => f(s[i]))
  }

  function FlatMap<T, U>(f: T -> seq<U>, s: seq<T>): seq<U> {
    if s == [] then [] else f(s[0]) + FlatMap(f, s[1..])
  }

  lemma {:induction false} FlatMapAppend<T, U>(f: T -> seq<U>, a: seq<T>, b: seq<T>)
    ensures FlatMap(f, a + b) == FlatMap(f, a) + FlatMap(f, b)
  {
    if a == [] {
      assert a + b == b;
    } else {
      FlatMapAppend(f, a[1..], b);
      assert (a + b)[1..] == a[1..] + b;
      Assoc(f(a[0]), FlatMap(f, a[1..]), FlatMap(f, b));
    }
  }

  /** Joined parts stand one after the other. */
  lemma StandsFirst<T, U>(s: seq<U>, at: nat, f: T -> seq<U>, items: seq<T>)
    requires items != [] && Stands(s, at, FlatMap(f, items))
    ensures Stands(s, at, f(items[0])) && Stands(s, at + |f(items[0])|, FlatMap(f, items[1..]))
    ensures |FlatMap(f, items)| == |f(items[0])| + |FlatMap(f, items[1..])|
  {
    var first, all := f(items[0]), FlatMap(f, items);
    StandsInside(s, at, all, 0, |first|);
    assert all[0..|first|] == first;
    StandsInside(s, at, all, |first|, |all|);
    assert all[|first|..] == FlatMap(f, items[1..]);
  }

  lemma FlatMapOne<T, U>(f: T -> seq<U>, x: T)
    ensures FlatMap(f, [x]) == f(x)
  {
  }

  /** Joining over a map is joining over the list. */
  lemma {:induction false} FlatMapMap<T, U, V>(f: U -> seq<V>, g: T -> U, h: T -> seq<V>, s: seq<T>)
    requires forall x :: x in s ==> f(g(x)) == h(x)
    ensures FlatMap(f, Map(g, s)) == FlatMap(h, s)
  {
    if s != [] {
      assert s[0] in s && forall x :: x in s[1..] ==> x in s;
      FlatMapMap(f, g, h, s[1..]);
      assert Map(g, s)[1..] == Map(g, s[1..]);
    }
  }

  /** Joining the singletons of a map gives the map. */
  lemma {:induction false} FlatMapSingles<T, U, V>(f: U -> seq<V>, g: T -> U, h: T -> V, s: seq<T>)
    requires forall x :: x in s ==> f(g(x)) == [h(x)]
    ensures FlatMap(f, Map(g, s)) == Map(h, s)
  {
    if s != [] {
      assert s[0] in s && forall x :: x in s[1..] ==> x in s;
      FlatMapSingles(f, g, h, s[1..]);
      assert Map(g, s)[1..] == Map(g, s[1..]);
      assert Map(h, s) == [h(s[0])] + Map(h, s[1..]);
    }
  }

  /** Joining nothing gives nothing. */
  lemma {:induction false} FlatMapNone<T, U, V>(f: U -> seq<V>, g: T -> U, s: seq<T>)
    requires forall x :: x in s ==> f(g(x)) == []
    ensures FlatMap(f, Map(g, s)) == []
  {
    if s != [] {
      assert s[0] in s && forall x :: x in s[1..] ==> x in s;
      FlatMapNone(f, g, s[1..]);
      assert Map(g, s)[1..] == Map(g, s[1..]);
    }
  }
}
