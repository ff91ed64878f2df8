/** multipart_timeline_lines of tools/benchmark_server.py: an encoded record cut into numbered parts. */
module Multipart {
  import opened Arithmetic
  import opened Sequences
  import opened Wrappers

  datatype Error = TooFewParts | TooSmall

  /** A line carries its index, the number of parts and its slice. */
  datatype Part = Part(index: nat, count: nat, slice: string)

  function Boundary(length: nat, count: nat, index: nat): nat
    requires count > 0
  {
    length * index / count
  }

  lemma BoundariesRise(length: nat, count: nat, index: nat)
    requires count > 0 && index < count
    ensures Boundary(length, count, index) <= Boundary(length, count, index + 1) <= length
    ensures Boundary(length, count, 0) == 0 && Boundary(length, count, count) == length
  {
    assert length * (index + 1) == length * index + length;
    FloorBound(length * index, count);
    FloorBound(length * index + length, count);
    NextBoundary(length * index, length, count);
    Exact(length, count);
    Times(index + 1, count, length);
    QuotientRises(length * (index + 1), length * count, count);
  }

  lemma Times(a: nat, b: nat, n: nat)
    requires a <= b
    ensures n * a <= n * b
  {
    Multiple(a, b, n);
  }

  lemma QuotientRises(x: nat, y: nat, n: nat)
    requires x <= y && n > 0
    ensures x / n <= y / n
  {
    FloorBound(x, n);
    FloorBound(y, n);
    Multiple(y / n, x / n, n);
  }

  lemma SumQuotient(a: nat, r: nat, b: nat, t: nat, n: nat)
    requires r < n && t < n
    ensures a + b <= (a * n + r + (b * n + t)) / n <= a + b + 1
    ensures t == 0 ==> (a * n + r + (b * n + t)) / n == a + b
  {
    assert a * n + b * n == (a + b) * n;
    if r + t < n {
      FrameIndex(a + b, r + t, n);
    } else {
      assert (a + b + 1) * n == (a + b) * n + n;
      FrameIndex(a + b + 1, r + t - n, n);
    }
  }

  /** One boundary further is the quotient further, or one more. */
  lemma NextBoundary(x: nat, length: nat, count: nat)
    requires count > 0
    ensures x / count + length / count <= (x + length) / count <= x / count + length / count + 1
    ensures length % count == 0 ==> (x + length) / count == x / count + length / count
  {
    var a, r, b, t := x / count, x % count, length / count, length % count;
    assert x == a * count + r && length == b * count + t;
    SumQuotient(a, r, b, t, count);
  }

  function PartAt(encoded: string, count: nat, index: nat): Part
    requires index < count
  {
    BoundariesRise(|encoded|, count, index);
    Part(index, count, encoded[Boundary(|encoded|, count, index)..Boundary(|encoded|, count, index + 1)])
  }

  function Parts(encoded: string, count: nat): Result<seq<Part>, Error> {
    if count < 2 then Failure(TooFewParts)
    else if |encoded| < count then Failure(TooSmall)
    else Success(seq(count, i requires 0 <= i < count => PartAt(encoded, count, i)))
  }

  lemma {:induction false} FirstParts(encoded: string, count: nat, n: nat)
    requires 0 < n <= count
    ensures var parts := seq(n, i requires 0 <= i < n => PartAt(encoded, count, i));
            Boundary(|encoded|, count, n) <= |encoded| &&
            FlatMap((p: Part) => p.slice, parts) == encoded[..Boundary(|encoded|, count, n)]
  {
    var f := (p: Part) => p.slice;
    var parts := seq(n, i requires 0 <= i < n => PartAt(encoded, count, i));
    var before := seq(n - 1, i requires 0 <= i < n - 1 => PartAt(encoded, count, i));
    var last := PartAt(encoded, count, n - 1);
    BoundariesRise(|encoded|, count, n - 1);
    assert parts == before + [last];
    FlatMapAppend(f, before, [last]);
    FlatMapOne(f, last);
    if n > 1 {
      FirstParts(encoded, count, n - 1);
    }
  }

  /** Part `i` runs from the i-th of the `count` equal shares of the record, rounded down, to the next. */
  lemma PartSlice(encoded: string, count: nat, i: nat)
    requires i < count
    ensures 0 <= |encoded| * i / count <= |encoded| * (i + 1) / count <= |encoded|
    ensures PartAt(encoded, count, i).slice == encoded[|encoded| * i / count..|encoded| * (i + 1) / count]
  {
    BoundariesRise(|encoded|, count, i);
  }

  /** Each part has its share of the record, or one character more. */
  lemma PartLength(encoded: string, count: nat, i: nat)
    requires i < count <= |encoded|
    ensures 0 < |encoded| / count <= |PartAt(encoded, count, i).slice| <= |encoded| / count + 1
    ensures |encoded| % count == 0 ==> |PartAt(encoded, count, i).slice| == |encoded| / count
  {
    BoundariesRise(|encoded|, count, i);
    assert |encoded| * (i + 1) == |encoded| * i + |encoded|;
    NextBoundary(|encoded| * i, |encoded|, count);
    Shares(|encoded|, count);
  }

  lemma Shares(length: nat, count: nat)
    requires 0 < count <= length
    ensures length / count > 0
  {
    FloorBound(length, count);
  }

  /** The parts are numbered in order, join to the record, and differ in size by at most one. */
  lemma PartsOfRecord(encoded: string, count: nat)
    ensures Parts(encoded, count).Success? <==> 2 <= count <= |encoded|
    ensures Parts(encoded, count).Success? ==>
              var parts := Parts(encoded, count).value;
              && |parts| == count && FlatMap((p: Part) => p.slice, parts) == encoded
              && forall i :: 0 <= i < count ==>
                   && parts[i].index == i && parts[i].count == count && parts[i].slice != ""
                   && |encoded| / count <= |parts[i].slice| <= |encoded| / count + 1
                   && (|encoded| % count == 0 ==> |parts[i].slice| == |encoded| / count)
  {
    if 2 <= count <= |encoded| {
      FirstParts(encoded, count, count);
      BoundariesRise(|encoded|, count, 0);
      forall i | 0 <= i < count
        ensures 0 < |encoded| / count <= |PartAt(encoded, count, i).slice| <= |encoded| / count + 1
        ensures |encoded| % count == 0 ==> |PartAt(encoded, count, i).slice| == |encoded| / count
      {
        PartLength(encoded, count, i);
      }
      hide Boundary, FlatMap;
    }
  }
}
