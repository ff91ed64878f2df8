/** Sums over finite sets, and sums of sums over the classes of a partition. */
module SetSums {

  ghost function Sum<T(!new)>(s: set<T>, f: T -> int): int {
    if s == {} then 0
    else
      var x :| x in s;
      f(x) + Sum(s - {x}, f)
  }

  /** Any element may be taken out first. */
  lemma {:induction false} SumTakeOut<T(!new)>(s: set<T>, f: T -> int, x: T)
    requires x in s
    ensures Sum(s, f) == f(x) + Sum(s - {x}, f)
    decreases s
  {
    var y :| y in s && Sum(s, f) == f(y) + Sum(s - {y}, f);
    if y != x {
      SumTakeOut(s - {y}, f, x);
      SumTakeOut(s - {x}, f, y);
      assert s - {y} - {x} == s - {x} - {y};
    }
  }

  lemma SumAdd<T(!new)>(s: set<T>, f: T -> int, x: T)
    requires x !in s
    ensures Sum(s + {x}, f) == Sum(s, f) + f(x)
  {
    SumTakeOut(s + {x}, f, x);
    assert s + {x} - {x} == s;
  }

  lemma {:induction false} SumAgrees<T(!new)>(s: set<T>, f: T -> int, g: T -> int)
    requires forall x :: x in s ==> f(x) == g(x)
    ensures Sum(s, f) == Sum(s, g)
    decreases s
  {
    if s != {} {
      var x :| x in s;
      SumTakeOut(s, f, x);
      SumTakeOut(s, g, x);
      SumAgrees(s - {x}, f, g);
    }
  }

  lemma {:induction false} SumOnes<T(!new)>(s: set<T>, f: T -> int)
    requires forall x :: x in s ==> f(x) == 1
    ensures Sum(s, f) == |s|
    decreases s
  {
    if s != {} {
      var x :| x in s;
      SumTakeOut(s, f, x);
      SumOnes(s - {x}, f);
    }
  }

  lemma {:induction false} SumZeros<T(!new)>(s: set<T>, f: T -> int)
    requires forall x :: x in s ==> f(x) == 0
    ensures Sum(s, f) == 0
    decreases s
  {
    if s != {} {
      var x :| x in s;
      SumTakeOut(s, f, x);
      SumZeros(s - {x}, f);
    }
  }

  /** The members of one class. */
  ghost function Class<T(!new), K>(s: set<T>, key: T -> K, k: K): set<T> {
    set x | x in s && key(x) == k
  }

  /** A sum is the sum of the sums of its classes, over any set of keys that covers them. */
  lemma {:induction false} SumOfClasses<T(!new), K(!new)>(s: set<T>, f: T -> int, key: T -> K, keys: set<K>)
    requires forall x :: x in s ==> key(x) in keys
    ensures Sum(s, f) == Sum(keys, (k: K) => Sum(Class(s, key, k), f))
    decreases s
  {
    var inner := (k: K) => Sum(Class(s, key, k), f);
    if s == {} {
      forall k | k in keys
        ensures inner(k) == 0
      {
        assert Class(s, key, k) == {};
      }
      SumZeros(keys, inner);
    } else {
      var x :| x in s;
      var rest, k0 := s - {x}, key(x);
      var restInner := (k: K) => Sum(Class(rest, key, k), f);
      SumTakeOut(s, f, x);
      SumOfClasses(rest, f, key, keys);
      SumTakeOut(keys, inner, k0);
      SumTakeOut(keys, restInner, k0);
      forall k | k in keys - {k0}
        ensures inner(k) == restInner(k)
      {
        assert Class(s, key, k) == Class(rest, key, k);
      }
      SumAgrees(keys - {k0}, inner, restInner);
      assert Class(rest, key, k0) == Class(s, key, k0) - {x};
      SumTakeOut(Class(s, key, k0), f, x);
    }
  }
}
