/** Sums and bags over the elements of a sequence, and how one update changes them. */
module Sums {

  ghost function Sum<T>(f: T -> int, xs: seq<T>): int {
    if xs == [] then 0 else f(xs[0]) + Sum(f, xs[1..])
  }

  ghost function Identity(x: int): int {
    x
  }

  lemma {:induction false} SumUpdate<T>(f: T -> int, xs: seq<T>, i: nat, x: T)
    requires i < |xs|
    ensures Sum(f, xs[i := x]) == Sum(f, xs) - f(xs[i]) + f(x)
  {
    if i == 0 {
      assert xs[0 := x][1..] == xs[1..];
    } else {
      assert xs[i := x][1..] == xs[1..][i - 1 := x];
      SumUpdate(f, xs[1..], i - 1, x);
    }
  }

  lemma {:induction false} SumConstant<T>(f: T -> int, xs: seq<T>, c: int)
    requires forall i :: 0 <= i < |xs| ==> f(xs[i]) == c
    ensures Sum(f, xs) == |xs| * c
  {
    if xs != [] {
      SumConstant(f, xs[1..], c);
    }
  }

  lemma SumTwo<T>(f: T -> int, a: T, b: T)
    ensures Sum(f, [a, b]) == f(a) + f(b)
  {
    assert [a, b][1..] == [b];
    assert Sum(f, [b]) == f(b);
  }

  lemma {:induction false} SumLe<T>(f: T -> int, g: T -> int, xs: seq<T>)
    requires forall i :: 0 <= i < |xs| ==> f(xs[i]) <= g(xs[i])
    ensures Sum(f, xs) <= Sum(g, xs)
  {
    if xs != [] {
      SumLe(f, g, xs[1..]);
    }
  }

  lemma {:induction false} SumNonNegative<T>(f: T -> int, xs: seq<T>)
    requires forall i :: 0 <= i < |xs| ==> 0 <= f(xs[i])
    ensures 0 <= Sum(f, xs)
    ensures forall i :: 0 <= i < |xs| ==> f(xs[i]) <= Sum(f, xs)
  {
    if xs != [] {
      SumNonNegative(f, xs[1..]);
      forall i | 0 <= i < |xs|
        ensures f(xs[i]) <= Sum(f, xs)
      {
        if i > 0 {
          assert xs[i] == xs[1..][i - 1];
        }
      }
    }
  }

  lemma {:induction false} SumPair<T>(f: T -> int, xs: seq<T>, i: nat, j: nat)
    requires i < j < |xs|
    requires forall k :: 0 <= k < |xs| ==> 0 <= f(xs[k])
    ensures f(xs[i]) + f(xs[j]) <= Sum(f, xs)
  {
    if i == 0 {
      SumNonNegative(f, xs[1..]);
      assert xs[j] == xs[1..][j - 1];
    } else {
      SumPair(f, xs[1..], i - 1, j - 1);
    }
  }

  ghost function Bag<T, V>(f: T -> multiset<V>, xs: seq<T>): multiset<V> {
    if xs == [] then multiset{} else f(xs[0]) + Bag(f, xs[1..])
  }

  lemma {:induction false} BagUpdate<T, V>(f: T -> multiset<V>, xs: seq<T>, i: nat, x: T)
    requires i < |xs|
    ensures f(xs[i]) <= Bag(f, xs)
    ensures Bag(f, xs[i := x]) == Bag(f, xs) - f(xs[i]) + f(x)
  {
    if i == 0 {
      assert xs[0 := x][1..] == xs[1..];
    } else {
      assert xs[i := x][1..] == xs[1..][i - 1 := x];
      BagUpdate(f, xs[1..], i - 1, x);
    }
  }

  lemma {:induction false} BagConcat<T, V>(f: T -> multiset<V>, xs: seq<T>, ys: seq<T>)
    ensures Bag(f, xs + ys) == Bag(f, xs) + Bag(f, ys)
  {
    if xs == [] {
      assert xs + ys == ys;
    } else {
      assert (xs + ys)[1..] == xs[1..] + ys;
      BagConcat(f, xs[1..], ys);
    }
  }

  lemma {:induction false} BagMember<T, V>(f: T -> multiset<V>, xs: seq<T>, v: V)
    ensures v in Bag(f, xs) <==> exists i :: 0 <= i < |xs| && v in f(xs[i])
  {
    if xs != [] {
      BagMember(f, xs[1..], v);
      if v in Bag(f, xs[1..]) {
        var i :| 0 <= i < |xs[1..]| && v in f(xs[1..][i]);
        assert xs[i + 1] == xs[1..][i];
      }
      if i :| 0 <= i < |xs| && v in f(xs[i]) {
        if i > 0 {
          assert xs[1..][i - 1] == xs[i];
        }
      }
    }
  }

}
