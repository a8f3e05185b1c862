/** The Array.prototype operations the repository relies on, over Dafny sequences. */
module Seqs {

  /** `a.flat()`: the concatenation of the inner sequences, in order. */
  function Flatten<T>(ss: seq<seq<T>>): seq<T>
  {
    if ss == [] then [] else ss[0] + Flatten(ss[1..])
  }

  lemma {:induction false} FlattenAppend<T>(a: seq<seq<T>>, b: seq<seq<T>>)
    ensures Flatten(a + b) == Flatten(a) + Flatten(b)
  {
    if a == [] {
      assert a + b == b;
    } else {
      assert (a + b)[1..] == a[1..] + b;
      FlattenAppend(a[1..], b);
    }
  }

  lemma {:induction false} FlattenElementBound<T>(ss: seq<seq<T>>, k: nat)
    requires k < |ss|
    ensures |ss[k]| <= |Flatten(ss)|
  {
    if k > 0 {
      FlattenElementBound(ss[1..], k - 1);
    }
  }

  /** `a.reduce((total, x) => total + f(x), start)`, folding from the left. */
  function Reduce<T>(total: nat, s: seq<T>, f: T -> nat): nat
    decreases |s|
  {
    if s == [] then total else Reduce(total + f(s[0]), s[1..], f)
  }

  /** The sum of `f` over `s`, taken from the last element backwards. */
  function SumOf<T>(s: seq<T>, f: T -> nat): nat
  {
    if s == [] then 0 else SumOf(s[..|s| - 1], f) + f(s[|s| - 1])
  }

  /** Two sequences whose elements contribute the same amounts, position by position, have
      the same sum. */
  lemma {:induction false} SumOfPointwise<T, U>(a: seq<T>, f: T -> nat, b: seq<U>, g: U -> nat)
    requires |a| == |b| && forall i :: 0 <= i < |a| ==> f(a[i]) == g(b[i])
    ensures SumOf(a, f) == SumOf(b, g)
    decreases |a|
  {
    if a != [] {
      SumOfPointwise(a[..|a| - 1], f, b[..|b| - 1], g);
    }
  }

  lemma {:induction false} SumOfAppend<T>(a: seq<T>, b: seq<T>, f: T -> nat)
    ensures SumOf(a + b, f) == SumOf(a, f) + SumOf(b, f)
    decreases |b|
  {
    if b == [] {
      assert a + b == a;
    } else {
      var b' := b[..|b| - 1];
      assert (a + b)[..|a + b| - 1] == a + b';
      SumOfAppend(a, b', f);
    }
  }

  /** The left fold adds its start value to the sum. */
  lemma {:induction false} ReduceIsSum<T>(total: nat, s: seq<T>, f: T -> nat)
    ensures Reduce(total, s, f) == total + SumOf(s, f)
    decreases |s|
  {
    if s != [] {
      ReduceIsSum(total + f(s[0]), s[1..], f);
      SumOfAppend([s[0]], s[1..], f);
      assert [s[0]] + s[1..] == s;
      assert [s[0]][..0] == [];
    }
  }

  /** Taking one element out of the middle takes its amount out of the sum. */
  lemma SumOfRemove<T>(b1: seq<T>, x: T, b2: seq<T>, f: T -> nat)
    ensures SumOf(b1 + [x] + b2, f) == SumOf(b1 + b2, f) + f(x)
  {
    SumOfAppend(b1, b2, f);
    SumOfAppend(b1, [x], f);
    SumOfAppend(b1 + [x], b2, f);
    assert [x][..0] == [];
  }

  lemma MultisetRemove<T>(a': seq<T>, x: T, b1: seq<T>, b2: seq<T>)
    requires multiset(a' + [x]) == multiset(b1 + [x] + b2)
    ensures multiset(a') == multiset(b1 + b2)
  {
    assert multiset(a' + [x]) == multiset(a') + multiset{x};
    assert multiset(b1 + [x] + b2) == multiset(b1) + multiset{x} + multiset(b2);
    assert multiset(b1 + b2) == multiset(b1) + multiset(b2);
    assert multiset(a') == multiset(a' + [x]) - multiset{x};
    assert multiset(b1 + b2) == multiset(b1 + [x] + b2) - multiset{x};
  }

  /** A sum does not depend on the order of the elements. */
  lemma {:induction false} SumOfPermutation<T>(a: seq<T>, b: seq<T>, f: T -> nat)
    requires multiset(a) == multiset(b)
    ensures SumOf(a, f) == SumOf(b, f)
    decreases |a|
  {
    if a != [] {
      var x := a[|a| - 1];
      var a' := a[..|a| - 1];
      assert a == a' + [x];
      assert x in multiset(b);
      var i :| 0 <= i < |b| && b[i] == x;
      var b1, b2 := b[..i], b[i + 1..];
      assert b == b1 + [x] + b2;
      MultisetRemove(a', x, b1, b2);
      SumOfPermutation(a', b1 + b2, f);
      SumOfRemove(b1, x, b2, f);
    }
  }

  /** `a.filter(p)`. */
  function Filter<T>(s: seq<T>, p: T -> bool): (r: seq<T>)
    ensures |r| <= |s|
    ensures forall x :: x in r ==> x in s && p(x)
  {
    if s == [] then []
    else if p(s[0]) then [s[0]] + Filter(s[1..], p)
    else Filter(s[1..], p)
  }

  lemma {:induction false} FilterMember<T>(s: seq<T>, p: T -> bool, x: T)
    ensures x in Filter(s, p) <==> x in s && p(x)
  {
    if s != [] {
      FilterMember(s[1..], p, x);
    }
  }

  lemma {:induction false} FilterAppend<T>(a: seq<T>, b: seq<T>, p: T -> bool)
    ensures Filter(a + b, p) == Filter(a, p) + Filter(b, p)
  {
    if a == [] {
      assert a + b == b;
    } else {
      assert (a + b)[1..] == a[1..] + b;
      FilterAppend(a[1..], b, p);
    }
  }

  /** Filtering by a predicate and by its negation splits a sequence: together the two
      results hold every element exactly as often as the input does. */
  lemma {:induction false} FilterSplit<T>(s: seq<T>, p: T -> bool, q: T -> bool)
    requires forall x :: q(x) == !p(x)
    ensures multiset(Filter(s, p)) + multiset(Filter(s, q)) == multiset(s)
  {
    if s != [] {
      var t := s[1..];
      FilterSplit(t, p, q);
      assert s == [s[0]] + t;
      assert multiset(s) == multiset{s[0]} + multiset(t);
      if p(s[0]) {
        assert Filter(s, p) == [s[0]] + Filter(t, p) && Filter(s, q) == Filter(t, q);
      } else {
        assert Filter(s, q) == [s[0]] + Filter(t, q) && Filter(s, p) == Filter(t, p);
      }
    }
  }

  /** `a.findIndex(p)`: the first index whose element satisfies `p`, or -1. */
  function FindIndex<T>(s: seq<T>, p: T -> bool): (r: int)
    ensures -1 <= r < |s|
    ensures r == -1 <==> forall j :: 0 <= j < |s| ==> !p(s[j])
    ensures r >= 0 ==> p(s[r]) && forall j :: 0 <= j < r ==> !p(s[j])
  {
    if s == [] then -1
    else if p(s[0]) then 0
    else
      var k := FindIndex(s[1..], p);
      if k == -1 then -1 else k + 1
  }

  /** `s.indexOf(x)` for a single element. */
  function IndexOf<T(==)>(s: seq<T>, x: T): (r: int)
    ensures -1 <= r < |s|
    ensures r == -1 <==> x !in s
    ensures r >= 0 ==> s[r] == x && x !in s[..r]
  {
    if s == [] then -1
    else if s[0] == x then 0
    else
      var k := IndexOf(s[1..], x);
      assert k >= 0 ==> s[..k + 1] == [s[0]] + s[1..][..k];
      if k == -1 then -1 else k + 1
  }

  lemma IndexOfConcat<T>(a: seq<T>, x: T, b: seq<T>)
    requires x !in a
    ensures IndexOf(a + [x] + b, x) == |a|
  {
    var s := a + [x] + b;
    var k := IndexOf(s, x);
    assert s[|a|] == x;
    assert s[..|a|] == a;
  }

  /** Prepending to a short literal sequence, stated over an element type the solver cannot
      look inside. */
  lemma PrependTwo<T>(x: T, y: T, z: T)
    ensures [x] + [y, z] == [x, y, z]
  {
  }

  lemma PrependThree<T>(x: T, y: T, z: T, w: T)
    ensures [x] + [y, z, w] == [x, y, z, w]
  {
  }

  /** The exchange `[a[i], a[j]] = [a[j], a[i]]` on a copy of `s`. */
  function Swap<T>(s: seq<T>, i: nat, j: nat): (r: seq<T>)
    requires i < |s| && j < |s|
    ensures |r| == |s|
  {
    s[i := s[j]][j := s[i]]
  }

  lemma SwapFacts<T>(s: seq<T>, i: nat, j: nat)
    requires i < |s| && j < |s|
    ensures Swap(s, i, j)[i] == s[j] && Swap(s, i, j)[j] == s[i]
    ensures forall k :: 0 <= k < |s| && k != i && k != j ==> Swap(s, i, j)[k] == s[k]
    ensures multiset(Swap(s, i, j)) == multiset(s)
    ensures Swap(Swap(s, i, j), j, i) == s
  {
    var t := s[i := s[j]];
    assert multiset(t) == multiset(s) - multiset{s[i]} + multiset{s[j]};
    assert multiset(t[j := s[i]]) == multiset(t) - multiset{t[j]} + multiset{s[i]};
  }
}
