/** Finite sums of exact amounts: over sequences, and over finite sets through a weight function. */
module Sums {

  function Min(a: real, b: real): real { if a <= b then a else b }

  function Max(a: real, b: real): real { if a >= b then a else b }

  /** What shares come to at a price; a name for the product keeps proofs about it linear. */
  function Money(price: real, shares: real): real { price * shares }

  lemma MoneyAdds(p: real, a: real, b: real)
    ensures Money(p, a + b) == Money(p, a) + Money(p, b)
    ensures Money(p, a - b) == Money(p, a) - Money(p, b)
    ensures Money(p, 0.0) == 0.0
  {
  }

  lemma MoneyMonotone(p: real, a: real, b: real)
    requires p >= 0.0 && a <= b
    ensures Money(p, a) <= Money(p, b)
  {
  }

  lemma PricesMonotone(p: real, r: real, a: real)
    requires p <= r && a >= 0.0
    ensures Money(p, a) <= Money(r, a)
  {
  }

  lemma PositiveMoney(p: real, a: real)
    requires a >= 0.0 && Money(p, a) > 0.0
    ensures p > 0.0 && a > 0.0
  {
    if p <= 0.0 {
      PricesMonotone(p, 0.0, a);
    }
  }

  lemma MoneyCancels(p: real, a: real, b: real)
    requires p > 0.0
    ensures Money(p, a) <= Money(p, b) <==> a <= b
    ensures Money(p, a) == Money(p, b) <==> a == b
  {
  }

  lemma MoneyOfQuotient(p: real, money: real)
    requires p != 0.0
    ensures Money(p, money / p) == money
  {
  }

  lemma Pick<T>(s: set<T>) returns (x: T)
    requires s != {}
    ensures x in s
  {
    x :| x in s;
  }

  function Sum(s: seq<real>): real {
    if s == [] then 0.0 else s[0] + Sum(s[1..])
  }

  lemma {:induction false} SumConcat(a: seq<real>, b: seq<real>)
    ensures Sum(a + b) == Sum(a) + Sum(b)
  {
    if a == [] {
      assert a + b == b;
    } else {
      assert (a + b)[1..] == a[1..] + b;
      SumConcat(a[1..], b);
    }
  }

  /** The sum of a weight over the elements of a sequence. */
  function SumBy<T>(s: seq<T>, f: T -> real): real {
    if s == [] then 0.0 else f(s[0]) + SumBy(s[1..], f)
  }

  /** A sum does not depend on the order of its terms. */
  lemma {:induction false} SumByPermutation<T>(a: seq<T>, b: seq<T>, f: T -> real)
    requires multiset(a) == multiset(b)
    ensures SumBy(a, f) == SumBy(b, f)
  {
    if a == [] {
      assert |multiset(b)| == 0;
      assert b == [];
    } else {
      assert a[0] in multiset(b);
      var k :| 0 <= k < |b| && b[k] == a[0];
      var rest := b[..k] + b[k + 1..];
      assert multiset(a[1..]) == multiset(a) - multiset{a[0]} by {
        WithoutOne(a, 0);
        assert a[..0] + a[1..] == a[1..];
      }
      WithoutOne(b, k);
      WithoutOneSum(b, k, f);
      SumByPermutation(a[1..], rest, f);
    }
  }

  lemma WithoutOne<T>(s: seq<T>, k: nat)
    requires k < |s|
    ensures multiset(s[..k] + s[k + 1..]) == multiset(s) - multiset{s[k]}
  {
    assert s == s[..k] + [s[k]] + s[k + 1..];
  }

  lemma {:induction false} WithoutOneSum<T>(s: seq<T>, k: nat, f: T -> real)
    requires k < |s|
    ensures SumBy(s, f) == f(s[k]) + SumBy(s[..k] + s[k + 1..], f)
  {
    if k == 0 {
      assert s[..0] + s[1..] == s[1..];
    } else {
      var rest := s[1..];
      WithoutOneSum(rest, k - 1, f);
      assert (s[..k] + s[k + 1..])[1..] == rest[..k - 1] + rest[k..];
    }
  }

  lemma {:induction false} SumIsSumBy(s: seq<real>)
    ensures Sum(s) == SumBy(s, x => x)
  {
    if s != [] {
      SumIsSumBy(s[1..]);
    }
  }

  lemma SumPermutation(a: seq<real>, b: seq<real>)
    requires multiset(a) == multiset(b)
    ensures Sum(a) == Sum(b)
  {
    SumByPermutation(a, b, x => x);
    SumIsSumBy(a);
    SumIsSumBy(b);
  }

  lemma {:induction false} SumNonNegative(s: seq<real>)
    requires forall i :: 0 <= i < |s| ==> s[i] >= 0.0
    ensures Sum(s) >= 0.0
  {
    if s != [] {
      SumNonNegative(s[1..]);
    }
  }

  /** The sum of `f` over a finite set, whatever order the elements are visited in (see `TotalSplit`). */
  ghost function Total<T(!new)>(s: set<T>, f: T -> real): real {
    if s == {} then 0.0 else
      var x :| x in s;
      f(x) + Total(s - {x}, f)
  }

  lemma {:induction false} TotalSplit<T(!new)>(s: set<T>, f: T -> real, x: T)
    requires x in s
    ensures Total(s, f) == f(x) + Total(s - {x}, f)
    decreases |s|
  {
    var y :| y in s && Total(s, f) == f(y) + Total(s - {y}, f);
    if x != y {
      TotalSplit(s - {y}, f, x);
      TotalSplit(s - {x}, f, y);
      assert s - {y} - {x} == s - {x} - {y};
    }
  }

  lemma {:induction false} TotalCongruent<T(!new)>(s: set<T>, f: T -> real, g: T -> real)
    requires forall x :: x in s ==> f(x) == g(x)
    ensures Total(s, f) == Total(s, g)
    decreases |s|
  {
    if s != {} {
      var x :| x in s;
      TotalSplit(s, f, x);
      TotalSplit(s, g, x);
      TotalCongruent(s - {x}, f, g);
    }
  }

  lemma {:induction false} TotalAdds<T(!new)>(s: set<T>, f: T -> real, g: T -> real, h: T -> real)
    requires forall x :: x in s ==> f(x) == g(x) + h(x)
    ensures Total(s, f) == Total(s, g) + Total(s, h)
    decreases |s|
  {
    if s != {} {
      var x :| x in s;
      TotalSplit(s, f, x);
      TotalSplit(s, g, x);
      TotalSplit(s, h, x);
      TotalAdds(s - {x}, f, g, h);
    }
  }

  /** Changing one weight changes the sum by exactly that difference. */
  lemma TotalChange<T(!new)>(s: set<T>, f: T -> real, g: T -> real, x: T)
    requires x in s
    requires forall y :: y in s && y != x ==> f(y) == g(y)
    ensures Total(s, g) == Total(s, f) + (g(x) - f(x))
  {
    TotalSplit(s, f, x);
    TotalSplit(s, g, x);
    TotalCongruent(s - {x}, f, g);
  }

  /** A non-negative weight never exceeds the whole. */
  lemma {:induction false} TotalBounds<T(!new)>(s: set<T>, f: T -> real)
    requires forall x :: x in s ==> f(x) >= 0.0
    ensures Total(s, f) >= 0.0
    ensures forall x :: x in s ==> f(x) <= Total(s, f)
    decreases |s|
  {
    forall x | x in s
      ensures f(x) <= Total(s, f)
    {
      TotalSplit(s, f, x);
      TotalBounds(s - {x}, f);
    }
    if s != {} {
      var x :| x in s;
      assert 0.0 <= f(x) <= Total(s, f);
    }
  }

  /** A list without repetitions sums to its set. */
  lemma {:induction false} SumByIsTotal<T(!new)>(s: seq<T>, f: T -> real)
    requires forall i, j :: 0 <= i < j < |s| ==> s[i] != s[j]
    ensures SumBy(s, f) == Total((set x | x in s), f)
  {
    var all := set x | x in s;
    if s != [] {
      assert s[0] in all && all - {s[0]} == (set x | x in s[1..]);
      TotalSplit(all, f, s[0]);
      SumByIsTotal(s[1..], f);
    } else {
      assert all == {};
    }
  }

  lemma {:induction false} TotalZero<T(!new)>(s: set<T>, f: T -> real)
    requires forall x :: x in s ==> f(x) == 0.0
    ensures Total(s, f) == 0.0
    decreases |s|
  {
    if s != {} {
      var x := Pick(s);
      TotalSplit(s, f, x);
      TotalZero(s - {x}, f);
    }
  }

  /** Elements of weight zero may be left out. */
  lemma {:induction false} TotalSupport<T(!new)>(s: set<T>, part: set<T>, f: T -> real)
    requires part <= s && forall x :: x in s && x !in part ==> f(x) == 0.0
    ensures Total(s, f) == Total(part, f)
    decreases |part|
  {
    if part == {} {
      TotalZero(s, f);
    } else {
      var x := Pick(part);
      TotalSplit(s, f, x);
      TotalSplit(part, f, x);
      TotalSupport(s - {x}, part - {x}, f);
    }
  }
}
