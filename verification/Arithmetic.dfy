// Facts about products, remainders, sums and sequences.
module Arithmetic {

  function Min(a: int, b: int): int {
    if a < b then a else b
  }

  function Max(a: int, b: int): int {
    if a > b then a else b
  }

  // ----- products and remainders -----

  lemma MulGrows(a: nat, b: int)
    ensures b >= 0 ==> a * b >= 0
    ensures b >= 1 ==> a * b >= a
  {
  }

  lemma MulMonotone(a: nat, x: int, y: int)
    ensures x <= y ==> a * x <= a * y
    ensures x < y ==> a * x + a <= a * y
  {
    var d := y - x;
    assert a * y == a * x + a * d;
    MulGrows(a, d);
  }

  lemma DivAtLeast(x: int, n: nat, q: int)
    requires n > 0 && q * n <= x
    ensures q <= x / n
  {
    assert x < n * (x / n + 1) && n * q <= x;
    MulMonotone(n, x / n + 1, q);
  }

  lemma DivBelow(n: nat, x: int, q: int)
    requires n > 0 && x < n * q
    ensures x / n < q
  {
    MulMonotone(n, q, x / n);
  }

  lemma DivMonotone(cb: nat, x: nat, y: nat)
    requires cb > 0 && x <= y
    ensures x / cb <= y / cb
  {
    if x / cb > y / cb {
      MulMonotone(cb, y / cb, x / cb);
    }
  }

  lemma {:induction false} ModUnique(x: int, n: nat, q: int, r: int)
    requires x == n * q + r && 0 <= r < n
    ensures x % n == r && x / n == q
  {
    var d, m := x / n - q, q - x / n;
    assert n * d == r - x % n by {
      assert n * d == n * (x / n) - n * q;
    }
    assert n * m == -(n * d);
    MulGrows(n, d);
    MulGrows(n, m);
  }

  function Pow2(k: nat): (r: nat)
    ensures r >= 1
  {
    if k == 0 then 1 else 2 * Pow2(k - 1)
  }

  // ----- sums -----

  function Sum(s: seq<nat>): nat {
    if s == [] then 0 else s[0] + Sum(s[1..])
  }

  lemma {:induction false} SumUpdate(s: seq<nat>, i: nat, v: nat)
    requires i < |s|
    ensures Sum(s[i := v]) == Sum(s) - s[i] + v
    decreases |s|
  {
    if i == 0 {
      assert s[i := v][1..] == s[1..];
    } else {
      assert s[i := v][1..] == s[1..][i - 1 := v];
      SumUpdate(s[1..], i - 1, v);
    }
  }

  lemma {:induction false} SumSnoc(s: seq<nat>, v: nat)
    ensures Sum(s + [v]) == Sum(s) + v
    decreases |s|
  {
    if s != [] {
      assert (s + [v])[1..] == s[1..] + [v];
      SumSnoc(s[1..], v);
    }
  }

  // The first `i + 1` elements.
  lemma {:induction false} SumPrefix(s: seq<nat>, i: nat)
    requires i < |s|
    ensures Sum(s[..i + 1]) == Sum(s[..i]) + s[i]
  {
    assert s[..i + 1] == s[..i] + [s[i]];
    SumSnoc(s[..i], s[i]);
  }

  lemma {:induction false} SumPositive(s: seq<nat>, i: nat)
    requires i < |s|
    ensures Sum(s) >= s[i]
    decreases |s|
  {
    if i > 0 {
      SumPositive(s[1..], i - 1);
    }
  }

  lemma {:induction false} SumBound(s: seq<nat>, t: seq<nat>)
    requires |s| == |t| && forall i :: 0 <= i < |s| ==> s[i] <= t[i]
    ensures Sum(s) <= Sum(t)
    ensures Sum(s) == Sum(t) ==> s == t
    decreases |s|
  {
    if s != [] {
      SumBound(s[1..], t[1..]);
      assert s == [s[0]] + s[1..] && t == [t[0]] + t[1..];
    }
  }

  lemma ConcatIsAssociative<T>(a: seq<T>, b: seq<T>, c: seq<T>)
    ensures a + b + c == a + (b + c)
  {
  }
}
