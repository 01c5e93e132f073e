// Small facts of arithmetic and counting that several modules use.

module Numbers {
  function Min(a: nat, b: nat): nat { if a < b then a else b }

  function Max(a: nat, b: nat): nat { if a > b then a else b }

  lemma MulLe(a: int, b: int, d: nat)
    ensures a <= b ==> a * d <= b * d
  {
    if a <= b {
      assert (b - a) * d >= 0;
    }
  }

  lemma MulNext(n: int, d: int)
    ensures (n + 1) * d == n * d + d
  {
  }

  lemma QuotientUnique(x: nat, d: nat, q: int)
    requires d > 0
    ensures q * d <= x < (q + 1) * d <==> x / d == q
  {
    var q', r := x / d, x % d;
    assert x == q' * d + r && 0 <= r < d;
    MulNext(q', d);
    MulLe(q' + 1, q, d);
    MulLe(q + 1, q', d);
  }

  lemma {:induction false} SubsetSize<T>(a: set<T>, b: set<T>)
    requires a <= b
    ensures |a| <= |b|
    ensures |a| == |b| <==> a == b
  {
    if a != {} {
      var x :| x in a;
      SubsetSize(a - {x}, b - {x});
    }
  }

  // The numbers below n.
  function UpTo(n: nat): (r: set<nat>)
    ensures |r| == n
    ensures forall i :: i in r <==> 0 <= i < n
  {
    if n == 0 then {} else UpTo(n - 1) + {n - 1}
  }
}
