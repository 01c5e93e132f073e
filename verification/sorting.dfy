// The library sorts the repository calls (sort.Slice, slices.SortFunc):
// neither is stable, and callers may rely only on what is stated here.

module Sorting {
  ghost predicate StrictWeakOrder<T(!new)>(less: (T, T) -> bool) {
    && (forall a, b :: !(less(a, b) && less(b, a)))
    && (forall a, b, c :: less(a, b) && !less(c, b) ==> less(a, c))
  }

  // No later element is less than an earlier one.
  ghost predicate SortedBy<T(!new)>(less: (T, T) -> bool, s: seq<T>) {
    forall i, j :: 0 <= i < j < |s| ==> !less(s[j], s[i])
  }

  method Sort<T(!new)>(less: (T, T) -> bool, items: seq<T>) returns (s: seq<T>)
    requires StrictWeakOrder(less)
    ensures multiset(s) == multiset(items)
    ensures SortedBy(less, s)
  {
    s := [];
    for n := 0 to |items|
      invariant multiset(s) == multiset(items[..n])
      invariant SortedBy(less, s)
    {
      s := Insert(less, s, items[n]);
      assert items[..n + 1] == items[..n] + [items[n]];
    }
    assert items[..|items|] == items;
  }

  method Insert<T(!new)>(less: (T, T) -> bool, s: seq<T>, x: T) returns (r: seq<T>)
    requires StrictWeakOrder(less) && SortedBy(less, s)
    ensures SortedBy(less, r) && multiset(r) == multiset(s) + multiset{x}
  {
    var k := |s|;
    while k > 0 && less(x, s[k - 1])
      invariant 0 <= k <= |s|
      invariant k < |s| ==> less(x, s[k])
    {
      k := k - 1;
    }
    InsertKeepsSorted(less, s, x, k);
    r := s[..k] + [x] + s[k..];
    assert s == s[..k] + s[k..];
  }

  lemma InsertKeepsSorted<T(!new)>(less: (T, T) -> bool, s: seq<T>, x: T, k: nat)
    requires StrictWeakOrder(less) && SortedBy(less, s) && k <= |s|
    requires k > 0 ==> !less(x, s[k - 1])
    requires k < |s| ==> less(x, s[k])
    ensures SortedBy(less, s[..k] + [x] + s[k..])
  {
    var r := s[..k] + [x] + s[k..];
    forall i, j | 0 <= i < j < |r|
      ensures !less(r[j], r[i])
    {
      if j == k {
        assert r[i] == s[i] && r[j] == x;
        assert i < k - 1 ==> !less(s[k - 1], s[i]);
      } else if i == k {
        assert r[j] == s[j - 1] && r[i] == x;
        assert k < j - 1 ==> !less(s[j - 1], s[k]);
      } else {
        assert r[i] == s[if i < k then i else i - 1] && r[j] == s[if j < k then j else j - 1];
      }
    }
  }

  lemma SameMembers<T>(a: seq<T>, b: seq<T>)
    requires multiset(a) == multiset(b)
    ensures |a| == |b|
    ensures forall x :: x in a <==> x in b
  {
    assert |multiset(a)| == |a| && |multiset(b)| == |b|;
    assert forall x :: x in a <==> x in multiset(a);
    assert forall x :: x in b <==> x in multiset(b);
  }

  // s without its k-th element.
  function Without<T>(s: seq<T>, k: nat): (r: seq<T>)
    requires k < |s|
    ensures |r| == |s| - 1
  {
    s[..k] + s[k + 1..]
  }

  // Taking an element out of s + [x], of s or the last one.
  lemma WithoutAppend<T>(s: seq<T>, x: T, k: nat)
    requires k <= |s|
    ensures Without(s + [x], k) == if k < |s| then Without(s, k) + [x] else s
  {
  }

  lemma SplitAt<T>(s: seq<T>, k: nat)
    requires k < |s|
    ensures s == s[..k] + [s[k]] + s[k + 1..]
  {
  }

  lemma WithoutMember<T>(s: seq<T>, k: nat)
    requires k < |s|
    ensures multiset(Without(s, k)) == multiset(s) - multiset{s[k]}
  {
    SplitAt(s, k);
  }

  // A permutation of s holds each of its elements somewhere, and what is left
  // of the two without it is again a permutation.
  lemma MatchMember<T>(s: seq<T>, t: seq<T>, k: nat) returns (m: nat)
    requires multiset(s) == multiset(t) && k < |s|
    ensures m < |t| && t[m] == s[k]
    ensures multiset(Without(s, k)) == multiset(Without(t, m))
  {
    SameMembers(s, t);
    assert s[k] in t;
    m :| 0 <= m < |t| && t[m] == s[k];
    hide Without;
    WithoutMember(s, k);
    WithoutMember(t, m);
  }
}
