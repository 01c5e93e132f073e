// What a sealed day contains: the union of the entries already on disk and
// the newer ones, reduced to a deterministic sample when it does not fit.

module OracleMerge {
  import opened Numbers
  import opened Wrappers
  import opened Sorting
  import opened OracleSlice

  // src without what out already holds, and without its own repetitions.
  function Fresh(out: seq<Entry>, src: seq<Entry>): seq<Entry> {
    if src == [] then []
    else
      var before := Fresh(out, src[..|src| - 1]);
      var e := src[|src| - 1];
      if e in out || e in before then before else before + [e]
  }

  function Merge(base: seq<Entry>, newer: seq<Entry>): seq<Entry> {
    Fresh([], base) + Fresh(Fresh([], base), newer)
  }

  // How many newer entries the merge discards as repetitions.
  function Duplicates(base: seq<Entry>, newer: seq<Entry>): int {
    |newer| - |Fresh(Fresh([], base), newer)|
  }

  predicate NoDup(es: seq<Entry>) {
    forall i, j :: 0 <= i < j < |es| ==> es[i] != es[j]
  }

  lemma {:induction false} FreshFacts(out: seq<Entry>, src: seq<Entry>)
    ensures |Fresh(out, src)| <= |src|
    ensures NoDup(Fresh(out, src))
    ensures forall e :: e in Fresh(out, src) <==> e in src && e !in out
  {
    if src != [] {
      var p, e := src[..|src| - 1], src[|src| - 1];
      FreshFacts(out, p);
      assert src == p + [e];
    }
  }

  lemma {:induction false} FreshNothing(out: seq<Entry>, src: seq<Entry>)
    requires forall e :: e in src ==> e in out
    ensures Fresh(out, src) == []
  {
    if src != [] {
      FreshNothing(out, src[..|src| - 1]);
      assert src[|src| - 1] in src;
    }
  }

  lemma {:induction false} FreshAll(src: seq<Entry>)
    requires NoDup(src)
    ensures Fresh([], src) == src
  {
    if src != [] {
      var p, e := src[..|src| - 1], src[|src| - 1];
      FreshAll(p);
      assert src == p + [e];
      assert e !in p;
    }
  }

  // The merge keeps every entry of either side exactly once, the day already
  // on disk first and in its own order.
  lemma MergeKeepsEverything(base: seq<Entry>, newer: seq<Entry>)
    ensures NoDup(Merge(base, newer))
    ensures forall e :: e in Merge(base, newer) <==> e in base || e in newer
    ensures NoDup(base) ==> base <= Merge(base, newer)
    ensures 0 <= Duplicates(base, newer) <= |newer|
    ensures NoDup(base) ==> |Merge(base, newer)| == |base| + |newer| - Duplicates(base, newer)
  {
    FreshFacts([], base);
    FreshFacts(Fresh([], base), newer);
    if NoDup(base) {
      FreshAll(base);
    }
    var a, b := Fresh([], base), Fresh(Fresh([], base), newer);
    assert forall i :: 0 <= i < |a| ==> a[i] in a;
    assert forall j :: 0 <= j < |b| ==> b[j] in b;
  }

  // Ingesting the same entries again adds nothing.
  lemma MergeIdempotent(base: seq<Entry>, newer: seq<Entry>)
    requires NoDup(base) && forall e :: e in newer ==> e in base
    ensures Merge(base, newer) == base && Duplicates(base, newer) == |newer|
  {
    FreshAll(base);
    FreshNothing(base, newer);
  }

  // mergeOracleEntries: one pass over the sealed entries, one over the newer.
  method MergeOracleEntries(base: seq<Entry>, newer: seq<Entry>) returns (out: seq<Entry>, dup: nat)
    ensures out == Merge(base, newer) && dup == Duplicates(base, newer)
  {
    var seen: set<Entry> := {};
    var outBase: seq<Entry>;
    var skipped;
    out := [];
    out, seen, skipped := MergePass([], seen, base);
    ghost var first := out;
    assert out == Fresh([], base);
    FreshFacts([], base);
    out, seen, dup := MergePass(out, seen, newer);
    FreshFacts(first, newer);
  }

  method MergePass(start: seq<Entry>, seenBefore: set<Entry>, src: seq<Entry>)
    returns (out: seq<Entry>, seen: set<Entry>, dup: nat)
    requires forall e :: e in seenBefore <==> e in start
    ensures out == start + Fresh(start, src)
    ensures forall e :: e in seen <==> e in out
    ensures dup == |src| - |Fresh(start, src)|
  {
    out, seen, dup := start, seenBefore, 0;
    for i := 0 to |src|
      invariant out == start + Fresh(start, src[..i])
      invariant forall e :: e in seen <==> e in out
      invariant dup == i - |Fresh(start, src[..i])|
    {
      assert src[..i + 1][..i] == src[..i];
      FreshFacts(start, src[..i]);
      if src[i] in seen {
        dup := dup + 1;
        continue;
      }
      seen := seen + {src[i]};
      out := out + [src[i]];
    }
    assert src[..|src|] == src;
  }

  // ---------------------------------------------------------- sampling

  predicate Distinct(idx: seq<nat>) {
    forall i, j :: 0 <= i < j < |idx| ==> idx[i] != idx[j]
  }

  predicate Increasing(idx: seq<nat>) {
    forall i, j :: 0 <= i < j < |idx| ==> idx[i] < idx[j]
  }

  // The place that the word drawn for the n-th of the indices falls on.
  function Place(draw: Draw, k: nat, g: Sampler, n: nat): (p: nat)
    requires k <= n
    ensures p <= n
  {
    Below(draw, g.(drawn := g.drawn + (n - k)), n + 1)
  }

  predicate Untouched(draw: Draw, k: nat, g: Sampler, p: nat, from: nat, len: nat)
    requires k <= from
  {
    forall n :: from <= n < len ==> Place(draw, k, g, n) != p
  }

  // Each place holds the last index whose word fell on it, and the index it
  // began with when none did.
  predicate IsReservoir(draw: Draw, idx: seq<nat>, k: nat, g: Sampler, res: seq<nat>)
    requires k <= |idx|
  {
    && |res| == k
    && (forall p :: 0 <= p < k && Untouched(draw, k, g, p, k, |idx|) ==> res[p] == idx[p])
    && forall n :: k <= n < |idx| && Place(draw, k, g, n) < k
                   && Untouched(draw, k, g, Place(draw, k, g, n), n + 1, |idx|) ==>
         res[Place(draw, k, g, n)] == idx[n]
  }

  // Whether the n-th of len indices is kept.
  predicate Survives(draw: Draw, len: nat, k: nat, g: Sampler, n: nat) {
    if len <= k then n < len
    else if n < k then Untouched(draw, k, g, n, k, len)
    else n < len && Place(draw, k, g, n) < k && Untouched(draw, k, g, Place(draw, k, g, n), n + 1, len)
  }

  // reservoirIndices: algorithm R, at most k of idx; one word is drawn for
  // each index past the first k.
  method ReservoirIndices(draw: Draw, idx: seq<nat>, k: int, g: Sampler) returns (res: seq<nat>, g': Sampler)
    ensures k <= 0 ==> res == [] && g' == g
    ensures 0 <= k && |idx| <= k ==> res == idx && g' == g
    ensures 0 < k < |idx| ==> IsReservoir(draw, idx, k, g, res) && g' == g.(drawn := g.drawn + (|idx| - k))
  {
    hide Place;
    g' := g;
    if k <= 0 {
      return [], g;
    }
    if |idx| <= k {
      return idx, g;
    }
    res := idx[..k];
    for n := k to |idx|
      invariant g' == g.(drawn := g.drawn + (n - k))
      invariant IsReservoir(draw, idx[..n], k, g, res)
    {
      PlaceIs(draw, k, g, n);
      var j := Below(draw, g', n + 1);
      g' := Next(g');
      NextWord(draw, idx, k, g, res, n);
      if j < k {
        res := res[j := idx[n]];
      }
    }
    assert idx[..|idx|] == idx;
  }

  lemma PlaceIs(draw: Draw, k: nat, g: Sampler, n: nat)
    requires k <= n
    ensures Place(draw, k, g, n) == Below(draw, g.(drawn := g.drawn + (n - k)), n + 1)
  {
  }

  lemma NextWord(draw: Draw, idx: seq<nat>, k: nat, g: Sampler, res: seq<nat>, n: nat)
    requires k <= n < |idx| && IsReservoir(draw, idx[..n], k, g, res)
    ensures var j := Place(draw, k, g, n);
      IsReservoir(draw, idx[..n + 1], k, g, if j < k then res[j := idx[n]] else res)
  {
    hide Place;
    var j := Place(draw, k, g, n);
    var r := if j < k then res[j := idx[n]] else res;
    forall p | 0 <= p < k && Untouched(draw, k, g, p, k, n + 1)
      ensures r[p] == idx[p]
    {
      assert Untouched(draw, k, g, p, k, n);
    }
    forall m | k <= m < n + 1 && Place(draw, k, g, m) < k
               && Untouched(draw, k, g, Place(draw, k, g, m), m + 1, n + 1)
      ensures r[Place(draw, k, g, m)] == idx[m]
    {
      assert m < n ==> Untouched(draw, k, g, Place(draw, k, g, m), m + 1, n);
    }
  }

  // The last of the words that fell on p, if any did.
  lemma {:induction false} LastOn(draw: Draw, k: nat, g: Sampler, p: nat, len: nat) returns (last: Option<nat>)
    requires k <= len
    ensures last.None? ==> Untouched(draw, k, g, p, k, len)
    ensures last.Some? ==> k <= last.value < len && Place(draw, k, g, last.value) == p
    ensures last.Some? ==> Untouched(draw, k, g, p, last.value + 1, len)
  {
    hide Place;
    if len == k {
      last := None;
    } else if Place(draw, k, g, len - 1) == p {
      last := Some(len - 1);
    } else {
      last := LastOn(draw, k, g, p, len - 1);
    }
  }

  // The reservoir holds exactly the indices that survive, each once.
  lemma ReservoirHolds(draw: Draw, idx: seq<nat>, k: nat, g: Sampler, res: seq<nat>)
    requires Distinct(idx) && k < |idx| && IsReservoir(draw, idx, k, g, res)
    ensures forall n :: 0 <= n < |idx| ==> (idx[n] in res <==> Survives(draw, |idx|, k, g, n))
    ensures Distinct(res) && forall x :: x in res ==> x in idx
  {
    hide Place;
    forall n | 0 <= n < |idx|
      ensures idx[n] in res <==> Survives(draw, |idx|, k, g, n)
    {
      if idx[n] in res {
        var p :| 0 <= p < k && res[p] == idx[n];
        var m := WhatIsHeld(draw, idx, k, g, res, p);
      }
      if Survives(draw, |idx|, k, g, n) {
        assert res[if n < k then n else Place(draw, k, g, n)] == idx[n];
      }
    }
    forall p, q | 0 <= p < q < k
      ensures res[p] != res[q]
    {
      var m := WhatIsHeld(draw, idx, k, g, res, p);
      var n := WhatIsHeld(draw, idx, k, g, res, q);
    }
    forall x | x in res
      ensures x in idx
    {
      var p :| 0 <= p < k && res[p] == x;
      var m := WhatIsHeld(draw, idx, k, g, res, p);
    }
  }

  // Place p holds the n-th index, which survives there.
  predicate HeldAt(draw: Draw, idx: seq<nat>, k: nat, g: Sampler, res: seq<nat>, p: nat, n: nat)
    requires k < |idx| && |res| == k && p < k
  {
    && n < |idx| && res[p] == idx[n] && Survives(draw, |idx|, k, g, n)
    && p == if n < k then n else Place(draw, k, g, n)
  }

  lemma WhatIsHeld(draw: Draw, idx: seq<nat>, k: nat, g: Sampler, res: seq<nat>, p: nat) returns (n: nat)
    requires k < |idx| && IsReservoir(draw, idx, k, g, res) && p < k
    ensures HeldAt(draw, idx, k, g, res, p, n)
  {
    hide Place;
    var last := LastOn(draw, k, g, p, |idx|);
    n := last.GetOr(p);
  }

  function HighIndices(es: seq<Entry>): set<nat> {
    set i | 0 <= i < |es| && IsHigh(es[i])
  }

  // The indices of the High entries, and of the others, in order.
  function IndicesOf(es: seq<Entry>, high: bool): seq<nat> {
    if es == [] then []
    else IndicesOf(es[..|es| - 1], high) + if IsHigh(es[|es| - 1]) == high then [|es| - 1] else []
  }

  function PriorityOf(es: seq<Entry>): seq<nat> { IndicesOf(es, true) }

  function NormalOf(es: seq<Entry>): seq<nat> { IndicesOf(es, false) }

  // What the words drawn from g on leave of index i: the High entries compete
  // for all places, the others for those that are left.
  predicate Chosen(draw: Draw, g: Sampler, es: seq<Entry>, cap: nat, i: nat) {
    var prio, normal := PriorityOf(es), NormalOf(es);
    || (exists n :: 0 <= n < |prio| && prio[n] == i && Survives(draw, |prio|, cap, g, n))
    || (exists n :: 0 <= n < |normal| && normal[n] == i && |prio| < cap
                    && Survives(draw, |normal|, cap - |prio|, g, n))
  }

  // keep selects out of es: in the original order, High entries first in
  // line for a place, exactly cap places given, and to those the words chose.
  ghost predicate IsSampleBy(draw: Draw, g: Sampler, es: seq<Entry>, cap: nat, out: seq<Entry>, keep: seq<nat>) {
    && |keep| == |out| == cap
    && Increasing(keep)
    && (forall i :: 0 <= i < cap ==> keep[i] < |es| && out[i] == es[keep[i]])
    && (|HighIndices(es)| <= cap ==> forall i :: i in HighIndices(es) ==> i in keep)
    && (|HighIndices(es)| >= cap ==> forall i :: i in keep ==> i in HighIndices(es))
    && (forall i: nat :: i < |es| ==> (i in keep <==> Chosen(draw, g, es, cap, i)))
  }

  ghost predicate IsSample(draw: Draw, g: Sampler, es: seq<Entry>, cap: nat, out: seq<Entry>) {
    exists keep :: IsSampleBy(draw, g, es, cap, out, keep)
  }

  lemma SampleFacts(draw: Draw, g: Sampler, es: seq<Entry>, cap: nat, out: seq<Entry>)
    requires IsSample(draw, g, es, cap, out)
    ensures |out| == cap
    ensures forall e :: e in out ==> e in es
    ensures NoDup(es) ==> NoDup(out)
    ensures |HighIndices(es)| <= cap ==> forall e :: e in es && IsHigh(e) ==> e in out
  {
    hide Chosen;
    var keep :| IsSampleBy(draw, g, es, cap, out, keep);
    if |HighIndices(es)| <= cap {
      forall e | e in es && IsHigh(e)
        ensures e in out
      {
        var i :| 0 <= i < |es| && es[i] == e;
        assert i in HighIndices(es);
        var p :| 0 <= p < |keep| && keep[p] == i;
        assert out[p] == e;
      }
    }
  }

  // The words drawn decide the whole sample.
  lemma OneSample(draw: Draw, g: Sampler, es: seq<Entry>, cap: nat, a: seq<Entry>, b: seq<Entry>)
    requires IsSample(draw, g, es, cap, a) && IsSample(draw, g, es, cap, b)
    ensures a == b
  {
    hide Chosen, HighIndices;
    var k :| IsSampleBy(draw, g, es, cap, a, k);
    var l :| IsSampleBy(draw, g, es, cap, b, l);
    forall i: nat
      ensures i in k <==> i in l
    {
      assert forall p :: 0 <= p < |k| ==> k[p] < |es|;
      assert forall p :: 0 <= p < |l| ==> l[p] < |es|;
    }
    IncreasingOnce(k, l);
  }

  lemma {:induction false} IncreasingOnce(a: seq<nat>, b: seq<nat>)
    requires Increasing(a) && Increasing(b) && forall x: nat :: x in a <==> x in b
    ensures a == b
  {
    assert a != [] ==> a[0] in a;
    assert b != [] ==> b[0] in b;
    if a != [] && b != [] {
      LastIsGreatest(a);
      LastIsGreatest(b);
      hide Increasing;
      assert a[|a| - 1] in b && b[|b| - 1] in a;
      assert a[|a| - 1] == b[|b| - 1];
      var p, q := a[..|a| - 1], b[..|b| - 1];
      forall x: nat
        ensures x in p <==> x in q
      {
        assert x in p <==> x in a && x != a[|a| - 1];
        assert x in q <==> x in b && x != b[|b| - 1];
      }
      IncreasingOnce(p, q);
      assert a == a[..|a| - 1] + [a[|a| - 1]] && b == b[..|b| - 1] + [b[|b| - 1]];
    }
  }

  lemma LastIsGreatest(a: seq<nat>)
    requires Increasing(a) && a != []
    ensures a[|a| - 1] in a && forall x :: x in a ==> x <= a[|a| - 1]
    ensures Increasing(a[..|a| - 1])
    ensures forall x: nat :: x in a[..|a| - 1] <==> x in a && x != a[|a| - 1]
  {
    assert a == a[..|a| - 1] + [a[|a| - 1]];
  }

  lemma {:induction false} IndexMembers(es: seq<Entry>, high: bool)
    ensures Increasing(IndicesOf(es, high))
    ensures forall i :: i in IndicesOf(es, high) <==> 0 <= i < |es| && IsHigh(es[i]) == high
  {
    hide IsHigh;
    if es != [] {
      var n := |es| - 1;
      IndexMembers(es[..n], high);
      IndexAppended(IndicesOf(es[..n], high), n);
    }
  }

  lemma {:induction false} IndexCount(es: seq<Entry>)
    ensures |PriorityOf(es)| + |NormalOf(es)| == |es|
  {
    if es != [] {
      IndexCount(es[..|es| - 1]);
    }
  }

  lemma ListsMembers(es: seq<Entry>)
    ensures Increasing(PriorityOf(es)) && Increasing(NormalOf(es))
    ensures forall i :: i in PriorityOf(es) <==> 0 <= i < |es| && IsHigh(es[i])
    ensures forall i :: i in NormalOf(es) <==> 0 <= i < |es| && !IsHigh(es[i])
    ensures |PriorityOf(es)| + |NormalOf(es)| == |es|
  {
    IndexMembers(es, true);
    IndexMembers(es, false);
    IndexCount(es);
  }

  lemma IndexAppended(l: seq<nat>, n: nat)
    requires Increasing(l) && forall i :: i in l ==> i < n
    ensures Increasing(l + [n])
    ensures forall i :: i in l + [n] <==> i in l || i == n
  {
    assert forall k :: 0 <= k < |l| ==> l[k] in l;
  }

  method SplitIndices(es: seq<Entry>) returns (prio: seq<nat>, normal: seq<nat>)
    ensures prio == PriorityOf(es) && normal == NormalOf(es)
  {
    prio, normal := [], [];
    for n := 0 to |es|
      invariant prio == PriorityOf(es[..n]) && normal == NormalOf(es[..n])
    {
      assert es[..n + 1][..n] == es[..n];
      if IsHigh(es[n]) {
        prio := prio + [n];
      } else {
        normal := normal + [n];
      }
    }
    assert es[..|es|] == es;
  }

  lemma {:induction false} DistinctCount(idx: seq<nat>, s: set<nat>)
    requires Distinct(idx) && forall i :: i in idx <==> i in s
    ensures |idx| == |s|
  {
    if idx != [] {
      var p, x := idx[..|idx| - 1], idx[|idx| - 1];
      assert idx == p + [x];
      assert x in idx;
      forall i
        ensures i in p <==> i in s - {x}
      {
        if i in p {
          var k :| 0 <= k < |p| && p[k] == i;
          assert idx[k] == i && i in idx;
        }
        if i in s - {x} {
          assert i in idx;
        }
      }
      DistinctCount(p, s - {x});
    } else {
      assert s == {} by {
        forall i ensures i !in s {
          assert i !in idx;
        }
      }
    }
  }

  // What reservoirIndices keeps of a list of indices.
  lemma ReservoirKeeps(draw: Draw, idx: seq<nat>, k: nat, g: Sampler, res: seq<nat>)
    requires Increasing(idx)
    requires k == 0 ==> res == []
    requires |idx| <= k ==> res == idx
    requires 0 < k < |idx| ==> IsReservoir(draw, idx, k, g, res)
    ensures Distinct(res) && |res| == Min(k, |idx|)
    ensures forall x :: x in res ==> x in idx
    ensures k > 0 ==> forall n :: 0 <= n < |idx| ==> (idx[n] in res <==> Survives(draw, |idx|, k, g, n))
  {
    hide Untouched;
    if 0 < k < |idx| {
      ReservoirHolds(draw, idx, k, g, res);
    }
  }

  lemma KeptIsChosen(draw: Draw, g: Sampler, es: seq<Entry>, cap: nat, high: seq<nat>, low: seq<nat>, i: nat)
    requires i < |es| && cap > 0
    requires forall x :: x in high ==> x in PriorityOf(es)
    requires forall x :: x in low ==> x in NormalOf(es)
    requires forall n :: 0 <= n < |PriorityOf(es)| ==>
      (PriorityOf(es)[n] in high <==> Survives(draw, |PriorityOf(es)|, cap, g, n))
    requires |PriorityOf(es)| >= cap ==> low == []
    requires |PriorityOf(es)| < cap ==> forall n :: 0 <= n < |NormalOf(es)| ==>
      (NormalOf(es)[n] in low <==> Survives(draw, |NormalOf(es)|, cap - |PriorityOf(es)|, g, n))
    ensures i in high + low <==> Chosen(draw, g, es, cap, i)
  {
    hide Survives, PriorityOf, NormalOf;
  }

  // sampleOracleEntries.
  method SampleOracleEntries(draw: Draw, es: seq<Entry>, cap: nat, g: Sampler) returns (out: seq<Entry>)
    requires |es| > cap > 0
    ensures IsSample(draw, g, es, cap, out)
  {
    hide PriorityOf, NormalOf, Survives, IsReservoir, Chosen, HighIndices, SortedBy;
    var prio, normal := SplitIndices(es);
    ListsMembers(es);
    HighCounted(es);
    var keptHigh, g1 := ReservoirIndices(draw, prio, cap, g);
    ReservoirKeeps(draw, prio, cap, g, keptHigh);
    var keptLow, g2 := ReservoirIndices(draw, normal, cap - |keptHigh|, g1);
    ReservoirKeeps(draw, normal, cap - |keptHigh|, g1, keptLow);
    var unsorted := keptHigh + keptLow;
    assert Distinct(unsorted) by {
      assert forall k :: 0 <= k < |keptHigh| ==> keptHigh[k] in keptHigh;
      assert forall k :: 0 <= k < |keptLow| ==> keptLow[k] in keptLow;
    }
    var keep := Sort<nat>((a, b) => a < b, unsorted);
    SortedDistinct(unsorted, keep);
    out := [];
    for i := 0 to |keep|
      invariant |out| == i
      invariant forall k :: 0 <= k < i ==> keep[k] < |es| && out[k] == es[keep[k]]
    {
      assert keep[i] in unsorted;
      out := out + [es[keep[i]]];
    }
    forall i: nat | i < |es|
      ensures i in keep <==> Chosen(draw, g, es, cap, i)
    {
      KeptIsChosen(draw, g, es, cap, keptHigh, keptLow, i);
    }
    assert IsSampleBy(draw, g, es, cap, out, keep);
  }

  lemma HighCounted(es: seq<Entry>)
    ensures |HighIndices(es)| == |PriorityOf(es)|
    ensures forall i :: i in HighIndices(es) <==> i in PriorityOf(es)
  {
    ListsMembers(es);
    DistinctCount(PriorityOf(es), HighIndices(es));
  }

  lemma SortedDistinct(a: seq<nat>, b: seq<nat>)
    requires Distinct(a) && multiset(a) == multiset(b)
    requires SortedBy((x: nat, y: nat) => x < y, b)
    ensures |a| == |b| && Increasing(b)
    ensures forall x :: x in b <==> x in a
  {
    SameMembers(a, b);
    DistinctMultiset(a);
    forall i, j | 0 <= i < j < |b|
      ensures b[i] < b[j]
    {
      assert !(b[j] < b[i]);
      if b[i] == b[j] {
        RepeatedMember(b, i, j);
      }
    }
  }

  lemma {:induction false} DistinctMultiset(a: seq<nat>)
    requires Distinct(a)
    ensures forall x :: multiset(a)[x] <= 1
  {
    if a != [] {
      var p, x := a[..|a| - 1], a[|a| - 1];
      DistinctMultiset(p);
      assert a == p + [x];
      assert x !in p;
      assert x !in multiset(p);
    }
  }

  lemma RepeatedMember(b: seq<nat>, i: nat, j: nat)
    requires i < j < |b| && b[i] == b[j]
    ensures multiset(b)[b[i]] >= 2
  {
    assert b == b[..i] + [b[i]] + b[i + 1..j] + [b[j]] + b[j + 1..];
  }
}
