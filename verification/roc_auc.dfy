// The exact area under the ROC curve (encrypted_wire_lab.go): averaged tie
// ranks against counting, pair by pair, how often a hostile score wins.

module RocAuc {
  import opened Sorting

  datatype Scored = Scored(score: real, hostile: bool)

  function Total(f: Scored -> nat, s: seq<Scored>): nat {
    if s == [] then 0 else Total(f, s[..|s| - 1]) + f(s[|s| - 1])
  }

  // Twice what one pair is worth to its first score.
  function PairScore(a: real, b: real): nat {
    if a > b then 2 else if a == b then 1 else 0
  }

  function Labelled(l: bool): Scored -> nat { (x: Scored) => if x.hostile == l then 1 else 0 }
  function Against(a: real, l: bool): Scored -> nat {
    (y: Scored) => if y.hostile == l then PairScore(a, y.score) else 0
  }

  function Facing(b: real, l: bool): Scored -> nat {
    (x: Scored) => if x.hostile == l then PairScore(x.score, b) else 0
  }

  function AgainstAll(t: seq<Scored>, l: bool, m: bool): Scored -> nat {
    (x: Scored) => if x.hostile == l then Total(Against(x.score, m), t) else 0
  }

  function Count(s: seq<Scored>, l: bool): nat { Total(Labelled(l), s) }

  // The pair scores of the l-labelled of s against the m-labelled of t.
  function Pairs(s: seq<Scored>, t: seq<Scored>, l: bool, m: bool): nat { Total(AgainstAll(t, l, m), s) }

  // The reference definition: the share of (hostile, benign) pairs that the
  // hostile score wins, a tie counting for half; 0 when a class is empty.
  function Auc(s: seq<Scored>): real {
    if Count(s, true) == 0 || Count(s, false) == 0 then 0.0
    else Pairs(s, s, true, false) as real / (2 * Count(s, true) * Count(s, false)) as real
  }

  lemma TotalAppend(f: Scored -> nat, s: seq<Scored>, x: Scored)
    ensures Total(f, s + [x]) == Total(f, s) + f(x)
  {
    assert (s + [x])[..|s|] == s;
  }

  lemma {:induction false} TotalConcat(f: Scored -> nat, s: seq<Scored>, t: seq<Scored>)
    ensures Total(f, s + t) == Total(f, s) + Total(f, t)
  {
    if t == [] {
      assert s + t == s;
    } else {
      var n := |t| - 1;
      TotalConcat(f, s, t[..n]);
      TotalAppend(f, s + t[..n], t[n]);
      assert s + t == s + t[..n] + [t[n]];
    }
  }

  lemma TotalMiddle(f: Scored -> nat, a: seq<Scored>, x: Scored, b: seq<Scored>)
    ensures Total(f, a + [x] + b) == Total(f, a + b) + f(x)
  {
    hide Total;
    TotalConcat(f, a, b);
    TotalConcat(f, a + [x], b);
    TotalAppend(f, a, x);
  }

  lemma TakeOut(f: Scored -> nat, t: seq<Scored>, k: nat)
    requires k < |t|
    ensures Total(f, t) == Total(f, Without(t, k)) + f(t[k])
  {
    hide Total;
    TotalMiddle(f, t[..k], t[k], t[k + 1..]);
    SplitAt(t, k);
  }

  lemma {:induction false} TotalPermuted(f: Scored -> nat, s: seq<Scored>, t: seq<Scored>)
    requires multiset(s) == multiset(t)
    ensures Total(f, s) == Total(f, t)
    decreases |s|
  {
    SameMembers(s, t);
    if s != [] {
      hide Total, Without;
      var n := |s| - 1;
      var k := MatchMember(s, t, n);
      TakeOut(f, s, n);
      TakeOut(f, t, k);
      TotalPermuted(f, Without(s, n), Without(t, k));
    }
  }

  lemma {:induction false} TotalAgrees(f: Scored -> nat, g: Scored -> nat, s: seq<Scored>)
    requires forall x :: x in s ==> f(x) == g(x)
    ensures Total(f, s) == Total(g, s)
  {
    if s != [] {
      TotalAgrees(f, g, s[..|s| - 1]);
    }
  }

  lemma {:induction false} TotalIsZero(f: Scored -> nat, s: seq<Scored>)
    ensures Total(f, s) == 0 <==> forall x :: x in s ==> f(x) == 0
  {
    if s != [] {
      var n := |s| - 1;
      assert s == s[..n] + [s[n]];
      TotalIsZero(f, s[..n]);
    }
  }

  // Over all pairs of one score with the others, each pair is worth 2.
  lemma {:induction false} BothWays(a: real, t: seq<Scored>, m: bool)
    ensures Total(Against(a, m), t) + Total(Facing(a, m), t) == 2 * Count(t, m)
  {
    if t != [] {
      BothWays(a, t[..|t| - 1], m);
    }
  }

  // A column more: what one score of t is worth to all those of s.
  lemma {:induction false} PairsAppend(s: seq<Scored>, t: seq<Scored>, y: Scored, l: bool, m: bool)
    ensures Pairs(s, t + [y], l, m) == Pairs(s, t, l, m) + if y.hostile == m then Total(Facing(y.score, l), s) else 0
  {
    if s != [] {
      var n := |s| - 1;
      PairsAppend(s[..n], t, y, l, m);
      TotalAppend(Against(s[n].score, m), t, y);
    }
  }

  lemma {:induction false} NothingFaced(s: seq<Scored>, l: bool, m: bool)
    ensures Pairs(s, [], l, m) == 0
  {
    if s != [] {
      NothingFaced(s[..|s| - 1], l, m);
    }
  }

  lemma CountNext(p: nat, q: nat, b: bool)
    ensures 2 * (p + if b then 1 else 0) * q == 2 * p * q + if b then 2 * q else 0
  {
  }

  // Every pair is worth 2 in all, shared between its two sides.
  lemma {:induction false} PairsShared(s: seq<Scored>, t: seq<Scored>, l: bool, m: bool)
    ensures Pairs(s, t, l, m) + Pairs(t, s, m, l) == 2 * Count(s, l) * Count(t, m)
  {
    if s == [] {
      NothingFaced(t, m, l);
    } else {
      var n := |s| - 1;
      var x := s[n];
      PairsShared(s[..n], t, l, m);
      PairsAppend(t, s[..n], x, m, l);
      assert s[..n] + [x] == s;
      BothWays(x.score, t, m);
      CountNext(Count(s[..n], l), Count(t, m), x.hostile == l);
    }
  }

  lemma PairsPermuted(s: seq<Scored>, t: seq<Scored>, l: bool, m: bool)
    requires multiset(s) == multiset(t)
    ensures Pairs(s, s, l, m) == Pairs(t, t, l, m)
  {
    TotalPermuted(AgainstAll(s, l, m), s, t);
    forall x | x in t
      ensures AgainstAll(s, l, m)(x) == AgainstAll(t, l, m)(x)
    {
      TotalPermuted(Against(x.score, m), s, t);
    }
    TotalAgrees(AgainstAll(s, l, m), AgainstAll(t, l, m), t);
  }

  // Twice the averaged rank of a tie: what it scores against everyone, and 1.
  predicate Tie(p: seq<Scored>, lo: nat, hi: nat) {
    && lo < hi <= |p|
    && (forall i :: 0 <= i < lo ==> p[i].score < p[lo].score)
    && (forall i :: lo <= i < hi ==> p[i].score == p[lo].score)
    && (forall i :: hi <= i < |p| ==> p[i].score > p[lo].score)
  }

  lemma {:induction false} TieRank(p: seq<Scored>, lo: nat, hi: nat, n: nat)
    requires Tie(p, lo, hi) && n <= |p|
    ensures Total(Against(p[lo].score, true), p[..n]) + Total(Against(p[lo].score, false), p[..n]) ==
      if n <= lo then 2 * n else if n <= hi then lo + n else lo + hi
  {
    if n > 0 {
      TieRank(p, lo, hi, n - 1);
      assert p[..n][..n - 1] == p[..n - 1];
    }
  }

  // Twice the ranks of the hostile among the first n of p.
  function DoubleRanks(p: seq<Scored>, n: nat): nat
    requires n <= |p|
  {
    Pairs(p[..n], p, true, true) + Pairs(p[..n], p, true, false) + Count(p[..n], true)
  }

  lemma RankAdded(p: seq<Scored>, lo: nat, hi: nat, n: nat)
    requires Tie(p, lo, hi) && lo <= n < hi
    ensures DoubleRanks(p, n + 1) == DoubleRanks(p, n) + if p[n].hostile then lo + 1 + hi else 0
  {
    TieRank(p, lo, hi, |p|);
    assert p[..|p|] == p && p[..n + 1] == p[..n] + [p[n]];
    TotalAppend(AgainstAll(p, true, true), p[..n], p[n]);
    TotalAppend(AgainstAll(p, true, false), p[..n], p[n]);
    TotalAppend(Labelled(true), p[..n], p[n]);
  }

  // The rank sum gives the pair count of hostile against benign.
  lemma RankSumIsPairCount(p: seq<Scored>)
    ensures DoubleRanks(p, |p|) == Pairs(p, p, true, false) + Count(p, true) * (Count(p, true) + 1)
  {
    assert p[..|p|] == p;
    PairsShared(p, p, true, true);
    Expand(Count(p, true));
  }

  lemma Expand(n: nat)
    ensures n * (n + 1) == n * n + n
    ensures 2 * n * n == 2 * (n * n)
  {
  }

  lemma StatisticU(sum: real, p: nat, n: nat, pairs: nat)
    requires p > 0 && n > 0 && 2.0 * sum == (pairs + p * (p + 1)) as real
    ensures (p as real) * (n as real) > 0.0
    ensures (sum - (p as real) * ((p + 1) as real) / 2.0) / ((p as real) * (n as real)) ==
      pairs as real / (2 * p * n) as real
  {
    var d := (p as real) * (n as real);
    assert d == (p * n) as real && p * n > 0;
    assert (p as real) * ((p + 1) as real) == (p * (p + 1)) as real;
    var u := sum - (p as real) * ((p + 1) as real) / 2.0;
    assert 2.0 * u == pairs as real;
    assert (2 * p * n) as real == 2.0 * d;
    assert u / d == (2.0 * u) / (2.0 * d);
  }

  predicate ScoreLess(a: Scored, b: Scored) { a.score < b.score }

  lemma ScoreOrderIsStrict()
    ensures StrictWeakOrder(ScoreLess)
  {
  }

  function Zip(scores: seq<real>, hostiles: seq<bool>): (s: seq<Scored>)
    requires |scores| == |hostiles|
    ensures |s| == |scores|
    ensures forall i :: 0 <= i < |s| ==> s[i].score == scores[i] && (s[i].hostile <==> hostiles[i])
  {
    seq(|scores|, i requires 0 <= i < |scores| => Scored(scores[i], hostiles[i]))
  }

  method ExactROCAUC(scores: seq<real>, hostiles: seq<bool>) returns (r: real)
    ensures |scores| != |hostiles| ==> r == 0.0
    ensures |scores| == |hostiles| ==> r == Auc(Zip(scores, hostiles))
  {
    hide Auc, Pairs, Count, DoubleRanks, SortedBy, ScoreLess, Total, Zip, Tie;
    if |scores| != |hostiles| || |scores| == 0 {
      EmptyAuc();
      return 0.0;
    }
    ghost var zipped := Zip(scores, hostiles);
    var paires, positifs := ReadPairs(scores, hostiles);
    var negatifs := |scores| - positifs;
    CountBoth(zipped);
    AucOf(zipped);
    if positifs == 0 || negatifs == 0 {
      return 0.0;
    }
    ScoreOrderIsStrict();
    var p := Sort(ScoreLess, paires);
    SameSums(paires, p);
    var somme := RankSum(p);
    RankSumIsPairCount(p);
    StatisticU(somme, positifs, negatifs, Pairs(zipped, zipped, true, false));
    var u := somme - (positifs as real) * ((positifs + 1) as real) / 2.0;
    return u / ((positifs as real) * (negatifs as real));
  }

  lemma EmptyAuc()
    ensures forall scores: seq<real>, hostiles: seq<bool> :: |scores| == |hostiles| == 0 ==>
      Auc(Zip(scores, hostiles)) == 0.0
  {
  }

  lemma AucOf(s: seq<Scored>)
    ensures Count(s, true) == 0 || Count(s, false) == 0 ==> Auc(s) == 0.0
    ensures Count(s, true) > 0 && Count(s, false) > 0 ==>
      Auc(s) == Pairs(s, s, true, false) as real / (2 * Count(s, true) * Count(s, false)) as real
  {
  }

  lemma {:induction false} CountBoth(s: seq<Scored>)
    ensures Count(s, true) + Count(s, false) == |s|
  {
    if s != [] {
      CountBoth(s[..|s| - 1]);
    }
  }

  lemma SameSums(s: seq<Scored>, t: seq<Scored>)
    requires multiset(s) == multiset(t)
    ensures |s| == |t| && Count(s, true) == Count(t, true) && Count(s, false) == Count(t, false)
    ensures Pairs(s, s, true, false) == Pairs(t, t, true, false)
  {
    SameMembers(s, t);
    TotalPermuted(Labelled(true), s, t);
    TotalPermuted(Labelled(false), s, t);
    PairsPermuted(s, t, true, false);
  }

  method ReadPairs(scores: seq<real>, hostiles: seq<bool>) returns (paires: seq<Scored>, positifs: nat)
    requires |scores| == |hostiles|
    ensures paires == Zip(scores, hostiles) && positifs == Count(paires, true)
  {
    paires, positifs := [], 0;
    for i := 0 to |scores|
      invariant paires == Zip(scores, hostiles)[..i] && positifs == Count(paires, true)
    {
      TotalAppend(Labelled(true), paires, Scored(scores[i], hostiles[i]));
      paires := paires + [Scored(scores[i], hostiles[i])];
      if hostiles[i] {
        positifs := positifs + 1;
      }
    }
  }

  // The end of the tie that starts at debut.
  method TieEnd(p: seq<Scored>, debut: nat) returns (fin: nat)
    requires SortedBy(ScoreLess, p) && debut < |p|
    requires forall i, j :: 0 <= i < debut <= j < |p| ==> p[i].score < p[j].score
    ensures Tie(p, debut, fin)
    ensures forall i, j :: 0 <= i < fin <= j < |p| ==> p[i].score < p[j].score
  {
    fin := debut + 1;
    while fin < |p| && p[fin].score == p[debut].score
      invariant debut < fin <= |p|
      invariant forall i :: debut <= i < fin ==> p[i].score == p[debut].score
    {
      fin := fin + 1;
    }
    forall j | fin <= j < |p|
      ensures p[j].score > p[debut].score
    {
      assert !ScoreLess(p[fin], p[debut]);
      assert j == fin || !ScoreLess(p[j], p[fin]);
    }
  }

  method RankSum(p: seq<Scored>) returns (somme: real)
    requires SortedBy(ScoreLess, p)
    ensures 2.0 * somme == DoubleRanks(p, |p|) as real
  {
    hide DoubleRanks, SortedBy, Tie;
    somme := 0.0;
    var debut := 0;
    NoRanks(p);
    while debut < |p|
      invariant debut <= |p|
      invariant forall i, j :: 0 <= i < debut <= j < |p| ==> p[i].score < p[j].score
      invariant 2.0 * somme == DoubleRanks(p, debut) as real
    {
      var fin := TieEnd(p, debut);
      TieRange(p, debut, fin);
      var rangMoyen := (debut + 1 + fin) as real / 2.0;
      for position := debut to fin
        invariant 2.0 * somme == DoubleRanks(p, position) as real
      {
        RankAdded(p, debut, fin, position);
        if p[position].hostile {
          somme := somme + rangMoyen;
        }
      }
      debut := fin;
    }
  }

  lemma NoRanks(p: seq<Scored>)
    ensures DoubleRanks(p, 0) == 0
  {
  }

  lemma TieRange(p: seq<Scored>, lo: nat, hi: nat)
    requires Tie(p, lo, hi)
    ensures lo < hi <= |p|
  {
  }

  // What the area promises.

  lemma AucPermuted(s: seq<Scored>, t: seq<Scored>)
    requires multiset(s) == multiset(t)
    ensures Auc(s) == Auc(t)
  {
    SameSums(s, t);
  }

  lemma Positive(p: nat, n: nat)
    ensures p > 0 && n > 0 ==> 2 * p * n > 0
  {
  }

  lemma SameDenominator(x: real, y: real, z: real)
    requires z > 0.0
    ensures x / z + y / z == (x + y) / z
    ensures z / z == 1.0
  {
  }

  lemma Ratio(a: nat, b: nat, d: nat)
    requires a + b == d && d > 0
    ensures 0.0 <= a as real / d as real <= 1.0
    ensures b as real / d as real == 1.0 - a as real / d as real
    ensures a as real / d as real == 1.0 <==> b == 0
  {
    var x, y, z := a as real, b as real, d as real;
    assert x + y == z;
    SameDenominator(x, y, z);
    assert x / z >= 0.0 && y / z >= 0.0;
    assert y / z == 0.0 <==> y == 0.0;
  }

  lemma AucInUnit(s: seq<Scored>)
    ensures 0.0 <= Auc(s) <= 1.0
  {
    hide Pairs, Count;
    var p, n := Count(s, true), Count(s, false);
    if p > 0 && n > 0 {
      Positive(p, n);
      PairsShared(s, s, true, false);
      Ratio(Pairs(s, s, true, false), Pairs(s, s, false, true), 2 * p * n);
    }
  }

  function Flipped(s: seq<Scored>): seq<Scored> {
    seq(|s|, i requires 0 <= i < |s| => Scored(s[i].score, !s[i].hostile))
  }

  lemma {:induction false} TotalFlipped(f: Scored -> nat, g: Scored -> nat, s: seq<Scored>)
    requires forall x: Scored :: f(Scored(x.score, !x.hostile)) == g(x)
    ensures Total(f, Flipped(s)) == Total(g, s)
  {
    if s != [] {
      var n := |s| - 1;
      TotalFlipped(f, g, s[..n]);
      assert Flipped(s)[..n] == Flipped(s[..n]);
      assert Flipped(s)[n] == Scored(s[n].score, !s[n].hostile);
    }
  }

  lemma FlippedSums(s: seq<Scored>, l: bool, m: bool)
    ensures Count(Flipped(s), l) == Count(s, !l)
    ensures Pairs(Flipped(s), Flipped(s), l, m) == Pairs(s, s, !l, !m)
  {
    TotalFlipped(Labelled(l), Labelled(!l), s);
    forall x: Scored
      ensures AgainstAll(Flipped(s), l, m)(Scored(x.score, !x.hostile)) == AgainstAll(s, !l, !m)(x)
    {
      TotalFlipped(Against(x.score, m), Against(x.score, !m), s);
    }
    TotalFlipped(AgainstAll(Flipped(s), l, m), AgainstAll(s, !l, !m), s);
  }

  // Calling the hostile benign and conversely gives the complement.
  lemma AucFlipped(s: seq<Scored>)
    requires Count(s, true) > 0 && Count(s, false) > 0
    ensures Auc(Flipped(s)) == 1.0 - Auc(s)
  {
    hide Pairs, Count;
    FlippedSums(s, true, false);
    FlippedSums(s, false, true);
    PairsShared(s, s, true, false);
    var p, n := Count(s, true), Count(s, false);
    Positive(p, n);
    Ratio(Pairs(s, s, true, false), Pairs(s, s, false, true), 2 * p * n);
    assert 2 * n * p == 2 * p * n;
  }

  // The area is 1 exactly when every hostile score beats every benign one.
  lemma AucIsOne(s: seq<Scored>)
    requires Count(s, true) > 0 && Count(s, false) > 0
    ensures Auc(s) == 1.0 <==>
      forall x: Scored, y: Scored :: x in s && y in s && x.hostile && !y.hostile ==> x.score > y.score
  {
    hide Count;
    PairsShared(s, s, true, false);
    var p, n := Count(s, true), Count(s, false);
    Positive(p, n);
    Ratio(Pairs(s, s, true, false), Pairs(s, s, false, true), 2 * p * n);
    TotalIsZero(AgainstAll(s, false, true), s);
    forall y | y in s && !y.hostile
      ensures AgainstAll(s, false, true)(y) == 0 <==> forall x: Scored :: x in s && x.hostile ==> x.score > y.score
    {
      TotalIsZero(Against(y.score, true), s);
      assert forall x: Scored :: x in s ==> (Against(y.score, true)(x) == 0 <==> (x.hostile ==> x.score > y.score));
    }
  }

  function Rescored(g: real -> real, s: seq<Scored>): seq<Scored> {
    seq(|s|, i requires 0 <= i < |s| => Scored(g(s[i].score), s[i].hostile))
  }

  lemma {:induction false} TotalRescored(g: real -> real, f: Scored -> nat, h: Scored -> nat, s: seq<Scored>)
    requires forall x: Scored :: f(Scored(g(x.score), x.hostile)) == h(x)
    ensures Total(f, Rescored(g, s)) == Total(h, s)
  {
    if s != [] {
      var n := |s| - 1;
      TotalRescored(g, f, h, s[..n]);
      assert Rescored(g, s)[..n] == Rescored(g, s[..n]);
      assert Rescored(g, s)[n] == Scored(g(s[n].score), s[n].hostile);
    }
  }

  // Only the order of the scores matters.
  lemma AucOfOrder(g: real -> real, s: seq<Scored>)
    requires forall a, b :: a < b ==> g(a) < g(b)
    ensures Auc(Rescored(g, s)) == Auc(s)
  {
    TotalRescored(g, Labelled(true), Labelled(true), s);
    TotalRescored(g, Labelled(false), Labelled(false), s);
    var t := Rescored(g, s);
    forall x: Scored
      ensures AgainstAll(t, true, false)(Scored(g(x.score), x.hostile)) == AgainstAll(s, true, false)(x)
    {
      forall y: Scored
        ensures Against(g(x.score), false)(Scored(g(y.score), y.hostile)) == Against(x.score, false)(y)
      {
        assert x.score < y.score || x.score == y.score || y.score < x.score;
      }
      TotalRescored(g, Against(g(x.score), false), Against(x.score, false), s);
    }
    TotalRescored(g, AgainstAll(t, true, false), AgainstAll(s, true, false), s);
  }
}
