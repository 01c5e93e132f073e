// How simultaneous the conversations of one host are
// (encrypted_wire_hote.go): the permille of active 100 ms slices in which at
// least two resolver targets are active, read off one sorted list.

module HostSynchrony {
  import opened Numbers
  import opened Wrappers
  import opened Bytes
  import opened Sorting

  datatype Target = Target(serveur: seq<byte>, port: nat)

  // The slices in which one conversation was active.
  datatype Slices = Slices(cible: Target, tranches: seq<nat>)

  datatype Activity = Activity(tranche: nat, cible: Target)

  predicate TargetLess(a: Target, b: Target) {
    LexLess(a.serveur, b.serveur) || (a.serveur == b.serveur && a.port < b.port)
  }

  predicate ActivityLess(a: Activity, b: Activity) {
    a.tranche < b.tranche || (a.tranche == b.tranche && TargetLess(a.cible, b.cible))
  }

  lemma ActivityOrder(a: Activity, b: Activity, c: Activity)
    ensures !(ActivityLess(a, b) && ActivityLess(b, a))
    ensures a == b || ActivityLess(a, b) || ActivityLess(b, a)
    ensures ActivityLess(a, b) && ActivityLess(b, c) ==> ActivityLess(a, c)
  {
    LexOrder(a.cible.serveur, b.cible.serveur, c.cible.serveur);
    LexOrder(b.cible.serveur, a.cible.serveur, c.cible.serveur);
  }

  lemma ActivityOrderIsStrict()
    ensures StrictWeakOrder(ActivityLess)
  {
    forall a, b ensures !(ActivityLess(a, b) && ActivityLess(b, a)) {
      ActivityOrder(a, b, a);
    }
    forall a, b, c | ActivityLess(a, b) && !ActivityLess(c, b)
      ensures ActivityLess(a, c)
    {
      ActivityOrder(a, c, b);
      ActivityOrder(c, a, b);
    }
  }

  const SLICE_NS: nat := 100000000
  const MAX_SLICES: nat := 256

  function SliceOf(instant: nat): (t: nat)
    ensures t * 100_000_000 <= instant < (t + 1) * 100_000_000
  {
    instant / SLICE_NS
  }

  // enregistrerTrancheSynchronie: the slice of an instant, unless it is the
  // last one recorded or there is no more room.
  function Record(tranches: seq<nat>, t: nat): seq<nat> {
    if tranches != [] && tranches[|tranches| - 1] == t then tranches
    else if |tranches| < MAX_SLICES then tranches + [t]
    else tranches
  }

  function Recorded(instants: seq<nat>): seq<nat> {
    if instants == [] then [] else Record(Recorded(instants[..|instants| - 1]), SliceOf(instants[|instants| - 1]))
  }

  predicate Increasing(s: seq<nat>) { forall i, j :: 0 <= i < j < |s| ==> s[i] < s[j] }

  // r holds slices of the instants, each once and in order: all of them, or
  // the first 256.
  predicate RecordsSlices(instants: seq<nat>, r: seq<nat>) {
    && Increasing(r) && |r| <= MAX_SLICES
    && (forall k :: 0 <= k < |r| ==> exists i :: 0 <= i < |instants| && SliceOf(instants[i]) == r[k])
    && forall i :: 0 <= i < |instants| ==> Accounted(r, SliceOf(instants[i]))
  }

  predicate Accounted(r: seq<nat>, t: nat) { t in r || (|r| == MAX_SLICES && r[MAX_SLICES - 1] < t) }

  // What is recorded under a clock that does not go back.
  lemma {:induction false} RecordedSlices(instants: seq<nat>)
    requires forall i, j :: 0 <= i < j < |instants| ==> instants[i] <= instants[j]
    ensures RecordsSlices(instants, Recorded(instants))
  {
    if instants != [] {
      var p, last := instants[..|instants| - 1], instants[|instants| - 1];
      RecordedSlices(p);
      RecordNext(p, Recorded(p), last);
      assert instants == p + [last];
    }
  }

  lemma SlicesInOrder(a: nat, b: nat)
    ensures a <= b ==> SliceOf(a) <= SliceOf(b)
  {
  }

  lemma RecordNext(p: seq<nat>, r: seq<nat>, last: nat)
    requires RecordsSlices(p, r) && forall i :: 0 <= i < |p| ==> p[i] <= last
    ensures RecordsSlices(p + [last], Record(r, SliceOf(last)))
  {
    var q, t := p + [last], SliceOf(last);
    var s := Record(r, t);
    if r != [] {
      var i :| 0 <= i < |p| && SliceOf(p[i]) == r[|r| - 1];
      SlicesInOrder(p[i], last);
    }
    hide SliceOf;
    assert q[|p|] == last;
    assert Accounted(s, t);
    forall k | 0 <= k < |s|
      ensures exists i :: 0 <= i < |q| && SliceOf(q[i]) == s[k]
    {
      if k < |r| {
        var i :| 0 <= i < |p| && SliceOf(p[i]) == r[k];
        assert q[i] == p[i];
      } else {
        assert SliceOf(q[|p|]) == s[k];
      }
    }
    forall i | 0 <= i < |q|
      ensures Accounted(s, SliceOf(q[i]))
    {
      if i < |p| {
        assert Accounted(r, SliceOf(p[i]));
      }
    }
  }

  method EnregistrerTranche(tranches: seq<nat>, instant: nat) returns (r: seq<nat>)
    ensures r == Record(tranches, SliceOf(instant))
  {
    r := tranches;
    var t := SliceOf(instant);
    if |r| > 0 && r[|r| - 1] == t {
      return;
    }
    if |r| < MAX_SLICES {
      r := r + [t];
    }
  }

  // The slices in which some conversation was active.
  function ActiveSlices(amas: seq<Slices>): set<nat> {
    set k, t | 0 <= k < |amas| && t in amas[k].tranches && ActiveIn(amas, k, t) :: t
  }

  predicate ActiveIn(amas: seq<Slices>, k: nat, t: nat) { k < |amas| && t in amas[k].tranches }

  function TargetsAt(amas: seq<Slices>, t: nat): set<Target> {
    set k | 0 <= k < |amas| && ActiveIn(amas, k, t) :: amas[k].cible
  }

  function CoactiveSlices(amas: seq<Slices>): set<nat> {
    set t | t in ActiveSlices(amas) && |TargetsAt(amas, t)| >= 2
  }

  // What the synchrony of a cluster means, whatever the order of its members.
  function Synchrony(amas: seq<Slices>): (r: Option<nat>)
  {
    if ActiveSlices(amas) == {} then None
    else Some(|CoactiveSlices(amas)| * 1000 / |ActiveSlices(amas)|)
  }

  lemma SynchronyIsPermille(amas: seq<Slices>)
    ensures Synchrony(amas).None? <==> forall k :: 0 <= k < |amas| ==> amas[k].tranches == []
    ensures Synchrony(amas).Some? ==> Synchrony(amas).value <= 1000
    ensures Synchrony(amas).Some? ==>
      var all, both := |ActiveSlices(amas)|, |CoactiveSlices(amas)|;
      Synchrony(amas).value * all <= 1000 * both < (Synchrony(amas).value + 1) * all
    ensures Synchrony(amas) == Some(1000) <==>
      ActiveSlices(amas) != {} && forall t :: t in ActiveSlices(amas) ==> |TargetsAt(amas, t)| >= 2
  {
    NothingActive(amas);
    CoactiveShare(amas);
    hide ActiveSlices, CoactiveSlices, TargetsAt;
    var all, both := ActiveSlices(amas), CoactiveSlices(amas);
    if all != {} {
      Permille(|both|, |all|);
    }
  }

  lemma NothingActive(amas: seq<Slices>)
    ensures ActiveSlices(amas) == {} <==> forall k :: 0 <= k < |amas| ==> amas[k].tranches == []
  {
    forall k | 0 <= k < |amas| && amas[k].tranches != []
      ensures amas[k].tranches[0] in ActiveSlices(amas)
    {
      assert ActiveIn(amas, k, amas[k].tranches[0]);
    }
  }

  lemma CoactiveShare(amas: seq<Slices>)
    ensures ActiveSlices(amas) != {} ==> |ActiveSlices(amas)| > 0
    ensures |CoactiveSlices(amas)| <= |ActiveSlices(amas)|
    ensures |CoactiveSlices(amas)| == |ActiveSlices(amas)| <==>
      forall t :: t in ActiveSlices(amas) ==> |TargetsAt(amas, t)| >= 2
  {
    var all, both := ActiveSlices(amas), CoactiveSlices(amas);
    SubsetSize(both, all);
    SubsetSize({}, all);
    hide ActiveSlices, TargetsAt;
    assert both == all <==> forall t :: t in all ==> |TargetsAt(amas, t)| >= 2;
  }

  lemma Permille(a: nat, b: nat)
    requires a <= b && b > 0
    ensures a * 1000 / b <= 1000
    ensures a * 1000 / b == 1000 <==> a == b
  {
    var q := a * 1000 / b;
    QuotientUnique(a * 1000, b, q);
    MulLe(1001, q, b);
    MulLe(q + 1, 1000, b);
  }

  // The same two questions asked of a list of activities.
  function SlicesIn(s: seq<Activity>): set<nat> { set x | x in s :: x.tranche }

  function TargetsIn(s: seq<Activity>, t: nat): set<Target> { set x | x in s && x.tranche == t :: x.cible }

  function CoactiveIn(all: seq<Activity>, s: seq<Activity>): set<nat> {
    set x | x in s && |TargetsIn(all, x.tranche)| >= 2 :: x.tranche
  }

  ghost predicate Lists(s: seq<Activity>, amas: seq<Slices>) {
    forall x :: x in s <==> exists k :: 0 <= k < |amas| && x.cible == amas[k].cible && x.tranche in amas[k].tranches
  }

  lemma ListedSlices(s: seq<Activity>, amas: seq<Slices>)
    requires Lists(s, amas)
    ensures SlicesIn(s) == ActiveSlices(amas)
    ensures forall t :: TargetsIn(s, t) == TargetsAt(amas, t)
    ensures CoactiveIn(s, s) == CoactiveSlices(amas)
  {
    forall k, t | 0 <= k < |amas| && t in amas[k].tranches
      ensures Activity(t, amas[k].cible) in s
    {
    }
    assert ActiveSlices(amas) <= SlicesIn(s) by {
      forall t | t in ActiveSlices(amas) ensures t in SlicesIn(s) {
        var k :| 0 <= k < |amas| && t in amas[k].tranches;
        assert Activity(t, amas[k].cible) in s;
      }
    }
    forall t ensures TargetsIn(s, t) == TargetsAt(amas, t) {
      forall c | c in TargetsAt(amas, t) ensures c in TargetsIn(s, t) {
        assert Activity(t, c) in s;
      }
    }
    forall t | t in CoactiveSlices(amas) ensures t in CoactiveIn(s, s) {
      assert t in SlicesIn(s);
    }
    hide Lists;
    assert CoactiveIn(s, s) <= CoactiveSlices(amas);
  }

  // The activities of every conversation, one after the other.
  method ListActivities(amas: seq<Slices>) returns (s: seq<Activity>)
    ensures Lists(s, amas)
  {
    s := [];
    for k := 0 to |amas|
      invariant Lists(s, amas[..k])
    {
      ghost var before := s;
      var suivi := amas[k];
      for i := 0 to |suivi.tranches|
        invariant forall x :: x in s <==> x in before || (x.cible == suivi.cible && x.tranche in suivi.tranches[..i])
      {
        assert suivi.tranches[..i + 1] == suivi.tranches[..i] + [suivi.tranches[i]];
        s := s + [Activity(suivi.tranches[i], suivi.cible)];
      }
      assert suivi.tranches[..|suivi.tranches|] == suivi.tranches;
      ListsOneMore(before, s, amas, k);
    }
    assert amas[..|amas|] == amas;
  }

  lemma ListsOneMore(before: seq<Activity>, s: seq<Activity>, amas: seq<Slices>, k: nat)
    requires k < |amas| && Lists(before, amas[..k])
    requires forall x :: x in s <==> x in before || (x.cible == amas[k].cible && x.tranche in amas[k].tranches)
    ensures Lists(s, amas[..k + 1])
  {
    var a, b := amas[..k], amas[..k + 1];
    assert b == a + [amas[k]];
    forall x
      ensures x in s <==> exists i :: 0 <= i < |b| && x.cible == b[i].cible && x.tranche in b[i].tranches
    {
      if x in before {
        var i :| 0 <= i < |a| && x.cible == a[i].cible && x.tranche in a[i].tranches;
        assert b[i] == a[i];
      } else if x in s {
        assert b[k] == amas[k];
      }
      if i :| 0 <= i < |b| && x.cible == b[i].cible && x.tranche in b[i].tranches {
        assert i < k ==> a[i] == b[i];
      }
    }
  }

  // In sorted order, the slice that starts at lo stops at hi.
  predicate Block(s: seq<Activity>, lo: nat, hi: nat) {
    && lo < hi <= |s|
    && (forall i :: lo <= i < hi ==> s[i].tranche == s[lo].tranche)
    && (forall i, j :: 0 <= i < lo <= j < |s| ==> s[i].tranche < s[j].tranche)
    && (forall i, j :: 0 <= i < hi <= j < |s| ==> s[i].tranche < s[j].tranche)
  }

  function TargetsBetween(s: seq<Activity>, lo: nat, hi: nat): set<Target>
    requires hi <= |s|
  {
    set i | lo <= i < hi :: s[i].cible
  }

  lemma BlockTargets(s: seq<Activity>, lo: nat, hi: nat)
    requires Block(s, lo, hi)
    ensures TargetsIn(s, s[lo].tranche) == TargetsBetween(s, lo, hi)
  {
    var t := s[lo].tranche;
    forall c | c in TargetsIn(s, t) ensures c in TargetsBetween(s, lo, hi) {
      var x :| x in s && x.tranche == t && x.cible == c;
      var i :| 0 <= i < |s| && s[i] == x;
      assert lo <= i < hi;
    }
    forall c | c in TargetsBetween(s, lo, hi) ensures c in TargetsIn(s, t) {
      var i :| lo <= i < hi && s[i].cible == c;
      assert s[i] in s && s[i].tranche == t;
    }
  }

  lemma UpToBlock(s: seq<Activity>, lo: nat, hi: nat)
    requires Block(s, lo, hi)
    ensures forall x :: x in s[..lo] ==> x in s[..hi] && x.tranche < s[lo].tranche
    ensures forall x :: x in s[..hi] ==> x in s[..lo] || x.tranche == s[lo].tranche
    ensures s[lo] in s[..hi]
  {
    assert s[..hi] == s[..lo] + s[lo..hi];
    assert s[..hi][lo] == s[lo];
  }

  lemma BlockCounts(s: seq<Activity>, lo: nat, hi: nat)
    requires Block(s, lo, hi)
    ensures |SlicesIn(s[..hi])| == |SlicesIn(s[..lo])| + 1
    ensures |CoactiveIn(s, s[..hi])| ==
      |CoactiveIn(s, s[..lo])| + if |TargetsBetween(s, lo, hi)| >= 2 then 1 else 0
  {
    var t := s[lo].tranche;
    UpToBlock(s, lo, hi);
    BlockTargets(s, lo, hi);
    hide Block, TargetsIn, TargetsBetween;
    assert SlicesIn(s[..hi]) == SlicesIn(s[..lo]) + {t};
    assert t !in SlicesIn(s[..lo]);
    assert t !in CoactiveIn(s, s[..lo]);
    assert CoactiveIn(s, s[..hi]) ==
      CoactiveIn(s, s[..lo]) + if |TargetsBetween(s, lo, hi)| >= 2 then {t} else {};
  }

  // One more activity of the block adds a target exactly when it differs
  // from the one just before.
  lemma NextTarget(s: seq<Activity>, lo: nat, fin: nat)
    requires SortedBy(ActivityLess, s)
    requires lo < fin < |s| && forall i :: lo <= i <= fin ==> s[i].tranche == s[lo].tranche
    ensures |TargetsBetween(s, lo, fin + 1)| ==
      |TargetsBetween(s, lo, fin)| + if s[fin].cible != s[fin - 1].cible then 1 else 0
  {
    hide ActivityLess;
    var before := TargetsBetween(s, lo, fin);
    assert s[fin - 1].cible in before;
    forall i | lo <= i < fin
      ensures s[fin].cible != s[fin - 1].cible ==> s[i].cible != s[fin].cible
    {
      assert i < fin - 1 ==> !ActivityLess(s[fin - 1], s[i]);
      assert !ActivityLess(s[fin], s[fin - 1]);
      BetweenDiffers(s[i], s[fin - 1], s[fin]);
    }
    if s[fin].cible != s[fin - 1].cible {
      assert s[fin].cible !in before;
    } else {
      assert before + {s[fin].cible} == before;
    }
    assert TargetsBetween(s, lo, fin + 1) == before + {s[fin].cible};
  }

  // In order, a target that comes back has not been left in between.
  lemma BetweenDiffers(a: Activity, b: Activity, c: Activity)
    requires a.tranche == b.tranche == c.tranche && (a == b || !ActivityLess(b, a)) && !ActivityLess(c, b)
    ensures c.cible != b.cible ==> a.cible != c.cible
  {
    hide TargetLess;
    ActivityOrder(a, b, c);
    ActivityOrder(b, c, a);
  }

  lemma LaterSlices(s: seq<Activity>, lo: nat, fin: nat)
    requires SortedBy(ActivityLess, s)
    requires lo < fin <= |s| && forall i :: lo <= i < fin ==> s[i].tranche == s[lo].tranche
    requires fin < |s| ==> s[fin].tranche != s[lo].tranche
    requires forall i, j :: 0 <= i < lo <= j < |s| ==> s[i].tranche < s[j].tranche
    ensures Block(s, lo, fin)
  {
    forall i, j | 0 <= i < fin <= j < |s|
      ensures s[i].tranche < s[j].tranche
    {
      assert !ActivityLess(s[fin], s[lo]);
      assert fin == j || !ActivityLess(s[j], s[fin]);
    }
  }

  // The slice that starts at debut: where it stops, and how many targets are
  // active in it.
  method ReadSlice(s: seq<Activity>, debut: nat) returns (fin: nat, cibles: nat)
    requires SortedBy(ActivityLess, s) && debut < |s|
    requires forall i, j :: 0 <= i < debut <= j < |s| ==> s[i].tranche < s[j].tranche
    ensures Block(s, debut, fin) && cibles == |TargetsBetween(s, debut, fin)|
  {
    hide SortedBy, TargetsBetween, Block;
    var tranche, derniere := s[debut].tranche, s[debut].cible;
    cibles, fin := 1, debut + 1;
    FirstTarget(s, debut);
    while fin < |s| && s[fin].tranche == tranche
      invariant debut < fin <= |s|
      invariant forall i :: debut <= i < fin ==> s[i].tranche == tranche
      invariant derniere == s[fin - 1].cible
      invariant cibles == |TargetsBetween(s, debut, fin)|
    {
      NextTarget(s, debut, fin);
      if s[fin].cible != derniere {
        cibles := cibles + 1;
        derniere := s[fin].cible;
      }
      fin := fin + 1;
    }
    LaterSlices(s, debut, fin);
  }

  // calculerSynchronieAmas.
  method CalculerSynchronieAmas(amas: seq<Slices>) returns (r: Option<nat>)
    ensures r == Synchrony(amas)
  {
    hide SortedBy, SlicesIn, CoactiveIn, ActiveSlices, CoactiveSlices, TargetsBetween, TargetsIn, TargetsAt;
    hide Lists, Block;
    var activites := ListActivities(amas);
    ListedSlices(activites, amas);
    NothingListed(activites);
    if |activites| == 0 {
      assert activites == activites[..0];
      return None;
    }
    ActivityOrderIsStrict();
    var s := Sort(ActivityLess, activites);
    SameMembers(activites, s);
    ListsPermuted(activites, s, amas);
    ListedSlices(s, amas);
    NothingListed(s);
    var tranches, coactives, debut := 0, 0, 0;
    while debut < |s|
      invariant debut <= |s|
      invariant forall i, j :: 0 <= i < debut <= j < |s| ==> s[i].tranche < s[j].tranche
      invariant tranches == |SlicesIn(s[..debut])| && coactives == |CoactiveIn(s, s[..debut])|
      invariant debut > 0 ==> tranches > 0
    {
      var fin, cibles := ReadSlice(s, debut);
      BlockCounts(s, debut, fin);
      BlockGap(s, debut, fin);
      tranches := tranches + 1;
      if cibles >= 2 {
        coactives := coactives + 1;
      }
      debut := fin;
    }
    assert s[..|s|] == s;
    return Some(coactives * 1000 / tranches);
  }

  lemma NothingListed(s: seq<Activity>)
    ensures SlicesIn(s[..0]) == {} && CoactiveIn(s, s[..0]) == {}
  {
  }

  lemma FirstTarget(s: seq<Activity>, lo: nat)
    requires lo < |s|
    ensures |TargetsBetween(s, lo, lo + 1)| == 1
  {
    assert TargetsBetween(s, lo, lo + 1) == {s[lo].cible};
  }

  lemma BlockGap(s: seq<Activity>, lo: nat, hi: nat)
    requires Block(s, lo, hi)
    ensures lo < hi <= |s|
    ensures forall i, j :: 0 <= i < hi <= j < |s| ==> s[i].tranche < s[j].tranche
  {
  }

  lemma ListsPermuted(s: seq<Activity>, p: seq<Activity>, amas: seq<Slices>)
    requires Lists(s, amas) && forall x :: x in s <==> x in p
    ensures Lists(p, amas)
  {
  }
}
