// Aggregating the candidate conversations of each host
// (encrypted_wire_hote.go): one sweep over the conversations sorted by start
// is proved to find the connected components of the overlap graph.

module HostClusters {
  import opened Numbers
  import opened Wrappers
  import opened Bytes
  import opened Sorting
  import opened HostSynchrony

  type Address = a: seq<byte> | |a| == 16 witness seq(16, _ => 0)

  datatype HostKey = HostKey(client: Address, ipv6Prefix64: bool)

  predicate EstAdresseIPv4Mappee(a: Address) {
    (forall i :: 0 <= i < 10 ==> a[i] == 0) && a[10] == 0xff && a[11] == 0xff
  }

  function NormalizeHostClientKey(client: Address, ipv6: bool): HostKey {
    if EstAdresseIPv4Mappee(client) then HostKey(ZeroPadded(client[12..16], 16), false)
    else if !ipv6 then HostKey(ZeroPadded(client[..4], 16), false)
    else HostKey(ZeroPadded(client[..8], 16), true)
  }

  // The IPv4 address a client has, plain or mapped into IPv6.
  function Ipv4Of(client: Address, ipv6: bool): Option<seq<byte>> {
    if EstAdresseIPv4Mappee(client) then Some(client[12..16])
    else if ipv6 then None
    else Some(client[..4])
  }

  // Clients share a key exactly when they are the same IPv4 host, or IPv6
  // hosts of one /64.
  lemma SameHostKey(a: Address, ipv6a: bool, b: Address, ipv6b: bool)
    ensures NormalizeHostClientKey(a, ipv6a) == NormalizeHostClientKey(b, ipv6b) <==>
      Ipv4Of(a, ipv6a) == Ipv4Of(b, ipv6b) && (Ipv4Of(a, ipv6a).None? ==> a[..8] == b[..8])
  {
    forall s: seq<byte>, t: seq<byte> | |s| == |t| <= 16
      ensures ZeroPadded(s, 16) == ZeroPadded(t, 16) ==> s == t
    {
      assert ZeroPadded(s, 16)[..|s|] == s && ZeroPadded(t, 16)[..|t|] == t;
    }
  }

  datatype Candidate = Candidate(
    host: HostKey, rang: nat, premierNs: nat, dernierNs: nat,
    montants: nat, descendants: nat, suivi: Slices)

  // The comparison handed to the sort.
  predicate StartsBefore(a: Candidate, b: Candidate) {
    || a.premierNs < b.premierNs
    || (a.premierNs == b.premierNs && a.dernierNs < b.dernierNs)
    || (a.premierNs == b.premierNs && a.dernierNs == b.dernierNs && a.rang < b.rang)
  }

  // A conversation ends no earlier than it starts.
  predicate Timed(g: seq<Candidate>) {
    forall i :: 0 <= i < |g| ==> g[i].premierNs <= g[i].dernierNs
  }

  predicate InStartOrder(g: seq<Candidate>) {
    forall i, j :: 0 <= i < j < |g| ==> g[i].premierNs <= g[j].premierNs
  }

  predicate Overlap(a: Candidate, b: Candidate) {
    a.premierNs <= b.dernierNs && b.premierNs <= a.dernierNs
  }

  // path leads through g by overlapping conversations.
  predicate Chain(g: seq<Candidate>, path: seq<nat>) {
    && |path| > 0
    && (forall k :: 0 <= k < |path| ==> path[k] < |g|)
    && forall k :: 0 < k < |path| ==> Overlap(g[path[k - 1]], g[path[k]])
  }

  predicate ChainFrom(g: seq<Candidate>, path: seq<nat>, i: nat, j: nat) {
    Chain(g, path) && path[0] == i && path[|path| - 1] == j
  }

  ghost predicate Linked(g: seq<Candidate>, i: nat, j: nat) {
    exists path :: ChainFrom(g, path, i, j)
  }

  // g[lo..hi] is a connected component of the overlap graph.
  ghost predicate IsComponent(g: seq<Candidate>, lo: nat, hi: nat) {
    lo < hi <= |g| && forall i, j :: lo <= i < hi && 0 <= j < |g| ==> (Linked(g, i, j) <==> lo <= j < hi)
  }

  // Everything before k is over before anything from k on starts.
  predicate Cut(g: seq<Candidate>, k: nat) {
    forall i, j :: 0 <= i < k <= j < |g| ==> g[i].dernierNs < g[j].premierNs
  }

  // What the sweep isolates: the stretch from one cut to the next.
  predicate IsCluster(g: seq<Candidate>, lo: nat, hi: nat) {
    lo < hi <= |g| && Cut(g, lo) && Cut(g, hi) && forall k :: lo < k < hi ==> !Cut(g, k)
  }

  lemma LinkedToSelf(g: seq<Candidate>, i: nat)
    requires i < |g|
    ensures Linked(g, i, i)
  {
    assert ChainFrom(g, [i], i, i);
  }

  lemma LinkedByStep(g: seq<Candidate>, i: nat, j: nat, k: nat)
    requires Linked(g, i, j) && j < |g| && k < |g| && Overlap(g[j], g[k])
    ensures Linked(g, i, k)
  {
    var path :| ChainFrom(g, path, i, j);
    assert ChainFrom(g, path + [k], i, k);
  }

  lemma LinkedBack(g: seq<Candidate>, i: nat, j: nat)
    requires Linked(g, i, j)
    ensures Linked(g, j, i)
  {
    var path :| ChainFrom(g, path, i, j);
    var back := seq(|path|, k requires 0 <= k < |path| => path[|path| - 1 - k]);
    forall k | 0 < k < |back|
      ensures Overlap(g[back[k - 1]], g[back[k]])
    {
      assert Overlap(g[path[|path| - 1 - k]], g[path[|path| - k]]);
    }
    assert ChainFrom(g, back, j, i);
  }

  lemma LinkedThrough(g: seq<Candidate>, i: nat, j: nat, k: nat)
    requires Linked(g, i, j) && Linked(g, j, k)
    ensures Linked(g, i, k)
  {
    var p :| ChainFrom(g, p, i, j);
    var q :| ChainFrom(g, q, j, k);
    var pq := p + q[1..];
    forall n | 0 < n < |pq|
      ensures Overlap(g[pq[n - 1]], g[pq[n]])
    {
      if n >= |p| {
        assert pq[n] == q[n - |p| + 1] && pq[n - 1] == q[n - |p|];
      }
    }
    assert ChainFrom(g, pq, i, k);
  }

  // No chain of overlaps crosses a cut.
  lemma {:induction false} NoChainAcross(g: seq<Candidate>, path: seq<nat>, k: nat)
    requires Cut(g, k) && Chain(g, path)
    ensures path[0] < k <==> path[|path| - 1] < k
  {
    var n := |path| - 1;
    if n > 0 {
      NoChainAcross(g, path[..n], k);
      assert path[..n][n - 1] == path[n - 1] && path[..n][0] == path[0];
      assert Overlap(g[path[n - 1]], g[path[n]]);
    }
  }

  lemma CutSeparates(g: seq<Candidate>, k: nat, i: nat, j: nat)
    ensures Cut(g, k) && i < k <= j < |g| ==> g[i].dernierNs < g[j].premierNs
  {
  }

  // Where there is no cut, some earlier conversation of the cluster overlaps.
  lemma NoCutOverlaps(g: seq<Candidate>, lo: nat, k: nat) returns (i: nat)
    requires InStartOrder(g) && Timed(g) && lo < k < |g| && Cut(g, lo) && !Cut(g, k)
    ensures lo <= i < k && Overlap(g[i], g[k])
  {
    var j: nat;
    i, j :| 0 <= i < k <= j < |g| && g[i].dernierNs >= g[j].premierNs;
    CutSeparates(g, lo, i, j);
    assert k < j ==> g[k].premierNs <= g[j].premierNs;
  }

  lemma {:induction false} ClusterIsLinked(g: seq<Candidate>, lo: nat, hi: nat, k: nat)
    requires InStartOrder(g) && Timed(g) && lo < hi <= |g| && Cut(g, lo) && lo <= k < hi
    requires forall k :: lo < k < hi ==> !Cut(g, k)
    ensures Linked(g, lo, k)
  {
    hide Linked, Cut;
    if k == lo {
      LinkedToSelf(g, lo);
    } else {
      var i := NoCutOverlaps(g, lo, k);
      ClusterIsLinked(g, lo, hi, i);
      LinkedByStep(g, lo, i, k);
    }
  }

  // What the sweep isolates is a connected component.
  lemma ClusterIsComponent(g: seq<Candidate>, lo: nat, hi: nat)
    requires InStartOrder(g) && Timed(g) && IsCluster(g, lo, hi)
    ensures IsComponent(g, lo, hi)
  {
    hide Cut, Linked;
    forall i, j | lo <= i < hi && 0 <= j < |g|
      ensures Linked(g, i, j) <==> lo <= j < hi
    {
      if lo <= j < hi {
        ClusterIsLinked(g, lo, hi, i);
        ClusterIsLinked(g, lo, hi, j);
        LinkedBack(g, lo, i);
        LinkedThrough(g, i, lo, j);
      } else {
        NotLinkedAcross(g, i, j, lo);
        NotLinkedAcross(g, i, j, hi);
      }
    }
  }

  lemma NotLinkedAcross(g: seq<Candidate>, i: nat, j: nat, k: nat)
    requires Cut(g, k)
    ensures Linked(g, i, j) ==> (i < k <==> j < k)
  {
    if Linked(g, i, j) {
      var path :| ChainFrom(g, path, i, j);
      NoChainAcross(g, path, k);
    }
  }

  // The cluster around position i.
  lemma {:induction false} ClusterStart(g: seq<Candidate>, i: nat) returns (lo: nat)
    requires i < |g|
    ensures lo <= i && Cut(g, lo) && forall k :: lo < k <= i ==> !Cut(g, k)
  {
    if Cut(g, i) {
      lo := i;
    } else {
      lo := ClusterStart(g, i - 1);
    }
  }

  lemma {:induction false} ClusterEnd(g: seq<Candidate>, i: nat) returns (hi: nat)
    requires i < |g|
    ensures i < hi <= |g| && Cut(g, hi) && forall k :: i < k < hi ==> !Cut(g, k)
    decreases |g| - i
  {
    if Cut(g, i + 1) {
      hi := i + 1;
    } else {
      hi := ClusterEnd(g, i + 1);
    }
  }

  lemma ClusterAround(g: seq<Candidate>, i: nat) returns (lo: nat, hi: nat)
    requires i < |g|
    ensures lo <= i < hi && IsCluster(g, lo, hi)
  {
    hide Cut;
    lo := ClusterStart(g, i);
    hi := ClusterEnd(g, i);
  }

  lemma SameMembership(g: seq<Candidate>, lo: nat, hi: nat, a: nat, b: nat, j: nat)
    requires IsComponent(g, lo, hi) && IsComponent(g, a, b) && a <= lo < b && j < |g|
    ensures lo <= j < hi <==> a <= j < b
  {
    assert Linked(g, lo, j) <==> lo <= j < hi;
    assert Linked(g, lo, j) <==> a <= j < b;
  }

  // Every conversation is in a component, and the components are exactly
  // the stretches between cuts.
  lemma ComponentIffCluster(g: seq<Candidate>, lo: nat, hi: nat)
    requires InStartOrder(g) && Timed(g)
    ensures IsComponent(g, lo, hi) <==> IsCluster(g, lo, hi)
  {
    hide Cut, Linked;
    if IsCluster(g, lo, hi) {
      ClusterIsComponent(g, lo, hi);
    }
    if IsComponent(g, lo, hi) {
      var a, b := ClusterAround(g, lo);
      ClusterIsComponent(g, a, b);
      SameMembership(g, lo, hi, a, b, a);
      SameMembership(g, lo, hi, a, b, b - 1);
      SameMembership(g, lo, hi, a, b, hi - 1);
    }
  }

  // Two conversations are in one cluster iff a chain of overlaps links them.
  lemma SameClusterIffLinked(g: seq<Candidate>, i: nat, j: nat)
    requires InStartOrder(g) && Timed(g) && i < |g| && j < |g|
    ensures (exists lo: nat, hi: nat :: IsCluster(g, lo, hi) && lo <= i < hi && lo <= j < hi) <==> Linked(g, i, j)
  {
    hide Cut, Linked;
    var a, b := ClusterAround(g, i);
    ClusterIsComponent(g, a, b);
    if lo: nat, hi: nat :| IsCluster(g, lo, hi) && lo <= i < hi && lo <= j < hi {
      ClusterIsComponent(g, lo, hi);
    }
  }

  // Distinct components are over one before the other starts.
  lemma ComponentsAreDisjointInTime(g: seq<Candidate>, lo: nat, hi: nat, lo': nat, hi': nat)
    requires InStartOrder(g) && Timed(g) && IsComponent(g, lo, hi) && IsComponent(g, lo', hi') && lo < lo'
    ensures hi <= lo'
    ensures forall i, j :: lo <= i < hi && lo' <= j < hi' ==> g[i].dernierNs < g[j].premierNs
  {
    ComponentIffCluster(g, lo, hi);
    ComponentIffCluster(g, lo', hi');
    hide Linked;
    assert hi <= lo';
  }

  // Sums, bounds and targets of a cluster.

  function Montants(amas: seq<Candidate>): nat {
    if amas == [] then 0 else Montants(amas[..|amas| - 1]) + amas[|amas| - 1].montants
  }

  function Descendants(amas: seq<Candidate>): nat {
    if amas == [] then 0 else Descendants(amas[..|amas| - 1]) + amas[|amas| - 1].descendants
  }

  function Targets(amas: seq<Candidate>): set<Target> {
    set c | c in amas :: c.suivi.cible
  }

  function AllSlices(amas: seq<Candidate>): (s: seq<Slices>)
    ensures |s| == |amas| && forall k :: 0 <= k < |amas| ==> s[k] == amas[k].suivi
  {
    seq(|amas|, k requires 0 <= k < |amas| => amas[k].suivi)
  }

  const AMPLIFICATION: nat := 6
  const SEUIL_R1A: real := 4.30

  // Downstream bytes count up to six times the upstream ones.
  function VolumeNetCouple(montants: nat, descendants: nat): nat {
    montants + Min(descendants, AMPLIFICATION * montants)
  }

  // The score of a volume; no result below depends on which function it is.
  type Score = nat -> real

  datatype Regime = R0aResolutionSporadique | R1aTunnelInteractif

  datatype HostVerdict = HostVerdict(
    cle: HostKey, premierNs: nat, dernierNs: nat, conversations: nat, ciblesResolveurs: nat,
    octetsMontantsNets: nat, octetsDescendantsNets: nat, persistance: real,
    synchronie: Option<nat>, regime: Regime)

  // What construireVerdictAmasHote must say of a cluster.
  ghost predicate IsVerdictOf(score: Score, cle: HostKey, amas: seq<Candidate>, r: Option<HostVerdict>) {
    && (r.Some? <==> |amas| >= 2 && |Targets(amas)| >= 2)
    && (r.Some? ==>
        && var v := r.value;
        && v.cle == cle
        && (exists c :: c in amas && v.premierNs == c.premierNs)
        && (exists c :: c in amas && v.dernierNs == c.dernierNs)
        && (forall c :: c in amas ==> v.premierNs <= c.premierNs && c.dernierNs <= v.dernierNs)
        && v.conversations == |amas| && v.ciblesResolveurs == |Targets(amas)|
        && v.octetsMontantsNets == Montants(amas) && v.octetsDescendantsNets == Descendants(amas)
        && v.persistance == score(VolumeNetCouple(Montants(amas), Descendants(amas)))
        && v.synchronie == Synchrony(AllSlices(amas))
        && (v.regime == R1aTunnelInteractif <==> v.persistance >= SEUIL_R1A))
  }

  // Downstream bytes weigh in up to six times the upstream ones; past that
  // point more of them change nothing, and without upstream bytes none count.
  lemma PersistanceOf(score: Score, cle: HostKey, amas: seq<Candidate>, r: Option<HostVerdict>)
    requires IsVerdictOf(score, cle, amas, r) && r.Some?
    ensures var v := r.value;
      && (v.octetsDescendantsNets <= 6 * v.octetsMontantsNets ==>
            v.persistance == score(v.octetsMontantsNets + v.octetsDescendantsNets))
      && (v.octetsDescendantsNets >= 6 * v.octetsMontantsNets ==> v.persistance == score(7 * v.octetsMontantsNets))
      && (v.octetsMontantsNets == 0 ==> v.persistance == score(0))
  {
    hide Targets, Synchrony, AllSlices;
  }

  lemma PersistanceBounds(score: Score, cle: HostKey, amas: seq<Candidate>, r: Option<HostVerdict>)
    requires IsVerdictOf(score, cle, amas, r) && r.Some?
    requires forall a: nat, b: nat :: a <= b ==> score(a) <= score(b)
    ensures score(r.value.octetsMontantsNets) <= r.value.persistance <= score(7 * r.value.octetsMontantsNets)
  {
    hide IsVerdictOf;
    PersistanceOf(score, cle, amas, r);
  }

  lemma OneVerdict(score: Score, cle: HostKey, amas: seq<Candidate>, r: Option<HostVerdict>, r': Option<HostVerdict>)
    requires IsVerdictOf(score, cle, amas, r) && IsVerdictOf(score, cle, amas, r')
    ensures r == r'
  {
    hide Targets, Montants, Descendants, Synchrony, AllSlices, VolumeNetCouple;
    if r.Some? {
      assert r.value.premierNs == r'.value.premierNs;
      assert r.value.dernierNs == r'.value.dernierNs;
    }
  }

  lemma OneMore(amas: seq<Candidate>, n: nat)
    requires n < |amas|
    ensures Montants(amas[..n + 1]) == Montants(amas[..n]) + amas[n].montants
    ensures Descendants(amas[..n + 1]) == Descendants(amas[..n]) + amas[n].descendants
    ensures Targets(amas[..n + 1]) == Targets(amas[..n]) + {amas[n].suivi.cible}
    ensures forall c :: c in amas[..n + 1] <==> c in amas[..n] || c == amas[n]
  {
    assert amas[..n + 1] == amas[..n] + [amas[n]];
  }

  // The distinct targets of amas, kept in a list.
  lemma OneMoreTarget(cibles: seq<Target>, all: set<Target>, c: Target)
    requires (forall t :: t in cibles <==> t in all) && |cibles| == |all|
    ensures c !in cibles ==> |cibles + [c]| == |all + {c}|
    ensures c in cibles ==> all + {c} == all
  {
  }

  // First start and last end, of the conversations read so far.
  ghost predicate Spans(amas: seq<Candidate>, n: nat, premierNs: nat, dernierNs: nat) {
    && n <= |amas|
    && (exists i :: 0 <= i < |amas| && premierNs == amas[i].premierNs)
    && (exists i :: 0 <= i < |amas| && dernierNs == amas[i].dernierNs)
    && forall i :: 0 <= i < n ==> premierNs <= amas[i].premierNs && amas[i].dernierNs <= dernierNs
  }

  lemma SpanStart(amas: seq<Candidate>)
    requires |amas| > 0
    ensures Spans(amas, 0, amas[0].premierNs, amas[0].dernierNs)
  {
  }

  lemma SpanNext(amas: seq<Candidate>, n: nat, premierNs: nat, dernierNs: nat)
    requires n < |amas| && Spans(amas, n, premierNs, dernierNs)
    ensures Spans(amas, n + 1, Min(premierNs, amas[n].premierNs), Max(dernierNs, amas[n].dernierNs))
  {
  }

  lemma SpanEnd(amas: seq<Candidate>, premierNs: nat, dernierNs: nat)
    requires Spans(amas, |amas|, premierNs, dernierNs)
    ensures exists c :: c in amas && premierNs == c.premierNs
    ensures exists c :: c in amas && dernierNs == c.dernierNs
    ensures forall c :: c in amas ==> premierNs <= c.premierNs && c.dernierNs <= dernierNs
  {
  }

  // The loop over a cluster.
  method SommerAmas(amas: seq<Candidate>)
    returns (cibles: seq<Target>, premierNs: nat, dernierNs: nat, montants: nat, descendants: nat)
    requires |amas| > 0
    ensures |cibles| == |Targets(amas)|
    ensures montants == Montants(amas) && descendants == Descendants(amas)
    ensures Spans(amas, |amas|, premierNs, dernierNs)
  {
    hide Targets, Montants, Descendants, Spans, Min, Max;
    cibles, premierNs, dernierNs, montants, descendants := [], amas[0].premierNs, amas[0].dernierNs, 0, 0;
    EmptySums();
    assert amas[..0] == [];
    SpanStart(amas);
    for n := 0 to |amas|
      invariant montants == Montants(amas[..n]) && descendants == Descendants(amas[..n])
      invariant (forall t :: t in cibles <==> t in Targets(amas[..n])) && |cibles| == |Targets(amas[..n])|
      invariant Spans(amas, n, premierNs, dernierNs)
    {
      OneMore(amas, n);
      SpanNext(amas, n, premierNs, dernierNs);
      OneMoreTarget(cibles, Targets(amas[..n]), amas[n].suivi.cible);
      premierNs := Min(premierNs, amas[n].premierNs);
      dernierNs := Max(dernierNs, amas[n].dernierNs);
      montants := montants + amas[n].montants;
      descendants := descendants + amas[n].descendants;
      if amas[n].suivi.cible !in cibles {
        cibles := cibles + [amas[n].suivi.cible];
      }
    }
    assert amas[..|amas|] == amas;
  }

  method ConstruireVerdictAmasHote(score: Score, cle: HostKey, amas: seq<Candidate>) returns (r: Option<HostVerdict>)
    ensures IsVerdictOf(score, cle, amas, r)
  {
    if |amas| < 2 {
      return None;
    }
    hide Targets, Montants, Descendants, Synchrony, AllSlices, Spans;
    var cibles, premierNs, dernierNs, montants, descendants := SommerAmas(amas);
    if |cibles| < 2 {
      return None;
    }
    SpanEnd(amas, premierNs, dernierNs);
    var persistance := score(VolumeNetCouple(montants, descendants));
    var synchronie := CalculerSynchronieAmas(AllSlices(amas));
    return Some(HostVerdict(cle, premierNs, dernierNs, |amas|, |cibles|, montants, descendants, persistance, synchronie,
                            if persistance >= SEUIL_R1A then R1aTunnelInteractif else R0aResolutionSporadique));
  }

  lemma EmptySums()
    ensures Montants([]) == 0 && Descendants([]) == 0 && Targets([]) == {}
  {
  }

  // Component lo..hi of g has verdict v.
  ghost predicate HasVerdict(score: Score, cle: HostKey, g: seq<Candidate>, lo: nat, hi: nat, v: HostVerdict) {
    IsComponent(g, lo, hi) && IsVerdictOf(score, cle, g[lo..hi], Some(v))
  }

  // best is the first verdict of greatest persistence over the components of
  // g that end by upTo.
  ghost predicate IsBest(score: Score, cle: HostKey, g: seq<Candidate>, upTo: nat, best: Option<HostVerdict>) {
    && (forall lo: nat, hi: nat, w :: hi <= upTo && HasVerdict(score, cle, g, lo, hi, w) ==>
          best.Some? && w.persistance <= best.value.persistance)
    && (best.Some? ==> exists lo: nat, hi: nat :: FirstBest(score, cle, g, upTo, best.value, lo, hi))
  }

  ghost predicate FirstBest(score: Score, cle: HostKey, g: seq<Candidate>, upTo: nat, v: HostVerdict,
                            lo: nat, hi: nat)
  {
    && hi <= upTo && HasVerdict(score, cle, g, lo, hi, v)
    && forall lo': nat, hi': nat, w :: lo' < lo && HasVerdict(score, cle, g, lo', hi', w) ==>
      w.persistance < v.persistance
  }

  // A host verdict comes from one component, with at least two conversations
  // and two distinct targets.
  lemma BestIsACluster(score: Score, cle: HostKey, g: seq<Candidate>, best: Option<HostVerdict>)
    requires IsBest(score, cle, g, |g|, best) && best.Some?
    ensures best.value.conversations >= 2 && best.value.ciblesResolveurs >= 2
    ensures exists lo: nat, hi: nat :: IsComponent(g, lo, hi) && IsVerdictOf(score, cle, g[lo..hi], best)
  {
    hide IsVerdictOf, Linked;
    var lo: nat, hi: nat :| FirstBest(score, cle, g, |g|, best.value, lo, hi);
    VerdictNeedsTwo(score, cle, g[lo..hi], best);
  }

  lemma VerdictNeedsTwo(score: Score, cle: HostKey, amas: seq<Candidate>, r: Option<HostVerdict>)
    requires IsVerdictOf(score, cle, amas, r) && r.Some?
    ensures r.value.conversations >= 2 && r.value.ciblesResolveurs >= 2
  {
  }

  lemma OneBest(score: Score, cle: HostKey, g: seq<Candidate>, a: Option<HostVerdict>, b: Option<HostVerdict>)
    requires InStartOrder(g) && Timed(g)
    requires IsBest(score, cle, g, |g|, a) && IsBest(score, cle, g, |g|, b)
    ensures a == b
  {
    hide IsVerdictOf, Linked;
    if a.Some? {
      var lo: nat, hi: nat :| FirstBest(score, cle, g, |g|, a.value, lo, hi);
      var lo': nat, hi': nat :| FirstBest(score, cle, g, |g|, b.value, lo', hi');
      assert lo == lo';
      SameStart(g, lo, hi, hi');
      OneVerdict(score, cle, g[lo..hi], a, b);
    }
  }

  lemma SameStart(g: seq<Candidate>, lo: nat, hi: nat, hi': nat)
    requires IsComponent(g, lo, hi) && IsComponent(g, lo, hi')
    ensures hi == hi'
  {
    assert hi < |g| ==> !Linked(g, lo, hi);
    assert hi' < |g| ==> !Linked(g, lo, hi');
  }

  // The cluster that closes at position is the only new one.
  lemma NewCluster(g: seq<Candidate>, debut: nat, position: nat)
    requires InStartOrder(g) && Timed(g)
    requires IsCluster(g, debut, position)
    ensures IsComponent(g, debut, position)
    ensures forall lo: nat, hi: nat :: hi <= position && IsComponent(g, lo, hi) ==>
      hi <= debut || (lo == debut && hi == position)
  {
    ComponentIffCluster(g, debut, position);
    forall lo: nat, hi: nat | hi <= position && IsComponent(g, lo, hi)
      ensures hi <= debut || (lo == debut && hi == position)
    {
      ComponentIffCluster(g, lo, hi);
      hide Cut, IsComponent;
    }
  }

  lemma BestAfter(score: Score, cle: HostKey, g: seq<Candidate>, debut: nat, position: nat,
                  best: Option<HostVerdict>, r: Option<HostVerdict>)
    requires InStartOrder(g) && Timed(g) && IsCluster(g, debut, position)
    requires IsBest(score, cle, g, debut, best) && IsVerdictOf(score, cle, g[debut..position], r)
    ensures IsBest(score, cle, g, position,
                   if r.Some? && (best.None? || r.value.persistance > best.value.persistance) then r else best)
  {
    hide IsVerdictOf, Linked, Cut;
    NewCluster(g, debut, position);
    forall w | IsVerdictOf(score, cle, g[debut..position], Some(w))
      ensures r == Some(w)
    {
      OneVerdict(score, cle, g[debut..position], Some(w), r);
    }
    forall lo: nat, hi: nat, w | lo < debut && HasVerdict(score, cle, g, lo, hi, w)
      ensures hi <= debut
    {
      ComponentsAreDisjointInTime(g, lo, hi, debut, position);
    }
    if r.Some? && (best.None? || r.value.persistance > best.value.persistance) {
      assert FirstBest(score, cle, g, position, r.value, debut, position);
    } else if best.Some? {
      var lo: nat, hi: nat :| FirstBest(score, cle, g, debut, best.value, lo, hi);
      assert FirstBest(score, cle, g, position, best.value, lo, hi);
    }
  }

  // fin is the latest end among g[debut..position].
  ghost predicate LatestEnd(g: seq<Candidate>, debut: nat, position: nat, fin: nat) {
    && debut < position <= |g|
    && (exists q :: debut <= q < position && g[q].dernierNs == fin)
    && forall q :: debut <= q < position ==> g[q].dernierNs <= fin
  }

  lemma CutIffPastEnd(g: seq<Candidate>, debut: nat, position: nat, fin: nat)
    requires InStartOrder(g) && Timed(g) && Cut(g, debut) && LatestEnd(g, debut, position, fin) && position < |g|
    ensures Cut(g, position) <==> g[position].premierNs > fin
  {
    if g[position].premierNs > fin {
      forall i, j | 0 <= i < position <= j < |g|
        ensures g[i].dernierNs < g[j].premierNs
      {
        CutSeparates(g, debut, i, j);
        assert i >= debut ==> g[i].dernierNs <= fin;
        assert g[position].premierNs <= g[j].premierNs || position == j;
      }
    } else {
      var q :| debut <= q < position && g[q].dernierNs == fin;
      CutSeparates(g, position, q, position);
    }
  }

  // The sweep over the conversations of one host.
  method Balayer(score: Score, cle: HostKey, groupe: seq<Candidate>) returns (best: Option<HostVerdict>)
    requires InStartOrder(groupe) && Timed(groupe) && |groupe| >= 2
    ensures IsBest(score, cle, groupe, |groupe|, best)
  {
    hide Cut, IsComponent, IsVerdictOf, FirstBest, InStartOrder, Timed, LatestEnd, IsBest;
    best := None;
    var debut, fin := 0, groupe[0].dernierNs;
    StartOfSweep(score, cle, groupe);
    for position := 1 to |groupe| + 1
      invariant position <= |groupe| ==> debut < position && LatestEnd(groupe, debut, position, fin)
      invariant Cut(groupe, debut)
      invariant position <= |groupe| ==> forall k :: debut < k < position ==> !Cut(groupe, k)
      invariant IsBest(score, cle, groupe, if position <= |groupe| then debut else |groupe|, best)
    {
      if position < |groupe| {
        CutIffPastEnd(groupe, debut, position, fin);
        LatestEndNext(groupe, debut, position, fin);
      }
      if position < |groupe| && groupe[position].premierNs <= fin {
        fin := Max(fin, groupe[position].dernierNs);
        continue;
      }
      CutAtEnd(groupe);
      var amas := groupe[debut..position];
      var r := ConstruireVerdictAmasHote(score, cle, amas);
      BestAfter(score, cle, groupe, debut, position, best, r);
      if r.Some? && (best.None? || r.value.persistance > best.value.persistance) {
        best := r;
      }
      if position < |groupe| {
        debut := position;
        fin := groupe[position].dernierNs;
      }
    }
  }

  lemma CutAtEnd(g: seq<Candidate>)
    ensures Cut(g, |g|)
  {
  }

  lemma StartOfSweep(score: Score, cle: HostKey, g: seq<Candidate>)
    requires |g| > 0
    ensures Cut(g, 0) && LatestEnd(g, 0, 1, g[0].dernierNs) && IsBest(score, cle, g, 0, None)
  {
  }

  lemma LatestEndNext(g: seq<Candidate>, debut: nat, position: nat, fin: nat)
    requires LatestEnd(g, debut, position, fin) && position < |g|
    ensures LatestEnd(g, debut, position + 1, Max(fin, g[position].dernierNs))
    ensures LatestEnd(g, position, position + 1, g[position].dernierNs)
  {
    var q :| debut <= q < position && g[q].dernierNs == fin;
    var n := Max(fin, g[position].dernierNs);
    assert g[if g[position].dernierNs < fin then q else position].dernierNs == n;
    assert g[position].dernierNs == g[position].dernierNs;
  }

  // The candidates of one host, in order of appearance.
  function OfHost(cs: seq<Candidate>, cle: HostKey): seq<Candidate> {
    if cs == [] then []
    else OfHost(cs[..|cs| - 1], cle) + if cs[|cs| - 1].host == cle then [cs[|cs| - 1]] else []
  }

  // The hosts in order of first appearance.
  function Hosts(cs: seq<Candidate>): seq<HostKey> {
    if cs == [] then []
    else
      var before := Hosts(cs[..|cs| - 1]);
      if cs[|cs| - 1].host in before then before else before + [cs[|cs| - 1].host]
  }

  lemma {:induction false} OfHostCounts(cs: seq<Candidate>, cle: HostKey, c: Candidate)
    ensures multiset(OfHost(cs, cle))[c] == if c.host == cle then multiset(cs)[c] else 0
  {
    if cs != [] {
      OfHostCounts(cs[..|cs| - 1], cle, c);
      assert cs == cs[..|cs| - 1] + [cs[|cs| - 1]];
    }
  }

  // r is the verdict of host cle: the best component of its conversations,
  // put in order of start.
  ghost predicate IsHostVerdict(score: Score, cs: seq<Candidate>, cle: HostKey, r: Option<HostVerdict>) {
    exists g :: SortedGroup(g, OfHost(cs, cle)) && IsBest(score, cle, g, |g|, r)
  }

  ghost predicate SortedGroup(g: seq<Candidate>, group: seq<Candidate>) {
    multiset(g) == multiset(group) && SortedBy(StartsBefore, g)
  }

  predicate DistinctRanks(cs: seq<Candidate>) {
    forall i, j :: 0 <= i < j < |cs| ==> cs[i].rang != cs[j].rang
  }

  lemma StartOrderIsStrict()
    ensures StrictWeakOrder(StartsBefore)
  {
  }

  lemma GroupIsTimed(cs: seq<Candidate>, cle: HostKey, g: seq<Candidate>)
    requires Timed(cs) && SortedGroup(g, OfHost(cs, cle))
    ensures Timed(g) && InStartOrder(g)
  {
    SameMembers(g, OfHost(cs, cle));
    forall i | 0 <= i < |g|
      ensures g[i].premierNs <= g[i].dernierNs
    {
      assert g[i] in OfHost(cs, cle);
      assert multiset(OfHost(cs, cle))[g[i]] > 0;
      OfHostCounts(cs, cle, g[i]);
      assert g[i] in cs;
    }
  }

  lemma SmallGroup(score: Score, cs: seq<Candidate>, cle: HostKey)
    requires |OfHost(cs, cle)| < 2
    ensures IsHostVerdict(score, cs, cle, None)
  {
    hide Linked, OfHost;
    var g := OfHost(cs, cle);
    assert SortedGroup(g, g);
    assert IsBest(score, cle, g, |g|, None);
  }

  function Emitted(per: seq<Option<HostVerdict>>): seq<HostVerdict> {
    if per == [] then []
    else Emitted(per[..|per| - 1]) + if per[|per| - 1].Some? then [per[|per| - 1].value] else []
  }

  // verdicts are those of the hosts that have one, hosts in order of first
  // appearance.
  ghost predicate Aggregates(score: Score, cs: seq<Candidate>, verdicts: seq<HostVerdict>) {
    exists per: seq<Option<HostVerdict>> :: verdicts == Emitted(per) && PerHost(score, cs, per)
  }

  ghost predicate PerHost(score: Score, cs: seq<Candidate>, per: seq<Option<HostVerdict>>) {
    |per| == |Hosts(cs)| && forall k :: 0 <= k < |per| ==> IsHostVerdict(score, cs, Hosts(cs)[k], per[k])
  }

  method AgregerCandidatsParHote(score: Score, candidats: seq<Candidate>) returns (verdicts: seq<HostVerdict>)
    requires Timed(candidats)
    ensures Aggregates(score, candidats, verdicts)
  {
    hide IsBest, SortedBy, Timed, InStartOrder, IsHostVerdict, OfHost, Hosts;
    var cles := HostsInOrder(candidats);
    StartOrderIsStrict();
    verdicts := [];
    ghost var per: seq<Option<HostVerdict>> := [];
    for k := 0 to |cles|
      invariant |per| == k && verdicts == Emitted(per)
      invariant forall i :: 0 <= i < k ==> IsHostVerdict(score, candidats, cles[i], per[i])
    {
      var groupe := GroupOfHost(candidats, cles[k]);
      var best: Option<HostVerdict> := None;
      if |groupe| < 2 {
        SmallGroup(score, candidats, cles[k]);
      } else {
        var trie := Sort(StartsBefore, groupe);
        GroupIsTimed(candidats, cles[k], trie);
        SameMembers(groupe, trie);
        best := Balayer(score, cles[k], trie);
        BestOfGroup(score, candidats, cles[k], trie, best);
      }
      assert (per + [best])[..k] == per;
      per := per + [best];
      if best.Some? {
        verdicts := verdicts + [best.value];
      }
    }
    assert PerHost(score, candidats, per);
  }

  lemma BestOfGroup(score: Score, cs: seq<Candidate>, cle: HostKey, g: seq<Candidate>, r: Option<HostVerdict>)
    requires SortedGroup(g, OfHost(cs, cle)) && IsBest(score, cle, g, |g|, r)
    ensures IsHostVerdict(score, cs, cle, r)
  {
  }

  method HostsInOrder(candidats: seq<Candidate>) returns (cles: seq<HostKey>)
    ensures cles == Hosts(candidats)
  {
    cles := [];
    for n := 0 to |candidats|
      invariant cles == Hosts(candidats[..n])
    {
      assert candidats[..n + 1][..n] == candidats[..n];
      if candidats[n].host !in cles {
        cles := cles + [candidats[n].host];
      }
    }
    assert candidats[..|candidats|] == candidats;
  }

  method GroupOfHost(candidats: seq<Candidate>, cle: HostKey) returns (groupe: seq<Candidate>)
    ensures groupe == OfHost(candidats, cle)
  {
    groupe := [];
    for n := 0 to |candidats|
      invariant groupe == OfHost(candidats[..n], cle)
    {
      assert candidats[..n + 1][..n] == candidats[..n];
      if candidats[n].host == cle {
        groupe := groupe + [candidats[n]];
      }
    }
    assert candidats[..|candidats|] == candidats;
  }

  // Every host is listed once, and no other.
  lemma {:induction false} HostsOnce(cs: seq<Candidate>)
    ensures forall h :: h in Hosts(cs) <==> exists i :: 0 <= i < |cs| && cs[i].host == h
    ensures forall i, j :: 0 <= i < j < |Hosts(cs)| ==> Hosts(cs)[i] != Hosts(cs)[j]
  {
    if cs != [] {
      var p := cs[..|cs| - 1];
      HostsOnce(p);
      forall h
        ensures h in Hosts(cs) <==> exists i :: 0 <= i < |cs| && cs[i].host == h
      {
        if i :| 0 <= i < |cs| && cs[i].host == h {
          assert i < |p| ==> p[i].host == h;
        }
        if h in Hosts(p) {
          var i :| 0 <= i < |p| && p[i].host == h;
          assert cs[i].host == h;
        }
      }
    }
  }

  predicate RanksTell(s: seq<Candidate>) {
    forall a: Candidate, b: Candidate :: a in s && b in s && a.rang == b.rang ==> a == b
  }

  // With distinct ranks there is only one sorted list.
  lemma {:induction false} SortedOnce(g: seq<Candidate>, h: seq<Candidate>)
    requires multiset(g) == multiset(h) && SortedBy(StartsBefore, g) && SortedBy(StartsBefore, h) && RanksTell(g)
    ensures g == h
  {
    SameMembers(g, h);
    if g != [] {
      SameFirst(g, h);
      SameRest(g, h);
      hide SortedBy, RanksTell;
      SortedOnce(g[1..], h[1..]);
      assert g == [g[0]] + g[1..] && h == [h[0]] + h[1..];
    }
  }

  lemma SameFirst(g: seq<Candidate>, h: seq<Candidate>)
    requires multiset(g) == multiset(h) && SortedBy(StartsBefore, g) && SortedBy(StartsBefore, h) && RanksTell(g)
    requires g != [] && h != []
    ensures g[0] == h[0]
  {
    SameMembers(g, h);
    assert g[0] in h && h[0] in g;
    var k :| 0 <= k < |h| && h[k] == g[0];
    var m :| 0 <= m < |g| && g[m] == h[0];
    assert k > 0 ==> !StartsBefore(h[k], h[0]);
    assert m > 0 ==> !StartsBefore(g[m], g[0]);
  }

  lemma SameRest(g: seq<Candidate>, h: seq<Candidate>)
    requires multiset(g) == multiset(h) && SortedBy(StartsBefore, g) && SortedBy(StartsBefore, h) && RanksTell(g)
    requires g != [] && h != [] && g[0] == h[0]
    ensures multiset(g[1..]) == multiset(h[1..]) && SortedBy(StartsBefore, g[1..]) && SortedBy(StartsBefore, h[1..])
    ensures RanksTell(g[1..])
  {
    hide StartsBefore;
    assert g == [g[0]] + g[1..] && h == [h[0]] + h[1..];
    assert multiset(g[1..]) == multiset(g) - multiset{g[0]};
    assert multiset(h[1..]) == multiset(h) - multiset{h[0]};
    assert forall x :: x in g[1..] ==> x in g;
    SortedRest(g);
    SortedRest(h);
  }

  lemma SortedRest(g: seq<Candidate>)
    requires SortedBy(StartsBefore, g) && g != []
    ensures SortedBy(StartsBefore, g[1..])
  {
    hide StartsBefore;
    forall i, j | 0 <= i < j < |g[1..]|
      ensures !StartsBefore(g[1..][j], g[1..][i])
    {
      assert !StartsBefore(g[j + 1], g[i + 1]);
    }
  }

  // The verdict of a host does not depend on the order of the candidates.
  lemma OneHostVerdict(score: Score, cs: seq<Candidate>, ds: seq<Candidate>, cle: HostKey,
                       a: Option<HostVerdict>, b: Option<HostVerdict>)
    requires Timed(cs) && DistinctRanks(cs) && multiset(cs) == multiset(ds)
    requires IsHostVerdict(score, cs, cle, a) && IsHostVerdict(score, ds, cle, b)
    ensures a == b
  {
    hide IsBest;
    var g :| SortedGroup(g, OfHost(cs, cle)) && IsBest(score, cle, g, |g|, a);
    var h :| SortedGroup(h, OfHost(ds, cle)) && IsBest(score, cle, h, |h|, b);
    forall c ensures multiset(g)[c] == multiset(h)[c] {
      OfHostCounts(cs, cle, c);
      OfHostCounts(ds, cle, c);
    }
    assert multiset(g) == multiset(h);
    forall x: Candidate, y: Candidate | x in g && y in g && x.rang == y.rang
      ensures x == y
    {
      assert multiset(g)[x] > 0 && multiset(g)[y] > 0;
      OfHostCounts(cs, cle, x);
      OfHostCounts(cs, cle, y);
      assert x in cs && y in cs;
    }
    SortedOnce(g, h);
    GroupIsTimed(cs, cle, g);
    OneBest(score, cle, g, a, b);
  }

  // The whole answer is the same for every order of candidates that meets the
  // hosts in the same order.
  lemma OneAggregate(score: Score, cs: seq<Candidate>, ds: seq<Candidate>, a: seq<HostVerdict>, b: seq<HostVerdict>)
    requires Timed(cs) && DistinctRanks(cs) && multiset(cs) == multiset(ds) && Hosts(cs) == Hosts(ds)
    requires Aggregates(score, cs, a) && Aggregates(score, ds, b)
    ensures a == b
  {
    hide IsHostVerdict, Hosts, Emitted, Timed, DistinctRanks;
    var p: seq<Option<HostVerdict>> :| a == Emitted(p) && PerHost(score, cs, p);
    var q: seq<Option<HostVerdict>> :| b == Emitted(q) && PerHost(score, ds, q);
    forall k | 0 <= k < |p|
      ensures p[k] == q[k]
    {
      OneHostVerdict(score, cs, ds, Hosts(cs)[k], p[k], q[k]);
    }
    assert p == q;
  }
}
