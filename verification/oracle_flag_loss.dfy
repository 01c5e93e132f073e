// When the mark of a degraded snapshot is lost: the one branch that drops it,
// what that means for a whole stream and the sealed header, and a stream on
// which it happens, whatever words are drawn.

module OracleFlagLoss {
  import opened OracleSlice
  import opened OracleMerge
  import opened OracleChain
  import opened OracleSeal
  import opened OracleFlags

  // The slice still says that something degraded came in.
  predicate Marked(s: Slice) { Degraded in s.droppedFlags || AnyDegraded(Kept(s)) }

  // The place, among the entries held, that the arrival of e takes over.
  function Displaced(draw: Draw, s: Slice, e: Entry): (k: int)
    ensures -1 <= k < |Kept(s)|
    ensures Held(s) < MAX_VECTORS ==> k == -1
  {
    if Held(s) < MAX_VECTORS then -1
    else if IsHigh(e) && |s.normal| > 0 then Below(draw, s.sampler, |s.normal|)
    else if IsHigh(e) then
      var j := Below(draw, s.sampler, s.prioritySeen + 1);
      if j < |s.priority| then |s.normal| + j else -1
    else
      var j := Below(draw, s.sampler, s.normalSeen + 1);
      if j < |s.normal| then j else -1
  }

  predicate OnlyDegradedAt(es: seq<Entry>, k: int) {
    0 <= k < |es| && IsDegraded(es[k]) && forall i :: 0 <= i < |es| && i != k ==> !IsDegraded(es[i])
  }

  // The branch that loses the mark: the slice is full, the entry displaced is
  // the only degraded one held, the arriving one is not, and no flag says so.
  predicate Loses(draw: Draw, s: Slice, e: Entry) {
    && Held(s) >= MAX_VECTORS
    && Degraded !in s.droppedFlags
    && !IsDegraded(e)
    && OnlyDegradedAt(Kept(s), Displaced(draw, s, e))
  }

  // What is held after an arrival: all that was but the entry displaced.
  lemma KeptAfter(draw: Draw, s: Slice, e: Entry)
    ensures var k, t := Displaced(draw, s, e), Kept(Offer(draw, s, e));
      && (forall x :: x in t ==> x == e || exists i :: 0 <= i < |Kept(s)| && i != k && Kept(s)[i] == x)
      && (forall i :: 0 <= i < |Kept(s)| && i != k ==> Kept(s)[i] in t)
      && (k >= 0 || Held(s) < MAX_VECTORS ==> e in t)
  {
    hide Below, IsHigh;
    var k, old_, t := Displaced(draw, s, e), Kept(s), Kept(Offer(draw, s, e));
    if Held(s) < MAX_VECTORS {
      Inserted(old_, if IsHigh(e) then |old_| else |s.normal|, e, t);
    } else if IsHigh(e) && |s.normal| > 0 {
      var last := |s.normal| - 1;
      assert t == s.normal[k := s.normal[last]][..last] + s.priority + [e];
      Moved(s.normal, s.priority, k, e, t);
    } else if k >= 0 {
      assert t == old_[k := e];
      Replaced(old_, k, e, t);
    } else {
      assert t == old_;
    }
  }

  lemma Inserted(s: seq<Entry>, at: nat, e: Entry, t: seq<Entry>)
    requires at <= |s| && t == s[..at] + [e] + s[at..]
    ensures forall x :: x in t ==> x == e || exists i :: 0 <= i < |s| && s[i] == x
    ensures forall i :: 0 <= i < |s| ==> s[i] in t
    ensures e in t
  {
    assert s == s[..at] + s[at..];
  }

  lemma Replaced(s: seq<Entry>, k: nat, e: Entry, t: seq<Entry>)
    requires k < |s| && t == s[k := e]
    ensures forall x :: x in t ==> x == e || exists i :: 0 <= i < |s| && i != k && s[i] == x
    ensures forall i :: 0 <= i < |s| && i != k ==> s[i] in t
    ensures e in t
  {
    assert t[k] == e;
    forall i | 0 <= i < |s| && i != k
      ensures s[i] in t
    {
      assert t[i] == s[i];
    }
  }

  // The last normal entry moves into the place of the k-th.
  lemma Moved(normal: seq<Entry>, priority: seq<Entry>, k: nat, e: Entry, t: seq<Entry>)
    requires k < |normal| && t == normal[k := normal[|normal| - 1]][..|normal| - 1] + priority + [e]
    ensures var s := normal + priority;
      && (forall x :: x in t ==> x == e || exists i :: 0 <= i < |s| && i != k && s[i] == x)
      && (forall i :: 0 <= i < |s| && i != k ==> s[i] in t)
      && e in t
  {
    var s, last := normal + priority, |normal| - 1;
    assert t[|t| - 1] == e;
    forall j | 0 <= j < |t| && t[j] != e
      ensures exists i :: 0 <= i < |s| && i != k && s[i] == t[j]
    {
      assert t[j] == s[if j == k && j < last then last else if j < last then j else j + 1];
    }
    forall i | 0 <= i < |s| && i != k
      ensures s[i] in t
    {
      assert s[i] == t[if i == last then k else if i < last then i else i - 1];
    }
  }

  // One arrival loses the mark exactly in that branch.
  lemma LosesIff(draw: Draw, s: Slice, e: Entry)
    requires IsDegraded(e) <==> Degraded in e.flags
    ensures Marked(s) && !Marked(Offer(draw, s, e)) <==> Loses(draw, s, e)
    ensures IsDegraded(e) ==> Marked(Offer(draw, s, e))
    ensures !Marked(s) && !IsDegraded(e) ==> !Marked(Offer(draw, s, e))
  {
    hide IsDegraded, Displaced, Offer;
    var k, t := Displaced(draw, s, e), Offer(draw, s, e);
    KeptAfter(draw, s, e);
    OfferFlags(draw, s, e);
    DegradedMember(Kept(t));
    hide Kept;
    assert AnyDegraded(Kept(t)) ==>
      IsDegraded(e) || exists i :: 0 <= i < |Kept(s)| && i != k && IsDegraded(Kept(s)[i]);
  }

  // The mark of a stream is lost exactly when some arrival loses it and no
  // degraded one comes after.
  predicate LostAt(draw: Draw, origin: Slice, es: seq<Entry>, n: nat) {
    n < |es| && Loses(draw, OfferAll(draw, origin, es[..n]), es[n]) && !AnyDegraded(es[n + 1..])
  }

  lemma {:induction false} MarkLostIff(draw: Draw, origin: Slice, es: seq<Entry>)
    requires IsEmpty(origin) && MarksDegraded(es)
    ensures Marked(OfferAll(draw, origin, es)) ==> AnyDegraded(es)
    ensures AnyDegraded(es) && !Marked(OfferAll(draw, origin, es)) <==> exists n: nat :: LostAt(draw, origin, es, n)
  {
    if es != [] {
      var m := |es| - 1;
      var p, e := es[..m], es[m];
      assert forall x :: x in p ==> x in es;
      MarkLostIff(draw, origin, p);
      assert e in es;
      LosesIff(draw, OfferAll(draw, origin, p), e);
      hide Loses, Marked, IsDegraded, OfferAll;
      DegradedAppend(p, e, es);
      forall n: nat
        ensures LostAt(draw, origin, es, n) <==>
          if n < m then LostAt(draw, origin, p, n) && !IsDegraded(e)
          else n == m && Loses(draw, OfferAll(draw, origin, p), e)
      {
        LostEarlier(draw, origin, p, e, es, n);
      }
      assert LostAt(draw, origin, es, m) <==> Loses(draw, OfferAll(draw, origin, p), e);
    }
  }

  lemma DegradedAppend(p: seq<Entry>, e: Entry, es: seq<Entry>)
    requires es == p + [e]
    ensures AnyDegraded(es) <==> AnyDegraded(p) || IsDegraded(e)
  {
    DegradedMember(es);
    DegradedMember(p);
  }

  lemma LostEarlier(draw: Draw, origin: Slice, p: seq<Entry>, e: Entry, es: seq<Entry>, n: nat)
    requires es == p + [e]
    ensures LostAt(draw, origin, es, n) <==>
      if n < |p| then LostAt(draw, origin, p, n) && !IsDegraded(e)
      else n == |p| && Loses(draw, OfferAll(draw, origin, p), e)
  {
    hide Loses, OfferAll, IsDegraded;
    if n < |p| {
      assert es[..n] == p[..n];
      DegradedAppend(p[n + 1..], e, es[n + 1..]);
    } else if n == |p| {
      assert es[..n] == p;
    }
  }

  // ------------------------------------------------------------ the header

  // The promise for one stream: a degraded arrival shows in the header.
  predicate DegradedShows(es: seq<Entry>, f: DayFile) {
    AnyDegraded(es) ==> Degraded in f.hdr.flags
  }

  // It is kept unless some arrival loses the mark, no degraded one comes
  // after, and the day on disk does not say so already.
  lemma DegradedShowsIff(host: Host, before: Directory, day: Day, start: nat, end: nat, s: Slice, f: DayFile,
                         draw: Draw, origin: Slice, es: seq<Entry>)
    requires SealedFile(host, before, day, start, end, s, f)
    requires IsEmpty(origin) && s == OfferAll(draw, origin, es) && MarksDegraded(es)
    ensures DegradedShows(es, f) <==>
      || AnyDegraded(BaseEntries(before, day))
      || Degraded in CarriedFlags(before, day)
      || !exists n: nat :: LostAt(draw, origin, es, n)
  {
    hide SealedFile, OfferAll, BaseEntries, CarriedFlags, LostAt, AnyDegraded;
    DegradedReachesHeader(host, before, day, start, end, s, f, draw, origin, es);
    DroppedFlagsExact(draw, origin, es);
    MarkLostIff(draw, origin, es);
  }

  // ----------------------------------------------------------- the witness

  const BAD: Entry := Entry([], 0, 0, 0, 0, 0, {Degraded})
  const GOOD: Entry := Entry([], 0, 0, 1000, 0, 0, {})
  const HIGH: Entry := Entry([], 0, 0, 1000, 4, 0, {Anomalies})

  // One degraded entry among sound ones, as many as the slice holds.
  function Filling(j: nat): (s: seq<Entry>)
    ensures |s| == MAX_VECTORS
  {
    seq(MAX_VECTORS, i => if i == j then BAD else GOOD)
  }

  // The degraded entry stands where the first draw strikes; a High one follows.
  function LosingStream(draw: Draw, origin: Slice): seq<Entry> {
    Filling(Below(draw, origin.sampler, MAX_VECTORS)) + [HIGH]
  }

  lemma {:induction false} LowOfLow(es: seq<Entry>)
    requires forall e :: e in es ==> !IsHigh(e)
    ensures LowOf(es) == es && HighOf(es) == []
  {
    hide IsHigh;
    if es != [] {
      var p, e := es[..|es| - 1], es[|es| - 1];
      assert es == p + [e];
      assert e in es;
      LowOfLow(p);
    }
  }

  lemma FillingFacts(j: nat)
    requires j < MAX_VECTORS
    ensures forall e :: e in Filling(j) ==> e == BAD || e == GOOD
    ensures OnlyDegradedAt(Filling(j), j)
    ensures MarksDegraded(Filling(j) + [HIGH]) && AnyDegraded(Filling(j) + [HIGH])
  {
    assert IsDegraded((Filling(j) + [HIGH])[j]);
  }

  // A full slice of such entries is held as it came.
  lemma FullSlice(draw: Draw, origin: Slice, j: nat)
    requires IsEmpty(origin) && j < MAX_VECTORS
    ensures var s := OfferAll(draw, origin, Filling(j));
      && s.normal == Filling(j) && s.priority == [] && s.droppedFlags == {} && s.sampler == origin.sampler
  {
    FillingFacts(j);
    EveryStream(draw, origin, Filling(j));
    HeldCount(draw, origin, Filling(j));
    LowOfLow(Filling(j));
    hide Filling, OfferAll;
  }

  // For every random stream there is a stream of snapshots whose one degraded
  // entry leaves no mark in the slice.
  lemma DegradedCanBeLost(draw: Draw, origin: Slice)
    requires IsEmpty(origin)
    ensures var es := LosingStream(draw, origin);
      && MarksDegraded(es) && AnyDegraded(es)
      && LostAt(draw, origin, es, MAX_VECTORS) && !Marked(OfferAll(draw, origin, es))
  {
    var j := Below(draw, origin.sampler, MAX_VECTORS);
    var p, es := Filling(j), LosingStream(draw, origin);
    FillingFacts(j);
    FullSlice(draw, origin, j);
    hide Filling, OfferAll, Below;
    assert es[..MAX_VECTORS] == p && es[MAX_VECTORS..] == [HIGH] && es[MAX_VECTORS + 1..] == [];
    assert Kept(OfferAll(draw, origin, p)) == p;
    assert LostAt(draw, origin, es, MAX_VECTORS);
    MarkLostIff(draw, origin, es);
  }

  // Sealed on a day that is not on disk, it leaves none in the header either.
  lemma DegradedPromiseFails(host: Host, before: Directory, day: Day, start: nat, end: nat, draw: Draw, origin: Slice)
    requires IsEmpty(origin) && day !in before
    ensures var es := LosingStream(draw, origin);
      var s := OfferAll(draw, origin, es);
      && (exists f :: SealedFile(host, before, day, start, end, s, f))
      && forall f :: SealedFile(host, before, day, start, end, s, f) ==> !DegradedShows(es, f)
  {
    var es := LosingStream(draw, origin);
    var s := OfferAll(draw, origin, es);
    DegradedCanBeLost(draw, origin);
    HeldCount(draw, origin, es);
    hide SealedFile, OfferAll, Filling, LosingStream, LostAt;
    CanBeSealed(host, before, day, start, end, s);
    forall f | SealedFile(host, before, day, start, end, s, f)
      ensures !DegradedShows(es, f)
    {
      DegradedShowsIff(host, before, day, start, end, s, f, draw, origin, es);
    }
  }

  // A slice within capacity can be sealed on a new day.
  lemma CanBeSealed(host: Host, before: Directory, day: Day, start: nat, end: nat, s: Slice)
    requires day !in before && 0 < Held(s) <= MAX_VECTORS
    ensures exists f :: SealedFile(host, before, day, start, end, s, f)
  {
    var merged := Merge([], Kept(s));
    MergedSize(Kept(s));
    MergeKeepsEverything([], Kept(s));
    assert Kept(s)[0] in merged;
    var observed := Observed(before, day, s);
    var hdr := Header(day, start, EndOf(start, end), |merged|, SumScores(merged) / |merged|,
                      {Sealed} + s.droppedFlags + AlertFlags(merged), host.machineID, ZERO_SEAL,
                      if observed > MAX_U32 then MAX_U32 else observed, ZERO_SEAL);
    hide Merge, AlertFlags, SumScores;
    assert SealedFile(host, before, day, start, end, s, Save(host, hdr, merged));
  }

  lemma MergedSize(es: seq<Entry>)
    ensures |Merge([], es)| <= |es|
  {
    FreshFacts([], es);
  }
}
