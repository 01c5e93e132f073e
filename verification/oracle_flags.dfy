// Which flags of displaced entries a sealed day keeps. The comment on
// currentDroppedFlags (server_oracle_silo.go) promises those of every entry
// displaced; the code adds those of every entry that arrives at a full slice.

module OracleFlags {
  import opened Numbers
  import opened OracleSlice
  import opened OracleMerge
  import opened OracleChain
  import opened OracleSeal

  predicate MarksDegraded(es: seq<Entry>) {
    forall e :: e in es ==> (IsDegraded(e) <==> Degraded in e.flags)
  }

  // The slice fills up and then stays full; no word is drawn before.
  lemma {:induction false} HeldCount(draw: Draw, origin: Slice, es: seq<Entry>)
    requires IsEmpty(origin)
    ensures Held(OfferAll(draw, origin, es)) == Min(|es|, MAX_VECTORS)
    ensures |es| <= MAX_VECTORS ==> OfferAll(draw, origin, es).sampler == origin.sampler
  {
    if es != [] {
      HeldCount(draw, origin, es[..|es| - 1]);
      hide Below;
    }
  }

  // An entry that found the slice full carried f.
  predicate CameLate(es: seq<Entry>, f: Flag) {
    exists i :: MAX_VECTORS <= i < |es| && f in es[i].flags
  }

  // The flags accumulated are exactly those of the late entries.
  lemma {:induction false} DroppedFlagsExact(draw: Draw, origin: Slice, es: seq<Entry>)
    requires IsEmpty(origin)
    ensures forall f :: f in OfferAll(draw, origin, es).droppedFlags <==>
      CameLate(es, f) || (|es| > MAX_VECTORS && (f == Saturated || f == Sampled))
  {
    if es != [] {
      var p, e := es[..|es| - 1], es[|es| - 1];
      DroppedFlagsExact(draw, origin, p);
      HeldCount(draw, origin, p);
      var s := OfferAll(draw, origin, p);
      OfferFlags(draw, s, e);
      forall f
        ensures CameLate(es, f) <==> CameLate(p, f) || (|p| >= MAX_VECTORS && f in e.flags)
      {
        LateStep(p, e, es, f);
      }
    }
  }

  lemma OfferFlags(draw: Draw, s: Slice, e: Entry)
    ensures Offer(draw, s, e).droppedFlags ==
      if Held(s) < MAX_VECTORS then s.droppedFlags else s.droppedFlags + {Saturated, Sampled} + e.flags
  {
    hide Below;
  }

  lemma LateStep(p: seq<Entry>, e: Entry, es: seq<Entry>, f: Flag)
    requires es == p + [e]
    ensures CameLate(es, f) <==> CameLate(p, f) || (|p| >= MAX_VECTORS && f in e.flags)
  {
    assert es[|p|] == e;
    if CameLate(p, f) {
      var i :| MAX_VECTORS <= i < |p| && f in p[i].flags;
      assert es[i] == p[i];
    }
  }

  // When the sealed header says Degraded: the day already did, some entry on
  // disk or still held is degraded, or some degraded entry found the slice
  // full. A degraded entry that arrived earlier and was displaced leaves no
  // trace.
  lemma DegradedReachesHeader(host: Host, before: Directory, day: Day, start: nat, end: nat, s: Slice, f: DayFile,
                              draw: Draw, origin: Slice, es: seq<Entry>)
    requires SealedFile(host, before, day, start, end, s, f)
    requires IsEmpty(origin) && s == OfferAll(draw, origin, es)
    ensures Degraded in f.hdr.flags <==>
      || Degraded in CarriedFlags(before, day)
      || AnyDegraded(BaseEntries(before, day))
      || AnyDegraded(Kept(s))
      || CameLate(es, Degraded)
  {
    hide Readable, IsSample, Merge, CameLate, AnyDegraded, AnyHigh, BaseEntries, OfferAll, CarriedFlags, Observed;
    DroppedFlagsExact(draw, origin, es);
    MergedDegraded(BaseEntries(before, day), s);
  }

  lemma MergedDegraded(base: seq<Entry>, s: Slice)
    ensures AnyDegraded(Merge(base, Kept(s))) <==> AnyDegraded(base) || AnyDegraded(Kept(s))
  {
    hide Merge, IsDegraded;
    MergeKeepsEverything(base, Kept(s));
    DegradedMember(Merge(base, Kept(s)));
    DegradedMember(base);
    DegradedMember(Kept(s));
  }

  lemma DegradedMember(es: seq<Entry>)
    ensures AnyDegraded(es) <==> exists e :: e in es && IsDegraded(e)
  {
    hide IsDegraded;
    if AnyDegraded(es) {
      var i :| 0 <= i < |es| && IsDegraded(es[i]);
      assert es[i] in es;
    }
  }
}
