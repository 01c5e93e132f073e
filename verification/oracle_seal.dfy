// Sealing one day: what the written file holds, as a relation between the
// directory before and after, and what follows from it.

module OracleSeal {
  import opened Numbers
  import opened OracleSlice
  import opened OracleMerge
  import opened OracleChain

  const MAX_U32: nat := 0xFFFF_FFFF

  function SumScores(es: seq<Entry>): nat {
    if es == [] then 0 else SumScores(es[..|es| - 1]) + es[|es| - 1].healthScore
  }

  // The flags of a day already on disk that a new sealing takes over.
  const CARRIED: set<Flag> := {Maintenance, Saturated, Sampled, Degraded, Anomalies}

  function KeyedFlags(host: Host, flags: set<Flag>): set<Flag> {
    if host.keyed then flags + {Keyed} else flags - {Keyed}
  }

  predicate AnyDegraded(es: seq<Entry>) { exists i :: 0 <= i < |es| && IsDegraded(es[i]) }

  predicate AnyHigh(es: seq<Entry>) { exists i :: 0 <= i < |es| && IsHigh(es[i]) }

  // The alert flags look at every merged entry, kept or not.
  function AlertFlags(merged: seq<Entry>): set<Flag> {
    (if AnyDegraded(merged) then {Degraded} else {})
    + (if AnyHigh(merged) then {Anomalies} else {})
    + (if |merged| > MAX_VECTORS then {Saturated, Sampled} else {})
  }

  function BaseEntries(dir: Directory, day: Day): seq<Entry> {
    if day in dir then dir[day].entries else []
  }

  function CarriedFlags(dir: Directory, day: Day): set<Flag> {
    if day in dir then dir[day].hdr.flags * CARRIED else {}
  }

  function PrevObserved(dir: Directory, day: Day): nat {
    if day in dir then dir[day].hdr.observedCount else 0
  }

  function Kept(s: Slice): seq<Entry> { s.normal + s.priority }

  function EndOf(start: nat, end: nat): nat { if end <= start then start + 86400 else end }

  // Distinct events of the day, before clamping to 32 bits.
  function Observed(before: Directory, day: Day, s: Slice): int {
    var merged := Merge(BaseEntries(before, day), Kept(s));
    var counted := PrevObserved(before, day) + s.observed - Duplicates(BaseEntries(before, day), Kept(s));
    if counted > |merged| then counted else |merged|
  }

  // What is written of the merged entries: all of them, or the sample that
  // the words drawn for the sealing of that day choose.
  ghost predicate IsKept(host: Host, day: Day, merged: seq<Entry>, entries: seq<Entry>) {
    if |merged| <= MAX_VECTORS then entries == merged
    else IsSample(host.draw, SealSampler(host, day), merged, MAX_VECTORS, entries)
  }

  // f is what sealing slice s of a day writes over directory before.
  ghost predicate SealedFile(host: Host, before: Directory, day: Day, start: nat, end: nat, s: Slice, f: DayFile) {
    var merged := Merge(BaseEntries(before, day), Kept(s));
    && IsKept(host, day, merged, f.entries)
    && f.entries != []
    && f.hdr.epochDay == day
    && f.hdr.machineID == host.machineID
    && f.hdr.vectorCount == |f.entries|
    && f.hdr.averageScore == SumScores(f.entries) / |f.entries|
    && f.hdr.startTs == (if day in before then Min(start, before[day].hdr.startTs) else start)
    && f.hdr.endTs == (if day in before then Max(EndOf(start, end), before[day].hdr.endTs) else EndOf(start, end))
    && f.hdr.flags == KeyedFlags(host, {Sealed} + CarriedFlags(before, day) + s.droppedFlags + AlertFlags(merged))
    && f.hdr.observedCount == (if Observed(before, day, s) > MAX_U32 then MAX_U32 else Observed(before, day, s))
    && Readable(host, day, f)
  }

  // The directory after a successful sealing.
  ghost predicate SealOutcome(host: Host, before: Directory, day: Day, start: nat, end: nat, s: Slice,
                              after: Directory)
  {
    if Held(s) == 0 then after == before
    else
      && day in after
      && after.Keys == before.Keys + {day}
      && SealedFile(host, before, day, start, end, s, after[day])
      && (forall d | d in before && d < day :: after[d] == before[d])
      && (forall d | d in before && d != day :: after[d].entries == before[d].entries)
      && (forall d | d in before && d != day && !Readable(host, d, before[d]) :: after[d] == before[d])
  }

  // Flag by flag, when the sealed header carries it.
  lemma HeaderFlags(host: Host, before: Directory, day: Day, start: nat, end: nat, s: Slice, f: DayFile)
    requires SealedFile(host, before, day, start, end, s, f)
    ensures var merged := Merge(BaseEntries(before, day), Kept(s));
      var was := if day in before then before[day].hdr.flags else {};
      && Sealed in f.hdr.flags
      && (Keyed in f.hdr.flags <==> host.keyed)
      && (Maintenance in f.hdr.flags <==> Maintenance in was + s.droppedFlags)
      && (Saturated in f.hdr.flags <==> Saturated in was + s.droppedFlags || |merged| > MAX_VECTORS)
      && (Sampled in f.hdr.flags <==> Sampled in was + s.droppedFlags || |merged| > MAX_VECTORS)
      && (Degraded in f.hdr.flags <==>
            Degraded in was + s.droppedFlags || exists e :: e in merged && e.healthScore < 700)
      && (Anomalies in f.hdr.flags <==>
            Anomalies in was + s.droppedFlags || exists e :: e in merged && e.severity >= 3)
  {
    hide Readable, Merge, IsSample, Observed, SumScores;
    AlertsOf(Merge(BaseEntries(before, day), Kept(s)));
    hide AlertFlags;
  }

  lemma AlertsOf(es: seq<Entry>)
    ensures Degraded in AlertFlags(es) <==> exists e :: e in es && e.healthScore < 700
    ensures Anomalies in AlertFlags(es) <==> exists e :: e in es && e.severity >= 3
    ensures Saturated in AlertFlags(es) <==> |es| > MAX_VECTORS
    ensures Sampled in AlertFlags(es) <==> |es| > MAX_VECTORS
    ensures AlertFlags(es) <= {Degraded, Anomalies, Saturated, Sampled}
  {
  }

  // The header spans the slice and the day on disk, and a slice never closes
  // at or before its start.
  lemma HeaderBounds(host: Host, before: Directory, day: Day, start: nat, end: nat, s: Slice, f: DayFile)
    requires SealedFile(host, before, day, start, end, s, f)
    ensures f.hdr.startTs <= start < f.hdr.endTs && end <= f.hdr.endTs
    ensures end <= start ==> start + 86400 <= f.hdr.endTs
    ensures day in before ==> f.hdr.startTs <= before[day].hdr.startTs && before[day].hdr.endTs <= f.hdr.endTs
    ensures f.hdr.startTs == start || (day in before && f.hdr.startTs == before[day].hdr.startTs)
    ensures f.hdr.endTs in {end, start + 86400} || (day in before && f.hdr.endTs == before[day].hdr.endTs)
  {
    hide Readable, Merge, IsSample, Observed, SumScores, AlertFlags;
  }

  // The sum counts every score once, whatever the order.
  lemma {:induction false} ScoresAdd(a: seq<Entry>, b: seq<Entry>)
    ensures SumScores(a + b) == SumScores(a) + SumScores(b)
    ensures forall e :: SumScores([e]) == e.healthScore
  {
    if b == [] {
      assert a + b == a;
    } else {
      ScoresAdd(a, b[..|b| - 1]);
      assert (a + b)[..|a + b| - 1] == a + b[..|b| - 1];
    }
  }

  // A sealing loses nothing it can keep.
  lemma SealKeepsWhatFits(host: Host, before: Directory, day: Day, start: nat, end: nat, s: Slice, f: DayFile)
    requires SealedFile(host, before, day, start, end, s, f)
    ensures NoDup(f.entries) && |f.entries| <= MAX_VECTORS
    ensures forall e :: e in f.entries ==> e in BaseEntries(before, day) || e in Kept(s)
    ensures var merged := Merge(BaseEntries(before, day), Kept(s));
      if |merged| <= MAX_VECTORS then
        forall e :: e in f.entries <==> e in BaseEntries(before, day) || e in Kept(s)
      else
        && |f.entries| == MAX_VECTORS
        && (|HighIndices(merged)| <= MAX_VECTORS ==>
              forall e :: IsHigh(e) ==> (e in f.entries <==> e in BaseEntries(before, day) || e in Kept(s)))
  {
    hide Readable, KeyedFlags, AlertFlags, Merge;
    var merged := Merge(BaseEntries(before, day), Kept(s));
    MergeKeepsEverything(BaseEntries(before, day), Kept(s));
    if |merged| > MAX_VECTORS {
      SampleFacts(host.draw, SealSampler(host, day), merged, MAX_VECTORS, f.entries);
    }
  }

  // The count of observed events never underflows and covers the entries.
  lemma ObservedCoversEntries(host: Host, before: Directory, day: Day, start: nat, end: nat, s: Slice, f: DayFile,
                              origin: Slice, es: seq<Entry>)
    requires SealedFile(host, before, day, start, end, s, f)
    requires SliceInv(origin, es, s)
    ensures PrevObserved(before, day) + s.observed - Duplicates(BaseEntries(before, day), Kept(s)) >= 0
    ensures f.hdr.observedCount >= f.hdr.vectorCount
  {
    hide Readable, KeyedFlags, AlertFlags, Merge;
    MergeKeepsEverything(BaseEntries(before, day), Kept(s));
    if |Merge(BaseEntries(before, day), Kept(s))| > MAX_VECTORS {
      SampleFacts(host.draw, SealSampler(host, day), Merge(BaseEntries(before, day), Kept(s)), MAX_VECTORS, f.entries);
    }
  }

  lemma MergedHigh(base: seq<Entry>, s: Slice)
    requires forall e :: e in s.normal ==> !IsHigh(e)
    requires forall e :: e in s.priority ==> IsHigh(e)
    ensures AnyHigh(Merge(base, Kept(s))) <==> AnyHigh(base) || s.priority != []
  {
    hide Merge, IsHigh;
    var merged := Merge(base, Kept(s));
    MergeKeepsEverything(base, Kept(s));
    if s.priority != [] {
      assert s.priority[0] in Kept(s) && s.priority[0] in merged;
    }
    if AnyHigh(base) {
      var i :| 0 <= i < |base| && IsHigh(base[i]);
      assert base[i] in merged;
    }
    if AnyHigh(merged) {
      var i :| 0 <= i < |merged| && IsHigh(merged[i]);
      assert merged[i] in merged;
      assert merged[i] in base || merged[i] in s.normal || merged[i] in s.priority;
    }
  }

  lemma AnomalyFlag(host: Host, carried: set<Flag>, dropped: set<Flag>, merged: seq<Entry>)
    ensures Anomalies in KeyedFlags(host, {Sealed} + carried + dropped + AlertFlags(merged))
      <==> Anomalies in carried || Anomalies in dropped || AnyHigh(merged)
  {
    hide AnyHigh, AnyDegraded;
  }

  // Whatever was drawn and displaced, the sealed header says whether a High
  // or Critical snapshot ever reached the day.
  lemma AnomalyReachesHeader(host: Host, before: Directory, day: Day, start: nat, end: nat, s: Slice, f: DayFile,
                             draw: Draw, origin: Slice, es: seq<Entry>)
    requires SealedFile(host, before, day, start, end, s, f)
    requires IsEmpty(origin) && s == OfferAll(draw, origin, es)
    requires forall e :: e in es ==> (IsHigh(e) <==> Anomalies in e.flags)
    ensures Anomalies in f.hdr.flags <==>
      || (exists e :: e in es && IsHigh(e))
      || AnyHigh(BaseEntries(before, day))
      || Anomalies in CarriedFlags(before, day)
  {
    hide Readable, Merge, Offer, AnyHigh, IsHigh, KeyedFlags, AlertFlags, BaseEntries, CarriedFlags, Observed, IsSample;
    EveryStream(draw, origin, es);
    HighLeavesAMark(draw, origin, es);
    var base := BaseEntries(before, day);
    MergedHigh(base, s);
    AnomalyFlag(host, CarriedFlags(before, day), s.droppedFlags, Merge(base, Kept(s)));
  }

  // Sealing again what the day already holds, nothing having been displaced,
  // changes neither the entries nor the observed count.
  lemma ResealChangesNothing(host: Host, before: Directory, day: Day, start: nat, end: nat, s: Slice, f: DayFile,
                             origin: Slice, es: seq<Entry>)
    requires SealedFile(host, before, day, start, end, s, f)
    requires SliceInv(origin, es, s) && s.dropped == origin.dropped
    requires day in before && WellSaved(host, day, before[day]) && NoDup(before[day].entries)
    requires before[day].hdr.observedCount <= MAX_U32
    requires forall e :: e in es ==> e in before[day].entries
    ensures f.entries == before[day].entries
    ensures f.hdr.observedCount == before[day].hdr.observedCount
  {
    hide KeyedFlags, AlertFlags, Merge, IsSample, SumScores;
    MergeIdempotent(before[day].entries, Kept(s));
  }
}
