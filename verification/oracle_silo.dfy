// The daily oracle silo: ingestion, rotation in either direction of time,
// sealing, relinking of later days and verification of the chain.

module OracleSilo {
  import opened Numbers
  import opened Wrappers
  import opened Bytes
  import opened Sorting
  import opened OracleSlice
  import opened OracleMerge
  import opened OracleChain
  import opened OracleSeal

  // A health snapshot, its 512-bit code already computed.
  datatype Snapshot = Snapshot(
    timestampSec: nat, bitcode: seq<u64>, subsystem: nat, healthScore: nat, severity: nat, correlatedCount: nat)

  const DAY_SECONDS: nat := 86400

  function DayOf(ts: nat): Day { (ts / DAY_SECONDS) % TWO_32 }

  function EntryOf(snap: Snapshot): (e: Entry)
    ensures IsHigh(e) <==> Anomalies in e.flags
    ensures IsDegraded(e) <==> Degraded in e.flags
  {
    Entry(snap.bitcode, snap.timestampSec % DAY_SECONDS, snap.subsystem, snap.healthScore, snap.severity,
          snap.correlatedCount,
          (if snap.healthScore < DEGRADED_SCORE then {Degraded} else {})
          + (if snap.severity >= SEVERITY_HIGH then {Anomalies} else {}))
  }

  // Day and second give the instant back, and the entry says the rest.
  lemma SnapshotIsKept(snap: Snapshot)
    requires snap.timestampSec < 86400 * 0x1_0000_0000
    ensures var e := EntryOf(snap);
      && DayOf(snap.timestampSec) * 86400 + e.relativeSec == snap.timestampSec && e.relativeSec < 86400
      && e.bitcode == snap.bitcode && e.subsystem == snap.subsystem
      && e.healthScore == snap.healthScore && e.severity == snap.severity
      && e.correlatedCount == snap.correlatedCount
      && (forall f :: f in e.flags <==>
            (f == Degraded && snap.healthScore < 700) || (f == Anomalies && snap.severity >= 3))
  {
  }

  predicate MarksAnomalies(es: seq<Entry>) {
    forall e :: e in es ==> (IsHigh(e) <==> Anomalies in e.flags)
  }

  datatype ChainCache = ChainCache(day: Day, daySeal: Seal)

  predicate CacheOk(chain: Option<ChainCache>, dir: Directory) {
    chain.Some? ==> chain.value.day in dir && dir[chain.value.day].hdr.seal == chain.value.daySeal
  }

  function OpenedSlice(dropped: nat, seed: u64): Slice {
    Slice([], [], 0, 0, 0, {}, dropped, Sampler(seed, 0))
  }

  // The one refusal left in the model: a file of that day exists and cannot be
  // read; it is not overwritten.
  predicate MaySeal(host: Host, dir: Directory, day: Day, s: Slice) {
    Held(s) == 0 || day !in dir || Readable(host, day, dir[day])
  }

  // The entries that sampling leaves out when slice s is sealed.
  function LeftOut(dir: Directory, day: Day, s: Slice): (n: nat)
    ensures Held(s) == 0 ==> n == 0
  {
    var merged := Merge(BaseEntries(dir, day), Kept(s));
    if Held(s) > 0 && |merged| > MAX_VECTORS then |merged| - MAX_VECTORS else 0
  }

  // Of the old and the fresh entries, each is kept or counted as left out.
  lemma KeptOrLeftOut(host: Host, before: Directory, day: Day, start: nat, end: nat, s: Slice, f: DayFile)
    requires SealedFile(host, before, day, start, end, s, f) && Held(s) > 0
    ensures |f.entries| + LeftOut(before, day, s) == |Merge(BaseEntries(before, day), Kept(s))|
  {
    hide Merge, Readable, Observed, KeyedFlags, AlertFlags, SumScores, BaseEntries;
    var merged := Merge(BaseEntries(before, day), Kept(s));
    if |merged| > MAX_VECTORS {
      SampleFacts(host.draw, SealSampler(host, day), merged, MAX_VECTORS, f.entries);
    }
  }

  // The slice after sealing: nothing held, and the counters run on.
  function Emptied(s: Slice, leftOut: nat): Slice {
    if Held(s) == 0 then s
    else s.(normal := [], priority := [], observed := 0, droppedFlags := {}, dropped := s.dropped + leftOut)
  }

  predicate NoDupDays(dir: Directory) {
    forall d | d in dir :: NoDup(dir[d].entries)
  }

  class DailyOracleSilo {
    const host: Host

    var dir: Directory
    var hasCurrentDay: bool
    var currentDay: Day
    var currentStartTs: nat
    // currentEntries, currentPriority, their counters, the dropped flags, the
    // sampler and the total of dropped entries.
    var current: Slice
    // chainDay and chainSeal, when chainKnown.
    var chain: Option<ChainCache>
    var totalIngested: nat
    var totalRotations: nat

    // The entries offered since the slice was opened or last sealed, and the
    // empty slice they were offered to.
    ghost var origin: Slice
    ghost var arrived: seq<Entry>

    ghost predicate Valid()
      reads this
    {
      && IsEmpty(origin)
      && current == OfferAll(host.draw, origin, arrived)
      && MarksAnomalies(arrived)
      && CacheOk(chain, dir)
    }

    constructor (host: Host, dir: Directory)
      ensures Valid() && !hasCurrentDay && this.dir == dir && arrived == []
      ensures this.host == host
    {
      this.host, this.dir := host, dir;
      hasCurrentDay, currentDay, currentStartTs := false, 0, 0;
      current := OpenedSlice(0, 0);
      chain := None;
      totalIngested, totalRotations := 0, 0;
      origin, arrived := OpenedSlice(0, 0), [];
    }

    method OpenDay(day: Day, startTs: nat)
      requires CacheOk(chain, dir)
      modifies this`hasCurrentDay, this`currentDay, this`currentStartTs, this`current, this`origin, this`arrived
      ensures Valid()
      ensures current == origin == OpenedSlice(old(current.dropped), host.seedOf(day))
      ensures arrived == [] && hasCurrentDay && currentDay == day && currentStartTs == startTs
    {
      hide Offer;
      currentDay, hasCurrentDay, currentStartTs := day, true, startTs;
      current := OpenedSlice(current.dropped, host.seedOf(day));
      origin, arrived := current, [];
    }

    // IngestSnapshot: None stands for a nil snapshot. A snapshot of another
    // day, earlier or later, first seals the slice in hand.
    method IngestSnapshot(snap: Option<Snapshot>) returns (ok: bool)
      requires Valid()
      modifies this
      ensures Valid()
      ensures ok <==>
        && snap.Some?
        && (old(hasCurrentDay) && DayOf(snap.value.timestampSec) != old(currentDay) ==>
              MaySeal(host, old(dir), old(currentDay), old(current)))
      ensures Intact(host, old(dir)) ==> ok == snap.Some? && Intact(host, dir)
      ensures NoDupDays(old(dir)) ==> NoDupDays(dir)
      ensures !ok ==> dir == old(dir) && current == old(current) && arrived == old(arrived)
      ensures !ok ==> totalIngested == old(totalIngested) && totalRotations == old(totalRotations)
      ensures ok ==> snap.Some? && hasCurrentDay && currentDay == DayOf(snap.value.timestampSec)
      ensures ok ==> totalIngested == old(totalIngested) + 1
      ensures ok && old(hasCurrentDay) && old(currentDay) != currentDay ==> totalRotations == old(totalRotations) + 1
      ensures ok && !(old(hasCurrentDay) && old(currentDay) != currentDay) ==> totalRotations == old(totalRotations)
      ensures ok && old(hasCurrentDay) && old(currentDay) == currentDay ==> currentStartTs == old(currentStartTs)
      ensures ok && old(hasCurrentDay) && old(currentDay) == currentDay ==>
        && dir == old(dir)
        && current == Offer(host.draw, old(current), EntryOf(snap.value))
        && arrived == old(arrived) + [EntryOf(snap.value)]
      ensures ok && !(old(hasCurrentDay) && old(currentDay) == currentDay) ==>
        && origin == OpenedSlice(old(current.dropped) + (
             if old(hasCurrentDay) then LeftOut(old(dir), old(currentDay), old(current)) else 0),
             host.seedOf(currentDay))
        && current == Offer(host.draw, origin, EntryOf(snap.value))
        && arrived == [EntryOf(snap.value)]
        && currentStartTs == snap.value.timestampSec
      ensures ok && !old(hasCurrentDay) ==> dir == old(dir)
      ensures ok && old(hasCurrentDay) && old(currentDay) != currentDay ==>
        SealOutcome(host, old(dir), old(currentDay), old(currentStartTs), snap.value.timestampSec, old(current), dir)
    {
      hide SealOutcome, Intact, Offer, NoDup, OfferAll, MarksAnomalies, OpenedSlice, DayOf, EntryOf, MaySeal, LeftOut;
      if snap.None? {
        return false;
      }
      var day := DayOf(snap.value.timestampSec);
      if !hasCurrentDay {
        OpenDay(day, snap.value.timestampSec);
      } else if day != currentDay {
        var sealedNow := SealCurrentDay(snap.value.timestampSec);
        if !sealedNow {
          return false;
        }
        OpenDay(day, snap.value.timestampSec);
        totalRotations := totalRotations + 1;
      }
      var e := EntryOf(snap.value);
      AcceptEntry(e);
      return true;
    }

    // The two channels of IngestSnapshot.
    method AcceptEntry(e: Entry)
      requires Valid() && (IsHigh(e) <==> Anomalies in e.flags)
      modifies this`current, this`totalIngested, this`arrived
      ensures Valid()
      ensures current == Offer(host.draw, old(current), e)
      ensures arrived == old(arrived) + [e]
      ensures totalIngested == old(totalIngested) + 1
    {
      hide Offer;
      totalIngested := totalIngested + 1;
      arrived := arrived + [e];
      assert arrived[..|arrived| - 1] == old(arrived);
      current := TakeIn(current, e);
    }

    method TakeIn(held: Slice, e: Entry) returns (s: Slice)
      ensures s == Offer(host.draw, held, e)
    {
      s := held;
      var priority := e.severity >= SEVERITY_HIGH;
      s := s.(observed := s.observed + 1);
      if priority {
        s := s.(prioritySeen := s.prioritySeen + 1);
      } else {
        s := s.(normalSeen := s.normalSeen + 1);
      }
      if |s.normal| + |s.priority| < MAX_VECTORS {
        if priority {
          s := s.(priority := s.priority + [e]);
        } else {
          s := s.(normal := s.normal + [e]);
        }
        return;
      }
      s := s.(droppedFlags := s.droppedFlags + {Saturated, Sampled} + e.flags, dropped := s.dropped + 1);
      if priority && |s.normal| > 0 {
        var j := Below(host.draw, s.sampler, |s.normal|);
        var last := |s.normal| - 1;
        s := s.(sampler := Next(s.sampler), normal := s.normal[j := s.normal[last]]);
        s := s.(normal := s.normal[..last], priority := s.priority + [e]);
      } else if priority {
        var j := Below(host.draw, s.sampler, s.prioritySeen);
        s := s.(sampler := Next(s.sampler));
        if j < |s.priority| {
          s := s.(priority := s.priority[j := e]);
        }
      } else {
        var j := Below(host.draw, s.sampler, s.normalSeen);
        s := s.(sampler := Next(s.sampler));
        if j < |s.normal| {
          s := s.(normal := s.normal[j := e]);
        }
      }
    }

    // SealDay and sealCurrentDayLocked.
    method SealCurrentDay(endTs: nat) returns (ok: bool)
      requires Valid()
      modifies this`dir, this`current, this`chain, this`origin, this`arrived
      ensures Valid()
      ensures ok <==> MaySeal(host, old(dir), currentDay, old(current))
      ensures !ok ==> dir == old(dir) && current == old(current) && arrived == old(arrived)
      ensures ok ==> current == Emptied(old(current), LeftOut(old(dir), currentDay, old(current)))
      ensures ok ==> SealOutcome(host, old(dir), currentDay, currentStartTs, endTs, old(current), dir)
      ensures ok && Held(old(current)) > 0 ==> arrived == [] && IsEmpty(current)
      ensures Intact(host, old(dir)) ==> ok && Intact(host, dir)
      ensures NoDupDays(old(dir)) ==> NoDupDays(dir)
    {
      hide SealedFile, OfferAll, Readable, Intact, IntactBut, NoDupDays, Relinks, SealOutcome, LeftOut;
      NothingSealed(host, dir, currentDay, currentStartTs, endTs, current);
      if |current.normal| + |current.priority| == 0 {
        return true;
      }
      IntactIsReadable(host, dir, currentDay);
      if currentDay in dir && !Readable(host, currentDay, dir[currentDay]) {
        return false;
      }
      ghost var before, slice := dir, current;
      var f := WriteDay(endTs);
      dir := dir[currentDay := f];
      chain := Some(ChainCache(currentDay, f.hdr.seal));
      LinkedWrite(host, before, currentDay, f);
      RelinkSuccessors(currentDay, f.hdr.seal);
      SealedAndRelinked(host, before, currentDay, currentStartTs, endTs, slice, f, dir);
      current := current.(normal := [], priority := [], observed := 0, droppedFlags := {});
      origin, arrived := current, [];
      NothingOffered(host.draw, current);
      return true;
    }

    // Builds the file of the current day and counts what sampling leaves out.
    method WriteDay(endTsSec: nat) returns (f: DayFile)
      requires Valid() && Held(current) > 0
      requires currentDay in dir ==> Readable(host, currentDay, dir[currentDay])
      modifies this`current
      ensures SealedFile(host, dir, currentDay, currentStartTs, endTsSec, old(current), f)
      ensures WellSaved(host, currentDay, f)
      ensures forall p | p in dir && IsPrev(dir, p, currentDay) && Readable(host, p, dir[p]) ::
        f.hdr.prevDaySeal == dir[p].hdr.seal
      ensures current == old(current).(dropped := old(current.dropped) + LeftOut(dir, currentDay, old(current)))
    {
      hide IsSample, Readable, Merge, Offer, IsPrev, OfferAll, SealedFile;
      var s0 := current;
      var base: seq<Entry> := if currentDay in dir then dir[currentDay].entries else [];
      var merged, dupFresh := MergeOracleEntries(base, current.normal + current.priority);
      var entries := merged;
      if |merged| > MAX_VECTORS {
        entries := SampleOracleEntries(host.draw, merged, MAX_VECTORS, SealSampler(host, currentDay));
        current := current.(dropped := current.dropped + (|merged| - MAX_VECTORS));
        SampleFacts(host.draw, SealSampler(host, currentDay), merged, MAX_VECTORS, entries);
      }
      MergedNotEmpty(base, s0);
      var prevSeal := PrevDaySeal(currentDay);
      EveryStream(host.draw, origin, arrived);
      f := SealHeader(s0, merged, dupFresh, entries, prevSeal, endTsSec);
    }

    // The header: bounds, flags and counts of the day on disk are taken over.
    method SealHeader(s: Slice, merged: seq<Entry>, dupFresh: nat, entries: seq<Entry>, prevSeal: Seal, endTsSec: nat)
      returns (f: DayFile)
      requires merged == Merge(BaseEntries(dir, currentDay), Kept(s))
      requires dupFresh == Duplicates(BaseEntries(dir, currentDay), Kept(s))
      requires IsKept(host, currentDay, merged, entries)
      requires 0 < |entries| <= MAX_VECTORS && |entries| <= |merged|
      ensures SealedFile(host, dir, currentDay, currentStartTs, endTsSec, s, f)
      ensures WellSaved(host, currentDay, f)
      ensures f.hdr.prevDaySeal == prevSeal
    {
      hide IsSample, Readable, Merge, AnyHigh, AnyDegraded, SumScores, WellSaved;
      var startTs, endTs := currentStartTs, endTsSec;
      if endTs <= currentStartTs {
        endTs := currentStartTs + DAY_SECONDS;
      }
      var prevFlags: set<Flag> := {};
      var prevObserved := 0;
      if currentDay in dir {
        var old_ := dir[currentDay].hdr;
        startTs, endTs := Min(startTs, old_.startTs), Max(endTs, old_.endTs);
        prevFlags := old_.flags * CARRIED;
        prevObserved := old_.observedCount;
      }
      var alerts := ComputeAlertFlags(merged);
      var flags := {Sealed} + prevFlags + s.droppedFlags + alerts;
      var counted := prevObserved + s.observed - dupFresh;
      var observed := if counted > |merged| then counted else |merged|;
      if |merged| > MAX_VECTORS {
        flags := flags + {Saturated, Sampled};
      }
      var sumScore := ComputeSum(entries);
      var hdr := Header(currentDay, startTs, endTs, |entries|, sumScore / |entries|, flags, host.machineID, prevSeal,
                        Min(observed, MAX_U32), ZERO_SEAL);
      f := Save(host, hdr, entries);
      SaveIsWellSaved(host, currentDay, hdr, entries);
      WellSavedReadable(host, currentDay, f);
      SealFlags(host, {Sealed} + prevFlags + s.droppedFlags, alerts, flags, merged);
    }

    // storedDayFilesLocked: the stored days in increasing order.
    method StoredDays() returns (days: seq<Day>)
      ensures forall i, j :: 0 <= i < j < |days| ==> days[i] < days[j]
      ensures forall d :: d in days <==> d in dir
    {
      var unsorted: seq<nat> := [];
      var rest := dir.Keys;
      while rest != {}
        invariant rest <= dir.Keys
        invariant Distinct(unsorted)
        invariant forall d: nat :: d in unsorted <==> d in dir && d !in rest
        decreases rest
      {
        var d :| d in rest;
        assert forall k :: 0 <= k < |unsorted| ==> unsorted[k] in unsorted;
        unsorted := unsorted + [d];
        rest := rest - {d};
      }
      var sorted := Sort<nat>((a, b) => a < b, unsorted);
      SortedDistinct(unsorted, sorted);
      assert forall k :: 0 <= k < |sorted| ==> sorted[k] in sorted;
      days := sorted;
    }

    // prevDaySealLocked: zero when there is no earlier day, or when it cannot
    // be read and its seal is not the cached one.
    method PrevDaySeal(day: Day) returns (prev: Seal)
      requires CacheOk(chain, dir)
      ensures forall p | p in dir && IsPrev(dir, p, day) ::
        var known := Readable(host, p, dir[p]) || (chain.Some? && chain.value.day == p);
        prev == if known then dir[p].hdr.seal else ZERO_SEAL
      ensures (forall p | p in dir :: p >= day) ==> prev == ZERO_SEAL
    {
      hide Readable;
      var days := StoredDays();
      var found: Option<Day> := None;
      for i := 0 to |days|
        invariant found.None? ==> forall k :: 0 <= k < i ==> days[k] >= day
        invariant found.Some? ==>
          && found.value in days && found.value < day
          && forall k :: 0 <= k < i ==> days[k] <= found.value || days[k] >= day
      {
        if days[i] < day {
          found := Some(days[i]);
        }
      }
      assert forall d :: d in dir ==> d in days;
      if found.None? {
        return ZERO_SEAL;
      }
      assert IsPrev(dir, found.value, day);
      forall p | p in dir && IsPrev(dir, p, day)
        ensures p == found.value
      {
        PrevUnique(dir, p, found.value, day);
      }
      if chain.Some? && chain.value.day == found.value {
        return chain.value.daySeal;
      }
      if !Readable(host, found.value, dir[found.value]) {
        return ZERO_SEAL;
      }
      return dir[found.value].hdr.seal;
    }

    // relinkSuccessorsLocked: rewrites the later days one by one until one
    // already carries the right seal. A later day that cannot be read stops
    // the propagation and is never rewritten.
    method RelinkSuccessors(day: Day, daySeal: Seal)
      requires day in dir && dir[day].hdr.seal == daySeal
      requires CacheOk(chain, dir) && chain == Some(ChainCache(day, daySeal))
      modifies this`dir, this`chain
      ensures CacheOk(chain, dir)
      ensures Relinks(host, old(dir), dir, day)
    {
      hide Readable, Relinking, Relinks, IsPrev, Save;
      var days := StoredDays();
      var cur: Day, seal_ := day, daySeal;
      ghost var start := dir;
      RelinkStart(host, dir, day);
      for i := 0 to |days|
        invariant chain == Some(ChainCache(cur, seal_))
        invariant dir.Keys == start.Keys && Relinking(host, start, dir, day, cur)
        invariant day <= cur && cur in dir && dir[cur].hdr.seal == seal_
        invariant forall k :: 0 <= k < i ==> days[k] <= cur
        invariant forall k :: i <= k < |days| ==> days[k] <= day || cur < days[k]
      {
        var f := days[i];
        if f <= day {
          continue;
        }
        NextStored(dir, days, i, cur, day);
        if !Readable(host, f, dir[f]) || dir[f].hdr.prevDaySeal == seal_ {
          RelinkStop(host, start, dir, day, cur, f);
          return;
        }
        RelinkStep(host, start, dir, day, cur, f);
        var rewritten := Save(host, dir[f].hdr.(prevDaySeal := seal_), dir[f].entries);
        dir := dir[f := rewritten];
        chain := Some(ChainCache(f, rewritten.hdr.seal));
        seal_, cur := rewritten.hdr.seal, f;
      }
      NoneAfter(dir, days, cur);
      RelinkEnd(host, start, dir, day, cur);
    }

    // VerifyOracleChain: a day is reported when it cannot be read, or when
    // the day before it can and its seal is not the one carried.
    method VerifyOracleChain() returns (breaks: seq<Day>)
      ensures forall d :: d in breaks <==>
        d in dir && (!Readable(host, d, dir[d]) || BrokenLink(host, dir, d))
      ensures breaks == [] <==> VerifiesClean(host, dir)
      ensures Intact(host, dir) ==> breaks == []
    {
      hide Readable;
      var days := StoredDays();
      breaks := [];
      var prevSeal, havePrev := ZERO_SEAL, false;
      for i := 0 to |days|
        invariant havePrev ==> i > 0 && Readable(host, days[i - 1], dir[days[i - 1]])
        invariant havePrev ==> prevSeal == dir[days[i - 1]].hdr.seal
        invariant i > 0 && Readable(host, days[i - 1], dir[days[i - 1]]) ==> havePrev
        invariant forall d :: d in breaks <==> exists k :: 0 <= k < i && days[k] == d && BreaksAt(host, dir, days, k)
      {
        var f := days[i];
        assert f in days;
        if !Readable(host, f, dir[f]) {
          breaks := breaks + [f];
          havePrev := false;
          continue;
        }
        if havePrev && dir[f].hdr.prevDaySeal != prevSeal {
          breaks := breaks + [f];
        }
        prevSeal, havePrev := dir[f].hdr.seal, true;
      }
      BreaksAreReported(host, dir, days, breaks);
    }
  }

  // The link of day d does not carry the seal of the readable day before it.
  ghost predicate BrokenLink(host: Host, dir: Directory, d: Day)
    requires d in dir
  {
    exists p :: p in dir && IsPrev(dir, p, d) && Readable(host, p, dir[p]) && dir[d].hdr.prevDaySeal != dir[p].hdr.seal
  }

  predicate BreaksAt(host: Host, dir: Directory, days: seq<Day>, k: nat)
    requires k < |days| && forall d :: d in days <==> d in dir
  {
    assert days[k] in days && (k > 0 ==> days[k - 1] in days);
    || !Readable(host, days[k], dir[days[k]])
    || (k > 0
        && Readable(host, days[k - 1], dir[days[k - 1]])
        && dir[days[k]].hdr.prevDaySeal != dir[days[k - 1]].hdr.seal)
  }

  lemma NothingSealed(host: Host, dir: Directory, day: Day, start: nat, end: nat, s: Slice)
    ensures Held(s) == 0 ==> SealOutcome(host, dir, day, start, end, s, dir)
  {
  }

  lemma IntactIsReadable(host: Host, dir: Directory, d: Day)
    ensures Intact(host, dir) && d in dir ==> Readable(host, d, dir[d])
  {
  }

  // Written over an intact directory, the day opens one link at most.
  lemma LinkedWrite(host: Host, dir: Directory, day: Day, f: DayFile)
    requires WellSaved(host, day, f)
    requires forall p | p in dir && IsPrev(dir, p, day) && Readable(host, p, dir[p]) ::
      f.hdr.prevDaySeal == dir[p].hdr.seal
    ensures Intact(host, dir) ==> IntactBut(host, dir[day := f], day)
  {
    hide Linked, IsPrev;
    if Intact(host, dir) {
      forall p | p in dir && IsPrev(dir, p, day)
        ensures f.hdr.prevDaySeal == dir[p].hdr.seal
      {
        WellSavedReadable(host, p, dir[p]);
      }
      WriteStep(host, dir, day, f);
    }
  }

  // What sealing makes of the directory, once the later days are relinked.
  lemma SealedAndRelinked(host: Host, before: Directory, day: Day, start: nat, end: nat, s: Slice, f: DayFile,
                          dir: Directory)
    requires Held(s) > 0 && SealedFile(host, before, day, start, end, s, f)
    requires Relinks(host, before[day := f], dir, day)
    ensures SealOutcome(host, before, day, start, end, s, dir)
    ensures IntactBut(host, before[day := f], day) ==> Intact(host, dir)
    ensures NoDupDays(before) ==> NoDupDays(dir)
  {
    hide IntactBut, Intact, SameButLinks, NoDup;
    SealKeepsWhatFits(host, before, day, start, end, s, f);
    hide SealedFile, Readable;
    assert dir[day] == f;
    assert forall d | d in before && d != day :: before[day := f][d] == before[d];
  }

  // In the sorted list the predecessor of a day is the one before it.
  lemma PrevInList(dir: Directory, days: seq<Day>, k: nat, p: Day)
    requires forall i, j :: 0 <= i < j < |days| ==> days[i] < days[j]
    requires forall d :: d in days <==> d in dir
    requires k < |days|
    ensures IsPrev(dir, p, days[k]) <==> k > 0 && p == days[k - 1]
  {
    if k > 0 {
      assert days[k - 1] in days;
      assert forall m :: 0 <= m < |days| ==> days[m] <= days[k - 1] || days[k] <= days[m];
      assert forall q: Day :: days[k - 1] < q < days[k] ==> q !in days;
      assert IsPrev(dir, days[k - 1], days[k]);
    }
    if IsPrev(dir, p, days[k]) {
      assert p in days;
      if k > 0 {
        PrevUnique(dir, p, days[k - 1], days[k]);
      }
    }
  }

  lemma BreaksAreReported(host: Host, dir: Directory, days: seq<Day>, breaks: seq<Day>)
    requires forall i, j :: 0 <= i < j < |days| ==> days[i] < days[j]
    requires forall d :: d in days <==> d in dir
    requires forall d :: d in breaks <==> exists k :: 0 <= k < |days| && days[k] == d && BreaksAt(host, dir, days, k)
    ensures forall d :: d in breaks <==>
      d in dir && (!Readable(host, d, dir[d]) || BrokenLink(host, dir, d))
    ensures breaks == [] <==> VerifiesClean(host, dir)
    ensures Intact(host, dir) ==> breaks == []
  {
    hide Readable;
    forall k, p | 0 <= k < |days|
      ensures IsPrev(dir, p, days[k]) <==> k > 0 && p == days[k - 1]
    {
      PrevInList(dir, days, k, p);
    }
    if breaks == [] {
      forall d | d in dir
        ensures Readable(host, d, dir[d]) && Linked(dir, d)
      {
        assert d !in breaks;
        forall p | p in dir && IsPrev(dir, p, d)
          ensures dir[d].hdr.prevDaySeal == dir[p].hdr.seal
        {
          assert p !in breaks;
        }
      }
    }
    if breaks != [] {
      assert breaks[0] in breaks;
      assert !Readable(host, breaks[0], dir[breaks[0]]) || !Linked(dir, breaks[0]);
    }
  }

  lemma NextStored(dir: Directory, days: seq<Day>, i: nat, cur: Day, day: Day)
    requires forall k, l :: 0 <= k < l < |days| ==> days[k] < days[l]
    requires forall d :: d in days <==> d in dir
    requires i < |days| && day < days[i] && day <= cur && cur in dir
    requires forall k :: 0 <= k < i ==> days[k] <= cur
    requires forall k :: i <= k < |days| ==> days[k] <= day || cur < days[k]
    ensures days[i] in dir && IsPrev(dir, cur, days[i])
  {
    assert days[i] in days;
    assert forall m :: 0 <= m < |days| ==> days[m] <= cur || days[i] <= days[m];
    assert forall q: Day :: cur < q < days[i] ==> q !in days;
  }

  lemma NoneAfter(dir: Directory, days: seq<Day>, cur: Day)
    requires forall d :: d in days <==> d in dir
    requires forall k :: 0 <= k < |days| ==> days[k] <= cur
    ensures forall d | d in dir :: !IsPrev(dir, cur, d)
  {
    forall d | d in dir
      ensures !IsPrev(dir, cur, d)
    {
      assert d in days;
    }
  }

  lemma NothingOffered(draw: Draw, s: Slice)
    ensures OfferAll(draw, s, []) == s
  {
  }

  lemma MergedNotEmpty(base: seq<Entry>, s: Slice)
    requires Held(s) > 0
    ensures Merge(base, Kept(s)) != []
  {
    MergeKeepsEverything(base, Kept(s));
    assert Kept(s)[0] in Merge(base, Kept(s));
  }

  lemma SealFlags(host: Host, taken: set<Flag>, alerts: set<Flag>, flags: set<Flag>, merged: seq<Entry>)
    requires alerts == (if AnyDegraded(merged) then {Degraded} else {}) + (if AnyHigh(merged) then {Anomalies} else {})
    requires flags == taken + alerts + if |merged| > MAX_VECTORS then {Saturated, Sampled} else {}
    ensures KeyedFlags(host, flags) == KeyedFlags(host, taken + AlertFlags(merged))
  {
    hide AnyDegraded, AnyHigh;
    assert taken + AlertFlags(merged) == flags;
  }

  method ComputeAlertFlags(merged: seq<Entry>) returns (flags: set<Flag>)
    ensures flags == (if AnyDegraded(merged) then {Degraded} else {}) + (if AnyHigh(merged) then {Anomalies} else {})
  {
    flags := {};
    for i := 0 to |merged|
      invariant Degraded in flags <==> exists k :: 0 <= k < i && IsDegraded(merged[k])
      invariant Anomalies in flags <==> exists k :: 0 <= k < i && IsHigh(merged[k])
      invariant flags <= {Degraded, Anomalies}
    {
      if IsDegraded(merged[i]) {
        flags := flags + {Degraded};
      }
      if IsHigh(merged[i]) {
        flags := flags + {Anomalies};
      }
    }
  }

  method ComputeSum(es: seq<Entry>) returns (sum: nat)
    ensures sum == SumScores(es)
  {
    sum := 0;
    for i := 0 to |es|
      invariant sum == SumScores(es[..i])
    {
      assert es[..i + 1][..i] == es[..i];
      sum := sum + es[i].healthScore;
    }
    assert es[..|es|] == es;
  }
}
