// The stored days as a chain: each day's header carries the seal of the
// nearest earlier stored day. The directory is a map from day to file.

module OracleChain {
  import opened Bytes
  import opened OracleSlice

  type Day = u32
  type Seal = nat

  const ZERO_SEAL: Seal := 0

  datatype Header = Header(
    epochDay: Day, startTs: nat, endTs: nat, vectorCount: nat, averageScore: nat, flags: set<Flag>,
    machineID: nat, prevDaySeal: Seal, observedCount: nat, seal: Seal)

  datatype DayFile = DayFile(hdr: Header, entries: seq<Entry>)

  type Directory = map<Day, DayFile>

  // The seal of a header, its own seal field set to zero, and the entries:
  // an arbitrary function, under whatever key the host has.
  type SealFn = (Header, seq<Entry>) -> Seal

  // The host, with the words its samplers draw and the seeds they start from:
  // one a day for the slice, another for sealing.
  datatype Host = Host(
    machineID: nat, keyed: bool, sealOf: SealFn,
    draw: Draw, seedOf: Day -> u64, sealSeedOf: Day -> u64)

  function SealSampler(host: Host, day: Day): Sampler { Sampler(host.sealSeedOf(day), 0) }

  function SealFor(host: Host, hdr: Header, entries: seq<Entry>): Seal {
    host.sealOf(hdr.(seal := ZERO_SEAL), entries)
  }

  // SaveOracleDayHMAC: fills in the counts, the key flag and the seal.
  function Save(host: Host, hdr: Header, entries: seq<Entry>): (f: DayFile)
    requires |entries| <= MAX_VECTORS
  {
    var h := hdr.(vectorCount := |entries|,
                  observedCount := if hdr.observedCount > |entries| then hdr.observedCount else |entries|,
                  flags := if host.keyed then hdr.flags + {Keyed} else hdr.flags - {Keyed});
    DayFile(h.(seal := SealFor(host, h, entries)), entries)
  }

  // LoadOracleDayHMAC succeeds.
  predicate Loads(host: Host, f: DayFile) {
    f.hdr.vectorCount == |f.entries| <= MAX_VECTORS && f.hdr.seal == SealFor(host, f.hdr, f.entries)
  }

  // The file of day d loads and says whose and which day it is.
  predicate Readable(host: Host, d: Day, f: DayFile) {
    Loads(host, f) && f.hdr.machineID == host.machineID && f.hdr.epochDay == d
  }

  // As this host writes its days.
  // A file is readable for one machine and one day only.
  lemma OneReader(a: Host, b: Host, d: Day, e: Day, f: DayFile)
    requires Readable(a, d, f) && Readable(b, e, f)
    ensures a.machineID == b.machineID && d == e
  {
  }

  predicate WellSaved(host: Host, d: Day, f: DayFile) {
    && Readable(host, d, f)
    && f.hdr.observedCount >= f.hdr.vectorCount
    && (Keyed in f.hdr.flags <==> host.keyed)
  }

  predicate IsPrev(dir: Directory, p: Day, d: Day) {
    p < d && p in dir && forall q: Day :: p < q < d ==> q !in dir
  }

  predicate Linked(dir: Directory, d: Day)
    requires d in dir
  {
    forall p | p in dir :: IsPrev(dir, p, d) ==> dir[d].hdr.prevDaySeal == dir[p].hdr.seal
  }

  // The chain invariant of a directory.
  predicate Intact(host: Host, dir: Directory) {
    forall d | d in dir :: WellSaved(host, d, dir[d]) && Linked(dir, d)
  }

  // Intact, except that the day after cur may not carry the seal of cur.
  predicate IntactBut(host: Host, dir: Directory, cur: Day) {
    && cur in dir
    && forall d | d in dir :: WellSaved(host, d, dir[d]) && (Linked(dir, d) || IsPrev(dir, cur, d))
  }

  function Unlinked(hdr: Header): Header { hdr.(prevDaySeal := ZERO_SEAL, seal := ZERO_SEAL) }

  // b is a with other links on days after from: same entries, and the same
  // headers but for PrevDaySeal and Seal.
  predicate SameButLinks(a: Directory, b: Directory, from: Day) {
    && a.Keys == b.Keys
    && forall d | d in a ::
         && b[d].entries == a[d].entries
         && Unlinked(b[d].hdr) == Unlinked(a[d].hdr)
         && (d <= from ==> b[d] == a[d])
  }

  lemma PrevUnique(dir: Directory, p: Day, q: Day, d: Day)
    requires IsPrev(dir, p, d) && IsPrev(dir, q, d)
    ensures p == q
  {
  }

  lemma PrevExists(dir: Directory, d: Day, x: Day) returns (p: Day)
    requires x in dir && x < d
    ensures IsPrev(dir, p, d) && x <= p
  {
    p := d - 1;
    while p !in dir
      invariant x <= p < d
      invariant forall q: Day :: p < q < d ==> q !in dir
      decreases p - x
    {
      p := p - 1;
    }
  }

  lemma NextUnique(dir: Directory, cur: Day, d: Day, e: Day)
    requires d in dir && e in dir
    ensures IsPrev(dir, cur, d) && IsPrev(dir, cur, e) ==> d == e
  {
  }

  lemma LinkAfterWrite(dir: Directory, d: Day, f: DayFile, e: Day)
    requires e in dir[d := f]
    requires e != d ==> Linked(dir, e)
    requires forall p | p in dir :: IsPrev(dir, p, d) ==> f.hdr.prevDaySeal == dir[p].hdr.seal
    ensures Linked(dir[d := f], e) || IsPrev(dir[d := f], d, e)
  {
    var dir' := dir[d := f];
    assert forall q :: q in dir ==> q in dir';
    if !IsPrev(dir', d, e) {
      forall p | p in dir' && IsPrev(dir', p, e)
        ensures dir'[e].hdr.prevDaySeal == dir'[p].hdr.seal
      {
        assert p != d;
        assert IsPrev(dir, p, e);
      }
    }
  }

  // Writing a day with the seal of its predecessor leaves at most one link
  // to repair: that of the day after it.
  lemma WriteStep(host: Host, dir: Directory, d: Day, f: DayFile)
    requires Intact(host, dir)
    requires WellSaved(host, d, f)
    requires forall p | p in dir :: IsPrev(dir, p, d) ==> f.hdr.prevDaySeal == dir[p].hdr.seal
    ensures IntactBut(host, dir[d := f], d)
  {
    hide WellSaved, Linked, IsPrev;
    var dir' := dir[d := f];
    forall e | e in dir'
      ensures WellSaved(host, e, dir'[e]) && (Linked(dir', e) || IsPrev(dir', d, e))
    {
      LinkAfterWrite(dir, d, f, e);
    }
  }

  // The day after cur already carries the seal of cur, or there is no such
  // day: nothing further down the chain can be wrong.
  lemma StopStep(host: Host, dir: Directory, cur: Day)
    requires IntactBut(host, dir, cur)
    requires forall d | d in dir :: IsPrev(dir, cur, d) ==> dir[d].hdr.prevDaySeal == dir[cur].hdr.seal
    ensures Intact(host, dir)
  {
    forall d | d in dir
      ensures WellSaved(host, d, dir[d]) && Linked(dir, d)
    {
      if IsPrev(dir, cur, d) {
        forall p | p in dir && IsPrev(dir, p, d)
          ensures dir[d].hdr.prevDaySeal == dir[p].hdr.seal
        {
          PrevUnique(dir, p, cur, d);
        }
      }
    }
  }

  // Rewriting the day after cur moves the open link one day on.
  lemma RewriteStep(host: Host, dir: Directory, cur: Day, d: Day)
    requires IntactBut(host, dir, cur) && d in dir && IsPrev(dir, cur, d)
    ensures |dir[d].entries| <= MAX_VECTORS
    ensures var f := Save(host, dir[d].hdr.(prevDaySeal := dir[cur].hdr.seal), dir[d].entries);
      IntactBut(host, dir[d := f], d) && SameButLinks(dir, dir[d := f], cur)
  {
    assert WellSaved(host, d, dir[d]);
    var f := Save(host, dir[d].hdr.(prevDaySeal := dir[cur].hdr.seal), dir[d].entries);
    assert dir[d := f].Keys == dir.Keys;
    SaveIsWellSaved(host, d, dir[d].hdr.(prevDaySeal := dir[cur].hdr.seal), dir[d].entries);
    forall p | p in dir && IsPrev(dir, p, d)
      ensures f.hdr.prevDaySeal == dir[p].hdr.seal
    {
      PrevUnique(dir, p, cur, d);
    }
    forall e | e in dir
      ensures WellSaved(host, e, dir[d := f][e]) && (Linked(dir[d := f], e) || IsPrev(dir[d := f], d, e))
    {
      hide WellSaved, Linked, IsPrev;
      NextUnique(dir, cur, d, e);
      LinkAfterWrite(dir, d, f, e);
    }
  }

  lemma SaveIsWellSaved(host: Host, d: Day, hdr: Header, entries: seq<Entry>)
    requires |entries| <= MAX_VECTORS && hdr.machineID == host.machineID && hdr.epochDay == d
    ensures WellSaved(host, d, Save(host, hdr, entries))
  {
    var f := Save(host, hdr, entries);
    assert f.hdr.(seal := ZERO_SEAL).(seal := ZERO_SEAL) == f.hdr.(seal := ZERO_SEAL);
    var h := f.hdr.(seal := hdr.seal);
    assert h.(seal := ZERO_SEAL) == f.hdr.(seal := ZERO_SEAL);
  }

  lemma LinksTransitive(a: Directory, b: Directory, c: Directory, from: Day, cur: Day)
    requires SameButLinks(a, b, from) && SameButLinks(b, c, cur) && from <= cur
    ensures SameButLinks(a, c, from)
  {
    forall d | d in a
      ensures c[d].entries == a[d].entries
      ensures Unlinked(c[d].hdr) == Unlinked(a[d].hdr)
      ensures d <= from ==> c[d] == a[d]
    {
      assert d in b;
    }
  }

  lemma StopAt(host: Host, dir: Directory, cur: Day, f: Day)
    requires IntactBut(host, dir, cur) && f in dir && IsPrev(dir, cur, f)
    requires dir[f].hdr.prevDaySeal == dir[cur].hdr.seal
    ensures Intact(host, dir)
  {
    forall d | d in dir && IsPrev(dir, cur, d)
      ensures dir[d].hdr.prevDaySeal == dir[cur].hdr.seal
    {
      NextUnique(dir, cur, d, f);
    }
    StopStep(host, dir, cur);
  }

  lemma WellSavedReadable(host: Host, d: Day, f: DayFile)
    ensures WellSaved(host, d, f) ==> Readable(host, d, f)
  {
  }

  lemma ReadableSize(host: Host, d: Day, f: DayFile)
    requires Readable(host, d, f)
    ensures |f.entries| <= MAX_VECTORS
  {
  }

  // What relinking after day makes of start: the days up to it, all entries
  // and every unreadable day stay, and one open link is closed.
  ghost predicate Relinks(host: Host, start: Directory, dir: Directory, day: Day) {
    && Preserves(host, start, dir, day)
    && (IntactBut(host, start, day) ==> Intact(host, dir) && SameButLinks(start, dir, day))
  }

  predicate Preserves(host: Host, start: Directory, dir: Directory, day: Day) {
    && dir.Keys == start.Keys
    && forall d | d in start ::
         && dir[d].entries == start[d].entries
         && (d <= day || !Readable(host, d, start[d]) ==> dir[d] == start[d])
  }

  // Relinking after day has come as far as cur.
  ghost predicate Relinking(host: Host, start: Directory, dir: Directory, day: Day, cur: Day) {
    && Preserves(host, start, dir, day)
    && day <= cur && cur in dir
    && (forall d | d in dir :: cur < d ==> dir[d] == start[d])
    && (IntactBut(host, start, day) ==> IntactBut(host, dir, cur) && SameButLinks(start, dir, day))
  }

  lemma RelinkStart(host: Host, dir: Directory, day: Day)
    requires day in dir
    ensures Relinking(host, dir, dir, day, day)
  {
    hide Readable, IntactBut;
  }

  lemma RelinkStep(host: Host, start: Directory, dir: Directory, day: Day, cur: Day, f: Day)
    requires Relinking(host, start, dir, day, cur)
    requires f in dir && IsPrev(dir, cur, f) && Readable(host, f, dir[f])
    ensures |dir[f].entries| <= MAX_VECTORS
    ensures var g := Save(host, dir[f].hdr.(prevDaySeal := dir[cur].hdr.seal), dir[f].entries);
      Relinking(host, start, dir[f := g], day, f)
  {
    ReadableSize(host, f, dir[f]);
    var g := Save(host, dir[f].hdr.(prevDaySeal := dir[cur].hdr.seal), dir[f].entries);
    var dir' := dir[f := g];
    assert g.entries == dir[f].entries;
    hide Save;
    assert cur < f;
    hide IsPrev, Readable;
    assert Preserves(host, start, dir', day);
    hide Preserves;
    if IntactBut(host, start, day) {
      RewriteStep(host, dir, cur, f);
      LinksTransitive(start, dir, dir', day, cur);
    }
  }

  // It may stop where the next day carries the right seal already, where the
  // next day cannot be read, and where there is none.
  lemma RelinkStop(host: Host, start: Directory, dir: Directory, day: Day, cur: Day, f: Day)
    requires Relinking(host, start, dir, day, cur) && f in dir && IsPrev(dir, cur, f)
    requires !Readable(host, f, dir[f]) || dir[f].hdr.prevDaySeal == dir[cur].hdr.seal
    ensures Relinks(host, start, dir, day)
  {
    hide Preserves, SameButLinks, Linked, IsPrev;
    if IntactBut(host, start, day) {
      WellSavedReadable(host, f, dir[f]);
      hide Readable, WellSaved;
      StopAt(host, dir, cur, f);
    }
  }

  lemma RelinkEnd(host: Host, start: Directory, dir: Directory, day: Day, cur: Day)
    requires Relinking(host, start, dir, day, cur) && forall d | d in dir :: !IsPrev(dir, cur, d)
    ensures Relinks(host, start, dir, day)
  {
    hide Preserves, SameButLinks, Linked, IsPrev, WellSaved;
    if IntactBut(host, start, day) {
      StopStep(host, dir, cur);
    }
  }

  // ------------------------------------------------------- tamper evidence

  ghost predicate InjectiveSeal(sealOf: SealFn) {
    forall h, es, h', es' :: sealOf(h, es) == sealOf(h', es') ==> h == h' && es == es'
  }

  // VerifyOracleChain reports nothing.
  predicate VerifiesClean(host: Host, dir: Directory) {
    forall d | d in dir :: Readable(host, d, dir[d]) && Linked(dir, d)
  }

  // Under one seal function, equal seals mean equal files.
  lemma SealDetermines(host: Host, d: Day, f: DayFile, d': Day, f': DayFile)
    requires InjectiveSeal(host.sealOf)
    requires Readable(host, d, f) && Readable(host, d', f') && f.hdr.seal == f'.hdr.seal
    ensures d == d' && f == f'
  {
    assert f.hdr == f.hdr.(seal := ZERO_SEAL).(seal := f.hdr.seal);
    assert f'.hdr == f'.hdr.(seal := ZERO_SEAL).(seal := f'.hdr.seal);
  }

  // From day x down, a and b hold the same files as far as both reach.
  ghost predicate AgreeUpTo(a: Directory, b: Directory, x: Day) {
    && (forall d | d in a && d in b && d <= x :: a[d] == b[d])
    && (forall d, e :: d in a && d !in b && d <= x && e in b ==> d < e)
    && (forall d, e :: d in b && d !in a && d <= x && e in a ==> d < e)
  }

  ghost predicate AgreeAbove(a: Directory, b: Directory, x: Day) {
    forall d :: d in a || d in b ==> d <= x || (d in a && d in b && a[d] == b[d])
  }

  lemma {:induction false} AgreeFrom(host: Host, a: Directory, b: Directory, x: Day)
    requires InjectiveSeal(host.sealOf)
    requires VerifiesClean(host, a) && VerifiesClean(host, b)
    requires x in a && x in b && a[x] == b[x] && AgreeAbove(a, b, x)
    ensures AgreeUpTo(a, b, x)
    decreases x
  {
    hide Readable, AgreeAbove, AgreeUpTo, InjectiveSeal;
    if (exists d :: d in a && d < x) && (exists d :: d in b && d < x) {
      var ya :| ya in a && ya < x;
      var yb :| yb in b && yb < x;
      var p := PrevExists(a, x, ya);
      var q := PrevExists(b, x, yb);
      assert Linked(a, x) && Linked(b, x);
      SealDetermines(host, p, a[p], q, b[q]);
      AboveStep(a, b, p, x);
      AgreeFrom(host, a, b, p);
      AgreeStep(a, b, p, x);
    } else {
      AgreeBase(a, b, x);
    }
  }

  lemma AgreeBase(a: Directory, b: Directory, x: Day)
    requires x in a && x in b && a[x] == b[x]
    requires (forall d :: d in a ==> x <= d) || (forall d :: d in b ==> x <= d)
    ensures AgreeUpTo(a, b, x)
  {
  }

  lemma AboveStep(a: Directory, b: Directory, p: Day, x: Day)
    requires IsPrev(a, p, x) && IsPrev(b, p, x)
    requires x in a && x in b && a[x] == b[x] && AgreeAbove(a, b, x)
    ensures AgreeAbove(a, b, p)
  {
  }

  lemma AgreeStep(a: Directory, b: Directory, p: Day, x: Day)
    requires IsPrev(a, p, x) && IsPrev(b, p, x)
    requires x in a && x in b && a[x] == b[x] && AgreeUpTo(a, b, p)
    ensures AgreeUpTo(a, b, x)
  {
    assert forall d | d in a || d in b :: d <= x ==> d <= p || d == x;
  }

  // With an injective seal the newest seal commits to the whole history: two
  // clean directories that end in the same seal hold the same days, as far
  // back as both go. Altering, dropping or inserting an earlier day shows.
  lemma NewestSealCommits(host: Host, a: Directory, b: Directory, x: Day, y: Day)
    requires InjectiveSeal(host.sealOf)
    requires VerifiesClean(host, a) && VerifiesClean(host, b)
    requires x in a && (forall d :: d in a ==> d <= x)
    requires y in b && (forall d :: d in b ==> d <= y)
    requires a[x].hdr.seal == b[y].hdr.seal
    ensures x == y && AgreeUpTo(a, b, x)
  {
    assert Readable(host, x, a[x]) && Readable(host, y, b[y]);
    SealDetermines(host, x, a[x], y, b[y]);
    assert AgreeAbove(a, b, x);
    AgreeFrom(host, a, b, x);
  }
}
