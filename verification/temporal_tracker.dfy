// The bounded table of domain histories (temporal_tracker.go): eight probes,
// a ring of 16 timestamps and a 256-bit filter per slot, against the histories
// they stand for, for every pair of hash functions.

module TemporalTracker {
  import opened Numbers
  import opened Wrappers
  import opened Bytes

  const MAX_TRACKED: nat := 8192
  const PROBES: nat := 8
  const WINDOW: nat := 16
  const MAX_INACTIVITY: nat := 3600
  const MAX_NAME: nat := 253

  type Name = seq<byte>

  // FNV-1a and splitmix64 in the source; arbitrary here.
  datatype Hashes = Hashes(fnv: Name -> u64, mix: u64 -> u64)

  datatype DomainTrack = DomainTrack(
    domainHash: nat, domain: Name, timestamps: seq<nat>, head: nat, queryCount: nat,
    lastSeen: nat, bloom: set<nat>, uniqueSubdomains: nat)

  const FREE: DomainTrack := DomainTrack(0, [], seq(WINDOW, _ => 0), 0, 0, 0, {}, 0)

  // All that was recorded for a domain since its window was last reset: the
  // instants, and the non-empty subdomains in order.
  datatype History = History(times: seq<nat>, subs: seq<Name>)

  // The odd step: the low three bits of the mixed hash, with the lowest set.
  function StepOf(hs: Hashes, h: u64): (r: nat)
    ensures 1 <= r <= 7 && r % 2 == 1
    ensures r / 2 == hs.mix(h) / 2 % 4
  {
    var m := hs.mix(h) % 8;
    if m % 2 == 1 then m else m + 1
  }

  function Probe(hs: Hashes, d: Name, i: nat): (p: nat)
    ensures p < MAX_TRACKED
  {
    (hs.fnv(d) % MAX_TRACKED + i * StepOf(hs, hs.fnv(d))) % MAX_TRACKED
  }

  ghost predicate InProbe(hs: Hashes, d: Name, p: nat) {
    exists i :: 0 <= i < PROBES && Probe(hs, d, i) == p
  }

  // The eight probes are eight different slots.
  lemma ProbesDiffer(hs: Hashes, d: Name, i: nat, j: nat)
    requires i < j < PROBES
    ensures Probe(hs, d, i) != Probe(hs, d, j)
  {
    hide StepOf;
    var home, step := hs.fnv(d) % MAX_TRACKED, StepOf(hs, hs.fnv(d));
    SmallStep(i, step);
    SmallStep(j, step);
    MulLe(i + 1, j, step);
    MulNext(i, step);
    SlotsDiffer(home, i * step, j * step);
  }

  lemma SlotsDiffer(home: nat, a: nat, b: nat)
    requires a < b <= 49
    ensures (home + a) % MAX_TRACKED != (home + b) % MAX_TRACKED
  {
  }

  lemma SmallStep(i: nat, step: nat)
    requires i < PROBES && step <= 7
    ensures i * step <= 49
  {
  }

  // A position of the filter: which of its four words, and the bit in it.
  function Bit(x: nat): (b: nat)
    ensures b < 256
  {
    (x / 64) % 4 * 64 + x % 64
  }

  function SubBits(hs: Hashes, sub: Name): set<nat> {
    var h1 := hs.fnv(sub);
    {Bit(h1), Bit((h1 + hs.mix(h1)) % TWO_64)}
  }

  // The filter after recording subs, and how many of them it counted.
  function Bits(hs: Hashes, subs: seq<Name>): set<nat> {
    if subs == [] then {} else Bits(hs, subs[..|subs| - 1]) + SubBits(hs, subs[|subs| - 1])
  }

  function Estimate(hs: Hashes, subs: seq<Name>): nat {
    if subs == [] then 0
    else
      Estimate(hs, subs[..|subs| - 1]) +
      (if SubBits(hs, subs[|subs| - 1]) <= Bits(hs, subs[..|subs| - 1]) then 0 else 1)
  }

  // A subdomain's two positions among 256: its hash, and its hash moved on by
  // the mixed one, as 64-bit sums.
  predicate Positioned(hs: Hashes, sub: Name, b: nat) {
    b == hs.fnv(sub) % 256 || b == (hs.fnv(sub) + hs.mix(hs.fnv(sub))) % 0x1_0000_0000_0000_0000 % 256
  }

  lemma BitIsLowByte(x: nat)
    ensures Bit(x) == x % 256
  {
    var q := x / 64;
    assert x == 64 * q + x % 64 && q == 4 * (q / 4) + q % 4;
    assert x == 256 * (q / 4) + (64 * (q % 4) + x % 64);
  }

  lemma {:induction false} BitsArePositions(hs: Hashes, subs: seq<Name>, b: nat)
    ensures b in Bits(hs, subs) <==> exists i :: 0 <= i < |subs| && Positioned(hs, subs[i], b)
  {
    if subs != [] {
      var p, x := subs[..|subs| - 1], subs[|subs| - 1];
      BitsArePositions(hs, p, b);
      BitIsLowByte(hs.fnv(x));
      BitIsLowByte((hs.fnv(x) + hs.mix(hs.fnv(x))) % TWO_64);
      assert forall i :: 0 <= i < |p| ==> p[i] == subs[i];
      hide Bit;
      assert b in SubBits(hs, x) <==> Positioned(hs, x, b);
      assert subs[|p|] == x;
    }
  }

  // A subdomain is counted exactly when it has a position that none before
  // it has.
  lemma CountedIff(hs: Hashes, subs: seq<Name>, sub: Name)
    ensures Estimate(hs, subs + [sub]) == Estimate(hs, subs) +
      if exists b: nat :: Positioned(hs, sub, b) && forall i :: 0 <= i < |subs| ==> !Positioned(hs, subs[i], b)
      then 1 else 0
  {
    assert (subs + [sub])[..|subs|] == subs;
    forall b: nat
      ensures b in SubBits(hs, sub) <==> Positioned(hs, sub, b)
    {
      BitsArePositions(hs, [sub], b);
      assert Bits(hs, [sub]) == Bits(hs, []) + SubBits(hs, sub) by {
        assert [sub][..0] == [];
      }
      assert [sub][0] == sub;
    }
    forall b: nat
      ensures b in Bits(hs, subs) <==> exists i :: 0 <= i < |subs| && Positioned(hs, subs[i], b)
    {
      BitsArePositions(hs, subs, b);
    }
    hide SubBits, Bits, Positioned;
  }

  function Distinct(subs: seq<Name>): set<Name> { set x | x in subs }

  lemma {:induction false} SeenBits(hs: Hashes, subs: seq<Name>, x: Name)
    requires x in subs
    ensures SubBits(hs, x) <= Bits(hs, subs)
  {
    var n := |subs| - 1;
    if x in subs[..n] {
      SeenBits(hs, subs[..n], x);
    } else {
      assert subs == subs[..n] + [subs[n]];
    }
  }

  // The estimate never exceeds the number of distinct subdomains.
  lemma {:induction false} EstimateAtMostDistinct(hs: Hashes, subs: seq<Name>)
    ensures Estimate(hs, subs) <= |Distinct(subs)|
    ensures Estimate(hs, subs) == 0 <==> subs == []
  {
    if subs != [] {
      var n := |subs| - 1;
      var p, x := subs[..n], subs[n];
      hide SubBits, Bits, Distinct;
      EstimateAtMostDistinct(hs, p);
      DistinctNext(p, x);
      assert subs == p + [x];
      if x in p {
        SeenBits(hs, p, x);
      }
      FirstIsCounted(hs, x);
    }
  }

  lemma DistinctNext(p: seq<Name>, x: Name)
    ensures |Distinct(p + [x])| == |Distinct(p)| + if x in p then 0 else 1
  {
    assert Distinct(p + [x]) == Distinct(p) + {x};
  }

  lemma FirstIsCounted(hs: Hashes, x: Name)
    ensures !(SubBits(hs, x) <= Bits(hs, []))
  {
    assert Bit(hs.fnv(x)) in SubBits(hs, x);
  }

  // Every count sets one or two new bits, so it stays far below 65536.
  lemma {:induction false} EstimateWithinBits(hs: Hashes, subs: seq<Name>)
    ensures Estimate(hs, subs) <= |Bits(hs, subs)| <= 2 * Estimate(hs, subs)
    ensures forall b :: b in Bits(hs, subs) ==> b < 256
    ensures Estimate(hs, subs) <= 256
  {
    hide SubBits, Bit;
    if subs != [] {
      var n := |subs| - 1;
      EstimateWithinBits(hs, subs[..n]);
      AddedBits(Bits(hs, subs[..n]), hs, subs[n]);
    }
    SubsetSize(Bits(hs, subs), UpTo(256));
  }

  lemma AddedBits(before: set<nat>, hs: Hashes, sub: Name)
    ensures forall b :: b in SubBits(hs, sub) ==> b < 256
    ensures SubBits(hs, sub) <= before ==> before + SubBits(hs, sub) == before
    ensures !(SubBits(hs, sub) <= before) ==> |before| + 1 <= |before + SubBits(hs, sub)| <= |before| + 2
  {
    var h1 := hs.fnv(sub);
    var a, b := Bit(h1), Bit((h1 + hs.mix(h1)) % TWO_64);
    assert SubBits(hs, sub) == {a, b};
    assert before + {a, b} == before + {a} + {b};
    AddOne(before, a);
    AddOne(before + {a}, b);
    assert {a, b} <= before <==> a in before && b in before;
  }

  lemma AddOne(s: set<nat>, x: nat)
    ensures |s + {x}| == |s| + if x in s then 0 else 1
  {
    if x in s {
      assert s + {x} == s;
    }
  }

  predicate Nondecreasing(s: seq<nat>) {
    forall i, j :: 0 <= i < j < |s| ==> s[i] <= s[j]
  }

  // The ring holds the last 16 of the instants.
  predicate RingHolds(d: DomainTrack, times: seq<nat>) {
    && |d.timestamps| == WINDOW
    && d.head == |times| % WINDOW
    && d.queryCount == Min(|times|, WINDOW)
    && forall k :: 0 <= k < |times| && |times| - WINDOW <= k ==> d.timestamps[k % WINDOW] == times[k]
  }

  predicate Tracks(hs: Hashes, d: DomainTrack, h: History) {
    && h.times != [] && Nondecreasing(h.times) && d.lastSeen == h.times[|h.times| - 1]
    && RingHolds(d, h.times)
    && d.bloom == Bits(hs, h.subs) && d.uniqueSubdomains == Estimate(hs, h.subs)
  }

  // The history after one more query; a clock that goes back, or an hour of
  // silence, starts it again.
  predicate Expired(lastSeen: nat, now: nat) { now < lastSeen || now - lastSeen >= MAX_INACTIVITY }

  function Began(sub: Name, now: nat): History { History([now], if sub == [] then [] else [sub]) }

  function Continued(h: History, sub: Name, now: nat): History
    requires h.times != []
  {
    if Expired(h.times[|h.times| - 1], now) then Began(sub, now)
    else History(h.times + [now], if sub == [] then h.subs else h.subs + [sub])
  }

  lemma RingTakes(d: DomainTrack, times: seq<nat>, now: nat)
    requires RingHolds(d, times)
    ensures RingHolds(d.(timestamps := d.timestamps[d.head := now], head := (d.head + 1) % WINDOW,
                         queryCount := if d.queryCount < WINDOW then d.queryCount + 1 else d.queryCount), times + [now])
  {
    var n := |times|;
    var ring, times' := d.timestamps[d.head := now], times + [now];
    NextHead(n);
    forall k | 0 <= k <= n && n + 1 - WINDOW <= k
      ensures ring[k % WINDOW] == times'[k]
    {
      SameHead(k, n);
    }
  }

  lemma NextHead(n: nat)
    ensures (n % WINDOW + 1) % WINDOW == (n + 1) % WINDOW
  {
  }

  lemma SameHead(k: nat, n: nat)
    ensures n - WINDOW < k < n ==> k % WINDOW != n % WINDOW
  {
  }

  // calculateJitter: the window put back in chronological order.
  method Reconstituer(hs: Hashes, d: DomainTrack, ghost h: History) returns (ts: seq<nat>)
    requires Tracks(hs, d, h)
    ensures ts == h.times[|h.times| - Min(|h.times|, WINDOW)..] && Nondecreasing(ts)
  {
    Counted(d, h.times);
    LastOnes(h.times, d.queryCount);
    hide Bits, Estimate, RingHolds, Nondecreasing, Tracks, Instant;
    var n := d.queryCount;
    ts := [];
    for i := 0 to n
      invariant ts == h.times[|h.times| - n..|h.times| - n + i]
    {
      NextInstant(d, h.times, i);
      ts := ts + [d.timestamps[Instant(d, i)]];
    }
  }

  // Where the ring holds the i-th of its instants, oldest first.
  function Instant(d: DomainTrack, i: nat): int { (d.head - d.queryCount + i + WINDOW) % WINDOW }

  lemma NextInstant(d: DomainTrack, times: seq<nat>, i: nat)
    requires RingHolds(d, times) && i < d.queryCount
    ensures 0 <= Instant(d, i) < |d.timestamps|
    ensures var lo := |times| - d.queryCount;
      times[lo..lo + i + 1] == times[lo..lo + i] + [d.timestamps[Instant(d, i)]]
  {
    RingIndex(|times|, d.queryCount, i);
  }

  lemma LastOnes(times: seq<nat>, n: nat)
    requires Nondecreasing(times) && n <= |times|
    ensures Nondecreasing(times[|times| - n..])
  {
  }

  lemma RingIndex(len: nat, n: nat, i: nat)
    requires n == Min(len, WINDOW) && i < n
    ensures 0 <= len % WINDOW - n + i + WINDOW
    ensures (len % WINDOW - n + i + WINDOW) % WINDOW == (len - n + i) % WINDOW
  {
    var q := len / WINDOW;
    assert len == q * WINDOW + len % WINDOW;
    assert len - n + i == (len % WINDOW - n + i + WINDOW) + (q - 1) * WINDOW;
    SameRemainder(len % WINDOW - n + i + WINDOW, q - 1);
  }

  lemma SameRemainder(x: nat, q: int)
    requires x + q * WINDOW >= 0
    ensures (x + q * WINDOW) % WINDOW == x % WINDOW
  {
  }

  predicate Occupied(d: DomainTrack) { d.domain != [] }

  ghost predicate WellPlaced(hs: Hashes, t: seq<DomainTrack>) {
    forall i :: 0 <= i < |t| && Occupied(t[i]) ==>
      |t[i].domain| <= MAX_NAME && t[i].domainHash == hs.fnv(t[i].domain) && InProbe(hs, t[i].domain, i)
  }

  predicate OnceEach(t: seq<DomainTrack>) {
    forall i, j :: 0 <= i < j < |t| && Occupied(t[i]) && Occupied(t[j]) ==> t[i].domain != t[j].domain
  }

  ghost predicate HasSlot(t: seq<DomainTrack>, d: Name) {
    exists i :: 0 <= i < |t| && t[i].domain == d
  }

  // The table is the map held: each of its domains in one slot of its probe
  // sequence, which tracks its history.
  ghost predicate Refines(hs: Hashes, t: seq<DomainTrack>, held: map<Name, History>) {
    && |t| == MAX_TRACKED && WellPlaced(hs, t) && OnceEach(t)
    && (forall i :: 0 <= i < |t| && Occupied(t[i]) ==> t[i].domain in held && Tracks(hs, t[i], held[t[i].domain]))
    && forall d :: d in held ==> d != [] && HasSlot(t, d)
  }

  predicate ValidName(d: Name) { 0 < |d| <= MAX_NAME }

  // A slot that may be taken over without losing an active history.
  predicate Recyclable(d: DomainTrack, now: nat) {
    !Occupied(d) || (now >= d.lastSeen && now - d.lastSeen >= MAX_INACTIVITY)
  }

  // Every probe of d is an active history of another domain.
  ghost predicate Crowded(hs: Hashes, t: seq<DomainTrack>, d: Name, now: nat) {
    |t| == MAX_TRACKED && forall i :: 0 <= i < PROBES ==> !Recyclable(t[Probe(hs, d, i)], now)
  }

  lemma StoreKeepsTable(hs: Hashes, t: seq<DomainTrack>, held: map<Name, History>, p: nat, d: DomainTrack, h: History)
    requires Refines(hs, t, held) && p < |t| && ValidName(d.domain)
    requires d.domainHash == hs.fnv(d.domain) && InProbe(hs, d.domain, p) && Tracks(hs, d, h)
    requires forall i :: 0 <= i < |t| && i != p ==> t[i].domain != d.domain
    ensures Refines(hs, t[p := d], (held - {t[p].domain})[d.domain := h])
  {
    hide InProbe, Tracks;
    var t', held' := t[p := d], (held - {t[p].domain})[d.domain := h];
    forall i | 0 <= i < |t'| && Occupied(t'[i])
      ensures t'[i].domain in held' && Tracks(hs, t'[i], held'[t'[i].domain])
    {
      assert i != p && Occupied(t[p]) ==> t[i].domain != t[p].domain;
    }
    forall x | x in held'
      ensures x != [] && HasSlot(t', x)
    {
      if x == d.domain {
        assert t'[p].domain == x;
      } else {
        assert HasSlot(t, x);
        var i :| 0 <= i < |t| && t[i].domain == x;
        assert t'[i].domain == x;
      }
    }
  }

  // None of the probes holds the domain: it is not in the table at all.
  lemma NotProbedMeansAbsent(hs: Hashes, t: seq<DomainTrack>, held: map<Name, History>, d: Name)
    requires Refines(hs, t, held) && d != []
    requires forall i :: 0 <= i < PROBES ==> t[Probe(hs, d, i)].domain != d
    ensures d !in held && forall i :: 0 <= i < |t| ==> t[i].domain != d
  {
    hide Probe, Tracks;
    forall i | 0 <= i < |t|
      ensures t[i].domain != d
    {
      NotInAProbe(hs, t, d, i);
    }
    assert !HasSlot(t, d);
  }

  lemma NotInAProbe(hs: Hashes, t: seq<DomainTrack>, d: Name, p: nat)
    requires |t| == MAX_TRACKED && p < |t|
    requires forall i :: 0 <= i < PROBES ==> t[Probe(hs, d, i)].domain != d
    ensures InProbe(hs, d, p) ==> t[p].domain != d
  {
  }

  // Slot p is the first of the probes that may be reused.
  predicate FirstReusableAt(hs: Hashes, t: seq<DomainTrack>, d: Name, now: nat, p: nat, i: nat)
    requires |t| == MAX_TRACKED
  {
    && i < PROBES && Probe(hs, d, i) == p && Recyclable(t[p], now)
    && forall j :: 0 <= j < i ==> !Recyclable(t[Probe(hs, d, j)], now)
  }

  ghost predicate FirstReusable(hs: Hashes, t: seq<DomainTrack>, d: Name, now: nat, p: nat) {
    |t| == MAX_TRACKED && exists i :: FirstReusableAt(hs, t, d, now, p, i)
  }

  // Slot p is the first of the probes whose last query is the oldest.
  predicate FirstOldestAt(hs: Hashes, t: seq<DomainTrack>, d: Name, p: nat, i: nat)
    requires |t| == MAX_TRACKED
  {
    && i < PROBES && Probe(hs, d, i) == p
    && (forall j :: 0 <= j < PROBES ==> t[p].lastSeen <= t[Probe(hs, d, j)].lastSeen)
    && forall j :: 0 <= j < i ==> t[p].lastSeen < t[Probe(hs, d, j)].lastSeen
  }

  ghost predicate FirstOldest(hs: Hashes, t: seq<DomainTrack>, d: Name, p: nat) {
    |t| == MAX_TRACKED && exists i :: FirstOldestAt(hs, t, d, p, i)
  }

  // The slot that a domain not in the table takes.
  ghost predicate TakesOver(hs: Hashes, t: seq<DomainTrack>, d: Name, now: nat, p: nat) {
    && p < |t|
    && if Crowded(hs, t, d, now) then FirstOldest(hs, t, d, p) else FirstReusable(hs, t, d, now, p)
  }

  class TemporalTracker {
    const hs: Hashes
    const slots: array<DomainTrack>
    var evictions: nat
    // The histories that the table stands for.
    ghost var held: map<Name, History>

    ghost predicate Valid()
      reads this, slots
    {
      slots.Length == MAX_TRACKED && Refines(hs, slots[..], held)
    }

    constructor (hs: Hashes)
      ensures Valid() && held == map[] && evictions == 0 && fresh(slots) && this.hs == hs
    {
      this.hs := hs;
      slots := new DomainTrack[MAX_TRACKED](_ => FREE);
      evictions, held := 0, map[];
    }

    // Where the probes find the domain, or the slot it is to take.
    method Chercher(d: Name, now: nat) returns (slot: Option<nat>, recyclable: Option<nat>, victim: nat)
      requires Valid() && ValidName(d)
      ensures victim < MAX_TRACKED
      ensures slot.Some? ==> slot.value < MAX_TRACKED && slots[slot.value].domain == d
      ensures recyclable.Some? ==> recyclable.value < MAX_TRACKED
      ensures slot.Some? <==> d in held
      ensures slot.None? ==> forall i :: 0 <= i < MAX_TRACKED ==> slots[i].domain != d
      ensures slot.None? ==> (recyclable.None? <==> Crowded(hs, slots[..], d, now))
      ensures slot.None? && recyclable.Some? ==> FirstReusable(hs, slots[..], d, now, recyclable.value)
      ensures slot.None? ==> FirstOldest(hs, slots[..], d, victim)
    {
      hide Probe, Tracks, Recyclable, Refines;
      slot, recyclable, victim := None, None, Probe(hs, d, 0);
      ghost var t := slots[..];
      ghost var r, v := 0, 0;
      for i := 0 to PROBES
        invariant slots[..] == t
        invariant recyclable.None? ==> forall j :: 0 <= j < i ==> !Recyclable(t[Probe(hs, d, j)], now)
        invariant recyclable.Some? ==> recyclable.value < MAX_TRACKED
        invariant recyclable.Some? ==> FirstReusableAt(hs, t, d, now, recyclable.value, r)
        invariant victim < MAX_TRACKED && v < PROBES && Probe(hs, d, v) == victim
        invariant forall j :: 0 <= j < i ==> t[victim].lastSeen <= t[Probe(hs, d, j)].lastSeen
        invariant forall j :: 0 <= j < v ==> t[victim].lastSeen < t[Probe(hs, d, j)].lastSeen
        invariant forall j :: 0 <= j < i ==> t[Probe(hs, d, j)].domain != d
      {
        var p := Probe(hs, d, i);
        Placed(hs, t, held, p);
        if slots[p].domain != [] && slots[p].domainHash == hs.fnv(d) && slots[p].domain == d {
          slot := Some(p);
          return;
        }
        if recyclable.None? && Recyclable(slots[p], now) {
          recyclable, r := Some(p), i;
        }
        if slots[p].lastSeen < slots[victim].lastSeen {
          victim, v := p, i;
        }
      }
      assert FirstOldestAt(hs, t, d, victim, v);
      NotProbedMeansAbsent(hs, t, held, d);
    }

    // One query written into its slot.
    method Enregistrer(p: nat, sub: Name, now: nat, ghost before: Option<History>)
      requires p < slots.Length
      requires before.Some? ==> Tracks(hs, slots[p], before.value)
      requires before.None? ==> Follows(hs, slots[p], History([], []))
      modifies slots
      ensures slots[..] == old(slots[..])[p := slots[p]]
      ensures slots[p].domain == old(slots[p]).domain && slots[p].domainHash == old(slots[p]).domainHash
      ensures Tracks(hs, slots[p], After(before, sub, now))
    {
      hide SubBits, Bits, Estimate, RingHolds;
      var d := slots[p];
      ghost var h := if before.Some? then before.value else History([], []);
      Counted(d, h.times);
      Blank(hs);
      if d.queryCount > 0 && Expired(d.lastSeen, now) {
        d := d.(head := 0, queryCount := 0, lastSeen := 0, bloom := {}, uniqueSubdomains := 0);
        h := History([], []);
        Reset(hs, d);
      }
      Counted(d, h.times);
      StampFollows(hs, d, h, now);
      d := Stamped(d, now);
      h := History(h.times + [now], h.subs);
      if |sub| > 0 {
        SubFollows(hs, d, h, sub);
        if !(SubBits(hs, sub) <= d.bloom) {
          d := d.(bloom := d.bloom + SubBits(hs, sub), uniqueSubdomains := d.uniqueSubdomains + 1);
        }
        h := History(h.times, h.subs + [sub]);
      }
      assert [] + [now] == [now] && [] + [sub] == [sub];
      assert h == After(before, sub, now);
      slots[p] := d;
    }

    // RecordQuery; lost is the history that made room, if one had to.
    method RecordQuery(parent: Name, sub: Name, now: nat)
      returns (fenetre: Option<seq<nat>>, uniqueSubs: nat, queryCount: nat, ghost lost: Option<Name>)
      requires Valid()
      modifies this, slots
      ensures Valid()
      ensures !ValidName(parent) ==>
        held == old(held) && evictions == old(evictions) && uniqueSubs == 0 && queryCount == 0 && fenetre.None?
      ensures ValidName(parent) ==>
        && (parent in old(held) ==> old(held)[parent].times != [])
        && held == (old(held) - if lost.Some? then {lost.value} else {})
             [parent := After(Lookup(old(held), parent), sub, now)]
        && uniqueSubs == Estimate(hs, held[parent].subs)
        && queryCount == Min(|held[parent].times|, WINDOW)
        && fenetre == (if queryCount >= 4 then Some(LastInstants(held[parent])) else None)
      ensures lost.Some? ==> ValidName(parent) && parent !in old(held) && lost.value in old(held)
      ensures ValidName(parent) && parent !in old(held) ==>
        exists p: nat :: TakesOver(hs, old(slots[..]), parent, now, p) && lost == Displaced(old(slots[..])[p])
      ensures ValidName(parent) && parent !in old(held) && Crowded(hs, old(slots[..]), parent, now) ==>
        evictions == old(evictions) + 1 && lost.Some?
      ensures parent in old(held) || !Crowded(hs, old(slots[..]), parent, now) ==>
        evictions == old(evictions) && (lost.Some? ==> Silent(old(held)[lost.value], now))
    {
      hide Probe, InProbe, Tracks, Refines, Estimate, Bits, After, RingHolds, Crowded, StepOf, Displaced, Silent;
      hide FirstReusable, FirstOldest;
      lost := None;
      if !ValidName(parent) {
        return None, 0, 0, None;
      }
      ghost var t, held0 := slots[..], held;
      var slot, recyclable, victim := Chercher(parent, now);
      var p;
      if slot.Some? {
        p := slot.value;
        KnownSlot(hs, t, held, p);
        Enregistrer(p, sub, now, Some(held[parent]));
      } else {
        if recyclable.Some? {
          p := recyclable.value;
        } else {
          p := victim;
          evictions := evictions + 1;
        }
        lost := Displaced(t[p]);
        TakenOver(hs, t, held, p, parent, now);
        slots[p] := FREE.(domainHash := hs.fnv(parent), domain := parent);
        Blank(hs);
        Reset(hs, slots[p]);
        Enregistrer(p, sub, now, None);
      }
      ghost var h := After(Lookup(held, parent), sub, now);
      StoreKeepsTable(hs, t, held, p, slots[p], h);
      held := (held - {t[p].domain})[parent := h];
      assert slots[..] == t[p := slots[p]];
      var window := Reconstituer(hs, slots[p], h);
      TrackedCounts(hs, slots[p], h);
      fenetre := if slots[p].queryCount >= 4 then Some(window) else None;
      uniqueSubs, queryCount := slots[p].uniqueSubdomains, slots[p].queryCount;
    }
  }

  ghost function Displaced(d: DomainTrack): Option<Name> {
    if Occupied(d) then Some(d.domain) else None
  }

  // Nothing was recorded for an hour, by a clock that did not go back.
  predicate Silent(h: History, now: nat) {
    h.times != [] && now >= h.times[|h.times| - 1] + MAX_INACTIVITY
  }

  lemma KnownSlot(hs: Hashes, t: seq<DomainTrack>, held: map<Name, History>, p: nat)
    requires Refines(hs, t, held) && p < |t| && Occupied(t[p])
    ensures t[p].domain in held && Tracks(hs, t[p], held[t[p].domain]) && held[t[p].domain].times != []
    ensures t[p].domainHash == hs.fnv(t[p].domain) && InProbe(hs, t[p].domain, p)
    ensures forall i :: 0 <= i < |t| && i != p ==> t[i].domain != t[p].domain
    ensures |t[p].domain| <= MAX_NAME
    ensures held - {} == held
  {
    hide InProbe, RingHolds, Bits, Estimate;
  }

  // Taking over a slot loses at most the history it tracked.
  lemma TakenOver(hs: Hashes, t: seq<DomainTrack>, held: map<Name, History>, p: nat, d: Name, now: nat)
    requires Refines(hs, t, held) && TakesOver(hs, t, d, now, p)
    ensures InProbe(hs, d, p)
    ensures var lost := Displaced(t[p]);
      && held - {t[p].domain} == held - (if lost.Some? then {lost.value} else {})
      && (lost.Some? ==> lost.value in held)
      && (lost.Some? && !Crowded(hs, t, d, now) ==> Silent(held[lost.value], now))
      && (Crowded(hs, t, d, now) ==> lost.Some?)
  {
    hide RingHolds, Bits, Estimate, Probe;
    Placed(hs, t, held, p);
  }

  // What a slot tracks, a history with nothing in it included.
  predicate Follows(hs: Hashes, d: DomainTrack, h: History) {
    && Nondecreasing(h.times) && RingHolds(d, h.times)
    && d.bloom == Bits(hs, h.subs) && d.uniqueSubdomains == Estimate(hs, h.subs)
  }

  lemma StampFollows(hs: Hashes, d: DomainTrack, h: History, now: nat)
    requires Follows(hs, d, h) && (h.times != [] ==> h.times[|h.times| - 1] <= now)
    ensures Follows(hs, Stamped(d, now), History(h.times + [now], h.subs))
    ensures Stamped(d, now).lastSeen == now
  {
    hide Bits, Estimate;
    RingTakes(d, h.times, now);
  }

  // One instant written at the head of the ring.
  function Stamped(d: DomainTrack, now: nat): DomainTrack
    requires d.head < |d.timestamps|
  {
    d.(timestamps := d.timestamps[d.head := now], head := (d.head + 1) % WINDOW,
       queryCount := if d.queryCount < WINDOW then d.queryCount + 1 else d.queryCount, lastSeen := now)
  }

  lemma SubFollows(hs: Hashes, d: DomainTrack, h: History, sub: Name)
    requires Follows(hs, d, h)
    ensures !(SubBits(hs, sub) <= d.bloom) ==>
      Follows(hs, d.(bloom := d.bloom + SubBits(hs, sub), uniqueSubdomains := d.uniqueSubdomains + 1),
              History(h.times, h.subs + [sub]))
    ensures SubBits(hs, sub) <= d.bloom ==> Follows(hs, d, History(h.times, h.subs + [sub]))
  {
    assert (h.subs + [sub])[..|h.subs|] == h.subs;
    hide SubBits, RingHolds;
    if SubBits(hs, sub) <= d.bloom {
      assert d.bloom + SubBits(hs, sub) == d.bloom;
    }
  }

  // The history of a domain after one more query.
  function After(before: Option<History>, sub: Name, now: nat): History
    requires before.Some? ==> before.value.times != []
  {
    if before.None? then Began(sub, now) else Continued(before.value, sub, now)
  }

  // A history goes on while its queries are less than an hour apart, and
  // begins again otherwise; empty subdomains are not part of it.
  lemma GoesOnIff(before: Option<History>, sub: Name, now: nat)
    requires before.Some? ==> before.value.times != []
    ensures var h, subs := After(before, sub, now), if sub == [] then [] else [sub];
      if before.Some? && before.value.times[|before.value.times| - 1] <= now
           < before.value.times[|before.value.times| - 1] + 3600
      then h.times == before.value.times + [now] && h.subs == before.value.subs + subs
      else h.times == [now] && h.subs == subs
  {
  }

  function Lookup(held: map<Name, History>, d: Name): Option<History> {
    if d in held then Some(held[d]) else None
  }

  // The window as the source hands it to its jitter computation.
  function LastInstants(h: History): seq<nat> { h.times[|h.times| - Min(|h.times|, WINDOW)..] }

  lemma Counted(d: DomainTrack, times: seq<nat>)
    ensures RingHolds(d, times) ==>
      && (d.queryCount > 0 <==> times != [])
      && |d.timestamps| == WINDOW && d.head < WINDOW
      && d.queryCount == Min(|times|, WINDOW)
  {
  }

  lemma TrackedCounts(hs: Hashes, d: DomainTrack, h: History)
    requires Tracks(hs, d, h)
    ensures d.uniqueSubdomains == Estimate(hs, h.subs) && d.queryCount == Min(|h.times|, WINDOW)
  {
  }

  lemma Blank(hs: Hashes)
    ensures Bits(hs, []) == {} && Estimate(hs, []) == 0
  {
  }

  lemma Reset(hs: Hashes, d: DomainTrack)
    ensures |d.timestamps| == WINDOW && d.head == d.queryCount == d.uniqueSubdomains == 0 && d.bloom == {} ==>
      Follows(hs, d, History([], []))
  {
  }

  lemma Placed(hs: Hashes, t: seq<DomainTrack>, held: map<Name, History>, p: nat)
    requires Refines(hs, t, held) && p < |t|
    ensures Occupied(t[p]) ==> t[p].domain in held && Tracks(hs, t[p], held[t[p].domain])
    ensures Occupied(t[p]) ==> t[p].domainHash == hs.fnv(t[p].domain) && InProbe(hs, t[p].domain, p)
    ensures Occupied(t[p]) ==> forall i :: 0 <= i < |t| && i != p ==> t[i].domain != t[p].domain
  {
    hide Tracks, InProbe;
  }
}
