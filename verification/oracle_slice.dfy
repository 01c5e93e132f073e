// The day slice held in memory (server_oracle_silo.go): two channels of
// bounded total size, one reservoir each, for every random stream.

module OracleSlice {
  import opened Numbers
  import opened Bytes

  const MAX_VECTORS: nat := 524288

  const SEVERITY_HIGH: nat := 3
  const DEGRADED_SCORE: nat := 700

  datatype Flag = Sealed | Degraded | Anomalies | Maintenance | Saturated | Keyed | Sampled

  // Two entries have the same 80-byte encoding exactly when they are equal:
  // every field has bytes of its own.
  datatype Entry = Entry(
    bitcode: seq<u64>, relativeSec: nat, subsystem: nat, healthScore: nat, severity: nat,
    correlatedCount: nat, flags: set<Flag>)

  predicate IsHigh(e: Entry) { e.severity >= SEVERITY_HIGH }

  predicate IsDegraded(e: Entry) { e.healthScore < DEGRADED_SCORE }

  // The n-th 64-bit word drawn under a seed: an arbitrary stream.
  type Draw = (u64, nat) -> u64

  datatype Sampler = Sampler(seed: u64, drawn: nat)

  // splitMix64.below: the high word of the 128-bit product.
  function Below(draw: Draw, g: Sampler, n: nat): (j: nat)
    requires n > 0
    ensures j < n
    ensures j * TWO_64 <= draw(g.seed, g.drawn) * n < (j + 1) * TWO_64
  {
    var x := draw(g.seed, g.drawn);
    HighWord(x, n, TWO_64);
    (x * n) / TWO_64
  }

  // The numbers below n share the words below m out in order, and evenly: the
  // j-th gets those from j * m / n on.
  lemma HighWord(x: nat, n: nat, m: nat)
    requires x < m && n > 0
    ensures (x * n) / m < n
    ensures (x * n) / m * m <= x * n < ((x * n) / m + 1) * m
  {
    var q := (x * n) / m;
    QuotientUnique(x * n, m, q);
    MulLe(x + 1, m, n);
    MulLe(n, q, m);
    MulNext(x, n);
  }

  // While n is not above m, each of them gets a word.
  lemma EveryNumberIsDrawn(j: nat, n: nat, m: nat)
    requires j < n <= m
    ensures var x := (j * m + n - 1) / n; x < m && (x * n) / m == j
  {
    var y := j * m + n - 1;
    var x := y / n;
    QuotientUnique(y, n, x);
    MulNext(x, n);
    MulNext(j, m);
    MulLe(j + 1, n, m);
    MulLe(m, x, n);
    QuotientUnique(x * n, m, j);
  }

  function Next(g: Sampler): Sampler { g.(drawn := g.drawn + 1) }

  datatype Slice = Slice(
    normal: seq<Entry>, priority: seq<Entry>, normalSeen: nat, prioritySeen: nat, observed: nat,
    droppedFlags: set<Flag>, dropped: nat, sampler: Sampler)

  function Held(s: Slice): nat { |s.normal| + |s.priority| }

  // One more entry offered to the slice.
  function Offer(draw: Draw, s: Slice, e: Entry): Slice {
    var seen := s.(observed := s.observed + 1,
                   prioritySeen := s.prioritySeen + if IsHigh(e) then 1 else 0,
                   normalSeen := s.normalSeen + if IsHigh(e) then 0 else 1);
    if Held(s) < MAX_VECTORS then
      if IsHigh(e) then seen.(priority := s.priority + [e]) else seen.(normal := s.normal + [e])
    else
      var full := seen.(droppedFlags := s.droppedFlags + {Saturated, Sampled} + e.flags, dropped := s.dropped + 1,
                        sampler := Next(s.sampler));
      if IsHigh(e) && |s.normal| > 0 then
        var j := Below(draw, s.sampler, |s.normal|);
        var last := |s.normal| - 1;
        full.(normal := s.normal[j := s.normal[last]][..last], priority := s.priority + [e])
      else if IsHigh(e) then
        var j := Below(draw, s.sampler, seen.prioritySeen);
        if j < |s.priority| then full.(priority := s.priority[j := e]) else full
      else
        var j := Below(draw, s.sampler, seen.normalSeen);
        if j < |s.normal| then full.(normal := s.normal[j := e]) else full
  }

  // A whole stream offered in order.
  function OfferAll(draw: Draw, s: Slice, es: seq<Entry>): Slice {
    if es == [] then s else Offer(draw, OfferAll(draw, s, es[..|es| - 1]), es[|es| - 1])
  }

  // A slice with nothing held: just opened, or just sealed.
  predicate IsEmpty(s: Slice) {
    s.normal == [] && s.priority == [] && s.observed == 0 && s.droppedFlags == {}
  }

  function HighOf(es: seq<Entry>): seq<Entry> {
    if es == [] then []
    else HighOf(es[..|es| - 1]) + if IsHigh(es[|es| - 1]) then [es[|es| - 1]] else []
  }

  function LowOf(es: seq<Entry>): seq<Entry> {
    if es == [] then []
    else LowOf(es[..|es| - 1]) + if IsHigh(es[|es| - 1]) then [] else [es[|es| - 1]]
  }

  // What holds of the slice after any stream, whatever was drawn.
  ghost predicate SliceInv(origin: Slice, es: seq<Entry>, s: Slice) {
    && Held(s) <= MAX_VECTORS
    && s.dropped >= origin.dropped
    && s.observed == |es| == Held(s) + (s.dropped - origin.dropped)
    && (forall e :: e in s.normal ==> e in es && !IsHigh(e))
    && (forall e :: e in s.priority ==> e in es && IsHigh(e))
    && (s.dropped == origin.dropped ==> s.normal == LowOf(es) && s.priority == HighOf(es) && s.droppedFlags == {})
    && (s.dropped > origin.dropped ==> {Saturated, Sampled} <= s.droppedFlags)
    && (|HighOf(es)| <= MAX_VECTORS ==> s.priority == HighOf(es))
    && (|HighOf(es)| > MAX_VECTORS ==> |s.priority| == MAX_VECTORS)
    && (forall f :: f in s.droppedFlags ==> f == Saturated || f == Sampled || exists e :: e in es && f in e.flags)
  }

  lemma OfferKeepsInv(draw: Draw, origin: Slice, es: seq<Entry>, s: Slice, e: Entry)
    requires SliceInv(origin, es, s)
    ensures SliceInv(origin, es + [e], Offer(draw, s, e))
  {
    if Held(s) < MAX_VECTORS {
      RoomKeepsInv(draw, origin, es, s, e);
    } else if IsHigh(e) {
      HighKeepsInv(draw, origin, es, s, e);
    } else {
      NormalKeepsInv(draw, origin, es, s, e);
    }
  }

  lemma OneMoreArrival(es: seq<Entry>, e: Entry)
    ensures HighOf(es + [e]) == HighOf(es) + if IsHigh(e) then [e] else []
    ensures LowOf(es + [e]) == LowOf(es) + if IsHigh(e) then [] else [e]
    ensures |HighOf(es)| <= |es|
  {
    assert (es + [e])[..|es|] == es;
    HighCount(es);
  }

  lemma RoomKeepsInv(draw: Draw, origin: Slice, es: seq<Entry>, s: Slice, e: Entry)
    requires SliceInv(origin, es, s) && Held(s) < MAX_VECTORS
    ensures SliceInv(origin, es + [e], Offer(draw, s, e))
  {
    hide Below, IsHigh, HighOf, LowOf;
    OneMoreArrival(es, e);
  }

  lemma HighKeepsInv(draw: Draw, origin: Slice, es: seq<Entry>, s: Slice, e: Entry)
    requires SliceInv(origin, es, s) && Held(s) >= MAX_VECTORS && IsHigh(e)
    ensures SliceInv(origin, es + [e], Offer(draw, s, e))
  {
    hide Below, HighOf, LowOf;
    OneMoreArrival(es, e);
  }

  lemma NormalKeepsInv(draw: Draw, origin: Slice, es: seq<Entry>, s: Slice, e: Entry)
    requires SliceInv(origin, es, s) && Held(s) >= MAX_VECTORS && !IsHigh(e)
    ensures SliceInv(origin, es + [e], Offer(draw, s, e))
  {
    hide Below, HighOf, LowOf;
    OneMoreArrival(es, e);
  }

  lemma {:induction false} HighCount(es: seq<Entry>)
    ensures |HighOf(es)| + |LowOf(es)| == |es|
  {
    if es != [] {
      HighCount(es[..|es| - 1]);
    }
  }

  lemma EmptyInv(origin: Slice)
    requires IsEmpty(origin)
    ensures SliceInv(origin, [], origin)
  {
  }

  // For every stream of entries and of random words: at most MAX_VECTORS
  // entries are held; observed = held + displaced; as long as no more than
  // MAX_VECTORS High or Critical entries arrived, all of them are held, in
  // order; and a slice that displaced nothing holds every entry.
  lemma {:induction false} EveryStream(draw: Draw, origin: Slice, es: seq<Entry>)
    requires IsEmpty(origin)
    ensures SliceInv(origin, es, OfferAll(draw, origin, es))
  {
    hide Offer, SliceInv;
    EmptyInv(origin);
    if es != [] {
      var p, e := es[..|es| - 1], es[|es| - 1];
      EveryStream(draw, origin, p);
      OfferKeepsInv(draw, origin, p, OfferAll(draw, origin, p), e);
      assert es == p + [e];
    }
  }

  // A High or Critical arrival always leaves a High or Critical entry held,
  // so its anomaly mark cannot be lost with a displaced entry.
  lemma HighLeavesAMark(draw: Draw, origin: Slice, es: seq<Entry>)
    requires IsEmpty(origin)
    ensures (exists e :: e in es && IsHigh(e)) <==> OfferAll(draw, origin, es).priority != []
  {
    EveryStream(draw, origin, es);
    HighMembers(es);
    assert OfferAll(draw, origin, es).priority != [] ==> OfferAll(draw, origin, es).priority[0] in es;
  }

  lemma {:induction false} HighMembers(es: seq<Entry>)
    ensures forall e :: e in HighOf(es) <==> e in es && IsHigh(e)
    ensures forall e :: e in LowOf(es) <==> e in es && !IsHigh(e)
    ensures (exists e :: e in es && IsHigh(e)) <==> HighOf(es) != []
  {
    if es != [] {
      HighMembers(es[..|es| - 1]);
      assert es == es[..|es| - 1] + [es[|es| - 1]];
    }
    assert HighOf(es) != [] ==> HighOf(es)[0] in HighOf(es);
  }
}
