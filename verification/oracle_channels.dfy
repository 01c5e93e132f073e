// Each channel of the slice is a reservoir: in a stream of one severity, every
// place of a full slice holds the last entry whose word fell on it.

module OracleChannels {
  import opened OracleSlice

  function ChannelOf(s: Slice, high: bool): seq<Entry> { if high then s.priority else s.normal }

  function SeenBy(s: Slice, high: bool): nat { if high then s.prioritySeen else s.normalSeen }

  predicate OneKind(es: seq<Entry>, high: bool) {
    forall e :: e in es ==> IsHigh(e) == high
  }

  // The place that the word drawn for the n-th arrival falls on, among as many
  // as the channel has seen since the day was opened.
  function Fell(draw: Draw, origin: Slice, high: bool, n: nat): (p: nat)
    requires n >= MAX_VECTORS
  {
    Below(draw, origin.sampler.(drawn := origin.sampler.drawn + (n - MAX_VECTORS)), SeenBy(origin, high) + n + 1)
  }

  predicate NoneFell(draw: Draw, origin: Slice, high: bool, p: nat, from: nat, len: nat)
    requires from >= MAX_VECTORS
  {
    forall n :: from <= n < len ==> Fell(draw, origin, high, n) != p
  }

  predicate IsReservoirOf(draw: Draw, origin: Slice, high: bool, es: seq<Entry>, held: seq<Entry>)
    requires |es| >= MAX_VECTORS
  {
    && |held| == MAX_VECTORS
    && (forall p :: 0 <= p < MAX_VECTORS && NoneFell(draw, origin, high, p, MAX_VECTORS, |es|) ==> held[p] == es[p])
    && forall n :: MAX_VECTORS <= n < |es| && Fell(draw, origin, high, n) < MAX_VECTORS
                   && NoneFell(draw, origin, high, Fell(draw, origin, high, n), n + 1, |es|) ==>
         held[Fell(draw, origin, high, n)] == es[n]
  }

  lemma ReservoirIsFull(draw: Draw, origin: Slice, high: bool, es: seq<Entry>, held: seq<Entry>)
    requires |es| >= MAX_VECTORS && IsReservoirOf(draw, origin, high, es, held)
    ensures |held| == MAX_VECTORS
  {
  }

  lemma {:induction false} OneKindCounts(es: seq<Entry>, high: bool)
    requires OneKind(es, high)
    ensures HighOf(es) == (if high then es else []) && LowOf(es) == if high then [] else es
  {
    hide IsHigh;
    if es != [] {
      var p, e := es[..|es| - 1], es[|es| - 1];
      assert es == p + [e] && e in es;
      OneKindCounts(p, high);
    }
  }

  // How many of each kind came, and how many words were drawn.
  lemma {:induction false} Counted(draw: Draw, origin: Slice, es: seq<Entry>)
    requires IsEmpty(origin)
    ensures var s := OfferAll(draw, origin, es);
      && s.prioritySeen == origin.prioritySeen + |HighOf(es)|
      && s.normalSeen == origin.normalSeen + |LowOf(es)|
      && s.sampler.seed == origin.sampler.seed
      && s.sampler.drawn - origin.sampler.drawn == s.dropped - origin.dropped
      && s.dropped == origin.dropped + if |es| <= MAX_VECTORS then 0 else |es| - MAX_VECTORS
  {
    if es != [] {
      var p, e := es[..|es| - 1], es[|es| - 1];
      Counted(draw, origin, p);
      EveryStream(draw, origin, p);
      CountOne(draw, origin, p, OfferAll(draw, origin, p), e);
    }
  }

  lemma CountOne(draw: Draw, origin: Slice, es: seq<Entry>, s: Slice, e: Entry)
    requires SliceInv(origin, es, s)
    ensures var t := Offer(draw, s, e);
      && t.prioritySeen == s.prioritySeen + (if IsHigh(e) then 1 else 0)
      && t.normalSeen == s.normalSeen + (if IsHigh(e) then 0 else 1)
      && t.sampler.seed == s.sampler.seed
      && t.sampler.drawn - s.sampler.drawn == t.dropped - s.dropped == if Held(s) < MAX_VECTORS then 0 else 1
  {
    hide Below, IsHigh;
  }

  // One arrival at a full slice of its own kind.
  lemma Replaces(draw: Draw, s: Slice, e: Entry)
    requires Held(s) >= MAX_VECTORS && ChannelOf(s, !IsHigh(e)) == []
    ensures var c, j := ChannelOf(s, IsHigh(e)), Below(draw, s.sampler, SeenBy(s, IsHigh(e)) + 1);
      ChannelOf(Offer(draw, s, e), IsHigh(e)) == if j < |c| then c[j := e] else c
  {
    hide Below;
  }

  lemma NextArrival(draw: Draw, origin: Slice, high: bool, es: seq<Entry>, e: Entry, held: seq<Entry>)
    requires |es| >= MAX_VECTORS && IsReservoirOf(draw, origin, high, es, held)
    ensures var j := Fell(draw, origin, high, |es|);
      IsReservoirOf(draw, origin, high, es + [e], if j < |held| then held[j := e] else held)
  {
    hide Fell;
    var n := |es|;
    var j := Fell(draw, origin, high, n);
    var r := if j < |held| then held[j := e] else held;
    forall p | 0 <= p < MAX_VECTORS && NoneFell(draw, origin, high, p, MAX_VECTORS, n + 1)
      ensures r[p] == (es + [e])[p]
    {
      assert NoneFell(draw, origin, high, p, MAX_VECTORS, n);
    }
    forall m | MAX_VECTORS <= m < n + 1 && Fell(draw, origin, high, m) < MAX_VECTORS
               && NoneFell(draw, origin, high, Fell(draw, origin, high, m), m + 1, n + 1)
      ensures r[Fell(draw, origin, high, m)] == (es + [e])[m]
    {
      assert m < n ==> NoneFell(draw, origin, high, Fell(draw, origin, high, m), m + 1, n);
    }
  }

  // What the channel of one kind says after all of es.
  predicate FullOf(draw: Draw, origin: Slice, high: bool, es: seq<Entry>, s: Slice)
    requires |es| >= MAX_VECTORS
  {
    && IsReservoirOf(draw, origin, high, es, ChannelOf(s, high)) && ChannelOf(s, !high) == []
    && SeenBy(s, high) == SeenBy(origin, high) + |es|
    && s.sampler == origin.sampler.(drawn := origin.sampler.drawn + (|es| - MAX_VECTORS))
  }

  lemma ChannelStep(draw: Draw, origin: Slice, es: seq<Entry>, s: Slice, e: Entry)
    requires |es| >= MAX_VECTORS && FullOf(draw, origin, IsHigh(e), es, s)
    ensures IsReservoirOf(draw, origin, IsHigh(e), es + [e], ChannelOf(Offer(draw, s, e), IsHigh(e)))
  {
    hide IsReservoirOf, Offer, Below, IsHigh;
    ReservoirIsFull(draw, origin, IsHigh(e), es, ChannelOf(s, IsHigh(e)));
    Replaces(draw, s, e);
    NextArrival(draw, origin, IsHigh(e), es, e, ChannelOf(s, IsHigh(e)));
  }

  // Algorithm R, for every stream of one severity and every random stream.
  lemma {:induction false} ChannelIsReservoir(draw: Draw, origin: Slice, es: seq<Entry>, high: bool)
    requires IsEmpty(origin) && OneKind(es, high) && |es| >= MAX_VECTORS
    ensures FullOf(draw, origin, high, es, OfferAll(draw, origin, es))
  {
    hide Offer, IsHigh, IsReservoirOf;
    OneKindHeld(draw, origin, es, high);
    if |es| > MAX_VECTORS {
      var p, e := es[..|es| - 1], es[|es| - 1];
      assert es == p + [e] && e in es;
      ChannelIsReservoir(draw, origin, p, high);
      ChannelStep(draw, origin, p, OfferAll(draw, origin, p), e);
    } else {
      NothingFell(draw, origin, high, es);
    }
  }

  lemma NothingFell(draw: Draw, origin: Slice, high: bool, es: seq<Entry>)
    requires |es| == MAX_VECTORS
    ensures IsReservoirOf(draw, origin, high, es, es)
  {
  }

  // A stream of one kind leaves the other channel empty; it is held as it
  // came while it fits.
  lemma OneKindHeld(draw: Draw, origin: Slice, es: seq<Entry>, high: bool)
    requires IsEmpty(origin) && OneKind(es, high) && |es| >= MAX_VECTORS
    ensures var s := OfferAll(draw, origin, es);
      && ChannelOf(s, !high) == []
      && (|es| == MAX_VECTORS ==> ChannelOf(s, high) == es)
      && SeenBy(s, high) == SeenBy(origin, high) + |es|
      && s.sampler == origin.sampler.(drawn := origin.sampler.drawn + (|es| - MAX_VECTORS))
  {
    hide OfferAll, IsHigh;
    EveryStream(draw, origin, es);
    Counted(draw, origin, es);
    OneKindCounts(es, high);
    OtherEmpty(origin, es, OfferAll(draw, origin, es), high);
  }

  lemma OtherEmpty(origin: Slice, es: seq<Entry>, s: Slice, high: bool)
    requires SliceInv(origin, es, s) && OneKind(es, high)
    ensures ChannelOf(s, !high) == []
  {
    HasMember(ChannelOf(s, !high));
  }

  lemma HasMember(c: seq<Entry>)
    ensures c != [] ==> exists x :: x in c
  {
    assert c != [] ==> c[0] in c;
  }
}
