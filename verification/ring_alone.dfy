// One side of the ring running while the other is idle: a producer's whole
// push is the push of sub_ring.dfy, a consumer's whole pop is its pop.

module RingAlone {
  import opened Numbers
  import opened Wrappers
  import opened RingInterleavings
  import opened R = SubRing

  function RingOf<T>(s: State<T>): Ring<T> { Ring(s.head, s.tail, s.drops, s.slots) }

  predicate ByProducer<T>(step: Step<T>) {
    step.LoadTail? || step.WriteSlot? || step.PublishHead? || step.CountDrops?
  }

  predicate ByConsumer<T>(step: Step<T>) { step.LoadHead? || step.CopySlot? || step.PublishTail? }

  // How far the push of evs has come since state s.
  ghost predicate Pushing<T>(s: State<T>, evs: seq<T>, t: State<T>)
    requires RingOk(RingOf(s))
  {
    var r := RingOf(s);
    var n := Min(|evs|, Room(r));
    && t.tail == s.tail && t.consumer == s.consumer && |t.slots| == R.SLOTS
    && match t.producer
       case HeadRead(e, h) => e == evs && h == s.head && RingOf(t) == r
       case Writing(e, h, m, i) =>
         && e == evs && h == s.head == t.head && m == n && i <= n && t.drops == s.drops
         && t.slots == PushMany(r, evs[..i]).slots
       case Counting(lost) =>
         && lost == |evs| - n && t.head == s.head + n && t.drops == s.drops
         && t.slots == PushMany(r, evs[..n]).slots
       case Ready => RingOf(t) == PushMany(r, evs)
  }

  lemma PushStep<T>(s: State<T>, evs: seq<T>, t: State<T>, step: Step<T>)
    requires RingOk(RingOf(s)) && Pushing(s, evs, t) && Enabled(t, step) && ByProducer(step)
    ensures Pushing(s, evs, Apply(t, step))
  {
    hide PushMany, Queue, Index;
    var r := RingOf(s);
    var n := Min(|evs|, Room(r));
    PushNothing(r);
    assert evs[..0] == [];
    TailOnlyDrops(r, evs, n);
    match step
    case LoadTail =>
    case WriteSlot =>
      SlotStep(r, evs, t.producer.i);
      SameIndex(s.head + t.producer.i);
    case PublishHead =>
    case CountDrops =>
  }

  lemma SameIndex(k: nat)
    ensures Index(k) == k % R.SLOTS
  {
  }

  lemma {:induction false} PushRun<T>(s: State<T>, evs: seq<T>, t: State<T>, steps: seq<Step<T>>)
    requires RingOk(RingOf(s)) && Pushing(s, evs, t) && |t.slots| == R.SLOTS
    requires After(t, steps).Some? && forall i :: 0 <= i < |steps| ==> ByProducer(steps[i])
    ensures Pushing(s, evs, After(t, steps).value)
  {
    hide Pushing, Apply, Enabled;
    if steps != [] {
      PushRun(s, evs, t, steps[..|steps| - 1]);
      PushStep(s, evs, After(t, steps[..|steps| - 1]).value, steps[|steps| - 1]);
    }
  }

  // From its offer to its last step, a push that runs alone leaves the ring
  // that pushing the events one by one leaves.
  lemma PushAlone<T>(s: State<T>, evs: seq<T>, steps: seq<Step<T>>)
    requires Inv(s) && Enabled(s, Offer(evs))
    requires After(Apply(s, Offer(evs)), steps).Some? && forall i :: 0 <= i < |steps| ==> ByProducer(steps[i])
    requires After(Apply(s, Offer(evs)), steps).value.producer.Ready?
    ensures RingOk(RingOf(s))
    ensures RingOf(After(Apply(s, Offer(evs)), steps).value) == PushMany(RingOf(s), evs)
  {
    hide PushMany, After;
    PushRun(s, evs, Apply(s, Offer(evs)), steps);
  }

  // How far the pop of at most max events has come since state s.
  ghost predicate Popping<T>(s: State<T>, max: nat, t: State<T>)
    requires RingOk(RingOf(s))
  {
    var r := RingOf(s);
    var n := Min(max, |Queue(r)|);
    && t.producer == s.producer && t.slots == s.slots && t.head == s.head && t.drops == s.drops
    && match t.consumer
       case TailRead(m, tail) => m == max && tail == s.tail == t.tail && t.popped == s.popped
       case Copying(tail, m, out) =>
         && tail == s.tail == t.tail && m == n && |out| <= n && out == Queue(r)[..|out|] && t.popped == s.popped
       case Waiting => t.tail == s.tail + n && t.popped == s.popped + Queue(r)[..n]
  }

  lemma PopStep<T>(s: State<T>, max: nat, t: State<T>, step: Step<T>)
    requires Inv(s) && Popping(s, max, t) && Enabled(t, step) && ByConsumer(step)
    ensures RingOk(RingOf(s)) && Popping(s, max, Apply(t, step))
  {
    hide Index;
    var q := Queue(RingOf(s));
    match step
    case LoadHead => assert s.popped + q[..0] == s.popped;
    case CopySlot =>
      SameIndex(s.tail + |t.consumer.out|);
      assert q[..|t.consumer.out| + 1] == q[..|t.consumer.out|] + [q[|t.consumer.out|]];
    case PublishTail =>
  }

  lemma {:induction false} PopRun<T>(s: State<T>, max: nat, t: State<T>, steps: seq<Step<T>>)
    requires Inv(s) && RingOk(RingOf(s)) && Popping(s, max, t) && |t.slots| == R.SLOTS
    requires After(t, steps).Some? && forall i :: 0 <= i < |steps| ==> ByConsumer(steps[i])
    ensures Popping(s, max, After(t, steps).value)
  {
    hide Popping, Apply, Enabled, Inv;
    if steps != [] {
      PopRun(s, max, t, steps[..|steps| - 1]);
      PopStep(s, max, After(t, steps[..|steps| - 1]).value, steps[|steps| - 1]);
    }
  }

  // A pop that runs alone takes the oldest unread events, as many as it may.
  lemma PopAlone<T>(s: State<T>, max: nat, steps: seq<Step<T>>)
    requires Inv(s) && Enabled(s, Ask(max))
    requires After(Apply(s, Ask(max)), steps).Some? && forall i :: 0 <= i < |steps| ==> ByConsumer(steps[i])
    requires After(Apply(s, Ask(max)), steps).value.consumer.Waiting?
    ensures RingOk(RingOf(s))
    ensures var t, q := After(Apply(s, Ask(max)), steps).value, Queue(RingOf(s));
      && t.popped == s.popped + q[..Min(max, |q|)]
      && RingOf(t) == RingOf(s).(tail := s.tail + Min(max, |q|))
  {
    hide Queue, After;
    PopRun(s, max, Apply(s, Ask(max)), steps);
  }

  // Neither side ever waits for the other.
  lemma NeitherWaits<T>(init: State<T>, steps: seq<Step<T>>)
    requires Initial(init) && After(init, steps).Some?
    ensures var s := After(init, steps).value;
      && (s.producer.Ready? || exists step :: ByProducer(step) && Enabled(s, step))
      && (s.consumer.Waiting? || exists step :: ByConsumer(step) && Enabled(s, step))
  {
    EverySchedule(init, steps);
    var s := After(init, steps).value;
    hide After;
    assert s.producer.Ready? || Enabled(s, LoadTail) || Enabled(s, WriteSlot) || Enabled(s, PublishHead)
      || Enabled(s, CountDrops);
    assert s.consumer.Waiting? || Enabled(s, LoadHead) || Enabled(s, CopySlot) || Enabled(s, PublishTail);
  }
}
