// What a ring takes and what it loses, read off the schedule alone: at its
// load of tail a push sees how full the ring is, and loses exactly what
// exceeds the room left. With one side idle the other is the ring of
// sub_ring.dfy.

module RingLosses {
  import opened Numbers
  import opened Wrappers
  import opened RingInterleavings
  import SubRing

  // The batch last offered, and the number last asked for.
  function Batch<T>(steps: seq<Step<T>>): seq<T> {
    if steps == [] then []
    else if steps[|steps| - 1].Offer? then steps[|steps| - 1].events
    else Batch(steps[..|steps| - 1])
  }

  function Wanted<T>(steps: seq<Step<T>>): nat {
    if steps == [] then 0
    else if steps[|steps| - 1].Ask? then steps[|steps| - 1].max
    else Wanted(steps[..|steps| - 1])
  }

  // How many events the ring holds after a schedule.
  function Occupancy<T>(init: State<T>, steps: seq<Step<T>>): int
    requires |init.slots| == SLOTS
  {
    var s := After(init, steps);
    if s.Some? then |s.value.accepted| - |s.value.popped| else 0
  }

  // Of the batch on offer, what there is room for.
  function Fits<T>(init: State<T>, steps: seq<Step<T>>): nat
    requires |init.slots| == SLOTS
  {
    var room := SLOTS - Occupancy(init, steps);
    if room <= 0 then 0 else Min(|Batch(steps)|, room)
  }

  // Every load of tail takes what fits of its batch, and loses the rest.
  function Taken<T>(init: State<T>, steps: seq<Step<T>>): seq<T>
    requires |init.slots| == SLOTS
  {
    if steps == [] then []
    else
      var before := steps[..|steps| - 1];
      Taken(init, before) +
      (if steps[|steps| - 1].LoadTail? then Batch(before)[..Fits(init, before)] else [])
  }

  function Lost<T>(init: State<T>, steps: seq<Step<T>>): nat
    requires |init.slots| == SLOTS
  {
    if steps == [] then 0
    else
      var before := steps[..|steps| - 1];
      Lost(init, before) +
      (if steps[|steps| - 1].LoadTail? then |Batch(before)| - Fits(init, before) else 0)
  }

  // Every load of head takes what is asked for, or what there is.
  function Handed<T>(init: State<T>, steps: seq<Step<T>>): nat
    requires |init.slots| == SLOTS
  {
    if steps == [] then 0
    else
      var before := steps[..|steps| - 1];
      var there := Occupancy(init, before);
      Handed(init, before) +
      (if steps[|steps| - 1].LoadHead? && there > 0 then Min(Wanted(before), there) else 0)
  }

  // What the producer has taken but not published, and lost but not counted.
  function Unpublished<T>(p: Producer<T>): seq<T> {
    if p.Writing? && p.n <= |p.events| then p.events[..p.n] else []
  }

  function Uncounted<T>(p: Producer<T>): nat {
    match p
    case Counting(lost) => lost
    case Writing(events, _, n, _) => if n <= |events| then |events| - n else 0
    case _ => 0
  }

  function BeingHanded<T>(c: Consumer<T>): nat { if c.Copying? then c.n else 0 }

  ghost predicate LossInv<T>(init: State<T>, steps: seq<Step<T>>, s: State<T>)
    requires |init.slots| == SLOTS
  {
    && s.accepted + Unpublished(s.producer) == Taken(init, steps)
    && s.drops + Uncounted(s.producer) == Lost(init, steps)
    && |s.popped| + BeingHanded(s.consumer) == Handed(init, steps)
    && (s.producer.HeadRead? ==> s.producer.events == Batch(steps))
    && (s.consumer.TailRead? ==> s.consumer.max == Wanted(steps))
  }

  // What one more step adds to the accounts.
  lemma OneMoreStep<T>(init: State<T>, steps: seq<Step<T>>, step: Step<T>)
    requires |init.slots| == SLOTS
    ensures var all := steps + [step];
      && Taken(init, all) == Taken(init, steps) + (if step.LoadTail? then Batch(steps)[..Fits(init, steps)] else [])
      && Lost(init, all) == Lost(init, steps) + (if step.LoadTail? then |Batch(steps)| - Fits(init, steps) else 0)
      && Handed(init, all) == Handed(init, steps)
                              + (if step.LoadHead? && Occupancy(init, steps) > 0
                                 then Min(Wanted(steps), Occupancy(init, steps)) else 0)
      && Batch(all) == (if step.Offer? then step.events else Batch(steps))
      && Wanted(all) == (if step.Ask? then step.max else Wanted(steps))
  {
    assert (steps + [step])[..|steps|] == steps;
  }

  lemma LossStep<T>(init: State<T>, steps: seq<Step<T>>, s: State<T>, step: Step<T>)
    requires |init.slots| == SLOTS && After(init, steps) == Some(s) && Inv(s) && Enabled(s, step)
    requires LossInv(init, steps, s)
    ensures LossInv(init, steps + [step], Apply(s, step))
  {
    if step.LoadTail? {
      LoadTailTakes(init, steps, s);
    } else if step.LoadHead? {
      LoadHeadHands(init, steps, s);
    } else {
      OtherStep(init, steps, s, step);
    }
  }

  lemma LoadTailTakes<T>(init: State<T>, steps: seq<Step<T>>, s: State<T>)
    requires |init.slots| == SLOTS && After(init, steps) == Some(s) && Inv(s) && Enabled(s, LoadTail)
    requires LossInv(init, steps, s)
    ensures LossInv(init, steps + [LoadTail], Apply(s, LoadTail))
  {
    OneMoreStep(init, steps, LoadTail);
    hide Index, Taken, Lost, Handed, Batch, Wanted, After;
    assert s.accepted + [] == s.accepted;
  }

  lemma LoadHeadHands<T>(init: State<T>, steps: seq<Step<T>>, s: State<T>)
    requires |init.slots| == SLOTS && After(init, steps) == Some(s) && Inv(s) && Enabled(s, LoadHead)
    requires LossInv(init, steps, s)
    ensures LossInv(init, steps + [LoadHead], Apply(s, LoadHead))
  {
    OneMoreStep(init, steps, LoadHead);
    hide Index, Taken, Lost, Handed, Batch, Wanted, After;
  }

  // Between the loads the accounts only move from hand to hand.
  lemma HandToHand<T>(s: State<T>, step: Step<T>)
    requires Inv(s) && Enabled(s, step) && !step.LoadTail? && !step.LoadHead?
    ensures var t := Apply(s, step);
      && t.accepted + Unpublished(t.producer) == s.accepted + Unpublished(s.producer)
      && t.drops + Uncounted(t.producer) == s.drops + Uncounted(s.producer)
      && |t.popped| + BeingHanded(t.consumer) == |s.popped| + BeingHanded(s.consumer)
      && (t.producer.HeadRead? ==>
            if step.Offer? then t.producer.events == step.events else s.producer == t.producer)
      && (t.consumer.TailRead? ==> if step.Ask? then t.consumer.max == step.max else s.consumer == t.consumer)
      && (step.Offer? ==> t.producer.HeadRead?) && (step.Ask? ==> t.consumer.TailRead?)
  {
    hide Index;
    match step
    case Offer(_) =>
    case WriteSlot =>
    case PublishHead =>
      var p := s.producer;
      assert s.accepted + p.events[..p.n] + [] == s.accepted + p.events[..p.n];
    case CountDrops =>
    case Ask(_) =>
    case CopySlot =>
    case PublishTail =>
  }

  lemma OtherStep<T>(init: State<T>, steps: seq<Step<T>>, s: State<T>, step: Step<T>)
    requires |init.slots| == SLOTS && Inv(s) && Enabled(s, step) && !step.LoadTail? && !step.LoadHead?
    requires LossInv(init, steps, s)
    ensures LossInv(init, steps + [step], Apply(s, step))
  {
    OneMoreStep(init, steps, step);
    HandToHand(s, step);
    hide Apply, Inv, Enabled, Taken, Lost, Handed, Batch, Wanted, Unpublished, Uncounted, BeingHanded;
    assert Taken(init, steps) + [] == Taken(init, steps);
  }

  // Nothing is lost, and nothing kept back, but what a full ring imposes.
  lemma {:induction false} LossesOfSchedule<T>(init: State<T>, steps: seq<Step<T>>)
    requires Initial(init) && After(init, steps).Some?
    ensures LossInv(init, steps, After(init, steps).value)
  {
    hide Apply, LossInv, Inv;
    if steps == [] {
      LossStart(init);
    } else {
      var before, step := steps[..|steps| - 1], steps[|steps| - 1];
      LossesOfSchedule(init, before);
      EverySchedule(init, before);
      LossStep(init, before, After(init, before).value, step);
      assert steps == before + [step];
    }
  }

  lemma LossStart<T>(init: State<T>)
    requires Initial(init)
    ensures LossInv(init, [], init)
  {
  }

  // Whenever the producer is at rest, the ring has accepted exactly what
  // fitted at each load of tail and dropped exactly the excess.
  lemma OnlyTheExcessIsLost<T>(init: State<T>, steps: seq<Step<T>>)
    requires Initial(init) && After(init, steps).Some? && After(init, steps).value.producer.Ready?
    ensures After(init, steps).value.accepted == Taken(init, steps)
    ensures After(init, steps).value.drops == Lost(init, steps)
  {
    hide After;
    LossesOfSchedule(init, steps);
  }

  // Whenever the consumer is at rest, it has been handed exactly what it
  // asked for, as far as there was any.
  lemma NothingIsWithheld<T>(init: State<T>, steps: seq<Step<T>>)
    requires Initial(init) && After(init, steps).Some? && After(init, steps).value.consumer.Waiting?
    ensures |After(init, steps).value.popped| == Handed(init, steps)
    ensures |Taken(init, steps)| >= Handed(init, steps)
    ensures After(init, steps).value.popped == Taken(init, steps)[..Handed(init, steps)]
  {
    hide After, Taken, Handed;
    LossesOfSchedule(init, steps);
    RingIsFifo(init, steps);
  }
}
