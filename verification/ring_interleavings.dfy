// Producer and consumer of one ring running at once. Every load of a shared
// counter, every slot access and every publication is a step of its own, and
// the two sides interleave in any order.

module RingInterleavings {
  import opened Wrappers
  import SubRing

  const SLOTS: nat := SubRing.SLOTS

  // A push is a batch of one. head and tail are what the producer has read.
  datatype Producer<T> =
    | Ready
    | HeadRead(events: seq<T>, head: nat)
    | Writing(events: seq<T>, head: nat, n: nat, i: nat)
    | Counting(lost: nat)

  datatype Consumer<T> =
    | Waiting
    | TailRead(max: nat, tail: nat)
    | Copying(tail: nat, n: nat, out: seq<T>)

  // accepted, popped and offered record the history; nothing reads them.
  datatype State<T> = State(
    head: nat, tail: nat, drops: nat, slots: seq<T>, producer: Producer<T>, consumer: Consumer<T>,
    accepted: seq<T>, popped: seq<T>, offered: nat)

  datatype Step<T> =
    | Offer(events: seq<T>)
    | LoadTail
    | WriteSlot
    | PublishHead
    | CountDrops
    | Ask(max: nat)
    | LoadHead
    | CopySlot
    | PublishTail

  predicate Initial<T>(s: State<T>) {
    && s.head == s.tail == s.drops == s.offered == 0 && |s.slots| == SLOTS
    && s.producer.Ready? && s.consumer.Waiting? && |s.accepted| == |s.popped| == 0
  }

  predicate Enabled<T>(s: State<T>, step: Step<T>) {
    match step
    case Offer(events) => s.producer.Ready? && |events| > 0
    case LoadTail => s.producer.HeadRead?
    case WriteSlot => s.producer.Writing? && s.producer.i < s.producer.n && s.producer.i < |s.producer.events|
    case PublishHead => s.producer.Writing? && s.producer.i == s.producer.n && s.producer.n <= |s.producer.events|
    case CountDrops => s.producer.Counting?
    case Ask(max) => s.consumer.Waiting? && max > 0
    case LoadHead => s.consumer.TailRead?
    case CopySlot => s.consumer.Copying? && |s.consumer.out| < s.consumer.n
    case PublishTail => s.consumer.Copying? && |s.consumer.out| == s.consumer.n
  }

  function Index(k: nat): (i: nat)
    ensures i < SLOTS
  {
    k % SLOTS
  }

  function Apply<T>(s: State<T>, step: Step<T>): State<T>
    requires Enabled(s, step) && |s.slots| == SLOTS
  {
    match step
    case Offer(events) => s.(producer := HeadRead(events, s.head), offered := s.offered + |events|)
    case LoadTail =>
      var p := s.producer;
      if p.head - s.tail >= SLOTS then s.(producer := Counting(|p.events|))
      else
        var room := SLOTS - (p.head - s.tail);
        s.(producer := Writing(p.events, p.head, if |p.events| < room then |p.events| else room, 0))
    case WriteSlot =>
      var p := s.producer;
      s.(slots := s.slots[Index(p.head + p.i) := p.events[p.i]], producer := p.(i := p.i + 1))
    case PublishHead =>
      var p := s.producer;
      s.(head := p.head + p.n, accepted := s.accepted + p.events[..p.n],
         producer := if p.n < |p.events| then Counting(|p.events| - p.n) else Ready)
    case CountDrops => s.(drops := s.drops + s.producer.lost, producer := Ready)
    case Ask(max) => s.(consumer := TailRead(max, s.tail))
    case LoadHead =>
      var c := s.consumer;
      if s.head <= c.tail then s.(consumer := Waiting)
      else s.(consumer := Copying(c.tail, if s.head - c.tail < c.max then s.head - c.tail else c.max, []))
    case CopySlot =>
      var c := s.consumer;
      s.(consumer := c.(out := c.out + [s.slots[Index(c.tail + |c.out|)]]))
    case PublishTail =>
      var c := s.consumer;
      s.(tail := c.tail + c.n, popped := s.popped + c.out, consumer := Waiting)
  }

  // The state after a schedule, None if some step of it was not possible.
  function After<T>(s: State<T>, steps: seq<Step<T>>): (r: Option<State<T>>)
    requires |s.slots| == SLOTS
    ensures r.Some? ==> |r.value.slots| == SLOTS
  {
    if steps == [] then Some(s)
    else
      var before := After(s, steps[..|steps| - 1]);
      if before.Some? && Enabled(before.value, steps[|steps| - 1]) then Some(Apply(before.value, steps[|steps| - 1]))
      else None
  }

  // Events offered but neither accepted nor counted as dropped yet.
  function Pending<T>(p: Producer<T>): nat {
    match p
    case Ready => 0
    case HeadRead(events, _) => |events|
    case Writing(events, _, _, _) => |events|
    case Counting(lost) => lost
  }

  ghost predicate CountersOk<T>(s: State<T>) {
    && |s.slots| == SLOTS
    && s.head == |s.accepted| && s.tail == |s.popped|
    && s.tail <= s.head <= s.tail + SLOTS
    && s.popped == s.accepted[..s.tail]
    && s.offered == |s.accepted| + s.drops + Pending(s.producer)
  }

  // Every unread slot holds the event accepted at its position.
  ghost predicate SlotsOk<T>(s: State<T>) {
    && CountersOk(s)
    && forall k: nat :: s.tail <= k < s.head ==> s.slots[Index(k)] == s.accepted[k]
  }

  ghost predicate ProducerOk<T>(s: State<T>) {
    && |s.slots| == SLOTS
    && match s.producer
       case Ready => true
       case Counting(_) => true
       case HeadRead(events, h) => h == s.head
       case Writing(events, h, n, i) =>
         && h == s.head && i <= n <= |events| && h + n <= s.tail + SLOTS
         && forall k: nat :: h <= k < h + i ==> s.slots[Index(k)] == events[k - h]
  }

  ghost predicate ConsumerOk<T>(s: State<T>) {
    match s.consumer
    case Waiting => true
    case TailRead(max, t) => t == s.tail && max > 0
    case Copying(t, n, out) =>
      && t == s.tail && t + n <= s.head <= |s.accepted| && |out| <= n
      && out == s.accepted[t..t + |out|]
  }

  ghost predicate Inv<T>(s: State<T>) {
    SlotsOk(s) && ProducerOk(s) && ConsumerOk(s)
  }

  lemma IndexDistinct(a: nat, b: nat)
    requires a < b < a + SLOTS
    ensures Index(a) != Index(b)
  {
  }

  // A slot about to be written is none of the slots still to be read.
  lemma WriteMissesUnread<T>(s: State<T>, k: nat)
    requires Inv(s) && s.producer.Writing? && s.producer.i < s.producer.n
    requires s.tail <= k < s.producer.head + s.producer.i
    ensures Index(k) != Index(s.producer.head + s.producer.i)
  {
    IndexDistinct(k, s.producer.head + s.producer.i);
  }

  lemma ProducerStep<T>(s: State<T>, step: Step<T>)
    requires Inv(s) && Enabled(s, step)
    requires step.Offer? || step.LoadTail? || step.WriteSlot? || step.PublishHead? || step.CountDrops?
    ensures Inv(Apply(s, step))
  {
    hide Index;
    if step.WriteSlot? {
      var p := s.producer;
      forall k: nat | s.tail <= k < p.head + p.i
        ensures Index(k) != Index(p.head + p.i)
      {
        WriteMissesUnread(s, k);
      }
    }
  }

  lemma ConsumerStep<T>(s: State<T>, step: Step<T>)
    requires Inv(s) && Enabled(s, step)
    requires step.Ask? || step.LoadHead? || step.CopySlot? || step.PublishTail?
    ensures Inv(Apply(s, step))
  {
    hide Index;
  }

  lemma {:induction false} EverySchedule<T>(s: State<T>, steps: seq<Step<T>>)
    requires Initial(s) && After(s, steps).Some?
    ensures Inv(After(s, steps).value)
  {
    hide Apply, Inv;
    if steps == [] {
      InitialInv(s);
    } else {
      EverySchedule(s, steps[..|steps| - 1]);
      var before, step := After(s, steps[..|steps| - 1]).value, steps[|steps| - 1];
      if step.Ask? || step.LoadHead? || step.CopySlot? || step.PublishTail? {
        ConsumerStep(before, step);
      } else {
        ProducerStep(before, step);
      }
    }
  }

  lemma InitialInv<T>(s: State<T>)
    requires Initial(s)
    ensures Inv(s)
  {
  }

  // Under every interleaving the ring is a bounded FIFO queue: what has been
  // popped is a prefix of what has been accepted, what lies between is in the
  // slots, the occupancy stays within the capacity, and every event offered
  // is accepted, dropped or still in the producer's hands.
  lemma RingIsFifo<T>(init: State<T>, steps: seq<Step<T>>)
    requires Initial(init) && After(init, steps).Some?
    ensures var s := After(init, steps).value;
      && s.popped <= s.accepted
      && s.head == |s.accepted| && s.tail == |s.popped|
      && 0 <= s.head - s.tail <= SLOTS
      && s.offered == |s.accepted| + s.drops + Pending(s.producer)
      && (forall k: nat :: s.tail <= k < s.head ==> s.slots[Index(k)] == s.accepted[k])
  {
    EverySchedule(init, steps);
  }

  // The two sides never touch the same slot at the same time.
  lemma NoSlotRace<T>(init: State<T>, steps: seq<Step<T>>)
    requires Initial(init) && After(init, steps).Some?
    ensures var s := After(init, steps).value;
      Enabled(s, WriteSlot) && Enabled(s, CopySlot) ==>
        Index(s.producer.head + s.producer.i) != Index(s.consumer.tail + |s.consumer.out|)
  {
    hide After, Index;
    EverySchedule(init, steps);
    var s := After(init, steps).value;
    if Enabled(s, WriteSlot) && Enabled(s, CopySlot) {
      WriteMissesUnread(s, s.consumer.tail + |s.consumer.out|);
    }
  }

  lemma {:induction false} TailGrows<T>(init: State<T>, steps: seq<Step<T>>, more: seq<Step<T>>)
    requires Initial(init) && After(init, steps + more).Some?
    ensures After(init, steps).Some?
    ensures After(init, steps).value.tail <= After(init, steps + more).value.tail
    decreases |more|
  {
    hide Inv;
    if more == [] {
      assert steps + more == steps;
    } else {
      var less := more[..|more| - 1];
      assert (steps + more)[..|steps + more| - 1] == steps + less;
      TailGrows(init, steps, less);
      EverySchedule(init, steps + less);
      TailStep(After(init, steps + less).value, more[|more| - 1]);
    }
  }

  lemma TailStep<T>(s: State<T>, step: Step<T>)
    requires Inv(s) && Enabled(s, step)
    ensures s.tail <= Apply(s, step).tail
  {
  }

  // Len reads head first and tail some steps later; what it returns never
  // exceeds the capacity, whatever happened in between.
  lemma LenIsBounded<T>(init: State<T>, steps: seq<Step<T>>, more: seq<Step<T>>)
    requires Initial(init) && After(init, steps + more).Some?
    ensures After(init, steps).Some?
    ensures var head, tail := After(init, steps).value.head, After(init, steps + more).value.tail;
      (if head < tail then 0 else head - tail) <= SLOTS
  {
    TailGrows(init, steps, more);
    EverySchedule(init, steps);
  }
}
