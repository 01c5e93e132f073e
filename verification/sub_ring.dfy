// The single-producer single-consumer ring of router.go and its batch push of
// corpus_router.go, used by one thread at a time; ring_interleavings.dfy lets
// the two sides run at once.

module SubRing {
  import opened Numbers

  const SLOTS: nat := 256

  datatype Ring<T> = Ring(head: nat, tail: nat, drops: nat, slots: seq<T>)

  predicate RingOk<T>(r: Ring<T>) {
    |r.slots| == SLOTS && r.tail <= r.head <= r.tail + SLOTS
  }

  // The unread events, oldest first.
  function Queue<T>(r: Ring<T>): (q: seq<T>)
    requires RingOk(r)
    ensures |q| == r.head - r.tail
  {
    seq(r.head - r.tail, i requires 0 <= i < r.head - r.tail => r.slots[(r.tail + i) % SLOTS])
  }

  function PushOne<T>(r: Ring<T>, ev: T): Ring<T>
    requires RingOk(r)
  {
    if r.head - r.tail >= SLOTS then r.(drops := r.drops + 1)
    else r.(slots := r.slots[r.head % SLOTS := ev], head := r.head + 1)
  }

  function PushMany<T>(r: Ring<T>, evs: seq<T>): (r': Ring<T>)
    requires RingOk(r)
    ensures RingOk(r') && r'.tail == r.tail
  {
    if evs == [] then r else PushOne(PushMany(r, evs[..|evs| - 1]), evs[|evs| - 1])
  }

  function Room<T>(r: Ring<T>): nat
    requires RingOk(r)
  {
    SLOTS - (r.head - r.tail)
  }

  // A push appends one event, or drops it when the ring is full; it leaves
  // every unread event in place.
  lemma PushOneQueue<T>(r: Ring<T>, ev: T)
    requires RingOk(r)
    ensures RingOk(PushOne(r, ev))
    ensures Room(r) > 0 ==> Queue(PushOne(r, ev)) == Queue(r) + [ev] && PushOne(r, ev).drops == r.drops
    ensures Room(r) == 0 ==> Queue(PushOne(r, ev)) == Queue(r) && PushOne(r, ev).drops == r.drops + 1
  {
  }

  // Pushing a list one by one keeps what fits, in order, and counts the rest.
  lemma {:induction false} PushManyQueue<T>(r: Ring<T>, evs: seq<T>)
    requires RingOk(r)
    ensures var n := Min(|evs|, Room(r));
      && Queue(PushMany(r, evs)) == Queue(r) + evs[..n]
      && PushMany(r, evs).head == r.head + n
      && PushMany(r, evs).drops == r.drops + |evs| - n
  {
    if evs != [] {
      var p, e := evs[..|evs| - 1], evs[|evs| - 1];
      PushManyQueue(r, p);
      PushOneQueue(PushMany(r, p), e);
      var n := Min(|p|, Room(r));
      assert p[..n] == evs[..n];
      if |p| < Room(r) {
        assert evs[..|evs|] == evs[..n] + [e];
        assert Queue(r) + evs[..n] + [e] == Queue(r) + (evs[..n] + [e]);
      }
    } else {
      assert Queue(r) + [] == Queue(r);
    }
  }

  class SubRing<T(0)> {
    var head: nat
    var tail: nat
    var drops: nat
    const slots: array<T>

    function Now(): Ring<T>
      reads this, slots
    {
      Ring(head, tail, drops, slots[..])
    }

    predicate Valid()
      reads this, slots
    {
      RingOk(Now())
    }

    constructor ()
      ensures Valid() && fresh(slots)
      ensures head == tail == drops == 0
    {
      head, tail, drops := 0, 0, 0;
      slots := new T[SLOTS];
    }

    method Push(ev: T) returns (ok: bool)
      requires Valid()
      modifies this, slots
      ensures Valid()
      ensures Now() == PushOne(old(Now()), ev)
      ensures ok <==> Room(old(Now())) > 0
    {
      var h := head;
      if h - tail >= SLOTS {
        drops := drops + 1;
        return false;
      }
      slots[h % SLOTS] := ev;
      head := h + 1;
      return true;
    }

    method Pop() returns (ok: bool, ev: T)
      requires Valid()
      modifies this`tail
      ensures Valid()
      ensures ok <==> old(Queue(Now())) != []
      ensures ok ==> [ev] + Queue(Now()) == old(Queue(Now()))
      ensures !ok ==> Now() == old(Now())
      ensures head == old(head) && drops == old(drops)
    {
      var t := tail;
      if t >= head {
        ev := *;
        return false, ev;
      }
      ev := slots[t % SLOTS];
      tail := t + 1;
      return true, ev;
    }

    // Takes at most maxEvents events, and no more than out can hold.
    method PopBatch(out: array<T>, maxEvents: int) returns (n: nat)
      requires Valid() && out != slots
      modifies this`tail, out
      ensures Valid()
      ensures n == if maxEvents <= 0 then 0 else Min(|old(Queue(Now()))|, Min(maxEvents, out.Length))
      ensures out[..n] + Queue(Now()) == old(Queue(Now()))
      ensures out[n..] == old(out[n..])
    {
      hide Queue;
      ghost var start := Now();
      ghost var q := Queue(start);
      if maxEvents <= 0 {
        return 0;
      }
      var limit := maxEvents;
      if out.Length < limit {
        limit := out.Length;
      }
      var t := tail;
      var available := head - t;
      if available == 0 {
        return 0;
      }
      n := Min(available, limit);
      Drained(start, n);
      for i := 0 to n
        invariant slots[..] == start.slots
        invariant out[..i] == q[..i]
        invariant out[n..] == old(out[n..])
      {
        out[i] := slots[(t + i) % SLOTS];
        assert out[i] == start.slots[(t + i) % SLOTS] == q[i];
      }
      tail := t + n;
      assert Now() == start.(tail := t + n);
    }

    // pushBatch: one look at the room left, then one publication of head.
    // It leaves the ring as pushing the events one by one would.
    method PushBatch(events: seq<T>) returns (n: nat)
      requires Valid()
      modifies this, slots
      ensures Valid()
      ensures Now() == PushMany(old(Now()), events)
      ensures n == Min(|events|, Room(old(Now())))
    {
      hide PushMany;
      ghost var start := Now();
      PushNothing(start);
      if |events| == 0 {
        return 0;
      }
      var h := head;
      var available := SLOTS - (h - tail);
      if available == 0 {
        FullOnlyDrops(start, events);
        drops := drops + |events|;
        return 0;
      }
      n := |events|;
      if n > available {
        n := available;
      }
      WriteAll(events, n);
      head := h + n;
      if n < |events| {
        drops := drops + (|events| - n);
      }
      TailOnlyDrops(start, events, n);
    }

    // The copy loop of pushBatch, before head is published.
    method WriteAll(events: seq<T>, n: nat)
      requires Valid() && n <= |events| && n <= Room(Now())
      modifies slots
      ensures slots[..] == PushMany(old(Now()), events[..n]).slots
    {
      hide PushMany;
      ghost var start := Now();
      PushNothing(start);
      assert events[..0] == [];
      for i := 0 to n
        invariant slots[..] == PushMany(start, events[..i]).slots
      {
        SlotStep(start, events, i);
        ghost var before := slots[..];
        slots[(head + i) % SLOTS] := events[i];
        assert slots[..] == before[(start.head + i) % SLOTS := events[i]];
      }
    }
  }

  // Advancing tail by n drops the n oldest events.
  lemma Drained<T>(r: Ring<T>, n: nat)
    requires RingOk(r) && n <= r.head - r.tail
    ensures Queue(r.(tail := r.tail + n)) == Queue(r)[n..]
    ensures forall i :: 0 <= i < n ==> r.slots[(r.tail + i) % SLOTS] == Queue(r)[i]
  {
  }

  lemma PushNothing<T>(r: Ring<T>)
    requires RingOk(r)
    ensures PushMany(r, []) == r
  {
  }

  lemma SlotStep<T>(r: Ring<T>, evs: seq<T>, i: nat)
    requires RingOk(r) && i < |evs| && i < Room(r)
    ensures PushMany(r, evs[..i + 1]).slots == PushMany(r, evs[..i]).slots[(r.head + i) % SLOTS := evs[i]]
  {
    hide PushMany;
    PushCount(r, evs[..i]);
    assert evs[..i + 1] == evs[..i] + [evs[i]];
    PushLast(r, evs[..i], evs[i]);
  }

  lemma PushLast<T>(r: Ring<T>, evs: seq<T>, e: T)
    requires RingOk(r)
    ensures PushMany(r, evs + [e]) == PushOne(PushMany(r, evs), e)
  {
    assert (evs + [e])[..|evs + [e]| - 1] == evs;
  }

  lemma PushCount<T>(r: Ring<T>, evs: seq<T>)
    requires RingOk(r) && |evs| <= Room(r)
    ensures PushMany(r, evs).head == r.head + |evs|
  {
    PushManyQueue(r, evs);
  }

  lemma {:induction false} FullOnlyDrops<T>(r: Ring<T>, evs: seq<T>)
    requires RingOk(r) && Room(r) == 0
    ensures PushMany(r, evs) == r.(drops := r.drops + |evs|)
  {
    if evs != [] {
      FullOnlyDrops(r, evs[..|evs| - 1]);
    }
  }

  // Once the room is used up, further pushes touch no slot.
  lemma {:induction false} TailOnlyDrops<T>(r: Ring<T>, evs: seq<T>, n: nat)
    requires RingOk(r) && n == Min(|evs|, Room(r))
    ensures PushMany(r, evs).slots == PushMany(r, evs[..n]).slots
    ensures PushMany(r, evs) == Ring(r.head + n, r.tail, r.drops + |evs| - n, PushMany(r, evs[..n]).slots)
  {
    PushManyQueue(r, evs);
    if n == |evs| {
      assert evs[..n] == evs;
    } else {
      var p := evs[..|evs| - 1];
      TailOnlyDrops(r, p, n);
      assert p[..n] == evs[..n];
      PushManyQueue(r, p);
    }
  }
}
