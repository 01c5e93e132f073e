// The fan-out of corpus_router.go over its six rings: each ring takes what it
// can of the same events, whatever room the others have.

module CorpusRouter {
  import opened Numbers
  import opened SubRing

  const RINGS: nat := 6

  // Placements accepted, and events dropped, over the first n rings.
  function Accepted<T>(rings: seq<Ring<T>>, many: nat): nat
    requires forall r :: r in rings ==> RingOk(r)
  {
    if rings == [] then 0
    else Accepted(rings[..|rings| - 1], many) + Min(many, Room(rings[|rings| - 1]))
  }

  function Drops<T>(rings: seq<Ring<T>>): nat {
    if rings == [] then 0 else Drops(rings[..|rings| - 1]) + rings[|rings| - 1].drops
  }

  function PushedAll<T>(rings: seq<Ring<T>>, events: seq<T>): (r: seq<Ring<T>>)
    requires forall r :: r in rings ==> RingOk(r)
    ensures |r| == |rings|
  {
    seq(|rings|, i requires 0 <= i < |rings| => assert rings[i] in rings; PushMany(rings[i], events))
  }

  // Every placement offered is accepted or counted as dropped.
  lemma {:induction false} FanoutConserves<T>(rings: seq<Ring<T>>, events: seq<T>)
    requires forall r :: r in rings ==> RingOk(r)
    ensures Accepted(rings, |events|) + Drops(PushedAll(rings, events)) == Drops(rings) + |rings| * |events|
  {
    if rings != [] {
      var before, last := rings[..|rings| - 1], rings[|rings| - 1];
      assert forall r :: r in before ==> r in rings;
      hide PushMany, Queue, RingOk;
      FanoutConserves(before, events);
      RingConserves(last, events);
      assert PushedAll(rings, events)[..|rings| - 1] == PushedAll(before, events);
      MulNext(|before|, |events|);
    }
  }

  lemma RingConserves<T>(r: Ring<T>, events: seq<T>)
    requires RingOk(r)
    ensures Min(|events|, Room(r)) + PushMany(r, events).drops == r.drops + |events|
  {
    PushManyQueue(r, events);
  }

  class CorpusRouter<T(0)> {
    const rings: seq<SubRing<T>>

    // Six rings, sharing nothing.
    ghost predicate Valid()
      reads this, set r | r in rings, set r | r in rings :: r.slots
    {
      && |rings| == RINGS
      && (forall i :: 0 <= i < |rings| ==> rings[i].Valid())
      && forall i, j :: 0 <= i < j < |rings| ==> rings[i] != rings[j] && rings[i].slots != rings[j].slots
    }

    constructor ()
      ensures Valid() && forall i :: 0 <= i < RINGS ==> Queue(rings[i].Now()) == [] && rings[i].drops == 0
      ensures forall i :: 0 <= i < RINGS ==> fresh(rings[i]) && fresh(rings[i].slots)
    {
      hide Queue;
      var made: seq<SubRing<T>> := [];
      for n := 0 to RINGS
        invariant |made| == n
        invariant forall i :: 0 <= i < n ==> made[i].Valid() && Queue(made[i].Now()) == [] && made[i].drops == 0
        invariant forall i :: 0 <= i < n ==> fresh(made[i]) && fresh(made[i].slots)
        invariant forall i, j :: 0 <= i < j < n ==> made[i] != made[j] && made[i].slots != made[j].slots
      {
        var ring := new SubRing<T>();
        assert |Queue(ring.Now())| == 0;
        made := made + [ring];
      }
      rings := made;
    }

    function Now(): (s: seq<Ring<T>>)
      reads this, set r | r in rings, set r | r in rings :: r.slots
      ensures |s| == |rings|
    {
      seq(|rings|, i requires 0 <= i < |rings| reads this, set r | r in rings, set r | r in rings :: r.slots =>
        rings[i].Now())
    }

    // One ring takes the batch; the others do not see it.
    method Feed(i: nat, events: seq<T>) returns (n: nat)
      requires Valid() && i < |rings|
      modifies rings[i], rings[i].slots
      ensures Valid()
      ensures rings[i].Now() == PushMany(old(rings[i].Now()), events)
      ensures forall k :: 0 <= k < |rings| && k != i ==> rings[k].Now() == old(rings[k].Now())
      ensures n == Min(|events|, Room(old(rings[i].Now())))
    {
      hide PushMany, Room;
      n := rings[i].PushBatch(events);
    }

    method DispatchFanoutBatch(events: seq<T>) returns (accepted: nat)
      requires Valid()
      modifies set r | r in rings, set r | r in rings :: r.slots
      ensures Valid()
      ensures forall i :: 0 <= i < RINGS ==> rings[i].Now() == PushMany(old(rings[i].Now()), events)
      ensures accepted == Accepted(old(Now()), |events|)
    {
      hide PushMany, Queue;
      ghost var start := Now();
      accepted := 0;
      if |events| == 0 {
        NothingOffered(start);
        forall i | 0 <= i < RINGS
          ensures rings[i].Now() == PushMany(start[i], events)
        {
          PushNothing(start[i]);
        }
        return;
      }
      for i := 0 to |rings|
        invariant Valid()
        invariant forall k :: 0 <= k < i ==> rings[k].Now() == PushMany(start[k], events)
        invariant forall k :: i <= k < |rings| ==> rings[k].Now() == start[k]
        invariant accepted == Accepted(start[..i], |events|)
      {
        var n := Feed(i, events);
        assert start[..i + 1][..i] == start[..i];
        accepted := accepted + n;
      }
      assert start[..|rings|] == start;
    }
  }

  lemma {:induction false} NothingOffered<T>(rings: seq<Ring<T>>)
    requires forall r :: r in rings ==> RingOk(r)
    ensures Accepted(rings, 0) == 0
  {
    if rings != [] {
      NothingOffered(rings[..|rings| - 1]);
    }
  }
}
