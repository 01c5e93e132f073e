// Bursts of one encrypted conversation (encrypted_wire_eval.go): what is
// counted and measured as each burst closes, against the bursts of the whole
// packet run.

module FlowBursts {
  import opened Numbers
  import opened FlowWindows

  // The part of conversationChiffree that bursts use. The two accumulators
  // are kept as the lists of measures handed to them.
  datatype Bursts = Bursts(
    paquets: nat, dernierNs: nat, rafales: nat, rafalesPorteuses: nat,
    debutRafaleNs: nat, octetsMontantsRafale: nat, debutRafalePorteusePrecedente: nat,
    interRafales: seq<int>, chargeMontanteRafale: seq<nat>)

  const NO_BURST: Bursts := Bursts(0, 0, 0, 0, 0, 0, 0, [], [])

  // cloturerRafale.
  function CloseBurst(c: Bursts): Bursts {
    if c.octetsMontantsRafale >= CARRIER_MIN then
      c.(interRafales := if c.rafalesPorteuses > 0
           then c.interRafales + [c.debutRafaleNs - c.debutRafalePorteusePrecedente]
           else c.interRafales,
         rafalesPorteuses := c.rafalesPorteuses + 1,
         debutRafalePorteusePrecedente := c.debutRafaleNs,
         chargeMontanteRafale := c.chargeMontanteRafale + [c.octetsMontantsRafale],
         octetsMontantsRafale := 0)
    else c.(octetsMontantsRafale := 0)
  }

  // accumuler, as far as bursts are concerned.
  function AddPacket(c: Bursts, p: Packet, silence: nat): Bursts {
    var first := c.paquets == 0;
    var c1 := if first then c.(dernierNs := p.timestampNs, debutRafaleNs := p.timestampNs, rafales := 1) else c;
    var instant := Max(p.timestampNs, c1.dernierNs);
    var c2 := if !first && instant - c1.dernierNs >= silence
      then CloseBurst(c1).(rafales := c1.rafales + 1, debutRafaleNs := instant)
      else c1;
    c2.(dernierNs := instant, paquets := c2.paquets + 1,
        octetsMontantsRafale := c2.octetsMontantsRafale + if p.up then p.charge else 0)
  }

  function TrackBursts(ps: seq<Packet>, silence: nat): Bursts {
    if ps == [] then NO_BURST else AddPacket(TrackBursts(ps[..|ps| - 1], silence), ps[|ps| - 1], silence)
  }

  // --------------------------------------------------- the run as a whole

  // The last packet of ps opens a burst: nothing came for `silence`.
  predicate OpensBurst(ps: seq<Packet>, silence: nat)
    requires ps != []
  {
    |ps| == 1 || Clock(ps) - Clock(ps[..|ps| - 1]) >= silence
  }

  // The instants at which the bursts of ps start.
  function Starts(ps: seq<Packet>, silence: nat): (r: seq<nat>)
    ensures r == [] <==> ps == []
  {
    if ps == [] then []
    else Starts(ps[..|ps| - 1], silence) + if OpensBurst(ps, silence) then [Clock(ps)] else []
  }

  // Upstream bytes of burst k.
  function UpIn(ps: seq<Packet>, silence: nat, k: nat): nat {
    if ps == [] then 0
    else
      UpIn(ps[..|ps| - 1], silence, k) +
      (if ps[|ps| - 1].up && |Starts(ps, silence)| - 1 == k then ps[|ps| - 1].charge else 0)
  }

  // The bursts before n that carry something upstream.
  function Carrying(ps: seq<Packet>, silence: nat, n: nat): (r: seq<nat>)
    ensures forall k :: k in r ==> k < n
    ensures |r| <= n
  {
    if n == 0 then []
    else Carrying(ps, silence, n - 1) + if UpIn(ps, silence, n - 1) >= CARRIER_MIN then [n - 1] else []
  }

  // Their upstream bytes, and the time from each to the next.
  function Charges(ps: seq<Packet>, silence: nat, n: nat): seq<nat> {
    var ks := Carrying(ps, silence, n);
    seq(|ks|, i requires 0 <= i < |ks| => UpIn(ps, silence, ks[i]))
  }

  function Gaps(ps: seq<Packet>, silence: nat, n: nat): seq<int>
    requires n <= |Starts(ps, silence)|
  {
    var ks := Carrying(ps, silence, n);
    var starts := Starts(ps, silence);
    seq(if |ks| == 0 then 0 else |ks| - 1, i requires 0 <= i < |ks| - 1 =>
      assert ks[i] in ks && ks[i + 1] in ks; (starts[ks[i + 1]] as int) - (starts[ks[i]] as int))
  }

  // What the closed bursts have left behind.
  predicate Closed(c: Bursts, ps: seq<Packet>, silence: nat, n: nat)
    requires n <= |Starts(ps, silence)|
  {
    var ks := Carrying(ps, silence, n);
    && c.rafalesPorteuses == |ks|
    && c.chargeMontanteRafale == Charges(ps, silence, n)
    && c.interRafales == Gaps(ps, silence, n)
    && (ks != [] ==>
          assert ks[|ks| - 1] in ks;
          c.debutRafalePorteusePrecedente == Starts(ps, silence)[ks[|ks| - 1]])
  }

  predicate IsBurstRun(c: Bursts, ps: seq<Packet>, silence: nat) {
    var starts := Starts(ps, silence);
    && c.paquets == |ps| && c.dernierNs == Clock(ps) && c.rafales == |starts|
    && (ps != [] ==>
        && c.debutRafaleNs == starts[|starts| - 1]
        && c.octetsMontantsRafale == UpIn(ps, silence, |starts| - 1)
        && Closed(c, ps, silence, |starts| - 1))
  }

  // A burst not opened yet has carried nothing.
  lemma {:induction false} NothingAhead(ps: seq<Packet>, silence: nat, k: nat)
    requires k >= |Starts(ps, silence)|
    ensures UpIn(ps, silence, k) == 0
  {
    if ps != [] {
      NothingAhead(ps[..|ps| - 1], silence, k);
    }
  }

  // One more packet changes nothing in the bursts before the last one.
  lemma {:induction false} PastIsSettled(ps: seq<Packet>, silence: nat, n: nat)
    requires ps != [] && n < |Starts(ps, silence)|
    ensures n <= |Starts(ps[..|ps| - 1], silence)|
    ensures Carrying(ps, silence, n) == Carrying(ps[..|ps| - 1], silence, n)
    ensures forall k :: 0 <= k < n ==>
      && UpIn(ps, silence, k) == UpIn(ps[..|ps| - 1], silence, k)
      && Starts(ps, silence)[k] == Starts(ps[..|ps| - 1], silence)[k]
  {
    if n > 0 {
      PastIsSettled(ps, silence, n - 1);
    }
  }

  lemma ListsAreSettled(ps: seq<Packet>, silence: nat, n: nat)
    requires ps != [] && n < |Starts(ps, silence)|
    ensures n <= |Starts(ps[..|ps| - 1], silence)|
    ensures Charges(ps, silence, n) == Charges(ps[..|ps| - 1], silence, n)
    ensures Gaps(ps, silence, n) == Gaps(ps[..|ps| - 1], silence, n)
  {
    hide Starts, UpIn;
    PastIsSettled(ps, silence, n);
    var ks := Carrying(ps, silence, n);
    assert forall i :: 0 <= i < |ks| ==> ks[i] in ks;
  }

  lemma ClosedIsSettled(c: Bursts, ps: seq<Packet>, silence: nat, n: nat)
    requires ps != [] && n < |Starts(ps, silence)| && n <= |Starts(ps[..|ps| - 1], silence)|
    requires Closed(c, ps[..|ps| - 1], silence, n)
    ensures Closed(c, ps, silence, n)
  {
    hide Starts, UpIn, Charges, Gaps;
    PastIsSettled(ps, silence, n);
    ListsAreSettled(ps, silence, n);
    var ks := Carrying(ps, silence, n);
    assert forall i :: 0 <= i < |ks| ==> ks[i] in ks;
  }

  // Burst n adds to the lists if it carries anything.
  lemma ListsGrow(ps: seq<Packet>, silence: nat, n: nat)
    requires n < |Starts(ps, silence)|
    ensures UpIn(ps, silence, n) >= CARRIER_MIN ==>
      && Carrying(ps, silence, n + 1) == Carrying(ps, silence, n) + [n]
      && Charges(ps, silence, n + 1) == Charges(ps, silence, n) + [UpIn(ps, silence, n)]
    ensures UpIn(ps, silence, n) < CARRIER_MIN ==>
      && Carrying(ps, silence, n + 1) == Carrying(ps, silence, n)
      && Charges(ps, silence, n + 1) == Charges(ps, silence, n)
      && Gaps(ps, silence, n + 1) == Gaps(ps, silence, n)
  {
    hide Starts, UpIn;
    var ks := Carrying(ps, silence, n);
    assert forall i :: 0 <= i < |ks| ==> ks[i] in ks;
  }

  lemma GapsGrow(ps: seq<Packet>, silence: nat, n: nat)
    requires n < |Starts(ps, silence)| && UpIn(ps, silence, n) >= CARRIER_MIN
    ensures var ks := Carrying(ps, silence, n);
      if ks == [] then Gaps(ps, silence, n + 1) == Gaps(ps, silence, n)
      else
        assert ks[|ks| - 1] in ks;
        Gaps(ps, silence, n + 1) ==
          Gaps(ps, silence, n) + [(Starts(ps, silence)[n] as int) - (Starts(ps, silence)[ks[|ks| - 1]] as int)]
  {
    hide Starts, UpIn;
    var ks := Carrying(ps, silence, n);
    assert Carrying(ps, silence, n + 1) == ks + [n];
    assert forall i :: 0 <= i < |ks| ==> ks[i] in ks;
  }

  // Closing the open burst n.
  lemma CloseCloses(c: Bursts, ps: seq<Packet>, silence: nat, n: nat)
    requires n < |Starts(ps, silence)| && Closed(c, ps, silence, n)
    requires c.octetsMontantsRafale == UpIn(ps, silence, n) && c.debutRafaleNs == Starts(ps, silence)[n]
    ensures Closed(CloseBurst(c), ps, silence, n + 1)
  {
    hide Starts, UpIn, Carrying, Charges, Gaps;
    ListsGrow(ps, silence, n);
    if UpIn(ps, silence, n) >= CARRIER_MIN {
      GapsGrow(ps, silence, n);
    }
  }

  lemma ClosedOf(c: Bursts, d: Bursts, ps: seq<Packet>, silence: nat, n: nat)
    requires n <= |Starts(ps, silence)| && Closed(c, ps, silence, n)
    requires d.rafalesPorteuses == c.rafalesPorteuses && d.chargeMontanteRafale == c.chargeMontanteRafale
    requires d.interRafales == c.interRafales && d.debutRafalePorteusePrecedente == c.debutRafalePorteusePrecedente
    ensures Closed(d, ps, silence, n)
  {
    hide Starts, Carrying, Charges, Gaps;
  }

  // A packet that continues the open burst.
  lemma BurstContinues(c: Bursts, ps: seq<Packet>, silence: nat)
    requires |ps| > 1 && IsBurstRun(c, ps[..|ps| - 1], silence) && !OpensBurst(ps, silence)
    ensures IsBurstRun(AddPacket(c, ps[|ps| - 1], silence), ps, silence)
  {
    hide Closed, CloseBurst;
    var d := AddPacket(c, ps[|ps| - 1], silence);
    var n := |Starts(ps, silence)| - 1;
    ClosedIsSettled(c, ps, silence, n);
    ClosedOf(c, d, ps, silence, n);
  }

  // A packet that opens the next one.
  lemma BurstOpens(c: Bursts, ps: seq<Packet>, silence: nat)
    requires |ps| > 1 && IsBurstRun(c, ps[..|ps| - 1], silence) && OpensBurst(ps, silence)
    ensures IsBurstRun(AddPacket(c, ps[|ps| - 1], silence), ps, silence)
  {
    hide Closed;
    var before := ps[..|ps| - 1];
    var d := AddPacket(c, ps[|ps| - 1], silence);
    var n := |Starts(before, silence)|;
    CloseCloses(c, before, silence, n - 1);
    ClosedIsSettled(CloseBurst(c), ps, silence, n);
    ClosedOf(CloseBurst(c), d, ps, silence, n);
    NothingAhead(before, silence, n);
  }

  lemma FirstBurst(ps: seq<Packet>, silence: nat)
    requires |ps| == 1
    ensures IsBurstRun(AddPacket(NO_BURST, ps[0], silence), ps, silence)
  {
    assert ps[..0] == [];
    assert Clock(ps) == ps[0].timestampNs;
    assert Starts(ps, silence) == [Clock(ps)];
  }

  // Packet by packet, the counters are those of the bursts of the run.
  lemma {:induction false} BurstsAreRun(ps: seq<Packet>, silence: nat)
    ensures IsBurstRun(TrackBursts(ps, silence), ps, silence)
  {
    if |ps| == 1 {
      FirstBurst(ps, silence);
      assert ps[..0] == [];
    } else if ps != [] {
      hide IsBurstRun, AddPacket;
      var before := ps[..|ps| - 1];
      BurstsAreRun(before, silence);
      if OpensBurst(ps, silence) {
        BurstOpens(TrackBursts(before, silence), ps, silence);
      } else {
        BurstContinues(TrackBursts(before, silence), ps, silence);
      }
    }
  }

  // construireVerdict closes the last burst: every burst is then counted,
  // and every carrying one measured.
  lemma FinalBursts(ps: seq<Packet>, silence: nat)
    requires ps != []
    ensures var c, n := CloseBurst(TrackBursts(ps, silence)), |Starts(ps, silence)|;
      && c.rafales == n
      && c.rafalesPorteuses == |Carrying(ps, silence, n)| <= n
      && c.chargeMontanteRafale == Charges(ps, silence, n)
      && c.interRafales == Gaps(ps, silence, n)
      && |c.interRafales| == if c.rafalesPorteuses == 0 then 0 else c.rafalesPorteuses - 1
  {
    hide TrackBursts, Starts, Carrying, UpIn;
    BurstsAreRun(ps, silence);
    var c, n := TrackBursts(ps, silence), |Starts(ps, silence)|;
    CloseCloses(c, ps, silence, n - 1);
  }

  // Bursts are at least `silence` apart, so no measured gap is shorter.
  lemma {:induction false} StartsApart(ps: seq<Packet>, silence: nat, i: nat, j: nat)
    requires i < j < |Starts(ps, silence)|
    ensures Starts(ps, silence)[j] >= Starts(ps, silence)[i] + silence
    ensures Starts(ps, silence)[j] <= Clock(ps)
  {
    var before := ps[..|ps| - 1];
    StartsBefore(ps, silence, j);
    if j < |Starts(before, silence)| {
      StartsApart(before, silence, i, j);
    } else {
      StartsBefore(before, silence, i);
    }
  }

  lemma {:induction false} StartsBefore(ps: seq<Packet>, silence: nat, i: nat)
    requires i < |Starts(ps, silence)|
    ensures Starts(ps, silence)[i] <= Clock(ps)
  {
    if i < |Starts(ps[..|ps| - 1], silence)| {
      StartsBefore(ps[..|ps| - 1], silence, i);
    }
  }

  lemma GapsAtLeastSilence(ps: seq<Packet>, silence: nat, n: nat)
    requires n <= |Starts(ps, silence)|
    ensures forall g :: g in Gaps(ps, silence, n) ==> g >= silence
  {
    hide Starts, UpIn;
    var ks, gaps := Carrying(ps, silence, n), Gaps(ps, silence, n);
    CarryingIncreases(ps, silence, n);
    forall i | 0 <= i < |gaps|
      ensures gaps[i] >= silence
    {
      assert ks[i] in ks && ks[i + 1] in ks;
      StartsApart(ps, silence, ks[i], ks[i + 1]);
    }
  }

  lemma {:induction false} CarryingIncreases(ps: seq<Packet>, silence: nat, n: nat)
    ensures forall k :: k in Carrying(ps, silence, n) <==> 0 <= k < n && UpIn(ps, silence, k) >= CARRIER_MIN
    ensures forall i, j :: 0 <= i < j < |Carrying(ps, silence, n)| ==>
      Carrying(ps, silence, n)[i] < Carrying(ps, silence, n)[j]
  {
    hide UpIn;
    if n > 0 {
      CarryingIncreases(ps, silence, n - 1);
      var ks := Carrying(ps, silence, n - 1);
      assert forall i :: 0 <= i < |ks| ==> ks[i] in ks;
    }
  }

  // Every upstream byte is in one burst.

  function UpBytes(ps: seq<Packet>): nat {
    if ps == [] then 0 else UpBytes(ps[..|ps| - 1]) + if ps[|ps| - 1].up then ps[|ps| - 1].charge else 0
  }

  function UpBefore(ps: seq<Packet>, silence: nat, n: nat): nat {
    if n == 0 then 0 else UpBefore(ps, silence, n - 1) + UpIn(ps, silence, n - 1)
  }

  lemma {:induction false} UpBeforeNext(ps: seq<Packet>, silence: nat, n: nat)
    requires ps != []
    ensures UpBefore(ps, silence, n) == UpBefore(ps[..|ps| - 1], silence, n) +
      if n >= |Starts(ps, silence)| && ps[|ps| - 1].up then ps[|ps| - 1].charge else 0
  {
    if n > 0 {
      UpBeforeNext(ps, silence, n - 1);
    }
  }

  lemma {:induction false} NothingBeyond(ps: seq<Packet>, silence: nat, n: nat)
    requires n >= |Starts(ps, silence)|
    ensures UpBefore(ps, silence, n) == UpBefore(ps, silence, |Starts(ps, silence)|)
  {
    if n > |Starts(ps, silence)| {
      NothingBeyond(ps, silence, n - 1);
      NothingAhead(ps, silence, n - 1);
    }
  }

  lemma {:induction false} BurstsPartitionBytes(ps: seq<Packet>, silence: nat)
    ensures UpBefore(ps, silence, |Starts(ps, silence)|) == UpBytes(ps)
  {
    if ps != [] {
      var before, n := ps[..|ps| - 1], |Starts(ps, silence)|;
      BurstsPartitionBytes(before, silence);
      UpBeforeNext(ps, silence, n);
      NothingBeyond(before, silence, n);
    }
  }

  // cloturerRafale and the bursts of accumuler, step by step.
  method CloturerRafale(c0: Bursts) returns (c: Bursts)
    ensures c == CloseBurst(c0)
  {
    c := c0;
    if c.octetsMontantsRafale >= CARRIER_MIN {
      if c.rafalesPorteuses > 0 {
        c := c.(interRafales := c.interRafales + [c.debutRafaleNs - c.debutRafalePorteusePrecedente]);
      }
      c := c.(rafalesPorteuses := c.rafalesPorteuses + 1);
      c := c.(debutRafalePorteusePrecedente := c.debutRafaleNs);
      c := c.(chargeMontanteRafale := c.chargeMontanteRafale + [c.octetsMontantsRafale]);
    }
    c := c.(octetsMontantsRafale := 0);
  }

  method AccumulerRafale(c0: Bursts, p: Packet, silence: nat) returns (c: Bursts)
    ensures c == AddPacket(c0, p, silence)
  {
    c := c0;
    var instant, first := p.timestampNs, c.paquets == 0;
    if first {
      c := c.(dernierNs := instant, debutRafaleNs := instant, rafales := 1);
    }
    if instant < c.dernierNs {
      instant := c.dernierNs;
    }
    if !first && instant - c.dernierNs >= silence {
      c := CloturerRafale(c);
      c := c.(rafales := c.rafales + 1, debutRafaleNs := instant);
    }
    c := c.(dernierNs := instant, paquets := c.paquets + 1);
    if p.up {
      c := c.(octetsMontantsRafale := c.octetsMontantsRafale + p.charge);
    }
  }
}
