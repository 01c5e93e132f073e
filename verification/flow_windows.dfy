// Observation windows of one encrypted conversation (encrypted_wire_eval.go):
// the counters kept packet by packet against their definition over the
// whole packet run, regressing timestamps included.

module FlowWindows {
  import opened Numbers

  const CARRIER_MIN: nat := 56
  const TURNS_MIN: nat := 2
  const UP_BYTES_MIN: nat := 256

  datatype Packet = Packet(timestampNs: nat, up: bool, charge: nat)

  // The part of conversationChiffree and its counters that windows use.
  datatype Tracking = Tracking(
    premierNs: nat, dernierNs: nat, paquetsMontants: nat, paquetsDescendants: nat,
    sensPrecedentPorteur: int, debutFenetreNs: nat,
    paquetsFenetre: nat, tournantsFenetre: nat, octetsMontantsPorteursFenetre: nat,
    serieBidirectionnelle: nat,
    fenetresObservees: nat, fenetresActives: nat, fenetresBidirectionnelles: nat, serieBidirectionnelleMax: nat)

  const FRESH: Tracking := Tracking(0, 0, 0, 0, 0, 0, 0, 0, 0, 0, 0, 0, 0, 0)

  predicate CarriesBoth(turns: nat, upBytes: nat) { turns >= TURNS_MIN && upBytes >= UP_BYTES_MIN }

  // cloturerFenetre.
  function CloseWindow(c: Tracking): Tracking {
    var both := CarriesBoth(c.tournantsFenetre, c.octetsMontantsPorteursFenetre);
    var serie := if both then c.serieBidirectionnelle + 1 else 0;
    c.(fenetresObservees := c.fenetresObservees + 1,
       fenetresActives := c.fenetresActives + if c.paquetsFenetre > 0 then 1 else 0,
       fenetresBidirectionnelles := c.fenetresBidirectionnelles + if both then 1 else 0,
       serieBidirectionnelle := serie,
       serieBidirectionnelleMax := if both then Max(c.serieBidirectionnelleMax, serie) else c.serieBidirectionnelleMax,
       paquetsFenetre := 0, tournantsFenetre := 0, octetsMontantsPorteursFenetre := 0)
  }

  // Closing windows one at a time until the instant falls in the open one.
  function AdvanceOneByOne(c: Tracking, instant: nat, duree: nat): Tracking
    requires duree > 0
    decreases instant - c.debutFenetreNs
  {
    if instant < c.debutFenetreNs + duree then c
    else AdvanceOneByOne(CloseWindow(c).(debutFenetreNs := c.debutFenetreNs + duree), instant, duree)
  }

  // Empty windows jumped over.
  function Skip(c: Tracking, n: nat): Tracking {
    c.(fenetresObservees := c.fenetresObservees + n, serieBidirectionnelle := 0)
  }

  // avancerFenetres: the empty windows that were jumped over are counted in
  // one addition.
  function Advance(c: Tracking, instant: nat, duree: nat): Tracking
    requires duree > 0
  {
    if instant < c.debutFenetreNs + duree then c
    else
      var closed := CloseWindow(c);
      var sautees := (instant - c.debutFenetreNs) / duree - 1;
      StepsAtLeastOne(instant - c.debutFenetreNs, duree);
      var counted := if sautees > 0 then Skip(closed, sautees) else closed;
      counted.(debutFenetreNs := c.debutFenetreNs + (sautees + 1) * duree)
  }

  lemma StepsAtLeastOne(x: nat, d: nat)
    requires x >= d > 0
    ensures x / d == (x - d) / d + 1
    ensures x / d >= 1
  {
    QuotientUnique(x - d, d, (x - d) / d);
    MulNext((x - d) / d, d);
    MulNext((x - d) / d + 1, d);
    QuotientUnique(x, d, (x - d) / d + 1);
  }

  predicate EmptyWindow(c: Tracking) {
    c.paquetsFenetre == 0 && c.tournantsFenetre == 0 && c.octetsMontantsPorteursFenetre == 0
  }

  // The jump equals the loop over the windows jumped.
  lemma {:induction false} AdvanceEmpty(c: Tracking, instant: nat, duree: nat)
    requires duree > 0 && EmptyWindow(c) && instant >= c.debutFenetreNs
    ensures var n := (instant - c.debutFenetreNs) / duree;
      AdvanceOneByOne(c, instant, duree) ==
        c.(fenetresObservees := c.fenetresObservees + n,
           serieBidirectionnelle := if n > 0 then 0 else c.serieBidirectionnelle,
           debutFenetreNs := c.debutFenetreNs + n * duree)
    decreases instant - c.debutFenetreNs
  {
    var x := instant - c.debutFenetreNs;
    if x < duree {
      QuotientUnique(x, duree, 0);
    } else {
      StepsAtLeastOne(x, duree);
      var next := CloseWindow(c).(debutFenetreNs := c.debutFenetreNs + duree);
      AdvanceEmpty(next, instant, duree);
      MulNext((x - duree) / duree, duree);
    }
  }

  lemma AdvanceIsOneByOne(c: Tracking, instant: nat, duree: nat)
    requires duree > 0 && instant >= c.debutFenetreNs
    ensures Advance(c, instant, duree) == AdvanceOneByOne(c, instant, duree)
  {
    if instant >= c.debutFenetreNs + duree {
      hide CloseWindow;
      ClosedIsEmpty(c);
      var x := instant - c.debutFenetreNs;
      var next := CloseWindow(c).(debutFenetreNs := c.debutFenetreNs + duree);
      StepsAtLeastOne(x, duree);
      assert instant - next.debutFenetreNs == x - duree;
      AdvanceEmptyFrom(next, instant, duree, x / duree - 1);
      MulNext(x / duree - 1, duree);
    }
  }

  lemma ClosedIsEmpty(c: Tracking)
    ensures EmptyWindow(CloseWindow(c)) && CloseWindow(c).debutFenetreNs == c.debutFenetreNs
  {
  }

  lemma AdvanceEmptyFrom(c: Tracking, instant: nat, duree: nat, n: nat)
    requires duree > 0 && EmptyWindow(c) && instant >= c.debutFenetreNs && n == (instant - c.debutFenetreNs) / duree
    ensures AdvanceOneByOne(c, instant, duree) ==
        c.(fenetresObservees := c.fenetresObservees + n,
           serieBidirectionnelle := if n > 0 then 0 else c.serieBidirectionnelle,
           debutFenetreNs := c.debutFenetreNs + n * duree)
  {
    AdvanceEmpty(c, instant, duree);
  }

  // accumuler, as far as windows are concerned.
  function Accumulate(c: Tracking, p: Packet, duree: nat): Tracking
    requires duree > 0
  {
    var first := c.paquetsMontants + c.paquetsDescendants == 0;
    var t := p.timestampNs;
    var c1 := if first then c.(premierNs := t, dernierNs := t, debutFenetreNs := t) else c;
    var instant := Max(p.timestampNs, c1.dernierNs);
    var c2 := Advance(c1, instant, duree).(dernierNs := instant);
    var carrier := p.charge >= CARRIER_MIN;
    var sens := if p.up then 1 else -1;
    var turn := carrier && c2.sensPrecedentPorteur != 0 && sens != c2.sensPrecedentPorteur;
    c2.(paquetsFenetre := c2.paquetsFenetre + 1,
        paquetsMontants := c2.paquetsMontants + if p.up then 1 else 0,
        paquetsDescendants := c2.paquetsDescendants + if p.up then 0 else 1,
        octetsMontantsPorteursFenetre := c2.octetsMontantsPorteursFenetre + if p.up && carrier then p.charge else 0,
        tournantsFenetre := c2.tournantsFenetre + if turn then 1 else 0,
        sensPrecedentPorteur := if carrier then sens else c2.sensPrecedentPorteur)
  }

  function Track(ps: seq<Packet>, duree: nat): Tracking
    requires duree > 0
  {
    if ps == [] then FRESH else Accumulate(Track(ps[..|ps| - 1], duree), ps[|ps| - 1], duree)
  }

  // --------------------------------------------------- the run as a whole

  // The latest timestamp seen so far: a regressing one counts as that.
  function Clock(ps: seq<Packet>): nat {
    if ps == [] then 0 else Max(Clock(ps[..|ps| - 1]), ps[|ps| - 1].timestampNs)
  }

  lemma {:induction false} ClockFromOrigin(ps: seq<Packet>)
    requires ps != []
    ensures Clock(ps) >= ps[0].timestampNs
  {
    if |ps| > 1 {
      ClockFromOrigin(ps[..|ps| - 1]);
    }
  }

  // The window the last packet of ps falls in.
  function WindowOf(ps: seq<Packet>, duree: nat): nat
    requires duree > 0 && ps != []
  {
    ClockFromOrigin(ps);
    (Clock(ps) - ps[0].timestampNs) / duree
  }

  predicate IsCarrier(p: Packet) { p.charge >= CARRIER_MIN }

  function Direction(p: Packet): int { if p.up then 1 else -1 }

  // The packets of ps that go up, or down.
  function PacketsGoing(ps: seq<Packet>, up: bool): nat {
    if ps == [] then 0 else PacketsGoing(ps[..|ps| - 1], up) + if ps[|ps| - 1].up == up then 1 else 0
  }

  lemma {:induction false} UpOrDown(ps: seq<Packet>)
    ensures PacketsGoing(ps, true) + PacketsGoing(ps, false) == |ps|
  {
    if ps != [] {
      UpOrDown(ps[..|ps| - 1]);
    }
  }

  // The direction of the last carrier packet, 0 if there was none.
  function LastDirection(ps: seq<Packet>): int {
    if ps == [] then 0
    else if IsCarrier(ps[|ps| - 1]) then Direction(ps[|ps| - 1])
    else LastDirection(ps[..|ps| - 1])
  }

  // The last packet of ps turns the direction of the carriers around.
  predicate IsTurn(ps: seq<Packet>)
    requires ps != []
  {
    var before := LastDirection(ps[..|ps| - 1]);
    IsCarrier(ps[|ps| - 1]) && before != 0 && Direction(ps[|ps| - 1]) != before
  }

  function PacketsIn(ps: seq<Packet>, duree: nat, k: nat): nat
    requires duree > 0
  {
    if ps == [] then 0
    else PacketsIn(ps[..|ps| - 1], duree, k) + if WindowOf(ps, duree) == k then 1 else 0
  }

  function TurnsIn(ps: seq<Packet>, duree: nat, k: nat): nat
    requires duree > 0
  {
    if ps == [] then 0
    else TurnsIn(ps[..|ps| - 1], duree, k) + if WindowOf(ps, duree) == k && IsTurn(ps) then 1 else 0
  }

  function UpBytesIn(ps: seq<Packet>, duree: nat, k: nat): nat
    requires duree > 0
  {
    if ps == [] then 0
    else
      var p := ps[|ps| - 1];
      UpBytesIn(ps[..|ps| - 1], duree, k) + if WindowOf(ps, duree) == k && p.up && IsCarrier(p) then p.charge else 0
  }

  predicate Active(ps: seq<Packet>, duree: nat, k: nat)
    requires duree > 0
  {
    PacketsIn(ps, duree, k) > 0
  }

  predicate Bidirectional(ps: seq<Packet>, duree: nat, k: nat)
    requires duree > 0
  {
    CarriesBoth(TurnsIn(ps, duree, k), UpBytesIn(ps, duree, k))
  }

  function CountActive(ps: seq<Packet>, duree: nat, n: nat): nat
    requires duree > 0
  {
    if n == 0 then 0 else CountActive(ps, duree, n - 1) + if Active(ps, duree, n - 1) then 1 else 0
  }

  function CountBidirectional(ps: seq<Packet>, duree: nat, n: nat): nat
    requires duree > 0
  {
    if n == 0 then 0 else CountBidirectional(ps, duree, n - 1) + if Bidirectional(ps, duree, n - 1) then 1 else 0
  }

  // The run of bidirectional windows that ends just before window n.
  function RunBefore(ps: seq<Packet>, duree: nat, n: nat): nat
    requires duree > 0
  {
    if n == 0 || !Bidirectional(ps, duree, n - 1) then 0 else RunBefore(ps, duree, n - 1) + 1
  }

  function LongestRun(ps: seq<Packet>, duree: nat, n: nat): nat
    requires duree > 0
  {
    if n == 0 then 0 else Max(LongestRun(ps, duree, n - 1), RunBefore(ps, duree, n))
  }

  // At least two turns, and at least 256 bytes carried up.
  lemma BidirectionalIff(ps: seq<Packet>, duree: nat, k: nat)
    requires duree > 0
    ensures Bidirectional(ps, duree, k) <==> 1 < TurnsIn(ps, duree, k) && 255 < UpBytesIn(ps, duree, k)
  {
    hide TurnsIn, UpBytesIn;
  }

  predicate AllBidirectional(ps: seq<Packet>, duree: nat, a: nat, b: nat)
    requires duree > 0
  {
    forall k: nat :: a <= k < b ==> Bidirectional(ps, duree, k)
  }

  lemma {:induction false} RunBeforeIsMaximal(ps: seq<Packet>, duree: nat, n: nat)
    requires duree > 0
    ensures RunBefore(ps, duree, n) <= n
    ensures AllBidirectional(ps, duree, n - RunBefore(ps, duree, n), n)
    ensures forall a: nat :: a <= n && AllBidirectional(ps, duree, a, n) ==> n - a <= RunBefore(ps, duree, n)
  {
    hide Bidirectional;
    if n > 0 && Bidirectional(ps, duree, n - 1) {
      RunBeforeIsMaximal(ps, duree, n - 1);
      forall a: nat | a <= n && AllBidirectional(ps, duree, a, n)
        ensures n - a <= RunBefore(ps, duree, n)
      {
        assert a < n ==> AllBidirectional(ps, duree, a, n - 1);
      }
    }
  }

  // LongestRun is the length of the longest stretch of consecutive
  // bidirectional windows among the first n.
  lemma {:induction false} LongestRunIsLongest(ps: seq<Packet>, duree: nat, n: nat)
    requires duree > 0
    ensures forall a: nat, b: nat :: a <= b <= n && AllBidirectional(ps, duree, a, b) ==>
      b - a <= LongestRun(ps, duree, n)
    ensures exists a: nat, b: nat ::
      a <= b <= n && AllBidirectional(ps, duree, a, b) && b - a == LongestRun(ps, duree, n)
  {
    hide Bidirectional, AllBidirectional, RunBefore;
    RunBeforeIsMaximal(ps, duree, n);
    if n == 0 {
      assert AllBidirectional(ps, duree, 0, 0) by { EmptyStretch(ps, duree); }
    } else {
      LongestRunIsLongest(ps, duree, n - 1);
      if LongestRun(ps, duree, n) == RunBefore(ps, duree, n) {
        assert AllBidirectional(ps, duree, n - RunBefore(ps, duree, n), n);
      }
    }
  }

  lemma EmptyStretch(ps: seq<Packet>, duree: nat)
    requires duree > 0
    ensures AllBidirectional(ps, duree, 0, 0)
  {
  }

  // ------------------------------------------------------------ agreement

  // The counters after the run ps, its current window still open.
  ghost predicate Tracks(ps: seq<Packet>, duree: nat, c: Tracking)
    requires duree > 0 && ps != []
  {
    var w := WindowOf(ps, duree);
    && c.premierNs == ps[0].timestampNs && c.dernierNs == Clock(ps)
    && c.paquetsMontants == PacketsGoing(ps, true) && c.paquetsDescendants == PacketsGoing(ps, false)
    && c.sensPrecedentPorteur == LastDirection(ps)
    && c.debutFenetreNs == ps[0].timestampNs + w * duree
    && c.paquetsFenetre == PacketsIn(ps, duree, w)
    && c.tournantsFenetre == TurnsIn(ps, duree, w)
    && c.octetsMontantsPorteursFenetre == UpBytesIn(ps, duree, w)
    && ClosedCounts(ps, duree, w, c)
  }

  // The counters of the windows closed so far: the first n.
  ghost predicate ClosedCounts(ps: seq<Packet>, duree: nat, n: nat, c: Tracking)
    requires duree > 0
  {
    && c.fenetresObservees == n
    && c.fenetresActives == CountActive(ps, duree, n)
    && c.fenetresBidirectionnelles == CountBidirectional(ps, duree, n)
    && c.serieBidirectionnelle == RunBefore(ps, duree, n)
    && c.serieBidirectionnelleMax == LongestRun(ps, duree, n)
  }

  lemma {:induction false} WindowsGrow(ps: seq<Packet>, duree: nat, i: nat)
    requires duree > 0 && 0 < i <= |ps|
    ensures WindowOf(ps[..i], duree) <= WindowOf(ps, duree)
    decreases |ps|
  {
    if i == |ps| {
      assert ps[..i] == ps;
    } else {
      var p := ps[..|ps| - 1];
      WindowsGrow(p, duree, i);
      assert p[..i] == ps[..i];
      ClockFromOrigin(p);
      Monotone(Clock(p) - ps[0].timestampNs, Clock(ps) - ps[0].timestampNs, duree);
    }
  }

  lemma Monotone(x: nat, y: nat, d: nat)
    requires d > 0 && x <= y
    ensures x / d <= y / d
  {
    QuotientUnique(x, d, x / d);
    QuotientUnique(y, d, y / d);
    MulLe(y / d + 1, x / d, d);
  }

  // Windows past the current one are empty.
  lemma {:induction false} NothingAhead(ps: seq<Packet>, duree: nat, k: nat)
    requires duree > 0 && (ps == [] || k > WindowOf(ps, duree))
    ensures PacketsIn(ps, duree, k) == 0 && TurnsIn(ps, duree, k) == 0 && UpBytesIn(ps, duree, k) == 0
  {
    hide WindowOf;
    if |ps| > 1 {
      WindowsGrow(ps, duree, |ps| - 1);
      NothingAhead(ps[..|ps| - 1], duree, k);
    } else if |ps| == 1 {
      assert ps[..|ps| - 1] == [];
    }
  }

  // A packet added to a later window leaves the counts of the first n alone.
  lemma {:induction false} EarlierWindowsStay(ps: seq<Packet>, qs: seq<Packet>, duree: nat, n: nat)
    requires duree > 0 && qs != [] && qs[..|qs| - 1] == ps
    requires n <= WindowOf(qs, duree)
    ensures CountActive(qs, duree, n) == CountActive(ps, duree, n)
    ensures CountBidirectional(qs, duree, n) == CountBidirectional(ps, duree, n)
    ensures RunBefore(qs, duree, n) == RunBefore(ps, duree, n)
    ensures LongestRun(qs, duree, n) == LongestRun(ps, duree, n)
  {
    hide WindowOf;
    if n > 0 {
      EarlierWindowsStay(ps, qs, duree, n - 1);
      assert PacketsIn(qs, duree, n - 1) == PacketsIn(ps, duree, n - 1);
      assert TurnsIn(qs, duree, n - 1) == TurnsIn(ps, duree, n - 1);
      assert UpBytesIn(qs, duree, n - 1) == UpBytesIn(ps, duree, n - 1);
    }
  }

  // Empty windows add nothing to the counts but end the current run.
  lemma {:induction false} EmptyWindowsCount(ps: seq<Packet>, duree: nat, m: nat, n: nat)
    requires duree > 0 && m <= n
    requires ps != [] && m > WindowOf(ps, duree)
    ensures CountActive(ps, duree, n) == CountActive(ps, duree, m)
    ensures CountBidirectional(ps, duree, n) == CountBidirectional(ps, duree, m)
    ensures LongestRun(ps, duree, n) == LongestRun(ps, duree, m)
    ensures n > m ==> RunBefore(ps, duree, n) == 0
    decreases n
  {
    hide WindowOf;
    if n > m {
      EmptyWindowsCount(ps, duree, m, n - 1);
      NothingAhead(ps, duree, n - 1);
    }
  }

  // Closing the open window counts it.
  lemma CloseTracks(ps: seq<Packet>, duree: nat, c: Tracking)
    requires duree > 0 && ps != [] && Tracks(ps, duree, c)
    ensures ClosedCounts(ps, duree, WindowOf(ps, duree) + 1, CloseWindow(c))
  {
    hide Clock, PacketsIn, TurnsIn, UpBytesIn, WindowOf;
  }

  lemma JumpTracks(ps: seq<Packet>, duree: nat, c: Tracking, w2: nat)
    requires duree > 0 && ps != [] && WindowOf(ps, duree) < w2
    requires ClosedCounts(ps, duree, WindowOf(ps, duree) + 1, c)
    ensures var sautees := w2 - WindowOf(ps, duree) - 1;
      ClosedCounts(ps, duree, w2,
                   if sautees > 0 then Skip(c, sautees) else c)
  {
    hide WindowOf, CountActive, CountBidirectional, RunBefore, LongestRun;
    EmptyWindowsCount(ps, duree, WindowOf(ps, duree) + 1, w2);
  }

  // Moving on from window w to window w2 closes w and skips the empty ones.
  lemma AdvanceTracks(ps: seq<Packet>, duree: nat, c: Tracking, instant: nat)
    requires duree > 0 && ps != [] && Tracks(ps, duree, c) && instant >= Clock(ps)
    ensures instant >= ps[0].timestampNs
    ensures var w2 := (instant - ps[0].timestampNs) / duree;
      var d := Advance(c, instant, duree);
      && w2 >= WindowOf(ps, duree)
      && ClosedCounts(ps, duree, w2, d)
      && d.debutFenetreNs == ps[0].timestampNs + w2 * duree
      && d.paquetsFenetre == PacketsIn(ps, duree, w2)
      && d.tournantsFenetre == TurnsIn(ps, duree, w2)
      && d.octetsMontantsPorteursFenetre == UpBytesIn(ps, duree, w2)
      && d.premierNs == c.premierNs && d.sensPrecedentPorteur == c.sensPrecedentPorteur
      && d.paquetsMontants == c.paquetsMontants && d.paquetsDescendants == c.paquetsDescendants
  {
    hide Clock, PacketsIn, TurnsIn, UpBytesIn, ClosedCounts;
    ClockFromOrigin(ps);
    var w, t0 := WindowOf(ps, duree), ps[0].timestampNs;
    Monotone(Clock(ps) - t0, instant - t0, duree);
    QuotientUnique(Clock(ps) - t0, duree, w);
    WindowShift(instant - t0, duree, w, (instant - t0) / duree);
    if instant >= c.debutFenetreNs + duree {
      CloseTracks(ps, duree, c);
      JumpTracks(ps, duree, CloseWindow(c), (instant - t0) / duree);
      NothingAhead(ps, duree, (instant - t0) / duree);
      AdvanceByJump(ps, duree, c, instant, w, (instant - t0) / duree);
    }
  }

  lemma AdvanceByJump(ps: seq<Packet>, duree: nat, c: Tracking, instant: nat, w: nat, w2: nat)
    requires duree > 0 && ps != [] && instant >= ps[0].timestampNs
    requires c.debutFenetreNs == ps[0].timestampNs + w * duree
    requires w2 == (instant - ps[0].timestampNs) / duree && w < w2
    requires instant >= c.debutFenetreNs + duree
    requires (instant - ps[0].timestampNs - w * duree) / duree == w2 - w
    requires ClosedCounts(ps, duree, w2,
      if w2 - w - 1 > 0 then Skip(CloseWindow(c), w2 - w - 1)
      else CloseWindow(c))
    ensures ClosedCounts(ps, duree, w2, Advance(c, instant, duree))
    ensures Advance(c, instant, duree).debutFenetreNs == ps[0].timestampNs + w2 * duree
    ensures EmptyWindow(Advance(c, instant, duree))
  {
    hide CountActive, CountBidirectional, RunBefore, LongestRun;
    assert instant - c.debutFenetreNs == instant - ps[0].timestampNs - w * duree;
    assert (w2 - w) * duree == w2 * duree - w * duree;
  }

  // Counting windows from the origin or from the start of window w.
  lemma WindowShift(x: nat, d: nat, w: nat, q: nat)
    requires d > 0 && w * d <= x && q == x / d
    ensures (x - w * d) / d == q - w
    ensures x < w * d + d <==> q == w
    ensures q >= w
  {
    QuotientUnique(x, d, q);
    MulNext(w, d);
    QuotientUnique(x, d, w);
    MulLe(q + 1, w, d);
    assert (q - w) * d == q * d - w * d;
    assert (q - w + 1) * d == (q + 1) * d - w * d;
    QuotientUnique(x - w * d, d, q - w);
  }

  // After any run of packets the counters are those of the run.
  lemma {:induction false} TrackIsRun(ps: seq<Packet>, duree: nat)
    requires duree > 0 && ps != []
    ensures Tracks(ps, duree, Track(ps, duree))
  {
    var before, p := ps[..|ps| - 1], ps[|ps| - 1];
    if before == [] {
      FirstPacket(ps, duree);
    } else {
      TrackIsRun(before, duree);
      AccumulateTracks(before, ps, duree, Track(before, duree));
    }
  }

  lemma FirstPacket(ps: seq<Packet>, duree: nat)
    requires duree > 0 && |ps| == 1
    ensures Tracks(ps, duree, Track(ps, duree))
  {
    assert ps[..0] == [];
    QuotientUnique(0, duree, 0);
    assert Clock(ps) == ps[0].timestampNs;
    assert WindowOf(ps, duree) == 0;
  }

  lemma AccumulateTracks(before: seq<Packet>, ps: seq<Packet>, duree: nat, c: Tracking)
    requires duree > 0 && before != [] && ps != [] && ps[..|ps| - 1] == before
    requires Tracks(before, duree, c)
    ensures Tracks(ps, duree, Accumulate(c, ps[|ps| - 1], duree))
  {
    hide Advance, ClosedCounts, CountActive, CountBidirectional, RunBefore, LongestRun;
    var p := ps[|ps| - 1];
    var instant := Max(p.timestampNs, c.dernierNs);
    AdvanceTracks(before, duree, c, instant);
    assert instant == Clock(ps);
    var w2 := WindowOf(ps, duree);
    CountsCarryOver(before, ps, duree, w2, Advance(c, instant, duree), Accumulate(c, p, duree));
  }

  lemma CountsCarryOver(before: seq<Packet>, ps: seq<Packet>, duree: nat, w: nat, a: Tracking, b: Tracking)
    requires duree > 0 && ps != [] && ps[..|ps| - 1] == before && w == WindowOf(ps, duree)
    requires ClosedCounts(before, duree, w, a)
    requires b.fenetresObservees == a.fenetresObservees && b.fenetresActives == a.fenetresActives
    requires b.fenetresBidirectionnelles == a.fenetresBidirectionnelles
    requires b.serieBidirectionnelle == a.serieBidirectionnelle
    requires b.serieBidirectionnelleMax == a.serieBidirectionnelleMax
    ensures ClosedCounts(ps, duree, w, b)
  {
    EarlierWindowsStay(before, ps, duree, w);
  }

  lemma {:induction false} BidirectionalNeedsPackets(ps: seq<Packet>, duree: nat, k: nat)
    requires duree > 0
    ensures TurnsIn(ps, duree, k) <= PacketsIn(ps, duree, k)
  {
    hide WindowOf;
    if ps != [] {
      BidirectionalNeedsPackets(ps[..|ps| - 1], duree, k);
    }
  }

  lemma {:induction false} CountsOrdered(ps: seq<Packet>, duree: nat, n: nat)
    requires duree > 0
    ensures CountBidirectional(ps, duree, n) <= CountActive(ps, duree, n) <= n
  {
    if n > 0 {
      CountsOrdered(ps, duree, n - 1);
      BidirectionalNeedsPackets(ps, duree, n - 1);
    }
  }

  // construireVerdict closes the last window. For every packet run the
  // verdict then counts exactly the windows of the run.
  lemma FinalCounts(ps: seq<Packet>, duree: nat)
    requires duree > 0 && ps != []
    ensures var c := CloseWindow(Track(ps, duree));
      var n := WindowOf(ps, duree) + 1;
      && c.dernierNs >= c.premierNs
      && c.fenetresObservees == n == (c.dernierNs - c.premierNs) / duree + 1
      && c.fenetresActives == CountActive(ps, duree, n)
      && c.fenetresBidirectionnelles == CountBidirectional(ps, duree, n)
      && c.serieBidirectionnelleMax == LongestRun(ps, duree, n)
      && c.fenetresBidirectionnelles <= c.fenetresActives <= c.fenetresObservees
  {
    TrackIsRun(ps, duree);
    ClockFromOrigin(ps);
    CountsOrdered(ps, duree, WindowOf(ps, duree) + 1);
  }

  // --------------------------------------------------- the imperative form

  method CloturerFenetre(c0: Tracking) returns (c: Tracking)
    ensures c == CloseWindow(c0)
  {
    c := c0.(fenetresObservees := c0.fenetresObservees + 1);
    if c.paquetsFenetre > 0 {
      c := c.(fenetresActives := c.fenetresActives + 1);
    }
    if c.tournantsFenetre >= TURNS_MIN && c.octetsMontantsPorteursFenetre >= UP_BYTES_MIN {
      c := c.(fenetresBidirectionnelles := c.fenetresBidirectionnelles + 1,
              serieBidirectionnelle := c.serieBidirectionnelle + 1);
      c := c.(serieBidirectionnelleMax := Max(c.serieBidirectionnelleMax, c.serieBidirectionnelle));
    } else {
      c := c.(serieBidirectionnelle := 0);
    }
    c := c.(paquetsFenetre := 0, tournantsFenetre := 0, octetsMontantsPorteursFenetre := 0);
  }

  // The constant-time advance, proved equal to the loop it replaces.
  method AvancerFenetres(c0: Tracking, instant: nat, duree: nat) returns (c: Tracking)
    requires duree > 0 && instant >= c0.debutFenetreNs
    ensures c == Advance(c0, instant, duree) == AdvanceOneByOne(c0, instant, duree)
  {
    AdvanceIsOneByOne(c0, instant, duree);
    if instant < c0.debutFenetreNs + duree {
      return c0;
    }
    c := CloturerFenetre(c0);
    StepsAtLeastOne(instant - c.debutFenetreNs, duree);
    var sautees := (instant - c.debutFenetreNs) / duree - 1;
    if sautees > 0 {
      c := c.(fenetresObservees := c.fenetresObservees + sautees, serieBidirectionnelle := 0);
    }
    c := c.(debutFenetreNs := c.debutFenetreNs + (sautees + 1) * duree);
  }

  method Accumuler(c0: Tracking, p: Packet, duree: nat) returns (c: Tracking, regressed: bool)
    requires duree > 0
    requires c0.paquetsMontants + c0.paquetsDescendants > 0 ==> c0.debutFenetreNs <= c0.dernierNs
    ensures c == Accumulate(c0, p, duree)
    ensures regressed <==> c0.paquetsMontants + c0.paquetsDescendants > 0 && p.timestampNs < c0.dernierNs
  {
    hide Advance;
    c := c0;
    var instant := p.timestampNs;
    if c.paquetsMontants + c.paquetsDescendants == 0 {
      c := c.(premierNs := instant, dernierNs := instant, debutFenetreNs := instant);
    }
    regressed := instant < c.dernierNs;
    if regressed {
      instant := c.dernierNs;
    }
    c := AvancerFenetres(c, instant, duree);
    c := c.(dernierNs := instant, paquetsFenetre := c.paquetsFenetre + 1);
    var carrier := p.charge >= CARRIER_MIN;
    if p.up {
      c := c.(paquetsMontants := c.paquetsMontants + 1);
      if carrier {
        c := c.(octetsMontantsPorteursFenetre := c.octetsMontantsPorteursFenetre + p.charge);
      }
    } else {
      c := c.(paquetsDescendants := c.paquetsDescendants + 1);
    }
    if carrier {
      var sens := if p.up then 1 else -1;
      if c.sensPrecedentPorteur != 0 && sens != c.sensPrecedentPorteur {
        c := c.(tournantsFenetre := c.tournantsFenetre + 1);
      }
      c := c.(sensPrecedentPorteur := sens);
    }
  }
}
