// One encrypted conversation (encrypted_wire_eval.go): every packet feeds its
// windows and its bursts, and the verdict closes both.

module ConversationFlow {
  import opened Numbers
  import opened FlowWindows
  import opened FlowBursts

  datatype Config = Config(dureeFenetreNs: nat, silenceInterRafaleNs: nat)

  predicate ValidConfig(c: Config) { c.dureeFenetreNs > 0 }

  // The windows and the bursts of one conversationChiffree.
  datatype Flow = Flow(fenetres: Tracking, rafales: Bursts)

  const NEW_FLOW: Flow := Flow(FRESH, NO_BURST)

  function TrackFlow(ps: seq<Packet>, c: Config): Flow
    requires ValidConfig(c)
  {
    Flow(Track(ps, c.dureeFenetreNs), TrackBursts(ps, c.silenceInterRafaleNs))
  }

  // construireVerdict closes the open burst and the open window.
  function CloseFlow(f: Flow): Flow { Flow(CloseWindow(f.fenetres), CloseBurst(f.rafales)) }

  lemma FlowBegins(c: Config)
    requires ValidConfig(c)
    ensures TrackFlow([], c) == NEW_FLOW
  {
  }

  // accumuler, on the conversation of a run so far.
  method AccumulerPaquet(ghost ps: seq<Packet>, f: Flow, p: Packet, c: Config) returns (r: Flow, regressed: bool)
    requires ValidConfig(c) && f == TrackFlow(ps, c)
    ensures r == TrackFlow(ps + [p], c)
    ensures regressed <==> ps != [] && p.timestampNs < Clock(ps)
  {
    assert (ps + [p])[..|ps|] == ps;
    OpenWindowStarted(ps, c.dureeFenetreNs);
    var fenetres, late := Accumuler(f.fenetres, p, c.dureeFenetreNs);
    var rafales := AccumulerRafale(f.rafales, p, c.silenceInterRafaleNs);
    return Flow(fenetres, rafales), late;
  }

  method CloturerFlow(f: Flow) returns (r: Flow)
    ensures r == CloseFlow(f)
  {
    var rafales := CloturerRafale(f.rafales);
    var fenetres := CloturerFenetre(f.fenetres);
    return Flow(fenetres, rafales);
  }

  lemma OpenWindowStarted(ps: seq<Packet>, duree: nat)
    requires duree > 0
    ensures var c := Track(ps, duree);
      && c.paquetsMontants + c.paquetsDescendants == |ps|
      && c.dernierNs == Clock(ps)
      && (ps != [] ==> c.debutFenetreNs <= c.dernierNs)
  {
    if ps != [] {
      hide Track, ClosedCounts;
      TrackIsRun(ps, duree);
      ClockFromOrigin(ps);
      QuotientUnique(Clock(ps) - ps[0].timestampNs, duree, WindowOf(ps, duree));
    }
  }

  // What a verdict says of the whole run: its windows, and its bursts.
  ghost predicate IsVerdictOfRun(f: Flow, ps: seq<Packet>, c: Config)
    requires ValidConfig(c) && ps != []
  {
    var w, n := f.fenetres, WindowOf(ps, c.dureeFenetreNs) + 1;
    var b, m := f.rafales, |Starts(ps, c.silenceInterRafaleNs)|;
    && w.premierNs == ps[0].timestampNs && w.dernierNs == Clock(ps)
    && w.paquetsMontants == PacketsGoing(ps, true) && w.paquetsDescendants == PacketsGoing(ps, false)
    && w.fenetresObservees == n
    && w.fenetresActives == CountActive(ps, c.dureeFenetreNs, n)
    && w.fenetresBidirectionnelles == CountBidirectional(ps, c.dureeFenetreNs, n)
    && w.serieBidirectionnelleMax == LongestRun(ps, c.dureeFenetreNs, n)
    && b.rafales == m
    && b.rafalesPorteuses == |Carrying(ps, c.silenceInterRafaleNs, m)|
    && b.chargeMontanteRafale == Charges(ps, c.silenceInterRafaleNs, m)
    && b.interRafales == Gaps(ps, c.silenceInterRafaleNs, m)
  }

  lemma FinalFlow(ps: seq<Packet>, c: Config)
    requires ValidConfig(c) && ps != []
    ensures IsVerdictOfRun(CloseFlow(TrackFlow(ps, c)), ps, c)
  {
    hide Track, TrackBursts, CloseBurst, ClosedCounts, CountActive, CountBidirectional, LongestRun;
    hide Carrying, Charges, Gaps;
    FinalCounts(ps, c.dureeFenetreNs);
    TrackIsRun(ps, c.dureeFenetreNs);
    FinalBursts(ps, c.silenceInterRafaleNs);
  }
}
