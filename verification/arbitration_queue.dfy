// FileArbitrageCinetique (internal/cinetique/arbitre_slm.go): any number of
// submitters and closers and one worker around a bounded channel. Every
// lock operation, test, channel operation and counter update is a step of
// its own, and all parties interleave in any order.

module ArbitrationQueue {
  import opened Wrappers

  // A goroutine calling in.
  datatype Id = Id(n: nat)

  // An episode and whether it calls for arbitration (DoitEscaladeSLM).
  datatype Dossier = Dossier(name: string, escalates: bool)

  // What a call answers: nil for the first two, an error for the others.
  datatype Answer = Accepted | Ignored | Closed | Full

  // Where a call of SoumettreNonBloquant stands.
  datatype Submitter =
    | Idle
    | WantsRead(d: Dossier)
    | Locked(d: Dossier)
    | Filtering(d: Dossier)
    | Sending(d: Dossier)
    | Sent
    | Leaving(answer: Answer)

  // Where a call of Fermer stands.
  datatype Closer = NotCalled | AtOnce | WantsWrite | HasWrite | ClosingChannel | Unlocking | Awaiting | Returned

  datatype Once = NotStarted | Running(id: Id) | Done

  datatype Worker = Receiving | InHand(d: Dossier) | Finished

  // sent and handled record the history; nothing reads them.
  datatype State = State(
    capacity: nat, queue: seq<Dossier>, channelClosed: bool, fermee: bool,
    readers: set<Id>, writer: Option<Id>, once: Once, worker: Worker,
    submitters: map<Id, Submitter>, closers: map<Id, Closer>,
    soumis: nat, ignores: nat, ecartes: nat, arbitres: nat, erreurs: nat,
    sent: seq<Dossier>, handled: seq<Dossier>)

  datatype Step =
    | Submit(id: Id, d: Dossier)
    | ReadLock(id: Id)
    | TestClosed(id: Id)
    | Filter(id: Id)
    | TrySend(id: Id)
    | CountSent(id: Id)
    | ReadUnlock(id: Id)
    | Receive
    | Finish(ok: bool)
    | CallFermer(id: Id)
    | EnterOnce(id: Id)
    | WriteLock(id: Id)
    | SetFermee(id: Id)
    | CloseChannel(id: Id)
    | WriteUnlock(id: Id)
    | WaitWorker(id: Id)

  predicate Initial(s: State) {
    && s.capacity > 0 && s.queue == [] && !s.channelClosed && !s.fermee
    && s.readers == {} && s.writer == None && s.once == NotStarted && s.worker == Receiving
    && s.submitters == map[] && s.closers == map[]
    && s.soumis == s.ignores == s.ecartes == s.arbitres == s.erreurs == 0
    && s.sent == [] && s.handled == []
  }

  function Sub(s: State, id: Id): Submitter {
    if id in s.submitters then s.submitters[id] else Idle
  }

  function Clo(s: State, id: Id): Closer {
    if id in s.closers then s.closers[id] else NotCalled
  }

  function SetSub(s: State, id: Id, p: Submitter): State { s.(submitters := s.submitters[id := p]) }

  function SetClo(s: State, id: Id, p: Closer): State { s.(closers := s.closers[id := p]) }

  predicate BySubmitter(step: Step) {
    || step.Submit? || step.ReadLock? || step.TestClosed? || step.Filter?
    || step.TrySend? || step.CountSent? || step.ReadUnlock?
  }

  predicate ByCloser(step: Step) {
    || step.CallFermer? || step.EnterOnce? || step.WriteLock? || step.SetFermee?
    || step.CloseChannel? || step.WriteUnlock? || step.WaitWorker?
  }

  predicate Enabled(s: State, step: Step) {
    match step
    case Submit(id, _) => Sub(s, id).Idle?
    case ReadLock(id) => Sub(s, id).WantsRead? && s.writer == None
    case TestClosed(id) => Sub(s, id).Locked?
    case Filter(id) => Sub(s, id).Filtering?
    case TrySend(id) => Sub(s, id).Sending?
    case CountSent(id) => Sub(s, id).Sent?
    case ReadUnlock(id) => Sub(s, id).Leaving?
    case Receive => s.worker.Receiving? && (s.queue != [] || s.channelClosed)
    case Finish(_) => s.worker.InHand?
    case CallFermer(id) => Clo(s, id).NotCalled?
    case EnterOnce(id) => Clo(s, id).AtOnce? && !s.once.Running?
    case WriteLock(id) => Clo(s, id).WantsWrite? && s.readers == {} && s.writer == None
    case SetFermee(id) => Clo(s, id).HasWrite?
    case CloseChannel(id) => Clo(s, id).ClosingChannel?
    case WriteUnlock(id) => Clo(s, id).Unlocking?
    case WaitWorker(id) => Clo(s, id).Awaiting? && s.worker.Finished?
  }

  function BySubmitterApply(s: State, step: Step): State
    requires Enabled(s, step) && BySubmitter(step)
  {
    match step
    case Submit(id, d) => SetSub(s, id, WantsRead(d))
    case ReadLock(id) => SetSub(s, id, Locked(Sub(s, id).d)).(readers := s.readers + {id})
    case TestClosed(id) => SetSub(s, id, if s.fermee then Leaving(Closed) else Filtering(Sub(s, id).d))
    case Filter(id) =>
      if Sub(s, id).d.escalates then SetSub(s, id, Sending(Sub(s, id).d))
      else SetSub(s, id, Leaving(Ignored)).(ignores := s.ignores + 1)
    case TrySend(id) =>
      var d := Sub(s, id).d;
      if |s.queue| < s.capacity then SetSub(s, id, Sent).(queue := s.queue + [d], sent := s.sent + [d])
      else SetSub(s, id, Leaving(Full)).(ecartes := s.ecartes + 1)
    case CountSent(id) => SetSub(s, id, Leaving(Accepted)).(soumis := s.soumis + 1)
    case ReadUnlock(id) => SetSub(s, id, Idle).(readers := s.readers - {id})
  }

  function ByWorkerApply(s: State, step: Step): State
    requires Enabled(s, step) && (step.Receive? || step.Finish?)
  {
    match step
    case Receive =>
      if s.queue != [] then s.(worker := InHand(s.queue[0]), queue := s.queue[1..]) else s.(worker := Finished)
    case Finish(ok) =>
      var done := s.(worker := Receiving, handled := s.handled + [s.worker.d]);
      if ok then done.(arbitres := s.arbitres + 1) else done.(erreurs := s.erreurs + 1)
  }

  function ByCloserApply(s: State, step: Step): State
    requires Enabled(s, step) && ByCloser(step)
  {
    match step
    case CallFermer(id) => SetClo(s, id, AtOnce)
    case EnterOnce(id) =>
      if s.once.Done? then SetClo(s, id, Returned) else SetClo(s, id, WantsWrite).(once := Running(id))
    case WriteLock(id) => SetClo(s, id, HasWrite).(writer := Some(id))
    case SetFermee(id) => SetClo(s, id, ClosingChannel).(fermee := true)
    case CloseChannel(id) => SetClo(s, id, Unlocking).(channelClosed := true)
    case WriteUnlock(id) => SetClo(s, id, Awaiting).(writer := None)
    case WaitWorker(id) => SetClo(s, id, Returned).(once := Done)
  }

  function Apply(s: State, step: Step): State
    requires Enabled(s, step)
  {
    if BySubmitter(step) then BySubmitterApply(s, step)
    else if ByCloser(step) then ByCloserApply(s, step)
    else ByWorkerApply(s, step)
  }

  // The state after a schedule, None if some step of it was not possible.
  function After(s: State, steps: seq<Step>): Option<State> {
    if steps == [] then Some(s)
    else
      var before := After(s, steps[..|steps| - 1]);
      if before.Some? && Enabled(before.value, steps[|steps| - 1]) then Some(Apply(before.value, steps[|steps| - 1]))
      else None
  }

  // ------------------------------------------------------------ invariant

  predicate HoldsRead(p: Submitter) { p.Locked? || p.Filtering? || p.Sending? || p.Sent? || p.Leaving? }

  predicate PastTest(p: Submitter) { p.Filtering? || p.Sending? || p.Sent? }

  predicate HoldsWrite(p: Closer) { p.HasWrite? || p.ClosingChannel? || p.Unlocking? }

  predicate InsideOnce(p: Closer) { p.WantsWrite? || HoldsWrite(p) || p.Awaiting? }

  // Submitters between their send and its count.
  function Uncounted(submitters: map<Id, Submitter>): set<Id> { InPhase(submitters, IsSent) }

  predicate IsSent(p: Submitter) { p.Sent? }

  function InPhase(submitters: map<Id, Submitter>, phase: Submitter -> bool): set<Id> {
    set id | id in submitters && phase(submitters[id])
  }

  function Hand(w: Worker): seq<Dossier> { if w.InHand? then [w.d] else [] }

  ghost predicate LockInv(s: State) {
    && (forall id :: id in s.readers <==> HoldsRead(Sub(s, id)))
    && (s.writer.Some? ==> s.readers == {})
    && (forall id :: s.writer == Some(id) <==> HoldsWrite(Clo(s, id)))
    && (s.fermee ==> forall id :: !PastTest(Sub(s, id)))
  }

  ghost predicate CloseInv(s: State) {
    && (forall id :: InsideOnce(Clo(s, id)) <==> s.once == Running(id))
    && (forall id :: Clo(s, id).Returned? ==> s.once.Done?)
    && (s.once.Done? ==> s.worker.Finished?)
    && (s.channelClosed ==> s.fermee)
    && (forall id :: Clo(s, id).ClosingChannel? ==> s.fermee)
    && (forall id :: Clo(s, id).Unlocking? || Clo(s, id).Awaiting? ==> s.channelClosed)
    && (s.worker.Finished? ==> s.queue == [] && s.channelClosed)
  }

  // Every dossier sent is handled, in hand or queued, once and in order.
  ghost predicate HistoryInv(s: State) {
    && s.capacity > 0 && |s.queue| <= s.capacity
    && s.handled + Hand(s.worker) + s.queue == s.sent
    && |s.handled| == s.arbitres + s.erreurs
  }

  ghost predicate CountInv(s: State) {
    HistoryInv(s) && |s.sent| == s.soumis + |Uncounted(s.submitters)|
  }

  ghost predicate Inv(s: State) { LockInv(s) && CloseInv(s) && CountInv(s) }

  // A step of one party leaves where the others stand alone.
  lemma SubmittersStay(s: State, step: Step)
    requires Enabled(s, step)
    ensures BySubmitter(step) ==> forall id :: id != step.id ==> Sub(Apply(s, step), id) == Sub(s, id)
    ensures !BySubmitter(step) ==> forall id :: Sub(Apply(s, step), id) == Sub(s, id)
  {
    hide Clo;
  }

  lemma ClosersStay(s: State, step: Step)
    requires Enabled(s, step)
    ensures ByCloser(step) ==> forall id :: id != step.id ==> Clo(Apply(s, step), id) == Clo(s, id)
    ensures !ByCloser(step) ==> forall id :: Clo(Apply(s, step), id) == Clo(s, id)
  {
    hide Sub;
  }

  lemma LockStep(s: State, step: Step)
    requires LockInv(s) && CloseInv(s) && Enabled(s, step)
    ensures LockInv(Apply(s, step))
  {
    SubmittersStay(s, step);
    ClosersStay(s, step);
    if BySubmitter(step) {
      SubmitterLockStep(s, step);
    } else if ByCloser(step) {
      CloserLockStep(s, step);
    }
  }

  // What a step of a submitter does, as far as the lock is concerned.
  lemma SubmitterFields(s: State, step: Step)
    requires Enabled(s, step) && BySubmitter(step)
    ensures var t := Apply(s, step);
      && t.submitters == s.submitters[step.id := Sub(t, step.id)] && t.closers == s.closers
      && t.writer == s.writer && t.fermee == s.fermee
      && t.readers == (if step.ReadLock? then s.readers + {step.id}
                       else if step.ReadUnlock? then s.readers - {step.id} else s.readers)
      && (step.ReadLock? ==> s.writer == None)
      && (HoldsRead(Sub(t, step.id)) <==> step.ReadLock? || (HoldsRead(Sub(s, step.id)) && !step.ReadUnlock?))
      && (PastTest(Sub(t, step.id)) ==> PastTest(Sub(s, step.id)) || !s.fermee)
  {
    hide Clo;
    match step
    case Submit(id, d) =>
    case ReadLock(id) =>
    case TestClosed(id) =>
    case Filter(id) =>
    case TrySend(id) =>
    case CountSent(id) =>
    case ReadUnlock(id) =>
  }

  lemma SubmitterLockStep(s: State, step: Step)
    requires LockInv(s) && Enabled(s, step) && BySubmitter(step)
    ensures LockInv(Apply(s, step))
  {
    SubmitterFields(s, step);
    hide Apply, Enabled, HoldsRead, PastTest, HoldsWrite;
    assert forall id :: id != step.id ==> Sub(Apply(s, step), id) == Sub(s, id);
    assert forall id :: Clo(Apply(s, step), id) == Clo(s, id);
  }

  // Where a closer stands before and after its step.
  function CloserFrom(step: Step): Closer
    requires ByCloser(step)
  {
    match step
    case CallFermer(_) => NotCalled
    case EnterOnce(_) => AtOnce
    case WriteLock(_) => WantsWrite
    case SetFermee(_) => HasWrite
    case CloseChannel(_) => ClosingChannel
    case WriteUnlock(_) => Unlocking
    case WaitWorker(_) => Awaiting
  }

  function CloserTo(step: Step, once: Once): Closer
    requires ByCloser(step)
  {
    match step
    case CallFermer(_) => AtOnce
    case EnterOnce(_) => if once.Done? then Returned else WantsWrite
    case WriteLock(_) => HasWrite
    case SetFermee(_) => ClosingChannel
    case CloseChannel(_) => Unlocking
    case WriteUnlock(_) => Awaiting
    case WaitWorker(_) => Returned
  }

  // What a step of a closer does.
  lemma CloserFields(s: State, step: Step)
    requires Enabled(s, step) && ByCloser(step)
    ensures var t := Apply(s, step);
      && t.closers == s.closers[step.id := CloserTo(step, s.once)] && Clo(s, step.id) == CloserFrom(step)
      && t.submitters == s.submitters && t.readers == s.readers && t.queue == s.queue && t.worker == s.worker
      && t.fermee == (s.fermee || step.SetFermee?)
      && t.channelClosed == (s.channelClosed || step.CloseChannel?)
      && t.writer == (if step.WriteLock? then Some(step.id) else if step.WriteUnlock? then None else s.writer)
      && t.once == (if step.EnterOnce? && !s.once.Done? then Running(step.id)
                    else if step.WaitWorker? then Done else s.once)
      && (step.EnterOnce? ==> !s.once.Running?)
      && (step.WriteLock? ==> s.readers == {} && s.writer == None)
      && (step.WaitWorker? ==> s.worker.Finished?)
  {
    hide Sub;
    match step
    case CallFermer(id) =>
    case EnterOnce(id) =>
    case WriteLock(id) =>
    case SetFermee(id) =>
    case CloseChannel(id) =>
    case WriteUnlock(id) =>
    case WaitWorker(id) =>
  }

  lemma CloserLockStep(s: State, step: Step)
    requires LockInv(s) && CloseInv(s) && Enabled(s, step) && ByCloser(step)
    ensures LockInv(Apply(s, step))
  {
    CloserFields(s, step);
    hide Apply, Enabled, HoldsRead, PastTest;
    assert forall id :: id != step.id ==> Clo(Apply(s, step), id) == Clo(s, id);
    assert forall id :: Sub(Apply(s, step), id) == Sub(s, id);
  }

  lemma CloseStep(s: State, step: Step)
    requires LockInv(s) && CloseInv(s) && CountInv(s) && Enabled(s, step)
    ensures CloseInv(Apply(s, step))
  {
    if ByCloser(step) {
      CloserCloseStep(s, step);
    } else {
      OtherCloseStep(s, step);
    }
  }

  lemma CloserCloseStep(s: State, step: Step)
    requires CloseInv(s) && Enabled(s, step) && ByCloser(step)
    ensures CloseInv(Apply(s, step))
  {
    CloserFields(s, step);
    hide Apply, Enabled;
    assert forall id :: id != step.id ==> Clo(Apply(s, step), id) == Clo(s, id);
  }

  lemma OtherCloseStep(s: State, step: Step)
    requires LockInv(s) && CloseInv(s) && Enabled(s, step) && !ByCloser(step)
    ensures CloseInv(Apply(s, step))
  {
    hide Clo;
    ClosersStay(s, step);
    assert step.TrySend? ==> PastTest(Sub(s, step.id));
  }

  lemma PhaseUpdate(m: map<Id, Submitter>, phase: Submitter -> bool, id: Id, p: Submitter)
    ensures |InPhase(m[id := p], phase)| ==
      |InPhase(m, phase)| - (if id in m && phase(m[id]) then 1 else 0) + (if phase(p) then 1 else 0)
  {
    var others := InPhase(m, phase) - {id};
    if phase(p) {
      assert InPhase(m[id := p], phase) == others + {id};
    } else {
      assert InPhase(m[id := p], phase) == others;
    }
    if id in m && phase(m[id]) {
      assert InPhase(m, phase) == others + {id};
    } else {
      assert InPhase(m, phase) == others;
    }
  }

  lemma HistoryStep(s: State, step: Step)
    requires HistoryInv(s) && Enabled(s, step)
    ensures HistoryInv(Apply(s, step))
  {
    match step
    case TrySend(id) => SendHistory(s, id);
    case Receive => ReceiveHistory(s);
    case Finish(ok) => FinishHistory(s, ok);
    case _ => NoHistory(s, step);
  }

  lemma SendHistory(s: State, id: Id)
    requires HistoryInv(s) && Enabled(s, TrySend(id))
    ensures HistoryInv(Apply(s, TrySend(id)))
  {
    var before, d := s.handled + Hand(s.worker), Sub(s, id).d;
    assert before + (s.queue + [d]) == before + s.queue + [d];
  }

  lemma ReceiveHistory(s: State)
    requires HistoryInv(s) && Enabled(s, Receive)
    ensures HistoryInv(Apply(s, Receive))
  {
    if s.queue != [] {
      assert s.handled + [] + s.queue == s.handled + [s.queue[0]] + s.queue[1..];
    }
  }

  lemma FinishHistory(s: State, ok: bool)
    requires HistoryInv(s) && Enabled(s, Finish(ok))
    ensures HistoryInv(Apply(s, Finish(ok)))
  {
    assert (s.handled + [s.worker.d]) + [] == s.handled + [s.worker.d];
  }

  lemma NoHistory(s: State, step: Step)
    requires HistoryInv(s) && Enabled(s, step) && !step.TrySend? && !step.Receive? && !step.Finish?
    ensures HistoryInv(Apply(s, step))
  {
    hide Sub, Clo, Hand;
  }

  // What a step does to the number sent and the number counted.
  lemma SentBySubmitter(s: State, step: Step)
    requires Enabled(s, step) && BySubmitter(step)
    ensures var t := Apply(s, step);
      && |t.sent| == |s.sent| + (if Sub(t, step.id).Sent? then 1 else 0)
      && t.soumis == s.soumis + (if Sub(s, step.id).Sent? then 1 else 0)
  {
    hide Clo;
    match step
    case Submit(id, d) =>
    case ReadLock(id) =>
    case TestClosed(id) =>
    case Filter(id) =>
    case TrySend(id) =>
    case CountSent(id) =>
    case ReadUnlock(id) =>
  }

  lemma SentByNoOther(s: State, step: Step)
    requires Enabled(s, step) && !BySubmitter(step)
    ensures var t := Apply(s, step); t.submitters == s.submitters && t.sent == s.sent && t.soumis == s.soumis
  {
    hide Clo, Sub;
    match step
    case CallFermer(id) =>
    case EnterOnce(id) =>
    case WriteLock(id) =>
    case SetFermee(id) =>
    case CloseChannel(id) =>
    case WriteUnlock(id) =>
    case WaitWorker(id) =>
    case _ =>
  }

  lemma CountStep(s: State, step: Step)
    requires CountInv(s) && Enabled(s, step)
    ensures CountInv(Apply(s, step))
  {
    HistoryStep(s, step);
    hide InPhase, HistoryInv, Apply, Enabled;
    var t := Apply(s, step);
    if BySubmitter(step) {
      SubmitterFields(s, step);
      SentBySubmitter(s, step);
      PhaseUpdate(s.submitters, IsSent, step.id, Sub(t, step.id));
    } else {
      SentByNoOther(s, step);
    }
  }

  lemma {:induction false} EverySchedule(init: State, steps: seq<Step>)
    requires Initial(init) && After(init, steps).Some?
    ensures Inv(After(init, steps).value)
  {
    hide Apply, LockInv, CloseInv, CountInv;
    if steps == [] {
      InitialInv(init);
    } else {
      EverySchedule(init, steps[..|steps| - 1]);
      var before, step := After(init, steps[..|steps| - 1]).value, steps[|steps| - 1];
      LockStep(before, step);
      CloseStep(before, step);
      CountStep(before, step);
    }
  }

  lemma InitialInv(s: State)
    requires Initial(s)
    ensures Inv(s)
  {
    assert Uncounted(s.submitters) == {};
  }

  // -------------------------------------------------------------- results

  // A submitter about to send always finds the channel open: no schedule
  // sends on a closed channel.
  lemma NothingSentAfterClose(init: State, steps: seq<Step>, id: Id)
    requires Initial(init) && After(init, steps).Some?
    requires Enabled(After(init, steps).value, TrySend(id))
    ensures !After(init, steps).value.channelClosed
  {
    EverySchedule(init, steps);
    assert PastTest(Sub(After(init, steps).value, id));
  }

  // The accounting at every moment of every schedule.
  lemma ExactAccounting(init: State, steps: seq<Step>)
    requires Initial(init) && After(init, steps).Some?
    ensures var s := After(init, steps).value;
      s.soumis + |Uncounted(s.submitters)| == s.arbitres + s.erreurs + |s.queue| + |Hand(s.worker)|
      && s.handled <= s.sent && |s.queue| <= s.capacity
  {
    hide Uncounted, After, LockInv, CloseInv;
    EverySchedule(init, steps);
    var s := After(init, steps).value;
    assert s.handled + Hand(s.worker) + s.queue == s.handled + (Hand(s.worker) + s.queue);
  }

  // When some call of Fermer has returned, everything accepted has been
  // handled, once and in the order of acceptance, and the counters agree.
  lemma FermerDrains(init: State, steps: seq<Step>, id: Id)
    requires Initial(init) && After(init, steps).Some?
    requires Clo(After(init, steps).value, id).Returned?
    ensures var s := After(init, steps).value;
      && s.queue == [] && s.handled == s.sent
      && s.soumis == s.arbitres + s.erreurs == |s.sent|
  {
    EverySchedule(init, steps);
    var s := After(init, steps).value;
    assert forall i :: !PastTest(Sub(s, i));
    forall i | i in s.submitters
      ensures !s.submitters[i].Sent?
    {
      assert !PastTest(Sub(s, i));
    }
    assert Uncounted(s.submitters) == {};
    assert s.handled + [] + [] == s.handled;
  }

  predicate StartsACall(step: Step) { step.Submit? || step.CallFermer? }

  // Closing never gets stuck: while some call of Fermer has not returned, a
  // party already inside can move, whoever else keeps calling.
  lemma FermerNeverStuck(init: State, steps: seq<Step>, id: Id)
    requires Initial(init) && After(init, steps).Some?
    requires Clo(After(init, steps).value, id) != NotCalled && Clo(After(init, steps).value, id) != Returned
    ensures exists step :: !StartsACall(step) && Enabled(After(init, steps).value, step)
  {
    EverySchedule(init, steps);
    var s := After(init, steps).value;
    if !s.once.Running? {
      assert Enabled(s, EnterOnce(id));
    } else {
      RunningCanMove(s, s.once.id);
    }
  }

  lemma Member(ids: set<Id>) returns (x: Id)
    requires ids != {}
    ensures x in ids
  {
    x :| x in ids;
  }

  lemma RunningCanMove(s: State, c: Id)
    requires Inv(s) && s.once == Running(c)
    ensures exists step :: !StartsACall(step) && Enabled(s, step)
  {
    assert InsideOnce(Clo(s, c));
    match Clo(s, c) {
      case WantsWrite =>
        if s.readers != {} {
          var r := Member(s.readers);
          assert HoldsRead(Sub(s, r));
          assert
            || Enabled(s, TestClosed(r)) || Enabled(s, Filter(r)) || Enabled(s, TrySend(r))
            || Enabled(s, CountSent(r)) || Enabled(s, ReadUnlock(r));
        } else {
          assert s.writer.Some? ==> InsideOnce(Clo(s, s.writer.value));
          assert Enabled(s, WriteLock(c));
        }
      case HasWrite => assert Enabled(s, SetFermee(c));
      case ClosingChannel => assert Enabled(s, CloseChannel(c));
      case Unlocking => assert Enabled(s, WriteUnlock(c));
      case Awaiting =>
        assert Enabled(s, WaitWorker(c)) || Enabled(s, Finish(true)) || Enabled(s, Receive);
    }
  }
}
