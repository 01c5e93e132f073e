// Every counter of FileArbitrageCinetique, read off the schedule alone
// (internal/cinetique/arbitre_slm.go): which dossiers are ignored, set aside,
// sent and arbitrated, and what one call does when it runs alone.

module ArbitrationAccounts {
  import opened Wrappers
  import opened ArbitrationQueue

  // The dossier of the last call of id.
  function Submitted(steps: seq<Step>, id: Id): Option<Dossier> {
    if steps == [] then None
    else if steps[|steps| - 1].Submit? && steps[|steps| - 1].id == id then Some(steps[|steps| - 1].d)
    else Submitted(steps[..|steps| - 1], id)
  }

  predicate Escalates(d: Option<Dossier>) { d.Some? && d.value.escalates }

  // The queue is full after a schedule.
  predicate FullAfter(init: State, steps: seq<Step>) {
    After(init, steps).Some? && |After(init, steps).value.queue| >= init.capacity
  }

  // Nominal episodes that came to the filter, and anomalous ones.
  function Nominal(steps: seq<Step>): nat {
    if steps == [] then 0
    else
      var before, step := steps[..|steps| - 1], steps[|steps| - 1];
      Nominal(before) + if step.Filter? && !Escalates(Submitted(before, step.id)) then 1 else 0
  }

  function Anomalous(steps: seq<Step>): nat {
    if steps == [] then 0
    else
      var before, step := steps[..|steps| - 1], steps[|steps| - 1];
      Anomalous(before) + if step.Filter? && Escalates(Submitted(before, step.id)) then 1 else 0
  }

  // Sends that met a full queue, and the dossiers of the others, in order.
  function MetFull(init: State, steps: seq<Step>): nat {
    if steps == [] then 0
    else
      var before, step := steps[..|steps| - 1], steps[|steps| - 1];
      MetFull(init, before) + if step.TrySend? && FullAfter(init, before) then 1 else 0
  }

  function Dispatched(init: State, steps: seq<Step>): seq<Dossier> {
    if steps == [] then []
    else
      var before, step := steps[..|steps| - 1], steps[|steps| - 1];
      Dispatched(init, before) +
      (if step.TrySend? && !FullAfter(init, before) && Submitted(before, step.id).Some?
       then [Submitted(before, step.id).value] else [])
  }

  // Arbitrations that ended well, and the others.
  function Ended(steps: seq<Step>, ok: bool): nat {
    if steps == [] then 0
    else Ended(steps[..|steps| - 1], ok) + if steps[|steps| - 1] == Finish(ok) then 1 else 0
  }

  predicate CarriesDossier(p: Submitter) { p.WantsRead? || p.Locked? || p.Filtering? || p.Sending? }

  ghost predicate DossiersInv(steps: seq<Step>, s: State) {
    && (forall id :: CarriesDossier(Sub(s, id)) ==> Submitted(steps, id) == Some(Sub(s, id).d))
    && (forall id :: Sub(s, id).Sending? ==> Sub(s, id).d.escalates)
    && forall d :: d in s.sent ==> d.escalates
  }

  ghost predicate AccountsInv(init: State, steps: seq<Step>, s: State) {
    && s.capacity == init.capacity
    && s.ignores == Nominal(steps)
    && s.ecartes == MetFull(init, steps)
    && s.sent == Dispatched(init, steps)
    && s.arbitres == Ended(steps, true) && s.erreurs == Ended(steps, false)
    && Anomalous(steps) == |s.sent| + s.ecartes + |InPhase(s.submitters, IsSending)|
  }

  predicate IsSending(p: Submitter) { p.Sending? }

  lemma OneMoreStep(init: State, steps: seq<Step>, step: Step)
    ensures var all := steps + [step];
      && (forall id ::
            Submitted(all, id) == if step.Submit? && step.id == id then Some(step.d) else Submitted(steps, id))
      && Nominal(all) == Nominal(steps) + (if step.Filter? && !Escalates(Submitted(steps, step.id)) then 1 else 0)
      && Anomalous(all) == Anomalous(steps) + (if step.Filter? && Escalates(Submitted(steps, step.id)) then 1 else 0)
      && MetFull(init, all) == MetFull(init, steps) + (if step.TrySend? && FullAfter(init, steps) then 1 else 0)
      && Dispatched(init, all) ==
           Dispatched(init, steps) + (if step.TrySend? && !FullAfter(init, steps) && Submitted(steps, step.id).Some?
                                      then [Submitted(steps, step.id).value] else [])
      && (forall ok :: Ended(all, ok) == Ended(steps, ok) + if step == Finish(ok) then 1 else 0)
  {
    assert (steps + [step])[..|steps|] == steps;
  }

  // What one step does to the counters and to the submitter that takes it.
  lemma SubmitterAccounts(s: State, step: Step)
    requires Enabled(s, step) && BySubmitter(step)
    ensures var t, p := Apply(s, step), Sub(s, step.id);
      && t.capacity == s.capacity && t.arbitres == s.arbitres && t.erreurs == s.erreurs
      && t.submitters == s.submitters[step.id := Sub(t, step.id)]
      && (step.Filter? ==> p.Filtering?) && (step.TrySend? ==> p.Sending?)
      && t.ignores == s.ignores + (if step.Filter? && !p.d.escalates then 1 else 0)
      && t.ecartes == s.ecartes + (if step.TrySend? && |s.queue| >= s.capacity then 1 else 0)
      && t.sent == s.sent + (if step.TrySend? && |s.queue| < s.capacity then [p.d] else [])
      && (Sub(t, step.id).Sending? <==> step.Filter? && p.d.escalates)
      && (p.Sending? <==> step.TrySend?)
      && (CarriesDossier(Sub(t, step.id)) ==>
            if step.Submit? then Sub(t, step.id).d == step.d
            else CarriesDossier(p) && Sub(t, step.id).d == p.d)
  {
    hide Clo;
    match step
    case Submit(id, d) =>
    case ReadLock(id) =>
    case TestClosed(id) =>
    case Filter(id) =>
    case TrySend(id) =>
    case CountSent(id) =>
    case ReadUnlock(id) =>
  }

  lemma OtherAccounts(s: State, step: Step)
    requires Enabled(s, step) && !BySubmitter(step)
    ensures var t := Apply(s, step);
      && t.capacity == s.capacity && t.submitters == s.submitters
      && t.ignores == s.ignores && t.ecartes == s.ecartes && t.sent == s.sent
      && t.arbitres == s.arbitres + (if step == Finish(true) then 1 else 0)
      && t.erreurs == s.erreurs + (if step == Finish(false) then 1 else 0)
  {
    hide Clo, Sub;
    match step
    case Receive =>
    case Finish(ok) =>
    case CallFermer(_) =>
    case EnterOnce(_) =>
    case _ =>
  }

  lemma SubmittedNext(steps: seq<Step>, step: Step, id: Id)
    ensures Submitted(steps + [step], id) ==
      if step.Submit? && step.id == id then Some(step.d) else Submitted(steps, id)
  {
    assert (steps + [step])[..|steps|] == steps;
  }

  lemma DossiersStep(steps: seq<Step>, s: State, step: Step)
    requires DossiersInv(steps, s) && Enabled(s, step)
    ensures DossiersInv(steps + [step], Apply(s, step))
  {
    if BySubmitter(step) {
      SubmitterAccounts(s, step);
    } else {
      OtherAccounts(s, step);
    }
    hide Apply, Enabled, Submitted;
    var t := Apply(s, step);
    forall id
      ensures CarriesDossier(Sub(t, id)) ==> Submitted(steps + [step], id) == Some(Sub(t, id).d)
      ensures Sub(t, id).Sending? ==> Sub(t, id).d.escalates
    {
      SubmittedNext(steps, step, id);
      assert CarriesDossier(Sub(s, id)) ==> Submitted(steps, id) == Some(Sub(s, id).d);
    }
  }

  lemma AccountsStep(init: State, steps: seq<Step>, s: State, step: Step)
    requires After(init, steps) == Some(s) && Enabled(s, step)
    requires DossiersInv(steps, s) && AccountsInv(init, steps, s)
    ensures AccountsInv(init, steps + [step], Apply(s, step))
  {
    OneMoreStep(init, steps, step);
    hide InPhase, Submitted, Nominal, Anomalous, MetFull, Dispatched, Ended, After;
    if BySubmitter(step) {
      SubmitterAccounts(s, step);
      hide Apply, Enabled;
      PhaseUpdate(s.submitters, IsSending, step.id, Sub(Apply(s, step), step.id));
    } else {
      OtherAccounts(s, step);
      hide Apply, Enabled;
    }
  }

  lemma {:induction false} EveryAccount(init: State, steps: seq<Step>)
    requires Initial(init) && After(init, steps).Some?
    ensures DossiersInv(steps, After(init, steps).value)
    ensures AccountsInv(init, steps, After(init, steps).value)
  {
    hide Apply, Enabled, DossiersInv, AccountsInv;
    if steps == [] {
      AccountsBegin(init);
    } else {
      var before, step := steps[..|steps| - 1], steps[|steps| - 1];
      EveryAccount(init, before);
      DossiersStep(before, After(init, before).value, step);
      AccountsStep(init, before, After(init, before).value, step);
      assert steps == before + [step];
    }
  }

  lemma AccountsBegin(init: State)
    requires Initial(init)
    ensures DossiersInv([], init) && AccountsInv(init, [], init)
  {
    assert InPhase(init.submitters, IsSending) == {};
  }

  // Over every schedule: only anomalous episodes are sent, in the order in
  // which they met room in the queue; each nominal one is ignored and each
  // anomalous one that met a full queue set aside, and none other; and the
  // two outcomes of an arbitration are counted apart.
  lemma EachCounterIsExact(init: State, steps: seq<Step>)
    requires Initial(init) && After(init, steps).Some?
    ensures var s := After(init, steps).value;
      && (forall d :: d in s.sent ==> d.escalates)
      && s.sent == Dispatched(init, steps)
      && s.ignores == Nominal(steps)
      && s.ecartes == MetFull(init, steps)
      && s.arbitres == Ended(steps, true)
      && s.erreurs == Ended(steps, false)
      && Anomalous(steps) == |s.sent| + s.ecartes + |InPhase(s.submitters, IsSending)|
  {
    hide After;
    EveryAccount(init, steps);
  }

  // ----------------------------------------------------------- one call alone

  // How far the call of id with dossier d has come since state s.
  ghost predicate Submitting(s: State, id: Id, d: Dossier, t: State) {
    var inside := s.(submitters := t.submitters, readers := s.readers + {id});
    match Sub(t, id)
    case WantsRead(e) => e == d && t == s.(submitters := t.submitters)
    case Locked(e) => e == d && t == inside
    case Filtering(e) => e == d && !s.fermee && t == inside
    case Sending(e) => e == d && !s.fermee && d.escalates && t == inside
    case Sent =>
      && !s.fermee && d.escalates && |s.queue| < s.capacity
      && t == inside.(queue := s.queue + [d], sent := s.sent + [d])
    case Leaving(answer) => t == Answered(s, d, answer).(submitters := t.submitters, readers := s.readers + {id})
                            && answer == AnswerOf(s, d)
    case Idle => t == Answered(s, d, AnswerOf(s, d)).(submitters := t.submitters)
  }

  function AnswerOf(s: State, d: Dossier): Answer {
    if s.fermee then Closed
    else if !d.escalates then Ignored
    else if |s.queue| < s.capacity then Accepted
    else Full
  }

  function Answered(s: State, d: Dossier, answer: Answer): State {
    match answer
    case Closed => s
    case Ignored => s.(ignores := s.ignores + 1)
    case Full => s.(ecartes := s.ecartes + 1)
    case Accepted => s.(queue := s.queue + [d], sent := s.sent + [d], soumis := s.soumis + 1)
  }

  lemma EnteringStep(s: State, id: Id, d: Dossier, t: State, step: Step)
    requires id !in s.readers && Submitting(s, id, d, t)
    requires Enabled(t, step) && BySubmitter(step) && step.id == id
    requires step.ReadLock? || step.TestClosed? || step.Filter?
    ensures Submitting(s, id, d, Apply(t, step))
  {
    hide Clo;
  }

  lemma LeavingStep(s: State, id: Id, d: Dossier, t: State, step: Step)
    requires id !in s.readers && Submitting(s, id, d, t)
    requires Enabled(t, step) && BySubmitter(step) && step.id == id
    requires step.TrySend? || step.CountSent? || step.ReadUnlock?
    ensures Submitting(s, id, d, Apply(t, step))
  {
    hide Clo;
    assert s.readers + {id} - {id} == s.readers;
    match step
    case TrySend(_) =>
    case CountSent(_) =>
    case ReadUnlock(_) =>
  }

  lemma SubmittingStep(s: State, id: Id, d: Dossier, t: State, step: Step)
    requires id !in s.readers && Submitting(s, id, d, t)
    requires Enabled(t, step) && BySubmitter(step) && step.id == id && !step.Submit?
    ensures Submitting(s, id, d, Apply(t, step))
  {
    hide Submitting, Apply, Enabled;
    if step.ReadLock? || step.TestClosed? || step.Filter? {
      EnteringStep(s, id, d, t, step);
    } else {
      LeavingStep(s, id, d, t, step);
    }
  }

  lemma {:induction false} SubmittingRun(s: State, id: Id, d: Dossier, t: State, steps: seq<Step>)
    requires id !in s.readers && Submitting(s, id, d, t) && After(t, steps).Some?
    requires forall i :: 0 <= i < |steps| ==> BySubmitter(steps[i]) && steps[i].id == id && !steps[i].Submit?
    ensures Submitting(s, id, d, After(t, steps).value)
  {
    hide Submitting, Apply, Enabled;
    if steps != [] {
      SubmittingRun(s, id, d, t, steps[..|steps| - 1]);
      SubmittingStep(s, id, d, After(t, steps[..|steps| - 1]).value, steps[|steps| - 1]);
    }
  }

  // A call that runs alone, from its start to its return: a closed queue
  // refuses it, a nominal episode is counted and dropped, an anomalous one is
  // queued and counted if there is room, and otherwise set aside; nothing else
  // changes.
  lemma SubmitAlone(init: State, before: seq<Step>, id: Id, d: Dossier, steps: seq<Step>)
    requires Initial(init) && After(init, before).Some? && Enabled(After(init, before).value, Submit(id, d))
    requires After(Apply(After(init, before).value, Submit(id, d)), steps).Some?
    requires forall i :: 0 <= i < |steps| ==> BySubmitter(steps[i]) && steps[i].id == id && !steps[i].Submit?
    requires Sub(After(Apply(After(init, before).value, Submit(id, d)), steps).value, id).Idle?
    ensures var s := After(init, before).value;
      var t := After(Apply(s, Submit(id, d)), steps).value;
      t == Answered(s, d, AnswerOf(s, d)).(submitters := t.submitters)
  {
    var s := After(init, before).value;
    EverySchedule(init, before);
    hide After;
    assert !HoldsRead(Sub(s, id));
    SubmittingRun(s, id, d, Apply(s, Submit(id, d)), steps);
  }
}
