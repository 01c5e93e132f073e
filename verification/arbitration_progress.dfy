// Closing ends (internal/cinetique/arbitre_slm.go): every step of a party
// already inside uses up a measure, so once no new call comes in every call of
// Fermer returns after boundedly many steps, in whatever order they are taken.

module ArbitrationProgress {
  import opened Numbers
  import opened ArbitrationQueue

  // How many steps a submitter or a closer still has before it is done.
  function SubmitterLeft(p: Submitter): (n: nat)
    ensures n <= LEVELS
  {
    match p
    case Idle => 0
    case WantsRead(_) => 6
    case Locked(_) => 5
    case Filtering(_) => 4
    case Sending(_) => 3
    case Sent => 2
    case Leaving(_) => 1
  }

  function CloserLeft(p: Closer): (n: nat)
    ensures n <= LEVELS
  {
    match p
    case NotCalled => 0
    case AtOnce => 6
    case WantsWrite => 5
    case HasWrite => 4
    case ClosingChannel => 3
    case Unlocking => 2
    case Awaiting => 1
    case Returned => 0
  }

  function WorkerLeft(w: Worker): nat {
    match w
    case InHand(_) => 2
    case Receiving => 1
    case Finished => 0
  }

  const LEVELS: nat := 6

  function Level(m: map<Id, nat>, k: nat): set<Id> {
    set id | id in m && m[id] >= k
  }

  // The values of m added up, each counted up to k.
  function SumUpTo(m: map<Id, nat>, k: nat): nat {
    if k == 0 then 0 else SumUpTo(m, k - 1) + |Level(m, k)|
  }

  function ValueAt(m: map<Id, nat>, id: Id): nat { if id in m then m[id] else 0 }

  lemma LevelUpdate(m: map<Id, nat>, id: Id, v: nat, k: nat)
    requires k > 0
    ensures |Level(m[id := v], k)| ==
      |Level(m, k)| - (if ValueAt(m, id) >= k then 1 else 0) + (if v >= k then 1 else 0)
  {
    var others := Level(m, k) - {id};
    assert Level(m, k) == if ValueAt(m, id) >= k then others + {id} else others;
    assert Level(m[id := v], k) == if v >= k then others + {id} else others;
  }

  lemma {:induction false} SumUpdate(m: map<Id, nat>, id: Id, v: nat, k: nat)
    ensures SumUpTo(m[id := v], k) == SumUpTo(m, k) - Min(ValueAt(m, id), k) + Min(v, k)
  {
    if k > 0 {
      SumUpdate(m, id, v, k - 1);
      LevelUpdate(m, id, v, k);
    }
  }

  function SubmittersLeft(s: State): map<Id, nat> {
    map id | id in s.submitters :: SubmitterLeft(s.submitters[id])
  }

  function ClosersLeft(s: State): map<Id, nat> {
    map id | id in s.closers :: CloserLeft(s.closers[id])
  }

  // The work left: a send costs its submitter more than what it adds to the
  // queue, and a dossier in the queue more than one in hand.
  function Measure(s: State): nat {
    3 * SumUpTo(SubmittersLeft(s), LEVELS) + SumUpTo(ClosersLeft(s), LEVELS) + 2 * |s.queue| + WorkerLeft(s.worker)
  }

  lemma SubmitterMoves(s: State, t: State, id: Id)
    requires t.submitters == s.submitters[id := Sub(t, id)]
    ensures SumUpTo(SubmittersLeft(t), LEVELS) ==
      SumUpTo(SubmittersLeft(s), LEVELS) - SubmitterLeft(Sub(s, id)) + SubmitterLeft(Sub(t, id))
  {
    assert SubmittersLeft(t) == SubmittersLeft(s)[id := SubmitterLeft(Sub(t, id))];
    assert ValueAt(SubmittersLeft(s), id) == SubmitterLeft(Sub(s, id));
    SumUpdate(SubmittersLeft(s), id, SubmitterLeft(Sub(t, id)), LEVELS);
  }

  lemma CloserMoves(s: State, t: State, id: Id)
    requires t.closers == s.closers[id := Clo(t, id)]
    ensures SumUpTo(ClosersLeft(t), LEVELS) ==
      SumUpTo(ClosersLeft(s), LEVELS) - CloserLeft(Clo(s, id)) + CloserLeft(Clo(t, id))
  {
    assert ClosersLeft(t) == ClosersLeft(s)[id := CloserLeft(Clo(t, id))];
    assert ValueAt(ClosersLeft(s), id) == CloserLeft(Clo(s, id));
    SumUpdate(ClosersLeft(s), id, CloserLeft(Clo(t, id)), LEVELS);
  }

  lemma SubmitterEffect(s: State, step: Step)
    requires Enabled(s, step) && BySubmitter(step) && !StartsACall(step)
    ensures var t := Apply(s, step);
      && t.submitters == s.submitters[step.id := Sub(t, step.id)] && t.closers == s.closers && t.worker == s.worker
      && SubmitterLeft(Sub(t, step.id)) < SubmitterLeft(Sub(s, step.id)) && |t.queue| <= |s.queue| + 1
  {
    hide Clo;
    match step
    case ReadLock(id) =>
    case TestClosed(id) =>
    case Filter(id) =>
    case TrySend(id) =>
    case CountSent(id) =>
    case ReadUnlock(id) =>
  }

  lemma SubmitterStepDecreases(s: State, step: Step)
    requires Enabled(s, step) && BySubmitter(step) && !StartsACall(step)
    ensures Measure(Apply(s, step)) < Measure(s)
  {
    SubmitterEffect(s, step);
    hide Apply, Enabled, SumUpTo, SubmittersLeft;
    SubmitterMoves(s, Apply(s, step), step.id);
  }

  lemma CloserStepDecreases(s: State, step: Step)
    requires Enabled(s, step) && ByCloser(step) && !StartsACall(step)
    ensures Measure(Apply(s, step)) < Measure(s)
  {
    CloserFields(s, step);
    hide Apply, Enabled, SumUpTo, ClosersLeft;
    CloserMoves(s, Apply(s, step), step.id);
  }

  // A step that starts no call leaves less to do.
  lemma EveryStepDecreases(s: State, step: Step)
    requires Enabled(s, step) && !StartsACall(step)
    ensures Measure(Apply(s, step)) < Measure(s)
  {
    if BySubmitter(step) {
      SubmitterStepDecreases(s, step);
    } else if ByCloser(step) {
      CloserStepDecreases(s, step);
    } else {
      hide SumUpTo;
      assert SubmittersLeft(Apply(s, step)) == SubmittersLeft(s);
      assert ClosersLeft(Apply(s, step)) == ClosersLeft(s);
    }
  }

  predicate NoNewCall(steps: seq<Step>) {
    forall i :: 0 <= i < |steps| ==> !StartsACall(steps[i])
  }

  lemma AfterOneMore(init: State, steps: seq<Step>, more: seq<Step>)
    requires more != [] && After(init, steps + more).Some?
    ensures var p := more[..|more| - 1];
      && After(init, steps + p).Some?
      && Enabled(After(init, steps + p).value, more[|more| - 1])
      && After(init, steps + more).value == Apply(After(init, steps + p).value, more[|more| - 1])
  {
    assert (steps + more)[..|steps + more| - 1] == steps + more[..|more| - 1];
  }

  // Without new calls, a schedule is no longer than the work that was left.
  lemma {:induction false} BoundedWithoutCalls(init: State, steps: seq<Step>, more: seq<Step>)
    requires After(init, steps + more).Some? && NoNewCall(more)
    ensures After(init, steps).Some?
    ensures |more| + Measure(After(init, steps + more).value) <= Measure(After(init, steps).value)
    decreases |more|
  {
    if more == [] {
      assert steps + more == steps;
    } else {
      hide Apply, Enabled, Measure, After;
      var p := more[..|more| - 1];
      AfterOneMore(init, steps, more);
      BoundedWithoutCalls(init, steps, p);
      EveryStepDecreases(After(init, steps + p).value, more[|more| - 1]);
    }
  }

  // A call of Fermer stays a call of Fermer.
  lemma {:induction false} CalledStays(init: State, steps: seq<Step>, more: seq<Step>, id: Id)
    requires After(init, steps + more).Some?
    ensures After(init, steps).Some?
    ensures Clo(After(init, steps).value, id) != NotCalled ==> Clo(After(init, steps + more).value, id) != NotCalled
    decreases |more|
  {
    if more == [] {
      assert steps + more == steps;
    } else {
      AfterOneMore(init, steps, more);
      CalledStays(init, steps, more[..|more| - 1], id);
      CalledStep(After(init, steps + more[..|more| - 1]).value, more[|more| - 1], id);
    }
  }

  lemma CalledStep(s: State, step: Step, id: Id)
    requires Enabled(s, step)
    ensures Clo(s, id) != NotCalled ==> Clo(Apply(s, step), id) != NotCalled
  {
    ClosersStay(s, step);
    if ByCloser(step) {
      CloserFields(s, step);
    }
    hide Apply, Enabled;
  }

  // From any moment on, without new calls: at most Measure steps can be
  // taken, and when none is left to take every call of Fermer has returned.
  lemma FermerReturns(init: State, steps: seq<Step>, more: seq<Step>, id: Id)
    requires Initial(init) && After(init, steps + more).Some? && NoNewCall(more)
    ensures After(init, steps).Some?
    ensures |more| <= Measure(After(init, steps).value)
    ensures Clo(After(init, steps).value, id) != NotCalled ==>
      || Clo(After(init, steps + more).value, id).Returned?
      || exists step :: !StartsACall(step) && Enabled(After(init, steps + more).value, step)
  {
    hide Measure, Apply, Enabled, After;
    BoundedWithoutCalls(init, steps, more);
    CalledStays(init, steps, more, id);
    if Clo(After(init, steps).value, id) != NotCalled && !Clo(After(init, steps + more).value, id).Returned? {
      FermerNeverStuck(init, steps + more, id);
    }
  }

  // And some such schedule does bring it to its return.
  lemma {:induction false} FermerCanReturn(init: State, steps: seq<Step>, id: Id) returns (more: seq<Step>)
    requires Initial(init) && After(init, steps).Some? && Clo(After(init, steps).value, id) != NotCalled
    ensures NoNewCall(more) && After(init, steps + more).Some?
    ensures Clo(After(init, steps + more).value, id).Returned?
    decreases Measure(After(init, steps).value)
  {
    hide Measure, Apply, Enabled;
    if Clo(After(init, steps).value, id).Returned? {
      more := [];
      assert steps + more == steps;
    } else {
      FermerNeverStuck(init, steps, id);
      var step :| !StartsACall(step) && Enabled(After(init, steps).value, step);
      EveryStepDecreases(After(init, steps).value, step);
      CalledStep(After(init, steps).value, step, id);
      assert (steps + [step])[..|steps|] == steps;
      var rest := FermerCanReturn(init, steps + [step], id);
      more := [step] + rest;
      assert steps + more == steps + [step] + rest;
    }
  }
}
