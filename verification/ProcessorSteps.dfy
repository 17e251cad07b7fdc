/**
 * What each step of batch processing does: to the records, to the order of what the
 * outside sees, to the batch at hand, and to nothing else.
 */
module ProcessorSteps {
  import opened Prelude
  import opened ReversalEvents
  import opened ReversalProcessor
  import O = ReversalOperations
  import L = FileLock
  import S = ReversalStore

  predicate HoldsLock(w: World, p: L.ProcessId) {
    match L.PhaseOf(w.locks, p)
    case Held(_) => true
    case _ => false
  }

  /** The process holds the lock and has come to the given stage with a record of its batch. */
  predicate Stands(w: World, p: L.ProcessId, r: Local, stage: Stage) {
    && HoldsLock(w, p) && LocalOf(w, p) == r
    && r.Running? && r.stage == stage && r.next < |r.batch|
  }

  predicate Outstands(records: S.Records, id: string) {
    id in records && records[id].status == Outstanding
  }

  /** The attempt: on record unless refused, and then seen; a call that raises ends the batch. */
  lemma BeginDecides(limits: S.Limits, w: World, p: L.ProcessId, r: Local, ts: string, ending: Ending)
    requires Stands(w, p, r, Ready)
    ensures var w' := Step(limits, w, Begin(p, ts, ending));
      var id := r.batch[r.next];
      var recorded := ending != Refused && Outstands(w.records, id);
      && w'.records == (if recorded then w.records[id := w.records[id].(attempts := w.records[id].attempts + 1, updatedAt := ts)] else w.records)
      && w'.history == (if recorded then w.history + [AttemptedMark(id)] else w.history)
      && LocalOf(w', p) == (if recorded && ending == Works then r.(stage := Begun) else Raised)
  {}

  /** The request goes out or cannot be built, and the host's answer comes. */
  lemma ExchangeDecides(limits: S.Limits, w: World, p: L.ProcessId, r: Local, accepted: bool)
    ensures Stands(w, p, r, Begun) ==>
      var sent := Step(limits, w, Send(p));
      var unbuilt := Step(limits, w, BuildFails(p));
      && sent.history == w.history + [SentMark(r.batch[r.next])] && sent.records == w.records
      && LocalOf(sent, p) == r.(stage := InFlight)
      && unbuilt.history == w.history && unbuilt.records == w.records
      && LocalOf(unbuilt, p) == r.(stage := Answered(false))
    ensures Stands(w, p, r, InFlight) ==>
      var answered := Step(limits, w, Answer(p, accepted));
      && answered.history == w.history && answered.records == w.records
      && LocalOf(answered, p) == r.(stage := Answered(accepted))
  {}

  /** A record the host has accepted is outstanding still. */
  lemma AcceptedOutstands(w: World, p: L.ProcessId, r: Local)
    requires Inv(w) && Stands(w, p, r, Answered(true))
    ensures Outstands(w.records, r.batch[r.next])
  {
    MoverTrue(w, p);
  }

  /** An accepted record is completed unless that is refused; a call that raises makes it a failed one. */
  lemma CompleteDecides(limits: S.Limits, w: World, p: L.ProcessId, r: Local, ts: string, ending: Ending)
    requires Stands(w, p, r, Answered(true)) && Outstands(w.records, r.batch[r.next])
    ensures var w' := Step(limits, w, Complete(p, ts, ending));
      var id := r.batch[r.next];
      && w'.records == (if ending == Refused then w.records else w.records[id := w.records[id].(status := Done, updatedAt := ts)])
      && w'.history == (if ending == Refused then w.history else w.history + [CompletedMark(id)])
      && LocalOf(w', p) ==
         if ending == Works then r.(stage := Ready, next := r.next + 1, completed := r.completed + 1)
         else r.(stage := Answered(false))
  {}

  /** A failed record keeps its status and gets the error; the batch goes on unless the call raises or the caller gave up. */
  lemma FailDecides(limits: S.Limits, w: World, p: L.ProcessId, r: Local, ts: string, error: string, ending: Ending, aborted: bool)
    requires Stands(w, p, r, Answered(false))
    ensures var w' := Step(limits, w, Fail(p, ts, error, ending, aborted));
      var id := r.batch[r.next];
      var recorded := ending != Refused && Outstands(w.records, id);
      && w'.records == (if recorded then w.records[id := w.records[id].(lastError := Some(error), updatedAt := ts)] else w.records)
      && w'.history == w.history
      && LocalOf(w', p) ==
         if recorded && ending == Works && !aborted then r.(stage := Ready, next := r.next + 1, failed := r.failed + 1)
         else Raised
  {}

  /** What `pending` may hand out: outstanding records, none twice. */
  predicate Choosable(records: S.Records, batch: seq<string>) {
    && (forall i, j :: 0 <= i < |batch| && 0 <= j < |batch| && i != j ==> batch[i] != batch[j])
    && forall id :: id in batch ==> Outstands(records, id)
  }

  lemma ChoosableExact(records: S.Records, batch: seq<string>)
    ensures Selectable(records, batch) <==> Choosable(records, batch)
  {
    if Choosable(records, batch) {
      assert forall i :: 0 <= i < |batch| ==> batch[i] in batch;
    }
  }

  /** A batch begins with its first record, ends in a report's worth of counts, or is given up between records. */
  lemma BatchDecides(limits: S.Limits, w: World, p: L.ProcessId, r: Local, batch: seq<string>)
    ensures HoldsLock(w, p) && LocalOf(w, p) == Idle && Choosable(w.records, batch) ==>
      LocalOf(Step(limits, w, Select(p, batch)), p) == Running(batch, 0, Ready, 0, 0, |w.history|)
    ensures HoldsLock(w, p) && LocalOf(w, p) == r && r.Running? && r.stage == Ready ==>
      && LocalOf(Step(limits, w, Abort(p)), p) == Raised
      && (r.next == |r.batch| ==>
            LocalOf(Step(limits, w, Finish(p)), p) == Finished(r.batch, r.completed, r.failed, r.start, |w.history|))
  {
    ChoosableExact(w.records, batch);
  }

  /** From outside only a new intent comes in, while there is room for its record. */
  lemma OutsideDecides(limits: S.Limits, w: World, op: O.Op)
    ensures Step(limits, w, Outside(op)).records ==
      if op.Enqueue? && op.intent.id !in w.records && |w.records| < limits.maxRecords
      then w.records[op.intent.id := Record(op.intent, Outstanding, 0, op.ts, op.ts, None)] else w.records
    ensures Step(limits, w, Outside(op)).(records := w.records) == w
  {}

  /** A call reports exactly when it leaves the lock after a finished batch; it comes to its check only when done or raised. */
  lemma LockDecides(limits: S.Limits, w: World, a: L.Action)
    requires L.Safe(w.locks)
    ensures var w' := Step(limits, w, Lock(a));
      && w'.records == w.records && w'.history == w.history
      && w'.locks == (if a.CheckToken? && !LocalOf(w, a.p).Finished? && !LocalOf(w, a.p).Raised? then w.locks else L.Step(w.locks, a))
      && w'.reports == w.reports +
         (if a.Unlink? && L.PhaseOf(w.locks, a.p).Checked? && LocalOf(w, a.p).Finished?
          then var f := LocalOf(w, a.p); [Report(f.batch, f.completed, f.failed, f.start, f.end)] else [])
      && forall q :: LocalOf(w', q) == if a == L.WriteToken(q) && L.PhaseOf(w.locks, q).Created? then Idle else LocalOf(w, q)
  {
    L.StepDecides(w.locks, a);
  }

  /** Where the process must stand for its step to do anything. */
  predicate May(w: World, a: Action)
    requires !a.Lock? && !a.Outside?
  {
    var r := LocalOf(w, a.p);
    match a
    case Select(p, batch) => HoldsLock(w, p) && r == Idle && Selectable(w.records, batch)
    case Abort(p) => HoldsLock(w, p) && r.Running? && r.stage == Ready
    case Begin(p, _, _) => Stands(w, p, r, Ready)
    case Send(p) => Stands(w, p, r, Begun)
    case BuildFails(p) => Stands(w, p, r, Begun)
    case Answer(p, _) => Stands(w, p, r, InFlight)
    case Complete(p, _, _) => Stands(w, p, r, Answered(true))
    case Fail(p, _, _, _, _) => Stands(w, p, r, Answered(false))
    case Finish(p) => HoldsLock(w, p) && r.Running? && r.stage == Ready && r.next == |r.batch|
  }

  /** A step out of place changes nothing; one in place leaves lock, reports and every other process alone. */
  lemma OnlyInPlace(limits: S.Limits, w: World, a: Action)
    requires !a.Lock? && !a.Outside?
    ensures var w' := Step(limits, w, a);
      && (!May(w, a) ==> w' == w)
      && w'.locks == w.locks && w'.reports == w.reports
      && forall q :: q != a.p ==> LocalOf(w', q) == LocalOf(w, q)
  {}

  lemma AttemptRound(limits: S.Limits, w: World, p: L.ProcessId, r: Local, ts: string)
    requires Inv(w) && Stands(w, p, r, Ready) && Outstands(w.records, r.batch[r.next])
    ensures var id := r.batch[r.next];
      var sent := Step(limits, Step(limits, w, Begin(p, ts, Works)), Send(p));
      && Inv(sent) && Stands(sent, p, r.(stage := InFlight), InFlight)
      && sent.history == w.history + [AttemptedMark(id)] + [SentMark(id)]
      && sent.records == w.records[id := w.records[id].(attempts := w.records[id].attempts + 1, updatedAt := ts)]
  {
    var begun := Step(limits, w, Begin(p, ts, Works));
    BeginDecides(limits, w, p, r, ts, Works);
    OnlyInPlace(limits, w, Begin(p, ts, Works));
    StepKeeps(limits, w, Begin(p, ts, Works));
    ExchangeDecides(limits, begun, p, r.(stage := Begun), false);
    OnlyInPlace(limits, begun, Send(p));
    StepKeeps(limits, begun, Send(p));
  }

  lemma AnswerRound(limits: S.Limits, w: World, p: L.ProcessId, r: Local, ts: string, accepted: bool, error: string)
    requires Inv(w) && Stands(w, p, r, InFlight) && Outstands(w.records, r.batch[r.next])
    ensures var id := r.batch[r.next];
      var answered := Step(limits, w, Answer(p, accepted));
      var w' := Step(limits, answered, if accepted then Complete(p, ts, Works) else Fail(p, ts, error, Works, false));
      && LocalOf(w', p) == (if accepted then r.(stage := Ready, next := r.next + 1, completed := r.completed + 1)
                            else r.(stage := Ready, next := r.next + 1, failed := r.failed + 1))
      && w'.history == w.history + (if accepted then [CompletedMark(id)] else [])
      && w'.records == w.records[id :=
           if accepted then w.records[id].(status := Done, updatedAt := ts)
           else w.records[id].(lastError := Some(error), updatedAt := ts)]
  {
    var answered := Step(limits, w, Answer(p, accepted));
    ExchangeDecides(limits, w, p, r, accepted);
    OnlyInPlace(limits, w, Answer(p, accepted));
    StepKeeps(limits, w, Answer(p, accepted));
    if accepted {
      CompleteDecides(limits, answered, p, r.(stage := Answered(true)), ts, Works);
    } else {
      FailDecides(limits, answered, p, r.(stage := Answered(false)), ts, error, Works, false);
    }
  }

  /**
   * One whole round over an outstanding record while the store works: attempted and then
   * sent; completed exactly when the host accepted, and otherwise failed with the error.
   */
  lemma RoundDecides(limits: S.Limits, w: World, p: L.ProcessId, r: Local, ts: string, accepted: bool, error: string)
    requires Inv(w) && Stands(w, p, r, Ready) && Outstands(w.records, r.batch[r.next])
    ensures var id := r.batch[r.next];
      var sent := Step(limits, Step(limits, w, Begin(p, ts, Works)), Send(p));
      var answered := Step(limits, sent, Answer(p, accepted));
      var w' := Step(limits, answered, if accepted then Complete(p, ts, Works) else Fail(p, ts, error, Works, false));
      && LocalOf(w', p) == (if accepted then r.(next := r.next + 1, completed := r.completed + 1)
                            else r.(next := r.next + 1, failed := r.failed + 1))
      && w'.history == w.history + [AttemptedMark(id)] + [SentMark(id)] + (if accepted then [CompletedMark(id)] else [])
      && w'.records == w.records[id := w.records[id].(
           attempts := w.records[id].attempts + 1,
           status := if accepted then Done else Outstanding,
           lastError := if accepted then w.records[id].lastError else Some(error),
           updatedAt := ts)]
  {
    AttemptRound(limits, w, p, r, ts);
    var sent := Step(limits, Step(limits, w, Begin(p, ts, Works)), Send(p));
    AnswerRound(limits, sent, p, r.(stage := InFlight), ts, accepted, error);
  }
}
