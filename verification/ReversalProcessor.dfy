/**
 * Batch processing of outstanding reversals. Several processors run over one store;
 * each holds the processor lock for a whole batch and may raise or crash anywhere.
 * One store call is one step: the store's own lock serialises them.
 */
module ReversalProcessor {
  import opened Prelude
  import opened ReversalEvents
  import O = ReversalOperations
  import L = FileLock
  import P = PendingReversals
  import S = ReversalStore

  /** Where the batch's current record stands. */
  datatype Stage = Ready | Begun | InFlight | Answered(accepted: bool)

  datatype Local =
    | Idle
    | Running(batch: seq<string>, next: nat, stage: Stage, completed: nat, failed: nat, start: nat)
    | Finished(batch: seq<string>, completed: nat, failed: nat, start: nat, end: nat)
    | Raised

  /** What the outside world can see, in order. */
  datatype Mark = AttemptedMark(id: string) | SentMark(id: string) | CompletedMark(id: string)

  datatype Report = Report(batch: seq<string>, completed: nat, failed: nat, start: nat, end: nat)

  datatype World = World(
    locks: L.Locks,
    local: map<L.ProcessId, Local>,
    records: S.Records,
    history: seq<Mark>,
    reports: seq<Report>)

  /** How a store call ends: it may also raise after its event is on disk. */
  datatype Ending = Works | Refused | WorksButRaises

  datatype Action =
    | Lock(a: L.Action)
    | Outside(op: O.Op)
    | Select(p: L.ProcessId, batch: seq<string>)
    | Abort(p: L.ProcessId)
    | Begin(p: L.ProcessId, ts: string, ending: Ending)
    | Send(p: L.ProcessId)
    | BuildFails(p: L.ProcessId)
    | Answer(p: L.ProcessId, accepted: bool)
    | Complete(p: L.ProcessId, ts: string, ending: Ending)
    | Fail(p: L.ProcessId, ts: string, error: string, ending: Ending, aborted: bool)
    | Finish(p: L.ProcessId)

  function LocalOf(w: World, p: L.ProcessId): Local {
    if p in w.local then w.local[p] else Idle
  }

  predicate Distinct(batch: seq<string>) {
    forall i, j :: 0 <= i < j < |batch| ==> batch[i] != batch[j]
  }

  /** What `pending` may return. */
  predicate Selectable(records: S.Records, batch: seq<string>) {
    Distinct(batch) && forall i :: 0 <= i < |batch| ==> batch[i] in records && records[batch[i]].status.Outstanding?
  }

  predicate Busy(w: World, p: L.ProcessId) {
    L.PhaseOf(w.locks, p).Held? && LocalOf(w, p).Running?
  }

  /** Busy with a record of its batch, at the given stage. */
  predicate At(w: World, p: L.ProcessId, stage: Stage) {
    Busy(w, p) && LocalOf(w, p).stage == stage && LocalOf(w, p).next < |LocalOf(w, p).batch|
  }

  function Current(w: World, p: L.ProcessId): string
    requires Busy(w, p) && LocalOf(w, p).next < |LocalOf(w, p).batch|
  {
    LocalOf(w, p).batch[LocalOf(w, p).next]
  }

  function Becomes(w: World, p: L.ProcessId, local: Local): World {
    w.(local := w.local[p := local])
  }

  /** The records after a store call, and whether the call raised. */
  function Stored(limits: S.Limits, records: S.Records, op: O.Op, ending: Ending): (S.Records, bool) {
    var after := O.Remember(limits, records, op);
    if after.Err? || ending.Refused? then (records, true) else (after.value, ending.WorksButRaises?)
  }

  function BeginStep(limits: S.Limits, w: World, p: L.ProcessId, ts: string, ending: Ending): World
    requires At(w, p, Ready)
  {
    var id := Current(w, p);
    var local := LocalOf(w, p);
    var (records, raised) := Stored(limits, w.records, O.BeginAttempt(ts, id), ending);
    var recorded := O.Remember(limits, w.records, O.BeginAttempt(ts, id)).Ok? && !ending.Refused?;
    Becomes(w, p, if raised then Raised else local.(stage := Begun))
      .(records := records, history := if recorded then w.history + [AttemptedMark(id)] else w.history)
  }

  function CompleteStep(limits: S.Limits, w: World, p: L.ProcessId, ts: string, ending: Ending): World
    requires At(w, p, Answered(true))
  {
    var id := Current(w, p);
    var local := LocalOf(w, p);
    var (records, raised) := Stored(limits, w.records, O.MarkCompleted(ts, id), ending);
    var recorded := O.Remember(limits, w.records, O.MarkCompleted(ts, id)).Ok? && !ending.Refused?;
    Becomes(w, p,
      if raised then local.(stage := Answered(false))
      else local.(stage := Ready, next := local.next + 1, completed := local.completed + 1))
      .(records := records, history := if recorded then w.history + [CompletedMark(id)] else w.history)
  }

  function FailStep(limits: S.Limits, w: World, p: L.ProcessId, op: O.Op, ending: Ending, aborted: bool): World
    requires At(w, p, Answered(false)) && op.MarkFailed?
  {
    var local := LocalOf(w, p);
    var (records, raised) := Stored(limits, w.records, op, ending);
    Becomes(w, p,
      if raised || aborted then Raised
      else local.(stage := Ready, next := local.next + 1, failed := local.failed + 1))
      .(records := records)
  }

  /** A step that is not enabled changes nothing. */
  function Step(limits: S.Limits, w: World, a: Action): World {
    match a
    case Lock(WriteToken(p)) =>
      if L.PhaseOf(w.locks, p).Created? then Becomes(w, p, Idle).(locks := L.Step(w.locks, a.a)) else w
    case Lock(CheckToken(p)) =>
      if LocalOf(w, p).Finished? || LocalOf(w, p).Raised? then w.(locks := L.Step(w.locks, a.a)) else w
    case Lock(Unlink(p)) =>
      var w' := w.(locks := L.Step(w.locks, a.a));
      if L.PhaseOf(w.locks, p).Checked? && LocalOf(w, p).Finished? then
        var f := LocalOf(w, p);
        w'.(reports := w.reports + [Report(f.batch, f.completed, f.failed, f.start, f.end)])
      else w'
    case Lock(other) => w.(locks := L.Step(w.locks, other))
    case Outside(op) =>
      if op.Enqueue? && O.Remember(limits, w.records, op).Ok? then w.(records := O.Remember(limits, w.records, op).value) else w
    case Select(p, batch) =>
      if L.PhaseOf(w.locks, p).Held? && LocalOf(w, p).Idle? && Selectable(w.records, batch) then
        Becomes(w, p, Running(batch, 0, Ready, 0, 0, |w.history|))
      else w
    case Abort(p) => if Busy(w, p) && LocalOf(w, p).stage.Ready? then Becomes(w, p, Raised) else w
    case Begin(p, ts, ending) => if At(w, p, Ready) then BeginStep(limits, w, p, ts, ending) else w
    case Send(p) =>
      if At(w, p, Begun) then
        Becomes(w, p, LocalOf(w, p).(stage := InFlight)).(history := w.history + [SentMark(Current(w, p))])
      else w
    case BuildFails(p) => if At(w, p, Begun) then Becomes(w, p, LocalOf(w, p).(stage := Answered(false))) else w
    case Answer(p, accepted) =>
      if At(w, p, InFlight) then Becomes(w, p, LocalOf(w, p).(stage := Answered(accepted))) else w
    case Complete(p, ts, ending) => if At(w, p, Answered(true)) then CompleteStep(limits, w, p, ts, ending) else w
    case Fail(p, ts, error, ending, aborted) =>
      if At(w, p, Answered(false)) then FailStep(limits, w, p, O.MarkFailed(ts, Current(w, p), error), ending, aborted) else w
    case Finish(p) =>
      if Busy(w, p) && LocalOf(w, p).stage.Ready? && LocalOf(w, p).next == |LocalOf(w, p).batch| then
        var r := LocalOf(w, p);
        Becomes(w, p, Finished(r.batch, r.completed, r.failed, r.start, |w.history|))
      else w
  }

  // ----- invariant -----

  function Completions(h: seq<Mark>): nat {
    if h == [] then 0 else Completions(h[..|h| - 1]) + if h[|h| - 1].CompletedMark? then 1 else 0
  }

  lemma CompletionsAppend(h: seq<Mark>, m: Mark)
    ensures Completions(h + [m]) == Completions(h) + if m.CompletedMark? then 1 else 0
  {
    assert (h + [m])[..|h|] == h;
  }

  /** Exactly the first `n` ids of the batch were attempted, each once. */
  ghost predicate AttemptedOnce(h: seq<Mark>, batch: seq<string>, n: nat) {
    forall i :: 0 <= i < |batch| ==> multiset(h)[AttemptedMark(batch[i])] == if i < n then 1 else 0
  }

  predicate IsDone(records: S.Records, id: string) {
    id in records && records[id].status.Done?
  }

  /** What a running batch has done since it started. */
  ghost predicate RunningTrue(records: S.Records, history: seq<Mark>, r: Local)
    requires r.Running?
  {
    && r.start <= |history| && r.next <= |r.batch| && Distinct(r.batch)
    && (!r.stage.Ready? ==> r.next < |r.batch|)
    && r.completed + r.failed == r.next
    && AttemptedOnce(history[r.start..], r.batch, if r.stage.Ready? then r.next else r.next + 1)
    && (r.stage.Begun? || r.stage.InFlight? || r.stage == Answered(true) ==>
          r.batch[r.next] in records && records[r.batch[r.next]].status.Outstanding?)
    && Completions(history[r.start..])
        == r.completed + (if r.stage == Answered(false) && IsDone(records, r.batch[r.next]) then 1 else 0)
    && (r.stage.Begun? ==>
          multiset(history)[SentMark(r.batch[r.next])] < multiset(history)[AttemptedMark(r.batch[r.next])])
  }

  ghost predicate ReportTrue(history: seq<Mark>, batch: seq<string>, completed: nat, failed: nat, start: nat, end: nat) {
    && start <= end <= |history|
    && completed + failed == |batch|
    && AttemptedOnce(history[start..end], batch, |batch|)
    && Completions(history[start..end]) == completed
  }

  ghost predicate LocalTrue(w: World, p: L.ProcessId) {
    match LocalOf(w, p)
    case Running(_, _, _, _, _, _) => RunningTrue(w.records, w.history, LocalOf(w, p))
    case Finished(batch, completed, failed, start, end) => ReportTrue(w.history, batch, completed, failed, start, end)
    case _ => true
  }

  /** Nothing at all happens to an id after its completion. */
  ghost predicate DoneIsLast(history: seq<Mark>) {
    forall i, j :: 0 <= i < j < |history| && history[i].CompletedMark? ==> history[j].id != history[i].id
  }

  ghost predicate DoneRecorded(records: S.Records, history: seq<Mark>) {
    forall i :: 0 <= i < |history| && history[i].CompletedMark? ==> IsDone(records, history[i].id)
  }

  /** Every send has its own attempted event before it. */
  ghost predicate SendsAttempted(history: seq<Mark>) {
    forall id :: multiset(history)[SentMark(id)] <= multiset(history)[AttemptedMark(id)]
  }

  ghost predicate Inside(w: World, p: L.ProcessId) {
    L.PhaseOf(w.locks, p).Held? || L.PhaseOf(w.locks, p).Checked?
  }

  ghost predicate ReportsTrue(w: World) {
    forall i :: 0 <= i < |w.reports| ==>
      var r := w.reports[i]; ReportTrue(w.history, r.batch, r.completed, r.failed, r.start, r.end)
  }

  ghost predicate Inv(w: World) {
    && L.Safe(w.locks)
    && DoneIsLast(w.history) && DoneRecorded(w.records, w.history) && SendsAttempted(w.history)
    && ReportsTrue(w)
    && forall p :: Inside(w, p) ==> LocalTrue(w, p)
  }

  // ----- every step keeps it -----

  lemma ReportStays(history: seq<Mark>, more: seq<Mark>, batch: seq<string>, completed: nat, failed: nat, start: nat, end: nat)
    requires ReportTrue(history, batch, completed, failed, start, end) && history <= more
    ensures ReportTrue(more, batch, completed, failed, start, end)
  {
    assert more[start..end] == history[start..end];
  }

  lemma ReportsStay(w: World, w': World)
    requires ReportsTrue(w) && w.history <= w'.history && w'.reports == w.reports
    ensures ReportsTrue(w')
  {
    forall i | 0 <= i < |w'.reports|
      ensures var r := w'.reports[i]; ReportTrue(w'.history, r.batch, r.completed, r.failed, r.start, r.end)
    {
      var r := w.reports[i];
      ReportStays(w.history, w'.history, r.batch, r.completed, r.failed, r.start, r.end);
    }
  }

  lemma LockReports(limits: S.Limits, w: World, a: L.Action)
    requires Inv(w)
    ensures ReportsTrue(Step(limits, w, Lock(a)))
  {
    if a.Unlink? && L.PhaseOf(w.locks, a.p).Checked? && LocalOf(w, a.p).Finished? {
      assert Inside(w, a.p);
    }
  }

  lemma LockStepKeeps(limits: S.Limits, w: World, a: L.Action)
    requires Inv(w)
    ensures Inv(Step(limits, w, Lock(a)))
  {
    var w' := Step(limits, w, Lock(a));
    L.StepSafe(w.locks, a);
    LockReports(limits, w, a);
    forall p | Inside(w', p) ensures LocalTrue(w', p) {
      assert Inside(w, p) ==> LocalTrue(w, p);
      if a.OperatorRemove? || a.p != p {
        assert L.PhaseOf(w.locks, p) == L.PhaseOf(w'.locks, p);
        if !a.OperatorRemove? { L.MutualExclusion(w.locks, p, a.p); }
      }
    }
  }

  /** Only the one process inside the lock moves, so its own account is all there is to check. */
  lemma OnlyMover(w: World, w': World, p: L.ProcessId)
    requires Inv(w) && L.PhaseOf(w.locks, p).Held? && w'.locks == w.locks && LocalTrue(w', p)
    ensures forall q :: Inside(w', q) ==> LocalTrue(w', q)
  {
    forall q | Inside(w', q) ensures LocalTrue(w', q) {
      if q != p { L.MutualExclusion(w.locks, p, q); }
    }
  }

  lemma MoverTrue(w: World, p: L.ProcessId)
    requires Inv(w) && L.PhaseOf(w.locks, p).Held?
    ensures LocalTrue(w, p)
  {
    assert Inside(w, p);
  }

  lemma MarkAppend(history: seq<Mark>, start: nat, m: Mark)
    requires start <= |history|
    ensures (history + [m])[start..] == history[start..] + [m]
    ensures multiset(history + [m]) == multiset(history) + multiset{m}
    ensures multiset((history + [m])[start..]) == multiset(history[start..]) + multiset{m}
    ensures Completions((history + [m])[start..]) == Completions(history[start..]) + if m.CompletedMark? then 1 else 0
  {
    assert (history + [m])[start..] == history[start..] + [m];
    CompletionsAppend(history[start..], m);
  }

  /** Completions already on record stay on record. */
  ghost predicate KeepsDone(records: S.Records, records': S.Records) {
    forall id :: IsDone(records, id) ==> IsDone(records', id)
  }

  /** One more mark, about an id not yet completed, keeps what the history promises. */
  lemma HistoryAppend(records: S.Records, records': S.Records, history: seq<Mark>, m: Mark)
    requires DoneIsLast(history) && DoneRecorded(records, history) && SendsAttempted(history)
    requires KeepsDone(records, records') && !IsDone(records, m.id)
    requires m.CompletedMark? ==> IsDone(records', m.id)
    requires m.SentMark? ==> multiset(history)[SentMark(m.id)] < multiset(history)[AttemptedMark(m.id)]
    ensures DoneIsLast(history + [m]) && DoneRecorded(records', history + [m]) && SendsAttempted(history + [m])
  {
    var more := history + [m];
    forall i, j | 0 <= i < j < |more| && more[i].CompletedMark? ensures more[j].id != more[i].id {
      if j == |history| { assert IsDone(records, history[i].id); }
    }
    MarkAppend(history, 0, m);
    forall id ensures multiset(more)[SentMark(id)] <= multiset(more)[AttemptedMark(id)] {}
  }

  lemma AttemptCounted(h: seq<Mark>, batch: seq<string>, n: nat)
    requires AttemptedOnce(h, batch, n) && n < |batch| && Distinct(batch)
    ensures AttemptedOnce(h + [AttemptedMark(batch[n])], batch, n + 1)
  {
    assert multiset(h + [AttemptedMark(batch[n])]) == multiset(h) + multiset{AttemptedMark(batch[n])};
  }

  lemma OtherNotCounted(h: seq<Mark>, batch: seq<string>, n: nat, m: Mark)
    requires AttemptedOnce(h, batch, n) && !m.AttemptedMark?
    ensures AttemptedOnce(h + [m], batch, n)
  {
    assert multiset(h + [m]) == multiset(h) + multiset{m};
  }

  lemma BeginRuns(records: S.Records, records': S.Records, history: seq<Mark>, r: Local)
    requires r.Running? && r.stage.Ready? && r.next < |r.batch| && RunningTrue(records, history, r)
    requires SendsAttempted(history)
    requires r.batch[r.next] in records' && records'[r.batch[r.next]].status.Outstanding?
    ensures RunningTrue(records', history + [AttemptedMark(r.batch[r.next])], r.(stage := Begun))
  {
    var m := AttemptedMark(r.batch[r.next]);
    MarkAppend(history, r.start, m);
    AttemptCounted(history[r.start..], r.batch, r.next);
  }

  lemma SendRuns(records: S.Records, history: seq<Mark>, r: Local)
    requires r.Running? && r.stage.Begun? && RunningTrue(records, history, r)
    ensures RunningTrue(records, history + [SentMark(r.batch[r.next])], r.(stage := InFlight))
  {
    var m := SentMark(r.batch[r.next]);
    MarkAppend(history, r.start, m);
    OtherNotCounted(history[r.start..], r.batch, r.next + 1, m);
  }

  lemma CompleteRuns(records: S.Records, records': S.Records, history: seq<Mark>, r: Local)
    requires r.Running? && r.stage == Answered(true) && RunningTrue(records, history, r)
    requires IsDone(records', r.batch[r.next])
    ensures var more := history + [CompletedMark(r.batch[r.next])];
      && RunningTrue(records', more, r.(stage := Ready, next := r.next + 1, completed := r.completed + 1))
      && RunningTrue(records', more, r.(stage := Answered(false)))
  {
    var m := CompletedMark(r.batch[r.next]);
    MarkAppend(history, r.start, m);
    OtherNotCounted(history[r.start..], r.batch, r.next + 1, m);
  }

  lemma BeginKeeps(limits: S.Limits, w: World, p: L.ProcessId, ts: string, ending: Ending)
    requires Inv(w) && At(w, p, Ready)
    ensures Inv(BeginStep(limits, w, p, ts, ending))
  {
    MoverTrue(w, p);
    var w' := BeginStep(limits, w, p, ts, ending);
    var id := Current(w, p);
    if w'.history != w.history {
      HistoryAppend(w.records, w'.records, w.history, AttemptedMark(id));
      BeginRuns(w.records, w'.records, w.history, LocalOf(w, p));
    }
    ReportsStay(w, w');
    OnlyMover(w, w', p);
  }

  /** Either the completion is on disk, reported or not, or nothing but the stage changed. */
  lemma CompleteShape(limits: S.Limits, w: World, p: L.ProcessId, ts: string, ending: Ending)
    requires At(w, p, Answered(true))
    requires Current(w, p) in w.records && w.records[Current(w, p)].status.Outstanding?
    ensures var w' := CompleteStep(limits, w, p, ts, ending);
      var r, id := LocalOf(w, p), Current(w, p);
      && w'.locks == w.locks && w'.reports == w.reports
      && (if ending.Refused? then
            w'.records == w.records && w'.history == w.history && LocalOf(w', p) == r.(stage := Answered(false))
          else
            && w'.records == w.records[id := w.records[id].(status := Done, updatedAt := ts)]
            && w'.history == w.history + [CompletedMark(id)]
            && (LocalOf(w', p) == r.(stage := Answered(false))
                || LocalOf(w', p) == r.(stage := Ready, next := r.next + 1, completed := r.completed + 1)))
      && forall q :: q != p ==> LocalOf(w', q) == LocalOf(w, q)
  {}

  /** The one inside moved, the others did not, and the history grew soundly. */
  lemma MoveKeeps(w: World, w': World, p: L.ProcessId)
    requires Inv(w) && L.PhaseOf(w.locks, p).Held? && w'.locks == w.locks && w'.reports == w.reports
    requires w.history <= w'.history && LocalTrue(w', p)
    requires forall q :: q != p ==> LocalOf(w', q) == LocalOf(w, q)
    requires DoneIsLast(w'.history) && DoneRecorded(w'.records, w'.history) && SendsAttempted(w'.history)
    ensures Inv(w')
  {
    ReportsStay(w, w');
    OnlyMover(w, w', p);
  }

  lemma SendHistory(w: World, p: L.ProcessId)
    requires Inv(w) && At(w, p, Begun) && LocalTrue(w, p)
    ensures var history := w.history + [SentMark(Current(w, p))];
      DoneIsLast(history) && DoneRecorded(w.records, history) && SendsAttempted(history)
  {
    HistoryAppend(w.records, w.records, w.history, SentMark(Current(w, p)));
  }

  lemma SendKeeps(limits: S.Limits, w: World, p: L.ProcessId)
    requires Inv(w) && At(w, p, Begun)
    ensures Inv(Step(limits, w, Send(p)))
  {
    MoverTrue(w, p);
    var w' := Step(limits, w, Send(p));
    var r := LocalOf(w, p);
    assert LocalOf(w', p) == r.(stage := InFlight) && w'.history == w.history + [SentMark(Current(w, p))];
    SendHistory(w, p);
    SendRuns(w.records, w.history, r);
    MoveKeeps(w, w', p);
  }

  /** The completion is on disk, whether the call said so or not. */
  lemma CompletedKeeps(limits: S.Limits, w: World, p: L.ProcessId, ts: string, ending: Ending)
    requires Inv(w) && At(w, p, Answered(true)) && LocalTrue(w, p) && !ending.Refused?
    ensures Inv(CompleteStep(limits, w, p, ts, ending))
  {
    var w' := CompleteStep(limits, w, p, ts, ending);
    CompleteShape(limits, w, p, ts, ending);
    HistoryAppend(w.records, w'.records, w.history, CompletedMark(Current(w, p)));
    CompleteRuns(w.records, w'.records, w.history, LocalOf(w, p));
    MoveKeeps(w, w', p);
  }

  lemma CompleteRefusedKeeps(limits: S.Limits, w: World, p: L.ProcessId, ts: string, ending: Ending)
    requires Inv(w) && At(w, p, Answered(true)) && LocalTrue(w, p) && ending.Refused?
    ensures Inv(CompleteStep(limits, w, p, ts, ending))
  {
    var w' := CompleteStep(limits, w, p, ts, ending);
    CompleteShape(limits, w, p, ts, ending);
    MoveKeeps(w, w', p);
  }

  lemma CompleteKeeps(limits: S.Limits, w: World, p: L.ProcessId, ts: string, ending: Ending)
    requires Inv(w) && At(w, p, Answered(true))
    ensures Inv(CompleteStep(limits, w, p, ts, ending))
  {
    MoverTrue(w, p);
    if ending.Refused? {
      CompleteRefusedKeeps(limits, w, p, ts, ending);
    } else {
      CompletedKeeps(limits, w, p, ts, ending);
    }
  }

  lemma FailKeeps(limits: S.Limits, w: World, p: L.ProcessId, op: O.Op, ending: Ending, aborted: bool)
    requires Inv(w) && At(w, p, Answered(false)) && op.MarkFailed? && op.id == Current(w, p)
    ensures Inv(FailStep(limits, w, p, op, ending, aborted))
  {
    MoverTrue(w, p);
    var w' := FailStep(limits, w, p, op, ending, aborted);
    OnlyMover(w, w', p);
  }

  lemma OutsideKeeps(limits: S.Limits, w: World, op: O.Op)
    requires Inv(w)
    ensures Inv(Step(limits, w, Outside(op)))
  {
    var w' := Step(limits, w, Outside(op));
    forall p | Inside(w', p) ensures LocalTrue(w', p) {
      assert LocalTrue(w, p);
    }
  }

  lemma BeginActionKeeps(limits: S.Limits, w: World, p: L.ProcessId, ts: string, ending: Ending)
    requires Inv(w)
    ensures Inv(Step(limits, w, Begin(p, ts, ending)))
  {
    if At(w, p, Ready) { BeginKeeps(limits, w, p, ts, ending); }
  }

  lemma CompleteActionKeeps(limits: S.Limits, w: World, p: L.ProcessId, ts: string, ending: Ending)
    requires Inv(w)
    ensures Inv(Step(limits, w, Complete(p, ts, ending)))
  {
    if At(w, p, Answered(true)) { CompleteKeeps(limits, w, p, ts, ending); }
  }

  lemma FailActionKeeps(limits: S.Limits, w: World, p: L.ProcessId, ts: string, error: string, ending: Ending, aborted: bool)
    requires Inv(w)
    ensures Inv(Step(limits, w, Fail(p, ts, error, ending, aborted)))
  {
    if At(w, p, Answered(false)) { FailKeeps(limits, w, p, O.MarkFailed(ts, Current(w, p), error), ending, aborted); }
  }

  lemma SendActionKeeps(limits: S.Limits, w: World, p: L.ProcessId)
    requires Inv(w)
    ensures Inv(Step(limits, w, Send(p)))
  {
    if At(w, p, Begun) { SendKeeps(limits, w, p); }
  }

  lemma StepKeeps(limits: S.Limits, w: World, a: Action)
    requires Inv(w)
    ensures Inv(Step(limits, w, a))
  {
    match a
    case Lock(b) => LockStepKeeps(limits, w, b);
    case Outside(op) => OutsideKeeps(limits, w, op);
    case Begin(p, ts, ending) => BeginActionKeeps(limits, w, p, ts, ending);
    case Send(p) => SendActionKeeps(limits, w, p);
    case Complete(p, ts, ending) => CompleteActionKeeps(limits, w, p, ts, ending);
    case Fail(p, ts, error, ending, aborted) => FailActionKeeps(limits, w, p, ts, error, ending, aborted);
    case _ => QuietKeeps(limits, w, a);
  }

  /** Steps that leave records and history alone. */
  lemma QuietKeeps(limits: S.Limits, w: World, a: Action)
    requires Inv(w) && (a.Select? || a.Abort? || a.BuildFails? || a.Answer? || a.Finish?)
    ensures Inv(Step(limits, w, a))
  {
    var w' := Step(limits, w, a);
    if w' != w {
      MoverTrue(w, a.p);
      QuietLocal(limits, w, a);
      OnlyMover(w, w', a.p);
    }
  }

  lemma FinishLocal(w: World, r: Local)
    requires r.Running? && r.stage.Ready? && r.next == |r.batch| && RunningTrue(w.records, w.history, r)
    ensures ReportTrue(w.history, r.batch, r.completed, r.failed, r.start, |w.history|)
  {
    assert w.history[r.start..|w.history|] == w.history[r.start..];
  }

  lemma SelectLocal(w: World, batch: seq<string>)
    requires Distinct(batch)
    ensures RunningTrue(w.records, w.history, Running(batch, 0, Ready, 0, 0, |w.history|))
  {
    assert w.history[|w.history|..] == [];
  }

  lemma StageLocal(w: World, r: Local, stage: Stage)
    requires r.Running? && RunningTrue(w.records, w.history, r)
    requires (r.stage.Begun? && stage == Answered(false)) || (r.stage.InFlight? && stage.Answered?)
    ensures RunningTrue(w.records, w.history, r.(stage := stage))
  {}

  lemma QuietLocal(limits: S.Limits, w: World, a: Action)
    requires (a.Select? || a.Abort? || a.BuildFails? || a.Answer? || a.Finish?) && LocalTrue(w, a.p)
    ensures LocalTrue(Step(limits, w, a), a.p)
  {
    var r := LocalOf(w, a.p);
    match a
    case Select(p, batch) => if Distinct(batch) { SelectLocal(w, batch); }
    case Finish(p) =>
      if Busy(w, p) && r.stage.Ready? && r.next == |r.batch| { FinishLocal(w, r); }
    case BuildFails(p) => if At(w, p, Begun) { StageLocal(w, r, Answered(false)); }
    case Answer(p, accepted) => if At(w, p, InFlight) { StageLocal(w, r, Answered(accepted)); }
    case Abort(p) =>
  }

  function Run(limits: S.Limits, w: World, actions: seq<Action>): World
    decreases |actions|
  {
    if actions == [] then w else Run(limits, Step(limits, w, actions[0]), actions[1..])
  }

  lemma {:induction false} RunKeeps(limits: S.Limits, w: World, actions: seq<Action>)
    requires Inv(w)
    ensures Inv(Run(limits, w, actions))
    decreases |actions|
  {
    if actions != [] {
      StepKeeps(limits, w, actions[0]);
      RunKeeps(limits, Step(limits, w, actions[0]), actions[1..]);
    }
  }

  function Start(records: S.Records): World {
    World(L.Locks(None, map[], 0), map[], records, [], [])
  }

  /**
   * Over every interleaving of processors, enqueuers, failures and crashes: at most one
   * request is in flight; nothing is attempted, sent or completed again after its
   * completion; no request was sent without its own attempted event; and every batch
   * that returned attempted each of its records exactly once, with
   * attempted = completed + failed and as many completions as it reports.
   */
  lemma ProcessingSafe(limits: S.Limits, records: S.Records, actions: seq<Action>)
    ensures var w := Run(limits, Start(records), actions);
      && (forall p, q :: At(w, p, InFlight) && At(w, q, InFlight) ==> p == q)
      && DoneIsLast(w.history)
      && SendsAttempted(w.history)
      && ReportsTrue(w)
  {
    RunKeeps(limits, Start(records), actions);
    var w := Run(limits, Start(records), actions);
    forall p, q | At(w, p, InFlight) && At(w, q, InFlight) && p != q ensures false {
      L.MutualExclusion(w.locks, p, q);
    }
  }

  // ----- the processor at work -----

  /** How many records of the batch the host accepts. */
  function Accepted(host: string -> bool, batch: seq<string>): nat {
    if batch == [] then 0 else Accepted(host, batch[..|batch| - 1]) + if host(batch[|batch| - 1]) then 1 else 0
  }

  lemma AcceptedStep(host: string -> bool, batch: seq<string>, i: nat)
    requires i < |batch|
    ensures Accepted(host, batch[..i + 1]) == Accepted(host, batch[..i]) + if host(batch[i]) then 1 else 0
  {
    assert batch[..i + 1][..i] == batch[..i];
  }

  /** The batch from `next` on is still outstanding; what came before ended as the host answered. */
  ghost predicate Settling(records: S.Records, batch: seq<string>, host: string -> bool, next: nat) {
    forall i :: 0 <= i < |batch| ==>
      batch[i] in records && (records[batch[i]].status.Done? <==> i < next && host(batch[i]))
  }

  ghost predicate OthersSame(records: S.Records, records': S.Records, batch: seq<string>) {
    records'.Keys == records.Keys && forall id :: id in records && id !in batch ==> records'[id] == records[id]
  }

  lemma {:induction false} RunOneMore(limits: S.Limits, w: World, actions: seq<Action>, a: Action)
    ensures Run(limits, w, actions + [a]) == Step(limits, Run(limits, w, actions), a)
    decreases |actions|
  {
    if actions == [] {
      assert [a][1..] == [];
    } else {
      assert (actions + [a])[1..] == actions[1..] + [a];
      RunOneMore(limits, Step(limits, w, actions[0]), actions[1..], a);
    }
  }

  /** What one answered record does to the world, between two ready points of its batch. */
  ghost predicate RecordDone(w: World, w': World, p: L.ProcessId, answer: bool)
    requires At(w, p, Ready)
  {
    var r := LocalOf(w, p);
    var id := Current(w, p);
    && Busy(w', p) && w'.locks == w.locks && w'.reports == w.reports
    && LocalOf(w', p) == r.(next := r.next + 1,
         completed := r.completed + (if answer then 1 else 0), failed := r.failed + if answer then 0 else 1)
    && id in w'.records && (w'.records[id].status.Done? <==> answer)
    && OthersSame(w.records, w'.records, [id])
  }

  /** Part way through a batch that began at `first`: the first `i` records have been answered. */
  ghost predicate UpTo(
    first: World, w: World, p: L.ProcessId, batch: seq<string>, host: string -> bool, i: nat, completed: nat, failed: nat)
  {
    && w.locks == first.locks && w.reports == first.reports && L.PhaseOf(w.locks, p).Held?
    && LocalOf(first, p).Running?
    && LocalOf(w, p) == Running(batch, i, Ready, completed, failed, LocalOf(first, p).start)
    && i <= |batch| && completed == Accepted(host, batch[..i]) && completed + failed == i
    && Settling(w.records, batch, host, i) && OthersSame(first.records, w.records, batch)
  }

  lemma UpToStep(first: World, w: World, w': World, p: L.ProcessId, batch: seq<string>, host: string -> bool, i: nat)
    requires i < |batch| && Distinct(batch) && LocalOf(w, p).Running?
    requires UpTo(first, w, p, batch, host, i, LocalOf(w, p).completed, LocalOf(w, p).failed)
    requires RecordDone(w, w', p, host(batch[i]))
    ensures LocalOf(w', p).Running? && UpTo(first, w', p, batch, host, i + 1, LocalOf(w', p).completed, LocalOf(w', p).failed)
  {
    AcceptedStep(host, batch, i);
    SettlingStep(w, w', p, host);
  }

  lemma SelectSettles(limits: S.Limits, w: World, p: L.ProcessId, maxBatch: nat, batch: seq<string>, host: string -> bool)
    requires L.PhaseOf(w.locks, p).Held? && LocalOf(w, p).Idle? && P.OldestFirst(w.records, maxBatch, batch)
    ensures Step(limits, w, Select(p, batch)) == Becomes(w, p, Running(batch, 0, Ready, 0, 0, |w.history|))
    ensures Distinct(batch) && Settling(w.records, batch, host, 0)
  {
    assert Selectable(w.records, batch);
  }

  datatype Summary = Summary(attempted: nat, completed: nat, failed: nat)

  /**
   * The processor over the store's records and its lock file: it may find the lock taken,
   * the store may refuse an attempt, and the host accepts or does not; `world` is the run
   * of the protocol that this amounts to.
   */
  class Processor {
    const limits: S.Limits
    const initial: S.Records
    var records: S.Records
    var lockFile: Option<L.LockFile>
    var nextToken: nat
    ghost var world: World
    ghost var trace: seq<Action>

    /** The steps taken lead to the world, so every run's promise holds of it. */
    ghost predicate Reached()
      reads this
    {
      world == Run(limits, Start(initial), trace)
    }

    ghost predicate Valid()
      reads this
    {
      && Reached()
      && world.records == records && world.locks.file == lockFile && world.locks.nextToken == nextToken
    }

    constructor (limits: S.Limits, records: S.Records)
      ensures Valid() && this.limits == limits && initial == records && world == Start(records)
    {
      this.limits := limits;
      initial, this.records, lockFile, nextToken := records, records, None, 0;
      world := Start(records);
      trace := [];
    }

    ghost method Track(a: Action)
      requires Reached()
      modifies this`world, this`trace
      ensures Reached() && world == Step(limits, old(world), a)
    {
      RunOneMore(limits, Start(initial), trace, a);
      trace := trace + [a];
      world := Step(limits, world, a);
    }

    /** The attempt goes on disk before the request goes out; a refused one ends the batch. */
    method AttemptAndSend(p: L.ProcessId, id: string, ts: string, refused: bool) returns (sent: bool)
      requires Valid() && At(world, p, Ready) && Current(world, p) == id
      requires id in records && records[id].status.Outstanding?
      modifies this`records, this`world, this`trace
      ensures Valid() && world.locks == old(world.locks) && world.reports == old(world.reports)
      ensures sent <==> !refused
      ensures !sent ==> records == old(records) && world.history == old(world.history) && LocalOf(world, p) == Raised
      ensures sent ==>
        && LocalOf(world, p) == old(LocalOf(world, p)).(stage := InFlight)
        && world.history == old(world.history) + [AttemptedMark(id)] + [SentMark(id)]
        && records == old(records)[id := old(records[id]).(attempts := old(records[id]).attempts + 1, updatedAt := ts)]
    {
      if refused {
        Track(Begin(p, ts, Refused));
        return false;
      }
      var record := records[id];
      records := records[id := record.(attempts := record.attempts + 1, updatedAt := ts)];
      Track(Begin(p, ts, Works));
      Track(Send(p));
      return true;
    }

    /** The host's answer goes on record: completed, or failed and still outstanding. */
    method RecordAnswer(p: L.ProcessId, id: string, ts: string, accepted: bool)
      requires Valid() && At(world, p, InFlight) && Current(world, p) == id
      requires id in records && records[id].status.Outstanding?
      modifies this`records, this`world, this`trace
      ensures Valid() && world.locks == old(world.locks) && world.reports == old(world.reports)
      ensures var r := old(LocalOf(world, p));
        LocalOf(world, p) == r.(stage := Ready, next := r.next + 1,
          completed := r.completed + (if accepted then 1 else 0), failed := r.failed + if accepted then 0 else 1)
      ensures records == old(records)[id :=
        if accepted then old(records[id]).(status := Done, updatedAt := ts)
        else old(records[id]).(lastError := Some("Host did not acknowledge reversal."), updatedAt := ts)]
    {
      Track(Answer(p, accepted));
      var record := records[id];
      if accepted {
        records := records[id := record.(status := Done, updatedAt := ts)];
        Track(Complete(p, ts, Works));
      } else {
        var error := "Host did not acknowledge reversal.";
        records := records[id := record.(lastError := Some(error), updatedAt := ts)];
        Track(Fail(p, ts, error, Works, false));
      }
    }

    method ProcessRecord(p: L.ProcessId, id: string, ts: string, accepted: bool, refused: bool) returns (done: bool)
      requires Valid() && At(world, p, Ready) && Current(world, p) == id
      requires id in records && records[id].status.Outstanding?
      modifies this`records, this`world, this`trace
      ensures Valid() && (done <==> !refused)
      ensures done ==> RecordDone(old(world), world, p, accepted)
      ensures !done ==>
        && records == old(records) && LocalOf(world, p) == Raised
        && world.locks == old(world.locks) && world.reports == old(world.reports)
    {
      done := AttemptAndSend(p, id, ts, refused);
      if done { RecordAnswer(p, id, ts, accepted); }
    }

    method EnterLock(p: L.ProcessId) returns (token: Option<nat>)
      requires Valid() && L.PhaseOf(world.locks, p).Outside?
      modifies this
      ensures Valid() && records == old(records) && world.reports == old(world.reports)
      ensures token.Some? <==> old(lockFile).None?
      ensures token.None? ==> L.PhaseOf(world.locks, p).Outside? && lockFile == old(lockFile)
      ensures token.Some? ==>
        && L.PhaseOf(world.locks, p) == L.Held(token.value) && LocalOf(world, p) == Idle
        && lockFile == Some(L.LockFile(token.value, true))
    {
      var mine := nextToken;
      nextToken := nextToken + 1;
      Track(Lock(L.Request(p)));
      if lockFile.Some? {
        Track(Lock(L.GiveUp(p)));
        return None;
      }
      lockFile := Some(L.LockFile(mine, false));
      Track(Lock(L.Create(p)));
      lockFile := Some(L.LockFile(mine, true));
      Track(Lock(L.WriteToken(p)));
      return Some(mine);
    }

    /** Leaves with a report after a finished batch, without one after a batch that raised. */
    method LeaveLock(p: L.ProcessId, token: nat)
      requires Valid() && L.PhaseOf(world.locks, p) == L.Held(token) && lockFile == Some(L.LockFile(token, true))
      requires LocalOf(world, p).Finished? || LocalOf(world, p).Raised?
      modifies this
      ensures Valid() && L.PhaseOf(world.locks, p).Outside? && lockFile.None? && records == old(records)
      ensures var f := old(LocalOf(world, p));
        world.reports == old(world.reports) + if f.Finished? then [Report(f.batch, f.completed, f.failed, f.start, f.end)] else []
    {
      Track(Lock(L.CheckToken(p)));
      lockFile := None;
      Track(Lock(L.Unlink(p)));
    }

    method ProcessBatch(p: L.ProcessId, batch: seq<string>, ts: string, host: string -> bool, refuses: string -> bool)
      returns (done: bool, completed: nat, failed: nat)
      requires Valid() && L.PhaseOf(world.locks, p).Held?
      requires LocalOf(world, p).Running? && LocalOf(world, p) == Running(batch, 0, Ready, 0, 0, LocalOf(world, p).start)
      requires Distinct(batch) && Settling(records, batch, host, 0)
      modifies this`records, this`world, this`trace
      ensures Valid() && world.locks == old(world.locks) && world.reports == old(world.reports)
      ensures OthersSame(old(records), records, batch)
      ensures done ==>
        && LocalOf(world, p) == Running(batch, |batch|, Ready, completed, failed, old(LocalOf(world, p)).start)
        && completed == Accepted(host, batch) && completed + failed == |batch|
        && Settling(records, batch, host, |batch|) && forall i :: 0 <= i < |batch| ==> !refuses(batch[i])
      ensures !done ==> LocalOf(world, p) == Raised && Refusal(records, batch, host, refuses)
    {
      completed, failed := 0, 0;
      for i := 0 to |batch|
        invariant Valid() && UpTo(old(world), world, p, batch, host, i, completed, failed)
        invariant forall j :: 0 <= j < i ==> !refuses(batch[j])
      {
        ghost var before := world;
        var id := batch[i];
        var sent := ProcessRecord(p, id, ts, host(id), refuses(id));
        if !sent { return false, completed, failed; }
        if host(id) { completed := completed + 1; } else { failed := failed + 1; }
        UpToStep(old(world), before, world, p, batch, host, i);
      }
      assert batch[..|batch|] == batch;
      return true, completed, failed;
    }

    method ChooseBatch(p: L.ProcessId, maxBatch: nat, ghost host: string -> bool) returns (batch: seq<string>)
      requires Valid() && L.PhaseOf(world.locks, p).Held? && LocalOf(world, p).Idle?
      modifies this`world, this`trace
      ensures Valid() && world.locks == old(world.locks) && world.reports == old(world.reports)
      ensures P.OldestFirst(records, maxBatch, batch) && Distinct(batch) && Settling(records, batch, host, 0)
      ensures LocalOf(world, p).Running? && LocalOf(world, p) == Running(batch, 0, Ready, 0, 0, LocalOf(world, p).start)
    {
      batch := P.Pending(records, maxBatch);
      SelectSettles(limits, world, p, maxBatch, batch, host);
      Track(Select(p, batch));
    }

    ghost method FinishBatch(p: L.ProcessId)
      requires Valid() && Busy(world, p) && LocalOf(world, p).stage.Ready?
      requires LocalOf(world, p).next == |LocalOf(world, p).batch|
      modifies this`world, this`trace
      ensures Valid() && world.locks == old(world.locks) && world.reports == old(world.reports)
      ensures var r := old(LocalOf(world, p));
        LocalOf(world, p) == Finished(r.batch, r.completed, r.failed, r.start, |old(world.history)|)
    {
      Track(Finish(p));
    }

    /** The operation inside the lock. */
    method ProcessPending(p: L.ProcessId, maxBatch: nat, ts: string, host: string -> bool, refuses: string -> bool)
      returns (summary: Option<Summary>, batch: seq<string>)
      requires Valid() && L.PhaseOf(world.locks, p).Held? && LocalOf(world, p).Idle?
      modifies this`records, this`world, this`trace
      ensures Valid() && world.locks == old(world.locks) && world.reports == old(world.reports)
      ensures P.OldestFirst(old(records), maxBatch, batch) && OthersSame(old(records), records, batch)
      ensures summary.Some? <==> forall i :: 0 <= i < |batch| ==> !refuses(batch[i])
      ensures summary.Some? ==>
        && LocalOf(world, p).Finished? && LocalOf(world, p).batch == batch
        && LocalOf(world, p).completed == summary.value.completed && LocalOf(world, p).failed == summary.value.failed
        && summary.value.attempted == |batch| && summary.value.completed == Accepted(host, batch)
        && summary.value.completed + summary.value.failed == |batch|
        && Settling(records, batch, host, |batch|)
      ensures summary.None? ==> LocalOf(world, p) == Raised && Refusal(records, batch, host, refuses)
    {
      batch := ChooseBatch(p, maxBatch, host);
      var done, completed, failed := ProcessBatch(p, batch, ts, host, refuses);
      if done { FinishBatch(p); }
      summary := if done then Some(Summary(|batch|, completed, failed)) else None;
    }

    /**
     * One call: the batch is the oldest outstanding records; it reports iff it got the
     * lock and no attempt was refused; each record it reached is completed iff the host
     * accepted it; and the lock file is left as it was found.
     */
    method Process(p: L.ProcessId, maxBatch: nat, ts: string, host: string -> bool, refuses: string -> bool)
      returns (summary: Option<Summary>, batch: seq<string>)
      requires Valid() && L.PhaseOf(world.locks, p).Outside?
      modifies this
      ensures Valid() && L.PhaseOf(world.locks, p).Outside? && lockFile == old(lockFile)
      ensures OthersSame(old(records), records, batch)
      ensures old(lockFile).Some? ==> summary.None? && batch == [] && world.reports == old(world.reports)
      ensures old(lockFile).None? ==>
        && P.OldestFirst(old(records), maxBatch, batch)
        && (summary.Some? <==> forall i :: 0 <= i < |batch| ==> !refuses(batch[i]))
      ensures summary.Some? ==>
        && summary.value.attempted == |batch| && summary.value.completed == Accepted(host, batch)
        && summary.value.completed + summary.value.failed == |batch|
        && Settling(records, batch, host, |batch|) && |world.reports| == |old(world.reports)| + 1
        && var r := world.reports[|old(world.reports)|];
           r.batch == batch && r.completed == summary.value.completed && r.failed == summary.value.failed
      ensures old(lockFile).None? && summary.None? ==>
        Refusal(records, batch, host, refuses) && world.reports == old(world.reports)
    {
      batch := [];
      var token := EnterLock(p);
      if token.None? { return None, batch; }
      summary, batch := ProcessPending(p, maxBatch, ts, host, refuses);
      LeaveLock(p, token.value);
    }
  }

  /** Some record's attempt was refused; those before it ended as answered, it and the rest are outstanding. */
  ghost predicate Refusal(records: S.Records, batch: seq<string>, host: string -> bool, refuses: string -> bool) {
    exists i :: 0 <= i < |batch| && refuses(batch[i]) && Settling(records, batch, host, i)
  }

  lemma SettlingStep(w: World, w': World, p: L.ProcessId, host: string -> bool)
    requires At(w, p, Ready) && Distinct(LocalOf(w, p).batch)
    requires Settling(w.records, LocalOf(w, p).batch, host, LocalOf(w, p).next)
    requires RecordDone(w, w', p, host(Current(w, p)))
    ensures Settling(w'.records, LocalOf(w, p).batch, host, LocalOf(w, p).next + 1)
  {
    var r := LocalOf(w, p);
    forall i | 0 <= i < |r.batch|
      ensures r.batch[i] in w'.records && (w'.records[r.batch[i]].status.Done? <==> i < r.next + 1 && host(r.batch[i]))
    {
      if i != r.next { assert r.batch[i] != r.batch[r.next]; }
    }
  }
}
