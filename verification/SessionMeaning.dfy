/**
 * What the issues of a session say and what its replayed state holds, in terms of the
 * session's events alone.
 */
module SessionMeaning {
  import opened Prelude
  import opened JournalEvents
  import opened SessionReplay

  // ----- counting -----

  /** The events of `t` that open an occurrence: every start, and every outcome without an open start. */
  ghost function Occurrences(events: seq<Event>, t: string): nat {
    if events == [] then 0
    else
      var n := |events| - 1;
      Occurrences(events[..n], t) + if StartsAt(events, n, t) || (EndsAt(events, n, t) && !Open(events[..n], t)) then 1 else 0
  }

  ghost predicate Appeared(events: seq<Event>, t: string) {
    exists i: nat :: StartsAt(events, i, t) || EndsAt(events, i, t)
  }

  lemma AppearedStep(events: seq<Event>, t: string)
    requires events != []
    ensures Appeared(events, t) <==>
      Appeared(Front(events), t) || StartsAt(events, |events| - 1, t) || EndsAt(events, |events| - 1, t)
  {
    StartsAtFront(events, t);
    if Appeared(Front(events), t) {
      var i: nat :| StartsAt(Front(events), i, t) || EndsAt(Front(events), i, t);
      assert StartsAt(events, i, t) || EndsAt(events, i, t);
    }
  }

  lemma {:induction false} OccurrencesPositive(events: seq<Event>, t: string)
    ensures Occurrences(events, t) > 0 <==> Appeared(events, t)
  {
    if events != [] {
      var n := |events| - 1;
      OccurrencesPositive(events[..n], t);
      AppearedStep(events, t);
      if Open(events[..n], t) {
        var i: nat :| StartsAt(events[..n], i, t) && forall k :: i < k < n ==> !EndsAt(events[..n], k, t);
        assert Appeared(events[..n], t);
      }
    }
  }

  lemma CountsStep(r: Replay, e: Event, t: string)
    ensures var c, c' := r.context, Step(r, e).context;
      var opens := e.kind.Transaction? && Resolve(e, r.state.selected) == t && (e.kind.status.Started? || t !in c.active);
      && CountIn(c'.counts, t) == CountIn(c.counts, t) + (if opens then 1 else 0)
      && (t in c'.active ==> c'.active[t] == if opens then CountIn(c'.counts, t) else if t in c.active then c.active[t] else 0)
  {
    HostLeavesIndex(r.context, e);
  }

  /** The occurrence counter counts occurrences, and an open transaction is at its latest one. */
  lemma {:induction false} CountsAreOccurrences(id: string, events: seq<Event>, t: string)
    requires AllIn(id, events)
    ensures var c := ReplayAll(id, events).context;
      CountIn(c.counts, t) == Occurrences(events, t) && (t in c.active ==> c.active[t] == CountIn(c.counts, t))
  {
    if events != [] {
      var front := Front(events);
      CountsAreOccurrences(id, front, t);
      ReplayKnows(id, front);
      ActiveIsOpen(id, front, t);
      ActiveIsOpen(id, events, t);
      LastAt(events, t);
      CountsStep(ReplayAll(id, front), Last(events), t);
      OpenStep(events, t);
    }
  }

  // ----- what each issue says -----

  /** Severities; only what is missing at the ends is a matter of mode. */
  function SeverityOf(code: Code, mode: Mode): Severity {
    match code
    case TimestampReversed => Warning
    case AmbiguousOutcome => Warning
    case AnchorMissing => if mode.Partial? then Warning else Error
    case SequenceStart => if mode.Partial? then Warning else Error
    case SessionIncomplete => if mode.Partial? then Warning else Error
    case OpenTransaction => if mode.Partial? then Warning else Error
    case UnresolvedRequest => if mode.Partial? then Warning else Error
    case _ => Error
  }

  /** An outcome of a transaction that has appeared before and is not open. */
  ghost predicate Repeats(events: seq<Event>, i: nat, t: string) {
    EndsAt(events, i, t) && !Open(events[..i], t) && Appeared(events[..i], t)
  }

  ghost predicate GoesBack(events: seq<Event>, i: nat) {
    0 < i < |events| && events[i].time < events[i - 1].time
  }

  /** From some point on, more requests than results. */
  ghost predicate Unanswered(events: seq<Event>, t: string) {
    exists m: nat :: m <= |events| && Results(events[m..], t) < Requests(events[m..], t)
  }

  ghost predicate Deserves(events: seq<Event>, framesFit: bool, code: Code) {
    match code
    case FrameLimit => !framesFit
    case AnchorMissing => events == [] || !events[0].kind.FlowLoaded?
    case SequenceStart => events != [] && events[0].kind.FlowLoaded? && events[0].number != 2
    case SequenceGap => !Contiguous(events)
    case TimestampReversed => exists i: nat :: GoesBack(events, i)
    case OrphanResult => !ResultsFollow(events)
    case Overlapping => !NoOverlap(events)
    case AmbiguousOutcome => exists i: nat, t :: Repeats(events, i, t)
    case SessionIncomplete => !EndsTerminal(events)
    case OpenTransaction => exists t :: Open(events, t)
    case UnresolvedRequest => exists t :: Unanswered(events, t)
    case _ => false
  }

  lemma WhenHolds(raised: bool, severity: Severity, code: Code, issue: Issue)
    ensures issue in When(raised, severity, code) <==> raised && issue == Issue(severity, code)
  {}

  predicate InLoop(code: Code) {
    code.SequenceGap? || code.TimestampReversed? || code.OrphanResult? || code.Overlapping? || code.AmbiguousOutcome?
  }

  /** What an event adds. */
  predicate StepRaises(r: Replay, e: Event, code: Code) {
    match code
    case SequenceGap => Gap(r, e)
    case TimestampReversed => Late(r, e)
    case OrphanResult => Orphan(r, e)
    case Overlapping => Overlaps(r, e)
    case AmbiguousOutcome => Ambiguous(r, e)
    case _ => false
  }

  predicate LastRaises(id: string, events: seq<Event>, code: Code)
    requires events != []
  {
    StepRaises(ReplayAll(id, Front(events)), Last(events), code)
  }

  lemma LifecycleHolds(r: Replay, e: Event, issue: Issue)
    ensures issue in LifecycleIssues(r, e) <==>
      || (Orphan(r, e) && issue == Issue(Error, OrphanResult))
      || (Overlaps(r, e) && issue == Issue(Error, Overlapping))
      || (Ambiguous(r, e) && issue == Issue(Warning, AmbiguousOutcome))
  {
    WhenHolds(Orphan(r, e), Error, OrphanResult, issue);
    WhenHolds(Overlaps(r, e), Error, Overlapping, issue);
    WhenHolds(Ambiguous(r, e), Warning, AmbiguousOutcome, issue);
  }

  predicate Late(r: Replay, e: Event) {
    r.previous.Some? && e.time < r.previous.value.time
  }

  lemma StepHolds(r: Replay, e: Event, issue: Issue)
    ensures issue in StepIssues(r, e) <==>
      || (Gap(r, e) && issue == Issue(Error, SequenceGap))
      || (Late(r, e) && issue == Issue(Warning, TimestampReversed))
      || issue in LifecycleIssues(r, e)
  {
    var gap, late := When(Gap(r, e), Error, SequenceGap), When(Late(r, e), Warning, TimestampReversed);
    WhenHolds(Gap(r, e), Error, SequenceGap, issue);
    WhenHolds(Late(r, e), Warning, TimestampReversed, issue);
    assert StepIssues(r, e) == gap + late + LifecycleIssues(r, e);
  }

  lemma StepSays(r: Replay, e: Event, mode: Mode, issue: Issue)
    ensures issue in StepIssues(r, e) <==> issue.severity == SeverityOf(issue.code, mode) && StepRaises(r, e, issue.code)
  {
    StepHolds(r, e, issue);
    LifecycleHolds(r, e, issue);
  }

  lemma GoesBackStep(id: string, events: seq<Event>)
    requires events != [] && AllIn(id, events)
    ensures Deserves(events, true, TimestampReversed) <==>
      Deserves(Front(events), true, TimestampReversed) || LastRaises(id, events, TimestampReversed)
  {
    AllInFront(id, events);
    ReplayKnows(id, Front(events));
    forall i: nat ensures GoesBack(events, i) <==> GoesBack(Front(events), i) || (i == |events| - 1 && GoesBack(events, i)) {}
    if LastRaises(id, events, TimestampReversed) { assert GoesBack(events, |events| - 1); }
  }

  lemma RepeatsStep(id: string, events: seq<Event>)
    requires events != [] && AllIn(id, events)
    ensures Deserves(events, true, AmbiguousOutcome) <==>
      Deserves(Front(events), true, AmbiguousOutcome) || LastRaises(id, events, AmbiguousOutcome)
  {
    var front, n := Front(events), |events| - 1;
    AllInFront(id, events);
    ReplayKnows(id, front);
    forall i: nat, t | i < n ensures Repeats(events, i, t) <==> Repeats(front, i, t) {
      StartsAtFront(events, t);
      FrontPrefix(events, i);
    }
    var t := TransactionAt(events, n);
    assert events[..n] == front;
    ActiveIsOpen(id, front, t);
    CountsAreOccurrences(id, front, t);
    OccurrencesPositive(front, t);
    assert LastRaises(id, events, AmbiguousOutcome) <==> Repeats(events, n, t);
    if i: nat, u :| Repeats(events, i, u) {
      if i == n { assert u == t; }
    }
    if i: nat, u :| Repeats(front, i, u) { assert Repeats(events, i, u); }
  }

  lemma DeservesStep(id: string, events: seq<Event>, code: Code)
    requires events != [] && AllIn(id, events) && InLoop(code)
    ensures Deserves(events, true, code) <==> Deserves(Front(events), true, code) || LastRaises(id, events, code)
  {
    AllInFront(id, events);
    SpecOfFront(id, events);
    match code
    case SequenceGap => if Contiguous(Front(events)) { GapMeans(id, events); }
    case OrphanResult => if ResultsFollow(Front(events)) { OrphanMeans(id, events); }
    case Overlapping => if NoOverlap(Front(events)) { OverlapMeans(id, events); }
    case TimestampReversed => GoesBackStep(id, events);
    case AmbiguousOutcome => RepeatsStep(id, events);
  }

  lemma {:induction false} LoopSays(id: string, events: seq<Event>, mode: Mode, issue: Issue)
    requires AllIn(id, events)
    ensures issue in LoopIssues(id, events) <==>
      InLoop(issue.code) && issue.severity == SeverityOf(issue.code, mode) && Deserves(events, true, issue.code)
  {
    if events == [] {
      if InLoop(issue.code) { EmptyDeserves(issue.code); }
    } else {
      AllInFront(id, events);
      LoopSays(id, Front(events), mode, issue);
      StepSays(ReplayAll(id, Front(events)), Last(events), mode, issue);
      if InLoop(issue.code) { DeservesStep(id, events, issue.code); }
    }
  }

  lemma EmptyDeserves(code: Code)
    requires InLoop(code)
    ensures !Deserves([], true, code)
  {
    var none: seq<Event> := [];
    assert forall n :: 0 <= n <= |none| ==> none[..n] == none;
  }

  // ----- what is left waiting -----

  lemma CountsFromFront(events: seq<Event>, m: nat, t: string)
    requires events != [] && m < |events|
    ensures var e := Last(events);
      && Requests(events[m..], t) == Requests(Front(events)[m..], t) + (if e.kind.AuthorizationRequested? && e.transaction == Some(t) then 1 else 0)
      && Results(events[m..], t) == Results(Front(events)[m..], t) + (if e.kind.AuthorizationResult? && e.transaction == Some(t) then 1 else 0)
  {
    assert events[m..][..|events[m..]| - 1] == Front(events)[m..];
  }

  /** How many more requests than results there are from `m` on. */
  function Excess(events: seq<Event>, m: nat, t: string): int
    requires m <= |events|
  {
    Requests(events[m..], t) - Results(events[m..], t)
  }

  /** Requests not yet matched by a result, per transaction. */
  function Waiting(events: seq<Event>): map<string, nat> {
    if events == [] then map[]
    else TrackHost(Context(map[], map[], Waiting(events[..|events| - 1]), map[]), events[|events| - 1]).pending
  }

  lemma {:induction false} WaitingReplayed(id: string, events: seq<Event>)
    requires AllIn(id, events)
    ensures ReplayAll(id, events).context.pending == Waiting(events)
  {
    if events != [] {
      AllInFront(id, events);
      WaitingReplayed(id, Front(events));
      StepCounts(ReplayAll(id, Front(events)), Last(events));
    }
  }

  lemma {:induction false} WaitingPositive(events: seq<Event>)
    ensures forall t :: t in Waiting(events) ==> Waiting(events)[t] > 0
  {
    if events != [] { WaitingPositive(events[..|events| - 1]); }
  }

  function WaitingChange(e: Event, t: string): int {
    if e.transaction != Some(t) then 0
    else if e.kind.AuthorizationRequested? then 1
    else if e.kind.AuthorizationResult? then -1
    else 0
  }

  lemma WaitingStep(events: seq<Event>, t: string)
    requires events != []
    ensures CountIn(Waiting(events), t) == Max(0, CountIn(Waiting(Front(events)), t) + WaitingChange(Last(events), t))
  {
    WaitingPositive(Front(events));
  }

  /** Whatever results came unasked, what a transaction still waits for is the largest excess of requests since any point. */
  lemma {:induction false} WaitingIsExcess(events: seq<Event>, t: string)
    ensures var waiting := CountIn(Waiting(events), t);
      && (forall m: nat :: m <= |events| ==> Excess(events, m, t) <= waiting)
      && exists m: nat :: m <= |events| && Excess(events, m, t) == waiting
  {
    var n := |events|;
    assert events[n..] == [];
    assert Excess(events, n, t) == 0;
    if events != [] {
      var front := Front(events);
      WaitingIsExcess(front, t);
      var before, change := CountIn(Waiting(front), t), WaitingChange(Last(events), t);
      WaitingStep(events, t);
      forall m: nat | m <= n ensures Excess(events, m, t) <= CountIn(Waiting(events), t) {
        if m < n {
          CountsFromFront(events, m, t);
          assert Excess(front, m, t) <= before;
        } else {
          assert events[m..] == [];
        }
      }
      var m: nat :| m <= |front| && Excess(front, m, t) == before;
      CountsFromFront(events, m, t);
      assert Excess(events, m, t) == before + change;
    }
  }

  lemma UnansweredWaits(events: seq<Event>, t: string)
    ensures t in Waiting(events) <==> Unanswered(events, t)
  {
    WaitingPositive(events);
    WaitingIsExcess(events, t);
    if t in Waiting(events) {
      var m: nat :| m <= |events| && Excess(events, m, t) == CountIn(Waiting(events), t);
      assert Results(events[m..], t) < Requests(events[m..], t);
    }
    if Unanswered(events, t) {
      var m: nat :| m <= |events| && Results(events[m..], t) < Requests(events[m..], t);
      assert Excess(events, m, t) > 0;
    }
  }

  lemma OpenSays(id: string, events: seq<Event>)
    requires AllIn(id, events)
    ensures |ReplayAll(id, events).context.active| > 0 <==> Deserves(events, true, OpenTransaction)
  {
    var active := ReplayAll(id, events).context.active;
    NotEmpty(active);
    forall t ensures t in active <==> Open(events, t) { ActiveIsOpen(id, events, t); }
  }

  lemma WaitingSays(id: string, events: seq<Event>)
    requires AllIn(id, events)
    ensures |ReplayAll(id, events).context.pending| > 0 <==> Deserves(events, true, UnresolvedRequest)
  {
    WaitingReplayed(id, events);
    NotEmpty(Waiting(events));
    forall t ensures t in Waiting(events) <==> Unanswered(events, t) { UnansweredWaits(events, t); }
  }

  lemma EndSays(id: string, events: seq<Event>, mode: Mode, issue: Issue)
    requires AllIn(id, events)
    ensures issue in EndIssues(ReplayAll(id, events), mode) <==>
      && (issue.code.SessionIncomplete? || issue.code.OpenTransaction? || issue.code.UnresolvedRequest?)
      && issue.severity == SeverityOf(issue.code, mode) && Deserves(events, true, issue.code)
  {
    var r := ReplayAll(id, events);
    ReplayKnows(id, events);
    OpenSays(id, events);
    WaitingSays(id, events);
    EndHolds(r, mode, issue);
  }

  lemma EndHolds(r: Replay, mode: Mode, issue: Issue)
    ensures issue in EndIssues(r, mode) <==>
      && issue.severity == SeverityOf(issue.code, mode)
      && match issue.code
         case SessionIncomplete => !r.state.status.Ended?
         case OpenTransaction => |r.context.active| > 0
         case UnresolvedRequest => |r.context.pending| > 0
         case _ => false
  {
    WhenHolds(!r.state.status.Ended?, Completeness(mode), SessionIncomplete, issue);
    CopiesHold(|r.context.active|, Issue(Completeness(mode), OpenTransaction), issue);
    CopiesHold(|r.context.pending|, Issue(Completeness(mode), UnresolvedRequest), issue);
  }

  lemma CopiesHold(n: nat, copied: Issue, issue: Issue)
    ensures issue in Copies(n, copied) <==> n > 0 && issue == copied
  {
    if n > 0 { assert Copies(n, copied)[0] == copied; }
  }

  lemma NotEmpty(m: map<string, nat>)
    ensures |m| > 0 <==> exists t :: t in m
  {
    if |m| > 0 {
      assert m != map[];
      var t :| t in m;
    }
  }

  /** In either mode a session raises exactly the issues its events deserve, each at its severity. */
  lemma SessionSays(id: string, events: seq<Event>, framesFit: bool, mode: Mode, issue: Issue)
    requires AllIn(id, events)
    ensures issue in SessionIssues(id, events, framesFit, true, mode) <==>
      issue.severity == SeverityOf(issue.code, mode) && Deserves(events, framesFit, issue.code)
  {
    WhenHolds(!framesFit, Error, FrameLimit, issue);
    AnchorSays(events, mode, issue);
    LoopSays(id, events, mode, issue);
    EndSays(id, events, mode, issue);
  }

  lemma AnchorSays(events: seq<Event>, mode: Mode, issue: Issue)
    ensures issue in AnchorIssues(events, mode) <==>
      && (issue.code.AnchorMissing? || issue.code.SequenceStart?)
      && issue.severity == SeverityOf(issue.code, mode) && Deserves(events, true, issue.code)
  {
    if events != [] && events[0].kind.FlowLoaded? {
      WhenHolds(events[0].number != 2, Completeness(mode), SequenceStart, issue);
    }
  }

  /** What a session needs to raise no error in partial mode: everything but complete ends. */
  ghost predicate ConsistentSession(id: string, events: seq<Event>) {
    AllIn(id, events) && Contiguous(events) && ResultsFollow(events) && NoOverlap(events)
  }

  lemma PartialDecides(id: string, events: seq<Event>, framesFit: bool)
    ensures NoError(SessionIssues(id, events, framesFit, true, Partial)) <==> framesFit && ConsistentSession(id, events)
  {
    var frames := When(!framesFit, Error, FrameLimit);
    var anchor := AnchorIssues(events, Partial);
    var loop := LoopIssues(id, events);
    var end := EndIssues(ReplayAll(id, events), Partial);
    NoErrorAppend(frames + anchor + loop, end);
    NoErrorAppend(frames + anchor, loop);
    NoErrorAppend(frames, anchor);
    WhenError(!framesFit, Error, FrameLimit);
    assert NoError(anchor) && NoError(end);
    LoopDecides(id, events);
  }

  // ----- what the state holds -----

  /** The last event that moves the status. */
  ghost predicate LastMover(events: seq<Event>, i: nat) {
    i < |events| && MovesStatus(events[i]) && forall j :: i < j < |events| ==> !MovesStatus(events[j])
  }

  /** The status an event that moves it leads to. */
  ghost predicate LeadsTo(e: Event, status: Status) {
    match e.kind
    case FlowFailed => status == Ended(Failed)
    case Transaction(outcome) => status == if outcome.Started? then Active else Ended(outcome)
    case _ => status == Active
  }

  function RequestPlaces(events: seq<Event>): set<nat> {
    set i: nat | i < |events| && events[i].kind.AuthorizationRequested?
  }

  function ResultPlaces(events: seq<Event>): set<nat> {
    set i: nat | i < |events| && events[i].kind.AuthorizationResult?
  }

  lemma {:induction false} RequestsCounted(id: string, events: seq<Event>)
    requires AllIn(id, events)
    ensures ReplayAll(id, events).state.requests == |RequestPlaces(events)|
  {
    if events == [] {
      assert RequestPlaces(events) == {};
    } else {
      var front, asks := Front(events), Last(events).kind.AuthorizationRequested?;
      RequestsCounted(id, front);
      StepCounts(ReplayAll(id, front), Last(events));
      assert RequestPlaces(events) == if asks then RequestPlaces(front) + {|front|} else RequestPlaces(front);
    }
  }

  lemma {:induction false} ResultsCounted(id: string, events: seq<Event>)
    requires AllIn(id, events)
    ensures ReplayAll(id, events).state.results == |ResultPlaces(events)|
  {
    if events == [] {
      assert ResultPlaces(events) == {};
    } else {
      var front, answers := Front(events), Last(events).kind.AuthorizationResult?;
      ResultsCounted(id, front);
      StepCounts(ReplayAll(id, front), Last(events));
      assert ResultPlaces(events) == if answers then ResultPlaces(front) + {|front|} else ResultPlaces(front);
    }
  }

  ghost predicate Reconciling(events: seq<Event>, i: nat) {
    i < |events| && events[i].kind == Transaction(ReconciliationRequired)
  }

  lemma {:induction false} FlagsFollow(id: string, events: seq<Event>)
    requires AllIn(id, events)
    ensures var s := ReplayAll(id, events).state;
      && s.number == (if events == [] then 0 else Last(events).number)
      && (s.requiresReconciliation <==> exists i: nat :: Reconciling(events, i))
  {
    if events != [] {
      var front, n := Front(events), |events| - 1;
      FlagsFollow(id, front);
      forall i: nat ensures Reconciling(events, i) <==> Reconciling(front, i) || (i == n && Last(events).kind == Transaction(ReconciliationRequired)) {}
      if Last(events).kind == Transaction(ReconciliationRequired) { assert Reconciling(events, n); }
    }
  }

  /** The status is where the last event that moves it leads, or as recorded when there is none. */
  lemma {:induction false} StatusFollows(id: string, events: seq<Event>)
    requires AllIn(id, events)
    ensures var status := ReplayAll(id, events).state.status;
      && (forall i: nat :: LastMover(events, i) ==> LeadsTo(events[i], status))
      && ((forall i: nat :: !LastMover(events, i)) ==> status == Recorded)
  {
    if events != [] {
      var front, e, n := Front(events), Last(events), |events| - 1;
      StatusFollows(id, front);
      if MovesStatus(e) {
        assert LastMover(events, n);
      } else {
        forall i: nat ensures LastMover(events, i) <==> LastMover(front, i) {
          assert forall j :: 0 <= j < n ==> front[j] == events[j];
        }
      }
    }
  }

  /**
   * What one event of the session does to the list of transactions: a start, or an
   * outcome without an open start, is appended as the transaction's next occurrence; any
   * other outcome becomes the status of its latest occurrence; nothing else changes it.
   */
  lemma ListStep(id: string, events: seq<Event>, t: string)
    requires events != [] && AllIn(id, events)
    ensures var n := |events| - 1;
      var before, after := ReplayAll(id, events[..n]).state.transactions, ReplayAll(id, events).state.transactions;
      && (!events[n].kind.Transaction? ==> after == before)
      && (StartsAt(events, n, t) || (EndsAt(events, n, t) && !Open(events[..n], t)) ==>
            after == before + [Tracked(t, Occurrences(events, t), events[n].kind.status)])
      && (EndsAt(events, n, t) && Open(events[..n], t) ==>
            exists i :: 0 <= i < |before| && before[i] == Tracked(t, Occurrences(events, t), Started)
              && after == before[i := before[i].(status := events[n].kind.status)])
  {
    var front, e := Front(events), Last(events);
    var r := ReplayAll(id, front);
    AllInFront(id, events);
    OccurrencesIndexed(id, front);
    ReplayKnows(id, front);
    LastAt(events, t);
    ActiveIsOpen(id, front, t);
    CountsAreOccurrences(id, front, t);
    HostLeavesIndex(r.context, e);
    if StartsAt(events, |events| - 1, t) || EndsAt(events, |events| - 1, t) {
      var (_, x) := Track(r.context, t, e.kind.status);
      if e.kind.status.Started? || t !in r.context.active {
        RecordNew(r.context, r.state.transactions, x);
      } else {
        assert Has(r.context.indexes, t, r.context.active[t]);
        RecordAgain(r.context, r.state.transactions, x);
        var i := At(r.context.indexes, t, x.occurrence);
        assert r.state.transactions[i] == Tracked(t, Occurrences(events, t), Started);
      }
    }
  }

  /** The transaction an event belongs to: the one it names, else the one in force, else the unknown one. */
  lemma TransactionAtMeans(events: seq<Event>, i: nat)
    requires i < |events|
    ensures exists selected ::
      && InForce(events[..i], selected)
      && TransactionAt(events, i) ==
           if events[i].transaction.Some? then events[i].transaction.value
           else if selected.Some? then selected.value
           else "<unknown>"
  {
    InForceMeans(events[..i]);
  }
}
