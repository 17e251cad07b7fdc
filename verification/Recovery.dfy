/**
 * How the certification harness reads a journal: backward scans over the events,
 * and the recovery action they lead to, against the forward replay.
 */
module Recovery {
  import opened Prelude
  import opened JournalEvents
  import R = SessionReplay
  import M = SessionMeaning

  datatype Outcome = WasCompleted | WasCancelled | HasFailed | Idle

  datatype RecoveryAction = NoAction | SafeRetry | ReverseAuthorization | ManualReconciliation | OperatorReview

  /** The host or one of the four devices was offline or unavailable. */
  predicate IsRecoveryCode(c: FailureCode) {
    c.HostUnavailable? || c.DeviceOffline? || c.DeviceUnavailable?
  }

  // ----- kinds of events -----

  predicate IsOutcome(e: Event) { e.kind.Transaction? && !e.kind.status.Started? }

  predicate IsTerminal(e: Event) { e.kind.FlowFailed? || IsOutcome(e) }

  /** Nothing before these belongs to the transaction at hand. */
  predicate IsBoundary(e: Event) {
    e.kind.FlowFailed? || e.kind.FlowLoaded? || e.kind.SessionStarted? || e.kind.RuntimeStarted?
  }

  predicate IsUnsuccessful(e: Event) {
    IsOutcome(e) && (e.kind.status.Failed? || e.kind.status.ReconciliationRequired?)
  }

  predicate OutcomeOf(e: Event, t: string) { IsOutcome(e) && e.transaction == Some(t) }

  predicate Approves(e: Event, t: string) {
    e.kind.AuthorizationResult? && e.transaction == Some(t) && (e.approved || e.code == Some(HostApproved))
  }

  // ----- what the scans find -----

  /** The last terminal event before `n`. */
  function LastTerminal(events: seq<Event>, n: nat): (r: Option<nat>)
    requires n <= |events|
    ensures r.Some? ==> r.value < n && IsTerminal(events[r.value]) && forall j :: r.value < j < n ==> !IsTerminal(events[j])
    ensures r.None? ==> forall j :: 0 <= j < n ==> !IsTerminal(events[j])
  {
    if n == 0 then None else if IsTerminal(events[n - 1]) then Some(n - 1) else LastTerminal(events, n - 1)
  }

  /** The last outcome before `n`, unless a boundary comes after it. */
  function PreviousOutcome(events: seq<Event>, n: nat): (r: Option<nat>)
    requires n <= |events|
    ensures r.Some? ==> r.value < n && IsOutcome(events[r.value])
    ensures r.Some? ==> forall j :: r.value < j < n ==> !IsOutcome(events[j]) && !IsBoundary(events[j])
  {
    if n == 0 || IsBoundary(events[n - 1]) then None
    else if IsOutcome(events[n - 1]) then Some(n - 1)
    else PreviousOutcome(events, n - 1)
  }

  /** When the scan finds nothing, a boundary follows every outcome. */
  lemma {:induction false} NoPreviousOutcome(events: seq<Event>, n: nat, i: nat)
    requires i < n <= |events| && PreviousOutcome(events, n).None? && IsOutcome(events[i])
    ensures exists j :: i < j < n && IsBoundary(events[j])
  {
    if !IsBoundary(events[n - 1]) { NoPreviousOutcome(events, n - 1, i); }
  }

  function LastOutcomeOf(events: seq<Event>, n: nat, t: string): (r: Option<nat>)
    requires n <= |events|
    ensures r.Some? ==> r.value < n && OutcomeOf(events[r.value], t) && forall j :: r.value < j < n ==> !OutcomeOf(events[j], t)
    ensures r.None? ==> forall j :: 0 <= j < n ==> !OutcomeOf(events[j], t)
  {
    if n == 0 then None else if OutcomeOf(events[n - 1], t) then Some(n - 1) else LastOutcomeOf(events, n - 1, t)
  }

  function OutcomeOfJournal(events: seq<Event>): Outcome {
    match LastTerminal(events, |events|)
    case None => Idle
    case Some(i) =>
      if events[i].kind == Transaction(Completed) then WasCompleted
      else if events[i].kind == Transaction(Cancelled) then WasCancelled
      else HasFailed
  }

  /** The outcome the last terminal event stands for: a flow failure stands for the outcome before it. */
  function Settling(events: seq<Event>): Option<nat> {
    match LastTerminal(events, |events|)
    case None => None
    case Some(i) => if events[i].kind.FlowFailed? then PreviousOutcome(events, i) else Some(i)
  }

  function CodeOfFailure(events: seq<Event>): Option<FailureCode> {
    match LastTerminal(events, |events|)
    case None => None
    case Some(i) =>
      if events[i].kind.FlowFailed? && events[i].code.Some? then events[i].code
      else if Settling(events).Some? && IsUnsuccessful(events[Settling(events).value]) then events[Settling(events).value].code
      else None
  }

  datatype Occurrence = Occurrence(transaction: string, start: nat, terminal: nat)

  function LastOccurrence(events: seq<Event>): (r: Option<Occurrence>)
    ensures r.Some? ==> r.value.start <= r.value.terminal < |events|
  {
    var i := Settling(events);
    if i.None? || !IsUnsuccessful(events[i.value]) || events[i.value].transaction.None? then None
    else
      var t := events[i.value].transaction.value;
      var before := LastOutcomeOf(events, i.value, t);
      Some(Occurrence(t, if before.Some? then before.value + 1 else 0, i.value))
  }

  ghost predicate Approved(events: seq<Event>, o: Occurrence)
    requires o.start <= o.terminal < |events|
  {
    exists j :: o.start <= j <= o.terminal && Approves(events[j], o.transaction)
  }

  /** Requests without a result, per transaction. */
  function Pending(events: seq<Event>): map<string, nat> {
    M.Waiting(events)
  }

  predicate Reconciles(e: Event) { e.kind == Transaction(ReconciliationRequired) }

  ghost predicate Uncertain(events: seq<Event>) {
    (exists i :: 0 <= i < |events| && Reconciles(events[i])) || Pending(events) != map[]
  }

  ghost function Classify(events: seq<Event>): RecoveryAction {
    if Uncertain(events) then ManualReconciliation
    else if OutcomeOfJournal(events).WasCompleted? || OutcomeOfJournal(events).WasCancelled?
      || CodeOfFailure(events) == Some(HostDeclined) then NoAction
    else if LastOccurrence(events).Some? && Approved(events, LastOccurrence(events).value) then ReverseAuthorization
    else if CodeOfFailure(events).Some? && IsRecoveryCode(CodeOfFailure(events).value) then SafeRetry
    else OperatorReview
  }

  // ----- the scans themselves -----

  method JournalOutcome(events: seq<Event>) returns (r: Outcome)
    ensures r == OutcomeOfJournal(events)
  {
    var index: nat := |events|;
    while index > 0
      invariant LastTerminal(events, |events|) == LastTerminal(events, index) && index <= |events|
    {
      index := index - 1;
      var kind := events[index].kind;
      if kind == Transaction(Completed) { return WasCompleted; }
      if kind == Transaction(Cancelled) { return WasCancelled; }
      if kind == Transaction(Failed) || kind == Transaction(ReconciliationRequired) || kind.FlowFailed? {
        return HasFailed;
      }
    }
    r := Idle;
  }

  method PreviousTransactionTerminal(events: seq<Event>, before: nat) returns (r: Option<nat>)
    requires before <= |events|
    ensures r == PreviousOutcome(events, before)
  {
    var index: nat := before;
    while index > 0
      invariant PreviousOutcome(events, before) == PreviousOutcome(events, index) && index <= |events|
    {
      index := index - 1;
      if IsBoundary(events[index]) { return None; }
      if IsOutcome(events[index]) { return Some(index); }
    }
    r := None;
  }

  method TerminalFailureCode(events: seq<Event>) returns (r: Option<FailureCode>)
    ensures r == CodeOfFailure(events)
  {
    var index: nat := |events|;
    while index > 0
      invariant LastTerminal(events, |events|) == LastTerminal(events, index) && index <= |events|
    {
      index := index - 1;
      var e := events[index];
      if IsOutcome(e) && !IsUnsuccessful(e) { return None; }
      if IsUnsuccessful(e) { return e.code; }
      if e.kind.FlowFailed? {
        if e.code.Some? { return e.code; }
        var terminal := PreviousTransactionTerminal(events, index);
        if terminal.None? { return None; }
        if IsUnsuccessful(events[terminal.value]) { return events[terminal.value].code; }
        return None;
      }
    }
    r := None;
  }

  method LastTerminalOccurrence(events: seq<Event>) returns (r: Option<Occurrence>)
    ensures r == LastOccurrence(events)
  {
    var terminal := None;
    var index: nat := |events|;
    while index > 0
      invariant LastTerminal(events, |events|) == LastTerminal(events, index) && index <= |events|
      invariant terminal == None
    {
      index := index - 1;
      if events[index].kind.FlowFailed? {
        terminal := PreviousTransactionTerminal(events, index);
        break;
      }
      if IsOutcome(events[index]) {
        terminal := Some(index);
        break;
      }
    }
    assert terminal == Settling(events);
    if terminal.None? { return None; }
    var e := events[terminal.value];
    if !IsUnsuccessful(e) || e.transaction.None? { return None; }
    var t := e.transaction.value;
    index := terminal.value;
    while index > 0
      invariant index <= terminal.value
      invariant LastOutcomeOf(events, terminal.value, t) == LastOutcomeOf(events, index, t)
    {
      index := index - 1;
      if OutcomeOf(events[index], t) { return Some(Occurrence(t, index + 1, terminal.value)); }
    }
    r := Some(Occurrence(t, 0, terminal.value));
  }

  method HasApprovedAuthorization(events: seq<Event>, o: Occurrence) returns (found: bool)
    requires o.start <= o.terminal < |events|
    ensures found <==> Approved(events, o)
  {
    for i := o.start to o.terminal + 1
      invariant forall j :: o.start <= j < i ==> !Approves(events[j], o.transaction)
    {
      if Approves(events[i], o.transaction) { return true; }
    }
    return false;
  }

  method PendingAuthorizationTransactions(events: seq<Event>) returns (keys: set<string>)
    ensures keys == Pending(events).Keys
  {
    var pending: map<string, nat> := map[];
    for i := 0 to |events|
      invariant pending == Pending(events[..i])
    {
      assert events[..i + 1][..i] == events[..i];
      var e := events[i];
      if e.transaction.Some? {
        var t := e.transaction.value;
        var count := R.CountIn(pending, t);
        if e.kind.AuthorizationRequested? { pending := pending[t := count + 1]; }
        if e.kind.AuthorizationResult? && count > 0 {
          if count == 1 { pending := pending - {t}; } else { pending := pending[t := count - 1]; }
        }
      }
    }
    assert events[..|events|] == events;
    return pending.Keys;
  }

  method ClassifyRecovery(events: seq<Event>) returns (r: RecoveryAction)
    ensures r == Classify(events)
  {
    for i := 0 to |events|
      invariant forall j :: 0 <= j < i ==> !Reconciles(events[j])
    {
      if Reconciles(events[i]) { return ManualReconciliation; }
    }
    var keys := PendingAuthorizationTransactions(events);
    if keys != {} { return ManualReconciliation; }
    var outcome := JournalOutcome(events);
    var code := TerminalFailureCode(events);
    if outcome.WasCompleted? || outcome.WasCancelled? || code == Some(HostDeclined) { return NoAction; }
    var occurrence := LastTerminalOccurrence(events);
    if occurrence.Some? {
      var approved := HasApprovedAuthorization(events, occurrence.value);
      if approved { return ReverseAuthorization; }
    }
    if code.Some? && IsRecoveryCode(code.value) { return SafeRetry; }
    return OperatorReview;
  }

  // ----- the scans agree with the forward replay -----

  /** The harness's unresolved transactions are the replayer's unmatched host requests. */
  lemma PendingAgrees(id: string, events: seq<Event>)
    requires R.AllIn(id, events)
    ensures Pending(events) == R.ReplayAll(id, events).context.pending
  {
    M.WaitingReplayed(id, events);
  }

  function OutcomeOfStatus(s: TransactionStatus): Outcome {
    match s
    case Completed => WasCompleted
    case Cancelled => WasCancelled
    case _ => HasFailed
  }

  lemma {:induction false} LastTerminalFront(events: seq<Event>, n: nat)
    requires n < |events|
    ensures LastTerminal(events, n) == LastTerminal(R.Front(events), n)
  {
    if n > 0 && !IsTerminal(events[n - 1]) { LastTerminalFront(events, n - 1); }
  }

  /** When replay ends in an outcome, the backward scan finds that outcome; reconciliation reads as failed. */
  lemma {:induction false} OutcomeAgrees(id: string, events: seq<Event>)
    requires R.AllIn(id, events) && R.ReplayAll(id, events).state.status.Ended?
    ensures OutcomeOfJournal(events) == OutcomeOfStatus(R.ReplayAll(id, events).state.status.outcome)
  {
    if events != [] && !IsTerminal(R.Last(events)) {
      R.AllInFront(id, events);
      OutcomeAgrees(id, R.Front(events));
      LastTerminalFront(events, |events| - 1);
    }
  }

  // ----- when a retry is called safe -----

  /** The flow failures the runtime writes carry a phase and a message, no code. */
  ghost predicate FlowFailuresCodeless(events: seq<Event>) {
    forall i :: 0 <= i < |events| && events[i].kind.FlowFailed? ==> events[i].code.None?
  }

  /** What event validation demands of failed transactions. */
  ghost predicate FailuresNamed(events: seq<Event>) {
    forall i :: 0 <= i < |events| && events[i].kind == Transaction(Failed) ==> events[i].transaction.Some?
  }

  /** `i` is the last outcome; after it at most one flow failure ends the journal, with no new start of flow or session between. */
  ghost predicate Settles(events: seq<Event>, i: nat) {
    && i < |events| && IsOutcome(events[i])
    && (forall j :: i < j < |events| ==> !IsOutcome(events[j]))
    && forall j, k :: i < j < k < |events| && IsBoundary(events[j]) ==> !events[k].kind.FlowFailed?
  }

  /** An approval that no earlier outcome of the same transaction has already closed. */
  ghost predicate OpenApproval(events: seq<Event>, i: nat, j: nat, t: string) {
    && j < i < |events|
    && events[j].kind.AuthorizationResult? && events[j].transaction == Some(t)
    && (events[j].approved || events[j].code == Some(HostApproved))
    && forall k :: j < k < i ==> !OutcomeOf(events[k], t)
  }

  ghost predicate RetryAt(events: seq<Event>, i: nat) {
    && Settles(events, i)
    && events[i].kind == Transaction(Failed) && events[i].transaction.Some?
    && events[i].code.Some? && IsRecoveryCode(events[i].code.value)
    && forall j: nat :: !OpenApproval(events, i, j, events[i].transaction.value)
  }

  lemma SettlingSettles(events: seq<Event>, i: nat)
    requires i < |events|
    ensures Settling(events) == Some(i) ==> Settles(events, i)
    ensures Settles(events, i) ==> Settling(events) == Some(i)
  {
    var last := LastTerminal(events, |events|);
    if Settles(events, i) {
      assert IsTerminal(events[i]);
      if last.value != i {
        assert events[last.value].kind.FlowFailed?;
        if PreviousOutcome(events, last.value).None? { NoPreviousOutcome(events, last.value, i); }
      }
    }
    assert forall k :: 0 <= k < |events| && events[k].kind.FlowFailed? ==> IsTerminal(events[k]);
  }

  lemma ApprovalsInWindow(events: seq<Event>, i: nat, t: string)
    requires i < |events| && OutcomeOf(events[i], t)
    ensures var before := LastOutcomeOf(events, i, t);
      var o := Occurrence(t, if before.Some? then before.value + 1 else 0, i);
      Approved(events, o) <==> exists j: nat :: OpenApproval(events, i, j, t)
  {
    var before := LastOutcomeOf(events, i, t);
    var o := Occurrence(t, if before.Some? then before.value + 1 else 0, i);
    if Approved(events, o) {
      var j :| o.start <= j <= o.terminal && Approves(events[j], t);
      assert OpenApproval(events, i, j, t);
    }
    if exists j: nat :: OpenApproval(events, i, j, t) {
      var j: nat :| OpenApproval(events, i, j, t);
      assert o.start <= j && Approves(events[j], o.transaction);
    }
  }

  /** The last terminal event is a flow failure with a code of its own. */
  predicate CodedEnd(events: seq<Event>) {
    var last := LastTerminal(events, |events|);
    last.Some? && events[last.value].kind.FlowFailed? && events[last.value].code.Some?
  }

  /** That code tells of something that recovers. */
  predicate EndRecovers(events: seq<Event>)
    requires CodedEnd(events)
  {
    IsRecoveryCode(events[LastTerminal(events, |events|).value].code.value)
  }

  /** No approval of the failed transaction is open when it fails. */
  ghost predicate FailsClean(events: seq<Event>, i: nat) {
    i < |events| && events[i].kind == Transaction(Failed) && events[i].transaction.Some? ==>
      forall j: nat :: !OpenApproval(events, i, j, events[i].transaction.value)
  }

  lemma SafeRetryOnlyAt(events: seq<Event>)
    requires !CodedEnd(events) && FailuresNamed(events) && Classify(events) == SafeRetry
    ensures Settling(events).Some? && RetryAt(events, Settling(events).value)
  {
    var i := Settling(events).value;
    SettlingSettles(events, i);
    assert !Reconciles(events[i]);
    assert events[i].kind == Transaction(Failed);
    var t := events[i].transaction.value;
    ApprovalsInWindow(events, i, t);
  }

  lemma RetryAtIsSafe(events: seq<Event>, i: nat)
    requires !CodedEnd(events) && !Uncertain(events) && RetryAt(events, i)
    ensures Classify(events) == SafeRetry
  {
    SettlingSettles(events, i);
    ApprovalsInWindow(events, i, events[i].transaction.value);
  }

  // ----- which action is answered -----

  ghost predicate LastTerminalAt(events: seq<Event>, k: nat) {
    k < |events| && IsTerminal(events[k]) && forall j :: k < j < |events| ==> !IsTerminal(events[j])
  }

  /** The journal ends completed or cancelled. */
  ghost predicate EndsDone(events: seq<Event>) {
    exists k: nat :: LastTerminalAt(events, k) && events[k].kind in {Transaction(Completed), Transaction(Cancelled)}
  }

  /** The code in force: that of a coded flow failure at the end, else that of the failed outcome it all settles on. */
  ghost predicate Blames(events: seq<Event>, code: FailureCode) {
    if exists k: nat :: EndsCoded(events, k) then exists k: nat :: EndsCoded(events, k) && events[k].code == Some(code)
    else exists i: nat :: Settles(events, i) && Unsuccessful(events[i]) && events[i].code == Some(code)
  }

  ghost predicate EndsCoded(events: seq<Event>, k: nat) {
    LastTerminalAt(events, k) && events[k].kind.FlowFailed? && events[k].code.Some?
  }

  predicate Unsuccessful(e: Event) {
    e.kind == Transaction(Failed) || e.kind == Transaction(ReconciliationRequired)
  }

  /** The last outcome is a failure of a named transaction with an approval open at it. */
  ghost predicate ApprovalStands(events: seq<Event>) {
    exists i: nat, j: nat ::
      && Settles(events, i) && events[i].kind == Transaction(Failed) && events[i].transaction.Some?
      && OpenApproval(events, i, j, events[i].transaction.value)
  }

  predicate Recovers(code: FailureCode) {
    match code
    case HostUnavailable => true
    case DeviceOffline(_) => true
    case DeviceUnavailable(_) => true
    case _ => false
  }

  lemma TerminalFound(events: seq<Event>, k: nat)
    ensures LastTerminalAt(events, k) <==> LastTerminal(events, |events|) == Some(k)
  {}

  lemma BlamesExact(events: seq<Event>, code: FailureCode)
    ensures Blames(events, code) <==> CodeOfFailure(events) == Some(code)
  {
    forall k: nat ensures LastTerminalAt(events, k) <==> LastTerminal(events, |events|) == Some(k) { TerminalFound(events, k); }
    forall i: nat | i < |events| ensures Settles(events, i) <==> Settling(events) == Some(i) { SettlingSettles(events, i); }
    if CodedEnd(events) { assert EndsCoded(events, LastTerminal(events, |events|).value); }
  }

  lemma DoneExact(events: seq<Event>)
    ensures EndsDone(events) <==> OutcomeOfJournal(events).WasCompleted? || OutcomeOfJournal(events).WasCancelled?
  {
    forall k: nat ensures LastTerminalAt(events, k) <==> LastTerminal(events, |events|) == Some(k) { TerminalFound(events, k); }
  }

  lemma StandsExact(events: seq<Event>)
    requires forall i :: 0 <= i < |events| ==> !Reconciles(events[i])
    ensures ApprovalStands(events) <==> LastOccurrence(events).Some? && Approved(events, LastOccurrence(events).value)
  {
    forall i: nat | i < |events| ensures Settles(events, i) <==> Settling(events) == Some(i) { SettlingSettles(events, i); }
    var settled := Settling(events);
    if settled.Some? && events[settled.value].kind == Transaction(Failed) && events[settled.value].transaction.Some? {
      ApprovalsInWindow(events, settled.value, events[settled.value].transaction.value);
    }
  }

  lemma UncertainExact(events: seq<Event>)
    ensures Uncertain(events) <==>
      || (exists i :: 0 <= i < |events| && events[i].kind == Transaction(ReconciliationRequired))
      || exists t :: M.Unanswered(events, t)
  {
    forall t ensures t in Pending(events) <==> M.Unanswered(events, t) { M.UnansweredWaits(events, t); }
    assert Pending(events) != map[] <==> exists t :: t in Pending(events) by {
      if Pending(events) != map[] { var t :| t in Pending(events); }
    }
    assert forall i :: 0 <= i < |events| ==> (Reconciles(events[i]) <==> events[i].kind == Transaction(ReconciliationRequired));
  }

  /**
   * Which action every journal is answered with: manual reconciliation when one is
   * required or a request is unanswered; otherwise nothing when the journal ends done or
   * the host declined, a reversal when an approval stands at the failure it settles on,
   * a safe retry when the code in force recovers, and an operator's review of the rest.
   */
  lemma ActionDecides(events: seq<Event>)
    ensures var action := Classify(events);
      var uncertain := (exists i :: 0 <= i < |events| && events[i].kind == Transaction(ReconciliationRequired))
        || exists t :: M.Unanswered(events, t);
      var idle := EndsDone(events) || Blames(events, HostDeclined);
      var stands := ApprovalStands(events);
      var recovers := exists code :: Blames(events, code) && Recovers(code);
      && (action == ManualReconciliation <==> uncertain)
      && (action == NoAction <==> !uncertain && idle)
      && (action == ReverseAuthorization <==> !uncertain && !idle && stands)
      && (action == SafeRetry <==> !uncertain && !idle && !stands && recovers)
      && (action == OperatorReview <==> !uncertain && !idle && !stands && !recovers)
  {
    UncertainExact(events);
    if !Uncertain(events) {
      DoneExact(events);
      StandsExact(events);
      forall code ensures Blames(events, code) <==> CodeOfFailure(events) == Some(code) { BlamesExact(events, code); }
    }
  }

  /** After a coded end the code decides, except that the approvals of a failure it stands for still count. */
  lemma CodedDecides(events: seq<Event>)
    requires CodedEnd(events) && FailuresNamed(events) && !Uncertain(events)
    ensures Classify(events) == SafeRetry <==> EndRecovers(events) && forall i: nat :: Settles(events, i) ==> FailsClean(events, i)
  {
    var settled := Settling(events);
    if settled.Some? {
      var i := settled.value;
      assert !Reconciles(events[i]);
      SettlingSettles(events, i);
      if events[i].kind == Transaction(Failed) { ApprovalsInWindow(events, i, events[i].transaction.value); }
    }
    forall i: nat | Settles(events, i) ensures settled == Some(i) { SettlingSettles(events, i); }
  }

  /**
   * Exactly when a retry is called safe, on every journal whose failures are named:
   * nothing awaits reconciliation or an answer, and either the journal ends in a flow
   * failure with a recovery code of its own and no approval is open at a failure that it
   * stands for, or the last outcome is a failure with a recovery code at which no
   * approval of its transaction is open.
   */
  lemma SafeRetryExact(events: seq<Event>)
    requires FailuresNamed(events)
    ensures Classify(events) == SafeRetry <==>
      && !Uncertain(events)
      && if CodedEnd(events) then EndRecovers(events) && forall i: nat :: Settles(events, i) ==> FailsClean(events, i)
         else exists i: nat :: RetryAt(events, i)
  {
    if CodedEnd(events) {
      if !Uncertain(events) { CodedDecides(events); }
    } else {
      if Classify(events) == SafeRetry { SafeRetryOnlyAt(events); }
      if !Uncertain(events) && exists i: nat :: RetryAt(events, i) {
        var i: nat :| RetryAt(events, i);
        RetryAtIsSafe(events, i);
      }
    }
  }

  /** On journals whose flow failures carry no code, as the runtime writes them, the first case does not arise. */
  lemma SafeRetryDecides(events: seq<Event>)
    requires FlowFailuresCodeless(events) && FailuresNamed(events)
    ensures Classify(events) == SafeRetry <==> !Uncertain(events) && exists i: nat :: RetryAt(events, i)
  {
    SafeRetryExact(events);
  }

  // ----- the classification reads approvals up to the last outcome only -----

  lemma {:induction false} ScansAppend(events: seq<Event>, more: seq<Event>, n: nat, t: string)
    requires n <= |events|
    ensures LastTerminal(events + more, n) == LastTerminal(events, n)
    ensures PreviousOutcome(events + more, n) == PreviousOutcome(events, n)
    ensures LastOutcomeOf(events + more, n, t) == LastOutcomeOf(events, n, t)
  {
    if n > 0 {
      assert (events + more)[n - 1] == events[n - 1];
      ScansAppend(events, more, n - 1, t);
    }
  }

  ghost predicate NoTerminal(events: seq<Event>) {
    forall i :: 0 <= i < |events| ==> !IsTerminal(events[i])
  }

  lemma {:induction false} LastTerminalAppend(events: seq<Event>, more: seq<Event>, n: nat)
    requires NoTerminal(more) && |events| <= n <= |events| + |more|
    ensures LastTerminal(events + more, n) == LastTerminal(events, |events|)
    decreases n
  {
    if n == |events| {
      ScansAppend(events, more, n, "");
    } else {
      assert (events + more)[n - 1] == more[n - 1 - |events|];
      LastTerminalAppend(events, more, n - 1);
    }
  }

  lemma SettlingAppend(events: seq<Event>, more: seq<Event>)
    requires NoTerminal(more)
    ensures LastTerminal(events + more, |events + more|) == LastTerminal(events, |events|)
    ensures Settling(events + more) == Settling(events)
  {
    LastTerminalAppend(events, more, |events| + |more|);
    var last := LastTerminal(events, |events|);
    if last.Some? {
      assert (events + more)[last.value] == events[last.value];
      ScansAppend(events, more, last.value, "");
    }
  }

  lemma CodeAppend(events: seq<Event>, more: seq<Event>)
    requires NoTerminal(more)
    ensures OutcomeOfJournal(events + more) == OutcomeOfJournal(events)
    ensures CodeOfFailure(events + more) == CodeOfFailure(events)
  {
    SettlingAppend(events, more);
    var last := LastTerminal(events, |events|);
    if last.Some? { assert (events + more)[last.value] == events[last.value]; }
    var settled := Settling(events);
    if settled.Some? { assert (events + more)[settled.value] == events[settled.value]; }
  }

  lemma OccurrenceAppend(events: seq<Event>, more: seq<Event>)
    requires NoTerminal(more)
    ensures LastOccurrence(events + more) == LastOccurrence(events)
  {
    SettlingAppend(events, more);
    var settled := Settling(events);
    if settled.Some? {
      assert (events + more)[settled.value] == events[settled.value];
      if events[settled.value].transaction.Some? {
        ScansAppend(events, more, settled.value, events[settled.value].transaction.value);
      }
    }
  }

  lemma ApprovedAppend(events: seq<Event>, more: seq<Event>, o: Occurrence)
    requires o.start <= o.terminal < |events|
    ensures Approved(events + more, o) <==> Approved(events, o)
  {
    assert forall j :: 0 <= j < |events| ==> (events + more)[j] == events[j];
  }

  lemma UncertainAppend(events: seq<Event>, more: seq<Event>)
    requires NoTerminal(more) && (Pending(events) == map[] <==> Pending(events + more) == map[])
    ensures Uncertain(events + more) <==> Uncertain(events)
  {
    if i :| 0 <= i < |events| && Reconciles(events[i]) {
      assert Reconciles((events + more)[i]);
    }
    if i :| 0 <= i < |events + more| && Reconciles((events + more)[i]) {
      if i >= |events| { assert IsTerminal(more[i - |events|]); } else { assert Reconciles(events[i]); }
    }
  }

  /**
   * Whatever follows the last terminal event, approvals included, leaves the
   * classification alone, as long as it leaves alone whether a request is unanswered.
   */
  lemma LateEventsIgnored(events: seq<Event>, more: seq<Event>)
    requires NoTerminal(more) && (Pending(events) == map[] <==> Pending(events + more) == map[])
    ensures Classify(events + more) == Classify(events)
  {
    UncertainAppend(events, more);
    CodeAppend(events, more);
    OccurrenceAppend(events, more);
    var o := LastOccurrence(events);
    if o.Some? { ApprovedAppend(events, more, o.value); }
  }

  /** An approval that, up to the end of the journal, no outcome of its transaction follows but the failure at `i`. */
  ghost predicate StillOpen(events: seq<Event>, i: nat, j: nat, t: string) {
    j < |events| && Approves(events[j], t) && forall k :: j < k < |events| && k != i ==> !OutcomeOf(events[k], t)
  }

  /**
   * How far a safe retry can be trusted: when it settles on a failure, that transaction
   * has no approval open anywhere in the journal exactly when none comes after the failure.
   */
  lemma SafeRetryTrusted(events: seq<Event>, i: nat)
    requires Classify(events) == SafeRetry && Settling(events) == Some(i)
    requires events[i].kind == Transaction(Failed) && events[i].transaction.Some?
    ensures var t := events[i].transaction.value;
      (forall j: nat :: !StillOpen(events, i, j, t)) <==> forall j :: i < j < |events| ==> !Approves(events[j], t)
  {
    var t := events[i].transaction.value;
    SettlingSettles(events, i);
    ApprovalsInWindow(events, i, t);
    forall j: nat | j < i ensures !StillOpen(events, i, j, t) {
      assert !OpenApproval(events, i, j, t);
    }
    forall j | i < j < |events| && Approves(events[j], t) ensures StillOpen(events, i, j, t) {
      assert forall k :: j < k < |events| ==> !IsOutcome(events[k]);
    }
  }

  /** In a strictly valid journal a safe retry leaves no host request without its result. */
  lemma SafeRetryAllAnswered(id: string, events: seq<Event>)
    requires R.AllIn(id, events) && R.ResultsFollow(events) && Classify(events) == SafeRetry
    ensures R.AllAnswered(events)
  {
    PendingAgrees(id, events);
    forall t ensures R.Results(events, t) == R.Requests(events, t) {
      R.PendingIsDifference(id, events, t);
    }
  }

  // ----- where a retry is called safe although money may have moved -----

  function At(kind: Kind, number: int, transaction: Option<string>, code: Option<FailureCode>, approved: bool): Event {
    Event(kind, Some("s"), number, 0, false, transaction, code, approved)
  }

  const APPROVED_THEN_FLOW_FAILED := [
    At(FlowLoaded, 2, None, None, false),
    At(AuthorizationRequested, 3, Some("X"), None, false),
    At(AuthorizationResult, 4, Some("X"), None, true),
    At(Transaction(Completed), 5, Some("X"), None, false),
    At(FlowFailed, 6, None, Some(HostUnavailable), false)]

  const FAILED_THEN_APPROVED := [
    At(FlowLoaded, 2, None, None, false),
    At(Transaction(Failed), 3, Some("X"), Some(HostUnavailable), false),
    At(AuthorizationRequested, 4, Some("X"), None, false),
    At(AuthorizationResult, 5, Some("X"), None, true)]

  /** One request at `q`, its result at `r`, and no other host event. */
  ghost predicate OnePair(events: seq<Event>, q: nat, r: nat, t: string) {
    && q < r < |events|
    && events[q].kind.AuthorizationRequested? && events[q].transaction == Some(t)
    && events[r].kind.AuthorizationResult? && events[r].transaction == Some(t)
    && forall i :: 0 <= i < |events| && i != q && i != r ==>
         !events[i].kind.AuthorizationRequested? && !events[i].kind.AuthorizationResult?
  }

  lemma {:induction false} PairCounts(events: seq<Event>, q: nat, r: nat, t: string, n: nat)
    requires OnePair(events, q, r, t) && n <= |events|
    ensures forall u :: R.Requests(events[..n], u) == if n > q && u == t then 1 else 0
    ensures forall u :: R.Results(events[..n], u) == if n > r && u == t then 1 else 0
  {
    if n > 0 {
      PairCounts(events, q, r, t, n - 1);
      assert events[..n][..n - 1] == events[..n - 1];
    }
  }

  /** A contiguous session with one answered request, no start and a last event that ends it, is well formed. */
  lemma PairWellFormed(events: seq<Event>, q: nat, r: nat, t: string, last: nat)
    requires OnePair(events, q, r, t)
    requires events[0].kind.FlowLoaded? && events[0].number == 2 && R.AllIn("s", events) && R.Contiguous(events)
    requires forall i :: 0 <= i < |events| ==> events[i].kind != Transaction(Started)
    requires last < |events| && IsTerminal(events[last])
    requires forall j :: last < j < |events| ==> !R.MovesStatus(events[j])
    ensures R.WellFormedSession("s", events)
  {
    forall n | 0 <= n <= |events| ensures R.NoMoreResults(events[..n]) {
      PairCounts(events, q, r, t, n);
    }
    PairCounts(events, q, r, t, |events|);
    assert events[..|events|] == events;
    assert R.Terminal(events[last]);
  }

  /**
   * What a coded end leaves unchecked: when it stands for no failed transaction, its
   * recovery code alone makes the retry safe, whatever was approved before.
   */
  lemma FlowCodeSkipsApprovals(events: seq<Event>)
    requires !Uncertain(events) && CodedEnd(events) && EndRecovers(events)
    requires forall i: nat :: Settles(events, i) ==> events[i].kind != Transaction(Failed)
    ensures Classify(events) == SafeRetry
  {
    var settled := Settling(events);
    if settled.Some? {
      SettlingSettles(events, settled.value);
      assert !Reconciles(events[settled.value]);
    }
  }

  /**
   * A flow failure that does carry a recovery code, after an approved and completed
   * withdrawal: the journal is strictly valid, and a retry is called safe.
   */
  lemma FlowCodeHidesApproval()
    ensures var events := APPROVED_THEN_FLOW_FAILED;
      && R.WellFormedSession("s", events)
      && Classify(events) == SafeRetry
      && Approves(events[2], "X") && OutcomeOf(events[3], "X") && !FlowFailuresCodeless(events)
  {
    var events := APPROVED_THEN_FLOW_FAILED;
    PairWellFormed(events, 1, 2, "X", 4);
    PendingEmpty(events);
    assert LastTerminal(events, 5) == Some(4);
    assert PreviousOutcome(events, 4) == Some(3);
    forall i: nat | Settles(events, i) ensures events[i].kind != Transaction(Failed) { SettlingSettles(events, i); }
    assert events[4].kind.FlowFailed? && events[4].code.Some?;
    FlowCodeSkipsApprovals(events);
  }

  lemma PendingEmpty(events: seq<Event>)
    requires R.WellFormedSession("s", events)
    ensures Pending(events) == map[]
  {
    PendingAgrees("s", events);
    var pending := Pending(events);
    R.PendingPositive("s", events);
    forall t ensures t !in pending { R.PendingIsDifference("s", events, t); }
    assert pending == map[];
  }

  /** Such a late approval in a journal that is strictly valid and codeless. */
  lemma LateApprovalIgnored()
    ensures var events := FAILED_THEN_APPROVED;
      && R.WellFormedSession("s", events) && FlowFailuresCodeless(events)
      && Classify(events) == SafeRetry
      && Settling(events) == Some(1) && Approves(events[3], "X")
  {
    var events := FAILED_THEN_APPROVED;
    PairWellFormed(events, 2, 3, "X", 1);
    PendingEmpty(events);
    assert RetryAt(events, 1);
    SettlingSettles(events, 1);
    RetryAtIsSafe(events, 1);
  }
}