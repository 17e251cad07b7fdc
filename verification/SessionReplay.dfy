/**
 * Replaying one session: the one-pass replayer with its four maps, and the
 * declarative meaning of "no error was raised".
 */
module SessionReplay {
  import opened Prelude
  import opened JournalEvents

  datatype Status = Recorded | Active | Ended(outcome: TransactionStatus)

  datatype Tracked = Tracked(transaction: string, occurrence: nat, status: TransactionStatus)

  datatype State = State(
    number: int,
    status: Status,
    selected: Option<string>,
    transactions: seq<Tracked>,
    requests: nat,
    results: nat,
    requiresReconciliation: bool)

  datatype Context = Context(
    active: map<string, nat>,
    counts: map<string, nat>,
    pending: map<string, nat>,
    indexes: map<string, map<nat, nat>>)

  datatype Replay = Replay(state: State, context: Context, previous: Option<Event>)

  const INITIAL :=
    Replay(State(0, Recorded, None, [], 0, 0, false), Context(map[], map[], map[], map[]), None)

  const UNKNOWN := "<unknown>"

  function CountIn(m: map<string, nat>, t: string): nat {
    if t in m then m[t] else 0
  }

  function Resolve(e: Event, selected: Option<string>): string {
    if e.transaction.Some? then e.transaction.value else if selected.Some? then selected.value else UNKNOWN
  }

  // ----- one event -----

  function TrackHost(c: Context, e: Event): Context {
    if e.transaction.None? then c
    else
      var t := e.transaction.value;
      if e.kind.AuthorizationRequested? then c.(pending := c.pending[t := CountIn(c.pending, t) + 1])
      else if e.kind.AuthorizationResult? && CountIn(c.pending, t) > 0 then
        c.(pending := if c.pending[t] == 1 then c.pending - {t} else c.pending[t := c.pending[t] - 1])
      else c
  }

  /** Which occurrence an outcome or a start belongs to. */
  function Track(c: Context, t: string, status: TransactionStatus): (Context, Tracked) {
    var next := CountIn(c.counts, t) + 1;
    if status.Started? then
      (c.(counts := c.counts[t := next], active := c.active[t := next]), Tracked(t, next, status))
    else if t in c.active then
      (c.(active := c.active - {t}), Tracked(t, c.active[t], status))
    else
      (c.(counts := c.counts[t := next]), Tracked(t, next, status))
  }

  function Select(selected: Option<string>, e: Event): Option<string> {
    if e.transaction.None? then selected
    else if e.kind.TransactionSelected? then e.transaction
    else if selected.None? && e.transaction.value != "CustomerIdentification" && e.transaction.value != "TerminalStatus" then
      e.transaction
    else selected
  }

  function NewStatus(status: Status, e: Event): Status {
    match e.kind
    case FlowLoaded => Active
    case SessionStarted => Active
    case FlowFailed => Ended(Failed)
    case TransactionSelected => if e.transaction.Some? then Active else status
    case Transaction(s) => if s.Started? then Active else Ended(s)
    case _ => status
  }

  /** The list and its index after one tracked start or outcome. */
  function Record(transactions: seq<Tracked>, indexes: map<string, map<nat, nat>>, tracked: Tracked)
    : (seq<Tracked>, map<string, map<nat, nat>>)
  {
    var own := if tracked.transaction in indexes then indexes[tracked.transaction] else map[];
    if tracked.occurrence in own then
      var i := own[tracked.occurrence];
      (if i < |transactions| then transactions[i := transactions[i].(status := tracked.status)] else transactions, indexes)
    else
      (transactions + [tracked], indexes[tracked.transaction := own[tracked.occurrence := |transactions|]])
  }

  function Apply(s: State, e: Event, transactions: seq<Tracked>): State {
    State(
      e.number,
      NewStatus(s.status, e),
      Select(s.selected, e),
      transactions,
      s.requests + (if e.kind.AuthorizationRequested? then 1 else 0),
      s.results + (if e.kind.AuthorizationResult? then 1 else 0),
      s.requiresReconciliation || e.kind == Transaction(ReconciliationRequired))
  }

  function Step(r: Replay, e: Event): Replay {
    var hosted := TrackHost(r.context, e);
    match e.kind
    case Transaction(status) =>
      var (context, tracked) := Track(hosted, Resolve(e, r.state.selected), status);
      var (transactions, indexes) := Record(r.state.transactions, context.indexes, tracked);
      Replay(Apply(r.state, e, transactions), context.(indexes := indexes), Some(e))
    case _ => Replay(Apply(r.state, e, r.state.transactions), hosted, Some(e))
  }

  predicate Gap(r: Replay, e: Event) { r.previous.Some? && e.number != r.previous.value.number + 1 }

  predicate Orphan(r: Replay, e: Event) {
    e.kind.AuthorizationResult? && e.transaction.Some? && CountIn(r.context.pending, e.transaction.value) == 0
  }

  predicate Overlaps(r: Replay, e: Event) {
    e.kind == Transaction(Started) && Resolve(e, r.state.selected) in r.context.active
  }

  predicate Ambiguous(r: Replay, e: Event) {
    && e.kind.Transaction? && !e.kind.status.Started?
    && var t := Resolve(e, r.state.selected); t !in r.context.active && CountIn(r.context.counts, t) > 0
  }

  /** What one event of the session raises. */
  function StepIssues(r: Replay, e: Event): seq<Issue> {
    When(Gap(r, e), Error, SequenceGap)
      + When(r.previous.Some? && e.time < r.previous.value.time, Warning, TimestampReversed)
      + LifecycleIssues(r, e)
  }

  function LifecycleIssues(r: Replay, e: Event): seq<Issue> {
    When(Orphan(r, e), Error, OrphanResult)
      + When(Overlaps(r, e), Error, Overlapping)
      + When(Ambiguous(r, e), Warning, AmbiguousOutcome)
  }

  // ----- a whole session -----

  /** Events of another session are skipped. */
  function ReplayAll(id: string, events: seq<Event>): Replay {
    if events == [] then INITIAL
    else
      var before := ReplayAll(id, events[..|events| - 1]);
      var e := events[|events| - 1];
      if e.session != Some(id) then before else Step(before, e)
  }

  function LoopIssues(id: string, events: seq<Event>): seq<Issue> {
    if events == [] then []
    else
      var front := events[..|events| - 1];
      var e := events[|events| - 1];
      LoopIssues(id, front)
        + if e.session != Some(id) then [Issue(Error, SessionMismatch)] else StepIssues(ReplayAll(id, front), e)
  }

  datatype Mode = Strict | Partial

  function Completeness(mode: Mode): Severity { if mode.Strict? then Error else Warning }

  function AnchorIssues(events: seq<Event>, mode: Mode): seq<Issue> {
    if events == [] || !events[0].kind.FlowLoaded? then [Issue(Completeness(mode), AnchorMissing)]
    else When(events[0].number != 2, Completeness(mode), SequenceStart)
  }

  function EndIssues(r: Replay, mode: Mode): seq<Issue> {
    When(!r.state.status.Ended?, Completeness(mode), SessionIncomplete)
      + Copies(|r.context.active|, Issue(Completeness(mode), OpenTransaction))
      + Copies(|r.context.pending|, Issue(Completeness(mode), UnresolvedRequest))
  }

  /** Everything a session raises, before any issue budget. */
  function SessionIssues(id: string, events: seq<Event>, framesFit: bool, anchored: bool, mode: Mode): seq<Issue> {
    When(!framesFit, Error, FrameLimit)
      + (if anchored then AnchorIssues(events, mode) else [])
      + LoopIssues(id, events)
      + EndIssues(ReplayAll(id, events), mode)
  }

  // ----- the declarative specification -----

  ghost predicate AllIn(id: string, events: seq<Event>) {
    forall i :: 0 <= i < |events| ==> events[i].session == Some(id)
  }

  ghost predicate Contiguous(events: seq<Event>) {
    forall i :: 0 < i < |events| ==> events[i].number == events[i - 1].number + 1
  }

  function Requests(events: seq<Event>, t: string): nat {
    if events == [] then 0
    else
      var e := events[|events| - 1];
      Requests(events[..|events| - 1], t) + if e.kind.AuthorizationRequested? && e.transaction == Some(t) then 1 else 0
  }

  function Results(events: seq<Event>, t: string): nat {
    if events == [] then 0
    else
      var e := events[|events| - 1];
      Results(events[..|events| - 1], t) + if e.kind.AuthorizationResult? && e.transaction == Some(t) then 1 else 0
  }

  ghost predicate NoMoreResults(events: seq<Event>) {
    forall t :: Results(events, t) <= Requests(events, t)
  }

  /** No result comes before its request: at no point has any transaction more results than requests. */
  ghost predicate ResultsFollow(events: seq<Event>) {
    forall n :: 0 <= n <= |events| ==> NoMoreResults(events[..n])
  }

  ghost predicate AllAnswered(events: seq<Event>) {
    forall t :: Results(events, t) == Requests(events, t)
  }

  /** The transaction in force: the last one selected, else the first one named that may be taken as selected. */
  ghost predicate InForce(events: seq<Event>, selected: Option<string>) {
    if exists i :: SelectsAt(events, i) then
      exists i :: SelectsAt(events, i) && selected == events[i].transaction && forall j :: i < j < |events| ==> !SelectsAt(events, j)
    else if exists i :: NamesAt(events, i) then
      exists i :: NamesAt(events, i) && selected == events[i].transaction && forall j :: 0 <= j < i ==> !NamesAt(events, j)
    else selected.None?
  }

  ghost predicate SelectsAt(events: seq<Event>, i: int) {
    0 <= i < |events| && events[i].kind.TransactionSelected? && events[i].transaction.Some?
  }

  ghost predicate NamesAt(events: seq<Event>, i: int) {
    && 0 <= i < |events| && events[i].transaction.Some?
    && events[i].transaction != Some("CustomerIdentification") && events[i].transaction != Some("TerminalStatus")
  }

  function InForceAfter(events: seq<Event>): Option<string> {
    if events == [] then None else Select(InForceAfter(events[..|events| - 1]), events[|events| - 1])
  }

  function TransactionAt(events: seq<Event>, i: nat): string
    requires i < |events|
  {
    Resolve(events[i], InForceAfter(events[..i]))
  }

  ghost predicate StartsAt(events: seq<Event>, i: nat, t: string) {
    i < |events| && events[i].kind == Transaction(Started) && TransactionAt(events, i) == t
  }

  ghost predicate EndsAt(events: seq<Event>, i: nat, t: string) {
    i < |events| && events[i].kind.Transaction? && !events[i].kind.status.Started? && TransactionAt(events, i) == t
  }

  /** Started, and no outcome since. */
  ghost predicate Open(events: seq<Event>, t: string) {
    exists i: nat :: StartsAt(events, i, t) && forall k :: i < k < |events| ==> !EndsAt(events, k, t)
  }

  ghost predicate NoOverlap(events: seq<Event>) {
    forall i: nat, t :: StartsAt(events, i, t) ==> !Open(events[..i], t)
  }

  ghost predicate AllEnded(events: seq<Event>) {
    forall t :: !Open(events, t)
  }

  predicate MovesStatus(e: Event) {
    e.kind.FlowLoaded? || e.kind.SessionStarted? || e.kind.FlowFailed? || e.kind.Transaction?
    || (e.kind.TransactionSelected? && e.transaction.Some?)
  }

  predicate Terminal(e: Event) {
    e.kind.FlowFailed? || (e.kind.Transaction? && !e.kind.status.Started?)
  }

  /** The last event that moves the status is an outcome or a flow failure. */
  ghost predicate EndsTerminal(events: seq<Event>) {
    exists i :: 0 <= i < |events| && Terminal(events[i]) && forall j :: i < j < |events| ==> !MovesStatus(events[j])
  }

  ghost predicate WellFormedSession(id: string, events: seq<Event>) {
    && events != [] && events[0].kind.FlowLoaded? && events[0].number == 2
    && AllIn(id, events) && Contiguous(events)
    && ResultsFollow(events) && AllAnswered(events)
    && NoOverlap(events) && AllEnded(events)
    && EndsTerminal(events)
  }

  // ----- replay and specification agree -----

  function Front(events: seq<Event>): seq<Event>
    requires events != []
  {
    events[..|events| - 1]
  }

  function Last(events: seq<Event>): Event
    requires events != []
  {
    events[|events| - 1]
  }

  lemma FrontPrefix(events: seq<Event>, n: nat)
    requires n < |events|
    ensures Front(events)[..n] == events[..n]
  {}

  lemma TransactionAtFront(events: seq<Event>, i: nat)
    requires i < |events| - 1
    ensures TransactionAt(Front(events), i) == TransactionAt(events, i)
  {
    FrontPrefix(events, i);
  }

  lemma StartsAtFront(events: seq<Event>, t: string)
    requires events != []
    ensures forall i: nat :: i < |events| - 1 ==> (StartsAt(Front(events), i, t) <==> StartsAt(events, i, t))
    ensures forall i: nat :: i < |events| - 1 ==> (EndsAt(Front(events), i, t) <==> EndsAt(events, i, t))
  {
    forall i: nat | i < |events| - 1 ensures TransactionAt(Front(events), i) == TransactionAt(events, i) {
      TransactionAtFront(events, i);
    }
  }

  /** A transaction is open when the last event starts it, or it was open and the last event does not end it. */
  lemma OpenStep(events: seq<Event>, t: string)
    requires events != []
    ensures Open(events, t) <==>
      StartsAt(events, |events| - 1, t) || (Open(Front(events), t) && !EndsAt(events, |events| - 1, t))
  {
    var front := Front(events);
    StartsAtFront(events, t);
    if Open(events, t) {
      var i: nat :| StartsAt(events, i, t) && forall k :: i < k < |events| ==> !EndsAt(events, k, t);
      if i < |front| {
        assert StartsAt(front, i, t);
        forall k | i < k < |front| ensures !EndsAt(front, k, t) { assert !EndsAt(events, k, t); }
      }
    }
    if Open(front, t) && !EndsAt(events, |events| - 1, t) {
      var i: nat :| StartsAt(front, i, t) && forall k :: i < k < |front| ==> !EndsAt(front, k, t);
      assert StartsAt(events, i, t);
      forall k | i < k < |events| ensures !EndsAt(events, k, t) {
        if k < |front| { assert !EndsAt(front, k, t); }
      }
    }
  }

  lemma EndsTerminalStep(events: seq<Event>)
    requires events != []
    ensures EndsTerminal(events) <==>
      Terminal(Last(events)) || (!MovesStatus(Last(events)) && EndsTerminal(Front(events)))
  {
    var front := Front(events);
    if EndsTerminal(events) && !Terminal(Last(events)) {
      var i :| 0 <= i < |events| && Terminal(events[i]) && forall j :: i < j < |events| ==> !MovesStatus(events[j]);
      assert Terminal(front[i]);
      forall j | i < j < |front| ensures !MovesStatus(front[j]) { assert !MovesStatus(events[j]); }
    }
    if EndsTerminal(front) && !MovesStatus(Last(events)) {
      var i :| 0 <= i < |front| && Terminal(front[i]) && forall j :: i < j < |front| ==> !MovesStatus(front[j]);
      assert Terminal(events[i]);
      forall j | i < j < |events| ensures !MovesStatus(events[j]) {
        if j < |front| { assert !MovesStatus(front[j]); }
      }
    }
    if Terminal(Last(events)) { assert Terminal(events[|events| - 1]); }
  }

  lemma AllInFront(id: string, events: seq<Event>)
    requires events != []
    ensures AllIn(id, events) <==> AllIn(id, Front(events)) && Last(events).session == Some(id)
  {
    if AllIn(id, Front(events)) && Last(events).session == Some(id) {
      forall i | 0 <= i < |events| ensures events[i].session == Some(id) {
        if i < |events| - 1 { assert Front(events)[i] == events[i]; }
      }
    }
  }

  /** What the replayer knows after any events of its session. */
  lemma {:induction false} ReplayKnows(id: string, events: seq<Event>)
    requires AllIn(id, events)
    ensures var r := ReplayAll(id, events);
      && r.previous == (if events == [] then None else Some(Last(events)))
      && r.state.selected == InForceAfter(events)
      && (r.state.status.Ended? <==> EndsTerminal(events))
  {
    if events != [] {
      ReplayKnows(id, Front(events));
      EndsTerminalStep(events);
    }
  }

  lemma ActiveStep(r: Replay, e: Event, t: string)
    ensures t in Step(r, e).context.active <==>
      var resolved := Resolve(e, r.state.selected) == t;
      (e.kind == Transaction(Started) && resolved)
      || (t in r.context.active && !(e.kind.Transaction? && !e.kind.status.Started? && resolved))
  {
    HostLeavesIndex(r.context, e);
  }

  lemma LastAt(events: seq<Event>, t: string)
    requires events != []
    ensures var resolved := Resolve(Last(events), InForceAfter(Front(events))) == t;
      && (StartsAt(events, |events| - 1, t) <==> Last(events).kind == Transaction(Started) && resolved)
      && (EndsAt(events, |events| - 1, t) <==> Last(events).kind.Transaction? && !Last(events).kind.status.Started? && resolved)
  {
    assert events[..|events| - 1] == Front(events);
  }

  lemma {:induction false} ActiveIsOpen(id: string, events: seq<Event>, t: string)
    requires AllIn(id, events)
    ensures t in ReplayAll(id, events).context.active <==> Open(events, t)
  {
    if events != [] {
      ActiveIsOpen(id, Front(events), t);
      ReplayKnows(id, Front(events));
      OpenStep(events, t);
      LastAt(events, t);
      ActiveStep(ReplayAll(id, Front(events)), Last(events), t);
    }
  }

  lemma {:induction false} PendingPositive(id: string, events: seq<Event>)
    ensures forall t :: t in ReplayAll(id, events).context.pending ==> ReplayAll(id, events).context.pending[t] > 0
  {
    if events != [] { PendingPositive(id, Front(events)); }
  }

  lemma ResultsFollowStep(events: seq<Event>)
    requires events != []
    ensures ResultsFollow(events) <==> ResultsFollow(Front(events)) && NoMoreResults(events)
  {
    var front := Front(events);
    assert events[..|events|] == events;
    assert forall n :: 0 <= n <= |front| ==> front[..n] == events[..n];
    if ResultsFollow(events) {
      assert NoMoreResults(events[..|events|]);
      forall n | 0 <= n <= |front| ensures NoMoreResults(front[..n]) {
        assert NoMoreResults(events[..n]);
      }
    }
    if ResultsFollow(front) && NoMoreResults(events) {
      forall n | 0 <= n <= |events| ensures NoMoreResults(events[..n]) {
        if n <= |front| { assert NoMoreResults(front[..n]); }
      }
    }
  }

  /** As long as no result came before its request, the pending map holds requests minus results. */
  lemma {:induction false} PendingIsDifference(id: string, events: seq<Event>, t: string)
    requires AllIn(id, events) && ResultsFollow(events)
    ensures CountIn(ReplayAll(id, events).context.pending, t) + Results(events, t) == Requests(events, t)
  {
    if events != [] {
      ResultsFollowStep(events);
      PendingIsDifference(id, Front(events), t);
      PendingPositive(id, Front(events));
    }
  }

  lemma OrphanMeans(id: string, events: seq<Event>)
    requires events != [] && AllIn(id, events) && ResultsFollow(Front(events))
    ensures Orphan(ReplayAll(id, Front(events)), Last(events)) <==> !ResultsFollow(events)
  {
    ResultsFollowStep(events);
    var r := ReplayAll(id, Front(events));
    if Orphan(r, Last(events)) {
      var t := Last(events).transaction.value;
      PendingIsDifference(id, Front(events), t);
      assert Results(events, t) == Results(Front(events), t) + 1;
    } else {
      forall t ensures Results(events, t) <= Requests(events, t) {
        PendingIsDifference(id, Front(events), t);
      }
    }
  }

  lemma NoOverlapStep(events: seq<Event>)
    requires events != []
    ensures NoOverlap(events) <==>
      && NoOverlap(Front(events))
      && forall t :: StartsAt(events, |events| - 1, t) ==> !Open(Front(events), t)
  {
    var front := Front(events);
    assert events[..|events| - 1] == front;
    if NoOverlap(events) {
      forall i: nat, t | StartsAt(front, i, t) ensures !Open(front[..i], t) {
        StartsAtFront(events, t);
        FrontPrefix(events, i);
      }
    }
    if NoOverlap(front) && forall t :: StartsAt(events, |events| - 1, t) ==> !Open(front, t) {
      forall i: nat, t | StartsAt(events, i, t) ensures !Open(events[..i], t) {
        StartsAtFront(events, t);
        if i < |front| { FrontPrefix(events, i); }
      }
    }
  }

  lemma OverlapMeans(id: string, events: seq<Event>)
    requires events != [] && AllIn(id, events) && NoOverlap(Front(events))
    ensures Overlaps(ReplayAll(id, Front(events)), Last(events)) <==> !NoOverlap(events)
  {
    NoOverlapStep(events);
    ReplayKnows(id, Front(events));
    var t := TransactionAt(events, |events| - 1);
    ActiveIsOpen(id, Front(events), t);
    assert StartsAt(events, |events| - 1, t) <==> Last(events).kind == Transaction(Started);
  }

  lemma GapMeans(id: string, events: seq<Event>)
    requires events != [] && AllIn(id, events) && Contiguous(Front(events))
    ensures Gap(ReplayAll(id, Front(events)), Last(events)) <==> !Contiguous(events)
  {
    ReplayKnows(id, Front(events));
    var front := Front(events);
    if !Gap(ReplayAll(id, front), Last(events)) {
      forall i | 0 < i < |events| ensures events[i].number == events[i - 1].number + 1 {
        if i < |front| { assert front[i].number == front[i - 1].number + 1; }
      }
    }
  }

  lemma SpecOfFront(id: string, events: seq<Event>)
    requires events != []
    ensures AllIn(id, events) ==> AllIn(id, Front(events))
    ensures Contiguous(events) ==> Contiguous(Front(events))
    ensures ResultsFollow(events) ==> ResultsFollow(Front(events))
    ensures NoOverlap(events) ==> NoOverlap(Front(events))
  {
    AllInFront(id, events);
    ResultsFollowStep(events);
    NoOverlapStep(events);
    if Contiguous(events) {
      forall i | 0 < i < |Front(events)| ensures Front(events)[i].number == Front(events)[i - 1].number + 1 {
        assert events[i].number == events[i - 1].number + 1;
      }
    }
  }

  lemma WhenError(raised: bool, severity: Severity, code: Code)
    ensures NoError(When(raised, severity, code)) <==> !raised || severity.Warning?
  {
    assert raised ==> When(raised, severity, code)[0].severity == severity;
  }

  lemma StepErrors(r: Replay, e: Event)
    ensures NoError(StepIssues(r, e)) <==> !Gap(r, e) && !Orphan(r, e) && !Overlaps(r, e)
  {
    var gap, late := When(Gap(r, e), Error, SequenceGap), When(r.previous.Some? && e.time < r.previous.value.time, Warning, TimestampReversed);
    var orphan, overlap := When(Orphan(r, e), Error, OrphanResult), When(Overlaps(r, e), Error, Overlapping);
    var ambiguous := When(Ambiguous(r, e), Warning, AmbiguousOutcome);
    NoErrorAppend(gap + late, LifecycleIssues(r, e));
    NoErrorAppend(gap, late);
    NoErrorAppend(orphan + overlap, ambiguous);
    NoErrorAppend(orphan, overlap);
    WhenError(Gap(r, e), Error, SequenceGap);
    WhenError(r.previous.Some? && e.time < r.previous.value.time, Warning, TimestampReversed);
    WhenError(Orphan(r, e), Error, OrphanResult);
    WhenError(Overlaps(r, e), Error, Overlapping);
    WhenError(Ambiguous(r, e), Warning, AmbiguousOutcome);
  }

  /** The loop raises no error iff ids match, numbers are contiguous, results follow requests and starts do not overlap. */
  lemma {:induction false} LoopDecides(id: string, events: seq<Event>)
    ensures NoError(LoopIssues(id, events)) <==>
      AllIn(id, events) && Contiguous(events) && ResultsFollow(events) && NoOverlap(events)
  {
    if events == [] {
    } else {
      var front, e := Front(events), Last(events);
      var more := if e.session != Some(id) then [Issue(Error, SessionMismatch)] else StepIssues(ReplayAll(id, front), e);
      LoopDecides(id, front);
      NoErrorAppend(LoopIssues(id, front), more);
      AllInFront(id, events);
      SpecOfFront(id, events);
      if e.session != Some(id) {
        assert more[0].severity.Error?;
      } else {
        StepErrors(ReplayAll(id, front), e);
        if AllIn(id, events) && Contiguous(front) && ResultsFollow(front) && NoOverlap(front) {
          GapMeans(id, events);
          OrphanMeans(id, events);
          OverlapMeans(id, events);
        }
      }
    }
  }

  lemma EndDecides(id: string, events: seq<Event>)
    requires AllIn(id, events) && ResultsFollow(events)
    ensures NoError(EndIssues(ReplayAll(id, events), Strict)) <==>
      EndsTerminal(events) && AllEnded(events) && AllAnswered(events)
  {
    var r := ReplayAll(id, events);
    ReplayKnows(id, events);
    var ended := When(!r.state.status.Ended?, Error, SessionIncomplete);
    var open := Copies(|r.context.active|, Issue(Error, OpenTransaction));
    var unanswered := Copies(|r.context.pending|, Issue(Error, UnresolvedRequest));
    NoErrorAppend(ended + open, unanswered);
    NoErrorAppend(ended, open);
    WhenError(!r.state.status.Ended?, Error, SessionIncomplete);
    assert NoError(open) <==> r.context.active == map[] by {
      if r.context.active != map[] { assert open[0].severity.Error?; }
    }
    assert NoError(unanswered) <==> r.context.pending == map[] by {
      if r.context.pending != map[] { assert unanswered[0].severity.Error?; }
    }
    forall t ensures t in r.context.active <==> Open(events, t) { ActiveIsOpen(id, events, t); }
    PendingPositive(id, events);
    forall t ensures t in r.context.pending <==> Results(events, t) != Requests(events, t) {
      PendingIsDifference(id, events, t);
    }
  }

  /** Strict replay raises no error exactly on the well-formed sessions. */
  lemma StrictDecides(id: string, events: seq<Event>, framesFit: bool)
    ensures NoError(SessionIssues(id, events, framesFit, true, Strict)) <==> framesFit && WellFormedSession(id, events)
  {
    var frames := When(!framesFit, Error, FrameLimit);
    var anchor := AnchorIssues(events, Strict);
    var loop := LoopIssues(id, events);
    NoErrorAppend(frames + anchor + loop, EndIssues(ReplayAll(id, events), Strict));
    NoErrorAppend(frames + anchor, loop);
    NoErrorAppend(frames, anchor);
    WhenError(!framesFit, Error, FrameLimit);
    if events == [] || !events[0].kind.FlowLoaded? {
      assert anchor[0].severity.Error?;
    } else {
      WhenError(events[0].number != 2, Error, SequenceStart);
    }
    LoopDecides(id, events);
    if AllIn(id, events) && ResultsFollow(events) {
      EndDecides(id, events);
    }
  }

  /** The replayer's selected transaction is the one in force. */
  lemma {:induction false} InForceMeans(events: seq<Event>)
    ensures InForce(events, InForceAfter(events))
  {
    if events != [] {
      InForceMeans(Front(events));
      InForceStep(events);
    }
  }

  lemma SelectsFront(events: seq<Event>)
    requires events != []
    ensures forall i :: 0 <= i < |events| - 1 ==> (SelectsAt(Front(events), i) <==> SelectsAt(events, i)) && (NamesAt(Front(events), i) <==> NamesAt(events, i))
    ensures forall i :: 0 <= i < |events| - 1 ==> Front(events)[i] == events[i]
  {}

  lemma InForceStep(events: seq<Event>)
    requires events != [] && InForce(Front(events), InForceAfter(Front(events)))
    ensures InForce(events, InForceAfter(events))
  {
    var front, last := Front(events), |events| - 1;
    SelectsFront(events);
    if SelectsAt(events, last) {
      assert forall j :: last < j < |events| ==> !SelectsAt(events, j);
    } else if exists i :: SelectsAt(front, i) {
      var i :| SelectsAt(front, i) && InForceAfter(front) == front[i].transaction && forall j :: i < j < |front| ==> !SelectsAt(front, j);
      assert SelectsAt(events, i);
      forall j | i < j < |events| ensures !SelectsAt(events, j) {
        if j < last { assert !SelectsAt(front, j); }
      }
    } else {
      assert forall i :: SelectsAt(events, i) ==> i == last || SelectsAt(front, i);
      if exists i :: NamesAt(front, i) {
        var i :| NamesAt(front, i) && InForceAfter(front) == front[i].transaction && forall j :: 0 <= j < i ==> !NamesAt(front, j);
        assert NamesAt(events, i);
        forall j | 0 <= j < i ensures !NamesAt(events, j) { assert !NamesAt(front, j); }
      } else {
        assert forall i :: NamesAt(events, i) ==> i == last || NamesAt(front, i);
        if NamesAt(events, last) {
          assert forall j :: 0 <= j < last ==> !NamesAt(events, j);
        }
      }
    }
  }

  // ----- conservation of authorizations -----

  ghost function Total(m: map<string, nat>): nat
    decreases |m|
  {
    if m == map[] then 0
    else
      var t :| t in m;
      m[t] + Total(m - {t})
  }

  lemma {:induction false} TotalWithout(m: map<string, nat>, t: string)
    requires t in m
    ensures Total(m) == m[t] + Total(m - {t})
    decreases |m|
  {
    var u: string :| u in m && Total(m) == m[u] + Total(m - {u});
    if u != t {
      TotalWithout(m - {u}, t);
      TotalWithout(m - {t}, u);
      assert m - {u} - {t} == m - {t} - {u};
    }
  }

  lemma TotalSet(m: map<string, nat>, t: string, n: nat)
    ensures Total(m[t := n]) == Total(m) - CountIn(m, t) + n
  {
    TotalWithout(m[t := n], t);
    if t in m {
      TotalWithout(m, t);
      assert m[t := n] - {t} == m - {t};
    } else {
      assert m[t := n] - {t} == m;
    }
  }

  /** What validation demands of host events: they name their transaction. */
  ghost predicate HostNamed(events: seq<Event>) {
    forall i :: 0 <= i < |events| && (events[i].kind.AuthorizationRequested? || events[i].kind.AuthorizationResult?) ==>
      events[i].transaction.Some?
  }

  lemma HostedTotal(r: Replay, e: Event)
    requires (e.kind.AuthorizationRequested? || e.kind.AuthorizationResult?) ==> e.transaction.Some?
    requires !Orphan(r, e)
    ensures Total(TrackHost(r.context, e).pending) == Total(r.context.pending)
      + (if e.kind.AuthorizationRequested? then 1 else 0) - (if e.kind.AuthorizationResult? then 1 else 0)
  {
    if e.transaction.Some? {
      var t := e.transaction.value;
      var pending := r.context.pending;
      TotalSet(pending, t, CountIn(pending, t) + 1);
      if CountIn(pending, t) > 0 {
        TotalSet(pending, t, pending[t] - 1);
        TotalWithout(pending, t);
      }
    }
  }

  lemma StepCounts(r: Replay, e: Event)
    ensures Step(r, e).context.pending == TrackHost(r.context, e).pending
    ensures Step(r, e).state.requests == r.state.requests + if e.kind.AuthorizationRequested? then 1 else 0
    ensures Step(r, e).state.results == r.state.results + if e.kind.AuthorizationResult? then 1 else 0
  {}

  lemma HostNamedFront(events: seq<Event>)
    requires events != [] && HostNamed(events)
    ensures HostNamed(Front(events))
  {
    forall i | 0 <= i < |events| - 1 ensures Front(events)[i] == events[i] {}
  }

  lemma {:induction false} RequestsAccounted(id: string, events: seq<Event>)
    requires AllIn(id, events) && HostNamed(events) && ResultsFollow(events)
    ensures var r := ReplayAll(id, events); r.state.requests == r.state.results + Total(r.context.pending)
  {
    if events != [] {
      SpecOfFront(id, events);
      HostNamedFront(events);
      RequestsAccounted(id, Front(events));
      OrphanMeans(id, events);
      HostedTotal(ReplayAll(id, Front(events)), Last(events));
      StepCounts(ReplayAll(id, Front(events)), Last(events));
    }
  }

  /** In every valid session each host request has its result: the two counters end equal. */
  lemma ValidSessionBalanced(id: string, events: seq<Event>)
    requires WellFormedSession(id, events) && HostNamed(events)
    ensures ReplayAll(id, events).state.requests == ReplayAll(id, events).state.results
  {
    var pending := ReplayAll(id, events).context.pending;
    RequestsAccounted(id, events);
    PendingPositive(id, events);
    forall t ensures t !in pending { PendingIsDifference(id, events, t); }
    assert pending == map[];
  }

  // ----- the occurrence index -----

  predicate Has(indexes: map<string, map<nat, nat>>, t: string, o: nat) {
    t in indexes && o in indexes[t]
  }

  function At(indexes: map<string, map<nat, nat>>, t: string, o: nat): nat
    requires Has(indexes, t, o)
  {
    indexes[t][o]
  }

  /** The occurrences of every transaction are exactly 1 to its count. */
  ghost predicate Numbered(counts: map<string, nat>, indexes: map<string, map<nat, nat>>) {
    forall t, o: nat :: Has(indexes, t, o) <==> 1 <= o <= CountIn(counts, t)
  }

  /** The index points at the entry it names, and every entry is pointed at. */
  ghost predicate Points(transactions: seq<Tracked>, indexes: map<string, map<nat, nat>>) {
    && (forall t, o :: Has(indexes, t, o) ==>
          && At(indexes, t, o) < |transactions|
          && transactions[At(indexes, t, o)].transaction == t && transactions[At(indexes, t, o)].occurrence == o)
    && forall i :: 0 <= i < |transactions| ==>
         && Has(indexes, transactions[i].transaction, transactions[i].occurrence)
         && At(indexes, transactions[i].transaction, transactions[i].occurrence) == i
  }

  /** Later occurrences of a transaction come later in the list. */
  ghost predicate InOrder(indexes: map<string, map<nat, nat>>) {
    forall t, o, p :: Has(indexes, t, o) && Has(indexes, t, p) && o < p ==> At(indexes, t, o) < At(indexes, t, p)
  }

  /** An active occurrence is a listed one, and listed as started. */
  ghost predicate ActiveListed(active: map<string, nat>, transactions: seq<Tracked>, indexes: map<string, map<nat, nat>>) {
    forall t :: t in active ==>
      && Has(indexes, t, active[t]) && At(indexes, t, active[t]) < |transactions|
      && transactions[At(indexes, t, active[t])].status.Started?
  }

  ghost predicate Indexed(r: Replay) {
    && Numbered(r.context.counts, r.context.indexes)
    && Points(r.state.transactions, r.context.indexes)
    && InOrder(r.context.indexes)
    && ActiveListed(r.context.active, r.state.transactions, r.context.indexes)
  }

  lemma RecordNew(c: Context, transactions: seq<Tracked>, x: Tracked)
    requires Numbered(c.counts, c.indexes) && Points(transactions, c.indexes) && InOrder(c.indexes)
    requires x.occurrence == CountIn(c.counts, x.transaction) + 1
    ensures var (list, indexes) := Record(transactions, c.indexes, x);
      && list == transactions + [x]
      && Numbered(c.counts[x.transaction := x.occurrence], indexes) && Points(list, indexes) && InOrder(indexes)
      && (forall t, o :: Has(c.indexes, t, o) ==> Has(indexes, t, o) && At(indexes, t, o) == At(c.indexes, t, o))
      && Has(indexes, x.transaction, x.occurrence) && At(indexes, x.transaction, x.occurrence) == |transactions|
  {
    assert !Has(c.indexes, x.transaction, x.occurrence);
    var (list, indexes) := Record(transactions, c.indexes, x);
    forall t, o ensures Has(indexes, t, o) <==> Has(c.indexes, t, o) || (t == x.transaction && o == x.occurrence) {}
    forall t, o | Has(c.indexes, t, o) ensures At(indexes, t, o) == At(c.indexes, t, o) {}
  }

  lemma RecordAgain(c: Context, transactions: seq<Tracked>, x: Tracked)
    requires Numbered(c.counts, c.indexes) && Points(transactions, c.indexes)
    requires 1 <= x.occurrence <= CountIn(c.counts, x.transaction)
    ensures Has(c.indexes, x.transaction, x.occurrence) && At(c.indexes, x.transaction, x.occurrence) < |transactions|
    ensures Record(transactions, c.indexes, x) == (transactions[At(c.indexes, x.transaction, x.occurrence) := x], c.indexes)
    ensures Points(Record(transactions, c.indexes, x).0, c.indexes)
  {
    assert Has(c.indexes, x.transaction, x.occurrence);
    var i := At(c.indexes, x.transaction, x.occurrence);
    assert transactions[i].(status := x.status) == x;
  }

  lemma StartIndexed(r: Replay, t: string)
    requires Indexed(r)
    ensures var (c, x) := Track(r.context, t, Started);
      var (list, indexes) := Record(r.state.transactions, c.indexes, x);
      Numbered(c.counts, indexes) && Points(list, indexes) && InOrder(indexes) && ActiveListed(c.active, list, indexes)
  {
    var (c, x) := Track(r.context, t, Started);
    RecordNew(r.context, r.state.transactions, x);
    var (list, indexes) := Record(r.state.transactions, c.indexes, x);
    forall u | u in c.active
      ensures Has(indexes, u, c.active[u]) && At(indexes, u, c.active[u]) < |list| && list[At(indexes, u, c.active[u])].status.Started?
    {
      if u != t { assert Has(r.context.indexes, u, r.context.active[u]); }
    }
  }

  lemma EndIndexed(r: Replay, t: string, status: TransactionStatus)
    requires Indexed(r) && !status.Started?
    ensures var (c, x) := Track(r.context, t, status);
      var (list, indexes) := Record(r.state.transactions, c.indexes, x);
      Numbered(c.counts, indexes) && Points(list, indexes) && InOrder(indexes) && ActiveListed(c.active, list, indexes)
  {
    var (c, x) := Track(r.context, t, status);
    var (list, indexes) := Record(r.state.transactions, c.indexes, x);
    if t in r.context.active {
      assert Has(r.context.indexes, t, x.occurrence);
      RecordAgain(r.context, r.state.transactions, x);
      forall u | u in c.active
        ensures Has(indexes, u, c.active[u]) && At(indexes, u, c.active[u]) < |list| && list[At(indexes, u, c.active[u])].status.Started?
      {
        assert r.state.transactions[At(indexes, u, c.active[u])].transaction == u;
      }
    } else {
      RecordNew(r.context, r.state.transactions, x);
      forall u | u in c.active
        ensures Has(indexes, u, c.active[u]) && At(indexes, u, c.active[u]) < |list| && list[At(indexes, u, c.active[u])].status.Started?
      {
        assert Has(r.context.indexes, u, r.context.active[u]);
      }
    }
  }

  /**
   * After any events whatever, overlapping starts and outcomes without a start included:
   * each transaction's occurrences are listed once each, numbered 1 to its count in list
   * order, and the index maps every one of them to its place.
   */
  lemma {:induction false} OccurrencesIndexed(id: string, events: seq<Event>)
    ensures Indexed(ReplayAll(id, events))
  {
    if events != [] {
      var r, e := ReplayAll(id, Front(events)), Last(events);
      OccurrencesIndexed(id, Front(events));
      if e.session == Some(id) && e.kind.Transaction? {
        HostLeavesIndex(r.context, e);
        var hosted := r.(context := TrackHost(r.context, e));
        assert Indexed(hosted);
        if e.kind.status.Started? {
          StartIndexed(hosted, Resolve(e, r.state.selected));
        } else {
          EndIndexed(hosted, Resolve(e, r.state.selected), e.kind.status);
        }
      } else {
        HostLeavesIndex(r.context, e);
      }
    }
  }

  lemma HostLeavesIndex(c: Context, e: Event)
    ensures TrackHost(c, e) == c.(pending := TrackHost(c, e).pending)
  {}

  // ----- the replayer -----

  function Decide(r: Replay, e: Event): (Context, Option<Tracked>) {
    var hosted := TrackHost(r.context, e);
    match e.kind
    case Transaction(status) =>
      var (context, tracked) := Track(hosted, Resolve(e, r.state.selected), status);
      (context, Some(tracked))
    case _ => (hosted, None)
  }

  class Replayer {
    var state: State
    var active: map<string, nat>
    var counts: map<string, nat>
    var pending: map<string, nat>
    var indexes: map<string, map<nat, nat>>
    var previous: Option<Event>

    ghost function Abs(): Replay
      reads this
    {
      Replay(state, Context(active, counts, pending, indexes), previous)
    }

    constructor ()
      ensures Abs() == INITIAL
    {
      state := INITIAL.state;
      active, counts, pending, indexes, previous := map[], map[], map[], map[], None;
    }

    method ValidateLifecycle(e: Event) returns (tracked: Option<Tracked>, issues: seq<Issue>)
      modifies this`active, this`counts, this`pending
      ensures (Abs().context, tracked) == Decide(old(Abs()), e)
      ensures issues == LifecycleIssues(old(Abs()), e)
    {
      issues := [];
      if e.kind.AuthorizationRequested? && e.transaction.Some? {
        var t := e.transaction.value;
        pending := pending[t := CountIn(pending, t) + 1];
      }
      if e.kind.AuthorizationResult? && e.transaction.Some? {
        var t := e.transaction.value;
        var waiting := CountIn(pending, t);
        if waiting == 0 {
          issues := issues + [Issue(Error, OrphanResult)];
        } else if waiting == 1 {
          pending := pending - {t};
        } else {
          pending := pending[t := waiting - 1];
        }
      }
      if !e.kind.Transaction? { return None, issues; }
      var status := e.kind.status;
      var transaction := Resolve(e, state.selected);
      if status.Started? {
        if transaction in active { issues := issues + [Issue(Error, Overlapping)]; }
        var occurrence := CountIn(counts, transaction) + 1;
        counts := counts[transaction := occurrence];
        active := active[transaction := occurrence];
        return Some(Tracked(transaction, occurrence, status)), issues;
      }
      if transaction in active {
        var occurrence := active[transaction];
        active := active - {transaction};
        return Some(Tracked(transaction, occurrence, status)), issues;
      }
      var prior := CountIn(counts, transaction);
      counts := counts[transaction := prior + 1];
      if prior > 0 { issues := issues + [Issue(Warning, AmbiguousOutcome)]; }
      return Some(Tracked(transaction, prior + 1, status)), issues;
    }

    method ApplyEvent(e: Event, tracked: Option<Tracked>)
      requires e.kind.Transaction? <==> tracked.Some?
      requires tracked.Some? ==> tracked.value.status == e.kind.status
      modifies this`state, this`indexes
      ensures tracked.Some? ==>
        (state.transactions, indexes) == Record(old(state.transactions), old(indexes), tracked.value)
      ensures tracked.None? ==> state.transactions == old(state.transactions) && indexes == old(indexes)
      ensures state == Apply(old(state), e, state.transactions)
    {
      var status, selected, transactions := state.status, state.selected, state.transactions;
      if e.kind.SessionStarted? || e.kind.FlowLoaded? { status := Active; }
      if e.kind.TransactionSelected? && e.transaction.Some? {
        selected := e.transaction;
        status := Active;
      }
      if selected.None? && e.transaction.Some?
        && e.transaction.value != "CustomerIdentification" && e.transaction.value != "TerminalStatus"
      {
        selected := e.transaction;
      }
      if tracked.Some? {
        transactions := RecordTracked(tracked.value);
        status := if tracked.value.status.Started? then Active else Ended(tracked.value.status);
      }
      if e.kind.FlowFailed? { status := Ended(Failed); }
      state := State(
        e.number, status, selected, transactions,
        if e.kind.AuthorizationRequested? then state.requests + 1 else state.requests,
        if e.kind.AuthorizationResult? then state.results + 1 else state.results,
        state.requiresReconciliation || e.kind == Transaction(ReconciliationRequired));
    }

    method RecordTracked(x: Tracked) returns (transactions: seq<Tracked>)
      modifies this`indexes
      ensures (transactions, indexes) == Record(state.transactions, old(indexes), x)
    {
      transactions := state.transactions;
      var own: map<nat, nat> := if x.transaction in indexes then indexes[x.transaction] else map[];
      if x.occurrence in own {
        var i := own[x.occurrence];
        if i < |transactions| { transactions := transactions[i := transactions[i].(status := x.status)]; }
      } else {
        transactions := transactions + [x];
        indexes := indexes[x.transaction := own[x.occurrence := |transactions| - 1]];
      }
    }

    method ReplayEvent(e: Event) returns (issues: seq<Issue>)
      modifies this
      ensures Abs() == Step(old(Abs()), e) && issues == StepIssues(old(Abs()), e)
    {
      issues := [];
      if previous.Some? {
        if e.number != previous.value.number + 1 { issues := issues + [Issue(Error, SequenceGap)]; }
        if e.time < previous.value.time { issues := issues + [Issue(Warning, TimestampReversed)]; }
      }
      var tracked, lifecycle := ValidateLifecycle(e);
      issues := issues + lifecycle;
      ApplyEvent(e, tracked);
      previous := Some(e);
    }

    method ReplayLoop(id: string, events: seq<Event>) returns (issues: seq<Issue>)
      requires Abs() == INITIAL
      modifies this
      ensures Abs() == ReplayAll(id, events) && issues == LoopIssues(id, events)
    {
      issues := [];
      for i := 0 to |events|
        invariant Abs() == ReplayAll(id, events[..i]) && issues == LoopIssues(id, events[..i])
      {
        LoopStep(id, events, i);
        if events[i].session != Some(id) {
          issues := issues + [Issue(Error, SessionMismatch)];
        } else {
          var more := ReplayEvent(events[i]);
          issues := issues + more;
        }
      }
      assert events[..|events|] == events;
    }

    /** A fresh replayer over all records, anchor and end checks included. */
    method ReplayRecords(id: string, events: seq<Event>, framesFit: bool, anchored: bool, mode: Mode) returns (issues: seq<Issue>)
      requires Abs() == INITIAL
      modifies this
      ensures Abs() == ReplayAll(id, events)
      ensures issues == SessionIssues(id, events, framesFit, anchored, mode)
    {
      issues := When(!framesFit, Error, FrameLimit);
      if anchored {
        if events == [] || !events[0].kind.FlowLoaded? {
          issues := issues + [Issue(Completeness(mode), AnchorMissing)];
        } else if events[0].number != 2 {
          issues := issues + [Issue(Completeness(mode), SequenceStart)];
        }
      }
      var loop := ReplayLoop(id, events);
      issues := issues + loop;
      var ending := FinalIssues(mode);
      issues := issues + ending;
    }

    method FinalIssues(mode: Mode) returns (issues: seq<Issue>)
      ensures issues == EndIssues(Abs(), mode)
    {
      issues := When(!state.status.Ended?, Completeness(mode), SessionIncomplete);
      var open := IssuePerKey(active.Keys, Issue(Completeness(mode), OpenTransaction));
      var waiting := IssuePerKey(pending.Keys, Issue(Completeness(mode), UnresolvedRequest));
      issues := issues + open + waiting;
    }

    static method IssuePerKey(keys: set<string>, issue: Issue) returns (issues: seq<Issue>)
      ensures issues == Copies(|keys|, issue)
    {
      issues := [];
      var rest := keys;
      while rest != {}
        invariant |issues| + |rest| == |keys| && forall i :: 0 <= i < |issues| ==> issues[i] == issue
      {
        var t: string :| t in rest;
        rest := rest - {t};
        issues := issues + [issue];
      }
    }
  }

  lemma LoopStep(id: string, events: seq<Event>, i: nat)
    requires i < |events|
    ensures var r := ReplayAll(id, events[..i]);
      && ReplayAll(id, events[..i + 1]) == (if events[i].session != Some(id) then r else Step(r, events[i]))
      && LoopIssues(id, events[..i + 1]) == LoopIssues(id, events[..i])
           + if events[i].session != Some(id) then [Issue(Error, SessionMismatch)] else StepIssues(r, events[i])
  {
    assert events[..i + 1][..i] == events[..i];
  }
}
