/**
 * The XFS4IoT client: commands, the pending map, one connection, and the callbacks
 * that send, settle and route. A command is known by its place in `commands`; the
 * request id is what the pending map and the wire use.
 */
module Xfs4Iot {
  import opened Prelude

  datatype Classification = SafeToRetry | Known | Indeterminate

  datatype ErrorCode =
    | Aborted | AcknowledgeRejected | ClientClosed | ConnectionFailed | ConnectionLost
    | DeadlineExceeded | ProtocolError | SendFailed

  datatype Outcome =
    | Completed
    | Failed(code: ErrorCode, classification: Classification, requestSent: bool)

  /**
   * `waiting`: its send still awaits the connection. `sends` counts how often its
   * text was handed to a socket.
   */
  datatype Command = Command(
    id: nat,
    name: string,
    version: string,
    stateChanging: bool,
    cancelOnAbort: bool,
    waiting: bool,
    sent: bool,
    sends: nat,
    outcome: Option<Outcome>)

  datatype Correlation = OfPending | Orphan | Unsolicited

  datatype RoutedEvent = RoutedEvent(text: string, correlation: Correlation)

  datatype Limits = Limits(maxPending: nat, maxBacklog: nat)

  /**
   * `routed` is every event since the backlog was last emptied; `expired` and `signalled`
   * are the commands whose own timer has fired and whose own signal has aborted.
   */
  datatype Client = Client(
    commands: seq<Command>,
    pending: map<nat, nat>,
    connected: bool,
    disposed: bool,
    backlog: seq<RoutedEvent>,
    routed: seq<RoutedEvent>,
    expired: set<nat>,
    signalled: set<nat>)

  const START := Client([], map[], false, false, [], [], {}, {})

  datatype Request = Request(
    id: nat, name: string, version: string, stateChanging: bool, cancelOnAbort: bool, tooLarge: bool, aborted: bool)

  /**
   * `closed`: the connection attempt ended because the client was closed. `aborted` and
   * `late`: what signal and clock say when a send goes on; a command whose own signal or
   * timer has fired finds them so in any case.
   */
  datatype Action =
    | Execute(request: Request)
    | SocketOpens
    | SocketLost
    | ConnectFails(k: nat, closed: bool)
    | Proceed(k: nat, aborted: bool, late: bool, sendFails: bool, cancelId: nat)
    | Timeout(k: nat, cancelId: nat)
    | Abort(k: nat, cancelId: nat)
    | BadMessage
    | Acknowledge(of: Option<nat>, name: string, rejected: bool)
    | Completion(id: nat, name: string, version: string)
    | DeviceEvent(of: Option<nat>, unsolicited: bool, text: string)
    | Drain
    | Close

  // ----- settling -----

  function ClassifyTransportFailure(sent: bool, stateChanging: bool): Classification {
    if sent && stateChanging then Indeterminate else SafeToRetry
  }

  function Failure(cmd: Command, code: ErrorCode): Outcome {
    Failed(code, ClassifyTransportFailure(cmd.sent, cmd.stateChanging), cmd.sent)
  }

  /** The command is the one its id stands for. */
  predicate IsPending(c: Client, k: nat) {
    k < |c.commands| && Names(c.pending, c.commands[k], k)
  }

  predicate Names(pending: map<nat, nat>, cmd: Command, k: nat) {
    cmd.id in pending && pending[cmd.id] == k
  }

  function Settle(c: Client, k: nat, outcome: Outcome): Client {
    if !IsPending(c, k) || c.commands[k].outcome.Some? then c
    else
      c.(commands := c.commands[k := c.commands[k].(outcome := Some(outcome))],
         pending := c.pending - {c.commands[k].id})
  }

  function Fail(c: Client, k: nat, code: ErrorCode): Client {
    if k < |c.commands| then Settle(c, k, Failure(c.commands[k], code)) else c
  }

  /** Every pending command fails for the same reason. */
  function FailAll(c: Client, code: ErrorCode): Client {
    c.(commands := FailedCommands(c.commands, c.pending, code), pending := map[])
  }

  function FailedCommands(commands: seq<Command>, pending: map<nat, nat>, code: ErrorCode): seq<Command> {
    seq(|commands|, k requires 0 <= k < |commands| =>
      if Names(pending, commands[k], k) && commands[k].outcome.None? then
        commands[k].(outcome := Some(Failure(commands[k], code)))
      else commands[k])
  }

  // ----- executing -----

  predicate Refuses(l: Limits, c: Client, r: Request) {
    c.disposed || |c.pending| >= l.maxPending || r.tooLarge || r.id < 1 || r.id in c.pending
  }

  /** A new command, pending under its id; one already aborted never waits to be sent. */
  function Accepted(c: Client, r: Request): Client {
    var cmd := Command(r.id, r.name, r.version, r.stateChanging, r.cancelOnAbort, !r.aborted, false, 0, None);
    c.(commands := c.commands + [cmd], pending := c.pending[r.id := |c.commands|])
  }

  function ExecuteRequest(l: Limits, c: Client, r: Request): Client {
    if Refuses(l, c, r) then c
    else
      var accepted := Accepted(c, r);
      if r.aborted then Fail(accepted, |c.commands|, Aborted) else accepted
  }

  function CancelRequest(id: nat): Request {
    Request(id, "Common.Cancel", "", false, false, false, false)
  }

  /** A timer or a signal ends the command its id stands for; a sent one is cancelled best effort. */
  function EndById(l: Limits, c: Client, id: nat, code: ErrorCode, cancelId: nat): Client {
    if id !in c.pending || c.pending[id] >= |c.commands| then c
    else
      var k := c.pending[id];
      var ended := Fail(c, k, code);
      if c.commands[k].sent && c.commands[k].cancelOnAbort then ExecuteRequest(l, ended, CancelRequest(cancelId)) else ended
  }

  function StopWaiting(c: Client, k: nat): Client
    requires k < |c.commands|
  {
    c.(commands := c.commands[k := c.commands[k].(waiting := false)])
  }

  /** What follows once the connection is there. */
  function SendNow(l: Limits, c: Client, k: nat, aborted: bool, late: bool, sendFails: bool, cancelId: nat): Client
    requires k < |c.commands|
  {
    var id := c.commands[k].id;
    if id !in c.pending then c
    else if aborted then EndById(l, c, id, Aborted, cancelId)
    else if late then EndById(l, c, id, DeadlineExceeded, cancelId)
    else if !c.connected then Fail(c, k, ConnectionFailed)
    else if sendFails then Fail(c, k, SendFailed)
    else c.(commands := c.commands[k := c.commands[k].(sent := true, sends := c.commands[k].sends + 1)])
  }

  // ----- messages -----

  function OnAcknowledge(c: Client, id: Option<nat>, name: string, rejected: bool): Client {
    if id.None? || id.value !in c.pending || c.pending[id.value] >= |c.commands| then c
    else
      var k := c.pending[id.value];
      if name != c.commands[k].name then Fail(c, k, ProtocolError)
      else if rejected then Settle(c, k, Failed(AcknowledgeRejected, Known, true))
      else c
  }

  function OnCompletion(c: Client, id: nat, name: string, version: string): Client {
    if id !in c.pending || c.pending[id] >= |c.commands| then c
    else
      var k := c.pending[id];
      if name != c.commands[k].name || version != c.commands[k].version then Fail(c, k, ProtocolError)
      else Settle(c, k, Completed)
  }

  function Route(c: Client, id: Option<nat>, unsolicited: bool, text: string): RoutedEvent {
    RoutedEvent(text,
      if unsolicited then Unsolicited
      else if id.Some? && id.value in c.pending then OfPending
      else Orphan)
  }

  function Push(l: Limits, backlog: seq<RoutedEvent>, e: RoutedEvent): seq<RoutedEvent> {
    (if |backlog| >= l.maxBacklog && backlog != [] then backlog[1..] else backlog) + [e]
  }

  // ----- one callback -----

  function Step(l: Limits, c: Client, a: Action): Client {
    match a
    case Execute(r) => ExecuteRequest(l, c, r)
    case SocketOpens => if c.disposed then c else c.(connected := true)
    case SocketLost => if c.connected then FailAll(c.(connected := false), ConnectionLost) else c
    case ConnectFails(k, closed) =>
      if k < |c.commands| && c.commands[k].waiting then
        Settle(StopWaiting(c, k), k, Failed(if closed then ClientClosed else ConnectionFailed, SafeToRetry, false))
      else c
    case Proceed(k, aborted, late, sendFails, cancelId) =>
      if k < |c.commands| && c.commands[k].waiting then
        SendNow(l, StopWaiting(c, k), k, aborted || k in c.signalled, late || k in c.expired, sendFails, cancelId)
      else c
    case Timeout(k, cancelId) =>
      if k < |c.commands| && c.commands[k].outcome.None? then
        EndById(l, c.(expired := c.expired + {k}), c.commands[k].id, DeadlineExceeded, cancelId)
      else c
    case Abort(k, cancelId) =>
      if k < |c.commands| && c.commands[k].outcome.None? then
        EndById(l, c.(signalled := c.signalled + {k}), c.commands[k].id, Aborted, cancelId)
      else c
    case BadMessage => if c.connected then FailAll(c.(connected := false), ProtocolError) else c
    case Acknowledge(id, name, rejected) => if c.connected then OnAcknowledge(c, id, name, rejected) else c
    case Completion(id, name, version) => if c.connected then OnCompletion(c, id, name, version) else c
    case DeviceEvent(id, unsolicited, text) =>
      if c.connected then
        var e := Route(c, id, unsolicited, text);
        c.(backlog := Push(l, c.backlog, e), routed := c.routed + [e])
      else c
    case Drain => c.(backlog := [], routed := [])
    case Close =>
      if c.disposed then c
      else FailAll(c.(disposed := true, connected := false), ClientClosed).(backlog := [], routed := [])
  }

  // ----- what every run keeps -----

  /** The outcome says what was true of the send, but for a rejected acknowledgement. */
  predicate Honest(cmd: Command) {
    cmd.outcome.Some? && cmd.outcome.value.Failed? ==>
      var f := cmd.outcome.value;
      && f.classification ==
           (if f.code.AcknowledgeRejected? then Known
            else if cmd.sent && cmd.stateChanging then Indeterminate
            else SafeToRetry)
      && f.requestSent == (cmd.sent || f.code.AcknowledgeRejected?)
  }

  predicate SentOnce(cmd: Command) {
    cmd.sends == (if cmd.sent then 1 else 0) && (cmd.waiting ==> !cmd.sent)
  }

  ghost predicate CommandsSound(c: Client) {
    forall k :: 0 <= k < |c.commands| ==> Honest(c.commands[k]) && SentOnce(c.commands[k])
  }

  /** The pending map holds exactly the commands without an outcome, under their own ids. */
  ghost predicate PendingExact(c: Client) {
    && (forall k: nat :: k < |c.commands| ==> (c.commands[k].outcome.None? <==> IsPending(c, k)))
    && forall id :: id in c.pending ==> c.pending[id] < |c.commands| && c.commands[c.pending[id]].id == id
  }

  /**
   * Settled while its send still waits for the connection, and neither by its own timer
   * nor by its own signal: when that send goes on, only the id tells that it is settled.
   */
  predicate Loose(c: Client, k: nat) {
    && k < |c.commands| && c.commands[k].waiting && c.commands[k].outcome.Some?
    && k !in c.expired && k !in c.signalled
  }

  ghost predicate LooseDetached(c: Client) {
    forall k: nat :: Loose(c, k) ==> c.commands[k].id !in c.pending
  }

  /** The last `n` of a list, or all of it. */
  function LastOf<T>(items: seq<T>, n: nat): seq<T> {
    if |items| <= n then items else items[|items| - n..]
  }

  ghost predicate Inv(l: Limits, c: Client) {
    && CommandsSound(c) && PendingExact(c) && LooseDetached(c)
    && |c.pending| <= l.maxPending
    && c.backlog == LastOf(c.routed, l.maxBacklog)
  }

  ghost predicate Free(c: Client, id: nat) {
    forall k: nat :: Loose(c, k) ==> c.commands[k].id != id
  }

  /** An action draws no id of a command that is loose; a request aborted at once draws none that lasts. */
  ghost predicate DrawsFree(c: Client, a: Action) {
    match a
    case Execute(r) => r.aborted || Free(c, r.id)
    case Proceed(_, _, _, _, cancelId) => Free(c, cancelId)
    case Timeout(_, cancelId) => Free(c, cancelId)
    case Abort(_, cancelId) => Free(c, cancelId)
    case _ => true
  }

  lemma SettleKeeps(l: Limits, c: Client, k: nat, outcome: Outcome)
    requires Inv(l, c) && k < |c.commands| && Honest(c.commands[k].(outcome := Some(outcome)))
    ensures Inv(l, Settle(c, k, outcome))
  {
    var c' := Settle(c, k, outcome);
    if c' != c {
      assert c'.pending.Keys == c.pending.Keys - {c.commands[k].id};
      assert |c'.pending| == |c'.pending.Keys| && |c.pending| == |c.pending.Keys|;
      forall j: nat | j < |c'.commands| ensures c'.commands[j].outcome.None? <==> IsPending(c', j) {
        assert c.commands[j].outcome.None? <==> IsPending(c, j);
      }
    }
  }

  lemma FailKeeps(l: Limits, c: Client, k: nat, code: ErrorCode)
    requires Inv(l, c) && !code.AcknowledgeRejected?
    ensures Inv(l, Fail(c, k, code))
  {
    if k < |c.commands| { SettleKeeps(l, c, k, Failure(c.commands[k], code)); }
  }

  lemma FailAllKeeps(l: Limits, c: Client, code: ErrorCode)
    requires Inv(l, c) && !code.AcknowledgeRejected?
    ensures Inv(l, FailAll(c, code))
  {
    var c' := FailAll(c, code);
    forall k | 0 <= k < |c'.commands| ensures c'.commands[k].outcome.Some? && Honest(c'.commands[k]) && SentOnce(c'.commands[k]) {
      assert c.commands[k].outcome.None? <==> IsPending(c, k);
    }
  }

  lemma AcceptPending(c: Client, r: Request)
    requires PendingExact(c) && r.id !in c.pending
    ensures PendingExact(Accepted(c, r)) && |Accepted(c, r).pending| == |c.pending| + 1
  {
    var c' := Accepted(c, r);
    assert c'.pending.Keys == c.pending.Keys + {r.id};
    assert |c'.pending| == |c'.pending.Keys| && |c.pending| == |c.pending.Keys|;
    forall j: nat | j < |c'.commands| ensures c'.commands[j].outcome.None? <==> IsPending(c', j) {
      if j < |c.commands| { assert c.commands[j].outcome.None? <==> IsPending(c, j); }
    }
  }

  lemma AcceptKeeps(l: Limits, c: Client, r: Request)
    requires Inv(l, c) && Free(c, r.id) && !Refuses(l, c, r)
    ensures Inv(l, Accepted(c, r))
  {
    AcceptPending(c, r);
    var c' := Accepted(c, r);
    forall k: nat | Loose(c', k) ensures c'.commands[k].id !in c'.pending {
      assert Loose(c, k);
    }
  }

  lemma AbortedKeeps(l: Limits, c: Client, r: Request)
    requires Inv(l, c) && !Refuses(l, c, r) && r.aborted
    ensures Inv(l, ExecuteRequest(l, c, r))
  {
    var c' := ExecuteRequest(l, c, r);
    assert c'.pending == c.pending;
    forall k: nat | k < |c'.commands| ensures c'.commands[k].outcome.None? <==> IsPending(c', k) {
      if k < |c.commands| { assert c.commands[k].outcome.None? <==> IsPending(c, k); }
    }
    forall k: nat | Loose(c', k) ensures c'.commands[k].id !in c'.pending {
      assert Loose(c, k);
    }
  }

  lemma ExecuteKeeps(l: Limits, c: Client, r: Request)
    requires Inv(l, c) && (r.aborted || Free(c, r.id))
    ensures Inv(l, ExecuteRequest(l, c, r))
  {
    if !Refuses(l, c, r) {
      if r.aborted { AbortedKeeps(l, c, r); } else { AcceptKeeps(l, c, r); }
    }
  }

  /** Settling a sent command makes none loose. */
  lemma SettleKeepsFree(c: Client, k: nat, outcome: Outcome, id: nat)
    requires Free(c, id) && k < |c.commands| && !c.commands[k].waiting
    ensures Free(Settle(c, k, outcome), id)
  {
    var c' := Settle(c, k, outcome);
    forall j: nat | Loose(c', j) ensures c'.commands[j].id != id {
      assert Loose(c, j);
    }
  }

  lemma EndKeeps(l: Limits, c: Client, id: nat, code: ErrorCode, cancelId: nat)
    requires Inv(l, c) && Free(c, cancelId) && !code.AcknowledgeRejected?
    ensures Inv(l, EndById(l, c, id, code, cancelId))
  {
    if id in c.pending {
      var k := c.pending[id];
      FailKeeps(l, c, k, code);
      if c.commands[k].sent {
        SettleKeepsFree(c, k, Failure(c.commands[k], code), cancelId);
        ExecuteKeeps(l, Fail(c, k, code), CancelRequest(cancelId));
      }
    }
  }

  /** A timer or signal that has fired makes fewer commands loose. */
  lemma FiredKeeps(l: Limits, c: Client, c': Client, id: nat)
    requires Inv(l, c) && Free(c, id) && c.expired <= c'.expired && c.signalled <= c'.signalled
    requires c' == c.(expired := c'.expired, signalled := c'.signalled)
    ensures Inv(l, c') && Free(c', id)
  {
    forall k: nat | Loose(c', k) ensures c'.commands[k].id !in c'.pending && c'.commands[k].id != id {
      assert Loose(c, k);
    }
    forall k: nat | k < |c'.commands| ensures c'.commands[k].outcome.None? <==> IsPending(c', k) {
      assert c.commands[k].outcome.None? <==> IsPending(c, k);
    }
  }

  /** Changing how a command stands with its send keeps everything else. */
  lemma MarkKeeps(l: Limits, c: Client, k: nat, cmd: Command)
    requires Inv(l, c) && k < |c.commands| && cmd.id == c.commands[k].id && cmd.outcome == c.commands[k].outcome
    requires Honest(cmd) && SentOnce(cmd) && (cmd.waiting ==> c.commands[k].waiting)
    ensures Inv(l, c.(commands := c.commands[k := cmd]))
  {
    var c' := c.(commands := c.commands[k := cmd]);
    forall j: nat | Loose(c', j) ensures c'.commands[j].id !in c'.pending { assert Loose(c, j); }
    forall j: nat | j < |c'.commands| ensures c'.commands[j].outcome.None? <==> IsPending(c', j) {
      assert c.commands[j].outcome.None? <==> IsPending(c, j);
    }
  }

  lemma StopKeeps(l: Limits, c: Client, k: nat)
    requires Inv(l, c) && k < |c.commands|
    ensures Inv(l, StopWaiting(c, k))
  {
    MarkKeeps(l, c, k, c.commands[k].(waiting := false));
  }

  /**
   * With no id of a loose command drawn, a send that goes on in time and unsignalled and
   * finds its id in the map finds its own command there.
   */
  lemma IdStandsForOne(l: Limits, c: Client, k: nat)
    requires Inv(l, c) && k < |c.commands| && c.commands[k].waiting && c.commands[k].id in c.pending
    requires k !in c.expired && k !in c.signalled
    ensures IsPending(c, k) && c.commands[k].outcome.None?
  {
    assert !Loose(c, k);
    assert c.commands[k].outcome.None? <==> IsPending(c, k);
  }

  lemma SendKeeps(l: Limits, c: Client, k: nat, aborted: bool, late: bool, sendFails: bool, cancelId: nat)
    requires Inv(l, c) && k < |c.commands| && !c.commands[k].sent && !c.commands[k].waiting && Free(c, cancelId)
    requires c.commands[k].id in c.pending && !aborted && !late ==> c.commands[k].outcome.None?
    ensures Inv(l, SendNow(l, c, k, aborted, late, sendFails, cancelId))
  {
    var id := c.commands[k].id;
    if id in c.pending {
      if aborted {
        EndKeeps(l, c, id, Aborted, cancelId);
      } else if late {
        EndKeeps(l, c, id, DeadlineExceeded, cancelId);
      } else if !c.connected {
        FailKeeps(l, c, k, ConnectionFailed);
      } else if sendFails {
        FailKeeps(l, c, k, SendFailed);
      } else {
        MarkKeeps(l, c, k, c.commands[k].(sent := true, sends := c.commands[k].sends + 1));
      }
    }
  }

  lemma BacklogStep<T>(items: seq<T>, e: T, n: nat)
    requires n > 0
    ensures var last := LastOf(items, n);
      LastOf(items + [e], n) == (if |last| >= n && last != [] then last[1..] else last) + [e]
  {}

  /** An id in the map names a command that is still without an outcome. */
  lemma PendingNames(l: Limits, c: Client, id: nat)
    requires Inv(l, c) && id in c.pending
    ensures c.pending[id] < |c.commands| && IsPending(c, c.pending[id]) && c.commands[c.pending[id]].outcome.None?
  {
    assert IsPending(c, c.pending[id]);
  }

  lemma AcknowledgeKeeps(l: Limits, c: Client, id: Option<nat>, name: string, rejected: bool)
    requires Inv(l, c)
    ensures Inv(l, OnAcknowledge(c, id, name, rejected))
  {
    if id.Some? && id.value in c.pending {
      var k := c.pending[id.value];
      PendingNames(l, c, id.value);
      if name != c.commands[k].name {
        FailKeeps(l, c, k, ProtocolError);
      } else if rejected {
        SettleKeeps(l, c, k, Failed(AcknowledgeRejected, Known, true));
      }
    }
  }

  lemma CompletionKeeps(l: Limits, c: Client, id: nat, name: string, version: string)
    requires Inv(l, c)
    ensures Inv(l, OnCompletion(c, id, name, version))
  {
    if id in c.pending {
      var k := c.pending[id];
      PendingNames(l, c, id);
      if name != c.commands[k].name || version != c.commands[k].version {
        FailKeeps(l, c, k, ProtocolError);
      } else {
        SettleKeeps(l, c, k, Completed);
      }
    }
  }

  lemma DropKeeps(l: Limits, c: Client, a: Action)
    requires Inv(l, c) && (a.SocketLost? || a.BadMessage? || a.Close? || a.Drain? || a.SocketOpens?)
    ensures Inv(l, Step(l, c, a))
  {
    match a
    case SocketLost => FailAllKeeps(l, c.(connected := false), ConnectionLost);
    case BadMessage => FailAllKeeps(l, c.(connected := false), ProtocolError);
    case Close =>
      var closed := c.(disposed := true, connected := false, backlog := [], routed := []);
      FailAllKeeps(l, closed, ClientClosed);
    case Drain =>
    case SocketOpens =>
  }

  lemma ConnectFailsKeeps(l: Limits, c: Client, k: nat, closed: bool)
    requires Inv(l, c)
    ensures Inv(l, Step(l, c, ConnectFails(k, closed)))
  {
    if k < |c.commands| && c.commands[k].waiting {
      StopKeeps(l, c, k);
      SettleKeeps(l, StopWaiting(c, k), k, Failed(if closed then ClientClosed else ConnectionFailed, SafeToRetry, false));
    }
  }

  lemma ProceedKeeps(l: Limits, c: Client, k: nat, aborted: bool, late: bool, sendFails: bool, cancelId: nat)
    requires Inv(l, c) && Free(c, cancelId)
    ensures Inv(l, Step(l, c, Proceed(k, aborted, late, sendFails, cancelId)))
  {
    if k < |c.commands| && c.commands[k].waiting {
      StopKeeps(l, c, k);
      var stopped := StopWaiting(c, k);
      forall j: nat | Loose(stopped, j) ensures stopped.commands[j].id != cancelId { assert Loose(c, j); }
      if c.commands[k].id in c.pending && k !in c.expired && k !in c.signalled { IdStandsForOne(l, c, k); }
      SendKeeps(l, stopped, k, aborted || k in c.signalled, late || k in c.expired, sendFails, cancelId);
    }
  }

  lemma RouteKeeps(l: Limits, c: Client, a: Action)
    requires Inv(l, c) && l.maxBacklog > 0 && a.DeviceEvent?
    ensures Inv(l, Step(l, c, a))
  {
    BacklogStep(c.routed, Route(c, a.of, a.unsolicited, a.text), l.maxBacklog);
  }

  lemma TimeoutKeeps(l: Limits, c: Client, k: nat, cancelId: nat)
    requires Inv(l, c) && Free(c, cancelId) && k < |c.commands| && c.commands[k].outcome.None?
    ensures Inv(l, Step(l, c, Timeout(k, cancelId)))
  {
    var c' := c.(expired := c.expired + {k});
    FiredKeeps(l, c, c', cancelId);
    EndKeeps(l, c', c.commands[k].id, DeadlineExceeded, cancelId);
  }

  lemma AbortKeeps(l: Limits, c: Client, k: nat, cancelId: nat)
    requires Inv(l, c) && Free(c, cancelId) && k < |c.commands| && c.commands[k].outcome.None?
    ensures Inv(l, Step(l, c, Abort(k, cancelId)))
  {
    var c' := c.(signalled := c.signalled + {k});
    FiredKeeps(l, c, c', cancelId);
    EndKeeps(l, c', c.commands[k].id, Aborted, cancelId);
  }

  lemma StepKeeps(l: Limits, c: Client, a: Action)
    requires Inv(l, c) && DrawsFree(c, a) && l.maxBacklog > 0
    ensures Inv(l, Step(l, c, a))
  {
    match a
    case Execute(r) => ExecuteKeeps(l, c, r);
    case ConnectFails(k, closed) => ConnectFailsKeeps(l, c, k, closed);
    case Proceed(k, aborted, late, sendFails, cancelId) => ProceedKeeps(l, c, k, aborted, late, sendFails, cancelId);
    case Timeout(k, cancelId) =>
      if k < |c.commands| && c.commands[k].outcome.None? { TimeoutKeeps(l, c, k, cancelId); }
    case Abort(k, cancelId) =>
      if k < |c.commands| && c.commands[k].outcome.None? { AbortKeeps(l, c, k, cancelId); }
    case DeviceEvent(_, _, _) => RouteKeeps(l, c, a);
    case Acknowledge(id, name, rejected) => AcknowledgeKeeps(l, c, id, name, rejected);
    case Completion(id, name, version) => CompletionKeeps(l, c, id, name, version);
    case _ => DropKeeps(l, c, a);
  }

  function Run(l: Limits, c: Client, actions: seq<Action>): Client
    decreases |actions|
  {
    if actions == [] then c else Run(l, Step(l, c, actions[0]), actions[1..])
  }

  ghost predicate DrawsOnlyFree(l: Limits, c: Client, actions: seq<Action>)
    decreases |actions|
  {
    actions == [] || (DrawsFree(c, actions[0]) && DrawsOnlyFree(l, Step(l, c, actions[0]), actions[1..]))
  }

  lemma {:induction false} RunKeeps(l: Limits, c: Client, actions: seq<Action>)
    requires Inv(l, c) && DrawsOnlyFree(l, c, actions) && l.maxBacklog > 0
    ensures Inv(l, Run(l, c, actions))
    decreases |actions|
  {
    if actions != [] {
      StepKeeps(l, c, actions[0]);
      RunKeeps(l, Step(l, c, actions[0]), actions[1..]);
    }
  }

  /**
   * Over every order of callbacks that draws no id of a loose command: every accepted command was sent at
   * most once and is pending exactly while it has no outcome; a failure reports the
   * request as sent iff it was sent or rejected by acknowledgement, and a failed
   * state-changing command is indeterminate iff it was sent and not so rejected, so that
   * nothing sent is ever called safe to retry. The limits hold.
   */
  lemma CommandsAccounted(l: Limits, actions: seq<Action>, k: nat)
    requires DrawsOnlyFree(l, START, actions) && l.maxBacklog > 0
    ensures var c := Run(l, START, actions);
      && |c.pending| <= l.maxPending && |c.backlog| <= l.maxBacklog && c.backlog == LastOf(c.routed, l.maxBacklog)
      && (k < |c.commands| ==>
            var cmd := c.commands[k];
            && cmd.sends == (if cmd.sent then 1 else 0)
            && (cmd.outcome.None? <==> cmd.id in c.pending && c.pending[cmd.id] == k)
            && (cmd.outcome.Some? && cmd.outcome.value.Failed? ==>
                  cmd.outcome.value.requestSent == (cmd.sent || cmd.outcome.value.code.AcknowledgeRejected?))
            && (cmd.outcome.Some? && cmd.outcome.value.Failed? && cmd.stateChanging ==>
                  && (cmd.outcome.value.classification.Indeterminate? <==>
                        cmd.sent && !cmd.outcome.value.code.AcknowledgeRejected?)
                  && (cmd.sent ==> !cmd.outcome.value.classification.SafeToRetry?)))
  {
    RunKeeps(l, START, actions);
    var c := Run(l, START, actions);
    if k < |c.commands| {
      assert c.commands[k].outcome.None? <==> IsPending(c, k);
      assert Honest(c.commands[k]) && SentOnce(c.commands[k]);
    }
  }

  // ----- settled is settled -----

  lemma FailStays(c: Client, j: nat, code: ErrorCode, k: nat)
    requires k < |c.commands| && c.commands[k].outcome.Some?
    ensures var c' := Fail(c, j, code); |c'.commands| == |c.commands| && c'.commands[k] == c.commands[k]
  {}

  lemma ExecuteStays(l: Limits, c: Client, r: Request, k: nat)
    requires k < |c.commands|
    ensures var c' := ExecuteRequest(l, c, r); k < |c'.commands| && c'.commands[k] == c.commands[k]
  {}

  lemma EndStays(l: Limits, c: Client, id: nat, code: ErrorCode, cancelId: nat, k: nat)
    requires k < |c.commands| && c.commands[k].outcome.Some?
    ensures var c' := EndById(l, c, id, code, cancelId); k < |c'.commands| && c'.commands[k] == c.commands[k]
  {
    if id in c.pending {
      FailStays(c, c.pending[id], code, k);
      ExecuteStays(l, Fail(c, c.pending[id], code), CancelRequest(cancelId), k);
    }
  }

  /** No callback changes an outcome, and while no id of a loose command is in the map none sends a settled one. */
  lemma StepStays(l: Limits, c: Client, a: Action, k: nat)
    requires k < |c.commands| && c.commands[k].outcome.Some?
    ensures var c' := Step(l, c, a);
      && k < |c'.commands| && c'.commands[k].outcome == c.commands[k].outcome
      && (Inv(l, c) ==> c'.commands[k].sent == c.commands[k].sent)
  {
    match a
    case Timeout(j, cancelId) =>
      if j < |c.commands| {
        EndStays(l, c.(expired := c.expired + {j}), c.commands[j].id, DeadlineExceeded, cancelId, k);
      }
    case Abort(j, cancelId) =>
      if j < |c.commands| {
        EndStays(l, c.(signalled := c.signalled + {j}), c.commands[j].id, Aborted, cancelId, k);
      }
    case Proceed(j, aborted, late, sendFails, cancelId) =>
      if j < |c.commands| && c.commands[j].waiting {
        ProceedStays(l, c, j, aborted, late, sendFails, cancelId, k);
      }
    case Execute(r) => ExecuteStays(l, c, r, k);
    case Acknowledge(id, name, rejected) => MessageStays(c, id, 0, name, "", rejected, k);
    case Completion(id, name, version) => MessageStays(c, None, id, name, version, false, k);
    case _ =>
  }

  lemma MessageStays(c: Client, of: Option<nat>, id: nat, name: string, version: string, rejected: bool, k: nat)
    requires k < |c.commands| && c.commands[k].outcome.Some?
    ensures var c' := OnAcknowledge(c, of, name, rejected); k < |c'.commands| && c'.commands[k] == c.commands[k]
    ensures var c' := OnCompletion(c, id, name, version); k < |c'.commands| && c'.commands[k] == c.commands[k]
  {}

  lemma ProceedStays(l: Limits, c: Client, j: nat, aborted: bool, late: bool, sendFails: bool, cancelId: nat, k: nat)
    requires k < |c.commands| && c.commands[k].outcome.Some? && j < |c.commands| && c.commands[j].waiting
    ensures var c' := Step(l, c, Proceed(j, aborted, late, sendFails, cancelId));
      && k < |c'.commands| && c'.commands[k].outcome == c.commands[k].outcome
      && (Inv(l, c) ==> c'.commands[k].sent == c.commands[k].sent)
  {
    var stopped := StopWaiting(c, j);
    EndStays(l, stopped, c.commands[j].id, Aborted, cancelId, k);
    EndStays(l, stopped, c.commands[j].id, DeadlineExceeded, cancelId, k);
    if Inv(l, c) && j == k { assert Loose(c, k) <==> k !in c.expired && k !in c.signalled; }
  }

  lemma {:induction false} RunStays(l: Limits, c: Client, actions: seq<Action>, k: nat)
    requires k < |c.commands| && c.commands[k].outcome.Some? && l.maxBacklog > 0
    requires Inv(l, c) && DrawsOnlyFree(l, c, actions)
    ensures var c' := Run(l, c, actions);
      && k < |c'.commands| && c'.commands[k].outcome == c.commands[k].outcome && c'.commands[k].sent == c.commands[k].sent
    decreases |actions|
  {
    if actions != [] {
      StepStays(l, c, actions[0], k);
      StepKeeps(l, c, actions[0]);
      RunStays(l, Step(l, c, actions[0]), actions[1..], k);
    }
  }

  // ----- what the promises do not cover -----

  /** A rejecting acknowledgement that runs before the send reports the request as sent. */
  lemma AcknowledgedBeforeSend(l: Limits, c: Client, k: nat)
    requires Inv(l, c) && c.connected && k < |c.commands| && c.commands[k].outcome.None? && !c.commands[k].sent
    ensures Step(l, c, Acknowledge(Some(c.commands[k].id), c.commands[k].name, true)).commands[k] ==
      c.commands[k].(outcome := Some(Failed(AcknowledgeRejected, Known, true)))
  {
    assert IsPending(c, k);
  }

  /** Drawing the id of a loose command: the settled command is sent once the connection is there. */
  lemma LooseIdSends(l: Limits, c: Client, j: nat, r: Request, cancelId: nat)
    requires Inv(l, c) && Loose(c, j) && r.id == c.commands[j].id && !Refuses(l, c, r) && !r.aborted
    ensures var c' := Step(l, Step(l, Step(l, c, Execute(r)), SocketOpens), Proceed(j, false, false, false, cancelId));
      && |c'.commands| == |c.commands| + 1 && !c.commands[j].sent
      && c'.commands[j] == c.commands[j].(waiting := false, sent := true, sends := c.commands[j].sends + 1)
  {
    var opened' := Step(l, Step(l, c, Execute(r)), SocketOpens);
    assert opened'.commands[j] == c.commands[j] && r.id in opened'.pending && opened'.connected;
  }

  /** What was settled in `c` has kept its outcome and its send. */
  ghost predicate SettledStay(c: Client, c': Client) {
    forall k :: 0 <= k < |c.commands| && c.commands[k].outcome.Some? ==>
      k < |c'.commands| && c'.commands[k].outcome == c.commands[k].outcome && c'.commands[k].sent == c.commands[k].sent
  }

  ghost predicate StaysSettled(l: Limits, c: Client, a: Action) {
    forall actions :: DrawsOnlyFree(l, Step(l, c, a), actions) ==> SettledStay(c, Run(l, Step(l, c, a), actions))
  }

  function AboveAll(commands: seq<Command>): (n: nat)
    ensures forall k :: 0 <= k < |commands| ==> commands[k].id < n
  {
    if commands == [] then 0
    else
      var n := AboveAll(commands[1..]);
      assert forall k :: 1 <= k < |commands| ==> commands[k] == commands[1..][k - 1];
      if commands[0].id < n then n else commands[0].id + 1
  }

  lemma ReuseSends(l: Limits, c: Client, r: Request, j: nat)
    requires Inv(l, c) && !Refuses(l, c, r) && !r.aborted && Loose(c, j) && r.id == c.commands[j].id
    ensures !StaysSettled(l, c, Execute(r))
  {
    var accepted := Step(l, c, Execute(r));
    var opened' := Step(l, accepted, SocketOpens);
    var send := Proceed(j, false, false, false, AboveAll(opened'.commands));
    var actions := [SocketOpens, send];
    LooseIdSends(l, c, j, r, send.cancelId);
    assert actions[1..] == [send] && [send][1..] == [];
    assert DrawsOnlyFree(l, opened', [send]);
    assert DrawsOnlyFree(l, accepted, actions);
    assert Run(l, accepted, actions) == Run(l, opened', [send]) == Step(l, opened', send);
  }

  /**
   * Exactly when a call is safe for the commands already settled: it is refused, aborted
   * at once, or its id is that of no loose command, iff no way to go on that draws no
   * further id of a loose command ever sends one of them.
   */
  lemma ReuseDecides(l: Limits, c: Client, r: Request)
    requires Inv(l, c) && l.maxBacklog > 0
    ensures Refuses(l, c, r) || r.aborted || Free(c, r.id) <==> StaysSettled(l, c, Execute(r))
  {
    if Refuses(l, c, r) || r.aborted || Free(c, r.id) {
      var accepted := Step(l, c, Execute(r));
      if !Refuses(l, c, r) { StepKeeps(l, c, Execute(r)); }
      forall actions | DrawsOnlyFree(l, accepted, actions) ensures SettledStay(c, Run(l, accepted, actions)) {
        forall k | 0 <= k < |c.commands| && c.commands[k].outcome.Some?
          ensures var c' := Run(l, accepted, actions);
            k < |c'.commands| && c'.commands[k].outcome == c.commands[k].outcome && c'.commands[k].sent == c.commands[k].sent
        {
          ExecuteStays(l, c, r, k);
          RunStays(l, accepted, actions, k);
        }
      }
    } else {
      var j: nat :| Loose(c, j) && c.commands[j].id == r.id;
      ReuseSends(l, c, r, j);
    }
  }

  function Plain(id: nat): Request {
    Request(id, "CashDispenser.Dispense", "2.0", true, true, false, false)
  }

  /**
   * A run that gets there: a dispense waits for a new connection when the old socket, no
   * longer open, delivers its close event. It fails as safe to retry, its id is drawn
   * again, and once the connection opens it is sent.
   */
  lemma ReusedIdSendsSettled(l: Limits)
    requires l.maxPending > 0 && l.maxBacklog > 0
    ensures var lost := Run(l, START, [SocketOpens, Execute(Plain(1)), SocketLost]);
      && lost.commands == [Command(1, "CashDispenser.Dispense", "2.0", true, true, true, false, 0,
                                Some(Failed(ConnectionLost, SafeToRetry, false)))]
      && Inv(l, lost) && !Free(lost, 1) && !StaysSettled(l, lost, Execute(Plain(1)))
  {
    var opened' := Step(l, START, SocketOpens);
    var waiting := Step(l, opened', Execute(Plain(1)));
    var lost := Step(l, waiting, SocketLost);
    var actions := [SocketOpens, Execute(Plain(1)), SocketLost];
    assert actions[1..] == [Execute(Plain(1)), SocketLost] && actions[1..][1..] == [SocketLost];
    assert Run(l, waiting, [SocketLost]) == lost;
    assert Run(l, START, actions) == lost;
    StepKeeps(l, opened', Execute(Plain(1)));
    StepKeeps(l, waiting, SocketLost);
    assert Loose(lost, 0) && lost.pending == map[];
    ReuseSends(l, lost, Plain(1), 0);
  }

  // ----- the client object -----

  class Xfs4IotClient {
    const limits: Limits
    var commands: seq<Command>
    var pending: map<nat, nat>
    var connected: bool
    var disposed: bool
    var backlog: seq<RoutedEvent>
    ghost var routed: seq<RoutedEvent>
    ghost var expired: set<nat>
    ghost var signalled: set<nat>

    ghost function Abs(): Client
      reads this
    {
      Client(commands, pending, connected, disposed, backlog, routed, expired, signalled)
    }

    constructor (limits: Limits)
      ensures Abs() == START && this.limits == limits
    {
      this.limits := limits;
      commands, pending, connected, disposed, backlog := [], map[], false, false, [];
      routed, expired, signalled := [], {}, {};
    }

    /** Whether the command was still pending; it is not afterwards. */
    method RemovePending(k: nat, outcome: Outcome) returns (removed: bool)
      requires k < |commands|
      modifies this`commands, this`pending
      ensures Abs() == Settle(old(Abs()), k, outcome)
      ensures removed <==> Abs() != old(Abs())
    {
      var cmd := commands[k];
      if cmd.outcome.Some? || cmd.id !in pending || pending[cmd.id] != k { return false; }
      commands := commands[k := cmd.(outcome := Some(outcome))];
      pending := pending - {cmd.id};
      assert commands[k].outcome.Some?;
      return true;
    }

    method RejectPending(k: nat, code: ErrorCode)
      requires k < |commands|
      modifies this`commands, this`pending
      ensures Abs() == Fail(old(Abs()), k, code)
    {
      var _ := RemovePending(k, Failure(commands[k], code));
    }

    /** Rejects every command in the map, one after the other. */
    method RejectAll(code: ErrorCode)
      requires PendingExact(Abs())
      modifies this`commands, this`pending
      ensures Abs() == FailAll(old(Abs()), code)
    {
      ghost var start := Abs();
      var ids := pending.Keys;
      while ids != {}
        invariant Remaining(start, Abs(), ids, code)
      {
        var id: nat :| id in ids;
        RemainingStep(start, Abs(), ids, id, code);
        RejectPending(pending[id], code);
        ids := ids - {id};
      }
      RemainingEnds(start, Abs(), code);
    }

    method ExecuteCommand(r: Request) returns (accepted: bool)
      modifies this`commands, this`pending
      ensures Abs() == ExecuteRequest(limits, old(Abs()), r)
      ensures accepted <==> !Refuses(limits, old(Abs()), r)
    {
      if disposed || |pending| >= limits.maxPending || r.id < 1 || r.id in pending || r.tooLarge { return false; }
      var k := |commands|;
      commands := commands +
        [Command(r.id, r.name, r.version, r.stateChanging, r.cancelOnAbort, !r.aborted, false, 0, None)];
      pending := pending[r.id := k];
      if r.aborted { RejectPending(k, Aborted); }
      return true;
    }

    /** The deadline timer and the abort listener. */
    method EndPending(id: nat, code: ErrorCode, cancelId: nat)
      requires PendingExact(Abs())
      modifies this`commands, this`pending
      ensures Abs() == EndById(limits, old(Abs()), id, code, cancelId)
    {
      if id !in pending { return; }
      var k := pending[id];
      var shouldCancel := commands[k].sent && commands[k].cancelOnAbort;
      RejectPending(k, code);
      if shouldCancel {
        var _ := ExecuteCommand(CancelRequest(cancelId));
      }
    }

    /** The timer of a command that is still pending fires. */
    method TimerFires(k: nat, cancelId: nat)
      requires PendingExact(Abs()) && k < |commands| && commands[k].outcome.None?
      modifies this`commands, this`pending, this`expired
      ensures Abs() == Step(limits, old(Abs()), Timeout(k, cancelId))
    {
      StillExact(Abs(), expired + {k}, signalled);
      expired := expired + {k};
      EndPending(commands[k].id, DeadlineExceeded, cancelId);
    }

    /** The signal of a command that is still pending aborts. */
    method SignalAborts(k: nat, cancelId: nat)
      requires PendingExact(Abs()) && k < |commands| && commands[k].outcome.None?
      modifies this`commands, this`pending, this`signalled
      ensures Abs() == Step(limits, old(Abs()), Abort(k, cancelId))
    {
      StillExact(Abs(), expired, signalled + {k});
      signalled := signalled + {k};
      EndPending(commands[k].id, Aborted, cancelId);
    }

    method HandleAcknowledge(id: Option<nat>, name: string, rejected: bool)
      requires PendingExact(Abs())
      modifies this`commands, this`pending
      ensures Abs() == OnAcknowledge(old(Abs()), id, name, rejected)
    {
      if id.None? || id.value !in pending { return; }
      var k := pending[id.value];
      if name != commands[k].name {
        RejectPending(k, ProtocolError);
        return;
      }
      if rejected {
        var _ := RemovePending(k, Failed(AcknowledgeRejected, Known, true));
      }
    }

    method HandleCompletion(id: nat, name: string, version: string)
      requires PendingExact(Abs())
      modifies this`commands, this`pending
      ensures Abs() == OnCompletion(old(Abs()), id, name, version)
    {
      if id !in pending { return; }
      var k := pending[id];
      if name != commands[k].name || version != commands[k].version {
        RejectPending(k, ProtocolError);
        return;
      }
      var _ := RemovePending(k, Completed);
    }

    method RouteEvent(id: Option<nat>, unsolicited: bool, text: string)
      requires connected
      modifies this`backlog, this`routed
      ensures Abs() == Step(limits, old(Abs()), DeviceEvent(id, unsolicited, text))
    {
      var e := Route(Client(commands, pending, connected, disposed, backlog, [], {}, {}), id, unsolicited, text);
      if |backlog| >= limits.maxBacklog && backlog != [] { backlog := backlog[1..]; }
      backlog := backlog + [e];
      routed := routed + [e];
    }

    method CloseClient()
      requires PendingExact(Abs())
      modifies this
      ensures Abs() == Step(limits, old(Abs()), Close)
    {
      if disposed { return; }
      disposed := true;
      connected := false;
      assert PendingExact(Abs());
      RejectAll(ClientClosed);
      backlog, routed := [], [];
    }

    /** The continuation of a send once the connection is there. */
    method SendWhenConnected(k: nat, aborted: bool, late: bool, sendFails: bool, cancelId: nat)
      requires PendingExact(Abs()) && k < |commands| && commands[k].waiting
      requires (k in signalled ==> aborted) && (k in expired ==> late)
      modifies this`commands, this`pending
      ensures Abs() == Step(limits, old(Abs()), Proceed(k, aborted, late, sendFails, cancelId))
    {
      StopExact(Abs(), k);
      commands := commands[k := commands[k].(waiting := false)];
      var id := commands[k].id;
      if id !in pending { return; }
      if aborted {
        EndPending(id, Aborted, cancelId);
        return;
      }
      if late {
        EndPending(id, DeadlineExceeded, cancelId);
        return;
      }
      if !connected {
        RejectPending(k, ConnectionFailed);
        return;
      }
      if sendFails {
        RejectPending(k, SendFailed);
        return;
      }
      commands := commands[k := commands[k].(sent := true, sends := commands[k].sends + 1)];
    }
  }

  lemma StillExact(c: Client, expired: set<nat>, signalled: set<nat>)
    requires PendingExact(c)
    ensures PendingExact(c.(expired := expired, signalled := signalled))
  {
    var c' := c.(expired := expired, signalled := signalled);
    forall k: nat | k < |c'.commands| ensures c'.commands[k].outcome.None? <==> IsPending(c', k) {
      assert c.commands[k].outcome.None? <==> IsPending(c, k);
    }
  }

  lemma StopExact(c: Client, k: nat)
    requires PendingExact(c) && k < |c.commands|
    ensures PendingExact(StopWaiting(c, k))
  {
    var c' := StopWaiting(c, k);
    forall j: nat | j < |c'.commands| ensures c'.commands[j].outcome.None? <==> IsPending(c', j) {
      assert c.commands[j].outcome.None? <==> IsPending(c, j);
    }
  }

  /** Part way through rejecting all: the ids still to come are pending as before, the others are settled. */
  ghost predicate Remaining(start: Client, now: Client, ids: set<nat>, code: ErrorCode) {
    && PendingExact(start) && ids <= start.pending.Keys
    && now.connected == start.connected && now.disposed == start.disposed
    && now.backlog == start.backlog && now.routed == start.routed
    && now.expired == start.expired && now.signalled == start.signalled
    && now.pending.Keys == ids && (forall id :: id in ids ==> now.pending[id] == start.pending[id])
    && |now.commands| == |start.commands|
    && forall k :: 0 <= k < |start.commands| ==>
         now.commands[k] ==
           if IsPending(start, k) && start.commands[k].id !in ids then
             start.commands[k].(outcome := Some(Failure(start.commands[k], code)))
           else start.commands[k]
  }

  lemma RemainingEnds(start: Client, now: Client, code: ErrorCode)
    requires Remaining(start, now, {}, code)
    ensures now == FailAll(start, code)
  {
    assert now.pending == map[];
    assert now.commands == FailAll(start, code).commands by {
      forall k: nat | k < |start.commands| ensures now.commands[k] == FailAll(start, code).commands[k] {
        assert start.commands[k].outcome.None? <==> IsPending(start, k);
      }
    }
  }

  lemma RemainingStep(start: Client, now: Client, ids: set<nat>, id: nat, code: ErrorCode)
    requires Remaining(start, now, ids, code) && id in ids
    ensures id in now.pending && now.pending[id] < |now.commands|
    ensures Remaining(start, Fail(now, now.pending[id], code), ids - {id}, code)
  {
    var k := start.pending[id];
    assert start.commands[k].id == id && IsPending(start, k);
    assert now.commands[k] == start.commands[k] && start.commands[k].outcome.None?;
    var after := Fail(now, k, code);
    forall j | 0 <= j < |start.commands|
      ensures after.commands[j] ==
        if IsPending(start, j) && start.commands[j].id !in ids - {id} then
          start.commands[j].(outcome := Some(Failure(start.commands[j], code)))
        else start.commands[j]
    {}
  }
}
