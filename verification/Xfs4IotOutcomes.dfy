/**
 * What becomes of each XFS4IoT command, told from the command's side: which callback
 * sends it, which ends it and how, and which commands come to be.
 */
module Xfs4IotOutcomes {
  import opened Prelude
  import opened Xfs4Iot

  predicate Pending(c: Client, k: nat) {
    k < |c.commands| && c.commands[k].outcome.None?
  }

  /** A failure of the connection kind: indeterminate iff a state-changing command was sent. */
  function Lost(cmd: Command, code: ErrorCode): Outcome {
    Failed(code, if cmd.sent && cmd.stateChanging then Indeterminate else SafeToRetry, cmd.sent)
  }

  predicate IsAborted(c: Client, a: Action)
    requires a.Proceed?
  {
    a.aborted || a.k in c.signalled
  }

  predicate IsLate(c: Client, a: Action)
    requires a.Proceed?
  {
    a.late || a.k in c.expired
  }

  /** How a callback ends a pending command, if it does. */
  function EndedBy(c: Client, a: Action, k: nat): Option<Outcome>
    requires Pending(c, k)
  {
    var cmd := c.commands[k];
    match a
    case Timeout(j, _) => if j == k then Some(Lost(cmd, DeadlineExceeded)) else None
    case Abort(j, _) => if j == k then Some(Lost(cmd, ErrorCode.Aborted)) else None
    case SocketLost => if c.connected then Some(Lost(cmd, ConnectionLost)) else None
    case BadMessage => if c.connected then Some(Lost(cmd, ProtocolError)) else None
    case Close => if c.disposed then None else Some(Lost(cmd, ClientClosed))
    case ConnectFails(j, closed) =>
      if j == k && cmd.waiting then Some(Failed(if closed then ClientClosed else ConnectionFailed, SafeToRetry, false)) else None
    case Proceed(j, _, _, sendFails, _) =>
      if j >= |c.commands| || !c.commands[j].waiting || c.commands[j].id != cmd.id then None
      else if IsAborted(c, a) then Some(Lost(cmd, ErrorCode.Aborted))
      else if IsLate(c, a) then Some(Lost(cmd, DeadlineExceeded))
      else if j != k then None
      else if !c.connected then Some(Lost(cmd, ConnectionFailed))
      else if sendFails then Some(Lost(cmd, SendFailed))
      else None
    case Acknowledge(of, name, rejected) =>
      if !c.connected || of != Some(cmd.id) then None
      else if name != cmd.name then Some(Lost(cmd, ProtocolError))
      else if rejected then Some(Failed(AcknowledgeRejected, Known, true))
      else None
    case Completion(id, name, version) =>
      if !c.connected || id != cmd.id then None
      else if name == cmd.name && version == cmd.version then Some(Outcome.Completed)
      else Some(Lost(cmd, ProtocolError))
    case _ => None
  }

  /** A callback hands a command to the socket. */
  predicate SentBy(c: Client, a: Action, k: nat) {
    && a.Proceed? && a.k == k && Pending(c, k) && c.commands[k].waiting
    && c.connected && !IsAborted(c, a) && !IsLate(c, a) && !a.sendFails
  }

  /** The send of a command no longer waits for the connection. */
  predicate ResumedBy(c: Client, a: Action, k: nat) {
    (a.Proceed? || a.ConnectFails?) && a.k == k
  }

  /** A command after a callback, from its own side. */
  function After(c: Client, a: Action, k: nat): Command
    requires k < |c.commands|
  {
    var cmd := c.commands[k];
    var sent := SentBy(c, a, k);
    cmd.(waiting := cmd.waiting && !ResumedBy(c, a, k),
         sent := cmd.sent || sent,
         sends := if sent then cmd.sends + 1 else cmd.sends,
         outcome := if cmd.outcome.None? then EndedBy(c, a, k) else cmd.outcome)
  }

  lemma PendingAt(l: Limits, c: Client, k: nat)
    requires Inv(l, c) && k < |c.commands|
    ensures Pending(c, k) <==> c.commands[k].id in c.pending && c.pending[c.commands[k].id] == k
  {
    assert c.commands[k].outcome.None? <==> IsPending(c, k);
  }

  /** An id in the map is that of the one pending command that has it. */
  lemma IdPending(l: Limits, c: Client, id: nat)
    requires Inv(l, c)
    ensures id in c.pending <==> exists k: nat :: Pending(c, k) && c.commands[k].id == id
    ensures forall j: nat, k: nat :: Pending(c, j) && Pending(c, k) && c.commands[j].id == c.commands[k].id ==> j == k
  {
    if id in c.pending { PendingNames(l, c, id); }
    forall k: nat | Pending(c, k) ensures IsPending(c, k) { PendingAt(l, c, k); }
  }

  // ----- one callback at a time -----

  lemma EndByIdExact(l: Limits, c: Client, j: nat, code: ErrorCode, cancelId: nat, k: nat)
    requires Inv(l, c) && j < |c.commands| && c.commands[j].id in c.pending && k < |c.commands|
    ensures var c' := EndById(l, c, c.commands[j].id, code, cancelId);
      && k < |c'.commands|
      && c'.commands[k] ==
           if Pending(c, k) && c.commands[k].id == c.commands[j].id then c.commands[k].(outcome := Some(Lost(c.commands[k], code)))
           else c.commands[k]
  {
    var id := c.commands[j].id;
    var m := c.pending[id];
    PendingNames(l, c, id);
    PendingAt(l, c, k);
    ExecuteStays(l, Fail(c, m, code), CancelRequest(cancelId), k);
  }

  lemma FiredInv(l: Limits, c: Client, c': Client)
    requires Inv(l, c) && c.expired <= c'.expired && c.signalled <= c'.signalled
    requires c' == c.(expired := c'.expired, signalled := c'.signalled)
    ensures Inv(l, c')
  {
    forall k: nat | Loose(c', k) ensures c'.commands[k].id !in c'.pending { assert Loose(c, k); }
    forall k: nat | k < |c'.commands| ensures c'.commands[k].outcome.None? <==> IsPending(c', k) {
      assert c.commands[k].outcome.None? <==> IsPending(c, k);
    }
  }

  lemma TimeoutAfter(l: Limits, c: Client, j: nat, cancelId: nat, k: nat)
    requires Inv(l, c) && k < |c.commands|
    ensures var c' := Step(l, c, Timeout(j, cancelId)); k < |c'.commands| && c'.commands[k] == After(c, Timeout(j, cancelId), k)
  {
    if Pending(c, j) {
      var fired := c.(expired := c.expired + {j});
      FiredInv(l, c, fired);
      PendingAt(l, c, j);
      EndByIdExact(l, fired, j, DeadlineExceeded, cancelId, k);
      IdPending(l, c, c.commands[j].id);
      assert Pending(c, j) && (Pending(c, k) && c.commands[k].id == c.commands[j].id ==> j == k);
    }
  }

  lemma AbortAfter(l: Limits, c: Client, j: nat, cancelId: nat, k: nat)
    requires Inv(l, c) && k < |c.commands|
    ensures var c' := Step(l, c, Abort(j, cancelId)); k < |c'.commands| && c'.commands[k] == After(c, Abort(j, cancelId), k)
  {
    if Pending(c, j) {
      var fired := c.(signalled := c.signalled + {j});
      FiredInv(l, c, fired);
      PendingAt(l, c, j);
      EndByIdExact(l, fired, j, ErrorCode.Aborted, cancelId, k);
      IdPending(l, c, c.commands[j].id);
      assert Pending(c, j) && (Pending(c, k) && c.commands[k].id == c.commands[j].id ==> j == k);
    }
  }

  function LateCode(c: Client, a: Action): ErrorCode
    requires a.Proceed?
  {
    if IsAborted(c, a) then ErrorCode.Aborted else DeadlineExceeded
  }

  lemma LateStep(l: Limits, c: Client, a: Action)
    requires a.Proceed? && a.k < |c.commands| && c.commands[a.k].waiting
    requires c.commands[a.k].id in c.pending && (IsAborted(c, a) || IsLate(c, a))
    ensures Step(l, c, a) == EndById(l, StopWaiting(c, a.k), c.commands[a.k].id, LateCode(c, a), a.cancelId)
  {}

  lemma LateSide(c: Client, a: Action, k: nat)
    requires a.Proceed? && a.k < |c.commands| && c.commands[a.k].waiting && k < |c.commands| && (IsAborted(c, a) || IsLate(c, a))
    ensures var cmd := StopWaiting(c, a.k).commands[k];
      After(c, a, k) ==
        if Pending(c, k) && cmd.id == c.commands[a.k].id then cmd.(outcome := Some(Lost(cmd, LateCode(c, a)))) else cmd
  {}

  lemma LateAfter(l: Limits, c: Client, a: Action, k: nat)
    requires Inv(l, c) && k < |c.commands| && a.Proceed? && a.k < |c.commands| && c.commands[a.k].waiting
    requires c.commands[a.k].id in c.pending && (IsAborted(c, a) || IsLate(c, a))
    ensures var c' := Step(l, c, a); k < |c'.commands| && c'.commands[k] == After(c, a, k)
  {
    StopKeeps(l, c, a.k);
    LateStep(l, c, a);
    LateSide(c, a, k);
    EndByIdExact(l, StopWaiting(c, a.k), a.k, LateCode(c, a), a.cancelId, k);
  }

  lemma InTimeAfter(l: Limits, c: Client, a: Action, k: nat)
    requires Inv(l, c) && k < |c.commands| && a.Proceed? && a.k < |c.commands| && c.commands[a.k].waiting
    requires c.commands[a.k].id in c.pending && !IsAborted(c, a) && !IsLate(c, a)
    ensures var c' := Step(l, c, a); k < |c'.commands| && c'.commands[k] == After(c, a, k)
  {
    IdStandsForOne(l, c, a.k);
  }

  lemma ProceedAfter(l: Limits, c: Client, a: Action, k: nat)
    requires Inv(l, c) && k < |c.commands| && a.Proceed?
    ensures var c' := Step(l, c, a); k < |c'.commands| && c'.commands[k] == After(c, a, k)
  {
    if a.k < |c.commands| && c.commands[a.k].waiting {
      if c.commands[a.k].id !in c.pending {
        NoneUnder(l, c, c.commands[a.k].id);
      } else if IsAborted(c, a) || IsLate(c, a) {
        LateAfter(l, c, a, k);
      } else {
        InTimeAfter(l, c, a, k);
      }
    }
  }

  lemma NoneUnder(l: Limits, c: Client, id: nat)
    requires Inv(l, c) && id !in c.pending
    ensures forall k: nat :: Pending(c, k) ==> c.commands[k].id != id
  {
    IdPending(l, c, id);
  }

  lemma DropAfter(l: Limits, c: Client, a: Action, k: nat)
    requires Inv(l, c) && k < |c.commands| && (a.SocketLost? || a.BadMessage? || a.Close?)
    ensures var c' := Step(l, c, a); k < |c'.commands| && c'.commands[k] == After(c, a, k)
  {
    PendingAt(l, c, k);
  }

  lemma AcknowledgeAfter(l: Limits, c: Client, a: Action, k: nat)
    requires Inv(l, c) && k < |c.commands| && a.Acknowledge?
    ensures var c' := Step(l, c, a); k < |c'.commands| && c'.commands[k] == After(c, a, k)
  {
    if a.of.Some? && a.of.value in c.pending { PendingNames(l, c, a.of.value); }
    PendingAt(l, c, k);
  }

  lemma CompletionAfter(l: Limits, c: Client, a: Action, k: nat)
    requires Inv(l, c) && k < |c.commands| && a.Completion?
    ensures var c' := Step(l, c, a); k < |c'.commands| && c'.commands[k] == After(c, a, k)
  {
    if a.id in c.pending { PendingNames(l, c, a.id); }
    PendingAt(l, c, k);
  }

  lemma SettleExact(l: Limits, c: Client, j: nat, outcome: Outcome, k: nat)
    requires Inv(l, c) && k < |c.commands|
    ensures var c' := Settle(c, j, outcome);
      && k < |c'.commands|
      && c'.commands[k] == if j == k && Pending(c, k) then c.commands[k].(outcome := Some(outcome)) else c.commands[k]
  {
    PendingAt(l, c, k);
  }

  lemma ConnectFailsAfter(l: Limits, c: Client, a: Action, k: nat)
    requires Inv(l, c) && k < |c.commands| && a.ConnectFails?
    ensures var c' := Step(l, c, a); k < |c'.commands| && c'.commands[k] == After(c, a, k)
  {
    if a.k < |c.commands| && c.commands[a.k].waiting {
      StopKeeps(l, c, a.k);
      var outcome := Failed(if a.closed then ClientClosed else ConnectionFailed, SafeToRetry, false);
      SettleExact(l, StopWaiting(c, a.k), a.k, outcome, k);
      assert Step(l, c, a) == Settle(StopWaiting(c, a.k), a.k, outcome);
    }
  }

  /** A callback does to each command exactly what its own side says, whatever the other commands are. */
  lemma StepAfter(l: Limits, c: Client, a: Action, k: nat)
    requires Inv(l, c) && k < |c.commands|
    ensures var c' := Step(l, c, a); k < |c'.commands| && c'.commands[k] == After(c, a, k)
  {
    match a
    case Timeout(j, cancelId) => TimeoutAfter(l, c, j, cancelId, k);
    case Abort(j, cancelId) => AbortAfter(l, c, j, cancelId, k);
    case Proceed(_, _, _, _, _) => ProceedAfter(l, c, a, k);
    case Acknowledge(_, _, _) => AcknowledgeAfter(l, c, a, k);
    case Completion(_, _, _) => CompletionAfter(l, c, a, k);
    case ConnectFails(_, _) => ConnectFailsAfter(l, c, a, k);
    case Execute(r) => ExecuteStays(l, c, r, k);
    case SocketLost => DropAfter(l, c, a, k);
    case BadMessage => DropAfter(l, c, a, k);
    case Close => DropAfter(l, c, a, k);
    case _ =>
  }

  // ----- which commands come to be -----

  /** A call is accepted: the client is open and below its limit, the message is small enough, and the id is free. */
  predicate Accepts(l: Limits, c: Client, r: Request) {
    !c.disposed && |c.pending| < l.maxPending && !r.tooLarge && r.id >= 1 && forall k :: 0 <= k < |c.commands| && c.commands[k].outcome.None? ==> c.commands[k].id != r.id
  }

  /** The command a call starts with; one already aborted is failed at once and never waits. */
  function Born(r: Request): Command {
    Command(r.id, r.name, r.version, r.stateChanging, r.cancelOnAbort, !r.aborted, false, 0,
      if r.aborted then Some(Failed(ErrorCode.Aborted, SafeToRetry, false)) else None)
  }

  lemma CallExact(l: Limits, c: Client, r: Request)
    requires Inv(l, c)
    ensures Step(l, c, Execute(r)).commands == c.commands + if Accepts(l, c, r) then [Born(r)] else []
    ensures Refuses(l, c, r) <==> !Accepts(l, c, r)
  {
    IdPending(l, c, r.id);
    assert Refuses(l, c, r) <==> !Accepts(l, c, r) by {
      if r.id in c.pending {
        var k: nat :| Pending(c, k) && c.commands[k].id == r.id;
      }
      if k :| 0 <= k < |c.commands| && c.commands[k].outcome.None? && c.commands[k].id == r.id { assert Pending(c, k); }
    }
  }

  /** The command a callback cancels: a sent one that its own timer or signal, or a late or aborted send under its id, ends. */
  predicate CancelledBy(c: Client, a: Action, k: nat) {
    && (a.Timeout? || a.Abort? || a.Proceed?)
    && Pending(c, k) && EndedBy(c, a, k).Some? && c.commands[k].sent && c.commands[k].cancelOnAbort
  }

  /** Its cancellation is taken: the client is open, and no other pending command has the id drawn for it. */
  ghost predicate CancelTaken(c: Client, k: nat, cancelId: nat) {
    !c.disposed && cancelId >= 1 && forall j: nat :: Pending(c, j) && j != k ==> c.commands[j].id != cancelId
  }

  lemma EndByIdAppends(l: Limits, c: Client, id: nat, code: ErrorCode, cancelId: nat)
    requires Inv(l, c)
    ensures var c' := EndById(l, c, id, code, cancelId);
      if exists k: nat :: Pending(c, k) && c.commands[k].id == id && c.commands[k].sent && c.commands[k].cancelOnAbort && CancelTaken(c, k, cancelId)
      then |c'.commands| == |c.commands| + 1 && c'.commands[|c.commands|] == Born(CancelRequest(cancelId))
      else |c'.commands| == |c.commands|
  {
    IdPending(l, c, id);
    if id in c.pending {
      var k := c.pending[id];
      PendingNames(l, c, id);
      assert Pending(c, k);
      EndedRefuses(l, c, k, code, cancelId);
    }
  }

  lemma EndedRefuses(l: Limits, c: Client, k: nat, code: ErrorCode, cancelId: nat)
    requires Inv(l, c) && Pending(c, k)
    ensures Refuses(l, Fail(c, k, code), CancelRequest(cancelId)) <==> !CancelTaken(c, k, cancelId)
  {
    var ended := Fail(c, k, code);
    PendingAt(l, c, k);
    assert ended.pending == c.pending - {c.commands[k].id};
    assert |ended.pending| == |ended.pending.Keys| && |c.pending| == |c.pending.Keys|;
    assert ended.pending.Keys == c.pending.Keys - {c.commands[k].id};
    IdPending(l, c, cancelId);
    if cancelId in ended.pending {
      var j: nat :| Pending(c, j) && c.commands[j].id == cancelId;
      assert j != k;
    }
    if j: nat :| Pending(c, j) && j != k && c.commands[j].id == cancelId {
      PendingAt(l, c, j);
    }
  }

  /** What a callback appends: the accepted call, or the cancellation of a command it cancels if that is taken; nothing else. */
  ghost predicate Appends(l: Limits, c: Client, a: Action, cmd: Command) {
    if a.Execute? then Accepts(l, c, a.request) && cmd == Born(a.request)
    else
      && (a.Timeout? || a.Abort? || a.Proceed?)
      && cmd == Born(Request(a.cancelId, "Common.Cancel", "", false, false, false, false))
      && exists k: nat :: CancelledBy(c, a, k) && CancelTaken(c, k, a.cancelId)
  }

  lemma CancelAppends(l: Limits, c: Client, c': Client, a: Action, j: nat, code: ErrorCode)
    requires Inv(l, c) && j < |c.commands| && |c'.commands| == |c.commands|
    requires c' == c.(commands := c'.commands, expired := c'.expired, signalled := c'.signalled)
    requires c.expired <= c'.expired && c.signalled <= c'.signalled
    requires forall k: nat :: k < |c.commands| ==> c'.commands[k] == c.commands[k] || (k == j && c'.commands[k] == c.commands[k].(waiting := false))
    requires a.Timeout? || a.Abort? || a.Proceed?
    requires forall k: nat :: Pending(c, k) ==> (c.commands[k].id == c.commands[j].id <==> EndedBy(c, a, k).Some?)
    ensures var after := EndById(l, c', c.commands[j].id, code, a.cancelId); AppendsOnly(l, c, a, after)
  {
    MovedInv(l, c, c', j);
    EndByIdAppends(l, c', c.commands[j].id, code, a.cancelId);
    MovedTakes(c, c', j, a.cancelId);
    forall k: nat | Pending(c, k)
      ensures CancelledBy(c, a, k) <==> c'.commands[k].id == c.commands[j].id && c'.commands[k].sent && c'.commands[k].cancelOnAbort {}
  }

  /** A send that no longer waits, a timer or a signal that has fired, changes nothing of what is pending. */
  lemma MovedTakes(c: Client, c': Client, j: nat, cancelId: nat)
    requires |c'.commands| == |c.commands| && c'.disposed == c.disposed
    requires forall k: nat :: k < |c.commands| ==> c'.commands[k] == c.commands[k] || (k == j && c'.commands[k] == c.commands[k].(waiting := false))
    ensures forall k: nat :: Pending(c', k) <==> Pending(c, k)
    ensures forall k: nat :: CancelTaken(c', k, cancelId) <==> CancelTaken(c, k, cancelId)
  {
    forall k: nat ensures Pending(c', k) <==> Pending(c, k) {}
  }

  /** The list of commands grows by one exactly when the callback appends, and then by that command. */
  ghost predicate AppendsOnly(l: Limits, c: Client, a: Action, c': Client) {
    if exists cmd :: Appends(l, c, a, cmd) then |c'.commands| == |c.commands| + 1 && Appends(l, c, a, c'.commands[|c.commands|])
    else |c'.commands| == |c.commands|
  }

  lemma LateAppends(l: Limits, c: Client, a: Action)
    requires Inv(l, c) && a.Proceed? && a.k < |c.commands| && c.commands[a.k].waiting && (IsAborted(c, a) || IsLate(c, a))
    ensures AppendsOnly(l, c, a, EndById(l, StopWaiting(c, a.k), c.commands[a.k].id, LateCode(c, a), a.cancelId))
  {
    CancelAppends(l, c, StopWaiting(c, a.k), a, a.k, LateCode(c, a));
  }

  /** A send that goes on in time cancels nothing. */
  lemma InTimeAppends(l: Limits, c: Client, a: Action)
    requires Inv(l, c) && a.Proceed? && (a.k < |c.commands| && c.commands[a.k].waiting ==> !IsAborted(c, a) && !IsLate(c, a))
    ensures forall cmd :: !Appends(l, c, a, cmd)
  {
    forall k: nat | Pending(c, k) && EndedBy(c, a, k).Some? ensures !c.commands[k].sent {
      assert SentOnce(c.commands[k]);
    }
  }

  lemma ProceedAppends(l: Limits, c: Client, a: Action)
    requires Inv(l, c) && a.Proceed?
    ensures AppendsOnly(l, c, a, Step(l, c, a))
  {
    if a.k < |c.commands| && c.commands[a.k].waiting && (IsAborted(c, a) || IsLate(c, a)) {
      LateAppends(l, c, a);
      if c.commands[a.k].id in c.pending { LateStep(l, c, a); }
    } else {
      InTimeAppends(l, c, a);
    }
  }

  lemma FiredAppends(l: Limits, c: Client, a: Action)
    requires Inv(l, c) && (a.Timeout? || a.Abort?)
    ensures AppendsOnly(l, c, a, Step(l, c, a))
  {
    if Pending(c, a.k) {
      IdPending(l, c, c.commands[a.k].id);
      if a.Timeout? {
        CancelAppends(l, c, c.(expired := c.expired + {a.k}), a, a.k, DeadlineExceeded);
      } else {
        CancelAppends(l, c, c.(signalled := c.signalled + {a.k}), a, a.k, ErrorCode.Aborted);
      }
    }
  }

  lemma AppendsExact(l: Limits, c: Client, a: Action)
    requires Inv(l, c)
    ensures AppendsOnly(l, c, a, Step(l, c, a))
  {
    if a.Execute? {
      CallExact(l, c, a.request);
    } else if a.Proceed? {
      ProceedAppends(l, c, a);
    } else if a.Timeout? || a.Abort? {
      FiredAppends(l, c, a);
    }
  }

  lemma MovedInv(l: Limits, c: Client, c': Client, j: nat)
    requires Inv(l, c) && j < |c.commands| && |c'.commands| == |c.commands|
    requires c' == c.(commands := c'.commands, expired := c'.expired, signalled := c'.signalled)
    requires c.expired <= c'.expired && c.signalled <= c'.signalled
    requires forall k: nat :: k < |c.commands| ==> c'.commands[k] == c.commands[k] || (k == j && c'.commands[k] == c.commands[k].(waiting := false))
    ensures Inv(l, c')
  {
    forall k: nat | Loose(c', k) ensures c'.commands[k].id !in c'.pending { assert Loose(c, k); }
    forall k: nat | k < |c'.commands| ensures c'.commands[k].outcome.None? <==> IsPending(c', k) {
      assert c.commands[k].outcome.None? <==> IsPending(c, k);
    }
    forall k | 0 <= k < |c'.commands| ensures Honest(c'.commands[k]) && SentOnce(c'.commands[k]) {
      assert Honest(c.commands[k]) && SentOnce(c.commands[k]);
    }
  }

  // ----- over whole runs -----

  /** The `n`th callback of a run gives command `k` its outcome. */
  ghost predicate EndsAt(l: Limits, c: Client, actions: seq<Action>, n: nat, k: nat, outcome: Outcome) {
    && n < |actions|
    && EndsIn(l, Run(l, c, actions[..n]), actions[n], k, outcome)
  }

  /** Either the callback ends a pending command, or it is the call of one aborted from the start. */
  ghost predicate EndsIn(l: Limits, c: Client, a: Action, k: nat, outcome: Outcome) {
    if k < |c.commands| then c.commands[k].outcome.None? && EndedBy(c, a, k) == Some(outcome)
    else
      && k == |c.commands| && a.Execute? && Accepts(l, c, a.request) && a.request.aborted
      && outcome == Failed(ErrorCode.Aborted, SafeToRetry, false)
  }

  ghost predicate Has(c: Client, k: nat, outcome: Outcome) {
    k < |c.commands| && c.commands[k].outcome == Some(outcome)
  }

  lemma HasStep(l: Limits, c: Client, a: Action, k: nat, outcome: Outcome)
    requires Inv(l, c)
    ensures Has(Step(l, c, a), k, outcome) <==> Has(c, k, outcome) || EndsIn(l, c, a, k, outcome)
  {
    if k < |c.commands| { StepAfter(l, c, a, k); } else { AppendsExact(l, c, a); }
    if a.Execute? { CallExact(l, c, a.request); }
  }

  lemma EndsAtLater(l: Limits, c: Client, actions: seq<Action>, n: nat, k: nat, outcome: Outcome)
    requires actions != []
    ensures EndsAt(l, c, actions, n + 1, k, outcome) <==> EndsAt(l, Step(l, c, actions[0]), actions[1..], n, k, outcome)
  {
    if n + 1 < |actions| {
      assert actions[..n + 1][1..] == actions[1..][..n];
    }
  }

  /** Over every run that draws no id of a loose command, a command has an outcome exactly when some callback gave it that. */
  lemma {:induction false} OutcomeDecides(l: Limits, c: Client, actions: seq<Action>, k: nat, outcome: Outcome)
    requires Inv(l, c) && DrawsOnlyFree(l, c, actions) && l.maxBacklog > 0
    ensures Has(Run(l, c, actions), k, outcome) <==> Has(c, k, outcome) || exists n: nat :: EndsAt(l, c, actions, n, k, outcome)
    decreases |actions|
  {
    if actions != [] {
      var next := Step(l, c, actions[0]);
      StepKeeps(l, c, actions[0]);
      OutcomeDecides(l, next, actions[1..], k, outcome);
      HasStep(l, c, actions[0], k, outcome);
      assert actions[..0] == [];
      assert EndsAt(l, c, actions, 0, k, outcome) <==> EndsIn(l, c, actions[0], k, outcome);
      if n: nat :| EndsAt(l, c, actions, n, k, outcome) {
        if n > 0 { EndsAtLater(l, c, actions, n - 1, k, outcome); }
      }
      if n: nat :| EndsAt(l, next, actions[1..], n, k, outcome) {
        EndsAtLater(l, c, actions, n, k, outcome);
      }
    }
  }

  /** The callback is a completion of the command's own id, name and version, on an open connection, while it is pending. */
  predicate CompletedBy(c: Client, a: Action, k: nat) {
    && a.Completion? && Pending(c, k) && c.connected
    && a.id == c.commands[k].id && a.name == c.commands[k].name && a.version == c.commands[k].version
  }

  lemma CompletesIn(l: Limits, c: Client, a: Action, k: nat)
    ensures EndsIn(l, c, a, k, Outcome.Completed) <==> CompletedBy(c, a, k)
  {}

  /** Over every such run, a command is completed exactly when a completion of it arrived while it was pending. */
  lemma CompletionDecides(l: Limits, actions: seq<Action>, k: nat)
    requires DrawsOnlyFree(l, START, actions) && l.maxBacklog > 0
    ensures Has(Run(l, START, actions), k, Outcome.Completed) <==>
      exists n: nat :: n < |actions| && CompletedBy(Run(l, START, actions[..n]), actions[n], k)
  {
    OutcomeDecides(l, START, actions, k, Outcome.Completed);
    forall n: nat | n < |actions|
      ensures EndsAt(l, START, actions, n, k, Outcome.Completed) <==> CompletedBy(Run(l, START, actions[..n]), actions[n], k)
    {
      CompletesIn(l, Run(l, START, actions[..n]), actions[n], k);
    }
  }

  /** The callbacks a failure can come from. */
  predicate CanCause(a: Action, code: ErrorCode) {
    match code
    case Aborted => a.Abort? || a.Proceed? || (a.Execute? && a.request.aborted)
    case AcknowledgeRejected => a.Acknowledge? && a.rejected
    case ClientClosed => a.Close? || (a.ConnectFails? && a.closed)
    case ConnectionFailed => a.Proceed? || (a.ConnectFails? && !a.closed)
    case ConnectionLost => a.SocketLost?
    case DeadlineExceeded => a.Timeout? || a.Proceed?
    case ProtocolError => a.BadMessage? || a.Acknowledge? || a.Completion?
    case SendFailed => a.Proceed? && a.sendFails
  }

  lemma CauseIn(l: Limits, c: Client, a: Action, k: nat, outcome: Outcome)
    requires EndsIn(l, c, a, k, outcome) && outcome.Failed?
    ensures CanCause(a, outcome.code)
  {}

  /** Over every such run, each failure goes back to a callback that can cause it, and that ended the command so. */
  lemma FailureDecides(l: Limits, actions: seq<Action>, k: nat, outcome: Outcome)
    requires DrawsOnlyFree(l, START, actions) && l.maxBacklog > 0
    requires Has(Run(l, START, actions), k, outcome) && outcome.Failed?
    ensures exists n: nat :: EndsAt(l, START, actions, n, k, outcome) && CanCause(actions[n], outcome.code)
  {
    OutcomeDecides(l, START, actions, k, outcome);
    var n: nat :| EndsAt(l, START, actions, n, k, outcome);
    CauseIn(l, Run(l, START, actions[..n]), actions[n], k, outcome);
  }

  ghost predicate SentAt(l: Limits, c: Client, actions: seq<Action>, n: nat, k: nat) {
    n < |actions| && SentBy(Run(l, c, actions[..n]), actions[n], k)
  }

  ghost predicate IsSent(c: Client, k: nat) {
    k < |c.commands| && c.commands[k].sent
  }

  lemma SentStep(l: Limits, c: Client, a: Action, k: nat)
    requires Inv(l, c)
    ensures IsSent(Step(l, c, a), k) <==> IsSent(c, k) || SentBy(c, a, k)
  {
    if k < |c.commands| { StepAfter(l, c, a, k); }
    AppendsExact(l, c, a);
    SentFrom(l, c, a, Step(l, c, a), k);
  }

  lemma SentFrom(l: Limits, c: Client, a: Action, c': Client, k: nat)
    requires AppendsOnly(l, c, a, c') && (k < |c.commands| ==> k < |c'.commands| && c'.commands[k] == After(c, a, k))
    ensures IsSent(c', k) <==> IsSent(c, k) || SentBy(c, a, k)
  {
    if |c.commands| <= k < |c'.commands| { AppendedUnsent(l, c, a, c'.commands[k]); }
  }

  lemma AppendedUnsent(l: Limits, c: Client, a: Action, cmd: Command)
    requires Appends(l, c, a, cmd)
    ensures !cmd.sent
  {}

  lemma SentAtLater(l: Limits, c: Client, actions: seq<Action>, n: nat, k: nat)
    requires actions != []
    ensures SentAt(l, c, actions, n + 1, k) <==> SentAt(l, Step(l, c, actions[0]), actions[1..], n, k)
  {
    if n + 1 < |actions| { assert actions[..n + 1][1..] == actions[1..][..n]; }
  }

  /** Over every such run, a command was sent exactly when its send went on while it was pending, in time, unsignalled, connected, and the socket took it. */
  lemma {:induction false} SendDecides(l: Limits, c: Client, actions: seq<Action>, k: nat)
    requires Inv(l, c) && DrawsOnlyFree(l, c, actions) && l.maxBacklog > 0
    ensures IsSent(Run(l, c, actions), k) <==> IsSent(c, k) || exists n: nat :: SentAt(l, c, actions, n, k)
    decreases |actions|
  {
    if actions != [] {
      var next := Step(l, c, actions[0]);
      StepKeeps(l, c, actions[0]);
      SendDecides(l, next, actions[1..], k);
      SentStep(l, c, actions[0], k);
      assert actions[..0] == [];
      assert SentAt(l, c, actions, 0, k) <==> SentBy(c, actions[0], k);
      if n: nat :| SentAt(l, c, actions, n, k) {
        if n > 0 { SentAtLater(l, c, actions, n - 1, k); }
      }
      if n: nat :| SentAt(l, next, actions[1..], n, k) {
        SentAtLater(l, c, actions, n, k);
      }
    }
  }

  // ----- connection and events -----

  lemma EndKeepsLink(l: Limits, c: Client, id: nat, code: ErrorCode, cancelId: nat)
    ensures var c' := EndById(l, c, id, code, cancelId); c'.connected == c.connected && c'.disposed == c.disposed
  {}

  /** When the client is connected and when it is closed. */
  lemma ConnectionExact(l: Limits, c: Client, a: Action)
    ensures var c' := Step(l, c, a);
      && (c'.connected <==> if a.SocketOpens? then c.connected || !c.disposed else c.connected && !a.SocketLost? && !a.BadMessage? && !(a.Close? && !c.disposed))
      && (c'.disposed <==> c.disposed || a.Close?)
  {
    match a
    case Timeout(j, cancelId) =>
      if j < |c.commands| { EndKeepsLink(l, c.(expired := c.expired + {j}), c.commands[j].id, DeadlineExceeded, cancelId); }
    case Abort(j, cancelId) =>
      if j < |c.commands| { EndKeepsLink(l, c.(signalled := c.signalled + {j}), c.commands[j].id, ErrorCode.Aborted, cancelId); }
    case Proceed(j, _, _, _, cancelId) =>
      if j < |c.commands| {
        EndKeepsLink(l, StopWaiting(c, j), c.commands[j].id, ErrorCode.Aborted, cancelId);
        EndKeepsLink(l, StopWaiting(c, j), c.commands[j].id, DeadlineExceeded, cancelId);
      }
    case _ =>
  }

  lemma EndKeepsEvents(l: Limits, c: Client, id: nat, code: ErrorCode, cancelId: nat)
    ensures EndById(l, c, id, code, cancelId).routed == c.routed
  {}

  lemma CommandsKeepEvents(l: Limits, c: Client, a: Action)
    requires a.Timeout? || a.Abort? || a.Proceed?
    ensures Step(l, c, a).routed == c.routed
  {
    if a.k < |c.commands| {
      var id := c.commands[a.k].id;
      if a.Timeout? {
        EndKeepsEvents(l, c.(expired := c.expired + {a.k}), id, DeadlineExceeded, a.cancelId);
      } else if a.Abort? {
        EndKeepsEvents(l, c.(signalled := c.signalled + {a.k}), id, ErrorCode.Aborted, a.cancelId);
      } else {
        EndKeepsEvents(l, StopWaiting(c, a.k), id, ErrorCode.Aborted, a.cancelId);
        EndKeepsEvents(l, StopWaiting(c, a.k), id, DeadlineExceeded, a.cancelId);
      }
    }
  }

  /** Events that arrive on an open connection are routed in order: solicited ones to the pending command of their id, if there is one. */
  lemma RoutedExact(l: Limits, c: Client, a: Action)
    requires Inv(l, c)
    ensures var c' := Step(l, c, a);
      c'.routed ==
        if a.Drain? || (a.Close? && !c.disposed) then []
        else if a.DeviceEvent? && c.connected then
          c.routed + [RoutedEvent(a.text,
            if a.unsolicited then Unsolicited
            else if exists k: nat :: Pending(c, k) && a.of == Some(c.commands[k].id) then OfPending
            else Orphan)]
        else c.routed
  {
    if a.DeviceEvent? {
      if a.of.Some? { IdPending(l, c, a.of.value); }
    } else if a.Timeout? || a.Abort? || a.Proceed? {
      CommandsKeepEvents(l, c, a);
    }
  }
}
