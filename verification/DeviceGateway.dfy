/**
 * One device command over a WebSocket: the exchange with its timers and listeners,
 * the gateway client, the adapter call with its own timer, and the cash module that
 * journals the result. Events arrive in any order.
 */
module DeviceGateway {
  import opened Prelude

  datatype Recovery = SafeRetry | ManualReconciliation | OperatorReview

  datatype Phase = Connect | Response | Protocol

  datatype ReplyCode =
    | AdapterOutcomeUnknown
    | DeviceOutcomeUnknown
    | DeviceGatewayUnavailable
    | OtherCode(text: string)

  /** A reply as the client parses it; the last three are its details. */
  datatype Reply = Reply(
    ok: bool,
    code: ReplyCode,
    requestSent: bool,
    recovery: Option<Recovery>,
    requiresReconciliation: bool)

  datatype Policy = Policy(indeterminate: set<string>, nonIdempotent: set<string>)

  /** The two cash operations, and the command name each is bound to. */
  datatype Operation = Dispense | Accept

  datatype Config = Config(operation: Operation, command: string, policy: Policy)

  // ----- what an interrupted exchange reports -----

  function RecoveryFor(c: Config, sent: bool, phase: Phase): Recovery {
    if !sent then SafeRetry
    else if c.command in c.policy.indeterminate then ManualReconciliation
    else if phase.Protocol? then OperatorReview
    else if c.command in c.policy.nonIdempotent then OperatorReview
    else SafeRetry
  }

  function RecoveryReply(c: Config, sent: bool, phase: Phase): Reply {
    var recovery := RecoveryFor(c, sent, phase);
    Reply(
      false,
      if recovery.ManualReconciliation? then AdapterOutcomeUnknown
      else if recovery.OperatorReview? then DeviceOutcomeUnknown
      else DeviceGatewayUnavailable,
      sent,
      Some(recovery),
      recovery.ManualReconciliation?)
  }

  /** The reply to a cash command that says: sent, and the outcome is unknown. */
  predicate Indeterminate(r: Reply) {
    && !r.ok && r.requestSent && r.code.AdapterOutcomeUnknown?
    && r.recovery == Some(ManualReconciliation) && r.requiresReconciliation
  }

  // ----- the exchange -----

  datatype Settled = Resolved(reply: Reply) | Rejected

  datatype Exchange = Exchange(
    created: bool,
    sent: bool,
    sends: nat,
    settled: Option<Settled>,
    connectTimer: bool,
    responseTimer: bool)

  /** What a message turns out to be. A valid one carries this request's id. */
  datatype Message = NotText | TooLarge | NotJson | WrongSchema | Valid(reply: Reply)

  datatype SocketEvent =
    | Create(late: bool, fails: bool)
    | Open(late: bool, protocolAllowed: bool, sendFails: bool)
    | Arrive(late: bool, message: Message)
    | SocketError
    | SocketClose
    | ConnectTimeout
    | ResponseTimeout
    | Abort

  const IDLE := Exchange(false, false, 0, None, false, false)

  function Settle(x: Exchange, result: Settled): Exchange {
    if x.settled.Some? then x
    else x.(settled := Some(result), connectTimer := false, responseTimer := false)
  }

  function Recover(c: Config, x: Exchange, phase: Phase): Exchange {
    Settle(x, Resolved(RecoveryReply(c, x.sent, phase)))
  }

  function OnAbort(c: Config, x: Exchange): Exchange {
    if x.sent && !RecoveryFor(c, true, Response).SafeRetry? then Recover(c, x, Response) else Settle(x, Rejected)
  }

  function OnOpen(c: Config, x: Exchange, aborted: bool, e: SocketEvent): Exchange
    requires e.Open?
  {
    if x.settled.Some? || x.sent then x
    else
      var ready := x.(connectTimer := false);
      if aborted then OnAbort(c, ready)
      else if e.late then Recover(c, ready, Connect)
      else if !e.protocolAllowed then Recover(c, ready, Protocol)
      else if e.sendFails then Recover(c, ready, Connect)
      else ready.(sent := true, sends := x.sends + 1, responseTimer := true)
  }

  function OnMessage(c: Config, x: Exchange, e: SocketEvent): Exchange
    requires e.Arrive?
  {
    if x.settled.Some? || !x.sent then x
    else if e.late then Recover(c, x, Response)
    else if e.message.Valid? then Settle(x, Resolved(e.message.reply))
    else Recover(c, x, Protocol)
  }

  function ExchangeStep(c: Config, x: Exchange, aborted: bool, e: SocketEvent): Exchange {
    match e
    case Create(late, fails) =>
      if x.created || x.settled.Some? then x
      else if aborted then Settle(x, Rejected)
      else if late || fails then Recover(c, x, Connect)
      else x.(created := true, connectTimer := true)
    case Open(_, _, _) => if x.created then OnOpen(c, x, aborted, e) else x
    case Arrive(_, _) => if x.created then OnMessage(c, x, e) else x
    case SocketError => if x.created then Recover(c, x, if x.sent then Response else Connect) else x
    case SocketClose => if x.created then Recover(c, x, if x.sent then Response else Connect) else x
    case ConnectTimeout => if x.connectTimer then Recover(c, x, Connect) else x
    case ResponseTimeout => if x.responseTimer then Recover(c, x, Response) else x
    case Abort => if x.created then OnAbort(c, x) else x
  }

  /** The exchange as an object whose callbacks change its flags. */
  class WebSocketExchange {
    const config: Config
    var created: bool
    var sent: bool
    ghost var sends: nat
    var settled: Option<Settled>
    var connectTimer: bool
    var responseTimer: bool

    ghost function Abs(): Exchange
      reads this
    {
      Exchange(created, sent, sends, settled, connectTimer, responseTimer)
    }

    constructor (config: Config)
      ensures Abs() == IDLE && this.config == config
    {
      this.config := config;
      created, sent, sends, settled, connectTimer, responseTimer := false, false, 0, None, false, false;
    }

    method Finish(result: Settled)
      modifies this
      ensures Abs() == Settle(old(Abs()), result)
    {
      if settled.Some? { return; }
      settled := Some(result);
      connectTimer, responseTimer := false, false;
    }

    method RecoverFrom(phase: Phase)
      modifies this
      ensures Abs() == Recover(config, old(Abs()), phase)
    {
      Finish(Resolved(RecoveryReply(config, sent, phase)));
    }

    method AbortSignalled()
      modifies this
      ensures Abs() == OnAbort(config, old(Abs()))
    {
      if sent && RecoveryFor(config, true, Response) != SafeRetry {
        RecoverFrom(Response);
        return;
      }
      Finish(Rejected);
    }

    method Opened(aborted: bool, late: bool, protocolAllowed: bool, sendFails: bool)
      modifies this
      ensures Abs() == OnOpen(config, old(Abs()), aborted, Open(late, protocolAllowed, sendFails))
    {
      if settled.Some? || sent { return; }
      connectTimer := false;
      if aborted {
        AbortSignalled();
        return;
      }
      if late {
        RecoverFrom(Connect);
        return;
      }
      if !protocolAllowed {
        RecoverFrom(Protocol);
        return;
      }
      if sendFails {
        RecoverFrom(Connect);
        return;
      }
      sends := sends + 1;
      sent := true;
      responseTimer := true;
    }

    method MessageArrived(late: bool, message: Message)
      modifies this
      ensures Abs() == OnMessage(config, old(Abs()), Arrive(late, message))
    {
      if settled.Some? || !sent { return; }
      if late {
        RecoverFrom(Response);
        return;
      }
      match message
      case Valid(reply) => Finish(Resolved(reply));
      case _ => RecoverFrom(Protocol);
    }

    /** Creating the socket arms the connect timer; an aborted, late or failed creation settles at once. */
    method CreateSocket(aborted: bool, late: bool, fails: bool)
      requires !created && settled.None?
      modifies this
      ensures Abs() == ExchangeStep(config, old(Abs()), aborted, Create(late, fails))
    {
      if aborted {
        Finish(Rejected);
        return;
      }
      if late || fails {
        RecoverFrom(Connect);
        return;
      }
      created, connectTimer := true, true;
    }

    /** The callback an event invokes; only a created socket and an armed timer have one. */
    method Dispatch(e: SocketEvent, aborted: bool)
      requires !e.Create?
      modifies this
      ensures Abs() == ExchangeStep(config, old(Abs()), aborted, e)
    {
      match e
      case ConnectTimeout => if connectTimer { RecoverFrom(Connect); }
      case ResponseTimeout => if responseTimer { RecoverFrom(Response); }
      case Open(late, protocolAllowed, sendFails) => if created { Opened(aborted, late, protocolAllowed, sendFails); }
      case Arrive(late, message) => if created { MessageArrived(late, message); }
      case Abort => if created { AbortSignalled(); }
      case SocketError => if created { RecoverFrom(if sent then Response else Connect); }
      case SocketClose => if created { RecoverFrom(if sent then Response else Connect); }
    }
  }

  // ----- the whole call -----

  datatype CallResult = Returned(reply: Reply) | Threw

  datatype Entry = Completed | Failed | ReconciliationRequired

  /**
   * `answer`: the valid reply to this request that was taken in time. `ended`: the socket
   * event that settled the exchange, and whether the signal had aborted before it. `delivered`: the
   * settled exchange has reached the client, and whether the signal had aborted by then.
   * `timedOut`: the call's own timer fired first. `moved` counts the debits or credits
   * the module made.
   */
  datatype System = System(
    exchange: Exchange,
    aborted: bool,
    answer: Option<Reply>,
    ended: Option<Ending>,
    timedOut: bool,
    call: Option<CallResult>,
    delivered: Option<bool>,
    resumed: bool,
    journal: seq<Entry>,
    moved: nat)

  datatype Ending = Ending(event: SocketEvent, aborted: bool)

  datatype Event =
    | Socket(e: SocketEvent)
    | Deliver
    | CallTimeout
    | Resume

  const START := System(IDLE, false, None, None, false, None, None, false, [], 0)

  /** What `callAdapter` resolves with when its own timer fires. */
  const UNKNOWN_OUTCOME := Reply(false, AdapterOutcomeUnknown, false, None, true)

  /** The client: parse, and heed the signal unless the reply already says the outcome is unknown. */
  function Execute(settled: Settled, aborted: bool): CallResult {
    match settled
    case Rejected => Threw
    case Resolved(reply) => if !Indeterminate(reply) && aborted then Threw else Returned(reply)
  }

  /** The cash module after its adapter call. */
  function Conclude(s: System, result: CallResult): System {
    match result
    case Threw => s
    case Returned(reply) =>
      if reply.ok then s.(journal := s.journal + [Completed], moved := s.moved + 1)
      else if reply.code.AdapterOutcomeUnknown? then s.(journal := s.journal + [ReconciliationRequired])
      else s.(journal := s.journal + [Failed])
  }

  function Step(c: Config, s: System, e: Event): System {
    match e
    case Socket(e) =>
      s.(exchange := ExchangeStep(c, s.exchange, s.aborted, e),
         aborted := s.aborted || e.Abort?,
         ended := if s.exchange.settled.None? && ExchangeStep(c, s.exchange, s.aborted, e).settled.Some? then Some(Ending(e, s.aborted)) else s.ended,
         answer := if Answers(s.exchange, e) then Some(e.message.reply) else s.answer)
    case Deliver =>
      if s.exchange.settled.None? || s.delivered.Some? then s
      else s.(delivered := Some(s.aborted), call := if s.call.None? then Some(Execute(s.exchange.settled.value, s.aborted)) else s.call)
    case CallTimeout => if s.call.None? then s.(call := Some(Returned(UNKNOWN_OUTCOME)), timedOut := true) else s
    case Resume => if s.call.None? || s.resumed then s else Conclude(s, s.call.value).(resumed := true)
  }

  function Run(c: Config, s: System, events: seq<Event>): System
    decreases |events|
  {
    if events == [] then s else Run(c, Step(c, s, events[0]), events[1..])
  }

  // ----- what every run keeps -----

  predicate Unknown(r: Reply) { !r.ok && r.code.AdapterOutcomeUnknown? }

  /** Sent at most once, and the flags agree. */
  ghost predicate Shape(s: System) {
    && s.exchange.sends == (if s.exchange.sent then 1 else 0)
    && (s.exchange.sent ==> s.exchange.created)
    && (s.answer.Some? ==> s.exchange.sent && s.exchange.settled == Some(Resolved(s.answer.value)))
    && (s.resumed ==> s.call.Some?)
    && (!s.resumed ==> s.journal == [] && s.moved == 0)
    && (s.resumed ==> s.journal == Conclude(START, s.call.value).journal && s.moved == Conclude(START, s.call.value).moved)
  }

  /** Without an answer nothing is ok, whatever the command. */
  ghost predicate NoFalseSuccess(s: System) {
    s.answer.None? ==>
      && (s.exchange.settled.Some? && s.exchange.settled.value.Resolved? ==> !s.exchange.settled.value.reply.ok)
      && (s.call.Some? && s.call.value.Returned? ==> !s.call.value.reply.ok)
  }

  /** With the command in the indeterminate set: sent and unanswered is reported as unknown everywhere. */
  ghost predicate UncertainKept(s: System) {
    s.exchange.sent && s.answer.None? ==>
      && (s.exchange.settled.Some? ==> s.exchange.settled.value.Resolved? && Indeterminate(s.exchange.settled.value.reply))
      && (s.call.Some? ==> s.call.value.Returned? && Unknown(s.call.value.reply))
  }

  /** The call concludes with whichever comes first: its own timer, or what the settled exchange makes of it. */
  ghost predicate CallExact(s: System) {
    && (s.timedOut ==> s.call == Some(Returned(UNKNOWN_OUTCOME)))
    && (s.delivered.Some? ==> s.call.Some? && s.exchange.settled.Some?)
    && (s.call.Some? && !s.timedOut ==>
          s.delivered.Some? && s.call.value == Execute(s.exchange.settled.value, s.delivered.value))
  }

  /** A message that is not a valid reply. */
  predicate Garbles(e: SocketEvent) { e.Arrive? && !e.late && !e.message.Valid? }

  /** What the client is told to do about an exchange that ended without an answer. */
  predicate Advises(c: Config, sent: bool, ended: SocketEvent, recovery: Recovery) {
    match recovery
    case ManualReconciliation => sent && c.command in c.policy.indeterminate
    case OperatorReview =>
      sent && c.command !in c.policy.indeterminate && (Garbles(ended) || c.command in c.policy.nonIdempotent)
    case SafeRetry =>
      !sent || (c.command !in c.policy.indeterminate && !Garbles(ended) && c.command !in c.policy.nonIdempotent)
  }

  predicate Tells(c: Config, sent: bool, ended: Ending, recovery: Recovery) {
    Advises(c, sent, ended.event, recovery)
  }

  /** The signal ended it: it aborted just then, or had before the socket was created or opened. */
  predicate EndedByAbort(ended: Ending) {
    ended.event.Abort? || (ended.aborted && (ended.event.Create? || ended.event.Open?))
  }

  /** A reply that carries this advice, and nothing of a device. */
  predicate Carries(r: Reply, sent: bool, recovery: Recovery) {
    && !r.ok && r.requestSent == sent && r.recovery == Some(recovery)
    && (r.requiresReconciliation <==> recovery.ManualReconciliation?)
    && r.code == match recovery
         case ManualReconciliation => AdapterOutcomeUnknown
         case OperatorReview => DeviceOutcomeUnknown
         case SafeRetry => DeviceGatewayUnavailable
  }

  /** How an exchange that ended without an answer settles: with its advice, or not at all when it was aborted and may be repeated. */
  ghost predicate UnansweredExact(c: Config, s: System) {
    && (s.ended.Some? <==> s.exchange.settled.Some?)
    && (s.exchange.settled.Some? && s.answer.None? ==>
          match s.exchange.settled.value
          case Resolved(r) => exists recovery :: Tells(c, s.exchange.sent, s.ended.value, recovery) && Carries(r, s.exchange.sent, recovery)
          case Rejected => Tells(c, s.exchange.sent, s.ended.value, SafeRetry))
    && (s.exchange.settled.Some? && s.answer.None? ==>
          (s.exchange.settled.value.Rejected? <==> EndedByAbort(s.ended.value) && Tells(c, s.exchange.sent, s.ended.value, SafeRetry)))
  }

  /** The timer armed while unsettled is the one for what is being waited for. */
  ghost predicate TimersExact(x: Exchange) {
    && (x.connectTimer <==> x.settled.None? && x.created && !x.sent)
    && (x.responseTimer <==> x.settled.None? && x.sent)
  }

  ghost predicate Inv(c: Config, s: System) {
    UnansweredExact(c, s) && TimersExact(s.exchange) && Shape(s) && NoFalseSuccess(s) && CallExact(s) && (c.command in c.policy.indeterminate ==> UncertainKept(s))
  }

  /** A socket event takes a valid reply in time, from an exchange that waits for it. */
  predicate Answers(x: Exchange, e: SocketEvent) {
    e.Arrive? && !e.late && e.message.Valid? && x.created && x.sent && x.settled.None?
  }

  /** A socket event sends the request: the socket opens in time, as agreed, and takes it. */
  predicate Sends(x: Exchange, aborted: bool, e: SocketEvent) {
    && e.Open? && x.created && !x.sent && x.settled.None?
    && !aborted && !e.late && e.protocolAllowed && !e.sendFails
  }

  /** A socket event ends an exchange that has not settled. */
  predicate Ends(x: Exchange, aborted: bool, e: SocketEvent) {
    x.settled.None? &&
    match e
    case Create(late, fails) => !x.created && (aborted || late || fails)
    case Open(late, allowed, fails) => x.created && !x.sent && (aborted || late || !allowed || fails)
    case Arrive(_, _) => x.created && x.sent
    case ConnectTimeout => x.created && !x.sent
    case ResponseTimeout => x.created && x.sent
    case _ => x.created
  }

  /** What one callback does to the exchange. */
  lemma ExchangeKeeps(c: Config, x: Exchange, aborted: bool, e: SocketEvent)
    requires x.sends == (if x.sent then 1 else 0) && (x.sent ==> x.created)
    ensures var x' := ExchangeStep(c, x, aborted, e);
      && x'.sends == (if x'.sent then 1 else 0) && (x'.sent ==> x'.created) && (x.sent ==> x'.sent)
      && (x.settled.Some? ==> x' == x)
      && (!x.sent && x'.sent <==> Sends(x, aborted, e))
      && (TimersExact(x) ==> TimersExact(x') && (x.settled.None? && x'.settled.Some? <==> Ends(x, aborted, e)))
      && (Answers(x, e) ==> x'.settled == Some(Resolved(e.message.reply)))
      && (x.settled.None? && x'.settled.Some? && !Answers(x, e) ==>
            && x'.sent == x.sent
            && (x'.settled.value.Resolved? ==> !x'.settled.value.reply.ok)
            && (x.sent && c.command in c.policy.indeterminate ==>
                  x'.settled.value.Resolved? && Indeterminate(x'.settled.value.reply)))
  {}

  /** What an event that ends the exchange without an answer settles it with. */
  lemma EndExact(c: Config, x: Exchange, aborted: bool, e: SocketEvent)
    requires x.settled.None? && !Answers(x, e) && (x.sent ==> x.created)
    ensures var x' := ExchangeStep(c, x, aborted, e);
      x'.settled.Some? ==>
        match x'.settled.value
        case Resolved(r) => exists recovery :: Advises(c, x.sent, e, recovery) && Carries(r, x.sent, recovery)
        case Rejected => EndedByAbort(Ending(e, aborted)) && Advises(c, x.sent, e, SafeRetry)
    ensures var x' := ExchangeStep(c, x, aborted, e);
      x'.settled.Some? && EndedByAbort(Ending(e, aborted)) && Advises(c, x.sent, e, SafeRetry) ==> x'.settled.value.Rejected?
  {
    var x' := ExchangeStep(c, x, aborted, e);
    if x'.settled.Some? && x'.settled.value.Resolved? {
      var recovery := x'.settled.value.reply.recovery.value;
      assert Advises(c, x.sent, e, recovery) && Carries(x'.settled.value.reply, x.sent, recovery);
    }
  }

  lemma UnansweredKeeps(c: Config, s: System, e: SocketEvent)
    requires Shape(s) && UnansweredExact(c, s)
    ensures UnansweredExact(c, Step(c, s, Socket(e)))
  {
    ExchangeKeeps(c, s.exchange, s.aborted, e);
    if s.exchange.settled.None? && !Answers(s.exchange, e) {
      EndExact(c, s.exchange, s.aborted, e);
      var x' := ExchangeStep(c, s.exchange, s.aborted, e);
      if x'.settled.Some? && x'.settled.value.Resolved? {
        var recovery :| Advises(c, s.exchange.sent, e, recovery) && Carries(x'.settled.value.reply, s.exchange.sent, recovery);
        assert Tells(c, s.exchange.sent, Ending(e, s.aborted), recovery);
      }
    }
  }

  lemma SocketKeeps(c: Config, s: System, e: SocketEvent)
    requires Inv(c, s)
    ensures Inv(c, Step(c, s, Socket(e)))
  {
    UnansweredKeeps(c, s, e);
    ExchangeKeeps(c, s.exchange, s.aborted, e);
  }

  lemma CallKeeps(c: Config, s: System, e: Event)
    requires Inv(c, s) && (e.Deliver? || e.CallTimeout?)
    ensures Inv(c, Step(c, s, e))
  {}

  lemma ResumeKeeps(c: Config, s: System)
    requires Inv(c, s)
    ensures Inv(c, Step(c, s, Resume))
  {
    ResumeMoves(c, s);
    ResumeShape(c, s);
  }

  /** Resuming touches journal and booking alone. */
  lemma ResumeMoves(c: Config, s: System)
    ensures var s' := Step(c, s, Resume); s' == s.(journal := s'.journal, moved := s'.moved, resumed := s'.resumed)
  {}

  lemma ResumeShape(c: Config, s: System)
    requires Shape(s)
    ensures Shape(Step(c, s, Resume))
  {}

  lemma StepKeeps(c: Config, s: System, e: Event)
    requires Inv(c, s)
    ensures Inv(c, Step(c, s, e))
    ensures s.exchange.settled.Some? ==> Step(c, s, e).exchange == s.exchange
    ensures s.call.Some? ==> Step(c, s, e).call == s.call
    ensures s.resumed ==> Step(c, s, e).journal == s.journal && Step(c, s, e).moved == s.moved
  {
    if e.Socket? {
      SocketKeeps(c, s, e.e);
      ExchangeKeeps(c, s.exchange, s.aborted, e.e);
    } else if e.Resume? {
      ResumeKeeps(c, s);
    } else {
      CallKeeps(c, s, e);
    }
  }

  lemma {:induction false} RunKeeps(c: Config, s: System, events: seq<Event>)
    requires Inv(c, s)
    ensures Inv(c, Run(c, s, events))
    ensures s.exchange.settled.Some? ==> Run(c, s, events).exchange == s.exchange
    ensures s.call.Some? ==> Run(c, s, events).call == s.call
    ensures s.resumed ==> Run(c, s, events).journal == s.journal && Run(c, s, events).moved == s.moved
    decreases |events|
  {
    if events != [] {
      StepKeeps(c, s, events[0]);
      RunKeeps(c, Step(c, s, events[0]), events[1..]);
    }
  }

  /** Nothing but reconciliation: no completion, no plain failure, no money booked, no exception. */
  ghost predicate Reconciled(s: System) {
    && s.moved == 0
    && s.journal == (if s.resumed then [ReconciliationRequired] else [])
    && s.call != Some(Threw)
  }

  /**
   * Every run: the command is sent at most once, and without an answer in time no run
   * books money or journals a completion.
   */
  lemma NeverFalseSuccess(c: Config, events: seq<Event>)
    ensures var s := Run(c, START, events);
      && s.exchange.sends <= 1
      && (s.answer.None? ==> s.moved == 0 && Completed !in s.journal)
  {
    RunKeeps(c, START, events);
  }

  /** With the bound command in the indeterminate set, sent and unanswered always means reconciliation. */
  lemma UncertainReconciles(c: Config, events: seq<Event>)
    requires c.command in c.policy.indeterminate
    ensures var s := Run(c, START, events); s.exchange.sent && s.answer.None? ==> Reconciled(s)
  {
    RunKeeps(c, START, events);
  }

  /** The connection closes after the send, and the call carries on to the journal. */
  const CLOSED_AFTER_SEND: seq<Event> :=
    [Socket(Create(false, false)), Socket(Open(false, true, false)), Socket(SocketClose), Deliver, Resume]

  /** A command bound outside the set: cash may be out, yet the journal says plain failure. */
  lemma ReboundCommandFails(c: Config)
    requires c.command !in c.policy.indeterminate
    ensures var s := Run(c, START, CLOSED_AFTER_SEND);
      s.exchange.sent && s.answer.None? && s.journal == [Failed]
  {
    var a := Step(c, START, Socket(Create(false, false)));
    var b := Step(c, a, Socket(Open(false, true, false)));
    var d := Step(c, b, Socket(SocketClose));
    var f := Step(c, d, Deliver);
    FiveSteps(c, START, CLOSED_AFTER_SEND);
    assert Step(c, f, Resume).journal == [Failed];
  }

  lemma FiveSteps(c: Config, s: System, events: seq<Event>)
    requires |events| == 5
    ensures Run(c, s, events)
      == Step(c, Step(c, Step(c, Step(c, Step(c, s, events[0]), events[1]), events[2]), events[3]), events[4])
  {
    var a := Step(c, s, events[0]);
    var b := Step(c, a, events[1]);
    var d := Step(c, b, events[2]);
    var f := Step(c, d, events[3]);
    assert events[4..][1..] == [];
    assert Run(c, f, events[4..]) == Step(c, f, events[4]);
    assert Run(c, d, events[3..]) == Run(c, f, events[4..]);
    assert Run(c, b, events[2..]) == Run(c, d, events[3..]);
    assert Run(c, a, events[1..]) == Run(c, b, events[2..]);
  }

  /** The promise of reconciliation holds for a binding exactly when its command is in the set. */
  lemma ReconciliationDecides(c: Config)
    ensures c.command in c.policy.indeterminate <==>
      forall events :: Run(c, START, events).exchange.sent && Run(c, START, events).answer.None? ==>
        Reconciled(Run(c, START, events))
  {
    if c.command in c.policy.indeterminate {
      forall events | Run(c, START, events).exchange.sent && Run(c, START, events).answer.None?
        ensures Reconciled(Run(c, START, events))
      {
        UncertainReconciles(c, events);
      }
    } else {
      ReboundCommandFails(c);
    }
  }

  /** The reply that reports a sent request of unknown outcome; an aborted signal does not make the client throw it away. */
  const SENT_AND_UNKNOWN := Reply(false, AdapterOutcomeUnknown, true, Some(ManualReconciliation), true)

  /** What the journal makes of a reply. */
  function SaidBy(reply: Reply): Entry {
    if reply.ok then Entry.Completed else if Unknown(reply) then ReconciliationRequired else Entry.Failed
  }

  /**
   * Every run, once the module has gone on: the journal says reconciliation if the call's
   * own timer was first, nothing if the exchange rejected, or the signal had aborted by the
   * time the reply was delivered and the reply does not itself report an unknown outcome,
   * and otherwise exactly what the reply says. Money is booked iff that reply is ok.
   */
  lemma ResumeDecides(c: Config, events: seq<Event>)
    ensures var s := Run(c, START, events);
      s.resumed ==>
        if s.timedOut then s.journal == [ReconciliationRequired] && s.moved == 0
        else
          && s.delivered.Some? && s.exchange.settled.Some?
          && match s.exchange.settled.value
             case Rejected => s.journal == [] && s.moved == 0
             case Resolved(reply) =>
               if s.delivered.value && reply != SENT_AND_UNKNOWN then s.journal == [] && s.moved == 0
               else s.journal == [SaidBy(reply)] && s.moved == if reply.ok then 1 else 0
  {
    RunKeeps(c, START, events);
  }

  /**
   * Every run in which a valid reply was taken in time: the exchange settled with it,
   * whatever came before or after, after one send; delivering and resuming always get to
   * what `ResumeDecides` says of that reply.
   */
  lemma AnswerDecides(c: Config, events: seq<Event>)
    ensures var s := Run(c, START, events);
      s.answer.Some? ==>
        var reply := s.answer.value;
        && s.exchange.settled == Some(Resolved(reply)) && s.exchange.sends == 1
        && (s.resumed && !s.timedOut ==>
              && s.delivered.Some?
              && if s.delivered.value && reply != SENT_AND_UNKNOWN then s.journal == [] && s.moved == 0
                 else s.journal == [SaidBy(reply)] && s.moved == if reply.ok then 1 else 0)
        && Step(c, Step(c, s, Deliver), Resume).resumed
  {
    RunKeeps(c, START, events);
    ResumeDecides(c, events);
  }

  /**
   * Every run in which the exchange ended without an answer. Resolved, its reply carries
   * exactly one advice: manual reconciliation iff the request was sent under a command of
   * the indeterminate set; a review iff it was sent under another and a message was garbled
   * or the command is not idempotent; else a safe retry. It rejects exactly when the
   * signal ended it and it may be repeated.
   */
  lemma UnansweredDecides(c: Config, events: seq<Event>)
    ensures var s := Run(c, START, events);
      s.exchange.settled.Some? && s.answer.None? ==>
        && s.ended.Some?
        && match s.exchange.settled.value
           case Rejected => EndedByAbort(s.ended.value) && Tells(c, s.exchange.sent, s.ended.value, SafeRetry)
           case Resolved(reply) =>
             && !(EndedByAbort(s.ended.value) && Tells(c, s.exchange.sent, s.ended.value, SafeRetry))
             && reply.recovery.Some? && Carries(reply, s.exchange.sent, reply.recovery.value)
             && forall recovery :: Tells(c, s.exchange.sent, s.ended.value, recovery) <==> recovery == reply.recovery.value
  {
    RunKeeps(c, START, events);
    var s := Run(c, START, events);
    if s.exchange.settled.Some? { AdviceUnique(c, s); }
  }

  lemma AdviceUnique(c: Config, s: System)
    requires s.ended.Some?
    ensures forall a, b :: Tells(c, s.exchange.sent, s.ended.value, a) && Tells(c, s.exchange.sent, s.ended.value, b) ==> a == b
  {}

  /**
   * Every run in which nothing was sent: an exchange that resolves says so, safe to retry,
   * gateway unavailable; a module that goes on other than by its own timer books nothing
   * and journals a plain failure, or nothing when it threw.
   */
  lemma UnsentFailsPlainly(c: Config, events: seq<Event>)
    ensures var s := Run(c, START, events);
      !s.exchange.sent ==>
        && (s.exchange.settled.Some? && s.exchange.settled.value.Resolved? ==>
              s.exchange.settled.value.reply == Reply(false, DeviceGatewayUnavailable, false, Some(SafeRetry), false))
        && (s.resumed && !s.timedOut ==> s.moved == 0 && (s.journal == [] || s.journal == [Entry.Failed]))
        && (s.resumed && !s.timedOut ==> (s.journal == [] <==> s.call == Some(Threw)))
  {
    RunKeeps(c, START, events);
    ResumeDecides(c, events);
  }
}
