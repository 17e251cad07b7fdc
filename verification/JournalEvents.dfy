/** Runtime events as replay and recovery read them, and the issues replay raises. */
module JournalEvents {
  import opened Prelude

  datatype TransactionStatus = Started | Completed | Cancelled | Failed | ReconciliationRequired

  datatype Kind =
    | RuntimeStarted
    | FlowLoaded
    | FlowFailed
    | SessionStarted
    | TransactionSelected
    | Transaction(status: TransactionStatus)
    | AuthorizationRequested
    | AuthorizationResult
    | OtherEvent

  datatype Device = Acceptor | CardReader | Dispenser | ReceiptPrinter

  /** The codes recovery tells apart; `OtherCode` is any other non-empty text. */
  datatype FailureCode =
    | HostApproved
    | HostDeclined
    | HostUnavailable
    | DeviceOffline(device: Device)
    | DeviceUnavailable(device: Device)
    | OtherCode(text: string)

  /**
   * A validated event: `transaction` and `code` are the payload fields when they are
   * non-empty strings, `approved` whether an authorization result says yes.
   */
  datatype Event = Event(
    kind: Kind,
    session: Option<string>,
    number: int,
    time: int,
    fromRuntime: bool,
    transaction: Option<string>,
    code: Option<FailureCode>,
    approved: bool)

  datatype Severity = Error | Warning

  datatype Code =
    | EmptyLine | LineTooLarge | InvalidJson | InvalidEvent | LineLimit | EventLimit | IssueLimit
    | EmptyJournal | UnscopedEvent | NoSessions | RuntimeSessionMismatch | InvalidRuntimeAnchor | AnchorOrder
    | FrameLimit | AnchorMissing | SequenceStart | SessionMismatch | SequenceGap | TimestampReversed
    | OrphanResult | Overlapping | AmbiguousOutcome
    | SessionIncomplete | OpenTransaction | UnresolvedRequest

  datatype Issue = Issue(severity: Severity, code: Code)

  predicate NoError(issues: seq<Issue>) {
    forall i :: 0 <= i < |issues| ==> issues[i].severity.Warning?
  }

  lemma NoErrorAppend(a: seq<Issue>, b: seq<Issue>)
    ensures NoError(a + b) <==> NoError(a) && NoError(b)
  {
    assert a == (a + b)[..|a|] && b == (a + b)[|a|..];
    forall i | 0 <= i < |a| ensures (a + b)[i] == a[i] {}
    forall i | 0 <= i < |b| ensures (a + b)[|a| + i] == b[i] {}
  }

  function When(raised: bool, severity: Severity, code: Code): seq<Issue> {
    if raised then [Issue(severity, code)] else []
  }

  function Copies(n: nat, issue: Issue): (issues: seq<Issue>)
    ensures |issues| == n && forall i :: 0 <= i < n ==> issues[i] == issue
  {
    seq(n, _ => issue)
  }
}
