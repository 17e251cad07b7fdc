/**
 * Inspecting a whole journal under one shared, truncating issue budget: lines are
 * parsed, the journal's structure is checked, every session is replayed.
 */
module JournalInspection {
  import opened Prelude
  import opened JournalEvents
  import opened SessionReplay
  import M = SessionMeaning
  import Json
  import J = JournalLines

  /** A line as `JSON.parse` and event validation see it; a rejected event has at least one error. */
  datatype Reading = NotJson | Rejected(errors: nat) | Accepted(event: Event)

  type Reader = string -> Reading

  datatype Options = Options(
    mode: Mode,
    includeFrames: bool,
    maxFileBytes: nat,
    maxLineBytes: nat,
    maxEvents: nat,
    maxFrames: nat,
    maxLines: nat,
    maxIssues: nat)

  predicate PositiveLimits(o: Options) {
    && o.maxFileBytes > 0 && o.maxLineBytes > 0 && o.maxEvents > 0
    && o.maxFrames > 0 && o.maxLines > 0 && o.maxIssues > 0
  }

  datatype Entry = Entry(line: nat, event: Event)

  // ----- lines -----

  /** White space as String.prototype.trim removes it. */
  predicate IsSpace(c: char) {
    var n := c as int;
    9 <= n <= 13 || n == 32 || n == 0xA0 || n == 0x1680 || 0x2000 <= n <= 0x200A
    || n == 0x2028 || n == 0x2029 || n == 0x202F || n == 0x205F || n == 0x3000 || n == 0xFEFF
  }

  predicate Blank(line: string) {
    forall i :: 0 <= i < |line| ==> IsSpace(line[i])
  }

  function LineIssues(read: Reader, o: Options, line: string): seq<Issue> {
    if Blank(line) then [Issue(Warning, EmptyLine)]
    else if Json.ByteLength(line) > o.maxLineBytes then [Issue(Error, LineTooLarge)]
    else
      match read(line)
      case NotJson => [Issue(Error, InvalidJson)]
      case Rejected(n) => Copies(if n == 0 then 1 else n, Issue(Error, InvalidEvent))
      case Accepted(_) => []
  }

  predicate HoldsEvent(read: Reader, o: Options, line: string) {
    !Blank(line) && Json.ByteLength(line) <= o.maxLineBytes && read(line).Accepted?
  }

  function ParseIssues(read: Reader, o: Options, lines: seq<string>): seq<Issue> {
    if lines == [] then []
    else ParseIssues(read, o, lines[..|lines| - 1]) + LineIssues(read, o, lines[|lines| - 1])
  }

  /** The accepted events with their line numbers, counted from 1. */
  function Entries(read: Reader, o: Options, lines: seq<string>): seq<Entry> {
    if lines == [] then []
    else
      var line := lines[|lines| - 1];
      Entries(read, o, lines[..|lines| - 1])
        + if HoldsEvent(read, o, line) then [Entry(|lines|, read(line).event)] else []
  }

  /** No limit stops the parsing loop before the last line. */
  ghost predicate Fits(read: Reader, o: Options, lines: seq<string>) {
    && |lines| <= o.maxLines
    && |Entries(read, o, lines)| <= o.maxEvents
    && |ParseIssues(read, o, lines)| <= o.maxIssues
    && forall n :: 0 <= n < |lines| ==> |ParseIssues(read, o, lines[..n])| < o.maxIssues
  }

  // ----- structure -----

  function Unscoped(entries: seq<Entry>): seq<Entry> {
    if entries == [] then []
    else
      var last := entries[|entries| - 1];
      Unscoped(entries[..|entries| - 1]) + if last.event.session.None? then [last] else []
  }

  function RuntimeStarts(entries: seq<Entry>): seq<Entry> {
    if entries == [] then []
    else
      var last := entries[|entries| - 1];
      RuntimeStarts(entries[..|entries| - 1])
        + if last.event.session.None? && last.event.kind.RuntimeStarted? then [last] else []
  }

  /** The sessions, in order of first appearance. */
  function Sessions(entries: seq<Entry>): seq<string> {
    if entries == [] then []
    else
      var before := Sessions(entries[..|entries| - 1]);
      var session := entries[|entries| - 1].event.session;
      if session.Some? && session.value !in before then before + [session.value] else before
  }

  function Scoped(entries: seq<Entry>, id: string): seq<Entry> {
    if entries == [] then []
    else
      var last := entries[|entries| - 1];
      Scoped(entries[..|entries| - 1], id) + if last.event.session == Some(id) then [last] else []
  }

  function Events(entries: seq<Entry>): seq<Event> {
    seq(|entries|, i requires 0 <= i < |entries| => entries[i].event)
  }

  function UnscopedIssues(entries: seq<Entry>): seq<Issue> {
    if entries == [] then []
    else
      UnscopedIssues(entries[..|entries| - 1])
        + When(!entries[|entries| - 1].event.kind.RuntimeStarted?, Error, UnscopedEvent)
  }

  predicate GoodAnchor(e: Event) { e.number == 1 && e.fromRuntime }

  function StartIssues(starts: seq<Entry>, mode: Mode): seq<Issue> {
    if starts == [] then []
    else
      StartIssues(starts[..|starts| - 1], mode)
        + When(!GoodAnchor(starts[|starts| - 1].event), Completeness(mode), InvalidRuntimeAnchor)
  }

  /** The first `n` runtime starts against the first `n` session starts. */
  function OrderIssues(starts: seq<Entry>, firsts: seq<Entry>, n: nat, mode: Mode): seq<Issue>
    requires n <= |starts| && n <= |firsts|
  {
    if n == 0 then []
    else
      OrderIssues(starts, firsts, n - 1, mode)
        + When(starts[n - 1].line >= firsts[n - 1].line, Completeness(mode), AnchorOrder)
  }

  // ----- what these lists hold -----

  /** `part` lists what stands at the places `where`, each once and in order. */
  ghost predicate Picks(items: seq<Entry>, where: set<nat>, part: seq<Entry>) {
    exists at: seq<nat> :: PicksAt(items, where, part, at)
  }

  ghost predicate PicksAt(items: seq<Entry>, where: set<nat>, part: seq<Entry>, at: seq<nat>) {
    && |at| == |part|
    && (forall i: nat :: i in at <==> i in where)
    && (forall j, k :: 0 <= j < k < |at| ==> at[j] < at[k])
    && forall k :: 0 <= k < |at| ==> at[k] < |items| && part[k] == items[at[k]]
  }

  lemma PicksNext(items: seq<Entry>, where: set<nat>, part: seq<Entry>, chosen: bool)
    requires items != [] && Picks(items[..|items| - 1], where, part)
    ensures Picks(items, if chosen then where + {|items| - 1} else where, part + if chosen then [items[|items| - 1]] else [])
  {
    var n := |items| - 1;
    var at: seq<nat> :| PicksAt(items[..n], where, part, at);
    if chosen {
      assert forall i: nat :: i in at + [n] <==> i in at || i == n;
      assert PicksAt(items, where + {n}, part + [items[n]], at + [n]);
    } else {
      assert part + [] == part;
      assert PicksAt(items, where, part, at);
    }
  }

  lemma PicksNothing(where: set<nat>)
    requires where == {}
    ensures Picks([], where, [])
  {
    assert PicksAt([], where, [], []);
  }

  function PlacesOf(entries: seq<Entry>, id: string): set<nat> {
    set i: nat | i < |entries| && entries[i].event.session == Some(id)
  }

  function UnscopedPlaces(entries: seq<Entry>): set<nat> {
    set i: nat | i < |entries| && entries[i].event.session.None?
  }

  function StartPlaces(entries: seq<Entry>): set<nat> {
    set i: nat | i < |entries| && entries[i].event.session.None? && entries[i].event.kind.RuntimeStarted?
  }

  /** A session's group is exactly its events, in order. */
  lemma {:induction false} ScopedExact(entries: seq<Entry>, id: string)
    ensures Picks(entries, PlacesOf(entries, id), Scoped(entries, id))
  {
    if entries == [] {
      PicksNothing(PlacesOf(entries, id));
    } else {
      var front, last := entries[..|entries| - 1], entries[|entries| - 1];
      ScopedExact(front, id);
      var chosen := last.event.session == Some(id);
      PicksNext(entries, PlacesOf(front, id), Scoped(front, id), chosen);
      assert PlacesOf(entries, id) == if chosen then PlacesOf(front, id) + {|front|} else PlacesOf(front, id);
    }
  }

  lemma {:induction false} UnscopedExact(entries: seq<Entry>)
    ensures Picks(entries, UnscopedPlaces(entries), Unscoped(entries))
    ensures Picks(entries, StartPlaces(entries), RuntimeStarts(entries))
  {
    if entries == [] {
      PicksNothing(UnscopedPlaces(entries));
      PicksNothing(StartPlaces(entries));
    } else {
      var front, last := entries[..|entries| - 1], entries[|entries| - 1];
      UnscopedExact(front);
      var unscoped := last.event.session.None?;
      var start := unscoped && last.event.kind.RuntimeStarted?;
      PicksNext(entries, UnscopedPlaces(front), Unscoped(front), unscoped);
      PicksNext(entries, StartPlaces(front), RuntimeStarts(front), start);
      assert UnscopedPlaces(entries) == if unscoped then UnscopedPlaces(front) + {|front|} else UnscopedPlaces(front);
      assert StartPlaces(entries) == if start then StartPlaces(front) + {|front|} else StartPlaces(front);
    }
  }

  ghost predicate Appears(entries: seq<Entry>, id: string) {
    exists i :: 0 <= i < |entries| && entries[i].event.session == Some(id)
  }

  /** At some place the one has appeared and the other has not yet. */
  ghost predicate AppearsBefore(entries: seq<Entry>, a: string, b: string) {
    exists i :: 0 <= i < |entries| && entries[i].event.session == Some(a)
      && forall j :: 0 <= j <= i ==> entries[j].event.session != Some(b)
  }

  /** Every session once, in order of first appearance. */
  ghost predicate OrderOfAppearance(entries: seq<Entry>, ids: seq<string>) {
    && (forall id :: id in ids <==> Appears(entries, id))
    && forall i, j :: 0 <= i < j < |ids| ==> AppearsBefore(entries, ids[i], ids[j])
  }

  lemma AppearsStep(entries: seq<Entry>)
    requires entries != []
    ensures forall id :: Appears(entries, id) <==>
      Appears(entries[..|entries| - 1], id) || entries[|entries| - 1].event.session == Some(id)
  {
    var front := entries[..|entries| - 1];
    assert entries == front + [entries[|entries| - 1]];
    forall id | Appears(front, id) ensures Appears(entries, id) {
      var i :| 0 <= i < |front| && front[i].event.session == Some(id);
      assert entries[i].event.session == Some(id);
    }
  }

  lemma AppearsBeforeStays(entries: seq<Entry>, a: string, b: string)
    requires entries != []
    requires AppearsBefore(entries[..|entries| - 1], a, b)
    ensures AppearsBefore(entries, a, b)
  {
    var front := entries[..|entries| - 1];
    var i :| 0 <= i < |front| && front[i].event.session == Some(a) && forall j :: 0 <= j <= i ==> front[j].event.session != Some(b);
    assert entries[i].event.session == Some(a);
    assert forall j :: 0 <= j <= i ==> entries[j] == front[j];
  }

  lemma {:induction false} SessionsExact(entries: seq<Entry>)
    ensures OrderOfAppearance(entries, Sessions(entries))
  {
    if entries != [] {
      var front := entries[..|entries| - 1];
      SessionsExact(front);
      AppearsStep(entries);
      var ids := Sessions(entries);
      forall i, j | 0 <= i < j < |ids| ensures AppearsBefore(entries, ids[i], ids[j]) {
        if j == |Sessions(front)| {
          assert ids[j] !in Sessions(front) && ids[i] in Sessions(front);
          assert AppearsBefore(front, ids[i], ids[j]);
        }
        AppearsBeforeStays(entries, ids[i], ids[j]);
      }
    }
  }

  lemma {:induction false} ScopedNotEmpty(entries: seq<Entry>, id: string)
    ensures id in Sessions(entries) <==> Scoped(entries, id) != []
  {
    if entries != [] { ScopedNotEmpty(entries[..|entries| - 1], id); }
  }

  function FirstOf(entries: seq<Entry>, id: string): Entry
    requires id in Sessions(entries)
  {
    ScopedNotEmpty(entries, id);
    Scoped(entries, id)[0]
  }

  /** Each session's first entry. */
  function Firsts(entries: seq<Entry>): seq<Entry> {
    var ids := Sessions(entries);
    seq(|ids|, i requires 0 <= i < |ids| => FirstOf(entries, ids[i]))
  }

  function StructureIssues(entries: seq<Entry>, lineCount: nat, mode: Mode): seq<Issue> {
    var starts, firsts := RuntimeStarts(entries), Firsts(entries);
    CountIssues(Unscoped(entries), |starts|, |firsts|, lineCount, mode)
      + (StartIssues(starts, mode) + OrderIssues(starts, firsts, Min(|starts|, |firsts|), mode))
  }

  function CountIssues(unscoped: seq<Entry>, starts: nat, sessions: nat, lineCount: nat, mode: Mode): seq<Issue> {
    When(lineCount == 0, Completeness(mode), EmptyJournal)
      + UnscopedIssues(unscoped)
      + When(sessions == 0 && lineCount > 0, Completeness(mode), NoSessions)
      + When(starts != sessions, Completeness(mode), RuntimeSessionMismatch)
  }

  // ----- sessions -----

  /** Each session's events. */
  function Groups(entries: seq<Entry>): seq<seq<Event>> {
    var ids := Sessions(entries);
    seq(|ids|, i requires 0 <= i < |ids| => Events(Scoped(entries, ids[i])))
  }

  /** The frames left over before session `n`; a session that does not fit takes none. */
  function FramesLeft(groups: seq<seq<Event>>, o: Options, n: nat): nat
    requires n <= |groups|
  {
    if n == 0 then o.maxFrames
    else
      var before := FramesLeft(groups, o, n - 1);
      if o.includeFrames && |groups[n - 1]| <= before then before - |groups[n - 1]| else before
  }

  predicate FramesFit(groups: seq<seq<Event>>, o: Options, n: nat)
    requires n < |groups|
  {
    !o.includeFrames || |groups[n]| <= FramesLeft(groups, o, n)
  }

  /** What each session raises. */
  function SessionsRaise(ids: seq<string>, groups: seq<seq<Event>>, o: Options): seq<seq<Issue>>
    requires |ids| == |groups|
  {
    seq(|ids|, i requires 0 <= i < |ids| => SessionIssues(ids[i], groups[i], FramesFit(groups, o, i), true, o.mode))
  }

  function Flatten(parts: seq<seq<Issue>>): seq<Issue> {
    if parts == [] then [] else Flatten(parts[..|parts| - 1]) + parts[|parts| - 1]
  }

  /** Everything the journal raises when no limit interferes. */
  function JournalIssues(read: Reader, o: Options, lines: seq<string>): seq<Issue> {
    var entries := Entries(read, o, lines);
    ParseIssues(read, o, lines)
      + (StructureIssues(entries, |lines|, o.mode) + Flatten(SessionsRaise(Sessions(entries), Groups(entries), o)))
  }

  // ----- the ledger -----

  /** What is kept of a list too long: its beginning, and the word that it was cut. */
  function Overflowed(raised: seq<Issue>, max: nat): (kept: seq<Issue>)
    requires 0 < max <= |raised|
    ensures |kept| == max
  {
    raised[..max - 1] + [Issue(Error, IssueLimit)]
  }

  predicate TellsLimit(issue: Issue) {
    issue.severity.Error? && (issue.code.LineLimit? || issue.code.EventLimit? || issue.code.IssueLimit?)
  }

  ghost predicate LimitTold(issues: seq<Issue>) {
    exists i :: 0 <= i < |issues| && TellsLimit(issues[i])
  }

  /** The shared issue list. `raised` remembers what it was given until it overflowed. */
  class Ledger {
    const max: nat
    var issues: seq<Issue>
    var limitReached: bool
    var remaining: nat
    ghost var raised: seq<Issue>

    ghost predicate Valid()
      reads this
    {
      && 0 < max && |issues| <= max
      && if limitReached then max < |raised| && issues == Overflowed(raised, max) else issues == raised
    }

    /** Against all that was ever raised: equal so far, or overflowed somewhere inside it. */
    ghost predicate Follows(all: seq<Issue>)
      reads this
    {
      Valid() && if limitReached then raised <= all else raised == all
    }

    constructor (max: nat)
      requires max > 0
      ensures this.max == max && Follows([]) && !limitReached
    {
      this.max := max;
      issues, limitReached, remaining, raised := [], false, 0, [];
    }

    /** The parsing budget. */
    method AddParsing(incoming: seq<Issue>, ghost all: seq<Issue>)
      requires Follows(all)
      modifies this
      ensures Follows(all + incoming)
      ensures limitReached <==> old(limitReached) || |old(issues)| + |incoming| > max
      ensures !limitReached ==> issues == old(issues) + incoming
      ensures old(limitReached) ==> unchanged(this)
      ensures raised == if old(limitReached) then old(raised) else old(raised) + incoming
    {
      if limitReached || incoming == [] { return; }
      var capacity := max - |issues|;
      raised := raised + incoming;
      if |incoming| <= capacity {
        issues := issues + incoming;
        return;
      }
      var keep := Max(0, capacity - 1);
      var limitIssue := Issue(Error, IssueLimit);
      issues := issues + incoming[..keep];
      if capacity > 0 {
        issues := issues + [limitIssue];
      } else {
        issues := issues[|issues| - 1 := limitIssue];
      }
      limitReached := true;
    }

    method Raise(incoming: seq<Issue>, ghost before: seq<Issue>, ghost own: seq<Issue>)
      requires Follows(before + own)
      modifies this
      ensures Follows(before + (own + incoming))
    {
      AddParsing(incoming, before + own);
      Associate(before, own, incoming);
    }

    /** The replay budget is what the parsing phase left over. */
    method StartReplay()
      requires Valid()
      modifies this`remaining
      ensures remaining == max - |issues|
    {
      remaining := Max(0, max - |issues|);
    }

    /** One issue of a session, with the replace-last rule. */
    method AddIssue(issue: Issue, ghost all: seq<Issue>)
      requires Follows(all) && remaining == max - |issues|
      modifies this
      ensures Follows(all + [issue]) && remaining == max - |issues|
    {
      if remaining > 0 {
        issues := issues + [issue];
        raised := raised + [issue];
        remaining := remaining - 1;
        return;
      }
      if limitReached { return; }
      raised := raised + [issue];
      issues := issues[|issues| - 1 := Issue(Error, IssueLimit)];
      limitReached := true;
    }

    method AddIssues(more: seq<Issue>, ghost all: seq<Issue>)
      requires Follows(all) && remaining == max - |issues|
      modifies this
      ensures Follows(all + more) && remaining == max - |issues|
    {
      assert all + more[..0] == all;
      for i := 0 to |more|
        invariant Follows(all + more[..i]) && remaining == max - |issues|
      {
        assert all + more[..i + 1] == (all + more[..i]) + [more[i]];
        AddIssue(more[i], all + more[..i]);
      }
      assert more[..|more|] == more;
    }
  }

  // ----- the parsing loop -----

  lemma PrefixStep<T>(items: seq<T>, n: nat)
    requires n < |items|
    ensures items[..n + 1][..n] == items[..n] && items[..n + 1][n] == items[n]
  {}

  lemma {:induction false} ParseIssuesGrow(read: Reader, o: Options, lines: seq<string>, n: nat)
    requires n <= |lines|
    ensures |ParseIssues(read, o, lines[..n])| <= |ParseIssues(read, o, lines)|
    ensures |Entries(read, o, lines[..n])| <= |Entries(read, o, lines)|
    decreases |lines|
  {
    if n == |lines| {
      assert lines[..n] == lines;
    } else {
      var front := lines[..|lines| - 1];
      assert front[..n] == lines[..n];
      ParseIssuesGrow(read, o, front, n);
    }
  }

  /** What the parsing loop has established once it stands before line `n`. */
  ghost predicate ParsedTo(read: Reader, o: Options, lines: seq<string>, n: nat, entries: seq<Entry>)
    requires n <= |lines|
  {
    && n <= o.maxLines
    && entries == Entries(read, o, lines[..n]) && |entries| <= o.maxEvents
    && |ParseIssues(read, o, lines[..n])| <= o.maxIssues
    && forall m :: 0 <= m < n ==> |ParseIssues(read, o, lines[..m])| < o.maxIssues
  }

  lemma ParsedOne(read: Reader, o: Options, lines: seq<string>, n: nat, entries: seq<Entry>)
    requires n < |lines| && ParsedTo(read, o, lines, n, entries)
    requires |ParseIssues(read, o, lines[..n])| < o.maxIssues && n < o.maxLines
    ensures ParseIssues(read, o, lines[..n + 1]) == ParseIssues(read, o, lines[..n]) + LineIssues(read, o, lines[n])
    ensures var more := entries + if HoldsEvent(read, o, lines[n]) then [Entry(n + 1, read(lines[n]).event)] else [];
      && more == Entries(read, o, lines[..n + 1])
      && (|more| <= o.maxEvents && |ParseIssues(read, o, lines[..n + 1])| <= o.maxIssues ==>
            ParsedTo(read, o, lines, n + 1, more))
  {
    PrefixStep(lines, n);
  }

  /** A loop that stops early stops because a limit was passed. */
  lemma StoppedUnfit(read: Reader, o: Options, lines: seq<string>, n: nat)
    requires n <= |lines|
    requires || (n < |lines| && n >= o.maxLines)
             || (n < |lines| && |ParseIssues(read, o, lines[..n])| >= o.maxIssues)
             || |ParseIssues(read, o, lines[..n])| > o.maxIssues
             || |Entries(read, o, lines[..n])| > o.maxEvents
    ensures !Fits(read, o, lines)
  {
    ParseIssuesGrow(read, o, lines, n);
  }

  method ParseLines(read: Reader, o: Options, lines: seq<string>, ledger: Ledger) returns (entries: seq<Entry>, lineCount: nat)
    requires PositiveLimits(o) && ledger.max == o.maxIssues && ledger.Follows([]) && !ledger.limitReached
    modifies ledger
    ensures Fits(read, o, lines) ==>
      && lineCount == |lines| && entries == Entries(read, o, lines)
      && ledger.Follows(ParseIssues(read, o, lines)) && !ledger.limitReached
    ensures !Fits(read, o, lines) ==> ledger.Valid() && (ledger.limitReached || LimitTold(ledger.issues))
  {
    entries, lineCount := [], 0;
    var n := 0;
    while n < |lines|
      invariant n <= |lines| && lineCount == n
      invariant ParsedTo(read, o, lines, n, entries)
      invariant ledger.Follows(ParseIssues(read, o, lines[..n])) && !ledger.limitReached
      invariant ledger.issues == ParseIssues(read, o, lines[..n])
    {
      var line := lines[n];
      lineCount := n + 1;
      ghost var before := ParseIssues(read, o, lines[..n]);
      if lineCount > o.maxLines {
        StoppedUnfit(read, o, lines, n);
        RaiseAndStop(ledger, Issue(Error, LineLimit), before);
        return;
      }
      if |ledger.issues| >= o.maxIssues {
        StoppedUnfit(read, o, lines, n);
        RaiseAndStop(ledger, Issue(Error, IssueLimit), before);
        return;
      }
      ParsedOne(read, o, lines, n, entries);
      ledger.AddParsing(LineIssues(read, o, line), before);
      if ledger.limitReached {
        StoppedUnfit(read, o, lines, n + 1);
        return;
      }
      if HoldsEvent(read, o, line) {
        if |entries| >= o.maxEvents {
          StoppedUnfit(read, o, lines, n + 1);
          RaiseAndStop(ledger, Issue(Error, EventLimit), before + LineIssues(read, o, line));
          return;
        }
        entries := entries + [Entry(n + 1, read(line).event)];
      }
      n := n + 1;
    }
    assert lines[..|lines|] == lines;
  }

  method RaiseAndStop(ledger: Ledger, issue: Issue, ghost all: seq<Issue>)
    requires ledger.Follows(all) && TellsLimit(issue)
    modifies ledger
    ensures ledger.Valid() && (ledger.limitReached || LimitTold(ledger.issues))
  {
    ledger.AddParsing([issue], all);
    assert !ledger.limitReached ==> ledger.issues[|ledger.issues| - 1] == issue;
  }

  // ----- structure -----

  lemma {:induction false} SessionsDistinct(entries: seq<Entry>)
    ensures forall i, j :: 0 <= i < j < |Sessions(entries)| ==> Sessions(entries)[i] != Sessions(entries)[j]
  {
    if entries != [] { SessionsDistinct(entries[..|entries| - 1]); }
  }

  ghost predicate Grouped(entries: seq<Entry>, ids: seq<string>, grouped: map<string, seq<Entry>>) {
    && ids == Sessions(entries)
    && (forall id :: id in grouped <==> id in ids)
    && forall id :: id in grouped ==> grouped[id] == Scoped(entries, id)
  }

  method GroupBySession(entries: seq<Entry>) returns (ids: seq<string>, grouped: map<string, seq<Entry>>)
    ensures Grouped(entries, ids, grouped)
    ensures OrderOfAppearance(entries, ids)
    ensures forall id :: id in grouped <==> Appears(entries, id)
    ensures forall id :: id in grouped ==> Picks(entries, PlacesOf(entries, id), grouped[id])
  {
    ids, grouped := [], map[];
    for i := 0 to |entries|
      invariant Grouped(entries[..i], ids, grouped)
    {
      PrefixStep(entries, i);
      var entry := entries[i];
      ghost var before := ids;
      if entry.event.session.Some? {
        var id := entry.event.session.value;
        ScopedNotEmpty(entries[..i], id);
        if id in grouped {
          grouped := grouped[id := grouped[id] + [entry]];
        } else {
          ids := ids + [id];
          grouped := grouped[id := [entry]];
        }
      }
    }
    assert entries[..|entries|] == entries;
    SessionsExact(entries);
    forall id | id in grouped ensures Picks(entries, PlacesOf(entries, id), grouped[id]) {
      ScopedExact(entries, id);
    }
  }

  method CheckUnscoped(unscoped: seq<Entry>, ledger: Ledger, ghost all: seq<Issue>)
    requires ledger.Follows(all)
    modifies ledger
    ensures ledger.Follows(all + UnscopedIssues(unscoped))
  {
    for i := 0 to |unscoped|
      invariant ledger.Follows(all + UnscopedIssues(unscoped[..i]))
    {
      PrefixStep(unscoped, i);
      var more := When(!unscoped[i].event.kind.RuntimeStarted?, Error, UnscopedEvent);
      ledger.Raise(more, all, UnscopedIssues(unscoped[..i]));
      if more != [] && ledger.limitReached {
        UnscopedGrow(unscoped, i + 1);
        PrefixOf(all, UnscopedIssues(unscoped[..i + 1]), UnscopedIssues(unscoped));
        return;
      }
    }
    assert unscoped[..|unscoped|] == unscoped;
  }

  lemma PrefixOf(all: seq<Issue>, a: seq<Issue>, b: seq<Issue>)
    requires a <= b
    ensures all + a <= all + b
  {}

  lemma {:induction false} UnscopedGrow(unscoped: seq<Entry>, n: nat)
    requires n <= |unscoped|
    ensures UnscopedIssues(unscoped[..n]) <= UnscopedIssues(unscoped)
    decreases |unscoped|
  {
    if n == |unscoped| {
      assert unscoped[..n] == unscoped;
    } else {
      assert unscoped[..|unscoped| - 1][..n] == unscoped[..n];
      UnscopedGrow(unscoped[..|unscoped| - 1], n);
    }
  }

  method CheckStarts(starts: seq<Entry>, mode: Mode, ledger: Ledger, ghost all: seq<Issue>)
    requires ledger.Follows(all)
    modifies ledger
    ensures ledger.Follows(all + StartIssues(starts, mode))
  {
    for i := 0 to |starts|
      invariant ledger.Follows(all + StartIssues(starts[..i], mode))
    {
      PrefixStep(starts, i);
      var more := When(!GoodAnchor(starts[i].event), Completeness(mode), InvalidRuntimeAnchor);
      ledger.Raise(more, all, StartIssues(starts[..i], mode));
    }
    assert starts[..|starts|] == starts;
  }

  method CheckOrder(starts: seq<Entry>, firsts: seq<Entry>, mode: Mode, ledger: Ledger, ghost all: seq<Issue>)
    requires ledger.Follows(all)
    modifies ledger
    ensures ledger.Follows(all + OrderIssues(starts, firsts, Min(|starts|, |firsts|), mode))
  {
    for i := 0 to Min(|starts|, |firsts|)
      invariant ledger.Follows(all + OrderIssues(starts, firsts, i, mode))
    {
      var more := When(starts[i].line >= firsts[i].line, Completeness(mode), AnchorOrder);
      ledger.Raise(more, all, OrderIssues(starts, firsts, i, mode));
    }
  }

  lemma GroupAt(entries: seq<Entry>, ids: seq<string>, grouped: map<string, seq<Entry>>, i: nat)
    requires Grouped(entries, ids, grouped) && i < |ids|
    ensures ids[i] in grouped && grouped[ids[i]] == Scoped(entries, ids[i]) != []
    ensures Firsts(entries)[i] == grouped[ids[i]][0]
    ensures |Groups(entries)| == |ids| && Groups(entries)[i] == Events(grouped[ids[i]])
  {
    ScopedNotEmpty(entries, ids[i]);
  }

  method SessionFirsts(ids: seq<string>, grouped: map<string, seq<Entry>>, ghost entries: seq<Entry>) returns (firsts: seq<Entry>)
    requires Grouped(entries, ids, grouped)
    ensures firsts == Firsts(entries)
  {
    firsts := [];
    ghost var whole := Firsts(entries);
    for i := 0 to |ids|
      invariant |firsts| == i && forall j :: 0 <= j < i ==> firsts[j] == whole[j]
    {
      GroupAt(entries, ids, grouped, i);
      firsts := firsts + [grouped[ids[i]][0]];
    }
    assert |whole| == |ids|;
  }

  method CheckCounts(unscoped: seq<Entry>, starts: nat, sessions: nat, lineCount: nat, mode: Mode,
      ledger: Ledger, ghost all: seq<Issue>)
    requires ledger.Follows(all)
    modifies ledger
    ensures ledger.Follows(all + CountIssues(unscoped, starts, sessions, lineCount, mode))
  {
    assert all + [] == all;
    var a := When(lineCount == 0, Completeness(mode), EmptyJournal);
    ledger.AddParsing(a, all);
    CheckUnscoped(unscoped, ledger, all + a);
    ghost var own := a + UnscopedIssues(unscoped);
    Associate(all, a, UnscopedIssues(unscoped));
    var c := When(sessions == 0 && lineCount > 0, Completeness(mode), NoSessions);
    ledger.Raise(c, all, own);
    var d := When(starts != sessions, Completeness(mode), RuntimeSessionMismatch);
    ledger.Raise(d, all, own + c);
  }

  lemma Associate(a: seq<Issue>, b: seq<Issue>, c: seq<Issue>)
    ensures (a + b) + c == a + (b + c)
  {}

  method CheckStructure(entries: seq<Entry>, ids: seq<string>, grouped: map<string, seq<Entry>>, lineCount: nat, mode: Mode,
      ledger: Ledger, ghost all: seq<Issue>)
    requires ledger.Follows(all) && Grouped(entries, ids, grouped)
    modifies ledger
    ensures ledger.Follows(all + StructureIssues(entries, lineCount, mode))
  {
    var starts := RuntimeStarts(entries);
    var firsts := SessionFirsts(ids, grouped, entries);
    var unscoped := Unscoped(entries);
    CheckCounts(unscoped, |starts|, |firsts|, lineCount, mode, ledger, all);
    ghost var a := CountIssues(unscoped, |starts|, |firsts|, lineCount, mode);
    CheckStarts(starts, mode, ledger, all + a);
    ghost var b := StartIssues(starts, mode);
    CheckOrder(starts, firsts, mode, ledger, all + a + b);
    ghost var c := OrderIssues(starts, firsts, Min(|starts|, |firsts|), mode);
    Regroup(all, a, b, c);
  }

  lemma Regroup(all: seq<Issue>, a: seq<Issue>, b: seq<Issue>, c: seq<Issue>)
    ensures all + a + b + c == all + (a + (b + c)) && a + b + c == a + (b + c)
  {}

  // ----- sessions -----

  method ReplayOne(id: string, events: seq<Event>, fit: bool, mode: Mode, ledger: Ledger, ghost all: seq<Issue>)
    requires ledger.Follows(all) && ledger.remaining == ledger.max - |ledger.issues|
    modifies ledger
    ensures ledger.Follows(all + SessionIssues(id, events, fit, true, mode))
    ensures ledger.remaining == ledger.max - |ledger.issues|
  {
    var replayer := new Replayer();
    var more := replayer.ReplayRecords(id, events, fit, true, mode);
    ledger.AddIssues(more, all);
  }

  method SessionEvents(ids: seq<string>, grouped: map<string, seq<Entry>>, ghost entries: seq<Entry>) returns (groups: seq<seq<Event>>)
    requires Grouped(entries, ids, grouped)
    ensures groups == Groups(entries)
  {
    groups := [];
    ghost var whole := Groups(entries);
    for i := 0 to |ids|
      invariant |groups| == i && forall j :: 0 <= j < i ==> groups[j] == whole[j]
    {
      GroupAt(entries, ids, grouped, i);
      groups := groups + [Events(grouped[ids[i]])];
    }
    assert |whole| == |ids|;
  }

  method ReplaySessions(ids: seq<string>, groups: seq<seq<Event>>, o: Options, ledger: Ledger, ghost all: seq<Issue>)
    requires ledger.Follows(all) && ledger.remaining == ledger.max - |ledger.issues| && |groups| == |ids|
    modifies ledger
    ensures ledger.Follows(all + Flatten(SessionsRaise(ids, groups, o)))
  {
    var frames := o.maxFrames;
    ghost var parts := SessionsRaise(ids, groups, o);
    ghost var raised := all;
    assert parts[..0] == [];
    for i := 0 to |ids|
      invariant frames == FramesLeft(groups, o, i)
      invariant raised == all + Flatten(parts[..i])
      invariant ledger.Follows(raised) && ledger.remaining == ledger.max - |ledger.issues|
    {
      var fit := !o.includeFrames || |groups[i]| <= frames;
      RaisedAt(ids, groups, o, i);
      ReplayOne(ids[i], groups[i], fit, o.mode, ledger, raised);
      if o.includeFrames && fit { frames := frames - |groups[i]|; }
      FlattenStep(parts, i, all);
      raised := raised + parts[i];
    }
    assert parts[..|ids|] == parts;
  }

  /** What the next session raises, and what it leaves of the frames. */
  lemma RaisedAt(ids: seq<string>, groups: seq<seq<Event>>, o: Options, i: nat)
    requires i < |ids| == |groups|
    ensures var fit := !o.includeFrames || |groups[i]| <= FramesLeft(groups, o, i);
      && SessionsRaise(ids, groups, o)[i] == SessionIssues(ids[i], groups[i], fit, true, o.mode)
      && FramesLeft(groups, o, i + 1) == FramesLeft(groups, o, i) - if o.includeFrames && fit then |groups[i]| else 0
  {}

  lemma FlattenStep(parts: seq<seq<Issue>>, i: nat, all: seq<Issue>)
    requires i < |parts|
    ensures all + Flatten(parts[..i + 1]) == (all + Flatten(parts[..i])) + parts[i]
  {
    PrefixStep(parts, i);
    Associate(all, Flatten(parts[..i]), parts[i]);
  }

  // ----- the report -----

  datatype Report = Report(valid: bool, lineCount: nat, eventCount: nat, issues: seq<Issue>)

  method HasNoError(issues: seq<Issue>) returns (none: bool)
    ensures none <==> NoError(issues)
  {
    for i := 0 to |issues|
      invariant NoError(issues[..i])
    {
      if issues[i].severity.Error? { return false; }
    }
    return true;
  }

  /** However the list goes on, or is cut, the word of a limit stays in it. */
  lemma ToldStays(issues: seq<Issue>, all: seq<Issue>, max: nat)
    requires 0 < max
    ensures max < |all| ==> LimitTold(Overflowed(all, max))
    ensures LimitTold(issues) && issues <= all ==> LimitTold(all)
    ensures LimitTold(issues) ==> !NoError(issues)
  {
    if max < |all| { assert TellsLimit(Overflowed(all, max)[max - 1]); }
    if LimitTold(issues) && issues <= all {
      var i :| 0 <= i < |issues| && TellsLimit(issues[i]);
      assert TellsLimit(all[i]);
    }
  }

  /** Against all that was raised: the list is all of it, or its beginning and the word that it was cut. */
  lemma FinalIssues(ledger: Ledger, all: seq<Issue>)
    requires ledger.Follows(all)
    ensures ledger.limitReached <==> |all| > ledger.max
    ensures ledger.issues == if |all| > ledger.max then Overflowed(all, ledger.max) else all
    ensures NoError(ledger.issues) <==> NoError(all) && |all| <= ledger.max
  {
    if ledger.limitReached {
      assert ledger.raised[..ledger.max - 1] == all[..ledger.max - 1];
      assert ledger.issues[ledger.max - 1].severity.Error?;
    }
  }

  /**
   * The list never exceeds its limit. When no limit stops the parsing it is everything
   * the journal raises, cut with a word at the limit; when one does it says so. The
   * report is valid exactly when no limit stopped the parsing, nothing the whole journal
   * raises is an error, and all of it fits the list.
   */
  method InspectJournalText(read: Reader, o: Options, text: string) returns (r: Result<Report, string>)
    ensures r.Err? <==>
      || o.maxFileBytes == 0 || o.maxLineBytes == 0 || o.maxEvents == 0
      || o.maxFrames == 0 || o.maxLines == 0 || o.maxIssues == 0
      || Json.ByteLength(text) > o.maxFileBytes
    ensures r.Ok? ==> |r.value.issues| <= o.maxIssues
    ensures r.Ok? ==>
      var lines := J.LinesOf(text);
      var all := JournalIssues(read, o, lines);
      && (r.value.valid <==> Fits(read, o, lines) && NoError(all) && |all| <= o.maxIssues)
      && (Fits(read, o, lines) ==>
            && r.value.lineCount == |lines| && r.value.eventCount == |Entries(read, o, lines)|
            && r.value.issues == if |all| > o.maxIssues then Overflowed(all, o.maxIssues) else all)
      && (!Fits(read, o, lines) ==> LimitTold(r.value.issues))
  {
    if !PositiveLimits(o) { return Err("limit must be positive"); }
    if Json.ByteLength(text) > o.maxFileBytes { return Err("byte limit"); }
    var lines := J.SplitLines(text);
    var ledger := new Ledger(o.maxIssues);
    var entries, lineCount := ParseLines(read, o, lines, ledger);
    ghost var fits := Fits(read, o, lines);
    ghost var a := if fits then ParseIssues(read, o, lines) else ledger.raised;
    var ids, grouped := GroupBySession(entries);
    CheckStructure(entries, ids, grouped, lineCount, o.mode, ledger, a);
    ghost var b := StructureIssues(entries, lineCount, o.mode);
    ledger.StartReplay();
    var groups := SessionEvents(ids, grouped, entries);
    ReplaySessions(ids, groups, o, ledger, a + b);
    ghost var c := Flatten(SessionsRaise(ids, groups, o));
    var valid := HasNoError(ledger.issues);
    Regroup([], a, b, c);
    FinalIssues(ledger, a + b + c);
    ToldStays(a, a + b + c, o.maxIssues);
    ToldStays(ledger.issues, a + b + c, o.maxIssues);
    r := Ok(Report(valid, lineCount, |entries|, ledger.issues));
  }

  // ----- what a valid strict report means -----

  ghost predicate LinesClean(read: Reader, o: Options, lines: seq<string>) {
    forall i :: 0 <= i < |lines| ==> Blank(lines[i]) || HoldsEvent(read, o, lines[i])
  }

  lemma LineClean(read: Reader, o: Options, line: string)
    ensures NoError(LineIssues(read, o, line)) <==> Blank(line) || HoldsEvent(read, o, line)
  {
    if !Blank(line) && !HoldsEvent(read, o, line) {
      assert LineIssues(read, o, line)[0].severity.Error?;
    }
  }

  lemma {:induction false} ParseClean(read: Reader, o: Options, lines: seq<string>)
    ensures NoError(ParseIssues(read, o, lines)) <==> LinesClean(read, o, lines)
  {
    if lines != [] {
      var front, last := lines[..|lines| - 1], lines[|lines| - 1];
      ParseClean(read, o, front);
      LineClean(read, o, last);
      NoErrorAppend(ParseIssues(read, o, front), LineIssues(read, o, last));
      assert lines == front + [last];
    }
  }

  ghost predicate AllStarts(unscoped: seq<Entry>) {
    forall i :: 0 <= i < |unscoped| ==> unscoped[i].event.kind.RuntimeStarted?
  }

  lemma {:induction false} UnscopedClean(unscoped: seq<Entry>)
    ensures NoError(UnscopedIssues(unscoped)) <==> AllStarts(unscoped)
  {
    if unscoped != [] {
      var front, last := unscoped[..|unscoped| - 1], unscoped[|unscoped| - 1];
      UnscopedClean(front);
      WhenError(!last.event.kind.RuntimeStarted?, Error, UnscopedEvent);
      NoErrorAppend(UnscopedIssues(front), When(!last.event.kind.RuntimeStarted?, Error, UnscopedEvent));
      assert unscoped == front + [last];
    }
  }

  ghost predicate AllAnchored(starts: seq<Entry>) {
    forall i :: 0 <= i < |starts| ==> GoodAnchor(starts[i].event)
  }

  lemma {:induction false} StartsClean(starts: seq<Entry>)
    ensures NoError(StartIssues(starts, Strict)) <==> AllAnchored(starts)
  {
    if starts != [] {
      var front, last := starts[..|starts| - 1], starts[|starts| - 1];
      StartsClean(front);
      WhenError(!GoodAnchor(last.event), Error, InvalidRuntimeAnchor);
      NoErrorAppend(StartIssues(front, Strict), When(!GoodAnchor(last.event), Error, InvalidRuntimeAnchor));
      assert starts == front + [last];
    }
  }

  lemma {:induction false} OrderClean(starts: seq<Entry>, firsts: seq<Entry>, n: nat)
    requires n <= |starts| && n <= |firsts|
    ensures NoError(OrderIssues(starts, firsts, n, Strict)) <==> forall i :: 0 <= i < n ==> starts[i].line < firsts[i].line
  {
    if n > 0 {
      OrderClean(starts, firsts, n - 1);
      var late := starts[n - 1].line >= firsts[n - 1].line;
      WhenError(late, Error, AnchorOrder);
      NoErrorAppend(OrderIssues(starts, firsts, n - 1, Strict), When(late, Error, AnchorOrder));
    }
  }

  /** One runtime.started per session, each numbered 1, from the runtime, and before its session; nothing else unscoped. */
  ghost predicate Anchored(entries: seq<Entry>) {
    var starts, firsts := RuntimeStarts(entries), Firsts(entries);
    && AllStarts(Unscoped(entries)) && AllAnchored(starts)
    && |starts| == |firsts| > 0
    && forall i :: 0 <= i < |starts| ==> starts[i].line < firsts[i].line
  }

  lemma CountsClean(unscoped: seq<Entry>, starts: nat, sessions: nat, lineCount: nat)
    ensures NoError(CountIssues(unscoped, starts, sessions, lineCount, Strict)) <==>
      AllStarts(unscoped) && lineCount > 0 && starts == sessions > 0
  {
    var a, b := When(lineCount == 0, Error, EmptyJournal), UnscopedIssues(unscoped);
    var c, d := When(sessions == 0 && lineCount > 0, Error, NoSessions), When(starts != sessions, Error, RuntimeSessionMismatch);
    NoErrorAppend(a + b + c, d);
    NoErrorAppend(a + b, c);
    NoErrorAppend(a, b);
    WhenError(lineCount == 0, Error, EmptyJournal);
    WhenError(sessions == 0 && lineCount > 0, Error, NoSessions);
    WhenError(starts != sessions, Error, RuntimeSessionMismatch);
    UnscopedClean(unscoped);
  }

  lemma StructureClean(entries: seq<Entry>, lineCount: nat)
    ensures NoError(StructureIssues(entries, lineCount, Strict)) <==> lineCount > 0 && Anchored(entries)
  {
    var starts, firsts := RuntimeStarts(entries), Firsts(entries);
    var n := Min(|starts|, |firsts|);
    var a := CountIssues(Unscoped(entries), |starts|, |firsts|, lineCount, Strict);
    NoErrorAppend(a, StartIssues(starts, Strict) + OrderIssues(starts, firsts, n, Strict));
    NoErrorAppend(StartIssues(starts, Strict), OrderIssues(starts, firsts, n, Strict));
    CountsClean(Unscoped(entries), |starts|, |firsts|, lineCount);
    StartsClean(starts);
    OrderClean(starts, firsts, n);
  }

  /** The frames the first `n` sessions ask for. */
  function FrameTotal(groups: seq<seq<Event>>, n: nat): nat
    requires n <= |groups|
  {
    if n == 0 then 0 else FrameTotal(groups, n - 1) + |groups[n - 1]|
  }

  ghost predicate AllFit(groups: seq<seq<Event>>, o: Options, n: nat)
    requires n <= |groups|
  {
    forall i :: 0 <= i < n ==> FramesFit(groups, o, i)
  }

  lemma {:induction false} FramesAddUp(groups: seq<seq<Event>>, o: Options, n: nat)
    requires n <= |groups| && o.includeFrames
    ensures AllFit(groups, o, n) <==> FrameTotal(groups, n) <= o.maxFrames
    ensures AllFit(groups, o, n) ==> FramesLeft(groups, o, n) == o.maxFrames - FrameTotal(groups, n)
  {
    if n > 0 {
      FramesAddUp(groups, o, n - 1);
      assert AllFit(groups, o, n) <==> AllFit(groups, o, n - 1) && FramesFit(groups, o, n - 1);
    }
  }

  /** The frames of those of the first `n` sessions that fit. */
  function FittedTotal(groups: seq<seq<Event>>, o: Options, n: nat): nat
    requires n <= |groups|
  {
    if n == 0 then 0
    else FittedTotal(groups, o, n - 1) + if FramesFit(groups, o, n - 1) then |groups[n - 1]| else 0
  }

  /** The sessions that fit share the budget: each fits what those before it left, and one that does not takes nothing. */
  lemma {:induction false} FramesConserved(groups: seq<seq<Event>>, o: Options, n: nat)
    requires n <= |groups| && o.includeFrames
    ensures FramesLeft(groups, o, n) + FittedTotal(groups, o, n) == o.maxFrames
    ensures n < |groups| ==> (FramesFit(groups, o, n) <==> FittedTotal(groups, o, n) + |groups[n]| <= o.maxFrames)
  {
    if n > 0 { FramesConserved(groups, o, n - 1); }
  }

  lemma {:induction false} FlattenClean(parts: seq<seq<Issue>>)
    ensures NoError(Flatten(parts)) <==> forall i :: 0 <= i < |parts| ==> NoError(parts[i])
  {
    if parts != [] {
      var front, last := parts[..|parts| - 1], parts[|parts| - 1];
      FlattenClean(front);
      NoErrorAppend(Flatten(front), last);
      assert parts == front + [last];
    }
  }

  ghost predicate SessionsWellFormed(ids: seq<string>, groups: seq<seq<Event>>)
    requires |ids| == |groups|
  {
    forall i :: 0 <= i < |ids| ==> WellFormedSession(ids[i], groups[i])
  }

  lemma ReplayClean(ids: seq<string>, groups: seq<seq<Event>>, o: Options)
    requires o.mode.Strict? && |ids| == |groups|
    ensures NoError(Flatten(SessionsRaise(ids, groups, o))) <==>
      SessionsWellFormed(ids, groups) && AllFit(groups, o, |ids|)
  {
    var parts := SessionsRaise(ids, groups, o);
    FlattenClean(parts);
    forall i | 0 <= i < |ids| ensures NoError(parts[i]) <==> FramesFit(groups, o, i) && WellFormedSession(ids[i], groups[i]) {
      StrictDecides(ids[i], groups[i], FramesFit(groups, o, i));
    }
  }

  /** Every line an event or blank, every session anchored and well formed, frames within their limit. */
  ghost predicate WellFormedJournal(read: Reader, o: Options, lines: seq<string>) {
    var entries := Entries(read, o, lines);
    && lines != [] && LinesClean(read, o, lines)
    && Anchored(entries)
    && SessionsWellFormed(Sessions(entries), Groups(entries))
    && (o.includeFrames ==> FrameTotal(Groups(entries), |Sessions(entries)|) <= o.maxFrames)
  }

  /** In strict mode nothing raised is an error exactly when the whole journal is well formed. */
  lemma StrictJournalDecides(read: Reader, o: Options, lines: seq<string>)
    requires o.mode.Strict?
    ensures NoError(JournalIssues(read, o, lines)) <==> WellFormedJournal(read, o, lines)
  {
    var entries := Entries(read, o, lines);
    var ids, groups := Sessions(entries), Groups(entries);
    var structure, replay := StructureIssues(entries, |lines|, Strict), Flatten(SessionsRaise(ids, groups, o));
    NoErrorAppend(ParseIssues(read, o, lines), structure + replay);
    NoErrorAppend(structure, replay);
    ParseClean(read, o, lines);
    StructureClean(entries, |lines|);
    ReplayClean(ids, groups, o);
    if o.includeFrames { FramesAddUp(groups, o, |ids|); }
  }

  // ----- what is left of it in partial mode -----

  ghost predicate SessionsConsistent(ids: seq<string>, groups: seq<seq<Event>>)
    requires |ids| == |groups|
  {
    forall i :: 0 <= i < |ids| ==> M.ConsistentSession(ids[i], groups[i])
  }

  lemma {:induction false} PartialStartsClean(starts: seq<Entry>)
    ensures NoError(StartIssues(starts, Partial))
  {
    if starts != [] {
      var front, last := starts[..|starts| - 1], starts[|starts| - 1];
      PartialStartsClean(front);
      WhenError(!GoodAnchor(last.event), Warning, InvalidRuntimeAnchor);
      NoErrorAppend(StartIssues(front, Partial), When(!GoodAnchor(last.event), Warning, InvalidRuntimeAnchor));
    }
  }

  lemma {:induction false} PartialOrderClean(starts: seq<Entry>, firsts: seq<Entry>, n: nat)
    requires n <= |starts| && n <= |firsts|
    ensures NoError(OrderIssues(starts, firsts, n, Partial))
  {
    if n > 0 {
      PartialOrderClean(starts, firsts, n - 1);
      var late := starts[n - 1].line >= firsts[n - 1].line;
      WhenError(late, Warning, AnchorOrder);
      NoErrorAppend(OrderIssues(starts, firsts, n - 1, Partial), When(late, Warning, AnchorOrder));
    }
  }

  lemma PartialCountsClean(unscoped: seq<Entry>, starts: nat, sessions: nat, lineCount: nat)
    ensures NoError(CountIssues(unscoped, starts, sessions, lineCount, Partial)) <==> AllStarts(unscoped)
  {
    var a, b := When(lineCount == 0, Warning, EmptyJournal), UnscopedIssues(unscoped);
    var c, d := When(sessions == 0 && lineCount > 0, Warning, NoSessions), When(starts != sessions, Warning, RuntimeSessionMismatch);
    NoErrorAppend(a + b + c, d);
    NoErrorAppend(a + b, c);
    NoErrorAppend(a, b);
    WhenError(lineCount == 0, Warning, EmptyJournal);
    WhenError(sessions == 0 && lineCount > 0, Warning, NoSessions);
    WhenError(starts != sessions, Warning, RuntimeSessionMismatch);
    UnscopedClean(unscoped);
  }

  lemma PartialStructureClean(entries: seq<Entry>, lineCount: nat)
    ensures NoError(StructureIssues(entries, lineCount, Partial)) <==> AllStarts(Unscoped(entries))
  {
    var starts, firsts := RuntimeStarts(entries), Firsts(entries);
    var n := Min(|starts|, |firsts|);
    var a := CountIssues(Unscoped(entries), |starts|, |firsts|, lineCount, Partial);
    NoErrorAppend(a, StartIssues(starts, Partial) + OrderIssues(starts, firsts, n, Partial));
    NoErrorAppend(StartIssues(starts, Partial), OrderIssues(starts, firsts, n, Partial));
    PartialCountsClean(Unscoped(entries), |starts|, |firsts|, lineCount);
    PartialStartsClean(starts);
    PartialOrderClean(starts, firsts, n);
  }

  lemma PartialReplayClean(ids: seq<string>, groups: seq<seq<Event>>, o: Options)
    requires o.mode.Partial? && |ids| == |groups|
    ensures NoError(Flatten(SessionsRaise(ids, groups, o))) <==> SessionsConsistent(ids, groups) && AllFit(groups, o, |ids|)
  {
    var parts := SessionsRaise(ids, groups, o);
    FlattenClean(parts);
    forall i | 0 <= i < |ids| ensures NoError(parts[i]) <==> FramesFit(groups, o, i) && M.ConsistentSession(ids[i], groups[i]) {
      M.PartialDecides(ids[i], groups[i], FramesFit(groups, o, i));
    }
  }

  /**
   * In partial mode the errors that remain are bad lines, unscoped events other than
   * runtime.started, inconsistent sessions and too many frames; nothing that is missing
   * is an error.
   */
  lemma PartialJournalDecides(read: Reader, o: Options, lines: seq<string>)
    requires o.mode.Partial?
    ensures var entries := Entries(read, o, lines);
      NoError(JournalIssues(read, o, lines)) <==>
        && LinesClean(read, o, lines) && AllStarts(Unscoped(entries))
        && SessionsConsistent(Sessions(entries), Groups(entries))
        && (o.includeFrames ==> FrameTotal(Groups(entries), |Sessions(entries)|) <= o.maxFrames)
  {
    var entries := Entries(read, o, lines);
    var ids, groups := Sessions(entries), Groups(entries);
    var structure, replay := StructureIssues(entries, |lines|, Partial), Flatten(SessionsRaise(ids, groups, o));
    NoErrorAppend(ParseIssues(read, o, lines), structure + replay);
    NoErrorAppend(structure, replay);
    ParseClean(read, o, lines);
    PartialStructureClean(entries, |lines|);
    PartialReplayClean(ids, groups, o);
    if o.includeFrames { FramesAddUp(groups, o, |ids|); }
  }

  // ----- which issues a journal raises -----

  /** What a line by itself is worth. */
  ghost predicate LineDeserves(read: Reader, o: Options, line: string, issue: Issue) {
    var blank := forall i :: 0 <= i < |line| ==> Spacing(line[i]);
    match issue.code
    case EmptyLine => issue.severity.Warning? && blank
    case LineTooLarge => issue.severity.Error? && !blank && Json.ByteLength(line) > o.maxLineBytes
    case InvalidJson => issue.severity.Error? && !blank && Json.ByteLength(line) <= o.maxLineBytes && read(line).NotJson?
    case InvalidEvent => issue.severity.Error? && !blank && Json.ByteLength(line) <= o.maxLineBytes && read(line).Rejected?
    case _ => false
  }

  lemma LineSays(read: Reader, o: Options, line: string, issue: Issue)
    ensures issue in LineIssues(read, o, line) <==> LineDeserves(read, o, line, issue)
  {
    BlankExact(line);
    if !Blank(line) && Json.ByteLength(line) <= o.maxLineBytes && read(line).Rejected? {
      var n := read(line).errors;
      M.CopiesHold(if n == 0 then 1 else n, Issue(Error, InvalidEvent), issue);
    }
  }

  lemma {:induction false} ParseSays(read: Reader, o: Options, lines: seq<string>, issue: Issue)
    ensures issue in ParseIssues(read, o, lines) <==> exists i :: 0 <= i < |lines| && LineDeserves(read, o, lines[i], issue)
  {
    if lines != [] {
      var front, last := lines[..|lines| - 1], lines[|lines| - 1];
      ParseSays(read, o, front, issue);
      LineSays(read, o, last, issue);
      assert lines == front + [last];
      if i :| 0 <= i < |front| && LineDeserves(read, o, front[i], issue) { assert LineDeserves(read, o, lines[i], issue); }
    }
  }

  lemma {:induction false} UnscopedSays(unscoped: seq<Entry>, issue: Issue)
    ensures issue in UnscopedIssues(unscoped) <==> issue == Issue(Error, UnscopedEvent) && !AllStarts(unscoped)
  {
    if unscoped != [] {
      var front, last := unscoped[..|unscoped| - 1], unscoped[|unscoped| - 1];
      UnscopedSays(front, issue);
      M.WhenHolds(!last.event.kind.RuntimeStarted?, Error, UnscopedEvent, issue);
      assert unscoped == front + [last];
      assert AllStarts(unscoped) <==> AllStarts(front) && last.event.kind.RuntimeStarted?;
    }
  }

  lemma {:induction false} StartsSay(starts: seq<Entry>, mode: Mode, issue: Issue)
    ensures issue in StartIssues(starts, mode) <==>
      && issue == Issue(if mode.Partial? then Warning else Error, InvalidRuntimeAnchor)
      && exists i :: 0 <= i < |starts| && (starts[i].event.number != 1 || !starts[i].event.fromRuntime)
  {
    if starts != [] {
      var front, last := starts[..|starts| - 1], starts[|starts| - 1];
      StartsSay(front, mode, issue);
      M.WhenHolds(!GoodAnchor(last.event), Completeness(mode), InvalidRuntimeAnchor, issue);
      assert starts == front + [last];
    }
  }

  lemma {:induction false} OrderSays(starts: seq<Entry>, firsts: seq<Entry>, n: nat, mode: Mode, issue: Issue)
    requires n <= |starts| && n <= |firsts|
    ensures issue in OrderIssues(starts, firsts, n, mode) <==>
      && issue == Issue(if mode.Partial? then Warning else Error, AnchorOrder)
      && exists i :: 0 <= i < n && starts[i].line >= firsts[i].line
  {
    if n > 0 {
      OrderSays(starts, firsts, n - 1, mode, issue);
      M.WhenHolds(starts[n - 1].line >= firsts[n - 1].line, Completeness(mode), AnchorOrder, issue);
    }
  }

  lemma CountsSay(unscoped: seq<Entry>, starts: nat, sessions: nat, lineCount: nat, mode: Mode, issue: Issue)
    ensures issue in CountIssues(unscoped, starts, sessions, lineCount, mode) <==>
      match issue.code
      case EmptyJournal => issue.severity == (if mode.Partial? then Warning else Error) && lineCount == 0
      case UnscopedEvent => issue.severity.Error? && !AllStarts(unscoped)
      case NoSessions => issue.severity == (if mode.Partial? then Warning else Error) && sessions == 0 < lineCount
      case RuntimeSessionMismatch => issue.severity == (if mode.Partial? then Warning else Error) && starts != sessions
      case _ => false
  {
    M.WhenHolds(lineCount == 0, Completeness(mode), EmptyJournal, issue);
    UnscopedSays(unscoped, issue);
    M.WhenHolds(sessions == 0 && lineCount > 0, Completeness(mode), NoSessions, issue);
    M.WhenHolds(starts != sessions, Completeness(mode), RuntimeSessionMismatch, issue);
  }

  ghost predicate BadStart(starts: seq<Entry>) {
    exists i :: 0 <= i < |starts| && (starts[i].event.number != 1 || !starts[i].event.fromRuntime)
  }

  ghost predicate Misordered(starts: seq<Entry>, firsts: seq<Entry>) {
    exists i :: 0 <= i < |starts| && i < |firsts| && starts[i].line >= firsts[i].line
  }

  /** What the structure of the journal is worth, given its unscoped events, anchors and session starts. */
  ghost predicate StructureDeserves(
    unscoped: seq<Entry>, starts: seq<Entry>, firsts: seq<Entry>, lineCount: nat, mode: Mode, issue: Issue)
  {
    var lax := if mode.Partial? then Warning else Error;
    match issue.code
    case EmptyJournal => issue.severity == lax && lineCount == 0
    case UnscopedEvent => issue.severity.Error? && !AllStarts(unscoped)
    case NoSessions => issue.severity == lax && firsts == [] && lineCount > 0
    case RuntimeSessionMismatch => issue.severity == lax && |starts| != |firsts|
    case InvalidRuntimeAnchor => issue.severity == lax && BadStart(starts)
    case AnchorOrder => issue.severity == lax && Misordered(starts, firsts)
    case _ => false
  }

  lemma AnchorsSay(starts: seq<Entry>, firsts: seq<Entry>, mode: Mode, issue: Issue)
    ensures issue in StartIssues(starts, mode) <==>
      issue == Issue(if mode.Partial? then Warning else Error, InvalidRuntimeAnchor) && BadStart(starts)
    ensures issue in OrderIssues(starts, firsts, Min(|starts|, |firsts|), mode) <==>
      issue == Issue(if mode.Partial? then Warning else Error, AnchorOrder) && Misordered(starts, firsts)
  {
    StartsSay(starts, mode, issue);
    OrderSays(starts, firsts, Min(|starts|, |firsts|), mode, issue);
  }

  lemma StructureSays(entries: seq<Entry>, lineCount: nat, mode: Mode, issue: Issue)
    ensures issue in StructureIssues(entries, lineCount, mode) <==>
      StructureDeserves(Unscoped(entries), RuntimeStarts(entries), Firsts(entries), lineCount, mode, issue)
  {
    var starts, firsts := RuntimeStarts(entries), Firsts(entries);
    CountsSay(Unscoped(entries), |starts|, |firsts|, lineCount, mode, issue);
    AnchorsSay(starts, firsts, mode, issue);
    InThree(CountIssues(Unscoped(entries), |starts|, |firsts|, lineCount, mode), StartIssues(starts, mode),
      OrderIssues(starts, firsts, Min(|starts|, |firsts|), mode), issue);
  }

  lemma InThree(a: seq<Issue>, b: seq<Issue>, c: seq<Issue>, issue: Issue)
    ensures issue in a + (b + c) <==> issue in a || issue in b || issue in c
  {}

  lemma {:induction false} FlattenHolds(parts: seq<seq<Issue>>, issue: Issue)
    ensures issue in Flatten(parts) <==> exists i :: 0 <= i < |parts| && issue in parts[i]
  {
    if parts != [] {
      FlattenHolds(parts[..|parts| - 1], issue);
      assert parts == parts[..|parts| - 1] + [parts[|parts| - 1]];
    }
  }

  lemma GroupIn(entries: seq<Entry>, id: string)
    ensures AllIn(id, Events(Scoped(entries, id)))
  {
    ScopedExact(entries, id);
    var at: seq<nat> :| PicksAt(entries, PlacesOf(entries, id), Scoped(entries, id), at);
    forall k | 0 <= k < |at| ensures Scoped(entries, id)[k].event.session == Some(id) {
      assert at[k] in PlacesOf(entries, id);
    }
  }

  /** What a session of the journal is worth. */
  ghost predicate SessionDeserves(groups: seq<seq<Event>>, o: Options, issue: Issue, i: nat) {
    i < |groups| && issue.severity == M.SeverityOf(issue.code, o.mode) && M.Deserves(groups[i], FramesFit(groups, o, i), issue.code)
  }

  /** In either mode a journal raises exactly the issues its lines, its structure and its sessions deserve. */
  lemma JournalSays(read: Reader, o: Options, lines: seq<string>, issue: Issue)
    ensures var entries := Entries(read, o, lines);
      issue in JournalIssues(read, o, lines) <==>
        || (exists i :: 0 <= i < |lines| && LineDeserves(read, o, lines[i], issue))
        || StructureDeserves(Unscoped(entries), RuntimeStarts(entries), Firsts(entries), |lines|, o.mode, issue)
        || exists i: nat :: SessionDeserves(Groups(entries), o, issue, i)
  {
    var entries := Entries(read, o, lines);
    var ids, groups := Sessions(entries), Groups(entries);
    var parts := SessionsRaise(ids, groups, o);
    ParseSays(read, o, lines, issue);
    StructureSays(entries, |lines|, o.mode, issue);
    FlattenHolds(parts, issue);
    forall i: nat | i < |parts| ensures issue in parts[i] <==> SessionDeserves(groups, o, issue, i) {
      GroupIn(entries, ids[i]);
      M.SessionSays(ids[i], groups[i], FramesFit(groups, o, i), o.mode, issue);
    }
  }

  // ----- session starts come in line order -----

  ghost predicate Ascending(entries: seq<Entry>) {
    forall i, j :: 0 <= i < j < |entries| ==> entries[i].line < entries[j].line
  }

  lemma {:induction false} EntriesAscend(read: Reader, o: Options, lines: seq<string>)
    ensures Ascending(Entries(read, o, lines))
    ensures forall i :: 0 <= i < |Entries(read, o, lines)| ==> Entries(read, o, lines)[i].line <= |lines|
  {
    if lines != [] { EntriesAscend(read, o, lines[..|lines| - 1]); }
  }

  /** ECMAScript white space and line terminators, code point by code point. */
  predicate Spacing(c: char) {
    c as int in {0x09, 0x0A, 0x0B, 0x0C, 0x0D, 0x20, 0xA0, 0x1680,
      0x2000, 0x2001, 0x2002, 0x2003, 0x2004, 0x2005, 0x2006, 0x2007, 0x2008, 0x2009, 0x200A,
      0x2028, 0x2029, 0x202F, 0x205F, 0x3000, 0xFEFF}
  }

  lemma BlankExact(line: string)
    ensures Blank(line) <==> forall i :: 0 <= i < |line| ==> Spacing(line[i])
  {
    assert forall c: char :: IsSpace(c) <==> Spacing(c);
  }

  /** The line is an event: not blank, within the line limit, and accepted by reader and validation. */
  ghost predicate Takes(read: Reader, o: Options, line: string, e: Event) {
    && (exists i :: 0 <= i < |line| && !Spacing(line[i]))
    && Json.ByteLength(line) <= o.maxLineBytes && read(line) == Accepted(e)
  }

  lemma HoldsTaken(read: Reader, o: Options, line: string)
    ensures HoldsEvent(read, o, line) <==> exists e :: Takes(read, o, line, e)
    ensures HoldsEvent(read, o, line) ==> Takes(read, o, line, read(line).event)
  {
    BlankExact(line);
    if HoldsEvent(read, o, line) { assert Takes(read, o, line, read(line).event); }
  }

  /** The entries are exactly the lines that hold an event, each under its number, in order. */
  lemma {:induction false} EntriesExact(read: Reader, o: Options, lines: seq<string>)
    ensures Ascending(Entries(read, o, lines))
    ensures forall n: nat, e :: Entry(n, e) in Entries(read, o, lines) <==> 1 <= n <= |lines| && Takes(read, o, lines[n - 1], e)
  {
    EntriesAscend(read, o, lines);
    if lines != [] {
      var front, last := lines[..|lines| - 1], lines[|lines| - 1];
      EntriesExact(read, o, front);
      HoldsTaken(read, o, last);
      var more := if HoldsEvent(read, o, last) then [Entry(|lines|, read(last).event)] else [];
      assert Entries(read, o, lines) == Entries(read, o, front) + more;
      forall n: nat, e
        ensures Entry(n, e) in Entries(read, o, lines) <==> 1 <= n <= |lines| && Takes(read, o, lines[n - 1], e)
      {
        assert Entry(n, e) in Entries(read, o, lines) <==> Entry(n, e) in Entries(read, o, front) || Entry(n, e) in more;
        if 1 <= n <= |front| { assert lines[n - 1] == front[n - 1]; }
      }
    }
  }

  lemma {:induction false} ScopedWithin(entries: seq<Entry>, id: string, bound: nat)
    requires forall i :: 0 <= i < |entries| ==> entries[i].line < bound
    ensures forall i :: 0 <= i < |Scoped(entries, id)| ==> Scoped(entries, id)[i].line < bound
  {
    if entries != [] { ScopedWithin(entries[..|entries| - 1], id, bound); }
  }

  lemma FirstStays(entries: seq<Entry>, id: string)
    requires entries != [] && id in Sessions(entries[..|entries| - 1])
    ensures id in Sessions(entries) && FirstOf(entries, id) == FirstOf(entries[..|entries| - 1], id)
  {
    ScopedNotEmpty(entries[..|entries| - 1], id);
  }

  /** Sessions taken in order of first appearance start in line order, so sorting their starts by line moves nothing. */
  lemma {:induction false} FirstsAscend(entries: seq<Entry>, i: nat, j: nat)
    requires Ascending(entries) && i < j < |Sessions(entries)|
    ensures FirstOf(entries, Sessions(entries)[i]).line < FirstOf(entries, Sessions(entries)[j]).line
  {
    var front, last := entries[..|entries| - 1], entries[|entries| - 1];
    var a, b := Sessions(entries)[i], Sessions(entries)[j];
    assert Sessions(front)[i] == a;
    FirstStays(entries, a);
    if j < |Sessions(front)| {
      assert Sessions(front)[j] == b;
      FirstStays(entries, b);
      FirstsAscend(front, i, j);
    } else {
      ScopedNotEmpty(front, b);
      ScopedNotEmpty(front, a);
      ScopedWithin(front, a, last.line);
      assert Scoped(entries, b) == [last];
    }
  }
}
