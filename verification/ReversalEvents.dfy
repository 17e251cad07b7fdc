/** Reversal intents, the events of the log, their JSON form and what replaying them means. */
module ReversalEvents {
  import opened Prelude
  import opened Json
  import I = Iso8583

  datatype Intent = Intent(
    id: string,
    transaction: string,
    originalTrace: string,
    amountMinor: nat,
    currencyNumericCode: string,
    terminalId: string,
    transmissionDateTime: string,
    reason: string)

  datatype Status = Outstanding | Done

  datatype Record = Record(
    intent: Intent,
    status: Status,
    attempts: nat,
    createdAt: string,
    updatedAt: string,
    lastError: Option<string>)

  datatype Event =
    | Queued(ts: string, intent: Intent)
    | Attempted(ts: string, id: string)
    | Failed(ts: string, id: string, error: string)
    | Completed(ts: string, id: string)

  function IdOf(e: Event): string {
    if e.Queued? then e.intent.id else e.id
  }

  // ----- validation -----

  predicate IsLetter(c: char) { 'a' <= c <= 'z' || 'A' <= c <= 'Z' }

  predicate NameChar(c: char) {
    IsLetter(c) || I.IsDigit(c) || c == '.' || c == '_' || c == ':' || c == '-'
  }

  predicate AllNameChars(s: string) { forall i :: 0 <= i < |s| ==> NameChar(s[i]) }

  predicate ReasonChars(s: string) {
    forall i :: 0 <= i < |s| ==> 'a' <= s[i] <= 'z' || I.IsDigit(s[i]) || s[i] == '_'
  }

  predicate ValidIntent(intent: Intent) {
    && 1 <= |intent.id| <= 128 && AllNameChars(intent.id)
    && 1 <= |intent.transaction| <= 64 && IsLetter(intent.transaction[0]) && AllNameChars(intent.transaction)
    && |intent.originalTrace| == 6 && I.AllDigits(intent.originalTrace)
    && intent.amountMinor <= 999_999_999_999
    && |intent.currencyNumericCode| == 3 && I.AllDigits(intent.currencyNumericCode)
    && 1 <= |intent.terminalId| <= 8 && I.AllPrintable(intent.terminalId)
    && |intent.transmissionDateTime| == 10 && I.AllDigits(intent.transmissionDateTime)
    && 1 <= |intent.reason| <= 64 && 'a' <= intent.reason[0] <= 'z' && ReasonChars(intent.reason)
  }

  function TwoDigits(s: string, i: nat): nat
    requires i + 2 <= |s| && I.IsDigit(s[i]) && I.IsDigit(s[i + 1])
  {
    10 * I.DigitValue(s[i]) + I.DigitValue(s[i + 1])
  }

  function DaysIn(year: int, month: nat): nat {
    if month == 2 then (if year % 4 == 0 && (year % 100 != 0 || year % 400 == 0) then 29 else 28)
    else if month == 4 || month == 6 || month == 9 || month == 11 then 30 else 31
  }

  predicate DigitsAt(s: string, i: nat, n: nat) {
    i + n <= |s| && forall k :: i <= k < i + n ==> I.IsDigit(s[k])
  }

  /** -MM-DDTHH:MM:SS.mmmZ from `o` to the end, a day of the calendar in `year`. */
  predicate CalendarAt(s: string, o: nat, year: int) {
    && |s| == o + 20
    && s[o] == '-' && s[o + 3] == '-' && s[o + 6] == 'T' && s[o + 9] == ':' && s[o + 12] == ':' && s[o + 15] == '.' && s[o + 19] == 'Z'
    && DigitsAt(s, o + 1, 2) && DigitsAt(s, o + 4, 2) && DigitsAt(s, o + 7, 2)
    && DigitsAt(s, o + 10, 2) && DigitsAt(s, o + 13, 2) && DigitsAt(s, o + 16, 3)
    && 1 <= TwoDigits(s, o + 1) <= 12
    && 1 <= TwoDigits(s, o + 4) <= DaysIn(year, TwoDigits(s, o + 1))
    && TwoDigits(s, o + 7) < 24 && TwoDigits(s, o + 10) < 60 && TwoDigits(s, o + 13) < 60
  }

  /** The last instant a Date can hold is +275760-09-13T00:00:00.000Z, the first -271821-04-20T00:00:00.000Z. */
  predicate InDateRange(s: string, year: int)
    requires CalendarAt(s, 7, year)
  {
    var month, day := TwoDigits(s, 8), TwoDigits(s, 11);
    && -271821 <= year <= 275760
    && (year == -271821 ==> month > 4 || (month == 4 && day >= 20))
    && (year == 275760 ==> month < 9 || (month == 9 && (day < 13 || (day == 13 && s[13..] == "T00:00:00.000Z"))))
  }

  /** The texts toISOString prints: four-digit years, or six digits with a sign beyond them. */
  predicate ValidTimestamp(s: string) {
    if |s| == 24 then
      DigitsAt(s, 0, 4) && CalendarAt(s, 4, 100 * TwoDigits(s, 0) + TwoDigits(s, 2))
    else
      && |s| == 27 && (s[0] == '+' || s[0] == '-') && DigitsAt(s, 1, 6)
      && var size := 10000 * TwoDigits(s, 1) + 100 * TwoDigits(s, 3) + TwoDigits(s, 5);
      var year := if s[0] == '+' then size else -size;
      && (year < 0 || year > 9999)
      && CalendarAt(s, 7, year) && InDateRange(s, year)
  }

  /** Events the store itself writes. */
  predicate ValidEvent(e: Event) {
    && ValidTimestamp(e.ts)
    && (e.Queued? ==> ValidIntent(e.intent))
    && (e.Failed? ==> |e.error| <= 500)
  }

  // ----- replay -----

  function ApplyEvent(records: map<string, Record>, e: Event): Result<map<string, Record>, string> {
    match e
    case Queued(ts, intent) =>
      if intent.id in records then Err("duplicate queued reversal id")
      else Ok(records[intent.id := Record(intent, Outstanding, 0, ts, ts, None)])
    case _ =>
      if IdOf(e) !in records then Err("unknown id")
      else if records[IdOf(e)].status.Done? && !e.Completed? then Err("changed after completion")
      else Ok(records[IdOf(e) := Change(records[IdOf(e)], e)])
  }

  /** What an event other than `Queued` does to its record. */
  function Change(record: Record, e: Event): Record {
    var touched := record.(updatedAt := e.ts);
    match e
    case Attempted(_, _) => touched.(attempts := record.attempts + 1)
    case Failed(_, _, error) => touched.(lastError := Some(error))
    case Completed(_, _) => touched.(status := Done)
    case Queued(_, _) => record
  }

  function Replay(events: seq<Event>): Result<map<string, Record>, string> {
    if events == [] then Ok(map[])
    else
      var before := Replay(events[..|events| - 1]);
      if before.Err? then before else ApplyEvent(before.value, events[|events| - 1])
  }

  function CountAttempts(events: seq<Event>, id: string): nat {
    if events == [] then 0
    else
      var last := events[|events| - 1];
      CountAttempts(events[..|events| - 1], id) + (if last.Attempted? && last.id == id then 1 else 0)
  }

  ghost predicate Mentions(events: seq<Event>, id: string, completed: bool) {
    exists i :: 0 <= i < |events| && IdOf(events[i]) == id && (if completed then events[i].Completed? else events[i].Queued?)
  }

  lemma MentionsLast(events: seq<Event>, id: string, completed: bool)
    requires events != []
    ensures var last := events[|events| - 1];
      Mentions(events, id, completed) <==>
        Mentions(events[..|events| - 1], id, completed)
        || (IdOf(last) == id && if completed then last.Completed? else last.Queued?)
  {
    var front := events[..|events| - 1];
    if Mentions(front, id, completed) {
      var i :| 0 <= i < |front| && IdOf(front[i]) == id && (if completed then front[i].Completed? else front[i].Queued?);
      assert events[i] == front[i];
    }
    if Mentions(events, id, completed) {
      var i :| 0 <= i < |events| && IdOf(events[i]) == id && (if completed then events[i].Completed? else events[i].Queued?);
      if i < |front| { assert front[i] == events[i]; }
    }
  }

  /**
   * What a replayed log says about each id: it is present iff it was queued,
   * its attempts are the attempted events, and it is done iff it was completed.
   */
  lemma {:induction false} ReplayMeans(events: seq<Event>, id: string)
    requires Replay(events).Ok?
    ensures var records := Replay(events).value;
      && (id in records <==> Mentions(events, id, false))
      && (id in records ==>
            && records[id].attempts == CountAttempts(events, id)
            && (records[id].status.Done? <==> Mentions(events, id, true)))
      && (id !in records ==> CountAttempts(events, id) == 0 && !Mentions(events, id, true))
  {
    if events != [] {
      ReplayMeans(events[..|events| - 1], id);
      MentionsLast(events, id, false);
      MentionsLast(events, id, true);
    }
  }

  // ----- JSON -----

  function Decimal(n: nat): string {
    if n < 10 then [I.Digit(n)] else Decimal(n / 10) + [I.Digit(n % 10)]
  }

  function DecimalValue(t: string): nat
    requires I.AllDigits(t)
  {
    if t == "" then 0 else 10 * DecimalValue(t[..|t| - 1]) + I.DigitValue(t[|t| - 1])
  }

  lemma {:induction false} DecimalRoundTrip(n: nat)
    ensures Decimal(n) != "" && I.AllDigits(Decimal(n)) && DecimalValue(Decimal(n)) == n
  {
    if n >= 10 {
      DecimalRoundTrip(n / 10);
      assert Decimal(n)[..|Decimal(n)| - 1] == Decimal(n / 10);
    } else {
      assert Decimal(n)[..0] == "";
    }
  }

  function IntentJson(intent: Intent): Value {
    Obj([
      Field("id", Str(intent.id)),
      Field("transaction", Str(intent.transaction)),
      Field("originalTrace", Str(intent.originalTrace)),
      Field("amountMinor", Num(Decimal(intent.amountMinor))),
      Field("currencyNumericCode", Str(intent.currencyNumericCode)),
      Field("terminalId", Str(intent.terminalId)),
      Field("transmissionDateTime", Str(intent.transmissionDateTime)),
      Field("reason", Str(intent.reason))])
  }

  function EventFields(e: Event): seq<Field> {
    match e
    case Queued(ts, intent) => [Field("type", Str("queued")), Field("ts", Str(ts)), Field("intent", IntentJson(intent))]
    case Attempted(ts, id) => [Field("type", Str("attempted")), Field("ts", Str(ts)), Field("id", Str(id))]
    case Failed(ts, id, error) =>
      [Field("type", Str("failed")), Field("ts", Str(ts)), Field("id", Str(id)), Field("error", Str(error))]
    case Completed(ts, id) => [Field("type", Str("completed")), Field("ts", Str(ts)), Field("id", Str(id))]
  }

  function EventJson(e: Event): Value { Obj(EventFields(e)) }

  function Get(fields: seq<Field>, key: string): Option<Value> {
    if fields == [] then None
    else if fields[0].key == key then Some(fields[0].value)
    else Get(fields[1..], key)
  }

  function GetText(fields: seq<Field>, key: string): Option<string> {
    match Get(fields, key)
    case Some(Str(s)) => Some(s)
    case _ => None
  }

  function GetInteger(fields: seq<Field>, key: string): Option<nat> {
    match Get(fields, key)
    case Some(Num(t)) => if t != "" && I.AllDigits(t) then Some(DecimalValue(t)) else None
    case _ => None
  }

  predicate KeysIn(fields: seq<Field>, allowed: seq<string>) {
    forall i :: 0 <= i < |fields| ==> fields[i].key in allowed
  }

  const INTENT_KEYS := ["id", "transaction", "originalTrace", "amountMinor",
    "currencyNumericCode", "terminalId", "transmissionDateTime", "reason"]

  function ParseIntent(v: Value): Option<Intent> {
    if !v.Obj? || !KeysIn(v.fields, INTENT_KEYS) then None
    else
      var f := v.fields;
      match (GetText(f, "id"), GetText(f, "transaction"), GetText(f, "originalTrace"), GetInteger(f, "amountMinor"))
      case (Some(id), Some(transaction), Some(trace), Some(amount)) =>
        (match (GetText(f, "currencyNumericCode"), GetText(f, "terminalId"), GetText(f, "transmissionDateTime"), GetText(f, "reason"))
         case (Some(currency), Some(terminal), Some(sentAt), Some(reason)) =>
           var intent := Intent(id, transaction, trace, amount, currency, terminal, sentAt, reason);
           if ValidIntent(intent) then Some(intent) else None
         case _ => None)
      case _ => None
  }

  /** The exact-key test: as many keys as allowed, each of them allowed. */
  predicate ExactKeys(fields: seq<Field>, allowed: seq<string>) {
    |fields| == |allowed| && KeysIn(fields, allowed)
  }

  function ParseEvent(v: Value): Result<Event, string> {
    if !v.Obj? then Err("schema") else
      var f := v.fields;
      match (GetText(f, "type"), GetText(f, "ts"))
      case (Some(kind), Some(ts)) =>
        if !ValidTimestamp(ts) then Err("schema")
        else if kind == "queued" then
          if !ExactKeys(f, ["type", "ts", "intent"]) then Err("schema") else
            (match Get(f, "intent")
             case Some(i) => (match ParseIntent(i) case Some(intent) => Ok(Queued(ts, intent)) case None => Err("intent"))
             case None => Err("intent"))
        else if (kind == "attempted" || kind == "completed") && GetText(f, "id").Some? then
          if !ExactKeys(f, ["type", "ts", "id"]) then Err("schema")
          else if kind == "attempted" then Ok(Attempted(ts, GetText(f, "id").value))
          else Ok(Completed(ts, GetText(f, "id").value))
        else if kind == "failed" && GetText(f, "id").Some? && GetText(f, "error").Some? && |GetText(f, "error").value| <= 500 then
          if !ExactKeys(f, ["type", "ts", "id", "error"]) then Err("schema")
          else Ok(Failed(ts, GetText(f, "id").value, GetText(f, "error").value))
        else Err("schema")
      case _ => Err("schema")
  }

  lemma {:induction false} GetAt(fields: seq<Field>, i: nat)
    requires i < |fields| && DistinctKeys(fields)
    ensures Get(fields, fields[i].key) == Some(fields[i].value)
  {
    if i > 0 {
      GetAt(fields[1..], i - 1);
    }
  }

  lemma TextAt(fields: seq<Field>, i: nat, key: string, text: string)
    requires i < |fields| && DistinctKeys(fields) && fields[i] == Field(key, Str(text))
    ensures GetText(fields, key) == Some(text)
  {
    GetAt(fields, i);
  }

  lemma IntegerAt(fields: seq<Field>, i: nat, key: string, n: nat)
    requires i < |fields| && DistinctKeys(fields) && fields[i] == Field(key, Num(Decimal(n)))
    ensures GetInteger(fields, key) == Some(n)
  {
    GetAt(fields, i);
    DecimalRoundTrip(n);
  }

  lemma IntentWellFormed(intent: Intent)
    ensures WellFormed(IntentJson(intent))
  {
    IntentKeys(intent);
    DecimalRoundTrip(intent.amountMinor);
    DecimalIsToken(intent.amountMinor);
  }

  lemma DecimalIsToken(n: nat)
    ensures ValidToken(Decimal(n))
  {
    DecimalRoundTrip(n);
    var t := Decimal(n);
    forall i | 0 <= i < |t| ensures '0' <= t[i] <= '9' {}
  }

  lemma IntentRoundTrip(intent: Intent)
    requires ValidIntent(intent)
    ensures WellFormed(IntentJson(intent)) && ParseIntent(IntentJson(intent)) == Some(intent)
  {
    IntentWellFormed(intent);
    IntentKeys(intent);
    IntentFirstHalf(intent);
    IntentSecondHalf(intent);
  }

  lemma IntentFirstHalf(intent: Intent)
    ensures var f := IntentJson(intent).fields;
      && GetText(f, "id") == Some(intent.id) && GetText(f, "transaction") == Some(intent.transaction)
      && GetText(f, "originalTrace") == Some(intent.originalTrace) && GetInteger(f, "amountMinor") == Some(intent.amountMinor)
  {
    var f := IntentJson(intent).fields;
    IntentKeys(intent);
    TextAt(f, 0, "id", intent.id);
    TextAt(f, 1, "transaction", intent.transaction);
    TextAt(f, 2, "originalTrace", intent.originalTrace);
    IntegerAt(f, 3, "amountMinor", intent.amountMinor);
  }

  lemma IntentSecondHalf(intent: Intent)
    ensures var f := IntentJson(intent).fields;
      && GetText(f, "currencyNumericCode") == Some(intent.currencyNumericCode)
      && GetText(f, "terminalId") == Some(intent.terminalId)
      && GetText(f, "transmissionDateTime") == Some(intent.transmissionDateTime)
      && GetText(f, "reason") == Some(intent.reason)
  {
    var f := IntentJson(intent).fields;
    IntentKeys(intent);
    TextAt(f, 4, "currencyNumericCode", intent.currencyNumericCode);
    TextAt(f, 5, "terminalId", intent.terminalId);
    TextAt(f, 6, "transmissionDateTime", intent.transmissionDateTime);
    TextAt(f, 7, "reason", intent.reason);
  }

  lemma IntentKeys(intent: Intent)
    ensures DistinctKeys(IntentJson(intent).fields) && KeysIn(IntentJson(intent).fields, INTENT_KEYS)
  {
    var f := IntentJson(intent).fields;
    forall i | 0 <= i < |f| ensures f[i].key == INTENT_KEYS[i] {}
    assert |INTENT_KEYS[0]| == 2 && |INTENT_KEYS[1]| == 11 && |INTENT_KEYS[2]| == 13 && |INTENT_KEYS[3]| == 11;
    assert |INTENT_KEYS[4]| == 19 && |INTENT_KEYS[5]| == 10 && |INTENT_KEYS[6]| == 20 && |INTENT_KEYS[7]| == 6;
    assert INTENT_KEYS[1][0] != INTENT_KEYS[3][0];
  }

  lemma EventKeys(e: Event)
    ensures DistinctKeys(EventFields(e))
    ensures KeysIn(EventFields(e),
      if e.Queued? then ["type", "ts", "intent"] else if e.Failed? then ["type", "ts", "id", "error"] else ["type", "ts", "id"])
  {
    var f := EventFields(e);
    assert f[0].key == "type" && f[1].key == "ts" && |f[0].key| == 4 && |f[1].key| == 2 && f[1].key[0] == 't';
    assert f[2].key == (if e.Queued? then "intent" else "id");
    assert e.Failed? ==> f[3].key == "error";
    assert "id"[0] == 'i';
    if e.Queued? {
      assert KeysIn(f, ["type", "ts", "intent"]);
    } else if e.Failed? {
      assert KeysIn(f, ["type", "ts", "id", "error"]);
    } else {
      assert KeysIn(f, ["type", "ts", "id"]);
    }
  }

  lemma QueuedRoundTrip(e: Event)
    requires ValidEvent(e) && e.Queued?
    ensures WellFormed(EventJson(e)) && ParseEvent(EventJson(e)) == Ok(e)
  {
    var f := EventFields(e);
    EventKeys(e);
    TextAt(f, 0, "type", "queued");
    TextAt(f, 1, "ts", e.ts);
    GetAt(f, 2);
    IntentRoundTrip(e.intent);
  }

  lemma PlainRoundTrip(e: Event)
    requires ValidEvent(e) && (e.Attempted? || e.Completed?)
    ensures WellFormed(EventJson(e)) && ParseEvent(EventJson(e)) == Ok(e)
  {
    var f := EventFields(e);
    EventKeys(e);
    TextAt(f, 0, "type", if e.Attempted? then "attempted" else "completed");
    TextAt(f, 1, "ts", e.ts);
    TextAt(f, 2, "id", e.id);
    assert "attempted"[0] == 'a' && "completed"[0] == 'c' && "queued"[0] == 'q';
  }

  lemma FailedRoundTrip(e: Event)
    requires ValidEvent(e) && e.Failed?
    ensures WellFormed(EventJson(e)) && ParseEvent(EventJson(e)) == Ok(e)
  {
    var f := EventFields(e);
    EventKeys(e);
    TextAt(f, 0, "type", "failed");
    TextAt(f, 1, "ts", e.ts);
    TextAt(f, 2, "id", e.id);
    TextAt(f, 3, "error", e.error);
    assert "attempted"[0] == 'a' && "failed"[0] == 'f' && "completed"[0] == 'c' && "queued"[0] == 'q';
  }

  /** Every event the store writes is a JSON object that parses back to itself. */
  lemma EventRoundTrip(e: Event)
    requires ValidEvent(e)
    ensures WellFormed(EventJson(e)) && ParseEvent(EventJson(e)) == Ok(e)
  {
    if e.Queued? { QueuedRoundTrip(e); } else if e.Failed? { FailedRoundTrip(e); } else { PlainRoundTrip(e); }
  }
}
