/** Length-prefixed framing of host messages, and the reassembler fed by arbitrary chunks. */
module FramedTransport {
  import opened Prelude

  type Byte = b: int | 0 <= b < 256

  datatype Config = Config(lengthBytes: nat, maxFrameBytes: nat)

  /** What the transport's constructor accepts. */
  predicate ValidConfig(c: Config) {
    && (c.lengthBytes == 2 || c.lengthBytes == 4)
    && 1 <= c.maxFrameBytes <= (if c.lengthBytes == 2 then 0xffff else 0xffff_ffff)
  }

  /** The limits taken are exactly those whose every length the header can hold. */
  lemma ConfigExact(c: Config)
    ensures ValidConfig(c) <==> c.lengthBytes in {2, 4} && 1 <= c.maxFrameBytes < Capacity(c.lengthBytes)
  {
    assert Capacity(2) == 0x1_0000 && Capacity(4) == 0x1_0000_0000;
  }

  /** `n` as `width` big-endian bytes, and back. */
  function BigEndian(n: nat, width: nat): seq<Byte> {
    if width == 0 then [] else BigEndian(n / 256, width - 1) + [n % 256]
  }

  function FromBigEndian(h: seq<Byte>): nat {
    if h == [] then 0 else
      var last: int := h[|h| - 1];
      FromBigEndian(h[..|h| - 1]) * 256 + last
  }

  function Capacity(width: nat): nat {
    if width == 0 then 1 else 256 * Capacity(width - 1)
  }

  lemma {:induction false} BigEndianRoundTrip(n: nat, width: nat)
    requires n < Capacity(width)
    ensures |BigEndian(n, width)| == width && FromBigEndian(BigEndian(n, width)) == n
  {
    if width > 0 {
      BigEndianRoundTrip(n / 256, width - 1);
      assert BigEndian(n, width)[..width - 1] == BigEndian(n / 256, width - 1);
    }
  }

  lemma {:induction false} BigEndianUnique(h: seq<Byte>)
    ensures BigEndian(FromBigEndian(h), |h|) == h
  {
    if h != [] {
      BigEndianUnique(h[..|h| - 1]);
      var last: int := h[|h| - 1];
      assert FromBigEndian(h) / 256 == FromBigEndian(h[..|h| - 1]) && FromBigEndian(h) % 256 == last;
    }
  }

  function Header(c: Config, n: nat): seq<Byte> {
    BigEndian(n, c.lengthBytes)
  }

  function HeaderValue(c: Config, s: seq<Byte>): nat
    requires |s| >= c.lengthBytes
  {
    FromBigEndian(s[..c.lengthBytes])
  }

  lemma HeaderRoundTrip(c: Config, n: nat, rest: seq<Byte>)
    requires ValidConfig(c) && n <= c.maxFrameBytes
    ensures |Header(c, n)| == c.lengthBytes && HeaderValue(c, Header(c, n) + rest) == n
  {
    assert Capacity(2) == 0x1_0000 && Capacity(4) == 0x1_0000_0000;
    BigEndianRoundTrip(n, c.lengthBytes);
    assert (Header(c, n) + rest)[..c.lengthBytes] == Header(c, n);
  }

  predicate Printable(payload: seq<Byte>) {
    forall i :: 0 <= i < |payload| ==> 0x20 <= payload[i] <= 0x7e
  }

  /** A payload the transport carries: printable ASCII, not empty, within the limit. */
  predicate Carries(c: Config, payload: seq<Byte>) {
    Printable(payload) && 1 <= |payload| <= c.maxFrameBytes
  }

  function Frame(c: Config, payload: seq<Byte>): seq<Byte>
    requires ValidConfig(c)
  {
    Header(c, |payload|) + payload
  }

  /** The bytes of a frame: the payload's length, highest byte first, and the payload. */
  lemma FrameBytes(c: Config, payload: seq<Byte>)
    requires ValidConfig(c) && |payload| <= c.maxFrameBytes
    ensures var n := |payload|;
      Frame(c, payload) ==
        (if c.lengthBytes == 2 then [n / 256, n % 256]
         else [n / 0x100_0000, n / 0x1_0000 % 256, n / 256 % 256, n % 256]) + payload
  {
    var n := |payload|;
    assert n / 256 / 256 == n / 0x1_0000 && n / 256 / 256 / 256 == n / 0x100_0000;
    if c.lengthBytes == 2 {
      assert BigEndian(n, 2) == BigEndian(n / 256, 1) + [n % 256];
      assert BigEndian(n / 256, 1) == [n / 256 % 256];
    } else {
      assert BigEndian(n, 4) == BigEndian(n / 256, 3) + [n % 256];
      assert BigEndian(n / 256, 3) == BigEndian(n / 256 / 256, 2) + [n / 256 % 256];
      assert BigEndian(n / 256 / 256, 2) == BigEndian(n / 256 / 256 / 256, 1) + [n / 256 / 256 % 256];
      assert BigEndian(n / 256 / 256 / 256, 1) == [n / 256 / 256 / 256 % 256];
    }
  }

  /** The number a header stands for, highest byte first. */
  lemma HeaderMeans(c: Config, s: seq<Byte>)
    requires ValidConfig(c) && |s| >= c.lengthBytes
    ensures HeaderValue(c, s) ==
      if c.lengthBytes == 2 then s[0] as int * 256 + s[1]
      else ((s[0] as int * 256 + s[1]) * 256 + s[2]) * 256 + s[3]
  {
    var h := s[..c.lengthBytes];
    HeaderStep(h);
    HeaderStep(h[..|h| - 1]);
    if c.lengthBytes == 4 {
      HeaderStep(h[..2]);
      HeaderStep(h[..1]);
      assert h[..3][..2] == h[..2] && h[..2][..1] == h[..1];
    }
  }

  lemma HeaderStep(h: seq<Byte>)
    requires h != []
    ensures var last: int := h[|h| - 1]; FromBigEndian(h) == FromBigEndian(h[..|h| - 1]) * 256 + last
  {}

  datatype Outcome = Pending | Succeeded(response: seq<Byte>) | Failed(reason: string)

  /** The reassembler as a value: bytes so far, the parsed length, and whether it has settled. */
  datatype Reader = Reader(buffer: seq<Byte>, expected: Option<nat>, outcome: Outcome)

  const IDLE := Reader([], None, Pending)

  function Feed(c: Config, r: Reader, chunk: seq<Byte>, late: bool): Reader
    requires ValidConfig(c)
  {
    if !r.outcome.Pending? then r else
      var s := r.buffer + chunk;
      if |s| > c.lengthBytes + c.maxFrameBytes then Reader(s, r.expected, Failed("exceeds maximum")) else
        var isNew := r.expected.None? && |s| >= c.lengthBytes;
        var expected := if isNew then Some(HeaderValue(c, s)) else r.expected;
        if isNew && !(1 <= expected.value <= c.maxFrameBytes) then Reader(s, expected, Failed("length invalid"))
        else if |s| > c.lengthBytes + (if expected.Some? then expected.value else c.maxFrameBytes) then
          Reader(s, expected, Failed("trailing data"))
        else if expected.Some? && |s| == c.lengthBytes + expected.value then
          if late then Reader(s, expected, Failed("after the deadline"))
          else if !Printable(s[c.lengthBytes..]) then Reader(s, expected, Failed("not printable"))
          else Reader(s, expected, Succeeded(s[c.lengthBytes..]))
        else Reader(s, expected, Pending)
  }

  /** A byte stream that is a proper beginning of some frame. */
  predicate Incomplete(c: Config, s: seq<Byte>)
    requires ValidConfig(c)
  {
    |s| < c.lengthBytes || (1 <= HeaderValue(c, s) <= c.maxFrameBytes && |s| < c.lengthBytes + HeaderValue(c, s))
  }

  /** The reader agrees with the bytes it has seen. */
  predicate Waiting(c: Config, r: Reader)
    requires ValidConfig(c)
  {
    && r.outcome.Pending?
    && Incomplete(c, r.buffer)
    && r.expected == if |r.buffer| >= c.lengthBytes then Some(HeaderValue(c, r.buffer)) else None
  }

  /** Bytes that are complete by their own header are the frame of what follows it. */
  lemma CompleteIsFrame(c: Config, s: seq<Byte>)
    requires ValidConfig(c) && |s| >= c.lengthBytes && |s| == c.lengthBytes + HeaderValue(c, s)
    ensures s == Frame(c, s[c.lengthBytes..])
  {
    BigEndianUnique(s[..c.lengthBytes]);
  }

  lemma FrameParts(c: Config, p: seq<Byte>)
    requires ValidConfig(c) && |p| <= c.maxFrameBytes
    ensures |Frame(c, p)| == c.lengthBytes + |p| && HeaderValue(c, Frame(c, p)) == |p|
    ensures Frame(c, p)[c.lengthBytes..] == p
  {
    HeaderRoundTrip(c, |p|, p);
  }

  /** One chunk: still waiting iff the bytes are incomplete, success iff they are exactly one frame. */
  lemma FeedStep(c: Config, r: Reader, chunk: seq<Byte>)
    requires ValidConfig(c) && Waiting(c, r)
    ensures var r' := Feed(c, r, chunk, false); var s := r.buffer + chunk;
      && r'.buffer == s
      && (r'.outcome.Pending? <==> Incomplete(c, s))
      && (r'.outcome.Pending? ==> Waiting(c, r'))
      && (r'.outcome.Succeeded? ==> s == Frame(c, r'.outcome.response) && Carries(c, r'.outcome.response))
  {
    var s := r.buffer + chunk;
    if |r.buffer| >= c.lengthBytes {
      assert s[..c.lengthBytes] == r.buffer[..c.lengthBytes];
    }
    if |s| >= c.lengthBytes && |s| == c.lengthBytes + HeaderValue(c, s) {
      CompleteIsFrame(c, s);
    }
  }

  lemma FeedFrame(c: Config, r: Reader, chunk: seq<Byte>, p: seq<Byte>)
    requires ValidConfig(c) && Waiting(c, r) && Carries(c, p) && r.buffer + chunk == Frame(c, p)
    ensures Feed(c, r, chunk, false).outcome == Succeeded(p)
  {
    var s := r.buffer + chunk;
    FrameParts(c, p);
    if |r.buffer| >= c.lengthBytes {
      assert s[..c.lengthBytes] == r.buffer[..c.lengthBytes];
    }
  }

  function Concat(chunks: seq<seq<Byte>>): seq<Byte> {
    if chunks == [] then [] else Concat(chunks[..|chunks| - 1]) + chunks[|chunks| - 1]
  }

  function FeedAll(c: Config, chunks: seq<seq<Byte>>): Reader
    requires ValidConfig(c)
  {
    if chunks == [] then IDLE
    else Feed(c, FeedAll(c, chunks[..|chunks| - 1]), chunks[|chunks| - 1], false)
  }

  lemma {:induction false} ConcatPrefix(chunks: seq<seq<Byte>>, k: nat)
    requires k <= |chunks|
    ensures Concat(chunks[..k]) <= Concat(chunks)
  {
    if k < |chunks| {
      ConcatPrefix(chunks[..|chunks| - 1], k);
      assert chunks[..|chunks| - 1][..k] == chunks[..k];
    } else {
      assert chunks[..k] == chunks;
    }
  }

  /** A proper beginning of a frame is incomplete. */
  lemma ProperPrefixIncomplete(c: Config, s: seq<Byte>, p: seq<Byte>)
    requires ValidConfig(c) && Carries(c, p) && s < Frame(c, p)
    ensures Incomplete(c, s)
  {
    FrameParts(c, p);
    if |s| >= c.lengthBytes {
      assert s[..c.lengthBytes] == Frame(c, p)[..c.lengthBytes];
    }
  }

  lemma {:induction false} PendingIsWaiting(c: Config, chunks: seq<seq<Byte>>)
    requires ValidConfig(c) && FeedAll(c, chunks).outcome.Pending?
    ensures Waiting(c, FeedAll(c, chunks)) && FeedAll(c, chunks).buffer == Concat(chunks)
  {
    if chunks != [] {
      var front := chunks[..|chunks| - 1];
      PendingIsWaiting(c, front);
      FeedStep(c, FeedAll(c, front), chunks[|chunks| - 1]);
    }
  }

  /** The chunk that settled the reader: everything before it was incomplete, its join was not. */
  lemma {:induction false} SettledBy(c: Config, chunks: seq<seq<Byte>>) returns (k: nat)
    requires ValidConfig(c) && !FeedAll(c, chunks).outcome.Pending?
    ensures 1 <= k <= |chunks|
    ensures FeedAll(c, chunks[..k - 1]).outcome.Pending?
    ensures FeedAll(c, chunks[..k]).outcome == FeedAll(c, chunks).outcome
  {
    var n := |chunks| - 1;
    var front := chunks[..n];
    if FeedAll(c, front).outcome.Pending? {
      k := n + 1;
      assert chunks[..k] == chunks;
    } else {
      k := SettledBy(c, front);
      assert front[..k] == chunks[..k] && front[..k - 1] == chunks[..k - 1];
    }
  }

  lemma SettlingChunk(c: Config, chunks: seq<seq<Byte>>, k: nat)
    requires ValidConfig(c) && 1 <= k <= |chunks|
    requires FeedAll(c, chunks[..k - 1]).outcome.Pending?
    ensures var before := FeedAll(c, chunks[..k - 1]);
      && Waiting(c, before) && before.buffer + chunks[k - 1] == Concat(chunks[..k])
      && FeedAll(c, chunks[..k]) == Feed(c, before, chunks[k - 1], false)
  {
    PendingIsWaiting(c, chunks[..k - 1]);
    assert chunks[..k][..k - 1] == chunks[..k - 1];
  }

  /** Some number of leading chunks joins to exactly this frame. */
  ghost predicate FrameEndsAt(c: Config, chunks: seq<seq<Byte>>, p: seq<Byte>, k: nat)
    requires ValidConfig(c)
  {
    k <= |chunks| && Concat(chunks[..k]) == Frame(c, p)
  }

  lemma FrameSucceeds(c: Config, chunks: seq<seq<Byte>>, p: seq<Byte>, k: nat)
    requires ValidConfig(c) && Carries(c, p) && FrameEndsAt(c, chunks, p, k)
    ensures FeedAll(c, chunks).outcome == Succeeded(p)
  {
    FrameParts(c, p);
    NotPendingAt(c, chunks, p, k);
    var j := SettledBy(c, chunks);
    SettlingChunk(c, chunks, j);
    if k < j {
      assert chunks[..j - 1][..k] == chunks[..k];
      NotPendingAt(c, chunks[..j - 1], p, k);
    }
    ConcatPrefix(chunks[..k], j);
    assert chunks[..k][..j] == chunks[..j];
    FeedStep(c, FeedAll(c, chunks[..j - 1]), chunks[j - 1]);
    if Concat(chunks[..j]) < Frame(c, p) {
      ProperPrefixIncomplete(c, Concat(chunks[..j]), p);
    }
    FeedFrame(c, FeedAll(c, chunks[..j - 1]), chunks[j - 1], p);
  }

  lemma {:induction false} NotPendingAt(c: Config, chunks: seq<seq<Byte>>, p: seq<Byte>, k: nat)
    requires ValidConfig(c) && Carries(c, p) && k <= |chunks| && Concat(chunks[..k]) == Frame(c, p)
    ensures !FeedAll(c, chunks).outcome.Pending?
    decreases |chunks|
  {
    assert chunks[..|chunks|] == chunks;
    FrameParts(c, p);
    if k < |chunks| {
      assert chunks[..|chunks| - 1][..k] == chunks[..k];
      NotPendingAt(c, chunks[..|chunks| - 1], p, k);
    } else if FeedAll(c, chunks).outcome.Pending? {
      PendingIsWaiting(c, chunks);
    }
  }

  /**
   * The reassembler succeeds with `p` exactly when some leading chunks join to
   * the frame of `p`, and then never anything else.
   */
  lemma ReassemblyExact(c: Config, chunks: seq<seq<Byte>>, p: seq<Byte>)
    requires ValidConfig(c)
    ensures FeedAll(c, chunks).outcome == Succeeded(p) <==>
      && 1 <= |p| <= c.maxFrameBytes && (forall i :: 0 <= i < |p| ==> 0x20 <= p[i] <= 0x7E)
      && exists k: nat :: FrameEndsAt(c, chunks, p, k)
  {
    if FeedAll(c, chunks).outcome == Succeeded(p) {
      var k := SettledBy(c, chunks);
      SettlingChunk(c, chunks, k);
      FeedStep(c, FeedAll(c, chunks[..k - 1]), chunks[k - 1]);
      assert FrameEndsAt(c, chunks, p, k);
    }
    if Carries(c, p) && exists k: nat :: FrameEndsAt(c, chunks, p, k) {
      var k: nat :| FrameEndsAt(c, chunks, p, k);
      FrameSucceeds(c, chunks, p, k);
    }
  }

  /** Chunk independence: every split of a frame yields its payload, and stays pending before the last byte. */
  lemma ChunkIndependent(c: Config, chunks: seq<seq<Byte>>, p: seq<Byte>, k: nat)
    requires ValidConfig(c) && Carries(c, p) && Concat(chunks) == Frame(c, p) && k <= |chunks|
    ensures FeedAll(c, chunks).outcome == Succeeded(p)
    ensures Concat(chunks[..k]) < Frame(c, p) ==> FeedAll(c, chunks[..k]).outcome == Pending
  {
    assert chunks[..|chunks|] == chunks;
    FrameSucceeds(c, chunks, p, |chunks|);
    if Concat(chunks[..k]) < Frame(c, p) && !FeedAll(c, chunks[..k]).outcome.Pending? {
      var early := chunks[..k];
      var j := SettledBy(c, early);
      SettlingChunk(c, early, j);
      FeedStep(c, FeedAll(c, early[..j - 1]), early[j - 1]);
      ConcatPrefix(early, j);
      ProperPrefixIncomplete(c, Concat(early[..j]), p);
    }
  }

  /** A frame completed after the deadline is never a success. */
  lemma LateNeverSucceeds(c: Config, r: Reader, chunk: seq<Byte>)
    requires ValidConfig(c) && r.outcome.Pending?
    ensures !Feed(c, r, chunk, true).outcome.Succeeded?
  {}

  /** The sending half: refuse what cannot be carried, otherwise header and payload. */
  method BuildFrame(c: Config, message: seq<Byte>) returns (r: Result<seq<Byte>, string>)
    requires ValidConfig(c)
    ensures r.Ok? <==> Carries(c, message)
    ensures r.Ok? ==> r.value == Frame(c, message) && |r.value| == c.lengthBytes + |message|
  {
    if |message| == 0 || !Printable(message) {
      return Err("printable ASCII");
    }
    if |message| > c.maxFrameBytes {
      return Err("exceeds limit");
    }
    FrameParts(c, message);
    var frame: array<Byte> := new Byte[c.lengthBytes + |message|](_ => 0);
    var header := Header(c, |message|);
    for i := 0 to c.lengthBytes
      invariant frame[..i] == header[..i]
    {
      frame[i] := header[i];
    }
    for i := 0 to |message|
      invariant frame[..c.lengthBytes + i] == header + message[..i]
    {
      frame[c.lengthBytes + i] := message[i];
    }
    assert frame[..] == frame[..c.lengthBytes + |message|];
    return Ok(frame[..]);
  }

  // ----- the reassembler object -----

  class Reassembler {
    const config: Config
    var chunks: seq<seq<Byte>>
    var received: nat
    var expectedLength: Option<nat>
    var connected: bool
    var outcome: Outcome

    ghost predicate Valid()
      reads this
    {
      ValidConfig(config) && received == |Concat(chunks)|
    }

    ghost function State(): Reader
      reads this
    {
      Reader(Concat(chunks), expectedLength, outcome)
    }

    constructor (config: Config)
      requires ValidConfig(config)
      ensures Valid() && State() == IDLE && !connected && this.config == config
    {
      this.config := config;
      chunks, received, expectedLength, outcome, connected := [], 0, None, Pending, false;
    }

    /** Joining the chunks kept so far into one buffer. */
    method Join() returns (prefix: seq<Byte>)
      requires Valid()
      ensures prefix == Concat(chunks)
    {
      prefix := [];
      for i := 0 to |chunks|
        invariant prefix == Concat(chunks[..i])
      {
        assert chunks[..i + 1][..i] == chunks[..i];
        prefix := prefix + chunks[i];
      }
      assert chunks[..|chunks|] == chunks;
    }

    method OnConnect()
      requires Valid()
      modifies this`connected
      ensures Valid() && connected && State() == old(State())
    {
      connected := true;
    }

    /** Reading the length once enough bytes are there. */
    method ParseLength() returns (invalid: bool)
      requires Valid() && expectedLength.None? && received >= config.lengthBytes
      modifies this`chunks, this`expectedLength
      ensures Valid() && Concat(chunks) == old(Concat(chunks))
      ensures expectedLength == Some(HeaderValue(config, old(Concat(chunks))))
      ensures invalid <==> !(1 <= expectedLength.value <= config.maxFrameBytes)
    {
      var prefix := Join();
      expectedLength := Some(HeaderValue(config, prefix));
      chunks := [prefix];
      assert chunks[..0] == [] && Concat(chunks) == prefix;
      invalid := expectedLength.value < 1 || expectedLength.value > config.maxFrameBytes;
    }

    /** The frame is complete: deliver it unless it is late or unprintable. */
    method Complete(deadlineElapsed: bool)
      requires Valid() && received >= config.lengthBytes
      modifies this`outcome
      ensures outcome ==
        if deadlineElapsed then Failed("after the deadline")
        else if !Printable(Concat(chunks)[config.lengthBytes..]) then Failed("not printable")
        else Succeeded(Concat(chunks)[config.lengthBytes..])
    {
      if deadlineElapsed {
        outcome := Failed("after the deadline");
        return;
      }
      var whole := Join();
      var response := whole[config.lengthBytes..];
      if exists i :: 0 <= i < |response| && (response[i] < 0x20 || response[i] > 0x7e) {
        outcome := Failed("not printable");
        return;
      }
      outcome := Succeeded(response);
    }

    method OnData(chunk: seq<Byte>, deadlineElapsed: bool)
      requires Valid()
      modifies this
      ensures Valid() && connected == old(connected)
      ensures State() == if old(connected) then Feed(config, old(State()), chunk, deadlineElapsed) else old(State())
    {
      if !outcome.Pending? || !connected {
        return;
      }
      chunks := chunks + [chunk];
      assert chunks[..|chunks| - 1] == old(chunks);
      received := received + |chunk|;
      if received > config.lengthBytes + config.maxFrameBytes {
        outcome := Failed("exceeds maximum");
        return;
      }
      if expectedLength.None? && received >= config.lengthBytes {
        var invalid := ParseLength();
        if invalid {
          outcome := Failed("length invalid");
          return;
        }
      }
      if received > config.lengthBytes + (if expectedLength.Some? then expectedLength.value else config.maxFrameBytes) {
        outcome := Failed("trailing data");
        return;
      }
      if expectedLength.Some? && received == config.lengthBytes + expectedLength.value {
        Complete(deadlineElapsed);
      }
    }
  }
}
