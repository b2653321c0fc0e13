/** The frames on the pipe between the application and its worker, and their reassembly from a byte stream. */
module Framing {
  import opened Wrappers
  import opened FrameStreams

  const PREFIX_BYTES := 8
  const MAX_HEADER_BYTES := 1024 * 1024
  const MAX_BODY_BYTES := 32 * 1024 * 1024
  const U32_LIMIT := 0x1_0000_0000

  datatype Frame = Frame(header: seq<byte>, body: seq<byte>)

  predicate InLimit(f: Frame) {
    |f.header| <= MAX_HEADER_BYTES && |f.body| <= MAX_BODY_BYTES
  }

  /** A 32-bit number, most significant byte first. */
  function PutU32(n: int): (bytes: seq<byte>)
    requires 0 <= n < U32_LIMIT
    ensures |bytes| == 4
  {
    [(n / 0x100_0000) as byte, (n / 0x1_0000 % 0x100) as byte, (n / 0x100 % 0x100) as byte, (n % 0x100) as byte]
  }

  function GetU32(bytes: seq<byte>, at: nat): (n: int)
    requires at + 4 <= |bytes|
    ensures 0 <= n < U32_LIMIT
  {
    bytes[at] as int * 0x100_0000 + bytes[at + 1] as int * 0x1_0000 + bytes[at + 2] as int * 0x100 + bytes[at + 3] as int
  }

  lemma U32RoundTrip(n: int)
    requires 0 <= n < U32_LIMIT
    ensures GetU32(PutU32(n), 0) == n
  {
    var high, middle, low := n / 0x100_0000, n / 0x1_0000, n / 0x100;
    assert n == low * 0x100 + n % 0x100;
    assert low / 0x100 == middle && low == middle * 0x100 + low % 0x100;
    assert middle / 0x100 == high && middle == high * 0x100 + middle % 0x100;
  }

  lemma U32Canonical(bytes: seq<byte>, at: nat)
    requires at + 4 <= |bytes|
    ensures PutU32(GetU32(bytes, at)) == bytes[at..at + 4]
  {
    Digits(bytes[at] as int, bytes[at + 1] as int, bytes[at + 2] as int, bytes[at + 3] as int);
    assert bytes[at..at + 4] == [bytes[at], bytes[at + 1], bytes[at + 2], bytes[at + 3]];
  }

  lemma Digits(a: int, b: int, c: int, d: int)
    requires 0 <= a < 0x100 && 0 <= b < 0x100 && 0 <= c < 0x100 && 0 <= d < 0x100
    ensures var n := a * 0x100_0000 + b * 0x1_0000 + c * 0x100 + d;
            n / 0x100_0000 == a && n / 0x1_0000 % 0x100 == b && n / 0x100 % 0x100 == c && n % 0x100 == d
  {
    var n := a * 0x100_0000 + b * 0x1_0000 + c * 0x100 + d;
    assert n / 0x1_0000 == a * 0x100 + b;
    assert n / 0x100 == a * 0x1_0000 + b * 0x100 + c;
  }

  /** A frame over the limits has no encoding. */
  function Encode(f: Frame): seq<byte> {
    if InLimit(f) then PutU32(|f.header|) + PutU32(|f.body|) + f.header + f.body else []
  }

  /** The number the four bytes at `at` stand for, most significant first. */
  function NumberAt(bytes: seq<byte>, at: nat): int
    requires at + 4 <= |bytes|
  {
    ((bytes[at] as int * 256 + bytes[at + 1] as int) * 256 + bytes[at + 2] as int) * 256 + bytes[at + 3] as int
  }

  /** The layout of a frame of at most 1 MiB of header and 32 MiB of body: their lengths, then the header, then the body. */
  lemma EncodedLayout(f: Frame)
    ensures var e, h, b := Encode(f), |f.header|, |f.body|;
            if h > 1_048_576 || b > 33_554_432 then e == []
            else |e| == 8 + h + b && NumberAt(e, 0) == h && NumberAt(e, 4) == b && e[8..8 + h] == f.header && e[8 + h..] == f.body
  {
    if InLimit(f) {
      U32RoundTrip(|f.header|);
      U32RoundTrip(|f.body|);
      var e := Encode(f);
      assert e[0..4] == PutU32(|f.header|) && e[4..8] == PutU32(|f.body|);
      assert e[0] == e[0..4][0] && e[4] == e[4..8][0];
    }
  }

  // ---- reassembly in the application ----

  function FrontOf(buffer: seq<byte>): (front: Front<Frame>)
    ensures front.Whole? ==> PREFIX_BYTES <= front.length <= |buffer| && InLimit(front.frame)
  {
    if |buffer| < PREFIX_BYTES then NeedMore
    else
      var headerLength := GetU32(buffer, 0);
      var bodyLength := GetU32(buffer, 4);
      if headerLength > MAX_HEADER_BYTES || bodyLength > MAX_BODY_BYTES then OutOfBounds
      else
        var length := PREFIX_BYTES + headerLength + bodyLength;
        if |buffer| < length then NeedMore
        else Whole(Frame(buffer[PREFIX_BYTES..PREFIX_BYTES + headerLength], buffer[PREFIX_BYTES + headerLength..length]), length)
  }

  lemma EncodedFront(f: Frame, more: seq<byte>)
    requires InLimit(f)
    ensures FrontOf(Encode(f) + more) == Whole(f, |Encode(f)|)
    ensures (Encode(f) + more)[|Encode(f)|..] == more
  {
    var e := Encode(f) + more;
    U32RoundTrip(|f.header|);
    U32RoundTrip(|f.body|);
    assert e[0..4] == PutU32(|f.header|) && e[4..8] == PutU32(|f.body|);
    assert GetU32(e, 0) == GetU32(PutU32(|f.header|), 0);
    assert GetU32(e, 4) == GetU32(PutU32(|f.body|), 0);
    assert e[8..8 + |f.header|] == f.header;
    assert e[8 + |f.header|..|Encode(f)|] == f.body;
  }

  lemma FrontIsEncoded(buffer: seq<byte>)
    requires FrontOf(buffer).Whole?
    ensures var front := FrontOf(buffer);
            Encode(front.frame) == buffer[..front.length]
  {
    U32Canonical(buffer, 0);
    U32Canonical(buffer, 4);
    var front := FrontOf(buffer);
    var h := |front.frame.header|;
    assert buffer[..front.length] == buffer[0..4] + buffer[4..8] + buffer[8..8 + h] + buffer[8 + h..front.length];
  }

  lemma FrontIsStable(a: seq<byte>, b: seq<byte>)
    requires !FrontOf(a).NeedMore?
    ensures FrontOf(a + b) == FrontOf(a)
  {
    assert GetU32(a + b, 0) == GetU32(a, 0) && GetU32(a + b, 4) == GetU32(a, 4);
    var h := GetU32(a, 0);
    if FrontOf(a).Whole? {
      var length := FrontOf(a).length;
      assert (a + b)[8..8 + h] == a[8..8 + h] && (a + b)[8 + h..length] == a[8 + h..length];
    }
  }

  lemma FrontIsProper()
    ensures Bounded(FrontOf) && Stable(FrontOf)
    ensures forall x :: FrontOf(x).Whole? ==> Encode(FrontOf(x).frame) == x[..FrontOf(x).length]
  {
    forall a, b ensures StableAt(FrontOf, a, b) {
      if !FrontOf(a).NeedMore? { FrontIsStable(a, b); }
    }
    forall x | FrontOf(x).Whole? ensures Encode(FrontOf(x).frame) == x[..FrontOf(x).length] { FrontIsEncoded(x); }
  }

  lemma FrontDecodes(f: Frame)
    requires InLimit(f)
    ensures Decodes(FrontOf, Encode, f)
  {
    forall more ensures FrontOf(Encode(f) + more) == Whole(f, |Encode(f)|) { EncodedFront(f, more); }
  }

  /** Everything the application can take from a buffer. */
  function Consume(buffer: seq<byte>): Consumed<Frame> {
    FrontIsProper();
    FrameStreams.Consume(FrontOf, buffer)
  }

  ghost predicate AllInLimit(frames: seq<Frame>) {
    forall i | 0 <= i < |frames| :: InLimit(frames[i])
  }

  /** Round trip: any frames, cut into any data events, come out as those frames, in order, with nothing left over. */
  lemma FramesRoundTrip(frames: seq<Frame>, chunks: seq<seq<byte>>)
    requires AllInLimit(frames) && Flatten(chunks) == EncodeAll(Encode, frames)
    ensures Bounded(FrontOf) && Feed(FrontOf, [], chunks) == Consumed(frames, [], false)
  {
    FrontIsProper();
    forall i | 0 <= i < |frames| ensures Decodes(FrontOf, Encode, frames[i]) { FrontDecodes(frames[i]); }
    ConsumeEncoded(FrontOf, Encode, frames, []);
    ChunkingIsInvisible(FrontOf, [], chunks);
    assert EncodeAll(Encode, frames) + [] == [] + Flatten(chunks);
  }

  /** For any bytes in any pieces, frames taken and buffer kept account for every byte, in order, and no whole frame is held back. */
  lemma EveryByteAccountedFor(chunks: seq<seq<byte>>)
    ensures Bounded(FrontOf)
    ensures var c := Feed(FrontOf, [], chunks);
            EncodeAll(Encode, c.frames) + c.rest == Flatten(chunks) && !FrontOf(c.rest).Whole?
  {
    FrontIsProper();
    ChunkingIsInvisible(FrontOf, [], chunks);
    RestIsSuffix(FrontOf, Encode, [] + Flatten(chunks));
    assert [] + Flatten(chunks) == Flatten(chunks);
  }

  // ---- a worker started again ----

  /** Whatever a new worker writes is read as written, behind the bytes its predecessor left in the buffer. */
  ghost predicate ReadsExactly(stale: seq<byte>, frames: seq<Frame>) {
    AllInLimit(frames) ==> Consume(stale + EncodeAll(Encode, frames)).frames == frames
  }

  /**
   The buffer outlives the worker. A worker started again is read exactly if
   its predecessor left no part of a frame in it.
   */
  lemma RestartReadsIff(stale: seq<byte>)
    requires !FrontOf(stale).Whole?
    ensures (forall frames :: ReadsExactly(stale, frames)) <==> stale == []
  {
    if stale == [] {
      forall frames ensures ReadsExactly(stale, frames) { EmptyReadsExactly(frames); }
    } else if |stale| < 9 {
      ShortStaleMisreads(stale);
    } else {
      LongStaleMisreads(stale);
    }
  }

  lemma EmptyReadsExactly(frames: seq<Frame>)
    ensures ReadsExactly([], frames)
  {
    FrontIsProper();
    if AllInLimit(frames) {
      forall i | 0 <= i < |frames| ensures Decodes(FrontOf, Encode, frames[i]) { FrontDecodes(frames[i]); }
      ConsumeEncoded(FrontOf, Encode, frames, []);
      assert EncodeAll(Encode, frames) + [] == [] + EncodeAll(Encode, frames);
    }
  }

  /** If one frame is read exactly, its encoding both starts the stream and follows the stale bytes. */
  lemma ReadOnce(stale: seq<byte>, f: Frame) returns (rest: seq<byte>)
    requires InLimit(f) && ReadsExactly(stale, [f])
    ensures Encode(f) + rest == stale + Encode(f)
  {
    FrontIsProper();
    var one := [f];
    assert one[1..] == [] && EncodeAll(Encode, one) == Encode(f) + [] == Encode(f);
    RestIsSuffix(FrontOf, Encode, stale + Encode(f));
    rest := Consume(stale + Encode(f)).rest;
  }

  function Body(n: nat, last: byte): (body: seq<byte>)
    ensures |body| == n + 1 && body[n] == last && forall i | 0 <= i < n :: body[i] == 0
  {
    seq(n, i => 0 as byte) + [last]
  }

  lemma Shifted(e: seq<byte>, rest: seq<byte>, stale: seq<byte>, i: nat)
    requires e + rest == stale + e && i < |e|
    ensures e[i] == if i < |stale| then stale[i] else e[i - |stale|]
  {
    assert (e + rest)[i] == e[i] && (stale + e)[i] == if i < |stale| then stale[i] else e[i - |stale|];
  }

  lemma ShortStaleMisreads(stale: seq<byte>)
    requires 0 < |stale| < 9
    ensures exists frames :: !ReadsExactly(stale, frames)
  {
    var k := |stale|;
    var f := Frame([], Body(k, 1));
    var e := Encode(f);
    assert e[8] == 0 && e[8 + k] == 1;
    if ReadsExactly(stale, [f]) {
      var rest := ReadOnce(stale, f);
      Shifted(e, rest, stale, 8 + k);
      assert false;
    }
  }

  lemma LongStaleMisreads(stale: seq<byte>)
    requires |stale| >= 9
    ensures exists frames :: !ReadsExactly(stale, frames)
  {
    var f, g := Frame([], Body(0, 0)), Frame([], Body(0, 1));
    assert Encode(f)[8] == 0 && Encode(g)[8] == 1;
    if ReadsExactly(stale, [f]) && ReadsExactly(stale, [g]) {
      var restF := ReadOnce(stale, f);
      var restG := ReadOnce(stale, g);
      Shifted(Encode(f), restF, stale, 8);
      Shifted(Encode(g), restG, stale, 8);
      assert false;
    }
  }

  // ---- the worker's side ----

  /** The worker's output: the bytes written, and whether a write has failed; after that nothing more is written. */
  datatype Output = Output(bytes: seq<byte>, failed: bool)

  /** Output after `piece`, of which the pipe takes `room` bytes before it fails. */
  function Written(output: Output, piece: seq<byte>, room: nat): Output {
    if output.failed then output
    else if |piece| <= room then Output(output.bytes + piece, false)
    else Output(output.bytes + piece[..room], true)
  }

  method WritePiece(output: Output, piece: seq<byte>, room: nat) returns (after: Output, left: nat)
    ensures after == Written(output, piece, room)
    ensures !after.failed ==> left == room - |piece|
  {
    if output.failed { return output, room; }
    if |piece| <= room { return Output(output.bytes + piece, false), room - |piece|; }
    return Output(output.bytes + piece[..room], true), 0;
  }

  /** Writes one frame in three pieces; a frame over the limits is dropped. `room` is what the pipe still takes. */
  method WriteResponse(output: Output, header: seq<byte>, body: seq<byte>, room: nat) returns (written: Output)
    ensures written == Written(output, Encode(Frame(header, body)), room)
  {
    if |header| > MAX_HEADER_BYTES || |body| > MAX_BODY_BYTES {
      assert output.bytes + [] == output.bytes;
      return output;
    }
    if output.failed { return output; }
    var prefix := PutU32(|header|) + PutU32(|body|);
    var left;
    written, left := WritePiece(output, prefix, room);
    if written.failed {
      PieceOfFrame(output, [], prefix, header + body, room);
      assert prefix + (header + body) == Encode(Frame(header, body));
      return;
    }
    written, left := WritePiece(written, header, left);
    if written.failed {
      PieceOfFrame(output, prefix, header, body, room);
      return;
    }
    if |body| > 0 {
      written, left := WritePiece(written, body, left);
    }
    PieceOfFrame(output, prefix + header, body, [], room);
    assert prefix + header + body + [] == Encode(Frame(header, body));
  }

  /** A frame of which `done` has been written and `piece` is the next: what the pipe takes of it. */
  lemma PieceOfFrame(output: Output, done: seq<byte>, piece: seq<byte>, rest: seq<byte>, room: nat)
    requires !output.failed && |done| <= room
    ensures var frame := done + piece + rest;
            var after := Written(Output(output.bytes + done, false), piece, room - |done|);
            && (after.failed ==> Written(output, frame, room) == after)
            && (!after.failed && rest == [] ==> Written(output, frame, room) == after)
  {
    var frame := done + piece + rest;
    if |piece| > room - |done| {
      assert frame[..room] == done + piece[..room - |done|];
      ConcatAssociates(output.bytes, done, piece[..room - |done|]);
    } else if rest == [] {
      assert frame == done + piece;
      ConcatAssociates(output.bytes, done, piece);
    }
  }

  /** The frames that are whole within the first `n` bytes of their encoding. */
  function WholeIn(frames: seq<Frame>, n: nat): (k: nat)
    ensures k <= |frames|
    decreases |frames|
  {
    if frames == [] || |Encode(frames[0])| > n then 0 else 1 + WholeIn(frames[1..], n - |Encode(frames[0])|)
  }

  lemma FirstGotThrough(f: Frame, more: seq<byte>, n: nat)
    requires InLimit(f) && |Encode(f)| <= n <= |Encode(f)| + |more|
    ensures Consume((Encode(f) + more)[..n]) == FrameStreams.After([f], Consume(more[..n - |Encode(f)|]))
  {
    FrontIsProper();
    var rest := more[..n - |Encode(f)|];
    assert (Encode(f) + more)[..n] == Encode(f) + rest;
    EncodedFront(f, rest);
    ConsumeWhole(FrontOf, Encode(f) + rest, rest);
  }

  /** Wherever the pipe fails, the application reads exactly the frames that got through whole, and keeps the torn one back. */
  lemma {:induction false} CutAnywhereReadsWhole(frames: seq<Frame>, n: nat)
    requires AllInLimit(frames) && n <= |EncodeAll(Encode, frames)|
    ensures var c := Consume(EncodeAll(Encode, frames)[..n]);
            c.frames == frames[..WholeIn(frames, n)] && !c.stopped
    decreases |frames|
  {
    if frames != [] {
      var first, more := Encode(frames[0]), EncodeAll(Encode, frames[1..]);
      if |first| <= n {
        FirstGotThrough(frames[0], more, n);
        CutAnywhereReadsWhole(frames[1..], n - |first|);
        PrefixOfCons(frames, WholeIn(frames[1..], n - |first|));
      } else {
        TornFrameWaits(frames[0], n);
        assert (first + more)[..n] == first[..n];
      }
    }
  }

  lemma PrefixOfCons<T>(s: seq<T>, k: nat)
    requires s != [] && k < |s|
    ensures s[..k + 1] == [s[0]] + s[1..][..k]
  {}

  lemma TornFrameWaits(f: Frame, n: nat)
    requires InLimit(f) && n < |Encode(f)|
    ensures FrontOf(Encode(f)[..n]).NeedMore?
  {
    var e, cut := Encode(f), Encode(f)[..n];
    EncodedFront(f, []);
    assert e + [] == e;
    if n >= PREFIX_BYTES {
      assert GetU32(cut, 0) == GetU32(e, 0) && GetU32(cut, 4) == GetU32(e, 4);
    }
  }

  /** Encodes a request, refusing one over the limits. */
  method RequestFrame(header: seq<byte>, body: seq<byte>) returns (r: Result<seq<byte>>)
    ensures r.Ok? <==> InLimit(Frame(header, body))
    ensures r.Ok? ==> r.value == Encode(Frame(header, body))
    ensures r.Err? ==> r.error == if |body| > MAX_BODY_BYTES then "native_worker_body_too_large" else "native_worker_header_too_large"
  {
    if |body| > MAX_BODY_BYTES { return Err("native_worker_body_too_large"); }
    if |header| > MAX_HEADER_BYTES { return Err("native_worker_header_too_large"); }
    var prefix := PutU32(|header|) + PutU32(|body|);
    return Ok(prefix + header + body);
  }

  /** The worker's rule: as the application's, but an empty header is also out of bounds. */
  function RequestFront(input: seq<byte>): (front: Front<Frame>)
    ensures front.Whole? ==> PREFIX_BYTES <= front.length <= |input|
  {
    if |input| >= PREFIX_BYTES && GetU32(input, 0) < 1 then OutOfBounds else FrontOf(input)
  }

  lemma RequestFrontIsProper()
    ensures Bounded(RequestFront) && Stable(RequestFront)
  {
    forall a, b ensures StableAt(RequestFront, a, b) {
      if |a| >= PREFIX_BYTES {
        assert GetU32(a + b, 0) == GetU32(a, 0);
      }
      if !FrontOf(a).NeedMore? { FrontIsStable(a, b); }
    }
  }

  /** The requests the worker reads from its input, and whether an invalid frame stopped it. */
  function Requests(input: seq<byte>): Consumed<Frame> {
    RequestFrontIsProper();
    FrameStreams.Consume(RequestFront, input)
  }

  /** Reads one frame off the stream `input`: its prefix, then its header, then its body if it has one. */
  method ReadFrame(input: seq<byte>) returns (front: Front<Frame>)
    ensures front == RequestFront(input)
  {
    if PREFIX_BYTES > |input| { return NeedMore; }
    var headerLength := GetU32(input, 0);
    var bodyLength := GetU32(input, 4);
    if headerLength < 1 || headerLength > MAX_HEADER_BYTES || bodyLength > MAX_BODY_BYTES { return OutOfBounds; }
    var bodyAt := PREFIX_BYTES + headerLength;
    if bodyAt > |input| { return NeedMore; }
    var header := input[PREFIX_BYTES..bodyAt];
    var body := [];
    if bodyLength > 0 {
      if bodyAt + bodyLength > |input| { return NeedMore; }
      body := input[bodyAt..bodyAt + bodyLength];
    }
    return Whole(Frame(header, body), bodyAt + bodyLength);
  }

  lemma TakesRequest(input: seq<byte>, taken: seq<Frame>, front: Front<Frame>)
    requires front == RequestFront(input) && front.Whole?
    ensures After(taken, Requests(input)) == After(taken + [front.frame], Requests(input[front.length..]))
  {
    RequestFrontIsProper();
    ConsumeWhole(RequestFront, input, input[front.length..]);
    AfterTwice(taken, [front.frame], Requests(input[front.length..]));
  }

  lemma StopsReading(input: seq<byte>, taken: seq<Frame>)
    requires !RequestFront(input).Whole?
    ensures After(taken, Requests(input)) == Consumed(taken, input, RequestFront(input).OutOfBounds?)
  {
    NothingAfter(taken, input, RequestFront(input).OutOfBounds?);
  }

  /** `invalid` tells an invalid frame from the end of the stream, which may come inside a frame. */
  method ReadRequests(input: seq<byte>) returns (requests: seq<Frame>, invalid: bool)
    ensures requests == Requests(input).frames && invalid == Requests(input).stopped
  {
    var rest := input;
    requests, invalid := [], false;
    AfterNothing(Requests(input));
    while true
      invariant Requests(input) == After(requests, Requests(rest))
      decreases |rest|
    {
      var front := ReadFrame(rest);
      if !front.Whole? {
        StopsReading(rest, requests);
        invalid := front.OutOfBounds?;
        return;
      }
      TakesRequest(rest, requests, front);
      requests := requests + [front.frame];
      rest := rest[front.length..];
    }
  }

  /** The request direction: what the application writes, the worker reads, up to where the stream is cut. */
  lemma RequestsRoundTrip(frames: seq<Frame>, cut: seq<byte>)
    requires AllInLimit(frames) && forall i | 0 <= i < |frames| :: frames[i].header != []
    requires RequestFront(cut).NeedMore?
    ensures Requests(EncodeAll(Encode, frames) + cut) == Consumed(frames, cut, false)
  {
    RequestFrontIsProper();
    forall i | 0 <= i < |frames| ensures Decodes(RequestFront, Encode, frames[i]) { RequestFrontDecodes(frames[i]); }
    ConsumeEncoded(RequestFront, Encode, frames, cut);
  }

  lemma RequestFrontDecodes(f: Frame)
    requires InLimit(f) && f.header != []
    ensures Decodes(RequestFront, Encode, f)
  {
    forall more ensures RequestFront(Encode(f) + more) == Whole(f, |Encode(f)|) {
      EncodedFront(f, more);
      U32RoundTrip(|f.header|);
      assert (Encode(f) + more)[0..4] == PutU32(|f.header|);
      assert GetU32(Encode(f) + more, 0) == GetU32(PutU32(|f.header|), 0);
    }
  }
}
