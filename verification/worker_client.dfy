/** The worker client: its receive buffer, and the calls waiting for an answer. */
module WorkerClient {
  import opened Wrappers
  import opened FrameStreams
  import opened Framing

  /** A parsed response header. */
  datatype Response = Response(id: string, ok: bool, error: string)

  datatype Outcome = Resolved(frame: Frame) | Rejected(error: string)

  datatype Settlement = Settlement(id: string, outcome: Outcome)

  /** Calls not yet answered, and every promise settled so far. */
  datatype Calls = Calls(pending: set<string>, settled: seq<Settlement>)

  function Settle(calls: Calls, id: string, outcome: Outcome): Calls {
    if id in calls.pending then Calls(calls.pending - {id}, calls.settled + [Settlement(id, outcome)]) else calls
  }

  function HandleFrameSpec(calls: Calls, frame: Frame, parse: seq<byte> -> Option<Response>): Calls {
    match parse(frame.header)
    case None => calls
    case Some(r) =>
      if r.id == "" then calls
      else
        Settle(calls, r.id, if r.ok then Resolved(frame) else Rejected(if r.error == "" then "native_worker_error" else r.error))
  }

  function HandleFrames(calls: Calls, frames: seq<Frame>, parse: seq<byte> -> Option<Response>): Calls {
    if frames == [] then calls
    else HandleFrameSpec(HandleFrames(calls, frames[..|frames| - 1], parse), frames[|frames| - 1], parse)
  }

  lemma HandleFramesAppendsOne(calls: Calls, frames: seq<Frame>, frame: Frame, parse: seq<byte> -> Option<Response>)
    ensures HandleFrames(calls, frames + [frame], parse) == HandleFrameSpec(HandleFrames(calls, frames, parse), frame, parse)
  {
    assert (frames + [frame])[..|frames|] == frames;
  }

  lemma TakesFirst(buffer: seq<byte>, taken: seq<Frame>, frame: Frame, length: nat)
    requires FrontOf(buffer) == Whole(frame, length)
    ensures After(taken, Framing.Consume(buffer)) == After(taken + [frame], Framing.Consume(buffer[length..]))
  {
    FrontIsProper();
    ConsumeWhole(FrontOf, buffer, buffer[length..]);
    AfterTwice(taken, [frame], Framing.Consume(buffer[length..]));
  }

  class Client {
    var stdoutBuffer: seq<byte>
    var killed: bool
    var pending: set<string>
    ghost var settled: seq<Settlement>

    ghost function View(): Calls
      reads `pending, `settled
    {
      Calls(pending, settled)
    }

    constructor ()
      ensures stdoutBuffer == [] && !killed && View() == Calls({}, [])
    {
      stdoutBuffer, killed, pending, settled := [], false, {}, [];
    }

    /** One data event: every whole frame now in the buffer is taken out and handled, in order. */
    method HandleData(chunk: seq<byte>, parse: seq<byte> -> Option<Response>)
      modifies this
      ensures var c := Framing.Consume(old(stdoutBuffer) + chunk);
              && stdoutBuffer == c.rest
              && killed == (old(killed) || c.stopped)
              && View() == HandleFrames(old(View()), c.frames, parse)
    {
      stdoutBuffer := if |stdoutBuffer| > 0 then stdoutBuffer + chunk else chunk;
      ghost var all := stdoutBuffer;
      assert all == old(stdoutBuffer) + chunk;
      ghost var taken: seq<Frame> := [];
      AfterNothing(Framing.Consume(all));
      while |stdoutBuffer| >= PREFIX_BYTES
        invariant Framing.Consume(all) == After(taken, Framing.Consume(stdoutBuffer))
        invariant View() == HandleFrames(old(View()), taken, parse) && killed == old(killed)
        decreases |stdoutBuffer|
      {
        var headerLength := GetU32(stdoutBuffer, 0);
        var bodyLength := GetU32(stdoutBuffer, 4);
        if headerLength > MAX_HEADER_BYTES || bodyLength > MAX_BODY_BYTES {
          NothingAfter(taken, stdoutBuffer, true);
          killed := true;
          return;
        }
        var frameLength := PREFIX_BYTES + headerLength + bodyLength;
        if |stdoutBuffer| < frameLength { break; }
        var header := stdoutBuffer[PREFIX_BYTES..PREFIX_BYTES + headerLength];
        var body := stdoutBuffer[PREFIX_BYTES + headerLength..frameLength];
        TakesFirst(stdoutBuffer, taken, Frame(header, body), frameLength);
        HandleFramesAppendsOne(old(View()), taken, Frame(header, body), parse);
        stdoutBuffer := stdoutBuffer[frameLength..];
        HandleFrame(Frame(header, body), parse);
        taken := taken + [Frame(header, body)];
      }
      NothingAfter(taken, stdoutBuffer, false);
    }

    method HandleFrame(frame: Frame, parse: seq<byte> -> Option<Response>)
      modifies `pending, `settled
      ensures View() == HandleFrameSpec(old(View()), frame, parse)
    {
      var payload := parse(frame.header);
      if payload.None? || payload.value.id == "" { return; }
      var response := payload.value;
      if response.id !in pending { return; }
      pending := pending - {response.id};
      var outcome := if response.ok then Resolved(frame)
                     else Rejected(if response.error == "" then "native_worker_error" else response.error);
      settled := settled + [Settlement(response.id, outcome)];
    }
  }

  // ---- every call is settled once ----

  datatype Event =
    | Called(id: string)
    | Data(chunk: seq<byte>)
    | TimedOut(id: string)
    | WriteFailed(id: string)
    | Exited

  datatype World = World(buffer: seq<byte>, calls: Calls, issued: set<string>)

  /** The worker exits: every waiting call is rejected. */
  ghost predicate RejectsAll(before: Calls, after: Calls) {
    && after.pending == {}
    && |after.settled| == |before.settled| + |before.pending|
    && after.settled[..|before.settled|] == before.settled
    && (forall i | |before.settled| <= i < |after.settled| :: after.settled[i].id in before.pending && after.settled[i].outcome.Rejected?)
    && forall i, j | |before.settled| <= i < j < |after.settled| :: after.settled[i].id != after.settled[j].id
  }

  /** One event; ids are fresh, since they are random UUIDs. */
  ghost predicate Step(w: World, e: Event, t: World, parse: seq<byte> -> Option<Response>) {
    match e
    case Called(id) => id !in w.issued && t == World(w.buffer, w.calls.(pending := w.calls.pending + {id}), w.issued + {id})
    case Data(chunk) =>
      var c := Framing.Consume(w.buffer + chunk);
      t == World(c.rest, HandleFrames(w.calls, c.frames, parse), w.issued)
    case TimedOut(id) => t == w.(calls := Settle(w.calls, id, Rejected("native_worker_timeout")))
    case WriteFailed(id) => t == w.(calls := Settle(w.calls, id, Rejected("write_error")))
    case Exited => RejectsAll(w.calls, t.calls) && t == w.(calls := t.calls)
  }

  ghost predicate SettledOnce(settled: seq<Settlement>) {
    forall i, j | 0 <= i < j < |settled| :: settled[i].id != settled[j].id
  }

  ghost predicate IsSettled(settled: seq<Settlement>, id: string) {
    exists i :: 0 <= i < |settled| && settled[i].id == id
  }

  /** Every call issued is either waiting or settled, never both, and settled at most once. */
  ghost predicate Sound(calls: Calls, issued: set<string>) {
    && SettledOnce(calls.settled)
    && (forall i | 0 <= i < |calls.settled| :: calls.settled[i].id in issued && calls.settled[i].id !in calls.pending)
    && calls.pending <= issued
    && forall id | id in issued :: id in calls.pending || IsSettled(calls.settled, id)
  }

  lemma SettleKeeps(calls: Calls, issued: set<string>, id: string, outcome: Outcome)
    requires Sound(calls, issued)
    ensures Sound(Settle(calls, id, outcome), issued)
  {
    if id in calls.pending {
      var t := Settle(calls, id, outcome);
      forall x | x in issued ensures x in t.pending || IsSettled(t.settled, x) {
        if x == id {
          assert t.settled[|calls.settled|].id == x;
        } else if x !in calls.pending {
          var i :| 0 <= i < |calls.settled| && calls.settled[i].id == x;
          assert t.settled[i].id == x;
        }
      }
    }
  }

  lemma {:induction false} HandleFramesKeeps(calls: Calls, issued: set<string>, frames: seq<Frame>, parse: seq<byte> -> Option<Response>)
    requires Sound(calls, issued)
    ensures Sound(HandleFrames(calls, frames, parse), issued)
  {
    if frames != [] {
      var front := frames[..|frames| - 1];
      HandleFramesKeeps(calls, issued, front, parse);
      var r := parse(frames[|frames| - 1].header);
      if r.Some? {
        SettleKeeps(HandleFrames(calls, front, parse), issued, r.value.id,
                    if r.value.ok then Resolved(frames[|frames| - 1])
                    else Rejected(if r.value.error == "" then "native_worker_error" else r.value.error));
      }
    }
  }

  lemma RejectsAllKeeps(before: Calls, after: Calls, issued: set<string>)
    requires Sound(before, issued) && RejectsAll(before, after)
    ensures Sound(after, issued)
  {
    var n := |before.settled|;
    var ids := set i | n <= i < |after.settled| :: after.settled[i].id;
    NewIds(after.settled, n, |after.settled|);
    SubsetOfSameSize(ids, before.pending);
    forall id | id in issued ensures IsSettled(after.settled, id) {
      if id in before.pending {
        assert id in ids;
      } else {
        var i :| 0 <= i < n && before.settled[i].id == id;
        assert after.settled[..n][i].id == id;
      }
    }
    forall i, j | 0 <= i < j < |after.settled| ensures after.settled[i].id != after.settled[j].id {
      if i < n { assert after.settled[..n][i] == before.settled[i]; }
      if j < n { assert after.settled[..n][j] == before.settled[j]; }
    }
    forall i | 0 <= i < |after.settled| ensures after.settled[i].id in issued {
      if i < n { assert after.settled[..n][i] == before.settled[i]; }
    }
  }

  lemma {:induction false} NewIds(settled: seq<Settlement>, n: nat, m: nat)
    requires n <= m <= |settled|
    requires forall i, j | n <= i < j < m :: settled[i].id != settled[j].id
    ensures |set i | n <= i < m :: settled[i].id| == m - n
  {
    var ids := set i | n <= i < m :: settled[i].id;
    if n < m {
      NewIds(settled, n, m - 1);
      var fewer := set i | n <= i < m - 1 :: settled[i].id;
      assert ids == fewer + {settled[m - 1].id};
    } else {
      assert ids == {};
    }
  }

  lemma SubsetOfSameSize(a: set<string>, b: set<string>)
    requires a <= b && |a| == |b|
    ensures a == b
  {
    assert |b| == |a| + |b - a| by { assert b == a + (b - a); }
  }

  /**
   Over any run of calls, data in any pieces, timeouts, failed writes and exits:
   no call is lost and none is answered twice.
   */
  lemma {:induction false} CallsSettleOnce(worlds: seq<World>, events: seq<Event>, parse: seq<byte> -> Option<Response>)
    requires |worlds| == |events| + 1 && worlds[0] == World([], Calls({}, []), {})
    requires forall i | 0 <= i < |events| :: Step(worlds[i], events[i], worlds[i + 1], parse)
    ensures var last := worlds[|events|]; Sound(last.calls, last.issued)
    decreases |events|
  {
    if events != [] {
      var n := |events| - 1;
      CallsSettleOnce(worlds[..n + 1], events[..n], parse);
      var w, t := worlds[n], worlds[n + 1];
      assert Step(w, events[n], t, parse);
      match events[n] {
        case Called(id) =>
        case Data(chunk) => HandleFramesKeeps(w.calls, w.issued, Framing.Consume(w.buffer + chunk).frames, parse);
        case TimedOut(id) => SettleKeeps(w.calls, w.issued, id, Rejected("native_worker_timeout"));
        case WriteFailed(id) => SettleKeeps(w.calls, w.issued, id, Rejected("write_error"));
        case Exited => RejectsAllKeeps(w.calls, t.calls, w.issued);
      }
    }
  }

  // ---- which frame answers a call, and how ----

  /** The frame's header names the call. */
  predicate Names(frame: Frame, id: string, parse: seq<byte> -> Option<Response>) {
    parse(frame.header).Some? && parse(frame.header).value.id == id
  }

  /** The outcome says what the frame's header says: its result if ok, and otherwise its error, or the default one. */
  predicate Reports(outcome: Outcome, frame: Frame, parse: seq<byte> -> Option<Response>) {
    && parse(frame.header).Some?
    && var r := parse(frame.header).value;
       && (r.ok ==> outcome == Resolved(frame))
       && (!r.ok && r.error != "" ==> outcome == Rejected(r.error))
       && (!r.ok && r.error == "" ==> outcome == Rejected("native_worker_error"))
  }

  /** Frames that do not name a waiting call leave it waiting. */
  lemma {:induction false} StillWaiting(calls: Calls, frames: seq<Frame>, parse: seq<byte> -> Option<Response>, id: string)
    requires id in calls.pending
    requires forall k | 0 <= k < |frames| :: !Names(frames[k], id, parse)
    ensures id in HandleFrames(calls, frames, parse).pending
  {
    if frames != [] { StillWaiting(calls, frames[..|frames| - 1], parse, id); }
  }

  ghost predicate SettledAs(settled: seq<Settlement>, id: string, frame: Frame, parse: seq<byte> -> Option<Response>) {
    exists i :: 0 <= i < |settled| && settled[i].id == id && Reports(settled[i].outcome, frame, parse)
  }

  lemma SettledStays(calls: Calls, frame: Frame, parse: seq<byte> -> Option<Response>, id: string, answer: Frame)
    requires SettledAs(calls.settled, id, answer, parse)
    ensures SettledAs(HandleFrameSpec(calls, frame, parse).settled, id, answer, parse)
  {
    var i :| 0 <= i < |calls.settled| && calls.settled[i].id == id && Reports(calls.settled[i].outcome, answer, parse);
    assert HandleFrameSpec(calls, frame, parse).settled[i] == calls.settled[i];
  }

  lemma FrameAnswers(calls: Calls, frame: Frame, parse: seq<byte> -> Option<Response>, id: string)
    requires id in calls.pending && id != "" && Names(frame, id, parse)
    ensures var t := HandleFrameSpec(calls, frame, parse);
            id !in t.pending && SettledAs(t.settled, id, frame, parse)
  {
    var t := HandleFrameSpec(calls, frame, parse);
    assert t.settled[|calls.settled|].id == id && Reports(t.settled[|calls.settled|].outcome, frame, parse);
  }

  /** A waiting call is answered by the first frame that names it: resolved with it exactly if its header says ok. */
  lemma {:induction false} FirstFrameAnswers(calls: Calls, frames: seq<Frame>, parse: seq<byte> -> Option<Response>, id: string, n: nat)
    requires id in calls.pending && id != ""
    requires n < |frames| && Names(frames[n], id, parse) && forall k | 0 <= k < n :: !Names(frames[k], id, parse)
    ensures var t := HandleFrames(calls, frames, parse);
            id !in t.pending && SettledAs(t.settled, id, frames[n], parse)
  {
    var front, last := frames[..|frames| - 1], frames[|frames| - 1];
    if n == |frames| - 1 {
      StillWaiting(calls, front, parse, id);
      FrameAnswers(HandleFrames(calls, front, parse), last, parse, id);
    } else {
      FirstFrameAnswers(calls, front, parse, id, n);
      SettledStays(HandleFrames(calls, front, parse), last, parse, id, frames[n]);
    }
  }

  /** Every call resolved was resolved with a frame that names it and says ok. */
  ghost predicate Honest(settled: seq<Settlement>, parse: seq<byte> -> Option<Response>) {
    forall i | 0 <= i < |settled| && settled[i].outcome.Resolved? ::
      Names(settled[i].outcome.frame, settled[i].id, parse) && parse(settled[i].outcome.frame.header).value.ok
  }

  lemma {:induction false} HandleFramesHonestly(calls: Calls, frames: seq<Frame>, parse: seq<byte> -> Option<Response>)
    requires Honest(calls.settled, parse)
    ensures Honest(HandleFrames(calls, frames, parse).settled, parse)
  {
    if frames != [] { HandleFramesHonestly(calls, frames[..|frames| - 1], parse); }
  }

  lemma RejectsAllHonestly(before: Calls, after: Calls, parse: seq<byte> -> Option<Response>)
    requires Honest(before.settled, parse) && RejectsAll(before, after)
    ensures Honest(after.settled, parse)
  {
    var n := |before.settled|;
    forall i | 0 <= i < |after.settled| && after.settled[i].outcome.Resolved?
      ensures Names(after.settled[i].outcome.frame, after.settled[i].id, parse) && parse(after.settled[i].outcome.frame.header).value.ok
    {
      assert i < n;
      assert after.settled[..n][i] == before.settled[i];
    }
  }

  /** Over any run, a call is only ever resolved with a frame that names it and says ok; no timeout, failed write or exit resolves one. */
  lemma {:induction false} ResolvedOnlyByOk(worlds: seq<World>, events: seq<Event>, parse: seq<byte> -> Option<Response>)
    requires |worlds| == |events| + 1 && worlds[0] == World([], Calls({}, []), {})
    requires forall i | 0 <= i < |events| :: Step(worlds[i], events[i], worlds[i + 1], parse)
    ensures Honest(worlds[|events|].calls.settled, parse)
    decreases |events|
  {
    if events != [] {
      var n := |events| - 1;
      ResolvedOnlyByOk(worlds[..n + 1], events[..n], parse);
      var w, t := worlds[n], worlds[n + 1];
      assert Step(w, events[n], t, parse);
      match events[n] {
        case Data(chunk) => HandleFramesHonestly(w.calls, Framing.Consume(w.buffer + chunk).frames, parse);
        case Exited => RejectsAllHonestly(w.calls, t.calls, parse);
        case _ =>
      }
    }
  }
}
