/** A whole transfer, from the sender's file to the published one. */
module ReceiveTransfer {
  import opened Wrappers
  import opened ReceiveLayout
  import opened ReceiveSpec
  import opened ReceiveSafety
  import opened ReceiveRuns
  import opened ReceiveLimits

  /** The operation carries a chunk of `source` as its sender cuts it. */
  ghost predicate Honest(op: Op, source: seq<byte>) {
    op.Write? ==> 0 <= op.index && op.index * CHUNK_SIZE < |source| && op.data == ChunkOf(source, op.index, CHUNK_SIZE)
  }

  ghost predicate FromSource(s: Store, source: seq<byte>) {
    forall i | i in s.accepted :: i * CHUNK_SIZE < |source| && s.accepted[i] == ChunkOf(source, i, CHUNK_SIZE)
  }

  /** A step accepts nothing, or the chunk it was given. */
  lemma PerformAccepts(s: Store, op: Op, k: nat)
    requires WellFormed(s) && k <= |Perform(s, op)|
    ensures || StateAt(s, op, k).accepted == s.accepted
            || (op.Write? && 0 <= op.index && StateAt(s, op, k).accepted == s.accepted[op.index := op.data])
  {
    if k > 0 {
      match op
      case Init(p, io, now) => InitStates(s, p, io, now, k - 1);
      case Write(index, data, wio, now) => WriteStates(s, index, data, wio, now, k - 1);
      case Checkpoint(okSteps, syncs, now) => CheckpointStates(s, okSteps, syncs, now, k - 1);
    }
  }

  lemma EventFromSource(s: Store, e: Event, source: seq<byte>)
    requires Possible(s, e) && FromSource(s, source) && Honest(e.op, source)
    ensures FromSource(After(s, e), source)
  {
    PerformAccepts(s, e.op, if e.Completed? then |Perform(s, e.op)| else e.at);
  }

  lemma {:induction false} RunFromSource(s: Store, events: seq<Event>, source: seq<byte>)
    requires PossibleRun(s, events) && FromSource(s, source)
    requires forall e | e in events :: Honest(e.op, source)
    ensures FromSource(RunOf(s, events), source)
    decreases |events|
  {
    if events != [] {
      EventFromSource(s, events[0], source);
      RunFromSource(After(s, events[0]), events[1..], source);
    }
  }

  /**
   End to end: chunks cut by the sender, delivered in any order with any
   duplication, across any failures, kills and power losses. Once every chunk is
   reported, the part file is the source, byte for byte.
   */
  lemma CompleteMeansWholeFile(s0: Store, events: seq<Event>, source: seq<byte>)
    requires Pristine(s0) && s0.accepted == map[] && PossibleRun(s0, events)
    requires forall e | e in events :: Honest(e.op, source)
    requires var s := RunOf(s0, events); s.live.Some? && s.live.value.journal.manifest.fileSize == |source|
    ensures Inv(RunOf(s0, events))
    ensures var s := RunOf(s0, events);
            AllReceived(s.live.value) ==>
              s.disk.part.Some? && |s.disk.part.value.bytes| >= |source| && s.disk.part.value.bytes[..|source|] == source
  {
    RunKeeps(s0, events);
    RunFromSource(s0, events, source);
    var s := RunOf(s0, events);
    var m := s.live.value.journal.manifest;
    if AllReceived(s.live.value) {
      forall i: nat | i < m.totalChunks
        ensures Slot(s.disk.part.value.bytes, m, i) == Slot(source, m, i)
      {
        assert Holds(s.disk.part, m, i, s.accepted);
        SenderMatchesReceiver(source, m, i);
      }
      SlotsDetermineFile(s.disk.part.value.bytes, source, m);
      assert source[..m.fileSize] == source;
    }
  }

  /** The part file of a live transfer is exactly as long as the file. */
  ghost predicate ExactLength(s: Store, size: int) {
    && (s.live.Some? ==> s.disk.part.Some? && |s.disk.part.value.bytes| == size)
    && (s.disk.part.Some? ==> |s.disk.part.value.bytes| <= size)
  }

  lemma {:induction false} RunKeepsLength(s: Store, events: seq<Event>, size: nat)
    requires WellFormed(s) && PossibleRun(s, events) && ExactLength(s, size)
    requires forall e | e in events && e.op.Init? :: e.op.p.fileSize == size
    ensures ExactLength(RunOf(s, events), size)
    decreases |events|
  {
    if events != [] {
      EventKeepsLength(s, events[0], size);
      if events[1..] != [] {
        RunKeepsLength(After(s, events[0]), events[1..], size);
      }
    }
  }

  lemma InitKeepsLength(s: Store, p: Manifest, io: InitIo, now: int, k: nat)
    requires WellFormed(s) && ExactLength(s, p.fileSize) && k < |InitSpec(s, p, io, now).states|
    ensures ExactLength(InitSpec(s, p, io, now).states[k], p.fileSize)
  {
    assert k < 3;
  }

  lemma PerformKeepsLength(s: Store, op: Op, k: nat, size: nat)
    requires WellFormed(s) && ExactLength(s, size) && k <= |Perform(s, op)|
    requires op.Init? ==> op.p.fileSize == size
    ensures ExactLength(StateAt(s, op, k), size)
  {
    if k > 0 {
      match op
      case Init(p, io, now) => InitKeepsLength(s, p, io, now, k - 1);
      case Write(index, data, wio, now) => WriteStates(s, index, data, wio, now, k - 1);
      case Checkpoint(okSteps, syncs, now) => CheckpointStates(s, okSteps, syncs, now, k - 1);
    }
  }

  lemma EventKeepsLength(s: Store, e: Event, size: nat)
    requires Possible(s, e) && ExactLength(s, size)
    requires e.op.Init? ==> e.op.p.fileSize == size
    ensures ExactLength(After(s, e), size)
  {
    PerformKeepsLength(s, e.op, if e.Completed? then |Perform(s, e.op)| else e.at, size);
  }

  /**
   Exactly when a finished init leaves a file of the right length: on a platform
   that truncates, or with no longer part file left over. (Linux `fallocate`
   keeps a longer one, whose digest then covers the excess.)
   */
  lemma InitLength(s: Store, p: Manifest, io: InitIo, now: int)
    requires Inv(s) && s.live.None? && InitSpec(s, p, io, now).result.Ok?
    ensures var t := Final(s, InitSpec(s, p, io, now));
            && t.disk.part.Some?
            && (|t.disk.part.value.bytes| == p.fileSize <==>
                  io.truncates || s.disk.part.None? || |s.disk.part.value.bytes| <= p.fileSize)
  {}

  /** Finalize succeeds exactly on a complete, matching file with a free destination, and publishes that file. */
  lemma FinalizeIff(s: Store, hash: seq<byte> -> string, io: FinalizeIo, now: int)
    requires Inv(s) && s.live.Some?
    ensures var (t, result) := FinalizeSpec(s, hash, io, now);
            && (result.Ok? <==> MovesFile(s, hash, io, now) && io.okSteps >= 5)
            && (result.Ok? ==>
                  && result.value == s.live.value.finalName
                  && t.disk.destination == Some(s.disk.part.value.bytes)
                  && t.disk.part.None? && t.disk.journal.Absent? && t.live.None?)
            && (t.disk.destination != s.disk.destination ==> MovesFile(s, hash, io, now))
  {
    if AllReceived(s.live.value) {
      var run := CheckpointSpec(s, io.checkpointSteps, io.syncs, now);
      if run.result.Ok? {
        CheckpointedReportsAll(s, io.checkpointSteps, io.syncs, now);
        PublishIff(Final(s, run), hash, io.okSteps);
      } else if run.states != [] {
        CheckpointStates(s, io.checkpointSteps, io.syncs, now, |run.states| - 1);
      }
    }
  }

  lemma PublishIff(s: Store, hash: seq<byte> -> string, okSteps: nat)
    requires s.live.Some? && s.live.value.open && s.disk.part.Some?
    ensures var (t, result) := Publish(s, hash, okSteps);
            var matches := hash(s.disk.part.value.bytes) == s.live.value.journal.manifest.sha256 && s.disk.destination.None?;
            && (result.Ok? <==> okSteps >= 5 && matches)
            && (result.Ok? ==>
                  && result.value == s.live.value.finalName
                  && t.disk.destination == Some(s.disk.part.value.bytes)
                  && t.disk.part.None? && t.disk.journal.Absent? && t.live.None?)
            && (t.disk.destination != s.disk.destination ==> matches && okSteps >= 3)
  {}

  /** End to end with finalize: the published file is the source, given a part file of the right length and an honest digest. */
  lemma TransferPublishesSource(s0: Store, events: seq<Event>, source: seq<byte>, hash: seq<byte> -> string, now: int)
    requires Pristine(s0) && s0.accepted == map[] && s0.disk.destination.None? && PossibleRun(s0, events)
    requires s0.disk.part.Some? ==> |s0.disk.part.value.bytes| <= |source|
    requires forall e | e in events :: Honest(e.op, source) && (e.op.Init? ==> e.op.p.fileSize == |source|)
    requires forall e | e in events && e.PowerLost? :: e.left.destination.None?
    requires RunOf(s0, events).live.Some?
    requires RunOf(s0, events).live.value.journal.manifest.fileSize == |source|
    requires RunOf(s0, events).live.value.journal.manifest.sha256 == hash(source)
    ensures Inv(RunOf(s0, events))
    ensures AllReceived(RunOf(s0, events).live.value) ==>
              var (t, result) := FinalizeSpec(RunOf(s0, events), hash, FinalizeIo(6, 5, true), now);
              result == Ok(RunOf(s0, events).live.value.finalName) && t.disk.destination == Some(source)
  {
    var s := RunOf(s0, events);
    CompleteMeansWholeFile(s0, events, source);
    RunKeepsLength(s0, events, |source|);
    RunKeepsFreeDestination(s0, events);
    if AllReceived(s.live.value) {
      assert s.disk.part.value.bytes == source;
      FinalizeIff(s, hash, FinalizeIo(6, 5, true), now);
    }
  }

  lemma EventKeepsFreeDestination(s: Store, e: Event)
    requires Possible(s, e) && s.disk.destination.None?
    requires e.PowerLost? ==> e.left.destination.None?
    ensures After(s, e).disk.destination.None?
  {
    var k := if e.Completed? then |Perform(s, e.op)| else e.at;
    if k > 0 {
      match e.op
      case Init(p, io, now) => InitStates(s, p, io, now, k - 1);
      case Write(index, data, wio, now) => WriteStates(s, index, data, wio, now, k - 1);
      case Checkpoint(okSteps, syncs, now) => CheckpointStates(s, okSteps, syncs, now, k - 1);
    }
  }

  lemma {:induction false} RunKeepsFreeDestination(s: Store, events: seq<Event>)
    requires PossibleRun(s, events) && s.disk.destination.None?
    requires forall e | e in events && e.PowerLost? :: e.left.destination.None?
    ensures RunOf(s, events).disk.destination.None?
    decreases |events|
  {
    if events != [] {
      EventKeepsFreeDestination(s, events[0]);
      RunKeepsFreeDestination(After(s, events[0]), events[1..]);
    }
  }

  /** Digests are lowercase, so a manifest whose accepted digest has an uppercase digit can never be finalized. */
  lemma UppercaseDigestNeverFinalizes(s: Store, hash: seq<byte> -> string, io: FinalizeIo, now: int)
    requires WellFormed(s) && s.live.Some?
    requires forall bytes, c | c in hash(bytes) :: IsLowerHex(c)
    requires exists c :: c in s.live.value.journal.manifest.sha256 && !IsLowerHex(c)
    ensures FinalizeSpec(s, hash, io, now).1.Err?
  {
    var c :| c in s.live.value.journal.manifest.sha256 && !IsLowerHex(c);
    var run := CheckpointSpec(s, io.checkpointSteps, io.syncs, now);
    if run.states != [] {
      CheckpointStates(s, io.checkpointSteps, io.syncs, now, |run.states| - 1);
    }
    if s.disk.part.Some? {
      assert hash(s.disk.part.value.bytes) != s.live.value.journal.manifest.sha256;
    }
  }

  /** And such digests are accepted: any accepted manifest stays so with an uppercase one. */
  lemma UppercaseDigestIsAccepted(m: Manifest)
    requires Validate(m).Ok?
    ensures var upper := m.(sha256 := seq(64, i => 'A'));
            Validate(upper).Ok? && exists c :: c in upper.sha256 && !IsLowerHex(c)
  {
    var digest: string := seq(64, i => 'A');
    assert digest[0] in digest;
    assert forall c | c in digest :: IsHex(c);
  }
}
