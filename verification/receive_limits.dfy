/** Where the receive store's promises stop: for each, exactly when they hold. */
module ReceiveLimits {
  import opened Wrappers
  import opened Bitmap
  import opened ReceiveLayout
  import opened ReceiveSpec
  import opened ReceiveSafety
  import opened ReceiveRuns

  /** The journal reports a chunk whose accepted bytes are not in the part file. */
  ghost predicate Misreports(d: Disk, accepted: map<nat, seq<byte>>) {
    exists i: nat :: ReportsChunk(d.journal, i) && !(i in accepted && InFile(d.part, i * CHUNK_SIZE, accepted[i]))
  }

  /** Some power loss leaves a disk whose journal misreports. */
  ghost predicate MayMisreport(d: Disk, accepted: map<nat, seq<byte>>) {
    exists left :: PowerLoss(d, left) && Misreports(left, accepted)
  }

  lemma TopReportsMost(s: Store, image: Image, i: nat)
    requires Inv(s) && image in s.disk.revealable
    ensures ReportsChunk(image, i) ==> ReportsChunk(s.disk.journal, i)
  {
    assert BelowTop(image, s.disk.journal);
  }

  lemma SafeReports(s: Store)
    requires Inv(s)
    ensures !Misreports(s.disk, s.accepted)
  {
    forall i: nat | ReportsChunk(s.disk.journal, i) ensures i in s.accepted && InFile(s.disk.part, i * CHUNK_SIZE, s.accepted[i]) {
      ReportedIsInFile(s, i);
    }
  }

  lemma SafeNeverMisreports(s: Store)
    requires Inv(s)
    ensures !Misreports(s.disk, s.accepted) && !MayMisreport(s.disk, s.accepted)
  {
    SafeReports(s);
    forall left | PowerLoss(s.disk, left) ensures !Misreports(left, s.accepted) {
      PowerLossKeeps(s, left);
      SafeReports(Store(left, None, s.accepted));
    }
  }

  // ---- the durable bitmap, and duplicates ----

  ghost predicate Matches(image: Image, l: Live)
    requires FitJournal(l.journal) && Fits(l.durable, l.journal.manifest.totalChunks)
  {
    forall i: nat | i < l.journal.manifest.totalChunks :: ReportsChunk(image, i) <==> BitSet(l.durable, i)
  }

  /** Some revealable image reports exactly what the worker holds durable. */
  ghost predicate Pinned(s: Store)
    requires WellFormed(s)
  {
    s.live.Some? ==> exists image :: image in s.disk.revealable && Matches(image, s.live.value)
  }

  lemma CheckpointKeepsPinned(s: Store, okSteps: nat, syncs: bool, now: int)
    requires WellFormed(s) && s.live.Some? && Pinned(s)
    ensures var t := Final(s, CheckpointSpec(s, okSteps, syncs, now)); WellFormed(t) && Pinned(t)
  {
    CheckpointStaysWellFormed(s, okSteps, syncs, now);
    var run := CheckpointSpec(s, okSteps, syncs, now);
    if run.states != [] {
      var k := |run.states| - 1;
      CheckpointStates(s, okSteps, syncs, now, k);
      CheckpointDisk(s.disk, s.live.value.journal, syncs, if k < 6 then k else 5);
      var t := run.states[k];
      if k == 6 {
        assert Saved(s.live.value.journal) in t.disk.revealable;
        assert Matches(Saved(s.live.value.journal), t.live.value);
      } else {
        assert k < 5 || !syncs;
      }
    }
  }

  lemma WriteKeepsPinned(s: Store, index: int, data: seq<byte>, wio: WriteIo, now: int)
    requires WellFormed(s) && Pinned(s)
    ensures var t := Final(s, WriteSpec(s, index, data, wio, now)); WellFormed(t) && Pinned(t)
  {
    WriteStaysWellFormed(s, index, data, wio, now);
    var run := WriteSpec(s, index, data, wio, now);
    if |run.states| >= 2 {
      var marked := Marked(s, index, data);
      var image :| image in s.disk.revealable && Matches(image, s.live.value);
      assert image in marked.disk.revealable && Matches(image, marked.live.value);
      if Due(marked.live.value, now) { CheckpointKeepsPinned(marked, wio.okSteps, wio.syncs, now); }
    }
  }

  lemma InitKeepsPinned(s: Store, p: Manifest, io: InitIo, now: int)
    requires Inv(s) && Pinned(s) && io.journalReadable
    ensures var t := Final(s, InitSpec(s, p, io, now)); WellFormed(t) && Pinned(t)
  {
    InitStaysWellFormed(s, p, io, now);
    var run := InitSpec(s, p, io, now);
    if run.states != [] {
      InitStates(s, p, io, now, |run.states| - 1);
      var t := Final(s, run);
      if t.live.Some? {
        assert ImageSafe(s.disk.journal, s.disk.part, s.accepted);
        JournalMatches(t.disk.journal, t.live.value);
      }
    }
  }

  /** A transfer taken up from an image holds durable what the image reports. */
  lemma JournalMatches(image: Image, l: Live)
    requires FitJournal(l.journal) && l.durable == l.journal.bitmap
    requires if image.Saved? then image.journal == l.journal else l.journal.bitmap == Blank(l.journal.manifest.totalChunks)
    ensures Matches(image, l)
  {
    BlankHasNoBits(l.journal.manifest.totalChunks);
  }

  lemma {:induction false} RunKeepsPinned(s: Store, events: seq<Event>)
    requires Inv(s) && Pinned(s) && PossibleRun(s, events)
    ensures Inv(RunOf(s, events)) && Pinned(RunOf(s, events))
    decreases |events|
  {
    if events != [] {
      var e := events[0];
      EventKeeps(s, e);
      if e.Completed? {
        match e.op
        case Init(p, io, now) => InitKeepsPinned(s, p, io, now);
        case Write(index, data, wio, now) => WriteKeepsPinned(s, index, data, wio, now);
        case Checkpoint(okSteps, syncs, now) => if s.live.Some? { CheckpointKeepsPinned(s, okSteps, syncs, now); }
      }
      RunKeepsPinned(After(s, e), events[1..]);
    }
  }

  /** Chunk `i` is reported, and in the file with its accepted bytes, after every power loss. */
  ghost predicate SurvivesPowerLoss(s: Store, i: nat) {
    && i in s.accepted
    && forall left | PowerLoss(s.disk, left) :: Survives(Store(left, None, s.accepted), i, s.accepted[i])
  }

  lemma SurvivesPowerLossIffGuaranteed(s: Store, i: nat)
    requires Inv(s)
    ensures SurvivesPowerLoss(s, i) <==> Guaranteed(s, i)
  {
    if Guaranteed(s, i) {
      GuaranteedIsAccepted(s, i);
      forall left | PowerLoss(s.disk, left) ensures Survives(Store(left, None, s.accepted), i, s.accepted[i]) {
        PowerLossKeeps(s, left);
        ReportedIsInFile(Store(left, None, s.accepted), i);
      }
    } else {
      var image :| image in s.disk.revealable && !ReportsChunk(image, i);
      assert PowerLoss(s.disk, Kept(s.disk, image));
    }
  }

  /**
   A duplicate is answered `checkpointed` without a checkpoint behind it. Its
   chunk survives every power loss exactly if its bit is set in the durable
   bitmap, which the answer does not look at. After a kill a set bit is still
   needed, but no longer enough.
   */
  lemma DuplicateSurvivesIff(s0: Store, events: seq<Event>, index: nat)
    requires Pristine(s0) && PossibleRun(s0, events)
    requires RunOf(s0, events).live.Some?
    requires ReportsChunk(Saved(RunOf(s0, events).live.value.journal), index)
    ensures Inv(RunOf(s0, events))
    ensures var s := RunOf(s0, events);
            && (SurvivesPowerLoss(s, index) ==> BitSet(s.live.value.durable, index))
            && (Orderly(events) && BitSet(s.live.value.durable, index) ==> SurvivesPowerLoss(s, index))
  {
    RunKeepsPinned(s0, events);
    var s := RunOf(s0, events);
    SurvivesPowerLossIffGuaranteed(s, index);
    var image :| image in s.disk.revealable && Matches(image, s.live.value);
    if Orderly(events) {
      RunKeepsDurable(s0, events);
      DurableIsGuaranteed(s);
    }
  }

  /** An instance: a duplicate of an undurable chunk is answered `checkpointed`, and a power loss forgets it. */
  lemma DuplicateMayBeLost(p: Manifest, data: seq<byte>, now: int)
    requires Validate(p).Ok? && |data| == ChunkLength(p, 0) < CHECKPOINT_BYTES
    ensures var s0 := Store(Disk(None, Absent, false, Absent, {Absent}, None), None, map[]);
            var events := [Completed(Init(p, InitIo(true, true, 2, true), now)), Completed(Write(0, data, WriteIo(|data|, 0, true), now))];
            && Pristine(s0) && PossibleRun(s0, events)
            && var s := RunOf(s0, events);
            && WellFormed(s) && WriteSpec(s, 0, data, WriteIo(0, 0, true), now).result == Ok(WriteAck(true, true))
            && !SurvivesPowerLoss(s, 0)
  {
    AcceptedManifestIsLaid(p);
    BlankHasNoBits(p.totalChunks);
    WithBitSetsOneBit(Blank(p.totalChunks), 0, 0);
    var s0 := Store(Disk(None, Absent, false, Absent, {Absent}, None), None, map[]);
    var e1 := Completed(Init(p, InitIo(true, true, 2, true), now));
    var e2 := Completed(Write(0, data, WriteIo(|data|, 0, true), now));
    var s1 := After(s0, e1);
    assert s1.live == Some(Live(Journal(p, Blank(p.totalChunks)), p.fileName, Blank(p.totalChunks), 0, now, true));
    assert Possible(s1, e2);
    var s2 := After(s1, e2);
    assert [e1, e2][1..] == [e2] && [e2][1..] == [];
    assert PossibleRun(s1, [e2]);
    assert RunOf(s1, [e2]) == s2;
    assert s2.live.Some? && BitSet(s2.live.value.journal.bitmap, 0);
    assert PowerLoss(s2.disk, Kept(s2.disk, Absent));
  }

  // ---- an unreadable journal ----

  /** Some run from here ends with a journal that reports a chunk whose accepted bytes are not in the file. */
  ghost predicate MayComeToMisreport(s: Store) {
    exists events :: PossibleRun(s, events) && Misreports(RunOf(s, events).disk, RunOf(s, events).accepted)
  }

  lemma SafeNeverComesToMisreport(s: Store)
    requires Inv(s)
    ensures !MayComeToMisreport(s)
  {
    forall events | PossibleRun(s, events)
      ensures !Misreports(RunOf(s, events).disk, RunOf(s, events).accepted)
    {
      RunKeeps(s, events);
      SafeNeverMisreports(RunOf(s, events));
    }
  }

  /**
   `init` treats a journal it cannot read as absent. A chunk's accepted bytes
   may then be lost under a journal that reports it, exactly if the unread
   journal reports any chunk at all: its slot can be written anew.
   */
  lemma UnreadableJournalIsSafeIff(s: Store, p: Manifest, truncates: bool, now: int)
    requires Inv(s) && s.live.None? && Validate(p).Ok?
    requires s.disk.journal.Saved? && SameTransfer(s.disk.journal.journal.manifest, p)
    ensures var t := Final(s, InitSpec(s, p, InitIo(true, false, 2, truncates), now));
            !MayComeToMisreport(t) <==> forall i: nat | i < p.totalChunks :: !ReportsChunk(s.disk.journal, i)
  {
    AcceptedManifestIsLaid(p);
    var run := InitSpec(s, p, InitIo(true, false, 2, truncates), now);
    assert |run.states| == 3;
    var t := run.states[2];
    if forall i: nat | i < p.totalChunks :: !ReportsChunk(s.disk.journal, i) {
      StartedBlankIsSafe(s, p, truncates, now, t);
      SafeNeverComesToMisreport(t);
    } else {
      var i: nat :| i < p.totalChunks && ReportsChunk(s.disk.journal, i);
      ReportedIsInFile(s, i);
      ReportedLength(s, i);
      BlankHasNoBits(p.totalChunks);
      OverwrittenIsLost(t, p, i);
    }
  }

  lemma ReportedLength(s: Store, i: nat)
    requires Inv(s) && ReportsChunk(s.disk.journal, i)
    ensures i in s.accepted && |s.accepted[i]| == ChunkLength(s.disk.journal.journal.manifest, i)
  {
    assert ImageSafe(s.disk.journal, s.disk.part, s.accepted);
    assert Holds(s.disk.part, s.disk.journal.journal.manifest, i, s.accepted);
  }

  lemma StartedBlankIsSafe(s: Store, p: Manifest, truncates: bool, now: int, t: Store)
    requires Inv(s) && s.live.None? && Validate(p).Ok?
    requires s.disk.journal.Saved? && SameTransfer(s.disk.journal.journal.manifest, p)
    requires forall i: nat | i < p.totalChunks :: !ReportsChunk(s.disk.journal, i)
    requires t == Final(s, InitSpec(s, p, InitIo(true, false, 2, truncates), now))
    ensures Inv(t)
  {
    AcceptedManifestIsLaid(p);
    assert ImageSafe(s.disk.journal, s.disk.part, s.accepted);
    SizeKeeps(s, p.fileSize, truncates);
    var sized := s.(disk := Preallocate(s.disk, p.fileSize, truncates));
    NothingDirty(p, Blank(p.totalChunks), p.totalChunks);
    BlankHasNoBits(p.totalChunks);
    forall image | image in t.disk.revealable ensures Below(image, t.live.value.journal) {
      assert BelowTop(image, s.disk.journal) && ImageSafe(image, s.disk.part, s.accepted);
      forall i: nat ensures !ReportsChunk(image, i) {
        TopReportsMost(s, image, i);
      }
    }
    assert LiveSafe(t.live.value, t.disk, t.accepted);
    assert t == sized.(live := t.live);
  }

  /** Chunk `i` is reported but not received: writing its slot and losing power leaves other bytes there. */
  lemma OverwrittenIsLost(t: Store, p: Manifest, i: nat)
    requires WellFormed(t) && t.live.Some? && t.live.value.open && t.live.value.journal.manifest == p
    requires ReportsChunk(t.disk.journal, i) && t.disk.journal in t.disk.revealable
    requires i < p.totalChunks && !BitSet(t.live.value.journal.bitmap, i)
    requires i in t.accepted && |t.accepted[i]| == ChunkLength(p, i)
    ensures MayComeToMisreport(t)
  {
    ChunkInFile(p, i);
    var data := Zeros(ChunkLength(p, i));
    var op := Write(i, data, WriteIo(|data|, 0, true), 0);
    var stored := Stored(t, i, data);
    assert Perform(t, op)[0] == stored && StateAt(t, op, 1) == stored;
    var at := i * CHUNK_SIZE;
    var other: byte := if t.accepted[i][0] == 0 then 1 else 0;
    var bytes := stored.disk.part.value.bytes[at := other];
    var left := Kept(stored.disk, t.disk.journal).(part := Some(PartFile(bytes, {})));
    assert at in stored.disk.part.value.unsynced;
    assert PowerLoss(stored.disk, left);
    var e := PowerLost(op, 1, left);
    assert Possible(t, e);
    assert [e][1..] == [];
    assert PossibleRun(After(t, e), [e][1..]);
    assert RunOf(t, [e]) == After(t, e);
    assert left.part.value.bytes[at] != t.accepted[i][0];
    assert !InFile(left.part, at, t.accepted[i]);
    assert Misreports(left, t.accepted);
  }

  function Zeros(n: nat): (bytes: seq<byte>)
    ensures |bytes| == n && forall i | 0 <= i < n :: bytes[i] == 0
  {
    seq(n, i => 0 as byte)
  }

  // ---- a kill, a restart, and a power loss ----

  /** The worker's answer to `init` after a kill in state `s`. */
  function Restarted(s: Store, p: Manifest, truncates: bool, now: int): Store
    requires WellFormed(s)
  {
    var killed := s.(live := None);
    Final(killed, InitSpec(killed, p, InitIo(true, true, 2, truncates), now))
  }

  /** Killed in state `s` and restarted, the worker holds a chunk durable that some power loss takes back. */
  ghost predicate RestartOverstates(s: Store, p: Manifest, truncates: bool, now: int)
    requires Inv(s)
  {
    var t := Restarted(s, p, truncates, now);
    && t.live.Some? && WellFormed(t)
    && exists i: nat, left ::
         i < t.live.value.journal.manifest.totalChunks && BitSet(t.live.value.durable, i)
         && PowerLoss(t.disk, left) && !ReportsChunk(left.journal, i)
  }

  /** `s` is live on transfer `p`. */
  predicate On(s: Store, p: Manifest) {
    Validate(p).Ok? && s.live.Some? && SameTransfer(s.live.value.journal.manifest, p)
  }

  /** What a restart holds durable is what the journal at its path reports. */
  lemma RestartReadsTop(s: Store, p: Manifest, truncates: bool, now: int)
    requires Inv(s) && On(s, p)
    ensures var t := Restarted(s, p, truncates, now);
            && t.live.Some? && Inv(t) && t.disk.revealable == s.disk.revealable
            && t.live.value.journal.manifest.totalChunks == p.totalChunks
            && forall i: nat | i < p.totalChunks :: BitSet(t.live.value.durable, i) <==> ReportsChunk(s.disk.journal, i)
  {
    var killed := s.(live := None);
    assert Below(s.disk.journal, s.live.value.journal);
    assert ImageSafe(s.disk.journal, s.disk.part, s.accepted);
    InitSucceeds(killed, p, InitIo(true, true, 2, truncates), now);
    InitStates(killed, p, InitIo(true, true, 2, truncates), now, 2);
    JournalMatches(s.disk.journal, Restarted(s, p, truncates, now).live.value);
  }

  lemma OverstatesIff(s: Store, p: Manifest, truncates: bool, now: int)
    requires Inv(s) && On(s, p)
    ensures RestartOverstates(s, p, truncates, now) <==>
            exists i: nat, image :: ReportsChunk(s.disk.journal, i) && image in s.disk.revealable && !ReportsChunk(image, i)
  {
    RestartReadsTop(s, p, truncates, now);
    var t := Restarted(s, p, truncates, now);
    if i: nat, image :| ReportsChunk(s.disk.journal, i) && image in s.disk.revealable && !ReportsChunk(image, i) {
      assert Below(s.disk.journal, s.live.value.journal);
      assert PowerLoss(t.disk, Kept(t.disk, image));
    }
  }

  /**
   A worker killed without a power loss restarts from the journal at its path
   and takes that journal's chunks for durable. One of them can still be lost,
   exactly if the killed worker did not hold it durable: the journal's rename
   was waiting for its directory sync.
   */
  lemma RestartOverstatesIff(s0: Store, events: seq<Event>, p: Manifest, truncates: bool, now: int)
    requires Pristine(s0) && PossibleRun(s0, events) && Orderly(events)
    requires On(RunOf(s0, events), p)
    ensures Inv(RunOf(s0, events))
    ensures var s := RunOf(s0, events);
            RestartOverstates(s, p, truncates, now) <==>
            exists i: nat :: ReportsChunk(s.disk.journal, i) && i < p.totalChunks && !BitSet(s.live.value.durable, i)
  {
    RunKeepsPinned(s0, events);
    RunKeepsDurable(s0, events);
    var s := RunOf(s0, events);
    OverstatesIff(s, p, truncates, now);
    DurableIsGuaranteed(s);
    assert Below(s.disk.journal, s.live.value.journal);
    var pinned :| pinned in s.disk.revealable && Matches(pinned, s.live.value);
  }

  /**
   The one moment in a checkpoint: once the directory is synced, a kill after `at`
   of a checkpoint's steps leads to this exactly if the journal has just been
   renamed, its directory not yet synced, and there was something to save.
   */
  lemma KilledCheckpointOverstatesIff(
    s0: Store, events: seq<Event>, okSteps: nat, now: int, at: nat, p: Manifest, truncates: bool, later: int)
    requires Pristine(s0) && PossibleRun(s0, events) && Orderly(events)
    requires On(RunOf(s0, events), p) && RunOf(s0, events).disk.revealable == {RunOf(s0, events).disk.journal}
    requires Possible(RunOf(s0, events), Killed(Checkpoint(okSteps, true, now), at))
    ensures var t := StateAt(RunOf(s0, events), Checkpoint(okSteps, true, now), at);
            Inv(t) && (RestartOverstates(t, p, truncates, later) <==> at == 5 && RunOf(s0, events).live.value.dirtyBytes > 0)
  {
    RunKeepsPinned(s0, events);
    RunKeepsDurable(s0, events);
    KilledCheckpoint(RunOf(s0, events), okSteps, now, at, p, truncates, later);
  }

  lemma KilledCheckpoint(s: Store, okSteps: nat, now: int, at: nat, p: Manifest, truncates: bool, later: int)
    requires Inv(s) && Durable(s) && Pinned(s) && On(s, p) && s.disk.revealable == {s.disk.journal}
    requires at <= |CheckpointSpec(s, okSteps, true, now).states|
    ensures var t := StateAt(s, Checkpoint(okSteps, true, now), at);
            Inv(t) && (RestartOverstates(t, p, truncates, later) <==> at == 5 && s.live.value.dirtyBytes > 0)
  {
    var op := Checkpoint(okSteps, true, now);
    var t := StateAt(s, op, at);
    PerformKeeps(s, op, at);
    if at > 0 { CheckpointStates(s, okSteps, true, now, at - 1); }
    OverstatesIff(t, p, truncates, later);
    if at == 5 { RenamedNotSynced(s, t); }
  }

  lemma RenamedNotSynced(s: Store, t: Store)
    requires Inv(s) && Durable(s) && Pinned(s) && s.live.Some? && s.disk.revealable == {s.disk.journal}
    requires t.disk.journal == Saved(s.live.value.journal)
    requires s.disk.revealable <= t.disk.revealable <= s.disk.revealable + {t.disk.journal}
    ensures (exists i: nat, image :: ReportsChunk(t.disk.journal, i) && image in t.disk.revealable && !ReportsChunk(image, i))
       <==> s.live.value.dirtyBytes > 0
  {
    var l := s.live.value;
    var total := l.journal.manifest.totalChunks;
    DirtyIsZeroIff(l.journal.manifest, l.journal.bitmap, l.durable, total);
    assert Matches(s.disk.journal, l);
    if l.dirtyBytes > 0 {
      var i: nat :| i < total && BitSet(l.journal.bitmap, i) && !BitSet(l.durable, i);
      assert ReportsChunk(t.disk.journal, i) && !ReportsChunk(s.disk.journal, i);
    }
  }

  // ---- finalize and abort ----

  /** Finalize gets as far as moving the file away: complete, checkpointed, matching, free to go, and its rename succeeds. */
  predicate MovesFile(s: Store, hash: seq<byte> -> string, io: FinalizeIo, now: int)
    requires WellFormed(s) && s.live.Some?
  {
    && AllReceived(s.live.value)
    && CheckpointSpec(s, io.checkpointSteps, io.syncs, now).result.Ok?
    && io.okSteps >= 3
    && s.disk.part.Some? && hash(s.disk.part.value.bytes) == s.live.value.journal.manifest.sha256
    && s.disk.destination.None?
  }

  ghost predicate ReportsAll(image: Image, total: int) {
    image.Saved? && FitJournal(image.journal) && image.journal.manifest.totalChunks == total
    && forall i: nat | i < total :: ReportsChunk(image, i)
  }

  lemma CheckpointedReportsAll(s: Store, okSteps: nat, syncs: bool, now: int)
    requires Inv(s) && s.live.Some? && AllReceived(s.live.value) && CheckpointSpec(s, okSteps, syncs, now).result.Ok?
    ensures var t := Final(s, CheckpointSpec(s, okSteps, syncs, now));
            && Inv(t) && t.accepted == s.accepted && t.disk.destination == s.disk.destination
            && t.live.Some? && t.live.value.open && t.live.value.journal == s.live.value.journal
            && t.disk.part.Some? && s.disk.part.Some? && t.disk.part.value.bytes == s.disk.part.value.bytes
            && ReportsAll(t.disk.journal, s.live.value.journal.manifest.totalChunks)
  {
    var l := s.live.value;
    var m := l.journal.manifest;
    var run := CheckpointSpec(s, okSteps, syncs, now);
    assert Holds(s.disk.part, m, 0, s.accepted);
    if run.states != [] {
      CheckpointKeeps(s, okSteps, syncs, now);
      CheckpointStates(s, okSteps, syncs, now, 6);
      assert forall i: nat | i < m.totalChunks :: ReportsChunk(Saved(l.journal), i);
    } else {
      CleanReportsAll(s);
    }
  }

  /** With everything received and nothing dirty, the journal at its path reports everything. */
  lemma CleanReportsAll(s: Store)
    requires Inv(s) && s.live.Some? && AllReceived(s.live.value) && s.live.value.dirtyBytes == 0
    ensures ReportsAll(s.disk.journal, s.live.value.journal.manifest.totalChunks)
  {
    var l := s.live.value;
    var m := l.journal.manifest;
    assert Below(s.disk.journal, l.journal) && LiveSafe(l, s.disk, s.accepted);
    DirtyIsZeroIff(m, l.journal.bitmap, l.durable, m.totalChunks);
    forall i: nat | i < m.totalChunks ensures ReportsChunk(s.disk.journal, i) {
      assert BitSet(l.journal.bitmap, i);
    }
    assert ReportsChunk(s.disk.journal, 0);
  }

  /** A journal that reports chunks over no part file misreports. */
  lemma NoFileMisreports(d: Disk, image: Image, i: nat, accepted: map<nat, seq<byte>>)
    requires d.part.None? && image in d.revealable && ReportsChunk(image, i)
    ensures MayMisreport(d, accepted)
  {
    var left := Kept(d, image);
    assert PowerLoss(d, left);
    assert Misreports(left, accepted);
  }

  /**
   Finalize moves the part file away before it removes the journal, and never
   syncs that removal. A power loss after it may therefore bring back a journal
   of every chunk over no file, exactly when the file was moved, and so after
   every finalize that succeeds. After a mere kill, only if the journal was not
   removed.
   */
  lemma FinalizeIsSafeIff(s: Store, hash: seq<byte> -> string, io: FinalizeIo, now: int)
    requires Inv(s) && s.live.Some?
    ensures var (t, result) := FinalizeSpec(s, hash, io, now);
            && (!MayMisreport(t.disk, t.accepted) <==> !MovesFile(s, hash, io, now))
            && (!Misreports(t.disk, t.accepted) <==> !(MovesFile(s, hash, io, now) && result.Err?))
            && (result.Ok? ==> MovesFile(s, hash, io, now))
  {
    var l := s.live.value;
    if AllReceived(l) {
      var run := CheckpointSpec(s, io.checkpointSteps, io.syncs, now);
      var saved := Final(s, run);
      CheckpointKeeps(s, io.checkpointSteps, io.syncs, now);
      assert Inv(saved);
      if run.result.Ok? {
        CheckpointedReportsAll(s, io.checkpointSteps, io.syncs, now);
        PublishIsSafeIff(saved, hash, io.okSteps);
      } else {
        SafeNeverMisreports(saved);
      }
    } else {
      SafeNeverMisreports(s);
    }
  }

  lemma PublishIsSafeIff(s: Store, hash: seq<byte> -> string, okSteps: nat)
    requires Inv(s) && s.live.Some? && s.disk.part.Some?
    requires ReportsAll(s.disk.journal, s.live.value.journal.manifest.totalChunks)
    ensures var (t, result) := Publish(s, hash, okSteps);
            var moves := okSteps >= 3 && s.disk.destination.None?
                         && hash(s.disk.part.value.bytes) == s.live.value.journal.manifest.sha256;
            && (!MayMisreport(t.disk, t.accepted) <==> !moves)
            && (!Misreports(t.disk, t.accepted) <==> !(moves && result.Err?))
            && (result.Ok? ==> moves)
  {
    SafeNeverMisreports(s);
    var t := Publish(s, hash, okSteps).0;
    assert ReportsChunk(s.disk.journal, 0);
    if t.disk.part.None? { NoFileMisreports(t.disk, s.disk.journal, 0, t.accepted); }
  }

  /** By name: even a finalize that succeeds may be followed by a power loss that leaves a journal of every chunk, and no part file. */
  lemma FinalizedMayReturn(s: Store, hash: seq<byte> -> string, io: FinalizeIo, now: int)
    requires Inv(s) && s.live.Some? && FinalizeSpec(s, hash, io, now).1.Ok?
    ensures exists left :: PowerLoss(FinalizeSpec(s, hash, io, now).0.disk, left) && left.part.None?
                           && ReportsAll(left.journal, s.live.value.journal.manifest.totalChunks)
  {
    CheckpointedReportsAll(s, io.checkpointSteps, io.syncs, now);
    var saved := Final(s, CheckpointSpec(s, io.checkpointSteps, io.syncs, now));
    var t := FinalizeSpec(s, hash, io, now).0;
    assert PowerLoss(t.disk, Kept(t.disk, saved.disk.journal));
  }

  /**
   Abort removes the part file first too: a power loss after it may bring back
   chunks over no file, exactly if the part file was removed and the journal
   reported a chunk; a mere kill, if besides the journal was not removed.
   */
  lemma AbortIsSafeIff(s: Store, okSteps: nat)
    requires Inv(s) && s.live.Some?
    ensures var t := AbortSpec(s, okSteps).0;
            var bare := okSteps >= 2 && exists i: nat :: ReportsChunk(s.disk.journal, i);
            && (!MayMisreport(t.disk, t.accepted) <==> !bare)
            && (!Misreports(t.disk, t.accepted) <==> !(bare && okSteps == 2))
  {
    SafeNeverMisreports(s);
    var t := AbortSpec(s, okSteps).0;
    if okSteps >= 2 {
      if i: nat :| ReportsChunk(s.disk.journal, i) {
        NoFileMisreports(t.disk, s.disk.journal, i, t.accepted);
      } else {
        forall image, i: nat | image in t.disk.revealable ensures !ReportsChunk(image, i) {
          if image in s.disk.revealable { TopReportsMost(s, image, i); }
        }
      }
    }
  }

  /**
   What a restart makes of a journal over no part file: every chunk it reports is
   zeros, and is refused as a duplicate when sent again. If it reports them all,
   only the digest check of the next finalize stands in the way.
   */
  lemma RestartOverNothing(t: Store, p: Manifest, truncates: bool, hash: seq<byte> -> string, io: FinalizeIo, now: int)
    requires t.live.None? && t.disk.part.None? && t.disk.journal.Saved? && FitJournal(t.disk.journal.journal)
    requires Validate(p).Ok? && SameTransfer(t.disk.journal.journal.manifest, p)
    ensures var run := InitSpec(t, p, InitIo(true, true, 2, truncates), now);
            var u := Final(t, run);
            && run.result.Ok? && u.live.Some? && WellFormed(u) && u.live.value.journal == t.disk.journal.journal
            && u.disk.part.Some? && u.disk.part.value.bytes == Zeros(p.fileSize)
            && (forall i: nat, data, wio | ReportsChunk(t.disk.journal, i) && |data| == ChunkLength(p, i) ::
                  WriteSpec(u, i, data, wio, now) == Run([], Ok(WriteAck(true, true))))
            && (ReportsAll(t.disk.journal, p.totalChunks) && hash(Zeros(p.fileSize)) != p.sha256 && io.okSteps > 0 ==>
                  FinalizeSpec(u, hash, io, now).1 == Err("file_hash_mismatch"))
  {
    var run := InitSpec(t, p, InitIo(true, true, 2, truncates), now);
    assert |run.states| == 3;
    var u := run.states[2];
    assert u.disk.part.value.bytes == Zeros(p.fileSize);
    if ReportsAll(t.disk.journal, p.totalChunks) {
      forall i: nat | i < p.totalChunks ensures BitSet(u.live.value.journal.bitmap, i) {
        assert ReportsChunk(t.disk.journal, i);
      }
      assert AllReceived(u.live.value);
    }
  }
}
