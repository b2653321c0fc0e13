/** Whole runs of the receive store: any operations in any order, failing part-way, with the worker killed or power lost between any two disk steps. */
module ReceiveRuns {
  import opened Wrappers
  import opened Bitmap
  import opened ReceiveLayout
  import opened ReceiveSpec
  import opened ReceiveSafety

  datatype Op =
    | Init(p: Manifest, io: InitIo, now: int)
    | Write(index: int, data: seq<byte>, wio: WriteIo, now: int)
    | Checkpoint(okSteps: nat, syncs: bool, now: int)

  function Perform(s: Store, op: Op): seq<Store>
    requires WellFormed(s)
  {
    match op
    case Init(p, io, now) => InitSpec(s, p, io, now).states
    case Write(index, data, wio, now) => WriteSpec(s, index, data, wio, now).states
    case Checkpoint(okSteps, syncs, now) => if s.live.None? then [] else CheckpointSpec(s, okSteps, syncs, now).states
  }

  /** The state after `k` steps of `op`. */
  function StateAt(s: Store, op: Op, k: nat): Store
    requires WellFormed(s) && k <= |Perform(s, op)|
  {
    if k == 0 then s else Perform(s, op)[k - 1]
  }

  /**
   An operation that returns; one cut short by a kill, which keeps the disk as
   it is, unsynced parts included; or one cut short by a power loss that leaves
   `left` on the disk.
   */
  datatype Event = Completed(op: Op) | Killed(op: Op, at: nat) | PowerLost(op: Op, at: nat, left: Disk)

  ghost predicate Possible(s: Store, e: Event) {
    && WellFormed(s)
    && (e.op.Init? ==> e.op.io.journalReadable)
    && (!e.Completed? ==> e.at <= |Perform(s, e.op)|)
    && (e.PowerLost? ==> PowerLoss(StateAt(s, e.op, e.at).disk, e.left))
  }

  ghost function After(s: Store, e: Event): Store
    requires Possible(s, e)
  {
    match e
    case Completed(op) => StateAt(s, op, |Perform(s, op)|)
    case Killed(op, at) => StateAt(s, op, at).(live := None)
    case PowerLost(op, at, left) => Store(left, None, StateAt(s, op, at).accepted)
  }

  ghost predicate PossibleRun(s: Store, events: seq<Event>)
    decreases |events|
  {
    events == [] || (Possible(s, events[0]) && PossibleRun(After(s, events[0]), events[1..]))
  }

  ghost function RunOf(s: Store, events: seq<Event>): Store
    requires PossibleRun(s, events)
    decreases |events|
  {
    if events == [] then s else RunOf(After(s, events[0]), events[1..])
  }

  /** No transfer known: no journal; a part file may be left over from anything. */
  ghost predicate Pristine(s: Store) {
    s.live.None? && s.disk.journal.Absent? && s.disk.revealable == {Absent}
  }

  // ---- the invariant over runs ----

  lemma PerformKeeps(s: Store, op: Op, k: nat)
    requires Inv(s) && (op.Init? ==> op.io.journalReadable)
    requires k <= |Perform(s, op)|
    ensures Inv(StateAt(s, op, k))
  {
    match op
    case Init(p, io, now) => InitKeeps(s, p, io, now);
    case Write(index, data, wio, now) => WriteKeeps(s, index, data, wio, now);
    case Checkpoint(okSteps, syncs, now) => if s.live.Some? { CheckpointKeeps(s, okSteps, syncs, now); }
  }

  /** Whatever the power loss does to unsynced bytes, every image it can reveal stays safe to restart from. */
  lemma PowerLossKeeps(s: Store, left: Disk)
    requires Inv(s) && PowerLoss(s.disk, left)
    ensures Inv(Store(left, None, s.accepted))
  {
    assert ImageSafe(left.journal, s.disk.part, s.accepted);
    if left.journal.Saved? {
      var m := left.journal.journal.manifest;
      forall i: nat | i < m.totalChunks && BitSet(left.journal.journal.bitmap, i)
        ensures Holds(left.part, m, i, s.accepted) && SlotSynced(left.part, m, i)
      {
        assert Holds(s.disk.part, m, i, s.accepted) && SlotSynced(s.disk.part, m, i);
        ChunkInFile(m, i);
        assert Slot(left.part.value.bytes, m, i) == Slot(s.disk.part.value.bytes, m, i);
      }
    }
  }

  lemma EventKeeps(s: Store, e: Event)
    requires Inv(s) && Possible(s, e)
    ensures Inv(After(s, e))
  {
    match e
    case Completed(op) => PerformKeeps(s, op, |Perform(s, op)|);
    case Killed(op, at) => PerformKeeps(s, op, at);
    case PowerLost(op, at, left) =>
      PerformKeeps(s, op, at);
      PowerLossKeeps(StateAt(s, op, at), left);
  }

  lemma {:induction false} RunKeeps(s: Store, events: seq<Event>)
    requires Inv(s) && PossibleRun(s, events)
    ensures Inv(RunOf(s, events))
    decreases |events|
  {
    if events != [] {
      EventKeeps(s, events[0]);
      RunKeeps(After(s, events[0]), events[1..]);
    }
  }

  // ---- what each operation can change ----

  /** What the `k`th disk of a checkpoint has in common with the first: every byte, and until the directory is synced every image. */
  lemma CheckpointDisk(d: Disk, j: Journal, syncs: bool, k: nat)
    requires k < 6
    ensures var t := CheckpointDisks(d, j, syncs)[k];
            && (t.part.Some? <==> d.part.Some?) && (d.part.Some? ==> t.part.value.bytes == d.part.value.bytes)
            && t.destination == d.destination
            && t.revealable <= d.revealable + {Saved(j)}
            && (k < 5 || !syncs ==> d.revealable <= t.revealable)
            && (k < 4 ==> t.journal == d.journal && t.revealable == d.revealable)
            && (k >= 4 ==> t.journal == Saved(j))
            && (k == 5 && syncs ==> t.revealable == {Saved(j)})
  {}

  /** A checkpoint changes, besides the disk's journals, only what is durable: it commits the transfer's own bitmap. */
  lemma CheckpointStates(s: Store, okSteps: nat, syncs: bool, now: int, k: nat)
    requires WellFormed(s) && s.live.Some? && k < |CheckpointSpec(s, okSteps, syncs, now).states|
    ensures var l := s.live.value;
            var t := CheckpointSpec(s, okSteps, syncs, now).states[k];
            var j := if k < 6 then k else 5;
            && l.open && k <= 6 && s.disk.part.Some?
            && t == s.(disk := CheckpointDisks(s.disk, l.journal, syncs)[j], live := Some(if k < 6 then l else Committed(l, now)))
            && t.disk.part.Some? && t.disk.part.value.bytes == s.disk.part.value.bytes
            && t.disk.destination == s.disk.destination
            && t.disk.revealable <= s.disk.revealable + {Saved(l.journal)}
            && (k < 5 || !syncs ==> s.disk.revealable <= t.disk.revealable)
            && (k < 4 ==> t.disk.journal == s.disk.journal && t.disk.revealable == s.disk.revealable)
            && (k >= 4 ==> t.disk.journal == Saved(l.journal))
            && (k >= 5 && syncs ==> t.disk.revealable == {Saved(l.journal)})
  {
    CheckpointDisk(s.disk, s.live.value.journal, syncs, if k < 6 then k else 5);
  }

  function MarkedJournal(l: Live, index: nat): Journal
    requires index / 8 < |l.journal.bitmap|
  {
    l.journal.(bitmap := WithBit(l.journal.bitmap, index))
  }

  /** A write changes only a chunk not yet received, whose bytes it records, and what its checkpoint does. */
  lemma WriteStates(s: Store, index: int, data: seq<byte>, wio: WriteIo, now: int, k: nat)
    requires WellFormed(s) && k < |WriteSpec(s, index, data, wio, now).states|
    ensures s.live.Some? && s.live.value.open && 0 <= index < s.live.value.journal.manifest.totalChunks
    ensures !BitSet(s.live.value.journal.bitmap, index)
    ensures var l := s.live.value;
            var marked := MarkedJournal(l, index);
            var t := WriteSpec(s, index, data, wio, now).states[k];
            && t.live.Some?
            && (|| (t.accepted == s.accepted && t.live == s.live && t.disk.revealable == s.disk.revealable)
                || (&& t.accepted == s.accepted[index := data] && t.live.value.journal == marked
                    && t.disk.revealable <= s.disk.revealable + {Saved(marked)}
                    && (|| t.live.value.durable == l.durable
                        || (t.live.value.durable == marked.bitmap && (wio.syncs ==> t.disk.revealable == {Saved(marked)})))))
            && t.disk.part.Some? && |t.disk.part.value.bytes| == |s.disk.part.value.bytes|
            && t.disk.destination == s.disk.destination
  {
    var run := WriteSpec(s, index, data, wio, now);
    if k >= 2 {
      CheckpointStates(run.states[1], wio.okSteps, wio.syncs, now, k - 2);
    }
  }

  // ---- what is promised to survive ----

  /** Chunk `i` is promised to survive: every journal a restart may find reports it. */
  ghost predicate Guaranteed(s: Store, i: nat) {
    forall image | image in s.disk.revealable :: ReportsChunk(image, i)
  }

  ghost predicate Keeps(s: Store, t: Store, i: nat) {
    && Guaranteed(t, i)
    && i in s.accepted && i in t.accepted && t.accepted[i] == s.accepted[i]
  }

  lemma GuaranteedIsAccepted(s: Store, i: nat)
    requires Inv(s) && Guaranteed(s, i)
    ensures i in s.accepted
  {
    assert ReportsChunk(s.disk.journal, i);
    assert ImageSafe(s.disk.journal, s.disk.part, s.accepted);
  }

  /** A live transfer has received every guaranteed chunk. */
  lemma GuaranteedIsReceived(s: Store, i: nat)
    requires Inv(s) && Guaranteed(s, i) && s.live.Some?
    ensures ReportsChunk(Saved(s.live.value.journal), i)
  {
    assert ReportsChunk(s.disk.journal, i) && Below(s.disk.journal, s.live.value.journal);
  }

  lemma WriteKeepsGuarantee(s: Store, index: int, data: seq<byte>, wio: WriteIo, now: int, k: nat, i: nat)
    requires Inv(s) && k < |WriteSpec(s, index, data, wio, now).states| && Guaranteed(s, i)
    ensures Keeps(s, WriteSpec(s, index, data, wio, now).states[k], i)
  {
    GuaranteedIsAccepted(s, i);
    WriteStates(s, index, data, wio, now, k);
    GuaranteedIsReceived(s, i);
    WithBitSetsOneBit(s.live.value.journal.bitmap, index, i);
    assert ReportsChunk(Saved(MarkedJournal(s.live.value, index)), i);
  }

  lemma PerformKeepsGuarantee(s: Store, op: Op, k: nat, i: nat)
    requires Inv(s) && k <= |Perform(s, op)| && Guaranteed(s, i)
    ensures Keeps(s, StateAt(s, op, k), i)
  {
    GuaranteedIsAccepted(s, i);
    if k > 0 {
      match op
      case Init(p, io, now) => InitStates(s, p, io, now, k - 1);
      case Write(index, data, wio, now) => WriteKeepsGuarantee(s, index, data, wio, now, k - 1, i);
      case Checkpoint(okSteps, syncs, now) =>
        GuaranteedIsReceived(s, i);
        CheckpointStates(s, okSteps, syncs, now, k - 1);
    }
  }

  /** What an init can change: the part file's size, and whether the transfer is live. */
  lemma InitStates(s: Store, p: Manifest, io: InitIo, now: int, k: nat)
    requires WellFormed(s) && k < |InitSpec(s, p, io, now).states|
    ensures var t := InitSpec(s, p, io, now).states[k];
            && s.live.None? && k < 3 && t.accepted == s.accepted && t.disk.destination == s.disk.destination
            && t.disk.journal == s.disk.journal && t.disk.revealable == s.disk.revealable
            && (t.live.Some? ==>
                  && t.live.value.durable == t.live.value.journal.bitmap
                  && (io.journalReadable && s.disk.journal.Saved? ==> t.live.value.journal == s.disk.journal.journal)
                  && (!io.journalReadable || s.disk.journal.Absent? ==> t.live.value.journal == Journal(p, Blank(p.totalChunks))))
  {}

  lemma {:induction false} RunKeepsGuarantee(s: Store, events: seq<Event>, i: nat)
    requires Inv(s) && PossibleRun(s, events) && Guaranteed(s, i)
    ensures Keeps(s, RunOf(s, events), i)
    decreases |events|
  {
    GuaranteedIsAccepted(s, i);
    if events != [] {
      var e := events[0];
      EventKeeps(s, e);
      PerformKeepsGuarantee(s, e.op, if e.Completed? then |Perform(s, e.op)| else e.at, i);
      RunKeepsGuarantee(After(s, e), events[1..], i);
    }
  }

  ghost predicate InFile(part: Option<PartFile>, offset: nat, data: seq<byte>) {
    && part.Some? && offset + |data| <= |part.value.bytes|
    && part.value.bytes[offset..offset + |data|] == data
  }

  /** A chunk reported by the journal at its path is in the file with the bytes that were accepted. */
  lemma ReportedIsInFile(s: Store, i: nat)
    requires Inv(s) && ReportsChunk(s.disk.journal, i)
    ensures i in s.accepted && InFile(s.disk.part, i * CHUNK_SIZE, s.accepted[i])
  {
    assert ImageSafe(s.disk.journal, s.disk.part, s.accepted);
    assert Holds(s.disk.part, s.disk.journal.journal.manifest, i, s.accepted);
    ChunkInFile(s.disk.journal.journal.manifest, i);
  }

  /** A restart now would find chunk `i` reported, and in the file as `data`. */
  ghost predicate Survives(s: Store, i: nat, data: seq<byte>) {
    ReportsChunk(s.disk.journal, i) && InFile(s.disk.part, i * CHUNK_SIZE, data)
  }

  /**
   A chunk every revealable journal reports is still reported by all of them,
   and in the file with the bytes it has now, after any run of operations, kills
   and power losses.
   */
  lemma GuaranteedSurvives(s: Store, later: seq<Event>, i: nat)
    requires Inv(s) && PossibleRun(s, later) && Guaranteed(s, i)
    ensures i in s.accepted
    ensures Guaranteed(RunOf(s, later), i) && Survives(RunOf(s, later), i, s.accepted[i])
  {
    RunKeepsGuarantee(s, later, i);
    RunKeeps(s, later);
    ReportedIsInFile(RunOf(s, later), i);
  }

  /** The kindest power loss: every byte is kept, and `image` is at the journal path. */
  function Kept(d: Disk, image: Image): Disk {
    SyncPart(d).(journal := image, revealable := {image})
  }

  /** Power is lost now, and `image` comes back. */
  ghost function LostTo(s: Store, image: Image): (e: Event)
    requires WellFormed(s) && image in s.disk.revealable
    ensures Possible(s, e) && After(s, e) == Store(Kept(s.disk, image), None, s.accepted)
  {
    PowerLost(Checkpoint(0, true, 0), 0, Kept(s.disk, image))
  }

  // ---- crash safety ----

  /** What a crash leaves of the disk: a kill all of it, a power loss what it may. */
  ghost predicate CrashLeaves(d: Disk, left: Disk) {
    left == d || PowerLoss(d, left)
  }

  lemma CrashKeeps(s: Store, left: Disk)
    requires Inv(s) && CrashLeaves(s.disk, left)
    ensures Inv(Store(left, None, s.accepted))
    ensures left.journal in s.disk.revealable
  {
    if left != s.disk { PowerLossKeeps(s, left); }
  }

  /**
   Starting transfer `p` again on the disk `left` over from `before` succeeds, and
   the bitmap it recovers has every guaranteed chunk, and every chunk held durable
   if the journal at its path survived, as under a kill; no chunk that was not
   received; and for each of its chunks the accepted bytes in the file.
   */
  ghost predicate Recovers(before: Store, left: Disk, p: Manifest, io: InitIo, now: int)
    requires WellFormed(before) && before.live.Some? && before.live.value.journal.manifest.totalChunks == p.totalChunks
  {
    var lost := Store(left, None, before.accepted);
    && WellFormed(lost)
    && var run := InitSpec(lost, p, io, now);
    var after := Final(lost, run);
    && run.result.Ok? && after.live.Some?
    && Inv(after) && SameTransfer(after.live.value.journal.manifest, p)
    && forall i: nat | i < p.totalChunks :: RecoversChunk(before, left.journal, after, p, i)
  }

  ghost predicate RecoversChunk(before: Store, found: Image, after: Store, p: Manifest, i: nat)
    requires after.live.Some? && Inv(after) && SameTransfer(after.live.value.journal.manifest, p)
    requires WellFormed(before) && before.live.Some? && before.live.value.journal.manifest.totalChunks == p.totalChunks
    requires i < p.totalChunks
  {
    var recovered := after.live.value.journal.bitmap;
    && (Guaranteed(before, i) ==> BitSet(recovered, i))
    && (found == before.disk.journal && BitSet(before.live.value.durable, i) ==> BitSet(recovered, i))
    && (BitSet(recovered, i) ==> BitSet(before.live.value.journal.bitmap, i) && Holds(after.disk.part, p, i, before.accepted))
  }

  lemma InitSucceeds(s: Store, p: Manifest, io: InitIo, now: int)
    requires Inv(s) && s.live.None? && Validate(p).Ok?
    requires s.disk.journal.Saved? ==> SameTransfer(s.disk.journal.journal.manifest, p)
    requires io.mkdirOk && io.journalReadable && io.okSteps >= 2
    ensures Laid(p) && p.totalChunks >= 1
    ensures InitSpec(s, p, io, now).result.Ok? && |InitSpec(s, p, io, now).states| == 3
    ensures var t := Final(s, InitSpec(s, p, io, now));
            && t.live.Some? && Inv(t) && t.accepted == s.accepted
            && t.live.value.journal == if s.disk.journal.Saved? then s.disk.journal.journal else Journal(p, Blank(p.totalChunks))
  {
    AcceptedManifestIsLaid(p);
    assert ImageSafe(s.disk.journal, s.disk.part, s.accepted);
    InitKeeps(s, p, io, now);
  }

  lemma RestartRecoversChunk(before: Store, after: Store, p: Manifest, image: Image, i: nat)
    requires Inv(before) && before.live.Some? && before.live.value.journal.manifest.totalChunks == p.totalChunks
    requires Inv(after) && after.live.Some? && SameTransfer(after.live.value.journal.manifest, p)
    requires after.accepted == before.accepted && i < p.totalChunks && image in before.disk.revealable
    requires after.live.value.journal.bitmap == if image.Saved? then image.journal.bitmap else Blank(p.totalChunks)
    ensures RecoversChunk(before, image, after, p, i)
  {
    assert LiveSafe(before.live.value, before.disk, before.accepted);
    assert Below(image, before.live.value.journal);
    BlankHasNoBits(p.totalChunks);
    if BitSet(after.live.value.journal.bitmap, i) {
      assert ReportsChunk(image, i);
      assert Holds(after.disk.part, after.live.value.journal.manifest, i, after.accepted);
    }
  }

  lemma RestartRecovers(before: Store, left: Disk, p: Manifest, io: InitIo, now: int)
    requires Inv(before) && before.live.Some? && CrashLeaves(before.disk, left)
    requires Validate(p).Ok? && SameTransfer(before.live.value.journal.manifest, p)
    requires io.mkdirOk && io.journalReadable && io.okSteps >= 2
    ensures Recovers(before, left, p, io, now)
  {
    var lost := Store(left, None, before.accepted);
    CrashKeeps(before, left);
    assert Below(left.journal, before.live.value.journal);
    InitSucceeds(lost, p, io, now);
    var after := Final(lost, InitSpec(lost, p, io, now));
    forall i: nat | i < p.totalChunks ensures RecoversChunk(before, left.journal, after, p, i) {
      RestartRecoversChunk(before, after, p, left.journal, i);
    }
  }

  /** A run from `s0` and `at` steps of a further operation lead to `before`, and a crash there to the disk `left`. */
  ghost predicate CrashesAt(s0: Store, events: seq<Event>, op: Op, at: nat, before: Store, left: Disk) {
    && PossibleRun(s0, events) && Possible(RunOf(s0, events), Killed(op, at))
    && before == StateAt(RunOf(s0, events), op, at) && CrashLeaves(before.disk, left)
  }

  /** `p` describes the transfer that is live, and the I/O of its restart succeeds. */
  predicate Restarts(before: Store, p: Manifest, io: InitIo) {
    && before.live.Some? && SameTransfer(before.live.value.journal.manifest, p) && Validate(p).Ok?
    && io.mkdirOk && io.journalReadable && io.okSteps >= 2
  }

  /**
   Crash safety: after any run, with any kills and power losses, and any number
   of the disk steps of a further operation, a kill or a power loss leaves a
   disk from which the transfer recovers. After a kill that includes every chunk
   the worker held durable; after a power loss too, if no kill came before and
   the directory can be synced.
   */
  lemma CrashSafety(
    s0: Store, events: seq<Event>, op: Op, at: nat, before: Store, left: Disk, p: Manifest, io: InitIo, now: int)
    requires Pristine(s0) && CrashesAt(s0, events, op, at, before, left) && Restarts(before, p, io)
    ensures Inv(before) && Recovers(before, left, p, io, now)
    ensures Orderly(events) && Syncs(op) ==>
              forall i: nat | i < p.totalChunks && BitSet(before.live.value.durable, i) :: Guaranteed(before, i)
  {
    RunKeeps(s0, events);
    var s := RunOf(s0, events);
    PerformKeeps(s, op, at);
    RestartRecovers(before, left, p, io, now);
    if Orderly(events) && Syncs(op) {
      RunKeepsDurable(s0, events);
      PerformKeepsDurable(s, op, at);
      DurableIsGuaranteed(before);
    }
  }

  // ---- runs without kills ----

  predicate Syncs(op: Op) {
    match op
    case Init(_, _, _) => true
    case Write(_, _, wio, _) => wio.syncs
    case Checkpoint(_, syncs, _) => syncs
  }

  /** No worker is killed while the machine runs on, and every directory sync takes effect. */
  ghost predicate Orderly(events: seq<Event>) {
    forall e | e in events :: !e.Killed? && Syncs(e.op)
  }

  ghost predicate Covers(image: Image, l: Live)
    requires FitJournal(l.journal) && Fits(l.durable, l.journal.manifest.totalChunks)
  {
    forall i: nat | i < l.journal.manifest.totalChunks && BitSet(l.durable, i) :: ReportsChunk(image, i)
  }

  /** Every revealable journal reports what the worker holds durable; with no worker there is only one. */
  ghost predicate Durable(s: Store)
    requires WellFormed(s)
  {
    if s.live.None? then s.disk.revealable == {s.disk.journal}
    else forall image | image in s.disk.revealable :: Covers(image, s.live.value)
  }

  lemma DurableIsGuaranteed(s: Store)
    requires Inv(s) && Durable(s) && s.live.Some?
    ensures forall i: nat | i < s.live.value.journal.manifest.totalChunks && BitSet(s.live.value.durable, i) :: Guaranteed(s, i)
  {
    forall i: nat | i < s.live.value.journal.manifest.totalChunks && BitSet(s.live.value.durable, i) ensures Guaranteed(s, i) {
      forall image | image in s.disk.revealable ensures ReportsChunk(image, i) {
        assert Covers(image, s.live.value);
      }
    }
  }

  /** Saving journal `j`, which has every durable chunk, as one more image or as the only one. */
  lemma SavedKeepsDurable(s: Store, t: Store, j: Journal)
    requires WellFormed(s) && WellFormed(t) && Durable(s) && s.live.Some? && t.live.Some?
    requires FitJournal(j) && j.manifest == s.live.value.journal.manifest == t.live.value.journal.manifest
    requires forall i: nat | i < j.manifest.totalChunks && BitSet(s.live.value.durable, i) :: BitSet(j.bitmap, i)
    requires t.disk.revealable <= s.disk.revealable + {Saved(j)}
    requires || t.live.value.durable == s.live.value.durable
             || (t.live.value.durable == j.bitmap && t.disk.revealable == {Saved(j)})
    ensures Durable(t)
  {
    forall image | image in t.disk.revealable ensures Covers(image, t.live.value) {
      if image == Saved(j) {
        assert forall i: nat | i < j.manifest.totalChunks && BitSet(j.bitmap, i) :: ReportsChunk(image, i);
      } else {
        assert Covers(image, s.live.value);
      }
    }
  }

  lemma PerformKeepsDurable(s: Store, op: Op, k: nat)
    requires Inv(s) && Durable(s) && (op.Init? ==> op.io.journalReadable) && Syncs(op)
    requires k <= |Perform(s, op)|
    ensures Inv(StateAt(s, op, k)) && Durable(StateAt(s, op, k))
  {
    PerformKeeps(s, op, k);
    if k > 0 {
      var t := StateAt(s, op, k);
      match op
      case Init(p, io, now) => InitKeepsDurable(s, p, io, now, k - 1);
      case Write(index, data, wio, now) => WriteKeepsDurable(s, index, data, wio, now, k - 1);
      case Checkpoint(okSteps, syncs, now) =>
        CheckpointStates(s, okSteps, syncs, now, k - 1);
        forall i: nat | i < s.live.value.journal.manifest.totalChunks ensures BitSet(s.live.value.durable, i) ==> BitSet(s.live.value.journal.bitmap, i) {
          DurableIsReceived(s, i);
        }
        SavedKeepsDurable(s, t, s.live.value.journal);
    }
  }

  lemma InitKeepsDurable(s: Store, p: Manifest, io: InitIo, now: int, k: nat)
    requires Inv(s) && Durable(s) && io.journalReadable && k < |InitSpec(s, p, io, now).states|
    requires Inv(InitSpec(s, p, io, now).states[k])
    ensures Durable(InitSpec(s, p, io, now).states[k])
  {
    InitStates(s, p, io, now, k);
    var t := InitSpec(s, p, io, now).states[k];
    if t.live.Some? {
      assert LiveSafe(t.live.value, t.disk, t.accepted);
      assert Covers(t.disk.journal, t.live.value);
    }
  }

  lemma WriteKeepsDurable(s: Store, index: int, data: seq<byte>, wio: WriteIo, now: int, k: nat)
    requires Inv(s) && Durable(s) && wio.syncs && k < |WriteSpec(s, index, data, wio, now).states|
    requires Inv(WriteSpec(s, index, data, wio, now).states[k])
    ensures Durable(WriteSpec(s, index, data, wio, now).states[k])
  {
    WriteStates(s, index, data, wio, now, k);
    var l := s.live.value;
    var marked := MarkedJournal(l, index);
    forall i: nat | i < l.journal.manifest.totalChunks
      ensures BitSet(l.durable, i) ==> BitSet(marked.bitmap, i)
    {
      DurableIsReceived(s, i);
      WithBitSetsOneBit(l.journal.bitmap, index, i);
    }
    SavedKeepsDurable(s, WriteSpec(s, index, data, wio, now).states[k], marked);
  }

  lemma {:induction false} RunKeepsDurable(s: Store, events: seq<Event>)
    requires Inv(s) && Durable(s) && PossibleRun(s, events) && Orderly(events)
    ensures Inv(RunOf(s, events)) && Durable(RunOf(s, events))
    decreases |events|
  {
    if events != [] {
      var e := events[0];
      assert e in events;
      EventKeeps(s, e);
      PerformKeepsDurable(s, e.op, if e.Completed? then |Perform(s, e.op)| else e.at);
      RunKeepsDurable(After(s, e), events[1..]);
    }
  }

  // ---- durability accounting ----

  lemma {:induction false} DirtyIsZeroIff(m: Manifest, bitmap: seq<bv8>, durable: seq<bv8>, upTo: nat)
    requires Laid(m) && Fits(bitmap, m.totalChunks) && Fits(durable, m.totalChunks) && upTo <= m.totalChunks
    ensures Dirty(m, bitmap, durable, upTo) >= 0
    ensures Dirty(m, bitmap, durable, upTo) == 0 <==>
            forall i: nat | i < upTo && BitSet(bitmap, i) :: BitSet(durable, i)
  {
    if upTo > 0 {
      DirtyIsZeroIff(m, bitmap, durable, upTo - 1);
      ChunkInFile(m, upTo - 1);
    }
  }

  /** In every reachable state nothing is dirty exactly when every received chunk is durable: skipping the checkpoint is sound. */
  lemma CleanIffDurable(s: Store)
    requires Inv(s) && s.live.Some?
    ensures var l := s.live.value;
            l.dirtyBytes == 0 <==> Bits(l.journal.bitmap, l.journal.manifest.totalChunks) == Bits(l.durable, l.journal.manifest.totalChunks)
  {
    var l := s.live.value;
    var total := l.journal.manifest.totalChunks;
    DirtyIsZeroIff(l.journal.manifest, l.journal.bitmap, l.durable, total);
    forall i: nat | i < total ensures BitSet(l.durable, i) ==> BitSet(l.journal.bitmap, i) {
      DurableIsReceived(s, i);
    }
    if l.dirtyBytes != 0 {
      var i: nat :| i < total && BitSet(l.journal.bitmap, i) && !BitSet(l.durable, i);
      assert i in Bits(l.journal.bitmap, total) && i !in Bits(l.durable, total);
    }
    if l.dirtyBytes == 0 {
      forall i: nat ensures i in Bits(l.journal.bitmap, total) <==> i in Bits(l.durable, total) {}
    }
  }

  /** A successful write of a new chunk, and the state it leaves. */
  ghost predicate Writes(s: Store, t: Store, index: int, data: seq<byte>, wio: WriteIo, now: int) {
    && WellFormed(s)
    && var run := WriteSpec(s, index, data, wio, now);
    run.result.Ok? && !run.result.value.duplicate && t == Final(s, run)
  }

  /**
   After a successful write of a new chunk, fewer than 32 MiB are at risk. If it
   says checkpointed, the worker counts everything as durable; the new chunk is
   guaranteed exactly if the checkpoint's directory sync took effect.
   */
  lemma CheckpointedWriteIsDurable(s: Store, t: Store, index: int, data: seq<byte>, wio: WriteIo, now: int)
    requires Inv(s) && Writes(s, t, index, data, wio, now)
    ensures Inv(t) && t.live.Some? && 0 <= t.live.value.dirtyBytes < CHECKPOINT_BYTES
    ensures 0 <= index && index in t.accepted && t.accepted[index] == data
    ensures ReportsChunk(Saved(t.live.value.journal), index)
    ensures WriteSpec(s, index, data, wio, now).result.value.checkpointed ==>
              && t.live.value.durable == t.live.value.journal.bitmap && t.live.value.dirtyBytes == 0
              && (Guaranteed(t, index) <==> wio.syncs)
  {
    var l := s.live.value;
    WrittenIsMarked(s, t, index, data, wio, now);
    WithBitSetsOneBit(l.journal.bitmap, index, index);
    DirtyIsZeroIff(t.live.value.journal.manifest, t.live.value.journal.bitmap, t.live.value.durable, t.live.value.journal.manifest.totalChunks);
    if WriteSpec(s, index, data, wio, now).result.value.checkpointed {
      AcknowledgedIsGuaranteedIff(s, t, index, data, wio, now);
    }
  }

  lemma WrittenIsMarked(s: Store, t: Store, index: int, data: seq<byte>, wio: WriteIo, now: int)
    requires Inv(s) && Writes(s, t, index, data, wio, now)
    ensures s.live.Some? && 0 <= index && Acceptable(s, index, data) && Inv(t) && t.live.Some?
    ensures t.live.value.journal == Marked(s, index, data).live.value.journal && t.accepted == s.accepted[index := data]
    ensures !Due(Marked(s, index, data).live.value, now) ==> t == Marked(s, index, data)
    ensures WriteSpec(s, index, data, wio, now).result.value.checkpointed <==> Due(Marked(s, index, data).live.value, now)
  {
    WriteKeeps(s, index, data, wio, now);
    var run := WriteSpec(s, index, data, wio, now);
    assert AllInv(run.states) && |run.states| >= 2;
    if |run.states| > 2 {
      CheckpointStates(Marked(s, index, data), wio.okSteps, wio.syncs, now, |run.states| - 3);
    }
  }

  lemma AcknowledgedIsGuaranteedIff(s: Store, t: Store, index: int, data: seq<byte>, wio: WriteIo, now: int)
    requires Inv(s) && Writes(s, t, index, data, wio, now)
    requires WriteSpec(s, index, data, wio, now).result.value.checkpointed
    ensures t.live.Some? && t.live.value.durable == t.live.value.journal.bitmap && t.live.value.dirtyBytes == 0
    ensures 0 <= index && (Guaranteed(t, index) <==> wio.syncs)
    ensures !wio.syncs ==> s.disk.journal in t.disk.revealable && !ReportsChunk(s.disk.journal, index)
  {
    var l := s.live.value;
    var marked := Marked(s, index, data);
    DirtyIsPositive(s, marked, index, data);
    assert CheckpointSpec(marked, wio.okSteps, wio.syncs, now).states != [];
    CheckpointStates(marked, wio.okSteps, wio.syncs, now, 6);
    WithBitSetsOneBit(l.journal.bitmap, index, index);
    assert Below(s.disk.journal, l.journal);
  }

  lemma DirtyIsPositive(s: Store, marked: Store, index: nat, data: seq<byte>)
    requires Inv(s) && Acceptable(s, index, data) && marked == Marked(s, index, data)
    ensures marked.live.Some? && marked.live.value.dirtyBytes > 0
  {
    var l := s.live.value;
    DirtyIsZeroIff(l.journal.manifest, l.journal.bitmap, l.durable, l.journal.manifest.totalChunks);
    ChunkInFile(l.journal.manifest, index);
  }

  ghost predicate SurvivesRun(s: Store, later: seq<Event>, i: nat, data: seq<byte>) {
    PossibleRun(s, later) ==> Survives(RunOf(s, later), i, data)
  }

  /**
   A chunk acknowledged as checkpointed, not as a duplicate, is in the part file
   with exactly its bytes after any further run of operations, kills and power
   losses; exactly where the directory can be synced.
   */
  lemma AcknowledgedIsForeverIff(s: Store, acked: Store, index: int, data: seq<byte>, wio: WriteIo, now: int)
    requires Inv(s) && Writes(s, acked, index, data, wio, now)
    requires WriteSpec(s, index, data, wio, now).result.value.checkpointed
    ensures 0 <= index
    ensures (forall later :: SurvivesRun(acked, later, index, data)) <==> wio.syncs
  {
    CheckpointedWriteIsDurable(s, acked, index, data, wio, now);
    if wio.syncs {
      forall later ensures SurvivesRun(acked, later, index, data) {
        if PossibleRun(acked, later) { GuaranteedSurvives(acked, later, index); }
      }
    } else {
      AcknowledgedIsGuaranteedIff(s, acked, index, data, wio, now);
      LossUndoes(acked, s.disk.journal, index, data);
    }
  }

  /** A chunk some revealable image does not report is forgotten by the power loss that reveals it. */
  lemma LossUndoes(s: Store, image: Image, i: nat, data: seq<byte>)
    requires WellFormed(s) && image in s.disk.revealable && !ReportsChunk(image, i)
    ensures exists later :: !SurvivesRun(s, later, i, data)
  {
    var e := LostTo(s, image);
    var later := [e];
    assert later[1..] == [];
    assert PossibleRun(After(s, e), later[1..]) && PossibleRun(s, later);
    assert RunOf(s, later) == After(s, e);
    assert !SurvivesRun(s, later, i, data);
  }
}
