/**
 The receive store on values: the disk with what a power loss may undo, the
 worker's memory, and every operation as the list of states it passes through.
 */
module ReceiveSpec {
  import opened Wrappers
  import opened Bitmap
  import opened ReceiveLayout

  const CHECKPOINT_BYTES := 32 * 1024 * 1024
  const CHECKPOINT_INTERVAL_MS := 1000

  // ---- the disk ----

  datatype Journal = Journal(manifest: Manifest, bitmap: seq<bv8>)

  /** What a path holds: nothing, a half-written file, or a whole journal. */
  datatype Image = Absent | Torn | Saved(journal: Journal)

  /** The part file, and the offsets written since it was last synced. */
  datatype PartFile = PartFile(bytes: seq<byte>, unsynced: set<nat>)

  /**
   `revealable` is every image a power loss may leave at the journal path: the
   current one, and the ones renamed away since the directory was last synced.
   */
  datatype Disk = Disk(
    part: Option<PartFile>,
    tmp: Image,
    tmpSynced: bool,
    journal: Image,
    revealable: set<Image>,
    destination: Option<seq<byte>>)

  predicate Between(low: nat, p: nat, high: nat) { low <= p < high }

  /** The offsets from `low` up to, not including, `high`. */
  function Span(low: nat, high: nat): (offsets: set<nat>)
    ensures forall p: nat :: p in offsets <==> low <= p < high
  {
    set p: nat | low <= p < high && Between(low, p, high)
  }

  function CreatePart(d: Disk): Disk {
    if d.part.Some? then d else d.(part := Some(PartFile([], {})))
  }

  /** `truncates` on the platforms that set the size; Linux `fallocate` only grows the file. */
  function Preallocated(bytes: seq<byte>, size: nat, truncates: bool): seq<byte> {
    if |bytes| < size then bytes + seq(size - |bytes|, i => 0 as byte)
    else if truncates then bytes[..size]
    else bytes
  }

  function Preallocate(d: Disk, size: nat, truncates: bool): Disk
    requires d.part.Some?
  {
    var was := d.part.value;
    d.(part := Some(PartFile(Preallocated(was.bytes, size, truncates), was.unsynced + Span(|was.bytes|, size))))
  }

  function WritePart(d: Disk, offset: nat, data: seq<byte>): Disk
    requires d.part.Some? && offset + |data| <= |d.part.value.bytes|
  {
    var unsynced := d.part.value.unsynced + Span(offset, offset + |data|);
    d.(part := Some(PartFile(Overwrite(d.part.value.bytes, offset, data), unsynced)))
  }

  function SyncPart(d: Disk): Disk {
    if d.part.None? then d else d.(part := Some(d.part.value.(unsynced := {})))
  }

  function OpenTmp(d: Disk): Disk { d.(tmp := Torn, tmpSynced := false) }

  function WriteTmp(d: Disk, j: Journal): Disk { d.(tmp := Saved(j), tmpSynced := false) }

  function SyncTmp(d: Disk): Disk { d.(tmpSynced := true) }

  /** The rename itself is atomic; its target's contents survive only if they were synced. */
  function RenameTmp(d: Disk): Disk {
    d.(journal := d.tmp, tmp := Absent,
    revealable := d.revealable + {d.tmp} + if d.tmpSynced then {} else {Torn})
  }

  /** `syncs` on the platforms with a directory sync; on Windows and the fallback platform it does nothing. */
  function SyncDirectory(d: Disk, syncs: bool): Disk {
    if syncs then d.(revealable := {d.journal}) else d
  }

  /** What a power loss may leave of `d`: unsynced bytes are lost to anything at all. */
  ghost predicate PowerLoss(d: Disk, after: Disk) {
    && (after.part.Some? <==> d.part.Some?)
    && (d.part.Some? ==>
          && |after.part.value.bytes| == |d.part.value.bytes|
          && after.part.value.unsynced == {}
          && forall p: nat | p < |d.part.value.bytes| && p !in d.part.value.unsynced ::
               after.part.value.bytes[p] == d.part.value.bytes[p])
    && after.journal in d.revealable
    && after.revealable == {after.journal}
  }

  // ---- the worker ----

  datatype Live = Live(
    journal: Journal,
    finalName: string,
    durable: seq<bv8>,
    dirtyBytes: int,
    lastCheckpoint: int,
    open: bool)

  /** `accepted` records, for each chunk taken, the bytes that were acknowledged. */
  datatype Store = Store(disk: Disk, live: Option<Live>, accepted: map<nat, seq<byte>>)

  /** The states an operation passes through, in order, and its answer. */
  datatype Run<+T> = Run(states: seq<Store>, result: Result<T>)

  function Final<T>(s: Store, run: Run<T>): Store {
    if run.states == [] then s else run.states[|run.states| - 1]
  }

  predicate FitJournal(j: Journal) {
    Laid(j.manifest) && Fits(j.bitmap, j.manifest.totalChunks)
  }

  /** The shapes the code indexes into: a live transfer has its file and bitmaps large enough. */
  predicate WellFormed(s: Store) {
    s.live.Some? ==>
      var l := s.live.value;
      && FitJournal(l.journal)
      && Fits(l.durable, l.journal.manifest.totalChunks)
      && (l.open ==> s.disk.part.Some? && |s.disk.part.value.bytes| >= l.journal.manifest.fileSize)
  }

  predicate SameTransfer(a: Manifest, b: Manifest) {
    && a.transferId == b.transferId && a.fileSize == b.fileSize && a.chunkSize == b.chunkSize
    && a.totalChunks == b.totalChunks && a.sha256 == b.sha256
  }

  /** How the I/O of one `init` goes; `okSteps` counts open and preallocate. */
  datatype InitIo = InitIo(mkdirOk: bool, journalReadable: bool, okSteps: nat, truncates: bool)

  /** Creates or opens the part file, sizes it, and takes the transfer up from journal `j`; its status panics on a bitmap cut short. */
  function OpenSpec(s: Store, j: Journal, p: Manifest, io: InitIo, now: int): Run<()>
    requires p.fileSize >= 0 && p.totalChunks >= 0
  {
    if io.okSteps == 0 then Run([], Err("io_error"))
    else
      var created := s.(disk := CreatePart(s.disk));
      if io.okSteps == 1 then Run([created], Err("io_error"))
      else
        var sized := s.(disk := Preallocate(created.disk, p.fileSize, io.truncates));
        if !Fits(j.bitmap, p.totalChunks) then Run([created, sized], Err("panic"))
        else Run([created, sized, sized.(live := Some(Live(j, p.fileName, j.bitmap, 0, now, true)))], Ok(()))
  }

  function InitSpec(s: Store, p: Manifest, io: InitIo, now: int): (run: Run<()>)
    requires WellFormed(s)
  {
    if Validate(p).Err? then Run([], Err(Validate(p).error))
    else if !io.mkdirOk then Run([], Err("io_error"))
    else if s.live.Some? then Run([], Ok(()))
    else if io.journalReadable && s.disk.journal.Torn? then Run([], Err("invalid_receive_journal"))
    else if io.journalReadable && s.disk.journal.Saved? && !SameTransfer(s.disk.journal.journal.manifest, p) then
      Run([], Err("receive_manifest_mismatch"))
    else
      AcceptedManifestIsLaid(p);
      OpenSpec(s, if io.journalReadable && s.disk.journal.Saved? then s.disk.journal.journal else Journal(p, Blank(p.totalChunks)), p, io, now)
  }

  /** The I/O steps of a checkpoint: sync data, open, write and sync the journal, close and rename it, sync its directory. */
  function CheckpointDisks(d: Disk, j: Journal, syncs: bool): (steps: seq<Disk>)
    ensures |steps| == 6
  {
    var d1 := SyncPart(d);
    var d2 := OpenTmp(d1);
    var d3 := WriteTmp(d2, j);
    var d4 := SyncTmp(d3);
    var d5 := RenameTmp(d4);
    var d6 := SyncDirectory(d5, syncs);
    [d1, d2, d3, d4, d5, d6]
  }

  /** The states of `s` as its disk goes through the first `k` of `disks`. */
  function DiskStates(s: Store, disks: seq<Disk>, k: nat): (states: seq<Store>)
    requires k <= |disks|
    ensures |states| == k
    ensures forall i | 0 <= i < k :: states[i] == s.(disk := disks[i])
  {
    if k == 0 then [] else DiskStates(s, disks, k - 1) + [s.(disk := disks[k - 1])]
  }

  function Committed(l: Live, now: int): Live {
    l.(durable := l.journal.bitmap, dirtyBytes := 0, lastCheckpoint := now)
  }

  /** `okSteps` counts the I/O steps that succeed before one fails. */
  function CheckpointSpec(s: Store, okSteps: nat, syncs: bool, now: int): (run: Run<()>)
    requires WellFormed(s) && s.live.Some?
    ensures Final(s, run).live.Some?
  {
    var l := s.live.value;
    if l.dirtyBytes == 0 && !s.disk.journal.Absent? then Run([], Ok(()))
    else if !l.open then Run([], Err("io_error"))
    else
      var disks := CheckpointDisks(s.disk, l.journal, syncs);
      if okSteps < 6 then
        Run(DiskStates(s, disks, okSteps), Err("io_error"))
      else
        Run(DiskStates(s, disks, 6) + [s.(disk := disks[5], live := Some(Committed(l, now)))], Ok(()))
  }

  datatype WriteAck = WriteAck(duplicate: bool, checkpointed: bool)

  /** How the I/O of one write goes: the bytes that land, and the checkpoint's steps if one is due. */
  datatype WriteIo = WriteIo(landed: nat, okSteps: nat, syncs: bool)

  predicate Due(l: Live, now: int) {
    l.dirtyBytes >= CHECKPOINT_BYTES || now - l.lastCheckpoint >= CHECKPOINT_INTERVAL_MS
  }

  function DueSpec(s: Store, io: WriteIo, now: int): Run<()>
    requires WellFormed(s) && s.live.Some?
  {
    if Due(s.live.value, now) then CheckpointSpec(s, io.okSteps, io.syncs, now) else Run([], Ok(()))
  }

  /** `data` is chunk `index` of the live transfer, and new to it. */
  predicate Acceptable(s: Store, index: nat, data: seq<byte>) {
    && WellFormed(s) && s.live.Some?
    && var l := s.live.value;
    && l.open && index < l.journal.manifest.totalChunks
    && |data| == ChunkLength(l.journal.manifest, index)
    && !BitSet(l.journal.bitmap, index)
  }

  function Stored(s: Store, index: nat, data: seq<byte>): Store
    requires Acceptable(s, index, data)
  {
    ChunkInFile(s.live.value.journal.manifest, index);
    s.(disk := WritePart(s.disk, index * CHUNK_SIZE, data))
  }

  function Marked(s: Store, index: nat, data: seq<byte>): (t: Store)
    requires Acceptable(s, index, data)
    ensures t.live.Some? && WellFormed(t)
  {
    var l := s.live.value;
    var j := l.journal.(bitmap := WithBit(l.journal.bitmap, index));
    Stored(s, index, data).(
    live := Some(l.(journal := j, dirtyBytes := l.dirtyBytes + |data|)),
    accepted := s.accepted[index := data])
  }

  /** A new chunk of the right length: write it, mark it, and checkpoint if one is due. */
  function StoreSpec(s: Store, index: nat, data: seq<byte>, io: WriteIo, now: int): Run<WriteAck>
    requires Acceptable(s, index, data)
  {
    ChunkInFile(s.live.value.journal.manifest, index);
    if io.landed < |data| then
      Run([s.(disk := WritePart(s.disk, index * CHUNK_SIZE, data[..io.landed]))], Err("io_error"))
    else
      var marked := Marked(s, index, data);
      var checkpoint := DueSpec(marked, io, now);
      Run([Stored(s, index, data), marked] + checkpoint.states,
          if checkpoint.result.Ok? then Ok(WriteAck(false, Due(marked.live.value, now))) else Err(checkpoint.result.error))
  }

  function WriteSpec(s: Store, index: int, data: seq<byte>, io: WriteIo, now: int): Run<WriteAck>
    requires WellFormed(s)
  {
    if s.live.None? then Run([], Err("receive_not_initialized"))
    else
      var l := s.live.value;
      var m := l.journal.manifest;
      if index < 0 || index >= m.totalChunks then Run([], Err("chunk_out_of_range"))
      else if |data| != ChunkLength(m, index) then Run([], Err("invalid_chunk_length"))
      else if BitSet(l.journal.bitmap, index) then Run([], Ok(WriteAck(true, true)))
      else if !l.open then Run([], Err("io_error"))
      else StoreSpec(s, index, data, io, now)
  }

  predicate AllReceived(l: Live)
    requires FitJournal(l.journal)
  {
    forall i: nat | i < l.journal.manifest.totalChunks :: BitSet(l.journal.bitmap, i)
  }

  /** How the I/O of one finalize goes: its checkpoint, then read, close, rename, sync of the directory, removal of the journal. */
  datatype FinalizeIo = FinalizeIo(checkpointSteps: nat, okSteps: nat, syncs: bool)

  /** `hash` is the digest in hexadecimal. */
  function FinalizeSpec(s: Store, hash: seq<byte> -> string, io: FinalizeIo, now: int): (Store, Result<string>)
    requires WellFormed(s)
  {
    if s.live.None? then (s, Err("receive_not_initialized"))
    else if !AllReceived(s.live.value) then (s, Err("receive_incomplete"))
    else
      var run := CheckpointSpec(s, io.checkpointSteps, io.syncs, now);
      if run.result.Err? then (Final(s, run), Err(run.result.error)) else Publish(Final(s, run), hash, io.okSteps)
  }

  /** A file that cannot be closed is closed all the same. */
  function Closed(s: Store): Store {
    if s.live.Some? then s.(live := Some(s.live.value.(open := false))) else s
  }

  /** The rest of finalize, once everything is checkpointed. */
  function Publish(s: Store, hash: seq<byte> -> string, okSteps: nat): (Store, Result<string>)
    requires s.live.Some?
  {
    if !s.live.value.open || s.disk.part.None? || okSteps == 0 then (s, Err("io_error"))
    else if hash(s.disk.part.value.bytes) != s.live.value.journal.manifest.sha256 then (s, Err("file_hash_mismatch"))
    else if okSteps == 1 then (Closed(s), Err("io_error"))
    else if s.disk.destination.Some? then (Closed(s), Err("destination_exists"))
    else if okSteps == 2 then (Closed(s), Err("io_error"))
    else if okSteps < 5 then (Closed(s).(disk := Moved(s.disk)), Err("io_error"))
    else (s.(live := None, disk := JournalRemoved(Moved(s.disk))), Ok(s.live.value.finalName))
  }

  function Moved(d: Disk): Disk
    requires d.part.Some?
  {
    d.(part := None, destination := Some(d.part.value.bytes))
  }

  /** The removal is not followed by a sync of the directory. */
  function JournalRemoved(d: Disk): Disk {
    d.(journal := Absent, revealable := d.revealable + {Absent})
  }

  /** Abort: close, then remove the part file, the journal and the temporary journal; `okSteps` counts these four. */
  function AbortSpec(s: Store, okSteps: nat): (Store, Result<()>) {
    if s.live.None? then (s, Err("receive_not_initialized"))
    else if !s.live.value.open || okSteps < 2 then (Closed(s), Err("io_error"))
    else
      var gone := s.disk.(part := None);
      if okSteps == 2 then (Closed(s).(disk := gone), Err("io_error"))
      else if okSteps == 3 then (Closed(s).(disk := JournalRemoved(gone)), Err("io_error"))
      else (s.(live := None, disk := JournalRemoved(gone).(tmp := Absent)), Ok(()))
  }

  lemma CheckpointStaysWellFormed(s: Store, okSteps: nat, syncs: bool, now: int)
    requires WellFormed(s) && s.live.Some?
    ensures WellFormed(Final(s, CheckpointSpec(s, okSteps, syncs, now)))
  {}

  lemma WriteStaysWellFormed(s: Store, index: int, data: seq<byte>, io: WriteIo, now: int)
    requires WellFormed(s)
    ensures WellFormed(Final(s, WriteSpec(s, index, data, io, now)))
  {
    var run := WriteSpec(s, index, data, io, now);
    if |run.states| >= 2 {
      CheckpointStaysWellFormed(run.states[1], io.okSteps, io.syncs, now);
    }
  }

  lemma InitStaysWellFormed(s: Store, p: Manifest, io: InitIo, now: int)
    requires WellFormed(s)
    ensures WellFormed(Final(s, InitSpec(s, p, io, now)))
  {}
}
