/** The receive store as the worker runs it: one transfer's fields, its bitmap updated in place, its I/O step by step. */
module ReceiveStore {
  import opened Wrappers
  import opened Bitmap
  import opened ReceiveLayout
  import opened ReceiveSpec

  datatype Status = Status(receivedChunks: nat, receivedRanges: seq<Range>, durableThrough: int, totalChunks: nat, complete: bool)

  /** An operation that first passes through the states `first`, and goes on from the last of them as `run`. */
  lemma GoesOn<T>(s: Store, before: seq<Store>, first: seq<Store>, run: Run<()>, result: Result<T>)
    requires first != []
    ensures Final(s, Run(first + run.states, result)) == Final(first[|first| - 1], run)
    ensures before + (first + run.states) == before + first + run.states
  {}

  class Transfer {
    var disk: Disk
    var live: bool
    var manifest: Manifest
    var bitmap: array<bv8>
    var finalName: string
    var durableBitmap: seq<bv8>
    var dirtyBytes: int
    var lastCheckpoint: int
    var open: bool
    ghost var accepted: map<nat, seq<byte>>
    /** Every state the store has passed through, a disk step at a time. */
    ghost var history: seq<Store>

    function LiveView(): Live
      reads `manifest, `bitmap, `finalName, `durableBitmap, `dirtyBytes, `lastCheckpoint, `open, bitmap
    {
      Live(Journal(manifest, bitmap[..]), finalName, durableBitmap, dirtyBytes, lastCheckpoint, open)
    }

    ghost function View(): Store
      reads `disk, `live, `manifest, `bitmap, `finalName, `durableBitmap, `dirtyBytes, `lastCheckpoint, `open, `accepted, bitmap
    {
      Store(disk, if live then Some(LiveView()) else None, accepted)
    }

    ghost predicate Valid()
      reads `disk, `live, `manifest, `bitmap, `finalName, `durableBitmap, `dirtyBytes, `lastCheckpoint, `open, `accepted, bitmap
    {
      WellFormed(View())
    }

    constructor (disk: Disk)
      ensures Valid() && fresh(bitmap)
      ensures View() == Store(disk, None, map[]) && history == []
    {
      this.disk, live := disk, false;
      manifest := Manifest("", "", 0, 0, 0, "");
      bitmap := new bv8[0];
      finalName, durableBitmap, dirtyBytes, lastCheckpoint, open := "", [], 0, 0, false;
      accepted, history := map[], [];
    }

    ghost method Record()
      modifies this`history
      ensures history == old(history) + [View()]
    {
      history := history + [View()];
    }

    method Init(p: Manifest, io: InitIo, now: int) returns (r: Result<()>)
      requires Valid()
      modifies this
      ensures Valid() && (bitmap == old(bitmap) || fresh(bitmap))
      ensures var run := InitSpec(old(View()), p, io, now);
              r == run.result && View() == Final(old(View()), run) && history == old(history) + run.states
    {
      InitStaysWellFormed(View(), p, io, now);
      var valid := Validate(p);
      if valid.Err? { return Err(valid.error); }
      if !io.mkdirOk { return Err("io_error"); }
      if live { return Ok(()); }
      AcceptedManifestIsLaid(p);
      var j := Journal(p, Blank(p.totalChunks));
      if io.journalReadable && !disk.journal.Absent? {
        if disk.journal.Torn? { return Err("invalid_receive_journal"); }
        j := disk.journal.journal;
        if !SameTransfer(j.manifest, p) { return Err("receive_manifest_mismatch"); }
      }
      r := OpenPart(j, p, io, now);
    }

    method OpenPart(j: Journal, p: Manifest, io: InitIo, now: int) returns (r: Result<()>)
      requires !live && p.fileSize >= 0 && p.totalChunks >= 0
      modifies this
      ensures bitmap == old(bitmap) || fresh(bitmap)
      ensures var run := OpenSpec(old(View()), j, p, io, now);
              r == run.result && View() == Final(old(View()), run) && history == old(history) + run.states
    {
      if io.okSteps == 0 { return Err("io_error"); }
      disk := CreatePart(disk);
      Record();
      if io.okSteps == 1 { return Err("io_error"); }
      disk := Preallocate(disk, p.fileSize, io.truncates);
      Record();
      if |j.bitmap| < (p.totalChunks + 7) / 8 { return Err("panic"); }
      Start(j, p.fileName, now);
      return Ok(());
    }

    method Start(j: Journal, name: string, now: int)
      modifies this
      ensures disk == old(disk) && accepted == old(accepted) && live && fresh(bitmap)
      ensures LiveView() == Live(j, name, j.bitmap, 0, now, true)
      ensures history == old(history) + [View()]
    {
      bitmap := new bv8[|j.bitmap|](i requires 0 <= i < |j.bitmap| => j.bitmap[i]);
      assert bitmap[..] == j.bitmap;
      live, manifest, finalName, durableBitmap := true, j.manifest, name, j.bitmap;
      dirtyBytes, lastCheckpoint, open := 0, now, true;
      Record();
    }

    /** One step of I/O, recorded: the disk becomes `next`, the `k`th of `disks`. */
    method Step(next: Disk, ghost s: Store, ghost disks: seq<Disk>, ghost k: nat, ghost before: seq<Store>)
      requires k < |disks| && next == disks[k]
      requires View().(disk := next) == s.(disk := next)
      requires history == before + DiskStates(s, disks, k)
      modifies `disk, `history
      ensures disk == next && history == before + DiskStates(s, disks, k + 1)
    {
      disk := next;
      Record();
    }

    /** Durable boundary: file data first, journal second; true only if every step succeeded. */
    method SaveJournal(okSteps: nat, syncs: bool) returns (ok: bool)
      requires Valid() && live && open
      modifies `disk, `history
      ensures ok <==> okSteps >= 6
      ensures var disks := CheckpointDisks(old(disk), LiveView().journal, syncs);
              var k := if ok then 6 else okSteps;
              && disk == (if k == 0 then old(disk) else disks[k - 1])
              && history == old(history) + DiskStates(old(View()), disks, k)
    {
      ghost var s, before := View(), history;
      var journal := Journal(manifest, bitmap[..]);
      ghost var disks := CheckpointDisks(disk, journal, syncs);
      if okSteps == 0 { return false; }
      Step(SyncPart(disk), s, disks, 0, before);
      if okSteps == 1 { return false; }
      Step(OpenTmp(disk), s, disks, 1, before);
      if okSteps == 2 { return false; }
      Step(WriteTmp(disk, journal), s, disks, 2, before);
      if okSteps == 3 { return false; }
      Step(SyncTmp(disk), s, disks, 3, before);
      if okSteps == 4 { return false; }
      Step(RenameTmp(disk), s, disks, 4, before);
      if okSteps == 5 { return false; }
      Step(SyncDirectory(disk, syncs), s, disks, 5, before);
      return true;
    }

    method CheckpointLocked(okSteps: nat, syncs: bool, now: int) returns (r: Result<()>)
      requires Valid() && live
      modifies `disk, `durableBitmap, `dirtyBytes, `lastCheckpoint, `history
      ensures Valid()
      ensures var run := CheckpointSpec(old(View()), okSteps, syncs, now);
              r == run.result && View() == Final(old(View()), run) && history == old(history) + run.states
    {
      CheckpointStaysWellFormed(View(), okSteps, syncs, now);
      if dirtyBytes == 0 && !disk.journal.Absent? { return Ok(()); }
      if !open { return Err("io_error"); }
      var saved := SaveJournal(okSteps, syncs);
      if !saved { return Err("io_error"); }
      Commit(now);
      return Ok(());
    }

    method Commit(now: int)
      requires live
      modifies `durableBitmap, `dirtyBytes, `lastCheckpoint, `history
      ensures View() == old(View()).(live := Some(Committed(old(LiveView()), now)))
      ensures history == old(history) + [View()]
    {
      durableBitmap := bitmap[..];
      dirtyBytes := 0;
      lastCheckpoint := now;
      Record();
    }

    method WriteBinary(index: int, data: seq<byte>, io: WriteIo, now: int) returns (r: Result<WriteAck>)
      requires Valid()
      modifies `disk, `durableBitmap, `dirtyBytes, `lastCheckpoint, `accepted, `history, bitmap
      ensures Valid()
      ensures var run := WriteSpec(old(View()), index, data, io, now);
              r == run.result && View() == Final(old(View()), run) && history == old(history) + run.states
    {
      WriteStaysWellFormed(View(), index, data, io, now);
      if !live { return Err("receive_not_initialized"); }
      if index < 0 || index >= manifest.totalChunks { return Err("chunk_out_of_range"); }
      var expected := manifest.chunkSize;
      var remaining := manifest.fileSize - index * manifest.chunkSize;
      if remaining < expected {
        expected := remaining;
      }
      if |data| != expected { return Err("invalid_chunk_length"); }
      if BitSet(bitmap[..], index) { return Ok(WriteAck(true, true)); }
      if !open { return Err("io_error"); }
      r := StoreChunk(index, data, io, now);
    }

    method StoreChunk(index: nat, data: seq<byte>, io: WriteIo, now: int) returns (r: Result<WriteAck>)
      requires Acceptable(View(), index, data)
      modifies `disk, `durableBitmap, `dirtyBytes, `lastCheckpoint, `accepted, `history, bitmap
      ensures var run := StoreSpec(old(View()), index, data, io, now);
              r == run.result && View() == Final(old(View()), run) && history == old(history) + run.states
    {
      ChunkInFile(manifest, index);
      if io.landed < |data| {
        disk := WritePart(disk, index * CHUNK_SIZE, data[..io.landed]);
        Record();
        return Err("io_error");
      }
      ghost var s, before := View(), history;
      Accept(index, data);
      ghost var marked := View();
      var due, checkpoint := CheckpointIfDue(io, now);
      GoesOn(s, before, [Stored(s, index, data), marked], DueSpec(marked, io, now), StoreSpec(s, index, data, io, now).result);
      if checkpoint.Err? { return Err(checkpoint.error); }
      return Ok(WriteAck(false, due));
    }

    method CheckpointIfDue(io: WriteIo, now: int) returns (due: bool, r: Result<()>)
      requires Valid() && live
      modifies `disk, `durableBitmap, `dirtyBytes, `lastCheckpoint, `history
      ensures due == Due(old(LiveView()), now)
      ensures var run := DueSpec(old(View()), io, now);
              r == run.result && View() == Final(old(View()), run) && history == old(history) + run.states
    {
      due := dirtyBytes >= CHECKPOINT_BYTES || now - lastCheckpoint >= CHECKPOINT_INTERVAL_MS;
      if !due { return due, Ok(()); }
      r := CheckpointLocked(io.okSteps, io.syncs, now);
    }

    /** The chunk goes to its place in the file, then its bit is set. */
    method Accept(index: nat, data: seq<byte>)
      requires Acceptable(View(), index, data)
      modifies `disk, `dirtyBytes, `accepted, `history, bitmap
      ensures View() == Marked(old(View()), index, data)
      ensures history == old(history) + [Stored(old(View()), index, data), Marked(old(View()), index, data)]
    {
      ChunkInFile(manifest, index);
      disk := WritePart(disk, index * CHUNK_SIZE, data);
      Record();
      SetBit(bitmap, index);
      dirtyBytes := dirtyBytes + |data|;
      accepted := accepted[index := data];
      Record();
    }

    method GetStatus() returns (status: Status)
      requires Valid() && live
      ensures var total := manifest.totalChunks;
              && status.totalChunks == total
              && status.receivedChunks == |Bits(bitmap[..], total)|
              && Reports(status.receivedRanges, bitmap[..], total)
              && (status.complete <==> forall i: nat | i < total :: BitSet(bitmap[..], i))
              && -1 <= status.durableThrough < total
              && (forall i: nat | i <= status.durableThrough :: BitSet(durableBitmap, i))
              && (status.durableThrough + 1 < total ==> !BitSet(durableBitmap, status.durableThrough + 1))
    {
      var bits, durable, total := bitmap[..], durableBitmap, manifest.totalChunks;
      var received := 0;
      for i := 0 to total
        invariant received == Count(bits, i)
      {
        if BitSet(bits, i) {
          received := received + 1;
        }
      }
      CountIsCardinality(bits, total);
      CountBound(bits, total);
      var durableThrough := -1;
      var i := 0;
      while i < total && BitSet(durable, i)
        invariant 0 <= i <= total && durableThrough == i - 1
        invariant forall k: nat | k < i :: BitSet(durable, k)
      {
        durableThrough := i;
        i := i + 1;
      }
      var ranges := BitmapRanges(bits, total);
      return Status(received, ranges, durableThrough, total, received == total);
    }

    method Checkpoint(okSteps: nat, syncs: bool, now: int) returns (r: Result<Status>)
      requires Valid()
      modifies `disk, `durableBitmap, `dirtyBytes, `lastCheckpoint, `history
      ensures Valid()
      ensures !live ==> r == Err("receive_not_initialized") && View() == old(View()) && history == old(history)
      ensures live ==>
                var run := CheckpointSpec(old(View()), okSteps, syncs, now);
                && (if run.result.Ok? then r.Ok? else r == Err(run.result.error))
                && View() == Final(old(View()), run) && history == old(history) + run.states
      ensures r.Ok? ==> Reports(r.value.receivedRanges, bitmap[..], manifest.totalChunks)
    {
      if !live { return Err("receive_not_initialized"); }
      var checkpoint := CheckpointLocked(okSteps, syncs, now);
      if checkpoint.Err? { return Err(checkpoint.error); }
      var status := GetStatus();
      return Ok(status);
    }

    method Finalize(hash: seq<byte> -> string, io: FinalizeIo, now: int) returns (r: Result<string>)
      requires Valid()
      modifies `disk, `live, `durableBitmap, `dirtyBytes, `lastCheckpoint, `open, `history
      ensures Valid()
      ensures (View(), r) == FinalizeSpec(old(View()), hash, io, now)
    {
      if !live { return Err("receive_not_initialized"); }
      for i := 0 to manifest.totalChunks
        invariant forall k: nat | k < i :: BitSet(bitmap[..], k)
      {
        if !BitSet(bitmap[..], i) { return Err("receive_incomplete"); }
      }
      assert AllReceived(LiveView());
      var checkpoint := CheckpointLocked(io.checkpointSteps, io.syncs, now);
      if checkpoint.Err? { return Err(checkpoint.error); }
      r := PublishFile(hash, io.okSteps);
    }

    method PublishFile(hash: seq<byte> -> string, okSteps: nat) returns (r: Result<string>)
      requires Valid() && live
      modifies `disk, `live, `open
      ensures Valid()
      ensures (View(), r) == Publish(old(View()), hash, okSteps)
    {
      if !open || disk.part.None? || okSteps == 0 { return Err("io_error"); }
      var bytes := disk.part.value.bytes;
      if hash(bytes) != manifest.sha256 { return Err("file_hash_mismatch"); }
      open := false;
      if okSteps == 1 { return Err("io_error"); }
      if disk.destination.Some? { return Err("destination_exists"); }
      if okSteps == 2 { return Err("io_error"); }
      disk := disk.(part := None, destination := Some(bytes));
      if okSteps < 5 { return Err("io_error"); }
      disk := disk.(journal := Absent, revealable := disk.revealable + {Absent});
      live := false;
      return Ok(finalName);
    }

    method Abort(okSteps: nat) returns (r: Result<()>)
      requires Valid()
      modifies `disk, `live, `open
      ensures Valid()
      ensures (View(), r) == AbortSpec(old(View()), okSteps)
    {
      if !live { return Err("receive_not_initialized"); }
      if !open { return Err("io_error"); }
      open := false;
      if okSteps < 2 { return Err("io_error"); }
      disk := disk.(part := None);
      if okSteps == 2 { return Err("io_error"); }
      disk := disk.(journal := Absent, revealable := disk.revealable + {Absent});
      if okSteps == 3 { return Err("io_error"); }
      disk := disk.(tmp := Absent);
      live := false;
      return Ok(());
    }
  }
}
