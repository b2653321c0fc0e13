/** What survives a kill and a power loss: the invariant of every state of every operation. */
module ReceiveSafety {
  import opened Wrappers
  import opened Bitmap
  import opened ReceiveLayout
  import opened ReceiveSpec

  // ---- the invariant ----

  /** The part file holds, in slot `i`, the bytes that were accepted for chunk `i`. */
  ghost predicate Holds(part: Option<PartFile>, m: Manifest, i: nat, accepted: map<nat, seq<byte>>)
    requires Laid(m) && i < m.totalChunks
  {
    && part.Some? && |part.value.bytes| >= m.fileSize
    && i in accepted && Slot(part.value.bytes, m, i) == accepted[i]
  }

  ghost predicate SlotSynced(part: Option<PartFile>, m: Manifest, i: nat) {
    part.Some? && forall p: nat | i * CHUNK_SIZE <= p < i * CHUNK_SIZE + ChunkLength(m, i) :: p !in part.value.unsynced
  }

  /** Restarting from `image` is safe: each chunk it reports is in the file, beyond the reach of a power loss. */
  ghost predicate ImageSafe(image: Image, part: Option<PartFile>, accepted: map<nat, seq<byte>>) {
    && !image.Torn?
    && (image.Saved? ==>
          && FitJournal(image.journal)
          && part.Some? && |part.value.bytes| >= image.journal.manifest.fileSize
          && forall i: nat | i < image.journal.manifest.totalChunks && BitSet(image.journal.bitmap, i) ::
               Holds(part, image.journal.manifest, i, accepted) && SlotSynced(part, image.journal.manifest, i))
  }

  /** A restart from `image` would report chunk `i`. */
  predicate ReportsChunk(image: Image, i: nat) {
    && image.Saved? && FitJournal(image.journal)
    && i < image.journal.manifest.totalChunks && BitSet(image.journal.bitmap, i)
  }

  /** Every chunk `image` reports is one of the same transfer's journal `j`. */
  ghost predicate Below(image: Image, j: Journal)
    requires FitJournal(j)
  {
    image.Saved? ==>
      && FitJournal(image.journal) && SameTransfer(image.journal.manifest, j.manifest)
      && forall i: nat | ReportsChunk(image, i) :: BitSet(j.bitmap, i)
  }

  /** No image reports more than the one now at the journal path. */
  ghost predicate BelowTop(image: Image, top: Image) {
    if top.Saved? then FitJournal(top.journal) && Below(image, top.journal) else image.Absent?
  }

  predicate IsDirty(bitmap: seq<bv8>, durable: seq<bv8>, i: nat)
    requires i / 8 < |bitmap| && i / 8 < |durable|
  {
    BitSet(bitmap, i) && !BitSet(durable, i)
  }

  function DirtyAt(m: Manifest, bitmap: seq<bv8>, durable: seq<bv8>, i: nat): int
    requires i / 8 < |bitmap| && i / 8 < |durable|
  {
    if IsDirty(bitmap, durable, i) then ChunkLength(m, i) else 0
  }

  /** The bytes received and not yet in a durable journal. */
  function Dirty(m: Manifest, bitmap: seq<bv8>, durable: seq<bv8>, upTo: nat): int
    requires Laid(m) && Fits(bitmap, m.totalChunks) && Fits(durable, m.totalChunks) && upTo <= m.totalChunks
  {
    if upTo == 0 then 0
    else Dirty(m, bitmap, durable, upTo - 1) + DirtyAt(m, bitmap, durable, upTo - 1)
  }

  ghost predicate LiveSafe(l: Live, disk: Disk, accepted: map<nat, seq<byte>>)
    requires FitJournal(l.journal) && Fits(l.durable, l.journal.manifest.totalChunks)
  {
    var m := l.journal.manifest;
    && l.open
    && (forall i: nat | i < m.totalChunks && BitSet(l.journal.bitmap, i) :: Holds(disk.part, m, i, accepted))
    && (forall i: nat | i < m.totalChunks && BitSet(l.durable, i) :: ReportsChunk(disk.journal, i))
    && l.dirtyBytes == Dirty(m, l.journal.bitmap, l.durable, m.totalChunks)
  }

  ghost predicate Inv(s: Store) {
    && WellFormed(s)
    && s.disk.journal in s.disk.revealable
    && (forall image | image in s.disk.revealable ::
          ImageSafe(image, s.disk.part, s.accepted) && BelowTop(image, s.disk.journal))
    && (s.live.Some? ==>
          && LiveSafe(s.live.value, s.disk, s.accepted)
          && forall image | image in s.disk.revealable :: Below(image, s.live.value.journal))
  }

  lemma DurableIsReceived(s: Store, i: nat)
    requires Inv(s) && s.live.Some? && i < s.live.value.journal.manifest.totalChunks
    ensures BitSet(s.live.value.durable, i) ==> BitSet(s.live.value.journal.bitmap, i)
  {
    assert Below(s.disk.journal, s.live.value.journal);
    assert BitSet(s.live.value.durable, i) ==> ReportsChunk(s.disk.journal, i);
  }

  // ---- one disk step at a time ----

  lemma SyncPartKeeps(s: Store)
    requires Inv(s) && s.live.Some?
    ensures Inv(s.(disk := SyncPart(s.disk)))
  {
    var t := s.(disk := SyncPart(s.disk));
    forall image | image in t.disk.revealable
      ensures ImageSafe(image, t.disk.part, t.accepted)
    {
      assert ImageSafe(image, s.disk.part, s.accepted);
    }
    assert LiveSafe(t.live.value, t.disk, t.accepted);
  }

  lemma TmpStepKeeps(s: Store, tmp: Image, synced: bool)
    requires Inv(s)
    ensures Inv(s.(disk := s.disk.(tmp := tmp, tmpSynced := synced)))
  {}

  /** Renaming is safe because the data was synced first: every chunk of the new journal is beyond loss. */
  lemma RenameKeeps(s: Store)
    requires Inv(s) && s.live.Some?
    requires s.disk.part.Some? && s.disk.part.value.unsynced == {}
    requires s.disk.tmp == Saved(s.live.value.journal) && s.disk.tmpSynced
    ensures Inv(s.(disk := RenameTmp(s.disk)))
  {
    var t := s.(disk := RenameTmp(s.disk));
    var saved := Saved(s.live.value.journal);
    assert t.disk.revealable == s.disk.revealable + {saved};
    assert ImageSafe(saved, t.disk.part, t.accepted);
    forall i: nat | i < s.live.value.journal.manifest.totalChunks && BitSet(s.live.value.durable, i)
      ensures ReportsChunk(saved, i)
    {
      assert ReportsChunk(s.disk.journal, i) && Below(s.disk.journal, s.live.value.journal);
    }
    assert LiveSafe(s.live.value, t.disk, t.accepted);
  }

  lemma SyncDirectoryKeeps(s: Store, syncs: bool)
    requires Inv(s)
    ensures Inv(s.(disk := SyncDirectory(s.disk, syncs)))
  {}

  lemma {:induction false} NothingDirty(m: Manifest, bitmap: seq<bv8>, upTo: nat)
    requires Laid(m) && Fits(bitmap, m.totalChunks) && upTo <= m.totalChunks
    ensures Dirty(m, bitmap, bitmap, upTo) == 0
  {
    if upTo > 0 { NothingDirty(m, bitmap, upTo - 1); }
  }

  lemma CommitKeeps(s: Store, now: int)
    requires Inv(s) && s.live.Some?
    requires s.disk.journal == Saved(s.live.value.journal)
    ensures Inv(s.(live := Some(Committed(s.live.value, now))))
  {
    var j := s.live.value.journal;
    NothingDirty(j.manifest, j.bitmap, j.manifest.totalChunks);
  }

  lemma CheckpointDisksKeep(s: Store, syncs: bool)
    requires Inv(s) && s.live.Some?
    ensures forall k | 0 <= k < 6 :: Inv(s.(disk := CheckpointDisks(s.disk, s.live.value.journal, syncs)[k]))
    ensures CheckpointDisks(s.disk, s.live.value.journal, syncs)[5].journal == Saved(s.live.value.journal)
  {
    var d := CheckpointDisks(s.disk, s.live.value.journal, syncs);
    SyncPartKeeps(s);
    var s1 := s.(disk := d[0]);
    TmpStepKeeps(s1, Torn, false);
    TmpStepKeeps(s1, Saved(s.live.value.journal), false);
    TmpStepKeeps(s1, Saved(s.live.value.journal), true);
    RenameKeeps(s.(disk := d[3]));
    SyncDirectoryKeeps(s.(disk := d[4]), syncs);
  }

  ghost predicate AllInv(states: seq<Store>) {
    forall k | 0 <= k < |states| :: Inv(states[k])
  }

  lemma CheckpointKeeps(s: Store, okSteps: nat, syncs: bool, now: int)
    requires Inv(s) && s.live.Some?
    ensures AllInv(CheckpointSpec(s, okSteps, syncs, now).states)
  {
    CheckpointDisksKeep(s, syncs);
    if okSteps >= 6 {
      CommitKeeps(s.(disk := CheckpointDisks(s.disk, s.live.value.journal, syncs)[5]), now);
    }
  }

  lemma OtherSlotUntouched(d: Disk, m: Manifest, i: nat, data: seq<byte>, j: nat, accepted: map<nat, seq<byte>>)
    requires Laid(m) && i < m.totalChunks && j < m.totalChunks && i != j
    requires d.part.Some? && |data| <= ChunkLength(m, i) && i * CHUNK_SIZE + |data| <= |d.part.value.bytes|
    requires Holds(d.part, m, j, accepted)
    ensures Holds(WritePart(d, i * CHUNK_SIZE, data).part, m, j, accepted)
    ensures SlotSynced(d.part, m, j) ==> SlotSynced(WritePart(d, i * CHUNK_SIZE, data).part, m, j)
  {
    OverwriteKeepsOtherSlots(d.part.value.bytes, m, i, data, j);
    ChunkInFile(m, j);
  }

  lemma ImageUntouched(d: Disk, l: Live, accepted: map<nat, seq<byte>>, i: nat, data: seq<byte>, image: Image)
    requires FitJournal(l.journal) && i < l.journal.manifest.totalChunks
    requires !BitSet(l.journal.bitmap, i) && |data| <= ChunkLength(l.journal.manifest, i)
    requires d.part.Some? && i * CHUNK_SIZE + |data| <= |d.part.value.bytes|
    requires ImageSafe(image, d.part, accepted) && Below(image, l.journal)
    ensures ImageSafe(image, WritePart(d, i * CHUNK_SIZE, data).part, accepted)
  {
    if image.Saved? {
      var n := image.journal.manifest;
      var part := WritePart(d, i * CHUNK_SIZE, data).part;
      forall j: nat | j < n.totalChunks && BitSet(image.journal.bitmap, j)
        ensures Holds(part, n, j, accepted) && SlotSynced(part, n, j)
      {
        assert ReportsChunk(image, j);
        OtherSlotUntouched(d, n, i, data, j, accepted);
      }
    }
  }

  /** Writing into the slot of a chunk not yet received cannot touch anything a restart relies on. */
  lemma WritePartKeeps(s: Store, i: nat, data: seq<byte>)
    requires Inv(s) && s.live.Some? && i < s.live.value.journal.manifest.totalChunks
    requires !BitSet(s.live.value.journal.bitmap, i)
    requires |data| <= ChunkLength(s.live.value.journal.manifest, i)
    requires s.disk.part.Some? && i * CHUNK_SIZE + |data| <= |s.disk.part.value.bytes|
    ensures Inv(s.(disk := WritePart(s.disk, i * CHUNK_SIZE, data)))
  {
    var t := s.(disk := WritePart(s.disk, i * CHUNK_SIZE, data));
    var m := s.live.value.journal.manifest;
    forall image | image in t.disk.revealable ensures ImageSafe(image, t.disk.part, t.accepted) {
      ImageUntouched(s.disk, s.live.value, s.accepted, i, data, image);
    }
    forall j: nat | j < m.totalChunks && BitSet(s.live.value.journal.bitmap, j) ensures Holds(t.disk.part, m, j, t.accepted) {
      OtherSlotUntouched(s.disk, m, i, data, j, s.accepted);
    }
  }

  /** `marked` is `bitmap` with one more chunk, not durable: just that chunk's bytes are dirty besides. */
  lemma {:induction false} DirtyOneMore(m: Manifest, bitmap: seq<bv8>, marked: seq<bv8>, durable: seq<bv8>, i: nat, upTo: nat)
    requires Laid(m) && Fits(bitmap, m.totalChunks) && Fits(marked, m.totalChunks) && Fits(durable, m.totalChunks)
    requires i < m.totalChunks && upTo <= m.totalChunks
    requires forall j: nat | j < m.totalChunks ::
               DirtyAt(m, marked, durable, j) == DirtyAt(m, bitmap, durable, j) + if j == i then ChunkLength(m, i) else 0
    ensures Dirty(m, marked, durable, upTo)
         == Dirty(m, bitmap, durable, upTo) + if i < upTo then ChunkLength(m, i) else 0
  {
    if upTo > 0 { DirtyOneMore(m, bitmap, marked, durable, i, upTo - 1); }
  }

  lemma DirtyWithBit(m: Manifest, bitmap: seq<bv8>, durable: seq<bv8>, i: nat)
    requires Laid(m) && Fits(bitmap, m.totalChunks) && Fits(durable, m.totalChunks) && i < m.totalChunks
    requires !BitSet(bitmap, i) && !BitSet(durable, i)
    ensures Dirty(m, WithBit(bitmap, i), durable, m.totalChunks) == Dirty(m, bitmap, durable, m.totalChunks) + ChunkLength(m, i)
  {
    var marked := WithBit(bitmap, i);
    forall j: nat | j < m.totalChunks
      ensures DirtyAt(m, marked, durable, j) == DirtyAt(m, bitmap, durable, j) + if j == i then ChunkLength(m, i) else 0
    {
      WithBitSetsOneBit(bitmap, i, j);
    }
    DirtyOneMore(m, bitmap, marked, durable, i, m.totalChunks);
  }

  /** Marking a chunk whose slot has been written; nothing durable is claimed for it. */
  lemma MarkKeeps(s: Store, i: nat, data: seq<byte>)
    requires Inv(s) && s.live.Some? && i < s.live.value.journal.manifest.totalChunks
    requires !BitSet(s.live.value.journal.bitmap, i)
    requires s.disk.part.Some? && |s.disk.part.value.bytes| >= s.live.value.journal.manifest.fileSize
    requires Slot(s.disk.part.value.bytes, s.live.value.journal.manifest, i) == data
    ensures var l := s.live.value;
            var l' := l.(journal := l.journal.(bitmap := WithBit(l.journal.bitmap, i)), dirtyBytes := l.dirtyBytes + |data|);
            Inv(s.(live := Some(l'), accepted := s.accepted[i := data]))
  {
    var l := s.live.value;
    var m := l.journal.manifest;
    var l' := l.(journal := l.journal.(bitmap := WithBit(l.journal.bitmap, i)), dirtyBytes := l.dirtyBytes + |data|);
    var t := s.(live := Some(l'), accepted := s.accepted[i := data]);
    forall j: nat | j < m.totalChunks
      ensures BitSet(l'.journal.bitmap, j) <==> j == i || BitSet(l.journal.bitmap, j)
    {
      WithBitSetsOneBit(l.journal.bitmap, i, j);
    }
    DurableIsReceived(s, i);
    DirtyWithBit(m, l.journal.bitmap, l.durable, i);
    forall image | image in t.disk.revealable
      ensures ImageSafe(image, t.disk.part, t.accepted) && Below(image, l'.journal)
    {
      assert ImageSafe(image, s.disk.part, s.accepted) && Below(image, l.journal);
      forall j: nat | ReportsChunk(image, j) ensures BitSet(l'.journal.bitmap, j) {
        assert BitSet(l.journal.bitmap, j);
      }
    }
    assert LiveSafe(l', t.disk, t.accepted);
  }

  lemma StoreKeeps(s: Store, index: nat, data: seq<byte>)
    requires Inv(s) && Acceptable(s, index, data)
    ensures Inv(Stored(s, index, data)) && Inv(Marked(s, index, data))
  {
    var m := s.live.value.journal.manifest;
    ChunkInFile(m, index);
    WritePartKeeps(s, index, data);
    OverwriteFillsSlot(s.disk.part.value.bytes, m, index, data);
    MarkKeeps(Stored(s, index, data), index, data);
  }

  lemma WriteKeeps(s: Store, index: int, data: seq<byte>, io: WriteIo, now: int)
    requires Inv(s)
    ensures AllInv(WriteSpec(s, index, data, io, now).states)
  {
    var run := WriteSpec(s, index, data, io, now);
    if run.states != [] {
      ChunkInFile(s.live.value.journal.manifest, index);
      if io.landed < |data| {
        WritePartKeeps(s, index, data[..io.landed]);
      } else {
        StoreKeeps(s, index, data);
        DueKeeps(Marked(s, index, data), io, now);
      }
    }
  }

  lemma DueKeeps(s: Store, io: WriteIo, now: int)
    requires Inv(s) && s.live.Some?
    ensures AllInv(DueSpec(s, io, now).states)
  {
    if Due(s.live.value, now) { CheckpointKeeps(s, io.okSteps, io.syncs, now); }
  }

  /** Sizing the part file for the transfer an image describes keeps what the image promises. */
  lemma SizeKeepsImage(d: Disk, image: Image, size: nat, truncates: bool, accepted: map<nat, seq<byte>>)
    requires d.part.Some? && ImageSafe(image, d.part, accepted)
    requires image.Saved? ==> image.journal.manifest.fileSize == size
    ensures ImageSafe(image, Preallocate(d, size, truncates).part, accepted)
  {
    if image.Saved? {
      var m := image.journal.manifest;
      var part := Preallocate(d, size, truncates).part;
      forall i: nat | i < m.totalChunks && BitSet(image.journal.bitmap, i)
        ensures Holds(part, m, i, accepted) && SlotSynced(part, m, i)
      {
        assert Holds(d.part, m, i, accepted);
        ChunkInFile(m, i);
        assert Slot(part.value.bytes, m, i) == Slot(d.part.value.bytes, m, i);
      }
    }
  }

  lemma SizeKeeps(s: Store, size: nat, truncates: bool)
    requires Inv(s) && s.live.None? && s.disk.part.Some?
    requires s.disk.journal.Saved? ==> s.disk.journal.journal.manifest.fileSize == size
    ensures Inv(s.(disk := Preallocate(s.disk, size, truncates)))
  {
    forall image | image in s.disk.revealable
      ensures ImageSafe(image, Preallocate(s.disk, size, truncates).part, s.accepted)
    {
      assert ImageSafe(image, s.disk.part, s.accepted) && BelowTop(image, s.disk.journal);
      SizeKeepsImage(s.disk, image, size, truncates, s.accepted);
    }
  }

  lemma InitKeeps(s: Store, p: Manifest, io: InitIo, now: int)
    requires Inv(s) && io.journalReadable
    ensures AllInv(InitSpec(s, p, io, now).states)
  {
    var run := InitSpec(s, p, io, now);
    if run.states != [] {
      AcceptedManifestIsLaid(p);
      var created := s.(disk := CreatePart(s.disk));
      assert ImageSafe(s.disk.journal, s.disk.part, s.accepted);
      assert Inv(created);
      if io.okSteps > 1 {
        SizeKeeps(created, p.fileSize, io.truncates);
        StartKeeps(run.states[1], run.states[2].live.value);
      }
    }
  }

  /** Starting from the journal at its path, or from a blank one if there is none. */
  lemma StartKeeps(s: Store, l: Live)
    requires Inv(s) && s.live.None? && s.disk.part.Some?
    requires FitJournal(l.journal) && |s.disk.part.value.bytes| >= l.journal.manifest.fileSize
    requires l.open && l.durable == l.journal.bitmap && l.dirtyBytes == 0
    requires if s.disk.journal.Saved? then l.journal == s.disk.journal.journal
             else l.journal.bitmap == Blank(l.journal.manifest.totalChunks)
    ensures Inv(s.(live := Some(l)))
  {
    var m := l.journal.manifest;
    NothingDirty(m, l.journal.bitmap, m.totalChunks);
    BlankHasNoBits(m.totalChunks);
    assert ImageSafe(s.disk.journal, s.disk.part, s.accepted);
    forall image | image in s.disk.revealable ensures Below(image, l.journal) {
      assert ImageSafe(image, s.disk.part, s.accepted) && BelowTop(image, s.disk.journal);
    }
    assert LiveSafe(l, s.disk, s.accepted);
  }

  lemma BlankHasNoBits(total: nat)
    ensures forall i: nat | i < total :: !BitSet(Blank(total), i)
  {
    forall i: nat | i < total ensures !BitSet(Blank(total), i) {
      assert i !in Bits(Blank(total), total);
    }
  }
}
