/** What the receive store answers, and that a transfer whose I/O works gets through. */
module ReceiveProgress {
  import opened Wrappers
  import opened Bitmap
  import opened ReceiveLayout
  import opened ReceiveSpec
  import opened ReceiveSafety
  import opened ReceiveRuns
  import opened ReceiveTransfer

  // ---- the answers ----

  /** A manifest is accepted exactly in these bounds: 1 byte to 500 MiB, in chunks of 1 MiB, with a full digest in either case. */
  lemma AcceptedIff(m: Manifest)
    ensures Validate(m).Ok? <==>
              && 1 <= m.fileSize <= 524_288_000 && m.chunkSize == 1_048_576
              && (m.totalChunks - 1) * 1_048_576 < m.fileSize <= m.totalChunks * 1_048_576
              && |m.sha256| == 64 && (forall i | 0 <= i < 64 :: IsHex(m.sha256[i]))
              && ValidTransferId(m.transferId) && ValidFileName(m.fileName)
  {
    assert |m.sha256| == 64 ==> ((forall c | c in m.sha256 :: IsHex(c)) <==> forall i | 0 <= i < 64 :: IsHex(m.sha256[i]));
  }

  /** A journal on disk that is for another transfer than `p`. */
  predicate OfAnother(image: Image, p: Manifest) {
    image.Saved?
    && var m := image.journal.manifest;
       !(&& m.transferId == p.transferId && m.fileSize == p.fileSize && m.chunkSize == p.chunkSize
         && m.totalChunks == p.totalChunks && m.sha256 == p.sha256)
  }

  /** What an init answers: the manifest, the directory, a live transfer, the journal, and the part file, in that order. */
  lemma InitAnswers(s: Store, p: Manifest, io: InitIo, now: int)
    requires WellFormed(s)
    ensures var r := InitSpec(s, p, io, now).result;
            if Validate(p).Err? then r == Err(Validate(p).error)
            else if !io.mkdirOk then r == Err("io_error")
            else if s.live.Some? then r == Ok(())
            else if io.journalReadable && s.disk.journal.Torn? then r == Err("invalid_receive_journal")
            else if io.journalReadable && OfAnother(s.disk.journal, p) then r == Err("receive_manifest_mismatch")
            else
              && (r == Err("io_error") <==> io.okSteps < 2)
              && (r == Ok(()) <==> io.okSteps >= 2 && (io.journalReadable && s.disk.journal.Saved? ==> Fits(s.disk.journal.journal.bitmap, p.totalChunks)))
  {
    if Validate(p).Ok? { AcceptedManifestIsLaid(p); }
  }

  /**
   What an init takes up: nothing, where one is live already; otherwise the
   journal's transfer, all it reports counting as durable, or a new one with
   nothing received. It leaves the journal and a finished file alone.
   */
  lemma InitLeaves(s: Store, p: Manifest, io: InitIo, now: int)
    requires WellFormed(s)
    ensures var t, r := Final(s, InitSpec(s, p, io, now)), InitSpec(s, p, io, now).result;
            && t.disk.journal == s.disk.journal && t.disk.destination == s.disk.destination && t.accepted == s.accepted
            && (r.Err? ==> t.live == s.live)
            && (s.live.Some? ==> t == s)
            && (r.Ok? && s.live.None? ==>
                  && t.live.Some?
                  && var l := t.live.value;
                     && l.finalName == p.fileName && l.lastCheckpoint == now && l.dirtyBytes == 0 && l.open
                     && l.durable == l.journal.bitmap
                     && if io.journalReadable && s.disk.journal.Saved? then l.journal == s.disk.journal.journal
                        else l.journal.manifest == p && Fits(l.journal.bitmap, p.totalChunks)
                             && forall i: nat | i < p.totalChunks :: !BitSet(l.journal.bitmap, i))
  {
    if Validate(p).Ok? {
      AcceptedManifestIsLaid(p);
      BlankIsUnset(p.totalChunks);
    }
  }

  lemma BlankIsUnset(total: nat)
    ensures Fits(Blank(total), total) && forall i: nat | i < total :: !BitSet(Blank(total), i)
  {}

  /** A checkpoint succeeds exactly if there is nothing to save, or all of its I/O works; then everything received is durable, as of now. */
  lemma CheckpointIff(s: Store, okSteps: nat, syncs: bool, now: int)
    requires WellFormed(s) && s.live.Some?
    ensures var l := s.live.value;
            var run := CheckpointSpec(s, okSteps, syncs, now);
            var t := Final(s, run);
            var idle := l.dirtyBytes == 0 && !s.disk.journal.Absent?;
            && (run.result.Ok? <==> idle || (l.open && okSteps >= 6))
            && (run.result.Err? ==> run.result.error == "io_error" && t.live == s.live)
            && (idle ==> t == s)
            && (run.result.Ok? && !idle ==>
                  && t.live == Some(l.(durable := l.journal.bitmap, dirtyBytes := 0, lastCheckpoint := now))
                  && t.disk.journal == Saved(l.journal))
  {
    var run := CheckpointSpec(s, okSteps, syncs, now);
    if run.states != [] { CheckpointStates(s, okSteps, syncs, now, |run.states| - 1); }
  }

  /** What a write answers without touching anything. */
  lemma WriteRefuses(s: Store, index: int, data: seq<byte>, io: WriteIo, now: int)
    requires WellFormed(s)
    ensures var run := WriteSpec(s, index, data, io, now);
            && (s.live.None? ==> run == Run([], Err("receive_not_initialized")))
            && (s.live.Some? ==>
                  var l := s.live.value;
                  var m := l.journal.manifest;
                  && (!(0 <= index < m.totalChunks) ==> run == Run([], Err("chunk_out_of_range")))
                  && (0 <= index < m.totalChunks && !FitsAt(m, index, data) ==> run == Run([], Err("invalid_chunk_length")))
                  && (0 <= index < m.totalChunks && FitsAt(m, index, data) && BitSet(l.journal.bitmap, index) ==>
                        run == Run([], Ok(WriteAck(true, true)))))
  {}

  /** `data` reaches from the chunk's place to the next one's, or to the end of the file. */
  predicate FitsAt(m: Manifest, index: nat, data: seq<byte>) {
    index * 1_048_576 + |data| == if (index + 1) * 1_048_576 < m.fileSize then (index + 1) * 1_048_576 else m.fileSize
  }

  /** A checkpoint is due once 32 MiB are at risk, or a second after the last one. */
  predicate CheckpointDue(l: Live, written: nat, now: int) {
    l.dirtyBytes + written >= 33_554_432 || now - l.lastCheckpoint >= 1000
  }

  /** `index` is a chunk of the live transfer that has not been received. */
  predicate Missing(s: Store, index: nat) {
    && WellFormed(s) && s.live.Some? && index < s.live.value.journal.manifest.totalChunks
    && !BitSet(s.live.value.journal.bitmap, index)
  }

  predicate SameBits(a: seq<bv8>, b: seq<bv8>, total: nat)
    requires Fits(a, total) && Fits(b, total)
  {
    forall j: nat | j < total :: BitSet(a, j) <==> BitSet(b, j)
  }

  /** `b` has the bits of `a`, and `index`. */
  predicate OneMore(a: seq<bv8>, b: seq<bv8>, index: nat, total: nat)
    requires Fits(a, total) && Fits(b, total)
  {
    forall j: nat | j < total :: BitSet(b, j) <==> j == index || BitSet(a, j)
  }

  /**
   A chunk that is missing and of the right length: the write succeeds exactly if
   all its bytes land and any checkpoint due succeeds. If they land, exactly its
   bit is added, even when the checkpoint then fails.
   */
  lemma WriteSucceedsIff(s: Store, index: nat, data: seq<byte>, io: WriteIo, now: int)
    requires Inv(s) && Missing(s, index) && FitsAt(s.live.value.journal.manifest, index, data)
    ensures var l := s.live.value;
            var due := CheckpointDue(l, |data|, now);
            var run := WriteSpec(s, index, data, io, now);
            var t := Final(s, run);
            && (run.result.Ok? <==> io.landed >= |data| && (due ==> io.okSteps >= 6))
            && (run.result.Ok? ==> run.result.value == WriteAck(false, due))
            && (run.result.Err? ==> run.result.error == "io_error")
    ensures Inv(Final(s, WriteSpec(s, index, data, io, now)))
    ensures var l, t := s.live.value, Final(s, WriteSpec(s, index, data, io, now));
            && t.live.Some? && t.live.value.journal.manifest == l.journal.manifest && t.live.value.finalName == l.finalName
            && (if io.landed >= |data|
                then OneMore(l.journal.bitmap, t.live.value.journal.bitmap, index, l.journal.manifest.totalChunks)
                else SameBits(l.journal.bitmap, t.live.value.journal.bitmap, l.journal.manifest.totalChunks))
  {
    var l := s.live.value;
    ChunkInFile(l.journal.manifest, index);
    WriteKeeps(s, index, data, io, now);
    var run := WriteSpec(s, index, data, io, now);
    assert AllInv(run.states);
    if io.landed >= |data| {
      var marked := Marked(s, index, data);
      DirtyIsPositive(s, marked, index, data);
      CheckpointIff(marked, io.okSteps, io.syncs, now);
      forall j: nat | j < l.journal.manifest.totalChunks
        ensures BitSet(marked.live.value.journal.bitmap, j) <==> j == index || BitSet(l.journal.bitmap, j)
      {
        WithBitSetsOneBit(l.journal.bitmap, index, j);
      }
      WrittenEnds(s, index, data, io, now);
    }
  }

  /** All bytes landed: the write ends where its checkpoint does, if one is due. */
  lemma WrittenEnds(s: Store, index: nat, data: seq<byte>, io: WriteIo, now: int)
    requires Acceptable(s, index, data) && io.landed >= |data|
    ensures Final(s, WriteSpec(s, index, data, io, now)) == Final(Marked(s, index, data), DueSpec(Marked(s, index, data), io, now))
    ensures WriteSpec(s, index, data, io, now).result.Ok? <==> DueSpec(Marked(s, index, data), io, now).result.Ok?
  {}

  /** The bytes that land, all or the first of them, are in the file at the chunk's place; no other byte of it changes. */
  lemma WriteLands(s: Store, index: nat, data: seq<byte>, io: WriteIo, now: int)
    requires Inv(s) && Missing(s, index) && FitsAt(s.live.value.journal.manifest, index, data)
    ensures var t, landed := Final(s, WriteSpec(s, index, data, io, now)), if io.landed < |data| then io.landed else |data|;
            && s.disk.part.Some? && t.disk.part.Some?
            && var before, after := s.disk.part.value.bytes, t.disk.part.value.bytes;
               && |after| == |before|
               && forall p | 0 <= p < |after| ::
                    after[p] == if index * 1_048_576 <= p < index * 1_048_576 + landed then data[p - index * 1_048_576] else before[p]
  {
    ChunkInFile(s.live.value.journal.manifest, index);
    var part := if io.landed < |data| then data[..io.landed] else data;
    WriteEndsWith(s, index, data, io, now);
    forall p: nat | p < |s.disk.part.value.bytes|
      ensures Overwrite(s.disk.part.value.bytes, index * CHUNK_SIZE, part)[p]
           == if index * CHUNK_SIZE <= p < index * CHUNK_SIZE + |part| then data[p - index * CHUNK_SIZE] else s.disk.part.value.bytes[p]
    {
      OverwriteAt(s.disk.part.value.bytes, index * CHUNK_SIZE, part, p);
    }
  }

  lemma WriteEndsWith(s: Store, index: nat, data: seq<byte>, io: WriteIo, now: int)
    requires Acceptable(s, index, data) && index * CHUNK_SIZE + |data| <= |s.disk.part.value.bytes|
    ensures var t := Final(s, WriteSpec(s, index, data, io, now));
            && t.disk.part.Some?
            && t.disk.part.value.bytes
               == Overwrite(s.disk.part.value.bytes, index * CHUNK_SIZE, if io.landed < |data| then data[..io.landed] else data)
  {
    if io.landed >= |data| {
      WrittenEnds(s, index, data, io, now);
      DueKeepsBytes(Marked(s, index, data), io, now);
    }
  }

  lemma DueKeepsBytes(s: Store, io: WriteIo, now: int)
    requires WellFormed(s) && s.live.Some? && s.disk.part.Some?
    ensures var t := Final(s, DueSpec(s, io, now)); t.disk.part.Some? && t.disk.part.value.bytes == s.disk.part.value.bytes
  {
    var run := DueSpec(s, io, now);
    if run.states != [] { CheckpointStates(s, io.okSteps, io.syncs, now, |run.states| - 1); }
  }

  /** Exactly when finalize gives which answer, once its I/O works. */
  lemma FinalizeAnswers(s: Store, hash: seq<byte> -> string, io: FinalizeIo, now: int)
    requires Inv(s) && s.live.Some? && io.checkpointSteps >= 6 && io.okSteps >= 5
    ensures var l := s.live.value;
            var complete := forall i: nat | i < l.journal.manifest.totalChunks :: BitSet(l.journal.bitmap, i);
            var r := FinalizeSpec(s, hash, io, now).1;
            && (r == Err("receive_incomplete") <==> !complete)
            && (complete ==>
                  && s.disk.part.Some?
                  && var matches := hash(s.disk.part.value.bytes) == l.journal.manifest.sha256;
                  && (r == Err("file_hash_mismatch") <==> !matches)
                  && (r == Err("destination_exists") <==> matches && s.disk.destination.Some?)
                  && (r == Ok(l.finalName) <==> matches && s.disk.destination.None?))
  {
    CheckpointIff(s, io.checkpointSteps, io.syncs, now);
    if AllReceived(s.live.value) {
      assert Holds(s.disk.part, s.live.value.journal.manifest, 0, s.accepted);
      var run := CheckpointSpec(s, io.checkpointSteps, io.syncs, now);
      if run.states != [] { CheckpointStates(s, io.checkpointSteps, io.syncs, now, |run.states| - 1); }
    }
  }

  /**
   What a finalize leaves, however its I/O goes. A refusal before the checkpoint
   changes nothing, and a digest that does not match no more than the checkpoint
   did, so that the transfer can go on; over an existing destination the file is
   closed. Only success ends the transfer, and it publishes the part file.
   */
  lemma FinalizeLeaves(s: Store, hash: seq<byte> -> string, io: FinalizeIo, now: int)
    requires WellFormed(s) && s.live.Some?
    ensures var (t, r) := FinalizeSpec(s, hash, io, now);
            var c := Final(s, CheckpointSpec(s, io.checkpointSteps, io.syncs, now));
            && (r == Err("receive_incomplete") ==> t == s)
            && (r == Err("file_hash_mismatch") ==> t == c && c.live.Some? && c.live.value.open)
            && (r == Err("destination_exists") ==>
                  && t.live.Some? && c.live.Some? && !t.live.value.open
                  && t == c.(live := t.live) && t.live.value.(open := true) == c.live.value)
            && (r.Err? ==> t.live.Some?)
            && (r.Ok? ==>
                  && c.disk.part.Some? && c.disk.destination.None?
                  && t.live.None? && t.accepted == c.accepted
                  && t.disk.part.None? && t.disk.journal.Absent? && t.disk.destination == Some(c.disk.part.value.bytes))
  {}

  /** Abort succeeds exactly if the file can be closed and everything removed, and then nothing of the transfer is left. */
  lemma AbortIff(s: Store, okSteps: nat)
    ensures var (t, r) := AbortSpec(s, okSteps);
            && (r.Ok? <==> s.live.Some? && s.live.value.open && okSteps >= 4)
            && (r.Ok? ==> t.live.None? && t.disk.part.None? && t.disk.journal.Absent? && t.disk.tmp.Absent?)
            && t.disk.destination == s.disk.destination && t.accepted == s.accepted
  {}

  // ---- progress ----

  /** A chunk of the source arrives; all the I/O of its write works. */
  datatype Arrival = Arrival(index: nat, now: int, syncs: bool)

  predicate InSource(a: Arrival, source: seq<byte>) {
    a.index * CHUNK_SIZE < |source|
  }

  function WriteOf(a: Arrival, source: seq<byte>): Op
    requires InSource(a, source)
  {
    Write(a.index, ChunkOf(source, a.index, CHUNK_SIZE), WriteIo(CHUNK_SIZE, 6, a.syncs), a.now)
  }

  ghost predicate AllInSource(arrivals: seq<Arrival>, source: seq<byte>) {
    forall a | a in arrivals :: InSource(a, source)
  }

  ghost function Writes(arrivals: seq<Arrival>, source: seq<byte>): (events: seq<Event>)
    requires AllInSource(arrivals, source)
    ensures |events| == |arrivals|
    ensures forall i | 0 <= i < |events| :: arrivals[i] in arrivals && events[i] == Completed(WriteOf(arrivals[i], source))
  {
    seq(|arrivals|, i requires 0 <= i < |arrivals| => assert arrivals[i] in arrivals; Completed(WriteOf(arrivals[i], source)))
  }

  predicate Arrived(arrivals: seq<Arrival>, index: nat) {
    exists a :: a in arrivals && a.index == index
  }

  /** `t` is `s` with exactly the chunks that arrived received besides. */
  ghost predicate Received(s: Store, t: Store, arrivals: seq<Arrival>) {
    && Inv(s) && Inv(t) && s.live.Some? && t.live.Some?
    && t.live.value.journal.manifest == s.live.value.journal.manifest && t.live.value.finalName == s.live.value.finalName
    && forall j: nat | j < s.live.value.journal.manifest.totalChunks ::
         BitSet(t.live.value.journal.bitmap, j) <==> BitSet(s.live.value.journal.bitmap, j) || Arrived(arrivals, j)
  }

  lemma ArrivalFits(m: Manifest, a: Arrival, source: seq<byte>)
    requires Laid(m) && m.fileSize == |source| && InSource(a, source)
    ensures a.index < m.totalChunks && FitsAt(m, a.index, ChunkOf(source, a.index, CHUNK_SIZE))
    ensures |ChunkOf(source, a.index, CHUNK_SIZE)| <= CHUNK_SIZE
  {
    SenderMatchesReceiver(source, m, a.index);
  }

  /** A write whose I/O works adds its bit, or finds it there. */
  lemma WorkingWrite(s: Store, index: nat, data: seq<byte>, io: WriteIo, now: int)
    requires Inv(s) && s.live.Some? && index < s.live.value.journal.manifest.totalChunks
    requires FitsAt(s.live.value.journal.manifest, index, data) && io.landed >= |data| && io.okSteps >= 6
    ensures var run := WriteSpec(s, index, data, io, now);
            var l, t := s.live.value, Final(s, run);
            && run.result.Ok? && Inv(t) && t.live.Some?
            && t.live.value.journal.manifest == l.journal.manifest && t.live.value.finalName == l.finalName
            && OneMore(l.journal.bitmap, t.live.value.journal.bitmap, index, l.journal.manifest.totalChunks)
  {
    if BitSet(s.live.value.journal.bitmap, index) {
      WriteRefuses(s, index, data, io, now);
    } else {
      WriteSucceedsIff(s, index, data, io, now);
    }
  }

  lemma ArrivalReceives(s: Store, a: Arrival, source: seq<byte>)
    requires Inv(s) && s.live.Some? && s.live.value.journal.manifest.fileSize == |source| && InSource(a, source)
    ensures var e := Completed(WriteOf(a, source)); Possible(s, e) && Received(s, After(s, e), [a])
    ensures WriteSpec(s, a.index, ChunkOf(source, a.index, CHUNK_SIZE), WriteIo(CHUNK_SIZE, 6, a.syncs), a.now).result.Ok?
  {
    ArrivalFits(s.live.value.journal.manifest, a, source);
    WorkingWrite(s, a.index, ChunkOf(source, a.index, CHUNK_SIZE), WriteIo(CHUNK_SIZE, 6, a.syncs), a.now);
    assert [a][0] == a;
  }

  lemma ReceivedTwice(s: Store, t: Store, u: Store, a: Arrival, rest: seq<Arrival>)
    requires Received(s, t, [a]) && Received(t, u, rest)
    ensures Received(s, u, [a] + rest)
  {
    forall j: nat ensures Arrived([a] + rest, j) <==> Arrived([a], j) || Arrived(rest, j) {
      assert [a][0] == a;
      if Arrived(rest, j) {
        var b :| b in rest && b.index == j;
        assert b in [a] + rest;
      }
      if a.index == j { assert a in [a] + rest; }
    }
  }

  lemma WritesOfRest(arrivals: seq<Arrival>, source: seq<byte>)
    requires AllInSource(arrivals, source) && arrivals != []
    ensures InSource(arrivals[0], source) && AllInSource(arrivals[1..], source)
    ensures Writes(arrivals, source)[0] == Completed(WriteOf(arrivals[0], source))
    ensures Writes(arrivals, source)[1..] == Writes(arrivals[1..], source)
  {
    assert forall b | b in arrivals[1..] :: b in arrivals;
  }

  /** Chunks in any order, with any duplicates: exactly those are received, and every write is answered with success. */
  lemma {:induction false} ArrivalsReceive(s: Store, arrivals: seq<Arrival>, source: seq<byte>)
    requires Inv(s) && s.live.Some? && s.live.value.journal.manifest.fileSize == |source| && AllInSource(arrivals, source)
    ensures PossibleRun(s, Writes(arrivals, source))
    ensures Received(s, RunOf(s, Writes(arrivals, source)), arrivals)
    decreases |arrivals|
  {
    var events := Writes(arrivals, source);
    if arrivals == [] {
      assert forall j: nat :: !Arrived(arrivals, j);
    } else {
      var a, rest := arrivals[0], arrivals[1..];
      WritesOfRest(arrivals, source);
      ArrivalReceives(s, a, source);
      ArrivalsReceive(After(s, events[0]), rest, source);
      ReceivedTwice(s, After(s, events[0]), RunOf(s, events), a, rest);
      assert arrivals == [a] + rest;
    }
  }

  lemma BlankNeedsAll(s: Store, t: Store, arrivals: seq<Arrival>)
    requires Received(s, t, arrivals) && s.live.value.journal.bitmap == Blank(s.live.value.journal.manifest.totalChunks)
    requires forall i: nat | i < s.live.value.journal.manifest.totalChunks :: Arrived(arrivals, i)
    ensures AllReceived(t.live.value)
  {}

  /** A fresh init whose I/O works takes the transfer up from nothing, under the manifest's own file name. */
  lemma FreshInit(s0: Store, p: Manifest, truncates: bool, now: int)
    requires Pristine(s0) && Inv(s0) && Validate(p).Ok?
    ensures Laid(p) && p.totalChunks >= 1
    ensures var e := Completed(Init(p, InitIo(true, true, 2, truncates), now));
            && Possible(s0, e) && Inv(After(s0, e))
            && After(s0, e).live == Some(Live(Journal(p, Blank(p.totalChunks)), p.fileName, Blank(p.totalChunks), 0, now, true))
  {
    InitSucceeds(s0, p, InitIo(true, true, 2, truncates), now);
  }

  /** The events of a transfer: its init, and the writes of what arrives. */
  ghost function Transferring(p: Manifest, truncates: bool, now: int, arrivals: seq<Arrival>, source: seq<byte>): seq<Event>
    requires AllInSource(arrivals, source)
  {
    [Completed(Init(p, InitIo(true, true, 2, truncates), now))] + Writes(arrivals, source)
  }

  lemma TransferReceivesAll(s0: Store, p: Manifest, truncates: bool, now: int, arrivals: seq<Arrival>, source: seq<byte>)
    requires Pristine(s0) && Validate(p).Ok? && p.fileSize == |source| && AllInSource(arrivals, source)
    requires forall i: nat | i * CHUNK_SIZE < |source| :: Arrived(arrivals, i)
    ensures var events := Transferring(p, truncates, now, arrivals, source);
            && PossibleRun(s0, events)
            && var t := RunOf(s0, events);
            && Inv(t) && t.live.Some? && AllReceived(t.live.value)
            && t.live.value.journal.manifest == p && t.live.value.finalName == p.fileName
  {
    var events := Transferring(p, truncates, now, arrivals, source);
    FreshInit(s0, p, truncates, now);
    var s := After(s0, events[0]);
    assert events[1..] == Writes(arrivals, source);
    ArrivalsReceive(s, arrivals, source);
    forall i: nat | i < p.totalChunks ensures Arrived(arrivals, i) {
      SenderMatchesReceiver(source, p, i);
    }
    BlankNeedsAll(s, RunOf(s, events[1..]), arrivals);
  }

  lemma TransferringIsHonest(p: Manifest, truncates: bool, now: int, arrivals: seq<Arrival>, source: seq<byte>)
    requires AllInSource(arrivals, source) && p.fileSize == |source|
    ensures forall e | e in Transferring(p, truncates, now, arrivals, source) ::
              Honest(e.op, source) && (e.op.Init? ==> e.op.p.fileSize == |source|) && !e.PowerLost?
  {
    var events := Transferring(p, truncates, now, arrivals, source);
    forall e | e in events ensures Honest(e.op, source) && (e.op.Init? ==> e.op.p.fileSize == |source|) && !e.PowerLost? {
      if e != events[0] {
        var i :| 0 <= i < |events| && events[i] == e;
        assert e == Writes(arrivals, source)[i - 1];
      }
    }
  }

  /**
   Progress: from a fresh init, the chunks of `source` in any order and with any
   duplicates, their I/O working, complete the transfer, and finalize publishes
   the source under the manifest's file name.
   */
  lemma TransferGetsThrough(
    s0: Store, p: Manifest, truncates: bool, now: int, arrivals: seq<Arrival>, source: seq<byte>, hash: seq<byte> -> string, later: int)
    requires Pristine(s0) && s0.accepted == map[] && s0.disk.destination.None?
    requires s0.disk.part.Some? ==> |s0.disk.part.value.bytes| <= |source|
    requires Validate(p).Ok? && p.fileSize == |source| && p.sha256 == hash(source) && AllInSource(arrivals, source)
    requires forall i: nat | i * CHUNK_SIZE < |source| :: Arrived(arrivals, i)
    ensures var events := Transferring(p, truncates, now, arrivals, source);
            && PossibleRun(s0, events) && WellFormed(RunOf(s0, events))
            && var (t, r) := FinalizeSpec(RunOf(s0, events), hash, FinalizeIo(6, 5, true), later);
            r == Ok(p.fileName) && t.disk.destination == Some(source)
  {
    var events := Transferring(p, truncates, now, arrivals, source);
    TransferReceivesAll(s0, p, truncates, now, arrivals, source);
    TransferringIsHonest(p, truncates, now, arrivals, source);
    TransferPublishesSource(s0, events, source, hash, later);
  }
}
