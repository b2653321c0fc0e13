/** Saving the queue: the rename dance over the main file, its backup and a temporary file. */
module QueueDisk {
  import opened Wrappers

  /** What a path holds: nothing, a file cut short while being written, or a whole saved state. */
  datatype Image<+S> = Missing | Partial | Whole(saved: S)

  datatype Disk<+S> = Disk(main: Image<S>, backup: Image<S>, temp: Image<S>)

  /** What opening the store finds; `empty` is the state of a store with no file. */
  function Recover<S>(d: Disk<S>, empty: S): Result<S> {
    var found := if d.main.Missing? then d.backup else d.main;
    match found
    case Whole(s) => Ok(s)
    case Partial => Err("invalid_queue_file")
    case Missing => Ok(empty)
  }

  /** Which of the file operations of one save succeed; removals that fail are ignored, as in the code. */
  datatype SaveIo = SaveIo(
    mkdirOk: bool, writeOk: bool, backupRemoved: bool, statOk: bool,
    renameCurrentOk: bool, renameTempOk: bool, restoreOk: bool, cleanupOk: bool)

  const AllOk := SaveIo(true, true, true, true, true, true, true, true)

  /** The disks a save passes through, in order, and whether it reports success. */
  datatype Save<+S> = Save(disks: seq<Disk<S>>, ok: bool)

  function SaveSpec<S>(d: Disk<S>, state: S, io: SaveIo): Save<S> {
    if !io.mkdirOk then Save([], false)
    else
      var d1 := d.(temp := Partial);
      if !io.writeOk then Save([d1], false)
      else
        var d2 := d.(temp := Whole(state));
        var d3 := if io.backupRemoved then d2.(backup := Missing) else d2;
        var swap := Swap(d3, state, io);
        Save([d1, d2, d3] + swap.disks, swap.ok)
  }

  /** The rest of a save, once the new file is on disk as the temporary one. */
  function Swap<S>(d: Disk<S>, state: S, io: SaveIo): Save<S> {
    if !d.main.Missing? && io.statOk then
      if !io.renameCurrentOk then Save([], false)
      else
        var aside := d.(backup := d.main, main := Missing);
        if !io.renameTempOk then
          Save([aside, if io.restoreOk then aside.(main := aside.backup, backup := Missing) else aside], false)
        else
          var placed := aside.(main := Whole(state), temp := Missing);
          Save([aside, placed, if io.cleanupOk then placed.(backup := Missing) else placed], true)
    else if !io.renameTempOk then Save([], false)
    else
      var placed := d.(main := Whole(state), temp := Missing);
      Save([placed, if io.cleanupOk then placed.(backup := Missing) else placed], true)
  }

  function DiskAt<S>(d: Disk<S>, save: Save<S>, k: nat): Disk<S>
    requires k <= |save.disks|
  {
    if k == 0 then d else save.disks[k - 1]
  }

  function Saved<S>(d: Disk<S>, save: Save<S>): Disk<S> {
    DiskAt(d, save, |save.disks|)
  }

  /** A worker killed after any step of this save recovers the old state or the new one; a failed save keeps the old. */
  ghost predicate Atomic<S(!new)>(d: Disk<S>, state: S, io: SaveIo, empty: S) {
    var save := SaveSpec(d, state, io);
    && (forall k | 0 <= k <= |save.disks| ::
          Recover(DiskAt(d, save, k), empty) == Recover(d, empty) || Recover(DiskAt(d, save, k), empty) == Ok(state))
    && Recover(Saved(d, save), empty) == if save.ok then Ok(state) else Recover(d, empty)
  }

  /** The main file is there, or neither it nor its backup is. */
  predicate Safe<S>(d: Disk<S>) {
    d.main.Whole? || (d.main.Missing? && d.backup.Missing?)
  }

  lemma SafeIsAtomic<S(!new)>(d: Disk<S>, state: S, io: SaveIo, empty: S)
    requires Safe(d)
    ensures Atomic(d, state, io, empty)
  {
    var save := SaveSpec(d, state, io);
    assert |save.disks| <= 6;
  }

  /**
   Saving is atomic exactly from a readable disk that is safe, or whose backup
   holds no more than the empty state: with only a backup, a save first deletes it.
   */
  lemma SavesAreAtomicIff<S(!new)>(d: Disk<S>, empty: S, other: S)
    requires Recover(d, empty).Ok? && other != empty
    ensures (forall state, io :: Atomic(d, state, io, empty)) <==> Safe(d) || d.backup == Whole(empty)
  {
    if Safe(d) {
      forall state, io ensures Atomic(d, state, io, empty) { SafeIsAtomic(d, state, io, empty); }
    } else {
      assert d.main.Missing? && d.backup.Whole?;
      if d.backup == Whole(empty) {
        forall state, io ensures Atomic(d, state, io, empty) { EmptyBackupIsAtomic(d, state, io, empty); }
      } else {
        var io := AllOk.(renameTempOk := false);
        var save := SaveSpec(d, other, io);
        assert Recover(DiskAt(d, save, 3), empty) == Ok(empty);
        assert !Atomic(d, other, io, empty);
      }
    }
  }

  lemma EmptyBackupIsAtomic<S(!new)>(d: Disk<S>, state: S, io: SaveIo, empty: S)
    requires d.main.Missing? && d.backup == Whole(empty)
    ensures Atomic(d, state, io, empty)
  {
    var save := SaveSpec(d, state, io);
    assert |save.disks| <= 5;
  }

  // ---- many saves ----

  /** The one way a save leaves the disk unsafe: it cannot put the new file in place, nor the old one back. */
  predicate Stranded<S>(d: Disk<S>, io: SaveIo) {
    && io.mkdirOk && io.writeOk && !d.main.Missing? && io.statOk && io.renameCurrentOk
    && !io.renameTempOk && !io.restoreOk
  }

  lemma SafeStaysSafeIff<S>(d: Disk<S>, state: S, io: SaveIo)
    requires Safe(d)
    ensures Safe(Saved(d, SaveSpec(d, state, io))) <==> !Stranded(d, io)
  {}

  function SaveAll<S>(d: Disk<S>, saves: seq<(S, SaveIo)>): Disk<S>
    decreases |saves|
  {
    if saves == [] then d
    else SaveAll(Saved(d, SaveSpec(d, saves[0].0, saves[0].1)), saves[1..])
  }

  /** The state of the last save that reported success. */
  function LastSaved<S>(d: Disk<S>, saves: seq<(S, SaveIo)>, start: S): S
    decreases |saves|
  {
    if saves == [] then start
    else
      var save := SaveSpec(d, saves[0].0, saves[0].1);
      LastSaved(Saved(d, save), saves[1..], if save.ok then saves[0].0 else start)
  }

  predicate NeverStranded<S>(d: Disk<S>, saves: seq<(S, SaveIo)>)
    decreases |saves|
  {
    saves == [] ||
    (!Stranded(d, saves[0].1) && NeverStranded(Saved(d, SaveSpec(d, saves[0].0, saves[0].1)), saves[1..]))
  }

  /**
   Over any sequence of saves, failing anywhere but never stranded, and then a
   kill after any step of one more: opening the store finds the last state
   that was successfully saved, or the one being saved.
   */
  lemma {:induction false} KillRecoversLastSaved<S(!new)>(
    d: Disk<S>, saves: seq<(S, SaveIo)>, start: S, empty: S, state: S, io: SaveIo, k: nat)
    requires Safe(d) && Recover(d, empty) == Ok(start)
    requires NeverStranded(d, saves)
    requires k <= |SaveSpec(SaveAll(d, saves), state, io).disks|
    ensures var now := SaveAll(d, saves);
            && Recover(now, empty) == Ok(LastSaved(d, saves, start))
            && (var found := Recover(DiskAt(now, SaveSpec(now, state, io), k), empty);
                found == Ok(LastSaved(d, saves, start)) || found == Ok(state))
    decreases |saves|
  {
    if saves == [] {
      SafeIsAtomic(d, state, io, empty);
    } else {
      var save := SaveSpec(d, saves[0].0, saves[0].1);
      SafeIsAtomic(d, saves[0].0, saves[0].1, empty);
      SafeStaysSafeIff(d, saves[0].0, saves[0].1);
      KillRecoversLastSaved(Saved(d, save), saves[1..], if save.ok then saves[0].0 else start, empty, state, io, k);
    }
  }
}
