/** The queue across kills: what was saved outlives any number of them. */
module QueueCrashes {
  import opened Wrappers
  import opened QueueDisk
  import opened QueueSpec
  import opened QueueRuns

  predicate Readable(d: Disk<QueueFile>) {
    Recover(d, EmptyFile).Ok?
  }

  /** What a restart would find. */
  function Stored(q: Queue): QueueFile
    requires Readable(q.disk)
  {
    Recover(q.disk, EmptyFile).value
  }

  /** Memory carries on what is saved; and what it holds delivered is at least saved. */
  ghost predicate Follows(saved: QueueFile, file: QueueFile) {
    && Inv(saved) && Inv(file) && Conserves(saved, file)
    && forall i | 0 <= i < |file.messages| && file.messages[i].status.Delivered? :: i < |saved.messages|
  }

  /** The saved state may be in the main file, or in the backup alone. */
  ghost predicate Sound(q: Queue) {
    Readable(q.disk) && Follows(Stored(q), q.file)
  }

  lemma FollowsItself(file: QueueFile)
    requires Inv(file)
    ensures Follows(file, file)
  {
    forall i | 0 <= i < |file.messages| ensures MayBecome(file.messages[i], file.messages[i]) {
      assert MessageOk(file.messages[i]);
    }
  }

  /** Memory moves on without a save, delivering nothing unsaved. */
  lemma FollowsOn(saved: QueueFile, a: QueueFile, b: QueueFile)
    requires Follows(saved, a) && Inv(b) && Conserves(a, b)
    requires forall i | 0 <= i < |b.messages| && b.messages[i].status.Delivered? :: i < |saved.messages|
    ensures Follows(saved, b)
  {
    ConservesTransitive(saved, a, b);
  }

  // ---- one save ----

  /** Neither the main file nor its backup is there. */
  predicate Bare(d: Disk<QueueFile>) {
    d.main.Missing? && d.backup.Missing?
  }

  /** The save removes a backup that was the only copy, and then fails to put the new file in place. */
  predicate LosesBackup(d: Disk<QueueFile>, io: SaveIo) {
    d.main.Missing? && d.backup.Whole? && io.mkdirOk && io.writeOk && io.backupRemoved && !io.renameTempOk
  }

  /** The save loses nothing: it does not do that, or nothing was saved. */
  predicate Spares(q: Queue, io: SaveIo) {
    LosesBackup(q.disk, io) ==> q.disk.backup == Whole(EmptyFile)
  }

  /** `d` is the disk at some point of saving `q`. */
  ghost predicate PersistPasses(q: Queue, io: SaveIo, d: Disk<QueueFile>) {
    exists k :: 0 <= k <= |SaveSpec(q.disk, q.file, io).disks| && d == DiskAt(q.disk, SaveSpec(q.disk, q.file, io), k)
  }

  /** What a restart finds on `d` has lost nothing of `saved`. */
  ghost predicate Keeps(saved: QueueFile, d: Disk<QueueFile>) {
    && Readable(d)
    && Inv(Recover(d, EmptyFile).value) && Conserves(saved, Recover(d, EmptyFile).value)
  }

  /** A disk on which a restart finds `saved`, or the state `file` being saved; unless there is no file left on it. */
  predicate FindsEither(saved: QueueFile, file: QueueFile, d: Disk<QueueFile>) {
    Bare(d) || Recover(d, EmptyFile) == Ok(saved) || Recover(d, EmptyFile) == Ok(file)
  }

  /** Every disk of a save recovers the old state or the new one, unless it is bare; and the save ends as it reports. */
  lemma SaveFinds(q: Queue, io: SaveIo)
    requires Readable(q.disk)
    ensures var save := SaveSpec(q.disk, q.file, io);
            && (forall k | 0 <= k <= |save.disks| :: FindsEither(Stored(q), q.file, DiskAt(q.disk, save, k)))
            && Readable(Saved(q.disk, save))
            && (save.ok ==> Recover(Saved(q.disk, save), EmptyFile) == Ok(q.file))
            && (!save.ok ==> Recover(Saved(q.disk, save), EmptyFile) == Ok(if LosesBackup(q.disk, io) then EmptyFile else Stored(q)))
  {
    var save := SaveSpec(q.disk, q.file, io);
    assert |save.disks| <= 6;
  }

  /** With no file left, only an empty queue has lost nothing. */
  lemma EmptyIsKept(saved: QueueFile, d: Disk<QueueFile>)
    requires Recover(d, EmptyFile) == Ok(EmptyFile)
    ensures Keeps(saved, d) <==> saved == EmptyFile
  {
    assert forall id :: !Known(EmptyFile.friends, id);
    assert saved.friends != [] ==> Known(saved.friends, saved.friends[0].friendId);
  }

  lemma PersistIsSound(q: Queue, io: SaveIo)
    requires Sound(q) && Spares(q, io)
    ensures var (t, ok) := Persist(q, io);
            && Sound(t) && t.file == q.file
            && Stored(t) == (if ok then q.file else Stored(q)) && Conserves(Stored(q), Stored(t))
  {
    SaveFinds(q, io);
    FollowsItself(q.file);
    FollowsItself(Stored(q));
  }

  lemma PersistPassesKeep(q: Queue, io: SaveIo, d: Disk<QueueFile>)
    requires Sound(q)
    ensures PersistPasses(q, io, d) && !Bare(d) ==> Keeps(Stored(q), d)
  {
    SaveFinds(q, io);
    FollowsItself(Stored(q));
  }

  lemma KeepsThrough(a: QueueFile, b: QueueFile, d: Disk<QueueFile>)
    requires Conserves(a, b) && Keeps(b, d)
    ensures Keeps(a, d)
  {
    ConservesTransitive(a, b, Recover(d, EmptyFile).value);
  }

  // ---- one flush ----

  /** The queue once the first message of a batch has been claimed and settled. */
  function AfterFirst(q: Queue, pending: seq<Message>, w: World): Queue
    requires pending != []
  {
    Settle(Claim(q, pending[0].id, w).0, pending[0].id, w).0
  }

  /** The first message is claimed, delivered and saved as such, so that the next one is tried. */
  predicate GoesOn(q: Queue, pending: seq<Message>, w: World) {
    && pending != []
    && var id := pending[0].id;
    var claimed := Claim(q, id, w);
    claimed.1 && w.post(id).None? && Settle(claimed.0, id, w).1
  }

  /** Neither save of the first message loses what was saved. */
  predicate FirstSpares(q: Queue, pending: seq<Message>, w: World)
    requires pending != []
  {
    var id := pending[0].id;
    var (claimed, claimSaved) := Claim(q, id, w);
    && Spares(Claimed(q, id, w), w.io(id, Claiming))
    && (claimSaved ==> Spares(Settled(claimed, id, w), w.io(id, Settling)))
  }

  /** No save of the batch loses what was saved. */
  predicate BatchSpares(q: Queue, pending: seq<Message>, w: World)
    decreases |pending|
  {
    pending != [] ==>
      && FirstSpares(q, pending, w)
      && (GoesOn(q, pending, w) ==> BatchSpares(AfterFirst(q, pending, w), pending[1..], w))
  }

  function FirstBatch(q: Queue, friends: seq<Friend>, now: int): seq<Message>
    requires friends != []
  {
    PendingForFriend(q.file.messages, friends[0].friendId, now)
  }

  /** The first friend's share of a flush. */
  function FirstFlushed(q: Queue, friends: seq<Friend>, now: int, w: World): Flushed
    requires friends != []
  {
    FlushMessages(q, FirstBatch(q, friends, now), w)
  }

  predicate FlushSpares(q: Queue, friends: seq<Friend>, now: int, w: World)
    decreases |friends|
  {
    friends != [] ==>
      && BatchSpares(q, FirstBatch(q, friends, now), w)
      && FlushSpares(FirstFlushed(q, friends, now, w).queue, friends[1..], now, w)
  }

  /** `d` may be the disk at some point of trying the first message, with `posts` messages posted. */
  ghost predicate FirstPasses(q: Queue, pending: seq<Message>, w: World, d: Disk<QueueFile>, posts: nat)
    requires pending != []
  {
    var id := pending[0].id;
    var (claimed, claimSaved) := Claim(q, id, w);
    || (posts == 0 && PersistPasses(Claimed(q, id, w), w.io(id, Claiming), d))
    || (claimSaved && posts == 1 && PersistPasses(Settled(claimed, id, w), w.io(id, Settling), d))
  }

  ghost predicate BatchPasses(q: Queue, pending: seq<Message>, w: World, d: Disk<QueueFile>, posts: nat)
    decreases |pending|
  {
    && pending != []
    && (|| FirstPasses(q, pending, w, d, posts)
        || (GoesOn(q, pending, w) && posts > 0 && BatchPasses(AfterFirst(q, pending, w), pending[1..], w, d, posts - 1)))
  }

  /** A kill while `pending` is tried leaves `d`, with `posts` messages posted. */
  ghost predicate LeavesDisk(q: Queue, pending: seq<Message>, w: World, d: Disk<QueueFile>, posts: nat) {
    BatchPasses(q, pending, w, d, posts)
  }

  /** `d` may be the disk at some point of a flush: in the share of some friend, after those before it. */
  ghost predicate FlushPasses(q: Queue, friends: seq<Friend>, now: int, w: World, d: Disk<QueueFile>, posts: nat) {
    exists n, late: nat ::
      0 <= n < |friends| && ShareOfPasses(q, friends, n, now, w, d, late)
      && posts == |FlushedUpTo(q, friends, n, now, w).posted| + late
  }

  /** The flush after the shares of the first `n` friends. */
  function FlushedUpTo(q: Queue, friends: seq<Friend>, n: nat, now: int, w: World): Flushed
    requires n <= |friends|
  {
    FlushFriends(q, friends[..n], now, w)
  }

  ghost predicate ShareOfPasses(q: Queue, friends: seq<Friend>, n: nat, now: int, w: World, d: Disk<QueueFile>, late: nat)
    requires n < |friends|
  {
    var before := FlushedUpTo(q, friends, n, now, w).queue;
    LeavesDisk(before, FirstBatch(before, friends[n..], now), w, d, late)
  }

  /** Claiming a due message, saved or not, loses nothing. */
  lemma ClaimedFollows(q: Queue, k: nat, w: World)
    requires Sound(q) && k < |q.file.messages| && q.file.messages[k].status.Pending?
    ensures Sound(Claimed(q, q.file.messages[k].id, w))
  {
    var m := q.file.messages[k];
    TryProgresses(q, k, w);
    TryTouchesOne(q, k, w);
    FollowsOn(Stored(q), q.file, Claimed(q, m.id, w).file);
  }

  /** Recording how a claimed message's delivery ended loses nothing. */
  lemma SettledFollows(q: Queue, k: nat, w: World)
    requires Sound(q) && k < |q.file.messages| && q.file.messages[k].status.Pending?
    requires Claim(q, q.file.messages[k].id, w).1 && Spares(Claimed(q, q.file.messages[k].id, w), w.io(q.file.messages[k].id, Claiming))
    ensures var id := q.file.messages[k].id;
            var claimed := Claim(q, id, w).0;
            && Sound(claimed) && Stored(claimed) == claimed.file && Conserves(Stored(q), Stored(claimed))
            && Sound(Settled(claimed, id, w)) && Stored(Settled(claimed, id, w)) == claimed.file
  {
    var m := q.file.messages[k];
    var claimed := Claim(q, m.id, w).0;
    ClaimedFollows(q, k, w);
    PersistIsSound(Claimed(q, m.id, w), w.io(m.id, Claiming));
    TryProgresses(q, k, w);
    ClaimedThenTried(q, k, w);
    FollowsOn(Stored(claimed), claimed.file, Settled(claimed, m.id, w).file);
  }

  lemma ClaimedThenTried(q: Queue, k: nat, w: World)
    requires Inv(q.file) && k < |q.file.messages| && q.file.messages[k].status.Pending?
    ensures var id := q.file.messages[k].id;
            var claimed := Claim(q, id, w).0;
            Conserves(claimed.file, Settled(claimed, id, w).file)
  {
    var m := q.file.messages[k];
    assert MessageOk(m);
    TryTouchesOne(q, k, w);
    TryProgresses(q, k, w);
    var claimed := Claim(q, m.id, w).0;
    assert claimed.file.messages[k := Tried(m, w)] == q.file.messages[k := Tried(m, w)];
    UpdateKeeps(claimed.file, k, Tried(m, w));
  }

  /** Where the first of the due messages is. */
  lemma FirstIsPending(q: Queue, pending: seq<Message>) returns (k: nat)
    requires DueIn(pending, q.file.messages) && pending != []
    ensures k < |q.file.messages| && q.file.messages[k] == pending[0] && pending[0].status.Pending?
  {
    assert pending[0] in pending;
    k :| 0 <= k < |q.file.messages| && q.file.messages[k] == pending[0];
  }

  /** The first message of a batch: claimed, and if that was saved, settled. */
  lemma FirstIsSound(q: Queue, pending: seq<Message>, w: World)
    requires Sound(q) && DueIn(pending, q.file.messages) && pending != [] && FirstSpares(q, pending, w)
    ensures var (claimed, claimSaved) := Claim(q, pending[0].id, w);
            var settled := AfterFirst(q, pending, w);
            && Sound(claimed) && Conserves(Stored(q), Stored(claimed))
            && (claimSaved ==>
                  && Sound(settled) && Conserves(Stored(q), Stored(settled))
                  && DueIn(pending[1..], settled.file.messages))
  {
    var k := FirstIsPending(q, pending);
    var id := pending[0].id;
    ClaimedFollows(q, k, w);
    PersistIsSound(Claimed(q, id, w), w.io(id, Claiming));
    if Claim(q, id, w).1 {
      SettledFollows(q, k, w);
      var claimed := Claim(q, id, w).0;
      PersistIsSound(Settled(claimed, id, w), w.io(id, Settling));
      ConservesTransitive(Stored(q), Stored(claimed), Stored(AfterFirst(q, pending, w)));
      var settled := FirstProgresses(q, pending, w);
    }
  }

  lemma {:induction false} BatchIsSound(q: Queue, pending: seq<Message>, w: World)
    requires Sound(q) && DueIn(pending, q.file.messages) && BatchSpares(q, pending, w)
    ensures var t := FlushMessages(q, pending, w).queue;
            Sound(t) && Conserves(Stored(q), Stored(t))
    decreases |pending|
  {
    FollowsItself(Stored(q));
    if pending != [] {
      FirstIsSound(q, pending, w);
      FlushMessagesCases(q, pending, w);
      var settled := AfterFirst(q, pending, w);
      if GoesOn(q, pending, w) {
        BatchIsSound(settled, pending[1..], w);
        ConservesTransitive(Stored(q), Stored(settled), Stored(FlushMessages(settled, pending[1..], w).queue));
      }
    }
  }

  /** The disks while the first message is tried keep what was saved. */
  lemma FirstPassesKeep(q: Queue, pending: seq<Message>, w: World, d: Disk<QueueFile>, posts: nat)
    requires Sound(q) && DueIn(pending, q.file.messages) && pending != [] && FirstSpares(q, pending, w)
    requires FirstPasses(q, pending, w, d, posts) && !Bare(d)
    ensures Keeps(Stored(q), d)
  {
    var k := FirstIsPending(q, pending);
    var id := pending[0].id;
    var claimed := Claim(q, id, w).0;
    ClaimedFollows(q, k, w);
    PersistPassesKeep(Claimed(q, id, w), w.io(id, Claiming), d);
    if Claim(q, id, w).1 {
      SettledFollows(q, k, w);
      PersistPassesKeep(Settled(claimed, id, w), w.io(id, Settling), d);
      if PersistPasses(Settled(claimed, id, w), w.io(id, Settling), d) { KeepsThrough(Stored(q), Stored(claimed), d); }
    }
  }

  lemma {:induction false} BatchPassesKeep(q: Queue, pending: seq<Message>, w: World, d: Disk<QueueFile>, posts: nat)
    requires Sound(q) && DueIn(pending, q.file.messages) && BatchSpares(q, pending, w)
    requires LeavesDisk(q, pending, w, d, posts) && !Bare(d)
    ensures Keeps(Stored(q), d)
    decreases |pending|
  {
    if FirstPasses(q, pending, w, d, posts) {
      FirstPassesKeep(q, pending, w, d, posts);
    } else {
      FirstIsSound(q, pending, w);
      var settled := AfterFirst(q, pending, w);
      BatchPassesKeep(settled, pending[1..], w, d, posts - 1);
      KeepsThrough(Stored(q), Stored(settled), d);
    }
  }

  lemma FirstFriendIsSound(q: Queue, friends: seq<Friend>, now: int, w: World)
    requires Sound(q) && friends != [] && BatchSpares(q, FirstBatch(q, friends, now), w)
    ensures DueIn(FirstBatch(q, friends, now), q.file.messages)
    ensures var first := FirstFlushed(q, friends, now, w).queue; Sound(first) && Conserves(Stored(q), Stored(first))
  {
    PendingIsDue(q.file.messages, friends[0].friendId, now);
    BatchIsSound(q, FirstBatch(q, friends, now), w);
  }

  lemma {:induction false} FlushIsSound(q: Queue, friends: seq<Friend>, now: int, w: World)
    requires Sound(q) && FlushSpares(q, friends, now, w)
    ensures var t := FlushFriends(q, friends, now, w).queue;
            Sound(t) && Conserves(Stored(q), Stored(t))
    decreases |friends|
  {
    FollowsItself(Stored(q));
    if friends != [] {
      FirstFriendIsSound(q, friends, now, w);
      var first := FirstFlushed(q, friends, now, w).queue;
      FlushIsSound(first, friends[1..], now, w);
      ConservesTransitive(Stored(q), Stored(first), Stored(FlushFriends(first, friends[1..], now, w).queue));
    }
  }

  lemma UpToRest(q: Queue, friends: seq<Friend>, n: nat, now: int, w: World)
    requires 0 < n <= |friends|
    ensures FlushedUpTo(q, friends, n, now, w).queue
         == FlushedUpTo(FirstFlushed(q, friends, now, w).queue, friends[1..], n - 1, now, w).queue
    ensures friends[..n][1..] == friends[1..][..n - 1] && friends[1..][n - 1..] == friends[n..]
  {
    assert friends[..n][1..] == friends[1..][..n - 1];
  }

  /** A friend's share loses nothing, taken after those before it. */
  lemma {:induction false} ShareSpares(q: Queue, friends: seq<Friend>, n: nat, now: int, w: World)
    requires FlushSpares(q, friends, now, w) && n < |friends|
    ensures var before := FlushedUpTo(q, friends, n, now, w).queue; BatchSpares(before, FirstBatch(before, friends[n..], now), w)
    decreases n
  {
    if n > 0 {
      UpToRest(q, friends, n, now, w);
      ShareSpares(FirstFlushed(q, friends, now, w).queue, friends[1..], n - 1, now, w);
    } else {
      assert friends[..0] == [] && friends[0..] == friends;
    }
  }

  /** Nor do the shares before it. */
  lemma {:induction false} SparesUpTo(q: Queue, friends: seq<Friend>, n: nat, now: int, w: World)
    requires FlushSpares(q, friends, now, w) && n < |friends|
    ensures FlushSpares(q, friends[..n], now, w)
    decreases n
  {
    if n > 0 {
      UpToRest(q, friends, n, now, w);
      SparesUpTo(FirstFlushed(q, friends, now, w).queue, friends[1..], n - 1, now, w);
      assert FirstBatch(q, friends[..n], now) == FirstBatch(q, friends, now);
    }
  }

  lemma ShareIsSound(q: Queue, friends: seq<Friend>, n: nat, now: int, w: World) returns (before: Queue)
    requires Sound(q) && FlushSpares(q, friends, now, w) && n < |friends|
    ensures before == FlushedUpTo(q, friends, n, now, w).queue
    ensures Sound(before) && Conserves(Stored(q), Stored(before))
    ensures var batch := FirstBatch(before, friends[n..], now); BatchSpares(before, batch, w) && DueIn(batch, before.file.messages)
  {
    before := FlushedUpTo(q, friends, n, now, w).queue;
    SparesUpTo(q, friends, n, now, w);
    ShareSpares(q, friends, n, now, w);
    FlushIsSound(q, friends[..n], now, w);
    PendingIsDue(before.file.messages, friends[n..][0].friendId, now);
  }

  lemma FlushPassesKeep(q: Queue, friends: seq<Friend>, now: int, w: World, d: Disk<QueueFile>, posts: nat)
    requires Sound(q) && FlushSpares(q, friends, now, w)
    ensures FlushPasses(q, friends, now, w, d, posts) && !Bare(d) ==> Keeps(Stored(q), d)
  {
    if FlushPasses(q, friends, now, w, d, posts) && !Bare(d) {
      var n, late: nat :| 0 <= n < |friends| && ShareOfPasses(q, friends, n, now, w, d, late)
                          && posts == |FlushedUpTo(q, friends, n, now, w).posted| + late;
      var before := ShareIsSound(q, friends, n, now, w);
      BatchPassesKeep(before, FirstBatch(before, friends[n..], now), w, d, late);
      KeepsThrough(Stored(q), Stored(before), d);
    }
  }

  // ---- any operation ----

  /** No save of the operation removes a backup that was the only copy and then fails to put the new file in place. */
  ghost predicate OpSpares(q: Queue, op: Op) {
    match op
    case SetFriends(_, _, io) => Spares(q, io)
    case Enqueue(_, _, _, _, io) => Spares(q, io)
    case Flush(proxySet, now, w) => proxySet ==> FlushSpares(q, q.file.friends, now, w)
  }

  /** `d` may be the disk at some point of `op`, with `posts` messages posted. */
  ghost predicate Passes(q: Queue, op: Op, d: Disk<QueueFile>, posts: nat) {
    || (d == q.disk && posts == 0)
    || match op
       case SetFriends(given, normalize, io) => PersistPasses(q.(file := Perform(q, op).file), io, d) && posts == 0
       case Enqueue(input, onion, freshId, at, io) => PersistPasses(q.(file := Perform(q, op).file), io, d) && posts == 0
       case Flush(proxySet, now, w) => proxySet && FlushPasses(q, q.file.friends, now, w, d, posts)
  }

  lemma SetFriendsIsSound(q: Queue, given: seq<Friend>, normalize: string -> string, io: SaveIo)
    requires Sound(q) && Spares(q, io)
    ensures var t := SetFriendsSpec(q, given, normalize, io).0;
            && Sound(t) && Conserves(Stored(q), Stored(t)) && Sound(q.(file := t.file))
  {
    var t := SetFriendsSpec(q, given, normalize, io).0;
    SetFriendsKeeps(q, given, normalize, io);
    FollowsOn(Stored(q), q.file, t.file);
    PersistIsSound(q.(file := t.file), io);
  }

  /** An enqueue that reports success leaves its message saved. */
  lemma EnqueueIsSound(q: Queue, input: EnqueueInput, onion: string, freshId: string, now: int, io: SaveIo)
    requires Sound(q) && Spares(q, io)
    ensures var (t, r) := EnqueueSpec(q, input, onion, freshId, now, io);
            && Sound(t) && Conserves(Stored(q), Stored(t)) && Sound(q.(file := t.file))
            && (r.Ok? ==> exists i :: 0 <= i < |Stored(t).messages| && t.file.messages[i] == r.value)
  {
    var (t, r) := EnqueueSpec(q, input, onion, freshId, now, io);
    EnqueueKeeps(q, input, onion, freshId, now, io);
    EnqueueDelivers(q, input, onion, freshId, now, io);
    FollowsOn(Stored(q), q.file, t.file);
    PersistIsSound(q.(file := t.file), io);
    FollowsItself(Stored(q));
    if r.Ok? {
      var i :| 0 <= i < |t.file.messages| && t.file.messages[i] == r.value;
      if t != q { assert (t, true) == Persist(q.(file := t.file), io); }
    }
  }

  /** An enqueue delivers nothing, and either changes nothing or saves what it changed. */
  lemma EnqueueDelivers(q: Queue, input: EnqueueInput, onion: string, freshId: string, now: int, io: SaveIo)
    requires Inv(q.file)
    ensures var (t, r) := EnqueueSpec(q, input, onion, freshId, now, io);
            && (forall i | 0 <= i < |t.file.messages| && t.file.messages[i].status.Delivered? ::
                  i < |q.file.messages| && q.file.messages[i].status.Delivered?)
            && (|| (t == q && (r.Ok? ==> r.value.status.Delivered?))
                || (t, r.Ok?) == Persist(q.(file := t.file), io))
  {
    EnqueueUnfolds(q, input, onion, freshId, now, io);
  }

  lemma PerformIsSound(q: Queue, op: Op)
    requires Sound(q) && OpSpares(q, op)
    ensures Sound(Perform(q, op)) && Conserves(Stored(q), Stored(Perform(q, op)))
  {
    FollowsItself(Stored(q));
    match op
    case SetFriends(given, normalize, io) => SetFriendsIsSound(q, given, normalize, io);
    case Enqueue(input, onion, freshId, at, io) => EnqueueIsSound(q, input, onion, freshId, at, io);
    case Flush(proxySet, now, w) => if proxySet { FlushIsSound(q, q.file.friends, now, w); }
  }

  lemma PassesKeep(q: Queue, op: Op, d: Disk<QueueFile>, posts: nat)
    requires Sound(q) && OpSpares(q, op) && !Bare(d)
    ensures Passes(q, op, d, posts) ==> Keeps(Stored(q), d)
  {
    FollowsItself(Stored(q));
    match op
    case SetFriends(given, normalize, io) =>
      SetFriendsIsSound(q, given, normalize, io);
      PersistPassesKeep(q.(file := Perform(q, op).file), io, d);
    case Enqueue(input, onion, freshId, at, io) =>
      EnqueueIsSound(q, input, onion, freshId, at, io);
      PersistPassesKeep(q.(file := Perform(q, op).file), io, d);
    case Flush(proxySet, now, w) =>
      if proxySet && FlushPasses(q, q.file.friends, now, w, d, posts) {
        FlushPassesKeep(q, q.file.friends, now, w, d, posts);
      }
  }

  /** A kill, at whatever file step of whatever operation, loses what was saved exactly if it leaves no file and there was something saved. */
  lemma KillKeepsIff(q: Queue, op: Op, d: Disk<QueueFile>, posts: nat)
    requires Sound(q) && OpSpares(q, op)
    ensures Passes(q, op, d, posts) ==> (Keeps(Stored(q), d) <==> (Bare(d) ==> Stored(q) == EmptyFile))
  {
    if Bare(d) {
      EmptyIsKept(Stored(q), d);
    } else {
      PassesKeep(q, op, d, posts);
    }
  }

  /** Such a save, likewise: it loses what was saved exactly if it takes the only copy away and fails, and there was something saved. */
  lemma SaveKeepsIff(q: Queue, io: SaveIo)
    requires Sound(q)
    ensures Keeps(Stored(q), Persist(q, io).0.disk) <==> Spares(q, io)
  {
    SaveFinds(q, io);
    FollowsItself(Stored(q));
    if !Spares(q, io) { EmptyIsKept(Stored(q), Persist(q, io).0.disk); }
  }

  // ---- runs with kills ----

  /**
   An operation that returns, or one cut short by a kill that leaves `left`, with
   `posts` messages posted by then; the store is opened again from `left`.
   */
  datatype Event = Completed(op: Op) | Killed(op: Op, left: Disk<QueueFile>, posts: nat)

  /**
   Kills come at any file step. Left out are only what `SaveKeepsIff` and
   `KillKeepsIff` show to lose everything: from a backup alone, the removal of
   it followed by a failing rename, or by a kill before the rename.
   */
  ghost predicate Possible(q: Queue, e: Event) {
    && OpSpares(q, e.op)
    && (e.Killed? ==>
          Passes(q, e.op, e.left, e.posts) && (Bare(e.left) ==> Recover(q.disk, EmptyFile) == Ok(EmptyFile)))
  }

  /** The store opened from a disk; one left by a kill can always be read. */
  function Opened(d: Disk<QueueFile>): Queue {
    Queue(if Readable(d) then Recover(d, EmptyFile).value else EmptyFile, d)
  }

  ghost function Next(q: Queue, e: Event): Queue {
    match e
    case Completed(op) => Perform(q, op)
    case Killed(op, left, posts) => Opened(left)
  }

  ghost predicate PossibleRun(q: Queue, events: seq<Event>)
    decreases |events|
  {
    events == [] || (Possible(q, events[0]) && PossibleRun(Next(q, events[0]), events[1..]))
  }

  ghost function RunWith(q: Queue, events: seq<Event>): Queue
    decreases |events|
  {
    if events == [] then q else RunWith(Next(q, events[0]), events[1..])
  }

  /** Opening any readable disk gives a sound store. */
  lemma OpenedIsSound(d: Disk<QueueFile>)
    requires Readable(d) && Inv(Recover(d, EmptyFile).value)
    ensures Sound(Opened(d)) && Stored(Opened(d)) == Opened(d).file
  {
    FollowsItself(Recover(d, EmptyFile).value);
  }

  lemma NextIsSound(q: Queue, e: Event)
    requires Sound(q) && Possible(q, e)
    ensures Sound(Next(q, e)) && Conserves(Stored(q), Stored(Next(q, e)))
  {
    match e
    case Completed(op) => PerformIsSound(q, op);
    case Killed(op, left, posts) =>
      KillKeepsIff(q, op, left, posts);
      OpenedIsSound(left);
  }

  /** Whatever was saved is neither lost nor changed illegally by any run of operations, failing saves and kills. */
  lemma {:induction false} SavedOutlivesKills(q: Queue, events: seq<Event>)
    requires Sound(q) && PossibleRun(q, events)
    ensures Sound(RunWith(q, events)) && Conserves(Stored(q), Stored(RunWith(q, events)))
    decreases |events|
  {
    FollowsItself(Stored(q));
    if events != [] {
      var t := Next(q, events[0]);
      NextIsSound(q, events[0]);
      SavedOutlivesKills(t, events[1..]);
      ConservesTransitive(Stored(q), Stored(t), Stored(RunWith(q, events)));
    }
  }

  predicate SameMessage(m: Message, n: Message) {
    m.id == n.id && m.friendId == n.friendId && m.onion == n.onion && m.createdAt == n.createdAt
  }

  /** The message is in memory and on disk at `i`, as the one it was. */
  ghost predicate IsKeptAt(q: Queue, m: Message, i: nat)
    requires Sound(q)
  {
    && i < |q.file.messages| && SameMessage(q.file.messages[i], m)
    && i < |Stored(q).messages| && SameMessage(Stored(q).messages[i], m)
  }

  /**
   A message whose enqueue reported success is still stored, as itself, after any
   run with kills at any file step and reopening; and once a save has recorded it
   delivered, it stays exactly as it was then.
   */
  lemma EnqueuedIsNeverLost(
    q: Queue, input: EnqueueInput, onion: string, freshId: string, now: int, io: SaveIo, events: seq<Event>)
    requires Sound(q) && Spares(q, io)
    requires EnqueueSpec(q, input, onion, freshId, now, io).1.Ok?
    requires PossibleRun(EnqueueSpec(q, input, onion, freshId, now, io).0, events)
    ensures var (q1, r) := EnqueueSpec(q, input, onion, freshId, now, io);
            Sound(RunWith(q1, events)) && exists i :: IsKeptAt(RunWith(q1, events), r.value, i)
  {
    var (q1, r) := EnqueueSpec(q, input, onion, freshId, now, io);
    EnqueueIsSound(q, input, onion, freshId, now, io);
    var i :| 0 <= i < |Stored(q1).messages| && q1.file.messages[i] == r.value;
    SavedOutlivesKills(q1, events);
    var t := RunWith(q1, events);
    assert MayBecome(Stored(q1).messages[i], q1.file.messages[i]);
    assert MayBecome(Stored(q1).messages[i], Stored(t).messages[i]);
    assert MayBecome(Stored(t).messages[i], t.file.messages[i]);
    assert IsKeptAt(t, r.value, i);
  }

  lemma SavedDeliveryIsFinal(q: Queue, events: seq<Event>, i: nat)
    requires Sound(q) && PossibleRun(q, events)
    requires i < |Stored(q).messages| && Stored(q).messages[i].status.Delivered?
    ensures var t := RunWith(q, events);
            && Sound(t) && i < |Stored(t).messages| && i < |t.file.messages|
            && Stored(t).messages[i] == t.file.messages[i] == Stored(q).messages[i]
  {
    SavedOutlivesKills(q, events);
    var t := RunWith(q, events);
    assert MayBecome(Stored(q).messages[i], Stored(t).messages[i]);
    assert MayBecome(Stored(t).messages[i], t.file.messages[i]);
  }
}
