/** Bounded work across kills: a message is posted at most 15 times, however often the worker is killed and started again. */
module QueueWork {
  import opened Wrappers
  import opened QueueDisk
  import opened QueueSpec
  import opened QueueRuns
  import opened QueueCrashes

  function WorkAt(messages: seq<Message>, i: nat): int {
    if i < |messages| then Work(messages[i]) else 0
  }

  function Max(a: int, b: int): int { if a < b then b else a }

  /** The larger of the work two lists have left for each of the first `n` messages, added up. */
  function Larger(a: seq<Message>, b: seq<Message>, n: nat): int {
    if n == 0 then 0 else Larger(a, b, n - 1) + Max(WorkAt(a, n - 1), WorkAt(b, n - 1))
  }

  /** For each message, the larger of the work left in memory and on disk. */
  function WorkLeft(q: Queue): int
    requires Readable(q.disk)
  {
    Larger(q.file.messages, Stored(q).messages, |q.file.messages|)
  }

  lemma {:induction false} LargerIsMonotone(a: seq<Message>, b: seq<Message>, c: seq<Message>, d: seq<Message>, n: nat)
    requires forall i: nat | i < n :: Max(WorkAt(a, i), WorkAt(b, i)) <= Max(WorkAt(c, i), WorkAt(d, i))
    ensures Larger(a, b, n) <= Larger(c, d, n)
  {
    if n > 0 { LargerIsMonotone(a, b, c, d, n - 1); }
  }

  lemma {:induction false} LargerOfSame(a: seq<Message>, n: nat)
    requires n <= |a|
    ensures Larger(a, a, n) == TotalWork(a[..n])
  {
    if n > 0 {
      LargerOfSame(a, n - 1);
      assert a[..n][..n - 1] == a[..n - 1];
    }
  }

  ghost predicate AllOkay(messages: seq<Message>) {
    forall i | 0 <= i < |messages| :: MessageOk(messages[i])
  }

  lemma WorkIsNat(messages: seq<Message>, i: nat)
    requires AllOkay(messages)
    ensures 0 <= WorkAt(messages, i) <= MAX_ATTEMPTS
  {
    if i < |messages| { assert MessageOk(messages[i]); }
  }

  lemma {:induction false} LargerGrows(a: seq<Message>, b: seq<Message>, m: nat, n: nat)
    requires m <= n && AllOkay(a) && AllOkay(b)
    ensures Larger(a, b, m) <= Larger(a, b, n) <= Larger(a, b, m) + MAX_ATTEMPTS * (n - m)
    decreases n - m
  {
    if m < n {
      LargerGrows(a, b, m, n - 1);
      WorkIsNat(a, n - 1);
      WorkIsNat(b, n - 1);
    }
  }

  /** Neither list alone has more work left than the larger of the two. */
  lemma EachIsCovered(mem: seq<Message>, saved: seq<Message>)
    requires AllOkay(mem) && AllOkay(saved) && |saved| <= |mem|
    ensures TotalWork(mem) <= Larger(mem, saved, |mem|)
    ensures TotalWork(saved) <= Larger(mem, saved, |mem|)
  {
    LargerOfSame(mem, |mem|);
    LargerOfSame(saved, |saved|);
    assert mem[..|mem|] == mem && saved[..|saved|] == saved;
    LargerIsMonotone(mem, mem, mem, saved, |mem|);
    LargerIsMonotone(saved, saved, mem, saved, |saved|);
    LargerGrows(mem, saved, |saved|, |mem|);
  }

  lemma SoundIsCovered(q: Queue)
    requires Sound(q)
    ensures TotalWork(q.file.messages) <= WorkLeft(q) && TotalWork(Stored(q).messages) <= WorkLeft(q)
    ensures 0 <= WorkLeft(q) <= MAX_ATTEMPTS * |q.file.messages|
  {
    var mem, saved := q.file.messages, Stored(q).messages;
    assert AllOkay(mem) && AllOkay(saved);
    EachIsCovered(mem, saved);
    LargerGrows(mem, saved, 0, |mem|);
  }

  lemma SameIsTotal(q: Queue)
    requires Readable(q.disk) && Stored(q).messages == q.file.messages
    ensures WorkLeft(q) == TotalWork(q.file.messages)
  {
    LargerOfSame(q.file.messages, |q.file.messages|);
    assert q.file.messages[..|q.file.messages|] == q.file.messages;
  }

  // ---- one save ----

  /** A save adds no work: after it, and after a kill at any step of it. */
  lemma PersistAddsNoWork(q: Queue, io: SaveIo)
    requires Sound(q) && Spares(q, io)
    ensures var t := Persist(q, io).0;
            Sound(t) && t.file == q.file && WorkLeft(t) <= WorkLeft(q)
  {
    PersistIsSound(q, io);
    SoundIsCovered(q);
    var (t, ok) := Persist(q, io);
    if ok { SameIsTotal(t); }
  }

  lemma PassesAddsNoWork(q: Queue, io: SaveIo, d: Disk<QueueFile>)
    requires Sound(q) && PersistPasses(q, io, d)
    ensures Readable(d) && WorkLeft(Opened(d)) <= WorkLeft(q)
  {
    SaveFinds(q, io);
    SoundIsCovered(q);
    var k :| 0 <= k <= |SaveSpec(q.disk, q.file, io).disks| && d == DiskAt(q.disk, SaveSpec(q.disk, q.file, io), k);
    assert FindsEither(Stored(q), q.file, d);
    SameIsTotal(Opened(d));
  }

  // ---- one message ----

  /** Claiming a due message adds no work; once that is saved, its post is paid for. */
  lemma FirstIsPaid(q: Queue, k: nat, w: World)
    requires Sound(q) && k < |q.file.messages| && q.file.messages[k].status.Pending?
    ensures var id := q.file.messages[k].id;
            && Sound(Claimed(q, id, w)) && WorkLeft(Claimed(q, id, w)) <= WorkLeft(q)
  {
    var m := q.file.messages[k];
    ClaimedFollows(q, k, w);
    TryTouchesOne(q, k, w);
    var c := WithStatus(m, InFlight, w.clock(m.id, Claiming));
    var claimed := q.file.messages[k := c];
    assert Claimed(q, m.id, w).file.messages == claimed;
    assert MessageOk(m);
    LargerIsMonotone(claimed, Stored(q).messages, q.file.messages, Stored(q).messages, |claimed|);
  }

  lemma PostIsPaid(q: Queue, k: nat, w: World)
    requires Sound(q) && k < |q.file.messages| && q.file.messages[k].status.Pending?
    requires Claim(q, q.file.messages[k].id, w).1 && Spares(Claimed(q, q.file.messages[k].id, w), w.io(q.file.messages[k].id, Claiming))
    ensures var id := q.file.messages[k].id;
            var settled := Settled(Claim(q, id, w).0, id, w);
            Sound(settled) && WorkLeft(settled) + 1 <= WorkLeft(q)
  {
    var m := q.file.messages[k];
    SettledFollows(q, k, w);
    TryTouchesOne(q, k, w);
    TryProgresses(q, k, w);
    SoundIsCovered(q);
    var settled := Settled(Claim(q, m.id, w).0, m.id, w);
    var mem, saved := settled.file.messages, Stored(settled).messages;
    assert saved == q.file.messages[k := WithStatus(m, InFlight, w.clock(m.id, Claiming))];
    assert mem == q.file.messages[k := Tried(m, w)];
    ClaimedAddsNothing(q.file.messages, k, saved[k], mem[k]);
  }

  /** Next to a list that has no work at `k`, a list that differs only there has just its own. */
  lemma ClaimedAddsNothing(messages: seq<Message>, k: nat, claimed: Message, tried: Message)
    requires k < |messages| && Work(claimed) == 0 && AllOkay(messages[k := tried])
    ensures Larger(messages[k := tried], messages[k := claimed], |messages|) <= TotalWork(messages[k := tried])
  {
    var mem, saved := messages[k := tried], messages[k := claimed];
    WorkIsNat(mem, k);
    LargerIsMonotone(mem, saved, mem, mem, |mem|);
    LargerOfSame(mem, |mem|);
    assert mem[..|mem|] == mem;
  }

  lemma FirstPays(q: Queue, pending: seq<Message>, w: World)
    requires Sound(q) && DueIn(pending, q.file.messages) && pending != [] && FirstSpares(q, pending, w)
    ensures var (claimed, claimSaved) := Claim(q, pending[0].id, w);
            var settled := AfterFirst(q, pending, w);
            && Sound(claimed) && WorkLeft(claimed) <= WorkLeft(q)
            && (claimSaved ==> Sound(settled) && WorkLeft(settled) + 1 <= WorkLeft(q) && DueIn(pending[1..], settled.file.messages))
  {
    var k := FirstIsPending(q, pending);
    var id := pending[0].id;
    FirstIsSound(q, pending, w);
    FirstIsPaid(q, k, w);
    PersistAddsNoWork(Claimed(q, id, w), w.io(id, Claiming));
    if Claim(q, id, w).1 {
      PostIsPaid(q, k, w);
      PersistAddsNoWork(Settled(Claim(q, id, w).0, id, w), w.io(id, Settling));
    }
  }

  lemma FirstPassesPays(q: Queue, pending: seq<Message>, w: World, d: Disk<QueueFile>, posts: nat)
    requires Sound(q) && DueIn(pending, q.file.messages) && pending != [] && FirstSpares(q, pending, w)
    requires FirstPasses(q, pending, w, d, posts)
    ensures Readable(d) && WorkLeft(Opened(d)) + posts <= WorkLeft(q)
  {
    var k := FirstIsPending(q, pending);
    var id := pending[0].id;
    if posts == 0 {
      FirstIsPaid(q, k, w);
      PassesAddsNoWork(Claimed(q, id, w), w.io(id, Claiming), d);
    } else {
      PostIsPaid(q, k, w);
      PassesAddsNoWork(Settled(Claim(q, id, w).0, id, w), w.io(id, Settling), d);
    }
  }

  // ---- one flush ----

  lemma {:induction false} BatchPays(q: Queue, pending: seq<Message>, w: World)
    requires Sound(q) && DueIn(pending, q.file.messages) && BatchSpares(q, pending, w)
    ensures var f := FlushMessages(q, pending, w); Sound(f.queue) && WorkLeft(f.queue) + |f.posted| <= WorkLeft(q)
    decreases |pending|
  {
    if pending != [] {
      FirstPays(q, pending, w);
      BatchUnfolds(q, pending, w);
      if GoesOn(q, pending, w) { BatchPays(AfterFirst(q, pending, w), pending[1..], w); }
    }
  }

  lemma BatchUnfolds(q: Queue, pending: seq<Message>, w: World)
    requires pending != []
    ensures var f := FlushMessages(q, pending, w);
            var claimed := Claim(q, pending[0].id, w);
            if !claimed.1 then f.queue == claimed.0 && f.posted == []
            else if !GoesOn(q, pending, w) then f.queue == AfterFirst(q, pending, w) && |f.posted| == 1
            else
              var rest := FlushMessages(AfterFirst(q, pending, w), pending[1..], w);
              f.queue == rest.queue && |f.posted| == 1 + |rest.posted|
  {}

  lemma NowOrLater(q: Queue, pending: seq<Message>, w: World, d: Disk<QueueFile>, posts: nat) returns (now: bool)
    requires LeavesDisk(q, pending, w, d, posts)
    ensures pending != []
    ensures now ==> FirstPasses(q, pending, w, d, posts)
    ensures !now ==> GoesOn(q, pending, w) && posts > 0 && LeavesDisk(AfterFirst(q, pending, w), pending[1..], w, d, posts - 1)
  {
    now := FirstPasses(q, pending, w, d, posts);
  }

  lemma {:induction false} BatchPassesPays(q: Queue, pending: seq<Message>, w: World, d: Disk<QueueFile>, posts: nat)
    requires Sound(q) && DueIn(pending, q.file.messages) && BatchSpares(q, pending, w)
    requires LeavesDisk(q, pending, w, d, posts)
    ensures Readable(d) && WorkLeft(Opened(d)) + posts <= WorkLeft(q)
    decreases |pending|, 0
  {
    var now := NowOrLater(q, pending, w, d, posts);
    if now {
      FirstPassesPays(q, pending, w, d, posts);
    } else {
      FirstPays(q, pending, w);
      LaterPays(q, AfterFirst(q, pending, w), pending[1..], w, d, posts - 1);
    }
  }

  lemma {:induction false} LaterPays(q: Queue, settled: Queue, rest: seq<Message>, w: World, d: Disk<QueueFile>, posts: nat)
    requires Sound(q) && Sound(settled) && WorkLeft(settled) + 1 <= WorkLeft(q)
    requires DueIn(rest, settled.file.messages) && BatchSpares(settled, rest, w) && LeavesDisk(settled, rest, w, d, posts)
    ensures Readable(d) && WorkLeft(Opened(d)) + posts + 1 <= WorkLeft(q)
    decreases |rest|, 1
  {
    BatchPassesPays(settled, rest, w, d, posts);
  }

  lemma FirstFriendPays(q: Queue, friends: seq<Friend>, now: int, w: World)
    requires Sound(q) && friends != [] && BatchSpares(q, FirstBatch(q, friends, now), w)
    ensures DueIn(FirstBatch(q, friends, now), q.file.messages)
    ensures var f := FirstFlushed(q, friends, now, w); Sound(f.queue) && WorkLeft(f.queue) + |f.posted| <= WorkLeft(q)
  {
    PendingIsDue(q.file.messages, friends[0].friendId, now);
    BatchPays(q, FirstBatch(q, friends, now), w);
  }

  lemma {:induction false} FlushPays(q: Queue, friends: seq<Friend>, now: int, w: World)
    requires Sound(q) && FlushSpares(q, friends, now, w)
    ensures var f := FlushFriends(q, friends, now, w); Sound(f.queue) && WorkLeft(f.queue) + |f.posted| <= WorkLeft(q)
    decreases |friends|
  {
    if friends != [] {
      FirstFriendPays(q, friends, now, w);
      FlushPays(FirstFlushed(q, friends, now, w).queue, friends[1..], now, w);
    }
  }

  lemma ShareIsPaid(q: Queue, friends: seq<Friend>, n: nat, now: int, w: World)
    requires Sound(q) && FlushSpares(q, friends, now, w) && n < |friends|
    ensures var f := FlushedUpTo(q, friends, n, now, w); Sound(f.queue) && WorkLeft(f.queue) + |f.posted| <= WorkLeft(q)
  {
    SparesUpTo(q, friends, n, now, w);
    FlushPays(q, friends[..n], now, w);
  }

  lemma FlushPassesPays(q: Queue, friends: seq<Friend>, now: int, w: World, d: Disk<QueueFile>, posts: nat)
    requires Sound(q) && FlushSpares(q, friends, now, w)
    ensures FlushPasses(q, friends, now, w, d, posts) ==> Readable(d) && WorkLeft(Opened(d)) + posts <= WorkLeft(q)
  {
    if FlushPasses(q, friends, now, w, d, posts) {
      var n, late: nat :| 0 <= n < |friends| && ShareOfPasses(q, friends, n, now, w, d, late)
                          && posts == |FlushedUpTo(q, friends, n, now, w).posted| + late;
      var before := ShareIsSound(q, friends, n, now, w);
      ShareIsPaid(q, friends, n, now, w);
      BatchPassesPays(before, FirstBatch(before, friends[n..], now), w, d, late);
    }
  }

  // ---- runs with kills ----

  ghost function PostsIn(q: Queue, e: Event): nat {
    match e
    case Killed(op, left, posts) => posts
    case Completed(op) => if op.Flush? then |FlushSpec(q, op.proxySet, op.now, op.world).posted| else 0
  }

  ghost function PostsWith(q: Queue, events: seq<Event>): nat
    decreases |events|
  {
    if events == [] then 0 else PostsIn(q, events[0]) + PostsWith(Next(q, events[0]), events[1..])
  }

  lemma CompletedPays(q: Queue, op: Op)
    requires Sound(q) && OpSpares(q, op) && !op.Enqueue?
    ensures Sound(Perform(q, op)) && WorkLeft(Perform(q, op)) + PostsIn(q, Completed(op)) <= WorkLeft(q)
  {
    match op
    case SetFriends(given, normalize, io) =>
      SetFriendsIsSound(q, given, normalize, io);
      SetFriendsKeeps(q, given, normalize, io);
      PersistAddsNoWork(q.(file := Perform(q, op).file), io);
    case Flush(proxySet, now, w) => if proxySet { FlushPays(q, q.file.friends, now, w); }
  }

  lemma KilledPays(q: Queue, op: Op, left: Disk<QueueFile>, posts: nat)
    requires Sound(q) && OpSpares(q, op) && !op.Enqueue?
    ensures Passes(q, op, left, posts) ==> Readable(left) && WorkLeft(Opened(left)) + posts <= WorkLeft(q)
  {
    if !Passes(q, op, left, posts) {
    } else if left == q.disk && posts == 0 {
      SoundIsCovered(q);
      SameIsTotal(Opened(left));
    } else {
      match op
      case SetFriends(given, normalize, io) =>
        SetFriendsIsSound(q, given, normalize, io);
        SetFriendsKeeps(q, given, normalize, io);
        PassesAddsNoWork(q.(file := Perform(q, op).file), io, left);
      case Flush(proxySet, now, w) => FlushPassesPays(q, q.file.friends, now, w, left, posts);
    }
  }

  /**
   Without an enqueue, any run of operations, failing saves, kills and reopening
   posts at most once for each unit of work left, in memory or on disk, so at
   most 15 times a message: a claim is saved before its post.
   */
  lemma {:induction false} PostsAreBoundedAcrossKills(q: Queue, events: seq<Event>)
    requires Sound(q) && PossibleRun(q, events)
    requires forall e | e in events :: !e.op.Enqueue?
    ensures Sound(RunWith(q, events))
    ensures PostsWith(q, events) + WorkLeft(RunWith(q, events)) <= WorkLeft(q) <= MAX_ATTEMPTS * |q.file.messages|
    ensures WorkLeft(RunWith(q, events)) >= 0
    decreases |events|
  {
    SoundIsCovered(q);
    if events != [] {
      var e := events[0];
      assert e in events;
      NextIsSound(q, e);
      match e {
        case Completed(op) => CompletedPays(q, op);
        case Killed(op, left, posts) => KilledPays(q, op, left, posts);
      }
      PostsAreBoundedAcrossKills(Next(q, e), events[1..]);
    }
  }
}
