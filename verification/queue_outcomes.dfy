/** What each operation of the queue makes of its messages and routes, field by field. */
module QueueOutcomes {
  import opened Wrappers
  import opened StringOrder
  import StableSort
  import opened QueueDisk
  import opened QueueSpec
  import opened QueueRuns
  import opened QueueFlush

  // ---- a save ----

  /** A save succeeds exactly if the new file is written and put in place, and the current one, if it is seen, steps aside. */
  lemma SaveSucceedsIff<S>(d: Disk<S>, state: S, io: SaveIo)
    ensures SaveSpec(d, state, io).ok <==>
            && io.mkdirOk && io.writeOk && io.renameTempOk
            && (d.main.Missing? || !io.statOk || io.renameCurrentOk)
  {}

  /**
   A successful save leaves the new state as the main file, nothing at the
   temporary path, and no backup, if that can be removed. A failed one leaves the
   main file as it was, unless neither the new nor the old could be put there.
   */
  lemma SaveLeaves<S>(d: Disk<S>, state: S, io: SaveIo)
    ensures var t, ok := Saved(d, SaveSpec(d, state, io)), SaveSpec(d, state, io).ok;
            && (ok ==> t.main == Whole(state) && t.temp == Missing && (io.cleanupOk ==> t.backup == Missing))
            && (!ok && !Stranded(d, io) ==> t.main == d.main)
            && (Stranded(d, io) ==> !ok && t.main == Missing && t.backup == d.main)
  {}

  // ---- a failed delivery ----

  function Smaller(a: int, b: int): int { if a < b then a else b }

  /** How long to wait after the `n`th failed attempt: doubling from the code's base, up to its cap. */
  function WaitAfter(code: string, n: int): int {
    var doubled := if n <= 1 then 1 else if n == 2 then 2 else if n == 3 then 4 else if n == 4 then 8
                   else if n == 5 then 16 else if n == 6 then 32 else 64;
    if code == "onion_service_refused" then Smaller(1_000 * doubled, 30_000)
    else if code == "proxy_unreachable" || code == "proxy_connect_timeout" then Smaller(2_000 * doubled, 60_000)
    else if code == "onion_descriptor_unavailable" then Smaller(5_000 * doubled, 120_000)
    else Smaller(3_000 * doubled, 120_000)
  }

  predicate SameIdentity(m: Message, n: Message) {
    n.id == m.id && n.friendId == m.friendId && n.onion == m.onion && n.createdAt == m.createdAt
  }

  /** `n` is `m` after a failed delivery, recorded at `now`. */
  predicate HasFailed(m: Message, n: Message, failure: Failure, now: int) {
    && SameIdentity(m, n) && n.payload == m.payload && n.deliveredAt == m.deliveredAt
    && n.attempts == m.attempts + 1 && n.lastError == failure.code && n.updatedAt == now
    && (n.status == Failed <==> failure.permanent || m.attempts + 1 >= 15)
    && (n.status == Failed ==> n.failedAt == now && n.nextAttemptAt == 0)
    && (n.status != Failed ==>
          n.status == Pending && n.failedAt == m.failedAt && n.nextAttemptAt == now + WaitAfter(failure.code, m.attempts + 1))
  }

  /** `n` is `m` after a delivery, recorded at `now`. */
  predicate IsDelivered(m: Message, n: Message, now: int) {
    && SameIdentity(m, n) && n.status == Delivered && n.payload == "" && n.deliveredAt == now && n.updatedAt == now
    && n.attempts == m.attempts && n.lastError == "" && n.nextAttemptAt == 0 && n.failedAt == m.failedAt
  }

  lemma PowersOfTwo()
    ensures Pow2(0) == 1 && Pow2(1) == 2 && Pow2(2) == 4 && Pow2(3) == 8 && Pow2(4) == 16 && Pow2(5) == 32 && Pow2(6) == 64
  {
    assert Pow2(1) == 2 * Pow2(0) && Pow2(2) == 2 * Pow2(1) && Pow2(3) == 2 * Pow2(2);
    assert Pow2(4) == 2 * Pow2(3) && Pow2(5) == 2 * Pow2(4) && Pow2(6) == 2 * Pow2(5);
  }

  lemma FailureOutcome(m: Message, failure: Failure, now: int)
    requires m.attempts >= 0
    ensures HasFailed(m, AfterFailure(m, failure, now), failure, now)
  {
    PowersOfTwo();
  }

  lemma TriedOutcome(m: Message, w: World)
    requires m.attempts >= 0
    ensures match w.post(m.id)
            case None => IsDelivered(m, Tried(m, w), w.clock(m.id, Settling))
            case Some(failure) => HasFailed(m, Tried(m, w), failure, w.clock(m.id, Settling))
  {
    var claimed := WithStatus(m, InFlight, w.clock(m.id, Claiming));
    if w.post(m.id).Some? { FailureOutcome(claimed, w.post(m.id).value, w.clock(m.id, Settling)); }
  }

  /**
   A flush with successful saves, message by message: one that was posted is
   delivered, or has failed; it is FAILED exactly if the failure is permanent or
   this was its 15th attempt, and otherwise waits as its code says. One that was
   not posted is untouched.
   */
  lemma FlushOutcome(q: Queue, now: int, w: World, i: nat)
    requires SavesSucceed(w) && Inv(q.file) && i < |q.file.messages|
    ensures var f := FlushSpec(q, true, now, w);
            var m := q.file.messages[i];
            && |f.queue.file.messages| == |q.file.messages|
            && var n := f.queue.file.messages[i];
            if m.id !in f.posted then n == m
            else
              && m.status == Pending && m.nextAttemptAt <= now && 0 <= m.attempts < 15
              && match w.post(m.id)
                 case None => IsDelivered(m, n, w.clock(m.id, Settling))
                 case Some(failure) => HasFailed(m, n, failure, w.clock(m.id, Settling))
  {
    var f := FlushSpec(q, true, now, w);
    FlushExactly(q, q.file.friends, now, w);
    assert MessageOk(q.file.messages[i]);
    TriedOutcome(q.file.messages[i], w);
    if q.file.messages[i].id in f.posted { PostedWasDue(q.file.messages, q.file.friends, now, w, i); }
  }

  lemma {:induction false} PostedWasDue(messages: seq<Message>, friends: seq<Friend>, now: int, w: World, i: nat)
    requires DistinctIds(messages) && i < |messages| && messages[i].id in Posts(messages, friends, now, w)
    ensures messages[i].status == Pending && messages[i].nextAttemptAt <= now
  {
    if messages[i].id in Ids(Through(PendingForFriend(messages, friends[0].friendId, now), w)) {
      PostedIsDue(messages, friends[0].friendId, now, w, i);
    } else {
      PostedWasDue(messages, friends[1..], now, w, i);
    }
  }

  // ---- what is not pending is left alone ----

  /** The message at `i` is not due for anything, and no other carries its id. */
  ghost predicate Rests(messages: seq<Message>, i: nat) {
    i < |messages| && !messages[i].status.Pending?
  }

  lemma {:induction false} BatchLeavesAlone(q: Queue, pending: seq<Message>, w: World, i: nat)
    requires Inv(q.file) && DueIn(pending, q.file.messages) && Rests(q.file.messages, i)
    ensures var f := FlushMessages(q, pending, w);
            && i < |f.queue.file.messages| && f.queue.file.messages[i] == q.file.messages[i]
            && q.file.messages[i].id !in f.posted
    decreases |pending|
  {
    if pending != [] {
      FlushMessagesCases(q, pending, w);
      var settled := FirstLeavesAlone(q, pending, w, i);
      BatchLeavesAlone(settled, pending[1..], w, i);
    }
  }

  lemma FirstLeavesAlone(q: Queue, pending: seq<Message>, w: World, i: nat) returns (settled: Queue)
    requires Inv(q.file) && DueIn(pending, q.file.messages) && Rests(q.file.messages, i) && pending != []
    ensures pending[0].id != q.file.messages[i].id
    ensures var claimed := Claim(q, pending[0].id, w).0;
            && i < |claimed.file.messages| && claimed.file.messages[i] == q.file.messages[i]
            && settled == Settle(claimed, pending[0].id, w).0
            && i < |settled.file.messages| && settled.file.messages[i] == q.file.messages[i]
    ensures Inv(settled.file) && DueIn(pending[1..], settled.file.messages)
  {
    var k := FirstIsElsewhere(q, pending, i);
    TryTouchesOne(q, k, w);
    settled := FirstProgresses(q, pending, w);
  }

  lemma FirstIsElsewhere(q: Queue, pending: seq<Message>, i: nat) returns (k: nat)
    requires Inv(q.file) && DueIn(pending, q.file.messages) && Rests(q.file.messages, i) && pending != []
    ensures k < |q.file.messages| && q.file.messages[k] == pending[0] && k != i && pending[0].id != q.file.messages[i].id
  {
    assert pending[0] in pending;
    k :| 0 <= k < |q.file.messages| && q.file.messages[k] == pending[0];
    if k < i {} else if i < k {}
  }

  lemma {:induction false} FlushLeavesAlone(q: Queue, friends: seq<Friend>, now: int, w: World, i: nat)
    requires Inv(q.file) && Rests(q.file.messages, i)
    ensures var f := FlushFriends(q, friends, now, w);
            && i < |f.queue.file.messages| && f.queue.file.messages[i] == q.file.messages[i]
            && q.file.messages[i].id !in f.posted
    decreases |friends|
  {
    if friends != [] {
      var pending := PendingForFriend(q.file.messages, friends[0].friendId, now);
      PendingIsDue(q.file.messages, friends[0].friendId, now);
      FlushMessagesProgresses(q, pending, w);
      BatchLeavesAlone(q, pending, w, i);
      FlushLeavesAlone(FlushMessages(q, pending, w).queue, friends[1..], now, w, i);
    }
  }

  /** Somewhere in the run a flush posts `id`. */
  ghost predicate IsPosted(q: Queue, ops: seq<Op>, id: string)
    decreases |ops|
  {
    ops != [] &&
    (|| (ops[0].Flush? && id in FlushSpec(q, ops[0].proxySet, ops[0].now, ops[0].world).posted)
     || IsPosted(Perform(q, ops[0]), ops[1..], id))
  }

  /** A message that is not pending, such as one that failed for good, is neither changed nor posted by any run without an enqueue. */
  lemma {:induction false} RestingIsNeverPosted(q: Queue, ops: seq<Op>, i: nat)
    requires Inv(q.file) && Rests(q.file.messages, i) && forall op | op in ops :: !op.Enqueue?
    ensures var t := RunOf(q, ops).file.messages; i < |t| && t[i] == q.file.messages[i]
    ensures !IsPosted(q, ops, q.file.messages[i].id)
    decreases |ops|
  {
    if ops != [] {
      assert ops[0] in ops;
      PerformKeeps(q, ops[0]);
      match ops[0] {
        case SetFriends(given, normalize, io) => SetFriendsKeeps(q, given, normalize, io);
        case Flush(proxySet, now, w) => if proxySet { FlushLeavesAlone(q, q.file.friends, now, w, i); }
        case Enqueue(_, _, _, _, _) => assert false;
      }
      RestingIsNeverPosted(Perform(q, ops[0]), ops[1..], i);
    }
  }

  /** A message refused permanently in a flush is FAILED after it, and no later run posts it again without an enqueue. */
  lemma PermanentFailureIsFinal(q: Queue, now: int, w: World, i: nat, later: seq<Op>)
    requires SavesSucceed(w) && Inv(q.file) && i < |q.file.messages|
    requires var id := q.file.messages[i].id;
             id in FlushSpec(q, true, now, w).posted && w.post(id).Some? && w.post(id).value.permanent
    requires forall op | op in later :: !op.Enqueue?
    ensures var t := FlushSpec(q, true, now, w).queue;
            && i < |t.file.messages| && t.file.messages[i].status == Failed
            && i < |RunOf(t, later).file.messages| && RunOf(t, later).file.messages[i] == t.file.messages[i]
            && !IsPosted(t, later, q.file.messages[i].id)
  {
    FlushOutcome(q, now, w, i);
    FlushProgresses(q, true, now, w);
    RestingIsNeverPosted(FlushSpec(q, true, now, w).queue, later, i);
  }

  // ---- a friend's batch ----

  predicate DueNow(m: Message, friendId: string, now: int) {
    m.friendId == friendId && m.status == Pending && m.nextAttemptAt <= now
  }

  /** `i` was created before `j`, or at the same time and stored before it. */
  predicate StoredBefore(messages: seq<Message>, i: nat, j: nat)
    requires i < |messages| && j < |messages|
  {
    messages[i].createdAt < messages[j].createdAt || (messages[i].createdAt == messages[j].createdAt && i < j)
  }

  /** `places` are the positions of the due messages, in order. */
  ghost predicate ArePlaces(places: seq<nat>, messages: seq<Message>, friendId: string, now: int, due: seq<Message>) {
    && |places| == |due|
    && (forall k | 0 <= k < |places| ::
          places[k] < |messages| && DueNow(messages[places[k]], friendId, now) && due[k] == messages[places[k]])
    && (forall j, k | 0 <= j < k < |places| :: places[j] < places[k])
    && forall i: nat {:trigger i in places} | i < |messages| && DueNow(messages[i], friendId, now) :: i in places
  }

  lemma PlacesOfOneMore(places: seq<nat>, messages: seq<Message>, friendId: string, now: int, due: seq<Message>)
    requires messages != [] && ArePlaces(places, messages[..|messages| - 1], friendId, now, due)
    ensures var last := |messages| - 1;
            if DueNow(messages[last], friendId, now) then ArePlaces(places + [last], messages, friendId, now, due + [messages[last]])
            else ArePlaces(places, messages, friendId, now, due)
  {
    var last := |messages| - 1;
    var front := messages[..last];
    forall i: nat | i < |messages| && DueNow(messages[i], friendId, now) ensures i in places + [last] && (i < last ==> i in places) {
      if i < last { assert DueNow(front[i], friendId, now); }
    }
  }

  lemma {:induction false} DuePlaces(messages: seq<Message>, friendId: string, now: int) returns (places: seq<nat>)
    ensures ArePlaces(places, messages, friendId, now, Due(messages, friendId, now))
  {
    places := [];
    if messages != [] {
      var last := |messages| - 1;
      var front := DuePlaces(messages[..last], friendId, now);
      PlacesOfOneMore(front, messages, friendId, now, Due(messages[..last], friendId, now));
      places := if DueNow(messages[last], friendId, now) then front + [last] else front;
    }
  }

  /** `places` are the positions of a friend's due messages, oldest first, ties in the order they were stored. */
  ghost predicate BatchPlaces(places: seq<nat>, messages: seq<Message>, friendId: string, now: int) {
    && (forall k | 0 <= k < |places| :: places[k] < |messages| && DueNow(messages[places[k]], friendId, now))
    && (forall j, k | 0 <= j < k < |places| :: StoredBefore(messages, places[j], places[k]))
    && forall i: nat {:trigger i in places} | i < |messages| && DueNow(messages[i], friendId, now) :: i in places
  }

  /** The batch, by where its messages are stored: exactly the friend's due messages, in that order. */
  lemma BatchInOrder(messages: seq<Message>, friendId: string, now: int) returns (places: seq<nat>)
    ensures BatchPlaces(places, messages, friendId, now)
    ensures var batch := PendingForFriend(messages, friendId, now);
            |places| == |batch| && forall k | 0 <= k < |places| :: batch[k] == messages[places[k]]
  {
    var due := Due(messages, friendId, now);
    var at := DuePlaces(messages, friendId, now);
    OlderIsOrder(due);
    var sorted := StableSort.SortPlaces(Older, due);
    places := seq(|sorted|, k requires 0 <= k < |sorted| => at[sorted[k]]);
    SortedPlaces(messages, friendId, now, due, at, sorted, places);
  }

  lemma SortedPlaces(
    messages: seq<Message>, friendId: string, now: int, due: seq<Message>, at: seq<nat>, sorted: seq<nat>, places: seq<nat>)
    requires ArePlaces(at, messages, friendId, now, due) && StableSort.InOrder(Older, due, sorted)
    requires |places| == |sorted| && forall k | 0 <= k < |places| :: sorted[k] < |at| && places[k] == at[sorted[k]]
    requires forall i: nat {:trigger i in sorted} | i < |due| :: i in sorted
    ensures BatchPlaces(places, messages, friendId, now)
  {
    forall j, k | 0 <= j < k < |places| ensures StoredBefore(messages, places[j], places[k]) {
      assert StableSort.GoesBefore(Older, due, sorted[j], sorted[k]);
    }
    forall i: nat | i < |messages| && DueNow(messages[i], friendId, now) ensures i in places {
      assert i in at;
      var n: nat :| n < |at| && at[n] == i;
      assert n in sorted;
      var k :| 0 <= k < |sorted| && sorted[k] == n;
      assert places[k] == i;
    }
  }

  // ---- enqueue ----

  predicate IsRefused(input: EnqueueInput, onion: string) {
    input.friendId == "" || input.payload == "" || |onion| < 6 || onion[|onion| - 6..] != ".onion"
  }

  /** A message just taken in. */
  predicate IsNew(m: Message, id: string, input: EnqueueInput, onion: string, now: int) {
    && m.id == id && m.friendId == input.friendId && m.onion == onion && m.payload == input.payload
    && m.createdAt == (if input.createdAt > 0 then input.createdAt else now)
    && m.status == Pending && m.attempts == 0 && m.nextAttemptAt == now && m.updatedAt == now
    && m.deliveredAt == 0 && m.failedAt == 0 && m.lastError == ""
  }

  /** A known message put back to be delivered as if new. */
  predicate IsRevived(m: Message, n: Message, now: int) {
    && SameIdentity(m, n) && n.payload == m.payload && n.deliveredAt == m.deliveredAt
    && n.status == Pending && n.attempts == 0 && n.nextAttemptAt == now && n.updatedAt == now
    && n.failedAt == 0 && n.lastError == ""
  }

  /** `after` is `before` with this friend's route, new or in its old place, and every other as it was. */
  ghost predicate HasRoute(before: seq<Friend>, after: seq<Friend>, friendId: string, onion: string) {
    && |before| <= |after| <= |before| + 1
    && (forall i | 0 <= i < |before| ::
          after[i] == if before[i].friendId == friendId then Friend(friendId, onion) else before[i])
    && (|after| == |before| <==> Known(before, friendId))
    && (|after| > |before| ==> after[|before|] == Friend(friendId, onion))
  }

  lemma RouteOutcome(friends: seq<Friend>, friendId: string, onion: string)
    ensures HasRoute(friends, WithRoute(friends, friendId, onion), friendId, onion)
  {
    if Known(friends, friendId) {
      var i :| 0 <= i < |friends| && friends[i].friendId == friendId;
      assert friends[i] in friends;
    }
    if exists f :: f in friends && f.friendId == friendId {
      var f :| f in friends && f.friendId == friendId;
      var i :| 0 <= i < |friends| && friends[i] == f;
    }
  }

  /** The first message with this id is at `i`. */
  predicate FirstAt(messages: seq<Message>, id: string, i: int) {
    0 <= i < |messages| && messages[i].id == id && forall j | 0 <= j < i :: messages[j].id != id
  }

  predicate IsUnknown(messages: seq<Message>, id: string) {
    forall i | 0 <= i < |messages| :: messages[i].id != id
  }

  /** The answer of an enqueue that leaves the file `after`, with message `i` to report if it could be saved. */
  predicate Reports(q: Queue, after: QueueFile, i: nat, io: SaveIo, t: Queue, r: Result<Message>) {
    var (saved, ok) := Persist(q.(file := after), io);
    t == saved && i < |after.messages| && r == if ok then Ok(after.messages[i]) else Err("io_error")
  }

  lemma KnownOutcome(q: Queue, id: string, i: nat, input: EnqueueInput, onion: string, now: int, io: SaveIo)
    requires FirstAt(q.file.messages, id, i)
    ensures var (t, r) := EnqueueAs(q, id, input, onion, now, io);
            var before, after := q.file.messages, t.file.messages;
            if before[i].status == Delivered then t == q && r == Ok(before[i])
            else
              && t.file.friends == q.file.friends && |after| == |before| && after == before[i := after[i]]
              && IsRevived(before[i], after[i], now) && Reports(q, t.file, i, io, t, r)
  {
    assert IndexOf(q.file.messages, id) == i;
  }

  lemma UnknownOutcome(q: Queue, id: string, input: EnqueueInput, onion: string, now: int, io: SaveIo)
    requires IsUnknown(q.file.messages, id)
    ensures var (t, r) := EnqueueAs(q, id, input, onion, now, io);
            var before, after := q.file.messages, t.file.messages;
            && |after| == |before| + 1 && after[..|before|] == before && IsNew(after[|before|], id, input, onion, now)
            && HasRoute(q.file.friends, t.file.friends, input.friendId, onion)
            && Reports(q, t.file, |before|, io, t, r)
  {
    RouteOutcome(q.file.friends, input.friendId, onion);
    assert IndexOf(q.file.messages, id) == |q.file.messages|;
  }

  lemma RefusalOutcome(q: Queue, input: EnqueueInput, onion: string, freshId: string, now: int, io: SaveIo)
    ensures var (t, r) := EnqueueSpec(q, input, onion, freshId, now, io);
            if IsRefused(input, onion) then t == q && r == Err("invalid_friend_onion_route")
            else (t, r) == EnqueueAs(q, if input.id == "" then freshId else input.id, input, onion, now, io)
  {}

  /**
   What an enqueue makes of the queue. A bad route or an empty payload changes
   nothing; a message known by its id is left alone if delivered, and otherwise
   put back as if new; an unknown one is added as given, with its friend's route.
   */
  lemma EnqueueOutcome(q: Queue, input: EnqueueInput, onion: string, freshId: string, now: int, io: SaveIo)
    ensures var (t, r) := EnqueueSpec(q, input, onion, freshId, now, io);
            IsRefused(input, onion) ==> t == q && r == Err("invalid_friend_onion_route")
    ensures var (t, r) := EnqueueSpec(q, input, onion, freshId, now, io);
            var id := if input.id == "" then freshId else input.id;
            var before, after := q.file.messages, t.file.messages;
            !IsRefused(input, onion) ==>
              && (forall i: nat | FirstAt(before, id, i) && before[i].status == Delivered :: t == q && r == Ok(before[i]))
              && (forall i: nat | FirstAt(before, id, i) && before[i].status != Delivered ::
                    && t.file.friends == q.file.friends && |after| == |before| && after == before[i := after[i]]
                    && IsRevived(before[i], after[i], now) && Reports(q, t.file, i, io, t, r))
              && (IsUnknown(before, id) ==>
                    && |after| == |before| + 1 && after[..|before|] == before && IsNew(after[|before|], id, input, onion, now)
                    && HasRoute(q.file.friends, t.file.friends, input.friendId, onion)
                    && Reports(q, t.file, |before|, io, t, r))
  {
    RefusalOutcome(q, input, onion, freshId, now, io);
    var id := if input.id == "" then freshId else input.id;
    forall i: nat | FirstAt(q.file.messages, id, i)
      ensures var (t, r) := EnqueueAs(q, id, input, onion, now, io);
              var before, after := q.file.messages, t.file.messages;
              if before[i].status == Delivered then t == q && r == Ok(before[i])
              else
                && t.file.friends == q.file.friends && |after| == |before| && after == before[i := after[i]]
                && IsRevived(before[i], after[i], now) && Reports(q, t.file, i, io, t, r)
    {
      KnownOutcome(q, id, i, input, onion, now, io);
    }
    if IsUnknown(q.file.messages, id) { UnknownOutcome(q, id, input, onion, now, io); }
  }

  // ---- routes ----

  /** The last valid one of the given routes for this friend. */
  ghost predicate LastGiven(normal: seq<Friend>, friendId: string, i: int) {
    && 0 <= i < |normal| && normal[i].friendId == friendId && ValidFriend(normal[i])
    && forall j | i < j < |normal| && ValidFriend(normal[j]) :: normal[j].friendId != friendId
  }

  ghost predicate NoneGiven(normal: seq<Friend>, friendId: string) {
    forall j | 0 <= j < |normal| && ValidFriend(normal[j]) :: normal[j].friendId != friendId
  }

  lemma {:induction false} MapLooksUp(friends: seq<Friend>, i: nat)
    requires DistinctFriends(friends) && i < |friends|
    ensures friends[i].friendId in FriendMap(friends) && FriendMap(friends)[friends[i].friendId] == friends[i]
  {
    var last := |friends| - 1;
    if i < last { MapLooksUp(friends[..last], i); }
  }

  lemma {:induction false} MapHasOnly(friends: seq<Friend>, friendId: string)
    ensures friendId in FriendMap(friends) <==> Known(friends, friendId)
  {
    if friends != [] {
      var last := |friends| - 1;
      MapHasOnly(friends[..last], friendId);
      if friends[last].friendId == friendId { assert Known(friends, friendId); }
      if Known(friends[..last], friendId) {
        var i :| 0 <= i < |friends[..last]| && friends[..last][i].friendId == friendId;
        assert friends[i].friendId == friendId;
      }
    }
  }

  lemma LastOfShorter(normal: seq<Friend>, n: nat, friendId: string)
    requires n < |normal|
    ensures forall i | LastGiven(normal[..n + 1], friendId, i) && i < n ::
              LastGiven(normal[..n], friendId, i) && !(ValidFriend(normal[n]) && normal[n].friendId == friendId)
    ensures NoneGiven(normal[..n + 1], friendId) ==>
              NoneGiven(normal[..n], friendId) && !(ValidFriend(normal[n]) && normal[n].friendId == friendId)
  {
    var now, before := normal[..n + 1], normal[..n];
    assert now[n] == normal[n] && forall j | 0 <= j < n :: now[j] == before[j];
  }

  /** What the merged map has for one friend: the last valid route given for it. */
  lemma {:induction false} MergedGiven(known: seq<Friend>, normal: seq<Friend>, n: nat, friendId: string, i: nat)
    requires n <= |normal| && LastGiven(normal[..n], friendId, i)
    ensures var m := FriendMap(known + ValidOnes(normal[..n])); friendId in m && m[friendId] == normal[i]
  {
    MergeOneMore(known, normal, n - 1);
    if i < n - 1 {
      LastOfShorter(normal, n - 1, friendId);
      MergedGiven(known, normal, n - 1, friendId, i);
    }
  }

  /** Or else what was known. */
  lemma {:induction false} MergedKnown(known: seq<Friend>, normal: seq<Friend>, n: nat, friendId: string)
    requires n <= |normal| && NoneGiven(normal[..n], friendId)
    ensures var m, k := FriendMap(known + ValidOnes(normal[..n])), FriendMap(known);
            (friendId in m <==> friendId in k) && (friendId in m ==> m[friendId] == k[friendId])
  {
    if n == 0 {
      assert known + ValidOnes(normal[..0]) == known;
    } else {
      LastOfShorter(normal, n - 1, friendId);
      MergedKnown(known, normal, n - 1, friendId);
      MergeOneMore(known, normal, n - 1);
    }
  }

  /**
   The routes after a `setFriends`, by friend: the last valid one given, under its
   normalized onion; otherwise the one known before; and no others, in the order
   of the ids.
   */
  lemma RoutesOutcome(q: Queue, given: seq<Friend>, normalize: string -> string, io: SaveIo)
    requires DistinctFriends(q.file.friends)
    ensures var known, after := q.file.friends, SetFriendsSpec(q, given, normalize, io).0.file.friends;
            var normal := Normalized(given, normalize);
            && SetFriendsSpec(q, given, normalize, io).0.file.messages == q.file.messages
            && (forall i, j | 0 <= i < j < |after| :: LexLess(after[i].friendId, after[j].friendId))
            && (forall i, friendId | LastGiven(normal, friendId, i) :: Friend(friendId, normalize(given[i].onion)) in after)
            && (forall i | 0 <= i < |known| && NoneGiven(normal, known[i].friendId) :: known[i] in after)
            && (forall f | f in after :: Known(known, f.friendId) || !NoneGiven(normal, f.friendId))
  {
    var known, normal := q.file.friends, Normalized(given, normalize);
    var byId := Merged(known, given, normalize);
    var after := Listing(byId);
    FriendMapKeyed(known + ValidOnes(normal));
    ListingLists(byId);
    assert normal[..|normal|] == normal;
    forall i, friendId | LastGiven(normal, friendId, i) ensures Friend(friendId, normalize(given[i].onion)) in after {
      MergedGiven(known, normal, |normal|, friendId, i);
      assert byId[friendId] == normal[i];
    }
    forall i | 0 <= i < |known| && NoneGiven(normal, known[i].friendId) ensures known[i] in after {
      MergedKnown(known, normal, |normal|, known[i].friendId);
      MapLooksUp(known, i);
    }
    forall f | f in after ensures Known(known, f.friendId) || !NoneGiven(normal, f.friendId) {
      if NoneGiven(normal, f.friendId) { MergedKnown(known, normal, |normal|, f.friendId); }
      MapHasOnly(known, f.friendId);
    }
    forall i, j | 0 <= i < j < |after| ensures LexLess(after[i].friendId, after[j].friendId) {
      assert FriendLess(after[i], after[j]);
    }
  }
}
