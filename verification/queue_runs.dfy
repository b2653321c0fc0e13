/** What every operation of the queue keeps, and what one flush does, whatever the network and the disk do. */
module QueueRuns {
  import opened Wrappers
  import opened StringOrder
  import StableSort
  import opened QueueDisk
  import opened QueueSpec

  // ---- the invariant ----

  ghost predicate DistinctIds(messages: seq<Message>) {
    forall i, j | 0 <= i < j < |messages| :: messages[i].id != messages[j].id
  }

  ghost predicate DistinctFriends(friends: seq<Friend>) {
    forall i, j | 0 <= i < j < |friends| :: friends[i].friendId != friends[j].friendId
  }

  ghost predicate Known(friends: seq<Friend>, friendId: string) {
    exists i :: 0 <= i < |friends| && friends[i].friendId == friendId
  }

  predicate MessageOk(m: Message) {
    && 0 <= m.attempts <= MAX_ATTEMPTS
    && (m.status.Pending? || m.status.InFlight? ==> m.attempts < MAX_ATTEMPTS)
    && (m.payload == "" <==> m.status.Delivered?)
  }

  ghost predicate Inv(file: QueueFile) {
    && DistinctIds(file.messages)
    && DistinctFriends(file.friends)
    && forall i | 0 <= i < |file.messages| :: MessageOk(file.messages[i]) && Known(file.friends, file.messages[i].friendId)
  }

  /** How a stored message may change: its identity never; once delivered, nothing; its payload only by delivery. */
  predicate MayBecome(m: Message, n: Message) {
    && n.id == m.id && n.friendId == m.friendId && n.onion == m.onion && n.createdAt == m.createdAt
    && (m.status.Delivered? ==> n == m)
    && n.payload == (if n.status.Delivered? then "" else m.payload)
  }

  /** No message and no friend of `a` is missing from `b`. */
  ghost predicate Conserves(a: QueueFile, b: QueueFile) {
    && |a.messages| <= |b.messages|
    && (forall i | 0 <= i < |a.messages| :: MayBecome(a.messages[i], b.messages[i]))
    && (forall friendId | Known(a.friends, friendId) :: Known(b.friends, friendId))
  }

  lemma ConservesTransitive(a: QueueFile, b: QueueFile, c: QueueFile)
    requires Conserves(a, b) && Conserves(b, c)
    ensures Conserves(a, c)
  {
    forall i | 0 <= i < |a.messages| ensures MayBecome(a.messages[i], c.messages[i]) {
      assert MayBecome(a.messages[i], b.messages[i]) && MayBecome(b.messages[i], c.messages[i]);
    }
  }

  // ---- the work left ----

  function Work(m: Message): int {
    if m.status == Pending then MAX_ATTEMPTS - m.attempts else 0
  }

  function TotalWork(messages: seq<Message>): int {
    if messages == [] then 0 else TotalWork(messages[..|messages| - 1]) + Work(messages[|messages| - 1])
  }

  function DeliveredCount(messages: seq<Message>): int {
    if messages == [] then 0
    else DeliveredCount(messages[..|messages| - 1]) + if messages[|messages| - 1].status == Delivered then 1 else 0
  }

  lemma {:induction false} TotalsAfterUpdate(messages: seq<Message>, k: nat, m: Message)
    requires k < |messages|
    ensures TotalWork(messages[k := m]) == TotalWork(messages) - Work(messages[k]) + Work(m)
    ensures DeliveredCount(messages[k := m]) == DeliveredCount(messages)
         - (if messages[k].status == Delivered then 1 else 0) + (if m.status == Delivered then 1 else 0)
  {
    var last := |messages| - 1;
    if k < last {
      TotalsAfterUpdate(messages[..last], k, m);
      assert messages[k := m][..last] == messages[..last][k := m];
    } else {
      assert messages[k := m][..last] == messages[..last];
    }
  }

  lemma {:induction false} WorkIsBounded(messages: seq<Message>)
    requires forall i | 0 <= i < |messages| :: MessageOk(messages[i])
    ensures 0 <= TotalWork(messages) <= MAX_ATTEMPTS * |messages|
  {
    if messages != [] { WorkIsBounded(messages[..|messages| - 1]); }
  }

  // ---- one message ----

  /** Message `m` after its delivery was tried: claimed, then delivered or failed. */
  function Tried(m: Message, w: World): Message {
    var claimed := WithStatus(m, InFlight, w.clock(m.id, Claiming));
    match w.post(m.id)
    case None => WithStatus(claimed, Delivered, w.clock(m.id, Settling))
    case Some(failure) => AfterFailure(claimed, failure, w.clock(m.id, Settling))
  }

  lemma IndexOfUnique(messages: seq<Message>, k: nat)
    requires DistinctIds(messages) && k < |messages|
    ensures IndexOf(messages, messages[k].id) == k
  {
    var i := IndexOf(messages, messages[k].id);
    assert i <= k;
    assert messages[i].id == messages[k].id;
  }

  /** With distinct ids, the patch loops touch one message. */
  lemma TryTouchesOne(q: Queue, k: nat, w: World)
    requires DistinctIds(q.file.messages) && k < |q.file.messages|
    ensures var m := q.file.messages[k];
            var claimed := Claim(q, m.id, w).0;
            && claimed.file == q.file.(messages := q.file.messages[k := WithStatus(m, InFlight, w.clock(m.id, Claiming))])
            && Settle(claimed, m.id, w).0.file == q.file.(messages := q.file.messages[k := Tried(m, w)])
  {
    var messages := q.file.messages;
    var m := messages[k];
    var claimed := Claim(q, m.id, w).0;
    var c := WithStatus(m, InFlight, w.clock(m.id, Claiming));
    forall i | 0 <= i < |messages| && i != k ensures messages[i].id != m.id {
      if i < k {} else {}
    }
    assert claimed.file.messages == messages[k := c];
    assert DistinctIds(messages[k := c]);
    IndexOfUnique(messages[k := c], k);
    if w.post(m.id).None? {
      assert Settle(claimed, m.id, w).0.file.messages == messages[k := Tried(m, w)];
    }
  }

  /** Replacing one message by a legal successor keeps the invariant and loses nothing. */
  lemma UpdateKeeps(file: QueueFile, k: nat, m: Message)
    requires Inv(file) && k < |file.messages|
    requires MayBecome(file.messages[k], m) && MessageOk(m)
    ensures var after := file.(messages := file.messages[k := m]); Inv(after) && Conserves(file, after)
  {
    var after := file.(messages := file.messages[k := m]);
    forall i | 0 <= i < |file.messages| ensures MayBecome(file.messages[i], after.messages[i]) {
      if i != k { assert MessageOk(file.messages[i]); }
    }
  }

  ghost predicate DueIn(pending: seq<Message>, messages: seq<Message>) {
    && DistinctIds(pending)
    && forall m | m in pending :: m in messages && m.status.Pending?
  }

  lemma DueStays(pending: seq<Message>, messages: seq<Message>, k: nat, m: Message)
    requires DueIn(pending, messages) && pending != [] && DistinctIds(messages)
    requires k < |messages| && messages[k] == pending[0]
    ensures DueIn(pending[1..], messages[k := m])
  {
    forall p | p in pending[1..] ensures p in messages[k := m] && p.status.Pending? {
      var i :| 0 <= i < |pending[1..]| && pending[1..][i] == p;
      assert pending[i + 1] == p && p.id != pending[0].id;
      assert p in pending;
      var j :| 0 <= j < |messages| && messages[j] == p;
      assert messages[k := m][j] == p;
    }
  }

  /** `b` follows `a` with nothing lost, and each of `posts` deliveries paid for in work. */
  ghost predicate Progress(a: QueueFile, b: QueueFile, posts: nat) {
    && Inv(b) && Conserves(a, b)
    && b.friends == a.friends && |b.messages| == |a.messages|
    && TotalWork(b.messages) + posts <= TotalWork(a.messages)
  }

  lemma ProgressAdds(a: QueueFile, b: QueueFile, c: QueueFile, m: nat, n: nat)
    requires Progress(a, b, m) && Progress(b, c, n)
    ensures Progress(a, c, m + n)
  {
    ConservesTransitive(a, b, c);
  }

  lemma TryProgresses(q: Queue, k: nat, w: World)
    requires Inv(q.file) && k < |q.file.messages| && q.file.messages[k].status.Pending?
    ensures var claimed := Claim(q, q.file.messages[k].id, w).0;
            && Progress(q.file, claimed.file, 0)
            && Progress(q.file, Settle(claimed, q.file.messages[k].id, w).0.file, 1)
  {
    var m := q.file.messages[k];
    assert MessageOk(m);
    TryTouchesOne(q, k, w);
    var c := WithStatus(m, InFlight, w.clock(m.id, Claiming));
    UpdateKeeps(q.file, k, c);
    UpdateKeeps(q.file, k, Tried(m, w));
    TotalsAfterUpdate(q.file.messages, k, c);
    TotalsAfterUpdate(q.file.messages, k, Tried(m, w));
  }

  /** The three ways trying the first message can go: its claim is not saved, the batch stops after it, or the rest is tried. */
  lemma FlushMessagesCases(q: Queue, pending: seq<Message>, w: World)
    requires pending != []
    ensures var f := FlushMessages(q, pending, w);
            var claimed := Claim(q, pending[0].id, w).0;
            var settled := Settle(claimed, pending[0].id, w).0;
            var rest := FlushMessages(settled, pending[1..], w);
            || (f.queue == claimed && f.posted == [] && f.delivered == 0)
            || (f.queue == settled && f.posted == [pending[0].id] && f.delivered == 0)
            || (w.post(pending[0].id).None? && f == After([pending[0].id], 1, rest))
  {}

  /** Trying messages, with saves and deliveries ending any way: nothing is lost, and every post uses up work. */
  lemma {:induction false} FlushMessagesProgresses(q: Queue, pending: seq<Message>, w: World)
    requires Inv(q.file) && DueIn(pending, q.file.messages)
    ensures var f := FlushMessages(q, pending, w); Progress(q.file, f.queue.file, |f.posted|)
    decreases |pending|
  {
    if pending == [] {
      assert Progress(q.file, q.file, 0);
    } else {
      FlushMessagesCases(q, pending, w);
      var settled := FirstProgresses(q, pending, w);
      FlushMessagesProgresses(settled, pending[1..], w);
      var rest := FlushMessages(settled, pending[1..], w);
      ProgressAdds(q.file, settled.file, rest.queue.file, 1, |rest.posted|);
    }
  }

  lemma FirstProgresses(q: Queue, pending: seq<Message>, w: World) returns (settled: Queue)
    requires Inv(q.file) && DueIn(pending, q.file.messages) && pending != []
    ensures var claimed := Claim(q, pending[0].id, w).0;
            && Progress(q.file, claimed.file, 0)
            && settled == Settle(claimed, pending[0].id, w).0
            && Progress(q.file, settled.file, 1)
            && DueIn(pending[1..], settled.file.messages)
  {
    assert pending[0] in pending;
    var k :| 0 <= k < |q.file.messages| && q.file.messages[k] == pending[0];
    TryTouchesOne(q, k, w);
    TryProgresses(q, k, w);
    DueStays(pending, q.file.messages, k, Tried(pending[0], w));
    settled := Settle(Claim(q, pending[0].id, w).0, pending[0].id, w).0;
  }

  // ---- the due messages of a friend ----

  lemma {:induction false} DueMembers(messages: seq<Message>, friendId: string, now: int)
    ensures forall m :: m in Due(messages, friendId, now) <==> m in messages && IsDue(m, friendId, now)
    ensures DistinctIds(messages) ==> DistinctIds(Due(messages, friendId, now))
  {
    if messages != [] {
      var front := messages[..|messages| - 1];
      DueMembers(front, friendId, now);
      assert messages == front + [messages[|messages| - 1]];
      var d := Due(front, friendId, now);
      if DistinctIds(messages) {
        forall i | 0 <= i < |d| ensures d[i].id != messages[|messages| - 1].id {
          assert d[i] in front;
        }
      }
    }
  }

  lemma OlderIsOrder(messages: seq<Message>)
    ensures StableSort.StrictWeakOrder(Older, messages)
  {}

  lemma DistinctIsUnordered(a: seq<Message>, b: seq<Message>)
    requires multiset(a) == multiset(b) && DistinctIds(a)
    ensures DistinctIds(b)
  {
    forall i, j | 0 <= i < j < |b| ensures b[i].id != b[j].id {
      assert b[i] in multiset(a) && b[j] in multiset(a);
      var x :| 0 <= x < |a| && a[x] == b[i];
      var y :| 0 <= y < |a| && a[y] == b[j];
      if x == y {
        TwiceInSeq(b, i, j);
        OnceInDistinct(a, x);
      }
    }
  }

  lemma TwiceInSeq<T>(s: seq<T>, i: nat, j: nat)
    requires i < j < |s| && s[i] == s[j]
    ensures multiset(s)[s[i]] >= 2
  {
    assert s == s[..i] + [s[i]] + s[i + 1..j] + [s[j]] + s[j + 1..];
  }

  lemma OnceInDistinct(a: seq<Message>, x: nat)
    requires DistinctIds(a) && x < |a|
    ensures multiset(a)[a[x]] == 1
  {
    assert a == a[..x] + [a[x]] + a[x + 1..];
    assert a[x] !in a[..x] && a[x] !in a[x + 1..];
  }

  /** A friend's batch: exactly the due messages of that friend, oldest first, ties in the order they were stored. */
  lemma PendingIsDue(messages: seq<Message>, friendId: string, now: int)
    requires DistinctIds(messages)
    ensures var pending := PendingForFriend(messages, friendId, now);
            && (forall m :: m in pending <==> m in messages && IsDue(m, friendId, now))
            && DueIn(pending, messages)
            && StableSort.IsStableSort(Older, Due(messages, friendId, now), pending)
  {
    var due := Due(messages, friendId, now);
    DueMembers(messages, friendId, now);
    OlderIsOrder(due);
    StableSort.SortIsStable(Older, due, due);
    StableSort.SortKeepsElements(Older, due);
    DistinctIsUnordered(due, PendingForFriend(messages, friendId, now));
  }

  // ---- a whole flush, whatever fails ----

  lemma {:induction false} FlushFriendsProgresses(q: Queue, friends: seq<Friend>, now: int, w: World)
    requires Inv(q.file)
    ensures var f := FlushFriends(q, friends, now, w); Progress(q.file, f.queue.file, |f.posted|)
    decreases |friends|
  {
    if friends == [] {
      assert Progress(q.file, q.file, 0);
    } else {
      var pending := PendingForFriend(q.file.messages, friends[0].friendId, now);
      PendingIsDue(q.file.messages, friends[0].friendId, now);
      FlushMessagesProgresses(q, pending, w);
      var first := FlushMessages(q, pending, w);
      FlushFriendsProgresses(first.queue, friends[1..], now, w);
      var rest := FlushFriends(first.queue, friends[1..], now, w);
      ProgressAdds(q.file, first.queue.file, rest.queue.file, |first.posted|, |rest.posted|);
    }
  }

  // ---- the other operations ----

  /** The list a `setFriends` leaves, whatever order the routes are taken from the map in. */
  ghost function Listing(byId: map<string, Friend>): seq<Friend>
    decreases |byId|
  {
    if byId == map[] then []
    else
      var id := AnyKey(byId);
      StableSort.Insert(FriendLess, byId[id], Listing(byId - {id}))
  }

  ghost predicate Keyed(byId: map<string, Friend>) {
    forall id | id in byId :: byId[id].friendId == id
  }

  lemma {:induction false} InsertLists(f: Friend, friends: seq<Friend>, byId: map<string, Friend>)
    requires Lists(friends, byId) && Keyed(byId) && f.friendId !in byId
    ensures Lists(StableSort.Insert(FriendLess, f, friends), byId[f.friendId := f])
    decreases |friends|
  {
    EmptyLists(friends, byId);
    if friends == [] {
    } else if FriendLess(friends[0], f) {
      var g := friends[0];
      assert g in friends;
      ListsTail(friends, byId);
      InsertLists(f, friends[1..], byId - {g.friendId});
      InsertAbove(f, friends, byId);
      assert (byId - {g.friendId})[f.friendId := f][g.friendId := g] == byId[f.friendId := f];
      ConsLists(g, StableSort.Insert(FriendLess, f, friends[1..]), (byId - {g.friendId})[f.friendId := f]);
    } else {
      BelowAll(f, friends, byId);
      ConsLists(f, friends, byId);
    }
  }

  lemma BelowAll(f: Friend, friends: seq<Friend>, byId: map<string, Friend>)
    requires Lists(friends, byId) && friends != [] && f.friendId !in byId && !FriendLess(friends[0], f)
    ensures forall h | h in friends :: FriendLess(f, h)
  {
    var g := friends[0];
    assert g in friends;
    LexTrichotomy(f.friendId, g.friendId);
    forall h | h in friends ensures FriendLess(f, h) {
      var i :| 0 <= i < |friends| && friends[i] == h;
      if i > 0 {
        assert FriendLess(g, h);
        LexTransitive(f.friendId, g.friendId, h.friendId);
      }
    }
  }

  lemma ConsLists(f: Friend, friends: seq<Friend>, byId: map<string, Friend>)
    requires Lists(friends, byId) && f.friendId !in byId
    requires forall h | h in friends :: FriendLess(f, h)
    ensures Lists([f] + friends, byId[f.friendId := f])
  {
    var r := [f] + friends;
    var more := byId[f.friendId := f];
    forall id | id in more ensures more[id] in r {
      if id == f.friendId { assert r[0] == f; } else { assert byId[id] in friends; }
    }
    forall i, j | 0 <= i < j < |r| ensures FriendLess(r[i], r[j]) {
      if i == 0 { assert r[j] in friends; } else {}
    }
  }

  lemma ListsTail(friends: seq<Friend>, byId: map<string, Friend>)
    requires Lists(friends, byId) && Keyed(byId) && friends != []
    ensures Lists(friends[1..], byId - {friends[0].friendId})
  {
    var rest := friends[1..];
    forall h | h in rest ensures h.friendId in byId - {friends[0].friendId} {
      var i :| 0 <= i < |rest| && rest[i] == h;
      assert FriendLess(friends[0], friends[i + 1]);
      LexTrichotomy(friends[0].friendId, h.friendId);
    }
    forall id | id in byId - {friends[0].friendId} ensures byId[id] in rest {
      assert byId[id] in friends && byId[id].friendId == id;
    }
  }

  lemma InsertAbove(f: Friend, friends: seq<Friend>, byId: map<string, Friend>)
    requires Lists(friends, byId) && friends != [] && FriendLess(friends[0], f)
    ensures forall h | h in StableSort.Insert(FriendLess, f, friends[1..]) :: FriendLess(friends[0], h)
  {
    var t := StableSort.Insert(FriendLess, f, friends[1..]);
    StableSort.InsertKeepsElements(FriendLess, f, friends[1..]);
    forall h | h in t ensures FriendLess(friends[0], h) {
      assert h in multiset(t);
      if h != f {
        assert h in friends[1..];
        var i :| 0 <= i < |friends[1..]| && friends[1..][i] == h;
        assert FriendLess(friends[0], friends[i + 1]);
      }
    }
  }

  lemma TakenAndPutBack(byId: map<string, Friend>, id: string)
    requires id in byId
    ensures (byId - {id})[id := byId[id]] == byId && |byId - {id}| < |byId|
  {
    assert (byId - {id}).Keys == byId.Keys - {id};
  }

  lemma {:induction false} ListingLists(byId: map<string, Friend>)
    requires Keyed(byId)
    ensures Lists(Listing(byId), byId)
    decreases |byId|
  {
    if byId != map[] {
      var id := AnyKey(byId);
      ListingLists(byId - {id});
      InsertLists(byId[id], Listing(byId - {id}), byId - {id});
      TakenAndPutBack(byId, id);
    }
  }

  lemma EmptyLists(a: seq<Friend>, byId: map<string, Friend>)
    requires Lists(a, byId)
    ensures a == [] <==> byId == map[]
  {
    assert a != [] ==> a[0] in a;
    assert forall id | id in byId :: byId[id] in a;
  }

  /** The sorted listing is unique: the order a Go map is ranged over cannot show. */
  lemma {:induction false} ListsIsUnique(a: seq<Friend>, b: seq<Friend>, byId: map<string, Friend>)
    requires Keyed(byId) && Lists(a, byId) && Lists(b, byId)
    ensures a == b
    decreases |a|
  {
    EmptyLists(a, byId);
    EmptyLists(b, byId);
    if a != [] {
      SameFirst(a, b, byId);
      ListsTail(a, byId);
      ListsTail(b, byId);
      ListsIsUnique(a[1..], b[1..], byId - {a[0].friendId});
      assert a == [a[0]] + a[1..] && b == [b[0]] + b[1..];
    }
  }

  lemma SameFirst(a: seq<Friend>, b: seq<Friend>, byId: map<string, Friend>)
    requires Keyed(byId) && Lists(a, byId) && Lists(b, byId) && a != [] && b != []
    ensures a[0] == b[0]
  {
    assert a[0] in a && b[0] in b;
    assert byId[b[0].friendId] in a && byId[a[0].friendId] in b;
    LexTrichotomy(a[0].friendId, b[0].friendId);
  }

  ghost function SetFriendsSpec(q: Queue, given: seq<Friend>, normalize: string -> string, io: SaveIo): (Queue, bool) {
    Persist(q.(file := q.file.(friends := Listing(Merged(q.file.friends, given, normalize)))), io)
  }

  lemma {:induction false} FriendMapKeyed(friends: seq<Friend>)
    ensures Keyed(FriendMap(friends))
    ensures forall i | 0 <= i < |friends| :: friends[i].friendId in FriendMap(friends)
  {
    if friends != [] { FriendMapKeyed(friends[..|friends| - 1]); }
  }

  lemma SetFriendsKeeps(q: Queue, given: seq<Friend>, normalize: string -> string, io: SaveIo)
    requires Inv(q.file)
    ensures var after := SetFriendsSpec(q, given, normalize, io).0.file;
            Inv(after) && Conserves(q.file, after) && after.messages == q.file.messages
  {
    var all := q.file.friends + ValidOnes(Normalized(given, normalize));
    var byId := FriendMap(all);
    var friends := Listing(byId);
    FriendMapKeyed(all);
    ListingLists(byId);
    forall id | id in byId ensures Known(friends, id) {
      assert byId[id] in friends;
    }
    forall i, j | 0 <= i < j < |friends| ensures friends[i].friendId != friends[j].friendId {
      LexTrichotomy(friends[i].friendId, friends[j].friendId);
    }
    forall i | 0 <= i < |q.file.friends| ensures Known(friends, q.file.friends[i].friendId) {
      assert all[i] == q.file.friends[i];
    }
    forall i | 0 <= i < |q.file.messages| ensures Known(friends, q.file.messages[i].friendId) {
      assert Known(q.file.friends, q.file.messages[i].friendId);
    }
  }

  lemma NewMessageKeeps(file: QueueFile, m: Message)
    requires Inv(file) && MessageOk(m) && IndexOf(file.messages, m.id) == |file.messages|
    ensures Inv(WithMessage(file, m)) && Conserves(file, WithMessage(file, m))
    ensures m in WithMessage(file, m).messages
  {
    var after := WithMessage(file, m);
    RouteAdded(file.friends, m.friendId, m.onion);
    forall i | 0 <= i < |file.friends| ensures Known(after.friends, file.friends[i].friendId) {
      assert after.friends[i].friendId == file.friends[i].friendId;
    }
    forall i | 0 <= i < |file.messages| ensures Known(after.friends, file.messages[i].friendId) {
      assert Known(file.friends, file.messages[i].friendId);
    }
    forall i | 0 <= i < |file.messages| ensures MayBecome(file.messages[i], after.messages[i]) {
      assert MessageOk(file.messages[i]);
    }
    assert after.messages[|file.messages|] == m;
  }

  lemma RevivedKeeps(file: QueueFile, k: nat, now: int)
    requires Inv(file) && k < |file.messages| && file.messages[k].status != Delivered
    ensures var revived := Revived(file.messages[k], now);
            var after := file.(messages := file.messages[k := revived]);
            Inv(after) && Conserves(file, after) && revived in after.messages
  {
    var revived := Revived(file.messages[k], now);
    assert MessageOk(file.messages[k]);
    UpdateKeeps(file, k, revived);
    assert file.messages[k := revived][k] == revived;
  }

  /** What an enqueue leaves in memory: nothing new, a message revived, or a message added with its route. */
  lemma EnqueueUnfolds(q: Queue, input: EnqueueInput, onion: string, freshId: string, now: int, io: SaveIo)
    ensures var (after, r) := EnqueueSpec(q, input, onion, freshId, now, io);
            var id := if input.id == "" then freshId else input.id;
            var k := IndexOf(q.file.messages, id);
            || (after == q && (r == Err("invalid_friend_onion_route") || (k < |q.file.messages| && r == Ok(q.file.messages[k]))))
            || (&& k < |q.file.messages| && q.file.messages[k].status != Delivered
                && after.file == q.file.(messages := q.file.messages[k := Revived(q.file.messages[k], now)])
                && (r.Ok? ==> r.value == Revived(q.file.messages[k], now)) && r != Err("invalid_friend_onion_route"))
            || (&& k == |q.file.messages| && input.payload != "" && after.file == WithMessage(q.file, NewMessage(input, onion, id, now))
                && (r.Ok? ==> r.value == NewMessage(input, onion, id, now)) && r != Err("invalid_friend_onion_route"))
  {}

  lemma EnqueueKeeps(q: Queue, input: EnqueueInput, onion: string, freshId: string, now: int, io: SaveIo)
    requires Inv(q.file)
    ensures var (after, r) := EnqueueSpec(q, input, onion, freshId, now, io);
            && Inv(after.file) && Conserves(q.file, after.file)
            && (r == Err("invalid_friend_onion_route") ==> after == q)
            && (r.Ok? ==> r.value in after.file.messages)
  {
    EnqueueUnfolds(q, input, onion, freshId, now, io);
    var id := if input.id == "" then freshId else input.id;
    var k := IndexOf(q.file.messages, id);
    if k == |q.file.messages| {
      if input.payload != "" { NewMessageKeeps(q.file, NewMessage(input, onion, id, now)); }
    } else if q.file.messages[k].status != Delivered {
      RevivedKeeps(q.file, k, now);
    }
  }

  lemma RouteAdded(friends: seq<Friend>, friendId: string, onion: string)
    requires DistinctFriends(friends)
    ensures var r := WithRoute(friends, friendId, onion); DistinctFriends(r) && Known(r, friendId)
  {
    var r := WithRoute(friends, friendId, onion);
    if |r| == |friends| {
      var f :| f in friends && f.friendId == friendId;
      var i :| 0 <= i < |friends| && friends[i] == f;
      assert r[i].friendId == friendId;
    } else {
      assert r[|friends|].friendId == friendId;
      forall i | 0 <= i < |friends| ensures friends[i].friendId != friendId {
        assert friends[i] in friends;
      }
    }
  }

  // ---- runs ----

  datatype Op =
    | SetFriends(given: seq<Friend>, normalize: string -> string, io: SaveIo)
    | Enqueue(input: EnqueueInput, onion: string, freshId: string, at: int, io: SaveIo)
    | Flush(proxySet: bool, now: int, world: World)

  ghost function Perform(q: Queue, op: Op): Queue {
    match op
    case SetFriends(given, normalize, io) => SetFriendsSpec(q, given, normalize, io).0
    case Enqueue(input, onion, freshId, at, io) => EnqueueSpec(q, input, onion, freshId, at, io).0
    case Flush(proxySet, now, w) => FlushSpec(q, proxySet, now, w).queue
  }

  ghost function RunOf(q: Queue, ops: seq<Op>): Queue
    decreases |ops|
  {
    if ops == [] then q else RunOf(Perform(q, ops[0]), ops[1..])
  }

  lemma FlushProgresses(q: Queue, proxySet: bool, now: int, w: World)
    requires Inv(q.file)
    ensures var f := FlushSpec(q, proxySet, now, w); Progress(q.file, f.queue.file, |f.posted|)
  {
    if proxySet {
      FlushFriendsProgresses(q, q.file.friends, now, w);
    } else {
      assert Progress(q.file, q.file, 0);
    }
  }

  lemma PerformKeeps(q: Queue, op: Op)
    requires Inv(q.file)
    ensures Inv(Perform(q, op).file) && Conserves(q.file, Perform(q, op).file)
  {
    match op
    case SetFriends(given, normalize, io) => SetFriendsKeeps(q, given, normalize, io);
    case Enqueue(input, onion, freshId, at, io) => EnqueueKeeps(q, input, onion, freshId, at, io);
    case Flush(proxySet, now, w) => FlushProgresses(q, proxySet, now, w);
  }

  /**
   Conservation: over any run from an empty store, with saves and deliveries
   ending any way, ids stay distinct, every message's friend is listed, a
   payload is gone exactly when delivered, and nothing stored is ever lost,
   moved, or, once delivered, changed.
   */
  lemma {:induction false} RunConserves(q: Queue, ops: seq<Op>)
    requires Inv(q.file)
    ensures Inv(RunOf(q, ops).file) && Conserves(q.file, RunOf(q, ops).file)
    decreases |ops|
  {
    if ops != [] {
      PerformKeeps(q, ops[0]);
      RunConserves(Perform(q, ops[0]), ops[1..]);
      ConservesTransitive(q.file, Perform(q, ops[0]).file, RunOf(q, ops).file);
    }
  }

  ghost function PostsOf(q: Queue, ops: seq<Op>): nat
    decreases |ops|
  {
    if ops == [] then 0
    else
      (if ops[0].Flush? then |FlushSpec(q, ops[0].proxySet, ops[0].now, ops[0].world).posted| else 0)
      + PostsOf(Perform(q, ops[0]), ops[1..])
  }

  /** Bounded work: without an enqueue, any run posts at most once for each unit of work left, so at most 15 times a message. */
  lemma {:induction false} PostsAreBounded(q: Queue, ops: seq<Op>)
    requires Inv(q.file)
    requires forall op | op in ops :: !op.Enqueue?
    ensures PostsOf(q, ops) + TotalWork(RunOf(q, ops).file.messages) <= TotalWork(q.file.messages)
    ensures PostsOf(q, ops) <= TotalWork(q.file.messages) <= MAX_ATTEMPTS * |q.file.messages|
    decreases |ops|
  {
    WorkIsBounded(q.file.messages);
    if ops != [] {
      PerformKeeps(q, ops[0]);
      match ops[0] {
        case SetFriends(given, normalize, io) => SetFriendsKeeps(q, given, normalize, io);
        case Flush(proxySet, now, w) => FlushProgresses(q, proxySet, now, w);
        case Enqueue(_, _, _, _, _) => assert ops[0] in ops;
      }
      PostsAreBounded(Perform(q, ops[0]), ops[1..]);
      RunConserves(q, ops);
      WorkIsBounded(RunOf(q, ops).file.messages);
    }
  }
}
