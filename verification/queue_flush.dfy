/** One flush whose saves succeed, in closed form: which messages are posted, in which order, and what becomes of each. */
module QueueFlush {
  import opened QueueDisk
  import opened QueueSpec
  import opened QueueRuns

  ghost predicate SavesSucceed(w: World) {
    forall id, phase :: w.io(id, phase) == AllOk
  }

  function Ids(messages: seq<Message>): (ids: seq<string>)
    ensures |ids| == |messages|
    ensures forall i | 0 <= i < |ids| :: ids[i] == messages[i].id
  {
    seq(|messages|, i requires 0 <= i < |messages| => messages[i].id)
  }

  /** A batch up to and including its first failed delivery. */
  function Through(batch: seq<Message>, w: World): seq<Message> {
    if batch == [] then []
    else if w.post(batch[0].id).Some? then [batch[0]]
    else [batch[0]] + Through(batch[1..], w)
  }

  lemma {:induction false} ThroughIsPrefix(batch: seq<Message>, w: World)
    ensures Through(batch, w) <= batch
    ensures forall i | 0 <= i < |Through(batch, w)| - 1 :: w.post(batch[i].id).None?
    ensures |Through(batch, w)| < |batch| ==>
              |Through(batch, w)| > 0 && w.post(batch[|Through(batch, w)| - 1].id).Some?
  {
    if batch != [] && w.post(batch[0].id).None? {
      ThroughIsPrefix(batch[1..], w);
      var t := Through(batch[1..], w);
      assert Through(batch, w) == [batch[0]] + t;
      assert forall i | 0 <= i < |t| :: batch[i + 1] == batch[1..][i];
    }
  }

  /** The posts of a whole flush: friend by friend, each friend's batch up to its first failure. */
  function Posts(messages: seq<Message>, friends: seq<Friend>, now: int, w: World): seq<string> {
    if friends == [] then []
    else Ids(Through(PendingForFriend(messages, friends[0].friendId, now), w)) + Posts(messages, friends[1..], now, w)
  }

  /** `after` is `before` with exactly the messages in `posted` tried. */
  ghost predicate TriesExactly(before: seq<Message>, after: seq<Message>, posted: seq<string>, w: World) {
    && |after| == |before|
    && forall i | 0 <= i < |before| ::
         after[i] == if before[i].id in posted then Tried(before[i], w) else before[i]
  }

  lemma IdsCons(m: Message, rest: seq<Message>)
    ensures Ids([m] + rest) == [m.id] + Ids(rest)
  {}

  lemma {:induction false} FlushMessagesExactly(q: Queue, pending: seq<Message>, w: World)
    requires SavesSucceed(w) && DistinctIds(q.file.messages) && DueIn(pending, q.file.messages)
    ensures var f := FlushMessages(q, pending, w);
            && f.posted == Ids(Through(pending, w))
            && TriesExactly(q.file.messages, f.queue.file.messages, f.posted, w)
            && f.queue.file.friends == q.file.friends
            && DeliveredCount(f.queue.file.messages) == DeliveredCount(q.file.messages) + f.delivered
    decreases |pending|
  {
    if pending != [] {
      var k, settled := FirstExactly(q, pending, w);
      if w.post(pending[0].id).None? {
        FlushMessagesExactly(settled, pending[1..], w);
        var rest := FlushMessages(settled, pending[1..], w);
        IdsCons(pending[0], Through(pending[1..], w));
        TriesCompose(q.file.messages, k, rest.queue.file.messages, rest.posted, pending, w);
      } else {
        assert forall i | 0 <= i < |q.file.messages| && q.file.messages[i].id == pending[0].id :: i == k;
      }
    }
  }

  lemma FirstExactly(q: Queue, pending: seq<Message>, w: World) returns (k: nat, settled: Queue)
    requires SavesSucceed(w) && DistinctIds(q.file.messages) && DueIn(pending, q.file.messages) && pending != []
    ensures k < |q.file.messages| && q.file.messages[k] == pending[0]
    ensures settled.file == q.file.(messages := q.file.messages[k := Tried(pending[0], w)])
    ensures DistinctIds(settled.file.messages) && DueIn(pending[1..], settled.file.messages)
    ensures DeliveredCount(settled.file.messages)
         == DeliveredCount(q.file.messages) + if w.post(pending[0].id).None? then 1 else 0
    ensures FlushMessages(q, pending, w)
         == if w.post(pending[0].id).Some? then Flushed(settled, [pending[0].id], 0)
            else After([pending[0].id], 1, FlushMessages(settled, pending[1..], w))
  {
    var id := pending[0].id;
    assert pending[0] in pending;
    k :| 0 <= k < |q.file.messages| && q.file.messages[k] == pending[0];
    TryTouchesOne(q, k, w);
    settled := Settle(Claim(q, id, w).0, id, w).0;
    FirstTried(q.file.messages, k, pending, w);
    FirstFlushes(q, pending, w);
  }

  lemma FirstTried(messages: seq<Message>, k: nat, pending: seq<Message>, w: World)
    requires DistinctIds(messages) && DueIn(pending, messages) && pending != []
    requires k < |messages| && messages[k] == pending[0]
    ensures var after := messages[k := Tried(pending[0], w)];
            && DistinctIds(after) && DueIn(pending[1..], after)
            && DeliveredCount(after) == DeliveredCount(messages) + if w.post(pending[0].id).None? then 1 else 0
  {
    assert pending[0] in pending;
    DueStays(pending, messages, k, Tried(pending[0], w));
    TotalsAfterUpdate(messages, k, Tried(pending[0], w));
  }

  lemma FirstFlushes(q: Queue, pending: seq<Message>, w: World)
    requires SavesSucceed(w) && pending != []
    ensures var id := pending[0].id;
            var settled := Settle(Claim(q, id, w).0, id, w).0;
            FlushMessages(q, pending, w)
            == if w.post(id).Some? then Flushed(settled, [id], 0) else After([id], 1, FlushMessages(settled, pending[1..], w))
  {
    TrySucceeds(q, pending[0].id, w);
  }

  lemma TrySucceeds(q: Queue, id: string, w: World)
    requires SavesSucceed(w)
    ensures Claim(q, id, w).1 && Settle(Claim(q, id, w).0, id, w).1
  {
    assert w.io(id, Claiming) == AllOk && w.io(id, Settling) == AllOk;
  }

  lemma TriesCompose(before: seq<Message>, k: nat, after: seq<Message>, posted: seq<string>, pending: seq<Message>, w: World)
    requires DistinctIds(before) && k < |before| && pending != [] && before[k] == pending[0]
    requires DistinctIds(pending) && posted == Ids(Through(pending[1..], w))
    requires TriesExactly(before[k := Tried(before[k], w)], after, posted, w)
    ensures TriesExactly(before, after, [pending[0].id] + posted, w)
  {
    ThroughIsPrefix(pending[1..], w);
    assert pending[0].id !in posted by {
      forall i | 0 <= i < |posted| ensures posted[i] != pending[0].id {
        assert posted[i] == pending[1..][i].id == pending[i + 1].id;
      }
    }
    forall i | 0 <= i < |before|
      ensures after[i] == if before[i].id in [pending[0].id] + posted then Tried(before[i], w) else before[i]
    {
      if i != k {
        assert before[i].id != before[k].id by { if i < k {} else {} }
      }
    }
  }

  // ---- from one friend to all ----

  lemma {:induction false} OtherFriendsUntouched(before: seq<Message>, after: seq<Message>, friendId: string, now: int)
    requires |after| == |before|
    requires forall i | 0 <= i < |before| :: after[i] == before[i] || (before[i].friendId != friendId && after[i].friendId != friendId)
    ensures Due(after, friendId, now) == Due(before, friendId, now)
  {
    if before != [] {
      OtherFriendsUntouched(before[..|before| - 1], after[..|before| - 1], friendId, now);
    }
  }

  /** What is posted for a friend is due, and that friend's. */
  lemma PostedIsDue(messages: seq<Message>, friendId: string, now: int, w: World, i: nat)
    requires DistinctIds(messages) && i < |messages|
    requires messages[i].id in Ids(Through(PendingForFriend(messages, friendId, now), w))
    ensures IsDue(messages[i], friendId, now)
  {
    var pending := PendingForFriend(messages, friendId, now);
    PendingIsDue(messages, friendId, now);
    ThroughIsPrefix(pending, w);
    var j :| 0 <= j < |Through(pending, w)| && Ids(Through(pending, w))[j] == messages[i].id;
    assert pending[j] in pending;
    var n :| 0 <= n < |messages| && messages[n] == pending[j];
    assert n == i by { if n < i {} else if i < n {} }
  }

  /** Only a friend in the list has anything posted. */
  lemma {:induction false} OnlyListedFriendsPost(messages: seq<Message>, friends: seq<Friend>, now: int, w: World, i: nat)
    requires DistinctIds(messages) && i < |messages|
    requires forall k | 0 <= k < |friends| :: friends[k].friendId != messages[i].friendId
    ensures messages[i].id !in Posts(messages, friends, now, w)
  {
    if friends != [] {
      OnlyListedFriendsPost(messages, friends[1..], now, w, i);
      if messages[i].id in Ids(Through(PendingForFriend(messages, friends[0].friendId, now), w)) {
        PostedIsDue(messages, friends[0].friendId, now, w, i);
      }
    }
  }

  lemma {:induction false} PostsUnaffected(before: seq<Message>, after: seq<Message>, friends: seq<Friend>, now: int, w: World)
    requires |after| == |before|
    requires forall i, k | 0 <= i < |before| && 0 <= k < |friends| ::
               after[i] == before[i] || (before[i].friendId != friends[k].friendId && after[i].friendId != friends[k].friendId)
    ensures Posts(after, friends, now, w) == Posts(before, friends, now, w)
  {
    if friends != [] {
      OtherFriendsUntouched(before, after, friends[0].friendId, now);
      PostsUnaffected(before, after, friends[1..], now, w);
    }
  }

  lemma TriesThenTries(before: seq<Message>, mid: seq<Message>, after: seq<Message>, p1: seq<string>, p2: seq<string>, w: World)
    requires TriesExactly(before, mid, p1, w) && TriesExactly(mid, after, p2, w)
    requires forall i | 0 <= i < |before| && before[i].id in p1 :: before[i].id !in p2
    ensures TriesExactly(before, after, p1 + p2, w)
  {
    forall i | 0 <= i < |before|
      ensures after[i] == if before[i].id in p1 + p2 then Tried(before[i], w) else before[i]
    {
      assert mid[i].id == before[i].id;
    }
  }

  lemma TriedKeepsIdentity(m: Message, w: World)
    ensures Tried(m, w).id == m.id && Tried(m, w).friendId == m.friendId
  {}

  /** The batch of one friend leaves every other friend's posts as they were. */
  lemma BatchIsOwn(messages: seq<Message>, after: seq<Message>, posted: seq<string>, friends: seq<Friend>, now: int, w: World)
    requires DistinctIds(messages) && friends != [] && DistinctFriends(friends)
    requires posted == Ids(Through(PendingForFriend(messages, friends[0].friendId, now), w))
    requires TriesExactly(messages, after, posted, w)
    ensures forall i | 0 <= i < |messages| && messages[i].id in posted :: messages[i].id !in Posts(messages, friends[1..], now, w)
    ensures Posts(after, friends[1..], now, w) == Posts(messages, friends[1..], now, w)
    ensures DistinctIds(after)
  {
    var rest := friends[1..];
    forall i | 0 <= i < |messages| && messages[i].id in posted
      ensures messages[i].id !in Posts(messages, rest, now, w)
      ensures messages[i].friendId == after[i].friendId == friends[0].friendId
    {
      PostedIsDue(messages, friends[0].friendId, now, w, i);
      OnlyListedFriendsPost(messages, rest, now, w, i);
      TriedKeepsIdentity(messages[i], w);
    }
    PostsUnaffected(messages, after, rest, now, w);
    forall i | 0 <= i < |messages| ensures after[i].id == messages[i].id {
      TriedKeepsIdentity(messages[i], w);
    }
  }

  /**
   A flush with successful saves, exactly: it posts, friend by friend, that
   friend's due messages in order up to the first failure; each posted message
   is delivered or failed, every other is untouched; and the count it returns
   is the number of messages newly delivered.
   */
  lemma {:induction false} FlushExactly(q: Queue, friends: seq<Friend>, now: int, w: World)
    requires SavesSucceed(w) && DistinctIds(q.file.messages) && DistinctFriends(friends)
    ensures var f := FlushFriends(q, friends, now, w);
            && f.posted == Posts(q.file.messages, friends, now, w)
            && TriesExactly(q.file.messages, f.queue.file.messages, f.posted, w)
            && DeliveredCount(f.queue.file.messages) == DeliveredCount(q.file.messages) + f.delivered
    decreases |friends|
  {
    if friends != [] {
      var messages := q.file.messages;
      var pending := PendingForFriend(messages, friends[0].friendId, now);
      PendingIsDue(messages, friends[0].friendId, now);
      FlushMessagesExactly(q, pending, w);
      var first := FlushMessages(q, pending, w);
      BatchIsOwn(messages, first.queue.file.messages, first.posted, friends, now, w);
      FlushExactly(first.queue, friends[1..], now, w);
      var rest := FlushFriends(first.queue, friends[1..], now, w);
      TriesThenTries(messages, first.queue.file.messages, rest.queue.file.messages, first.posted, rest.posted, w);
    }
  }

  // ---- what the closed form means ----

  ghost predicate Distinct(ids: seq<string>) {
    forall i, j | 0 <= i < j < |ids| :: ids[i] != ids[j]
  }

  lemma DistinctConcat(a: seq<string>, b: seq<string>)
    requires Distinct(a) && Distinct(b) && forall i | 0 <= i < |a| :: a[i] !in b
    ensures Distinct(a + b)
  {}

  ghost predicate PostsPrefix(posted: seq<string>, pending: seq<Message>) {
    |posted| <= |pending| && forall i | 0 <= i < |posted| :: posted[i] == pending[i].id
  }

  lemma PrefixCons(posted: seq<string>, pending: seq<Message>)
    requires pending != [] && PostsPrefix(posted, pending[1..])
    ensures PostsPrefix([pending[0].id] + posted, pending)
  {
    var all := [pending[0].id] + posted;
    forall i | 0 <= i < |all| ensures all[i] == pending[i].id {
      if i > 0 { assert pending[1..][i - 1] == pending[i]; }
    }
  }

  lemma PostedCases(q: Queue, pending: seq<Message>, w: World) returns (rest: seq<string>)
    requires pending != []
    ensures rest == FlushMessages(Settle(Claim(q, pending[0].id, w).0, pending[0].id, w).0, pending[1..], w).posted
    ensures FlushMessages(q, pending, w).posted in {[], [pending[0].id], [pending[0].id] + rest}
  {
    FlushMessagesCases(q, pending, w);
    rest := FlushMessages(Settle(Claim(q, pending[0].id, w).0, pending[0].id, w).0, pending[1..], w).posted;
  }

  /** Whatever is saved or fails, a batch is posted in its order, up to some point. */
  lemma {:induction false} PostedInOrder(q: Queue, pending: seq<Message>, w: World)
    ensures PostsPrefix(FlushMessages(q, pending, w).posted, pending)
    decreases |pending|
  {
    if pending != [] {
      var rest := PostedCases(q, pending, w);
      PostedInOrder(Settle(Claim(q, pending[0].id, w).0, pending[0].id, w).0, pending[1..], w);
      PrefixCons(rest, pending);
    }
  }

  /** `id` is the message of one of these friends. */
  ghost predicate IsOf(messages: seq<Message>, friends: seq<Friend>, id: string) {
    exists m :: m in messages && m.id == id && Known(friends, m.friendId)
  }

  ghost predicate AllOf(messages: seq<Message>, friends: seq<Friend>, ids: seq<string>) {
    forall id | id in ids :: IsOf(messages, friends, id)
  }

  /** One friend's posts: distinct, and that friend's. */
  lemma BatchPostsOnce(q: Queue, friend: Friend, now: int, w: World)
    requires Inv(q.file)
    ensures var f := FlushMessages(q, PendingForFriend(q.file.messages, friend.friendId, now), w);
            && Distinct(f.posted) && AllOf(q.file.messages, [friend], f.posted)
            && Inv(f.queue.file) && Conserves(q.file, f.queue.file) && |f.queue.file.messages| == |q.file.messages|
  {
    var pending := PendingForFriend(q.file.messages, friend.friendId, now);
    PendingIsDue(q.file.messages, friend.friendId, now);
    FlushMessagesProgresses(q, pending, w);
    PostedInOrder(q, pending, w);
    var posted := FlushMessages(q, pending, w).posted;
    assert Known([friend], friend.friendId) by { assert [friend][0].friendId == friend.friendId; }
    forall id | id in posted ensures IsOf(q.file.messages, [friend], id) {
      var i :| 0 <= i < |posted| && posted[i] == id;
      assert pending[i] in pending;
    }
  }

  /** A message of a friend in the list is not one of another friend, before or after. */
  lemma OtherFriends(before: QueueFile, after: QueueFile, friends: seq<Friend>, id: string)
    requires Inv(before) && Conserves(before, after) && Inv(after) && |after.messages| == |before.messages|
    requires friends != [] && DistinctFriends(friends) && IsOf(before.messages, [friends[0]], id)
    ensures !IsOf(after.messages, friends[1..], id)
  {
    var m :| m in before.messages && m.id == id && Known([friends[0]], m.friendId);
    var i :| 0 <= i < |before.messages| && before.messages[i] == m;
    assert MayBecome(before.messages[i], after.messages[i]);
    forall n | n in after.messages && n.id == id ensures !Known(friends[1..], n.friendId) {
      var j :| 0 <= j < |after.messages| && after.messages[j] == n;
      assert i == j by { if i < j {} else if j < i {} }
      forall k | 0 <= k < |friends[1..]| ensures friends[1..][k].friendId != n.friendId {
        assert friends[1..][k] == friends[k + 1];
      }
    }
  }

  lemma StillOf(before: QueueFile, after: QueueFile, friends: seq<Friend>, id: string)
    requires Conserves(before, after) && |after.messages| == |before.messages| && friends != []
    requires IsOf(after.messages, friends[1..], id)
    ensures IsOf(before.messages, friends, id)
  {
    var n :| n in after.messages && n.id == id && Known(friends[1..], n.friendId);
    var j :| 0 <= j < |after.messages| && after.messages[j] == n;
    assert MayBecome(before.messages[j], after.messages[j]);
    var k :| 0 <= k < |friends[1..]| && friends[1..][k].friendId == n.friendId;
    assert friends[k + 1].friendId == n.friendId;
    assert Known(friends, before.messages[j].friendId) && before.messages[j] in before.messages;
  }

  lemma {:induction false} FriendsPostOnce(q: Queue, friends: seq<Friend>, now: int, w: World)
    requires Inv(q.file) && DistinctFriends(friends)
    ensures var posted := FlushFriends(q, friends, now, w).posted;
            Distinct(posted) && AllOf(q.file.messages, friends, posted)
    decreases |friends|
  {
    if friends != [] {
      BatchPostsOnce(q, friends[0], now, w);
      var first := FlushMessages(q, PendingForFriend(q.file.messages, friends[0].friendId, now), w);
      FriendsPostOnce(first.queue, friends[1..], now, w);
      PostsCompose(q.file, first.queue.file, friends, first.posted, FlushFriends(first.queue, friends[1..], now, w).posted);
    }
  }

  lemma PostsCompose(before: QueueFile, after: QueueFile, friends: seq<Friend>, first: seq<string>, rest: seq<string>)
    requires Inv(before) && Conserves(before, after) && Inv(after) && |after.messages| == |before.messages|
    requires friends != [] && DistinctFriends(friends)
    requires Distinct(first) && AllOf(before.messages, [friends[0]], first)
    requires Distinct(rest) && AllOf(after.messages, friends[1..], rest)
    ensures Distinct(first + rest) && AllOf(before.messages, friends, first + rest)
  {
    forall i | 0 <= i < |first| ensures first[i] !in rest {
      OtherFriends(before, after, friends, first[i]);
    }
    DistinctConcat(first, rest);
    forall id | id in first + rest ensures IsOf(before.messages, friends, id) {
      if id in first {
        var m :| m in before.messages && m.id == id && Known([friends[0]], m.friendId);
        assert friends[0].friendId == m.friendId;
      } else {
        StillOf(before, after, friends, id);
      }
    }
  }

  /** No message is posted twice in a flush, whichever of its saves and deliveries fail. */
  lemma NothingPostedTwice(q: Queue, proxySet: bool, now: int, w: World)
    requires Inv(q.file)
    ensures Distinct(FlushSpec(q, proxySet, now, w).posted)
  {
    if proxySet { FriendsPostOnce(q, q.file.friends, now, w); }
  }

  /** A due message of a friend is in that friend's posted batch, or the batch ended in a failure that sorts before it. */
  lemma BatchEndsInFailure(messages: seq<Message>, friendId: string, now: int, w: World, i: nat) returns (m: Message)
    requires DistinctIds(messages) && i < |messages| && IsDue(messages[i], friendId, now)
    requires messages[i].id !in Ids(Through(PendingForFriend(messages, friendId, now), w))
    ensures m in messages && IsDue(m, friendId, now) && m.createdAt <= messages[i].createdAt && w.post(m.id).Some?
    ensures m.id in Ids(Through(PendingForFriend(messages, friendId, now), w))
  {
    var pending := PendingForFriend(messages, friendId, now);
    PendingIsDue(messages, friendId, now);
    ThroughIsPrefix(pending, w);
    var t := Through(pending, w);
    var ids := Ids(t);
    assert messages[i] in pending;
    var n :| 0 <= n < |pending| && pending[n] == messages[i];
    assert forall j | 0 <= j < |t| :: ids[j] == pending[j].id && ids[j] in ids;
    assert n >= |t|;
    m := pending[|t| - 1];
    assert ids[|t| - 1] == m.id;
    assert !Older(pending[n], m);
    assert m in pending;
  }

  /** A due message of a listed friend is posted, or an older-or-equal message of the same friend was posted and failed. */
  lemma {:induction false} UnpostedIsBehindFailure(messages: seq<Message>, friends: seq<Friend>, now: int, w: World, i: nat, k: nat)
    returns (m: Message)
    requires DistinctIds(messages) && i < |messages| && k < |friends|
    requires IsDue(messages[i], friends[k].friendId, now)
    requires messages[i].id !in Posts(messages, friends, now, w)
    ensures m in messages && IsDue(m, friends[k].friendId, now) && m.createdAt <= messages[i].createdAt && w.post(m.id).Some?
    ensures m.id in Posts(messages, friends, now, w)
  {
    if k == 0 {
      m := BatchEndsInFailure(messages, friends[0].friendId, now, w, i);
    } else {
      m := UnpostedIsBehindFailure(messages, friends[1..], now, w, i, k - 1);
    }
  }
}
