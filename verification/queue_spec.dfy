/** The offline queue on values: its messages' life cycle, its operations, and one flush. */
module QueueSpec {
  import opened Wrappers
  import opened StringOrder
  import StableSort
  import opened QueueDisk

  datatype Status = Pending | InFlight | Delivered | Failed

  datatype Message = Message(
    id: string, friendId: string, onion: string, payload: string, status: Status,
    createdAt: int, updatedAt: int, deliveredAt: int, lastError: string,
    attempts: int, nextAttemptAt: int, failedAt: int)

  datatype Friend = Friend(friendId: string, onion: string)

  datatype QueueFile = QueueFile(friends: seq<Friend>, messages: seq<Message>)

  const EmptyFile := QueueFile([], [])

  /** The store in memory, and its files. */
  datatype Queue = Queue(file: QueueFile, disk: Disk<QueueFile>)

  function Persist(q: Queue, io: SaveIo): (Queue, bool) {
    var save := SaveSpec(q.disk, q.file, io);
    (q.(disk := Saved(q.disk, save)), save.ok)
  }

  // ---- routes ----

  predicate ValidOnion(onion: string) {
    |onion| >= 6 && onion[|onion| - 6..] == ".onion"
  }

  predicate ValidFriend(f: Friend) {
    f.friendId != "" && ValidOnion(f.onion)
  }

  /** Routes by friend, later ones replacing earlier ones. */
  function FriendMap(friends: seq<Friend>): map<string, Friend> {
    if friends == [] then map[]
    else FriendMap(friends[..|friends| - 1])[friends[|friends| - 1].friendId := friends[|friends| - 1]]
  }

  predicate FriendLess(a: Friend, b: Friend) { LexLess(a.friendId, b.friendId) }

  /** `friends` lists the routes of `byId`, each once, in the order of their ids. */
  ghost predicate Lists(friends: seq<Friend>, byId: map<string, Friend>) {
    && (forall i, j | 0 <= i < j < |friends| :: FriendLess(friends[i], friends[j]))
    && (forall f | f in friends :: f.friendId in byId && byId[f.friendId] == f)
    && (forall id | id in byId :: byId[id] in friends)
  }

  function Normalized(friends: seq<Friend>, normalize: string -> string): (r: seq<Friend>)
    ensures |r| == |friends|
  {
    seq(|friends|, i requires 0 <= i < |friends| => friends[i].(onion := normalize(friends[i].onion)))
  }

  function ValidOnes(friends: seq<Friend>): seq<Friend> {
    if friends == [] then []
    else ValidOnes(friends[..|friends| - 1]) + (if ValidFriend(friends[|friends| - 1]) then [friends[|friends| - 1]] else [])
  }

  /** The merged routes a `setFriends` leaves. */
  function Merged(known: seq<Friend>, given: seq<Friend>, normalize: string -> string): map<string, Friend> {
    FriendMap(known + ValidOnes(Normalized(given, normalize)))
  }

  lemma MergeOneMore(known: seq<Friend>, normal: seq<Friend>, i: nat)
    requires i < |normal|
    ensures FriendMap(known + ValidOnes(normal[..i + 1]))
         == var before := FriendMap(known + ValidOnes(normal[..i]));
            if ValidFriend(normal[i]) then before[normal[i].friendId := normal[i]] else before
  {
    var before := known + ValidOnes(normal[..i]);
    assert normal[..i + 1][..i] == normal[..i];
    if ValidFriend(normal[i]) {
      assert known + ValidOnes(normal[..i + 1]) == before + [normal[i]];
      assert (before + [normal[i]])[..|before|] == before;
    } else {
      assert known + ValidOnes(normal[..i + 1]) == before;
    }
  }

  // ---- enqueue ----

  datatype EnqueueInput = EnqueueInput(id: string, friendId: string, onion: string, payload: string, createdAt: int)

  function IndexOf(messages: seq<Message>, id: string): (k: nat)
    ensures k <= |messages|
    ensures k < |messages| ==> messages[k].id == id
    ensures forall i | 0 <= i < k :: messages[i].id != id
  {
    if messages == [] then 0
    else if messages[0].id == id then 0
    else 1 + IndexOf(messages[1..], id)
  }

  function Revived(m: Message, now: int): Message {
    m.(status := Pending, updatedAt := now, lastError := "", attempts := 0, nextAttemptAt := now, failedAt := 0)
  }

  function WithRoute(friends: seq<Friend>, friendId: string, onion: string): (r: seq<Friend>)
    ensures |friends| <= |r| <= |friends| + 1
    ensures forall i | 0 <= i < |friends| :: r[i].friendId == friends[i].friendId
    ensures (|r| == |friends| + 1) <==> (forall f | f in friends :: f.friendId != friendId)
    ensures |r| == |friends| + 1 ==> r[|friends|] == Friend(friendId, onion)
  {
    var updated := seq(|friends|, i requires 0 <= i < |friends| =>
                         if friends[i].friendId == friendId then friends[i].(onion := onion) else friends[i]);
    if exists f :: f in friends && f.friendId == friendId then updated else updated + [Friend(friendId, onion)]
  }

  function NewMessage(input: EnqueueInput, onion: string, id: string, now: int): Message {
    var createdAt := if input.createdAt <= 0 then now else input.createdAt;
    Message(id, input.friendId, onion, input.payload, Pending, createdAt, now, 0, "", 0, now, 0)
  }

  function WithMessage(file: QueueFile, m: Message): QueueFile {
    QueueFile(WithRoute(file.friends, m.friendId, m.onion), file.messages + [m])
  }

  /** `freshId` is the random id of a message given none. */
  function EnqueueSpec(q: Queue, input: EnqueueInput, onion: string, freshId: string, now: int, io: SaveIo): (Queue, Result<Message>) {
    if input.friendId == "" || !ValidOnion(onion) || input.payload == "" then (q, Err("invalid_friend_onion_route"))
    else
      EnqueueAs(q, if input.id == "" then freshId else input.id, input, onion, now, io)
  }

  /** Under its id: a message known and not delivered is revived, a new one added. */
  function EnqueueAs(q: Queue, id: string, input: EnqueueInput, onion: string, now: int, io: SaveIo): (Queue, Result<Message>) {
    var k := IndexOf(q.file.messages, id);
    if k < |q.file.messages| then
      var existing := q.file.messages[k];
      if existing.status == Delivered then (q, Ok(existing))
      else
        var revived := Revived(existing, now);
        var (q', ok) := Persist(q.(file := q.file.(messages := q.file.messages[k := revived])), io);
        (q', if ok then Ok(revived) else Err("io_error"))
    else
      var m := NewMessage(input, onion, id, now);
      var (q', ok) := Persist(q.(file := WithMessage(q.file, m)), io);
      (q', if ok then Ok(m) else Err("io_error"))
  }

  // ---- failure policy ----

  /** A failed delivery: whether its text marks it permanent, and its normalized code. */
  datatype Failure = Failure(permanent: bool, code: string)

  const MAX_ATTEMPTS := 15

  function Backoff(code: string): (int, int) {
    if code == "onion_service_refused" then (1_000, 30_000)
    else if code == "proxy_unreachable" || code == "proxy_connect_timeout" then (2_000, 60_000)
    else if code == "onion_descriptor_unavailable" then (5_000, 120_000)
    else (3_000, 120_000)
  }

  function Pow2(n: nat): (p: nat)
    ensures p >= 1
  {
    if n == 0 then 1 else 2 * Pow2(n - 1)
  }

  function FailurePolicy(failure: Failure, attempts: int, now: int): (Status, string, int) {
    if failure.permanent || attempts >= MAX_ATTEMPTS then (Failed, failure.code, 0)
    else
      var (base, cap) := Backoff(failure.code);
      var exponent := if attempts - 1 < 0 then 0 else if attempts - 1 > 6 then 6 else attempts - 1;
      var delay := base * Pow2(exponent);
      (Pending, failure.code, now + if delay > cap then cap else delay)
  }

  /** A retry is always in the future, within two minutes, and never sooner for more attempts. */
  lemma RetryDelay(failure: Failure, attempts: int, more: int, now: int)
    requires !failure.permanent && attempts <= more < MAX_ATTEMPTS
    ensures FailurePolicy(failure, attempts, now).0 == Pending
    ensures now + 1_000 <= FailurePolicy(failure, attempts, now).2
         <= FailurePolicy(failure, more, now).2 <= now + 120_000
  {
    assert Pow2(0) == 1 && Pow2(1) == 2 && Pow2(2) == 4 && Pow2(3) == 8;
    assert Pow2(4) == 16 && Pow2(5) == 32 && Pow2(6) == 64;
  }

  function AfterFailure(m: Message, failure: Failure, now: int): Message {
    var (status, code, next) := FailurePolicy(failure, m.attempts + 1, now);
    m.(attempts := m.attempts + 1, status := status, lastError := code, nextAttemptAt := next, updatedAt := now,
    failedAt := if status == Failed then now else m.failedAt)
  }

  function WithStatus(m: Message, status: Status, now: int): Message {
    var patched := m.(status := status, updatedAt := now, lastError := "");
    if status == Delivered then patched.(nextAttemptAt := 0, deliveredAt := now, payload := "") else patched
  }

  function PatchFailure(messages: seq<Message>, id: string, failure: Failure, now: int): (r: seq<Message>)
    ensures |r| == |messages|
  {
    var k := IndexOf(messages, id);
    if k < |messages| then messages[k := AfterFailure(messages[k], failure, now)] else messages
  }

  function PatchStatus(messages: seq<Message>, id: string, status: Status, now: int): (r: seq<Message>)
    ensures |r| == |messages|
    ensures forall i | 0 <= i < |r| :: r[i] == if messages[i].id == id then WithStatus(messages[i], status, now) else messages[i]
  {
    seq(|messages|, i requires 0 <= i < |messages| =>
          if messages[i].id == id then WithStatus(messages[i], status, now) else messages[i])
  }

  // ---- flush ----

  predicate Older(a: Message, b: Message) { a.createdAt < b.createdAt }

  predicate IsDue(m: Message, friendId: string, now: int) {
    m.friendId == friendId && m.status == Pending && m.nextAttemptAt <= now
  }

  function Due(messages: seq<Message>, friendId: string, now: int): seq<Message> {
    if messages == [] then []
    else Due(messages[..|messages| - 1], friendId, now)
         + (if IsDue(messages[|messages| - 1], friendId, now) then [messages[|messages| - 1]] else [])
  }

  function PendingForFriend(messages: seq<Message>, friendId: string, now: int): seq<Message> {
    StableSort.Sort(Older, Due(messages, friendId, now))
  }

  datatype Phase = Claiming | Settling

  /** What the world does in one flush: the clock and the file operations of each save, and how each delivery ends. */
  datatype World = World(
    io: (string, Phase) -> SaveIo,
    clock: (string, Phase) -> int,
    post: string -> Option<Failure>)

  /** The queue a flush leaves, the ids it posted in order, and the count it reports. */
  datatype Flushed = Flushed(queue: Queue, posted: seq<string>, delivered: nat)

  /** The queue with message `id` marked in flight, not yet saved. */
  function Claimed(q: Queue, id: string, w: World): Queue {
    q.(file := q.file.(messages := PatchStatus(q.file.messages, id, InFlight, w.clock(id, Claiming))))
  }

  function Claim(q: Queue, id: string, w: World): (Queue, bool) {
    Persist(Claimed(q, id, w), w.io(id, Claiming))
  }

  /** The queue with the end of the delivery of `id` recorded, not yet saved. */
  function Settled(q: Queue, id: string, w: World): Queue {
    var now := w.clock(id, Settling);
    var messages := match w.post(id)
      case None => PatchStatus(q.file.messages, id, Delivered, now)
      case Some(failure) => PatchFailure(q.file.messages, id, failure, now);
    q.(file := q.file.(messages := messages))
  }

  /** Records how the delivery of `id` ended; the flag says whether it was saved. */
  function Settle(q: Queue, id: string, w: World): (Queue, bool) {
    Persist(Settled(q, id, w), w.io(id, Settling))
  }

  /** A flush that has already posted and delivered some. */
  function After(posted: seq<string>, delivered: nat, rest: Flushed): Flushed {
    Flushed(rest.queue, posted + rest.posted, delivered + rest.delivered)
  }

  lemma AfterNothing(f: Flushed)
    ensures After([], 0, f) == f
  {}

  lemma AfterTwice(p: seq<string>, d: nat, more: seq<string>, e: nat, rest: Flushed)
    ensures After(p, d, After(more, e, rest)) == After(p + more, d + e, rest)
  {
    assert p + (more + rest.posted) == p + more + rest.posted;
  }

  lemma NothingAfter(p: seq<string>, d: nat, q: Queue)
    ensures After(p, d, Flushed(q, [], 0)) == Flushed(q, p, d)
  {}

  function FlushMessages(q: Queue, pending: seq<Message>, w: World): Flushed
    decreases |pending|
  {
    if pending == [] then Flushed(q, [], 0)
    else
      var id := pending[0].id;
      var (claimed, claimSaved) := Claim(q, id, w);
      if !claimSaved then Flushed(claimed, [], 0)
      else
        var (settled, settleSaved) := Settle(claimed, id, w);
        if w.post(id).Some? || !settleSaved then Flushed(settled, [id], 0)
        else
          After([id], 1, FlushMessages(settled, pending[1..], w))
  }

  function FlushFriends(q: Queue, friends: seq<Friend>, now: int, w: World): Flushed
    decreases |friends|
  {
    if friends == [] then Flushed(q, [], 0)
    else
      var first := FlushMessages(q, PendingForFriend(q.file.messages, friends[0].friendId, now), w);
      After(first.posted, first.delivered, FlushFriends(first.queue, friends[1..], now, w))
  }

  function FlushSpec(q: Queue, proxySet: bool, now: int, w: World): Flushed {
    if !proxySet then Flushed(q, [], 0) else FlushFriends(q, q.file.friends, now, w)
  }
}
