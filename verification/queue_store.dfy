/** The offline queue as the worker runs it: friends and messages patched in place, saved after every change. */
module QueueStore {
  import opened Wrappers
  import StableSort
  import opened QueueDisk
  import opened QueueSpec
  import opened QueueRuns

  /** White space as Go's `unicode.IsSpace` has it. */
  predicate IsSpace(c: char) {
    || c in "\t\n\r \U{b}\U{c}\U{85}\U{a0}\U{1680}\U{2028}\U{2029}\U{202f}\U{205f}\U{3000}"
    || '\U{2000}' <= c <= '\U{200a}'
  }

  predicate IsBlank(path: string) {
    forall c | c in path :: IsSpace(c)
  }

  predicate HasFile(disk: Disk<QueueFile>) {
    !disk.main.Missing? || !disk.backup.Missing?
  }

  /** The routes of a map that are no longer among those left to take. */
  ghost function TakenFrom(byId: map<string, Friend>, left: set<string>): map<string, Friend> {
    map id | id in byId && id !in left :: byId[id]
  }

  lemma TakeOne(byId: map<string, Friend>, left: set<string>, id: string)
    requires id in left && left <= byId.Keys && Keyed(byId)
    ensures TakenFrom(byId, left - {id}) == TakenFrom(byId, left)[id := byId[id]]
    ensures byId[id].friendId !in TakenFrom(byId, left) && Keyed(TakenFrom(byId, left))
  {}

  lemma TakenAll(byId: map<string, Friend>)
    ensures TakenFrom(byId, {}) == byId && TakenFrom(byId, byId.Keys) == map[]
  {}

  class Store {
    var friends: seq<Friend>
    var messages: seq<Message>
    var proxyUrl: string
    var disk: Disk<QueueFile>
    /** Every disk the store has passed through, a file operation at a time. */
    ghost var history: seq<Disk<QueueFile>>

    function View(): Queue
      reads `friends, `messages, `disk
    {
      Queue(QueueFile(friends, messages), disk)
    }

    constructor (file: QueueFile, disk: Disk<QueueFile>)
      ensures View() == Queue(file, disk) && proxyUrl == "" && history == []
    {
      friends, messages, proxyUrl := file.friends, file.messages, "";
      this.disk, history := disk, [];
    }

    /** `readOk` is whether the file that is there can be read. */
    static method Open(path: string, disk: Disk<QueueFile>, readOk: bool) returns (store: Store?, error: string)
      ensures store == null <==> IsBlank(path) || (HasFile(disk) && !readOk) || Recover(disk, EmptyFile).Err?
      ensures store == null ==>
                error == if IsBlank(path) then "invalid_queue_path" else if !readOk then "io_error" else "invalid_queue_file"
      ensures store != null ==> fresh(store) && Recover(disk, EmptyFile) == Ok(store.View().file) && store.disk == disk
    {
      store, error := null, "";
      if IsBlank(path) {
        error := "invalid_queue_path";
        return;
      }
      var found := disk.main;
      if found.Missing? {
        found := disk.backup;
      }
      if !found.Missing? && !readOk {
        error := "io_error";
        return;
      }
      match found {
        case Whole(file) => store := new Store(file, disk);
        case Partial => error := "invalid_queue_file";
        case Missing => store := new Store(EmptyFile, disk);
      }
    }

    /** One file operation, recorded: the disk becomes `next`, the `k`th of the save. */
    method Step(next: Disk<QueueFile>, ghost save: Save<QueueFile>, ghost k: nat, ghost before: seq<Disk<QueueFile>>)
      requires k < |save.disks| && next == save.disks[k]
      requires history == before + save.disks[..k]
      modifies `disk, `history
      ensures disk == next && history == before + save.disks[..k + 1]
    {
      disk := next;
      history := history + [disk];
      assert save.disks[..k + 1] == save.disks[..k] + [next];
    }

    method Persist(io: SaveIo) returns (ok: bool)
      modifies `disk, `history
      ensures (View(), ok) == QueueSpec.Persist(old(View()), io)
      ensures history == old(history) + SaveSpec(old(disk), QueueFile(friends, messages), io).disks
    {
      var state := QueueFile(friends, messages);
      ghost var save, before := SaveSpec(disk, state, io), history;
      assert save.disks[..|save.disks|] == save.disks;
      if !io.mkdirOk { return false; }
      Step(disk.(temp := Partial), save, 0, before);
      if !io.writeOk { return false; }
      Step(disk.(temp := Whole(state)), save, 1, before);
      Step(if io.backupRemoved then disk.(backup := Missing) else disk, save, 2, before);
      ok := PutInPlace(state, io, save, before);
    }

    /** The new file is on disk as the temporary one; the current file, if any, steps aside for it. */
    method PutInPlace(state: QueueFile, io: SaveIo, ghost save: Save<QueueFile>, ghost before: seq<Disk<QueueFile>>) returns (ok: bool)
      requires |save.disks| >= 3 && disk == save.disks[2] && disk.temp == Whole(state) && history == before + save.disks[..3]
      requires save == Save(save.disks[..3] + Swap(disk, state, io).disks, Swap(disk, state, io).ok)
      modifies `disk, `history
      ensures ok == save.ok && disk == save.disks[|save.disks| - 1] && history == before + save.disks
    {
      assert save.disks[..|save.disks|] == save.disks;
      var hadCurrent := false;
      if !disk.main.Missing? && io.statOk {
        if !io.renameCurrentOk { return false; }
        Step(disk.(backup := disk.main, main := Missing), save, 3, before);
        hadCurrent := true;
      }
      if !io.renameTempOk {
        if hadCurrent {
          Step(if io.restoreOk then disk.(main := disk.backup, backup := Missing) else disk, save, 4, before);
        }
        return false;
      }
      ghost var k := if hadCurrent then 4 else 3;
      Step(disk.(main := disk.temp, temp := Missing), save, k, before);
      Step(if io.cleanupOk then disk.(backup := Missing) else disk, save, k + 1, before);
      return true;
    }

    method SetFriends(given: seq<Friend>, normalize: string -> string, io: SaveIo) returns (ok: bool)
      modifies `friends, `disk, `history
      ensures (View(), ok) == SetFriendsSpec(old(View()), given, normalize, io)
    {
      var byId := MergeRoutes(friends, given, normalize);
      FriendMapKeyed(friends + ValidOnes(Normalized(given, normalize)));
      var sorted := SortedFriends(byId);
      ListingLists(byId);
      ListsIsUnique(sorted, Listing(byId), byId);
      friends := sorted;
      ok := Persist(io);
    }

    static method MergeRoutes(known: seq<Friend>, given: seq<Friend>, normalize: string -> string) returns (byId: map<string, Friend>)
      ensures byId == Merged(known, given, normalize)
    {
      byId := map[];
      for i := 0 to |known|
        invariant byId == FriendMap(known[..i])
      {
        byId := byId[known[i].friendId := known[i]];
        assert known[..i + 1][..i] == known[..i];
      }
      ghost var normal := Normalized(given, normalize);
      assert known[..|known|] == known && known + ValidOnes(normal[..0]) == known;
      for i := 0 to |given|
        invariant byId == FriendMap(known + ValidOnes(normal[..i]))
      {
        var friend := given[i].(onion := normalize(given[i].onion));
        MergeOneMore(known, normal, i);
        if friend.friendId == "" || !ValidOnion(friend.onion) { continue; }
        byId := byId[friend.friendId := friend];
      }
      assert normal[..|given|] == normal;
    }

    /** Takes the routes from the map in any order, and sorts them. */
    static method SortedFriends(byId: map<string, Friend>) returns (sorted: seq<Friend>)
      requires Keyed(byId)
      ensures Lists(sorted, byId)
    {
      var left := byId.Keys;
      sorted := [];
      ghost var taken: map<string, Friend> := map[];
      TakenAll(byId);
      while left != {}
        invariant left <= byId.Keys
        invariant taken == TakenFrom(byId, left)
        invariant Lists(sorted, taken)
        decreases |left|
      {
        var id :| id in left;
        TakeOne(byId, left, id);
        InsertLists(byId[id], sorted, taken);
        sorted := StableSort.Insert(FriendLess, byId[id], sorted);
        left := left - {id};
        taken := taken[id := byId[id]];
      }
      assert taken == byId;
    }

    method Enqueue(input: EnqueueInput, normalize: string -> string, freshId: string, now: int, io: SaveIo) returns (r: Result<Message>)
      modifies `friends, `messages, `disk, `history
      ensures (View(), r) == EnqueueSpec(old(View()), input, normalize(input.onion), freshId, now, io)
    {
      var onion := normalize(input.onion);
      if input.friendId == "" || !ValidOnion(onion) || |input.payload| == 0 {
        return Err("invalid_friend_onion_route");
      }
      r := EnqueueKnown(if input.id == "" then freshId else input.id, input, onion, now, io);
    }

    method EnqueueKnown(id: string, input: EnqueueInput, onion: string, now: int, io: SaveIo) returns (r: Result<Message>)
      modifies `friends, `messages, `disk, `history
      ensures (View(), r) == EnqueueAs(old(View()), id, input, onion, now, io)
    {
      var index := Find(id);
      if index == |messages| {
        var message := NewMessage(input, onion, id, now);
        var saved := Append(message, io);
        return if saved then Ok(message) else Err("io_error");
      }
      var existing := messages[index];
      if existing.status == Delivered { return Ok(existing); }
      var saved := Revive(index, now, io);
      return if saved then Ok(messages[index]) else Err("io_error");
    }

    method Find(id: string) returns (index: nat)
      ensures index == IndexOf(messages, id)
    {
      index := 0;
      while index < |messages| && messages[index].id != id
        invariant index <= IndexOf(messages, id)
      {
        IndexOfAtLeast(messages, id, index);
        index := index + 1;
      }
    }

    method Revive(index: nat, now: int, io: SaveIo) returns (ok: bool)
      requires index < |messages|
      modifies `messages, `disk, `history
      ensures messages == old(messages)[index := Revived(old(messages[index]), now)]
      ensures (View(), ok) == QueueSpec.Persist(old(View()).(file := QueueFile(friends, messages)), io)
    {
      messages := messages[index := Revived(messages[index], now)];
      ok := Persist(io);
    }

    method Append(message: Message, io: SaveIo) returns (ok: bool)
      modifies `friends, `messages, `disk, `history
      ensures (View(), ok) == QueueSpec.Persist(old(View()).(file := WithMessage(old(View()).file, message)), io)
    {
      messages := messages + [message];
      AddRoute(message.friendId, message.onion);
      ok := Persist(io);
    }

    method AddRoute(friendId: string, onion: string)
      modifies `friends
      ensures friends == WithRoute(old(friends), friendId, onion)
    {
      var found := false;
      ghost var known := friends;
      for i := 0 to |friends|
        invariant |friends| == |known|
        invariant found <==> exists k :: 0 <= k < i && known[k].friendId == friendId
        invariant forall k | 0 <= k < |known| ::
                    friends[k] == if k < i && known[k].friendId == friendId then known[k].(onion := onion) else known[k]
      {
        if friends[i].friendId == friendId {
          friends := friends[i := friends[i].(onion := onion)];
          found := true;
        }
      }
      if !found {
        friends := friends + [Friend(friendId, onion)];
      }
    }

    lemma IndexOfAtLeast(messages: seq<Message>, id: string, k: nat)
      requires k < |messages| && IndexOf(messages, id) >= k && messages[k].id != id
      ensures IndexOf(messages, id) >= k + 1
    {}

    method PendingForFriend(friendId: string, now: int) returns (pending: seq<Message>)
      ensures pending == QueueSpec.PendingForFriend(messages, friendId, now)
    {
      var due := [];
      for i := 0 to |messages|
        invariant due == Due(messages[..i], friendId, now)
      {
        if IsDue(messages[i], friendId, now) {
          due := due + [messages[i]];
        }
        assert messages[..i + 1][..i] == messages[..i];
      }
      assert messages[..|messages|] == messages;
      pending := StableSort.Sort(Older, due);
    }

    method PatchStatus(id: string, status: Status, now: int, io: SaveIo) returns (ok: bool)
      modifies `messages, `disk, `history
      ensures (View(), ok) == QueueSpec.Persist(
                old(View()).(file := QueueFile(old(friends), QueueSpec.PatchStatus(old(messages), id, status, now))), io)
    {
      ghost var before := messages;
      for i := 0 to |messages|
        invariant |messages| == |before| && disk == old(disk)
        invariant forall k | 0 <= k < |before| ::
                    messages[k] == if k < i && before[k].id == id then WithStatus(before[k], status, now) else before[k]
      {
        if messages[i].id != id { continue; }
        var m := messages[i].(status := status, updatedAt := now, lastError := "");
        if status == Delivered {
          m := m.(nextAttemptAt := 0, lastError := "", deliveredAt := now, payload := "");
        }
        messages := messages[i := m];
      }
      assert messages == QueueSpec.PatchStatus(before, id, status, now);
      ok := Persist(io);
    }

    method PatchFailure(id: string, failure: Failure, now: int, io: SaveIo) returns (ok: bool)
      modifies `messages, `disk, `history
      ensures (View(), ok) == QueueSpec.Persist(
                old(View()).(file := QueueFile(old(friends), QueueSpec.PatchFailure(old(messages), id, failure, now))), io)
    {
      var i := 0;
      while i < |messages|
        invariant 0 <= i <= |messages| && View() == old(View())
        invariant IndexOf(messages, id) >= i
      {
        if messages[i].id == id {
          var m := messages[i].(attempts := messages[i].attempts + 1);
          var (status, lastError, nextAttemptAt) := FailurePolicy(failure, m.attempts, now);
          m := m.(status := status, lastError := lastError, nextAttemptAt := nextAttemptAt, updatedAt := now);
          if status == Failed {
            m := m.(failedAt := now);
          }
          assert IndexOf(messages, id) == i;
          messages := messages[i := m];
          ok := Persist(io);
          return;
        }
        IndexOfAtLeast(messages, id, i);
        i := i + 1;
      }
      ok := Persist(io);
    }

    /** `posted` is the sequence of ids handed to the network. */
    method Flush(now: int, w: World) returns (delivered: nat, posted: seq<string>)
      modifies `messages, `disk, `history
      ensures Flushed(View(), posted, delivered) == FlushSpec(old(View()), proxyUrl != "", now, w)
    {
      delivered, posted := 0, [];
      if proxyUrl == "" { return; }
      ghost var goal := FlushFriends(View(), friends, now, w);
      AfterNothing(goal);
      assert friends[0..] == friends;
      for i := 0 to |friends|
        invariant friends == old(friends)
        invariant goal == After(posted, delivered, FlushFriends(View(), friends[i..], now, w))
      {
        assert friends[i..][0] == friends[i] && friends[i..][1..] == friends[i + 1..];
        var pending := PendingForFriend(friends[i].friendId, now);
        var count, ids := FlushBatch(pending, w);
        AfterTwice(posted, delivered, ids, count, FlushFriends(View(), friends[i + 1..], now, w));
        posted := posted + ids;
        delivered := delivered + count;
      }
      NothingAfter(posted, delivered, View());
    }

    method FlushBatch(pending: seq<Message>, w: World) returns (delivered: nat, posted: seq<string>)
      modifies `messages, `disk, `history
      ensures Flushed(View(), posted, delivered) == FlushMessages(old(View()), pending, w)
    {
      delivered, posted := 0, [];
      ghost var goal := FlushMessages(View(), pending, w);
      AfterNothing(goal);
      assert pending[0..] == pending;
      for i := 0 to |pending|
        invariant goal == After(posted, delivered, FlushMessages(View(), pending[i..], w))
      {
        var id := pending[i].id;
        assert pending[i..][0].id == id && pending[i..][1..] == pending[i + 1..];
        ghost var q, before := View(), posted;
        var ok := PatchStatus(id, InFlight, w.clock(id, Claiming), w.io(id, Claiming));
        assert (View(), ok) == Claim(q, id, w);
        if !ok {
          NothingAfter(posted, delivered, View());
          return;
        }
        ghost var claimed := View();
        posted := posted + [id];
        ok := SettleOne(id, w);
        if w.post(id).Some? || !ok {
          assert After(before, delivered, Flushed(View(), [id], 0)) == Flushed(View(), posted, delivered);
          return;
        }
        AfterTwice(before, delivered, [id], 1, FlushMessages(View(), pending[i + 1..], w));
        delivered := delivered + 1;
      }
      NothingAfter(posted, delivered, View());
    }

    /** Records how the delivery of `id` ended. */
    method SettleOne(id: string, w: World) returns (ok: bool)
      modifies `messages, `disk, `history
      ensures (View(), ok) == Settle(old(View()), id, w)
    {
      var failure := w.post(id);
      if failure.Some? {
        ok := PatchFailure(id, failure.value, w.clock(id, Settling), w.io(id, Settling));
      } else {
        ok := PatchStatus(id, Delivered, w.clock(id, Settling), w.io(id, Settling));
      }
    }
  }
}
