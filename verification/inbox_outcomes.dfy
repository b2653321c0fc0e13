/** What each inbox operation answers and leaves, in the numbers and fields a caller sees. */
module InboxOutcomes {
  import opened Wrappers
  import opened InboxSpec

  // ---- sizes ----

  lemma {:induction false} Utf8Adds(a: string, b: string)
    ensures Utf8Length(a + b) == Utf8Length(a) + Utf8Length(b)
  {
    if a != [] {
      Utf8Adds(a[1..], b);
      assert (a + b)[1..] == a[1..] + b;
    } else {
      assert a + b == b;
    }
  }

  /** The bytes of one character: one below U+0080, two below U+0800, three below U+10000, four above. */
  lemma Utf8OfOne(c: char)
    ensures Utf8Length([c]) == if c as int <= 0x7F then 1 else if c as int <= 0x7FF then 2 else if c as int <= 0xFFFF then 3 else 4
  {
    assert [c][1..] == [];
  }

  /** What an item is charged: its three texts, and 32 bytes for the rest. */
  function Charge(item: Incoming): nat {
    Utf8Length(item.id) + Utf8Length(item.sender) + Utf8Length(item.envelope) + 32
  }

  /** An item with this id waits for the device. */
  ghost predicate IsWaiting(inbox: Inbox, deviceId: string, id: string) {
    deviceId in inbox.devices && exists item :: item in inbox.devices[deviceId].items && item.id == id
  }

  /** 4096 items and 64 MiB in all, 2048 items and 32 MiB for the device: the item fits within each. */
  predicate Fits(inbox: Inbox, deviceId: string, item: Incoming) {
    var items, bytes := |DeviceOf(inbox, deviceId).items|, DeviceOf(inbox, deviceId).bytes;
    && inbox.count + 1 <= 4096 && items + 1 <= 2048
    && inbox.bytes + Charge(item) <= 67_108_864 && bytes + Charge(item) <= 33_554_432
  }

  /** Nothing but this device's entry differs. */
  ghost predicate OnlyDevice(before: Inbox, after: Inbox, deviceId: string) {
    forall id | id != deviceId :: (id in after.devices <==> id in before.devices) && DeviceOf(after, id) == DeviceOf(before, id)
  }

  /**
   An item is accepted exactly if it waits already or fits. One that waits already
   changes nothing; another goes to the end, under the next index, and is charged
   to the device and to the whole.
   */
  lemma EnqueueOutcome(inbox: Inbox, deviceId: string, item: Incoming)
    ensures var (t, accepted) := EnqueueSpec(inbox, deviceId, item);
            && (accepted <==> IsWaiting(inbox, deviceId, item.id) || Fits(inbox, deviceId, item))
            && (!accepted || IsWaiting(inbox, deviceId, item.id) ==> t == inbox)
            && (accepted && !IsWaiting(inbox, deviceId, item.id) ==>
                  var d, d' := DeviceOf(inbox, deviceId), DeviceOf(t, deviceId);
                  && deviceId in t.devices && OnlyDevice(inbox, t, deviceId)
                  && d'.baseIndex == d.baseIndex && |d'.items| == |d.items| + 1 && d.items <= d'.items
                  && var stored := d'.items[|d.items|];
                     && stored.id == item.id && stored.ts == item.ts && stored.sender == item.sender && stored.envelope == item.envelope
                     && d'.bytes - d.bytes == t.bytes - inbox.bytes == Charge(item) && t.count == inbox.count + 1)
  {
    var d := DeviceOf(inbox, deviceId);
    if Holds(d, item.id) {
      var i :| 0 <= i < |d.items| && d.items[i].id == item.id;
      assert d.items[i] in d.items;
    }
    if IsWaiting(inbox, deviceId, item.id) {
      var x :| x in d.items && x.id == item.id;
    }
  }

  // ---- polls ----

  /** The index a poll acknowledges up to: none for an absent or empty parameter, or one that is not a number. */
  function UpToIndex(after: After): Option<int> {
    if after.AfterText? && after.text != "" then after.parsed else None
  }

  function Least(a: int, b: int): int { if a <= b then a else b }

  function Greatest(a: int, b: int): int { if a >= b then a else b }

  /** At most 50 items a page, and at least one; 50 if the caller gave no number. */
  function PageLimit(limit: Option<int>): int {
    if limit.None? then 50 else Greatest(1, Least(50, limit.value))
  }

  /** How many of the device's items a poll acknowledges: those up to the index it names. */
  function Passed(d: Device, after: After): (n: int)
    ensures 0 <= n <= |d.items|
  {
    if UpToIndex(after).None? then 0 else Least(Greatest(UpToIndex(after).value + 1 - d.baseIndex, 0), |d.items|)
  }

  /** A poll removes exactly the items up to the index it names; the others keep their indices. */
  lemma PollRemoves(inbox: Inbox, deviceId: string, after: After, limit: Option<int>)
    requires deviceId != ""
    ensures var t, n := PollSpec(inbox, deviceId, after, limit).0, Passed(DeviceOf(inbox, deviceId), after);
            && OnlyDevice(inbox, t, deviceId) && (deviceId in t.devices <==> deviceId in inbox.devices)
            && DeviceOf(t, deviceId).baseIndex == DeviceOf(inbox, deviceId).baseIndex + n
            && DeviceOf(t, deviceId).items == DeviceOf(inbox, deviceId).items[n..]
            && t.count == inbox.count - n
  {
    var d := DeviceOf(inbox, deviceId);
    assert Acknowledged(d, after) == Passed(d, after);
    assert d.items[0..] == d.items;
  }

  /**
   The page is the first of the items left, up to the limit, and its cursor the
   index of its last item, or what the client sent, if it is empty. A poll must
   name a device.
   */
  lemma PollAnswersPage(inbox: Inbox, deviceId: string, after: After, limit: Option<int>)
    ensures var (t, answer) := PollSpec(inbox, deviceId, after, limit);
            if deviceId == "" then t == inbox && answer == Err("missing-device")
            else
              var d' := DeviceOf(t, deviceId);
              && answer.Ok?
              && answer.value.items <= d'.items && |answer.value.items| == Least(PageLimit(limit), |d'.items|)
              && answer.value.nextAfter == if d'.items == [] then Echo(after) else Cursor(d'.baseIndex + |answer.value.items| - 1)
  {
    if deviceId != "" {
      var page := PageOf(DeviceOf(PollSpec(inbox, deviceId, after, limit).0, deviceId), after, limit);
      assert PollSpec(inbox, deviceId, after, limit).1 == Ok(page);
    }
  }

  // ---- cleanup ----

  /** Item `n` is the device's first that has not expired. */
  predicate FirstUnexpired(d: Device, n: nat, now: int) {
    n < |d.items| && d.items[n].expiresAt > now && forall i | 0 <= i < n :: d.items[i].expiresAt <= now
  }

  /**
   A cleanup leaves a device exactly if one of its items has not expired; then it
   keeps that item and all after it, expired or not, under their indices.
   */
  lemma CleanupOutcome(inbox: Inbox, now: int, id: string)
    ensures id in CleanupSpec(inbox, now).devices <==> id in inbox.devices && exists n: nat :: FirstUnexpired(inbox.devices[id], n, now)
    ensures forall n: nat | id in inbox.devices && FirstUnexpired(inbox.devices[id], n, now) ::
              var d, d' := inbox.devices[id], DeviceOf(CleanupSpec(inbox, now), id);
              d'.items == d.items[n..] && d'.baseIndex == d.baseIndex + n
  {
    if id in inbox.devices {
      var d := inbox.devices[id];
      var m := ExpiredPrefix(d.items, now);
      if m < |d.items| { assert FirstUnexpired(d, m, now); }
      forall n: nat | FirstUnexpired(d, n, now) ensures n == m {}
    }
  }
}
