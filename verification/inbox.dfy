/** The onion controller's inbox as it runs: a map of device states and global counters, updated in place. */
module Inbox {
  import opened Wrappers
  import Spec = InboxSpec
  import opened InboxSpec

  lemma EmptyEntryGoes(inbox: Inbox, id: string)
    requires Inv(inbox) && id in inbox.devices && inbox.devices[id].items == []
    ensures Inv(inbox.(devices := inbox.devices - {id}))
  {
    SumWithout(inbox.devices, Bytes, id);
    SumWithout(inbox.devices, Count, id);
    assert DeviceOk(inbox.devices[id]);
  }

  class Controller {
    var devices: map<string, Device>
    var inboxBytes: int
    var inboxItems: int

    function View(): Spec.Inbox
      reads this
    {
      Spec.Inbox(devices, inboxBytes, inboxItems)
    }

    ghost predicate Valid()
      reads this
    {
      Inv(View())
    }

    constructor ()
      ensures Valid() && View() == Spec.Inbox(map[], 0, 0)
    {
      devices, inboxBytes, inboxItems := map[], 0, 0;
    }

    static function Max0(x: int): int { if x < 0 then 0 else x }

    method Enqueue(deviceId: string, item: Incoming) returns (accepted: bool)
      modifies this
      ensures (View(), accepted) == EnqueueSpec(old(View()), deviceId, item)
      ensures old(Valid()) ==> Valid()
    {
      if Valid() { EnqueueKeeps(View(), deviceId, item); }
      accepted := Store(deviceId, Entry(item));
    }

    method Store(deviceId: string, entry: Item) returns (accepted: bool)
      modifies this
      ensures var d := DeviceOf(old(View()), deviceId);
              && accepted == (Holds(d, entry.id) || HasRoom(old(View()), d, ItemBytes(entry)))
              && View() == if Holds(d, entry.id) || !accepted then old(View())
                           else Spec.Inbox(old(devices)[deviceId := Device(d.baseIndex, d.bytes + ItemBytes(entry), d.items + [entry])],
                                           old(inboxBytes) + ItemBytes(entry), old(inboxItems) + 1)
    {
      var entryBytes := ItemBytes(entry);
      var state := if deviceId in devices then devices[deviceId] else NoDevice;
      if exists i :: 0 <= i < |state.items| && state.items[i].id == entry.id {
        return true;
      }
      if || inboxItems >= MAX_INBOX_ITEMS || |state.items| >= MAX_DEVICE_INBOX_ITEMS
         || inboxBytes + entryBytes > MAX_INBOX_BYTES || state.bytes + entryBytes > MAX_DEVICE_INBOX_BYTES {
        return false;
      }
      state := state.(items := state.items + [entry], bytes := state.bytes + entryBytes);
      inboxBytes := inboxBytes + entryBytes;
      inboxItems := inboxItems + 1;
      devices := devices[deviceId := state];
      return true;
    }

    /** The counters are clamped at zero; in a sound inbox the clamps never take effect. */
    method RemoveItems(deviceId: string, count: nat)
      requires Valid() && deviceId in devices && count <= |devices[deviceId].items|
      modifies this
      ensures Valid() && View() == RemoveSpec(old(View()), deviceId, count)
    {
      RemoveKeeps(View(), deviceId, count);
      Splice(deviceId, count);
    }

    method Splice(deviceId: string, count: nat)
      requires deviceId in devices && count <= |devices[deviceId].items|
      requires BytesOf(devices[deviceId].items[..count]) <= devices[deviceId].bytes
      requires BytesOf(devices[deviceId].items[..count]) <= inboxBytes && count <= inboxItems
      modifies this
      ensures View() == RemoveSpec(old(View()), deviceId, count)
    {
      var state := devices[deviceId];
      var removed := state.items[..count];
      var removedBytes := BytesOfAll(removed);
      devices := devices[deviceId := Device(state.baseIndex + |removed|, Max0(state.bytes - removedBytes), state.items[count..])];
      inboxBytes := Max0(inboxBytes - removedBytes);
      inboxItems := Max0(inboxItems - |removed|);
    }

    static method BytesOfAll(items: seq<Item>) returns (total: nat)
      ensures total == BytesOf(items)
    {
      total := 0;
      for i := 0 to |items|
        invariant total == BytesOf(items[..i])
      {
        total := total + ItemBytes(items[i]);
        assert items[..i + 1][..i] == items[..i];
      }
      assert items[..|items|] == items;
    }

    method Poll(deviceId: string, after: After, limit: Option<int>) returns (r: Result<Page>)
      requires Valid()
      modifies this
      ensures Valid() && (View(), r) == PollSpec(old(View()), deviceId, after, limit)
    {
      if deviceId == "" { return Err("missing-device"); }
      Acknowledge(deviceId, after);
      var page := FirstPage(deviceId, after, limit);
      return Ok(page);
    }

    method FirstPage(deviceId: string, after: After, limit: Option<int>) returns (page: Page)
      ensures page == PageOf(DeviceOf(View(), deviceId), after, limit)
    {
      var state := if deviceId in devices then devices[deviceId] else NoDevice;
      var items := if |state.items| < Limit(limit) then state.items else state.items[..Limit(limit)];
      return Page(items, if |items| > 0 then Cursor(state.baseIndex + |items| - 1) else Echo(after));
    }

    method Acknowledge(deviceId: string, after: After)
      requires Valid()
      modifies this
      ensures Valid()
      ensures var n := Acknowledged(DeviceOf(old(View()), deviceId), after);
              View() == if n == 0 then old(View()) else RemoveSpec(old(View()), deviceId, n)
    {
      var afterIndex := AfterIndex(after);
      var state := if deviceId in devices then devices[deviceId] else NoDevice;
      if afterIndex.Some? && afterIndex.value >= state.baseIndex {
        var count := if |state.items| < afterIndex.value - state.baseIndex + 1 then |state.items|
                     else afterIndex.value - state.baseIndex + 1;
        if count > 0 {
          RemoveItems(deviceId, count);
        }
      }
    }

    /** One device's turn in the sweep: its expired prefix goes, and its entry if nothing is left. */
    method CleanDevice(id: string, now: int)
      requires Valid() && id in devices
      modifies this
      ensures Valid()
      ensures devices == if Drained(old(devices)[id], now) then old(devices) - {id}
                         else old(devices)[id := Removed(old(devices)[id], ExpiredPrefix(old(devices)[id].items, now))]
    {
      var state := devices[id];
      ghost var before := devices;
      RemoveItems(id, ExpiredPrefix(state.items, now));
      if Drained(state, now) {
        EmptyEntryGoes(View(), id);
        devices := devices - {id};
        assert devices == before - {id};
      }
    }

    method Cleanup(now: int)
      requires Valid()
      modifies this
      ensures Valid() && View() == CleanupSpec(old(View()), now)
    {
      var left := devices.Keys;
      ghost var before := devices;
      PartlyEnds(before, now);
      while left != {}
        invariant Valid() && left <= before.Keys
        invariant devices == Partly(before, left, now)
        decreases |left|
      {
        var id :| id in left;
        PartlyStep(before, left, id, now);
        CleanDevice(id, now);
        left := left - {id};
      }
    }
  }
}
