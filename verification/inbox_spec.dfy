/** The controller's inbox on values: items per device under absolute indices, and the capacity accounts. */
module InboxSpec {
  import opened Wrappers

  const DEFAULT_TTL_MS := 7 * 24 * 60 * 60 * 1000
  const MAX_INBOX_BYTES := 64 * 1024 * 1024
  const MAX_DEVICE_INBOX_BYTES := 32 * 1024 * 1024
  const MAX_INBOX_ITEMS := 4096
  const MAX_DEVICE_INBOX_ITEMS := 2048

  datatype Item = Item(id: string, ts: int, sender: string, envelope: string, expiresAt: int)

  datatype Incoming = Incoming(id: string, ts: int, sender: string, envelope: string, ttlMs: Option<int>)

  datatype Device = Device(baseIndex: nat, bytes: int, items: seq<Item>)

  datatype Inbox = Inbox(devices: map<string, Device>, bytes: int, count: int)

  const NoDevice := Device(0, 0, [])

  function DeviceOf(inbox: Inbox, deviceId: string): Device {
    if deviceId in inbox.devices then inbox.devices[deviceId] else NoDevice
  }

  function Utf8Length(s: string): nat {
    if s == [] then 0
    else
      Utf8Length(s[1..])
      + if s[0] as int < 0x80 then 1 else if s[0] as int < 0x800 then 2 else if s[0] as int < 0x10000 then 3 else 4
  }

  function ItemBytes(item: Item): (bytes: nat)
    ensures bytes >= 32
  {
    Utf8Length(item.id) + Utf8Length(item.sender) + Utf8Length(item.envelope) + 32
  }

  function BytesOf(items: seq<Item>): nat {
    if items == [] then 0 else BytesOf(items[..|items| - 1]) + ItemBytes(items[|items| - 1])
  }

  function Entry(item: Incoming): Item {
    Item(item.id, item.ts, item.sender, item.envelope, item.ts + if item.ttlMs.Some? then item.ttlMs.value else DEFAULT_TTL_MS)
  }

  predicate Holds(d: Device, id: string) {
    exists i :: 0 <= i < |d.items| && d.items[i].id == id
  }

  predicate HasRoom(inbox: Inbox, d: Device, bytes: int) {
    !(|| inbox.count >= MAX_INBOX_ITEMS || |d.items| >= MAX_DEVICE_INBOX_ITEMS
      || inbox.bytes + bytes > MAX_INBOX_BYTES || d.bytes + bytes > MAX_DEVICE_INBOX_BYTES)
  }

  function EnqueueSpec(inbox: Inbox, deviceId: string, item: Incoming): (Inbox, bool) {
    var entry := Entry(item);
    var d := DeviceOf(inbox, deviceId);
    if Holds(d, item.id) then (inbox, true)
    else if !HasRoom(inbox, d, ItemBytes(entry)) then (inbox, false)
    else
      var d' := Device(d.baseIndex, d.bytes + ItemBytes(entry), d.items + [entry]);
      (Inbox(inbox.devices[deviceId := d'], inbox.bytes + ItemBytes(entry), inbox.count + 1), true)
  }

  /** Removes the first `n` items of a device; the rest keep their absolute indices. No clamping. */
  function Removed(d: Device, n: nat): Device
    requires n <= |d.items|
  {
    Device(d.baseIndex + n, d.bytes - BytesOf(d.items[..n]), d.items[n..])
  }

  function RemoveSpec(inbox: Inbox, deviceId: string, n: nat): Inbox
    requires deviceId in inbox.devices && n <= |inbox.devices[deviceId].items|
  {
    var d := inbox.devices[deviceId];
    Inbox(inbox.devices[deviceId := Removed(d, n)], inbox.bytes - BytesOf(d.items[..n]), inbox.count - n)
  }

  // ---- the poll ----

  /** The `after` parameter: absent, or its text and the number parsed from it, if any. */
  datatype After = NoAfter | AfterText(text: string, parsed: Option<int>)

  datatype NextAfter = Cursor(index: int) | Echo(after: After)

  datatype Page = Page(items: seq<Item>, nextAfter: NextAfter)

  function AfterIndex(after: After): Option<int> {
    match after
    case NoAfter => Some(-1)
    case AfterText(text, parsed) => if text == "" then Some(-1) else parsed
  }

  /** `limit` is the number parsed from the parameter, if there is one. */
  function Limit(limit: Option<int>): (n: nat)
    ensures 1 <= n <= 50
  {
    if limit.None? then 50 else if limit.value < 1 then 1 else if limit.value > 50 then 50 else limit.value
  }

  /** How many items a cursor acknowledges. */
  function Acknowledged(d: Device, after: After): (n: nat)
    ensures n <= |d.items|
  {
    var index := AfterIndex(after);
    if index.Some? && index.value >= d.baseIndex then
      if |d.items| < index.value - d.baseIndex + 1 then |d.items| else index.value - d.baseIndex + 1
    else 0
  }

  function PageOf(d: Device, after: After, limit: Option<int>): Page {
    var items := if |d.items| < Limit(limit) then d.items else d.items[..Limit(limit)];
    Page(items, if |items| > 0 then Cursor(d.baseIndex + |items| - 1) else Echo(after))
  }

  function PollSpec(inbox: Inbox, deviceId: string, after: After, limit: Option<int>): (Inbox, Result<Page>) {
    if deviceId == "" then (inbox, Err("missing-device"))
    else
      var n := Acknowledged(DeviceOf(inbox, deviceId), after);
      var inbox' := if n == 0 then inbox else RemoveSpec(inbox, deviceId, n);
      (inbox', Ok(PageOf(DeviceOf(inbox', deviceId), after, limit)))
  }

  // ---- cleanup ----

  /** The number of leading items that have expired; later ones behind a live item are kept. */
  function ExpiredPrefix(items: seq<Item>, now: int): (n: nat)
    ensures n <= |items|
    ensures forall i | 0 <= i < n :: items[i].expiresAt <= now
    ensures n < |items| ==> items[n].expiresAt > now
  {
    if items == [] || items[0].expiresAt > now then 0 else 1 + ExpiredPrefix(items[1..], now)
  }

  predicate Drained(d: Device, now: int) {
    ExpiredPrefix(d.items, now) == |d.items|
  }

  /** What cleanup does to the devices: drained entries go, others lose their expired prefix. */
  function CleanedDevices(devices: map<string, Device>, now: int): map<string, Device> {
    map id | id in devices && !Drained(devices[id], now) :: Removed(devices[id], ExpiredPrefix(devices[id].items, now))
  }

  /** A sweep under way: the devices in `left` are still to be cleaned. */
  ghost function Partly(devices: map<string, Device>, left: set<string>, now: int): map<string, Device> {
    map id | id in devices && (id in left || !Drained(devices[id], now)) ::
      if id in left then devices[id] else Removed(devices[id], ExpiredPrefix(devices[id].items, now))
  }

  lemma PartlyStep(devices: map<string, Device>, left: set<string>, id: string, now: int)
    requires id in left && id in devices
    ensures Partly(devices, left - {id}, now)
         == if Drained(devices[id], now) then Partly(devices, left, now) - {id}
            else Partly(devices, left, now)[id := Removed(devices[id], ExpiredPrefix(devices[id].items, now))]
  {}

  lemma PartlyEnds(devices: map<string, Device>, now: int)
    ensures Partly(devices, devices.Keys, now) == devices
    ensures Partly(devices, {}, now) == CleanedDevices(devices, now)
  {}

  // ---- sums over devices ----

  ghost function Sum(devices: map<string, Device>, f: Device -> int): int
    decreases |devices|
  {
    if devices == map[] then 0
    else f(devices[AnyKey(devices)]) + Sum(devices - {AnyKey(devices)}, f)
  }

  lemma {:induction false} SumWithout(devices: map<string, Device>, f: Device -> int, id: string)
    requires id in devices
    ensures Sum(devices, f) == f(devices[id]) + Sum(devices - {id}, f)
    decreases |devices|
  {
    var any := AnyKey(devices);
    if any != id {
      SumWithout(devices - {any}, f, id);
      SumWithout(devices - {id}, f, any);
      assert devices - {any} - {id} == devices - {id} - {any};
    }
  }

  lemma SumWith(devices: map<string, Device>, f: Device -> int, id: string, d: Device)
    ensures Sum(devices[id := d], f) == Sum(devices, f) + f(d) - if id in devices then f(devices[id]) else 0
  {
    SumWithout(devices[id := d], f, id);
    assert devices[id := d] - {id} == devices - {id};
    if id in devices {
      SumWithout(devices, f, id);
    } else {
      assert devices - {id} == devices;
    }
  }

  const Bytes: Device -> int := (d: Device) => d.bytes
  const Count: Device -> int := (d: Device) => |d.items|

  // ---- the accounts ----

  ghost predicate DistinctItems(items: seq<Item>) {
    forall i, j | 0 <= i < j < |items| :: items[i].id != items[j].id
  }

  ghost predicate DeviceOk(d: Device) {
    && d.bytes == BytesOf(d.items) <= MAX_DEVICE_INBOX_BYTES
    && |d.items| <= MAX_DEVICE_INBOX_ITEMS
    && DistinctItems(d.items)
  }

  /** Every account agrees with what is stored, and every cap holds. */
  ghost predicate Inv(inbox: Inbox) {
    && (forall id | id in inbox.devices :: DeviceOk(inbox.devices[id]))
    && inbox.bytes == Sum(inbox.devices, Bytes) <= MAX_INBOX_BYTES
    && inbox.count == Sum(inbox.devices, Count) <= MAX_INBOX_ITEMS
  }

  lemma {:induction false} BytesSplit(items: seq<Item>, n: nat)
    requires n <= |items|
    ensures BytesOf(items) == BytesOf(items[..n]) + BytesOf(items[n..])
  {
    if n < |items| {
      var front := items[..|items| - 1];
      BytesSplit(front, n);
      assert front[..n] == items[..n];
      assert items[n..][..|items| - n - 1] == items[n..|items| - 1] == front[n..];
      assert items[n..][|items| - n - 1] == items[|items| - 1];
    } else {
      assert items[..n] == items;
    }
  }

  lemma {:induction false} SumIsNonnegative(devices: map<string, Device>)
    requires forall id | id in devices :: DeviceOk(devices[id])
    ensures Sum(devices, Bytes) >= 0 && Sum(devices, Count) >= 0
    decreases |devices|
  {
    if devices != map[] { SumIsNonnegative(devices - {AnyKey(devices)}); }
  }

  lemma DeviceGrows(d: Device, entry: Item)
    requires DeviceOk(d) && !Holds(d, entry.id)
    requires |d.items| < MAX_DEVICE_INBOX_ITEMS && d.bytes + ItemBytes(entry) <= MAX_DEVICE_INBOX_BYTES
    ensures DeviceOk(Device(d.baseIndex, d.bytes + ItemBytes(entry), d.items + [entry]))
  {
    assert (d.items + [entry])[..|d.items|] == d.items;
  }

  lemma EnqueueKeeps(inbox: Inbox, deviceId: string, item: Incoming)
    requires Inv(inbox)
    ensures Inv(EnqueueSpec(inbox, deviceId, item).0)
    ensures !EnqueueSpec(inbox, deviceId, item).1 ==> EnqueueSpec(inbox, deviceId, item).0 == inbox
  {
    var entry := Entry(item);
    var d := DeviceOf(inbox, deviceId);
    if !Holds(d, item.id) && HasRoom(inbox, d, ItemBytes(entry)) {
      DeviceGrows(d, entry);
      DeviceChanges(inbox, deviceId, Device(d.baseIndex, d.bytes + ItemBytes(entry), d.items + [entry]));
    }
  }

  /** One device changes, and the totals change with it. */
  lemma DeviceChanges(inbox: Inbox, deviceId: string, d': Device)
    requires Inv(inbox) && DeviceOk(d')
    requires var d := DeviceOf(inbox, deviceId);
             inbox.bytes + d'.bytes - d.bytes <= MAX_INBOX_BYTES && inbox.count + |d'.items| - |d.items| <= MAX_INBOX_ITEMS
    ensures var d := DeviceOf(inbox, deviceId);
            Inv(Inbox(inbox.devices[deviceId := d'], inbox.bytes + d'.bytes - d.bytes, inbox.count + |d'.items| - |d.items|))
  {
    SumWith(inbox.devices, Bytes, deviceId, d');
    SumWith(inbox.devices, Count, deviceId, d');
  }

  /** Removing a prefix keeps the accounts; they never go below zero, so no clamp is ever needed. */
  lemma RemoveKeeps(inbox: Inbox, deviceId: string, n: nat)
    requires Inv(inbox) && deviceId in inbox.devices && n <= |inbox.devices[deviceId].items|
    ensures var after := RemoveSpec(inbox, deviceId, n);
            && Inv(after)
            && after.devices[deviceId].bytes >= 0 && after.bytes >= 0 && after.count >= 0
  {
    var d := inbox.devices[deviceId];
    BytesSplit(d.items, n);
    SumWith(inbox.devices, Bytes, deviceId, Removed(d, n));
    SumWith(inbox.devices, Count, deviceId, Removed(d, n));
    SumIsNonnegative(RemoveSpec(inbox, deviceId, n).devices);
  }

  lemma PollKeeps(inbox: Inbox, deviceId: string, after: After, limit: Option<int>)
    requires Inv(inbox)
    ensures Inv(PollSpec(inbox, deviceId, after, limit).0)
  {
    var n := Acknowledged(DeviceOf(inbox, deviceId), after);
    if deviceId != "" && n > 0 { RemoveKeeps(inbox, deviceId, n); }
  }

  /** Cleanup, with the accounts summed afresh. */
  ghost function CleanupSpec(inbox: Inbox, now: int): Inbox {
    var devices := CleanedDevices(inbox.devices, now);
    Inbox(devices, Sum(devices, Bytes), Sum(devices, Count))
  }

  lemma {:induction false} SumShrinks(a: map<string, Device>, b: map<string, Device>, f: Device -> int)
    requires b.Keys <= a.Keys
    requires forall id | id in a :: f(a[id]) >= 0
    requires forall id | id in b :: f(b[id]) <= f(a[id])
    ensures Sum(b, f) <= Sum(a, f)
    decreases |a|
  {
    if a != map[] {
      var id := AnyKey(a);
      SumShrinks(a - {id}, b - {id}, f);
      if id in b {
        SumWithout(b, f, id);
      } else {
        assert b - {id} == b;
      }
    } else {
      assert b == map[];
    }
  }

  lemma CleanupKeeps(inbox: Inbox, now: int)
    requires Inv(inbox)
    ensures Inv(CleanupSpec(inbox, now))
  {
    var devices := CleanedDevices(inbox.devices, now);
    forall id | id in devices ensures DeviceOk(devices[id]) && devices[id].bytes <= inbox.devices[id].bytes {
      BytesSplit(inbox.devices[id].items, ExpiredPrefix(inbox.devices[id].items, now));
    }
    SumShrinks(inbox.devices, devices, Bytes);
    SumShrinks(inbox.devices, devices, Count);
  }

  datatype Op =
    | Enqueue(deviceId: string, item: Incoming)
    | Poll(deviceId: string, after: After, limit: Option<int>)
    | Cleanup(now: int)

  ghost function Perform(inbox: Inbox, op: Op): Inbox {
    match op
    case Enqueue(deviceId, item) => EnqueueSpec(inbox, deviceId, item).0
    case Poll(deviceId, after, limit) => PollSpec(inbox, deviceId, after, limit).0
    case Cleanup(now) => CleanupSpec(inbox, now)
  }

  ghost function RunOf(inbox: Inbox, ops: seq<Op>): Inbox
    decreases |ops|
  {
    if ops == [] then inbox else RunOf(Perform(inbox, ops[0]), ops[1..])
  }

  /** No run, from the empty inbox or any other sound one, breaks the accounts or the caps. */
  lemma {:induction false} RunKeepsAccounts(inbox: Inbox, ops: seq<Op>)
    requires Inv(inbox)
    ensures Inv(RunOf(inbox, ops))
    decreases |ops|
  {
    if ops != [] {
      match ops[0] {
        case Enqueue(deviceId, item) => EnqueueKeeps(inbox, deviceId, item);
        case Poll(deviceId, after, limit) => PollKeeps(inbox, deviceId, after, limit);
        case Cleanup(now) => CleanupKeeps(inbox, now);
      }
      RunKeepsAccounts(Perform(inbox, ops[0]), ops[1..]);
    }
  }
}
