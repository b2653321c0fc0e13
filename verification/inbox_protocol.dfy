/** One device's cursor protocol: enqueues, polls with answers that may be lost, expiry, and other devices' traffic. */
module InboxProtocol {
  import opened Wrappers
  import opened InboxSpec

  /**
   The inbox and its one client for device `id`, with what an observer records:
   every item ever accepted for it, in order, as it arrived and as the inbox
   stored it; which indices cleanup removed and
   when; and what the client has seen, with the index it saw it under.
   */
  datatype World = World(
    inbox: Inbox,
    id: string,
    arrivals: seq<Incoming>,
    accepted: seq<Item>,
    dropped: map<nat, int>,
    cursor: Option<nat>,
    seen: seq<(nat, Item)>)

  datatype Event =
    | Arrives(deviceId: string, item: Incoming)
    | Polls(limit: Option<int>, lost: bool)
    | OtherPolls(deviceId: string, after: After, limit: Option<int>)
    | Cleans(now: int)

  /** The client sends back the cursor it was last given. */
  function AfterOf(cursor: Option<nat>, text: string): After {
    match cursor
    case None => NoAfter
    case Some(index) => AfterText(text, Some(index))
  }

  predicate Grew(before: Inbox, after: Inbox, id: string) {
    |DeviceOf(after, id).items| > |DeviceOf(before, id).items|
  }

  function Pairs(base: nat, items: seq<Item>): (pairs: seq<(nat, Item)>)
    ensures |pairs| == |items|
    ensures forall k | 0 <= k < |pairs| :: pairs[k] == (base + k, items[k])
  {
    seq(|items|, k requires 0 <= k < |items| => (base + k, items[k]))
  }

  /** Cleanup at `now` removes the item of `d` under absolute index `i`. */
  predicate Expires(d: Device, i: nat, now: int) {
    d.baseIndex <= i < d.baseIndex + ExpiredPrefix(d.items, now)
  }

  function DroppedBy(d: Device, now: int): map<nat, int> {
    map i: nat | i < d.baseIndex + |d.items| && Expires(d, i, now) :: now
  }

  /** `cursorText` is the cursor as the client wrote it: any non-empty text that parses to the cursor. */
  ghost function Next(w: World, e: Event, cursorText: string): World {
    match e
    case Arrives(deviceId, item) =>
      var inbox := EnqueueSpec(w.inbox, deviceId, item).0;
      if Grew(w.inbox, inbox, w.id) then w.(inbox := inbox, arrivals := w.arrivals + [item], accepted := w.accepted + [Entry(item)])
      else w.(inbox := inbox)
    case Polls(limit, lost) =>
      var (inbox, answer) := PollSpec(w.inbox, w.id, AfterOf(w.cursor, cursorText), limit);
      if lost || answer.Err? then w.(inbox := inbox)
      else
        var page := answer.value;
        w.(inbox := inbox, seen := w.seen + Pairs(DeviceOf(inbox, w.id).baseIndex, page.items),
        cursor := if page.nextAfter.Cursor? && page.nextAfter.index >= 0 then Some(page.nextAfter.index) else w.cursor)
    case OtherPolls(deviceId, after, limit) =>
      if deviceId == w.id then w else w.(inbox := PollSpec(w.inbox, deviceId, after, limit).0)
    case Cleans(now) =>
      w.(inbox := CleanupSpec(w.inbox, now), dropped := w.dropped + DroppedBy(DeviceOf(w.inbox, w.id), now))
  }

  // ---- the invariant ----

  ghost predicate SawIndex(seen: seq<(nat, Item)>, i: nat) {
    exists k :: 0 <= k < |seen| && seen[k].0 == i
  }

  /** Indices in increasing order up to the cursor, each seen with the item accepted under it. */
  ghost predicate InOrder(seen: seq<(nat, Item)>, cursor: Option<nat>, accepted: seq<Item>) {
    && (forall j, k | 0 <= j < k < |seen| :: seen[j].0 < seen[k].0)
    && (forall k | 0 <= k < |seen| :: seen[k].0 < |accepted| && seen[k].1 == accepted[seen[k].0])
    && (seen != [] ==> cursor.Some? && seen[|seen| - 1].0 <= cursor.value)
  }

  /** Cleanup removed `i` after it had expired. */
  predicate DroppedExpired(dropped: map<nat, int>, accepted: seq<Item>, i: nat) {
    i in dropped && i < |accepted| && accepted[i].expiresAt <= dropped[i]
  }

  predicate UpTo(cursor: Option<nat>, i: nat) {
    cursor.Some? && i <= cursor.value
  }

  /** The device's state carries on the record of what was accepted for it. */
  ghost predicate Continues(inbox: Inbox, id: string, accepted: seq<Item>) {
    var d := DeviceOf(inbox, id);
    && |accepted| == d.baseIndex + |d.items| && d.items == accepted[d.baseIndex..]
    && (id in inbox.devices <==> accepted != [])
  }

  /** Everything below `base` was removed by the cursor or had expired. */
  ghost predicate Accounted(base: nat, w: World) {
    && (forall i | i in w.dropped :: i < base && DroppedExpired(w.dropped, w.accepted, i))
    && (forall i: nat | i < base :: i in w.dropped || UpTo(w.cursor, i))
  }

  ghost predicate Inv(w: World) {
    && w.id != ""
    && Continues(w.inbox, w.id, w.accepted)
    && (w.cursor.Some? ==> w.cursor.value < |w.accepted|)
    && InOrder(w.seen, w.cursor, w.accepted)
    && Accounted(DeviceOf(w.inbox, w.id).baseIndex, w)
    && (forall i: nat | UpTo(w.cursor, i) :: SawIndex(w.seen, i) || i in w.dropped)
  }

  lemma AcceptedIsAppended(inbox: Inbox, id: string, deviceId: string, item: Incoming)
    ensures var after := EnqueueSpec(inbox, deviceId, item).0;
            if Grew(inbox, after, id)
            then id in after.devices
                 && DeviceOf(after, id).baseIndex == DeviceOf(inbox, id).baseIndex
                 && DeviceOf(after, id).items == DeviceOf(inbox, id).items + [Entry(item)]
            else DeviceOf(after, id) == DeviceOf(inbox, id) && (id in after.devices <==> id in inbox.devices)
  {}

  lemma AcceptedContinues(before: Inbox, after: Inbox, id: string, accepted: seq<Item>, entry: Item)
    requires Continues(before, id, accepted) && id in after.devices
    requires DeviceOf(after, id).baseIndex == DeviceOf(before, id).baseIndex
    requires DeviceOf(after, id).items == DeviceOf(before, id).items + [entry]
    ensures Continues(after, id, accepted + [entry])
  {
    var base := DeviceOf(before, id).baseIndex;
    assert (accepted + [entry])[base..] == accepted[base..] + [entry];
  }

  lemma ArrivesKeeps(w: World, deviceId: string, item: Incoming, text: string)
    requires Inv(w)
    ensures Inv(Next(w, Arrives(deviceId, item), text))
  {
    var t := Next(w, Arrives(deviceId, item), text);
    AcceptedIsAppended(w.inbox, w.id, deviceId, item);
    if Grew(w.inbox, t.inbox, w.id) {
      AcceptedContinues(w.inbox, t.inbox, w.id, w.accepted, Entry(item));
      RecordGrows(w, t.inbox, item);
    } else {
      SameDeviceKeeps(w, t.inbox);
    }
  }

  lemma RecordGrows(w: World, inbox: Inbox, item: Incoming)
    requires Inv(w) && Continues(inbox, w.id, w.accepted + [Entry(item)])
    requires DeviceOf(inbox, w.id).baseIndex == DeviceOf(w.inbox, w.id).baseIndex
    ensures Inv(w.(inbox := inbox, arrivals := w.arrivals + [item], accepted := w.accepted + [Entry(item)]))
  {
    forall i | i in w.dropped ensures DroppedExpired(w.dropped, w.accepted + [Entry(item)], i) {
      assert DroppedExpired(w.dropped, w.accepted, i);
    }
  }

  /** Acknowledging the cursor removes only what the client is past. */
  lemma AcknowledgeKeeps(w: World, n: nat)
    requires Inv(w) && w.cursor.Some? && w.id in w.inbox.devices
    requires n <= |DeviceOf(w.inbox, w.id).items|
    requires DeviceOf(w.inbox, w.id).baseIndex + n <= w.cursor.value + 1
    ensures Inv(w.(inbox := RemoveSpec(w.inbox, w.id, n)))
  {}

  lemma PairsFollow(seen: seq<(nat, Item)>, cursor: Option<nat>, accepted: seq<Item>, base: nat, n: nat, items: seq<Item>)
    requires InOrder(seen, cursor, accepted) && base + n <= |accepted| && n > 0
    requires items == accepted[base..base + n]
    requires cursor.Some? ==> cursor.value < base
    ensures InOrder(seen + Pairs(base, items), Some(base + n - 1), accepted)
  {
    var more := seen + Pairs(base, items);
    forall j, k | 0 <= j < k < |more| ensures more[j].0 < more[k].0 {
      if j < |seen| <= k {
        assert seen[j].0 <= seen[|seen| - 1].0 < base;
      }
    }
  }

  lemma SeenAndMore(seen: seq<(nat, Item)>, base: nat, items: seq<Item>)
    ensures forall i: nat | SawIndex(seen, i) :: SawIndex(seen + Pairs(base, items), i)
    ensures forall i: nat | base <= i < base + |items| :: SawIndex(seen + Pairs(base, items), i)
  {
    var more := seen + Pairs(base, items);
    forall i: nat | SawIndex(seen, i) ensures SawIndex(more, i) {
      var k :| 0 <= k < |seen| && seen[k].0 == i;
      assert more[k].0 == i;
    }
    forall i: nat | base <= i < base + |items| ensures SawIndex(more, i) {
      assert more[|seen| + i - base].0 == i;
    }
  }

  lemma PageIsAccepted(w: World, n: nat)
    requires Continues(w.inbox, w.id, w.accepted) && n <= |DeviceOf(w.inbox, w.id).items|
    ensures var d := DeviceOf(w.inbox, w.id);
            d.baseIndex + n <= |w.accepted| && d.items[..n] == w.accepted[d.baseIndex..d.baseIndex + n]
  {}

  /** A page starts right after the cursor, or where expiry has moved the inbox to. */
  lemma PageFollows(w: World, n: nat)
    requires Continues(w.inbox, w.id, w.accepted) && InOrder(w.seen, w.cursor, w.accepted)
    requires 0 < n <= |DeviceOf(w.inbox, w.id).items|
    requires w.cursor.Some? ==> w.cursor.value < DeviceOf(w.inbox, w.id).baseIndex
    ensures var d := DeviceOf(w.inbox, w.id);
            var seen := w.seen + Pairs(d.baseIndex, d.items[..n]);
            && InOrder(seen, Some(d.baseIndex + n - 1), w.accepted)
            && d.baseIndex + n <= |w.accepted|
  {
    var d := DeviceOf(w.inbox, w.id);
    PageIsAccepted(w, n);
    PairsFollow(w.seen, w.cursor, w.accepted, d.baseIndex, n, d.items[..n]);
  }

  lemma PageIsSeen(w: World, n: nat)
    requires Inv(w) && n <= |DeviceOf(w.inbox, w.id).items|
    ensures var d := DeviceOf(w.inbox, w.id);
            var seen := w.seen + Pairs(d.baseIndex, d.items[..n]);
            forall i: nat | i < d.baseIndex + n :: SawIndex(seen, i) || i in w.dropped
  {
    var d := DeviceOf(w.inbox, w.id);
    SeenAndMore(w.seen, d.baseIndex, d.items[..n]);
    PassedIsSeen(w, w.seen + Pairs(d.baseIndex, d.items[..n]), n);
  }

  lemma PageKeeps(w: World, n: nat)
    requires Inv(w)
    requires 0 < n <= |DeviceOf(w.inbox, w.id).items|
    requires w.cursor.Some? ==> w.cursor.value < DeviceOf(w.inbox, w.id).baseIndex
    ensures var d := DeviceOf(w.inbox, w.id);
            Inv(w.(seen := w.seen + Pairs(d.baseIndex, d.items[..n]), cursor := Some(d.baseIndex + n - 1)))
  {
    var d := DeviceOf(w.inbox, w.id);
    PageFollows(w, n);
    PageIsSeen(w, n);
    SeenKeeps(w, w.seen + Pairs(d.baseIndex, d.items[..n]), d.baseIndex + n - 1);
  }

  lemma PassedIsSeen(w: World, seen: seq<(nat, Item)>, n: nat)
    requires Inv(w)
    requires forall i: nat | SawIndex(w.seen, i) :: SawIndex(seen, i)
    requires var base := DeviceOf(w.inbox, w.id).baseIndex; forall i: nat | base <= i < base + n :: SawIndex(seen, i)
    ensures forall i: nat | i < DeviceOf(w.inbox, w.id).baseIndex + n :: SawIndex(seen, i) || i in w.dropped
  {
    forall i: nat | i < DeviceOf(w.inbox, w.id).baseIndex && i !in w.dropped ensures SawIndex(seen, i) {
      assert UpTo(w.cursor, i);
      assert SawIndex(w.seen, i);
    }
  }

  lemma SeenKeeps(w: World, seen: seq<(nat, Item)>, cursor: nat)
    requires Inv(w) && cursor < |w.accepted|
    requires w.cursor.Some? ==> w.cursor.value <= cursor
    requires InOrder(seen, Some(cursor), w.accepted)
    requires forall i: nat | i <= cursor :: SawIndex(seen, i) || i in w.dropped
    ensures Inv(w.(seen := seen, cursor := Some(cursor)))
  {}

  /** The inbox once the client's cursor has been acknowledged. */
  ghost function Acked(w: World, text: string): World {
    var n := Acknowledged(DeviceOf(w.inbox, w.id), AfterOf(w.cursor, text));
    if n == 0 then w else w.(inbox := RemoveSpec(w.inbox, w.id, n))
  }

  lemma AckedKeeps(w: World, text: string)
    requires Inv(w) && text != ""
    ensures Inv(Acked(w, text))
    ensures w.cursor.Some? ==> w.cursor.value < DeviceOf(Acked(w, text).inbox, w.id).baseIndex
  {
    var n := Acknowledged(DeviceOf(w.inbox, w.id), AfterOf(w.cursor, text));
    if n > 0 { AcknowledgeKeeps(w, n); }
  }

  /** `w` with the first `n` waiting items seen. */
  ghost function SeenPage(w: World, n: nat): World
    requires n <= |DeviceOf(w.inbox, w.id).items|
  {
    var d := DeviceOf(w.inbox, w.id);
    if n == 0 then w
    else w.(seen := w.seen + Pairs(d.baseIndex, d.items[..n]), cursor := Some(d.baseIndex + n - 1))
  }

  lemma PollAnswers(w: World, limit: Option<int>, text: string)
    requires w.id != ""
    ensures PollSpec(w.inbox, w.id, AfterOf(w.cursor, text), limit)
         == (Acked(w, text).inbox, Ok(PageOf(DeviceOf(Acked(w, text).inbox, w.id), AfterOf(w.cursor, text), limit)))
  {}

  lemma SeesPage(w: World, after: After, limit: Option<int>, n: nat)
    requires n == |PageOf(DeviceOf(w.inbox, w.id), after, limit).items|
    ensures var d := DeviceOf(w.inbox, w.id);
            var page := PageOf(d, after, limit);
            && n <= |d.items|
            && SeenPage(w, n)
               == w.(seen := w.seen + Pairs(d.baseIndex, page.items),
                     cursor := if page.nextAfter.Cursor? && page.nextAfter.index >= 0 then Some(page.nextAfter.index) else w.cursor)
  {
    var d := DeviceOf(w.inbox, w.id);
    var page := PageOf(d, after, limit);
    assert page.items == d.items[..n];
    if n == 0 { assert w.seen + Pairs(d.baseIndex, page.items) == w.seen; }
  }

  /** What one poll does, spelled out: acknowledge, and if the answer arrives, see the page. */
  lemma PollUnfolds(w: World, limit: Option<int>, lost: bool, text: string) returns (n: nat)
    requires w.id != ""
    ensures var waiting := |DeviceOf(Acked(w, text).inbox, w.id).items|; n == if waiting < Limit(limit) then waiting else Limit(limit)
    ensures Next(w, Polls(limit, lost), text) == if lost then Acked(w, text) else SeenPage(Acked(w, text), n)
  {
    var acked := Acked(w, text);
    PollAnswers(w, limit, text);
    n := |PageOf(DeviceOf(acked.inbox, w.id), AfterOf(w.cursor, text), limit).items|;
    SeesPage(acked, AfterOf(w.cursor, text), limit, n);
  }

  lemma SeenPageKeeps(w: World, n: nat)
    requires Inv(w) && n <= |DeviceOf(w.inbox, w.id).items|
    requires w.cursor.Some? ==> w.cursor.value < DeviceOf(w.inbox, w.id).baseIndex
    ensures Inv(SeenPage(w, n)) && w.seen <= SeenPage(w, n).seen
  {
    if n > 0 { PageKeeps(w, n); }
  }

  lemma PollsKeeps(w: World, limit: Option<int>, lost: bool, text: string)
    requires Inv(w) && text != ""
    ensures Inv(Next(w, Polls(limit, lost), text))
    ensures w.seen <= Next(w, Polls(limit, lost), text).seen
  {
    AckedKeeps(w, text);
    var n := PollUnfolds(w, limit, lost, text);
    SeenPageKeeps(Acked(w, text), n);
  }

  lemma OtherDevicesUntouched(inbox: Inbox, id: string, deviceId: string, after: After, limit: Option<int>)
    requires deviceId != id
    ensures var polled := PollSpec(inbox, deviceId, after, limit).0;
            (id in polled.devices <==> id in inbox.devices) && DeviceOf(polled, id) == DeviceOf(inbox, id)
  {}

  /** The observer's record does not depend on the rest of the inbox. */
  lemma SameDeviceKeeps(w: World, inbox: Inbox)
    requires Inv(w) && DeviceOf(inbox, w.id) == DeviceOf(w.inbox, w.id)
    requires w.id in inbox.devices <==> w.id in w.inbox.devices
    ensures Inv(w.(inbox := inbox))
  {}

  lemma OtherPollsKeeps(w: World, deviceId: string, after: After, limit: Option<int>, text: string)
    requires Inv(w)
    ensures Inv(Next(w, OtherPolls(deviceId, after, limit), text))
  {
    if deviceId != w.id {
      OtherDevicesUntouched(w.inbox, w.id, deviceId, after, limit);
      SameDeviceKeeps(w, PollSpec(w.inbox, deviceId, after, limit).0);
    }
  }

  /** Cleanup deletes the device's entry, and with it the count its indices start from. */
  predicate Forgets(w: World, e: Event) {
    e.Cleans? && w.id in w.inbox.devices && Drained(w.inbox.devices[w.id], e.now)
  }

  /** The protocol survives a cleanup exactly if the device's entry does. */
  lemma CleansKeepsIff(w: World, now: int, text: string)
    requires Inv(w)
    ensures Inv(Next(w, Cleans(now), text)) <==> !Forgets(w, Cleans(now))
  {
    var t := Next(w, Cleans(now), text);
    var d := DeviceOf(w.inbox, w.id);
    if w.id !in w.inbox.devices {
      assert w.dropped + DroppedBy(d, now) == w.dropped;
      assert w.id !in t.inbox.devices;
      SameDeviceKeeps(w, t.inbox);
    } else if !Drained(d, now) {
      PrefixExpires(w, t.inbox, now);
    }
  }

  lemma RemovedContinues(before: Inbox, after: Inbox, id: string, accepted: seq<Item>, n: nat)
    requires Continues(before, id, accepted) && id in before.devices && id in after.devices
    requires n <= |before.devices[id].items| && after.devices[id] == Removed(before.devices[id], n)
    ensures Continues(after, id, accepted)
  {
    var base := before.devices[id].baseIndex;
    assert accepted[base..][n..] == accepted[base + n..];
  }

  lemma DroppedKeeps(w: World, inbox: Inbox, dropped: map<nat, int>)
    requires Inv(w) && Continues(inbox, w.id, w.accepted) && w.dropped.Keys <= dropped.Keys
    requires Accounted(DeviceOf(inbox, w.id).baseIndex, w.(dropped := dropped))
    ensures Inv(w.(inbox := inbox, dropped := dropped))
  {}

  lemma PrefixExpires(w: World, cleaned: Inbox, now: int)
    requires Inv(w) && w.id in w.inbox.devices && w.id in cleaned.devices
    requires var d := w.inbox.devices[w.id]; cleaned.devices[w.id] == Removed(d, ExpiredPrefix(d.items, now))
    ensures Inv(w.(inbox := cleaned, dropped := w.dropped + DroppedBy(DeviceOf(w.inbox, w.id), now)))
  {
    var d := w.inbox.devices[w.id];
    RemovedContinues(w.inbox, cleaned, w.id, w.accepted, ExpiredPrefix(d.items, now));
    PrefixAccounted(w, now);
    DroppedKeeps(w, cleaned, w.dropped + DroppedBy(d, now));
  }

  lemma PrefixAccounted(w: World, now: int)
    requires Inv(w)
    ensures var d := DeviceOf(w.inbox, w.id);
            Accounted(d.baseIndex + ExpiredPrefix(d.items, now), w.(dropped := w.dropped + DroppedBy(d, now)))
  {
    var d := DeviceOf(w.inbox, w.id);
    var n := ExpiredPrefix(d.items, now);
    var dropped := w.dropped + DroppedBy(d, now);
    forall i | i in dropped ensures i < d.baseIndex + n && DroppedExpired(dropped, w.accepted, i) {
      if Expires(d, i, now) {
        assert d.items[i - d.baseIndex] == w.accepted[i];
      } else {
        assert i in w.dropped && DroppedExpired(w.dropped, w.accepted, i);
      }
    }
    forall i: nat | i < d.baseIndex + n ensures i in dropped || UpTo(w.cursor, i) {
      if i >= d.baseIndex { assert Expires(d, i, now); }
    }
  }

  // ---- runs ----

  /** A run of events, each with the text the client writes its cursor as, never forgetting the device. */
  ghost predicate Remembered(w: World, events: seq<(Event, string)>)
    decreases |events|
  {
    events == [] ||
    (&& events[0].1 != "" && !Forgets(w, events[0].0)
     && Remembered(Next(w, events[0].0, events[0].1), events[1..]))
  }

  ghost function RunOf(w: World, events: seq<(Event, string)>): World
    decreases |events|
  {
    if events == [] then w else RunOf(Next(w, events[0].0, events[0].1), events[1..])
  }

  lemma EventKeeps(w: World, e: Event, text: string)
    requires Inv(w) && text != "" && !Forgets(w, e)
    ensures Inv(Next(w, e, text))
    ensures w.accepted <= Next(w, e, text).accepted && w.seen <= Next(w, e, text).seen && Next(w, e, text).id == w.id
  {
    match e
    case Arrives(deviceId, item) => ArrivesKeeps(w, deviceId, item, text);
    case Polls(limit, lost) => PollsKeeps(w, limit, lost, text);
    case OtherPolls(deviceId, after, limit) => OtherPollsKeeps(w, deviceId, after, limit, text);
    case Cleans(now) => CleansKeepsIff(w, now, text);
  }

  lemma {:induction false} RunKeeps(w: World, events: seq<(Event, string)>)
    requires Inv(w) && Remembered(w, events)
    ensures Inv(RunOf(w, events))
    ensures w.accepted <= RunOf(w, events).accepted && w.seen <= RunOf(w, events).seen
    decreases |events|
  {
    if events != [] {
      EventKeeps(w, events[0].0, events[0].1);
      RunKeeps(Next(w, events[0].0, events[0].1), events[1..]);
    }
  }

  /** A device nobody has written to, and a client that has not polled. */
  ghost predicate Fresh(w: World) {
    && w.id != "" && w.id !in w.inbox.devices && w.arrivals == [] && w.accepted == []
    && w.dropped == map[] && w.cursor.None? && w.seen == []
  }

  /** The item is in the inbox under absolute index `i`. */
  predicate Waits(d: Device, i: nat, item: Item) {
    d.baseIndex <= i < d.baseIndex + |d.items| && d.items[i - d.baseIndex] == item
  }

  // ---- items as they were given ----

  /** When an item given with this time to live expires; seven days, if it has none. */
  function ExpiryOf(given: Incoming): int {
    given.ts + if given.ttlMs.Some? then given.ttlMs.value else 604_800_000
  }

  /** What is stored is what was given. */
  predicate IsAsGiven(stored: Item, given: Incoming) {
    && stored.id == given.id && stored.ts == given.ts
    && stored.sender == given.sender && stored.envelope == given.envelope
    && stored.expiresAt == ExpiryOf(given)
  }

  ghost predicate StoredAsGiven(w: World) {
    |w.accepted| == |w.arrivals| && forall i | 0 <= i < |w.accepted| :: IsAsGiven(w.accepted[i], w.arrivals[i])
  }

  lemma {:induction false} RunStoresAsGiven(w: World, events: seq<(Event, string)>)
    requires StoredAsGiven(w)
    ensures StoredAsGiven(RunOf(w, events))
    decreases |events|
  {
    if events != [] { RunStoresAsGiven(Next(w, events[0].0, events[0].1), events[1..]); }
  }

  /** The items seen, in order and each once, are the arrivals under their indices. */
  ghost predicate SeenAsGiven(w: World) {
    && (forall j, k | 0 <= j < k < |w.seen| :: w.seen[j].0 < w.seen[k].0)
    && forall k | 0 <= k < |w.seen| :: w.seen[k].0 < |w.arrivals| && IsAsGiven(w.seen[k].1, w.arrivals[w.seen[k].0])
  }

  /** Cleanup removed arrival `i` after it had expired. */
  predicate ExpiredFirst(w: World, i: nat) {
    i in w.dropped && i < |w.arrivals| && ExpiryOf(w.arrivals[i]) <= w.dropped[i]
  }

  /** Arrival `i` is in the inbox under its index. */
  predicate StillWaits(w: World, i: nat) {
    var d := DeviceOf(w.inbox, w.id);
    d.baseIndex <= i < d.baseIndex + |d.items| && i < |w.arrivals| && IsAsGiven(d.items[i - d.baseIndex], w.arrivals[i])
  }

  ghost predicate ExactlyOnce(w: World, i: nat)
    requires i < |w.accepted|
  {
    && InOrder(w.seen, w.cursor, w.accepted)
    && (UpTo(w.cursor, i) ==> SawIndex(w.seen, i) || DroppedExpired(w.dropped, w.accepted, i))
    && (!UpTo(w.cursor, i) ==>
          !SawIndex(w.seen, i)
          && (DroppedExpired(w.dropped, w.accepted, i) || Waits(DeviceOf(w.inbox, w.id), i, w.accepted[i])))
  }

  lemma InvMeansExactlyOnce(w: World, i: nat)
    requires Inv(w) && i < |w.accepted|
    ensures ExactlyOnce(w, i)
  {
    var d := DeviceOf(w.inbox, w.id);
    if i >= d.baseIndex {
      assert d.items[i - d.baseIndex] == w.accepted[i];
    }
    if SawIndex(w.seen, i) {
      var k :| 0 <= k < |w.seen| && w.seen[k].0 == i;
      assert w.seen[k].0 <= w.seen[|w.seen| - 1].0;
    }
  }

  lemma SeenTold(w: World)
    requires InOrder(w.seen, w.cursor, w.accepted) && StoredAsGiven(w)
    ensures SeenAsGiven(w)
  {}

  /** What is so of the item accepted under `i` is so of arrival `i`. */
  lemma ArrivalTold(w: World, i: nat)
    requires StoredAsGiven(w) && i < |w.accepted|
    ensures DroppedExpired(w.dropped, w.accepted, i) ==> ExpiredFirst(w, i)
    ensures Waits(DeviceOf(w.inbox, w.id), i, w.accepted[i]) ==> StillWaits(w, i)
  {
    assert IsAsGiven(w.accepted[i], w.arrivals[i]);
  }

  /**
   The cursor protocol, over every run that does not forget the device, told by
   what arrived: the client sees items in increasing index order, each at most
   once, with the id, time, sender and envelope it was given; every arrival up
   to its cursor that it did not see had expired when cleanup removed it; and
   every later one waits under its index, or expired the same way.
   */
  lemma CursorProtocol(w: World, events: seq<(Event, string)>, i: nat)
    requires Fresh(w) && Remembered(w, events)
    requires i < |RunOf(w, events).arrivals|
    ensures var t := RunOf(w, events);
            && Inv(t) && SeenAsGiven(t)
            && (UpTo(t.cursor, i) ==> SawIndex(t.seen, i) || ExpiredFirst(t, i))
            && (!UpTo(t.cursor, i) ==> !SawIndex(t.seen, i) && (ExpiredFirst(t, i) || StillWaits(t, i)))
  {
    assert Inv(w);
    RunKeeps(w, events);
    RunStoresAsGiven(w, events);
    var t := RunOf(w, events);
    SeenTold(t);
    InvMeansExactlyOnce(t, i);
    ArrivalTold(t, i);
  }

  /** A poll whose answer arrives brings the first waiting item the client has not seen, if there is one. */
  lemma PollAdvances(w: World, limit: Option<int>, text: string)
    requires Inv(w) && text != ""
    ensures FirstNew(w) < |w.accepted| ==>
              var t := Next(w, Polls(limit, false), text);
              |t.seen| > |w.seen| && t.seen[|w.seen|] == (FirstNew(w), w.accepted[FirstNew(w)]) && UpTo(t.cursor, FirstNew(w))
  {
    AckedKeeps(w, text);
    AckedStartsAtFirstNew(w, text);
    var n := PollUnfolds(w, limit, false, text);
    FirstOfPage(w, Acked(w, text), n);
  }

  /** The lowest index the client has not passed and expiry has not removed. */
  function FirstNew(w: World): nat {
    var base := DeviceOf(w.inbox, w.id).baseIndex;
    if w.cursor.Some? && w.cursor.value >= base then w.cursor.value + 1 else base
  }

  lemma AckedStartsAtFirstNew(w: World, text: string)
    requires Inv(w) && text != ""
    ensures DeviceOf(Acked(w, text).inbox, w.id).baseIndex == FirstNew(w)
    ensures |w.accepted| == FirstNew(w) + |DeviceOf(Acked(w, text).inbox, w.id).items|
  {}

  lemma FirstOfPage(w: World, acked: World, n: nat)
    requires Inv(acked) && n <= |DeviceOf(acked.inbox, acked.id).items|
    requires acked.seen == w.seen && acked.accepted == w.accepted
    ensures var d := DeviceOf(acked.inbox, acked.id);
            var t := SeenPage(acked, n);
            n > 0 ==> |t.seen| > |w.seen| && t.seen[|w.seen|] == (d.baseIndex, w.accepted[d.baseIndex]) && UpTo(t.cursor, d.baseIndex)
  {
    var d := DeviceOf(acked.inbox, acked.id);
    if n > 0 {
      assert d.items[..n][0] == w.accepted[d.baseIndex];
    }
  }

  // ---- a deleted entry ----

  /**
   The world to go on from after a cleanup: where the device's entry is deleted,
   numbering starts again at 0, and with it the observer's record; the client
   keeps its cursor.
   */
  ghost function Continuing(w: World, now: int, text: string): World {
    var t := Next(w, Cleans(now), text);
    if Forgets(w, Cleans(now)) then t.(arrivals := [], accepted := [], dropped := map[], seen := []) else t
  }

  /** The item accepted under `i` is gone, though never seen and not expired. */
  ghost predicate Discarded(w: World, i: nat) {
    && i < |w.accepted|
    && !SawIndex(w.seen, i)
    && !DroppedExpired(w.dropped, w.accepted, i)
    && !Waits(DeviceOf(w.inbox, w.id), i, w.accepted[i])
  }

  ghost predicate Discards(w: World, events: seq<(Event, string)>, i: nat) {
    Remembered(w, events) && Discarded(RunOf(w, events), i)
  }

  ghost predicate MayDiscard(w: World) {
    exists events, i: nat :: Discards(w, events, i)
  }

  lemma SoundNeverDiscards(w: World)
    requires Inv(w)
    ensures !MayDiscard(w)
  {
    forall events, i: nat ensures !Discards(w, events, i) {
      if Discards(w, events, i) {
        RunKeeps(w, events);
        InvMeansExactlyOnce(RunOf(w, events), i);
        assert false;
      }
    }
  }

  /**
   A cleanup can lead to an item being discarded, unseen and unexpired, exactly
   if it deletes the device's entry while the client holds a cursor. What was
   accepted before is not harmed: it had all been passed or had expired.
   */
  lemma CleanupMayDiscardIff(w: World, now: int, text: string)
    requires Inv(w)
    ensures MayDiscard(Continuing(w, now, text)) <==> Forgets(w, Cleans(now)) && w.cursor.Some?
    ensures Forgets(w, Cleans(now)) ==>
              forall i: nat | i < |w.accepted| ::
                UpTo(w.cursor, i) || DroppedExpired(Next(w, Cleans(now), text).dropped, w.accepted, i)
  {
    var u := Continuing(w, now, text);
    CleansKeepsIff(w, now, text);
    if Forgets(w, Cleans(now)) {
      PrefixAccounted(w, now);
      if w.cursor.Some? {
        OldCursorDiscards(u, w.cursor.value);
      } else {
        assert Fresh(u) && Inv(u);
        SoundNeverDiscards(u);
      }
    } else {
      SoundNeverDiscards(u);
    }
  }

  lemma {:induction false} ItemsExpireBy(items: seq<Item>) returns (now: int)
    ensures forall i | 0 <= i < |items| :: items[i].expiresAt <= now
  {
    now := 0;
    if items != [] {
      now := ItemsExpireBy(items[1..]);
      if now < items[0].expiresAt { now := items[0].expiresAt; }
      assert forall i | 0 < i < |items| :: items[i] == items[1..][i - 1];
    }
  }

  /** There is a time by which every item of every device has expired. */
  lemma {:induction false} AllExpireBy(devices: map<string, Device>) returns (now: int)
    ensures forall id | id in devices :: Drained(devices[id], now)
    decreases |devices|
  {
    now := 0;
    if devices != map[] {
      var any := AnyKey(devices);
      var others := AllExpireBy(devices - {any});
      now := ItemsExpireBy(devices[any].items);
      if now < others { now := others; }
      forall id | id in devices ensures Drained(devices[id], now) {
        if id != any { assert Drained((devices - {any})[id], others); }
      }
    }
  }

  /**
   With the entry gone, let everything else expire, so that there is room; a new
   item arrives, and the next poll's old cursor acknowledges it unseen.
   */
  lemma OldCursorDiscards(u: World, cursor: nat)
    requires u.id != "" && u.id !in u.inbox.devices && u.cursor == Some(cursor)
    requires u.accepted == [] && u.dropped == map[] && u.seen == []
    ensures MayDiscard(u)
  {
    var end := AllExpireBy(u.inbox.devices);
    var item := Incoming("", 0, "", "", None);
    EmptiedByCleanup(u, end);
    var u1 := Next(u, Cleans(end), "0");
    FirstArrival(u1, item);
    var u2 := Next(u1, Arrives(u.id, item), "0");
    OldCursorAcknowledges(u2, cursor);
    var u3 := Next(u2, Polls(None, false), "0");
    assert Discarded(u3, 0);
    ThreeEvents(u, Cleans(end), Arrives(u.id, item), Polls(None, false));
    assert Discards(u, [(Cleans(end), "0"), (Arrives(u.id, item), "0"), (Polls(None, false), "0")], 0);
  }

  lemma EmptiedByCleanup(u: World, end: int)
    requires u.id !in u.inbox.devices && u.dropped == map[]
    requires forall id | id in u.inbox.devices :: Drained(u.inbox.devices[id], end)
    ensures Next(u, Cleans(end), "0") == u.(inbox := Inbox(map[], 0, 0))
  {
    assert CleanedDevices(u.inbox.devices, end) == map[];
    assert u.dropped + DroppedBy(NoDevice, end) == map[];
  }

  lemma FirstArrival(u: World, item: Incoming)
    requires u.inbox == Inbox(map[], 0, 0) && item == Incoming("", 0, "", "", None) && u.accepted == []
    ensures Next(u, Arrives(u.id, item), "0")
         == u.(inbox := Inbox(map[u.id := Device(0, 32, [Entry(item)])], 32, 1), arrivals := u.arrivals + [item], accepted := [Entry(item)])
  {
    assert ItemBytes(Entry(item)) == 32;
    assert [] + [Entry(item)] == [Entry(item)];
  }

  lemma ThreeEvents(u: World, a: Event, b: Event, c: Event)
    requires !Forgets(u, a) && !Forgets(Next(u, a, "0"), b) && !Forgets(Next(Next(u, a, "0"), b, "0"), c)
    ensures Remembered(u, [(a, "0"), (b, "0"), (c, "0")])
    ensures RunOf(u, [(a, "0"), (b, "0"), (c, "0")]) == Next(Next(Next(u, a, "0"), b, "0"), c, "0")
  {
    var u1 := Next(u, a, "0");
    var u2 := Next(u1, b, "0");
    var u3 := Next(u2, c, "0");
    var last, two, all := [(c, "0")], [(b, "0"), (c, "0")], [(a, "0"), (b, "0"), (c, "0")];
    assert all[1..] == two && two[1..] == last && last[1..] == [];
    assert Remembered(u3, []) && RunOf(u3, []) == u3;
    assert Remembered(u2, last) && RunOf(u2, last) == u3;
    assert Remembered(u1, two) && RunOf(u1, two) == u3;
  }

  lemma OldCursorAcknowledges(w: World, cursor: nat)
    requires w.id != "" && w.cursor == Some(cursor) && w.id in w.inbox.devices
    requires var d := w.inbox.devices[w.id]; d.baseIndex == 0 && |d.items| == 1
    ensures var t := Next(w, Polls(None, false), "0");
            && t.seen == w.seen && t.accepted == w.accepted && t.dropped == w.dropped && t.id == w.id
            && DeviceOf(t.inbox, w.id).baseIndex == 1 && DeviceOf(t.inbox, w.id).items == []
  {
    var n := PollUnfolds(w, None, false, "0");
  }

  /**
   Step by step: once the entry is deleted, any cursor the client holds
   acknowledges a new item it has never been given.
   */
  lemma ForgottenDeviceLosesItem(inbox: Inbox, id: string, item: Incoming, cursor: nat, text: string, limit: Option<int>)
    requires id != "" && text != "" && id !in inbox.devices
    requires HasRoom(inbox, NoDevice, ItemBytes(Entry(item)))
    ensures var arrived := EnqueueSpec(inbox, id, item).0;
            var (polled, answer) := PollSpec(arrived, id, AfterText(text, Some(cursor)), limit);
            && DeviceOf(arrived, id).items == [Entry(item)]
            && answer.Ok? && answer.value.items == []
            && DeviceOf(polled, id).items == []
  {}
}
