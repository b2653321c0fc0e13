/** The device registry: the latest role of each device, folded from role-change events in whatever order they arrive. */
module DeviceRegistry {
  datatype Role = Primary | Secondary

  datatype Event = Event(deviceId: string, role: Role, epoch: int, ts: int)

  datatype Entry = Entry(role: Role, epoch: int, lastSeenAt: int, lastEventTs: int)

  class Registry {
    var entries: map<string, Entry>

    constructor ()
      ensures entries == map[]
    {
      entries := map[];
    }

    method UpdateFromRoleEvent(event: Event, now: int)
      modifies this
      ensures entries == Update(old(entries), event, now)
    {
      var known := event.deviceId in entries;
      var isNewerEpoch := !known || event.epoch > entries[event.deviceId].epoch;
      var isSameEpochNewerTs := known && event.epoch == entries[event.deviceId].epoch && event.ts >= entries[event.deviceId].lastEventTs;
      if !known || isNewerEpoch || isSameEpochNewerTs {
        entries := entries[event.deviceId := Entry(event.role, event.epoch, now, event.ts)];
      }
    }
  }

  /** Event `e` is at least as recent as what an entry records: later epoch, or the same and no earlier. */
  predicate Supersedes(e: Event, entry: Entry) {
    e.epoch > entry.epoch || (e.epoch == entry.epoch && e.ts >= entry.lastEventTs)
  }

  function Update(entries: map<string, Entry>, e: Event, now: int): map<string, Entry> {
    if e.deviceId !in entries || Supersedes(e, entries[e.deviceId])
    then entries[e.deviceId := Entry(e.role, e.epoch, now, e.ts)]
    else entries
  }

  /** Events in order of arrival, each at the time the clock shows. */
  function Fold(arrivals: seq<(Event, int)>): map<string, Entry> {
    if arrivals == [] then map[]
    else Update(Fold(arrivals[..|arrivals| - 1]), arrivals[|arrivals| - 1].0, arrivals[|arrivals| - 1].1)
  }

  predicate AtMost(a: Event, b: Event) {
    a.epoch < b.epoch || (a.epoch == b.epoch && a.ts <= b.ts)
  }

  ghost predicate Arrived(arrivals: seq<(Event, int)>, e: Event) {
    exists i :: 0 <= i < |arrivals| && arrivals[i].0 == e
  }

  /** `e` arrived, and nothing about its device is more recent. */
  ghost predicate Latest(arrivals: seq<(Event, int)>, e: Event) {
    Arrived(arrivals, e) && forall x | Arrived(arrivals, x) && x.deviceId == e.deviceId :: AtMost(x, e)
  }

  lemma ArrivedLast(arrivals: seq<(Event, int)>, e: Event)
    requires arrivals != []
    ensures Arrived(arrivals, e) <==> Arrived(arrivals[..|arrivals| - 1], e) || e == arrivals[|arrivals| - 1].0
  {
    var n := |arrivals| - 1;
    if Arrived(arrivals, e) {
      var i :| 0 <= i < |arrivals| && arrivals[i].0 == e;
      assert i < n ==> arrivals[..n][i].0 == e;
    }
    if Arrived(arrivals[..n], e) {
      var i :| 0 <= i < |arrivals[..n]| && arrivals[..n][i].0 == e;
      assert arrivals[i].0 == e;
    }
    if e == arrivals[n].0 { assert arrivals[n].0 == e; }
  }

  /** A device has an entry exactly if an event about it arrived, and its entry is that of a latest such event. */
  lemma {:induction false} FoldIsLatest(arrivals: seq<(Event, int)>, deviceId: string)
    ensures deviceId in Fold(arrivals) <==> exists e :: Arrived(arrivals, e) && e.deviceId == deviceId
    ensures deviceId in Fold(arrivals) ==>
              var entry := Fold(arrivals)[deviceId];
              Latest(arrivals, Event(deviceId, entry.role, entry.epoch, entry.lastEventTs))
  {
    if arrivals != [] {
      var front, last := arrivals[..|arrivals| - 1], arrivals[|arrivals| - 1].0;
      FoldIsLatest(front, deviceId);
      forall e ensures Arrived(arrivals, e) <==> Arrived(front, e) || e == last { ArrivedLast(arrivals, e); }
      if deviceId in Fold(arrivals) {
        var entry := Fold(arrivals)[deviceId];
        var e := Event(deviceId, entry.role, entry.epoch, entry.lastEventTs);
        assert e == last || (deviceId in Fold(front) && Fold(arrivals)[deviceId] == Fold(front)[deviceId]);
      } else {
        assert last.deviceId != deviceId;
      }
    }
  }

  /** Arrival `i` is about this device, and no later one about it is as recent. */
  ghost predicate LastAsRecent(arrivals: seq<(Event, int)>, i: nat, deviceId: string) {
    && i < |arrivals| && arrivals[i].0.deviceId == deviceId
    && forall j | i < j < |arrivals| && arrivals[j].0.deviceId == deviceId :: !AtMost(arrivals[i].0, arrivals[j].0)
  }

  /** Of a device's latest events the last to arrive decides: the entry is that event, seen when it came. */
  lemma {:induction false} LastLatestDecides(arrivals: seq<(Event, int)>, deviceId: string) returns (i: nat)
    requires deviceId in Fold(arrivals)
    ensures LastAsRecent(arrivals, i, deviceId) && Latest(arrivals, arrivals[i].0)
    ensures var (e, seen) := arrivals[i]; Fold(arrivals)[deviceId] == Entry(e.role, e.epoch, seen, e.ts)
  {
    var n := |arrivals| - 1;
    var front, last := arrivals[..n], arrivals[n].0;
    FoldIsLatest(arrivals, deviceId);
    if last.deviceId == deviceId && (deviceId !in Fold(front) || Supersedes(last, Fold(front)[deviceId])) {
      i := n;
    } else {
      i := LastLatestDecides(front, deviceId);
      assert arrivals[i] == front[i];
      forall j | i < j < |arrivals| && arrivals[j].0.deviceId == deviceId ensures !AtMost(arrivals[i].0, arrivals[j].0) {
        if j < n { assert front[j] == arrivals[j]; }
      }
    }
  }

  ghost predicate SameEvents(a: seq<(Event, int)>, b: seq<(Event, int)>) {
    forall e :: Arrived(a, e) <==> Arrived(b, e)
  }

  /** Two latest events about one device have different roles. */
  ghost predicate Tied(arrivals: seq<(Event, int)>, deviceId: string) {
    exists x, y :: Latest(arrivals, x) && Latest(arrivals, y) && x.deviceId == y.deviceId == deviceId && x.role != y.role
  }

  ghost predicate Agree(a: map<string, Entry>, b: map<string, Entry>, deviceId: string) {
    && (deviceId in a <==> deviceId in b)
    && (deviceId in a ==>
          a[deviceId].role == b[deviceId].role && a[deviceId].epoch == b[deviceId].epoch
          && a[deviceId].lastEventTs == b[deviceId].lastEventTs)
  }

  /** Any order and any repetition of the same events give the same epoch and time; and the same role, unless latest events disagree. */
  lemma Converges(a: seq<(Event, int)>, b: seq<(Event, int)>, deviceId: string)
    requires SameEvents(a, b)
    ensures deviceId in Fold(a) <==> deviceId in Fold(b)
    ensures deviceId in Fold(a) ==>
              Fold(a)[deviceId].epoch == Fold(b)[deviceId].epoch && Fold(a)[deviceId].lastEventTs == Fold(b)[deviceId].lastEventTs
    ensures !Tied(a, deviceId) ==> Agree(Fold(a), Fold(b), deviceId)
  {
    FoldIsLatest(a, deviceId);
    FoldIsLatest(b, deviceId);
    if deviceId in Fold(a) && deviceId in Fold(b) {
      var x := Event(deviceId, Fold(a)[deviceId].role, Fold(a)[deviceId].epoch, Fold(a)[deviceId].lastEventTs);
      var y := Event(deviceId, Fold(b)[deviceId].role, Fold(b)[deviceId].epoch, Fold(b)[deviceId].lastEventTs);
      assert Arrived(a, y) && Arrived(b, x);
      assert AtMost(x, y) && AtMost(y, x);
      assert Latest(a, y);
    }
  }

  lemma RepeatLast(arrivals: seq<(Event, int)>, e: Event, now: int)
    requires Latest(arrivals, e)
    ensures SameEvents(arrivals, arrivals + [(e, now)])
    ensures e.deviceId in Fold(arrivals + [(e, now)]) && Fold(arrivals + [(e, now)])[e.deviceId].role == e.role
  {
    var more := arrivals + [(e, now)];
    assert more[..|more| - 1] == arrivals;
    forall x ensures Arrived(more, x) <==> Arrived(arrivals, x) { ArrivedLast(more, x); }
    FoldIsLatest(arrivals, e.deviceId);
    assert Supersedes(e, Fold(arrivals)[e.deviceId]);
  }

  /** Where latest events disagree, repeating one of them changes the entry's role. */
  lemma TiedDisagrees(arrivals: seq<(Event, int)>, deviceId: string) returns (b: seq<(Event, int)>)
    requires Tied(arrivals, deviceId)
    ensures SameEvents(arrivals, b) && !Agree(Fold(arrivals), Fold(b), deviceId)
  {
    var x, y :| Latest(arrivals, x) && Latest(arrivals, y) && x.deviceId == y.deviceId == deviceId && x.role != y.role;
    RepeatLast(arrivals, x, 0);
    RepeatLast(arrivals, y, 0);
    b := arrivals + [(if deviceId in Fold(arrivals) && Fold(arrivals)[deviceId].role == x.role then y else x, 0)];
  }

  /** Convergence, exactly: every arrival of the same events agrees on a device if and only if its latest events share one role. */
  lemma ConvergesIff(arrivals: seq<(Event, int)>, deviceId: string)
    ensures (forall b | SameEvents(arrivals, b) :: Agree(Fold(arrivals), Fold(b), deviceId)) <==> !Tied(arrivals, deviceId)
  {
    if !Tied(arrivals, deviceId) {
      forall b | SameEvents(arrivals, b) ensures Agree(Fold(arrivals), Fold(b), deviceId) { Converges(arrivals, b, deviceId); }
    } else {
      var b := TiedDisagrees(arrivals, deviceId);
    }
  }
}
