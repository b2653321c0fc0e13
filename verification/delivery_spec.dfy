/** The delivery loop on values: the outbox, one tick over it, and what happens to the outbox between a tick's steps. */
module DeliverySpec {
  import opened Wrappers
  import S = Scheduler

  datatype Status = Pending | InFlight | Acked

  datatype Record = Record(
    priority: string, attempts: int, nextAttemptAtMs: int, expiresAtMs: int, createdAtMs: int,
    status: Status, ackDeadlineMs: Option<int>)

  /** Changes by others: acknowledgements, removals, and new records, which get ids never used before and no attempts. */
  datatype External = AckArrives(id: string) | Removed(id: string) | Added(id: string, record: Record)

  datatype SendResult = SendOk | SendFailed(retryable: bool) | SendThrew

  /** `known` is every id ever used; `inFlight` the ids the loop is busy with; `sends` how often each was sent. */
  datatype World = World(
    outbox: map<string, Record>,
    inFlight: set<string>,
    known: set<string>,
    sends: map<string, nat>)

  function Sends(w: World, id: string): nat {
    if id in w.sends then w.sends[id] else 0
  }

  function Apply(w: World, e: External): World {
    match e
    case AckArrives(id) => if id in w.outbox then w.(outbox := w.outbox[id := w.outbox[id].(status := Acked)]) else w
    case Removed(id) => w.(outbox := w.outbox - {id})
    case Added(id, record) =>
      if id in w.known then w
      else w.(outbox := w.outbox[id := record.(attempts := 0)], known := w.known + {id})
  }

  function ApplyAll(w: World, events: seq<External>): World
    decreases |events|
  {
    if events == [] then w else ApplyAll(Apply(w, events[0]), events[1..])
  }

  /**
   What one tick meets: the clock and mode; which timed-out ids and which
   candidate ids the store lists, in its order; whether the planner answers;
   what others do between the tick's steps, before each record is requeued and
   while each is sent; how each send ends; and whether the store's update before
   it throws.
   */
  datatype TickIo = TickIo(
    now: int, mode: string, batchSize: int, ackTimeoutMs: int,
    timedOut: seq<string>, listing: seq<string>, plannerUp: bool,
    unit: (string, int) -> real,
    afterSweep: seq<External>,
    beforeRequeue: string -> seq<External>,
    beforeListing: seq<External>,
    afterListing: seq<External>,
    during: string -> seq<External>,
    result: string -> SendResult,
    updateThrows: string -> bool)

  function Swept(outbox: map<string, Record>, now: int): map<string, Record> {
    map id | id in outbox && !(outbox[id].expiresAtMs <= now && (outbox[id].status.Pending? || outbox[id].status.InFlight?)) :: outbox[id]
  }

  predicate TimedOut(r: Record, now: int) {
    r.status.InFlight? && r.ackDeadlineMs.Some? && 0 <= r.ackDeadlineMs.value <= now && r.expiresAtMs > now
  }

  /** The ids the store lists as timed out. */
  function Timeouts(outbox: map<string, Record>, timedOut: seq<string>, now: int): (ids: seq<string>)
    ensures forall id | id in ids :: id in outbox && TimedOut(outbox[id], now)
  {
    if timedOut == [] then []
    else
      var id := timedOut[|timedOut| - 1];
      Timeouts(outbox, timedOut[..|timedOut| - 1], now)
      + if id in outbox && TimedOut(outbox[id], now) then [id] else []
  }

  /** A listed record goes back to pending, whatever has become of it since it was listed. */
  function Requeued(outbox: map<string, Record>, id: string, now: int): map<string, Record> {
    if id in outbox then outbox[id := outbox[id].(status := Pending, ackDeadlineMs := None, nextAttemptAtMs := now)] else outbox
  }

  function Requeue(w: World, ids: seq<string>, io: TickIo): World
    decreases |ids|
  {
    if ids == [] then w
    else
      var before := ApplyAll(w, io.beforeRequeue(ids[0]));
      Requeue(before.(outbox := Requeued(before.outbox, ids[0], io.now)), ids[1..], io)
  }

  predicate Retryable(r: Record, now: int) {
    r.status.Pending? && 0 <= r.nextAttemptAtMs <= now && r.expiresAtMs > now
  }

  /** A listed record as it was when listed. */
  datatype Candidate = Candidate(id: string, record: Record)

  function Candidates(outbox: map<string, Record>, listing: seq<string>, now: int): seq<Candidate> {
    if listing == [] then []
    else
      var id := listing[|listing| - 1];
      Candidates(outbox, listing[..|listing| - 1], now)
      + if id in outbox && Retryable(outbox[id], now) then [Candidate(id, outbox[id])] else []
  }

  function Limited(candidates: seq<Candidate>, batchSize: int): seq<Candidate> {
    var limit := if batchSize < 0 then 0 else batchSize * 4;
    if |candidates| > limit then candidates[..limit] else candidates
  }

  function ItemOf(c: Candidate): S.Item {
    S.Item(c.id, c.record.priority, c.record.attempts, c.record.nextAttemptAtMs, c.record.expiresAtMs, c.record.createdAtMs)
  }

  function ItemsOf(candidates: seq<Candidate>): (items: seq<S.Item>)
    ensures |items| == |candidates|
    ensures forall i | 0 <= i < |items| :: items[i] == ItemOf(candidates[i])
  {
    seq(|candidates|, i requires 0 <= i < |candidates| => ItemOf(candidates[i]))
  }

  function Find(candidates: seq<Candidate>, id: string): (c: Option<Candidate>)
    ensures c.Some? ==> c.value in candidates && c.value.id == id
    ensures c.None? ==> forall x | x in candidates :: x.id != id
  {
    if candidates == [] then None
    else if candidates[0].id == id then Some(candidates[0])
    else Find(candidates[1..], id)
  }

  /** One planned record: claim it, record the attempt, send it, and note how the send ended. */
  function Deliver(w: World, c: Candidate, planned: S.Selected, io: TickIo): (World, bool) {
    if c.id in w.inFlight || io.now >= c.record.expiresAtMs then (w, true)
    else
      var claimed := w.(inFlight := w.inFlight + {c.id});
      if io.updateThrows(c.id) then (claimed, false)
      else
        var updated := claimed.(outbox := Attempted(w.outbox, c.id, planned));
        var sent := updated.(sends := w.sends[c.id := Sends(w, c.id) + 1]);
        var acked := ApplyAll(sent, io.during(c.id));
        (Released(acked, c.id, io), true)
  }

  function Attempted(outbox: map<string, Record>, id: string, planned: S.Selected): map<string, Record> {
    if id in outbox
    then outbox[id := outbox[id].(attempts := planned.attempts, nextAttemptAtMs := planned.nextAttemptAtMs)]
    else outbox
  }

  /** After the send: in flight if it went out and no acknowledgement came first; in any case no longer busy. */
  function Released(w: World, id: string, io: TickIo): World {
    var marked := if io.result(id).SendOk? && id in w.outbox && !w.outbox[id].status.Acked?
                  then w.outbox[id := w.outbox[id].(status := InFlight, ackDeadlineMs := Some(io.now + io.ackTimeoutMs))]
                  else w.outbox;
    w.(outbox := marked, inFlight := w.inFlight - {id})
  }

  function DeliverAll(w: World, plan: seq<S.Selected>, candidates: seq<Candidate>, io: TickIo): World
    decreases |plan|
  {
    if plan == [] then w
    else
      var c := Find(candidates, plan[0].id);
      if c.None? then DeliverAll(w, plan[1..], candidates, io)
      else
        var (w', goOn) := Deliver(w, c.value, plan[0], io);
        if goOn then DeliverAll(w', plan[1..], candidates, io) else w'
  }

  /** Expired records are swept away, and timed-out ones requeued. */
  function Prepared(w: World, io: TickIo): World {
    var swept := ApplyAll(w.(outbox := Swept(w.outbox, io.now)), io.afterSweep);
    ApplyAll(Requeue(swept, Timeouts(swept.outbox, io.timedOut, io.now), io), io.beforeListing)
  }

  function TickSpec(w: World, online: bool, io: TickIo): World {
    if !online then w
    else
      var prepared := Prepared(w, io);
      var candidates := Limited(Candidates(prepared.outbox, io.listing, io.now), io.batchSize);
      var ready := ApplyAll(prepared, io.afterListing);
      if !io.plannerUp then ready
      else DeliverAll(ready, S.Plan(io.now, io.mode, io.batchSize, ItemsOf(candidates), io.unit), candidates, io)
  }
}
