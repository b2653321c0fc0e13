/** How often, and until when, the delivery loop may send a record. */
module DeliveryRuns {
  import opened Wrappers
  import S = Scheduler
  import opened DeliverySpec

  const MAX_SENDS := 15

  /** Every record has been sent at most as often as its attempts say, and none more than 15 times. */
  ghost predicate Inv(w: World) {
    && (forall id | id in w.outbox :: id in w.known && Sends(w, id) <= w.outbox[id].attempts <= MAX_SENDS)
    && (forall id :: Sends(w, id) <= MAX_SENDS)
    && (forall id | id !in w.known :: Sends(w, id) == 0)
  }

  lemma ApplyKeeps(w: World, e: External)
    requires Inv(w)
    ensures Inv(Apply(w, e)) && Apply(w, e).sends == w.sends && w.known <= Apply(w, e).known
    ensures forall id | id in w.known && id in Apply(w, e).outbox ::
              id in w.outbox && Apply(w, e).outbox[id].attempts == w.outbox[id].attempts
  {
    forall id ensures Sends(Apply(w, e), id) == Sends(w, id) {}
  }

  lemma {:induction false} ApplyAllKeeps(w: World, events: seq<External>)
    requires Inv(w)
    ensures Inv(ApplyAll(w, events)) && ApplyAll(w, events).sends == w.sends && w.known <= ApplyAll(w, events).known
    ensures forall id | id in w.known && id in ApplyAll(w, events).outbox ::
              id in w.outbox && ApplyAll(w, events).outbox[id].attempts == w.outbox[id].attempts
    decreases |events|
  {
    if events != [] {
      ApplyKeeps(w, events[0]);
      ApplyAllKeeps(Apply(w, events[0]), events[1..]);
    }
  }

  lemma RequeuedKeeps(w: World, id: string, now: int)
    requires Inv(w)
    ensures Inv(w.(outbox := Requeued(w.outbox, id, now)))
  {
    forall x ensures Sends(w.(outbox := Requeued(w.outbox, id, now)), x) == Sends(w, x) {}
  }

  lemma {:induction false} RequeueKeeps(w: World, ids: seq<string>, io: TickIo)
    requires Inv(w)
    ensures var t := Requeue(w, ids, io); Inv(t) && t.sends == w.sends && w.known <= t.known
    decreases |ids|
  {
    if ids != [] {
      ApplyAllKeeps(w, io.beforeRequeue(ids[0]));
      var before := ApplyAll(w, io.beforeRequeue(ids[0]));
      RequeuedKeeps(before, ids[0], io.now);
      RequeueKeeps(before.(outbox := Requeued(before.outbox, ids[0], io.now)), ids[1..], io);
    }
  }

  lemma PreparedKeeps(w: World, io: TickIo)
    requires Inv(w)
    ensures Inv(Prepared(w, io)) && Prepared(w, io).sends == w.sends && w.known <= Prepared(w, io).known
  {
    var swept := w.(outbox := Swept(w.outbox, io.now));
    forall id ensures Sends(swept, id) == Sends(w, id) {}
    ApplyAllKeeps(swept, io.afterSweep);
    var listed := ApplyAll(swept, io.afterSweep);
    var ids := Timeouts(listed.outbox, io.timedOut, io.now);
    RequeueKeeps(listed, ids, io);
    ApplyAllKeeps(Requeue(listed, ids, io), io.beforeListing);
  }

  // ---- the candidates of a tick ----

  ghost predicate Distinct(ids: seq<string>) {
    forall i, j | 0 <= i < j < |ids| :: ids[i] != ids[j]
  }

  ghost predicate DistinctCandidates(candidates: seq<Candidate>) {
    forall i, j | 0 <= i < j < |candidates| :: candidates[i].id != candidates[j].id
  }

  lemma {:induction false} CandidatesAreListed(outbox: map<string, Record>, listing: seq<string>, now: int)
    requires Distinct(listing)
    ensures var c := Candidates(outbox, listing, now);
            && DistinctCandidates(c)
            && forall i | 0 <= i < |c| :: c[i].id in listing && c[i].id in outbox && c[i].record == outbox[c[i].id] && Retryable(c[i].record, now)
  {
    if listing != [] {
      var front := listing[..|listing| - 1];
      CandidatesAreListed(outbox, front, now);
      assert forall id | id in front :: id != listing[|listing| - 1];
    }
  }

  /** `c` was listed before any of its sends in this tick: it has attempts to spare, and its sends are within them. */
  ghost predicate Spendable(w: World, c: Candidate, attempts: int) {
    && c.id in w.known
    && Sends(w, c.id) + 1 <= attempts <= MAX_SENDS
  }

  ghost predicate SentIn(before: World, after: World, id: string) {
    Sends(after, id) == Sends(before, id) + 1
  }

  /** The world once `c` has been handed to the sender. */
  function Sending(w: World, c: Candidate, planned: S.Selected): World {
    w.(inFlight := w.inFlight + {c.id}, outbox := Attempted(w.outbox, c.id, planned),
    sends := w.sends[c.id := Sends(w, c.id) + 1])
  }

  lemma SendingKeeps(w: World, c: Candidate, planned: S.Selected)
    requires Inv(w) && Spendable(w, c, planned.attempts)
    ensures Inv(Sending(w, c, planned))
    ensures forall id :: Sends(Sending(w, c, planned), id) == Sends(w, id) + if id == c.id then 1 else 0
  {
    var t := Sending(w, c, planned);
    forall id ensures Sends(t, id) == Sends(w, id) + if id == c.id then 1 else 0 {}
  }

  lemma ReleasedKeeps(w: World, id: string, io: TickIo)
    requires Inv(w)
    ensures Inv(Released(w, id, io)) && Released(w, id, io).sends == w.sends && Released(w, id, io).known == w.known
  {
    forall x ensures Sends(Released(w, id, io), x) == Sends(w, x) {}
  }

  lemma DeliverKeeps(w: World, c: Candidate, planned: S.Selected, io: TickIo)
    requires Inv(w) && Spendable(w, c, planned.attempts)
    ensures var t := Deliver(w, c, planned, io).0;
            && Inv(t) && w.known <= t.known
            && (forall id | id != c.id :: Sends(t, id) == Sends(w, id))
            && (Sends(t, c.id) == Sends(w, c.id) || (SentIn(w, t, c.id) && io.now < c.record.expiresAtMs))
  {
    SendingKeeps(w, c, planned);
    var sending := Sending(w, c, planned);
    ApplyAllKeeps(sending, io.during(c.id));
    var acked := ApplyAll(sending, io.during(c.id));
    ReleasedKeeps(acked, c.id, io);
    var released := Released(acked, c.id, io);
    forall id ensures Sends(released, id) == Sends(sending, id) {}
    var t := Deliver(w, c, planned, io).0;
    assert t == w || t == w.(inFlight := w.inFlight + {c.id}) || t == released;
    if t == w.(inFlight := w.inFlight + {c.id}) {
      forall id ensures Sends(t, id) == Sends(w, id) {}
    }
  }

  ghost predicate DistinctPlan(plan: seq<S.Selected>) {
    forall i, j | 0 <= i < j < |plan| :: plan[i].id != plan[j].id
  }

  /** Every planned record is spendable. */
  ghost predicate PlanSpendable(w: World, plan: seq<S.Selected>, candidates: seq<Candidate>) {
    forall i, c | 0 <= i < |plan| && c in candidates && c.id == plan[i].id :: Spendable(w, c, plan[i].attempts)
  }

  /** What deliveries may do to one record's count: one send at most, and none once it has expired. */
  ghost predicate SendsOnce(w: World, t: World, candidates: seq<Candidate>, now: int, id: string) {
    || Sends(t, id) == Sends(w, id)
    || (SentIn(w, t, id) && exists c :: c in candidates && c.id == id && now < c.record.expiresAtMs)
  }

  lemma {:induction false} DeliverAllKeeps(w: World, plan: seq<S.Selected>, candidates: seq<Candidate>, io: TickIo)
    requires Inv(w) && DistinctPlan(plan) && PlanSpendable(w, plan, candidates)
    ensures var t := DeliverAll(w, plan, candidates, io);
            && Inv(t) && w.known <= t.known
            && (forall id :: SendsOnce(w, t, candidates, io.now, id))
            && forall id | Sends(t, id) != Sends(w, id) :: exists i :: 0 <= i < |plan| && plan[i].id == id
    decreases |plan|
  {
    if plan != [] {
      var c := Find(candidates, plan[0].id);
      var t := DeliverAll(w, plan, candidates, io);
      var next := w;
      if c.Some? {
        assert Spendable(w, c.value, plan[0].attempts);
        DeliverKeeps(w, c.value, plan[0], io);
        next := Deliver(w, c.value, plan[0], io).0;
      }
      forall i, x | 0 <= i < |plan[1..]| && x in candidates && x.id == plan[1..][i].id
        ensures Spendable(next, x, plan[1..][i].attempts)
      {
        assert Spendable(w, x, plan[i + 1].attempts);
      }
      DeliverAllKeeps(next, plan[1..], candidates, io);
      FirstThenRest(w, next, t, plan, candidates, io);
    }
  }

  lemma FirstThenRest(w: World, next: World, t: World, plan: seq<S.Selected>, candidates: seq<Candidate>, io: TickIo)
    requires plan != [] && DistinctPlan(plan)
    requires t == next || t == DeliverAll(next, plan[1..], candidates, io)
    requires forall id | id != plan[0].id :: Sends(next, id) == Sends(w, id)
    requires SendsOnce(w, next, candidates, io.now, plan[0].id)
    requires var u := DeliverAll(next, plan[1..], candidates, io);
             && (forall id :: SendsOnce(next, u, candidates, io.now, id))
             && forall id | Sends(u, id) != Sends(next, id) :: exists i :: 0 <= i < |plan[1..]| && plan[1..][i].id == id
    ensures forall id :: SendsOnce(w, t, candidates, io.now, id)
    ensures forall id | Sends(t, id) != Sends(w, id) :: exists i :: 0 <= i < |plan| && plan[i].id == id
  {
    var u := DeliverAll(next, plan[1..], candidates, io);
    forall id ensures SendsOnce(w, t, candidates, io.now, id) {
      if t == u && Sends(u, id) != Sends(next, id) {
        var i :| 0 <= i < |plan[1..]| && plan[1..][i].id == id;
        assert plan[i + 1].id == id;
        assert SendsOnce(next, u, candidates, io.now, id);
      }
    }
    forall id | Sends(t, id) != Sends(w, id) ensures exists i :: 0 <= i < |plan| && plan[i].id == id {
      if id == plan[0].id {
        assert plan[0].id == id;
      } else {
        var i :| 0 <= i < |plan[1..]| && plan[1..][i].id == id;
        assert plan[i + 1].id == id;
      }
    }
  }

  // ---- one tick ----

  /** The plan names distinct candidates, each with an attempt left under any mode's policy. */
  lemma PlanIsSpendable(prepared: World, ready: World, candidates: seq<Candidate>, io: TickIo)
    requires Inv(prepared) && ready.sends == prepared.sends && prepared.known <= ready.known
    requires DistinctCandidates(candidates)
    requires forall c | c in candidates :: c.id in prepared.outbox && c.record == prepared.outbox[c.id]
    ensures var plan := S.Plan(io.now, io.mode, io.batchSize, ItemsOf(candidates), io.unit);
            DistinctPlan(plan) && PlanSpendable(ready, plan, candidates)
  {
    var items := ItemsOf(candidates);
    var plan := S.Plan(io.now, io.mode, io.batchSize, items, io.unit);
    var chosen := S.Chosen(io.now, io.mode, io.batchSize, items);
    S.ChosenFrom(io.now, io.mode, io.batchSize, items);
    forall i, c | 0 <= i < |plan| && c in candidates && c.id == plan[i].id ensures Spendable(ready, c, plan[i].attempts) {
      assert chosen[i] in items;
      var j :| 0 <= j < |items| && items[j] == chosen[i];
      var k :| 0 <= k < |candidates| && candidates[k] == c;
      assert j == k by { if j < k {} else if k < j {} }
      assert Sends(prepared, c.id) <= c.record.attempts;
    }
  }

  lemma LimitedKeeps(candidates: seq<Candidate>, batchSize: int)
    requires DistinctCandidates(candidates)
    ensures DistinctCandidates(Limited(candidates, batchSize))
    ensures forall c | c in Limited(candidates, batchSize) :: c in candidates
  {}

  /** The store listed `id` in this tick with an expiry still ahead. */
  ghost predicate Unexpired(w: World, io: TickIo, id: string) {
    id in Prepared(w, io).outbox && io.now < Prepared(w, io).outbox[id].expiresAtMs
  }

  /**
   One tick, whatever others do meanwhile and however updates and sends end:
   each record is sent at most once, only before its expiry, and never beyond
   its 15 attempts.
   */
  lemma TickKeeps(w: World, online: bool, io: TickIo)
    requires Inv(w) && Distinct(io.listing)
    ensures var t := TickSpec(w, online, io);
            && Inv(t)
            && forall id :: Sends(t, id) == Sends(w, id) || (SentIn(w, t, id) && Unexpired(w, io, id))
  {
    if online {
      var prepared := Prepared(w, io);
      var all := Candidates(prepared.outbox, io.listing, io.now);
      var candidates := Limited(all, io.batchSize);
      var ready := ApplyAll(prepared, io.afterListing);
      PreparedKeeps(w, io);
      ApplyAllKeeps(prepared, io.afterListing);
      CandidatesAreListed(prepared.outbox, io.listing, io.now);
      LimitedKeeps(all, io.batchSize);
      PlanIsSpendable(prepared, ready, candidates, io);
      var plan := S.Plan(io.now, io.mode, io.batchSize, ItemsOf(candidates), io.unit);
      DeliverAllKeeps(ready, plan, candidates, io);
      var t := TickSpec(w, online, io);
      forall id ensures Sends(t, id) == Sends(w, id) || (SentIn(w, t, id) && Unexpired(w, io, id)) {
        if io.plannerUp {
          assert SendsOnce(ready, t, candidates, io.now, id);
        }
      }
    }
  }

  // ---- runs ----

  datatype Event = Tick(online: bool, io: TickIo) | Outside(change: External)

  function Perform(w: World, e: Event): World {
    match e
    case Tick(online, io) => TickSpec(w, online, io)
    case Outside(change) => Apply(w, change)
  }

  function RunOf(w: World, events: seq<Event>): World
    decreases |events|
  {
    if events == [] then w else RunOf(Perform(w, events[0]), events[1..])
  }

  lemma {:induction false} RunKeeps(w: World, events: seq<Event>)
    requires Inv(w)
    requires forall e | e in events && e.Tick? :: Distinct(e.io.listing)
    ensures Inv(RunOf(w, events))
    decreases |events|
  {
    if events != [] {
      match events[0] {
        case Tick(online, io) =>
          assert events[0] in events;
          TickKeeps(w, online, io);
        case Outside(change) => ApplyKeeps(w, change);
      }
      RunKeeps(Perform(w, events[0]), events[1..]);
    }
  }

  /** Over any run from an empty outbox, across modes, timeouts, acknowledgements and failures, no record is sent more than 15 times. */
  lemma SendsAreBounded(events: seq<Event>, id: string)
    requires forall e | e in events && e.Tick? :: Distinct(e.io.listing)
    ensures Sends(RunOf(World(map[], {}, {}, map[]), events), id) <= MAX_SENDS
  {
    RunKeeps(World(map[], {}, {}, map[]), events);
  }

  // ---- a store that throws ----

  lemma {:induction false} ApplyAllKeepsInFlight(w: World, events: seq<External>)
    ensures ApplyAll(w, events).inFlight == w.inFlight && ApplyAll(w, events).sends == w.sends
    decreases |events|
  {
    if events != [] { ApplyAllKeepsInFlight(Apply(w, events[0]), events[1..]); }
  }

  lemma {:induction false} RequeueKeepsInFlight(w: World, ids: seq<string>, io: TickIo)
    ensures Requeue(w, ids, io).inFlight == w.inFlight && Requeue(w, ids, io).sends == w.sends
    decreases |ids|
  {
    if ids != [] {
      ApplyAllKeepsInFlight(w, io.beforeRequeue(ids[0]));
      var before := ApplyAll(w, io.beforeRequeue(ids[0]));
      RequeueKeepsInFlight(before.(outbox := Requeued(before.outbox, ids[0], io.now)), ids[1..], io);
    }
  }

  lemma PreparedKeepsInFlight(w: World, io: TickIo)
    ensures Prepared(w, io).inFlight == w.inFlight && Prepared(w, io).sends == w.sends
  {
    var swept := w.(outbox := Swept(w.outbox, io.now));
    ApplyAllKeepsInFlight(swept, io.afterSweep);
    var listed := ApplyAll(swept, io.afterSweep);
    var ids := Timeouts(listed.outbox, io.timedOut, io.now);
    RequeueKeepsInFlight(listed, ids, io);
    ApplyAllKeepsInFlight(Requeue(listed, ids, io), io.beforeListing);
  }

  lemma {:induction false} DeliverAllSkipsBusy(w: World, plan: seq<S.Selected>, candidates: seq<Candidate>, io: TickIo, id: string)
    requires id in w.inFlight
    ensures var t := DeliverAll(w, plan, candidates, io); id in t.inFlight && Sends(t, id) == Sends(w, id)
    decreases |plan|
  {
    if plan != [] {
      var c := Find(candidates, plan[0].id);
      if c.Some? {
        ApplyAllKeepsInFlight(Sending(w, c.value, plan[0]), io.during(c.value.id));
        var next := Deliver(w, c.value, plan[0], io).0;
        assert id in next.inFlight && Sends(next, id) == Sends(w, id);
        DeliverAllSkipsBusy(next, plan[1..], candidates, io, id);
      } else {
        DeliverAllSkipsBusy(w, plan[1..], candidates, io, id);
      }
    }
  }

  /**
   An id left marked busy, as when the store threw while its attempt was being
   recorded, is never sent again by this loop, whatever happens later.
   */
  lemma {:induction false} BusyIsNeverSentAgain(w: World, events: seq<Event>, id: string)
    requires id in w.inFlight
    ensures id in RunOf(w, events).inFlight && Sends(RunOf(w, events), id) == Sends(w, id)
    decreases |events|
  {
    if events != [] {
      var next := Perform(w, events[0]);
      match events[0] {
        case Outside(change) =>
        case Tick(online, io) =>
          if online {
            var prepared := Prepared(w, io);
            var ready := ApplyAll(prepared, io.afterListing);
            PreparedKeepsInFlight(w, io);
            ApplyAllKeepsInFlight(prepared, io.afterListing);
            var candidates := Limited(Candidates(prepared.outbox, io.listing, io.now), io.batchSize);
            DeliverAllSkipsBusy(ready, S.Plan(io.now, io.mode, io.batchSize, ItemsOf(candidates), io.unit), candidates, io, id);
          }
      }
      assert id in next.inFlight && Sends(next, id) == Sends(w, id);
      BusyIsNeverSentAgain(next, events[1..], id);
    }
  }

  /** Within one delivery, an id is left marked busy exactly if recording its attempt threw. */
  lemma DeliverLeavesBusyIff(w: World, c: Candidate, planned: S.Selected, io: TickIo)
    requires c.id !in w.inFlight
    ensures c.id in Deliver(w, c, planned, io).0.inFlight <==> io.now < c.record.expiresAtMs && io.updateThrows(c.id)
  {
    ApplyAllKeepsInFlight(Sending(w, c, planned), io.during(c.id));
  }

  // ---- how a plan is worked through ----

  /** The loop takes up a planned record: it was listed, is not busy, and has not expired. */
  predicate Goes(busy: set<string>, planned: S.Selected, candidates: seq<Candidate>, io: TickIo) {
    && Find(candidates, planned.id).Some?
    && planned.id !in busy && io.now < Find(candidates, planned.id).value.record.expiresAtMs
  }

  /** Recording its attempt throws, which ends the tick. */
  predicate Throws(busy: set<string>, planned: S.Selected, candidates: seq<Candidate>, io: TickIo) {
    Goes(busy, planned, candidates, io) && io.updateThrows(planned.id)
  }

  /** The first `n` records of the plan are got through without a throw. */
  ghost predicate GetsTo(busy: set<string>, plan: seq<S.Selected>, candidates: seq<Candidate>, io: TickIo, n: nat)
    requires n <= |plan|
  {
    forall j | 0 <= j < n :: !Throws(busy, plan[j], candidates, io)
  }

  function Step(w: World, planned: S.Selected, candidates: seq<Candidate>, io: TickIo): World {
    match Find(candidates, planned.id)
    case None => w
    case Some(c) => Deliver(w, c, planned, io).0
  }

  /** One record of the plan: who is busy after it, and how often each has been sent. */
  lemma StepWorks(w: World, planned: S.Selected, candidates: seq<Candidate>, io: TickIo)
    ensures var t := Step(w, planned, candidates, io);
            var throws := Throws(w.inFlight, planned, candidates, io);
            && t.inFlight == (if throws then w.inFlight + {planned.id} else w.inFlight)
            && Sends(t, planned.id) == Sends(w, planned.id) + (if Goes(w.inFlight, planned, candidates, io) && !throws then 1 else 0)
            && (forall id | id != planned.id :: Sends(t, id) == Sends(w, id))
    ensures forall plan | plan != [] && plan[0] == planned ::
              DeliverAll(w, plan, candidates, io)
              == if Throws(w.inFlight, planned, candidates, io) then Step(w, planned, candidates, io)
                 else DeliverAll(Step(w, planned, candidates, io), plan[1..], candidates, io)
  {
    var c := Find(candidates, planned.id);
    if c.Some? { ApplyAllKeepsInFlight(Sending(w, c.value, planned), io.during(planned.id)); }
  }

  /** The plan throws at `id`. */
  ghost predicate ThrowsAt(busy: set<string>, plan: seq<S.Selected>, candidates: seq<Candidate>, io: TickIo, id: string) {
    exists i :: 0 <= i < |plan| && plan[i].id == id && Throws(busy, plan[i], candidates, io) && GetsTo(busy, plan, candidates, io, i)
  }

  /** The plan gets to `id` and sends it. */
  ghost predicate SendsIn(busy: set<string>, plan: seq<S.Selected>, candidates: seq<Candidate>, io: TickIo, id: string) {
    exists i :: 0 <= i < |plan| && plan[i].id == id && Goes(busy, plan[i], candidates, io)
                && !io.updateThrows(id) && GetsTo(busy, plan, candidates, io, i)
  }

  lemma GetsToRest(busy: set<string>, plan: seq<S.Selected>, candidates: seq<Candidate>, io: TickIo, n: nat)
    requires plan != [] && n < |plan|
    ensures GetsTo(busy, plan, candidates, io, n + 1) <==>
            !Throws(busy, plan[0], candidates, io) && GetsTo(busy, plan[1..], candidates, io, n)
  {
    if GetsTo(busy, plan, candidates, io, n + 1) {
      forall j | 0 <= j < n ensures !Throws(busy, plan[1..][j], candidates, io) { assert plan[1..][j] == plan[j + 1]; }
    }
    if !Throws(busy, plan[0], candidates, io) && GetsTo(busy, plan[1..], candidates, io, n) {
      forall j | 0 <= j < n + 1 ensures !Throws(busy, plan[j], candidates, io) {
        if j > 0 { assert plan[1..][j - 1] == plan[j]; }
      }
    }
  }

  lemma ThrowsAtRest(busy: set<string>, plan: seq<S.Selected>, candidates: seq<Candidate>, io: TickIo, id: string)
    requires plan != []
    ensures ThrowsAt(busy, plan, candidates, io, id) <==>
            if Throws(busy, plan[0], candidates, io) then plan[0].id == id else ThrowsAt(busy, plan[1..], candidates, io, id)
  {
    var rest := plan[1..];
    if Throws(busy, plan[0], candidates, io) {
      assert GetsTo(busy, plan, candidates, io, 0);
    } else {
      if ThrowsAt(busy, plan, candidates, io, id) {
        var i :| 0 <= i < |plan| && plan[i].id == id && Throws(busy, plan[i], candidates, io) && GetsTo(busy, plan, candidates, io, i);
        GetsToRest(busy, plan, candidates, io, i - 1);
        assert rest[i - 1] == plan[i];
      }
      if ThrowsAt(busy, rest, candidates, io, id) {
        var i :| 0 <= i < |rest| && rest[i].id == id && Throws(busy, rest[i], candidates, io) && GetsTo(busy, rest, candidates, io, i);
        GetsToRest(busy, plan, candidates, io, i);
        assert rest[i] == plan[i + 1];
      }
    }
  }

  lemma SendsInRest(busy: set<string>, plan: seq<S.Selected>, candidates: seq<Candidate>, io: TickIo, id: string)
    requires plan != []
    ensures SendsIn(busy, plan, candidates, io, id) <==>
            !Throws(busy, plan[0], candidates, io)
            && ((plan[0].id == id && Goes(busy, plan[0], candidates, io)) || SendsIn(busy, plan[1..], candidates, io, id))
  {
    var rest := plan[1..];
    if SendsIn(busy, plan, candidates, io, id) {
      var i :| 0 <= i < |plan| && plan[i].id == id && Goes(busy, plan[i], candidates, io)
               && !io.updateThrows(id) && GetsTo(busy, plan, candidates, io, i);
      if i > 0 {
        GetsToRest(busy, plan, candidates, io, i - 1);
        assert rest[i - 1] == plan[i];
      }
    }
    if !Throws(busy, plan[0], candidates, io) {
      if plan[0].id == id && Goes(busy, plan[0], candidates, io) {
        assert GetsTo(busy, plan, candidates, io, 0);
      }
      if SendsIn(busy, rest, candidates, io, id) {
        var i :| 0 <= i < |rest| && rest[i].id == id && Goes(busy, rest[i], candidates, io)
                 && !io.updateThrows(id) && GetsTo(busy, rest, candidates, io, i);
        GetsToRest(busy, plan, candidates, io, i);
        assert rest[i] == plan[i + 1];
      }
    }
  }

  /** Working through a plan sends exactly the records it gets to, and leaves busy, besides those that were, exactly one whose recording threw. */
  lemma {:induction false} DeliverAllIff(w: World, plan: seq<S.Selected>, candidates: seq<Candidate>, io: TickIo, id: string)
    ensures var t := DeliverAll(w, plan, candidates, io);
            && (id in t.inFlight <==> id in w.inFlight || ThrowsAt(w.inFlight, plan, candidates, io, id))
            && Sends(t, id) >= Sends(w, id)
            && (Sends(t, id) > Sends(w, id) <==> SendsIn(w.inFlight, plan, candidates, io, id))
    decreases |plan|
  {
    if plan != [] {
      StepWorks(w, plan[0], candidates, io);
      ThrowsAtRest(w.inFlight, plan, candidates, io, id);
      SendsInRest(w.inFlight, plan, candidates, io, id);
      if !Throws(w.inFlight, plan[0], candidates, io) {
        DeliverAllIff(Step(w, plan[0], candidates, io), plan[1..], candidates, io, id);
      }
    }
  }

  // ---- who is left busy ----

  function CandidatesOf(w: World, io: TickIo): seq<Candidate> {
    Limited(Candidates(Prepared(w, io).outbox, io.listing, io.now), io.batchSize)
  }

  function PlanOf(w: World, io: TickIo): seq<S.Selected> {
    if io.plannerUp then S.Plan(io.now, io.mode, io.batchSize, ItemsOf(CandidatesOf(w, io)), io.unit) else []
  }

  /** The world when the tick begins to work through its plan. */
  function Ready(w: World, io: TickIo): World {
    ApplyAll(Prepared(w, io), io.afterListing)
  }

  lemma ReadyKeepsInFlight(w: World, io: TickIo)
    ensures Ready(w, io).inFlight == w.inFlight && Ready(w, io).sends == w.sends
    ensures TickSpec(w, true, io) == DeliverAll(Ready(w, io), PlanOf(w, io), CandidatesOf(w, io), io)
  {
    PreparedKeepsInFlight(w, io);
    ApplyAllKeepsInFlight(Prepared(w, io), io.afterListing);
  }

  /** In this event the store throws while the attempt of `id` is being recorded. */
  ghost predicate RecordingThrows(w: World, e: Event, id: string) {
    e.Tick? && e.online && ThrowsAt(w.inFlight, PlanOf(w, e.io), CandidatesOf(w, e.io), e.io, id)
  }

  /** In some event of the run the recording of `id` throws. */
  ghost predicate SomeRecordingThrows(w: World, events: seq<Event>, id: string) {
    exists k :: 0 <= k < |events| && RecordingThrows(RunOf(w, events[..k]), events[k], id)
  }

  lemma PrefixOfRun(w: World, events: seq<Event>, k: nat)
    requires k < |events|
    ensures k == 0 ==> RunOf(w, events[..k]) == w
    ensures k > 0 ==> RunOf(w, events[..k]) == RunOf(Perform(w, events[0]), events[1..][..k - 1])
  {
    if k > 0 { assert events[..k][1..] == events[1..][..k - 1]; }
  }

  lemma SomeThrowsRest(w: World, events: seq<Event>, id: string)
    requires events != []
    ensures SomeRecordingThrows(w, events, id) <==>
            RecordingThrows(w, events[0], id) || SomeRecordingThrows(Perform(w, events[0]), events[1..], id)
  {
    var next, rest := Perform(w, events[0]), events[1..];
    if SomeRecordingThrows(w, events, id) {
      var k :| 0 <= k < |events| && RecordingThrows(RunOf(w, events[..k]), events[k], id);
      PrefixOfRun(w, events, k);
      if k > 0 { assert rest[k - 1] == events[k]; }
    }
    if RecordingThrows(w, events[0], id) {
      PrefixOfRun(w, events, 0);
    }
    if SomeRecordingThrows(next, rest, id) {
      var k :| 0 <= k < |rest| && RecordingThrows(RunOf(next, rest[..k]), rest[k], id);
      PrefixOfRun(w, events, k + 1);
      assert rest[k] == events[k + 1];
    }
  }

  /** Over any run, an id is left marked busy exactly if it was at the start or some tick's recording of it threw. */
  lemma {:induction false} BusyIff(w: World, events: seq<Event>, id: string)
    ensures id in RunOf(w, events).inFlight <==> id in w.inFlight || SomeRecordingThrows(w, events, id)
    decreases |events|
  {
    if events != [] {
      var e := events[0];
      if e.Tick? && e.online {
        ReadyKeepsInFlight(w, e.io);
        DeliverAllIff(Ready(w, e.io), PlanOf(w, e.io), CandidatesOf(w, e.io), e.io, id);
      }
      assert id in Perform(w, e).inFlight <==> id in w.inFlight || RecordingThrows(w, e, id);
      BusyIff(Perform(w, e), events[1..], id);
      SomeThrowsRest(w, events, id);
    }
  }
}
