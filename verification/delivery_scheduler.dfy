/** The delivery loop as it runs: a tick updates the outbox and the in-flight set record by record. */
module DeliveryScheduler {
  import opened Wrappers
  import S = Scheduler
  import opened DeliverySpec

  class Loop {
    var outbox: map<string, Record>
    var inFlight: set<string>
    var running: bool
    /** Ids ever used by the store; ids are random, so a new record never repeats one. */
    var known: set<string>
    /** How often each record has been handed to the sender. */
    ghost var sends: map<string, nat>

    ghost function View(): World
      reads `outbox, `inFlight, `known, `sends
    {
      World(outbox, inFlight, known, sends)
    }

    constructor ()
      ensures View() == World(map[], {}, {}, map[]) && !running
    {
      outbox, inFlight, running, known, sends := map[], {}, false, {}, map[];
    }

    /** Changes others make while the loop waits. */
    method Outside(events: seq<External>)
      modifies `outbox, `known
      ensures View() == ApplyAll(old(View()), events)
    {
      ghost var goal := ApplyAll(View(), events);
      assert events[0..] == events;
      for i := 0 to |events|
        invariant goal == ApplyAll(View(), events[i..])
      {
        assert events[i..][0] == events[i] && events[i..][1..] == events[i + 1..];
        ApplyOne(events[i]);
      }
    }

    method ApplyOne(e: External)
      modifies `outbox, `known
      ensures View() == Apply(old(View()), e)
    {
      match e {
        case AckArrives(id) =>
          if id in outbox { outbox := outbox[id := outbox[id].(status := Acked)]; }
        case Removed(id) =>
          outbox := outbox - {id};
        case Added(id, record) =>
          if id in known { return; }
          outbox := outbox[id := record.(attempts := 0)];
          known := known + {id};
      }
    }

    /** One record of the plan; false if the store threw, which ends the tick and leaves the id marked busy. */
    method Deliver(c: Candidate, planned: S.Selected, io: TickIo) returns (goOn: bool)
      modifies `outbox, `inFlight, `known, `sends
      ensures (View(), goOn) == DeliverySpec.Deliver(old(View()), c, planned, io)
    {
      if c.id in inFlight { return true; }
      if io.now >= c.record.expiresAtMs { return true; }
      inFlight := inFlight + {c.id};
      if io.updateThrows(c.id) { return false; }
      Attempt(c.id, planned);
      Outside(io.during(c.id));
      Release(c.id, io);
      return true;
    }

    method Attempt(id: string, planned: S.Selected)
      modifies `outbox, `sends
      ensures outbox == Attempted(old(outbox), id, planned)
      ensures sends == old(sends)[id := Sends(old(View()), id) + 1]
    {
      if id in outbox {
        outbox := outbox[id := outbox[id].(attempts := planned.attempts, nextAttemptAtMs := planned.nextAttemptAtMs)];
      }
      sends := sends[id := Sends(View(), id) + 1];
    }

    method Release(id: string, io: TickIo)
      modifies `outbox, `inFlight
      ensures View() == Released(old(View()), id, io)
    {
      if io.result(id).SendOk? {
        if id in outbox && !outbox[id].status.Acked? {
          outbox := outbox[id := outbox[id].(status := InFlight, ackDeadlineMs := Some(io.now + io.ackTimeoutMs))];
        }
      }
      inFlight := inFlight - {id};
    }

    method Prepare(io: TickIo)
      modifies `outbox, `known
      ensures View() == Prepared(old(View()), io)
    {
      outbox := Swept(outbox, io.now);
      Outside(io.afterSweep);
      var ids := ListTimedOut(io);
      RequeueAll(ids, io);
      Outside(io.beforeListing);
    }

    method ListTimedOut(io: TickIo) returns (ids: seq<string>)
      ensures ids == Timeouts(outbox, io.timedOut, io.now)
    {
      ids := [];
      for i := 0 to |io.timedOut|
        invariant ids == Timeouts(outbox, io.timedOut[..i], io.now)
      {
        var id := io.timedOut[i];
        assert io.timedOut[..i + 1][..i] == io.timedOut[..i];
        if id in outbox && TimedOut(outbox[id], io.now) {
          ids := ids + [id];
        }
      }
      assert io.timedOut[..|io.timedOut|] == io.timedOut;
    }

    method RequeueAll(ids: seq<string>, io: TickIo)
      modifies `outbox, `known
      ensures View() == Requeue(old(View()), ids, io)
    {
      ghost var goal := Requeue(View(), ids, io);
      assert ids[0..] == ids;
      for i := 0 to |ids|
        invariant goal == Requeue(View(), ids[i..], io)
      {
        assert ids[i..][0] == ids[i] && ids[i..][1..] == ids[i + 1..];
        Outside(io.beforeRequeue(ids[i]));
        if ids[i] in outbox {
          outbox := outbox[ids[i] := outbox[ids[i]].(status := Pending, ackDeadlineMs := None, nextAttemptAtMs := io.now)];
        }
      }
    }

    method ListCandidates(io: TickIo) returns (candidates: seq<Candidate>)
      ensures candidates == Limited(Candidates(outbox, io.listing, io.now), io.batchSize)
    {
      candidates := [];
      for i := 0 to |io.listing|
        invariant candidates == Candidates(outbox, io.listing[..i], io.now)
      {
        var id := io.listing[i];
        assert io.listing[..i + 1][..i] == io.listing[..i];
        if id in outbox && Retryable(outbox[id], io.now) {
          candidates := candidates + [Candidate(id, outbox[id])];
        }
      }
      assert io.listing[..|io.listing|] == io.listing;
      candidates := Limited(candidates, io.batchSize);
    }

    method DeliverPlan(plan: seq<S.Selected>, candidates: seq<Candidate>, io: TickIo)
      modifies `outbox, `inFlight, `known, `sends
      ensures View() == DeliverAll(old(View()), plan, candidates, io)
    {
      ghost var goal := DeliverAll(View(), plan, candidates, io);
      assert plan[0..] == plan;
      for i := 0 to |plan|
        invariant goal == DeliverAll(View(), plan[i..], candidates, io)
      {
        assert plan[i..][0] == plan[i] && plan[i..][1..] == plan[i + 1..];
        var c := Find(candidates, plan[i].id);
        if c.Some? {
          var goOn := Deliver(c.value, plan[i], io);
          if !goOn { return; }
        }
      }
    }

    method Tick(online: bool, io: TickIo)
      modifies this
      ensures running == old(running)
      ensures View() == if old(running) then old(View()) else TickSpec(old(View()), online, io)
    {
      if running { return; }
      if !online { return; }
      running := true;
      Prepare(io);
      var candidates := ListCandidates(io);
      Outside(io.afterListing);
      if io.plannerUp {
        var plan := S.PlanSchedule(io.now, io.mode, io.batchSize, ItemsOf(candidates), io.unit);
        DeliverPlan(plan, candidates, io);
      }
      running := false;
    }
  }
}
