/** What a tick leaves of each record, by how its send ended, and when the record may be sent next. */
module DeliveryOutcomes {
  import opened Wrappers
  import StableSort
  import S = Scheduler
  import SchedulerOrder
  import opened DeliverySpec
  import opened DeliveryRuns

  function At(w: World, id: string): Option<Record> {
    if id in w.outbox then Some(w.outbox[id]) else None
  }

  /** The record as expected, but for an acknowledgement that came in meanwhile. */
  predicate IsOrAcked(r: Record, expected: Record) {
    r == expected || r == expected.(status := Acked, ackDeadlineMs := r.ackDeadlineMs)
  }

  /** The record is as expected or acknowledged, or gone, and it cannot come back. */
  predicate Becomes(w: World, id: string, expected: Option<Record>) {
    id in w.known && (id in w.outbox ==> expected.Some? && IsOrAcked(w.outbox[id], expected.value))
  }

  // ---- before the sends ----

  lemma {:induction false} OthersOutcome(w: World, events: seq<External>, id: string)
    requires id in w.known
    ensures Becomes(ApplyAll(w, events), id, At(w, id))
    decreases |events|
  {
    if events != [] { OthersOutcome(Apply(w, events[0]), events[1..], id); }
  }

  lemma {:induction false} TimeoutsHas(outbox: map<string, Record>, timedOut: seq<string>, now: int, id: string)
    ensures id in Timeouts(outbox, timedOut, now) <==>
            id in timedOut && id in outbox && outbox[id].status.InFlight? && outbox[id].expiresAtMs > now
            && outbox[id].ackDeadlineMs.Some? && 0 <= outbox[id].ackDeadlineMs.value <= now
  {
    if timedOut != [] {
      TimeoutsHas(outbox, timedOut[..|timedOut| - 1], now, id);
      assert timedOut == timedOut[..|timedOut| - 1] + [timedOut[|timedOut| - 1]];
    }
  }

  function AfterRequeue(r: Option<Record>, now: int): Option<Record> {
    if r.None? then None else Some(r.value.(status := Pending, ackDeadlineMs := None, nextAttemptAtMs := now))
  }

  lemma {:induction false} RequeueOutcome(w: World, ids: seq<string>, io: TickIo, id: string)
    requires id in w.known
    ensures Becomes(Requeue(w, ids, io), id, if id in ids then AfterRequeue(At(w, id), io.now) else At(w, id))
    decreases |ids|
  {
    if ids != [] {
      OthersOutcome(w, io.beforeRequeue(ids[0]), id);
      var before := ApplyAll(w, io.beforeRequeue(ids[0]));
      RequeueOutcome(before.(outbox := Requeued(before.outbox, ids[0], io.now)), ids[1..], io, id);
    }
  }

  /**
   A record when candidates are listed: those that had expired unacknowledged
   are gone, listed ones whose deadline has passed are due now, and all others
   are as they were, but for acknowledgements and removals.
   */
  lemma PreparedOutcome(w: World, io: TickIo, id: string)
    requires id in w.known && id in Prepared(w, io).outbox
    ensures id in w.outbox
    ensures var r, r' := w.outbox[id], Prepared(w, io).outbox[id];
            || r'.status.Acked?
            || (r.expiresAtMs > io.now
                && r' == if && id in io.timedOut && r.status.InFlight?
                            && r.ackDeadlineMs.Some? && 0 <= r.ackDeadlineMs.value <= io.now
                         then r.(status := Pending, ackDeadlineMs := None, nextAttemptAtMs := io.now) else r)
  {
    var swept := w.(outbox := Swept(w.outbox, io.now));
    OthersOutcome(swept, io.afterSweep, id);
    var listed := ApplyAll(swept, io.afterSweep);
    var ids := Timeouts(listed.outbox, io.timedOut, io.now);
    TimeoutsHas(listed.outbox, io.timedOut, io.now, id);
    RequeueOutcome(listed, ids, io, id);
    OthersOutcome(Requeue(listed, ids, io), io.beforeListing, id);
  }

  lemma {:induction false} OthersKeep(w: World, events: seq<External>, id: string)
    requires Removed(id) !in events
    ensures id in w.outbox ==> id in ApplyAll(w, events).outbox
    decreases |events|
  {
    if events != [] { OthersKeep(Apply(w, events[0]), events[1..], id); }
  }

  lemma {:induction false} RequeueKeepsListed(w: World, ids: seq<string>, io: TickIo, id: string)
    requires forall x :: Removed(id) !in io.beforeRequeue(x)
    ensures id in w.outbox ==> id in Requeue(w, ids, io).outbox
    decreases |ids|
  {
    if ids != [] {
      OthersKeep(w, io.beforeRequeue(ids[0]), id);
      var before := ApplyAll(w, io.beforeRequeue(ids[0]));
      RequeueKeepsListed(before.(outbox := Requeued(before.outbox, ids[0], io.now)), ids[1..], io, id);
    }
  }

  /** Nobody removes the record before candidates are listed. */
  ghost predicate Unremoved(io: TickIo, id: string) {
    && Removed(id) !in io.afterSweep && Removed(id) !in io.beforeListing
    && forall x :: Removed(id) !in io.beforeRequeue(x)
  }

  /** The sweep takes away exactly the records that have expired unacknowledged. */
  lemma SweptIff(w: World, io: TickIo, id: string)
    requires id in w.known && id in w.outbox && Unremoved(io, id)
    ensures id in Prepared(w, io).outbox <==> w.outbox[id].expiresAtMs > io.now || w.outbox[id].status.Acked?
  {
    var swept := w.(outbox := Swept(w.outbox, io.now));
    OthersKeep(swept, io.afterSweep, id);
    OthersOutcome(swept, io.afterSweep, id);
    var listed := ApplyAll(swept, io.afterSweep);
    var ids := Timeouts(listed.outbox, io.timedOut, io.now);
    RequeueKeepsListed(listed, ids, io, id);
    RequeueOutcome(listed, ids, io, id);
    OthersKeep(Requeue(listed, ids, io), io.beforeListing, id);
    OthersOutcome(Requeue(listed, ids, io), io.beforeListing, id);
  }

  // ---- the sends ----

  /** What is expected of a record once it has been sent. */
  function AfterSend(r: Option<Record>, planned: S.Selected, io: TickIo, id: string): Option<Record> {
    if r.None? then None
    else
      var attempted := r.value.(attempts := planned.attempts, nextAttemptAtMs := planned.nextAttemptAtMs);
      Some(if attempted.status.Acked? || io.result(id) != SendOk then attempted
           else attempted.(status := InFlight, ackDeadlineMs := Some(io.now + io.ackTimeoutMs)))
  }

  /** One record of the plan: what it does to itself, and to others. */
  lemma StepOutcome(w: World, planned: S.Selected, candidates: seq<Candidate>, io: TickIo, id: string)
    requires id in w.known
    ensures var t := Step(w, planned, candidates, io);
            && (planned.id != id || Sends(t, id) == Sends(w, id) ==> Becomes(t, id, At(w, id)) && Sends(t, id) == Sends(w, id))
            && (planned.id == id && Sends(t, id) != Sends(w, id) ==> Becomes(t, id, AfterSend(At(w, id), planned, io, id)))
  {
    StepWorks(w, planned, candidates, io);
    var c := Find(candidates, planned.id);
    if c.Some? {
      var sending := Sending(w, c.value, planned);
      OthersOutcome(sending, io.during(planned.id), id);
    }
  }

  lemma {:induction false} UnplannedOutcome(w: World, plan: seq<S.Selected>, candidates: seq<Candidate>, io: TickIo, id: string)
    requires id in w.known && forall p | p in plan :: p.id != id
    ensures var t := DeliverAll(w, plan, candidates, io); Becomes(t, id, At(w, id)) && Sends(t, id) == Sends(w, id)
    decreases |plan|
  {
    if plan != [] {
      StepOutcome(w, plan[0], candidates, io, id);
      StepWorks(w, plan[0], candidates, io);
      UnplannedOutcome(Step(w, plan[0], candidates, io), plan[1..], candidates, io, id);
    }
  }

  /** The plan holds an entry for the record, and the record becomes what sending it makes of it. */
  ghost predicate SentAs(t: World, r: Option<Record>, plan: seq<S.Selected>, io: TickIo, id: string) {
    exists p :: p in plan && p.id == id && Becomes(t, id, AfterSend(r, p, io, id))
  }

  lemma SentAsBefore(t: World, before: Option<Record>, r: Option<Record>, plan: seq<S.Selected>, io: TickIo, id: string)
    requires SentAs(t, r, plan, io, id)
    requires r.Some? ==> before.Some? && IsOrAcked(r.value, before.value)
    ensures SentAs(t, before, plan, io, id)
  {
    var p :| p in plan && p.id == id && Becomes(t, id, AfterSend(r, p, io, id));
    assert Becomes(t, id, AfterSend(before, p, io, id));
  }

  lemma {:induction false} DeliverAllOutcome(w: World, plan: seq<S.Selected>, candidates: seq<Candidate>, io: TickIo, id: string)
    requires id in w.known && DistinctPlan(plan)
    ensures var t := DeliverAll(w, plan, candidates, io);
            if Sends(t, id) == Sends(w, id) then Becomes(t, id, At(w, id)) else SentAs(t, At(w, id), plan, io, id)
    decreases |plan|
  {
    if plan != [] {
      StepOutcome(w, plan[0], candidates, io, id);
      StepWorks(w, plan[0], candidates, io);
      var next, t := Step(w, plan[0], candidates, io), DeliverAll(w, plan, candidates, io);
      if plan[0].id == id {
        UnplannedOutcome(next, plan[1..], candidates, io, id);
        if Sends(t, id) != Sends(w, id) {
          assert plan[0] in plan && Becomes(t, id, AfterSend(At(w, id), plan[0], io, id));
        }
      } else {
        DeliverAllOutcome(next, plan[1..], candidates, io, id);
        if Sends(t, id) != Sends(w, id) {
          SentAsBefore(t, At(w, id), At(next, id), plan[1..], io, id);
        }
      }
    }
  }

  // ---- a tick ----

  lemma {:induction false} CandidatesHave(outbox: map<string, Record>, listing: seq<string>, now: int, c: Candidate)
    ensures c in Candidates(outbox, listing, now) <==>
            c.id in listing && c.id in outbox && c.record == outbox[c.id] && c.record.status.Pending?
            && 0 <= c.record.nextAttemptAtMs <= now && c.record.expiresAtMs > now
  {
    if listing != [] {
      CandidatesHave(outbox, listing[..|listing| - 1], now, c);
      assert listing == listing[..|listing| - 1] + [listing[|listing| - 1]];
    }
  }

  /** The record was listed as due when the tick came to list candidates. */
  predicate ListedAsDue(w: World, io: TickIo, id: string) {
    && id in io.listing && id in Prepared(w, io).outbox
    && var r := Prepared(w, io).outbox[id];
       r.status.Pending? && 0 <= r.nextAttemptAtMs <= io.now && r.expiresAtMs > io.now
  }

  lemma CandidatesAreDistinct(w: World, io: TickIo)
    requires Distinct(io.listing)
    ensures S.DistinctIds(ItemsOf(CandidatesOf(w, io)))
  {
    CandidatesAreListed(Prepared(w, io).outbox, io.listing, io.now);
    LimitedKeeps(Candidates(Prepared(w, io).outbox, io.listing, io.now), io.batchSize);
  }

  lemma PlanIsDistinct(w: World, io: TickIo)
    requires Distinct(io.listing)
    ensures DistinctPlan(PlanOf(w, io))
  {
    CandidatesAreDistinct(w, io);
    S.ChosenFrom(io.now, io.mode, io.batchSize, ItemsOf(CandidatesOf(w, io)));
  }

  lemma PlannedIsChosen(w: World, io: TickIo, p: S.Selected) returns (c: Candidate)
    requires Distinct(io.listing) && p in PlanOf(w, io)
    ensures c in Candidates(Prepared(w, io).outbox, io.listing, io.now)
    ensures p == S.Select(ItemOf(c), io.now, S.PolicyFor(io.mode), io.unit)
  {
    var items := ItemsOf(CandidatesOf(w, io));
    CandidatesAreDistinct(w, io);
    S.ChosenFrom(io.now, io.mode, io.batchSize, items);
    var chosen := S.Chosen(io.now, io.mode, io.batchSize, items);
    var i :| 0 <= i < |PlanOf(w, io)| && PlanOf(w, io)[i] == p;
    assert chosen[i] in items;
    var j :| 0 <= j < |items| && items[j] == chosen[i];
    c := CandidatesOf(w, io)[j];
  }

  /** Each entry of a tick's plan is for a record listed as due. */
  lemma PlannedWasListed(w: World, io: TickIo, p: S.Selected)
    requires Distinct(io.listing) && p in PlanOf(w, io)
    ensures ListedAsDue(w, io, p.id)
    ensures var r := Prepared(w, io).outbox[p.id];
            p.attempts == r.attempts + 1 && p.nextAttemptAtMs == NextOf(io, p.id, r)
  {
    var c := PlannedIsChosen(w, io, p);
    CandidatesHave(Prepared(w, io).outbox, io.listing, io.now, c);
  }

  /** When the planner has a record tried again that it picks now. */
  function NextOf(io: TickIo, id: string, r: Record): int {
    S.NextAttempt(io.now, ItemOf(Candidate(id, r)), S.PolicyFor(io.mode), io.unit(id, r.attempts))
  }

  predicate WasSent(w: World, io: TickIo, id: string) {
    Sends(TickSpec(w, true, io), id) != Sends(w, id)
  }

  lemma TickOutcome(w: World, io: TickIo, id: string)
    requires Inv(w) && Distinct(io.listing) && id in Prepared(w, io).known
    ensures var t := TickSpec(w, true, io);
            if WasSent(w, io, id) then SentAs(t, At(Prepared(w, io), id), PlanOf(w, io), io, id)
            else Becomes(t, id, At(Prepared(w, io), id))
  {
    ReadyKeepsInFlight(w, io);
    OthersOutcome(Prepared(w, io), io.afterListing, id);
    PlanIsDistinct(w, io);
    var ready := Ready(w, io);
    DeliverAllOutcome(ready, PlanOf(w, io), CandidatesOf(w, io), io, id);
    if WasSent(w, io, id) {
      SentAsBefore(TickSpec(w, true, io), At(Prepared(w, io), id), At(ready, id), PlanOf(w, io), io, id);
    }
  }

  lemma SentByFields(w: World, t: World, io: TickIo, id: string)
    requires Distinct(io.listing) && SentAs(t, At(Prepared(w, io), id), PlanOf(w, io), io, id)
    ensures ListedAsDue(w, io, id)
    ensures var before := Prepared(w, io).outbox[id];
            id in t.outbox && !t.outbox[id].status.Acked? ==>
              var attempted := before.(attempts := before.attempts + 1, nextAttemptAtMs := NextOf(io, id, before));
              t.outbox[id] == if io.result(id).SendOk? then attempted.(status := InFlight, ackDeadlineMs := Some(io.now + io.ackTimeoutMs))
                              else attempted
  {
    var p :| p in PlanOf(w, io) && p.id == id && Becomes(t, id, AfterSend(At(Prepared(w, io), id), p, io, id));
    PlannedWasListed(w, io, p);
  }

  /**
   What is sent was listed as due. If it is still there and unacknowledged at the
   end of the tick, it is in flight, with its deadline the ack timeout from now,
   exactly if its send ended ok; otherwise its status and deadline are what they
   were. The attempt and the time of the next one are recorded either way.
   */
  lemma SentOutcome(w: World, io: TickIo, id: string)
    requires Inv(w) && Distinct(io.listing) && WasSent(w, io, id)
    ensures ListedAsDue(w, io, id)
    ensures var t, before := TickSpec(w, true, io), Prepared(w, io).outbox[id];
            id in t.outbox && !t.outbox[id].status.Acked? ==>
              var after := t.outbox[id];
              && (after.status.InFlight? && after.ackDeadlineMs == Some(io.now + io.ackTimeoutMs) <==> io.result(id).SendOk?)
              && (!io.result(id).SendOk? ==> after.status.Pending? && after.ackDeadlineMs == before.ackDeadlineMs)
              && after.attempts == before.attempts + 1
              && after.nextAttemptAtMs == NextOf(io, id, before)
              && after.priority == before.priority && after.expiresAtMs == before.expiresAtMs && after.createdAtMs == before.createdAtMs
  {
    TickKeeps(w, true, io);
    PreparedKeeps(w, io);
    TickOutcome(w, io, id);
    SentByFields(w, TickSpec(w, true, io), io, id);
  }

  /** A record that is not sent is at the end of the tick as it was listed, acknowledged, or gone. */
  lemma UnsentOutcome(w: World, io: TickIo, id: string)
    requires Inv(w) && Distinct(io.listing) && id in Prepared(w, io).known && !WasSent(w, io, id)
    ensures var t := TickSpec(w, true, io);
            id in t.outbox && !t.outbox[id].status.Acked? ==>
              id in Prepared(w, io).outbox && t.outbox[id] == Prepared(w, io).outbox[id]
  {
    TickOutcome(w, io, id);
  }

  // ---- until when it is not sent again ----

  /** Nothing is due for the record before `until`: it is acknowledged, in flight with a later deadline, pending for later, or gone. */
  predicate Resting(w: World, id: string, until: int) {
    && id in w.known
    && (id in w.outbox ==>
          var r := w.outbox[id];
          || r.status.Acked?
          || (r.status.InFlight? && r.ackDeadlineMs.Some? && until <= r.ackDeadlineMs.value)
          || (r.status.Pending? && until <= r.nextAttemptAtMs))
  }

  lemma TickLetsRest(w: World, online: bool, io: TickIo, id: string, until: int)
    requires Inv(w) && Distinct(io.listing) && Resting(w, id, until) && io.now < until
    ensures var t := TickSpec(w, online, io); Resting(t, id, until) && Sends(t, id) == Sends(w, id)
  {
    if online {
      if id in Prepared(w, io).outbox { PreparedOutcome(w, io, id); }
      TickKeeps(w, online, io);
      PreparedKeeps(w, io);
      if WasSent(w, io, id) {
        SentOutcome(w, io, id);
        assert false;
      }
      TickOutcome(w, io, id);
    }
  }

  ghost predicate Before(events: seq<Event>, until: int) {
    forall e | e in events && e.Tick? :: Distinct(e.io.listing) && e.io.now < until
  }

  lemma {:induction false} RestingIsNotSent(w: World, events: seq<Event>, id: string, until: int)
    requires Inv(w) && Resting(w, id, until) && Before(events, until)
    ensures Resting(RunOf(w, events), id, until) && Sends(RunOf(w, events), id) == Sends(w, id)
    decreases |events|
  {
    if events != [] {
      assert events[0] in events;
      match events[0] {
        case Tick(online, io) =>
          TickKeeps(w, online, io);
          TickLetsRest(w, online, io, id, until);
        case Outside(change) => ApplyKeeps(w, change);
      }
      RestingIsNotSent(Perform(w, events[0]), events[1..], id, until);
    }
  }

  /** A record sent ok is not sent again, over any run, before its deadline. */
  lemma SentOkWaitsForDeadline(w: World, io: TickIo, id: string, events: seq<Event>)
    requires Inv(w) && Distinct(io.listing) && WasSent(w, io, id) && io.result(id).SendOk?
    requires Before(events, io.now + io.ackTimeoutMs)
    ensures Sends(RunOf(TickSpec(w, true, io), events), id) == Sends(w, id) + 1
  {
    TickKeeps(w, true, io);
    PreparedKeeps(w, io);
    SentOutcome(w, io, id);
    TickOutcome(w, io, id);
    RestingIsNotSent(TickSpec(w, true, io), events, id, io.now + io.ackTimeoutMs);
  }

  /** A record whose send failed or threw is not sent again before its next attempt. */
  lemma FailedWaitsForNextAttempt(w: World, io: TickIo, id: string, events: seq<Event>)
    requires Inv(w) && Distinct(io.listing) && WasSent(w, io, id) && !io.result(id).SendOk?
    requires var r := Prepared(w, io).outbox; id in r ==>
               Before(events, NextOf(io, id, r[id]))
    ensures Sends(RunOf(TickSpec(w, true, io), events), id) == Sends(w, id) + 1
  {
    TickKeeps(w, true, io);
    PreparedKeeps(w, io);
    SentOutcome(w, io, id);
    TickOutcome(w, io, id);
    RestingIsNotSent(TickSpec(w, true, io), events, id, NextOf(io, id, Prepared(w, io).outbox[id]));
  }

  // ---- what is due is sent ----

  lemma {:induction false} CandidatesAreFew(outbox: map<string, Record>, listing: seq<string>, now: int)
    ensures |Candidates(outbox, listing, now)| <= |listing|
  {
    if listing != [] { CandidatesAreFew(outbox, listing[..|listing| - 1], now); }
  }

  /** How many of the listed records are due. */
  function DueAmong(outbox: map<string, Record>, listing: seq<string>, now: int): nat {
    if listing == [] then 0
    else
      var id := listing[|listing| - 1];
      var due := && id in outbox && outbox[id].status.Pending? && 0 <= outbox[id].nextAttemptAtMs <= now
                 && outbox[id].expiresAtMs > now;
      DueAmong(outbox, listing[..|listing| - 1], now) + if due then 1 else 0
  }

  lemma {:induction false} CandidatesStart(outbox: map<string, Record>, listing: seq<string>, now: int, n: nat)
    requires n <= |listing|
    ensures Candidates(outbox, listing[..n], now) <= Candidates(outbox, listing, now)
  {
    if n == |listing| {
      assert listing[..n] == listing;
    } else {
      var front := listing[..|listing| - 1];
      CandidatesStart(outbox, front, now, n);
      assert front[..n] == listing[..n];
    }
  }

  lemma {:induction false} CandidatesAreCounted(outbox: map<string, Record>, listing: seq<string>, now: int)
    ensures |Candidates(outbox, listing, now)| == DueAmong(outbox, listing, now)
  {
    if listing != [] { CandidatesAreCounted(outbox, listing[..|listing| - 1], now); }
  }

  /** The `n`th listed record, if due, is the candidate that follows those due before it. */
  lemma DueIsCandidate(outbox: map<string, Record>, listing: seq<string>, now: int, n: nat)
    requires n < |listing| && listing[n] in outbox && Retryable(outbox[listing[n]], now)
    ensures var k := DueAmong(outbox, listing[..n], now);
            k < |Candidates(outbox, listing, now)| && Candidates(outbox, listing, now)[k] == Candidate(listing[n], outbox[listing[n]])
  {
    CandidatesAreCounted(outbox, listing[..n], now);
    CandidatesStart(outbox, listing, now, n + 1);
    assert listing[..n + 1][..n] == listing[..n];
  }

  /** How many of the due records the planner is shown. */
  function ShownOf(all: seq<Candidate>, batchSize: int): int {
    if batchSize <= 0 then 0 else if |all| < 4 * batchSize then |all| else 4 * batchSize
  }

  /**
   Which listed records the planner is shown: those due, as long as fewer than
   four batches are due before them in the listing, and as they were when listed.
   */
  lemma ShownIff(w: World, io: TickIo, n: nat)
    requires Distinct(io.listing) && n < |io.listing|
    ensures var id := io.listing[n];
            (exists c :: c in CandidatesOf(w, io) && c.id == id) <==>
            ListedAsDue(w, io, id) && DueAmong(Prepared(w, io).outbox, io.listing[..n], io.now) < 4 * io.batchSize
  {
    var outbox, id := Prepared(w, io).outbox, io.listing[n];
    var all, shown := Candidates(outbox, io.listing, io.now), CandidatesOf(w, io);
    CandidatesAreListed(outbox, io.listing, io.now);
    assert shown <= all && |shown| == ShownOf(all, io.batchSize);
    if ListedAsDue(w, io, id) {
      DueIsCandidate(outbox, io.listing, io.now, n);
      var k := DueAmong(outbox, io.listing[..n], io.now);
      if k < |shown| { assert shown[k] in shown && shown[k].id == id; }
      forall j | 0 <= j < |shown| && shown[j].id == id ensures j == k { assert all[j].id == all[k].id; }
    }
    if c :| c in shown && c.id == id {
      assert c in all;
      CandidatesHave(outbox, io.listing, io.now, c);
    }
  }

  lemma FewAreAllChosen(now: int, mode: string, batchSize: int, items: seq<S.Item>, item: S.Item)
    requires |items| <= batchSize
    ensures item in S.Chosen(now, mode, batchSize, items) <==> item in items && SchedulerOrder.CanGo(item, now, mode)
  {
    var eligible := S.Eligible(items, now, S.PolicyFor(mode));
    S.EligibleMembers(items, now, S.PolicyFor(mode));
    EligibleAreFew(items, now, S.PolicyFor(mode));
    StableSort.SortKeepsElements(S.Precedes, eligible);
    var sorted := StableSort.Sort(S.Precedes, eligible);
    assert item in sorted <==> item in multiset(sorted);
    assert item in eligible <==> item in multiset(eligible);
    assert |sorted| == |multiset(sorted)| && |eligible| == |multiset(eligible)|;
  }

  lemma {:induction false} EligibleAreFew(items: seq<S.Item>, now: int, policy: S.Policy)
    ensures |S.Eligible(items, now, policy)| <= |items|
  {
    if items != [] { EligibleAreFew(items[..|items| - 1], now, policy); }
  }

  /** With at most a batch listed, the plan has an entry for exactly the due records with attempts left. */
  lemma FewArePlannedIff(w: World, io: TickIo, id: string)
    requires Distinct(io.listing) && |io.listing| <= io.batchSize
    ensures (exists p :: p in PlanOf(w, io) && p.id == id) <==>
            io.plannerUp && ListedAsDue(w, io, id) && SchedulerOrder.CanGo(ItemOf(Candidate(id, Prepared(w, io).outbox[id])), io.now, io.mode)
  {
    var outbox, candidates := Prepared(w, io).outbox, CandidatesOf(w, io);
    CandidatesAreFew(outbox, io.listing, io.now);
    assert candidates == Candidates(outbox, io.listing, io.now);
    var items, plan := ItemsOf(candidates), PlanOf(w, io);
    var chosen := S.Chosen(io.now, io.mode, io.batchSize, items);
    if io.plannerUp && ListedAsDue(w, io, id) && SchedulerOrder.CanGo(ItemOf(Candidate(id, outbox[id])), io.now, io.mode) {
      var c := Candidate(id, outbox[id]);
      CandidatesHave(outbox, io.listing, io.now, c);
      var j :| 0 <= j < |candidates| && candidates[j] == c;
      assert items[j] == ItemOf(c);
      FewAreAllChosen(io.now, io.mode, io.batchSize, items, ItemOf(c));
      var k :| 0 <= k < |chosen| && chosen[k] == ItemOf(c);
      assert plan[k] in plan && plan[k].id == id;
    }
    if i: nat :| i < |plan| && plan[i].id == id {
      PlannedWasListed(w, io, plan[i]);
      FewAreAllChosen(io.now, io.mode, io.batchSize, items, chosen[i]);
      var j :| 0 <= j < |items| && items[j] == chosen[i];
      CandidatesHave(outbox, io.listing, io.now, candidates[j]);
    }
  }

  /** With at most a batch listed, the loop takes up a planned record unless it is busy. */
  lemma PlannedGoesIff(w: World, io: TickIo, p: S.Selected, busy: set<string>)
    requires Distinct(io.listing) && |io.listing| <= io.batchSize && p in PlanOf(w, io)
    ensures Goes(busy, p, CandidatesOf(w, io), io) <==> p.id !in busy
  {
    var outbox, candidates := Prepared(w, io).outbox, CandidatesOf(w, io);
    CandidatesAreFew(outbox, io.listing, io.now);
    PlannedWasListed(w, io, p);
    CandidatesHave(outbox, io.listing, io.now, Candidate(p.id, outbox[p.id]));
    var c := Find(candidates, p.id);
    if c.Some? { CandidatesHave(outbox, io.listing, io.now, c.value); }
  }

  /** Where no update throws, the plan sends exactly its entries that are taken up. */
  lemma UnthrownSendsIff(busy: set<string>, plan: seq<S.Selected>, candidates: seq<Candidate>, io: TickIo, id: string)
    requires forall x :: !io.updateThrows(x)
    ensures SendsIn(busy, plan, candidates, io, id) <==> exists p :: p in plan && p.id == id && Goes(busy, p, candidates, io)
  {
    if p :| p in plan && p.id == id && Goes(busy, p, candidates, io) {
      var i :| 0 <= i < |plan| && plan[i] == p;
      assert GetsTo(busy, plan, candidates, io, i);
    }
  }

  /**
   Progress: where no update throws and at most a batch is listed, a tick sends
   exactly the records that are due, not busy, and have attempts left under the
   mode, provided the planner answers. Offline it does nothing.
   */
  lemma DueIsSentIff(w: World, io: TickIo, id: string)
    requires Distinct(io.listing) && |io.listing| <= io.batchSize
    requires forall x :: !io.updateThrows(x)
    ensures TickSpec(w, false, io) == w
    ensures WasSent(w, io, id) <==>
            && io.plannerUp && ListedAsDue(w, io, id) && id !in w.inFlight
            && SchedulerOrder.CanGo(ItemOf(Candidate(id, Prepared(w, io).outbox[id])), io.now, io.mode)
  {
    var plan, candidates := PlanOf(w, io), CandidatesOf(w, io);
    ReadyKeepsInFlight(w, io);
    DeliverAllIff(Ready(w, io), plan, candidates, io, id);
    UnthrownSendsIff(w.inFlight, plan, candidates, io, id);
    FewArePlannedIff(w, io, id);
    forall p | p in plan ensures Goes(w.inFlight, p, candidates, io) <==> p.id !in w.inFlight {
      PlannedGoesIff(w, io, p, w.inFlight);
    }
  }
}
