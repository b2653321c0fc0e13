/** What an acknowledgement is worth: at every point of a tick, whether it stays, and whether the record is sent all the same. */
module DeliveryAcks {
  import opened Wrappers
  import StableSort
  import S = Scheduler
  import opened DeliverySpec
  import opened DeliveryRuns

  /** The record with this id has been acknowledged, or is gone for good. */
  predicate Settled(w: World, id: string) {
    id in w.known && (id in w.outbox ==> w.outbox[id].status.Acked?)
  }

  lemma {:induction false} ApplyAllKeepsSettled(w: World, events: seq<External>, id: string)
    requires Settled(w, id)
    ensures Settled(ApplyAll(w, events), id)
    decreases |events|
  {
    if events != [] { ApplyAllKeepsSettled(Apply(w, events[0]), events[1..], id); }
  }

  lemma {:induction false} RequeueKeepsSettled(w: World, ids: seq<string>, io: TickIo, id: string)
    requires Settled(w, id) && id !in ids
    ensures Settled(Requeue(w, ids, io), id)
    decreases |ids|
  {
    if ids != [] {
      ApplyAllKeepsSettled(w, io.beforeRequeue(ids[0]), id);
      var before := ApplyAll(w, io.beforeRequeue(ids[0]));
      RequeueKeepsSettled(before.(outbox := Requeued(before.outbox, ids[0], io.now)), ids[1..], io, id);
    }
  }

  lemma PreparedKeepsSettled(w: World, io: TickIo, id: string)
    requires Settled(w, id)
    ensures Settled(Prepared(w, io), id)
  {
    var swept := w.(outbox := Swept(w.outbox, io.now));
    ApplyAllKeepsSettled(swept, io.afterSweep, id);
    var listed := ApplyAll(swept, io.afterSweep);
    var ids := Timeouts(listed.outbox, io.timedOut, io.now);
    RequeueKeepsSettled(listed, ids, io, id);
    ApplyAllKeepsSettled(Requeue(listed, ids, io), io.beforeListing, id);
  }

  lemma DeliverKeepsSettled(w: World, c: Candidate, planned: S.Selected, io: TickIo, id: string)
    requires Settled(w, id) && c.id != id
    ensures var t := Deliver(w, c, planned, io).0; Settled(t, id) && Sends(t, id) == Sends(w, id)
  {
    var sending := Sending(w, c, planned);
    ApplyAllKeepsSettled(sending, io.during(c.id), id);
    ApplyAllKeepsInFlight(sending, io.during(c.id));
  }

  lemma {:induction false} DeliverAllKeepsSettled(w: World, plan: seq<S.Selected>, candidates: seq<Candidate>, io: TickIo, id: string)
    requires Settled(w, id) && forall c | c in candidates :: c.id != id
    ensures var t := DeliverAll(w, plan, candidates, io); Settled(t, id) && Sends(t, id) == Sends(w, id)
    decreases |plan|
  {
    if plan != [] {
      var c := Find(candidates, plan[0].id);
      if c.Some? {
        DeliverKeepsSettled(w, c.value, plan[0], io, id);
        DeliverAllKeepsSettled(Deliver(w, c.value, plan[0], io).0, plan[1..], candidates, io, id);
      } else {
        DeliverAllKeepsSettled(w, plan[1..], candidates, io, id);
      }
    }
  }

  lemma {:induction false} SettledIsNoCandidate(outbox: map<string, Record>, listing: seq<string>, now: int, id: string)
    requires id in outbox ==> outbox[id].status.Acked?
    ensures forall c | c in Candidates(outbox, listing, now) :: c.id != id
  {
    if listing != [] { SettledIsNoCandidate(outbox, listing[..|listing| - 1], now, id); }
  }

  lemma TickKeepsSettled(w: World, online: bool, io: TickIo, id: string)
    requires Settled(w, id)
    ensures Settled(TickSpec(w, online, io), id) && Sends(TickSpec(w, online, io), id) == Sends(w, id)
  {
    if online {
      var prepared := Prepared(w, io);
      var ready := ApplyAll(prepared, io.afterListing);
      var candidates := Limited(Candidates(prepared.outbox, io.listing, io.now), io.batchSize);
      PreparedKeepsSettled(w, io, id);
      PreparedKeepsInFlight(w, io);
      ApplyAllKeepsSettled(prepared, io.afterListing, id);
      ApplyAllKeepsInFlight(prepared, io.afterListing);
      SettledIsNoCandidate(prepared.outbox, io.listing, io.now, id);
      DeliverAllKeepsSettled(ready, S.Plan(io.now, io.mode, io.batchSize, ItemsOf(candidates), io.unit), candidates, io, id);
    }
  }

  /** Between ticks, an acknowledgement is final: the record is never sent again, whatever happens later. */
  lemma {:induction false} AckedIsNeverSentAgain(w: World, events: seq<Event>, id: string)
    requires Settled(w, id)
    ensures Settled(RunOf(w, events), id) && Sends(RunOf(w, events), id) == Sends(w, id)
    decreases |events|
  {
    if events != [] {
      match events[0] {
        case Tick(online, io) => TickKeepsSettled(w, online, io, id);
        case Outside(change) =>
      }
      AckedIsNeverSentAgain(Perform(w, events[0]), events[1..], id);
    }
  }

  // ---- the points of a tick ----

  /** A point at which others' changes come in: `done` of them have come, `more` are still to come there. */
  datatype Point =
    | AfterSweep(done: seq<External>, more: seq<External>)
    | BeforeRequeue(n: nat, done: seq<External>, more: seq<External>)
    | BeforeListing(done: seq<External>, more: seq<External>)
    | AfterListing(done: seq<External>, more: seq<External>)
    | During(n: nat, done: seq<External>, more: seq<External>)

  function SweptWorld(w: World, io: TickIo): World {
    w.(outbox := Swept(w.outbox, io.now))
  }

  /** The world when the timed-out records are listed, and their ids. */
  function Listed(w: World, io: TickIo): World {
    ApplyAll(SweptWorld(w, io), io.afterSweep)
  }

  function Overdue(w: World, io: TickIo): seq<string> {
    Timeouts(Listed(w, io).outbox, io.timedOut, io.now)
  }

  /** A tick from `w` passes through the point. */
  ghost predicate Occurs(w: World, io: TickIo, p: Point) {
    match p
    case AfterSweep(done, more) => io.afterSweep == done + more
    case BeforeRequeue(n, done, more) => n < |Overdue(w, io)| && io.beforeRequeue(Overdue(w, io)[n]) == done + more
    case BeforeListing(done, more) => io.beforeListing == done + more
    case AfterListing(done, more) => io.afterListing == done + more
    case During(n, done, more) =>
      var plan := PlanOf(w, io);
      && n < |plan| && io.during(plan[n].id) == done + more
      && GetsTo(w.inFlight, plan, CandidatesOf(w, io), io, n + 1) && Goes(w.inFlight, plan[n], CandidatesOf(w, io), io)
  }

  /** The world at the point. */
  ghost function WorldAt(w: World, io: TickIo, p: Point): World
    requires Occurs(w, io, p)
  {
    match p
    case AfterSweep(done, more) => ApplyAll(SweptWorld(w, io), done)
    case BeforeRequeue(n, done, more) => ApplyAll(Requeue(Listed(w, io), Overdue(w, io)[..n], io), done)
    case BeforeListing(done, more) => ApplyAll(Requeue(Listed(w, io), Overdue(w, io), io), done)
    case AfterListing(done, more) => ApplyAll(Prepared(w, io), done)
    case During(n, done, more) => ApplyAll(SendingAt(w, io, n), done)
  }

  /** The `n`th planned record has just been handed to the sender. */
  ghost function SendingAt(w: World, io: TickIo, n: nat): World
    requires n < |PlanOf(w, io)| && Goes(w.inFlight, PlanOf(w, io)[n], CandidatesOf(w, io), io)
  {
    var planned := PlanOf(w, io)[n];
    Sending(DeliverAll(Ready(w, io), PlanOf(w, io)[..n], CandidatesOf(w, io), io), Find(CandidatesOf(w, io), planned.id).value, planned)
  }

  /** `id` has been listed as timed out and is still to be requeued. */
  predicate BetweenTimeoutAndRequeue(w: World, io: TickIo, p: Point, id: string) {
    p.BeforeRequeue? && p.n < |Overdue(w, io)| && id in Overdue(w, io)[p.n..]
  }

  /** The candidates have been listed. */
  predicate AfterCandidates(p: Point) { p.AfterListing? || p.During? }

  /** What is left of the plan at the point gets to `id` and sends it. */
  ghost predicate SendsLater(w: World, io: TickIo, p: Point, id: string) {
    var plan := PlanOf(w, io);
    SendsIn(w.inFlight, if p.During? && p.n < |plan| then plan[p.n + 1..] else plan, CandidatesOf(w, io), io, id)
  }

  /** Nobody removes the record or acknowledges it again. */
  predicate Quiet(events: seq<External>, id: string) {
    forall e | e in events :: e != AckArrives(id) && e != Removed(id)
  }

  ghost predicate QuietAfter(w: World, io: TickIo, p: Point, id: string) {
    && Quiet(p.more, id) && Quiet(io.beforeListing, id) && Quiet(io.afterListing, id)
    && (forall x :: Quiet(io.during(x), id))
    && (p.BeforeRequeue? ==> forall j | p.n < j < |Overdue(w, io)| :: Quiet(io.beforeRequeue(Overdue(w, io)[j]), id))
  }

  // ---- going on from a point ----

  lemma {:induction false} ApplyConcat(w: World, a: seq<External>, b: seq<External>)
    ensures ApplyAll(w, a + b) == ApplyAll(ApplyAll(w, a), b)
    decreases |a|
  {
    if a == [] {
      assert a + b == b;
    } else {
      assert (a + b)[1..] == a[1..] + b;
      ApplyConcat(Apply(w, a[0]), a[1..], b);
    }
  }

  lemma {:induction false} RequeueConcat(w: World, a: seq<string>, b: seq<string>, io: TickIo)
    ensures Requeue(w, a + b, io) == Requeue(Requeue(w, a, io), b, io)
    decreases |a|
  {
    if a == [] {
      assert a + b == b;
    } else {
      assert (a + b)[1..] == a[1..] + b;
      var before := ApplyAll(w, io.beforeRequeue(a[0]));
      RequeueConcat(before.(outbox := Requeued(before.outbox, a[0], io.now)), a[1..], b, io);
    }
  }

  lemma {:induction false} DeliverConcat(w: World, plan: seq<S.Selected>, n: nat, candidates: seq<Candidate>, io: TickIo)
    requires n <= |plan| && GetsTo(w.inFlight, plan, candidates, io, n)
    ensures var t := DeliverAll(w, plan[..n], candidates, io);
            t.inFlight == w.inFlight && DeliverAll(w, plan, candidates, io) == DeliverAll(t, plan[n..], candidates, io)
    decreases n
  {
    if n > 0 {
      StepWorks(w, plan[0], candidates, io);
      GetsToRest(w.inFlight, plan, candidates, io, n - 1);
      assert plan[..n][1..] == plan[1..][..n - 1] && plan[1..][n - 1..] == plan[n..];
      DeliverConcat(Step(w, plan[0], candidates, io), plan[1..], n - 1, candidates, io);
    } else {
      assert plan[..0] == [] && plan[0..] == plan;
    }
  }

  /** The world of `w` once the events still to come at a requeue, and the requeues still to come, have happened. */
  function RequeueRest(u: World, ids: seq<string>, more: seq<External>, io: TickIo): World
    requires ids != []
  {
    var before := ApplyAll(u, more);
    Requeue(before.(outbox := Requeued(before.outbox, ids[0], io.now)), ids[1..], io)
  }

  lemma GoOnRequeuing(w: World, io: TickIo, p: Point)
    requires p.BeforeRequeue? && Occurs(w, io, p)
    ensures Prepared(w, io) == ApplyAll(RequeueRest(WorldAt(w, io, p), Overdue(w, io)[p.n..], p.more, io), io.beforeListing)
  {
    var ids := Overdue(w, io);
    assert ids == ids[..p.n] + ids[p.n..];
    RequeueConcat(Listed(w, io), ids[..p.n], ids[p.n..], io);
    ApplyConcat(Requeue(Listed(w, io), ids[..p.n], io), p.done, p.more);
  }

  lemma GoOnSending(w: World, io: TickIo, p: Point)
    requires p.During? && Occurs(w, io, p)
    ensures var plan := PlanOf(w, io);
            var u := WorldAt(w, io, p);
            var after := Released(ApplyAll(u, p.more), plan[p.n].id, io);
            && after.inFlight == w.inFlight && after.sends == u.sends
            && TickSpec(w, true, io) == DeliverAll(after, plan[p.n + 1..], CandidatesOf(w, io), io)
  {
    var plan, candidates := PlanOf(w, io), CandidatesOf(w, io);
    ReadyKeepsInFlight(w, io);
    var ready := Ready(w, io);
    DeliverConcat(ready, plan, p.n, candidates, io);
    var t := DeliverAll(ready, plan[..p.n], candidates, io);
    StepWorks(t, plan[p.n], candidates, io);
    assert plan[p.n..][0] == plan[p.n] && plan[p.n..][1..] == plan[p.n + 1..];
    var sending := SendingAt(w, io, p.n);
    ApplyConcat(sending, p.done, p.more);
    ApplyAllKeepsInFlight(sending, p.done);
    ApplyAllKeepsInFlight(WorldAt(w, io, p), p.more);
    assert Step(t, plan[p.n], candidates, io) == Released(ApplyAll(WorldAt(w, io, p), p.more), plan[p.n].id, io);
  }

  // ---- a settled record stays so ----

  lemma DeliverAnyKeepsSettled(w: World, c: Candidate, planned: S.Selected, io: TickIo, id: string)
    requires Settled(w, id)
    ensures Settled(Deliver(w, c, planned, io).0, id)
  {
    ApplyAllKeepsSettled(Sending(w, c, planned), io.during(c.id), id);
  }

  lemma {:induction false} DeliverAllAnyKeepsSettled(w: World, plan: seq<S.Selected>, candidates: seq<Candidate>, io: TickIo, id: string)
    requires Settled(w, id)
    ensures Settled(DeliverAll(w, plan, candidates, io), id)
    decreases |plan|
  {
    if plan != [] {
      StepWorks(w, plan[0], candidates, io);
      var c := Find(candidates, plan[0].id);
      if c.Some? { DeliverAnyKeepsSettled(w, c.value, plan[0], io, id); }
      DeliverAllAnyKeepsSettled(Step(w, plan[0], candidates, io), plan[1..], candidates, io, id);
    }
  }

  /** A record gone for good is not brought back by requeuing it. */
  lemma {:induction false} ApplyAllKeepsGone(w: World, events: seq<External>, id: string)
    requires id in w.known && id !in w.outbox
    ensures var t := ApplyAll(w, events); id in t.known && id !in t.outbox
    decreases |events|
  {
    if events != [] { ApplyAllKeepsGone(Apply(w, events[0]), events[1..], id); }
  }

  lemma {:induction false} RequeueKeepsGone(w: World, ids: seq<string>, io: TickIo, id: string)
    requires id in w.known && id !in w.outbox
    ensures var t := Requeue(w, ids, io); id in t.known && id !in t.outbox
    decreases |ids|
  {
    if ids != [] {
      ApplyAllKeepsGone(w, io.beforeRequeue(ids[0]), id);
      var before := ApplyAll(w, io.beforeRequeue(ids[0]));
      RequeueKeepsGone(before.(outbox := Requeued(before.outbox, ids[0], io.now)), ids[1..], io, id);
    }
  }

  /** The acknowledgement at `p` will be overwritten: the record is still there, and still to be requeued. */
  ghost predicate Overwritten(w: World, io: TickIo, p: Point, id: string)
    requires Occurs(w, io, p)
  {
    BetweenTimeoutAndRequeue(w, io, p, id) && id in WorldAt(w, io, p).outbox
  }

  lemma RequeueRestKeepsSettled(u: World, ids: seq<string>, more: seq<External>, io: TickIo, id: string)
    requires ids != [] && Settled(u, id) && (id in ids ==> id !in u.outbox)
    ensures Settled(RequeueRest(u, ids, more, io), id)
  {
    var before := ApplyAll(u, more);
    var next := before.(outbox := Requeued(before.outbox, ids[0], io.now));
    ApplyAllKeepsSettled(u, more, id);
    if id in ids {
      ApplyAllKeepsGone(u, more, id);
      RequeueKeepsGone(next, ids[1..], io, id);
    } else {
      RequeueKeepsSettled(next, ids[1..], io, id);
    }
  }

  /** Settled before the candidates are listed, and not overwritten: settled when they are. */
  lemma SettledWhenListed(w: World, io: TickIo, p: Point, id: string)
    requires Occurs(w, io, p) && Settled(WorldAt(w, io, p), id) && !AfterCandidates(p) && !Overwritten(w, io, p, id)
    ensures Settled(Prepared(w, io), id)
  {
    var u := WorldAt(w, io, p);
    match p {
      case AfterSweep(done, more) =>
        ApplyConcat(SweptWorld(w, io), done, more);
        ApplyAllKeepsSettled(u, more, id);
        RequeueKeepsSettled(Listed(w, io), Overdue(w, io), io, id);
        ApplyAllKeepsSettled(Requeue(Listed(w, io), Overdue(w, io), io), io.beforeListing, id);
      case BeforeRequeue(n, done, more) =>
        GoOnRequeuing(w, io, p);
        RequeueRestKeepsSettled(u, Overdue(w, io)[n..], more, io, id);
        ApplyAllKeepsSettled(RequeueRest(u, Overdue(w, io)[n..], more, io), io.beforeListing, id);
      case BeforeListing(done, more) =>
        ApplyConcat(Requeue(Listed(w, io), Overdue(w, io), io), done, more);
        ApplyAllKeepsSettled(u, more, id);
      case AfterListing(done, more) => assert false;
      case During(n, done, more) => assert false;
    }
  }

  lemma SettledAfterTick(w: World, io: TickIo, p: Point, id: string)
    requires Occurs(w, io, p)
    ensures Settled(WorldAt(w, io, p), id) && !Overwritten(w, io, p, id) ==> Settled(TickSpec(w, true, io), id)
  {
    var u := WorldAt(w, io, p);
    ReadyKeepsInFlight(w, io);
    if Overwritten(w, io, p, id) || !Settled(u, id) {
    } else if p.During? {
      GoOnSending(w, io, p);
      ApplyAllKeepsSettled(u, p.more, id);
      var after := Released(ApplyAll(u, p.more), PlanOf(w, io)[p.n].id, io);
      DeliverAllAnyKeepsSettled(after, PlanOf(w, io)[p.n + 1..], CandidatesOf(w, io), io, id);
    } else {
      if p.AfterListing? {
        ApplyConcat(Prepared(w, io), p.done, p.more);
        ApplyAllKeepsSettled(u, p.more, id);
      } else {
        SettledWhenListed(w, io, p, id);
        ApplyAllKeepsSettled(Prepared(w, io), io.afterListing, id);
      }
      DeliverAllAnyKeepsSettled(Ready(w, io), PlanOf(w, io), CandidatesOf(w, io), io, id);
    }
  }

  // ---- an overwritten one does not ----

  predicate Unsettled(w: World, id: string) {
    id in w.outbox && !w.outbox[id].status.Acked? && id in w.known
  }

  lemma {:induction false} QuietKeepsUnsettled(w: World, events: seq<External>, id: string)
    requires Unsettled(w, id) && Quiet(events, id)
    ensures Unsettled(ApplyAll(w, events), id)
    decreases |events|
  {
    if events != [] {
      assert events[0] in events && forall e | e in events[1..] :: e in events;
      QuietKeepsUnsettled(Apply(w, events[0]), events[1..], id);
    }
  }

  lemma {:induction false} QuietKeepsPresent(w: World, events: seq<External>, id: string)
    requires id in w.outbox && id in w.known && Quiet(events, id)
    ensures id in ApplyAll(w, events).outbox && id in ApplyAll(w, events).known
    decreases |events|
  {
    if events != [] {
      assert events[0] in events && forall e | e in events[1..] :: e in events;
      QuietKeepsPresent(Apply(w, events[0]), events[1..], id);
    }
  }

  /** Requeuing leaves the record unsettled if it was, or if it is among those requeued. */
  lemma {:induction false} RequeueUnsettles(w: World, ids: seq<string>, io: TickIo, id: string)
    requires id in w.outbox && id in w.known && forall j | 0 <= j < |ids| :: Quiet(io.beforeRequeue(ids[j]), id)
    requires Unsettled(w, id) || id in ids
    ensures Unsettled(Requeue(w, ids, io), id)
    decreases |ids|
  {
    if ids != [] {
      var before := ApplyAll(w, io.beforeRequeue(ids[0]));
      QuietKeepsPresent(w, io.beforeRequeue(ids[0]), id);
      if Unsettled(w, id) { QuietKeepsUnsettled(w, io.beforeRequeue(ids[0]), id); }
      RequeueUnsettles(before.(outbox := Requeued(before.outbox, ids[0], io.now)), ids[1..], io, id);
    }
  }

  lemma RequeueRestUnsettles(u: World, ids: seq<string>, more: seq<External>, io: TickIo, id: string)
    requires ids != [] && id in ids && id in u.outbox && id in u.known && Quiet(more, id)
    requires forall j | 0 < j < |ids| :: Quiet(io.beforeRequeue(ids[j]), id)
    ensures Unsettled(RequeueRest(u, ids, more, io), id)
  {
    QuietKeepsPresent(u, more, id);
    var before := ApplyAll(u, more);
    forall j | 0 <= j < |ids[1..]| ensures Quiet(io.beforeRequeue(ids[1..][j]), id) {
      assert ids[1..][j] == ids[j + 1];
    }
    RequeueUnsettles(before.(outbox := Requeued(before.outbox, ids[0], io.now)), ids[1..], io, id);
  }

  lemma {:induction false} DeliverAllKeepsUnsettled(w: World, plan: seq<S.Selected>, candidates: seq<Candidate>, io: TickIo, id: string)
    requires Unsettled(w, id) && forall x :: Quiet(io.during(x), id)
    ensures Unsettled(DeliverAll(w, plan, candidates, io), id)
    decreases |plan|
  {
    if plan != [] {
      StepWorks(w, plan[0], candidates, io);
      var c := Find(candidates, plan[0].id);
      if c.Some? { QuietKeepsUnsettled(Sending(w, c.value, plan[0]), io.during(c.value.id), id); }
      DeliverAllKeepsUnsettled(Step(w, plan[0], candidates, io), plan[1..], candidates, io, id);
    }
  }

  lemma OverwrittenIsUnsettled(w: World, io: TickIo, p: Point, id: string)
    requires Occurs(w, io, p) && Settled(WorldAt(w, io, p), id) && Overwritten(w, io, p, id) && QuietAfter(w, io, p, id)
    ensures Unsettled(TickSpec(w, true, io), id)
  {
    var u, ids := WorldAt(w, io, p), Overdue(w, io)[p.n..];
    forall j | 0 < j < |ids| ensures Quiet(io.beforeRequeue(ids[j]), id) {
      assert ids[j] == Overdue(w, io)[p.n + j];
    }
    GoOnRequeuing(w, io, p);
    RequeueRestUnsettles(u, ids, p.more, io, id);
    QuietKeepsUnsettled(RequeueRest(u, ids, p.more, io), io.beforeListing, id);
    QuietKeepsUnsettled(Prepared(w, io), io.afterListing, id);
    ReadyKeepsInFlight(w, io);
    DeliverAllKeepsUnsettled(Ready(w, io), PlanOf(w, io), CandidatesOf(w, io), io, id);
  }

  /**
   Does an acknowledgement stay? One that has come by some point of a tick, and
   is the last word on its record there, stays exactly if the point is not
   between the record's listing as timed out and its requeue.
   */
  lemma AckStaysIff(w: World, io: TickIo, p: Point, id: string)
    requires Occurs(w, io, p)
    ensures Settled(WorldAt(w, io, p), id) && !Overwritten(w, io, p, id) ==> Settled(TickSpec(w, true, io), id)
    ensures Settled(WorldAt(w, io, p), id) && QuietAfter(w, io, p, id) ==>
              (Settled(TickSpec(w, true, io), id) <==> !Overwritten(w, io, p, id))
  {
    if Overwritten(w, io, p, id) {
      if Settled(WorldAt(w, io, p), id) && QuietAfter(w, io, p, id) { OverwrittenIsUnsettled(w, io, p, id); }
    } else {
      SettledAfterTick(w, io, p, id);
    }
  }

  // ---- and is the record sent all the same? ----

  lemma SendsByPoint(w: World, io: TickIo, p: Point, id: string)
    requires Occurs(w, io, p) && !p.During?
    ensures Sends(WorldAt(w, io, p), id) == Sends(w, id)
  {
    PreparedKeepsInFlight(w, io);
    ApplyAllKeepsInFlight(SweptWorld(w, io), io.afterSweep);
    match p
    case AfterSweep(done, more) => ApplyAllKeepsInFlight(SweptWorld(w, io), done);
    case BeforeRequeue(n, done, more) =>
      RequeueKeepsInFlight(Listed(w, io), Overdue(w, io)[..n], io);
      ApplyAllKeepsInFlight(Requeue(Listed(w, io), Overdue(w, io)[..n], io), done);
    case BeforeListing(done, more) =>
      RequeueKeepsInFlight(Listed(w, io), Overdue(w, io), io);
      ApplyAllKeepsInFlight(Requeue(Listed(w, io), Overdue(w, io), io), done);
    case AfterListing(done, more) => ApplyAllKeepsInFlight(Prepared(w, io), done);
  }

  lemma SettledIsNotPlanned(w: World, io: TickIo, id: string)
    requires Settled(Prepared(w, io), id)
    ensures !SendsIn(w.inFlight, PlanOf(w, io), CandidatesOf(w, io), io, id)
  {
    SettledIsNoCandidate(Prepared(w, io).outbox, io.listing, io.now, id);
  }

  /** From any point on, a record is sent exactly if what is left of the plan gets to it. */
  lemma SentLaterIff(w: World, io: TickIo, p: Point, id: string)
    requires Occurs(w, io, p)
    ensures var t := TickSpec(w, true, io);
            var u := WorldAt(w, io, p);
            Sends(t, id) >= Sends(u, id) && (Sends(t, id) > Sends(u, id) <==> SendsLater(w, io, p, id))
  {
    if p.During? {
      GoOnSending(w, io, p);
      var after := Released(ApplyAll(WorldAt(w, io, p), p.more), PlanOf(w, io)[p.n].id, io);
      DeliverAllIff(after, PlanOf(w, io)[p.n + 1..], CandidatesOf(w, io), io, id);
    } else {
      ReadyKeepsInFlight(w, io);
      SendsByPoint(w, io, p, id);
      DeliverAllIff(Ready(w, io), PlanOf(w, io), CandidatesOf(w, io), io, id);
    }
  }

  /**
   Is the record sent after the acknowledgement? Exactly if it came between the
   listing as timed out and the requeue, or after the candidates were listed,
   and what is left of the plan gets to the record: planned, listed, not busy,
   not expired, with no throw before it.
   */
  lemma SentAfterAckIff(w: World, io: TickIo, p: Point, id: string)
    requires Occurs(w, io, p)
    ensures var t := TickSpec(w, true, io);
            var u := WorldAt(w, io, p);
            && Sends(t, id) >= Sends(u, id)
            && (Settled(u, id) ==>
                  (Sends(t, id) > Sends(u, id) <==>
                     (BetweenTimeoutAndRequeue(w, io, p, id) || AfterCandidates(p)) && SendsLater(w, io, p, id)))
  {
    SentLaterIff(w, io, p, id);
    if Settled(WorldAt(w, io, p), id) && !AfterCandidates(p) && !BetweenTimeoutAndRequeue(w, io, p, id) {
      SettledWhenListed(w, io, p, id);
      SettledIsNotPlanned(w, io, id);
    }
  }

  /** From the point on, the record is never sent again and never anything but settled between ticks. */
  ghost predicate Final(w: World, io: TickIo, p: Point, id: string)
    requires Occurs(w, io, p)
  {
    forall later :: FinalIn(TickSpec(w, true, io), later, Sends(WorldAt(w, io, p), id), id)
  }

  ghost predicate FinalIn(t: World, later: seq<Event>, sends: nat, id: string) {
    Settled(RunOf(t, later), id) && Sends(RunOf(t, later), id) == sends
  }

  /**
   An acknowledgement is final, over every later run, exactly if it came neither
   between its record's listing as timed out and its requeue, nor between its
   listing as a candidate and a send the plan still gets to.
   */
  lemma AckIsFinalIff(w: World, io: TickIo, p: Point, id: string)
    requires Occurs(w, io, p)
    ensures Settled(WorldAt(w, io, p), id) && QuietAfter(w, io, p, id) ==>
              (Final(w, io, p, id) <==> !Overwritten(w, io, p, id) && !(AfterCandidates(p) && SendsLater(w, io, p, id)))
    ensures Settled(WorldAt(w, io, p), id) && !Overwritten(w, io, p, id) && !(AfterCandidates(p) && SendsLater(w, io, p, id)) ==>
              Final(w, io, p, id)
  {
    var t := TickSpec(w, true, io);
    var sends := Sends(WorldAt(w, io, p), id);
    AckStaysIff(w, io, p, id);
    SentAfterAckIff(w, io, p, id);
    var none: seq<Event> := [];
    assert RunOf(t, none) == t;
    if !Settled(WorldAt(w, io, p), id) {
    } else if !Overwritten(w, io, p, id) && !(AfterCandidates(p) && SendsLater(w, io, p, id)) {
      if BetweenTimeoutAndRequeue(w, io, p, id) { GoneIsNotPlanned(w, io, p, id); }
      forall later ensures FinalIn(t, later, sends, id) { AckedIsNeverSentAgain(t, later, id); }
    } else if QuietAfter(w, io, p, id) {
      assert !FinalIn(t, none, sends, id);
    }
  }

  lemma GoneIsNotPlanned(w: World, io: TickIo, p: Point, id: string)
    requires Occurs(w, io, p) && Settled(WorldAt(w, io, p), id)
    requires BetweenTimeoutAndRequeue(w, io, p, id) && !Overwritten(w, io, p, id)
    ensures !SendsLater(w, io, p, id)
  {
    SettledWhenListed(w, io, p, id);
    SettledIsNotPlanned(w, io, id);
  }

  // ---- both windows are real ----

  /** An instance of the first window: the acknowledgement is overwritten, and the record is a candidate again. */
  lemma LateAckIsOverwritten(w: World, io: TickIo, id: string)
    requires id in w.outbox && TimedOut(w.outbox[id], io.now) && io.now >= 0
    requires io.timedOut == [id] && io.beforeRequeue(id) == [AckArrives(id)] && io.afterSweep == [] && io.beforeListing == []
    ensures var r := w.outbox[id].(status := Pending, ackDeadlineMs := None, nextAttemptAtMs := io.now);
            id in Prepared(w, io).outbox && Prepared(w, io).outbox[id] == r
            && Candidates(Prepared(w, io).outbox, [id], io.now) == [Candidate(id, r)]
  {
    var swept := w.(outbox := Swept(w.outbox, io.now));
    OneTimeout(swept.outbox, id, io.now);
    OneRequeued(swept, id, io);
    OneCandidate(Prepared(w, io).outbox, id, io.now);
  }

  lemma OneTimeout(outbox: map<string, Record>, id: string, now: int)
    requires id in outbox && TimedOut(outbox[id], now)
    ensures Timeouts(outbox, [id], now) == [id]
  {
    assert [id][..0] == [] && Timeouts(outbox, [], now) == [];
  }

  lemma OneRequeued(w: World, id: string, io: TickIo)
    requires id in w.outbox && io.beforeRequeue(id) == [AckArrives(id)]
    ensures Requeue(w, [id], io)
         == w.(outbox := w.outbox[id := w.outbox[id].(status := Pending, ackDeadlineMs := None, nextAttemptAtMs := io.now)])
  {
    var events := [AckArrives(id)];
    var before := Apply(w, AckArrives(id));
    assert events[1..] == [] && ApplyAll(before, []) == before;
    assert ApplyAll(w, events) == before;
    var after := before.(outbox := Requeued(before.outbox, id, io.now));
    assert [id][1..] == [] && Requeue(after, [], io) == after;
    assert after.outbox == w.outbox[id := w.outbox[id].(status := Pending, ackDeadlineMs := None, nextAttemptAtMs := io.now)];
  }

  lemma OneCandidate(outbox: map<string, Record>, id: string, now: int)
    requires id in outbox && Retryable(outbox[id], now)
    ensures Candidates(outbox, [id], now) == [Candidate(id, outbox[id])]
  {
    assert [id][..0] == [] && Candidates(outbox, [], now) == [];
  }

  /**
   An instance of the second window: a record sent once before and due again is
   listed as a candidate; its acknowledgement arrives before it is sent, stays,
   and the record is sent all the same.
   */
  lemma AckedCandidateIsSent() returns (w: World, io: TickIo, p: Point)
    ensures Occurs(w, io, p) && p.AfterListing? && !BetweenTimeoutAndRequeue(w, io, p, "a")
    ensures Settled(WorldAt(w, io, p), "a") && Settled(TickSpec(w, true, io), "a")
    ensures Sends(TickSpec(w, true, io), "a") == Sends(WorldAt(w, io, p), "a") + 1 == 2
  {
    var r := Record("normal", 1, 0, 10, 0, Pending, None);
    w := World(map["a" := r], {}, {"a"}, map["a" := 1]);
    io := TickIo(5, "tor", 1, 1000, [], ["a"], true, (id: string, n: int) => 0.5, [], (id: string) => [], [],
                 [AckArrives("a")], (id: string) => [], (id: string) => SendThrew, (id: string) => false);
    p := AfterListing([AckArrives("a")], []);
    assert io.afterListing == p.done + p.more;
    assert Swept(w.outbox, 5) == w.outbox;
    assert Listed(w, io) == w && Overdue(w, io) == [] && Prepared(w, io) == w;
    OneCandidate(w.outbox, "a", 5);
    var c := Candidate("a", r);
    assert CandidatesOf(w, io) == [c];
    OneIsPlanned(5, 1, ItemOf(c));
    assert ItemsOf([c]) == [ItemOf(c)];
    assert PlanOf(w, io)[0].id == "a" && |PlanOf(w, io)| == 1;
    var ready := Ready(w, io);
    OneAck(w, "a");
    ReadyKeepsInFlight(w, io);
    StepWorks(ready, PlanOf(w, io)[0], [c], io);
    var t := Step(ready, PlanOf(w, io)[0], [c], io);
    assert PlanOf(w, io)[1..] == [] && DeliverAll(t, [], [c], io) == t;
    SettledAfterTick(w, io, p, "a");
  }

  lemma OneAck(w: World, id: string)
    ensures ApplyAll(w, [AckArrives(id)]) == Apply(w, AckArrives(id))
  {
    assert [AckArrives(id)][1..] == [];
    assert ApplyAll(Apply(w, AckArrives(id)), []) == Apply(w, AckArrives(id));
  }

  lemma OneIsPlanned(now: int, batchSize: int, item: S.Item)
    requires item.id != "" && item.attempts < 12 && item.expiresAtMs > now && item.nextAttemptAtMs <= now
    ensures S.Chosen(now, "tor", batchSize, [item]) == [item]
  {
    var policy := S.PolicyFor("tor");
    assert [item][..0] == [] && S.Eligible([], now, policy) == [];
    assert S.Eligible([item], now, policy) == [item];
    assert [item][1..] == [] && StableSort.Sort(S.Precedes, []) == [];
    assert StableSort.Sort(S.Precedes, [item]) == StableSort.Insert(S.Precedes, item, []);
  }
}
