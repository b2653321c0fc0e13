/** The plan by the items' own fields: which are picked, in which order, and when each is tried next. */
module SchedulerOrder {
  import StableSort
  import opened Scheduler

  // ---- the policies ----

  /** Each mode's attempts, first delay, longest delay and jitter; any other mode has the last line's. */
  lemma PolicyByMode(mode: string)
    ensures PolicyFor("direct") == Policy(6, 700, 10_000, 0.15)
    ensures PolicyFor("tor") == Policy(12, 2_000, 90_000, 0.25)
    ensures mode != "direct" && mode != "tor" ==> PolicyFor(mode) == Policy(15, 3_000, 120_000, 0.30)
  {}

  function Lesser(a: real, b: real): real { if a < b then a else b }

  /** The delay before the jitter: doubling with each attempt, up to the longest. */
  predicate IsDelay(delay: real, attempts: int, policy: Policy) {
    delay == Lesser(policy.baseDelayMs as real * Pow2(if attempts < 0 then 0 else attempts), policy.maxDelayMs as real)
  }

  /** The next attempt at the two ends of the jitter and at its middle. */
  lemma NextAttemptByJitter(now: int, item: Item, policy: Policy, delay: real, jitter: real)
    requires IsDelay(delay, item.attempts, policy) && jitter == delay * policy.jitterRatio && 0.0 <= jitter <= delay
    ensures NextAttempt(now, item, policy, 0.0) == now + Round(delay - jitter)
    ensures NextAttempt(now, item, policy, 0.5) == now + Round(delay)
    ensures NextAttempt(now, item, policy, 1.0)
         == now + Round(if delay + jitter < policy.maxDelayMs as real then delay + jitter else MaxReal(0.0, policy.maxDelayMs as real))
  {
    assert delay == Capped(item.attempts, policy);
    JitterEnds(delay, policy.jitterRatio, jitter, policy.maxDelayMs as real);
  }

  lemma JitterEnds(delay: real, ratio: real, jitter: real, longest: real)
    requires jitter == delay * ratio && 0.0 <= jitter <= delay <= longest
    ensures Jittered(delay, ratio, longest, 0.0) == delay - jitter
    ensures Jittered(delay, ratio, longest, 0.5) == delay
    ensures Jittered(delay, ratio, longest, 1.0) == if delay + jitter < longest then delay + jitter else MaxReal(0.0, longest)
  {
    assert (0.0 * 2.0 - 1.0) * (delay * ratio) == -jitter;
    assert (0.5 * 2.0 - 1.0) * (delay * ratio) == 0.0;
    assert (1.0 * 2.0 - 1.0) * (delay * ratio) == jitter;
  }

  // ---- the order ----

  function MostAttempts(mode: string): int {
    if mode == "direct" then 6 else if mode == "tor" then 12 else 15
  }

  predicate CanGo(item: Item, now: int, mode: string) {
    item.id != "" && item.attempts < MostAttempts(mode) && item.expiresAtMs > now && item.nextAttemptAtMs <= now
  }

  /** High before normal; then by next attempt, by creation, and by position in the input. */
  predicate Ahead(items: seq<Item>, i: nat, j: nat)
    requires i < |items| && j < |items|
  {
    var a, b := items[i], items[j];
    if a.priority != b.priority then a.priority == "high"
    else if a.nextAttemptAtMs != b.nextAttemptAtMs then a.nextAttemptAtMs < b.nextAttemptAtMs
    else if a.createdAtMs != b.createdAtMs then a.createdAtMs < b.createdAtMs
    else i < j
  }

  ghost predicate HighOrNormal(items: seq<Item>) {
    forall item | item in items :: item.priority == "high" || item.priority == "normal"
  }

  /** `places` are where in the input the plan's entries come from: some that can go, each once, and in order. */
  ghost predicate ComesFrom(places: seq<nat>, items: seq<Item>, now: int, mode: string, plan: seq<Selected>) {
    && |places| == |plan|
    && (forall k | 0 <= k < |places| ::
          && places[k] < |items| && CanGo(items[places[k]], now, mode)
          && plan[k].id == items[places[k]].id && plan[k].attempts == items[places[k]].attempts + 1)
    && forall j, k | 0 <= j < k < |places| :: places[j] != places[k] && Ahead(items, places[j], places[k])
  }

  /** Nothing that can go is left out, unless `size` are picked and all of them are ahead of it. */
  ghost predicate LeavesOutLast(places: seq<nat>, items: seq<Item>, now: int, mode: string, size: int) {
    && |places| <= size
    && forall i: nat {:trigger i in places} | i < |items| && CanGo(items[i], now, mode) && i !in places ::
         |places| == size && forall k | 0 <= k < |places| :: places[k] < |items| && Ahead(items, places[k], i)
  }

  /** `at` are the positions of the items that can go, in order. */
  ghost predicate GoPlaces(at: seq<nat>, items: seq<Item>, now: int, mode: string, eligible: seq<Item>) {
    && |at| == |eligible|
    && (forall k | 0 <= k < |at| :: at[k] < |items| && CanGo(items[at[k]], now, mode) && eligible[k] == items[at[k]])
    && (forall j, k | 0 <= j < k < |at| :: at[j] < at[k])
    && forall i: nat {:trigger i in at} | i < |items| && CanGo(items[i], now, mode) :: i in at
  }

  lemma PlacesOfOneMore(at: seq<nat>, items: seq<Item>, now: int, mode: string, eligible: seq<Item>)
    requires items != [] && GoPlaces(at, items[..|items| - 1], now, mode, eligible)
    ensures var last := |items| - 1;
            if CanGo(items[last], now, mode) then GoPlaces(at + [last], items, now, mode, eligible + [items[last]])
            else GoPlaces(at, items, now, mode, eligible)
  {
    var last := |items| - 1;
    var front := items[..last];
    forall i: nat | i < |items| && CanGo(items[i], now, mode) ensures i in at + [last] && (i < last ==> i in at) {
      if i < last { assert CanGo(front[i], now, mode); }
    }
  }

  /** One more item: whether it is eligible, by its fields. */
  lemma EligibleOneMore(items: seq<Item>, now: int, mode: string)
    requires items != []
    ensures var front, item := Eligible(items[..|items| - 1], now, PolicyFor(mode)), items[|items| - 1];
            Eligible(items, now, PolicyFor(mode)) == if CanGo(item, now, mode) then front + [item] else front
  {
    var front, item := Eligible(items[..|items| - 1], now, PolicyFor(mode)), items[|items| - 1];
    assert IsEligible(item, now, PolicyFor(mode)) <==> CanGo(item, now, mode);
    assert front + [] == front;
  }

  lemma {:induction false} EligiblePlaces(items: seq<Item>, now: int, mode: string) returns (at: seq<nat>)
    ensures GoPlaces(at, items, now, mode, Eligible(items, now, PolicyFor(mode)))
  {
    at := [];
    if items != [] {
      var last := |items| - 1;
      var front := EligiblePlaces(items[..last], now, mode);
      PlacesOfOneMore(front, items, now, mode, Eligible(items[..last], now, PolicyFor(mode)));
      EligibleOneMore(items, now, mode);
      at := if CanGo(items[last], now, mode) then front + [last] else front;
    }
  }

  /** The eligible items sorted, by position in the input. */
  lemma SortedPlaces(items: seq<Item>, now: int, mode: string, eligible: seq<Item>, at: seq<nat>, sorted: seq<nat>, all: seq<nat>)
    requires HighOrNormal(items) && GoPlaces(at, items, now, mode, eligible) && StableSort.InOrder(Precedes, eligible, sorted)
    requires |all| == |sorted| && forall k | 0 <= k < |all| :: sorted[k] < |at| && all[k] == at[sorted[k]]
    requires forall i: nat {:trigger i in sorted} | i < |eligible| :: i in sorted
    ensures forall j, k | 0 <= j < k < |all| :: all[j] != all[k] && Ahead(items, all[j], all[k])
    ensures forall i: nat {:trigger i in all} | i < |items| && CanGo(items[i], now, mode) :: i in all
  {
    forall j, k | 0 <= j < k < |all| ensures all[j] != all[k] && Ahead(items, all[j], all[k]) {
      assert StableSort.GoesBefore(Precedes, eligible, sorted[j], sorted[k]);
      assert items[all[j]] in items && items[all[k]] in items;
    }
    forall i: nat | i < |items| && CanGo(items[i], now, mode) ensures i in all {
      assert i in at;
      var n: nat :| n < |at| && at[n] == i;
      assert n in sorted;
      var k :| 0 <= k < |sorted| && sorted[k] == n;
      assert all[k] == i;
    }
  }

  /** Cutting an ordered list leaves out only what comes after all of the rest. */
  lemma CutLeavesLast(items: seq<Item>, now: int, mode: string, all: seq<nat>, size: nat, places: seq<nat>)
    requires forall k | 0 <= k < |all| :: all[k] < |items|
    requires forall j, k | 0 <= j < k < |all| :: all[j] != all[k] && Ahead(items, all[j], all[k])
    requires forall i: nat {:trigger i in all} | i < |items| && CanGo(items[i], now, mode) :: i in all
    requires places == if |all| > size then all[..size] else all
    ensures LeavesOutLast(places, items, now, mode, size)
  {
    forall i: nat | i < |items| && CanGo(items[i], now, mode) && i !in places
      ensures |places| == size && forall k | 0 <= k < |places| :: Ahead(items, places[k], i)
    {
      assert i in all;
      var n :| 0 <= n < |all| && all[n] == i;
      assert forall m | 0 <= m < |places| :: all[m] == places[m] && places[m] in places;
      forall k | 0 <= k < |places| ensures Ahead(items, places[k], i) {
        assert places[k] == all[k];
      }
    }
  }

  /**
   The plan, by the items' fields. Over high and normal items it picks from those
   that can go, in the order high before normal, then next attempt, creation and
   position; and what it leaves out comes after everything it picks.
   */
  lemma PlanByFields(now: int, mode: string, batchSize: int, items: seq<Item>, unit: (string, int) -> real) returns (places: seq<nat>)
    requires HighOrNormal(items)
    ensures ComesFrom(places, items, now, mode, Plan(now, mode, batchSize, items, unit))
    ensures LeavesOutLast(places, items, now, mode, if batchSize >= 1 then batchSize else 20)
  {
    var all := AllInOrder(items, now, mode);
    var size: nat := if batchSize >= 1 then batchSize else 20;
    places := if |all| > size then all[..size] else all;
    CutLeavesLast(items, now, mode, all, size, places);
    PlanEntries(now, mode, batchSize, items, unit, all);
  }

  /** The eligible items in the order they would be picked, by position. */
  lemma AllInOrder(items: seq<Item>, now: int, mode: string) returns (all: seq<nat>)
    requires HighOrNormal(items)
    ensures var sorted := StableSort.Sort(Precedes, Eligible(items, now, PolicyFor(mode)));
            |all| == |sorted|
            && forall k | 0 <= k < |all| :: all[k] < |items| && CanGo(items[all[k]], now, mode) && sorted[k] == items[all[k]]
    ensures forall j, k | 0 <= j < k < |all| :: all[j] != all[k] && Ahead(items, all[j], all[k])
    ensures forall i: nat {:trigger i in all} | i < |items| && CanGo(items[i], now, mode) :: i in all
  {
    var eligible := Eligible(items, now, PolicyFor(mode));
    var at := EligiblePlaces(items, now, mode);
    EligibleMembers(items, now, PolicyFor(mode));
    ComparatorIsOrderIff(eligible);
    var sorted := StableSort.SortPlaces(Precedes, eligible);
    all := seq(|sorted|, k requires 0 <= k < |sorted| => at[sorted[k]]);
    SortedPlaces(items, now, mode, eligible, at, sorted, all);
  }

  lemma PlanEntries(now: int, mode: string, batchSize: int, items: seq<Item>, unit: (string, int) -> real, all: seq<nat>)
    requires var sorted := StableSort.Sort(Precedes, Eligible(items, now, PolicyFor(mode)));
             |all| == |sorted| && forall k | 0 <= k < |all| :: all[k] < |items| && sorted[k] == items[all[k]]
    ensures var plan := Plan(now, mode, batchSize, items, unit);
            var size := if batchSize >= 1 then batchSize else 20;
            && |plan| == (if |all| > size then size else |all|)
            && forall k | 0 <= k < |plan| :: plan[k].id == items[all[k]].id && plan[k].attempts == items[all[k]].attempts + 1
  {}

  /** In particular: if a normal item is picked, every high one that can go is picked, and stands before it. */
  lemma HighGoFirst(now: int, mode: string, batchSize: int, items: seq<Item>, unit: (string, int) -> real, normal: int, high: nat)
    returns (places: seq<nat>)
    requires HighOrNormal(items) && 0 <= normal < |Plan(now, mode, batchSize, items, unit)|
    requires high < |items| && CanGo(items[high], now, mode) && items[high].priority == "high"
    ensures ComesFrom(places, items, now, mode, Plan(now, mode, batchSize, items, unit))
    ensures items[places[normal]].priority == "normal" ==> exists k :: 0 <= k < normal && places[k] == high
  {
    places := PlanByFields(now, mode, batchSize, items, unit);
    assert items[places[normal]] in items;
    if items[places[normal]].priority == "normal" {
      assert !Ahead(items, places[normal], high);
      assert forall m | normal < m < |places| :: Ahead(items, places[normal], places[m]);
      assert high in places;
      var k :| 0 <= k < |places| && places[k] == high;
    }
  }
}
