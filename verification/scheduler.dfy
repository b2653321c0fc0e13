/** The delivery planner: which outbox items to try now, in which order, and when to try them again. */
module Scheduler {
  import StableSort

  datatype Item = Item(id: string, priority: string, attempts: int, nextAttemptAtMs: int, expiresAtMs: int, createdAtMs: int)

  datatype Policy = Policy(maxAttempts: int, baseDelayMs: int, maxDelayMs: int, jitterRatio: real)

  function PolicyFor(mode: string): (policy: Policy)
    ensures 0 < policy.maxAttempts <= 15
    ensures 0 < policy.baseDelayMs <= policy.maxDelayMs && 0.0 <= policy.jitterRatio <= 0.3
  {
    if mode == "direct" then Policy(6, 700, 10_000, 0.15)
    else if mode == "tor" then Policy(12, 2_000, 90_000, 0.25)
    else Policy(15, 3_000, 120_000, 0.30)
  }

  // ---- the next attempt ----

  function Pow2(n: nat): (p: real)
    ensures p >= 1.0
  {
    if n == 0 then 1.0 else 2.0 * Pow2(n - 1)
  }

  function MinReal(a: real, b: real): real { if a < b then a else b }

  function MaxReal(a: real, b: real): real { if a < b then b else a }

  /** Rounds to the nearest integer, halves up; equal to rounding halves away from zero on what it is used for. */
  function Round(x: real): int
    requires x >= 0.0
  {
    (x + 0.5).Floor
  }

  function Capped(attempts: int, policy: Policy): real {
    MinReal(policy.baseDelayMs as real * Pow2(if attempts < 0 then 0 else attempts), policy.maxDelayMs as real)
  }

  /** A capped delay shifted by up to the jitter ratio either way, within 0 and the longest delay. */
  function Jittered(capped: real, ratio: real, longest: real, unit: real): (delay: real)
    ensures delay >= 0.0
  {
    MaxReal(0.0, MinReal(capped + (unit * 2.0 - 1.0) * (capped * ratio), longest))
  }

  /** `unit` is the item's deterministic jitter, between 0 and 1. */
  function NextAttempt(now: int, item: Item, policy: Policy, unit: real): int {
    now + Round(Jittered(Capped(item.attempts, policy), policy.jitterRatio, policy.maxDelayMs as real, unit))
  }

  lemma RoundIsNearest(x: real, n: int)
    requires x >= 0.0
    ensures Round(x) == n <==> n as real - 0.5 <= x < n as real + 0.5
  {}

  lemma RoundIsMonotone(x: real, y: real)
    requires 0.0 <= x <= y
    ensures Round(x) <= Round(y)
  {}

  lemma JitterIsBounded(jitter: real, unit: real)
    requires 0.0 <= jitter && 0.0 <= unit <= 1.0
    ensures -jitter <= (unit * 2.0 - 1.0) * jitter <= jitter
  {
    assert unit * jitter >= 0.0;
    assert (1.0 - unit) * jitter >= 0.0;
    assert (unit * 2.0 - 1.0) * jitter == 2.0 * (unit * jitter) - jitter;
    assert (1.0 - unit) * jitter == jitter - unit * jitter;
  }

  lemma JitterShare(capped: real, ratio: real)
    requires 700.0 <= capped && 0.0 <= ratio <= 0.3
    ensures 0.0 <= capped * ratio && capped * (1.0 - ratio) == capped - capped * ratio
    ensures capped - capped * ratio >= 490.0
  {
    assert capped * (0.3 - ratio) >= 0.0;
    assert capped * (0.3 - ratio) == capped * 0.3 - capped * ratio;
  }

  lemma CappedBounds(attempts: int, mode: string)
    ensures var policy := PolicyFor(mode);
            700.0 <= policy.baseDelayMs as real <= Capped(attempts, policy) <= policy.maxDelayMs as real
  {
    var policy := PolicyFor(mode);
    Scaled(policy.baseDelayMs as real, Pow2(if attempts < 0 then 0 else attempts));
  }

  lemma Scaled(base: real, factor: real)
    requires base >= 0.0 && factor >= 1.0
    ensures base * factor >= base
  {
    assert base * (factor - 1.0) >= 0.0;
  }

  /** Backoff: never sooner than the jittered delay's lower end, never later than the policy's longest delay, always in the future. */
  lemma NextAttemptBounds(now: int, item: Item, mode: string, unit: real)
    requires 0.0 <= unit <= 1.0
    ensures var policy := PolicyFor(mode);
            var capped := Capped(item.attempts, policy);
            && policy.baseDelayMs as real <= capped <= policy.maxDelayMs as real
            && capped * (1.0 - policy.jitterRatio) >= 490.0
            && now + Round(capped * (1.0 - policy.jitterRatio)) <= NextAttempt(now, item, policy, unit) <= now + policy.maxDelayMs
            && now < NextAttempt(now, item, policy, unit)
  {
    var policy := PolicyFor(mode);
    CappedBounds(item.attempts, mode);
    DelayBounds(Capped(item.attempts, policy), policy.jitterRatio, policy.maxDelayMs, unit);
  }

  lemma DelayBounds(capped: real, ratio: real, longest: int, unit: real)
    requires 700.0 <= capped <= longest as real && 0.0 <= ratio <= 0.3 && 0.0 <= unit <= 1.0
    ensures 490.0 <= capped * (1.0 - ratio)
    ensures 490 <= Round(capped * (1.0 - ratio)) <= Round(Jittered(capped, ratio, longest as real, unit)) <= longest
  {
    var jitter := capped * ratio;
    var shift := (unit * 2.0 - 1.0) * jitter;
    JitterShare(capped, ratio);
    JitterIsBounded(jitter, unit);
    var delay := Jittered(capped, ratio, longest as real, unit);
    assert delay == MaxReal(0.0, MinReal(capped + shift, longest as real));
    assert capped * (1.0 - ratio) == capped - jitter;
    ShiftIsBounded(capped, shift, jitter, longest as real);
    RoundIsMonotone(490.0, capped - jitter);
    RoundIsMonotone(capped - jitter, delay);
    RoundIsMonotone(delay, longest as real);
    assert Round(490.0) == 490 && Round(longest as real) == longest;
  }

  lemma ShiftIsBounded(capped: real, shift: real, jitter: real, longest: real)
    requires 0.0 <= jitter <= capped <= longest && -jitter <= shift <= jitter
    ensures capped - jitter <= MaxReal(0.0, MinReal(capped + shift, longest)) <= longest
  {}

  // ---- the order ----

  predicate Earlier(a: Item, b: Item) {
    a.nextAttemptAtMs < b.nextAttemptAtMs || (a.nextAttemptAtMs == b.nextAttemptAtMs && a.createdAtMs < b.createdAtMs)
  }

  /** The comparator as written. */
  predicate Precedes(left: Item, right: Item) {
    if left.priority != right.priority then left.priority == "high"
    else if left.nextAttemptAtMs != right.nextAttemptAtMs then left.nextAttemptAtMs < right.nextAttemptAtMs
    else left.createdAtMs < right.createdAtMs
  }

  /** A third priority: two items in order, and one of another low priority that ties with both. */
  predicate Tangled(x: Item, y: Item, z: Item) {
    x.priority == z.priority != "high" && y.priority != "high" && y.priority != x.priority && Earlier(x, z)
  }

  /** The comparator is an order a sort may use exactly if the items have no such triple, as with only `high` and `normal`. */
  lemma ComparatorIsOrderIff(items: seq<Item>)
    ensures StableSort.StrictWeakOrder(Precedes, items) <==>
            forall x, y, z | x in items && y in items && z in items :: !Tangled(x, y, z)
  {
    if StableSort.StrictWeakOrder(Precedes, items) {
      forall x, y, z | x in items && y in items && z in items ensures !Tangled(x, y, z) {
        assert !Precedes(x, y) && !Precedes(y, z) ==> !Precedes(x, z);
      }
    }
    if forall x, y, z | x in items && y in items && z in items :: !Tangled(x, y, z) {
      forall x, y, z | x in items && y in items && z in items && !Precedes(x, y) && !Precedes(y, z)
        ensures !Precedes(x, z)
      {
        assert !Tangled(x, y, z);
      }
    }
  }

  // ---- the plan ----

  predicate IsEligible(item: Item, now: int, policy: Policy) {
    !(item.id == "" || item.attempts >= policy.maxAttempts || item.expiresAtMs <= now || item.nextAttemptAtMs > now)
  }

  function Eligible(items: seq<Item>, now: int, policy: Policy): seq<Item> {
    if items == [] then []
    else
      Eligible(items[..|items| - 1], now, policy)
      + (if IsEligible(items[|items| - 1], now, policy) then [items[|items| - 1]] else [])
  }

  datatype Selected = Selected(id: string, attempts: int, nextAttemptAtMs: int)

  function BatchOf(batchSize: int): (n: nat)
    ensures n >= 1
  {
    if batchSize < 1 then 20 else batchSize
  }

  /** The items a plan picks, in order. */
  function Chosen(now: int, mode: string, batchSize: int, items: seq<Item>): seq<Item> {
    var sorted := StableSort.Sort(Precedes, Eligible(items, now, PolicyFor(mode)));
    if |sorted| > BatchOf(batchSize) then sorted[..BatchOf(batchSize)] else sorted
  }

  function Select(item: Item, now: int, policy: Policy, unit: (string, int) -> real): Selected
  {
    Selected(item.id, item.attempts + 1, NextAttempt(now, item, policy, unit(item.id, item.attempts)))
  }

  function Plan(now: int, mode: string, batchSize: int, items: seq<Item>, unit: (string, int) -> real): (plan: seq<Selected>)
    ensures |plan| == |Chosen(now, mode, batchSize, items)|
  {
    var chosen := Chosen(now, mode, batchSize, items);
    seq(|chosen|, i requires 0 <= i < |chosen| => Select(chosen[i], now, PolicyFor(mode), unit))
  }

  method PlanSchedule(now: int, mode: string, batchSize: int, items: seq<Item>, unit: (string, int) -> real)
    returns (selected: seq<Selected>)
    ensures selected == Plan(now, mode, batchSize, items, unit)
  {
    var policy := PolicyFor(mode);
    var size := batchSize;
    if size < 1 {
      size := 20;
    }
    var eligible := [];
    for i := 0 to |items|
      invariant eligible == Eligible(items[..i], now, policy)
    {
      var item := items[i];
      assert items[..i + 1][..i] == items[..i];
      if item.id == "" || item.attempts >= policy.maxAttempts || item.expiresAtMs <= now || item.nextAttemptAtMs > now {
        continue;
      }
      eligible := eligible + [item];
    }
    assert items[..|items|] == items;
    eligible := StableSort.Sort(Precedes, eligible);
    if |eligible| > size {
      eligible := eligible[..size];
    }
    selected := [];
    for i := 0 to |eligible|
      invariant |selected| == i
      invariant forall k | 0 <= k < i :: selected[k] == Select(eligible[k], now, policy, unit)
    {
      var item := eligible[i];
      selected := selected + [Selected(item.id, item.attempts + 1, NextAttempt(now, item, policy, unit(item.id, item.attempts)))];
    }
  }

  lemma {:induction false} EligibleMembers(items: seq<Item>, now: int, policy: Policy)
    ensures forall item :: item in Eligible(items, now, policy) <==> item in items && IsEligible(item, now, policy)
  {
    if items != [] {
      EligibleMembers(items[..|items| - 1], now, policy);
      assert items == items[..|items| - 1] + [items[|items| - 1]];
    }
  }

  /**
   The plan is optimal: with only high and normal priorities it takes the first
   batch of the stably sorted eligible items. It picks as many as there are, up
   to the batch; only eligible ones; and leaves out none that should go before
   one it picked.
   */
  lemma PlanIsOptimal(now: int, mode: string, batchSize: int, items: seq<Item>) returns (sorted: seq<Item>)
    requires forall item | item in items :: item.priority == "high" || item.priority == "normal"
    ensures var eligible := Eligible(items, now, PolicyFor(mode));
            && (forall item :: item in eligible <==> item in items && IsEligible(item, now, PolicyFor(mode)))
            && StableSort.IsStableSort(Precedes, eligible, sorted)
    ensures var chosen := Chosen(now, mode, batchSize, items);
            && chosen <= sorted
            && |chosen| == (if |sorted| < BatchOf(batchSize) then |sorted| else BatchOf(batchSize))
            && forall i, j | 0 <= i < |chosen| <= j < |sorted| :: !Precedes(sorted[j], chosen[i])
  {
    var eligible := Eligible(items, now, PolicyFor(mode));
    EligibleMembers(items, now, PolicyFor(mode));
    ComparatorIsOrderIff(eligible);
    StableSort.SortIsStable(Precedes, eligible, eligible);
    sorted := StableSort.Sort(Precedes, eligible);
  }

  // ---- what the delivery loop relies on ----

  ghost predicate DistinctIds(items: seq<Item>) {
    forall i, j | 0 <= i < j < |items| :: items[i].id != items[j].id
  }

  lemma {:induction false} EligibleDistinct(items: seq<Item>, now: int, policy: Policy)
    requires DistinctIds(items)
    ensures DistinctIds(Eligible(items, now, policy))
  {
    if items != [] {
      var front := items[..|items| - 1];
      EligibleDistinct(front, now, policy);
      EligibleMembers(front, now, policy);
      var e := Eligible(front, now, policy);
      forall i | 0 <= i < |e| ensures e[i].id != items[|items| - 1].id {
        assert e[i] in front;
      }
    }
  }

  lemma {:induction false} InsertDistinct(x: Item, s: seq<Item>)
    requires DistinctIds(s) && forall y | y in s :: y.id != x.id
    ensures DistinctIds(StableSort.Insert(Precedes, x, s))
  {
    if s != [] && Precedes(s[0], x) {
      InsertDistinct(x, s[1..]);
      StableSort.InsertKeepsElements(Precedes, x, s[1..]);
      var t := StableSort.Insert(Precedes, x, s[1..]);
      assert s[0] in s;
      forall i | 0 <= i < |t| ensures t[i].id != s[0].id {
        assert t[i] in multiset(t);
      }
    } else {
      forall i | 0 <= i < |s| ensures s[i].id != x.id { assert s[i] in s; }
    }
  }

  lemma {:induction false} SortDistinct(s: seq<Item>)
    requires DistinctIds(s)
    ensures DistinctIds(StableSort.Sort(Precedes, s))
  {
    if s != [] {
      SortDistinct(s[1..]);
      StableSort.SortKeepsElements(Precedes, s[1..]);
      InsertDistinct(s[0], StableSort.Sort(Precedes, s[1..]));
    }
  }

  /** A plan over distinct items picks distinct, eligible ones of them. */
  lemma ChosenFrom(now: int, mode: string, batchSize: int, items: seq<Item>)
    requires DistinctIds(items)
    ensures var chosen := Chosen(now, mode, batchSize, items);
            && DistinctIds(chosen)
            && forall i | 0 <= i < |chosen| :: chosen[i] in items && IsEligible(chosen[i], now, PolicyFor(mode))
  {
    var eligible := Eligible(items, now, PolicyFor(mode));
    EligibleDistinct(items, now, PolicyFor(mode));
    EligibleMembers(items, now, PolicyFor(mode));
    SortDistinct(eligible);
    StableSort.SortKeepsElements(Precedes, eligible);
    var chosen := Chosen(now, mode, batchSize, items);
    forall i | 0 <= i < |chosen| ensures chosen[i] in eligible {
      assert StableSort.Sort(Precedes, eligible)[i] in StableSort.Sort(Precedes, eligible);
    }
  }
}
