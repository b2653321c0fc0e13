/** The received-chunk bitmap: one bit a chunk, eight to a byte, lowest bit first. */
module Bitmap {

  function Mask(index: nat): (mask: bv8) {
    (1 as bv8) << (index % 8)
  }

  predicate BitSet(bitmap: seq<bv8>, index: nat)
    requires index / 8 < |bitmap|
  {
    bitmap[index / 8] & Mask(index) != 0
  }

  function WithBit(bitmap: seq<bv8>, index: nat): (result: seq<bv8>)
    requires index / 8 < |bitmap|
    ensures |result| == |bitmap|
  {
    bitmap[index / 8 := bitmap[index / 8] | Mask(index)]
  }

  /** A bitmap long enough for `total` chunks. */
  predicate Fits(bitmap: seq<bv8>, total: nat) {
    |bitmap| >= (total + 7) / 8
  }

  ghost function Bits(bitmap: seq<bv8>, total: nat): set<nat>
    requires Fits(bitmap, total)
  {
    set i: nat | i < total && BitSet(bitmap, i)
  }

  lemma MaskByRemainder(i: nat)
    ensures i % 8 == 0 ==> Mask(i) == 1
    ensures i % 8 == 1 ==> Mask(i) == 2
    ensures i % 8 == 2 ==> Mask(i) == 4
    ensures i % 8 == 3 ==> Mask(i) == 8
    ensures i % 8 == 4 ==> Mask(i) == 16
    ensures i % 8 == 5 ==> Mask(i) == 32
    ensures i % 8 == 6 ==> Mask(i) == 64
    ensures i % 8 == 7 ==> Mask(i) == 128
  {}

  lemma MasksAreDisjoint(b: bv8, i: nat, j: nat)
    ensures (b | Mask(i)) & Mask(j) != 0 <==> i % 8 == j % 8 || b & Mask(j) != 0
  {
    MaskByRemainder(i);
    MaskByRemainder(j);
  }

  /** Setting a bit sets that bit and leaves every other one alone. */
  lemma WithBitSetsOneBit(bitmap: seq<bv8>, index: nat, j: nat)
    requires index / 8 < |bitmap| && j / 8 < |bitmap|
    ensures BitSet(WithBit(bitmap, index), j) <==> j == index || BitSet(bitmap, j)
  {
    MasksAreDisjoint(bitmap[index / 8], index, j);
    assert index == index / 8 * 8 + index % 8 && j == j / 8 * 8 + j % 8;
  }

  function Blank(total: nat): (bitmap: seq<bv8>)
    ensures Fits(bitmap, total)
    ensures Bits(bitmap, total) == {}
  {
    seq((total + 7) / 8, i => 0)
  }

  method SetBit(bitmap: array<bv8>, index: nat)
    requires index / 8 < bitmap.Length
    modifies bitmap
    ensures bitmap[..] == WithBit(old(bitmap[..]), index)
  {
    bitmap[index / 8] := bitmap[index / 8] | Mask(index);
  }

  // ---- counting ----

  function Count(bitmap: seq<bv8>, upTo: nat): nat
    requires upTo <= 8 * |bitmap|
  {
    if upTo == 0 then 0
    else Count(bitmap, upTo - 1) + if BitSet(bitmap, upTo - 1) then 1 else 0
  }

  lemma {:induction false} CountIsCardinality(bitmap: seq<bv8>, upTo: nat)
    requires upTo <= 8 * |bitmap|
    ensures Count(bitmap, upTo) == |set i: nat | i < upTo && BitSet(bitmap, i)|
  {
    if upTo > 0 {
      CountIsCardinality(bitmap, upTo - 1);
      OneMoreBit(bitmap, upTo - 1);
    }
  }

  lemma OneMoreBit(bitmap: seq<bv8>, n: nat)
    requires n < 8 * |bitmap|
    ensures var below := set i: nat | i < n && BitSet(bitmap, i);
            var all := set i: nat | i < n + 1 && BitSet(bitmap, i);
            all == (if BitSet(bitmap, n) then below + {n} else below) && n !in below
  {}

  // ---- the range report ----

  type Range = (nat, nat)

  ghost predicate Covered(ranges: seq<Range>, i: nat) {
    exists k :: 0 <= k < |ranges| && ranges[k].0 <= i <= ranges[k].1
  }

  /** Each range is non-empty, and a gap of at least one lies between neighbours. */
  ghost predicate Separated(ranges: seq<Range>) {
    && (forall k | 0 <= k < |ranges| :: ranges[k].0 <= ranges[k].1)
    && (forall j, k | 0 <= j < k < |ranges| :: ranges[j].1 + 1 < ranges[k].0)
  }

  /** `ranges` is the report of the set bits below `upTo`. */
  ghost predicate Reports(ranges: seq<Range>, bitmap: seq<bv8>, upTo: nat)
    requires upTo <= 8 * |bitmap|
  {
    && Separated(ranges)
    && (forall k | 0 <= k < |ranges| :: ranges[k].1 < upTo)
    && forall i: nat | i < upTo :: BitSet(bitmap, i) <==> Covered(ranges, i)
  }

  method BitmapRanges(bitmap: seq<bv8>, total: nat) returns (ranges: seq<Range>)
    requires total <= 8 * |bitmap|
    ensures Reports(ranges, bitmap, total)
  {
    ranges := [];
    var i := 0;
    while i < total
      invariant 0 <= i <= total
      invariant Reports(ranges, bitmap, i)
      invariant 0 < i < total && BitSet(bitmap, i - 1) ==> !BitSet(bitmap, i)
    {
      if !BitSet(bitmap, i) {
        i := i + 1;
        continue;
      }
      var start := i;
      while i + 1 < total && BitSet(bitmap, i + 1)
        invariant start <= i < total
        invariant forall j: nat | start <= j <= i :: BitSet(bitmap, j)
      {
        i := i + 1;
      }
      ReportOneMore(ranges, bitmap, start, i);
      ranges := ranges + [(start, i)];
      i := i + 1;
    }
  }

  lemma ReportOneMore(ranges: seq<Range>, bitmap: seq<bv8>, start: nat, last: nat)
    requires start <= last < 8 * |bitmap|
    requires Reports(ranges, bitmap, start)
    requires start > 0 ==> !BitSet(bitmap, start - 1)
    requires forall j: nat | start <= j <= last :: BitSet(bitmap, j)
    ensures Reports(ranges + [(start, last)], bitmap, last + 1)
  {
    var more := ranges + [(start, last)];
    forall k | 0 <= k < |ranges| ensures ranges[k].1 + 1 < start {
      assert ranges[k].0 <= ranges[k].1 <= ranges[k].1;
      assert Covered(ranges, ranges[k].1);
    }
    forall i: nat | i <= last ensures BitSet(bitmap, i) <==> Covered(more, i) {
      if i >= start {
        assert more[|ranges|].0 <= i <= more[|ranges|].1;
      } else if Covered(ranges, i) {
        var k :| 0 <= k < |ranges| && ranges[k].0 <= i <= ranges[k].1;
        assert more[k].0 <= i <= more[k].1;
      }
    }
  }

  /** The report is canonical: a bitmap has one report only. */
  lemma {:induction false} ReportIsUnique(a: seq<Range>, b: seq<Range>, bitmap: seq<bv8>, upTo: nat)
    requires upTo <= 8 * |bitmap|
    requires Reports(a, bitmap, upTo) && Reports(b, bitmap, upTo)
    ensures a == b
  {
    forall i: nat ensures Covered(a, i) <==> Covered(b, i) {}
    SameCoverSameRanges(a, b);
  }

  lemma {:induction false} SameCoverSameRanges(a: seq<Range>, b: seq<Range>)
    requires Separated(a) && Separated(b)
    requires forall i: nat :: Covered(a, i) <==> Covered(b, i)
    ensures a == b
  {
    if a == [] {
      if b != [] { assert Covered(b, b[0].0); }
    } else if b == [] {
      assert Covered(a, a[0].0);
    } else {
      FirstRangeEndsNoEarlier(a, b);
      FirstRangeEndsNoEarlier(b, a);
      forall i: nat ensures Covered(a[1..], i) <==> Covered(b[1..], i) {
        CoverOfRest(a, i);
        CoverOfRest(b, i);
      }
      SameCoverSameRanges(a[1..], b[1..]);
      assert a == [a[0]] + a[1..] && b == [b[0]] + b[1..];
    }
  }

  lemma CoverOfRest(a: seq<Range>, i: nat)
    requires a != [] && Separated(a)
    ensures Covered(a[1..], i) <==> Covered(a, i) && i > a[0].1
  {
    if Covered(a[1..], i) {
      var k :| 0 <= k < |a[1..]| && a[1..][k].0 <= i <= a[1..][k].1;
      assert a[k + 1].0 <= i <= a[k + 1].1;
    }
    if Covered(a, i) && i > a[0].1 {
      var k :| 0 <= k < |a| && a[k].0 <= i <= a[k].1;
      assert a[1..][k - 1] == a[k];
    }
  }

  lemma FirstRangeEndsNoEarlier(a: seq<Range>, b: seq<Range>)
    requires a != [] && b != [] && Separated(a) && Separated(b)
    requires forall i: nat :: Covered(a, i) <==> Covered(b, i)
    ensures a[0].0 <= b[0].0
    ensures a[0].0 == b[0].0 ==> a[0].1 >= b[0].1
  {
    assert Covered(b, b[0].0);
    var k :| 0 <= k < |a| && a[k].0 <= b[0].0 <= a[k].1;
    assert k > 0 ==> a[0].1 + 1 < a[k].0;
    var next := a[0].1 + 1;
    assert !Covered(a, next);
    assert b[0].0 <= next <= b[0].1 ==> Covered(b, next);
  }

  function TotalLength(ranges: seq<Range>): int {
    if ranges == [] then 0
    else TotalLength(ranges[..|ranges| - 1]) + Last(ranges).1 - Last(ranges).0 + 1
  }

  function Last(ranges: seq<Range>): Range
    requires ranges != []
  {
    ranges[|ranges| - 1]
  }

  /** The ranges account for every received chunk exactly once. */
  lemma {:induction false} RangesAddUp(ranges: seq<Range>, bitmap: seq<bv8>, upTo: nat)
    requires upTo <= 8 * |bitmap|
    requires Reports(ranges, bitmap, upTo)
    ensures TotalLength(ranges) == Count(bitmap, upTo)
    decreases upTo, |ranges|
  {
    if upTo > 0 {
      if !BitSet(bitmap, upTo - 1) {
        forall k | 0 <= k < |ranges| ensures ranges[k].1 < upTo - 1 {
          if ranges[k].1 == upTo - 1 { assert Covered(ranges, upTo - 1); }
        }
        RangesAddUp(ranges, bitmap, upTo - 1);
      } else {
        var front := ranges[..|ranges| - 1];
        var start := Last(ranges).0;
        LastRangeIsLastRun(ranges, bitmap, upTo);
        RangesAddUp(front, bitmap, start);
        CountOfRun(bitmap, start, upTo);
      }
    }
  }

  lemma LastRangeIsLastRun(ranges: seq<Range>, bitmap: seq<bv8>, upTo: nat)
    requires 0 < upTo <= 8 * |bitmap|
    requires Reports(ranges, bitmap, upTo) && BitSet(bitmap, upTo - 1)
    ensures ranges != [] && Last(ranges).0 <= Last(ranges).1 == upTo - 1
    ensures Reports(ranges[..|ranges| - 1], bitmap, Last(ranges).0)
    ensures forall i: nat | Last(ranges).0 <= i < upTo :: BitSet(bitmap, i)
  {
    assert Covered(ranges, upTo - 1);
    var k :| 0 <= k < |ranges| && ranges[k].0 <= upTo - 1 <= ranges[k].1;
    var front := ranges[..|ranges| - 1];
    assert ranges[|ranges| - 1].0 <= ranges[|ranges| - 1].1 < upTo;
    assert k == |ranges| - 1;
    forall i: nat | Last(ranges).0 <= i < upTo ensures BitSet(bitmap, i) {
      assert ranges[|ranges| - 1].0 <= i <= ranges[|ranges| - 1].1;
      assert Covered(ranges, i);
    }
    forall i: nat | i < Last(ranges).0 ensures Covered(front, i) <==> Covered(ranges, i) {
      if Covered(ranges, i) {
        var j :| 0 <= j < |ranges| && ranges[j].0 <= i <= ranges[j].1;
        assert front[j] == ranges[j];
      }
      if Covered(front, i) {
        var j :| 0 <= j < |front| && front[j].0 <= i <= front[j].1;
        assert front[j] == ranges[j];
      }
    }
  }

  lemma {:induction false} CountOfRun(bitmap: seq<bv8>, start: nat, upTo: nat)
    requires start <= upTo <= 8 * |bitmap|
    requires forall i: nat | start <= i < upTo :: BitSet(bitmap, i)
    ensures Count(bitmap, upTo) == Count(bitmap, start) + upTo - start
  {
    if start < upTo {
      CountOfRun(bitmap, start, upTo - 1);
    }
  }

  lemma {:induction false} CountBound(bitmap: seq<bv8>, upTo: nat)
    requires upTo <= 8 * |bitmap|
    ensures Count(bitmap, upTo) <= upTo
    ensures Count(bitmap, upTo) == upTo <==> forall i: nat | i < upTo :: BitSet(bitmap, i)
  {
    if upTo > 0 {
      CountBound(bitmap, upTo - 1);
    }
  }

  /** `complete` is reported exactly when the report is the single range of all chunks. */
  lemma CompleteIffOneRange(ranges: seq<Range>, bitmap: seq<bv8>, total: nat)
    requires 0 < total <= 8 * |bitmap|
    requires Reports(ranges, bitmap, total)
    ensures Count(bitmap, total) == total <==> ranges == [(0, total - 1)]
  {
    CountBound(bitmap, total);
    var whole: seq<Range> := [(0, total - 1)];
    if Count(bitmap, total) == total {
      forall i: nat | i < total ensures Covered(whole, i) {
        assert whole[0].0 <= i <= whole[0].1;
      }
      ReportIsUnique(ranges, whole, bitmap, total);
    }
    if ranges == whole {
      RangesAddUp(ranges, bitmap, total);
      assert ranges[..0] == [];
    }
  }
}
