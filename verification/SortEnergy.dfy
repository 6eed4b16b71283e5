/** The counting sort that orders energy blobs for drawing, with its 8-bit counters. */
module SortEnergy {

  const BUCKETS := 256

  /** The bucket of an energy: 0 for 15 kW and more, 255 for nothing. */
  function Bucket(energy: real): (b: nat)
    requires 0.0 <= energy
    ensures b < BUCKETS
  {
    var scaled := energy / 15000.0 * 255.0;
    255 - (if scaled < 255.0 then scaled else 255.0).Floor
  }

  /** The buckets cut the range up to 15 kW into 255 equal parts, from the top; what is above shares the first. */
  lemma BucketExact(e: real)
    requires 0.0 <= e
    ensures e >= 15000.0 ==> Bucket(e) == 0
    ensures e < 15000.0 ==> (255 - Bucket(e)) as real * 15000.0 <= e * 255.0 < (256 - Bucket(e)) as real * 15000.0
  {
    assert e / 15000.0 * 255.0 * 15000.0 == e * 255.0;
  }

  lemma BucketAntitone(a: real, b: real)
    requires 0.0 <= a <= b
    ensures Bucket(b) <= Bucket(a)
  {
  }

  /** How many of the keys equal `b`, and how many are smaller. */
  function Count(keys: seq<nat>, b: nat): (n: nat)
    ensures n <= |keys|
  {
    if keys == [] then 0 else Count(keys[..|keys| - 1], b) + if keys[|keys| - 1] == b then 1 else 0
  }

  function Below(keys: seq<nat>, b: nat): (n: nat)
    ensures n <= |keys|
  {
    if keys == [] then 0 else Below(keys[..|keys| - 1], b) + if keys[|keys| - 1] < b then 1 else 0
  }

  /** The place of item `i` in the stable order: behind all smaller keys and all earlier equal ones. */
  function Rank(keys: seq<nat>, i: nat): nat
    requires i < |keys|
  {
    Below(keys, keys[i]) + Count(keys[..i], keys[i])
  }

  lemma {:induction false} BelowStep(keys: seq<nat>, b: nat)
    ensures Below(keys, b + 1) == Below(keys, b) + Count(keys, b)
  {
    if keys != [] {
      BelowStep(keys[..|keys| - 1], b);
    }
  }

  lemma {:induction false} BelowMonotone(keys: seq<nat>, a: nat, b: nat)
    requires a <= b
    ensures Below(keys, a) <= Below(keys, b)
  {
    if keys != [] {
      BelowMonotone(keys[..|keys| - 1], a, b);
    }
  }

  lemma {:induction false} CountMonotone(keys: seq<nat>, b: nat, i: nat, j: nat)
    requires i <= j <= |keys|
    ensures Count(keys[..i], b) <= Count(keys[..j], b)
  {
    if i < j {
      assert keys[..j][..j - 1] == keys[..j - 1];
      CountMonotone(keys, b, i, j - 1);
    }
  }

  lemma CountNext(keys: seq<nat>, i: nat)
    requires i < |keys|
    ensures forall b: nat :: Count(keys[..i + 1], b) == Count(keys[..i], b) + if b == keys[i] then 1 else 0
  {
    assert keys[..i + 1][..i] == keys[..i];
  }

  predicate Before(keys: seq<nat>, i: nat, j: nat)
    requires i < |keys| && j < |keys|
  {
    keys[i] < keys[j] || (keys[i] == keys[j] && i < j)
  }

  /** Ranks follow the order of keys, ties by position. */
  lemma RankOrder(keys: seq<nat>, i: nat, j: nat)
    requires i < |keys| && j < |keys| && Before(keys, i, j)
    ensures Rank(keys, i) < Rank(keys, j)
  {
    CountNext(keys, i);
    if keys[i] < keys[j] {
      CountMonotone(keys, keys[i], i + 1, |keys|);
      assert keys[..|keys|] == keys;
      BelowStep(keys, keys[i]);
      BelowMonotone(keys, keys[i] + 1, keys[j]);
    } else {
      CountMonotone(keys, keys[i], i + 1, j);
    }
  }

  lemma RankInRange(keys: seq<nat>, i: nat)
    requires i < |keys|
    ensures Rank(keys, i) < |keys|
  {
    CountNext(keys, i);
    CountMonotone(keys, keys[i], i + 1, |keys|);
    assert keys[..|keys|] == keys;
    BelowStep(keys, keys[i]);
  }

  lemma RankUnused(keys: seq<nat>, i: nat)
    requires i < |keys|
    ensures forall j :: 0 <= j < i ==> Rank(keys, j) != Rank(keys, i)
  {
    forall j | 0 <= j < i ensures Rank(keys, j) != Rank(keys, i) {
      if Before(keys, j, i) {
        RankOrder(keys, j, i);
      } else {
        RankOrder(keys, i, j);
      }
    }
  }

  /** Every place is taken by some item. */
  lemma OwnerOf(keys: seq<nat>, p: nat) returns (i: nat)
    requires p < |keys| && forall k :: 0 <= k < |keys| ==> keys[k] < BUCKETS
    ensures i < |keys| && Rank(keys, i) == p
  {
    AllBelow(keys);
    var b := OwnerBucket(keys, p, BUCKETS);
    BelowStep(keys, b);
    assert keys[..|keys|] == keys;
    i := OwnerWithin(keys, b, p - Below(keys, b), |keys|);
  }

  lemma {:induction false} AllBelow(keys: seq<nat>)
    requires forall k :: 0 <= k < |keys| ==> keys[k] < BUCKETS
    ensures Below(keys, BUCKETS) == |keys| && Below(keys, 0) == 0
  {
    if keys != [] {
      AllBelow(keys[..|keys| - 1]);
    }
  }

  lemma {:induction false} OwnerBucket(keys: seq<nat>, p: nat, top: nat) returns (b: nat)
    requires Below(keys, 0) <= p < Below(keys, top)
    ensures Below(keys, b) <= p < Below(keys, b + 1)
  {
    b := top - 1;
    if p < Below(keys, b) {
      b := OwnerBucket(keys, p, b);
    }
  }

  lemma {:induction false} OwnerWithin(keys: seq<nat>, b: nat, m: nat, n: nat) returns (i: nat)
    requires n <= |keys| && m < Count(keys[..n], b)
    ensures i < n && keys[i] == b && Count(keys[..i], b) == m
  {
    i := n - 1;
    assert keys[..n][..n - 1] == keys[..n - 1];
    if m < Count(keys[..n - 1], b) {
      i := OwnerWithin(keys, b, m, n - 1);
    }
  }

  ghost function Keys(energies: seq<real>): (keys: seq<nat>)
    requires forall i :: 0 <= i < |energies| ==> 0.0 <= energies[i]
    ensures |keys| == |energies| && forall i :: 0 <= i < |keys| ==> keys[i] == Bucket(energies[i])
  {
    seq(|energies|, i requires 0 <= i < |energies| => Bucket(energies[i]))
  }

  /** `order` lists every index once, in the stable order of the buckets. */
  ghost predicate IsStableOrder(order: seq<nat>, energies: seq<real>)
    requires forall i :: 0 <= i < |energies| ==> 0.0 <= energies[i]
  {
    && |order| == |energies|
    && (forall p :: 0 <= p < |order| ==> order[p] < |energies|)
    && (forall i: nat :: i < |energies| ==> i in order)
    && (forall p, q :: 0 <= p < q < |order| ==> Before(Keys(energies), order[p], order[q]))
  }

  /** Placing every item at its rank gives the stable order. */
  lemma RanksSort(order: seq<nat>, energies: seq<real>)
    requires forall i :: 0 <= i < |energies| ==> 0.0 <= energies[i]
    requires |order| == |energies|
    requires forall i :: 0 <= i < |energies| ==>
               Rank(Keys(energies), i) < |order| && order[Rank(Keys(energies), i)] == i
    ensures IsStableOrder(order, energies)
  {
    var keys := Keys(energies);
    forall p | 0 <= p < |order| ensures order[p] < |energies| && Rank(keys, order[p]) == p {
      var i := OwnerOf(keys, p);
    }
    forall i: nat | i < |energies| ensures i in order {
      assert order[Rank(keys, i)] == i;
    }
    forall p, q | 0 <= p < q < |order| ensures Before(keys, order[p], order[q]) {
      if Before(keys, order[q], order[p]) {
        RankOrder(keys, order[q], order[p]);
      }
    }
  }

  /** The stable order puts larger energies first: a strictly smaller bucket number never comes later. */
  lemma LargerFirst(order: seq<nat>, energies: seq<real>, p: nat, q: nat)
    requires forall i :: 0 <= i < |energies| ==> 0.0 <= energies[i]
    requires IsStableOrder(order, energies) && p < q < |order|
    ensures Bucket(energies[order[p]]) <= Bucket(energies[order[q]])
    ensures energies[order[p]] < energies[order[q]] ==> Bucket(energies[order[p]]) == Bucket(energies[order[q]])
  {
    assert Before(Keys(energies), order[p], order[q]);
    if energies[order[p]] < energies[order[q]] {
      BucketAntitone(energies[order[p]], energies[order[q]]);
    }
  }

  /** Among energies below 15 kW one that stands in front is smaller by less than the 255th part of that. */
  ghost predicate Descending(order: seq<nat>, energies: seq<real>)
    requires forall p :: 0 <= p < |order| ==> order[p] < |energies|
  {
    forall p, q :: 0 <= p < q < |order| && energies[order[p]] < 15000.0 ==>
                     energies[order[q]] < energies[order[p]] + 15000.0 / 255.0
  }

  lemma StableOrderDescends(order: seq<nat>, energies: seq<real>)
    requires forall i :: 0 <= i < |energies| ==> 0.0 <= energies[i]
    requires IsStableOrder(order, energies)
    ensures Descending(order, energies)
  {
    forall p, q | 0 <= p < q < |order| && energies[order[p]] < 15000.0
      ensures energies[order[q]] < energies[order[p]] + 15000.0 / 255.0
    {
      LargerFirst(order, energies, p, q);
      BucketExact(energies[order[p]]);
      BucketExact(energies[order[q]]);
    }
  }

  function Byte(x: nat): nat { x % 256 }

  lemma {:induction false} AllOfOne(keys: seq<nat>, b: nat)
    requires forall i :: 0 <= i < |keys| ==> keys[i] == b
    ensures Count(keys, b) == |keys|
  {
    if keys != [] {
      AllOfOne(keys[..|keys| - 1], b);
    }
  }

  /** The counter of a bucket that takes all of 256 items reads zero, as if there were none. */
  lemma FullBucketWraps(keys: seq<nat>, b: nat)
    requires |keys| == 256 && forall i :: 0 <= i < |keys| ==> keys[i] == b
    ensures Byte(Count(keys, b)) == 0 == Byte(0)
  {
    AllOfOne(keys, b);
  }

  lemma ByteAdd(x: nat, y: nat)
    ensures Byte(Byte(x) + y) == Byte(x + y)
  {
  }

  /** The sort itself. Counts and offsets are single bytes and may wrap; up to 256 items that does no harm. */
  method Sort(energies: seq<real>) returns (sorted: array<nat>)
    requires |energies| <= 256 && forall i :: 0 <= i < |energies| ==> 0.0 <= energies[i]
    ensures fresh(sorted) && IsStableOrder(sorted[..], energies) && Descending(sorted[..], energies)
  {
    ghost var keys := Keys(energies);
    var histogram := CountBytes(energies);
    ScanBytes(histogram, keys);
    sorted := new nat[|energies|](_ => 0);
    for i := 0 to |energies|
      invariant Offsets(histogram[..], keys, i) && Placed(sorted[..], keys, i)
    {
      var b := Bucket(energies[i]);
      ScatterStep(histogram[..], sorted[..], keys, i);
      sorted[histogram[b]] := i;
      histogram[b] := Byte(histogram[b] + 1);
    }
    RanksSort(sorted[..], energies);
    StableOrderDescends(sorted[..], energies);
  }

  /** The larger of two energies comes to the front. */
  lemma TwoEnergies()
    ensures Bucket(100.0) == 254 && Bucket(14000.0) == 17
    ensures IsStableOrder([1, 0], [100.0, 14000.0])
  {
    assert 100.0 / 15000.0 * 255.0 == 1.7 && 14000.0 / 15000.0 * 255.0 == 238.0;
    var order, energies: seq<real> := [1, 0], [100.0, 14000.0];
    assert Keys(energies) == [254, 17];
    assert order[0] == 1 && order[1] == 0;
  }

  /** The next place in every bucket after `i` items, as a byte. */
  ghost predicate Offsets(h: seq<nat>, keys: seq<nat>, i: nat)
    requires i <= |keys|
  {
    |h| == BUCKETS && forall b :: 0 <= b < BUCKETS ==> h[b] == Byte(Below(keys, b) + Count(keys[..i], b))
  }

  ghost predicate Placed(s: seq<nat>, keys: seq<nat>, i: nat)
    requires i <= |keys|
  {
    |s| == |keys| && forall j :: 0 <= j < i ==> Rank(keys, j) < |s| && s[Rank(keys, j)] == j
  }

  lemma ScatterStep(h: seq<nat>, s: seq<nat>, keys: seq<nat>, i: nat)
    requires i < |keys| <= 256 && keys[i] < BUCKETS && Offsets(h, keys, i) && Placed(s, keys, i)
    ensures h[keys[i]] == Rank(keys, i) < |s|
    ensures Offsets(h[keys[i] := Byte(h[keys[i]] + 1)], keys, i + 1) && Placed(s[h[keys[i]] := i], keys, i + 1)
  {
    RankInRange(keys, i);
    RankUnused(keys, i);
    CountNext(keys, i);
    ByteAdd(Rank(keys, i), 1);
  }

  method CountBytes(energies: seq<real>) returns (histogram: array<nat>)
    requires forall i :: 0 <= i < |energies| ==> 0.0 <= energies[i]
    ensures fresh(histogram) && histogram.Length == BUCKETS
    ensures forall b :: 0 <= b < BUCKETS ==> histogram[b] == Byte(Count(Keys(energies), b))
  {
    ghost var keys := Keys(energies);
    histogram := new nat[BUCKETS](_ => 0);
    for i := 0 to |energies|
      invariant fresh(histogram) && histogram.Length == BUCKETS
      invariant forall b :: 0 <= b < BUCKETS ==> histogram[b] == Byte(Count(keys[..i], b))
    {
      var b := Bucket(energies[i]);
      CountNext(keys, i);
      ByteAdd(Count(keys[..i], b), 1);
      histogram[b] := Byte(histogram[b] + 1);
    }
    assert keys[..|energies|] == keys;
  }

  /** Replaces counts by offsets. The running sum adds wrapped counts, so it is right modulo 256 only. */
  method ScanBytes(histogram: array<nat>, ghost keys: seq<nat>)
    requires histogram.Length == BUCKETS
    requires forall b :: 0 <= b < BUCKETS ==> histogram[b] == Byte(Count(keys, b))
    modifies histogram
    ensures Offsets(histogram[..], keys, 0)
  {
    var cur: nat := 0;
    NothingBelowZero(keys);
    for b := 0 to BUCKETS
      invariant Byte(cur) == Byte(Below(keys, b))
      invariant forall c :: 0 <= c < b ==> histogram[c] == Byte(Below(keys, c))
      invariant forall c :: b <= c < BUCKETS ==> histogram[c] == Byte(Count(keys, c))
    {
      var pre := cur;
      cur := cur + histogram[b];
      histogram[b] := Byte(pre);
      BelowStep(keys, b);
      ByteSum(pre, Below(keys, b), Count(keys, b));
    }
  }

  lemma {:induction false} NothingBelowZero(keys: seq<nat>)
    ensures Below(keys, 0) == 0
  {
    if keys != [] {
      NothingBelowZero(keys[..|keys| - 1]);
    }
  }

  lemma ByteSum(pre: nat, below: nat, count: nat)
    requires Byte(pre) == Byte(below)
    ensures Byte(pre + Byte(count)) == Byte(below + count)
  {
    ByteAdd(pre, Byte(count));
    ByteAdd(below, Byte(count));
    ByteAdd(count, below);
  }
}
