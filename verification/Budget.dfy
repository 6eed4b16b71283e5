/** What one update of the energy manager guarantees about the sum of all requests. */
module Budget {
  import opened Distribution
  import opened Emm

  /** Sum of the requests at the first `k` positions of the list. */
  function Sum(r: seq<real>, idx: seq<nat>, k: nat): real
    requires k <= |idx| && forall a :: 0 <= a < |idx| ==> idx[a] < |r|
  {
    if k == 0 then 0.0 else Sum(r, idx, k - 1) + r[idx[k - 1]]
  }

  function Total(r: seq<real>, idx: seq<nat>): real
    requires forall a :: 0 <= a < |idx| ==> idx[a] < |r|
  {
    Sum(r, idx, |idx|)
  }

  lemma {:induction false} SumSame(r: seq<real>, r': seq<real>, idx: seq<nat>, idx': seq<nat>, k: nat)
    requires k <= |idx| && k <= |idx'|
    requires (forall a :: 0 <= a < |idx| ==> idx[a] < |r|) && (forall a :: 0 <= a < |idx'| ==> idx'[a] < |r'|)
    requires forall a :: 0 <= a < k ==> idx[a] == idx'[a] && r[idx[a]] == r'[idx[a]]
    ensures Sum(r, idx, k) == Sum(r', idx', k)
  {
    if k > 0 {
      SumSame(r, r', idx, idx', k - 1);
    }
  }

  // ---- stage 0 and the classification ----

  lemma {:induction false} ForceChargeExact(plant: Plant, r: seq<real>, k: nat, i: nat)
    requires plant.Valid() && k <= |r| == |plant.powers| && i < |r|
    ensures plant.ForceCharge(r, k)[i]
         == if i < k && plant.KindOf(i) == Forced then -plant.controls[i].powerMaxCha else r[i]
  {
    if k > 0 {
      ForceChargeExact(plant, r, k - 1, i);
    }
  }

  /** Fillable and full inverters together are exactly the ones that share the need. */
  lemma {:induction false} SharedSplits(plant: Plant, r: seq<real>, k: nat)
    requires plant.Valid() && k <= |plant.powers| == |r|
    ensures var shared := plant.Select({Fillable, Full}, k);
            var fill, full := plant.Select({Fillable}, k), plant.Select({Full}, k);
            Total(r, shared) == Total(r, fill) + Total(r, full)
  {
    if k > 0 {
      SharedSplits(plant, r, k - 1);
      Append(plant, r, {Fillable, Full}, k - 1);
      Append(plant, r, {Fillable}, k - 1);
      Append(plant, r, {Full}, k - 1);
    }
  }

  lemma SelectOrder(plant: Plant, kinds: set<Kind>, k: nat)
    requires plant.Valid() && k <= |plant.powers|
    ensures plant.Order(plant.Select(kinds, k))
  {
    plant.SelectExact(kinds, k);
  }

  lemma Append(plant: Plant, r: seq<real>, kinds: set<Kind>, k: nat)
    requires plant.Valid() && k < |plant.powers| == |r|
    ensures Total(r, plant.Select(kinds, k + 1))
         == Total(r, plant.Select(kinds, k)) + if plant.KindOf(k) in kinds then r[k] else 0.0
  {
    SelectOrder(plant, kinds, k);
    SelectOrder(plant, kinds, k + 1);
    SumSame(r, r, plant.Select(kinds, k), plant.Select(kinds, k + 1), |plant.Select(kinds, k)|);
  }

  /** What each inverter could take up. */
  function Imports(plant: Plant): (p: seq<real>)
    requires plant.Valid()
    ensures |p| == |plant.powers|
  {
    seq(|plant.powers|, i requires 0 <= i < |plant.powers| => MaxImpPowAvail(plant.powers[i], plant.controls[i]))
  }

  /** The need is the home's and what the force-charged ones take in. */
  lemma {:induction false} NeedExact(plant: Plant, home: real, k: nat)
    requires plant.Valid() && k <= |plant.powers|
    ensures plant.Need(home, k) == home + Total(Imports(plant), plant.Select({Forced}, k))
  {
    if k > 0 {
      NeedExact(plant, home, k - 1);
      Append(plant, Imports(plant), {Forced}, k - 1);
    }
  }

  /** The power that can be taken up is everybody's, of whatever kind. */
  lemma {:induction false} FillablePowerExact(plant: Plant, k: nat)
    requires plant.Valid() && k <= |plant.powers|
    ensures plant.FillablePower(k) == Total(Imports(plant), plant.Select({Forced, Fillable, Full}, k))
  {
    if k > 0 {
      FillablePowerExact(plant, k - 1);
      Append(plant, Imports(plant), {Forced, Fillable, Full}, k - 1);
    }
  }

  /** Who is not below its minimum charge is full from 98 percent on; it should export nothing up to there, all it can
      from 99 on, and a part that grows evenly in between. */
  lemma RampExact(plant: Plant, i: nat)
    requires plant.Valid() && i < |plant.powers|
    ensures var soc, e, most := plant.powers[i].batSoc, plant.Overpower(i), plant.controls[i].powerMax;
            && (soc < plant.controls[i].minSoc <==> plant.KindOf(i) == Forced)
            && (plant.KindOf(i) == Full ==> 98.0 <= soc) && (plant.KindOf(i) == Fillable ==> soc < 98.0 && e == 0.0)
            && (98.0 <= soc <= 99.0 ==> e == (soc - 98.0) * most) && (99.0 <= soc ==> e == most)
  {
    var t, most := plant.powers[i].batSoc - 98.0, plant.controls[i].powerMax;
    if t <= 0.0 {
      ProductSigns(-t, most);
    } else if t <= 1.0 {
      ProductSigns(t, most);
      ProductSigns(1.0 - t, most);
    } else {
      ProductSigns(t - 1.0, most);
    }
  }

  lemma ProductSigns(t: real, most: real)
    requires 0.0 <= t && 0.0 <= most
    ensures 0.0 <= t * most && -t * most <= 0.0 && (1.0 - t) * most <= most && (1.0 + t) * most == most + t * most
    ensures (1.0 - t) * most == most - t * most
  {
  }

  // ---- stage 1: the shares ----

  function Priorities(plant: Plant): (p: seq<real>)
    requires plant.Valid() && 0.0 < plant.WeightSum(|plant.powers|)
    ensures |p| == |plant.powers|
  {
    seq(|plant.powers|, i requires 0 <= i < |plant.powers| =>
      Priority(plant.controls[i], plant.WeightSum(|plant.powers|)))
  }

  lemma {:induction false} PrioritiesScale(plant: Plant, k: nat)
    requires plant.Valid() && k <= |plant.powers| && 0.0 < plant.WeightSum(|plant.powers|)
    ensures Total(Priorities(plant), plant.Select({Fillable, Full}, k))
         == plant.WeightSum(k) / plant.WeightSum(|plant.powers|)
  {
    SelectOrder(plant, {Fillable, Full}, k);
    if k > 0 {
      PrioritiesScale(plant, k - 1);
      Append(plant, Priorities(plant), {Fillable, Full}, k - 1);
      var one := if plant.KindOf(k - 1) == Forced then 0.0 else 1.0 / plant.controls[k - 1].batPriority as real;
      AddFractions(plant.WeightSum(k - 1), one, plant.WeightSum(|plant.powers|));
      PriorityExact(plant.controls[k - 1], plant.WeightSum(|plant.powers|));
    }
  }

  lemma AddFractions(a: real, b: real, w: real)
    requires w != 0.0
    ensures (a + b) / w == a / w + b / w
  {
  }

  /** The priority shares of one update sum to exactly one. */
  lemma SharesSumToOne(plant: Plant)
    requires plant.Valid() && plant.Shared() != []
    ensures Total(Priorities(plant), plant.Shared()) == 1.0
  {
    PrioritiesScale(plant, |plant.powers|);
  }

  lemma {:induction false} RealExportNotNegative(plant: Plant, idx: seq<nat>, k: nat)
    requires plant.Valid() && plant.Order(idx) && k <= |idx|
    ensures 0.0 <= plant.RealExport(idx, k)
  {
    if k > 0 {
      RealExportNotNegative(plant, idx, k - 1);
    }
  }

  function Exports(plant: Plant): (p: seq<real>)
    requires plant.Valid()
    ensures |p| == |plant.powers|
  {
    seq(|plant.powers|, i requires 0 <= i < |plant.powers| => plant.powers[i].inverterExp)
  }

  lemma {:induction false} RealExportExact(plant: Plant, idx: seq<nat>, k: nat)
    requires plant.Valid() && plant.Order(idx) && k <= |idx|
    ensures plant.RealExport(idx, k) == Sum(Exports(plant), idx, k)
  {
    if k > 0 {
      RealExportExact(plant, idx, k - 1);
    }
  }

  lemma RequestBounds(pi: ControlPowerInfo, weightSum: real, need: real, exported: real)
    requires 0 < pi.batPriority && 0.0 < weightSum && 0.0 <= exported
    ensures Request(pi, weightSum, need - exported) <= pi.powerMax
    ensures Request(pi, weightSum, need - exported) <= need * Priority(pi, weightSum)
  {
    var p := Priority(pi, weightSum);
    assert p * (need - exported) == need * p - p * exported && 0.0 <= p * exported;
  }

  lemma {:induction false} ShareUntouched(plant: Plant, idx: seq<nat>, r: seq<real>, need: real, k: nat, i: nat)
    requires plant.Valid() && plant.Order(idx) && i < |r| == |plant.powers| && k <= |idx|
    requires idx != [] ==> 0.0 < plant.WeightSum(|plant.powers|)
    requires forall a :: 0 <= a < k ==> idx[a] != i
    ensures plant.Share(idx, r, need, k)[i] == r[i]
  {
    if k > 0 {
      ShareUntouched(plant, idx, r, need, k - 1, i);
    }
  }

  lemma {:induction false} ShareWithinMaximum(plant: Plant, idx: seq<nat>, r: seq<real>, need: real, k: nat, a: nat)
    requires plant.Valid() && plant.Order(idx) && |r| == |plant.powers| && a < k <= |idx|
    requires 0.0 < plant.WeightSum(|plant.powers|)
    ensures plant.Share(idx, r, need, k)[idx[a]] <= plant.controls[idx[a]].powerMax
  {
    if a < k - 1 {
      ShareWithinMaximum(plant, idx, r, need, k - 1, a);
    }
  }

  function Scale(need: real, p: seq<real>): (s: seq<real>)
    ensures |s| == |p|
  {
    seq(|p|, i requires 0 <= i < |p| => need * p[i])
  }

  lemma {:induction false} SumScale(need: real, p: seq<real>, idx: seq<nat>, k: nat)
    requires k <= |idx| && forall a :: 0 <= a < |idx| ==> idx[a] < |p|
    ensures Sum(Scale(need, p), idx, k) == need * Sum(p, idx, k)
  {
    if k > 0 {
      SumScale(need, p, idx, k - 1);
      Distribute(need, Sum(p, idx, k - 1), p[idx[k - 1]]);
    }
  }

  lemma ShareAtLast(plant: Plant, idx: seq<nat>, r: seq<real>, need: real, k: nat)
    requires plant.Valid() && plant.Order(idx) && |r| == |plant.powers| && 0 < k <= |idx|
    requires 0.0 < plant.WeightSum(|plant.powers|)
    ensures plant.Share(idx, r, need, k)[idx[k - 1]]
         == Request(plant.controls[idx[k - 1]], plant.WeightSum(|plant.powers|), need - plant.RealExport(idx, k - 1))
  {
  }

  lemma ScaleAt(plant: Plant, need: real, i: nat)
    requires plant.Valid() && i < |plant.powers| && 0.0 < plant.WeightSum(|plant.powers|)
    ensures Scale(need, Priorities(plant))[i] == need * Priority(plant.controls[i], plant.WeightSum(|plant.powers|))
  {
  }

  lemma ShareLast(plant: Plant, idx: seq<nat>, r: seq<real>, need: real, k: nat)
    requires plant.Valid() && plant.Order(idx) && |r| == |plant.powers| && 0 < k <= |idx|
    requires 0.0 < plant.WeightSum(|plant.powers|)
    ensures plant.Share(idx, r, need, k)[idx[k - 1]] <= Scale(need, Priorities(plant))[idx[k - 1]]
  {
    ShareAtLast(plant, idx, r, need, k);
    ScaleAt(plant, need, idx[k - 1]);
    RealExportNotNegative(plant, idx, k - 1);
    RequestBounds(plant.controls[idx[k - 1]], plant.WeightSum(|plant.powers|), need, plant.RealExport(idx, k - 1));
  }

  /** The share of the inverter at position `a` depends on the real exports of those before it only. */
  lemma {:induction false} ShareAt(plant: Plant, idx: seq<nat>, r: seq<real>, need: real, k: nat, a: nat)
    requires plant.Valid() && plant.Order(idx) && |r| == |plant.powers| && a < k <= |idx|
    requires 0.0 < plant.WeightSum(|plant.powers|)
    ensures plant.Share(idx, r, need, k)[idx[a]]
         == Request(plant.controls[idx[a]], plant.WeightSum(|plant.powers|), need - plant.RealExport(idx, a))
  {
    if a < k - 1 {
      ShareAt(plant, idx, r, need, k - 1, a);
    } else {
      ShareAtLast(plant, idx, r, need, k);
    }
  }

  lemma {:induction false} ShareSum(plant: Plant, idx: seq<nat>, r: seq<real>, need: real, k: nat)
    requires plant.Valid() && plant.Order(idx) && |r| == |plant.powers| && k <= |idx|
    requires 0.0 < plant.WeightSum(|plant.powers|)
    ensures Sum(plant.Share(idx, r, need, k), idx, k) <= Sum(Scale(need, Priorities(plant)), idx, k)
  {
    if k > 0 {
      ShareSum(plant, idx, r, need, k - 1);
      ShareLast(plant, idx, r, need, k);
      SumSame(plant.Share(idx, r, need, k), plant.Share(idx, r, need, k - 1), idx, idx, k - 1);
    }
  }

  /** The power that, weighted with its priority, makes up `rest`; or the maximum where that would be more. */
  predicate IsShare(x: real, pi: ControlPowerInfo, weightSum: real, rest: real) {
    var w := pi.batPriority as real * weightSum;
    if rest <= pi.powerMax * w then x * w == rest else x == pi.powerMax
  }

  lemma RequestExact(pi: ControlPowerInfo, weightSum: real, rest: real)
    requires 0 < pi.batPriority && 0.0 < weightSum
    ensures IsShare(Request(pi, weightSum, rest), pi, weightSum, rest)
  {
    var w := pi.batPriority as real * weightSum;
    assert 0.0 < w && Priority(pi, weightSum) * rest == rest / w;
    DivideBound(rest, w, pi.powerMax);
  }

  lemma DivideBound(x: real, w: real, limit: real)
    requires 0.0 < w
    ensures x / w * w == x && (x / w <= limit <==> x <= limit * w)
  {
    assert x / w * w == x;
    if x / w <= limit {
      assert 0.0 <= (limit - x / w) * w;
    } else {
      assert 0.0 < (x / w - limit) * w;
    }
  }

  /** What is still to be shared when the turn comes to position `a`. */
  ghost function RestAt(plant: Plant, home: real, a: nat): real
    requires plant.Valid() && a < |plant.Shared()|
  {
    plant.Need(home, |plant.powers|) - plant.RealExport(plant.Shared(), a)
  }

  lemma ShareIsRequest(plant: Plant, r: seq<real>, home: real, a: nat)
    requires plant.Valid() && |r| == |plant.powers| && a < |plant.Shared()|
    ensures var i := plant.Shared()[a];
            Shares(plant, r, home)[i] == Request(plant.controls[i], plant.WeightSum(|r|), RestAt(plant, home, a))
  {
    ShareAt(plant, plant.Shared(), plant.ForceCharge(r, |r|), plant.Need(home, |r|), |plant.Shared()|, a);
  }

  /** Each of those who share is asked for its share of what its predecessors do not export of the need. */
  lemma ShareExact(plant: Plant, r: seq<real>, home: real, a: nat)
    requires plant.Valid() && |r| == |plant.powers| && a < |plant.Shared()|
    ensures var i := plant.Shared()[a];
            IsShare(Shares(plant, r, home)[i], plant.controls[i], plant.WeightSum(|r|), RestAt(plant, home, a))
  {
    ShareIsRequest(plant, r, home, a);
    RequestExact(plant.controls[plant.Shared()[a]], plant.WeightSum(|r|), RestAt(plant, home, a));
  }

  /** The maximum is not below the share of the need. */
  predicate Uncapped(pi: ControlPowerInfo, weightSum: real, need: real) {
    need <= pi.powerMax * (pi.batPriority as real * weightSum)
  }

  /** Nothing is exported yet, and nobody's share of the need exceeds its maximum. */
  ghost predicate AtRestUncapped(plant: Plant, home: real)
    requires plant.Valid()
  {
    && (forall a :: 0 <= a < |plant.Shared()| ==> plant.powers[plant.Shared()[a]].inverterExp == 0.0)
    && forall i :: 0 <= i < |plant.controls| ==>
         Uncapped(plant.controls[i], plant.WeightSum(|plant.powers|), plant.Need(home, |plant.powers|))
  }

  lemma {:induction false} NothingExported(plant: Plant, idx: seq<nat>, k: nat)
    requires plant.Valid() && plant.Order(idx) && k <= |idx|
    requires forall a :: 0 <= a < |idx| ==> plant.powers[idx[a]].inverterExp == 0.0
    ensures plant.RealExport(idx, k) == 0.0
  {
    if k > 0 {
      NothingExported(plant, idx, k - 1);
    }
  }

  lemma WholeNeed(plant: Plant, r: seq<real>, home: real, a: nat)
    requires plant.Valid() && |r| == |plant.powers| && a < |plant.Shared()| && AtRestUncapped(plant, home)
    ensures var i := plant.Shared()[a];
            Shares(plant, r, home)[i] == Request(plant.controls[i], plant.WeightSum(|r|), plant.Need(home, |r|))
  {
    NothingExported(plant, plant.Shared(), a);
    ShareIsRequest(plant, r, home, a);
  }

  predicate InRatio(x: real, pi: ControlPowerInfo, y: real, pj: ControlPowerInfo) {
    x * pi.batPriority as real == y * pj.batPriority as real
  }

  /** Then any two of them stand in the ratio of their inverse priorities. */
  lemma SharesInRatio(plant: Plant, r: seq<real>, home: real, a: nat, b: nat)
    requires plant.Valid() && |r| == |plant.powers| && AtRestUncapped(plant, home)
    requires a < |plant.Shared()| && b < |plant.Shared()|
    ensures var i, j := plant.Shared()[a], plant.Shared()[b];
            InRatio(Shares(plant, r, home)[i], plant.controls[i], Shares(plant, r, home)[j], plant.controls[j])
  {
    WholeNeed(plant, r, home, a);
    WholeNeed(plant, r, home, b);
    var i, j := plant.Shared()[a], plant.Shared()[b];
    RequestsInRatio(plant.controls[i], plant.controls[j], plant.WeightSum(|r|), plant.Need(home, |r|));
  }

  lemma RequestsInRatio(pi: ControlPowerInfo, pj: ControlPowerInfo, weightSum: real, need: real)
    requires 0 < pi.batPriority && 0 < pj.batPriority && 0.0 < weightSum
    requires Uncapped(pi, weightSum, need) && Uncapped(pj, weightSum, need)
    ensures InRatio(Request(pi, weightSum, need), pi, Request(pj, weightSum, need), pj)
  {
    RequestExact(pi, weightSum, need);
    RequestExact(pj, weightSum, need);
    Cancel(Request(pi, weightSum, need), pi.batPriority as real,
           Request(pj, weightSum, need), pj.batPriority as real, weightSum);
  }

  lemma Cancel(x: real, p: real, y: real, q: real, w: real)
    requires 0.0 < w && x * (p * w) == y * (q * w)
    ensures x * p == y * q
  {
    assert (x * p - y * q) * w == 0.0;
  }

  /** And together they are asked for exactly the need. */
  lemma SharesMeetNeed(plant: Plant, r: seq<real>, home: real)
    requires plant.Valid() && |r| == |plant.powers| && plant.Shared() != [] && AtRestUncapped(plant, home)
    ensures Total(Shares(plant, r, home), plant.Shared()) == plant.Need(home, |r|)
  {
    var shared, need := plant.Shared(), plant.Need(home, |r|);
    forall a | 0 <= a < |shared|
      ensures Shares(plant, r, home)[shared[a]] == Scale(need, Priorities(plant))[shared[a]]
    {
      ShareIsScaled(plant, r, home, a);
    }
    SumSame(Shares(plant, r, home), Scale(need, Priorities(plant)), shared, shared, |shared|);
    SumScale(need, Priorities(plant), shared, |shared|);
    SharesSumToOne(plant);
  }

  lemma ShareIsScaled(plant: Plant, r: seq<real>, home: real, a: nat)
    requires plant.Valid() && |r| == |plant.powers| && a < |plant.Shared()| && AtRestUncapped(plant, home)
    ensures Shares(plant, r, home)[plant.Shared()[a]]
         == Scale(plant.Need(home, |r|), Priorities(plant))[plant.Shared()[a]]
  {
    WholeNeed(plant, r, home, a);
    RequestIsScaled(plant, plant.Shared()[a], plant.Need(home, |r|));
  }

  lemma RequestIsScaled(plant: Plant, i: nat, need: real)
    requires plant.Valid() && i < |plant.powers| && 0.0 < plant.WeightSum(|plant.powers|)
    requires Uncapped(plant.controls[i], plant.WeightSum(|plant.powers|), need)
    ensures Request(plant.controls[i], plant.WeightSum(|plant.powers|), need) == Scale(need, Priorities(plant))[i]
  {
    ScaleAt(plant, need, i);
    UncappedRequest(plant.controls[i], plant.WeightSum(|plant.powers|), need);
  }

  lemma UncappedRequest(pi: ControlPowerInfo, weightSum: real, need: real)
    requires 0 < pi.batPriority && 0.0 < weightSum && Uncapped(pi, weightSum, need)
    ensures Request(pi, weightSum, need) == need * Priority(pi, weightSum)
  {
    var w := pi.batPriority as real * weightSum;
    assert 0.0 < w && Priority(pi, weightSum) * need == need / w;
    DivideBound(need, w, pi.powerMax);
  }

  lemma Distribute(x: real, a: real, b: real)
    ensures x * (a + b) == x * a + x * b
  {
  }

  // ---- stage 2: the greedy top-up ----

  /** The top-up hands out exactly what remains, as far as there is headroom for it. */
  lemma {:induction false} TopUpExact(plant: Plant, idx: seq<nat>, r: seq<real>, remaining: real, k: nat)
    requires plant.Valid() && plant.Order(idx) && |r| == |plant.powers| && k <= |idx|
    ensures Sum(plant.TopUp(idx, r, remaining, k), idx, k)
         == Sum(r, idx, k) + Min(Max(0.0, remaining), plant.HeadroomSum(idx, r, k))
  {
    if k > 0 {
      TopUpExact(plant, idx, r, remaining, k - 1);
      SumSame(plant.TopUp(idx, r, remaining, k), plant.TopUp(idx, r, remaining, k - 1), idx, idx, k - 1);
    }
  }

  lemma {:induction false} TopUpAt(plant: Plant, idx: seq<nat>, r: seq<real>, remaining: real, k: nat, a: nat)
    requires plant.Valid() && plant.Order(idx) && |r| == |plant.powers| && a < k <= |idx|
    ensures plant.TopUp(idx, r, remaining, k)[idx[a]] == r[idx[a]] + plant.Extra(idx, r, remaining, a)
  {
    if a < k - 1 {
      TopUpAt(plant, idx, r, remaining, k - 1, a);
    }
  }

  lemma {:induction false} HeadroomMonotone(plant: Plant, idx: seq<nat>, r: seq<real>, k: nat, n: nat)
    requires plant.Valid() && plant.Order(idx) && |r| == |plant.powers| && k <= n <= |idx|
    ensures plant.HeadroomSum(idx, r, k) <= plant.HeadroomSum(idx, r, n)
  {
    if k < n {
      HeadroomMonotone(plant, idx, r, k, n - 1);
    }
  }

  /** Nobody receives anything before all earlier inverters are saturated, and nobody is lifted over its limit. */
  lemma TopUpGreedy(plant: Plant, idx: seq<nat>, r: seq<real>, remaining: real, a: nat, b: nat)
    requires plant.Valid() && plant.Order(idx) && |r| == |plant.powers| && a < b < |idx|
    ensures var i, j := idx[a], idx[b];
            var after := plant.TopUp(idx, r, remaining, |idx|);
            && (r[j] < after[j] ==> after[i] == Max(r[i], MaxExpPowAvail(plant.powers[i], plant.controls[i])))
            && (r[j] < after[j] ==> after[j] <= MaxExpPowAvail(plant.powers[j], plant.controls[j]))
  {
    TopUpAt(plant, idx, r, remaining, |idx|, a);
    TopUpAt(plant, idx, r, remaining, |idx|, b);
    HeadroomMonotone(plant, idx, r, a + 1, b);
  }

  // ---- stage 3: the surplus ----

  lemma {:induction false} TakeExact(plant: Plant, idx: seq<nat>, r: seq<real>, part: real, k: nat)
    requires plant.Valid() && plant.Order(idx) && |r| == |plant.powers| && k <= |idx|
    ensures Sum(plant.Take(idx, r, part, k), idx, k) == Sum(r, idx, k) - k as real * part
    ensures forall a :: k <= a < |idx| ==> plant.Take(idx, r, part, k)[idx[a]] == r[idx[a]]
    ensures forall i :: 0 <= i < |r| && i !in idx ==> plant.Take(idx, r, part, k)[i] == r[i]
  {
    if k > 0 {
      TakeExact(plant, idx, r, part, k - 1);
      SumSame(plant.Take(idx, r, part, k), plant.Take(idx, r, part, k - 1), idx, idx, k - 1);
      Distribute(part, (k - 1) as real, 1.0);
    }
  }

  lemma SpreadExact(plant: Plant, idx: seq<nat>, r: seq<real>, p: real)
    requires plant.Valid() && plant.Order(idx) && |r| == |plant.powers|
    ensures Total(plant.Spread(idx, r, p), idx) == Total(r, idx) - if idx == [] then 0.0 else p
    ensures forall i :: 0 <= i < |r| && i !in idx ==> plant.Spread(idx, r, p)[i] == r[i]
  {
    if idx != [] {
      TakeExact(plant, idx, r, p / |idx| as real, |idx|);
      assert |idx| as real * (p / |idx| as real) == p;
    }
  }

  function HandedSum(plant: Plant, full: seq<nat>, k: nat): real
    requires plant.Valid() && plant.Order(full) && k <= |full|
  {
    if k == 0 then 0.0 else HandedSum(plant, full, k - 1) + plant.Handed(full[k - 1])
  }

  lemma {:induction false} SumUpdate(r: seq<real>, idx: seq<nat>, k: nat, a: nat, v: real)
    requires a < |idx| && k <= |idx| && forall b :: 0 <= b < |idx| ==> idx[b] < |r|
    requires forall b, c :: 0 <= b < c < |idx| ==> idx[b] < idx[c]
    ensures Sum(r[idx[a] := v], idx, k) == Sum(r, idx, k) + if a < k then v - r[idx[a]] else 0.0
  {
    if k > 0 {
      SumUpdate(r, idx, k - 1, a, v);
    }
  }

  /** One full inverter moves its surplus: the sum grows by what goes to the grid, and by the handed-over power
      as well when nobody takes it up. */
  lemma SurplusStep(plant: Plant, full: seq<nat>, fill: seq<nat>, r: seq<real>, maxExport: real, k: nat)
    requires plant.Valid() && plant.Order(full) && plant.Order(fill) && |r| == |plant.powers| && k < |full|
    requires 0.0 <= maxExport && forall i :: i in full ==> i !in fill
    ensures var (before, left) := plant.Surplus(full, fill, r, maxExport, k);
            var (after, left') := plant.Surplus(full, fill, r, maxExport, k + 1);
            && Total(after, fill) == Total(before, fill) - (if fill == [] then 0.0 else plant.Handed(full[k]))
            && Total(after, full) == Total(before, full) + plant.Handed(full[k]) + (left - left')
  {
    var (before, left) := plant.Surplus(full, fill, r, maxExport, k);
    var i := full[k];
    MoveOne(plant, full, fill, before, k, Min(plant.Overpower(i) - plant.Handed(i), left));
  }

  lemma MoveOne(plant: Plant, full: seq<nat>, fill: seq<nat>, before: seq<real>, k: nat, grid: real)
    requires plant.Valid() && plant.Order(full) && plant.Order(fill) && |before| == |plant.powers| && k < |full|
    requires forall i :: i in full ==> i !in fill
    ensures var i, p := full[k], plant.Handed(full[k]);
            var spread := plant.Spread(fill, before, p);
            var after := spread[i := spread[i] + p + grid];
            && Total(after, fill) == Total(before, fill) - (if fill == [] then 0.0 else p)
            && Total(after, full) == Total(before, full) + p + grid
  {
    var i, p := full[k], plant.Handed(full[k]);
    var spread := plant.Spread(fill, before, p);
    SpreadExact(plant, fill, before, p);
    forall a | 0 <= a < |full| ensures spread[full[a]] == before[full[a]] {
      assert full[a] in full;
    }
    SumSame(spread, before, full, full, |full|);
    SumUpdate(spread, full, |full|, k, spread[i] + p + grid);
    assert i in full;
    SumSame(spread[i := spread[i] + p + grid], spread, fill, fill, |fill|);
  }

  /** Moving the surplus changes the sum only by what goes to the grid, as long as somebody can take it up;
      otherwise the handed-over power is added as well. */
  lemma {:induction false} SurplusExact(plant: Plant, full: seq<nat>, fill: seq<nat>, r: seq<real>, maxExport: real,
                                        k: nat)
    requires plant.Valid() && plant.Order(full) && plant.Order(fill) && |r| == |plant.powers| && k <= |full|
    requires 0.0 <= maxExport && forall i :: i in full ==> i !in fill
    ensures var (after, left) := plant.Surplus(full, fill, r, maxExport, k);
            Total(after, fill) + Total(after, full)
            == Total(r, fill) + Total(r, full) + (maxExport - left)
               + (if fill == [] then HandedSum(plant, full, k) else 0.0)
  {
    if k > 0 {
      SurplusExact(plant, full, fill, r, maxExport, k - 1);
      SurplusStep(plant, full, fill, r, maxExport, k - 1);
    }
  }

  lemma {:induction false} SurplusUntouched(plant: Plant, full: seq<nat>, fill: seq<nat>, r: seq<real>,
                                            maxExport: real, k: nat, i: nat)
    requires plant.Valid() && plant.Order(full) && plant.Order(fill) && i < |r| == |plant.powers| && k <= |full|
    requires 0.0 <= maxExport && i !in full && i !in fill
    ensures plant.Surplus(full, fill, r, maxExport, k).0[i] == r[i]
  {
    if k > 0 {
      SurplusUntouched(plant, full, fill, r, maxExport, k - 1, i);
      var before := plant.Surplus(full, fill, r, maxExport, k - 1).0;
      SpreadExact(plant, fill, before, plant.Handed(full[k - 1]));
    }
  }

  // ---- the whole update ----

  lemma FullIsNotFillable(plant: Plant)
    requires plant.Valid()
    ensures forall i :: i in plant.Fulls() ==> i !in plant.Fillables()
    ensures forall i :: i in plant.Fulls() || i in plant.Fillables() ==> i < |plant.powers| && plant.KindOf(i) != Forced
    ensures forall i :: i in plant.Shared() ==> i < |plant.powers| && plant.KindOf(i) != Forced
    ensures plant.Fillables() != [] ==> plant.Shared() != []
  {
    plant.SelectExact({Full}, |plant.powers|);
    plant.SelectExact({Fillable}, |plant.powers|);
    plant.SelectExact({Fillable, Full}, |plant.powers|);
    if plant.Fillables() != [] {
      assert plant.Fillables()[0] in plant.Fillables();
    }
  }

  /** A force-charged inverter is asked to charge with its maximum, whatever happens to the others. */
  lemma ForcedKeepsCharging(plant: Plant, r: seq<real>, home: real, maxExport: real, i: nat)
    requires plant.Valid() && i < |r| == |plant.powers| && 0.0 <= maxExport && plant.KindOf(i) == Forced
    ensures Requests(plant, r, home, maxExport)[i] == -plant.controls[i].powerMaxCha
  {
    FullIsNotFillable(plant);
    ForceChargeExact(plant, r, |r|, i);
    var shared := plant.Shared();
    ShareUntouched(plant, shared, plant.ForceCharge(r, |r|), plant.Need(home, |r|), |shared|, i);
    plant.TopUpUntouched(shared, Shares(plant, r, home), Remaining(plant, home), |shared|, i);
    SurplusUntouched(plant, plant.Fulls(), plant.Fillables(), ToppedUp(plant, r, home), maxExport, |plant.Fulls()|, i);
  }

  /** After the top-up no request exceeds its inverter's maximum. */
  lemma ToppedUpWithinMaximum(plant: Plant, r: seq<real>, home: real, a: nat)
    requires plant.Valid() && |r| == |plant.powers| && a < |plant.Shared()|
    ensures plant.Shared()[a] < |r|
    ensures ToppedUp(plant, r, home)[plant.Shared()[a]] <= plant.controls[plant.Shared()[a]].powerMax
  {
    var shared := plant.Shared();
    ShareWithinMaximum(plant, shared, plant.ForceCharge(r, |r|), plant.Need(home, |r|), |shared|, a);
    TopUpAt(plant, shared, Shares(plant, r, home), Remaining(plant, home), |shared|, a);
  }

  /** Sharing and top-up ask for at most the need, and once more the part of it that is not exported already. */
  lemma ToppedUpBudget(plant: Plant, r: seq<real>, home: real)
    requires plant.Valid() && |r| == |plant.powers| && plant.Shared() != []
    ensures Total(ToppedUp(plant, r, home), plant.Shared())
         <= plant.Need(home, |r|) + Max(0.0, Remaining(plant, home))
  {
    SharesSumToOne(plant);
    var shared, need := plant.Shared(), plant.Need(home, |r|);
    ShareSum(plant, shared, plant.ForceCharge(r, |r|), need, |shared|);
    SumScale(need, Priorities(plant), shared, |shared|);
    assert Total(Shares(plant, r, home), shared) <= need;
    TopUpExact(plant, shared, Shares(plant, r, home), Remaining(plant, home), |shared|);
  }

  /** The budget: everybody who is not force-charged is asked together for at most the need, once more the part of it
      that is not exported already, and the allowed export; without a fillable inverter in the plant also for what the
      full ones would have handed over. */
  lemma PowerBudget(plant: Plant, r: seq<real>, home: real, maxExport: real)
    requires plant.Valid() && |r| == |plant.powers| && 0.0 <= maxExport && plant.Shared() != []
    ensures Total(Requests(plant, r, home, maxExport), plant.Shared())
         <= plant.Need(home, |r|) + Max(0.0, Remaining(plant, home)) + maxExport
            + if plant.Fillables() == [] then HandedSum(plant, plant.Fulls(), |plant.Fulls()|) else 0.0
  {
    ToppedUpBudget(plant, r, home);
    var grid := SurplusAccount(plant, r, home, maxExport);
  }

  /** Without a fillable inverter the power a full inverter would have handed over is requested on top. */
  lemma SurplusAccount(plant: Plant, r: seq<real>, home: real, maxExport: real) returns (grid: real)
    requires plant.Valid() && |r| == |plant.powers| && 0.0 <= maxExport
    ensures grid == maxExport - ExportLeft(plant, plant.Fulls(), maxExport, |plant.Fulls()|)
    ensures 0.0 <= grid <= maxExport
    ensures Total(Requests(plant, r, home, maxExport), plant.Shared())
         == Total(ToppedUp(plant, r, home), plant.Shared()) + grid
            + if plant.Fillables() == [] then HandedSum(plant, plant.Fulls(), |plant.Fulls()|) else 0.0
  {
    FullIsNotFillable(plant);
    var after := plant.Surplus(plant.Fulls(), plant.Fillables(), ToppedUp(plant, r, home), maxExport, |plant.Fulls()|);
    grid := maxExport - after.1;
    LeftExact(plant, plant.Fulls(), plant.Fillables(), ToppedUp(plant, r, home), maxExport, |plant.Fulls()|);
    SurplusExact(plant, plant.Fulls(), plant.Fillables(), ToppedUp(plant, r, home), maxExport, |plant.Fulls()|);
    SharedSplits(plant, ToppedUp(plant, r, home), |r|);
    SharedSplits(plant, Requests(plant, r, home, maxExport), |r|);
  }

  // ---- the final request of a full inverter ----

  /** What the first `k` full inverters have to spare beyond what the fillable ones can take up. */
  function SpareSum(plant: Plant, full: seq<nat>, k: nat): (s: real)
    requires plant.Valid() && plant.Order(full) && k <= |full|
    ensures 0.0 <= s
  {
    if k == 0 then 0.0 else SpareSum(plant, full, k - 1) + plant.Overpower(full[k - 1]) - plant.Handed(full[k - 1])
  }

  /** What may still be exported to the grid after the first `k` full inverters. */
  function ExportLeft(plant: Plant, full: seq<nat>, maxExport: real, k: nat): (left: real)
    requires plant.Valid() && plant.Order(full) && k <= |full|
    ensures 0.0 <= left
  {
    Max(0.0, maxExport - SpareSum(plant, full, k))
  }

  lemma {:induction false} LeftExact(plant: Plant, full: seq<nat>, fill: seq<nat>, r: seq<real>, maxExport: real,
                                     k: nat)
    requires plant.Valid() && plant.Order(full) && plant.Order(fill) && |r| == |plant.powers| && k <= |full|
    requires 0.0 <= maxExport
    ensures plant.Surplus(full, fill, r, maxExport, k).1 == ExportLeft(plant, full, maxExport, k)
  {
    if k > 0 {
      LeftExact(plant, full, fill, r, maxExport, k - 1);
    }
  }

  /** What the surplus stage adds to the request of the full inverter at position `a`. */
  function Added(plant: Plant, full: seq<nat>, maxExport: real, a: nat): (added: real)
    requires plant.Valid() && plant.Order(full) && a < |full|
    ensures 0.0 <= added
  {
    Min(plant.Overpower(full[a]), plant.FillablePower(|plant.powers|) + ExportLeft(plant, full, maxExport, a))
  }

  lemma {:induction false} SurplusBefore(plant: Plant, full: seq<nat>, fill: seq<nat>, r: seq<real>, maxExport: real,
                                         k: nat, a: nat)
    requires plant.Valid() && plant.Order(full) && plant.Order(fill) && |r| == |plant.powers| && k <= a < |full|
    requires 0.0 <= maxExport && full[a] !in fill
    ensures plant.Surplus(full, fill, r, maxExport, k).0[full[a]] == r[full[a]]
  {
    if k > 0 {
      SurplusBefore(plant, full, fill, r, maxExport, k - 1, a);
      SpreadExact(plant, fill, plant.Surplus(full, fill, r, maxExport, k - 1).0, plant.Handed(full[k - 1]));
    }
  }

  /** In the surplus stage a full inverter's request grows by all it has to spare, as far as that can be taken up or may
      still be exported. */
  lemma {:induction false} SurplusAt(plant: Plant, full: seq<nat>, fill: seq<nat>, r: seq<real>, maxExport: real,
                                     k: nat, a: nat)
    requires plant.Valid() && plant.Order(full) && plant.Order(fill) && |r| == |plant.powers| && a < k <= |full|
    requires 0.0 <= maxExport && full[a] !in fill
    ensures plant.Surplus(full, fill, r, maxExport, k).0[full[a]] == r[full[a]] + Added(plant, full, maxExport, a)
  {
    var before := plant.Surplus(full, fill, r, maxExport, k - 1).0;
    SpreadExact(plant, fill, before, plant.Handed(full[k - 1]));
    if a < k - 1 {
      SurplusAt(plant, full, fill, r, maxExport, k - 1, a);
    } else {
      SurplusBefore(plant, full, fill, r, maxExport, a, a);
      LeftExact(plant, full, fill, r, maxExport, a);
    }
  }

  /** The final request of a full inverter, and when it stays within its maximum: if and only if what the surplus stage
      adds fits on top of what sharing and top-up ask for. */
  lemma FullWithinMaximum(plant: Plant, r: seq<real>, home: real, maxExport: real, a: nat)
    requires plant.Valid() && |r| == |plant.powers| && 0.0 <= maxExport && a < |plant.Fulls()|
    ensures var i := plant.Fulls()[a];
            var request, asked := Requests(plant, r, home, maxExport)[i], ToppedUp(plant, r, home)[i];
            && request == asked + Added(plant, plant.Fulls(), maxExport, a)
            && (request <= plant.controls[i].powerMax
                <==> Added(plant, plant.Fulls(), maxExport, a) <= plant.controls[i].powerMax - asked)
  {
    FullIsNotFillable(plant);
    assert plant.Fulls()[a] in plant.Fulls();
    SurplusAt(plant, plant.Fulls(), plant.Fillables(), ToppedUp(plant, r, home), maxExport, |plant.Fulls()|, a);
  }

  /** What sharing and top-up ask an inverter for: its priority's part of what its predecessors do not export, and on
      top of it what its predecessors have no headroom for, each within its limits. */
  lemma ToppedUpAt(plant: Plant, r: seq<real>, home: real, a: nat)
    requires plant.Valid() && |r| == |plant.powers| && a < |plant.Shared()|
    ensures var shared, i := plant.Shared(), plant.Shared()[a];
            var rest := plant.Need(home, |r|) - plant.RealExport(shared, a);
            ToppedUp(plant, r, home)[i]
            == Request(plant.controls[i], plant.WeightSum(|plant.powers|), rest)
               + plant.Extra(shared, Shares(plant, r, home), Remaining(plant, home), a)
  {
    var shared := plant.Shared();
    ShareAt(plant, shared, plant.ForceCharge(r, |r|), plant.Need(home, |r|), |shared|, a);
    TopUpAt(plant, shared, Shares(plant, r, home), Remaining(plant, home), |shared|, a);
  }

  lemma {:induction false} TakeAt(plant: Plant, idx: seq<nat>, r: seq<real>, part: real, k: nat, a: nat)
    requires plant.Valid() && plant.Order(idx) && |r| == |plant.powers| && a < |idx| && k <= |idx|
    ensures plant.Take(idx, r, part, k)[idx[a]] == r[idx[a]] - if a < k then part else 0.0
  {
    if k > 0 {
      TakeAt(plant, idx, r, part, k - 1, a);
    }
  }

  lemma SpreadLowers(plant: Plant, idx: seq<nat>, r: seq<real>, p: real, a: nat)
    requires plant.Valid() && plant.Order(idx) && |r| == |plant.powers| && a < |idx| && 0.0 <= p
    ensures plant.Spread(idx, r, p)[idx[a]] <= r[idx[a]]
  {
    TakeAt(plant, idx, r, p / |idx| as real, |idx|, a);
    assert 0.0 <= p / |idx| as real;
  }

  /** The surplus stage never raises the request of a fillable inverter. */
  lemma {:induction false} SurplusLowers(plant: Plant, full: seq<nat>, fill: seq<nat>, r: seq<real>, maxExport: real,
                                         k: nat, a: nat)
    requires plant.Valid() && plant.Order(full) && plant.Order(fill) && |r| == |plant.powers| && k <= |full|
    requires 0.0 <= maxExport && a < |fill| && forall i :: i in full ==> i !in fill
    ensures plant.Surplus(full, fill, r, maxExport, k).0[fill[a]] <= r[fill[a]]
  {
    if k > 0 {
      SurplusLowers(plant, full, fill, r, maxExport, k - 1, a);
      SpreadLowers(plant, fill, plant.Surplus(full, fill, r, maxExport, k - 1).0, plant.Handed(full[k - 1]), a);
      assert full[k - 1] in full && fill[a] in fill;
    }
  }

  lemma FillableWithinMaximum(plant: Plant, r: seq<real>, home: real, maxExport: real, i: nat)
    requires plant.Valid() && i < |r| == |plant.powers| && 0.0 <= maxExport && plant.KindOf(i) == Fillable
    ensures Within(plant, r, home, maxExport, i)
  {
    FullIsNotFillable(plant);
    var a := Position(plant, {Fillable}, i);
    var b := Position(plant, {Fillable, Full}, i);
    ToppedUpWithinMaximum(plant, r, home, b);
    SurplusLowers(plant, plant.Fulls(), plant.Fillables(), ToppedUp(plant, r, home), maxExport, |plant.Fulls()|, a);
  }

  lemma Position(plant: Plant, kinds: set<Kind>, i: nat) returns (a: nat)
    requires plant.Valid() && i < |plant.powers| && plant.KindOf(i) in kinds
    ensures var idx := plant.Select(kinds, |plant.powers|); a < |idx| && idx[a] == i
  {
    plant.SelectExact(kinds, |plant.powers|);
    var idx := plant.Select(kinds, |plant.powers|);
    assert i in idx;
    a :| 0 <= a < |idx| && idx[a] == i;
  }

  // ---- the same from the inputs alone ----

  /** The share of the inverter at position `k` of those who share. */
  ghost function ShareOf(plant: Plant, home: real, k: nat): real
    requires plant.Valid() && k < |plant.Shared()|
  {
    var n := |plant.powers|;
    Request(plant.controls[plant.Shared()[k]], plant.WeightSum(n),
            plant.Need(home, n) - plant.RealExport(plant.Shared(), k))
  }

  /** What it could still be asked for on top. */
  ghost function RoomOf(plant: Plant, home: real, k: nat): real
    requires plant.Valid() && k < |plant.Shared()|
  {
    var i := plant.Shared()[k];
    Max(0.0, MaxExpPowAvail(plant.powers[i], plant.controls[i]) - ShareOf(plant, home, k))
  }

  ghost function RoomSum(plant: Plant, home: real, k: nat): real
    requires plant.Valid() && k <= |plant.Shared()|
  {
    if k == 0 then 0.0 else RoomSum(plant, home, k - 1) + RoomOf(plant, home, k - 1)
  }

  /** What sharing and top-up ask it for. */
  ghost function Asked(plant: Plant, home: real, k: nat): real
    requires plant.Valid() && k < |plant.Shared()|
  {
    ShareOf(plant, home, k)
    + Min(RoomOf(plant, home, k), Max(0.0, Remaining(plant, home) - RoomSum(plant, home, k)))
  }

  lemma ShareOfExact(plant: Plant, r: seq<real>, home: real, k: nat)
    requires plant.Valid() && |r| == |plant.powers| && k < |plant.Shared()|
    ensures Shares(plant, r, home)[plant.Shared()[k]] == ShareOf(plant, home, k)
  {
    var shared := plant.Shared();
    ShareAt(plant, shared, plant.ForceCharge(r, |r|), plant.Need(home, |r|), |shared|, k);
  }

  lemma {:induction false} RoomSumExact(plant: Plant, r: seq<real>, home: real, k: nat)
    requires plant.Valid() && |r| == |plant.powers| && k <= |plant.Shared()|
    ensures plant.HeadroomSum(plant.Shared(), Shares(plant, r, home), k) == RoomSum(plant, home, k)
  {
    if k > 0 {
      RoomSumExact(plant, r, home, k - 1);
      ShareOfExact(plant, r, home, k - 1);
    }
  }

  /** Sharing and top-up ask every inverter for just that, whatever was requested before. */
  lemma AskedExact(plant: Plant, r: seq<real>, home: real, k: nat)
    requires plant.Valid() && |r| == |plant.powers| && k < |plant.Shared()|
    ensures ToppedUp(plant, r, home)[plant.Shared()[k]] == Asked(plant, home, k)
  {
    RoomSumExact(plant, r, home, k);
    ShareOfExact(plant, r, home, k);
    TopUpAt(plant, plant.Shared(), Shares(plant, r, home), Remaining(plant, home), |plant.Shared()|, k);
  }

  /** What the surplus stage adds to the full inverter at position `a`, which is at position `b` of those who share,
      fits on top of what sharing and top-up ask it for. */
  ghost predicate Fits(plant: Plant, home: real, maxExport: real, a: nat, b: nat)
    requires plant.Valid() && a < |plant.Fulls()| && b < |plant.Shared()|
  {
    plant.Fulls()[a] == plant.Shared()[b] ==>
      Added(plant, plant.Fulls(), maxExport, a) <= plant.controls[plant.Fulls()[a]].powerMax - Asked(plant, home, b)
  }

  ghost predicate AllFit(plant: Plant, home: real, maxExport: real)
    requires plant.Valid()
  {
    forall a: nat, b: nat :: a < |plant.Fulls()| && b < |plant.Shared()| ==> Fits(plant, home, maxExport, a, b)
  }

  ghost predicate Within(plant: Plant, r: seq<real>, home: real, maxExport: real, i: nat)
    requires plant.Valid() && i < |r| == |plant.powers| && 0.0 <= maxExport
  {
    Requests(plant, r, home, maxExport)[i] <= plant.controls[i].powerMax
  }

  lemma FitsExact(plant: Plant, r: seq<real>, home: real, maxExport: real, a: nat, b: nat)
    requires plant.Valid() && |r| == |plant.powers| && 0.0 <= maxExport && a < |plant.Fulls()| && b < |plant.Shared()|
    ensures var i := plant.Fulls()[a];
            && i < |r| && plant.KindOf(i) == Full
            && (i == plant.Shared()[b] ==>
                  (Within(plant, r, home, maxExport, i) <==> Fits(plant, home, maxExport, a, b)))
  {
    plant.SelectExact({Full}, |plant.powers|);
    assert plant.Fulls()[a] in plant.Fulls();
    FullWithinMaximum(plant, r, home, maxExport, a);
    AskedExact(plant, r, home, b);
  }

  lemma FullWithin(plant: Plant, r: seq<real>, home: real, maxExport: real, i: nat)
    requires plant.Valid() && i < |r| == |plant.powers| && 0.0 <= maxExport && plant.KindOf(i) == Full
    requires AllFit(plant, home, maxExport)
    ensures Within(plant, r, home, maxExport, i)
  {
    var a := Position(plant, {Full}, i);
    var b := Position(plant, {Fillable, Full}, i);
    FitsExact(plant, r, home, maxExport, a, b);
  }

  /** No final request exceeds its inverter's maximum if and only if every full inverter's surplus fits; fillable
      inverters always keep to it. */
  lemma WithinMaximum(plant: Plant, r: seq<real>, home: real, maxExport: real)
    requires plant.Valid() && |r| == |plant.powers| && 0.0 <= maxExport
    ensures (forall i: nat :: i < |r| && plant.KindOf(i) != Forced ==> Within(plant, r, home, maxExport, i))
       <==> AllFit(plant, home, maxExport)
  {
    if forall i: nat :: i < |r| && plant.KindOf(i) != Forced ==> Within(plant, r, home, maxExport, i) {
      forall a: nat, b: nat | a < |plant.Fulls()| && b < |plant.Shared()| ensures Fits(plant, home, maxExport, a, b) {
        FitsExact(plant, r, home, maxExport, a, b);
      }
    }
    if AllFit(plant, home, maxExport) {
      forall i: nat | i < |r| && plant.KindOf(i) != Forced ensures Within(plant, r, home, maxExport, i) {
        if plant.KindOf(i) == Full {
          FullWithin(plant, r, home, maxExport, i);
        } else {
          FillableWithinMaximum(plant, r, home, maxExport, i);
        }
      }
    }
  }

  /** An inverter at 100 percent that covers the whole need already is asked for twice its maximum of 1000 W. */
  lemma FullOverMaximum(plant: Plant, r: seq<real>)
    requires plant == Plant([InverterGroup(0.0, 1000.0, 100.0)], [ControlPowerInfo(10.0, 1000.0, 500.0, 500.0, 1)])
    requires |r| == 1
    ensures plant.Valid() && Requests(plant, r, 1000.0, 1000.0)[0] == 2000.0
  {
    OneFull(plant);
    FullWithinMaximum(plant, r, 1000.0, 1000.0, 0);
    ToppedUpAt(plant, r, 1000.0, 0);
    assert plant.WeightSum(1) == 1.0 && plant.Need(1000.0, 0) == 1000.0 == plant.Need(1000.0, 1);
    assert plant.FillablePower(1) == 0.0 && SpareSum(plant, [0], 0) == 0.0;
    assert Request(plant.controls[0], 1.0, 1000.0) == 1000.0;
    ToppedUpWithinMaximum(plant, r, 1000.0, 0);
  }

  lemma OneFull(plant: Plant)
    requires |plant.powers| == |plant.controls| == 1 && plant.Valid() && plant.KindOf(0) == Full
    ensures plant.Fulls() == plant.Shared() == [0] && plant.Fillables() == []
  {
    assert plant.Select({Full}, 0) == [] && plant.Select({Fillable}, 0) == [];
    assert plant.Select({Fillable, Full}, 0) == [];
  }

  // ---- plants without a fillable inverter ----

  lemma {:induction false} HandedNothing(plant: Plant, full: seq<nat>, k: nat)
    requires plant.Valid() && plant.Order(full) && k <= |full|
    ensures HandedSum(plant, full, k) >= 0.0
    ensures HandedSum(plant, full, k) == 0.0
       <==> plant.FillablePower(|plant.powers|) == 0.0 || forall a :: 0 <= a < k ==> plant.Overpower(full[a]) == 0.0
  {
    if k > 0 {
      HandedNothing(plant, full, k - 1);
    }
  }

  /** The surplus stage changes the sum of all requests by the export to the grid alone if and only if somebody is
      fillable, nothing can be taken up, or no full inverter has anything to spare. */
  lemma OnlyExported(plant: Plant, r: seq<real>, home: real, maxExport: real)
    requires plant.Valid() && |r| == |plant.powers| && 0.0 <= maxExport
    ensures Total(Requests(plant, r, home, maxExport), plant.Shared())
            == Total(ToppedUp(plant, r, home), plant.Shared())
               + (maxExport - ExportLeft(plant, plant.Fulls(), maxExport, |plant.Fulls()|))
       <==> || plant.Fillables() != []
            || plant.FillablePower(|r|) == 0.0
            || forall a :: 0 <= a < |plant.Fulls()| ==> plant.Overpower(plant.Fulls()[a]) == 0.0
  {
    var grid := SurplusAccount(plant, r, home, maxExport);
    HandedNothing(plant, plant.Fulls(), |plant.Fulls()|);
  }

  lemma NothingExtra(plant: Plant, idx: seq<nat>, r: seq<real>, k: nat)
    requires plant.Valid() && plant.Order(idx) && |r| == |plant.powers| && k < |idx|
    ensures plant.Extra(idx, r, 0.0, k) == 0.0
  {
  }

  lemma NothingRequested(pi: ControlPowerInfo, weightSum: real)
    requires 0 < pi.batPriority && 0.0 < weightSum && 0.0 <= pi.powerMax
    ensures Request(pi, weightSum, 0.0) == 0.0
  {
  }

  /** A plant of one full inverter that exports nothing, in a home that needs nothing. */
  ghost predicate AtRest(plant: Plant) {
    && plant.Valid() && |plant.powers| == 1 && plant.KindOf(0) == Full && plant.powers[0].inverterExp == 0.0
  }

  lemma RestNeedsNothing(plant: Plant)
    requires AtRest(plant)
    ensures plant.Need(0.0, 1) == 0.0 && Remaining(plant, 0.0) == 0.0
  {
    OneFull(plant);
    assert plant.Need(0.0, 0) == 0.0 && plant.RealExport([0], 0) == 0.0;
  }

  lemma RestShares(plant: Plant, r: seq<real>, home: real)
    requires plant.Valid() && |r| == |plant.powers| && plant.Shared() != []
    requires plant.Need(home, |r|) == 0.0 && Remaining(plant, home) == 0.0
    ensures ToppedUp(plant, r, home)[plant.Shared()[0]] == 0.0
  {
    ToppedUpFirst(plant, r, home);
    NothingRequested(plant.controls[plant.Shared()[0]], plant.WeightSum(|r|));
    NothingExtra(plant, plant.Shared(), Shares(plant, r, home), 0);
  }

  lemma ToppedUpFirst(plant: Plant, r: seq<real>, home: real)
    requires plant.Valid() && |r| == |plant.powers| && plant.Shared() != []
    ensures var i := plant.Shared()[0];
            ToppedUp(plant, r, home)[i]
            == Request(plant.controls[i], plant.WeightSum(|plant.powers|), plant.Need(home, |r|))
               + plant.Extra(plant.Shared(), Shares(plant, r, home), Remaining(plant, home), 0)
  {
    ToppedUpAt(plant, r, home, 0);
  }

  /** It is asked for what it has to spare and could be taken up, although nobody is there to take it up. */
  lemma RestIsAsked(plant: Plant, r: seq<real>)
    requires AtRest(plant) && |r| == 1
    ensures Requests(plant, r, 0.0, 0.0)[0] == plant.Handed(0)
  {
    OneFull(plant);
    RestNeedsNothing(plant);
    RestShares(plant, r, 0.0);
    FullWithinMaximum(plant, r, 0.0, 0.0, 0);
    assert SpareSum(plant, plant.Fulls(), 0) == 0.0;
  }

  /** At 98.5 percent of charge that is half its maximum: 500 W that nobody needs and that may not be exported. */
  lemma LoneIsAsked(plant: Plant)
    requires plant == Plant([InverterGroup(0.0, 0.0, 98.5)], [ControlPowerInfo(10.0, 1000.0, 500.0, 0.0, 1)])
    ensures AtRest(plant) && plant.Handed(0) == 500.0
  {
    assert plant.FillablePower(0) == 0.0 && plant.FillablePower(1) == 500.0;
  }

  // ---- how much is handed over ----

  function OverpowerSum(plant: Plant, full: seq<nat>, k: nat): real
    requires plant.Valid() && plant.Order(full) && k <= |full|
  {
    if k == 0 then 0.0 else OverpowerSum(plant, full, k - 1) + plant.Overpower(full[k - 1])
  }

  ghost predicate AtMostOneActive(plant: Plant, full: seq<nat>, k: nat)
    requires plant.Valid() && plant.Order(full) && k <= |full|
  {
    forall a, b :: 0 <= a < b < k ==> plant.Overpower(full[a]) == 0.0 || plant.Overpower(full[b]) == 0.0
  }

  lemma {:induction false} HandedBounds(plant: Plant, full: seq<nat>, k: nat)
    requires plant.Valid() && plant.Order(full) && k <= |full|
    ensures var f := plant.FillablePower(|plant.powers|);
            && 0.0 <= HandedSum(plant, full, k) <= OverpowerSum(plant, full, k)
            && (OverpowerSum(plant, full, k) <= f ==> HandedSum(plant, full, k) == OverpowerSum(plant, full, k))
            && (f == 0.0 ==> HandedSum(plant, full, k) == 0.0)
            && (HandedSum(plant, full, k) == 0.0 && 0.0 < f ==>
                  forall a :: 0 <= a < k ==> plant.Overpower(full[a]) == 0.0)
            && ((forall a :: 0 <= a < k ==> plant.Overpower(full[a]) == 0.0) ==> OverpowerSum(plant, full, k) == 0.0)
            && (HandedSum(plant, full, k) < f ==> HandedSum(plant, full, k) == OverpowerSum(plant, full, k))
  {
    if k > 0 {
      HandedBounds(plant, full, k - 1);
    }
  }

  /** The full inverters are not offset against each other: together they hand over no more than the others can
      take up if and only if nothing can be taken up, all surplus can, or only one inverter has any surplus. */
  lemma {:induction false} HandedFits(plant: Plant, full: seq<nat>, k: nat)
    requires plant.Valid() && plant.Order(full) && k <= |full|
    ensures HandedSum(plant, full, k) <= plant.FillablePower(|plant.powers|)
       <==> || plant.FillablePower(|plant.powers|) == 0.0
            || OverpowerSum(plant, full, k) <= plant.FillablePower(|plant.powers|)
            || AtMostOneActive(plant, full, k)
  {
    HandedBounds(plant, full, k);
    if k > 0 {
      HandedBounds(plant, full, k - 1);
      HandedFits(plant, full, k - 1);
    }
  }

  /** Two full inverters offer the same 500 W of charging power twice. */
  lemma HandedTwice(plant: Plant)
    requires plant == Plant([InverterGroup(0.0, 0.0, 50.0), InverterGroup(0.0, 500.0, 100.0),
                             InverterGroup(0.0, 500.0, 100.0)],
                            [ControlPowerInfo(10.0, 1000.0, 500.0, 500.0, 1),
                             ControlPowerInfo(10.0, 1000.0, 500.0, 500.0, 1),
                             ControlPowerInfo(10.0, 1000.0, 500.0, 500.0, 1)])
    ensures plant.Valid()
    ensures plant.FillablePower(3) == 500.0 && HandedSum(plant, plant.Fulls(), |plant.Fulls()|) == 1000.0
  {
    TwoFull(plant);
    assert plant.FillablePower(1) == 500.0 && plant.FillablePower(2) == 500.0;
    assert plant.Handed(1) == 500.0 && plant.Handed(2) == 500.0;
    assert HandedSum(plant, [1, 2], 1) == 500.0;
  }

  lemma TwoFull(plant: Plant)
    requires |plant.powers| == |plant.controls| == 3 && plant.Valid()
    requires plant.KindOf(0) == Fillable && plant.KindOf(1) == plant.KindOf(2) == Full
    ensures plant.Fulls() == [1, 2]
  {
    assert plant.Select({Full}, 1) == [] && plant.Select({Full}, 2) == [1];
  }

  // ---- whole updates ----

  /** The lists of a plant of two. */
  lemma SelectTwo(plant: Plant, kinds: set<Kind>)
    requires plant.Valid() && |plant.powers| == 2
    ensures plant.Select(kinds, 2)
         == (if plant.KindOf(0) in kinds then [0] else []) + if plant.KindOf(1) in kinds then [1] else []
  {
    assert plant.Select(kinds, 0) == [];
    assert plant.Select(kinds, 1) == if plant.KindOf(0) in kinds then [0] else [];
  }

  /** Two inverters of the same priority that export 500 W each for a need of 1000 W. */
  predicate IsPair(plant: Plant) {
    var ig, pi := InverterGroup(500.0, 0.0, 50.0), ControlPowerInfo(10.0, 5000.0, 500.0, 500.0, 1);
    plant == Plant([ig, ig], [pi, pi])
  }

  lemma PairSums(plant: Plant)
    requires IsPair(plant)
    ensures plant.Valid() && plant.Fillables() == plant.Shared() == [0, 1] && plant.Fulls() == []
    ensures plant.WeightSum(2) == 2.0 && plant.Need(1000.0, 2) == 1000.0
    ensures plant.RealExport([0, 1], 0) == 0.0 && plant.RealExport([0, 1], 1) == 500.0
    ensures plant.RealExport([0, 1], 2) == 1000.0
  {
    assert plant.KindOf(0) == plant.KindOf(1) == Fillable;
    SelectTwo(plant, {Fillable});
    SelectTwo(plant, {Full});
    SelectTwo(plant, {Fillable, Full});
    assert plant.WeightSum(0) == 0.0 && plant.WeightSum(1) == 1.0;
    assert plant.Need(1000.0, 0) == 1000.0 && plant.Need(1000.0, 1) == 1000.0;
  }

  /** The first is asked for half of the need, the second for half of what the first leaves. */
  lemma SharedByPriority(plant: Plant, r: seq<real>)
    requires IsPair(plant) && |r| == 2
    ensures plant.Valid() && Requests(plant, r, 1000.0, 0.0) == [500.0, 250.0]
  {
    PairSums(plant);
    ShareExact(plant, r, 1000.0, 0);
    ShareExact(plant, r, 1000.0, 1);
    assert Shares(plant, r, 1000.0) == [500.0, 250.0];
    plant.TopUpDone([0, 1], Shares(plant, r, 1000.0), Remaining(plant, 1000.0), 0, 2);
  }
}
