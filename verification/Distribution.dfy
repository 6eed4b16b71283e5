/** The arithmetic of the energy manager: who is asked for how much power, stage by stage. */
module Distribution {

  datatype InverterGroup = InverterGroup(inverterExp: real, pvExp: real, batSoc: real)

  datatype ControlPowerInfo = ControlPowerInfo(
    minSoc: real, powerMax: real, powerMaxCha: real, powerMaxDischa: real, batPriority: int)

  function Min(a: real, b: real): real { if a <= b then a else b }

  function Max(a: real, b: real): real { if a >= b then a else b }

  function Lerp(a: real, b: real, t: real): real { a + t * (b - a) }

  function Clamp(v: real, lo: real, hi: real): real
    requires lo <= hi
  {
    if v < lo then lo else if hi < v then hi else v
  }

  function MaxExpPowAvail(ig: InverterGroup, pi: ControlPowerInfo): real {
    Min(ig.pvExp + if ig.batSoc > pi.minSoc then pi.powerMaxDischa else 0.0, pi.powerMax)
  }

  function MaxImpPowAvail(ig: InverterGroup, pi: ControlPowerInfo): real {
    if ig.batSoc >= 99.0 then 0.0 else Max(0.0, pi.powerMaxCha - ig.pvExp)
  }

  /** An inverter can be asked for just what photovoltaics and, above its minimum charge, the battery give together, and
      what it can deliver itself. */
  lemma ExportExact(ig: InverterGroup, pi: ControlPowerInfo, x: real)
    ensures x <= MaxExpPowAvail(ig, pi)
       <==> x <= pi.powerMax && if pi.minSoc < ig.batSoc then x - ig.pvExp <= pi.powerMaxDischa else x <= ig.pvExp
  {
  }

  /** It can take up power just below 99 percent, and as far as photovoltaics leave room in its charging power. */
  lemma ImportExact(ig: InverterGroup, pi: ControlPowerInfo, x: real)
    ensures 0.0 <= MaxImpPowAvail(ig, pi)
    ensures 0.0 < x ==> (x <= MaxImpPowAvail(ig, pi) <==> ig.batSoc < 99.0 && x + ig.pvExp <= pi.powerMaxCha)
  {
  }

  /** The share of one inverter in all priorities. */
  function Priority(pi: ControlPowerInfo, weightSum: real): (p: real)
    requires 0 < pi.batPriority && 0.0 < weightSum
    ensures 0.0 < p
  {
    assert 0.0 < pi.batPriority as real * weightSum;
    1.0 / (pi.batPriority as real * weightSum)
  }

  /** It is the part that its inverse priority has in their sum. */
  lemma PriorityExact(pi: ControlPowerInfo, weightSum: real)
    requires 0 < pi.batPriority && 0.0 < weightSum
    ensures Priority(pi, weightSum) == (1.0 / pi.batPriority as real) / weightSum
  {
    var b := pi.batPriority as real;
    assert 0.0 < b * weightSum;
    assert 1.0 / (b * weightSum) == (1.0 / b) / weightSum;
  }

  /** What it is asked for when `remaining` is still to be shared. */
  function Request(pi: ControlPowerInfo, weightSum: real, remaining: real): real
    requires 0 < pi.batPriority && 0.0 < weightSum
  {
    Min(pi.powerMax, Priority(pi, weightSum) * remaining)
  }

  predicate RequiresCharge(ig: InverterGroup, pi: ControlPowerInfo) {
    ig.batSoc < pi.minSoc
  }

  datatype Kind = Forced | Fillable | Full

  /** The inverters of one update: measured powers beside control values, and the requests `r` as a third list. */
  datatype Plant = Plant(powers: seq<InverterGroup>, controls: seq<ControlPowerInfo>) {
    ghost predicate Valid() {
      && |powers| == |controls|
      && (forall i :: 0 <= i < |powers| ==> 0.0 <= powers[i].inverterExp)
      && (forall i :: 0 <= i < |controls| ==> 0 < controls[i].batPriority)
      && (forall i :: 0 <= i < |controls| ==> 0.0 <= controls[i].powerMax)
    }

    /** An ascending list of inverters. */
    ghost predicate Order(idx: seq<nat>) {
      && (forall a :: 0 <= a < |idx| ==> idx[a] < |powers|)
      && (forall a, b :: 0 <= a < b < |idx| ==> idx[a] < idx[b])
    }

    function KindOf(i: nat): Kind
      requires Valid() && i < |powers|
    {
      if RequiresCharge(powers[i], controls[i]) then Forced
      else if powers[i].batSoc < 98.0 then Fillable
      else Full
    }

    /** What a full inverter should export: ramped from nothing at 98 to its maximum at 99 percent. */
    function Overpower(i: nat): (e: real)
      requires Valid() && i < |powers|
      ensures 0.0 <= e <= controls[i].powerMax
    {
      Clamp(Lerp(0.0, controls[i].powerMax, powers[i].batSoc - 98.0), 0.0, controls[i].powerMax)
    }

    /** The indices below `k` of the given kinds. */
    function Select(kinds: set<Kind>, k: nat): (idx: seq<nat>)
      requires Valid() && k <= |powers|
      ensures forall a :: 0 <= a < |idx| ==> idx[a] < k
    {
      if k == 0 then [] else Select(kinds, k - 1) + if KindOf(k - 1) in kinds then [k - 1] else []
    }

    function Fillables(): (idx: seq<nat>)
      requires Valid()
      ensures Order(idx)
    {
      SelectExact({Fillable}, |powers|);
      Select({Fillable}, |powers|)
    }

    function Fulls(): (idx: seq<nat>)
      requires Valid()
      ensures Order(idx)
    {
      SelectExact({Full}, |powers|);
      Select({Full}, |powers|)
    }

    /** All inverters that are not force-charged. */
    function Shared(): (idx: seq<nat>)
      requires Valid()
      ensures Order(idx) && (idx != [] ==> 0.0 < WeightSum(|powers|))
    {
      SelectExact({Fillable, Full}, |powers|);
      assert Select({Fillable, Full}, |powers|) != [] ==>
               Select({Fillable, Full}, |powers|)[0] in Select({Fillable, Full}, |powers|);
      Select({Fillable, Full}, |powers|)
    }

    lemma {:induction false} SelectExact(kinds: set<Kind>, k: nat)
      requires Valid() && k <= |powers|
      ensures Order(Select(kinds, k))
      ensures forall i: nat :: i in Select(kinds, k) <==> i < k && KindOf(i) in kinds
    {
      if k > 0 {
        SelectExact(kinds, k - 1);
        var before := Select(kinds, k - 1);
        assert forall a :: 0 <= a < |before| ==> before[a] in before;
      }
    }

    // ---- stage 0: forced charging and the sums of the classification loop ----

    /** The home's need plus what the first `k` inverters take in when they are force-charged. */
    function Need(home: real, k: nat): real
      requires Valid() && k <= |powers|
    {
      if k == 0 then home
      else Need(home, k - 1)
           + if KindOf(k - 1) == Forced then MaxImpPowAvail(powers[k - 1], controls[k - 1]) else 0.0
    }

    function FillablePower(k: nat): (f: real)
      requires Valid() && k <= |powers|
      ensures 0.0 <= f
    {
      if k == 0 then 0.0 else FillablePower(k - 1) + MaxImpPowAvail(powers[k - 1], controls[k - 1])
    }

    /** Sum of the inverse priorities of those among the first `k` that are not force-charged. */
    function WeightSum(k: nat): (w: real)
      requires Valid() && k <= |powers|
      ensures 0.0 <= w && (forall i: nat :: i < k && KindOf(i) != Forced ==> 0.0 < w)
    {
      if k == 0 then 0.0
      else WeightSum(k - 1) + if KindOf(k - 1) == Forced then 0.0 else 1.0 / controls[k - 1].batPriority as real
    }

    function ForceCharge(r: seq<real>, k: nat): (r': seq<real>)
      requires Valid() && k <= |powers| == |r|
      ensures |r'| == |r|
    {
      if k == 0 then r
      else if KindOf(k - 1) == Forced then ForceCharge(r, k - 1)[k - 1 := -controls[k - 1].powerMaxCha]
      else ForceCharge(r, k - 1)
    }

    // ---- stage 1: shares by priority ----

    function RealExport(idx: seq<nat>, k: nat): real
      requires Valid() && Order(idx) && k <= |idx|
    {
      if k == 0 then 0.0 else RealExport(idx, k - 1) + powers[idx[k - 1]].inverterExp
    }

    /** The first `k` inverters each get their share of what their predecessors do not export already. */
    function Share(idx: seq<nat>, r: seq<real>, need: real, k: nat): (r': seq<real>)
      requires Valid() && Order(idx) && |r| == |powers| && k <= |idx| && (idx != [] ==> 0.0 < WeightSum(|powers|))
      ensures |r'| == |r|
    {
      if k == 0 then r
      else
        var i := idx[k - 1];
        Share(idx, r, need, k - 1)[i := Request(controls[i], WeightSum(|powers|), need - RealExport(idx, k - 1))]
    }

    // ---- stage 2: greedy top-up ----

    function Headroom(r: seq<real>, i: nat): (h: real)
      requires Valid() && i < |r| == |powers|
      ensures 0.0 <= h
    {
      Max(0.0, MaxExpPowAvail(powers[i], controls[i]) - r[i])
    }

    function HeadroomSum(idx: seq<nat>, r: seq<real>, k: nat): (h: real)
      requires Valid() && Order(idx) && |r| == |powers| && k <= |idx|
      ensures 0.0 <= h
    {
      if k == 0 then 0.0 else HeadroomSum(idx, r, k - 1) + Headroom(r, idx[k - 1])
    }

    /** What position `k` gets on top: all its headroom, or whatever its predecessors' headroom leaves. */
    function Extra(idx: seq<nat>, r: seq<real>, remaining: real, k: nat): (e: real)
      requires Valid() && Order(idx) && |r| == |powers| && k < |idx|
      ensures 0.0 <= e <= Headroom(r, idx[k])
    {
      Min(Headroom(r, idx[k]), Max(0.0, remaining - HeadroomSum(idx, r, k)))
    }

    function TopUp(idx: seq<nat>, r: seq<real>, remaining: real, k: nat): (r': seq<real>)
      requires Valid() && Order(idx) && |r| == |powers| && k <= |idx|
      ensures |r'| == |r|
    {
      if k == 0 then r
      else TopUp(idx, r, remaining, k - 1)[idx[k - 1] := r[idx[k - 1]] + Extra(idx, r, remaining, k - 1)]
    }

    /** Nobody later in the order has been touched yet. */
    lemma {:induction false} TopUpUntouched(idx: seq<nat>, r: seq<real>, remaining: real, k: nat, i: nat)
      requires Valid() && Order(idx) && i < |r| == |powers| && k <= |idx|
      requires forall a :: 0 <= a < k ==> idx[a] != i
      ensures TopUp(idx, r, remaining, k)[i] == r[i]
    {
      if k > 0 {
        TopUpUntouched(idx, r, remaining, k - 1, i);
      }
    }

    /** Once nothing remains, the rest of the inverters keep their requests. */
    lemma {:induction false} TopUpDone(idx: seq<nat>, r: seq<real>, remaining: real, k: nat, n: nat)
      requires Valid() && Order(idx) && |r| == |powers| && k <= n <= |idx|
      requires remaining <= HeadroomSum(idx, r, k)
      ensures TopUp(idx, r, remaining, n) == TopUp(idx, r, remaining, k)
      ensures remaining <= HeadroomSum(idx, r, n)
      decreases n
    {
      if k < n {
        TopUpDone(idx, r, remaining, k, n - 1);
        TopUpUntouched(idx, r, remaining, n - 1, idx[n - 1]);
      }
    }

    // ---- stage 3: surplus of full inverters ----

    /** Takes `part` from each of the first `k` inverters of the list. */
    function Take(idx: seq<nat>, r: seq<real>, part: real, k: nat): (r': seq<real>)
      requires Valid() && Order(idx) && |r| == |powers| && k <= |idx|
      ensures |r'| == |r|
    {
      if k == 0 then r
      else
        var before := Take(idx, r, part, k - 1);
        before[idx[k - 1] := before[idx[k - 1]] - part]
    }

    lemma {:induction false} TakeNothing(idx: seq<nat>, r: seq<real>, k: nat)
      requires Valid() && Order(idx) && |r| == |powers| && k <= |idx|
      ensures Take(idx, r, 0.0, k) == r
    {
      if k > 0 {
        TakeNothing(idx, r, k - 1);
      }
    }

    /** Takes `p` from all of them in equal parts. */
    function Spread(idx: seq<nat>, r: seq<real>, p: real): (r': seq<real>)
      requires Valid() && Order(idx) && |r| == |powers|
      ensures |r'| == |r|
    {
      if idx == [] then r else Take(idx, r, p / |idx| as real, |idx|)
    }

    /** The part of its surplus that a full inverter hands to the fillable ones, and the part left for the grid. */
    function Handed(i: nat): (p: real)
      requires Valid() && i < |powers|
      ensures 0.0 <= p <= Overpower(i)
    {
      Min(Overpower(i), FillablePower(|powers|))
    }

    /** The requests and the export still allowed after the first `k` full inverters. */
    function Surplus(full: seq<nat>, fill: seq<nat>, r: seq<real>, maxExport: real, k: nat): (s: (seq<real>, real))
      requires Valid() && Order(full) && Order(fill) && |r| == |powers| && k <= |full| && 0.0 <= maxExport
      ensures |s.0| == |r| && 0.0 <= s.1 <= maxExport
    {
      if k == 0 then (r, maxExport)
      else
        var (before, left) := Surplus(full, fill, r, maxExport, k - 1);
        var i := full[k - 1];
        var grid := Min(Overpower(i) - Handed(i), left);
        var spread := Spread(fill, before, Handed(i));
        (spread[i := spread[i] + Handed(i) + grid], left - grid)
    }
  }
}
