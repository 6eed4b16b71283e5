/** The energy manager's update as the firmware runs it: four loops over the requests of all inverters. */
module Emm {
  import opened Distribution
  import opened HomeFilter

  /** The requests one update makes, given the filtered need of the home. */
  ghost function Requests(plant: Plant, r: seq<real>, home: real, maxExport: real): (r': seq<real>)
    requires plant.Valid() && |r| == |plant.powers| && 0.0 <= maxExport
    ensures |r'| == |r|
  {
    plant.Surplus(plant.Fulls(), plant.Fillables(), ToppedUp(plant, r, home), maxExport, |plant.Fulls()|).0
  }

  ghost function Shares(plant: Plant, r: seq<real>, home: real): (r': seq<real>)
    requires plant.Valid() && |r| == |plant.powers|
    ensures |r'| == |r|
  {
    plant.Share(plant.Shared(), plant.ForceCharge(r, |r|), plant.Need(home, |r|), |plant.Shared()|)
  }

  ghost function Remaining(plant: Plant, home: real): real
    requires plant.Valid()
  {
    plant.Need(home, |plant.powers|) - plant.RealExport(plant.Shared(), |plant.Shared()|)
  }

  ghost function ToppedUp(plant: Plant, r: seq<real>, home: real): (r': seq<real>)
    requires plant.Valid() && |r| == |plant.powers|
    ensures |r'| == |r|
  {
    plant.TopUp(plant.Shared(), Shares(plant, r, home), Remaining(plant, home), |plant.Shared()|)
  }

  class EnergyManager {
    var filterAlpha: real
    var homePower: real
    var invertHome: bool

    /** The part of the state that outlives an update. */
    function State(): Filter
      reads this
    {
      Filter(filterAlpha, homePower, invertHome)
    }

    constructor ()
      ensures State() == START
    {
      filterAlpha, homePower, invertHome := 0.1, 0.0, false;
    }

    method UpdatePower(homeNew: real, plant: Plant, requested: array<real>, maxExport: real)
      requires plant.Valid() && |plant.powers| == requested.Length && 0.0 <= maxExport
      modifies `homePower, requested
      ensures State() == Step(old(State()), Measure(homeNew))
      ensures requested[..] == Requests(plant, old(requested[..]), homePower, maxExport)
    {
      homePower := Lerp(if invertHome then -homeNew else homeNew, homePower, filterAlpha);
      var full, fillable, shared, need, fillablePower, weightSum := Classify(plant, requested, homePower);
      var remaining := ShareNeed(plant, requested, shared, need, weightSum);
      TopUpGreedily(plant, requested, shared, remaining);
      MoveSurplus(plant, requested, full, fillable, fillablePower, maxExport);
    }

    /** The button that trusts new measurements more. */
    method AdoptFaster()
      modifies `filterAlpha
      ensures State() == Step(old(State()), Faster)
    {
      filterAlpha := 0.9 * filterAlpha;
    }

    /** The button that trusts the past more. */
    method AdoptStabler()
      modifies `filterAlpha
      ensures State() == Step(old(State()), Stabler)
    {
      filterAlpha := 1.0 - 0.9 * (1.0 - filterAlpha);
    }

    method InvertMeter()
      modifies `invertHome
      ensures State() == Step(old(State()), Invert)
    {
      invertHome := !invertHome;
    }

    static method Classify(plant: Plant, requested: array<real>, home: real)
      returns (full: seq<nat>, fillable: seq<nat>, shared: seq<nat>, need: real, fillablePower: real, weightSum: real)
      requires plant.Valid() && |plant.powers| == requested.Length
      modifies requested
      ensures requested[..] == plant.ForceCharge(old(requested[..]), requested.Length)
      ensures full == plant.Fulls() && fillable == plant.Fillables() && shared == plant.Shared()
      ensures need == plant.Need(home, requested.Length) && fillablePower == plant.FillablePower(requested.Length)
      ensures weightSum == plant.WeightSum(requested.Length)
    {
      full, fillable, shared, need, fillablePower, weightSum := [], [], [], home, 0.0, 0.0;
      for i := 0 to requested.Length
        invariant requested[..] == plant.ForceCharge(old(requested[..]), i)
        invariant full == plant.Select({Full}, i) && fillable == plant.Select({Fillable}, i)
        invariant shared == plant.Select({Fillable, Full}, i)
        invariant need == plant.Need(home, i) && fillablePower == plant.FillablePower(i)
        invariant weightSum == plant.WeightSum(i)
      {
        var imp := MaxImpPowAvail(plant.powers[i], plant.controls[i]);
        fillablePower := fillablePower + imp;
        if RequiresCharge(plant.powers[i], plant.controls[i]) {
          need := need + imp;
          requested[i] := -plant.controls[i].powerMaxCha;
        } else {
          if plant.powers[i].batSoc < 98.0 {
            fillable := fillable + [i];
          } else {
            full := full + [i];
          }
          shared := shared + [i];
          weightSum := weightSum + 1.0 / plant.controls[i].batPriority as real;
        }
      }
    }

    static method ShareNeed(plant: Plant, requested: array<real>, shared: seq<nat>, need: real, weightSum: real)
      returns (remaining: real)
      requires plant.Valid() && |plant.powers| == requested.Length
      requires plant.Order(shared) && weightSum == plant.WeightSum(requested.Length)
      requires shared != [] ==> 0.0 < weightSum
      modifies requested
      ensures requested[..] == plant.Share(shared, old(requested[..]), need, |shared|)
      ensures remaining == need - plant.RealExport(shared, |shared|)
    {
      remaining := need;
      for k := 0 to |shared|
        invariant requested[..] == plant.Share(shared, old(requested[..]), need, k)
        invariant remaining == need - plant.RealExport(shared, k)
      {
        var i := shared[k];
        requested[i] := Request(plant.controls[i], weightSum, remaining);
        remaining := remaining - plant.powers[i].inverterExp;
      }
    }

    static method TopUpGreedily(plant: Plant, requested: array<real>, shared: seq<nat>, need: real)
      requires plant.Valid() && |plant.powers| == requested.Length && plant.Order(shared)
      modifies requested
      ensures requested[..] == plant.TopUp(shared, old(requested[..]), need, |shared|)
    {
      ghost var r := requested[..];
      var remaining := need;
      for k := 0 to |shared|
        invariant requested[..] == plant.TopUp(shared, r, need, k)
        invariant Max(0.0, remaining) == Max(0.0, need - plant.HeadroomSum(shared, r, k))
      {
        if remaining <= 0.0 {
          plant.TopUpDone(shared, r, need, k, |shared|);
          break;
        }
        var i := shared[k];
        plant.TopUpUntouched(shared, r, need, k, i);
        assert requested[i] == requested[..][i] == r[i];
        var avail := MaxExpPowAvail(plant.powers[i], plant.controls[i]) - requested[i];
        avail := Min(remaining, avail);
        if avail > 0.0 {
          remaining := remaining - avail;
          requested[i] := requested[i] + avail;
        }
      }
    }

    static method MoveSurplus(plant: Plant, requested: array<real>, full: seq<nat>, fillable: seq<nat>,
                              fillablePower: real, maxExport: real)
      requires plant.Valid() && |plant.powers| == requested.Length && plant.Order(full) && plant.Order(fillable)
      requires fillablePower == plant.FillablePower(requested.Length) && 0.0 <= maxExport
      modifies requested
      ensures requested[..] == plant.Surplus(full, fillable, old(requested[..]), maxExport, |full|).0
    {
      ghost var r := requested[..];
      var left := maxExport;
      for k := 0 to |full|
        invariant (requested[..], left) == plant.Surplus(full, fillable, r, maxExport, k)
      {
        left := ExportSurplus(plant, requested, full[k], fillable, fillablePower, left);
      }
    }

    /** One full inverter: hands what it can to the fillable ones, the rest to the grid while that is allowed. */
    static method ExportSurplus(plant: Plant, requested: array<real>, i: nat, fillable: seq<nat>,
                                fillablePower: real, allowed: real) returns (left: real)
      requires plant.Valid() && i < |plant.powers| == requested.Length && plant.Order(fillable)
      requires fillablePower == plant.FillablePower(requested.Length) && 0.0 <= allowed
      modifies requested
      ensures var spread := plant.Spread(fillable, old(requested[..]), plant.Handed(i));
              var grid := Min(plant.Overpower(i) - plant.Handed(i), allowed);
              requested[..] == spread[i := spread[i] + plant.Handed(i) + grid] && left == allowed - grid
    {
      left := allowed;
      var max := plant.controls[i].powerMax;
      var exported := Clamp(Lerp(0.0, max, plant.powers[i].batSoc - 98.0), 0.0, max);
      assert exported == plant.Overpower(i);
      if exported > 0.0 {
        var p := Min(exported, fillablePower);
        exported := exported - p;
        TakeEqually(plant, requested, fillable, p);
        requested[i] := requested[i] + p;
      } else {
        plant.TakeNothing(fillable, requested[..], |fillable|);
      }
      if exported > 0.0 {
        var rem := Min(exported, left);
        requested[i] := requested[i] + rem;
        left := left - rem;
      }
    }

    static method TakeEqually(plant: Plant, requested: array<real>, fillable: seq<nat>, p: real)
      requires plant.Valid() && |plant.powers| == requested.Length && plant.Order(fillable)
      modifies requested
      ensures requested[..] == plant.Spread(fillable, old(requested[..]), p)
    {
      for m := 0 to |fillable|
        invariant fillable == [] ==> requested[..] == old(requested[..])
        invariant fillable != [] ==>
                    requested[..] == plant.Take(fillable, old(requested[..]), p / |fillable| as real, m)
      {
        var j := fillable[m];
        requested[j] := requested[j] - p / |fillable| as real;
      }
    }
  }
}
