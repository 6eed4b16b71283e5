/** Runs of the filter that smooths the home's power, with its buttons pressed in between. */
module HomeFilter {
  import opened Distribution

  datatype Filter = Filter(alpha: real, power: real, invert: bool)

  /** What can happen: a new measurement, or a press of one of the three buttons. */
  datatype Event = Measure(home: real) | Faster | Stabler | Invert

  const START := Filter(0.1, 0.0, false)

  function Step(f: Filter, e: Event): Filter {
    match e
    case Measure(home) => f.(power := Lerp(if f.invert then -home else home, f.power, f.alpha))
    case Faster => f.(alpha := 0.9 * f.alpha)
    case Stabler => f.(alpha := 1.0 - 0.9 * (1.0 - f.alpha))
    case Invert => f.(invert := !f.invert)
  }

  function Run(f: Filter, events: seq<Event>): Filter {
    if events == [] then f else Step(Run(f, events[..|events| - 1]), events[|events| - 1])
  }

  function Abs(x: real): real { if x < 0.0 then -x else x }

  function Pow(x: real, n: nat): real {
    if n == 0 then 1.0 else x * Pow(x, n - 1)
  }

  lemma ProductNotNegative(x: real, y: real)
    requires 0.0 <= x && 0.0 <= y
    ensures 0.0 <= x * y
  {
  }

  lemma LerpSlack(a: real, b: real, t: real, bound: real)
    ensures bound - Lerp(a, b, t) == (1.0 - t) * (bound - a) + t * (bound - b)
    ensures Lerp(a, b, t) + bound == (1.0 - t) * (a + bound) + t * (b + bound)
  {
  }

  lemma LerpBetween(a: real, b: real, t: real, bound: real)
    requires 0.0 <= t <= 1.0 && Abs(a) <= bound && Abs(b) <= bound
    ensures Abs(Lerp(a, b, t)) <= bound
  {
    LerpSlack(a, b, t, bound);
    ProductNotNegative(1.0 - t, bound - a);
    ProductNotNegative(t, bound - b);
    ProductNotNegative(1.0 - t, a + bound);
    ProductNotNegative(t, b + bound);
    assert 0.0 <= bound - Lerp(a, b, t) && 0.0 <= Lerp(a, b, t) + bound;
  }

  /** However updates and button presses interleave, the filter factor stays strictly between 0 and 1 and the
      filtered power never exceeds the largest measurement in magnitude. */
  lemma {:induction false} RunBounded(events: seq<Event>, bound: real)
    requires 0.0 <= bound && forall i :: 0 <= i < |events| && events[i].Measure? ==> Abs(events[i].home) <= bound
    ensures 0.0 < Run(START, events).alpha < 1.0
    ensures Abs(Run(START, events).power) <= bound
  {
    if events != [] {
      var before, e := Run(START, events[..|events| - 1]), events[|events| - 1];
      RunBounded(events[..|events| - 1], bound);
      if e.Measure? {
        LerpBetween(if before.invert then -e.home else e.home, before.power, before.alpha, bound);
      }
    }
  }

  // ---- what the buttons do ----

  /** What a measurement stands for. */
  function Target(f: Filter, home: real): real {
    if f.invert then -home else home
  }

  /** Behind the faster button a measurement leaves nine tenths of the error it would have left. */
  lemma FasterFollows(f: Filter, home: real)
    ensures Step(Step(f, Faster), Measure(home)).power - Target(f, home)
         == 0.9 * (Step(f, Measure(home)).power - Target(f, home))
  {
    var e := f.power - Target(f, home);
    assert f.alpha * 0.9 * e == 0.9 * (f.alpha * e);
  }

  /** Behind the stabler button it moves the power by nine tenths of what it would have moved it. */
  lemma StablerStays(f: Filter, home: real)
    ensures Step(Step(f, Stabler), Measure(home)).power - f.power == 0.9 * (Step(f, Measure(home)).power - f.power)
  {
    var e := Target(f, home) - f.power;
    assert 0.9 * (1.0 - f.alpha) * e == 0.9 * ((1.0 - f.alpha) * e);
  }

  function Negated(events: seq<Event>): (negated: seq<Event>)
    ensures |negated| == |events|
  {
    seq(|events|, i requires 0 <= i < |events| => if events[i].Measure? then Measure(-events[i].home) else events[i])
  }

  /** Behind the invert button every run is that of the opposite measurements. */
  lemma {:induction false} InvertNegates(f: Filter, events: seq<Event>)
    ensures var run := Run(f, events); Run(Step(f, Invert), Negated(events)) == run.(invert := !run.invert)
  {
    if events != [] {
      var before := events[..|events| - 1];
      InvertNegates(f, before);
      assert Negated(events)[..|events| - 1] == Negated(before);
    }
  }

  function Constant(home: real, n: nat): (events: seq<Event>)
    ensures |events| == n && forall i :: 0 <= i < n ==> events[i] == Measure(home)
  {
    if n == 0 then [] else Constant(home, n - 1) + [Measure(home)]
  }

  /** The filtered power after `n` measurements that all stand for `target`. */
  function Updates(power: real, target: real, alpha: real, n: nat): real {
    if n == 0 then power else Lerp(target, Updates(power, target, alpha, n - 1), alpha)
  }

  /** A run of equal measurements is that sequence. */
  lemma {:induction false} RunIsUpdates(f: Filter, home: real, n: nat)
    ensures Run(f, Constant(home, n))
         == f.(power := Updates(f.power, Target(f, home), f.alpha, n))
  {
    if n > 0 {
      RunIsUpdates(f, home, n - 1);
      assert Constant(home, n)[..n - 1] == Constant(home, n - 1);
    }
  }

  /** The error against the target shrinks by the filter factor with every update. */
  lemma {:induction false} ErrorDecays(power: real, target: real, alpha: real, n: nat, first: real)
    requires first == power - target
    ensures Updates(power, target, alpha, n) == target + Pow(alpha, n) * first
  {
    if n > 0 {
      ErrorDecays(power, target, alpha, n - 1, first);
      LerpOnto(target, alpha, Updates(power, target, alpha, n - 1), Pow(alpha, n - 1), first);
    }
  }

  lemma LerpOnto(target: real, alpha: real, power: real, p: real, first: real)
    requires power == target + p * first
    ensures Lerp(target, power, alpha) == target + (alpha * p) * first
  {
    LerpError(target, power, alpha);
    Compose(alpha, p, first, power - target);
  }

  lemma LerpError(target: real, power: real, alpha: real)
    ensures Lerp(target, power, alpha) - target == alpha * (power - target)
  {
  }

  lemma Compose(alpha: real, p: real, e0: real, e1: real)
    requires e1 == p * e0
    ensures alpha * e1 == (alpha * p) * e0
  {
  }
}
