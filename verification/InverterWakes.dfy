/** Waking up the main task: over every run once for every activity that has come to rest. */
module InverterWakes {
  import opened Wrappers
  import opened InverterSteps
  import opened InverterRuns
  import opened InverterKeeps

  function Busy(c: Context): nat {
    if c.state == Idle then 0 else 1
  }

  /** The balance of wake-ups: those there have been, and the one that an activity under way is still to end with. */
  function Balance(c: Context): nat {
    c.wakeups + Busy(c)
  }

  /** Whether the event begins an activity; a failure reported at rest counts, as it wakes up too. */
  predicate Begins(c: Context, e: Event) {
    !c.faulted && match e
                  case StartFetch(_) => CanStart(c)
                  case StartSend(_, _, _, active, _) => active && CanStart(c)
                  case Discover(created) => created && !c.connected && c.state == Idle
                  case Failed => c.state == Idle
                  case _ => false
  }

  /** The main task waits for every activity under way, and for no connection at rest. */
  predicate WaitsWell(c: Context) {
    if c.state == Idle then c.connected ==> !c.waitReceive else c.waitReceive
  }

  lemma AdvanceWakes(v: Context, p: Option<seq<nat>>, s: nat)
    requires v.Valid() && !v.faulted && (v.state != Idle ==> v.waitReceive)
    ensures var d := v.Advance(p, s); d.faulted || (Balance(d) == Balance(v) && WaitsWell(d))
  {
    TurnKeeps(v, p, s);
  }

  /** What an event adds to the balance. */
  predicate Wakes(c: Context, d: Context, begins: bool) {
    d.faulted || (Balance(d) == Balance(c) + (if begins then 1 else 0) && WaitsWell(d))
  }

  lemma TurnWakes(c: Context, p: Option<seq<nat>>, s: nat)
    requires c.Valid() && !c.faulted && WaitsWell(c)
    ensures Wakes(c, c.(pending := Nothing).Advance(p, s), false)
  {
    AdvanceWakes(c.(pending := Nothing), p, s);
  }

  lemma StartWakes(c: Context, s: nat)
    requires c.Valid() && !c.faulted && WaitsWell(c)
    ensures Wakes(c, OnStart(c, s), CanStart(c))
  {
    AdvanceWakes(c.(waitReceive := true, state := StartDataFetch), None, s);
  }

  lemma SendWakes(c: Context, limit: nat, reserve: nat, charge: nat, s: nat)
    requires c.Valid() && !c.faulted && WaitsWell(c)
    ensures Wakes(c, OnSend(c, limit, reserve, charge, s), CanStart(c))
  {
    if c.Held(Controls) && c.Held(Storage) {
      AdvanceWakes(c.Command(limit, reserve, charge).(waitReceive := true, state := SetPowerInverter), None, s);
    }
  }

  lemma QuietWakes(c: Context, e: Event)
    requires c.Valid() && !c.faulted && WaitsWell(c) && (e.Discover? || e.WaitEnd? || e.Failed?)
    ensures Wakes(c, Step(c, e), Begins(c, e))
  {
  }

  lemma EventWakes(c: Context, e: Event)
    requires c.Valid() && !c.faulted && WaitsWell(c)
    ensures Wakes(c, Step(c, e), Begins(c, e))
  {
    match e
    case ConnectDone(s) => TurnWakes(c, None, s);
    case Answer(data, s) => TurnWakes(c, Some(data), s);
    case Hangup(s) => TurnWakes(c, None, s);
    case StartFetch(s) => StartWakes(c, s);
    case StartSend(limit, reserve, charge, active, s) => SendWakes(c, limit, reserve, charge, s);
    case Discover(created) => QuietWakes(c, e);
    case WaitEnd => QuietWakes(c, e);
    case Failed => QuietWakes(c, e);
  }

  function Begun(run: seq<Context>, events: seq<Event>, k: nat): nat
    requires |run| == |events| + 1 && k <= |events|
  {
    if k == 0 then 0 else Begun(run, events, k - 1) + if Begins(run[k - 1], events[k - 1]) then 1 else 0
  }

  /** Over every run the main task has been woken up exactly once for every activity begun, but for the one under way;
      and it waits for just that one. */
  lemma {:induction false} WokenOnce(run: seq<Context>, events: seq<Event>, k: nat)
    requires IsRun(run, events) && k <= |events|
    ensures run[k].faulted || (Balance(run[k]) == Begun(run, events, k) && WaitsWell(run[k]))
  {
    if k > 0 {
      WokenOnce(run, events, k - 1);
      RequestsAreSettled(run, events, k - 1);
      assert Follows(run[k - 1], events[k - 1], run[k]);
      if !run[k - 1].faulted {
        EventWakes(run[k - 1], events[k - 1]);
      }
    }
  }

  /** The end of a waiting period closes exactly a connection that is to be closed, or that has been busy for the fourth
      period; it is then as good as new, and keeps its name in the second case only. */
  lemma CloseExact(c: Context)
    requires Inv(c) && c.connected
    ensures var d, late := Timeout(c), c.state != Idle && 3 <= c.waitCount;
            && (!d.connected <==> c.requestClose || late)
            && (!d.connected ==> !d.requestClose && d.pending == Nothing && (d.named <==> c.named && late))
            && (late ==> d.waitCount == 0)
            && (d.connected ==> d.named == c.named && d.pending == c.pending && d.waitCount <= 3)
  {
  }
}
