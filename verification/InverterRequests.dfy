/** What a connection asks for, over every run: which registers of a model, how many trackers, and how often. */
module InverterRequests {
  import opened Wrappers
  import opened InverterSteps
  import opened InverterRuns
  import opened InverterCycles
  import opened InverterAnswers
  import opened InverterWalk
  import opened InverterDiscovery
  import opened InverterKeeps

  // ---- the registers of a fetch ----

  /** A fetch waits for a model. */
  predicate Fetches(c: Context) {
    !c.faulted && (c.state.Get? || (c.state == WaitDataResponse && c.pending.Read?))
  }

  /** Over every run a fetch asks for a model where it has been found, and for all of its registers. */
  lemma WholeModelAsked(run: seq<Context>, events: seq<Event>, k: nat)
    requires IsRun(run, events) && k <= |events| && run[k].Valid() && run[k].connected && Fetches(run[k])
    ensures var m := Asked(run[k]); run[k].addr[m] != UNKNOWN && AsksFor(run[k], m)
  {
    RequestsAreSettled(run, events, k);
  }

  /** The sizes of the layouts: the header and what it announces in an inverter that offers everything. */
  lemma SizesExact(addr: map<Model, int>, m: Model)
    requires Total(addr)
    ensures var a := Everything(addr)[m]; ModelOf(Complete(a)) == Some(m) && Size(m) == HDR + Complete(a + 1)
  {
  }

  // ---- the trackers ----

  /** The number of registers to read of the trackers is the length in their header. */
  ghost predicate TrackersNoted(c: Context, dev: Device) {
    c.Valid() && (c.addr[Mppt] != UNKNOWN ==> c.mpptLength == dev(c.addr[Mppt] + 1))
  }

  lemma RecordNotes(w: Context, dev: Device)
    requires TrackersNoted(w, dev) && w.Holds(w.lastAddr, HDR) && w.Behind() == Next(dev, w.lastAddr)
    ensures TrackersNoted(w.Record(), dev)
  {
  }

  lemma SameNotes(c: Context, d: Context, dev: Device)
    requires TrackersNoted(c, dev) && d.Valid() && SameModels(c, d)
    ensures TrackersNoted(d, dev)
  {
  }

  lemma SearchNotes(w: Context, dev: Device)
    requires TrackersNoted(w, dev)
    requires w.Holds(w.lastAddr, HDR) ==> w.Behind() == Next(dev, w.lastAddr)
    ensures TrackersNoted(w.SearchData(), dev)
  {
    if w.Holds(w.lastAddr, HDR) {
      RecordNotes(w, dev);
      FollowKeeps(w.Record(), w.Id(), w.Behind());
      SameNotes(w.Record(), w.SearchData(), dev);
    } else {
      SameNotes(w, w.GiveUp(), dev);
    }
  }

  lemma HeaderHeard(v: Context, dev: Device)
    requires TrackersNoted(v, dev) && !v.faulted
    ensures var w := v.Hear(Some(Slice(dev, v.lastAddr, HDR)));
            || w.faulted
            || (TrackersNoted(w, dev) && (w.Holds(w.lastAddr, HDR) ==> w.Behind() == Next(dev, w.lastAddr)))
  {
    HearKeeps(v, Some(Slice(dev, v.lastAddr, HDR)));
    if v.Holds(v.lastAddr, HDR) && !Trip(v.addr, v.lastAddr) {
      HeaderReceived(v, dev);
    }
  }

  ghost predicate NotedOrFaulted(d: Context, dev: Device) {
    d.faulted || TrackersNoted(d, dev)
  }

  lemma TurnNotes(v: Context, dev: Device, s: nat)
    requires v.state == FindDataHdr && TrackersNoted(v, dev) && !v.faulted
    ensures NotedOrFaulted(v.Turn(Some(Slice(dev, v.lastAddr, HDR)), s), dev)
  {
    var w := v.Hear(Some(Slice(dev, v.lastAddr, HDR)));
    HeaderHeard(v, dev);
    if !w.faulted {
      SearchNotes(w, dev);
    }
  }

  lemma HeaderNotes(c: Context, dev: Device, s: nat)
    requires c.state == FindDataHdr && TrackersNoted(c, dev) && !c.faulted
    ensures NotedOrFaulted(OnAnswer(c, Slice(dev, c.lastAddr, HDR), s), dev)
  {
    var v := c.(pending := Nothing);
    TurnNotes(v, dev, s);
    var d := v.Turn(Some(Slice(dev, v.lastAddr, HDR)), s);
    if !d.faulted {
      SameNotes(d, d.Finish(c.state), dev);
    }
  }

  /** The header that the walk waits for comes from these registers. */
  ghost predicate Genuine(c: Context, e: Event, dev: Device) {
    e.Answer? && c.state == FindDataHdr ==> e.data == Slice(dev, c.lastAddr, HDR)
  }

  lemma AdvanceNotes(c: Context, v: Context, p: Option<seq<nat>>, s: nat, dev: Device)
    requires TrackersNoted(c, dev) && v.Valid() && SameModels(c, v) && v.state != FindDataHdr
    ensures v.Advance(p, s).Valid() ==> TrackersNoted(v.Advance(p, s), dev)
  {
    AdvanceKeeps(v, p, s);
  }

  lemma QuietNotes(c: Context, e: Event, dev: Device)
    requires TrackersNoted(c, dev) && Step(c, e).Valid() && (e.Discover? || e.WaitEnd? || e.Failed?)
    ensures TrackersNoted(Step(c, e), dev)
  {
    SameNotes(c, Step(c, e), dev);
  }

  lemma EventNotes(c: Context, e: Event, dev: Device)
    requires TrackersNoted(c, dev) && Genuine(c, e, dev) && !c.faulted && Step(c, e).Valid()
    requires e.ConnectDone? ==> c.state == Connecting
    ensures NotedOrFaulted(Step(c, e), dev)
  {
    match e
    case ConnectDone(s) => ConnectNotes(c, s, dev);
    case Answer(data, s) => AnswerNotes(c, data, s, dev);
    case Hangup(s) => HangupNotes(c, s, dev);
    case StartFetch(s) => StartNotes(c, s, dev);
    case StartSend(limit, reserve, charge, active, s) => SendNotes(c, limit, reserve, charge, s, dev);
    case Discover(created) => QuietNotes(c, e, dev);
    case WaitEnd => QuietNotes(c, e, dev);
    case Failed => QuietNotes(c, e, dev);
  }

  lemma ConnectNotes(c: Context, s: nat, dev: Device)
    requires c.state == Connecting && TrackersNoted(c, dev) && OnConnect(c, s).Valid()
    ensures NotedOrFaulted(OnConnect(c, s), dev)
  {
    AdvanceNotes(c, c.(pending := Nothing), None, s, dev);
  }

  lemma AnswerNotes(c: Context, data: seq<nat>, s: nat, dev: Device)
    requires TrackersNoted(c, dev) && !c.faulted && OnAnswer(c, data, s).Valid()
    requires c.state == FindDataHdr ==> data == Slice(dev, c.lastAddr, HDR)
    ensures NotedOrFaulted(OnAnswer(c, data, s), dev)
  {
    if c.state == FindDataHdr {
      HeaderNotes(c, dev, s);
    } else {
      AdvanceNotes(c, c.(pending := Nothing), Some(data), s, dev);
    }
  }

  lemma StartNotes(c: Context, s: nat, dev: Device)
    requires TrackersNoted(c, dev) && OnStart(c, s).Valid()
    ensures NotedOrFaulted(OnStart(c, s), dev)
  {
    if CanStart(c) {
      AdvanceNotes(c, c.(waitReceive := true, state := StartDataFetch), None, s, dev);
    }
  }

  lemma HangupNotes(c: Context, s: nat, dev: Device)
    requires TrackersNoted(c, dev) && OnHangup(c, s).Valid()
    ensures NotedOrFaulted(OnHangup(c, s), dev)
  {
    var v := c.(pending := Nothing);
    if v.state == FindDataHdr {
      assert v.Turn(None, s) == v.Crash();
    } else {
      AdvanceNotes(c, v, None, s, dev);
    }
  }

  lemma SendNotes(c: Context, limit: nat, reserve: nat, charge: nat, s: nat, dev: Device)
    requires TrackersNoted(c, dev) && OnSend(c, limit, reserve, charge, s).Valid()
    ensures NotedOrFaulted(OnSend(c, limit, reserve, charge, s), dev)
  {
    if CanStart(c) && c.Held(Controls) && c.Held(Storage) {
      var v := c.Command(limit, reserve, charge).(waitReceive := true, state := SetPowerInverter);
      AdvanceNotes(c, v, None, s, dev);
    }
  }

  lemma {:induction false} TrackersKnown(run: seq<Context>, events: seq<Event>, dev: Device, k: nat)
    requires IsRun(run, events) && k <= |events|
    requires forall i :: 0 <= i < |events| ==> Genuine(run[i], events[i], dev)
    ensures NotedOrFaulted(run[k], dev)
  {
    if k > 0 {
      TrackersKnown(run, events, dev, k - 1);
      RequestsAreSettled(run, events, k - 1);
      RequestsAreSettled(run, events, k);
      assert Follows(run[k - 1], events[k - 1], run[k]) && Genuine(run[k - 1], events[k - 1], dev);
      if !run[k - 1].faulted {
        EventNotes(run[k - 1], events[k - 1], dev);
      }
    }
  }

  /** Over every run with an inverter whose headers do not change, a fetch asks for exactly as many tracker registers as
      the header of the trackers announces. */
  lemma TrackersAsked(run: seq<Context>, events: seq<Event>, dev: Device, k: nat)
    requires IsRun(run, events) && k <= |events|
    requires forall i :: 0 <= i < |events| ==> Genuine(run[i], events[i], dev)
    requires run[k].Valid() && run[k].connected && Fetches(run[k]) && Asked(run[k]) == Mppt
    ensures run[k].pending == Read(run[k].addr[Mppt], dev(run[k].addr[Mppt] + 1))
  {
    TrackersKnown(run, events, dev, k);
    WholeModelAsked(run, events, k);
  }
}
