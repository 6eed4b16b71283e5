/** How often a connection asks for a model: over every run not before its period is over. */
module InverterStamps {
  import opened Wrappers
  import opened InverterSteps
  import opened InverterRuns
  import opened InverterCycles
  import opened InverterAnswers
  import opened InverterKeeps
  import opened InverterRequests

  /** The models that are fetched from time to time. */
  const RATED := {Nameplate, Settings, Status, Storage}

  /** The time since the last fetch is long enough, on a clock of 32 bits. */
  predicate Waited(m: Model, last: nat, s: nat) {
    var since := (s - last) % SECONDS;
    match m
    case Nameplate => 600 <= since
    case Settings => 300 <= since
    case Status => 60 <= since || last == 0
    case Storage => 30 <= since
    case _ => true
  }

  /** On a clock that does not wrap twice that is when the period is over. */
  lemma DueExact(k: nat, last: nat, now: nat)
    requires k < STAGES && last <= now < last + SECONDS
    ensures IsDue(k, last % SECONDS, now % SECONDS)
       <==> match StageModel(k)
            case Nameplate => last + 600 <= now
            case Settings => last + 300 <= now
            case Status => last + 60 <= now || last % SECONDS == 0
            case Storage => last + 30 <= now
            case Controls => last % SECONDS == 0
            case _ => true
  {
    Elapsed(last, now);
  }

  lemma Elapsed(last: nat, now: nat)
    requires last <= now < last + SECONDS
    ensures (now % SECONDS - last % SECONDS) % SECONDS == now - last
  {
    var q := now / SECONDS - last / SECONDS;
    assert now % SECONDS - last % SECONDS == now - last - q * SECONDS;
    assert q == 0 || q == 1;
  }

  /** The event on the way from `c` to `d` has asked for the model. */
  predicate Asks(c: Context, d: Context, m: Model) {
    Fetches(d) && d.pending.Read? && Asked(d) == m && d.sent == c.sent + 1
  }

  /** No read of a rated model is under way. */
  predicate AsksElse(d: Context) {
    || d.faulted || !d.pending.Read?
    || (if d.state.Get? then d.state.stage == 0 else d.state != WaitDataResponse)
  }

  lemma SilentAsksElse(c: Context)
    requires c.Valid() && c.pending == Nothing && Silent(c.state)
    ensures AsksElse(c.Begin())
  {
    match c.state
    case Idle =>
    case Connecting =>
    case EnableStorageControl => EnableStorageAsksElse(c);
    case EnableInverterControl => EnableControlsAsksElse(c);
    case StartDataFetch =>
    case GetInverterInfos =>
  }

  lemma EnableStorageAsksElse(c: Context)
    requires c.Valid() && c.pending == Nothing
    ensures AsksElse(c.EnableStorage())
  {
    if c.addr[Storage] != UNKNOWN && c.Held(Storage) {
      var a := c.addr[Storage] + STOR_CTL_MOD;
      assert c.EnableStorage() == c.Put(a, 3).Tell(a, 1, EnableInverterControl);
    }
  }

  lemma EnableControlsAsksElse(c: Context)
    requires c.Valid() && c.pending == Nothing
    ensures AsksElse(c.EnableControls())
  {
    if c.addr[Controls] != UNKNOWN && c.Held(Controls) {
      var a := c.addr[Controls] + W_MAX_LIM_ENA;
      assert c.EnableControls() == c.Put(a, 1).Tell(a, 1, WaitDataResponse);
    }
  }

  lemma SetupAsksElse(c: Context)
    requires c.Valid() && c.pending == Nothing && NeedsAnswer(c.state)
    ensures AsksElse(c.Setup())
  {
    match c.state
    case CheckSuns =>
    case FindCommonHdr => SearchCommonAsksElse(c);
    case GetCommonInfos =>
    case FindDataHdr => SearchDataAsksElse(c);
  }

  lemma SearchDataAsksElse(c: Context)
    requires c.Valid() && c.pending == Nothing && c.state == FindDataHdr
    ensures AsksElse(c.SearchData())
  {
    if c.Holds(c.lastAddr, HDR) {
      var w := c.Record();
      if c.Id() == END_ID {
        EnableStorageAsksElse(w.(state := EnableStorageControl));
      } else {
        assert w.Follow(c.Id(), c.Behind()) == w.(nextHdr := c.Behind()).Ask(c.Behind(), HDR, FindDataHdr);
      }
    }
  }

  lemma SearchCommonAsksElse(c: Context)
    requires c.Valid() && c.pending == Nothing && c.state == FindCommonHdr
    ensures AsksElse(c.SearchCommon())
  {
    var d := c.SearchCommon();
    if !c.Holds(c.lastAddr, HDR) {
      assert d == c.GiveUp();
    } else if c.Id() == COMMON_ID {
      var e := c.(nextHdr := c.Behind(), commonAddr := c.lastAddr);
      assert d == e.Ask(c.lastAddr + DEVICE_MODEL, NAME_LENGTH, GetCommonInfos);
    } else {
      assert d == c.(nextHdr := c.Behind()).Ask(c.Behind(), HDR, FindCommonHdr);
    }
  }

  lemma WriteAsksElse(c: Context, s: nat)
    requires c.Valid() && c.pending == Nothing && !Silent(c.state) && !NeedsAnswer(c.state) && !c.state.Get?
    ensures AsksElse(c.Work(s))
  {
  }

  /** A turn from any state but those of the refetch asks for none of them and stamps nothing. */
  lemma TurnAsksElse(c: Context, p: Option<seq<nat>>, s: nat)
    requires c.Valid() && c.pending == Nothing && !c.state.Get?
    ensures AsksElse(c.Turn(p, s))
  {
    if Silent(c.state) {
      SilentAsksElse(c);
    } else {
      var h := c.Hear(p);
      if !h.faulted && NeedsAnswer(c.state) {
        SetupAsksElse(h);
      } else if !h.faulted {
        WriteAsksElse(h, s);
      }
    }
  }

  // ---- one event ----

  function TimeOf(e: Event): nat {
    match e
    case ConnectDone(s) => s
    case Answer(_, s) => s
    case Hangup(s) => s
    case StartFetch(s) => s
    case StartSend(_, _, _, _, s) => s
    case _ => 0
  }

  /** What has become of the stamp of `m`: the time of the request if there has been one, which has then been waited
      for; the old one otherwise. */
  predicate Stamped(c: Context, d: Context, m: Model, s: nat)
    requires c.Valid() && d.Valid()
  {
    if Asks(c, d, m) then Waited(m, c.fetched[m], s) && d.fetched[m] == s else d.fetched[m] == c.fetched[m]
  }

  /** What one fetch stamps. */
  lemma {:induction false} FetchFromStamps(c: Context, k: nat, s: nat, m: Model)
    requires c.Valid() && c.pending == Nothing && !c.faulted && k <= STAGES && m in RATED
    ensures Stamped(c, c.FetchFrom(k, s), m, s)
    decreases STAGES - k
  {
    if k < STAGES && c.addr[StageModel(k)] != UNKNOWN {
      if c.Due(k, s) {
        assert c.FetchFrom(k, s) == c.Fetch(k, s);
        FetchStamps(c, k, s, m);
      } else {
        FetchFromStamps(c, k + 1, s, m);
      }
    }
  }

  lemma FetchStamps(c: Context, k: nat, s: nat, m: Model)
    requires c.Valid() && !c.faulted && k < STAGES && m in RATED && c.Due(k, s)
    ensures Stamped(c, c.Fetch(k, s), m, s)
  {
    var d := c.Fetch(k, s);
    assert Fetches(d) && Asked(d) == StageModel(k) && d.sent == c.sent + 1;
  }

  lemma AdvanceStamps(v: Context, p: Option<seq<nat>>, s: nat, m: Model)
    requires v.Valid() && v.pending == Nothing && !v.faulted && m in RATED && v.Advance(p, s).Valid()
    ensures Stamped(v, v.Advance(p, s), m, s)
  {
    if v.state.Get? {
      RefetchStamps(v, p, s, m);
    } else {
      AdvanceKeeps(v, p, s);
      TurnAsksElse(v, p, s);
    }
  }

  lemma RefetchStamps(v: Context, p: Option<seq<nat>>, s: nat, m: Model)
    requires v.Valid() && v.pending == Nothing && !v.faulted && m in RATED && v.Advance(p, s).Valid() && v.state.Get?
    ensures Stamped(v, v.Advance(p, s), m, s)
  {
    HearKeeps(v, p);
    var h := v.Hear(p);
    if h.faulted {
      assert v.Advance(p, s) == h;
    } else {
      var d := h.FetchFrom(v.state.stage, s);
      FetchFromStamps(h, v.state.stage, s, m);
      FinishStamps(h, d, v.state, m, s);
      assert v.Advance(p, s) == if d.faulted then d else d.Finish(v.state);
    }
  }

  lemma FinishStamps(c: Context, d: Context, prev: State, m: Model, s: nat)
    requires c.Valid() && d.Valid() && Stamped(c, d, m, s)
    ensures d.Finish(prev).Valid() && Stamped(c, d.Finish(prev), m, s)
  {
  }

  lemma FromAdvance(c: Context, v: Context, p: Option<seq<nat>>, s: nat, m: Model)
    requires c.Valid() && v.Valid() && v.pending == Nothing && !v.faulted && m in RATED && v.Advance(p, s).Valid()
    requires v.fetched == c.fetched && v.sent == c.sent
    ensures Stamped(c, v.Advance(p, s), m, s)
  {
    AdvanceStamps(v, p, s, m);
  }

  lemma QuietStamps(c: Context, e: Event, m: Model)
    requires c.Valid() && Step(c, e).Valid() && (e.Discover? || e.WaitEnd? || e.Failed?)
    ensures Stamped(c, Step(c, e), m, TimeOf(e))
  {
  }

  lemma StartStamps(c: Context, s: nat, m: Model)
    requires c.Valid() && (CanStart(c) ==> c.pending == Nothing) && !c.faulted && m in RATED && OnStart(c, s).Valid()
    ensures Stamped(c, OnStart(c, s), m, s)
  {
    if CanStart(c) {
      FromAdvance(c, c.(waitReceive := true, state := StartDataFetch), None, s, m);
    }
  }

  lemma SendStamps(c: Context, limit: nat, reserve: nat, charge: nat, s: nat, m: Model)
    requires c.Valid() && (CanStart(c) ==> c.pending == Nothing) && !c.faulted && m in RATED
    requires OnSend(c, limit, reserve, charge, s).Valid()
    ensures Stamped(c, OnSend(c, limit, reserve, charge, s), m, s)
  {
    if CanStart(c) && c.Held(Controls) && c.Held(Storage) {
      var v := c.Command(limit, reserve, charge).(waitReceive := true, state := SetPowerInverter);
      FromAdvance(c, v, None, s, m);
    }
  }

  lemma EventStamps(c: Context, e: Event, m: Model)
    requires c.Valid() && (CanStart(c) ==> c.pending == Nothing) && !c.faulted && m in RATED && Step(c, e).Valid()
    ensures Stamped(c, Step(c, e), m, TimeOf(e))
  {
    match e
    case ConnectDone(s) => FromAdvance(c, c.(pending := Nothing), None, s, m);
    case Answer(data, s) => FromAdvance(c, c.(pending := Nothing), Some(data), s, m);
    case Hangup(s) => FromAdvance(c, c.(pending := Nothing), None, s, m);
    case StartFetch(s) => StartStamps(c, s, m);
    case StartSend(limit, reserve, charge, active, s) =>
      if active {
        SendStamps(c, limit, reserve, charge, s, m);
      }
    case Discover(created) => QuietStamps(c, e, m);
    case WaitEnd => QuietStamps(c, e, m);
    case Failed => QuietStamps(c, e, m);
  }

  // ---- whole runs ----

  /** When the model was last asked for in the first `k` events; 0 if it never was. */
  ghost function LastAsked(run: seq<Context>, events: seq<Event>, m: Model, k: nat): nat
    requires |run| == |events| + 1 && k <= |events|
  {
    if k == 0 then 0
    else if Asks(run[k - 1], run[k], m) then TimeOf(events[k - 1])
    else LastAsked(run, events, m, k - 1)
  }

  lemma IdleIsQuiet(c: Context)
    requires Inv(c)
    ensures CanStart(c) ==> c.pending == Nothing
  {
  }

  lemma {:induction false} StampsAreLast(run: seq<Context>, events: seq<Event>, m: Model, k: nat)
    requires IsRun(run, events) && k <= |events| && m in RATED
    ensures run[k].Valid() && run[k].fetched[m] == LastAsked(run, events, m, k)
  {
    if k == 0 {
      FreshStamps(run, events, m);
    } else {
      StampsAreLast(run, events, m, k - 1);
      RunStamps(run, events, m, k - 1);
      NextStamp(run, events, m, k);
    }
  }

  lemma FreshStamps(run: seq<Context>, events: seq<Event>, m: Model)
    requires IsRun(run, events)
    ensures run[0].Valid() && run[0].fetched[m] == 0
  {
  }

  lemma NextStamp(run: seq<Context>, events: seq<Event>, m: Model, k: nat)
    requires |run| == |events| + 1 && 0 < k <= |events| && run[k - 1].Valid() && run[k].Valid()
    requires run[k - 1].fetched[m] == LastAsked(run, events, m, k - 1)
    requires Stamped(run[k - 1], run[k], m, TimeOf(events[k - 1]))
    ensures run[k].fetched[m] == LastAsked(run, events, m, k)
  {
  }

  lemma RunStamps(run: seq<Context>, events: seq<Event>, m: Model, k: nat)
    requires IsRun(run, events) && k < |events| && m in RATED
    ensures run[k].Valid() && run[k + 1].Valid()
    ensures Stamped(run[k], run[k + 1], m, TimeOf(events[k]))
  {
    RequestsAreSettled(run, events, k);
    RequestsAreSettled(run, events, k + 1);
    assert Follows(run[k], events[k], run[k + 1]);
    if !run[k].faulted {
      IdleIsQuiet(run[k]);
      EventStamps(run[k], events[k], m);
    }
  }

  /** Over every run a model is not asked for before its period is over since it was last asked for. */
  lemma AskedWhenDue(run: seq<Context>, events: seq<Event>, m: Model, k: nat)
    requires IsRun(run, events) && k < |events| && m in RATED && Asks(run[k], run[k + 1], m)
    ensures Waited(m, LastAsked(run, events, m, k), TimeOf(events[k]))
  {
    StampsAreLast(run, events, m, k);
    RunStamps(run, events, m, k);
  }
}
