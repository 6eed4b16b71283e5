/** When a power request knows where to write: never cut discovery short, and it always does. */
module InverterReady {
  import opened Wrappers
  import opened InverterSteps
  import opened InverterRuns

  /** Discovery has taken the name and not come to its end yet. */
  predicate Discovering(c: Context) {
    c.named && c.connected && c.state in {FindDataHdr, EnableStorageControl, EnableInverterControl}
  }

  /** The connection is lost in the middle of discovery, but its name is kept. */
  predicate CutShort(c: Context, d: Context) {
    Discovering(c) && !d.faulted && !d.connected && d.named
  }

  /** A named connection knows where to write, or is on its way to. */
  ghost predicate KnowsWhere(c: Context)
    requires c.Valid()
  {
    c.named && !c.faulted ==> Discovering(c) || (c.Held(Controls) && c.Held(Storage))
  }

  /** What one turn may do to name and models. */
  ghost predicate KnowsAfter(c: Context, d: Context) {
    && c.Valid() && d.Valid()
    && (d.faulted || !d.named || Discovering(d) || (d.Held(Controls) && d.Held(Storage)) || SameModels(c, d))
  }

  predicate SameModels(c: Context, d: Context) {
    c.named && d.addr == c.addr && !Discovering(c)
  }

  lemma FetchKnows(c: Context, k: nat, s: nat)
    requires Ready(c) && k <= STAGES && c.state.Get?
    ensures KnowsAfter(c, c.FetchFrom(k, s))
    decreases STAGES - k
  {
    if k < STAGES && c.addr[StageModel(k)] != UNKNOWN && !c.Due(k, s) {
      FetchKnows(c, k + 1, s);
    }
  }

  lemma WorkKnows(c: Context, s: nat)
    requires Ready(c) && !Silent(c.state) && !NeedsAnswer(c.state)
    ensures KnowsAfter(c, c.Work(s))
  {
    if c.state.Get? {
      FetchKnows(c, c.state.stage, s);
    } else if c.state != WaitDataResponse {
      WorkIsTellOne(c, s);
    }
  }

  lemma EnableGoesOn(c: Context)
    requires c.Valid() && c.state == EnableStorageControl
    ensures var d := c.EnableStorage();
            && d.Valid() && d.named == c.named && d.connected == c.connected
            && (d.faulted || d.state in {EnableStorageControl, EnableInverterControl})
  {
    if c.Held(Storage) {
      var a := c.addr[Storage] + STOR_CTL_MOD;
      var e := c.Put(a, 3);
      assert e.Valid() && e.named == c.named && e.connected == c.connected;
      assert c.EnableStorage() == e.Tell(a, 1, EnableInverterControl);
    }
  }

  lemma FollowGoesOn(c: Context, id: nat, behind: int)
    requires c.Valid() && c.state == FindDataHdr
    ensures var d := c.Follow(id, behind);
            && d.Valid() && d.named == c.named && d.connected == c.connected
            && (d.faulted || d.state in {FindDataHdr, EnableStorageControl, EnableInverterControl})
  {
    if id == END_ID {
      EnableGoesOn(c.(state := EnableStorageControl));
    }
  }

  lemma WalkGoesOn(c: Context)
    requires Ready(c) && c.state == FindDataHdr
    ensures KnowsAfter(c, c.SearchData())
  {
    if c.Holds(c.lastAddr, HDR) {
      FollowGoesOn(c.Record(), c.Id(), c.Behind());
    }
  }

  lemma SetupKnows(c: Context)
    requires Ready(c) && NeedsAnswer(c.state)
    ensures KnowsAfter(c, c.Setup())
  {
    if c.state == FindDataHdr {
      WalkGoesOn(c);
    }
  }

  lemma BeginKnows(c: Context)
    requires Ready(c) && Silent(c.state) && c.state != Connecting
    ensures KnowsAfter(c, c.Begin())
  {
  }

  lemma HearKnows(c: Context, h: Context, d: Context)
    requires h.addr == c.addr && h.state == c.state && h.named == c.named && h.connected == c.connected
    requires c.Valid() && KnowsAfter(h, d)
    ensures KnowsAfter(c, d)
  {
  }

  lemma AdvanceKnows(c: Context, p: Option<seq<nat>>, s: nat)
    requires Ready(c) && c.state != Connecting
    ensures KnowsAfter(c, c.Advance(p, s))
  {
    if Silent(c.state) {
      BeginKnows(c);
      FinishKnows(c, c.Begin());
    } else {
      HearReady(c, p);
      var h := c.Hear(p);
      if !h.faulted {
        var d := if NeedsAnswer(c.state) then h.Setup() else h.Work(s);
        if NeedsAnswer(c.state) {
          SetupKnows(h);
        } else {
          WorkKnows(h, s);
        }
        HearKnows(c, h, d);
        FinishKnows(c, d);
      }
    }
  }

  lemma FinishKnows(c: Context, d: Context)
    requires KnowsAfter(c, d)
    ensures KnowsAfter(c, d.Finish(c.state))
  {
  }

  lemma KnowsOn(c: Context, d: Context)
    requires c.Valid() && !c.faulted && KnowsWhere(c) && KnowsAfter(c.(pending := Nothing), d)
    ensures KnowsWhere(d)
  {
  }

  lemma TurnKnows(c: Context, p: Option<seq<nat>>, s: nat)
    requires Inv(c) && c.connected && KnowsWhere(c)
    ensures var d := c.(pending := Nothing).Advance(p, s); d.Valid() && KnowsWhere(d)
  {
    SettledReady(c);
    AdvanceKnows(c.(pending := Nothing), p, s);
    KnowsOn(c, c.(pending := Nothing).Advance(p, s));
  }

  lemma EventKnows(c: Context, e: Event)
    requires Inv(c) && Legal(c, e) && KnowsWhere(c) && !CutShort(c, Step(c, e))
    ensures Step(c, e).Valid() && KnowsWhere(Step(c, e))
  {
    match e
    case Answer(data, s) => TurnKnows(c, Some(data), s);
    case Hangup(s) => TurnKnows(c, None, s);
    case StartFetch(s) => StartKnows(c, s);
    case StartSend(limit, reserve, charge, active, s) => SendKnows(c, limit, reserve, charge, s);
    case ConnectDone(s) => ConnectKnows(c, s);
    case Discover(created) =>
    case WaitEnd => LossKeepsModels(c, e);
    case Failed => LossKeepsModels(c, e);
  }

  lemma ConnectKnows(c: Context, s: nat)
    requires Inv(c) && c.pending == Connect && KnowsWhere(c)
    ensures OnConnect(c, s).Valid() && KnowsWhere(OnConnect(c, s))
  {
  }

  lemma StartKnows(c: Context, s: nat)
    requires Inv(c) && KnowsWhere(c)
    ensures OnStart(c, s).Valid() && KnowsWhere(OnStart(c, s))
  {
    if CanStart(c) {
      AdvanceKnows(c.(waitReceive := true, state := StartDataFetch), None, s);
    }
  }

  lemma SendKnows(c: Context, limit: nat, reserve: nat, charge: nat, s: nat)
    requires Inv(c) && KnowsWhere(c)
    ensures var d := OnSend(c, limit, reserve, charge, s); d.Valid() && KnowsWhere(d)
  {
    if CanStart(c) && c.Held(Controls) && c.Held(Storage) {
      AdvanceKnows(c.Command(limit, reserve, charge).(waitReceive := true, state := SetPowerInverter), None, s);
    }
  }

  /** Discovery has not been cut short in the first `k` events. */
  ghost predicate Uncut(run: seq<Context>, k: nat)
    requires k < |run|
  {
    forall i :: 0 <= i < k ==> !CutShort(run[i], run[i + 1])
  }

  /** Over every run in which discovery was never cut short: whenever a power request may start, both models it writes
      to are known and held, so it cannot follow a null pointer. */
  lemma {:induction false} UncutIsReady(run: seq<Context>, events: seq<Event>, k: nat)
    requires IsRun(run, events) && k <= |events| && Uncut(run, k)
    ensures run[k].Valid() && KnowsWhere(run[k])
    ensures !run[k].faulted && CanStart(run[k]) ==> run[k].Held(Controls) && run[k].Held(Storage)
  {
    RequestsAreSettled(run, events, k);
    if k > 0 {
      UncutIsReady(run, events, k - 1);
      RequestsAreSettled(run, events, k - 1);
      assert Follows(run[k - 1], events[k - 1], run[k]);
      if !run[k - 1].faulted {
        EventKnows(run[k - 1], events[k - 1]);
      }
    }
  }

  // ---- cutting discovery short ----

  /** Discovery is cut short by exactly these events. */
  lemma CutShortExact(c: Context, e: Event)
    requires Inv(c) && Legal(c, e)
    ensures CutShort(c, Step(c, e)) <==> Discovering(c) && (e.Failed? || (e.WaitEnd? && 3 <= c.waitCount))
  {
    EventKeepsInv(c, e);
    match e
    case Answer(data, s) => StaysConnected(c, Some(data), s);
    case Hangup(s) => StaysConnected(c, None, s);
    case ConnectDone(s) =>
    case StartFetch(s) =>
    case StartSend(limit, reserve, charge, active, s) =>
    case Discover(created) =>
    case WaitEnd =>
    case Failed =>
  }

  lemma StaysConnected(c: Context, p: Option<seq<nat>>, s: nat)
    requires Inv(c) && c.connected
    ensures var d := c.(pending := Nothing).Advance(p, s); d.faulted || d.connected
  {
    SettledReady(c);
    AdvanceTurns(c.(pending := Nothing), p, s);
  }

  function Reconnected(c: Context, s: nat): Context
    requires c.Valid()
  {
    OnConnect(OnDiscover(c, true), s)
  }

  lemma NameSkipsDiscovery(c: Context, s: nat)
    requires c.Valid() && !c.faulted && !c.connected && c.named
    ensures OnDiscover(c, true).pending == Connect
    ensures CanStart(Reconnected(c, s)) && Reconnected(c, s).addr == c.addr
  {
  }

  lemma LossKeepsModels(c: Context, e: Event)
    requires Inv(c) && (e.Failed? || e.WaitEnd?)
    ensures var d := Step(c, e); d.Valid() && d.addr == c.addr
  {
  }

  /** After that the inverter counts as ready as soon as it is connected again, with the addresses found so far and
      without a second walk. */
  lemma CutShortSkipsDiscovery(c: Context, e: Event, s: nat)
    requires Inv(c) && Legal(c, e) && CutShort(c, Step(c, e))
    ensures var d := Step(c, e);
            && d.Valid() && Legal(OnDiscover(d, true), ConnectDone(s))
            && CanStart(Reconnected(d, s)) && Reconnected(d, s).addr == c.addr
  {
    CutShortExact(c, e);
    LossKeepsModels(c, e);
    NameSkipsDiscovery(Step(c, e), s);
  }

  // ---- a run that does follow one ----

  /** What brings a new connection to an inverter up to its name. */
  function Naming(): seq<Event> {
    [] + [Discover(true)] + [ConnectDone(0)] + [Answer(SUNS, 0)] + [Answer([COMMON_ID, 66], 0)] + [Answer(Blank(), 0)]
  }

  function Blank(): (name: seq<nat>)
    ensures |name| == NAME_LENGTH
  {
    seq(NAME_LENGTH, _ => 0)
  }

  /** A context that waits for `count` registers at `a` and has found no model yet. */
  ghost predicate Asking(c: Context, state: State, a: int, count: nat) {
    && c.Valid() && !c.faulted && c.connected && !c.requestClose && c.state == state && c.lastAddr == a
    && c.pending == Read(a, count) && c.waitCount == 0 && forall m: Model :: c.addr[m] == UNKNOWN
  }

  lemma SunsGiven(c: Context)
    requires Asking(c, CheckSuns, OFFSET, HDR)
    ensures Asking(Step(c, Answer(SUNS, 0)), FindCommonHdr, OFFSET + HDR, HDR)
  {
    var d := c.(pending := Nothing).Parse(SUNS);
    assert d.regs[..HDR] == SUNS;
  }

  lemma CommonGiven(c: Context)
    requires Asking(c, FindCommonHdr, OFFSET + HDR, HDR)
    ensures var d := Step(c, Answer([COMMON_ID, 66], 0));
            Asking(d, GetCommonInfos, OFFSET + HDR + DEVICE_MODEL, NAME_LENGTH)
  {
    var d := c.(pending := Nothing).Parse([COMMON_ID, 66]);
    assert d.regs[HDR] == COMMON_ID;
  }

  lemma NameGiven(c: Context)
    requires Asking(c, GetCommonInfos, OFFSET + HDR + DEVICE_MODEL, NAME_LENGTH)
    ensures var d := Step(c, Answer(Blank(), 0));
            Asking(d, FindDataHdr, d.lastAddr, HDR) && d.named
  {
  }

  /** A run of a new connection through these events ends in this context. */
  ghost predicate Leads(events: seq<Event>, c: Context) {
    exists run :: IsRun(run, events) && run[|events|] == c
  }

  lemma Starts()
    ensures Leads([], FreshContext())
  {
    assert IsRun([FreshContext()], []);
  }

  lemma Extend(events: seq<Event>, c: Context, e: Event)
    requires Leads(events, c) && c.Valid() && (!c.faulted ==> Legal(c, e))
    ensures Leads(events + [e], Step(c, e))
  {
    var run :| IsRun(run, events) && run[|events|] == c;
    var longer := run + [Step(c, e)];
    forall i | 0 <= i < |events| + 1 ensures Follows(longer[i], (events + [e])[i], longer[i + 1]) {
      if i < |events| {
        assert Follows(run[i], events[i], run[i + 1]);
      }
    }
    assert IsRun(longer, events + [e]);
  }

  /** Through these events a new connection comes to wait for the name. */
  ghost predicate AsksFor(events: seq<Event>, state: State, a: int, count: nat) {
    exists c :: Leads(events, c) && Asking(c, state, a, count)
  }

  lemma MarkGiven()
    ensures AsksFor([] + [Discover(true)] + [ConnectDone(0)] + [Answer(SUNS, 0)], FindCommonHdr, OFFSET + HDR, HDR)
  {
    Starts();
    Extend([], FreshContext(), Discover(true));
    var c := OnDiscover(FreshContext(), true);
    Extend([] + [Discover(true)], c, ConnectDone(0));
    c := OnConnect(c, 0);
    SunsGiven(c);
    Extend([] + [Discover(true)] + [ConnectDone(0)], c, Answer(SUNS, 0));
  }

  /** Through its events a new connection comes to know the name, and waits for the first header behind it. */
  ghost predicate ComesToName(events: seq<Event>) {
    exists c :: Leads(events, c) && Asking(c, FindDataHdr, c.lastAddr, HDR) && c.named
  }

  lemma UpToName()
    ensures ComesToName(Naming())
  {
    MarkGiven();
    var events := [] + [Discover(true)] + [ConnectDone(0)] + [Answer(SUNS, 0)];
    var c :| Leads(events, c) && Asking(c, FindCommonHdr, OFFSET + HDR, HDR);
    CommonGiven(c);
    Extend(events, c, Answer([COMMON_ID, 66], 0));
    var d := Step(c, Answer([COMMON_ID, 66], 0));
    NameGiven(d);
    Extend(events + [Answer([COMMON_ID, 66], 0)], d, Answer(Blank(), 0));
  }

  /** Then four waiting periods pass and it is connected again. */
  function Silenced(): seq<Event> {
    Naming() + [WaitEnd] + [WaitEnd] + [WaitEnd] + [WaitEnd] + [Discover(true)] + [ConnectDone(0)]
  }

  /** A context that still waits for its answer after `n` waiting periods, or has been closed in the fourth. */
  ghost predicate Waited(c: Context, n: nat) {
    && c.Valid() && !c.faulted && c.named && (forall m: Model :: c.addr[m] == UNKNOWN) && !c.requestClose
    && (if n < 4 then c.connected && c.state == FindDataHdr && c.waitCount == n else !c.connected)
  }

  lemma OneMore(c: Context, n: nat)
    requires Waited(c, n) && n < 4
    ensures Waited(Step(c, WaitEnd), n + 1)
  {
  }

  /** Through these events it still waits for the header, or has been closed. */
  ghost predicate ComesToWait(events: seq<Event>, n: nat) {
    exists c :: Leads(events, c) && Waited(c, n)
  }

  lemma WaitsOn(events: seq<Event>, n: nat)
    requires ComesToWait(events, n) && n < 4
    ensures ComesToWait(events + [WaitEnd], n + 1)
  {
    var c :| Leads(events, c) && Waited(c, n);
    OneMore(c, n);
    Extend(events, c, WaitEnd);
  }

  lemma UpToSilence()
    ensures ComesToWait(Naming() + [WaitEnd] + [WaitEnd] + [WaitEnd] + [WaitEnd], 4)
  {
    UpToName();
    assert ComesToWait(Naming(), 0);
    WaitsOn(Naming(), 0);
    WaitsOn(Naming() + [WaitEnd], 1);
    WaitsOn(Naming() + [WaitEnd] + [WaitEnd], 2);
    WaitsOn(Naming() + [WaitEnd] + [WaitEnd] + [WaitEnd], 3);
  }

  /** Power requests may start, but follow a null pointer: no model is known. */
  ghost predicate ReadyKnowingNothing(c: Context) {
    && c.Valid() && !c.faulted && CanStart(c) && (forall m: Model :: c.addr[m] == UNKNOWN)
    && forall l: nat, r: nat, h: nat, s: nat :: Step(c, StartSend(l, r, h, true, s)).faulted
  }

  /** A run of a new connection at whose end that is so. */
  lemma SilenceMakesSendFault()
    ensures exists run :: IsRun(run, Silenced()) && ReadyKnowingNothing(run[|Silenced()|])
  {
    UpToSilence();
    var before := Naming() + [WaitEnd] + [WaitEnd] + [WaitEnd] + [WaitEnd];
    var c :| Leads(before, c) && Waited(c, 4);
    NameSkipsDiscovery(c, 0);
    Extend(before, c, Discover(true));
    Extend(before + [Discover(true)], OnDiscover(c, true), ConnectDone(0));
    assert Leads(Silenced(), Reconnected(c, 0)) && ReadyKnowingNothing(Reconnected(c, 0));
    var run :| IsRun(run, Silenced()) && run[|Silenced()|] == Reconnected(c, 0);
  }
}
