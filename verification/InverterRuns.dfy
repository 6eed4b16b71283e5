/** Runs of an inverter connection: what every event keeps, one request at a time, and one parse for every answer. */
module InverterRuns {
  import opened Wrappers
  import opened InverterSteps

  // ---- everything that can happen to a connection ----

  datatype Event =
    | Discover(created: bool)             // try to connect; `created` tells whether there is a control block
    | ConnectDone(s: nat)
    | Answer(data: seq<nat>, s: nat)      // the other side answers the outstanding request
    | Hangup(s: nat)                      // the other side closes, which the stack reports as an answer that is null
    | StartFetch(s: nat)
    | StartSend(limit: nat, reserve: nat, charge: nat, active: bool, s: nat)
    | WaitEnd                             // the end of one waiting period
    | Failed

  predicate Outstanding(c: Context) {
    c.pending.Read? || c.pending.Write?
  }

  /** The environment calls back only for what was asked for, and an answer to a read carries what was asked for. */
  predicate Legal(c: Context, e: Event) {
    match e
    case ConnectDone(_) => c.pending == Connect
    case Answer(data, _) => Outstanding(c) && |data| == (if c.pending.Read? then c.pending.count else 0)
    case Hangup(_) => c.connected
    case Discover(_) => true
    case StartFetch(_) => true
    case StartSend(_, _, _, _, _) => true
    case WaitEnd => true
    case Failed => true
  }

  function Timeout(c: Context): Context {
    var d := if c.state == Idle then c.(waitCount := 0, waitReceive := false) else c;
    var late := d.waitCount + 1 > 3;
    var e := d.(waitCount := if late then 0 else d.waitCount + 1);
    if e.requestClose || late
    then e.(connected := false, requestClose := false, pending := Nothing, named := e.named && late)
    else e
  }

  predicate CanStart(c: Context) {
    c.named && c.connected && c.state == Idle
  }

  function OnConnect(c: Context, s: nat): Context
    requires c.Valid()
  {
    c.(pending := Nothing).Advance(None, s)
  }

  function OnAnswer(c: Context, data: seq<nat>, s: nat): Context
    requires c.Valid()
  {
    c.(pending := Nothing).Advance(Some(data), s)
  }

  /** Whatever is outstanding will not be answered any more. */
  function OnHangup(c: Context, s: nat): Context
    requires c.Valid()
  {
    c.(pending := Nothing).Advance(None, s)
  }

  function OnStart(c: Context, s: nat): Context
    requires c.Valid()
  {
    if CanStart(c) then c.(waitReceive := true, state := StartDataFetch).Advance(None, s) else c
  }

  /** The values go into the registers of both models before anybody looks whether there are any. */
  function OnSend(c: Context, limit: nat, reserve: nat, charge: nat, s: nat): Context
    requires c.Valid()
  {
    if !CanStart(c) then c
    else if !c.Held(Controls) || !c.Held(Storage) then c.Crash()
    else c.Command(limit, reserve, charge).(waitReceive := true, state := SetPowerInverter).Advance(None, s)
  }

  function OnDiscover(c: Context, created: bool): Context {
    if created && !c.connected then c.(state := Connecting, waitReceive := true, pending := Connect) else c
  }

  function OnFailure(c: Context): Context {
    c.(connected := false, state := Idle, pending := Nothing, wakeups := c.wakeups + 1)
  }

  function Step(c: Context, e: Event): Context
    requires c.Valid()
  {
    if c.faulted then c
    else
      match e
      case Discover(created) => OnDiscover(c, created)
      case ConnectDone(s) => OnConnect(c, s)
      case Answer(data, s) => OnAnswer(c, data, s)
      case Hangup(s) => OnHangup(c, s)
      case StartFetch(s) => OnStart(c, s)
      case StartSend(limit, reserve, charge, active, s) => if active then OnSend(c, limit, reserve, charge, s) else c
      case WaitEnd => Timeout(c)
      case Failed => OnFailure(c)
  }

  // ---- what every event keeps ----

  const WAITING := {CheckSuns, FindCommonHdr, GetCommonInfos, FindDataHdr, EnableInverterControl, WaitDataResponse,
                    SetPowerStorage, SetMinSocStorage}

  /** States that read a header. */
  const HEADERS := {CheckSuns, FindCommonHdr, FindDataHdr}

  ghost predicate Sane(c: Context)
    requires c.Valid()
  {
    forall m: Model :: c.addr[m] == UNKNOWN || OFFSET <= c.addr[m]
  }

  /** The model whose answer a refetch stage waits for. */
  function AskedFor(k: StageIndex): Model {
    if k == 0 then Inverter else StageModel(k - 1)
  }

  /** What the state tells about the models and the walk. */
  ghost predicate StateFits(c: Context)
    requires c.Valid()
  {
    && (c.state in {SetPowerInverter, SetPowerStorage, SetMinSocStorage} ==> c.Held(Controls) && c.Held(Storage))
    && (c.state == EnableInverterControl ==> c.Held(Storage))
    && (c.state == GetCommonInfos ==> OFFSET <= c.nextHdr)
  }

  /** How many registers of a model are read: all it has by its layout, or the trackers that its header announced. */
  function Registers(c: Context, m: Model): nat {
    if m == Mppt then Nat(c.mpptLength) else Size(m)
  }

  /** The outstanding request is for these registers, where the model has been found. */
  ghost predicate AsksFor(c: Context, m: Model)
    requires c.Valid()
  {
    c.pending == Read(c.addr[m], Registers(c, m))
  }

  /** What the outstanding request is for. */
  ghost predicate RequestFits(c: Context)
    requires c.Valid()
  {
    && (Outstanding(c) ==> OFFSET <= c.lastAddr && (c.state in WAITING || c.state.Get?))
    && (c.pending.Read? ==> c.pending.at == c.lastAddr)
    && (c.pending.Write? ==> c.pending.to == c.lastAddr)
    && (c.state in HEADERS && Outstanding(c) ==> c.pending == Read(c.lastAddr, HDR))
    && (c.state == GetCommonInfos && Outstanding(c) ==> c.pending == Read(c.lastAddr, NAME_LENGTH))
    && (c.state.Get? ==> c.pending.Read? && AsksFor(c, AskedFor(c.state.stage)))
    && (c.state == WaitDataResponse && c.pending.Read? ==> AsksFor(c, Storage))
    && (c.state in {SetPowerStorage, SetMinSocStorage} ==> !c.pending.Read?)
  }

  /** A connected context between two events: idle with nothing outstanding, or with exactly one outstanding request
      that its answer will be decoded against, or about to be closed. */
  ghost predicate Settled(c: Context) {
    && c.Valid() && Sane(c) && c.connected && !c.faulted
    && (if c.pending == Nothing then c.state == Idle || c.requestClose else Outstanding(c))
    && (c.state == Idle ==> c.pending == Nothing)
    && c.state !in {SetPowerInverter, Connecting, StartDataFetch, GetInverterInfos}
    && StateFits(c) && RequestFits(c)
  }

  ghost predicate Inv(c: Context) {
    if c.connected then Settled(c)
    else c.Valid() && Sane(c) && !c.faulted && (c.pending == Nothing || (c.pending == Connect && c.state == Connecting))
  }

  /** `d` follows from `c`, in which nothing was outstanding, by one turn: at most one request went out. */
  ghost predicate OneTurn(c: Context, d: Context) {
    if d.faulted then d.Valid() && d.pending == Nothing && d.sent == c.sent
    else Settled(d) && d.sent == c.sent + if d.pending == Nothing then 0 else 1
  }

  /** The parts of a context that a turn may start from. */
  ghost predicate Ready(c: Context) {
    c.Valid() && Sane(c) && c.connected && !c.faulted && c.pending == Nothing && StateFits(c)
  }

  lemma AskTurn(c: Context, a: int, count: nat, next: State)
    requires Ready(c) && OFFSET <= a && next in {CheckSuns, FindCommonHdr, GetCommonInfos, FindDataHdr}
    requires if next == GetCommonInfos then OFFSET <= c.nextHdr && count == NAME_LENGTH else count == HDR
    ensures OneTurn(c, c.Ask(a, count, next))
  {
  }

  lemma TellTurn(c: Context, a: int, next: State)
    requires Ready(c) && c.Holds(a, 1)
    requires next in {EnableInverterControl, WaitDataResponse, SetPowerStorage, SetMinSocStorage}
    requires next in {SetPowerStorage, SetMinSocStorage} ==> c.Held(Controls)
    requires next != WaitDataResponse ==> c.Held(Storage)
    ensures OneTurn(c, c.Tell(a, 1, next))
  {
  }

  lemma GiveUpTurn(c: Context)
    requires Ready(c) && (NeedsAnswer(c.state) || c.state in {EnableStorageControl, EnableInverterControl})
    ensures OneTurn(c, c.GiveUp())
  {
  }

  lemma AbortTurn(c: Context)
    requires Ready(c)
    ensures OneTurn(c, c.Abort()) && OneTurn(c, c.(state := Idle))
  {
  }

  lemma FetchTurn(c: Context, k: nat, s: nat)
    requires Ready(c) && k < STAGES && c.addr[StageModel(k)] != UNKNOWN
    ensures OneTurn(c, c.Fetch(k, s))
  {
  }

  lemma FetchTurns(c: Context, k: nat, s: nat)
    requires Ready(c) && k <= STAGES
    ensures OneTurn(c, c.FetchFrom(k, s)) && !c.FetchFrom(k, s).faulted
    decreases STAGES - k
  {
    AbortTurn(c);
    if k < STAGES && c.addr[StageModel(k)] != UNKNOWN {
      if c.Due(k, s) {
        FetchTurn(c, k, s);
      } else {
        FetchTurns(c, k + 1, s);
      }
    }
  }

  lemma FetchInverterTurns(c: Context)
    requires Ready(c)
    ensures OneTurn(c, c.FetchInverter()) && !c.FetchInverter().faulted
  {
    AbortTurn(c);
  }

  /** Listening to an answer ends in a null pointer, or leaves a context to go on from. */
  lemma HearReady(c: Context, p: Option<seq<nat>>)
    requires Ready(c)
    ensures var d := c.Hear(p);
            && d.Valid() && d.sent == c.sent && d.state == c.state && d.pending == Nothing && (!d.faulted ==> Ready(d))
  {
  }

  lemma RecordReady(c: Context)
    requires Ready(c) && c.Holds(c.lastAddr, HDR) && c.state == FindDataHdr
    ensures Ready(c.Record()) && c.Record().sent == c.sent && c.Record().state == c.state
  {
  }

  lemma EnableStorageTurn(c: Context)
    requires Ready(c) && c.state == EnableStorageControl
    ensures OneTurn(c, c.EnableStorage())
  {
    GiveUpTurn(c);
    if c.Held(Storage) {
      var a := c.addr[Storage] + STOR_CTL_MOD;
      TellTurn(c.Put(a, 3), a, EnableInverterControl);
    }
  }

  lemma EnableControlsTurn(c: Context)
    requires Ready(c) && c.state == EnableInverterControl
    ensures OneTurn(c, c.EnableControls())
  {
    GiveUpTurn(c);
    if c.Held(Controls) {
      var a := c.addr[Controls] + W_MAX_LIM_ENA;
      TellTurn(c.Put(a, 1), a, WaitDataResponse);
    }
  }

  lemma FollowTurn(c: Context, id: nat, behind: int)
    requires Ready(c) && c.state == FindDataHdr && OFFSET <= behind
    ensures OneTurn(c, c.Follow(id, behind))
  {
    if id == END_ID {
      EnableStorageTurn(c.(state := EnableStorageControl));
    } else {
      AskTurn(c.(nextHdr := behind), behind, HDR, FindDataHdr);
    }
  }

  lemma WalkTurns(c: Context)
    requires Ready(c) && c.state == FindDataHdr
    ensures OneTurn(c, c.SearchData())
  {
    if c.Holds(c.lastAddr, HDR) {
      RecordReady(c);
      FollowTurn(c.Record(), c.Id(), c.Behind());
    } else {
      GiveUpTurn(c);
    }
  }

  lemma CheckTurn(c: Context)
    requires Ready(c) && c.state == CheckSuns
    ensures OneTurn(c, c.CheckHeader())
  {
    GiveUpTurn(c);
    if c.Holds(c.lastAddr, HDR) {
      AskTurn(c, c.lastAddr + HDR, HDR, FindCommonHdr);
    }
  }

  lemma NameTurn(c: Context)
    requires Ready(c) && c.state == GetCommonInfos
    ensures OneTurn(c, c.TakeName())
  {
    GiveUpTurn(c);
    AskTurn(c.(named := true), c.nextHdr, HDR, FindDataHdr);
  }

  lemma CommonTurn(c: Context)
    requires Ready(c) && c.state == FindCommonHdr
    ensures OneTurn(c, c.SearchCommon())
  {
    GiveUpTurn(c);
    if c.Holds(c.lastAddr, HDR) {
      var d := c.(nextHdr := c.Behind());
      AskTurn(d.(commonAddr := c.lastAddr), c.lastAddr + DEVICE_MODEL, NAME_LENGTH, GetCommonInfos);
      AskTurn(d, c.Behind(), HDR, FindCommonHdr);
    }
  }

  lemma SetupTurns(c: Context)
    requires Ready(c) && NeedsAnswer(c.state)
    ensures OneTurn(c, c.Setup())
  {
    match c.state
    case CheckSuns => CheckTurn(c);
    case FindCommonHdr => CommonTurn(c);
    case GetCommonInfos => NameTurn(c);
    case FindDataHdr => WalkTurns(c);
  }

  lemma BeginTurns(c: Context)
    requires Ready(c) && Silent(c.state) && c.state != Connecting
    ensures OneTurn(c, c.Begin())
  {
    match c.state
    case Idle => AbortTurn(c.(waitCount := 0));
    case EnableStorageControl => EnableStorageTurn(c);
    case EnableInverterControl => EnableControlsTurn(c);
    case StartDataFetch => FetchInverterTurns(c);
    case GetInverterInfos => FetchInverterTurns(c);
  }

  lemma SendTurn(c: Context, m: Model, offset: nat, next: State)
    requires Ready(c) && c.Held(Controls) && c.Held(Storage)
    requires m in {Controls, Storage} && offset < Size(m)
    requires next in {SetPowerStorage, SetMinSocStorage, WaitDataResponse}
    ensures OneTurn(c, c.TellOne(c.addr[m] + offset, next)) && !c.TellOne(c.addr[m] + offset, next).faulted
  {
    TellTurn(c, c.addr[m] + offset, next);
  }

  /** Where the next register of a power request goes, and the state that waits for its acknowledgement. */
  function Target(c: Context): (Model, nat, State) {
    if c.state == SetPowerInverter then (Controls, W_MAX_LIM_PCT, SetPowerStorage)
    else if c.state == SetPowerStorage then (Storage, W_CHA_MAX, SetMinSocStorage)
    else (Storage, MIN_RSV_PCT, WaitDataResponse)
  }

  lemma WorkIsTellOne(c: Context, s: nat)
    requires c.Valid() && c.state in {SetPowerInverter, SetPowerStorage, SetMinSocStorage}
    ensures var (m, offset, next) := Target(c); c.Work(s) == c.TellOne(c.addr[m] + offset, next)
  {
  }

  lemma WriteTurns(c: Context, s: nat)
    requires Ready(c) && c.state in {SetPowerInverter, SetPowerStorage, SetMinSocStorage}
    ensures OneTurn(c, c.Work(s)) && !c.Work(s).faulted
  {
    var (m, offset, next) := Target(c);
    SendTurn(c, m, offset, next);
    WorkIsTellOne(c, s);
  }

  lemma WorkTurns(c: Context, s: nat)
    requires Ready(c) && !Silent(c.state) && !NeedsAnswer(c.state)
    ensures OneTurn(c, c.Work(s)) && !c.Work(s).faulted
  {
    if c.state.Get? {
      FetchTurns(c, c.state.stage, s);
    } else if c.state == WaitDataResponse {
      AbortTurn(c);
    } else {
      WriteTurns(c, s);
    }
  }

  lemma FinishKeeps(c: Context, d: Context, prev: State)
    requires OneTurn(c, d) && !d.faulted
    ensures OneTurn(c, d.Finish(prev))
  {
  }

  lemma OneTurnFrom(c: Context, c': Context, d: Context)
    requires OneTurn(c', d) && c'.sent == c.sent
    ensures OneTurn(c, d)
  {
  }

  /** One turn of the state machine, from a context in which nothing is outstanding. */
  lemma AdvanceTurns(c: Context, p: Option<seq<nat>>, s: nat)
    requires Ready(c) && c.state != Connecting
    ensures OneTurn(c, c.Advance(p, s))
  {
    if Silent(c.state) {
      BeginTurns(c);
    } else {
      HearReady(c, p);
      var d := c.Hear(p);
      if !d.faulted {
        if NeedsAnswer(c.state) {
          SetupTurns(d);
          OneTurnFrom(c, d, d.Setup());
        } else {
          WorkTurns(d, s);
          OneTurnFrom(c, d, d.Work(s));
        }
      }
    }
    if !c.Turn(p, s).faulted {
      FinishKeeps(c, c.Turn(p, s), c.state);
    }
  }

  lemma ConnectTurns(c: Context, s: nat)
    requires Inv(c) && c.pending == Connect
    ensures OneTurn(c, OnConnect(c, s)) && !OnConnect(c, s).faulted
  {
    var d := c.(pending := Nothing);
    var e := d.(connected := true);
    if c.named {
      AbortTurn(e);
    } else {
      AskTurn(e, OFFSET, |SUNS|, CheckSuns);
    }
    assert d.Begin() == d.Connected();
    OneTurnFrom(c, e, d.Begin());
    FinishKeeps(c, d.Begin(), d.state);
  }

  /** `d` is reached from `c` as it should: a request goes out only when none is left open, and one at a time. */
  ghost predicate Fine(c: Context, closed: bool, d: Context) {
    && d.Valid() && (if d.faulted then !Outstanding(d) else Inv(d))
    && d.sent == c.sent + if Outstanding(d) && (closed || !Outstanding(c)) then 1 else 0
  }

  lemma SettledReady(c: Context)
    requires Inv(c) && c.connected
    ensures Ready(c.(pending := Nothing)) && c.state != Connecting
  {
  }

  lemma TurnIsFine(c: Context, c': Context, d: Context)
    requires OneTurn(c', d) && c'.sent == c.sent
    ensures Fine(c, true, d)
  {
  }

  lemma AnswerKeepsInv(c: Context, data: seq<nat>, s: nat)
    requires Inv(c) && Legal(c, Answer(data, s))
    ensures Fine(c, true, OnAnswer(c, data, s))
  {
    SettledReady(c);
    AdvanceTurns(c.(pending := Nothing), Some(data), s);
    TurnIsFine(c, c.(pending := Nothing), OnAnswer(c, data, s));
  }

  lemma HangupKeepsInv(c: Context, s: nat)
    requires Inv(c) && Legal(c, Hangup(s))
    ensures Fine(c, true, OnHangup(c, s))
  {
    SettledReady(c);
    AdvanceTurns(c.(pending := Nothing), None, s);
    TurnIsFine(c, c.(pending := Nothing), OnHangup(c, s));
  }

  lemma StartKeepsInv(c: Context, s: nat)
    requires Inv(c)
    ensures Fine(c, false, OnStart(c, s)) && !OnStart(c, s).faulted
  {
    if CanStart(c) {
      var d := c.(waitReceive := true, state := StartDataFetch);
      FetchInverterTurns(d);
      AdvanceTurns(d, None, s);
      TurnIsFine(c, d, OnStart(c, s));
    }
  }

  lemma SendKeepsInv(c: Context, limit: nat, reserve: nat, charge: nat, s: nat)
    requires Inv(c)
    ensures Fine(c, false, OnSend(c, limit, reserve, charge, s))
  {
    if CanStart(c) && c.Held(Controls) && c.Held(Storage) {
      var d := c.Command(limit, reserve, charge).(waitReceive := true, state := SetPowerInverter);
      AdvanceTurns(d, None, s);
      TurnIsFine(c, d, OnSend(c, limit, reserve, charge, s));
    }
  }

  lemma DiscoverKeepsInv(c: Context, created: bool)
    requires Inv(c)
    ensures Fine(c, false, OnDiscover(c, created))
  {
  }

  lemma TimeoutKeepsInv(c: Context)
    requires Inv(c)
    ensures Fine(c, false, Timeout(c)) && !Timeout(c).faulted
  {
  }

  lemma FailureKeepsInv(c: Context)
    requires Inv(c)
    ensures Fine(c, false, OnFailure(c))
  {
  }

  predicate Closes(e: Event) {
    e.Answer? || e.Hangup?
  }

  /** Whatever happens, short of a null pointer the invariant stays, and never are two requests outstanding. */
  lemma EventKeepsInv(c: Context, e: Event)
    requires Inv(c) && Legal(c, e)
    ensures Fine(c, Closes(e), Step(c, e))
  {
    match e
    case ConnectDone(s) => ConnectTurns(c, s); TurnIsFine(c, c, OnConnect(c, s));
    case Answer(data, s) => AnswerKeepsInv(c, data, s);
    case Hangup(s) => HangupKeepsInv(c, s);
    case StartFetch(s) => StartKeepsInv(c, s);
    case StartSend(limit, reserve, charge, active, s) => SendKeepsInv(c, limit, reserve, charge, s);
    case Discover(created) => DiscoverKeepsInv(c, created);
    case WaitEnd => TimeoutKeepsInv(c);
    case Failed => FailureKeepsInv(c);
  }

  // ---- whole runs ----

  /** `run` is what a new connection goes through, as long as the environment keeps to its part. */
  ghost predicate IsRun(run: seq<Context>, events: seq<Event>) {
    && |run| == |events| + 1 && run[0] == FreshContext()
    && forall i :: 0 <= i < |events| ==> Follows(run[i], events[i], run[i + 1])
  }

  ghost predicate Follows(c: Context, e: Event, d: Context) {
    c.Valid() ==> (!c.faulted ==> Legal(c, e)) && d == Step(c, e)
  }

  /** How many of the first `k` events settled a request: it was answered, or dropped along with its connection. */
  function SettledRequests(run: seq<Context>, events: seq<Event>, k: nat): nat
    requires |run| == |events| + 1 && k <= |events|
  {
    if k == 0 then 0
    else SettledRequests(run, events, k - 1)
         + if Outstanding(run[k - 1]) && (Closes(events[k - 1]) || !Outstanding(run[k])) then 1 else 0
  }

  /** Over every run each request sent has been settled exactly once, but for the one that may be outstanding. */
  lemma {:induction false} RequestsAreSettled(run: seq<Context>, events: seq<Event>, k: nat)
    requires IsRun(run, events) && k <= |events|
    ensures run[k].Valid() && (if run[k].faulted then !Outstanding(run[k]) else Inv(run[k]))
    ensures run[k].sent == SettledRequests(run, events, k) + if Outstanding(run[k]) then 1 else 0
  {
    if k > 0 {
      RequestsAreSettled(run, events, k - 1);
      assert Follows(run[k - 1], events[k - 1], run[k]);
      if !run[k - 1].faulted {
        EventKeepsInv(run[k - 1], events[k - 1]);
      }
    }
  }
}
