/** One connection to an inverter, as a state machine over register requests and their answers. */
module InverterSteps {
  import opened Wrappers

  const OFFSET := 40000
  const STORE := 481          // registers held: the full layout and 100 spare ones
  const TOP := OFFSET + STORE
  const HDR := 2              // registers of a model header: id and length
  const UNKNOWN := -1
  const SECONDS := 0x1_0000_0000

  const SUNS: seq<nat> := [0x5375, 0x6e53]
  const COMMON_ID := 1
  const END_ID := 0xffff
  const DEVICE_MODEL := 18    // offset and length of the device name in the common model
  const NAME_LENGTH := 16
  const W_MAX_LIM_PCT := 5    // offsets of the written registers
  const W_MAX_LIM_ENA := 9
  const W_CHA_MAX := 2
  const STOR_CTL_MOD := 5
  const MIN_RSV_PCT := 7

  datatype Model = Inverter | Nameplate | Settings | Status | Mppt | Controls | Storage

  function ModelOf(id: nat): Option<Model> {
    match id
    case 113 => Some(Inverter)
    case 120 => Some(Nameplate)
    case 121 => Some(Settings)
    case 122 => Some(Status)
    case 160 => Some(Mppt)
    case 123 => Some(Controls)
    case 124 => Some(Storage)
    case _ => None
  }

  function Size(m: Model): nat {
    match m
    case Inverter => 62
    case Nameplate => 28
    case Settings => 32
    case Status => 46
    case Mppt => 90
    case Controls => 26
    case Storage => 26
  }

  const STAGES := 6

  type StageIndex = k: nat | k < STAGES

  datatype State =
    | Idle | Connecting | CheckSuns | FindCommonHdr | GetCommonInfos | FindDataHdr
    | StartDataFetch | GetInverterInfos
    | Get(stage: StageIndex) // the refetch stages, in the order of `StageModel`
    | EnableInverterControl | EnableStorageControl
    | WaitDataResponse | SetPowerInverter | SetPowerStorage | SetMinSocStorage

  /** States that do not look at an answer. */
  predicate Silent(s: State) {
    s in {Idle, Connecting, EnableStorageControl, EnableInverterControl, StartDataFetch, GetInverterInfos}
  }

  /** States that read an answer without asking whether there is one. */
  predicate NeedsAnswer(s: State) {
    s in {CheckSuns, FindCommonHdr, GetCommonInfos, FindDataHdr}
  }

  function StageModel(k: nat): Model
    requires k < STAGES
  {
    [Nameplate, Settings, Status, Controls, Mppt, Storage][k]
  }

  /** Whether a model last fetched at `fetched` is to be fetched again at time `s`, both 32-bit seconds. */
  predicate IsDue(k: nat, fetched: nat, s: nat)
    requires k < STAGES
  {
    var since := (s - fetched) % SECONDS;
    match StageModel(k)
    case Nameplate => since >= 10 * 60
    case Settings => since >= 5 * 60
    case Status => fetched == 0 || since >= 60
    case Controls => fetched == 0
    case Storage => since >= 30
    case _ => true
  }

  const MODELS := {Inverter, Nameplate, Settings, Status, Mppt, Controls, Storage}

  lemma ModelsAreAll(k: Model)
    ensures k in MODELS
  {
    match k
    case Inverter =>
    case Nameplate =>
    case Settings =>
    case Status =>
    case Mppt =>
    case Controls =>
    case Storage =>
  }

  function AllModels<V>(v: V): (m: map<Model, V>)
    ensures forall k: Model :: k in m && m[k] == v
  {
    assert forall k: Model :: k in MODELS by {
      forall k: Model ensures k in MODELS {
        ModelsAreAll(k);
      }
    }
    map k | k in MODELS :: v
  }

  function FreshContext(): (c: Context)
    ensures c.Valid()
  {
    Context(false, false, false, false, false, Idle, 0, UNKNOWN, UNKNOWN, AllModels(UNKNOWN), AllModels(0), UNKNOWN,
            UNKNOWN, seq(STORE, _ => 0), [], Nothing, 0, 0)
  }

  /** What the connection waits for. */
  datatype Pending = Nothing | Connect | Read(at: int, count: nat) | Write(to: int, data: seq<nat>)

  /** The model whose values an answer for address `a` is decoded as. */
  function ModelAt(addr: map<Model, int>, a: int): Option<Model>
    requires forall m: Model :: m in addr
  {
    if a == addr[Inverter] then Some(Inverter)
    else if a == addr[Nameplate] then Some(Nameplate)
    else if a == addr[Settings] then Some(Settings)
    else if a == addr[Status] then Some(Status)
    else if a == addr[Mppt] then Some(Mppt)
    else if a == addr[Storage] then Some(Storage)
    else None
  }

  /** `faulted` tells that the code has followed a null pointer; what it does after that is not modelled. `parsed` logs
      every answer parsed, with the model it was decoded as. */
  datatype Context = Context(
    connected: bool, named: bool, waitReceive: bool, requestClose: bool, faulted: bool, state: State, waitCount: nat,
    nextHdr: int, commonAddr: int, addr: map<Model, int>, fetched: map<Model, nat>, mpptLength: int, lastAddr: int,
    regs: seq<nat>, parsed: seq<Option<Model>>, pending: Pending, sent: nat, wakeups: nat)
  {
    ghost predicate Valid() {
      && |regs| == STORE
      && (forall m: Model :: m in addr && m in fetched)
    }

    /** Whether `count` registers at `a` lie within the storage. */
    predicate Holds(a: int, count: nat) {
      OFFSET <= a && a + count <= TOP
    }

    /** Whether a pointer to the model's registers is not null. */
    predicate Held(m: Model)
      requires Valid()
    {
      Holds(addr[m], Size(m))
    }

    /** A model that has been found, but reaches beyond the storage. */
    predicate Overruns(m: Model)
      requires Valid()
    {
      addr[m] != UNKNOWN && !Held(m)
    }

    function Reg(a: int): nat
      requires Valid() && Holds(a, 1)
    {
      regs[a - OFFSET]
    }

    function Store(a: int, data: seq<nat>): (c: Context)
      requires Valid() && Holds(a, |data|)
      ensures c.Valid() && c == this.(regs := c.regs)
    {
      this.(regs := regs[..a - OFFSET] + data + regs[a - OFFSET + |data|..])
    }

    function Put(a: int, v: nat): (c: Context)
      requires Valid() && Holds(a, 1)
      ensures c.Valid() && c == this.(regs := c.regs)
    {
      this.(regs := regs[a - OFFSET := v])
    }

    function Ask(a: int, count: nat, next: State): Context {
      this.(lastAddr := a, pending := Read(a, count), sent := sent + 1, state := next)
    }

    function Tell(a: int, count: nat, next: State): Context
      requires Valid() && Holds(a, count)
    {
      this.(lastAddr := a, pending := Write(a, regs[a - OFFSET..a - OFFSET + count]), sent := sent + 1, state := next)
    }

    /** Sends one register, which has to be one of those held. */
    function TellOne(a: int, next: State): (c: Context)
      requires Valid()
      ensures c.Valid() && c.parsed == parsed && c.regs == regs && c.addr == addr
    {
      if Holds(a, 1) then Tell(a, 1, next) else Crash()
    }

    function GiveUp(): Context {
      this.(requestClose := true)
    }

    function Abort(): Context {
      this.(state := Idle, requestClose := true)
    }

    function Crash(): Context {
      this.(faulted := true)
    }

    // ---- an answer ----

    /** The answer's registers, if it has any, go to where the request asked for them. */
    function Receive(data: seq<nat>): (c: Context)
      requires Valid()
      ensures c.Valid() && c == this.(regs := c.regs)
    {
      if data != [] && Holds(lastAddr, |data|) then Store(lastAddr, data) else this
    }

    /** The model whose values the answer to the last request is decoded as. */
    function DecodedAs(): Option<Model>
      requires Valid()
    {
      ModelAt(addr, lastAddr)
    }

    /** Decoding goes through the pointer to that model's registers. */
    predicate DecodeFails()
      requires Valid()
    {
      DecodedAs().Some? && !Held(DecodedAs().value)
    }

    function Parse(data: seq<nat>): (c: Context)
      requires Valid()
      ensures c.Valid() && c.faulted == (faulted || DecodeFails())
      ensures c == Receive(data).(parsed := parsed + [DecodedAs()], faulted := c.faulted)
    {
      Receive(data).(parsed := parsed + [DecodedAs()], faulted := faulted || DecodeFails())
    }

    /** A missing answer is only tolerated by some states; the others follow the null pointer. */
    function Hear(p: Option<seq<nat>>): (c: Context)
      requires Valid()
      ensures c.Valid() && c.addr == addr && c.lastAddr == lastAddr && c.state == state
    {
      if p.Some? then Parse(p.value) else if NeedsAnswer(state) then Crash() else this
    }

    /** Enters the three values of a power request into the registers. */
    function Command(limit: nat, reserve: nat, charge: nat): (c: Context)
      requires Valid() && Held(Controls) && Held(Storage)
      ensures c.Valid() && c == this.(regs := c.regs)
    {
      Put(addr[Controls] + W_MAX_LIM_PCT, limit).Put(addr[Storage] + MIN_RSV_PCT, reserve)
        .Put(addr[Storage] + W_CHA_MAX, charge)
    }

    // ---- the refetch stages ----

    /** Whether the model of stage `k` is to be fetched again at time `s`. */
    predicate Due(k: nat, s: nat)
      requires Valid() && k < STAGES
    {
      IsDue(k, fetched[StageModel(k)], s)
    }

    function Fetch(k: nat, s: nat): (c: Context)
      requires Valid() && k < STAGES
      ensures c.Valid() && c.parsed == parsed && c.regs == regs && c.addr == addr
    {
      var m := StageModel(k);
      var stamped := if m == Mppt then Controls else m; // the code stamps the controls when it fetches the trackers
      this.(fetched := fetched[stamped := s])
        .Ask(addr[m], if m == Mppt then Nat(mpptLength) else Size(m), After(k))
    }

    function FetchInverter(): (c: Context)
      requires Valid()
      ensures c.Valid() && c.parsed == parsed && c.regs == regs && c.addr == addr
    {
      if addr[Inverter] == UNKNOWN then Abort() else Ask(addr[Inverter], Size(Inverter), Get(0))
    }

    /** Falls through the stages from `k` on up to the first that is due; an unknown model breaks the connection. */
    function FetchFrom(k: nat, s: nat): (c: Context)
      requires Valid() && k <= STAGES
      ensures c.Valid() && c.parsed == parsed && c.regs == regs && c.addr == addr
      decreases STAGES - k
    {
      if k == STAGES then this.(state := Idle)
      else if addr[StageModel(k)] == UNKNOWN then Abort()
      else if Due(k, s) then Fetch(k, s)
      else FetchFrom(k + 1, s)
    }

    // ---- the header walk ----

    function EnableStorage(): (c: Context)
      requires Valid()
      ensures c.Valid() && c.parsed == parsed
    {
      if addr[Storage] == UNKNOWN then GiveUp()
      else if !Held(Storage) then Crash()
      else
        Put(addr[Storage] + STOR_CTL_MOD, 3).Tell(addr[Storage] + STOR_CTL_MOD, 1, EnableInverterControl)
    }

    function EnableControls(): (c: Context)
      requires Valid()
      ensures c.Valid() && c.parsed == parsed
    {
      if addr[Controls] == UNKNOWN then GiveUp()
      else if !Held(Controls) then Crash()
      else
        Put(addr[Controls] + W_MAX_LIM_ENA, 1).Tell(addr[Controls] + W_MAX_LIM_ENA, 1, WaitDataResponse)
    }

    /** The header at the last requested address: its id, and the address behind its model. */
    function Id(): nat
      requires Valid() && Holds(lastAddr, HDR)
    {
      Reg(lastAddr)
    }

    function Behind(): int
      requires Valid() && Holds(lastAddr, HDR)
    {
      lastAddr + HDR + Reg(lastAddr + 1)
    }

    /** Notes the header just read. */
    function Record(): (c: Context)
      requires Valid() && Holds(lastAddr, HDR)
      ensures c.Valid() && c == this.(addr := c.addr, mpptLength := c.mpptLength)
    {
      match ModelOf(Id())
      case None => this
      case Some(m) =>
        this.(addr := addr[m := lastAddr], mpptLength := if m == Mppt then Reg(lastAddr + 1) else mpptLength)
    }

    function CheckHeader(): (c: Context)
      requires Valid()
      ensures c.Valid() && c.parsed == parsed
    {
      if Holds(lastAddr, HDR) && regs[lastAddr - OFFSET..lastAddr - OFFSET + HDR] == SUNS
      then Ask(lastAddr + HDR, HDR, FindCommonHdr)
      else GiveUp()
    }

    function SearchCommon(): (c: Context)
      requires Valid()
      ensures c.Valid() && c.parsed == parsed
    {
      if !Holds(lastAddr, HDR) then GiveUp()
      else
        var c := this.(nextHdr := Behind());
        if Id() == COMMON_ID
        then c.(commonAddr := lastAddr).Ask(lastAddr + DEVICE_MODEL, NAME_LENGTH, GetCommonInfos)
        else c.Ask(Behind(), HDR, FindCommonHdr)
    }

    function TakeName(): (c: Context)
      requires Valid()
      ensures c.Valid() && c.parsed == parsed
    {
      if Holds(lastAddr, NAME_LENGTH) then this.(named := true).Ask(nextHdr, HDR, FindDataHdr) else GiveUp()
    }

    function SearchData(): (c: Context)
      requires Valid()
      ensures c.Valid() && c.parsed == parsed
    {
      if Holds(lastAddr, HDR) then Record().Follow(Id(), Behind()) else GiveUp()
    }

    /** From the end marker the code falls through to enabling the storage; otherwise it goes on to the next header. */
    function Follow(id: nat, behind: int): (c: Context)
      requires Valid()
      ensures c.Valid() && c.parsed == parsed
    {
      if id == END_ID then this.(state := EnableStorageControl).EnableStorage()
      else this.(nextHdr := behind).Ask(behind, HDR, FindDataHdr)
    }

    function Connected(): Context {
      var c := this.(connected := true);
      if named then c.(state := Idle) else c.Ask(OFFSET, |SUNS|, CheckSuns)
    }

    // ---- one event ----

    /** The cases of the switch that do not look at an answer. */
    function Begin(): (c: Context)
      requires Valid() && Silent(state)
      ensures c.Valid() && c.parsed == parsed
    {
      match state
      case Idle => this.(waitCount := 0)
      case Connecting => Connected()
      case EnableStorageControl => EnableStorage()
      case EnableInverterControl => EnableControls()
      case StartDataFetch => FetchInverter()
      case GetInverterInfos => FetchInverter()
    }

    /** The cases that set up a connection, behind the parsing of the answer. */
    function Setup(): (c: Context)
      requires Valid() && NeedsAnswer(state)
      ensures c.Valid() && c.parsed == parsed
    {
      match state
      case CheckSuns => CheckHeader()
      case FindCommonHdr => SearchCommon()
      case GetCommonInfos => TakeName()
      case FindDataHdr => SearchData()
    }

    /** The cases that fetch and write data, behind the parsing of the answer. */
    function Work(s: nat): (c: Context)
      requires Valid() && !Silent(state) && !NeedsAnswer(state)
      ensures c.Valid() && c.parsed == parsed && c.regs == regs && c.addr == addr
    {
      match state
      case Get(k) => FetchFrom(k, s)
      case WaitDataResponse => this.(state := Idle)
      case SetPowerInverter => TellOne(addr[Controls] + W_MAX_LIM_PCT, SetPowerStorage)
      case SetPowerStorage => TellOne(addr[Storage] + W_CHA_MAX, SetMinSocStorage)
      case SetMinSocStorage => TellOne(addr[Storage] + MIN_RSV_PCT, WaitDataResponse)
    }

    /** The switch over the state. */
    function Turn(p: Option<seq<nat>>, s: nat): Context
      requires Valid()
    {
      if Silent(state) then Begin()
      else
        var c := Hear(p);
        if c.faulted then c else if NeedsAnswer(state) then c.Setup() else c.Work(s)
    }

    /** The end of every event: nobody waits for an idle connection, and becoming idle wakes up the main task. */
    function Finish(prev: State): (c: Context)
      ensures c == this.(waitReceive := c.waitReceive, wakeups := c.wakeups)
    {
      this.(waitReceive := waitReceive && state != Idle,
            wakeups := wakeups + if state == Idle && prev != Idle then 1 else 0)
    }

    function Advance(p: Option<seq<nat>>, s: nat): Context
      requires Valid()
    {
      var d := Turn(p, s);
      if d.faulted then d else d.Finish(state)
    }
  }

  /** The state that waits for the answer to the fetch of stage `k`. */
  function After(k: nat): State
    requires k < STAGES
  {
    if k + 1 < STAGES then Get(k + 1) else WaitDataResponse
  }

  function Nat(x: int): nat { if x < 0 then 0 else x }
}
