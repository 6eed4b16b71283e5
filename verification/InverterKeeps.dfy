/** What a turn leaves alone: the models known, and when they were last fetched. */
module InverterKeeps {
  import opened Wrappers
  import opened InverterSteps

  /** Addresses and the number of tracker registers are the same. */
  predicate SameModels(c: Context, d: Context) {
    d.addr == c.addr && d.mpptLength == c.mpptLength
  }

  /** Nobody has been woken up, or stopped waiting. */
  predicate SameCalls(c: Context, d: Context) {
    d.wakeups == c.wakeups && d.waitReceive == c.waitReceive
  }

  /** So are the times of the last fetches, and nobody has been called. */
  predicate Kept(c: Context, d: Context) {
    SameModels(c, d) && d.fetched == c.fetched && SameCalls(c, d)
  }

  lemma FetchKeeps(c: Context, k: nat, s: nat)
    requires c.Valid() && k < STAGES
    ensures SameModels(c, c.Fetch(k, s)) && SameCalls(c, c.Fetch(k, s))
  {
  }

  lemma {:induction false} FetchFromKeeps(c: Context, k: nat, s: nat)
    requires c.Valid() && k <= STAGES
    ensures SameModels(c, c.FetchFrom(k, s)) && SameCalls(c, c.FetchFrom(k, s))
    decreases STAGES - k
  {
    if k < STAGES && c.addr[StageModel(k)] != UNKNOWN {
      if c.Due(k, s) {
        assert c.FetchFrom(k, s) == c.Fetch(k, s);
        FetchKeeps(c, k, s);
      } else {
        FetchFromKeeps(c, k + 1, s);
      }
    }
  }

  lemma EnableStorageKeeps(c: Context)
    requires c.Valid()
    ensures Kept(c, c.EnableStorage())
  {
    if c.addr[Storage] == UNKNOWN {
      assert c.EnableStorage() == c.GiveUp();
    } else if c.Held(Storage) {
      var a := c.addr[Storage] + STOR_CTL_MOD;
      assert c.EnableStorage() == c.Put(a, 3).Tell(a, 1, EnableInverterControl);
    } else {
      assert c.EnableStorage() == c.Crash();
    }
  }

  lemma EnableControlsKeeps(c: Context)
    requires c.Valid()
    ensures Kept(c, c.EnableControls())
  {
    if c.addr[Controls] == UNKNOWN {
      assert c.EnableControls() == c.GiveUp();
    } else if c.Held(Controls) {
      var a := c.addr[Controls] + W_MAX_LIM_ENA;
      assert c.EnableControls() == c.Put(a, 1).Tell(a, 1, WaitDataResponse);
    } else {
      assert c.EnableControls() == c.Crash();
    }
  }

  lemma FetchInverterKeeps(c: Context)
    requires c.Valid()
    ensures Kept(c, c.FetchInverter())
  {
    var d := c.FetchInverter();
    if d != c.Abort() {
      assert d == c.Ask(c.addr[Inverter], Size(Inverter), Get(0));
    }
  }

  lemma ConnectedKeeps(c: Context)
    requires c.Valid()
    ensures Kept(c, c.Connected())
  {
  }

  lemma BeginKeeps(c: Context)
    requires c.Valid() && Silent(c.state)
    ensures Kept(c, c.Begin())
  {
    match c.state
    case Idle =>
    case Connecting => ConnectedKeeps(c);
    case EnableStorageControl => EnableStorageKeeps(c);
    case EnableInverterControl => EnableControlsKeeps(c);
    case StartDataFetch => FetchInverterKeeps(c);
    case GetInverterInfos => FetchInverterKeeps(c);
  }

  lemma CheckHeaderKeeps(c: Context)
    requires c.Valid()
    ensures Kept(c, c.CheckHeader())
  {
    var d := c.CheckHeader();
    if d != c.GiveUp() {
      assert d == c.Ask(c.lastAddr + HDR, HDR, FindCommonHdr);
    }
  }

  lemma SearchCommonKeeps(c: Context)
    requires c.Valid()
    ensures Kept(c, c.SearchCommon())
  {
    var d := c.SearchCommon();
    if !c.Holds(c.lastAddr, HDR) {
      assert d == c.GiveUp();
    } else if c.Id() == COMMON_ID {
      var e := c.(nextHdr := c.Behind(), commonAddr := c.lastAddr);
      assert d == e.Ask(c.lastAddr + DEVICE_MODEL, NAME_LENGTH, GetCommonInfos);
    } else {
      assert d == c.(nextHdr := c.Behind()).Ask(c.Behind(), HDR, FindCommonHdr);
    }
  }

  lemma TakeNameKeeps(c: Context)
    requires c.Valid()
    ensures Kept(c, c.TakeName())
  {
    var d := c.TakeName();
    if d != c.GiveUp() {
      assert d == c.(named := true).Ask(c.nextHdr, HDR, FindDataHdr);
    }
  }

  lemma FollowKeeps(c: Context, id: nat, behind: int)
    requires c.Valid()
    ensures Kept(c, c.Follow(id, behind))
  {
    if id == END_ID {
      EnableStorageKeeps(c.(state := EnableStorageControl));
    } else {
      assert c.Follow(id, behind) == c.(nextHdr := behind).Ask(behind, HDR, FindDataHdr);
    }
  }

  /** The walk changes addresses only. */
  lemma SearchDataKeeps(c: Context)
    requires c.Valid()
    ensures c.SearchData().fetched == c.fetched && SameCalls(c, c.SearchData())
  {
    if c.Holds(c.lastAddr, HDR) {
      FollowKeeps(c.Record(), c.Id(), c.Behind());
    }
  }

  lemma SetupKeeps(c: Context)
    requires c.Valid() && NeedsAnswer(c.state)
    ensures c.Setup().fetched == c.fetched && SameCalls(c, c.Setup())
    ensures c.state != FindDataHdr ==> Kept(c, c.Setup())
  {
    match c.state
    case CheckSuns => CheckHeaderKeeps(c);
    case FindCommonHdr => SearchCommonKeeps(c);
    case GetCommonInfos => TakeNameKeeps(c);
    case FindDataHdr => SearchDataKeeps(c);
  }

  lemma HearKeeps(c: Context, p: Option<seq<nat>>)
    requires c.Valid()
    ensures Kept(c, c.Hear(p))
  {
  }

  lemma TellKeeps(c: Context, a: int, count: nat, next: State)
    requires c.Valid() && c.Holds(a, count)
    ensures Kept(c, c.Tell(a, count, next))
  {
  }

  lemma TellOneKeeps(c: Context, a: int, next: State)
    requires c.Valid()
    ensures Kept(c, c.TellOne(a, next))
  {
    if c.Holds(a, 1) {
      TellKeeps(c, a, 1, next);
    }
  }

  lemma WorkKeeps(c: Context, s: nat)
    requires c.Valid() && !Silent(c.state) && !NeedsAnswer(c.state)
    ensures SameModels(c, c.Work(s)) && SameCalls(c, c.Work(s))
    ensures !c.state.Get? ==> Kept(c, c.Work(s))
  {
    match c.state
    case Get(k) => FetchFromKeeps(c, k, s);
    case WaitDataResponse =>
    case SetPowerInverter => TellOneKeeps(c, c.addr[Controls] + W_MAX_LIM_PCT, SetPowerStorage);
    case SetPowerStorage => TellOneKeeps(c, c.addr[Storage] + W_CHA_MAX, SetMinSocStorage);
    case SetMinSocStorage => TellOneKeeps(c, c.addr[Storage] + MIN_RSV_PCT, WaitDataResponse);
  }

  lemma TurnKeeps(c: Context, p: Option<seq<nat>>, s: nat)
    requires c.Valid()
    ensures c.state != FindDataHdr ==> SameModels(c, c.Turn(p, s))
    ensures !c.state.Get? ==> c.Turn(p, s).fetched == c.fetched
    ensures SameCalls(c, c.Turn(p, s))
  {
    if Silent(c.state) {
      BeginKeeps(c);
    } else {
      HearKeeps(c, p);
      var h := c.Hear(p);
      if !h.faulted && NeedsAnswer(c.state) {
        SetupKeeps(h);
      } else if !h.faulted {
        WorkKeeps(h, s);
      }
    }
  }

  /** Only the walk changes what is known of the models, and only a refetch stamps them. */
  lemma AdvanceKeeps(c: Context, p: Option<seq<nat>>, s: nat)
    requires c.Valid()
    ensures c.state != FindDataHdr ==> SameModels(c, c.Advance(p, s))
    ensures !c.state.Get? ==> c.Advance(p, s).fetched == c.fetched
  {
    TurnKeeps(c, p, s);
  }
}
