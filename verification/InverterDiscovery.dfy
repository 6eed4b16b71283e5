/** Discovery as a whole, and the cycles that follow it. */
module InverterDiscovery {
  import opened Wrappers
  import opened InverterSteps
  import opened InverterRuns
  import opened InverterWalk
  import opened InverterCycles
  import opened InverterAnswers

  // ---- the search for the common model ----

  /** The first common header from `a` on; the search for it does not stop at an end marker. */
  function CommonAt(dev: Device, a: int): Option<int>
    decreases TOP - a
  {
    if !InStore(a) then None else if dev(a) == COMMON_ID then Some(a) else CommonAt(dev, Next(dev, a))
  }

  /** Whether the search from `a` on finds a common model with its name within the storage. */
  predicate NameFound(dev: Device, a: int) {
    CommonAt(dev, a).Some? && CommonAt(dev, a).value + DEVICE_MODEL + NAME_LENGTH <= TOP
  }

  /** The first header behind the common model. */
  function WalkStart(dev: Device, a: int): int
    requires NameFound(dev, a)
  {
    Next(dev, CommonAt(dev, a).value)
  }

  /** The search from `a` on, or the walk behind what it finds, follows a null pointer. */
  predicate SearchTrips(dev: Device, a: int, addr: map<Model, int>)
    requires Total(addr)
    decreases TOP - a
  {
    || Trip(addr, a)
    || (InStore(a) && if dev(a) == COMMON_ID then NameTrips(dev, a, addr) else SearchTrips(dev, Next(dev, a), addr))
  }

  predicate NameTrips(dev: Device, a: int, addr: map<Model, int>)
    requires Total(addr)
  {
    || Trip(addr, a + DEVICE_MODEL)
    || (a + DEVICE_MODEL + NAME_LENGTH <= TOP && Trips(dev, Next(dev, a), addr))
  }

  predicate Marked(dev: Device) {
    dev(OFFSET) == SUNS[0] && dev(OFFSET + 1) == SUNS[1]
  }

  predicate DiscoveryTrips(dev: Device, addr: map<Model, int>)
    requires Total(addr)
  {
    Trip(addr, OFFSET) || (Marked(dev) && SearchTrips(dev, OFFSET + HDR, addr))
  }

  ghost predicate Searching(c: Context, a: int) {
    Settled(c) && c.state == FindCommonHdr && c.pending == Read(a, HDR) && OFFSET <= a && !c.requestClose
  }

  /** The context waiting for the name of the common model at `a`. */
  ghost predicate Naming(c: Context, dev: Device, a: int) {
    && Settled(c) && c.state == GetCommonInfos && !c.requestClose && c.nextHdr == Next(dev, a) && OFFSET <= a
    && c.pending == Read(a + DEVICE_MODEL, NAME_LENGTH)
  }

  lemma SearchStep(c: Context, dev: Device, a: int, s: nat)
    requires Searching(c, a) && InStore(a) && !Trip(c.addr, a)
    ensures var d := Respond(c, dev, s);
            d.addr == c.addr && if dev(a) == COMMON_ID then Naming(d, dev, a) else Searching(d, Next(dev, a))
  {
    var w := HeaderAnswered(c, dev, a, s);
    CommonTurn(w);
    FinishKeeps(w, w.SearchCommon(), FindCommonHdr);
  }

  lemma SearchOverflow(c: Context, dev: Device, a: int, s: nat)
    requires Searching(c, a) && !InStore(a) && !Trip(c.addr, a)
    ensures Outcome(Respond(c, dev, s), false)
  {
  }

  lemma NameStep(c: Context, dev: Device, a: int, s: nat)
    requires Naming(c, dev, a) && !Trip(c.addr, a + DEVICE_MODEL)
    ensures var d := Respond(c, dev, s);
            if a + DEVICE_MODEL + NAME_LENGTH <= TOP then d.addr == c.addr && Walking(d, Next(dev, a))
            else Outcome(d, false)
  {
    AnswerKeepsInv(c, Reply(dev, c.pending), s);
  }

  /** What the search from `a` on is to reach from context `c`. */
  ghost predicate Searched(c: Context, d: Context, dev: Device, a: int) {
    && c.Valid()
    && (if SearchTrips(dev, a, c.addr) then d.faulted
        else if NameFound(dev, a) then Walked(c, d, dev, WalkStart(dev, a))
        else Outcome(d, false))
  }

  lemma NameSteps(c: Context, dev: Device, a: int, times: seq<nat>)
    requires Naming(c, dev, a) && InStore(a) && dev(a) == COMMON_ID && STORE + 4 <= |times|
    ensures var d := Responses(c, dev, times);
            if NameTrips(dev, a, c.addr) then d.faulted
            else if NameFound(dev, a) then Walked(c, d, dev, WalkStart(dev, a))
            else Outcome(d, false)
  {
    var e := Respond(c, dev, times[0]);
    if Trip(c.addr, a + DEVICE_MODEL) {
      TripStep(c, dev, times[0]);
      Quiet(e, dev, times[1..]);
    } else {
      NameStep(c, dev, a, times[0]);
      if NameFound(dev, a) {
        Walk(e, dev, Next(dev, a), times[1..]);
      } else {
        Quiet(e, dev, times[1..]);
      }
    }
  }

  lemma SearchNext(c: Context, d: Context, e: Context, dev: Device, a: int)
    requires c.Valid() && InStore(a) && !Trip(c.addr, a) && dev(a) != COMMON_ID && d.addr == c.addr
    requires Searched(d, e, dev, Next(dev, a))
    ensures Searched(c, e, dev, a)
  {
  }

  /** On every register map the search comes to rest, leads to the walk behind the common model, or follows a null
      pointer. */
  lemma {:induction false} Search(c: Context, dev: Device, a: int, times: seq<nat>)
    requires Searching(c, a) && TOP - a + STORE + 5 <= |times| && STORE + 5 <= |times|
    ensures Searched(c, Responses(c, dev, times), dev, a)
    decreases TOP - a
  {
    if Trip(c.addr, a) {
      TripStep(c, dev, times[0]);
      Quiet(Respond(c, dev, times[0]), dev, times[1..]);
    } else if !InStore(a) {
      SearchOverflow(c, dev, a, times[0]);
      Quiet(Respond(c, dev, times[0]), dev, times[1..]);
    } else {
      SearchStep(c, dev, a, times[0]);
      var d := Respond(c, dev, times[0]);
      if dev(a) == COMMON_ID {
        NameSteps(d, dev, a, times[1..]);
      } else {
        Search(d, dev, Next(dev, a), times[1..]);
        SearchNext(c, d, Responses(d, dev, times[1..]), dev, a);
      }
    }
  }

  lemma MarkChecked(w: Context, dev: Device)
    requires w.Valid() && w.lastAddr == OFFSET && w.regs[0..HDR] == [dev(OFFSET), dev(OFFSET + 1)]
    ensures w.CheckHeader() == if Marked(dev) then w.Ask(OFFSET + HDR, HDR, FindCommonHdr) else w.GiveUp()
  {
    assert [dev(OFFSET), dev(OFFSET + 1)] == SUNS <==> Marked(dev);
  }

  lemma SunsStep(c: Context, dev: Device, s: nat)
    requires Settled(c) && c.state == CheckSuns && !c.requestClose && c.pending == Read(OFFSET, HDR)
    requires !Trip(c.addr, OFFSET)
    ensures var d := Respond(c, dev, s);
            d.addr == c.addr && if Marked(dev) then Searching(d, OFFSET + HDR) else Outcome(d, false)
  {
    var v := c.(pending := Nothing);
    var w := v.Hear(Some(Slice(dev, OFFSET, HDR)));
    SettledReady(c);
    HearReady(v, Some(Slice(dev, OFFSET, HDR)));
    MarkChecked(w, dev);
    SunsGoesOn(w, dev);
  }

  lemma SunsGoesOn(w: Context, dev: Device)
    requires Ready(w) && w.state == CheckSuns && !w.requestClose
    ensures Searching(w.Ask(OFFSET + HDR, HDR, FindCommonHdr).Finish(CheckSuns), OFFSET + HDR)
    ensures Outcome(w.GiveUp().Finish(CheckSuns), false)
  {
    AskTurn(w, OFFSET + HDR, HDR, FindCommonHdr);
    FinishKeeps(w, w.Ask(OFFSET + HDR, HDR, FindCommonHdr), CheckSuns);
  }

  // ---- the whole discovery ----

  ghost predicate Discovered(c: Context, d: Context, dev: Device) {
    && c.Valid()
    && (if DiscoveryTrips(dev, c.addr) then d.faulted
        else if Marked(dev) then Searched(c, d, dev, OFFSET + HDR)
        else Outcome(d, false))
  }

  ghost predicate AskingForMark(c: Context) {
    Settled(c) && c.state == CheckSuns && !c.requestClose && c.pending == Read(OFFSET, HDR)
  }

  lemma ConnectAsks(c: Context, s: nat)
    requires Inv(c) && c.pending == Connect && !c.named && !c.requestClose
    ensures AskingForMark(OnConnect(c, s)) && OnConnect(c, s).addr == c.addr
  {
    ConnectTurns(c, s);
  }

  lemma FromMark(c: Context, dev: Device, times: seq<nat>)
    requires AskingForMark(c) && 2 * STORE + 8 <= |times|
    ensures Discovered(c, Responses(c, dev, times), dev)
  {
    var e := Respond(c, dev, times[0]);
    if Trip(c.addr, OFFSET) {
      TripStep(c, dev, times[0]);
      Quiet(e, dev, times[1..]);
    } else {
      SunsStep(c, dev, times[0]);
      if Marked(dev) {
        Search(e, dev, OFFSET + HDR, times[1..]);
      } else {
        Quiet(e, dev, times[1..]);
      }
    }
  }

  lemma DiscoveredFrom(c: Context, d: Context, e: Context, dev: Device)
    requires c.Valid() && d.addr == c.addr && Discovered(d, e, dev)
    ensures Discovered(c, e, dev)
  {
  }

  /** Discovery from the established connection to rest, whatever the registers hold. Unless a null pointer is followed:
      without the sunspec mark, without a common model or its name within the storage the connection is given up;
      otherwise every known model behind the common one gets exactly the address of its last header, and the
      connection is usable if and only if the chain ends within the storage and has a storage and a controls model. */
  lemma Discovery(c: Context, dev: Device, s: nat, times: seq<nat>)
    requires Inv(c) && c.pending == Connect && !c.named && !c.requestClose && 2 * STORE + 8 <= |times|
    ensures Discovered(c, Responses(OnConnect(c, s), dev, times), dev)
  {
    ConnectAsks(c, s);
    FromMark(OnConnect(c, s), dev, times);
    DiscoveredFrom(c, OnConnect(c, s), Responses(OnConnect(c, s), dev, times), dev);
  }

  // ---- when discovery follows a null pointer ----

  /** All models known so far lie within the storage; none are known to a new connection. */
  ghost predicate Clean(addr: map<Model, int>) {
    Total(addr) && forall m: Model :: addr[m] == UNKNOWN || Fits(addr[m], m)
  }

  lemma {:induction false} SearchTripsExact(dev: Device, a: int, addr: map<Model, int>)
    requires OFFSET <= a && Clean(addr)
    ensures SearchTrips(dev, a, addr) <==> NameFound(dev, a) && Trips(dev, WalkStart(dev, a), addr)
    decreases TOP - a
  {
    if InStore(a) && dev(a) != COMMON_ID {
      SearchTripsExact(dev, Next(dev, a), addr);
    }
  }

  lemma CommonBehind(dev: Device, a: int)
    requires OFFSET <= a && NameFound(dev, a)
    ensures OFFSET <= WalkStart(dev, a)
    decreases TOP - a
  {
    if InStore(a) && dev(a) != COMMON_ID {
      CommonBehind(dev, Next(dev, a));
    }
  }

  /** The register map leads discovery to the end marker of a chain behind a common model. */
  predicate ReachesEnd(dev: Device) {
    Marked(dev) && NameFound(dev, OFFSET + HDR) && Ends(dev, WalkStart(dev, OFFSET + HDR))
  }

  /** The addresses that discovery finds. */
  function AllFound(dev: Device, addr: map<Model, int>): (found: map<Model, int>)
    requires Total(addr) && NameFound(dev, OFFSET + HDR)
    ensures Total(found)
  {
    Found(addr, dev, WalkStart(dev, OFFSET + HDR))
  }

  /** From a new connection, or any other whose known models lie within the storage, discovery follows a null pointer if
      and only if it reaches the end marker having found a storage model that reaches beyond the storage, or behind a
      proper one controls that do, or controls whose switch is taken for the header of such a model. */
  lemma DiscoveryTripsExact(dev: Device, addr: map<Model, int>)
    requires Clean(addr)
    ensures DiscoveryTrips(dev, addr) <==> ReachesEnd(dev) && EndTrip(AllFound(dev, addr))
  {
    SearchTripsExact(dev, OFFSET + HDR, addr);
    if NameFound(dev, OFFSET + HDR) {
      CommonBehind(dev, OFFSET + HDR);
      TripsExact(dev, WalkStart(dev, OFFSET + HDR), addr);
    }
  }

  /** A register map whose storage model begins eleven registers before the end of what is held. */
  function Overlong(a: int): nat {
    if a == OFFSET then SUNS[0]
    else if a == OFFSET + 1 then SUNS[1]
    else if a == OFFSET + 2 then COMMON_ID
    else if a == OFFSET + 3 then 66
    else if a == OFFSET + 70 then 9999 // an unknown model
    else if a == OFFSET + 71 then 398
    else if a == OFFSET + 470 then 124 // the storage model
    else if a == OFFSET + 471 then 7
    else if a == OFFSET + 479 then END_ID
    else 0
  }

  /** Discovery of that inverter follows a null pointer. */
  lemma OverlongTrips(addr: map<Model, int>)
    requires Total(addr) && forall m: Model :: addr[m] == UNKNOWN
    ensures DiscoveryTrips(Overlong, addr)
  {
    var end := OFFSET + 479;
    var storage := addr[Storage := OFFSET + 470];
    assert Trips(Overlong, end, storage);
    assert Next(Overlong, OFFSET + 470) == end && Noted(addr, Overlong, OFFSET + 470) == storage;
    assert Trips(Overlong, OFFSET + 470, addr);
    assert Next(Overlong, OFFSET + 70) == OFFSET + 470 && Noted(addr, Overlong, OFFSET + 70) == addr;
    assert Trips(Overlong, OFFSET + 70, addr);
    assert NameTrips(Overlong, OFFSET + 2, addr);
  }

  // ---- what follows ----

  lemma {:induction false} LatestAt(chain: seq<int>, dev: Device, m: Model)
    ensures var a := Latest(chain, dev, m, UNKNOWN); a == UNKNOWN || ModelOf(dev(a)) == Some(m)
  {
    LatestExact(chain, dev, m, UNKNOWN);
  }

  /** A walk from nothing finds different models in different places. */
  lemma FoundDistinct(addr: map<Model, int>, dev: Device, a: int)
    requires Total(addr) && forall m: Model :: addr[m] == UNKNOWN
    ensures Distinct(Found(addr, dev, a))
  {
    forall m: Model ensures Found(addr, dev, a)[m] == UNKNOWN || ModelOf(dev(Found(addr, dev, a)[m])) == Some(m) {
      LatestAt(Chain(dev, a), dev, m);
    }
  }

  /** A new connection to an inverter with everything in place, and time enough. */
  ghost predicate FirstDiscovery(c: Context, dev: Device, times: seq<nat>) {
    && Inv(c) && c.pending == Connect && !c.named && !c.requestClose && 2 * STORE + 8 <= |times|
    && (forall m: Model :: c.addr[m] == UNKNOWN)
    && ReachesEnd(dev) && Usable(AllFound(dev, c.addr), true) && !EndTrip(AllFound(dev, c.addr))
  }

  /** The context after discovery: ready for fetches and power requests, with every model in a place of its own. */
  ghost function AfterDiscovery(c: Context, dev: Device, s: nat, times: seq<nat>): (d: Context)
    requires FirstDiscovery(c, dev, times)
    ensures Settled(d) && CanStart(d) && Distinct(d.addr) && d.Held(Controls) && d.Held(Storage)
  {
    Discovery(c, dev, s, times);
    DiscoveryTripsExact(dev, c.addr);
    SearchTripsExact(dev, OFFSET + HDR, c.addr);
    FoundDistinct(c.addr, dev, WalkStart(dev, OFFSET + HDR));
    Responses(OnConnect(c, s), dev, times)
  }

  /** From connecting to the first fetch: every answer is decoded as the model it was asked for. */
  lemma DiscoveredIsDecoded(c: Context, dev: Device, s: nat, times: seq<nat>, t: nat, run: seq<Context>, n: nat)
    requires FirstDiscovery(c, dev, times) && Answers(run) && n + 1 < |run|
    requires run[0] == OnStart(AfterDiscovery(c, dev, s, times), t)
    ensures run[n + 1].parsed == run[n].parsed + [Taken(Asked(run[n]))]
  {
    var d := AfterDiscovery(c, dev, s, times);
    FetchIsDecoded(d, t, run, n);
    StartFetches(d, t);
    FetchRun(run, d.addr, n);
    assert Answered(run[n], run[n + 1]);
    AskedAt(run[n]);
    FoundAt(d.addr, Asked(run[n]));
  }

  /** From connecting to the first power request: it follows no null pointer and writes its three values. */
  lemma DiscoveredIsWritten(c: Context, dev: Device, s: nat, times: seq<nat>, limit: nat, reserve: nat, charge: nat,
                            t: nat, run: seq<Context>, k: nat)
    requires FirstDiscovery(c, dev, times) && Answers(run) && k < |run|
    requires run[0] == OnSend(AfterDiscovery(c, dev, s, times), limit, reserve, charge, t)
    ensures !run[0].faulted
    ensures var d := AfterDiscovery(c, dev, s, times);
            run[k].faulted || k == 3 || Writes(run[k], Place(d, k), Carried(d, limit, reserve, charge, k))
  {
    var d := AfterDiscovery(c, dev, s, times);
    SendInCycle(d, limit, reserve, charge, t);
    SendWrites(d, limit, reserve, charge, t, run, k);
  }

  // ---- an inverter with everything in place ----

  /** The register map of an inverter that offers all models one behind the other. */
  function Complete(a: int): nat {
    if a == 40000 then SUNS[0]
    else if a == 40001 then SUNS[1]
    else if a < 40131 then EarlyHeader(a)
    else if a < 40263 then MiddleHeader(a)
    else LateHeader(a)
  }

  function EarlyHeader(a: int): nat {
    if a == 40002 then COMMON_ID else if a == 40003 then 65
    else if a == 40069 then 113 else if a == 40070 then 60
    else 0
  }

  function MiddleHeader(a: int): nat {
    if a == 40131 then 120 else if a == 40132 then 26
    else if a == 40159 then 121 else if a == 40160 then 30
    else if a == 40191 then 122 else if a == 40192 then 44
    else if a == 40237 then 123 else if a == 40238 then 24
    else 0
  }

  function LateHeader(a: int): nat {
    if a == 40263 then 160 else if a == 40264 then 88
    else if a == 40353 then 124 else if a == 40354 then 24
    else if a == 40379 then END_ID
    else 0
  }

  /** One of its headers, known or not yet met, and the walk behind it. */
  ghost predicate Leads(a: int, addr: map<Model, int>, found: map<Model, int>) {
    Total(addr) && Ends(Complete, a) && Found(addr, Complete, a) == found
  }

  lemma LeadsBack(a: int, m: Model, addr: map<Model, int>, found: map<Model, int>)
    requires Total(addr) && InStore(a) && ModelOf(Complete(a)) == Some(m) && Complete(a) != END_ID
    requires Leads(Next(Complete, a), addr[m := a], found)
    ensures Leads(a, addr, found)
  {
    FoundNext(addr, Complete, a);
    assert Noted(addr, Complete, a) == addr[m := a];
  }

  /** The addresses of all its models, on top of `addr`. */
  function Everything(addr: map<Model, int>): map<Model, int> {
    LateHalf(addr[Inverter := 40069][Nameplate := 40131][Settings := 40159][Status := 40191])
  }

  function LateHalf(addr: map<Model, int>): map<Model, int> {
    addr[Controls := 40237][Mppt := 40263][Storage := 40353]
  }

  lemma LateFound(addr: map<Model, int>)
    requires Total(addr)
    ensures Leads(40237, addr, LateHalf(addr))
  {
    var a4 := addr[Controls := 40237];
    var a5 := a4[Mppt := 40263];
    FoundEnd(LateHalf(addr), Complete, 40379);
    assert Leads(40379, LateHalf(addr), LateHalf(addr));
    LeadsBack(40353, Storage, a5, LateHalf(addr));
    LeadsBack(40263, Mppt, a4, LateHalf(addr));
    LeadsBack(40237, Controls, addr, LateHalf(addr));
  }

  /** Discovery finds every model of it. */
  lemma CompleteFound(addr: map<Model, int>)
    requires Total(addr)
    ensures Leads(40069, addr, Everything(addr))
  {
    var a0 := addr[Inverter := 40069];
    var a1 := a0[Nameplate := 40131];
    var a2 := a1[Settings := 40159];
    var found := Everything(addr);
    LateFound(a2[Status := 40191]);
    LeadsBack(40191, Status, a2, found);
    LeadsBack(40159, Settings, a1, found);
    LeadsBack(40131, Nameplate, a0, found);
    LeadsBack(40069, Inverter, addr, found);
  }

  lemma EverythingFits(addr: map<Model, int>)
    requires Total(addr)
    ensures Total(Everything(addr)) && Usable(Everything(addr), true) && !EndTrip(Everything(addr))
  {
    var found := Everything(addr);
    assert ModelAt(found, found[Controls] + W_MAX_LIM_ENA) == None;
  }

  lemma CompleteReached(addr: map<Model, int>)
    requires Total(addr)
    ensures ReachesEnd(Complete) && AllFound(Complete, addr) == Everything(addr)
  {
    CompleteFound(addr);
    assert Complete(40002) == COMMON_ID && Next(Complete, 40002) == 40069;
    assert CommonAt(Complete, OFFSET + HDR) == Some(40002);
  }

  /** A new connection to it is all that the results above ask for. */
  lemma CompleteIsUsable(times: seq<nat>) returns (c: Context)
    requires 2 * STORE + 8 <= |times|
    ensures c == OnDiscover(FreshContext(), true) && FirstDiscovery(c, Complete, times)
  {
    c := OnDiscover(FreshContext(), true);
    CompleteReached(c.addr);
    EverythingFits(c.addr);
  }
}
