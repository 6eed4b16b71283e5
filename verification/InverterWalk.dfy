/** Discovery: what walking the chain of model headers finds in an inverter's registers, whatever they hold. */
module InverterWalk {
  import opened Wrappers
  import opened InverterSteps
  import opened InverterRuns

  /** The registers of the other side, by address. */
  type Device = int -> nat

  function Slice(dev: Device, a: int, n: nat): (s: seq<nat>)
    ensures |s| == n && forall i :: 0 <= i < n ==> s[i] == dev(a + i)
  {
    seq(n, i => dev(a + i))
  }

  function Reply(dev: Device, p: Pending): seq<nat> {
    if p.Read? then Slice(dev, p.at, p.count) else []
  }

  /** The device answers the outstanding request; nothing happens when there is none. */
  ghost function Respond(c: Context, dev: Device, s: nat): Context {
    if c.Valid() && !c.faulted && Outstanding(c) then OnAnswer(c, Reply(dev, c.pending), s) else c
  }

  ghost function Responses(c: Context, dev: Device, times: seq<nat>): Context
    decreases |times|
  {
    if times == [] then c else var d := Respond(c, dev, times[0]); Responses(d, dev, times[1..])
  }

  // ---- the chain ----

  predicate InStore(a: int) {
    OFFSET <= a && a + HDR <= TOP
  }

  function Next(dev: Device, a: int): int {
    a + HDR + dev(a + 1)
  }

  /** The headers from address `a` on, up to the end marker or the end of the storage. */
  function Chain(dev: Device, a: int): seq<int>
    decreases TOP - a
  {
    if !InStore(a) then [] else if dev(a) == END_ID then [a] else [a] + Chain(dev, Next(dev, a))
  }

  /** Whether the chain comes to its end marker. */
  predicate Ends(dev: Device, a: int)
    decreases TOP - a
  {
    InStore(a) && (dev(a) == END_ID || Ends(dev, Next(dev, a)))
  }

  /** The last header of model `m` in the chain, or `default`. */
  function Latest(chain: seq<int>, dev: Device, m: Model, default: int): int {
    if chain == [] then default
    else Latest(chain[1..], dev, m, if ModelOf(dev(chain[0])) == Some(m) then chain[0] else default)
  }

  lemma {:induction false} LatestExact(chain: seq<int>, dev: Device, m: Model, default: int)
    ensures var a := Latest(chain, dev, m, default);
            || (a == default && forall i :: 0 <= i < |chain| ==> ModelOf(dev(chain[i])) != Some(m))
            || (exists i :: 0 <= i < |chain| && a == chain[i] && ModelOf(dev(chain[i])) == Some(m)
                            && forall j :: i < j < |chain| ==> ModelOf(dev(chain[j])) != Some(m))
  {
    if chain != [] {
      var d := if ModelOf(dev(chain[0])) == Some(m) then chain[0] else default;
      LatestExact(chain[1..], dev, m, d);
      var a := Latest(chain[1..], dev, m, d);
      if i :| 0 <= i < |chain[1..]| && a == chain[1..][i] && ModelOf(dev(chain[1..][i])) == Some(m)
              && forall j :: i < j < |chain[1..]| ==> ModelOf(dev(chain[1..][j])) != Some(m) {
        assert a == chain[i + 1];
        forall j | i + 1 < j < |chain| ensures ModelOf(dev(chain[j])) != Some(m) {
          assert chain[j] == chain[1..][j - 1];
        }
      } else {
        forall j | 0 < j < |chain| ensures ModelOf(dev(chain[j])) != Some(m) {
          assert chain[j] == chain[1..][j - 1];
        }
      }
    }
  }

  // ---- null pointers ----

  ghost predicate Total(addr: map<Model, int>) {
    forall m: Model :: m in addr
  }

  predicate Fits(a: int, m: Model) {
    OFFSET <= a && a + Size(m) <= TOP
  }

  /** An answer for address `a` is decoded as a model that does not fit there. */
  predicate Trip(addr: map<Model, int>, a: int)
    requires Total(addr)
  {
    ModelAt(addr, a).Some? && !Fits(a, ModelAt(addr, a).value)
  }

  predicate Over(addr: map<Model, int>, m: Model)
    requires Total(addr)
  {
    addr[m] != UNKNOWN && !Fits(addr[m], m)
  }

  /** Enabling the controls, or hearing that they have been, goes wrong with these addresses. */
  predicate ControlsTrip(addr: map<Model, int>)
    requires Total(addr)
  {
    addr[Controls] != UNKNOWN && (Over(addr, Controls) || Trip(addr, addr[Controls] + W_MAX_LIM_ENA))
  }

  /** What follows the end marker goes wrong with these addresses. */
  predicate EndTrip(addr: map<Model, int>)
    requires Total(addr)
  {
    addr[Storage] != UNKNOWN && (Over(addr, Storage) || ControlsTrip(addr))
  }

  /** The walk from `a` on follows a null pointer. */
  predicate Trips(dev: Device, a: int, addr: map<Model, int>)
    requires Total(addr)
    decreases TOP - a
  {
    || Trip(addr, a)
    || (InStore(a) && if dev(a) == END_ID then EndTrip(addr) else Trips(dev, Next(dev, a), Noted(addr, dev, a)))
  }

  /** The addresses after noting the header at `a`. */
  function Noted(addr: map<Model, int>, dev: Device, a: int): (noted: map<Model, int>)
    requires Total(addr)
    ensures Total(noted)
  {
    match ModelOf(dev(a))
    case None => addr
    case Some(m) => addr[m := a]
  }

  /** The addresses after the whole walk. */
  function Found(addr: map<Model, int>, dev: Device, a: int): (found: map<Model, int>)
    requires Total(addr)
    ensures Total(found) && forall m: Model :: found[m] == Latest(Chain(dev, a), dev, m, addr[m])
  {
    ModelsAreMapped();
    map m | m in MODELS :: Latest(Chain(dev, a), dev, m, addr[m])
  }

  lemma ModelsAreMapped()
    ensures forall m: Model :: m in MODELS
  {
    forall m: Model ensures m in MODELS {
      ModelsAreAll(m);
    }
  }

  /** No address that the walk is still to come to belongs to a model that does not fit there. */
  ghost predicate Ahead(addr: map<Model, int>, a: int) {
    Total(addr) && forall m: Model :: addr[m] < a || Fits(addr[m], m)
  }

  /** The walk follows a null pointer if and only if it comes to the end marker and has found a storage that reaches
      beyond what is held, or such controls behind a proper one. */
  lemma {:induction false} TripsExact(dev: Device, a: int, addr: map<Model, int>)
    requires OFFSET <= a && Ahead(addr, a)
    ensures Trips(dev, a, addr) <==> Ends(dev, a) && EndTrip(Found(addr, dev, a))
    decreases TOP - a
  {
    if InStore(a) && dev(a) != END_ID {
      TripsExact(dev, Next(dev, a), Noted(addr, dev, a));
      FoundNext(addr, dev, a);
    } else if InStore(a) {
      FoundEnd(addr, dev, a);
    }
  }

  lemma FoundEnd(addr: map<Model, int>, dev: Device, a: int)
    requires Total(addr) && (!InStore(a) || dev(a) == END_ID)
    ensures forall m: Model :: Found(addr, dev, a)[m] == addr[m]
    ensures EndTrip(Found(addr, dev, a)) == EndTrip(addr)
  {
    ChainEnd(dev, a);
  }

  lemma FoundNext(addr: map<Model, int>, dev: Device, a: int)
    requires Total(addr) && InStore(a) && dev(a) != END_ID
    ensures Found(addr, dev, a) == Found(Noted(addr, dev, a), dev, Next(dev, a))
    ensures Ends(dev, a) == Ends(dev, Next(dev, a))
  {
    ChainNext(dev, a, addr);
  }

  lemma ChainEnd(dev: Device, a: int)
    requires !InStore(a) || dev(a) == END_ID
    ensures forall m: Model, x: int :: Latest(Chain(dev, a), dev, m, x) == x
    ensures Ends(dev, a) == InStore(a)
  {
  }

  lemma ChainNext(dev: Device, a: int, addr: map<Model, int>)
    requires InStore(a) && dev(a) != END_ID && Total(addr)
    ensures forall m: Model ::
              Latest(Chain(dev, a), dev, m, addr[m]) == Latest(Chain(dev, Next(dev, a)), dev, m, Noted(addr, dev, a)[m])
    ensures Ends(dev, a) == Ends(dev, Next(dev, a))
  {
    var chain, tail := Chain(dev, a), Chain(dev, Next(dev, a));
    assert chain[0] == a && chain[1..] == tail;
  }

  // ---- one header ----

  /** The context waiting for the header at `a`. */
  ghost predicate Walking(c: Context, a: int) {
    && Settled(c) && c.state == FindDataHdr && c.pending == Read(a, HDR) && OFFSET <= a && !c.requestClose && c.named
  }

  lemma HeaderReceived(c: Context, dev: Device)
    requires c.Valid() && !c.faulted && c.Holds(c.lastAddr, HDR) && !Trip(c.addr, c.lastAddr)
    ensures var d := c.Hear(Some(Slice(dev, c.lastAddr, HDR)));
            && !d.faulted && d.Id() == dev(c.lastAddr) && d.Behind() == Next(dev, c.lastAddr)
            && d == c.(regs := d.regs, parsed := d.parsed)
  {
  }

  /** Any answer that is decoded as a model that does not fit follows a null pointer. */
  lemma TripStep(c: Context, dev: Device, s: nat)
    requires Settled(c) && Outstanding(c) && !Silent(c.state) && Trip(c.addr, c.lastAddr)
    ensures Respond(c, dev, s).faulted
  {
    var v, data := c.(pending := Nothing), Reply(dev, c.pending);
    assert v.DecodeFails() && v.Hear(Some(data)).faulted;
    assert v.Turn(Some(data), s) == v.Hear(Some(data));
  }

  /** A header is to be read at `a`, in the search for the common model or in the walk behind it. */
  ghost predicate Reading(c: Context, a: int) {
    && Settled(c) && c.state in {FindCommonHdr, FindDataHdr} && c.pending == Read(a, HDR) && !c.requestClose
    && InStore(a) && !Trip(c.addr, a)
  }

  /** Answering with the header at `a` means receiving it, and searching on or noting and following it. */
  lemma HeaderAnswered(c: Context, dev: Device, a: int, s: nat) returns (w: Context)
    requires Reading(c, a)
    ensures Ready(w) && w.Holds(w.lastAddr, HDR) && w == c.(pending := Nothing, regs := w.regs, parsed := w.parsed)
    ensures w.Id() == dev(a) && w.Behind() == Next(dev, a)
    ensures var e := if c.state == FindCommonHdr then w.SearchCommon() else w.Record().Follow(dev(a), Next(dev, a));
            Respond(c, dev, s) == if e.faulted then e else e.Finish(c.state)
  {
    var v := c.(pending := Nothing);
    SettledReady(c);
    HeaderReceived(v, dev);
    HearReady(v, Some(Slice(dev, a, HDR)));
    w := v.Hear(Some(Slice(dev, a, HDR)));
  }

  lemma NotedBy(c: Context, dev: Device, a: int)
    requires c.Valid() && c.Holds(c.lastAddr, HDR) && c.lastAddr == a && c.Id() == dev(a)
    ensures c.Record().addr == Noted(c.addr, dev, a)
  {
  }

  /** Getting a header that is not the last: it is noted, and the next one is asked for. */
  lemma HeaderStep(c: Context, dev: Device, a: int, s: nat)
    requires Walking(c, a) && InStore(a) && !Trip(c.addr, a) && dev(a) != END_ID
    ensures var d := Respond(c, dev, s);
            Walking(d, Next(dev, a)) && d.addr == Noted(c.addr, dev, a)
  {
    var w := HeaderAnswered(c, dev, a, s);
    NotedBy(w, dev, a);
    RecordReady(w);
    FollowTurn(w.Record(), dev(a), Next(dev, a));
    FinishKeeps(w.Record(), w.Record().Follow(dev(a), Next(dev, a)), FindDataHdr);
  }

  /** What the end marker leads to. */
  ghost predicate AfterEnd(c: Context, d: Context) {
    && c.Valid()
    && (if c.addr[Storage] == UNKNOWN then d.addr == c.addr && d.requestClose && d.pending == Nothing && !d.faulted
        else if Over(c.addr, Storage) then d.faulted
        else && d.addr == c.addr && d.state == EnableInverterControl && Settled(d) && !d.requestClose
             && d.named == c.named && d.pending == Write(c.addr[Storage] + STOR_CTL_MOD, [3]))
  }

  lemma EndFollowed(c: Context, behind: int)
    requires Ready(c) && c.state == FindDataHdr && !c.requestClose && c.Holds(c.lastAddr, HDR) && c.Id() == END_ID
    ensures var e := c.Record().Follow(END_ID, behind);
            AfterEnd(c, if e.faulted then e else e.Finish(FindDataHdr))
  {
    assert c.Record() == c;
    var v := c.(state := EnableStorageControl);
    EnableStorageTurn(v);
    if c.addr[Storage] != UNKNOWN && !Over(c.addr, Storage) {
      StorageEnabled(v);
      FinishKeeps(v, v.EnableStorage(), FindDataHdr);
    }
  }

  lemma StorageEnabled(c: Context)
    requires Ready(c) && c.Held(Storage)
    ensures var d := c.EnableStorage();
            && d.addr == c.addr && d.named == c.named && !d.faulted && d.requestClose == c.requestClose
            && d.state == EnableInverterControl && d.pending == Write(c.addr[Storage] + STOR_CTL_MOD, [3])
  {
    var a := c.addr[Storage] + STOR_CTL_MOD;
    var e := c.Put(a, 3);
    assert e.regs[a - OFFSET..a - OFFSET + 1] == [3];
  }

  /** Getting the end marker: the storage is enabled if there is one. */
  lemma EndStep(c: Context, dev: Device, a: int, s: nat)
    requires Walking(c, a) && InStore(a) && !Trip(c.addr, a) && dev(a) == END_ID
    ensures AfterEnd(c, Respond(c, dev, s))
  {
    var w := HeaderAnswered(c, dev, a, s);
    EndFollowed(w, Next(dev, a));
  }

  /** A header outside of the storage: the connection is given up. */
  lemma OverflowStep(c: Context, dev: Device, a: int, s: nat)
    requires Walking(c, a) && !InStore(a) && !Trip(c.addr, a)
    ensures var d := Respond(c, dev, s);
            d.addr == c.addr && d.requestClose && d.pending == Nothing && !d.faulted
  {
  }

  lemma {:induction false} Quiet(c: Context, dev: Device, times: seq<nat>)
    requires c.pending == Nothing || c.faulted
    ensures Responses(c, dev, times) == c
  {
    if times != [] {
      Quiet(c, dev, times[1..]);
    }
  }

  // ---- after the walk ----

  /** What the acknowledgement of the storage control leads to. */
  ghost predicate AfterStorage(c: Context, d: Context) {
    && c.Valid()
    && (if c.addr[Controls] == UNKNOWN then d.addr == c.addr && d.requestClose && d.pending == Nothing && !d.faulted
        else if Over(c.addr, Controls) then d.faulted
        else && d.addr == c.addr && Settled(d) && d.state == WaitDataResponse && !d.requestClose
             && d.named == c.named && d.pending == Write(c.addr[Controls] + W_MAX_LIM_ENA, [1]))
  }

  lemma ControlsStep(c: Context, dev: Device, s: nat)
    requires Settled(c) && c.state == EnableInverterControl && c.pending.Write? && !c.requestClose
    ensures AfterStorage(c, Respond(c, dev, s))
  {
    AnswerKeepsInv(c, [], s);
    if !Over(c.addr, Controls) && c.addr[Controls] != UNKNOWN {
      var a := c.addr[Controls] + W_MAX_LIM_ENA;
      var e := c.(pending := Nothing).Put(a, 1);
      assert e.regs[a - OFFSET..a - OFFSET + 1] == [1];
    }
  }

  lemma LastStep(c: Context, dev: Device, s: nat)
    requires Settled(c) && c.state == WaitDataResponse && c.pending.Write? && !c.requestClose
    ensures var d := Respond(c, dev, s);
            if Trip(c.addr, c.pending.to) then d.faulted
            else d.addr == c.addr && d.named == c.named && d.state == Idle && !d.requestClose && Settled(d)
  {
    AnswerKeepsInv(c, [], s);
  }

  /** A context at rest after discovery: usable, or about to be closed. */
  ghost predicate Outcome(c: Context, usable: bool) {
    && !c.faulted && c.pending == Nothing
    && (if usable then Settled(c) && CanStart(c) && !c.requestClose else c.requestClose)
  }

  ghost predicate Enabled(c: Context, d: Context) {
    && c.Valid()
    && (if ControlsTrip(c.addr) then d.faulted else d.addr == c.addr && Outcome(d, c.addr[Controls] != UNKNOWN))
  }

  lemma StepsAfterStorage(c: Context, d: Context, dev: Device, times: seq<nat>)
    requires AfterStorage(c, d) && c.named && times != []
    ensures Enabled(c, Responses(d, dev, times))
  {
    if c.addr[Controls] == UNKNOWN || Over(c.addr, Controls) {
      Quiet(d, dev, times);
    } else {
      LastStep(d, dev, times[0]);
      Quiet(Respond(d, dev, times[0]), dev, times[1..]);
    }
  }

  lemma EnableSteps(c: Context, dev: Device, times: seq<nat>)
    requires Settled(c) && c.state == EnableInverterControl && c.pending.Write? && !c.requestClose && c.named
    requires 2 <= |times|
    ensures Enabled(c, Responses(c, dev, times))
  {
    ControlsStep(c, dev, times[0]);
    StepsAfterStorage(c, Respond(c, dev, times[0]), dev, times[1..]);
  }

  predicate Usable(addr: map<Model, int>, ends: bool)
    requires Total(addr)
  {
    ends && addr[Storage] != UNKNOWN && addr[Controls] != UNKNOWN
  }

  /** What the walk is to reach from context `c` at header `a`. */
  ghost predicate Walked(c: Context, d: Context, dev: Device, a: int) {
    && c.Valid()
    && (if Trips(dev, a, c.addr) then d.faulted
        else d.addr == Found(c.addr, dev, a) && Outcome(d, Usable(d.addr, Ends(dev, a))))
  }

  lemma WalkEnds(c: Context, dev: Device, a: int, times: seq<nat>)
    requires Walking(c, a) && !Trip(c.addr, a) && (!InStore(a) || dev(a) == END_ID) && 3 <= |times|
    ensures Walked(c, Responses(c, dev, times), dev, a)
  {
    FoundEnd(c.addr, dev, a);
    assert Found(c.addr, dev, a) == c.addr;
    ChainEnd(dev, a);
    var d, rest := Respond(c, dev, times[0]), times[1..];
    if !InStore(a) {
      OverflowStep(c, dev, a, times[0]);
      Quiet(d, dev, rest);
    } else {
      EndStep(c, dev, a, times[0]);
      if c.addr[Storage] == UNKNOWN || Over(c.addr, Storage) {
        Quiet(d, dev, rest);
      } else {
        EnableSteps(d, dev, rest);
      }
    }
  }

  /** On every register map the walk comes to rest or follows a null pointer. At rest every known model has the address
      of its last header in the chain, or the one it had before; and the connection is usable exactly if the end
      marker, a storage and controls were found. */
  lemma {:induction false} Walk(c: Context, dev: Device, a: int, times: seq<nat>)
    requires Walking(c, a) && TOP - a + 3 <= |times| && 3 <= |times|
    ensures Walked(c, Responses(c, dev, times), dev, a)
    decreases TOP - a
  {
    if Trip(c.addr, a) {
      TripStep(c, dev, times[0]);
      Quiet(Respond(c, dev, times[0]), dev, times[1..]);
    } else if !InStore(a) || dev(a) == END_ID {
      WalkEnds(c, dev, a, times);
    } else {
      HeaderStep(c, dev, a, times[0]);
      var d := Respond(c, dev, times[0]);
      Walk(d, dev, Next(dev, a), times[1..]);
      FoundNext(c.addr, dev, a);
    }
  }
}
