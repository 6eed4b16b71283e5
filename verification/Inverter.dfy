/** The connection to one inverter as the firmware keeps it: fields updated by a switch with fall-through. */
module Inverter {
  import opened Wrappers
  import opened InverterSteps

  class Connection {
    var connected: bool
    var named: bool
    var waitReceive: bool
    var requestClose: bool
    var faulted: bool // a null pointer has been followed
    var state: State
    var waitCount: nat
    var nextHdr: int
    var commonAddr: int
    var addr: map<Model, int>
    var fetched: map<Model, nat>
    var mpptLength: int
    var lastAddr: int
    var regs: seq<nat>
    ghost var parsed: seq<Option<Model>> // what each answer parsed was decoded as
    ghost var pending: Pending // the request the other side has not answered yet
    ghost var sent: nat // how many requests have been sent
    var wakeups: nat

    ghost function View(): Context
      reads this
    {
      Context(connected, named, waitReceive, requestClose, faulted, state, waitCount, nextHdr, commonAddr, addr,
              fetched, mpptLength, lastAddr, regs, parsed, pending, sent, wakeups)
    }

    constructor ()
      ensures View() == FreshContext()
    {
      connected, named, waitReceive, requestClose, faulted := false, false, false, false, false;
      state, waitCount, nextHdr, commonAddr := Idle, 0, UNKNOWN, UNKNOWN;
      addr, fetched := AllModels(UNKNOWN), AllModels(0);
      mpptLength, lastAddr := UNKNOWN, UNKNOWN;
      regs, parsed, pending, sent, wakeups := seq(STORE, _ => 0), [], Nothing, 0, 0;
    }

    method RequestRegisters(at: int, count: nat)
      modifies this`lastAddr, this`pending, this`sent
      ensures View() == old(View()).Ask(at, count, state)
    {
      lastAddr := at;
      pending := Read(at, count);
      sent := sent + 1;
    }

    /** A request, and the state that waits for its answer. */
    method RequestThen(at: int, count: nat, next: State)
      modifies this`lastAddr, this`pending, this`sent, this`state
      ensures View() == old(View()).Ask(at, count, next)
    {
      RequestRegisters(at, count);
      state := next;
    }

    method RequestWrite(at: int, count: nat)
      requires View().Valid() && View().Holds(at, count)
      modifies this`lastAddr, this`pending, this`sent
      ensures View() == old(View()).Tell(at, count, state)
    {
      lastAddr := at;
      pending := Write(at, regs[at - OFFSET..at - OFFSET + count]);
      sent := sent + 1;
    }

    /** The pointer to a model's registers; null when they are not all held. */
    predicate Pointer(m: Model)
      requires View().Valid()
      reads this
      ensures Pointer(m) == View().Held(m)
    {
      OFFSET <= addr[m] && addr[m] + Size(m) <= TOP
    }

    /** Stores, consumes and decodes the answer; the caller's `p` is gone afterwards. */
    method ParseFrame(p: Option<seq<nat>>) returns (p': Option<seq<nat>>)
      requires View().Valid() && !faulted && (p.Some? || NeedsAnswer(state))
      modifies this`regs, this`parsed, this`faulted
      ensures View() == old(View()).Hear(p) && p' == None
    {
      p' := None;
      if p.None? {
        faulted := true;
        return;
      }
      if p.value != [] && OFFSET <= lastAddr && lastAddr + |p.value| <= TOP {
        regs := regs[..lastAddr - OFFSET] + p.value + regs[lastAddr - OFFSET + |p.value|..];
      }
      Decode();
    }

    method Decode()
      requires View().Valid() && !faulted
      modifies this`parsed, this`faulted
      ensures View() == old(View()).(parsed := parsed, faulted := faulted)
      ensures parsed == old(parsed) + [old(View()).DecodedAs()] && faulted == old(View()).DecodeFails()
    {
      if lastAddr == addr[Inverter] {
        DecodeModel(Inverter);
      } else if lastAddr == addr[Nameplate] {
        DecodeModel(Nameplate);
      } else if lastAddr == addr[Settings] {
        DecodeModel(Settings);
      } else if lastAddr == addr[Status] {
        DecodeModel(Status);
      } else if lastAddr == addr[Mppt] {
        DecodeModel(Mppt);
      } else if lastAddr == addr[Storage] {
        DecodeModel(Storage);
      } else {
        parsed := parsed + [None];
      }
    }

    /** Reads the values of the model, which goes through its pointer. */
    method DecodeModel(m: Model)
      requires View().Valid() && !faulted
      modifies this`parsed, this`faulted
      ensures View() == old(View()).(parsed := parsed, faulted := faulted)
      ensures parsed == old(parsed) + [Some(m)] && faulted == !old(View()).Held(m)
    {
      parsed := parsed + [Some(m)];
      if !Pointer(m) {
        faulted := true;
      }
    }

    /** The switch, its end, and the wake-up of the waiting task. */
    method AdvanceContextState(answer: Option<seq<nat>>, s: nat)
      requires View().Valid() && !faulted
      modifies this
      ensures View() == old(View()).Advance(answer, s)
    {
      var prev := state;
      Switch(answer, s);
      if !faulted {
        WakeUp(prev);
      }
    }

    method Switch(answer: Option<seq<nat>>, s: nat)
      requires View().Valid() && !faulted
      modifies this
      ensures View() == old(View()).Turn(answer, s)
    {
      if Silent(state) {
        Start();
      } else if NeedsAnswer(state) {
        SetUp(answer);
      } else {
        Work(answer, s);
      }
    }

    method WakeUp(prev: State)
      modifies this`waitReceive, this`wakeups
      ensures View() == old(View()).Finish(prev)
    {
      if state == Idle {
        waitReceive := false;
      }
      if state == Idle && prev != Idle {
        wakeups := wakeups + 1;
      }
    }

    method Start()
      requires View().Valid() && Silent(state)
      modifies this
      ensures View() == old(View()).Begin()
    {
      match state {
        case Idle => waitCount := 0;
        case Connecting => Connect();
        case EnableStorageControl => EnableStorageWrite();
        case EnableInverterControl => EnableInverterWrite();
        case StartDataFetch => FetchInverterModel();
        case GetInverterInfos => FetchInverterModel();
      }
    }

    /** These labels parse the answer in any case. */
    method SetUp(answer: Option<seq<nat>>)
      requires View().Valid() && !faulted && NeedsAnswer(state)
      modifies this
      ensures View() == old(View()).Turn(answer, 0)
    {
      var p := ParseFrame(answer);
      if faulted {
        return;
      }
      match state {
        case CheckSuns => CheckSunsHeader();
        case FindCommonHdr => FindCommonHeader();
        case GetCommonInfos => GetName();
        case FindDataHdr => FindDataHeader();
      }
    }

    /** These labels parse the answer if there is one. */
    method Work(answer: Option<seq<nat>>, s: nat)
      requires View().Valid() && !faulted && !Silent(state) && !NeedsAnswer(state)
      modifies this
      ensures View() == old(View()).Turn(answer, s)
    {
      if state.Get? {
        FetchStages(answer, s);
        return;
      }
      if answer.Some? {
        var p := ParseFrame(answer);
      }
      if faulted {
        return;
      }
      match state {
        case WaitDataResponse => state := Idle;
        case SetPowerInverter => SendRegister(addr[Controls] + W_MAX_LIM_PCT, SetPowerStorage);
        case SetPowerStorage => SendRegister(addr[Storage] + W_CHA_MAX, SetMinSocStorage);
        case SetMinSocStorage => SendRegister(addr[Storage] + MIN_RSV_PCT, WaitDataResponse);
      }
    }

    method Connect()
      modifies this
      ensures View() == old(View()).Connected()
    {
      connected := true;
      if named {
        state := Idle;
        return;
      }
      RequestRegisters(OFFSET, |SUNS|);
      state := CheckSuns;
    }

    method CheckSunsHeader()
      requires View().Valid()
      modifies this
      ensures View() == old(View()).CheckHeader()
    {
      if !(OFFSET <= lastAddr && lastAddr + HDR <= TOP) || regs[lastAddr - OFFSET..lastAddr - OFFSET + HDR] != SUNS {
        requestClose := true;
        return;
      }
      state := FindCommonHdr;
      RequestRegisters(lastAddr + HDR, HDR);
    }

    method FindCommonHeader()
      requires View().Valid() && state == FindCommonHdr
      modifies this
      ensures View() == old(View()).SearchCommon()
    {
      if !(OFFSET <= lastAddr && lastAddr + HDR <= TOP) {
        requestClose := true;
        return;
      }
      nextHdr := lastAddr + HDR + regs[lastAddr + 1 - OFFSET];
      if regs[lastAddr - OFFSET] == COMMON_ID {
        commonAddr := lastAddr;
        RequestThen(lastAddr + DEVICE_MODEL, NAME_LENGTH, GetCommonInfos);
      } else {
        RequestRegisters(nextHdr, HDR);
      }
    }

    method GetName()
      requires View().Valid()
      modifies this
      ensures View() == old(View()).TakeName()
    {
      if !(OFFSET <= lastAddr && lastAddr + NAME_LENGTH <= TOP) {
        requestClose := true;
        return;
      }
      named := true;
      RequestRegisters(nextHdr, HDR);
      state := FindDataHdr;
    }

    /** Notes the address of a known model. */
    method RecordHeader(id: nat, length: nat)
      requires View().Valid() && View().Holds(lastAddr, HDR)
      requires id == View().Id() && length == regs[lastAddr + 1 - OFFSET]
      modifies this`addr, this`mpptLength
      ensures View() == old(View()).Record()
    {
      var found := ModelOf(id);
      if found.Some? {
        addr := addr[found.value := lastAddr];
        if found.value == Mppt {
          mpptLength := length;
        }
      }
    }

    method FindDataHeader()
      requires View().Valid() && state == FindDataHdr
      modifies this
      ensures View() == old(View()).SearchData()
    {
      if !(OFFSET <= lastAddr && lastAddr + HDR <= TOP) {
        requestClose := true;
        return;
      }
      var id, length := regs[lastAddr - OFFSET], regs[lastAddr + 1 - OFFSET];
      RecordHeader(id, length);
      FollowHeader(id, length);
    }

    method FollowHeader(id: nat, length: nat)
      requires View().Valid() && state == FindDataHdr
      modifies this
      ensures View() == old(View().Follow(id, lastAddr + HDR + length))
    {
      if id == END_ID {
        state := EnableStorageControl;
      }
      if state != EnableStorageControl {
        nextHdr := lastAddr + HDR + length;
        RequestRegisters(nextHdr, HDR);
        return;
      }
      EnableStorageWrite(); // fall through
    }

    method WriteRegister(at: int, v: nat, next: State)
      requires View().Valid() && View().Holds(at, 1)
      modifies this
      ensures View() == old(View()).Put(at, v).Tell(at, 1, next)
    {
      regs := regs[at - OFFSET := v];
      state := next;
      RequestWrite(at, 1);
    }

    method EnableStorageWrite()
      requires View().Valid()
      modifies this
      ensures View() == old(View()).EnableStorage()
    {
      if addr[Storage] == UNKNOWN {
        requestClose := true;
        return;
      }
      if !Pointer(Storage) {
        faulted := true;
        return;
      }
      WriteRegister(addr[Storage] + STOR_CTL_MOD, 3, EnableInverterControl);
    }

    method EnableInverterWrite()
      requires View().Valid()
      modifies this
      ensures View() == old(View()).EnableControls()
    {
      if addr[Controls] == UNKNOWN {
        requestClose := true;
        return;
      }
      if !Pointer(Controls) {
        faulted := true;
        return;
      }
      WriteRegister(addr[Controls] + W_MAX_LIM_ENA, 1, WaitDataResponse);
    }

    /** Control stands at label `at` with answer `p` still to be parsed, and leads to `goal` from there. */
    ghost predicate LeadsTo(goal: Context, at: nat, p: Option<seq<nat>>, s: nat)
      reads this
    {
      && View().Valid()
      && (at == DONE ==> View() == goal)
      && (at != DONE ==> at <= STAGES && !faulted && !NeedsAnswer(state) && From(at, p, s) == goal)
    }

    /** Parsing what is still to be parsed, and falling through from label `at`. */
    ghost function From(at: nat, p: Option<seq<nat>>, s: nat): Context
      requires View().Valid() && at <= STAGES
      reads this
    {
      var c := View().Hear(p);
      if c.faulted then c else c.FetchFrom(at, s)
    }

    /** The label of refetch stage `k`, passed over unless control has come there: parses an answer still at hand,
        then breaks, requests, or falls through to the next label. */
    method Stage(k: nat, at: nat, answer: Option<seq<nat>>, s: nat, ghost goal: Context)
      returns (next: nat, p: Option<seq<nat>>)
      requires k < STAGES && LeadsTo(goal, at, answer, s)
      modifies this
      ensures LeadsTo(goal, next, p, s)
      ensures next in {at, k + 1, DONE} && next != k && (at != k ==> next == at)
      ensures next == k + 1 && at == k ==> p == None
    {
      next, p := at, answer;
      if at == k {
        if answer.Some? {
          p := ParseFrame(answer);
        }
        if faulted {
          return DONE, p;
        }
        next := StageBody(k, s, goal);
      }
    }

    method StageBody(k: nat, s: nat, ghost goal: Context) returns (next: nat)
      requires k < STAGES && View().Valid() && !faulted && !NeedsAnswer(state) && View().FetchFrom(k, s) == goal
      modifies this
      ensures LeadsTo(goal, next, None, s) && next in {k + 1, DONE}
    {
      var m := StageModel(k);
      if addr[m] == UNKNOWN {
        state := Idle;
        requestClose := true;
        return DONE;
      }
      if IsDue(k, fetched[m], s) {
        RequestModel(k, s);
        return DONE;
      }
      return k + 1;
    }

    method RequestModel(k: nat, s: nat)
      requires k < STAGES && View().Valid()
      modifies this
      ensures View() == old(View()).Fetch(k, s)
    {
      var m := StageModel(k);
      fetched := fetched[(if m == Mppt then Controls else m) := s];
      RequestThen(addr[m], if m == Mppt then Nat(mpptLength) else Size(m), After(k));
    }

    /** The stages one after the other, entered at the current state. */
    method FetchStages(answer: Option<seq<nat>>, s: nat)
      requires View().Valid() && !faulted && state.Get?
      modifies this
      ensures View() == old(View()).Turn(answer, s)
    {
      ghost var goal := View().Turn(answer, s);
      var at: nat, p := state.stage, answer;
      at, p := Stage(0, at, p, s, goal);
      at, p := Stage(1, at, p, s, goal);
      at, p := Stage(2, at, p, s, goal);
      FetchLaterStages(at, p, s, goal);
    }

    method FetchLaterStages(label0: nat, answer: Option<seq<nat>>, s: nat, ghost goal: Context)
      requires LeadsTo(goal, label0, answer, s) && 3 <= label0 && label0 != STAGES
      modifies this
      ensures View() == goal
    {
      var at, p := label0, answer;
      at, p := Stage(3, at, p, s, goal);
      at, p := Stage(4, at, p, s, goal);
      FetchLastStage(at, p, s, goal);
    }

    /** The label behind the last stage is the one that waits for data; control falls into it with the answer parsed
        already. */
    method FetchLastStage(label0: nat, answer: Option<seq<nat>>, s: nat, ghost goal: Context)
      requires LeadsTo(goal, label0, answer, s) && 5 <= label0 && label0 != STAGES
      modifies this
      ensures View() == goal
    {
      var at, p := Stage(5, label0, answer, s, goal);
      if at == STAGES {
        state := Idle;
      }
    }

    method FetchInverterModel()
      requires View().Valid()
      modifies this
      ensures View() == old(View()).FetchInverter()
    {
      state := GetInverterInfos;
      if addr[Inverter] == UNKNOWN {
        state := Idle;
        requestClose := true;
        return;
      }
      RequestRegisters(addr[Inverter], Size(Inverter));
      state := Get(0);
    }

    /** Writes one register, which has to be one of those held. */
    method SendRegister(at: int, next: State)
      requires View().Valid()
      modifies this
      ensures View() == old(View()).TellOne(at, next)
    {
      if !(OFFSET <= at && at + 1 <= TOP) {
        faulted := true;
        return;
      }
      RequestWrite(at, 1);
      state := next;
    }
  }

  const DONE := 100 // no label of the switch
}
