/** What becomes of an answer: parsed once, stored where it was asked for, and decoded as the model it was asked for. */
module InverterAnswers {
  import opened Wrappers
  import opened InverterSteps
  import opened InverterRuns
  import opened InverterCycles

  // ---- once ----

  /** The address a request was sent for. */
  function Address(p: Pending): int {
    match p
    case Read(a, _) => a
    case Write(a, _) => a
    case Nothing => UNKNOWN
    case Connect => UNKNOWN
  }

  /** What the answer to the outstanding request adds to the log. The acknowledgement that the storage control has been
      enabled is never looked at, and its buffer is never given back. */
  function Entry(c: Context): seq<Option<Model>>
    requires c.Valid()
  {
    if c.state == EnableInverterControl then [] else [ModelAt(c.addr, Address(c.pending))]
  }

  lemma AdvanceParses(c: Context, p: Option<seq<nat>>, s: nat)
    requires c.Valid()
    ensures c.Advance(p, s).parsed == if Silent(c.state) then c.parsed else c.Hear(p).parsed
  {
  }

  /** An answer is parsed exactly once, through whatever cases it falls, and decoded against the address of the request
      it answers. */
  lemma AnswerIsParsedOnce(c: Context, data: seq<nat>, s: nat)
    requires Inv(c) && Legal(c, Answer(data, s))
    ensures OnAnswer(c, data, s).parsed == c.parsed + Entry(c)
  {
    AdvanceParses(c.(pending := Nothing), Some(data), s);
    assert c.parsed + [] == c.parsed;
  }

  lemma OthersParseNothing(c: Context, e: Event)
    requires Inv(c) && Legal(c, e) && !e.Answer?
    ensures Step(c, e).parsed == c.parsed
  {
    match e
    case ConnectDone(s) => AdvanceParses(c.(pending := Nothing), None, s);
    case Hangup(s) => AdvanceParses(c.(pending := Nothing), None, s);
    case StartFetch(s) => AdvanceParses(c.(waitReceive := true, state := StartDataFetch), None, s);
    case StartSend(limit, reserve, charge, active, s) => SendParsesNothing(c, limit, reserve, charge, s);
    case Discover(created) =>
    case WaitEnd =>
    case Failed =>
  }

  lemma SendParsesNothing(c: Context, limit: nat, reserve: nat, charge: nat, s: nat)
    requires c.Valid()
    ensures OnSend(c, limit, reserve, charge, s).parsed == c.parsed
  {
    if c.Held(Controls) && c.Held(Storage) {
      AdvanceParses(c.Command(limit, reserve, charge).(waitReceive := true, state := SetPowerInverter), None, s);
    }
  }

  /** The entries that the answers among the first `k` events call for. */
  ghost function Log(run: seq<Context>, events: seq<Event>, k: nat): seq<Option<Model>>
    requires |run| == |events| + 1 && k <= |events|
  {
    if k == 0 then []
    else
      Log(run, events, k - 1)
      + if events[k - 1].Answer? && run[k - 1].Valid() && !run[k - 1].faulted then Entry(run[k - 1]) else []
  }

  /** Over every run the parsed answers are exactly the answers that came, in order, each one once. */
  lemma {:induction false} AnswersAreParsedOnce(run: seq<Context>, events: seq<Event>, k: nat)
    requires IsRun(run, events) && k <= |events|
    ensures run[k].parsed == Log(run, events, k)
  {
    if k > 0 {
      AnswersAreParsedOnce(run, events, k - 1);
      RequestsAreSettled(run, events, k - 1);
      StepParses(run[k - 1], events[k - 1], run[k]);
    }
  }

  lemma StepParses(c: Context, e: Event, d: Context)
    requires c.Valid() && (c.faulted || Inv(c)) && Follows(c, e, d)
    ensures d.parsed == c.parsed + if e.Answer? && !c.faulted then Entry(c) else []
  {
    assert c.parsed + [] == c.parsed;
    if !c.faulted {
      if e.Answer? {
        AnswerIsParsedOnce(c, e.data, e.s);
      } else {
        OthersParseNothing(c, e);
      }
    }
  }

  /** In a cycle the answer to a read is stored exactly where the request asked for it. */
  lemma AnswerIsStored(c: Context, data: seq<nat>, s: nat)
    requires InCycle(c) && Legal(c, Answer(data, s)) && c.pending.Read? && data != [] && c.Holds(c.pending.at, |data|)
    ensures var before, after, at := c.regs, OnAnswer(c, data, s).regs, c.pending.at - OFFSET;
            after == before[..at] + data + before[at + |data|..]
  {
    CycleTurn(c, data, s);
  }

  // ---- as what was asked for ----

  /** Models that have been found have been found in different places. */
  ghost predicate Distinct(addr: map<Model, int>) {
    && (forall m: Model :: m in addr)
    && forall m: Model, n: Model :: m != n && addr[m] != UNKNOWN ==> addr[m] != addr[n]
  }

  /** The model that a fetch cycle waits for. */
  function Asked(c: Context): Model {
    if c.state.Get? then AskedFor(c.state.stage) else Storage
  }

  /** What an answer with the values of a model is taken for; controls are stored only. */
  function Taken(m: Model): Option<Model> {
    if m == Controls then None else Some(m)
  }

  lemma FoundAt(addr: map<Model, int>, m: Model)
    requires Distinct(addr) && addr[m] != UNKNOWN
    ensures ModelAt(addr, addr[m]) == Taken(m)
  {
  }

  /** In the middle of a fetch, with the addresses `addr`. */
  ghost predicate Fetching(c: Context, addr: map<Model, int>) {
    InCycle(c) && c.addr == addr && !c.pending.Write?
  }

  lemma FetchAsks(c: Context, k: nat, s: nat)
    requires c.Valid() && k <= STAGES && c.pending == Nothing
    ensures !c.FetchFrom(k, s).pending.Write?
    decreases STAGES - k
  {
    if k < STAGES && c.addr[StageModel(k)] != UNKNOWN && !c.Due(k, s) {
      FetchAsks(c, k + 1, s);
    }
  }

  lemma WorkAsks(c: Context, s: nat)
    requires c.Valid() && c.pending == Nothing && (c.state.Get? || c.state == WaitDataResponse)
    ensures !c.Work(s).pending.Write?
  {
    if c.state.Get? {
      FetchAsks(c, c.state.stage, s);
    }
  }

  lemma FetchTurn(c: Context, addr: map<Model, int>, data: seq<nat>, s: nat)
    requires Fetching(c, addr) && Outstanding(c)
    ensures var d := OnAnswer(c, data, s); d.faulted || (d.addr == addr && !d.pending.Write?)
  {
    CycleTurn(c, data, s);
    WorkAsks(c.(pending := Nothing).Hear(Some(data)), s);
  }

  lemma FetchGoesOn(c: Context, addr: map<Model, int>, data: seq<nat>, s: nat)
    requires Fetching(c, addr) && Legal(c, Answer(data, s))
    ensures var d := OnAnswer(c, data, s); d.faulted || Fetching(d, addr)
  {
    AnswerLowersRank(c, data, s);
    FetchTurn(c, addr, data, s);
  }

  /** The answer in a fetch is decoded as the model found at the address of the one that was asked for. */
  lemma FetchedIsDecoded(c: Context, data: seq<nat>, s: nat)
    requires Fetching(c, c.addr) && Outstanding(c) && Legal(c, Answer(data, s))
    ensures OnAnswer(c, data, s).parsed == c.parsed + [ModelAt(c.addr, c.addr[Asked(c)])]
  {
    AnswerIsParsedOnce(c, data, s);
    AskedAt(c);
  }

  lemma AskedAt(c: Context)
    requires InCycle(c) && c.pending.Read?
    ensures Address(c.pending) == c.addr[Asked(c)] != UNKNOWN
  {
  }

  lemma {:induction false} FetchRun(run: seq<Context>, addr: map<Model, int>, n: nat)
    requires Answers(run) && Fetching(run[0], addr) && n < |run|
    ensures run[n].faulted || Fetching(run[n], addr)
  {
    if n > 0 {
      FetchRun(run, addr, n - 1);
      assert Answered(run[n - 1], run[n]);
      var data, s :| Legal(run[n - 1], Answer(data, s)) && run[n] == OnAnswer(run[n - 1], data, s);
      FetchGoesOn(run[n - 1], addr, data, s);
    }
  }

  /** Throughout a fetch every answer adds exactly one entry to the log; and that is the model that was asked for if and
      only if no model that is tried before has been found at the same address. */
  lemma FetchIsDecoded(c: Context, s: nat, run: seq<Context>, n: nat)
    requires Inv(c) && CanStart(c) && Answers(run) && run[0] == OnStart(c, s) && n + 1 < |run|
    ensures var entry := ModelAt(c.addr, c.addr[Asked(run[n])]);
            && run[n + 1].parsed == run[n].parsed + [entry]
            && (entry == Taken(Asked(run[n])) <==> Unshared(c.addr, Asked(run[n])))
  {
    StartFetches(c, s);
    FetchRun(run, c.addr, n);
    assert Answered(run[n], run[n + 1]);
    var data, t :| Legal(run[n], Answer(data, t)) && run[n + 1] == OnAnswer(run[n], data, t);
    FetchedIsDecoded(run[n], data, t);
    UnsharedExact(c.addr, Asked(run[n]));
  }

  /** The order in which the decoding tries the models; it does not try the controls, so all others come first. */
  function Turn(m: Model): nat {
    match m
    case Inverter => 0
    case Nameplate => 1
    case Settings => 2
    case Status => 3
    case Mppt => 4
    case Storage => 5
    case Controls => 6
  }

  /** No model that is tried before `m` has been found at the same address. */
  ghost predicate Unshared(addr: map<Model, int>, m: Model)
    requires forall k: Model :: k in addr
  {
    forall k: Model :: Turn(k) < Turn(m) ==> addr[k] != addr[m]
  }

  lemma UnsharedExact(addr: map<Model, int>, m: Model)
    requires forall k: Model :: k in addr
    ensures ModelAt(addr, addr[m]) == Taken(m) <==> Unshared(addr, m)
  {
    var found := ModelAt(addr, addr[m]);
    if found.Some? {
      assert addr[found.value] == addr[m] && Turn(found.value) <= Turn(m);
    }
  }

  lemma StartFetches(c: Context, s: nat)
    requires Inv(c) && CanStart(c)
    ensures Fetching(OnStart(c, s), c.addr)
  {
    StartInCycle(c, s);
  }
}
