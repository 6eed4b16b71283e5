/** Fetch and send cycles: what they ask for and write, how many answers they need, and how a silent inverter is
    closed. */
module InverterCycles {
  import opened Wrappers
  import opened InverterSteps
  import opened InverterRuns

  // ---- what is asked for ----

  /** The first stage from `k` on whose model is unknown or due, or their number. */
  function FirstStop(c: Context, k: nat, s: nat): (j: nat)
    requires c.Valid() && k <= STAGES
    ensures k <= j <= STAGES && (j < STAGES ==> c.addr[StageModel(j)] == UNKNOWN || c.Due(j, s))
    ensures forall i :: k <= i < j ==> c.addr[StageModel(i)] != UNKNOWN && !c.Due(i, s)
    decreases STAGES - k
  {
    if k == STAGES || c.addr[StageModel(k)] == UNKNOWN || c.Due(k, s) then k else FirstStop(c, k + 1, s)
  }

  /** The next request is for the first due model from stage `k` on: nothing due is skipped, nothing else asked for. A
      model that is not known breaks the connection off, but only when no model before it is due. */
  lemma {:induction false} NextIsFirstDue(c: Context, k: nat, s: nat)
    requires c.Valid() && k <= STAGES
    ensures var j := FirstStop(c, k, s);
            c.FetchFrom(k, s) == if j == STAGES then c.(state := Idle)
                                 else if c.addr[StageModel(j)] == UNKNOWN then c.Abort()
                                 else c.Fetch(j, s)
    decreases STAGES - k
  {
    if k < STAGES && c.addr[StageModel(k)] != UNKNOWN && !c.Due(k, s) {
      NextIsFirstDue(c, k + 1, s);
    }
  }

  /** Unlike status and controls, nameplate and settings have no exception for a model never fetched: the answer with
      the power is followed by the nameplate from ten minutes after the start on, by the settings from five, and
      before that by the status. */
  lemma RatingsWait(c: Context, s: nat)
    requires c.Valid() && (forall m: Model :: c.addr[m] != UNKNOWN && c.fetched[m] == 0) && s < SECONDS
    ensures c.FetchFrom(0, s) == c.Fetch(0, s) <==> 10 * 60 <= s
    ensures c.FetchFrom(0, s) == c.Fetch(1, s) <==> 5 * 60 <= s < 10 * 60
    ensures c.FetchFrom(0, s) == c.Fetch(2, s) <==> s < 5 * 60
  {
    assert c.Due(2, s);
    var j := FirstStop(c, 0, s);
    NextIsFirstDue(c, 0, s);
    assert j == if 10 * 60 <= s then 0 else if 5 * 60 <= s then 1 else 2;
    FetchesDiffer(c, s);
  }

  lemma FetchesDiffer(c: Context, s: nat)
    requires c.Valid()
    ensures forall j, k :: 0 <= j < k < 3 ==> c.Fetch(j, s) != c.Fetch(k, s)
  {
    assert forall j :: 0 <= j < 3 ==> c.Fetch(j, s).state == Get(j + 1);
  }

  // ---- how long it takes ----

  /** How many answers the cycle still needs at most. */
  function Rank(c: Context): nat {
    match c.state
    case Get(k) => 7 - k
    case SetPowerStorage => 3
    case SetMinSocStorage => 2
    case WaitDataResponse => 1
    case _ => 0
  }

  predicate CycleState(s: State) {
    s.Get? || s in {Idle, SetPowerStorage, SetMinSocStorage, WaitDataResponse}
  }

  /** Between two answers of a cycle. */
  ghost predicate InCycle(c: Context) {
    Settled(c) && (c.pending == Nothing <==> c.state == Idle) && CycleState(c.state)
  }

  lemma FetchRank(c: Context, k: nat, s: nat)
    requires c.Valid() && k <= STAGES
    ensures var d := c.FetchFrom(k, s);
            && (d.state == Idle || d.state == WaitDataResponse || (d.state.Get? && k < d.state.stage))
            && (d.state != Idle ==> d.pending.Read?) && Rank(d) <= if k < STAGES then 6 - k else 0
  {
    NextIsFirstDue(c, k, s);
    var j := FirstStop(c, k, s);
    if j < STAGES && c.addr[StageModel(j)] != UNKNOWN {
      StageRank(c, j, s);
    }
  }

  lemma StageRank(c: Context, k: nat, s: nat)
    requires c.Valid() && k < STAGES
    ensures var d := c.Fetch(k, s);
            d.state == After(k) && d.pending.Read? && Rank(d) == 6 - k
  {
  }

  lemma WorkRank(c: Context, s: nat)
    requires Ready(c) && c.state != Idle && CycleState(c.state)
    ensures var d := c.Work(s);
            !d.faulted && Rank(d) < Rank(c) && CycleState(d.state) && (d.pending == Nothing ==> d.state == Idle)
  {
    WorkTurns(c, s);
    if c.state.Get? {
      FetchRank(c, c.state.stage, s);
    } else if c.state != WaitDataResponse {
      WorkIsTellOne(c, s);
    }
  }

  /** A turn of a cycle hears the answer and works on, unless the answer cannot be decoded. */
  lemma CycleTurn(c: Context, data: seq<nat>, s: nat)
    requires InCycle(c) && Outstanding(c)
    ensures var h, d := c.(pending := Nothing).Hear(Some(data)), OnAnswer(c, data, s);
            && Ready(c.(pending := Nothing)) && h.state == c.state && (!h.faulted ==> Ready(h))
            && (if h.faulted then d == h else Same(d, h.Work(s)) && d.faulted == h.Work(s).faulted)
  {
    SettledReady(c);
    HearReady(c.(pending := Nothing), Some(data));
  }

  predicate Same(c: Context, d: Context) {
    && c.state == d.state && c.pending == d.pending && c.regs == d.regs && c.parsed == d.parsed && c.addr == d.addr
    && c.lastAddr == d.lastAddr
  }

  lemma CycleGoesOn(d: Context, e: Context)
    requires Settled(d) && Same(d, e) && CycleState(e.state) && (e.pending == Nothing ==> e.state == Idle)
    ensures InCycle(d) && Rank(d) == Rank(e)
  {
  }

  /** Every answer brings the cycle closer to idle, whichever refetch timers fire. */
  lemma AnswerLowersRank(c: Context, data: seq<nat>, s: nat)
    requires InCycle(c) && Legal(c, Answer(data, s))
    ensures var d := OnAnswer(c, data, s); d.faulted || (InCycle(d) && Rank(d) < Rank(c))
  {
    AnswerKeepsInv(c, data, s);
    CycleTurn(c, data, s);
    var h := c.(pending := Nothing).Hear(Some(data));
    if !h.faulted {
      WorkRank(h, s);
      AnswerSettles(c, data, s);
      CycleGoesOn(OnAnswer(c, data, s), h.Work(s));
    }
  }

  lemma AnswerSettles(c: Context, data: seq<nat>, s: nat)
    requires InCycle(c) && Legal(c, Answer(data, s)) && !OnAnswer(c, data, s).faulted
    ensures Settled(OnAnswer(c, data, s))
  {
    SettledReady(c);
    AdvanceTurns(c.(pending := Nothing), Some(data), s);
  }

  /** A run in which every step is one answer. It ends where a null pointer is followed. */
  ghost predicate Answers(run: seq<Context>) {
    run != [] && forall i :: 0 <= i < |run| - 1 ==> Answered(run[i], run[i + 1])
  }

  ghost predicate Answered(c: Context, d: Context) {
    c.Valid() && !c.faulted && exists data, s :: Legal(c, Answer(data, s)) && d == OnAnswer(c, data, s)
  }

  /** In a cycle that needs at most `limit` more answers, or at a null pointer. */
  ghost predicate Within(c: Context, limit: int) {
    c.faulted || (InCycle(c) && Rank(c) <= limit)
  }

  lemma AnsweredLowersRank(c: Context, d: Context, limit: int)
    requires Answered(c, d) && Within(c, limit)
    ensures 0 < limit && Within(d, limit - 1)
  {
    var data, s :| Legal(c, Answer(data, s)) && d == OnAnswer(c, data, s);
    RankPositive(c);
    AnswerLowersRank(c, data, s);
  }

  lemma RankPositive(c: Context)
    requires InCycle(c) && Outstanding(c)
    ensures 0 < Rank(c)
  {
  }

  lemma FaultEnds(run: seq<Context>)
    requires Answers(run) && run[0].faulted
    ensures |run| == 1
  {
    assert |run| > 1 ==> Answered(run[0], run[1]);
  }

  lemma {:induction false} CycleBound(run: seq<Context>, limit: int, n: nat)
    requires Answers(run) && Within(run[0], limit) && 0 <= limit && n < |run|
    ensures n <= limit && Within(run[n], limit - n)
  {
    if n > 0 {
      CycleBound(run, limit, n - 1);
      assert Answered(run[n - 1], run[n]);
      AnsweredLowersRank(run[n - 1], run[n], limit - (n - 1));
    }
  }

  /** Where a run of answers may stand: done, waiting for an answer, or at a null pointer. */
  ghost predicate Standing(c: Context) {
    c.faulted || Outstanding(c) || c.state == Idle
  }

  /** A run of answers out of a cycle is no longer than the rank, and ends idle when it is that long. */
  lemma CycleEnds(run: seq<Context>)
    requires Answers(run) && InCycle(run[0])
    ensures |run| - 1 <= Rank(run[0]) && Standing(run[|run| - 1])
    ensures |run| - 1 == Rank(run[0]) ==> run[|run| - 1].faulted || run[|run| - 1].state == Idle
  {
    CycleBound(run, Rank(run[0]), |run| - 1);
    var last := run[|run| - 1];
    if !last.faulted && Rank(last) == 0 {
      RankZero(last);
    }
  }

  lemma RankZero(c: Context)
    requires InCycle(c) && Rank(c) == 0
    ensures c.state == Idle
  {
  }

  lemma StartInCycle(c: Context, s: nat)
    requires Inv(c) && CanStart(c)
    ensures var d := OnStart(c, s); !d.faulted && InCycle(d) && Rank(d) <= 7 && d.addr == c.addr
  {
    StartKeepsInv(c, s);
  }

  lemma AdvanceIsWork(c: Context, s: nat)
    requires Ready(c) && c.state == SetPowerInverter
    ensures Same(c.Advance(None, s), c.Work(s)) && !c.Advance(None, s).faulted
  {
    WorkTurns(c, s);
    assert c.Hear(None) == c && c.Turn(None, s) == c.Work(s);
    assert c.Advance(None, s) == c.Work(s).Finish(c.state);
  }

  lemma SendInCycle(c: Context, limit: nat, reserve: nat, charge: nat, s: nat)
    requires Inv(c) && CanStart(c) && c.Held(Controls) && c.Held(Storage)
    ensures var d := OnSend(c, limit, reserve, charge, s); !d.faulted && InCycle(d) && Rank(d) <= 3
  {
    var d := c.Command(limit, reserve, charge).(waitReceive := true, state := SetPowerInverter);
    AdvanceTurns(d, None, s);
    AdvanceIsWork(d, s);
    WorkIsTellOne(d, s);
  }

  /** After the start of a fetch the connection is idle again within seven answers: no run of answers is longer, and
      where one stops with nothing outstanding the connection is idle. */
  lemma FetchIsBounded(c: Context, s: nat, run: seq<Context>)
    requires Inv(c) && CanStart(c) && Answers(run) && run[0] == OnStart(c, s)
    ensures |run| - 1 <= 7 && Standing(run[|run| - 1])
    ensures |run| - 1 == 7 ==> run[7].faulted || run[7].state == Idle
  {
    StartInCycle(c, s);
    CycleEnds(run);
  }

  /** After the start of a power request it is idle again within three answers. */
  lemma SendIsBounded(c: Context, limit: nat, reserve: nat, charge: nat, s: nat, run: seq<Context>)
    requires Inv(c) && CanStart(c) && Answers(run) && run[0] == OnSend(c, limit, reserve, charge, s)
    ensures |run| - 1 <= 3 && Standing(run[|run| - 1])
    ensures |run| - 1 == 3 ==> run[3].faulted || run[3].state == Idle
  {
    if c.Held(Controls) && c.Held(Storage) {
      SendInCycle(c, limit, reserve, charge, s);
      CycleEnds(run);
    } else {
      FaultEnds(run);
    }
  }

  // ---- what is written ----

  /** The outstanding request writes `v` to register `a`. */
  predicate Writes(c: Context, a: int, v: nat) {
    c.pending == Write(a, [v])
  }

  /** Where the writes of a power request go, by number. */
  function Place(c: Context, k: nat): int
    requires c.Valid()
  {
    if k == 0 then c.addr[Controls] + W_MAX_LIM_PCT
    else if k == 1 then c.addr[Storage] + W_CHA_MAX
    else c.addr[Storage] + MIN_RSV_PCT
  }

  /** The state that waits for the acknowledgement of write `k`. */
  function Await(k: nat): State {
    if k == 0 then SetPowerStorage else if k == 1 then SetMinSocStorage else WaitDataResponse
  }

  /** What write `k` carries. Where the two models overlap, the limit gives way to what is entered after it. */
  function Carried(c: Context, limit: nat, reserve: nat, charge: nat, k: nat): nat
    requires c.Valid()
  {
    if k == 1 then charge
    else if k == 2 then reserve
    else if Place(c, 0) == Place(c, 1) then charge
    else if Place(c, 0) == Place(c, 2) then reserve
    else limit
  }

  lemma Entered(c: Context, limit: nat, reserve: nat, charge: nat, k: nat)
    requires c.Valid() && c.Held(Controls) && c.Held(Storage) && k < 3
    ensures var d := c.Command(limit, reserve, charge);
            && Place(d, k) == Place(c, k) && d.Holds(Place(c, k), 1)
            && d.Reg(Place(c, k)) == Carried(c, limit, reserve, charge, k)
  {
  }

  lemma TellWrites(c: Context, a: int, next: State)
    requires c.Valid() && c.Holds(a, 1)
    ensures var d := c.TellOne(a, next);
            && Writes(d, a, c.Reg(a)) && d.addr == c.addr && d.regs == c.regs && d.state == next
            && d.faulted == c.faulted
  {
    assert c.regs[a - OFFSET..a - OFFSET + 1] == [c.Reg(a)];
  }

  /** `d` waits for the acknowledgement of write `k` of the values in the registers of `c`, or is done. */
  ghost predicate Sent(c: Context, d: Context, k: nat)
    requires c.Valid()
  {
    if k == 3 then d.state == Idle && d.pending == Nothing
    else && d.state == Await(k) && c.Holds(Place(c, k), 1) && Writes(d, Place(c, k), c.Reg(Place(c, k)))
         && d.addr == c.addr && d.regs == c.regs
  }

  lemma FirstWrite(c: Context, limit: nat, reserve: nat, charge: nat, s: nat)
    requires Inv(c) && CanStart(c) && c.Held(Controls) && c.Held(Storage)
    ensures Sent(c.Command(limit, reserve, charge), OnSend(c, limit, reserve, charge, s), 0)
  {
    var d := c.Command(limit, reserve, charge).(waitReceive := true, state := SetPowerInverter);
    Entered(c, limit, reserve, charge, 0);
    WorkIsTellOne(d, s);
    TellWrites(d, Place(c, 0), SetPowerStorage);
    AdvanceIsWork(d, s);
  }

  lemma HearsAcknowledgement(c: Context)
    requires c.Valid()
    ensures var h := c.Hear(Some([])); h.regs == c.regs && h.addr == c.addr && h.state == c.state && h.Valid()
    ensures c.Hear(Some([])).pending == c.pending
  {
  }

  lemma NextIsTellOne(c: Context, k: nat, s: nat)
    requires c.Valid() && c.state == Await(k) && k < 2
    ensures c.Work(s) == c.TellOne(Place(c, k + 1), Await(k + 1))
  {
    WorkIsTellOne(c, s);
  }

  /** What the next write looks like once the acknowledgement has been heard. */
  lemma NextWrite(c: Context, h: Context, k: nat, s: nat)
    requires c.Valid() && h.Valid() && h.addr == c.addr && h.regs == c.regs && h.state == Await(k) && k < 2
    requires c.Holds(Place(c, k + 1), 1)
    ensures Sent(c, h.Work(s), k + 1)
  {
    NextIsTellOne(h, k, s);
    TellWrites(h, Place(c, k + 1), Await(k + 1));
  }

  lemma PlaceHeld(c: Context, k: nat)
    requires c.Valid() && c.Held(Controls) && c.Held(Storage) && k < 3
    ensures c.Holds(Place(c, k), 1)
  {
  }

  lemma Done(c: Context, h: Context, s: nat)
    requires c.Valid() && h.Valid() && h.state == Await(2) && h.pending == Nothing
    ensures Sent(c, h.Work(s), 3)
  {
  }

  lemma SentNext(c: Context, d: Context, k: nat, s: nat)
    requires c.Valid() && c.Held(Controls) && c.Held(Storage) && InCycle(d) && Outstanding(d) && k < 3 && Sent(c, d, k)
    ensures var e := OnAnswer(d, [], s); e.faulted || Sent(c, e, k + 1)
  {
    CycleTurn(d, [], s);
    var h := d.(pending := Nothing).Hear(Some([]));
    HearsAcknowledgement(d.(pending := Nothing));
    if !h.faulted {
      if k < 2 {
        PlaceHeld(c, k + 1);
        NextWrite(c, h, k, s);
      } else {
        Done(c, h, s);
      }
      SentSame(c, h.Work(s), OnAnswer(d, [], s), k + 1);
    }
  }

  lemma SentSame(c: Context, d: Context, e: Context, k: nat)
    requires c.Valid() && Sent(c, d, k) && Same(e, d)
    ensures Sent(c, e, k)
  {
  }

  lemma {:induction false} WritesFollow(c: Context, run: seq<Context>, k: nat)
    requires c.Valid() && c.Held(Controls) && c.Held(Storage)
    requires Answers(run) && InCycle(run[0]) && Sent(c, run[0], 0) && k < |run| && k <= 3
    ensures run[k].faulted || (InCycle(run[k]) && Sent(c, run[k], k))
  {
    if k > 0 {
      WritesFollow(c, run, k - 1);
      assert Answered(run[k - 1], run[k]);
      var data, s :| Legal(run[k - 1], Answer(data, s)) && run[k] == OnAnswer(run[k - 1], data, s);
      WriteFollows(c, run[k - 1], k - 1, data, s);
    }
  }

  lemma WriteFollows(c: Context, d: Context, k: nat, data: seq<nat>, s: nat)
    requires c.Valid() && c.Held(Controls) && c.Held(Storage) && InCycle(d) && k < 3 && Sent(c, d, k)
    requires Legal(d, Answer(data, s))
    ensures var e := OnAnswer(d, data, s); e.faulted || (InCycle(e) && Sent(c, e, k + 1))
  {
    EmptyAnswer(d, data, s);
    SentNext(c, d, k, s);
    AnswerLowersRank(d, data, s);
  }

  lemma EmptyAnswer(d: Context, data: seq<nat>, s: nat)
    requires Legal(d, Answer(data, s)) && d.pending.Write?
    ensures data == []
  {
  }

  /** A power request reaches the inverter as three writes: the power limit to the controls, then the charging rate and
      the reserve to the storage. After the third acknowledgement the connection is idle. */
  lemma SendWrites(c: Context, limit: nat, reserve: nat, charge: nat, s: nat, run: seq<Context>, k: nat)
    requires Inv(c) && CanStart(c) && Answers(run) && run[0] == OnSend(c, limit, reserve, charge, s) && k < |run|
    ensures k <= 3
    ensures || run[k].faulted
            || (k == 3 && run[k].state == Idle && run[k].pending == Nothing)
            || (k < 3 && run[k].state == Await(k) && Writes(run[k], Place(c, k), Carried(c, limit, reserve, charge, k)))
  {
    SendIsBounded(c, limit, reserve, charge, s, run);
    if c.Held(Controls) && c.Held(Storage) {
      SendInCycle(c, limit, reserve, charge, s);
      FirstWrite(c, limit, reserve, charge, s);
      WritesFollow(c.Command(limit, reserve, charge), run, k);
      SentMeans(c, limit, reserve, charge, run[k], k);
    } else {
      FaultEnds(run);
    }
  }

  lemma SentMeans(c: Context, limit: nat, reserve: nat, charge: nat, d: Context, k: nat)
    requires c.Valid() && c.Held(Controls) && c.Held(Storage) && k <= 3
    ensures Sent(c.Command(limit, reserve, charge), d, k) ==>
              if k == 3 then d.state == Idle && d.pending == Nothing
              else d.state == Await(k) && Writes(d, Place(c, k), Carried(c, limit, reserve, charge, k))
  {
    if k < 3 {
      Entered(c, limit, reserve, charge, k);
    }
  }

  // ---- an inverter that does not answer ----

  function Waits(c: Context, n: nat): Context {
    if n == 0 then c else Timeout(Waits(c, n - 1))
  }

  lemma {:induction false} Patience(c: Context, n: nat)
    requires c.state != Idle && !c.requestClose && c.waitCount + n <= 3
    ensures Waits(c, n) == c.(waitCount := c.waitCount + n)
  {
    if n > 0 {
      Patience(c, n - 1);
    }
  }

  /** A connected inverter that stops answering is disconnected after at most four waiting periods, keeping its name. */
  lemma SilenceIsClosed(c: Context)
    requires Inv(c) && Outstanding(c) && !c.requestClose && c.waitCount <= 3
    ensures !Waits(c, 4 - c.waitCount).connected && Waits(c, 4 - c.waitCount).named == c.named
    ensures forall n :: 0 <= n < 4 - c.waitCount ==> Waits(c, n).connected && Waits(c, n).pending == c.pending
  {
    forall n | 0 <= n < 4 - c.waitCount ensures Waits(c, n) == c.(waitCount := c.waitCount + n) {
      Patience(c, n);
    }
    assert Waits(c, 4 - c.waitCount) == Timeout(Waits(c, 3 - c.waitCount));
  }

  /** A fetch from an inverter whose own model was never found asks for nothing; the connection is closed with its name
      forgotten at the end of the waiting period, so that discovery starts anew. */
  lemma FetchRepairs(c: Context, s: nat)
    requires Inv(c) && CanStart(c) && c.addr[Inverter] == UNKNOWN
    ensures var d := OnStart(c, s);
            d.sent == c.sent && !Timeout(d).connected && !Timeout(d).named
  {
    StartKeepsInv(c, s);
  }
}
