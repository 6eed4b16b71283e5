/** When the code for an inverter connection follows a null pointer, and when it cannot. */
module InverterFaults {
  import opened Wrappers
  import opened InverterSteps
  import opened InverterRuns

  // ---- exactly when ----

  /** The answer is decoded as a model that reaches beyond the storage. */
  predicate DecodesOverrun(c: Context)
    requires c.Valid()
  {
    c.DecodedAs().Some? && c.Overruns(c.DecodedAs().value)
  }

  /** The answer brings the end marker of the header walk. */
  predicate BringsEnd(c: Context, data: seq<nat>)
    requires c.Valid()
  {
    c.state == FindDataHdr && c.Holds(c.lastAddr, HDR) && c.Receive(data).Id() == END_ID
  }

  /** The events that make the code follow a null pointer. */
  predicate FollowsNull(c: Context, e: Event)
    requires c.Valid()
  {
    match e
    case StartSend(_, _, _, active, _) => active && CanStart(c) && (!c.Held(Controls) || !c.Held(Storage))
    case Answer(data, _) =>
      if c.state == EnableInverterControl then c.Overruns(Controls)
      else DecodesOverrun(c) || (BringsEnd(c, data) && c.Overruns(Storage))
    case Hangup(_) =>
      || NeedsAnswer(c.state)
      || (c.state == EnableInverterControl && c.Overruns(Controls))
      || (c.state == EnableStorageControl && c.Overruns(Storage))
    case Discover(_) => false
    case ConnectDone(_) => false
    case StartFetch(_) => false
    case WaitEnd => false
    case Failed => false
  }

  lemma FollowFaults(c: Context, id: nat, behind: int)
    requires Ready(c) && c.state == FindDataHdr
    ensures c.Follow(id, behind).faulted <==> id == END_ID && c.Overruns(Storage)
  {
  }

  lemma WalkFaults(c: Context)
    requires Ready(c) && c.state == FindDataHdr
    ensures c.SearchData().faulted <==> c.Holds(c.lastAddr, HDR) && c.Id() == END_ID && c.Overruns(Storage)
  {
    if c.Holds(c.lastAddr, HDR) {
      RecordReady(c);
      FollowFaults(c.Record(), c.Id(), c.Behind());
    }
  }

  lemma SetupFaults(c: Context)
    requires Ready(c) && NeedsAnswer(c.state)
    ensures c.Setup().faulted
       <==> c.state == FindDataHdr && c.Holds(c.lastAddr, HDR) && c.Id() == END_ID && c.Overruns(Storage)
  {
    if c.state == FindDataHdr {
      WalkFaults(c);
    }
  }

  lemma BeginFaults(c: Context)
    requires Ready(c) && Silent(c.state) && c.state != Connecting
    ensures c.Begin().faulted
       <==> || (c.state == EnableInverterControl && c.Overruns(Controls))
            || (c.state == EnableStorageControl && c.Overruns(Storage))
  {
  }

  lemma HearFaults(c: Context, data: seq<nat>)
    requires Ready(c) && OFFSET <= c.lastAddr
    ensures c.Hear(Some(data)).faulted <==> DecodesOverrun(c)
  {
  }

  lemma TurnFaults(c: Context, data: seq<nat>, s: nat)
    requires Ready(c) && !Silent(c.state) && OFFSET <= c.lastAddr
    ensures c.Turn(Some(data), s).faulted <==> DecodesOverrun(c) || (BringsEnd(c, data) && c.Overruns(Storage))
  {
    HearFaults(c, data);
    HearReady(c, Some(data));
    var h := c.Hear(Some(data));
    if !h.faulted {
      HeardFaults(h, s);
    }
  }

  lemma SameCauses(c: Context, data: seq<nat>)
    requires c.Valid()
    ensures var d := c.(pending := Nothing);
            && DecodesOverrun(d) == DecodesOverrun(c) && BringsEnd(d, data) == BringsEnd(c, data)
            && d.Overruns(Storage) == c.Overruns(Storage) && d.Overruns(Controls) == c.Overruns(Controls)
  {
  }

  lemma ReadingFaults(c: Context, data: seq<nat>, s: nat)
    requires Inv(c) && c.connected && !Silent(c.state) && OFFSET <= c.lastAddr
    ensures OnAnswer(c, data, s).faulted <==> DecodesOverrun(c) || (BringsEnd(c, data) && c.Overruns(Storage))
  {
    var d := c.(pending := Nothing);
    SettledReady(c);
    AdvanceFaults(d, Some(data), s);
    TurnFaults(d, data, s);
    SameCauses(c, data);
  }

  lemma EnablingFaults(c: Context, data: seq<nat>, s: nat)
    requires Inv(c) && c.connected && c.state == EnableInverterControl
    ensures OnAnswer(c, data, s).faulted <==> c.Overruns(Controls)
  {
    var d := c.(pending := Nothing);
    SettledReady(c);
    AdvanceFaults(d, Some(data), s);
    BeginFaults(d);
  }

  lemma AnswerFaults(c: Context, data: seq<nat>, s: nat)
    requires Inv(c) && Legal(c, Answer(data, s))
    ensures OnAnswer(c, data, s).faulted <==> FollowsNull(c, Answer(data, s))
  {
    if c.state == EnableInverterControl {
      EnablingFaults(c, data, s);
    } else {
      ReadingFaults(c, data, s);
    }
  }

  lemma AdvanceFaults(c: Context, p: Option<seq<nat>>, s: nat)
    requires c.Valid()
    ensures c.Advance(p, s).faulted == c.Turn(p, s).faulted
    ensures Silent(c.state) ==> c.Advance(p, s).faulted == c.Begin().faulted
  {
  }

  lemma HeardFaults(c: Context, s: nat)
    requires Ready(c) && !Silent(c.state)
    ensures (if NeedsAnswer(c.state) then c.Setup() else c.Work(s)).faulted
       <==> c.state == FindDataHdr && c.Holds(c.lastAddr, HDR) && c.Id() == END_ID && c.Overruns(Storage)
  {
    if NeedsAnswer(c.state) {
      SetupFaults(c);
    } else {
      WorkTurns(c, s);
    }
  }

  lemma HangupFaults(c: Context, s: nat)
    requires Inv(c) && Legal(c, Hangup(s))
    ensures OnHangup(c, s).faulted <==> FollowsNull(c, Hangup(s))
  {
    var d := c.(pending := Nothing);
    SettledReady(c);
    AdvanceFaults(d, None, s);
    if Silent(c.state) {
      BeginFaults(d);
    } else if !NeedsAnswer(c.state) {
      WorkTurns(d, s);
    }
  }

  lemma SendFaults(c: Context, limit: nat, reserve: nat, charge: nat, s: nat)
    requires Inv(c)
    ensures OnSend(c, limit, reserve, charge, s).faulted <==> CanStart(c) && (!c.Held(Controls) || !c.Held(Storage))
  {
    if CanStart(c) && c.Held(Controls) && c.Held(Storage) {
      var d := c.Command(limit, reserve, charge).(waitReceive := true, state := SetPowerInverter);
      WorkTurns(d, s);
    }
  }

  /** An event makes the code follow a null pointer if and only if it is one of these. */
  lemma FaultExact(c: Context, e: Event)
    requires Inv(c) && Legal(c, e)
    ensures Step(c, e).faulted <==> FollowsNull(c, e)
  {
    match e
    case StartSend(limit, reserve, charge, active, s) => SendFaults(c, limit, reserve, charge, s);
    case Answer(data, s) => AnswerFaults(c, data, s);
    case Hangup(s) => HangupFaults(c, s);
    case ConnectDone(s) => ConnectTurns(c, s);
    case StartFetch(s) => StartKeepsInv(c, s);
    case Discover(created) =>
    case WaitEnd => TimeoutKeepsInv(c);
    case Failed =>
  }
}
