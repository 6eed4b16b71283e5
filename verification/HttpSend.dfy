/** Sending over a connection chunk by chunk: when the loop ends, and what it has handed to the stack by then. */
module HttpSend {

  /** What the network stack answers to the k-th attempt: the free send buffer space, whether the write is accepted, and
      whether pushing it out succeeds. */
  datatype Stack = Stack(space: nat -> nat, writes: nat -> bool, outputs: nat -> bool)

  /** Where the loop stands: what is left, the retries, and the number of the next attempt. `Ended` has the result. */
  datatype Sending =
    | Running(rest: string, retry: int, attempt: nat)
    | Ended(rest: string, ok: bool, attempt: nat)

  const RETRIES := 10

  function Begin(data: string, attempt: nat): Sending {
    Running(data, RETRIES, attempt)
  }

  function Chunk(stack: Stack, s: Sending): (n: nat)
    ensures n <= |s.rest|
  {
    if stack.space(s.attempt) < |s.rest| then stack.space(s.attempt) else |s.rest|
  }

  /** One turn of the loop. */
  function Turn(stack: Stack, s: Sending): Sending {
    if s.Ended? then s
    else if s.rest == "" then Ended("", true, s.attempt)
    else if !stack.writes(s.attempt) then
      if s.retry - 1 > 0 then Running(s.rest, s.retry - 1, s.attempt + 1) else Ended(s.rest, false, s.attempt + 1)
    else
      var rest := s.rest[Chunk(stack, s)..];
      if stack.outputs(s.attempt) then Running(rest, s.retry, s.attempt + 1) else Ended(rest, false, s.attempt + 1)
  }

  function Turns(stack: Stack, s: Sending, n: nat): Sending {
    if n == 0 then s else Turn(stack, Turns(stack, s, n - 1))
  }

  /** The loop comes to an end. */
  ghost predicate Ends(stack: Stack, s: Sending) {
    exists n: nat :: Turns(stack, s, n).Ended?
  }

  lemma {:induction false} TurnsAdd(stack: Stack, s: Sending, m: nat, n: nat)
    ensures Turns(stack, s, m + n) == Turns(stack, Turns(stack, s, m), n)
  {
    if n > 0 {
      TurnsAdd(stack, s, m, n - 1);
    }
  }

  lemma {:induction false} EndStays(stack: Stack, s: Sending, n: nat)
    requires s.Ended?
    ensures Turns(stack, s, n) == s
  {
    if n > 0 {
      EndStays(stack, s, n - 1);
    }
  }

  /** There is one end, however many turns are given to reach it. */
  lemma OneEnd(stack: Stack, s: Sending, m: nat, n: nat)
    requires Turns(stack, s, m).Ended? && m <= n
    ensures Turns(stack, s, n) == Turns(stack, s, m)
  {
    TurnsAdd(stack, s, m, n - m);
    EndStays(stack, Turns(stack, s, m), n - m);
  }

  /** A turn with data left hands over all of it that there is space for if the write is accepted, and nothing
      otherwise. */
  lemma TurnExact(stack: Stack, s: Sending)
    requires s.Running? && s.rest != ""
    ensures var t := Turn(stack, s);
            && t.attempt == s.attempt + 1 && |t.rest| <= |s.rest| && t.rest == s.rest[|s.rest| - |t.rest|..]
            && |s.rest| - |t.rest| <= stack.space(s.attempt)
            && (!stack.writes(s.attempt) ==> t.rest == s.rest)
            && (stack.writes(s.attempt) ==> t.rest == "" || |s.rest| - |t.rest| == stack.space(s.attempt))
  {
  }

  /** The space of the attempts from `first` on, before `last`. */
  function SpaceIn(stack: Stack, first: nat, last: nat): nat
    requires first <= last
  {
    if first == last then 0 else SpaceIn(stack, first, last - 1) + stack.space(last - 1)
  }

  /** What has been handed over never exceeds the space there was. */
  lemma {:induction false} WithinSpace(stack: Stack, data: string, attempt: nat, n: nat)
    ensures var t := Turns(stack, Begin(data, attempt), n);
            attempt <= t.attempt && |t.rest| <= |data| && |data| - |t.rest| <= SpaceIn(stack, attempt, t.attempt)
  {
    if n > 0 {
      WithinSpace(stack, data, attempt, n - 1);
      var s := Turns(stack, Begin(data, attempt), n - 1);
      if s.Running? && s.rest != "" {
        TurnExact(stack, s);
      }
    }
  }

  // ---- when the loop ends ----

  /** An attempt that is accepted without any space: it changes nothing and costs no retry. */
  predicate Idle(stack: Stack, k: nat) {
    stack.space(k) == 0 && stack.writes(k) && stack.outputs(k)
  }

  /** From attempt `k` on there are only such attempts. */
  ghost predicate Jammed(stack: Stack, k: nat) {
    forall j: nat :: k <= j ==> Idle(stack, j)
  }

  lemma IdleTurn(stack: Stack, s: Sending)
    requires s.Running? && s.rest != "" && Idle(stack, s.attempt)
    ensures Turn(stack, s) == Running(s.rest, s.retry, s.attempt + 1)
  {
    assert s.rest[0..] == s.rest;
  }

  lemma {:induction false} IdleTurns(stack: Stack, s: Sending, n: nat)
    requires s.Running? && s.rest != ""
    requires forall j: nat :: s.attempt <= j < s.attempt + n ==> Idle(stack, j)
    ensures Turns(stack, s, n) == Running(s.rest, s.retry, s.attempt + n)
  {
    if n > 0 {
      IdleTurns(stack, s, n - 1);
      assert Idle(stack, s.attempt + n - 1);
      IdleTurn(stack, Turns(stack, s, n - 1));
    }
  }

  /** `b` is the first attempt from `k` on that is not idle. */
  ghost predicate FirstBusy(stack: Stack, k: nat, b: nat) {
    k <= b && !Idle(stack, b) && forall i: nat :: k <= i < b ==> Idle(stack, i)
  }

  lemma {:induction false} SomeFirstBusy(stack: Stack, k: nat, j: nat)
    requires k <= j && !Idle(stack, j)
    ensures exists b: nat :: FirstBusy(stack, k, b)
    decreases j - k
  {
    if Idle(stack, k) {
      SomeFirstBusy(stack, k + 1, j);
      var b: nat :| FirstBusy(stack, k + 1, b);
      assert FirstBusy(stack, k, b);
    } else {
      assert FirstBusy(stack, k, k);
    }
  }

  /** The loop has come to a point where it still has data and only idle attempts ahead. */
  ghost predicate GetsJammed(stack: Stack, s: Sending) {
    exists n: nat :: JammedAfter(stack, s, n)
  }

  ghost predicate JammedAfter(stack: Stack, s: Sending, n: nat) {
    var t := Turns(stack, s, n);
    t.Running? && t.rest != "" && Jammed(stack, t.attempt)
  }

  function Patience(s: Sending): nat
    requires s.Running?
  {
    |s.rest| + if s.retry < 0 then 0 else s.retry
  }

  lemma BusyTurn(stack: Stack, s: Sending)
    requires s.Running? && s.rest != "" && !Idle(stack, s.attempt)
    ensures var t := Turn(stack, s); t.Running? ==> Patience(t) < Patience(s)
  {
  }

  /** A loop that never ends gets jammed: every other attempt takes away data or a retry. */
  lemma {:induction false} EndlessIsJammed(stack: Stack, s: Sending)
    requires s.Running? && !Ends(stack, s)
    ensures GetsJammed(stack, s)
    decreases Patience(s)
  {
    assert !Turns(stack, s, 1).Ended?;
    assert Turns(stack, s, 0) == s;
    if Jammed(stack, s.attempt) {
      assert JammedAfter(stack, s, 0);
    } else {
      var j: nat :| s.attempt <= j && !Idle(stack, j);
      SomeFirstBusy(stack, s.attempt, j);
      var b: nat :| FirstBusy(stack, s.attempt, b);
      var m := b - s.attempt + 1;
      IdleTurns(stack, s, m - 1);
      BusyTurn(stack, Turns(stack, s, m - 1));
      assert !Turns(stack, s, m).Ended?;
      forall n: nat ensures !Turns(stack, Turns(stack, s, m), n).Ended? {
        TurnsAdd(stack, s, m, n);
      }
      EndlessIsJammed(stack, Turns(stack, s, m));
      var n: nat :| JammedAfter(stack, Turns(stack, s, m), n);
      TurnsAdd(stack, s, m, n);
      assert JammedAfter(stack, s, m + n);
    }
  }

  lemma JammedIsEndless(stack: Stack, s: Sending, n: nat)
    requires JammedAfter(stack, s, n)
    ensures !Ends(stack, s)
  {
    var t := Turns(stack, s, n);
    forall m: nat ensures !Turns(stack, s, m).Ended? {
      if m <= n {
        if Turns(stack, s, m).Ended? {
          OneEnd(stack, s, m, n);
        }
      } else {
        TurnsAdd(stack, s, n, m - n);
        IdleTurns(stack, t, m - n);
      }
    }
  }

  /** The loop goes on for ever if and only if it comes to a point where data is left and every further attempt is
      accepted without any space. */
  lemma EndlessExact(stack: Stack, s: Sending)
    requires s.Running?
    ensures !Ends(stack, s) <==> GetsJammed(stack, s)
  {
    if !Ends(stack, s) {
      EndlessIsJammed(stack, s);
    }
    if n: nat :| JammedAfter(stack, s, n) {
      JammedIsEndless(stack, s, n);
    }
  }

  /** Space comes up again and again. */
  ghost predicate SpaceComes(stack: Stack) {
    forall k: nat :: HasSpaceFrom(stack, k)
  }

  ghost predicate HasSpaceFrom(stack: Stack, k: nat) {
    exists j: nat :: k <= j && 0 < stack.space(j)
  }

  lemma SpaceIsNotJammed(stack: Stack, k: nat)
    requires SpaceComes(stack)
    ensures !Jammed(stack, k)
  {
    assert HasSpaceFrom(stack, k);
    var j: nat :| k <= j && 0 < stack.space(j);
    assert !Idle(stack, j);
  }

  /** Then every loop ends. */
  lemma SpaceEnds(stack: Stack, s: Sending)
    requires s.Running? && SpaceComes(stack)
    ensures Ends(stack, s)
  {
    EndlessExact(stack, s);
    forall n: nat ensures !JammedAfter(stack, s, n) {
      SpaceIsNotJammed(stack, Turns(stack, s, n).attempt);
    }
  }

  /** A stack that accepts everything and never has space: sending anything at all goes on for ever. */
  lemma NoSpaceIsEndless(data: string)
    requires data != ""
    ensures !Ends(Stack(_ => 0, _ => true, _ => true), Begin(data, 0))
  {
    var stack := Stack(_ => 0, _ => true, _ => true);
    assert Turns(stack, Begin(data, 0), 0) == Begin(data, 0);
    assert JammedAfter(stack, Begin(data, 0), 0);
    JammedIsEndless(stack, Begin(data, 0), 0);
  }

  /** A stack without space that refuses ends the loop after its ten retries. */
  lemma RefusalEnds(data: string)
    requires data != ""
    ensures Turns(Stack(_ => 0, _ => false, _ => true), Begin(data, 0), RETRIES) == Ended(data, false, RETRIES)
  {
    RefusedTurns(Stack(_ => 0, _ => false, _ => true), data, RETRIES - 1);
  }

  lemma {:induction false} RefusedTurns(stack: Stack, data: string, n: nat)
    requires data != "" && n < RETRIES && forall k: nat :: !stack.writes(k)
    ensures Turns(stack, Begin(data, 0), n) == Running(data, RETRIES - n, n)
  {
    if n > 0 {
      RefusedTurns(stack, data, n - 1);
    }
  }

  // ---- what the loop has done when it ends ----

  /** The end of sending `data` from the given attempt on. */
  ghost function End(stack: Stack, data: string, attempt: nat): (e: Sending)
    requires Ends(stack, Begin(data, attempt))
    ensures e.Ended?
  {
    var n: nat :| Turns(stack, Begin(data, attempt), n).Ended?;
    Turns(stack, Begin(data, attempt), n)
  }

  lemma EndIs(stack: Stack, data: string, attempt: nat, n: nat)
    requires Turns(stack, Begin(data, attempt), n).Ended?
    ensures Ends(stack, Begin(data, attempt)) && End(stack, data, attempt) == Turns(stack, Begin(data, attempt), n)
  {
    var m: nat :| Turns(stack, Begin(data, attempt), m).Ended?
                  && Turns(stack, Begin(data, attempt), m) == End(stack, data, attempt);
    OneEnd(stack, Begin(data, attempt), if m <= n then m else n, if m <= n then n else m);
  }

  /** `rest` is what some beginning of `data` leaves. */
  predicate Leaves(data: string, rest: string) {
    |rest| <= |data| && rest == data[|data| - |rest|..]
  }

  lemma {:induction false} TurnsLeave(stack: Stack, data: string, attempt: nat, n: nat)
    ensures var t := Turns(stack, Begin(data, attempt), n);
            && Leaves(data, t.rest) && (t.Ended? && t.ok ==> t.rest == "")
            && (Reliable(stack) ==> if t.Ended? then t.ok else t.retry == RETRIES)
  {
    if n > 0 {
      TurnsLeave(stack, data, attempt, n - 1);
    }
  }

  ghost predicate Reliable(stack: Stack) {
    forall k: nat :: stack.writes(k) && stack.outputs(k)
  }

  /** What has been handed to the stack by the end: a beginning of the data, all of it on success; and success is
      certain on a reliable stack. */
  ghost function Handed(stack: Stack, data: string, attempt: nat): (handed: string)
    requires Ends(stack, Begin(data, attempt))
    ensures handed <= data && |handed| == |data| - |End(stack, data, attempt).rest|
    ensures End(stack, data, attempt).ok ==> handed == data
    ensures Reliable(stack) ==> End(stack, data, attempt).ok
  {
    var n: nat :| Turns(stack, Begin(data, attempt), n).Ended?
                  && Turns(stack, Begin(data, attempt), n) == End(stack, data, attempt);
    TurnsLeave(stack, data, attempt, n);
    data[..|data| - |End(stack, data, attempt).rest|]
  }

  class Link {
    const stack: Stack
    var attempts: nat
    var written: string // all bytes handed to the stack

    constructor (stack: Stack)
      ensures this.stack == stack && attempts == 0 && written == ""
    {
      this.stack := stack;
      attempts, written := 0, "";
    }

    /** The loop itself, wherever it ends. */
    method SendData(data: string) returns (ok: bool)
      requires Ends(stack, Begin(data, attempts))
      modifies this
      ensures ok == End(stack, data, old(attempts)).ok
      ensures attempts == End(stack, data, old(attempts)).attempt
      ensures written == old(written) + Handed(stack, data, old(attempts))
    {
      ghost var first := attempts;
      ghost var bound: nat :| Turns(stack, Begin(data, first), bound).Ended?;
      ghost var turns: nat;
      ok, turns := Loop(data, bound);
      HandedIs(stack, data, first, turns);
    }

    /** The loop ends within the number of turns it is known to end in. */
    method Loop(data: string, ghost bound: nat) returns (ok: bool, ghost turns: nat)
      requires Turns(stack, Begin(data, attempts), bound).Ended?
      modifies this
      ensures var e := Turns(stack, Begin(data, old(attempts)), turns);
              && e.Ended? && ok == e.ok && attempts == e.attempt && |e.rest| <= |data|
              && written == old(written) + data[..|data| - |e.rest|]
    {
      ghost var start, before := Begin(data, attempts), written;
      var rest, retry, over := data, RETRIES, false;
      turns := 0;
      while rest != ""
        invariant Turns(stack, start, turns) == Running(rest, retry, attempts) && turns < bound
        invariant Leaves(data, rest) && written == before + data[..|data| - |rest|]
        decreases bound - turns
      {
        ghost var last := rest;
        rest, retry, over := Attempt(rest, retry);
        LeavesOn(data, last, rest);
        turns := turns + 1;
        if over {
          return false, turns;
        }
        StillRunning(stack, start, turns, bound);
      }
      return true, turns + 1;
    }

    /** One turn with data left; it may be the last. */
    method Attempt(data: string, retries: int) returns (rest: string, retry: int, over: bool)
      requires data != ""
      modifies this
      ensures Turn(stack, Running(data, retries, old(attempts)))
           == if over then Ended(rest, false, attempts) else Running(rest, retry, attempts)
      ensures Leaves(data, rest) && written == old(written) + data[..|data| - |rest|]
    {
      rest, retry, over := data, retries, false;
      var k := attempts;
      attempts := attempts + 1;
      var free := if stack.space(k) < |rest| then stack.space(k) else |rest|;
      if !stack.writes(k) {
        retry := retry - 1;
        over := !(retry > 0);
        assert data[..0] == "";
        return;
      }
      written := written + rest[..free];
      rest := rest[free..];
      over := !stack.outputs(k);
    }
  }

  lemma LeavesOn(data: string, last: string, rest: string)
    requires Leaves(data, last) && Leaves(last, rest)
    ensures Leaves(data, rest)
    ensures data[..|data| - |last|] + last[..|last| - |rest|] == data[..|data| - |rest|]
  {
  }

  lemma StillRunning(stack: Stack, s: Sending, n: nat, bound: nat)
    requires Turns(stack, s, bound).Ended?
    ensures Turns(stack, s, n).Running? ==> n < bound
  {
    if bound <= n {
      OneEnd(stack, s, bound, n);
    }
  }

  lemma HandedIs(stack: Stack, data: string, attempt: nat, n: nat)
    requires Turns(stack, Begin(data, attempt), n).Ended?
    ensures var e := Turns(stack, Begin(data, attempt), n);
            && Ends(stack, Begin(data, attempt)) && End(stack, data, attempt) == e
            && |e.rest| <= |data| && Handed(stack, data, attempt) == data[..|data| - |e.rest|]
  {
    EndIs(stack, data, attempt, n);
    TurnsLeave(stack, data, attempt, n);
  }

  // ---- several sends one after the other ----

  /** Each of these comes to its end, one after the other. */
  ghost predicate AllEnd(stack: Stack, frames: seq<string>, attempt: nat)
    decreases |frames|
  {
    frames == []
    || (Ends(stack, Begin(frames[0], attempt)) && AllEnd(stack, frames[1..], End(stack, frames[0], attempt).attempt))
  }

  /** All they hand to the stack. */
  ghost function AllHanded(stack: Stack, frames: seq<string>, attempt: nat): string
    requires AllEnd(stack, frames, attempt)
    decreases |frames|
  {
    if frames == [] then ""
    else
      Handed(stack, frames[0], attempt) + AllHanded(stack, frames[1..], End(stack, frames[0], attempt).attempt)
  }

  /** The attempt after the last of theirs. */
  ghost function After(stack: Stack, frames: seq<string>, attempt: nat): nat
    requires AllEnd(stack, frames, attempt)
    decreases |frames|
  {
    if frames == [] then attempt else After(stack, frames[1..], End(stack, frames[0], attempt).attempt)
  }

  function Join(frames: seq<string>): string {
    if frames == [] then "" else frames[0] + Join(frames[1..])
  }

  /** On a reliable stack that is every byte, in order. */
  lemma {:induction false} AllArrive(stack: Stack, frames: seq<string>, attempt: nat)
    requires Reliable(stack) && AllEnd(stack, frames, attempt)
    ensures AllHanded(stack, frames, attempt) == Join(frames)
    decreases |frames|
  {
    if frames != [] {
      AllArrive(stack, frames[1..], End(stack, frames[0], attempt).attempt);
    }
  }

  lemma {:induction false} SpaceEndsAll(stack: Stack, frames: seq<string>, attempt: nat)
    requires SpaceComes(stack)
    ensures AllEnd(stack, frames, attempt)
    decreases |frames|
  {
    if frames != [] {
      SpaceEnds(stack, Begin(frames[0], attempt));
      SpaceEndsAll(stack, frames[1..], End(stack, frames[0], attempt).attempt);
    }
  }

  /** One more at the end. */
  lemma {:induction false} AppendSend(stack: Stack, frames: seq<string>, last: string, attempt: nat)
    requires AllEnd(stack, frames + [last], attempt)
    ensures AllEnd(stack, frames, attempt) && Ends(stack, Begin(last, After(stack, frames, attempt)))
    ensures AllHanded(stack, frames + [last], attempt)
         == AllHanded(stack, frames, attempt) + Handed(stack, last, After(stack, frames, attempt))
    decreases |frames|
  {
    if frames == [] {
      assert [] + [last] == [last] && [last][1..] == [];
    } else {
      assert (frames + [last])[0] == frames[0] && (frames + [last])[1..] == frames[1..] + [last];
      AppendSend(stack, frames[1..], last, End(stack, frames[0], attempt).attempt);
    }
  }
}
