/** Runs of whole DHCP messages: what the server does, message by message, is a run of the lease table. */
module DhcpMessages {
  import opened Wrappers
  import opened Dhcp
  import opened DhcpOptions
  import opened DhcpRuns

  /** A received message: the client, its options with what lies behind them, and the clock while it is processed. */
  datatype Message = Message(mac: Mac, options: seq<nat>, now: seq<nat>)

  ghost predicate Comes(m: Message, clock: nat) {
    Bytes(m.options) && |m.now| == MAX_IP && clock <= m.now[0] && NonDecreasing(m.now)
  }

  /** The acknowledgement it is answered with, if it is. */
  function Acked(t: Table, net: seq<nat>, m: Message): Option<Ack>
    requires |net| == 4 && |m.now| == MAX_IP && Bytes(m.options)
  {
    var a := DhcpOptions.Answer(t, net, m.mac, m.options, m.now);
    if a.Some? && a.value.1 == ACK then Some(Ack(a.value.0, m.mac, m.now[0])) else None
  }

  /** What `Process` does for it, with the acknowledgements noted. */
  function Take(s: State, net: seq<nat>, m: Message): State
    requires |net| == 4 && |m.now| == MAX_IP && Bytes(m.options)
  {
    var ack := Acked(s.table, net, m);
    State(AfterMessage(s.table, net, m.mac, m.options, m.now),
          if ack.Some? then s.acks + [ack.value] else s.acks, m.now[MAX_IP - 1])
  }

  /** `states` is a run of the server through `messages`. */
  ghost predicate IsMessageRun(states: seq<State>, messages: seq<Message>, net: seq<nat>)
    requires |net| == 4
  {
    && |states| == |messages| + 1
    && states[0] == Start()
    && forall i :: 0 <= i < |messages| ==> Follows(states[i], net, messages[i], states[i + 1])
  }

  ghost predicate Follows(s: State, net: seq<nat>, m: Message, s': State)
    requires |net| == 4
  {
    Comes(m, s.clock) && s' == Take(s, net, m)
  }

  // ---- as a run of the lease table ----

  /** What the message is to the lease table; other messages are ignored. */
  function EventOf(m: Message): Option<Event>
    requires Bytes(m.options)
  {
    if Kind(m.options) == DISCOVER then Some(Event.Discover(m.mac, m.now))
    else if Kind(m.options) == REQUEST && |m.now| == MAX_IP then
      Some(Event.Request(m.mac, Requested(m.options), m.now[0]))
    else None
  }

  /** A message is a step of the lease table, or none; the clock goes on in any case. */
  lemma TakeIsStep(s: State, net: seq<nat>, m: Message)
    requires |net| == 4 && Comes(m, s.clock)
    ensures var e := EventOf(m);
            && (e.Some? ==> Possible(e.value, s.clock))
            && Take(s, net, m) == (if e.Some? then Step(s, net, e.value) else s).(clock := m.now[MAX_IP - 1])
  {
  }

  lemma LaterKeepsInv(s: State, clock: nat)
    requires Inv(s) && s.clock <= clock
    ensures Inv(s.(clock := clock))
  {
  }

  lemma TakeKeepsInv(s: State, net: seq<nat>, m: Message)
    requires |net| == 4 && Comes(m, s.clock) && Inv(s)
    ensures Inv(Take(s, net, m))
  {
    TakeIsStep(s, net, m);
    assert m.now[0] <= m.now[MAX_IP - 1];
    var e := EventOf(m);
    if e.None? {
      LaterKeepsInv(s, m.now[MAX_IP - 1]);
    } else {
      if e.value.Discover? {
        DiscoverKeepsInv(s, net, e.value);
      } else {
        RequestKeepsInv(s, net, e.value);
      }
      LaterKeepsInv(Step(s, net, e.value), m.now[MAX_IP - 1]);
    }
  }

  /** So the invariant of the lease table holds over every run of messages. */
  lemma {:induction false} MessagesKeepInv(states: seq<State>, messages: seq<Message>, net: seq<nat>, k: nat)
    requires |net| == 4 && IsMessageRun(states, messages, net) && k <= |messages|
    ensures Inv(states[k])
  {
    if k > 0 {
      MessagesKeepInv(states, messages, net, k - 1);
      assert Follows(states[k - 1], net, messages[k - 1], states[k - 1 + 1]);
      TakeKeepsInv(states[k - 1], net, messages[k - 1]);
    }
  }

  lemma {:induction false} AcksStay(states: seq<State>, messages: seq<Message>, net: seq<nat>, i: nat, n: nat)
    requires |net| == 4 && IsMessageRun(states, messages, net) && i <= n <= |messages|
    ensures states[i].acks <= states[n].acks
  {
    if i < n {
      AcksStay(states, messages, net, i, n - 1);
      assert Follows(states[n - 1], net, messages[n - 1], states[n - 1 + 1]);
    }
  }

  /** Message `i` is answered with this acknowledgement. */
  ghost predicate Acknowledges(states: seq<State>, messages: seq<Message>, net: seq<nat>, i: nat, ack: Ack)
    requires |net| == 4 && i < |messages| && i < |states|
  {
    var m := messages[i];
    |m.now| == MAX_IP && Bytes(m.options) && Acked(states[i].table, net, m) == Some(ack)
  }

  /** An acknowledgement stands in every later state where it has been noted. */
  lemma AckIsNoted(states: seq<State>, messages: seq<Message>, net: seq<nat>, i: nat, n: nat, ack: Ack)
    requires |net| == 4 && IsMessageRun(states, messages, net) && i < n <= |messages|
    requires Acknowledges(states, messages, net, i, ack)
    ensures var at := |states[i].acks|; at < |states[n].acks| && states[n].acks[at] == ack
  {
    AcksStay(states, messages, net, i + 1, n);
    assert Follows(states[i], net, messages[i], states[i + 1]);
    assert states[i + 1].acks == states[i].acks + [ack];
  }

  lemma ExclusiveAt(acks: seq<Ack>, a: nat, b: nat)
    requires Exclusive(acks) && a < b < |acks|
    requires acks[a].slot == acks[b].slot && acks[a].mac != FREE && acks[a].mac != acks[b].mac
    ensures acks[a].time + LEASE_MS < acks[b].time
  {
  }

  /** Over every run of messages, whatever else is received in between: an address acknowledged to one client is not
      acknowledged to another within 24 hours. */
  lemma MessagesAreExclusive(states: seq<State>, messages: seq<Message>, net: seq<nat>, i: nat, j: nat, x: Ack, y: Ack)
    requires |net| == 4 && IsMessageRun(states, messages, net) && i < j < |messages|
    requires Acknowledges(states, messages, net, i, x) && Acknowledges(states, messages, net, j, y)
    requires x.slot == y.slot && x.mac != FREE && x.mac != y.mac
    ensures x.time + LEASE_MS < y.time
  {
    AckIsNoted(states, messages, net, i, j, x);
    AckIsNoted(states, messages, net, i, j + 1, x);
    AckIsNoted(states, messages, net, j, j + 1, y);
    MessagesKeepInv(states, messages, net, j + 1);
    ExclusiveAt(states[j + 1].acks, |states[i].acks|, |states[j].acks|);
  }

  // ---- a client is offered its own address ----

  lemma {:induction false} MessagesAreEntered(states: seq<State>, messages: seq<Message>, net: seq<nat>, i: nat, k: nat)
    requires |net| == 4 && IsMessageRun(states, messages, net) && i <= |messages| && k < MAX_IP
    ensures Entered(states[i], k)
  {
    if i > 0 {
      MessagesAreEntered(states, messages, net, i - 1, k);
      assert Follows(states[i - 1], net, messages[i - 1], states[i - 1 + 1]);
      TakeIsStep(states[i - 1], net, messages[i - 1]);
      var e := EventOf(messages[i - 1]);
      if e.Some? {
        StaysEntered(states[i - 1], net, e.value, k);
      }
    }
  }

  /** Over every run of messages a DISCOVER within 24 hours of an acknowledgement is answered with an OFFER of one of
      the client's own addresses. */
  lemma OwnAddressOffered(states: seq<State>, messages: seq<Message>, net: seq<nat>, i: nat, a: nat)
    requires |net| == 4 && IsMessageRun(states, messages, net) && i < |messages|
    requires a < |states[i].acks| && states[i].acks[a].mac == messages[i].mac != FREE
    requires |messages[i].now| == MAX_IP && messages[i].now[0] <= states[i].acks[a].time + LEASE_MS
    requires Bytes(messages[i].options) && Kind(messages[i].options) == DISCOVER
    ensures OfferedOwn(states[i], messages[i].mac, messages[i].now, a)
    ensures DhcpOptions.Answer(states[i].table, net, messages[i].mac, messages[i].options, messages[i].now)
         == Some((Offer(states[i].table, messages[i].mac, messages[i].now), OFFER))
  {
    MessagesKeepInv(states, messages, net, i);
    forall k | 0 <= k < MAX_IP ensures Entered(states[i], k) {
      MessagesAreEntered(states, messages, net, i, k);
    }
    assert Follows(states[i], net, messages[i], states[i + 1]);
    OfferIsOwn(states[i], messages[i].mac, messages[i].now, a);
    HeldFor24Hours(states[i], a);
    OfferExact(states[i].table, messages[i].mac, messages[i].now);
  }

  // ---- an address passes on ----

  /** The list in memory, with zeros behind it. */
  function Packed(opts: seq<Opt>): (b: seq<nat>)
    requires |Body(opts)| < LIMIT && forall i :: 0 <= i < |Body(opts)| ==> Body(opts)[i] < 256
    ensures Bytes(b) && Body(opts) + [END] <= b[..LIMIT]
  {
    Body(opts) + [END] + seq(LIMIT + BEHIND - 1 - |Body(opts)|, _ => 0)
  }

  function AskFor(ip: seq<nat>): (b: seq<nat>)
    requires |ip| == 4 && forall i :: 0 <= i < 4 ==> ip[i] < 256
    ensures Bytes(b)
  {
    assert Body([Opt(MSG_TYPE, [REQUEST]), Opt(REQUESTED_IP, ip)]) == [MSG_TYPE, 1, REQUEST, REQUESTED_IP, 4] + ip by {
      var opts := [Opt(MSG_TYPE, [REQUEST]), Opt(REQUESTED_IP, ip)];
      assert opts[1..] == [Opt(REQUESTED_IP, ip)] && opts[1..][1..] == [];
      assert Body(opts[1..]) == One(Opt(REQUESTED_IP, ip));
    }
    Packed([Opt(MSG_TYPE, [REQUEST]), Opt(REQUESTED_IP, ip)])
  }

  lemma AskForIsRead(ip: seq<nat>)
    requires |ip| == 4 && forall i :: 0 <= i < 4 ==> ip[i] < 256
    ensures Kind(AskFor(ip)) == REQUEST && Requested(AskFor(ip)) == Some(ip)
  {
    var opts := [Opt(MSG_TYPE, [REQUEST]), Opt(REQUESTED_IP, ip)];
    assert Lists(AskFor(ip)[..LIMIT], opts);
    KindIsRead(AskFor(ip), opts);
    RequestedIsRead(AskFor(ip), opts);
  }

  function Look(): (b: seq<nat>)
    ensures Bytes(b)
  {
    assert [Opt(MSG_TYPE, [DISCOVER])][1..] == [];
    assert Body([Opt(MSG_TYPE, [DISCOVER])]) == [MSG_TYPE, 1, DISCOVER];
    Packed([Opt(MSG_TYPE, [DISCOVER])])
  }

  lemma LookIsRead()
    ensures Kind(Look()) == DISCOVER
  {
    assert Lists(Look()[..LIMIT], [Opt(MSG_TYPE, [DISCOVER])]);
    KindIsRead(Look(), [Opt(MSG_TYPE, [DISCOVER])]);
  }

  /** A client that asks for the first address gets it if it is his or free. */
  lemma FirstAddressGiven(s: State, net: seq<nat>, m: Message)
    requires |net| == 4 && Comes(m, s.clock) && s.table[0].mac in {m.mac, FREE}
    requires Kind(m.options) == REQUEST && Requested(m.options) == Some(net[..3] + [BASE_IP])
    ensures Acked(s.table, net, m) == Some(Ack(0, m.mac, m.now[0]))
    ensures Take(s, net, m).table == AfterAck(s.table, 0, m.mac, m.now[0])
  {
    assert (net[..3] + [BASE_IP])[..3] == net[..3];
  }

  lemma FirstAddressFreed(s: State, net: seq<nat>, m: Message)
    requires |net| == 4 && Comes(m, s.clock) && Kind(m.options) == DISCOVER
    requires Expired(s.table[0].expiry, m.now[0]) && forall k :: 0 <= k < MAX_IP ==> s.table[k].mac != m.mac
    ensures Take(s, net, m).table[0].mac == FREE
  {
  }

  lemma ThreeSteps(states: seq<State>, messages: seq<Message>, net: seq<nat>)
    requires |net| == 4 && |states| == 4 && |messages| == 3 && states[0] == Start()
    requires Follows(states[0], net, messages[0], states[1])
    requires Follows(states[1], net, messages[1], states[2])
    requires Follows(states[2], net, messages[2], states[3])
    ensures IsMessageRun(states, messages, net)
  {
    forall i | 0 <= i < 3 ensures Follows(states[i], net, messages[i], states[i + 1]) {
      if i != 0 && i != 1 {
        assert i == 2;
      }
    }
  }

  /** Client 1 is acknowledged for the first address; once the stamp has run out client 2 looks for an address, and is
      acknowledged for the same. */
  lemma AddressPassesOn(net: seq<nat>) returns (states: seq<State>, messages: seq<Message>)
    requires |net| == 4 && forall i :: 0 <= i < 4 ==> net[i] < 256
    ensures IsMessageRun(states, messages, net) && |messages| == 3
    ensures Acknowledges(states, messages, net, 0, Ack(0, 1, 0))
    ensures Acknowledges(states, messages, net, 2, Ack(0, 2, Deadline(0) + 1))
  {
    var later := seq(MAX_IP, _ => Deadline(0) + 1);
    var ip := net[..3] + [BASE_IP];
    AskForIsRead(ip);
    LookIsRead();
    messages := [Message(1, AskFor(ip), seq(MAX_IP, _ => 0)), Message(2, Look(), later), Message(2, AskFor(ip), later)];
    var one := Take(Start(), net, messages[0]);
    var two := Take(one, net, messages[1]);
    FirstAddressGiven(Start(), net, messages[0]);
    ExpiryWindow(0, Deadline(0) + 1);
    FirstAddressFreed(one, net, messages[1]);
    FirstAddressGiven(two, net, messages[2]);
    states := [Start(), one, two, Take(two, net, messages[2])];
    ThreeSteps(states, messages, net);
  }
}
