/** Runs of the DHCP server: no address is given to a second client while the first may still use it. */
module DhcpRuns {
  import opened Wrappers
  import opened Dhcp

  datatype Event =
    | Discover(mac: Mac, now: seq<nat>)
    | Request(mac: Mac, ip: Option<seq<nat>>, at: nat)

  datatype Ack = Ack(slot: nat, mac: Mac, time: nat)

  datatype State = State(table: Table, acks: seq<Ack>, clock: nat)

  function Start(): State {
    State(EmptyTable(), [], 0)
  }

  predicate NonDecreasing(s: seq<nat>) {
    forall i, j :: 0 <= i < j < |s| ==> s[i] <= s[j]
  }

  /** The real time, in milliseconds and unbounded, never goes back; it is read once per entry in a DISCOVER. */
  predicate Possible(e: Event, clock: nat) {
    match e
    case Discover(_, now) => |now| == MAX_IP && clock <= now[0] && NonDecreasing(now)
    case Request(_, ip, at) => clock <= at && (ip.Some? ==> |ip.value| == 4 && ip.value[3] < 256)
  }

  function Step(s: State, net: seq<nat>, e: Event): State
    requires |net| == 4 && Possible(e, s.clock)
  {
    match e
    case Discover(mac, now) => State(AfterDiscover(s.table, mac, now), s.acks, now[MAX_IP - 1])
    case Request(mac, ip, at) =>
      var ack := Acknowledged(s.table, mac, net, ip);
      if ack.None? then s.(clock := at)
      else State(AfterAck(s.table, ack.value, mac, at), s.acks + [Ack(ack.value, mac, at)], at)
  }

  /** `states` is a run of the server through `events`. */
  ghost predicate IsRun(states: seq<State>, events: seq<Event>, net: seq<nat>)
    requires |net| == 4
  {
    && |states| == |events| + 1
    && states[0] == Start()
    && forall i :: 0 <= i < |events| ==>
         Possible(events[i], states[i].clock) && states[i + 1] == Step(states[i], net, events[i])
  }

  /** No later acknowledgement of an address goes to a different client within 24 hours. */
  ghost predicate Exclusive(acks: seq<Ack>) {
    forall a, b ::
      0 <= a < b < |acks| && acks[a].slot == acks[b].slot && acks[a].mac != FREE && acks[a].mac != acks[b].mac
      ==> acks[a].time + LEASE_MS < acks[b].time
  }

  ghost predicate LatestFor(acks: seq<Ack>, a: nat) {
    a < |acks| && forall b :: a < b < |acks| ==> acks[b].slot != acks[a].slot
  }

  /** The table still shows the latest acknowledgement of every address, unless its 24 hours are over. */
  ghost predicate Inv(s: State) {
    && Exclusive(s.acks)
    && (forall a :: 0 <= a < |s.acks| ==> s.acks[a].slot < MAX_IP && s.acks[a].time <= s.clock)
    && (forall a, b :: 0 <= a < b < |s.acks| ==> s.acks[a].time <= s.acks[b].time)
    && (forall a: nat :: LatestFor(s.acks, a) && s.acks[a].mac != FREE ==>
          || s.table[s.acks[a].slot] == Lease(s.acks[a].mac, Stamp(s.acks[a].time))
          || s.acks[a].time + LEASE_MS < s.clock)
  }

  lemma DiscoverKeepsInv(s: State, net: seq<nat>, e: Event)
    requires |net| == 4 && Inv(s) && Possible(e, s.clock) && e.Discover?
    ensures Inv(Step(s, net, e))
  {
    var s' := Step(s, net, e);
    forall a: nat | LatestFor(s.acks, a) && s.acks[a].mac != FREE
      ensures || s'.table[s.acks[a].slot] == Lease(s.acks[a].mac, Stamp(s.acks[a].time))
              || s.acks[a].time + LEASE_MS < s'.clock
    {
      var k, granted := s.acks[a].slot, s.acks[a].time;
      if s'.table[k] != s.table[k] && granted + LEASE_MS >= s'.clock {
        ExpiryWindow(granted, e.now[k]);
      }
    }
  }

  ghost predicate HasLatest(acks: seq<Ack>, a: nat)
    requires a < |acks|
  {
    exists l: nat :: a <= l && LatestFor(acks, l) && acks[l].slot == acks[a].slot
  }

  lemma {:induction false} Latest(acks: seq<Ack>, a: nat)
    requires a < |acks|
    ensures HasLatest(acks, a)
    decreases |acks| - a
  {
    if b :| a < b < |acks| && acks[b].slot == acks[a].slot {
      Latest(acks, b);
    } else {
      assert LatestFor(acks, a);
    }
  }

  /** Whoever held the address before and is not the client acknowledged now has had his 24 hours. */
  lemma AckIsExclusive(s: State, k: nat, mac: Mac, at: nat, a: nat)
    requires Inv(s) && s.clock <= at && k < MAX_IP && (s.table[k].mac == mac || s.table[k].mac == FREE)
    requires a < |s.acks| && s.acks[a].slot == k && s.acks[a].mac != FREE && s.acks[a].mac != mac
    ensures s.acks[a].time + LEASE_MS < at
  {
    Latest(s.acks, a);
    var l: nat :| a <= l && LatestFor(s.acks, l) && s.acks[l].slot == s.acks[a].slot;
    if s.acks[l].mac != s.acks[a].mac {
      assert s.acks[a].time + LEASE_MS < s.acks[l].time;
    }
  }

  lemma LatestBefore(acks: seq<Ack>, ack: Ack, a: nat)
    requires LatestFor(acks + [ack], a) && a < |acks|
    ensures LatestFor(acks, a) && acks[a].slot != ack.slot
  {
    assert (acks + [ack])[|acks|] == ack;
    forall b | a < b < |acks| ensures acks[b].slot != acks[a].slot {
      assert (acks + [ack])[b] == acks[b];
    }
  }

  lemma RequestKeepsInv(s: State, net: seq<nat>, e: Event)
    requires |net| == 4 && Inv(s) && Possible(e, s.clock) && e.Request?
    ensures Inv(Step(s, net, e))
  {
    var ack := Acknowledged(s.table, e.mac, net, e.ip);
    if ack.Some? {
      var s', n := Step(s, net, e), |s.acks|;
      forall a | 0 <= a < n && s.acks[a].slot == ack.value && s.acks[a].mac != FREE && s.acks[a].mac != e.mac
        ensures s.acks[a].time + LEASE_MS < e.at
      {
        AckIsExclusive(s, ack.value, e.mac, e.at, a);
      }
      assert Exclusive(s'.acks);
      forall a: nat | LatestFor(s'.acks, a) && a < n ensures LatestFor(s.acks, a) && s.acks[a].slot != ack.value {
        LatestBefore(s.acks, s'.acks[n], a);
      }
    }
  }

  lemma {:induction false} RunKeepsInv(states: seq<State>, events: seq<Event>, net: seq<nat>, k: nat)
    requires |net| == 4 && IsRun(states, events, net) && k <= |events|
    ensures Inv(states[k])
  {
    if k > 0 {
      RunKeepsInv(states, events, net, k - 1);
      if events[k - 1].Discover? {
        DiscoverKeepsInv(states[k - 1], net, events[k - 1]);
      } else {
        RequestKeepsInv(states[k - 1], net, events[k - 1]);
      }
    }
  }

  /** Over every run, and however often the 32-bit counter wraps, an address acknowledged to one client is not
      acknowledged to another within 24 hours of any acknowledgement to the first. */
  lemma LeasesAreExclusive(states: seq<State>, events: seq<Event>, net: seq<nat>, a: nat, b: nat)
    requires |net| == 4 && IsRun(states, events, net)
    requires var acks := states[|events|].acks;
             a < b < |acks| && acks[a].slot == acks[b].slot && acks[a].mac != FREE && acks[a].mac != acks[b].mac
    ensures var acks := states[|events|].acks; acks[a].time + LEASE_MS < acks[b].time
  {
    RunKeepsInv(states, events, net, |events|);
  }

  // ---- a client is offered its own address ----

  /** Entry `k` shows whom its address was acknowledged to last. */
  ghost predicate Entered(s: State, k: nat)
    requires k < MAX_IP
  {
    s.table[k].mac != FREE ==>
      exists a: nat :: LatestFor(s.acks, a) && s.acks[a].slot == k && s.acks[a].mac == s.table[k].mac
  }

  lemma StaysEntered(s: State, net: seq<nat>, e: Event, k: nat)
    requires |net| == 4 && Possible(e, s.clock) && k < MAX_IP && Entered(s, k)
    ensures Entered(Step(s, net, e), k)
  {
    var s' := Step(s, net, e);
    if s'.acks == s.acks {
      assert s'.table[k].mac in {s.table[k].mac, FREE};
    } else {
      var n := |s.acks|;
      if s'.acks[n].slot == k {
        assert LatestFor(s'.acks, n);
      } else if s.table[k].mac != FREE {
        var a: nat :| LatestFor(s.acks, a) && s.acks[a].slot == k && s.acks[a].mac == s.table[k].mac;
        assert LatestFor(s'.acks, a);
      }
    }
  }

  lemma {:induction false} RunIsEntered(states: seq<State>, events: seq<Event>, net: seq<nat>, i: nat, k: nat)
    requires |net| == 4 && IsRun(states, events, net) && i <= |events| && k < MAX_IP
    ensures Entered(states[i], k)
  {
    if i > 0 {
      RunIsEntered(states, events, net, i - 1, k);
      StaysEntered(states[i - 1], net, events[i - 1], k);
    }
  }

  /** For 24 hours the entry shows the client it was acknowledged to. */
  lemma HeldFor24Hours(s: State, a: nat)
    requires Inv(s) && a < |s.acks| && s.acks[a].mac != FREE && s.clock <= s.acks[a].time + LEASE_MS
    ensures Owns(s.table, s.acks[a].mac, s.acks[a].slot)
  {
    Latest(s.acks, a);
    var l: nat :| a <= l && LatestFor(s.acks, l) && s.acks[l].slot == s.acks[a].slot;
    assert s.acks[l].mac == s.acks[a].mac;
  }

  /** What a client is offered that looks for an address within 24 hours of acknowledgement `a`: an address that was
      acknowledged to it last, that of the first entry that is its own; so the same one unless an earlier entry is. */
  ghost predicate OfferedOwn(s: State, mac: Mac, now: seq<nat>, a: nat)
    requires |now| == MAX_IP && a < |s.acks|
  {
    var k := Offer(s.table, mac, now);
    && k <= s.acks[a].slot
    && (exists l: nat :: LatestFor(s.acks, l) && s.acks[l].slot == k && s.acks[l].mac == mac)
    && (k == s.acks[a].slot <==> forall j: nat :: j < s.acks[a].slot ==> !Owns(s.table, mac, j))
  }

  lemma OfferIsOwn(s: State, mac: Mac, now: seq<nat>, a: nat)
    requires Inv(s) && (forall k :: 0 <= k < MAX_IP ==> Entered(s, k)) && |now| == MAX_IP && s.clock <= now[0]
    requires a < |s.acks| && s.acks[a].mac == mac != FREE && now[0] <= s.acks[a].time + LEASE_MS
    ensures OfferedOwn(s, mac, now, a)
  {
    HeldFor24Hours(s, a);
    OfferExact(s.table, mac, now);
    assert Entered(s, Offer(s.table, mac, now));
  }

  /** Over every run. */
  lemma LeaseIsOffered(states: seq<State>, events: seq<Event>, net: seq<nat>, i: nat, a: nat)
    requires |net| == 4 && IsRun(states, events, net) && i < |events| && events[i].Discover?
    requires a < |states[i].acks| && states[i].acks[a].mac == events[i].mac != FREE
    requires events[i].now[0] <= states[i].acks[a].time + LEASE_MS
    ensures OfferedOwn(states[i], events[i].mac, events[i].now, a)
  {
    RunKeepsInv(states, events, net, i);
    forall k | 0 <= k < MAX_IP ensures Entered(states[i], k) {
      RunIsEntered(states, events, net, i, k);
    }
    OfferIsOwn(states[i], events[i].mac, events[i].now, a);
  }

  /** So a client that has only been acknowledged for one address is offered that one. */
  lemma SameAddressOffered(s: State, mac: Mac, now: seq<nat>, a: nat)
    requires |now| == MAX_IP && a < |s.acks| && OfferedOwn(s, mac, now, a)
    requires forall b :: 0 <= b < |s.acks| && s.acks[b].mac == mac ==> s.acks[b].slot == s.acks[a].slot
    ensures Offer(s.table, mac, now) == s.acks[a].slot
  {
  }

  /** Client 7 has asked for the first address and then for the second: it is offered the first. */
  lemma OtherAddressOffered(net: seq<nat>) returns (s: State)
    requires |net| == 4
    ensures var e := [Request(7, Some(net[..3] + [BASE_IP]), 0), Request(7, Some(net[..3] + [BASE_IP + 1]), 0)];
            IsRun([Start(), Step(Start(), net, e[0]), s], e, net)
    ensures s.acks == [Ack(0, 7, 0), Ack(1, 7, 0)] && Offer(s.table, 7, seq(MAX_IP, _ => 0)) == 0
  {
    var e := [Request(7, Some(net[..3] + [BASE_IP]), 0), Request(7, Some(net[..3] + [BASE_IP + 1]), 0)];
    AcknowledgedExact(Start().table, 7, net, e[0].ip, 0);
    var one := Step(Start(), net, e[0]);
    AcknowledgedExact(one.table, 7, net, e[1].ip, 1);
    s := Step(one, net, e[1]);
    OfferExact(s.table, 7, seq(MAX_IP, _ => 0));
    assert Owns(s.table, 7, 0);
  }
}
