/** The lease table of the DHCP server: eight addresses, 16-bit expiry stamps and a wrapping 32-bit clock. */
module Dhcp {
  import opened Wrappers

  const MAX_IP := 8
  const BASE_IP := 16
  const LEASE_MS := 24 * 60 * 60 * 1000
  const TICKS := 0x1_0000_0000
  const FREE := 0

  type Mac = nat // the six bytes of a hardware address as one number; 0 marks a free entry

  datatype Lease = Lease(mac: Mac, expiry: nat)

  /** The stamp stored for a lease granted at time `now`: 16 bits of the 32-bit millisecond counter. */
  function Stamp(now: nat): nat {
    (now % TICKS + LEASE_MS) % TICKS / 0x1_0000
  }

  /** The comparison made at time `now`: the difference of 32-bit counters, read as a signed number. */
  predicate Expired(stamp: nat, now: nat) {
    (stamp * 0x1_0000 + 0xffff - now % TICKS) % TICKS >= TICKS / 2
  }

  /** The moment up to which a lease granted at `granted` counts as running. */
  function Deadline(granted: nat): nat {
    (granted + LEASE_MS) / 0x1_0000 * 0x1_0000 + 0xffff
  }

  lemma Wrapped(x: int, k: int)
    ensures (x + k * TICKS) % TICKS == x % TICKS
  {
  }

  /** The stored stamp is the deadline, short of the wraps of the counter. */
  lemma StampIsDeadline(granted: nat) returns (k: nat)
    ensures Stamp(granted) * 0x1_0000 + 0xffff + k * TICKS == Deadline(granted)
  {
    var end := granted + LEASE_MS;
    Wrapped(granted % TICKS + LEASE_MS, granted / TICKS);
    k := end / TICKS;
    HighHalf(end % TICKS, k);
  }

  lemma HighHalf(low: nat, k: nat)
    ensures (low + k * TICKS) / 0x1_0000 == low / 0x1_0000 + k * 0x1_0000
  {
    assert k * TICKS == (k * 0x1_0000) * 0x1_0000;
  }

  /** Despite both truncations a lease runs for its full 24 hours; from then on it is seen as expired and as running
      again in turn, for half the range of the counter each. */
  lemma ExpiryWindow(granted: nat, now: nat)
    requires granted <= now
    ensures granted + LEASE_MS <= Deadline(granted) < granted + LEASE_MS + 0x1_0000
    ensures Expired(Stamp(granted), now)
       <==> Deadline(granted) < now && (now - Deadline(granted) - 1) % TICKS < TICKS / 2
  {
    var k := StampIsDeadline(granted);
    var left := Stamp(granted) * 0x1_0000 + 0xffff - now % TICKS;
    Wrapped(left, k - now / TICKS);
    assert left + (k - now / TICKS) * TICKS == Deadline(granted) - now;
    if Deadline(granted) < now {
      Behind(now - Deadline(granted));
    }
  }

  /** A difference of `late` ticks in the other direction, read as a signed number. */
  lemma Behind(late: int)
    requires 0 < late
    ensures -late % TICKS == TICKS - 1 - (late - 1) % TICKS
  {
    var q, r := (late - 1) / TICKS, (late - 1) % TICKS;
    assert -late == TICKS - 1 - r + (-q - 1) * TICKS;
    Wrapped(TICKS - 1 - r, -q - 1);
  }

  // ---- the two messages, on the table ----

  type Table = t: seq<Lease> | |t| == MAX_IP witness seq(MAX_IP, _ => Lease(FREE, 0))

  function EmptyTable(): Table {
    seq(MAX_IP, _ => Lease(FREE, 0))
  }

  predicate Available(lease: Lease, now: nat) {
    lease.mac == FREE || Expired(lease.expiry, now)
  }

  /** The first entry from `i` on that belongs to the client, or MAX_IP. */
  function Matching(t: Table, mac: Mac, i: nat): (k: nat)
    requires i <= MAX_IP
    ensures i <= k <= MAX_IP && (k < MAX_IP ==> t[k].mac == mac)
    ensures forall j :: i <= j < k ==> t[j].mac != mac
    decreases MAX_IP - i
  {
    if i == MAX_IP || t[i].mac == mac then i else Matching(t, mac, i + 1)
  }

  /** The first entry from `i` up to `end` that is free or expired when it is looked at, or `end`. */
  function FirstAvailable(t: Table, now: seq<nat>, i: nat, end: nat): (k: nat)
    requires i <= end <= MAX_IP == |now|
    ensures i <= k <= end && (k < end ==> Available(t[k], now[k]))
    ensures forall j :: i <= j < k ==> !Available(t[j], now[j])
    decreases end - i
  {
    if i == end || Available(t[i], now[i]) then i else FirstAvailable(t, now, i + 1, end)
  }

  /** What a DISCOVER leaves behind: an expired entry met before the client's own one is cleared. */
  function AfterDiscover(t: Table, mac: Mac, now: seq<nat>): Table
    requires |now| == MAX_IP
  {
    var own := Matching(t, mac, 0);
    var k := FirstAvailable(t, now, 0, own);
    if k < own && Expired(t[k].expiry, now[k]) then t[k := t[k].(mac := FREE)] else t
  }

  /** The entry offered, or MAX_IP when the request is ignored. */
  function Offer(t: Table, mac: Mac, now: seq<nat>): (k: nat)
    requires |now| == MAX_IP
    ensures k <= MAX_IP
  {
    var own := Matching(t, mac, 0);
    if own < MAX_IP then own else FirstAvailable(t, now, 0, own)
  }

  ghost predicate Owns(t: Table, mac: Mac, k: nat) {
    k < MAX_IP && t[k].mac == mac
  }

  ghost predicate Free(t: Table, now: seq<nat>, k: nat)
    requires |now| == MAX_IP
  {
    k < MAX_IP && (t[k].mac == FREE || Expired(t[k].expiry, now[k]))
  }

  /** A client is offered the first entry of its own; only one without any is offered the first that is free or expired;
      and nothing is offered exactly if there is neither. */
  lemma OfferExact(t: Table, mac: Mac, now: seq<nat>)
    requires |now| == MAX_IP
    ensures var k := Offer(t, mac, now);
            && ((exists i: nat :: Owns(t, mac, i)) ==> Owns(t, mac, k) && forall j: nat :: j < k ==> !Owns(t, mac, j))
            && (k < MAX_IP && !Owns(t, mac, k) ==> Free(t, now, k) && forall j: nat :: j < k ==> !Free(t, now, j))
            && (k == MAX_IP <==> forall i: nat :: !Owns(t, mac, i) && !Free(t, now, i))
  {
    var own := Matching(t, mac, 0);
    if i: nat :| Owns(t, mac, i) {
      assert own <= i;
    }
  }

  /** An expired entry that a DISCOVER passes on the way to the client's own one is cleared: the first that is free or
      expired, if it is not free yet. All others stay. */
  lemma ClearedExact(t: Table, mac: Mac, now: seq<nat>, k: nat)
    requires |now| == MAX_IP && k < MAX_IP
    ensures AfterDiscover(t, mac, now)[k]
         == if t[k].mac != FREE && Expired(t[k].expiry, now[k])
               && (forall j: nat :: j <= k ==> !Owns(t, mac, j)) && (forall j: nat :: j < k ==> !Free(t, now, j))
            then t[k].(mac := FREE) else t[k]
  {
    var own := Matching(t, mac, 0);
    if own < MAX_IP {
      assert Owns(t, mac, own);
    }
    var first := FirstAvailable(t, now, 0, own);
    if first < own {
      assert Free(t, now, first);
    }
  }

  /** The entry a REQUEST is acknowledged for; `ip` is the requested address option, `net` the server's own address. */
  function Acknowledged(t: Table, mac: Mac, net: seq<nat>, ip: Option<seq<nat>>): (k: Option<nat>)
    requires |net| == 4 && (ip.Some? ==> |ip.value| == 4 && ip.value[3] < 256)
    ensures k.Some? ==> k.value < MAX_IP && (t[k.value].mac == mac || t[k.value].mac == FREE)
  {
    if ip.None? || ip.value[..3] != net[..3] then None
    else
      var k := (ip.value[3] - BASE_IP) % 256;
      if k < MAX_IP && (t[k].mac == mac || t[k].mac == FREE) then Some(k) else None
  }

  /** That is exactly one of the eight addresses behind the server's own three bytes, if its entry is the client's or
      free. */
  lemma AcknowledgedExact(t: Table, mac: Mac, net: seq<nat>, ip: Option<seq<nat>>, k: nat)
    requires |net| == 4 && (ip.Some? ==> |ip.value| == 4 && ip.value[3] < 256)
    ensures Acknowledged(t, mac, net, ip) == Some(k)
       <==> k < MAX_IP && ip == Some(net[..3] + [BASE_IP + k]) && (t[k].mac == mac || t[k].mac == FREE)
  {
    if k < MAX_IP {
      assert (net[..3] + [BASE_IP + k])[..3] == net[..3];
      if ip.Some? && ip.value[..3] == net[..3] && ip.value[3] == BASE_IP + k {
        assert ip.value == ip.value[..3] + [ip.value[3]];
      }
    }
  }

  function AfterAck(t: Table, k: nat, mac: Mac, now: nat): Table
    requires k < MAX_IP
  {
    t[k := Lease(mac, Stamp(now))]
  }

  /** A client that asks for the address it has just been offered gets it. */
  lemma OfferIsHonoured(t: Table, mac: Mac, now: seq<nat>, net: seq<nat>)
    requires |now| == MAX_IP && |net| == 4 && Offer(t, mac, now) < MAX_IP
    ensures var k := Offer(t, mac, now);
            Acknowledged(AfterDiscover(t, mac, now), mac, net, Some(net[..3] + [BASE_IP + k])) == Some(k)
  {
    var k := Offer(t, mac, now);
    var ip := net[..3] + [BASE_IP + k];
    assert ip[..3] == net[..3] && (ip[3] - BASE_IP) % 256 == k;
    assert AfterDiscover(t, mac, now)[k].mac in {mac, FREE};
  }

  /** The server as it runs: the table is searched and changed in place. */
  class Server {
    const lease: array<Lease>
    const ip: seq<nat>

    ghost predicate Valid() {
      lease.Length == MAX_IP && |ip| == 4
    }

    constructor (ip: seq<nat>)
      requires |ip| == 4
      ensures Valid() && fresh(lease) && lease[..] == EmptyTable()
    {
      this.ip := ip;
      lease := new Lease[MAX_IP](_ => Lease(FREE, 0));
    }

    /** `now[i]` is the clock when entry `i` is looked at. */
    method Discover(mac: Mac, now: seq<nat>) returns (yi: nat)
      requires Valid() && |now| == MAX_IP
      modifies lease
      ensures yi == Offer(old(lease[..]), mac, now)
      ensures lease[..] == AfterDiscover(old(lease[..]), mac, now)
    {
      ghost var t: Table := lease[..];
      ghost var own := Matching(t, mac, 0);
      yi := MAX_IP;
      for i := 0 to MAX_IP
        invariant i <= own && Matching(t, mac, i) == own && yi <= MAX_IP
        invariant yi == MAX_IP ==> lease[..] == t && FirstAvailable(t, now, i, own) == FirstAvailable(t, now, 0, own)
        invariant yi < MAX_IP ==> yi < i && FirstAvailable(t, now, 0, own) == yi
        invariant yi < MAX_IP ==> lease[..] == AfterDiscover(t, mac, now)
        invariant forall j :: i <= j < MAX_IP ==> lease[j] == t[j]
      {
        if lease[i].mac == mac {
          yi := i;
          break;
        }
        if yi == MAX_IP {
          if lease[i].mac == FREE {
            yi := i;
          }
          if Expired(lease[i].expiry, now[i]) {
            lease[i] := lease[i].(mac := FREE);
            yi := i;
          }
        }
      }
    }

    /** Grants or renews the lease for the requested address, or ignores the message. */
    method Request(mac: Mac, requested: Option<seq<nat>>, now: nat) returns (ack: Option<nat>)
      requires Valid() && (requested.Some? ==> |requested.value| == 4 && requested.value[3] < 256)
      modifies lease
      ensures ack == Acknowledged(old(lease[..]), mac, ip, requested)
      ensures lease[..] == if ack.Some? then AfterAck(old(lease[..]), ack.value, mac, now) else old(lease[..])
    {
      if requested.None? {
        return None;
      }
      if requested.value[..3] != ip[..3] {
        return None;
      }
      var yi := (requested.value[3] - BASE_IP) % 256;
      if yi >= MAX_IP {
        return None;
      }
      if lease[yi].mac == mac {
      } else if lease[yi].mac == FREE {
        lease[yi] := lease[yi].(mac := mac);
      } else {
        return None;
      }
      lease[yi] := lease[yi].(expiry := Stamp(now));
      return Some(yi);
    }
  }
}
