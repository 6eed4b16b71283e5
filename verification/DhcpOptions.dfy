/** The option list of a DHCP message: searching a received one, and writing the options of a reply in its place. */
module DhcpOptions {
  import opened Wrappers
  import opened Dhcp

  const LIMIT := 308 // bytes behind the magic cookie
  const BEHIND := 5  // bytes behind those that reading an option at their end may reach
  const END := 255
  const SUBNET_MASK := 1
  const ROUTER := 3
  const DNS := 6
  const REQUESTED_IP := 50
  const LEASE_TIME := 51
  const MSG_TYPE := 53
  const SERVER_ID := 54

  const DISCOVER := 1
  const OFFER := 2
  const REQUEST := 3
  const ACK := 5

  datatype Opt = Opt(code: nat, data: seq<nat>)

  function One(o: Opt): (bytes: seq<nat>)
    ensures |bytes| == 2 + |o.data|
  {
    [o.code, |o.data|] + o.data
  }

  /** The options one behind the other: code, length, data; without the closing end code. */
  function Body(opts: seq<Opt>): seq<nat> {
    if opts == [] then [] else One(opts[0]) + Body(opts[1..])
  }

  /** `bytes` begin with these options and the end code. */
  ghost predicate Lists(bytes: seq<nat>, opts: seq<Opt>) {
    Body(opts) + [END] <= bytes && forall k :: 0 <= k < |opts| ==> opts[k].code != END
  }

  /** The first option with the given code. */
  function First(opts: seq<Opt>, cmd: nat): (o: Option<Opt>)
    ensures o.None? <==> forall k :: 0 <= k < |opts| ==> opts[k].code != cmd
    ensures o.Some? ==> o.value.code == cmd && o.value in opts
  {
    if opts == [] then None
    else if opts[0].code == cmd then Some(opts[0])
    else
      assert forall k :: 0 < k < |opts| ==> opts[k] == opts[1..][k - 1];
      First(opts[1..], cmd)
  }

  lemma {:induction false} BodyAppend(opts: seq<Opt>, o: Opt)
    ensures Body(opts + [o]) == Body(opts) + One(o)
  {
    if opts == [] {
      assert opts + [o] == [o] && [o][1..] == [];
    } else {
      assert (opts + [o])[0] == opts[0] && (opts + [o])[1..] == opts[1..] + [o];
      BodyAppend(opts[1..], o);
    }
  }

  // ---- searching ----

  /** The options of a message, whatever they hold, and what lies behind them in memory. */
  ghost predicate Bytes(b: seq<nat>) {
    |b| == LIMIT + BEHIND && forall i :: 0 <= i < |b| ==> b[i] < 256
  }

  /** Where options begin, from `i` on, as their length bytes have it. */
  function Places(b: seq<nat>, i: nat): (places: seq<nat>)
    requires LIMIT < |b|
    ensures forall k :: 0 <= k < |places| ==> places[k] < LIMIT
    decreases LIMIT - i
  {
    if i >= LIMIT || b[i] == END then [] else [i] + Places(b, i + 2 + b[i + 1])
  }

  /** The first of these places that has the code. */
  function FirstOf(b: seq<nat>, places: seq<nat>, cmd: nat): (place: Option<nat>)
    requires forall k :: 0 <= k < |places| ==> places[k] < |b|
    ensures place.None? <==> forall k :: 0 <= k < |places| ==> b[places[k]] != cmd
    ensures place.Some? ==> place.value in places && b[place.value] == cmd
  {
    if places == [] then None
    else if b[places[0]] == cmd then Some(places[0])
    else
      assert forall k :: 0 < k < |places| ==> places[k] == places[1..][k - 1];
      FirstOf(b, places[1..], cmd)
  }

  /** The first option with the code in a message. */
  function Place(b: seq<nat>, cmd: nat): (place: Option<nat>)
    requires LIMIT < |b|
    ensures place.Some? ==> place.value < LIMIT && b[place.value] == cmd
  {
    FoundFrom(b, 0, cmd)
  }

  /** What a search from `i` on comes upon. */
  function FoundFrom(b: seq<nat>, i: nat, cmd: nat): Option<nat>
    requires LIMIT < |b|
  {
    FirstOf(b, Places(b, i), cmd)
  }

  lemma FoundStep(b: seq<nat>, i: nat, cmd: nat)
    requires LIMIT < |b|
    ensures FoundFrom(b, i, cmd) == if i >= LIMIT || b[i] == END then None else if b[i] == cmd then Some(i)
                                    else FoundFrom(b, i + 2 + b[i + 1], cmd)
  {
    if i < LIMIT && b[i] != END {
      assert Places(b, i)[1..] == Places(b, i + 2 + b[i + 1]);
    }
  }

  /** Walks from option to option over the length bytes, to the first one with the given code if there is any. */
  method Find(bytes: seq<nat>, cmd: nat) returns (at: int)
    requires LIMIT < |bytes|
    ensures at == if Place(bytes, cmd).Some? then Place(bytes, cmd).value else -1
  {
    var i := 0;
    while i < LIMIT && bytes[i] != END
      invariant 0 <= i && Place(bytes, cmd) == FoundFrom(bytes, i, cmd)
      decreases LIMIT - i
    {
      FoundStep(bytes, i, cmd);
      if bytes[i] == cmd {
        return i;
      }
      i := i + 2 + bytes[i + 1];
    }
    FoundStep(bytes, i, cmd);
    return -1;
  }

  // ---- in a well-formed list ----

  /** What a well-formed list looks like from the position of one of its options. */
  lemma ListHead(bytes: seq<nat>, opts: seq<Opt>)
    requires Lists(bytes, opts)
    ensures bytes != [] && (bytes[0] == END <==> opts == [])
    ensures opts != [] ==>
              && One(opts[0]) <= bytes && bytes[0] == opts[0].code && bytes[1] == |opts[0].data|
              && Lists(bytes[2 + bytes[1]..], opts[1..])
  {
    var list := Body(opts) + [END];
    assert list[0] == bytes[0];
    if opts != [] {
      var one := One(opts[0]);
      assert list == one + (Body(opts[1..]) + [END]);
      assert list[1] == one[1] && bytes[1] == list[1];
      assert one == list[..|one|] == bytes[..|one|];
      assert list[|one|..] == Body(opts[1..]) + [END];
    }
  }

  /** The place shows the option. */
  ghost predicate Shows(b: seq<nat>, place: nat, o: Opt) {
    place + 2 + |o.data| <= |b| && b[place..][..2 + |o.data|] == One(o)
  }

  /** The first option of a list from `i` on, and where the list goes on. */
  lemma ListAt(b: seq<nat>, i: nat, opts: seq<Opt>)
    requires LIMIT < |b| && i < LIMIT && Lists(b[i..LIMIT], opts)
    ensures b[i] == END <==> opts == []
    ensures opts != [] ==>
              var next := i + 2 + |opts[0].data|;
              && b[i] == opts[0].code && b[i + 1] == |opts[0].data| && Shows(b, i, opts[0])
              && next < LIMIT && Lists(b[next..LIMIT], opts[1..])
  {
    var list := b[i..LIMIT];
    ListHead(list, opts);
    assert list[0] == b[i];
    if opts != [] {
      var next := i + 2 + |opts[0].data|;
      assert list[1] == b[i + 1];
      assert b[i..][..2 + |opts[0].data|] == list[..2 + |opts[0].data|] == One(opts[0]);
      assert list[2 + list[1]..] == b[next..LIMIT];
      ListHead(b[next..LIMIT], opts[1..]);
    }
  }

  /** In a well-formed list within the limit a search for any code comes upon the first option that has it. */
  lemma {:induction false} FirstListed(b: seq<nat>, i: nat, opts: seq<Opt>, cmd: nat)
    requires LIMIT < |b| && i < LIMIT && Lists(b[i..LIMIT], opts)
    ensures var place, first := FoundFrom(b, i, cmd), First(opts, cmd);
            && (place.None? <==> first.None?)
            && (place.Some? && first.Some? ==> Shows(b, place.value, first.value))
    decreases |opts|
  {
    ListAt(b, i, opts);
    FoundStep(b, i, cmd);
    if opts != [] {
      FirstListed(b, i + 2 + |opts[0].data|, opts[1..], cmd);
    }
  }

  // ---- padding ----

  const PAD := 0

  /** Where options begin when padding is read as section 3.1 of RFC 2132 has it: a single byte without a length. */
  function StandardPlaces(b: seq<nat>, i: nat): (places: seq<nat>)
    requires LIMIT < |b|
    ensures forall k :: 0 <= k < |places| ==> places[k] < LIMIT && b[places[k]] != PAD
    decreases LIMIT - i
  {
    if i >= LIMIT || b[i] == END then []
    else if b[i] == PAD then StandardPlaces(b, i + 1)
    else [i] + StandardPlaces(b, i + 2 + b[i + 1])
  }

  /** No padding is met on the way. */
  predicate Unpadded(b: seq<nat>, i: nat)
    requires LIMIT < |b|
    decreases LIMIT - i
  {
    i >= LIMIT || b[i] == END || (b[i] != PAD && Unpadded(b, i + 2 + b[i + 1]))
  }

  /** The code finds the options of the standard if and only if there is no padding before or between them. */
  lemma {:induction false} PlacesStandard(b: seq<nat>, i: nat)
    requires LIMIT < |b|
    ensures Places(b, i) == StandardPlaces(b, i) <==> Unpadded(b, i)
    decreases LIMIT - i
  {
    if i < LIMIT && b[i] != END {
      var next := i + 2 + b[i + 1];
      assert Places(b, i)[0] == i && Places(b, i)[1..] == Places(b, next);
      if b[i] != PAD {
        assert StandardPlaces(b, i)[1..] == StandardPlaces(b, next);
        PlacesStandard(b, next);
      }
    }
  }

  /** The code takes the byte behind padding for a length: here it jumps over the type of a DISCOVER and finds none. */
  lemma PaddingHidesType(b: seq<nat>)
    requires Bytes(b) && b[..5] == [PAD, MSG_TYPE, 1, DISCOVER, END] && forall k :: 5 <= k < |b| ==> b[k] == 0
    ensures Place(b, MSG_TYPE).None? && Kind(b) == 0
    ensures Place(b[1..] + [0], MSG_TYPE) == Some(0) && Kind(b[1..] + [0]) == DISCOVER
  {
    assert b[0] == b[..5][0] && b[1] == b[..5][1] && b[2] == b[..5][2] && b[3] == b[..5][3] && b[4] == b[..5][4];
    FoundStep(b, 0, MSG_TYPE);
    ZerosHoldNothing(b, 2 + MSG_TYPE, MSG_TYPE);
    var unpadded := b[1..] + [0];
    assert unpadded[0] == MSG_TYPE && unpadded[2] == DISCOVER;
    FoundStep(unpadded, 0, MSG_TYPE);
  }

  /** The standard finds an option right behind padding. */
  lemma StandardFinds(b: seq<nat>, i: nat)
    requires LIMIT < |b| && i + 2 < LIMIT && b[i] == PAD && b[i + 1] !in {PAD, END}
    requires i + 3 + b[i + 2] < LIMIT && b[i + 3 + b[i + 2]] == END
    ensures StandardPlaces(b, i) == [i + 1]
  {
    assert StandardPlaces(b, i + 3 + b[i + 2]) == [];
  }

  lemma {:induction false} ZerosHoldNothing(b: seq<nat>, i: nat, cmd: nat)
    requires LIMIT < |b| && 0 < cmd && forall k :: i <= k < |b| ==> b[k] == 0
    ensures FoundFrom(b, i, cmd).None?
    decreases LIMIT - i
  {
    FoundStep(b, i, cmd);
    if i < LIMIT {
      ZerosHoldNothing(b, i + 2, cmd);
    }
  }

  // ---- writing ----

  function BigEndian(v: nat): seq<nat> {
    [v / 0x100_0000 % 256, v / 0x1_0000 % 256, v / 0x100 % 256, v % 256]
  }

  function Value(b: seq<nat>): nat
    requires |b| == 4
  {
    b[0] * 0x100_0000 + b[1] * 0x1_0000 + b[2] * 0x100 + b[3]
  }

  lemma LeaseTimeKept()
    ensures Value(BigEndian(LEASE_MS / 1000)) * 1000 == LEASE_MS
  {
    assert BigEndian(86400) == [0, 1, 81, 128];
  }

  /** The options of a reply of the given type from the server with address `ip` and netmask `nm`. */
  function ReplyOptions(kind: nat, ip: seq<nat>, nm: seq<nat>): seq<Opt> {
    [Opt(MSG_TYPE, [kind])] + ServerOptions(ip, nm) + [Opt(LEASE_TIME, BigEndian(LEASE_MS / 1000))]
  }

  function ServerOptions(ip: seq<nat>, nm: seq<nat>): seq<Opt> {
    [Opt(SERVER_ID, ip), Opt(SUBNET_MASK, nm), Opt(ROUTER, ip), Opt(DNS, ip)]
  }

  /** Writes one option behind those already `written` and moves the position behind it. */
  method WriteOption(buffer: array<nat>, at: nat, o: Opt, ghost written: seq<Opt>) returns (next: nat)
    requires at + 2 + |o.data| <= buffer.Length && buffer[..at] == Body(written)
    modifies buffer
    ensures next == at + 2 + |o.data| && buffer[..next] == Body(written + [o])
    ensures forall i :: next <= i < buffer.Length ==> buffer[i] == old(buffer[i])
  {
    buffer[at], buffer[at + 1] := o.code, |o.data|;
    forall i | 0 <= i < |o.data| {
      buffer[at + 2 + i] := o.data[i];
    }
    next := at + 2 + |o.data|;
    BodyAppend(written, o);
    assert buffer[..next] == buffer[..at] + One(o);
  }

  /** Writes the options that every reply has behind its type. */
  method WriteServer(buffer: array<nat>, start: nat, ip: seq<nat>, nm: seq<nat>, ghost written: seq<Opt>)
    returns (at: nat)
    requires start + 24 <= buffer.Length && |ip| == |nm| == 4 && buffer[..start] == Body(written)
    modifies buffer
    ensures at == start + 24 && buffer[..at] == Body(written + ServerOptions(ip, nm))
    ensures forall i :: at <= i < buffer.Length ==> buffer[i] == old(buffer[i])
  {
    ghost var w := written;
    at := WriteOption(buffer, start, Opt(SERVER_ID, ip), w);
    w := w + [Opt(SERVER_ID, ip)];
    at := WriteOption(buffer, at, Opt(SUBNET_MASK, nm), w);
    w := w + [Opt(SUBNET_MASK, nm)];
    at := WriteOption(buffer, at, Opt(ROUTER, ip), w);
    w := w + [Opt(ROUTER, ip)];
    at := WriteOption(buffer, at, Opt(DNS, ip), w);
    assert w + [Opt(DNS, ip)] == written + ServerOptions(ip, nm);
  }

  /** Writes the options of a reply over the received ones. What was received stays behind the end code. */
  method WriteReply(buffer: array<nat>, kind: nat, ip: seq<nat>, nm: seq<nat>)
    requires LIMIT <= buffer.Length && |ip| == |nm| == 4
    modifies buffer
    ensures Lists(buffer[..LIMIT], ReplyOptions(kind, ip, nm))
    ensures forall i :: 34 <= i < buffer.Length ==> buffer[i] == old(buffer[i])
  {
    var at := WriteOption(buffer, 0, Opt(MSG_TYPE, [kind]), []);
    at := WriteServer(buffer, at, ip, nm, [] + [Opt(MSG_TYPE, [kind])]);
    ghost var written := [] + [Opt(MSG_TYPE, [kind])] + ServerOptions(ip, nm);
    at := WriteOption(buffer, at, Opt(LEASE_TIME, BigEndian(LEASE_MS / 1000)), written);
    assert written + [Opt(LEASE_TIME, BigEndian(LEASE_MS / 1000))] == ReplyOptions(kind, ip, nm);
    buffer[at] := END;
    assert buffer[..at + 1] == Body(ReplyOptions(kind, ip, nm)) + [END];
  }

  /** A client searching the reply finds its type, the server and the 24 hours the lease is kept for. */
  lemma ReplyReadsBack(kind: nat, ip: seq<nat>, nm: seq<nat>)
    requires |ip| == |nm| == 4
    ensures var opts := ReplyOptions(kind, ip, nm);
            && First(opts, MSG_TYPE) == Some(Opt(MSG_TYPE, [kind]))
            && First(opts, SERVER_ID) == Some(Opt(SERVER_ID, ip))
            && First(opts, SUBNET_MASK) == Some(Opt(SUBNET_MASK, nm))
            && First(opts, ROUTER) == Some(Opt(ROUTER, ip)) && First(opts, DNS) == Some(Opt(DNS, ip))
            && First(opts, LEASE_TIME).Some? && |First(opts, LEASE_TIME).value.data| == 4
            && Value(First(opts, LEASE_TIME).value.data) * 1000 == LEASE_MS
  {
    var opts := ReplyOptions(kind, ip, nm);
    Distinguished(opts);
    assert opts[0].code == MSG_TYPE && opts[1].code == SERVER_ID && opts[2].code == SUBNET_MASK;
    assert opts[3].code == ROUTER && opts[4].code == DNS && opts[5].code == LEASE_TIME;
    LeaseTimeKept();
  }

  lemma Distinguished(opts: seq<Opt>)
    requires forall j, k :: 0 <= j < k < |opts| ==> opts[j].code != opts[k].code
    ensures forall k :: 0 <= k < |opts| ==> First(opts, opts[k].code) == Some(opts[k])
  {
    forall k | 0 <= k < |opts| ensures First(opts, opts[k].code) == Some(opts[k]) {
      FirstAt(opts, k);
    }
  }

  lemma {:induction false} FirstAt(opts: seq<Opt>, k: nat)
    requires k < |opts| && forall j :: 0 <= j < k ==> opts[j].code != opts[k].code
    ensures First(opts, opts[k].code) == Some(opts[k])
  {
    if k > 0 {
      FirstAt(opts[1..], k - 1);
    }
  }

  // ---- a message as a whole ----

  /** Its type, or 0. */
  function Kind(b: seq<nat>): nat
    requires Bytes(b)
  {
    var o := Place(b, MSG_TYPE);
    if o.Some? then b[o.value + 2] else 0
  }

  function Requested(b: seq<nat>): (ip: Option<seq<nat>>)
    requires Bytes(b)
    ensures ip.Some? ==> |ip.value| == 4 && ip.value[3] < 256
  {
    var o := Place(b, REQUESTED_IP);
    if o.Some? then Some(b[o.value + 2..o.value + 6]) else None
  }

  /** A list whose message type has a byte and whose requested address has four. */
  ghost predicate WellFormed(opts: seq<Opt>) {
    forall k :: 0 <= k < |opts| ==>
      && (opts[k].code == MSG_TYPE ==> 0 < |opts[k].data|)
      && (opts[k].code == REQUESTED_IP ==> |opts[k].data| == 4)
  }

  /** From a well-formed list the type is read as it was put there; what lies behind it plays no part. */
  lemma KindIsRead(b: seq<nat>, opts: seq<Opt>)
    requires Bytes(b) && Lists(b[..LIMIT], opts) && WellFormed(opts)
    ensures Kind(b) == if First(opts, MSG_TYPE).Some? then First(opts, MSG_TYPE).value.data[0] else 0
  {
    var kind := Listed(b, opts, MSG_TYPE);
  }

  /** So is the requested address. */
  lemma RequestedIsRead(b: seq<nat>, opts: seq<Opt>)
    requires Bytes(b) && Lists(b[..LIMIT], opts) && WellFormed(opts)
    ensures Requested(b)
         == if First(opts, REQUESTED_IP).Some? then Some(First(opts, REQUESTED_IP).value.data) else None
  {
    var ip := Listed(b, opts, REQUESTED_IP);
  }

  /** The data of the first option with the code lies behind the place that is found. */
  lemma Listed(b: seq<nat>, opts: seq<Opt>, cmd: nat) returns (o: Option<Opt>)
    requires Bytes(b) && Lists(b[..LIMIT], opts)
    ensures o == First(opts, cmd) && (Place(b, cmd).Some? <==> o.Some?)
    ensures o.Some? ==> var from := Place(b, cmd).value + 2;
                        from + |o.value.data| <= |b| && b[from..from + |o.value.data|] == o.value.data
  {
    o := First(opts, cmd);
    assert b[0..LIMIT] == b[..LIMIT];
    FirstListed(b, 0, opts, cmd);
    if o.Some? {
      ShownData(b, Place(b, cmd).value, o.value);
    }
  }

  lemma ShownData(b: seq<nat>, place: nat, o: Opt)
    requires Shows(b, place, o)
    ensures b[place + 2..place + 2 + |o.data|] == o.data
  {
    assert b[place + 2..place + 2 + |o.data|] == b[place..][..2 + |o.data|][2..];
  }

  /** The entry a message is answered for, and the type of the answer. */
  function Answer(t: Table, net: seq<nat>, mac: Mac, b: seq<nat>, now: seq<nat>): (a: Option<(nat, nat)>)
    requires |net| == 4 && |now| == MAX_IP && Bytes(b)
  {
    if Kind(b) == DISCOVER then (if Offer(t, mac, now) < MAX_IP then Some((Offer(t, mac, now), OFFER)) else None)
    else if Kind(b) == REQUEST then
      var k := Acknowledged(t, mac, net, Requested(b));
      if k.Some? then Some((k.value, ACK)) else None
    else None
  }

  /** An OFFER answers a DISCOVER if and only if some entry is the client's, free or expired; an ACK answers a REQUEST
      for just the addresses that may be the client's; nothing else is answered. */
  lemma AnswerExact(t: Table, net: seq<nat>, mac: Mac, b: seq<nat>, now: seq<nat>, k: nat)
    requires |net| == 4 && |now| == MAX_IP && Bytes(b)
    ensures var a := Answer(t, net, mac, b, now);
            && (a == Some((k, ACK)) <==> Kind(b) == REQUEST && k < MAX_IP && (t[k].mac == mac || t[k].mac == FREE)
                                         && Requested(b) == Some(net[..3] + [BASE_IP + k]))
            && (a == Some((k, OFFER)) ==> Kind(b) == DISCOVER && (Owns(t, mac, k) || Free(t, now, k)))
            && (a.Some? ==> a.value.0 < MAX_IP && a.value.1 in {OFFER, ACK})
            && (Kind(b) == DISCOVER ==> (a.None? <==> forall i: nat :: !Owns(t, mac, i) && !Free(t, now, i)))
  {
    OfferExact(t, mac, now);
    AcknowledgedExact(t, mac, net, Requested(b), k);
  }

  function AfterMessage(t: Table, net: seq<nat>, mac: Mac, b: seq<nat>, now: seq<nat>): Table
    requires |net| == 4 && |now| == MAX_IP && Bytes(b)
  {
    if Kind(b) == DISCOVER then AfterDiscover(t, mac, now)
    else if Kind(b) == REQUEST && Acknowledged(t, mac, net, Requested(b)).Some? then
      AfterAck(t, Acknowledged(t, mac, net, Requested(b)).value, mac, now[0])
    else t
  }

  method ReadKind(options: array<nat>) returns (kind: nat)
    requires Bytes(options[..])
    ensures kind == Kind(options[..])
  {
    var o := Find(options[..], MSG_TYPE);
    kind := if o < 0 then 0 else options[o + 2];
  }

  /** The four bytes of the requested address, if the option is there. */
  method ReadRequested(options: array<nat>) returns (ip: Option<seq<nat>>)
    requires Bytes(options[..])
    ensures ip == Requested(options[..])
  {
    var o := Find(options[..], REQUESTED_IP);
    if o < 0 {
      return None;
    }
    assert options[..][o + 2..o + 6] == options[o + 2..o + 6];
    return Some(options[o + 2..o + 6]);
  }

  /** One received message, whatever its options hold: an OFFER or an ACK is written over them, or it is ignored and
      stays as it is. */
  method Process(server: Server, nm: seq<nat>, mac: Mac, options: array<nat>, now: seq<nat>)
    returns (answer: Option<nat>)
    requires server.Valid() && |nm| == 4 && |now| == MAX_IP && Bytes(options[..])
    modifies server.lease, options
    ensures var t: Table := old(server.lease[..]);
            var a := Answer(t, server.ip, mac, old(options[..]), now);
            && server.lease[..] == AfterMessage(t, server.ip, mac, old(options[..]), now)
            && answer == (if a.Some? then Some(a.value.0) else None)
            && (if a.Some? then Lists(options[..LIMIT], ReplyOptions(a.value.1, server.ip, nm))
                else options[..] == old(options[..]))
  {
    var kind := ReadKind(options);
    if kind == DISCOVER {
      var yi := server.Discover(mac, now);
      if yi == MAX_IP {
        return None;
      }
      WriteReply(options, OFFER, server.ip, nm);
      return Some(yi);
    } else if kind == REQUEST {
      var requested := ReadRequested(options);
      answer := server.Request(mac, requested, now[0]);
      if answer.Some? {
        WriteReply(options, ACK, server.ip, nm);
      }
    } else {
      return None;
    }
  }
}
