/**
  One end of the reliable UDP link: the state the transport keeps for a peer,
  with send, update (expiry and retransmission) and packet processing.

  `Endpoint` and the functions on it say what each operation does; the class
  `UdpTransport` performs the operations in place, with the source's loops, and
  is proved to do exactly that.  Times are nanoseconds of the steady clock.
 */
module UdpEndpoint {
  import opened Collections
  import opened MachineWords
  import opened ReceiveWindow

  type Payload = seq<U8>

  datatype Header = Header(sn: U16, ack: U16, ackBits: U32)
  datatype Packet = Packet(header: Header, payload: Payload)

  datatype Pending = Pending(sn: U16, payload: Payload, firstSent: int, lastSent: int, nextSend: int, retries: nat)

  datatype Counters = Counters(retries: nat, timeouts: nat, duplicates: nat, stale: nat, window: nat)

  datatype Endpoint = Endpoint(nextSendSeq: U16, received: ReceiveState, pending: map<U16, Pending>, counters: Counters)

  const MAX_WINDOW := 32
  const MAX_RETRIES := 5
  const MS := 1_000_000
  const BASE_RETRANSMIT := 50.0
  const TTL := 500 * MS

  const FRESH := Endpoint(1, EMPTY, map[], Counters(0, 0, 0, 0, 0))

  // ------------------------------------------------------------------ functions

  /** The retransmission interval in milliseconds before truncation: half as long again each time. */
  function Interval(retries: nat): (r: real)
    ensures r >= BASE_RETRANSMIT
  {
    if retries == 0 then BASE_RETRANSMIT else Interval(retries - 1) * 1.5
  }

  function Backoff(retries: nat): int { Interval(retries).Floor * MS }

  function Compose(received: ReceiveState, sn: U16, payload: Payload): Packet {
    if received.hasLastSeq
    then Packet(Header(sn, received.lastSeq, received.ackBits), payload)
    else Packet(Header(sn, 0, 0), payload)
  }

  function Send(e: Endpoint, data: Payload, reliable: bool, now: int): (Endpoint, Option<Packet>) {
    var e1 := e.(nextSendSeq := (e.nextSendSeq + 1) % TWO_16);
    if reliable && |e.pending| >= MAX_WINDOW then
      (e1.(counters := e.counters.(window := e.counters.window + 1)), None)
    else if reliable then
      var p := Pending(e.nextSendSeq, data, now, now, now + Backoff(0), 0);
      (e1.(pending := e.pending[e.nextSendSeq := p]), Some(Compose(e.received, e.nextSendSeq, data)))
    else
      (e1, Some(Compose(e.received, e.nextSendSeq, data)))
  }

  predicate Expired(p: Pending, now: int) {
    now - p.firstSent >= TTL || p.retries >= MAX_RETRIES
  }

  predicate Due(p: Pending, now: int) { p.nextSend <= now }

  function Refresh(p: Pending, now: int): Pending {
    if Due(p, now)
    then p.(lastSent := now, retries := p.retries + 1, nextSend := now + Backoff(p.retries + 1))
    else p
  }

  function ExpiredKeys(pending: map<U16, Pending>, now: int): set<U16> {
    set s | s in pending && Expired(pending[s], now)
  }

  /** The packets an update sends again: unexpired and due. */
  function ResentKeys(pending: map<U16, Pending>, now: int): set<U16> {
    set s | s in pending && !Expired(pending[s], now) && Due(pending[s], now)
  }

  function Survivors(pending: map<U16, Pending>, now: int): map<U16, Pending> {
    map s | s in pending && !Expired(pending[s], now) :: Refresh(pending[s], now)
  }

  function Update(e: Endpoint, now: int): Endpoint {
    e.(pending := Survivors(e.pending, now),
       counters := e.counters.(timeouts := e.counters.timeouts + |ExpiredKeys(e.pending, now)|,
                               retries := e.counters.retries + |ResentKeys(e.pending, now)|))
  }

  function DueKeys(pending: map<U16, Pending>, now: int): set<U16> {
    set s | s in pending && Due(pending[s], now)
  }

  function Live(pending: map<U16, Pending>, now: int): map<U16, Pending> {
    map s | s in pending && !Expired(pending[s], now) :: pending[s]
  }

  ghost predicate Ascending(keys: seq<U16>) {
    forall i, j :: 0 <= i < j < |keys| ==> keys[i] < keys[j]
  }

  /** The buffers hold the packets for these pending keys, with the current acknowledgement fields. */
  ghost predicate ComposedFrom(received: ReceiveState, pending: map<U16, Pending>, keys: seq<U16>,
                               buffers: seq<Packet>) {
    && |buffers| == |keys|
    && forall i :: 0 <= i < |keys| ==>
            keys[i] in pending && buffers[i] == Compose(received, keys[i], pending[keys[i]].payload)
  }

  /** `keys` lists the set `s` in ascending order. */
  ghost predicate Lists(keys: seq<U16>, s: set<U16>) {
    Ascending(keys) && |keys| == |s| && forall k :: k in keys <==> k in s
  }

  /** Traversal in key order: the keys in `rest` are still to be visited. */
  function PartlyRefreshed(live: map<U16, Pending>, rest: set<U16>, now: int): map<U16, Pending> {
    map s | s in live :: if s in rest then live[s] else Refresh(live[s], now)
  }

  lemma RefreshOne(live: map<U16, Pending>, rest: set<U16>, k: U16, now: int)
    requires k in rest && k in live
    ensures PartlyRefreshed(live, rest - {k}, now) == PartlyRefreshed(live, rest, now)[k := Refresh(live[k], now)]
    ensures PartlyRefreshed(live, rest, now)[k] == live[k]
    ensures !Due(live[k], now) ==> PartlyRefreshed(live, rest - {k}, now) == PartlyRefreshed(live, rest, now)
  {
  }

  ghost predicate Below(keys: seq<U16>, rest: set<U16>) {
    forall j, s :: j in keys && s in rest ==> j < s
  }

  lemma ListsOne(keys: seq<U16>, all: set<U16>, rest: set<U16>, k: U16)
    requires Lists(keys, all - rest) && Below(keys, rest)
    requires k in rest && forall s :: s in rest ==> k <= s
    ensures k in all ==> Lists(keys + [k], all - (rest - {k})) && Below(keys + [k], rest - {k})
    ensures k !in all ==> Lists(keys, all - (rest - {k})) && Below(keys, rest - {k})
  {
    if k in all {
      assert all - (rest - {k}) == (all - rest) + {k};
      forall i | 0 <= i < |keys| ensures keys[i] < k { assert keys[i] in keys; }
    } else {
      assert all - (rest - {k}) == all - rest;
    }
  }

  lemma ComposedOne(received: ReceiveState, pending: map<U16, Pending>, keys: seq<U16>, buffers: seq<Packet>, k: U16)
    requires ComposedFrom(received, pending, keys, buffers) && k in pending
    ensures ComposedFrom(received, pending, keys + [k], buffers + [Compose(received, k, pending[k].payload)])
  {
  }

  /**
    An update's traversal with the keys in `rest` still to come: `pending` is the map so
    far, `keys` and `buffers` what has been sent again.
   */
  ghost predicate Sweep(received: ReceiveState, live: map<U16, Pending>, now: int, rest: set<U16>,
                        pending: map<U16, Pending>, keys: seq<U16>, buffers: seq<Packet>)
  {
    && rest <= live.Keys && pending == PartlyRefreshed(live, rest, now)
    && Lists(keys, DueKeys(live, now) - rest) && Below(keys, rest)
    && ComposedFrom(received, live, keys, buffers)
  }

  lemma SweepStep(received: ReceiveState, live: map<U16, Pending>, now: int, rest: set<U16>,
                  pending: map<U16, Pending>, keys: seq<U16>, buffers: seq<Packet>, k: U16)
    requires Sweep(received, live, now, rest, pending, keys, buffers)
    requires k in rest && forall s :: s in rest ==> k <= s
    ensures pending[k] == live[k]
    ensures if Due(live[k], now)
            then Sweep(received, live, now, rest - {k}, pending[k := Refresh(live[k], now)],
                       keys + [k], buffers + [Compose(received, k, live[k].payload)])
            else Sweep(received, live, now, rest - {k}, pending[k := Refresh(live[k], now)], keys, buffers)
  {
    RefreshOne(live, rest, k, now);
    ListsOne(keys, DueKeys(live, now), rest, k);
    ComposedOne(received, live, keys, buffers, k);
  }

  lemma SweepStart(received: ReceiveState, live: map<U16, Pending>, now: int)
    ensures Sweep(received, live, now, live.Keys, live, [], [])
  {
    assert DueKeys(live, now) - live.Keys == {};
  }

  lemma SweepEnd(received: ReceiveState, live: map<U16, Pending>, now: int,
                 pending: map<U16, Pending>, keys: seq<U16>, buffers: seq<Packet>)
    requires Sweep(received, live, now, {}, pending, keys, buffers)
    ensures pending == PartlyRefreshed(live, {}, now) && Lists(keys, DueKeys(live, now))
    ensures |keys| == |DueKeys(live, now)|
  {
    assert DueKeys(live, now) - {} == DueKeys(live, now);
  }

  function Unacked(pending: map<U16, Pending>, ack: U16, ackBits: U32): map<U16, Pending> {
    map s | s in pending && !IsSeqAcked(s, ack, ackBits) :: pending[s]
  }

  function Count(c: Counters, v: Verdict): Counters {
    match v
    case Deliver => c
    case Duplicate => c.(duplicates := c.duplicates + 1)
    case Old => c.(stale := c.stale + 1)
  }

  function Process(e: Endpoint, header: Header): Endpoint {
    Endpoint(e.nextSendSeq, Arrive(e.received, header.sn),
             Unacked(e.pending, header.ack, header.ackBits),
             Count(e.counters, Classify(e.received, header.sn)))
  }

  // ------------------------------------------------------ the transport in place

  lemma {:induction false} LeastExists(s: set<U16>) returns (k: U16)
    requires s != {}
    ensures k in s && forall j :: j in s ==> k <= j
  {
    k :| k in s;
    assert s == {k} + (s - {k});
    if s - {k} != {} {
      var j := LeastExists(s - {k});
      if j < k { k := j; }
    }
  }

  /** The next key of an ordered map's traversal. */
  method Least(s: set<U16>) returns (k: U16)
    requires s != {}
    ensures k in s && forall j :: j in s ==> k <= j
  {
    ghost var w := LeastExists(s);
    k :| k in s && forall j :: j in s ==> k <= j;
  }

  method BackoffFor(retries: nat) returns (t: int)
    ensures t == Backoff(retries)
  {
    var interval := BASE_RETRANSMIT;
    for i := 0 to retries
      invariant interval == Interval(i)
    {
      interval := interval * 1.5;
    }
    t := interval.Floor * MS;
  }

  class UdpTransport {
    var nextSendSeq: U16
    var received: ReceiveState
    var pending: map<U16, Pending>
    var counters: Counters

    /** Every packet is filed under its own sequence number. */
    ghost predicate Valid()
      reads this
    {
      forall s :: s in pending ==> pending[s].sn == s
    }

    ghost function View(): Endpoint
      reads this
    {
      Endpoint(nextSendSeq, received, pending, counters)
    }

    constructor ()
      ensures Valid() && View() == FRESH
    {
      nextSendSeq, received, pending, counters := 1, EMPTY, map[], Counters(0, 0, 0, 0, 0);
    }

    method ComposePacket(sn: U16, payload: Payload) returns (packet: Packet)
      ensures packet == Compose(received, sn, payload)
    {
      if received.hasLastSeq {
        packet := Packet(Header(sn, received.lastSeq, received.ackBits), payload);
      } else {
        packet := Packet(Header(sn, 0, 0), payload);
      }
    }

    method SendPacket(data: Payload, reliable: bool, now: int) returns (buffer: Option<Packet>)
      requires Valid()
      modifies this
      ensures Valid() && (View(), buffer) == Send(old(View()), data, reliable, now)
    {
      var sn := nextSendSeq;
      nextSendSeq := (nextSendSeq + 1) % TWO_16;
      if reliable && |pending| >= MAX_WINDOW {
        counters := counters.(window := counters.window + 1);
        buffer := None;
      } else {
        var packet := ComposePacket(sn, data);
        if reliable {
          var backoff := BackoffFor(0);
          pending := pending[sn := Pending(sn, data, now, now, now + backoff, 0)];
        }
        buffer := Some(packet);
      }
    }

    method ExpirePending(now: int) returns (expired: set<U16>)
      modifies `counters
      ensures expired == ExpiredKeys(pending, now)
      ensures counters == old(counters).(timeouts := old(counters).timeouts + |expired|)
    {
      expired := {};
      var rest := pending.Keys;
      while rest != {}
        invariant rest <= pending.Keys && expired !! rest
        invariant expired == set s | s in pending && s !in rest && Expired(pending[s], now)
        invariant counters == old(counters).(timeouts := old(counters).timeouts + |expired|)
        decreases |rest|
      {
        var k := Least(rest);
        if Expired(pending[k], now) {
          expired := expired + {k};
          counters := counters.(timeouts := counters.timeouts + 1);
        }
        rest := rest - {k};
      }
    }

    /** Drops what has expired, then sends again what is due, in ascending order of sequence number. */
    method UpdatePending(now: int) returns (buffers: seq<Packet>, ghost keys: seq<U16>)
      requires Valid()
      modifies this
      ensures Valid() && View() == Update(old(View()), now)
      ensures Lists(keys, ResentKeys(old(pending), now)) && ComposedFrom(received, old(pending), keys, buffers)
      ensures forall s :: s in keys <==>
                && s in old(pending) && old(pending)[s].retries < 5
                && old(pending)[s].nextSend <= now < old(pending)[s].firstSent + 500_000_000
    {
      var expired := ExpirePending(now);
      pending := pending - expired;
      ghost var live := Live(old(pending), now);
      assert pending == live;
      buffers, keys := ResendDue(now);
      assert ResentKeys(old(pending), now) == DueKeys(live, now);
      assert pending == Survivors(old(pending), now);
    }

    method ResendOne(k: U16, now: int) returns (packet: Option<Packet>)
      requires k in pending && pending[k].sn == k
      modifies `pending, `counters
      ensures pending == old(pending)[k := Refresh(old(pending)[k], now)]
      ensures packet == if Due(old(pending)[k], now) then Some(Compose(received, k, old(pending)[k].payload)) else None
      ensures counters == if packet.Some? then old(counters).(retries := old(counters).retries + 1) else old(counters)
    {
      var p := pending[k];
      packet := None;
      if Due(p, now) {
        var resend := ComposePacket(p.sn, p.payload);
        var backoff := BackoffFor(p.retries + 1);
        pending := pending[k := p.(lastSent := now, retries := p.retries + 1, nextSend := now + backoff)];
        counters := counters.(retries := counters.retries + 1);
        packet := Some(resend);
      }
    }

    method ResendDue(now: int) returns (buffers: seq<Packet>, ghost keys: seq<U16>)
      requires Valid()
      modifies `pending, `counters
      ensures pending == PartlyRefreshed(old(pending), {}, now)
      ensures counters == old(counters).(retries := old(counters).retries + |DueKeys(old(pending), now)|)
      ensures Lists(keys, DueKeys(old(pending), now)) && ComposedFrom(received, old(pending), keys, buffers)
    {
      buffers, keys := [], [];
      ghost var live := pending;
      var rest := pending.Keys;
      SweepStart(received, live, now);
      while rest != {}
        invariant Sweep(received, live, now, rest, pending, keys, buffers)
        invariant counters == old(counters).(retries := old(counters).retries + |keys|)
        decreases |rest|
      {
        var k := Least(rest);
        SweepStep(received, live, now, rest, pending, keys, buffers, k);
        var packet := ResendOne(k, now);
        if packet.Some? {
          buffers, keys := buffers + [packet.value], keys + [k];
        }
        rest := rest - {k};
      }
      SweepEnd(received, live, now, pending, keys, buffers);
    }

    method HandleAck(ack: U16, ackBits: U32)
      modifies `pending
      ensures pending == Unacked(old(pending), ack, ackBits)
    {
      var rest := pending.Keys;
      while rest != {}
        invariant rest <= pending.Keys
        invariant pending == map s | s in old(pending) && (s in rest || !IsSeqAcked(s, ack, ackBits)) :: old(pending)[s]
        decreases |rest|
      {
        var k := Least(rest);
        rest := rest - {k};
        if IsSeqAcked(k, ack, ackBits) {
          pending := pending - {k};
        }
      }
    }

    /** Returns whether the payload goes to the handler. */
    method ProcessPacket(header: Header) returns (deliver: bool)
      requires Valid()
      modifies this
      ensures Valid() && View() == Process(old(View()), header)
      ensures deliver == Classify(old(received), header.sn).Deliver?
    {
      var dropPacket := false;
      HandleAck(header.ack, header.ackBits);
      if received.hasLastSeq && !IsSeqNewer(header.sn, received.lastSeq) {
        var diff := Sub16(received.lastSeq, header.sn);
        if diff == 0 || HasReceived(received, header.sn) {
          dropPacket := true;
          counters := counters.(duplicates := counters.duplicates + 1);
        } else if diff > 32 {
          dropPacket := true;
          counters := counters.(stale := counters.stale + 1);
        }
      }
      if !dropPacket {
        received := UpdateReceiveState(received, header.sn);
      }
      deliver := !dropPacket;
    }
  }
}
