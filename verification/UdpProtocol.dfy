/**
  Two endpoints of the UDP transport joined by a network that may lose, duplicate
  and reorder.  A run is any sequence of steps; each theorem is about every run.

  Every send is numbered 1, 2, 3, ... without wrap-around in the history; the wire
  carries the number modulo 2^16.  `toA` and `toB` hold every packet ever sent, so a
  packet may be delivered any number of times, at any time, or never.
 */
module UdpProtocol {
  import opened Collections
  import opened MachineWords
  import opened ReceiveWindow
  import opened UdpEndpoint

  /**
    An endpoint with its history: all data handed to `send` (`sent[n - 1]` has number `n`),
    the number of each pending packet, the numbers and payloads that reached the handler,
    and how many reliable sends, overwritten packets and acknowledgements there were.
   */
  datatype Node = Node(ep: Endpoint, sent: seq<Payload>, numbers: map<U16, int>,
                       heard: History, handed: seq<Payload>,
                       reliableSends: nat, overwritten: nat, acked: nat)

  datatype Flight = Flight(packet: Packet, num: int)

  datatype Net = Net(a: Node, b: Node, toA: set<Flight>, toB: set<Flight>)

  datatype Action =
    | SendData(data: Payload, reliable: bool, now: int)
    | UpdateAt(now: int)
    | DeliverPacket(flight: Flight)

  /** `atA` says which endpoint acts; for a delivery, which one receives. */
  datatype Step = Step(atA: bool, action: Action)

  const START := Node(FRESH, [], map[], NOTHING, [], 0, 0, 0)

  // ----------------------------------------------------------------------- steps

  function DoSend(n: Node, data: Payload, reliable: bool, now: int): (Node, set<Flight>) {
    var num, sn := |n.sent| + 1, n.ep.nextSendSeq;
    var (ep', out) := Send(n.ep, data, reliable, now);
    var n' := n.(ep := ep', sent := n.sent + [data],
                 reliableSends := n.reliableSends + (if reliable then 1 else 0),
                 overwritten := n.overwritten + (if reliable && out.Some? && sn in n.ep.pending then 1 else 0),
                 numbers := if reliable && out.Some? then n.numbers[sn := num] else n.numbers);
    (n', if out.Some? then {Flight(out.value, num)} else {})
  }

  function DoUpdate(n: Node, now: int): (Node, set<Flight>) {
    (n.(ep := Update(n.ep, now)),
     set s | s in ResentKeys(n.ep.pending, now) && s in n.numbers ::
       Flight(Compose(n.ep.received, s, n.ep.pending[s].payload), n.numbers[s]))
  }

  function AckedKeys(pending: map<U16, Pending>, h: Header): set<U16> {
    set s | s in pending && IsSeqAcked(s, h.ack, h.ackBits)
  }

  function DoDeliver(n: Node, f: Flight): Node {
    var h := f.packet.header;
    var n1 := n.(ep := Process(n.ep, h), acked := n.acked + |AckedKeys(n.ep.pending, h)|);
    if Classify(n.ep.received, h.sn).Deliver?
    then n1.(heard := Note(n.heard, f.num), handed := n.handed + [f.packet.payload])
    else n1
  }

  function ActAtA(net: Net, action: Action): Net {
    match action
    case SendData(data, reliable, now) =>
      var (a', out) := DoSend(net.a, data, reliable, now);
      net.(a := a', toB := net.toB + out)
    case UpdateAt(now) =>
      var (a', out) := DoUpdate(net.a, now);
      net.(a := a', toB := net.toB + out)
    case DeliverPacket(f) =>
      if f in net.toA then net.(a := DoDeliver(net.a, f)) else net
  }

  function Swap(net: Net): Net { Net(net.b, net.a, net.toB, net.toA) }

  function Take1(net: Net, s: Step): Net {
    if s.atA then ActAtA(net, s.action) else Swap(ActAtA(Swap(net), s.action))
  }

  function Run(steps: seq<Step>): Net {
    if steps == [] then Net(START, START, {}, {})
    else Take1(Run(steps[..|steps| - 1]), steps[|steps| - 1])
  }

  // ------------------------------------------------------------------ invariants

  /** Milliseconds between the first transmission and the earliest one with this many retries. */
  function ElapsedMs(retries: nat): int {
    if retries == 0 then 0 else ElapsedMs(retries - 1) + Interval(retries - 1).Floor
  }

  ghost predicate PendingOk(p: Pending, s: U16, num: int, sent: seq<Payload>) {
    && p.sn == s == Wire(num)
    && 1 <= num <= |sent| && sent[num - 1] == p.payload
    && p.retries <= 4
    && p.nextSend >= p.firstSent + ElapsedMs(p.retries + 1) * MS
  }

  ghost predicate AllPendingOk(pending: map<U16, Pending>, numbers: map<U16, int>, sent: seq<Payload>) {
    forall s :: s in pending ==> s in numbers && PendingOk(pending[s], s, numbers[s], sent)
  }

  ghost predicate Conserved(n: Node) {
    n.reliableSends == n.ep.counters.window + n.acked + n.ep.counters.timeouts + |n.ep.pending| + n.overwritten
  }

  ghost predicate NodeOk(n: Node) {
    && n.ep.nextSendSeq == Wire(|n.sent| + 1)
    && AllPendingOk(n.ep.pending, n.numbers, n.sent)
    && |n.ep.pending| <= MAX_WINDOW
    && Conserved(n)
    && (|n.sent| <= TWO_16 ==> n.overwritten == 0)
    && ClaimsOnlyHeard(n.ep.received, n.heard.log)
  }

  /** What a header acknowledges: either nothing at all, or only numbers its sender has heard. */
  ghost predicate HonestHeader(h: Header, log: seq<int>) {
    (h.ack == 0 && h.ackBits == 0) || ClaimsOnlyHeard(ReceiveState(true, h.ack, h.ackBits), log)
  }

  ghost predicate FlightOk(f: Flight, from: Node) {
    && 1 <= f.num <= |from.sent|
    && f.packet.header.sn == Wire(f.num)
    && f.packet.payload == from.sent[f.num - 1]
    && HonestHeader(f.packet.header, from.heard.log)
  }

  /** Whatever reached the handler is what the other end sent under that number. */
  ghost predicate HandedOk(to: Node, from: Node) {
    && |to.handed| == |to.heard.log|
    && forall i :: 0 <= i < |to.handed| ==>
         1 <= to.heard.log[i] <= |from.sent| && to.handed[i] == from.sent[to.heard.log[i] - 1]
  }

  ghost predicate LinkOk(from: Node, to: Node, flights: set<Flight>) {
    (forall f :: f in flights ==> FlightOk(f, from)) && HandedOk(to, from)
  }

  ghost predicate Inv(net: Net) {
    NodeOk(net.a) && NodeOk(net.b) && LinkOk(net.a, net.b, net.toB) && LinkOk(net.b, net.a, net.toA)
  }

  ghost predicate Grows(n: Node, n': Node) {
    n.sent <= n'.sent && n.heard.log <= n'.heard.log
  }

  // ------------------------------------------------------------- timing of retries

  lemma IntervalValues()
    ensures Interval(0) == 50.0 && Interval(1) == 75.0 && Interval(2) == 112.5
    ensures Interval(3) == 168.75 && Interval(4) == 253.125
  {
  }

  lemma ElapsedValues()
    ensures ElapsedMs(0) == 0 && ElapsedMs(1) == 50 && ElapsedMs(2) == 125
    ensures ElapsedMs(3) == 237 && ElapsedMs(4) == 405 && ElapsedMs(5) == 658
  {
    IntervalValues();
  }

  /** 50 + 75 + 112 + 168 + 253 ms is past the time to live, so a fifth retry never happens. */
  lemma RefreshKeepsOk(p: Pending, s: U16, num: int, sent: seq<Payload>, now: int)
    requires PendingOk(p, s, num, sent) && !Expired(p, now)
    ensures PendingOk(Refresh(p, now), s, num, sent)
  {
    ElapsedValues();
    if Due(p, now) {
      assert ElapsedMs(p.retries + 2) == ElapsedMs(p.retries + 1) + Interval(p.retries + 1).Floor;
    }
  }

  // ------------------------------------------------------------------ step lemmas

  lemma HonestGrows(h: Header, log: seq<int>, log': seq<int>)
    requires HonestHeader(h, log) && log <= log'
    ensures HonestHeader(h, log')
  {
    var st := ReceiveState(true, h.ack, h.ackBits);
    if ClaimsOnlyHeard(st, log) {
      HeardExtends(log, log', h.ack);
      forall d | Marked(h.ackBits, d) ensures Heard(log', Sub16(h.ack, d)) {
        HeardExtends(log, log', Sub16(h.ack, d));
      }
    }
  }

  lemma HeardExtends(log: seq<int>, log': seq<int>, s: U16)
    requires log <= log'
    ensures Heard(log, s) ==> Heard(log', s)
  {
    if Heard(log, s) {
      var i :| 0 <= i < |log| && Wire(log[i]) == s;
      assert log'[i] == log[i];
    }
  }

  lemma LinkGrows(from: Node, from': Node, to: Node, flights: set<Flight>)
    requires LinkOk(from, to, flights) && Grows(from, from')
    ensures LinkOk(from', to, flights)
  {
    forall f | f in flights ensures FlightOk(f, from') {
      HonestGrows(f.packet.header, from.heard.log, from'.heard.log);
    }
  }

  lemma ComposeIsHonest(received: ReceiveState, log: seq<int>, sn: U16, payload: Payload)
    requires ClaimsOnlyHeard(received, log)
    ensures HonestHeader(Compose(received, sn, payload).header, log)
  {
  }

  lemma WireNext(n: int)
    ensures Wire(n + 1) == (Wire(n) + 1) % TWO_16
  {
  }

  /** A number whose wire form is still pending is at least a full turn behind. */
  lemma ReuseNeedsFullTurn(num: int, later: int)
    requires num < later && Wire(num) == Wire(later)
    ensures later - num >= TWO_16
  {
    if later - num < TWO_16 { WireDistance(later, num); }
  }

  lemma AllPendingGrows(pending: map<U16, Pending>, numbers: map<U16, int>, sent: seq<Payload>, data: Payload)
    requires AllPendingOk(pending, numbers, sent)
    ensures AllPendingOk(pending, numbers, sent + [data])
  {
  }

  lemma NewPendingOk(p: Pending, sn: U16, num: int, sent: seq<Payload>, data: Payload, now: int)
    requires p == Pending(sn, data, now, now, now + Backoff(0), 0)
    requires num == |sent| + 1 && sn == Wire(num)
    ensures PendingOk(p, sn, num, sent + [data])
  {
    ElapsedValues();
    IntervalValues();
  }

  lemma FileSize(m: map<U16, Pending>, k: U16, p: Pending)
    ensures |m[k := p]| == |m| + if k in m then 0 else 1
  {
    assert m[k := p].Keys == m.Keys + {k};
    assert |m[k := p]| == |m[k := p].Keys| && |m| == |m.Keys|;
  }

  lemma SendUnfiled(n: Node, data: Payload, reliable: bool, now: int)
    requires NodeOk(n) && (reliable ==> |n.ep.pending| >= MAX_WINDOW)
    ensures NodeOk(DoSend(n, data, reliable, now).0)
  {
    WireNext(|n.sent| + 1);
    AllPendingGrows(n.ep.pending, n.numbers, n.sent, data);
  }

  lemma FiledPendingOk(n: Node, data: Payload, now: int)
    requires n.ep.nextSendSeq == Wire(|n.sent| + 1)
    requires AllPendingOk(n.ep.pending, n.numbers, n.sent)
    ensures var sn := n.ep.nextSendSeq;
            AllPendingOk(n.ep.pending[sn := Pending(sn, data, now, now, now + Backoff(0), 0)],
                         n.numbers[sn := |n.sent| + 1], n.sent + [data])
    ensures n.ep.nextSendSeq in n.ep.pending ==> |n.sent| >= TWO_16
  {
    var num, sn := |n.sent| + 1, n.ep.nextSendSeq;
    AllPendingGrows(n.ep.pending, n.numbers, n.sent, data);
    NewPendingOk(Pending(sn, data, now, now, now + Backoff(0), 0), sn, num, n.sent, data, now);
    if sn in n.ep.pending {
      assert PendingOk(n.ep.pending[sn], sn, n.numbers[sn], n.sent);
      ReuseNeedsFullTurn(n.numbers[sn], num);
    }
  }

  lemma SendFiled(n: Node, data: Payload, now: int)
    requires NodeOk(n) && |n.ep.pending| < MAX_WINDOW
    ensures NodeOk(DoSend(n, data, true, now).0)
  {
    var sn := n.ep.nextSendSeq;
    WireNext(|n.sent| + 1);
    FiledPendingOk(n, data, now);
    FileSize(n.ep.pending, sn, Pending(sn, data, now, now, now + Backoff(0), 0));
  }

  lemma SentOk(n: Node, data: Payload, reliable: bool, now: int)
    requires NodeOk(n)
    ensures var (n', out) := DoSend(n, data, reliable, now);
            && n.sent <= n'.sent && n'.heard == n.heard && n'.handed == n.handed
            && forall f :: f in out ==> FlightOk(f, n')
  {
    ComposeIsHonest(n.ep.received, n.heard.log, n.ep.nextSendSeq, data);
  }

  lemma SplitMap(m: map<U16, Pending>, gone: set<U16>, rest: map<U16, Pending>)
    requires gone !! rest.Keys && m.Keys == gone + rest.Keys
    ensures |m| == |gone| + |rest|
  {
    assert |m| == |m.Keys| && |rest| == |rest.Keys|;
  }

  lemma SurvivorsOk(pending: map<U16, Pending>, numbers: map<U16, int>, sent: seq<Payload>, now: int)
    requires AllPendingOk(pending, numbers, sent)
    ensures AllPendingOk(Survivors(pending, now), numbers, sent)
    ensures |pending| == |ExpiredKeys(pending, now)| + |Survivors(pending, now)|
  {
    var rest := Survivors(pending, now);
    SplitMap(pending, ExpiredKeys(pending, now), rest);
    forall s | s in rest ensures s in numbers && PendingOk(rest[s], s, numbers[s], sent) {
      RefreshKeepsOk(pending[s], s, numbers[s], sent, now);
    }
  }

  lemma ResentOk(n: Node, now: int, f: Flight)
    requires NodeOk(n) && f in DoUpdate(n, now).1
    ensures FlightOk(f, n)
  {
    var s :| s in ResentKeys(n.ep.pending, now) && s in n.numbers
             && f == Flight(Compose(n.ep.received, s, n.ep.pending[s].payload), n.numbers[s]);
    ComposeIsHonest(n.ep.received, n.heard.log, s, n.ep.pending[s].payload);
    assert PendingOk(n.ep.pending[s], s, n.numbers[s], n.sent);
  }

  lemma UpdateKeepsOk(n: Node, now: int)
    requires NodeOk(n)
    ensures NodeOk(DoUpdate(n, now).0)
  {
    SurvivorsOk(n.ep.pending, n.numbers, n.sent, now);
  }

  lemma UnackedOk(pending: map<U16, Pending>, numbers: map<U16, int>, sent: seq<Payload>, h: Header)
    requires AllPendingOk(pending, numbers, sent)
    ensures AllPendingOk(Unacked(pending, h.ack, h.ackBits), numbers, sent)
    ensures |pending| == |AckedKeys(pending, h)| + |Unacked(pending, h.ack, h.ackBits)|
  {
    SplitMap(pending, AckedKeys(pending, h), Unacked(pending, h.ack, h.ackBits));
  }

  lemma HandedGrows(n: Node, f: Flight, from: Node)
    requires FlightOk(f, from) && HandedOk(n, from)
    ensures HandedOk(DoDeliver(n, f), from) && Grows(n, DoDeliver(n, f))
  {
    if Classify(n.ep.received, f.packet.header.sn).Deliver? {
      assert Note(n.heard, f.num).log == n.heard.log + [f.num];
    }
  }

  lemma DeliverKeepsOk(n: Node, f: Flight, from: Node)
    requires NodeOk(n) && FlightOk(f, from)
    ensures NodeOk(DoDeliver(n, f))
  {
    var h := f.packet.header;
    UnackedOk(n.ep.pending, n.numbers, n.sent, h);
    if Classify(n.ep.received, h.sn).Deliver? {
      ClaimsStaySound(n.ep.received, n.heard.log, f.num);
      assert Note(n.heard, f.num).log == n.heard.log + [f.num];
    }
  }

  lemma LinkExtends(from: Node, to: Node, flights: set<Flight>, out: set<Flight>)
    requires LinkOk(from, to, flights) && forall f :: f in out ==> FlightOk(f, from)
    ensures LinkOk(from, to, flights + out)
  {
  }

  /** An endpoint that sends, and hears nothing, keeps both links in order. */
  lemma TransmitKeepsInv(net: Net, a': Node, out: set<Flight>)
    requires Inv(net) && NodeOk(a')
    requires net.a.sent <= a'.sent && a'.heard == net.a.heard && a'.handed == net.a.handed
    requires forall f :: f in out ==> FlightOk(f, a')
    ensures Inv(net.(a := a', toB := net.toB + out))
  {
    LinkGrows(net.a, a', net.b, net.toB);
    LinkExtends(a', net.b, net.toB, out);
    assert HandedOk(a', net.b);
  }

  lemma SendKeepsInv(net: Net, data: Payload, reliable: bool, now: int)
    requires Inv(net)
    ensures Inv(ActAtA(net, SendData(data, reliable, now)))
  {
    if reliable && |net.a.ep.pending| < MAX_WINDOW {
      SendFiled(net.a, data, now);
    } else {
      SendUnfiled(net.a, data, reliable, now);
    }
    SentOk(net.a, data, reliable, now);
    var (a', out) := DoSend(net.a, data, reliable, now);
    TransmitKeepsInv(net, a', out);
  }

  lemma UpdateKeepsInv(net: Net, now: int)
    requires Inv(net)
    ensures Inv(ActAtA(net, UpdateAt(now)))
  {
    UpdateKeepsOk(net.a, now);
    var (a', out) := DoUpdate(net.a, now);
    forall f | f in out ensures FlightOk(f, a') { ResentOk(net.a, now, f); }
    TransmitKeepsInv(net, a', out);
  }

  lemma DeliverKeepsInv(net: Net, f: Flight)
    requires Inv(net) && f in net.toA
    ensures Inv(ActAtA(net, DeliverPacket(f)))
  {
    DeliverKeepsOk(net.a, f, net.b);
    HandedGrows(net.a, f, net.b);
    LinkGrows(net.a, DoDeliver(net.a, f), net.b, net.toB);
  }

  lemma ActKeepsInv(net: Net, action: Action)
    requires Inv(net)
    ensures Inv(ActAtA(net, action))
  {
    match action
    case SendData(data, reliable, now) => SendKeepsInv(net, data, reliable, now);
    case UpdateAt(now) => UpdateKeepsInv(net, now);
    case DeliverPacket(f) => if f in net.toA { DeliverKeepsInv(net, f); }
  }

  // --------------------------------------------------------------------- theorems

  function Near(net: Net, atA: bool): Node { if atA then net.a else net.b }
  function Far(net: Net, atA: bool): Node { if atA then net.b else net.a }
  function Inbound(net: Net, atA: bool): set<Flight> { if atA then net.toA else net.toB }

  /** Every reachable state satisfies the invariant. */
  lemma {:induction false} Invariant(steps: seq<Step>)
    ensures Inv(Run(steps))
  {
    if steps == [] {
    } else {
      var net, s := Run(steps[..|steps| - 1]), steps[|steps| - 1];
      Invariant(steps[..|steps| - 1]);
      if s.atA { ActKeepsInv(net, s.action); } else { ActKeepsInv(Swap(net), s.action); }
    }
  }

  /** A header from an endpoint that heard nothing acknowledges sequence number 0 and no other. */
  lemma EmptyHeaderAcks(s: U16)
    ensures IsSeqAcked(s, 0, 0) <==> s == 0
  {
    IsSeqAckedBits(s, 0, 0);
    forall d | Marked(0, d) ensures false { ZeroHasNoBit(d - 1); }
  }

  lemma AckedWasHeard(h: Header, log: seq<int>, s: U16)
    requires HonestHeader(h, log) && IsSeqAcked(s, h.ack, h.ackBits)
    ensures Heard(log, s) || (s == 0 && h.ack == 0 && h.ackBits == 0)
  {
    IsSeqAckedBits(s, h.ack, h.ackBits);
    if h.ack == 0 && h.ackBits == 0 { EmptyHeaderAcks(s); }
  }

  /**
    Acknowledgement safety over every run, of any length.  A pending packet is dropped as
    acknowledged only if the other end accepted a packet with that sequence number; the one
    exception is sequence number 0 under a header from an end that has heard nothing.
   */
  lemma AckSafety(steps: seq<Step>, atA: bool, f: Flight, s: U16)
    requires var net := Run(steps);
             && f in Inbound(net, atA) && s in Near(net, atA).ep.pending
             && s !in DoDeliver(Near(net, atA), f).ep.pending
    ensures var net, h := Run(steps), f.packet.header;
            Heard(Far(net, atA).heard.log, s) || (s == 0 && h.ack == 0 && h.ackBits == 0)
  {
    Invariant(steps);
    var net := Run(steps);
    assert FlightOk(f, Far(net, atA));
    AckedWasHeard(f.packet.header, Far(net, atA).heard.log, s);
  }

  /** The far end's handler got this number with this payload. */
  ghost predicate Arrived(n: Node, num: int, payload: Payload) {
    exists i :: 0 <= i < |n.handed| && i < |n.heard.log| && n.heard.log[i] == num && n.handed[i] == payload
  }

  /** Delivering `f` drops pending packet `s` as acknowledged. */
  ghost predicate Drops(steps: seq<Step>, atA: bool, f: Flight, s: U16) {
    var net := Run(steps);
    && f in Inbound(net, atA) && s in Near(net, atA).ep.pending
    && s !in DoDeliver(Near(net, atA), f).ep.pending
  }

  /** The pending packet itself reached the far end's handler: its number and its payload. */
  ghost predicate ItselfArrived(steps: seq<Step>, atA: bool, s: U16) {
    var near, far := Near(Run(steps), atA), Far(Run(steps), atA);
    && s in near.ep.pending && s in near.numbers
    && Arrived(far, near.numbers[s], near.ep.pending[s].payload)
  }

  /**
    While fewer than 2^16 sends were made, an acknowledged packet is one whose payload the
    far end's handler received, under the very number it was sent with.
   */
  lemma AckSafetyNoWrap(steps: seq<Step>, atA: bool, f: Flight, s: U16)
    requires Drops(steps, atA, f, s) && |Near(Run(steps), atA).sent| < TWO_16
    ensures ItselfArrived(steps, atA, s) && Near(Run(steps), atA).numbers[s] == s
  {
    Invariant(steps);
    AckSafety(steps, atA, f, s);
    HeardMeansArrived(Near(Run(steps), atA), Far(Run(steps), atA), s);
  }

  lemma WireIsNumber(num: int)
    requires 1 <= num < TWO_16
    ensures Wire(num) == num
  {
  }

  lemma HeardMeansArrived(near: Node, far: Node, s: U16)
    requires AllPendingOk(near.ep.pending, near.numbers, near.sent) && s in near.ep.pending
    requires HandedOk(far, near) && |near.sent| < TWO_16
    requires Heard(far.heard.log, s) || s == 0
    ensures s in near.numbers && near.numbers[s] == s && Arrived(far, s, near.ep.pending[s].payload)
  {
    assert PendingOk(near.ep.pending[s], s, near.numbers[s], near.sent);
    WireIsNumber(near.numbers[s]);
    var i :| 0 <= i < |far.heard.log| && Wire(far.heard.log[i]) == s;
    WireIsNumber(far.heard.log[i]);
  }

  /** Every payload handed over is the one the far end sent under that number, retransmitted or not. */
  lemma DeliveryIntegrity(steps: seq<Step>, atA: bool)
    ensures HandedOk(Near(Run(steps), atA), Far(Run(steps), atA))
  {
    Invariant(steps);
  }

  /**
    No reliable send is lost track of: each was refused for lack of window, acknowledged, timed
    out, or is still pending, unless its sequence number came round again while it was pending,
    and for that more than 2^16 sends are needed.
   */
  lemma Conservation(steps: seq<Step>, atA: bool)
    ensures var n := Near(Run(steps), atA);
            && |n.ep.pending| <= MAX_WINDOW
            && n.reliableSends
               == n.ep.counters.window + n.acked + n.ep.counters.timeouts + |n.ep.pending| + n.overwritten
            && (|n.sent| <= TWO_16 ==> n.overwritten == 0)
            && forall s :: s in n.ep.pending ==> n.ep.pending[s].sn == s
  {
    Invariant(steps);
    var n := Near(Run(steps), atA);
    forall s | s in n.ep.pending ensures n.ep.pending[s].sn == s {
      assert PendingOk(n.ep.pending[s], s, n.numbers[s], n.sent);
    }
  }

  /**
    Whatever the clock does, no packet is retransmitted more than four times, so only age
    expires a packet; and an update at or past its time to live removes it.
   */
  lemma RetryBound(steps: seq<Step>, atA: bool, s: U16, now: int)
    requires s in Near(Run(steps), atA).ep.pending
    ensures var pending := Near(Run(steps), atA).ep.pending;
            && pending[s].retries <= 4
            && (Expired(pending[s], now) <==> now - pending[s].firstSent >= TTL)
            && (s in Survivors(pending, now) <==> now - pending[s].firstSent < TTL)
  {
    Invariant(steps);
    var n := Near(Run(steps), atA);
    assert PendingOk(n.ep.pending[s], s, n.numbers[s], n.sent);
  }

  // ------------------------------------------------------------ at-most-once delivery

  ghost predicate WindowOk(n: Node) {
    NewestIsMax(n.heard) && Tracks(n.ep.received, n.heard) && AtMostOnceBut32(n.heard)
  }

  /** No delivered packet is more than half the sequence space away from the newest one accepted. */
  ghost predicate FreshRun(steps: seq<Step>) {
    steps != [] ==>
      var before, s := steps[..|steps| - 1], steps[|steps| - 1];
      && FreshRun(before)
      && (s.action.DeliverPacket? && s.action.flight in Inbound(Run(before), s.atA) ==>
            InReach(Near(Run(before), s.atA).heard, s.action.flight.num))
  }

  lemma ActKeepsWindow(net: Net, action: Action)
    requires Inv(net) && WindowOk(net.a)
    requires action.DeliverPacket? && action.flight in net.toA ==> InReach(net.a.heard, action.flight.num)
    ensures WindowOk(ActAtA(net, action).a)
  {
    if action.DeliverPacket? && action.flight in net.toA {
      WindowStep(Receiver(net.a.ep.received, net.a.heard), action.flight.num);
    }
  }

  lemma {:induction false} DeliveredAtMostOnce(steps: seq<Step>)
    requires FreshRun(steps)
    ensures WindowOk(Run(steps).a) && WindowOk(Run(steps).b)
  {
    if steps == [] {
    } else {
      var before, s := steps[..|steps| - 1], steps[|steps| - 1];
      DeliveredAtMostOnce(before);
      Invariant(before);
      var net := Run(before);
      if s.atA { ActKeepsWindow(net, s.action); } else { ActKeepsWindow(Swap(net), s.action); }
    }
  }

  lemma SentOnlyGrows(net: Net, s: Step)
    ensures |Take1(net, s).a.sent| >= |net.a.sent| && |Take1(net, s).b.sent| >= |net.b.sent|
  {
  }

  lemma ShortMeansInReach(near: Node, far: Node, f: Flight)
    requires NewestIsMax(near.heard) && HandedOk(near, far) && FlightOk(f, far) && |far.sent| <= 0x8001
    ensures InReach(near.heard, f.num)
  {
  }

  /** Up to 2^15 + 1 sends from each end nothing can be stale. */
  lemma {:induction false} ShortRunsAreFresh(steps: seq<Step>)
    requires |Run(steps).a.sent| <= 0x8001 && |Run(steps).b.sent| <= 0x8001
    ensures FreshRun(steps)
  {
    if steps != [] {
      var before, s := steps[..|steps| - 1], steps[|steps| - 1];
      var net := Run(before);
      SentOnlyGrows(net, s);
      ShortRunsAreFresh(before);
      Invariant(before);
      DeliveredAtMostOnce(before);
      if s.action.DeliverPacket? && s.action.flight in Inbound(net, s.atA) {
        ShortMeansInReach(Near(net, s.atA), Far(net, s.atA), s.action.flight);
      }
    }
  }

  // ------------------------------------------------------------ where the guarantees end

  lemma OneMoreStep(steps: seq<Step>, s: Step)
    ensures Run(steps + [s]) == Take1(Run(steps), s)
  {
    assert (steps + [s])[..|steps|] == steps;
  }

  /** An empty packet with number `n` from an end that has heard nothing. */
  function Blank(n: nat): Flight { Flight(Packet(Header(Wire(n), 0, 0), []), n) }

  /** One end has sent `k` empty packets, the other end nothing, and nothing was delivered. */
  ghost predicate SentBlanks(net: Net, k: nat) {
    && net.b == START && net.toA == {}
    && net.a.ep == FRESH.(nextSendSeq := Wire(k + 1)) && net.a.numbers == map[]
    && net.a.heard == NOTHING && |net.a.sent| == k
    && forall n :: 1 <= n <= k ==> Blank(n) in net.toB
  }

  lemma SendBlank(net: Net, k: nat)
    requires SentBlanks(net, k)
    ensures SentBlanks(ActAtA(net, SendData([], false, 0)), k + 1)
  {
    WireNext(k + 1);
    var (a', out) := DoSend(net.a, [], false, 0);
    assert out == {Blank(k + 1)};
  }

  lemma {:induction false} ManySends(k: nat) returns (steps: seq<Step>)
    ensures SentBlanks(Run(steps), k)
  {
    if k == 0 {
      steps := [];
    } else {
      var before := ManySends(k - 1);
      steps := before + [Step(true, SendData([], false, 0))];
      OneMoreStep(before, Step(true, SendData([], false, 0)));
      SendBlank(Run(before), k - 1);
    }
  }

  /** A reliable send with number 2^16 waits under sequence number 0. */
  lemma SendNumberZero(net: Net, k: nat)
    requires SentBlanks(net, k) && k == TWO_16 - 1
    ensures var net' := ActAtA(net, SendData([], true, 0));
            && 0 in net'.a.ep.pending && net'.a.numbers == map[0 := TWO_16] && |net'.a.sent| == TWO_16
            && net'.b == START && net'.toA == {}
  {
  }

  lemma EmptyHeaderDropsZero(net: Net)
    requires net.b == START && 0 in net.a.ep.pending
    ensures var net' := Take1(net, Step(false, SendData([], false, 0)));
            && net'.a == net.a && net'.b.heard.log == [] && Blank(1) in net'.toA
            && 0 !in DoDeliver(net'.a, Blank(1)).ep.pending
  {
    EmptyHeaderAcks(0);
    var (b', out) := DoSend(net.b, [], false, 0);
    assert out == {Blank(1)};
  }

  /** 2^16 sends suffice: number 2^16 is taken for acknowledged by an end that has heard nothing at all. */
  lemma AckFailsAtWrap() returns (steps: seq<Step>)
    ensures var net := Run(steps);
            && Drops(steps, true, Blank(1), 0) && |net.a.sent| == TWO_16 && net.b.heard.log == []
            && !ItselfArrived(steps, true, 0)
  {
    var k := TWO_16 - 1;
    var sends := ManySends(k);
    var reliable := Step(true, SendData([], true, 0));
    OneMoreStep(sends, reliable);
    SendNumberZero(Run(sends), k);
    var reply := Step(false, SendData([], false, 0));
    OneMoreStep(sends + [reliable], reply);
    EmptyHeaderDropsZero(Run(sends + [reliable]));
    steps := sends + [reliable] + [reply];
    Invariant(steps);
  }

  /** With at most `n` sends from the near end whatever is dropped as acknowledged has itself arrived. */
  ghost predicate AckSafeUpTo(n: nat) {
    forall steps, atA, f, s :: Drops(steps, atA, f, s) && |Near(Run(steps), atA).sent| <= n ==>
        ItselfArrived(steps, atA, s)
  }

  /** Acknowledgements can be trusted up to 2^16 - 1 sends, and no further. */
  lemma AckSafeExactly(n: nat)
    ensures AckSafeUpTo(n) <==> n < TWO_16
  {
    if n < TWO_16 {
      forall steps, atA, f, s | Drops(steps, atA, f, s) && |Near(Run(steps), atA).sent| <= n
        ensures ItselfArrived(steps, atA, s)
      {
        AckSafetyNoWrap(steps, atA, f, s);
      }
    } else {
      var steps := AckFailsAtWrap();
      assert Drops(steps, true, Blank(1), 0) && |Near(Run(steps), true).sent| <= n;
    }
  }

  /** Every number reaches the handler at most once, or twice if it was leapt over. */
  ghost predicate OnceBut32(log: seq<int>) {
    forall x :: Times(log, x) <= 2 && (Times(log, x) == 2 ==> LeaptOver(log, x))
  }

  ghost predicate AtMostOnceUpTo(n: nat) {
    forall steps, atA :: |Run(steps).a.sent| <= n && |Run(steps).b.sent| <= n ==>
      OnceBut32(Near(Run(steps), atA).heard.log)
  }

  /** The far end accepts empty packet `n`, which it takes for newer than the last. */
  lemma AcceptBlank(steps: seq<Step>, n: nat) returns (steps': seq<Step>)
    requires Blank(n) in Run(steps).toB
    requires var st := Run(steps).b.ep.received; st.hasLastSeq ==> IsSeqNewer(Wire(n), st.lastSeq)
    ensures var net, net' := Run(steps), Run(steps');
            && net'.a == net.a && net'.toB == net.toB && net'.b.sent == net.b.sent
            && net'.b.heard.log == net.b.heard.log + [n]
            && net'.b.ep.received.hasLastSeq && net'.b.ep.received.lastSeq == Wire(n)
  {
    var deliver := Step(false, DeliverPacket(Blank(n)));
    OneMoreStep(steps, deliver);
    steps' := steps + [deliver];
  }

  /** 2^15 + 2 sends suffice: number 1 is taken for newer than number 2^15 + 2 and handed over again. */
  lemma DeliversTwice(k: nat) returns (steps: seq<Step>)
    requires k == 0x8002
    ensures var net := Run(steps);
            |net.a.sent| == k && net.b.sent == [] && net.b.heard.log == [1, 0x8000, 0x8002, 1]
  {
    steps := ManySends(k);
    steps := AcceptBlank(steps, 1);
    steps := AcceptBlank(steps, 0x8000);
    steps := AcceptBlank(steps, 0x8002);
    steps := AcceptBlank(steps, 1);
  }

  lemma NotLeaptOver()
    ensures !OnceBut32([1, 0x8000, 0x8002, 1])
  {
    var log := [1, 0x8000, 0x8002, 1];
    assert Times(log, 1) == 2;
    assert forall i :: 0 <= i < |log| ==> log[i] != 33;
    assert !LeaptOver(log, 1);
  }

  /** At-most-once delivery holds up to 2^15 + 1 sends from each end, and no further. */
  lemma AtMostOnceExactly(n: nat)
    ensures AtMostOnceUpTo(n) <==> n <= 0x8001
  {
    if n <= 0x8001 {
      forall steps, atA | |Run(steps).a.sent| <= n && |Run(steps).b.sent| <= n
        ensures OnceBut32(Near(Run(steps), atA).heard.log)
      {
        ShortRunsAreFresh(steps);
        DeliveredAtMostOnce(steps);
      }
    } else {
      var steps := DeliversTwice(0x8002);
      NotLeaptOver();
      assert !OnceBut32(Near(Run(steps), false).heard.log);
    }
  }
}
