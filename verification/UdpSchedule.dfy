/**
  When the UDP transport sends, sends again, acknowledges and refuses, over every run of
  the protocol and in plain numbers: milliseconds, sequence numbers and counts.
 */
module UdpSchedule {
  import opened Collections
  import opened MachineWords
  import opened ReceiveWindow
  import opened UdpEndpoint
  import opened UdpProtocol

  // ------------------------------------------------------------------ one node's step

  /** What an action does to the endpoint that takes it. */
  function NodeAfter(n: Node, action: Action, inbound: set<Flight>): Node {
    match action
    case SendData(data, reliable, now) => DoSend(n, data, reliable, now).0
    case UpdateAt(now) => DoUpdate(n, now).0
    case DeliverPacket(f) => if f in inbound then DoDeliver(n, f) else n
  }

  lemma StepAtNode(steps: seq<Step>, s: Step, atA: bool)
    ensures var net, net' := Run(steps), Run(steps + [s]);
            Near(net', atA)
            == if s.atA == atA then NodeAfter(Near(net, atA), s.action, Inbound(net, atA)) else Near(net, atA)
  {
    OneMoreStep(steps, s);
  }

  // ------------------------------------------------------------------- the timetable

  /** Milliseconds from the transmission with this many retries to the next. */
  function WaitMs(retries: nat): int {
    if retries == 0 then 50 else if retries == 1 then 75 else if retries == 2 then 112
    else if retries == 3 then 168 else 253
  }

  lemma BackoffIsWait(retries: nat)
    requires retries <= 4
    ensures Backoff(retries) == WaitMs(retries) * 1_000_000
  {
    IntervalValues();
  }

  ghost predicate Timed(p: Pending) {
    && p.retries <= 4
    && p.nextSend == p.lastSent + WaitMs(p.retries) * 1_000_000
    && (p.retries == 0 ==> p.lastSent == p.firstSent)
  }

  ghost predicate NodeTimed(n: Node) {
    forall s :: s in n.ep.pending ==> Timed(n.ep.pending[s])
  }

  lemma RefreshTimed(p: Pending, s: U16, num: int, sent: seq<Payload>, now: int)
    requires PendingOk(p, s, num, sent) && Timed(p) && !Expired(p, now)
    ensures Timed(Refresh(p, now))
  {
    RefreshKeepsOk(p, s, num, sent, now);
    if Due(p, now) { BackoffIsWait(p.retries + 1); }
  }

  lemma UpdateTimed(n: Node, now: int)
    requires NodeOk(n) && NodeTimed(n)
    ensures NodeTimed(DoUpdate(n, now).0)
  {
    forall s | s in Survivors(n.ep.pending, now) ensures Timed(Survivors(n.ep.pending, now)[s]) {
      RefreshTimed(n.ep.pending[s], s, n.numbers[s], n.sent, now);
    }
  }

  lemma ActionTimed(n: Node, action: Action, inbound: set<Flight>)
    requires NodeOk(n) && NodeTimed(n)
    ensures NodeTimed(NodeAfter(n, action, inbound))
  {
    match action
    case SendData(data, reliable, now) => BackoffIsWait(0);
    case UpdateAt(now) => UpdateTimed(n, now);
    case DeliverPacket(f) =>
  }

  lemma NodeAlwaysOk(steps: seq<Step>, atA: bool)
    ensures NodeOk(Near(Run(steps), atA))
  {
    Invariant(steps);
  }

  lemma StepTimed(steps: seq<Step>, s: Step, atA: bool)
    requires NodeTimed(Near(Run(steps), atA))
    ensures NodeTimed(Near(Run(steps + [s]), atA))
  {
    NodeAlwaysOk(steps, atA);
    StepAtNode(steps, s, atA);
    if s.atA == atA { ActionTimed(Near(Run(steps), atA), s.action, Inbound(Run(steps), atA)); }
  }

  /** In every run each pending packet is next sent one waiting time after it was last sent. */
  lemma {:induction false} AlwaysTimed(steps: seq<Step>, atA: bool)
    ensures NodeTimed(Near(Run(steps), atA))
  {
    if steps != [] {
      var before, s := steps[..|steps| - 1], steps[|steps| - 1];
      AlwaysTimed(before, atA);
      StepTimed(before, s, atA);
      assert steps == before + [s];
    }
  }

  /** A flight carrying number `num`, its wire number and payload, and the receive state in its header. */
  function CopyOf(st: ReceiveState, num: int, s: U16, payload: Payload): Flight {
    Flight(Packet(Header(s, if st.hasLastSeq then st.lastSeq else 0, if st.hasLastSeq then st.ackBits else 0),
                  payload), num)
  }

  lemma NumbersDiffer(n: Node, s: U16, t: U16)
    requires NodeOk(n) && s in n.ep.pending && t in n.ep.pending
    ensures s in n.numbers && t in n.numbers && (n.numbers[s] == n.numbers[t] <==> s == t)
  {
    assert PendingOk(n.ep.pending[s], s, n.numbers[s], n.sent);
    assert PendingOk(n.ep.pending[t], t, n.numbers[t], n.sent);
  }

  lemma CopiesOf(n: Node, s: U16, now: int)
    requires NodeOk(n) && s in n.ep.pending
    ensures s in n.numbers
    ensures (set f | f in DoUpdate(n, now).1 && f.num == n.numbers[s])
            == if s in ResentKeys(n.ep.pending, now)
               then {CopyOf(n.ep.received, n.numbers[s], s, n.ep.pending[s].payload)} else {}
  {
    NumbersDiffer(n, s, s);
    var out := DoUpdate(n, now).1;
    forall f | f in out && f.num == n.numbers[s]
      ensures s in ResentKeys(n.ep.pending, now)
              && f == CopyOf(n.ep.received, n.numbers[s], s, n.ep.pending[s].payload)
    {
      var t :| t in ResentKeys(n.ep.pending, now) && t in n.numbers
               && f == Flight(Compose(n.ep.received, t, n.ep.pending[t].payload), n.numbers[t]);
      NumbersDiffer(n, s, t);
    }
    if s in ResentKeys(n.ep.pending, now) {
      assert Flight(Compose(n.ep.received, s, n.ep.pending[s].payload), n.numbers[s]) in out;
    }
  }

  lemma AgeAlone(p: Pending, s: U16, num: int, sent: seq<Payload>, now: int)
    requires PendingOk(p, s, num, sent) && Timed(p)
    ensures Expired(p, now) <==> now - p.firstSent >= 500_000_000
    ensures Due(p, now) <==> now - p.lastSent >= WaitMs(p.retries) * 1_000_000
    ensures !Expired(p, now) && Due(p, now) ==>
              Refresh(p, now) == Pending(s, p.payload, p.firstSent, now,
                                         now + WaitMs(p.retries + 1) * 1_000_000, p.retries + 1)
    ensures !Due(p, now) ==> Refresh(p, now) == p
  {
    if !Expired(p, now) { RefreshTimed(p, s, num, sent, now); }
  }

  lemma UpdatedPacket(n: Node, s: U16, now: int)
    requires s in n.ep.pending
    ensures var p, pending' := n.ep.pending[s], DoUpdate(n, now).0.ep.pending;
            && (s in pending' <==> !Expired(p, now))
            && (s in pending' ==> pending'[s] == Refresh(p, now))
            && (s in ResentKeys(n.ep.pending, now) <==> !Expired(p, now) && Due(p, now))
  {
  }

  /**
    What an update at `now` does with pending packet `s`.  It drops one first sent 500 ms before
    or earlier.  Of one still younger it sends one copy, under its number and with the current
    acknowledgement, if the waiting time (50, 75, 112, 168 or 253 ms for 0, 1, 2, 3 or 4
    retries) has passed since it was last sent, and then counts one retry more; otherwise it
    sends no copy and leaves the packet alone.
   */
  ghost predicate OnTime(n: Node, s: U16, now: int) {
    && s in n.ep.pending && s in n.numbers
    && var p, (n', out) := n.ep.pending[s], DoUpdate(n, now);
       var copies := set f | f in out && f.num == n.numbers[s];
       && (s in n'.ep.pending <==> now - p.firstSent < 500_000_000)
       && if now - p.firstSent < 500_000_000 && now - p.lastSent >= WaitMs(p.retries) * 1_000_000
          then copies == {CopyOf(n.ep.received, n.numbers[s], s, p.payload)}
               && n'.ep.pending[s] == Pending(s, p.payload, p.firstSent, now,
                                              now + WaitMs(p.retries + 1) * 1_000_000, p.retries + 1)
          else copies == {} && (s in n'.ep.pending ==> n'.ep.pending[s] == p)
  }

  lemma OnTimeAtNode(n: Node, s: U16, now: int)
    requires NodeOk(n) && NodeTimed(n) && s in n.ep.pending
    ensures OnTime(n, s, now)
  {
    CopiesOf(n, s, now);
    UpdatedPacket(n, s, now);
    AgeAlone(n.ep.pending[s], s, n.numbers[s], n.sent, now);
  }

  lemma NodeAlwaysOnTime(n: Node, now: int)
    requires NodeOk(n) && NodeTimed(n)
    ensures forall s :: s in n.ep.pending ==> OnTime(n, s, now)
  {
    forall s | s in n.ep.pending ensures OnTime(n, s, now) { OnTimeAtNode(n, s, now); }
  }

  /** In every run and for every clock, every pending packet is retransmitted on time. */
  lemma RetransmitsExactly(steps: seq<Step>, atA: bool, now: int)
    ensures forall s :: s in Near(Run(steps), atA).ep.pending ==> OnTime(Near(Run(steps), atA), s, now)
  {
    NodeAlwaysOk(steps, atA);
    AlwaysTimed(steps, atA);
    NodeAlwaysOnTime(Near(Run(steps), atA), now);
  }

  /** What an update sends is on its way to the far end, and nothing else is new there. */
  lemma CopiesTravel(steps: seq<Step>, atA: bool, now: int)
    ensures var net, net' := Run(steps), Run(steps + [Step(atA, UpdateAt(now))]);
            && Near(net', atA) == DoUpdate(Near(net, atA), now).0
            && Inbound(net', !atA) == Inbound(net, !atA) + DoUpdate(Near(net, atA), now).1
  {
    OneMoreStep(steps, Step(atA, UpdateAt(now)));
  }

  // -------------------------------------------------- one packet, updated every millisecond

  /** After `i` updates a millisecond apart, when the last copy left and how many retries there were. */
  function LastCopyMs(i: nat): int {
    if i < 50 then 0 else if i < 125 then 50 else if i < 237 then 125 else if i < 405 then 237 else 405
  }

  function Retries(i: nat): nat {
    if i < 50 then 0 else if i < 125 then 1 else if i < 237 then 2 else if i < 405 then 3 else 4
  }

  /**
    After `base` this end is updated at 1, 2, ... and `i` ms past `t0`, and does anything else
    in between; packet `s` is not acknowledged and its sequence number does not come round.
   */
  ghost predicate Ticked(base: seq<Step>, more: seq<Step>, atA: bool, s: U16, t0: int, i: nat)
    decreases |more|
  {
    if more == [] then i == 0
    else
      var before, last := more[..|more| - 1], more[|more| - 1];
      if last.atA == atA && last.action.UpdateAt?
      then i > 0 && last.action.now == t0 + i * 1_000_000 && Ticked(base, before, atA, s, t0, i - 1)
      else
        && Ticked(base, before, atA, s, t0, i)
        && s in Near(Run(base + before + [last]), atA).ep.pending
        && (last.atA == atA && last.action.SendData? ==> Near(Run(base + before), atA).ep.nextSendSeq != s)
  }

  /** `base` ends with a reliable send at `t0` that the window has room for. */
  ghost predicate JustSent(base: seq<Step>, atA: bool, s: U16, data: Payload, t0: int) {
    && base != []
    && base[|base| - 1] == Step(atA, SendData(data, true, t0))
    && var n := Near(Run(base[..|base| - 1]), atA);
       n.ep.nextSendSeq == s && |n.ep.pending| < 32
  }

  ghost predicate Entry(p: Pending, s: U16, data: Payload, t0: int, i: nat) {
    p == Pending(s, data, t0, t0 + LastCopyMs(i) * 1_000_000,
                 t0 + (LastCopyMs(i) + WaitMs(Retries(i))) * 1_000_000, Retries(i))
  }

  ghost predicate AsTabled(n: Node, s: U16, data: Payload, t0: int, i: nat) {
    s in n.ep.pending && Entry(n.ep.pending[s], s, data, t0, i)
  }

  lemma FiledAtSend(base: seq<Step>, atA: bool, s: U16, data: Payload, t0: int)
    requires JustSent(base, atA, s, data, t0)
    ensures AsTabled(Near(Run(base), atA), s, data, t0, 0)
  {
    var before := base[..|base| - 1];
    assert base == before + [Step(atA, SendData(data, true, t0))];
    StepAtNode(before, Step(atA, SendData(data, true, t0)), atA);
    BackoffIsWait(0);
  }

  lemma LeftAlone(n: Node, action: Action, inbound: set<Flight>, s: U16)
    requires s in n.ep.pending && s in NodeAfter(n, action, inbound).ep.pending
    requires !action.UpdateAt? && (action.SendData? ==> n.ep.nextSendSeq != s)
    ensures NodeAfter(n, action, inbound).ep.pending[s] == n.ep.pending[s]
  {
  }

  lemma TableStep(i: nat)
    requires i + 1 < 500
    ensures Retries(i) <= 4
    ensures if i + 1 - LastCopyMs(i) >= WaitMs(Retries(i))
            then LastCopyMs(i + 1) == i + 1 && Retries(i + 1) == Retries(i) + 1
                 && (i + 1 == 50 || i + 1 == 125 || i + 1 == 237 || i + 1 == 405)
            else LastCopyMs(i + 1) == LastCopyMs(i) && Retries(i + 1) == Retries(i)
                 && i + 1 != 50 && i + 1 != 125 && i + 1 != 237 && i + 1 != 405
  {
  }

  /** The update after the one at `i` ms, for the table entry alone. */
  lemma NextEntry(p: Pending, p': Pending, s: U16, data: Payload, t0: int, i: nat)
    requires i + 1 < 500 && Entry(p, s, data, t0, i)
    requires var now := t0 + (i + 1) * 1_000_000;
             if now - p.lastSent >= WaitMs(p.retries) * 1_000_000
             then p' == Pending(s, data, t0, now, now + WaitMs(p.retries + 1) * 1_000_000, p.retries + 1)
             else p' == p
    ensures Entry(p', s, data, t0, i + 1)
  {
    TableStep(i);
  }

  lemma TickOnce(n: Node, s: U16, data: Payload, t0: int, i: nat)
    requires NodeOk(n) && NodeTimed(n) && AsTabled(n, s, data, t0, i) && i + 1 < 500
    ensures AsTabled(DoUpdate(n, t0 + (i + 1) * 1_000_000).0, s, data, t0, i + 1)
  {
    var now := t0 + (i + 1) * 1_000_000;
    OnTimeAtNode(n, s, now);
    NextEntry(n.ep.pending[s], DoUpdate(n, now).0.ep.pending[s], s, data, t0, i);
  }

  lemma TickInRun(steps: seq<Step>, atA: bool, s: U16, data: Payload, t0: int, i: nat)
    requires AsTabled(Near(Run(steps), atA), s, data, t0, i) && i + 1 < 500
    ensures AsTabled(Near(Run(steps + [Step(atA, UpdateAt(t0 + (i + 1) * 1_000_000))]), atA), s, data, t0, i + 1)
  {
    NodeAlwaysOk(steps, atA);
    AlwaysTimed(steps, atA);
    TickOnce(Near(Run(steps), atA), s, data, t0, i);
    StepAtNode(steps, Step(atA, UpdateAt(t0 + (i + 1) * 1_000_000)), atA);
  }

  lemma OtherStepInRun(steps: seq<Step>, last: Step, atA: bool, s: U16, data: Payload, t0: int, i: nat)
    requires AsTabled(Near(Run(steps), atA), s, data, t0, i) && s in Near(Run(steps + [last]), atA).ep.pending
    requires last.atA == atA ==> !last.action.UpdateAt?
    requires last.atA == atA && last.action.SendData? ==> Near(Run(steps), atA).ep.nextSendSeq != s
    ensures AsTabled(Near(Run(steps + [last]), atA), s, data, t0, i)
  {
    StepAtNode(steps, last, atA);
    if last.atA == atA { LeftAlone(Near(Run(steps), atA), last.action, Inbound(Run(steps), atA), s); }
  }

  lemma {:induction false} TimetableKept(base: seq<Step>, more: seq<Step>, atA: bool,
                                         s: U16, data: Payload, t0: int, i: nat)
    requires JustSent(base, atA, s, data, t0) && Ticked(base, more, atA, s, t0, i) && i < 500
    ensures AsTabled(Near(Run(base + more), atA), s, data, t0, i)
    decreases |more|
  {
    if more == [] {
      assert base + more == base;
      FiledAtSend(base, atA, s, data, t0);
    } else {
      var before, last := more[..|more| - 1], more[|more| - 1];
      assert base + more == base + before + [last];
      if last.atA == atA && last.action.UpdateAt? {
        TimetableKept(base, before, atA, s, data, t0, i - 1);
        assert last == Step(atA, UpdateAt(t0 + (i - 1 + 1) * 1_000_000));
        TickInRun(base + before, atA, s, data, t0, i - 1);
      } else {
        TimetableKept(base, before, atA, s, data, t0, i);
        OtherStepInRun(base + before, last, atA, s, data, t0, i);
      }
    }
  }

  /** The update `i` ms past `t0` sends one copy if `i` is 50, 125, 237 or 405, and drops the packet if it is 500. */
  ghost predicate CopiesOnTable(n: Node, s: U16, data: Payload, t0: int, i: nat) {
    && s in n.ep.pending && s in n.numbers
    && var (n', out) := DoUpdate(n, t0 + i * 1_000_000);
       var copies := set f | f in out && f.num == n.numbers[s];
       && copies == (if i == 50 || i == 125 || i == 237 || i == 405
                     then {CopyOf(n.ep.received, n.numbers[s], s, data)} else {})
       && (s in n'.ep.pending <==> i < 500)
  }

  lemma TableAtNode(n: Node, s: U16, data: Payload, t0: int, i: nat)
    requires NodeOk(n) && NodeTimed(n) && AsTabled(n, s, data, t0, i) && i < 500
    ensures CopiesOnTable(n, s, data, t0, i + 1)
  {
    OnTimeAtNode(n, s, t0 + (i + 1) * 1_000_000);
    if i + 1 < 500 { TableStep(i); }
  }

  /**
    With an update every millisecond, whatever else happens, copies of an unacknowledged
    packet leave 0, 50, 125, 237 and 405 ms after it was sent and at no other time, and 500 ms
    after it was sent it is dropped.
   */
  lemma CopiesLeaveAt(base: seq<Step>, more: seq<Step>, atA: bool, s: U16, data: Payload, t0: int, i: nat)
    requires JustSent(base, atA, s, data, t0) && Ticked(base, more, atA, s, t0, i) && i < 500
    ensures CopiesOnTable(Near(Run(base + more), atA), s, data, t0, i + 1)
  {
    TimetableKept(base, more, atA, s, data, t0, i);
    NodeAlwaysOk(base + more, atA);
    AlwaysTimed(base + more, atA);
    TableAtNode(Near(Run(base + more), atA), s, data, t0, i);
  }

  // ------------------------------------------------------------------ sends and books

  /**
    What a send does.  It takes the next number in any case.  It is refused, and counted, exactly if
    it is reliable and 32 packets are pending; otherwise one flight leaves, and a reliable one is
    filed, to be sent again after 50 ms.
   */
  ghost predicate SentRight(n: Node, data: Payload, reliable: bool, now: int) {
    var (n', out) := DoSend(n, data, reliable, now);
    var num, s := |n.sent| + 1, (|n.sent| + 1) % 0x1_0000;
    && n.ep.nextSendSeq == s && n'.sent == n.sent + [data]
    && if reliable && |n.ep.pending| == 32
       then out == {} && n'.ep.pending == n.ep.pending
            && n'.ep.counters == n.ep.counters.(window := n.ep.counters.window + 1)
       else out == {CopyOf(n.ep.received, num, s, data)} && n'.ep.counters == n.ep.counters
            && n'.ep.pending == if reliable then n.ep.pending[s := Pending(s, data, now, now, now + 50_000_000, 0)]
                                else n.ep.pending
  }

  lemma SendsAtNode(n: Node, data: Payload, reliable: bool, now: int)
    requires NodeOk(n)
    ensures SentRight(n, data, reliable, now)
  {
    BackoffIsWait(0);
  }

  /** Every send of every run. */
  lemma SendsExactly(steps: seq<Step>, atA: bool, data: Payload, reliable: bool, now: int)
    ensures SentRight(Near(Run(steps), atA), data, reliable, now)
  {
    NodeAlwaysOk(steps, atA);
    SendsAtNode(Near(Run(steps), atA), data, reliable, now);
  }

  /** What is sent is on its way to the far end, and nothing else is new there. */
  lemma SendTravels(steps: seq<Step>, atA: bool, data: Payload, reliable: bool, now: int)
    ensures var net, net' := Run(steps), Run(steps + [Step(atA, SendData(data, reliable, now))]);
            && Near(net', atA) == DoSend(Near(net, atA), data, reliable, now).0
            && Inbound(net', !atA) == Inbound(net, !atA) + DoSend(Near(net, atA), data, reliable, now).1
  {
    OneMoreStep(steps, Step(atA, SendData(data, reliable, now)));
  }

  /** An injective image has as many elements as the set. */
  lemma {:induction false} ImageSize<T(!new)>(keys: set<U16>, f: U16 -> T)
    requires forall k, j :: k in keys && j in keys && f(k) == f(j) ==> k == j
    ensures |set k | k in keys :: f(k)| == |keys|
  {
    var image := set k | k in keys :: f(k);
    if k :| k in keys {
      var rest := keys - {k};
      ImageSize(rest, f);
      assert keys == rest + {k};
      assert image == (set j | j in rest :: f(j)) + {f(k)};
    } else {
      assert image == {};
    }
  }

  lemma FlightsLeaving(n: Node, now: int)
    requires NodeOk(n)
    ensures |DoUpdate(n, now).1| == |ResentKeys(n.ep.pending, now)|
  {
    var keys := ResentKeys(n.ep.pending, now);
    forall s | s in keys ensures s in n.numbers { NumbersDiffer(n, s, s); }
    var f := (s: U16) =>
      if s in n.ep.pending && s in n.numbers
      then CopyOf(n.ep.received, n.numbers[s], s, n.ep.pending[s].payload)
      else CopyOf(n.ep.received, 0, s, []);
    forall k, j | k in keys && j in keys && f(k) == f(j) ensures k == j {}
    ImageSize(keys, f);
    assert DoUpdate(n, now).1 == set s | s in keys :: f(s);
  }

  lemma UpdateCountsAtNode(n: Node, now: int)
    requires NodeOk(n)
    ensures var (n', out) := DoUpdate(n, now);
            && n'.ep.counters.retries == n.ep.counters.retries + |out|
            && n'.ep.counters.timeouts + |n'.ep.pending| == n.ep.counters.timeouts + |n.ep.pending|
  {
    FlightsLeaving(n, now);
    SurvivorsOk(n.ep.pending, n.numbers, n.sent, now);
  }

  /** The retry counter counts the copies an update sends, the timeout counter the packets it drops. */
  lemma UpdateCounts(steps: seq<Step>, atA: bool, now: int)
    ensures var n := Near(Run(steps), atA);
            var (n', out) := DoUpdate(n, now);
            && n'.ep.counters.retries == n.ep.counters.retries + |out|
            && n'.ep.counters.timeouts + |n'.ep.pending| == n.ep.counters.timeouts + |n.ep.pending|
  {
    NodeAlwaysOk(steps, atA);
    UpdateCountsAtNode(Near(Run(steps), atA), now);
  }

  // ---------------------------------------------------------- arrivals, seen through numbers

  lemma VerdictExactly(st: ReceiveState, h: History, num: int)
    requires NewestIsMax(h) && Tracks(st, h) && InReach(h, num)
    ensures Classify(st, Wire(num))
            == if h.log == [] || h.newest < num < h.newest + 0x8000
                  || (h.newest - 32 <= num <= h.newest && num !in h.log)
                  || (num == h.newest - 32 && h.forgotten)
               then Deliver
               else if h.newest - 32 <= num <= h.newest then Duplicate else Old
  {
    if h.log != [] {
      if num == h.newest + 0x8000 {
        HalfAheadIsOld(st, h.newest);
      } else {
        ClassifyExactly(st, h, num);
        SerialComparison(num, h.newest);
        if num < h.newest { HasReceivedBits(st, h.newest, num); }
      }
    }
  }

  lemma ArrivalAtNode(n: Node, f: Flight)
    requires NewestIsMax(n.heard) && Tracks(n.ep.received, n.heard) && InReach(n.heard, f.num)
    requires f.packet.header.sn == Wire(f.num)
    ensures var n', h, c := DoDeliver(n, f), n.heard, n.ep.counters;
            if h.log == [] || h.newest < f.num < h.newest + 0x8000
               || (h.newest - 32 <= f.num <= h.newest && f.num !in h.log)
               || (f.num == h.newest - 32 && h.forgotten)
            then n'.heard.log == h.log + [f.num] && n'.handed == n.handed + [f.packet.payload] && n'.ep.counters == c
            else n'.heard == h && n'.handed == n.handed
                 && n'.ep.counters == if h.newest - 32 <= f.num <= h.newest
                                      then c.(duplicates := c.duplicates + 1) else c.(stale := c.stale + 1)
  {
    VerdictExactly(n.ep.received, n.heard, f.num);
  }

  lemma ArrivalInReach(steps: seq<Step>, atA: bool, f: Flight)
    requires FreshRun(steps + [Step(atA, DeliverPacket(f))]) && f in Inbound(Run(steps), atA)
    ensures var n := Near(Run(steps), atA);
            && NewestIsMax(n.heard) && Tracks(n.ep.received, n.heard) && InReach(n.heard, f.num)
            && f.packet.header.sn == Wire(f.num)
  {
    var step := Step(atA, DeliverPacket(f));
    assert (steps + [step])[..|steps|] == steps;
    DeliveredAtMostOnce(steps);
    Invariant(steps);
    assert FlightOk(f, Far(Run(steps), atA));
  }

  /**
    What becomes of an arriving packet in a fresh run.  It is handed over if its number is ahead
    of every accepted one or one of the 32 behind the newest and not among the accepted (or the one
    exactly 32 behind that was leapt over); if not, it counts as a duplicate when it is at most
    32 behind, and as old when it is further behind, or half the number space ahead.
   */
  lemma ArrivalExactly(steps: seq<Step>, atA: bool, f: Flight)
    requires FreshRun(steps + [Step(atA, DeliverPacket(f))]) && f in Inbound(Run(steps), atA)
    ensures var n, n' := Near(Run(steps), atA), Near(Run(steps + [Step(atA, DeliverPacket(f))]), atA);
            var h, c := n.heard, n.ep.counters;
            if h.log == [] || h.newest < f.num < h.newest + 0x8000
               || (h.newest - 32 <= f.num <= h.newest && f.num !in h.log)
               || (f.num == h.newest - 32 && h.forgotten)
            then n'.heard.log == h.log + [f.num] && n'.handed == n.handed + [f.packet.payload] && n'.ep.counters == c
            else n'.heard == h && n'.handed == n.handed
                 && n'.ep.counters == if h.newest - 32 <= f.num <= h.newest
                                      then c.(duplicates := c.duplicates + 1) else c.(stale := c.stale + 1)
  {
    ArrivalInReach(steps, atA, f);
    StepAtNode(steps, Step(atA, DeliverPacket(f)), atA);
    ArrivalAtNode(Near(Run(steps), atA), f);
  }

  /** The number is the newest accepted or one of the 32 before it, and the window still knows of it. */
  ghost predicate Acknowledged(h: History, num: int) {
    num in h.log && h.newest - 32 <= num && (num == h.newest - 32 ==> !h.forgotten)
  }

  lemma AckedExactly(st: ReceiveState, h: History, num: int)
    requires NewestIsMax(h) && Tracks(st, h) && h.log != [] && -0x8000 < num - h.newest < 0x8000
    ensures IsSeqAcked(Wire(num), st.lastSeq, st.ackBits) <==> Acknowledged(h, num)
  {
    IsSeqAckedBits(Wire(num), st.lastSeq, st.ackBits);
    WireDistance(num, h.newest);
    if num in h.log && h.newest - 32 <= num < h.newest {
      assert h.newest - (h.newest - num) == num;
      assert Marked(st.ackBits, h.newest - num) <==> Remembered(h, h.newest - num);
    }
    forall d | Marked(st.ackBits, d) && Wire(num) == Sub16(st.lastSeq, d) ensures num == h.newest - d {
      WireDistance(num, h.newest - d);
      WireDistance(h.newest - d, h.newest);
    }
  }

  lemma AckClearsAtNode(near: Node, far: Node, reply: Flight, s: U16)
    requires NodeOk(near) && s in near.ep.pending && s in near.numbers
    requires NewestIsMax(far.heard) && Tracks(far.ep.received, far.heard) && far.heard.log != []
    requires -0x8000 < near.numbers[s] - far.heard.newest < 0x8000
    requires reply.packet.header.ack == far.ep.received.lastSeq
    requires reply.packet.header.ackBits == far.ep.received.ackBits
    ensures var after := DoDeliver(near, reply);
            && (s in after.ep.pending <==> !Acknowledged(far.heard, near.numbers[s]))
            && (s in after.ep.pending ==> after.ep.pending[s] == near.ep.pending[s])
  {
    assert PendingOk(near.ep.pending[s], s, near.numbers[s], near.sent);
    AckedExactly(far.ep.received, far.heard, near.numbers[s]);
  }

  /** The packet an end would compose next. */
  function NextReply(n: Node, data: Payload): Flight {
    CopyOf(n.ep.received, |n.sent| + 1, (|n.sent| + 1) % 0x1_0000, data)
  }

  lemma ReplyLeaves(n: Node, data: Payload, now: int)
    requires SentRight(n, data, false, now)
    ensures NextReply(n, data) in DoSend(n, data, false, now).1
  {
  }

  lemma SentIsInbound(steps: seq<Step>, atA: bool, data: Payload, now: int)
    ensures NextReply(Near(Run(steps), !atA), data)
            in Inbound(Run(steps + [Step(!atA, SendData(data, false, now))]), atA)
  {
    SendsExactly(steps, !atA, data, false, now);
    SendTravels(steps, !atA, data, false, now);
    ReplyLeaves(Near(Run(steps), !atA), data, now);
  }

  /**
    Acknowledgements are complete as well as sound: in a fresh run, whatever the far end sends
    next, once it arrives, clears exactly the pending packets whose numbers the far end's
    window knows as accepted; any other stays pending.
   */
  lemma AckClearsExactly(steps: seq<Step>, atA: bool, data: Payload, now: int, s: U16)
    requires FreshRun(steps) && s in Near(Run(steps), atA).ep.pending && s in Near(Run(steps), atA).numbers
    requires Far(Run(steps), atA).heard.log != []
    requires -0x8000 < Near(Run(steps), atA).numbers[s] - Far(Run(steps), atA).heard.newest < 0x8000
    ensures var near, far := Near(Run(steps), atA), Far(Run(steps), atA);
            var reply := NextReply(far, data);
            var sent, after := Run(steps + [Step(!atA, SendData(data, false, now))]), DoDeliver(near, reply);
            && reply in Inbound(sent, atA) && Near(sent, atA) == near
            && (s in after.ep.pending <==> !Acknowledged(far.heard, near.numbers[s]))
            && (s in after.ep.pending ==> after.ep.pending[s] == near.ep.pending[s])
  {
    var near, far := Near(Run(steps), atA), Far(Run(steps), atA);
    var reply := NextReply(far, data);
    SentIsInbound(steps, atA, data, now);
    StepAtNode(steps, Step(!atA, SendData(data, false, now)), atA);
    DeliveredAtMostOnce(steps);
    NodeAlwaysOk(steps, atA);
    AckClearsAtNode(near, far, reply, s);
  }
}
