/**
  The receive side of the UDP transport: serial comparison of 16-bit sequence
  numbers, the newest number plus a 32-bit field for the 32 numbers before it,
  and the duplicate and old filter.

  A history `log` lists the numbers that reached the handler, in order, as
  unbounded integers; `Wire(n)` is what the header carries of number `n`.
 */
module ReceiveWindow {
  import opened MachineWords

  datatype ReceiveState = ReceiveState(hasLastSeq: bool, lastSeq: U16, ackBits: U32)

  datatype Verdict = Deliver | Duplicate | Old

  const EMPTY := ReceiveState(false, 0, 0)

  /** The window field claims the number `d` before the newest. */
  predicate Marked(bits: U32, d: int) { 1 <= d <= 32 && Bit(bits, d - 1) }

  function Wire(n: int): U16 { n % TWO_16 }

  // ---------------------------------------------------------------- operations

  predicate IsSeqNewer(lhs: U16, rhs: U16) { Signed16(Sub16(lhs, rhs)) > 0 }

  predicate IsSeqAcked(sn: U16, ack: U16, ackBits: U32) {
    sn == ack ||
    var diff := Signed16(Sub16(ack, sn));
    0 < diff <= 32 && And(ackBits, ShiftLeft32(1, diff - 1)) != 0
  }

  predicate HasReceived(st: ReceiveState, sn: U16) {
    && st.hasLastSeq
    && (sn == st.lastSeq ||
        (&& !IsSeqNewer(sn, st.lastSeq)
         && var diff := Sub16(st.lastSeq, sn);
            (diff == 0 || (diff <= 32 && And(st.ackBits, ShiftLeft32(1, diff - 1)) != 0))))
  }

  function UpdateReceiveState(st: ReceiveState, sn: U16): ReceiveState {
    if !st.hasLastSeq then
      ReceiveState(true, sn, 0)
    else if IsSeqNewer(sn, st.lastSeq) then
      var diff := Sub16(sn, st.lastSeq);
      if diff >= 32 then
        ReceiveState(true, sn, 0)
      else
        var shifted := ShiftLeft32(st.ackBits, diff);
        SetBit(shifted, diff - 1, 0);
        ReceiveState(true, sn, Or(shifted, ShiftLeft32(1, diff - 1)))
    else
      var diff := Sub16(st.lastSeq, sn);
      if 1 <= diff <= 32 then
        SetBit(st.ackBits, diff - 1, 0);
        st.(ackBits := Or(st.ackBits, ShiftLeft32(1, diff - 1)))
      else
        st
  }

  /** What `process_packet` does with a sequence number, before it updates anything. */
  function Classify(st: ReceiveState, sn: U16): Verdict {
    if st.hasLastSeq && !IsSeqNewer(sn, st.lastSeq) then
      var diff := Sub16(st.lastSeq, sn);
      if diff == 0 || HasReceived(st, sn) then Duplicate
      else if diff > 32 then Old
      else Deliver
    else
      Deliver
  }

  function Arrive(st: ReceiveState, sn: U16): ReceiveState {
    if Classify(st, sn).Deliver? then UpdateReceiveState(st, sn) else st
  }

  // ------------------------------------------------------- serial comparison

  /** Section 3.2 of RFC 1982 for 16 bits: right for any two numbers less than half the space apart. */
  lemma SerialComparison(n: int, m: int)
    requires -0x8000 <= n - m < 0x8000
    ensures IsSeqNewer(Wire(n), Wire(m)) <==> n > m
    ensures n >= m ==> Sub16(Wire(n), Wire(m)) == n - m
    ensures n <= m ==> Sub16(Wire(m), Wire(n)) == m - n
  {
    WireDistance(n, m);
  }

  /** And right only for those: within one turn, anything further apart is compared the wrong way. */
  lemma SerialComparisonLimit(n: int, m: int)
    requires -TWO_16 < n - m < TWO_16
    ensures (IsSeqNewer(Wire(n), Wire(m)) <==> n > m) <==> -0x8000 <= n - m < 0x8000
  {
    WireDistance(n, m);
  }

  lemma WireDistance(n: int, m: int)
    requires -TWO_16 < n - m < TWO_16
    ensures n >= m ==> Sub16(Wire(n), Wire(m)) == n - m
    ensures n <= m ==> Sub16(Wire(m), Wire(n)) == m - n
    ensures n != m ==> Wire(n) != Wire(m)
  {
  }

  // ------------------------------------------------------------ bit by bit view

  /** The effect of an update on every bit of the window. */
  lemma UpdateBits(st: ReceiveState, sn: U16, d: int)
    requires st.hasLastSeq && 1 <= d <= 32
    ensures var st' := UpdateReceiveState(st, sn);
            var ahead := Sub16(sn, st.lastSeq);
            var behind := Sub16(st.lastSeq, sn);
            Marked(st'.ackBits, d) <==>
            if IsSeqNewer(sn, st.lastSeq)
            then ahead < 32 && (d == ahead || (d > ahead && Marked(st.ackBits, d - ahead)))
            else Marked(st.ackBits, d) || behind == d
  {
    ZeroHasNoBit(d - 1);
    if IsSeqNewer(sn, st.lastSeq) {
      var ahead := Sub16(sn, st.lastSeq);
      if ahead < 32 {
        SetBit(ShiftLeft32(st.ackBits, ahead), ahead - 1, d - 1);
        ShiftLeftBit(st.ackBits, ahead, d - 1);
      }
    } else {
      var behind := Sub16(st.lastSeq, sn);
      if 1 <= behind <= 32 { SetBit(st.ackBits, behind - 1, d - 1); }
    }
  }

  lemma IsSeqAckedBits(sn: U16, ack: U16, ackBits: U32)
    ensures IsSeqAcked(sn, ack, ackBits) <==>
            sn == ack || exists d :: Marked(ackBits, d) && sn == Sub16(ack, d)
  {
    if IsSeqAcked(sn, ack, ackBits) && sn != ack {
      var d := Signed16(Sub16(ack, sn));
      MaskTestsBit(ackBits, d - 1);
      WireBack(sn, ack, d);
      assert Marked(ackBits, d) && sn == Sub16(ack, d);
    }
    if d :| Marked(ackBits, d) && sn == Sub16(ack, d) {
      WireBack(sn, ack, d);
      MaskTestsBit(ackBits, d - 1);
    }
  }

  lemma WireBack(sn: U16, ack: U16, d: int)
    requires 1 <= d <= 32
    ensures sn == Sub16(ack, d) <==> Signed16(Sub16(ack, sn)) == d
    ensures sn == Sub16(ack, d) <==> Sub16(ack, sn) == d
  {
  }

  // --------------------------------------------------- what the window remembers

  /**
    The numbers that reached the handler, in order, and two facts about them.
    `forgotten` says that the number 32 before the newest was itself the newest when
    a packet exactly 32 ahead of it was accepted, and was not accepted again since.
   */
  datatype History = History(log: seq<int>, newest: int, forgotten: bool)

  const NOTHING := History([], 0, false)

  function Note(h: History, n: int): History {
    if h.log == [] then History([n], n, false)
    else if n > h.newest then History(h.log + [n], n, n == h.newest + 32)
    else History(h.log + [n], h.newest, h.forgotten && n != h.newest - 32)
  }

  ghost predicate NewestIsMax(h: History) {
    && (h.log == [] ==> h == NOTHING)
    && (h.log != [] ==> h.newest in h.log)
    && (forall x :: x in h.log ==> x <= h.newest)
    && (h.forgotten ==> h.newest - 32 in h.log)
  }

  /** The number `d` before the newest was accepted, and at distance 32 not forgotten. */
  ghost predicate Remembered(h: History, d: int) {
    h.newest - d in h.log && (d == 32 ==> !h.forgotten)
  }

  /** The window is exact at distances 1 to 31, and at 32 unless that number was forgotten. */
  ghost predicate Tracks(st: ReceiveState, h: History) {
    && (st.hasLastSeq <==> h.log != [])
    && (h.log != [] ==> st.lastSeq == Wire(h.newest))
    && (h.log != [] ==> forall d :: 1 <= d <= 32 ==> (Marked(st.ackBits, d) <==> Remembered(h, d)))
  }

  /** Number `n` is less than half the sequence space from the newest accepted one. */
  ghost predicate InRange(h: History, n: int) {
    h.log != [] ==> -0x8000 <= n - h.newest < 0x8000
  }

  /** Half the space ahead is included: such a number is dropped as old, which harms nothing. */
  ghost predicate InReach(h: History, n: int) {
    h.log != [] ==> -0x8000 <= n - h.newest <= 0x8000
  }

  /** Which numbers are accepted, with no reference to bits or wire numbers. */
  ghost predicate Wanted(h: History, n: int) {
    || h.log == []
    || n > h.newest
    || (n >= h.newest - 32 && n !in h.log)
    || (n == h.newest - 32 && h.forgotten)
  }

  lemma HasReceivedBits(st: ReceiveState, m: int, n: int)
    requires st.hasLastSeq && st.lastSeq == Wire(m) && 0 < m - n <= 0x8000
    ensures Sub16(st.lastSeq, Wire(n)) == m - n
    ensures HasReceived(st, Wire(n)) <==> Marked(st.ackBits, m - n)
  {
    SerialComparison(n, m);
    WireDistance(n, m);
    if m - n <= 32 { MaskTestsBit(st.ackBits, m - n - 1); }
  }

  /** The filter on wire numbers accepts exactly the wanted numbers. */
  lemma ClassifyExactly(st: ReceiveState, h: History, n: int)
    requires NewestIsMax(h) && Tracks(st, h) && InRange(h, n)
    ensures Classify(st, Wire(n)).Deliver? <==> Wanted(h, n)
  {
    if h.log != [] {
      SerialComparison(n, h.newest);
      if n < h.newest {
        HasReceivedBits(st, h.newest, n);
        assert h.newest - (h.newest - n) == n;
      }
    }
  }

  /** The update seen through numbers: a newer one shifts the marks, a late one adds its own. */
  lemma MarkedAfter(st: ReceiveState, m: int, n: int, d: int)
    requires st.hasLastSeq && st.lastSeq == Wire(m) && 1 <= d <= 32
    requires -32 <= n - m < 0x8000 && n != m
    ensures var st' := UpdateReceiveState(st, Wire(n));
            && st'.hasLastSeq && st'.lastSeq == Wire(if n > m then n else m)
            && (Marked(st'.ackBits, d) <==>
                if n > m
                then n - m < 32 && (d == n - m || Marked(st.ackBits, d - (n - m)))
                else Marked(st.ackBits, d) || m - n == d)
  {
    SerialComparison(n, m);
    UpdateBits(st, Wire(n), d);
  }

  lemma RememberedAfter(h: History, n: int, d: int)
    requires NewestIsMax(h) && h.log != [] && n >= h.newest - 32 && n != h.newest && 1 <= d <= 32
    ensures Remembered(Note(h, n), d) <==>
            if n > h.newest
            then n - h.newest < 32 && (d == n - h.newest || (d > n - h.newest && Remembered(h, d - (n - h.newest))))
            else Remembered(h, d) || h.newest - n == d
  {
    var x := Note(h, n).newest - d;
    assert x in h.log + [n] <==> x in h.log || x == n;
    if n > h.newest { assert x == h.newest - (d - (n - h.newest)); }
  }

  lemma TracksArrival(st: ReceiveState, h: History, n: int)
    requires NewestIsMax(h) && Tracks(st, h) && InRange(h, n) && Wanted(h, n)
    ensures Tracks(UpdateReceiveState(st, Wire(n)), Note(h, n))
  {
    var st' := UpdateReceiveState(st, Wire(n));
    forall d | 1 <= d <= 32 ensures Marked(st'.ackBits, d) <==> Remembered(Note(h, n), d) {
      if h.log == [] {
        ZeroHasNoBit(d - 1);
      } else {
        MarkedAfter(st, h.newest, n, d);
        RememberedAfter(h, n, d);
      }
    }
    if h.log != [] { MarkedAfter(st, h.newest, n, 1); }
  }

  // ----------------------------------------------------------------- whole runs

  datatype Receiver = Receiver(st: ReceiveState, heard: History)

  function Take(r: Receiver, n: int): Receiver {
    if Classify(r.st, Wire(n)).Deliver?
    then Receiver(UpdateReceiveState(r.st, Wire(n)), Note(r.heard, n))
    else r
  }

  /** The state after packets with these numbers arrived in this order. */
  function Receive(arrivals: seq<int>): Receiver {
    if arrivals == [] then Receiver(EMPTY, NOTHING)
    else Take(Receive(arrivals[..|arrivals| - 1]), arrivals[|arrivals| - 1])
  }

  /** No arrival is more than half the sequence space away from the newest accepted one. */
  ghost predicate Fresh(arrivals: seq<int>) {
    arrivals != [] ==>
      var before := arrivals[..|arrivals| - 1];
      Fresh(before) && InReach(Receive(before).heard, arrivals[|arrivals| - 1])
  }

  /** Number `n` was the newest accepted one when `n + 32` was accepted. */
  ghost predicate LeaptOver(log: seq<int>, n: int) {
    exists i :: LeapAt(log, n, i)
  }

  ghost predicate LeapAt(log: seq<int>, n: int, i: int) {
    0 < i < |log| && log[i] == n + 32 && n in log[..i] && forall x :: x in log[..i] ==> x <= n
  }

  /** How often number `n` reached the handler. */
  ghost function Times(log: seq<int>, n: int): nat { multiset(log)[n] }

  ghost predicate AtMostOnceBut32(h: History) {
    && (h.log != [] ==> Times(h.log, h.newest) == 1)
    && (h.forgotten ==> Times(h.log, h.newest - 32) == 1 && LeaptOver(h.log, h.newest - 32))
    && (forall n :: Times(h.log, n) <= 2 && (Times(h.log, n) == 2 ==> LeaptOver(h.log, n)))
  }

  lemma LeaptOverAppend(log: seq<int>, n: int, x: int)
    requires LeaptOver(log, n)
    ensures LeaptOver(log + [x], n)
  {
    var i :| LeapAt(log, n, i);
    assert (log + [x])[..i] == log[..i];
    assert LeapAt(log + [x], n, i);
  }

  lemma TimesAppend(log: seq<int>, n: int, x: int)
    ensures Times(log + [n], x) == Times(log, x) + (if x == n then 1 else 0)
    ensures Times(log, x) == 0 <==> x !in log
  {
  }

  lemma LeapAtEnd(h: History)
    requires NewestIsMax(h) && h.log != []
    ensures LeaptOver(h.log + [h.newest + 32], h.newest)
  {
    var log := h.log + [h.newest + 32];
    assert log[..|h.log|] == h.log;
    assert LeapAt(log, h.newest, |h.log|);
  }

  lemma TimesArrival(h: History, n: int, x: int)
    requires NewestIsMax(h) && AtMostOnceBut32(h) && Wanted(h, n)
    ensures Times(h.log + [n], x) <= 2 && (Times(h.log + [n], x) == 2 ==> LeaptOver(h.log + [n], x))
  {
    TimesAppend(h.log, n, x);
    if LeaptOver(h.log, x) { LeaptOverAppend(h.log, x, n); }
    assert x == n && Times(h.log, x) > 0 ==> LeaptOver(h.log, x) && Times(h.log, x) == 1;
  }

  lemma AtMostOnceArrival(h: History, n: int)
    requires NewestIsMax(h) && AtMostOnceBut32(h) && Wanted(h, n)
    ensures AtMostOnceBut32(Note(h, n))
  {
    var h' := Note(h, n);
    assert h'.log == h.log + [n];
    TimesAppend(h.log, n, h'.newest);
    forall x ensures Times(h'.log, x) <= 2 && (Times(h'.log, x) == 2 ==> LeaptOver(h'.log, x)) {
      TimesArrival(h, n, x);
    }
    if h'.forgotten {
      TimesAppend(h.log, n, h'.newest - 32);
      if n > h.newest { LeapAtEnd(h); } else { LeaptOverAppend(h.log, h.newest - 32, n); }
    }
  }

  /**
    Exactness and at-most-once delivery for every arrival sequence: losses,
    duplicates and any reordering are allowed.  A number reaches the handler at
    most once, except one that was the newest when a packet exactly 32 ahead of it
    was accepted, and that one at most twice.
   */
  lemma {:induction false} WindowTheorem(arrivals: seq<int>)
    requires Fresh(arrivals)
    ensures var r := Receive(arrivals);
            NewestIsMax(r.heard) && Tracks(r.st, r.heard) && AtMostOnceBut32(r.heard)
  {
    if arrivals == [] {
    } else {
      var before, n := arrivals[..|arrivals| - 1], arrivals[|arrivals| - 1];
      WindowTheorem(before);
      WindowStep(Receive(before), n);
    }
  }

  lemma WindowStep(r: Receiver, n: int)
    requires NewestIsMax(r.heard) && Tracks(r.st, r.heard) && AtMostOnceBut32(r.heard)
    requires InReach(r.heard, n)
    ensures var r' := Take(r, n);
            NewestIsMax(r'.heard) && Tracks(r'.st, r'.heard) && AtMostOnceBut32(r'.heard)
  {
    if InRange(r.heard, n) {
      ClassifyExactly(r.st, r.heard, n);
      if Wanted(r.heard, n) {
        TracksArrival(r.st, r.heard, n);
        AtMostOnceArrival(r.heard, n);
        NewestStaysMax(r.heard, n);
      }
    } else {
      HalfAheadIsOld(r.st, r.heard.newest);
    }
  }

  lemma HalfAheadIsOld(st: ReceiveState, m: int)
    requires st.hasLastSeq && st.lastSeq == Wire(m)
    ensures Classify(st, Wire(m + 0x8000)).Old?
  {
    WireDistance(m + 0x8000, m);
  }

  lemma NewestStaysMax(h: History, n: int)
    requires NewestIsMax(h)
    ensures NewestIsMax(Note(h, n))
  {
    var h' := Note(h, n);
    assert forall x :: x in h'.log <==> x in h.log || x == n;
  }

  /** The exception is real: 1, 33, 1 delivers number 1 twice. */
  lemma RedeliveryHappens()
    ensures Fresh([1, 33, 1]) && Receive([1, 33, 1]).heard.log == [1, 33, 1]
  {
    var a, b := [1], [1, 33];
    assert a[..0] == [] && b[..1] == a && [1, 33, 1][..2] == b;
    assert Receive(a) == Take(Receive([]), 1);
    assert Receive(b) == Take(Receive(a), 33);
    var st := Receive(b).st;
    assert st.ackBits == 0 && st.lastSeq == 33;
    MaskTestsBit(0, 31);
    ZeroHasNoBit(31);
    assert !HasReceived(st, 1);
  }

  // ------------------------------------- soundness with no freshness assumption

  /** Some accepted packet carried sequence number `s`. */
  ghost predicate Heard(log: seq<int>, s: U16) {
    exists i :: 0 <= i < |log| && Wire(log[i]) == s
  }

  /** Every number the window claims was carried by some accepted packet. */
  ghost predicate ClaimsOnlyHeard(st: ReceiveState, log: seq<int>) {
    && (st.hasLastSeq ==> Heard(log, st.lastSeq))
    && (st.hasLastSeq ==>
          forall d :: Marked(st.ackBits, d) ==> Heard(log, Sub16(st.lastSeq, d)))
  }

  lemma HeardGrows(log: seq<int>, s: U16, n: int)
    ensures Heard(log, s) ==> Heard(log + [n], s)
    ensures Heard(log + [n], Wire(n))
  {
    assert (log + [n])[|log|] == n;
    if Heard(log, s) {
      var i :| 0 <= i < |log| && Wire(log[i]) == s;
      assert (log + [n])[i] == log[i];
    }
  }

  lemma ClaimStaysSound(st: ReceiveState, log: seq<int>, n: int, d: int)
    requires ClaimsOnlyHeard(st, log) && Marked(UpdateReceiveState(st, Wire(n)).ackBits, d)
    ensures Heard(log + [n], Sub16(UpdateReceiveState(st, Wire(n)).lastSeq, d))
  {
    var sn := Wire(n);
    HeardGrows(log, st.lastSeq, n);
    if !st.hasLastSeq {
      ZeroHasNoBit(d - 1);
    } else {
      UpdateBits(st, sn, d);
      if IsSeqNewer(sn, st.lastSeq) {
        var ahead := Sub16(sn, st.lastSeq);
        if d > ahead { HeardGrows(log, Sub16(st.lastSeq, d - ahead), n); }
      } else if Marked(st.ackBits, d) {
        HeardGrows(log, Sub16(st.lastSeq, d), n);
      }
    }
  }

  lemma ClaimsStaySound(st: ReceiveState, log: seq<int>, n: int)
    requires ClaimsOnlyHeard(st, log)
    ensures ClaimsOnlyHeard(UpdateReceiveState(st, Wire(n)), log + [n])
  {
    var st' := UpdateReceiveState(st, Wire(n));
    HeardGrows(log, st.lastSeq, n);
    forall d | Marked(st'.ackBits, d) ensures Heard(log + [n], Sub16(st'.lastSeq, d)) {
      ClaimStaysSound(st, log, n, d);
    }
  }

  /**
    Acknowledgement soundness at the receiver, for every arrival sequence
    whatsoever, stale packets and wrap-around included.
   */
  lemma {:induction false} ClaimsTheorem(arrivals: seq<int>)
    ensures var r := Receive(arrivals); ClaimsOnlyHeard(r.st, r.heard.log)
  {
    if arrivals != [] {
      var before, n := arrivals[..|arrivals| - 1], arrivals[|arrivals| - 1];
      ClaimsTheorem(before);
      ClaimsStaySound(Receive(before).st, Receive(before).heard.log, n);
    }
  }
}
