/**
  The client's snapshot decoder, and how close the decoded states are to the server's.

  The network may drop snapshots.  What is required of delivery is only that snapshots arrive
  in order and that a delta arrives after the keyframe it is based on.
 */
module SnapshotDecoding {
  import opened Collections
  import opened MachineWords
  import opened PongPhysics
  import opened DeltaCodec
  import opened Snapshots

  /** `None` is the exception for a missing base or a short payload. */
  function Decode(history: seq<WorldState>, snap: Snapshot, c: Codec): Option<WorldState> {
    if snap.isKeyframe then c.readKeyframe(snap.payload, snap.tick)
    else match FindState(history, snap.baseTick)
      case None => None
      case Some(base) => c.applyDelta(base, snap.payload, snap.tick)
  }

  class SnapshotDecoder {
    const size: nat
    var history: seq<WorldState>

    constructor (size: nat)
      ensures this.size == size && history == []
    {
      this.size, history := size, [];
    }

    method Find(tick: nat) returns (r: Option<WorldState>)
      ensures r == FindState(history, tick)
    {
      for i := 0 to |history|
        invariant FindState(history[i..], tick) == FindState(history, tick)
      {
        assert history[i..][1..] == history[i + 1..];
        if history[i].tick == tick {
          return Some(history[i]);
        }
      }
      return None;
    }

    method Apply(snap: Snapshot, f: F32) returns (r: Option<WorldState>)
      modifies this
      ensures r == Decode(old(history), snap, CodecOf(f))
      ensures history == if r.Some? then KeepLast(old(history) + [r.value], size) else old(history)
    {
      if snap.isKeyframe {
        r := ReadState(snap.payload, snap.tick, f);
      } else {
        var base := Find(snap.baseTick);
        if base.None? {
          return None;
        }
        r := ReadDelta(base.value, snap.payload, snap.tick, f);
      }
      if r.Some? {
        StoreState(r.value);
      }
    }

    method StoreState(s: WorldState)
      modifies this
      ensures history == KeepLast(old(history) + [s], size)
    {
      history := PopFront(history + [s], size);
    }
  }

  // --------------------------------------------------------------- decoding a run

  /** The decoder's history and everything it returned, after the snapshots for ticks `ts`; `None` if one threw. */
  function DecodeRun(ts: seq<nat>, broadcasts: seq<Snapshot>, size: nat, c: Codec)
    : Option<(seq<WorldState>, seq<WorldState>)>
    requires forall j :: 0 <= j < |ts| ==> 1 <= ts[j] <= |broadcasts|
  {
    if ts == [] then Some(([], []))
    else
      match DecodeRun(ts[..|ts| - 1], broadcasts, size, c)
      case None => None
      case Some((history, out)) =>
        match Decode(history, broadcasts[ts[|ts| - 1] - 1], c)
        case None => None
        case Some(s) => Some((KeepLast(history + [s], size), out + [s]))
  }

  /** Up to this period a score change fits its 16-bit field. */
  const SCORE_PERIOD := 0x8000

  ghost predicate InOrder(ts: seq<nat>, n: nat) {
    && (forall j :: 0 <= j < |ts| ==> 1 <= ts[j] <= n)
    && (forall i, j :: 0 <= i < j < |ts| ==> ts[i] < ts[j])
  }

  /** Ticks of delivered snapshots: in order, each delta's keyframe among them. */
  ghost predicate Delivered(ts: seq<nat>, n: nat, e: Period) {
    InOrder(ts, n) && forall j :: 0 <= j < |ts| ==> HasKey(ts, j, e)
  }

  /** The keyframe of the snapshot at position `j` is there too, no later. */
  ghost predicate HasKey(ts: seq<nat>, j: nat, e: Period) {
    j < |ts| && ts[j] >= 1 && exists i :: 0 <= i <= j && ts[i] == KeyTick(ts[j], e)
  }

  /** Storing as a float moves a double of the simulation's size by at most `eps`. */
  ghost predicate Rounds(f: F32, eps: real) {
    eps >= 0.0 && forall x: real :: -2048.0 <= x <= 2048.0 ==> -eps <= f.Round(x) - x <= eps
  }

  ghost predicate Close(xs: seq<real>, ys: seq<real>, eps: real) {
    |xs| == |ys| && forall i :: 0 <= i < |xs| ==> -eps <= xs[i] - ys[i] <= eps
  }

  /** Scores, directions and tick are exact; positions and velocities within two roundings, one for a keyframe. */
  ghost predicate Faithful(d: WorldState, s: WorldState, f: F32, eps: real, e: Period) {
    && s.tick >= 1 && d.tick == s.tick && d.leftScore == s.leftScore && d.rightScore == s.rightScore
    && d.leftDirection == s.leftDirection && d.rightDirection == s.rightDirection
    && Close(Motion(d), Motion(s), 2.0 * eps)
    && (KeyTick(s.tick, e) == s.tick ==> Motion(d) == Rounded(Motion(s), f))
  }

  ghost predicate AllFaithful(out: seq<WorldState>, ts: seq<nat>, states: seq<WorldState>, f: F32, eps: real,
                              e: Period) {
    && |out| == |ts|
    && forall j :: 0 <= j < |ts| ==>
            1 <= ts[j] <= |states| && out[j].tick == ts[j] && Faithful(out[j], states[ts[j] - 1], f, eps, e)
  }

  // ------------------------------------------------------------------------ bounds

  ghost predicate InBox(xs: seq<real>, b: real) { forall i :: 0 <= i < |xs| ==> -b <= xs[i] <= b }

  lemma StrictSquares(a: real, b: real)
    requires a > b >= 0.0
    ensures a * a > b * b
  {
    Product(a, a - b);
    Product(b, a - b);
    var d := a - b;
    assert a * d > 0.0 && b * d >= 0.0;
    assert a * d + b * d == a * a - b * b;
  }

  lemma VelocityBound(v: real, w: real, speed: real)
    requires speed >= 0.0 && v * v + w * w == speed * speed
    ensures -speed <= v <= speed
  {
    Square(w);
    Square(v);
    assert v > speed ==> v * v > speed * speed by {
      if v > speed { StrictSquares(v, speed); }
    }
    assert -v > speed ==> v * v > speed * speed by {
      if -v > speed { StrictSquares(-v, speed); }
    }
  }

  /** Every coordinate and velocity of the run is small enough for the rounding bound. */
  ghost predicate AllInBox(states: seq<WorldState>) {
    forall i :: 0 <= i < |states| ==> InBox(Motion(states[i]), 1024.0) && DirectionsFit(states[i])
  }

  lemma RunInBox(states: seq<WorldState>)
    requires AllOk(states)
    ensures AllInBox(states)
  {
    forall i | 0 <= i < |states| ensures InBox(Motion(states[i]), 1024.0) && DirectionsFit(states[i]) {
      MotionInBox(states[i]);
    }
  }

  lemma MotionInBox(s: WorldState)
    requires WorldOk(s, DEFAULT)
    ensures InBox(Motion(s), 1024.0)
  {
    VelocityBound(s.ballVx, s.ballVy, DEFAULT.ballSpeed);
    VelocityBound(s.ballVy, s.ballVx, DEFAULT.ballSpeed);
  }

  /** One rounding for the base and one for the difference, however long ago the base was. */
  lemma TwoRoundings(bs: seq<real>, xs: seq<real>, f: F32, eps: real)
    requires |bs| == |xs| && InBox(bs, 1024.0) && InBox(xs, 1024.0) && Rounds(f, eps)
    ensures Close(Plus(Rounded(bs, f), Rounded(Minus(xs, bs), f)), xs, 2.0 * eps)
  {
    forall i | 0 <= i < |xs|
      ensures -2.0 * eps <= Plus(Rounded(bs, f), Rounded(Minus(xs, bs), f))[i] - xs[i] <= 2.0 * eps
    {
      var d := xs[i] - bs[i];
      assert -2048.0 <= d <= 2048.0;
      assert -eps <= f.Round(bs[i]) - bs[i] <= eps && -eps <= f.Round(d) - d <= eps;
    }
  }

  lemma OneRounding(xs: seq<real>, f: F32, eps: real)
    requires InBox(xs, 1024.0) && Rounds(f, eps)
    ensures Close(Rounded(xs, f), xs, 2.0 * eps)
  {
    forall i | 0 <= i < |xs| ensures -2.0 * eps <= Rounded(xs, f)[i] - xs[i] <= 2.0 * eps {
      assert -eps <= f.Round(xs[i]) - xs[i] <= eps;
    }
  }

  /** At most one point per tick. */
  lemma {:induction false} PointsGained(states: seq<WorldState>, i: nat, j: nat) returns (l: nat, r: nat)
    requires PointByPoint(states) && i <= j < |states|
    ensures l <= j - i && states[j].leftScore == (states[i].leftScore + l) % TWO_32
    ensures r <= j - i && states[j].rightScore == (states[i].rightScore + r) % TWO_32
    decreases j
  {
    if i == j {
      l, r := 0, 0;
    } else {
      var l0, r0 := PointsGained(states, i, j - 1);
      assert OnePoint(states[j - 1], states[j]);
      l := if states[j].leftScore == states[j - 1].leftScore then l0 else l0 + 1;
      r := if states[j].rightScore == states[j - 1].rightScore then r0 else r0 + 1;
      BumpMod(states[i].leftScore, l0);
      BumpMod(states[i].rightScore, r0);
    }
  }

  lemma BumpMod(a: U32, n: nat)
    ensures ((a + n) % TWO_32 + 1) % TWO_32 == (a + n + 1) % TWO_32
  {
  }

  // -------------------------------------------------------------------- one snapshot

  lemma DecodeKeySnapshot(states: seq<WorldState>, history: seq<WorldState>, t: nat, c: Codec, f: F32, eps: real,
                          e: Period) returns (d: WorldState)
    requires Timeline(states) && AllInBox(states) && 1 <= t <= |states| && KeyTick(t, e) == t && Implements(c, f) &&
            Rounds(f, eps)
    ensures Decode(history, ExpectedBroadcast(states, t, c, e), c) == Some(d) && Faithful(d, states[t - 1], f, eps, e)
  {
    var s := states[t - 1];
    d := KeyImage(s, t, f);
    assert c.readKeyframe(c.keyframe(s), t) == Some(d);
    OneRounding(Motion(s), f, eps);
    MotionOfParts(Rounded(Motion(s), f), s.leftScore, s.rightScore, t, s.leftDirection, s.rightDirection);
  }

  lemma MotionOfParts(xs: seq<real>, l: U32, r: U32, tick: nat, dl: int, dr: int)
    requires |xs| == 6
    ensures Motion(FromParts(xs, l, r, tick, dl, dr)) == xs
  {
  }

  /** What a delta needs of its base: the scores, and each double rounded once. */
  ghost predicate ExactBase(d: WorldState, s: WorldState, f: F32) {
    d.leftScore == s.leftScore && d.rightScore == s.rightScore && Motion(d) == Rounded(Motion(s), f)
  }

  /** The 16-bit score changes from `b` to `s` give the scores of `s` back. */
  ghost predicate ScoresFit(b: WorldState, s: WorldState) {
    && (b.leftScore + Signed16(Unsigned16(s.leftScore - b.leftScore))) % TWO_32 == s.leftScore
    && (b.rightScore + Signed16(Unsigned16(s.rightScore - b.rightScore))) % TWO_32 == s.rightScore
  }

  lemma ScoresOfRunFit(states: seq<WorldState>, i: nat, j: nat)
    requires PointByPoint(states) && i <= j < |states| && j - i < 0x8000
    ensures ScoresFit(states[i], states[j])
  {
    var l, r := PointsGained(states, i, j);
    ScoreDeltaExact(states[i].leftScore, states[j].leftScore, l);
    ScoreDeltaExact(states[i].rightScore, states[j].rightScore, r);
  }

  lemma DeltaFaithful(b: WorldState, s: WorldState, base: WorldState, f: F32, eps: real, e: Period)
    requires InBox(Motion(b), 1024.0) && InBox(Motion(s), 1024.0) && Rounds(f, eps)
    requires s.tick >= 1 && KeyTick(s.tick, e) != s.tick && ExactBase(base, b, f) && ScoresFit(b, s)
    ensures Faithful(DeltaImage(b, s, base, s.tick, f), s, f, eps, e)
  {
    var ds := Rounded(Minus(Motion(s), Motion(b)), f);
    TwoRoundings(Motion(b), Motion(s), f, eps);
    MotionOfParts(Plus(Motion(base), ds), s.leftScore, s.rightScore, s.tick, s.leftDirection, s.rightDirection);
  }

  lemma DecodeDelta(b: WorldState, s: WorldState, history: seq<WorldState>, base: WorldState, c: Codec, f: F32)
    requires Implements(c, f) && DirectionsFit(s) && FindState(history, b.tick) == Some(base)
    ensures Decode(history, Snapshot(s.tick, b.tick, false, c.delta(b, s)), c)
            == Some(DeltaImage(b, s, base, s.tick, f))
  {
  }

  lemma DecodeDeltaSnapshot(states: seq<WorldState>, history: seq<WorldState>, t: nat, base: WorldState, c: Codec,
                            f: F32, eps: real, e: Period)
    returns (d: WorldState)
    requires Timeline(states) && AllInBox(states) && PointByPoint(states) && Implements(c, f) && Rounds(f, eps)
    requires 1 <= t <= |states| && KeyTick(t, e) < t && e <= SCORE_PERIOD
    requires FindState(history, KeyTick(t, e)) == Some(base) && ExactBase(base, states[KeyTick(t, e) - 1], f)
    ensures Decode(history, ExpectedBroadcast(states, t, c, e), c) == Some(d) && Faithful(d, states[t - 1], f, eps, e)
  {
    var k := KeyTick(t, e);
    StateOfRun(states, k);
    StateOfRun(states, t);
    ScoresOfRunFit(states, k - 1, t - 1);
    d := DecodeDeltaOf(states[k - 1], states[t - 1], history, base, c, f, eps, e);
  }

  lemma StateOfRun(states: seq<WorldState>, t: nat)
    requires Timeline(states) && AllInBox(states) && 1 <= t <= |states|
    ensures states[t - 1].tick == t && InBox(Motion(states[t - 1]), 1024.0) && DirectionsFit(states[t - 1])
  {
  }

  lemma DecodeDeltaOf(b: WorldState, s: WorldState, history: seq<WorldState>, base: WorldState, c: Codec, f: F32,
                      eps: real, e: Period)
    returns (d: WorldState)
    requires InBox(Motion(b), 1024.0) && InBox(Motion(s), 1024.0) && DirectionsFit(s) && ScoresFit(b, s)
    requires s.tick >= 1 && KeyTick(s.tick, e) != s.tick && Implements(c, f) && Rounds(f, eps)
    requires FindState(history, b.tick) == Some(base) && ExactBase(base, b, f)
    ensures Decode(history, Snapshot(s.tick, b.tick, false, c.delta(b, s)), c) == Some(d) && Faithful(d, s, f, eps, e)
  {
    DeltaFaithful(b, s, base, f, eps, e);
    DecodeDelta(b, s, history, base, c, f);
    d := DeltaImage(b, s, base, s.tick, f);
  }

  lemma KeyOfKey(t: nat, e: Period)
    requires t >= 1
    ensures KeyTick(KeyTick(t, e), e) == KeyTick(t, e)
  {
    KeyTickSchedule(t, e);
    KeyTickSchedule(KeyTick(t, e), e);
  }

  // ------------------------------------------------------------------------ the run

  lemma {:induction false} FindIncreasing(h: seq<WorldState>, i: nat)
    requires Increasing(h) && i < |h|
    ensures FindState(h, h[i].tick) == Some(h[i])
  {
    if i > 0 {
      assert h[0].tick < h[i].tick;
      assert h[1..][i - 1] == h[i];
      FindIncreasing(h[1..], i - 1);
    }
  }

  lemma {:induction false} Spread(h: seq<WorldState>, i: nat, j: nat)
    requires Increasing(h) && i <= j < |h|
    ensures h[j].tick - h[i].tick >= j - i
    decreases j
  {
    if i < j { Spread(h, i, j - 1); }
  }

  lemma FindInSuffix(h: seq<WorldState>, from: nat, i: nat)
    requires Increasing(h) && from <= i < |h|
    ensures FindState(h[from..], h[i].tick) == Some(h[i])
  {
    assert h[from..][i - from] == h[i];
    FindIncreasing(h[from..], i - from);
  }

  /** A base fewer than `e` ticks back is still in a history of at least `e - 1`. */
  lemma BaseStillThere(out: seq<WorldState>, i: nat, t: nat, size: nat, e: Period)
    requires Increasing(out) && i < |out| && size + 1 >= e
    requires out[|out| - 1].tick < t && t - out[i].tick < e
    ensures FindState(KeepLast(out, size), out[i].tick) == Some(out[i])
  {
    Spread(out, i, |out| - 1);
    var from := if |out| > size then |out| - size else 0;
    assert KeepLast(out, size) == out[from..];
    FindInSuffix(out, from, i);
  }

  lemma DeliveredPrefix(ts: seq<nat>, n: nat, e: Period)
    requires Delivered(ts, n, e) && ts != []
    ensures Delivered(ts[..|ts| - 1], n, e)
  {
    var init := ts[..|ts| - 1];
    forall j | 0 <= j < |init| ensures HasKey(init, j, e) {
      assert HasKey(ts, j, e);
      var i :| 0 <= i <= j && ts[i] == KeyTick(ts[j], e);
      assert init[i] == KeyTick(init[j], e);
    }
  }

  /**
    However long the run and whatever was lost: every delivered snapshot decodes, with exact
    scores, directions and tick, and with positions and velocities within two roundings.
   */
  lemma {:induction false} DecoderTheorem(ts: seq<nat>, states: seq<WorldState>, broadcasts: seq<Snapshot>, size: nat,
                                          c: Codec, f: F32, eps: real, e: Period)
    requires Timeline(states) && AllInBox(states) && PointByPoint(states) && BroadcastsOk(states, broadcasts, c, e)
    requires Delivered(ts, |states|, e) && size + 1 >= e && e <= SCORE_PERIOD
    requires Implements(c, f) && Rounds(f, eps)
    ensures var r := DecodeRun(ts, broadcasts, size, c);
            && r.Some? && r.value.0 == KeepLast(r.value.1, size)
            && AllFaithful(r.value.1, ts, states, f, eps, e)
  {
    if ts != [] {
      var init := ts[..|ts| - 1];
      DeliveredPrefix(ts, |states|, e);
      DecoderTheorem(init, states, broadcasts, size, c, f, eps, e);
      var (history, out) := DecodeRun(init, broadcasts, size, c).value;
      var s := DecodeMore(ts, states, broadcasts, history, out, size, c, f, eps, e);
    }
  }

  lemma DecodeMore(ts: seq<nat>, states: seq<WorldState>, broadcasts: seq<Snapshot>, history: seq<WorldState>,
                   out: seq<WorldState>, size: nat, c: Codec, f: F32, eps: real, e: Period) returns (s: WorldState)
    requires Timeline(states) && AllInBox(states) && PointByPoint(states) && BroadcastsOk(states, broadcasts, c, e)
    requires Delivered(ts, |states|, e) && ts != [] && size + 1 >= e && e <= SCORE_PERIOD
    requires Implements(c, f) && Rounds(f, eps)
    requires history == KeepLast(out, size) && AllFaithful(out, ts[..|ts| - 1], states, f, eps, e)
    ensures Decode(history, broadcasts[ts[|ts| - 1] - 1], c) == Some(s)
    ensures KeepLast(history + [s], size) == KeepLast(out + [s], size)
    ensures AllFaithful(out + [s], ts, states, f, eps, e)
  {
    var init, t := ts[..|ts| - 1], ts[|ts| - 1];
    assert ts == init + [t];
    var base := BaseIsThere(ts, states, out, size, f, eps, e);
    s := DecodeNext(states, history, t, base, c, f, eps, e);
    assert broadcasts[t - 1] == ExpectedBroadcast(states, t, c, e);
    KeepLastTwice(out, s, size);
    AllFaithfulGrows(out, init, states, f, eps, s, t, e);
  }

  lemma AllFaithfulGrows(out: seq<WorldState>, ts: seq<nat>, states: seq<WorldState>, f: F32, eps: real, s: WorldState,
                         t: nat, e: Period)
    requires AllFaithful(out, ts, states, f, eps, e) && Timeline(states)
    requires 1 <= t <= |states| && Faithful(s, states[t - 1], f, eps, e)
    ensures AllFaithful(out + [s], ts + [t], states, f, eps, e)
  {
  }

  lemma DecodeNext(states: seq<WorldState>, history: seq<WorldState>, t: nat, base: WorldState, c: Codec, f: F32,
                   eps: real, e: Period)
    returns (d: WorldState)
    requires Timeline(states) && AllInBox(states) && PointByPoint(states) && Implements(c, f) && Rounds(f, eps)
    requires 1 <= t <= |states|
    requires e <= SCORE_PERIOD
    requires KeyTick(t, e) < t ==>
            FindState(history, KeyTick(t, e)) == Some(base) && ExactBase(base, states[KeyTick(t, e) - 1], f)
    ensures Decode(history, ExpectedBroadcast(states, t, c, e), c) == Some(d) && Faithful(d, states[t - 1], f, eps, e)
  {
    if KeyTick(t, e) == t {
      d := DecodeKeySnapshot(states, history, t, c, f, eps, e);
    } else {
      d := DecodeDeltaSnapshot(states, history, t, base, c, f, eps, e);
    }
  }

  /** The keyframe of the last delivered snapshot, a delta, was delivered earlier and fewer than 20 ticks ago. */
  lemma KeyDelivered(ts: seq<nat>, n: nat, e: Period) returns (i: nat)
    requires Delivered(ts, n, e) && ts != [] && KeyTick(ts[|ts| - 1], e) < ts[|ts| - 1]
    ensures i < |ts| - 1 && ts[i] == KeyTick(ts[|ts| - 1], e) && ts[|ts| - 1] - ts[i] < e
  {
    assert HasKey(ts, |ts| - 1, e);
    i :| 0 <= i <= |ts| - 1 && ts[i] == KeyTick(ts[|ts| - 1], e);
  }

  /** What was decoded from the snapshots before the last has their ticks, so it is in order and earlier. */
  lemma DecodedInOrder(ts: seq<nat>, states: seq<WorldState>, out: seq<WorldState>, f: F32, eps: real, e: Period)
    requires Delivered(ts, |states|, e) && |ts| > 1 && AllFaithful(out, ts[..|ts| - 1], states, f, eps, e)
    ensures Increasing(out) && |out| == |ts| - 1 && out[|out| - 1].tick < ts[|ts| - 1]
  {
    var init := ts[..|ts| - 1];
    forall i | 0 <= i < |out| ensures out[i].tick == ts[i] {
      assert init[i] == ts[i];
    }
  }

  lemma KeyIsExactBase(d: WorldState, s: WorldState, t: nat, f: F32, eps: real, e: Period)
    requires t >= 1 && s.tick == KeyTick(t, e) && Faithful(d, s, f, eps, e)
    ensures ExactBase(d, s, f)
  {
    KeyOfKey(t, e);
  }

  lemma DecodedEarlier(ts: seq<nat>, states: seq<WorldState>, out: seq<WorldState>, size: nat, f: F32, eps: real,
                       i: nat, e: Period)
    requires Delivered(ts, |states|, e) && i < |ts| - 1 && size + 1 >= e && ts[|ts| - 1] - ts[i] < e
    requires AllFaithful(out, ts[..|ts| - 1], states, f, eps, e)
    ensures i < |out| && 1 <= ts[i] <= |states|
    ensures FindState(KeepLast(out, size), ts[i]) == Some(out[i]) && Faithful(out[i], states[ts[i] - 1], f, eps, e)
  {
    DecodedInOrder(ts, states, out, f, eps, e);
    assert ts[..|ts| - 1][i] == ts[i];
    FaithfulAt(out, ts[..|ts| - 1], states, f, eps, i, e);
    BaseStillThere(out, i, ts[|ts| - 1], size, e);
  }

  lemma BaseIsThere(ts: seq<nat>, states: seq<WorldState>, out: seq<WorldState>, size: nat, f: F32, eps: real,
                    e: Period)
    returns (base: WorldState)
    requires Timeline(states) && Delivered(ts, |states|, e) && ts != [] && size + 1 >= e
    requires AllFaithful(out, ts[..|ts| - 1], states, f, eps, e)
    ensures var t := ts[|ts| - 1]; var k := KeyTick(t, e);
            k < t ==> FindState(KeepLast(out, size), k) == Some(base) && ExactBase(base, states[k - 1], f)
  {
    var t := ts[|ts| - 1];
    if KeyTick(t, e) == t {
      return states[0];
    }
    var i := KeyDelivered(ts, |states|, e);
    DecodedEarlier(ts, states, out, size, f, eps, i, e);
    base := out[i];
    KeyIsExactBase(base, states[ts[i] - 1], t, f, eps, e);
  }

  lemma FaithfulAt(out: seq<WorldState>, ts: seq<nat>, states: seq<WorldState>, f: F32, eps: real, i: nat, e: Period)
    requires AllFaithful(out, ts, states, f, eps, e) && i < |ts|
    ensures 1 <= ts[i] <= |states| && out[i].tick == ts[i] && Faithful(out[i], states[ts[i] - 1], f, eps, e)
  {
  }

  /** Decoding gave the right tick to everything it returned. */
  ghost predicate TicksAre(out: seq<WorldState>, ts: seq<nat>) {
    |out| == |ts| && forall j :: 0 <= j < |ts| ==> out[j].tick == ts[j]
  }

  lemma {:induction false} FoundSomewhere(h: seq<WorldState>, tick: nat) returns (i: nat)
    requires FindState(h, tick).Some?
    ensures i < |h| && h[i].tick == tick
  {
    if h[0].tick == tick {
      i := 0;
    } else {
      var j := FoundSomewhere(h[1..], tick);
      i := j + 1;
    }
  }

  /** A base that is found was decoded from a snapshot delivered earlier. */
  lemma BaseWasDelivered(ts: seq<nat>, out: seq<WorldState>, size: nat, tick: nat) returns (i: nat)
    requires TicksAre(out, ts) && FindState(KeepLast(out, size), tick).Some?
    ensures i < |ts| && ts[i] == tick
  {
    var j := FoundSomewhere(KeepLast(out, size), tick);
    i := if |out| > size then |out| - size + j else j;
    assert KeepLast(out, size)[j] == out[i];
  }

  /** A delta is refused unless its base is found. */
  lemma RefusedWithoutBase(history: seq<WorldState>, states: seq<WorldState>, t: nat, c: Codec, e: Period)
    requires 1 <= t <= |states| && KeyTick(t, e) < t
    requires Decode(history, ExpectedBroadcast(states, t, c, e), c).Some?
    ensures FindState(history, KeyTick(t, e)).Some?
  {
  }

  lemma DeliveredGrows(ts: seq<nat>, n: nat, i: nat, e: Period)
    requires ts != [] && InOrder(ts, n) && Delivered(ts[..|ts| - 1], n, e)
    requires i < |ts| && ts[i] == KeyTick(ts[|ts| - 1], e)
    ensures Delivered(ts, n, e)
  {
    var init := ts[..|ts| - 1];
    forall j | 0 <= j < |ts| ensures HasKey(ts, j, e) {
      if j < |init| {
        assert HasKey(init, j, e);
        var k :| 0 <= k <= j && init[k] == KeyTick(init[j], e);
        assert ts[k] == KeyTick(ts[j], e);
      }
    }
  }

  lemma InOrderPrefix(ts: seq<nat>, n: nat)
    requires InOrder(ts, n) && ts != []
    ensures InOrder(ts[..|ts| - 1], n)
  {
  }

  lemma FaithfulTicks(out: seq<WorldState>, ts: seq<nat>, states: seq<WorldState>, f: F32, eps: real, e: Period)
    requires AllFaithful(out, ts, states, f, eps, e)
    ensures TicksAre(out, ts)
  {
  }

  /** The last snapshot decodes only if it is a keyframe or its keyframe was delivered. */
  lemma LastNeedsKey(ts: seq<nat>, states: seq<WorldState>, out: seq<WorldState>, size: nat, c: Codec, e: Period)
    returns (i: nat)
    requires ts != [] && InOrder(ts, |states|) && TicksAre(out, ts[..|ts| - 1])
    requires Decode(KeepLast(out, size), ExpectedBroadcast(states, ts[|ts| - 1], c, e), c).Some?
    ensures i < |ts| && ts[i] == KeyTick(ts[|ts| - 1], e)
  {
    var init, t := ts[..|ts| - 1], ts[|ts| - 1];
    if KeyTick(t, e) == t {
      i := |ts| - 1;
    } else {
      RefusedWithoutBase(KeepLast(out, size), states, t, c, e);
      i := BaseWasDelivered(init, out, size, KeyTick(t, e));
      assert init[i] == ts[i];
    }
  }

  /** Whatever decodes without failing had every delta's keyframe delivered before it. */
  lemma {:induction false} DecodedMeansDelivered(ts: seq<nat>, states: seq<WorldState>, broadcasts: seq<Snapshot>,
                                                 size: nat, c: Codec, f: F32, eps: real, e: Period)
    requires Timeline(states) && AllInBox(states) && PointByPoint(states) && BroadcastsOk(states, broadcasts, c, e)
    requires InOrder(ts, |states|) && size + 1 >= e && e <= SCORE_PERIOD
    requires Implements(c, f) && Rounds(f, eps)
    requires DecodeRun(ts, broadcasts, size, c).Some?
    ensures Delivered(ts, |states|, e)
  {
    if ts != [] {
      var init, t := ts[..|ts| - 1], ts[|ts| - 1];
      InOrderPrefix(ts, |states|);
      DecodedMeansDelivered(init, states, broadcasts, size, c, f, eps, e);
      DecoderTheorem(init, states, broadcasts, size, c, f, eps, e);
      var (history, out) := DecodeRun(init, broadcasts, size, c).value;
      FaithfulTicks(out, init, states, f, eps, e);
      assert broadcasts[t - 1] == ExpectedBroadcast(states, t, c, e);
      var i := LastNeedsKey(ts, states, out, size, c, e);
      DeliveredGrows(ts, |states|, i, e);
    }
  }

  /**
    In-order snapshots decode without failing exactly if each delta's keyframe was delivered
    before it: a delta whose keyframe was lost is refused.
   */
  lemma DecodesExactly(ts: seq<nat>, states: seq<WorldState>, broadcasts: seq<Snapshot>, size: nat, c: Codec, f: F32,
                       eps: real, e: Period)
    requires Timeline(states) && AllInBox(states) && PointByPoint(states) && BroadcastsOk(states, broadcasts, c, e)
    requires InOrder(ts, |states|) && size + 1 >= e && e <= SCORE_PERIOD
    requires Implements(c, f) && Rounds(f, eps)
    ensures DecodeRun(ts, broadcasts, size, c).Some? <==> Delivered(ts, |states|, e)
  {
    if DecodeRun(ts, broadcasts, size, c).Some? {
      DecodedMeansDelivered(ts, states, broadcasts, size, c, f, eps, e);
    }
    if Delivered(ts, |states|, e) {
      DecoderTheorem(ts, states, broadcasts, size, c, f, eps, e);
    }
  }

  /**
    The same for any server run with the byte codec: any snapshots delivered in order decode
    exactly if each delta's keyframe is among them, and are then faithful.
   */
  lemma SynchronisationTheorem(events: seq<ServerEvent>, rooms: bool, serverSize: nat, sqrt: real -> real, f: F32,
                               ts: seq<nat>, size: nat, eps: real)
    requires IsSqrt(sqrt) && serverSize + 1 >= KEYFRAME_INTERVAL && size + 1 >= KEYFRAME_INTERVAL && Rounds(f, eps)
    requires InOrder(ts, |RunServer(events, rooms, serverSize, sqrt, CodecOf(f)).broadcasts|)
    ensures var sv := RunServer(events, rooms, serverSize, sqrt, CodecOf(f));
            var r := DecodeRun(ts, sv.broadcasts, size, CodecOf(f));
            && (r.Some? <==> Delivered(ts, |sv.broadcasts|, KEYFRAME_INTERVAL))
            && (r.Some? ==> AllFaithful(r.value.1, ts, sv.states, f, eps, KEYFRAME_INTERVAL))
  {
    CodecRoundTrips(f);
    ServerInvariant(events, rooms, serverSize, sqrt, CodecOf(f));
    var sv := RunServer(events, rooms, serverSize, sqrt, CodecOf(f));
    RunInBox(sv.states);
    DecodesExactly(ts, sv.states, sv.broadcasts, size, CodecOf(f), f, eps, KEYFRAME_INTERVAL);
    if Delivered(ts, |sv.states|, KEYFRAME_INTERVAL) {
      DecoderTheorem(ts, sv.states, sv.broadcasts, size, CodecOf(f), f, eps, KEYFRAME_INTERVAL);
    }
  }

  // ------------------------------------------------------------------ field by field

  ghost predicate Near(x: real, y: real, eps: real) { -eps <= x - y <= eps }

  /** Scores, directions and tick as they were, and all else within `eps`. */
  ghost predicate TrueTo(d: WorldState, s: WorldState, eps: real) {
    && d.tick == s.tick && d.leftScore == s.leftScore && d.rightScore == s.rightScore
    && d.leftDirection == s.leftDirection && d.rightDirection == s.rightDirection
    && Near(d.ballX, s.ballX, eps) && Near(d.ballY, s.ballY, eps)
    && Near(d.ballVx, s.ballVx, eps) && Near(d.ballVy, s.ballVy, eps)
    && Near(d.leftPaddleY, s.leftPaddleY, eps) && Near(d.rightPaddleY, s.rightPaddleY, eps)
  }

  lemma FaithfulFields(d: WorldState, s: WorldState, f: F32, eps: real, e: Period)
    requires Faithful(d, s, f, eps, e)
    ensures TrueTo(d, s, 2.0 * eps)
  {
    var xs, ys := Motion(d), Motion(s);
    assert forall i :: 0 <= i < 6 ==> Near(xs[i], ys[i], 2.0 * eps);
    assert Near(xs[0], ys[0], 2.0 * eps) && Near(xs[1], ys[1], 2.0 * eps) && Near(xs[2], ys[2], 2.0 * eps);
    assert Near(xs[3], ys[3], 2.0 * eps) && Near(xs[4], ys[4], 2.0 * eps) && Near(xs[5], ys[5], 2.0 * eps);
  }

  /** Each snapshot's keyframe, at most 19 ticks before it, is there too, no later. */
  ghost predicate WithKeyframes(ts: seq<nat>) {
    forall j :: 0 <= j < |ts| ==> ts[j] >= 1 && exists i :: 0 <= i <= j && ts[i] == ts[j] - (ts[j] - 1) % 20
  }

  lemma DeliveredIsWithKeyframes(ts: seq<nat>, n: nat)
    requires InOrder(ts, n)
    ensures Delivered(ts, n, KEYFRAME_INTERVAL) <==> WithKeyframes(ts)
  {
    forall j | 0 <= j < |ts| ensures KeyTick(ts[j], KEYFRAME_INTERVAL) == ts[j] - (ts[j] - 1) % 20 {
      KeyTickIs(ts[j], KEYFRAME_INTERVAL);
    }
    if WithKeyframes(ts) {
      forall j | 0 <= j < |ts| ensures HasKey(ts, j, KEYFRAME_INTERVAL) {
        var i :| 0 <= i <= j && ts[i] == ts[j] - (ts[j] - 1) % 20;
      }
    } else {
      var j :| 0 <= j < |ts| && !(ts[j] >= 1 && exists i :: 0 <= i <= j && ts[i] == ts[j] - (ts[j] - 1) % 20);
      assert !HasKey(ts, j, KEYFRAME_INTERVAL);
    }
  }

  /**
    Server to client in plain fields: any choice of the server's snapshots, delivered in order,
    decodes exactly if with every one the last keyframe before it is delivered, and what it
    decodes to has the right scores, directions and ticks and is off by two roundings at most.
   */
  lemma SynchronisationInFields(events: seq<ServerEvent>, rooms: bool, serverSize: nat, sqrt: real -> real, f: F32,
                                ts: seq<nat>, size: nat, eps: real)
    requires IsSqrt(sqrt) && serverSize >= 19 && size >= 19 && Rounds(f, eps)
    requires InOrder(ts, |RunServer(events, rooms, serverSize, sqrt, CodecOf(f)).broadcasts|)
    ensures var sv := RunServer(events, rooms, serverSize, sqrt, CodecOf(f));
            var r := DecodeRun(ts, sv.broadcasts, size, CodecOf(f));
            && |sv.broadcasts| == |sv.states|
            && (r.Some? <==> WithKeyframes(ts))
            && (r.Some? ==> |r.value.1| == |ts|)
            && (r.Some? ==> forall j :: 0 <= j < |ts| ==> TrueTo(r.value.1[j], sv.states[ts[j] - 1], 2.0 * eps))
  {
    SynchronisationTheorem(events, rooms, serverSize, sqrt, f, ts, size, eps);
    var sv := RunServer(events, rooms, serverSize, sqrt, CodecOf(f));
    ServerInvariant(events, rooms, serverSize, sqrt, CodecOf(f));
    DeliveredIsWithKeyframes(ts, |sv.broadcasts|);
    var r := DecodeRun(ts, sv.broadcasts, size, CodecOf(f));
    if r.Some? {
      forall j | 0 <= j < |ts| ensures TrueTo(r.value.1[j], sv.states[ts[j] - 1], 2.0 * eps) {
        FaithfulAt(r.value.1, ts, sv.states, f, eps, j, KEYFRAME_INTERVAL);
        FaithfulFields(r.value.1[j], sv.states[ts[j] - 1], f, eps, KEYFRAME_INTERVAL);
      }
    }
  }
}
