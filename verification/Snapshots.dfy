/**
  Snapshot synchronisation: a generator that emits keyframes and deltas against the last
  keyframe, with a bounded history; the server loop that drives it; and the decoder.
 */
module Snapshots {
  import opened Collections
  import opened PongPhysics
  import opened DeltaCodec

  datatype Snapshot = Snapshot(tick: nat, baseTick: nat, isKeyframe: bool, payload: Bytes)

  datatype Generator = Generator(history: seq<WorldState>, lastKeyframe: nat, hasKeyframe: bool)

  /** Ticks from one keyframe to the next. */
  type Period = e: nat | e >= 1 witness 1

  const KEYFRAME_INTERVAL: Period := 20
  const CHECKPOINT_INTERVAL := 60

  // ------------------------------------------------------------------- histories

  function FindState(h: seq<WorldState>, tick: nat): Option<WorldState> {
    if h == [] then None
    else if h[0].tick == tick then Some(h[0])
    else FindState(h[1..], tick)
  }

  /** Overwrites the first entry with that tick, if there is one. */
  function Replace(h: seq<WorldState>, s: WorldState): (r: seq<WorldState>)
    ensures |r| == |h|
  {
    if h == [] then []
    else if h[0].tick == s.tick then [s] + h[1..]
    else [h[0]] + Replace(h[1..], s)
  }

  function Store(h: seq<WorldState>, s: WorldState, size: nat): seq<WorldState> {
    if FindState(h, s.tick).Some? then Replace(h, s) else KeepLast(h + [s], size)
  }

  /** Position `i` is the first with that tick, or the end if there is none. */
  lemma {:induction false} FirstAt(h: seq<WorldState>, s: WorldState, i: nat)
    requires i <= |h| && (i < |h| ==> h[i].tick == s.tick)
    requires forall j :: 0 <= j < i ==> h[j].tick != s.tick
    ensures FindState(h, s.tick) == if i < |h| then Some(h[i]) else None
    ensures i < |h| ==> Replace(h, s) == h[i := s]
  {
    if i > 0 {
      FirstAt(h[1..], s, i - 1);
      if i < |h| { assert [h[0]] + h[1..][i - 1 := s] == h[i := s]; }
    } else if h != [] {
      assert [s] + h[1..] == h[0 := s];
    }
  }

  function Prune(h: seq<WorldState>, minTick: int): seq<WorldState> {
    if h != [] && h[0].tick < minTick then Prune(h[1..], minTick) else h
  }

  function MinTick(tick: nat, size: nat): nat { if tick >= size then tick - size else 0 }

  // ------------------------------------------------------------------- generator

  function Remember(g: Generator, s: WorldState, size: nat): seq<WorldState> {
    Prune(Store(g.history, s, size), MinTick(s.tick, size))
  }

  function Keyframe(g: Generator, s: WorldState, size: nat, c: Codec): (Generator, Snapshot) {
    (Generator(Remember(g, s, size), s.tick, true), Snapshot(s.tick, s.tick, true, c.keyframe(s)))
  }

  predicate WantsKeyframe(g: Generator, s: WorldState, interval: nat) {
    !g.hasKeyframe || s.tick <= g.lastKeyframe || s.tick - g.lastKeyframe >= interval
  }

  function Encode(g: Generator, s: WorldState, interval: nat, size: nat, c: Codec): (Generator, Snapshot) {
    if WantsKeyframe(g, s, interval) then Keyframe(g, s, size, c)
    else match FindState(g.history, g.lastKeyframe)
      case None => Keyframe(g, s, size, c)
      case Some(base) =>
        (g.(history := Remember(g, s, size)), Snapshot(s.tick, g.lastKeyframe, false, c.delta(base, s)))
  }

  class SnapshotGenerator {
    const interval: nat
    const size: nat
    var history: seq<WorldState>
    var lastKeyframe: nat
    var hasKeyframe: bool

    ghost function View(): Generator
      reads this
    {
      Generator(history, lastKeyframe, hasKeyframe)
    }

    constructor (interval: nat, size: nat)
      ensures this.interval == interval && this.size == size && View() == Generator([], 0, false)
    {
      this.interval, this.size := interval, size;
      history, lastKeyframe, hasKeyframe := [], 0, false;
    }

    method Find(tick: nat) returns (r: Option<WorldState>)
      ensures r == FindState(history, tick)
    {
      for i := 0 to |history|
        invariant FindState(history[i..], tick) == FindState(history, tick)
      {
        assert history[i..][1..] == history[i + 1..];
        if history[i].tick == tick {
          return Some(history[i]);
        }
      }
      return None;
    }

    method StoreState(s: WorldState)
      modifies `history
      ensures history == Store(old(history), s, size)
    {
      for i := 0 to |history|
        invariant history == old(history) && forall j :: 0 <= j < i ==> history[j].tick != s.tick
      {
        if history[i].tick == s.tick {
          FirstAt(history, s, i);
          history := history[i := s];
          return;
        }
      }
      FirstAt(history, s, |history|);
      history := PopFront(history + [s], size);
    }

    method PruneHistory(minTick: nat)
      modifies `history
      ensures history == Prune(old(history), minTick)
    {
      while history != [] && history[0].tick < minTick
        invariant Prune(history, minTick) == Prune(old(history), minTick)
        decreases |history|
      {
        history := history[1..];
      }
    }

    method EncodeKey(s: WorldState, f: F32) returns (snap: Snapshot)
      modifies this
      ensures (View(), snap) == Keyframe(old(View()), s, size, CodecOf(f))
    {
      var w := new ByteWriter();
      w.WriteState(s, f);
      snap := Snapshot(s.tick, s.tick, true, w.buffer);
      StoreState(s);
      lastKeyframe := s.tick;
      hasKeyframe := true;
      PruneHistory(MinTick(s.tick, size));
    }

    method EncodeState(s: WorldState, f: F32) returns (snap: Snapshot)
      modifies this
      ensures (View(), snap) == Encode(old(View()), s, interval, size, CodecOf(f))
    {
      if !hasKeyframe || s.tick <= lastKeyframe || s.tick - lastKeyframe >= interval {
        snap := EncodeKey(s, f);
        return;
      }
      var base := Find(lastKeyframe);
      if base.None? {
        snap := EncodeKey(s, f);
        return;
      }
      var w := new ByteWriter();
      w.WriteDelta(base.value, s, f);
      snap := Snapshot(s.tick, lastKeyframe, false, w.buffer);
      StoreState(s);
      PruneHistory(MinTick(s.tick, size));
    }
  }

  // ------------------------------------------------------------ histories of a run

  /** The states of a run, one per tick from tick 1. */
  ghost predicate Timeline(states: seq<WorldState>) {
    forall i :: 0 <= i < |states| ==> states[i].tick == i + 1
  }

  lemma {:induction false} FindInTimeline(states: seq<WorldState>, from: nat, tick: nat)
    requires Timeline(states) && from <= |states|
    ensures FindState(states[from..], tick)
         == if from < tick <= |states| then Some(states[tick - 1]) else None
    decreases |states| - from
  {
    if from < |states| {
      assert states[from..][1..] == states[from + 1..];
      FindInTimeline(states, from + 1, tick);
    }
  }

  lemma {:induction false} ReplaceInTimeline(states: seq<WorldState>, from: nat, s: WorldState)
    requires Timeline(states) && from <= |states|
    requires from < s.tick <= |states| ==> states[s.tick - 1] == s
    ensures Replace(states[from..], s) == states[from..]
    decreases |states| - from
  {
    if from < |states| {
      assert states[from..][1..] == states[from + 1..];
      assert states[from..] == [states[from]] + states[from + 1..];
      if states[from].tick != s.tick { ReplaceInTimeline(states, from + 1, s); }
    }
  }

  ghost function Recent(states: seq<WorldState>, size: nat): seq<WorldState> { KeepLast(states, size) }

  /** Storing the next state keeps the history the most recent stretch of the run; pruning drops nothing. */
  lemma RememberNext(g: Generator, states: seq<WorldState>, s: WorldState, size: nat)
    requires Timeline(states) && s.tick == |states| + 1 && g.history == Recent(states, size)
    ensures Timeline(states + [s]) && Remember(g, s, size) == Recent(states + [s], size)
  {
    var from := if |states| > size then |states| - size else 0;
    assert g.history == states[from..];
    FindInTimeline(states, from, s.tick);
    assert KeepLast(states[from..] + [s], size) == KeepLast(states + [s], size);
  }

  /** Storing the current state again changes nothing. */
  lemma RememberAgain(g: Generator, states: seq<WorldState>, s: WorldState, size: nat)
    requires Timeline(states) && states != [] && s == states[|states| - 1] && g.history == Recent(states, size)
    ensures Remember(g, s, size) == Recent(states, size)
  {
    var from := if |states| > size then |states| - size else 0;
    assert g.history == states[from..];
    FindInTimeline(states, from, s.tick);
    ReplaceInTimeline(states, from, s);
  }

  // ------------------------------------------------------------------- the schedule

  /** The last keyframe tick at or before `tick`, counting up from tick 1 in steps of the period. */
  function KeyTick(tick: nat, e: Period): (k: nat)
    requires tick >= 1
    ensures 1 <= k <= tick && tick - k < e
  {
    if tick <= e then 1 else KeyTick(tick - e, e) + e
  }

  lemma {:induction false} Multiples(e: Period, low: int, high: int)
    requires low < high
    ensures e * low + e <= e * high
    decreases high - low
  {
    if low + 1 < high {
      Multiples(e, low, high - 1);
    }
    NextMultiple(e, high - 1);
  }

  lemma NextMultiple(e: int, q: int)
    ensures e * (q + 1) == e * q + e
  {
  }

  lemma ModStep(x: nat, e: Period)
    ensures (x + e) % e == x % e
  {
    var q, q' := x / e, (x + e) / e;
    assert x == e * q + x % e && x + e == e * q' + (x + e) % e;
    NextMultiple(e, q);
    if q' < q + 1 {
      Multiples(e, q', q + 1);
    } else if q' > q + 1 {
      Multiples(e, q + 1, q');
    }
  }

  /** Keyframe ticks are those that are 1 modulo the period, and no others. */
  lemma {:induction false} KeyTickSchedule(tick: nat, e: Period)
    requires tick >= 1
    ensures (KeyTick(tick, e) - 1) % e == 0
    ensures KeyTick(tick, e) == tick <==> (tick - 1) % e == 0
  {
    if tick > e {
      KeyTickSchedule(tick - e, e);
      ModStep(tick - e - 1, e);
      ModStep(KeyTick(tick - e, e) - 1, e);
    }
  }

  /** The same tick, counted back from the present one. */
  lemma {:induction false} KeyTickIs(tick: nat, e: Period)
    requires tick >= 1
    ensures KeyTick(tick, e) == tick - (tick - 1) % e
  {
    if tick > e {
      KeyTickIs(tick - e, e);
      ModStep(tick - e - 1, e);
    }
  }

  lemma {:induction false} NextKeyTick(t: nat, e: Period)
    requires t >= 1
    ensures KeyTick(t + 1, e) == if t + 1 - KeyTick(t, e) < e then KeyTick(t, e) else t + 1
  {
    if t > e {
      NextKeyTick(t - e, e);
    }
  }

  /**
    How often keyframes really come: every `interval` ticks, or sooner, as soon as the last
    keyframe has left the history.
   */
  function EffectivePeriod(interval: nat, size: nat): (e: Period)
    ensures e == interval <==> 1 <= interval <= size + 1
  {
    if interval == 0 then 1 else if interval <= size + 1 then interval else size + 1
  }

  ghost predicate GeneratorOk(g: Generator, states: seq<WorldState>, size: nat, e: Period) {
    && g.history == Recent(states, size)
    && (g.hasKeyframe <==> states != [])
    && (states != [] ==> g.lastKeyframe == KeyTick(|states|, e))
  }

  /** The broadcast for tick `t`: a keyframe on a keyframe tick, else a delta against the last keyframe's state. */
  function ExpectedBroadcast(states: seq<WorldState>, t: nat, c: Codec, e: Period): Snapshot
    requires 1 <= t <= |states|
  {
    var k := KeyTick(t, e);
    if t == k then Snapshot(t, t, true, c.keyframe(states[t - 1]))
    else Snapshot(t, k, false, c.delta(states[k - 1], states[t - 1]))
  }

  ghost predicate BroadcastsOk(states: seq<WorldState>, broadcasts: seq<Snapshot>, c: Codec, e: Period) {
    && |broadcasts| == |states|
    && forall i :: 0 <= i < |states| ==> broadcasts[i] == ExpectedBroadcast(states, i + 1, c, e)
  }

  lemma EncodeNextKey(g: Generator, states: seq<WorldState>, s: WorldState, size: nat, c: Codec, e: Period)
    requires s.tick == |states| + 1 && KeyTick(s.tick, e) == s.tick
    requires Remember(g, s, size) == Recent(states + [s], size)
    ensures var (g', snap) := Keyframe(g, s, size, c);
            GeneratorOk(g', states + [s], size, e) && snap == ExpectedBroadcast(states + [s], s.tick, c, e)
  {
    assert (states + [s])[s.tick - 1] == s;
  }

  lemma ExpectedDelta(states: seq<WorldState>, s: WorldState, c: Codec, e: Period)
    requires states != [] && s.tick == |states| + 1 && KeyTick(s.tick, e) == KeyTick(|states|, e)
    ensures var k := KeyTick(|states|, e);
            ExpectedBroadcast(states + [s], s.tick, c, e) == Snapshot(s.tick, k, false, c.delta(states[k - 1], s))
  {
    var k := KeyTick(|states|, e);
    assert (states + [s])[s.tick - 1] == s && (states + [s])[k - 1] == states[k - 1];
  }

  /** The encoder wants a delta but its base is no longer in the history. */
  predicate FallsBack(g: Generator, s: WorldState, interval: nat) {
    !WantsKeyframe(g, s, interval) && FindState(g.history, g.lastKeyframe).None?
  }

  /** In a run the last keyframe is still there unless it is more than `size` ticks old. */
  lemma LastKeyframeKept(g: Generator, states: seq<WorldState>, size: nat, e: Period)
    requires Timeline(states) && states != [] && GeneratorOk(g, states, size, e)
    ensures var k := KeyTick(|states|, e);
            FindState(g.history, g.lastKeyframe) == if |states| + 1 - k <= size then Some(states[k - 1]) else None
  {
    var from := if |states| > size then |states| - size else 0;
    assert g.history == states[from..];
    FindInTimeline(states, from, g.lastKeyframe);
  }

  /** The encoder falls back to a keyframe exactly when the interval is too long for the history. */
  lemma BaseIsFound(g: Generator, states: seq<WorldState>, s: WorldState, interval: nat, size: nat)
    requires Timeline(states) && states != [] && s.tick == |states| + 1
    requires GeneratorOk(g, states, size, EffectivePeriod(interval, size))
    ensures var k := KeyTick(|states|, EffectivePeriod(interval, size));
            && (FallsBack(g, s, interval) <==> s.tick - k == size + 1 < interval)
            && (!FallsBack(g, s, interval) && !WantsKeyframe(g, s, interval) ==>
                  FindState(g.history, g.lastKeyframe) == Some(states[k - 1]))
  {
    LastKeyframeKept(g, states, size, EffectivePeriod(interval, size));
  }

  lemma EncodeNextDelta(g: Generator, states: seq<WorldState>, s: WorldState, interval: nat, size: nat, c: Codec,
                        e: Period)
    requires Timeline(states) && states != [] && s.tick == |states| + 1 && GeneratorOk(g, states, size, e)
    requires !WantsKeyframe(g, s, interval) && KeyTick(s.tick, e) == KeyTick(|states|, e)
    requires FindState(g.history, g.lastKeyframe) == Some(states[KeyTick(|states|, e) - 1])
    ensures var (g', snap) := Encode(g, s, interval, size, c);
            GeneratorOk(g', states + [s], size, e) && snap == ExpectedBroadcast(states + [s], s.tick, c, e)
  {
    RememberNext(g, states, s, size);
    ExpectedDelta(states, s, c, e);
  }

  /** The tick is a keyframe tick exactly if the encoder wants a keyframe or falls back to one. */
  lemma NextIsKeyTick(g: Generator, states: seq<WorldState>, s: WorldState, interval: nat, size: nat, e: Period)
    requires Timeline(states) && s.tick == |states| + 1 && e == EffectivePeriod(interval, size)
    requires GeneratorOk(g, states, size, e)
    ensures WantsKeyframe(g, s, interval) || FallsBack(g, s, interval) <==> KeyTick(s.tick, e) == s.tick
    ensures KeyTick(s.tick, e) != s.tick ==> states != [] && KeyTick(s.tick, e) == KeyTick(|states|, e)
  {
    if states != [] {
      NextKeyTick(|states|, e);
      BaseIsFound(g, states, s, interval, size);
    }
  }

  /** One more tick of a run: the expected broadcast, whatever the interval and the history size. */
  lemma EncodeNext(g: Generator, states: seq<WorldState>, s: WorldState, interval: nat, size: nat, c: Codec)
    requires Timeline(states) && s.tick == |states| + 1
    requires GeneratorOk(g, states, size, EffectivePeriod(interval, size))
    ensures var e, (g', snap) := EffectivePeriod(interval, size), Encode(g, s, interval, size, c);
            && GeneratorOk(g', states + [s], size, e)
            && snap == ExpectedBroadcast(states + [s], s.tick, c, e)
  {
    var e := EffectivePeriod(interval, size);
    NextIsKeyTick(g, states, s, interval, size, e);
    if KeyTick(s.tick, e) == s.tick {
      RememberNext(g, states, s, size);
      EncodeNextKey(g, states, s, size, c, e);
    } else {
      BaseIsFound(g, states, s, interval, size);
      EncodeNextDelta(g, states, s, interval, size, c, e);
    }
  }

  // ------------------------------------------------------------------- any generator

  const NEW_GENERATOR := Generator([], 0, false)

  /** A generator fed a run of states: what it becomes, and what it emits. */
  function EncodeAll(states: seq<WorldState>, interval: nat, size: nat, c: Codec): (Generator, seq<Snapshot>) {
    if states == [] then (NEW_GENERATOR, [])
    else
      var (g, snaps) := EncodeAll(states[..|states| - 1], interval, size, c);
      var (g', snap) := Encode(g, states[|states| - 1], interval, size, c);
      (g', snaps + [snap])
  }

  /** Every generator keeps its effective period, whatever its interval and history size. */
  lemma {:induction false} GeneratorInvariant(states: seq<WorldState>, interval: nat, size: nat, c: Codec)
    requires Timeline(states)
    ensures var e, (g, snaps) := EffectivePeriod(interval, size), EncodeAll(states, interval, size, c);
            GeneratorOk(g, states, size, e) && BroadcastsOk(states, snaps, c, e)
  {
    if states != [] {
      var before, s := states[..|states| - 1], states[|states| - 1];
      assert states == before + [s];
      GeneratorInvariant(before, interval, size, c);
      var (g, snaps) := EncodeAll(before, interval, size, c);
      EncodeNext(g, before, s, interval, size, c);
      BroadcastsGrow(before, snaps, s, c, EffectivePeriod(interval, size));
    }
  }

  /** At no tick of the run does the encoder miss its base. */
  ghost predicate NeverFallsBack(states: seq<WorldState>, interval: nat, size: nat, c: Codec) {
    forall i :: 0 <= i < |states| ==> !FallsBack(EncodeAll(states[..i], interval, size, c).0, states[i], interval)
  }

  ghost predicate BaseAlwaysFound(interval: nat, size: nat, c: Codec) {
    forall states :: Timeline(states) ==> NeverFallsBack(states, interval, size, c)
  }

  lemma TimelinePrefix(states: seq<WorldState>, i: nat)
    requires Timeline(states) && i <= |states|
    ensures Timeline(states[..i])
  {
  }

  /**
    The base of every delta of every run is found exactly if the interval is at most one more than
    the history size.
   */
  lemma BaseAlwaysFoundExactly(interval: nat, size: nat, c: Codec)
    ensures BaseAlwaysFound(interval, size, c) <==> interval <= size + 1
  {
    if interval <= size + 1 {
      forall states, i: nat | Timeline(states) && i < |states|
        ensures !FallsBack(EncodeAll(states[..i], interval, size, c).0, states[i], interval)
      {
        TimelinePrefix(states, i);
        GeneratorInvariant(states[..i], interval, size, c);
        if i > 0 {
          BaseIsFound(EncodeAll(states[..i], interval, size, c).0, states[..i], states[i], interval, size);
        }
      }
    } else {
      var states := MissedBase(interval, size, c);
      assert Timeline(states) && !NeverFallsBack(states, interval, size, c);
    }
  }

  /** With a longer interval the base of tick `size + 2` is missed. */
  lemma MissedBase(interval: nat, size: nat, c: Codec) returns (states: seq<WorldState>)
    requires interval > size + 1
    ensures Timeline(states) && !NeverFallsBack(states, interval, size, c)
  {
    states := seq(size + 2, i requires 0 <= i < size + 2 => INITIAL.(tick := i + 1));
    var n := size + 1;
    TimelinePrefix(states, n);
    GeneratorInvariant(states[..n], interval, size, c);
    BaseIsFound(EncodeAll(states[..n], interval, size, c).0, states[..n], states[n], interval, size);
    assert FallsBack(EncodeAll(states[..n], interval, size, c).0, states[n], interval);
  }

  // ------------------------------------------------------------------- the server

  /** `states` and `broadcasts` are history: the world after each tick and what was broadcast for it. */
  datatype Server = Server(world: WorldState, gen: Generator, counter: nat,
                           states: seq<WorldState>, broadcasts: seq<Snapshot>)

  datatype ServerEvent = PlayerInput(side: Side, direction: int) | Frame(dt: real)

  const BOOT := Server(INITIAL, NEW_GENERATOR, 0, [], [])

  /** The checkpoint re-encode, and the keyframe forced if that yields a delta. */
  function Checkpoint(g: Generator, s: WorldState, size: nat, c: Codec): Generator {
    var (g1, snap) := Encode(g, s, KEYFRAME_INTERVAL, size, c);
    if snap.isKeyframe then g1 else Keyframe(g1, s, size, c).0
  }

  function TickServer(sv: Server, dt: real, rooms: bool, size: nat, sqrt: real -> real, c: Codec): Server {
    Publish(sv, Step(sv.world, dt, sqrt), rooms, size, c)
  }

  function Publish(sv: Server, s: WorldState, rooms: bool, size: nat, c: Codec): Server {
    var (g, snap) := Encode(sv.gen, s, KEYFRAME_INTERVAL, size, c);
    var g' := if rooms && sv.counter % CHECKPOINT_INTERVAL == 0 then Checkpoint(g, s, size, c) else g;
    Server(s, g', sv.counter + 1, sv.states + [s], sv.broadcasts + [snap])
  }

  function RunServer(events: seq<ServerEvent>, rooms: bool, size: nat, sqrt: real -> real, c: Codec): Server {
    if events == [] then BOOT
    else
      var sv := RunServer(events[..|events| - 1], rooms, size, sqrt, c);
      match events[|events| - 1]
      case PlayerInput(side, direction) => sv.(world := SetInput(sv.world, side, direction))
      case Frame(dt) => TickServer(sv, dt, rooms, size, sqrt, c)
  }

  /** Consecutive states differ by at most one point. */
  ghost predicate PointByPoint(states: seq<WorldState>) {
    forall i :: 0 < i < |states| ==> OnePoint(states[i - 1], states[i])
  }

  ghost predicate AllOk(states: seq<WorldState>) {
    forall i :: 0 <= i < |states| ==> WorldOk(states[i], DEFAULT)
  }

  /** The recorded states are those of a world run that has now reached `world`. */
  ghost predicate RunOk(states: seq<WorldState>, world: WorldState) {
    && Timeline(states) && PointByPoint(states) && AllOk(states)
    && world.tick == |states| && WorldOk(world, DEFAULT)
    && (states != [] ==> var last := states[|states| - 1];
          world.leftScore == last.leftScore && world.rightScore == last.rightScore)
  }

  ghost predicate ServerOk(sv: Server, size: nat, c: Codec) {
    && sv.counter == |sv.states|
    && RunOk(sv.states, sv.world)
    && GeneratorOk(sv.gen, sv.states, size, KEYFRAME_INTERVAL)
    && BroadcastsOk(sv.states, sv.broadcasts, c, KEYFRAME_INTERVAL)
  }

  lemma RunGrows(states: seq<WorldState>, world: WorldState, dt: real, sqrt: real -> real)
    requires IsSqrt(sqrt) && RunOk(states, world)
    ensures var s := Step(world, dt, sqrt); s.tick == |states| + 1 && RunOk(states + [s], s)
  {
    var s := Step(world, dt, sqrt);
    InitialOk();
    AdvanceStaysOnField(world, DEFAULT, dt, sqrt);
    AdvanceScores(world, DEFAULT, dt, sqrt);
    EventKeepsOk(world, Tick(dt), sqrt);
    AppendState(states, world, s);
  }

  lemma AppendState(states: seq<WorldState>, world: WorldState, s: WorldState)
    requires RunOk(states, world) && OnePoint(world, s) && WorldOk(s, DEFAULT) && s.tick == |states| + 1
    ensures RunOk(states + [s], s)
  {
    var t := states + [s];
    forall i | 0 < i < |t| ensures OnePoint(t[i - 1], t[i]) {
      if i < |states| { assert OnePoint(states[i - 1], states[i]); }
    }
  }

  /** Every checkpoint falls on a keyframe tick, so the re-encode is a keyframe and nothing changes. */
  lemma CheckpointIsKeyframe(g: Generator, states: seq<WorldState>, s: WorldState, size: nat, c: Codec)
    requires Timeline(states) && states != [] && s == states[|states| - 1]
    requires GeneratorOk(g, states, size, KEYFRAME_INTERVAL) && (|states| - 1) % 60 == 0
    ensures Encode(g, s, KEYFRAME_INTERVAL, size, c).1.isKeyframe
    ensures Checkpoint(g, s, size, c) == g
  {
    RememberAgain(g, states, s, size);
    KeyTickSchedule(|states|, KEYFRAME_INTERVAL);
  }

  lemma TickKeepsOk(sv: Server, dt: real, rooms: bool, size: nat, sqrt: real -> real, c: Codec)
    requires IsSqrt(sqrt) && size + 1 >= KEYFRAME_INTERVAL && ServerOk(sv, size, c)
    ensures ServerOk(TickServer(sv, dt, rooms, size, sqrt, c), size, c)
  {
    RunGrows(sv.states, sv.world, dt, sqrt);
    PublishKeepsOk(sv, Step(sv.world, dt, sqrt), rooms, size, c);
  }

  lemma PublishKeepsOk(sv: Server, s: WorldState, rooms: bool, size: nat, c: Codec)
    requires size + 1 >= KEYFRAME_INTERVAL && ServerOk(sv, size, c)
    requires s.tick == |sv.states| + 1 && RunOk(sv.states + [s], s)
    ensures ServerOk(Publish(sv, s, rooms, size, c), size, c)
  {
    GeneratorTick(sv.gen, sv.states, s, sv.counter, rooms, size, c);
    BroadcastsGrow(sv.states, sv.broadcasts, s, c, KEYFRAME_INTERVAL);
  }

  lemma GeneratorTick(g: Generator, states: seq<WorldState>, s: WorldState, counter: nat, rooms: bool, size: nat,
                      c: Codec)
    requires Timeline(states + [s]) && counter == |states| && s.tick == |states| + 1 && size + 1 >= KEYFRAME_INTERVAL
    requires Timeline(states) && GeneratorOk(g, states, size, KEYFRAME_INTERVAL)
    ensures var (g1, snap) := Encode(g, s, KEYFRAME_INTERVAL, size, c);
            && snap == ExpectedBroadcast(states + [s], s.tick, c, KEYFRAME_INTERVAL)
            && GeneratorOk(if rooms && counter % CHECKPOINT_INTERVAL == 0 then Checkpoint(g1, s, size, c) else g1,
                           states + [s], size, KEYFRAME_INTERVAL)
  {
    EncodeNext(g, states, s, KEYFRAME_INTERVAL, size, c);
    var g1 := Encode(g, s, KEYFRAME_INTERVAL, size, c).0;
    if counter % CHECKPOINT_INTERVAL == 0 { CheckpointIsKeyframe(g1, states + [s], s, size, c); }
  }

  lemma ExpectedStable(states: seq<WorldState>, s: WorldState, t: nat, c: Codec, e: Period)
    requires 1 <= t <= |states|
    ensures ExpectedBroadcast(states + [s], t, c, e) == ExpectedBroadcast(states, t, c, e)
  {
    var k := KeyTick(t, e);
    assert (states + [s])[t - 1] == states[t - 1] && (states + [s])[k - 1] == states[k - 1];
  }

  lemma BroadcastsGrow(states: seq<WorldState>, broadcasts: seq<Snapshot>, s: WorldState, c: Codec, e: Period)
    requires BroadcastsOk(states, broadcasts, c, e)
    ensures BroadcastsOk(states + [s], broadcasts + [ExpectedBroadcast(states + [s], |states| + 1, c, e)], c, e)
  {
    var t, bs := states + [s], broadcasts + [ExpectedBroadcast(states + [s], |states| + 1, c, e)];
    forall i | 0 <= i < |t| ensures bs[i] == ExpectedBroadcast(t, i + 1, c, e) {
      if i < |states| {
        ExpectedStable(states, s, i + 1, c, e);
        assert bs[i] == broadcasts[i];
      }
    }
  }

  /**
    Every server run keeps the schedule: the broadcast for tick t is a keyframe exactly when t is
    1 mod 20, and otherwise a delta against the keyframe broadcast fewer than 20 ticks before.
   */
  lemma {:induction false} ServerInvariant(events: seq<ServerEvent>, rooms: bool, size: nat, sqrt: real -> real,
                                           c: Codec)
    requires IsSqrt(sqrt) && size + 1 >= KEYFRAME_INTERVAL
    ensures ServerOk(RunServer(events, rooms, size, sqrt, c), size, c)
  {
    if events == [] {
      InitialOk();
    } else {
      var before, e := events[..|events| - 1], events[|events| - 1];
      var sv := RunServer(before, rooms, size, sqrt, c);
      ServerInvariant(before, rooms, size, sqrt, c);
      match e
      case PlayerInput(side, direction) => EventKeepsOk(sv.world, Input(side, direction), sqrt);
      case Frame(dt) => TickKeepsOk(sv, dt, rooms, size, sqrt, c);
    }
  }

  /** The broadcast for tick `t`: from the first, every twentieth a keyframe, the others deltas against the last. */
  function Scheduled(states: seq<WorldState>, t: nat, c: Codec): Snapshot
    requires 1 <= t <= |states|
  {
    var ago := (t - 1) % 20;
    if ago == 0 then Snapshot(t, t, true, c.keyframe(states[t - 1]))
    else Snapshot(t, t - ago, false, c.delta(states[t - ago - 1], states[t - 1]))
  }

  lemma ScheduledExactly(states: seq<WorldState>, t: nat, c: Codec)
    requires 1 <= t <= |states|
    ensures ExpectedBroadcast(states, t, c, KEYFRAME_INTERVAL) == Scheduled(states, t, c)
  {
    KeyTickIs(t, KEYFRAME_INTERVAL);
  }

  /** Every server run, one broadcast a tick, with a history of 19 states or more. */
  lemma ServerSchedule(events: seq<ServerEvent>, rooms: bool, size: nat, sqrt: real -> real, c: Codec, t: nat)
    requires IsSqrt(sqrt) && size >= 19 && 1 <= t <= |RunServer(events, rooms, size, sqrt, c).states|
    ensures var sv := RunServer(events, rooms, size, sqrt, c);
            && |sv.broadcasts| == |sv.states| == sv.world.tick
            && sv.states[t - 1].tick == t && sv.broadcasts[t - 1] == Scheduled(sv.states, t, c)
  {
    ServerInvariant(events, rooms, size, sqrt, c);
    ScheduledExactly(RunServer(events, rooms, size, sqrt, c).states, t, c);
  }
}
