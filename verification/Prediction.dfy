/**
  Client-side prediction and reconciliation: the client runs the same physics ahead of the
  server, remembers its predictions, and compares them with authoritative states.
 */
module Prediction {
  import opened Collections
  import opened PongPhysics

  datatype Report = Report(correctedTicks: nat, positionError: real)

  const NO_ERROR := Report(0, 0.0)

  // ------------------------------------------------------------------- prediction

  function Predict(s: WorldState, c: Config, tick: nat, dt: real, left: int, right: int, sqrt: real -> real): WorldState
    requires c.paddleHeight > 0.0
  {
    Advance(s.(leftDirection := left, rightDirection := right, tick := tick), c, dt, sqrt)
  }

  class Predictor {
    var predicted: Option<WorldState>

    constructor ()
      ensures predicted == None
    {
      predicted := None;
    }

    method Reset(s: WorldState)
      modifies this
      ensures predicted == Some(s)
    {
      predicted := Some(s);
    }

    /** `None` is the exception for predicting before a reset. */
    method PredictNext(tick: nat, dt: real, left: int, right: int, sqrt: real -> real) returns (r: Option<WorldState>)
      modifies this
      ensures old(predicted).None? ==> r == None && predicted == None
      ensures old(predicted).Some? ==>
                r == Some(Predict(old(predicted).value, DEFAULT, tick, dt, left, right, sqrt)) && predicted == r
    {
      if predicted.None? {
        return None;
      }
      var s := predicted.value;
      s := s.(leftDirection := left);
      s := s.(rightDirection := right);
      s := s.(tick := tick);
      s := AdvanceInPlace(s, DEFAULT, dt, sqrt);
      predicted := Some(s);
      r := predicted;
    }
  }

  /** What the server does with one frame of both players' inputs. */
  function ServerFrame(s: WorldState, left: int, right: int, dt: real, sqrt: real -> real): WorldState {
    Step(SetInput(SetInput(s, Left, left), Right, right), dt, sqrt)
  }

  /** Equal but for the recorded directions. */
  ghost predicate SameMotion(a: WorldState, b: WorldState) {
    a == b.(leftDirection := a.leftDirection, rightDirection := a.rightDirection)
  }

  lemma MoveIgnores(s: WorldState, t: WorldState, c: Config, dt: real)
    requires t == s.(tick := t.tick, leftDirection := t.leftDirection, rightDirection := t.rightDirection)
    requires ClampDirection(s.leftDirection) == ClampDirection(t.leftDirection)
    requires ClampDirection(s.rightDirection) == ClampDirection(t.rightDirection)
    ensures MoveBall(MovePaddles(t, c, dt), dt)
         == MoveBall(MovePaddles(s, c, dt), dt).(tick := t.tick, leftDirection := t.leftDirection,
             rightDirection := t.rightDirection)
  {
  }

  lemma BounceIgnores(s: WorldState, t: WorldState, c: Config)
    requires t == s.(tick := t.tick, leftDirection := t.leftDirection, rightDirection := t.rightDirection)
    ensures BounceWalls(t, c)
         == BounceWalls(s, c).(tick := t.tick, leftDirection := t.leftDirection, rightDirection := t.rightDirection)
  {
  }

  lemma HitIgnores(s: WorldState, t: WorldState, c: Config, sqrt: real -> real)
    requires c.paddleHeight > 0.0
    requires t == s.(tick := t.tick, leftDirection := t.leftDirection, rightDirection := t.rightDirection)
    ensures HitLeft(t, c, sqrt)
         == HitLeft(s, c, sqrt).(tick := t.tick, leftDirection := t.leftDirection, rightDirection := t.rightDirection)
    ensures HitRight(t, c, sqrt)
         == HitRight(s, c, sqrt).(tick := t.tick, leftDirection := t.leftDirection, rightDirection := t.rightDirection)
  {
  }

  lemma ScoreIgnores(s: WorldState, t: WorldState, c: Config)
    requires t == s.(tick := t.tick, leftDirection := t.leftDirection, rightDirection := t.rightDirection)
    ensures Score(t, c)
         == Score(s, c).(tick := t.tick, leftDirection := t.leftDirection, rightDirection := t.rightDirection)
  {
  }

  /** The physics looks at the signs of the directions only, and not at the tick. */
  lemma AdvanceIgnores(s: WorldState, t: WorldState, c: Config, dt: real, sqrt: real -> real)
    requires c.paddleHeight > 0.0
    requires t == s.(tick := t.tick, leftDirection := t.leftDirection, rightDirection := t.rightDirection)
    requires ClampDirection(s.leftDirection) == ClampDirection(t.leftDirection)
    requires ClampDirection(s.rightDirection) == ClampDirection(t.rightDirection)
    ensures Advance(t, c, dt, sqrt)
         == Advance(s, c, dt, sqrt).(tick := t.tick, leftDirection := t.leftDirection,
             rightDirection := t.rightDirection)
  {
    MoveIgnores(s, t, c, dt);
    var s1, t1 := MoveBall(MovePaddles(s, c, dt), dt), MoveBall(MovePaddles(t, c, dt), dt);
    BounceIgnores(s1, t1, c);
    var s2, t2 := BounceWalls(s1, c), BounceWalls(t1, c);
    HitIgnores(s2, t2, c, sqrt);
    HitIgnores(HitLeft(s2, c, sqrt), HitLeft(t2, c, sqrt), c, sqrt);
    ScoreIgnores(Strike(s2, c, sqrt), Strike(t2, c, sqrt), c);
  }

  lemma AdvanceKeepsTick(s: WorldState, c: Config, dt: real, sqrt: real -> real)
    requires c.paddleHeight > 0.0
    ensures var a := Advance(s, c, dt, sqrt);
            a.tick == s.tick && a.leftDirection == s.leftDirection && a.rightDirection == s.rightDirection
  {
    AdvanceIgnores(s, s, c, dt, sqrt);
  }

  /** One frame in lockstep: the same motion whatever the inputs, the same state when they are clamped. */
  lemma FrameAgrees(p: WorldState, s: WorldState, left: int, right: int, dt: real, sqrt: real -> real)
    requires SameMotion(p, s)
    ensures var p', s' := Predict(p, DEFAULT, s.tick + 1, dt, left, right, sqrt), ServerFrame(s, left, right, dt, sqrt);
            && SameMotion(p', s') && s'.tick == s.tick + 1
            && (p' == s' <==> -1 <= left <= 1 && -1 <= right <= 1)
  {
    var a := SetInput(SetInput(s, Left, left), Right, right);
    var b := p.(leftDirection := left, rightDirection := right, tick := s.tick + 1);
    AdvanceIgnores(a, b, DEFAULT, dt, sqrt);
    AdvanceKeepsTick(a, DEFAULT, dt, sqrt);
  }

  // --------------------------------------------------------------- reconciliation

  function FindIndex(h: seq<WorldState>, tick: nat): (i: nat)
    ensures i <= |h|
    ensures i < |h| ==> h[i].tick == tick
    ensures forall j :: 0 <= j < i ==> h[j].tick != tick
  {
    if h == [] then 0 else if h[0].tick == tick then 0 else 1 + FindIndex(h[1..], tick)
  }

  function DropBefore(h: seq<WorldState>, tick: nat): seq<WorldState> {
    if h != [] && h[0].tick < tick then DropBefore(h[1..], tick) else h
  }

  function Hypot(x: real, y: real, sqrt: real -> real): real { sqrt(x * x + y * y) }

  /** The largest of the ball's distance and the two paddle errors. */
  function PositionError(p: WorldState, a: WorldState, sqrt: real -> real): real {
    Max(Max(Hypot(p.ballX - a.ballX, p.ballY - a.ballY, sqrt), Abs(p.leftPaddleY - a.leftPaddleY)),
        Abs(p.rightPaddleY - a.rightPaddleY))
  }

  function Reconcile(h: seq<WorldState>, a: WorldState, epsilon: real, sqrt: real -> real): (seq<WorldState>, Report) {
    var i := FindIndex(h, a.tick);
    if i == |h| then (DropBefore(h, a.tick), NO_ERROR)
    else
      var e := PositionError(h[i], a, sqrt);
      (h[i + 1..], Report(if e > epsilon then |h| - i else 0, e))
  }

  class Reconciler {
    const size: nat
    const epsilon: real
    var history: seq<WorldState>

    constructor (size: nat, epsilon: real)
      ensures this.size == size && this.epsilon == epsilon && history == []
    {
      this.size, this.epsilon, history := size, epsilon, [];
    }

    method RecordPrediction(s: WorldState)
      modifies this
      ensures history == KeepLast(old(history) + [s], size)
    {
      history := PopFront(history + [s], size);
    }

    method Find(tick: nat) returns (i: nat)
      ensures i == FindIndex(history, tick)
    {
      i := 0;
      while i < |history| && history[i].tick != tick
        invariant i <= |history| && FindIndex(history, tick) == i + FindIndex(history[i..], tick)
      {
        assert history[i..][1..] == history[i + 1..];
        i := i + 1;
      }
    }

    method ReconcileWith(a: WorldState, sqrt: real -> real) returns (report: Report)
      modifies this
      ensures (history, report) == Reconcile(old(history), a, epsilon, sqrt)
    {
      var index := Find(a.tick);
      if index == |history| {
        report := NO_ERROR;
        while history != [] && history[0].tick < a.tick
          invariant DropBefore(history, a.tick) == DropBefore(old(history), a.tick)
          decreases |history|
        {
          history := history[1..];
        }
        return;
      }
      var e := PositionError(history[index], a, sqrt);
      report := Report(if e > epsilon then |history| - index else 0, e);
      history := history[index + 1..];
    }
  }

  lemma {:induction false} DropBeforeIncreasing(h: seq<WorldState>, tick: nat) returns (k: nat)
    requires Increasing(h)
    ensures k <= |h| && DropBefore(h, tick) == h[k..]
    ensures (forall j :: 0 <= j < k ==> h[j].tick < tick) && (forall j :: k <= j < |h| ==> h[j].tick >= tick)
  {
    if h != [] && h[0].tick < tick {
      var k0 := DropBeforeIncreasing(h[1..], tick);
      k := k0 + 1;
      assert h[1..][k0..] == h[k..];
      forall j | k <= j < |h| ensures h[j].tick >= tick { assert h[1..][j - 1] == h[j]; }
      forall j | 0 < j < k ensures h[j].tick < tick { assert h[1..][j - 1] == h[j]; }
    } else {
      k := 0;
    }
  }

  /** Recording later and later ticks keeps the history sorted and bounded. */
  lemma RecordKeepsOrder(h: seq<WorldState>, s: WorldState, size: nat)
    requires Increasing(h) && (h != [] ==> h[|h| - 1].tick < s.tick)
    ensures Increasing(KeepLast(h + [s], size)) && |KeepLast(h + [s], size)| <= size
  {
  }

  /** Whichever way it goes, reconciling leaves exactly the predictions later than the authoritative tick. */
  lemma ReconcileLeavesLater(h: seq<WorldState>, a: WorldState, epsilon: real, sqrt: real -> real) returns (k: nat)
    requires Increasing(h)
    ensures k <= |h| && Reconcile(h, a, epsilon, sqrt).0 == h[k..]
    ensures (forall j :: 0 <= j < k ==> h[j].tick <= a.tick) && (forall j :: k <= j < |h| ==> h[j].tick > a.tick)
    ensures Increasing(Reconcile(h, a, epsilon, sqrt).0)
  {
    var i := FindIndex(h, a.tick);
    if i == |h| {
      k := DropBeforeIncreasing(h, a.tick);
    } else {
      k := i + 1;
    }
  }

  // -------------------------------------------------------------- lockstep sessions

  /** The server's states so far (`server[i]` is at tick `start + i`), the client's prediction and its history. */
  datatype Session = Session(server: seq<WorldState>, predicted: WorldState, history: seq<WorldState>)

  datatype SessionStep = PlayFrame(left: int, right: int, dt: real) | ReceiveState(index: nat)

  function Play(n: Session, step: SessionStep, size: nat, epsilon: real, sqrt: real -> real): Session
    requires n.server != []
  {
    match step
    case PlayFrame(left, right, dt) =>
      var last := n.server[|n.server| - 1];
      var p := Predict(n.predicted, DEFAULT, last.tick + 1, dt, left, right, sqrt);
      Session(n.server + [ServerFrame(last, left, right, dt, sqrt)], p, KeepLast(n.history + [p], size))
    case ReceiveState(index) =>
      if index < |n.server| then n.(history := Reconcile(n.history, n.server[index], epsilon, sqrt).0) else n
  }

  function PlayAll(start: WorldState, steps: seq<SessionStep>, size: nat, epsilon: real,
                   sqrt: real -> real): (n: Session)
    ensures n.server != []
  {
    if steps == [] then Session([start], start, [])
    else Play(PlayAll(start, steps[..|steps| - 1], size, epsilon, sqrt), steps[|steps| - 1], size, epsilon, sqrt)
  }

  /** A recorded prediction moves exactly as the server's state of its tick. */
  ghost predicate Matches(p: WorldState, server: seq<WorldState>) {
    && server != [] && server[0].tick <= p.tick < server[0].tick + |server|
    && SameMotion(p, server[p.tick - server[0].tick])
  }

  ghost predicate InStep(n: Session) {
    && n.server != []
    && (forall i :: 0 <= i < |n.server| ==> n.server[i].tick == n.server[0].tick + i)
    && SameMotion(n.predicted, n.server[|n.server| - 1])
    && Increasing(n.history)
    && (forall j :: 0 <= j < |n.history| ==> Matches(n.history[j], n.server))
  }

  lemma MatchesGrows(p: WorldState, server: seq<WorldState>, s: WorldState)
    requires Matches(p, server)
    ensures Matches(p, server + [s])
  {
    assert (server + [s])[p.tick - server[0].tick] == server[p.tick - server[0].tick];
  }

  lemma FrameKeepsStep(n: Session, left: int, right: int, dt: real, size: nat, epsilon: real, sqrt: real -> real)
    requires InStep(n)
    ensures InStep(Play(n, PlayFrame(left, right, dt), size, epsilon, sqrt))
  {
    var last := n.server[|n.server| - 1];
    var s' := ServerFrame(last, left, right, dt, sqrt);
    var p := Predict(n.predicted, DEFAULT, last.tick + 1, dt, left, right, sqrt);
    FrameAgrees(n.predicted, last, left, right, dt, sqrt);
    RecordInStep(n, s', p, size);
  }

  lemma RecordInStep(n: Session, s': WorldState, p: WorldState, size: nat)
    requires InStep(n) && SameMotion(p, s') && s'.tick == n.server[0].tick + |n.server|
    ensures InStep(Session(n.server + [s'], p, KeepLast(n.history + [p], size)))
  {
    var server', all := n.server + [s'], n.history + [p];
    forall j | 0 <= j < |all| ensures Matches(all[j], server') {
      if j < |n.history| { MatchesGrows(n.history[j], n.server, s'); }
    }
    forall j | 0 <= j < |n.history| ensures n.history[j].tick < p.tick {
      assert Matches(n.history[j], n.server);
    }
    RecordKeepsOrder(n.history, p, size);
  }

  lemma ReceiveKeepsStep(n: Session, index: nat, epsilon: real, sqrt: real -> real)
    requires InStep(n) && index < |n.server|
    ensures InStep(n.(history := Reconcile(n.history, n.server[index], epsilon, sqrt).0))
  {
    var k := ReconcileLeavesLater(n.history, n.server[index], epsilon, sqrt);
    forall j | 0 <= j < |n.history[k..]| ensures Matches(n.history[k..][j], n.server) {
      assert n.history[k..][j] == n.history[j + k];
    }
  }

  lemma {:induction false} SessionInvariant(start: WorldState, steps: seq<SessionStep>, size: nat, epsilon: real,
                                            sqrt: real -> real)
    ensures InStep(PlayAll(start, steps, size, epsilon, sqrt)) &&
            |PlayAll(start, steps, size, epsilon, sqrt).history| <= size
  {
    if steps != [] {
      var n, step := PlayAll(start, steps[..|steps| - 1], size, epsilon, sqrt), steps[|steps| - 1];
      SessionInvariant(start, steps[..|steps| - 1], size, epsilon, sqrt);
      match step
      case PlayFrame(left, right, dt) => FrameKeepsStep(n, left, right, dt, size, epsilon, sqrt);
      case ReceiveState(index) =>
        if index < |n.server| {
          ReceiveKeepsStep(n, index, epsilon, sqrt);
          var k := ReconcileLeavesLater(n.history, n.server[index], epsilon, sqrt);
        }
    }
  }

  lemma NoErrorWhenSame(p: WorldState, a: WorldState, sqrt: real -> real)
    requires IsSqrt(sqrt) && SameMotion(p, a)
    ensures PositionError(p, a, sqrt) == 0.0
  {
    HypotOfZero(p.ballX - a.ballX, p.ballY - a.ballY, sqrt);
  }

  lemma HypotOfZero(x: real, y: real, sqrt: real -> real)
    requires IsSqrt(sqrt) && x == 0.0 && y == 0.0
    ensures Hypot(x, y, sqrt) == 0.0
  {
    SqrtOfZero(sqrt);
    var q := x * x + y * y;
    assert q == 0.0;
    assert sqrt(q) == sqrt(0.0);
  }

  lemma ZeroProduct(x: real, y: real)
    requires x >= 0.0 && y >= 0.0 && x * y == 0.0
    ensures x == 0.0 || y == 0.0
  {
    if x > 0.0 && y > 0.0 { Product(x, y); }
  }

  lemma SqrtOfZero(sqrt: real -> real)
    requires IsSqrt(sqrt)
    ensures sqrt(0.0) == 0.0
  {
    ZeroProduct(sqrt(0.0), sqrt(0.0));
  }

  lemma NothingInStep(n: Session, index: nat, epsilon: real, sqrt: real -> real)
    requires IsSqrt(sqrt) && epsilon >= 0.0 && InStep(n) && index < |n.server|
    ensures Reconcile(n.history, n.server[index], epsilon, sqrt).1 == NO_ERROR
  {
    var i := FindIndex(n.history, n.server[index].tick);
    if i < |n.history| {
      assert Matches(n.history[i], n.server);
      NoErrorWhenSame(n.history[i], n.server[index], sqrt);
    }
  }

  /**
    With the same start and the same frames, whatever the inputs and step lengths, an
    authoritative state of any past tick, received at any time, in any order and any number of
    times, is reconciled with no error and nothing corrected.
   */
  lemma NothingToCorrect(start: WorldState, steps: seq<SessionStep>, index: nat, size: nat, epsilon: real,
                         sqrt: real -> real)
    requires IsSqrt(sqrt) && epsilon >= 0.0
    requires index < |PlayAll(start, steps, size, epsilon, sqrt).server|
    ensures var n := PlayAll(start, steps, size, epsilon, sqrt);
            Reconcile(n.history, n.server[index], epsilon, sqrt).1 == NO_ERROR
  {
    SessionInvariant(start, steps, size, epsilon, sqrt);
    NothingInStep(PlayAll(start, steps, size, epsilon, sqrt), index, epsilon, sqrt);
  }

  // ------------------------------------------------------------------ what is reported

  lemma SquaresGrow(a: real, b: real)
    requires 0.0 <= b <= a
    ensures a * a >= b * b
  {
    Product(a - b, a + b);
    assert (a - b) * (a + b) == a * a - b * b;
  }

  /** `e` is the largest of the distance (dx, dy) and the two others. */
  ghost predicate LargestError(e: real, dx: real, dy: real, left: real, right: real) {
    && e >= 0.0 && e * e >= dx * dx + dy * dy && -e <= left <= e && -e <= right <= e
    && (e * e == dx * dx + dy * dy || e == left || e == -left || e == right || e == -right)
  }

  /** The error of prediction `p` against the authoritative `a`: of the ball and of either paddle. */
  ghost predicate ErrorOf(e: real, p: WorldState, a: WorldState) {
    LargestError(e, p.ballX - a.ballX, p.ballY - a.ballY,
                 p.leftPaddleY - a.leftPaddleY, p.rightPaddleY - a.rightPaddleY)
  }

  lemma LargestOfThree(h: real, dx: real, dy: real, left: real, right: real)
    requires h >= 0.0 && h * h == dx * dx + dy * dy
    ensures LargestError(Max(Max(h, Abs(left)), Abs(right)), dx, dy, left, right)
  {
    SquaresGrow(Max(Max(h, Abs(left)), Abs(right)), h);
  }

  lemma BallDistance(dx: real, dy: real, sqrt: real -> real) returns (h: real)
    requires IsSqrt(sqrt)
    ensures h == Hypot(dx, dy, sqrt) && h >= 0.0 && h * h == dx * dx + dy * dy
  {
    Square(dx);
    Square(dy);
    h := Hypot(dx, dy, sqrt);
  }

  lemma ErrorExactly(p: WorldState, a: WorldState, sqrt: real -> real)
    requires IsSqrt(sqrt)
    ensures ErrorOf(PositionError(p, a, sqrt), p, a)
  {
    var h := BallDistance(p.ballX - a.ballX, p.ballY - a.ballY, sqrt);
    LargestOfThree(h, p.ballX - a.ballX, p.ballY - a.ballY,
                   p.leftPaddleY - a.leftPaddleY, p.rightPaddleY - a.rightPaddleY);
  }

  /**
    The report: for a tick that was predicted the error of that prediction and, if it exceeds the
    tolerance, how many of the recorded predictions are of that tick or later; for any other
    tick no error and nothing corrected.
   */
  lemma ReportExactly(h: seq<WorldState>, a: WorldState, epsilon: real, sqrt: real -> real) returns (i: nat)
    requires Increasing(h) && IsSqrt(sqrt)
    ensures i <= |h| && (forall j :: 0 <= j < i ==> h[j].tick < a.tick || i == |h|)
    ensures var report := Reconcile(h, a, epsilon, sqrt).1;
            if i < |h|
            then && h[i].tick == a.tick && (forall j :: i < j < |h| ==> h[j].tick > a.tick)
                 && ErrorOf(report.positionError, h[i], a)
                 && report.correctedTicks == (if report.positionError > epsilon then |h| - i else 0)
            else (forall j :: 0 <= j < |h| ==> h[j].tick != a.tick) && report == Report(0, 0.0)
  {
    i := FindIndex(h, a.tick);
    if i < |h| { ErrorExactly(h[i], a, sqrt); }
  }
}
