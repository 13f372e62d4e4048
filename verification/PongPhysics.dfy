/**
  The Pong simulation that server and client both run.  Doubles are reals; the square root
  is a parameter `sqrt` of which only `IsSqrt` is known.
 */
module PongPhysics {
  import opened MachineWords

  datatype Config = Config(width: real, height: real, paddleWidth: real, paddleHeight: real,
                           ballRadius: real, paddleSpeed: real, ballSpeed: real, paddleXOffset: real)

  datatype WorldState = WorldState(ballX: real, ballY: real, ballVx: real, ballVy: real,
                                   leftPaddleY: real, rightPaddleY: real,
                                   leftScore: U32, rightScore: U32, tick: nat,
                                   leftDirection: int, rightDirection: int)

  datatype Side = Left | Right | Spectator

  const DEFAULT := Config(800.0, 480.0, 12.0, 96.0, 8.0, 420.0, 380.0, 32.0)

  /** What `std::clamp` and the division by half a paddle need of a configuration. */
  ghost predicate Sane(c: Config) {
    && 0.0 < c.paddleHeight <= c.height && 0.0 <= c.ballRadius && 2.0 * c.ballRadius <= c.height
    && 0.0 <= c.width && 0.0 < c.ballSpeed
  }

  ghost predicate IsSqrt(sqrt: real -> real) {
    forall x: real :: x >= 0.0 ==> sqrt(x) >= 0.0 && sqrt(x) * sqrt(x) == x
  }

  function Abs(x: real): real { if x < 0.0 then -x else x }
  function Max(x: real, y: real): real { if x < y then y else x }
  function Clamp(x: real, lo: real, hi: real): real { if x < lo then lo else if hi < x then hi else x }
  function ClampInt(x: int, lo: int, hi: int): int { if x < lo then lo else if hi < x then hi else x }

  function ClampDirection(d: int): real { if d > 0 then 1.0 else if d < 0 then -1.0 else 0.0 }

  predicate IsPaddleCollision(ballY: real, paddleY: real, half: real, radius: real) {
    Abs(ballY - paddleY) <= half + radius
  }

  // ------------------------------------------------------- the stages of one advance

  function MovePaddles(s: WorldState, c: Config, dt: real): WorldState {
    var half := c.paddleHeight / 2.0;
    var left := s.leftPaddleY + ClampDirection(s.leftDirection) * c.paddleSpeed * dt;
    var right := s.rightPaddleY + ClampDirection(s.rightDirection) * c.paddleSpeed * dt;
    s.(leftPaddleY := Clamp(left, half, c.height - half), rightPaddleY := Clamp(right, half, c.height - half))
  }

  function MoveBall(s: WorldState, dt: real): WorldState {
    s.(ballX := s.ballX + s.ballVx * dt, ballY := s.ballY + s.ballVy * dt)
  }

  function BounceWalls(s: WorldState, c: Config): WorldState {
    if s.ballY <= c.ballRadius then s.(ballY := c.ballRadius, ballVy := Abs(s.ballVy))
    else if s.ballY >= c.height - c.ballRadius then s.(ballY := c.height - c.ballRadius, ballVy := -Abs(s.ballVy))
    else s
  }

  /** The vertical speed a paddle gives: three quarters of full speed at its ends, none at its centre. */
  function Deflection(ballY: real, paddleY: real, c: Config): real
    requires c.paddleHeight > 0.0
  {
    Relative(ballY, paddleY, c) * c.ballSpeed * 0.75
  }

  function Relative(ballY: real, paddleY: real, c: Config): (r: real)
    requires c.paddleHeight > 0.0
    ensures -1.0 <= r <= 1.0
  {
    Clamp((ballY - paddleY) / (c.paddleHeight / 2.0), -1.0, 1.0)
  }

  function Remaining(vy: real, c: Config): real { Max(c.ballSpeed * c.ballSpeed - vy * vy, 0.0) }

  function HitLeft(s: WorldState, c: Config, sqrt: real -> real): WorldState
    requires c.paddleHeight > 0.0
  {
    var x := c.paddleXOffset + c.paddleWidth / 2.0;
    if s.ballVx < 0.0 && s.ballX - c.ballRadius <= x
       && IsPaddleCollision(s.ballY, s.leftPaddleY, c.paddleHeight / 2.0, c.ballRadius) then
      var vy := Deflection(s.ballY, s.leftPaddleY, c);
      s.(ballX := x + c.ballRadius, ballVy := vy, ballVx := sqrt(Remaining(vy, c)))
    else s
  }

  function HitRight(s: WorldState, c: Config, sqrt: real -> real): WorldState
    requires c.paddleHeight > 0.0
  {
    var x := c.width - c.paddleXOffset - c.paddleWidth / 2.0;
    if s.ballVx > 0.0 && s.ballX + c.ballRadius >= x
       && IsPaddleCollision(s.ballY, s.rightPaddleY, c.paddleHeight / 2.0, c.ballRadius) then
      var vy := Deflection(s.ballY, s.rightPaddleY, c);
      s.(ballX := x - c.ballRadius, ballVy := vy, ballVx := -sqrt(Remaining(vy, c)))
    else s
  }

  function Serve(s: WorldState, c: Config, vx: real): WorldState {
    s.(ballX := c.width / 2.0, ballY := c.height / 2.0, ballVx := vx, ballVy := 0.0)
  }

  function Score(s: WorldState, c: Config): WorldState {
    if s.ballX < -c.ballRadius then
      Serve(s, c, c.ballSpeed).(rightScore := (s.rightScore + 1) % TWO_32)
    else if s.ballX > c.width + c.ballRadius then
      Serve(s, c, -c.ballSpeed).(leftScore := (s.leftScore + 1) % TWO_32)
    else s
  }

  function Strike(s: WorldState, c: Config, sqrt: real -> real): WorldState
    requires c.paddleHeight > 0.0
  {
    HitRight(HitLeft(s, c, sqrt), c, sqrt)
  }

  function Advance(s: WorldState, c: Config, dt: real, sqrt: real -> real): WorldState
    requires c.paddleHeight > 0.0
  {
    Score(Strike(BounceWalls(MoveBall(MovePaddles(s, c, dt), dt), c), c, sqrt), c)
  }

  // ------------------------------------------------------------ what a run keeps

  ghost predicate SpeedOk(s: WorldState, c: Config) {
    && s.ballVx * s.ballVx + s.ballVy * s.ballVy == c.ballSpeed * c.ballSpeed
    && 16.0 * (s.ballVx * s.ballVx) >= 7.0 * (c.ballSpeed * c.ballSpeed)
  }

  ghost predicate PaddlesOk(s: WorldState, c: Config) {
    var half := c.paddleHeight / 2.0;
    half <= s.leftPaddleY <= c.height - half && half <= s.rightPaddleY <= c.height - half
  }

  ghost predicate BallYOk(s: WorldState, c: Config) { c.ballRadius <= s.ballY <= c.height - c.ballRadius }

  ghost predicate BallXOk(s: WorldState, c: Config) { -c.ballRadius <= s.ballX <= c.width + c.ballRadius }

  ghost predicate DirectionsOk(s: WorldState) { -1 <= s.leftDirection <= 1 && -1 <= s.rightDirection <= 1 }

  ghost predicate WorldOk(s: WorldState, c: Config) {
    && SpeedOk(s, c) && PaddlesOk(s, c) && BallYOk(s, c) && BallXOk(s, c) && DirectionsOk(s)
    && s.leftScore + s.rightScore <= s.tick
  }

  lemma Square(x: real)
    ensures x * x >= 0.0 && (-x) * (-x) == x * x
  {
    if x < 0.0 { Product(-x, -x); } else { Product(x, x); }
  }

  lemma Product(x: real, y: real)
    requires x >= 0.0 && y >= 0.0
    ensures x * y >= 0.0
    ensures x > 0.0 && y > 0.0 ==> x * y > 0.0
  {
  }

  lemma SquareBelowOne(r: real)
    requires -1.0 <= r <= 1.0
    ensures r * r <= 1.0
  {
    Product(1.0 - r, 1.0 + r);
    assert (1.0 - r) * (1.0 + r) == 1.0 - r * r;
  }

  /** At most three quarters of full speed goes vertical, so at least 7/16 of the square stays horizontal. */
  lemma DeflectionBound(r: real, speed: real, vy: real)
    requires -1.0 <= r <= 1.0 && vy == r * speed * 0.75
    ensures 16.0 * (vy * vy) <= 9.0 * (speed * speed)
  {
    SquareBelowOne(r);
    Square(speed);
    Product(1.0 - r * r, speed * speed);
    assert 16.0 * (vy * vy) == 9.0 * ((r * r) * (speed * speed));
    assert (1.0 - r * r) * (speed * speed) == speed * speed - (r * r) * (speed * speed);
  }

  lemma StruckSpeed(s: WorldState, vy: real, c: Config, sqrt: real -> real)
    requires IsSqrt(sqrt) && 16.0 * (vy * vy) <= 9.0 * (c.ballSpeed * c.ballSpeed)
    requires s.ballVy == vy && (s.ballVx == sqrt(Remaining(vy, c)) || s.ballVx == -sqrt(Remaining(vy, c)))
    ensures SpeedOk(s, c)
  {
    Square(c.ballSpeed);
    var q := sqrt(Remaining(vy, c));
    Square(q);
    assert q * q == Remaining(vy, c);
  }

  lemma Deflected(ballY: real, paddleY: real, c: Config)
    requires Sane(c)
    ensures var vy := Deflection(ballY, paddleY, c); 16.0 * (vy * vy) <= 9.0 * (c.ballSpeed * c.ballSpeed)
  {
    DeflectionBound(Relative(ballY, paddleY, c), c.ballSpeed, Deflection(ballY, paddleY, c));
  }

  lemma HitLeftKeepsSpeed(s: WorldState, c: Config, sqrt: real -> real)
    requires Sane(c) && IsSqrt(sqrt) && SpeedOk(s, c)
    ensures SpeedOk(HitLeft(s, c, sqrt), c)
  {
    var vy, s' := Deflection(s.ballY, s.leftPaddleY, c), HitLeft(s, c, sqrt);
    Deflected(s.ballY, s.leftPaddleY, c);
    if s' != s { StruckSpeed(s', vy, c, sqrt); }
  }

  lemma HitRightKeepsSpeed(s: WorldState, c: Config, sqrt: real -> real)
    requires Sane(c) && IsSqrt(sqrt) && SpeedOk(s, c)
    ensures SpeedOk(HitRight(s, c, sqrt), c)
  {
    var vy, s' := Deflection(s.ballY, s.rightPaddleY, c), HitRight(s, c, sqrt);
    Deflected(s.ballY, s.rightPaddleY, c);
    if s' != s { StruckSpeed(s', vy, c, sqrt); }
  }

  lemma BounceKeepsSpeed(s: WorldState, c: Config)
    requires SpeedOk(s, c)
    ensures SpeedOk(BounceWalls(s, c), c)
  {
    Square(s.ballVy);
    Square(Abs(s.ballVy));
  }

  lemma ScoreKeepsSpeed(s: WorldState, c: Config)
    requires SpeedOk(s, c)
    ensures SpeedOk(Score(s, c), c)
  {
    Square(c.ballSpeed);
  }

  lemma AdvanceKeepsSpeed(s: WorldState, c: Config, dt: real, sqrt: real -> real)
    requires Sane(c) && IsSqrt(sqrt) && SpeedOk(s, c)
    ensures SpeedOk(Advance(s, c, dt, sqrt), c)
  {
    var moved := MoveBall(MovePaddles(s, c, dt), dt);
    BounceKeepsSpeed(moved, c);
    var bounced := BounceWalls(moved, c);
    HitLeftKeepsSpeed(bounced, c, sqrt);
    var left := HitLeft(bounced, c, sqrt);
    HitRightKeepsSpeed(left, c, sqrt);
    ScoreKeepsSpeed(HitRight(left, c, sqrt), c);
  }

  /** What one advance does to everything but the speed, for any step length. */
  lemma AdvanceStaysOnField(s: WorldState, c: Config, dt: real, sqrt: real -> real)
    requires Sane(c)
    ensures var s' := Advance(s, c, dt, sqrt);
            && PaddlesOk(s', c) && BallYOk(s', c) && BallXOk(s', c)
            && s'.tick == s.tick && s'.leftDirection == s.leftDirection && s'.rightDirection == s.rightDirection
  {
    var moved := MoveBall(MovePaddles(s, c, dt), dt);
    assert PaddlesOk(moved, c);
    var bounced := BounceWalls(moved, c);
    assert BallYOk(bounced, c) && PaddlesOk(bounced, c);
    StrikeMovesOnlyBall(bounced, c, sqrt);
    ScoreServesInside(Strike(bounced, c, sqrt), c);
  }

  lemma StrikeMovesOnlyBall(s: WorldState, c: Config, sqrt: real -> real)
    requires c.paddleHeight > 0.0
    ensures var s' := Strike(s, c, sqrt);
            s' == s.(ballX := s'.ballX, ballVx := s'.ballVx, ballVy := s'.ballVy)
  {
    var l := HitLeft(s, c, sqrt);
    assert l == s.(ballX := l.ballX, ballVx := l.ballVx, ballVy := l.ballVy);
    var r := HitRight(l, c, sqrt);
    assert r == l.(ballX := r.ballX, ballVx := r.ballVx, ballVy := r.ballVy);
  }

  lemma ScoreServesInside(s: WorldState, c: Config)
    requires Sane(c) && BallYOk(s, c)
    ensures var s' := Score(s, c);
            && BallXOk(s', c) && BallYOk(s', c)
            && s'.leftPaddleY == s.leftPaddleY && s'.rightPaddleY == s.rightPaddleY
            && s'.tick == s.tick && s'.leftDirection == s.leftDirection && s'.rightDirection == s.rightDirection
  {
  }

  /** One point at most is scored per advance: one score is bumped, or neither. */
  ghost predicate OnePoint(s: WorldState, s': WorldState) {
    || (s'.leftScore == s.leftScore && s'.rightScore == s.rightScore)
    || (s'.leftScore == (s.leftScore + 1) % TWO_32 && s'.rightScore == s.rightScore)
    || (s'.leftScore == s.leftScore && s'.rightScore == (s.rightScore + 1) % TWO_32)
  }

  lemma AdvanceScores(s: WorldState, c: Config, dt: real, sqrt: real -> real)
    requires c.paddleHeight > 0.0
    ensures OnePoint(s, Advance(s, c, dt, sqrt))
  {
    var bounced := BounceWalls(MoveBall(MovePaddles(s, c, dt), dt), c);
    StrikeMovesOnlyBall(bounced, c, sqrt);
  }

  /** Everything `WorldOk` says survives an advance of any length, if the tick then counts up. */
  lemma AdvanceKeepsOk(s: WorldState, c: Config, dt: real, sqrt: real -> real)
    requires Sane(c) && IsSqrt(sqrt) && WorldOk(s, c)
    ensures WorldOk(Advance(s, c, dt, sqrt).(tick := s.tick + 1), c)
  {
    AdvanceKeepsSpeed(s, c, dt, sqrt);
    AdvanceStaysOnField(s, c, dt, sqrt);
    AdvanceScores(s, c, dt, sqrt);
    var s' := Advance(s, c, dt, sqrt);
    TickOnly(s', s'.(tick := s.tick + 1), c);
  }

  lemma TickOnly(s: WorldState, s': WorldState, c: Config)
    requires s' == s.(tick := s'.tick)
    ensures SpeedOk(s, c) == SpeedOk(s', c) && PaddlesOk(s, c) == PaddlesOk(s', c)
    ensures BallYOk(s, c) == BallYOk(s', c) && BallXOk(s, c) == BallXOk(s', c) && DirectionsOk(s) == DirectionsOk(s')
  {
  }

  /** Histories with later and later ticks. */
  ghost predicate Increasing(h: seq<WorldState>) {
    forall i, j :: 0 <= i < j < |h| ==> h[i].tick < h[j].tick
  }

  // --------------------------------------------------------------------- the world

  const INITIAL := WorldState(DEFAULT.width / 2.0, DEFAULT.height / 2.0, DEFAULT.ballSpeed, 0.0,
                              DEFAULT.height / 2.0, DEFAULT.height / 2.0, 0, 0, 0, 0, 0)

  datatype Event = Input(side: Side, direction: int) | Tick(dt: real)

  function SetInput(s: WorldState, side: Side, direction: int): WorldState {
    match side
    case Left => s.(leftDirection := ClampInt(direction, -1, 1))
    case Right => s.(rightDirection := ClampInt(direction, -1, 1))
    case Spectator => s
  }

  function Step(s: WorldState, dt: real, sqrt: real -> real): WorldState {
    var s' := Advance(s, DEFAULT, dt, sqrt);
    s'.(tick := s'.tick + 1)
  }

  function Happen(s: WorldState, e: Event, sqrt: real -> real): WorldState {
    match e
    case Input(side, direction) => SetInput(s, side, direction)
    case Tick(dt) => Step(s, dt, sqrt)
  }

  function RunWorld(events: seq<Event>, sqrt: real -> real): WorldState {
    if events == [] then INITIAL
    else
      Happen(RunWorld(events[..|events| - 1], sqrt), events[|events| - 1], sqrt)
  }

  lemma InitialOk()
    ensures Sane(DEFAULT) && WorldOk(INITIAL, DEFAULT)
  {
  }

  lemma EventKeepsOk(s: WorldState, e: Event, sqrt: real -> real)
    requires IsSqrt(sqrt) && WorldOk(s, DEFAULT)
    ensures WorldOk(Happen(s, e, sqrt), DEFAULT)
  {
    InitialOk();
    if e.Tick? {
      AdvanceStaysOnField(s, DEFAULT, e.dt, sqrt);
      AdvanceKeepsOk(s, DEFAULT, e.dt, sqrt);
    } else {
      assert SpeedOk(Happen(s, e, sqrt), DEFAULT) == SpeedOk(s, DEFAULT);
    }
  }

  /**
    Every run, whatever the inputs and step lengths, keeps the ball's speed exactly, never
    lets it stall, and keeps paddles and ball on the field and the scores within the tick count.
   */
  lemma {:induction false} WorldInvariant(events: seq<Event>, sqrt: real -> real)
    requires IsSqrt(sqrt)
    ensures WorldOk(RunWorld(events, sqrt), DEFAULT)
  {
    if events == [] {
      InitialOk();
    } else {
      var before := events[..|events| - 1];
      WorldInvariant(before, sqrt);
      EventKeepsOk(RunWorld(before, sqrt), events[|events| - 1], sqrt);
    }
  }

  class World {
    var state: WorldState

    constructor ()
      ensures state == INITIAL
    {
      state := INITIAL;
    }

    method SetPlayerInput(side: Side, direction: int)
      modifies this
      ensures state == SetInput(old(state), side, direction)
    {
      var clamped := ClampInt(direction, -1, 1);
      if side == Left {
        state := state.(leftDirection := clamped);
      } else if side == Right {
        state := state.(rightDirection := clamped);
      }
    }

    method StepWorld(dt: real, sqrt: real -> real)
      modifies this
      ensures state == Step(old(state), dt, sqrt)
    {
      state := AdvanceInPlace(state, DEFAULT, dt, sqrt);
      state := state.(tick := state.tick + 1);
    }
  }

  /** `physics::advance`, assigning the state field by field. */
  method AdvanceInPlace(start: WorldState, c: Config, dt: real, sqrt: real -> real) returns (s: WorldState)
    requires c.paddleHeight > 0.0
    ensures s == Advance(start, c, dt, sqrt)
  {
    s := MoveInPlace(start, c, dt);
    s := BounceInPlace(s, c);
    s := StrikeInPlace(s, c, sqrt);
    s := ScoreInPlace(s, c);
  }

  method BounceInPlace(start: WorldState, c: Config) returns (s: WorldState)
    ensures s == BounceWalls(start, c)
  {
    s := start;
    if s.ballY <= c.ballRadius {
      s := s.(ballY := c.ballRadius);
      s := s.(ballVy := Abs(s.ballVy));
    } else if s.ballY >= c.height - c.ballRadius {
      s := s.(ballY := c.height - c.ballRadius);
      s := s.(ballVy := -Abs(s.ballVy));
    }
  }

  method ScoreInPlace(start: WorldState, c: Config) returns (s: WorldState)
    ensures s == Score(start, c)
  {
    s := start;
    if s.ballX < -c.ballRadius {
      s := s.(rightScore := (s.rightScore + 1) % TWO_32);
      s := s.(ballX := c.width / 2.0, ballY := c.height / 2.0, ballVx := c.ballSpeed, ballVy := 0.0);
    } else if s.ballX > c.width + c.ballRadius {
      s := s.(leftScore := (s.leftScore + 1) % TWO_32);
      s := s.(ballX := c.width / 2.0, ballY := c.height / 2.0, ballVx := -c.ballSpeed, ballVy := 0.0);
    }
  }

  method MoveInPlace(start: WorldState, c: Config, dt: real) returns (s: WorldState)
    ensures s == MoveBall(MovePaddles(start, c, dt), dt)
  {
    s := start;
    var half := c.paddleHeight / 2.0;
    s := s.(leftPaddleY := s.leftPaddleY + ClampDirection(s.leftDirection) * c.paddleSpeed * dt);
    s := s.(rightPaddleY := s.rightPaddleY + ClampDirection(s.rightDirection) * c.paddleSpeed * dt);
    s := s.(leftPaddleY := Clamp(s.leftPaddleY, half, c.height - half));
    s := s.(rightPaddleY := Clamp(s.rightPaddleY, half, c.height - half));
    s := s.(ballX := s.ballX + s.ballVx * dt);
    s := s.(ballY := s.ballY + s.ballVy * dt);
  }

  method StrikeInPlace(start: WorldState, c: Config, sqrt: real -> real) returns (s: WorldState)
    requires c.paddleHeight > 0.0
    ensures s == Strike(start, c, sqrt)
  {
    s := start;
    var half := c.paddleHeight / 2.0;
    var leftPaddleX := c.paddleXOffset + c.paddleWidth / 2.0;
    var rightPaddleX := c.width - c.paddleXOffset - c.paddleWidth / 2.0;
    if s.ballVx < 0.0 && s.ballX - c.ballRadius <= leftPaddleX {
      if IsPaddleCollision(s.ballY, s.leftPaddleY, half, c.ballRadius) {
        s := s.(ballX := leftPaddleX + c.ballRadius);
        s := s.(ballVy := Deflection(s.ballY, s.leftPaddleY, c));
        s := s.(ballVx := sqrt(Remaining(s.ballVy, c)));
      }
    }
    if s.ballVx > 0.0 && s.ballX + c.ballRadius >= rightPaddleX {
      if IsPaddleCollision(s.ballY, s.rightPaddleY, half, c.ballRadius) {
        s := s.(ballX := rightPaddleX - c.ballRadius);
        s := s.(ballVy := Deflection(s.ballY, s.rightPaddleY, c));
        s := s.(ballVx := -sqrt(Remaining(s.ballVy, c)));
      }
    }
  }
}
