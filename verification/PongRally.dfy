/**
  One advance of the Pong simulation case by case, in coordinates: where the paddles go, which
  ball a paddle returns and how, and who gets a point for which.
 */
module PongRally {
  import opened MachineWords
  import opened PongPhysics

  /** The paddles stand behind each other's reach: a ball touches at most one of them. */
  ghost predicate Wide(c: Config) {
    && 0.0 <= c.paddleXOffset && 0.0 <= c.paddleWidth
    && 2.0 * c.paddleXOffset + c.paddleWidth + 2.0 * c.ballRadius < c.width
  }

  function Kept(x: real, low: real, high: real): real { if x < low then low else if x > high then high else x }

  /** A paddle goes down for a positive direction and up for a negative one, and stops at the walls. */
  function PaddleAfter(y: real, direction: int, c: Config, dt: real): real {
    var way := c.paddleSpeed * dt;
    Kept(if direction > 0 then y + way else if direction < 0 then y - way else y,
         c.paddleHeight / 2.0, c.height - c.paddleHeight / 2.0)
  }

  /** The ball's height when it has flown on and stopped at the walls. */
  function HeightAfter(s: WorldState, c: Config, dt: real): real {
    Kept(s.ballY + s.ballVy * dt, c.ballRadius, c.height - c.ballRadius)
  }

  /** Its vertical speed then: away from a wall it has reached. */
  function RiseAfter(s: WorldState, c: Config, dt: real): real { Away(s.ballY + s.ballVy * dt, s.ballVy, c) }

  function Away(y: real, v: real, c: Config): real {
    if y <= c.ballRadius then (if v < 0.0 then -v else v)
    else if y >= c.height - c.ballRadius then (if v < 0.0 then v else -v)
    else v
  }

  /** The vertical speed a paddle gives to a ball this far from its centre. */
  function Spin(off: real, c: Config): real
    requires c.paddleHeight > 0.0
  {
    Kept(off / (c.paddleHeight / 2.0), -1.0, 1.0) * c.ballSpeed * 0.75
  }

  /** No further from the centre of the paddle than half of it and the ball's radius. */
  predicate Meets(y: real, paddle: real, c: Config) {
    -(c.paddleHeight / 2.0 + c.ballRadius) <= y - paddle <= c.paddleHeight / 2.0 + c.ballRadius
  }

  /** The paddles have moved, nothing else but the ball and the scores has changed. */
  ghost predicate PaddlesMoved(s: WorldState, s': WorldState, c: Config, dt: real) {
    && s'.leftPaddleY == PaddleAfter(s.leftPaddleY, s.leftDirection, c, dt)
    && s'.rightPaddleY == PaddleAfter(s.rightPaddleY, s.rightDirection, c, dt)
    && s'.leftDirection == s.leftDirection && s'.rightDirection == s.rightDirection && s'.tick == s.tick
  }

  ghost predicate SameScores(s: WorldState, s': WorldState) {
    s'.leftScore == s.leftScore && s'.rightScore == s.rightScore
  }

  ghost predicate BallAt(s: WorldState, x: real, y: real, vx: real, vy: real) {
    s.ballX == x && s.ballY == y && s.ballVx == vx && s.ballVy == vy
  }

  lemma OneWay(d: int, speed: real, dt: real)
    ensures ClampDirection(d) * speed * dt == if d > 0 then speed * dt else if d < 0 then -(speed * dt) else 0.0
  {
    Times(1.0, speed, dt);
    Times(-1.0, speed, dt);
    Times(0.0, speed, dt);
  }

  lemma Times(e: real, speed: real, dt: real)
    ensures e * speed * dt == e * (speed * dt)
  {
  }

  lemma Bounced(s: WorldState, c: Config)
    requires Sane(c)
    ensures var y := Kept(s.ballY, c.ballRadius, c.height - c.ballRadius);
            BounceWalls(s, c) == s.(ballY := y, ballVy := Away(s.ballY, s.ballVy, c))
  {
  }

  lemma PaddlesMove(s: WorldState, c: Config, dt: real)
    requires Sane(c)
    ensures MovePaddles(s, c, dt) == s.(leftPaddleY := PaddleAfter(s.leftPaddleY, s.leftDirection, c, dt),
                                        rightPaddleY := PaddleAfter(s.rightPaddleY, s.rightDirection, c, dt))
  {
    OneWay(s.leftDirection, c.paddleSpeed, dt);
    OneWay(s.rightDirection, c.paddleSpeed, dt);
  }

  /** The state when paddles and ball have moved and the ball has met the walls. */
  lemma Moved(s: WorldState, c: Config, dt: real) returns (m: WorldState)
    requires Sane(c)
    ensures m == BounceWalls(MoveBall(MovePaddles(s, c, dt), dt), c)
    ensures PaddlesMoved(s, m, c, dt) && SameScores(s, m)
    ensures BallAt(m, s.ballX + s.ballVx * dt, HeightAfter(s, c, dt), s.ballVx, RiseAfter(s, c, dt))
  {
    PaddlesMove(s, c, dt);
    Bounced(MoveBall(MovePaddles(s, c, dt), dt), c);
    m := BounceWalls(MoveBall(MovePaddles(s, c, dt), dt), c);
  }

  lemma SpinIsDeflection(y: real, paddle: real, c: Config)
    requires c.paddleHeight > 0.0
    ensures Spin(y - paddle, c) == Deflection(y, paddle, c)
  {
  }

  lemma Factors(x: real, y: real, v: real)
    requires x >= 0.0 && y == x && x * y == v
    ensures x > 0.0 <==> v > 0.0
  {
    if x > 0.0 { Product(x, y); }
  }

  lemma PositiveRoot(x: real, v: real)
    requires x >= 0.0 && x * x == v
    ensures x > 0.0 <==> v > 0.0
  {
    Factors(x, x, v);
  }

  lemma SomethingRemains(vy: real, w: real, q: real, c: Config)
    requires Sane(c) && w == vy * vy && q == c.ballSpeed * c.ballSpeed && 16.0 * w <= 9.0 * q
    ensures Remaining(vy, c) > 0.0 && Remaining(vy, c) == q - w
  {
    PositiveRoot(c.ballSpeed, q);
  }

  /** Sent back to the right: full speed, at most three quarters of it vertical. */
  lemma SentBack(vy: real, c: Config, sqrt: real -> real)
    requires Sane(c) && IsSqrt(sqrt) && 16.0 * (vy * vy) <= 9.0 * (c.ballSpeed * c.ballSpeed)
    ensures var vx := sqrt(Remaining(vy, c)); vx > 0.0 && vx * vx + vy * vy == c.ballSpeed * c.ballSpeed
  {
    SomethingRemains(vy, vy * vy, c.ballSpeed * c.ballSpeed, c);
    PositiveRoot(sqrt(Remaining(vy, c)), Remaining(vy, c));
  }

  ghost predicate FullSpeed(vx: real, vy: real, c: Config) { vx * vx + vy * vy == c.ballSpeed * c.ballSpeed }

  /** What becomes of the ball at height `y` and speeds `vx` and `vy` that would be at `x`, by the left paddle. */
  ghost predicate LeftSide(s: WorldState, s': WorldState, c: Config, dt: real)
    requires c.paddleHeight > 0.0
  {
    var x, y := s.ballX + s.ballVx * dt, HeightAfter(s, c, dt);
    var paddle := PaddleAfter(s.leftPaddleY, s.leftDirection, c, dt);
    var front := c.paddleXOffset + c.paddleWidth / 2.0 + c.ballRadius;
    if x <= front && Meets(y, paddle, c) then
      && SameScores(s, s') && BallAt(s', front, y, s'.ballVx, Spin(y - paddle, c))
      && s'.ballVx > 0.0 && FullSpeed(s'.ballVx, s'.ballVy, c)
    else if x < -c.ballRadius then
      && s'.rightScore == (s.rightScore + 1) % 0x1_0000_0000 && s'.leftScore == s.leftScore
      && BallAt(s', c.width / 2.0, c.height / 2.0, c.ballSpeed, 0.0)
    else
      SameScores(s, s') && BallAt(s', x, y, s.ballVx, RiseAfter(s, c, dt))
  }

  ghost predicate RightSide(s: WorldState, s': WorldState, c: Config, dt: real)
    requires c.paddleHeight > 0.0
  {
    var x, y := s.ballX + s.ballVx * dt, HeightAfter(s, c, dt);
    var paddle := PaddleAfter(s.rightPaddleY, s.rightDirection, c, dt);
    var front := c.width - c.paddleXOffset - c.paddleWidth / 2.0 - c.ballRadius;
    if x >= front && Meets(y, paddle, c) then
      && SameScores(s, s') && BallAt(s', front, y, s'.ballVx, Spin(y - paddle, c))
      && s'.ballVx < 0.0 && FullSpeed(s'.ballVx, s'.ballVy, c)
    else if x > c.width + c.ballRadius then
      && s'.leftScore == (s.leftScore + 1) % 0x1_0000_0000 && s'.rightScore == s.rightScore
      && BallAt(s', c.width / 2.0, c.height / 2.0, -c.ballSpeed, 0.0)
    else
      SameScores(s, s') && BallAt(s', x, y, s.ballVx, RiseAfter(s, c, dt))
  }

  lemma NoFurther(v: real, dt: real)
    requires dt >= 0.0
    ensures v <= 0.0 ==> v * dt <= 0.0
    ensures v >= 0.0 ==> v * dt >= 0.0
  {
    if v <= 0.0 { Product(-v, dt); assert (-v) * dt == -(v * dt); }
    if v >= 0.0 { Product(v, dt); }
  }

  /** A ball that has come from the right, with the paddles and walls behind it. */
  lemma MetOnTheLeft(m: WorldState, c: Config, sqrt: real -> real, vx: real, vy: real)
    requires Sane(c) && Wide(c) && m.ballVx < 0.0 && m.ballX <= c.width + c.ballRadius
    requires vy == Deflection(m.ballY, m.leftPaddleY, c) && vx == sqrt(Remaining(vy, c)) && vx > 0.0
    ensures var front := c.paddleXOffset + c.paddleWidth / 2.0 + c.ballRadius;
            Score(Strike(m, c, sqrt), c)
            == if m.ballX <= front && Meets(m.ballY, m.leftPaddleY, c)
               then m.(ballX := front, ballVx := vx, ballVy := vy)
               else if m.ballX < -c.ballRadius then
                 m.(ballX := c.width / 2.0, ballY := c.height / 2.0, ballVx := c.ballSpeed, ballVy := 0.0,
                    rightScore := (m.rightScore + 1) % 0x1_0000_0000)
               else m
  {
  }

  lemma MetOnTheRight(m: WorldState, c: Config, sqrt: real -> real, vx: real, vy: real)
    requires Sane(c) && Wide(c) && m.ballVx > 0.0 && m.ballX >= -c.ballRadius
    requires vy == Deflection(m.ballY, m.rightPaddleY, c) && vx == sqrt(Remaining(vy, c)) && vx > 0.0
    ensures var front := c.width - c.paddleXOffset - c.paddleWidth / 2.0 - c.ballRadius;
            Score(Strike(m, c, sqrt), c)
            == if m.ballX >= front && Meets(m.ballY, m.rightPaddleY, c)
               then m.(ballX := front, ballVx := -vx, ballVy := vy)
               else if m.ballX > c.width + c.ballRadius then
                 m.(ballX := c.width / 2.0, ballY := c.height / 2.0, ballVx := -c.ballSpeed, ballVy := 0.0,
                    leftScore := (m.leftScore + 1) % 0x1_0000_0000)
               else m
  {
  }

  lemma MetLeftInAll(s: WorldState, m: WorldState, s': WorldState, c: Config, dt: real, vx: real, vy: real)
    requires c.paddleHeight > 0.0 && PaddlesMoved(s, m, c, dt) && SameScores(s, m)
    requires BallAt(m, s.ballX + s.ballVx * dt, HeightAfter(s, c, dt), s.ballVx, RiseAfter(s, c, dt))
    requires vy == Spin(m.ballY - m.leftPaddleY, c) && vx > 0.0 && FullSpeed(vx, vy, c)
    requires var front := c.paddleXOffset + c.paddleWidth / 2.0 + c.ballRadius;
             s' == if m.ballX <= front && Meets(m.ballY, m.leftPaddleY, c)
                   then m.(ballX := front, ballVx := vx, ballVy := vy)
                   else if m.ballX < -c.ballRadius then
                     m.(ballX := c.width / 2.0, ballY := c.height / 2.0, ballVx := c.ballSpeed, ballVy := 0.0,
                        rightScore := (m.rightScore + 1) % 0x1_0000_0000)
                   else m
    ensures PaddlesMoved(s, s', c, dt) && LeftSide(s, s', c, dt)
  {
  }

  lemma MetRightInAll(s: WorldState, m: WorldState, s': WorldState, c: Config, dt: real, vx: real, vy: real)
    requires c.paddleHeight > 0.0 && PaddlesMoved(s, m, c, dt) && SameScores(s, m)
    requires BallAt(m, s.ballX + s.ballVx * dt, HeightAfter(s, c, dt), s.ballVx, RiseAfter(s, c, dt))
    requires vy == Spin(m.ballY - m.rightPaddleY, c) && vx > 0.0 && FullSpeed(-vx, vy, c)
    requires var front := c.width - c.paddleXOffset - c.paddleWidth / 2.0 - c.ballRadius;
             s' == if m.ballX >= front && Meets(m.ballY, m.rightPaddleY, c)
                   then m.(ballX := front, ballVx := -vx, ballVy := vy)
                   else if m.ballX > c.width + c.ballRadius then
                     m.(ballX := c.width / 2.0, ballY := c.height / 2.0, ballVx := -c.ballSpeed, ballVy := 0.0,
                        leftScore := (m.leftScore + 1) % 0x1_0000_0000)
                   else m
    ensures PaddlesMoved(s, s', c, dt) && RightSide(s, s', c, dt)
  {
  }

  lemma EitherWay(vx: real, vy: real, c: Config)
    requires FullSpeed(vx, vy, c)
    ensures FullSpeed(-vx, vy, c)
  {
    Square(vx);
  }

  /** The same with what is known of the speeds the left paddle gives. */
  lemma StruckOnTheLeft(m: WorldState, c: Config, sqrt: real -> real) returns (vx: real, vy: real)
    requires Sane(c) && Wide(c) && IsSqrt(sqrt) && m.ballVx < 0.0 && m.ballX <= c.width + c.ballRadius
    ensures vy == Spin(m.ballY - m.leftPaddleY, c) && vx > 0.0
    ensures FullSpeed(vx, vy, c) && FullSpeed(-vx, vy, c)
    ensures var front := c.paddleXOffset + c.paddleWidth / 2.0 + c.ballRadius;
            Score(Strike(m, c, sqrt), c)
            == if m.ballX <= front && Meets(m.ballY, m.leftPaddleY, c)
               then m.(ballX := front, ballVx := vx, ballVy := vy)
               else if m.ballX < -c.ballRadius then
                 m.(ballX := c.width / 2.0, ballY := c.height / 2.0, ballVx := c.ballSpeed, ballVy := 0.0,
                    rightScore := (m.rightScore + 1) % 0x1_0000_0000)
               else m
  {
    vy := Deflection(m.ballY, m.leftPaddleY, c);
    Deflected(m.ballY, m.leftPaddleY, c);
    SpinIsDeflection(m.ballY, m.leftPaddleY, c);
    SentBack(vy, c, sqrt);
    vx := sqrt(Remaining(vy, c));
    EitherWay(vx, vy, c);
    MetOnTheLeft(m, c, sqrt, vx, vy);
  }

  /** The same with what is known of the speeds the right paddle gives. */
  lemma StruckOnTheRight(m: WorldState, c: Config, sqrt: real -> real) returns (vx: real, vy: real)
    requires Sane(c) && Wide(c) && IsSqrt(sqrt) && m.ballVx > 0.0 && m.ballX >= -c.ballRadius
    ensures vy == Spin(m.ballY - m.rightPaddleY, c) && vx > 0.0
    ensures FullSpeed(vx, vy, c) && FullSpeed(-vx, vy, c)
    ensures var front := c.width - c.paddleXOffset - c.paddleWidth / 2.0 - c.ballRadius;
            Score(Strike(m, c, sqrt), c)
            == if m.ballX >= front && Meets(m.ballY, m.rightPaddleY, c)
               then m.(ballX := front, ballVx := -vx, ballVy := vy)
               else if m.ballX > c.width + c.ballRadius then
                 m.(ballX := c.width / 2.0, ballY := c.height / 2.0, ballVx := -c.ballSpeed, ballVy := 0.0,
                    leftScore := (m.leftScore + 1) % 0x1_0000_0000)
               else m
  {
    vy := Deflection(m.ballY, m.rightPaddleY, c);
    Deflected(m.ballY, m.rightPaddleY, c);
    SpinIsDeflection(m.ballY, m.rightPaddleY, c);
    SentBack(vy, c, sqrt);
    vx := sqrt(Remaining(vy, c));
    EitherWay(vx, vy, c);
    MetOnTheRight(m, c, sqrt, vx, vy);
  }

  /**
    A ball flying to the left, for any length of step.  It is returned, to the right and at full
    speed, if it has come as far as the left paddle and meets it; if not, and it is past the
    left edge, the right player gets the point and the ball is served to the right from the
    centre; otherwise it flies on.
   */
  lemma LeftwardExactly(s: WorldState, c: Config, dt: real, sqrt: real -> real)
    requires Sane(c) && Wide(c) && IsSqrt(sqrt) && BallXOk(s, c) && s.ballVx < 0.0 && dt >= 0.0
    ensures PaddlesMoved(s, Advance(s, c, dt, sqrt), c, dt) && LeftSide(s, Advance(s, c, dt, sqrt), c, dt)
  {
    var m := Moved(s, c, dt);
    NoFurther(s.ballVx, dt);
    var vx, vy := StruckOnTheLeft(m, c, sqrt);
    MetLeftInAll(s, m, Advance(s, c, dt, sqrt), c, dt, vx, vy);
  }

  /** A ball flying to the right: the same the other way round. */
  lemma RightwardExactly(s: WorldState, c: Config, dt: real, sqrt: real -> real)
    requires Sane(c) && Wide(c) && IsSqrt(sqrt) && BallXOk(s, c) && s.ballVx > 0.0 && dt >= 0.0
    ensures PaddlesMoved(s, Advance(s, c, dt, sqrt), c, dt) && RightSide(s, Advance(s, c, dt, sqrt), c, dt)
  {
    var m := Moved(s, c, dt);
    NoFurther(s.ballVx, dt);
    var vx, vy := StruckOnTheRight(m, c, sqrt);
    MetRightInAll(s, m, Advance(s, c, dt, sqrt), c, dt, vx, vy);
  }

  // ------------------------------------------------------------------ the server's game

  lemma NeverStalls(s: WorldState)
    requires SpeedOk(s, DEFAULT)
    ensures s.ballVx != 0.0
  {
    if s.ballVx == 0.0 { NoSpeed(s.ballVx, s.ballVx); }
  }

  lemma NoSpeed(v: real, w: real)
    requires v == 0.0
    ensures v * w == 0.0
  {
  }

  /**
    In every run each step of the server's game, 800 by 480 with paddles of 12 by 96 in front of
    its edges by 32, a ball of radius 8, and speeds of 420 and 380, is one of those cases.
   */
  lemma RallyExactly(events: seq<Event>, dt: real, sqrt: real -> real)
    requires IsSqrt(sqrt) && dt >= 0.0
    ensures var s, after := RunWorld(events, sqrt), Step(RunWorld(events, sqrt), dt, sqrt);
            var s' := after.(tick := s.tick);
            var c := Config(800.0, 480.0, 12.0, 96.0, 8.0, 420.0, 380.0, 32.0);
            && s.ballVx != 0.0 && after.tick == s.tick + 1 && PaddlesMoved(s, s', c, dt)
            && if s.ballVx < 0.0 then LeftSide(s, s', c, dt) else RightSide(s, s', c, dt)
  {
    WorldInvariant(events, sqrt);
    var s := RunWorld(events, sqrt);
    NeverStalls(s);
    RallyStep(s, dt, sqrt);
  }

  lemma RallyStep(s: WorldState, dt: real, sqrt: real -> real)
    requires IsSqrt(sqrt) && dt >= 0.0 && BallXOk(s, DEFAULT) && s.ballVx != 0.0
    ensures var s' := Advance(s, DEFAULT, dt, sqrt);
            && Step(s, dt, sqrt) == s'.(tick := s.tick + 1) && s'.tick == s.tick && PaddlesMoved(s, s', DEFAULT, dt)
            && if s.ballVx < 0.0 then LeftSide(s, s', DEFAULT, dt) else RightSide(s, s', DEFAULT, dt)
  {
    InitialOk();
    assert Wide(DEFAULT);
    if s.ballVx < 0.0 { LeftwardExactly(s, DEFAULT, dt, sqrt); } else { RightwardExactly(s, DEFAULT, dt, sqrt); }
  }

  /** An input sets its own side's direction, up, down or still, and nothing else; a spectator's sets nothing. */
  lemma InputsExactly(s: WorldState, side: Side, direction: int)
    ensures var s', sign := SetInput(s, side, direction), if direction > 0 then 1 else if direction < 0 then -1 else 0;
            && s' == s.(leftDirection := s'.leftDirection, rightDirection := s'.rightDirection)
            && s'.leftDirection == (if side == Left then sign else s.leftDirection)
            && s'.rightDirection == (if side == Right then sign else s.rightDirection)
  {
  }

  /** The game starts level, ball in the centre and flying to the right at full speed. */
  lemma KickOff(sqrt: real -> real)
    ensures RunWorld([], sqrt) == WorldState(400.0, 240.0, 380.0, 0.0, 240.0, 240.0, 0, 0, 0, 0, 0)
  {
  }
}
