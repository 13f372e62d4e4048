/**
  Where things are in the combat session, in coordinates and seconds: which shots hit whom in a
  tick, which fly on, where players go, and when and where a shot appears.
 */
module SessionGeometry {
  import opened Collections
  import opened GameSession
  import opened SessionRuns

  // ------------------------------------------------------------------ near and far

  /** No further apart than the two radii, 0.2 and 0.5, together. */
  ghost predicate Close(p: Projectile, q: Player) {
    (p.x - q.x) * (p.x - q.x) + (p.y - q.y) * (p.y - q.y) <= 0.49
  }

  lemma SquareGrows(a: real, b: real)
    requires 0.0 <= b < a
    ensures a * a > b * b
  {
    ProductIsPositive(a - b, a + b);
    assert a * a - b * b == (a - b) * (a + b);
  }

  lemma ProductIsPositive(a: real, b: real)
    requires a > 0.0 && b > 0.0
    ensures a * b > 0.0
  {
  }

  lemma SquareNotNegative(a: real)
    ensures a * a >= 0.0 && (-a) * (-a) == a * a
  {
    if a < 0.0 { assert (-a) * (-a) >= 0.0; }
  }

  /** The test by axes first and by distance second is the test by distance. */
  lemma TouchesIsClose(p: Projectile, q: Player)
    ensures Touches(p, q) <==> Close(p, q)
  {
    var dx, dy := p.x - q.x, p.y - q.y;
    SquareNotNegative(dx);
    SquareNotNegative(dy);
    assert 0.7 * 0.7 == 0.49;
    if Abs(dx) > 0.7 { SquareGrows(Abs(dx), 0.7); }
    if Abs(dy) > 0.7 { SquareGrows(Abs(dy), 0.7); }
  }

  /** No living player among these, other than the owner, is close. */
  ghost predicate Clear(players: map<string, Player>, p: Projectile, keys: seq<string>) {
    forall n :: 0 <= n < |keys| && keys[n] in players && players[keys[n]].health > 0 && keys[n] != p.owner ==>
      !Close(p, players[keys[n]])
  }

  /**
    The target is close to the shot, is not its owner, lived before the tick, and comes in the
    traversal before anybody close who is still alive after it.
   */
  ghost predicate Struck(before: map<string, Player>, after: map<string, Player>,
                         p: Projectile, order: seq<string>, key: string) {
    && key in before && before[key].health > 0 && key != p.owner && Close(p, before[key])
    && exists n :: 0 <= n < |order| && order[n] == key && Clear(after, p, order[..n])
  }

  ghost predicate Fate(before: map<string, Player>, after: map<string, Player>,
                       p: Projectile, order: seq<string>, target: Option<string>) {
    match target
    case Some(key) => Struck(before, after, p, order, key)
    case None => Clear(after, p, order)
  }

  /** Players stay where they are and do not recover. */
  ghost predicate Weakened(players: map<string, Player>, players': map<string, Player>) {
    && players.Keys == players'.Keys
    && forall id :: id in players ==>
         && players'[id].x == players[id].x && players'[id].y == players[id].y
         && players'[id].health <= players[id].health
  }

  lemma ClearLater(players: map<string, Player>, players': map<string, Player>, p: Projectile, keys: seq<string>)
    requires Clear(players, p, keys) && Weakened(players, players')
    ensures Clear(players', p, keys)
  {
  }

  lemma FateLater(first: map<string, Player>, mid: map<string, Player>, last: map<string, Player>,
                  p: Projectile, order: seq<string>, target: Option<string>)
    requires Fate(first, mid, p, order, target) && Weakened(mid, last)
    ensures Fate(first, last, p, order, target)
  {
    match target
    case None => ClearLater(mid, last, p, order);
    case Some(key) =>
      var n :| 0 <= n < |order| && order[n] == key && Clear(mid, p, order[..n]);
      ClearLater(mid, last, p, order[..n]);
  }

  lemma FateEarlier(first: map<string, Player>, mid: map<string, Player>, last: map<string, Player>,
                    p: Projectile, order: seq<string>, target: Option<string>)
    requires Fate(mid, last, p, order, target) && Weakened(first, mid)
    ensures Fate(first, last, p, order, target)
  {
  }

  lemma WeakenedTwice(a: map<string, Player>, b: map<string, Player>, c: map<string, Player>)
    requires Weakened(a, b) && Weakened(b, c)
    ensures Weakened(a, c)
  {
  }

  // ------------------------------------------------------------------ one shot

  lemma StrikeWeakens(s: Session, i: nat, key: string, tick: nat)
    requires i < |s.projectiles| && key in s.players
    ensures Weakened(s.players, Strike(s, i, key, tick).players)
  {
  }

  /** What one shot's scan does: nothing but counting, or one hit. */
  ghost predicate Scanned(s: Session, u: Session, i: nat, tick: nat, target: Option<string>)
    requires i < |s.projectiles|
  {
    var p := s.projectiles[i];
    match target
    case None => u == s.(checked := u.checked)
    case Some(key) =>
      && u.trace == s.trace + [Hurt(p.owner, key, p.id, tick)]
      && u.projectiles == s.projectiles[i := p.(active := false)]
      && Weakened(s.players, u.players)
  }

  lemma ClearCons(players: map<string, Player>, p: Projectile, keys: seq<string>)
    requires keys != [] && Clear(players, p, keys[1..])
    requires keys[0] in players && players[keys[0]].health > 0 && keys[0] != p.owner ==> !Close(p, players[keys[0]])
    ensures Clear(players, p, keys)
  {
    forall n | 0 <= n < |keys| && keys[n] in players && players[keys[n]].health > 0 && keys[n] != p.owner
      ensures !Close(p, players[keys[n]])
    {
      assert n > 0 ==> keys[n] == keys[1..][n - 1];
    }
  }

  lemma FateCons(before: map<string, Player>, after: map<string, Player>,
                 p: Projectile, order: seq<string>, target: Option<string>)
    requires order != [] && Fate(before, after, p, order[1..], target) && Weakened(before, after)
    requires order[0] in before && before[order[0]].health > 0 && order[0] != p.owner ==> !Close(p, before[order[0]])
    ensures Fate(before, after, p, order, target)
  {
    match target
    case None => ClearCons(after, p, order);
    case Some(key) =>
      var n :| 0 <= n < |order[1..]| && order[1..][n] == key && Clear(after, p, order[1..][..n]);
      assert order[n + 1] == key;
      assert order[..n + 1][1..] == order[1..][..n];
      ClearCons(after, p, order[..n + 1]);
  }

  lemma HitNow(s: Session, i: nat, order: seq<string>, tick: nat) returns (u: Session)
    requires Mid(s) && i < |s.projectiles| && order != [] && Candidate(s, i, order[0])
    requires Close(s.projectiles[i], s.players[order[0]])
    ensures u == Strike(s.(checked := s.checked + 1), i, order[0], tick)
    ensures Scanned(s, u, i, tick, Some(order[0]))
    ensures Fate(s.players, u.players, s.projectiles[i], order, Some(order[0]))
  {
    assert PlayerOk(s.players[order[0]], order[0], Live(s.projectiles, order[0]));
    var s1 := s.(checked := s.checked + 1);
    StrikeWeakens(s1, i, order[0], tick);
    u := Strike(s1, i, order[0], tick);
    assert order[..0] == [];
    assert Clear(u.players, s.projectiles[i], order[..0]);
  }

  lemma {:induction false} ScanFate(s: Session, i: nat, order: seq<string>, tick: nat)
    returns (u: Session, target: Option<string>)
    requires Mid(s) && i < |s.projectiles|
    ensures u == Scan(s, i, order, tick) && Scanned(s, u, i, tick, target)
    ensures Fate(s.players, u.players, s.projectiles[i], order, target)
    decreases |order|
  {
    if order == [] {
      u, target := s, None;
    } else {
      var key := order[0];
      var s1 := if Candidate(s, i, key) then s.(checked := s.checked + 1) else s;
      CheckKeepsMid(s);
      if key in s.players {
        TouchesIsClose(s.projectiles[i], s.players[key]);
        assert PlayerOk(s.players[key], key, Live(s.projectiles, key));
      }
      if Candidate(s, i, key) && Close(s.projectiles[i], s.players[key]) {
        u := HitNow(s, i, order, tick);
        target := Some(key);
      } else {
        u, target := ScanFate(s1, i, order[1..], tick);
        FateCons(s.players, u.players, s.projectiles[i], order, target);
      }
    }
  }

  // ------------------------------------------------------------------ a tick

  /** The hits, in the order of the shots. */
  function Hurts(ps: seq<Projectile>, hit: seq<Option<string>>, tick: nat): seq<Happening>
    requires |ps| == |hit|
  {
    if ps == [] then []
    else (if hit[0].Some? then [Hurt(ps[0].owner, hit[0].value, ps[0].id, tick)] else [])
         + Hurts(ps[1..], hit[1..], tick)
  }

  /** Thirty metres a second in its direction. */
  function Flown(p: Projectile, dt: real): Projectile {
    p.(x := p.x + p.dirX * 30.0 * dt, y := p.y + p.dirY * 30.0 * dt)
  }

  lemma AgedIsFlown(p: Projectile, dt: real, now: real)
    requires p.active
    ensures Aged(p, dt, now) == Flown(p, dt).(active := now - p.spawn < 1.5)
  {
    TimesEqual(p.dirX * PROJECTILE_SPEED, p.dirX * 30.0, dt);
    TimesEqual(p.dirY * PROJECTILE_SPEED, p.dirY * 30.0, dt);
  }

  lemma TimesEqual(a: real, b: real, c: real)
    requires a == b
    ensures a * c == b * c
  {
  }

  /** The shots younger than a second and a half that hit nobody, moved on, in order. */
  function FlyingOn(ps: seq<Projectile>, hit: seq<Option<string>>, dt: real, now: real): seq<Projectile>
    requires |ps| == |hit|
  {
    if ps == [] then []
    else (if now - ps[0].spawn < 1.5 && hit[0].None? then [Flown(ps[0], dt)] else [])
         + FlyingOn(ps[1..], hit[1..], dt, now)
  }

  /** From position `i` on, shots that hit somebody are spent and all others as they were. */
  ghost predicate Spent(ps: seq<Projectile>, ps': seq<Projectile>, i: nat, hit: seq<Option<string>>) {
    && |ps'| == |ps| == i + |hit|
    && forall j :: 0 <= j < |ps| ==> ps'[j] == if j >= i && hit[j - i].Some? then ps[j].(active := false) else ps[j]
  }

  ghost predicate Fates(before: map<string, Player>, after: map<string, Player>, ps: seq<Projectile>,
                        order: seq<string>, i: nat, hit: seq<Option<string>>)
    requires |ps| == i + |hit|
  {
    forall j :: i <= j < |ps| ==>
      if ps[j].active then Fate(before, after, ps[j], order, hit[j - i]) else hit[j - i].None?
  }

  lemma FatesCons(first: map<string, Player>, mid: map<string, Player>, last: map<string, Player>,
                  ps: seq<Projectile>, ps': seq<Projectile>, order: seq<string>, i: nat,
                  target: Option<string>, hit: seq<Option<string>>)
    requires |ps| == |ps'| == i + 1 + |hit| && forall j :: i < j < |ps| ==> ps'[j] == ps[j]
    requires Weakened(first, mid) && Weakened(mid, last) && Fates(mid, last, ps', order, i + 1, hit)
    requires if ps[i].active then Fate(first, mid, ps[i], order, target) else target.None?
    ensures Fates(first, last, ps, order, i, [target] + hit)
  {
    var all := [target] + hit;
    forall j | i <= j < |ps|
      ensures if ps[j].active then Fate(first, last, ps[j], order, all[j - i]) else all[j - i].None?
    {
      if j == i {
        if ps[i].active { FateLater(first, mid, last, ps[i], order, target); }
      } else {
        assert all[j - i] == hit[j - i - 1];
        if ps[j].active { FateEarlier(first, mid, last, ps[j], order, hit[j - i - 1]); }
      }
    }
  }

  lemma SpentCons(ps: seq<Projectile>, mid: seq<Projectile>, ps': seq<Projectile>, i: nat,
                  target: Option<string>, hit: seq<Option<string>>)
    requires i < |ps| && mid == (if target.Some? then ps[i := ps[i].(active := false)] else ps)
    requires Spent(mid, ps', i + 1, hit)
    ensures Spent(ps, ps', i, [target] + hit)
  {
    var all := [target] + hit;
    forall j | 0 <= j < |ps|
      ensures ps'[j] == if j >= i && all[j - i].Some? then ps[j].(active := false) else ps[j]
    {
      if j > i { assert all[j - i] == hit[j - i - 1]; }
    }
  }

  lemma HurtsCons(ps: seq<Projectile>, ps': seq<Projectile>, i: nat, target: Option<string>, hit: seq<Option<string>>,
                  tick: nat)
    requires |ps| == |ps'| == i + 1 + |hit| && forall j :: i < j < |ps| ==> ps'[j] == ps[j]
    ensures Hurts(ps[i..], [target] + hit, tick)
         == (if target.Some? then [Hurt(ps[i].owner, target.value, ps[i].id, tick)] else [])
            + Hurts(ps'[i + 1..], hit, tick)
  {
    var from, all := ps[i..], [target] + hit;
    assert from[1..] == ps'[i + 1..] && all[1..] == hit;
    assert from[0] == ps[i] && all[0] == target;
  }

  /** What the pass from position `i` on does. */
  ghost predicate Swept(s: Session, u: Session, i: nat, order: seq<string>, tick: nat, hit: seq<Option<string>>) {
    && i <= |s.projectiles| && Spent(s.projectiles, u.projectiles, i, hit)
    && Weakened(s.players, u.players) && Fates(s.players, u.players, s.projectiles, order, i, hit)
    && u.trace == s.trace + Hurts(s.projectiles[i..], hit, tick)
  }

  /** What it does at position `i`. */
  ghost predicate SweptOne(s: Session, u: Session, i: nat, order: seq<string>, tick: nat, target: Option<string>)
    requires i < |s.projectiles|
  {
    var p := s.projectiles[i];
    && Weakened(s.players, u.players)
    && (if p.active then Fate(s.players, u.players, p, order, target) else target.None?)
    && u.projectiles == (if target.Some? then s.projectiles[i := p.(active := false)] else s.projectiles)
    && u.trace == s.trace + (if target.Some? then [Hurt(p.owner, target.value, p.id, tick)] else [])
  }

  lemma ScanOnce(s: Session, i: nat, order: seq<string>, tick: nat) returns (u: Session, target: Option<string>)
    requires Mid(s) && i < |s.projectiles|
    ensures u == (if s.projectiles[i].active then Scan(s, i, order, tick) else s) && Mid(u)
    ensures SweptOne(s, u, i, order, tick, target)
  {
    u, target := s, None;
    if s.projectiles[i].active {
      u, target := ScanFate(s, i, order, tick);
      var v := ScanProgresses(s, i, order, tick);
    }
  }

  lemma SweptConsTrace(s: Session, s': Session, u: Session, i: nat, tick: nat,
                       target: Option<string>, rest: seq<Option<string>>)
    requires i < |s.projectiles| == i + 1 + |rest| && |s'.projectiles| == |s.projectiles|
    requires forall j :: i < j < |s.projectiles| ==> s'.projectiles[j] == s.projectiles[j]
    requires var p := s.projectiles[i];
             s'.trace == s.trace + (if target.Some? then [Hurt(p.owner, target.value, p.id, tick)] else [])
    requires u.trace == s'.trace + Hurts(s'.projectiles[i + 1..], rest, tick)
    ensures u.trace == s.trace + Hurts(s.projectiles[i..], [target] + rest, tick)
  {
    HurtsCons(s.projectiles, s'.projectiles, i, target, rest, tick);
    var p, later := s.projectiles[i], Hurts(s'.projectiles[i + 1..], rest, tick);
    var one := if target.Some? then [Hurt(p.owner, target.value, p.id, tick)] else [];
    TraceJoins(s.trace, one, later);
  }

  lemma TraceJoins(a: seq<Happening>, b: seq<Happening>, c: seq<Happening>)
    ensures a + b + c == a + (b + c)
  {
  }

  lemma SweptCons(s: Session, s': Session, u: Session, i: nat, order: seq<string>, tick: nat,
                  target: Option<string>, rest: seq<Option<string>>)
    requires i < |s.projectiles| && SweptOne(s, s', i, order, tick, target) && Swept(s', u, i + 1, order, tick, rest)
    ensures Swept(s, u, i, order, tick, [target] + rest)
  {
    FatesCons(s.players, s'.players, u.players, s.projectiles, s'.projectiles, order, i, target, rest);
    SpentCons(s.projectiles, s'.projectiles, u.projectiles, i, target, rest);
    SweptConsTrace(s, s', u, i, tick, target, rest);
    WeakenedTwice(s.players, s'.players, u.players);
  }

  lemma {:induction false} SweepFates(s: Session, i: nat, order: seq<string>, tick: nat)
    returns (u: Session, hit: seq<Option<string>>)
    requires Mid(s) && i <= |s.projectiles|
    ensures u == Sweep(s, i, order, tick) && Swept(s, u, i, order, tick, hit)
    decreases |s.projectiles| - i
  {
    if i == |s.projectiles| {
      u, hit := s, [];
    } else {
      ScanKeepsLength(s, i, order, tick);
      var s', target := ScanOnce(s, i, order, tick);
      var rest;
      u, rest := SweepFates(s', i + 1, order, tick);
      hit := [target] + rest;
      SweptCons(s, s', u, i, order, tick, target, rest);
    }
  }

  lemma SpentTail(ps: seq<Projectile>, ps': seq<Projectile>, hit: seq<Option<string>>)
    requires Spent(ps, ps', 0, hit) && ps != []
    ensures ps'[0] == (if hit[0].Some? then ps[0].(active := false) else ps[0])
    ensures Spent(ps[1..], ps'[1..], 0, hit[1..])
  {
    assert ps'[0] == if 0 >= 0 && hit[0 - 0].Some? then ps[0].(active := false) else ps[0];
    forall j | 0 <= j < |ps[1..]|
      ensures ps'[1..][j] == if j >= 0 && hit[1..][j - 0].Some? then ps[1..][j].(active := false) else ps[1..][j]
    {
      assert hit[1..][j] == hit[j + 1];
      assert ps'[j + 1] == if hit[j + 1 - 0].Some? then ps[j + 1].(active := false) else ps[j + 1];
    }
  }

  lemma {:induction false} FliesOn(ps: seq<Projectile>, swept: seq<Projectile>, hit: seq<Option<string>>,
                                   dt: real, now: real)
    requires AllFlying(ps) && |ps| == |hit| && Spent(AgeAll(ps, dt, now), swept, 0, hit)
    ensures ActiveOnly(swept) == FlyingOn(ps, hit, dt, now)
  {
    if ps != [] {
      var aged := AgeAll(ps, dt, now);
      SpentTail(aged, swept, hit);
      assert aged[0] == Aged(ps[0], dt, now) && aged[1..] == AgeAll(ps[1..], dt, now);
      FliesOn(ps[1..], swept[1..], hit[1..], dt, now);
      AgedIsFlown(ps[0], dt, now);
    }
  }

  /** The fate of each shot in a tick: `hit` says whom it strikes, if anybody. */
  ghost predicate TickFates(s: Session, s': Session, tick: nat, dt: real, order: seq<string>,
                            hit: seq<Option<string>>)
  {
    var ps, now := s.projectiles, s.elapsed + dt;
    && |hit| == |ps| && s'.elapsed == now
    && Weakened(s.players, s'.players)
    && s'.trace == s.trace + Hurts(ps, hit, tick)
    && s'.projectiles == FlyingOn(ps, hit, dt, now)
    && forall i :: 0 <= i < |ps| ==>
         if now - ps[i].spawn >= 1.5 then hit[i].None?
         else Fate(s.players, s'.players, Flown(ps[i], dt), order, hit[i])
  }

  lemma AgedFates(s: Session, after: map<string, Player>, dt: real, order: seq<string>, hit: seq<Option<string>>)
    requires AllFlying(s.projectiles) && |hit| == |s.projectiles|
    requires Fates(s.players, after, AgeAll(s.projectiles, dt, s.elapsed + dt), order, 0, hit)
    ensures forall i :: 0 <= i < |s.projectiles| ==>
              if s.elapsed + dt - s.projectiles[i].spawn >= 1.5 then hit[i].None?
              else Fate(s.players, after, Flown(s.projectiles[i], dt), order, hit[i])
  {
    var ps, now := s.projectiles, s.elapsed + dt;
    forall i | 0 <= i < |ps|
      ensures if now - ps[i].spawn >= 1.5 then hit[i].None? else Fate(s.players, after, Flown(ps[i], dt), order, hit[i])
    {
      AgedIsFlown(ps[i], dt, now);
      assert AgeAll(ps, dt, now)[i] == Aged(ps[i], dt, now);
      assert hit[i] == hit[i - 0];
    }
  }

  lemma FatesOfTick(s: Session, tick: nat, dt: real, order: seq<string>) returns (hit: seq<Option<string>>)
    requires Mid(s) && AllFlying(s.projectiles)
    ensures TickFates(s, Tick(s, tick, dt, order), tick, dt, order, hit)
  {
    var aged, swept := TickSweeps(s, tick, dt, order);
    var u;
    u, hit := SweepFates(aged, 0, order, tick);
    SweptFates(s, aged, swept, tick, dt, order, hit);
  }

  lemma SweptFates(s: Session, aged: Session, swept: Session, tick: nat, dt: real, order: seq<string>,
                   hit: seq<Option<string>>)
    requires aged == s.(elapsed := s.elapsed + dt, projectiles := AgeAll(s.projectiles, dt, s.elapsed + dt))
    requires Swept(aged, swept, 0, order, tick, hit) && AllFlying(s.projectiles) && swept.elapsed == aged.elapsed
    ensures TickFates(s, swept.(projectiles := ActiveOnly(swept.projectiles)), tick, dt, order, hit)
  {
    FliesOn(s.projectiles, swept.projectiles, hit, dt, s.elapsed + dt);
    AgedFates(s, swept.players, dt, order, hit);
    assert aged.projectiles[0..] == aged.projectiles;
    HurtsOfAged(s.projectiles, hit, tick, dt, s.elapsed + dt);
  }

  lemma {:induction false} HurtsOfAged(ps: seq<Projectile>, hit: seq<Option<string>>, tick: nat, dt: real, now: real)
    requires |ps| == |hit|
    ensures Hurts(AgeAll(ps, dt, now), hit, tick) == Hurts(ps, hit, tick)
  {
    if ps != [] {
      assert AgeAll(ps, dt, now)[1..] == AgeAll(ps[1..], dt, now);
      HurtsOfAged(ps[1..], hit[1..], tick, dt, now);
    }
  }

  /**
    In every state a run reaches, whatever the traversal order, a tick moves each shot 30 metres
    a second; a shot then a second and a half old or older is gone; any other strikes the first
    living player within 0.7 metres of it other than its owner, and flies on only if nobody
    close to it is left alive.  The record grows by exactly those hits.
   */
  lemma HitsExactly(steps: seq<Step>, tick: nat, dt: real, order: seq<string>, sqrt: real -> real)
    returns (hit: seq<Option<string>>)
    ensures var s := PerformAll(steps, sqrt).s; TickFates(s, Tick(s, tick, dt, order), tick, dt, order, hit)
  {
    SessionInvariant(steps, sqrt);
    hit := FatesOfTick(PerformAll(steps, sqrt).s, tick, dt, order);
  }

  // ------------------------------------------------------------------ commands

  /** `sqrt` gives the square root of `v`. */
  predicate RootAt(sqrt: real -> real, v: real) { sqrt(v) >= 0.0 && sqrt(v) * sqrt(v) == v }

  /** -1, 0 or 1, as the keys say; opposite keys cancel. */
  function Sign(minus: bool, plus: bool): int {
    if minus == plus then 0 else if plus then 1 else -1
  }

  lemma AxisIsSign(minus: bool, plus: bool)
    ensures Axis(minus, plus) == Sign(minus, plus) as real
    ensures Axis(minus, plus) * Axis(minus, plus) == if minus == plus then 0.0 else 1.0
  {
  }

  /** The same number, divided by `m`, forward or backward. */
  lemma Steps(sign: int, m: real, d: real)
    requires m > 0.0 && -1 <= sign <= 1
    ensures sign as real / m * d == sign as real * (d / m)
  {
    var e := d / m;
    assert e * m == d;
    if sign == 1 { Reciprocal(m, d); }
    if sign == -1 { Reciprocal(m, d); Negated(m, d); }
    if sign == 0 { assert 0.0 / m == 0.0; }
  }

  lemma Reciprocal(m: real, d: real)
    requires m > 0.0
    ensures 1.0 / m * d == d / m
  {
    var r := 1.0 / m;
    assert r * m == 1.0;
    Cancels(r * d, d / m, m);
  }

  lemma Cancels(a: real, b: real, m: real)
    requires m > 0.0 && a * m == b * m
    ensures a == b
  {
    assert (a - b) * m == 0.0;
    if a > b { ProductIsPositive(a - b, m); }
    if a < b { ProductIsPositive(b - a, m); }
  }

  lemma Negated(m: real, d: real)
    requires m > 0.0
    ensures -1.0 / m * d == -(1.0 / m * d)
  {
    assert -1.0 / m == -(1.0 / m);
  }

  lemma SquareOfQuotient(d: real, m: real)
    requires m > 0.0
    ensures (m * m) * ((d / m) * (d / m)) == d * d
    ensures d >= 0.0 ==> d / m >= 0.0
  {
    var e := d / m;
    assert e * m == d;
    Regroup(e, m);
  }

  lemma Regroup(e: real, m: real)
    ensures (m * m) * (e * e) == (e * m) * (e * m)
  {
    assert (m * m) * (e * e) == m * (m * e) * e;
  }

  /** How many of the two axes the keys move along. */
  function Axes(input: Input): real {
    (if input.left == input.right then 0.0 else 1.0) + (if input.up == input.down then 0.0 else 1.0)
  }

  lemma MovedAlong(p: Player, dx: int, dy: int, m: real, d: real)
    requires m > 0.0 && -1 <= dx <= 1 && -1 <= dy <= 1
    ensures p.(x := p.x + dx as real / m * d, y := p.y + dy as real / m * d)
         == p.(x := p.x + dx as real * (d / m), y := p.y + dy as real * (d / m))
  {
    Steps(dx, m, d);
    Steps(dy, m, d);
  }

  lemma ZeroProduct(a: real, b: real)
    requires a > 0.0 && a * b == 0.0
    ensures b == 0.0
  {
  }

  lemma SameFactor(m: real, n: real, v: real)
    requires m >= 0.0 && n == m && m * n == v
    ensures m == 0.0 <==> v == 0.0
  {
    if m > 0.0 && v == 0.0 { ZeroProduct(m, n); }
  }

  /** The root of zero, and of nothing else, is zero. */
  lemma RootIsZero(m: real, v: real)
    requires m >= 0.0 && m * m == v
    ensures m == 0.0 <==> v == 0.0
  {
    SameFactor(m, m, v);
  }

  /** Five metres a second the way the keys say: along both axes equally far, and no further for that. */
  lemma MovesExactly(p: Player, input: Input, dt: real, sqrt: real -> real) returns (step: real)
    requires RootAt(sqrt, Axes(input))
    ensures Moved(p, input, dt, sqrt) == p.(x := p.x + Sign(input.left, input.right) as real * step,
                                            y := p.y + Sign(input.up, input.down) as real * step)
    ensures Axes(input) > 0.0 ==> Axes(input) * (step * step) == (5.0 * dt) * (5.0 * dt)
    ensures dt >= 0.0 ==> step >= 0.0
  {
    AxisIsSign(input.left, input.right);
    AxisIsSign(input.up, input.down);
    step := MovedWith(p, Sign(input.left, input.right), Sign(input.up, input.down), Axes(input), sqrt(Axes(input)), dt);
    assert PLAYER_SPEED * dt == 5.0 * dt;
  }

  lemma MovedWith(p: Player, dx: int, dy: int, axes: real, m: real, dt: real) returns (step: real)
    requires -1 <= dx <= 1 && -1 <= dy <= 1 && m >= 0.0 && m * m == axes && (axes == 0.0 ==> dx == dy == 0)
    ensures var d := 5.0 * dt;
            (if m > 0.0 then p.(x := p.x + dx as real / m * d, y := p.y + dy as real / m * d)
             else p.(x := p.x + dx as real * d, y := p.y + dy as real * d))
            == p.(x := p.x + dx as real * step, y := p.y + dy as real * step)
    ensures axes > 0.0 ==> axes * (step * step) == (5.0 * dt) * (5.0 * dt)
    ensures dt >= 0.0 ==> step >= 0.0
  {
    var d := 5.0 * dt;
    RootIsZero(m, axes);
    step := d;
    if m > 0.0 {
      step := d / m;
      MovedAlong(p, dx, dy, m, d);
      SquareOfQuotient(d, m);
    }
  }

  // ------------------------------------------------------------------ shots

  lemma RootReaches(m: real, v: real, least: real)
    requires m >= 0.0 && m * m == v && least >= 0.0
    ensures m >= least <==> v >= least * least
  {
    if m > least { SquareGrows(m, least); }
    if m < least { SquareGrows(least, m); }
  }

  lemma AimReaches(sqrt: real -> real, v: real)
    requires RootAt(sqrt, v)
    ensures sqrt(v) >= MIN_AIM <==> v >= 0.000000000001
  {
    RootReaches(sqrt(v), v, 0.000001);
    assert 0.000001 * 0.000001 == 0.000000000001;
  }

  /** The square of how far from itself a player aims. */
  function Aim(input: Input): real { input.mouseX * input.mouseX + input.mouseY * input.mouseY }

  /** A living player fires when asked if it aims further than a millionth and a tenth of a second has passed. */
  lemma FiresExactly(p: Player, input: Input, elapsed: real, sqrt: real -> real)
    requires RootAt(sqrt, Aim(input))
    ensures MayFire(p, input, elapsed, sqrt) <==>
            && input.fire && p.health > 0 && Aim(input) >= 0.000000000001
            && (p.lastFire.Some? ==> elapsed >= p.lastFire.value + 0.1)
  {
    AimReaches(sqrt, Aim(input));
  }

  lemma SumOfSquares(v: real, a: real, b: real)
    ensures v * (a + b) == v * a + v * b
  {
  }

  /** The direction (dx, dy) of length one that leads to (x, y), `m` away. */
  predicate Towards(dx: real, dy: real, m: real, x: real, y: real) {
    m > 0.0 && dx * m == x && dy * m == y && dx * dx + dy * dy == 1.0
  }

  lemma DividedByLength(x: real, y: real, m: real, v: real)
    requires m >= 0.0 && m * m == v && v == x * x + y * y && v > 0.0
    ensures m > 0.0 && Towards(x / m, y / m, m, x, y)
  {
    RootIsZero(m, v);
    SquareOfQuotient(x, m);
    SquareOfQuotient(y, m);
    UnitSum(v, (x / m) * (x / m), (y / m) * (y / m), x * x, y * y);
  }

  lemma UnitSum(v: real, a: real, b: real, c: real, d: real)
    requires v > 0.0 && v * a == c && v * b == d && c + d == v
    ensures a + b == 1.0
  {
    SumOfSquares(v, a, b);
    Cancels(a + b, 1.0, v);
  }

  lemma ShotIs(p: Player, input: Input, elapsed: real, number: nat, sqrt: real -> real, m: real)
    requires m == sqrt(Aim(input)) && m > 0.0
    ensures var dx, dy := input.mouseX / m, input.mouseY / m;
            Shot(p, input, elapsed, number, sqrt)
            == Projectile(number, p.id, p.x + dx * 0.3, p.y + dy * 0.3, dx, dy, elapsed, true)
  {
  }

  /** The shot leaves 0.3 metres from its owner where the player aims, with a direction of length one. */
  lemma ShotExactly(p: Player, input: Input, elapsed: real, number: nat, sqrt: real -> real)
    requires RootAt(sqrt, Aim(input)) && Aim(input) > 0.0
    ensures var q := Shot(p, input, elapsed, number, sqrt);
            && q == Projectile(number, p.id, p.x + q.dirX * 0.3, p.y + q.dirY * 0.3, q.dirX, q.dirY, elapsed, true)
            && Towards(q.dirX, q.dirY, sqrt(Aim(input)), input.mouseX, input.mouseY)
  {
    var m := sqrt(Aim(input));
    DividedByLength(input.mouseX, input.mouseY, m, Aim(input));
    ShotIs(p, input, elapsed, number, sqrt, m);
  }

  // ------------------------------------------------------------------ what each command does

  predicate Fires(p: Player, input: Input, elapsed: real) {
    && input.fire && p.health > 0 && Aim(input) >= 0.000000000001
    && (p.lastFire.Some? ==> elapsed >= p.lastFire.value + 0.1)
  }

  /** An input of no older sequence moves a living player by `step`, and adds one shot if the player fires. */
  ghost predicate Commanded(s: Session, s': Session, id: string, input: Input, step: real, sqrt: real -> real)
    requires id in s.players
  {
    var p := s.players[id];
    && id in s'.players && s'.players - {id} == s.players - {id}
    && var p', fires := s'.players[id], Fires(p, input, s.elapsed);
       && p'.sequence == input.sequence && p'.health == p.health && p'.id == p.id && p'.hits == p.hits
       && p'.x == (if p.health > 0 then p.x + Sign(input.left, input.right) as real * step else p.x)
       && p'.y == (if p.health > 0 then p.y + Sign(input.up, input.down) as real * step else p.y)
       && p'.shots == (if fires then p.shots + 1 else p.shots)
       && p'.lastFire == (if fires then Some(s.elapsed) else p.lastFire)
       && s'.counter == (if fires then s.counter + 1 else s.counter)
       && s'.spawned == (if fires then s.spawned + 1 else s.spawned)
       && s'.projectiles
          == s.projectiles + (if fires then [Shot(p', input, s.elapsed, s.counter + 1, sqrt)] else [])
  }

  lemma CommandExactly(s: Session, id: string, input: Input, dt: real, sqrt: real -> real) returns (step: real)
    requires RootAt(sqrt, Axes(input)) && RootAt(sqrt, Aim(input))
    ensures var s' := ApplyInput(s, id, input, dt, sqrt);
            if id !in s.players || input.sequence < s.players[id].sequence then s' == s
            else Commanded(s, s', id, input, step, sqrt)
    ensures Axes(input) > 0.0 ==> Axes(input) * (step * step) == (5.0 * dt) * (5.0 * dt)
    ensures dt >= 0.0 ==> step >= 0.0
  {
    var p := if id in s.players then s.players[id].(sequence := input.sequence) else Joined(id, 0);
    step := MovesExactly(p, input, dt, sqrt);
    if id in s.players && input.sequence >= s.players[id].sequence { CommandedBy(s, id, input, dt, step, sqrt); }
  }

  lemma CommandedBy(s: Session, id: string, input: Input, dt: real, step: real, sqrt: real -> real)
    requires RootAt(sqrt, Aim(input)) && id in s.players && input.sequence >= s.players[id].sequence
    requires var p := s.players[id].(sequence := input.sequence);
             Moved(p, input, dt, sqrt) == p.(x := p.x + Sign(input.left, input.right) as real * step,
                                             y := p.y + Sign(input.up, input.down) as real * step)
    ensures Commanded(s, ApplyInput(s, id, input, dt, sqrt), id, input, step, sqrt)
  {
    var p := s.players[id].(sequence := input.sequence);
    var moved := if Alive(p) then Moved(p, input, dt, sqrt) else p;
    FiresExactly(moved, input, s.elapsed, sqrt);
    FiredCommands(s, id, moved, input, step, sqrt);
  }

  lemma FiredCommands(s: Session, id: string, moved: Player, input: Input, step: real, sqrt: real -> real)
    requires id in s.players
    requires var p := s.players[id];
             moved == p.(sequence := input.sequence,
                         x := if p.health > 0 then p.x + Sign(input.left, input.right) as real * step else p.x,
                         y := if p.health > 0 then p.y + Sign(input.up, input.down) as real * step else p.y)
    requires MayFire(moved, input, s.elapsed, sqrt) <==> Fires(s.players[id], input, s.elapsed)
    ensures Commanded(s, Fire(s, id, moved, input, sqrt), id, input, step, sqrt)
  {
    var s' := Fire(s, id, moved, input, sqrt);
    var p' := s'.players[id];
    assert Shot(moved, input, s.elapsed, s.counter + 1, sqrt) == Shot(p', input, s.elapsed, s.counter + 1, sqrt);
  }

  /**
    Joining heals and rearms a player and leaves everybody else alone.  One already present, unless
    its id is empty, keeps its place, sequence and counters; any other starts at the origin with none.
   */
  lemma JoinExactly(s: Session, id: string)
    requires Mid(s)
    ensures var s' := Upsert(s, id);
            && id in s'.players && s'.players - {id} == s.players - {id}
            && s'.projectiles == s.projectiles && s'.pending == s.pending && s'.counter == s.counter
            && var p' := s'.players[id];
               && p'.id == id && p'.health == 100 && p'.lastFire == None && !p'.announced
               && (p'.x, p'.y, p'.sequence, p'.shots, p'.hits, p'.deaths)
                  == if id in s.players && id != ""
                     then (s.players[id].x, s.players[id].y, s.players[id].sequence,
                           s.players[id].shots, s.players[id].hits, s.players[id].deaths)
                     else (0.0, 0.0, 0, 0, 0, 0)
  {
    assert id in s.players ==> PlayerOk(s.players[id], id, Live(s.projectiles, id));
  }

  lemma {:induction false} OthersStay(ps: seq<Projectile>, id: string, p: Projectile)
    ensures multiset(OthersOnly(ps, id))[p] == if p.owner == id then 0 else multiset(ps)[p]
  {
    if ps != [] {
      OthersStay(ps[1..], id, p);
      assert ps == [ps[0]] + ps[1..];
    }
  }

  /** Leaving takes the player and every one of its projectiles, and nothing else. */
  lemma LeaveExactly(s: Session, id: string, p: Projectile)
    ensures var s' := Remove(s, id);
            && s' == s.(players := s'.players, projectiles := s'.projectiles)
            && (forall k :: k in s'.players <==> k in s.players && k != id)
            && (forall k :: k in s'.players ==> s'.players[k] == s.players[k])
            && multiset(s'.projectiles)[p] == if p.owner == id then 0 else multiset(s.projectiles)[p]
  {
    OthersStay(s.projectiles, id, p);
  }
}
