/**
  The arena combat session: players, projectiles, hits, deaths and the death queue.

  `Session` and its functions say what each operation does; the class `GameSession` does it in
  place with the source's loops.  The players' container is unordered, so a tick takes the
  order in which it happens to traverse them; what is proved holds for every order.
  Positions are reals and the square root is a parameter.
 */
module GameSession {
  import opened Collections

  const MAX_HEALTH := 100
  const DAMAGE := 20
  const COOLDOWN := 0.1
  const LIFETIME := 1.5
  const PLAYER_SPEED := 5.0
  const PROJECTILE_SPEED := 30.0
  const SPAWN_OFFSET := 0.3
  const RADIUS_SUM := 0.7
  const MIN_AIM := 0.000001
  const LOG_CAPACITY := 32

  /**
    `lastFire` is `None` for a player that may fire at once.  `taken` (hits since the last
    reset), `respawned` (upserted again while present) and `carried` (its projectiles in the air
    when its counters were last zeroed) are history.
   */
  datatype Player = Player(id: string, x: real, y: real, sequence: int, health: int, lastFire: Option<real>,
                           announced: bool, shots: nat, hits: nat, deaths: nat,
                           taken: nat, respawned: bool, carried: nat)

  datatype Projectile = Projectile(id: nat, owner: string, x: real, y: real, dirX: real, dirY: real,
                                   spawn: real, active: bool)

  datatype Event =
    | Hit(shooter: string, target: string, projectile: nat, tick: nat)
    | Death(shooter: string, target: string, projectile: nat, tick: nat)

  datatype Input = Input(sequence: int, up: bool, down: bool, left: bool, right: bool, fire: bool,
                         mouseX: real, mouseY: real)

  /** What happened to players: counters zeroed and healed, healed only, hit by a projectile. */
  datatype Happening =
    | Came(id: string)
    | Healed(id: string)
    | Hurt(shooter: string, target: string, projectile: nat, tick: nat)

  /** `trace`, everything that happened to players so far, is history. */
  datatype Session = Session(elapsed: real, counter: nat, log: seq<Event>, projectiles: seq<Projectile>,
                             pending: seq<Event>, spawned: nat, hits: nat, dead: nat, checked: nat,
                             players: map<string, Player>, trace: seq<Happening>)

  const NEW_SESSION := Session(0.0, 0, [], [], [], 0, 0, 0, 0, map[], [])

  // -------------------------------------------------------------------- operations

  predicate Alive(p: Player) { p.health > 0 }

  /** Active projectiles of one owner. */
  function Live(ps: seq<Projectile>, id: string): nat {
    if ps == [] then 0 else (if ps[0].active && ps[0].owner == id then 1 else 0) + Live(ps[1..], id)
  }

  function Joined(id: string, carried: nat): Player {
    Player(id, 0.0, 0.0, 0, MAX_HEALTH, None, false, 0, 0, 0, 0, false, carried)
  }

  /** A present player keeps its place and counters; the empty id is taken for a new player every time. */
  function Upsert(s: Session, id: string): Session {
    var known := id in s.players && s.players[id].id != "";
    var p := if known then s.players[id].(respawned := true)
             else Joined(id, Live(s.projectiles, id)).(respawned := id in s.players);
    s.(players := s.players[id := p.(health := MAX_HEALTH, announced := false, lastFire := None, taken := 0)],
       trace := s.trace + [if known then Healed(id) else Came(id)])
  }

  function OthersOnly(ps: seq<Projectile>, id: string): seq<Projectile> {
    if ps == [] then []
    else if ps[0].owner == id then OthersOnly(ps[1..], id)
    else [ps[0]] + OthersOnly(ps[1..], id)
  }

  function Remove(s: Session, id: string): Session {
    s.(players := s.players - {id}, projectiles := OthersOnly(s.projectiles, id))
  }

  function Abs(x: real): real { if x < 0.0 then -x else x }

  function Axis(minus: bool, plus: bool): real { (if plus then 1.0 else 0.0) - (if minus then 1.0 else 0.0) }

  function Moved(p: Player, input: Input, dt: real, sqrt: real -> real): Player {
    var dx, dy := Axis(input.left, input.right), Axis(input.up, input.down);
    var m := sqrt(dx * dx + dy * dy);
    var d := PLAYER_SPEED * dt;
    if m > 0.0 then p.(x := p.x + dx / m * d, y := p.y + dy / m * d)
    else p.(x := p.x + dx * d, y := p.y + dy * d)
  }

  predicate MayFire(p: Player, input: Input, elapsed: real, sqrt: real -> real) {
    && input.fire && Alive(p)
    && sqrt(input.mouseX * input.mouseX + input.mouseY * input.mouseY) >= MIN_AIM
    && (p.lastFire.Some? ==> elapsed - p.lastFire.value >= COOLDOWN)
  }

  function Shot(p: Player, input: Input, elapsed: real, number: nat, sqrt: real -> real): Projectile {
    var m := sqrt(input.mouseX * input.mouseX + input.mouseY * input.mouseY);
    var dx, dy := if m == 0.0 then 0.0 else input.mouseX / m, if m == 0.0 then 0.0 else input.mouseY / m;
    Projectile(number, p.id, p.x + dx * SPAWN_OFFSET, p.y + dy * SPAWN_OFFSET, dx, dy, elapsed, true)
  }

  function Fire(s: Session, key: string, p: Player, input: Input, sqrt: real -> real): Session {
    if MayFire(p, input, s.elapsed, sqrt) then
      s.(counter := s.counter + 1, spawned := s.spawned + 1,
         projectiles := s.projectiles + [Shot(p, input, s.elapsed, s.counter + 1, sqrt)],
         players := s.players[key := p.(lastFire := Some(s.elapsed), shots := p.shots + 1)])
    else
      s.(players := s.players[key := p])
  }

  function ApplyInput(s: Session, id: string, input: Input, dt: real, sqrt: real -> real): Session {
    if id !in s.players || input.sequence < s.players[id].sequence then s
    else
      var p := s.players[id].(sequence := input.sequence);
      Fire(s, id, if Alive(p) then Moved(p, input, dt, sqrt) else p, input, sqrt)
  }

  function Aged(p: Projectile, dt: real, now: real): Projectile {
    var q := if p.active
             then p.(x := p.x + p.dirX * PROJECTILE_SPEED * dt, y := p.y + p.dirY * PROJECTILE_SPEED * dt)
             else p;
    if !q.active || now - q.spawn >= LIFETIME then q.(active := false) else q
  }

  function AgeAll(ps: seq<Projectile>, dt: real, now: real): (r: seq<Projectile>)
    ensures |r| == |ps|
  {
    seq(|ps|, i requires 0 <= i < |ps| => Aged(ps[i], dt, now))
  }

  predicate Touches(p: Projectile, q: Player) {
    var dx, dy := p.x - q.x, p.y - q.y;
    Abs(dx) <= RADIUS_SUM && Abs(dy) <= RADIUS_SUM && dx * dx + dy * dy <= RADIUS_SUM * RADIUS_SUM
  }

  function AddToLog(log: seq<Event>, e: Event): seq<Event> {
    var all := log + [e];
    if |all| > LOG_CAPACITY then all[1..] else all
  }

  /** `HealthComponent::ApplyDamage`: the new health, and whether this was the killing blow. */
  function ApplyDamage(health: int, amount: int): (int, bool) {
    if amount <= 0 || health <= 0 then (health, false)
    else
      var h := if health - amount > 0 then health - amount else 0;
      (h, h == 0)
  }

  /** The shooter is credited if it is still in the session. */
  function Credit(players: map<string, Player>, shooter: string): map<string, Player> {
    if shooter in players then players[shooter := players[shooter].(hits := players[shooter].hits + 1)] else players
  }

  /** Projectile `i` hits the player filed under `key`. */
  function Strike(s: Session, i: nat, key: string, tick: nat): Session
    requires i < |s.projectiles| && key in s.players
  {
    var p, q := s.projectiles[i], s.players[key];
    var (health, died) := ApplyDamage(q.health, DAMAGE);
    var dies := died && !q.announced;
    var q' := q.(health := health, taken := q.taken + 1, announced := q.announced || dies,
                 deaths := if dies then q.deaths + 1 else q.deaths);
    var log1 := AddToLog(s.log, Hit(p.owner, q.id, p.id, tick));
    var death := Death(p.owner, q.id, p.id, tick);
    s.(projectiles := s.projectiles[i := p.(active := false)],
       players := Credit(s.players[key := q'], p.owner),
       hits := s.hits + 1,
       log := if dies then AddToLog(log1, death) else log1,
       pending := if dies then s.pending + [death] else s.pending,
       dead := if dies then s.dead + 1 else s.dead,
       trace := s.trace + [Hurt(p.owner, q.id, p.id, tick)])
  }

  predicate Candidate(s: Session, i: nat, key: string)
    requires i < |s.projectiles|
  {
    key in s.players && Alive(s.players[key]) && s.players[key].id != s.projectiles[i].owner
  }

  /** Projectile `i` against the players in traversal order, until it hits one. */
  function Scan(s: Session, i: nat, order: seq<string>, tick: nat): Session
    requires i < |s.projectiles|
    decreases |order|
  {
    if order == [] then s
    else if !Candidate(s, i, order[0]) then Scan(s, i, order[1..], tick)
    else
      var s1 := s.(checked := s.checked + 1);
      if Touches(s.projectiles[i], s.players[order[0]]) then Strike(s1, i, order[0], tick)
      else Scan(s1, i, order[1..], tick)
  }

  /** The projectiles from `i` on, one after the other. */
  function Sweep(s: Session, i: nat, order: seq<string>, tick: nat): Session
    requires i <= |s.projectiles|
    decreases |s.projectiles| - i
  {
    if i == |s.projectiles| then s
    else
      var s' := if s.projectiles[i].active then Scan(s, i, order, tick) else s;
      ScanKeepsLength(s, i, order, tick);
      Sweep(s', i + 1, order, tick)
  }

  lemma {:induction false} ScanKeepsLength(s: Session, i: nat, order: seq<string>, tick: nat)
    requires i < |s.projectiles|
    ensures |Scan(s, i, order, tick).projectiles| == |s.projectiles|
    decreases |order|
  {
    if order != [] && !(Candidate(s, i, order[0]) && Touches(s.projectiles[i], s.players[order[0]])) {
      ScanKeepsLength(if Candidate(s, i, order[0]) then s.(checked := s.checked + 1) else s, i, order[1..], tick);
    }
  }

  function ActiveOnly(ps: seq<Projectile>): seq<Projectile> {
    if ps == [] then [] else if ps[0].active then [ps[0]] + ActiveOnly(ps[1..]) else ActiveOnly(ps[1..])
  }

  function Tick(s: Session, tick: nat, dt: real, order: seq<string>): Session {
    var now := s.elapsed + dt;
    var s1 := Sweep(s.(elapsed := now, projectiles := AgeAll(s.projectiles, dt, now)), 0, order, tick);
    s1.(projectiles := ActiveOnly(s1.projectiles))
  }

  function Drain(s: Session): Session { s.(pending := []) }

  // -------------------------------------------------------------------------- in place

  lemma {:induction false} ActiveOnlyAppend(ps: seq<Projectile>, p: Projectile)
    ensures ActiveOnly(ps + [p]) == ActiveOnly(ps) + (if p.active then [p] else [])
  {
    if ps == [] {
      assert ps + [p] == [p] && [p][1..] == [];
    } else {
      ActiveOnlyAppend(ps[1..], p);
      assert (ps + [p])[1..] == ps[1..] + [p];
    }
  }

  lemma {:induction false} OthersOnlyAppend(ps: seq<Projectile>, p: Projectile, id: string)
    ensures OthersOnly(ps + [p], id) == OthersOnly(ps, id) + (if p.owner == id then [] else [p])
  {
    if ps == [] {
      assert ps + [p] == [p] && [p][1..] == [];
    } else {
      OthersOnlyAppend(ps[1..], p, id);
      assert (ps + [p])[1..] == ps[1..] + [p];
    }
  }

  class GameSession {
    var elapsed: real
    var counter: nat
    var log: seq<Event>
    var projectiles: seq<Projectile>
    var pending: seq<Event>
    var spawned: nat
    var hits: nat
    var dead: nat
    var checked: nat
    var players: map<string, Player>
    ghost var trace: seq<Happening>

    ghost function View(): Session
      reads this
    {
      Session(elapsed, counter, log, projectiles, pending, spawned, hits, dead, checked, players, trace)
    }

    constructor ()
      ensures View() == NEW_SESSION
    {
      elapsed, counter, log, projectiles, pending := 0.0, 0, [], [], [];
      spawned, hits, dead, checked, players, trace := 0, 0, 0, 0, map[], [];
    }

    method UpsertPlayer(id: string)
      modifies this
      ensures View() == Upsert(old(View()), id)
    {
      var p := Joined(id, Live(projectiles, id)).(respawned := id in players);
      if id in players && players[id].id != "" {
        p := players[id].(respawned := true);
        trace := trace + [Healed(id)];
      } else {
        trace := trace + [Came(id)];
      }
      p := p.(health := MAX_HEALTH, taken := 0);
      p := p.(announced := false);
      p := p.(lastFire := None);
      players := players[id := p];
    }

    method RemovePlayer(id: string)
      modifies this
      ensures View() == Remove(old(View()), id)
    {
      players := players - {id};
      EraseOwnedBy(id);
    }

    method EraseOwnedBy(id: string)
      modifies `projectiles
      ensures projectiles == OthersOnly(old(projectiles), id)
    {
      var ps, kept := projectiles, [];
      for i := 0 to |ps|
        invariant kept == OthersOnly(ps[..i], id)
      {
        OthersOnlyAppend(ps[..i], ps[i], id);
        assert ps[..i + 1] == ps[..i] + [ps[i]];
        if ps[i].owner != id {
          kept := kept + [ps[i]];
        }
      }
      assert ps[..|ps|] == ps;
      projectiles := kept;
    }

    method ApplyPlayerInput(id: string, input: Input, dt: real, sqrt: real -> real)
      modifies this
      ensures View() == ApplyInput(old(View()), id, input, dt, sqrt)
    {
      if id !in players || input.sequence < players[id].sequence {
        return;
      }
      var p := players[id].(sequence := input.sequence);
      if Alive(p) {
        p := Moved(p, input, dt, sqrt);
      }
      TrySpawnProjectile(id, p, input, sqrt);
    }

    method TrySpawnProjectile(key: string, player: Player, input: Input, sqrt: real -> real)
      modifies this
      ensures View() == Fire(old(View()), key, player, input, sqrt)
    {
      var p := player;
      if MayFire(p, input, elapsed, sqrt) {
        counter := counter + 1;
        projectiles := projectiles + [Shot(p, input, elapsed, counter, sqrt)];
        spawned := spawned + 1;
        p := p.(lastFire := Some(elapsed), shots := p.shots + 1);
      }
      players := players[key := p];
    }

    method ConsumeDeathEvents() returns (events: seq<Event>)
      modifies this
      ensures events == old(pending) && View() == Drain(old(View()))
    {
      events := pending;
      pending := [];
    }

    method UpdateProjectiles(tick: nat, dt: real, order: seq<string>)
      modifies this
      ensures View() == Tick(old(View()), tick, dt, order)
    {
      elapsed := elapsed + dt;
      AgeInPlace(dt);
      ghost var start := View();
      for i := 0 to |projectiles|
        invariant |projectiles| == |start.projectiles|
        invariant Sweep(View(), i, order, tick) == Sweep(start, 0, order, tick)
      {
        ghost var s := View();
        ScanKeepsLength(s, i, order, tick);
        if projectiles[i].active {
          ScanInPlace(i, order, tick);
        }
        assert Sweep(s, i, order, tick) == Sweep(View(), i + 1, order, tick);
      }
      assert View() == Sweep(start, 0, order, tick);
      EraseInactive();
    }

    method AgeInPlace(dt: real)
      modifies `projectiles
      ensures projectiles == AgeAll(old(projectiles), dt, elapsed)
    {
      for i := 0 to |projectiles|
        invariant |projectiles| == |old(projectiles)|
        invariant forall j :: 0 <= j < i ==> projectiles[j] == Aged(old(projectiles)[j], dt, elapsed)
        invariant forall j :: i <= j < |projectiles| ==> projectiles[j] == old(projectiles)[j]
      {
        projectiles := projectiles[i := Aged(projectiles[i], dt, elapsed)];
      }
    }

    method EraseInactive()
      modifies `projectiles
      ensures projectiles == ActiveOnly(old(projectiles))
    {
      var ps, kept := projectiles, [];
      for i := 0 to |ps|
        invariant kept == ActiveOnly(ps[..i])
      {
        ActiveOnlyAppend(ps[..i], ps[i]);
        assert ps[..i + 1] == ps[..i] + [ps[i]];
        if ps[i].active {
          kept := kept + [ps[i]];
        }
      }
      assert ps[..|ps|] == ps;
      projectiles := kept;
    }

    method ScanInPlace(i: nat, order: seq<string>, tick: nat)
      requires i < |projectiles|
      modifies this
      ensures View() == Scan(old(View()), i, order, tick)
    {
      for k := 0 to |order|
        invariant projectiles == old(projectiles) && i < |projectiles|
        invariant Scan(View(), i, order[k..], tick) == Scan(old(View()), i, order, tick)
      {
        assert order[k..][0] == order[k] && order[k..][1..] == order[k + 1..];
        var key := order[k];
        if key in players && Alive(players[key]) && players[key].id != projectiles[i].owner {
          assert Candidate(View(), i, key);
          checked := checked + 1;
          if Touches(projectiles[i], players[key]) {
            StrikeInPlace(i, key, tick);
            return;
          }
        }
      }
      assert order[|order|..] == [];
    }

    method StrikeInPlace(i: nat, key: string, tick: nat)
      requires i < |projectiles| && key in players
      modifies this
      ensures View() == Strike(old(View()), i, key, tick)
    {
      var p := projectiles[i];
      var q := players[key];
      projectiles := projectiles[i := p.(active := false)];
      log := AddToLog(log, Hit(p.owner, q.id, p.id, tick));
      hits := hits + 1;
      var (health, died) := ApplyDamage(q.health, DAMAGE);
      q := q.(health := health, taken := q.taken + 1);
      if died && !q.announced {
        q := q.(announced := true, deaths := q.deaths + 1);
        var death := Death(p.owner, q.id, p.id, tick);
        pending := pending + [death];
        log := AddToLog(log, death);
        dead := dead + 1;
      }
      players := Credit(players[key := q], p.owner);
      trace := trace + [Hurt(p.owner, q.id, p.id, tick)];
    }
  }
}
