/**
  What every run of the combat session keeps: where projectiles go, what health and deaths say,
  and that shots cover hits and projectiles in the air.
 */
module SessionRuns {
  import opened Collections
  import opened GameSession

  // -------------------------------------------------------------------------- counting

  ghost function Active(ps: seq<Projectile>): nat {
    if ps == [] then 0 else (if ps[0].active then 1 else 0) + Active(ps[1..])
  }

  lemma {:induction false} CountAppend(ps: seq<Projectile>, p: Projectile, id: string)
    ensures Live(ps + [p], id) == Live(ps, id) + (if p.active && p.owner == id then 1 else 0)
    ensures Active(ps + [p]) == Active(ps) + (if p.active then 1 else 0)
  {
    if ps == [] {
      assert [p][1..] == [];
      assert ps + [p] == [p];
    } else {
      CountAppend(ps[1..], p, id);
      assert (ps + [p])[1..] == ps[1..] + [p];
    }
  }

  lemma {:induction false} CountDeactivate(ps: seq<Projectile>, i: nat, id: string)
    requires i < |ps| && ps[i].active
    ensures var ps' := ps[i := ps[i].(active := false)];
            && Live(ps', id) == Live(ps, id) - (if ps[i].owner == id then 1 else 0)
            && Active(ps') == Active(ps) - 1
  {
    var ps' := ps[i := ps[i].(active := false)];
    if i == 0 {
      assert ps'[1..] == ps[1..];
    } else {
      CountDeactivate(ps[1..], i - 1, id);
      assert ps'[1..] == ps[1..][i - 1 := ps[i].(active := false)];
    }
  }

  lemma {:induction false} CountOthers(ps: seq<Projectile>, id: string, other: string)
    ensures Live(OthersOnly(ps, id), other) == if other == id then 0 else Live(ps, other)
    ensures Active(OthersOnly(ps, id)) == Active(ps) - Live(ps, id)
    ensures var r := OthersOnly(ps, id); forall i :: 0 <= i < |r| ==> r[i] in ps && r[i].owner != id
  {
    if ps != [] { CountOthers(ps[1..], id, other); }
  }

  lemma {:induction false} CountActiveOnly(ps: seq<Projectile>, id: string)
    ensures Live(ActiveOnly(ps), id) == Live(ps, id)
    ensures Active(ActiveOnly(ps)) == Active(ps) == |ActiveOnly(ps)|
    ensures forall i :: 0 <= i < |ActiveOnly(ps)| ==> ActiveOnly(ps)[i] in ps && ActiveOnly(ps)[i].active
  {
    if ps != [] { CountActiveOnly(ps[1..], id); }
  }

  lemma {:induction false} CountAged(ps: seq<Projectile>, dt: real, now: real, id: string)
    ensures Live(AgeAll(ps, dt, now), id) <= Live(ps, id)
    ensures Active(AgeAll(ps, dt, now)) <= Active(ps)
  {
    if ps != [] {
      CountAged(ps[1..], dt, now, id);
      assert AgeAll(ps, dt, now)[1..] == AgeAll(ps[1..], dt, now);
    }
  }

  lemma {:induction false} AllActive(ps: seq<Projectile>)
    requires forall i :: 0 <= i < |ps| ==> ps[i].active
    ensures Active(ps) == |ps|
  {
    if ps != [] { AllActive(ps[1..]); }
  }

  // ------------------------------------------------------------------- the invariant

  /**
    Health is what the hits taken since the last reset leave, the fifth kills, and a death is
    announced exactly then.  Hits landed and shots in the air are covered by shots fired and
    by what was carried over when the counters were zeroed: nothing, for a non-empty id.
   */
  ghost predicate PlayerOk(p: Player, key: string, live: nat) {
    && p.id == key && p.taken <= 5 && p.health == MAX_HEALTH - DAMAGE * p.taken
    && (p.announced <==> p.taken == 5)
    && p.hits + live <= p.shots + p.carried && (key != "" ==> p.carried == 0)
  }

  ghost predicate PlayersOk(players: map<string, Player>, ps: seq<Projectile>) {
    forall id :: id in players ==> PlayerOk(players[id], id, Live(ps, id))
  }

  ghost predicate OwnersPresent(players: map<string, Player>, ps: seq<Projectile>) {
    forall i :: 0 <= i < |ps| ==> ps[i].owner in players
  }

  ghost predicate Mid(s: Session) {
    PlayersOk(s.players, s.projectiles) && OwnersPresent(s.players, s.projectiles)
  }

  ghost predicate AllFlying(ps: seq<Projectile>) { forall i :: 0 <= i < |ps| ==> ps[i].active }

  /** What a hit is: a living target loses a fifth of its health; the fifth hit, and no other, is a death event. */
  lemma StrikeTarget(s: Session, i: nat, key: string, tick: nat)
    requires Mid(s) && i < |s.projectiles| && Candidate(s, i, key)
    ensures var s', q := Strike(s, i, key, tick), s.players[key];
            && key in s'.players && s'.players[key].taken == q.taken + 1 <= 5
            && s'.players[key].health == q.health - DAMAGE
            && s'.pending == s.pending + (if q.taken == 4
                                          then [Death(s.projectiles[i].owner, key, s.projectiles[i].id, tick)] else [])
            && s'.dead == (if q.taken == 4 then s.dead + 1 else s.dead)
            && s'.players[key].deaths == (if q.taken == 4 then q.deaths + 1 else q.deaths)
  {
    assert PlayerOk(s.players[key], key, Live(s.projectiles, key));
  }

  lemma StrikeKeepsMid(s: Session, i: nat, key: string, tick: nat)
    requires Mid(s) && i < |s.projectiles| && Candidate(s, i, key) && s.projectiles[i].active
    ensures var s' := Strike(s, i, key, tick);
            Mid(s') && s'.players.Keys == s.players.Keys && Active(s'.projectiles) + 1 == Active(s.projectiles)
  {
    var s' := Strike(s, i, key, tick);
    StrikeTarget(s, i, key, tick);
    forall id | id in s'.players ensures PlayerOk(s'.players[id], id, Live(s'.projectiles, id)) {
      CountDeactivate(s.projectiles, i, id);
      assert PlayerOk(s.players[id], id, Live(s.projectiles, id));
    }
    CountDeactivate(s.projectiles, i, key);
  }

  /** The projectiles are the same but some have stopped being active. */
  ghost predicate OnlyDeactivated(ps: seq<Projectile>, ps': seq<Projectile>) {
    |ps| == |ps'| && forall i :: 0 <= i < |ps| ==> ps'[i] == ps[i] || ps'[i] == ps[i].(active := false)
  }

  /** Players keep when they fired and what they carried over. */
  ghost predicate SameShooters(players: map<string, Player>, players': map<string, Player>) {
    && players.Keys == players'.Keys
    && forall id :: id in players ==> SameShooter(players[id], players'[id])
  }

  ghost predicate SameShooter(p: Player, p': Player) {
    p'.lastFire == p.lastFire && p'.respawned == p.respawned && p'.carried == p.carried
  }

  /** What happens between two moments of a tick: projectiles turn into hits, deaths into pending events. */
  ghost predicate Progressed(s: Session, s': Session) {
    && Mid(s') && OnlyDeactivated(s.projectiles, s'.projectiles) && SameShooters(s.players, s'.players)
    && Active(s'.projectiles) + s'.hits == Active(s.projectiles) + s.hits
    && s.pending <= s'.pending && s'.dead - s.dead == |s'.pending| - |s.pending|
    && s'.spawned == s.spawned && s'.elapsed == s.elapsed && s'.counter == s.counter
  }

  lemma StrikeProgresses(s: Session, i: nat, key: string, tick: nat)
    requires Mid(s) && i < |s.projectiles| && Candidate(s, i, key) && s.projectiles[i].active
    ensures Progressed(s, Strike(s, i, key, tick))
  {
    StrikeKeepsMid(s, i, key, tick);
    StrikeTarget(s, i, key, tick);
  }

  lemma CheckedProgresses(s: Session, s1: Session, u: Session)
    requires s1 == s.(checked := s1.checked) && Progressed(s1, u)
    ensures Progressed(s, u)
  {
  }

  lemma {:induction false} ScanProgresses(s: Session, i: nat, order: seq<string>, tick: nat) returns (u: Session)
    requires Mid(s) && i < |s.projectiles| && s.projectiles[i].active
    ensures u == Scan(s, i, order, tick) && Progressed(s, u)
    decreases |order|
  {
    if order == [] {
      u := s;
    } else if !Candidate(s, i, order[0]) {
      u := ScanProgresses(s, i, order[1..], tick);
    } else if Touches(s.projectiles[i], s.players[order[0]]) {
      u := StrikeAfterCheck(s, i, order[0], tick);
    } else {
      var s1 := s.(checked := s.checked + 1);
      CheckKeepsMid(s);
      u := ScanProgresses(s1, i, order[1..], tick);
      CheckedProgresses(s, s1, u);
    }
  }

  lemma CheckKeepsMid(s: Session)
    requires Mid(s)
    ensures Mid(s.(checked := s.checked + 1))
  {
  }

  lemma StrikeAfterCheck(s: Session, i: nat, key: string, tick: nat) returns (u: Session)
    requires Mid(s) && i < |s.projectiles| && Candidate(s, i, key) && s.projectiles[i].active
    ensures u == Strike(s.(checked := s.checked + 1), i, key, tick) && Progressed(s, u)
  {
    var s1 := s.(checked := s.checked + 1);
    CheckKeepsMid(s);
    StrikeProgresses(s1, i, key, tick);
    u := Strike(s1, i, key, tick);
    CheckedProgresses(s, s1, u);
  }

  lemma ProgressedTwice(s: Session, t: Session, u: Session)
    requires Progressed(s, t) && Progressed(t, u)
    ensures Progressed(s, u)
  {
  }

  lemma {:induction false} SweepProgresses(s: Session, i: nat, order: seq<string>, tick: nat) returns (u: Session)
    requires Mid(s) && i <= |s.projectiles|
    ensures u == Sweep(s, i, order, tick) && Progressed(s, u)
    decreases |s.projectiles| - i
  {
    if i == |s.projectiles| {
      u := s;
    } else {
      ScanKeepsLength(s, i, order, tick);
      var s' := s;
      if s.projectiles[i].active { s' := ScanProgresses(s, i, order, tick); }
      u := SweepProgresses(s', i + 1, order, tick);
      ProgressedTwice(s, s', u);
    }
  }

  // --------------------------------------------------------------------- whole runs

  /** A session with how many projectiles aged out or left with their owner, and what was drained. */
  datatype Run = Run(s: Session, expired: nat, removed: nat, drained: seq<Event>)

  datatype Step =
    | Join(id: string)
    | Leave(id: string)
    | Command(id: string, input: Input, dt: real)
    | TickAll(tick: nat, dt: real, order: seq<string>)
    | Consume

  function Perform(r: Run, step: Step, sqrt: real -> real): Run {
    match step
    case Join(id) => r.(s := Upsert(r.s, id))
    case Leave(id) =>
      var s' := Remove(r.s, id);
      r.(s := s', removed := r.removed + Surplus(|r.s.projectiles|, |s'.projectiles|))
    case Command(id, input, dt) => r.(s := ApplyInput(r.s, id, input, dt, sqrt))
    case TickAll(tick, dt, order) =>
      Ticked(r, Tick(r.s, tick, dt, order), |ActiveOnly(AgeAll(r.s.projectiles, dt, r.s.elapsed + dt))|)
    case Consume => r.(s := Drain(r.s), drained := r.drained + r.s.pending)
  }

  function Ticked(r: Run, s': Session, surviving: nat): Run {
    r.(s := s', expired := r.expired + Surplus(|r.s.projectiles|, surviving))
  }

  function Surplus(a: nat, b: nat): nat {
    if a >= b then a - b else 0
  }

  function PerformAll(steps: seq<Step>, sqrt: real -> real): Run {
    if steps == [] then Run(NEW_SESSION, 0, 0, [])
    else Perform(PerformAll(steps[..|steps| - 1], sqrt), steps[|steps| - 1], sqrt)
  }

  ghost predicate RunOk(r: Run) {
    && Mid(r.s) && AllFlying(r.s.projectiles)
    && r.s.spawned == r.s.hits + r.expired + r.removed + |r.s.projectiles|
    && r.s.dead == |r.drained| + |r.s.pending|
  }

  lemma JoinKeepsOk(r: Run, id: string)
    requires RunOk(r)
    ensures RunOk(r.(s := Upsert(r.s, id)))
  {
    var s' := Upsert(r.s, id);
    forall k | k in s'.players ensures PlayerOk(s'.players[k], k, Live(s'.projectiles, k)) {
      if k in r.s.players {
        assert PlayerOk(r.s.players[k], k, Live(r.s.projectiles, k));
      } else {
        NobodysShots(r.s.projectiles, id, r.s.players);
      }
    }
  }

  /** A player that is not present has no projectiles. */
  lemma {:induction false} NobodysShots(ps: seq<Projectile>, id: string, players: map<string, Player>)
    requires OwnersPresent(players, ps) && id !in players
    ensures Live(ps, id) == 0
  {
    if ps != [] {
      assert ps[0].owner in players;
      NobodysShots(ps[1..], id, players);
    }
  }

  lemma LeaveKeepsOk(r: Run, id: string, sqrt: real -> real)
    requires RunOk(r)
    ensures RunOk(Perform(r, Leave(id), sqrt))
  {
    var s' := Remove(r.s, id);
    CountOthers(r.s.projectiles, id, id);
    AllActive(r.s.projectiles);
    AllActive(s'.projectiles);
    forall k | k in s'.players ensures PlayerOk(s'.players[k], k, Live(s'.projectiles, k)) {
      CountOthers(r.s.projectiles, id, k);
      assert PlayerOk(r.s.players[k], k, Live(r.s.projectiles, k));
    }
  }

  lemma PlacedKeepsMid(s: Session, key: string, p: Player)
    requires Mid(s) && key in s.players && PlayerOk(p, key, Live(s.projectiles, key))
    ensures Mid(s.(players := s.players[key := p]))
  {
    var players := s.players[key := p];
    forall k | k in players ensures PlayerOk(players[k], k, Live(s.projectiles, k)) {
      assert k in s.players && PlayerOk(s.players[k], k, Live(s.projectiles, k));
    }
  }

  lemma ShotKeepsPlayers(players: map<string, Player>, ps: seq<Projectile>, key: string, p: Player, shot: Projectile)
    requires PlayersOk(players, ps) && key in players && shot.owner == key
    requires PlayerOk(p, key, Live(ps, key) + 1)
    ensures PlayersOk(players[key := p], ps + [shot])
  {
    var players' := players[key := p];
    forall k | k in players' ensures PlayerOk(players'[k], k, Live(ps + [shot], k)) {
      CountAppend(ps, shot, k);
      assert k in players && PlayerOk(players[k], k, Live(ps, k));
    }
  }

  lemma FireKeepsMid(s: Session, key: string, p: Player, input: Input, sqrt: real -> real)
    requires Mid(s) && AllFlying(s.projectiles) && key in s.players && PlayerOk(p, key, Live(s.projectiles, key))
    ensures var s' := Fire(s, key, p, input, sqrt);
            && Mid(s') && AllFlying(s'.projectiles) && s'.spawned - s.spawned == |s'.projectiles| - |s.projectiles|
            && s'.hits == s.hits && s'.dead == s.dead && s'.pending == s.pending
  {
    if MayFire(p, input, s.elapsed, sqrt) {
      var shot := Shot(p, input, s.elapsed, s.counter + 1, sqrt);
      var p' := p.(lastFire := Some(s.elapsed), shots := p.shots + 1);
      ShotKeepsPlayers(s.players, s.projectiles, key, p', shot);
    } else {
      PlacedKeepsMid(s, key, p);
    }
  }

  lemma CommandKeepsOk(r: Run, id: string, input: Input, dt: real, sqrt: real -> real)
    requires RunOk(r)
    ensures RunOk(r.(s := ApplyInput(r.s, id, input, dt, sqrt)))
  {
    if id in r.s.players && input.sequence >= r.s.players[id].sequence {
      assert PlayerOk(r.s.players[id], id, Live(r.s.projectiles, id));
      var p := r.s.players[id].(sequence := input.sequence);
      FireKeepsMid(r.s, id, if Alive(p) then Moved(p, input, dt, sqrt) else p, input, sqrt);
    }
  }

  /** Ageing alone keeps everything; it only takes projectiles out of the air. */
  lemma AgeKeepsMid(s: Session, dt: real)
    requires Mid(s)
    ensures Mid(s.(elapsed := s.elapsed + dt, projectiles := AgeAll(s.projectiles, dt, s.elapsed + dt)))
  {
    forall k | k in s.players ensures PlayerOk(s.players[k], k, Live(AgeAll(s.projectiles, dt, s.elapsed + dt), k)) {
      CountAged(s.projectiles, dt, s.elapsed + dt, k);
      assert PlayerOk(s.players[k], k, Live(s.projectiles, k));
    }
  }

  lemma SweptKeepsMid(s: Session)
    requires Mid(s)
    ensures Mid(s.(projectiles := ActiveOnly(s.projectiles))) && AllFlying(ActiveOnly(s.projectiles))
    ensures |ActiveOnly(s.projectiles)| == Active(s.projectiles)
  {
    var ps := ActiveOnly(s.projectiles);
    CountActiveOnly(s.projectiles, "");
    forall k | k in s.players ensures PlayerOk(s.players[k], k, Live(ps, k)) {
      CountActiveOnly(s.projectiles, k);
      assert PlayerOk(s.players[k], k, Live(s.projectiles, k));
    }
  }

  lemma SweptEffect(s: Session, aged: Session, swept: Session)
    requires aged == s.(elapsed := aged.elapsed, projectiles := aged.projectiles) && Progressed(aged, swept)
    ensures var s' := swept.(projectiles := ActiveOnly(swept.projectiles));
            && Mid(s') && AllFlying(s'.projectiles) && SameShooters(s.players, s'.players)
            && |s'.projectiles| + s'.hits == Active(aged.projectiles) + s.hits
            && s.pending <= s'.pending && s'.dead - s.dead == |s'.pending| - |s.pending| && s'.spawned == s.spawned
  {
    SweptKeepsMid(swept);
  }

  /** A tick is ageing, a collision pass, and dropping what is no longer active. */
  lemma TickSweeps(s: Session, tick: nat, dt: real, order: seq<string>) returns (aged: Session, swept: Session)
    requires Mid(s)
    ensures aged == s.(elapsed := s.elapsed + dt, projectiles := AgeAll(s.projectiles, dt, s.elapsed + dt))
    ensures Mid(aged) && swept == Sweep(aged, 0, order, tick) && Progressed(aged, swept)
    ensures Tick(s, tick, dt, order) == swept.(projectiles := ActiveOnly(swept.projectiles))
  {
    aged := s.(elapsed := s.elapsed + dt, projectiles := AgeAll(s.projectiles, dt, s.elapsed + dt));
    AgeKeepsMid(s, dt);
    swept := SweepProgresses(aged, 0, order, tick);
  }

  lemma TickEffect(s: Session, tick: nat, dt: real, order: seq<string>)
    requires Mid(s)
    ensures var s', aged := Tick(s, tick, dt, order), AgeAll(s.projectiles, dt, s.elapsed + dt);
            && Mid(s') && AllFlying(s'.projectiles) && SameShooters(s.players, s'.players)
            && |s'.projectiles| + s'.hits == Active(aged) + s.hits
            && s.pending <= s'.pending && s'.dead - s.dead == |s'.pending| - |s.pending| && s'.spawned == s.spawned
  {
    var aged, swept := TickSweeps(s, tick, dt, order);
    SweptEffect(s, aged, swept);
  }

  lemma TickKeepsOk(r: Run, tick: nat, dt: real, order: seq<string>, sqrt: real -> real)
    requires RunOk(r)
    ensures RunOk(Perform(r, TickAll(tick, dt, order), sqrt))
  {
    var surviving := |ActiveOnly(AgeAll(r.s.projectiles, dt, r.s.elapsed + dt))|;
    AgedCounts(r.s.projectiles, dt, r.s.elapsed + dt);
    TickedOk(r, tick, dt, order, surviving);
  }

  lemma TickedOk(r: Run, tick: nat, dt: real, order: seq<string>, surviving: nat)
    requires RunOk(r)
    requires surviving == Active(AgeAll(r.s.projectiles, dt, r.s.elapsed + dt)) <= |r.s.projectiles|
    ensures RunOk(Ticked(r, Tick(r.s, tick, dt, order), surviving))
  {
    TickEffect(r.s, tick, dt, order);
    TickAccounts(r, Tick(r.s, tick, dt, order), surviving);
  }

  lemma TickAccounts(r: Run, s': Session, surviving: nat)
    requires RunOk(r) && Mid(s') && AllFlying(s'.projectiles) && surviving <= |r.s.projectiles|
    requires |s'.projectiles| + s'.hits == surviving + r.s.hits && s'.spawned == r.s.spawned
    requires s'.dead - r.s.dead == |s'.pending| - |r.s.pending|
    ensures RunOk(Ticked(r, s', surviving))
  {
  }

  lemma AgedCounts(ps: seq<Projectile>, dt: real, now: real)
    requires AllFlying(ps)
    ensures |ActiveOnly(AgeAll(ps, dt, now))| == Active(AgeAll(ps, dt, now)) <= |ps|
  {
    CountAged(ps, dt, now, "");
    CountActiveOnly(AgeAll(ps, dt, now), "");
    AllActive(ps);
  }

  lemma StepKeepsOk(r: Run, step: Step, sqrt: real -> real)
    requires RunOk(r)
    ensures RunOk(Perform(r, step, sqrt))
  {
    match step
    case Join(id) => JoinKeepsOk(r, id);
    case Leave(id) => LeaveKeepsOk(r, id, sqrt);
    case Command(id, input, dt) => CommandKeepsOk(r, id, input, dt, sqrt);
    case TickAll(tick, dt, order) => TickKeepsOk(r, tick, dt, order, sqrt);
    case Consume =>
  }

  /**
    Every session run, whatever the traversal orders: owners of projectiles are present; every
    projectile spawned is accounted for as a hit, aged out, gone with its owner, or in the air;
    every death counted is drained or pending, once; and health, deaths and shots agree.
   */
  lemma {:induction false} SessionInvariant(steps: seq<Step>, sqrt: real -> real)
    ensures RunOk(PerformAll(steps, sqrt))
  {
    if steps != [] {
      SessionInvariant(steps[..|steps| - 1], sqrt);
      StepKeepsOk(PerformAll(steps[..|steps| - 1], sqrt), steps[|steps| - 1], sqrt);
    }
  }

  /** Shots fired cover hits landed and shots in the air for every player with a non-empty id. */
  lemma ShotsCovered(steps: seq<Step>, id: string, sqrt: real -> real)
    ensures var s := PerformAll(steps, sqrt).s;
            id in s.players && id != "" ==> s.players[id].hits + Live(s.projectiles, id) <= s.players[id].shots
  {
    SessionInvariant(steps, sqrt);
    var s := PerformAll(steps, sqrt).s;
    assert id in s.players ==> PlayerOk(s.players[id], id, Live(s.projectiles, id));
  }

  // ------------------------------------------------------------------- the empty id

  /** The bound for the empty id. */
  ghost predicate Covered(s: Session) {
    "" in s.players ==> s.players[""].hits + Live(s.projectiles, "") <= s.players[""].shots
  }

  /** Upserting the empty id forgets its shots: the bound then holds exactly if none is in the air. */
  lemma EmptyIdForgets(steps: seq<Step>, sqrt: real -> real)
    ensures var s := PerformAll(steps, sqrt).s; Covered(Upsert(s, "")) <==> Live(s.projectiles, "") == 0
  {
    SessionInvariant(steps, sqrt);
    var s := PerformAll(steps, sqrt).s;
    assert "" in s.players ==> PlayerOk(s.players[""], "", Live(s.projectiles, ""));
  }

  /** Whenever the empty id is upserted, it has nothing in the air. */
  ghost predicate NeverForgets(steps: seq<Step>, sqrt: real -> real) {
    forall k :: 0 <= k < |steps| && steps[k] == Join("") ==> Live(PerformAll(steps[..k], sqrt).s.projectiles, "") == 0
  }

  ghost predicate AlwaysCovered(steps: seq<Step>, sqrt: real -> real) {
    forall k :: 0 <= k <= |steps| ==> Covered(PerformAll(steps[..k], sqrt).s)
  }

  ghost predicate CarriesNothing(s: Session) {
    "" in s.players ==> s.players[""].carried == 0
  }

  lemma StepCarriesNothing(r: Run, step: Step, sqrt: real -> real)
    requires RunOk(r) && CarriesNothing(r.s) && (step == Join("") ==> Live(r.s.projectiles, "") == 0)
    ensures CarriesNothing(Perform(r, step, sqrt).s)
  {
    match step
    case Join(id) =>
      if "" in r.s.players {
        assert PlayerOk(r.s.players[""], "", Live(r.s.projectiles, ""));
      }
    case Leave(id) =>
    case Command(id, input, dt) =>
    case TickAll(tick, dt, order) =>
      TickEffect(r.s, tick, dt, order);
      assert "" in r.s.players ==> SameShooter(r.s.players[""], Tick(r.s, tick, dt, order).players[""]);
    case Consume =>
  }

  lemma {:induction false} RunCarriesNothing(steps: seq<Step>, sqrt: real -> real)
    requires NeverForgets(steps, sqrt)
    ensures CarriesNothing(PerformAll(steps, sqrt).s)
  {
    if steps != [] {
      var before, last := steps[..|steps| - 1], |steps| - 1;
      NeverForgetsBefore(steps, last, sqrt);
      RunCarriesNothing(before, sqrt);
      SessionInvariant(before, sqrt);
      StepCarriesNothing(PerformAll(before, sqrt), steps[last], sqrt);
    }
  }

  lemma NeverForgetsBefore(steps: seq<Step>, n: nat, sqrt: real -> real)
    requires NeverForgets(steps, sqrt) && n <= |steps|
    ensures NeverForgets(steps[..n], sqrt)
  {
    forall k | 0 <= k < n && steps[..n][k] == Join("")
      ensures Live(PerformAll(steps[..n][..k], sqrt).s.projectiles, "") == 0
    {
      assert steps[..n][..k] == steps[..k];
    }
  }

  lemma NotCarriedMeansCovered(steps: seq<Step>, sqrt: real -> real)
    requires CarriesNothing(PerformAll(steps, sqrt).s)
    ensures Covered(PerformAll(steps, sqrt).s)
  {
    SessionInvariant(steps, sqrt);
    var s := PerformAll(steps, sqrt).s;
    assert "" in s.players ==> PlayerOk(s.players[""], "", Live(s.projectiles, ""));
  }

  /**
    Over a whole run shots cover hits and projectiles in the air for the empty id, in every
    state, exactly if every upsert of the empty id finds nothing of it in the air.
   */
  lemma EmptyIdExactly(steps: seq<Step>, sqrt: real -> real)
    ensures AlwaysCovered(steps, sqrt) <==> NeverForgets(steps, sqrt)
  {
    if NeverForgets(steps, sqrt) {
      forall k | 0 <= k <= |steps| ensures Covered(PerformAll(steps[..k], sqrt).s) {
        NeverForgetsBefore(steps, k, sqrt);
        RunCarriesNothing(steps[..k], sqrt);
        NotCarriedMeansCovered(steps[..k], sqrt);
      }
    }
    if AlwaysCovered(steps, sqrt) {
      forall k | 0 <= k < |steps| && steps[k] == Join("")
        ensures Live(PerformAll(steps[..k], sqrt).s.projectiles, "") == 0
      {
        EmptyIdForgets(steps[..k], sqrt);
        assert steps[..k + 1][..k] == steps[..k];
        assert Covered(PerformAll(steps[..k + 1], sqrt).s);
      }
    }
  }

  lemma OneStep(steps: seq<Step>, step: Step, sqrt: real -> real)
    ensures PerformAll(steps + [step], sqrt) == Perform(PerformAll(steps, sqrt), step, sqrt)
  {
    assert (steps + [step])[..|steps|] == steps;
  }

  const FIRE_RIGHT := Input(0, false, false, false, false, true, 1.0, 0.0)

  /** A player at the origin whose shot to the right, fired at time zero, is at distance `x`. */
  function ShotAt(x: real): Projectile {
    Projectile(1, "", x, 0.0, 1.0, 0.0, 0.0, true)
  }

  lemma FiresRight(sqrt: real -> real)
    requires sqrt(1.0) == 1.0
    ensures Moved(Joined("", 0), FIRE_RIGHT, 0.0, sqrt) == Joined("", 0)
    ensures MayFire(Joined("", 0), FIRE_RIGHT, 0.0, sqrt)
    ensures Shot(Joined("", 0), FIRE_RIGHT, 0.0, 1, sqrt) == ShotAt(0.3)
  {
    var m := sqrt(0.0 * 0.0 + 0.0 * 0.0);
    assert PLAYER_SPEED * 0.0 == 0.0;
    assert m > 0.0 ==> 0.0 / m * 0.0 == 0.0;
    assert FIRE_RIGHT.mouseX * FIRE_RIGHT.mouseX + FIRE_RIGHT.mouseY * FIRE_RIGHT.mouseY == 1.0;
  }

  lemma Fired(s: Session, sqrt: real -> real)
    requires sqrt(1.0) == 1.0 && s.elapsed == 0.0 && s.counter == 0 && s.projectiles == []
    requires "" in s.players && s.players[""] == Joined("", 0)
    ensures var s' := ApplyInput(s, "", FIRE_RIGHT, 0.0, sqrt);
            && s'.projectiles == [ShotAt(0.3)] && s'.elapsed == 0.0
            && s'.players == s.players[""  := Joined("", 0).(lastFire := Some(0.0), shots := 1)]
  {
    FiresRight(sqrt);
    assert Joined("", 0).(sequence := 0) == Joined("", 0);
  }

  lemma Lands(s: Session)
    requires s.elapsed == 0.0 && s.projectiles == [ShotAt(0.3)] && "b" in s.players && "" in s.players
    requires s.players["b"] == Joined("b", 0) && s.players[""].hits == 0
    ensures var s' := Tick(s, 1, 0.01, ["b"]);
            && s'.projectiles == [] && "" in s'.players
            && s'.players[""].hits == 1 && s'.players[""].shots == s.players[""].shots
  {
    var aged := s.(elapsed := 0.01, projectiles := [ShotAt(0.6)]);
    assert AgeAll(s.projectiles, 0.01, 0.01) == [ShotAt(0.6)];
    assert Candidate(aged, 0, "b") && Touches(ShotAt(0.6), Joined("b", 0));
    var struck := Strike(aged.(checked := aged.checked + 1), 0, "b", 1);
    assert Scan(aged, 0, ["b"], 1) == struck;
    assert struck.projectiles == [ShotAt(0.6).(active := false)];
    assert Sweep(aged, 0, ["b"], 1) == Sweep(struck, 1, ["b"], 1) == struck;
    assert ActiveOnly(struck.projectiles) == [];
  }

  /** Shooting, joining again while the shot is in the air, and hitting leaves a hit and no shot. */
  lemma EmptyIdFails(sqrt: real -> real) returns (steps: seq<Step>)
    requires sqrt(1.0) == 1.0
    ensures var s := PerformAll(steps, sqrt).s;
            && "" in s.players && s.projectiles == [] && s.players[""].hits == 1 && s.players[""].shots == 0
            && !Covered(s) && !NeverForgets(steps, sqrt)
  {
    var start: seq<Step> := [];
    var s0 := start + [Join("b")];
    var s1 := s0 + [Join("")];
    var s2 := s1 + [Command("", FIRE_RIGHT, 0.0)];
    var s3 := s2 + [Join("")];
    steps := s3 + [TickAll(1, 0.01, ["b"])];
    OneStep(start, Join("b"), sqrt);
    OneStep(s0, Join(""), sqrt);
    OneStep(s1, Command("", FIRE_RIGHT, 0.0), sqrt);
    Fired(PerformAll(s1, sqrt).s, sqrt);
    OneStep(s2, Join(""), sqrt);
    OneStep(s3, TickAll(1, 0.01, ["b"]), sqrt);
    Lands(PerformAll(s3, sqrt).s);
    assert Live([], "") == 0;
    assert steps[..|steps|] == steps;
    assert !Covered(PerformAll(steps[..|steps|], sqrt).s);
    EmptyIdExactly(steps, sqrt);
  }

  /**
    A player is dead exactly when it took its fifth hit since the last reset, and exactly then its
    death is announced.
   */
  lemma FifthHitKills(steps: seq<Step>, id: string, sqrt: real -> real)
    ensures var players := PerformAll(steps, sqrt).s.players;
            id in players ==>
              var p := players[id];
              && p.health == 100 - 20 * p.taken >= 0
              && (!Alive(p) <==> p.taken == 5) && (p.announced <==> !Alive(p))
  {
    SessionInvariant(steps, sqrt);
    var s := PerformAll(steps, sqrt).s;
    assert id in s.players ==> PlayerOk(s.players[id], id, Live(s.projectiles, id));
  }
}
