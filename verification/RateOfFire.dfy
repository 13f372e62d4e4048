/** The rate of fire: the cooldown against the lifetime of a projectile, over every run. */
module RateOfFire {
  import opened Collections
  import opened GameSession
  import opened SessionRuns

  /** One player's projectiles in the air: a cooldown apart, none out of lifetime, none after its last shot. */
  ghost predicate Spaced(ps: seq<Projectile>, id: string, lastFire: Option<real>, elapsed: real) {
    && (forall i, j :: 0 <= i < j < |ps| && Flies(ps[i], id) && Flies(ps[j], id) ==>
            ps[i].spawn + COOLDOWN <= ps[j].spawn)
    && (forall i :: 0 <= i < |ps| && Flies(ps[i], id) ==>
          lastFire.Some? && elapsed - LIFETIME < ps[i].spawn <= lastFire.value <= elapsed)
  }

  predicate Flies(p: Projectile, id: string) { p.active && p.owner == id }

  /** Holds for everyone who has not been upserted again while present. */
  ghost predicate AllSpaced(s: Session) {
    forall id :: id in s.players && !s.players[id].respawned ==> SpacedPlayer(s, id)
  }

  ghost predicate SpacedPlayer(s: Session, id: string)
    requires id in s.players
  {
    && Spaced(s.projectiles, id, s.players[id].lastFire, s.elapsed)
    && (s.players[id].lastFire.Some? ==> s.players[id].lastFire.value <= s.elapsed)
  }

  /** Shots a cooldown apart between two times are at most that span over the cooldown, plus one. */
  lemma {:induction false} LiveSpan(ps: seq<Projectile>, id: string, first: real, last: real)
    requires forall i, j :: 0 <= i < j < |ps| && Flies(ps[i], id) && Flies(ps[j], id) ==>
            ps[i].spawn + COOLDOWN <= ps[j].spawn
    requires forall i :: 0 <= i < |ps| && Flies(ps[i], id) ==> first <= ps[i].spawn <= last
    ensures Live(ps, id) > 0 ==> first + (Live(ps, id) - 1) as real * COOLDOWN <= last
  {
    if ps != [] {
      var rest := ps[1..];
      if Flies(ps[0], id) {
        forall i | 0 <= i < |rest| && Flies(rest[i], id) ensures ps[0].spawn + COOLDOWN <= rest[i].spawn <= last {
          assert rest[i] == ps[i + 1];
        }
        LiveSpan(rest, id, ps[0].spawn + COOLDOWN, last);
      } else {
        LiveSpan(rest, id, first, last);
      }
    }
  }

  lemma AtMostFifteen(ps: seq<Projectile>, id: string, lastFire: Option<real>, elapsed: real)
    requires Spaced(ps, id, lastFire, elapsed)
    ensures Live(ps, id) <= 15
  {
    if Live(ps, id) > 0 {
      var k := FirstFlying(ps, id);
      SameLive(ps, id, k);
      LiveSpan(ps[k..], id, ps[k].spawn, elapsed);
    }
  }

  lemma {:induction false} FirstFlying(ps: seq<Projectile>, id: string) returns (k: nat)
    requires Live(ps, id) > 0
    ensures k < |ps| && Flies(ps[k], id) && forall i :: 0 <= i < k ==> !Flies(ps[i], id)
  {
    if Flies(ps[0], id) {
      k := 0;
    } else {
      var j := FirstFlying(ps[1..], id);
      k := j + 1;
      assert ps[1..][j] == ps[k];
      forall i | 0 < i < k ensures !Flies(ps[i], id) { assert ps[1..][i - 1] == ps[i]; }
    }
  }

  lemma {:induction false} SameLive(ps: seq<Projectile>, id: string, k: nat)
    requires k <= |ps| && forall i :: 0 <= i < k ==> !Flies(ps[i], id)
    ensures Live(ps[k..], id) == Live(ps, id)
  {
    if k > 0 {
      SameLive(ps[1..], id, k - 1);
      assert ps[1..][k - 1..] == ps[k..];
    }
  }

  /** Dropping projectiles, in any way that keeps the order, keeps the spacing of the rest. */
  ghost predicate Thinned(ps: seq<Projectile>, qs: seq<Projectile>, pos: seq<nat>) {
    && |pos| == |qs|
    && (forall i :: 0 <= i < |pos| ==> pos[i] < |ps| && SameShot(ps[pos[i]], qs[i]))
    && (forall i, j :: 0 <= i < j < |pos| ==> pos[i] < pos[j])
  }

  /** The later form of a projectile: same owner and time of firing, and active only if it was. */
  ghost predicate SameShot(p: Projectile, q: Projectile) {
    q.owner == p.owner && q.spawn == p.spawn && (q.active ==> p.active)
  }

  lemma {:induction false} ActiveOnlyThins(ps: seq<Projectile>) returns (pos: seq<nat>)
    ensures Thinned(ps, ActiveOnly(ps), pos)
  {
    if ps == [] {
      pos := [];
    } else {
      var rest := ActiveOnlyThins(ps[1..]);
      pos := Shifted(rest, ps[0].active);
      ThinsCons(ps, ActiveOnly(ps[1..]), rest, ps[0].active);
    }
  }

  lemma {:induction false} OthersOnlyThins(ps: seq<Projectile>, id: string) returns (pos: seq<nat>)
    ensures Thinned(ps, OthersOnly(ps, id), pos)
  {
    if ps == [] {
      pos := [];
    } else {
      var rest := OthersOnlyThins(ps[1..], id);
      pos := Shifted(rest, ps[0].owner != id);
      ThinsCons(ps, OthersOnly(ps[1..], id), rest, ps[0].owner != id);
    }
  }

  ghost function Shifted(pos: seq<nat>, keep: bool): seq<nat> {
    (if keep then [0] else []) + seq(|pos|, i requires 0 <= i < |pos| => pos[i] + 1)
  }

  lemma ThinsCons(ps: seq<Projectile>, qs: seq<Projectile>, pos: seq<nat>, keep: bool)
    requires ps != [] && Thinned(ps[1..], qs, pos)
    ensures Thinned(ps, if keep then [ps[0]] + qs else qs, Shifted(pos, keep))
  {
    var up := seq(|pos|, i requires 0 <= i < |pos| => pos[i] + 1);
    forall i | 0 <= i < |up| ensures 0 < up[i] < |ps| && SameShot(ps[up[i]], qs[i]) {
      assert up[i] == pos[i] + 1 && ps[1..][pos[i]] == ps[up[i]];
    }
    assert Thinned(ps, qs, up);
    if keep {
      ThinsHead(ps, qs, up);
    } else {
      assert [] + up == up;
    }
  }

  lemma ThinsHead(ps: seq<Projectile>, qs: seq<Projectile>, up: seq<nat>)
    requires ps != [] && Thinned(ps, qs, up) && forall i :: 0 <= i < |up| ==> up[i] > 0
    ensures Thinned(ps, [ps[0]] + qs, [0] + up)
  {
    var qs', up' := [ps[0]] + qs, [0] + up;
    forall i | 0 <= i < |up'| ensures up'[i] < |ps| && SameShot(ps[up'[i]], qs'[i]) {
      if i > 0 { assert up'[i] == up[i - 1] && qs'[i] == qs[i - 1]; }
    }
  }

  lemma ThinnedSpaced(ps: seq<Projectile>, qs: seq<Projectile>, pos: seq<nat>, id: string, lastFire: Option<real>,
                      elapsed: real)
    requires Thinned(ps, qs, pos) && Spaced(ps, id, lastFire, elapsed)
    ensures Spaced(qs, id, lastFire, elapsed)
  {
    forall i, j | 0 <= i < j < |qs| && Flies(qs[i], id) && Flies(qs[j], id)
      ensures qs[i].spawn + COOLDOWN <= qs[j].spawn
    {
      assert Flies(ps[pos[i]], id) && Flies(ps[pos[j]], id);
    }
    forall i | 0 <= i < |qs| && Flies(qs[i], id)
      ensures lastFire.Some? && elapsed - LIFETIME < qs[i].spawn <= lastFire.value <= elapsed
    {
      assert Flies(ps[pos[i]], id);
    }
  }

  lemma AgedSpaced(ps: seq<Projectile>, id: string, lastFire: Option<real>, elapsed: real, dt: real)
    requires Spaced(ps, id, lastFire, elapsed) && dt >= 0.0
    ensures Spaced(AgeAll(ps, dt, elapsed + dt), id, lastFire, elapsed + dt)
  {
    var qs := AgeAll(ps, dt, elapsed + dt);
    forall i | 0 <= i < |qs| && Flies(qs[i], id)
      ensures Flies(ps[i], id) && qs[i].spawn == ps[i].spawn && elapsed + dt - LIFETIME < qs[i].spawn
    {
    }
  }

  lemma DeactivatedSpaced(ps: seq<Projectile>, qs: seq<Projectile>, id: string, lastFire: Option<real>, elapsed: real)
    requires OnlyDeactivated(ps, qs) && Spaced(ps, id, lastFire, elapsed)
    ensures Spaced(qs, id, lastFire, elapsed)
  {
    forall i | 0 <= i < |qs| && Flies(qs[i], id) ensures Flies(ps[i], id) && qs[i].spawn == ps[i].spawn {}
  }

  lemma PassSpaced(ps: seq<Projectile>, swept: seq<Projectile>, id: string, last: Option<real>, elapsed: real, dt: real)
    requires Spaced(ps, id, last, elapsed) && dt >= 0.0 && OnlyDeactivated(AgeAll(ps, dt, elapsed + dt), swept)
    ensures Spaced(ActiveOnly(swept), id, last, elapsed + dt)
  {
    AgedSpaced(ps, id, last, elapsed, dt);
    DeactivatedSpaced(AgeAll(ps, dt, elapsed + dt), swept, id, last, elapsed + dt);
    var pos := ActiveOnlyThins(swept);
    ThinnedSpaced(swept, ActiveOnly(swept), pos, id, last, elapsed + dt);
  }

  lemma TickSpaced(s: Session, tick: nat, dt: real, order: seq<string>)
    requires Mid(s) && AllSpaced(s) && dt >= 0.0
    ensures AllSpaced(Tick(s, tick, dt, order))
  {
    var aged, swept := TickSweeps(s, tick, dt, order);
    var s' := Tick(s, tick, dt, order);
    forall id | id in s'.players && !s'.players[id].respawned ensures SpacedPlayer(s', id) {
      assert SpacedPlayer(s, id);
      PassSpaced(s.projectiles, swept.projectiles, id, s.players[id].lastFire, s.elapsed, dt);
    }
  }

  lemma FireSpaced(s: Session, key: string, p: Player, input: Input, sqrt: real -> real)
    requires Mid(s) && AllSpaced(s) && key in s.players && p.id == key
    requires p.lastFire == s.players[key].lastFire && p.respawned == s.players[key].respawned
    ensures AllSpaced(Fire(s, key, p, input, sqrt))
  {
    var s' := Fire(s, key, p, input, sqrt);
    forall id | id in s'.players && !s'.players[id].respawned ensures SpacedPlayer(s', id) {
      assert SpacedPlayer(s, id);
    }
  }

  lemma JoinSpaced(s: Session, id: string)
    requires Mid(s) && AllSpaced(s)
    ensures AllSpaced(Upsert(s, id))
  {
    var s' := Upsert(s, id);
    forall k | k in s'.players && !s'.players[k].respawned ensures SpacedPlayer(s', k) {
      if k in s.players {
        assert SpacedPlayer(s, k);
      } else {
        forall i | 0 <= i < |s.projectiles|
          ensures !Flies(s.projectiles[i], k)
        {
          assert s.projectiles[i].owner in s.players;
        }
      }
    }
  }

  lemma LeaveSpaced(s: Session, id: string)
    requires AllSpaced(s)
    ensures AllSpaced(Remove(s, id))
  {
    var s' := Remove(s, id);
    var pos := OthersOnlyThins(s.projectiles, id);
    forall k | k in s'.players && !s'.players[k].respawned ensures SpacedPlayer(s', k) {
      assert SpacedPlayer(s, k);
      ThinnedSpaced(s.projectiles, s'.projectiles, pos, k, s.players[k].lastFire, s.elapsed);
    }
  }

  lemma {:induction false} SpacingInvariant(steps: seq<Step>, sqrt: real -> real)
    requires forall i :: 0 <= i < |steps| && steps[i].TickAll? ==> steps[i].dt >= 0.0
    ensures AllSpaced(PerformAll(steps, sqrt).s)
  {
    if steps != [] {
      var before, step := steps[..|steps| - 1], steps[|steps| - 1];
      var r := PerformAll(before, sqrt);
      SpacingInvariant(before, sqrt);
      SessionInvariant(before, sqrt);
      match step
      case Join(id) => JoinSpaced(r.s, id);
      case Leave(id) => LeaveSpaced(r.s, id);
      case Command(id, input, dt) =>
        if id in r.s.players && input.sequence >= r.s.players[id].sequence {
          assert PlayerOk(r.s.players[id], id, Live(r.s.projectiles, id));
          var p := r.s.players[id].(sequence := input.sequence);
          FireSpaced(r.s, id, if Alive(p) then Moved(p, input, dt, sqrt) else p, input, sqrt);
        }
      case TickAll(tick, dt, order) => TickSpaced(r.s, tick, dt, order);
      case Consume =>
    }
  }

  /** A player never upserted again while present has at most 15 projectiles in the air, time not running backwards. */
  lemma RateOfFire(steps: seq<Step>, id: string, sqrt: real -> real)
    requires forall i :: 0 <= i < |steps| && steps[i].TickAll? ==> steps[i].dt >= 0.0
    ensures var s := PerformAll(steps, sqrt).s;
            id in s.players && !s.players[id].respawned ==> Live(s.projectiles, id) <= 15
  {
    SpacingInvariant(steps, sqrt);
    var s := PerformAll(steps, sqrt).s;
    if id in s.players && !s.players[id].respawned {
      assert SpacedPlayer(s, id);
      AtMostFifteen(s.projectiles, id, s.players[id].lastFire, s.elapsed);
    }
  }
}
