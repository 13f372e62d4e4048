/**
  Deaths exactly once: what the session counts, queues and logs, against the record of
  everything that happened to players.

  `Deaths` reads off the record who died when, with no reference to health or to the session's
  flags: a player dies of the fifth hit since it last came or was healed.
 */
module SessionRecord {
  import opened Collections
  import opened GameSession
  import opened SessionRuns

  // ------------------------------------------------------------------- reading the record

  /** The hits on a player since it last came or was healed. */
  function HitsSince(trace: seq<Happening>, id: string): nat {
    if trace == [] then 0
    else
      var before := HitsSince(trace[..|trace| - 1], id);
      match trace[|trace| - 1]
      case Came(k) => if k == id then 0 else before
      case Healed(k) => if k == id then 0 else before
      case Hurt(_, target, _, _) => if target == id then before + 1 else before
  }

  /** The last happening is the fifth hit on its target. */
  predicate Kills(before: seq<Happening>, h: Happening) {
    h.Hurt? && HitsSince(before, h.target) == 4
  }

  /** Every death, in order, with who did it, how and when. */
  function Deaths(trace: seq<Happening>): seq<Event> {
    if trace == [] then []
    else
      var before, h := trace[..|trace| - 1], trace[|trace| - 1];
      Deaths(before) + if Kills(before, h) then [Death(h.shooter, h.target, h.projectile, h.tick)] else []
  }

  /** The deaths of a player since its counters were zeroed. */
  function DeathsOf(trace: seq<Happening>, id: string): nat {
    if trace == [] then 0
    else
      var before, h := trace[..|trace| - 1], trace[|trace| - 1];
      if h == Came(id) then 0
      else DeathsOf(before, id) + if Kills(before, h) && h.target == id then 1 else 0
  }

  /** The hits landed by a player since its counters were zeroed. */
  function HitsBy(trace: seq<Happening>, id: string): nat {
    if trace == [] then 0
    else
      var before, h := trace[..|trace| - 1], trace[|trace| - 1];
      if h == Came(id) then 0
      else HitsBy(before, id) + if h.Hurt? && h.shooter == id then 1 else 0
  }

  function Hits(trace: seq<Happening>): nat {
    if trace == [] then 0 else Hits(trace[..|trace| - 1]) + if trace[|trace| - 1].Hurt? then 1 else 0
  }

  /** The combat events: each hit, and right after it the death it causes. */
  function Events(trace: seq<Happening>): seq<Event> {
    if trace == [] then []
    else
      var before, h := trace[..|trace| - 1], trace[|trace| - 1];
      Events(before)
      + (if h.Hurt? then [Hit(h.shooter, h.target, h.projectile, h.tick)] else [])
      + (if Kills(before, h) then [Death(h.shooter, h.target, h.projectile, h.tick)] else [])
  }

  // ------------------------------------------------------------------- what is recorded

  ghost predicate RecordedPlayer(p: Player, id: string, trace: seq<Happening>) {
    p.taken == HitsSince(trace, id) && p.deaths == DeathsOf(trace, id) && p.hits == HitsBy(trace, id)
  }

  ghost predicate RecordedPlayers(players: map<string, Player>, trace: seq<Happening>) {
    forall id :: id in players ==> RecordedPlayer(players[id], id, trace)
  }

  /**
    The counters are those of the record; the events drained so far and those pending are exactly
    the deaths, each once and in order; the combat log is the end of the record.
   */
  ghost predicate Recorded(s: Session, drained: seq<Event>) {
    && RecordedPlayers(s.players, s.trace)
    && drained + s.pending == Deaths(s.trace)
    && s.dead == |Deaths(s.trace)| && s.hits == Hits(s.trace)
    && s.log == KeepLast(Events(s.trace), 32)
  }

  lemma OneMore(trace: seq<Happening>, h: Happening, id: string)
    ensures var more := trace + [h];
            && HitsSince(more, id) == (if h == Came(id) || h == Healed(id) then 0
                                       else HitsSince(trace, id) + if h.Hurt? && h.target == id then 1 else 0)
            && DeathsOf(more, id) == (if h == Came(id) then 0
                                      else DeathsOf(trace, id) + if Kills(trace, h) && h.target == id then 1 else 0)
            && HitsBy(more, id) == (if h == Came(id) then 0
                                    else HitsBy(trace, id) + if h.Hurt? && h.shooter == id then 1 else 0)
  {
    assert (trace + [h])[..|trace|] == trace;
  }

  lemma OneMoreEvent(trace: seq<Happening>, h: Happening)
    ensures var more, death := trace + [h], Kills(trace, h);
            && Hits(more) == Hits(trace) + (if h.Hurt? then 1 else 0)
            && Deaths(more)
               == Deaths(trace) + (if death then [Death(h.shooter, h.target, h.projectile, h.tick)] else [])
            && Events(more)
               == Events(trace) + (if h.Hurt? then [Hit(h.shooter, h.target, h.projectile, h.tick)] else [])
                  + (if death then [Death(h.shooter, h.target, h.projectile, h.tick)] else [])
  {
    assert (trace + [h])[..|trace|] == trace;
  }

  lemma AddToLogKeepsLast(all: seq<Event>, e: Event)
    ensures AddToLog(KeepLast(all, LOG_CAPACITY), e) == KeepLast(all + [e], LOG_CAPACITY)
  {
    KeepLastTwice(all, e, LOG_CAPACITY);
  }

  // ------------------------------------------------------------------- a hit

  /** What a hit adds to the record, and when it kills. */
  lemma StrikeIsRecorded(s: Session, i: nat, key: string, tick: nat) returns (h: Happening)
    requires Mid(s) && i < |s.projectiles| && Candidate(s, i, key) && RecordedPlayers(s.players, s.trace)
    ensures h == Hurt(s.projectiles[i].owner, key, s.projectiles[i].id, tick)
    ensures Strike(s, i, key, tick).trace == s.trace + [h]
    ensures Kills(s.trace, h) <==> s.players[key].taken == 4
  {
    assert PlayerOk(s.players[key], key, Live(s.projectiles, key));
    assert RecordedPlayer(s.players[key], key, s.trace);
    h := Hurt(s.projectiles[i].owner, key, s.projectiles[i].id, tick);
  }

  /** What a hit does to each player. */
  lemma StruckPlayer(s: Session, i: nat, key: string, tick: nat, id: string)
    requires Mid(s) && i < |s.projectiles| && Candidate(s, i, key) && id in s.players
    ensures var p', owner := Strike(s, i, key, tick).players, s.projectiles[i].owner;
            && id in p'
            && p'[id].taken == s.players[id].taken + (if id == key then 1 else 0)
            && p'[id].deaths == s.players[id].deaths + (if id == key && s.players[key].taken == 4 then 1 else 0)
            && p'[id].hits == s.players[id].hits + (if id == owner then 1 else 0)
  {
    assert PlayerOk(s.players[key], key, Live(s.projectiles, key));
  }

  lemma StrikeRecordsPlayers(s: Session, i: nat, key: string, tick: nat)
    requires Mid(s) && i < |s.projectiles| && Candidate(s, i, key) && RecordedPlayers(s.players, s.trace)
    ensures RecordedPlayers(Strike(s, i, key, tick).players, Strike(s, i, key, tick).trace)
  {
    var h := StrikeIsRecorded(s, i, key, tick);
    var players := Strike(s, i, key, tick).players;
    forall id | id in players ensures RecordedPlayer(players[id], id, s.trace + [h]) {
      assert RecordedPlayer(s.players[id], id, s.trace);
      OneMore(s.trace, h, id);
      StruckPlayer(s, i, key, tick, id);
    }
  }

  /** What a hit does to the queue, the counters and the log. */
  lemma StrikeReports(s: Session, i: nat, key: string, tick: nat)
    requires Mid(s) && i < |s.projectiles| && Candidate(s, i, key)
    ensures var s', p, dies := Strike(s, i, key, tick), s.projectiles[i], s.players[key].taken == 4;
            var hit, death := Hit(p.owner, key, p.id, tick), Death(p.owner, key, p.id, tick);
            && s'.pending == s.pending + (if dies then [death] else [])
            && s'.dead == s.dead + (if dies then 1 else 0) && s'.hits == s.hits + 1
            && s'.log == (if dies then AddToLog(AddToLog(s.log, hit), death) else AddToLog(s.log, hit))
  {
    assert PlayerOk(s.players[key], key, Live(s.projectiles, key));
  }

  lemma StrikeRecords(s: Session, i: nat, key: string, tick: nat, drained: seq<Event>)
    requires Mid(s) && i < |s.projectiles| && Candidate(s, i, key) && Recorded(s, drained)
    ensures Recorded(Strike(s, i, key, tick), drained)
  {
    var p := s.projectiles[i];
    var h := StrikeIsRecorded(s, i, key, tick);
    StrikeRecordsPlayers(s, i, key, tick);
    StrikeReports(s, i, key, tick);
    OneMoreEvent(s.trace, h);
    AddToLogKeepsLast(Events(s.trace), Hit(p.owner, key, p.id, tick));
    AddToLogKeepsLast(Events(s.trace) + [Hit(p.owner, key, p.id, tick)], Death(p.owner, key, p.id, tick));
  }

  // ------------------------------------------------------------------- a tick

  lemma CheckRecords(s: Session, drained: seq<Event>)
    requires Recorded(s, drained)
    ensures Recorded(s.(checked := s.checked + 1), drained)
  {
  }

  lemma {:induction false} ScanRecords(s: Session, i: nat, order: seq<string>, tick: nat, drained: seq<Event>)
    returns (u: Session)
    requires Mid(s) && i < |s.projectiles| && Recorded(s, drained)
    ensures u == Scan(s, i, order, tick) && Recorded(u, drained)
    decreases |order|
  {
    if order == [] {
      u := s;
    } else if !Candidate(s, i, order[0]) {
      u := ScanRecords(s, i, order[1..], tick, drained);
    } else {
      var s1 := s.(checked := s.checked + 1);
      CheckKeepsMid(s);
      CheckRecords(s, drained);
      if Touches(s.projectiles[i], s.players[order[0]]) {
        StrikeRecords(s1, i, order[0], tick, drained);
        u := Strike(s1, i, order[0], tick);
      } else {
        u := ScanRecords(s1, i, order[1..], tick, drained);
      }
    }
  }

  lemma {:induction false} SweepRecords(s: Session, i: nat, order: seq<string>, tick: nat, drained: seq<Event>)
    requires Mid(s) && i <= |s.projectiles| && Recorded(s, drained)
    ensures Recorded(Sweep(s, i, order, tick), drained)
    decreases |s.projectiles| - i
  {
    if i < |s.projectiles| {
      ScanKeepsLength(s, i, order, tick);
      if s.projectiles[i].active {
        var s' := ScanProgresses(s, i, order, tick);
        var u := ScanRecords(s, i, order, tick, drained);
        SweepRecords(s', i + 1, order, tick, drained);
      } else {
        SweepRecords(s, i + 1, order, tick, drained);
      }
    }
  }

  lemma TickRecords(s: Session, tick: nat, dt: real, order: seq<string>, drained: seq<Event>)
    requires Mid(s) && Recorded(s, drained)
    ensures Recorded(Tick(s, tick, dt, order), drained)
  {
    var aged, swept := TickSweeps(s, tick, dt, order);
    SweepRecords(aged, 0, order, tick, drained);
  }

  // ------------------------------------------------------------------- every run

  lemma JoinRecords(s: Session, id: string, drained: seq<Event>)
    requires Mid(s) && Recorded(s, drained)
    ensures Recorded(Upsert(s, id), drained)
  {
    var s' := Upsert(s, id);
    var h := s'.trace[|s.trace|];
    OneMoreEvent(s.trace, h);
    forall k | k in s'.players ensures RecordedPlayer(s'.players[k], k, s'.trace) {
      OneMore(s.trace, h, k);
      if k in s.players {
        assert RecordedPlayer(s.players[k], k, s.trace);
        assert PlayerOk(s.players[k], k, Live(s.projectiles, k));
      }
    }
  }

  lemma LeaveRecords(s: Session, id: string, drained: seq<Event>)
    requires Recorded(s, drained)
    ensures Recorded(Remove(s, id), drained)
  {
    var s' := Remove(s, id);
    forall k | k in s'.players ensures RecordedPlayer(s'.players[k], k, s'.trace) {
      assert RecordedPlayer(s.players[k], k, s.trace);
    }
  }

  lemma CommandRecords(s: Session, id: string, input: Input, dt: real, sqrt: real -> real, drained: seq<Event>)
    requires Recorded(s, drained)
    ensures Recorded(ApplyInput(s, id, input, dt, sqrt), drained)
  {
    var s' := ApplyInput(s, id, input, dt, sqrt);
    forall k | k in s'.players ensures RecordedPlayer(s'.players[k], k, s'.trace) {
      assert k in s.players && RecordedPlayer(s.players[k], k, s.trace);
    }
  }

  /**
    Every run, whatever the traversal orders: each player's hits taken, deaths and hits landed are
    those of the record, and the events drained and pending are exactly its deaths, once each
    and in order.
   */
  lemma {:induction false} RecordInvariant(steps: seq<Step>, sqrt: real -> real)
    ensures var r := PerformAll(steps, sqrt); Recorded(r.s, r.drained)
  {
    if steps != [] {
      var before, step := steps[..|steps| - 1], steps[|steps| - 1];
      var r := PerformAll(before, sqrt);
      RecordInvariant(before, sqrt);
      SessionInvariant(before, sqrt);
      match step
      case Join(id) => JoinRecords(r.s, id, r.drained);
      case Leave(id) => LeaveRecords(r.s, id, r.drained);
      case Command(id, input, dt) => CommandRecords(r.s, id, input, dt, sqrt, r.drained);
      case TickAll(tick, dt, order) => TickRecords(r.s, tick, dt, order, r.drained);
      case Consume => assert r.drained + r.s.pending + [] == r.drained + r.s.pending;
    }
  }

  // ------------------------------------------------------------------- what the record says of deaths

  function DeathEvents(events: seq<Event>, id: string): nat {
    if events == [] then 0
    else DeathEvents(events[..|events| - 1], id)
         + if events[|events| - 1].Death? && events[|events| - 1].target == id then 1 else 0
  }

  lemma DeathEventsMore(events: seq<Event>, e: Event, id: string)
    ensures DeathEvents(events + [e], id) == DeathEvents(events, id) + (if e.Death? && e.target == id then 1 else 0)
  {
    assert (events + [e])[..|events|] == events;
  }

  /** The length of the record up to and including the last time a player's counters were zeroed. */
  function LastCame(trace: seq<Happening>, id: string): (n: nat)
    ensures n <= |trace|
    ensures n > 0 ==> trace[n - 1] == Came(id)
    ensures forall j :: n <= j < |trace| ==> trace[j] != Came(id)
  {
    if trace == [] then 0
    else if trace[|trace| - 1] == Came(id) then |trace|
    else LastCame(trace[..|trace| - 1], id)
  }

  /** A player's death counter is the number of its death events since its counters were zeroed. */
  lemma {:induction false} DeathsSinceCame(trace: seq<Happening>, id: string)
    ensures DeathEvents(Deaths(trace), id)
         == DeathEvents(Deaths(trace[..LastCame(trace, id)]), id) + DeathsOf(trace, id)
  {
    if trace == [] {
      assert trace[..0] == trace;
    } else {
      var last := |trace| - 1;
      var before, h, n := trace[..last], trace[last], LastCame(trace, id);
      if h == Came(id) {
        assert trace[..n] == trace;
      } else {
        DeathsSinceCame(before, id);
        assert trace[..n] == before[..n];
        if Kills(before, h) {
          DeathEventsMore(Deaths(before), Death(h.shooter, h.target, h.projectile, h.tick), id);
        } else {
          assert Deaths(trace) == Deaths(before);
        }
      }
    }
  }

  /** A present player's death counter counts its events, drained or pending, since its counters were zeroed. */
  lemma DeathsExactlyOnce(steps: seq<Step>, id: string, sqrt: real -> real)
    ensures var r := PerformAll(steps, sqrt);
            && r.drained + r.s.pending == Deaths(r.s.trace)
            && (id in r.s.players ==>
                  && r.s.players[id].taken == HitsSince(r.s.trace, id)
                  && r.s.players[id].deaths
                     == DeathEvents(r.drained + r.s.pending, id)
                        - DeathEvents(Deaths(r.s.trace[..LastCame(r.s.trace, id)]), id))
  {
    RecordInvariant(steps, sqrt);
    var r := PerformAll(steps, sqrt);
    DeathsSinceCame(r.s.trace, id);
    assert id in r.s.players ==> RecordedPlayer(r.s.players[id], id, r.s.trace);
  }

  lemma StepKeepsEvents(r: Run, step: Step, sqrt: real -> real)
    requires RunOk(r)
    ensures var r' := Perform(r, step, sqrt); r.drained + r.s.pending <= r'.drained + r'.s.pending
  {
    if step.TickAll? {
      TickEffect(r.s, step.tick, step.dt, step.order);
    } else if step.Consume? {
      assert r.drained + r.s.pending + [] == r.drained + r.s.pending;
    }
  }

  /** The death events reported so far: drained, then pending. */
  function Reported(steps: seq<Step>, sqrt: real -> real): seq<Event> {
    PerformAll(steps, sqrt).drained + PerformAll(steps, sqrt).s.pending
  }

  lemma OneStepReports(steps: seq<Step>, step: Step, sqrt: real -> real)
    ensures Reported(steps, sqrt) <= Reported(steps + [step], sqrt)
  {
    SessionInvariant(steps, sqrt);
    StepKeepsEvents(PerformAll(steps, sqrt), step, sqrt);
    assert (steps + [step])[..|steps|] == steps;
  }

  /** Whatever happens later, the reported deaths only grow at their end. */
  lemma {:induction false} DeathsInOrder(steps: seq<Step>, more: seq<Step>, sqrt: real -> real)
    ensures Reported(steps, sqrt) <= Reported(steps + more, sqrt)
  {
    if more == [] {
      assert steps + more == steps;
    } else {
      var last := |more| - 1;
      DeathsInOrder(steps, more[..last], sqrt);
      OneStepReports(steps + more[..last], more[last], sqrt);
      assert steps + more == steps + more[..last] + [more[last]];
    }
  }

  // ------------------------------------------------------------------- the dead

  /** A dead player as it was, but that its shots may still land and its inputs are counted. */
  ghost predicate StaysDead(p: Player, p': Player) {
    !Alive(p) && p' == p.(hits := p'.hits, sequence := p'.sequence)
  }

  lemma StrikeSparesDead(s: Session, i: nat, key: string, tick: nat, id: string)
    requires i < |s.projectiles| && Candidate(s, i, key) && id in s.players && !Alive(s.players[id])
    ensures id in Strike(s, i, key, tick).players && StaysDead(s.players[id], Strike(s, i, key, tick).players[id])
  {
  }

  lemma {:induction false} ScanSparesDead(s: Session, i: nat, order: seq<string>, tick: nat, id: string)
    requires i < |s.projectiles| && id in s.players && !Alive(s.players[id])
    ensures id in Scan(s, i, order, tick).players && StaysDead(s.players[id], Scan(s, i, order, tick).players[id])
    decreases |order|
  {
    if order != [] {
      var s1 := s.(checked := s.checked + 1);
      if !Candidate(s, i, order[0]) {
        ScanSparesDead(s, i, order[1..], tick, id);
      } else if Touches(s.projectiles[i], s.players[order[0]]) {
        StrikeSparesDead(s1, i, order[0], tick, id);
      } else {
        ScanSparesDead(s1, i, order[1..], tick, id);
      }
    }
  }

  lemma {:induction false} SweepSparesDead(s: Session, i: nat, order: seq<string>, tick: nat, id: string)
    requires i <= |s.projectiles| && id in s.players && !Alive(s.players[id])
    ensures id in Sweep(s, i, order, tick).players && StaysDead(s.players[id], Sweep(s, i, order, tick).players[id])
    decreases |s.projectiles| - i
  {
    if i < |s.projectiles| {
      ScanKeepsLength(s, i, order, tick);
      if s.projectiles[i].active {
        ScanSparesDead(s, i, order, tick, id);
        SweepSparesDead(Scan(s, i, order, tick), i + 1, order, tick, id);
      } else {
        SweepSparesDead(s, i + 1, order, tick, id);
      }
    }
  }

  lemma StepSparesDead(r: Run, step: Step, id: string, sqrt: real -> real)
    requires id in r.s.players && !Alive(r.s.players[id]) && step != Join(id)
    ensures var players := Perform(r, step, sqrt).s.players;
            id in players ==> StaysDead(r.s.players[id], players[id])
  {
    if step.TickAll? {
      var now := r.s.elapsed + step.dt;
      var aged := r.s.(elapsed := now, projectiles := AgeAll(r.s.projectiles, step.dt, now));
      SweepSparesDead(aged, 0, step.order, step.tick, id);
    }
  }

  lemma StepAddsOnlyJoined(r: Run, step: Step, id: string, sqrt: real -> real)
    requires id !in r.s.players && step != Join(id)
    ensures id !in Perform(r, step, sqrt).s.players
  {
    if step.TickAll? {
      var now := r.s.elapsed + step.dt;
      SweepAddsNobody(r.s.(elapsed := now, projectiles := AgeAll(r.s.projectiles, step.dt, now)), 0, step.order,
          step.tick);
    }
  }

  lemma {:induction false} ScanAddsNobody(s: Session, i: nat, order: seq<string>, tick: nat)
    requires i < |s.projectiles|
    ensures Scan(s, i, order, tick).players.Keys == s.players.Keys
    decreases |order|
  {
    if order != [] {
      var s1 := s.(checked := s.checked + 1);
      if !Candidate(s, i, order[0]) {
        ScanAddsNobody(s, i, order[1..], tick);
      } else if !Touches(s.projectiles[i], s.players[order[0]]) {
        ScanAddsNobody(s1, i, order[1..], tick);
      }
    }
  }

  lemma {:induction false} SweepAddsNobody(s: Session, i: nat, order: seq<string>, tick: nat)
    requires i <= |s.projectiles|
    ensures Sweep(s, i, order, tick).players.Keys == s.players.Keys
    decreases |s.projectiles| - i
  {
    if i < |s.projectiles| {
      ScanKeepsLength(s, i, order, tick);
      if s.projectiles[i].active {
        ScanAddsNobody(s, i, order, tick);
        SweepAddsNobody(Scan(s, i, order, tick), i + 1, order, tick);
      } else {
        SweepAddsNobody(s, i + 1, order, tick);
      }
    }
  }

  ghost predicate GoneOrDead(p: Player, players: map<string, Player>, id: string) {
    id in players ==> StaysDead(p, players[id])
  }

  lemma StepKeepsDead(r: Run, step: Step, p: Player, id: string, sqrt: real -> real)
    requires GoneOrDead(p, r.s.players, id) && step != Join(id)
    ensures GoneOrDead(p, Perform(r, step, sqrt).s.players, id)
  {
    if id in r.s.players {
      StepSparesDead(r, step, id, sqrt);
    } else {
      StepAddsOnlyJoined(r, step, id, sqrt);
    }
  }

  /**
    From its death until it is upserted again a player neither moves, fires nor is hit, however
    the run goes on.
   */
  lemma {:induction false} DeadUntilUpserted(steps: seq<Step>, more: seq<Step>, id: string, sqrt: real -> real)
    requires forall i :: 0 <= i < |more| ==> more[i] != Join(id)
    ensures var players := PerformAll(steps, sqrt).s.players;
            id in players && !Alive(players[id]) ==>
              GoneOrDead(players[id], PerformAll(steps + more, sqrt).s.players, id)
  {
    if more == [] {
      assert steps + more == steps;
    } else {
      var all, last := steps + more, |more| - 1;
      var players := PerformAll(steps, sqrt).s.players;
      DeadUntilUpserted(steps, more[..last], id, sqrt);
      assert all[..|all| - 1] == steps + more[..last];
      if id in players && !Alive(players[id]) {
        StepKeepsDead(PerformAll(steps + more[..last], sqrt), more[last], players[id], id, sqrt);
      }
    }
  }
}
