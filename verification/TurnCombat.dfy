/**
  The turn-based combat game: a lobby, a battle in which the players strike in turn, and its end.

  `Game` and its functions say what each operation does, the class `GameState` does it in place.
  The damage of an attack, drawn from 5..15, is an argument.  Names and the text of the last
  action are not part of the state.
 */
module TurnCombat {

  import opened Collections

  const FULL_HEALTH := 100
  const MIN_DAMAGE := 5
  const MAX_DAMAGE := 15

  /** `taken` (attacks landed on the player since its health was last reset) is history. */
  datatype Player = Player(id: int, health: int, connected: bool, taken: nat)

  /** The place of a player that has not joined. */
  const VACANT := Player(-1, FULL_HEALTH, false, 0)

  /** `attacks` (the indices of the attackers that landed a blow since the battle began) is history. */
  datatype Game = Game(players: seq<Player>, turn: nat, running: bool, over: bool, winner: Option<int>,
                       attacks: seq<nat>)

  const LOBBY := Game([], 0, false, false, None, [])

  predicate Alive(p: Player) {
    p.health > 0
  }

  /** The index of the first player with the given id, or the number of players. */
  function IndexOf(ps: seq<Player>, id: int): (i: nat)
    ensures i <= |ps|
    ensures i < |ps| ==> ps[i].id == id
    ensures forall j :: 0 <= j < i ==> ps[j].id != id
  {
    if ps == [] || ps[0].id == id then 0 else 1 + IndexOf(ps[1..], id)
  }

  /** The id of the first connected player with another id. */
  function FirstOther(ps: seq<Player>, id: int): Option<int> {
    if ps == [] then None
    else if ps[0].id != id && ps[0].connected then Some(ps[0].id)
    else FirstOther(ps[1..], id)
  }

  /** The id of the first connected player that is alive. */
  function FirstStanding(ps: seq<Player>): Option<int> {
    if ps == [] then None
    else if ps[0].connected && Alive(ps[0]) then Some(ps[0].id)
    else FirstStanding(ps[1..])
  }

  function Grown(ps: seq<Player>, n: nat): seq<Player> {
    if n <= |ps| then ps else ps + seq(n - |ps|, _ => VACANT)
  }

  function Join(g: Game, id: nat): Game {
    g.(players := Grown(g.players, id + 1)[id := Player(id, FULL_HEALTH, true, 0)])
  }

  function Disconnect(g: Game, id: int): Game {
    var i := IndexOf(g.players, id);
    if i == |g.players| then g
    else
      var g' := g.(players := g.players[i := g.players[i].(connected := false)]);
      if !g.running || g.over then g'
      else
        var other := FirstOther(g'.players, g.players[i].id);
        g'.(over := true, running := false, winner := if other.Some? then other else g.winner)
  }

  predicate AllReady(ps: seq<Player>) {
    forall i :: 0 <= i < |ps| ==> ps[i].id >= 0 && ps[i].connected
  }

  function Healed(ps: seq<Player>): seq<Player> {
    seq(|ps|, i requires 0 <= i < |ps| => ps[i].(health := FULL_HEALTH, taken := 0))
  }

  function Start(g: Game): Game {
    if g.running || g.over || |g.players| < 2 || !AllReady(g.players) then g
    else Game(Healed(g.players), 0, true, false, None, [])
  }

  function Next(i: nat, n: nat): (next: nat)
    requires i < n
    ensures next < n && next == (i + 1) % n
  {
    if i + 1 == n then 0 else i + 1
  }

  function Struck(p: Player, damage: nat): Player {
    p.(health := if p.health < damage then 0 else p.health - damage, taken := p.taken + 1)
  }

  function Attack(g: Game, id: int, damage: nat): Game {
    var i := IndexOf(g.players, id);
    if !g.running || g.over || |g.players| < 2 || i == |g.players| || i != g.turn then g
    else
      var d := Next(i, |g.players|);
      if !g.players[d].connected then g
      else
        var struck := Struck(g.players[d], damage);
        var g' := g.(players := g.players[d := struck], attacks := g.attacks + [i]);
        if Alive(struck) then g'.(turn := d)
        else g'.(over := true, running := false, winner := Some(g.players[i].id))
  }

  predicate AllActive(ps: seq<Player>) {
    forall i :: 0 <= i < |ps| ==> ps[i].connected && Alive(ps[i])
  }

  function Tick(g: Game): Game {
    if !g.running || g.over || AllActive(g.players) then g
    else
      var standing := FirstStanding(g.players);
      g.(over := true, running := false, winner := if standing.Some? then standing else g.winner)
  }

  // -------------------------------------------------------------------------- runs

  datatype Step =
    | JoinStep(newId: nat)
    | DisconnectStep(id: int)
    | StartStep
    | AttackStep(id: int, damage: nat)
    | TickStep

  predicate Fair(step: Step) {
    step.AttackStep? ==> MIN_DAMAGE <= step.damage <= MAX_DAMAGE
  }

  predicate AllFair(steps: seq<Step>) {
    forall i :: 0 <= i < |steps| ==> Fair(steps[i])
  }

  function Perform(g: Game, step: Step): Game {
    match step
    case JoinStep(id) => Join(g, id)
    case DisconnectStep(id) => Disconnect(g, id)
    case StartStep => Start(g)
    case AttackStep(id, damage) => Attack(g, id, damage)
    case TickStep => Tick(g)
  }

  function RunFrom(g: Game, steps: seq<Step>): Game {
    if steps == [] then g
    else Perform(RunFrom(g, steps[..|steps| - 1]), steps[|steps| - 1])
  }

  lemma {:induction false} RunInTwo(g: Game, first: seq<Step>, second: seq<Step>)
    ensures RunFrom(g, first + second) == RunFrom(RunFrom(g, first), second)
  {
    if second == [] {
      assert first + second == first;
    } else {
      var last := |second| - 1;
      RunInTwo(g, first, second[..last]);
      assert (first + second)[..|first + second| - 1] == first + second[..last];
    }
  }

  // -------------------------------------------------------------------------- every run

  predicate PlayerOk(p: Player, i: nat, running: bool) {
    || p == VACANT
    || (p.id == i && p.health <= FULL_HEALTH && (running ==> p.connected && Alive(p)))
  }

  predicate PlayersOk(ps: seq<Player>, running: bool) {
    forall i :: 0 <= i < |ps| ==> PlayerOk(ps[i], i, running)
  }

  /**
    A running game has at least two players, everyone who joined is connected and alive, and
    it is the turn of one of them; exactly the finished games have a winner.
   */
  predicate GameOk(g: Game) {
    && PlayersOk(g.players, g.running)
    && (g.running ==> !g.over && |g.players| >= 2 && g.players[0].id == 0 && g.players[1].id == 1)
    && (g.running ==> g.turn < |g.players| && g.players[g.turn].id == g.turn)
    && (g.over <==> g.winner.Some?)
  }

  lemma {:induction false} FirstOtherFound(ps: seq<Player>, id: int, i: nat)
    requires i < |ps| && ps[i].id != id && ps[i].connected
    ensures FirstOther(ps, id).Some?
  {
    if i > 0 {
      FirstOtherFound(ps[1..], id, i - 1);
    }
  }

  lemma JoinKeepsOk(g: Game, id: nat)
    requires GameOk(g)
    ensures GameOk(Join(g, id))
  {
    var ps := Grown(g.players, id + 1);
    forall i | 0 <= i < |ps| ensures PlayerOk(ps[i], i, g.running) {
    }
  }

  lemma DisconnectKeepsOk(g: Game, id: int)
    requires GameOk(g)
    ensures GameOk(Disconnect(g, id))
  {
    var i := IndexOf(g.players, id);
    if i < |g.players| {
      var g' := Disconnect(g, id);
      forall j | 0 <= j < |g'.players| ensures PlayerOk(g'.players[j], j, g'.running) {
        assert PlayerOk(g.players[j], j, g.running);
      }
      if g.running {
        var other := if i == 0 then 1 else 0;
        assert PlayerOk(g.players[other], other, true);
        FirstOtherFound(g'.players, g.players[i].id, other);
      }
    }
  }

  lemma AttackKeepsOk(g: Game, id: int, damage: nat)
    requires GameOk(g)
    ensures GameOk(Attack(g, id, damage))
  {
    var g' := Attack(g, id, damage);
    forall j | 0 <= j < |g'.players| ensures PlayerOk(g'.players[j], j, g'.running) {
      assert PlayerOk(g.players[j], j, g.running);
    }
    if g' != g {
      var d := Next(g.turn, |g.players|);
      assert PlayerOk(g.players[d], d, true);
    }
  }

  lemma TickKeepsOk(g: Game)
    requires GameOk(g)
    ensures GameOk(Tick(g))
  {
    var g' := Tick(g);
    forall j | 0 <= j < |g'.players| ensures PlayerOk(g'.players[j], j, g'.running) {
      assert PlayerOk(g.players[j], j, g.running);
    }
    if g.running {
      assert PlayerOk(g.players[0], 0, true);
    }
  }

  lemma StartKeepsOk(g: Game)
    requires GameOk(g)
    ensures GameOk(Start(g))
  {
    var g' := Start(g);
    forall j | 0 <= j < |g'.players| ensures PlayerOk(g'.players[j], j, g'.running) {
      assert PlayerOk(g.players[j], j, g.running);
    }
  }

  lemma {:induction false} Invariant(steps: seq<Step>)
    ensures GameOk(RunFrom(LOBBY, steps))
  {
    if steps != [] {
      var g, step := RunFrom(LOBBY, steps[..|steps| - 1]), steps[|steps| - 1];
      Invariant(steps[..|steps| - 1]);
      match step
      case JoinStep(id) => JoinKeepsOk(g, id);
      case DisconnectStep(id) => DisconnectKeepsOk(g, id);
      case StartStep => StartKeepsOk(g);
      case AttackStep(id, damage) => AttackKeepsOk(g, id, damage);
      case TickStep => TickKeepsOk(g);
    }
  }

  /** A finished game has a winner, and nothing that happens later starts it again or changes the winner. */
  lemma {:induction false} WinnerIsFinal(steps: seq<Step>, more: seq<Step>)
    requires RunFrom(LOBBY, steps).over
    ensures var g, later := RunFrom(LOBBY, steps), RunFrom(LOBBY, steps + more);
            g.winner.Some? && later.over && !later.running && later.winner == g.winner
  {
    Invariant(steps);
    if more == [] {
      assert steps + more == steps;
    } else {
      var last := |more| - 1;
      WinnerIsFinal(steps, more[..last]);
      assert (steps + more)[..|steps + more| - 1] == steps + more[..last];
    }
  }

  /**
    The end-of-tick recovery acts exactly when somebody joined during the battle beyond the next
    free place, leaving a vacant one: with contiguous ids it never does.
   */
  lemma RecoveryNeedsAVacancy(steps: seq<Step>)
    requires RunFrom(LOBBY, steps).running
    ensures var g := RunFrom(LOBBY, steps); Tick(g) != g <==> VACANT in g.players
  {
    Invariant(steps);
    var g := RunFrom(LOBBY, steps);
    forall i | 0 <= i < |g.players|
      ensures g.players[i] == VACANT <==> !(g.players[i].connected && Alive(g.players[i]))
    {
      assert PlayerOk(g.players[i], i, true);
    }
  }

  /** It does happen: two players in battle, and a third that joins leaving a place free. */
  lemma RecoveryHappens()
    ensures var steps := [JoinStep(0), JoinStep(1), StartStep, JoinStep(3)];
            var g := RunFrom(LOBBY, steps);
            g.running && VACANT in g.players && Tick(g) != g && Tick(g).over
  {
    var opening := OPENING + [StartStep];
    OpeningOf([JoinStep(3)]);
    assert OPENING + [StartStep] + [JoinStep(3)] == [JoinStep(0), JoinStep(1), StartStep, JoinStep(3)];
    var battle := Duel(Fighter(0, FULL_HEALTH, 0), Fighter(1, FULL_HEALTH, 0), 0, []);
    assert [JoinStep(3)][..0] == [];
    assert RunFrom(battle, [JoinStep(3)]) == Join(battle, 3);
    assert Join(battle, 3).players[2] == VACANT;
  }

  /** Every joining player takes the next free place or one already taken, as the server hands them out. */
  predicate Contiguous(steps: seq<Step>) {
    forall i :: 0 <= i < |steps| && steps[i].JoinStep? ==> steps[i].newId <= |RunFrom(LOBBY, steps[..i]).players|
  }

  predicate Full(ps: seq<Player>) {
    forall i :: 0 <= i < |ps| ==> ps[i].id == i
  }

  lemma StepStaysFull(g: Game, step: Step)
    requires Full(g.players) && (step.JoinStep? ==> step.newId <= |g.players|)
    ensures Full(Perform(g, step).players)
  {
  }

  lemma {:induction false} FullRun(steps: seq<Step>)
    requires Contiguous(steps)
    ensures Full(RunFrom(LOBBY, steps).players)
  {
    if steps != [] {
      var before, step := steps[..|steps| - 1], steps[|steps| - 1];
      forall i | 0 <= i < |before| && before[i].JoinStep?
        ensures before[i].newId <= |RunFrom(LOBBY, before[..i]).players|
      {
        assert before[i] == steps[i] && before[..i] == steps[..i];
      }
      FullRun(before);
      StepStaysFull(RunFrom(LOBBY, before), step);
    }
  }

  /** With contiguous ids no place is vacant, so no end-of-tick recovery ever acts. */
  lemma NoVacancy(steps: seq<Step>)
    requires Contiguous(steps)
    ensures var g := RunFrom(LOBBY, steps); VACANT !in g.players && Tick(g) == g
  {
    FullRun(steps);
    Invariant(steps);
    if RunFrom(LOBBY, steps).running {
      RecoveryNeedsAVacancy(steps);
    }
  }

  // -------------------------------------------------------------------------- what each operation does

  lemma {:induction false} FirstOtherIs(ps: seq<Player>, id: int) returns (k: nat)
    ensures k <= |ps| && forall j :: 0 <= j < k ==> ps[j].id == id || !ps[j].connected
    ensures k < |ps| ==> ps[k].id != id && ps[k].connected
    ensures FirstOther(ps, id) == if k < |ps| then Some(ps[k].id) else None
  {
    if ps == [] || (ps[0].id != id && ps[0].connected) {
      k := 0;
    } else {
      var rest := FirstOtherIs(ps[1..], id);
      k := rest + 1;
    }
  }

  lemma {:induction false} FirstStandingIs(ps: seq<Player>) returns (k: nat)
    ensures k <= |ps| && forall j :: 0 <= j < k ==> !(ps[j].connected && ps[j].health > 0)
    ensures k < |ps| ==> ps[k].connected && ps[k].health > 0
    ensures FirstStanding(ps) == if k < |ps| then Some(ps[k].id) else None
  {
    if ps == [] || (ps[0].connected && ps[0].health > 0) {
      k := 0;
    } else {
      var rest := FirstStandingIs(ps[1..]);
      k := rest + 1;
    }
  }

  /**
    A disconnection marks the first player of that id, if there is one, and ends a battle: the winner
    is the first player that is still connected and has another id, if there is one.
   */
  lemma DisconnectExactly(g: Game, id: int) returns (i: nat, k: nat)
    ensures i <= |g.players| && (forall j :: 0 <= j < i ==> g.players[j].id != id)
    ensures k <= |g.players| && (forall j :: 0 <= j < k ==> g.players[j].id == id || !g.players[j].connected)
    ensures k < |g.players| ==> g.players[k].id != id && g.players[k].connected
    ensures var g' := Disconnect(g, id);
            if i == |g.players| then g' == g
            else
              && g.players[i].id == id
              && g'.players == g.players[i := Player(id, g.players[i].health, false, g.players[i].taken)]
              && if g.running && !g.over
                 then g'.over && !g'.running && g'.turn == g.turn
                      && g'.winner == if k < |g.players| then Some(g.players[k].id) else g.winner
                 else g' == g.(players := g'.players)
  {
    i := IndexOf(g.players, id);
    if i < |g.players| {
      var ps := g.players[i := g.players[i].(connected := false)];
      k := FirstOtherIs(ps, id);
      forall j | 0 <= j < k ensures g.players[j].id == id || !g.players[j].connected {
        assert ps[j].id == id || !ps[j].connected;
      }
    } else {
      k := FirstOtherIs(g.players, id);
    }
  }

  /** The recovery at the end of a tick: somebody out of the battle ends it for the first one still in it. */
  lemma RecoveryExactly(g: Game) returns (k: nat)
    ensures k <= |g.players| && (forall j :: 0 <= j < k ==> !(g.players[j].connected && g.players[j].health > 0))
    ensures k < |g.players| ==> g.players[k].connected && g.players[k].health > 0
    ensures var g' := Tick(g);
            if g.running && !g.over
               && exists j :: 0 <= j < |g.players| && !(g.players[j].connected && g.players[j].health > 0)
            then g' == g.(over := true, running := false,
                          winner := if k < |g.players| then Some(g.players[k].id) else g.winner)
            else g' == g
  {
    k := FirstStandingIs(g.players);
  }

  /**
    An attack lands if it comes from the player whose turn it is and the next one is connected.  That
    one loses the damage, or all it has; if it has none left the attacker has won, otherwise it
    is its turn.
   */
  lemma AttackExactly(g: Game, i: nat, damage: nat)
    requires i < |g.players| && (forall j :: 0 <= j < i ==> g.players[j].id != g.players[i].id)
    ensures var g', n := Attack(g, g.players[i].id, damage), |g.players|;
            var d := (i + 1) % n;
            if g.running && !g.over && n >= 2 && i == g.turn && g.players[d].connected
            then
              var left := if damage > g.players[d].health then 0 else g.players[d].health - damage;
              && g'.players == g.players[d := Player(g.players[d].id, left, true, g.players[d].taken + 1)]
              && g'.attacks == g.attacks + [i]
              && (if left > 0 then g'.turn == d && g'.running && !g'.over && g'.winner == g.winner
                  else g'.turn == g.turn && !g'.running && g'.over && g'.winner == Some(g.players[i].id))
            else g' == g
  {
    assert IndexOf(g.players, g.players[i].id) == i;
  }

  /** Joining takes the place of that number at full health; places in between are vacant and nobody else changes. */
  lemma JoinExactly(g: Game, id: nat)
    ensures var g' := Join(g, id);
            && g' == g.(players := g'.players)
            && |g'.players| == (if id < |g.players| then |g.players| else id + 1)
            && g'.players[id] == Player(id, 100, true, 0)
            && forall j :: 0 <= j < |g'.players| && j != id ==>
                 if j < |g.players| then g'.players[j] == g.players[j] else g'.players[j] == Player(-1, 100, false, 0)
  {
  }

  /** A game starts if none is running or over and two or more are in it, all joined and connected; all are healed. */
  lemma StartExactly(g: Game)
    ensures var g' := Start(g);
            if !g.running && !g.over && |g.players| >= 2
               && forall j :: 0 <= j < |g.players| ==> g.players[j].id >= 0 && g.players[j].connected
            then
              && g'.running && !g'.over && g'.winner == None && g'.turn == 0 && |g'.players| == |g.players|
              && forall j :: 0 <= j < |g.players| ==> g'.players[j] == Player(g.players[j].id, 100, true, 0)
            else g' == g
  {
  }

  // -------------------------------------------------------------------------- one battle

  /** A player's health tells how often it was struck, up to what an attack can vary. */
  predicate Measured(p: Player) {
    FULL_HEALTH - MAX_DAMAGE * p.taken <= p.health && (Alive(p) ==> p.health <= FULL_HEALTH - MIN_DAMAGE * p.taken)
  }

  /**
    `n` players in battle, `turn` blows into a round: the players 1..turn were struck once more
    than the others, who were struck `Rounds` times.
   */
  predicate Standing(p: Player, i: nat, rounds: nat, turn: nat) {
    Alive(p) && p.connected && p.id == i && Measured(p) && p.taken == rounds + (if 1 <= i <= turn then 1 else 0)
  }

  predicate Fighting(g: Game, n: nat) {
    && |g.players| == n >= 2 && g.turn < n && g.running && !g.over
    && |g.attacks| == Blows(n, g.players[0].taken, g.turn)
    && forall i :: 0 <= i < n ==> Standing(g.players[i], i, g.players[0].taken, g.turn)
  }

  function Blows(n: nat, rounds: nat, turn: nat): nat {
    n * rounds + turn
  }

  lemma BlowsGrow(n: nat, rounds: nat, turn: nat, least: nat, most: nat)
    requires least <= rounds <= most
    ensures n * least + turn <= Blows(n, rounds, turn) <= n * most + turn
    ensures Blows(n, rounds, turn) + (n - turn) == Blows(n, rounds + 1, 0)
  {
    assert n * rounds == n * least + n * (rounds - least);
    assert n * most == n * rounds + n * (most - rounds);
    assert n * (rounds + 1) == n * rounds + n;
  }

  /** The players strike in the order of their indices, round after round, the first player first. */
  predicate RoundRobin(attacks: seq<nat>, n: nat) {
    && (forall k :: 0 <= k < |attacks| ==> attacks[k] < n)
    && (|attacks| > 0 ==> attacks[0] == 0)
    && forall k :: 0 <= k < |attacks| - 1 ==> attacks[k + 1] == Next(attacks[k], n)
  }

  function Upcoming(attacks: seq<nat>, n: nat): nat
    requires RoundRobin(attacks, n)
  {
    if attacks == [] then 0 else Next(attacks[|attacks| - 1], n)
  }

  /** How a battle without disconnections ends: the last attacker brought its neighbour down, and only that one fell. */
  predicate Decided(g: Game, n: nat) {
    && |g.players| == n >= 2 && |g.attacks| > 0 && RoundRobin(g.attacks, n)
    && var last := g.attacks[|g.attacks| - 1];
       && g.winner == Some(last)
       && forall i :: 0 <= i < n ==> (g.players[i].health == 0 <==> i == Next(last, n))
  }

  predicate Battle(g: Game, n: nat) {
    && |g.players| == n >= 2 && g.running != g.over && RoundRobin(g.attacks, n)
    && (g.running ==> Fighting(g, n) && Upcoming(g.attacks, n) == g.turn)
    && (g.over ==> |g.attacks| <= 19 * n + 1)
  }

  lemma AppendAttack(attacks: seq<nat>, n: nat)
    requires n >= 2 && RoundRobin(attacks, n)
    ensures RoundRobin(attacks + [Upcoming(attacks, n)], n)
    ensures Upcoming(attacks + [Upcoming(attacks, n)], n) == Next(Upcoming(attacks, n), n)
  {
    var more := attacks + [Upcoming(attacks, n)];
    forall k | 0 <= k < |more| - 1 ensures more[k + 1] == Next(more[k], n) {
    }
  }

  /**
    Nobody in the battle was struck more than 19 times, so at most 19 rounds are complete, the last
    with no blow after it.
   */
  lemma FightingBound(g: Game, n: nat)
    requires Fighting(g, n)
    ensures |g.attacks| <= 19 * n
  {
    var r := g.players[0].taken;
    assert Standing(g.players[0], 0, r, g.turn) && Standing(g.players[1], 1, r, g.turn);
    if r == 19 {
      assert g.turn == 0;
      BlowsGrow(n, r, 0, 19, 19);
    } else {
      BlowsGrow(n, r, g.turn, r, 18);
    }
  }

  lemma StandingIndex(g: Game, n: nat, id: int)
    requires Fighting(g, n)
    ensures IndexOf(g.players, id) == if 0 <= id < n then id else n
  {
    var i := IndexOf(g.players, id);
    if i < n {
      assert Standing(g.players[i], i, g.players[0].taken, g.turn);
    }
    if 0 <= id < n {
      assert Standing(g.players[id], id, g.players[0].taken, g.turn);
    }
  }

  /** While the battle lasts, an attack lands exactly when it comes from the player whose turn it is. */
  lemma OnlyTheTurnLands(g: Game, n: nat, id: int, damage: nat)
    requires Fighting(g, n)
    ensures var g' := Attack(g, id, damage);
            if id == g.turn then g'.attacks == g.attacks + [g.turn] else g' == g
  {
    StandingIndex(g, n, id);
    var d := Next(g.turn, n);
    assert Standing(g.players[d], d, g.players[0].taken, g.turn);
  }

  lemma StruckStands(g: Game, n: nat, damage: nat)
    requires Fighting(g, n) && MIN_DAMAGE <= damage <= MAX_DAMAGE
    requires Attack(g, g.turn, damage).running
    ensures Fighting(Attack(g, g.turn, damage), n)
  {
    StandingIndex(g, n, g.turn);
    OnlyTheTurnLands(g, n, g.turn, damage);
    var g' := Attack(g, g.turn, damage);
    var d, r := Next(g.turn, n), g.players[0].taken;
    BlowsGrow(n, r, g.turn, r, r);
    assert Standing(g.players[d], d, r, g.turn);
    forall i | 0 <= i < n ensures Standing(g'.players[i], i, g'.players[0].taken, g'.turn) {
      assert Standing(g.players[i], i, r, g.turn);
    }
  }

  lemma FinalBlow(g: Game, n: nat, damage: nat)
    requires Fighting(g, n) && RoundRobin(g.attacks, n) && Upcoming(g.attacks, n) == g.turn
    requires MIN_DAMAGE <= damage <= MAX_DAMAGE && Attack(g, g.turn, damage).over
    ensures var g' := Attack(g, g.turn, damage); 6 * n + 1 <= |g'.attacks| <= 19 * n + 1 && Decided(g', n)
  {
    StandingIndex(g, n, g.turn);
    OnlyTheTurnLands(g, n, g.turn, damage);
    FightingBound(g, n);
    AppendAttack(g.attacks, n);
    var g' := Attack(g, g.turn, damage);
    var d, r := Next(g.turn, n), g.players[0].taken;
    assert Standing(g.players[d], d, r, g.turn) && Standing(g.players[g.turn], g.turn, r, g.turn);
    assert r >= 6;
    BlowsGrow(n, r, g.turn, 6, r);
    forall i | 0 <= i < n ensures g'.players[i].health == 0 <==> i == d {
      assert Standing(g.players[i], i, r, g.turn);
    }
  }

  lemma BattleGoesOn(g: Game, n: nat, step: Step)
    requires Battle(g, n) && Fair(step) && !step.JoinStep?
    ensures Battle(Perform(g, step), n)
    ensures g.running && !step.DisconnectStep? && Perform(g, step).over ==>
              6 * n + 1 <= |Perform(g, step).attacks| && Decided(Perform(g, step), n)
  {
    match step
    case JoinStep(id) =>
    case StartStep =>
    case TickStep =>
      if g.running {
        forall i | 0 <= i < n ensures g.players[i].connected && Alive(g.players[i]) {
          assert Standing(g.players[i], i, g.players[0].taken, g.turn);
        }
      }
    case DisconnectStep(id) =>
      if g.running {
        FightingBound(g, n);
      }
    case AttackStep(id, damage) =>
      if g.running {
        OnlyTheTurnLands(g, n, id, damage);
        if id == g.turn {
          AppendAttack(g.attacks, n);
          if Perform(g, step).running {
            StruckStands(g, n, damage);
            StandingIndex(g, n, g.turn);
          } else {
            FinalBlow(g, n, damage);
          }
        }
      }
  }

  lemma StartBegins(g: Game)
    requires GameOk(g) && !g.running && Start(g).running
    ensures Battle(Start(g), |g.players|)
  {
    var g', n := Start(g), |g.players|;
    forall i | 0 <= i < n ensures Standing(g'.players[i], i, 0, 0) {
      assert PlayerOk(g.players[i], i, false);
    }
    assert Blows(n, 0, 0) == 0;
  }

  predicate NoJoin(steps: seq<Step>) {
    forall i :: 0 <= i < |steps| ==> !steps[i].JoinStep?
  }

  predicate NoDisconnect(steps: seq<Step>) {
    forall i :: 0 <= i < |steps| ==> !steps[i].DisconnectStep?
  }

  /** A game in which nobody has disconnected is either still fought, or decided by a final blow. */
  predicate Fought(g: Game, n: nat) {
    Battle(g, n) && (g.over ==> 6 * n + 1 <= |g.attacks| && Decided(g, n))
  }

  lemma {:induction false} BattleRuns(g: Game, n: nat, steps: seq<Step>)
    requires Battle(g, n) && AllFair(steps) && NoJoin(steps)
    ensures Battle(RunFrom(g, steps), n)
  {
    if steps != [] {
      var before, step := steps[..|steps| - 1], steps[|steps| - 1];
      BattleRuns(g, n, before);
      BattleGoesOn(RunFrom(g, before), n, step);
    }
  }

  /** Once the game is over a step that is no join and no disconnection changes nothing. */
  lemma OverIsOver(g: Game, step: Step)
    requires g.over && !g.running && !step.JoinStep? && !step.DisconnectStep?
    ensures Perform(g, step) == g
  {
  }

  lemma {:induction false} FoughtRuns(g: Game, n: nat, steps: seq<Step>)
    requires Fought(g, n) && AllFair(steps) && NoJoin(steps) && NoDisconnect(steps)
    ensures Fought(RunFrom(g, steps), n)
  {
    if steps != [] {
      var before, step := steps[..|steps| - 1], steps[|steps| - 1];
      FoughtRuns(g, n, before);
      BattleGoesOn(RunFrom(g, before), n, step);
      if RunFrom(g, before).over {
        OverIsOver(RunFrom(g, before), step);
      }
    }
  }

  /**
    Every battle of `n` players, whatever led to its start: the blows go round the players in
    order, and there are at most `19 n + 1` of them.
   */
  lemma BattleLength(before: seq<Step>, battle: seq<Step>)
    requires AllFair(battle) && NoJoin(battle)
    requires !RunFrom(LOBBY, before).running && Start(RunFrom(LOBBY, before)).running
    ensures var n, g := |RunFrom(LOBBY, before).players|, RunFrom(LOBBY, before + [StartStep] + battle);
            n >= 2 && RoundRobin(g.attacks, n) && |g.attacks| <= 19 * n + 1 && (g.running ==> |g.attacks| <= 19 * n)
  {
    Invariant(before);
    var start := RunFrom(LOBBY, before);
    var n := |start.players|;
    StartBegins(start);
    RunInTwo(LOBBY, before + [StartStep], battle);
    assert (before + [StartStep])[..|before|] == before;
    BattleRuns(Start(start), n, battle);
    var g := RunFrom(Start(start), battle);
    if g.running {
      FightingBound(g, n);
    }
  }

  /**
    Without disconnections a battle ends by a final blow, after at least `6 n + 1` and at most
    `19 n + 1` blows; the last attacker wins and its neighbour is the only one to have fallen.
   */
  lemma BattleOutcome(before: seq<Step>, battle: seq<Step>)
    requires AllFair(battle) && NoJoin(battle) && NoDisconnect(battle)
    requires !RunFrom(LOBBY, before).running && Start(RunFrom(LOBBY, before)).running
    requires RunFrom(LOBBY, before + [StartStep] + battle).over
    ensures var n, g := |RunFrom(LOBBY, before).players|, RunFrom(LOBBY, before + [StartStep] + battle);
            6 * n + 1 <= |g.attacks| <= 19 * n + 1 && Decided(g, n)
  {
    Invariant(before);
    var start := RunFrom(LOBBY, before);
    StartBegins(start);
    RunInTwo(LOBBY, before + [StartStep], battle);
    assert (before + [StartStep])[..|before|] == before;
    FoughtRuns(Start(start), |start.players|, battle);
  }

  // -------------------------------------------------------------------------- the bounds are reached

  const OPENING := [JoinStep(0), JoinStep(1)]

  /** `k` rounds of two players striking in turn, all blows with the same damage. */
  function Rounds(k: nat, damage: nat): seq<Step> {
    if k == 0 then [] else Rounds(k - 1, damage) + [AttackStep(0, damage)] + [AttackStep(1, damage)]
  }

  function Duel(first: Player, second: Player, turn: nat, attacks: seq<nat>): Game {
    Game([first, second], turn, true, false, None, attacks)
  }

  function Fighter(id: int, health: int, taken: nat): Player {
    Player(id, health, true, taken)
  }

  lemma DuelBlow(first: Player, second: Player, turn: nat, attacks: seq<nat>, damage: nat)
    requires first.id == 0 && second.id == 1 && first.connected && second.connected && turn < 2
    ensures var g := Attack(Duel(first, second, turn, attacks), turn, damage);
            var struck := if turn == 0 then Struck(second, damage) else Struck(first, damage);
            && g.attacks == attacks + [turn] && g.over == !Alive(struck)
            && (Alive(struck) ==>
                  g == if turn == 0 then Duel(first, struck, 1, attacks + [0])
                       else Duel(struck, second, 0, attacks + [1]))
  {
    var g := Duel(first, second, turn, attacks);
    assert IndexOf(g.players, turn) == turn;
    assert g.players[1 := Struck(second, damage)] == [first, Struck(second, damage)];
    assert g.players[0 := Struck(first, damage)] == [Struck(first, damage), second];
  }

  lemma RoundMore(g: Game, k: nat, damage: nat)
    requires k > 0
    ensures RunFrom(g, Rounds(k, damage)) == Attack(Attack(RunFrom(g, Rounds(k - 1, damage)), 0, damage), 1, damage)
  {
    var before, a, b := Rounds(k - 1, damage), AttackStep(0, damage), AttackStep(1, damage);
    assert (before + [a] + [b])[..|before| + 1] == before + [a];
    assert (before + [a])[..|before|] == before;
  }

  lemma OneRound(health: int, k: nat, attacks: seq<nat>, damage: nat)
    requires health > damage
    ensures Attack(Attack(Level(health, k, attacks), 0, damage), 1, damage)
            == Level(health - damage, k + 1, attacks + [0] + [1])
  {
    DuelBlow(Fighter(0, health, k), Fighter(1, health, k), 0, attacks, damage);
    DuelBlow(Fighter(0, health, k), Fighter(1, health - damage, k + 1), 1, attacks + [0], damage);
  }

  /** Both players at the same health, after `k` rounds. */
  function Level(health: int, k: nat, attacks: seq<nat>): Game {
    Duel(Fighter(0, health, k), Fighter(1, health, k), 0, attacks)
  }

  function Left(k: nat, damage: nat): int {
    if k == 0 then FULL_HEALTH else Left(k - 1, damage) - damage
  }

  /** `k` rounds of `round`, whatever a round does. */
  function Iterate(round: Game -> Game, g: Game, k: nat): Game {
    if k == 0 then g else round(Iterate(round, g, k - 1))
  }

  ghost predicate IsRound(round: Game -> Game, damage: nat) {
    forall g :: round(g) == Attack(Attack(g, 0, damage), 1, damage)
  }

  lemma {:induction false} RoundsRun(round: Game -> Game, g: Game, k: nat, damage: nat)
    requires IsRound(round, damage)
    ensures RunFrom(g, Rounds(k, damage)) == Iterate(round, g, k)
  {
    if k > 0 {
      RoundsRun(round, g, k - 1, damage);
      RoundMore(g, k, damage);
    }
  }

  ghost predicate Wears(round: Game -> Game, damage: nat) {
    forall health: int, k: nat, attacks: seq<nat> :: health > damage ==>
      round(Level(health, k, attacks)) == Level(health - damage, k + 1, attacks + [0] + [1])
  }

  lemma RoundWears(round: Game -> Game, damage: nat)
    requires IsRound(round, damage)
    ensures Wears(round, damage)
  {
    forall health: int, k: nat, attacks: seq<nat> | health > damage
      ensures round(Level(health, k, attacks)) == Level(health - damage, k + 1, attacks + [0] + [1])
    {
      OneRound(health, k, attacks, damage);
    }
  }

  /** Two players striking in turn with the same damage, as long as both stand. */
  lemma {:induction false} AfterRounds(round: Game -> Game, k: nat, damage: nat) returns (attacks: seq<nat>)
    requires Wears(round, damage) && Left(k, damage) > 0
    ensures |attacks| == 2 * k
    ensures Iterate(round, Level(FULL_HEALTH, 0, []), k) == Level(Left(k, damage), k, attacks)
  {
    if k == 0 {
      attacks := [];
    } else {
      var earlier := AfterRounds(round, k - 1, damage);
      assert Left(k - 1, damage) > damage;
      attacks := earlier + [0] + [1];
    }
  }

  lemma SomeRound(damage: nat) returns (round: Game -> Game)
    ensures IsRound(round, damage)
  {
    round := (g: Game) => Attack(Attack(g, 0, damage), 1, damage);
  }

  lemma LevelRun(k: nat, damage: nat) returns (attacks: seq<nat>)
    requires Left(k, damage) > 0
    ensures |attacks| == 2 * k
    ensures RunFrom(Level(FULL_HEALTH, 0, []), Rounds(k, damage)) == Level(Left(k, damage), k, attacks)
  {
    var round := SomeRound(damage);
    RoundWears(round, damage);
    attacks := AfterRounds(round, k, damage);
    RoundsRun(round, Level(FULL_HEALTH, 0, []), k, damage);
  }

  /** The second player falls to the first blow of round `k + 1`. */
  lemma LastBlow(k: nat, damage: nat)
    requires 0 < Left(k, damage) <= damage
    ensures var g := RunFrom(Level(FULL_HEALTH, 0, []), Rounds(k, damage) + [AttackStep(0, damage)]);
            g.over && |g.attacks| == 2 * k + 1
  {
    var attacks := LevelRun(k, damage);
    DuelBlow(Fighter(0, Left(k, damage), k), Fighter(1, Left(k, damage), k), 0, attacks, damage);
    RunInTwo(Level(FULL_HEALTH, 0, []), Rounds(k, damage), [AttackStep(0, damage)]);
  }

  lemma OpeningOf(battle: seq<Step>)
    ensures RunFrom(LOBBY, OPENING + [StartStep] + battle) == RunFrom(Level(FULL_HEALTH, 0, []), battle)
  {
    RunInTwo(LOBBY, OPENING + [StartStep], battle);
    var one := Join(LOBBY, 0);
    assert one.players == [Fighter(0, FULL_HEALTH, 0)];
    var two := Join(one, 1);
    assert two.players == [Fighter(0, FULL_HEALTH, 0), Fighter(1, FULL_HEALTH, 0)];
    assert [JoinStep(0)][..0] == [] && OPENING[..1] == [JoinStep(0)];
    assert RunFrom(LOBBY, [JoinStep(0)]) == one;
    assert RunFrom(LOBBY, OPENING) == two;
    assert (OPENING + [StartStep])[..2] == OPENING;
    assert Healed(two.players) == two.players;
  }

  lemma {:induction false} LeftIs(k: nat, damage: nat)
    ensures Left(k, damage) == FULL_HEALTH - damage * k
  {
    if k > 0 {
      LeftIs(k - 1, damage);
      assert damage * k == damage * (k - 1) + damage;
    }
  }

  /** Both bounds are met by two players: 13 blows of the greatest damage, 39 of the least. */
  lemma BoundsAreReached(shortest: nat, longest: nat)
    requires shortest == 6 && longest == 19
    ensures var battle := Rounds(shortest, MAX_DAMAGE) + [AttackStep(0, MAX_DAMAGE)];
            var g := RunFrom(LOBBY, OPENING + [StartStep] + battle);
            g.over && |g.attacks| == 13
    ensures var battle := Rounds(longest, MIN_DAMAGE) + [AttackStep(0, MIN_DAMAGE)];
            var g := RunFrom(LOBBY, OPENING + [StartStep] + battle);
            g.over && |g.attacks| == 39
  {
    OpeningOf(Rounds(shortest, MAX_DAMAGE) + [AttackStep(0, MAX_DAMAGE)]);
    OpeningOf(Rounds(longest, MIN_DAMAGE) + [AttackStep(0, MIN_DAMAGE)]);
    LeftIs(shortest, MAX_DAMAGE);
    LeftIs(longest, MIN_DAMAGE);
    LastBlow(shortest, MAX_DAMAGE);
    LastBlow(longest, MIN_DAMAGE);
  }

  // -------------------------------------------------------------------------- in place

  class GameState {
    var players: seq<Player>
    var turn: nat
    var running: bool
    var over: bool
    var winner: Option<int>
    ghost var attacks: seq<nat>

    ghost function View(): Game
      reads this
    {
      Game(players, turn, running, over, winner, attacks)
    }

    constructor ()
      ensures View() == LOBBY
    {
      players, turn, running, over, winner, attacks := [], 0, false, false, None, [];
    }

    method IndexForPlayer(id: int) returns (index: nat)
      ensures index == IndexOf(players, id)
    {
      index := 0;
      while index < |players|
        invariant index <= |players|
        invariant IndexOf(players, id) == index + IndexOf(players[index..], id)
      {
        if players[index].id == id {
          return;
        }
        index := index + 1;
      }
    }

    method AddOrUpdatePlayer(id: nat)
      modifies this
      ensures View() == Join(old(View()), id)
    {
      if id >= |players| {
        players := players + seq(id + 1 - |players|, _ => VACANT);
      }
      var player := players[id].(id := id);
      player := player.(connected := true);
      player := player.(health := FULL_HEALTH, taken := 0);
      players := players[id := player];
    }

    method MarkPlayerDisconnected(id: int)
      modifies this
      ensures View() == Disconnect(old(View()), id)
    {
      var index := IndexForPlayer(id);
      if index == |players| {
        return;
      }
      var player := players[index].(connected := false);
      players := players[index := player];
      if running && !over {
        over := true;
        running := false;
        var ps, i := players, 0;
        while i < |ps|
          invariant i <= |ps| && FirstOther(ps[i..], player.id) == FirstOther(ps, player.id)
          invariant View() == old(View()).(players := ps, over := true, running := false)
        {
          if ps[i].id != player.id && ps[i].connected {
            winner := Some(ps[i].id);
            break;
          }
          i := i + 1;
        }
      }
    }

    method StartIfReady()
      modifies this
      ensures View() == Start(old(View()))
    {
      if running || over || |players| < 2 {
        return;
      }
      for i := 0 to |players|
        invariant forall j :: 0 <= j < i ==> players[j].id >= 0 && players[j].connected
        invariant View() == old(View())
      {
        if players[i].id < 0 || !players[i].connected {
          return;
        }
      }
      running, over, winner, turn, attacks := true, false, None, 0, [];
      for i := 0 to |players|
        invariant |players| == |old(players)|
        invariant forall j :: 0 <= j < i ==> players[j] == Healed(old(players))[j]
        invariant forall j :: i <= j < |players| ==> players[j] == old(players)[j]
        invariant View() == Game(players, 0, true, false, None, [])
      {
        players := players[i := players[i].(health := FULL_HEALTH, taken := 0)];
      }
      assert players == Healed(old(players));
    }

    /** `damage` is the number drawn by the source's random distribution over 5..15. */
    method ApplyAttack(attackerId: int, damage: nat)
      modifies this
      ensures View() == Attack(old(View()), attackerId, damage)
    {
      if !running || over || |players| < 2 {
        return;
      }
      var attacker := IndexForPlayer(attackerId);
      if attacker == |players| || attacker != turn {
        return;
      }
      var defender := (attacker + 1) % |players|;
      assert defender == Next(attacker, |players|);
      if !players[defender].connected {
        return;
      }
      var left := players[defender].health - damage;
      var hurt := players[defender].(health := if left < 0 then 0 else left, taken := players[defender].taken + 1);
      players := players[defender := hurt];
      attacks := attacks + [attacker];
      if players[defender].health <= 0 {
        over := true;
        running := false;
        winner := Some(players[attacker].id);
      } else {
        turn := defender;
      }
    }

    method AdvanceTick()
      modifies this
      ensures View() == Tick(old(View()))
    {
      if !running || over {
        return;
      }
      var active, i := true, 0;
      while i < |players| && active
        invariant 0 <= i <= |players|
        invariant active ==> forall j :: 0 <= j < i ==> players[j].connected && Alive(players[j])
        invariant !active ==> !AllActive(players)
        invariant View() == old(View())
        decreases |players| - i, active
      {
        active := players[i].connected && players[i].health > 0;
        i := i + 1;
      }
      if !active {
        running := false;
        over := true;
        var ps, k := players, 0;
        while k < |ps|
          invariant k <= |ps| && FirstStanding(ps[k..]) == FirstStanding(ps)
          invariant View() == old(View()).(over := true, running := false)
        {
          if ps[k].connected && ps[k].health > 0 {
            winner := Some(ps[k].id);
            break;
          }
          k := k + 1;
        }
      }
    }
  }
}
