/**
  The connection pool against the history of its steps, for any interleaving: the last health
  check of every connection, and the order in which connections leave the queue.
 */
module PoolHistory {
  import opened Collections
  import opened ConnectionPool

  // ------------------------------------------------------------------ health checks

  /** The outcome of the last health check of a connection, if it was ever checked. */
  ghost function Verdict(min: nat, max: nat, steps: seq<Step>, c: Conn): Option<bool> {
    if steps == [] then None
    else
      var before, s := steps[..|steps| - 1], steps[|steps| - 1];
      var pc := At(Run(min, max, before), s.thread);
      if pc == Checking(c) || pc == Returning(c) then Some(s.choice) else Verdict(min, max, before, c)
  }

  predicate Passed(pc: Pc) { pc.Adding? || pc.Holding? || pc.Releasing? || pc.Returning? || pc.Putting? }

  predicate Failed(pc: Pc) { pc.Discarding? || pc.Dropping? }

  ghost predicate Sound(pc: Pc, verdict: Conn -> Option<bool>) {
    && (Passed(pc) ==> verdict(pc.conn) == Some(true))
    && (Failed(pc) ==> verdict(pc.conn) == Some(false))
    && (pc.Checking? ==> verdict(pc.conn) != Some(false))
  }

  ghost predicate Healthy(p: Pool, verdict: Conn -> Option<bool>) {
    && (forall t :: t in p.threads ==> Sound(p.threads[t], verdict))
    && (forall c :: c in p.available ==> verdict(c) != Some(false))
    && (forall c :: c >= p.nextConn ==> verdict(c) == None)
  }

  /** `after` is `before` with the check of this step, if it is one, taken into account. */
  ghost predicate Updated(p: Pool, s: Step, before: Conn -> Option<bool>, after: Conn -> Option<bool>) {
    forall c :: after(c) == if At(p, s.thread) == Checking(c) || At(p, s.thread) == Returning(c)
                            then Some(s.choice) else before(c)
  }

  lemma OthersUntouched(p: Pool, s: Step, before: Conn -> Option<bool>, after: Conn -> Option<bool>, u: nat)
    requires Inv(p) && Updated(p, s, before, after) && u != s.thread && u in p.threads && Sound(p.threads[u], before)
    ensures Sound(p.threads[u], after)
  {
    if HasConn(p.threads[u]) && HasConn(At(p, s.thread)) {
      assert Has(p.threads, u, p.threads[u].conn);
      assert Has(p.threads, s.thread, At(p, s.thread).conn);
    }
  }

  lemma MoverSound(p: Pool, s: Step, before: Conn -> Option<bool>, after: Conn -> Option<bool>)
    requires Healthy(p, before) && Updated(p, s, before, after)
    ensures s.thread in Next(p, s).threads && Sound(Next(p, s).threads[s.thread], after)
  {
    if s.thread in p.threads { assert Sound(p.threads[s.thread], before); }
  }

  lemma QueueSound(p: Pool, s: Step, before: Conn -> Option<bool>, after: Conn -> Option<bool>, c: Conn)
    requires Inv(p) && Healthy(p, before) && Updated(p, s, before, after)
    ensures c in Next(p, s).available ==> after(c) != Some(false)
    ensures c >= Next(p, s).nextConn ==> after(c) == None
  {
    var pc := At(p, s.thread);
    if HasConn(pc) {
      assert Has(p.threads, s.thread, pc.conn) && pc.conn in Held(p.threads);
      assert Sound(p.threads[s.thread], before);
    }
    assert c in p.available ==> c in Elements(p.available);
  }

  lemma StepKeepsHealthy(p: Pool, s: Step, before: Conn -> Option<bool>, after: Conn -> Option<bool>)
    requires Inv(p) && Healthy(p, before) && Updated(p, s, before, after)
    ensures Healthy(Next(p, s), after)
  {
    var p' := Next(p, s);
    forall t | t in p'.threads ensures Sound(p'.threads[t], after) {
      if t == s.thread {
        MoverSound(p, s, before, after);
      } else {
        assert t in p.threads && p'.threads[t] == p.threads[t];
        OthersUntouched(p, s, before, after, t);
      }
    }
    forall c: Conn ensures c in p'.available ==> after(c) != Some(false)
      ensures c >= p'.nextConn ==> after(c) == None
    {
      QueueSound(p, s, before, after, c);
    }
  }

  ghost function Verdicts(min: nat, max: nat, steps: seq<Step>): Conn -> Option<bool> {
    (c: Conn) => Verdict(min, max, steps, c)
  }

  lemma {:induction false} AlwaysHealthy(min: nat, max: nat, steps: seq<Step>)
    requires min <= max
    ensures Healthy(Run(min, max, steps), Verdicts(min, max, steps))
  {
    if steps != [] {
      var before := steps[..|steps| - 1];
      AlwaysHealthy(min, max, before);
      Invariant(min, max, before);
      StepKeepsHealthy(Run(min, max, before), steps[|steps| - 1],
                       Verdicts(min, max, before), Verdicts(min, max, steps));
    }
  }

  /**
    In every interleaving a caller is only ever given, and the queue only ever given back, a
    connection that passed its last check; only one that failed it is disposed of; and none that
    failed its last check waits in the queue.
   */
  lemma OnlyHealthyOnes(min: nat, max: nat, steps: seq<Step>, t: nat)
    requires min <= max
    ensures var p, pc := Run(min, max, steps), At(Run(min, max, steps), t);
            && (pc.Holding? || pc.Putting? ==> Verdict(min, max, steps, pc.conn) == Some(true))
            && (pc.Discarding? || pc.Dropping? ==> Verdict(min, max, steps, pc.conn) == Some(false))
            && forall c :: c in p.available ==> Verdict(min, max, steps, c) != Some(false)
  {
    AlwaysHealthy(min, max, steps);
    var p, verdicts := Run(min, max, steps), Verdicts(min, max, steps);
    assert t in p.threads ==> Sound(p.threads[t], verdicts);
    forall c | c in p.available ensures Verdict(min, max, steps, c) != Some(false) {
      assert verdicts(c) != Some(false);
    }
  }

  // ------------------------------------------------------------------ first in, first out

  /** The connections put into the queue so far, in order, the constructor's first. */
  ghost function Entered(min: nat, max: nat, steps: seq<Step>): seq<Conn> {
    if steps == [] then seq(min, i => i)
    else
      var before, s := steps[..|steps| - 1], steps[|steps| - 1];
      var pc := At(Run(min, max, before), s.thread);
      Entered(min, max, before) + if pc.Putting? then [pc.conn] else []
  }

  /** The connections taken from the queue so far, in order: what a thread has got that went there to get one. */
  ghost function Taken(min: nat, max: nat, steps: seq<Step>): seq<Conn> {
    if steps == [] then []
    else
      var before, s := steps[..|steps| - 1], steps[|steps| - 1];
      var pc, pc' := At(Run(min, max, before), s.thread), At(Run(min, max, steps), s.thread);
      Taken(min, max, before) + if (pc.Getting? || pc.Waiting?) && pc'.Checking? then [pc'.conn] else []
  }

  lemma QueueMoves(p: Pool, s: Step)
    ensures var p', pc, pc' := Next(p, s), At(p, s.thread), At(Next(p, s), s.thread);
            p.available + (if pc.Putting? then [pc.conn] else [])
            == (if (pc.Getting? || pc.Waiting?) && pc'.Checking? then [pc'.conn] else []) + p'.available
  {
    if p.available != [] { assert p.available == [p.available[0]] + p.available[1..]; }
    assert p.available + [] == p.available && [] + Next(p, s).available == Next(p, s).available;
  }

  /** Connections leave the queue in the order in which they entered it, and the rest are still there. */
  lemma {:induction false} FirstInFirstOut(min: nat, max: nat, steps: seq<Step>)
    ensures Entered(min, max, steps) == Taken(min, max, steps) + Run(min, max, steps).available
  {
    if steps == [] {
      assert [] + Create(min, max).available == Create(min, max).available;
    } else {
      var before, s := steps[..|steps| - 1], steps[|steps| - 1];
      FirstInFirstOut(min, max, before);
      QueueMoves(Run(min, max, before), s);
      Regrouped(Taken(min, max, before), Run(min, max, before).available, min, max, steps);
    }
  }

  lemma Regrouped(taken: seq<Conn>, queue: seq<Conn>, min: nat, max: nat, steps: seq<Step>)
    requires steps != []
    requires var before, s := steps[..|steps| - 1], steps[|steps| - 1];
             && taken == Taken(min, max, before) && queue == Run(min, max, before).available
             && Entered(min, max, before) == taken + queue
    ensures Entered(min, max, steps) == Taken(min, max, steps) + Run(min, max, steps).available
  {
    var before, s := steps[..|steps| - 1], steps[|steps| - 1];
    var pc, pc' := At(Run(min, max, before), s.thread), At(Run(min, max, steps), s.thread);
    var put := if pc.Putting? then [pc.conn] else [];
    var got := if (pc.Getting? || pc.Waiting?) && pc'.Checking? then [pc'.conn] else [];
    var queue' := Run(min, max, steps).available;
    QueueMoves(Run(min, max, before), s);
    Join(taken, queue, put, got, queue');
  }

  lemma Join(taken: seq<Conn>, queue: seq<Conn>, put: seq<Conn>, got: seq<Conn>, queue': seq<Conn>)
    requires queue + put == got + queue'
    ensures taken + queue + put == taken + got + queue'
  {
    assert taken + queue + put == taken + (queue + put);
    assert taken + got + queue' == taken + (got + queue');
  }

  /**
    A thread that finds the queue empty gets a connection nobody ever had, if the pool has room and
    the factory works; only when all the connections it may have exist does it wait.
   */
  lemma MakesOneIfRoom(min: nat, max: nat, steps: seq<Step>, t: nat)
    requires min <= max && At(Run(min, max, steps), t).FoundEmpty?
    ensures var p, p' := Run(min, max, steps), Next(Run(min, max, steps), Step(t, true));
            var pc := At(p', t);
            && (p.total < max ==> pc.Checking? && p'.total == p.total + 1 && pc.conn !in p.available
                                  && pc.conn !in p.inUse && pc.conn !in Transit(p.threads)
                                  && Verdict(min, max, steps, pc.conn) == None)
            && (p.total == max ==> pc.Waiting? && p'.total == max)
  {
    Invariant(min, max, steps);
    AlwaysHealthy(min, max, steps);
    var p := Run(min, max, steps);
    HeldSplits(p.threads);
    assert Verdicts(min, max, steps)(p.nextConn) == None;
  }
}
