/**
  The thread-safe connection pool as a state machine of interleaved atomic steps, for any
  number of threads, and its acquire loop run by one thread.

  Each queue operation, each locked block, each health check and each counter update is one
  step.  A wrapper is used by one thread; a thread with several wrappers counts as several.
 */
module ConnectionPool {
  import opened Collections

  type Conn = nat

  /** Where a thread is in `acquire` or `release`, with the connection it has in hand. */
  datatype Pc =
    | Idle
    | Getting                  // about to take from the queue without waiting
    | FoundEmpty               // about to take the lock and maybe create
    | Waiting                  // about to wait on the queue
    | Checking(conn: Conn)     // about to check the health of what it got
    | Discarding(conn: Conn)   // unhealthy: about to dispose of it and start again
    | Adding(conn: Conn)       // healthy: about to enter it in use
    | Holding(conn: Conn)      // has the open wrapper
    | Releasing(conn: Conn)    // closed the wrapper, about to take it out of use
    | Returning(conn: Conn)    // about to check its health
    | Putting(conn: Conn)      // healthy: about to put it back
    | Dropping(conn: Conn)     // unhealthy: about to dispose of it

  datatype Pool = Pool(available: seq<Conn>, inUse: set<Conn>, total: int, max: nat, nextConn: nat,
                       threads: map<nat, Pc>)

  /**
    One step of one thread.  `choice` resolves what the pool does not control: on a create,
    whether the factory succeeds; on a check, whether the connection is healthy; on a
    wait, whether it goes on; on a disposal, whether `close` returns normally.
   */
  datatype Step = Step(thread: nat, choice: bool)

  function At(p: Pool, t: nat): Pc { if t in p.threads then p.threads[t] else Idle }

  function Go(p: Pool, t: nat, pc: Pc): Pool { p.(threads := p.threads[t := pc]) }

  function Next(p: Pool, s: Step): Pool {
    var t, yes := s.thread, s.choice;
    match At(p, t)
    case Idle => Go(p, t, Getting)
    case Getting =>
      if p.available != [] then Go(p, t, Checking(p.available[0])).(available := p.available[1..])
      else Go(p, t, FoundEmpty)
    case FoundEmpty =>
      if p.total < p.max then
        if yes then Go(p, t, Checking(p.nextConn)).(nextConn := p.nextConn + 1, total := p.total + 1)
        else Go(p, t, Idle)
      else Go(p, t, if yes then Waiting else Idle)
    case Waiting =>
      if yes && p.available != [] then Go(p, t, Checking(p.available[0])).(available := p.available[1..])
      else Go(p, t, Idle)
    case Checking(c) => Go(p, t, if yes then Adding(c) else Discarding(c))
    case Discarding(c) => Go(p, t, if yes then Getting else Idle).(total := p.total - 1)
    case Adding(c) => Go(p, t, Holding(c)).(inUse := p.inUse + {c})
    case Holding(c) => Go(p, t, Releasing(c))
    case Releasing(c) =>
      if c in p.inUse then Go(p, t, Returning(c)).(inUse := p.inUse - {c}) else Go(p, t, Idle)
    case Returning(c) => Go(p, t, if yes then Putting(c) else Dropping(c))
    case Putting(c) => Go(p, t, Idle).(available := p.available + [c])
    case Dropping(_) => Go(p, t, Idle).(total := p.total - 1)
  }

  /** The constructor creates the minimum number of connections. */
  function Create(min: nat, max: nat): Pool {
    Pool(seq(min, i => i), {}, min, max, min, map[])
  }

  function Run(min: nat, max: nat, steps: seq<Step>): Pool {
    if steps == [] then Create(min, max)
    else Next(Run(min, max, steps[..|steps| - 1]), steps[|steps| - 1])
  }

  // ------------------------------------------------------------------- the invariant

  predicate HasConn(pc: Pc) { !(pc.Idle? || pc.Getting? || pc.FoundEmpty? || pc.Waiting?) }

  /** The wrapper exists and its connection is entered in use. */
  predicate IsUser(pc: Pc) { pc.Holding? || pc.Releasing? }

  predicate InTransit(pc: Pc) { HasConn(pc) && !IsUser(pc) }

  predicate Has(threads: map<nat, Pc>, t: nat, c: Conn) {
    t in threads && HasConn(threads[t]) && threads[t].conn == c
  }

  /** Everything any thread has in hand. */
  ghost function Held(threads: map<nat, Pc>): set<Conn> {
    set t | t in threads && HasConn(threads[t]) :: threads[t].conn
  }

  ghost function Users(threads: map<nat, Pc>): set<Conn> {
    set t | t in threads && IsUser(threads[t]) :: threads[t].conn
  }

  ghost function Transit(threads: map<nat, Pc>): set<Conn> {
    set t | t in threads && InTransit(threads[t]) :: threads[t].conn
  }

  ghost predicate NoDuplicates(q: seq<Conn>) { forall i, j :: 0 <= i < j < |q| ==> q[i] != q[j] }

  ghost function Elements(q: seq<Conn>): set<Conn> { set c | c in q }

  /** No connection is in the hands of two threads. */
  ghost predicate OneHolder(threads: map<nat, Pc>) {
    forall t, u, c :: Has(threads, t, c) && Has(threads, u, c) ==> t == u
  }

  ghost predicate Inv(p: Pool) {
    && NoDuplicates(p.available) && OneHolder(p.threads)
    && Elements(p.available) !! Held(p.threads)
    && (forall c :: c in p.available || c in Held(p.threads) ==> c < p.nextConn)
    && p.inUse == Users(p.threads)
    && p.total == |p.available| + |Held(p.threads)| <= p.max
  }

  // ------------------------------------------------------- what one thread's move does

  lemma WhoHolds(threads: map<nat, Pc>, c: Conn) returns (t: nat)
    requires c in Held(threads)
    ensures Has(threads, t, c)
  {
    t :| t in threads && HasConn(threads[t]) && threads[t].conn == c;
  }

  lemma WhoUses(threads: map<nat, Pc>, c: Conn) returns (t: nat)
    requires c in Users(threads)
    ensures Has(threads, t, c) && IsUser(threads[t])
  {
    t :| t in threads && IsUser(threads[t]) && threads[t].conn == c;
  }

  /** A thread that has nothing picks up a connection nobody has. */
  lemma PickUp(threads: map<nat, Pc>, t: nat, pc: Pc)
    requires HasConn(pc) && pc.conn !in Held(threads) && (t in threads ==> !HasConn(threads[t])) && OneHolder(threads)
    ensures Held(threads[t := pc]) == Held(threads) + {pc.conn} && OneHolder(threads[t := pc])
    ensures |Held(threads[t := pc])| == |Held(threads)| + 1
    ensures !IsUser(pc) ==> Users(threads[t := pc]) == Users(threads)
  {
    var threads' := threads[t := pc];
    forall c | c in Held(threads)
      ensures c in Held(threads')
    {
      var u := WhoHolds(threads, c);
      assert Has(threads', u, c);
    }
    assert Has(threads', t, pc.conn);
    forall u, v, c | Has(threads', u, c) && Has(threads', v, c) ensures u == v {
      assert u != t ==> Has(threads, u, c) && c in Held(threads);
      assert v != t ==> Has(threads, v, c) && c in Held(threads);
    }
    forall c | c in Users(threads) ensures c in Users(threads') {
      var u := WhoUses(threads, c);
      assert u in threads' && threads'[u] == threads[u];
    }
  }

  /** A thread moves on with the connection it has. */
  lemma Carry(threads: map<nat, Pc>, t: nat, pc: Pc)
    requires t in threads && HasConn(threads[t]) && HasConn(pc) && pc.conn == threads[t].conn && OneHolder(threads)
    ensures Held(threads[t := pc]) == Held(threads) && OneHolder(threads[t := pc])
    ensures Users(threads[t := pc]) == if IsUser(pc) then Users(threads) + {pc.conn} else Users(threads) - {pc.conn}
  {
    var threads', c := threads[t := pc], pc.conn;
    assert Has(threads, t, c) && Has(threads', t, c);
    forall u, d | Has(threads, u, d) || Has(threads', u, d) ensures Has(threads, u, d) && Has(threads', u, d) {}
    forall d ensures d in Held(threads) <==> d in Held(threads') {
      if d in Held(threads) { var u := WhoHolds(threads, d); assert Has(threads', u, d); }
      if d in Held(threads') { var u := WhoHolds(threads', d); assert Has(threads, u, d); }
    }
    forall d | d != c ensures d in Users(threads) <==> d in Users(threads') {
      if d in Users(threads) { var u := WhoUses(threads, d); assert threads'[u] == threads[u]; }
      if d in Users(threads') { var u := WhoUses(threads', d); assert threads'[u] == threads[u]; }
    }
    if IsUser(pc) { assert threads'[t] == pc; }
    if c in Users(threads') {
      var u := WhoUses(threads', c);
      assert Has(threads', u, c) && Has(threads, u, c);
    }
  }

  /** A thread lets go of a connection that was not in use. */
  lemma LetGo(threads: map<nat, Pc>, t: nat, pc: Pc)
    requires t in threads && InTransit(threads[t]) && !HasConn(pc) && OneHolder(threads)
    ensures Held(threads[t := pc]) == Held(threads) - {threads[t].conn} && OneHolder(threads[t := pc])
    ensures |Held(threads[t := pc])| == |Held(threads)| - 1
    ensures Users(threads[t := pc]) == Users(threads)
  {
    var threads', c := threads[t := pc], threads[t].conn;
    assert Has(threads, t, c);
    forall u, d | Has(threads', u, d) ensures Has(threads, u, d) {}
    forall d ensures d in Held(threads') <==> d in Held(threads) && d != c {
      if d in Held(threads') { var u := WhoHolds(threads', d); assert Has(threads, u, d); }
      if d in Held(threads) && d != c { var u := WhoHolds(threads, d); assert Has(threads', u, d); }
    }
    forall d ensures d in Users(threads) <==> d in Users(threads') {
      if d in Users(threads) { var u := WhoUses(threads, d); assert threads'[u] == threads[u]; }
      if d in Users(threads') { var u := WhoUses(threads', d); assert threads'[u] == threads[u]; }
    }
  }

  /** A thread with nothing in hand moves on with nothing. */
  lemma EmptyHanded(threads: map<nat, Pc>, t: nat, pc: Pc)
    requires (t in threads ==> !HasConn(threads[t])) && !HasConn(pc) && OneHolder(threads)
    ensures Held(threads[t := pc]) == Held(threads) && OneHolder(threads[t := pc])
    ensures Users(threads[t := pc]) == Users(threads)
  {
    var threads' := threads[t := pc];
    forall u, d ensures Has(threads', u, d) <==> Has(threads, u, d) {}
    forall d ensures d in Held(threads') <==> d in Held(threads) {
      if d in Held(threads') { var u := WhoHolds(threads', d); assert Has(threads, u, d); }
      if d in Held(threads) { var u := WhoHolds(threads, d); assert Has(threads', u, d); }
    }
    forall d ensures d in Users(threads) <==> d in Users(threads') {
      if d in Users(threads) { var u := WhoUses(threads, d); assert threads'[u] == threads[u]; }
      if d in Users(threads') { var u := WhoUses(threads', d); assert threads'[u] == threads[u]; }
    }
  }

  // --------------------------------------------------------------------- step lemmas

  lemma TakeKeepsInv(p: Pool, t: nat)
    requires Inv(p) && !HasConn(At(p, t)) && p.available != []
    ensures Inv(Go(p, t, Checking(p.available[0])).(available := p.available[1..]))
  {
    var c, rest := p.available[0], p.available[1..];
    assert c in Elements(p.available);
    PickUp(p.threads, t, Checking(c));
    assert p.available == [c] + rest;
    assert forall d :: d in rest ==> d in p.available && d != c;
  }

  lemma MakeKeepsInv(p: Pool, t: nat)
    requires Inv(p) && !HasConn(At(p, t)) && p.total < p.max
    ensures Inv(Go(p, t, Checking(p.nextConn)).(nextConn := p.nextConn + 1, total := p.total + 1))
  {
    PickUp(p.threads, t, Checking(p.nextConn));
  }

  lemma CarryKeepsInv(p: Pool, t: nat, pc: Pc)
    requires Inv(p) && HasConn(At(p, t)) && HasConn(pc) && pc.conn == At(p, t).conn
    ensures Inv(Go(p, t, pc).(inUse := if IsUser(pc) then p.inUse + {pc.conn} else p.inUse - {pc.conn}))
  {
    Carry(p.threads, t, pc);
  }

  lemma UnusedUnlessUser(p: Pool, t: nat)
    requires Inv(p) && HasConn(At(p, t))
    ensures At(p, t).conn in p.inUse <==> IsUser(At(p, t))
  {
    var c := At(p, t).conn;
    assert Has(p.threads, t, c);
    if c in p.inUse {
      var u := WhoUses(p.threads, c);
      assert Has(p.threads, u, c);
    }
  }

  lemma DisposeKeepsInv(p: Pool, t: nat, pc: Pc)
    requires Inv(p) && InTransit(At(p, t)) && !HasConn(pc)
    ensures Inv(Go(p, t, pc).(total := p.total - 1))
  {
    LetGo(p.threads, t, pc);
  }

  lemma PutKeepsInv(p: Pool, t: nat)
    requires Inv(p) && InTransit(At(p, t))
    ensures Inv(Go(p, t, Idle).(available := p.available + [At(p, t).conn]))
  {
    var c := At(p, t).conn;
    LetGo(p.threads, t, Idle);
    assert Has(p.threads, t, c) && c in Held(p.threads);
    forall d | d in p.available ensures d != c { assert d in Elements(p.available); }
  }

  lemma NextKeepsInv(p: Pool, s: Step)
    requires Inv(p)
    ensures Inv(Next(p, s))
  {
    var t, pc, p' := s.thread, At(p, s.thread), Next(p, s);
    if !HasConn(pc) {
      if p'.total > p.total { MakeKeepsInv(p, t); }
      else if p'.available != p.available { TakeKeepsInv(p, t); }
      else { EmptyHanded(p.threads, t, p'.threads[t]); }
    } else {
      UnusedUnlessUser(p, t);
      if HasConn(p'.threads[t]) {
        CarryKeepsInv(p, t, p'.threads[t]);
        assert p'.inUse == if IsUser(p'.threads[t]) then p.inUse + {pc.conn} else p.inUse - {pc.conn};
      } else if pc.Putting? {
        PutKeepsInv(p, t);
      } else {
        DisposeKeepsInv(p, t, p'.threads[t]);
      }
    }
  }

  // ------------------------------------------------------------------------- theorems

  lemma CreateOk(min: nat, max: nat)
    requires min <= max
    ensures Inv(Create(min, max))
  {
    assert Held(map[]) == {};
    assert Users(map[]) == {};
  }

  lemma {:induction false} Invariant(min: nat, max: nat, steps: seq<Step>)
    requires min <= max
    ensures Inv(Run(min, max, steps)) && Run(min, max, steps).max == max
  {
    if steps == [] {
      CreateOk(min, max);
    } else {
      Invariant(min, max, steps[..|steps| - 1]);
      NextKeepsInv(Run(min, max, steps[..|steps| - 1]), steps[|steps| - 1]);
    }
  }

  /**
    At every reachable state every connection is in exactly one place: waiting in the queue, in
    use, or in transit in one thread's hands; together they are all the connections counted, and
    never more than the maximum.
   */
  lemma Conservation(min: nat, max: nat, steps: seq<Step>)
    requires min <= max
    ensures var p := Run(min, max, steps);
            && NoDuplicates(p.available)
            && Elements(p.available) !! p.inUse !! Transit(p.threads)
            && |p.available| + |p.inUse| + |Transit(p.threads)| == p.total <= max
  {
    Invariant(min, max, steps);
    var p := Run(min, max, steps);
    HeldSplits(p.threads);
  }

  lemma HeldSplits(threads: map<nat, Pc>)
    requires OneHolder(threads)
    ensures Held(threads) == Users(threads) + Transit(threads) && Users(threads) !! Transit(threads)
    ensures |Held(threads)| == |Users(threads)| + |Transit(threads)|
  {
    forall c | c in Users(threads) && c in Transit(threads) ensures false {
      var u := WhoUses(threads, c);
      var v :| v in threads && InTransit(threads[v]) && threads[v].conn == c;
      assert Has(threads, u, c) && Has(threads, v, c);
    }
  }

  /** No connection is behind two open wrappers, and an open wrapper's connection is in use, not up for taking. */
  lemma Exclusive(min: nat, max: nat, steps: seq<Step>, t: nat, u: nat)
    requires min <= max && At(Run(min, max, steps), t).Holding?
    ensures var p := Run(min, max, steps);
            && At(p, t).conn in p.inUse && At(p, t).conn !in p.available
            && (At(p, u).Holding? && At(p, u).conn == At(p, t).conn ==> t == u)
  {
    Invariant(min, max, steps);
    var p := Run(min, max, steps);
    var c := At(p, t).conn;
    assert Has(p.threads, t, c) && c in Held(p.threads);
    assert c in p.available ==> c in Elements(p.available);
    assert At(p, u).Holding? && At(p, u).conn == c ==> Has(p.threads, u, c);
  }

  /** Releasing is never ignored: with one thread per wrapper the connection is always still in use. */
  lemma ReleaseFindsConnection(min: nat, max: nat, steps: seq<Step>, t: nat)
    requires min <= max && At(Run(min, max, steps), t).Releasing?
    ensures At(Run(min, max, steps), t).conn in Run(min, max, steps).inUse
  {
    Invariant(min, max, steps);
    UnusedUnlessUser(Run(min, max, steps), t);
  }

  // ------------------------------------------------------------- one thread in place

  /** Position of the first healthy connection, or the length of the queue. */
  function FirstHealthy(q: seq<Conn>, healthy: Conn -> bool): (k: nat)
    ensures k <= |q|
    ensures k < |q| ==> healthy(q[k])
    ensures forall i :: 0 <= i < k ==> !healthy(q[i])
  {
    if q == [] || healthy(q[0]) then 0 else 1 + FirstHealthy(q[1..], healthy)
  }

  /** Every connection is in the queue or in use, in one of them only, and is counted. */
  ghost predicate Fits(q: seq<Conn>, inUse: set<Conn>, total: int, max: nat, nextConn: nat) {
    && NoDuplicates(q) && Elements(q) !! inUse
    && (forall c :: c in q || c in inUse ==> c < nextConn)
    && total == |q| + |inUse| <= max
  }

  /** The front of the queue disposed of, and the next connection perhaps taken into use. */
  lemma SuffixFits(q: seq<Conn>, inUse: set<Conn>, total: int, max: nat, nextConn: nat, k: nat)
    requires k <= |q| && Fits(q, inUse, total, max, nextConn)
    ensures Fits(q[k..], inUse, total - k, max, nextConn)
    ensures k < |q| ==> q[k] !in inUse && Fits(q[k + 1..], inUse + {q[k]}, total - k, max, nextConn)
  {
    assert forall c :: c in q[k..] ==> c in q && c in Elements(q);
    if k < |q| {
      HeadFits(q[k..], inUse, total - k, max, nextConn);
      assert q[k..][1..] == q[k + 1..];
    }
  }

  lemma HeadFits(q: seq<Conn>, inUse: set<Conn>, total: int, max: nat, nextConn: nat)
    requires q != [] && Fits(q, inUse, total, max, nextConn)
    ensures q[0] !in inUse && Fits(q[1..], inUse + {q[0]}, total, max, nextConn)
  {
    var c, rest := q[0], q[1..];
    assert c in Elements(q);
    assert q == [c] + rest;
    assert forall d :: d in rest ==> d in q && d in Elements(q) && d != c;
    assert |inUse + {c}| == |inUse| + 1;
  }

  /** With the queue used up, a new connection is taken into use. */
  lemma FreshFits(inUse: set<Conn>, total: int, max: nat, nextConn: nat)
    requires Fits([], inUse, total, max, nextConn) && total < max
    ensures nextConn !in inUse && Fits([], inUse + {nextConn}, total + 1, max, nextConn + 1)
  {
  }

  class Connections {
    var available: seq<Conn>
    var inUse: set<Conn>
    var total: int
    const max: nat
    var nextConn: nat

    ghost predicate Valid()
      reads this
    {
      Fits(available, inUse, total, max, nextConn)
    }

    constructor (min: nat, max: nat)
      requires min <= max
      ensures Valid() && this.max == max && |available| == total == min && inUse == {}
    {
      available, inUse, total, this.max, nextConn := seq(min, i => i), {}, min, max, min;
    }

    /**
      Takes the first healthy connection of the queue and disposes of those before it; with none
      there, makes new ones, and disposes of them, until one is healthy, as long as there is room
      for one.  `None` is the exhausted error, raised only when the connections in use alone fill
      the pool.  With one thread, waiting on the empty queue times out.  It is required only that
      one healthy connection is ever made if one is needed: otherwise the source loops forever.
     */
    method Acquire(healthy: Conn -> bool) returns (r: Option<Conn>)
      requires Valid()
      requires FirstHealthy(available, healthy) == |available| && |inUse| < max ==>
              exists c :: c >= nextConn && healthy(c)
      modifies this
      ensures Valid()
      ensures r.Some? ==> healthy(r.value) && r.value !in old(inUse) && inUse == old(inUse) + {r.value}
      ensures r.None? ==> inUse == old(inUse)
      ensures var k := FirstHealthy(old(available), healthy);
              k < |old(available)| ==>
                && r == Some(old(available)[k]) && available == old(available)[k + 1..]
                && total == old(total) - k && nextConn == old(nextConn)
      ensures FirstHealthy(old(available), healthy) == |old(available)| ==>
                available == [] && (r.Some? <==> |old(inUse)| < max) && total == |inUse|
      ensures FirstHealthy(old(available), healthy) == |old(available)| && r.Some? ==>
                && old(nextConn) <= r.value && nextConn == r.value + 1
                && forall c :: old(nextConn) <= c < r.value ==> !healthy(c)
    {
      ghost var q, k, supply := available, FirstHealthy(available, healthy), nextConn;
      if k == |q| && |inUse| < max {
        supply :| supply >= nextConn && healthy(supply);
      }
      ghost var dropped := 0;
      while true
        invariant dropped <= k && available == q[dropped..]
        invariant inUse == old(inUse) && Valid()
        invariant old(nextConn) <= nextConn && (nextConn > old(nextConn) ==> available == [])
        invariant forall c :: old(nextConn) <= c < nextConn ==> !healthy(c)
        invariant k == |q| && |inUse| < max ==> nextConn <= supply && healthy(supply)
        decreases |available|, supply - nextConn
      {
        if available == [] && total == max {
          return None;
        }
        if available != [] {
          dropped := dropped + 1;
        }
        var conn, ok := TryOne(healthy);
        if ok {
          return Some(conn);
        }
      }
    }

    /** One turn of the loop: takes or makes a connection, and enters it in use if healthy or disposes of it. */
    method TryOne(healthy: Conn -> bool) returns (conn: Conn, ok: bool)
      requires Valid() && (available != [] || total < max)
      modifies `available, `inUse, `total, `nextConn
      ensures Valid() && conn !in old(inUse) && ok == healthy(conn)
      ensures inUse == if ok then old(inUse) + {conn} else old(inUse)
      ensures old(available) != [] ==>
                conn == old(available)[0] && available == old(available)[1..] && nextConn == old(nextConn)
      ensures old(available) == [] ==> conn == old(nextConn) && available == [] && nextConn == old(nextConn) + 1
      ensures total == old(total) + (if old(available) == [] then 1 else 0) - (if ok then 0 else 1)
    {
      if available == [] {
        FreshFits(inUse, total, max, nextConn);
      } else {
        SuffixFits(available, inUse, total, max, nextConn, 0);
        SuffixFits(available, inUse, total, max, nextConn, 1);
      }
      conn := TakeOrMake();
      ok := healthy(conn);
      if ok {
        inUse := inUse + {conn};
      } else {
        total := total - 1;
      }
    }

    /** The head of the queue, or a new connection when it is empty; either is then in nobody's keeping. */
    method TakeOrMake() returns (conn: Conn)
      requires available != [] || total < max
      modifies `available, `total, `nextConn
      ensures old(available) != [] ==>
                conn == old(available)[0] && available == old(available)[1..] && total == old(total) &&
                nextConn == old(nextConn)
      ensures old(available) == [] ==>
                conn == old(nextConn) && available == [] && total == old(total) + 1 && nextConn == old(nextConn) + 1
    {
      if available != [] {
        conn := available[0];
        available := available[1..];
      } else {
        conn := nextConn;
        nextConn := nextConn + 1;
        total := total + 1;
      }
    }

    method Release(conn: Conn, healthy: bool)
      requires Valid()
      modifies this
      ensures Valid()
      ensures conn !in old(inUse) ==> unchanged(this)
      ensures conn in old(inUse) ==>
                && inUse == old(inUse) - {conn} && nextConn == old(nextConn)
                && available == (if healthy then old(available) + [conn] else old(available))
                && total == (if healthy then old(total) else old(total) - 1)
    {
      if conn !in inUse {
        return;
      }
      assert forall d :: d in available ==> d in Elements(available);
      inUse := inUse - {conn};
      if healthy {
        available := available + [conn];
      } else {
        total := total - 1;
      }
    }
  }

  class PooledConnection {
    const raw: Conn
    const pool: Connections
    var closed: bool

    constructor (raw: Conn, pool: Connections)
      ensures this.raw == raw && this.pool == pool && !closed
    {
      this.raw, this.pool, closed := raw, pool, false;
    }

    /** Only the first close releases: a later one leaves the pool alone, whoever has the connection by then. */
    method Close(healthy: bool)
      requires pool.Valid()
      modifies this, pool
      ensures pool.Valid() && closed
      ensures old(closed) ==> unchanged(pool)
      ensures !old(closed) ==> raw !in pool.inUse && pool.inUse == old(pool.inUse) - {raw}
    {
      if !closed {
        closed := true;
        pool.Release(raw, healthy);
      }
    }
  }
}
