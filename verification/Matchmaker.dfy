/**
  The arena matchmaker: greedy pairing over the rating-ordered listing, with an early
  exit once ratings are out of reach.

  `Pairs` is the simple form, with no early exit: each player in turn takes the first free
  compatible player after it.  `RunMatching` is proved to compute exactly that, and the
  pairing is proved disjoint, compatible and maximal.
 */
module Matchmaker {
  import opened MatchQueue

  const BASE_TOLERANCE := 100
  const TOLERANCE_STEP := 25
  const STEP_SECONDS := 5.0

  const WAIT_BUCKETS: seq<real> := [0.0, 5.0, 10.0, 20.0, 40.0, 80.0]

  datatype Match = Match(number: nat, first: string, second: string, averageElo: int, createdAt: real, region: string)

  // ------------------------------------------------------------------ requests

  function WaitSeconds(r: Request, now: real): real { now - r.enqueuedAt }

  function CurrentTolerance(r: Request, now: real): (t: int)
    ensures t >= BASE_TOLERANCE
  {
    var waited := if WaitSeconds(r, now) > 0.0 then WaitSeconds(r, now) else 0.0;
    assert waited / STEP_SECONDS >= 0.0;
    BASE_TOLERANCE + (waited / STEP_SECONDS).Floor * TOLERANCE_STEP
  }

  predicate RegionsCompatible(a: Request, b: Request) {
    a.region == "any" || b.region == "any" || a.region == b.region
  }

  function Abs(x: int): nat { if x < 0 then -x else x }

  /** Each is within the other's tolerance, and the regions agree. */
  predicate Compatible(a: Request, b: Request, now: real) {
    && RegionsCompatible(a, b)
    && Abs(a.elo - b.elo) <= CurrentTolerance(a, now)
    && Abs(a.elo - b.elo) <= CurrentTolerance(b, now)
  }

  lemma CompatibleSymmetric(a: Request, b: Request, now: real)
    ensures Compatible(a, b, now) <==> Compatible(b, a, now)
  {
  }

  function ResolveRegion(a: Request, b: Request): string {
    if a.region == b.region then a.region
    else if a.region == "any" then b.region
    else if b.region == "any" then a.region
    else a.region
  }

  /** C++ integer division by two, which truncates toward zero. */
  function Half(x: int): int { if x >= 0 then x / 2 else -((-x) / 2) }

  // ------------------------------------------------------------ the simple pairing

  predicate Eligible(s: seq<Queued>, used: set<string>, i: nat, j: nat, now: real)
    requires i < |s| && j < |s|
  {
    s[j].Id() !in used && Compatible(s[i].request, s[j].request, now)
  }

  /** The first free compatible player from position `j` on, or the length of the listing. */
  function FirstPartner(s: seq<Queued>, used: set<string>, i: nat, j: nat, now: real): (k: nat)
    requires i < j <= |s|
    ensures j <= k <= |s|
    ensures k < |s| ==> Eligible(s, used, i, k, now)
    ensures forall x :: j <= x < k ==> !Eligible(s, used, i, x, now)
    decreases |s| - j
  {
    if j == |s| then j
    else if Eligible(s, used, i, j, now) then j
    else FirstPartner(s, used, i, j + 1, now)
  }

  datatype Pair = Pair(lo: nat, hi: nat)

  function Pairs(s: seq<Queued>, used: set<string>, i: nat, now: real): seq<Pair>
    requires i <= |s|
    decreases |s| - i
  {
    if i == |s| then []
    else if s[i].Id() in used then Pairs(s, used, i + 1, now)
    else
      var j := FirstPartner(s, used, i, i + 1, now);
      if j == |s| then Pairs(s, used, i + 1, now)
      else [Pair(i, j)] + Pairs(s, used + {s[i].Id(), s[j].Id()}, i + 1, now)
  }

  ghost function PairIds(s: seq<Queued>, p: Pair): set<string>
    requires p.lo < |s| && p.hi < |s|
  {
    {s[p.lo].Id(), s[p.hi].Id()}
  }

  ghost predicate InBounds(s: seq<Queued>, pairs: seq<Pair>) {
    forall k :: 0 <= k < |pairs| ==> pairs[k].lo < pairs[k].hi < |s|
  }

  /** Everyone in a pair. */
  ghost function MatchedIds(s: seq<Queued>, pairs: seq<Pair>): set<string>
    requires InBounds(s, pairs)
  {
    if pairs == [] then {}
    else PairIds(s, pairs[0]) + MatchedIds(s, pairs[1..])
  }

  lemma {:induction false} PairsInBounds(s: seq<Queued>, used: set<string>, i: nat, now: real)
    requires i <= |s|
    ensures InBounds(s, Pairs(s, used, i, now))
    decreases |s| - i
  {
    if i < |s| {
      if s[i].Id() in used {
        PairsInBounds(s, used, i + 1, now);
      } else {
        var j := FirstPartner(s, used, i, i + 1, now);
        PairsInBounds(s, if j == |s| then used else used + {s[i].Id(), s[j].Id()}, i + 1, now);
      }
    }
  }

  ghost predicate ClearOf(s: seq<Queued>, pairs: seq<Pair>, used: set<string>)
    requires InBounds(s, pairs)
  {
    forall k :: 0 <= k < |pairs| ==> PairIds(s, pairs[k]) !! used
  }

  lemma OnePairMore(s: seq<Queued>, used: set<string>, pair: Pair, tail: seq<Pair>, now: real)
    requires ValidMatching(s, tail, now) && pair.lo < pair.hi < |s|
    requires Compatible(s[pair.lo].request, s[pair.hi].request, now)
    requires PairIds(s, pair) !! used && ClearOf(s, tail, used + PairIds(s, pair))
    ensures ValidMatching(s, [pair] + tail, now) && ClearOf(s, [pair] + tail, used)
  {
    var pairs := [pair] + tail;
    assert forall k :: 0 < k < |pairs| ==> pairs[k] == tail[k - 1];
  }

  /** Nobody is in two pairs, nobody already used is in any, and each pair is compatible. */
  lemma {:induction false} PairsDisjoint(s: seq<Queued>, used: set<string>, i: nat, now: real)
    requires i <= |s| && DistinctIds(s)
    ensures ValidMatching(s, Pairs(s, used, i, now), now) && ClearOf(s, Pairs(s, used, i, now), used)
    decreases |s| - i
  {
    if i < |s| {
      if s[i].Id() in used {
        PairsDisjoint(s, used, i + 1, now);
      } else {
        var j := FirstPartner(s, used, i, i + 1, now);
        if j == |s| {
          PairsDisjoint(s, used, i + 1, now);
        } else {
          var used' := used + {s[i].Id(), s[j].Id()};
          PairsDisjoint(s, used', i + 1, now);
          OnePairMore(s, used, Pair(i, j), Pairs(s, used', i + 1, now), now);
        }
      }
    }
  }

  /** Everyone from position `i` on who is not used and not paired is incompatible with all later such players. */
  lemma {:induction false} PairsMaximal(s: seq<Queued>, used: set<string>, i: nat, now: real, x: nat, y: nat)
    requires i <= x < y < |s|
    requires InBounds(s, Pairs(s, used, i, now))
    requires s[x].Id() !in used + MatchedIds(s, Pairs(s, used, i, now))
    requires s[y].Id() !in used + MatchedIds(s, Pairs(s, used, i, now))
    ensures !Compatible(s[x].request, s[y].request, now)
    decreases |s| - i
  {
    if s[i].Id() in used {
      PairsMaximal(s, used, i + 1, now, x, y);
    } else {
      var j := FirstPartner(s, used, i, i + 1, now);
      if j == |s| {
        if x == i {
          assert !Eligible(s, used, i, y, now);
        } else {
          PairsMaximal(s, used, i + 1, now, x, y);
        }
      } else {
        var used' := used + {s[i].Id(), s[j].Id()};
        PairsInBounds(s, used', i + 1, now);
        var tail := Pairs(s, used', i + 1, now);
        assert Pairs(s, used, i, now)[1..] == tail;
        assert used' + MatchedIds(s, tail) == used + MatchedIds(s, Pairs(s, used, i, now));
        PairsMaximal(s, used', i + 1, now, x, y);
      }
    }
  }

  /**
    The early exit is sound: in a listing ordered by rating, once one player is further above
    than the tolerance reaches, so is everyone after it.
   */
  lemma CutIsSound(s: seq<Queued>, used: set<string>, i: nat, j: nat, now: real)
    requires i < j < |s| && Listed(s)
    requires s[j].Elo() - s[i].Elo() > CurrentTolerance(s[i].request, now)
    ensures FirstPartner(s, used, i, j, now) == |s|
  {
    forall k | j <= k < |s| ensures !Eligible(s, used, i, k, now) {
      assert k == j || Precedes(s[j], s[k]);
    }
  }

  // ------------------------------------------------------- the pairing, in request fields

  /** `k` full steps of five seconds have been waited. */
  ghost predicate Steps(k: nat, waited: real) {
    if waited < 5.0 then k == 0 else 5.0 * k as real <= waited < 5.0 * (k + 1) as real
  }

  /** A rating gap that is accepted after this wait: 100, and 25 more for each full five seconds. */
  ghost predicate Accepts(gap: int, waited: real) {
    exists k: nat :: Steps(k, waited) && -(100 + 25 * k) <= gap <= 100 + 25 * k
  }

  /** One region, or one of the two is "any"; and both accept the rating gap. */
  ghost predicate MayMeet(a: Request, b: Request, now: real) {
    && (a.region == b.region || a.region == "any" || b.region == "any")
    && Accepts(a.elo - b.elo, now - a.enqueuedAt)
    && Accepts(a.elo - b.elo, now - b.enqueuedAt)
  }

  lemma ToleranceSteps(r: Request, now: real, k: nat)
    ensures Steps(k, now - r.enqueuedAt) <==> CurrentTolerance(r, now) == 100 + 25 * k
  {
    var waited := now - r.enqueuedAt;
    if waited > 0.0 {
      var n := (waited / 5.0).Floor;
      assert n as real <= waited / 5.0 < (n + 1) as real;
    }
  }

  lemma AcceptsExactly(gap: int, r: Request, now: real)
    ensures Accepts(gap, now - r.enqueuedAt) <==> Abs(gap) <= CurrentTolerance(r, now)
  {
    var k: nat := (CurrentTolerance(r, now) - 100) / 25;
    assert CurrentTolerance(r, now) == 100 + 25 * k by { ToleranceIsStepped(r, now); }
    ToleranceSteps(r, now, k);
    if Accepts(gap, now - r.enqueuedAt) {
      var j: nat :| Steps(j, now - r.enqueuedAt) && -(100 + 25 * j) <= gap <= 100 + 25 * j;
      ToleranceSteps(r, now, j);
    }
  }

  lemma ToleranceIsStepped(r: Request, now: real)
    ensures (CurrentTolerance(r, now) - 100) % 25 == 0
  {
  }

  lemma MayMeetExactly(a: Request, b: Request, now: real)
    ensures Compatible(a, b, now) <==> MayMeet(a, b, now)
  {
    AcceptsExactly(a.elo - b.elo, a, now);
    AcceptsExactly(a.elo - b.elo, b, now);
  }

  /** The player at position `y` is in one of the pairs whose first player comes before position `x`. */
  ghost predicate TakenBefore(s: seq<Queued>, pairs: seq<Pair>, x: nat, y: nat)
    requires InBounds(s, pairs) && y < |s|
  {
    exists l :: 0 <= l < |pairs| && pairs[l].lo < x && s[y].Id() in PairIds(s, pairs[l])
  }

  /** The player at position `x` would have taken the one at `y`: it got nobody, or somebody later. */
  ghost predicate Prefers(s: seq<Queued>, pairs: seq<Pair>, x: nat, y: nat)
    requires InBounds(s, pairs) && x < |s|
  {
    || s[x].Id() !in MatchedIds(s, pairs)
    || exists l :: 0 <= l < |pairs| && pairs[l].lo == x && y < pairs[l].hi
  }

  /**
    First come, first served: two players who may meet are kept apart only if the earlier was
    itself taken, or got somebody still earlier, or the later was taken by somebody before it.
   */
  ghost predicate FirstServed(s: seq<Queued>, pairs: seq<Pair>, now: real)
    requires InBounds(s, pairs)
  {
    forall x, y :: 0 <= x < y < |s| && MayMeet(s[x].request, s[y].request, now) && Prefers(s, pairs, x, y) ==>
      TakenBefore(s, pairs, x, y)
  }

  ghost predicate Served(s: seq<Queued>, pairs: seq<Pair>, x: nat, y: nat) {
    InBounds(s, pairs) && x < |s| && y < |s| && (Prefers(s, pairs, x, y) ==> TakenBefore(s, pairs, x, y))
  }

  lemma ServedLater(s: seq<Queued>, pair: Pair, tail: seq<Pair>, x: nat, y: nat)
    requires Served(s, tail, x, y) && pair.lo < pair.hi < |s| && pair.lo != x
    requires s[x].Id() !in PairIds(s, pair)
    ensures Served(s, [pair] + tail, x, y)
  {
    var pairs := [pair] + tail;
    assert pairs[1..] == tail && forall l :: 0 <= l < |tail| ==> pairs[l + 1] == tail[l];
    if Prefers(s, pairs, x, y) {
      if l :| 0 <= l < |pairs| && pairs[l].lo == x && y < pairs[l].hi {
        assert tail[l - 1] == pairs[l];
      }
      var l :| 0 <= l < |tail| && tail[l].lo < x && s[y].Id() in PairIds(s, tail[l]);
      assert pairs[l + 1] == tail[l];
    }
  }

  lemma ServedByPair(s: seq<Queued>, pair: Pair, tail: seq<Pair>, x: nat, y: nat)
    requires pair.lo < pair.hi < |s| && InBounds(s, tail) && pair.lo < x < |s| && y == pair.hi
    ensures Served(s, [pair] + tail, x, y)
  {
    assert ([pair] + tail)[0] == pair;
  }

  lemma UsedAreNotFirst(s: seq<Queued>, used: set<string>, pairs: seq<Pair>, x: nat)
    requires InBounds(s, pairs) && x < |s| && s[x].Id() in used
    requires ClearOf(s, pairs, used)
    ensures forall k :: 0 <= k < |pairs| ==> pairs[k].lo != x
  {
    forall k | 0 <= k < |pairs| ensures pairs[k].lo != x {
      assert s[pairs[k].lo].Id() in PairIds(s, pairs[k]);
    }
  }

  /** Of a pair just made, the first has nobody it would rather have met, and the second makes no choice. */
  lemma ServedInPair(s: seq<Queued>, pair: Pair, tail: seq<Pair>, x: nat, y: nat)
    requires pair.lo < pair.hi < |s| && InBounds(s, tail) && x < |s| && y < |s| && (x == pair.lo || x == pair.hi)
    requires forall k :: 0 <= k < |tail| ==> tail[k].lo != x
    requires x == pair.lo ==> pair.hi <= y
    ensures Served(s, [pair] + tail, x, y)
  {
    var pairs := [pair] + tail;
    assert s[x].Id() in PairIds(s, pairs[0]);
    forall l | 0 < l < |pairs| ensures pairs[l].lo != x { assert pairs[l] == tail[l - 1]; }
  }

  lemma PartnerIsNotAfter(s: seq<Queued>, used: set<string>, i: nat, now: real, y: nat)
    requires i < y < |s| && s[y].Id() !in used && Compatible(s[i].request, s[y].request, now)
    ensures FirstPartner(s, used, i, i + 1, now) <= y
  {
    assert Eligible(s, used, i, y, now);
  }

  lemma {:induction false} PairsServe(s: seq<Queued>, used: set<string>, i: nat, now: real, x: nat, y: nat)
    requires i <= x < y < |s| && DistinctIds(s)
    requires s[x].Id() !in used && s[y].Id() !in used && Compatible(s[x].request, s[y].request, now)
    ensures Served(s, Pairs(s, used, i, now), x, y)
    decreases |s| - i
  {
    var j := FirstPartner(s, used, i, i + 1, now);
    if x == i { PartnerIsNotAfter(s, used, i, now, y); }
    if s[i].Id() in used {
      PairsServe(s, used, i + 1, now, x, y);
    } else if j == |s| {
      PairsServe(s, used, i + 1, now, x, y);
    } else {
      var used' := used + {s[i].Id(), s[j].Id()};
      var tail := Pairs(s, used', i + 1, now);
      PairsDisjoint(s, used', i + 1, now);
      if x == i || x == j {
        UsedAreNotFirst(s, used', tail, x);
        ServedInPair(s, Pair(i, j), tail, x, y);
      } else if y == j {
        ServedByPair(s, Pair(i, j), tail, x, y);
      } else {
        PairsServe(s, used', i + 1, now, x, y);
        ServedLater(s, Pair(i, j), tail, x, y);
      }
    }
  }

  // ------------------------------------------------------------------ the matches made

  function MatchOf(a: Request, b: Request, number: nat, now: real): Match {
    Match(number, a.playerId, b.playerId, Half(a.elo + b.elo), now, ResolveRegion(a, b))
  }

  ghost predicate Renders(matches: seq<Match>, s: seq<Queued>, pairs: seq<Pair>, counter: nat, now: real) {
    && InBounds(s, pairs) && |matches| == |pairs|
    && forall k :: 0 <= k < |pairs| ==>
         matches[k] == MatchOf(s[pairs[k].lo].request, s[pairs[k].hi].request, counter + k + 1, now)
  }

  /** The match of these two requests: their names in order, the mean rating cut toward zero, a region both accept. */
  ghost predicate MatchOk(m: Match, a: Request, b: Request, number: nat, now: real) {
    && m.first == a.playerId && m.second == b.playerId && m.number == number && m.createdAt == now
    && (if a.elo + b.elo >= 0 then 0 <= a.elo + b.elo - 2 * m.averageElo <= 1
        else -1 <= a.elo + b.elo - 2 * m.averageElo <= 0)
    && (m.region == a.region || (a.region == "any" && m.region == b.region))
    && (m.region == b.region || b.region == "any")
  }

  /** Every match is of two players who may meet, and says so. */
  ghost predicate MatchesOk(matches: seq<Match>, s: seq<Queued>, pairs: seq<Pair>, counter: nat, now: real) {
    && InBounds(s, pairs) && |matches| == |pairs|
    && forall k :: 0 <= k < |matches| ==>
         var a, b := s[pairs[k].lo].request, s[pairs[k].hi].request;
         MayMeet(a, b, now) && MatchOk(matches[k], a, b, counter + k + 1, now)
  }

  lemma RenderedOk(matches: seq<Match>, s: seq<Queued>, pairs: seq<Pair>, counter: nat, now: real)
    requires Renders(matches, s, pairs, counter, now) && ValidMatching(s, pairs, now)
    ensures MatchesOk(matches, s, pairs, counter, now)
  {
    forall k | 0 <= k < |matches|
      ensures var a, b := s[pairs[k].lo].request, s[pairs[k].hi].request;
              MayMeet(a, b, now) && MatchOk(matches[k], a, b, counter + k + 1, now)
    {
      var a, b := s[pairs[k].lo].request, s[pairs[k].hi].request;
      MayMeetExactly(a, b, now);
    }
  }

  lemma ServedInOrder(s: seq<Queued>, now: real)
    requires DistinctIds(s) && InBounds(s, Pairs(s, {}, 0, now))
    ensures FirstServed(s, Pairs(s, {}, 0, now), now)
  {
    forall x, y | 0 <= x < y < |s| && MayMeet(s[x].request, s[y].request, now)
      ensures Served(s, Pairs(s, {}, 0, now), x, y)
    {
      MayMeetExactly(s[x].request, s[y].request, now);
      PairsServe(s, {}, 0, now, x, y);
    }
  }

  lemma {:induction false} MatchedIdsAppend(s: seq<Queued>, pairs: seq<Pair>, p: Pair)
    requires InBounds(s, pairs) && p.lo < p.hi < |s|
    ensures InBounds(s, pairs + [p]) && MatchedIds(s, pairs + [p]) == MatchedIds(s, pairs) + PairIds(s, p)
  {
    if pairs == [] {
      assert [p][1..] == [];
      assert pairs + [p] == [p];
    } else {
      MatchedIdsAppend(s, pairs[1..], p);
      assert (pairs + [p])[1..] == pairs[1..] + [p];
    }
  }

  /** The outer loop at position `i`: what has been paired, and what the simple form would still pair. */
  ghost predicate Progress(s: seq<Queued>, used: set<string>, pairs: seq<Pair>, i: nat, now: real) {
    && i <= |s| && InBounds(s, pairs) && used == MatchedIds(s, pairs)
    && Pairs(s, {}, 0, now) == pairs + Pairs(s, used, i, now)
  }

  lemma ProgressSkip(s: seq<Queued>, used: set<string>, pairs: seq<Pair>, i: nat, now: real)
    requires i < |s| && Progress(s, used, pairs, i, now)
    ensures s[i].Id() in used || FirstPartner(s, used, i, i + 1, now) == |s| ==> Progress(s, used, pairs, i + 1, now)
  {
  }

  lemma ProgressPair(s: seq<Queued>, used: set<string>, pairs: seq<Pair>, i: nat, now: real)
    requires i < |s| && Progress(s, used, pairs, i, now) && s[i].Id() !in used
    requires FirstPartner(s, used, i, i + 1, now) < |s|
    ensures var j := FirstPartner(s, used, i, i + 1, now);
            Progress(s, used + {s[i].Id(), s[j].Id()}, pairs + [Pair(i, j)], i + 1, now)
  {
    var j := FirstPartner(s, used, i, i + 1, now);
    MatchedIdsAppend(s, pairs, Pair(i, j));
    var tail := Pairs(s, used + {s[i].Id(), s[j].Id()}, i + 1, now);
    assert pairs + ([Pair(i, j)] + tail) == pairs + [Pair(i, j)] + tail;
  }

  /** Each pair is compatible and nobody is in two pairs. */
  ghost predicate ValidMatching(s: seq<Queued>, pairs: seq<Pair>, now: real) {
    && InBounds(s, pairs)
    && (forall k :: 0 <= k < |pairs| ==> Compatible(s[pairs[k].lo].request, s[pairs[k].hi].request, now))
    && (forall k, l :: 0 <= k < l < |pairs| ==> PairIds(s, pairs[k]) !! PairIds(s, pairs[l]))
  }

  ghost predicate NoneCompatible(contents: map<string, Queued>, now: real) {
    forall a, b :: a in contents && b in contents && a != b ==>
      !Compatible(contents[a].request, contents[b].request, now)
  }

  /** No two players in the queue may meet. */
  ghost predicate NoneMayMeet(contents: map<string, Queued>, now: real) {
    forall a, b :: a in contents && b in contents && a != b ==>
      !MayMeet(contents[a].request, contents[b].request, now)
  }

  lemma NoneLeft(contents: map<string, Queued>, now: real)
    requires NoneCompatible(contents, now)
    ensures NoneMayMeet(contents, now)
  {
    forall a, b | a in contents && b in contents && a != b
      ensures !MayMeet(contents[a].request, contents[b].request, now)
    {
      MayMeetExactly(contents[a].request, contents[b].request, now);
    }
  }

  lemma MinusTwice(m: map<string, Queued>, s: set<string>, t: set<string>)
    ensures (m - s) - t == m - (s + t)
  {
  }

  lemma RendersOne(matches: seq<Match>, s: seq<Queued>, pairs: seq<Pair>, counter: nat, now: real, p: Pair)
    requires Renders(matches, s, pairs, counter, now) && p.lo < p.hi < |s|
    ensures Renders(matches + [MatchOf(s[p.lo].request, s[p.hi].request, counter + |pairs| + 1, now)], s, pairs + [p],
            counter, now)
  {
  }

  /** Orders are distinct and used up only to the counter. */
  ghost predicate OrdersOk(contents: map<string, Queued>, counter: nat) {
    DistinctOrders(contents) && forall id :: id in contents ==> contents[id].order <= counter
  }

  lemma OrdersOfFewer(contents: map<string, Queued>, gone: set<string>, counter: nat)
    requires OrdersOk(contents, counter)
    ensures OrdersOk(contents - gone, counter)
  {
  }

  lemma OrdersOfOneMore(contents: map<string, Queued>, q: Queued, counter: nat)
    requires OrdersOk(contents, counter) && q.order == counter + 1
    ensures OrdersOk(contents[q.Id() := q], counter + 1)
  {
  }

  // ------------------------------------------------------------------ waiting times

  ghost function Total(counts: seq<nat>): nat {
    if counts == [] then 0 else counts[0] + Total(counts[1..])
  }

  lemma {:induction false} TotalBump(counts: seq<nat>, i: nat)
    requires i < |counts|
    ensures Total(counts[i := counts[i] + 1]) == Total(counts) + 1
  {
    if i > 0 {
      TotalBump(counts[1..], i - 1);
      assert counts[i := counts[i] + 1][1..] == counts[1..][i - 1 := counts[i] + 1];
    } else {
      assert counts[0 := counts[0] + 1][1..] == counts[1..];
    }
  }

  /** The histogram bar of a waiting time: up to 0, 5, 10, 20, 40 and 80 seconds, and beyond. */
  function Bar(seconds: real): nat {
    if seconds <= 0.0 then 0 else if seconds <= 5.0 then 1 else if seconds <= 10.0 then 2
    else if seconds <= 20.0 then 3 else if seconds <= 40.0 then 4 else if seconds <= 80.0 then 5 else 6
  }

  function In(seconds: real, bar: nat): nat { if Bar(seconds) == bar then 1 else 0 }

  lemma BarFound(seconds: real, i: nat)
    requires i <= |WAIT_BUCKETS| && forall j :: 0 <= j < i ==> seconds > WAIT_BUCKETS[j]
    requires i < |WAIT_BUCKETS| ==> seconds <= WAIT_BUCKETS[i]
    ensures Bar(seconds) == i
  {
    assert WAIT_BUCKETS == [0.0, 5.0, 10.0, 20.0, 40.0, 80.0];
    if i > 0 { assert seconds > WAIT_BUCKETS[i - 1]; }
  }

  /** The waiting times of all in these pairs, added up. */
  ghost function WaitedInAll(s: seq<Queued>, pairs: seq<Pair>, now: real): real
    requires InBounds(s, pairs)
  {
    if pairs == [] then 0.0
    else
      var p := pairs[|pairs| - 1];
      WaitedInAll(s, pairs[..|pairs| - 1], now)
      + (now - s[p.lo].request.enqueuedAt) + (now - s[p.hi].request.enqueuedAt)
  }

  class Matchmaker {
    const queue: InMemoryMatchQueue
    var orderCounter: nat
    var matchCounter: nat
    var matchesCreated: nat
    var lastQueueSize: nat
    var waitBucketCounts: seq<nat>
    var waitOverflow: nat
    var waitSum: real
    var waitCount: nat

    /** Orders are distinct and used up to the counter; every observed wait is in exactly one bucket. */
    ghost predicate Valid()
      reads this, queue
    {
      && queue.Valid()
      && OrdersOk(queue.contents, orderCounter)
      && WaitsValid()
    }

    ghost predicate WaitsValid()
      reads this
    {
      && matchCounter == matchesCreated
      && |waitBucketCounts| == |WAIT_BUCKETS|
      && waitCount == Total(waitBucketCounts) + waitOverflow
      && waitCount == 2 * matchesCreated
    }

    constructor ()
      ensures Valid() && fresh(queue) && queue.contents == map[] && orderCounter == matchesCreated == 0
    {
      queue := new InMemoryMatchQueue();
      orderCounter, matchCounter, matchesCreated, lastQueueSize := 0, 0, 0, 0;
      waitBucketCounts, waitOverflow, waitSum, waitCount := [0, 0, 0, 0, 0, 0], 0, 0.0, 0;
    }

    method Enqueue(request: Request)
      requires Valid()
      modifies this, queue
      ensures Valid()
      ensures queue.contents == old(queue.contents)[request.playerId := Queued(request, orderCounter)]
      ensures orderCounter == old(orderCounter) + 1 && matchesCreated == old(matchesCreated)
      ensures lastQueueSize == |queue.contents|
    {
      OrdersOfOneMore(queue.contents, Queued(request, orderCounter + 1), orderCounter);
      orderCounter := orderCounter + 1;
      queue.Upsert(request, orderCounter);
      lastQueueSize := queue.Size();
    }

    method Cancel(id: string) returns (removed: bool)
      requires Valid()
      modifies this, queue
      ensures Valid()
      ensures removed <==> id in old(queue.contents)
      ensures queue.contents == old(queue.contents) - {id}
      ensures orderCounter == old(orderCounter) && matchesCreated == old(matchesCreated)
      ensures lastQueueSize == |queue.contents|
    {
      removed := queue.Remove(id);
      OrdersOfFewer(old(queue.contents), {id}, orderCounter);
      lastQueueSize := queue.Size();
    }

    /** One observation lands in the first bucket that reaches it, or in the overflow. */
    method ObserveWait(seconds: real)
      requires |waitBucketCounts| == |WAIT_BUCKETS|
      modifies `waitBucketCounts, `waitOverflow, `waitSum, `waitCount
      ensures |waitBucketCounts| == |WAIT_BUCKETS|
      ensures Total(waitBucketCounts) + waitOverflow == old(Total(waitBucketCounts) + waitOverflow) + 1
      ensures waitSum == old(waitSum) + seconds && waitCount == old(waitCount) + 1
      ensures forall i :: 0 <= i < 6 ==> waitBucketCounts[i] == old(waitBucketCounts[i]) + In(seconds, i)
      ensures waitOverflow == old(waitOverflow) + In(seconds, 6)
    {
      waitSum := waitSum + seconds;
      waitCount := waitCount + 1;
      var i := 0;
      while i < |WAIT_BUCKETS| && seconds > WAIT_BUCKETS[i]
        invariant i <= |WAIT_BUCKETS|
        invariant forall j :: 0 <= j < i ==> seconds > WAIT_BUCKETS[j]
      {
        i := i + 1;
      }
      BarFound(seconds, i);
      if i < |WAIT_BUCKETS| {
        TotalBump(waitBucketCounts, i);
        waitBucketCounts := waitBucketCounts[i := waitBucketCounts[i] + 1];
      } else {
        waitOverflow := waitOverflow + 1;
      }
    }

    /** The inner loop, with its early exit: it still finds the first eligible partner. */
    static method FindPartner(s: seq<Queued>, used: set<string>, i: nat, now: real) returns (partner: nat)
      requires i < |s| && Listed(s)
      ensures partner == FirstPartner(s, used, i, i + 1, now)
    {
      var request := s[i].request;
      var tolerance := CurrentTolerance(request, now);
      var j := i + 1;
      while j < |s|
        invariant i < j <= |s|
        invariant FirstPartner(s, used, i, i + 1, now) == FirstPartner(s, used, i, j, now)
      {
        var other := s[j].request;
        if s[j].Id() !in used && RegionsCompatible(request, other) {
          var diff := Abs(request.elo - other.elo);
          if diff <= tolerance && diff <= CurrentTolerance(other, now) {
            return j;
          }
          if other.elo - request.elo > tolerance {
            CutIsSound(s, used, i, j, now);
            return |s|;
          }
        }
        j := j + 1;
      }
      return |s|;
    }

    method RunMatching(now: real) returns (matches: seq<Match>, ghost ordered: seq<Queued>, ghost pairs: seq<Pair>)
      requires Valid()
      modifies this, queue
      ensures Valid()
      // the listing is the unique one, and the pairing is the simple greedy one
      ensures Listed(ordered) && Enumerates(ordered, old(queue.contents))
      ensures pairs == Pairs(ordered, {}, 0, now) && Renders(matches, ordered, pairs, old(matchCounter), now)
      // conservation: exactly the matched players left the queue
      ensures queue.contents == old(queue.contents) - MatchedIds(ordered, pairs)
      ensures matchesCreated == old(matchesCreated) + |matches| && orderCounter == old(orderCounter)
      ensures waitSum == old(waitSum) + WaitedInAll(ordered, pairs, now)
      ensures lastQueueSize == |queue.contents|
      // every match is compatible, nobody is in two, and no two players left could have been matched
      ensures ValidMatching(ordered, pairs, now) && MatchesOk(matches, ordered, pairs, old(matchCounter), now)
      ensures NoneMayMeet(queue.contents, now)
      // whoever comes first in the listing has the first choice
      ensures FirstServed(ordered, pairs, now)
    {
      var listing := queue.FetchOrdered();
      ordered := listing;
      matches, pairs := MatchAll(listing, now);
      lastQueueSize := queue.Size();
      OrdersOfFewer(old(queue.contents), MatchedIds(ordered, pairs), orderCounter);
      PairsDisjoint(ordered, {}, 0, now);
      LeftoversIncompatible(ordered, old(queue.contents), queue.contents, now);
      RenderedOk(matches, ordered, pairs, old(matchCounter), now);
      NoneLeft(queue.contents, now);
      ServedInOrder(ordered, now);
    }

    method MatchAll(listing: seq<Queued>, now: real) returns (matches: seq<Match>, ghost pairs: seq<Pair>)
      requires queue.Valid() && WaitsValid() && Listed(listing)
      modifies this, queue
      ensures queue.Valid() && WaitsValid()
      ensures pairs == Pairs(listing, {}, 0, now) && Renders(matches, listing, pairs, old(matchCounter), now)
      ensures queue.contents == old(queue.contents) - MatchedIds(listing, pairs)
      ensures matchesCreated == old(matchesCreated) + |matches| && orderCounter == old(orderCounter)
      ensures waitSum == old(waitSum) + WaitedInAll(listing, pairs, now)
    {
      matches, pairs := [], [];
      var used: set<string> := {};
      for i := 0 to |listing|
        invariant queue.Valid() && WaitsValid()
        invariant queue.contents == old(queue.contents) - used
        invariant Renders(matches, listing, pairs, old(matchCounter), now)
        invariant Progress(listing, used, pairs, i, now)
        invariant matchCounter == old(matchCounter) + |matches| && orderCounter == old(orderCounter)
        invariant waitSum == old(waitSum) + WaitedInAll(listing, pairs, now)
      {
        used, matches, pairs := MatchAt(listing, i, used, matches, pairs, now, old(queue.contents), old(matchCounter));
      }
      assert pairs + [] == pairs;
    }

    /** The body of the outer loop: `base` and `counter` are the queue and match counter before the run. */
    method MatchAt(listing: seq<Queued>, i: nat, used: set<string>, matches: seq<Match>, ghost pairs: seq<Pair>,
                   now: real, ghost base: map<string, Queued>, ghost counter: nat)
      returns (used': set<string>, matches': seq<Match>, ghost pairs': seq<Pair>)
      requires queue.Valid() && WaitsValid() && Listed(listing) && i < |listing|
      requires queue.contents == base - used && matchCounter == counter + |matches|
      requires Renders(matches, listing, pairs, counter, now) && Progress(listing, used, pairs, i, now)
      modifies this, queue
      ensures queue.Valid() && WaitsValid() && orderCounter == old(orderCounter)
      ensures queue.contents == base - used' && matchCounter == counter + |matches'|
      ensures Renders(matches', listing, pairs', counter, now) && Progress(listing, used', pairs', i + 1, now)
      ensures waitSum == old(waitSum) + WaitedInAll(listing, pairs', now) - WaitedInAll(listing, pairs, now)
    {
      used', matches', pairs' := used, matches, pairs;
      ProgressSkip(listing, used, pairs, i, now);
      if listing[i].Id() !in used {
        var partner := FindPartner(listing, used, i, now);
        if partner < |listing| {
          ProgressPair(listing, used, pairs, i, now);
          RendersOne(matches, listing, pairs, counter, now, Pair(i, partner));
          MinusTwice(base, used, {listing[i].Id(), listing[partner].Id()});
          var m := MakeMatch(listing[i].request, listing[partner].request, now);
          matches' := matches + [m];
          used' := used + {listing[i].Id(), listing[partner].Id()};
          pairs' := pairs + [Pair(i, partner)];
          assert pairs'[..|pairs|] == pairs;
        }
      }
    }

    /** Takes both players off the queue and records the match. */
    method MakeMatch(a: Request, b: Request, now: real) returns (m: Match)
      requires queue.Valid() && WaitsValid()
      modifies this, queue
      ensures queue.Valid() && WaitsValid()
      ensures queue.contents == old(queue.contents) - {a.playerId, b.playerId}
      ensures m == MatchOf(a, b, matchCounter, now)
      ensures matchCounter == old(matchCounter) + 1 && matchesCreated == old(matchesCreated) + 1
      ensures waitSum == old(waitSum) + (now - a.enqueuedAt) + (now - b.enqueuedAt)
      ensures orderCounter == old(orderCounter)
    {
      var r := queue.Remove(a.playerId);
      r := queue.Remove(b.playerId);
      MinusTwice(old(queue.contents), {a.playerId}, {b.playerId});
      assert {a.playerId} + {b.playerId} == {a.playerId, b.playerId};
      m := RecordMatch(a, b, now);
    }

    method RecordMatch(a: Request, b: Request, now: real) returns (m: Match)
      requires WaitsValid()
      modifies `matchesCreated, `matchCounter, `waitBucketCounts, `waitOverflow, `waitSum, `waitCount
      ensures WaitsValid() && m == MatchOf(a, b, matchCounter, now)
      ensures matchCounter == old(matchCounter) + 1 && matchesCreated == old(matchesCreated) + 1
      ensures waitSum == old(waitSum) + (now - a.enqueuedAt) + (now - b.enqueuedAt)
      ensures forall i :: 0 <= i < 6 ==>
                waitBucketCounts[i] == old(waitBucketCounts[i]) + In(now - a.enqueuedAt, i) + In(now - b.enqueuedAt, i)
      ensures waitOverflow == old(waitOverflow) + In(now - a.enqueuedAt, 6) + In(now - b.enqueuedAt, 6)
    {
      matchesCreated := matchesCreated + 1;
      matchCounter := matchCounter + 1;
      m := Match(matchCounter, a.playerId, b.playerId, Half(a.elo + b.elo), now, ResolveRegion(a, b));
      ObserveWait(WaitSeconds(a, now));
      ObserveWait(WaitSeconds(b, now));
    }
  }

  lemma LeftoversIncompatible(s: seq<Queued>, before: map<string, Queued>, after: map<string, Queued>, now: real)
    requires Enumerates(s, before) && InBounds(s, Pairs(s, {}, 0, now))
    requires after == before - MatchedIds(s, Pairs(s, {}, 0, now))
    requires forall id :: id in before ==> before[id].Id() == id
    ensures NoneCompatible(after, now)
  {
    forall a, b | a in after && b in after && a != b ensures !Compatible(after[a].request, after[b].request, now) {
      assert before[a] in s && before[b] in s;
      var x :| 0 <= x < |s| && s[x] == before[a];
      var y :| 0 <= y < |s| && s[y] == before[b];
      CompatibleSymmetric(after[a].request, after[b].request, now);
      if x < y { PairsMaximal(s, {}, 0, now, x, y); } else { PairsMaximal(s, {}, 0, now, y, x); }
    }
  }
}
