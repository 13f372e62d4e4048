/**
  The in-memory leaderboard: a map from player to score kept beside an ordered index from score
  to players.

  `Ranking` is the reference: take the best entry, then rank what is left.  The index is proved
  to be exactly the scores regrouped, and `TopN` to return exactly a prefix of the ranking.
 */
module Leaderboard {
  import opened Collections

  datatype Entry = Entry(id: string, score: int)

  // -------------------------------------------------------------------------- the order

  /** The lexicographic order of strings. */
  predicate Less(a: string, b: string) {
    if b == [] then false
    else if a == [] then true
    else a[0] < b[0] || (a[0] == b[0] && Less(a[1..], b[1..]))
  }

  lemma {:induction false} LessIsTotal(a: string, b: string)
    ensures (Less(a, b) && !Less(b, a) && a != b) || (Less(b, a) && !Less(a, b) && a != b) || (a == b && !Less(a, b))
  {
    if a != [] && b != [] {
      assert a == [a[0]] + a[1..] && b == [b[0]] + b[1..];
      LessIsTotal(a[1..], b[1..]);
    }
  }

  lemma {:induction false} LessIsTransitive(a: string, b: string, c: string)
    requires Less(a, b) && Less(b, c)
    ensures Less(a, c)
  {
    if a != [] && a[0] == b[0] == c[0] {
      LessIsTransitive(a[1..], b[1..], c[1..]);
    }
  }

  /** At the first place where they differ `a` ends, or has the smaller character. */
  ghost predicate Sooner(a: string, b: string) {
    exists k :: 0 <= k <= |a| && k < |b| && a[..k] == b[..k] && (k < |a| ==> a[k] < b[k])
  }

  lemma {:induction false} LessIsSooner(a: string, b: string)
    ensures Less(a, b) <==> Sooner(a, b)
  {
    forall k | 0 < k <= |a| && k < |b| && a[..k] == b[..k] ensures a[0] == b[0] {
      assert a[..k][0] == b[..k][0];
    }
    if b != [] && a == [] {
      assert a[..0] == b[..0];
    } else if b != [] && a[0] < b[0] {
      assert a[..0] == b[..0];
    } else if b != [] && a[0] == b[0] {
      LessIsSooner(a[1..], b[1..]);
      if k :| 0 <= k <= |a[1..]| && k < |b[1..]| && a[1..][..k] == b[1..][..k]
              && (k < |a[1..]| ==> a[1..][k] < b[1..][k])
      {
        assert a[..k + 1] == [a[0]] + a[1..][..k] && b[..k + 1] == [b[0]] + b[1..][..k];
        assert k + 1 < |a| ==> a[k + 1] == a[1..][k];
        assert b[k + 1] == b[1..][k];
      }
      if k :| 0 <= k <= |a| && k < |b| && a[..k] == b[..k] && (k < |a| ==> a[k] < b[k]) {
        assert a[1..][..k - 1] == a[..k][1..] && b[1..][..k - 1] == b[..k][1..];
        assert k < |a| ==> a[1..][k - 1] == a[k];
        assert b[1..][k - 1] == b[k];
      }
    }
  }

  /** Higher scores first, equal scores by id. */
  predicate Above(x: Entry, y: Entry) {
    x.score > y.score || (x.score == y.score && Less(x.id, y.id))
  }

  lemma AboveIsTotal(x: Entry, y: Entry)
    ensures || (Above(x, y) && !Above(y, x) && x != y)
            || (Above(y, x) && !Above(x, y) && x != y)
            || (x == y && !Above(x, y))
  {
    LessIsTotal(x.id, y.id);
  }

  lemma AboveIsTransitive(x: Entry, y: Entry, z: Entry)
    requires Above(x, y) && Above(y, z)
    ensures Above(x, z)
  {
    if x.score == y.score == z.score {
      LessIsTransitive(x.id, y.id, z.id);
    }
  }

  // -------------------------------------------------------------------------- the ranking

  function EntryOf(scores: map<string, int>, id: string): Entry
    requires id in scores
  {
    Entry(id, scores[id])
  }

  ghost predicate IsBest(scores: map<string, int>, best: string) {
    best in scores && forall id :: id in scores && id != best ==> Above(EntryOf(scores, best), EntryOf(scores, id))
  }

  lemma {:induction false} BestExists(scores: map<string, int>) returns (best: string)
    requires scores != map[]
    ensures IsBest(scores, best)
    decreases |scores|
  {
    var some :| some in scores;
    var rest := scores - {some};
    best := some;
    assert forall id :: id in scores && id != some ==> id in rest;
    if rest != map[] {
      var other := BestExists(rest);
      AboveIsTotal(EntryOf(scores, some), EntryOf(scores, other));
      if Above(EntryOf(scores, some), EntryOf(scores, other)) {
        forall id | id in scores && id != some ensures Above(EntryOf(scores, some), EntryOf(scores, id)) {
          assert id in rest && EntryOf(rest, id) == EntryOf(scores, id);
          if id != other {
            assert Above(EntryOf(rest, other), EntryOf(rest, id));
            AboveIsTransitive(EntryOf(scores, some), EntryOf(scores, other), EntryOf(scores, id));
          }
        }
      } else {
        best := other;
        forall id | id in scores && id != other ensures Above(EntryOf(scores, other), EntryOf(scores, id)) {
          if id != some {
            assert id in rest && Above(EntryOf(rest, other), EntryOf(rest, id));
          }
        }
      }
    }
  }

  ghost function Best(scores: map<string, int>): (best: string)
    requires scores != map[]
    ensures IsBest(scores, best)
  {
    assert exists id :: IsBest(scores, id) by {
      var b := BestExists(scores);
    }
    var b :| IsBest(scores, b);
    b
  }

  /** The players from best to worst. */
  ghost function Ranking(scores: map<string, int>): seq<Entry>
    decreases |scores|
  {
    if scores == map[] then []
    else [EntryOf(scores, Best(scores))] + Ranking(scores - {Best(scores)})
  }

  function Min(a: nat, b: nat): nat { if a < b then a else b }

  ghost function Top(scores: map<string, int>, limit: nat): seq<Entry> {
    var ranking := Ranking(scores);
    ranking[..Min(limit, |ranking|)]
  }

  // -------------------------------------------------------------------------- prefixes of the ranking

  predicate Ranked(r: seq<Entry>) {
    forall i, j :: 0 <= i < j < |r| ==> Above(r[i], r[j])
  }

  predicate Genuine(scores: map<string, int>, r: seq<Entry>) {
    forall i :: 0 <= i < |r| ==> r[i].id in scores && scores[r[i].id] == r[i].score
  }

  predicate AllAbove(r: seq<Entry>, e: Entry) {
    forall i :: 0 <= i < |r| ==> Above(r[i], e)
  }

  /** Everyone who is missing ranks below everyone present. */
  predicate NothingSkipped(scores: map<string, int>, r: seq<Entry>) {
    forall id :: id in scores ==> EntryOf(scores, id) in r || AllAbove(r, EntryOf(scores, id))
  }

  predicate IsPrefix(scores: map<string, int>, r: seq<Entry>) {
    Ranked(r) && Genuine(scores, r) && NothingSkipped(scores, r)
  }

  lemma PrefixGrows(scores: map<string, int>, r: seq<Entry>, e: Entry)
    requires IsPrefix(scores, r)
    requires e.id in scores && EntryOf(scores, e.id) == e && e !in r
    requires forall id :: id in scores && id != e.id && EntryOf(scores, id) !in r ==> Above(e, EntryOf(scores, id))
    ensures IsPrefix(scores, r + [e])
  {
    var r' := r + [e];
    assert AllAbove(r, e);
    forall id | id in scores ensures EntryOf(scores, id) in r' || AllAbove(r', EntryOf(scores, id)) {
      if EntryOf(scores, id) !in r && id != e.id {
        assert AllAbove(r, EntryOf(scores, id));
      } else if id == e.id {
        assert r'[|r|] == e;
      } else {
        var i :| 0 <= i < |r| && r[i] == EntryOf(scores, id);
        assert r'[i] == r[i];
      }
    }
  }

  function Ids(r: seq<Entry>): set<string> {
    set i | 0 <= i < |r| :: r[i].id
  }

  lemma {:induction false} IdsAreDistinct(scores: map<string, int>, r: seq<Entry>)
    requires Ranked(r) && Genuine(scores, r)
    ensures |Ids(r)| == |r| && Ids(r) <= scores.Keys
  {
    if r == [] {
      assert Ids(r) == {};
    } else {
      var last := |r| - 1;
      IdsAreDistinct(scores, r[..last]);
      assert Ids(r) == Ids(r[..last]) + {r[last].id};
      if r[last].id in Ids(r[..last]) {
        var i :| 0 <= i < last && r[i].id == r[last].id;
        assert Above(r[i], r[last]);
        AboveIsTotal(r[i], r[last]);
        assert false;
      }
    }
  }

  lemma SubsetSize<T>(a: set<T>, b: set<T>)
    requires a <= b
    ensures |a| <= |b| && (|a| == |b| ==> a == b)
  {
    assert b == a + (b - a);
  }

  /** A prefix never has more entries than there are players, and has as many only if nobody is missing. */
  lemma PrefixSize(scores: map<string, int>, r: seq<Entry>)
    requires IsPrefix(scores, r)
    ensures |r| <= |scores|
    ensures |r| == |scores| <==> forall id :: id in scores ==> EntryOf(scores, id) in r
  {
    IdsAreDistinct(scores, r);
    SubsetSize(Ids(r), scores.Keys);
    if |r| == |scores| {
      forall id | id in scores ensures EntryOf(scores, id) in r {
        assert id in Ids(r);
        var i :| 0 <= i < |r| && r[i].id == id;
        assert r[i] == EntryOf(scores, id);
      }
    }
    if forall id :: id in scores ==> EntryOf(scores, id) in r {
      forall id | id in scores ensures id in Ids(r) {
        assert EntryOf(scores, id) in r;
      }
      assert Ids(r) == scores.Keys;
    }
  }

  lemma BestFirst(scores: map<string, int>, best: string, tail: seq<Entry>)
    requires IsBest(scores, best) && IsPrefix(scores - {best}, tail)
    ensures Ranked([EntryOf(scores, best)] + tail) && Genuine(scores, [EntryOf(scores, best)] + tail)
  {
    var rest, r := scores - {best}, [EntryOf(scores, best)] + tail;
    forall i, j | 0 <= i < j < |r| ensures Above(r[i], r[j]) {
      assert r[j] == tail[j - 1];
      if i == 0 {
        assert tail[j - 1].id in rest && EntryOf(scores, tail[j - 1].id) == tail[j - 1];
      } else {
        assert r[i] == tail[i - 1];
      }
    }
    forall i | 0 <= i < |r| ensures r[i].id in scores && scores[r[i].id] == r[i].score {
      if i > 0 {
        assert r[i] == tail[i - 1];
      }
    }
  }

  lemma {:induction false} RankingIsPrefix(scores: map<string, int>)
    ensures IsPrefix(scores, Ranking(scores)) && |Ranking(scores)| == |scores|
    decreases |scores|
  {
    if scores != map[] {
      var best := Best(scores);
      var rest := scores - {best};
      var r, tail := Ranking(scores), Ranking(rest);
      RankingIsPrefix(rest);
      PrefixSize(rest, tail);
      BestFirst(scores, best, tail);
      forall id | id in scores ensures EntryOf(scores, id) in r {
        if id != best {
          assert id in rest && EntryOf(rest, id) in tail;
        }
      }
    }
  }

  lemma PrefixOfPrefix(scores: map<string, int>, r: seq<Entry>, n: nat)
    requires IsPrefix(scores, r) && n <= |r|
    ensures IsPrefix(scores, r[..n])
  {
    forall id | id in scores ensures EntryOf(scores, id) in r[..n] || AllAbove(r[..n], EntryOf(scores, id)) {
      if EntryOf(scores, id) in r {
        var i :| 0 <= i < |r| && r[i] == EntryOf(scores, id);
        if i < n {
          assert r[..n][i] == r[i];
        }
      } else {
        assert AllAbove(r, EntryOf(scores, id));
      }
    }
  }

  lemma PrefixesAgreeAt(scores: map<string, int>, r: seq<Entry>, s: seq<Entry>, i: nat)
    requires IsPrefix(scores, r) && IsPrefix(scores, s)
    requires i < |r| && i < |s| && r[..i] == s[..i]
    ensures !Above(r[i], s[i])
  {
    if Above(r[i], s[i]) {
      assert EntryOf(scores, r[i].id) == r[i];
      if r[i] in s {
        var j :| 0 <= j < |s| && s[j] == r[i];
        if j < i {
          assert r[..i][j] == s[..i][j];
          assert Above(r[j], r[i]);
        } else if j > i {
          assert Above(s[i], s[j]);
        }
        AboveIsTotal(r[i], s[i]);
        AboveIsTotal(r[i], r[i]);
      } else {
        assert AllAbove(s, r[i]);
        AboveIsTotal(r[i], s[i]);
      }
      assert false;
    }
  }

  lemma {:induction false} PrefixesAgree(scores: map<string, int>, r: seq<Entry>, s: seq<Entry>, n: nat)
    requires IsPrefix(scores, r) && IsPrefix(scores, s) && n <= |r| && n <= |s|
    ensures r[..n] == s[..n]
  {
    if n > 0 {
      PrefixesAgree(scores, r, s, n - 1);
      PrefixesAgreeAt(scores, r, s, n - 1);
      PrefixesAgreeAt(scores, s, r, n - 1);
      AboveIsTotal(r[n - 1], s[n - 1]);
      assert r[..n] == r[..n - 1] + [r[n - 1]] && s[..n] == s[..n - 1] + [s[n - 1]];
    }
  }

  lemma TopIsPrefix(scores: map<string, int>, limit: nat)
    ensures IsPrefix(scores, Top(scores, limit)) && |Top(scores, limit)| == Min(limit, |scores|)
  {
    RankingIsPrefix(scores);
    PrefixOfPrefix(scores, Ranking(scores), Min(limit, |scores|));
  }

  /**
    The top of the ranking is the only list of its length that holds genuine entries from best to
    worst and skips nobody.
   */
  lemma TopIsUnique(scores: map<string, int>, limit: nat, r: seq<Entry>)
    ensures r == Top(scores, limit) <==> IsPrefix(scores, r) && |r| == Min(limit, |scores|)
  {
    var top := Top(scores, limit);
    TopIsPrefix(scores, limit);
    if IsPrefix(scores, r) && |r| == |top| {
      PrefixesAgree(scores, r, top, |r|);
      assert r[..|r|] == r && top[..|r|] == top;
    }
  }

  ghost predicate Ahead(x: Entry, id: string, score: int) {
    x.score > score || (x.score == score && Sooner(x.id, id))
  }

  /**
    As many entries as there are, up to the limit, each with its player's score, higher scores first
    and equal ones by id, and ahead of every player that is not among them.
   */
  ghost predicate BestOf(scores: map<string, int>, limit: nat, r: seq<Entry>) {
    && |r| == (if limit < |scores| then limit else |scores|)
    && (forall i :: 0 <= i < |r| ==> r[i].id in scores && r[i].score == scores[r[i].id])
    && (forall i, j :: 0 <= i < j < |r| ==> Ahead(r[i], r[j].id, r[j].score))
    && (forall id :: id in scores ==> Entry(id, scores[id]) in r
                                      || forall i :: 0 <= i < |r| ==> Ahead(r[i], id, scores[id]))
  }

  lemma AboveIsAhead(x: Entry, y: Entry)
    ensures Above(x, y) <==> Ahead(x, y.id, y.score)
  {
    LessIsSooner(x.id, y.id);
  }

  lemma TopIsBest(scores: map<string, int>, limit: nat)
    ensures BestOf(scores, limit, Top(scores, limit))
  {
    var r := Top(scores, limit);
    TopIsPrefix(scores, limit);
    forall i, j | 0 <= i < j < |r| ensures Ahead(r[i], r[j].id, r[j].score) {
      AboveIsAhead(r[i], r[j]);
    }
    forall id | id in scores && Entry(id, scores[id]) !in r
      ensures forall i :: 0 <= i < |r| ==> Ahead(r[i], id, scores[id])
    {
      assert AllAbove(r, EntryOf(scores, id));
      forall i | 0 <= i < |r| ensures Ahead(r[i], id, scores[id]) { AboveIsAhead(r[i], EntryOf(scores, id)); }
    }
  }

  // -------------------------------------------------------------------------- the index

  /** The players regrouped by score. */
  ghost function Buckets(scores: map<string, int>): map<int, set<string>> {
    map s | s in scores.Values :: set id | id in scores && scores[id] == s
  }

  function Unlinked(ordered: map<int, set<string>>, id: string, score: int): map<int, set<string>> {
    if score !in ordered then ordered
    else if ordered[score] - {id} == {} then ordered - {score}
    else ordered[score := ordered[score] - {id}]
  }

  function Linked(ordered: map<int, set<string>>, id: string, score: int): map<int, set<string>> {
    ordered[score := (if score in ordered then ordered[score] else {}) + {id}]
  }

  lemma BucketMembers(scores: map<string, int>, s: int, id: string)
    ensures s in Buckets(scores) && id in Buckets(scores)[s] <==> id in scores && scores[id] == s
    ensures s in Buckets(scores) ==> Buckets(scores)[s] != {}
  {
    if s in Buckets(scores) {
      var some :| some in scores && scores[some] == s;
      assert some in Buckets(scores)[s];
    }
  }

  /** An index with exactly the right members and no empty bucket is the regrouped scores. */
  lemma BucketsAreDetermined(scores: map<string, int>, ordered: map<int, set<string>>)
    requires forall s, id :: s in ordered && id in ordered[s] <==> id in scores && scores[id] == s
    requires forall s :: s in ordered ==> ordered[s] != {}
    ensures ordered == Buckets(scores)
  {
    var b := Buckets(scores);
    forall s ensures s in ordered <==> s in b {
      if s in ordered {
        var id :| id in ordered[s];
        BucketMembers(scores, s, id);
      }
      if s in b {
        BucketMembers(scores, s, "");
        var id :| id in b[s];
        BucketMembers(scores, s, id);
      }
    }
    forall s | s in ordered ensures ordered[s] == b[s] {
      forall id ensures id in ordered[s] <==> id in b[s] {
        BucketMembers(scores, s, id);
      }
    }
  }

  lemma UnlinkedBuckets(scores: map<string, int>, id: string)
    requires id in scores
    ensures Unlinked(Buckets(scores), id, scores[id]) == Buckets(scores - {id})
  {
    var b, rest := Buckets(scores), scores - {id};
    var u := Unlinked(b, id, scores[id]);
    BucketMembers(scores, scores[id], id);
    forall s, k ensures s in u && k in u[s] <==> k in rest && rest[k] == s {
      BucketMembers(scores, s, k);
    }
    forall s | s in u ensures u[s] != {} {
      BucketMembers(scores, s, id);
    }
    BucketsAreDetermined(rest, u);
  }

  lemma LinkedBuckets(scores: map<string, int>, id: string, score: int)
    requires id !in scores
    ensures Linked(Buckets(scores), id, score) == Buckets(scores[id := score])
  {
    var b, more := Buckets(scores), scores[id := score];
    var l := Linked(b, id, score);
    forall s, k ensures s in l && k in l[s] <==> k in more && more[k] == s {
      BucketMembers(scores, s, k);
    }
    forall s | s in l ensures l[s] != {} {
      BucketMembers(scores, s, id);
      if s == score {
        assert id in l[s];
      }
    }
    BucketsAreDetermined(more, l);
  }

  // -------------------------------------------------------------------------- in place

  lemma {:induction false} GreatestExists(s: set<int>) returns (m: int)
    requires s != {}
    ensures m in s && forall k :: k in s ==> k <= m
    decreases |s|
  {
    m := Pick(s);
    assert s == (s - {m}) + {m};
    if s - {m} != {} {
      var other := GreatestExists(s - {m});
      if other > m {
        m := other;
      }
    }
  }

  lemma {:induction false} LeastExists(s: set<string>) returns (m: string)
    requires s != {}
    ensures m in s && forall k :: k in s && k != m ==> Less(m, k)
    decreases |s|
  {
    m := Pick(s);
    assert s == (s - {m}) + {m};
    if s - {m} != {} {
      var other := LeastExists(s - {m});
      LessIsTotal(m, other);
      if Less(m, other) {
        forall k | k in s && k != m ensures Less(m, k) {
          if k != other {
            LessIsTransitive(m, other, k);
          }
        }
      } else {
        m := other;
      }
    }
  }

  /** Who is still to be listed: the rest of the current bucket and the buckets not yet visited. */
  ghost predicate Pending(scores: map<string, int>, r: seq<Entry>, rest: set<int>, players: set<string>) {
    forall id :: id in scores ==> (EntryOf(scores, id) in r <==> !(scores[id] in rest || id in players))
  }

  /** The next member of the best bucket extends the list. */
  lemma NextExtends(scores: map<string, int>, r: seq<Entry>, rest: set<int>, players: set<string>, e: Entry)
    requires IsPrefix(scores, r) && Pending(scores, r, rest, players)
    requires forall k :: k in rest ==> k < e.score
    requires forall id :: id in players ==> id in scores && scores[id] == e.score
    requires e.id in players && forall id :: id in players && id != e.id ==> Less(e.id, id)
    ensures IsPrefix(scores, r + [e]) && Pending(scores, r + [e], rest, players - {e.id})
  {
    assert EntryOf(scores, e.id) == e;
    PrefixGrows(scores, r, e);
    forall id | id in scores
      ensures EntryOf(scores, id) in r + [e] <==> !(scores[id] in rest || id in players - {e.id})
    {
      assert EntryOf(scores, id) in r + [e] <==> EntryOf(scores, id) in r || id == e.id;
    }
  }

  class InMemoryLeaderboardStore {
    var scores: map<string, int>
    var ordered: map<int, set<string>>

    /** The index holds exactly the scores. */
    ghost predicate Valid()
      reads this
    {
      ordered == Buckets(scores)
    }

    constructor ()
      ensures Valid() && scores == map[]
    {
      scores, ordered := map[], map[];
    }

    method RemoveFromOrdered(playerId: string, score: int)
      modifies `ordered
      ensures ordered == Unlinked(old(ordered), playerId, score)
    {
      if score !in ordered {
        return;
      }
      ordered := ordered[score := ordered[score] - {playerId}];
      if ordered[score] == {} {
        ordered := ordered - {score};
        assert ordered == old(ordered) - {score};
      }
    }

    method Upsert(playerId: string, score: int)
      requires Valid()
      modifies this
      ensures Valid() && scores == old(scores)[playerId := score]
    {
      if playerId in scores {
        if scores[playerId] == score {
          return;
        }
        UnlinkedBuckets(scores, playerId);
        RemoveFromOrdered(playerId, scores[playerId]);
      }
      ghost var others := scores - {playerId};
      assert playerId !in scores ==> others == scores;
      LinkedBuckets(others, playerId, score);
      assert others[playerId := score] == scores[playerId := score];
      scores := scores[playerId := score];
      var bucket := if score in ordered then ordered[score] else {};
      ordered := ordered[score := bucket + {playerId}];
    }

    method Erase(playerId: string)
      requires Valid()
      modifies this
      ensures Valid() && scores == old(scores) - {playerId}
    {
      if playerId !in scores {
        assert scores - {playerId} == scores;
        return;
      }
      UnlinkedBuckets(scores, playerId);
      RemoveFromOrdered(playerId, scores[playerId]);
      scores := scores - {playerId};
    }

    /** The next key of the ordered index, in descending order. */
    static method NextScore(rest: set<int>) returns (score: int)
      requires rest != {}
      ensures score in rest && forall k :: k in rest ==> k <= score
    {
      ghost var greatest := GreatestExists(rest);
      score :| score in rest && forall k :: k in rest ==> k <= score;
    }

    /** The next member of a bucket, in ascending order. */
    static method NextPlayer(players: set<string>) returns (player: string)
      requires players != {}
      ensures player in players && forall k :: k in players && k != player ==> Less(player, k)
    {
      ghost var least := LeastExists(players);
      player :| player in players && forall k :: k in players && k != player ==> Less(player, k);
    }

    method TopN(limit: nat) returns (result: seq<Entry>)
      requires Valid()
      ensures result == Top(scores, limit) && BestOf(scores, limit, result)
    {
      result := [];
      var remaining: nat := limit;
      var rest := ordered.Keys;
      while rest != {}
        invariant rest <= ordered.Keys && remaining + |result| == limit
        invariant IsPrefix(scores, result) && Pending(scores, result, rest, {})
      {
        var score := NextScore(rest);
        rest := rest - {score};
        var players := ordered[score];
        forall id | id in scores ensures id in players <==> scores[id] == score {
          BucketMembers(scores, score, id);
        }
        assert Pending(scores, result, rest, players);
        while players != {}
          invariant players <= ordered[score] && remaining + |result| == limit
          invariant IsPrefix(scores, result) && Pending(scores, result, rest, players)
        {
          if remaining == 0 {
            PrefixSize(scores, result);
            TopIsUnique(scores, limit, result);
            TopIsBest(scores, limit);
            return;
          }
          var player := NextPlayer(players);
          forall id | id in players ensures id in scores && scores[id] == score {
            BucketMembers(scores, score, id);
          }
          NextExtends(scores, result, rest, players, Entry(player, score));
          players := players - {player};
          result := result + [Entry(player, score)];
          remaining := remaining - 1;
        }
        if remaining == 0 {
          break;
        }
      }
      PrefixSize(scores, result);
      TopIsUnique(scores, limit, result);
      TopIsBest(scores, limit);
    }

    method Get(playerId: string) returns (score: int, found: bool)
      ensures found <==> playerId in scores
      ensures found ==> score == scores[playerId]
    {
      if playerId !in scores {
        return 0, false;
      }
      return scores[playerId], true;
    }
  }
}
