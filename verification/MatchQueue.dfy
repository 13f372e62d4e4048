/**
  The arena's in-memory match queue: players in buckets by rating, each bucket a list in
  order of arrival, and an index from player to bucket and list node.

  A list iterator is modelled by the identity of the node it points to, so erasing through
  the index removes exactly that node.  `contents` is the plain map the structure stands for.
 */
module MatchQueue {
  import opened Collections

  datatype Request = Request(playerId: string, elo: int, enqueuedAt: real, region: string)

  datatype Queued = Queued(request: Request, order: nat) {
    function Id(): string { request.playerId }
    function Elo(): int { request.elo }
  }

  datatype Entry = Entry(node: nat, queued: Queued)

  type Bucket = seq<Entry>

  // ------------------------------------------------------------ the representation

  /** The queue as a plain map. */
  type Contents = map<string, Queued>

  type Buckets = map<int, Bucket>

  /** Where a player is: its bucket's rating and its node. */
  type Index = map<string, (int, nat)>

  /** An entry sits in its rating's bucket, and the index names exactly this node for its player. */
  ghost predicate EntryOk(entry: Entry, elo: int, index: Index, nextNode: nat, contents: Contents) {
    && entry.queued.Elo() == elo
    && entry.node < nextNode
    && entry.queued.Id() in index && index[entry.queued.Id()] == (elo, entry.node)
    && entry.queued.Id() in contents && contents[entry.queued.Id()] == entry.queued
  }

  ghost predicate SortedByOrder(b: Bucket) {
    forall i, j :: 0 <= i < j < |b| ==> b[i].queued.order <= b[j].queued.order
  }

  ghost predicate DistinctNodes(b: Bucket) {
    forall i, j :: 0 <= i < j < |b| ==> b[i].node != b[j].node
  }

  ghost predicate BucketOk(b: Bucket, elo: int, index: Index, nextNode: nat, contents: Contents) {
    && SortedByOrder(b) && DistinctNodes(b)
    && forall i :: 0 <= i < |b| ==> EntryOk(b[i], elo, index, nextNode, contents)
  }

  ghost predicate Holds(b: Bucket, node: nat, id: string) {
    exists i :: 0 <= i < |b| && b[i].node == node && b[i].queued.Id() == id
  }

  /** Buckets and index together represent the map `contents`. */
  ghost predicate Represents(buckets: Buckets, index: Index, nextNode: nat, contents: Contents) {
    && index.Keys == contents.Keys
    && BucketsOk(buckets, index, nextNode, contents)
    && IndexOk(buckets, index)
  }

  ghost predicate BucketsOk(buckets: Buckets, index: Index, nextNode: nat, contents: Contents) {
    forall e :: e in buckets ==> buckets[e] != [] && BucketOk(buckets[e], e, index, nextNode, contents)
  }

  ghost predicate IndexOk(buckets: Buckets, index: Index) {
    forall id :: id in index ==> index[id].0 in buckets && Holds(buckets[index[id].0], index[id].1, id)
  }

  // --------------------------------------------------------------- erase and insert

  /** `list::erase` of the node with this identity. */
  function EraseNode(b: Bucket, node: nat): Bucket {
    if b == [] then []
    else if b[0].node == node then b[1..]
    else [b[0]] + EraseNode(b[1..], node)
  }

  lemma {:induction false} EraseNodeAt(b: Bucket, k: nat)
    requires k < |b| && DistinctNodes(b)
    ensures EraseNode(b, b[k].node) == b[..k] + b[k + 1..]
  {
    if k == 0 {
      assert b[..0] + b[1..] == b[1..];
    } else {
      var t := b[1..];
      assert t[k - 1] == b[k] && b[0].node != b[k].node;
      EraseNodeAt(t, k - 1);
      assert [b[0]] + (t[..k - 1] + t[k..]) == b[..k] + b[k + 1..];
    }
  }

  /** A bucket map with an emptied bucket dropped, as both operations leave it. */
  function PutBucket(buckets: Buckets, e: int, b: Bucket): Buckets {
    if b == [] then buckets - {e} else buckets[e := b]
  }

  lemma EraseKeepsBucket(b: Bucket, k: nat, elo: int, index: Index, nextNode: nat, contents: Contents)
    requires k < |b| && BucketOk(b, elo, index, nextNode, contents)
    ensures var id := b[k].queued.Id();
            BucketOk(b[..k] + b[k + 1..], elo, index - {id}, nextNode, contents - {id})
  {
    var id, b' := b[k].queued.Id(), b[..k] + b[k + 1..];
    forall i | 0 <= i < |b'| ensures EntryOk(b'[i], elo, index - {id}, nextNode, contents - {id}) {
      var j := if i < k then i else i + 1;
      assert b'[i] == b[j] && EntryOk(b[j], elo, index, nextNode, contents);
      assert b[j].node != b[k].node;
    }
  }

  lemma OtherBucketKeeps(b: Bucket, e: int, id: string, index: Index, nextNode: nat, contents: Contents)
    requires BucketOk(b, e, index, nextNode, contents) && id in index && index[id].0 != e
    ensures BucketOk(b, e, index - {id}, nextNode, contents - {id})
  {
    forall i | 0 <= i < |b| ensures EntryOk(b[i], e, index - {id}, nextNode, contents - {id}) {
      assert EntryOk(b[i], e, index, nextNode, contents);
    }
  }

  lemma HoldsAfterErase(b: Bucket, k: nat, node: nat, id: string)
    requires k < |b| && Holds(b, node, id) && b[k].queued.Id() != id
    ensures Holds(b[..k] + b[k + 1..], node, id)
  {
    var i :| 0 <= i < |b| && b[i].node == node && b[i].queued.Id() == id;
    var b', j := b[..k] + b[k + 1..], if i < k then i else i - 1;
    assert b'[j] == b[i];
  }

  /** Erasing a player through the index removes it from the represented map. */
  lemma EraseRepresents(buckets: Buckets, index: Index, nextNode: nat, contents: Contents, id: string)
    requires Represents(buckets, index, nextNode, contents) && id in index
    ensures var (e, node) := index[id];
            && e in buckets
            && Represents(PutBucket(buckets, e, EraseNode(buckets[e], node)), index - {id}, nextNode, contents - {id})
  {
    var (e, node) := index[id];
    var b := buckets[e];
    var k :| 0 <= k < |b| && b[k].node == node && b[k].queued.Id() == id;
    EraseNodeAt(b, k);
    EraseKeepsBucket(b, k, e, index, nextNode, contents);
    var b' := b[..k] + b[k + 1..];
    var buckets' := PutBucket(buckets, e, b');
    forall x | x in buckets'
      ensures buckets'[x] != [] && BucketOk(buckets'[x], x, index - {id}, nextNode, contents - {id})
    {
      if x != e { OtherBucketKeeps(buckets[x], x, id, index, nextNode, contents); }
    }
    forall other | other in index - {id}
      ensures index[other].0 in buckets' && Holds(buckets'[index[other].0], index[other].1, other)
    {
      if index[other].0 == e { HoldsAfterErase(b, k, index[other].1, other); }
    }
  }

  function InsertAt(b: Bucket, p: nat, entry: Entry): Bucket
    requires p <= |b|
  {
    b[..p] + [entry] + b[p..]
  }

  /** Where an insertion goes: behind every entry of no later order, before every later one. */
  ghost predicate InsertionPoint(b: Bucket, p: nat, order: nat) {
    && p <= |b|
    && (forall i :: 0 <= i < p ==> b[i].queued.order <= order)
    && (forall i :: p <= i < |b| ==> order < b[i].queued.order)
  }

  lemma InsertKeepsBucket(b: Bucket, p: nat, q: Queued, index: Index, nextNode: nat, contents: Contents)
    requires BucketOk(b, q.Elo(), index, nextNode, contents) && InsertionPoint(b, p, q.order)
    requires q.Id() !in index
    ensures BucketOk(InsertAt(b, p, Entry(nextNode, q)), q.Elo(), index[q.Id() := (q.Elo(), nextNode)],
                     nextNode + 1, contents[q.Id() := q])
  {
    var b' := InsertAt(b, p, Entry(nextNode, q));
    var index', contents' := index[q.Id() := (q.Elo(), nextNode)], contents[q.Id() := q];
    forall i | 0 <= i < |b'| ensures EntryOk(b'[i], q.Elo(), index', nextNode + 1, contents') {
      if i != p {
        var j := if i < p then i else i - 1;
        assert b'[i] == b[j] && EntryOk(b[j], q.Elo(), index, nextNode, contents);
      }
    }
    forall i, j | 0 <= i < j < |b'| ensures b'[i].node != b'[j].node && b'[i].queued.order <= b'[j].queued.order {
      var i0, j0 := if i <= p then i else i - 1, if j <= p then j else j - 1;
      assert i != p ==> b'[i] == b[i0] && EntryOk(b[i0], q.Elo(), index, nextNode, contents);
      assert j != p ==> b'[j] == b[j0] && EntryOk(b[j0], q.Elo(), index, nextNode, contents);
    }
  }

  lemma InsertKeepsOther(b: Bucket, e: int, q: Queued, index: Index, nextNode: nat, contents: Contents)
    requires BucketOk(b, e, index, nextNode, contents) && q.Id() !in index
    ensures BucketOk(b, e, index[q.Id() := (q.Elo(), nextNode)], nextNode + 1, contents[q.Id() := q])
  {
    forall i | 0 <= i < |b|
      ensures EntryOk(b[i], e, index[q.Id() := (q.Elo(), nextNode)], nextNode + 1, contents[q.Id() := q])
    {
      assert EntryOk(b[i], e, index, nextNode, contents);
    }
  }

  lemma HoldsAfterInsert(b: Bucket, p: nat, entry: Entry, node: nat, id: string)
    requires p <= |b| && (Holds(b, node, id) || (entry.node == node && entry.queued.Id() == id))
    ensures Holds(InsertAt(b, p, entry), node, id)
  {
    var b' := InsertAt(b, p, entry);
    assert b'[p] == entry;
    if Holds(b, node, id) {
      var i :| 0 <= i < |b| && b[i].node == node && b[i].queued.Id() == id;
      assert b'[if i < p then i else i + 1] == b[i];
    }
  }

  lemma InsertRepresents(buckets: Buckets, index: Index, nextNode: nat, contents: Contents,
                         q: Queued, b: Bucket, p: nat)
    requires Represents(buckets, index, nextNode, contents) && q.Id() !in index
    requires b == (if q.Elo() in buckets then buckets[q.Elo()] else []) && InsertionPoint(b, p, q.order)
    ensures Represents(buckets[q.Elo() := InsertAt(b, p, Entry(nextNode, q))],
                       index[q.Id() := (q.Elo(), nextNode)], nextNode + 1, contents[q.Id() := q])
  {
    var entry := Entry(nextNode, q);
    var buckets' := buckets[q.Elo() := InsertAt(b, p, entry)];
    var index', contents' := index[q.Id() := (q.Elo(), nextNode)], contents[q.Id() := q];
    InsertKeepsBucket(b, p, q, index, nextNode, contents);
    forall e | e in buckets' ensures buckets'[e] != [] && BucketOk(buckets'[e], e, index', nextNode + 1, contents') {
      if e != q.Elo() { InsertKeepsOther(buckets[e], e, q, index, nextNode, contents); }
    }
    forall id | id in index' ensures index'[id].0 in buckets' && Holds(buckets'[index'[id].0], index'[id].1, id) {
      if index'[id].0 == q.Elo() { HoldsAfterInsert(b, p, entry, index'[id].1, id); }
    }
  }

  // ------------------------------------------------------------------ ordered listing

  /** The comparator of the listing: rating first, then order of arrival. */
  predicate Precedes(a: Queued, b: Queued) {
    a.Elo() < b.Elo() || (a.Elo() == b.Elo() && a.order <= b.order)
  }

  ghost predicate Listed(s: seq<Queued>) {
    forall i, j :: 0 <= i < j < |s| ==> Precedes(s[i], s[j])
  }

  ghost predicate DistinctIds(s: seq<Queued>) {
    forall i, j :: 0 <= i < j < |s| ==> s[i].Id() != s[j].Id()
  }

  /** `s` lists each player of `contents` once and nobody else. */
  ghost predicate Enumerates(s: seq<Queued>, contents: Contents) {
    && DistinctIds(s)
    && (forall i :: 0 <= i < |s| ==> s[i].Id() in contents && contents[s[i].Id()] == s[i])
    && (forall id :: id in contents ==> contents[id] in s)
  }

  ghost predicate DistinctOrders(contents: Contents) {
    forall a, b :: a in contents && b in contents && a != b ==> contents[a].order != contents[b].order
  }

  /** With distinct orders there is only one such listing. */
  lemma {:induction false} ListingUnique(s: seq<Queued>, t: seq<Queued>, contents: Contents)
    requires Listed(s) && Listed(t) && Enumerates(s, contents) && Enumerates(t, contents)
    requires DistinctOrders(contents) && (forall id :: id in contents ==> contents[id].Id() == id)
    ensures s == t
    decreases |s|
  {
    if s == [] {
      assert forall id :: id !in contents;
      assert t != [] ==> t[0].Id() in contents;
    } else {
      assert contents[s[0].Id()] in t;
      FirstIsFirst(s, t, contents);
      var rest := contents - {s[0].Id()};
      TailEnumerates(s, contents);
      TailEnumerates(t, contents);
      ListingUnique(s[1..], t[1..], rest);
    }
  }

  lemma FirstIsFirst(s: seq<Queued>, t: seq<Queued>, contents: Contents)
    requires Listed(s) && Listed(t) && Enumerates(s, contents) && Enumerates(t, contents)
    requires DistinctOrders(contents) && s != [] && t != []
    ensures s[0] == t[0]
  {
    var a, b := s[0], t[0];
    assert contents[a.Id()] in t && contents[b.Id()] in s;
    var i :| 0 <= i < |t| && t[i] == a;
    var j :| 0 <= j < |s| && s[j] == b;
    assert i == 0 || Precedes(b, a);
    assert j == 0 || Precedes(a, b);
  }

  lemma TailEnumerates(s: seq<Queued>, contents: Contents)
    requires Listed(s) && Enumerates(s, contents) && s != []
    requires forall id :: id in contents ==> contents[id].Id() == id
    ensures Listed(s[1..]) && Enumerates(s[1..], contents - {s[0].Id()})
  {
    var rest := contents - {s[0].Id()};
    forall i | 0 <= i < |s[1..]| ensures s[1..][i].Id() in rest && rest[s[1..][i].Id()] == s[1..][i] {
      assert s[1..][i] == s[i + 1];
    }
    forall id | id in rest ensures rest[id] in s[1..] {
      var i :| 0 <= i < |s| && s[i] == contents[id];
      assert i != 0;
      assert s[1..][i - 1] == s[i];
    }
  }

  /** `std::sort` with the comparator, as insertion sort. */
  function Sort(s: seq<Queued>): seq<Queued> {
    if s == [] then [] else Place(s[0], Sort(s[1..]))
  }

  function Place(q: Queued, s: seq<Queued>): seq<Queued> {
    if s == [] || Precedes(q, s[0]) then [q] + s else [s[0]] + Place(q, s[1..])
  }

  lemma {:induction false} PlaceSorts(q: Queued, s: seq<Queued>)
    requires Listed(s)
    ensures Listed(Place(q, s)) && multiset(Place(q, s)) == multiset(s) + multiset{q}
  {
    if s == [] {
    } else if Precedes(q, s[0]) {
      assert multiset([q] + s) == multiset{q} + multiset(s);
    } else {
      PlaceSorts(q, s[1..]);
      var t := Place(q, s[1..]);
      assert s == [s[0]] + s[1..];
      forall i | 0 <= i < |t| ensures Precedes(s[0], t[i]) {
        assert t[i] in multiset(t);
        assert t[i] == q || t[i] in s[1..];
      }
    }
  }

  /** The result is sorted and a permutation of the argument. */
  lemma {:induction false} SortSorts(s: seq<Queued>)
    ensures Listed(Sort(s)) && multiset(Sort(s)) == multiset(s)
  {
    if s == [] {
    } else {
      SortSorts(s[1..]);
      PlaceSorts(s[0], Sort(s[1..]));
      assert s == [s[0]] + s[1..];
    }
  }

  lemma {:induction false} SortOfListed(s: seq<Queued>)
    requires Listed(s)
    ensures Sort(s) == s
  {
    if s == [] {
    } else {
      SortOfListed(s[1..]);
      assert |s| > 1 ==> s[1..][0] == s[1];
      assert s == [s[0]] + s[1..];
    }
  }

  /** What has been collected when the buckets with rating in `rest` are still to come. */
  ghost predicate Collected(s: seq<Queued>, rest: set<int>, contents: Contents) {
    && Listed(s) && DistinctIds(s)
    && (forall i :: 0 <= i < |s| ==> s[i].Id() in contents && contents[s[i].Id()] == s[i] && BelowAll(s[i].Elo(), rest))
    && (forall id :: id in contents && contents[id].Elo() !in rest ==> contents[id] in s)
  }

  ghost predicate BelowAll(elo: int, rest: set<int>) { forall e :: e in rest ==> elo < e }

  function QueuedOf(b: Bucket): seq<Queued> { seq(|b|, i requires 0 <= i < |b| => b[i].queued) }

  lemma CollectBucket(s: seq<Queued>, rest: set<int>, e: int, buckets: Buckets, index: Index,
                      nextNode: nat, contents: Contents)
    requires Represents(buckets, index, nextNode, contents)
    requires rest <= buckets.Keys && e in rest && forall x :: x in rest ==> e <= x
    requires Collected(s, rest, contents)
    ensures Collected(s + QueuedOf(buckets[e]), rest - {e}, contents)
  {
    var b := buckets[e];
    var t := s + QueuedOf(b);
    forall i | 0 <= i < |t|
      ensures t[i].Id() in contents && contents[t[i].Id()] == t[i] && BelowAll(t[i].Elo(), rest - {e})
    {
      CollectedOne(s, b, i, rest, e, index, nextNode, contents);
    }
    forall i, j | 0 <= i < j < |t| ensures t[i].Id() != t[j].Id() && Precedes(t[i], t[j]) {
      CollectedPair(s, b, i, j, rest, e, index, nextNode, contents);
    }
    forall id | id in contents && contents[id].Elo() !in rest - {e} ensures contents[id] in t {
      if contents[id].Elo() == e {
        var k := FindInBucket(buckets, index, nextNode, contents, id);
        assert t[|s| + k] == contents[id];
      }
    }
  }

  lemma CollectedOne(s: seq<Queued>, b: Bucket, i: int, rest: set<int>, e: int,
                     index: Index, nextNode: nat, contents: Contents)
    requires BucketOk(b, e, index, nextNode, contents) && e in rest && forall x :: x in rest ==> e <= x
    requires Collected(s, rest, contents) && 0 <= i < |s| + |b|
    ensures var q := (s + QueuedOf(b))[i];
            q.Id() in contents && contents[q.Id()] == q && BelowAll(q.Elo(), rest - {e})
  {
    if i >= |s| {
      assert EntryOk(b[i - |s|], e, index, nextNode, contents);
    } else {
      assert BelowAll(s[i].Elo(), rest);
    }
  }

  lemma CollectedPair(s: seq<Queued>, b: Bucket, i: int, j: int, rest: set<int>, e: int,
                      index: Index, nextNode: nat, contents: Contents)
    requires BucketOk(b, e, index, nextNode, contents) && e in rest
    requires Collected(s, rest, contents) && 0 <= i < j < |s| + |b|
    ensures var t := s + QueuedOf(b); t[i].Id() != t[j].Id() && Precedes(t[i], t[j])
  {
    if j >= |s| {
      assert EntryOk(b[j - |s|], e, index, nextNode, contents);
      if i >= |s| { assert EntryOk(b[i - |s|], e, index, nextNode, contents); }
    }
  }

  /** Every player is found in the bucket of its own rating. */
  lemma FindInBucket(buckets: Buckets, index: Index, nextNode: nat, contents: Contents, id: string)
    returns (k: nat)
    requires Represents(buckets, index, nextNode, contents) && id in contents
    ensures var e := contents[id].Elo(); e in buckets && k < |buckets[e]| && buckets[e][k].queued == contents[id]
    ensures contents[id].Id() == id
  {
    var (e, node) := index[id];
    var b := buckets[e];
    var i :| 0 <= i < |b| && b[i].node == node && b[i].queued.Id() == id;
    assert EntryOk(b[i], e, index, nextNode, contents);
    k := i;
  }

  lemma {:induction false} LeastRating(s: set<int>) returns (k: int)
    requires s != {}
    ensures k in s && forall j :: j in s ==> k <= j
  {
    var x := Pick(s);
    assert s == {x} + (s - {x});
    k := x;
    if s - {x} != {} {
      var j := LeastRating(s - {x});
      if j < x { k := j; }
    }
  }

  // -------------------------------------------------------------------------- the class

  class InMemoryMatchQueue {
    var buckets: Buckets
    var index: Index
    var nextNode: nat
    ghost var contents: Contents

    ghost predicate Valid()
      reads this
    {
      Represents(buckets, index, nextNode, contents)
    }

    constructor ()
      ensures Valid() && contents == map[]
    {
      buckets, index, nextNode, contents := map[], map[], 0, map[];
    }

    /** Drops a player's node, its bucket when that leaves it empty, and its index entry. */
    method Unlink(id: string)
      requires Valid() && id in index
      modifies this
      ensures Valid() && contents == old(contents) - {id}
    {
      var (e, node) := index[id];
      EraseRepresents(buckets, index, nextNode, contents, id);
      buckets := PutBucket(buckets, e, EraseNode(buckets[e], node));
      index := index - {id};
      contents := contents - {id};
    }

    method Upsert(request: Request, order: nat)
      requires Valid()
      modifies this
      ensures Valid()
      ensures contents == old(contents)[request.playerId := Queued(request, order)]
    {
      if request.playerId in index {
        Unlink(request.playerId);
      }
      Link(request, order);
    }

    method Link(request: Request, order: nat)
      requires Valid() && request.playerId !in index
      modifies this
      ensures Valid() && contents == old(contents)[request.playerId := Queued(request, order)]
    {
      var bucket := if request.elo in buckets then buckets[request.elo] else [];
      var p := FindPosition(bucket, order);
      assert InsertionPoint(bucket, p, order) by {
        if request.elo in buckets { assert BucketOk(bucket, request.elo, index, nextNode, contents); }
      }
      var q := Queued(request, order);
      InsertRepresents(buckets, index, nextNode, contents, q, bucket, p);
      buckets := buckets[request.elo := InsertAt(bucket, p, Entry(nextNode, q))];
      index := index[request.playerId := (request.elo, nextNode)];
      nextNode := nextNode + 1;
      contents := contents[request.playerId := q];
    }

    static method FindPosition(bucket: Bucket, order: nat) returns (p: nat)
      ensures p <= |bucket|
      ensures SortedByOrder(bucket) ==> InsertionPoint(bucket, p, order)
    {
      p := |bucket|;
      for i := 0 to |bucket|
        invariant p == |bucket|
        invariant forall j :: 0 <= j < i ==> bucket[j].queued.order <= order
      {
        if order < bucket[i].queued.order {
          p := i;
          break;
        }
      }
    }

    method Remove(id: string) returns (removed: bool)
      requires Valid()
      modifies this
      ensures Valid()
      ensures removed <==> id in old(contents)
      ensures contents == old(contents) - {id}
    {
      if id !in index {
        return false;
      }
      Unlink(id);
      removed := true;
    }

    /** The listing, and that the buckets already yield it in order: the final sort moves nothing. */
    method FetchOrdered() returns (ordered: seq<Queued>)
      requires Valid()
      ensures Listed(ordered) && Enumerates(ordered, contents)
      ensures forall i, j :: 0 <= i < j < |ordered| ==>
                ordered[i].request.elo < ordered[j].request.elo
                || (ordered[i].request.elo == ordered[j].request.elo && ordered[i].order <= ordered[j].order)
      ensures forall id :: id in contents ==> contents[id].Id() == id
    {
      ordered := [];
      var rest := buckets.Keys;
      forall id | id in contents ensures contents[id].Elo() in rest && contents[id].Id() == id {
        var k := FindInBucket(buckets, index, nextNode, contents, id);
      }
      while rest != {}
        invariant rest <= buckets.Keys && Collected(ordered, rest, contents)
        decreases |rest|
      {
        ghost var w := LeastRating(rest);
        var e :| e in rest && forall x :: x in rest ==> e <= x;
        CollectBucket(ordered, rest, e, buckets, index, nextNode, contents);
        ordered := AppendBucket(ordered, buckets[e]);
        rest := rest - {e};
      }
      SortOfListed(ordered);
      ordered := Sort(ordered);
    }

    static method AppendBucket(ordered: seq<Queued>, bucket: Bucket) returns (t: seq<Queued>)
      ensures t == ordered + QueuedOf(bucket)
    {
      t := ordered;
      for i := 0 to |bucket|
        invariant t == ordered + QueuedOf(bucket[..i])
      {
        t := t + [bucket[i].queued];
      }
      assert bucket[..|bucket|] == bucket;
    }

    method Size() returns (n: nat)
      requires Valid()
      ensures n == |contents|
    {
      assert |index| == |index.Keys| && |contents| == |contents.Keys|;
      n := |index|;
    }
  }
}
