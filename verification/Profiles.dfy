/**
  The player profile service: match results folded into per-player aggregates and a leaderboard
  of ratings, and the two ways in which it lists the top profiles.

  `Record` says what one result does, the class `PlayerProfileService` does it in place over an
  optional leaderboard object.  The rating update is a parameter.
 */
module Profiles {
  import opened Collections
  import opened Leaderboard

  const INITIAL_RATING := 1200

  datatype Totals = Totals(matches: nat, shots: nat, hits: nat, dealt: nat, taken: nat, kills: nat, deaths: nat)

  const NO_TOTALS := Totals(0, 0, 0, 0, 0, 0, 0)

  datatype Stats = Stats(totals: Totals, wins: nat, losses: nat, rating: int)

  const NEW_STATS := Stats(NO_TOTALS, 0, 0, INITIAL_RATING)

  /** What one player did in one match. */
  datatype Line = Line(player: string, shots: nat, hits: nat, dealt: nat, taken: nat, kills: nat, deaths: nat)

  datatype Result = Result(winner: string, loser: string, lines: seq<Line>)

  datatype Profile = Profile(id: string, stats: Stats)

  type Aggregates = map<string, Stats>

  /** `scores` are those of the leaderboard, when there is one. */
  datatype Service = Service(aggregates: Aggregates, scores: Option<map<string, int>>, recorded: nat, updates: nat)

  type Elo = (int, int) -> (int, int)

  // -------------------------------------------------------------------------- recording a result

  function StatsOf(a: Aggregates, id: string): Stats {
    if id in a then a[id] else NEW_STATS
  }

  function Added(t: Totals, line: Line): Totals {
    Totals(t.matches + 1, t.shots + line.shots, t.hits + line.hits, t.dealt + line.dealt, t.taken + line.taken,
           t.kills + line.kills, t.deaths + line.deaths)
  }

  function Credit(a: Aggregates, line: Line): Aggregates {
    var stats := StatsOf(a, line.player);
    a[line.player := stats.(totals := Added(stats.totals, line))]
  }

  function CreditAll(a: Aggregates, lines: seq<Line>): Aggregates {
    if lines == [] then a else Credit(CreditAll(a, lines[..|lines| - 1]), lines[|lines| - 1])
  }

  /** Winner and loser may be the same player: the source updates both through references, so in order. */
  function Decide(a: Aggregates, winner: string, loser: string, elo: Elo): (b: Aggregates)
    ensures b.Keys == a.Keys + {winner, loser}
  {
    var a := a[winner := StatsOf(a, winner)];
    var a := a[loser := StatsOf(a, loser)];
    var a := a[winner := a[winner].(wins := a[winner].wins + 1)];
    var a := a[loser := a[loser].(losses := a[loser].losses + 1)];
    var update := elo(a[winner].rating, a[loser].rating);
    var a := a[winner := a[winner].(rating := update.0)];
    a[loser := a[loser].(rating := update.1)]
  }

  function Record(s: Service, result: Result, elo: Elo): Service {
    var a := Decide(CreditAll(s.aggregates, result.lines), result.winner, result.loser, elo);
    var scores :=
      if s.scores.None? then None
      else Some(s.scores.value[result.winner := a[result.winner].rating][result.loser := a[result.loser].rating]);
    Service(a, scores, s.recorded + 1, s.updates + 2)
  }

  function NewService(withLeaderboard: bool): Service {
    Service(map[], if withLeaderboard then Some(map[]) else None, 0, 0)
  }

  function RecordAll(history: seq<Result>, withLeaderboard: bool, elo: Elo): Service {
    if history == [] then NewService(withLeaderboard)
    else Record(RecordAll(history[..|history| - 1], withLeaderboard, elo), history[|history| - 1], elo)
  }

  // -------------------------------------------------------------------------- the books balance

  /** The matches that `id` won, and those it lost. */
  function Wins(history: seq<Result>, id: string): nat {
    if history == [] then 0
    else Wins(history[..|history| - 1], id) + if history[|history| - 1].winner == id then 1 else 0
  }

  function Losses(history: seq<Result>, id: string): nat {
    if history == [] then 0
    else Losses(history[..|history| - 1], id) + if history[|history| - 1].loser == id then 1 else 0
  }

  /** All the lines of a history, in order. */
  function Lines(history: seq<Result>): seq<Line> {
    if history == [] then [] else Lines(history[..|history| - 1]) + history[|history| - 1].lines
  }

  /** The sum of the lines of one player. */
  function Sum(lines: seq<Line>, id: string): Totals {
    if lines == [] then NO_TOTALS
    else
      var before, line := Sum(lines[..|lines| - 1], id), lines[|lines| - 1];
      if line.player == id then Added(before, line) else before
  }

  /** `after` differs from `before` only in what the lines add to the totals. */
  predicate OnlyTotals(before: Stats, after: Stats) {
    after == before.(totals := after.totals)
  }

  lemma {:induction false} CreditAllKeeps(a: Aggregates, lines: seq<Line>, id: string)
    ensures OnlyTotals(StatsOf(a, id), StatsOf(CreditAll(a, lines), id))
    ensures id in CreditAll(a, lines) <==> id in a || exists i :: 0 <= i < |lines| && lines[i].player == id
  {
    if lines != [] {
      CreditAllKeeps(a, lines[..|lines| - 1], id);
      var last := lines[|lines| - 1];
      if id in CreditAll(a, lines) && id !in a && id != last.player {
        var i :| 0 <= i < |lines| - 1 && lines[..|lines| - 1][i].player == id;
        assert lines[i].player == id;
      }
    }
  }

  lemma {:induction false} CreditAllSums(a: Aggregates, earlier: seq<Line>, lines: seq<Line>, id: string)
    requires StatsOf(a, id).totals == Sum(earlier, id)
    ensures StatsOf(CreditAll(a, lines), id).totals == Sum(earlier + lines, id)
  {
    if lines == [] {
      assert earlier + lines == earlier;
    } else {
      var last := |lines| - 1;
      CreditAllSums(a, earlier, lines[..last], id);
      assert (earlier + lines)[..|earlier + lines| - 1] == earlier + lines[..last];
    }
  }

  lemma DecideCounts(a: Aggregates, winner: string, loser: string, elo: Elo, id: string)
    ensures var before, after := StatsOf(a, id), StatsOf(Decide(a, winner, loser, elo), id);
            && after.totals == before.totals
            && after.wins == before.wins + (if id == winner then 1 else 0)
            && after.losses == before.losses + (if id == loser then 1 else 0)
            && (id != winner && id != loser ==> after == before)
  {
  }

  /**
    Every aggregate is exactly the sum of what was recorded for that player, and the two counters
    count the matches and the rating updates.
   */
  lemma {:induction false} BooksBalance(history: seq<Result>, withLeaderboard: bool, elo: Elo, id: string)
    ensures var s := RecordAll(history, withLeaderboard, elo);
            && StatsOf(s.aggregates, id).totals == Sum(Lines(history), id)
            && StatsOf(s.aggregates, id).wins == Wins(history, id)
            && StatsOf(s.aggregates, id).losses == Losses(history, id)
            && s.recorded == |history| && s.updates == 2 * |history|
  {
    if history != [] {
      var before, result := history[..|history| - 1], history[|history| - 1];
      BooksBalance(before, withLeaderboard, elo, id);
      var s := RecordAll(before, withLeaderboard, elo);
      var credited := CreditAll(s.aggregates, result.lines);
      CreditAllSums(s.aggregates, Lines(before), result.lines, id);
      CreditAllKeeps(s.aggregates, result.lines, id);
      DecideCounts(credited, result.winner, result.loser, elo, id);
    }
  }

  /** One field of one player's lines, added up. */
  function Tally(lines: seq<Line>, id: string, field: Line -> nat): nat {
    if lines == [] then 0
    else
      var last := lines[|lines| - 1];
      Tally(lines[..|lines| - 1], id, field) + if last.player == id then field(last) else 0
  }

  lemma {:induction false} SumIsTally(lines: seq<Line>, id: string)
    ensures var t := Sum(lines, id);
            && t.matches == Tally(lines, id, line => 1)
            && t.shots == Tally(lines, id, (line: Line) => line.shots)
            && t.hits == Tally(lines, id, (line: Line) => line.hits)
            && t.dealt == Tally(lines, id, (line: Line) => line.dealt)
            && t.taken == Tally(lines, id, (line: Line) => line.taken)
            && t.kills == Tally(lines, id, (line: Line) => line.kills)
            && t.deaths == Tally(lines, id, (line: Line) => line.deaths)
  {
    if lines != [] { SumIsTally(lines[..|lines| - 1], id); }
  }

  lemma DecideRates(a: Aggregates, winner: string, loser: string, elo: Elo, id: string)
    ensures var w, l := StatsOf(a, winner).rating, StatsOf(a, loser).rating;
            StatsOf(Decide(a, winner, loser, elo), id).rating
            == if id == loser then elo(w, l).1 else if id == winner then elo(w, l).0 else StatsOf(a, id).rating
  {
  }

  /**
    A result gives its winner and its loser what the rating calculator makes of the two ratings, the
    winner's first (and one who is both what it makes for the loser), and leaves all other
    ratings alone; who was never in a match is rated 1200.
   */
  lemma RatingsExactly(s: Service, result: Result, elo: Elo, id: string)
    ensures var before, after := s.aggregates, Record(s, result, elo).aggregates;
            var w, l := StatsOf(before, result.winner).rating, StatsOf(before, result.loser).rating;
            && StatsOf(after, id).rating
               == (if id == result.loser then elo(w, l).1 else if id == result.winner then elo(w, l).0
                   else StatsOf(before, id).rating)
            && (id !in before ==> StatsOf(before, id).rating == 1200)
  {
    var credited := CreditAll(s.aggregates, result.lines);
    CreditAllKeeps(s.aggregates, result.lines, id);
    CreditAllKeeps(s.aggregates, result.lines, result.winner);
    CreditAllKeeps(s.aggregates, result.lines, result.loser);
    DecideRates(credited, result.winner, result.loser, elo, id);
  }

  // -------------------------------------------------------------------------- the leaderboard follows

  predicate Played(stats: Stats) {
    stats.wins > 0 || stats.losses > 0
  }

  function Ratings(a: Aggregates): map<string, int> {
    map id | id in a :: a[id].rating
  }

  /** Those who have won or lost a match. */
  function PlayedOnly(a: Aggregates): Aggregates {
    map id | id in a && Played(a[id]) :: a[id]
  }

  lemma RecordFollows(s: Service, result: Result, elo: Elo)
    requires s.scores.Some? && s.scores.value == Ratings(PlayedOnly(s.aggregates))
    ensures var s' := Record(s, result, elo); s'.scores.value == Ratings(PlayedOnly(s'.aggregates))
  {
    var s' := Record(s, result, elo);
    var credited := CreditAll(s.aggregates, result.lines);
    forall id
      ensures id in s'.scores.value <==> id in PlayedOnly(s'.aggregates)
      ensures id in s'.scores.value ==> s'.scores.value[id] == s'.aggregates[id].rating
    {
      CreditAllKeeps(s.aggregates, result.lines, id);
      DecideCounts(credited, result.winner, result.loser, elo, id);
    }
  }

  /** After any sequence of results the leaderboard holds the ratings of exactly those who have won or lost. */
  lemma {:induction false} LeaderboardFollows(history: seq<Result>, elo: Elo)
    ensures var s := RecordAll(history, true, elo); s.scores == Some(Ratings(PlayedOnly(s.aggregates)))
  {
    if history == [] {
      assert Ratings(PlayedOnly(map[])) == map[];
    } else {
      LeaderboardFollows(history[..|history| - 1], elo);
      RecordFollows(RecordAll(history[..|history| - 1], true, elo), history[|history| - 1], elo);
    }
  }

  // -------------------------------------------------------------------------- the top profiles

  function BuildProfile(id: string, stats: Stats): Profile {
    Profile(id, stats)
  }

  /** The profiles of the listed players that are known, in the order of the list. */
  function Found(a: Aggregates, top: seq<Entry>): seq<Profile> {
    if top == [] then []
    else
      var before, id := Found(a, top[..|top| - 1]), top[|top| - 1].id;
      if id in a then before + [BuildProfile(id, a[id])] else before
  }

  ghost function ByLeaderboard(a: Aggregates, scores: map<string, int>, limit: nat): seq<Profile> {
    Found(a, Top(scores, limit))
  }

  ghost function BySorting(a: Aggregates, limit: nat): seq<Profile> {
    Found(a, Top(Ratings(a), limit))
  }

  lemma {:induction false} FoundAll(a: Aggregates, top: seq<Entry>)
    requires forall i :: 0 <= i < |top| ==> top[i].id in a
    ensures |Found(a, top)| == |top|
    ensures forall i :: 0 <= i < |top| ==> Found(a, top)[i] == BuildProfile(top[i].id, a[top[i].id])
  {
    if top != [] {
      FoundAll(a, top[..|top| - 1]);
    }
  }

  /** The genuine entries of a part of the players, if nobody of that part is skipped, are found alike in both. */
  lemma {:induction false} FoundInPart(a: Aggregates, part: Aggregates, top: seq<Entry>)
    requires forall i :: 0 <= i < |top| ==> top[i].id in part
    requires forall id :: id in part ==> id in a && a[id] == part[id]
    ensures Found(a, top) == Found(part, top)
  {
    if top != [] {
      FoundInPart(a, part, top[..|top| - 1]);
    }
  }

  /**
    The listing over the leaderboard drops nobody, and is exactly the sorted listing over the
    players who have won or lost, whatever has been recorded.
   */
  lemma LeaderboardListsPlayed(history: seq<Result>, elo: Elo, limit: nat)
    ensures var s := RecordAll(history, true, elo);
            && s.scores.Some?
            && ByLeaderboard(s.aggregates, s.scores.value, limit) == BySorting(PlayedOnly(s.aggregates), limit)
            && |ByLeaderboard(s.aggregates, s.scores.value, limit)| == Min(limit, |PlayedOnly(s.aggregates)|)
  {
    LeaderboardFollows(history, elo);
    var a := RecordAll(history, true, elo).aggregates;
    var part := PlayedOnly(a);
    var top := Top(Ratings(part), limit);
    TopIsPrefix(Ratings(part), limit);
    assert Ratings(part).Keys == part.Keys;
    FoundAll(part, top);
    FoundInPart(a, part, top);
  }

  predicate AllPlayed(a: Aggregates, top: seq<Entry>) {
    forall i :: 0 <= i < |top| ==> top[i].id in a && Played(a[top[i].id])
  }

  lemma PartSize(a: Aggregates)
    ensures Ratings(a).Keys == a.Keys && PlayedOnly(a).Keys <= a.Keys && |PlayedOnly(a)| <= |a|
  {
    SubsetSize(PlayedOnly(a).Keys, a.Keys);
  }

  /** If the first players of the ranking of all have played, they are the first of those who have. */
  lemma TopOfPart(a: Aggregates, limit: nat)
    requires AllPlayed(a, Top(Ratings(a), limit))
    ensures Top(Ratings(PlayedOnly(a)), limit) == Top(Ratings(a), limit)
  {
    var all, part := Ratings(a), Ratings(PlayedOnly(a));
    var top := Top(all, limit);
    TopIsPrefix(all, limit);
    PartSize(a);
    assert part.Keys == PlayedOnly(a).Keys;
    forall id | id in part ensures EntryOf(part, id) in top || AllAbove(top, EntryOf(part, id)) {
      assert EntryOf(all, id) == EntryOf(part, id);
    }
    assert IsPrefix(part, top);
    PrefixSize(part, top);
    TopIsUnique(part, limit, top);
  }

  /**
    The two listings of the source agree exactly when everybody in the sorted one has won or
    lost a match: a player known only from match lines is on no leaderboard.
   */
  lemma ListingsAgreeExactly(history: seq<Result>, elo: Elo, limit: nat)
    ensures var s := RecordAll(history, true, elo);
            s.scores.Some?
            && (ByLeaderboard(s.aggregates, s.scores.value, limit) == BySorting(s.aggregates, limit)
                <==> AllPlayed(s.aggregates, Top(Ratings(s.aggregates), limit)))
  {
    LeaderboardListsPlayed(history, elo, limit);
    LeaderboardFollows(history, elo);
    var s := RecordAll(history, true, elo);
    var a := s.aggregates;
    var all, part := Top(Ratings(a), limit), Top(s.scores.value, limit);
    TopIsPrefix(Ratings(a), limit);
    TopIsPrefix(s.scores.value, limit);
    FoundAll(a, all);
    FoundAll(a, part);
    if AllPlayed(a, all) {
      TopOfPart(a, limit);
    }
    if Found(a, part) == Found(a, all) {
      forall i | 0 <= i < |all| ensures all[i].id in a && Played(a[all[i].id]) {
        assert Found(a, part)[i] == Found(a, all)[i];
        assert part[i].id == all[i].id;
      }
    }
  }

  ghost predicate ListingsAgree(s: Service, limit: nat) {
    s.scores.Some? ==> ByLeaderboard(s.aggregates, s.scores.value, limit) == BySorting(s.aggregates, limit)
  }

  ghost predicate EverybodyPlayed(a: Aggregates) {
    forall id :: id in a ==> Played(a[id])
  }

  /** The listing of all players contains everybody. */
  lemma TopOfAll(a: Aggregates, id: string) returns (i: nat)
    requires id in a
    ensures var top := Top(Ratings(a), |a|); i < |top| && top[i].id == id
  {
    PartSize(a);
    TopIsPrefix(Ratings(a), |a|);
    PrefixSize(Ratings(a), Top(Ratings(a), |a|));
    assert EntryOf(Ratings(a), id) in Top(Ratings(a), |a|);
    i :| 0 <= i < |Top(Ratings(a), |a|)| && Top(Ratings(a), |a|)[i] == EntryOf(Ratings(a), id);
  }

  /** The listings agree for every limit exactly if everybody known has won or lost a match. */
  lemma ListingsAlwaysAgree(history: seq<Result>, elo: Elo)
    ensures var s := RecordAll(history, true, elo);
            (forall limit: nat :: ListingsAgree(s, limit)) <==> EverybodyPlayed(s.aggregates)
  {
    var s := RecordAll(history, true, elo);
    var a := s.aggregates;
    if EverybodyPlayed(a) {
      forall limit: nat ensures ListingsAgree(s, limit) {
        TopIsPrefix(Ratings(a), limit);
        ListingsAgreeExactly(history, elo, limit);
      }
    }
    if forall limit: nat :: ListingsAgree(s, limit) {
      assert ListingsAgree(s, |a|);
      ListingsAgreeExactly(history, elo, |a|);
      forall id | id in a ensures Played(a[id]) {
        var i := TopOfAll(a, id);
      }
    }
  }

  predicate InLines(lines: seq<Line>, id: string) {
    exists i :: 0 <= i < |lines| && lines[i].player == id
  }

  /** The player won or lost a match, or appears in the lines of one. */
  predicate Occurs(history: seq<Result>, id: string) {
    history != []
    && var last := history[|history| - 1];
       Occurs(history[..|history| - 1], id) || last.winner == id || last.loser == id || InLines(last.lines, id)
  }

  lemma {:induction false} KnownExactly(history: seq<Result>, elo: Elo, id: string)
    ensures id in RecordAll(history, true, elo).aggregates <==> Occurs(history, id)
  {
    if history != [] {
      var before, last := history[..|history| - 1], history[|history| - 1];
      KnownExactly(before, elo, id);
      CreditAllKeeps(RecordAll(before, true, elo).aggregates, last.lines, id);
    }
  }

  /** Everybody who appears in any match has won or lost one. */
  ghost predicate NoSpectators(history: seq<Result>) {
    forall id :: Occurs(history, id) ==> Wins(history, id) > 0 || Losses(history, id) > 0
  }

  /** Before any call: the listings will agree for every limit exactly if no match had a mere spectator. */
  lemma ListingsAgreeWithoutSpectators(history: seq<Result>, elo: Elo)
    ensures (forall limit: nat :: ListingsAgree(RecordAll(history, true, elo), limit)) <==> NoSpectators(history)
  {
    var a := RecordAll(history, true, elo).aggregates;
    ListingsAlwaysAgree(history, elo);
    forall id ensures id in a <==> Occurs(history, id)
      ensures id in a ==> (Played(a[id]) <==> Wins(history, id) > 0 || Losses(history, id) > 0)
    {
      KnownExactly(history, elo, id);
      BooksBalance(history, true, elo, id);
    }
  }

  lemma OneResult(result: Result, elo: Elo)
    ensures RecordAll([result], true, elo) == Record(NewService(true), result, elo)
  {
    var before := [result][..|[result]| - 1];
    assert before == [];
    assert RecordAll(before, true, elo) == NewService(true);
  }

  lemma OneLine(a: Aggregates, line: Line)
    ensures CreditAll(a, [line]) == Credit(a, line)
  {
    var before := [line][..|[line]| - 1];
    assert before == [];
    assert CreditAll(a, before) == a;
  }

  function Spectated(won: int, lost: int): map<string, int> {
    map["a" := won, "b" := lost, "c" := INITIAL_RATING]
  }

  lemma SpectatorSecond(won: int, lost: int)
    requires won > INITIAL_RATING > lost
    ensures Top(Spectated(won, lost), 2) == [Entry("a", won), Entry("c", INITIAL_RATING)]
  {
    var all, top := Spectated(won, lost), [Entry("a", won), Entry("c", INITIAL_RATING)];
    assert top[0] in top && top[1] in top;
    assert IsPrefix(all, top);
    assert |all.Keys| == |{"a", "b", "c"}| == 3;
    TopIsUnique(all, 2, top);
  }

  /** They do differ: one match with a spectator's line, and the first two of the ranking. */
  lemma ListingsCanDiffer(line: Line, elo: Elo)
    requires line.player == "c" &&
            elo(INITIAL_RATING, INITIAL_RATING).0 > INITIAL_RATING > elo(INITIAL_RATING, INITIAL_RATING).1
    ensures var s := RecordAll([Result("a", "b", [line])], true, elo);
            s.scores.Some? && ByLeaderboard(s.aggregates, s.scores.value, 2) != BySorting(s.aggregates, 2)
  {
    var result := Result("a", "b", [line]);
    var s := RecordAll([result], true, elo);
    OneResult(result, elo);
    OneLine(map[], line);
    var won, lost := elo(INITIAL_RATING, INITIAL_RATING).0, elo(INITIAL_RATING, INITIAL_RATING).1;
    assert s.aggregates == Decide(Credit(map[], line), "a", "b", elo);
    assert Ratings(s.aggregates) == Spectated(won, lost);
    SpectatorSecond(won, lost);
    assert !Played(s.aggregates["c"]);
    ListingsAgreeExactly([result], elo, 2);
    assert Top(Ratings(s.aggregates), 2)[1].id == "c";
  }

  // -------------------------------------------------------------------------- in place

  function EntryFor(p: Profile): Entry {
    Entry(p.id, p.stats.rating)
  }

  /** The comparison of the source's sort, higher ratings first and equal ratings by id. */
  function Place(p: Profile, s: seq<Profile>): seq<Profile> {
    if s == [] || Above(EntryFor(p), EntryFor(s[0])) then [p] + s else [s[0]] + Place(p, s[1..])
  }

  function Sorted(s: seq<Profile>): seq<Profile> {
    if s == [] then [] else Place(s[0], Sorted(s[1..]))
  }

  function Entries(s: seq<Profile>): seq<Entry> {
    seq(|s|, i requires 0 <= i < |s| => EntryFor(s[i]))
  }

  predicate InOrder(s: seq<Profile>) {
    forall i, j :: 0 <= i < j < |s| ==> Above(EntryFor(s[i]), EntryFor(s[j]))
  }

  predicate Unlike(p: Profile, s: seq<Profile>) {
    forall i :: 0 <= i < |s| ==> s[i].id != p.id
  }

  predicate Distinct(s: seq<Profile>) {
    forall i, j :: 0 <= i < j < |s| ==> s[i].id != s[j].id
  }

  lemma {:induction false} PlaceMembers(p: Profile, s: seq<Profile>, q: Profile)
    ensures q in Place(p, s) <==> q == p || q in s
  {
    if s != [] {
      assert s == [s[0]] + s[1..];
      PlaceMembers(p, s[1..], q);
    }
  }

  lemma BeforeAll(p: Profile, s: seq<Profile>)
    requires InOrder(s) && s != [] && Above(EntryFor(p), EntryFor(s[0]))
    ensures InOrder([p] + s)
  {
    forall j | 0 <= j < |s| ensures Above(EntryFor(p), EntryFor(s[j])) {
      if j > 0 {
        AboveIsTransitive(EntryFor(p), EntryFor(s[0]), EntryFor(s[j]));
      }
    }
  }

  lemma {:induction false} PlaceKeepsOrder(p: Profile, s: seq<Profile>)
    requires InOrder(s) && Unlike(p, s)
    ensures InOrder(Place(p, s))
  {
    if s != [] {
      if Above(EntryFor(p), EntryFor(s[0])) {
        BeforeAll(p, s);
      } else {
        AboveIsTotal(EntryFor(p), EntryFor(s[0]));
        PlaceKeepsOrder(p, s[1..]);
        var tail := Place(p, s[1..]);
        forall j | 0 <= j < |tail| ensures Above(EntryFor(s[0]), EntryFor(tail[j])) {
          PlaceMembers(p, s[1..], tail[j]);
        }
      }
    }
  }

  lemma {:induction false} SortedMembers(s: seq<Profile>, q: Profile)
    ensures q in Sorted(s) <==> q in s
  {
    if s != [] {
      SortedMembers(s[1..], q);
      PlaceMembers(s[0], Sorted(s[1..]), q);
      assert s == [s[0]] + s[1..];
    }
  }

  lemma {:induction false} SortedInOrder(s: seq<Profile>)
    requires Distinct(s)
    ensures InOrder(Sorted(s))
  {
    if s != [] {
      SortedInOrder(s[1..]);
      var tail := Sorted(s[1..]);
      forall i | 0 <= i < |tail| ensures tail[i].id != s[0].id {
        SortedMembers(s[1..], tail[i]);
      }
      PlaceKeepsOrder(s[0], tail);
    }
  }

  /** `s` lists the profile of everybody exactly once. */
  predicate Complete(a: Aggregates, s: seq<Profile>) {
    && Distinct(s)
    && (forall i :: 0 <= i < |s| ==> s[i].id in a && s[i].stats == a[s[i].id])
    && forall id :: id in a ==> Profile(id, a[id]) in s
  }

  lemma SortedGenuine(a: Aggregates, s: seq<Profile>)
    requires Complete(a, s)
    ensures forall i :: 0 <= i < |Sorted(s)| ==> Sorted(s)[i].id in a && Sorted(s)[i].stats == a[Sorted(s)[i].id]
  {
    var r := Sorted(s);
    forall i | 0 <= i < |r| ensures r[i].id in a && r[i].stats == a[r[i].id] {
      SortedMembers(s, r[i]);
    }
  }

  lemma SortedComplete(a: Aggregates, s: seq<Profile>, id: string)
    requires Complete(a, s) && id in a
    ensures Entry(id, a[id].rating) in Entries(Sorted(s))
  {
    var r := Sorted(s);
    SortedMembers(s, Profile(id, a[id]));
    var i :| 0 <= i < |r| && r[i] == Profile(id, a[id]);
    assert Entries(r)[i] == Entry(id, a[id].rating);
  }

  lemma SortedIsPrefix(a: Aggregates, s: seq<Profile>)
    requires Complete(a, s)
    ensures IsPrefix(Ratings(a), Entries(Sorted(s))) && |Sorted(s)| == |a|
  {
    var all, r := Ratings(a), Entries(Sorted(s));
    SortedInOrder(s);
    SortedGenuine(a, s);
    forall id | id in all ensures EntryOf(all, id) in r {
      SortedComplete(a, s, id);
    }
    PrefixSize(all, r);
    PartSize(a);
  }

  lemma FoundEntries(a: Aggregates, s: seq<Profile>)
    requires forall i :: 0 <= i < |s| ==> s[i].id in a && s[i].stats == a[s[i].id]
    ensures Found(a, Entries(s)) == s
  {
    var r := Entries(s);
    FoundAll(a, r);
    forall i | 0 <= i < |s| ensures Found(a, r)[i] == s[i] {
      assert r[i].id == s[i].id;
    }
  }

  lemma CutIsTop(a: Aggregates, sorted: seq<Profile>, limit: nat)
    requires IsPrefix(Ratings(a), Entries(sorted)) && |sorted| == |a| == |Ratings(a)|
    requires forall i :: 0 <= i < |sorted| ==> sorted[i].id in a && sorted[i].stats == a[sorted[i].id]
    ensures sorted[..Min(limit, |sorted|)] == BySorting(a, limit)
  {
    var cut := sorted[..Min(limit, |sorted|)];
    assert Entries(cut) == Entries(sorted)[..|cut|];
    PrefixOfPrefix(Ratings(a), Entries(sorted), |cut|);
    TopIsUnique(Ratings(a), limit, Entries(cut));
    FoundEntries(a, cut);
  }

  /** Sorting all profiles and cutting the list gives the top of the ranking. */
  lemma SortingGivesTop(a: Aggregates, s: seq<Profile>, limit: nat)
    requires Complete(a, s)
    ensures Sorted(s)[..Min(limit, |Sorted(s)|)] == BySorting(a, limit)
  {
    SortedIsPrefix(a, s);
    SortedGenuine(a, s);
    PartSize(a);
    CutIsTop(a, Sorted(s), limit);
  }

  lemma SortingIsBest(a: Aggregates, limit: nat)
    ensures BestOf(Ratings(a), limit, Entries(BySorting(a, limit)))
  {
    var top := Top(Ratings(a), limit);
    TopIsBest(Ratings(a), limit);
    PartSize(a);
    FoundAll(a, top);
    assert Entries(Found(a, top)) == top;
  }

  class PlayerProfileService {
    const leaderboard: InMemoryLeaderboardStore?
    var aggregates: Aggregates
    var recorded: nat
    var updates: nat

    ghost predicate Valid()
      reads this, leaderboard
    {
      leaderboard != null ==> leaderboard.Valid()
    }

    ghost function View(): Service
      reads this, leaderboard
    {
      Service(aggregates, if leaderboard == null then None else Some(leaderboard.scores), recorded, updates)
    }

    constructor (store: InMemoryLeaderboardStore?)
      requires store != null ==> store.Valid()
      ensures Valid() && leaderboard == store
      ensures store != null && store.scores == map[] ==> View() == NewService(true)
      ensures store == null ==> View() == NewService(false)
    {
      leaderboard := store;
      aggregates, recorded, updates := map[], 0, 0;
    }

    method CreditLines(lines: seq<Line>)
      modifies `aggregates
      ensures aggregates == CreditAll(old(aggregates), lines)
    {
      for i := 0 to |lines|
        invariant aggregates == CreditAll(old(aggregates), lines[..i])
      {
        var line := lines[i];
        assert lines[..i + 1][..i] == lines[..i];
        var aggregate := StatsOf(aggregates, line.player);
        aggregate := aggregate.(totals := Added(aggregate.totals, line));
        aggregates := aggregates[line.player := aggregate];
      }
      assert lines[..|lines|] == lines;
    }

    method RecordMatch(result: Result, elo: Elo)
      requires Valid()
      modifies this, leaderboard
      ensures Valid() && View() == Record(old(View()), result, elo)
    {
      CreditLines(result.lines);
      Settle(result.winner, result.loser, elo);
      updates := updates + 2;
      if leaderboard != null {
        leaderboard.Upsert(result.winner, aggregates[result.winner].rating);
        leaderboard.Upsert(result.loser, aggregates[result.loser].rating);
      }
      recorded := recorded + 1;
    }

    method Settle(w: string, l: string, elo: Elo)
      modifies `aggregates
      ensures aggregates == Decide(old(aggregates), w, l, elo)
    {
      aggregates := aggregates[w := StatsOf(aggregates, w)];
      aggregates := aggregates[l := StatsOf(aggregates, l)];
      aggregates := aggregates[w := aggregates[w].(wins := aggregates[w].wins + 1)];
      aggregates := aggregates[l := aggregates[l].(losses := aggregates[l].losses + 1)];
      var update := elo(aggregates[w].rating, aggregates[l].rating);
      aggregates := aggregates[w := aggregates[w].(rating := update.0)];
      aggregates := aggregates[l := aggregates[l].(rating := update.1)];
    }

    /** The profiles in whatever order the unordered map is traversed. */
    method AllProfiles() returns (profiles: seq<Profile>)
      ensures Complete(aggregates, profiles)
    {
      profiles := [];
      var rest := aggregates.Keys;
      while rest != {}
        invariant rest <= aggregates.Keys && Distinct(profiles)
        invariant forall i :: 0 <= i < |profiles| ==>
          profiles[i].id in aggregates && profiles[i].id !in rest && profiles[i].stats == aggregates[profiles[i].id]
        invariant forall id :: id in aggregates && id !in rest ==> Profile(id, aggregates[id]) in profiles
      {
        var id :| id in rest;
        rest := rest - {id};
        profiles := profiles + [BuildProfile(id, aggregates[id])];
      }
    }

    method TopProfiles(limit: nat) returns (profiles: seq<Profile>)
      requires Valid()
      ensures leaderboard == null ==> profiles == BySorting(aggregates, limit)
      ensures leaderboard != null ==> profiles == ByLeaderboard(aggregates, leaderboard.scores, limit)
      ensures forall i :: 0 <= i < |profiles| ==>
                profiles[i].id in aggregates && profiles[i].stats == aggregates[profiles[i].id]
      ensures leaderboard == null ==> BestOf(Ratings(aggregates), limit, Entries(profiles))
    {
      if leaderboard == null {
        profiles := AllProfiles();
        SortingGivesTop(aggregates, profiles, limit);
        SortingIsBest(aggregates, limit);
        SortedGenuine(aggregates, profiles);
        profiles := Sorted(profiles);
        if |profiles| > limit {
          profiles := profiles[..limit];
        }
        return;
      }
      var ordered := leaderboard.TopN(limit);
      profiles := [];
      for i := 0 to |ordered|
        invariant profiles == Found(aggregates, ordered[..i])
        invariant forall k :: 0 <= k < |profiles| ==>
          profiles[k].id in aggregates && profiles[k].stats == aggregates[profiles[k].id]
      {
        assert ordered[..i + 1][..i] == ordered[..i];
        if ordered[i].id in aggregates {
          profiles := profiles + [BuildProfile(ordered[i].id, aggregates[ordered[i].id])];
        }
      }
      assert ordered[..|ordered|] == ordered;
    }
  }
}
