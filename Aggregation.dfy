/** `prepare_analysis_data` (steam_api.py): the summary of a library handed to the
    profile analysis. Playtimes are tenths of an hour, as `EnrichedGame` carries them. */
module Aggregation {
  import opened StableSort
  import opened Library
  import opened Enrichment

  datatype TopGame = TopGame(name: string, playtimeHours: nat, genres: seq<string>)

  datatype RecentGame = RecentGame(name: string, playtime2Weeks: nat)

  /** The dictionary `prepare_analysis_data` returns. */
  datatype AnalysisData = AnalysisData(
    totalPlaytimeHours: nat,
    totalGames: nat,
    playedGames: nat,
    unplayedGames: int,
    topGames: seq<TopGame>,
    genreDistribution: seq<(string, nat)>,
    recentGames: seq<RecentGame>,
    allGameNames: seq<string>)

  /** How many raw game names the summary carries. */
  const NameIndexLimit: nat := 100

  /** The Python dictionary `genre_hours`: its keys in insertion order, and its values. */
  datatype GenreTally = GenreTally(order: seq<string>, hours: map<string, nat>)

  // ---------------------------------------------------------------- counts

  /** The sum of `playtime_forever` over the library, in minutes. */
  function TotalMinutes(games: seq<OwnedGame>): (m: nat)
    ensures forall i :: 0 <= i < |games| ==> Playtime(games[i]) <= m
  {
    if games == [] then 0 else TotalMinutes(games[..|games| - 1]) + games[|games| - 1].playtimeForever.GetOr(0)
  }

  /** The number of games with a positive `playtime_forever`. */
  function PlayedCount(games: seq<OwnedGame>): (n: nat)
    ensures n <= |games|
    ensures n == 0 <==> forall i :: 0 <= i < |games| ==> Playtime(games[i]) <= 0
  {
    if games == [] then 0
    else PlayedCount(games[..|games| - 1]) + (if Playtime(games[|games| - 1]) > 0 then 1 else 0)
  }

  /** No game has playtime exactly when the library's total is zero minutes. */
  lemma {:induction false} NothingPlayedIffZeroTotal(games: seq<OwnedGame>)
    ensures PlayedCount(games) == 0 <==> TotalMinutes(games) == 0
  {
    if games != [] {
      NothingPlayedIffZeroTotal(games[..|games| - 1]);
    }
  }

  // ---------------------------------------------------------------- genre hours

  /** Each genre of `genres` paired with the same hours. */
  function Tagged(genres: seq<string>, h: nat): (cs: seq<(string, nat)>)
    ensures |cs| == |genres|
    ensures forall j :: 0 <= j < |cs| ==> cs[j] == (genres[j], h)
  {
    seq(|genres|, j requires 0 <= j < |genres| => (genres[j], h))
  }

  /** The (genre, hours) pairs one game adds, one per genre it lists. */
  function GameContributions(e: EnrichedGame): seq<(string, nat)> {
    Tagged(e.genres, e.playtimeHours)
  }

  /** The pairs in the order the nested loop meets them. */
  function Contributions(es: seq<EnrichedGame>): seq<(string, nat)> {
    if es == [] then [] else Contributions(es[..|es| - 1]) + GameContributions(es[|es| - 1])
  }

  /** `genre_hours[genre] = genre_hours.get(genre, 0) + hours`. */
  function AddHours(t: GenreTally, genre: string, h: nat): GenreTally {
    var before := if genre in t.hours then t.hours[genre] else 0;
    GenreTally(if genre in t.hours then t.order else t.order + [genre], t.hours[genre := before + h])
  }

  /** One update adds `h` to the genre's hours, 0 when it is new, leaves every other genre
      alone, and appends a new genre to the insertion order. */
  lemma AddHoursEffect(t: GenreTally, genre: string, h: nat)
    ensures AddHours(t, genre, h).hours.Keys == t.hours.Keys + {genre}
    ensures AddHours(t, genre, h).hours[genre] == (if genre in t.hours then t.hours[genre] else 0) + h
    ensures forall g :: g in t.hours && g != genre ==> AddHours(t, genre, h).hours[g] == t.hours[g]
    ensures AddHours(t, genre, h).order == if genre in t.hours then t.order else t.order + [genre]
  {
  }

  /** The dictionary after the loop has seen the pairs `cs`. */
  function TallyOf(cs: seq<(string, nat)>): (t: GenreTally)
    ensures |t.order| <= |cs|
  {
    if cs == [] then GenreTally([], map[]) else AddHours(TallyOf(cs[..|cs| - 1]), cs[|cs| - 1].0, cs[|cs| - 1].1)
  }

  lemma TallySnoc(cs: seq<(string, nat)>, c: (string, nat))
    ensures TallyOf(cs + [c]) == AddHours(TallyOf(cs), c.0, c.1)
  {
    assert (cs + [c])[..|cs|] == cs;
  }

  lemma TallyPrefixStep(done: seq<(string, nat)>, current: seq<(string, nat)>, j: nat)
    requires j < |current|
    ensures TallyOf(done + current[..j + 1]) == AddHours(TallyOf(done + current[..j]), current[j].0, current[j].1)
  {
    assert done + current[..j + 1] == (done + current[..j]) + [current[j]];
    TallySnoc(done + current[..j], current[j]);
  }

  lemma ContributionsSnoc(es: seq<EnrichedGame>, i: nat)
    requires i < |es|
    ensures Contributions(es[..i + 1]) == Contributions(es[..i]) + GameContributions(es[i])
  {
    assert es[..i + 1][..i] == es[..i];
  }

  /** The inner loop: adds the game's hours to each genre it lists, in order. */
  method AddGameHours(order0: seq<string>, hours0: map<string, nat>, game: EnrichedGame, ghost done: seq<(string, nat)>)
    returns (order: seq<string>, hours: map<string, nat>)
    requires GenreTally(order0, hours0) == TallyOf(done)
    ensures GenreTally(order, hours) == TallyOf(done + GameContributions(game))
  {
    order, hours := order0, hours0;
    ghost var current := GameContributions(game);
    var j := 0;
    assert done + current[..0] == done;
    while j < |game.genres|
      invariant 0 <= j <= |game.genres|
      invariant GenreTally(order, hours) == TallyOf(done + current[..j])
    {
      var genre := game.genres[j];
      ghost var t := GenreTally(order, hours);
      var before := if genre in hours then hours[genre] else 0;
      if genre !in hours {
        order := order + [genre];
      }
      hours := hours[genre := before + game.playtimeHours];
      assert GenreTally(order, hours) == AddHours(t, genre, game.playtimeHours);
      TallyPrefixStep(done, current, j);
      assert current[j] == (genre, game.playtimeHours);
      j := j + 1;
    }
    assert current[..j] == current;
  }

  /** The nested loop that fills `genre_hours`. */
  method TallyGenreHours(enriched: seq<EnrichedGame>) returns (order: seq<string>, hours: map<string, nat>)
    ensures GenreTally(order, hours) == TallyOf(Contributions(enriched))
  {
    order, hours := [], map[];
    var i := 0;
    while i < |enriched|
      invariant 0 <= i <= |enriched|
      invariant GenreTally(order, hours) == TallyOf(Contributions(enriched[..i]))
    {
      order, hours := AddGameHours(order, hours, enriched[i], Contributions(enriched[..i]));
      ContributionsSnoc(enriched, i);
      i := i + 1;
    }
    assert enriched[..i] == enriched;
  }

  /** `genre_hours.items()`, in insertion order. */
  function Items(t: GenreTally): (items: seq<(string, nat)>)
    ensures |items| == |t.order|
  {
    seq(|t.order|, i requires 0 <= i < |t.order| =>
      (t.order[i], if t.order[i] in t.hours then t.hours[t.order[i]] else 0))
  }

  function HoursOf(p: (string, nat)): int {
    p.1
  }

  /** `sorted(genre_hours.items(), key=hours, reverse=True)`. */
  function GenreDistribution(enriched: seq<EnrichedGame>): (d: seq<(string, nat)>)
    ensures SortedDesc(d, HoursOf)
    ensures |d| <= |Contributions(enriched)|
  {
    SortDesc(Items(TallyOf(Contributions(enriched))), HoursOf)
  }

  // ---------------------------------------------------------------- what the tally holds

  /** The genres of a sequence of pairs, in order. */
  function Keys(ps: seq<(string, nat)>): (ks: seq<string>)
    ensures |ks| == |ps|
    ensures forall j :: 0 <= j < |ps| ==> ks[j] == ps[j].0
  {
    seq(|ps|, j requires 0 <= j < |ps| => ps[j].0)
  }

  /** The hours the pairs `cs` add up for `genre`. */
  function SumFor(cs: seq<(string, nat)>, genre: string): nat {
    if cs == [] then 0
    else SumFor(cs[..|cs| - 1], genre) + (if cs[|cs| - 1].0 == genre then cs[|cs| - 1].1 else 0)
  }

  lemma {:induction false} SumForAbsent(cs: seq<(string, nat)>, genre: string)
    requires genre !in Keys(cs)
    ensures SumFor(cs, genre) == 0
  {
    if cs != [] {
      assert Keys(cs[..|cs| - 1]) == Keys(cs)[..|cs| - 1];
      SumForAbsent(cs[..|cs| - 1], genre);
    }
  }

  /** The position where `x` first occurs in `s`. */
  function FirstIndex(s: seq<string>, x: string): (i: nat)
    requires x in s
    ensures i < |s| && s[i] == x && x !in s[..i]
  {
    if s[0] == x then 0
    else
      var i := 1 + FirstIndex(s[1..], x);
      assert s[..i] == [s[0]] + s[1..][..i - 1];
      i
  }

  lemma {:induction false} FirstIndexPrefix(s: seq<string>, y: string, x: string)
    requires x in s
    ensures FirstIndex(s + [y], x) == FirstIndex(s, x)
  {
    if s[0] != x {
      assert (s + [y])[1..] == s[1..] + [y];
      FirstIndexPrefix(s[1..], y, x);
    }
  }

  lemma FirstIndexOfNew(s: seq<string>, x: string)
    requires x !in s
    ensures FirstIndex(s + [x], x) == |s|
  {
    assert forall k :: 0 <= k < |s| ==> (s + [x])[k] == s[k];
  }

  /** What `genre_hours` holds after the loop has seen the pairs `cs`: every genre
      once, exactly the genres seen, each with the sum of its hours, in the order
      the genres were first met. */
  ghost predicate TallyDescribes(cs: seq<(string, nat)>, t: GenreTally) {
    Distinct(t.order)
    && (forall g :: g in t.hours <==> g in t.order)
    && (forall g :: g in t.order <==> g in Keys(cs))
    && (forall g :: g in t.hours ==> t.hours[g] == SumFor(cs, g))
    && (forall i, j :: 0 <= i < j < |t.order| ==> FirstIndex(Keys(cs), t.order[i]) < FirstIndex(Keys(cs), t.order[j]))
  }

  lemma {:induction false} TallyFacts(cs: seq<(string, nat)>)
    ensures TallyDescribes(cs, TallyOf(cs))
  {
    if cs != [] {
      var p, c := cs[..|cs| - 1], cs[|cs| - 1];
      TallyFacts(p);
      var t := TallyOf(p);
      var t' := TallyOf(cs);
      assert Keys(cs) == Keys(p) + [c.0];
      forall g | g in t'.hours ensures t'.hours[g] == SumFor(cs, g) {
        if g !in t.hours {
          SumForAbsent(p, g);
        }
      }
      forall i, j | 0 <= i < j < |t'.order|
        ensures FirstIndex(Keys(cs), t'.order[i]) < FirstIndex(Keys(cs), t'.order[j])
      {
        FirstIndexPrefix(Keys(p), c.0, t'.order[i]);
        if j < |t.order| {
          FirstIndexPrefix(Keys(p), c.0, t'.order[j]);
        } else {
          FirstIndexOfNew(Keys(p), c.0);
        }
      }
    }
  }

  lemma ItemsFacts(cs: seq<(string, nat)>)
    requires TallyDescribes(cs, TallyOf(cs))
    ensures Keys(Items(TallyOf(cs))) == TallyOf(cs).order
    ensures Distinct(Items(TallyOf(cs)))
    ensures forall i :: 0 <= i < |TallyOf(cs).order| ==> Items(TallyOf(cs))[i].1 == SumFor(cs, TallyOf(cs).order[i])
  {
  }

  /** The sorted pairs are the dictionary's items rearranged. */
  lemma DistributionIsItems(enriched: seq<EnrichedGame>)
    ensures multiset(GenreDistribution(enriched)) == multiset(Items(TallyOf(Contributions(enriched))))
    ensures forall x :: x in GenreDistribution(enriched) <==> x in Items(TallyOf(Contributions(enriched)))
  {
    var items := Items(TallyOf(Contributions(enriched)));
    var d := GenreDistribution(enriched);
    StableSortIsPermutation(d, items, HoursOf);
    forall x ensures x in d <==> x in items {
      assert x in d <==> multiset(d)[x] > 0;
      assert x in items <==> multiset(items)[x] > 0;
    }
  }

  /** Each genre has one entry in the sorted list. */
  lemma DistributionKeysDistinct(enriched: seq<EnrichedGame>)
    ensures Distinct(Keys(GenreDistribution(enriched)))
  {
    var cs := Contributions(enriched);
    var items := Items(TallyOf(cs));
    var d := GenreDistribution(enriched);
    TallyFacts(cs);
    ItemsFacts(cs);
    DistributionIsItems(enriched);
    PermutationKeepsDistinct(d, items);
    forall i, j | 0 <= i < j < |d| ensures d[i].0 != d[j].0 {
      assert d[i] in items && d[j] in items;
    }
  }

  /** The genre distribution: sorted by hours, one entry per genre that occurs, each
      with the full hours of every game listing it. */
  lemma GenreDistributionFacts(enriched: seq<EnrichedGame>)
    ensures SortedDesc(GenreDistribution(enriched), HoursOf)
    ensures Distinct(Keys(GenreDistribution(enriched)))
    ensures forall g :: g in Keys(GenreDistribution(enriched)) <==> g in Keys(Contributions(enriched))
    ensures forall p :: p in GenreDistribution(enriched) ==> p.1 == SumFor(Contributions(enriched), p.0)
  {
    DistributionKeysDistinct(enriched);
    DistributionKeys(enriched);
    DistributionSums(enriched);
  }

  /** The sorted list names exactly the genres that occur. */
  lemma DistributionKeys(enriched: seq<EnrichedGame>)
    ensures forall g :: g in Keys(GenreDistribution(enriched)) <==> g in Keys(Contributions(enriched))
  {
    var cs := Contributions(enriched);
    var t := TallyOf(cs);
    var items := Items(t);
    var d := GenreDistribution(enriched);
    TallyFacts(cs);
    ItemsFacts(cs);
    DistributionIsItems(enriched);
    forall g ensures g in Keys(d) <==> g in Keys(cs) {
      if g in Keys(d) {
        var i :| 0 <= i < |d| && d[i].0 == g;
        assert d[i] in items;
      }
      if g in Keys(cs) {
        assert g in t.order;
        var i :| 0 <= i < |t.order| && t.order[i] == g;
        assert items[i] in d;
      }
    }
  }

  /** Each entry of the sorted list carries its genre's summed hours. */
  lemma DistributionSums(enriched: seq<EnrichedGame>)
    ensures forall p :: p in GenreDistribution(enriched) ==> p.1 == SumFor(Contributions(enriched), p.0)
  {
    var cs := Contributions(enriched);
    var items := Items(TallyOf(cs));
    TallyFacts(cs);
    ItemsFacts(cs);
    DistributionIsItems(enriched);
    forall p | p in GenreDistribution(enriched) ensures p.1 == SumFor(cs, p.0) {
      assert p in items;
    }
  }

  /** Genres with equal hours stay in the order the loop first met them. */
  lemma GenreTiesInFirstSeenOrder(enriched: seq<EnrichedGame>, i: nat, j: nat)
    requires i < j < |GenreDistribution(enriched)|
    requires GenreDistribution(enriched)[i].1 == GenreDistribution(enriched)[j].1
    ensures GenreDistribution(enriched)[i].0 in Keys(Contributions(enriched))
    ensures GenreDistribution(enriched)[j].0 in Keys(Contributions(enriched))
    ensures FirstIndex(Keys(Contributions(enriched)), GenreDistribution(enriched)[i].0)
      < FirstIndex(Keys(Contributions(enriched)), GenreDistribution(enriched)[j].0)
  {
    var cs := Contributions(enriched);
    var t := TallyOf(cs);
    var items := Items(t);
    var d := GenreDistribution(enriched);
    TallyFacts(cs);
    ItemsFacts(cs);
    StableSortKeepsTieOrder(d, items, HoursOf, i, j);
    var p, q :| 0 <= p < q < |items| && items[p] == d[i] && items[q] == d[j];
    assert t.order[p] == d[i].0 && t.order[q] == d[j].0;
  }

  // ---------------------------------------------------------------- the same, per game

  /** How often `genre` is listed in `genres`. */
  function Occurrences(genres: seq<string>, genre: string): nat {
    if genres == [] then 0
    else Occurrences(genres[..|genres| - 1], genre) + (if genres[|genres| - 1] == genre then 1 else 0)
  }

  /** Every game adds its full hours to each genre it lists; nothing is split. */
  function GenreSum(enriched: seq<EnrichedGame>, genre: string): nat {
    if enriched == [] then 0
    else
      var e := enriched[|enriched| - 1];
      GenreSum(enriched[..|enriched| - 1], genre) + Occurrences(e.genres, genre) * e.playtimeHours
  }

  /** Some enriched game lists `genre`. */
  ghost predicate Listed(enriched: seq<EnrichedGame>, genre: string) {
    exists i :: 0 <= i < |enriched| && genre in enriched[i].genres
  }

  lemma {:induction false} SumForAppend(a: seq<(string, nat)>, b: seq<(string, nat)>, genre: string)
    ensures SumFor(a + b, genre) == SumFor(a, genre) + SumFor(b, genre)
  {
    if b == [] {
      assert a + b == a;
    } else {
      assert (a + b)[..|a + b| - 1] == a + b[..|b| - 1];
      SumForAppend(a, b[..|b| - 1], genre);
    }
  }

  lemma {:induction false} SumForTagged(genres: seq<string>, h: nat, genre: string)
    ensures SumFor(Tagged(genres, h), genre) == Occurrences(genres, genre) * h
  {
    if genres != [] {
      var n := |genres| - 1;
      assert Tagged(genres, h)[..n] == Tagged(genres[..n], h);
      SumForTagged(genres[..n], h, genre);
    }
  }

  lemma {:induction false} SumForIsGenreSum(enriched: seq<EnrichedGame>, genre: string)
    ensures SumFor(Contributions(enriched), genre) == GenreSum(enriched, genre)
  {
    if enriched != [] {
      var n := |enriched| - 1;
      SumForIsGenreSum(enriched[..n], genre);
      SumForAppend(Contributions(enriched[..n]), GameContributions(enriched[n]), genre);
      SumForTagged(enriched[n].genres, enriched[n].playtimeHours, genre);
    }
  }

  lemma {:induction false} ContributedGenres(enriched: seq<EnrichedGame>, genre: string)
    ensures genre in Keys(Contributions(enriched)) <==> Listed(enriched, genre)
  {
    if enriched != [] {
      var n := |enriched| - 1;
      var front, last := Contributions(enriched[..n]), GameContributions(enriched[n]);
      ContributedGenres(enriched[..n], genre);
      assert Keys(front + last) == Keys(front) + Keys(last);
      assert Keys(last) == enriched[n].genres;
      if Listed(enriched[..n], genre) {
        var i :| 0 <= i < n && genre in enriched[..n][i].genres;
        assert genre in enriched[i].genres;
      }
      if Listed(enriched, genre) {
        var i :| 0 <= i < |enriched| && genre in enriched[i].genres;
        if i < n {
          assert genre in enriched[..n][i].genres;
        }
      }
    } else {
      assert !Listed(enriched, genre);
    }
  }

  /** The genre distribution in terms of the games: exactly the listed genres, each
      once, with the sum over the games that list it, non-increasing. */
  lemma GenreDistributionByGame(enriched: seq<EnrichedGame>)
    ensures SortedDesc(GenreDistribution(enriched), HoursOf)
    ensures Distinct(Keys(GenreDistribution(enriched)))
    ensures forall g :: g in Keys(GenreDistribution(enriched)) <==> Listed(enriched, g)
    ensures forall p :: p in GenreDistribution(enriched) ==> p.1 == GenreSum(enriched, p.0)
  {
    GenreDistributionFacts(enriched);
    forall g ensures g in Keys(GenreDistribution(enriched)) <==> Listed(enriched, g) {
      ContributedGenres(enriched, g);
    }
    forall p | p in GenreDistribution(enriched) ensures p.1 == GenreSum(enriched, p.0) {
      SumForIsGenreSum(enriched, p.0);
    }
  }

  // ---------------------------------------------------------------- lists

  /** One entry per enriched game, in order. */
  function TopGames(enriched: seq<EnrichedGame>): (r: seq<TopGame>)
    ensures |r| == |enriched|
    ensures forall i :: 0 <= i < |r| ==>
      r[i] == TopGame(enriched[i].name, enriched[i].playtimeHours, enriched[i].genres)
  {
    seq(|enriched|, i requires 0 <= i < |enriched| =>
      TopGame(enriched[i].name, enriched[i].playtimeHours, enriched[i].genres))
  }

  /** The entry one game adds to the recent list: itself when played lately, else nothing. */
  function RecentEntry(e: EnrichedGame): (r: seq<RecentGame>)
    ensures |r| <= 1
    ensures r != [] <==> e.playtime2Weeks > 0
  {
    if e.playtime2Weeks > 0 then [RecentGame(e.name, e.playtime2Weeks)] else []
  }

  /** The enriched games played in the last two weeks, in order. */
  function RecentGames(enriched: seq<EnrichedGame>): (r: seq<RecentGame>)
    ensures |r| <= |enriched|
    ensures forall i :: 0 <= i < |r| ==> r[i].playtime2Weeks > 0
  {
    if enriched == [] then []
    else RecentEntry(enriched[0]) + RecentGames(enriched[1..])
  }

  /** The filter keeps order: filtering a concatenation concatenates the filtered parts. */
  lemma {:induction false} RecentGamesAppend(a: seq<EnrichedGame>, b: seq<EnrichedGame>)
    ensures RecentGames(a + b) == RecentGames(a) + RecentGames(b)
  {
    if a == [] {
      assert a + b == b;
    } else {
      var ab := a + b;
      assert ab[0] == a[0] && ab[1..] == a[1..] + b;
      var h := RecentEntry(a[0]);
      assert RecentGames(ab) == h + RecentGames(a[1..] + b);
      RecentGamesAppend(a[1..], b);
      assert RecentGames(a) == h + RecentGames(a[1..]);
    }
  }

  /** Every game played in the last two weeks is listed. */
  lemma {:induction false} RecentGamesKeepsRecent(enriched: seq<EnrichedGame>, e: EnrichedGame)
    requires e in enriched && e.playtime2Weeks > 0
    ensures RecentGame(e.name, e.playtime2Weeks) in RecentGames(enriched)
  {
    if enriched[0] != e {
      RecentGamesKeepsRecent(enriched[1..], e);
    }
  }

  /** Only games played in the last two weeks are listed. */
  lemma {:induction false} RecentGamesOnlyRecent(enriched: seq<EnrichedGame>, x: RecentGame)
    requires x in RecentGames(enriched)
    ensures exists e :: e in enriched && e.playtime2Weeks > 0 && x == RecentGame(e.name, e.playtime2Weeks)
  {
    var e := enriched[0];
    if x in RecentEntry(e) {
      assert e in enriched;
    } else {
      RecentGamesOnlyRecent(enriched[1..], x);
      var w :| w in enriched[1..] && w.playtime2Weeks > 0 && x == RecentGame(w.name, w.playtime2Weeks);
      assert w in enriched;
    }
  }

  /** `[g.get("name", "") for g in all_games[:100]]`. */
  function GameNames(games: seq<OwnedGame>): (r: seq<string>)
    ensures |r| == if |games| < NameIndexLimit then |games| else NameIndexLimit
    ensures forall i :: 0 <= i < |r| ==> r[i] == games[i].name.GetOr("")
  {
    var n := if |games| < NameIndexLimit then |games| else NameIndexLimit;
    seq(n, i requires 0 <= i < n => games[i].name.GetOr(""))
  }

  // ---------------------------------------------------------------- the summary

  /** `prepare_analysis_data`. */
  method PrepareAnalysisData(enriched: seq<EnrichedGame>, allGames: seq<OwnedGame>) returns (data: AnalysisData)
    ensures data.totalPlaytimeHours == TenthsOfHours(TotalMinutes(allGames))
    ensures data.totalGames == |allGames|
    ensures data.playedGames == PlayedCount(allGames)
    ensures data.playedGames + data.unplayedGames == data.totalGames && data.unplayedGames >= 0
    ensures data.topGames == TopGames(enriched)
    ensures data.genreDistribution == GenreDistribution(enriched)
    ensures data.recentGames == RecentGames(enriched)
    ensures data.allGameNames == GameNames(allGames)
  {
    var totalGames := |allGames|;
    var playedGames := PlayedCount(allGames);
    var order, hours := TallyGenreHours(enriched);
    var distribution := SortDesc(Items(GenreTally(order, hours)), HoursOf);
    data := AnalysisData(
      TenthsOfHours(TotalMinutes(allGames)), totalGames, playedGames, totalGames - playedGames,
      TopGames(enriched), distribution, RecentGames(enriched), GameNames(allGames));
  }
}
