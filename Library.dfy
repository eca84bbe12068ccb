/** The game library as the ownership service returns it, and the part of
    `get_owned_games` (steam_api.py) that runs after the HTTP request: reject a
    missing or empty list, then sort it in place by all-time playtime. */
module Library {
  import opened Wrappers
  import opened StableSort
  import opened SteamProfile

  /** One entry of the `games` list. A field the response leaves out is `None`;
      `appid` is always present in the service's answer. Playtimes are minutes. */
  datatype OwnedGame = OwnedGame(
    appid: nat,
    name: Option<string>,
    playtimeForever: Option<nat>,
    playtime2Weeks: Option<nat>)

  /** `g.get("playtime_forever", 0)`: the sort key, a missing value counting as 0. */
  function Playtime(g: OwnedGame): int {
    g.playtimeForever.GetOr(0)
  }

  /** `g.get("playtime_2weeks", 0)`. */
  function RecentPlaytime(g: OwnedGame): int {
    g.playtime2Weeks.GetOr(0)
  }

  /** Every key has the same subsequence in `s` and `t`. */
  ghost predicate SameFilters(s: seq<OwnedGame>, t: seq<OwnedGame>) {
    forall k :: FilterKey(s, Playtime, k) == FilterKey(t, Playtime, k)
  }

  /** The state of insertion sort while the game that started at `i` sits at `j`: the
      other games up to `i` are in order, and the moving game has strictly more playtime
      than every game it has passed. */
  ghost predicate Inserting(s: seq<OwnedGame>, j: nat, i: nat)
    requires j <= i < |s|
  {
    && (forall p, q :: 0 <= p < q <= i && p != j && q != j ==> Playtime(s[p]) >= Playtime(s[q]))
    && (forall q :: j < q <= i ==> Playtime(s[j]) > Playtime(s[q]))
  }

  lemma InsertingStart(s: seq<OwnedGame>, i: nat)
    requires i < |s| && SortedDesc(s[..i], Playtime)
    ensures Inserting(s, i, i)
  {
    forall p, q | 0 <= p < q <= i && p != i && q != i ensures Playtime(s[p]) >= Playtime(s[q]) {
      assert s[p] == s[..i][p] && s[q] == s[..i][q];
    }
  }

  lemma InsertingStep(s: seq<OwnedGame>, j: nat, i: nat)
    requires 0 < j <= i < |s| && Inserting(s, j, i) && Playtime(s[j - 1]) < Playtime(s[j])
    ensures Inserting(s[j - 1 := s[j]][j := s[j - 1]], j - 1, i)
  {
  }

  lemma InsertingDone(s: seq<OwnedGame>, j: nat, i: nat)
    requires j <= i < |s| && Inserting(s, j, i)
    requires j == 0 || Playtime(s[j - 1]) >= Playtime(s[j])
    ensures SortedDesc(s[..i + 1], Playtime)
  {
    forall p, q | 0 <= p < q <= i ensures Playtime(s[p]) >= Playtime(s[q]) {
      if q == j && p < j - 1 {
        assert Playtime(s[p]) >= Playtime(s[j - 1]);
      }
    }
  }

  /** Moves the game at `i` left past the games with strictly less playtime. */
  method InsertGame(a: array<OwnedGame>, i: nat)
    requires i < a.Length && SortedDesc(a[..i], Playtime)
    modifies a
    ensures SortedDesc(a[..i + 1], Playtime)
    ensures SameFilters(a[..], old(a[..]))
    ensures a[i + 1..] == old(a[i + 1..])
  {
    InsertingStart(a[..], i);
    var j := i;
    while j > 0 && Playtime(a[j - 1]) < Playtime(a[j])
      invariant 0 <= j <= i
      invariant Inserting(a[..], j, i)
      invariant SameFilters(a[..], old(a[..]))
      invariant a[i + 1..] == old(a[i + 1..])
    {
      SwapNeighboursKeepsFilters(a[..], j - 1, Playtime);
      InsertingStep(a[..], j, i);
      a[j - 1], a[j] := a[j], a[j - 1];
      j := j - 1;
    }
    InsertingDone(a[..], j, i);
  }

  /** `round(minutes / 60, 1)` as a whole number of tenths of an hour: the nearest tenth,
      a half-way value rounded up (an approximation of the floating-point rounding). */
  function TenthsOfHours(minutes: nat): (t: nat)
    ensures 6 * t <= minutes + 3 < 6 * t + 6
  {
    (minutes + 3) / 6
  }

  /** A playtime shows as a positive number of hours exactly from three minutes on. */
  lemma PositiveTenthsFromThreeMinutes(minutes: nat)
    ensures TenthsOfHours(minutes) > 0 <==> minutes >= 3
  {
  }

  /** `games.sort(key=playtime_forever, reverse=True)`: a stable in-place sort into
      non-increasing playtime. Insertion sort moves each game left past the games
      with strictly less playtime only, so games of equal playtime keep their order. */
  method SortByPlaytime(a: array<OwnedGame>)
    modifies a
    ensures IsStableSortOf(a[..], old(a[..]), Playtime)
  {
    var i := 0;
    while i < a.Length
      invariant 0 <= i <= a.Length
      invariant SortedDesc(a[..i], Playtime)
      invariant SameFilters(a[..], old(a[..]))
    {
      InsertGame(a, i);
      i := i + 1;
    }
    assert a[..a.Length] == a[..];
  }

  /** `get_owned_games` after the request: `games` is the response's `games` list, `null`
      when the key is absent. A missing or empty list is the privacy error; otherwise the
      same list comes back, stably sorted by playtime, most played first. */
  method GetOwnedGames(games: array?<OwnedGame>) returns (r: Result<array<OwnedGame>, SteamError>)
    modifies games
    ensures games == null || games.Length == 0 <==> r == Failure(LibraryUnavailable)
    ensures r.Success? ==> r.value == games && IsStableSortOf(games[..], old(games[..]), Playtime)
  {
    if games == null || games.Length == 0 {
      return Failure(LibraryUnavailable);
    }
    SortByPlaytime(games);
    return Success(games);
  }
}
