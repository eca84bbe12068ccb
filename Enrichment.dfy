/** `enrich_games_with_details` (steam_api.py): for the most played games, one record
    each with the store's genres, categories and description. The store lookup
    (`get_app_details`) is a parameter of the model; the progress callback and the
    pause between lookups are recorded as a trace of events. */
module Enrichment {
  import opened Wrappers
  import opened Text
  import opened Library

  /** What a successful store lookup returns. */
  datatype Details = Details(genres: seq<string>, categories: seq<string>, shortDescription: string)

  /** One record of the enriched list; playtimes are in tenths of an hour. */
  datatype EnrichedGame = EnrichedGame(
    name: string,
    appid: nat,
    playtimeHours: nat,
    playtime2Weeks: nat,
    genres: seq<string>,
    categories: seq<string>,
    shortDescription: string)

  /** What the loop does that a caller can observe besides its result. */
  datatype Event =
    | Lookup(appid: nat)                  // get_app_details(appid)
    | Progress(current: nat, total: nat)  // callback(current, total)
    | Delay                               // time.sleep(0.3)

  /** `len(games[:maxGames])`, with Python's meaning of a negative bound (count from the end). */
  function PrefixLength(len: nat, maxGames: int): (n: nat)
    ensures n <= len
    ensures maxGames >= 0 ==> n == if maxGames < len then maxGames else len
    ensures maxGames < 0 ==> n == if len + maxGames > 0 then len + maxGames else 0
  {
    if maxGames >= 0 then (if maxGames < len then maxGames else len)
    else if len + maxGames > 0 then len + maxGames else 0
  }

  /** `f"Unknown ({appid})"`. */
  function UnknownName(appid: nat): string {
    "Unknown (" + NatToDecimal(appid) + ")"
  }

  /** The default name is "Unknown (", then decimal digits that read back as the appid,
      then ")". */
  lemma UnknownNameReadsBack(appid: nat)
    ensures var name := UnknownName(appid);
      |name| >= 11 && name[..9] == "Unknown (" && name[|name| - 1] == ')'
      && (forall k :: 9 <= k < |name| - 1 ==> IsDigit(name[k]))
      && DecimalValue(name[9..|name| - 1]) == appid
  {
    var digits := NatToDecimal(appid);
    var name := UnknownName(appid);
    assert name[9..|name| - 1] == digits;
    NatToDecimalReadsBack(appid);
  }

  /** The record built for one game from its lookup result. */
  function EnrichGame(g: OwnedGame, details: Option<Details>): (e: EnrichedGame)
    ensures e.appid == g.appid
    ensures e.name == g.name.GetOr(UnknownName(g.appid))
    ensures e.playtimeHours == TenthsOfHours(Playtime(g))
    ensures e.playtime2Weeks == TenthsOfHours(RecentPlaytime(g))
    ensures details.None? ==> e.genres == [] && e.categories == [] && e.shortDescription == ""
    ensures details.Some? ==> e.genres == details.value.genres && e.categories == details.value.categories
                              && e.shortDescription == details.value.shortDescription
  {
    var metadata := details.GetOr(Details([], [], ""));
    EnrichedGame(
      g.name.GetOr(UnknownName(g.appid)), g.appid,
      TenthsOfHours(Playtime(g)), TenthsOfHours(RecentPlaytime(g)),
      metadata.genres, metadata.categories, metadata.shortDescription)
  }

  /** The events of loop iteration `i` over `top`: the lookup, the callback when there is
      one, and the pause unless this is the last game. */
  function StepEvents(top: seq<OwnedGame>, i: nat, hasCallback: bool): (s: seq<Event>)
    requires i < |top|
    ensures 1 <= |s| <= 3
    ensures s[0] == Lookup(top[i].appid)
    ensures s[|s| - 1] == Delay <==> i < |top| - 1
  {
    [Lookup(top[i].appid)]
    + (if hasCallback then [Progress(i + 1, |top|)] else [])
    + (if i < |top| - 1 then [Delay] else [])
  }

  /** The events of the first `n` iterations. */
  function Trace(top: seq<OwnedGame>, n: nat, hasCallback: bool): (t: seq<Event>)
    requires n <= |top|
    ensures n <= |t| <= 3 * n
  {
    if n == 0 then [] else Trace(top, n - 1, hasCallback) + StepEvents(top, n - 1, hasCallback)
  }

  /** The events one iteration causes, in the order the loop body causes them. This is
      the loop body of `EnrichGamesWithDetails` split out, so that each proof stays small;
      `StepEvents` is its specification. */
  method RunStep(top: seq<OwnedGame>, i: nat, hasCallback: bool) returns (step: seq<Event>)
    requires i < |top|
    ensures step == StepEvents(top, i, hasCallback)
  {
    step := [Lookup(top[i].appid)];
    if hasCallback {
      step := step + [Progress(i + 1, |top|)];
    }
    if i < |top| - 1 {
      step := step + [Delay];
    }
  }

  /** The records of the first `n` iterations. */
  function Records(top: seq<OwnedGame>, lookup: nat -> Option<Details>, n: nat): (r: seq<EnrichedGame>)
    requires n <= |top|
    ensures |r| == n
  {
    if n == 0 then [] else Records(top, lookup, n - 1) + [EnrichGame(top[n - 1], lookup(top[n - 1].appid))]
  }

  /** Record k of the first `n` iterations is built from game k and its lookup. */
  lemma {:induction false} RecordsAt(top: seq<OwnedGame>, lookup: nat -> Option<Details>, n: nat)
    requires n <= |top|
    ensures forall k :: 0 <= k < n ==> Records(top, lookup, n)[k] == EnrichGame(top[k], lookup(top[k].appid))
  {
    if n > 0 {
      RecordsAt(top, lookup, n - 1);
      var prev := Records(top, lookup, n - 1);
      assert Records(top, lookup, n) == prev + [EnrichGame(top[n - 1], lookup(top[n - 1].appid))];
    }
  }

  /** The loop of `enrich_games_with_details`, `lookup` standing for `get_app_details`. */
  method EnrichGamesWithDetails(games: seq<OwnedGame>, lookup: nat -> Option<Details>, hasCallback: bool, maxGames: int)
    returns (enriched: seq<EnrichedGame>, events: seq<Event>)
    ensures |enriched| == PrefixLength(|games|, maxGames)
    ensures forall i :: 0 <= i < |enriched| ==> enriched[i] == EnrichGame(games[i], lookup(games[i].appid))
    ensures events == Trace(games[..|enriched|], |enriched|, hasCallback)
  {
    var top := games[..PrefixLength(|games|, maxGames)];
    enriched, events := [], [];
    var i := 0;
    while i < |top|
      invariant 0 <= i <= |top|
      invariant enriched == Records(top, lookup, i)
      invariant events == Trace(top, i, hasCallback)
    {
      var game := top[i];
      var details := lookup(game.appid);
      enriched := enriched + [EnrichGame(game, details)];
      var step := RunStep(top, i, hasCallback);
      events := events + step;
      i := i + 1;
    }
    RecordsAt(top, lookup, |top|);
    assert games[..|enriched|] == top;
  }

  /** The default of the `max_games` parameter. */
  const DefaultMaxGames: int := 20

  /** `enrich_games_with_details(games, callback=...)`, the call that leaves `max_games`
      at its default: at most the 20 most played games are enriched. */
  method EnrichGamesByDefault(games: seq<OwnedGame>, lookup: nat -> Option<Details>, hasCallback: bool)
    returns (enriched: seq<EnrichedGame>, events: seq<Event>)
    ensures |enriched| == if |games| < 20 then |games| else 20
    ensures forall i :: 0 <= i < |enriched| ==> enriched[i] == EnrichGame(games[i], lookup(games[i].appid))
    ensures events == Trace(games[..|enriched|], |enriched|, hasCallback)
  {
    enriched, events := EnrichGamesWithDetails(games, lookup, hasCallback, DefaultMaxGames);
  }

  /** The arguments of the callback invocations, in order. */
  function Progresses(t: seq<Event>): seq<(nat, nat)> {
    if t == [] then []
    else (if t[0].Progress? then [(t[0].current, t[0].total)] else []) + Progresses(t[1..])
  }

  /** The app IDs looked up, in order. */
  function Lookups(t: seq<Event>): seq<nat> {
    if t == [] then [] else (if t[0].Lookup? then [t[0].appid] else []) + Lookups(t[1..])
  }

  function DelayCount(t: seq<Event>): nat {
    if t == [] then 0 else (if t[0] == Delay then 1 else 0) + DelayCount(t[1..])
  }

  lemma {:induction false} ProgressesAppend(a: seq<Event>, b: seq<Event>)
    ensures Progresses(a + b) == Progresses(a) + Progresses(b)
  {
    if a == [] {
      assert a + b == b;
    } else {
      assert (a + b)[0] == a[0] && (a + b)[1..] == a[1..] + b;
      ProgressesAppend(a[1..], b);
    }
  }

  lemma {:induction false} LookupsAppend(a: seq<Event>, b: seq<Event>)
    ensures Lookups(a + b) == Lookups(a) + Lookups(b)
  {
    if a == [] {
      assert a + b == b;
    } else {
      assert (a + b)[0] == a[0] && (a + b)[1..] == a[1..] + b;
      LookupsAppend(a[1..], b);
    }
  }

  lemma {:induction false} DelayCountAppend(a: seq<Event>, b: seq<Event>)
    ensures DelayCount(a + b) == DelayCount(a) + DelayCount(b)
  {
    if a == [] {
      assert a + b == b;
    } else {
      assert (a + b)[0] == a[0] && (a + b)[1..] == a[1..] + b;
      DelayCountAppend(a[1..], b);
    }
  }

  /** The callback arguments of iteration `i`: one pair with a callback, none without. */
  lemma StepProgress(top: seq<OwnedGame>, i: nat, hasCallback: bool)
    requires i < |top|
    ensures Progresses(StepEvents(top, i, hasCallback)) == if hasCallback then [(i + 1, |top|)] else []
  {
    var cb: seq<Event> := if hasCallback then [Progress(i + 1, |top|)] else [];
    var d: seq<Event> := if i < |top| - 1 then [Delay] else [];
    ProgressesAppend([Lookup(top[i].appid)], cb);
    ProgressesAppend([Lookup(top[i].appid)] + cb, d);
  }

  /** Iteration `i` looks up game `i` and nothing else. */
  lemma StepLookups(top: seq<OwnedGame>, i: nat, hasCallback: bool)
    requires i < |top|
    ensures Lookups(StepEvents(top, i, hasCallback)) == [top[i].appid]
  {
    var cb: seq<Event> := if hasCallback then [Progress(i + 1, |top|)] else [];
    var d: seq<Event> := if i < |top| - 1 then [Delay] else [];
    LookupsAppend([Lookup(top[i].appid)], cb);
    LookupsAppend([Lookup(top[i].appid)] + cb, d);
  }

  /** Iteration `i` pauses once, unless it is the last. */
  lemma StepDelays(top: seq<OwnedGame>, i: nat, hasCallback: bool)
    requires i < |top|
    ensures DelayCount(StepEvents(top, i, hasCallback)) == if i < |top| - 1 then 1 else 0
  {
    var cb: seq<Event> := if hasCallback then [Progress(i + 1, |top|)] else [];
    var d: seq<Event> := if i < |top| - 1 then [Delay] else [];
    DelayCountAppend([Lookup(top[i].appid)], cb);
    DelayCountAppend([Lookup(top[i].appid)] + cb, d);
  }

  /** The games are looked up one by one, in order. */
  lemma {:induction false} TraceLookups(top: seq<OwnedGame>, n: nat, hasCallback: bool)
    requires n <= |top|
    ensures |Lookups(Trace(top, n, hasCallback))| == n
    ensures forall k :: 0 <= k < n ==> Lookups(Trace(top, n, hasCallback))[k] == top[k].appid
  {
    if n > 0 {
      var prev, step := Trace(top, n - 1, hasCallback), StepEvents(top, n - 1, hasCallback);
      assert Lookups(Trace(top, n, hasCallback)) == Lookups(prev) + Lookups(step) by {
        assert Trace(top, n, hasCallback) == prev + step;
        LookupsAppend(prev, step);
      }
      TraceLookups(top, n - 1, hasCallback);
      StepLookups(top, n - 1, hasCallback);
    }
  }

  /** The progress arguments (1, total), (2, total), ..., (n, total). */
  function Counting(n: nat, total: nat): (r: seq<(nat, nat)>)
    ensures |r| == n
    ensures forall k :: 0 <= k < n ==> r[k] == (k + 1, total)
  {
    if n == 0 then [] else Counting(n - 1, total) + [(n, total)]
  }

  /** With a callback it is invoked once per game, with (1, n), (2, n), ..., (n, n);
      without one there are no progress events. */
  lemma {:induction false} TraceProgress(top: seq<OwnedGame>, n: nat, hasCallback: bool)
    requires n <= |top|
    ensures Progresses(Trace(top, n, hasCallback)) == if hasCallback then Counting(n, |top|) else []
  {
    if n > 0 {
      var prev, step := Trace(top, n - 1, hasCallback), StepEvents(top, n - 1, hasCallback);
      assert Progresses(Trace(top, n, hasCallback)) == Progresses(prev) + Progresses(step) by {
        assert Trace(top, n, hasCallback) == prev + step;
        ProgressesAppend(prev, step);
      }
      TraceProgress(top, n - 1, hasCallback);
      StepProgress(top, n - 1, hasCallback);
      if hasCallback {
        assert Counting(n, |top|) == Counting(n - 1, |top|) + [(n, |top|)];
      }
    }
  }

  /** There is one pause per gap between processed games: n - 1 for all n games. */
  lemma {:induction false} TraceDelays(top: seq<OwnedGame>, n: nat, hasCallback: bool)
    requires n <= |top|
    ensures DelayCount(Trace(top, n, hasCallback)) == if n == |top| && n > 0 then n - 1 else n
  {
    if n > 0 {
      var prev, step := Trace(top, n - 1, hasCallback), StepEvents(top, n - 1, hasCallback);
      assert DelayCount(Trace(top, n, hasCallback)) == DelayCount(prev) + DelayCount(step) by {
        assert Trace(top, n, hasCallback) == prev + step;
        DelayCountAppend(prev, step);
      }
      TraceDelays(top, n - 1, hasCallback);
      assert DelayCount(prev) == n - 1;
      StepDelays(top, n - 1, hasCallback);
    }
  }

  /** Every pause in `t` is followed by a lookup; when `t` is not the complete run, a
      pause may also be its last event. */
  ghost predicate PausesPrecedeLookups(t: seq<Event>, complete: bool) {
    forall i :: 0 <= i < |t| && t[i] == Delay ==>
      (i + 1 < |t| && t[i + 1].Lookup?) || (!complete && i + 1 == |t|)
  }

  /** Within one iteration only the last event can be the pause. */
  lemma StepShape(top: seq<OwnedGame>, i: nat, hasCallback: bool)
    requires i < |top|
    ensures forall j :: 0 <= j < |StepEvents(top, i, hasCallback)| - 1 ==> StepEvents(top, i, hasCallback)[j] != Delay
  {
  }

  /** Every pause is followed by the next game's lookup: none comes after the last game. */
  lemma {:induction false} DelaysOnlyBetweenGames(top: seq<OwnedGame>, n: nat, hasCallback: bool)
    requires n <= |top|
    ensures PausesPrecedeLookups(Trace(top, n, hasCallback), n == |top|)
  {
    if n > 0 {
      DelaysOnlyBetweenGames(top, n - 1, hasCallback);
      var prev := Trace(top, n - 1, hasCallback);
      var step := StepEvents(top, n - 1, hasCallback);
      StepShape(top, n - 1, hasCallback);
      var t := prev + step;
      assert PausesPrecedeLookups(prev, false);
      assert Trace(top, n, hasCallback) == t;
      forall i | 0 <= i < |t| && t[i] == Delay
        ensures (i + 1 < |t| && t[i + 1].Lookup?) || (n < |top| && i + 1 == |t|)
      {
        if i >= |prev| {
          assert t[i] == step[i - |prev|];
        } else {
          assert t[i] == prev[i];
          if i + 1 == |prev| {
            assert t[i + 1] == step[0];
          } else {
            assert t[i + 1] == prev[i + 1];
          }
        }
      }
    }
  }
}
