# SteamAnalyzer core, modelled in Dafny

SteamAnalyzer reads a Steam profile reference (a profile URL, a 64-bit ID or a
vanity name) and fetches the owned games. It enriches the most played ones with store
metadata and condenses the library into a summary. A language model turns that summary
into a "gamer personality", and a card image is drawn from it. This project models and
proves the deterministic core of that pipeline:

- `SteamProfile`: `parse_steam_url`, the success check of `resolve_vanity_url`, and
  `get_steam_id`. The two `re.search` patterns are modelled as a leftmost match with a
  greedy group.
- `Library`: `get_owned_games` after its request. The response's `games` list is an
  array. A missing or empty list is an error, and otherwise the array is sorted in place,
  stably, by `playtime_forever` (most played first, a missing value counting as 0). An
  insertion sort does the sorting. `StableSort.StableSortIsSortDesc` shows that every
  stable sort gives the same result, the standard library's included.
- `Enrichment`: the loop of `enrich_games_with_details`. The store lookup is a function
  parameter. The progress callback and the pause between requests are recorded as a
  trace of events.
- `Aggregation`: `prepare_analysis_data`. Genre hours are collected in the nested loop
  over an insertion-ordered dictionary, modelled as a key order plus a map. The items
  are then sorted by hours.
- `Analyzer`: `calculate_tier`, and the correction in `analyze_gamer_profile` that
  overwrites, in place, the tier the language model returned.
- `CardGenerator`: `_hex_to_rgb`, the `TIER_COLORS` palette and its fallback to tier B,
  and the portrait crop box.
- `StableSort`, `Text`, `Wrappers`: generic support. This covers stable sorting by an
  integer key, stated without indices, Python's whitespace and trimming, and
  `Option`/`Result`.

Hours are whole tenths of an hour (`round(minutes / 60, 1)` becomes
`Library.TenthsOfHours`). A raised `ValueError` is a `Failure` carrying a `SteamError`.

## Model

| member | source | states |
|---|---|---|
| SteamProfile.Normalize | steam_api.py:21 | the string the rules see has no trailing '/' and no leading whitespace |
| SteamProfile.FindMatch | steam_api.py:24 | the leftmost position where the pattern matches, or none when it matches nowhere |
| SteamProfile.Run | steam_api.py:24 | the greedy group: the longest run of class characters from the given position |
| SteamProfile.Search | steam_api.py:24-31 | `re.search` fails exactly when no position matches; a found group is non-empty and made of class characters |
| SteamProfile.SearchFindsLeftmost | steam_api.py:24-31 | a found group is the greedy run after a match with no match to its left |
| SteamProfile.SearchAtLeftmost | steam_api.py:24-31 | conversely, wherever the leftmost match is, the reported group is the run after it |
| SteamProfile.ParseSteamUrl | steam_api.py:21-47 | the rules in order: a `/profiles/` match gives its digits as the ID; otherwise an `/id/` match gives its name; otherwise the bare-text rules decide; rejected exactly when no URL pattern matches and the text is empty or starts with "http" |
| SteamProfile.ClassifyBare | steam_api.py:34-47 | 17 digits give that ID; other non-empty text not starting with "http" gives that vanity name; everything else is rejected, and only that |
| SteamProfile.ProfilesMatchWins | steam_api.py:24-26 | the digit run after the leftmost `/profiles/` match is the ID, even when an `/id/` match exists too |
| SteamProfile.IdMatchGivesVanity | steam_api.py:28-31 | without a `/profiles/` match, the name run after the leftmost `/id/` match is the vanity name |
| SteamProfile.SeventeenDigitsAreId64 | steam_api.py:34-35 | a bare 17-digit string is the ID itself |
| SteamProfile.OtherDigitStringsAreVanity | steam_api.py:38-39 | any other non-empty digit string (16 or 18 digits, say) is a vanity name |
| SteamProfile.BlankIsInvalid | steam_api.py:21-47 | empty or all-whitespace input is rejected |
| SteamProfile.ProfileUrlGivesId64 | steam_api.py:24-26 | a `https://steamcommunity.com/profiles/<digits>` URL yields its digits as the ID |
| SteamProfile.IdUrlGivesVanity | steam_api.py:21-31 | a `https://steamcommunity.com/id/<name>` URL, with or without a trailing '/', yields the name |
| SteamProfile.ResolveVanityUrl | steam_api.py:58-64 | succeeds with the given ID exactly when `success == 1` and an ID is present; any other `success` is account-not-found; a success without an ID is the missing-ID error |
| SteamProfile.GetSteamId | steam_api.py:67-72 | a parse failure is passed on; a parsed ID comes back unchanged; a parsed vanity name gives exactly the resolution check's answer on the service's response for it |
| SteamProfile.VanityResolvedGivesId | steam_api.py:67-72 | a vanity name the service resolves with `success == 1` and an ID gives that ID |
| SteamProfile.Id64NeedsNoLookup | steam_api.py:70-71 | for an ID the answer does not depend on the resolution service |
| StableSort.SortDesc | steam_api.py:222 | a stable sort, most first, of the input, of the same length |
| StableSort.StableSortIsPermutation | steam_api.py:105 | a stable sort is a permutation of its input |
| StableSort.StableSortUnique | steam_api.py:105 | two sorted sequences with the same subsequence per key are equal |
| StableSort.StableSortIsSortDesc | steam_api.py:222 | any stable sort, the standard library's included, computes `SortDesc` |
| StableSort.StableSortKeepsTieOrder | steam_api.py:105 | elements of equal key keep their relative order |
| StableSort.SwapNeighboursKeepsFilters | steam_api.py:105 | swapping neighbours of different keys keeps every key's subsequence |
| Library.InsertGame | steam_api.py:105 | one insertion step extends the sorted prefix, keeps every key's subsequence and leaves the elements after the step untouched |
| Library.SortByPlaytime | steam_api.py:105 | the array ends as a stable sort of its old contents by `playtime_forever`, missing as 0 |
| Library.GetOwnedGames | steam_api.py:91-106 | fails exactly when the list is missing or empty; otherwise returns the same list, stably sorted |
| Library.TenthsOfHours | steam_api.py:153-154 | the nearest tenth of an hour to the minutes |
| Library.PositiveTenthsFromThreeMinutes | steam_api.py:153-154 | a playtime shows as positive hours exactly from three minutes on |
| Enrichment.UnknownNameReadsBack | steam_api.py:151 | the default name is "Unknown (", decimal digits that read back as the appid, then ")" |
| Text.NatToDecimal | steam_api.py:151 | `str(n)`: non-empty decimal digits, no leading zero unless n is 0 |
| Text.NatToDecimalReadsBack | steam_api.py:151 | the digits of `str(n)` read back as n |
| Enrichment.PrefixLength | steam_api.py:143 | `len(games[:max_games])`, negative bounds counting from the end |
| Enrichment.EnrichGame | steam_api.py:147-164 | the record keeps appid and name (default "Unknown (appid)"); empty genres, categories and description without details, copied ones with |
| Enrichment.EnrichGamesWithDetails | steam_api.py:143-175 | exactly `len(games[:max_games])` records, record i built from game i and its lookup; the events are those of the loop |
| Enrichment.EnrichGamesByDefault | steam_api.py:133-134 | the call that leaves `max_games` at its default of 20 enriches the first min(20, len) games, each from its lookup, with the loop's events |
| Enrichment.RecordsAt | steam_api.py:146-166 | after n iterations, record k is built from game k and its lookup |
| Enrichment.RunStep | steam_api.py:146-173 | one iteration's events: its lookup, its progress report when there is a callback, and a pause unless it is the last game |
| Enrichment.TraceLookups | steam_api.py:146-148 | one lookup per processed game, of that game's appid, in order |
| Enrichment.TraceProgress | steam_api.py:168-169 | the callback receives (1,n), (2,n), ..., (n,n) in order, and nothing without a callback |
| Enrichment.TraceDelays | steam_api.py:172-173 | n - 1 pauses for n >= 1 games, none for none |
| Enrichment.DelaysOnlyBetweenGames | steam_api.py:172-173 | every pause is followed by the next lookup: none after the last game |
| Enrichment.StepEvents | steam_api.py:146-173 | one iteration causes one to three events: first its lookup, last a pause exactly when more games follow |
| Enrichment.StepLookups | steam_api.py:147-148 | one iteration looks up its own game and no other |
| Enrichment.StepProgress | steam_api.py:168-169 | one iteration reports (i + 1, n) when there is a callback, nothing otherwise |
| Enrichment.StepDelays | steam_api.py:172-173 | one iteration pauses once, unless it handles the last game |
| Enrichment.StepShape | steam_api.py:146-173 | within one iteration no pause comes before the last event |
| Enrichment.Trace | steam_api.py:146-173 | n iterations cause between n and 3n events |
| Aggregation.TotalMinutes | steam_api.py:209-210 | the total bounds every game's `playtime_forever`, missing as 0 |
| Aggregation.PlayedCount | steam_api.py:213 | at most the number of games, and zero exactly when no game has playtime |
| Aggregation.NothingPlayedIffZeroTotal | steam_api.py:209-213 | no game was played exactly when the total playtime is zero |
| Aggregation.AddHoursEffect | steam_api.py:220 | one update adds the hours to the genre (from 0 when new), leaves every other genre alone and appends only a new genre to the insertion order |
| Aggregation.TallyOf | steam_api.py:216-220 | the dictionary never holds more genres than pairs were met |
| Aggregation.TallyGenreHours | steam_api.py:216-220 | the nested loop leaves the dictionary the fold over all (genre, hours) pairs describes |
| Aggregation.AddGameHours | steam_api.py:217-220 | the inner loop over one game's genres extends the dictionary by that game's (genre, hours) pairs |
| Aggregation.TallyFacts | steam_api.py:216-220 | the dictionary holds each genre met once, exactly the genres met, each with its summed hours, in first-met order |
| Aggregation.DistributionIsItems | steam_api.py:222 | the sorted list is the dictionary's items rearranged: the same entries, each as often |
| Aggregation.GenreDistribution | steam_api.py:222 | the distribution is sorted by hours, most first, with no more entries than pairs met |
| Aggregation.DistributionKeys | steam_api.py:216-222 | the distribution names exactly the genres met |
| Aggregation.DistributionSums | steam_api.py:216-222 | each entry carries its genre's summed hours |
| Aggregation.DistributionKeysDistinct | steam_api.py:216-222 | no genre appears twice in the distribution |
| Aggregation.GenreDistributionFacts | steam_api.py:216-222 | the distribution is sorted by hours, has one entry per genre met, and gives each its summed hours |
| Aggregation.GenreDistributionByGame | steam_api.py:216-222 | the keys are exactly the genres some game lists; each value is the full hours of every game listing it |
| Aggregation.GenreTiesInFirstSeenOrder | steam_api.py:216-222 | genres of equal hours appear in the order the loop first met them |
| Aggregation.SumForIsGenreSum | steam_api.py:216-220 | the pairs' sum for a genre is the per-game sum of its hours, with no splitting between genres |
| Aggregation.ContributedGenres | steam_api.py:217-220 | a genre is met exactly when some enriched game lists it |
| Aggregation.TopGames | steam_api.py:232-239 | one entry per enriched game, in order, with its name, hours and genres |
| Aggregation.RecentGames | steam_api.py:241-244 | at most one entry per game, each with recent playtime |
| Aggregation.RecentGamesKeepsRecent | steam_api.py:225 | every game played in the last two weeks is listed |
| Aggregation.RecentGamesOnlyRecent | steam_api.py:225 | every listed entry comes from an enriched game played in the last two weeks |
| Aggregation.RecentGamesAppend | steam_api.py:225 | the filter keeps order: it distributes over concatenation |
| Aggregation.GameNames | steam_api.py:245 | the names of the first min(100, len) games, "" for a missing name |
| Aggregation.PrepareAnalysisData | steam_api.py:207-246 | every field of the summary; played plus unplayed is the number of games, unplayed is not negative |
| Analyzer.Letter | analyzer.py:21-32 | a tier is written as one letter |
| Analyzer.TierOfLetter | analyzer.py:12 | a recognised letter names the tier written as that letter |
| Analyzer.LetterRoundTrip | analyzer.py:21-32 | every tier is read back from its letter |
| Analyzer.CalculateTier | analyzer.py:21-32 | the highest tier whose two thresholds both hold, D otherwise |
| Analyzer.TierMonotonic | analyzer.py:23-32 | more hours or more games never lower the tier |
| Analyzer.LowActivityIsD | analyzer.py:29-32 | under 100 hours or under 10 games is D |
| Analyzer.TierBoundaries | analyzer.py:23-26 | (5000, 100) is S, (5000, 99) and (4999.9, 100) are A, (0, 0) is D |
| Analyzer.SummaryTier | analyzer.py:42-44 | the summary earns a tier whose thresholds hold at its hours and game count, and no higher-ranked tier qualifies |
| Analyzer.SummaryTierInTenths | analyzer.py:42-44 | on the summary's tenths, S needs 50000 tenths and 100 games, D is under 1000 tenths or 10 games |
| Analyzer.GamerPersonality.constructor | analyzer.py:8-18 | a profile holds the ten fields the model returns |
| Analyzer.GamerPersonality.CorrectTier | analyzer.py:104-106 | the tier becomes the given one, nothing else changes, and a correct tier is left alone |
| Analyzer.AnalyzeGamerProfile | analyzer.py:42-108 | the tier of the result is the table's tier for the summary whatever the model said; no other field changes |
| CardGenerator.Slice | card_generator.py:24 | a slice is clamped to the string: at most `j - i` characters, taken from position `i` |
| CardGenerator.SliceLength | card_generator.py:24 | a slice has exactly `min(j, len) - min(i, len)` characters |
| CardGenerator.ParseHex | card_generator.py:24 | `int(piece, 16)` succeeds exactly on the blanks `int` skips, an optional sign and hexadecimal digits; negative only with '-' |
| CardGenerator.ParseHexRejectsSeparator | card_generator.py:24 | the separator U+001C, which `str.strip()` removes, is not skipped by `int`: "\x1cf" does not parse |
| CardGenerator.HexToRgb | card_generator.py:22-24 | a colour parses only when at least five characters follow the leading '#'s |
| CardGenerator.HexToRgbBounds | card_generator.py:22-24 | each parsed component is below 256, and above -16 (a one-digit piece may carry '-') |
| CardGenerator.Hex2 | card_generator.py:22-24 | two hexadecimal digits whose value is the component |
| CardGenerator.HexToRgbIgnoresHashes | card_generator.py:23 | leading '#' characters are all dropped |
| CardGenerator.HexColorComponents | card_generator.py:22-24 | a "#rrggbb" colour parses into the pairs at offsets 0, 2 and 4, each in 0..255 |
| CardGenerator.HexToRgbRoundTrip | card_generator.py:22-24 | "#" and the two-digit forms of (r, g, b) parse back to (r, g, b) |
| CardGenerator.ShortHexColorFails | card_generator.py:22-24 | a three-digit colour such as "#fff" does not parse: its third slice is empty |
| CardGenerator.TierColors | card_generator.py:9-15 | the table has exactly the keys S, A, B, C and D |
| CardGenerator.TierColorsWellFormed | card_generator.py:9-15 | every palette entry is a "#rrggbb" colour |
| CardGenerator.EveryTierHasColors | card_generator.py:9-15 | each of the five tiers has a palette |
| CardGenerator.ColorsFor | card_generator.py:141 | the palette used is one of the table's, and is well formed |
| CardGenerator.TierDrawnInItsColors | card_generator.py:141 | a tier is drawn in its own palette |
| CardGenerator.UnknownTierDrawnAsB | card_generator.py:141 | an unknown tier is drawn in the palette of B |
| CardGenerator.CardColorsParse | card_generator.py:141-144 | every colour the card uses parses |
| CardGenerator.PortraitCropBox | card_generator.py:67-69 | the crop starts at row 100, spans `PORTRAIT_HEIGHT` rows and the full width, centred in the 600×600 resize |

## Left out

- HTTP requests are not modelled. This covers the vanity resolution, the library, the
  store details and the header image. Their answers are inputs: `VanityResponse`, the
  `games` array, the `lookup` function. `raise_for_status` failures and timeouts are not
  modelled.
- The `st.cache_data` memoisation of the store lookup is not modelled: it is a library
  decorator, and `lookup` is a pure function here.
- `time.sleep(0.3)` is not modelled. A `Delay` event in the trace stands for it.
- The language-model calls and prompts of `analyze_gamer_profile` are not modelled. The
  parsed answer is the `GamerPersonality` object passed in.
- Image generation and drawing are not modelled: the portrait request, the resize, the
  fonts, gradients, text layout and alpha blending. Only the colour table, the colour
  parser and the crop box are modelled.
- The Streamlit application and the recommender are not part of this model.
- `get_app_details` is not modelled inside: its request and its reshaping of the store
  JSON. Its result is the `Details` value the lookup returns, or `None`.
- Library.TenthsOfHours: `round(x / 60, 1)` on floats is modelled as the nearest tenth,
  rounding half up. Python rounds the binary float, so results at exact half-way values
  (minutes ≡ 3 mod 6) may differ.
- Aggregation.GenreDistributionByGame: genre hours are sums of whole tenths, not float
  sums. Floating-point accumulation error is not modelled.
- SteamProfile.ParseSteamUrl: `\d` matches ASCII digits only. Python's `re` also accepts
  other Unicode decimal digits.
- CardGenerator.ParseHex: Unicode digits and underscores are not accepted. Python's
  `int` also accepts these. On the slices of at most two characters that `_hex_to_rgb`
  cuts, underscores cannot form a valid number, and a "0x" prefix cannot either.
- SteamProfile.ResolveVanityUrl: `success` is an integer. A JSON `true` equals 1 in
  Python and is not distinguished here. A missing `steamid` after a success is the
  `MissingSteamId` error, where Python raises `KeyError`.
- Enrichment.EnrichGame: the `appid` of every owned game is assumed present. Python
  would look up and store `None` otherwise.
- Library.GetOwnedGames: a `games` value that is present but not a list is not
  modelled.
- Analyzer.CalculateTier: the hours are a Dafny `real`, not a float. The summary passes
  whole tenths divided by 10, and on those values the comparisons agree with the
  float ones.
