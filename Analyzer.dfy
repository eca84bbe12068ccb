/** The deterministic part of the gamer profile analysis (analyzer.py): the tier
    table, and the correction that overrides whatever tier the language model
    returned. */
module Analyzer {
  import opened Wrappers
  import opened Aggregation

  datatype Tier = S | A | B | C | D

  /** The order S > A > B > C > D. */
  function Rank(t: Tier): nat {
    match t
    case S => 4
    case A => 3
    case B => 2
    case C => 1
    case D => 0
  }

  /** The tier as the one-letter string the profile and the card use. */
  function Letter(t: Tier): (s: string)
    ensures |s| == 1
  {
    match t
    case S => "S"
    case A => "A"
    case B => "B"
    case C => "C"
    case D => "D"
  }

  /** The tier a one-letter string names, if any. */
  function TierOfLetter(s: string): (t: Option<Tier>)
    ensures t.Some? ==> Letter(t.value) == s
  {
    if s == "S" then Some(S)
    else if s == "A" then Some(A)
    else if s == "B" then Some(B)
    else if s == "C" then Some(C)
    else if s == "D" then Some(D)
    else None
  }

  lemma LetterRoundTrip(t: Tier)
    ensures TierOfLetter(Letter(t)) == Some(t)
  {
  }

  /** The minimum total hours of each row of the table; D has no row. */
  function MinHours(t: Tier): real {
    match t
    case S => 5000.0
    case A => 2000.0
    case B => 500.0
    case C => 100.0
    case D => 0.0
  }

  /** The minimum number of games of each row of the table. */
  function MinGames(t: Tier): int {
    match t
    case S => 100
    case A => 50
    case B => 20
    case C => 10
    case D => 0
  }

  /** A row applies only when both of its thresholds are met; D always applies. */
  predicate Qualifies(t: Tier, totalHours: real, totalGames: int) {
    t == D || (totalHours >= MinHours(t) && totalGames >= MinGames(t))
  }

  /** `calculate_tier`: the rows are tried from S down, the first that applies wins. */
  function CalculateTier(totalHours: real, totalGames: int): (t: Tier)
    ensures Qualifies(t, totalHours, totalGames)
    ensures forall u :: Qualifies(u, totalHours, totalGames) ==> Rank(u) <= Rank(t)
  {
    if totalHours >= 5000.0 && totalGames >= 100 then S
    else if totalHours >= 2000.0 && totalGames >= 50 then A
    else if totalHours >= 500.0 && totalGames >= 20 then B
    else if totalHours >= 100.0 && totalGames >= 10 then C
    else D
  }

  /** More hours or more games never give a lower tier. */
  lemma TierMonotonic(h1: real, g1: int, h2: real, g2: int)
    requires h1 <= h2 && g1 <= g2
    ensures Rank(CalculateTier(h1, g1)) <= Rank(CalculateTier(h2, g2))
  {
    var t := CalculateTier(h1, g1);
    assert Qualifies(t, h2, g2);
  }

  /** Below either threshold of the lowest row the tier is D. */
  lemma LowActivityIsD(totalHours: real, totalGames: int)
    requires totalHours < 100.0 || totalGames < 10
    ensures CalculateTier(totalHours, totalGames) == D
  {
  }

  /** Both thresholds of a row must hold at once. */
  lemma TierBoundaries()
    ensures CalculateTier(5000.0, 100) == S
    ensures CalculateTier(5000.0, 99) == A
    ensures CalculateTier(4999.9, 100) == A
    ensures CalculateTier(0.0, 0) == D
  {
  }

  /** The tier the summary of a library earns; its hours are tenths. */
  function SummaryTier(data: AnalysisData): (t: Tier)
    ensures Qualifies(t, data.totalPlaytimeHours as real / 10.0, data.totalGames)
    ensures forall u :: Qualifies(u, data.totalPlaytimeHours as real / 10.0, data.totalGames) ==> Rank(u) <= Rank(t)
  {
    CalculateTier(data.totalPlaytimeHours as real / 10.0, data.totalGames)
  }

  /** The summary's tier is read off whole tenths: S needs 50000 tenths and 100 games. */
  lemma SummaryTierInTenths(data: AnalysisData)
    ensures SummaryTier(data) == S <==> data.totalPlaytimeHours >= 50000 && data.totalGames >= 100
    ensures SummaryTier(data) == D <==> data.totalPlaytimeHours < 1000 || data.totalGames < 10
  {
  }

  /** The fields of a profile, as a value. */
  datatype Profile = Profile(
    gamerType: string,
    gamerTypeEnglish: string,
    gamerTypeEmoji: string,
    tier: string,
    genreAnalysis: string,
    playPattern: string,
    hiddenPreference: string,
    oneLineSummary: string,
    topGenres: seq<string>,
    portraitPrompt: string)

  /** The structured answer of the language model, whose `tier` the analysis may overwrite. */
  class GamerPersonality {
    var gamerType: string
    var gamerTypeEnglish: string
    var gamerTypeEmoji: string
    var tier: string
    var genreAnalysis: string
    var playPattern: string
    var hiddenPreference: string
    var oneLineSummary: string
    var topGenres: seq<string>
    var portraitPrompt: string

    function Fields(): Profile
      reads this
    {
      Profile(gamerType, gamerTypeEnglish, gamerTypeEmoji, tier, genreAnalysis, playPattern,
        hiddenPreference, oneLineSummary, topGenres, portraitPrompt)
    }

    constructor (p: Profile)
      ensures Fields() == p
    {
      gamerType, gamerTypeEnglish, gamerTypeEmoji, tier := p.gamerType, p.gamerTypeEnglish, p.gamerTypeEmoji, p.tier;
      genreAnalysis, playPattern, hiddenPreference := p.genreAnalysis, p.playPattern, p.hiddenPreference;
      oneLineSummary, topGenres, portraitPrompt := p.oneLineSummary, p.topGenres, p.portraitPrompt;
    }

    /** `if result.tier != deterministic_tier: result.tier = deterministic_tier`. */
    method CorrectTier(deterministic: string)
      modifies this`tier
      ensures Fields() == old(Fields()).(tier := deterministic)
      ensures old(tier) == deterministic ==> Fields() == old(Fields())
    {
      if tier != deterministic {
        tier := deterministic;
      }
    }
  }

  /** `analyze_gamer_profile` after the model has answered: the tier of `result`
      becomes the table's tier for the summary, whatever the model said, and no
      other field changes. */
  method AnalyzeGamerProfile(data: AnalysisData, result: GamerPersonality)
    modifies result`tier
    ensures result.Fields() == old(result.Fields()).(tier := Letter(SummaryTier(data)))
    ensures TierOfLetter(result.tier) == Some(SummaryTier(data))
  {
    var deterministicTier := Letter(CalculateTier(data.totalPlaytimeHours as real / 10.0, data.totalGames));
    result.CorrectTier(deterministicTier);
    LetterRoundTrip(SummaryTier(data));
  }
}
