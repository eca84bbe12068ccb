/** Turning a user's profile reference (a profile URL, a 17-digit Steam ID or a
    vanity name) into a 64-bit Steam ID: `parse_steam_url`, the success check of
    `resolve_vanity_url` and `get_steam_id` in steam_api.py. The name-resolution
    web service is a parameter of the model. */
module SteamProfile {
  import opened Wrappers
  import opened Text

  /** The errors steam_api.py raises, named by their cause. The type is shared: `Library`
      reports a missing game list with `LibraryUnavailable`. */
  datatype SteamError =
    | InvalidReference           // ValueError: no supported profile format
    | AccountNotFound(vanity: string)  // ValueError: name resolution reported no match
    | MissingSteamId             // KeyError: a successful resolution without "steamid"
    | LibraryUnavailable         // ValueError: no "games" in the library response

  /** The classified reference: `("id64", digits)` or `("vanity", name)`. */
  datatype ProfileRef = Id64(id: string) | Vanity(name: string)

  /** The `response` object of the name-resolution service; a missing field is `None`. */
  datatype VanityResponse = VanityResponse(success: Option<int>, steamid: Option<string>)

  const ProfilesPrefix: string := "steamcommunity.com/profiles/"
  const IdPrefix: string := "steamcommunity.com/id/"
  /** The number of digits of a raw 64-bit Steam ID. */
  const Id64Length: nat := 17

  predicate IsSlash(c: char) { c == '/' }

  /** The character class `[^/?#]` of a vanity segment. */
  predicate IsVanityChar(c: char) { c != '/' && c != '?' && c != '#' }

  predicate AllDigits(s: string) {
    forall i :: 0 <= i < |s| ==> IsDigit(s[i])
  }

  /** `url.strip().rstrip("/")`: the form every rule below is tried on. */
  function Normalize(url: string): (u: string)
    ensures u == [] || !IsSlash(u[|u| - 1])
    ensures u == [] || !IsSpace(u[0])
  {
    TrimRight(Strip(url), IsSlash)
  }

  /** The literal `prefix` starts at `i` and is followed by a character of the group's class. */
  predicate MatchesAt(s: string, i: nat, prefix: string, inGroup: char -> bool) {
    i + |prefix| < |s| && s[i..i + |prefix|] == prefix && inGroup(s[i + |prefix|])
  }

  /** The leftmost position at or after `from` where the pattern `prefix(class+)` matches,
      which is where `re.search` reports its match. */
  function FindMatch(s: string, prefix: string, inGroup: char -> bool, from: nat): (r: Option<nat>)
    requires from <= |s|
    ensures r.Some? ==> from <= r.value && MatchesAt(s, r.value, prefix, inGroup)
    ensures r.Some? ==> forall j :: from <= j < r.value ==> !MatchesAt(s, j, prefix, inGroup)
    ensures r.None? ==> forall j :: from <= j <= |s| ==> !MatchesAt(s, j, prefix, inGroup)
    decreases |s| - from
  {
    if from == |s| then None
    else if MatchesAt(s, from, prefix, inGroup) then Some(from)
    else FindMatch(s, prefix, inGroup, from + 1)
  }

  /** The greedy group `(class+)`: the longest run of class characters starting at `i`. */
  function Run(s: string, i: nat, inGroup: char -> bool): (r: string)
    requires i <= |s|
    ensures i + |r| <= |s| && r == s[i..i + |r|]
    ensures forall j :: 0 <= j < |r| ==> inGroup(r[j])
    ensures i + |r| == |s| || !inGroup(s[i + |r|])
    decreases |s| - i
  {
    if i < |s| && inGroup(s[i]) then [s[i]] + Run(s, i + 1, inGroup) else []
  }

  /** `re.search(prefix + "(class+)", s).group(1)`, or `None` when the search fails. */
  function Search(s: string, prefix: string, inGroup: char -> bool): (r: Option<string>)
    ensures r.None? <==> forall j :: 0 <= j <= |s| ==> !MatchesAt(s, j, prefix, inGroup)
    ensures r.Some? ==> r.value != [] && forall j :: 0 <= j < |r.value| ==> inGroup(r.value[j])
  {
    match FindMatch(s, prefix, inGroup, 0)
    case None => None
    case Some(i) => Some(Run(s, i + |prefix|, inGroup))
  }

  /** A group `re.search` reports is the one after a leftmost match. */
  lemma SearchFindsLeftmost(s: string, prefix: string, inGroup: char -> bool)
    ensures Search(s, prefix, inGroup).Some? ==>
      exists i: nat :: && MatchesAt(s, i, prefix, inGroup)
                    && (forall j :: 0 <= j < i ==> !MatchesAt(s, j, prefix, inGroup))
                    && Search(s, prefix, inGroup).value == Run(s, i + |prefix|, inGroup)
  {
    var f := FindMatch(s, prefix, inGroup, 0);
    if f.Some? {
      var i := f.value;
      assert MatchesAt(s, i, prefix, inGroup);
      assert Search(s, prefix, inGroup).value == Run(s, i + |prefix|, inGroup);
    }
  }

  /** The scan from `from` stops at the first match it reaches. */
  lemma {:induction false} FindMatchLeftmost(s: string, prefix: string, inGroup: char -> bool, from: nat, i: nat)
    requires from <= i
    requires MatchesAt(s, i, prefix, inGroup)
    requires forall j :: from <= j < i ==> !MatchesAt(s, j, prefix, inGroup)
    ensures FindMatch(s, prefix, inGroup, from) == Some(i)
    decreases i - from
  {
    if from < i {
      assert !MatchesAt(s, from, prefix, inGroup);
      FindMatchLeftmost(s, prefix, inGroup, from + 1, i);
    }
  }

  /** The group `re.search` reports is the one after the leftmost match, whichever that is. */
  lemma SearchAtLeftmost(s: string, prefix: string, inGroup: char -> bool, i: nat)
    requires MatchesAt(s, i, prefix, inGroup)
    requires forall j :: 0 <= j < i ==> !MatchesAt(s, j, prefix, inGroup)
    ensures Search(s, prefix, inGroup) == Some(Run(s, i + |prefix|, inGroup))
  {
    FindMatchLeftmost(s, prefix, inGroup, 0, i);
  }

  /** `parse_steam_url`: the rules are tried in this order: a `/profiles/<digits>` URL, a
      `/id/<name>` URL, exactly 17 digits, any other non-empty text not starting with
      "http"; everything else is rejected. */
  function ParseSteamUrl(url: string): (r: Result<ProfileRef, SteamError>)
    ensures r.Success? && r.value.Id64? ==> r.value.id != [] && AllDigits(r.value.id)
    ensures r.Success? && r.value.Vanity? ==> r.value.name != []
    ensures r.Failure? ==> r.error == InvalidReference
    ensures r.Failure? <==>
      && Search(Normalize(url), ProfilesPrefix, IsDigit).None?
      && Search(Normalize(url), IdPrefix, IsVanityChar).None?
      && (Normalize(url) == [] || StartsWith(Normalize(url), "http"))
    ensures var u := Normalize(url);
      Search(u, ProfilesPrefix, IsDigit).Some? ==> r == Success(Id64(Search(u, ProfilesPrefix, IsDigit).value))
    ensures var u := Normalize(url);
      Search(u, ProfilesPrefix, IsDigit).None? && Search(u, IdPrefix, IsVanityChar).Some? ==>
        r == Success(Vanity(Search(u, IdPrefix, IsVanityChar).value))
    ensures var u := Normalize(url);
      Search(u, ProfilesPrefix, IsDigit).None? && Search(u, IdPrefix, IsVanityChar).None? ==> r == ClassifyBare(u)
  {
    var u := Normalize(url);
    match Search(u, ProfilesPrefix, IsDigit)
    case Some(digits) => Success(Id64(digits))
    case None =>
      match Search(u, IdPrefix, IsVanityChar)
      case Some(name) => Success(Vanity(name))
      case None => ClassifyBare(u)
  }

  /** The last two rules, for text no URL pattern matched: exactly 17 digits is an ID,
      other non-empty text not starting with "http" is a vanity name. */
  function ClassifyBare(u: string): (r: Result<ProfileRef, SteamError>)
    ensures r.Success? && r.value.Id64? ==> r.value.id == u && |u| == Id64Length && AllDigits(u)
    ensures r.Success? && r.value.Vanity? ==> r.value.name == u && u != []
    ensures r.Failure? <==> u == [] || StartsWith(u, "http")
    ensures r.Failure? ==> r.error == InvalidReference
    ensures |u| == Id64Length && AllDigits(u) ==> r == Success(Id64(u))
    ensures !(|u| == Id64Length && AllDigits(u)) && u != [] && !StartsWith(u, "http") ==> r == Success(Vanity(u))
  {
    if |u| == Id64Length && AllDigits(u) then
      DigitsAreNoUrl(u);
      Success(Id64(u))
    else if u != [] && !StartsWith(u, "http") then Success(Vanity(u))
    else Failure(InvalidReference)
  }

  lemma DigitsAreNoUrl(u: string)
    requires u != [] && AllDigits(u)
    ensures !StartsWith(u, "http")
  {
    assert IsDigit(u[0]);
    if |u| >= 4 {
      assert u[..4][0] == u[0];
    }
  }

  /** The check at the end of `resolve_vanity_url`: the lookup counts only when the
      service reports `success == 1`. */
  function ResolveVanityUrl(vanity: string, response: VanityResponse): (r: Result<string, SteamError>)
    ensures r.Success? <==> response.success == Some(1) && response.steamid.Some?
    ensures r.Success? ==> r.value == response.steamid.value
    ensures response.success != Some(1) ==> r == Failure(AccountNotFound(vanity))
    ensures response.success == Some(1) && response.steamid.None? ==> r == Failure(MissingSteamId)
  {
    if response.success != Some(1) then Failure(AccountNotFound(vanity))
    else if response.steamid.None? then Failure(MissingSteamId)
    else Success(response.steamid.value)
  }

  /** `get_steam_id`: an ID is returned as parsed, a vanity name goes to `resolve`. */
  function GetSteamId(url: string, resolve: string -> VanityResponse): (r: Result<string, SteamError>)
    ensures ParseSteamUrl(url).Failure? ==> r == Failure(InvalidReference)
    ensures r.Success? ==>
      || (ParseSteamUrl(url) == Success(Id64(r.value)))
      || (exists name :: ParseSteamUrl(url) == Success(Vanity(name))
                      && resolve(name) == VanityResponse(Some(1), Some(r.value)))
    ensures forall name :: ParseSteamUrl(url) == Success(Vanity(name)) && resolve(name).success != Some(1)
                      ==> r == Failure(AccountNotFound(name))
    ensures forall id :: ParseSteamUrl(url) == Success(Id64(id)) ==> r == Success(id)
    ensures forall name :: ParseSteamUrl(url) == Success(Vanity(name)) ==> r == ResolveVanityUrl(name, resolve(name))
  {
    match ParseSteamUrl(url)
    case Failure(e) => Failure(e)
    case Success(Id64(id)) => Success(id)
    case Success(Vanity(name)) => ResolveVanityUrl(name, resolve(name))
  }

  /** A vanity name the service resolves, with `success == 1` and an ID, gives that ID. */
  lemma VanityResolvedGivesId(url: string, resolve: string -> VanityResponse, name: string, id: string)
    requires ParseSteamUrl(url) == Success(Vanity(name))
    requires resolve(name) == VanityResponse(Some(1), Some(id))
    ensures GetSteamId(url, resolve) == Success(id)
  {
  }

  /** An ID given as such is returned without asking the resolution service: the
      result is the same whatever `resolve` answers. */
  lemma Id64NeedsNoLookup(url: string, resolve1: string -> VanityResponse, resolve2: string -> VanityResponse)
    requires ParseSteamUrl(url).Success? && ParseSteamUrl(url).value.Id64?
    ensures GetSteamId(url, resolve1) == GetSteamId(url, resolve2) == Success(ParseSteamUrl(url).value.id)
  {
  }

  /** Text without leading or trailing whitespace and without trailing '/' is left as it is. */
  lemma NormalizeKeeps(s: string)
    requires s != [] && !IsSpace(s[0]) && !IsSpace(s[|s| - 1]) && !IsSlash(s[|s| - 1])
    ensures Normalize(s) == s
  {
  }

  /** The pattern cannot match at `j` when some character of its literal differs there. */
  lemma MismatchAt(s: string, j: nat, prefix: string, inGroup: char -> bool, k: nat)
    requires k < |prefix|
    requires j + |prefix| < |s| ==> s[j + k] != prefix[k]
    ensures !MatchesAt(s, j, prefix, inGroup)
  {
    if j + |prefix| < |s| {
      assert s[j..j + |prefix|][k] == s[j + k];
    }
  }

  /** The group takes the whole rest of the text when every character of it is in the class. */
  lemma {:induction false} RunTakesAll(s: string, i: nat, inGroup: char -> bool)
    requires i <= |s| && forall j :: i <= j < |s| ==> inGroup(s[j])
    ensures Run(s, i, inGroup) == s[i..]
    decreases |s| - i
  {
    if i < |s| {
      RunTakesAll(s, i + 1, inGroup);
    }
  }

  /** A pattern whose literal starts with a non-digit never matches inside a string of digits. */
  lemma NoPatternInDigits(u: string, prefix: string, inGroup: char -> bool)
    requires AllDigits(u) && prefix != [] && !IsDigit(prefix[0])
    ensures Search(u, prefix, inGroup).None?
  {
    forall j | 0 <= j <= |u| ensures !MatchesAt(u, j, prefix, inGroup) {
      MismatchAt(u, j, prefix, inGroup, 0);
    }
  }

  /** A bare 17-digit string is taken as a 64-bit ID, unchanged. */
  lemma {:induction false} SeventeenDigitsAreId64(s: string)
    requires |s| == Id64Length && AllDigits(s)
    ensures ParseSteamUrl(s) == Success(Id64(s))
  {
    NormalizeKeeps(s);
    NoPatternInDigits(s, ProfilesPrefix, IsDigit);
    NoPatternInDigits(s, IdPrefix, IsVanityChar);
  }

  /** Any other non-empty digit string, 16 or 18 digits long say, is taken as a vanity name. */
  lemma {:induction false} OtherDigitStringsAreVanity(s: string)
    requires s != [] && |s| != Id64Length && AllDigits(s)
    ensures ParseSteamUrl(s) == Success(Vanity(s))
  {
    NormalizeKeeps(s);
    NoPatternInDigits(s, ProfilesPrefix, IsDigit);
    NoPatternInDigits(s, IdPrefix, IsVanityChar);
  }

  /** Empty or all-whitespace input is rejected. */
  lemma {:induction false} BlankIsInvalid(url: string)
    requires forall i :: 0 <= i < |url| ==> IsSpace(url[i])
    ensures ParseSteamUrl(url) == Failure(InvalidReference)
  {
    TrimLeftAll(url, IsSpace);
  }

  const ProfileUrlHead: string := "https://" + ProfilesPrefix
  const IdUrlHead: string := "https://" + IdPrefix

  /** `https://steamcommunity.com/profiles/<digits>` yields the digits as the ID. */
  lemma {:induction false} ProfileUrlGivesId64(digits: string)
    requires digits != [] && AllDigits(digits)
    ensures ParseSteamUrl(ProfileUrlHead + digits) == Success(Id64(digits))
  {
    var s := ProfileUrlHead + digits;
    assert |ProfileUrlHead| == 36;
    NormalizeKeeps(s);
    forall j | 0 <= j < 8 ensures !MatchesAt(s, j, ProfilesPrefix, IsDigit) {
      MismatchAt(s, j, ProfilesPrefix, IsDigit, if j == 4 then 1 else 0);
    }
    assert s[8..36] == ProfilesPrefix;
    assert MatchesAt(s, 8, ProfilesPrefix, IsDigit);
    assert s[36..] == digits;
    RunTakesAll(s, 36, IsDigit);
  }

  /** No `/profiles/<digits>` match inside `https://steamcommunity.com/id/<name>`. */
  lemma {:induction false} IdUrlHasNoProfilesMatch(name: string)
    requires forall i :: 0 <= i < |name| ==> IsVanityChar(name[i])
    ensures Search(IdUrlHead + name, ProfilesPrefix, IsDigit).None?
  {
    var s := IdUrlHead + name;
    assert |IdUrlHead| == 30;
    forall j | 0 <= j <= |s| ensures !MatchesAt(s, j, ProfilesPrefix, IsDigit) {
      if j >= 30 {
        if j + 18 < |s| {
          assert s[j + 18] == name[j + 18 - 30];
        }
        MismatchAt(s, j, ProfilesPrefix, IsDigit, 18);
      } else {
        MismatchAt(s, j, ProfilesPrefix, IsDigit, if j == 8 then 19 else if j == 4 then 1 else 0);
      }
    }
  }

  /** The `/id/` pattern matches `https://steamcommunity.com/id/<name>` with the whole name. */
  lemma {:induction false} IdUrlMatchesName(name: string)
    requires name != [] && forall i :: 0 <= i < |name| ==> IsVanityChar(name[i])
    ensures Search(IdUrlHead + name, IdPrefix, IsVanityChar) == Some(name)
  {
    var s := IdUrlHead + name;
    assert |IdUrlHead| == 30;
    forall j | 0 <= j < 8 ensures !MatchesAt(s, j, IdPrefix, IsVanityChar) {
      MismatchAt(s, j, IdPrefix, IsVanityChar, if j == 4 then 1 else 0);
    }
    assert s[8..30] == IdPrefix;
    assert MatchesAt(s, 8, IdPrefix, IsVanityChar);
    assert s[30..] == name;
    RunTakesAll(s, 30, IsVanityChar);
  }

  /** Normalising drops a single trailing '/' after text that needs no other trimming. */
  lemma NormalizeDropsOneSlash(s: string)
    requires s != [] && !IsSpace(s[0]) && !IsSpace(s[|s| - 1]) && !IsSlash(s[|s| - 1])
    ensures Normalize(s + "/") == s
  {
    var url := s + "/";
    assert url[0] == s[0] && url[|url| - 1] == '/';
    assert TrimLeft(url, IsSpace) == url;
    assert Strip(url) == url;
    assert url[..|url| - 1] == s;
  }

  /** `https://steamcommunity.com/id/<name>`, with or without one trailing '/', yields the
      name as a vanity name when the name holds no '/', '?' or '#' and does not end in
      whitespace. */
  lemma {:induction false} IdUrlGivesVanity(name: string, trailingSlash: bool)
    requires name != [] && forall i :: 0 <= i < |name| ==> IsVanityChar(name[i])
    requires !IsSpace(name[|name| - 1])
    ensures ParseSteamUrl(IdUrlHead + name + (if trailingSlash then "/" else "")) == Success(Vanity(name))
  {
    var s := IdUrlHead + name;
    assert s[0] == IdUrlHead[0] && s[|s| - 1] == name[|name| - 1];
    if trailingSlash {
      NormalizeDropsOneSlash(s);
    } else {
      NormalizeKeeps(s);
    }
    IdUrlHasNoProfilesMatch(name);
    IdUrlMatchesName(name);
  }

  /** The first rule wins over all others: wherever the leftmost `/profiles/<digits>` match
      is, its digit run is the ID, even when an `/id/` match exists too. */
  lemma ProfilesMatchWins(url: string, i: nat)
    requires MatchesAt(Normalize(url), i, ProfilesPrefix, IsDigit)
    requires forall j :: 0 <= j < i ==> !MatchesAt(Normalize(url), j, ProfilesPrefix, IsDigit)
    ensures ParseSteamUrl(url) == Success(Id64(Run(Normalize(url), i + |ProfilesPrefix|, IsDigit)))
  {
    SearchAtLeftmost(Normalize(url), ProfilesPrefix, IsDigit, i);
  }

  /** Without a `/profiles/` match, the leftmost `/id/<name>` match gives its name run. */
  lemma IdMatchGivesVanity(url: string, i: nat)
    requires forall j :: 0 <= j <= |Normalize(url)| ==> !MatchesAt(Normalize(url), j, ProfilesPrefix, IsDigit)
    requires MatchesAt(Normalize(url), i, IdPrefix, IsVanityChar)
    requires forall j :: 0 <= j < i ==> !MatchesAt(Normalize(url), j, IdPrefix, IsVanityChar)
    ensures ParseSteamUrl(url) == Success(Vanity(Run(Normalize(url), i + |IdPrefix|, IsVanityChar)))
  {
    SearchAtLeftmost(Normalize(url), IdPrefix, IsVanityChar, i);
  }
}
