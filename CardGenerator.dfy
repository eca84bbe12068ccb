/** The deterministic parts of the profile card (card_generator.py): the tier
    colour table, the parser of "#rrggbb" colours, and the crop of the portrait. */
module CardGenerator {
  import opened Wrappers
  import opened Text
  import opened Analyzer

  const PortraitHeight: nat := 400
  /** The side of the square the generated portrait is resized to before cropping. */
  const PortraitSquare: nat := 600

  // ---------------------------------------------------------------- _hex_to_rgb

  predicate IsHash(c: char) {
    c == '#'
  }

  /** Python's `s[i:j]` for `0 <= i <= j`: the bounds are clamped to the length. */
  function Slice(s: string, i: nat, j: nat): (r: string)
    requires i <= j
    ensures |r| <= j - i
    ensures forall k :: 0 <= k < |r| ==> i + k < |s| && r[k] == s[i + k]
  {
    var lo := if i < |s| then i else |s|;
    var hi := if j < |s| then j else |s|;
    s[lo..hi]
  }

  /** Both ends are clamped to the string's length, as Python clamps slice bounds. */
  lemma SliceLength(s: string, i: nat, j: nat)
    requires i <= j
    ensures |Slice(s, i, j)| == (if j < |s| then j else |s|) - (if i < |s| then i else |s|)
  {
  }

  /** The value of a non-empty string of hexadecimal digits. */
  function HexDigitsValue(ds: string): (v: nat)
    requires forall k :: 0 <= k < |ds| ==> IsHexDigit(ds[k])
  {
    if ds == [] then 0 else 16 * HexDigitsValue(ds[..|ds| - 1]) + HexValue(ds[|ds| - 1])
  }

  predicate AllHex(ds: string) {
    ds != [] && forall k :: 0 <= k < |ds| ==> IsHexDigit(ds[k])
  }

  /** The blanks `int()` skips around a number: the ASCII blanks, and every non-ASCII
      character `str.isspace()` accepts. The ASCII separators U+001C..U+001F count as
      space for `str.strip()` but not here. */
  predicate IsIntSpace(c: char) {
    IsSpace(c) && !('\U{1C}' <= c <= '\U{1F}')
  }

  /** The piece with the blanks `int()` skips removed from both ends. */
  function IntStrip(s: string): (r: string)
    ensures r == [] || (!IsIntSpace(r[0]) && !IsIntSpace(r[|r| - 1]))
  {
    TrimRight(TrimLeft(s, IsIntSpace), IsIntSpace)
  }

  /** `int(piece, 16)` on the pieces `_hex_to_rgb` cuts (at most two characters):
      surrounding blanks, then an optional sign, then hexadecimal digits; `None`
      where Python raises `ValueError`. */
  function ParseHex(piece: string): (r: Option<int>)
    ensures r.Some? <==> (AllHex(IntStrip(piece))
      || (|IntStrip(piece)| > 0 && (IntStrip(piece)[0] == '+' || IntStrip(piece)[0] == '-') && AllHex(IntStrip(piece)[1..])))
    ensures r.Some? && r.value < 0 ==> IntStrip(piece)[0] == '-'
  {
    var t := IntStrip(piece);
    if AllHex(t) then Some(HexDigitsValue(t) as int)
    else if t != [] && t[0] == '+' && AllHex(t[1..]) then Some(HexDigitsValue(t[1..]))
    else if t != [] && t[0] == '-' && AllHex(t[1..]) then Some(-(HexDigitsValue(t[1..]) as int))
    else None
  }

  /** The separator U+001C, which `str.strip()` would remove, makes `int` fail. */
  lemma ParseHexRejectsSeparator()
    ensures ParseHex("\U{1C}f") == None
  {
    var s := "\U{1C}f";
    assert !IsIntSpace(s[0]) && !IsIntSpace(s[1]);
    assert TrimLeft(s, IsIntSpace) == s;
    assert TrimRight(s, IsIntSpace) == s;
    assert !IsHexDigit(s[0]) && s[0] != '+' && s[0] != '-';
  }

  /** A string of at most two hexadecimal digits is worth less than 256, and a single
      digit less than 16. */
  lemma SmallHexValue(ds: string)
    requires |ds| <= 2 && forall k :: 0 <= k < |ds| ==> IsHexDigit(ds[k])
    ensures HexDigitsValue(ds) < if |ds| <= 1 then 16 else 256
  {
    if |ds| == 2 {
      TwoHexDigitsValue(ds);
    } else if |ds| == 1 {
      assert ds[..0] == [];
    }
  }

  /** What `int(piece, 16)` can give on a piece of at most two characters: at most "ff",
      or a sign and one digit. */
  lemma ParseHexBounds(piece: string)
    requires |piece| <= 2
    ensures ParseHex(piece).Some? ==> -16 < ParseHex(piece).value < 256
  {
    var t := IntStrip(piece);
    assert |t| <= |piece| by {
      assert |TrimLeft(piece, IsIntSpace)| <= |piece|;
    }
    if AllHex(t) {
      SmallHexValue(t);
      assert ParseHex(piece) == Some(HexDigitsValue(t) as int);
    } else if t != [] && t[0] == '+' && AllHex(t[1..]) {
      SmallHexValue(t[1..]);
      assert ParseHex(piece) == Some(HexDigitsValue(t[1..]) as int);
    } else if t != [] && t[0] == '-' && AllHex(t[1..]) {
      SmallHexValue(t[1..]);
      assert ParseHex(piece) == Some(-(HexDigitsValue(t[1..]) as int));
    } else {
      assert ParseHex(piece) == None;
    }
  }

  /** The piece at offset 4 is empty, and does not parse, unless five characters are there. */
  lemma ThirdPieceNeedsFive(h: string)
    ensures ParseHex(Slice(h, 4, 6)).Some? ==> |h| >= 5
  {
    if |h| < 5 {
      assert Slice(h, 4, 6) == [];
      assert IntStrip([]) == [];
    }
  }

  /** `_hex_to_rgb`: drop every leading '#', then read the pieces at offsets 0, 2 and 4.
      It fails unless at least five characters follow the '#'s. */
  function HexToRgb(color: string): (rgb: Option<(int, int, int)>)
    ensures rgb.Some? ==> |TrimLeft(color, IsHash)| >= 5
  {
    var h := TrimLeft(color, IsHash);
    var p0, p1, p2 := Slice(h, 0, 2), Slice(h, 2, 4), Slice(h, 4, 6);
    ThirdPieceNeedsFive(h);
    var r, g, b := ParseHex(p0), ParseHex(p1), ParseHex(p2);
    if r.Some? && g.Some? && b.Some? then Some((r.value, g.value, b.value)) else None
  }

  /** A colour written as '#' and six hexadecimal digits. */
  predicate IsHexColor(s: string) {
    |s| == 7 && s[0] == '#' && forall k :: 1 <= k < 7 ==> IsHexDigit(s[k])
  }

  /** The two-digit lower-case hexadecimal form of a component. */
  function Hex2(v: nat): (s: string)
    requires v < 256
    ensures |s| == 2 && IsHexDigit(s[0]) && IsHexDigit(s[1])
    ensures 16 * HexValue(s[0]) + HexValue(s[1]) == v
  {
    [HexChar(v / 16), HexChar(v % 16)]
  }

  /** Any number of leading '#' is ignored. */
  lemma HexToRgbIgnoresHashes(color: string)
    ensures HexToRgb("#" + color) == HexToRgb(color)
  {
    assert ("#" + color)[1..] == color;
  }

  lemma HexDigitIsNoSpace(c: char)
    requires IsHexDigit(c)
    ensures !IsIntSpace(c)
  {
  }

  lemma StripHexDigits(piece: string)
    requires AllHex(piece)
    ensures IntStrip(piece) == piece
  {
    HexDigitIsNoSpace(piece[0]);
    HexDigitIsNoSpace(piece[|piece| - 1]);
    assert TrimLeft(piece, IsIntSpace) == piece;
  }

  lemma ParseHexDigits(piece: string)
    requires AllHex(piece)
    ensures ParseHex(piece) == Some(HexDigitsValue(piece) as int)
  {
    StripHexDigits(piece);
  }

  lemma TwoHexDigitsValue(piece: string)
    requires |piece| == 2 && IsHexDigit(piece[0]) && IsHexDigit(piece[1])
    ensures HexDigitsValue(piece) == 16 * HexValue(piece[0]) + HexValue(piece[1])
  {
    assert HexDigitsValue(piece) == 16 * HexDigitsValue(piece[..1]) + HexValue(piece[1]);
    assert HexDigitsValue(piece[..1]) == 16 * HexDigitsValue(piece[..1][..0]) + HexValue(piece[0]);
  }

  lemma TwoHexDigits(piece: string)
    requires |piece| == 2 && IsHexDigit(piece[0]) && IsHexDigit(piece[1])
    ensures ParseHex(piece) == Some(16 * HexValue(piece[0]) + HexValue(piece[1]))
  {
    ParseHexDigits(piece);
    TwoHexDigitsValue(piece);
  }

  lemma DropHash(color: string)
    requires IsHexColor(color)
    ensures TrimLeft(color, IsHash) == color[1..]
  {
    assert !IsHash(color[1..][0]);
    assert TrimLeft(color[1..], IsHash) == color[1..];
  }

  lemma SlicePair(h: string, k: nat)
    requires k + 2 <= |h|
    ensures Slice(h, k, k + 2) == [h[k], h[k + 1]]
  {
  }

  /** When the three pieces parse, the colour is made of their values. */
  lemma HexToRgbOfPieces(color: string, h: string, r: int, g: int, b: int)
    requires h == TrimLeft(color, IsHash)
    requires ParseHex(Slice(h, 0, 2)) == Some(r)
    requires ParseHex(Slice(h, 2, 4)) == Some(g)
    requires ParseHex(Slice(h, 4, 6)) == Some(b)
    ensures HexToRgb(color) == Some((r, g, b))
  {
  }

  /** Two hexadecimal digits at `k` make a piece worth their value. */
  lemma PieceAt(h: string, k: nat, v: int)
    requires k + 2 <= |h| && IsHexDigit(h[k]) && IsHexDigit(h[k + 1])
    requires v == 16 * HexValue(h[k]) + HexValue(h[k + 1])
    ensures ParseHex(Slice(h, k, k + 2)) == Some(v)
  {
    var piece := Slice(h, k, k + 2);
    assert |piece| == 2 && piece[0] == h[k] && piece[1] == h[k + 1] by {
      SlicePair(h, k);
    }
    TwoHexDigits(piece);
    assert 16 * HexValue(piece[0]) + HexValue(piece[1]) == v;
    assert ParseHex(piece) == Some(v);
  }

  /** Six hexadecimal digits make three pieces worth their digit pairs. */
  lemma SixDigitPieces(h: string, r: int, g: int, b: int)
    requires |h| == 6 && forall k :: 0 <= k < 6 ==> IsHexDigit(h[k])
    requires r == 16 * HexValue(h[0]) + HexValue(h[1])
    requires g == 16 * HexValue(h[2]) + HexValue(h[3])
    requires b == 16 * HexValue(h[4]) + HexValue(h[5])
    ensures ParseHex(Slice(h, 0, 2)) == Some(r)
    ensures ParseHex(Slice(h, 2, 4)) == Some(g)
    ensures ParseHex(Slice(h, 4, 6)) == Some(b)
  {
    PieceAt(h, 0, r);
    PieceAt(h, 2, g);
    PieceAt(h, 4, b);
  }

  /** A well-formed colour parses into the values of its three digit pairs. */
  lemma ColorFromDigits(color: string, r: int, g: int, b: int)
    requires IsHexColor(color)
    requires 16 * HexValue(color[1]) + HexValue(color[2]) == r
    requires 16 * HexValue(color[3]) + HexValue(color[4]) == g
    requires 16 * HexValue(color[5]) + HexValue(color[6]) == b
    ensures HexToRgb(color) == Some((r, g, b))
  {
    var h := color[1..];
    DropHash(color);
    assert forall k :: 0 <= k < 6 ==> h[k] == color[k + 1];
    SixDigitPieces(h, r, g, b);
    HexToRgbOfPieces(color, h, r, g, b);
  }

  /** A well-formed colour parses, and each component is a byte. */
  lemma HexColorComponents(color: string)
    requires IsHexColor(color)
    ensures HexToRgb(color).Some?
    ensures 0 <= HexToRgb(color).value.0 < 256
    ensures 0 <= HexToRgb(color).value.1 < 256
    ensures 0 <= HexToRgb(color).value.2 < 256
    ensures HexToRgb(color) == Some((
      16 * HexValue(color[1]) + HexValue(color[2]),
      16 * HexValue(color[3]) + HexValue(color[4]),
      16 * HexValue(color[5]) + HexValue(color[6])))
  {
    ColorFromDigits(color,
      16 * HexValue(color[1]) + HexValue(color[2]),
      16 * HexValue(color[3]) + HexValue(color[4]),
      16 * HexValue(color[5]) + HexValue(color[6]));
  }

  /** Writing a colour out and parsing it back gives the same components. */
  lemma HexToRgbRoundTrip(r: nat, g: nat, b: nat)
    requires r < 256 && g < 256 && b < 256
    ensures IsHexColor("#" + Hex2(r) + Hex2(g) + Hex2(b))
    ensures HexToRgb("#" + Hex2(r) + Hex2(g) + Hex2(b)) == Some((r, g, b))
  {
    var x, y, z := Hex2(r), Hex2(g), Hex2(b);
    var color := ['#', x[0], x[1], y[0], y[1], z[0], z[1]];
    assert "#" + x + y + z == color;
    ColorFromDigits(color, r, g, b);
  }

  /** Whatever the input, a parsed component is a byte, or a negative one-digit value when
      its piece starts with '-' (as in "#-f-f-f"). */
  lemma HexToRgbBounds(color: string)
    ensures HexToRgb(color).Some? ==>
      && -16 < HexToRgb(color).value.0 < 256
      && -16 < HexToRgb(color).value.1 < 256
      && -16 < HexToRgb(color).value.2 < 256
  {
    var h := TrimLeft(color, IsHash);
    ParseHexBounds(Slice(h, 0, 2));
    ParseHexBounds(Slice(h, 2, 4));
    ParseHexBounds(Slice(h, 4, 6));
  }

  /** A three-digit shorthand colour is not understood: its third piece is empty. */
  lemma ShortHexColorFails()
    ensures HexToRgb("#fff") == None
  {
    assert TrimLeft("#fff", IsHash) == "fff" by {
      assert "#fff"[1..] == "fff";
      assert TrimLeft("fff", IsHash) == "fff";
    }
    assert Slice("fff", 4, 6) == [];
  }

  // ---------------------------------------------------------------- TIER_COLORS

  datatype Palette = Palette(bg: string, accent: string, text: string)

  predicate WellFormedPalette(p: Palette) {
    IsHexColor(p.bg) && IsHexColor(p.accent) && IsHexColor(p.text)
  }

  /** `TIER_COLORS`: the palette of each tier letter. */
  function TierColors(): (m: map<string, Palette>)
    ensures m.Keys == {"S", "A", "B", "C", "D"}
  {
    map[
      "S" := Palette("#1a0a2e", "#ff6b35", "#ffffff"),
      "A" := Palette("#0d1b2a", "#48bfe3", "#ffffff"),
      "B" := Palette("#1b2838", "#66bb6a", "#ffffff"),
      "C" := Palette("#2c2c2c", "#90a4ae", "#e0e0e0"),
      "D" := Palette("#3c3c3c", "#78909c", "#e0e0e0")]
  }

  lemma SixHexDigits(s: string)
    requires |s| == 7 && s[0] == '#'
    requires IsHexDigit(s[1]) && IsHexDigit(s[2]) && IsHexDigit(s[3])
    requires IsHexDigit(s[4]) && IsHexDigit(s[5]) && IsHexDigit(s[6])
    ensures IsHexColor(s)
  {
  }

  /** Every palette entry is a well-formed colour. */
  lemma TierColorsWellFormed()
    ensures forall key :: key in TierColors() ==> WellFormedPalette(TierColors()[key])
  {
    forall key | key in TierColors() ensures WellFormedPalette(TierColors()[key]) {
      var p := TierColors()[key];
      SixHexDigits(p.bg);
      SixHexDigits(p.accent);
      SixHexDigits(p.text);
    }
  }

  /** Every tier `calculate_tier` can return has a palette. */
  lemma EveryTierHasColors()
    ensures forall t: Tier :: Letter(t) in TierColors()
  {
  }

  /** `TIER_COLORS.get(tier, TIER_COLORS["B"])`. */
  function ColorsFor(tier: string): (p: Palette)
    ensures WellFormedPalette(p)
    ensures p in TierColors().Values
  {
    TierColorsWellFormed();
    if tier in TierColors() then TierColors()[tier] else TierColors()["B"]
  }

  /** A tier has its own colours. */
  lemma TierDrawnInItsColors(t: Tier)
    ensures ColorsFor(Letter(t)) == TierColors()[Letter(t)]
  {
    EveryTierHasColors();
  }

  /** An unknown tier is drawn with the colours of B. */
  lemma UnknownTierDrawnAsB(tier: string)
    requires TierOfLetter(tier).None?
    ensures ColorsFor(tier) == ColorsFor("B")
  {
  }

  /** The card never fails on its colours: every palette parses to bytes. */
  lemma CardColorsParse(tier: string)
    ensures HexToRgb(ColorsFor(tier).bg).Some?
    ensures HexToRgb(ColorsFor(tier).accent).Some?
    ensures HexToRgb(ColorsFor(tier).text).Some?
  {
    var p := ColorsFor(tier);
    HexColorComponents(p.bg);
    HexColorComponents(p.accent);
    HexColorComponents(p.text);
  }

  // ---------------------------------------------------------------- the portrait

  /** The crop box (left, top, right, bottom) cut from the resized square portrait:
      the full width and `PortraitHeight` rows, centred vertically. */
  function PortraitCropBox(): (box: (int, int, int, int))
    ensures box.1 == 100
    ensures box.0 == 0 && box.2 == PortraitSquare
    ensures box.3 - box.1 == PortraitHeight
    ensures 0 <= box.1 && box.3 <= PortraitSquare && box.1 == PortraitSquare - box.3
  {
    var top := (PortraitSquare - PortraitHeight) / 2;
    (0, top, PortraitSquare, top + PortraitHeight)
  }
}
