/** Character classes and the string-trimming helpers that Python's `str`
    methods provide to the profile parser and the colour parser. */
module Text {

  /** Python's `str.isspace()`: the characters `str.strip()` removes. */
  predicate IsSpace(c: char) {
    || c == ' ' || c == '\t' || c == '\n' || c == '\r' || c == '\U{0B}' || c == '\U{0C}'
    || ('\U{1C}' <= c <= '\U{1F}')
    || c == '\U{85}' || c == '\U{A0}' || c == '\U{1680}'
    || ('\U{2000}' <= c <= '\U{200A}')
    || c == '\U{2028}' || c == '\U{2029}' || c == '\U{202F}' || c == '\U{205F}' || c == '\U{3000}'
  }

  /** An ASCII decimal digit, what the pattern `\d` matches in this model. */
  predicate IsDigit(c: char) {
    '0' <= c <= '9'
  }

  predicate IsHexDigit(c: char) {
    IsDigit(c) || 'a' <= c <= 'f' || 'A' <= c <= 'F'
  }

  function HexValue(c: char): (v: nat)
    requires IsHexDigit(c)
    ensures v < 16
  {
    if IsDigit(c) then c as nat - '0' as nat
    else if 'a' <= c <= 'f' then c as nat - 'a' as nat + 10
    else c as nat - 'A' as nat + 10
  }

  /** The lower-case hexadecimal digit for `v`, as Python's `format(v, "x")` writes it. */
  function HexChar(v: nat): (c: char)
    requires v < 16
    ensures IsHexDigit(c) && HexValue(c) == v
  {
    if v < 10 then ('0' as nat + v) as char else ('a' as nat + v - 10) as char
  }

  predicate StartsWith(s: string, prefix: string) {
    |prefix| <= |s| && s[..|prefix|] == prefix
  }

  /** `s` with every leading character satisfying `p` removed (Python's `lstrip`). */
  function TrimLeft(s: string, p: char -> bool): (r: string)
    ensures |r| <= |s| && r == s[|s| - |r|..]
    ensures r == [] || !p(r[0])
    ensures forall i :: 0 <= i < |s| - |r| ==> p(s[i])
  {
    if s != [] && p(s[0]) then TrimLeft(s[1..], p) else s
  }

  /** `s` with every trailing character satisfying `p` removed (Python's `rstrip`). */
  function TrimRight(s: string, p: char -> bool): (r: string)
    ensures |r| <= |s| && r == s[..|r|]
    ensures r == [] || !p(r[|r| - 1])
    ensures forall i :: |r| <= i < |s| ==> p(s[i])
  {
    if s != [] && p(s[|s| - 1]) then TrimRight(s[..|s| - 1], p) else s
  }

  /** Python's `s.strip()`. */
  function Strip(s: string): (r: string)
    ensures r == [] || (!IsSpace(r[0]) && !IsSpace(r[|r| - 1]))
  {
    TrimRight(TrimLeft(s, IsSpace), IsSpace)
  }

  function DigitChar(d: nat): (c: char)
    requires d < 10
    ensures IsDigit(c)
  {
    ('0' as nat + d) as char
  }

  /** The number a string of decimal digits denotes, as `int(s)` reads it. */
  function DecimalValue(s: string): nat
    requires forall i :: 0 <= i < |s| ==> IsDigit(s[i])
  {
    if s == [] then 0
    else
      var last := s[|s| - 1];
      assert IsDigit(last);
      10 * DecimalValue(s[..|s| - 1]) + (last as nat - '0' as nat)
  }

  /** Python's `str(n)` for a non-negative integer: decimal digits without a leading
      zero. */
  function NatToDecimal(n: nat): (r: string)
    ensures r != [] && forall i :: 0 <= i < |r| ==> IsDigit(r[i])
    ensures n != 0 ==> r[0] != '0'
  {
    if n < 10 then [DigitChar(n)] else NatToDecimal(n / 10) + [DigitChar(n % 10)]
  }

  /** The digits of `str(n)` read back as `n`. */
  lemma {:induction false} NatToDecimalReadsBack(n: nat)
    ensures DecimalValue(NatToDecimal(n)) == n
  {
    var r := NatToDecimal(n);
    if n < 10 {
      assert r[..0] == [];
    } else {
      NatToDecimalReadsBack(n / 10);
      assert r[..|r| - 1] == NatToDecimal(n / 10);
    }
  }

  lemma {:induction false} TrimLeftAll(s: string, p: char -> bool)
    requires forall i :: 0 <= i < |s| ==> p(s[i])
    ensures TrimLeft(s, p) == []
  {
    if s != [] {
      TrimLeftAll(s[1..], p);
    }
  }
}
