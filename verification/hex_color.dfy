/** Hex colour parsing as done by `hex_to_rgb` in scripts/screenshots/composite.py:
    strip every leading '#', cut the rest into the slices [0,2), [2,4), [4,6)
    (Python slices, so they clamp at the end of the string), and read each slice
    with Python's `int(slice, 16)`. */
module HexColor {
  import opened Results

  datatype Rgb = Rgb(r: int, g: int, b: int)

  /** Raised as ValueError by `int(text, 16)`; `offset` is the slice start (0, 2 or 4). */
  datatype HexError = InvalidLiteral(text: string, offset: nat)

  predicate IsHexDigit(c: char) {
    ('0' <= c <= '9') || ('a' <= c <= 'f') || ('A' <= c <= 'F')
  }

  function DigitValue(c: char): (v: nat)
    requires IsHexDigit(c)
    ensures v < 16
  {
    if '0' <= c <= '9' then c as int - '0' as int
    else if 'a' <= c <= 'f' then c as int - 'a' as int + 10
    else c as int - 'A' as int + 10
  }

  /** The lower-case digit for a value below 16. */
  function HexChar(v: nat): (c: char)
    requires v < 16
    ensures IsHexDigit(c) && DigitValue(c) == v
  {
    if v < 10 then ('0' as int + v) as char else ('a' as int + v - 10) as char
  }

  /** The whitespace `int()` strips around a literal: the ASCII space and
      '\t' through '\r', and every non-ASCII character for which `str.isspace`
      holds (`int()` turns those into a space first). The ASCII separators
      U+001C..U+001F satisfy `str.isspace` but are not stripped. */
  predicate IsSpace(c: char) {
    c == ' ' || ('\t' <= c <= '\r')
    || c == '\U{85}' || c == '\U{a0}' || c == '\U{1680}'
    || ('\U{2000}' <= c <= '\U{200a}') || c == '\U{2028}' || c == '\U{2029}'
    || c == '\U{202f}' || c == '\U{205f}' || c == '\U{3000}'
  }

  function StripLeft(s: string): (t: string)
    ensures |t| <= |s|
    ensures |t| > 0 ==> !IsSpace(t[0])
  {
    if |s| > 0 && IsSpace(s[0]) then StripLeft(s[1..]) else s
  }

  function StripRight(s: string): (t: string)
    ensures |t| <= |s|
    ensures |t| > 0 ==> !IsSpace(t[|t| - 1])
  {
    if |s| > 0 && IsSpace(s[|s| - 1]) then StripRight(s[..|s| - 1]) else s
  }

  function Strip(s: string): string {
    StripRight(StripLeft(s))
  }

  /** Digits of a base-16 literal: hex digits with single underscores between them. */
  predicate ValidDigits(d: string) {
    && |d| > 0
    && IsHexDigit(d[0])
    && IsHexDigit(d[|d| - 1])
    && (forall i :: 0 <= i < |d| ==> IsHexDigit(d[i]) || d[i] == '_')
    && NoDoubleUnderscore(d)
  }

  predicate NoDoubleUnderscore(d: string) {
    |d| < 2 || (!(d[0] == '_' && d[1] == '_') && NoDoubleUnderscore(d[1..]))
  }

  /** Numeric value of a digit string, underscores ignored (it is only read
      for strings that satisfy ValidDigits). */
  function DigitsValue(d: string): nat
  {
    if |d| == 0 then 0
    else if !IsHexDigit(d[|d| - 1]) then DigitsValue(d[..|d| - 1])
    else DigitsValue(d[..|d| - 1]) * 16 + DigitValue(d[|d| - 1])
  }

  /** Base 16 admits an optional "0x"/"0X" prefix, which may be followed by one underscore. */
  function DropHexPrefix(u: string): (d: string)
    ensures |d| <= |u|
  {
    if |u| >= 2 && u[0] == '0' && (u[1] == 'x' || u[1] == 'X') then
      if |u| >= 3 && u[2] == '_' then u[3..] else u[2..]
    else u
  }

  predicate HasSign(t: string) {
    |t| > 0 && (t[0] == '-' || t[0] == '+')
  }

  /** The digits of a stripped literal: sign and base prefix removed. */
  function Unsigned(t: string): (d: string)
    ensures |d| <= |t|
    ensures !HasSign(t) && !(|t| >= 2 && t[0] == '0' && (t[1] == 'x' || t[1] == 'X')) ==> d == t
  {
    DropHexPrefix(if HasSign(t) then t[1..] else t)
  }

  /** Python's `int(s, 16)` on a `str`: None where Python raises ValueError.
      Only ASCII hex digits are digits here. A value needs a non-empty
      literal once whitespace is stripped, and is negative only after '-'. */
  function ParseInt16(s: string): (r: Option<int>)
    ensures r.Some? ==> |Strip(s)| > 0 && (r.value < 0 ==> Strip(s)[0] == '-')
  {
    var t := Strip(s);
    var d := Unsigned(t);
    if !ValidDigits(d) then None
    else if |t| > 0 && t[0] == '-' then Some(-(DigitsValue(d) as int))
    else Some(DigitsValue(d))
  }

  /** `int(x, 16)` for the slices `hex_to_rgb` takes, which have at most two
      characters: decided case by case (FieldAgreesWithInt16 proves it equal
      to ParseInt16 on every such string). */
  function ParseField(x: string): (r: Option<int>)
    requires |x| <= 2
    ensures r.Some? ==> InByteOrNegDigit(r.value)
  {
    if |x| == 0 then None
    else if |x| == 1 then
      if IsHexDigit(x[0]) then Some(DigitValue(x[0])) else None
    else
      var a, b := x[0], x[1];
      if IsHexDigit(a) && IsHexDigit(b) then Some(PairValue(a, b))
      else if IsHexDigit(a) && IsSpace(b) then Some(DigitValue(a))
      else if IsSpace(a) && IsHexDigit(b) then Some(DigitValue(b))
      else if a == '+' && IsHexDigit(b) then Some(DigitValue(b))
      else if a == '-' && IsHexDigit(b) then Some(-(DigitValue(b) as int))
      else None
  }

  /** `h` is `s` with some prefix removed (SuffixIsSlice: `h == s[|s| - |h|..]`). */
  predicate IsSuffix(h: string, s: string) {
    h == s || (|s| > 0 && IsSuffix(h, s[1..]))
  }

  /** Python's `s.lstrip("#")`. */
  function StripHashes(s: string): (h: string)
    ensures |h| <= |s| && IsSuffix(h, s)
    ensures |h| > 0 ==> h[0] != '#'
    ensures forall i :: 0 <= i < |s| - |h| ==> s[i] == '#'
  {
    if |s| > 0 && s[0] == '#' then StripHashes(s[1..]) else s
  }

  /** Python's slice `h[i : i + 2]`, clamped to the string. */
  function Field(h: string, i: nat): (f: string)
    ensures |f| <= 2
    ensures i + 2 <= |h| ==> f == h[i..i + 2]
    ensures i < |h| < i + 2 ==> f == h[i..]
    ensures |h| <= i ==> f == ""
  {
    var lo := if i <= |h| then i else |h|;
    var hi := if i + 2 <= |h| then i + 2 else |h|;
    h[lo..hi]
  }

  /** `hex_to_rgb`: a colour exactly when all three slices of the '#'-stripped
      text read, with the channels their readings; otherwise the first slice
      that does not read is reported with its offset. */
  function HexToRgb(s: string): (res: Result<Rgb, HexError>)
    ensures var h := StripHashes(s);
            res.Ok? <==> Reading(h, 0).Some? && Reading(h, 2).Some? && Reading(h, 4).Some?
    ensures var h := StripHashes(s);
            res.Ok? ==> res.value == Rgb(Reading(h, 0).value, Reading(h, 2).value, Reading(h, 4).value)
    ensures res.Ok? ==> InByteOrNegDigit(res.value.r) && InByteOrNegDigit(res.value.g)
                        && InByteOrNegDigit(res.value.b)
    ensures var h := StripHashes(s);
            res.Err? ==> && (res.error.offset == 0 || res.error.offset == 2 || res.error.offset == 4)
                         && res.error.text == Field(h, res.error.offset)
                         && Reading(h, res.error.offset).None?
                         && (res.error.offset >= 2 ==> Reading(h, 0).Some?)
                         && (res.error.offset == 4 ==> Reading(h, 2).Some?)
  {
    ParseFields(StripHashes(s))
  }

  /** The three slices of the '#'-stripped text, read left to right; the first
      slice that does not parse is the one reported. */
  function ParseFields(h: string): (res: Result<Rgb, HexError>)
    ensures res.Ok? <==> Reading(h, 0).Some? && Reading(h, 2).Some? && Reading(h, 4).Some?
    ensures res.Ok? ==> res.value == Rgb(Reading(h, 0).value, Reading(h, 2).value, Reading(h, 4).value)
    ensures res.Ok? ==> InByteOrNegDigit(res.value.r) && InByteOrNegDigit(res.value.g)
                        && InByteOrNegDigit(res.value.b)
    ensures res.Err? ==> && (res.error.offset == 0 || res.error.offset == 2 || res.error.offset == 4)
                         && res.error.text == Field(h, res.error.offset)
                         && Reading(h, res.error.offset).None?
                         && (res.error.offset >= 2 ==> Reading(h, 0).Some?)
                         && (res.error.offset == 4 ==> Reading(h, 2).Some?)
  {
    var f0, f2, f4 := Field(h, 0), Field(h, 2), Field(h, 4);
    match ParseField(f0)
    case None => Err(InvalidLiteral(f0, 0))
    case Some(r) =>
      match ParseField(f2)
      case None => Err(InvalidLiteral(f2, 2))
      case Some(g) =>
        match ParseField(f4)
        case None => Err(InvalidLiteral(f4, 4))
        case Some(b) => Ok(Rgb(r, g, b))
  }

  /** `int(h[o : o + 2], 16)`. */
  function Reading(h: string, o: nat): Option<int> {
    ParseField(Field(h, o))
  }

  /** A two-character slice reads as -15..255: two digits, or a sign and one digit. */
  predicate InByteOrNegDigit(v: int) {
    -15 <= v <= 255
  }

  predicate IsByte(v: int) {
    0 <= v <= 255
  }

  /** The two-digit value of a pair of hex digits. */
  function PairValue(a: char, b: char): (v: nat)
    requires IsHexDigit(a) && IsHexDigit(b)
    ensures v <= 255
  {
    16 * DigitValue(a) + DigitValue(b)
  }

  /** Lower-case two-digit rendering of each channel, without '#'. */
  function RenderHex(c: Rgb): (s: string)
    requires IsByte(c.r) && IsByte(c.g) && IsByte(c.b)
    ensures |s| == 6 && forall i :: 0 <= i < 6 ==> IsHexDigit(s[i])
  {
    [HexChar(c.r / 16), HexChar(c.r % 16), HexChar(c.g / 16), HexChar(c.g % 16),
     HexChar(c.b / 16), HexChar(c.b % 16)]
  }

  function Hashes(n: nat): (s: string)
    ensures |s| == n && forall i :: 0 <= i < n ==> s[i] == '#'
  {
    if n == 0 then "" else "#" + Hashes(n - 1)
  }

  // ---------------------------------------------------------------------------
  // Lemmas
  // ---------------------------------------------------------------------------

  lemma StripOfDigits(s: string)
    requires forall i :: 0 <= i < |s| ==> IsHexDigit(s[i])
    ensures Strip(s) == s
  {
    if |s| > 0 {
      assert !IsSpace(s[0]);
      assert StripLeft(s) == s;
      assert !IsSpace(s[|s| - 1]);
    }
  }

  lemma {:induction false} DigitsHaveNoDoubleUnderscore(d: string)
    requires forall i :: 0 <= i < |d| ==> IsHexDigit(d[i])
    ensures NoDoubleUnderscore(d)
  {
    if |d| >= 2 {
      assert IsHexDigit(d[0]);
      DigitsHaveNoDoubleUnderscore(d[1..]);
    }
  }

  lemma DigitsAreValid(d: string)
    requires |d| > 0 && forall i :: 0 <= i < |d| ==> IsHexDigit(d[i])
    ensures ValidDigits(d)
  {
    DigitsHaveNoDoubleUnderscore(d);
  }

  lemma UnsignedOfDigits(d: string)
    requires |d| > 0 && forall i :: 0 <= i < |d| ==> IsHexDigit(d[i])
    ensures !HasSign(d) && Unsigned(d) == d
  {
    assert !HasSign(d);
    if |d| >= 2 { assert IsHexDigit(d[1]); }
  }

  /** A string of hex digits alone reads as its value. */
  lemma ParseDigits(d: string)
    requires |d| > 0 && forall i :: 0 <= i < |d| ==> IsHexDigit(d[i])
    ensures ParseInt16(d) == Some(DigitsValue(d))
  {
    StripOfDigits(d);
    UnsignedOfDigits(d);
    DigitsAreValid(d);
    ParseOfPlain(d);
  }

  /** A literal with nothing to strip, no sign and no prefix reads as its digits. */
  lemma ParseOfPlain(d: string)
    requires Strip(d) == d && !HasSign(d) && Unsigned(d) == d && ValidDigits(d)
    ensures ParseInt16(d) == Some(DigitsValue(d))
  {
  }

  /** Two hex digits read as their two-digit value. */
  lemma ParsePair(a: char, b: char)
    requires IsHexDigit(a) && IsHexDigit(b)
    ensures ParseInt16([a, b]) == Some(PairValue(a, b))
  {
    var s := [a, b];
    ParseDigits(s);
    assert s[..1] == [a] && s[1] == b;
    assert [a][..0] == [];
    assert DigitsValue([a]) == DigitValue(a);
  }

  /** ParseField is Python's `int(x, 16)` on every string of at most two characters. */
  lemma FieldAgreesWithInt16(x: string)
    requires |x| <= 2
    ensures ParseField(x) == ParseInt16(x)
  {
    if |x| == 0 {
      assert Strip(x) == x;
    } else if |x| == 1 {
      assert x == [x[0]];
      OneAgrees(x[0]);
    } else {
      assert x == [x[0], x[1]];
      TwoAgrees(x[0], x[1]);
    }
  }

  lemma OneAgrees(c: char)
    ensures ParseField([c]) == ParseInt16([c])
  {
    var x := [c];
    if IsHexDigit(c) {
      ParseSingle(c);
    } else if IsSpace(c) {
      assert StripLeft(x) == [] by { assert x[1..] == []; }
      assert Strip(x) == [];
    } else {
      assert Strip(x) == x;
      if HasSign(x) {
        assert x[1..] == [];
      } else {
        assert Unsigned(x) == x;
      }
    }
  }

  lemma TwoAgrees(a: char, b: char)
    ensures ParseField([a, b]) == ParseInt16([a, b])
  {
    var x := [a, b];
    if IsSpace(a) {
      assert StripLeft(x) == StripLeft([b]) by { assert x[1..] == [b]; }
      assert Strip(x) == Strip([b]);
      OneAgrees(b);
    } else if IsSpace(b) {
      assert StripLeft(x) == x;
      assert StripRight(x) == StripRight([a]) by { assert x[..1] == [a]; }
      assert StripLeft([a]) == [a];
      assert Strip(x) == Strip([a]);
      OneAgrees(a);
    } else {
      assert Strip(x) == x;
      if IsHexDigit(a) && IsHexDigit(b) {
        ParsePair(a, b);
      } else if HasSign(x) {
        SignedAgrees(a, b);
      } else {
        assert Unsigned(x) == x || Unsigned(x) == [];
      }
    }
  }

  lemma SignedAgrees(a: char, b: char)
    requires (a == '-' || a == '+') && !IsSpace(b)
    ensures ParseField([a, b]) == ParseInt16([a, b])
  {
    var x := [a, b];
    assert Strip(x) == x;
    assert Unsigned(x) == [b] by { assert x[1..] == [b]; }
    if IsHexDigit(b) {
      DigitsAreValid([b]);
      assert [b][..0] == [];
      assert DigitsValue([b]) == DigitValue(b);
    }
  }

  /** When all three slices parse, their values are the channels. */
  lemma ParseFieldsOk(h: string, r: int, g: int, b: int)
    requires ParseField(Field(h, 0)) == Some(r)
    requires ParseField(Field(h, 2)) == Some(g)
    requires ParseField(Field(h, 4)) == Some(b)
    ensures ParseFields(h) == Ok(Rgb(r, g, b))
  {
  }

  /** For six (or more) hex digits after the '#'s, the channels are the values
      of characters 0-1, 2-3 and 4-5, each a byte; anything after them is ignored. */
  lemma SixDigits(s: string)
    requires |StripHashes(s)| >= 6
    requires forall i :: 0 <= i < 6 ==> IsHexDigit(StripHashes(s)[i])
    ensures var h := StripHashes(s);
            HexToRgb(s) == Ok(Rgb(PairValue(h[0], h[1]), PairValue(h[2], h[3]), PairValue(h[4], h[5])))
    ensures HexToRgb(s).Ok? && IsByte(HexToRgb(s).value.r) && IsByte(HexToRgb(s).value.g)
            && IsByte(HexToRgb(s).value.b)
  {
    SixFields(StripHashes(s));
  }

  lemma SixFields(h: string)
    requires |h| >= 6 && forall i :: 0 <= i < 6 ==> IsHexDigit(h[i])
    ensures ParseFields(h) == Ok(Rgb(PairValue(h[0], h[1]), PairValue(h[2], h[3]), PairValue(h[4], h[5])))
  {
    FieldPair(h, 0);
    FieldPair(h, 2);
    FieldPair(h, 4);
    ParseFieldsOk(h, PairValue(h[0], h[1]), PairValue(h[2], h[3]), PairValue(h[4], h[5]));
  }

  /** A field of two hex digits parses to their two-digit value. */
  lemma FieldPair(h: string, i: nat)
    requires i + 2 <= |h| && IsHexDigit(h[i]) && IsHexDigit(h[i + 1])
    ensures ParseField(Field(h, i)) == Some(PairValue(h[i], h[i + 1]))
  {
    assert Field(h, i) == [h[i], h[i + 1]];
  }

  /** A suffix is the slice of its own length at the end. */
  lemma {:induction false} SuffixIsSlice(h: string, s: string)
    requires IsSuffix(h, s)
    ensures |h| <= |s| && h == s[|s| - |h|..]
  {
    if h != s {
      SuffixIsSlice(h, s[1..]);
      assert s[1..][|s| - 1 - |h|..] == s[|s| - |h|..];
    }
  }

  /** `lstrip("#")` removes exactly a run of leading '#' characters. */
  lemma StripHashesIsSlice(s: string)
    ensures var h := StripHashes(s);
            h == s[|s| - |h|..] && forall i :: 0 <= i < |s| - |h| ==> s[i] == '#'
  {
    SuffixIsSlice(StripHashes(s), s);
  }

  lemma {:induction false} StripHashesOfHashes(n: nat, s: string)
    ensures StripHashes(Hashes(n) + s) == StripHashes(s)
  {
    if n > 0 {
      var x := Hashes(n) + s;
      assert x[0] == '#';
      assert x[1..] == Hashes(n - 1) + s;
      assert StripHashes(x) == StripHashes(x[1..]);
      StripHashesOfHashes(n - 1, s);
    } else {
      assert Hashes(n) + s == s;
    }
  }

  /** Any number of leading '#' characters is ignored: "#a1b2c3", "##a1b2c3"
      and "a1b2c3" parse identically. */
  lemma LeadingHashesIgnored(n: nat, s: string)
    ensures HexToRgb(Hashes(n) + s) == HexToRgb(s)
  {
    StripHashesOfHashes(n, s);
  }

  /** Parsing the two-digit rendering of any byte triple, with or without
      leading '#' characters, returns that triple. */
  lemma RenderRoundTrip(c: Rgb, n: nat)
    requires IsByte(c.r) && IsByte(c.g) && IsByte(c.b)
    ensures HexToRgb(Hashes(n) + RenderHex(c)) == Ok(c)
  {
    var s := RenderHex(c);
    LeadingHashesIgnored(n, s);
    assert StripHashes(s) == s by {
      assert IsHexDigit(s[0]);
    }
    SixDigits(s);
    assert PairValue(s[0], s[1]) == c.r;
    assert PairValue(s[2], s[3]) == c.g;
    assert PairValue(s[4], s[5]) == c.b;
  }

  /** One hex digit parses to its value. */
  lemma ParseSingle(c: char)
    requires IsHexDigit(c)
    ensures ParseInt16([c]) == Some(DigitValue(c))
  {
    ParseDigits([c]);
    assert [c][..0] == [];
  }

  /** A two-character field may hold a sign and one digit, or a digit after
      whitespace. */
  lemma SignedOrSpacedDigit(c: char, w: char)
    requires IsHexDigit(c) && IsSpace(w)
    ensures ParseInt16(['-', c]) == Some(-(DigitValue(c) as int))
    ensures ParseInt16(['+', c]) == Some(DigitValue(c))
    ensures ParseInt16([w, c]) == Some(DigitValue(c))
  {
    ParseSingle(c);
    assert ['-', c][1..] == [c] && ['+', c][1..] == [c];
    assert Strip(['-', c]) == ['-', c];
    assert Strip(['+', c]) == ['+', c];
    assert StripLeft([w, c]) == [c] by {
      assert [w, c][1..] == [c];
    }
    assert Strip([w, c]) == [c];
  }

  /** An empty field, a bare `0x`, an underscore before a digit and a digit
      after an ASCII separator such as U+001C are rejected. */
  lemma MalformedFields(c: char)
    requires IsHexDigit(c)
    ensures ParseInt16("") == None
    ensures ParseInt16(['0', 'x']) == None
    ensures ParseInt16(['_', c]) == None
    ensures ParseInt16(['\U{1c}', c]) == None
  {
    assert Strip(['0', 'x']) == ['0', 'x'];
    assert Strip(['_', c]) == ['_', c];
    assert Strip(['\U{1c}', c]) == ['\U{1c}', c];
  }

  /** Five digits leave a one-character last slice, which still parses:
      "#abcde" is (0xab, 0xcd, 0xe). */
  lemma FiveDigits(s: string)
    requires |StripHashes(s)| == 5 && forall i :: 0 <= i < 5 ==> IsHexDigit(StripHashes(s)[i])
    ensures var h := StripHashes(s);
            HexToRgb(s) == Ok(Rgb(PairValue(h[0], h[1]), PairValue(h[2], h[3]), DigitValue(h[4])))
  {
    FiveFields(StripHashes(s));
  }

  lemma FiveFields(h: string)
    requires |h| == 5 && forall i :: 0 <= i < 5 ==> IsHexDigit(h[i])
    ensures ParseFields(h) == Ok(Rgb(PairValue(h[0], h[1]), PairValue(h[2], h[3]), DigitValue(h[4])))
  {
    FieldPair(h, 0);
    FieldPair(h, 2);
    assert Field(h, 4) == [h[4]];
    ParseFieldsOk(h, PairValue(h[0], h[1]), PairValue(h[2], h[3]), DigitValue(h[4]));
  }

  /** Four digits: the third slice is empty and `int("", 16)` raises. */
  lemma FourDigits(s: string)
    requires |StripHashes(s)| == 4 && forall i :: 0 <= i < 4 ==> IsHexDigit(StripHashes(s)[i])
    ensures HexToRgb(s) == Err(InvalidLiteral("", 4))
  {
    var h := StripHashes(s);
    FieldPair(h, 0);
    FieldPair(h, 2);
    assert Field(h, 4) == "";
  }
}
