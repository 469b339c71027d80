/**
 * `hex2rgba` of pages/4_Utilities.py: characters 1-2, 3-4 and 5-6 of the colour
 * string are each read by Python's `int(text, 16)`, and the three numbers are
 * printed as `rgba(r,g,b,alpha)`.
 */
module HexColor {
  import opened Wrappers
  import opened Strings

  /** The alpha used when the caller gives none. */
  const DEFAULT_ALPHA: string := "0.5"

  /**
   * The whitespace `int()` strips from both ends of its argument: ASCII tab to
   * carriage return and space, plus the non-ASCII characters `str.isspace`
   * accepts. The ASCII separators U+001C to U+001F pass `str.isspace` but are
   * not stripped.
   */
  predicate IsPySpace(c: char)
  {
    var n := c as int;
    (9 <= n <= 13) || n == 32 || n == 0x85 || n == 0xA0 || n == 0x1680
    || (0x2000 <= n <= 0x200A) || n == 0x2028 || n == 0x2029 || n == 0x202F
    || n == 0x205F || n == 0x3000
  }

  predicate IsHexDigit(c: char)
  {
    ('0' <= c <= '9') || ('a' <= c <= 'f') || ('A' <= c <= 'F')
  }

  function HexValue(c: char): (v: int)
    requires IsHexDigit(c)
    ensures 0 <= v < 16
  {
    if '0' <= c <= '9' then c as int - '0' as int
    else if 'a' <= c <= 'f' then c as int - 'a' as int + 10
    else c as int - 'A' as int + 10
  }

  function StripLeft(s: string): string
  {
    if |s| > 0 && IsPySpace(s[0]) then StripLeft(s[1..]) else s
  }

  function StripRight(s: string): string
  {
    if |s| > 0 && IsPySpace(s[|s| - 1]) then StripRight(s[..|s| - 1]) else s
  }

  /**
   * Hex digits with single underscores between them, as Python accepts them
   * in a numeral: no leading, trailing or doubled underscore.
   */
  predicate WellFormedDigits(d: string)
  {
    && |d| > 0
    && IsHexDigit(d[0])
    && IsHexDigit(d[|d| - 1])
    && forall i :: 0 <= i < |d| ==> IsHexDigit(d[i]) || (d[i] == '_' && i + 1 < |d| && d[i + 1] != '_')
  }

  /** The value of hex digits read left to right; anything else (the underscores) is skipped. */
  function DigitsValue(d: string): nat
  {
    if |d| == 0 then 0
    else if !IsHexDigit(d[|d| - 1]) then DigitsValue(d[..|d| - 1])
    else 16 * DigitsValue(d[..|d| - 1]) + HexValue(d[|d| - 1])
  }

  /** What is left of `u` once an optional `0x`/`0X` prefix, and one underscore after it, is removed. */
  function DropHexPrefix(u: string): string
  {
    if |u| >= 2 && u[0] == '0' && (u[1] == 'x' || u[1] == 'X') then
      if |u| >= 3 && u[2] == '_' then u[3..] else u[2..]
    else u
  }

  /**
   * Python's `int(text, 16)`: surrounding whitespace, then an optional sign,
   * an optional `0x` prefix and hex digits; None where Python raises ValueError.
   */
  function ParseInt16(text: string): Option<int>
  {
    var t := StripRight(StripLeft(text));
    var signed := |t| > 0 && (t[0] == '+' || t[0] == '-');
    var u := if signed then t[1..] else t;
    var d := DropHexPrefix(u);
    if WellFormedDigits(d) then
      var v := DigitsValue(d) as int;
      Some(if signed && t[0] == '-' then -v else v)
    else
      None
  }

  /** Python's `s[i:j]` for 0 <= i <= j: out-of-range bounds are clipped. */
  function PySlice(s: string, i: nat, j: nat): (r: string)
    requires i <= j
    ensures |r| <= j - i
  {
    if i >= |s| then [] else if j >= |s| then s[i..] else s[i..j]
  }

  datatype Rgb = Rgb(red: int, green: int, blue: int)

  /** The three `int(color[a:b], 16)` calls of `hex2rgba`, or None if one of them raises. */
  function ParseHexColor(color: string): Option<Rgb>
  {
    var r := Channel(color, 1);
    var g := Channel(color, 3);
    var b := Channel(color, 5);
    if r.Some? && g.Some? && b.Some? then Some(Rgb(r.value, g.value, b.value)) else None
  }

  /** `int(color[i:i+2], 16)`. */
  function Channel(color: string, i: nat): Option<int>
  {
    ParseInt16(PySlice(color, i, i + 2))
  }

  /** The text `f'rgba({r},{g},{b},{alpha})'`; alpha is passed through as printed. */
  function FormatRgba(c: Rgb, alpha: string): string
  {
    "rgba(" + RgbaFields(c, alpha) + ")"
  }

  function RgbaFields(c: Rgb, alpha: string): string
  {
    Join([IntToString(c.red), IntToString(c.green), IntToString(c.blue), alpha], ',')
  }

  /** `hex2rgba(color, alpha)`; None where Python raises ValueError. */
  function Hex2Rgba(color: string, alpha: string): Option<string>
  {
    match ParseHexColor(color)
    case Some(c) => Some(FormatRgba(c, alpha))
    case None => None
  }

  /** `#` (or any first character) followed by six hex digits, the form the palettes use. */
  predicate WellFormedHex(color: string)
  {
    |color| == 7 && forall i :: 1 <= i < 7 ==> IsHexDigit(color[i])
  }

  lemma TwoDigits(a: char, b: char)
    requires IsHexDigit(a) && IsHexDigit(b)
    ensures ParseInt16([a, b]) == Some(16 * HexValue(a) + HexValue(b))
  {
    var s := [a, b];
    assert StripLeft(s) == s;
    assert StripRight(s) == s;
    assert DropHexPrefix(s) == s;
    assert WellFormedDigits(s);
    assert s[..1] == [a];
    assert [a][..0] == [];
    assert DigitsValue([a]) == HexValue(a);
    assert DigitsValue(s) == 16 * HexValue(a) + HexValue(b);
  }

  /** On a well-formed colour each channel is the two-digit hex number at its place, so it lies in 0..255. */
  lemma WellFormedChannels(color: string)
    requires WellFormedHex(color)
    ensures ParseHexColor(color) == Some(Rgb(ChannelValue(color, 1), ChannelValue(color, 3), ChannelValue(color, 5)))
    ensures 0 <= ChannelValue(color, 1) < 256 && 0 <= ChannelValue(color, 3) < 256 && 0 <= ChannelValue(color, 5) < 256
  {
    ChannelAt(color, 1);
    ChannelAt(color, 3);
    ChannelAt(color, 5);
  }

  /** The two hex digits at positions i and i + 1 of a well-formed colour, as a number. */
  function ChannelValue(color: string, i: nat): int
    requires WellFormedHex(color) && 1 <= i <= 5
  {
    16 * HexValue(color[i]) + HexValue(color[i + 1])
  }

  lemma ChannelAt(color: string, i: nat)
    requires WellFormedHex(color) && 1 <= i <= 5
    ensures Channel(color, i) == Some(ChannelValue(color, i))
  {
    assert PySlice(color, i, i + 2) == [color[i], color[i + 1]];
    TwoDigits(color[i], color[i + 1]);
  }

  /** A stripped space before a digit is skipped: `int(' f', 16) == 15`. */
  lemma PaddedDigit(c: char, d: char)
    requires IsPySpace(c) && IsHexDigit(d)
    ensures ParseInt16([c, d]) == Some(HexValue(d))
  {
    assert [c, d][1..] == [d];
    assert StripLeft([c, d]) == [d];
    assert [d][..0] == [];
    assert StripRight([d]) == [d];
    assert DigitsValue([d]) == HexValue(d);
  }

  /**
   * Any other character before a digit that is neither a digit nor a sign
   * makes `int` raise: `int('\x1c1', 16)` fails.
   */
  lemma JunkBeforeDigit(c: char, d: char)
    requires !IsPySpace(c) && !IsHexDigit(c) && c != '+' && c != '-'
    ensures ParseInt16([c, d]) == None
  {
    var t := StripRight(StripLeft([c, d]));
    assert StripLeft([c, d]) == [c, d];
    assert [c, d][..1] == [c];
    assert StripRight([c]) == [c];
    if IsPySpace(d) {
      assert t == [c];
    } else {
      assert t == [c, d];
    }
  }

  /** A colour of fewer than six characters cannot be read: the blue slice is empty. */
  lemma ShortColorFails(color: string)
    requires |color| <= 5
    ensures ParseHexColor(color) == None
    ensures Hex2Rgba(color, DEFAULT_ALPHA) == None
  {
    assert PySlice(color, 5, 7) == [];
    assert StripLeft([]) == [] && StripRight([]) == [];
  }

  predicate InByteRange(c: Rgb)
  {
    0 <= c.red < 256 && 0 <= c.green < 256 && 0 <= c.blue < 256
  }

  function HexChar(v: int): (c: char)
    requires 0 <= v < 16
    ensures IsHexDigit(c) && HexValue(c) == v
  {
    if v < 10 then ('0' as int + v) as char else ('A' as int + v - 10) as char
  }

  /** `#RRGGBB` with upper-case digits, the inverse direction of ParseHexColor. */
  function EncodeHex(c: Rgb): (s: string)
    requires InByteRange(c)
    ensures WellFormedHex(s)
  {
    ['#', HexChar(c.red / 16), HexChar(c.red % 16), HexChar(c.green / 16), HexChar(c.green % 16),
     HexChar(c.blue / 16), HexChar(c.blue % 16)]
  }

  /** Writing channels 0..255 as `#RRGGBB` and reading the string back returns them exactly. */
  lemma EncodeParseRoundTrip(c: Rgb)
    requires InByteRange(c)
    ensures ParseHexColor(EncodeHex(c)) == Some(c)
  {
    var e := EncodeHex(c);
    WellFormedChannels(e);
    EncodedChannel(c.red, e[1], e[2]);
    EncodedChannel(c.green, e[3], e[4]);
    EncodedChannel(c.blue, e[5], e[6]);
    assert ChannelValue(e, 1) == c.red;
    assert ChannelValue(e, 3) == c.green;
    assert ChannelValue(e, 5) == c.blue;
  }

  lemma EncodedChannel(v: int, hi: char, lo: char)
    requires 0 <= v < 256 && hi == HexChar(v / 16) && lo == HexChar(v % 16)
    ensures 16 * HexValue(hi) + HexValue(lo) == v
  {
  }

  /**
   * `hex2rgba` of an encoded colour is the text `rgba(` + r `,` g `,` b `,` alpha + `)`,
   * whose comma-separated fields read back as the three channels and alpha.
   */
  lemma Hex2RgbaRoundTrip(c: Rgb, alpha: string)
    requires InByteRange(c)
    requires ',' !in alpha
    ensures Hex2Rgba(EncodeHex(c), alpha).Some?
    ensures var s := Hex2Rgba(EncodeHex(c), alpha).value;
      && |s| >= 6 && s[..5] == "rgba(" && s[|s| - 1] == ')'
      && var fields := Split(s[5..|s| - 1], ',');
      && |fields| == 4
      && ParseDecimal(fields[0]) == c.red
      && ParseDecimal(fields[1]) == c.green
      && ParseDecimal(fields[2]) == c.blue
      && fields[3] == alpha
  {
    EncodeParseRoundTrip(c);
    var s := FormatRgba(c, alpha);
    var parts := [IntToString(c.red), IntToString(c.green), IntToString(c.blue), alpha];
    IntToStringRoundTrip(c.red);
    IntToStringRoundTrip(c.green);
    IntToStringRoundTrip(c.blue);
    SplitJoin(parts, ',');
    assert s[5..|s| - 1] == RgbaFields(c, alpha);
  }
}
