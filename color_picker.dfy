/** The contrast helper of the colour picker: whether a `#rrggbb` colour is
    dark enough that text shown on it should be white. */
module ColorPicker {
  import opened Wrappers
  import opened Text

  // ---------------------------------------------------------------------
  // Number.parseInt(s, 16)

  predicate IsHexDigit(c: char) {
    '0' <= c <= '9' || 'a' <= c <= 'f' || 'A' <= c <= 'F'
  }

  function HexDigitValue(c: char): (v: nat)
    requires IsHexDigit(c)
    ensures v < 16
  {
    if '0' <= c <= '9' then c as int - '0' as int
    else if 'a' <= c <= 'f' then c as int - 'a' as int + 10
    else c as int - 'A' as int + 10
  }

  predicate AllHexDigits(s: string) {
    forall i :: 0 <= i < |s| ==> IsHexDigit(s[i])
  }

  /** Length of the longest prefix of `s` made of hexadecimal digits. */
  function HexPrefixLength(s: string): (n: nat)
    ensures n <= |s|
    ensures AllHexDigits(s[..n])
    ensures n < |s| ==> !IsHexDigit(s[n])
  {
    if s == [] || !IsHexDigit(s[0]) then 0
    else
      var n := 1 + HexPrefixLength(s[1..]);
      assert forall i :: 1 <= i < n ==> s[..n][i] == s[1..][..n - 1][i - 1];
      n
  }

  /** The number a string of hexadecimal digits denotes, most significant
      digit first. */
  function HexValue(s: string): nat
    requires AllHexDigits(s)
  {
    if s == [] then 0 else HexValue(s[..|s| - 1]) * 16 + HexDigitValue(s[|s| - 1])
  }

  /** The digits of `parseInt` in base 16 after the sign: an optional `0x`
      or `0X` is skipped, then the longest run of hexadecimal digits is
      read; `None` (`NaN`) when that run is empty. */
  function ParseUnsignedHex(u: string): Option<int> {
    var digits :=
      if |u| >= 2 && u[0] == '0' && (u[1] == 'x' || u[1] == 'X') then u[2..] else u;
    var n := HexPrefixLength(digits);
    if n == 0 then None else Some(HexValue(digits[..n]))
  }

  /** `Number.parseInt(s, 16)`: leading whitespace is skipped, then an
      optional sign, then what `ParseUnsignedHex` reads. */
  function ParseIntHex(s: string): Option<int> {
    var t := TrimStart(s);
    if t != [] && t[0] == '-' then
      match ParseUnsignedHex(t[1..])
      case None => None
      case Some(v) => Some(-v)
    else if t != [] && t[0] == '+' then ParseUnsignedHex(t[1..])
    else ParseUnsignedHex(t)
  }

  // ---------------------------------------------------------------------
  // isColorDark

  /** The channel weights of `(r * 299 + g * 587 + b * 114) / 1000`, scaled
      by 1000 so that the comparison with 128 becomes one with 128000. */
  function WeightedBrightness(r: int, g: int, b: int): int {
    r * 299 + g * 587 + b * 114
  }

  /** `isColorDark`: a colour starting with `#` is dark when its three
      two-character channels all parse and their weighted brightness is
      below 128; a channel that does not parse makes the brightness `NaN`,
      and a colour in any other notation is never dark. */
  predicate IsColorDark(color: string) {
    if StartsWith(color, "#") then
      var r := ParseIntHex(Slice(color, 1, 3));
      var g := ParseIntHex(Slice(color, 3, 5));
      var b := ParseIntHex(Slice(color, 5, 7));
      r.Some? && g.Some? && b.Some? && WeightedBrightness(r.value, g.value, b.value) < 128000
    else
      false
  }

  /** A colour in `#rrggbb` notation. */
  predicate IsHexColor(color: string) {
    |color| == 7 && color[0] == '#' && AllHexDigits(color[1..])
  }

  /** The value of the two digits at `i` and `i + 1`. */
  function Channel(color: string, i: nat): (v: nat)
    requires i + 1 < |color| && IsHexDigit(color[i]) && IsHexDigit(color[i + 1])
    ensures v <= 255
  {
    16 * HexDigitValue(color[i]) + HexDigitValue(color[i + 1])
  }

  // ---------------------------------------------------------------------
  // Properties

  /** A non-empty run of hexadecimal digits is read whole: it cannot start
      with `0x`. */
  lemma UnsignedHexDigits(s: string)
    requires s != [] && AllHexDigits(s)
    ensures ParseUnsignedHex(s) == Some(HexValue(s))
  {
    assert |s| >= 2 ==> s[1] != 'x' && s[1] != 'X' by {
      if |s| >= 2 { assert IsHexDigit(s[1]); }
    }
    HexPrefixOfDigits(s);
    assert s[..|s|] == s;
  }

  lemma HexDigitIsNotWhitespace(c: char)
    requires IsHexDigit(c)
    ensures !IsJsWhitespace(c)
  {
  }

  /** A non-empty run of hexadecimal digits parses to its value: no
      whitespace, sign or `0x` prefix can be involved. */
  lemma ParseHexDigits(s: string)
    requires s != [] && AllHexDigits(s)
    ensures ParseIntHex(s) == Some(HexValue(s))
  {
    HexDigitIsNotWhitespace(s[0]);
    TrimStartKeeps(s);
    UnsignedHexDigits(s);
  }

  lemma {:induction false} HexPrefixOfDigits(s: string)
    requires AllHexDigits(s)
    ensures HexPrefixLength(s) == |s|
  {
    if s != [] {
      assert IsHexDigit(s[0]);
      assert AllHexDigits(s[1..]) by {
        forall i | 0 <= i < |s| - 1 ensures IsHexDigit(s[1..][i]) {
          assert s[1..][i] == s[i + 1];
        }
      }
      HexPrefixOfDigits(s[1..]);
    }
  }

  /** A leading minus sign negates what the digits denote. */
  lemma ParseNegativeHexDigits(t: string)
    requires |t| >= 2 && t[0] == '-' && AllHexDigits(t[1..])
    ensures ParseIntHex(t) == Some(-(HexValue(t[1..]) as int))
  {
    TrimStartKeeps(t);
    UnsignedHexDigits(t[1..]);
  }

  /** Two hexadecimal digits denote sixteen times the first plus the second. */
  lemma TwoDigitValue(s: string)
    requires |s| == 2 && AllHexDigits(s)
    ensures HexValue(s) == 16 * HexDigitValue(s[0]) + HexDigitValue(s[1])
  {
    var first := s[..1];
    assert first[..0] == [] && first[0] == s[0];
    assert HexValue(first) == HexDigitValue(s[0]);
    assert s[..|s| - 1] == first;
  }

  /** Two hexadecimal digits parse to sixteen times the first plus the
      second. */
  lemma ParseTwoDigits(s: string)
    requires |s| == 2 && AllHexDigits(s)
    ensures ParseIntHex(s) == Some(16 * HexDigitValue(s[0]) + HexDigitValue(s[1]))
  {
    TwoDigitValue(s);
    ParseHexDigits(s);
  }

  /** `color.slice(i, i + 2)` of a `#rrggbb` colour is the two digits of
      the channel at `i`. */
  lemma ChannelSlice(color: string, i: nat)
    requires IsHexColor(color) && (i == 1 || i == 3 || i == 5)
    ensures var s := Slice(color, i, i + 2);
      |s| == 2 && AllHexDigits(s) && 16 * HexDigitValue(s[0]) + HexDigitValue(s[1]) == Channel(color, i)
  {
    var s := color[i..i + 2];
    assert Slice(color, i, i + 2) == s;
    assert s[0] == color[1..][i - 1] && s[1] == color[1..][i];
  }

  /** On `#rrggbb` colours the helper is the textbook test: the weighted
      brightness of the three channels, each in 0..255, is below 128. */
  lemma HexColorDarkness(color: string)
    requires IsHexColor(color)
    ensures IsColorDark(color) <==>
            WeightedBrightness(Channel(color, 1), Channel(color, 3), Channel(color, 5)) < 128000
  {
    assert color[..1] == "#";
    ChannelSlice(color, 1);
    ParseTwoDigits(Slice(color, 1, 3));
    ChannelSlice(color, 3);
    ParseTwoDigits(Slice(color, 3, 5));
    ChannelSlice(color, 5);
    ParseTwoDigits(Slice(color, 5, 7));
  }

  /** Only a colour written with `#` and at least six characters can be
      dark: names, `rgb(...)` and short forms such as `#000` never are. */
  lemma DarkNeedsLongHex(color: string)
    ensures IsColorDark(color) ==> StartsWith(color, "#") && |color| >= 6
  {
    if StartsWith(color, "#") && |color| < 6 {
      assert Slice(color, 5, 7) == "";
      assert ParseIntHex("") == None;
    }
  }

  /** Anything after the seventh character, such as an alpha channel in
      `#rrggbbaa`, is ignored. */
  lemma IgnoresTrailingDigits(color: string)
    requires |color| >= 7
    ensures IsColorDark(color) == IsColorDark(color[..7])
  {
    var short := color[..7];
    assert Slice(color, 1, 3) == Slice(short, 1, 3);
    assert Slice(color, 3, 5) == Slice(short, 3, 5);
    assert Slice(color, 5, 7) == Slice(short, 5, 7);
    assert StartsWith(color, "#") == StartsWith(short, "#") by {
      assert color[..1] == short[..1];
    }
  }

  /** Lightening a `#rrggbb` colour channel by channel never turns a light
      colour dark. */
  lemma DarknessMonotone(dark: string, light: string)
    requires IsHexColor(dark) && IsHexColor(light)
    requires Channel(dark, 1) <= Channel(light, 1)
    requires Channel(dark, 3) <= Channel(light, 3)
    requires Channel(dark, 5) <= Channel(light, 5)
    ensures IsColorDark(light) ==> IsColorDark(dark)
  {
    HexColorDarkness(dark);
    HexColorDarkness(light);
  }

  /** A grey, whose three channels are equal, is dark exactly when that
      channel is below 128 (`#7f7f7f` is dark, `#808080` is not): the
      weights add up to 1000. */
  lemma GreyThreshold(color: string)
    requires IsHexColor(color)
    requires Channel(color, 1) == Channel(color, 3) == Channel(color, 5)
    ensures IsColorDark(color) <==> Channel(color, 1) < 128
  {
    HexColorDarkness(color);
  }
}
