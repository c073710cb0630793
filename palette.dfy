/** The palette helpers of colors.js: the alpha suffix `_r` appends to a hex
    colour, and the alpha each theme gives an entry of the theme map.  The
    CSS text around them and its injection into the page are not modelled. */
module Palette {
  import opened Wrappers

  /** `Math.round`: halves round up. */
  function Round(x: real): int {
    (x + 0.5).Floor
  }

  predicate IsHexDigit(c: char) {
    '0' <= c <= '9' || 'a' <= c <= 'f'
  }

  function Digit(d: nat): (c: char)
    requires d < 16
    ensures IsHexDigit(c)
  {
    if d < 10 then '0' + d as char else 'a' + (d - 10) as char
  }

  function DigitValue(c: char): nat
    requires IsHexDigit(c)
  {
    if c <= '9' then (c - '0') as nat else (c - 'a') as nat + 10
  }

  /** `n.toString(16)` for a whole number: lowercase digits, no leading
      zeros, a minus sign in front of a negative number. */
  function ToHex(n: int): string
    decreases if n < 0 then -n + 1 else n
  {
    if n < 0 then "-" + ToHex(-n)
    else if n < 16 then [Digit(n)]
    else ToHex(n / 16) + [Digit(n % 16)]
  }

  /** `s.padStart(2, '0')`. */
  function PadStart2(s: string): (r: string)
    ensures 2 <= |s| ==> r == s
    ensures 2 <= |r|
  {
    if |s| < 2 then seq(2 - |s|, _ => '0') + s else s
  }

  /** `_r(hex, a)`: the hex colour followed by the alpha byte
      `Math.round(a * 255)` in hexadecimal, padded to two digits. */
  function WithAlpha(hex: string, a: real): string {
    hex + PadStart2(ToHex(Round(a * 255.0)))
  }

  /** The number a string of hex digits spells. */
  function HexValue(s: string): nat
    requires forall i :: 0 <= i < |s| ==> IsHexDigit(s[i])
  {
    if s == [] then 0 else HexValue(s[..|s| - 1]) * 16 + DigitValue(s[|s| - 1])
  }

  lemma DigitRoundTrip(d: nat)
    requires d < 16
    ensures DigitValue(Digit(d)) == d
  {
  }

  /** `toString(16)` of a non-negative number is a string of lowercase hex
      digits that spells the number; below 256 it has one or two digits,
      one exactly below 16. */
  lemma {:induction false} ToHexDigits(n: nat)
    ensures var s := ToHex(n);
      1 <= |s| && (forall i :: 0 <= i < |s| ==> IsHexDigit(s[i])) && HexValue(s) == n
    ensures n < 256 ==> |ToHex(n)| <= 2
    ensures |ToHex(n)| == 1 <==> n < 16
    decreases n
  {
    if n < 16 {
      DigitRoundTrip(n);
    } else {
      ToHexDigits(n / 16);
      var s := ToHex(n);
      assert s[..|s| - 1] == ToHex(n / 16);
      DigitRoundTrip(n % 16);
      if n < 256 {
        assert n / 16 < 16;
      }
    }
  }

  /** A leading zero does not change the value. */
  lemma {:induction false} LeadingZero(s: string)
    requires forall i :: 0 <= i < |s| ==> IsHexDigit(s[i])
    ensures HexValue("0" + s) == HexValue(s)
    decreases |s|
  {
    if s != [] {
      assert ("0" + s)[..|"0" + s| - 1] == "0" + s[..|s| - 1];
      LeadingZero(s[..|s| - 1]);
    }
  }

  /** For a byte, `_r` keeps `hex` as its prefix and appends exactly two
      lowercase hex digits that spell the byte, the first a zero padding
      below 16. */
  lemma {:induction false} AlphaSuffix(hex: string, a: real)
    requires 0 <= Round(a * 255.0) < 256
    ensures var r := WithAlpha(hex, a);
      |r| == |hex| + 2 && r[..|hex|] == hex &&
      IsHexDigit(r[|hex|]) && IsHexDigit(r[|hex| + 1]) &&
      HexValue(r[|hex|..]) == Round(a * 255.0) &&
      (Round(a * 255.0) < 16 <==> r[|hex|] == '0')
  {
    var b := Round(a * 255.0);
    var s := ToHex(b);
    ToHexDigits(b);
    var r := WithAlpha(hex, a);
    assert r[|hex|..] == PadStart2(s);
    if |s| == 1 {
      assert PadStart2(s) == "0" + s;
      LeadingZero(s);
    } else {
      assert s[0] != '0' by {
        if s[0] == '0' {
          LeadingDigitOfLongHex(b);
        }
      }
    }
  }

  /** A number of two or more hex digits does not start with zero. */
  lemma {:induction false} LeadingDigitOfLongHex(n: nat)
    requires 16 <= n
    ensures ToHex(n)[0] != '0'
    decreases n
  {
    if 16 <= n / 16 {
      LeadingDigitOfLongHex(n / 16);
    }
    assert ToHex(n) == ToHex(n / 16) + [Digit(n % 16)];
  }

  /** Alpha 0 appends "00" and alpha 1 appends "ff". */
  lemma AlphaEnds(hex: string)
    ensures WithAlpha(hex, 0.0) == hex + "00"
    ensures WithAlpha(hex, 1.0) == hex + "ff"
  {
    assert Round(0.0 * 255.0) == 0;
    assert Round(1.0 * 255.0) == 255;
    assert ToHex(255) == ToHex(15) + [Digit(15)];
  }

  // ---------------------------------------------------------------------
  // The theme map

  /** `[name, key, lA, dA]`: a missing alpha is `None`. */
  datatype Entry = Entry(name: string, key: string, lightAlpha: Option<real>, darkAlpha: Option<real>)

  type Theme = map<string, string>

  /** `T[key]`, which the template prints as "undefined" when missing. */
  function Lookup(t: Theme, key: string): string {
    if key in t then t[key] else "undefined"
  }

  /** `dark ? (dA ?? lA) : lA`: an entry has no alpha in a theme exactly
      when it has no light alpha and, in the dark theme, no dark alpha
      either; any alpha it has is one of the entry's own. */
  function ThemeAlpha(e: Entry, dark: bool): (a: Option<real>)
    ensures a.None? <==> e.lightAlpha.None? && (!dark || e.darkAlpha.None?)
    ensures a.Some? ==> a == e.lightAlpha || (dark && a == e.darkAlpha)
  {
    if dark then (if e.darkAlpha.Some? then e.darkAlpha else e.lightAlpha) else e.lightAlpha
  }

  /** The value `gen` prints for an entry: the palette value, with the
      theme's alpha appended when there is one.  The palette value is
      always a prefix, and the entry prints it bare exactly when the theme
      gives it no alpha. */
  function EntryValue(e: Entry, t: Theme, dark: bool): (v: string)
    ensures Lookup(t, e.key) <= v
    ensures v == Lookup(t, e.key) <==> ThemeAlpha(e, dark).None?
  {
    var a := ThemeAlpha(e, dark);
    if a.Some? then WithAlpha(Lookup(t, e.key), a.value) else Lookup(t, e.key)
  }

  /** One line of `gen`: `  --name: value;`. */
  function EntryLine(e: Entry, t: Theme, dark: bool): string {
    "  --" + e.name + ": " + EntryValue(e, t, dark) + ";"
  }

  /** `gen(T, dark)`: the entries' lines joined by newlines. */
  function Gen(entries: seq<Entry>, t: Theme, dark: bool): string {
    if entries == [] then ""
    else if |entries| == 1 then EntryLine(entries[0], t, dark)
    else Gen(entries[..|entries| - 1], t, dark) + "\n" + EntryLine(entries[|entries| - 1], t, dark)
  }

  /** The last line of `gen` is the last entry's, after a newline. */
  lemma {:induction false} GenEndsWithLastEntry(entries: seq<Entry>, e: Entry, t: Theme, dark: bool)
    requires entries != []
    ensures var g := Gen(entries + [e], t, dark); var l := EntryLine(e, t, dark);
      |l| < |g| && g[|g| - |l|..] == l && g[|g| - |l| - 1] == '\n'
  {
    assert (entries + [e])[..|entries|] == entries;
  }

  /** An entry with no alpha at all prints the raw palette value in both
      themes. */
  lemma {:induction false} RawWithoutAlpha(e: Entry, t: Theme)
    requires e.lightAlpha.None? && e.darkAlpha.None?
    ensures EntryValue(e, t, false) == EntryValue(e, t, true) == Lookup(t, e.key)
  {
  }

  /** With one alpha for both themes, both themes print the same value. */
  lemma {:induction false} SharedAlpha(e: Entry, t: Theme)
    requires e.darkAlpha.None?
    ensures EntryValue(e, t, true) == EntryValue(e, t, false)
  {
  }

  /** The light theme never reads the dark alpha. */
  lemma {:induction false} LightIgnoresDark(e: Entry, d: Option<real>, t: Theme)
    ensures EntryValue(e.(darkAlpha := d), t, false) == EntryValue(e, t, false)
  {
  }

  /** A dark alpha overrides the light one in the dark theme. */
  lemma {:induction false} DarkOverrides(e: Entry, a: real, t: Theme)
    ensures EntryValue(e.(darkAlpha := Some(a)), t, true) == WithAlpha(Lookup(t, e.key), a)
  {
  }

  /** With a byte alpha, the printed value is the palette value followed by
      exactly two hex digits spelling the byte. */
  lemma {:induction false} EntryAlphaByte(e: Entry, t: Theme, dark: bool)
    requires ThemeAlpha(e, dark).Some? && 0 <= Round(ThemeAlpha(e, dark).value * 255.0) < 256
    ensures var v, raw := EntryValue(e, t, dark), Lookup(t, e.key);
      |v| == |raw| + 2 && v[..|raw|] == raw &&
      IsHexDigit(v[|raw|]) && IsHexDigit(v[|raw| + 1]) &&
      HexValue(v[|raw|..]) == Round(ThemeAlpha(e, dark).value * 255.0)
  {
    AlphaSuffix(Lookup(t, e.key), ThemeAlpha(e, dark).value);
  }
}
