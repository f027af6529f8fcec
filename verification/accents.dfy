/**
 The accent catalogue of the retro stylesheet (kaya/ui/theme.py): the
 ordered table of accent palettes, the module-level current accent, the
 fallbacks to green, and the hex-colour parser used to tint the gradients.
 */
module Accents {
  import opened Wrappers
  import opened Text

  datatype Palette = Palette(acc: string, accm: string, bd: string)

  /** `ACCENTS`, in declaration order. */
  const Table: seq<(string, Palette)> := [
    ("green",     Palette("#39FF14", "#A4FFB2", "#145c2f")),
    ("blue",      Palette("#00D1FF", "#9CEBFF", "#0b4d63")),
    ("red",       Palette("#FF3B3B", "#FFB3B3", "#5a1111")),
    ("amber",     Palette("#FFC247", "#FFE1A3", "#6B4A0F")),
    ("cyan",      Palette("#44DDF0", "#B5F3FA", "#0D3E49")),
    ("magenta",   Palette("#FF66CC", "#FFB3E6", "#5A1A42")),
    ("purple",    Palette("#B38BFA", "#E0D1FF", "#3C2E67")),
    ("teal",      Palette("#2AB39A", "#AEE8DB", "#154C43")),
    ("orange",    Palette("#FF7A29", "#FFC4A3", "#6A2A07")),
    ("lime",      Palette("#C6FF00", "#E9FF9D", "#3D5C00")),
    ("ice",       Palette("#9AE0FF", "#D7F2FF", "#264C5C")),
    ("mono",      Palette("#9BE2B8", "#E6FFF3", "#1F5B45")),
    ("graphite",  Palette("#C0C0C0", "#E6E6E6", "#3A3A3A")),
    ("cyberpunk", Palette("#FCEE09", "#FFF68A", "#625400"))
  ]

  const Default: string := "green"

  /** `ACCENTS.keys()`, in declaration order. */
  function Names(): (ns: seq<string>)
    ensures |ns| == |Table|
    ensures forall k :: 0 <= k < |Table| ==> ns[k] == Table[k].0
  {
    seq(|Table|, k requires 0 <= k < |Table| => Table[k].0)
  }

  predicate IsAccent(name: string) {
    name in Names()
  }

  /** Every catalogue name is a single bare word. */
  lemma NamesAreWords(name: string)
    requires IsAccent(name)
    ensures name != [] && NoSpace(name)
  {
    var k :| 0 <= k < |Table| && Names()[k] == name;
    assert NoSpace(Table[k].0);
  }

  /** The empty name is not an accent. */
  lemma EmptyIsNoAccent()
    ensures !IsAccent("")
  {
    if IsAccent("") {
      NamesAreWords("");
    }
  }

  /** Every catalogue name is already in lower case. */
  lemma NamesAreLower(name: string)
    requires IsAccent(name)
    ensures Lower(name) == name
  {
    var k :| 0 <= k < |Table| && Names()[k] == name;
    assert Lower(Table[k].0) == Table[k].0;
  }

  /** `ACCENTS.get(name)` over an association list. */
  function Find(t: seq<(string, Palette)>, name: string): (r: Option<Palette>)
    ensures r.Some? <==> exists k :: 0 <= k < |t| && t[k].0 == name
    ensures r.Some? ==> exists k :: 0 <= k < |t| && t[k] == (name, r.value)
  {
    if t == [] then None
    else if t[0].0 == name then Some(t[0].1)
    else Find(t[1..], name)
  }

  function Green(): Palette {
    Table[0].1
  }

  /** Palette lookup of `qss`: the named accent's palette, or green's for an
      unknown name. */
  function PaletteFor(ac: string): (p: Palette)
    ensures IsAccent(ac) ==> (ac, p) in Table
    ensures !IsAccent(ac) ==> p == Green()
    ensures p in TablePalettes()
  {
    assert Table[0].0 == Default;
    Find(Table, ac).GetOr(Green())
  }

  function TablePalettes(): set<Palette> {
    set k | 0 <= k < |Table| :: Table[k].1
  }

  /** The accent `apply` records as current: the requested one when it is
      in the catalogue, green otherwise. */
  function Apply(accent: string): (cur: string)
    ensures IsAccent(cur)
    ensures IsAccent(accent) ==> cur == accent
    ensures !IsAccent(accent) ==> cur == Default
  {
    assert Names()[0] == Default;
    if IsAccent(accent) then accent else Default
  }

  /** `current()`: the palette of the current accent, green's when the
      current name is not in the catalogue. */
  function Current(cur: string): (p: Palette)
    ensures p in TablePalettes()
    ensures IsAccent(cur) ==> (cur, p) in Table
  {
    PaletteFor(cur)
  }

  /** The current palette after any `apply` is the requested accent's own
      entry, or green's. */
  lemma CurrentAfterApply(accent: string)
    ensures IsAccent(accent) ==> (accent, Current(Apply(accent))) in Table
    ensures !IsAccent(accent) ==> Current(Apply(accent)) == Green()
  {
  }

  // ---------------------------------------------------------------------
  // `_hex_to_rgb`

  datatype Rgb = Rgb(r: int, g: int, b: int)

  predicate IsHexDigit(c: char) {
    ('0' <= c <= '9') || ('a' <= c <= 'f') || ('A' <= c <= 'F')
  }

  function HexDigitValue(c: char): (v: nat)
    requires IsHexDigit(c)
    ensures v < 16
  {
    if '0' <= c <= '9' then c as int - '0' as int
    else if 'a' <= c <= 'f' then c as int - 'a' as int + 10
    else c as int - 'A' as int + 10
  }

  /** `h.lstrip('#')`: every leading '#' removed. */
  function LStripHash(h: string): (r: string)
    ensures r == [] || r[0] != '#'
  {
    if h != [] && h[0] == '#' then LStripHash(h[1..]) else h
  }

  /** Python's slice `h[a:b]` for 0 <= a <= b: the bounds are clamped. */
  function Slice(h: string, a: nat, b: nat): string
    requires a <= b
  {
    var hi := if b <= |h| then b else |h|;
    var lo := if a <= hi then a else hi;
    h[lo..hi]
  }

  /** Digits in Python's integer-literal sense: hex digits, with single
      underscores allowed only between two digits. */
  predicate ValidDigits(d: string) {
    && d != []
    && IsHexDigit(d[0]) && IsHexDigit(d[|d| - 1])
    && (forall k :: 0 <= k < |d| ==> IsHexDigit(d[k]) || d[k] == '_')
    && (forall k :: 0 <= k < |d| - 1 ==> !(d[k] == '_' && d[k + 1] == '_'))
  }

  function DigitsValue(d: string): nat
    requires forall k :: 0 <= k < |d| ==> IsHexDigit(d[k]) || d[k] == '_'
  {
    if d == [] then 0
    else if d[|d| - 1] == '_' then DigitsValue(d[..|d| - 1])
    else 16 * DigitsValue(d[..|d| - 1]) + HexDigitValue(d[|d| - 1])
  }

  /** The text after an optional leading sign. */
  function Unsigned(u: string): string {
    if u != [] && (u[0] == '-' || u[0] == '+') then u[1..] else u
  }

  /** The digits after an optional `0x`/`0X` prefix, which may be followed
      by one underscore. */
  function AfterPrefix(d: string): string {
    if |d| >= 2 && d[0] == '0' && (d[1] == 'x' || d[1] == 'X') then
      var rest := d[2..];
      if rest != [] && rest[0] == '_' then rest[1..] else rest
    else d
  }

  /** Python's `int(t, 16)` on ASCII text: surrounding whitespace, an
      optional sign, an optional `0x`/`0X` prefix, then digits. `None` where
      Python raises ValueError. */
  function ParseHexInt(t: string): (r: Option<int>)
  {
    var u := Strip(t);
    var digits := AfterPrefix(Unsigned(u));
    if ValidDigits(digits) then
      Some(if u[0] == '-' then -(DigitsValue(digits) as int) else DigitsValue(digits))
    else None
  }

  /** The text `_hex_to_rgb` slices: trimmed, leading '#' removed, a 3-digit
      shorthand doubled digit by digit. */
  function HexBody(hexstr: string): (h: string)
  {
    var h := LStripHash(Strip(hexstr));
    if |h| == 3 then [h[0], h[0], h[1], h[1], h[2], h[2]] else h
  }

  /** `_hex_to_rgb`: `None` where one of the three `int(..., 16)` calls
      raises. */
  function HexToRgb(hexstr: string): Option<Rgb> {
    RgbOfBody(HexBody(hexstr))
  }

  /** The three `int(h[0:2], 16)`, `int(h[2:4], 16)`, `int(h[4:6], 16)`. */
  function RgbOfBody(h: string): Option<Rgb> {
    var r := ParseHexInt(Slice(h, 0, 2));
    var g := ParseHexInt(Slice(h, 2, 4));
    var b := ParseHexInt(Slice(h, 4, 6));
    if r.Some? && g.Some? && b.Some? then Some(Rgb(r.value, g.value, b.value)) else None
  }

  function Hashes(n: nat): (s: string)
    ensures |s| == n && forall k :: 0 <= k < n ==> s[k] == '#'
  {
    if n == 0 then "" else "#" + Hashes(n - 1)
  }

  function PairValue(a: char, b: char): int
    requires IsHexDigit(a) && IsHexDigit(b)
  {
    16 * HexDigitValue(a) + HexDigitValue(b)
  }

  lemma PairParses(a: char, b: char)
    requires IsHexDigit(a) && IsHexDigit(b)
    ensures ParseHexInt([a, b]) == Some(PairValue(a, b))
    ensures 0 <= PairValue(a, b) <= 255
  {
    PairIsTrimmed(a, b);
    PairIsBare(a, b);
    PlainDigitsParse([a, b]);
    PairDigitsValue(a, b);
  }

  lemma PairIsTrimmed(a: char, b: char)
    requires IsHexDigit(a) && IsHexDigit(b)
    ensures Strip([a, b]) == [a, b]
  {
    NoSpaceStrip([a, b]);
  }

  lemma PairIsBare(a: char, b: char)
    requires IsHexDigit(a) && IsHexDigit(b)
    ensures Unsigned([a, b]) == [a, b] && AfterPrefix([a, b]) == [a, b] && ValidDigits([a, b])
  {
  }

  lemma PlainDigitsParse(d: string)
    requires Strip(d) == d && Unsigned(d) == d && AfterPrefix(d) == d && ValidDigits(d)
    ensures ParseHexInt(d) == Some(DigitsValue(d))
  {
  }

  lemma PairDigitsValue(a: char, b: char)
    requires IsHexDigit(a) && IsHexDigit(b)
    ensures DigitsValue([a, b]) == PairValue(a, b)
  {
    var d := [a, b];
    assert d[|d| - 1] == b;
    assert d[..|d| - 1] == [a];
    assert DigitsValue([a]) == HexDigitValue(a) by {
      assert [a][..0] == [];
    }
    assert DigitsValue(d) == 16 * DigitsValue([a]) + HexDigitValue(b);
  }

  /** Surrounding whitespace and any number of leading '#' are ignored. */
  lemma HexIgnoresDecoration(w1: string, n: nat, h: string, w2: string)
    requires NoneButSpace(w1) && NoneButSpace(w2)
    requires h != [] && !IsSpace(h[0]) && !IsSpace(h[|h| - 1]) && h[0] != '#'
    ensures HexToRgb(w1 + (Hashes(n) + h) + w2) == HexToRgb(h)
  {
    var core := Hashes(n) + h;
    assert core != [] && !IsSpace(core[0]) && !IsSpace(core[|core| - 1]);
    StripAround(w1, core, w2);
    LStripHashes(n, h);
    StripEnds(h);
    assert LStripHash(h) == h;
    SameBody(w1 + core + w2, h);
  }

  lemma SameBody(s: string, t: string)
    requires LStripHash(Strip(s)) == LStripHash(Strip(t))
    ensures HexToRgb(s) == HexToRgb(t)
  {
  }

  lemma StripEnds(h: string)
    requires h != [] && !IsSpace(h[0]) && !IsSpace(h[|h| - 1])
    ensures Strip(h) == h
  {
    assert StripLeft(h) == h;
  }

  lemma {:induction false} LStripHashes(n: nat, h: string)
    requires h == [] || h[0] != '#'
    ensures LStripHash(Hashes(n) + h) == h
  {
    if n > 0 {
      assert (Hashes(n) + h)[1..] == Hashes(n - 1) + h;
      LStripHashes(n - 1, h);
    }
  }

  lemma {:induction false} StripAround(w1: string, core: string, w2: string)
    requires NoneButSpace(w1) && NoneButSpace(w2)
    requires core != [] && !IsSpace(core[0]) && !IsSpace(core[|core| - 1])
    ensures Strip(w1 + core + w2) == core
  {
    StripLeftSpaces(w1, core + w2);
    assert w1 + core + w2 == w1 + (core + w2);
    StripRightSpaces(core, w2);
  }

  lemma {:induction false} StripLeftSpaces(w: string, s: string)
    requires NoneButSpace(w) && s != [] && !IsSpace(s[0])
    ensures StripLeft(w + s) == s
    decreases |w|
  {
    if w != [] {
      assert (w + s)[1..] == w[1..] + s;
      StripLeftSpaces(w[1..], s);
    } else {
      assert w + s == s;
    }
  }

  lemma {:induction false} StripRightSpaces(s: string, w: string)
    requires NoneButSpace(w) && s != [] && !IsSpace(s[|s| - 1])
    ensures StripRight(s + w) == s
    decreases |w|
  {
    if w != [] {
      assert (s + w)[..|s + w| - 1] == s + w[..|w| - 1];
      StripRightSpaces(s, w[..|w| - 1]);
    } else {
      assert s + w == s;
    }
  }

  predicate AllHex(h: string) {
    forall k :: 0 <= k < |h| ==> IsHexDigit(h[k])
  }

  /** The 3-digit shorthand parses like its doubled 6-digit form. */
  lemma HexShorthand(h: string)
    requires |h| == 3 && AllHex(h)
    ensures HexToRgb(['#'] + h) == HexToRgb(['#'] + Doubled(h))
    ensures HexToRgb(['#'] + h) == Some(Rgb(PairValue(h[0], h[0]), PairValue(h[1], h[1]), PairValue(h[2], h[2])))
  {
    HexDigitsNoSpace(h);
    BodyOfHashed(['#'] + h, h);
    ViaBody(['#'] + h, Doubled(h));
    SixDigitBody(Doubled(h));
    HexSixDigits(Doubled(h));
  }

  lemma ViaBody(s: string, h: string)
    requires HexBody(s) == h
    ensures HexToRgb(s) == RgbOfBody(h)
  {
  }

  function Doubled(h: string): (d: string)
    requires |h| == 3
    ensures |d| == 6
  {
    [h[0], h[0], h[1], h[1], h[2], h[2]]
  }

  /** A valid 6-digit colour yields the values of its three pairs, each in
      0..255. */
  lemma HexSixDigits(h: string)
    requires |h| == 6 && AllHex(h)
    ensures HexToRgb(['#'] + h) == Some(Rgb(PairValue(h[0], h[1]), PairValue(h[2], h[3]), PairValue(h[4], h[5])))
    ensures var rgb := HexToRgb(['#'] + h).value;
      0 <= rgb.r <= 255 && 0 <= rgb.g <= 255 && 0 <= rgb.b <= 255
  {
    HexDigitsNoSpace(h);
    BodyOfHashed(['#'] + h, h);
    ViaBody(['#'] + h, h);
    SixDigitBody(h);
  }

  lemma HexDigitsNoSpace(h: string)
    requires AllHex(h)
    ensures NoSpace(['#'] + h)
  {
  }

  lemma BodyOfHashed(s: string, h: string)
    requires s == ['#'] + h && NoSpace(s) && (h == [] || h[0] != '#')
    ensures HexBody(s) == (if |h| == 3 then [h[0], h[0], h[1], h[1], h[2], h[2]] else h)
    ensures LStripHash(Strip(s)) == h
  {
    NoSpaceStrip(s);
    assert s[0] == '#' && s[1..] == h;
    assert LStripHash(h) == h;
    assert LStripHash(s) == h;
  }

  lemma SixDigitBody(h: string)
    requires |h| == 6 && AllHex(h)
    ensures RgbOfBody(h) == Some(Rgb(PairValue(h[0], h[1]), PairValue(h[2], h[3]), PairValue(h[4], h[5])))
  {
    assert Slice(h, 0, 2) == [h[0], h[1]];
    assert Slice(h, 2, 4) == [h[2], h[3]];
    assert Slice(h, 4, 6) == [h[4], h[5]];
    PairParses(h[0], h[1]);
    PairParses(h[2], h[3]);
    PairParses(h[4], h[5]);
  }

  /** Upper-case hex formatting `#RRGGBB`, the inverse of `HexToRgb` on
      colours. */
  function HexDigitChar(v: nat): (c: char)
    requires v < 16
    ensures IsHexDigit(c) && HexDigitValue(c) == v
  {
    if v < 10 then ('0' as int + v) as char else ('A' as int + v - 10) as char
  }

  function FormatHex(rgb: Rgb): (s: string)
    requires 0 <= rgb.r <= 255 && 0 <= rgb.g <= 255 && 0 <= rgb.b <= 255
  {
    ['#'] + HexPairs(rgb)
  }

  function HexPairs(rgb: Rgb): (h: string)
    requires 0 <= rgb.r <= 255 && 0 <= rgb.g <= 255 && 0 <= rgb.b <= 255
    ensures |h| == 6 && AllHex(h)
  {
    [HexDigitChar(rgb.r / 16), HexDigitChar(rgb.r % 16),
     HexDigitChar(rgb.g / 16), HexDigitChar(rgb.g % 16),
     HexDigitChar(rgb.b / 16), HexDigitChar(rgb.b % 16)]
  }

  /** Formatting a colour as `#RRGGBB` and parsing it back gives the colour. */
  lemma HexRoundTrip(rgb: Rgb)
    requires 0 <= rgb.r <= 255 && 0 <= rgb.g <= 255 && 0 <= rgb.b <= 255
    ensures HexToRgb(FormatHex(rgb)) == Some(rgb)
  {
    var h := HexPairs(rgb);
    HexSixDigits(h);
    PairOfDigits(rgb.r);
    PairOfDigits(rgb.g);
    PairOfDigits(rgb.b);
  }

  lemma PairOfDigits(v: int)
    requires 0 <= v <= 255
    ensures PairValue(HexDigitChar(v / 16), HexDigitChar(v % 16)) == v
  {
  }
}
