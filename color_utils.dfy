/**
 * Colour string conversions of src/utils/colorUtils.ts.
 *
 * `hexToRgba` cuts three two-character slices out of a `#rrggbb` string,
 * reads each with `parseInt(…, 16)` and formats an `rgba(r, g, b, o)`
 * string; `hexToNumber` deletes the first `#` and reads the rest with
 * `parseInt(…, 16)`. Opacity is carried as integer hundredths, which is
 * what `toFixed(2)` prints.
 */
module ColorUtils {
  import opened Wrappers

  /** A JavaScript number as `parseInt` can produce it: an integer or NaN. */
  datatype Num = NaN | Int(value: int)

  // ---------------------------------------------------------------------
  // Characters
  // ---------------------------------------------------------------------

  /** The white space and line terminators that `parseInt` skips before a number. */
  predicate IsJsWhiteSpace(c: char) {
    || ('\t' <= c <= '\r') || c == ' ' || c == '\U{00A0}' || c == '\U{1680}'
    || ('\U{2000}' <= c <= '\U{200A}') || c == '\U{2028}' || c == '\U{2029}' || c == '\U{202F}'
    || c == '\U{205F}' || c == '\U{3000}' || c == '\U{FEFF}'
  }

  predicate IsHexDigit(c: char) {
    ('0' <= c <= '9') || ('a' <= c <= 'f') || ('A' <= c <= 'F')
  }

  predicate IsHexDigits(s: string) {
    forall i :: 0 <= i < |s| ==> IsHexDigit(s[i])
  }

  function HexDigitValue(c: char): (d: nat)
    requires IsHexDigit(c)
    ensures d < 16
  {
    if '0' <= c <= '9' then c as int - '0' as int
    else if 'a' <= c <= 'f' then c as int - 'a' as int + 10
    else c as int - 'A' as int + 10
  }

  predicate IsDecimalDigit(c: char) {
    '0' <= c <= '9'
  }

  predicate IsDecimalDigits(s: string) {
    forall i :: 0 <= i < |s| ==> IsDecimalDigit(s[i])
  }

  function DecimalDigit(n: nat): (c: char)
    requires n < 10
    ensures IsDecimalDigit(c) && c as int - '0' as int == n
  {
    ('0' as int + n) as char
  }

  // ---------------------------------------------------------------------
  // String helpers with JavaScript's meaning
  // ---------------------------------------------------------------------

  /** Index of the first occurrence of `c` in `s`. */
  function IndexOf(s: string, c: char): (i: nat)
    requires c in s
    ensures i < |s| && s[i] == c && c !in s[..i]
    ensures forall j :: 0 <= j < i ==> s[j] != c
  {
    if s[0] == c then 0
    else
      assert c in s[1..] by { assert s == [s[0]] + s[1..]; }
      var j := IndexOf(s[1..], c);
      assert s[..j + 1] == [s[0]] + s[1..][..j];
      j + 1
  }

  /** The first occurrence of `c` is the only index before which `c` does not occur. */
  lemma IndexOfUnique(s: string, c: char, i: nat)
    requires i < |s| && s[i] == c && c !in s[..i]
    ensures c in s && IndexOf(s, c) == i
  {
    var k := IndexOf(s, c);
    assert forall j :: 0 <= j < i ==> s[j] != c by {
      forall j | 0 <= j < i ensures s[j] != c { assert s[..i][j] == s[j]; }
    }
  }

  /** `s.replace(c, "")` with a one-character pattern: deletes the first `c` only. */
  function RemoveFirst(s: string, c: char): (r: string)
    ensures c !in s ==> r == s
    ensures c in s ==> |r| == |s| - 1
    ensures forall i :: 0 <= i < |s| && s[i] == c && c !in s[..i] ==> r == s[..i] + s[i + 1..]
  {
    if c in s then s[..IndexOf(s, c)] + s[IndexOf(s, c) + 1..] else s
  }

  /** `s.slice(start, end)` for non-negative bounds: both are clamped to the length. */
  function Slice(s: string, start: nat, end: nat): (r: string)
    ensures end <= |s| && start <= end ==> r == s[start..end]
    ensures |r| <= |s|
  {
    var lo := if start < |s| then start else |s|;
    var hi := if end < |s| then end else |s|;
    if lo < hi then s[lo..hi] else ""
  }

  /** What `parseInt` skips first: the leading white space. */
  function TrimStart(s: string): (r: string)
    ensures |r| <= |s| && r == s[|s| - |r|..]
    ensures forall i :: 0 <= i < |s| - |r| ==> IsJsWhiteSpace(s[i])
    ensures r == [] || !IsJsWhiteSpace(r[0])
  {
    if |s| > 0 && IsJsWhiteSpace(s[0]) then TrimStart(s[1..]) else s
  }

  /** The longest prefix of `s` made of hexadecimal digits. */
  function HexDigitPrefix(s: string): (r: string)
    ensures |r| <= |s| && r == s[..|r|] && IsHexDigits(r)
    ensures |r| < |s| ==> !IsHexDigit(s[|r|])
  {
    if |s| > 0 && IsHexDigit(s[0]) then
      var t := HexDigitPrefix(s[1..]);
      assert ([s[0]] + t)[1..] == t;
      [s[0]] + t
    else ""
  }

  /** The value of a string of hexadecimal digits, most significant first. */
  function HexValue(s: string): nat
    requires IsHexDigits(s)
  {
    if |s| == 0 then 0 else 16 * HexValue(s[..|s| - 1]) + HexDigitValue(s[|s| - 1])
  }

  /** `parseInt(s, 16)`: white space, a sign, an optional `0x`, then the longest run of digits. */
  function ParseIntHex(s: string): Num {
    ParseSignedHex(TrimStart(s))
  }

  /** After the white space: an optional sign; a minus negates the number that follows. */
  function ParseSignedHex(t: string): Num {
    if |t| > 0 && t[0] == '-' then Negated(ParseUnsignedHex(t[1..]))
    else if |t| > 0 && t[0] == '+' then ParseUnsignedHex(t[1..])
    else ParseUnsignedHex(t)
  }

  /** With radix 16 a leading `0x` or `0X` is skipped. */
  function StripHexPrefix(u: string): string {
    if |u| >= 2 && u[0] == '0' && (u[1] == 'x' || u[1] == 'X') then u[2..] else u
  }

  /** The longest run of digits after the prefix; NaN when there is none. */
  function ParseUnsignedHex(u: string): Num {
    var digits := HexDigitPrefix(StripHexPrefix(u));
    if |digits| == 0 then NaN else Int(HexValue(digits))
  }

  function Negated(x: Num): Num {
    match x
    case NaN => NaN
    case Int(v) => Int(0 - v)
  }

  /** A string of digits is its own longest digit prefix. */
  lemma HexDigitPrefixOfDigits(s: string)
    requires IsHexDigits(s)
    ensures HexDigitPrefix(s) == s
  {
  }

  /** A plain non-empty run of hexadecimal digits parses to its value. */
  lemma ParseIntHexOfDigits(s: string)
    requires |s| > 0 && IsHexDigits(s)
    ensures ParseIntHex(s) == Int(HexValue(s))
  {
    HexDigitIsNotSpace(s[0]);
    assert TrimStart(s) == s;
    assert ParseSignedHex(s) == ParseUnsignedHex(s);
    NoHexPrefix(s);
    HexDigitPrefixOfDigits(s);
  }

  /** A hexadecimal digit is neither white space nor a sign. */
  lemma HexDigitIsNotSpace(c: char)
    requires IsHexDigit(c)
    ensures !IsJsWhiteSpace(c) && c != '-' && c != '+'
  {
  }

  /** A run of hexadecimal digits has no `0x` prefix: its second character is not `x`. */
  lemma NoHexPrefix(s: string)
    requires IsHexDigits(s)
    ensures StripHexPrefix(s) == s
  {
    if |s| >= 2 {
      assert IsHexDigit(s[1]);
    }
  }

  // ---------------------------------------------------------------------
  // Number formatting
  // ---------------------------------------------------------------------

  /** Decimal digits of a natural number, as a template literal prints it. */
  function NatText(n: nat): (s: string)
    ensures |s| > 0 && IsDecimalDigits(s)
  {
    if n < 10 then [DecimalDigit(n)] else NatText(n / 10) + [DecimalDigit(n % 10)]
  }

  /** `${x}` for a number `parseInt` returned. */
  function NumText(x: Num): string {
    match x
    case NaN => "NaN"
    case Int(v) => if v < 0 then "-" + NatText(-v) else NatText(v)
  }

  /** `o.toFixed(2)` for an opacity of `hundredths` / 100. */
  function FixedTwo(hundredths: int): string {
    var m: nat := if hundredths < 0 then -hundredths else hundredths;
    (if hundredths < 0 then "-" else "")
      + NatText(m / 100) + "." + [DecimalDigit(m % 100 / 10), DecimalDigit(m % 10)]
  }

  // ---------------------------------------------------------------------
  // The two conversions
  // ---------------------------------------------------------------------

  /** The three channels `hexToRgba` reads: slices 1–3, 3–5 and 5–7, each base 16. */
  function Red(hex: string): Num { ParseIntHex(Slice(hex, 1, 3)) }
  function Green(hex: string): Num { ParseIntHex(Slice(hex, 3, 5)) }
  function Blue(hex: string): Num { ParseIntHex(Slice(hex, 5, 7)) }

  /** `hexToRgba(hex, opacity)` with the opacity given in hundredths. */
  function HexToRgba(hex: string, opacityHundredths: int): (r: string)
    ensures |r| > 5 && r[..5] == "rgba(" && r[|r| - 1] == ')'
  {
    var rt, gt, bt, ot := NumText(Red(hex)), NumText(Green(hex)), NumText(Blue(hex)), FixedTwo(opacityHundredths);
    RgbaTextFrame(rt, gt, bt, ot);
    CallFrame("rgba(", rt + ", " + gt + ", " + bt + ", " + ot, ')');
    RgbaText(rt, gt, bt, ot)
  }

  /** A call text `name(args)` starts with its name and ends with the closing bracket. */
  lemma CallFrame(name: string, args: string, close: char)
    ensures |name + args + [close]| > |name|
    ensures (name + args + [close])[..|name|] == name && (name + args + [close])[|name + args + [close]| - 1] == close
  {
    assert (name + args + [close])[..|name|] == name;
  }

  /** The template literal `rgba(${r}, ${g}, ${b}, ${o})`. */
  function RgbaText(r: string, g: string, b: string, o: string): string {
    "rgba(" + r + ", " + g + ", " + b + ", " + o + ")"
  }

  /** `hexToNumber(hex)`: the first `#` is deleted and the rest read base 16. */
  function HexToNumber(hex: string): (n: Num)
    ensures '#' !in hex ==> n == ParseIntHex(hex)
    ensures |hex| > 0 && hex[0] == '#' ==> n == ParseIntHex(hex[1..])
  {
    assert |hex| > 0 && hex[0] == '#' ==> '#' !in hex[..0] && hex[..0] + hex[1..] == hex[1..];
    ParseIntHex(RemoveFirst(hex, '#'))
  }

  /** A `#rrggbb` colour, possibly followed by more characters (an alpha pair, say). */
  predicate IsHexColor(hex: string) {
    |hex| >= 7 && hex[0] == '#' && forall i :: 1 <= i < 7 ==> IsHexDigit(hex[i])
  }

  /** The byte spelled by two hexadecimal digits. */
  function PairValue(hi: char, lo: char): (v: nat)
    requires IsHexDigit(hi) && IsHexDigit(lo)
    ensures v <= 255
  {
    16 * HexDigitValue(hi) + HexDigitValue(lo)
  }

  // ---------------------------------------------------------------------
  // Properties
  // ---------------------------------------------------------------------

  lemma HexValueTwo(s: string)
    requires |s| == 2 && IsHexDigits(s)
    ensures HexValue(s) == PairValue(s[0], s[1])
  {
    var s1 := s[..1];
    assert s1 == [s[0]] && s1[..0] == [];
    assert IsHexDigits(s1);
    assert HexValue(s1) == 16 * HexValue(s1[..0]) + HexDigitValue(s[0]);
    assert HexValue(s1) == HexDigitValue(s[0]);
    assert HexValue(s) == 16 * HexValue(s1) + HexDigitValue(s[1]);
  }

  /** For a valid colour each channel is the byte spelled by its pair and lies in [0, 255]. */
  lemma ChannelsOfHexColor(hex: string)
    requires IsHexColor(hex)
    ensures Red(hex) == Int(PairValue(hex[1], hex[2]))
    ensures Green(hex) == Int(PairValue(hex[3], hex[4]))
    ensures Blue(hex) == Int(PairValue(hex[5], hex[6]))
    ensures 0 <= Red(hex).value <= 255 && 0 <= Green(hex).value <= 255 && 0 <= Blue(hex).value <= 255
  {
    PairChannel(hex, 1);
    PairChannel(hex, 3);
    PairChannel(hex, 5);
  }

  /** The slice `hex[i..i+2]` of two digits parses to the byte they spell. */
  lemma PairChannel(hex: string, i: nat)
    requires i + 2 <= |hex| && IsHexDigit(hex[i]) && IsHexDigit(hex[i + 1])
    ensures ParseIntHex(Slice(hex, i, i + 2)) == Int(PairValue(hex[i], hex[i + 1]))
  {
    var pair := hex[i..i + 2];
    assert pair == [hex[i], hex[i + 1]];
    HexValueTwo(pair);
    ParseIntHexOfDigits(pair);
  }

  /**
   * The channels, and so the whole `rgba(…)` string, depend on the characters
   * at positions 1 to 6 only: the leading character and anything after the
   * sixth digit (an alpha pair) make no difference.
   */
  lemma HexToRgbaReadsPositionsOneToSix(a: string, b: string, opacityHundredths: int)
    requires |a| >= 7 && |b| >= 7 && a[1..7] == b[1..7]
    ensures Red(a) == Red(b) && Green(a) == Green(b) && Blue(a) == Blue(b)
    ensures HexToRgba(a, opacityHundredths) == HexToRgba(b, opacityHundredths)
  {
    assert a[1..7][0] == b[1..7][0] && a[1..7][1] == b[1..7][1] && a[1..7][2] == b[1..7][2];
    assert a[1..7][3] == b[1..7][3] && a[1..7][4] == b[1..7][4] && a[1..7][5] == b[1..7][5];
    assert a[1..3] == [a[1], a[2]] == [b[1], b[2]] == b[1..3];
    assert a[3..5] == [a[3], a[4]] == [b[3], b[4]] == b[3..5];
    assert a[5..7] == [a[5], a[6]] == [b[5], b[6]] == b[5..7];
  }

  /** An alpha pair (or any suffix) after `#rrggbb` is ignored by `hexToRgba`. */
  lemma TrailingAlphaIgnored(hex: string, tail: string, opacityHundredths: int)
    requires |hex| == 7
    ensures HexToRgba(hex + tail, opacityHundredths) == HexToRgba(hex, opacityHundredths)
  {
    assert (hex + tail)[1..7] == hex[1..7];
    HexToRgbaReadsPositionsOneToSix(hex + tail, hex, opacityHundredths);
  }

  lemma ConcatHexDigits(a: string, b: string)
    requires IsHexDigits(a) && IsHexDigits(b)
    ensures IsHexDigits(a + b)
  {
    forall i | 0 <= i < |a + b| ensures IsHexDigit((a + b)[i]) {
      if i < |a| { assert (a + b)[i] == a[i]; } else { assert (a + b)[i] == b[i - |a|]; }
    }
  }

  /** Reading digits `a` then `b` is reading `a`, shifting by `|b|` digits and adding `b`. */
  lemma {:induction false} HexValueAppend(a: string, b: string)
    requires IsHexDigits(a) && IsHexDigits(b)
    ensures IsHexDigits(a + b)
    ensures HexValue(a + b) == HexValue(a) * Pow16(|b|) + HexValue(b)
    decreases |b|
  {
    ConcatHexDigits(a, b);
    if |b| == 0 {
      assert a + b == a;
    } else {
      var b' := b[..|b| - 1];
      var last := b[|b| - 1];
      assert IsHexDigits(b') by {
        forall i | 0 <= i < |b'| ensures IsHexDigit(b'[i]) { assert b'[i] == b[i]; }
      }
      HexValueAppend(a, b');
      assert (a + b)[..|a + b| - 1] == a + b';
      assert (a + b)[|a + b| - 1] == last;
      assert HexValue(a + b) == 16 * HexValue(a + b') + HexDigitValue(last);
      assert HexValue(b) == 16 * HexValue(b') + HexDigitValue(last);
      assert Pow16(|b|) == 16 * Pow16(|b'|);
      ShiftDigit(HexValue(a), Pow16(|b'|), HexValue(b'), HexDigitValue(last));
    }
  }

  lemma ShiftDigit(high: nat, scale: nat, low: nat, digit: nat)
    ensures 16 * (high * scale + low) + digit == high * (16 * scale) + (16 * low + digit)
  {
  }

  function Pow16(n: nat): (p: nat)
    ensures p > 0
  {
    if n == 0 then 1 else 16 * Pow16(n - 1)
  }

  /** `hexToNumber` deletes exactly one `#`, the first, and reads the remainder. */
  lemma HexToNumberStripsFirstHash(hex: string, i: nat)
    requires i < |hex| && hex[i] == '#' && '#' !in hex[..i]
    ensures RemoveFirst(hex, '#') == hex[..i] + hex[i + 1..]
    ensures HexToNumber(hex) == ParseIntHex(hex[..i] + hex[i + 1..])
  {
    IndexOfUnique(hex, '#', i);
    var rest := hex[..i] + hex[i + 1..];
    assert RemoveFirst(hex, '#') == rest;
  }

  /** Three bytes packed most significant first, as `0xRRGGBB` spells them. */
  function Rgb24(r: int, g: int, b: int): int {
    r * 65536 + g * 256 + b
  }

  /** Three bytes pack into 24 bits. */
  lemma Rgb24Bound(r: int, g: int, b: int)
    requires 0 <= r <= 255 && 0 <= g <= 255 && 0 <= b <= 255
    ensures 0 <= Rgb24(r, g, b) <= 0xFF_FFFF
  {
  }

  /** The six digits of a colour read as three bytes, most significant first. */

  lemma HexValueOfColorDigits(hex: string)
    requires IsHexColor(hex)
    ensures IsHexDigits(hex[1..7])
    ensures HexValue(hex[1..7]) == Rgb24(PairValue(hex[1], hex[2]), PairValue(hex[3], hex[4]), PairValue(hex[5], hex[6]))
  {
    var r, g, b := hex[1..3], hex[3..5], hex[5..7];
    assert r == [hex[1], hex[2]] && g == [hex[3], hex[4]] && b == [hex[5], hex[6]];
    assert hex[1..7] == r + g + b;
    HexValueTwo(r);
    HexValueTwo(g);
    HexValueTwo(b);
    HexValueAppend(r, g);
    HexValueAppend(r + g, b);
    assert Pow16(2) == 256;
    var hr, hg, hb := HexValue(r), HexValue(g), HexValue(b);
    assert HexValue(r + g) == hr * 256 + hg;
    assert HexValue(r + g + b) == (hr * 256 + hg) * 256 + hb;
  }

  /** A `#` followed by a run of digits reads as the value of the digits. */
  lemma HexToNumberOfHashDigits(hex: string, digits: string)
    requires |hex| > 0 && hex[0] == '#' && hex[1..] == digits
    requires |digits| > 0 && IsHexDigits(digits)
    ensures HexToNumber(hex) == Int(HexValue(digits))
  {
    assert hex[..0] + hex[1..] == digits;
    HexToNumberStripsFirstHash(hex, 0);
    ParseIntHexOfDigits(digits);
  }

  lemma HexToNumberOfColorDigits(hex: string)
    requires IsHexColor(hex) && |hex| == 7
    ensures HexToNumber(hex) == Int(Rgb24(PairValue(hex[1], hex[2]), PairValue(hex[3], hex[4]), PairValue(hex[5], hex[6])))
  {
    HexValueOfColorDigits(hex);
    HexToNumberOfHashDigits(hex, hex[1..7]);
  }

  /** For `#rrggbb`, `hexToNumber` is the 24-bit value of the channels `hexToRgba` reads. */
  lemma HexToNumberOfHexColor(hex: string)
    requires IsHexColor(hex) && |hex| == 7
    ensures Red(hex).Int? && Green(hex).Int? && Blue(hex).Int?
    ensures HexToNumber(hex) == Int(Rgb24(Red(hex).value, Green(hex).value, Blue(hex).value))
    ensures 0 <= HexToNumber(hex).value <= 0xFF_FFFF
  {
    HexToNumberOfColorDigits(hex);
    ChannelsOfHexColor(hex);
    Rgb24Bound(Red(hex).value, Green(hex).value, Blue(hex).value);
  }

  // ---------------------------------------------------------------------
  // Reading an rgba(…) string back
  // ---------------------------------------------------------------------

  /** The value of a string of decimal digits. */
  function DecimalValue(s: string): nat
    requires IsDecimalDigits(s)
  {
    if |s| == 0 then 0 else 10 * DecimalValue(s[..|s| - 1]) + (s[|s| - 1] as int - '0' as int)
  }

  lemma {:induction false} DecimalValueOfNatText(n: nat)
    ensures DecimalValue(NatText(n)) == n
  {
    if n >= 10 {
      DecimalValueOfNatText(n / 10);
      var s := NatText(n);
      assert s[..|s| - 1] == NatText(n / 10);
    }
  }

  /** Splits `s` at every `sep`, as `s.split(sep)` does. */
  function SplitOn(s: string, sep: char): (parts: seq<string>)
    ensures |parts| > 0
    decreases |s|
  {
    if sep !in s then [s]
    else [s[..IndexOf(s, sep)]] + SplitOn(s[IndexOf(s, sep) + 1..], sep)
  }

  lemma SplitOnAfterField(a: string, b: string, sep: char)
    requires sep !in a
    ensures SplitOn(a + [sep] + b, sep) == [a] + SplitOn(b, sep)
  {
    var s := a + [sep] + b;
    assert s[..|a|] == a;
    IndexOfUnique(s, sep, |a|);
    assert s[|a| + 1..] == b;
  }

  /** A field of decimal digits. */
  function ParseNatField(s: string): Option<nat> {
    if |s| > 0 && IsDecimalDigits(s) then Some(DecimalValue(s)) else None
  }

  /** A field `ddd.dd`, read as hundredths. */
  function ParseFixedTwoField(s: string): Option<nat> {
    if |s| >= 4 && s[|s| - 3] == '.' && |s[..|s| - 3]| > 0 && IsDecimalDigits(s[..|s| - 3])
       && IsDecimalDigit(s[|s| - 2]) && IsDecimalDigit(s[|s| - 1])
    then Some(100 * DecimalValue(s[..|s| - 3]) + 10 * (s[|s| - 2] as int - '0' as int) + (s[|s| - 1] as int - '0' as int))
    else None
  }

  /** A field after a comma: one space, then the text. */
  function AfterSpace(field: string): Option<string> {
    if |field| > 0 && field[0] == ' ' then Some(field[1..]) else None
  }

  /** Reads the four numbers back out of `rgba(r, g, b, o)`. */
  function ParseRgba(s: string): Option<(nat, nat, nat, nat)> {
    if |s| < 6 || s[..5] != "rgba(" || s[|s| - 1] != ')' then None
    else ParseRgbaFields(s[5..|s| - 1])
  }

  /** Reads `r, g, b, o`: four comma-separated fields, each after the first led by one space. */
  function ParseRgbaFields(inner: string): Option<(nat, nat, nat, nat)> {
    var fields := SplitOn(inner, ',');
    if |fields| != 4 then None
    else
      var g, b, o := AfterSpace(fields[1]), AfterSpace(fields[2]), AfterSpace(fields[3]);
      if g.None? || b.None? || o.None? then None
      else
        var r, g, b, o := ParseNatField(fields[0]), ParseNatField(g.value), ParseNatField(b.value), ParseFixedTwoField(o.value);
        if r.None? || g.None? || b.None? || o.None? then None
        else Some((r.value, g.value, b.value, o.value))
  }

  /** The frame `rgba(` ... `)` is stripped and the fields inside are read. */
  lemma ParseRgbaOfFrame(inner: string)
    ensures ParseRgba("rgba(" + inner + ")") == ParseRgbaFields(inner)
  {
    var s := "rgba(" + inner + ")";
    assert s[..5] == "rgba(";
    assert s[5..|s| - 1] == inner;
  }

  lemma NoCommaInDigits(s: string)
    requires IsDecimalDigits(s)
    ensures ',' !in s
  {
    assert forall i :: 0 <= i < |s| ==> s[i] != ',';
  }

  lemma ParseFixedTwoOfFixedTwo(h: nat)
    ensures ',' !in FixedTwo(h)
    ensures ParseFixedTwoField(FixedTwo(h)) == Some(h)
  {
    var ip := NatText(h / 100);
    var s := FixedTwo(h);
    assert s == ip + "." + [DecimalDigit(h % 100 / 10), DecimalDigit(h % 10)];
    assert s[..|s| - 3] == ip;
    DecimalValueOfNatText(h / 100);
    NoCommaInDigits(ip);
  }

  /** Appending one more field after a separator appends it to the split. */
  lemma {:induction false} SplitOnBeforeField(a: string, b: string, sep: char)
    requires sep !in b
    ensures SplitOn(a + [sep] + b, sep) == SplitOn(a, sep) + [b]
    decreases |a|
  {
    var s := a + [sep] + b;
    if sep !in a {
      SplitOnAfterField(a, b, sep);
    } else {
      var i := IndexOf(a, sep);
      assert s[..i] == a[..i];
      IndexOfUnique(s, sep, i);
      assert s[i + 1..] == a[i + 1..] + [sep] + b;
      SplitOnBeforeField(a[i + 1..], b, sep);
    }
  }

  /** `a + ", " + x` is `a`, a comma, and the field `" " + x`. */
  lemma CommaSpace(a: string, x: string)
    ensures a + ", " + x == a + [','] + (" " + x)
  {
  }

  /** Four fields appended one at a time, read back by position. */
  lemma AppendedFields(q: seq<string>, a: string, b: string, c: string, d: string)
    requires q == [a] + [b] + [c] + [d]
    ensures |q| == 4 && q[0] == a && q[1] == b && q[2] == c && q[3] == d
  {
  }

  /** The four comma-separated fields of the text between the parentheses. */
  lemma SplitRgbaFields(rt: string, gt: string, bt: string, ot: string)
    requires ',' !in rt && ',' !in gt && ',' !in bt && ',' !in ot
    ensures var parts := SplitOn(rt + ", " + gt + ", " + bt + ", " + ot, ',');
      |parts| == 4 && parts[0] == rt && parts[1] == " " + gt && parts[2] == " " + bt && parts[3] == " " + ot
  {
    var g', b', o' := " " + gt, " " + bt, " " + ot;
    assert ',' !in g' && ',' !in b' && ',' !in o';
    var p1 := rt + ", " + gt;
    var p2 := p1 + ", " + bt;
    assert SplitOn(rt, ',') == [rt];
    CommaSpace(rt, gt);
    SplitOnBeforeField(rt, g', ',');
    CommaSpace(p1, bt);
    SplitOnBeforeField(p1, b', ',');
    CommaSpace(p2, ot);
    SplitOnBeforeField(p2, o', ',');
    AppendedFields(SplitOn(p2 + ", " + ot, ','), rt, g', b', o');
  }

  /** The text between `rgba(` and `)` is the four fields joined by ", ". */
  lemma RgbaTextFrame(r: string, g: string, b: string, o: string)
    ensures RgbaText(r, g, b, o) == "rgba(" + (r + ", " + g + ", " + b + ", " + o) + ")"
  {
  }

  /** Formatting three channels and an opacity and reading them back gives them unchanged. */
  lemma ParseRgbaOfRgbaText(r: nat, g: nat, b: nat, hundredths: nat)
    ensures ParseRgba(RgbaText(NatText(r), NatText(g), NatText(b), FixedTwo(hundredths))) == Some((r, g, b, hundredths))
  {
    var rt, gt, bt, ot := NatText(r), NatText(g), NatText(b), FixedTwo(hundredths);
    RgbaTextFrame(rt, gt, bt, ot);
    ParseRgbaOfFrame(rt + ", " + gt + ", " + bt + ", " + ot);
    ParseRgbaFieldsOfText(r, g, b, hundredths);
  }

  /** The fields of a formatted colour read back as the numbers formatted. */
  lemma ParseRgbaFieldsOfText(r: nat, g: nat, b: nat, hundredths: nat)
    ensures ParseRgbaFields(NatText(r) + ", " + NatText(g) + ", " + NatText(b) + ", " + FixedTwo(hundredths))
            == Some((r, g, b, hundredths))
  {
    var rt, gt, bt, ot := NatText(r), NatText(g), NatText(b), FixedTwo(hundredths);
    NoCommaInDigits(rt);
    NoCommaInDigits(gt);
    NoCommaInDigits(bt);
    ParseFixedTwoOfFixedTwo(hundredths);
    SplitRgbaFields(rt, gt, bt, ot);
    assert (" " + gt)[1..] == gt && (" " + bt)[1..] == bt && (" " + ot)[1..] == ot;
    DecimalValueOfNatText(r);
    DecimalValueOfNatText(g);
    DecimalValueOfNatText(b);
  }

  /**
   * `hexToRgba` is decodable: for a valid colour and a non-negative opacity,
   * reading its output back yields the three channel bytes and the opacity,
   * so the string has the shape `rgba(r, g, b, o)` with decimal channels
   * separated by ", " and the opacity with two decimals.
   */
  lemma ParseRgbaOfHexToRgba(hex: string, opacityHundredths: nat)
    requires IsHexColor(hex)
    ensures ParseRgba(HexToRgba(hex, opacityHundredths))
            == Some((PairValue(hex[1], hex[2]), PairValue(hex[3], hex[4]), PairValue(hex[5], hex[6]), opacityHundredths))
  {
    ChannelsOfHexColor(hex);
    ParseRgbaOfRgbaText(PairValue(hex[1], hex[2]), PairValue(hex[3], hex[4]), PairValue(hex[5], hex[6]), opacityHundredths);
  }
}
