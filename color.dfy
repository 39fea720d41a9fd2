/**
 * `rgbToHex`: turns the `rgb(r, g, b)` text a browser gives for a computed
 * colour into the `#rrggbb` form a colour input accepts. Text that already
 * starts with `#` is returned as it is; text that is not of the form
 * `rgb(<digits>,<spaces><digits>,<spaces><digits>)` gives `#000000`.
 */
module CssColor {
  import opened Wrappers

  datatype Rgb = Rgb(r: nat, g: nat, b: nat)

  /** `\d` of a JavaScript regular expression without the `u` flag. */
  predicate IsDigit(c: char) {
    '0' <= c <= '9'
  }

  /** `\s` of a JavaScript regular expression: the ECMAScript white space and
      line terminator characters. */
  predicate IsSpace(c: char) {
    || c in {'\t', '\n', '\U{000B}', '\U{000C}', '\r', ' ', '\U{00A0}', '\U{1680}'}
    || '\U{2000}' <= c <= '\U{200A}'
    || c in {'\U{2028}', '\U{2029}', '\U{202F}', '\U{205F}', '\U{3000}', '\U{FEFF}'}
  }

  predicate AllDigits(s: string) {
    forall i :: 0 <= i < |s| ==> IsDigit(s[i])
  }

  predicate AllSpaces(s: string) {
    forall i :: 0 <= i < |s| ==> IsSpace(s[i])
  }

  /** The length of the longest run of digits at the start of `s`. */
  function DigitRun(s: string): (n: nat)
    ensures n <= |s| && AllDigits(s[..n])
    ensures n < |s| ==> !IsDigit(s[n])
  {
    if s != [] && IsDigit(s[0]) then
      var n := 1 + DigitRun(s[1..]);
      assert s[..n] == [s[0]] + s[1..][..n - 1];
      n
    else 0
  }

  /** The length of the longest run of white space at the start of `s`. */
  function SpaceRun(s: string): (n: nat)
    ensures n <= |s| && AllSpaces(s[..n])
    ensures n < |s| ==> !IsSpace(s[n])
  {
    if s != [] && IsSpace(s[0]) then
      var n := 1 + SpaceRun(s[1..]);
      assert s[..n] == [s[0]] + s[1..][..n - 1];
      n
    else 0
  }

  /** Ten to the power `k`. */
  function Pow10(k: nat): (p: nat)
    ensures p >= 1
  {
    if k == 0 then 1 else 10 * Pow10(k - 1)
  }

  /** The value of a decimal digit string, as `parseInt` reads it: below
      ten to the power of its length. */
  function DecimalValue(s: string): (n: nat)
    requires AllDigits(s)
    ensures n < Pow10(|s|)
  {
    if s == [] then 0
    else 10 * DecimalValue(s[..|s| - 1]) + (s[|s| - 1] - '0') as nat
  }

  /** Leading zeros do not change the value, as with `parseInt("007")`. */
  lemma {:induction false} LeadingZero(s: string)
    requires AllDigits(s)
    ensures AllDigits(['0'] + s) && DecimalValue(['0'] + s) == DecimalValue(s)
    decreases |s|
  {
    var z := ['0'] + s;
    assert AllDigits(z) by {
      forall i | 0 <= i < |z| ensures IsDigit(z[i]) {
        if i > 0 { assert z[i] == s[i - 1]; }
      }
    }
    if s != [] {
      var init := s[..|s| - 1];
      assert AllDigits(init) by {
        forall i | 0 <= i < |init| ensures IsDigit(init[i]) { assert init[i] == s[i]; }
      }
      LeadingZero(init);
      assert z[..|z| - 1] == ['0'] + init;
      assert z[|z| - 1] == s[|s| - 1];
    }
  }

  /** One captured component: one or more digits, then `stop`; gives the
      value and the text after `stop`. */
  function Component(s: string, stop: char): (r: Option<(nat, string)>)
    ensures r.Some? ==> |r.value.1| < |s|
  {
    var n := DigitRun(s);
    if n == 0 || n == |s| || s[n] != stop then None
    else Some((DecimalValue(s[..n]), s[n + 1..]))
  }

  /** A later component: white space, then one as `Component` reads it. */
  function Field(s: string, stop: char): (r: Option<(nat, string)>)
    ensures r.Some? ==> |r.value.1| < |s|
  {
    Component(s[SpaceRun(s)..], stop)
  }

  /** The match of `^rgb\((\d+),\s*(\d+),\s*(\d+)\)$`, read left to right.
      Each `\d+` must take the whole digit run and each `\s*` the whole space
      run, since what follows them is not a digit or not a space, so one
      scan decides the match. */
  function ParseRgb(s: string): (c: Option<Rgb>)
    ensures c.Some? ==> |s| > 4 && s[..4] == "rgb("
  {
    if |s| < 4 || s[..4] != "rgb(" then None else ParseComponents(s[4..])
  }

  /** The part of the match after `rgb(`. */
  function ParseComponents(t: string): (c: Option<Rgb>) {
    match Component(t, ',')
    case None => None
    case Some((r, rest1)) =>
      match Field(rest1, ',')
      case None => None
      case Some((g, rest2)) =>
        match Field(rest2, ')')
        case None => None
        case Some((b, rest3)) => if rest3 == [] then Some(Rgb(r, g, b)) else None
  }

  /** The text the pattern matches, from its pieces. */
  function RgbText(d1: string, w1: string, d2: string, w2: string, d3: string): string {
    "rgb(" + d1 + "," + w1 + d2 + "," + w2 + d3 + ")"
  }

  /** The pieces the pattern allows: non-empty digit runs and white space. */
  predicate Pieces(d1: string, w1: string, d2: string, w2: string, d3: string) {
    && d1 != [] && AllDigits(d1)
    && d2 != [] && AllDigits(d2)
    && d3 != [] && AllDigits(d3)
    && AllSpaces(w1) && AllSpaces(w2)
  }

  /** A lower-case hexadecimal digit. */
  function HexDigit(d: nat): (c: char)
    requires d < 16
  {
    if d < 10 then '0' + d as char else 'a' + (d - 10) as char
  }

  /** The value of a hexadecimal digit, upper or lower case. */
  function HexDigitValue(c: char): nat {
    if '0' <= c <= '9' then (c - '0') as nat
    else if 'a' <= c <= 'f' then (c - 'a') as nat + 10
    else if 'A' <= c <= 'F' then (c - 'A') as nat + 10
    else 0
  }

  /** The value of a hexadecimal digit string. */
  function HexValue(s: string): nat {
    if s == [] then 0
    else 16 * HexValue(s[..|s| - 1]) + HexDigitValue(s[|s| - 1])
  }

  predicate IsLowerHex(s: string) {
    forall i :: 0 <= i < |s| ==> IsDigit(s[i]) || 'a' <= s[i] <= 'f'
  }

  /** `n.toString(16)`: lower-case hexadecimal without leading zeros. */
  function ToHex(n: nat): (s: string)
    ensures s != [] && IsLowerHex(s)
    ensures |s| > 1 ==> s[0] != '0'
    ensures |s| <= 2 <==> n < 256
  {
    if n < 16 then [HexDigit(n)]
    else
      var s := ToHex(n / 16) + [HexDigit(n % 16)];
      assert |s| <= 2 <==> n < 256 by {
        if n / 16 >= 16 { assert n >= 256; }
      }
      s
  }

  /** `padStart(width, '0')`: zeros in front up to `width` characters. */
  function PadStart(s: string, width: nat): (p: string)
    ensures |p| == if |s| < width then width else |s|
    ensures p[|p| - |s|..] == s
    ensures forall i :: 0 <= i < |p| - |s| ==> p[i] == '0'
  {
    if |s| >= width then s else seq(width - |s|, _ => '0') + s
  }

  /** One component of the result: hexadecimal, at least two digits. */
  function Hex2(n: nat): (s: string)
    ensures IsLowerHex(s) && |s| >= 2
    ensures n < 256 <==> |s| == 2
  {
    PadStart(ToHex(n), 2)
  }

  /** `rgbToHex`. */
  function RgbToHex(s: string): (h: string)
    ensures h != [] && h[0] == '#'
    ensures |s| > 0 && s[0] == '#' ==> h == s
    ensures !(|s| > 0 && s[0] == '#') && ParseRgb(s).None? ==> h == "#000000"
  {
    if |s| > 0 && s[0] == '#' then s
    else match ParseRgb(s)
      case None => "#000000"
      case Some(c) => "#" + Hex2(c.r) + Hex2(c.g) + Hex2(c.b)
  }

  // ---------------------------------------------------------------------
  // Properties

  /** Reading back the hexadecimal text gives the number. */
  lemma {:induction false} HexRoundTrip(n: nat)
    ensures HexValue(ToHex(n)) == n
  {
    if n >= 16 {
      HexRoundTrip(n / 16);
      var s := ToHex(n / 16) + [HexDigit(n % 16)];
      assert s[..|s| - 1] == ToHex(n / 16);
    }
  }

  /** Leading zeros do not change a hexadecimal value. */
  lemma {:induction false} ZeroPaddedValue(s: string, k: nat)
    requires k <= |s| && forall i :: 0 <= i < k ==> s[i] == '0'
    ensures HexValue(s) == HexValue(s[k..])
    decreases |s|
  {
    if k < |s| {
      ZeroPaddedValue(s[..|s| - 1], k);
      assert s[..|s| - 1][k..] == s[k..][..|s[k..]| - 1];
    } else {
      ZeroPrefixValue(s);
    }
  }

  /** A string of zeros is worth zero. */
  lemma {:induction false} ZeroPrefixValue(s: string)
    requires forall i :: 0 <= i < |s| ==> s[i] == '0'
    ensures HexValue(s) == 0
    decreases |s|
  {
    if s != [] {
      ZeroPrefixValue(s[..|s| - 1]);
    }
  }

  /** Each two-digit component reads back as the number it encodes. */
  lemma Hex2RoundTrip(n: nat)
    ensures HexValue(Hex2(n)) == n
  {
    var h := ToHex(n);
    var p := Hex2(n);
    HexRoundTrip(n);
    ZeroPaddedValue(p, |p| - |h|);
  }

  /** A matched text converts to `#` followed by each component's value
      in hexadecimal, zero-padded to two digits. */
  lemma RgbToHexOfMatch(d1: string, w1: string, d2: string, w2: string, d3: string)
    requires Pieces(d1, w1, d2, w2, d3)
    ensures RgbToHex(RgbText(d1, w1, d2, w2, d3))
         == "#" + Hex2(DecimalValue(d1)) + Hex2(DecimalValue(d2)) + Hex2(DecimalValue(d3))
  {
    TextShape(d1, w1, d2, w2, d3);
    MatchesPattern(d1, w1, d2, w2, d3);
  }

  /** Every text of the pattern's shape is matched, and its components are the
      decimal values of its digit runs. */
  lemma MatchesPattern(d1: string, w1: string, d2: string, w2: string, d3: string)
    requires Pieces(d1, w1, d2, w2, d3)
    ensures ParseRgb(RgbText(d1, w1, d2, w2, d3))
         == Some(Rgb(DecimalValue(d1), DecimalValue(d2), DecimalValue(d3)))
  {
    TextShape(d1, w1, d2, w2, d3);
    ComponentsOf(d1, w1, d2, w2, d3);
  }

  /** How the pattern's text splits: `rgb(` and the part the components are
      read from. */
  lemma TextShape(d1: string, w1: string, d2: string, w2: string, d3: string)
    ensures var s := RgbText(d1, w1, d2, w2, d3);
      && |s| > 4 && s[0] == 'r' && s[..4] == "rgb("
      && s[4..] == d1 + [','] + (w1 + d2 + [','] + (w2 + d3 + [')']))
  {
    var s := RgbText(d1, w1, d2, w2, d3);
    assert s == "rgb(" + (d1 + [','] + (w1 + d2 + [','] + (w2 + d3 + [')'])));
  }

  /** The three components are read one after the other. */
  lemma ComponentsOf(d1: string, w1: string, d2: string, w2: string, d3: string)
    requires Pieces(d1, w1, d2, w2, d3)
    ensures ParseComponents(d1 + [','] + (w1 + d2 + [','] + (w2 + d3 + [')'])))
         == Some(Rgb(DecimalValue(d1), DecimalValue(d2), DecimalValue(d3)))
  {
    var rest2 := w2 + d3 + [')'];
    var rest1 := w1 + d2 + [','] + rest2;
    ComponentOf(d1, ',', rest1);
    FieldOf(w1, d2, ',', rest2);
    FieldOf(w2, d3, ')', []);
    assert rest2 + [] == rest2;
  }

  /** White space, a component and its stop character are read whole. */
  lemma FieldOf(w: string, d: string, stop: char, rest: string)
    requires AllSpaces(w) && d != [] && AllDigits(d) && !IsDigit(stop)
    ensures Field(w + d + [stop] + rest, stop) == Some((DecimalValue(d), rest))
  {
    var s := w + d + [stop] + rest;
    SpaceRunOf(w, d + [stop] + rest);
    assert s == w + (d + [stop] + rest);
    assert s[|w|..] == d + [stop] + rest;
    ComponentOf(d, stop, rest);
  }

  /** A component followed by its stop character is read whole. */
  lemma ComponentOf(d: string, stop: char, rest: string)
    requires d != [] && AllDigits(d) && !IsDigit(stop)
    ensures Component(d + [stop] + rest, stop) == Some((DecimalValue(d), rest))
  {
    var s := d + [stop] + rest;
    DigitRunOf(d, [stop] + rest);
    assert s == d + ([stop] + rest);
    assert s[..|d|] == d;
    assert s[|d| + 1..] == rest;
  }

  /** The digit run of digits followed by a non-digit is those digits. */
  lemma {:induction false} DigitRunOf(d: string, rest: string)
    requires AllDigits(d) && (rest != [] ==> !IsDigit(rest[0]))
    ensures DigitRun(d + rest) == |d|
    decreases |d|
  {
    if d != [] {
      DigitRunOf(d[1..], rest);
      assert (d + rest)[1..] == d[1..] + rest;
    }
  }

  /** The space run of white space followed by a non-space is that space. */
  lemma {:induction false} SpaceRunOf(w: string, rest: string)
    requires AllSpaces(w) && (rest != [] ==> !IsSpace(rest[0]))
    ensures SpaceRun(w + rest) == |w|
    decreases |w|
  {
    if w != [] {
      SpaceRunOf(w[1..], rest);
      assert (w + rest)[1..] == w[1..] + rest;
    }
  }

  /** Whatever is matched has the pattern's shape. */
  lemma OnlyPatternMatches(s: string)
    requires ParseRgb(s).Some?
    ensures exists d1, w1, d2, w2, d3 ::
      Pieces(d1, w1, d2, w2, d3) && s == RgbText(d1, w1, d2, w2, d3)
  {
    var t := s[4..];
    assert s == s[..4] + t;
    var d1, w1, d2, w2, d3 := ComponentsParts(t);
    var rest2 := w2 + d3 + [')'];
    Reassemble(s, t, w1 + d2 + [','] + rest2, rest2, d1, w1, d2, w2, d3);
  }

  /** The pieces of a matched text after `rgb(`. */
  lemma ComponentsParts(t: string) returns (d1: string, w1: string, d2: string, w2: string, d3: string)
    requires ParseComponents(t).Some?
    ensures Pieces(d1, w1, d2, w2, d3)
    ensures t == d1 + [','] + (w1 + d2 + [','] + (w2 + d3 + [')']))
  {
    var rest1 := Component(t, ',').value.1;
    var rest2 := Field(rest1, ',').value.1;
    d1 := ComponentParts(t, ',');
    w1, d2 := FieldParts(rest1, ',');
    w2, d3 := FieldParts(rest2, ')');
    assert Field(rest2, ')').value.1 == [];
  }

  /** The pieces read one after another make up the whole text. */
  lemma Reassemble(s: string, t: string, rest1: string, rest2: string,
                   d1: string, w1: string, d2: string, w2: string, d3: string)
    requires s == "rgb(" + t && t == d1 + [','] + rest1
    requires rest1 == w1 + d2 + [','] + rest2 && rest2 == w2 + d3 + [')']
    ensures s == RgbText(d1, w1, d2, w2, d3)
  {
  }

  /** The digits a matched component was read from. */
  lemma ComponentParts(t: string, stop: char) returns (d: string)
    requires Component(t, stop).Some?
    ensures d != [] && AllDigits(d)
    ensures Component(t, stop).value.0 == DecimalValue(d)
    ensures t == d + [stop] + Component(t, stop).value.1
  {
    var n := DigitRun(t);
    d := t[..n];
    assert t == t[..n] + [t[n]] + t[n + 1..];
  }

  /** The white space and digits a matched later component was read from. */
  lemma FieldParts(t: string, stop: char) returns (w: string, d: string)
    requires Field(t, stop).Some?
    ensures AllSpaces(w) && d != [] && AllDigits(d)
    ensures Field(t, stop).value.0 == DecimalValue(d)
    ensures t == w + d + [stop] + Field(t, stop).value.1
  {
    var k := SpaceRun(t);
    w := t[..k];
    d := ComponentParts(t[k..], stop);
    assert t == t[..k] + t[k..];
  }

  /** The colour text a browser reports for a preset, `rgb(r, g, b)` with
      decimal components, converts to `#` and two lower-case hexadecimal
      digits per component that read back as the components. */
  lemma PresetColourToHex(d1: string, d2: string, d3: string)
    requires Pieces(d1, " ", d2, " ", d3)
    requires DecimalValue(d1) < 256 && DecimalValue(d2) < 256 && DecimalValue(d3) < 256
    ensures var h := RgbToHex(RgbText(d1, " ", d2, " ", d3));
      && |h| == 7 && h[0] == '#' && IsLowerHex(h[1..])
      && HexValue(h[1..3]) == DecimalValue(d1)
      && HexValue(h[3..5]) == DecimalValue(d2)
      && HexValue(h[5..7]) == DecimalValue(d3)
  {
    var r, g, b := DecimalValue(d1), DecimalValue(d2), DecimalValue(d3);
    TextShape(d1, " ", d2, " ", d3);
    MatchesPattern(d1, " ", d2, " ", d3);
    assert RgbToHex(RgbText(d1, " ", d2, " ", d3)) == "#" + Hex2(r) + Hex2(g) + Hex2(b);
    HexOfComponents(r, g, b);
  }

  /** Where each component sits in the converted text, and that each reads
      back as its number. */
  lemma HexOfComponents(r: nat, g: nat, b: nat)
    requires r < 256 && g < 256 && b < 256
    ensures var h := "#" + Hex2(r) + Hex2(g) + Hex2(b);
      && |h| == 7 && h[0] == '#' && IsLowerHex(h[1..])
      && HexValue(h[1..3]) == r && HexValue(h[3..5]) == g && HexValue(h[5..7]) == b
  {
    Layout(Hex2(r), Hex2(g), Hex2(b));
    Hex2RoundTrip(r);
    Hex2RoundTrip(g);
    Hex2RoundTrip(b);
  }

  /** `#` followed by three lower-case hexadecimal pairs. */
  lemma Layout(x: string, y: string, z: string)
    requires |x| == 2 && |y| == 2 && |z| == 2
    requires IsLowerHex(x) && IsLowerHex(y) && IsLowerHex(z)
    ensures var h := "#" + x + y + z;
      && |h| == 7 && h[0] == '#' && IsLowerHex(h[1..])
      && h[1..3] == x && h[3..5] == y && h[5..7] == z
  {
    var h := "#" + x + y + z;
    assert h[1..] == x + y + z;
  }

  /** Converting twice is converting once: every result starts with `#`. */
  lemma RgbToHexIdempotent(s: string)
    ensures RgbToHex(RgbToHex(s)) == RgbToHex(s)
  {
  }
}
