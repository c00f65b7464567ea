/** Cell appearance and the "select graphic rendition" codes that change it. */
module ScreenStyle {
  import opened Wrappers
  import opened Text

  datatype Style = Style(
    fg: Option<string>, bg: Option<string>,
    bold: bool, italic: bool, reverse: bool, dim: bool, underline: bool)

  const PLAIN := Style(None, None, false, false, false, false, false)

  const ANSI16: seq<string> := [
    "#000000", "#cd3131", "#0dbc79", "#e5e510",
    "#2472c8", "#bc3fbc", "#11a8cd", "#e5e5e5",
    "#666666", "#f14c4c", "#23d18b", "#f5f543",
    "#3b8eea", "#d670d6", "#29b8db", "#e5e5e5"]

  function Ansi(i: nat): string
    requires i < 16
  {
    ANSI16[i]
  }

  function Hex(n: nat): (s: string)
    ensures s != []
  {
    if n < 16 then [HexDigit(n)] else Hex(n / 16) + [HexDigit(n % 16)]
  }

  /** Hexadecimal, at least two digits. */
  function Hex2(n: nat): string {
    if n < 16 then ['0'] + Hex(n) else Hex(n)
  }

  function Rgb(r: nat, g: nat, b: nat): string {
    ['#'] + Hex2(r) + Hex2(g) + Hex2(b)
  }

  function Level(i: nat): nat
    requires i < 6
  {
    if i == 0 then 0 else 55 + 40 * i
  }

  function Xterm256(index: nat): string {
    if index < 16 then Ansi(index)
    else if index < 232 then
      var i := index - 16;
      Rgb(Level(i / 36), Level((i / 6) % 6), Level(i % 6))
    else
      var value := 8 + (index - 232) * 10;
      Rgb(value, value, value)
  }

  /** The palette's colour cube, addressed by its three coordinates. */
  lemma XtermCube(r: nat, g: nat, b: nat)
    requires r < 6 && g < 6 && b < 6
    ensures Xterm256(16 + 36 * r + 6 * g + b) == Rgb(Level(r), Level(g), Level(b))
  {
    hide Rgb, Ansi, Level;
    CubeDigits(r, g, b);
  }

  lemma CubeDigits(r: nat, g: nat, b: nat)
    requires r < 6 && g < 6 && b < 6
    ensures (36 * r + 6 * g + b) / 36 == r
    ensures ((36 * r + 6 * g + b) / 6) % 6 == g
    ensures (36 * r + 6 * g + b) % 6 == b
  {
    var i := 36 * r + 6 * g + b;
    assert i == 6 * (6 * r + g) + b;
    assert i / 6 == 6 * r + g;
  }

  /** The codes below thirty: reset, flags on, flags off. */
  function Flagged(pen: Style, code: nat): Style {
    if code == 0 then PLAIN
    else if code == 1 then pen.(bold := true)
    else if code == 2 then pen.(dim := true)
    else if code == 3 then pen.(italic := true)
    else if code == 4 then pen.(underline := true)
    else if code == 7 then pen.(reverse := true)
    else if code == 22 then pen.(bold := false, dim := false)
    else if code == 23 then pen.(italic := false)
    else if code == 24 then pen.(underline := false)
    else if code == 27 then pen.(reverse := false)
    else pen
  }

  /** The codes of the sixteen colours and of the terminal's own. */
  function Hued(pen: Style, code: nat): Style {
    if code == 39 then pen.(fg := None)
    else if code == 49 then pen.(bg := None)
    else if 30 <= code <= 37 then pen.(fg := Some(Ansi(code - 30)))
    else if 40 <= code <= 47 then pen.(bg := Some(Ansi(code - 40)))
    else if 90 <= code <= 97 then pen.(fg := Some(Ansi(code - 90 + 8)))
    else if 100 <= code <= 107 then pen.(bg := Some(Ansi(code - 100 + 8)))
    else pen
  }

  /** Every code but the extended colours acts alone. */
  function Attribute(pen: Style, code: nat): Style {
    if code < 30 then Flagged(pen, code) else Hued(pen, code)
  }

  function Coloured(pen: Style, code: nat, color: string): Style {
    if code == 38 then pen.(fg := Some(color)) else pen.(bg := Some(color))
  }

  /** The colour an extended-colour code selects and how many numbers it takes. */
  function Extended(numbers: seq<nat>): (r: Option<(string, nat)>)
    ensures r.Some? ==> 0 < r.value.1 <= |numbers|
  {
    if |numbers| > 4 && numbers[1] == 2 then Some((Rgb(numbers[2], numbers[3], numbers[4]), 5))
    else if |numbers| > 2 && numbers[1] == 5 then Some((Xterm256(numbers[2]), 3))
    else None
  }

  predicate IsExtended(code: nat) { code == 38 || code == 48 }

  function Rendition(pen: Style, numbers: seq<nat>): Style
    decreases |numbers|
  {
    if numbers == [] then pen
    else if IsExtended(numbers[0]) then
      match Extended(numbers)
      case Some((color, n)) => Rendition(Coloured(pen, numbers[0], color), numbers[n..])
      case None => Rendition(pen, numbers[1..])
    else Rendition(Attribute(pen, numbers[0]), numbers[1..])
  }

  /** What a code other than the extended ones leaves in the two colours. */
  function FgAfter(pen: Style, code: nat): Option<string> {
    if code == 0 || code == 39 then None
    else if 30 <= code <= 37 then Some(Ansi(code - 30))
    else if 90 <= code <= 97 then Some(Ansi(code - 82))
    else pen.fg
  }

  function BgAfter(pen: Style, code: nat): Option<string> {
    if code == 0 || code == 49 then None
    else if 40 <= code <= 47 then Some(Ansi(code - 40))
    else if 100 <= code <= 107 then Some(Ansi(code - 92))
    else pen.bg
  }

  ghost predicate ColoursAfter(pen: Style, code: nat, r: Style) {
    r.fg == FgAfter(pen, code) && r.bg == BgAfter(pen, code)
  }

  /** What it leaves in the five flags. */
  ghost predicate FlagsAfter(pen: Style, code: nat, r: Style) {
    && (r.bold <==> code == 1 || (pen.bold && code != 0 && code != 22))
    && (r.dim <==> code == 2 || (pen.dim && code != 0 && code != 22))
    && (r.italic <==> code == 3 || (pen.italic && code != 0 && code != 23))
    && (r.underline <==> code == 4 || (pen.underline && code != 0 && code != 24))
    && (r.reverse <==> code == 7 || (pen.reverse && code != 0 && code != 27))
  }

  lemma AttributeColours(pen: Style, code: nat)
    ensures ColoursAfter(pen, code, Attribute(pen, code))
  {
    hide Ansi;
    if code < 30 {
      FlaggedColours(pen, code);
    } else {
      HuedColours(pen, code);
    }
  }

  lemma FlaggedColours(pen: Style, code: nat)
    ensures Flagged(pen, code).fg == (if code == 0 then None else pen.fg)
    ensures Flagged(pen, code).bg == (if code == 0 then None else pen.bg)
  {
  }

  lemma HuedColours(pen: Style, code: nat)
    requires code >= 30
    ensures Hued(pen, code).fg == FgAfter(pen, code) && Hued(pen, code).bg == BgAfter(pen, code)
    ensures Hued(pen, code) == pen.(fg := Hued(pen, code).fg, bg := Hued(pen, code).bg)
  {
    hide Ansi;
  }

  lemma AttributeFlags(pen: Style, code: nat)
    ensures FlagsAfter(pen, code, Attribute(pen, code))
  {
    hide Hued;
    if code >= 30 {
      HuedColours(pen, code);
    }
  }

  /** One code by itself, field by field: what it sets, and that it sets nothing else. */
  lemma CodeAlone(pen: Style, code: nat)
    ensures ColoursAfter(pen, code, Rendition(pen, [code])) && FlagsAfter(pen, code, Rendition(pen, [code]))
  {
    AttributeColours(pen, code);
    AttributeFlags(pen, code);
    ExtendedAlone(pen, code);
    hide *;
    AloneIs(pen, code);
  }

  lemma ExtendedAlone(pen: Style, code: nat)
    ensures IsExtended(code) ==> ColoursAfter(pen, code, pen) && FlagsAfter(pen, code, pen)
  {
    hide Ansi;
  }

  lemma AloneIs(pen: Style, code: nat)
    ensures Rendition(pen, [code]) == if IsExtended(code) then pen else Attribute(pen, code)
  {
    hide Attribute;
    var codes: seq<nat> := [code];
    assert codes[1..] == [];
    NoCodes(if IsExtended(code) then pen else Attribute(pen, code), []);
  }

  /** Codes act one after the other, the extended ones with the numbers they take:
      three for a palette colour, five for a true colour; one without enough numbers,
      or with another mode, is passed over alone. */
  lemma CodesInTurn(pen: Style, code: nat, rest: seq<nat>)
    ensures !IsExtended(code) ==> Rendition(pen, [code] + rest) == Rendition(Rendition(pen, [code]), rest)
    ensures code == 38 && |rest| >= 2 && rest[0] == 5 ==>
      Rendition(pen, [code] + rest) == Rendition(pen.(fg := Some(Xterm256(rest[1]))), rest[2..])
    ensures code == 48 && |rest| >= 2 && rest[0] == 5 ==>
      Rendition(pen, [code] + rest) == Rendition(pen.(bg := Some(Xterm256(rest[1]))), rest[2..])
    ensures code == 38 && |rest| >= 4 && rest[0] == 2 ==>
      Rendition(pen, [code] + rest) == Rendition(pen.(fg := Some(Rgb(rest[1], rest[2], rest[3]))), rest[4..])
    ensures code == 48 && |rest| >= 4 && rest[0] == 2 ==>
      Rendition(pen, [code] + rest) == Rendition(pen.(bg := Some(Rgb(rest[1], rest[2], rest[3]))), rest[4..])
    ensures IsExtended(code) && !(|rest| >= 2 && rest[0] == 5) && !(|rest| >= 4 && rest[0] == 2) ==>
      Rendition(pen, [code] + rest) == Rendition(pen, rest)
  {
    hide Attribute, Rgb, Xterm256;
    var w := [code] + rest;
    assert w[1..] == rest;
    AloneIs(pen, code);
    assert |rest| >= 2 ==> w[3..] == rest[2..] && w[1] == rest[0] && w[2] == rest[1];
    assert |rest| >= 4 ==> w[5..] == rest[4..] && w[3] == rest[2] && w[4] == rest[3];
  }

  // ----- colours as text

  function HexDigitValue(c: char): int {
    if '0' <= c <= '9' then c as int - '0' as int else c as int - 'a' as int + 10
  }

  function HexValue(s: string): int {
    if s == [] then 0 else 16 * HexValue(s[..|s| - 1]) + HexDigitValue(s[|s| - 1])
  }

  lemma {:induction false} HexRead(n: nat)
    ensures HexValue(Hex(n)) == n
  {
    var s := Hex(n);
    if n < 16 {
      assert s[..|s| - 1] == [];
    } else {
      assert s[..|s| - 1] == Hex(n / 16);
      HexRead(n / 16);
    }
  }

  /** A component is written with two digits as long as it fits a byte, and read back. */
  lemma Hex2Read(n: nat)
    ensures HexValue(Hex2(n)) == n
    ensures n < 256 ==> |Hex2(n)| == 2
  {
    HexRead(n);
    if n < 16 {
      var s := Hex2(n);
      assert s[..1] == ['0'] && ['0'][..0] == [];
      assert HexValue(['0']) == 0;
    } else if n < 256 {
      assert Hex(n / 16) == [HexDigit(n / 16)];
    }
  }

  /** A colour of three bytes is a hash and three readable pairs of digits. */
  lemma RgbRead(r: nat, g: nat, b: nat)
    requires r < 256 && g < 256 && b < 256
    ensures var s := Rgb(r, g, b);
      && |s| == 7 && s[0] == '#'
      && HexValue(s[1..3]) == r && HexValue(s[3..5]) == g && HexValue(s[5..7]) == b
  {
    hide Hex2, HexValue;
    Hex2Read(r);
    Hex2Read(g);
    Hex2Read(b);
    var s := Rgb(r, g, b);
    assert s[1..3] == Hex2(r) && s[3..5] == Hex2(g) && s[5..7] == Hex2(b);
  }

  /** The palette: the sixteen named colours, the six levels of the cube, the greys. */
  lemma PaletteValues(n: nat)
    ensures n < 16 ==> Xterm256(n) == ANSI16[n]
    ensures 232 <= n ==> Xterm256(n) == Rgb(10 * n - 2312, 10 * n - 2312, 10 * n - 2312)
    ensures Level(0) == 0 && Level(1) == 95 && Level(2) == 135 && Level(3) == 175 && Level(4) == 215 && Level(5) == 255
  {
    hide Rgb;
  }

  /** Turning everything off one code at a time is a reset, whatever the pen was. */
  lemma OffCodesReset(pen: Style)
    ensures Rendition(pen, [22, 23, 24, 27, 39, 49]) == PLAIN == Rendition(pen, [0])
  {
    var codes: seq<nat> := [22, 23, 24, 27, 39, 49];
    var p := OneCode(pen, codes);
    p := OneCode(p, codes[1..]);
    p := OneCode(p, codes[2..]);
    p := OneCode(p, codes[3..]);
    p := OneCode(p, codes[4..]);
    p := OneCode(p, codes[5..]);
    p := OneCode(pen, [0]);
  }

  lemma OneCode(pen: Style, codes: seq<nat>) returns (p: Style)
    requires codes != [] && !IsExtended(codes[0])
    ensures p == Attribute(pen, codes[0])
    ensures Rendition(pen, codes) == Rendition(p, codes[1..])
  {
    p := Attribute(pen, codes[0]);
  }

  // ----- writing a style as numbers

  /** A colour given by its three components. */
  datatype Color = Color(r: nat, g: nat, b: nat)

  function ColorText(c: Option<Color>): Option<string> {
    if c.Some? then Some(Rgb(c.value.r, c.value.g, c.value.b)) else None
  }

  datatype Look = Look(
    fg: Option<Color>, bg: Option<Color>,
    bold: bool, italic: bool, reverse: bool, dim: bool, underline: bool)

  function StyleOf(l: Look): Style {
    Style(ColorText(l.fg), ColorText(l.bg), l.bold, l.italic, l.reverse, l.dim, l.underline)
  }

  function Flag(on: bool, code: nat): seq<nat> { if on then [code] else [] }

  function ColorCodes(code: nat, c: Option<Color>): seq<nat> {
    if c.Some? then [code, 2, c.value.r, c.value.g, c.value.b] else []
  }

  /** A reset, then what the look turns on. */
  function Codes(l: Look): (r: seq<nat>)
    ensures r != []
  {
    [0] + Flag(l.bold, 1) + Flag(l.dim, 2) + Flag(l.italic, 3) + Flag(l.underline, 4) + Flag(l.reverse, 7)
      + ColorCodes(38, l.fg) + ColorCodes(48, l.bg)
  }

  lemma NoCodes(pen: Style, numbers: seq<nat>)
    requires numbers == []
    ensures Rendition(pen, numbers) == pen
  {
  }

  lemma FlagRendered(pen: Style, on: bool, code: nat, rest: seq<nat>)
    requires !IsExtended(code)
    ensures Rendition(pen, Flag(on, code) + rest) == Rendition(if on then Attribute(pen, code) else pen, rest)
  {
    hide Attribute;
    var w := Flag(on, code) + rest;
    if on {
      assert w[1..] == rest;
    } else {
      assert w == rest;
    }
  }

  lemma ColorRendered(pen: Style, code: nat, c: Option<Color>, rest: seq<nat>)
    requires IsExtended(code)
    ensures Rendition(pen, ColorCodes(code, c) + rest)
         == Rendition(if c.Some? then Coloured(pen, code, ColorText(c).value) else pen, rest)
  {
    hide Attribute, Rgb, Coloured;
    var w := ColorCodes(code, c) + rest;
    if c.Some? {
      assert w[0] == code && w[1] == 2 && w[2] == c.value.r && w[3] == c.value.g && w[4] == c.value.b;
      assert w[5..] == rest;
    } else {
      assert w == rest;
    }
  }

  /** Writing a look as codes and reading them back gives it exactly, whatever the pen was. */
  lemma CodesRendered(pen: Style, l: Look)
    ensures Rendition(pen, Codes(l)) == StyleOf(l)
  {
    var tail := ColorCodes(38, l.fg) + (ColorCodes(48, l.bg) + []);
    var p1 := CodesUpTo(pen, l, tail);
    var p2 := if l.fg.Some? then Coloured(p1, 38, ColorText(l.fg).value) else p1;
    var p3 := if l.bg.Some? then Coloured(p2, 48, ColorText(l.bg).value) else p2;
    assert p3 == StyleOf(l);
    hide Rendition, ColorCodes, Coloured, ColorText;
    ColorRendered(p1, 38, l.fg, ColorCodes(48, l.bg) + []);
    ColorRendered(p2, 48, l.bg, []);
    NoCodes(p3, []);
  }

  /** The flags, with both colours still to come. */
  lemma CodesUpTo(pen: Style, l: Look, tail: seq<nat>) returns (p: Style)
    requires tail == ColorCodes(38, l.fg) + (ColorCodes(48, l.bg) + [])
    ensures p == Style(None, None, l.bold, l.italic, l.reverse, l.dim, l.underline)
    ensures Rendition(pen, Codes(l)) == Rendition(p, tail)
  {
    var q := PLAIN;
    var q1 := q.(bold := l.bold);
    var q2 := q1.(dim := l.dim);
    var q3 := q2.(italic := l.italic);
    var q4 := q3.(underline := l.underline);
    p := q4.(reverse := l.reverse);
    var t5 := Flag(l.reverse, 7) + tail;
    var t4 := Flag(l.underline, 4) + t5;
    var t3 := Flag(l.italic, 3) + t4;
    var t2 := Flag(l.dim, 2) + t3;
    var t1 := Flag(l.bold, 1) + t2;
    CodesGrouped(l, tail);
    var f := [0] + t1;
    assert Rendition(pen, f) == Rendition(q, t1) by {
      assert f[1..] == t1;
    }
    hide Rendition, Flag, ColorCodes;
    FlagRendered(q, l.bold, 1, t2);
    FlagRendered(q1, l.dim, 2, t3);
    FlagRendered(q2, l.italic, 3, t4);
    FlagRendered(q3, l.underline, 4, t5);
    FlagRendered(q4, l.reverse, 7, tail);
  }

  lemma CodesGrouped(l: Look, tail: seq<nat>)
    requires tail == ColorCodes(38, l.fg) + (ColorCodes(48, l.bg) + [])
    ensures Codes(l)
         == [0] + (Flag(l.bold, 1) + (Flag(l.dim, 2) + (Flag(l.italic, 3)
              + (Flag(l.underline, 4) + (Flag(l.reverse, 7) + tail)))))
  {
    Regroup([0], Flag(l.bold, 1), Flag(l.dim, 2), Flag(l.italic, 3), Flag(l.underline, 4), Flag(l.reverse, 7),
      ColorCodes(38, l.fg), ColorCodes(48, l.bg));
  }

  lemma Regroup(a: seq<nat>, b: seq<nat>, c: seq<nat>, d: seq<nat>, e: seq<nat>, f: seq<nat>, g: seq<nat>, h: seq<nat>)
    ensures a + b + c + d + e + f + g + h == a + (b + (c + (d + (e + (f + (g + (h + [])))))))
  {
  }
}
