/** What the front of a stream is taken for, shape by shape, and UTF-8 text as an
    encoder writes it (section 3 of RFC 3629). */
module TerminalTokens {
  import opened TerminalInput
  import opened ScreenPatches

  /** Parameter bytes: digits, semicolons, question marks. */
  predicate AllParams(s: string) { forall i :: 0 <= i < |s| ==> '0' <= s[i] <= '9' || s[i] == ';' || s[i] == '?' }

  /** A string body: neither BEL nor ESC in it. */
  predicate NoEnd(s: string) { BEL !in s && ESC !in s }

  lemma ParamsEndAt(d: string, params: string, n: nat)
    requires n == |params| + 2 <= |d| && d[2..n] == params && AllParams(params)
    requires n < |d| ==> !IsParam(d[n])
    ensures ParamEnd(d, 2) == n
  {
    forall k | 2 <= k < n ensures IsParam(d[k]) { assert d[k] == params[k - 2]; }
  }

  lemma StringEndAt(d: string, body: string, n: nat)
    requires n == |body| + 2 <= |d| && d[2..n] == body && NoEnd(body)
    requires n < |d| ==> EndsString(d[n])
    ensures StringEnd(d, 2) == n
  {
    forall k | 2 <= k < n ensures !EndsString(d[k]) { assert d[k] == body[k - 2]; }
  }

  /** A control sequence is its parameters and its final byte. */
  lemma ControlToken(params: string, final: char, rest: string)
    requires AllParams(params) && '@' <= final <= '~'
    ensures Next([ESC, '['] + params + [final] + rest) == Take(|params| + 3, Control(params, final))
  {
    var d, n := [ESC, '['] + params + [final] + rest, |params| + 2;
    assert d[2..n] == params && d[n] == final;
    ParamsEndAt(d, params, n);
  }

  /** A control string is skipped whole, ended by a BEL or by ESC and a backslash. */
  lemma StringToken(body: string, rest: string)
    requires NoEnd(body)
    ensures Next([ESC, ']'] + body + [BEL] + rest) == Take(|body| + 3, Skip)
    ensures Next([ESC, ']'] + body + [ESC, '\\'] + rest) == Take(|body| + 4, Skip)
  {
    var d, e, n := [ESC, ']'] + body + [BEL] + rest, [ESC, ']'] + body + [ESC, '\\'] + rest, |body| + 2;
    assert d[2..n] == body && d[n] == BEL && d[0] == ESC && d[1] == ']';
    assert e[2..n] == body && e[n] == ESC && e[n + 1] == '\\' && e[0] == ESC && e[1] == ']';
    StringEndAt(d, body, n);
    StringEndAt(e, body, n);
  }

  /** The shapes of an escape sequence that is still to come, a final line feed aside. */
  ghost predicate OpenSequence(d: string) {
    || d == [ESC] || d == [ESC, '\n']
    || exists params :: AllParams(params) && (d == [ESC, '['] + params || d == [ESC, '['] + params + ['\n'])
  }

  ghost predicate OpenString(d: string) {
    exists body :: NoEnd(body) && d == [ESC, ']'] + body
  }

  /** An escape waits exactly in these shapes. */
  lemma EscapeWaits(d: string)
    requires d != [] && d[0] == ESC
    ensures Next(d).Wait? <==> OpenSequence(d) || OpenString(d)
  {
    hide Next, OpenSequence, OpenString;
    if Next(d).Wait? {
      WaitsOpen(d);
    }
    if OpenSequence(d) {
      SequenceWaits(d);
    }
    if OpenString(d) {
      StringWaits(d);
    }
  }

  lemma SequenceWaits(d: string)
    requires OpenSequence(d)
    ensures Next(d).Wait?
  {
    if |d| > 1 && d != [ESC, '\n'] {
      var params :| AllParams(params) && (d == [ESC, '['] + params || d == [ESC, '['] + params + ['\n']);
      assert d[2..|params| + 2] == params;
      ParamsEndAt(d, params, |params| + 2);
    }
  }

  lemma StringWaits(d: string)
    requires OpenString(d)
    ensures Next(d).Wait?
  {
    var body :| NoEnd(body) && d == [ESC, ']'] + body;
    assert d[2..|body| + 2] == body;
    StringEndAt(d, body, |body| + 2);
  }

  lemma WaitsOpen(d: string)
    requires d != [] && d[0] == ESC && Next(d).Wait?
    ensures OpenSequence(d) || OpenString(d)
  {
    if AtEnd(d, 1) {
      assert d == [ESC] || d == [ESC, '\n'];
    } else if d[1] == '[' && AtEnd(d, ParamEnd(d, 2)) {
      var params := d[2..ParamEnd(d, 2)];
      assert AllParams(params);
      assert d == [ESC, '['] + params || d == [ESC, '['] + params + ['\n'];
    } else {
      var body := d[2..];
      forall k | 0 <= k < |body| ensures !EndsString(body[k]) { assert body[k] == d[k + 2]; }
      assert d == [ESC, ']'] + body;
    }
  }

  /** Parameters ended by a byte that ends no control sequence. */
  ghost predicate BadSequence(d: string, params: string, rest: string) {
    && d == [ESC, '['] + params + rest && AllParams(params)
    && rest != [] && !IsParam(rest[0]) && !('@' <= rest[0] <= '~')
  }

  /** A string ended by an ESC that no backslash follows. */
  ghost predicate BadString(d: string, body: string, rest: string) {
    d == [ESC, ']'] + body + [ESC] + rest && NoEnd(body) && (rest == [] || rest[0] != '\\')
  }

  /** Any other escape is two bytes, whatever follows. */
  lemma OtherEscape(d: string)
    requires |d| > 1 && d[0] == ESC && Next(d).Take?
    ensures d[1] != '[' && d[1] != ']' ==> Next(d) == Take(2, Skip)
    ensures forall params, rest :: BadSequence(d, params, rest) ==> Next(d) == Take(2, Skip)
    ensures forall body, rest :: BadString(d, body, rest) ==> Next(d) == Take(2, Skip)
  {
    forall params, rest | BadSequence(d, params, rest) ensures Next(d) == Take(2, Skip) {
      var n := |params| + 2;
      assert d[2..n] == params && d[n] == rest[0];
      ParamsEndAt(d, params, n);
    }
    forall body, rest | BadString(d, body, rest) ensures Next(d) == Take(2, Skip) {
      var n := |body| + 2;
      assert d[2..n] == body && d[n] == ESC;
      assert rest != [] ==> d[n + 1] == rest[0];
      StringEndAt(d, body, n);
    }
  }

  /** Single control bytes. */
  lemma ControlByte(c: char, rest: string)
    requires c < ' ' && c != ESC
    ensures Next([c] + rest) == Take(1, if c == '\n' then NewLine else if c == '\r' then Return else Skip)
  {
  }

  /** Any other byte opens a group whose length its first byte tells: two from 0xC0, three
      from 0xE0, four from 0xF0 on, and otherwise one, stray continuation bytes included;
      whatever the others are, a whole group is painted and a part of one waits. */
  lemma GroupBytes(group: string, rest: string)
    requires group != [] && group[0] >= ' '
    requires |group| == if group[0] as int >= 0xF0 then 4 else if group[0] as int >= 0xE0 then 3
                        else if group[0] as int >= 0xC0 then 2 else 1
    ensures Next(group + rest) == Take(|group|, Paint(group))
    ensures forall k :: 0 < k < |group| ==> Next(group[..k]) == Wait
  {
    assert (group + rest)[0] == group[0] && (group + rest)[..|group|] == group;
    assert forall k :: 0 < k < |group| ==> group[..k][0] == group[0];
  }

  // ----- encoded text

  /** A code point as UTF-8 bytes. */
  function Utf8(cp: nat): string
    requires cp < 0x11_0000
  {
    if cp < 0x80 then [cp as char]
    else if cp < 0x800 then [(0xC0 + cp / 0x40) as char, (0x80 + cp % 0x40) as char]
    else if cp < 0x1_0000 then
      [(0xE0 + cp / 0x1000) as char, (0x80 + cp / 0x40 % 0x40) as char, (0x80 + cp % 0x40) as char]
    else
      [(0xF0 + cp / 0x4_0000) as char, (0x80 + cp / 0x1000 % 0x40) as char,
       (0x80 + cp / 0x40 % 0x40) as char, (0x80 + cp % 0x40) as char]
  }

  /** An encoded character from the space on is one glyph, wherever it stands; cut short
      it waits for its other bytes. */
  lemma EncodedGlyph(cp: nat, rest: string, k: nat)
    requires 0x20 <= cp < 0x11_0000
    ensures IsGlyph(Utf8(cp)) && Next(Utf8(cp) + rest) == Take(|Utf8(cp)|, Paint(Utf8(cp)))
    ensures 0 < k < |Utf8(cp)| ==> Next(Utf8(cp)[..k]) == Wait
  {
    var g := Utf8(cp);
    assert (g + rest)[..|g|] == g && (g + rest)[0] == g[0];
    assert 0 < k < |g| ==> g[..k][0] == g[0];
  }
}
