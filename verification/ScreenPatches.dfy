/** A frame sent as "jump here, write that" is read back exactly. */
module ScreenPatches {
  import opened Text
  import opened TerminalInput
  import opened ScreenStyle
  import opened Screen

  // ----- parameters

  /** Numbers as a parameter string. */
  function Params(ns: seq<nat>): string
    requires ns != []
  {
    if |ns| == 1 then Decimal(ns[0]) else Decimal(ns[0]) + (";" + Params(ns[1..]))
  }

  lemma {:induction false} FieldsFirst(a: string, b: string)
    requires ';' !in a
    ensures Fields(a + (";" + b)) == [a] + Fields(b)
    ensures Fields(a) == [a]
  {
    var w := a + (";" + b);
    if a == [] {
      assert w[1..] == b;
    } else {
      assert w[1..] == a[1..] + (";" + b);
      FieldsFirst(a[1..], b);
      assert [a[0]] + a[1..] == a;
    }
  }

  lemma DecimalField(n: nat, more: seq<string>)
    ensures ';' !in Decimal(n) && forall i :: 0 <= i < |Decimal(n)| ==> IsParam(Decimal(n)[i])
    ensures Values([Decimal(n)] + more) == [n] + Values(more)
  {
    DecimalValue(n);
    var s := Decimal(n);
    assert forall i :: 0 <= i < |s| ==> IsDigit(s[i]);
    var fields: seq<string> := [s] + more;
    assert fields[1..] == more;
  }

  lemma NoFields(fields: seq<string>)
    requires fields == []
    ensures Values(fields) == []
  {
  }

  /** Numbers written as parameters are read back in order. */
  lemma {:induction false} ParamsRead(ns: seq<nat>)
    requires ns != []
    ensures Numbers(Params(ns)) == ns
    ensures forall i :: 0 <= i < |Params(ns)| ==> IsParam(Params(ns)[i])
  {
    hide Decimal, Values, Fields;
    var d := Decimal(ns[0]);
    if |ns| == 1 {
      FieldsFirst(d, []);
      DecimalField(ns[0], []);
      assert [d] + [] == [d];
      NoFields([]);
    } else {
      ParamsRead(ns[1..]);
      FieldsFirst(d, Params(ns[1..]));
      DecimalField(ns[0], Fields(Params(ns[1..])));
    }
  }

  /** Between semicolons a number counts if it is digits alone; an empty field, and one
      with a question mark, is passed over. */
  lemma FieldByField(a: string, b: string)
    requires ';' !in a
    ensures a != [] && AllDigits(a) ==> Numbers(a + (";" + b)) == [DigitsValue(a)] + Numbers(b) && Numbers(a) == [DigitsValue(a)]
    ensures !(a != [] && AllDigits(a)) ==> Numbers(a + (";" + b)) == Numbers(b) && Numbers(a) == []
  {
    hide DigitsValue;
    FieldsFirst(a, b);
    var one: seq<string> := [a];
    var more := one + Fields(b);
    assert one[1..] == [] && more[1..] == Fields(b);
    NoFields([]);
  }

  // ----- patches

  /** Write `glyphs` in one look, starting at row `y` and column `x`. */
  datatype Patch = Patch(y: nat, x: nat, look: Look, glyphs: seq<string>)

  /** One UTF-8 group: a first byte fixing the length, then bytes of code 128 and up. */
  predicate IsGlyph(g: string) {
    g != [] && g[0] >= ' ' && |g| == GroupLength(g[0]) && forall i :: 0 < i < |g| ==> g[i] as int >= 0x80
  }

  predicate Fits(p: Patch, rows: nat, cols: nat) {
    p.y < rows && p.x < cols && p.x + |p.glyphs| <= cols && forall i :: 0 <= i < |p.glyphs| ==> IsGlyph(p.glyphs[i])
  }

  function Sequence(params: string, final: char): string {
    [ESC, '['] + params + [final]
  }

  function Bytes(p: Patch): string {
    Sequence(Params([p.y + 1, p.x + 1]), 'H') + (Sequence(Params(Codes(p.look)), 'm') + Joined(p.glyphs))
  }

  function Stream(ps: seq<Patch>): string {
    if ps == [] then [] else Bytes(ps[0]) + Stream(ps[1..])
  }

  // ----- what the emulator makes of them

  lemma SequenceToken(params: string, final: char, rest: string)
    requires IsFinal(final) && forall i :: 0 <= i < |params| ==> IsParam(params[i])
    ensures Ops(Sequence(params, final) + rest) == [Control(params, final)] + Ops(rest)
    ensures Rest(Sequence(params, final) + rest) == Rest(rest)
  {
    var d := Sequence(params, final) + rest;
    var n := |params| + 2;
    assert d[0] == ESC && d[1] == '[' && d[n] == final;
    forall k | 2 <= k < n ensures IsParam(d[k]) { assert d[k] == params[k - 2]; }
    assert ParamEnd(d, 2) == n;
    assert d[2..n] == params;
    assert Next(d) == Take(n + 1, Control(params, final));
    assert d[n + 1..] == rest;
    hide *;
    Step(d);
    ShownIs(Control(params, final));
  }

  function Paints(glyphs: seq<string>): seq<Op> {
    if glyphs == [] then [] else [Paint(glyphs[0])] + Paints(glyphs[1..])
  }

  lemma {:induction false} GlyphTokens(glyphs: seq<string>, rest: string)
    requires forall i :: 0 <= i < |glyphs| ==> IsGlyph(glyphs[i])
    ensures Ops(Joined(glyphs) + rest) == Paints(glyphs) + Ops(rest)
    ensures Rest(Joined(glyphs) + rest) == Rest(rest)
  {
    hide Ops, Rest, Next, Shown, IsGlyph;
    if glyphs == [] {
      assert [] + rest == rest;
    } else {
      var g, more := glyphs[0], Joined(glyphs[1..]) + rest;
      assert Joined(glyphs) + rest == g + more;
      GlyphFirst(g, more);
      GlyphTokens(glyphs[1..], rest);
      assert [Paint(g)] + (Paints(glyphs[1..]) + Ops(rest)) == Paints(glyphs) + Ops(rest);
    }
  }

  lemma GlyphFirst(g: string, more: string)
    requires IsGlyph(g)
    ensures Ops(g + more) == [Paint(g)] + Ops(more) && Rest(g + more) == Rest(more)
  {
    hide *;
    GlyphToken(g, more);
    Step(g + more);
    ShownIs(Paint(g));
  }

  lemma GlyphToken(g: string, more: string)
    requires IsGlyph(g)
    ensures g + more != [] && Next(g + more) == Take(|g|, Paint(g)) && (g + more)[|g|..] == more
  {
    assert (g + more)[..|g|] == g && (g + more)[0] == g[0];
  }

  function PatchOps(p: Patch): seq<Op> {
    [Control(Params([p.y + 1, p.x + 1]), 'H')] + ([Control(Params(Codes(p.look)), 'm')] + Paints(p.glyphs))
  }

  lemma PatchTokens(p: Patch, rest: string)
    requires forall i :: 0 <= i < |p.glyphs| ==> IsGlyph(p.glyphs[i])
    ensures Ops(Bytes(p) + rest) == PatchOps(p) + Ops(rest)
    ensures Rest(Bytes(p) + rest) == Rest(rest)
  {
    hide Ops, Rest, Params, Codes, Joined, Paints, Sequence, IsGlyph, Numbers, IsParam;
    var a, b, c := Params([p.y + 1, p.x + 1]), Params(Codes(p.look)), Joined(p.glyphs);
    ParamsRead([p.y + 1, p.x + 1]);
    ParamsRead(Codes(p.look));
    SequenceToken(a, 'H', Sequence(b, 'm') + c + rest);
    SequenceToken(b, 'm', c + rest);
    GlyphTokens(p.glyphs, rest);
    var sa, sb := Sequence(a, 'H'), Sequence(b, 'm');
    assert Bytes(p) + rest == sa + (sb + c + rest);
    assert sb + c + rest == sb + (c + rest);
  }

  function PutRun<T>(row: seq<T>, x: nat, vs: seq<T>): (r: seq<T>)
    requires x + |vs| <= |row|
    ensures |r| == |row|
    ensures forall c :: 0 <= c < |row| ==> r[c] == if x <= c < x + |vs| then vs[c - x] else row[c]
  {
    row[..x] + vs + row[x + |vs|..]
  }

  function Copies<T>(v: T, n: nat): seq<T> { seq(n, _ => v) }

  ghost function Patched<T>(g: seq<seq<T>>, y: nat, x: nat, vs: seq<T>): (r: seq<seq<T>>)
    requires y < |g| && x + |vs| <= |g[y]|
    ensures |r| == |g| && forall k :: 0 <= k < |g| ==> |r[k]| == |g[k]|
  {
    g[y := PutRun(g[y], x, vs)]
  }

  lemma {:induction false} RunPainted(f: Frame, glyphs: seq<string>)
    requires OnGrid(f) && f.x + |glyphs| <= f.cols
    ensures var r := Perform(f, Paints(glyphs));
            r.grid == Patched(f.grid, f.y, f.x, glyphs)
            && r.styles == Patched(f.styles, f.y, f.x, Copies(f.pen, |glyphs|))
    decreases |glyphs|
  {
    if glyphs == [] {
      assert PutRun(f.grid[f.y], f.x, []) == f.grid[f.y];
      assert PutRun(f.styles[f.y], f.x, []) == f.styles[f.y];
    } else {
      var op, ops := Paint(glyphs[0]), Paints(glyphs[1..]);
      assert ([op] + ops)[1..] == ops;
      var n := Painted(f, glyphs[0]);
      assert Perform(f, Paints(glyphs)) == Perform(n, ops);
      if |glyphs| == 1 {
        assert ops == [] && n.grid[f.y] == PutRun(f.grid[f.y], f.x, glyphs);
        assert n.styles[f.y] == PutRun(f.styles[f.y], f.x, Copies(f.pen, 1));
      } else {
        hide Perform, Paints;
        RunPainted(n, glyphs[1..]);
        PutRunNext(f.grid[f.y], f.x, glyphs);
        PutRunNext(f.styles[f.y], f.x, Copies(f.pen, |glyphs|));
        assert Copies(f.pen, |glyphs|)[1..] == Copies(f.pen, |glyphs| - 1);
      }
    }
  }

  lemma PutRunNext<T>(row: seq<T>, x: nat, vs: seq<T>)
    requires vs != [] && x + |vs| <= |row|
    ensures PutRun(row[x := vs[0]], x + 1, vs[1..]) == PutRun(row, x, vs)
  {
  }

  lemma PatchPainted(f: Frame, p: Patch)
    requires OnGrid(f) && Fits(p, f.rows, f.cols)
    ensures var r := Perform(f, PatchOps(p));
            r.grid == Patched(f.grid, p.y, p.x, p.glyphs)
            && r.styles == Patched(f.styles, p.y, p.x, Copies(StyleOf(p.look), |p.glyphs|))
  {
    var jump, look := Control(Params([p.y + 1, p.x + 1]), 'H'), Control(Params(Codes(p.look)), 'm');
    var ops := Paints(p.glyphs);
    var f1 := f.(y := p.y, x := p.x);
    var f2 := f1.(pen := StyleOf(p.look));
    assert Apply(f, jump) == f1 && Apply(f1, look) == f2 by {
      JumpLands(f, p);
      LookApplied(f1, p);
    }
    assert PatchOps(p)[0] == jump && PatchOps(p)[1..] == [look] + ops && ([look] + ops)[1..] == ops;
    assert Perform(f, PatchOps(p)) == Perform(f2, ops);
    hide Perform, Apply, PatchOps;
    RunPainted(f2, p.glyphs);
  }

  lemma JumpLands(f: Frame, p: Patch)
    requires OnGrid(f) && Fits(p, f.rows, f.cols)
    ensures Apply(f, Control(Params([p.y + 1, p.x + 1]), 'H')) == f.(y := p.y, x := p.x)
  {
    assert p.y < f.rows && p.x < f.cols;
    hide Params, Numbers, Fits, OnGrid;
    ParamsRead([p.y + 1, p.x + 1]);
  }

  lemma LookApplied(f: Frame, p: Patch)
    requires OnGrid(f)
    ensures Apply(f, Control(Params(Codes(p.look)), 'm')) == f.(pen := StyleOf(p.look))
  {
    hide Params, Numbers, Rendition, Codes, StyleOf, OnGrid;
    ParamsRead(Codes(p.look));
    CodesRendered(f.pen, p.look);
  }

  ghost predicate AllFit(ps: seq<Patch>, rows: nat, cols: nat) {
    forall i :: 0 <= i < |ps| ==> Fits(ps[i], rows, cols)
  }

  ghost function Repainted(g: seq<seq<string>>, ps: seq<Patch>, rows: nat, cols: nat): (r: seq<seq<string>>)
    requires Sized(g, rows, cols) && AllFit(ps, rows, cols)
    ensures Sized(r, rows, cols)
    decreases |ps|
  {
    if ps == [] then g
    else Repainted(Patched(g, ps[0].y, ps[0].x, ps[0].glyphs), ps[1..], rows, cols)
  }

  ghost function Restyled(g: seq<seq<Style>>, ps: seq<Patch>, rows: nat, cols: nat): (r: seq<seq<Style>>)
    requires Sized(g, rows, cols) && AllFit(ps, rows, cols)
    ensures Sized(r, rows, cols)
    decreases |ps|
  {
    if ps == [] then g
    else
      var p := ps[0];
      Restyled(Patched(g, p.y, p.x, Copies(StyleOf(p.look), |p.glyphs|)), ps[1..], rows, cols)
  }

  ghost function StreamOps(ps: seq<Patch>): seq<Op> {
    if ps == [] then [] else PatchOps(ps[0]) + StreamOps(ps[1..])
  }

  lemma {:induction false} StreamTokens(ps: seq<Patch>, rows: nat, cols: nat)
    requires AllFit(ps, rows, cols)
    ensures Ops(Stream(ps)) == StreamOps(ps) && Rest(Stream(ps)) == []
  {
    hide Ops, Rest, PatchOps, Bytes;
    if ps == [] {
      Stall([]);
    } else {
      assert Fits(ps[0], rows, cols);
      PatchTokens(ps[0], Stream(ps[1..]));
      StreamTokens(ps[1..], rows, cols);
    }
  }

  lemma {:induction false} StreamPerformed(f: Frame, ps: seq<Patch>)
    requires OnGrid(f) && AllFit(ps, f.rows, f.cols)
    ensures var r := Perform(f, StreamOps(ps));
            r.grid == Repainted(f.grid, ps, f.rows, f.cols) && r.styles == Restyled(f.styles, ps, f.rows, f.cols)
    decreases |ps|
  {
    if ps == [] {
      assert StreamOps(ps) == [];
    } else {
      var p := ps[0];
      hide PatchOps, Patched, Perform;
      assert Fits(p, f.rows, f.cols);
      PerformConcat(f, PatchOps(p), StreamOps(ps[1..]));
      PatchPainted(f, p);
      StreamPerformed(Perform(f, PatchOps(p)), ps[1..]);
    }
  }

  /** Reading a stream of patches writes exactly their cells, in order, and
      leaves nothing pending. */
  lemma StreamPaints(f: Frame, ps: seq<Patch>)
    requires OnGrid(f) && AllFit(ps, f.rows, f.cols)
    ensures var r := Fed(State(f, []), Stream(ps));
            r.pending == []
            && r.frame.grid == Repainted(f.grid, ps, f.rows, f.cols)
            && r.frame.styles == Restyled(f.styles, ps, f.rows, f.cols)
  {
    hide Stream, Ops, Rest, Perform;
    assert [] + Stream(ps) == Stream(ps);
    StreamTokens(ps, f.rows, f.cols);
    StreamPerformed(f, ps);
  }

  // ----- any pieces

  /** No control string opens anywhere. */
  predicate NoString(d: string) {
    forall i :: 0 <= i < |d| - 1 ==> d[i] == ESC ==> d[i + 1] == '['
  }

  lemma {:induction false} NoStringUntorn(d: string)
    requires NoString(d)
    ensures !Torn(d)
    decreases |d|
  {
    hide Next, Torn;
    if d == [] || Next(d).Wait? {
      Stall(d);
    } else {
      Step(d);
      NoStringUntorn(d[Next(d).size..]);
    }
  }

  lemma NoStringConcat(a: string, b: string)
    requires NoString(a) && NoString(b) && (a != [] ==> a[|a| - 1] != ESC)
    ensures NoString(a + b)
  {
    var w := a + b;
    forall i | 0 <= i < |w| - 1 ensures w[i] == ESC ==> w[i + 1] == '[' {
      assert i + 1 < |a| ==> w[i] == a[i] && w[i + 1] == a[i + 1];
      assert i + 1 == |a| ==> w[i] == a[|a| - 1];
      assert i >= |a| ==> w[i] == b[i - |a|] && w[i + 1] == b[i - |a| + 1];
    }
  }

  predicate Settled(d: string) {
    NoString(d) && (d != [] ==> d[|d| - 1] != ESC)
  }

  lemma SettledConcat(a: string, b: string)
    requires Settled(a) && Settled(b)
    ensures Settled(a + b)
  {
    NoStringConcat(a, b);
    assert b == [] ==> a + b == a;
  }

  lemma {:induction false} GlyphsSettled(glyphs: seq<string>)
    requires forall i :: 0 <= i < |glyphs| ==> IsGlyph(glyphs[i])
    ensures Settled(Joined(glyphs))
  {
    if glyphs != [] {
      var g := glyphs[0];
      assert IsGlyph(g) && ESC !in g;
      GlyphsSettled(glyphs[1..]);
      SettledConcat(g, Joined(glyphs[1..]));
    }
  }

  lemma SequenceSettled(ns: seq<nat>, final: char)
    requires ns != [] && IsFinal(final)
    ensures Settled(Sequence(Params(ns), final))
  {
    hide Params, Numbers;
    ParamsRead(ns);
    var s, w := Params(ns), Sequence(Params(ns), final);
    forall i | 1 <= i < |w| ensures w[i] != ESC {
      assert 2 <= i < |s| + 2 ==> w[i] == s[i - 2] && IsParam(s[i - 2]);
    }
  }

  lemma {:induction false} StreamSettled(ps: seq<Patch>, rows: nat, cols: nat)
    requires AllFit(ps, rows, cols)
    ensures Settled(Stream(ps))
  {
    if ps != [] {
      var p := ps[0];
      assert Fits(p, rows, cols);
      hide Settled, Params, Sequence, Codes, IsGlyph;
      SequenceSettled([p.y + 1, p.x + 1], 'H');
      SequenceSettled(Codes(p.look), 'm');
      GlyphsSettled(p.glyphs);
      var a, b, c := Sequence(Params([p.y + 1, p.x + 1]), 'H'), Sequence(Params(Codes(p.look)), 'm'), Joined(p.glyphs);
      SettledConcat(b, c);
      SettledConcat(a, b + c);
      StreamSettled(ps[1..], rows, cols);
      SettledConcat(Bytes(p), Stream(ps[1..]));
    }
  }

  lemma {:induction false} JoinedTake(chunks: seq<string>, k: nat)
    requires k <= |chunks|
    ensures |Joined(chunks[..k])| <= |Joined(chunks)|
    ensures Joined(chunks[..k]) == Joined(chunks)[..|Joined(chunks[..k])|]
  {
    if k > 0 {
      assert chunks[..k][1..] == chunks[1..][..k - 1];
      JoinedTake(chunks[1..], k - 1);
    }
  }

  lemma StreamNoneTorn(ps: seq<Patch>, rows: nat, cols: nat, chunks: seq<string>)
    requires AllFit(ps, rows, cols) && Joined(chunks) == Stream(ps)
    ensures NoneTorn([], chunks)
  {
    hide Stream, Joined, Torn;
    StreamSettled(ps, rows, cols);
    forall k | 0 < k < |chunks| ensures !Torn([] + Joined(chunks[..k])) {
      JoinedTake(chunks, k);
      var d := Joined(chunks[..k]);
      forall i | 0 <= i < |d| - 1 && d[i] == ESC ensures d[i + 1] == '[' {
        assert d[i] == Stream(ps)[i] && d[i + 1] == Stream(ps)[i + 1];
      }
      assert [] + d == d;
      NoStringUntorn(d);
    }
  }

  // ----- repainting a frame

  predicate Covers(p: Patch, r: nat, c: nat) {
    p.y == r && p.x <= c < p.x + |p.glyphs|
  }

  ghost predicate Uncovered(ps: seq<Patch>, r: nat, c: nat) {
    forall i :: 0 <= i < |ps| ==> !Covers(ps[i], r, c)
  }

  /** The patch writes what the wanted frame shows there. */
  ghost predicate Carries(p: Patch, want: Frame) {
    OnGrid(want) && Fits(p, want.rows, want.cols)
    && forall i :: 0 <= i < |p.glyphs| ==>
         want.grid[p.y][p.x + i] == p.glyphs[i] && want.styles[p.y][p.x + i] == StyleOf(p.look)
  }

  /** Everything not yet as wanted lies under a patch still to come. */
  ghost predicate Pending(grid: seq<seq<string>>, styles: seq<seq<Style>>, ps: seq<Patch>, want: Frame) {
    OnGrid(want) && Sized(grid, want.rows, want.cols) && Sized(styles, want.rows, want.cols)
    && forall r, c :: 0 <= r < want.rows && 0 <= c < want.cols && Uncovered(ps, r, c) ==>
         grid[r][c] == want.grid[r][c] && styles[r][c] == want.styles[r][c]
  }

  lemma PatchSettles(grid: seq<seq<string>>, styles: seq<seq<Style>>, ps: seq<Patch>, want: Frame)
    requires ps != [] && Carries(ps[0], want) && Pending(grid, styles, ps, want)
    ensures var p := ps[0];
            Pending(Patched(grid, p.y, p.x, p.glyphs),
                    Patched(styles, p.y, p.x, Copies(StyleOf(p.look), |p.glyphs|)), ps[1..], want)
  {
    hide StyleOf, IsGlyph;
    var p := ps[0];
    forall r, c | 0 <= r < want.rows && 0 <= c < want.cols && Uncovered(ps[1..], r, c)
      ensures Patched(grid, p.y, p.x, p.glyphs)[r][c] == want.grid[r][c]
      ensures Patched(styles, p.y, p.x, Copies(StyleOf(p.look), |p.glyphs|))[r][c] == want.styles[r][c]
    {
      if Covers(p, r, c) {
        var i := c - p.x;
        assert want.grid[p.y][p.x + i] == p.glyphs[i];
      } else {
        assert Uncovered(ps, r, c) by {
          forall i | 0 <= i < |ps| ensures !Covers(ps[i], r, c) {
            assert i > 0 ==> ps[i] == ps[1..][i - 1];
          }
        }
      }
    }
  }

  lemma {:induction false} RepaintReaches(grid: seq<seq<string>>, styles: seq<seq<Style>>, ps: seq<Patch>, want: Frame)
    requires Pending(grid, styles, ps, want)
    requires forall i :: 0 <= i < |ps| ==> Carries(ps[i], want)
    requires AllFit(ps, want.rows, want.cols)
    ensures Repainted(grid, ps, want.rows, want.cols) == want.grid
    ensures Restyled(styles, ps, want.rows, want.cols) == want.styles
    decreases |ps|
  {
    if ps == [] {
      forall r | 0 <= r < want.rows ensures grid[r] == want.grid[r] && styles[r] == want.styles[r] {
        forall c | 0 <= c < want.cols ensures grid[r][c] == want.grid[r][c] && styles[r][c] == want.styles[r][c] {
          assert Uncovered(ps, r, c);
        }
      }
    } else {
      var p := ps[0];
      assert Carries(p, want);
      PatchSettles(grid, styles, ps, want);
      assert Sized(grid, want.rows, want.cols) && Sized(styles, want.rows, want.cols);
      hide Pending, Patched, Carries, IsGlyph, StyleOf;
      RepaintReaches(Patched(grid, p.y, p.x, p.glyphs),
        Patched(styles, p.y, p.x, Copies(StyleOf(p.look), |p.glyphs|)), ps[1..], want);
    }
  }

  /** Patches that carry the wanted frame and cover every cell in which the screen
      differs from it turn the screen into that frame, however the reads cut their stream. */
  lemma FrameReconstructed(f: Frame, want: Frame, ps: seq<Patch>, chunks: seq<string>)
    requires OnGrid(f) && SameSize(f, want) && Pending(f.grid, f.styles, ps, want)
    requires forall i :: 0 <= i < |ps| ==> Carries(ps[i], want)
    requires chunks != [] && Joined(chunks) == Stream(ps)
    ensures var r := FedAll(State(f, []), chunks);
            r.pending == [] && r.frame.grid == want.grid && r.frame.styles == want.styles
  {
    hide Fed, FedAll, Joined, Stream, Pending, Repainted, Restyled, NoneTorn;
    assert AllFit(ps, f.rows, f.cols) by {
      forall i | 0 <= i < |ps| ensures Fits(ps[i], f.rows, f.cols) { assert Carries(ps[i], want); }
    }
    StreamNoneTorn(ps, f.rows, f.cols, chunks);
    ChunksAgree(State(f, []), chunks);
    StreamPaints(f, ps);
    RepaintReaches(f.grid, f.styles, ps, want);
  }
}
