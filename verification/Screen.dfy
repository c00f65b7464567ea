/** The terminal emulator's screen: a character grid, a style per cell, the
    cursor, the pen and the bytes carried over between reads.
    A cell holds the byte group it was painted from. */
module Screen {
  import opened Wrappers
  import opened Text
  import opened TerminalInput
  import opened ScreenStyle

  datatype Frame = Frame(
    rows: nat, cols: nat,
    grid: seq<seq<string>>, styles: seq<seq<Style>>,
    y: nat, x: nat, pen: Style)

  datatype State = State(frame: Frame, pending: string)

  ghost predicate Sized<T>(g: seq<seq<T>>, rows: nat, cols: nat) {
    |g| == rows && forall r :: 0 <= r < rows ==> |g[r]| == cols
  }

  /** The grid keeps its dimensions and the cursor is inside it. */
  ghost predicate OnGrid(f: Frame) {
    f.y < f.rows && f.x < f.cols && Sized(f.grid, f.rows, f.cols) && Sized(f.styles, f.rows, f.cols)
  }

  ghost predicate SameSize(f: Frame, g: Frame) {
    f.rows == g.rows && f.cols == g.cols
  }

  function Fill<T>(v: T, rows: nat, cols: nat): (g: seq<seq<T>>)
    ensures Sized(g, rows, cols)
    ensures forall r, c :: 0 <= r < rows && 0 <= c < cols ==> g[r][c] == v
  {
    seq(rows, _ => seq(cols, _ => v))
  }

  function Fresh(rows: nat, cols: nat): (f: Frame)
    requires rows > 0 && cols > 0
    ensures OnGrid(f)
  {
    Frame(rows, cols, Fill(" ", rows, cols), Fill(PLAIN, rows, cols), 0, 0, PLAIN)
  }

  /** A fresh screen is blank and unstyled, with the cursor in the first cell. */
  lemma FreshBlank(rows: nat, cols: nat, r: nat, c: nat)
    requires r < rows && c < cols
    ensures var f, plain := Fresh(rows, cols), Style(None, None, false, false, false, false, false);
      && f.rows == rows && f.cols == cols && f.grid[r][c] == " " && f.styles[r][c] == plain
      && f.y == 0 && f.x == 0 && f.pen == plain
  {
  }

  // ----- control sequences

  /** Splits at every semicolon. */
  function Fields(s: string): (r: seq<string>)
    ensures r != []
  {
    if s == [] then [[]]
    else
      var r := Fields(s[1..]);
      if s[0] == ';' then [[]] + r else [[s[0]] + r[0]] + r[1..]
  }

  /** Values of the fields that are digits alone, in order. */
  function Values(fields: seq<string>): seq<nat> {
    if fields == [] then []
    else (if fields[0] != [] && AllDigits(fields[0]) then [DigitsValue(fields[0])] else []) + Values(fields[1..])
  }

  function Numbers(params: string): seq<nat> { Values(Fields(params)) }

  /** A one-based coordinate brought into `0..bound`. */
  function Coordinate(numbers: seq<nat>, i: nat, bound: nat): (r: nat)
    requires bound > 0
    ensures r < bound
  {
    var n := if i < |numbers| then numbers[i] else 1;
    if n == 0 then 0 else if n > bound then bound - 1 else n - 1
  }

  function BlankFrom<T>(row: seq<T>, x: nat, v: T): (r: seq<T>)
    requires x <= |row|
    ensures |r| == |row|
    ensures forall c :: 0 <= c < |row| ==> r[c] == if c < x then row[c] else v
  {
    row[..x] + seq(|row| - x, _ => v)
  }

  function PutCell<T>(g: seq<seq<T>>, y: nat, x: nat, v: T): (r: seq<seq<T>>)
    requires y < |g| && x < |g[y]|
    ensures |r| == |g| && forall k :: 0 <= k < |g| ==> |r[k]| == |g[k]|
    ensures forall k, c :: 0 <= k < |g| && 0 <= c < |g[k]| ==>
              r[k][c] == if k == y && c == x then v else g[k][c]
  {
    g[y := g[y][x := v]]
  }

  function Controlled(f: Frame, params: string, final: char): (r: Frame)
    requires OnGrid(f)
    ensures OnGrid(r) && SameSize(f, r)
  {
    var numbers := Numbers(params);
    if final == 'H' then
      f.(y := Coordinate(numbers, 0, f.rows), x := Coordinate(numbers, 1, f.cols))
    else if final == 'J' then
      f.(grid := Fill(" ", f.rows, f.cols), styles := Fill(PLAIN, f.rows, f.cols), y := 0, x := 0)
    else if final == 'K' then
      f.(grid := f.grid[f.y := BlankFrom(f.grid[f.y], f.x, " ")],
         styles := f.styles[f.y := BlankFrom(f.styles[f.y], f.x, PLAIN)])
    else if final == 'm' then
      f.(pen := Rendition(f.pen, if numbers == [] then [0] else numbers))
    else f
  }

  ghost predicate Cell(f: Frame, r: nat, c: nat, glyph: string, style: Style)
    requires OnGrid(f) && r < f.rows && c < f.cols
  {
    f.grid[r][c] == glyph && f.styles[r][c] == style
  }

  /** The erasures cell by cell, and the finals that do nothing. */
  lemma ErasedCells(f: Frame, params: string, final: char, r: nat, c: nat)
    requires OnGrid(f) && r < f.rows && c < f.cols && final != 'm' && final != 'H'
    ensures var g := Controlled(f, params, final);
            && (final == 'J' || (final == 'K' && r == f.y && f.x <= c)
                ==> Cell(g, r, c, " ", PLAIN))
            && (!(final == 'J' || (final == 'K' && r == f.y && f.x <= c))
                ==> Cell(g, r, c, f.grid[r][c], f.styles[r][c]))
            && g.pen == f.pen
            && (g.y, g.x) == (if final == 'J' then (0, 0) else (f.y, f.x))
  {
  }

  function Painted(f: Frame, glyph: string): (r: Frame)
    requires OnGrid(f)
    ensures OnGrid(r) && SameSize(f, r)
  {
    f.(grid := PutCell(f.grid, f.y, f.x, glyph),
       styles := PutCell(f.styles, f.y, f.x, f.pen),
       x := if f.x + 1 < f.cols then f.x + 1 else f.x)
  }

  function Apply(f: Frame, op: Op): (r: Frame)
    requires OnGrid(f)
    ensures OnGrid(r) && SameSize(f, r)
  {
    match op
    case Skip => f
    case NewLine => f.(y := if f.y + 1 < f.rows then f.y + 1 else f.y)
    case Return => f.(x := 0)
    case Paint(glyph) => Painted(f, glyph)
    case Control(params, final) => Controlled(f, params, final)
  }

  /** A line feed goes one row down, not past the last, in the same column; a carriage
      return goes to the first column of the same row. */
  lemma LineMoves(f: Frame)
    requires OnGrid(f)
    ensures var down := Apply(f, NewLine);
      down == f.(y := down.y) && (if f.y == f.rows - 1 then down.y == f.y else down.y == f.y + 1)
    ensures Apply(f, Return) == f.(x := 0)
  {
  }

  /** A glyph changes one cell, the one under the cursor, to itself and the pen; the
      cursor goes one column on, or stays in the last, in the same row. */
  lemma GlyphShows(f: Frame, glyph: string, r: nat, c: nat)
    requires OnGrid(f) && r < f.rows && c < f.cols
    ensures var g := Apply(f, Paint(glyph));
      && (if r == f.y && c == f.x then Cell(g, r, c, glyph, f.pen) else Cell(g, r, c, f.grid[r][c], f.styles[r][c]))
      && g.y == f.y && g.pen == f.pen
      && (if f.x == f.cols - 1 then g.x == f.x else g.x == f.x + 1)
  {
  }

  /** A jump counts rows and columns from one, takes one for a missing or zero number
      and stops at the last; it changes nothing else. Without numbers a rendition resets. */
  lemma JumpMoves(f: Frame, params: string)
    requires OnGrid(f)
    ensures var ns, g := Numbers(params), Apply(f, Control(params, 'H'));
      && g == f.(y := g.y, x := g.x)
      && (|ns| == 0 || ns[0] == 0 ==> g.y == 0)
      && (|ns| > 0 && 1 <= ns[0] <= f.rows ==> g.y == ns[0] - 1)
      && (|ns| > 0 && ns[0] > f.rows ==> g.y == f.rows - 1)
      && (|ns| <= 1 || ns[1] == 0 ==> g.x == 0)
      && (|ns| > 1 && 1 <= ns[1] <= f.cols ==> g.x == ns[1] - 1)
      && (|ns| > 1 && ns[1] > f.cols ==> g.x == f.cols - 1)
    ensures var ns := Numbers(params);
      Apply(f, Control(params, 'm')) == f.(pen := if ns == [] then PLAIN else Rendition(f.pen, ns))
  {
    hide Numbers, Sized;
    CodeAlone(f.pen, 0);
  }

  function Perform(f: Frame, ops: seq<Op>): (r: Frame)
    requires OnGrid(f)
    ensures OnGrid(r) && SameSize(f, r)
    decreases |ops|
  {
    if ops == [] then f else Perform(Apply(f, ops[0]), ops[1..])
  }

  function Fed(s: State, data: string): (r: State)
    requires OnGrid(s.frame)
    ensures OnGrid(r.frame) && SameSize(s.frame, r.frame)
  {
    State(Perform(s.frame, Ops(s.pending + data)), Rest(s.pending + data))
  }

  lemma FedIs(s: State, data: string)
    requires OnGrid(s.frame)
    ensures Fed(s, data) == State(Perform(s.frame, Ops(s.pending + data)), Rest(s.pending + data))
  {
  }

  /** A stream read in pieces; every state on the way is on its grid. */
  function FedAll(s: State, chunks: seq<string>): (r: State)
    requires OnGrid(s.frame)
    ensures OnGrid(r.frame) && SameSize(s.frame, r.frame)
    decreases |chunks|
  {
    if chunks == [] then s else FedAll(Fed(s, chunks[0]), chunks[1..])
  }

  function Joined(chunks: seq<string>): string {
    if chunks == [] then [] else chunks[0] + Joined(chunks[1..])
  }

  // ----- any chunking

  lemma {:induction false} PerformConcat(f: Frame, a: seq<Op>, b: seq<Op>)
    requires OnGrid(f)
    ensures Perform(f, a + b) == Perform(Perform(f, a), b)
    decreases |a|
  {
    hide Apply;
    if a == [] {
      assert a + b == b;
    } else {
      assert (a + b)[1..] == a[1..] + b;
      PerformConcat(Apply(f, a[0]), a[1..], b);
    }
  }

  lemma FedTwice(s: State, a: string, b: string)
    requires OnGrid(s.frame) && !Torn(s.pending + a)
    ensures Fed(Fed(s, a), b) == Fed(s, a + b)
  {
    hide Ops, Rest, Torn, Perform;
    var d := s.pending + a;
    assert s.pending + (a + b) == d + b;
    UntornCut(d, b);
    PerformConcat(s.frame, Ops(d), Ops(Rest(d) + b));
  }

  /** No cut of the stream falls inside a terminator where it shows. */
  ghost predicate NoneTorn(pending: string, chunks: seq<string>) {
    forall k :: 0 < k < |chunks| ==> !Torn(pending + Joined(chunks[..k]))
  }

  lemma NoneTornOnward(pending: string, chunks: seq<string>)
    requires |chunks| > 1 && NoneTorn(pending, chunks)
    ensures !Torn(pending + chunks[0]) && NoneTorn(Rest(pending + chunks[0]), chunks[1..])
  {
    hide Torn, Rest;
    var d := pending + chunks[0];
    assert !Torn(d) by {
      assert chunks[..1][1..] == [];
      assert Joined(chunks[..1]) == chunks[0] + [];
      assert chunks[0] + [] == chunks[0];
    }
    forall k | 0 < k < |chunks[1..]| ensures !Torn(Rest(d) + Joined(chunks[1..][..k])) {
      var e := Joined(chunks[1..][..k]);
      assert chunks[..k + 1][1..] == chunks[1..][..k];
      assert pending + Joined(chunks[..k + 1]) == d + e;
      UntornCut(d, e);
    }
  }

  /** Reading a stream in pieces leaves the grid, styles, cursor, pen and carried
      bytes of reading it whole, whatever the pieces, when none tears a terminator. */
  lemma {:induction false} ChunksAgree(s: State, chunks: seq<string>)
    requires OnGrid(s.frame) && chunks != [] && NoneTorn(s.pending, chunks)
    ensures FedAll(s, chunks) == Fed(s, Joined(chunks))
    decreases |chunks|
  {
    hide Fed, Torn;
    var first := Fed(s, chunks[0]);
    if |chunks| == 1 {
      assert chunks[1..] == [];
      assert chunks[0] + [] == chunks[0];
      assert FedAll(first, []) == first;
    } else {
      NoneTornOnward(s.pending, chunks);
      FedIs(s, chunks[0]);
      ChunksAgree(first, chunks[1..]);
      FedTwice(s, chunks[0], Joined(chunks[1..]));
    }
  }

  /** The torn cut at its smallest: a window title shows on the screen. */
  lemma TornTitleShows(s: State, a: string, b: string, bare: string)
    requires OnGrid(s.frame) && s.pending == [] && bare == ['T']
    requires s.frame.grid[s.frame.y][s.frame.x] != bare
    requires a == [ESC, ']', 'T', ESC] && b == ['\\']
    ensures Fed(s, a + b).frame == s.frame
    ensures FedAll(s, [a, b]).frame == Painted(s.frame, bare) != s.frame
  {
    hide *;
    TornTitle(a, b);
    assert [] + a == a && [] + (a + b) == a + b;
    TornReads(s, a, b, Paint(bare));
    PaintShows(s.frame, bare);
  }

  lemma PaintShows(f: Frame, glyph: string)
    requires OnGrid(f)
    ensures Apply(f, Paint(glyph)) == Painted(f, glyph)
    ensures Painted(f, glyph).grid[f.y][f.x] == glyph
  {
  }

  lemma TornReads(s: State, a: string, b: string, op: Op)
    requires OnGrid(s.frame) && s.pending + a == a && s.pending + (a + b) == a + b
    requires Ops(a + b) == [] && Ops(a) + Ops(Rest(a) + b) == [op]
    ensures Fed(s, a + b).frame == s.frame
    ensures FedAll(s, [a, b]).frame == Apply(s.frame, op)
  {
    hide *;
    TwoReads(s, a, b);
    PerformConcat(s.frame, Ops(a), Ops(Rest(a) + b));
    OneOp(s.frame, op);
    NothingMore(s.frame, a + b);
    FedIs(s, a + b);
    FedIs(s, a);
    FedIs(Fed(s, a), b);
  }

  lemma TwoReads(s: State, a: string, b: string)
    requires OnGrid(s.frame)
    ensures FedAll(s, [a, b]) == Fed(Fed(s, a), b)
  {
    hide Fed;
    assert [a, b][1..] == [b] && [b][1..] == [];
    assert FedAll(Fed(Fed(s, a), b), []) == Fed(Fed(s, a), b);
  }

  lemma OneOp(f: Frame, op: Op)
    requires OnGrid(f)
    ensures Perform(f, [op]) == Apply(f, op)
  {
    assert [op][1..] == [];
    assert Perform(Apply(f, op), []) == Apply(f, op);
  }

  // ----- the emulator

  class Screen {
    var rows: nat
    var cols: nat
    var grid: seq<seq<string>>
    var styles: seq<seq<Style>>
    var y: nat
    var x: nat
    var pen: Style
    var pending: string

    ghost function Shot(): Frame
      reads this
    {
      Frame(rows, cols, grid, styles, y, x, pen)
    }

    ghost function Value(): State
      reads this
    {
      State(Shot(), pending)
    }

    ghost predicate Valid()
      reads this
    {
      OnGrid(Shot())
    }

    constructor (rows: nat, cols: nat)
      requires rows > 0 && cols > 0
      ensures Valid() && Value() == State(Fresh(rows, cols), [])
    {
      this.rows, this.cols := rows, cols;
      grid := Fill(" ", rows, cols);
      styles := Fill(PLAIN, rows, cols);
      y, x := 0, 0;
      pen := PLAIN;
      pending := [];
    }

    /** Takes the next bytes of the stream. */
    method Feed(data: string)
      requires Valid()
      modifies this
      ensures Valid() && Value() == Fed(old(Value()), data)
    {
      hide Next, Unfinished, Ops, Rest, Perform, Apply, OnGrid, SameSize;
      var bytes := pending + data;
      ghost var start := Shot();
      pending := [];
      var i := 0;
      while i < |bytes|
        invariant i <= |bytes| && Valid() && pending == []
        invariant Perform(start, Ops(bytes)) == Perform(Shot(), Ops(bytes[i..]))
        invariant Rest(bytes) == Rest(bytes[i..])
      {
        var tail := bytes[i..];
        ghost var before, op := Shot(), Next(tail);
        var size;
        if bytes[i] == ESC {
          if Unfinished(tail) {
            Undecided(tail);
            Stall(tail);
            NothingMore(Shot(), tail);
            pending := tail;
            return;
          }
          size := Escape(tail);
        } else {
          if bytes[i] >= ' ' && i + GroupLength(bytes[i]) > |bytes| {
            Undecided(tail);
            Stall(tail);
            NothingMore(Shot(), tail);
            pending := tail;
            return;
          }
          size := Character(tail);
        }
        i := i + size;
        assert bytes[i..] == tail[size..];
        Advance(before, tail);
      }
      Stall(bytes[i..]);
      NothingMore(Shot(), bytes[i..]);
    }

    /** A finished escape at the front: a control sequence, a control string to
        skip, or two bytes to skip. */
    method Escape(tail: string) returns (size: nat)
      requires Valid() && tail != [] && tail[0] == ESC && !Unfinished(tail)
      modifies `grid, `styles, `y, `x, `pen
      ensures Valid() && Next(tail).Take? && size == Next(tail).size
      ensures Shot() == Apply(old(Shot()), Next(tail).op)
    {
      hide ControlString, Controlled, OnGrid, SameSize, Unfinished;
      size := 2;
      if IsControlSequence(tail) {
        var p := ParamEnd(tail, 2);
        Csi(tail[2..p], tail[p]);
        size := p + 1;
      } else if ControlString(tail) > 0 {
        size := ControlString(tail);
      }
    }

    /** A line feed, a carriage return, another control to skip, or a whole glyph. */
    method Character(tail: string) returns (size: nat)
      requires Valid() && tail != [] && tail[0] != ESC
      requires tail[0] >= ' ' ==> GroupLength(tail[0]) <= |tail|
      modifies `grid, `styles, `y, `x
      ensures Valid() && Next(tail).Take? && size == Next(tail).size
      ensures Shot() == Apply(old(Shot()), Next(tail).op)
    {
      hide Painted, Sized;
      size := 1;
      if tail[0] == '\n' {
        y := if y + 1 < rows - 1 then y + 1 else rows - 1;
      } else if tail[0] == '\r' {
        x := 0;
      } else if tail[0] >= ' ' {
        if tail[0] as int >= 0xF0 {
          size := 4;
        } else if tail[0] as int >= 0xE0 {
          size := 3;
        } else if tail[0] as int >= 0xC0 {
          size := 2;
        }
        Write(tail[..size]);
      }
    }


    method Write(glyph: string)
      requires Valid()
      modifies `grid, `styles, `x
      ensures Valid() && Shot() == Painted(old(Shot()), glyph)
    {
      if y < rows && x < cols {
        grid := grid[y := grid[y][x := glyph]];
        styles := styles[y := styles[y][x := pen]];
      }
      x := x + 1;
      if x >= cols {
        x := cols - 1;
      }
    }

    method Csi(params: string, final: char)
      requires Valid()
      modifies `grid, `styles, `y, `x, `pen
      ensures Valid() && Shot() == Controlled(old(Shot()), params, final)
    {
      hide Rendition, Numbers;
      var numbers := Numbers(params);
      if final == 'H' {
        var row: int := if |numbers| > 0 then numbers[0] else 1;
        var col: int := if |numbers| > 1 then numbers[1] else 1;
        var down := if row - 1 < 0 then 0 else row - 1;
        var right := if col - 1 < 0 then 0 else col - 1;
        y := if down < rows - 1 then down else rows - 1;
        x := if right < cols - 1 then right else cols - 1;
      } else if final == 'J' {
        grid := Fill(" ", rows, cols);
        styles := Fill(PLAIN, rows, cols);
        y, x := 0, 0;
      } else if final == 'K' {
        EraseLine();
      } else if final == 'm' {
        Sgr(if numbers == [] then [0] else numbers);
      }
    }

    /** Blanks the cursor's row from the cursor on. */
    method EraseLine()
      requires Valid()
      modifies `grid, `styles
      ensures Valid()
      ensures grid == old(grid)[y := BlankFrom(old(grid)[y], x, " ")]
      ensures styles == old(styles)[y := BlankFrom(old(styles)[y], x, PLAIN)]
    {
      var c := x;
      while c < cols
        invariant x <= c <= cols && Valid()
        invariant grid == old(grid)[y := grid[y]] && styles == old(styles)[y := styles[y]]
        invariant forall k :: 0 <= k < cols ==> grid[y][k] == if x <= k < c then " " else old(grid)[y][k]
        invariant forall k :: 0 <= k < cols ==> styles[y][k] == if x <= k < c then PLAIN else old(styles)[y][k]
      {
        grid := grid[y := grid[y][c := " "]];
        styles := styles[y := styles[y][c := PLAIN]];
        c := c + 1;
      }
      assert grid[y] == BlankFrom(old(grid)[y], x, " ");
      assert styles[y] == BlankFrom(old(styles)[y], x, PLAIN);
    }

    method Sgr(numbers: seq<nat>)
      requires Valid()
      modifies `pen
      ensures Valid() && pen == Rendition(old(pen), numbers)
    {
      hide Ansi, Rgb, Xterm256, Sized;
      var index := 0;
      while index < |numbers|
        invariant index <= |numbers|
        invariant Rendition(old(pen), numbers) == Rendition(pen, numbers[index..])
      {
        var code := numbers[index];
        ghost var rest, at := numbers[index..], index;
        if code == 0 {
          pen := PLAIN;
        } else if code == 1 {
          pen := pen.(bold := true);
        } else if code == 2 {
          pen := pen.(dim := true);
        } else if code == 3 {
          pen := pen.(italic := true);
        } else if code == 4 {
          pen := pen.(underline := true);
        } else if code == 7 {
          pen := pen.(reverse := true);
        } else if code == 22 {
          pen := pen.(bold := false, dim := false);
        } else if code == 23 {
          pen := pen.(italic := false);
        } else if code == 24 {
          pen := pen.(underline := false);
        } else if code == 27 {
          pen := pen.(reverse := false);
        } else if code == 39 {
          pen := pen.(fg := None);
        } else if code == 49 {
          pen := pen.(bg := None);
        } else if 30 <= code <= 37 {
          pen := pen.(fg := Some(Ansi(code - 30)));
        } else if 40 <= code <= 47 {
          pen := pen.(bg := Some(Ansi(code - 40)));
        } else if 90 <= code <= 97 {
          pen := pen.(fg := Some(Ansi(code - 90 + 8)));
        } else if 100 <= code <= 107 {
          pen := pen.(bg := Some(Ansi(code - 100 + 8)));
        } else if (code == 38 || code == 48) && index + 1 < |numbers| {
          var mode := numbers[index + 1];
          var color;
          if mode == 2 && index + 4 < |numbers| {
            color := Rgb(numbers[index + 2], numbers[index + 3], numbers[index + 4]);
            index := index + 4;
          } else if mode == 5 && index + 2 < |numbers| {
            color := Xterm256(numbers[index + 2]);
            index := index + 2;
          } else {
            index := index + 1;
            assert numbers[index..] == rest[1..];
            continue;
          }
          if code == 38 {
            pen := pen.(fg := Some(color));
          } else {
            pen := pen.(bg := Some(color));
          }
        }
        index := index + 1;
        assert numbers[index..] == rest[index - at..];
      }
    }
  }

  /** One operation carried out, the rest still to do. */
  lemma Advance(f: Frame, d: string)
    requires OnGrid(f) && d != [] && Next(d).Take?
    ensures Perform(f, Ops(d)) == Perform(Apply(f, Next(d).op), Ops(d[Next(d).size..]))
    ensures Rest(d) == Rest(d[Next(d).size..])
  {
    Step(d);
    hide Next, Ops, Rest;
    var op := Next(d).op;
    var ops := Ops(d[Next(d).size..]);
    if op == Skip {
      assert Shown(op) + ops == ops;
    } else {
      assert (Shown(op) + ops)[1..] == ops;
    }
  }

  lemma Undecided(d: string)
    requires d != []
    requires if d[0] == ESC then Unfinished(d) else d[0] >= ' ' && GroupLength(d[0]) > |d|
    ensures Next(d).Wait?
  {
  }

  lemma NothingMore(f: Frame, d: string)
    requires OnGrid(f) && Ops(d) == []
    ensures Perform(f, Ops(d)) == f
  {
  }

}
