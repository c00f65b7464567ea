/** The byte side of the terminal emulator: how a stream falls into controls,
    skipped sequences and glyphs, and when a cut between two reads is safe.
    A byte is a character of code below 256; nothing here depends on that bound.
    Sequences follow sections 5.4 and 5.6 of ECMA-48 as far as the source reads them. */
module TerminalInput {
  const ESC := '\U{1B}'
  const BEL := '\U{07}'

  datatype Op =
    | Skip
    | NewLine
    | Return
    | Paint(glyph: string)
    | Control(params: string, final: char)

  // What stands at the front of the input: too little to tell, or one operation.
  datatype Token = Wait | Take(size: nat, op: Op)

  predicate IsParam(c: char) { '0' <= c <= '9' || c == ';' || c == '?' }

  /** First index from `i` on that is not a parameter byte. */
  function ParamEnd(d: string, i: nat): (r: nat)
    requires i <= |d|
    ensures i <= r <= |d|
    ensures forall k :: i <= k < r ==> IsParam(d[k])
    ensures r < |d| ==> !IsParam(d[r])
    decreases |d| - i
  {
    if i < |d| && IsParam(d[i]) then ParamEnd(d, i + 1) else i
  }

  predicate EndsString(c: char) { c == BEL || c == ESC }

  /** First index from `i` on that can end a control string. */
  function StringEnd(d: string, i: nat): (r: nat)
    requires i <= |d|
    ensures i <= r <= |d|
    ensures forall k :: i <= k < r ==> !EndsString(d[k])
    ensures r < |d| ==> EndsString(d[r])
    decreases |d| - i
  {
    if i < |d| && !EndsString(d[i]) then StringEnd(d, i + 1) else i
  }

  /** A regular expression's `$`: the end, or just before a final newline. */
  predicate AtEnd(d: string, i: nat) {
    i == |d| || (i + 1 == |d| && d[i] == '\n')
  }

  /** The sequence opened by the leading ESC is still unfinished. */
  predicate Unfinished(d: string)
    requires d != [] && d[0] == ESC
  {
    AtEnd(d, 1)
    || (|d| > 1 && d[1] == '[' && AtEnd(d, ParamEnd(d, 2)))
    || (|d| > 1 && d[1] == ']' && StringEnd(d, 2) == |d|)
  }

  predicate IsFinal(c: char) { '@' <= c <= '~' }

  predicate IsControlSequence(d: string) {
    |d| > 1 && d[1] == '[' && ParamEnd(d, 2) < |d| && IsFinal(d[ParamEnd(d, 2)])
  }

  /** Length of the control string at the front, 0 when there is none. */
  function ControlString(d: string): (n: nat)
    ensures n == 0 || 2 < n <= |d|
  {
    if |d| > 1 && d[1] == ']' && StringEnd(d, 2) < |d| then
      var e := StringEnd(d, 2);
      if d[e] == BEL then e + 1
      else if e + 1 < |d| && d[e + 1] == '\\' then e + 2
      else 0
    else 0
  }

  /** Length of a UTF-8 group by its first byte, section 3 of RFC 3629. */
  function GroupLength(first: char): nat {
    if first as int >= 0xF0 then 4
    else if first as int >= 0xE0 then 3
    else if first as int >= 0xC0 then 2
    else 1
  }

  function Next(d: string): (t: Token)
    requires d != []
    ensures t.Take? ==> 0 < t.size <= |d|
  {
    if d[0] == ESC then
      if Unfinished(d) then Wait
      else if IsControlSequence(d) then
        var p := ParamEnd(d, 2);
        Take(p + 1, Control(d[2..p], d[p]))
      else if ControlString(d) > 0 then Take(ControlString(d), Skip)
      else Take(2, Skip)
    else if d[0] == '\n' then Take(1, NewLine)
    else if d[0] == '\r' then Take(1, Return)
    else if d[0] < ' ' then Take(1, Skip)
    else if GroupLength(d[0]) > |d| then Wait
    else Take(GroupLength(d[0]), Paint(d[..GroupLength(d[0])]))
  }

  function Shown(op: Op): seq<Op> { if op.Skip? then [] else [op] }

  /** The operations a stream asks for, in order. */
  function Ops(d: string): seq<Op>
    decreases |d|
  {
    if d == [] then []
    else
      match Next(d)
      case Wait => []
      case Take(size, op) => Shown(op) + Ops(d[size..])
  }

  lemma ShownIs(op: Op)
    ensures Shown(op) == if op == Skip then [] else [op]
  {
  }

  /** The tail that is still too short to decide. */
  function Rest(d: string): (r: string)
    ensures |r| <= |d| && r == d[|d| - |r|..]
    decreases |d|
  {
    if d == [] then []
    else
      match Next(d)
      case Wait => d
      case Take(size, _) => Rest(d[size..])
  }

  // ----- cuts

  /** The input ends inside the two-byte terminator of a control string. */
  predicate HalfTerminated(d: string) {
    |d| > 2 && d[0] == ESC && d[1] == ']' && StringEnd(d, 2) == |d| - 1 && d[|d| - 1] == ESC
  }

  predicate QuietChar(c: char) { c < ' ' && c != '\n' && c != '\r' }

  predicate Quiet(s: string) {
    forall i :: 0 <= i < |s| ==> QuietChar(s[i])
  }

  /** Ends inside the terminator of a control string that would show if read as text. */
  predicate TornHere(d: string) {
    HalfTerminated(d) && !Quiet(d[2..|d| - 1])
  }

  predicate Torn(d: string)
    decreases |d|
  {
    d != [] && (TornHere(d) || (Next(d).Take? && Torn(d[Next(d).size..])))
  }

  /** Reading `d`, then `e` after what `d` left over, does what reading both at once does. */
  ghost predicate CutIsUnseen(d: string, e: string) {
    Ops(d + e) == Ops(d) + Ops(Rest(d) + e) && Rest(d + e) == Rest(Rest(d) + e)
  }

  lemma CutUnseenIs(d: string, e: string)
    ensures CutIsUnseen(d, e) <==>
            Ops(d + e) == Ops(d) + Ops(Rest(d) + e) && Rest(d + e) == Rest(Rest(d) + e)
  {
  }

  /** One decided token. */
  lemma Step(d: string)
    requires d != [] && Next(d).Take?
    ensures Ops(d) == Shown(Next(d).op) + Ops(d[Next(d).size..])
    ensures Rest(d) == Rest(d[Next(d).size..])
    ensures Torn(d) <==> TornHere(d) || Torn(d[Next(d).size..])
  {
    hide Next, TornHere, Shown;
  }

  /** Nothing decided yet. */
  lemma Stall(d: string)
    requires d == [] || Next(d).Wait?
    ensures Ops(d) == [] && Rest(d) == d
    ensures Torn(d) <==> d != [] && TornHere(d)
  {
    hide Next, TornHere, Shown;
  }

  lemma {:induction false} ParamEndStable(d: string, e: string, i: nat)
    requires i <= |d| && ParamEnd(d, i) < |d|
    ensures ParamEnd(d + e, i) == ParamEnd(d, i)
    decreases |d| - i
  {
    assert (d + e)[i] == d[i];
    if IsParam(d[i]) {
      ParamEndStable(d, e, i + 1);
    }
  }

  lemma {:induction false} StringEndStable(d: string, e: string, i: nat)
    requires i <= |d| && StringEnd(d, i) < |d|
    ensures StringEnd(d + e, i) == StringEnd(d, i)
    decreases |d| - i
  {
    assert (d + e)[i] == d[i];
    if !EndsString(d[i]) {
      StringEndStable(d, e, i + 1);
    }
  }

  /** A decided token stays decided: only a half-read terminator can change its mind. */
  lemma NextStable(d: string, e: string)
    requires d != [] && Next(d).Take?
    requires HalfTerminated(d) ==> e == [] || e[0] != '\\'
    ensures Next(d + e) == Next(d)
  {
    var w := d + e;
    if d[0] == ESC {
      assert |d| >= 2 && w[1] == d[1];
      if d[1] == '[' {
        ParamEndStable(d, e, 2);
        var p := ParamEnd(d, 2);
        assert w[p] == d[p];
        assert w[2..p] == d[2..p];
      } else if d[1] == ']' {
        StringEndStable(d, e, 2);
        var k := StringEnd(d, 2);
        assert w[k] == d[k];
        assert k + 1 < |d| ==> w[k + 1] == d[k + 1];
        assert k + 1 == |d| && e != [] ==> w[k + 1] == e[0];
      }
    } else {
      assert w[0] == d[0];
      var n := GroupLength(d[0]);
      assert n <= |d| ==> w[..n] == d[..n];
    }
  }

  lemma {:induction false} QuietThenEscape(s: string)
    requires Quiet(s) && ESC !in s
    ensures Ops(s + [ESC]) == [] && Rest(s + [ESC]) == [ESC]
  {
    var w := s + [ESC];
    if s != [] {
      assert QuietChar(s[0]) && w[0] == s[0];
      assert w[1..] == s[1..] + [ESC];
      QuietThenEscape(s[1..]);
    }
  }

  /** The one cut where the token changes its mind, when nothing shows. */
  lemma QuietCut(d: string, e: string)
    requires HalfTerminated(d) && !TornHere(d) && e != [] && e[0] == '\\'
    ensures Ops(d) == [] && Rest(d) == [ESC]
    ensures Ops(d + e) == Ops(e[1..]) == Ops([ESC] + e)
    ensures Rest(d + e) == Rest(e[1..]) == Rest([ESC] + e)
    ensures Torn(d + e) <==> Torn([ESC] + e)
  {
    StringSkipped(d, e);
    EscapeSkipped(e);
    var body := d[2..|d| - 1];
    BodyIsText(d);
    QuietThenEscape(body);
    assert Next(d) == Take(2, Skip);
    hide *;
    Step(d);
    Step(d + e);
    Step([ESC] + e);
    ShownIs(Skip);
  }

  /** Completed by the backslash, the string is skipped whole. */
  lemma StringSkipped(d: string, e: string)
    requires HalfTerminated(d) && e != [] && e[0] == '\\'
    ensures Next(d + e) == Take(|d| + 1, Skip) && (d + e)[|d| + 1..] == e[1..]
    ensures !TornHere(d + e)
  {
    var w := d + e;
    StringEndStable(d, e, 2);
    assert w[0] == ESC && w[1] == ']' && w[|d| - 1] == ESC && w[|d|] == '\\';
  }

  lemma EscapeSkipped(e: string)
    requires e != [] && e[0] == '\\'
    ensures Next([ESC] + e) == Take(2, Skip) && ([ESC] + e)[2..] == e[1..]
    ensures !TornHere([ESC] + e)
  {
  }

  lemma BodyIsText(d: string)
    requires HalfTerminated(d)
    ensures Next(d) == Take(2, Skip)
    ensures ESC !in d[2..|d| - 1] && d[2..] == d[2..|d| - 1] + [ESC]
  {
    var body := d[2..|d| - 1];
    forall k | 0 <= k < |body| ensures body[k] != ESC { assert !EndsString(d[k + 2]); }
  }

  /** A cut that tears nothing changes neither the operations nor the carried bytes. */
  lemma {:induction false} UntornCut(d: string, e: string)
    requires !Torn(d)
    ensures CutIsUnseen(d, e)
    ensures Torn(d + e) <==> Torn(Rest(d) + e)
    decreases |d|
  {
    hide *;
    if d == [] || Next(d).Wait? {
      Stall(d);
      NothingDecided(d, e);
    } else {
      Step(d);
      if HalfTerminated(d) && e != [] && e[0] == '\\' {
        QuietCut(d, e);
        NothingDecided(d, e);
      } else {
        NextStable(d, e);
        var n := Next(d).size;
        assert (d + e)[n..] == d[n..] + e;
        UntornCut(d[n..], e);
        HalfStays(d, e);
        Step(d + e);
        CutExtends(d, e, n, Shown(Next(d).op));
      }
    }
  }

  lemma NothingDecided(d: string, e: string)
    requires Ops(d) == [] && Ops(d + e) == Ops(Rest(d) + e) && Rest(d + e) == Rest(Rest(d) + e)
    ensures CutIsUnseen(d, e)
  {
    hide Ops, Rest;
  }

  lemma CutExtends(d: string, e: string, n: nat, pre: seq<Op>)
    requires 0 < n <= |d| && CutIsUnseen(d[n..], e)
    requires Ops(d) == pre + Ops(d[n..]) && Ops(d + e) == pre + Ops(d[n..] + e)
    requires Rest(d) == Rest(d[n..]) && Rest(d + e) == Rest(d[n..] + e)
    ensures CutIsUnseen(d, e)
  {
    hide Ops, Rest;
    assert pre + (Ops(d[n..]) + Ops(Rest(d) + e)) == Ops(d) + Ops(Rest(d) + e);
  }

  /** More input never tears an already decided front. */
  lemma HalfStays(d: string, e: string)
    requires d != [] && Next(d).Take? && !TornHere(d)
    ensures !TornHere(d + e)
  {
    var w := d + e;
    if TornHere(w) && e != [] {
      assert w[0] == d[0];
      assert |d| > 1 && w[1] == d[1];
      StringEndStable(d, e, 2);
    } else {
      assert e == [] ==> w == d;
    }
  }

  /** Text in which an ESC can only open a closing ESC backslash. */
  predicate PlainTail(x: string) {
    forall i :: 0 <= i < |x| && x[i] == ESC ==> i + 2 == |x| && x[i + 1] == '\\'
  }

  lemma {:induction false} PlainTailShown(x: string, k: nat)
    requires PlainTail(x)
    requires k + 2 < |x| && !QuietChar(x[k])
    requires forall i :: 0 <= i < k ==> QuietChar(x[i])
    ensures Ops(x) != [] || Rest(x) != []
  {
    assert x[0] != ESC;
    if k > 0 {
      assert QuietChar(x[0]);
      assert Next(x) == Take(1, Skip);
      PlainTailShown(x[1..], k - 1);
    }
  }

  /** A torn cut is visible: some continuation is carried out differently. */
  lemma {:induction false} TornCut(d: string)
    requires Torn(d)
    ensures !CutIsUnseen(d, "\\")
    decreases |d|
  {
    hide *;
    if d == [] || Next(d).Wait? {
      Stall(d);
      TornHereCut(d);
    } else if TornHere(d) {
      TornHereCut(d);
    } else {
      Step(d);
      var n := Next(d).size;
      TornCut(d[n..]);
      if HalfTerminated(d) {
        TornTail(d);
      } else {
        var e := "\\";
        NextStable(d, e);
        assert (d + e)[n..] == d[n..] + e;
        Step(d + e);
        CutCarries(d, e, n, Shown(Next(d).op));
      }
    }
  }

  /** A cut seen further on is seen. */
  lemma CutCarries(d: string, e: string, n: nat, pre: seq<Op>)
    requires 0 < n <= |d| && !CutIsUnseen(d[n..], e)
    requires Ops(d) == pre + Ops(d[n..]) && Ops(d + e) == pre + Ops(d[n..] + e)
    requires Rest(d) == Rest(d[n..]) && Rest(d + e) == Rest(d[n..] + e)
    ensures !CutIsUnseen(d, e)
  {
    hide Ops, Rest;
    var a, b := Ops(d[n..] + e), Ops(d[n..]) + Ops(Rest(d) + e);
    assert Ops(d) + Ops(Rest(d) + e) == pre + b;
    assert (pre + a)[|pre|..] == a && (pre + b)[|pre|..] == b;
  }

  /** A quiet half-read string holds no tear further on. */
  lemma TornTail(d: string)
    requires HalfTerminated(d) && !TornHere(d)
    ensures !Torn(d)
  {
    BodyIsText(d);
    LoneEscapeUntorn(d[2..|d| - 1]);
    hide *;
    Step(d);
  }

  lemma {:induction false} LoneEscapeUntorn(s: string)
    requires ESC !in s
    ensures !Torn(s + [ESC])
    decreases |s|
  {
    hide Torn, Next;
    var w := s + [ESC];
    if Next(w).Wait? {
      Stall(w);
    } else {
      Step(w);
      var n := Next(w).size;
      if n <= |s| {
        assert w[n..] == s[n..] + [ESC];
        LoneEscapeUntorn(s[n..]);
      } else {
        assert w[n..] == [];
        Stall([]);
      }
    }
  }

  lemma TornHereCut(d: string)
    requires TornHere(d)
    ensures !CutIsUnseen(d, "\\")
  {
    var e := "\\";
    var body, w := d[2..|d| - 1], d + e;
    StringSkipped(d, e);
    BodyIsText(d);
    LoneEscapeUntorn(body);
    var x := d[2..] + e;
    NoiseIsPlain(body, x);
    hide *;
    UntornCut(d[2..], e);
    CutUnseenIs(d, e);
    CutUnseenIs(d[2..], e);
    Step(w);
    Stall(e[1..]);
    Step(d);
    ShownIs(Skip);
    assert Ops(w) == [] && Rest(w) == [];
  }

  lemma NoiseIsPlain(body: string, x: string)
    requires ESC !in body && !Quiet(body)
    requires x == body + [ESC] + "\\"
    ensures Ops(x) != [] || Rest(x) != []
  {
    hide Ops, Rest;
    var k := FirstLoud(body);
    assert PlainTail(x);
    forall i | 0 <= i < k ensures QuietChar(x[i]) { assert x[i] == body[i]; }
    assert x[k] == body[k];
    PlainTailShown(x, k);
  }

  function FirstLoud(s: string): (k: nat)
    requires !Quiet(s)
    ensures k < |s| && !QuietChar(s[k])
    ensures forall i :: 0 <= i < k ==> QuietChar(s[i])
  {
    if !QuietChar(s[0]) then 0 else 1 + FirstLoud(s[1..])
  }

  /** Stopping a read after `d` is harmless for every continuation exactly when it tears nothing. */
  lemma CutUnseenExactly(d: string)
    ensures (forall e :: CutIsUnseen(d, e)) <==> !Torn(d)
  {
    hide Torn, Ops, Rest;
    if Torn(d) {
      TornCut(d);
    } else {
      forall e ensures CutIsUnseen(d, e) { UntornCut(d, e); }
    }
  }

  /** A title-setting string cut before its backslash paints the title. */
  lemma TornTitle(d: string, e: string)
    requires d == [ESC, ']', 'T', ESC] && e == ['\\']
    ensures Torn(d)
    ensures Ops(d + e) == []
    ensures Ops(d) + Ops(Rest(d) + e) == [Paint(['T'])]
  {
    TitleTokens(d);
    StringSkipped(d, e);
    EscapeSkipped(e);
    TitleCut(d, e, d[2..], d[2..][1..], Paint(['T']));
  }

  lemma TitleCut(d: string, e: string, u: string, r: string, op: Op)
    requires d != [] && Next(d) == Take(2, Skip) && d[2..] == u && TornHere(d)
    requires u != [] && Next(u) == Take(1, op) && op != Skip && u[1..] == r
    requires r != [] && Next(r) == Wait
    requires d + e != [] && Next(d + e) == Take(|d + e|, Skip)
    requires r + e != [] && Next(r + e) == Take(|r + e|, Skip)
    ensures Torn(d) && Ops(d + e) == [] && Ops(d) + Ops(Rest(d) + e) == [op]
  {
    hide *;
    AllSkipped(d + e);
    AllSkipped(r + e);
    Step(d);
    Step(u);
    Stall(r);
    ShownIs(Skip);
    ShownIs(op);
    assert Rest(d) == r;
    assert Ops(d) == [op];
  }

  lemma AllSkipped(w: string)
    requires w != [] && Next(w) == Take(|w|, Skip)
    ensures Ops(w) == [] && Rest(w) == []
  {
    hide *;
    Step(w);
    var rest := w[|w|..];
    assert rest == [];
    Stall(rest);
    ShownIs(Skip);
    assert Ops(w) == [] + Ops(rest);
  }

  lemma TitleTokens(d: string)
    requires d == [ESC, ']', 'T', ESC]
    ensures TornHere(d) && Next(d) == Take(2, Skip)
    ensures d[2..] == ['T', ESC] && Next(d[2..]) == Take(1, Paint(['T'])) && d[2..][1..] == [ESC]
    ensures Next([ESC]) == Wait
  {
    assert StringEnd(d, 3) == 3;
    assert d[2..3] == ['T'] && !QuietChar(d[2..3][0]);
    var u := d[2..];
    assert u[..1] == ['T'] && GroupLength('T') == 1;
  }
}
