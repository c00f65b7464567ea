/** What cleaning a summary drops, keeps and rewrites, for each shape of the model's
    output. */
module SummaryMeaning {
  import opened Wrappers
  import opened Text
  import opened SummaryFormat

  // ----- folding newlines

  /** The text with every newline dropped that follows two others; `run` newlines stand
      right before it. */
  function Squeeze(s: string, run: nat): string {
    if s == [] then []
    else if s[0] != '\n' then [s[0]] + Squeeze(s[1..], 0)
    else if run < 2 then ['\n'] + Squeeze(s[1..], run + 1)
    else Squeeze(s[1..], run)
  }

  lemma SqueezeStep(c: char, s: string, run: nat)
    ensures Squeeze([c] + s, run) ==
            if c != '\n' then [c] + Squeeze(s, 0)
            else if run < 2 then [c] + Squeeze(s, run + 1)
            else Squeeze(s, run)
  {
    assert ([c] + s)[1..] == s;
  }

  lemma SqueezeLines(s: string, run: nat)
    requires run <= 2
    ensures Squeeze("\n\n" + s, run) == "\n\n"[..2 - run] + Squeeze(s, 2)
    ensures Squeeze("\n\n\n" + s, run) == "\n\n"[..2 - run] + Squeeze(s, 2)
  {
    hide Squeeze;
    var one, two := ['\n'] + s, ['\n'] + (['\n'] + s);
    assert "\n\n" + s == two && "\n\n\n" + s == ['\n'] + two;
    SqueezeStep('\n', s, run);
    SqueezeStep('\n', s, 1);
    SqueezeStep('\n', s, 2);
    SqueezeStep('\n', one, run);
    SqueezeStep('\n', one, 1);
    SqueezeStep('\n', one, 2);
    SqueezeStep('\n', two, run);
  }

  /** One round of replacement squeezes to the same text. */
  lemma {:induction false} ReplaceSqueezes(s: string, run: nat)
    requires run <= 2
    ensures Squeeze(Replace(s, GAP, "\n\n"), run) == Squeeze(s, run)
    decreases |s|
  {
    hide Squeeze;
    if s == [] {
    } else if GAP <= s {
      ReplaceSqueezes(s[3..], 2);
      assert s == GAP + s[3..];
      SqueezeLines(s[3..], run);
      SqueezeLines(Replace(s[3..], GAP, "\n\n"), run);
    } else {
      var more := if s[0] != '\n' then 0 else if run < 2 then run + 1 else run;
      ReplaceSqueezes(s[1..], more);
      assert s == [s[0]] + s[1..];
      SqueezeStep(s[0], s[1..], run);
      SqueezeStep(s[0], Replace(s[1..], GAP, "\n\n"), run);
    }
  }

  function Lines(run: nat): string
    requires run <= 3
  {
    if run == 0 then "" else if run == 1 then "\n" else if run == 2 then "\n\n" else GAP
  }

  lemma LinesMore(run: nat, s: string)
    requires run < 3
    ensures Lines(run) + (['\n'] + s) == Lines(run + 1) + s
    ensures |Lines(run)| == run && Lines(0) + s == s
  {
  }

  lemma GapInFront(s: string)
    ensures Contains(Lines(3) + s, GAP)
  {
    assert OccursAt(GAP + s, GAP, 0);
  }

  /** Text without a gap is squeezed already. */
  lemma {:induction false} SqueezeNothing(s: string, run: nat)
    requires run <= 2 && !Contains(Lines(run) + s, GAP)
    ensures Squeeze(s, run) == s
  {
    hide Contains, Lines, Squeeze;
    if s == [] {
      SqueezeEmpty(run);
    } else {
      var c, rest := s[0], s[1..];
      assert s == [c] + rest;
      SqueezeStep(c, rest, run);
      LinesMore(run, rest);
      LinesMore(0, rest);
      if c == '\n' {
        if run == 2 {
          GapInFront(rest);
        } else {
          SqueezeNothing(rest, run + 1);
        }
      } else {
        var w := Lines(run) + s;
        SliceContains(w, GAP, run + 1, |w|);
        assert w[run + 1..|w|] == rest;
        SqueezeNothing(rest, 0);
      }
    }
  }

  lemma SqueezeEmpty(run: nat)
    ensures Squeeze([], run) == []
  {
  }

  /** Folding until nothing changes is one pass: of every run of newlines the first two
      stay. */
  lemma {:induction false} CollapseSqueezes(s: string)
    ensures Collapse(s) == Squeeze(s, 0)
    decreases |s|
  {
    if Find(s, GAP).None? {
      LinesMore(0, s);
      SqueezeNothing(s, 0);
    } else {
      ReplaceShrinks(s, GAP, "\n\n");
      ReplaceSqueezes(s, 0);
      CollapseSqueezes(Replace(s, GAP, "\n\n"));
    }
  }

  // ----- defusing tokens

  /** The text without zero-width spaces. */
  function Visible(s: string): string {
    if s == [] then [] else (if s[0] == '\U{200B}' then [] else [s[0]]) + Visible(s[1..])
  }

  lemma {:induction false} VisibleConcat(a: string, b: string)
    ensures Visible(a + b) == Visible(a) + Visible(b)
  {
    if a == [] {
      assert a + b == b;
    } else {
      assert (a + b)[1..] == a[1..] + b;
      VisibleConcat(a[1..], b);
    }
  }

  lemma DefusedToken(t: string)
    requires IsToken(t)
    ensures Visible("<\U{200B}" + t[1..]) == Visible(t)
  {
    hide Visible;
    VisibleConcat("<\U{200B}", t[1..]);
    VisibleConcat("<", t[1..]);
    assert t == "<" + t[1..];
    OpenerVisible();
  }

  lemma OpenerVisible()
    ensures Visible("<\U{200B}") == "<" == Visible("<")
  {
    assert "<\U{200B}"[1..] == "\U{200B}" && "\U{200B}"[1..] == [] && "<"[1..] == [];
    assert Visible("\U{200B}") == [] + Visible([]);
  }

  lemma {:induction false} DefuseVisible(s: string, t: string)
    requires IsToken(t)
    ensures Visible(Defuse(s, t)) == Visible(s)
    decreases |s|
  {
    hide Visible;
    if s == [] {
    } else if t <= s {
      DefuseVisible(s[|t|..], t);
      DefusedToken(t);
      assert s == t + s[|t|..];
      VisibleConcat("<\U{200B}" + t[1..], Defuse(s[|t|..], t));
      VisibleConcat(t, s[|t|..]);
    } else {
      DefuseVisible(s[1..], t);
      assert s == [s[0]] + s[1..];
      VisibleConcat([s[0]], Defuse(s[1..], t));
      VisibleConcat([s[0]], s[1..]);
    }
  }

  /** Defusing only adds zero-width spaces, and none where there is no token. */
  lemma NeutralizeVisible(s: string)
    ensures Visible(Neutralize(s)) == Visible(s)
    ensures Defused(s) ==> Neutralize(s) == s
  {
    hide Defuse, Visible;
    if Defused(s) {
      NeutralizeDefused(s);
    }
    var s1 := Defuse(s, END_SUMMARY);
    var s2 := Defuse(s1, SUMMARY);
    var s3 := Defuse(s2, END_ANALYSIS);
    var s4 := Defuse(s3, ANALYSIS);
    var s5 := Defuse(s4, END_REQUEST);
    DefuseVisible(s, END_SUMMARY);
    DefuseVisible(s1, SUMMARY);
    DefuseVisible(s2, END_ANALYSIS);
    DefuseVisible(s3, ANALYSIS);
    DefuseVisible(s4, END_REQUEST);
    DefuseVisible(s5, REQUEST);
  }

  // ----- unwrapping the summary block

  /** The first and the last token of a text, seen from both ends. */
  lemma FirstToken(a: string, p: string, b: string)
    requires IsToken(p) && !Contains(a, p)
    ensures Find(a + p + b, p) == Some(|a|)
  {
    var s := a + p + b;
    OccursInConcat(a, p, b);
    forall i | 0 <= i < |a| ensures !OccursAt(s, p, i) {
      TokensApart(s, p, p, i, |a|);
      OccursShift(a, p + b, p, i);
      assert s == a + (p + b);
    }
    FindIs(s, p, |a|);
  }

  lemma LastToken(a: string, p: string, b: string)
    requires IsToken(p) && !Contains(b, p)
    ensures RFind(a + p + b, p) == Some(|a|)
  {
    var s := a + p + b;
    OccursInConcat(a, p, b);
    forall i | |a| < i ensures !OccursAt(s, p, i) {
      TokensApart(s, p, p, |a|, i);
      OccursShift(a + p, b, p, i);
    }
    var r := RFind(s, p);
    assert r.Some? && r.value == |a|;
  }

  /** The block between the first opener and the last closer is unwrapped; what stands
      before and after it is kept. */
  lemma WrapperUnwrapped(before: string, x: string, after: string)
    requires !Contains(before, SUMMARY) && !Contains(after, END_SUMMARY)
    ensures UnwrapSummary(before + SUMMARY + x + END_SUMMARY + after)
         == before + "Summary:\n" + StripScratchpad(Trim(x)) + after
  {
    hide OccursAt, Contains, Find, FindFrom, RFind, FindBack, Trim, StripScratchpad;
    var s, end := before + SUMMARY + x + END_SUMMARY + after, |before| + |SUMMARY| + |x|;
    FirstToken(before, SUMMARY, x + END_SUMMARY + after);
    assert s == before + SUMMARY + (x + END_SUMMARY + after);
    LastToken(before + SUMMARY + x, END_SUMMARY, after);
    assert s[..|before|] == before && s[|before| + |SUMMARY|..end] == x && s[end + |END_SUMMARY|..] == after;
  }

  /** Where no opener stands before a closer, nothing is unwrapped. */
  lemma NothingUnwrapped(s: string)
    requires forall i, j :: OccursAt(s, SUMMARY, i) && OccursAt(s, END_SUMMARY, j) ==> j <= i
    ensures UnwrapSummary(s) == s
  {
    hide Trim, StripScratchpad;
  }

  // ----- the scratchpad inside the block

  /** A body counts as numbered when a digit follows its heading and list characters. */
  lemma NumberedExactly(decoration: string, c: char, rest: string)
    requires forall k :: 0 <= k < |decoration| ==> decoration[k] in "#*-> \t"
    requires c !in "#*-> \t"
    ensures NumberedLead(decoration + [c] + rest) <==> '0' <= c <= '9'
    ensures !NumberedLead(decoration)
    decreases |decoration|
  {
    if decoration != [] {
      NumberedExactly(decoration[1..], c, rest);
      assert (decoration + [c] + rest)[1..] == decoration[1..] + [c] + rest;
    }
  }

  /** A body without a number in front loses everything up to its last `</analysis>`; one
      that has none loses nothing, and a numbered one nothing either. A summary opener
      that then leads goes as well. */
  lemma ScratchpadPeeled(inner: string, a: string, b: string)
    requires Trimmed(inner) && !NumberedLead(inner) && inner == a + END_ANALYSIS + b && !Contains(b, END_ANALYSIS)
    ensures StripScratchpad(inner) == Opened(TrimStart(b))
  {
    hide OccursAt, Contains, FindBack, LeadingSpaces, NumberedLead, Trim;
    TrimTrimmed(inner);
    LastToken(a, END_ANALYSIS, b);
    assert inner[|a| + |END_ANALYSIS|..] == b;
    OpenedIs(TrimStart(b));
  }

  lemma ScratchpadKept(inner: string)
    requires Trimmed(inner)
    ensures NumberedLead(inner) ==> StripScratchpad(inner) == inner
    ensures !NumberedLead(inner) && !Contains(inner, END_ANALYSIS) ==> StripScratchpad(inner) == Opened(inner)
  {
    hide OccursAt, Contains, FindBack, LeadingSpaces, NumberedLead, Trim;
    TrimTrimmed(inner);
    if NumberedLead(inner) {
      NumberedStart(inner);
    }
    OpenedIs(inner);
  }

  lemma OpenedIs(t: string)
    ensures Opened(t) == if SUMMARY <= t then TrimStart(t[|SUMMARY|..]) else t
  {
    hide LeadingSpaces;
    assert SUMMARY <= t <==> |t| >= 9 && t[..9] == SUMMARY;
  }

  /** `t` without a leading summary opener and the space after it. */
  function Opened(t: string): string {
    if |t| >= 9 && t[..9] == "<summary>" then TrimStart(t[9..]) else t
  }

  // ----- leading analysis blocks

  lemma TrimNothing(s: string)
    ensures Trim(s) == [] <==> AllSpace(s)
  {
    hide IsSpace, LeadingSpaces, TrailingSpaces, Trim;
    var lo, hi := TrimIsSlice(s);
    SlicesAreSpace(s, lo, hi);
    if AllSpace(s) {
      TrimPadded(s, [], []);
    }
    assert s + [] + [] == s;
  }

  /** An analysis opener leads when a summary opener is still to come, or when only
      space stands between it and the summary opener before it, or the start. */
  lemma LeadsExactly(s: string, start: nat)
    requires OccursAt(s, ANALYSIS, start)
    ensures !Contains(s, SUMMARY) ==> (IsLeading(s, start) <==> AllSpace(s[..start]))
    ensures forall sp: nat :: Find(s, SUMMARY) == Some(sp) && sp > start ==> IsLeading(s, start)
    ensures forall sp: nat :: Find(s, SUMMARY) == Some(sp) && sp < start ==>
              sp + 9 <= start && (IsLeading(s, start) <==> AllSpace(s[sp + 9..start]))
  {
    hide OccursAt, Contains, FindFrom, IsSpace, LeadingSpaces, TrailingSpaces, Trim;
    OccursBounds(s, ANALYSIS, start);
    TrimNothing(s[..start]);
    forall sp: nat | Find(s, SUMMARY) == Some(sp) && sp < start
      ensures sp + 9 <= start && (IsLeading(s, start) <==> AllSpace(s[sp + 9..start]))
    {
      TokensApart(s, SUMMARY, ANALYSIS, sp, start);
      TrimNothing(s[sp + 9..start]);
    }
  }

  /** A leading block is cut out, and the next one is looked at. */
  lemma BlockDropped(before: string, a: string, rest: string)
    requires !Contains(before, ANALYSIS) && !Contains(a, END_ANALYSIS)
    ensures var s := before + ANALYSIS + a + END_ANALYSIS + rest;
      OccursAt(s, ANALYSIS, |before|)
      && DropAnalysis(s) == if IsLeading(s, |before|) then DropAnalysis(before + rest) else s
  {
    hide OccursAt, Contains, FindFrom, IsLeading, UnclosedEnd;
    var s, block := before + ANALYSIS + a + END_ANALYSIS + rest, ANALYSIS + a + END_ANALYSIS + rest;
    assert s == before + ANALYSIS + (a + END_ANALYSIS + rest);
    FirstToken(before, ANALYSIS, a + END_ANALYSIS + rest);
    FirstCloser(ANALYSIS, a, END_ANALYSIS, rest);
    var rel := |ANALYSIS| + |a|;
    assert s[|before|..] == block && s[..|before|] == before;
    assert s[|before| + rel + |END_ANALYSIS|..] == rest;
  }

  /** Another token put in front adds no occurrence. */
  lemma NoneBehind(p: string, q: string, a: string)
    requires IsToken(p) && IsToken(q) && p[1] != q[1] && !Contains(a, q)
    ensures !Contains(p + a, q)
  {
    forall i ensures !OccursAt(p + a, q, i) {
      if OccursAt(p + a, q, i) {
        AfterOpener(p + a, p, q, i);
        OccursShift(p, a, q, i);
      }
    }
  }

  /** A leading block without an end goes up to the next summary opener, or takes all the
      rest with it, and nothing more is looked at. */
  lemma UnclosedDropped(before: string, a: string)
    requires !Contains(before, ANALYSIS) && !Contains(a, END_ANALYSIS)
    ensures var s := before + ANALYSIS + a;
      && OccursAt(s, ANALYSIS, |before|)
      && (!IsLeading(s, |before|) ==> DropAnalysis(s) == s)
      && (IsLeading(s, |before|) && !Contains(a, SUMMARY) ==> DropAnalysis(s) == before)
  {
    hide OccursAt, Contains, FindFrom, IsLeading;
    var s := before + ANALYSIS + a;
    FirstToken(before, ANALYSIS, a);
    NoneBehind(ANALYSIS, END_ANALYSIS, a);
    assert s[|before|..] == ANALYSIS + a && s[..|before|] == before && s[|s|..] == [];
    assert before + [] == before;
    if !Contains(a, SUMMARY) {
      NoneBehind(ANALYSIS, SUMMARY, a);
    }
  }

  lemma UnclosedToSummary(before: string, x: string, y: string)
    requires !Contains(before, ANALYSIS) && !Contains(x + SUMMARY + y, END_ANALYSIS) && !Contains(x, SUMMARY)
    ensures var s := before + ANALYSIS + (x + SUMMARY + y);
      OccursAt(s, ANALYSIS, |before|) && (IsLeading(s, |before|) ==> DropAnalysis(s) == before + SUMMARY + y)
  {
    hide OccursAt, Contains, FindFrom, IsLeading;
    var a := x + SUMMARY + y;
    var s := before + ANALYSIS + a;
    FirstToken(before, ANALYSIS, a);
    NoneBehind(ANALYSIS, END_ANALYSIS, a);
    NoneBehind(ANALYSIS, SUMMARY, x);
    FirstToken(ANALYSIS + x, SUMMARY, y);
    var n := |ANALYSIS| + |x|;
    assert ANALYSIS + x + SUMMARY + y == ANALYSIS + a;
    assert s[|before|..] == ANALYSIS + a && s[..|before|] == before && s[|before| + n..] == SUMMARY + y;
    assert before + (SUMMARY + y) == before + SUMMARY + y;
  }
}
