/** Cleaning the compaction model's raw output into the text that seeds the
    next turn: leading scratchpad is dropped, the summary block is unwrapped,
    control tokens left in the body are defused and blank lines are folded. */
module SummaryFormat {
  import opened Wrappers
  import opened Text

  const ANALYSIS := "<analysis>"
  const END_ANALYSIS := "</analysis>"
  const SUMMARY := "<summary>"
  const END_SUMMARY := "</summary>"
  const REQUEST := "<summary_request>"
  const END_REQUEST := "</summary_request>"
  const GAP := "\n\n\n"

  /** The tokens the next turn could read as live compaction tags. */
  const CONTROL_TOKENS := [END_SUMMARY, SUMMARY, END_ANALYSIS, ANALYSIS, END_REQUEST, REQUEST]

  ghost predicate Defused(s: string) {
    forall t <- CONTROL_TOKENS :: !Contains(s, t)
  }

  ghost predicate Clean(s: string) {
    Defused(s) && !Contains(s, GAP) && Trimmed(s)
  }

  /** A `<...>` token: one angle bracket at each end, no newline, no
      zero-width space. */
  predicate IsToken(t: string) {
    |t| >= 2 && t[0] == '<' && '\U{200B}' !in t && '\n' !in t
    && forall k :: 1 <= k < |t| ==> t[k] != '<'
  }

  // ----- the cleaning pipeline

  predicate IsLeading(s: string, start: nat)
    requires OccursAt(s, ANALYSIS, start)
  {
    match Find(s, SUMMARY)
    case Some(sp) =>
      if sp < start then
        TokensApart(s, SUMMARY, ANALYSIS, sp, start);
        Trim(s[sp + |SUMMARY|..start]) == []
      else start < sp
    case None => Trim(s[..start]) == []
  }

  /** Drop analysis blocks while the first one is still leading; an unclosed
      one takes everything up to the next summary opener with it. */
  function DropAnalysis(s: string): string
    decreases |s|
  {
    match Find(s, ANALYSIS)
    case None => s
    case Some(start) =>
      if !IsLeading(s, start) then s
      else
        match Find(s[start..], END_ANALYSIS)
        case Some(rel) => DropAnalysis(s[..start] + s[start + rel + |END_ANALYSIS|..])
        case None => s[..start] + s[UnclosedEnd(s, start)..]
  }

  function UnclosedEnd(s: string, start: nat): (n: nat)
    requires start <= |s|
    ensures start <= n <= |s|
  {
    match Find(s[start..], SUMMARY)
    case Some(rel) => start + rel
    case None => |s|
  }

  /** Remove the characters a markdown heading or list may lead with. */
  function TrimDecoration(s: string): string {
    if s != [] && s[0] in "#*-> \t" then TrimDecoration(s[1..]) else s
  }

  predicate NumberedLead(s: string) {
    var lead := TrimDecoration(s);
    lead != [] && IsDigit(lead[0])
  }

  function StripScratchpad(inner: string): string {
    var s := Trim(inner);
    var peeled :=
      if NumberedLead(s) then s
      else match RFind(s, END_ANALYSIS)
           case Some(pos) => TrimStart(s[pos + |END_ANALYSIS|..])
           case None => s;
    if SUMMARY <= peeled then TrimStart(peeled[|SUMMARY|..]) else peeled
  }

  function UnwrapSummary(s: string): string {
    match (Find(s, SUMMARY), RFind(s, END_SUMMARY))
    case (Some(start), Some(end)) =>
      if end > start then
        TokensApart(s, SUMMARY, END_SUMMARY, start, end);
        s[..start] + "Summary:\n" + StripScratchpad(Trim(s[start + |SUMMARY|..end])) + s[end + |END_SUMMARY|..]
      else s
    case _ => s
  }

  function Defuse(s: string, t: string): string
    requires IsToken(t)
  {
    Replace(s, t, "<\U{200B}" + t[1..])
  }

  function Neutralize(s: string): string {
    Defuse(Defuse(Defuse(Defuse(Defuse(Defuse(s, END_SUMMARY), SUMMARY), END_ANALYSIS), ANALYSIS), END_REQUEST), REQUEST)
  }

  function Collapse(s: string): string
    decreases |s|
  {
    if Find(s, GAP).None? then s
    else ReplaceShrinks(s, GAP, "\n\n"); Collapse(Replace(s, GAP, "\n\n"))
  }

  function Format(s: string): string {
    Trim(Collapse(Neutralize(UnwrapSummary(DropAnalysis(s)))))
  }

  // ----- the in-place form: every slice stays in range and every loop ends

  method FormatCompactSummary(summary: string) returns (result: string)
    ensures result == Format(summary) && Clean(result)
  {
    result := DropAnalysisInPlace(summary);
    result := UnwrapSummary(result);
    result := Neutralize(result);
    result := CollapseInPlace(result);
    result := Trim(result);
    FormatIsClean(summary);
  }

  method DropAnalysisInPlace(summary: string) returns (result: string)
    ensures result == DropAnalysis(summary)
  {
    hide OccursAt, Contains, Find, FindFrom, IsLeading, UnclosedEnd, Trim;
    result := summary;
    var at := Find(result, ANALYSIS);
    while at.Some?
      invariant at == Find(result, ANALYSIS)
      invariant DropAnalysis(result) == DropAnalysis(summary)
      decreases |result|
    {
      var start := at.value;
      if !IsLeading(result, start) {
        return;
      }
      OccursBounds(result, ANALYSIS, start);
      var close := Find(result[start..], END_ANALYSIS);
      if close.None? {
        result := result[..start] + result[UnclosedEnd(result, start)..];
        return;
      }
      OccursBounds(result[start..], END_ANALYSIS, close.value);
      result := result[..start] + result[start + close.value + |END_ANALYSIS|..];
      at := Find(result, ANALYSIS);
    }
  }

  method CollapseInPlace(s: string) returns (result: string)
    ensures result == Collapse(s)
  {
    hide OccursAt, Contains;
    result := s;
    while Find(result, GAP).Some?
      invariant Collapse(result) == Collapse(s)
      decreases |result|
    {
      ReplaceShrinks(result, GAP, "\n\n");
      result := Replace(result, GAP, "\n\n");
    }
  }

  // ----- tokens never overlap

  lemma TokensApart(s: string, p: string, q: string, i: nat, j: nat)
    requires IsToken(p) && IsToken(q) && i < j
    ensures OccursAt(s, p, i) && OccursAt(s, q, j) ==> i + |p| <= j
  {
    assert OccursAt(s, q, j) ==> s[j..j + |q|][0] == s[j] == '<';
    assert OccursAt(s, p, i) ==> forall k :: i < k < i + |p| ==> s[k] == s[i..i + |p|][k - i] == p[k - i];
  }

  lemma {:induction false} ReplaceShrinks(s: string, p: string, r: string)
    requires p != [] && |r| < |p|
    ensures |Replace(s, p, r)| <= |s|
    ensures Contains(s, p) ==> |Replace(s, p, r)| < |s|
    decreases |s|
  {
    if s == [] {
    } else if p <= s {
      ReplaceShrinks(s[|p|..], p, r);
    } else {
      ReplaceShrinks(s[1..], p, r);
      if i :| OccursAt(s, p, i) {
        OccursInPart(s, p, 1, |s|, i);
        assert s[1..|s|] == s[1..];
      }
    }
  }

  // ----- defusing

  /** Text without `<` at the front of a defused string was there before. */
  lemma {:induction false} DefusePrefix(s: string, t: string, u: string)
    requires IsToken(t) && '<' !in u && u <= Defuse(s, t)
    ensures u <= s
    decreases |s|
  {
    if u != [] {
      var d := Defuse(s, t);
      assert d[0] == u[0] && u[0] in u;
      DefusePrefix(s[1..], t, u[1..]);
      assert s == [s[0]] + s[1..];
    }
  }

  /** Defusing `t` removes every `t` and brings in no other token. */
  lemma {:induction false} DefuseOccurs(s: string, t: string, u: string, i: int)
    requires IsToken(t) && IsToken(u) && OccursAt(Defuse(s, t), u, i)
    ensures u != t && Contains(s, u)
    decreases |s|
  {
    var d, r := Defuse(s, t), "<\U{200B}" + t[1..];
    assert d[i] == u[0] == '<' && d[i + 1] == u[1];
    if t <= s {
      assert u[1] in u && d[1] == '\U{200B}';
      assert forall k :: 1 <= k < |r| ==> d[k] == r[k] && d[k] != '<';
      OccursShift(r, Defuse(s[|t|..], t), u, i);
      DefuseOccurs(s[|t|..], t, u, i - |r|);
      SliceContains(s, u, |t|, |s|);
      assert s[|t|..|s|] == s[|t|..];
    } else if i > 0 {
      OccursShift([s[0]], Defuse(s[1..], t), u, i);
      DefuseOccurs(s[1..], t, u, i - 1);
      SliceContains(s, u, 1, |s|);
      assert s[1..|s|] == s[1..];
    } else {
      assert u == d[..|u|] && u[1..] == d[1..|u|] == d[1..][..|u| - 1];
      DefusePrefix(s[1..], t, u[1..]);
      assert s == [s[0]] + s[1..] && u == [u[0]] + u[1..];
      assert OccursAt(s, u, 0);
    }
  }

  lemma DefuseRemoves(s: string, t: string)
    requires IsToken(t)
    ensures !Contains(Defuse(s, t), t)
    ensures forall u :: IsToken(u) && !Contains(s, u) ==> !Contains(Defuse(s, t), u)
  {
    forall u, i | IsToken(u) && OccursAt(Defuse(s, t), u, i)
      ensures u != t && Contains(s, u)
    {
      DefuseOccurs(s, t, u, i);
    }
  }

  lemma NeutralizeDefuses(s: string)
    ensures Defused(Neutralize(s))
  {
    var s1 := Defuse(s, END_SUMMARY);
    var s2 := Defuse(s1, SUMMARY);
    var s3 := Defuse(s2, END_ANALYSIS);
    var s4 := Defuse(s3, ANALYSIS);
    var s5 := Defuse(s4, END_REQUEST);
    DefuseRemoves(s, END_SUMMARY);
    DefuseRemoves(s1, SUMMARY);
    DefuseRemoves(s2, END_ANALYSIS);
    DefuseRemoves(s3, ANALYSIS);
    DefuseRemoves(s4, END_REQUEST);
    DefuseRemoves(s5, REQUEST);
  }

  lemma NeutralizeDefused(s: string)
    requires Defused(s)
    ensures Neutralize(s) == s
  {
    ReplaceAbsent(s, END_SUMMARY, "<\U{200B}" + END_SUMMARY[1..]);
    ReplaceAbsent(s, SUMMARY, "<\U{200B}" + SUMMARY[1..]);
    ReplaceAbsent(s, END_ANALYSIS, "<\U{200B}" + END_ANALYSIS[1..]);
    ReplaceAbsent(s, ANALYSIS, "<\U{200B}" + ANALYSIS[1..]);
    ReplaceAbsent(s, END_REQUEST, "<\U{200B}" + END_REQUEST[1..]);
    ReplaceAbsent(s, REQUEST, "<\U{200B}" + REQUEST[1..]);
  }

  // ----- folding blank lines

  /** Newline-free text at the front of the folded string was there before. */
  lemma {:induction false} FoldPrefix(s: string, u: string)
    requires '\n' !in u && u <= Replace(s, GAP, "\n\n")
    ensures u <= s
    decreases |s|
  {
    if u != [] {
      var d := Replace(s, GAP, "\n\n");
      assert d[0] == u[0] && u[0] in u;
      FoldPrefix(s[1..], u[1..]);
      assert s == [s[0]] + s[1..];
    }
  }

  lemma {:induction false} FoldOccurs(s: string, u: string, i: int)
    requires IsToken(u) && OccursAt(Replace(s, GAP, "\n\n"), u, i)
    ensures Contains(s, u)
    decreases |s|
  {
    var d := Replace(s, GAP, "\n\n");
    assert d[i] == u[0] == '<';
    if GAP <= s {
      OccursShift("\n\n", Replace(s[3..], GAP, "\n\n"), u, i);
      FoldOccurs(s[3..], u, i - 2);
      SliceContains(s, u, 3, |s|);
      assert s[3..|s|] == s[3..];
    } else if i > 0 {
      OccursShift([s[0]], Replace(s[1..], GAP, "\n\n"), u, i);
      FoldOccurs(s[1..], u, i - 1);
      SliceContains(s, u, 1, |s|);
      assert s[1..|s|] == s[1..];
    } else {
      assert u == d[..|u|] && u[1..] == d[1..|u|] == d[1..][..|u| - 1];
      FoldPrefix(s[1..], u[1..]);
      assert s == [s[0]] + s[1..] && u == [u[0]] + u[1..];
      assert OccursAt(s, u, 0);
    }
  }

  lemma FoldContains(s: string, u: string)
    requires IsToken(u)
    ensures Contains(Replace(s, GAP, "\n\n"), u) ==> Contains(s, u)
  {
    if i :| OccursAt(Replace(s, GAP, "\n\n"), u, i) {
      FoldOccurs(s, u, i);
    }
  }

  lemma ControlTokens()
    ensures forall t <- CONTROL_TOKENS :: IsToken(t)
  {
  }

  lemma FoldDefused(s: string)
    requires Defused(s)
    ensures Defused(Replace(s, GAP, "\n\n"))
  {
    hide Contains, IsToken;
    ControlTokens();
    forall t | t in CONTROL_TOKENS ensures !Contains(Replace(s, GAP, "\n\n"), t) {
      FoldContains(s, t);
    }
  }

  lemma {:induction false} CollapseDefused(s: string)
    requires Defused(s)
    ensures Defused(Collapse(s)) && !Contains(Collapse(s), GAP)
    decreases |s|
  {
    hide Defused, Contains;
    if Find(s, GAP).Some? {
      FoldDefused(s);
      ReplaceShrinks(s, GAP, "\n\n");
      CollapseDefused(Replace(s, GAP, "\n\n"));
    }
  }

  // ----- main results

  /** For every input the result carries no control token, no triple newline
      and no surrounding whitespace. */
  lemma FormatIsClean(s: string)
    ensures Clean(Format(s))
  {
    var n := Neutralize(UnwrapSummary(DropAnalysis(s)));
    NeutralizeDefuses(UnwrapSummary(DropAnalysis(s)));
    CollapseDefused(n);
    forall t | t in CONTROL_TOKENS ensures !Contains(Format(s), t) {
      TrimContains(Collapse(n), t);
    }
    TrimContains(Collapse(n), GAP);
  }

  /** A clean summary passes through unchanged, so cleaning is idempotent. */
  lemma FormatOfClean(s: string)
    requires Clean(s)
    ensures Format(s) == s
  {
    assert ANALYSIS in CONTROL_TOKENS && SUMMARY in CONTROL_TOKENS;
    NeutralizeDefused(s);
    TrimTrimmed(s);
  }

  lemma FormatIdempotent(s: string)
    ensures Format(Format(s)) == Format(s)
  {
    FormatIsClean(s);
    FormatOfClean(Format(s));
  }

  // ----- what the cleaning drops and what it keeps

  /** In `p + a + q + rest` the first `q` is the one after `a`. */
  lemma FirstCloser(p: string, a: string, q: string, rest: string)
    requires IsToken(p) && IsToken(q) && p[1] != q[1] && !Contains(a, q)
    ensures Find(p + a + q + rest, q) == Some(|p| + |a|)
    ensures Find(p + a + q + rest, p) == Some(0)
  {
    hide OccursAt, Find, FindFrom, Contains;
    var s, close := p + a + q + rest, |p| + |a|;
    OccursInConcat(p + a, q, rest);
    forall i | 0 <= i < close ensures !OccursAt(s, q, i) {
      NoEarlierCloser(s, p, a, q, rest, i);
    }
    FindIs(s, q, close);
    FoundAtStart(p, a + q + rest);
    assert s == p + (a + q + rest);
  }

  lemma FoundAtStart(p: string, b: string)
    ensures OccursAt(p + b, p, 0) && Find(p + b, p) == Some(0)
  {
    assert OccursAt(p + b, p, 0);
  }

  lemma NoEarlierCloser(s: string, p: string, a: string, q: string, rest: string, i: nat)
    requires IsToken(p) && IsToken(q) && p[1] != q[1] && !Contains(a, q)
    requires s == p + a + q + rest && i < |p| + |a|
    ensures !OccursAt(s, q, i)
  {
    var close := |p| + |a|;
    assert s[|p|..close] == a && s[1] == p[1];
    OccursInConcat(p + a, q, rest);
    assert OccursAt(s, p, 0);
    OccursChar(s, q, i, 1);
    TokensApart(s, q, q, i, close);
    if i > 0 {
      TokensApart(s, p, q, 0, i);
    }
    if |p| <= i && i + |q| <= close {
      OccursWithin(s, q, |p|, close, i);
    }
  }

  lemma OccursWithin(s: string, p: string, lo: nat, hi: nat, i: nat)
    requires lo <= i && i + |p| <= hi <= |s|
    ensures OccursAt(s, p, i) ==> Contains(s[lo..hi], p)
  {
    if OccursAt(s, p, i) {
      OccursInPart(s, p, lo, hi, i);
    }
  }

  lemma LeadingAtStart(s: string)
    requires OccursAt(s, ANALYSIS, 0)
    ensures IsLeading(s, 0)
  {
    OccursChar(s, ANALYSIS, 0, 1);
    OccursChar(s, SUMMARY, 0, 1);
    assert s[..0] == [];
  }

  /** A leading closed analysis block leaves no trace, whatever it quotes. */
  lemma LeadingAnalysisDropped(a: string, rest: string)
    requires !Contains(a, END_ANALYSIS)
    ensures Format(ANALYSIS + a + END_ANALYSIS + rest) == Format(rest)
  {
    var s, close := ANALYSIS + a + END_ANALYSIS + rest, |ANALYSIS| + |a|;
    FirstCloser(ANALYSIS, a, END_ANALYSIS, rest);
    LeadingAtStart(s);
    assert s[0..] == s && s[..0] == [];
    assert s[0 + close + |END_ANALYSIS|..] == rest;
    assert [] + rest == rest;
    assert DropAnalysis(s) == DropAnalysis(rest);
  }

  /** A summary that opens with a numbered section keeps its whole body, even
      one that quotes analysis or summary tags later on. */
  lemma NumberedSummaryKept(x: string)
    requires NumberedLead(Trim(x))
    ensures Format(SUMMARY + x + END_SUMMARY) == Trim(Collapse(Neutralize("Summary:\n" + Trim(x))))
  {
    var s := SUMMARY + x + END_SUMMARY;
    NumberedNotDropped(s, x);
    NumberedUnwrapped(s, x);
  }

  /** In `p + x + q` the first `p` opens and the last `q` closes. */
  lemma Enclosed(p: string, x: string, q: string)
    requires p != [] && q != []
    ensures var s := p + x + q;
      && Find(s, p) == Some(0) && RFind(s, q) == Some(|p| + |x|)
      && s[..0] == [] && s[|p|..|p| + |x|] == x && s[|p| + |x| + |q|..] == []
  {
    var s, end := p + x + q, |p| + |x|;
    OccursInConcat([], p, x + q);
    OccursInConcat(p + x, q, []);
    assert s == [] + p + (x + q) && s == p + x + q + [];
  }

  lemma NumberedUnwrapped(s: string, x: string)
    requires NumberedLead(Trim(x)) && s == SUMMARY + x + END_SUMMARY
    ensures UnwrapSummary(s) == "Summary:\n" + Trim(x)
  {
    Enclosed(SUMMARY, x, END_SUMMARY);
    UnwrapWhole(s, |SUMMARY| + |x|);
    NumberedKeptByPeel(Trim(x));
  }

  lemma UnwrapWhole(s: string, end: nat)
    requires Find(s, SUMMARY) == Some(0) && RFind(s, END_SUMMARY) == Some(end)
    requires |SUMMARY| <= end && s[end + |END_SUMMARY|..] == []
    ensures UnwrapSummary(s) == "Summary:\n" + StripScratchpad(Trim(s[|SUMMARY|..end]))
  {
    hide OccursAt, Contains, Find, FindFrom, RFind, FindBack, Trim, StripScratchpad;
    OccursBounds(s, END_SUMMARY, end);
    var body := StripScratchpad(Trim(s[|SUMMARY|..end]));
    assert s[..0] + "Summary:\n" + body + [] == "Summary:\n" + body;
  }

  lemma NumberedKeptByPeel(t: string)
    requires NumberedLead(t) && Trimmed(t)
    ensures StripScratchpad(t) == t
  {
    TrimTrimmed(t);
    NumberedStart(t);
  }

  lemma NumberedNotDropped(s: string, x: string)
    requires NumberedLead(Trim(x)) && s == SUMMARY + x + END_SUMMARY
    ensures DropAnalysis(s) == s
  {
    assert IsToken(SUMMARY) && IsToken(ANALYSIS);
    assert BodyPrecedes(s, |SUMMARY|, ANALYSIS) by { BodyFirst(SUMMARY, x, END_SUMMARY, ANALYSIS); }
    assert Find(s, SUMMARY) == Some(0) by { Enclosed(SUMMARY, x, END_SUMMARY); }
    NotDropped(s);
  }

  ghost predicate BodyPrecedes(s: string, n: nat, t: string) {
    forall start :: OccursAt(s, t, start) ==> n < start && Trim(s[n..start]) != []
  }

  lemma NotDropped(s: string)
    requires Find(s, SUMMARY) == Some(0) && BodyPrecedes(s, |SUMMARY|, ANALYSIS)
    ensures DropAnalysis(s) == s
  {
  }

  lemma BodyFirst(p: string, x: string, q: string, t: string)
    requires IsToken(p) && IsToken(t) && p[1] != t[1] && NumberedLead(Trim(x))
    ensures BodyPrecedes(p + x + q, |p|, t)
  {
    forall start | OccursAt(p + x + q, t, start)
      ensures |p| < start && Trim((p + x + q)[|p|..start]) != []
    {
      BodyBeforeAnalysis(p, x, q, t, start);
    }
  }

  /** No analysis opener precedes the first section number of the body. */
  lemma BodyBeforeAnalysis(p: string, x: string, q: string, t: string, start: nat)
    requires IsToken(p) && IsToken(t) && p[1] != t[1] && NumberedLead(Trim(x))
    requires OccursAt(p + x + q, t, start)
    ensures |p| < start && Trim((p + x + q)[|p|..start]) != []
  {
    hide IsSpace, Trim, NumberedLead;
    var s := p + x + q;
    var lo, hi := TrimIsSlice(x);
    NumberedStart(Trim(x));
    assert x[lo] == Trim(x)[0] && s[|p| + lo] == x[lo];
    AfterOpener(s, p, t, start);
    OccursChar(s, t, start, 0);
    assert forall k :: 0 <= k < lo ==> s[|p| + k] == x[k] && x[k] == x[..lo][k];
    if start < |p| + lo {
      BracketIsNotSpace(x[..lo], start - |p|);
    }
    var w := s[|p|..start];
    assert w[lo] == s[|p| + lo] && !IsSpace(w[lo]);
    TrimNonEmpty(w, lo);
  }

  lemma BracketIsNotSpace(w: string, k: nat)
    requires k < |w| && AllSpace(w)
    ensures w[k] != '<'
  {
  }

  lemma AfterOpener(s: string, p: string, t: string, start: nat)
    requires IsToken(p) && IsToken(t) && p[1] != t[1] && p <= s && OccursAt(s, t, start)
    ensures |p| <= start
  {
    assert OccursAt(s, p, 0);
    OccursChar(s, t, start, 1);
    TokensApart(s, p, t, 0, start);
  }

  lemma NumberedStart(t: string)
    requires NumberedLead(t)
    ensures t != [] && t[0] != '<' && !(SUMMARY <= t)
  {
  }

  lemma TrimNonEmpty(t: string, k: nat)
    requires k < |t| && !IsSpace(t[k])
    ensures Trim(t) != []
  {
    var lo, hi := TrimIsSlice(t);
    assert forall i :: 0 <= i < lo ==> t[i] == t[..lo][i];
    assert forall i :: hi <= i < |t| ==> t[i] == t[hi..][i - hi];
  }
}
