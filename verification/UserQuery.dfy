/** The wrapper around a human query and its extraction from message text
    that may also carry runtime metadata blocks. */
module UserQuery {
  import opened Wrappers
  import opened Text

  const OPEN_QUERY := "<user_query>"
  const CLOSE_QUERY := "</user_query>"

  /** Metadata tags the runtime injects. */
  const SYSTEM_TAGS := [
    "user_info", "project_layout", "git_status", "fork-context", "system-reminder", "agent-memory",
    "system_reminder", "background_context", "command-name", "command-message", "command-args", "rules"
  ]

  const AUTO_CONTINUE_PROMPT := "Continue the conversation from where it left off without asking the user any further questions. Resume directly - do not acknowledge the summary, do not recap what was happening, do not preface with \"I'll continue\" or similar.\nPick up the last task as if the break never happened."

  function Open(tag: string): string { "<" + tag + ">" }

  function Close(tag: string): string { "</" + tag + ">" }

  predicate IsNameChar(c: char) { 'a' <= c <= 'z' || c == '_' || c == '-' }

  /** A tag name that the query wrapper neither contains nor overlaps. */
  predicate IsSystemTag(tag: string) {
    tag != [] && tag != "user_query" && forall k :: 0 <= k < |tag| ==> IsNameChar(tag[k])
  }

  // ----- stripping metadata

  /** The block from the leftmost opener of `tag` to its nearest closer. */
  function FirstBlock(text: string, tag: string): (r: Option<(nat, nat)>)
    ensures r.Some? ==> r.value.0 < r.value.1 <= |text|
  {
    match Find(text, Open(tag))
    case None => None
    case Some(start) =>
      match Find(text[start..], Close(tag))
      case None => None
      case Some(rel) => Some((start, start + rel + |Close(tag)|))
  }

  /** Remove closed `tag` blocks, leftmost opener first, until the leftmost
      opener has no closer after it. */
  function StripTag(text: string, tag: string): (r: string)
    ensures |r| <= |text|
    decreases |text|
  {
    match FirstBlock(text, tag)
    case None => text
    case Some((lo, hi)) => StripTag(text[..lo] + text[hi..], tag)
  }

  function StripTags(text: string, tags: seq<string>): (r: string)
    ensures |r| <= |text|
    decreases |tags|
  {
    if tags == [] then text else StripTags(StripTag(text, tags[0]), tags[1..])
  }

  function StripSystemTags(text: string): string {
    Trim(StripTags(text, SYSTEM_TAGS))
  }

  method StripTagInPlace(text: string, tag: string) returns (result: string)
    ensures result == StripTag(text, tag)
  {
    hide OccursAt;
    result := text;
    var at := Find(result, Open(tag));
    while at.Some?
      invariant at == Find(result, Open(tag)) && StripTag(result, tag) == StripTag(text, tag)
      decreases |result|
    {
      var start := at.value;
      OccursBounds(result, Open(tag), start);
      var close := Find(result[start..], Close(tag));
      if close.None? {
        assert FirstBlock(result, tag) == None;
        return;
      }
      OccursBounds(result[start..], Close(tag), close.value);
      var end := start + close.value + |Close(tag)|;
      assert FirstBlock(result, tag) == Some((start, end));
      result := result[..start] + result[end..];
      at := Find(result, Open(tag));
    }
  }

  method StripAllSystemTags(text: string) returns (result: string)
    ensures result == StripSystemTags(text)
  {
    result := StripEachTag(text, SYSTEM_TAGS);
    result := Trim(result);
  }

  method StripEachTag(text: string, tags: seq<string>) returns (result: string)
    ensures result == StripTags(text, tags)
  {
    result := text;
    for k := 0 to |tags|
      invariant StripTags(result, tags[k..]) == StripTags(text, tags)
    {
      assert tags[k..][1..] == tags[k + 1..];
      result := StripTagInPlace(result, tags[k]);
    }
  }

  // ----- extracting and wrapping

  function ExtractUserQuery(text: string): string {
    var stripped := StripSystemTags(text);
    match Find(stripped, OPEN_QUERY)
    case None => stripped
    case Some(start) =>
      var content := start + |OPEN_QUERY|;
      match Find(stripped[content..], CLOSE_QUERY)
      case None => stripped
      case Some(end) => Trim(stripped[content..content + end])
  }

  function WrapUserQuery(text: string): string {
    Wrapped(OPEN_QUERY, text, CLOSE_QUERY)
  }

  predicate IsSyntheticQuery(text: string) {
    text == [] || text == "__auto_continue__" || text == AUTO_CONTINUE_PROMPT
  }

  // ----- when extraction undoes wrapping

  ghost predicate HasClosedBlock(s: string, tag: string) {
    exists i, j :: i <= j && OccursAt(s, Open(tag), i) && OccursAt(s, Close(tag), j)
  }

  /** What a caller can check of a query before wrapping it. */
  ghost predicate Wrappable(q: string) {
    && Trimmed(q)
    && !Contains(q, CLOSE_QUERY)
    && forall tag <- SYSTEM_TAGS :: !HasClosedBlock(q, tag)
  }

  lemma SystemTagsAreTags()
    ensures forall tag <- SYSTEM_TAGS :: IsSystemTag(tag)
  {
  }

  lemma FirstBlockExists(s: string, tag: string)
    ensures FirstBlock(s, tag).Some? <==> HasClosedBlock(s, tag)
  {
    match Find(s, Open(tag))
    case None =>
    case Some(start) =>
      CloserAfter(s, Close(tag), start);
      match Find(s[start..], Close(tag))
      case None =>
      case Some(rel) =>
        assert OccursAt(s, Close(tag), start + rel);
        assert HasClosedBlock(s, tag);
  }

  /** Stripping leaves text alone exactly when it has no closed block. */
  lemma StripTagFixed(s: string, tag: string)
    ensures StripTag(s, tag) == s <==> !HasClosedBlock(s, tag)
    ensures StripTag(s, tag) == s || |StripTag(s, tag)| < |s|
  {
    FirstBlockExists(s, tag);
  }

  lemma CloserAfter(s: string, p: string, start: nat)
    requires start <= |s|
    ensures match Find(s[start..], p)
            case None => forall j :: start <= j ==> !OccursAt(s, p, j)
            case Some(rel) => OccursAt(s, p, start + rel)
  {
    forall j | start <= j ensures OccursAt(s, p, j) ==> Contains(s[start..], p) {
      OccursInTail(s, p, start, j - start);
    }
    match Find(s[start..], p)
    case None =>
    case Some(rel) => OccursInTail(s, p, start, rel);
  }

  lemma {:induction false} StripTagsFixed(s: string, tags: seq<string>)
    ensures StripTags(s, tags) == s <==> forall tag <- tags :: !HasClosedBlock(s, tag)
  {
    if tags != [] {
      StripTagFixed(s, tags[0]);
      if StripTag(s, tags[0]) == s {
        StripTagsFixed(s, tags[1..]);
        assert tags == [tags[0]] + tags[1..];
      } else {
        assert tags[0] in tags && HasClosedBlock(s, tags[0]);
      }
    }
  }

  function Wrapped(a: string, q: string, b: string): string {
    a + ['\n'] + q + ['\n'] + b
  }

  /** Wrapping commutes with stripping: a block cannot reach across the
      newlines that separate the query from its wrapper. */
  lemma {:induction false} StripTagWrapped(a: string, q: string, b: string, tag: string)
    requires IsSystemTag(tag)
    requires !Contains(a, Open(tag)) && !Contains(b, Open(tag)) && !Contains(b, Close(tag))
    ensures StripTag(Wrapped(a, q, b), tag) == Wrapped(a, StripTag(q, tag), b)
    decreases |q|
  {
    hide Wrapped, OccursAt, FirstBlock;
    BlockWrapped(a, q, b, tag);
    match FirstBlock(q, tag)
    case None =>
    case Some((lo, hi)) =>
      var w, n, cut := Wrapped(a, q, b), |a| + 1, q[..lo] + q[hi..];
      calc {
        StripTag(w, tag);
        StripTag(w[..n + lo] + w[n + hi..], tag);
        { CutWrapped(a, q, b, lo, hi); }
        StripTag(Wrapped(a, cut, b), tag);
        { StripTagWrapped(a, cut, b, tag); }
        Wrapped(a, StripTag(cut, tag), b);
      }
  }

  lemma BlockWrapped(a: string, q: string, b: string, tag: string)
    requires IsSystemTag(tag)
    requires !Contains(a, Open(tag)) && !Contains(b, Open(tag)) && !Contains(b, Close(tag))
    ensures FirstBlock(Wrapped(a, q, b), tag) ==
            match FirstBlock(q, tag)
            case None => None
            case Some((lo, hi)) => Some((|a| + 1 + lo, |a| + 1 + hi))
  {
    hide Wrapped;
    FindWrapped(a, q, b, Open(tag));
    match Find(q, Open(tag))
    case None =>
    case Some(start) => FindSuffixed(a, q, b, Close(tag), start);
  }

  lemma CutWrapped(a: string, q: string, b: string, lo: nat, hi: nat)
    requires lo <= hi <= |q|
    ensures var w, n := Wrapped(a, q, b), |a| + 1;
            w[..n + lo] + w[n + hi..] == Wrapped(a, q[..lo] + q[hi..], b)
  {
    var w, n := Wrapped(a, q, b), |a| + 1;
    assert w[..n + lo] == a + "\n" + q[..lo];
    assert w[n + hi..] == q[hi..] + "\n" + b;
  }

  /** A newline-free pattern absent from both wrappers is found in wrapped
      text just where it is found in the text. */
  lemma FindWrapped(a: string, q: string, b: string, p: string)
    requires p != [] && '\n' !in p && !Contains(a, p) && !Contains(b, p)
    ensures Find(Wrapped(a, q, b), p) ==
            match Find(q, p) case None => None case Some(i) => Some(|a| + 1 + i)
  {
    hide Wrapped, OccursAt;
    WrappedOccurs(a, q, b, p);
    FindShift(Wrapped(a, q, b), q, p, |a| + 1);
  }

  lemma WrappedOccurs(a: string, q: string, b: string, p: string)
    requires p != [] && '\n' !in p && !Contains(a, p) && !Contains(b, p)
    ensures forall i :: OccursAt(Wrapped(a, q, b), p, i) == OccursAt(q, p, i - (|a| + 1))
  {
    forall i ensures OccursAt(Wrapped(a, q, b), p, i) == OccursAt(q, p, i - (|a| + 1)) {
      assert !OccursAt(a, p, i) && !OccursAt(b, p, i - |a| - |q| - 2);
      OccursAcrossTwo(Wrapped(a, q, b), a, '\n', q, b, p, i);
    }
  }

  lemma FindSuffixed(a: string, q: string, b: string, p: string, start: nat)
    requires p != [] && '\n' !in p && !Contains(b, p) && start <= |q|
    ensures Find(Wrapped(a, q, b)[|a| + 1 + start..], p) == Find(q[start..], p)
  {
    var t := q[start..];
    assert Wrapped(a, q, b)[|a| + 1 + start..] == t + ['\n'] + b;
    forall i ensures OccursAt(t + ['\n'] + b, p, i) == OccursAt(t, p, i - 0) {
      OccursAcross(t, '\n', b, p, i);
    }
    FindShift(t + ['\n'] + b, t, p, 0);
  }

  /** No system tag occurs in either half of the query wrapper. */
  lemma WrapperHasNoTag(tag: string)
    requires IsSystemTag(tag)
    ensures !Contains(OPEN_QUERY, Open(tag)) && !Contains(CLOSE_QUERY, Open(tag)) && !Contains(CLOSE_QUERY, Close(tag))
  {
    OnlyItself(OPEN_QUERY, Open(tag));
    OnlyItself(CLOSE_QUERY, Open(tag));
    OnlyItself(CLOSE_QUERY, Close(tag));
    assert OPEN_QUERY == "<" + "user_query" + ">" && CLOSE_QUERY == "</" + "user_query" + ">";
    BracketsInjective("<", "user_query", tag);
    BracketsInjective("</", "user_query", tag);
    assert CLOSE_QUERY[1] == '/' && Open(tag)[1] == tag[0];
  }

  lemma BracketsInjective(open: string, a: string, b: string)
    ensures open + a + ">" == open + b + ">" ==> a == b
  {
    assert (open + a + ">")[|open|..|open| + |a|] == a;
    assert (open + b + ">")[|open|..|open| + |b|] == b;
  }

  lemma OnlyItself(w: string, p: string)
    requires |p| >= 2 && p[0] == '<' && p[|p| - 1] == '>'
    requires |w| >= 2 && (forall k :: 1 <= k < |w| ==> w[k] != '<') && (forall k :: 0 <= k < |w| - 1 ==> w[k] != '>')
    ensures Contains(w, p) ==> w == p
  {
    if i :| OccursAt(w, p, i) {
      WrapperAt(w, p, i);
    }
  }

  /** A one-bracket-pair token occurs in another only as the whole of it. */
  lemma WrapperAt(w: string, p: string, i: int)
    requires |p| >= 2 && p[0] == '<' && p[|p| - 1] == '>'
    requires |w| >= 2 && (forall k :: 1 <= k < |w| ==> w[k] != '<') && (forall k :: 0 <= k < |w| - 1 ==> w[k] != '>')
    ensures OccursAt(w, p, i) ==> w == p
  {
    assert OccursAt(w, p, i) ==> w[i..i + |p|][0] == w[i] && w[i..i + |p|][|p| - 1] == w[i + |p| - 1];
    assert OccursAt(w, p, i) ==> i == 0 && |p| == |w|;
  }

  lemma {:induction false} StripTagsWrapped(q: string, tags: seq<string>)
    requires forall tag <- tags :: IsSystemTag(tag)
    ensures StripTags(WrapUserQuery(q), tags) == WrapUserQuery(StripTags(q, tags))
    decreases |tags|
  {
    if tags != [] {
      WrapperHasNoTag(tags[0]);
      StripTagWrapped(OPEN_QUERY, q, CLOSE_QUERY, tags[0]);
      assert WrapUserQuery(q) == Wrapped(OPEN_QUERY, q, CLOSE_QUERY);
      StripTagsWrapped(StripTag(q, tags[0]), tags[1..]);
    }
  }

  /** The text before the first closer of the query wrapper. */
  function BeforeCloser(s: string): string {
    match Find(s, CLOSE_QUERY)
    case None => s
    case Some(end) => s[..end]
  }

  /** What extraction makes of any wrapped text. */
  lemma ExtractWrapped(q: string)
    ensures ExtractUserQuery(WrapUserQuery(q)) == Trim(BeforeCloser(StripTags(q, SYSTEM_TAGS)))
  {
    var inner := StripTags(q, SYSTEM_TAGS);
    SystemTagsAreTags();
    StripTagsWrapped(q, SYSTEM_TAGS);
    WrappedTrimmed(inner);
    ExtractInner(WrapUserQuery(inner), inner);
  }

  lemma WrappedTrimmed(q: string)
    ensures Trim(WrapUserQuery(q)) == WrapUserQuery(q)
  {
    TrimTrimmed(WrapUserQuery(q));
  }

  lemma ExtractInner(w: string, q: string)
    requires w == OPEN_QUERY + "\n" + q + "\n" + CLOSE_QUERY
    ensures Find(w, OPEN_QUERY) == Some(0)
    ensures Find(w[|OPEN_QUERY|..], CLOSE_QUERY).Some?
    ensures Trim(w[|OPEN_QUERY|..|OPEN_QUERY| + Find(w[|OPEN_QUERY|..], CLOSE_QUERY).value]) == Trim(BeforeCloser(q))
  {
    hide Trim, FindFrom, LeadingSpaces, TrailingSpaces;
    var rest := w[|OPEN_QUERY|..];
    assert w == OPEN_QUERY + ("\n" + q + "\n" + CLOSE_QUERY);
    assert OccursAt(w, OPEN_QUERY, 0);
    assert rest == "\n" + q + "\n" + CLOSE_QUERY;
    FirstCloserIn(rest, q, CLOSE_QUERY);
    var end := Find(rest, CLOSE_QUERY).value;
    assert w[|OPEN_QUERY|..|OPEN_QUERY| + end] == rest[..end];
    BetweenTags(rest, q, end);
  }

  lemma BetweenTags(rest: string, q: string, end: nat)
    requires rest == "\n" + q + "\n" + CLOSE_QUERY
    requires end == match Find(q, CLOSE_QUERY) case None => |q| + 2 case Some(e) => e + 1
    requires Find(q, CLOSE_QUERY).Some? ==> Find(q, CLOSE_QUERY).value <= |q|
    ensures end <= |rest| && Trim(rest[..end]) == Trim(BeforeCloser(q))
  {
    hide Trim, Find, LeadingSpaces, TrailingSpaces;
    match Find(q, CLOSE_QUERY)
    case None =>
      assert rest[..end] == "\n" + q + "\n";
      TrimPadding("\n", q, "\n");
    case Some(e) =>
      assert rest[..end] == "\n" + q[..e];
      TrimPadding("\n", q[..e], "");
      assert "\n" + q[..e] + "" == "\n" + q[..e];
  }

  lemma FirstCloserIn(rest: string, q: string, p: string)
    requires p != [] && '\n' !in p && rest == "\n" + q + "\n" + p
    ensures Find(rest, p) == match Find(q, p) case None => Some(|q| + 2) case Some(e) => Some(e + 1)
  {
    assert rest == "\n" + (q + "\n" + p) == [] + "\n" + (q + "\n" + p);
    forall i ensures OccursAt(rest, p, i) <==> OccursAt(q, p, i - 1) || i == |q| + 2 {
      OccursAcross([], '\n', q + "\n" + p, p, i);
      OccursAcross(q, '\n', p, p, i - 1);
      assert OccursAt(p, p, i - 1 - |q| - 1) <==> i == |q| + 2;
    }
    match Find(q, p)
    case None => assert OccursAt(rest, p, |q| + 2);
    case Some(e) => assert OccursAt(rest, p, e + 1);
  }

  /** Whitespace around text does not change how it trims. */
  lemma TrimPadding(pad: string, q: string, end: string)
    requires AllSpace(pad) && AllSpace(end)
    ensures Trim(pad + q + end) == Trim(q)
  {
    hide Trim, LeadingSpaces, TrailingSpaces;
    var lo, hi := TrimIsSlice(q);
    var core, a, b := q[lo..hi], pad + q[..lo], q[hi..] + end;
    PaddingIsSpace(pad, q[..lo]);
    PaddingIsSpace(q[hi..], end);
    TrimPadded(a, core, b);
    Regroup(pad, q[..lo], core, q[hi..], end);
    assert q == q[..lo] + core + q[hi..];
  }

  lemma Regroup(a: string, b: string, c: string, d: string, e: string)
    ensures a + (b + c + d) + e == (a + b) + c + (d + e)
  {
  }

  lemma PaddingIsSpace(a: string, b: string)
    requires AllSpace(a) && AllSpace(b)
    ensures AllSpace(a + b)
  {
  }

  /** Extraction undoes wrapping exactly for wrappable queries. */
  lemma ExtractUndoesWrap(q: string)
    ensures ExtractUserQuery(WrapUserQuery(q)) == q <==> Wrappable(q)
  {
    ExtractWrapped(q);
    StrippedFixed(q, SYSTEM_TAGS);
  }

  lemma StrippedFixed(q: string, tags: seq<string>)
    ensures Trim(BeforeCloser(StripTags(q, tags))) == q <==>
            Trimmed(q) && !Contains(q, CLOSE_QUERY) && forall tag <- tags :: !HasClosedBlock(q, tag)
  {
    StripTagsFixed(q, tags);
    StripTagsShorter(q, tags);
    ExtractFixed(q, StripTags(q, tags));
  }

  lemma ExtractFixed(q: string, inner: string)
    requires inner == q || |inner| < |q|
    ensures Trim(BeforeCloser(inner)) == q <==> Trimmed(q) && inner == q && !Contains(q, CLOSE_QUERY)
  {
    assert |Trim(BeforeCloser(inner))| <= |BeforeCloser(inner)| <= |inner|;
    if inner == q && Find(q, CLOSE_QUERY).None? && Trimmed(q) {
      TrimTrimmed(q);
    }
  }

  lemma {:induction false} StripTagsShorter(s: string, tags: seq<string>)
    ensures StripTags(s, tags) == s || |StripTags(s, tags)| < |s|
    decreases |tags|
  {
    if tags != [] {
      StripTagFixed(s, tags[0]);
      StripTagsShorter(StripTag(s, tags[0]), tags[1..]);
    }
  }

  /** Extraction always yields trimmed text. */
  lemma ExtractTrimmed(text: string)
    ensures Trimmed(ExtractUserQuery(text))
  {
  }

  /** Extracting from wrapped text returns it, or something shorter. */
  lemma ExtractShrinks(q: string)
    ensures var again := ExtractUserQuery(WrapUserQuery(q)); again == q || |again| < |q|
  {
    hide ExtractUserQuery, WrapUserQuery;
    ExtractWrapped(q);
    StripTagsShorter(q, SYSTEM_TAGS);
    TrimShorter(BeforeCloser(StripTags(q, SYSTEM_TAGS)));
  }

  lemma TrimShorter(s: string)
    ensures Trim(s) == s || |Trim(s)| < |s|
  {
    var lo, hi := TrimIsSlice(s);
  }

  lemma ExtractEmpty()
    ensures ExtractUserQuery("") == ""
  {
    hide StripTags;
    assert |StripTags("", SYSTEM_TAGS)| == 0;
    assert Trim("") == "";
    assert Find("", OPEN_QUERY).None?;
  }

  lemma EmptyWrappable()
    ensures Wrappable("")
  {
    hide HasClosedBlock;
    forall tag <- SYSTEM_TAGS ensures !HasClosedBlock("", tag) {
      NoBlockInEmpty(tag);
    }
  }

  lemma NoBlockInEmpty(tag: string)
    ensures !HasClosedBlock("", tag)
  {
  }
}
