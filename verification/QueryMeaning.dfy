/** What extraction makes of a message, shape by shape, and which messages count as a
    human turn. */
module QueryMeaning {
  import opened Wrappers
  import opened Text
  import opened Conversation
  import opened UserQuery
  import opened CompactedHistory
  import SummaryFormat
  import SummaryMeaning

  predicate IsTagChar(c: char) { IsNameChar(c) || c == '/' || c == '>' }

  lemma Bracketed(front: string, tag: string)
    requires front == "" || front == "/"
    requires forall k :: 0 <= k < |tag| ==> IsNameChar(tag[k])
    ensures SummaryFormat.IsToken("<" + front + tag + ">")
  {
    hide IsNameChar;
    var t, inner := "<" + front + tag + ">", front + tag + ">";
    assert t == "<" + inner;
    forall k | 0 <= k < |inner| ensures IsTagChar(inner[k]) {
      assert k < |front| ==> inner[k] == front[k];
      assert |front| <= k < |inner| - 1 ==> inner[k] == tag[k - |front|];
    }
    TagCharsPlain(inner);
    assert forall k :: 1 <= k < |t| ==> t[k] == inner[k - 1];
  }

  lemma TagCharsPlain(s: string)
    requires forall k :: 0 <= k < |s| ==> IsTagChar(s[k])
    ensures forall k :: 0 <= k < |s| ==> s[k] != '<' && s[k] != '\n' && s[k] != '\U{200B}'
  {
  }

  lemma TagTokens(tag: string)
    requires IsSystemTag(tag)
    ensures SummaryFormat.IsToken(Open(tag)) && SummaryFormat.IsToken(Close(tag)) && Open(tag)[1] != Close(tag)[1]
  {
    Bracketed("", tag);
    Bracketed("/", tag);
    assert "<" + "" + tag + ">" == Open(tag) && "<" + "/" + tag + ">" == Close(tag);
    assert Open(tag)[1] == tag[0] && IsNameChar(tag[0]);
  }

  /** The first closed block of a tag goes from its first opener to the nearest closer,
      and what it leaves is looked at again. */
  lemma BlockStripped(before: string, x: string, after: string, tag: string)
    requires IsSystemTag(tag) && !Contains(before, Open(tag)) && !Contains(x, Close(tag))
    ensures StripTag(before + Open(tag) + x + Close(tag) + after, tag) == StripTag(before + after, tag)
  {
    hide OccursAt, Contains, FindFrom, Open, Close, IsSystemTag;
    var s, block := before + Open(tag) + x + Close(tag) + after, Open(tag) + x + Close(tag) + after;
    TagTokens(tag);
    SummaryMeaning.FirstToken(before, Open(tag), x + Close(tag) + after);
    assert s == before + Open(tag) + (x + Close(tag) + after);
    SummaryFormat.FirstCloser(Open(tag), x, Close(tag), after);
    var hi := |before| + |Open(tag)| + |x| + |Close(tag)|;
    assert s[|before|..] == block && s[..|before|] == before && s[hi..] == after;
    assert FirstBlock(s, tag) == Some((|before|, hi));
  }

  ghost predicate NoSystemBlock(text: string) {
    forall tag <- SYSTEM_TAGS :: !HasClosedBlock(text, tag)
  }

  lemma NothingStripped(text: string)
    requires NoSystemBlock(text)
    ensures StripSystemTags(text) == Trim(text)
  {
    hide HasClosedBlock, Trim;
    StripTagsFixed(text, SYSTEM_TAGS);
  }

  lemma OccursInTrim(s: string, p: string)
    ensures forall i, j :: OccursAt(Trim(s), OPEN_QUERY, i) && i <= j && OccursAt(Trim(s), p, j) ==>
              exists k, l :: k <= l && OccursAt(s, OPEN_QUERY, k) && OccursAt(s, p, l)
  {
    hide OccursAt, Trim;
    var lo, hi := TrimIsSlice(s);
    forall i, j | OccursAt(Trim(s), OPEN_QUERY, i) && i <= j && OccursAt(Trim(s), p, j)
      ensures exists k, l :: k <= l && OccursAt(s, OPEN_QUERY, k) && OccursAt(s, p, l)
    {
      OccursInSlice(s, OPEN_QUERY, lo, hi, i);
      OccursInSlice(s, p, lo, hi, j);
    }
  }

  /** A message with no closed block, of metadata or of the query, is the query itself. */
  lemma PlainExtracted(text: string)
    requires NoSystemBlock(text) && !HasClosedBlock(text, "user_query")
    ensures ExtractUserQuery(text) == Trim(text)
  {
    hide OccursAt, FindFrom, Trim, StripSystemTags;
    NothingStripped(text);
    OccursInTrim(text, CLOSE_QUERY);
    assert Open("user_query") == OPEN_QUERY && Close("user_query") == CLOSE_QUERY;
    var t := Trim(text);
    match Find(t, OPEN_QUERY)
    case None =>
    case Some(start) =>
      OccursBounds(t, OPEN_QUERY, start);
      CloserAfter(t, CLOSE_QUERY, start + |OPEN_QUERY|);
  }

  /** Of a message with a query block the block's content is extracted, from its first
      opener to the nearest closer, whatever stands around it. */
  lemma BlockExtracted(before: string, q: string, after: string)
    requires NoSystemBlock(before + OPEN_QUERY + q + CLOSE_QUERY + after)
    requires !Contains(before, OPEN_QUERY) && !Contains(q, CLOSE_QUERY)
    ensures ExtractUserQuery(before + OPEN_QUERY + q + CLOSE_QUERY + after) == Trim(q)
  {
    hide OccursAt, Contains, FindFrom, Trim, StripSystemTags, NoSystemBlock;
    var s := before + OPEN_QUERY + q + CLOSE_QUERY + after;
    NothingStripped(s);
    var lo, hi := TrimAround(before, q, after);
    var a, b := before[lo..], after[..hi];
    var t := a + OPEN_QUERY + q + CLOSE_QUERY + b;
    SliceContains(before, OPEN_QUERY, lo, |before|);
    assert before[lo..|before|] == a;
    SummaryMeaning.FirstToken(a, OPEN_QUERY, q + CLOSE_QUERY + b);
    assert t == a + OPEN_QUERY + (q + CLOSE_QUERY + b);
    var rest := t[|a| + |OPEN_QUERY|..];
    assert rest == q + CLOSE_QUERY + b;
    SummaryMeaning.FirstToken(q, CLOSE_QUERY, b);
    assert rest[..|q|] == q && t[|a| + |OPEN_QUERY|..|a| + |OPEN_QUERY| + |q|] == q;
  }

  /** Trimming a text reaches no further than its first and last solid characters. */
  lemma TrimAround(before: string, q: string, after: string) returns (lo: nat, hi: nat)
    ensures lo <= |before| && hi <= |after|
    ensures Trim(before + OPEN_QUERY + q + CLOSE_QUERY + after) == before[lo..] + OPEN_QUERY + q + CLOSE_QUERY + after[..hi]
  {
    hide Trim, AllSpace, IsSpace;
    var core := OPEN_QUERY + q + CLOSE_QUERY;
    var s := before + OPEN_QUERY + q + CLOSE_QUERY + after;
    assert s == before + core + after;
    var from, to := TrimIsSlice(s);
    Solid(s, from, to, |before|, |before| + |core| - 1);
    lo, hi := from, to - |before| - |core|;
    assert s[from..to] == before[lo..] + core + after[..hi];
    assert before[lo..] + core + after[..hi] == before[lo..] + OPEN_QUERY + q + CLOSE_QUERY + after[..hi];
  }

  lemma Solid(s: string, lo: nat, hi: nat, i: nat, j: nat)
    requires lo <= hi <= |s| && AllSpace(s[..lo]) && AllSpace(s[hi..]) && i <= j < |s|
    requires s[i] == '<' && s[j] == '>'
    ensures lo <= i && j < hi
  {
    SlicesAreSpace(s, lo, hi);
    assert !IsSpace(s[i]) && !IsSpace(s[j]);
  }

  /** A query is wrapped on lines of its own. */
  lemma WrapText(q: string)
    ensures WrapUserQuery(q) == "<user_query>\n" + q + "\n</user_query>"
  {
    assert OPEN_QUERY + ['\n'] == "<user_query>\n";
    assert ['\n'] + CLOSE_QUERY == "\n</user_query>";
    assert WrapUserQuery(q) == (OPEN_QUERY + ['\n']) + q + (['\n'] + CLOSE_QUERY);
  }

  /** Which items are human turns: user messages without a reason, with an image or a text
      that is more than a sentinel. */
  lemma HumanTurn(item: Item)
    ensures IsRealUserTurn(item) ==> item.User? && item.reason.None?
    ensures item.User? && item.reason.None? && (exists k :: 0 <= k < |item.parts| && item.parts[k].Image?) ==> IsRealUserTurn(item)
    ensures item.User? && item.reason.None? && (forall k :: 0 <= k < |item.parts| ==> item.parts[k].Text?) ==>
      var query := ExtractUserQuery(JoinTexts(item.parts));
      IsRealUserTurn(item) <==> query != "" && query != "__auto_continue__" && query != AUTO_CONTINUE_PROMPT
  {
    hide ExtractUserQuery, JoinTexts, AUTO_CONTINUE_PROMPT;
    if item.User? {
      assert forall k :: 0 <= k < |item.parts| ==> item.parts[k] in item.parts;
    }
  }
}
