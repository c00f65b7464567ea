/** Shrinking a verbatim conversation to a token budget: the newest whole
    turns are kept, or the last unit is truncated in place. */
module BudgetFit {
  import opened Wrappers
  import opened Text
  import opened Conversation
  import opened Pairing

  // ----- truncating text to bytes

  const MARKER_RESERVE := 64

  const MARKER_OPEN := "\n[... truncated "
  const MARKER_CLOSE := " bytes to fit the compaction window ...]"

  function Marker(dropped: nat): string {
    MARKER_OPEN + Decimal(dropped) + MARKER_CLOSE
  }

  /** Number of leading characters whose UTF-8 form fits `bytes`. */
  function CutPoint(s: string, bytes: nat): (k: nat)
    ensures k <= |s| && Utf8Len(s[..k]) <= bytes
    ensures k < |s| ==> Utf8Len(s[..k]) + Utf8Bytes(s[k]) > bytes
  {
    if s == [] || Utf8Bytes(s[0]) > bytes then 0
    else
      var k := CutPoint(s[1..], bytes - Utf8Bytes(s[0]));
      assert s[..k + 1][1..] == s[1..][..k];
      k + 1
  }

  function Truncated(s: string, maxBytes: nat): Option<string> {
    if Utf8Len(s) <= maxBytes then None
    else
      var k := CutPoint(s, if maxBytes < MARKER_RESERVE then 0 else maxBytes - MARKER_RESERVE);
      Utf8Split(s, k);
      Some(s[..k] + Marker(Utf8Len(s) - Utf8Len(s[..k])))
  }

  /** Number of bytes that truncation drops. */
  function Dropped(s: string, maxBytes: nat): nat {
    if Utf8Len(s) <= maxBytes then 0
    else Utf8Len(s[CutPoint(s, if maxBytes < MARKER_RESERVE then 0 else maxBytes - MARKER_RESERVE)..])
  }

  lemma Utf8Split(s: string, k: nat)
    requires k <= |s|
    ensures Utf8Len(s) == Utf8Len(s[..k]) + Utf8Len(s[k..])
  {
    Utf8LenConcat(s[..k], s[k..]);
    assert s[..k] + s[k..] == s;
  }

  /** Character index of byte offset `b`, when `b` is a character boundary. */
  function BoundaryIndex(s: string, b: nat): (r: Option<nat>)
    ensures r.Some? ==> r.value <= |s| && Utf8Len(s[..r.value]) == b
  {
    if b == 0 then Some(0)
    else if s == [] || Utf8Bytes(s[0]) > b then None
    else
      match BoundaryIndex(s[1..], b - Utf8Bytes(s[0]))
      case None => None
      case Some(k) => assert s[..k + 1][1..] == s[1..][..k]; Some(k + 1)
  }

  lemma {:induction false} PrefixIsBoundary(s: string, k: nat)
    requires k <= |s|
    ensures BoundaryIndex(s, Utf8Len(s[..k])) == Some(k)
  {
    if k > 0 {
      assert s[..k][1..] == s[1..][..k - 1];
      PrefixIsBoundary(s[1..], k - 1);
    }
  }

  lemma PrefixBytesGrow(s: string, j: nat, k: nat)
    requires j < k <= |s|
    ensures Utf8Len(s[..j]) + Utf8Bytes(s[j]) <= Utf8Len(s[..k])
  {
    Utf8LenConcat(s[..j], s[j..k]);
    assert s[..k] == s[..j] + s[j..k];
    assert s[j..k][0] == s[j];
  }

  method TruncateTextToBytes(s: string, maxBytes: nat) returns (r: Option<string>)
    ensures r == Truncated(s, maxBytes)
  {
    if Utf8Len(s) <= maxBytes {
      return None;
    }
    var keep := if maxBytes < MARKER_RESERVE then 0 else maxBytes - MARKER_RESERVE;
    var end := keep;
    ghost var k := CutPoint(s, keep);
    PrefixIsBoundary(s, k);
    while end > 0 && BoundaryIndex(s, end).None?
      invariant Utf8Len(s[..k]) <= end <= keep
    {
      end := end - 1;
    }
    var at := BoundaryIndex(s, end).value;
    if k < at {
      PrefixBytesGrow(s, k, at);
    } else if at < k {
      PrefixBytesGrow(s, at, k);
    }
    Utf8Split(s, at);
    r := Some(s[..at] + Marker(Utf8Len(s) - end));
  }

  lemma MarkerLength(dropped: nat)
    ensures Utf8Len(Marker(dropped)) == 56 + |Decimal(dropped)|
  {
    hide Utf8Len, Decimal;
    DigitsAscii(Decimal(dropped));
    AsciiLength(MARKER_OPEN);
    AsciiLength(MARKER_CLOSE);
    Utf8LenConcat(MARKER_OPEN, Decimal(dropped));
    Utf8LenConcat(MARKER_OPEN + Decimal(dropped), MARKER_CLOSE);
  }

  /** A truncated text is a prefix and a marker that names the exact number of
      bytes dropped; it fits when the limit holds the reserve and fewer than
      ten to the eighth bytes are dropped. */
  lemma TruncatedText(s: string, maxBytes: nat) returns (k: nat, dropped: nat)
    requires Utf8Len(s) > maxBytes
    ensures k <= |s| && dropped == Utf8Len(s[k..]) == Dropped(s, maxBytes)
    ensures k == CutPoint(s, if maxBytes < MARKER_RESERVE then 0 else maxBytes - MARKER_RESERVE)
    ensures Truncated(s, maxBytes) == Some(s[..k] + Marker(dropped))
    ensures Utf8Len(Truncated(s, maxBytes).value) == Utf8Len(s) - dropped + 56 + |Decimal(dropped)|
    ensures maxBytes >= MARKER_RESERVE && dropped < Pow10(8) ==> Utf8Len(Truncated(s, maxBytes).value) <= maxBytes
    ensures maxBytes >= MARKER_RESERVE && k < |s| ==> Utf8Len(s[..k]) + Utf8Bytes(s[k]) > maxBytes - MARKER_RESERVE
  {
    hide Pow10, Marker;
    k := CutPoint(s, if maxBytes < MARKER_RESERVE then 0 else maxBytes - MARKER_RESERVE);
    Utf8Split(s, k);
    dropped := Utf8Len(s[k..]);
    MarkerLength(dropped);
    Utf8LenConcat(s[..k], Marker(dropped));
    DecimalLength(dropped, 8);
  }

  // ----- truncating items

  function TruncateTo(text: string, maxBytes: nat): string {
    match Truncated(text, maxBytes) case None => text case Some(t) => t
  }

  function TruncateParts(parts: seq<Part>, maxBytes: nat): seq<Part> {
    if parts == [] then []
    else
      [if parts[0].Image? then parts[0] else Part.Text(TruncateTo(parts[0].text, maxBytes))]
      + TruncateParts(parts[1..], maxBytes)
  }

  function TruncateItem(item: Item, maxTokens: nat): Item {
    match item
    case ToolResult(id, text, isError, images) => ToolResult(id, TruncateTo(text, 4 * maxTokens), isError, images)
    case Assistant(text, native, calls, extra) => Assistant(TruncateTo(text, 4 * maxTokens), native, calls, extra)
    case User(parts, reason, extra) => User(TruncateParts(parts, 4 * maxTokens), reason, extra)
    case _ => item
  }

  function TruncateAll(items: History, maxTokens: nat): (r: History)
    ensures |r| == |items| && forall k :: 0 <= k < |items| ==> r[k] == TruncateItem(items[k], maxTokens)
  {
    seq(|items|, k requires 0 <= k < |items| => TruncateItem(items[k], maxTokens))
  }

  // ----- the last unit

  function TotalCost(items: History, cost: Item -> nat): nat {
    if items == [] then 0 else TotalCost(items[..|items| - 1], cost) + cost(items[|items| - 1])
  }

  /** Start of the run of tool results a history ends with. */
  function LastRun(body: History): (n: nat)
    ensures n <= |body| && forall k :: n <= k < |body| ==> body[k].ToolResult?
    ensures n > 0 ==> !body[n - 1].ToolResult?
  {
    if body != [] && body[|body| - 1].ToolResult? then LastRun(body[..|body| - 1]) else |body|
  }

  predicate HasCalls(item: Item) { item.Assistant? && item.calls != [] }

  /** The assistant item right before the last run, if it made calls. */
  function OwnerOf(body: History): History {
    var n := LastRun(body);
    if n > 0 && HasCalls(body[n - 1]) then [body[n - 1]] else []
  }

  function ResultBudget(body: History, budget: nat, cost: Item -> nat): nat {
    var spent := TotalCost(OwnerOf(body), cost);
    if budget < spent then 0 else budget - spent
  }

  function Share(total: nat, n: nat): nat
    requires n > 0
  {
    if total / n < 1 then 1 else total / n
  }

  function TailUnit(body: History, budget: nat, cost: Item -> nat): History {
    var n := LastRun(body);
    if n == |body| then
      if body == [] then [] else [TruncateItem(body[|body| - 1], budget)]
    else
      OwnerOf(body) + ShrunkRun(body, budget, cost)
  }

  function PerResult(body: History, budget: nat, cost: Item -> nat): nat
    requires LastRun(body) < |body|
  {
    Share(ResultBudget(body, budget, cost), |body| - LastRun(body))
  }

  /** The results of the last run, each truncated to its share. */
  function ShrunkRun(body: History, budget: nat, cost: Item -> nat): (run: History)
    requires LastRun(body) < |body|
    ensures |run| == |body| - LastRun(body)
  {
    TruncateAll(body[LastRun(body)..], PerResult(body, budget, cost))
  }

  lemma ShrunkRunIs(body: History, budget: nat, cost: Item -> nat)
    requires LastRun(body) < |body|
    ensures ShrunkRun(body, budget, cost) == TruncateAll(body[LastRun(body)..], PerResult(body, budget, cost))
  {
    hide TruncateAll, PerResult, LastRun;
  }

  lemma ShrunkRunAt(body: History, budget: nat, cost: Item -> nat, k: nat)
    requires LastRun(body) + k < |body|
    ensures ShrunkRun(body, budget, cost)[k] == TruncateItem(body[LastRun(body) + k], PerResult(body, budget, cost))
    ensures body[LastRun(body) + k].ToolResult?
  {
    hide *;
    ShrunkRunIs(body, budget, cost);
    var rest := body[LastRun(body)..];
    assert rest[k] == body[LastRun(body) + k];
  }

  method SplitLastRun(items: History) returns (body: History, results: History)
    ensures body == items[..LastRun(items)] && results == items[LastRun(items)..]
  {
    body := items;
    results := [];
    while body != [] && body[|body| - 1].ToolResult?
      invariant LastRun(body) == LastRun(items) && |body| + |results| == |items|
      invariant items == body + results
      decreases |body|
    {
      results := [body[|body| - 1]] + results;
      body := body[..|body| - 1];
    }
  }

  method RecoverTruncatedTailUnit(items: History, budget: nat, cost: Item -> nat) returns (unit: History)
    ensures unit == TailUnit(items, budget, cost)
  {
    hide TruncateItem, LastRun, TotalCost, Share, TruncateAll;
    var body, results := SplitLastRun(items);
    assert body + results == items;
    if results == [] {
      assert body == items;
      if body == [] {
        return [];
      }
      return [TruncateItem(body[|body| - 1], budget)];
    }
    unit := [];
    if body != [] && HasCalls(body[|body| - 1]) {
      unit := [body[|body| - 1]];
    }
    assert unit == OwnerOf(items);
    var spent := TotalCost(unit, cost);
    var resultBudget := if budget < spent then 0 else budget - spent;
    var per := Share(resultBudget, |results|);
    assert per == PerResult(items, budget, cost);
    unit := unit + TruncateAll(results, per);
  }

  // ----- keeping the newest turns

  /** The lowest start, at or below `i`, of a suffix that fits. */
  function Scan(body: History, i: nat, remaining: nat, cost: Item -> nat): (start: nat)
    requires i <= |body|
    ensures start <= i
  {
    if i == 0 || cost(body[i - 1]) > remaining then i
    else Scan(body, i - 1, remaining - cost(body[i - 1]), cost)
  }

  function SkipResults(body: History, start: nat): (s: nat)
    requires start <= |body|
    ensures start <= s <= |body| && forall k :: start <= k < s ==> body[k].ToolResult?
    ensures s < |body| ==> !body[s].ToolResult?
    decreases |body| - start
  {
    if start < |body| && body[start].ToolResult? then SkipResults(body, start + 1) else start
  }

  function SystemHead(c: History): History {
    if c != [] && c[0].System? then [c[0]] else []
  }

  function Budget(c: History, maxTokens: nat, cost: Item -> nat): nat {
    var spent := TotalCost(SystemHead(c), cost);
    if maxTokens < spent then 0 else maxTokens - spent
  }

  function KeepStart(body: History, budget: nat, cost: Item -> nat): (start: nat)
    ensures start <= |body|
    ensures start < |body| ==> !body[start].ToolResult?
  {
    SkipResults(body, Scan(body, |body|, budget, cost))
  }

  function Fit(c: History, maxTokens: nat, cost: Item -> nat): History {
    if TotalCost(c, cost) <= maxTokens then c
    else
      var head := SystemHead(c);
      var body := c[|head|..];
      var budget := Budget(c, maxTokens, cost);
      var start := KeepStart(body, budget, cost);
      head + if start < |body| then body[start..] else TailUnit(body, budget, cost)
  }

  method ScanBack(body: History, budget: nat, cost: Item -> nat) returns (start: nat)
    ensures start == Scan(body, |body|, budget, cost)
  {
    var remaining: nat := budget;
    start := |body|;
    while start > 0 && cost(body[start - 1]) <= remaining
      invariant start <= |body|
      invariant Scan(body, start, remaining, cost) == Scan(body, |body|, budget, cost)
    {
      start := start - 1;
      remaining := remaining - cost(body[start]);
    }
  }

  method SkipForward(body: History, from: nat) returns (start: nat)
    requires from <= |body|
    ensures start == SkipResults(body, from)
  {
    start := from;
    while start < |body| && body[start].ToolResult?
      invariant start <= |body|
      invariant SkipResults(body, start) == SkipResults(body, from)
    {
      start := start + 1;
    }
  }

  method FitConversationToBudget(c: History, maxTokens: nat, cost: Item -> nat) returns (kept: History)
    ensures kept == Fit(c, maxTokens, cost)
  {
    hide TotalCost, TailUnit, Scan, SkipResults;
    if TotalCost(c, cost) <= maxTokens {
      return c;
    }
    var head: History := [];
    var body := c;
    if body != [] && body[0].System? {
      head := [body[0]];
      body := body[1..];
    }
    assert head == SystemHead(c) && body == c[|head|..];
    var spent := TotalCost(head, cost);
    var budget := if maxTokens < spent then 0 else maxTokens - spent;
    var start := ScanBack(body, budget, cost);
    start := SkipForward(body, start);
    if start < |body| {
      kept := head + body[start..];
    } else {
      var unit := RecoverTruncatedTailUnit(body, budget, cost);
      kept := head + unit;
    }
  }

  // ----- what is kept

  lemma {:induction false} TotalCostConcat(a: History, b: History, cost: Item -> nat)
    ensures TotalCost(a + b, cost) == TotalCost(a, cost) + TotalCost(b, cost)
  {
    if b == [] {
      assert a + b == a;
    } else {
      assert (a + b)[..|a + b| - 1] == a + b[..|b| - 1];
      TotalCostConcat(a, b[..|b| - 1], cost);
    }
  }

  lemma SuffixCost(body: History, i: nat, j: nat, cost: Item -> nat)
    requires i <= j <= |body|
    ensures TotalCost(body[i..], cost) == TotalCost(body[i..j], cost) + TotalCost(body[j..], cost)
  {
    assert body[i..] == body[i..j] + body[j..];
    TotalCostConcat(body[i..j], body[j..], cost);
  }

  lemma SuffixCostStep(body: History, i: nat, cost: Item -> nat)
    requires i < |body|
    ensures TotalCost(body[i..], cost) == cost(body[i]) + TotalCost(body[i + 1..], cost)
  {
    SuffixCost(body, i, i + 1, cost);
    var one := body[i..i + 1];
    assert one == [body[i]] && one[..0] == [];
  }

  /** The scan stops at the lowest start whose suffix fits. */
  lemma {:induction false} ScanMeaning(body: History, i: nat, remaining: nat, budget: nat, cost: Item -> nat)
    requires i <= |body| && remaining + TotalCost(body[i..], cost) == budget
    ensures var start := Scan(body, i, remaining, cost);
      && TotalCost(body[start..], cost) <= budget
      && (start > 0 ==> TotalCost(body[start - 1..], cost) > budget)
    decreases i
  {
    if i > 0 {
      SuffixCostStep(body, i - 1, cost);
      if cost(body[i - 1]) <= remaining {
        ScanMeaning(body, i - 1, remaining - cost(body[i - 1]), budget, cost);
      }
    }
  }

  /** The kept start is the lowest one that fits the budget and splits no run
      of tool results. */
  lemma KeepStartOptimal(body: History, budget: nat, cost: Item -> nat)
    ensures var start := KeepStart(body, budget, cost);
      && TotalCost(body[start..], cost) <= budget
      && forall j :: 0 <= j < start && !body[j].ToolResult? ==> TotalCost(body[j..], cost) > budget
  {
    var scanned := Scan(body, |body|, budget, cost);
    var start := KeepStart(body, budget, cost);
    assert body[|body|..] == [];
    ScanMeaning(body, |body|, budget, budget, cost);
    SuffixCost(body, scanned, start, cost);
    forall j | 0 <= j < start && !body[j].ToolResult? ensures TotalCost(body[j..], cost) > budget {
      SuffixCost(body, j, scanned - 1, cost);
    }
  }

  // ----- pairing survives

  lemma {:induction false} KnownSuffix(a: History, t: History)
    requires t != [] && !t[0].ToolResult?
    ensures Known(ContiguousRun, a + t) == Known(ContiguousRun, t)
  {
    var t' := t[..|t| - 1];
    assert (a + t)[..|a + t| - 1] == a + t' && (a + t)[|a + t| - 1] == t[|t| - 1];
    if t' != [] {
      KnownSuffix(a, t');
    }
  }

  /** Cutting before an item that is no tool result cuts no pair. */
  lemma PairedCut(a: History, t: History)
    requires t != [] ==> !t[0].ToolResult?
    ensures Paired(ContiguousRun, a + t) ==> Paired(ContiguousRun, t)
    ensures Paired(ContiguousRun, a) && Paired(ContiguousRun, t) ==> Paired(ContiguousRun, a + t)
  {
    var w := a + t;
    forall k | 0 <= k < |t|
      ensures w[|a| + k] == t[k]
      ensures Misplaced(ContiguousRun, w[..|a| + k], w[|a| + k]) == Misplaced(ContiguousRun, t[..k], t[k])
    {
      assert w[..|a| + k] == a + t[..k];
      if k > 0 {
        KnownSuffix(a, t[..k]);
      }
    }
    forall k | 0 <= k < |a| ensures w[..k] == a[..k] && w[k] == a[k] {
    }
    if Paired(ContiguousRun, w) {
      forall k | 0 <= k < |t| ensures !Misplaced(ContiguousRun, t[..k], t[k]) {
        assert !Misplaced(ContiguousRun, w[..|a| + k], w[|a| + k]);
      }
    }
    if Paired(ContiguousRun, a) && Paired(ContiguousRun, t) {
      forall k | 0 <= k < |w| ensures !Misplaced(ContiguousRun, w[..k], w[k]) {
        if k < |a| {
          assert w[..k] == a[..k];
        } else {
          assert w[..|a| + (k - |a|)] == w[..k];
          assert !Misplaced(ContiguousRun, t[..k - |a|], t[k - |a|]);
        }
      }
    }
  }

  lemma {:induction false} KnownInRun(owner: History, run: History)
    requires forall k :: 0 <= k < |run| ==> run[k].ToolResult?
    ensures Known(ContiguousRun, owner + run) == Known(ContiguousRun, owner)
  {
    if run == [] {
      assert owner + run == owner;
    } else {
      assert (owner + run)[..|owner + run| - 1] == owner + run[..|run| - 1];
      KnownInRun(owner, run[..|run| - 1]);
    }
  }

  /** Results that all answer `ids` stay paired right after their owner. */
  lemma UnitPaired(owner: History, run: History)
    requires Paired(ContiguousRun, owner)
    requires forall k :: 0 <= k < |run| ==> run[k].ToolResult? && run[k].id in Known(ContiguousRun, owner)
    ensures Paired(ContiguousRun, owner + run)
  {
    var w := owner + run;
    forall k | 0 <= k < |w| ensures !Misplaced(ContiguousRun, w[..k], w[k]) {
      if k < |owner| {
        assert w[..k] == owner[..k];
      } else {
        assert w[..k] == owner + run[..k - |owner|];
        KnownInRun(owner, run[..k - |owner|]);
      }
    }
  }

  lemma ResultKnown(body: History, n: nat, k: nat)
    requires Paired(ContiguousRun, body) && n <= k < |body|
    requires forall j :: n <= j < |body| ==> body[j].ToolResult?
    ensures body[k].id in Known(ContiguousRun, body[..n])
  {
    hide Known;
    KnownInRun(body[..n], body[n..k]);
    assert body[..n] + body[n..k] == body[..k];
    assert !Misplaced(ContiguousRun, body[..k], body[k]);
  }

  /** In a paired history the last run has an owner, whose calls it answers. */
  lemma LastRunAnswers(body: History)
    requires Paired(ContiguousRun, body) && LastRun(body) < |body|
    ensures var n := LastRun(body);
      && n > 0 && OwnerOf(body) == [body[n - 1]] && HasCalls(body[n - 1])
      && forall k :: n <= k < |body| ==> body[k].id in CallIds(body[n - 1].calls)
  {
    hide LastRun, Paired;
    var n := LastRun(body);
    forall k | n <= k < |body| ensures body[k].id in Known(ContiguousRun, body[..n]) {
      ResultKnown(body, n, k);
    }
    assert body[n].id in Known(ContiguousRun, body[..n]);
    assert n > 0 && body[..n][n - 1] == body[n - 1];
  }

  lemma OwnerPaired(owner: Item)
    requires owner.Assistant?
    ensures Paired(ContiguousRun, [owner]) && Known(ContiguousRun, [owner]) == CallIds(owner.calls)
  {
  }

  lemma TailUnitPaired(body: History, budget: nat, cost: Item -> nat)
    requires Paired(ContiguousRun, body)
    ensures Paired(ContiguousRun, TailUnit(body, budget, cost))
    ensures var unit := TailUnit(body, budget, cost); unit != [] ==> !unit[0].ToolResult?
  {
    hide Paired, Known, ShrunkRun;
    var n := LastRun(body);
    if n < |body| {
      LastRunAnswers(body);
      OwnerPaired(body[n - 1]);
      forall k | 0 <= k < |body| - n
        ensures ShrunkRun(body, budget, cost)[k].ToolResult? && ShrunkRun(body, budget, cost)[k].id == body[n + k].id
      {
        ShrunkRunAt(body, budget, cost, k);
      }
      UnitPaired([body[n - 1]], ShrunkRun(body, budget, cost));
    } else if body != [] {
      OnePaired(TruncateItem(body[n - 1], budget));
    } else {
      OnePaired(Other(""));
    }
  }

  lemma OnePaired(item: Item)
    ensures !item.ToolResult? ==> Paired(ContiguousRun, [item])
    ensures Paired(ContiguousRun, [])
  {
  }

  // ----- main results

  /** A text brought within `limit` bytes: as it is when it fits, and otherwise a longest
      prefix of whole characters that leaves the reserve, and the bytes dropped. */
  ghost predicate ShrunkText(was: string, now: string, limit: nat) {
    && (Utf8Len(was) <= limit ==> now == was)
    && (Utf8Len(was) > limit ==> CutText(was, now, if limit < 64 then 0 else limit - 64))
  }

  ghost predicate CutText(was: string, now: string, keep: nat) {
    exists k: nat :: CutAt(was, now, keep, k)
  }

  ghost predicate CutAt(was: string, now: string, keep: nat, k: nat) {
    && k <= |was| && Utf8Len(was[..k]) <= keep
    && (k < |was| ==> Utf8Len(was[..k]) + Utf8Bytes(was[k]) > keep)
    && now == was[..k] + "\n[... truncated " + Decimal(Utf8Len(was[k..])) + " bytes to fit the compaction window ...]"
  }

  ghost predicate ShrunkParts(was: seq<Part>, now: seq<Part>, limit: nat) {
    |now| == |was| && forall k :: 0 <= k < |was| ==>
      if was[k].Image? then now[k] == was[k] else now[k].Text? && ShrunkText(was[k].text, now[k].text, limit)
  }

  /** An item cut to `tokens`: its texts are, four bytes a token, and nothing else is. */
  ghost predicate ShrunkItem(was: Item, now: Item, tokens: nat) {
    match was
    case ToolResult(id, text, isError, images) =>
      now.ToolResult? && now == ToolResult(id, now.text, isError, images) && ShrunkText(text, now.text, 4 * tokens)
    case Assistant(text, native, calls, extra) =>
      now.Assistant? && now == Assistant(now.text, native, calls, extra) && ShrunkText(text, now.text, 4 * tokens)
    case User(parts, reason, extra) =>
      now.User? && now == User(now.parts, reason, extra) && ShrunkParts(parts, now.parts, 4 * tokens)
    case _ => now == was
  }

  /** The last unit of `body`: its last item when that is no result; otherwise the results
      it ends with, each cut to an equal share, after the assistant they follow when that
      made calls. */
  ghost predicate LastUnit(body: History, unit: History, budget: nat, cost: Item -> nat) {
    if body == [] then unit == []
    else if !body[|body| - 1].ToolResult? then |unit| == 1 && ShrunkItem(body[|body| - 1], unit[0], budget)
    else exists n: nat :: RunUnit(body, unit, n, budget, cost)
  }

  ghost predicate RunUnit(body: History, unit: History, n: nat, budget: nat, cost: Item -> nat) {
    && n < |body| && (forall k :: n <= k < |body| ==> body[k].ToolResult?) && (n > 0 ==> !body[n - 1].ToolResult?)
    && if n > 0 && body[n - 1].Assistant? && body[n - 1].calls != [] then
         && unit != [] && unit[0] == body[n - 1]
         && RunShrunk(body[n..], unit[1..], if budget < cost(unit[0]) then 0 else budget - cost(unit[0]))
       else RunShrunk(body[n..], unit, budget)
  }

  ghost predicate RunShrunk(run: History, now: History, budget: nat) {
    && run != [] && |now| == |run|
    && forall k :: 0 <= k < |run| ==> ShrunkItem(run[k], now[k], if budget < |run| then 1 else budget / |run|)
  }

  lemma TruncateToShrinks(text: string, limit: nat)
    ensures ShrunkText(text, TruncateTo(text, limit), limit)
  {
    hide Utf8Len, Decimal;
    if Utf8Len(text) > limit {
      var keep := if limit < 64 then 0 else limit - 64;
      var k, dropped := TruncatedText(text, limit);
      assert k == CutPoint(text, keep);
      MarkerIs(text[..k], dropped);
      assert CutAt(text, TruncateTo(text, limit), keep, k);
    }
  }

  lemma MarkerIs(front: string, dropped: nat)
    ensures front + Marker(dropped)
         == front + "\n[... truncated " + Decimal(dropped) + " bytes to fit the compaction window ...]"
  {
    Associate(front, MARKER_OPEN, Decimal(dropped), MARKER_CLOSE);
  }

  lemma Associate(a: string, b: string, c: string, d: string)
    ensures a + (b + c + d) == a + b + c + d
  {
  }

  lemma {:induction false} TruncatePartsShrinks(parts: seq<Part>, limit: nat)
    ensures ShrunkParts(parts, TruncateParts(parts, limit), limit)
  {
    hide TruncateTo, ShrunkText;
    if parts != [] {
      TruncatePartsShrinks(parts[1..], limit);
      if parts[0].Text? {
        TruncateToShrinks(parts[0].text, limit);
      }
    }
  }

  lemma TruncateItemShrinks(item: Item, tokens: nat)
    ensures ShrunkItem(item, TruncateItem(item, tokens), tokens)
  {
    hide TruncateTo, ShrunkText, ShrunkParts, TruncateParts;
    match item
    case ToolResult(_, text, _, _) => TruncateToShrinks(text, 4 * tokens);
    case Assistant(text, _, _, _) => TruncateToShrinks(text, 4 * tokens);
    case User(parts, _, _) => TruncatePartsShrinks(parts, 4 * tokens);
    case _ =>
  }

  lemma ShareIs(total: nat, n: nat)
    requires n > 0
    ensures Share(total, n) == if total < n then 1 else total / n
  {
    if total >= n {
      assert n * (total / n) + total % n == total;
    }
  }

  lemma RunIsShrunk(run: History, budget: nat)
    requires run != []
    ensures RunShrunk(run, TruncateAll(run, Share(budget, |run|)), budget)
  {
    hide ShrunkItem, TruncateItem, Share;
    ShareIs(budget, |run|);
    forall k | 0 <= k < |run| ensures ShrunkItem(run[k], TruncateItem(run[k], Share(budget, |run|)), Share(budget, |run|)) {
      TruncateItemShrinks(run[k], Share(budget, |run|));
    }
  }

  lemma OwnerCost(body: History, budget: nat, cost: Item -> nat)
    ensures var n := LastRun(body);
      ResultBudget(body, budget, cost) ==
      if n > 0 && HasCalls(body[n - 1]) then if budget < cost(body[n - 1]) then 0 else budget - cost(body[n - 1]) else budget
  {
    hide LastRun;
    var n := LastRun(body);
    if n > 0 && HasCalls(body[n - 1]) {
      OneCost(body[n - 1], cost);
    }
  }

  lemma OneCost(item: Item, cost: Item -> nat)
    ensures TotalCost([item], cost) == cost(item)
  {
    var one := [item];
    assert one[..0] == [];
    assert TotalCost([], cost) == 0;
  }

  lemma TailUnitIs(body: History, budget: nat, cost: Item -> nat)
    ensures LastUnit(body, TailUnit(body, budget, cost), budget, cost)
  {
    hide ShrunkItem, TruncateItem, RunUnit, LastRun, OwnerOf, ShrunkRun;
    var n := LastRun(body);
    if n < |body| {
      TailRunIs(body, budget, cost);
    } else if body != [] {
      TruncateItemShrinks(body[n - 1], budget);
    }
  }

  lemma TailRunIs(body: History, budget: nat, cost: Item -> nat)
    requires LastRun(body) < |body|
    ensures RunUnit(body, OwnerOf(body) + ShrunkRun(body, budget, cost), LastRun(body), budget, cost)
  {
    hide *;
    var run := body[LastRun(body)..];
    ShrunkRunIs(body, budget, cost);
    PerResultIs(body, budget, cost);
    RunIsShrunk(run, ResultBudget(body, budget, cost));
    OwnerCost(body, budget, cost);
    OwnerIs(body);
    OwnerHasCalls(body);
    RunUnitOf(body, OwnerOf(body), ShrunkRun(body, budget, cost), budget, ResultBudget(body, budget, cost), cost);
  }

  lemma OwnerHasCalls(body: History)
    ensures var n := LastRun(body);
      n > 0 ==> (HasCalls(body[n - 1]) <==> body[n - 1].Assistant? && body[n - 1].calls != [])
  {
    hide LastRun;
  }

  lemma RunUnitOf(body: History, owner: History, shrunk: History, budget: nat, spare: nat, cost: Item -> nat)
    requires LastRun(body) < |body| && RunShrunk(body[LastRun(body)..], shrunk, spare)
    requires var n := LastRun(body);
      if n > 0 && body[n - 1].Assistant? && body[n - 1].calls != [] then
        owner == [body[n - 1]] && spare == if budget < cost(body[n - 1]) then 0 else budget - cost(body[n - 1])
      else owner == [] && spare == budget
    ensures RunUnit(body, owner + shrunk, LastRun(body), budget, cost)
  {
    hide RunShrunk, LastRun;
    FirstAndRest(owner, shrunk);
  }

  lemma OwnerIs(body: History)
    ensures var n := LastRun(body);
      OwnerOf(body) == if n > 0 && body[n - 1].Assistant? && body[n - 1].calls != [] then [body[n - 1]] else []
  {
    hide LastRun;
  }

  lemma PerResultIs(body: History, budget: nat, cost: Item -> nat)
    requires LastRun(body) < |body|
    ensures PerResult(body, budget, cost) == Share(ResultBudget(body, budget, cost), |body| - LastRun(body))
  {
  }

  lemma FirstAndRest(owner: History, run: History)
    requires |owner| <= 1
    ensures owner == [] ==> owner + run == run
    ensures owner != [] ==> (owner + run)[0] == owner[0] && (owner + run)[1..] == run
  {
  }

  /** The longest suffix that fits and starts at no result starts at `start`. */
  ghost predicate BestSuffix(body: History, start: nat, budget: nat, cost: Item -> nat) {
    && start <= |body| && TotalCost(body[start..], cost) <= budget
    && (start < |body| ==> !body[start].ToolResult?)
    && forall j :: 0 <= j < start && !body[j].ToolResult? ==> TotalCost(body[j..], cost) > budget
  }

  /** What is kept of a body: its best suffix, or, when that is empty, the last unit. */
  ghost predicate KeptBody(body: History, kept: History, budget: nat, cost: Item -> nat) {
    exists start: nat :: BestSuffix(body, start, budget, cost)
      && if start < |body| then kept == body[start..] else LastUnit(body, kept, budget, cost)
  }

  lemma KeptIs(body: History, budget: nat, cost: Item -> nat)
    ensures var start := KeepStart(body, budget, cost);
      KeptBody(body, if start < |body| then body[start..] else TailUnit(body, budget, cost), budget, cost)
  {
    hide TotalCost, KeepStart, TailUnit, LastUnit;
    KeepStartOptimal(body, budget, cost);
    TailUnitIs(body, budget, cost);
    assert BestSuffix(body, KeepStart(body, budget, cost), budget, cost);
  }

  /** A history that fits is kept. Otherwise the system prompt is, and after it what is
      kept of the rest within what the prompt leaves of the budget. */
  lemma FitMeaning(c: History, maxTokens: nat, cost: Item -> nat)
    ensures TotalCost(c, cost) <= maxTokens ==> Fit(c, maxTokens, cost) == c
    ensures TotalCost(c, cost) > maxTokens && c != [] && c[0].System? ==>
      && Fit(c, maxTokens, cost) != [] && Fit(c, maxTokens, cost)[0] == c[0]
      && KeptBody(c[1..], Fit(c, maxTokens, cost)[1..], if maxTokens < cost(c[0]) then 0 else maxTokens - cost(c[0]), cost)
    ensures TotalCost(c, cost) > maxTokens && (c == [] || !c[0].System?) ==>
      KeptBody(c, Fit(c, maxTokens, cost), maxTokens, cost)
  {
    hide TotalCost, KeepStart, TailUnit, KeptBody;
    var head := SystemHead(c);
    HeadCost(c, cost);
    var kept := Fit(c, maxTokens, cost);
    KeptIs(c[|head|..], Budget(c, maxTokens, cost), cost);
    assert head == [] ==> c[0..] == c && head + kept == kept;
    if TotalCost(c, cost) > maxTokens && head == [] {
      FitAlone(c, maxTokens, cost);
    }
  }

  lemma FitAlone(c: History, maxTokens: nat, cost: Item -> nat)
    requires TotalCost(c, cost) > maxTokens && SystemHead(c) == []
    ensures Budget(c, maxTokens, cost) == maxTokens
    ensures var start := KeepStart(c, maxTokens, cost);
      Fit(c, maxTokens, cost) == if start < |c| then c[start..] else TailUnit(c, maxTokens, cost)
  {
    hide KeepStart, TailUnit;
    assert c[0..] == c && TotalCost([], cost) == 0;
  }

  /** A kept suffix costs no more than the budget, or than the prompt alone. */
  lemma FitWithin(c: History, maxTokens: nat, cost: Item -> nat)
    requires TotalCost(c, cost) > maxTokens
    requires var head := SystemHead(c); KeepStart(c[|head|..], Budget(c, maxTokens, cost), cost) < |c| - |head|
    ensures TotalCost(Fit(c, maxTokens, cost), cost) <= Max(maxTokens, TotalCost(SystemHead(c), cost))
  {
    hide KeepStart, TailUnit;
    var head := SystemHead(c);
    var body, budget := c[|head|..], Budget(c, maxTokens, cost);
    KeepStartOptimal(body, budget, cost);
    TotalCostConcat(head, body[KeepStart(body, budget, cost)..], cost);
  }

  lemma HeadCost(c: History, cost: Item -> nat)
    ensures SystemHead(c) == c[..|SystemHead(c)|]
    ensures TotalCost(SystemHead(c), cost) == if SystemHead(c) == [] then 0 else cost(c[0])
  {
    if SystemHead(c) != [] {
      OneCost(c[0], cost);
    }
  }

  function Max(a: nat, b: nat): nat { if a < b then b else a }

  /** A history that obeys the contiguous-run rule still does after fitting. */
  lemma FitPaired(c: History, maxTokens: nat, cost: Item -> nat)
    requires Paired(ContiguousRun, c)
    ensures Paired(ContiguousRun, Fit(c, maxTokens, cost))
  {
    hide Paired, TailUnit, KeepStart;
    if TotalCost(c, cost) > maxTokens {
      var head := SystemHead(c);
      var body, budget := c[|head|..], Budget(c, maxTokens, cost);
      var start := KeepStart(body, budget, cost);
      HeadPaired(c);
      BodyPaired(c, head, body);
      if start < |body| {
        assert body == body[..start] + body[start..];
        PairedCut(body[..start], body[start..]);
        PairedCut(head, body[start..]);
      } else {
        TailUnitPaired(body, budget, cost);
        PairedCut(head, TailUnit(body, budget, cost));
      }
    }
  }

  lemma HeadPaired(c: History)
    ensures var head := SystemHead(c); Paired(ContiguousRun, head) && |head| <= |c| && c == head + c[|head|..]
  {
  }

  /** No result may directly follow the system prompt. */
  lemma BodyPaired(c: History, head: History, body: History)
    requires Paired(ContiguousRun, c) && c == head + body && head == SystemHead(c)
    ensures Paired(ContiguousRun, body)
  {
    if head != [] && body != [] {
      assert c[..1] == head && c[1] == body[0];
      assert !Misplaced(ContiguousRun, c[..1], c[1]);
      assert Known(ContiguousRun, head) == {};
      PairedCut(head, body);
    } else {
      assert head == [] ==> body == c;
    }
  }

  /** Bytes of tool output in a unit. */
  function ToolBytes(items: History): nat {
    if items == [] then 0
    else ToolBytes(items[..|items| - 1]) + if items[|items| - 1].ToolResult? then Utf8Len(items[|items| - 1].text) else 0
  }

  /** With a share of at least sixteen tokens per result, and fewer than ten to
      the eighth bytes dropped from each, the truncated results together stay
      within four bytes per token of the result budget. */
  lemma TailUnitBytes(body: History, budget: nat, cost: Item -> nat)
    requires LastRun(body) < |body| && PerResult(body, budget, cost) >= 16
    requires forall k :: LastRun(body) <= k < |body| ==> Dropped(body[k].text, 4 * PerResult(body, budget, cost)) < Pow10(8)
    ensures ToolBytes(TailUnit(body, budget, cost)) <= 4 * ResultBudget(body, budget, cost)
  {
    hide *;
    TailUnitRun(body, budget, cost);
    ShrunkRunFits(body, budget, cost);
    OwnerIsNoResult(body);
    ToolBytesBound(OwnerOf(body), ShrunkRun(body, budget, cost), 4 * PerResult(body, budget, cost));
    SharesFit(body, budget, cost);
  }

  lemma TailUnitRun(body: History, budget: nat, cost: Item -> nat)
    requires LastRun(body) < |body|
    ensures TailUnit(body, budget, cost) == OwnerOf(body) + ShrunkRun(body, budget, cost)
  {
  }

  ghost predicate NoResult(items: History) {
    |items| <= 1 && forall k :: 0 <= k < |items| ==> !items[k].ToolResult?
  }

  ghost predicate ResultsWithin(run: History, limit: nat) {
    forall k :: 0 <= k < |run| ==> run[k].ToolResult? && Utf8Len(run[k].text) <= limit
  }

  lemma OwnerIsNoResult(body: History)
    ensures NoResult(OwnerOf(body))
  {
  }

  lemma ShrunkRunFits(body: History, budget: nat, cost: Item -> nat)
    requires LastRun(body) < |body| && PerResult(body, budget, cost) >= 16
    requires forall k :: LastRun(body) <= k < |body| ==> Dropped(body[k].text, 4 * PerResult(body, budget, cost)) < Pow10(8)
    ensures ResultsWithin(ShrunkRun(body, budget, cost), 4 * PerResult(body, budget, cost))
  {
    hide Pow10, TruncateTo, Dropped, LastRun, ShrunkRun, PerResult, Utf8Len;
    var run, per := ShrunkRun(body, budget, cost), PerResult(body, budget, cost);
    forall k | 0 <= k < |run| ensures run[k].ToolResult? && Utf8Len(run[k].text) <= 4 * per {
      ShrunkRunAt(body, budget, cost, k);
      TruncateToFits(body[LastRun(body) + k].text, 4 * per);
    }
  }

  lemma SharesFit(body: History, budget: nat, cost: Item -> nat)
    requires LastRun(body) < |body| && PerResult(body, budget, cost) >= 16
    ensures (|body| - LastRun(body)) * (4 * PerResult(body, budget, cost)) <= 4 * ResultBudget(body, budget, cost)
  {
    hide LastRun, ResultBudget;
    var total, count := ResultBudget(body, budget, cost), |body| - LastRun(body);
    var q := total / count;
    assert count * q <= total;
    assert count * (4 * q) == 4 * (count * q);
  }

  lemma TruncateToFits(text: string, limit: nat)
    requires limit >= MARKER_RESERVE && Dropped(text, limit) < Pow10(8)
    ensures Utf8Len(TruncateTo(text, limit)) <= limit
  {
    hide Pow10, Dropped;
    if Utf8Len(text) > limit {
      var at, dropped := TruncatedText(text, limit);
    }
  }

  lemma {:induction false} ToolBytesBound(owner: History, run: History, limit: nat)
    requires NoResult(owner) && ResultsWithin(run, limit)
    ensures ToolBytes(owner + run) <= |run| * limit
  {
    if run == [] {
      assert owner + run == owner;
      assert owner != [] ==> owner[..|owner| - 1] == [];
    } else {
      var w, run' := owner + run, run[..|run| - 1];
      assert w[..|w| - 1] == owner + run' && w[|w| - 1] == run[|run| - 1];
      ToolBytesBound(owner, run', limit);
      assert |run| * limit == |run'| * limit + limit;
    }
  }
}
