/** Rebuilding a conversation when the context runs out: what is captured,
    what is rebuilt from it, and what survives round after round. */
module CompactedHistory {
  import opened Wrappers
  import opened Conversation
  import opened UserQuery
  import opened Pairing
  import SummaryFormat

  // ----- classifying items

  function JoinTexts(parts: seq<Part>): string {
    if parts == [] then []
    else if parts[0].Image? then JoinTexts(parts[1..])
    else if forall p <- parts[1..] :: p.Image? then parts[0].text
    else parts[0].text + "\n" + JoinTexts(parts[1..])
  }

  predicate IsRealUserTurn(item: Item) {
    && item.User? && item.reason.None?
    && ((exists p <- item.parts :: p.Image?) || !IsSyntheticQuery(ExtractUserQuery(JoinTexts(item.parts))))
  }

  predicate IsAgentMessage(item: Item) {
    item.User? && item.reason == Some(AgentMessage)
  }

  /** The items a compaction is anchored on. */
  predicate IsAnchor(item: Item) {
    IsRealUserTurn(item) || IsAgentMessage(item)
  }

  // ----- capturing the state

  datatype Position = Only | BeforeHuman | AfterHuman

  datatype Anchor = Anchor(item: Item, position: Position)

  datatype Context = Context(
    cwdGeneration: nat,
    destination: Option<string>,
    anchor: Option<Anchor>,
    recent: History,
    lastQuery: Option<string>)

  function LastRealUserQuery(c: History): Option<string> {
    match LastWhere(c, IsRealUserTurn)
    case None => None
    case Some(k) => Some(ExtractUserQuery(JoinTexts(c[k].parts)))
  }

  function LatestAgentMessage(c: History): Option<Anchor> {
    match LastWhere(c, IsAgentMessage)
    case None => None
    case Some(k) =>
      var position :=
        match LastWhere(c, IsRealUserTurn)
        case Some(human) => if k < human then BeforeHuman else AfterHuman
        case None => Only;
      Some(Anchor(c[k], position))
  }

  /** The form in which a working item is carried over: tool output is
      replaced by a placeholder, runtime injections are dropped. */
  function Carried(item: Item): History {
    match item
    case User(_, _, _) => if IsAgentMessage(item) then [item] else []
    case Assistant(_, _, _, _) => [item]
    case ToolResult(id, _, isError, _) => [ToolResult(id, "Tool call omitted...", isError, [])]
    case System(_) => []
    case Other(_) => []
  }

  function CarryAll(c: History): History {
    if c == [] then [] else Carried(c[0]) + CarryAll(c[1..])
  }

  function TailStart(c: History): (n: nat)
    ensures n <= |c|
  {
    match LastWhere(c, IsAnchor)
    case None => 0
    case Some(k) => if IsAgentMessage(c[k]) then k else k + 1
  }

  function RecentMessages(c: History): History {
    CarryAll(c[TailStart(c)..])
  }

  function Build(c: History, cwdGeneration: nat, destination: Option<string>): Context {
    Context(cwdGeneration, destination, LatestAgentMessage(c), RecentMessages(c), LastRealUserQuery(c))
  }

  /** The compaction view: the working tail is dropped. */
  function ForCompaction(ctx: Context): Context {
    ctx.(anchor := if ctx.anchor.Some? then ctx.anchor else LatestAgentMessage(ctx.recent), recent := [])
  }

  // ----- rebuilding the history

  const PREAMBLE := "This session is being continued from a previous conversation that ran out of context. The summary below covers the earlier portion of the conversation.\n\n"

  /** What one round supplies besides the captured context. */
  datatype Round = Round(
    cwdGeneration: nat,
    destination: Option<string>,
    system: string,
    prefix: string,
    agentsMd: Option<string>,
    summary: string,
    hint: Option<string>,
    reminder: Option<string>,
    keepTail: bool)

  function Optional(text: Option<string>, reason: Reason): History {
    match text case None => [] case Some(t) => [Synthetic(t, reason)]
  }

  function SummaryItem(r: Round): Item {
    Synthetic(PREAMBLE + SummaryFormat.Format(r.summary) + (match r.hint case None => "" case Some(h) => h), CompactionMeta)
  }

  /** The anchor is left out when the working tail already holds one. */
  function AnchorToPlace(ctx: Context): Option<Anchor> {
    if exists item <- ctx.recent :: IsAgentMessage(item) then None else ctx.anchor
  }

  function AnchorAt(anchor: Option<Anchor>, before: bool): History {
    if anchor.Some? && (anchor.value.position == BeforeHuman) == before then [anchor.value.item] else []
  }

  function QueryItem(query: Option<string>): History {
    match query case None => [] case Some(q) => [UserText(WrapUserQuery(q))]
  }

  function Head(ctx: Context, r: Round): History {
    [System(r.system), Synthetic(r.prefix, CompactionMeta)]
    + Optional(if ctx.cwdGeneration == 0 then r.agentsMd else ctx.destination, ProjectInstructions)
  }

  function Foot(r: Round): History {
    [SummaryItem(r)] + Optional(r.reminder, SystemReminder)
  }

  function Assemble(ctx: Context, r: Round): History {
    Head(ctx, r)
    + AnchorAt(AnchorToPlace(ctx), true) + QueryItem(ctx.lastQuery) + AnchorAt(AnchorToPlace(ctx), false)
    + ctx.recent
    + Foot(r)
  }

  /** What stands where in a rebuilt history. */
  ghost predicate Laid(h: History, ctx: Context, r: Round) {
    var instructions := if ctx.cwdGeneration == 0 then r.agentsMd else ctx.destination;
    var start := if instructions.Some? then 3 else 2;
    var end := |h| - if r.reminder.Some? then 2 else 1;
    var tail := end - |ctx.recent|;
    var placed := if exists item <- ctx.recent :: IsAgentMessage(item) then None else ctx.anchor;
    && start <= tail
    && Opening(h[..start], instructions, r)
    && AroundQuery(h[start..tail], placed, ctx.lastQuery)
    && h[tail..end] == ctx.recent
    && Closing(h[end..], r)
  }

  /** System prompt, prefix, project instructions. */
  ghost predicate Opening(h: History, instructions: Option<string>, r: Round) {
    && |h| == (if instructions.Some? then 3 else 2)
    && h[0] == System(r.system)
    && h[1] == User([Text(r.prefix)], Some(CompactionMeta), "")
    && (instructions.Some? ==> h[2] == User([Text(instructions.value)], Some(ProjectInstructions), ""))
  }

  /** The cleaned summary between preamble and hint, then the reminder. */
  ghost predicate Closing(h: History, r: Round) {
    && |h| == (if r.reminder.Some? then 2 else 1)
    && h[0] == User([Text(PREAMBLE + SummaryFormat.Format(r.summary) + if r.hint.Some? then r.hint.value else "")],
                    Some(CompactionMeta), "")
    && (r.reminder.Some? ==> h[1] == User([Text(r.reminder.value)], Some(SystemReminder), ""))
  }

  /** The human query as a user turn, with the agent message on its own side of it. */
  ghost predicate AroundQuery(m: History, placed: Option<Anchor>, query: Option<string>) {
    match (placed, query)
    case (None, None) => m == []
    case (None, Some(q)) => m == [User([Text(WrapUserQuery(q))], None, "")]
    case (Some(a), None) => m == [a.item]
    case (Some(a), Some(q)) =>
      if a.position == BeforeHuman then m == [a.item, User([Text(WrapUserQuery(q))], None, "")]
      else m == [User([Text(WrapUserQuery(q))], None, ""), a.item]
  }

  lemma AssembleLaid(ctx: Context, r: Round)
    ensures Laid(Assemble(ctx, r), ctx, r)
  {
    hide *;
    HeadOpens(ctx, r);
    FootCloses(r);
    QueryMiddle(ctx);
    AssembleParts(ctx, r);
    var m := AnchorAt(AnchorToPlace(ctx), true) + QueryItem(ctx.lastQuery) + AnchorAt(AnchorToPlace(ctx), false);
    FourParts(Assemble(ctx, r), Head(ctx, r), m, ctx.recent, Foot(r));
    LaidParts(Assemble(ctx, r), ctx, r, Head(ctx, r), m, Foot(r));
  }

  lemma AssembleParts(ctx: Context, r: Round)
    ensures Assemble(ctx, r) == Head(ctx, r)
      + (AnchorAt(AnchorToPlace(ctx), true) + QueryItem(ctx.lastQuery) + AnchorAt(AnchorToPlace(ctx), false))
      + ctx.recent + Foot(r)
  {
    hide Head, AnchorAt, QueryItem, AnchorToPlace, Foot;
    Associate(Head(ctx, r), AnchorAt(AnchorToPlace(ctx), true), QueryItem(ctx.lastQuery), AnchorAt(AnchorToPlace(ctx), false));
  }

  lemma Associate(h: History, a: History, b: History, z: History)
    ensures h + (a + b + z) == h + a + b + z
  {
  }

  lemma LaidParts(h: History, ctx: Context, r: Round, head: History, m: History, foot: History)
    requires h == head + m + ctx.recent + foot
    requires var end := |h| - |foot|; var tail := end - |ctx.recent|;
      |head| <= tail && h[..|head|] == head && h[|head|..tail] == m && h[tail..end] == ctx.recent && h[end..] == foot
    requires Opening(head, if ctx.cwdGeneration == 0 then r.agentsMd else ctx.destination, r) && Closing(foot, r)
    requires AroundQuery(m, if exists item <- ctx.recent :: IsAgentMessage(item) then None else ctx.anchor, ctx.lastQuery)
    ensures Laid(h, ctx, r)
  {
    hide AroundQuery, IsAgentMessage, SummaryFormat.Format;
  }

  lemma FourParts(h: History, a: History, b: History, c: History, d: History)
    requires h == a + b + c + d
    ensures var end := |h| - |d|; var tail := end - |c|;
      |a| <= tail && h[..|a|] == a && h[|a|..tail] == b && h[tail..end] == c && h[end..] == d
  {
  }

  lemma HeadOpens(ctx: Context, r: Round)
    ensures Opening(Head(ctx, r), if ctx.cwdGeneration == 0 then r.agentsMd else ctx.destination, r)
  {
  }

  lemma FootCloses(r: Round)
    ensures Closing(Foot(r), r)
  {
  }

  lemma QueryMiddle(ctx: Context)
    ensures var placed := if exists item <- ctx.recent :: IsAgentMessage(item) then None else ctx.anchor;
      AroundQuery(AnchorAt(AnchorToPlace(ctx), true) + QueryItem(ctx.lastQuery) + AnchorAt(AnchorToPlace(ctx), false),
        placed, ctx.lastQuery)
  {
    hide WrapUserQuery, IsAgentMessage;
  }

  method BuildCompactedHistory(ctx: Context, r: Round) returns (compacted: History)
    ensures compacted == Assemble(ctx, r) && Laid(compacted, ctx, r)
  {
    AssembleLaid(ctx, r);
    hide SummaryItem, WrapUserQuery, AnchorToPlace, Laid;
    compacted := [System(r.system), Synthetic(r.prefix, CompactionMeta)];
    var instructions := if ctx.cwdGeneration == 0 then r.agentsMd else ctx.destination;
    if instructions.Some? {
      compacted := compacted + [Synthetic(instructions.value, ProjectInstructions)];
    }
    assert compacted == Head(ctx, r);
    var anchor := AnchorToPlace(ctx);
    if anchor.Some? && anchor.value.position == BeforeHuman {
      compacted := compacted + [anchor.value.item];
    }
    if ctx.lastQuery.Some? {
      compacted := compacted + [UserText(WrapUserQuery(ctx.lastQuery.value))];
    }
    if anchor.Some? && anchor.value.position != BeforeHuman {
      compacted := compacted + [anchor.value.item];
    }
    ghost var before := compacted;
    assert before == Head(ctx, r) + AnchorAt(anchor, true) + QueryItem(ctx.lastQuery) + AnchorAt(anchor, false);
    compacted := PushAll(compacted, ctx.recent);
    compacted := compacted + [SummaryItem(r)];
    if r.reminder.Some? {
      compacted := compacted + [Synthetic(r.reminder.value, SystemReminder)];
    }
    assert compacted == before + ctx.recent + Foot(r);
  }

  method PushAll(items: History, more: History) returns (all: History)
    ensures all == items + more
  {
    all := items;
    for k := 0 to |more|
      invariant all == items + more[..k]
    {
      all := all + [more[k]];
    }
  }

  function Compact(c: History, r: Round): History {
    var ctx := Build(c, r.cwdGeneration, r.destination);
    Assemble(if r.keepTail then ctx else ForCompaction(ctx), r)
  }

  function Run(c: History, rounds: seq<Round>): History
    decreases |rounds|
  {
    if rounds == [] then c else Run(Compact(c, rounds[0]), rounds[1..])
  }

  // ----- what is captured and carried

  /** The texts of a message, in order, one newline between two of them. */
  lemma {:induction false} JoinTextsSnoc(parts: seq<Part>, p: Part)
    ensures JoinTexts(parts + [p]) ==
            if p.Image? then JoinTexts(parts)
            else if NoTexts(parts) then p.text
            else JoinTexts(parts) + "\n" + p.text
  {
    hide JoinTexts, NoTexts;
    var w := parts + [p];
    JoinTextsStep(w);
    JoinTextsStep(parts);
    if parts == [] {
      NoTextsSplit([], p);
      JoinTextsStep([]);
      assert w[1..] == [];
    } else {
      assert w[1..] == parts[1..] + [p] && w[0] == parts[0];
      JoinTextsSnoc(parts[1..], p);
      NoTextsSplit(parts[1..], p);
      JoinTextsStep(parts[1..]);
    }
  }

  predicate NoTexts(parts: seq<Part>) { forall p <- parts :: p.Image? }

  lemma JoinTextsStep(parts: seq<Part>)
    ensures parts == [] ==> JoinTexts(parts) == [] && NoTexts(parts)
    ensures parts != [] ==>
      JoinTexts(parts) == (if parts[0].Image? then JoinTexts(parts[1..])
                           else if NoTexts(parts[1..]) then parts[0].text
                           else parts[0].text + "\n" + JoinTexts(parts[1..]))
    ensures parts != [] ==> (NoTexts(parts) <==> parts[0].Image? && NoTexts(parts[1..]))
  {
    assert parts != [] ==> parts == [parts[0]] + parts[1..];
  }

  lemma NoTextsSplit(parts: seq<Part>, p: Part)
    ensures NoTexts(parts + [p]) <==> NoTexts(parts) && p.Image?
    ensures NoTexts(parts) ==> JoinTexts(parts) == []
  {
    assert p in parts + [p];
    if NoTexts(parts) {
      NoTextsJoin(parts);
    }
  }

  lemma {:induction false} NoTextsJoin(parts: seq<Part>)
    requires NoTexts(parts)
    ensures JoinTexts(parts) == []
  {
    if parts != [] {
      assert parts[0] in parts;
      NoTextsJoin(parts[1..]);
    }
  }

  /** Whether an item of the working tail is carried over. */
  predicate IsCarried(item: Item) { IsAgentMessage(item) || item.Assistant? || item.ToolResult? }

  /** A carried item stands at the place the carried items before it leave it: agent
      messages and model responses as they are, tool results with a placeholder for
      their text and without images. */
  lemma {:induction false} CarriedAt(t: History, k: nat)
    requires k < |t| && IsCarried(t[k])
    ensures |CarryAll(t[..k])| < |CarryAll(t)|
    ensures var kept := CarryAll(t)[|CarryAll(t[..k])|];
      if t[k].ToolResult? then
        kept == ToolResult(t[k].id, "Tool call omitted...", t[k].isError, [])
      else kept == t[k]
    ensures forall j :: 0 <= j < |CarryAll(t)| ==> IsCarried(CarryAll(t)[j])
  {
    CarryAllConcat(t[..k] + [t[k]], t[k + 1..]);
    CarryAllConcat(t[..k], [t[k]]);
    assert t == t[..k] + [t[k]] + t[k + 1..];
    var one := [t[k]];
    assert one[1..] == [] && CarryAll(one) == Carried(t[k]) + CarryAll([]);
    CarriedKinds(t);
  }

  lemma {:induction false} CarriedKinds(t: History)
    ensures forall j :: 0 <= j < |CarryAll(t)| ==> IsCarried(CarryAll(t)[j])
    ensures |CarryAll(t)| == |Keep(t, IsCarried)|
  {
    if t != [] {
      CarriedKinds(t[1..]);
    }
  }

  /** The working tail starts at a trailing agent message, right after a trailing human
      turn, or at the start; no anchor follows. */
  lemma TailStartMeaning(c: History)
    ensures var n := TailStart(c);
      && (forall k :: n < k < |c| ==> !IsAnchor(c[k]))
      && (n < |c| && IsAnchor(c[n]) ==> IsAgentMessage(c[n]))
      && (n > 0 && (n == |c| || !IsAgentMessage(c[n])) ==> IsRealUserTurn(c[n - 1]))
  {
    hide IsRealUserTurn, IsAgentMessage;
  }

  /** `k` is the last human turn, or the last agent message, of the history. */
  ghost predicate LastHuman(c: History, k: nat) {
    k < |c| && IsRealUserTurn(c[k]) && forall j :: k < j < |c| ==> !IsRealUserTurn(c[j])
  }

  ghost predicate LastAgent(c: History, k: nat) {
    && k < |c| && c[k].User? && c[k].reason == Some(AgentMessage)
    && forall j :: k < j < |c| ==> !(c[j].User? && c[j].reason == Some(AgentMessage))
  }

  /** What is captured: the query of the last human turn, and the last agent message with
      the side of that turn it stands on. */
  lemma CapturedMeaning(c: History)
    ensures (forall k: nat :: !LastHuman(c, k)) ==> LastRealUserQuery(c) == None
    ensures forall k: nat :: LastHuman(c, k) ==> LastRealUserQuery(c) == Some(ExtractUserQuery(JoinTexts(c[k].parts)))
    ensures (forall k: nat :: !LastAgent(c, k)) ==> LatestAgentMessage(c) == None
    ensures forall k: nat :: LastAgent(c, k) && (forall h: nat :: !LastHuman(c, h)) ==> LatestAgentMessage(c) == Some(Anchor(c[k], Only))
    ensures forall k: nat, h: nat :: LastAgent(c, k) && LastHuman(c, h) ==>
              LatestAgentMessage(c) == Some(Anchor(c[k], if k < h then BeforeHuman else AfterHuman))
  {
    hide IsRealUserTurn, ExtractUserQuery, JoinTexts;
    var human, agent := LastWhere(c, IsRealUserTurn), LastWhere(c, IsAgentMessage);
    assert human.Some? ==> LastHuman(c, human.value);
    assert agent.Some? ==> LastAgent(c, agent.value);
    forall h: nat | LastHuman(c, h) ensures human == Some(h) {
      assert IsRealUserTurn(c[h]);
    }
    forall k: nat | LastAgent(c, k) ensures agent == Some(k) {
      assert IsAgentMessage(c[k]);
    }
  }

  /** One round, laid out: the context is the captured one, in either view. */
  lemma CompactLaid(c: History, r: Round) returns (ctx: Context)
    ensures Laid(Compact(c, r), ctx, r)
    ensures ctx.cwdGeneration == r.cwdGeneration && ctx.destination == r.destination
    ensures ctx.lastQuery == LastRealUserQuery(c) && ctx.anchor == LatestAgentMessage(c)
    ensures ctx.recent == if r.keepTail then CarryAll(c[TailStart(c)..]) else []
  {
    hide Laid;
    ctx := CompactContext(c, r);
    AssembleLaid(ctx, r);
  }

  // ----- the shape of a rebuilt history

  /** The anchors of a rebuilt history, in order. */
  function Core(c: History): History {
    AnchorAt(LatestAgentMessage(c), true) + QueryItem(LastRealUserQuery(c)) + AnchorAt(LatestAgentMessage(c), false)
  }

  ghost predicate IsPlain(item: Item) {
    !IsRealUserTurn(item) && !IsAgentMessage(item)
  }

  ghost predicate Plain(items: History) {
    forall k :: 0 <= k < |items| ==> IsPlain(items[k])
  }

  lemma PlainItems(item: Item)
    ensures !item.User? || (item.reason.Some? && item.reason.value != AgentMessage) ==> IsPlain(item)
  {
    hide ExtractUserQuery, IsSyntheticQuery;
  }

  lemma PlainOptional(text: Option<string>, reason: Reason)
    requires reason != AgentMessage
    ensures Plain(Optional(text, reason))
  {
    hide IsPlain;
    if text.Some? {
      PlainItems(Synthetic(text.value, reason));
    }
  }

  lemma PlainEnds(ctx: Context, r: Round)
    ensures Plain(Head(ctx, r)) && Plain(Foot(r))
  {
    hide IsPlain, SummaryItem;
    PlainItems(System(r.system));
    PlainItems(Synthetic(r.prefix, CompactionMeta));
    PlainOptional(if ctx.cwdGeneration == 0 then r.agentsMd else ctx.destination, ProjectInstructions);
    PlainSummary(r);
    PlainOptional(r.reminder, SystemReminder);
  }

  lemma PlainSummary(r: Round)
    ensures IsPlain(SummaryItem(r))
  {
    hide IsPlain, PREAMBLE, SummaryFormat.Format;
    PlainItems(SummaryItem(r));
  }

  lemma PlainConcat(a: History, b: History)
    requires Plain(a) && Plain(b)
    ensures Plain(a + b)
  {
    hide IsPlain;
  }

  lemma {:induction false} CarriedPlain(c: History)
    requires NoneOf(c, IsAgentMessage)
    ensures Plain(CarryAll(c))
  {
    hide IsPlain, IsRealUserTurn;
    if c != [] {
      assert NoneOf(c[1..], IsAgentMessage);
      CarriedPlain(c[1..]);
      assert !IsAgentMessage(c[0]);
      if Carried(c[0]) != [] {
        PlainItems(Carried(c[0])[0]);
      }
      PlainConcat(Carried(c[0]), CarryAll(c[1..]));
    }
  }

  /** Where the last anchor is, the last human turn or agent message is. */
  lemma LastAnchor(c: History)
    ensures match LastWhere(c, IsAnchor)
            case None => LastWhere(c, IsAgentMessage).None? && LastWhere(c, IsRealUserTurn).None?
            case Some(k) =>
              if IsAgentMessage(c[k]) then LastWhere(c, IsAgentMessage) == Some(k)
              else LastWhere(c, IsRealUserTurn) == Some(k)
  {
    hide IsRealUserTurn, IsAgentMessage;
    var k := LastWhere(c, IsAnchor);
    assert forall i :: 0 <= i < |c| ==> IsAnchor(c[i]) == (IsRealUserTurn(c[i]) || IsAgentMessage(c[i]));
  }

  lemma AfterTailStart(c: History)
    ensures match LastWhere(c, IsAnchor)
            case None => NoneOf(c[TailStart(c)..], IsAgentMessage)
            case Some(k) => NoneOf(c[k + 1..], IsAgentMessage)
  {
    hide IsRealUserTurn, IsAgentMessage;
  }

  /** The working tail holds the latest agent message, first, exactly when
      nothing human came after it. */
  lemma RecentShape(c: History) returns (rest: History)
    ensures Plain(rest)
    ensures RecentMessages(c) == AnchorAt(LatestAgentMessage(c), false) + rest
  {
    hide IsRealUserTurn, IsPlain;
    LastAnchor(c);
    AfterTailStart(c);
    var tail := c[TailStart(c)..];
    match LastWhere(c, IsAnchor)
    case None =>
      rest := RecentMessages(c);
      CarriedPlain(tail);
    case Some(k) =>
      if IsAgentMessage(c[k]) {
        assert tail == [c[k]] + c[k + 1..];
        rest := CarryAll(c[k + 1..]);
        CarriedPlain(c[k + 1..]);
        assert tail[1..] == c[k + 1..];
        LatestAfterHuman(c, k);
      } else {
        rest := RecentMessages(c);
        CarriedPlain(tail);
        LatestBeforeHuman(c, k);
      }
  }

  lemma LatestAfterHuman(c: History, k: nat)
    requires LastWhere(c, IsAnchor) == Some(k) && LastWhere(c, IsAgentMessage) == Some(k)
    ensures AnchorAt(LatestAgentMessage(c), false) == [c[k]]
  {
    hide IsRealUserTurn, IsAgentMessage;
  }

  lemma LatestBeforeHuman(c: History, k: nat)
    requires LastWhere(c, IsAnchor) == Some(k) && LastWhere(c, IsRealUserTurn) == Some(k) && !IsAgentMessage(c[k])
    ensures AnchorAt(LatestAgentMessage(c), false) == []
  {
    hide IsRealUserTurn, IsAgentMessage;
  }

  /** In either view the anchors and the tail hold the latest agent message
      once, on its side of the human query. */
  lemma AnchorsAndTail(c: History, ctx: Context, keepTail: bool) returns (rest: History)
    requires ctx.anchor == LatestAgentMessage(c) && ctx.recent == if keepTail then RecentMessages(c) else []
    ensures Plain(rest)
    ensures AnchorAt(AnchorToPlace(ctx), true) == AnchorAt(LatestAgentMessage(c), true)
    ensures AnchorAt(AnchorToPlace(ctx), false) + ctx.recent == AnchorAt(LatestAgentMessage(c), false) + rest
  {
    hide IsRealUserTurn, RecentMessages, LatestAgentMessage;
    var anchor := LatestAgentMessage(c);
    if !keepTail {
      rest := [];
    } else {
      rest := RecentShape(c);
      if AnchorAt(anchor, false) != [] {
        LatestIsAgent(c);
        assert ctx.recent[0] == anchor.value.item && ctx.recent[0] in ctx.recent;
        assert AnchorToPlace(ctx).None?;
      } else {
        assert ctx.recent == rest;
        assert forall k :: 0 <= k < |rest| ==> IsPlain(rest[k]);
        assert AnchorToPlace(ctx) == anchor;
      }
    }
  }

  lemma LatestIsAgent(c: History)
    ensures var a := LatestAgentMessage(c); a.Some? ==> IsAgentMessage(a.value.item)
  {
    hide IsRealUserTurn;
  }

  lemma CompactContext(c: History, r: Round) returns (ctx: Context)
    ensures Compact(c, r) == Assemble(ctx, r)
    ensures ctx.cwdGeneration == r.cwdGeneration && ctx.destination == r.destination
    ensures ctx.anchor == LatestAgentMessage(c) && ctx.lastQuery == LastRealUserQuery(c)
    ensures ctx.recent == if r.keepTail then RecentMessages(c) else []
  {
    hide IsRealUserTurn, RecentMessages, LastRealUserQuery, Assemble;
    var full := Build(c, r.cwdGeneration, r.destination);
    ctx := if r.keepTail then full else ForCompaction(full);
    if LatestAgentMessage(c).None? {
      var rest := RecentShape(c);
      assert forall k :: 0 <= k < |rest| ==> IsPlain(rest[k]);
      assert full.recent == rest;
    }
  }

  lemma CompactShape(c: History, r: Round) returns (head: History, foot: History)
    ensures Compact(c, r) == head + Core(c) + foot && Plain(head) && Plain(foot)
  {
    hide *;
    var ctx := CompactContext(c, r);
    var rest := AnchorsAndTail(c, ctx, r.keepTail);
    head := Head(ctx, r);
    PlainEnds(ctx, r);
    foot := rest + Foot(r);
    PlainConcat(rest, Foot(r));
    AssembleIs(ctx, r);
    CoreIs(c);
    ShapeParts(head, AnchorAt(AnchorToPlace(ctx), true), QueryItem(ctx.lastQuery), AnchorAt(AnchorToPlace(ctx), false),
      AnchorAt(LatestAgentMessage(c), false), ctx.recent, rest, Foot(r));
  }

  lemma AssembleIs(ctx: Context, r: Round)
    ensures Assemble(ctx, r) == Head(ctx, r)
      + AnchorAt(AnchorToPlace(ctx), true) + QueryItem(ctx.lastQuery) + AnchorAt(AnchorToPlace(ctx), false)
      + ctx.recent + Foot(r)
  {
  }

  lemma CoreIs(c: History)
    ensures Core(c) == AnchorAt(LatestAgentMessage(c), true) + QueryItem(LastRealUserQuery(c)) + AnchorAt(LatestAgentMessage(c), false)
  {
  }

  lemma ShapeParts(head: History, before: History, query: History, after: History, last: History,
                   recent: History, rest: History, foot: History)
    requires after + recent == last + rest
    ensures head + before + query + after + recent + foot == head + (before + query + last) + (rest + foot)
  {
    assert head + before + query + after + recent == head + before + query + (after + recent);
  }

  // ----- what a round keeps

  /** A query that survives being wrapped, extracted and classified again. */
  ghost predicate Stable(q: string) {
    Wrappable(q) && !IsSyntheticQuery(q)
  }

  /** The human query after one more round. */
  function NextQuery(query: Option<string>): Option<string> {
    match query
    case None => None
    case Some(q) =>
      var again := ExtractUserQuery(WrapUserQuery(q));
      if IsSyntheticQuery(again) then None else Some(again)
  }

  lemma NextQueryStable(q: string)
    ensures NextQuery(Some(q)) == Some(q) <==> Stable(q)
    ensures NextQuery(Some(q)).Some? ==> NextQuery(Some(q)) == Some(q) || |NextQuery(Some(q)).value| < |q|
  {
    hide Wrappable, IsSyntheticQuery, ExtractUserQuery, WrapUserQuery;
    ExtractUndoesWrap(q);
    ExtractShrinks(q);
  }

  lemma WrappedTurn(q: string)
    ensures IsRealUserTurn(UserText(WrapUserQuery(q))) == !IsSyntheticQuery(ExtractUserQuery(WrapUserQuery(q)))
    ensures !IsAgentMessage(UserText(WrapUserQuery(q)))
    ensures JoinTexts(UserText(WrapUserQuery(q)).parts) == WrapUserQuery(q)
  {
    hide IsSyntheticQuery, ExtractUserQuery, WrapUserQuery;
  }

  /** What the anchors of a history say about its last human query and its
      agent message. */
  lemma CoreMeaning(c: History)
    ensures LastRealUserQuery(Core(c)) == NextQuery(LastRealUserQuery(c))
    ensures Keep(Core(c), IsAgentMessage) == match LatestAgentMessage(c) case None => [] case Some(a) => [a.item]
    ensures NextQuery(LastRealUserQuery(c)).Some? || LastRealUserQuery(c).None? ==>
              LatestAgentMessage(Core(c)) == LatestAgentMessage(c)
  {
    hide LatestAgentMessage, LastRealUserQuery, WrapUserQuery, ExtractUserQuery, IsRealUserTurn, IsAgentMessage, NextQuery;
    LatestIsAgent(c);
    NextQueryNone();
    PositionMeaning(c);
    var query := LastRealUserQuery(c);
    if query.Some? {
      WrappedTurn(query.value);
    }
    match LatestAgentMessage(c)
    case None =>
      assert Core(c) == QueryItem(query);
      CoreAlone(Core(c), query);
    case Some(a) => CoreWithAgent(Core(c), query, a);
  }

  lemma PositionMeaning(c: History)
    ensures var a := LatestAgentMessage(c);
            a.Some? ==> (a.value.position == Only <==> LastRealUserQuery(c).None?)
  {
    hide IsRealUserTurn, ExtractUserQuery, JoinTexts;
  }

  lemma CoreAlone(core: History, query: Option<string>)
    requires core == QueryItem(query)
    ensures LastRealUserQuery(core) == NextQuery(query)
    ensures Keep(core, IsAgentMessage) == [] && LatestAgentMessage(core).None?
  {
    hide IsSyntheticQuery, ExtractUserQuery, WrapUserQuery, IsRealUserTurn, IsAgentMessage, JoinTexts;
    if query.Some? {
      WrappedTurn(query.value);
      var q := UserText(WrapUserQuery(query.value));
      assert core == [q];
      WhereInPair(q, q, IsRealUserTurn);
      WhereInPair(q, q, IsAgentMessage);
    }
  }

  lemma CoreWithAgent(core: History, query: Option<string>, a: Anchor)
    requires core == AnchorAt(Some(a), true) + QueryItem(query) + AnchorAt(Some(a), false)
    requires IsAgentMessage(a.item) && (a.position == Only <==> query.None?)
    ensures LastRealUserQuery(core) == NextQuery(query)
    ensures Keep(core, IsAgentMessage) == [a.item]
    ensures NextQuery(query).Some? || query.None? ==> LatestAgentMessage(core) == Some(a)
  {
    hide IsSyntheticQuery, ExtractUserQuery, WrapUserQuery, IsRealUserTurn, IsAgentMessage, JoinTexts, LastWhere, Keep;
    AgentIsNotHuman(a.item);
    if query.None? {
      assert core == [a.item];
      WhereInPair(a.item, a.item, IsRealUserTurn);
      WhereInPair(a.item, a.item, IsAgentMessage);
    } else {
      WrappedTurn(query.value);
      var q := UserText(WrapUserQuery(query.value));
      var x, y := if a.position == BeforeHuman then a.item else q, if a.position == BeforeHuman then q else a.item;
      assert core == [x, y];
      WhereInPair(x, y, IsRealUserTurn);
      WhereInPair(x, y, IsAgentMessage);
    }
  }

  lemma AgentIsNotHuman(item: Item)
    requires IsAgentMessage(item)
    ensures !IsRealUserTurn(item)
  {
    hide ExtractUserQuery, IsSyntheticQuery;
  }

  /** Plain padding hides nothing and adds nothing. */
  lemma PaddedMeaning(head: History, m: History, foot: History)
    requires Plain(head) && Plain(foot)
    ensures LastRealUserQuery(head + m + foot) == LastRealUserQuery(m)
    ensures LatestAgentMessage(head + m + foot) == LatestAgentMessage(m)
    ensures Keep(head + m + foot, IsAgentMessage) == Keep(m, IsAgentMessage)
  {
    hide IsRealUserTurn, IsAgentMessage, ExtractUserQuery, JoinTexts, LastWhere, Keep;
    var w := head + m + foot;
    assert forall k :: 0 <= k < |m| ==> w[|head| + k] == m[k];
    LastWherePadded(head, m, foot, IsRealUserTurn);
    LastWherePadded(head, m, foot, IsAgentMessage);
  }

  /** One round, in either view, with any summary: the query becomes its
      re-extraction, the latest agent message is the only one left, and it
      keeps its side of the human query as long as there still is one. */
  lemma CompactMeaning(c: History, r: Round)
    ensures LastRealUserQuery(Compact(c, r)) == NextQuery(LastRealUserQuery(c))
    ensures Keep(Compact(c, r), IsAgentMessage) == match LatestAgentMessage(c) case None => [] case Some(a) => [a.item]
    ensures NextQuery(LastRealUserQuery(c)).Some? || LastRealUserQuery(c).None? ==>
              LatestAgentMessage(Compact(c, r)) == LatestAgentMessage(c)
  {
    hide Compact, Core, LatestAgentMessage, LastRealUserQuery, NextQuery, Plain, Keep;
    var head, foot := CompactShape(c, r);
    PaddedMeaning(head, Core(c), foot);
    CoreMeaning(c);
  }

  // ----- main results

  /** Any number of rounds with any summaries keeps a stable query, exactly
      one agent message where there was one, its content and its position. */
  lemma {:induction false} RunIsStable(c: History, rounds: seq<Round>)
    requires rounds != []
    requires LastRealUserQuery(c).Some? ==> Stable(LastRealUserQuery(c).value)
    ensures LastRealUserQuery(Run(c, rounds)) == LastRealUserQuery(c)
    ensures LatestAgentMessage(Run(c, rounds)) == LatestAgentMessage(c)
    ensures Keep(Run(c, rounds), IsAgentMessage) == match LatestAgentMessage(c) case None => [] case Some(a) => [a.item]
    decreases |rounds|
  {
    hide Compact, LatestAgentMessage, LastRealUserQuery, NextQuery, Stable, Keep;
    CompactMeaning(c, rounds[0]);
    if LastRealUserQuery(c).Some? {
      NextQueryStable(LastRealUserQuery(c).value);
    }
    NextQueryNone();
    if |rounds| > 1 {
      RunIsStable(Compact(c, rounds[0]), rounds[1..]);
    }
  }

  /** The only agent message of a history is its latest one. */
  lemma LatestOfKept(c: History)
    ensures Keep(c, IsAgentMessage) == [] <==> LatestAgentMessage(c).None?
    ensures |Keep(c, IsAgentMessage)| == 1 ==> Keep(c, IsAgentMessage) == [LatestAgentMessage(c).value.item]
  {
    hide IsAgentMessage, IsRealUserTurn;
    var k := LastWhere(c, IsAgentMessage);
    if k.Some? {
      var a, b := c[..k.value], c[k.value + 1..];
      assert c == (a + [c[k.value]]) + b;
      KeepConcat(a + [c[k.value]], b, IsAgentMessage);
      KeepConcat(a, [c[k.value]], IsAgentMessage);
      WhereInPair(c[k.value], c[k.value], IsAgentMessage);
    }
  }

  /** Whatever becomes of the query, any number of rounds keeps exactly one agent
      message where there was one, with its content. */
  lemma {:induction false} RunKeepsAgent(c: History, rounds: seq<Round>)
    requires rounds != []
    ensures Keep(Run(c, rounds), IsAgentMessage) == match LatestAgentMessage(c) case None => [] case Some(a) => [a.item]
    decreases |rounds|
  {
    hide Compact, LatestAgentMessage, LastRealUserQuery, NextQuery, Keep, IsAgentMessage;
    var next := Compact(c, rounds[0]);
    CompactMeaning(c, rounds[0]);
    if |rounds| > 1 {
      LatestOfKept(next);
      RunKeepsAgent(next, rounds[1..]);
    }
  }

  lemma NextQueryNone()
    ensures NextQuery(None) == None
  {
  }

  /** The query outlives the rounds exactly when it is stable. */
  lemma {:induction false} RunKeepsQuery(c: History, rounds: seq<Round>, q: string)
    requires rounds != [] && LastRealUserQuery(c) == Some(q)
    ensures LastRealUserQuery(Run(c, rounds)) == Some(q) <==> Stable(q)
  {
    if Stable(q) {
      RunIsStable(c, rounds);
    } else {
      hide Compact, LastRealUserQuery, NextQuery, Stable;
      CompactMeaning(c, rounds[0]);
      NextQueryStable(q);
      RunShrinks(Compact(c, rounds[0]), rounds[1..]);
    }
  }

  lemma {:induction false} RunShrinks(c: History, rounds: seq<Round>)
    ensures LastRealUserQuery(c).None? ==> LastRealUserQuery(Run(c, rounds)).None?
    ensures LastRealUserQuery(Run(c, rounds)).Some? && LastRealUserQuery(c).Some? ==>
              |LastRealUserQuery(Run(c, rounds)).value| <= |LastRealUserQuery(c).value|
    decreases |rounds|
  {
    hide Compact, LastRealUserQuery, NextQuery, Stable;
    if rounds != [] {
      CompactMeaning(c, rounds[0]);
      NextQueryNone();
      if LastRealUserQuery(c).Some? {
        NextQueryStable(LastRealUserQuery(c).value);
      }
      RunShrinks(Compact(c, rounds[0]), rounds[1..]);
    }
  }

  /** An image prompt without text anchors one compaction but not the next:
      its empty query is rebuilt as a text that counts as synthetic. */
  lemma ImageOnlyQueryLost(url: string, r: Round)
    ensures var c := [User([Image(url)], None, "")];
      && LastRealUserQuery(c) == Some("")
      && LastRealUserQuery(Compact(c, r)) == None
  {
    hide Compact, ExtractUserQuery, NextQuery;
    var item := User([Image(url)], None, "");
    assert item.parts[0] in item.parts && IsRealUserTurn(item);
    assert LastWhere([item], IsRealUserTurn) == Some(0);
    assert JoinTexts(item.parts) == "";
    EmptyQuery();
    CompactMeaning([item], r);
  }

  lemma EmptyQuery()
    ensures ExtractUserQuery("") == "" && NextQuery(Some("")) == None
  {
    hide ExtractUserQuery, WrapUserQuery, Wrappable;
    ExtractEmpty();
    EmptyWrappable();
    ExtractUndoesWrap("");
  }

  // ----- provider pairing after a round that keeps the working tail

  ghost predicate NoCalls(items: History) {
    forall k :: 0 <= k < |items| ==> !items[k].Assistant? && !items[k].ToolResult?
  }

  lemma {:induction false} MisplacedAfter(a: History, b: History)
    requires NoCalls(b)
    ensures MisplacedIds(AnyEarlier, a + b) == MisplacedIds(AnyEarlier, a)
    ensures Known(AnyEarlier, a + b) == Known(AnyEarlier, a)
  {
    if b == [] {
      assert a + b == a;
    } else {
      var b' := b[..|b| - 1];
      assert (a + b)[..|a + b| - 1] == a + b' && (a + b)[|a + b| - 1] == b[|b| - 1];
      MisplacedAfter(a, b');
    }
  }

  lemma {:induction false} MisplacedBefore(a: History, m: History)
    requires NoCalls(a)
    ensures MisplacedIds(AnyEarlier, a + m) == MisplacedIds(AnyEarlier, m)
    ensures Known(AnyEarlier, a + m) == Known(AnyEarlier, m)
  {
    if m == [] {
      assert a + m == [] + a;
      MisplacedAfter([], a);
    } else {
      var m' := m[..|m| - 1];
      assert (a + m)[..|a + m| - 1] == a + m' && (a + m)[|a + m| - 1] == m[|m| - 1];
      MisplacedBefore(a, m');
    }
  }

  lemma {:induction false} CarryAllConcat(a: History, b: History)
    ensures CarryAll(a + b) == CarryAll(a) + CarryAll(b)
  {
    if a == [] {
      assert a + b == b;
    } else {
      assert (a + b)[1..] == a[1..] + b;
      CarryAllConcat(a[1..], b);
    }
  }

  /** Carrying a tail over changes no pairing in it. */
  lemma {:induction false} CarryKeepsPairing(t: History)
    ensures MisplacedIds(AnyEarlier, CarryAll(t)) == MisplacedIds(AnyEarlier, t)
    ensures Known(AnyEarlier, CarryAll(t)) == Known(AnyEarlier, t)
  {
    hide IsAgentMessage;
    if t != [] {
      var last, before := t[|t| - 1], t[..|t| - 1];
      CarryKeepsPairing(before);
      assert t == before + [last];
      CarryAllConcat(before, [last]);
      var carried := CarryAll(before);
      assert CarryAll([last]) == Carried(last);
      if Carried(last) != [] {
        assert (carried + Carried(last))[..|carried|] == carried;
      } else {
        assert carried + [] == carried;
      }
    }
  }

  lemma SummaryIsUser(r: Round)
    ensures SummaryItem(r).User?
  {
    hide SummaryFormat.Format;
  }

  lemma AnchorIsUser(item: Item)
    ensures IsAnchor(item) ==> item.User?
  {
    hide ExtractUserQuery, IsSyntheticQuery;
  }

  /** The rebuilt history misplaces just the results the tail misplaces. */
  lemma RebuiltPairing(c: History, r: Round)
    requires r.keepTail
    ensures MisplacedIds(AnyEarlier, Compact(c, r)) == MisplacedIds(AnyEarlier, c[TailStart(c)..])
  {
    hide IsRealUserTurn, LatestAgentMessage, LastRealUserQuery, SummaryItem, WrapUserQuery;
    var ctx := Build(c, r.cwdGeneration, r.destination);
    LatestIsAgent(c);
    var tail := c[TailStart(c)..];
    var head := Head(ctx, r) + AnchorAt(AnchorToPlace(ctx), true) + QueryItem(ctx.lastQuery) + AnchorAt(AnchorToPlace(ctx), false);
    SummaryIsUser(r);
    assert NoCalls(head) && NoCalls(Foot(r));
    MisplacedAfter(head + ctx.recent, Foot(r));
    MisplacedBefore(head, ctx.recent);
    CarryKeepsPairing(tail);
  }

  /** Every result has its call before it with no anchor in between; runtime
      injections may separate them. */
  ghost predicate CallsReach(c: History) {
    forall k :: 0 <= k < |c| && c[k].ToolResult? ==>
      exists o :: 0 <= o < k && Declares(c[o], c[k].id) && forall j :: o < j < k ==> !IsAnchor(c[j])
  }

  /** A round that keeps the tail of such a history validates, and holds
      exactly one agent message if the history had any. */
  lemma RebuiltValidates(c: History, r: Round)
    requires r.keepTail && CallsReach(c)
    ensures MisplacedIds(AnyEarlier, Compact(c, r)) == []
    ensures |Keep(Compact(c, r), IsAgentMessage)| == if LatestAgentMessage(c).Some? then 1 else 0
  {
    hide IsRealUserTurn, Compact, Keep;
    RebuiltPairing(c, r);
    CompactMeaning(c, r);
    TailPaired(c);
    PairedFixed(AnyEarlier, c[TailStart(c)..]);
  }

  lemma TailPaired(c: History)
    requires CallsReach(c)
    ensures Paired(AnyEarlier, c[TailStart(c)..])
  {
    hide IsAnchor, IsAgentMessage, TailStart;
    var tail := c[TailStart(c)..];
    forall k | 0 <= k < |tail| ensures !Misplaced(AnyEarlier, tail[..k], tail[k]) {
      if tail[k].ToolResult? {
        ResultInTail(c, TailStart(c) + k);
        assert c[TailStart(c)..TailStart(c) + k] == tail[..k];
      }
    }
  }

  lemma ResultInTail(c: History, k: nat)
    requires CallsReach(c) && TailStart(c) <= k < |c| && c[k].ToolResult?
    ensures c[k].id in Known(AnyEarlier, c[TailStart(c)..k])
  {
    hide IsAnchor, IsAgentMessage, TailStart;
    var o :| 0 <= o < k && Declares(c[o], c[k].id) && forall j :: o < j < k ==> !IsAnchor(c[j]);
    OwnerInTail(c, o, k);
    var before := c[TailStart(c)..k];
    assert before[o - TailStart(c)] == c[o];
    KnownMeaning(AnyEarlier, before, c[k].id);
  }

  lemma OwnerInTail(c: History, o: nat, k: nat)
    requires TailStart(c) <= k < |c| && c[k].ToolResult? && o < k && c[o].Assistant?
    requires forall j :: o < j < k ==> !IsAnchor(c[j])
    ensures TailStart(c) <= o
  {
    hide IsRealUserTurn;
    var last := LastWhere(c, IsAnchor);
    if last.Some? {
      AnchorIsUser(c[last.value]);
      assert last.value != k && last.value != o;
    }
  }
}
