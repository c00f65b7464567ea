/** The per-session billing ledger: one running total, one total per model,
    added with saturation. The ledger's fields live in a class; what they hold
    after any run is stated on values. */
module UsageLedger {
  import opened Wrappers
  import opened Integers

  function AddU64(a: U64, b: U64): U64 { if a + b <= MAX_U64 then a + b else MAX_U64 }

  function AddI64(a: I64, b: I64): I64 {
    if a + b > MAX_I64 then MAX_I64 else if a + b < MIN_I64 then MIN_I64 else a + b
  }

  datatype TokenUsage = TokenUsage(
    promptTokens: U32, completionTokens: U32, reasoningTokens: U32,
    cachedPromptTokens: U32, cacheCreationPromptTokens: U32)

  datatype Totals = Totals(
    inputTokens: U64, outputTokens: U64, cachedReadTokens: U64, cacheCreationTokens: U64,
    reasoningTokens: U64, modelCalls: U64, apiDurationMs: U64,
    costUsdTicks: Option<I64>, costMissingCalls: U64)

  const ZERO := Totals(0, 0, 0, 0, 0, 0, 0, None, 0)

  /** A wire cost that is zero or negative was not reported. */
  function ReportedCostTicks(raw: Option<I64>): Option<I64> {
    if raw.Some? && raw.value > 0 then raw else None
  }

  function FromCall(usage: TokenUsage, apiDurationMs: Option<U64>, costUsdTicks: Option<I64>): Totals {
    var cost := ReportedCostTicks(costUsdTicks);
    Totals(
      usage.promptTokens, usage.completionTokens, usage.cachedPromptTokens, usage.cacheCreationPromptTokens,
      usage.reasoningTokens, 1, if apiDurationMs.Some? then apiDurationMs.value else 0,
      cost, if cost.None? then 1 else 0)
  }

  function MergeCostTicks(a: Option<I64>, b: Option<I64>): Option<I64> {
    match (a, b)
    case (None, None) => None
    case (None, Some(y)) => Some(AddI64(0, y))
    case (Some(x), None) => Some(AddI64(x, 0))
    case (Some(x), Some(y)) => Some(AddI64(x, y))
  }

  function FoldTotals(a: Totals, b: Totals): Totals {
    Totals(
      AddU64(a.inputTokens, b.inputTokens), AddU64(a.outputTokens, b.outputTokens),
      AddU64(a.cachedReadTokens, b.cachedReadTokens), AddU64(a.cacheCreationTokens, b.cacheCreationTokens),
      AddU64(a.reasoningTokens, b.reasoningTokens), AddU64(a.modelCalls, b.modelCalls),
      AddU64(a.apiDurationMs, b.apiDurationMs),
      MergeCostTicks(a.costUsdTicks, b.costUsdTicks), AddU64(a.costMissingCalls, b.costMissingCalls))
  }

  function TotalTokens(t: Totals): U64 { AddU64(t.inputTokens, t.outputTokens) }

  predicate CostIsPartial(t: Totals) { t.costUsdTicks.Some? && t.costMissingCalls > 0 }

  // ----- the ledger as a value

  datatype Entry = Entry(model: string, totals: Totals)

  datatype Bill = Bill(totals: Totals, byModel: map<string, Totals>)

  datatype Ledger = Ledger(bill: Bill, mainLoopModelCalls: U64, incomplete: bool)

  const NO_BILL := Bill(ZERO, map[])
  const NEW_LEDGER := Ledger(NO_BILL, 0, false)

  function ModelTotals(b: Bill, model: string): Totals {
    if model in b.byModel then b.byModel[model] else ZERO
  }

  function FoldEntry(b: Bill, e: Entry): Bill {
    Bill(FoldTotals(b.totals, e.totals), b.byModel[e.model := FoldTotals(ModelTotals(b, e.model), e.totals)])
  }

  function FoldEntries(b: Bill, es: seq<Entry>): Bill {
    if es == [] then b else FoldEntry(FoldEntries(b, es[..|es| - 1]), es[|es| - 1])
  }

  datatype Operation =
    | MainLoopCall(model: string, usage: TokenUsage, apiDurationMs: Option<U64>, costUsdTicks: Option<I64>)
    | Subagent(entries: seq<Entry>, partial: bool)
    | MarkIncomplete

  function EntriesOf(op: Operation): seq<Entry> {
    match op
    case MainLoopCall(model, usage, ms, ticks) => [Entry(model, FromCall(usage, ms, ticks))]
    case Subagent(entries, _) => entries
    case MarkIncomplete => []
  }

  function Perform(l: Ledger, op: Operation): Ledger {
    Ledger(
      FoldEntries(l.bill, EntriesOf(op)),
      if op.MainLoopCall? then AddU64(l.mainLoopModelCalls, 1) else l.mainLoopModelCalls,
      l.incomplete || op.MarkIncomplete? || (op.Subagent? && op.partial))
  }

  /** The ledger after a run of operations from an empty one. */
  function Run(ops: seq<Operation>): Ledger {
    if ops == [] then NEW_LEDGER else Perform(Run(ops[..|ops| - 1]), ops[|ops| - 1])
  }

  /** Everything folded during a run, in order. */
  function Folded(ops: seq<Operation>): seq<Entry> {
    if ops == [] then [] else Folded(ops[..|ops| - 1]) + EntriesOf(ops[|ops| - 1])
  }

  // ----- amounts

  datatype Field =
    | InputTokens | OutputTokens | CachedReadTokens | CacheCreationTokens | ReasoningTokens
    | ModelCalls | ApiDurationMs | CostMissingCalls
    | CostTicks

  /** A field's amount; only the cost can be absent. */
  function Amount(t: Totals, f: Field): Option<int> {
    match f
    case InputTokens => Some(t.inputTokens)
    case OutputTokens => Some(t.outputTokens)
    case CachedReadTokens => Some(t.cachedReadTokens)
    case CacheCreationTokens => Some(t.cacheCreationTokens)
    case ReasoningTokens => Some(t.reasoningTokens)
    case ModelCalls => Some(t.modelCalls)
    case ApiDurationMs => Some(t.apiDurationMs)
    case CostMissingCalls => Some(t.costMissingCalls)
    case CostTicks => t.costUsdTicks
  }

  /** The range a field saturates at. */
  function Limit(f: Field): int { if f == CostTicks then MAX_I64 else MAX_U64 }

  function Floor(f: Field): int { if f == CostTicks then MIN_I64 else 0 }

  /** Addition without a limit, absent only when both are. */
  function Plus(a: Option<int>, b: Option<int>): Option<int> {
    if a.None? then b else if b.None? then a else Some(a.value + b.value)
  }

  function Clamped(a: Option<int>, f: Field): Option<int> {
    if a.None? then None
    else if a.value > Limit(f) then Some(Limit(f))
    else if a.value < Floor(f) then Some(Floor(f))
    else a
  }

  function Exact(es: seq<Entry>, f: Field): Option<int> {
    if es == [] then Amount(ZERO, f) else Plus(Exact(es[..|es| - 1], f), Amount(es[|es| - 1].totals, f))
  }

  // ----- how far amounts can swing

  /** What the positive and what the negative amounts come to. */
  datatype Span = Span(up: nat, down: nat)

  const STILL := Span(0, 0)

  function SpanOf(a: Option<int>): Span {
    if a.None? then STILL else if a.value >= 0 then Span(a.value, 0) else Span(0, -a.value)
  }

  function Join(a: Span, b: Span): Span { Span(a.up + b.up, a.down + b.down) }

  predicate Inside(a: Span, b: Span) { a.up <= b.up && a.down <= b.down }

  function Spread(es: seq<Entry>, f: Field): Span {
    if es == [] then STILL else Join(Spread(es[..|es| - 1], f), SpanOf(Amount(es[|es| - 1].totals, f)))
  }

  /** Nothing is lost on the way: all amounts have one sign, or neither the
      positive nor the negative ones reach the end of the range. */
  predicate OnScale(s: Span, f: Field) {
    s.down == 0 || s.up == 0 || (s.up <= Limit(f) && s.down <= -Floor(f))
  }

  predicate Addable(es: seq<Entry>, f: Field) { OnScale(Spread(es, f), f) }

  predicate Within(a: Option<int>, s: Span) { a.Some? ==> a.value <= s.up && a.value + s.down >= 0 }

  lemma FoldAmount(a: Totals, b: Totals, f: Field)
    ensures Amount(FoldTotals(a, b), f) == Clamped(Plus(Amount(a, f), Amount(b, f)), f)
  {
  }

  /** On scale, clamping on the way changes nothing once the end is clamped. */
  lemma ClampEarly(a: Option<int>, b: Option<int>, f: Field, s: Span, t: Span, all: Span)
    requires Within(a, s) && Within(b, t) && Inside(Join(s, t), all) && OnScale(all, f)
    ensures Clamped(Plus(Clamped(a, f), b), f) == Clamped(Plus(a, b), f)
    ensures Clamped(Plus(Clamped(a, f), Clamped(b, f)), f) == Clamped(Plus(a, b), f)
    ensures Within(Plus(a, b), Join(s, t))
  {
    hide OnScale;
    ClampLeft(a, b, f, s, t, all);
    ClampLeft(b, Clamped(a, f), f, t, s, all);
    PlusCommutes(a, b);
    PlusCommutes(Clamped(a, f), b);
    PlusCommutes(Clamped(a, f), Clamped(b, f));
  }

  lemma PlusCommutes(a: Option<int>, b: Option<int>)
    ensures Plus(a, b) == Plus(b, a)
  {
  }

  lemma ClampLeft(a: Option<int>, b: Option<int>, f: Field, s: Span, t: Span, all: Span)
    requires Within(a, s) && Within(b, t) && Inside(Join(s, t), all) && OnScale(all, f)
    ensures Clamped(Plus(Clamped(a, f), b), f) == Clamped(Plus(a, b), f)
    ensures Within(Clamped(a, f), s) && Within(Plus(a, b), Join(s, t))
  {
    if a.Some? && b.Some? {
      var x, y, hi, lo := a.value, b.value, Limit(f), Floor(f);
      assert all.down == 0 || all.up == 0 || (lo <= x <= hi);
    }
  }

  lemma AmountWithin(t: Totals, f: Field)
    ensures Within(Amount(t, f), SpanOf(Amount(t, f))) && Within(Amount(ZERO, f), STILL)
  {
  }

  lemma {:induction false} ExactWithin(es: seq<Entry>, f: Field)
    ensures Within(Exact(es, f), Spread(es, f))
  {
    if es != [] {
      hide Amount;
      ExactWithin(es[..|es| - 1], f);
    } else {
      AmountWithin(ZERO, f);
    }
  }

  function Only(es: seq<Entry>, model: string): seq<Entry> {
    if es == [] then []
    else Only(es[..|es| - 1], model) + if es[|es| - 1].model == model then [es[|es| - 1]] else []
  }

  lemma OnlyStep(es: seq<Entry>, model: string, f: Field)
    requires es != []
    ensures var last, before := es[|es| - 1], Only(es[..|es| - 1], model);
            && Exact(Only(es, model), f) == (if last.model == model then Plus(Exact(before, f), Amount(last.totals, f)) else Exact(before, f))
            && Spread(Only(es, model), f) == if last.model == model then Join(Spread(before, f), SpanOf(Amount(last.totals, f))) else Spread(before, f)
  {
    var before, last := Only(es[..|es| - 1], model), es[|es| - 1];
    if last.model == model {
      assert Only(es, model) == before + [last];
      assert (before + [last])[..|before|] == before;
    } else {
      assert Only(es, model) == before + [] == before;
    }
  }

  lemma {:induction false} OnlyInside(es: seq<Entry>, model: string, f: Field)
    ensures Inside(Spread(Only(es, model), f), Spread(es, f))
  {
    if es != [] {
      hide Amount, Only;
      OnlyInside(es[..|es| - 1], model, f);
      OnlyStep(es, model, f);
    }
  }

  ghost predicate Billed(es: seq<Entry>, model: string) {
    exists i :: 0 <= i < |es| && es[i].model == model
  }

  lemma BilledStep(es: seq<Entry>, model: string)
    requires es != []
    ensures Billed(es, model) <==> es[|es| - 1].model == model || Billed(es[..|es| - 1], model)
  {
    if es[|es| - 1].model == model {
      assert Billed(es, model);
    }
    if Billed(es[..|es| - 1], model) {
      var i :| 0 <= i < |es| - 1 && es[..|es| - 1][i].model == model;
      assert es[i].model == model;
    }
    if Billed(es, model) {
      var i :| 0 <= i < |es| && es[i].model == model;
      assert i < |es| - 1 ==> es[..|es| - 1][i].model == model;
    }
  }

  lemma {:induction false} BillKeys(es: seq<Entry>, model: string)
    ensures model in FoldEntries(NO_BILL, es).byModel <==> Billed(es, model)
  {
    if es != [] {
      hide FoldTotals;
      BillKeys(es[..|es| - 1], model);
      BilledStep(es, model);
    }
  }

  lemma FoldedEntry(before: seq<Entry>, last: Entry, es: seq<Entry>, model: string)
    requires es != [] && es[..|es| - 1] == before && es[|es| - 1] == last
    ensures var b, c := FoldEntries(NO_BILL, before), FoldEntries(NO_BILL, es);
            && c.totals == FoldTotals(b.totals, last.totals)
            && ModelTotals(c, model) ==
               (if last.model == model then FoldTotals(ModelTotals(b, model), last.totals) else ModelTotals(b, model))
  {
  }

  /** One more amount on a clamped sum. */
  lemma EntryClamped(t: Totals, sum: Option<int>, s: Span, more: Totals, f: Field, all: Span)
    requires Amount(t, f) == Clamped(sum, f) && Within(sum, s)
    requires Inside(Join(s, SpanOf(Amount(more, f))), all) && OnScale(all, f)
    ensures Amount(FoldTotals(t, more), f) == Clamped(Plus(sum, Amount(more, f)), f)
  {
    hide Amount, FoldTotals, Clamped, OnScale;
    FoldAmount(t, more, f);
    AmountWithin(more, f);
    ClampEarly(sum, Amount(more, f), f, s, SpanOf(Amount(more, f)), all);
  }

  lemma {:induction false} BillExactIn(es: seq<Entry>, f: Field, model: string, all: Span)
    requires OnScale(all, f) && Inside(Spread(es, f), all)
    ensures var b := FoldEntries(NO_BILL, es);
            && Amount(b.totals, f) == Clamped(Exact(es, f), f)
            && Amount(ModelTotals(b, model), f) == Clamped(Exact(Only(es, model), f), f)
  {
    if es != [] {
      var before, last := es[..|es| - 1], es[|es| - 1];
      var b := FoldEntries(NO_BILL, before);
      hide Only, FoldTotals, FoldEntries, Amount, Clamped, OnScale, ModelTotals, SpanOf;
      BillExactIn(before, f, model, all);
      ExactWithin(before, f);
      EntryClamped(b.totals, Exact(before, f), Spread(before, f), last.totals, f, all);
      FoldedEntry(before, last, es, model);
      ModelExact(es, f, model, all, ModelTotals(b, model));
    }
  }

  /** The same step for one model's total. */
  lemma ModelExact(es: seq<Entry>, f: Field, model: string, all: Span, t: Totals)
    requires es != [] && OnScale(all, f) && Inside(Spread(es, f), all)
    requires Amount(t, f) == Clamped(Exact(Only(es[..|es| - 1], model), f), f)
    ensures var last := es[|es| - 1];
            Amount(if last.model == model then FoldTotals(t, last.totals) else t, f) == Clamped(Exact(Only(es, model), f), f)
  {
    var before, last := es[..|es| - 1], es[|es| - 1];
    hide Only, FoldTotals, Amount, Clamped, OnScale, SpanOf, Exact;
    OnlyInside(before, model, f);
    OnlyStep(es, model, f);
    ExactWithin(Only(before, model), f);
    if last.model == model {
      EntryClamped(t, Exact(Only(before, model), f), Spread(Only(before, model), f), last.totals, f, all);
    }
  }

  /** After any entries on scale, each total and each model's total is the clamped exact sum. */
  lemma BillExact(es: seq<Entry>, f: Field, model: string)
    requires Addable(es, f)
    ensures var b := FoldEntries(NO_BILL, es);
            && Amount(b.totals, f) == Clamped(Exact(es, f), f)
            && Amount(ModelTotals(b, model), f) == Clamped(Exact(Only(es, model), f), f)
            && (model in b.byModel <==> Billed(es, model))
  {
    hide Exact, Only, FoldEntries, Amount, Clamped, OnScale, ModelTotals, Spread;
    BillExactIn(es, f, model, Spread(es, f));
    BillKeys(es, model);
  }

  // ----- totals against the per-model index

  ghost predicate Distinct(order: seq<string>) {
    forall i, j :: 0 <= i < j < |order| ==> order[i] != order[j]
  }

  /** Every billed model once, in whatever order. */
  ghost predicate Orders(order: seq<string>, b: Bill) {
    Distinct(order) && forall m :: m in order <==> m in b.byModel
  }

  /** Adding up the per-model totals with saturation. */
  function Summed(b: Bill, order: seq<string>): Totals {
    if order == [] then ZERO
    else FoldTotals(Summed(b, order[..|order| - 1]), ModelTotals(b, order[|order| - 1]))
  }

  function ExactOver(es: seq<Entry>, order: seq<string>, f: Field): Option<int> {
    if order == [] then Amount(ZERO, f)
    else Plus(ExactOver(es, order[..|order| - 1], f), Exact(Only(es, order[|order| - 1]), f))
  }

  function SpreadOver(es: seq<Entry>, order: seq<string>, f: Field): Span {
    if order == [] then STILL
    else Join(SpreadOver(es, order[..|order| - 1], f), Spread(Only(es, order[|order| - 1]), f))
  }

  lemma {:induction false} ExactOverWithin(es: seq<Entry>, order: seq<string>, f: Field)
    ensures Within(ExactOver(es, order, f), SpreadOver(es, order, f))
  {
    if order == [] {
      AmountWithin(ZERO, f);
    } else {
      hide Amount, Only, Exact, Spread;
      ExactOverWithin(es, order[..|order| - 1], f);
      ExactWithin(Only(es, order[|order| - 1]), f);
    }
  }

  lemma {:induction false} SummedExact(es: seq<Entry>, order: seq<string>, f: Field, all: Span)
    requires OnScale(all, f) && Inside(Spread(es, f), all) && Inside(SpreadOver(es, order, f), all)
    ensures Amount(Summed(FoldEntries(NO_BILL, es), order), f) == Clamped(ExactOver(es, order, f), f)
  {
    var b := FoldEntries(NO_BILL, es);
    if order != [] {
      hide Exact, Only, FoldTotals, FoldEntries, ModelTotals, Amount, Clamped, OnScale, Spread;
      var before, last := order[..|order| - 1], order[|order| - 1];
      SummedExact(es, before, f, all);
      BillExactIn(es, f, last, all);
      ExactOverWithin(es, before, f);
      ExactWithin(Only(es, last), f);
      FoldAmount(Summed(b, before), ModelTotals(b, last), f);
      ClampEarly(ExactOver(es, before, f), Exact(Only(es, last), f), f,
        SpreadOver(es, before, f), Spread(Only(es, last), f), all);
    }
  }

  lemma PlusSwaps(a: Option<int>, b: Option<int>, c: Option<int>)
    ensures Plus(Plus(a, c), b) == Plus(Plus(a, b), c) == Plus(a, Plus(b, c))
  {
  }

  lemma JoinSwaps(a: Span, b: Span, c: Span)
    ensures Join(Join(a, c), b) == Join(Join(a, b), c) == Join(a, Join(b, c))
  {
  }

  /** One more entry counts once in a sum over distinct models. */
  lemma {:induction false} OverStep(es: seq<Entry>, order: seq<string>, f: Field)
    requires es != [] && Distinct(order)
    ensures var last, before := es[|es| - 1], es[..|es| - 1];
            && ExactOver(es, order, f) ==
              (if last.model in order then Plus(ExactOver(before, order, f), Amount(last.totals, f))
               else ExactOver(before, order, f))
            && SpreadOver(es, order, f) ==
              if last.model in order then Join(SpreadOver(before, order, f), SpanOf(Amount(last.totals, f)))
              else SpreadOver(before, order, f)
  {
    hide Exact, Only, Amount, Spread, SpanOf, Plus, Join;
    if order != [] {
      var shorter, m := order[..|order| - 1], order[|order| - 1];
      var more := es[|es| - 1].totals;
      OverStep(es, shorter, f);
      OnlyStep(es, m, f);
      assert m !in shorter;
      assert es[|es| - 1].model in order <==> es[|es| - 1].model == m || es[|es| - 1].model in shorter;
      PlusSwaps(ExactOver(es[..|es| - 1], shorter, f), Exact(Only(es[..|es| - 1], m), f), Amount(more, f));
      JoinSwaps(SpreadOver(es[..|es| - 1], shorter, f), Spread(Only(es[..|es| - 1], m), f), SpanOf(Amount(more, f)));
    }
  }

  lemma {:induction false} OverAll(es: seq<Entry>, order: seq<string>, f: Field)
    requires Distinct(order) && forall i :: 0 <= i < |es| ==> es[i].model in order
    ensures ExactOver(es, order, f) == Exact(es, f) && SpreadOver(es, order, f) == Spread(es, f)
  {
    if es == [] {
      NothingOver(es, order, f);
    } else {
      hide Amount, ExactOver, SpreadOver, SpanOf, Join, Plus;
      OverAll(es[..|es| - 1], order, f);
      OverStep(es, order, f);
    }
  }

  lemma {:induction false} NothingOver(es: seq<Entry>, order: seq<string>, f: Field)
    requires es == []
    ensures ExactOver(es, order, f) == Amount(ZERO, f) && SpreadOver(es, order, f) == STILL
  {
    if order != [] {
      NothingOver(es, order[..|order| - 1], f);
    }
  }

  /** Totals and per-model index agree in every field, in whatever order the models are added. */
  lemma TotalsMatchModels(es: seq<Entry>, order: seq<string>, f: Field)
    requires Addable(es, f) && Orders(order, FoldEntries(NO_BILL, es))
    ensures var b := FoldEntries(NO_BILL, es); Amount(b.totals, f) == Amount(Summed(b, order), f)
  {
    hide Exact, ExactOver, Amount, Summed, FoldEntries, OnScale, Clamped, Spread, SpreadOver;
    forall i | 0 <= i < |es| ensures es[i].model in order {
      BillKeys(es, es[i].model);
    }
    OverAll(es, order, f);
    SummedExact(es, order, f, Spread(es, f));
    BillExact(es, f, "");
  }

  // ----- whole runs

  lemma {:induction false} FoldMore(b: Bill, x: seq<Entry>, y: seq<Entry>)
    ensures FoldEntries(b, x + y) == FoldEntries(FoldEntries(b, x), y)
  {
    hide FoldEntry;
    if y == [] {
      assert x + y == x;
    } else {
      assert (x + y)[..|x + y| - 1] == x + y[..|y| - 1];
      FoldMore(b, x, y[..|y| - 1]);
    }
  }

  lemma {:induction false} RunBill(ops: seq<Operation>)
    ensures Run(ops).bill == FoldEntries(NO_BILL, Folded(ops))
  {
    if ops != [] {
      RunBill(ops[..|ops| - 1]);
      FoldMore(NO_BILL, Folded(ops[..|ops| - 1]), EntriesOf(ops[|ops| - 1]));
    }
  }

  /** After any run, every field of the totals is the capped exact sum of what was
      folded, and equals the saturating sum over the models in any order. */
  lemma RunTotals(ops: seq<Operation>, order: seq<string>, f: Field)
    requires Addable(Folded(ops), f) && Orders(order, Run(ops).bill)
    ensures var b := Run(ops).bill;
            && Amount(b.totals, f) == Clamped(Exact(Folded(ops), f), f)
            && Amount(b.totals, f) == Amount(Summed(b, order), f)
  {
    hide Run, Folded, FoldEntries, Exact, Summed, Amount, Orders, Addable, Clamped;
    RunBill(ops);
    BillExact(Folded(ops), f, "");
    TotalsMatchModels(Folded(ops), order, f);
  }

  // ----- what a run is charged for

  /** What one model call adds to a field: each of the call's token counts to its own
      field, one call, its duration if it was measured, and its cost if it is positive;
      otherwise the cost counts as missing. */
  function CallAmount(usage: TokenUsage, apiDurationMs: Option<U64>, costUsdTicks: Option<I64>, f: Field): Option<int> {
    match f
    case InputTokens => Some(usage.promptTokens)
    case OutputTokens => Some(usage.completionTokens)
    case CachedReadTokens => Some(usage.cachedPromptTokens)
    case CacheCreationTokens => Some(usage.cacheCreationPromptTokens)
    case ReasoningTokens => Some(usage.reasoningTokens)
    case ModelCalls => Some(1)
    case ApiDurationMs => if apiDurationMs.Some? then Some(apiDurationMs.value) else Some(0)
    case CostMissingCalls => if costUsdTicks.Some? && costUsdTicks.value > 0 then Some(0) else Some(1)
    case CostTicks => if costUsdTicks.Some? && costUsdTicks.value > 0 then Some(costUsdTicks.value) else None
  }

  function Nothing(f: Field): Option<int> { if f == CostTicks then None else Some(0) }

  /** What an operation adds to a field of the totals, or of the one model named. */
  function Charge(op: Operation, f: Field, who: Option<string>): Option<int> {
    match op
    case MainLoopCall(model, usage, ms, ticks) =>
      if who == None || who == Some(model) then CallAmount(usage, ms, ticks, f) else Nothing(f)
    case Subagent(entries, _) => ChargeAll(entries, f, who)
    case MarkIncomplete => Nothing(f)
  }

  function ChargeAll(es: seq<Entry>, f: Field, who: Option<string>): Option<int> {
    if es == [] then Nothing(f)
    else
      var last := es[|es| - 1];
      Plus(ChargeAll(es[..|es| - 1], f, who), if who == None || who == Some(last.model) then Amount(last.totals, f) else Nothing(f))
  }

  function Charged(ops: seq<Operation>, f: Field, who: Option<string>): Option<int> {
    if ops == [] then Nothing(f) else Plus(Charged(ops[..|ops| - 1], f, who), Charge(ops[|ops| - 1], f, who))
  }

  lemma PlusNothing(a: Option<int>, f: Field)
    ensures f == CostTicks || a.Some? ==> Plus(a, Nothing(f)) == a
    ensures Plus(Nothing(f), a) == if f == CostTicks || a.Some? then a else Some(0)
    ensures Amount(ZERO, f) == Nothing(f)
  {
  }

  lemma {:induction false} ChargeAllSome(es: seq<Entry>, f: Field, who: Option<string>)
    ensures f != CostTicks ==> ChargeAll(es, f, who).Some?
  {
    hide Amount;
    if es != [] {
      AmountPresent(es[|es| - 1].totals, f);
      ChargeAllSome(es[..|es| - 1], f, who);
    }
  }

  lemma AmountPresent(t: Totals, f: Field)
    ensures f != CostTicks ==> Amount(t, f).Some?
  {
  }

  lemma {:induction false} ChargeAllConcat(a: seq<Entry>, b: seq<Entry>, f: Field, who: Option<string>)
    ensures ChargeAll(a + b, f, who) == Plus(ChargeAll(a, f, who), ChargeAll(b, f, who))
  {
    hide Amount, Plus, Nothing;
    if b == [] {
      assert a + b == a;
      ChargeAllSome(a, f, who);
      PlusNothing(ChargeAll(a, f, who), f);
      assert ChargeAll(b, f, who) == Nothing(f);
    } else {
      var w, last := a + b, b[|b| - 1];
      assert w[..|w| - 1] == a + b[..|b| - 1] && w[|w| - 1] == last;
      ChargeAllConcat(a, b[..|b| - 1], f, who);
      PlusSwaps(ChargeAll(a, f, who), ChargeAll(b[..|b| - 1], f, who),
        if who == None || who == Some(last.model) then Amount(last.totals, f) else Nothing(f));
      PlusSwaps(ChargeAll(a, f, who),
        if who == None || who == Some(last.model) then Amount(last.totals, f) else Nothing(f), ChargeAll(b[..|b| - 1], f, who));
    }
  }

  lemma ChargeIs(op: Operation, f: Field, who: Option<string>)
    ensures ChargeAll(EntriesOf(op), f, who) == Charge(op, f, who)
  {
    match op
    case MainLoopCall(model, usage, ms, ticks) =>
      var e := Entry(model, FromCall(usage, ms, ticks));
      CallAmountIs(usage, ms, ticks, f);
      hide Amount, FromCall, Plus, Nothing, CallAmount;
      AmountPresent(e.totals, f);
      OneCharge(e, f, who);
    case Subagent(entries, _) =>
    case MarkIncomplete =>
  }

  lemma CallAmountIs(usage: TokenUsage, apiDurationMs: Option<U64>, costUsdTicks: Option<I64>, f: Field)
    ensures Amount(FromCall(usage, apiDurationMs, costUsdTicks), f) == CallAmount(usage, apiDurationMs, costUsdTicks, f)
  {
  }

  lemma OneCharge(e: Entry, f: Field, who: Option<string>)
    ensures ChargeAll([e], f, who) == if who == None || who == Some(e.model) then Amount(e.totals, f) else Nothing(f)
  {
    hide Amount, Plus, Nothing;
    var es := [e];
    assert es[..0] == [] && ChargeAll([], f, who) == Nothing(f);
    AmountPresent(e.totals, f);
    PlusNothing(Amount(e.totals, f), f);
    PlusNothing(Nothing(f), f);
    NothingPresent(f);
  }

  lemma NothingPresent(f: Field)
    ensures f != CostTicks ==> Nothing(f).Some?
  {
  }

  lemma {:induction false} ChargedIs(ops: seq<Operation>, f: Field, who: Option<string>)
    ensures ChargeAll(Folded(ops), f, who) == Charged(ops, f, who)
  {
    if ops != [] {
      hide Amount, Plus, Nothing, EntriesOf, Charge, ChargeAll;
      ChargedIs(ops[..|ops| - 1], f, who);
      ChargeIs(ops[|ops| - 1], f, who);
      ChargeAllConcat(Folded(ops[..|ops| - 1]), EntriesOf(ops[|ops| - 1]), f, who);
    }
  }

  lemma {:induction false} ExactCharges(es: seq<Entry>, f: Field, model: string)
    ensures Exact(es, f) == ChargeAll(es, f, None)
    ensures Exact(Only(es, model), f) == ChargeAll(es, f, Some(model))
  {
    hide Amount, Plus, Nothing;
    PlusNothing(None, f);
    if es == [] {
      assert Only(es, model) == [];
    } else {
      hide Only;
      ExactCharges(es[..|es| - 1], f, model);
      OnlyStep(es, model, f);
      ChargeAllSome(es[..|es| - 1], f, Some(model));
      PlusNothing(ChargeAll(es[..|es| - 1], f, Some(model)), f);
    }
  }

  /** After any run on scale every field of the totals, and of each model's total, is the
      clamped sum of what the operations brought in for it. */
  lemma RunCharged(ops: seq<Operation>, f: Field, model: string)
    requires Addable(Folded(ops), f)
    ensures Amount(Run(ops).bill.totals, f) == Clamped(Charged(ops, f, None), f)
    ensures Amount(ModelTotals(Run(ops).bill, model), f) == Clamped(Charged(ops, f, Some(model)), f)
  {
    hide Run, Folded, FoldEntries, Exact, Amount, Addable, Clamped, ModelTotals, Charged, ChargeAll, Only;
    RunBill(ops);
    BillExact(Folded(ops), f, model);
    ExactCharges(Folded(ops), f, model);
    ChargedIs(ops, f, None);
    ChargedIs(ops, f, Some(model));
  }

  lemma {:induction false} CountersAddable(es: seq<Entry>, f: Field)
    ensures f != CostTicks ==> Spread(es, f).down == 0 && Addable(es, f)
  {
    if es != [] {
      CountersAddable(es[..|es| - 1], f);
    }
  }

  lemma {:induction false} SpreadConcat(a: seq<Entry>, b: seq<Entry>, f: Field)
    ensures Spread(a + b, f) == Join(Spread(a, f), Spread(b, f))
  {
    hide Amount, SpanOf;
    if b == [] {
      assert a + b == a;
    } else {
      var w := a + b;
      assert w[..|w| - 1] == a + b[..|b| - 1] && w[|w| - 1] == b[|b| - 1];
      SpreadConcat(a, b[..|b| - 1], f);
    }
  }

  /** Counters need no condition, and neither do the costs of a run without
      subagents: no main-loop call brings in a negative one. */
  lemma {:induction false} MainLoopAddable(ops: seq<Operation>, f: Field)
    requires f != CostTicks || forall i :: 0 <= i < |ops| ==> !ops[i].Subagent?
    ensures Spread(Folded(ops), f).down == 0 && Addable(Folded(ops), f)
  {
    CountersAddable(Folded(ops), f);
    if f == CostTicks && ops != [] {
      var before, more := ops[..|ops| - 1], EntriesOf(ops[|ops| - 1]);
      MainLoopAddable(before, f);
      SpreadConcat(Folded(before), more, f);
      CallSpread(ops[|ops| - 1], f);
    }
  }

  lemma CallSpread(op: Operation, f: Field)
    requires !op.Subagent?
    ensures Spread(EntriesOf(op), f).down == 0
  {
    match op
    case MainLoopCall(model, usage, ms, ticks) =>
      var e := Entry(model, FromCall(usage, ms, ticks));
      CallCost(usage, ms, ticks, f);
      OneSpread(e, f);
    case MarkIncomplete =>
  }

  lemma CallCost(usage: TokenUsage, ms: Option<U64>, ticks: Option<I64>, f: Field)
    ensures SpanOf(Amount(FromCall(usage, ms, ticks), f)).down == 0
  {
  }

  lemma OneSpread(e: Entry, f: Field)
    ensures Spread([e], f) == SpanOf(Amount(e.totals, f))
  {
    hide Amount, SpanOf;
    var es := [e];
    assert es[..0] == [];
    assert Spread(es[..0], f) == STILL;
  }

  lemma {:induction false} CostReported(es: seq<Entry>)
    ensures Exact(es, CostTicks).None? <==> forall i :: 0 <= i < |es| ==> es[i].totals.costUsdTicks.None?
  {
    if es != [] {
      CostReported(es[..|es| - 1]);
    }
  }

  /** The cost is absent exactly when no folded entry reported one, negative or not. */
  lemma {:induction false} CostAbsentExactly(ops: seq<Operation>)
    ensures Run(ops).bill.totals.costUsdTicks.None?
       <==> forall i :: 0 <= i < |Folded(ops)| ==> Folded(ops)[i].totals.costUsdTicks.None?
  {
    hide Run, Folded;
    RunBill(ops);
    BillCostAbsent(Folded(ops));
  }

  lemma {:induction false} BillCostAbsent(es: seq<Entry>)
    ensures FoldEntries(NO_BILL, es).totals.costUsdTicks.None?
       <==> forall i :: 0 <= i < |es| ==> es[i].totals.costUsdTicks.None?
  {
    if es != [] {
      BillCostAbsent(es[..|es| - 1]);
    }
  }

  /** Off scale the agreement can break: a total that saturated before a
      negative cost came stays below the sum of the models. */
  lemma NegativeTicksDisagree(a: Entry, b: Entry, c: Entry)
    requires a == Entry("a", ZERO.(costUsdTicks := Some(MAX_I64)))
    requires b == Entry("b", ZERO.(costUsdTicks := Some(1)))
    requires c == Entry("a", ZERO.(costUsdTicks := Some(-1)))
    ensures var bill := FoldEntries(NO_BILL, [a, b, c]);
            && bill.totals.costUsdTicks == Some(MAX_I64 - 1)
            && Summed(bill, ["a", "b"]).costUsdTicks == Some(MAX_I64)
  {
    var b1 := FoldEntry(NO_BILL, a);
    var b2 := FoldEntry(b1, b);
    var b3 := FoldEntry(b2, c);
    assert "a" != "b";
    assert [a, b, c][..2] == [a, b] && [a, b][..1] == [a] && [a][..0] == [];
    assert FoldEntries(NO_BILL, [a]) == FoldEntry(FoldEntries(NO_BILL, []), a) == b1;
    assert FoldEntries(NO_BILL, [a, b]) == b2;
    assert FoldEntries(NO_BILL, [a, b, c]) == b3;
    assert b3.totals.costUsdTicks == Some(MAX_I64 - 1);
    assert ["a", "b"][..1] == ["a"] && ["a"][..0] == [];
    assert ModelTotals(b3, "a").costUsdTicks == Some(MAX_I64 - 1);
    assert ModelTotals(b3, "b").costUsdTicks == Some(1);
    assert Summed(b3, ["a"]) == FoldTotals(Summed(b3, []), ModelTotals(b3, "a"));
    assert Summed(b3, ["a", "b"]) == FoldTotals(Summed(b3, ["a"]), ModelTotals(b3, "b"));
  }

  function MainLoopCalls(ops: seq<Operation>): nat {
    if ops == [] then 0 else MainLoopCalls(ops[..|ops| - 1]) + if ops[|ops| - 1].MainLoopCall? then 1 else 0
  }

  /** Main-loop calls are counted exactly up to the cap and never exceed all model calls. */
  lemma {:induction false} MainLoopWithinCalls(ops: seq<Operation>)
    ensures var l := Run(ops);
            && Some(l.mainLoopModelCalls as int) == Clamped(Some(MainLoopCalls(ops)), ModelCalls)
            && l.mainLoopModelCalls <= l.bill.totals.modelCalls
  {
    hide FoldEntries;
    if ops != [] {
      var before, op := ops[..|ops| - 1], ops[|ops| - 1];
      MainLoopWithinCalls(before);
      CallsGrow(Run(before).bill, EntriesOf(op));
      if op.MainLoopCall? {
        OneEntry(Run(before).bill, EntriesOf(op)[0]);
      }
    }
  }

  lemma OneEntry(b: Bill, e: Entry)
    ensures FoldEntries(b, [e]) == FoldEntry(b, e)
  {
    assert [e][..0] == [];
    assert FoldEntries(b, []) == b;
  }

  lemma {:induction false} CallsGrow(b: Bill, es: seq<Entry>)
    ensures FoldEntries(b, es).totals.modelCalls >= b.totals.modelCalls
  {
    if es != [] {
      CallsGrow(b, es[..|es| - 1]);
    }
  }

  /** The ledger is incomplete exactly when some operation said so; nothing clears it. */
  lemma {:induction false} IncompleteExactly(ops: seq<Operation>)
    ensures Run(ops).incomplete
       <==> exists i :: 0 <= i < |ops| && (ops[i].MarkIncomplete? || (ops[i].Subagent? && ops[i].partial))
  {
    hide FoldEntries;
    if ops != [] {
      var before := ops[..|ops| - 1];
      IncompleteExactly(before);
      if Run(before).incomplete {
        var i :| 0 <= i < |before| && (before[i].MarkIncomplete? || (before[i].Subagent? && before[i].partial));
        assert ops[i] == before[i];
      }
      if i :| 0 <= i < |ops| && (ops[i].MarkIncomplete? || (ops[i].Subagent? && ops[i].partial)) {
        assert i < |before| ==> before[i] == ops[i];
      }
    }
  }

  lemma {:induction false} MissingCounted(es: seq<Entry>)
    ensures Exact(es, CostMissingCalls).Some? && Exact(es, CostMissingCalls).value >= 0
    ensures Exact(es, CostMissingCalls).value > 0 <==> exists i :: 0 <= i < |es| && es[i].totals.costMissingCalls > 0
  {
    if es != [] {
      var before := es[..|es| - 1];
      MissingCounted(before);
      if i :| 0 <= i < |before| && before[i].totals.costMissingCalls > 0 {
        assert es[i] == before[i];
      }
      if i :| 0 <= i < |es| && es[i].totals.costMissingCalls > 0 {
        assert i < |before| ==> before[i] == es[i];
      }
    }
  }

  /** The bill is partial exactly when some entry reported a cost and some call did not. */
  lemma PartialExactly(ops: seq<Operation>)
    ensures CostIsPartial(Run(ops).bill.totals) <==>
            (exists i :: 0 <= i < |Folded(ops)| && Folded(ops)[i].totals.costUsdTicks.Some?)
            && (exists i :: 0 <= i < |Folded(ops)| && Folded(ops)[i].totals.costMissingCalls > 0)
  {
    hide Run, Folded, FoldEntries, Exact;
    var es := Folded(ops);
    RunBill(ops);
    CostAbsentExactly(ops);
    MissingCounted(es);
    CountersAddable(es, CostMissingCalls);
    BillExact(es, CostMissingCalls, "");
  }

  /** All tokens of the bill, capped once. */
  lemma TotalTokensExact(ops: seq<Operation>)
    ensures var es := Folded(ops);
            Some(TotalTokens(Run(ops).bill.totals) as int)
              == Clamped(Plus(Exact(es, InputTokens), Exact(es, OutputTokens)), InputTokens)
  {
    hide Run, Folded, FoldEntries, Exact;
    var es := Folded(ops);
    RunBill(ops);
    CountersAddable(es, InputTokens);
    CountersAddable(es, OutputTokens);
    BillExact(es, InputTokens, "");
    BillExact(es, OutputTokens, "");
    ExactWithin(es, InputTokens);
    ExactWithin(es, OutputTokens);
  }

  // ----- the ledger in place

  class UsageLedger {
    var totals: Totals
    var byModel: map<string, Totals>
    var mainLoopModelCalls: U64
    var incomplete: bool

    ghost function Value(): Ledger
      reads this
    {
      Ledger(Bill(totals, byModel), mainLoopModelCalls, incomplete)
    }

    constructor ()
      ensures Value() == NEW_LEDGER
    {
      totals := ZERO;
      byModel := map[];
      mainLoopModelCalls := 0;
      incomplete := false;
    }

    method RecordMainLoopCall(model: string, usage: TokenUsage, apiDurationMs: Option<U64>, costUsdTicks: Option<I64>)
      modifies this
      ensures Value() == Perform(old(Value()), MainLoopCall(model, usage, apiDurationMs, costUsdTicks))
    {
      hide FoldEntries;
      var call := FromCall(usage, apiDurationMs, costUsdTicks);
      OneEntry(Bill(totals, byModel), Entry(model, call));
      mainLoopModelCalls := AddU64(mainLoopModelCalls, 1);
      FoldOne(model, call);
    }

    method RecordSubagent(entries: seq<Entry>, partial: bool)
      modifies this
      ensures Value() == Perform(old(Value()), Subagent(entries, partial))
    {
      for i := 0 to |entries|
        invariant Bill(totals, byModel) == FoldEntries(old(Value().bill), entries[..i])
        invariant mainLoopModelCalls == old(mainLoopModelCalls) && incomplete == old(incomplete)
      {
        assert entries[..i + 1][..i] == entries[..i];
        FoldOne(entries[i].model, entries[i].totals);
      }
      assert entries[..|entries|] == entries;
      if partial {
        incomplete := true;
      }
    }

    method SetIncomplete()
      modifies `incomplete
      ensures Value() == Perform(old(Value()), MarkIncomplete)
    {
      incomplete := true;
    }

    method FoldOne(model: string, more: Totals)
      modifies `totals, `byModel
      ensures Bill(totals, byModel) == FoldEntry(old(Value().bill), Entry(model, more))
    {
      totals := FoldTotals(totals, more);
      if model !in byModel {
        byModel := byModel[model := ZERO];
      }
      byModel := byModel[model := FoldTotals(byModel[model], more)];
    }
  }
}
