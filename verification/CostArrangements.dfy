/** Which reported costs add up to the same bill however they arrive: in any
    order, under any models, with the models summed in any order. */
module CostArrangements {
  import opened Wrappers
  import opened Integers
  import opened UsageLedger

  type Ticks = Option<I64>

  function Costs(es: seq<Entry>): (r: seq<Ticks>)
    ensures |r| == |es| && forall i :: 0 <= i < |es| ==> r[i] == es[i].totals.costUsdTicks
  {
    seq(|es|, i requires 0 <= i < |es| => es[i].totals.costUsdTicks)
  }

  function TickSpan(ts: seq<Ticks>): Span {
    if ts == [] then STILL else Join(TickSpan(ts[..|ts| - 1]), SpanOf(ts[|ts| - 1]))
  }

  lemma {:induction false} SpreadOfCosts(es: seq<Entry>)
    ensures Spread(es, CostTicks) == TickSpan(Costs(es))
  {
    if es != [] {
      SpreadOfCosts(es[..|es| - 1]);
      assert Costs(es)[..|es| - 1] == Costs(es[..|es| - 1]);
    }
  }

  // ----- rearranging

  lemma {:induction false} SpanConcat(a: seq<Ticks>, b: seq<Ticks>)
    ensures TickSpan(a + b) == Join(TickSpan(a), TickSpan(b))
  {
    hide SpanOf;
    if b == [] {
      assert a + b == a;
    } else {
      var w := a + b;
      assert w[..|w| - 1] == a + b[..|b| - 1] && w[|w| - 1] == b[|b| - 1];
      SpanConcat(a, b[..|b| - 1]);
    }
  }

  lemma OneSpan(t: Ticks)
    ensures TickSpan([t]) == SpanOf(t)
  {
    hide SpanOf;
    var ts := [t];
    assert ts[..0] == [];
    NoSpan();
    assert TickSpan(ts) == Join(TickSpan(ts[..0]), SpanOf(t));
  }

  lemma NoSpan()
    ensures TickSpan([]) == STILL
  {
  }

  lemma OneTaken<T>(a: seq<T>, b: seq<T>, i: nat)
    requires a != [] && i < |b| && a[|a| - 1] == b[i] && multiset(a) == multiset(b)
    ensures multiset(a[..|a| - 1]) == multiset(b[..i] + b[i + 1..])
    ensures a == a[..|a| - 1] + [b[i]] && b == (b[..i] + [b[i]]) + b[i + 1..]
  {
    TakenOne(a, |a| - 1);
    TakenOne(b, i);
    assert a[..|a| - 1] + a[|a|..] == a[..|a| - 1];
  }

  lemma TakenOne<T>(s: seq<T>, i: nat)
    requires i < |s|
    ensures s == (s[..i] + [s[i]]) + s[i + 1..]
    ensures multiset(s[..i] + s[i + 1..]) == multiset(s) - multiset{s[i]}
  {
    var lo, hi, t := s[..i], s[i + 1..], [s[i]];
    assert s == (lo + t) + hi;
    Multisets(lo, t, hi);
  }

  lemma Multisets<T>(a: seq<T>, t: seq<T>, b: seq<T>)
    ensures multiset((a + t) + b) == multiset(a + b) + multiset(t)
  {
    assert multiset((a + t) + b) == multiset(a + t) + multiset(b);
    assert multiset(a + t) == multiset(a) + multiset(t);
    assert multiset(a + b) == multiset(a) + multiset(b);
  }

  lemma {:induction false} SpanRearranged(a: seq<Ticks>, b: seq<Ticks>)
    requires multiset(a) == multiset(b)
    ensures TickSpan(a) == TickSpan(b)
  {
    if a == [] {
      assert |multiset(b)| == 0;
    } else {
      var t, rest := a[|a| - 1], a[..|a| - 1];
      assert t in multiset(a);
      var i :| 0 <= i < |b| && b[i] == t;
      OneTaken(a, b, i);
      hide SpanOf, TickSpan;
      SpanRearranged(rest, b[..i] + b[i + 1..]);
      SpanConcat(rest, [t]);
      SpanConcat(b[..i] + [t], b[i + 1..]);
      SpanConcat(b[..i], [t]);
      SpanConcat(b[..i], b[i + 1..]);
    }
  }

  function Reverse(ts: seq<Ticks>): (r: seq<Ticks>)
    ensures |r| == |ts| && forall i :: 0 <= i < |ts| ==> r[i] == ts[|ts| - 1 - i]
  {
    seq(|ts|, i requires 0 <= i < |ts| => ts[|ts| - 1 - i])
  }

  lemma {:induction false} SpanReversed(ts: seq<Ticks>)
    ensures TickSpan(Reverse(ts)) == TickSpan(ts)
  {
    hide SpanOf;
    if ts != [] {
      var t, rest := ts[|ts| - 1], ts[..|ts| - 1];
      assert Reverse(ts) == [t] + Reverse(rest);
      assert ts == rest + [t];
      SpanReversed(rest);
      SpanConcat([t], Reverse(rest));
      SpanConcat(rest, [t]);
    }
  }

  // ----- saturating sums

  function SatSum(ts: seq<Ticks>): Ticks {
    if ts == [] then None else MergeCostTicks(SatSum(ts[..|ts| - 1]), ts[|ts| - 1])
  }

  function Value(t: Ticks): int { if t.None? then 0 else t.value }

  /** Only upward amounts: the sum rises to the limit at most. */
  lemma {:induction false} SumRises(a: seq<Ticks>, b: seq<Ticks>)
    requires TickSpan(b).down == 0
    ensures Value(SatSum(a + b)) == AddTicks(Value(SatSum(a)), TickSpan(b).up)
  {
    hide SpanOf, MergeCostTicks, Value;
    ValueInRange(SatSum(a));
    if b == [] {
      assert a + b == a;
    } else {
      var w := a + b;
      assert w[..|w| - 1] == a + b[..|b| - 1] && w[|w| - 1] == b[|b| - 1];
      SumRises(a, b[..|b| - 1]);
      MergeValue(SatSum(w[..|w| - 1]), b[|b| - 1]);
    }
  }

  function AddTicks(a: int, b: int): int {
    if a + b > MAX_I64 then MAX_I64 else if a + b < MIN_I64 then MIN_I64 else a + b
  }

  lemma ValueInRange(t: Ticks)
    ensures MIN_I64 <= Value(t) <= MAX_I64
  {
  }

  lemma MergeValue(s: Ticks, t: Ticks)
    ensures Value(MergeCostTicks(s, t)) == AddTicks(Value(s), Value(t))
    ensures Value(t) == SpanOf(t).up - SpanOf(t).down && MIN_I64 <= Value(s) <= MAX_I64
  {
  }

  lemma {:induction false} SumFalls(a: seq<Ticks>, b: seq<Ticks>)
    requires TickSpan(b).up == 0
    ensures Value(SatSum(a + b)) == AddTicks(Value(SatSum(a)), 0 - TickSpan(b).down)
  {
    hide SpanOf, MergeCostTicks, Value;
    ValueInRange(SatSum(a));
    if b == [] {
      assert a + b == a;
    } else {
      var w := a + b;
      assert w[..|w| - 1] == a + b[..|b| - 1] && w[|w| - 1] == b[|b| - 1];
      SumFalls(a, b[..|b| - 1]);
      MergeValue(SatSum(w[..|w| - 1]), b[|b| - 1]);
    }
  }

  /** All rises before all falls, against the other way round. */
  lemma UpThenDown(rises: seq<Ticks>, falls: seq<Ticks>)
    requires TickSpan(rises).down == 0 && TickSpan(falls).up == 0
    ensures Value(SatSum(rises + falls)) == Value(SatSum(Reverse(rises + falls)))
       <==> OnScale(Join(TickSpan(rises), TickSpan(falls)), CostTicks)
  {
    hide *;
    ReversedParts(rises, falls);
    SpanReversed(rises);
    SpanReversed(falls);
    NoSum();
    SumFalls(rises, falls);
    SumRises([], rises);
    assert [] + rises == rises && [] + Reverse(falls) == Reverse(falls);
    SumRises(Reverse(falls), Reverse(rises));
    SumFalls([], Reverse(falls));
    Ends(TickSpan(rises), TickSpan(falls));
  }

  lemma ReversedParts(a: seq<Ticks>, b: seq<Ticks>)
    ensures Reverse(a + b) == Reverse(b) + Reverse(a)
  {
  }

  lemma Ends(rises: Span, falls: Span)
    requires rises.down == 0 && falls.up == 0
    ensures AddTicks(AddTicks(0, rises.up), 0 - falls.down) == AddTicks(AddTicks(0, 0 - falls.down), rises.up)
       <==> OnScale(Join(rises, falls), CostTicks)
  {
  }

  lemma NoSum()
    ensures Value(SatSum([])) == 0
  {
  }

  function Part(ts: seq<Ticks>, rising: bool): seq<Ticks> {
    if ts == [] then []
    else Part(ts[..|ts| - 1], rising) + if (SpanOf(ts[|ts| - 1]).up > 0) == rising then [ts[|ts| - 1]] else []
  }

  lemma {:induction false} Parted(ts: seq<Ticks>)
    ensures multiset(Part(ts, true) + Part(ts, false)) == multiset(ts)
    ensures TickSpan(Part(ts, true)).down == 0 && TickSpan(Part(ts, false)).up == 0
  {
    hide SpanOf;
    if ts != [] {
      var t, rest := ts[|ts| - 1], ts[..|ts| - 1];
      assert ts == rest + [t];
      Parted(rest);
      PartSpan(rest, t, true);
      PartSpan(rest, t, false);
    }
  }

  lemma PartSpan(rest: seq<Ticks>, t: Ticks, rising: bool)
    ensures var more := if (SpanOf(t).up > 0) == rising then [t] else [];
      && Part(rest + [t], rising) == Part(rest, rising) + more
      && TickSpan(Part(rest + [t], rising)) == Join(TickSpan(Part(rest, rising)), TickSpan(more))
      && (if rising then TickSpan(more).down == 0 else TickSpan(more).up == 0)
  {
    var w := rest + [t];
    assert w[..|w| - 1] == rest;
    var more := if (SpanOf(t).up > 0) == rising then [t] else [];
    assert Part(w, rising) == Part(rest, rising) + more;
    assert SpanOf(t).up > 0 ==> SpanOf(t).down == 0;
    hide Part, TickSpan, SpanOf;
    SpanConcat(Part(rest, rising), more);
    OneSpan(t);
    NoSpan();
  }

  // ----- bills of an arrangement

  lemma {:induction false} BillCost(es: seq<Entry>)
    ensures FoldEntries(NO_BILL, es).totals.costUsdTicks == SatSum(Costs(es))
  {
    if es != [] {
      hide MergeCostTicks;
      BillCost(es[..|es| - 1]);
      assert Costs(es)[..|es| - 1] == Costs(es[..|es| - 1]);
    }
  }

  lemma {:induction false} SummedCost(b: Bill, order: seq<string>, ts: seq<Ticks>)
    requires |order| == |ts| && forall j :: 0 <= j < |ts| ==> ModelTotals(b, order[j]).costUsdTicks == ts[j]
    ensures Summed(b, order).costUsdTicks == SatSum(ts)
  {
    if ts != [] {
      hide MergeCostTicks;
      SummedCost(b, order[..|order| - 1], ts[..|ts| - 1]);
    }
  }

  /** A model of its own for each entry. */
  function Name(i: nat): string { seq(i, _ => 'm') }

  function Apart(ts: seq<Ticks>): (es: seq<Entry>)
    ensures |es| == |ts| && forall i :: 0 <= i < |ts| ==> es[i] == Entry(Name(i), ZERO.(costUsdTicks := ts[i]))
  {
    seq(|ts|, i requires 0 <= i < |ts| => Entry(Name(i), ZERO.(costUsdTicks := ts[i])))
  }

  lemma NamesApart(i: nat, j: nat)
    ensures Name(i) == Name(j) ==> i == j
  {
    assert |Name(i)| == i && |Name(j)| == j;
  }

  lemma {:induction false} ApartModels(ts: seq<Ticks>, i: nat)
    ensures var b := FoldEntries(NO_BILL, Apart(ts));
      && (Name(i) in b.byModel <==> i < |ts|)
      && (i < |ts| ==> ModelTotals(b, Name(i)).costUsdTicks == ts[i])
  {
    if ts != [] {
      var es, rest := Apart(ts), ts[..|ts| - 1];
      assert es[..|es| - 1] == Apart(rest);
      ApartModels(rest, i);
      NamesApart(i, |ts| - 1);
      var b, c := FoldEntries(NO_BILL, Apart(rest)), FoldEntries(NO_BILL, es);
      assert c == FoldEntry(b, es[|es| - 1]);
    }
  }

  function Backwards(n: nat): (order: seq<string>)
    ensures |order| == n && forall j :: 0 <= j < n ==> order[j] == Name(n - 1 - j)
  {
    seq(n, j requires 0 <= j < n => Name(n - 1 - j))
  }

  lemma BackwardsOrders(ts: seq<Ticks>)
    ensures Orders(Backwards(|ts|), FoldEntries(NO_BILL, Apart(ts)))
  {
    hide FoldEntries, Apart, Name;
    var b, order, n := FoldEntries(NO_BILL, Apart(ts)), Backwards(|ts|), |ts|;
    forall i, j | 0 <= i < j < n ensures order[i] != order[j] { NamesApart(n - 1 - i, n - 1 - j); }
    forall m ensures m in order <==> m in b.byModel {
      if m in order {
        var j :| 0 <= j < n && order[j] == m;
        ApartModels(ts, n - 1 - j);
      }
      if m in b.byModel {
        BillKeys(Apart(ts), m);
        var i :| 0 <= i < n && Apart(ts)[i].model == m;
        assert Apart(ts)[i].model == Name(i) && order[n - 1 - i] == Name(i);
      }
    }
  }

  ghost predicate Agrees(es: seq<Entry>, order: seq<string>) {
    var b := FoldEntries(NO_BILL, es);
    Orders(order, b) ==> b.totals.costUsdTicks == Summed(b, order).costUsdTicks
  }

  ghost predicate AlwaysAgrees(ts: seq<Ticks>) {
    forall es, order :: multiset(Costs(es)) == multiset(ts) ==> Agrees(es, order)
  }

  lemma ScaleAgrees(ts: seq<Ticks>, es: seq<Entry>, order: seq<string>)
    requires OnScale(TickSpan(ts), CostTicks) && multiset(Costs(es)) == multiset(ts)
    ensures Agrees(es, order)
  {
    hide FoldEntries, Summed, Orders, OnScale, TickSpan, Spread;
    SpanRearranged(Costs(es), ts);
    SpreadOfCosts(es);
    if Orders(order, FoldEntries(NO_BILL, es)) {
      TotalsMatchModels(es, order, CostTicks);
    }
  }

  lemma OffScaleDisagrees(ts: seq<Ticks>)
    requires !OnScale(TickSpan(ts), CostTicks)
    ensures !AlwaysAgrees(ts)
  {
    hide FoldEntries, Summed, Orders, OnScale, TickSpan, Part, SatSum, ModelTotals;
    var rises, falls := Part(ts, true), Part(ts, false);
    var all := rises + falls;
    var es, order := Apart(all), Backwards(|all|);
    Parted(ts);
    SpanConcat(rises, falls);
    SpanRearranged(all, ts);
    UpThenDown(rises, falls);
    assert Costs(es) == all;
    BillCost(es);
    BackwardsOrders(all);
    forall j | 0 <= j < |all| ensures ModelTotals(FoldEntries(NO_BILL, es), order[j]).costUsdTicks == Reverse(all)[j] {
      ApartModels(all, |all| - 1 - j);
    }
    SummedCost(FoldEntries(NO_BILL, es), order, Reverse(all));
    assert !Agrees(es, order);
  }

  /** Reported costs give the same bill in the total and summed over the models, in
      every arrangement, exactly when they have one sign or neither their
      positive nor their negative sum leaves the range. */
  lemma CostsAgreeExactly(ts: seq<Ticks>)
    ensures AlwaysAgrees(ts) <==> OnScale(TickSpan(ts), CostTicks)
  {
    hide OnScale, TickSpan, Agrees;
    if OnScale(TickSpan(ts), CostTicks) {
      forall es, order | multiset(Costs(es)) == multiset(ts) ensures Agrees(es, order) {
        ScaleAgrees(ts, es, order);
      }
    } else {
      OffScaleDisagrees(ts);
    }
  }
}
