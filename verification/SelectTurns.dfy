/** Choosing where to split a history for compaction: the oldest items are
    summarized, the newest kept within a token budget. Token counts are 32-bit
    and add with saturation. */
module SelectTurns {
  import opened Wrappers
  import opened Conversation
  import opened Pairing
  import opened Integers
  import BudgetFit

  function Cap(n: nat): (r: U32)
    ensures r <= n && (n <= MAX_U32 ==> r == n)
  {
    if n <= MAX_U32 then n else MAX_U32
  }

  function SaturatingAdd(a: U32, b: U32): U32 { Cap(a + b) }

  function Sum(counts: seq<U32>): nat {
    if counts == [] then 0 else counts[0] + Sum(counts[1..])
  }

  datatype SplitPlan = SplitPlan(splitIdx: nat, tokensToCompact: U32)

  /** Keeping everything from `k` on stays within the target. */
  predicate Fits(counts: seq<U32>, k: nat, target: U32)
    requires k <= |counts|
  {
    Cap(Sum(counts[k..])) <= target
  }

  /** A split that keeps something, within the target, without starting at a tool result. */
  predicate Safe(counts: seq<U32>, items: History, k: nat, target: U32)
    requires |counts| == |items|
  {
    k < |items| && Fits(counts, k, target) && !items[k].ToolResult?
  }

  ghost predicate LeastSafe(counts: seq<U32>, items: History, k: nat, target: U32)
    requires |counts| == |items|
  {
    Safe(counts, items, k, target) && forall j :: 0 <= j < k ==> !Safe(counts, items, j, target)
  }

  lemma {:induction false} SumSplit(counts: seq<U32>, k: nat)
    requires k <= |counts|
    ensures Sum(counts) == Sum(counts[..k]) + Sum(counts[k..])
  {
    if k == 0 {
      assert counts[0..] == counts;
    } else {
      assert counts[..k][1..] == counts[1..][..k - 1];
      SumSplit(counts[1..], k - 1);
    }
  }

  lemma SumStep(counts: seq<U32>, i: nat)
    requires i < |counts|
    ensures Sum(counts[i..]) == counts[i] + Sum(counts[i + 1..])
    ensures Sum(counts[..i + 1]) == Sum(counts[..i]) + counts[i]
  {
    assert counts[i..][1..] == counts[i + 1..];
    SumSplit(counts[..i + 1], i);
    assert counts[..i + 1][..i] == counts[..i] && counts[..i + 1][i..] == [counts[i]];
    assert Sum([counts[i]]) == counts[i] + Sum([counts[i]][1..]);
  }

  /** A shorter kept suffix fits whenever a longer one does. */
  lemma FitsOnward(counts: seq<U32>, j: nat, k: nat, target: U32)
    requires j <= k <= |counts| && Fits(counts, j, target)
    ensures Fits(counts, k, target)
  {
    SumSplit(counts[j..], k - j);
    assert counts[j..][k - j..] == counts[k..];
  }

  /** Below the largest target the capped sum and the exact one decide alike. */
  lemma FitsExactly(counts: seq<U32>, k: nat, target: U32)
    requires k <= |counts|
    ensures Fits(counts, k, target) <==> target == MAX_U32 || Sum(counts[k..]) <= target
  {
  }

  /** First index at or after `candidate` that is not a tool result. */
  function Snap(items: History, candidate: nat): (r: nat)
    requires candidate <= |items|
    ensures candidate <= r <= |items|
    ensures forall k :: candidate <= k < r ==> items[k].ToolResult?
    ensures r < |items| ==> !items[r].ToolResult?
    decreases |items| - candidate
  {
    if candidate < |items| && items[candidate].ToolResult? then Snap(items, candidate + 1) else candidate
  }

  method SnapToSafeBoundary(items: History, candidate: nat) returns (idx: nat)
    ensures candidate <= |items| ==> idx == Snap(items, candidate)
    ensures candidate > |items| ==> idx == |items|
  {
    if candidate >= |items| {
      return |items|;
    }
    if !items[candidate].ToolResult? {
      return candidate;
    }
    idx := candidate;
    while idx < |items| && items[idx].ToolResult?
      invariant candidate <= idx <= |items|
      invariant forall k :: candidate <= k < idx ==> items[k].ToolResult?
    {
      idx := idx + 1;
    }
  }

  /** The least index whose kept suffix fits; the whole length when none but the empty one does. */
  method BudgetSplit(counts: seq<U32>, target: U32) returns (splitIdx: nat)
    ensures splitIdx <= |counts| && Fits(counts, splitIdx, target)
    ensures forall j :: 0 <= j < splitIdx ==> !Fits(counts, j, target)
  {
    var kept: U32 := 0;
    splitIdx := |counts|;
    assert counts[|counts|..] == [];
    var i := |counts|;
    while i > 0
      invariant i <= |counts| && splitIdx == i
      invariant kept == Cap(Sum(counts[i..])) <= target
    {
      i := i - 1;
      SumStep(counts, i);
      if SaturatingAdd(kept, counts[i]) > target {
        splitIdx := i + 1;
        forall j | 0 <= j < splitIdx ensures !Fits(counts, j, target) {
          if Fits(counts, j, target) { FitsOnward(counts, j, i, target); }
        }
        return;
      }
      kept := SaturatingAdd(kept, counts[i]);
      splitIdx := i;
    }
  }

  method SaturatingTotal(counts: seq<U32>) returns (total: U32)
    ensures total == Cap(Sum(counts))
  {
    total := 0;
    for i := 0 to |counts|
      invariant total == Cap(Sum(counts[..i]))
    {
      SumStep(counts, i);
      total := SaturatingAdd(total, counts[i]);
    }
    assert counts[..|counts|] == counts;
  }

  /** Snapping the least fitting split gives the least safe one, if there is one. */
  lemma SnapIsLeast(counts: seq<U32>, items: History, candidate: nat, target: U32)
    requires |counts| == |items| && candidate <= |items| && Fits(counts, candidate, target)
    requires forall j :: 0 <= j < candidate ==> !Fits(counts, j, target)
    ensures var k := Snap(items, candidate);
            if k < |items| then LeastSafe(counts, items, k, target)
            else forall j :: 0 <= j <= |items| ==> !Safe(counts, items, j, target)
  {
    hide Fits;
    var k := Snap(items, candidate);
    FitsOnward(counts, candidate, k, target);
  }

  /** A plan is the least safe split, with its prefix's saturated sum; there is none
      exactly when everything fits, no split is safe, or the prefix is below the minimum. */
  method SelectTurnsToCompact(counts: seq<U32>, items: History, target: U32, minCompactable: U32)
      returns (plan: Option<SplitPlan>)
    requires |counts| == |items|
    ensures plan.Some? ==>
              LeastSafe(counts, items, plan.value.splitIdx, target)
              && plan.value.splitIdx > 0
              && plan.value.tokensToCompact == Cap(Sum(counts[..plan.value.splitIdx])) >= minCompactable
    ensures plan.None? <==>
              Fits(counts, 0, target)
              || forall k :: 0 <= k < |items| && LeastSafe(counts, items, k, target) ==>
                   Cap(Sum(counts[..k])) < minCompactable
  {
    hide Fits, Sum, Snap;
    if |items| == 0 {
      EmptyFits(counts, target);
      return None;
    }
    var splitIdx := BudgetSplit(counts, target);
    if splitIdx == 0 {
      return None;
    }
    assert !Fits(counts, 0, target);
    var safe := SnapToSafeBoundary(items, splitIdx);
    SnapIsLeast(counts, items, splitIdx, target);
    if safe >= |items| {
      return None;
    }
    LeastIsOne(counts, items, safe, target);
    var tokens := SaturatingTotal(counts[..safe]);
    if tokens < minCompactable {
      return None;
    }
    return Some(SplitPlan(safe, tokens));
  }

  lemma EmptyFits(counts: seq<U32>, target: U32)
    requires counts == []
    ensures Fits(counts, 0, target)
  {
  }

  lemma LeastIsOne(counts: seq<U32>, items: History, k: nat, target: U32)
    requires |counts| == |items| && LeastSafe(counts, items, k, target)
    ensures forall j :: 0 <= j < |items| && LeastSafe(counts, items, j, target) ==> j == k
  {
    hide Safe;
  }

  /** Splitting at a safe index leaves both sides well paired. */
  lemma SplitKeepsPairs(counts: seq<U32>, items: History, k: nat, target: U32)
    requires |counts| == |items| && Safe(counts, items, k, target)
    ensures Paired(ContiguousRun, items) <==> Paired(ContiguousRun, items[..k]) && Paired(ContiguousRun, items[k..])
  {
    assert items == items[..k] + items[k..];
    assert items[k..][0] == items[k];
    BudgetFit.PairedCut(items[..k], items[k..]);
    if Paired(ContiguousRun, items) {
      forall i | 0 <= i < k ensures !Misplaced(ContiguousRun, items[..k][..i], items[..k][i]) {
        assert items[..k][..i] == items[..i];
        assert !Misplaced(ContiguousRun, items[..i], items[i]);
      }
    }
  }

  /** Cutting right before a tool result breaks the kept side, so no safe split is passed over. */
  lemma UnsafeSplitBreaksPairs(items: History, k: nat)
    requires k < |items| && items[k].ToolResult?
    ensures !Paired(ContiguousRun, items[k..])
  {
    var kept := items[k..];
    assert kept[..0] == [] && kept[0] == items[k];
    assert Misplaced(ContiguousRun, kept[..0], kept[0]);
  }
}
