/** The tool-call / tool-result pairing rules providers enforce, and the
    passes that check and restore them. */
module Pairing {
  import opened Conversation

  /** `AnyEarlier`: some earlier assistant item declared the id.
      `ContiguousRun`: the declaring assistant item is followed by nothing but
      tool results up to this one. */
  datatype Rule = AnyEarlier | ContiguousRun

  /** The ids a tool result right after `items` may answer. */
  function Known(rule: Rule, items: History): set<string> {
    if items == [] then {}
    else
      var last, before := items[|items| - 1], items[..|items| - 1];
      match last
      case Assistant(_, _, calls, _) =>
        if rule.AnyEarlier? then Known(rule, before) + CallIds(calls) else CallIds(calls)
      case ToolResult(_, _, _, _) => Known(rule, before)
      case _ => if rule.AnyEarlier? then Known(rule, before) else {}
  }

  predicate Misplaced(rule: Rule, before: History, item: Item) {
    item.ToolResult? && item.id !in Known(rule, before)
  }

  /** Every tool result of `items` satisfies the rule. */
  ghost predicate Paired(rule: Rule, items: History) {
    forall k :: 0 <= k < |items| ==> !Misplaced(rule, items[..k], items[k])
  }

  function KeepPaired(rule: Rule, items: History): History {
    if items == [] then []
    else
      var last, before := items[|items| - 1], items[..|items| - 1];
      KeepPaired(rule, before) + if Misplaced(rule, before, last) then [] else [last]
  }

  /** The ids of the misplaced results, in order. */
  function MisplacedIds(rule: Rule, items: History): seq<string> {
    if items == [] then []
    else
      var last, before := items[|items| - 1], items[..|items| - 1];
      MisplacedIds(rule, before) + if Misplaced(rule, before, last) then [last.id] else []
  }

  // ----- the three passes

  method ValidateCompactedHistory(items: History) returns (invalid: seq<string>)
    ensures invalid == MisplacedIds(AnyEarlier, items)
  {
    var seen: set<string> := {};
    invalid := [];
    for k := 0 to |items|
      invariant seen == Known(AnyEarlier, items[..k])
      invariant invalid == MisplacedIds(AnyEarlier, items[..k])
    {
      assert items[..k + 1][..k] == items[..k];
      match items[k]
      case Assistant(_, _, calls, _) =>
        seen := seen + CallIds(calls);
      case ToolResult(id, _, _, _) =>
        if id !in seen {
          invalid := invalid + [id];
        }
      case _ =>
    }
    assert items[..|items|] == items;
  }

  method SanitizeCompactedHistory(items: History) returns (kept: History, stripped: seq<string>)
    ensures kept == KeepPaired(AnyEarlier, items)
    ensures stripped == MisplacedIds(AnyEarlier, items)
  {
    var seen: set<string> := {};
    kept, stripped := [], [];
    for k := 0 to |items|
      invariant seen == Known(AnyEarlier, items[..k])
      invariant kept == KeepPaired(AnyEarlier, items[..k])
      invariant stripped == MisplacedIds(AnyEarlier, items[..k])
    {
      assert items[..k + 1][..k] == items[..k];
      match items[k]
      case Assistant(_, _, calls, _) =>
        seen := seen + CallIds(calls);
        kept := kept + [items[k]];
      case ToolResult(id, _, _, _) =>
        if id in seen {
          kept := kept + [items[k]];
        } else {
          stripped := stripped + [id];
        }
      case _ =>
        kept := kept + [items[k]];
    }
    assert items[..|items|] == items;
  }

  method StripDisplacedToolResults(items: History) returns (kept: History, stripped: seq<string>)
    ensures kept == KeepPaired(ContiguousRun, items)
    ensures stripped == MisplacedIds(ContiguousRun, items)
  {
    var runIds: set<string> := {};
    kept, stripped := [], [];
    for k := 0 to |items|
      invariant runIds == Known(ContiguousRun, items[..k])
      invariant kept == KeepPaired(ContiguousRun, items[..k])
      invariant stripped == MisplacedIds(ContiguousRun, items[..k])
    {
      assert items[..k + 1][..k] == items[..k];
      match items[k]
      case Assistant(_, _, calls, _) =>
        runIds := CallIds(calls);
        kept := kept + [items[k]];
      case ToolResult(id, _, _, _) =>
        if id in runIds {
          kept := kept + [items[k]];
        } else {
          stripped := stripped + [id];
        }
      case _ =>
        runIds := {};
        kept := kept + [items[k]];
    }
    assert items[..|items|] == items;
  }

  // ----- what the rules say

  /** The running sets of the passes mean what the rules say. */
  lemma {:induction false} KnownMeaning(rule: Rule, items: History, id: string)
    ensures id in Known(rule, items) <==>
            exists o :: 0 <= o < |items| && Declares(items[o], id)
              && (rule.ContiguousRun? ==> forall j :: o < j < |items| ==> items[j].ToolResult?)
  {
    if items != [] {
      var last, before := items[|items| - 1], items[..|items| - 1];
      KnownMeaning(rule, before, id);
      if Declares(last, id) {
        assert items[|items| - 1] == last;
      } else if o :| 0 <= o < |before| && Declares(before[o], id) && (rule.ContiguousRun? ==> forall j :: o < j < |before| ==> before[j].ToolResult?) {
        assert items[o] == before[o];
        assert forall j :: o < j < |before| ==> items[j] == before[j];
        assert last.ToolResult? || rule.AnyEarlier? ==> id in Known(rule, items);
      }
    }
  }

  // ----- what the passes do

  lemma {:induction false} KeepPairedKnown(rule: Rule, items: History)
    ensures Known(rule, KeepPaired(rule, items)) == Known(rule, items)
  {
    if items != [] {
      var last, before := items[|items| - 1], items[..|items| - 1];
      var kept := KeepPaired(rule, before);
      KeepPairedKnown(rule, before);
      if Misplaced(rule, before, last) {
        assert kept + [] == kept;
      } else {
        assert (kept + [last])[..|kept|] == kept;
      }
    }
  }

  lemma PairedSnoc(rule: Rule, items: History, item: Item)
    ensures Paired(rule, items + [item]) <==> Paired(rule, items) && !Misplaced(rule, items, item)
  {
    var w := items + [item];
    assert forall k :: 0 <= k < |items| ==> w[..k] == items[..k] && w[k] == items[k];
    assert w[..|items|] == items && w[|items|] == item;
    if Paired(rule, w) {
      assert !Misplaced(rule, w[..|items|], w[|items|]);
      forall k | 0 <= k < |items| ensures !Misplaced(rule, items[..k], items[k]) {
        assert !Misplaced(rule, w[..k], w[k]);
      }
    }
  }

  /** The kept history satisfies the rule. */
  lemma {:induction false} KeepPairedIsPaired(rule: Rule, items: History)
    ensures Paired(rule, KeepPaired(rule, items))
  {
    if items != [] {
      var last, before := items[|items| - 1], items[..|items| - 1];
      KeepPairedIsPaired(rule, before);
      KeepPairedKnown(rule, before);
      if !Misplaced(rule, before, last) {
        PairedSnoc(rule, KeepPaired(rule, before), last);
      } else {
        assert KeepPaired(rule, items) == KeepPaired(rule, before);
      }
    }
  }

  /** The answer to a well-placed result, and to any other item, is that it stays, behind
      what stays of the items before it; a misplaced one is reported behind the ids
      reported before it. */
  lemma {:induction false} PassedAt(rule: Rule, items: History, k: nat)
    requires k < |items|
    ensures !Misplaced(rule, items[..k], items[k]) ==>
      var n := |KeepPaired(rule, items[..k])|; n < |KeepPaired(rule, items)| && KeepPaired(rule, items)[n] == items[k]
    ensures Misplaced(rule, items[..k], items[k]) ==>
      var n := |MisplacedIds(rule, items[..k])|; n < |MisplacedIds(rule, items)| && MisplacedIds(rule, items)[n] == items[k].id
  {
    hide Misplaced;
    var before := items[..|items| - 1];
    if k < |before| {
      assert before[..k] == items[..k];
      PassedAt(rule, before, k);
    }
  }

  /** Nothing is reported, and nothing removed, exactly from paired histories. */
  lemma {:induction false} PairedFixed(rule: Rule, items: History)
    ensures Paired(rule, items) <==> MisplacedIds(rule, items) == []
    ensures Paired(rule, items) <==> KeepPaired(rule, items) == items
    ensures |KeepPaired(rule, items)| + |MisplacedIds(rule, items)| == |items|
  {
    if items != [] {
      var last, before := items[|items| - 1], items[..|items| - 1];
      PairedFixed(rule, before);
      assert items == before + [last];
      PairedSnoc(rule, before, last);
    }
  }

  /** Each pass is idempotent, and its output validates. */
  lemma KeepPairedIdempotent(rule: Rule, items: History)
    ensures KeepPaired(rule, KeepPaired(rule, items)) == KeepPaired(rule, items)
    ensures MisplacedIds(rule, KeepPaired(rule, items)) == []
  {
    KeepPairedIsPaired(rule, items);
    PairedFixed(rule, KeepPaired(rule, items));
  }

  /** Order-preserving selection. */
  ghost predicate Subsequence(a: History, b: History) {
    a == []
    || (b != [] && Subsequence(a, b[..|b| - 1]))
    || (b != [] && a[|a| - 1] == b[|b| - 1] && Subsequence(a[..|a| - 1], b[..|b| - 1]))
  }

  /** Selection survives a step that keeps no more on the left. */
  lemma SubsequenceStep(a: History, b: History, item: Item, left: bool, right: bool)
    requires Subsequence(a, b) && (left ==> right)
    ensures Subsequence(a + if left then [item] else [], b + if right then [item] else [])
  {
    assert (b + [item])[..|b|] == b && (a + [item])[..|a|] == a;
    assert a + [] == a && b + [] == b;
  }

  lemma {:induction false} KnownStricter(items: History)
    ensures Known(ContiguousRun, items) <= Known(AnyEarlier, items)
  {
    if items != [] {
      KnownStricter(items[..|items| - 1]);
    }
  }

  /** The adjacency pass keeps no result that the sanitizer strips. */
  lemma {:induction false} StripKeepsLess(items: History)
    ensures Subsequence(KeepPaired(ContiguousRun, items), KeepPaired(AnyEarlier, items))
  {
    if items != [] {
      var last, before := items[|items| - 1], items[..|items| - 1];
      StripKeepsLess(before);
      KnownStricter(before);
      SubsequenceStep(KeepPaired(ContiguousRun, before), KeepPaired(AnyEarlier, before), last,
        !Misplaced(ContiguousRun, before, last), !Misplaced(AnyEarlier, before, last));
    }
  }

  /** Both passes only remove. */
  lemma {:induction false} KeepPairedSelects(rule: Rule, items: History)
    ensures Subsequence(KeepPaired(rule, items), items)
  {
    if items != [] {
      var last, before := items[|items| - 1], items[..|items| - 1];
      KeepPairedSelects(rule, before);
      SubsequenceStep(KeepPaired(rule, before), before, last, !Misplaced(rule, before, last), true);
      assert items == before + [last];
    }
  }

  /** A history whose results all directly follow their calls also has the
      calls before the results. */
  lemma ContiguousIsEarlier(items: History)
    requires Paired(ContiguousRun, items)
    ensures Paired(AnyEarlier, items)
  {
    forall k | 0 <= k < |items| ensures !Misplaced(AnyEarlier, items[..k], items[k]) {
      KnownStricter(items[..k]);
      assert !Misplaced(ContiguousRun, items[..k], items[k]);
    }
  }
}
