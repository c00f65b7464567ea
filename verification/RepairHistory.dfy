/** The three repair passes run over a history before it is sent: drop stale
    duplicate results, strip displaced ones, answer calls left unanswered.
    Each works block by block, a block being an item and the run of tool
    results right after it. */
module RepairHistory {
  import opened Conversation
  import opened Pairing

  // ----- blocks

  ghost predicate IsRun(run: History) {
    forall k :: 0 <= k < |run| ==> run[k].ToolResult?
  }

  /** Number of tool results a history starts with. */
  function RunLength(items: History): (n: nat)
    ensures n <= |items| && IsRun(items[..n])
    ensures n < |items| ==> !items[n].ToolResult?
  {
    if items != [] && items[0].ToolResult? then 1 + RunLength(items[1..]) else 0
  }

  datatype Block = Block(leader: Item, run: History)

  ghost predicate IsBlock(b: Block) {
    !b.leader.ToolResult? && IsRun(b.run)
  }

  ghost predicate AreBlocks(bs: seq<Block>) {
    forall k :: 0 <= k < |bs| ==> IsBlock(bs[k])
  }

  /** The blocks of a history that does not open with a tool result. */
  function Blocks(items: History): (bs: seq<Block>)
    requires items != [] ==> !items[0].ToolResult?
    ensures AreBlocks(bs)
    decreases |items|
  {
    if items == [] then []
    else
      var rest := items[1..];
      var n := RunLength(rest);
      [Block(items[0], rest[..n])] + Blocks(rest[n..])
  }

  function Flatten(bs: seq<Block>): History {
    if bs == [] then [] else [bs[0].leader] + bs[0].run + Flatten(bs[1..])
  }

  lemma {:induction false} RunLengthConcat(run: History, rest: History)
    requires IsRun(run) && (rest != [] ==> !rest[0].ToolResult?)
    ensures RunLength(run + rest) == |run| && (run + rest)[..|run|] == run && (run + rest)[|run|..] == rest
  {
    if run == [] {
      assert run + rest == rest;
    } else {
      assert (run + rest)[1..] == run[1..] + rest;
      RunLengthConcat(run[1..], rest);
    }
  }

  lemma FlattenStart(bs: seq<Block>)
    requires AreBlocks(bs)
    ensures Flatten(bs) != [] ==> !Flatten(bs)[0].ToolResult?
  {
    assert bs != [] ==> IsBlock(bs[0]);
  }

  lemma {:induction false} FlattenBlocks(items: History)
    requires items != [] ==> !items[0].ToolResult?
    ensures Flatten(Blocks(items)) == items
    decreases |items|
  {
    if items != [] {
      var rest := items[1..];
      var n := RunLength(rest);
      FlattenBlocks(rest[n..]);
      assert items == [items[0]] + rest[..n] + rest[n..];
    }
  }

  lemma BlocksCons(b: Block, rest: History)
    requires IsBlock(b) && (rest != [] ==> !rest[0].ToolResult?)
    ensures Blocks([b.leader] + b.run + rest) == [b] + Blocks(rest)
  {
    hide RunLength;
    var w := [b.leader] + b.run + rest;
    RunLengthConcat(b.run, rest);
    assert w[1..] == b.run + rest;
    assert Blocks(w) == [Block(w[0], w[1..][..|b.run|])] + Blocks(w[1..][|b.run|..]);
  }

  lemma {:induction false} BlocksFlatten(bs: seq<Block>)
    requires AreBlocks(bs)
    ensures Flatten(bs) != [] ==> !Flatten(bs)[0].ToolResult?
    ensures Blocks(Flatten(bs)) == bs
  {
    FlattenStart(bs);
    if bs != [] {
      assert IsBlock(bs[0]) && AreBlocks(bs[1..]);
      BlocksFlatten(bs[1..]);
      BlocksCons(bs[0], Flatten(bs[1..]));
    }
  }

  // ----- the passes on one run

  function Ids(run: History): (ids: set<string>)
    requires IsRun(run)
  {
    set t <- run :: t.id
  }

  /** Keep the last result of each id. */
  function DedupRun(run: History): (r: History)
    requires IsRun(run)
    ensures IsRun(r) && |r| <= |run|
  {
    if run == [] then []
    else (if run[0].id in Ids(run[1..]) then [] else [run[0]]) + DedupRun(run[1..])
  }

  function StripRun(run: History, ids: set<string>): (r: History)
    requires IsRun(run)
    ensures IsRun(r) && |r| <= |run|
  {
    if run == [] then []
    else (if run[0].id in ids then [run[0]] else []) + StripRun(run[1..], ids)
  }

  function HaltedText(name: string): string {
    "Tool execution was halted by the harness (history_repair); the tool `" + name + "` was not executed."
  }

  /** Synthetic results for the calls that `answered` lacks, in call order. */
  function Backfill(calls: seq<Call>, answered: set<string>): (r: History)
    ensures IsRun(r)
  {
    if calls == [] then []
    else
      (if calls[0].id in answered then [] else [ToolResult(calls[0].id, HaltedText(calls[0].name), false, [])])
      + Backfill(calls[1..], answered)
  }

  // ----- the passes on a history

  datatype Pass = Dedup | Strip | Dangling

  function CallsOf(leader: Item): seq<Call> {
    if leader.Assistant? then leader.calls else []
  }

  /** What a pass makes of a run; the run a history opens with has no calls. */
  function PassRun(pass: Pass, calls: seq<Call>, run: History): (r: History)
    requires IsRun(run)
    ensures IsRun(r)
  {
    match pass
    case Dedup => if calls == [] then run else DedupRun(run)
    case Strip => StripRun(run, CallIds(calls))
    case Dangling => run + Backfill(calls, Ids(run))
  }

  function PassBlocks(pass: Pass, bs: seq<Block>): (r: seq<Block>)
    requires AreBlocks(bs)
    ensures AreBlocks(r) && |r| == |bs|
    ensures forall k :: 0 <= k < |bs| ==>
      IsBlock(bs[k]) && r[k] == Block(bs[k].leader, PassRun(pass, CallsOf(bs[k].leader), bs[k].run))
  {
    if bs == [] then []
    else
      assert IsBlock(bs[0]) && AreBlocks(bs[1..]);
      [Block(bs[0].leader, PassRun(pass, CallsOf(bs[0].leader), bs[0].run))] + PassBlocks(pass, bs[1..])
  }

  function Apply(pass: Pass, items: History): History {
    var n := RunLength(items);
    PassRun(pass, [], items[..n]) + Flatten(PassBlocks(pass, Blocks(items[n..])))
  }

  function Repair(items: History): History {
    Apply(Dangling, Apply(Strip, Apply(Dedup, items)))
  }

  lemma ApplyBlocks(pass: Pass, run: History, bs: seq<Block>)
    requires IsRun(run) && AreBlocks(bs)
    ensures Apply(pass, run + Flatten(bs)) == PassRun(pass, [], run) + Flatten(PassBlocks(pass, bs))
  {
    BlocksFlatten(bs);
    RunLengthConcat(run, Flatten(bs));
  }

  // ----- the three passes as one

  function RepairRun(calls: seq<Call>, run: History): (r: History)
    requires IsRun(run)
    ensures IsRun(r)
  {
    PassRun(Dangling, calls, PassRun(Strip, calls, PassRun(Dedup, calls, run)))
  }

  function RepairBlocks(bs: seq<Block>): (r: seq<Block>)
    requires AreBlocks(bs)
    ensures AreBlocks(r) && |r| == |bs|
    ensures forall k :: 0 <= k < |bs| ==>
      IsBlock(bs[k]) && r[k] == Block(bs[k].leader, RepairRun(CallsOf(bs[k].leader), bs[k].run))
  {
    PassBlocks(Dangling, PassBlocks(Strip, PassBlocks(Dedup, bs)))
  }

  lemma {:induction false} StripNothing(run: History)
    requires IsRun(run)
    ensures StripRun(run, {}) == []
  {
    if run != [] {
      StripNothing(run[1..]);
    }
  }

  /** Repairing drops the results a history opens with and repairs each block. */
  lemma RepairByBlocks(items: History)
    ensures Repair(items) == Flatten(RepairBlocks(Blocks(items[RunLength(items)..])))
  {
    var n := RunLength(items);
    var opening, bs := items[..n], Blocks(items[n..]);
    var d, ds := PassBlocks(Dedup, bs), PassBlocks(Strip, PassBlocks(Dedup, bs));
    ApplyBlocks(Strip, opening, d);
    StripNothing(opening);
    assert CallIds([]) == {};
    assert [] + Flatten(ds) == Flatten(ds);
    ApplyBlocks(Dangling, [], ds);
    assert [] + Flatten(PassBlocks(Dangling, ds)) == Flatten(PassBlocks(Dangling, ds));
  }

  lemma RepairTwice(items: History, bs: seq<Block>)
    requires AreBlocks(bs) && Repair(items) == Flatten(bs)
    ensures Repair(Repair(items)) == Flatten(RepairBlocks(bs))
  {
    FlattenStart(bs);
    BlocksFlatten(bs);
    RunLengthConcat([], Flatten(bs));
    assert [] + Flatten(bs) == Flatten(bs);
    RepairByBlocks(Flatten(bs));
  }

  // ----- what one run becomes

  ghost predicate DistinctIds(run: History)
    requires IsRun(run)
  {
    forall i, j :: 0 <= i < j < |run| ==> run[i].id != run[j].id
  }

  lemma IdsConcat(a: History, b: History)
    requires IsRun(a) && IsRun(b)
    ensures Ids(a + b) == Ids(a) + Ids(b)
  {
    var w := a + b;
    assert forall k :: 0 <= k < |a| ==> w[k] == a[k];
    assert forall k :: 0 <= k < |b| ==> w[|a| + k] == b[k];
  }

  lemma IdsOne(t: Item)
    requires t.ToolResult?
    ensures Ids([t]) == {t.id} && Ids([]) == {}
  {
  }

  lemma NoIdsNoRun(run: History)
    requires IsRun(run)
    ensures Ids(run) == {} <==> run == []
  {
    if run != [] {
      IdsConcat([run[0]], run[1..]);
      IdsOne(run[0]);
      assert [run[0]] + run[1..] == run;
    }
  }

  lemma DistinctConcat(a: History, b: History)
    requires IsRun(a) && IsRun(b) && DistinctIds(a)
    ensures DistinctIds(a + b) <==> DistinctIds(b) && Ids(a) !! Ids(b)
  {
    var w := a + b;
    assert forall k :: 0 <= k < |b| ==> w[|a| + k] == b[k] && b[k].id in Ids(b);
    assert forall k :: 0 <= k < |a| ==> w[k] == a[k] && a[k].id in Ids(a);
    if DistinctIds(w) {
      forall i, j | 0 <= i < j < |b| ensures b[i].id != b[j].id {
        assert w[|a| + i].id != w[|a| + j].id;
      }
      forall i, j | 0 <= i < |a| && 0 <= j < |b| ensures a[i].id != b[j].id {
        assert w[i].id != w[|a| + j].id;
      }
    }
  }

  /** A run is its first result before the rest. */
  lemma RunCons(t: Item, rest: History)
    requires t.ToolResult? && IsRun(rest)
    ensures Ids([t] + rest) == {t.id} + Ids(rest)
    ensures DistinctIds([t] + rest) <==> DistinctIds(rest) && t.id !in Ids(rest)
  {
    hide Ids;
    IdsConcat([t], rest);
    IdsOne(t);
    DistinctConcat([t], rest);
  }

  lemma {:induction false} DedupMeaning(run: History)
    requires IsRun(run)
    ensures Ids(DedupRun(run)) == Ids(run) && DistinctIds(DedupRun(run))
    ensures DistinctIds(run) <==> DedupRun(run) == run
    ensures DistinctIds(run) || |DedupRun(run)| < |run|
  {
    hide Ids, DistinctIds;
    if run == [] {
      NoneDistinct();
    } else {
      var t, rest := run[0], run[1..];
      assert run == [t] + rest;
      DedupMeaning(rest);
      RunCons(t, rest);
      RunCons(t, DedupRun(rest));
      assert [] + DedupRun(rest) == DedupRun(rest);
    }
  }

  lemma NoneDistinct()
    ensures DistinctIds([])
  {
  }

  lemma {:induction false} StripMeaning(run: History, ids: set<string>)
    requires IsRun(run)
    ensures Ids(StripRun(run, ids)) == Ids(run) * ids
    ensures DistinctIds(run) ==> DistinctIds(StripRun(run, ids))
    ensures Ids(run) <= ids ==> StripRun(run, ids) == run
  {
    hide Ids, DistinctIds;
    if run == [] {
      NoIdsNoRun([]);
    } else {
      var t, rest := run[0], run[1..];
      assert run == [t] + rest;
      StripMeaning(rest, ids);
      RunCons(t, rest);
      RunCons(t, StripRun(rest, ids));
      assert [] + StripRun(rest, ids) == StripRun(rest, ids);
    }
  }

  /** Some id is declared twice and not answered. */
  ghost predicate RepeatedUnanswered(calls: seq<Call>, answered: set<string>) {
    exists i, j :: 0 <= i < j < |calls| && calls[i].id == calls[j].id && calls[i].id !in answered
  }

  lemma RepeatedCons(call: Call, rest: seq<Call>, answered: set<string>)
    ensures RepeatedUnanswered([call] + rest, answered) <==>
            RepeatedUnanswered(rest, answered) || (call.id !in answered && call.id in CallIds(rest))
    ensures CallIds([call] + rest) == {call.id} + CallIds(rest)
  {
    hide RepeatedUnanswered;
    var calls := [call] + rest;
    assert forall c :: c in calls <==> c == call || c in rest;
    RepeatedOfRest(call, rest, answered);
    if RepeatedUnanswered(calls, answered) {
      RepeatedInRest(call, rest, answered);
    }
  }

  lemma RepeatedOfRest(call: Call, rest: seq<Call>, answered: set<string>)
    ensures RepeatedUnanswered(rest, answered) ==> RepeatedUnanswered([call] + rest, answered)
    ensures call.id !in answered && call.id in CallIds(rest) ==> RepeatedUnanswered([call] + rest, answered)
  {
    if RepeatedUnanswered(rest, answered) {
      var i, j :| 0 <= i < j < |rest| && rest[i].id == rest[j].id && rest[i].id !in answered;
      hide RepeatedUnanswered;
      RepeatedAt([call] + rest, answered, i + 1, j + 1);
    } else if call.id !in answered && call.id in CallIds(rest) {
      var j :| 0 <= j < |rest| && rest[j].id == call.id;
      hide RepeatedUnanswered;
      RepeatedAt([call] + rest, answered, 0, j + 1);
    }
  }

  lemma RepeatedInRest(call: Call, rest: seq<Call>, answered: set<string>)
    requires RepeatedUnanswered([call] + rest, answered)
    ensures RepeatedUnanswered(rest, answered) || (call.id !in answered && call.id in CallIds(rest))
  {
    var calls := [call] + rest;
    var i, j :| 0 <= i < j < |calls| && calls[i].id == calls[j].id && calls[i].id !in answered;
    hide RepeatedUnanswered;
    assert calls[j] == rest[j - 1] && rest[j - 1] in rest;
    if i > 0 {
      RepeatedAt(rest, answered, i - 1, j - 1);
    }
  }

  lemma RepeatedAt(calls: seq<Call>, answered: set<string>, i: nat, j: nat)
    requires i < j < |calls| && calls[i].id == calls[j].id && calls[i].id !in answered
    ensures RepeatedUnanswered(calls, answered)
  {
  }

  lemma {:induction false} BackfillMeaning(calls: seq<Call>, answered: set<string>)
    ensures Ids(Backfill(calls, answered)) == CallIds(calls) - answered
    ensures DistinctIds(Backfill(calls, answered)) <==> !RepeatedUnanswered(calls, answered)
  {
    hide Ids, DistinctIds, HaltedText;
    if calls == [] {
      NoneDistinct();
      NoIdsNoRun([]);
      assert CallIds(calls) == {};
    } else {
      hide RepeatedUnanswered, CallIds;
      var call, rest := calls[0], calls[1..];
      assert calls == [call] + rest;
      BackfillMeaning(rest, answered);
      RepeatedCons(call, rest, answered);
      RunCons(ToolResult(call.id, HaltedText(call.name), false, []), Backfill(rest, answered));
      assert [] + Backfill(rest, answered) == Backfill(rest, answered);
    }
  }

  lemma RepairRunNoCalls(run: History)
    requires IsRun(run)
    ensures RepairRun([], run) == [] && CallIds([]) == {} && !RepeatedUnanswered([], Ids(run))
  {
    StripNothing(run);
    assert CallIds([]) == {};
  }

  /** The run of a repaired block answers exactly the declared calls. */
  lemma RepairRunAnswers(calls: seq<Call>, run: History)
    requires IsRun(run)
    ensures Ids(RepairRun(calls, run)) == CallIds(calls)
    ensures DistinctIds(RepairRun(calls, run)) <==> !RepeatedUnanswered(calls, Ids(run))
  {
    hide Ids, DistinctIds, CallIds, RepeatedUnanswered, DedupRun, StripRun, Backfill;
    if calls == [] {
      RepairRunNoCalls(run);
      NoIdsNoRun([]);
      NoneDistinct();
    } else {
      var d := DedupRun(run);
      var ds := StripRun(d, CallIds(calls));
      DedupMeaning(run);
      StripMeaning(d, CallIds(calls));
      BackfillMeaning(calls, Ids(ds));
      DistinctConcat(ds, Backfill(calls, Ids(ds)));
      IdsConcat(ds, Backfill(calls, Ids(ds)));
      RepeatedSame(calls, Ids(ds), Ids(run));
    }
  }

  lemma RepeatedSame(calls: seq<Call>, a: set<string>, b: set<string>)
    requires a == b * CallIds(calls)
    ensures RepeatedUnanswered(calls, a) <==> RepeatedUnanswered(calls, b)
  {
    assert forall k :: 0 <= k < |calls| ==> calls[k] in calls && (calls[k].id in a <==> calls[k].id in b);
  }

  /** Repairing a repaired run changes it exactly when it answers a call twice. */
  lemma RepairRunAgain(calls: seq<Call>, run: History)
    requires IsRun(run) && Ids(run) == CallIds(calls)
    ensures RepairRun(calls, run) == run <==> DistinctIds(run)
  {
    hide Ids, DistinctIds;
    var d := PassRun(Dedup, calls, run);
    DedupMeaning(run);
    StripMeaning(d, CallIds(calls));
    BackfillMeaning(calls, Ids(d));
    NoIdsNoRun(Backfill(calls, Ids(d)));
    if calls == [] {
      assert CallIds(calls) == {};
      NoIdsNoRun(run);
    }
    assert d + [] == d;
  }

  // ----- main results

  ghost predicate BlockAnswered(b: Block) {
    IsBlock(b) && Ids(b.run) == CallIds(CallsOf(b.leader))
  }

  ghost predicate BlockRepeats(b: Block) {
    IsBlock(b) && RepeatedUnanswered(CallsOf(b.leader), Ids(b.run))
  }

  ghost predicate Answered(items: History) {
    && (items != [] ==> !items[0].ToolResult?)
    && forall k :: 0 <= k < |Blocks(items)| ==> BlockAnswered(Blocks(items)[k])
  }

  ghost predicate AnsweredOnce(items: History)
    requires Answered(items)
  {
    forall k :: 0 <= k < |Blocks(items)| ==> BlockAnswered(Blocks(items)[k]) && DistinctIds(Blocks(items)[k].run)
  }

  /** The blocks the repair works on: results the history opens with are lost. */
  function Body(items: History): (bs: seq<Block>)
    ensures AreBlocks(bs)
  {
    Blocks(items[RunLength(items)..])
  }

  /** No assistant item declares an id twice without the run after it
      answering that id. */
  ghost predicate NoRepeatedUnanswered(items: History) {
    forall k :: 0 <= k < |Body(items)| ==> !BlockRepeats(Body(items)[k])
  }

  lemma RepairedBlock(bs: seq<Block>, k: nat)
    requires AreBlocks(bs) && k < |bs|
    ensures var b, r, again := bs[k], RepairBlocks(bs)[k], RepairBlocks(RepairBlocks(bs))[k];
      && BlockAnswered(r)
      && (DistinctIds(r.run) <==> !BlockRepeats(b))
      && (again == r <==> !BlockRepeats(b))
  {
    hide Ids, RepeatedUnanswered, DistinctIds, RepairRun;
    var rs := RepairBlocks(bs);
    assert IsBlock(bs[k]) && IsBlock(rs[k]);
    RepairRunAnswers(CallsOf(bs[k].leader), bs[k].run);
    RepairRunAgain(CallsOf(rs[k].leader), rs[k].run);
  }

  /** After a repair every result directly follows its call and every call has
      a result; each has just one exactly when no repeated id was unanswered. */
  lemma RepairAnswers(items: History)
    ensures Answered(Repair(items))
    ensures AnsweredOnce(Repair(items)) <==> NoRepeatedUnanswered(items)
  {
    hide Repair, RepairBlocks, Body, BlockAnswered, BlockRepeats, DistinctIds, Blocks, Flatten;
    var bs := Body(items);
    RepairBodies(items);
    RepairedBlocks(bs);
  }

  lemma RepairedBlocks(bs: seq<Block>)
    requires AreBlocks(bs)
    ensures forall k :: 0 <= k < |bs| ==> BlockAnswered(RepairBlocks(bs)[k])
    ensures forall k :: 0 <= k < |bs| ==>
      BlockAnswered(RepairBlocks(bs)[k]) && (DistinctIds(RepairBlocks(bs)[k].run) <==> !BlockRepeats(bs[k]))
  {
    hide RepairBlocks, BlockRepeats, DistinctIds;
    forall k | 0 <= k < |bs|
      ensures BlockAnswered(RepairBlocks(bs)[k]) && (DistinctIds(RepairBlocks(bs)[k].run) <==> !BlockRepeats(bs[k]))
    {
      RepairedBlock(bs, k);
    }
  }

  lemma RepairBodies(items: History)
    ensures var r := Repair(items); r != [] ==> !r[0].ToolResult?
    ensures Repair(items) == Flatten(RepairBlocks(Body(items)))
    ensures Repair(Repair(items)) == Flatten(RepairBlocks(RepairBlocks(Body(items))))
    ensures Blocks(Repair(items)) == RepairBlocks(Body(items))
    ensures Repair(Repair(items)) == Repair(items) <==> RepairBlocks(RepairBlocks(Body(items))) == RepairBlocks(Body(items))
  {
    hide Repair, RepairBlocks;
    var rs := RepairBlocks(Body(items));
    RepairByBlocks(items);
    RepairTwice(items, rs);
    BlocksFlatten(rs);
    BlocksFlatten(RepairBlocks(rs));
  }

  /** The repair is idempotent exactly on those histories. */
  lemma RepairIdempotent(items: History)
    ensures Repair(Repair(items)) == Repair(items) <==> NoRepeatedUnanswered(items)
  {
    hide Repair, RepairBlocks, Body, BlockAnswered, BlockRepeats, DistinctIds;
    var bs := Body(items);
    var rs := RepairBlocks(bs);
    RepairBodies(items);
    forall k | 0 <= k < |bs| ensures RepairBlocks(rs)[k] == rs[k] <==> !BlockRepeats(bs[k]) {
      RepairedBlock(bs, k);
    }
    if NoRepeatedUnanswered(items) {
      assert forall k :: 0 <= k < |rs| ==> !BlockRepeats(bs[k]) && RepairBlocks(rs)[k] == rs[k];
    }
  }

  /** An id declared twice and left unanswered is answered twice, and the next
      repair drops one of the answers again. */
  lemma RepeatedCallNotIdempotent(call: Call, text: string)
    ensures var items := [Assistant(text, "", [call, call], "")]; Repair(Repair(items)) != Repair(items)
  {
    var leader := Assistant(text, "", [call, call], "");
    var items := [leader];
    assert items[1..] == [] && items[0..] == items;
    var b := Block(leader, []);
    assert Blocks(items) == [b];
    assert BlockRepeats(b) by {
      assert CallsOf(leader)[0].id == CallsOf(leader)[1].id;
    }
    assert !BlockRepeats(Body(items)[0]) || !NoRepeatedUnanswered(items);
    RepairIdempotent(items);
  }

  // ----- the strip pass is the adjacency pass

  lemma {:induction false} KeepRun(before: History, run: History)
    requires IsRun(run)
    ensures KeepPaired(ContiguousRun, before + run) ==
            KeepPaired(ContiguousRun, before) + StripRun(run, Known(ContiguousRun, before))
    decreases |run|
  {
    if run == [] {
      assert before + run == before;
    } else {
      var next := before + [run[0]];
      assert next[..|before|] == before && before + run == next + run[1..];
      KeepRun(next, run[1..]);
    }
  }

  lemma KeepLeader(before: History, leader: Item, run: History)
    requires !leader.ToolResult? && IsRun(run)
    ensures KeepPaired(ContiguousRun, before + [leader] + run) ==
            KeepPaired(ContiguousRun, before) + [leader] + StripRun(run, CallIds(CallsOf(leader)))
  {
    var next := before + [leader];
    assert next[..|before|] == before;
    assert Known(ContiguousRun, next) == CallIds(CallsOf(leader)) by {
      assert CallIds([]) == {};
    }
    KeepRun(next, run);
  }

  lemma {:induction false} KeepBlocks(before: History, bs: seq<Block>)
    requires AreBlocks(bs)
    ensures KeepPaired(ContiguousRun, before + Flatten(bs)) ==
            KeepPaired(ContiguousRun, before) + Flatten(PassBlocks(Strip, bs))
    decreases |bs|
  {
    hide KeepPaired, StripRun, CallIds;
    if bs == [] {
      assert before + Flatten(bs) == before;
    } else {
      assert IsBlock(bs[0]) && AreBlocks(bs[1..]);
      var leader, run := bs[0].leader, bs[0].run;
      KeepLeader(before, leader, run);
      assert before + Flatten(bs) == before + [leader] + run + Flatten(bs[1..]);
      KeepBlocks(before + [leader] + run, bs[1..]);
    }
  }

  lemma KeepOpening(run: History)
    requires IsRun(run)
    ensures KeepPaired(ContiguousRun, run) == PassRun(Strip, [], run)
  {
    KeepRun([], run);
    assert [] + run == run && CallIds([]) == {};
  }

  lemma StripIsAdjacencyPass(items: History)
    ensures Apply(Strip, items) == KeepPaired(ContiguousRun, items)
  {
    hide KeepPaired, Blocks, PassBlocks, Flatten, PassRun;
    var n := RunLength(items);
    FlattenBlocks(items[n..]);
    KeepBlocks(items[..n], Blocks(items[n..]));
    KeepOpening(items[..n]);
    assert items == items[..n] + items[n..];
  }

  lemma StripAnswered(bs: seq<Block>)
    requires AreBlocks(bs) && forall k :: 0 <= k < |bs| ==> BlockAnswered(bs[k])
    ensures PassBlocks(Strip, bs) == bs
  {
    hide Ids, CallIds, StripRun;
    forall k | 0 <= k < |bs| ensures PassBlocks(Strip, bs)[k] == bs[k] {
      assert BlockAnswered(bs[k]);
      StripMeaning(bs[k].run, CallIds(CallsOf(bs[k].leader)));
    }
  }

  /** A repaired history also obeys the contiguous-run rule. */
  lemma RepairIsPaired(items: History)
    ensures Paired(ContiguousRun, Repair(items))
  {
    hide Repair, KeepPaired, Blocks, PassBlocks, Flatten, BlockAnswered, Paired;
    var r := Repair(items);
    RepairAnswers(items);
    FlattenBlocks(r);
    StripAnswered(Blocks(r));
    KeepBlocks([], Blocks(r));
    KeepOpening([]);
    assert [] + r == r;
    PairedFixed(ContiguousRun, r);
  }
}
