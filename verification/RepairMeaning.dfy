/** What a repair leaves of one run of results, place by place. */
module RepairMeaning {
  import opened Conversation
  import opened RepairHistory

  /** A result stays when its id was called and no later one of the run has it. */
  predicate Stays(ids: set<string>, run: History, k: nat)
    requires IsRun(run) && k < |run|
  {
    run[k].id in ids && forall j :: k < j < |run| ==> run[j].id != run[k].id
  }

  /** How many of the first `k` results stay. */
  function StayBefore(ids: set<string>, run: History, k: nat): nat
    requires IsRun(run) && k <= |run|
  {
    if k == 0 then 0 else StayBefore(ids, run, k - 1) + if Stays(ids, run, k - 1) then 1 else 0
  }

  /** A call is open when no result of the run has its id. */
  predicate IsOpen(calls: seq<Call>, answered: set<string>, c: nat)
    requires c < |calls|
  {
    calls[c].id !in answered
  }

  function OpenBefore(calls: seq<Call>, answered: set<string>, c: nat): nat
    requires c <= |calls|
  {
    if c == 0 then 0 else OpenBefore(calls, answered, c - 1) + if IsOpen(calls, answered, c - 1) then 1 else 0
  }

  lemma {:induction false} StayFront(ids: set<string>, run: History, k: nat)
    requires IsRun(run) && run != [] && k < |run|
    ensures k > 0 ==> (Stays(ids, run, k) <==> Stays(ids, run[1..], k - 1))
    ensures Stays(ids, run, 0) <==> run[0].id in ids && run[0].id !in Ids(run[1..])
    ensures StayBefore(ids, run, k + 1) == (if Stays(ids, run, 0) then 1 else 0) + StayBefore(ids, run[1..], k)
  {
    var rest := run[1..];
    assert forall j :: 0 <= j < |rest| ==> rest[j] == run[j + 1];
    if k > 0 {
      StayFront(ids, run, k - 1);
    }
  }

  lemma {:induction false} OpenFront(calls: seq<Call>, answered: set<string>, c: nat)
    requires calls != [] && c < |calls|
    ensures OpenBefore(calls, answered, c + 1) == (if IsOpen(calls, answered, 0) then 1 else 0) + OpenBefore(calls[1..], answered, c)
  {
    if c > 0 {
      OpenFront(calls, answered, c - 1);
    }
  }

  function KeptRun(ids: set<string>, run: History): History
    requires IsRun(run)
  {
    StripRun(DedupRun(run), ids)
  }

  lemma KeptFront(ids: set<string>, run: History)
    requires IsRun(run) && run != []
    ensures KeptRun(ids, run) == (if Stays(ids, run, 0) then [run[0]] else []) + KeptRun(ids, run[1..])
  {
    StayFront(ids, run, 0);
    var rest := DedupRun(run[1..]);
    assert ([run[0]] + rest)[1..] == rest;
    assert [] + rest == rest && [] + KeptRun(ids, run[1..]) == KeptRun(ids, run[1..]);
  }

  /** Each result that stays stands behind those that stay before it. */
  lemma {:induction false} KeptAt(ids: set<string>, run: History, k: nat)
    requires IsRun(run) && k <= |run|
    ensures |KeptRun(ids, run)| == StayBefore(ids, run, |run|)
    ensures k < |run| && Stays(ids, run, k) ==>
      StayBefore(ids, run, k) < |KeptRun(ids, run)| && KeptRun(ids, run)[StayBefore(ids, run, k)] == run[k]
  {
    hide KeptRun, Stays;
    if run == [] {
      NothingKept(ids, run);
    } else {
      KeptFront(ids, run);
      StayFront(ids, run, |run| - 1);
      if k == 0 {
        KeptAt(ids, run[1..], 0);
      } else {
        KeptAt(ids, run[1..], k - 1);
        StayFront(ids, run, k - 1);
        if k < |run| {
          StayFront(ids, run, k);
        }
      }
    }
  }

  lemma NothingKept(ids: set<string>, run: History)
    requires run == []
    ensures KeptRun(ids, run) == []
  {
  }

  ghost predicate Answer(item: Item, call: Call) {
    item == ToolResult(call.id, "Tool execution was halted by the harness (history_repair); the tool `"
      + call.name + "` was not executed.", false, [])
  }

  /** Each open call gets its answer behind those of the open calls before it. */
  lemma {:induction false} FilledAt(calls: seq<Call>, answered: set<string>, c: nat)
    requires c <= |calls|
    ensures |Backfill(calls, answered)| == OpenBefore(calls, answered, |calls|)
    ensures c < |calls| && IsOpen(calls, answered, c) ==>
      var n := OpenBefore(calls, answered, c);
      n < |Backfill(calls, answered)| && Answer(Backfill(calls, answered)[n], calls[c])
  {
    hide HaltedText, Answer;
    if calls != [] {
      AnswerIs(calls[0]);
      OpenFront(calls, answered, |calls| - 1);
      if c == 0 {
        FilledAt(calls[1..], answered, 0);
      } else {
        FilledAt(calls[1..], answered, c - 1);
        OpenFront(calls, answered, c - 1);
      }
    }
  }

  lemma AnswerIs(call: Call)
    ensures Answer(ToolResult(call.id, HaltedText(call.name), false, []), call)
  {
  }

  /** A repaired run: first the results that stay, in their order, then an answer for
      each open call, in the order of the calls. */
  lemma RepairedRun(calls: seq<Call>, run: History, k: nat, c: nat)
    requires IsRun(run) && k <= |run| && c <= |calls|
    ensures var ids, now := CallIds(calls), RepairRun(calls, run);
      var m := StayBefore(ids, run, |run|);
      && |now| == m + OpenBefore(calls, Ids(run), |calls|)
      && (k < |run| && Stays(ids, run, k) ==> StayBefore(ids, run, k) < m && now[StayBefore(ids, run, k)] == run[k])
      && (c < |calls| && IsOpen(calls, Ids(run), c) ==>
            m + OpenBefore(calls, Ids(run), c) < |now| && Answer(now[m + OpenBefore(calls, Ids(run), c)], calls[c]))
  {
    hide Stays, StayBefore, OpenBefore, Answer, StripRun, DedupRun, Backfill, Ids, CallIds, RepairRun;
    var ids := CallIds(calls);
    var kept := KeptRun(ids, run);
    KeptAt(ids, run, k);
    FilledAt(calls, Ids(run), c);
    RunParts(calls, run);
  }

  lemma RunParts(calls: seq<Call>, run: History)
    requires IsRun(run)
    ensures RepairRun(calls, run) == KeptRun(CallIds(calls), run) + Backfill(calls, Ids(run))
  {
    hide DedupRun, StripRun, Backfill, Ids, CallIds;
    var ids := CallIds(calls);
    if calls == [] {
      NoCalls(run);
    } else {
      DedupMeaning(run);
      StripMeaning(DedupRun(run), ids);
      BackfillSame(calls, Ids(KeptRun(ids, run)), Ids(run));
    }
  }

  lemma NoCalls(run: History)
    requires IsRun(run)
    ensures RepairRun([], run) == [] && KeptRun(CallIds([]), run) == [] && Backfill([], Ids(run)) == []
  {
    assert CallIds([]) == {};
    StripNothing(run);
    StripNothing(DedupRun(run));
  }

  /** Only the called ids among the answered ones matter. */
  lemma {:induction false} BackfillSame(calls: seq<Call>, a: set<string>, b: set<string>)
    requires forall c <- calls :: c.id in a <==> c.id in b
    ensures Backfill(calls, a) == Backfill(calls, b)
  {
    hide HaltedText;
    if calls != [] {
      BackfillSame(calls[1..], a, b);
    }
  }
}
