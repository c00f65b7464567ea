/** The index loops of two repair passes: removing stale duplicates in place with
    a rescan, and collecting insertions to splice in back to front. Both are
    shown to be the block-wise passes. */
module RepairLoops {
  import opened Conversation
  import opened Pairing
  import opened RepairHistory

  predicate CallsTools(item: Item) { item.Assistant? && item.calls != [] }

  /** One forward scan: each assistant with calls and the run after it are rewritten. */
  function Scan(pass: Pass, items: History): History
    requires pass != Strip
    decreases |items|
  {
    if items == [] then []
    else if CallsTools(items[0]) then
      var rest := items[1..];
      var n := RunLength(rest);
      [items[0]] + (PassRun(pass, items[0].calls, rest[..n]) + Scan(pass, rest[n..]))
    else [items[0]] + Scan(pass, items[1..])
  }

  lemma ScanHead(pass: Pass, items: History)
    requires pass != Strip && items != []
    ensures !CallsTools(items[0]) ==> Scan(pass, items) == [items[0]] + Scan(pass, items[1..])
    ensures CallsTools(items[0]) ==>
      var n := RunLength(items[1..]);
      Scan(pass, items) == [items[0]] + (PassRun(pass, items[0].calls, items[1..][..n]) + Scan(pass, items[1..][n..]))
  {
    hide PassRun, RunLength;
  }

  lemma {:induction false} ScanOverRun(pass: Pass, run: History, rest: History)
    requires pass != Strip && IsRun(run)
    ensures Scan(pass, run + rest) == run + Scan(pass, rest)
    decreases |run|
  {
    hide Scan;
    if run == [] {
      assert run + rest == rest;
      assert [] + Scan(pass, rest) == Scan(pass, rest);
    } else {
      var w := run + rest;
      assert w[1..] == run[1..] + rest && w[0] == run[0];
      ScanHead(pass, w);
      ScanOverRun(pass, run[1..], rest);
      assert [run[0]] + (run[1..] + Scan(pass, rest)) == run + Scan(pass, rest);
    }
  }

  lemma PassWithoutCalls(pass: Pass, run: History)
    requires pass != Strip && IsRun(run)
    ensures PassRun(pass, [], run) == run
  {
  }

  lemma ScanBlock(pass: Pass, b: Block, rest: History)
    requires pass != Strip && IsBlock(b) && (rest != [] ==> !rest[0].ToolResult?)
    ensures Scan(pass, [b.leader] + b.run + rest)
         == [b.leader] + PassRun(pass, CallsOf(b.leader), b.run) + Scan(pass, rest)
  {
    hide PassRun, Scan, RunLength;
    var w := [b.leader] + b.run + rest;
    assert w[0] == b.leader && w[1..] == b.run + rest;
    RunLengthConcat(b.run, rest);
    ScanHead(pass, w);
    var out := PassRun(pass, CallsOf(b.leader), b.run);
    if !CallsTools(b.leader) {
      ScanOverRun(pass, b.run, rest);
      PassWithoutCalls(pass, b.run);
    }
    Regroup([], [b.leader], out, Scan(pass, rest));
    assert Scan(pass, w) == [b.leader] + (out + Scan(pass, rest));
  }

  lemma {:induction false} ScanBlocks(pass: Pass, bs: seq<Block>)
    requires pass != Strip && AreBlocks(bs)
    ensures Scan(pass, Flatten(bs)) == Flatten(PassBlocks(pass, bs))
    decreases |bs|
  {
    hide PassRun;
    if bs != [] {
      assert IsBlock(bs[0]) && AreBlocks(bs[1..]);
      FlattenStart(bs[1..]);
      ScanBlock(pass, bs[0], Flatten(bs[1..]));
      ScanBlocks(pass, bs[1..]);
      var out := PassBlocks(pass, bs);
      assert out[1..] == PassBlocks(pass, bs[1..]);
    }
  }

  /** The forward scan is the block-wise pass. */
  lemma ScanIsPass(pass: Pass, items: History)
    requires pass != Strip
    ensures Scan(pass, items) == Apply(pass, items)
  {
    hide PassRun, Scan, PassBlocks;
    var n := RunLength(items);
    var bs := Blocks(items[n..]);
    assert items == items[..n] + items[n..];
    FlattenBlocks(items[n..]);
    ScanOverRun(pass, items[..n], items[n..]);
    ScanBlocks(pass, bs);
    PassWithoutCalls(pass, items[..n]);
  }

  // ----- answering dangling calls

  /** Synthetic results and the index they go to. */
  datatype Insertion = Insertion(at: nat, results: History)

  predicate InBounds(repairs: seq<Insertion>, n: nat) {
    forall k :: 0 <= k < |repairs| ==> repairs[k].at <= n
  }

  function Added(repairs: seq<Insertion>): nat {
    if repairs == [] then 0 else Added(repairs[..|repairs| - 1]) + |repairs[|repairs| - 1].results|
  }

  /** All insertions, the last one first. */
  function Insert(items: History, repairs: seq<Insertion>): (r: History)
    requires InBounds(repairs, |items|)
    ensures |r| == |items| + Added(repairs)
    decreases |repairs|
  {
    if repairs == [] then items
    else
      var last := repairs[|repairs| - 1];
      Insert(items[..last.at] + last.results + items[last.at..], repairs[..|repairs| - 1])
  }

  /** Insertions do not reach what follows them. */
  lemma {:induction false} InsertBefore(a: History, b: History, repairs: seq<Insertion>)
    requires InBounds(repairs, |a|)
    ensures Insert(a + b, repairs) == Insert(a, repairs) + b
    decreases |repairs|
  {
    if repairs != [] {
      var last := repairs[|repairs| - 1];
      var a' := a[..last.at] + last.results + a[last.at..];
      var w := a + b;
      assert w[..last.at] + last.results + w[last.at..] == a' + b;
      InsertBefore(a', b, repairs[..|repairs| - 1]);
    }
  }

  /** Extends the scanned part by what follows it and one more insertion at its end. */
  lemma InsertAfter(done: History, more: History, repairs: seq<Insertion>, results: History)
    requires InBounds(repairs, |done|)
    ensures var next := repairs + [Insertion(|done + more|, results)];
      && InBounds(next, |done + more|)
      && Insert(done + more, next) == Insert(done, repairs) + (more + results)
      && Insert(done + more, repairs) == Insert(done, repairs) + more
  {
    var next := repairs + [Insertion(|done + more|, results)];
    var w := done + more;
    assert next[..|next| - 1] == repairs;
    assert w[..|w|] + results + w[|w|..] == done + (more + results);
    InsertBefore(done, more + results, repairs);
    InsertBefore(done, more, repairs);
  }

  /** The ids answered right after the assistant at `i`, and where its run ends. */
  method AnsweredAfter(items: History, i: nat) returns (answered: set<string>, j: nat)
    requires i < |items|
    ensures i < j <= |items| && IsRun(items[i + 1..j]) && (j < |items| ==> !items[j].ToolResult?)
    ensures answered == Ids(items[i + 1..j])
  {
    answered, j := {}, i + 1;
    while j < |items| && items[j].ToolResult?
      invariant i < j <= |items| && IsRun(items[i + 1..j])
      invariant answered == Ids(items[i + 1..j])
    {
      NextId(items, i + 1, j);
      answered := answered + {items[j].id};
      j := j + 1;
    }
  }

  /** The scanned part with its insertions, before the scan of the rest, is the scan. */
  ghost predicate Scanned(items: History, i: nat, repairs: seq<Insertion>) {
    i <= |items| && InBounds(repairs, i)
    && Insert(items[..i], repairs) + Scan(Dangling, items[i..]) == Scan(Dangling, items)
  }

  lemma ScannedCalls(items: History, i: nat, j: nat, repairs: seq<Insertion>, synthetic: History)
    requires Scanned(items, i, repairs) && i < j <= |items| && CallsTools(items[i]) && IsRun(items[i + 1..j])
    requires j < |items| ==> !items[j].ToolResult?
    requires synthetic == Backfill(items[i].calls, Ids(items[i + 1..j]))
    ensures Scanned(items, j, if synthetic == [] then repairs else repairs + [Insertion(j, synthetic)])
  {
    hide Scan, Backfill, Insert, Ids;
    ScanCalls(items, i, j);
    InsertAfter(items[..i], items[i..j], repairs, synthetic);
    assert items[..i] + items[i..j] == items[..j];
    Regroup(Insert(items[..i], repairs), items[i..j], synthetic, Scan(Dangling, items[j..]));
    assert items[i..j] + [] == items[i..j];
  }

  lemma ScannedOther(items: History, i: nat, repairs: seq<Insertion>)
    requires Scanned(items, i, repairs) && i < |items| && !CallsTools(items[i])
    ensures Scanned(items, i + 1, repairs)
  {
    assert items[i..][1..] == items[i + 1..];
    assert Scan(Dangling, items[i..]) == [items[i]] + Scan(Dangling, items[i + 1..]);
    hide Scan, Insert;
    InsertAfter(items[..i], [items[i]], repairs, []);
    assert items[..i] + [items[i]] == items[..i + 1];
    Regroup(Insert(items[..i], repairs), [items[i]], [], Scan(Dangling, items[i + 1..]));
  }

  lemma ScannedAll(items: History, repairs: seq<Insertion>)
    requires Scanned(items, |items|, repairs)
    ensures InBounds(repairs, |items|) && Insert(items, repairs) == Apply(Dangling, items)
  {
    assert items[..|items|] == items && items[|items|..] == [];
    assert Scan(Dangling, []) == [];
    hide Scan, Insert, Apply;
    ScanIsPass(Dangling, items);
    assert Insert(items, repairs) + [] == Insert(items, repairs);
  }

  method CollectRepairs(items: History) returns (repairs: seq<Insertion>)
    ensures InBounds(repairs, |items|) && Insert(items, repairs) == Apply(Dangling, items)
  {
    hide Scanned, Apply, Backfill, Scan, Insert;
    repairs := [];
    var i := 0;
    NothingScanned(items);
    while i < |items|
      invariant i <= |items| && Scanned(items, i, repairs)
    {
      if CallsTools(items[i]) {
        var answered, j := AnsweredAfter(items, i);
        var synthetic := Backfill(items[i].calls, answered);
        ScannedCalls(items, i, j, repairs, synthetic);
        if synthetic != [] {
          repairs := repairs + [Insertion(j, synthetic)];
        }
        i := j;
        continue;
      }
      ScannedOther(items, i, repairs);
      i := i + 1;
    }
    ScannedAll(items, repairs);
  }

  method RepairDanglingToolCalls(items: History) returns (conversation: History, total: nat)
    ensures conversation == Apply(Dangling, items)
    ensures |conversation| == |items| + total && (total == 0 ==> conversation == items)
  {
    hide Apply, Added;
    var repairs := CollectRepairs(items);
    conversation, total := items, 0;
    var k := |repairs|;
    assert repairs[..|repairs|] == repairs;
    while k > 0
      invariant 0 <= k <= |repairs| && InBounds(repairs[..k], |conversation|)
      invariant Insert(conversation, repairs[..k]) == Insert(items, repairs)
      invariant |conversation| == |items| + total && (total == 0 ==> conversation == items)
    {
      k := k - 1;
      var repair := repairs[k];
      SpliceNothing(conversation, repair.at);
      assert repairs[..k + 1][..k] == repairs[..k] && repairs[..k + 1][k] == repair;
      conversation := conversation[..repair.at] + repair.results + conversation[repair.at..];
      total := total + |repair.results|;
    }
  }

  lemma SpliceNothing(items: History, at: nat)
    requires at <= |items|
    ensures items[..at] + [] + items[at..] == items
  {
  }

  lemma NothingScanned(items: History)
    ensures Scanned(items, 0, [])
  {
    assert items[..0] == [] && items[0..] == items;
    assert [] + Scan(Dangling, items) == Scan(Dangling, items);
  }

  lemma Regroup(a: History, b: History, c: History, d: History)
    ensures (a + (b + c)) + d == a + (b + (c + d))
    ensures (a + b) + d == a + (b + d)
    ensures (b + c) + d == b + (c + d)
  {
  }

  lemma NextId(items: History, lo: nat, j: nat)
    requires lo <= j < |items| && IsRun(items[lo..j]) && items[j].ToolResult?
    ensures IsRun(items[lo..j + 1]) && Ids(items[lo..j + 1]) == Ids(items[lo..j]) + {items[j].id}
  {
    var run := items[lo..j];
    assert items[lo..j + 1] == run + [items[j]];
    IdsOne(items[j]);
    IdsConcat(run, [items[j]]);
  }

  /** One site of the scan. */
  lemma RunAt(items: History, lo: nat, j: nat)
    requires lo <= j <= |items| && IsRun(items[lo..j]) && (j < |items| ==> !items[j].ToolResult?)
    ensures RunLength(items[lo..]) == j - lo
    ensures items[lo..][..j - lo] == items[lo..j] && items[lo..][j - lo..] == items[j..]
  {
    assert items[lo..] == items[lo..j] + items[j..];
    RunLengthConcat(items[lo..j], items[j..]);
  }

  lemma ScanSite(pass: Pass, items: History, i: nat, j: nat)
    requires pass != Strip && i < j <= |items| && CallsTools(items[i]) && IsRun(items[i + 1..j])
    requires j < |items| ==> !items[j].ToolResult?
    ensures Scan(pass, items[i..])
         == [items[i]] + (PassRun(pass, items[i].calls, items[i + 1..j]) + Scan(pass, items[j..]))
  {
    hide PassRun, Scan, RunLength;
    RunAt(items, i + 1, j);
    var w := items[i..];
    assert w[1..] == items[i + 1..] && w[0] == items[i];
    ScanHead(pass, w);
  }

  lemma ScanCalls(items: History, i: nat, j: nat)
    requires i < j <= |items| && CallsTools(items[i]) && IsRun(items[i + 1..j])
    requires j < |items| ==> !items[j].ToolResult?
    ensures Scan(Dangling, items[i..])
         == items[i..j] + (Backfill(items[i].calls, Ids(items[i + 1..j])) + Scan(Dangling, items[j..]))
  {
    hide Backfill, Ids, Scan;
    ScanSite(Dangling, items, i, j);
    var run, back := items[i + 1..j], Backfill(items[i].calls, Ids(items[i + 1..j]));
    assert items[i..j] == [items[i]] + run;
    Regroup([], run, back, Scan(Dangling, items[j..]));
    Regroup([], [items[i]], run, back + Scan(Dangling, items[j..]));
  }

  // ----- removing stale duplicates

  predicate SameId(c: History, k: nat, l: nat) {
    k < |c| && l < |c| && c[k].ToolResult? && c[l].ToolResult? && c[k].id == c[l].id
  }

  /** A later result before `end` has the same id. */
  predicate Stale(c: History, k: nat, end: nat) {
    exists l: nat | k < l < end :: SameId(c, k, l)
  }

  predicate Descending(s: seq<nat>) {
    forall i, j :: 0 <= i < j < |s| ==> s[i] > s[j]
  }

  /** The stale indices from `e` on, highest first. */
  function Marks(c: History, e: nat, end: nat): seq<nat>
    requires e <= end
    decreases end - e
  {
    if e == end then [] else Marks(c, e + 1, end) + if Stale(c, e, end) then [e] else []
  }

  lemma {:induction false} MarksMeaning(c: History, e: nat, end: nat)
    requires e <= end
    ensures forall k :: k in Marks(c, e, end) <==> e <= k < end && Stale(c, k, end)
    ensures Descending(Marks(c, e, end))
    decreases end - e
  {
    hide Stale;
    if e < end {
      MarksMeaning(c, e + 1, end);
      var more := Marks(c, e + 1, end);
      forall i | 0 <= i < |more| ensures more[i] > e { assert more[i] in more; }
    }
  }

  /** Highest first. */
  function InsertHigh(x: nat, s: seq<nat>): (r: seq<nat>)
    ensures forall k :: k in r <==> k == x || k in s
    ensures |r| == |s| + 1
  {
    if s == [] || x > s[0] then [x] + s
    else
      assert s == [s[0]] + s[1..];
      [s[0]] + InsertHigh(x, s[1..])
  }

  lemma {:induction false} InsertDescends(x: nat, s: seq<nat>)
    requires Descending(s) && x !in s
    ensures Descending(InsertHigh(x, s))
  {
    if s != [] && x <= s[0] {
      InsertDescends(x, s[1..]);
      var rest := InsertHigh(x, s[1..]);
      forall j | 0 <= j < |rest| ensures rest[j] < s[0] {
        assert rest[j] in rest;
        assert s[0] in s;
      }
    }
  }

  function SortHigh(s: seq<nat>): (r: seq<nat>)
    ensures forall k :: k in r <==> k in s
    ensures |r| == |s|
  {
    if s == [] then []
    else
      assert s == [s[0]] + s[1..];
      InsertHigh(s[0], SortHigh(s[1..]))
  }

  ghost predicate Unrepeated(s: seq<nat>) {
    forall i, j :: 0 <= i < j < |s| ==> s[i] != s[j]
  }

  lemma {:induction false} SortDescends(s: seq<nat>)
    requires Unrepeated(s)
    ensures Descending(SortHigh(s))
  {
    if s != [] {
      assert Unrepeated(s[1..]) && s[0] !in s[1..];
      SortDescends(s[1..]);
      InsertDescends(s[0], SortHigh(s[1..]));
    }
  }

  lemma FirstIn(s: seq<nat>)
    ensures s != [] ==> s[0] in s
  {
  }

  lemma TailBelow(s: seq<nat>)
    requires Descending(s) && s != []
    ensures forall k :: k in s[1..] <==> k in s && k != s[0]
  {
    assert s == [s[0]] + s[1..];
    forall j | 0 <= j < |s| - 1 ensures s[1..][j] != s[0] { assert s[1..][j] == s[j + 1]; }
  }

  /** A descending list is determined by its elements. */
  lemma {:induction false} DescendingSame(a: seq<nat>, b: seq<nat>)
    requires Descending(a) && Descending(b) && forall k :: k in a <==> k in b
    ensures a == b
  {
    if a == [] {
      FirstIn(b);
    } else {
      assert a[0] in b;
      assert b[0] in a;
      assert a[0] == b[0];
      TailBelow(a);
      TailBelow(b);
      DescendingSame(a[1..], b[1..]);
    }
  }

  function RemoveAll(c: History, ks: seq<nat>): History {
    if ks == [] then c
    else
      var left := RemoveAll(c, ks[..|ks| - 1]);
      var k := ks[|ks| - 1];
      if k < |left| then left[..k] + left[k + 1..] else left
  }

  /** Whether one element of a run is stale is whether its id comes again. */
  lemma StaleInRun(c: History, e: nat, end: nat)
    requires e < end <= |c| && IsRun(c[e..end])
    ensures IsRun(c[e + 1..end]) && c[e..end] == [c[e]] + c[e + 1..end] && c[e].ToolResult?
    ensures Stale(c, e, end) <==> c[e].id in Ids(c[e + 1..end])
  {
    var run, rest := c[e..end], c[e + 1..end];
    assert run == [c[e]] + rest;
    assert run[0].ToolResult?;
    forall i | 0 <= i < |rest| ensures rest[i].ToolResult? && rest[i] == c[e + 1 + i] { assert run[i + 1] == rest[i]; }
    if Stale(c, e, end) {
      var l: nat :| e < l < end && SameId(c, e, l);
      assert rest[l - e - 1] in rest;
    }
    if c[e].id in Ids(rest) {
      var i :| 0 <= i < |rest| && rest[i].id == c[e].id;
      assert SameId(c, e, e + 1 + i);
    }
  }

  /** Removing the stale results of a run back to front deduplicates it in place. */
  lemma {:induction false} RemovedFrom(c: History, e: nat, end: nat)
    requires e <= end <= |c| && IsRun(c[e..end])
    ensures RemoveAll(c, Marks(c, e, end)) == c[..e] + DedupRun(c[e..end]) + c[end..]
    decreases end - e
  {
    if e == end {
      assert c[..e] + [] + c[end..] == c;
    } else {
      hide Stale, Ids;
      StaleInRun(c, e, end);
      RemovedFrom(c, e + 1, end);
      var marks, dedup := Marks(c, e + 1, end), DedupRun(c[e + 1..end]);
      var left := RemoveAll(c, marks);
      assert c[e..end][1..] == c[e + 1..end] && c[e..end][0] == c[e];
      if Stale(c, e, end) {
        var ks := marks + [e];
        assert ks[..|ks| - 1] == marks;
        OneRemoved(c, e, dedup, c[end..], left);
      } else {
        assert marks + [] == marks;
        OneKept(c, e, dedup, c[end..], left);
      }
    }
  }

  lemma OneRemoved(c: History, e: nat, run: History, tail: History, left: History)
    requires e < |c| && left == c[..e + 1] + run + tail
    ensures e < |left| && left[..e] + left[e + 1..] == c[..e] + run + tail
  {
  }

  lemma OneKept(c: History, e: nat, run: History, tail: History, left: History)
    requires e < |c| && left == c[..e + 1] + run + tail
    ensures left == c[..e] + ([c[e]] + run) + tail
  {
  }

  /** Every prefix of the marks is the marks from a higher index on. */
  lemma {:induction false} MarksPrefix(c: History, e: nat, end: nat, q: nat)
    requires e <= end && q < |Marks(c, e, end)|
    ensures var k := Marks(c, e, end)[q]; e <= k < end && Marks(c, e, end)[..q] == Marks(c, k + 1, end)
    decreases end - e
  {
    hide Stale;
    var more := Marks(c, e + 1, end);
    if q < |more| {
      MarksPrefix(c, e + 1, end, q);
      assert Marks(c, e, end)[..q] == more[..q];
    } else {
      assert Marks(c, e, end)[..q] == more;
    }
  }

  /** Each removal is in range. */
  lemma RemovalInRange(c: History, e: nat, end: nat, q: nat)
    requires e <= end <= |c| && IsRun(c[e..end]) && q < |Marks(c, e, end)|
    ensures Marks(c, e, end)[q] < |RemoveAll(c, Marks(c, e, end)[..q])|
  {
    hide Marks, RemoveAll, DedupRun, Stale;
    var k := Marks(c, e, end)[q];
    MarksPrefix(c, e, end, q);
    RunFrom(c, e, k + 1, end);
    RemovedFrom(c, k + 1, end);
  }

  lemma RunFrom(c: History, e: nat, k: nat, end: nat)
    requires e <= k <= end <= |c| && IsRun(c[e..end])
    ensures IsRun(c[k..end])
  {
    assert c[k..end] == c[e..end][k - e..];
  }

  /** What the marking pass knows at `idx`: `seen` holds the last index of each id,
      and every other index is marked once. */
  ghost predicate Marked(c: History, start: nat, idx: nat, seen: map<string, nat>, marked: seq<nat>) {
    idx <= |c|
    && (forall k :: start <= k < idx ==> c[k].ToolResult? && c[k].id in seen)
    && (forall id <- seen :: start <= seen[id] < idx && c[seen[id]].ToolResult? && c[seen[id]].id == id)
    && (forall k :: start <= k < idx ==> k <= seen[c[k].id])
    && (forall k :: k in marked <==> start <= k < idx && k != seen[c[k].id])
    && Unrepeated(marked)
  }

  lemma MarkNext(c: History, start: nat, idx: nat, seen: map<string, nat>, marked: seq<nat>)
    requires start <= idx < |c| && c[idx].ToolResult? && Marked(c, start, idx, seen, marked)
    ensures var id := c[idx].id;
      Marked(c, start, idx + 1, seen[id := idx], if id in seen then marked + [seen[id]] else marked)
  {
    var id := c[idx].id;
    if id in seen {
      assert seen[id] !in marked;
    }
  }

  lemma LastIsSeen(c: History, start: nat, end: nat, seen: map<string, nat>, marked: seq<nat>, k: nat)
    requires start <= k < end && Marked(c, start, end, seen, marked)
    ensures Stale(c, k, end) <==> k != seen[c[k].id]
  {
    var l := seen[c[k].id];
    if k != l {
      assert SameId(c, k, l);
    }
    if Stale(c, k, end) {
      var m: nat :| k < m < end && SameId(c, k, m);
      assert m <= seen[c[m].id];
    }
  }

  lemma MarkedIsStale(c: History, start: nat, end: nat, seen: map<string, nat>, marked: seq<nat>)
    requires start <= end && Marked(c, start, end, seen, marked)
    ensures SortHigh(marked) == Marks(c, start, end)
  {
    MarksMeaning(c, start, end);
    SortDescends(marked);
    forall k | start <= k < end ensures Stale(c, k, end) <==> k != seen[c[k].id] {
      LastIsSeen(c, start, end, seen, marked, k);
    }
    DescendingSame(SortHigh(marked), Marks(c, start, end));
  }

  method RunEnd(c: History, start: nat) returns (end: nat)
    requires start <= |c|
    ensures start <= end <= |c| && IsRun(c[start..end]) && (end < |c| ==> !c[end].ToolResult?)
  {
    end := start;
    while end < |c| && c[end].ToolResult?
      invariant start <= end <= |c| && forall k :: start <= k < end ==> c[k].ToolResult?
    {
      end := end + 1;
    }
  }

  method StaleIndices(c: History, start: nat, end: nat) returns (toRemove: seq<nat>)
    requires start <= end <= |c| && IsRun(c[start..end])
    ensures toRemove == Marks(c, start, end)
  {
    hide Marked;
    var seen: map<string, nat> := map[];
    var marked: seq<nat> := [];
    NothingMarked(c, start);
    for idx := start to end
      invariant Marked(c, start, idx, seen, marked)
    {
      assert c[idx] == c[start..end][idx - start];
      MarkNext(c, start, idx, seen, marked);
      var id := c[idx].id;
      if id in seen {
        marked := marked + [seen[id]];
      }
      seen := seen[id := idx];
    }
    MarkedIsStale(c, start, end, seen, marked);
    toRemove := SortHigh(marked);
  }

  lemma NothingMarked(c: History, start: nat)
    requires start <= |c|
    ensures Marked(c, start, start, map[], [])
  {
  }

  /** Removes the given indices, highest first, so that the others stay valid. */
  method RemoveMarked(items: History, start: nat, end: nat) returns (conversation: History, removed: nat)
    requires start <= end <= |items| && IsRun(items[start..end])
    ensures conversation == items[..start] + DedupRun(items[start..end]) + items[end..]
    ensures |conversation| + removed == |items| && (removed == 0 <==> DistinctIds(items[start..end]))
  {
    hide RemoveAll, Marks, Ids;
    var toRemove := StaleIndices(items, start, end);
    conversation := items;
    EmptyRemoval(items);
    for q := 0 to |toRemove|
      invariant conversation == RemoveAll(items, toRemove[..q]) && |conversation| + q == |items|
    {
      RemovalInRange(items, start, end, q);
      RemovalStep(items, toRemove, q);
      conversation := conversation[..toRemove[q]] + conversation[toRemove[q] + 1..];
    }
    assert toRemove[..|toRemove|] == toRemove;
    RemovedFrom(items, start, end);
    DedupMeaning(items[start..end]);
    removed := |toRemove|;
  }

  lemma EmptyRemoval(c: History)
    ensures RemoveAll(c, []) == c
  {
  }

  lemma RemovalStep(c: History, ks: seq<nat>, q: nat)
    requires q < |ks| && ks[q] < |RemoveAll(c, ks[..q])|
    ensures var left := RemoveAll(c, ks[..q]); RemoveAll(c, ks[..q + 1]) == left[..ks[q]] + left[ks[q] + 1..]
  {
    assert ks[..q + 1][..q] == ks[..q];
  }

  /** The scan of an assistant with calls and its run. */
  lemma ScanDedup(c: History, i: nat, end: nat)
    requires i < end <= |c| && CallsTools(c[i]) && IsRun(c[i + 1..end]) && (end < |c| ==> !c[end].ToolResult?)
    ensures Scan(Dedup, c[i..]) == [c[i]] + (DedupRun(c[i + 1..end]) + Scan(Dedup, c[end..]))
  {
    hide DedupRun, Scan;
    ScanSite(Dedup, c, i, end);
  }

  /** Deduplicating in place does not change what the scan makes of the history. */
  lemma ScanRescanned(c: History, d: History, i: nat, end: nat)
    requires i < end <= |c| && CallsTools(c[i]) && IsRun(c[i + 1..end]) && (end < |c| ==> !c[end].ToolResult?)
    requires d == c[..i + 1] + DedupRun(c[i + 1..end]) + c[end..]
    ensures d[..i] == c[..i] && Scan(Dedup, d[i..]) == Scan(Dedup, c[i..])
  {
    var run := DedupRun(c[i + 1..end]);
    var at := i + 1 + |run|;
    DedupMeaning(c[i + 1..end]);
    DedupMeaning(run);
    hide Scan, DedupRun, Ids, DistinctIds;
    assert d[i] == c[i] && d[i + 1..at] == run && d[at..] == c[end..];
    assert at < |d| ==> d[at] == c[end];
    ScanDedup(c, i, end);
    ScanDedup(d, i, at);
  }

  method DedupDuplicateToolResults(items: History) returns (conversation: History, total: nat)
    ensures conversation == Apply(Dedup, items)
    ensures |conversation| + total == |items| && (total == 0 ==> conversation == items)
  {
    hide Apply, Scan, DedupRun, Ids, DistinctIds;
    ScanIsPass(Dedup, items);
    conversation, total := items, 0;
    var i := 0;
    assert items[..0] == [] && items[0..] == items && [] + Scan(Dedup, items) == Scan(Dedup, items);
    while i < |conversation|
      invariant i <= |conversation| && |conversation| + total == |items| && (total == 0 ==> conversation == items)
      invariant conversation[..i] + Scan(Dedup, conversation[i..]) == Scan(Dedup, items)
      decreases |conversation| - i
    {
      ghost var c := conversation;
      if CallsTools(conversation[i]) {
        var end := RunEnd(conversation, i + 1);
        var next, removed := RemoveMarked(conversation, i + 1, end);
        if removed > 0 {
          ScanRescanned(c, next, i, end);
          conversation := next;
          total := total + removed;
          continue;
        }
        DistinctScanned(c, i, end);
        i := end;
        continue;
      }
      OtherScanned(c, i);
      i := i + 1;
    }
    EndScanned(conversation);
  }

  lemma DistinctScanned(c: History, i: nat, end: nat)
    requires i < end <= |c| && CallsTools(c[i]) && IsRun(c[i + 1..end]) && (end < |c| ==> !c[end].ToolResult?)
    requires DistinctIds(c[i + 1..end])
    ensures c[..i] + Scan(Dedup, c[i..]) == c[..end] + Scan(Dedup, c[end..])
  {
    hide Scan, DedupRun, DistinctIds, Ids;
    var run, rest := c[i + 1..end], Scan(Dedup, c[end..]);
    DedupMeaning(run);
    ScanDedup(c, i, end);
    assert c[..end] == c[..i] + ([c[i]] + run);
    Regroup(c[..i], [c[i]], run, rest);
  }

  lemma OtherScanned(c: History, i: nat)
    requires i < |c| && !CallsTools(c[i])
    ensures c[..i] + Scan(Dedup, c[i..]) == c[..i + 1] + Scan(Dedup, c[i + 1..])
  {
    assert c[i..][1..] == c[i + 1..];
    assert Scan(Dedup, c[i..]) == [c[i]] + Scan(Dedup, c[i + 1..]);
  }

  lemma EndScanned(c: History)
    ensures c[..|c|] + Scan(Dedup, c[|c|..]) == c
  {
    assert c[|c|..] == [];
  }

  // ----- the whole repair

  datatype Report = Report(duplicatesRemoved: nat, strippedIds: seq<string>, resultsInserted: nat)

  predicate Changed(r: Report) { r.duplicatesRemoved > 0 || r.strippedIds != [] || r.resultsInserted > 0 }

  lemma {:induction false} SettledBlocks(bs: seq<Block>, pass: Pass)
    requires AreBlocks(bs) && RepairBlocks(bs) == bs
    ensures PassBlocks(pass, bs) == bs
  {
    var out := PassBlocks(pass, bs);
    forall k | 0 <= k < |bs| ensures out[k] == bs[k] {
      assert RepairBlocks(bs)[k] == bs[k] && IsBlock(bs[k]);
      SettledRun(CallsOf(bs[k].leader), bs[k].run, pass);
    }
  }

  /** A run that the repair leaves alone is left alone by each pass. */
  lemma SettledRun(calls: seq<Call>, run: History, pass: Pass)
    requires IsRun(run) && RepairRun(calls, run) == run
    ensures PassRun(pass, calls, run) == run
  {
    hide RepairRun, DedupRun, StripRun, Backfill, DistinctIds;
    RepairRunAnswers(calls, run);
    RepairRunAgain(calls, run);
    DedupMeaning(run);
    StripMeaning(run, CallIds(calls));
    BackfillMeaning(calls, Ids(run));
    NoIdsNoRun(Backfill(calls, Ids(run)));
    assert run + [] == run;
  }

  /** A history that the repair leaves alone is left alone by each pass. */
  lemma SettledHistory(items: History, pass: Pass)
    requires Repair(items) == items
    ensures Apply(pass, items) == items
  {
    hide Repair, RepairBlocks, PassBlocks, Apply, PassRun;
    var bs := Body(items);
    RepairBodies(items);
    BlocksFlatten(RepairBlocks(bs));
    SettledBlocks(RepairBlocks(bs), pass);
    ApplyBlocks(pass, [], RepairBlocks(bs));
    OpeningNothing(pass);
    assert [] + items == items;
  }

  lemma OpeningNothing(pass: Pass)
    ensures PassRun(pass, [], []) == []
  {
  }

  /** The three passes in a row. The report counts what each removed or inserted and names
      the ids the second stripped; it says that something changed exactly when it did. */
  method RepairItems(items: History) returns (repaired: History, report: Report)
    ensures repaired == Repair(items)
    ensures Changed(report) <==> repaired != items
    ensures var deduped := Apply(Dedup, items);
      && report.duplicatesRemoved == |items| - |deduped|
      && report.strippedIds == MisplacedIds(ContiguousRun, deduped)
      && report.resultsInserted == |repaired| - |KeepPaired(ContiguousRun, deduped)|
    ensures |repaired| + report.duplicatesRemoved + |report.strippedIds| == |items| + report.resultsInserted
  {
    hide Apply, KeepPaired, MisplacedIds, Paired;
    var deduped, duplicates := DedupDuplicateToolResults(items);
    var kept, stripped := StripDisplacedToolResults(deduped);
    StripIsAdjacencyPass(deduped);
    PairedFixed(ContiguousRun, deduped);
    var inserted;
    repaired, inserted := RepairDanglingToolCalls(kept);
    report := Report(duplicates, stripped, inserted);
    if repaired == items {
      SettledHistory(items, Dedup);
      SettledHistory(items, Strip);
      SettledHistory(items, Dangling);
    }
  }
}
