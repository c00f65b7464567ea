/** Relinking the stretch of messages a compaction preserved: its head moves
    under the anchor, the anchor's other children move under its tail, and
    the rest of the history before the boundary is dropped. */
module PreservedSegment {
  import opened Wrappers
  import opened ClaudeRecords
  import opened ParentChains

  // ----- the preserved path

  /** The uuids from `x` up to `head`; none when the walk leaves the table or
      repeats before it gets there. */
  function WalkTo(at: Table, x: Option<string>, head: string, seen: set<string>): (r: Option<set<string>>)
    decreases |at.Keys - seen|
  {
    if x.None? || x.value !in at || x.value in seen then None
    else if x.value == head then Some(seen + {head})
    else
      Fewer(at.Keys, seen, x.value);
      WalkTo(at, ParentOf(at[x.value]), head, seen + {x.value})
  }

  /** The path is in the table, holds both ends and is closed below its head. */
  lemma {:induction false} WalkMeaning(at: Table, x: Option<string>, head: string, seen: set<string>)
    requires WalkTo(at, x, head, seen).Some?
    ensures var p := WalkTo(at, x, head, seen).value;
      && x.Some? && x.value in p && head in p && seen <= p && head !in seen
      && (forall u <- p :: u in seen || u in at)
      && (forall u <- p :: u in seen || u == head || (ParentOf(at[u]).Some? && ParentOf(at[u]).value in p))
    decreases |at.Keys - seen|
  {
    if x.value != head {
      Fewer(at.Keys, seen, x.value);
      WalkMeaning(at, ParentOf(at[x.value]), head, seen + {x.value});
    }
  }

  lemma {:induction false} WalkReaches(at: Table, x: Option<string>, head: string, seen: set<string>)
    requires WalkTo(at, x, head, seen).Some?
    ensures exists n: nat :: Up(at, x, n) == Some(head)
    decreases |at.Keys - seen|
  {
    if x.value == head {
      assert Up(at, x, 0) == Some(head);
    } else {
      Fewer(at.Keys, seen, x.value);
      WalkReaches(at, ParentOf(at[x.value]), head, seen + {x.value});
      var n: nat :| Up(at, ParentOf(at[x.value]), n) == Some(head);
      assert Up(at, x, n + 1) == Some(head);
    }
  }

  /** The head is first reached `n` steps above `x`. */
  ghost predicate FirstAt(at: Table, x: Option<string>, head: string, n: nat) {
    Up(at, x, n) == Some(head) && forall i: nat :: i < n ==> Up(at, x, i) != Some(head)
  }

  /** From `x`, `n` steps below the head and outside of `seen`, the walk succeeds and
      adds the messages passed on the way. */
  lemma {:induction false} WalkFound(at: Table, x: Option<string>, head: string, seen: set<string>, n: nat)
    requires head in at && FirstAt(at, x, head, n)
    requires forall u :: OnWay(at, x, n, u) ==> u !in seen
    ensures WalkTo(at, x, head, seen).Some?
    ensures forall u :: u in WalkTo(at, x, head, seen).value <==> u in seen || OnWay(at, x, n, u)
    decreases n
  {
    hide FirstAt, OnWay, Up;
    FirstInTable(at, x, head, n);
    var u := x.value;
    forall v ensures OnWay(at, x, 0, v) <==> v == u
             ensures n > 0 ==> (OnWay(at, x, n, v) <==> v == u || OnWay(at, ParentOf(at[u]), n - 1, v))
    {
      OnWayStep(at, u, n, v);
    }
    if n > 0 {
      Fewer(at.Keys, seen, u);
      FirstNext(at, u, head, n);
      WalkFound(at, ParentOf(at[u]), head, seen + {u}, n - 1);
    }
  }

  lemma FirstInTable(at: Table, x: Option<string>, head: string, n: nat)
    requires head in at && FirstAt(at, x, head, n)
    ensures x.Some? && x.value in at && (x.value == head <==> n == 0)
  {
    UpInTable(at, x, n);
    assert Up(at, x, 0) == x;
  }

  /** One step on the head is one step nearer, and the message left is not met again. */
  lemma FirstNext(at: Table, u: string, head: string, n: nat)
    requires u in at && n > 0 && FirstAt(at, Some(u), head, n)
    ensures FirstAt(at, ParentOf(at[u]), head, n - 1)
    ensures !OnWay(at, ParentOf(at[u]), n - 1, u)
  {
    forall i: nat ensures Up(at, Some(u), i + 1) == Up(at, ParentOf(at[u]), i) {
    }
    forall i: nat | i <= n - 1 ensures Up(at, ParentOf(at[u]), i) != Some(u) {
      if Up(at, Some(u), i + 1) == Some(u) {
        UpAdd(at, Some(u), i + 1, n - (i + 1));
      }
    }
  }

  lemma {:induction false} FirstOf(at: Table, x: Option<string>, head: string, n: nat) returns (k: nat)
    requires Up(at, x, n) == Some(head)
    ensures k <= n && FirstAt(at, x, head, k)
    decreases n
  {
    if i: nat :| i < n && Up(at, x, i) == Some(head) {
      k := FirstOf(at, x, head, i);
    } else {
      k := n;
    }
  }

  /** The walk succeeds exactly when the head is in the table at or above `x`, and it
      finds just the messages from `x` to the first place where the head stands. */
  lemma WalkExactly(at: Table, x: Option<string>, head: string)
    ensures WalkTo(at, x, head, {}).Some? <==> head in at && exists n: nat :: Up(at, x, n) == Some(head)
    ensures forall n: nat :: WalkTo(at, x, head, {}).Some? && FirstAt(at, x, head, n) ==>
              forall u :: u in WalkTo(at, x, head, {}).value <==> OnWay(at, x, n, u)
  {
    hide WalkTo, FirstAt, OnWay;
    if WalkTo(at, x, head, {}).Some? {
      WalkMeaning(at, x, head, {});
      WalkReaches(at, x, head, {});
    }
    if n: nat :| head in at && Up(at, x, n) == Some(head) {
      var k := FirstOf(at, x, head, n);
      WalkFound(at, x, head, {}, k);
    }
    forall n: nat | WalkTo(at, x, head, {}).Some? && FirstAt(at, x, head, n)
      ensures forall u :: u in WalkTo(at, x, head, {}).value <==> OnWay(at, x, n, u)
    {
      WalkFound(at, x, head, {}, n);
    }
  }

  method WalkPreserved(m: Messages, tail: string, head: string) returns (r: Option<set<string>>)
    requires m.Valid()
    ensures r == WalkTo(m.at, Some(tail), head, {})
  {
    var current := Some(tail);
    var seen: set<string> := {};
    while current.Some? && current.value in m.at
      invariant WalkTo(m.at, current, head, seen) == WalkTo(m.at, Some(tail), head, {})
      decreases |m.at.Keys - seen|
    {
      var u := current.value;
      if u in seen {
        return None;
      }
      if u == head {
        return Some(seen + {u});
      }
      Fewer(m.at.Keys, seen, u);
      seen := seen + {u};
      current := ParentOf(m.at[u]);
    }
    r := None;
  }

  // ----- relinking

  function RelinkOne(r: Record, u: string, seg: Segment): Record {
    if u == seg.head then SetParent(r, Some(seg.anchor))
    else if ParentOf(r) == Some(seg.anchor) then SetParent(r, Some(seg.tail))
    else r
  }

  function Relink(at: Table, seg: Segment): Table {
    map u | u in at :: RelinkOne(at[u], u, seg)
  }

  predicate Complete(seg: Segment) {
    seg.head != [] && seg.anchor != [] && seg.tail != []
  }

  /** Some message at or above the anchor is preserved. */
  ghost predicate AnchorTangled(at: Table, seg: Segment, p: set<string>) {
    exists n: nat :: Up(at, Some(seg.anchor), n).Some? && Up(at, Some(seg.anchor), n).value in p
  }

  lemma RelinkParent(at: Table, seg: Segment, u: string)
    requires Complete(seg) && u in at
    ensures ParentOf(Relink(at, seg)[u]) ==
            if u == seg.head then Some(seg.anchor)
            else if ParentOf(at[u]) == Some(seg.anchor) then Some(seg.tail)
            else ParentOf(at[u])
  {
  }

  /** The whole relinked table: only parents change, the head's and those of the other
      children of the anchor. */
  ghost predicate Relinked(at: Table, t: Table, seg: Segment) {
    && t.Keys == at.Keys
    && forall u <- at ::
         && t[u].(parent := at[u].parent, logical := at[u].logical) == at[u]
         && ParentOf(t[u]) == (if u == seg.head then Some(seg.anchor)
                               else if ParentOf(at[u]) == Some(seg.anchor) then Some(seg.tail)
                               else ParentOf(at[u]))
         && (u != seg.head && ParentOf(at[u]) != Some(seg.anchor) ==> t[u] == at[u])
  }

  lemma RelinkIs(at: Table, seg: Segment)
    requires Complete(seg)
    ensures Relinked(at, Relink(at, seg), seg)
  {
    hide SetParent, ParentOf;
  }

  /** Going up from a message that is not below itself never returns to it. */
  lemma {:induction false} UpFinite(at: Table, x: Option<string>, n: nat)
    requires Finite(at, x)
    ensures Finite(at, Up(at, x, n))
    decreases n
  {
    if n > 0 {
      if x.Some? && x.value in at {
        FiniteStep(at, x.value);
        UpFinite(at, ParentOf(at[x.value]), n - 1);
      } else {
        FiniteOutside(at, None);
      }
    }
  }

  lemma {:induction false} LoopNeverEnds(at: Table, u: string, period: nat, n: nat)
    requires u in at && Up(at, ParentOf(at[u]), period) == Some(u)
    ensures !Ends(at, Some(u), n)
    decreases n
  {
    if n > 0 {
      LoopClimb(at, u, period, ParentOf(at[u]), n - 1, period);
    }
  }

  /** Below a loop no chain ends. */
  lemma {:induction false} LoopClimb(at: Table, u: string, period: nat, x: Option<string>, n: nat, k: nat)
    requires u in at && Up(at, ParentOf(at[u]), period) == Some(u)
    requires Up(at, x, k) == Some(u)
    ensures !Ends(at, x, n)
    decreases n, k
  {
    if k == 0 {
      if n > 0 {
        LoopClimb(at, u, period, ParentOf(at[u]), n - 1, period);
      }
    } else if n > 0 {
      LoopClimb(at, u, period, ParentOf(at[x.value]), n - 1, k - 1);
    }
  }

  /** In an acyclic table no message above `anchor` has it as parent. */
  lemma NoLoopThrough(at: Table, anchor: string, n: nat)
    requires Finite(at, Some(anchor)) && anchor in at
    requires Up(at, Some(anchor), n).Some? && Up(at, Some(anchor), n).value in at
    ensures ParentOf(at[Up(at, Some(anchor), n).value]) != Some(anchor)
  {
    var x := Up(at, Some(anchor), n).value;
    if ParentOf(at[x]) == Some(anchor) {
      UpAdd(at, Some(anchor), n, 1);
      assert Up(at, Some(x), 1) == Up(at, ParentOf(at[x]), 0) == Some(anchor);
      assert Up(at, Some(anchor), n + 1) == Some(anchor);
      assert Up(at, ParentOf(at[anchor]), n) == Some(anchor);
      forall k: nat ensures !Ends(at, Some(anchor), k) {
        LoopNeverEnds(at, anchor, n, k);
      }
    }
  }

  // ----- relinking keeps chains finite unless the anchor is tangled

  lemma {:induction false} AnchorChainEnds(at: Table, seg: Segment, p: set<string>, k: nat, n: nat)
    requires Complete(seg) && Finite(at, Some(seg.anchor)) && seg.head in p && !AnchorTangled(at, seg, p)
    requires Ends(at, Up(at, Some(seg.anchor), k), n)
    ensures Finite(Relink(at, seg), Up(at, Some(seg.anchor), k))
    decreases n
  {
    hide Finite;
    var x := Up(at, Some(seg.anchor), k);
    if x.None? || x.value !in at {
      FiniteOutside(Relink(at, seg), x);
    } else {
      UpInTable(at, Some(seg.anchor), k);
      NoLoopThrough(at, seg.anchor, k);
      UpAdd(at, Some(seg.anchor), k, 1);
      UpOne(at, x.value);
      AnchorChainEnds(at, seg, p, k + 1, n - 1);
      RelinkParent(at, seg, x.value);
      FiniteStep(Relink(at, seg), x.value);
    }
  }

  lemma {:induction false} PathEnds(at: Table, seg: Segment, x: Option<string>, seen: set<string>)
    requires Complete(seg) && Finite(Relink(at, seg), Some(seg.anchor))
    requires WalkTo(at, x, seg.head, seen).Some? && seg.anchor !in WalkTo(at, x, seg.head, seen).value
    ensures Finite(Relink(at, seg), x)
    decreases |at.Keys - seen|
  {
    hide Finite;
    WalkMeaning(at, x, seg.head, seen);
    RelinkParent(at, seg, x.value);
    FiniteStep(Relink(at, seg), x.value);
    if x.value != seg.head {
      Fewer(at.Keys, seen, x.value);
      WalkMeaning(at, ParentOf(at[x.value]), seg.head, seen + {x.value});
      PathEnds(at, seg, ParentOf(at[x.value]), seen + {x.value});
    }
  }

  lemma {:induction false} RelinkedEnds(at: Table, seg: Segment, x: Option<string>, n: nat)
    requires Complete(seg) && Ends(at, x, n)
    requires Finite(Relink(at, seg), Some(seg.anchor)) && Finite(Relink(at, seg), Some(seg.tail))
    ensures Finite(Relink(at, seg), x)
    decreases n
  {
    hide Finite;
    if x.None? || x.value !in at {
      FiniteOutside(Relink(at, seg), x);
    } else {
      RelinkParent(at, seg, x.value);
      FiniteStep(Relink(at, seg), x.value);
      RelinkedEnds(at, seg, ParentOf(at[x.value]), n - 1);
    }
  }

  lemma UntangledAcyclic(at: Table, seg: Segment)
    requires Acyclic(at) && Complete(seg) && WalkTo(at, Some(seg.tail), seg.head, {}).Some?
    requires !AnchorTangled(at, seg, WalkTo(at, Some(seg.tail), seg.head, {}).value)
    ensures Acyclic(Relink(at, seg))
  {
    var p := WalkTo(at, Some(seg.tail), seg.head, {}).value;
    WalkMeaning(at, Some(seg.tail), seg.head, {});
    if seg.anchor !in at {
      FiniteOutside(at, Some(seg.anchor));
    }
    assert Up(at, Some(seg.anchor), 0) == Some(seg.anchor);
    var n: nat :| Ends(at, Some(seg.anchor), n);
    AnchorChainEnds(at, seg, p, 0, n);
    PathEnds(at, seg, Some(seg.tail), {});
    forall u | u in at ensures Finite(Relink(at, seg), Some(u)) {
      var n: nat :| Ends(at, Some(u), n);
      RelinkedEnds(at, seg, Some(u), n);
    }
  }

  /** The uuids from the anchor up to the `n`-th above it. */
  function AnchorChain(at: Table, anchor: string, n: nat): set<string>
    requires forall i: nat :: i <= n ==> Up(at, Some(anchor), i).Some?
  {
    set i | 0 <= i <= n :: Up(at, Some(anchor), i).value
  }

  lemma {:induction false} FirstTangle(at: Table, seg: Segment, p: set<string>, n: nat) returns (k: nat)
    requires Up(at, Some(seg.anchor), n).Some? && Up(at, Some(seg.anchor), n).value in p
    ensures k <= n && Up(at, Some(seg.anchor), k).Some? && Up(at, Some(seg.anchor), k).value in p
    ensures forall i: nat :: i < k && Up(at, Some(seg.anchor), i).Some? ==> Up(at, Some(seg.anchor), i).value !in p
    decreases n
  {
    if i: nat :| i < n && Up(at, Some(seg.anchor), i).Some? && Up(at, Some(seg.anchor), i).value in p {
      k := FirstTangle(at, seg, p, i);
    } else {
      k := n;
    }
  }

  lemma TangledCyclic(at: Table, seg: Segment)
    requires Acyclic(at) && Complete(seg) && WalkTo(at, Some(seg.tail), seg.head, {}).Some?
    requires AnchorTangled(at, seg, WalkTo(at, Some(seg.tail), seg.head, {}).value)
    ensures !Acyclic(Relink(at, seg))
  {
    var p := WalkTo(at, Some(seg.tail), seg.head, {}).value;
    WalkMeaning(at, Some(seg.tail), seg.head, {});
    var m: nat :| Up(at, Some(seg.anchor), m).Some? && Up(at, Some(seg.anchor), m).value in p;
    var n := FirstTangle(at, seg, p, m);
    UpInTable(at, Some(seg.anchor), n);
    var c := p + AnchorChain(at, seg.anchor, n);
    assert Up(at, Some(seg.anchor), 0) == Some(seg.anchor);
    assert seg.anchor in AnchorChain(at, seg.anchor, n);
    var r := Relink(at, seg);
    forall u | u in c ensures u in r && ParentOf(r[u]).Some? && ParentOf(r[u]).value in c {
      if u !in p {
        var i: nat :| i <= n && Up(at, Some(seg.anchor), i).value == u;
        assert i < n;
        ChainParent(at, seg, i, u);
        RelinkParent(at, seg, u);
        assert Up(at, Some(seg.anchor), i + 1).value in AnchorChain(at, seg.anchor, n);
      } else {
        RelinkParent(at, seg, u);
      }
    }
    ClosedIsCyclic(r, c, seg.head);
  }

  lemma ChainParent(at: Table, seg: Segment, i: nat, u: string)
    requires Acyclic(at) && Up(at, Some(seg.anchor), i) == Some(u) && u in at
    ensures ParentOf(at[u]) == Up(at, Some(seg.anchor), i + 1) && ParentOf(at[u]) != Some(seg.anchor)
  {
    UpInTable(at, Some(seg.anchor), i);
    UpAdd(at, Some(seg.anchor), i, 1);
    UpOne(at, u);
    NoLoopThrough(at, seg.anchor, i);
  }

  /** Relinking an acyclic table leaves it acyclic exactly when no message at
      or above the anchor is itself preserved. */
  lemma RelinkAcyclic(at: Table, seg: Segment)
    requires Acyclic(at) && Complete(seg) && WalkTo(at, Some(seg.tail), seg.head, {}).Some?
    ensures Acyclic(Relink(at, seg)) <==> !AnchorTangled(at, seg, WalkTo(at, Some(seg.tail), seg.head, {}).value)
  {
    if AnchorTangled(at, seg, WalkTo(at, Some(seg.tail), seg.head, {}).value) {
      TangledCyclic(at, seg);
    } else {
      UntangledAcyclic(at, seg);
    }
  }

  /** The smallest tangle: a head, and below it a tail that is also the anchor.
      The table is acyclic, and relinking hangs the head below the tail. */
  lemma TailAsAnchorCycles(head: Record, tail: Record)
    requires head.uuid != tail.uuid && head.uuid != [] && tail.uuid != []
    requires ParentOf(head) == None && ParentOf(tail) == Some(head.uuid)
    ensures var at := map[head.uuid := head, tail.uuid := tail];
            var seg := Segment(head.uuid, tail.uuid, tail.uuid);
            Acyclic(at) && WalkTo(at, Some(seg.tail), seg.head, {}).Some? && !Acyclic(Relink(at, seg))
  {
    var h, t := head.uuid, tail.uuid;
    var at, seg := map[h := head, t := tail], Segment(h, t, t);
    assert Ends(at, Some(h), 1) && Ends(at, Some(t), 2);
    assert WalkTo(at, Some(h), h, {t}) == Some({t} + {h});
    assert WalkTo(at, Some(t), h, {}) == WalkTo(at, Some(h), h, {} + {t});
    assert {} + {t} == {t};
    var p := WalkTo(at, Some(t), h, {}).value;
    WalkMeaning(at, Some(t), h, {});
    assert Up(at, Some(t), 0) == Some(t) && t in p;
    hide WalkTo, Acyclic, Relink;
    RelinkAcyclic(at, seg);
  }

  lemma {:induction false} EndsDropped(at: Table, gone: set<string>, x: Option<string>, n: nat)
    requires Ends(at, x, n)
    ensures Ends(at - gone, x, n)
    decreases n
  {
    if x.Some? && x.value in at - gone {
      EndsDropped(at, gone, ParentOf(at[x.value]), n - 1);
    }
  }

  /** Dropping messages creates no cycle. */
  lemma DropAcyclic(at: Table, gone: set<string>)
    requires Acyclic(at)
    ensures Acyclic(at - gone)
  {
    forall u | u in at - gone ensures Finite(at - gone, Some(u)) {
      var n: nat :| Ends(at, Some(u), n);
      EndsDropped(at, gone, Some(u), n);
    }
  }

  /** Relinking and dropping do not depend on each other's order. */
  lemma RelinkThenDrop(at: Table, seg: Segment, gone: set<string>)
    ensures Relink(at, seg) - gone == Relink(at - gone, seg)
  {
    hide RelinkOne;
  }

  /** The preserved path is found in the cut table too. */
  lemma {:induction false} WalkUncut(at: Table, x: Option<string>, head: string, seen: set<string>, gone: set<string>)
    requires WalkTo(at, x, head, seen).Some? && (WalkTo(at, x, head, seen).value - seen) !! gone
    ensures WalkTo(at - gone, x, head, seen) == WalkTo(at, x, head, seen)
    decreases |at.Keys - seen|
  {
    WalkMeaning(at, x, head, seen);
    var u := x.value;
    if u != head {
      Fewer(at.Keys, seen, u);
      WalkUncut(at, ParentOf(at[u]), head, seen + {u}, gone);
    }
  }

  /** Relinking an acyclic table and then dropping unpreserved messages leaves it
      acyclic exactly when, among the messages that are left, no message at or above
      the anchor is preserved. */
  lemma CutAcyclic(at: Table, seg: Segment, gone: set<string>)
    requires Acyclic(at) && Complete(seg) && WalkTo(at, Some(seg.tail), seg.head, {}).Some?
    requires WalkTo(at, Some(seg.tail), seg.head, {}).value !! gone
    ensures Acyclic(Relink(at, seg) - gone)
       <==> !AnchorTangled(at - gone, seg, WalkTo(at, Some(seg.tail), seg.head, {}).value)
  {
    hide WalkTo, Acyclic, Relink, AnchorTangled, Complete;
    var p := WalkTo(at, Some(seg.tail), seg.head, {}).value;
    assert p - {} == p;
    WalkUncut(at, Some(seg.tail), seg.head, {}, gone);
    RelinkThenDrop(at, seg, gone);
    DropAcyclic(at, gone);
    RelinkAcyclic(at - gone, seg);
  }

  /** Three messages, the anchor beside the tail: relinking alone makes a cycle,
      and dropping the anchor with what comes before the boundary undoes it. */
  lemma CutUntangles(head: Record, tail: Record, anchor: Record)
    requires head.uuid != tail.uuid && head.uuid != anchor.uuid && tail.uuid != anchor.uuid
    requires head.uuid != [] && tail.uuid != [] && anchor.uuid != []
    requires ParentOf(head) == None && ParentOf(tail) == Some(head.uuid) && ParentOf(anchor) == Some(head.uuid)
    ensures var at := map[head.uuid := head, tail.uuid := tail, anchor.uuid := anchor];
            var seg := Segment(head.uuid, anchor.uuid, tail.uuid);
            Acyclic(at) && !Acyclic(Relink(at, seg)) && Acyclic(Relink(at, seg) - {anchor.uuid})
  {
    var h, t, a := head.uuid, tail.uuid, anchor.uuid;
    var at, seg := map[h := head, t := tail, a := anchor], Segment(h, a, t);
    assert Ends(at, Some(h), 1) && Ends(at, Some(t), 2) && Ends(at, Some(a), 2);
    assert {} + {t} == {t};
    assert WalkTo(at, Some(h), h, {t}) == Some({t} + {h});
    assert WalkTo(at, Some(t), h, {}) == Some({t} + {h});
    assert Up(at, Some(a), 1) == Up(at, Some(h), 0) == Some(h);
    assert AnchorTangled(at, seg, {t} + {h});
    var left := at - {a};
    forall n: nat ensures Up(left, Some(a), n).Some? ==> Up(left, Some(a), n).value !in {t} + {h} {
    }
    hide WalkTo, Acyclic, Relink, Up;
    RelinkAcyclic(at, seg);
    CutAcyclic(at, seg, {a});
  }

  /** In the relinked and trimmed table the preserved path still leads from
      tail to head, the head hangs below the anchor, and every other former
      child of the anchor hangs below the tail. */
  lemma RelinkShape(at: Table, seg: Segment, gone: set<string>)
    requires Complete(seg) && WalkTo(at, Some(seg.tail), seg.head, {}).Some?
    requires var p := WalkTo(at, Some(seg.tail), seg.head, {}).value; p !! gone && seg.anchor !in p
    ensures var r := Relink(at, seg) - gone;
      && seg.head in r && ParentOf(r[seg.head]) == Some(seg.anchor)
      && (exists n: nat :: Up(r, Some(seg.tail), n) == Some(seg.head))
      && (forall u <- r :: u != seg.head && ParentOf(at[u]) == Some(seg.anchor) ==> ParentOf(r[u]) == Some(seg.tail))
      && (forall u <- r :: u != seg.head && ParentOf(at[u]) != Some(seg.anchor) ==> r[u] == at[u])
  {
    var p := WalkTo(at, Some(seg.tail), seg.head, {}).value;
    WalkMeaning(at, Some(seg.tail), seg.head, {});
    PathKept(at, seg, Some(seg.tail), {}, gone);
    RelinkParent(at, seg, seg.head);
  }

  lemma {:induction false} PathKept(at: Table, seg: Segment, x: Option<string>, seen: set<string>, gone: set<string>)
    requires Complete(seg) && WalkTo(at, x, seg.head, seen).Some?
    requires var p := WalkTo(at, x, seg.head, seen).value; (p - seen) !! gone && seg.anchor !in p
    ensures exists n: nat :: Up(Relink(at, seg) - gone, x, n) == Some(seg.head)
    decreases |at.Keys - seen|
  {
    var r := Relink(at, seg) - gone;
    WalkMeaning(at, x, seg.head, seen);
    if x.value == seg.head {
      assert Up(r, x, 0) == Some(seg.head);
    } else {
      Fewer(at.Keys, seen, x.value);
      var next := ParentOf(at[x.value]);
      WalkMeaning(at, next, seg.head, seen + {x.value});
      PathKept(at, seg, next, seen + {x.value}, gone);
      RelinkParent(at, seg, x.value);
      var n: nat :| Up(r, next, n) == Some(seg.head);
      assert x.value in r && ParentOf(r[x.value]) == next;
      assert Up(r, x, n + 1) == Some(seg.head);
    }
  }

  // ----- the whole pass

  /** A compaction boundary; with `withSegment`, one that names a preserved segment. */
  predicate IsBoundary(r: Record, withSegment: bool) { r.boundary && (withSegment ==> r.segment.Some?) }

  /** `r` is the greatest index below `k` with such a boundary, or -1 and there is none. */
  ghost predicate IsLast(order: seq<string>, at: Table, k: nat, withSegment: bool, r: int)
    requires k <= |order| && forall u <- order :: u in at
  {
    && -1 <= r < k
    && (r >= 0 ==> IsBoundary(at[order[r]], withSegment))
    && forall j :: r < j < k ==> !IsBoundary(at[order[j]], withSegment)
  }

  /** Index of the last boundary among the first `k` messages. */
  function LastBoundary(order: seq<string>, at: Table, k: nat, withSegment: bool): (r: int)
    requires k <= |order| && forall u <- order :: u in at
    ensures IsLast(order, at, k, withSegment, r)
  {
    if k == 0 then -1
    else if IsBoundary(at[order[k - 1]], withSegment) then k - 1
    else LastBoundary(order, at, k - 1, withSegment)
  }

  /** What the pass does: nothing, perhaps with a warning, or relink and drop. */
  datatype Plan = Untouched(warned: bool) | Cut(at: Table, gone: set<string>)

  function Before(order: seq<string>, k: nat): (r: set<string>)
    requires k <= |order|
    ensures forall u :: u in r <==> u in order[..k]
  {
    set u <- order[..k]
  }

  function PlanFor(order: seq<string>, at: Table): Plan
    requires forall u <- order :: u in at
  {
    var last := LastBoundary(order, at, |order|, false);
    var named := LastBoundary(order, at, |order|, true);
    if named < 0 then Untouched(false)
    else if named != last then
      LaterBoundary(order, at, |order|);
      Cut(at, Before(order, last))
    else
      var seg := at[order[named]].segment.value;
      if !Complete(seg) then Untouched(true)
      else
        match WalkTo(at, Some(seg.tail), seg.head, {})
        case None => Untouched(true)
        case Some(p) => Cut(Relink(at, seg), Before(order, last) - p)
  }

  lemma LaterBoundary(order: seq<string>, at: Table, k: nat)
    requires k <= |order| && forall u <- order :: u in at
    ensures LastBoundary(order, at, k, true) <= LastBoundary(order, at, k, false)
  {
    hide LastBoundary;
    var named := LastBoundary(order, at, k, true);
    assert named >= 0 ==> IsBoundary(at[order[named]], false);
  }

  lemma LastIs(order: seq<string>, at: Table, withSegment: bool, r: int)
    requires forall u <- order :: u in at
    requires IsLast(order, at, |order|, withSegment, r)
    ensures LastBoundary(order, at, |order|, withSegment) == r
  {
    hide LastBoundary;
  }

  /** A usable segment: its three uuids are there and its head is at or above its tail. */
  ghost predicate Usable(at: Table, seg: Segment) {
    && seg.head != [] && seg.anchor != [] && seg.tail != []
    && seg.head in at && exists n: nat :: Up(at, Some(seg.tail), n) == Some(seg.head)
  }

  lemma UsableIs(at: Table, seg: Segment)
    ensures Usable(at, seg) <==> Complete(seg) && WalkTo(at, Some(seg.tail), seg.head, {}).Some?
  {
    hide WalkTo, Up;
    var x := Some(seg.tail);
    WalkExactly(at, x, seg.head);
    if n: nat :| Up(at, x, n) == Some(seg.head) {
      assert Up(at, Some(seg.tail), n) == Some(seg.head);
    }
  }

  /** The plan, by the last boundary and the last one with a segment: nothing without a
      segment; a cut before the last boundary when that has none; a warning when its
      segment is not usable; and otherwise relinking, and a cut that spares the messages
      from the tail to the head. */
  lemma PlanExactly(order: seq<string>, at: Table, last: int, named: int)
    requires Lists(order, at)
    requires IsLast(order, at, |order|, false, last) && IsLast(order, at, |order|, true, named)
    ensures named < 0 ==> PlanFor(order, at) == Untouched(false)
    ensures 0 <= named != last ==>
      PlanFor(order, at).Cut? && PlanFor(order, at).at == at && forall u :: u in PlanFor(order, at).gone <==> u in order[..last]
    ensures 0 <= named == last ==>
      var seg := at[order[last]].segment.value;
      && (PlanFor(order, at) == Untouched(true) <==> !Usable(at, seg))
      && (Usable(at, seg) ==>
            && PlanFor(order, at).Cut? && Relinked(at, PlanFor(order, at).at, seg)
            && forall n: nat :: FirstAt(at, Some(seg.tail), seg.head, n) ==>
                 forall u :: u in PlanFor(order, at).gone <==> u in order[..last] && !OnWay(at, Some(seg.tail), n, u))
  {
    hide LastBoundary, WalkTo, Relinked, Relink, FirstAt, OnWay, Usable;
    LastIs(order, at, false, last);
    LastIs(order, at, true, named);
    if 0 <= named == last {
      var seg := at[order[last]].segment.value;
      UsableIs(at, seg);
      if Complete(seg) {
        RelinkIs(at, seg);
        WalkExactly(at, Some(seg.tail), seg.head);
      }
    }
  }

  method FindBoundaries(m: Messages) returns (last: int, named: int)
    requires m.Valid()
    ensures last == LastBoundary(m.order, m.at, |m.order|, false)
    ensures named == LastBoundary(m.order, m.at, |m.order|, true)
    ensures IsLast(m.order, m.at, |m.order|, false, last) && IsLast(m.order, m.at, |m.order|, true, named)
  {
    last, named := -1, -1;
    for k := 0 to |m.order|
      invariant last == LastBoundary(m.order, m.at, k, false)
      invariant named == LastBoundary(m.order, m.at, k, true)
    {
      var r := m.at[m.order[k]];
      if r.boundary {
        last := k;
        if r.segment.Some? {
          named := k;
        }
      }
    }
  }

  /** The head and the first `k` messages are relinked, the others untouched. */
  ghost predicate RelinkedUpTo(order: seq<string>, k: nat, was: Table, now: Table, seg: Segment) {
    forall j :: 0 <= j < |order| ==>
      order[j] in was && order[j] in now
      && now[order[j]] == if j < k || order[j] == seg.head then RelinkOne(was[order[j]], order[j], seg) else was[order[j]]
  }

  lemma RelinkedHead(order: seq<string>, was: Table, seg: Segment)
    requires Lists(order, was) && seg.head in was
    ensures RelinkedUpTo(order, 0, was, was[seg.head := SetParent(was[seg.head], Some(seg.anchor))], seg)
  {
    hide SetParent;
  }

  lemma RelinkedFurther(order: seq<string>, k: nat, was: Table, now: Table, seg: Segment)
    requires k < |order| && Distinct(order) && RelinkedUpTo(order, k, was, now, seg)
    ensures order[k] in was && order[k] in now
    ensures RelinkedUpTo(order, k + 1, was, now[order[k] := RelinkOne(was[order[k]], order[k], seg)], seg)
    ensures now[order[k]] == if order[k] == seg.head then RelinkOne(was[order[k]], order[k], seg) else was[order[k]]
  {
    hide RelinkOne;
    assert forall j :: 0 <= j < |order| && j != k ==> order[j] != order[k];
  }

  lemma RelinkedAll(order: seq<string>, was: Table, now: Table, seg: Segment)
    requires Lists(order, was) && Lists(order, now) && RelinkedUpTo(order, |order|, was, now, seg)
    ensures now == Relink(was, seg)
  {
    hide RelinkOne;
    forall u | u in was ensures u in now && now[u] == RelinkOne(was[u], u, seg) {
      var k :| 0 <= k < |order| && order[k] == u;
    }
    assert now.Keys == was.Keys;
  }

  method RelinkInPlace(m: Messages, seg: Segment)
    requires m.Valid() && Complete(seg) && seg.head in m.at
    modifies m`at
    ensures m.Valid() && m.at == Relink(old(m.at), seg)
  {
    hide RelinkedUpTo, SetParent, ParentOf;
    ghost var was := m.at;
    RelinkedHead(m.order, was, seg);
    m.Reparent(seg.head, Some(seg.anchor));
    for k := 0 to |m.order|
      invariant m.Valid() && RelinkedUpTo(m.order, k, was, m.at, seg)
    {
      var u := m.order[k];
      RelinkedFurther(m.order, k, was, m.at, seg);
      assert m.at[u := m.at[u]] == m.at;
      if u != seg.head && ParentOf(m.at[u]) == Some(seg.anchor) {
        m.Reparent(u, Some(seg.tail));
      }
    }
    RelinkedAll(m.order, was, m.at, seg);
  }

  method ApplyPreservedSegment(m: Messages) returns (warned: bool)
    requires m.Valid()
    modifies m
    ensures m.Valid()
    ensures match PlanFor(old(m.order), old(m.at))
            case Untouched(w) => warned == w && m.order == old(m.order) && m.at == old(m.at)
            case Cut(t, gone) => !warned && m.order == Without(old(m.order), gone) && m.at == t - gone
  {
    hide LastBoundary, WalkTo, Relink, Without, Complete;
    var last, named := FindBoundaries(m);
    warned := false;
    if named < 0 {
      return;
    }
    LaterBoundary(m.order, m.at, |m.order|);
    if named != last {
      m.Pop(Before(m.order, last));
      return;
    }
    var seg := m.at[m.order[named]].segment.value;
    if !Complete(seg) {
      return true;
    }
    var walked := WalkPreserved(m, seg.tail, seg.head);
    if walked.None? {
      return true;
    }
    HeadKept(m.at, seg);
    RelinkInPlace(m, seg);
    m.Pop(Before(m.order, last) - walked.value);
  }

  lemma HeadKept(at: Table, seg: Segment)
    requires WalkTo(at, Some(seg.tail), seg.head, {}).Some?
    ensures seg.head in at
  {
    WalkMeaning(at, Some(seg.tail), seg.head, {});
  }

  /** The path of `seg` is in place in `r`: head below the anchor, tail above
      the head's descendants. */
  ghost predicate SegmentInPlace(r: Table, seg: Segment) {
    && seg.head in r && ParentOf(r[seg.head]) == Some(seg.anchor)
    && exists n: nat :: Up(r, Some(seg.tail), n) == Some(seg.head)
  }

  /** A live segment drops only unpreserved messages before the boundary and leaves
      an acyclic transcript exactly when its anchor is not tangled among those that
      are left; then the preserved path leads from tail to head, and the head hangs
      below the anchor. The segment is the one of the last boundary of all. */
  lemma PreservedSegmentApplied(order: seq<string>, at: Table, t: Table, gone: set<string>)
    returns (seg: Segment, p: set<string>, last: nat)
    requires Lists(order, at) && Acyclic(at) && PlanFor(order, at) == Cut(t, gone)
    requires LastBoundary(order, at, |order|, true) == LastBoundary(order, at, |order|, false) >= 0
    ensures last < |order| && at[order[last]].boundary && at[order[last]].segment == Some(seg)
    ensures forall j :: last < j < |order| ==> !at[order[j]].boundary
    ensures Complete(seg) && WalkTo(at, Some(seg.tail), seg.head, {}) == Some(p)
    ensures t == Relink(at, seg) && forall u :: u in gone <==> u in order[..last] && u !in p
    ensures Acyclic(t - gone) <==> !AnchorTangled(at - gone, seg, p)
    ensures !AnchorTangled(at - gone, seg, p) ==> SegmentInPlace(t - gone, seg)
  {
    hide LastBoundary, WalkTo, Acyclic, AnchorTangled, Relink, Before, ParentOf;
    last := LastBoundary(order, at, |order|, false);
    seg := at[order[last]].segment.value;
    p := WalkTo(at, Some(seg.tail), seg.head, {}).value;
    CutAcyclic(at, seg, gone);
    if !AnchorTangled(at - gone, seg, p) {
      AnchorNotPreserved(at - gone, seg, p);
      RelinkShape(at, seg, gone);
    }
  }

  lemma AnchorNotPreserved(at: Table, seg: Segment, p: set<string>)
    requires !AnchorTangled(at, seg, p)
    ensures seg.anchor !in p
  {
    assert Up(at, Some(seg.anchor), 0) == Some(seg.anchor);
  }
}
