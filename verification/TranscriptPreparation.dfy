/** Both repairs of a transcript in a row: relink the preserved segment, then
    splice out the snipped messages. */
module TranscriptPreparation {
  import opened Wrappers
  import opened ClaudeRecords
  import opened ParentChains
  import opened PreservedSegment
  import opened SnipRemoval

  /** The last boundary preserves a segment whose anchor is tangled in it among
      the messages that the cut leaves. */
  ghost predicate Tangled(order: seq<string>, at: Table)
    requires Lists(order, at)
  {
    var last := LastBoundary(order, at, |order|, false);
    last >= 0 && last == LastBoundary(order, at, |order|, true)
    && var seg := at[order[last]].segment.value;
       Complete(seg) && WalkTo(at, Some(seg.tail), seg.head, {}).Some?
       && var p := WalkTo(at, Some(seg.tail), seg.head, {}).value;
          AnchorTangled(at - (Before(order, last) - p), seg, p)
  }

  /** No message is its own ancestor, and none hangs below one of `removed`. */
  ghost predicate Prepared(at: Table, removed: set<string>) {
    Acyclic(at) && forall u <- at :: u !in removed && Settled(removed, ParentOf(at[u]))
  }

  /** The first repair leaves an acyclic transcript acyclic exactly when its segment
      is not tangled. */
  lemma PreservingAcyclic(order: seq<string>, at: Table)
    requires Lists(order, at) && Acyclic(at)
    ensures match PlanFor(order, at)
            case Untouched(_) => !Tangled(order, at)
            case Cut(t, gone) => Acyclic(t - gone) <==> !Tangled(order, at)
  {
    hide LastBoundary, WalkTo, Acyclic, AnchorTangled, Relink, Before, Complete;
    match PlanFor(order, at) {
      case Untouched(_) =>
      case Cut(t, gone) =>
        var last, named := LastBoundary(order, at, |order|, false), LastBoundary(order, at, |order|, true);
        if named == last {
          CutAcyclic(at, at[order[named]].segment.value, gone);
        } else {
          DropAcyclic(t, gone);
        }
    }
  }

  lemma {:induction false} EndsMore(at: Table, x: Option<string>, m: nat, n: nat)
    requires m <= n && Ends(at, x, m)
    ensures Ends(at, x, n)
    decreases m
  {
    if x.Some? && x.value in at {
      EndsMore(at, ParentOf(at[x.value]), m - 1, n - 1);
    }
  }

  /** On a chain that ends, the walk through removed messages ends no later. */
  lemma {:induction false} StepsEnd(at: Table, removed: set<string>, x: Option<string>, n: nat)
    requires Ends(at, x, n)
    ensures var y := Steps(DeletedParents(at, removed), removed, x, n + 1); Settled(removed, y) && Ends(at, y, n)
    decreases n
  {
    var d := DeletedParents(at, removed);
    if !Settled(removed, x) {
      var next := Next(d, x.value);
      if x.value in at {
        StepsEnd(at, removed, next, n - 1);
        EndsMore(at, Steps(d, removed, next, n), n - 1, n);
      } else {
        assert next.None?;
      }
    }
  }

  ghost predicate AllSpliced(at: Table, removed: set<string>, now: Table) {
    now.Keys == at.Keys - removed
    && forall u <- now :: Spliced(DeletedParents(at, removed), removed, at[u], now[u])
  }

  /** A survivor's new parent, and how far the old chain goes on from there. */
  lemma SplicedParent(at: Table, removed: set<string>, now: Table, u: string, n: nat)
    requires AllSpliced(at, removed, now) && u in now && Ends(at, ParentOf(at[u]), n)
    ensures Settled(removed, ParentOf(now[u])) && Ends(at, ParentOf(now[u]), n)
  {
    hide Spliced, Escapes, ParentOf, Ends;
    var d, p := DeletedParents(at, removed), ParentOf(at[u]);
    StepsEnd(at, removed, p, n);
    NearestIs(d, removed, p, n + 1);
    SplicedToNearest(at, removed, at[u], now[u]);
  }

  lemma {:induction false} SplicedEnds(at: Table, removed: set<string>, now: Table, x: Option<string>, n: nat)
    requires AllSpliced(at, removed, now) && Settled(removed, x) && Ends(at, x, n)
    ensures Ends(now, x, n)
    decreases n
  {
    hide Spliced, DeletedParents;
    if x.Some? && x.value in now {
      SplicedParent(at, removed, now, x.value, n - 1);
      SplicedEnds(at, removed, now, ParentOf(now[x.value]), n - 1);
    }
  }

  /** A chain that leads on from where the walk through removed messages gets to is
      finite as a whole. */
  lemma {:induction false} StepsFinite(at: Table, removed: set<string>, x: Option<string>, n: nat)
    requires Finite(at, Steps(DeletedParents(at, removed), removed, x, n))
    ensures Finite(at, x)
    decreases n
  {
    hide Finite;
    if n > 0 && !Settled(removed, x) {
      var next := Next(DeletedParents(at, removed), x.value);
      StepsFinite(at, removed, next, n - 1);
      if x.value in at {
        assert next == ParentOf(at[x.value]);
        FiniteStep(at, x.value);
      } else {
        FiniteOutside(at, x);
      }
    }
  }

  /** Where no survivor hangs below a removed message, a chain that ends after the
      splicing ended before it. */
  lemma {:induction false} EndedBefore(at: Table, removed: set<string>, now: Table, x: Option<string>, n: nat)
    requires AllSpliced(at, removed, now) && Settled(removed, x) && Ends(now, x, n)
    requires forall u <- now :: Settled(removed, ParentOf(now[u]))
    ensures Finite(at, x)
    decreases n
  {
    hide Spliced, DeletedParents, Finite, Escapes;
    if x.None? || x.value !in now {
      FiniteOutside(at, x);
    } else {
      var u := x.value;
      EndedBefore(at, removed, now, ParentOf(now[u]), n - 1);
      SplicedToRemoved(at, removed, at[u], now[u]);
      SplicedToNearest(at, removed, at[u], now[u]);
      NearestFinite(at, removed, ParentOf(at[u]));
      FiniteStep(at, u);
    }
  }

  lemma NearestFinite(at: Table, removed: set<string>, x: Option<string>)
    requires Escapes(DeletedParents(at, removed), removed, x)
    ensures Finite(at, Nearest(DeletedParents(at, removed), removed, x)) ==> Finite(at, x)
  {
    hide Finite, DeletedParents;
    var d := DeletedParents(at, removed);
    var n: nat :| Settled(removed, Steps(d, removed, x, n));
    NearestIs(d, removed, x, n);
    if Finite(at, Nearest(d, removed, x)) {
      StepsFinite(at, removed, x, n);
    }
  }

  /** Splicing leaves the survivors acyclic, with none below a removed message, exactly
      when the chain of every survivor ended; so always in an acyclic transcript. */
  lemma SplicingPrepares(at: Table, removed: set<string>, now: Table)
    requires AllSpliced(at, removed, now)
    ensures Prepared(now, removed) <==> forall u <- now :: Finite(at, Some(u))
    ensures Acyclic(at) ==> Prepared(now, removed)
  {
    hide Spliced, DeletedParents;
    if forall u <- now :: Finite(at, Some(u)) {
      forall u | u in now ensures Finite(now, Some(u)) && Settled(removed, ParentOf(now[u])) {
        var n: nat :| Ends(at, Some(u), n);
        SplicedEnds(at, removed, now, Some(u), n);
        SplicedParent(at, removed, now, u, n - 1);
      }
    }
    if Prepared(now, removed) {
      forall u | u in now ensures Finite(at, Some(u)) {
        var n: nat :| Ends(now, Some(u), n);
        EndedBefore(at, removed, now, Some(u), n);
      }
    }
  }

  lemma SplicedOrder(order: seq<string>, at: Table, removed: set<string>, now: Table)
    requires Lists(order, now) && now.Keys == at.Keys - removed
    requires SplicedUpTo(order, |order|, DeletedParents(at, removed), removed, at, now)
    ensures AllSpliced(at, removed, now)
  {
    hide Spliced, DeletedParents;
    forall u | u in now ensures Spliced(DeletedParents(at, removed), removed, at[u], now[u]) {
      var k :| 0 <= k < |order| && order[k] == u;
    }
  }

  lemma SurvivorKeys(was: seq<string>, at: Table, order: seq<string>, removed: set<string>, now: Table)
    requires Lists(was, at) && Lists(order, now) && order == Without(was, removed)
    ensures now.Keys == at.Keys - removed
  {
    forall u ensures u in now.Keys <==> u in at.Keys - removed {
      assert u in order <==> u in was && u !in removed;
    }
  }

  /** The messages between the two repairs. */
  function Preserved(order: seq<string>, at: Table): (r: (seq<string>, Table))
    requires Lists(order, at)
    ensures forall u <- r.0 :: u in r.1
  {
    match PlanFor(order, at)
    case Untouched(_) => (order, at)
    case Cut(t, gone) =>
      CutKeys(order, at);
      (Without(order, gone), t - gone)
  }

  lemma CutKeys(order: seq<string>, at: Table)
    requires Lists(order, at) && PlanFor(order, at).Cut?
    ensures PlanFor(order, at).at.Keys == at.Keys
  {
  }

  /** Repairs the messages in place: relinked and cut, then spliced. The result is
      acyclic with no message below a removed one exactly when the chains of the
      survivors end between the two repairs; and from an acyclic transcript the
      first repair leaves an acyclic one exactly when its segment is not tangled. */
  method PrepareMessages(m: Messages) returns (warned: bool)
    requires m.Valid()
    modifies m
    ensures m.Valid() && (warned <==> PlanFor(old(m.order), old(m.at)) == Untouched(true))
    ensures var mid := Preserved(old(m.order), old(m.at));
            var removed := AllRemoved(mid.0, mid.1);
            && m.order == Without(mid.0, removed) && AllSpliced(mid.1, removed, m.at)
            && (Prepared(m.at, removed) <==> forall u <- m.at :: Finite(mid.1, Some(u)))
            && (Acyclic(old(m.at)) ==> (Acyclic(mid.1) <==> !Tangled(old(m.order), old(m.at))))
            && (Acyclic(old(m.at)) && !Tangled(old(m.order), old(m.at)) ==> Prepared(m.at, removed))
  {
    hide PlanFor, Tangled, Acyclic, Finite, SplicedUpTo, Spliced, DeletedParents, AllRemoved, Without, Prepared;
    ghost var order0, at0 := m.order, m.at;
    warned := ApplyPreservedSegment(m);
    ghost var order1, at1 := m.order, m.at;
    assert (order1, at1) == Preserved(order0, at0);
    ghost var removed := AllRemoved(order1, at1);
    ApplySnipRemovals(m);
    SurvivorKeys(order1, at1, m.order, removed, m.at);
    SplicedOrder(m.order, at1, removed, m.at);
    SplicingPrepares(at1, removed, m.at);
    if Acyclic(at0) {
      PreservingAcyclic(order0, at0);
    }
  }
}
