/** Chains of parents in a table that may hold cycles. */
module ParentChains {
  import opened Wrappers
  import opened ClaudeRecords

  /** The chain from `x` leaves the table within `n` steps. */
  predicate Ends(at: Table, x: Option<string>, n: nat)
    decreases n
  {
    x.None? || x.value !in at || (n > 0 && Ends(at, ParentOf(at[x.value]), n - 1))
  }

  ghost predicate Finite(at: Table, x: Option<string>) {
    exists n: nat :: Ends(at, x, n)
  }

  ghost predicate Acyclic(at: Table) {
    forall u <- at :: Finite(at, Some(u))
  }

  /** The uuid `n` steps above `x`, while the chain is in the table. */
  function Up(at: Table, x: Option<string>, n: nat): Option<string>
    decreases n
  {
    if n == 0 then x
    else if x.None? || x.value !in at then None
    else Up(at, ParentOf(at[x.value]), n - 1)
  }

  lemma {:induction false} UpAdd(at: Table, x: Option<string>, m: nat, n: nat)
    ensures Up(at, x, m + n) == Up(at, Up(at, x, m), n)
    decreases m
  {
    if m > 0 && x.Some? && x.value in at {
      UpAdd(at, ParentOf(at[x.value]), m - 1, n);
    } else if m > 0 {
      UpNone(at, n);
    }
  }

  lemma UpNone(at: Table, n: nat)
    ensures Up(at, None, n) == None
  {
  }

  lemma UpOne(at: Table, u: string)
    requires u in at
    ensures Up(at, Some(u), 1) == ParentOf(at[u])
  {
    assert Up(at, ParentOf(at[u]), 0) == ParentOf(at[u]);
  }

  /** Everything below a reached uuid is in the table. */
  lemma {:induction false} UpInTable(at: Table, x: Option<string>, n: nat)
    requires Up(at, x, n).Some?
    ensures n > 0 ==> x.Some? && x.value in at
    ensures n == 0 && Up(at, x, n).value in at ==> x.value in at
    ensures forall i: nat :: i < n ==> Up(at, x, i).Some? && Up(at, x, i).value in at
    decreases n
  {
    if n > 0 {
      UpInTable(at, ParentOf(at[x.value]), n - 1);
      forall i: nat | i < n ensures Up(at, x, i).Some? && Up(at, x, i).value in at {
        if i > 0 {
          assert Up(at, x, i) == Up(at, ParentOf(at[x.value]), i - 1);
        }
      }
    }
  }

  /** `u` is among the first `n` messages above `x`, or `x` itself. */
  ghost predicate OnWay(at: Table, x: Option<string>, n: nat, u: string) {
    exists i: nat :: i <= n && Up(at, x, i) == Some(u)
  }

  lemma OnWayStep(at: Table, x: string, n: nat, u: string)
    requires x in at
    ensures OnWay(at, Some(x), 0, u) <==> u == x
    ensures n > 0 ==> (OnWay(at, Some(x), n, u) <==> u == x || OnWay(at, ParentOf(at[x]), n - 1, u))
  {
    forall i: nat ensures Up(at, Some(x), i + 1) == Up(at, ParentOf(at[x]), i) {
    }
    assert Up(at, Some(x), 0) == Some(x);
    if i: nat :| i <= n && Up(at, Some(x), i) == Some(u) {
      assert i > 0 ==> Up(at, ParentOf(at[x]), i - 1) == Some(u);
    }
    if n > 0 {
      if i: nat :| i <= n - 1 && Up(at, ParentOf(at[x]), i) == Some(u) {
        assert Up(at, Some(x), i + 1) == Some(u);
      }
    }
  }

  lemma FiniteStep(at: Table, u: string)
    requires u in at
    ensures Finite(at, Some(u)) <==> Finite(at, ParentOf(at[u]))
  {
    if n: nat :| Ends(at, ParentOf(at[u]), n) {
      assert Ends(at, Some(u), n + 1);
    }
    if n: nat :| Ends(at, Some(u), n) {
      assert Ends(at, ParentOf(at[u]), n - 1);
    }
  }

  lemma FiniteOutside(at: Table, x: Option<string>)
    requires x.None? || x.value !in at
    ensures Finite(at, x)
  {
    assert Ends(at, x, 0);
  }

  /** A non-empty set of messages closed under parents keeps chains from
      ending. */
  ghost predicate Closed(at: Table, s: set<string>) {
    forall u <- s :: u in at && ParentOf(at[u]).Some? && ParentOf(at[u]).value in s
  }

  lemma {:induction false} ClosedNeverEnds(at: Table, s: set<string>, u: string, n: nat)
    requires Closed(at, s) && u in s
    ensures !Ends(at, Some(u), n)
    decreases n
  {
    if n > 0 {
      ClosedNeverEnds(at, s, ParentOf(at[u]).value, n - 1);
    }
  }

  lemma ClosedIsCyclic(at: Table, s: set<string>, u: string)
    requires Closed(at, s) && u in s
    ensures !Acyclic(at)
  {
    forall n: nat ensures !Ends(at, Some(u), n) {
      ClosedNeverEnds(at, s, u, n);
    }
    assert !Finite(at, Some(u));
  }

  lemma Fewer(all: set<string>, seen: set<string>, u: string)
    requires u in all && u !in seen
    ensures |all - (seen + {u})| < |all - seen|
  {
    assert all - (seen + {u}) == (all - seen) - {u};
  }
}
