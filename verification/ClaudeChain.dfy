/** Reading one conversation out of a transcript: the chain from a leaf up to
    its root. */
module ClaudeChain {
  import opened Wrappers
  import opened ClaudeRecords
  import opened ParentChains

  // ----- climbing from the leaf

  /** The chain from `x` up, as far as it is in the table and repeats nothing. */
  function Climb(at: Table, x: Option<string>, seen: set<string>): seq<string>
    decreases |at.Keys - seen|
  {
    if x.None? || x.value !in at || x.value in seen then []
    else
      Fewer(at.Keys, seen, x.value);
      [x.value] + Climb(at, ParentOf(at[x.value]), seen + {x.value})
  }

  function Reverse(s: seq<string>): (r: seq<string>)
    ensures |r| == |s| && forall k :: 0 <= k < |s| ==> r[k] == s[|s| - 1 - k]
  {
    if s == [] then [] else Reverse(s[1..]) + [s[0]]
  }

  /** Where the climb stops: at a root, at a missing parent, or at a repeat. */
  function ClimbEnd(at: Table, x: Option<string>, seen: set<string>): Option<string>
    decreases |at.Keys - seen|
  {
    if x.None? || x.value !in at || x.value in seen then x
    else
      Fewer(at.Keys, seen, x.value);
      ClimbEnd(at, ParentOf(at[x.value]), seen + {x.value})
  }

  ghost predicate Linked(at: Table, c: seq<string>) {
    (forall u <- c :: u in at) && forall k :: 0 <= k < |c| - 1 ==> ParentOf(at[c[k]]) == Some(c[k + 1])
  }

  /** `c` is a duplicate-free parent path from `x` that avoids `seen` and stops
      below `end`. */
  ghost predicate IsClimb(at: Table, x: Option<string>, seen: set<string>, c: seq<string>, end: Option<string>) {
    && Distinct(c) && Linked(at, c)
    && (forall u <- c :: u !in seen)
    && (if c == [] then end == x else x == Some(c[0]) && ParentOf(at[c[|c| - 1]]) == end)
    && (end.None? || end.value !in at || end.value in seen || end.value in c)
  }

  lemma IsClimbCons(at: Table, u: string, seen: set<string>, rest: seq<string>, end: Option<string>)
    requires u in at && u !in seen && IsClimb(at, ParentOf(at[u]), seen + {u}, rest, end)
    ensures IsClimb(at, Some(u), seen, [u] + rest, end)
  {
    hide ParentOf;
    var c := [u] + rest;
    assert forall k :: 1 <= k < |c| ==> c[k] == rest[k - 1] && rest[k - 1] in rest;
    assert Linked(at, c) by {
      forall k | 0 <= k < |c| - 1 ensures ParentOf(at[c[k]]) == Some(c[k + 1]) {
        if k > 0 {
          assert ParentOf(at[rest[k - 1]]) == Some(rest[k - 1 + 1]);
        }
      }
    }
  }

  /** The climb is a duplicate-free parent path. */
  lemma {:induction false} ClimbMeaning(at: Table, x: Option<string>, seen: set<string>)
    ensures IsClimb(at, x, seen, Climb(at, x, seen), ClimbEnd(at, x, seen))
    decreases |at.Keys - seen|
  {
    hide IsClimb, ParentOf;
    if x.Some? && x.value in at && x.value !in seen {
      Fewer(at.Keys, seen, x.value);
      var next := ParentOf(at[x.value]);
      ClimbMeaning(at, next, seen + {x.value});
      IsClimbCons(at, x.value, seen, Climb(at, next, seen + {x.value}), ClimbEnd(at, x, seen));
    } else {
      NoClimb(at, x, seen);
    }
  }

  lemma NoClimb(at: Table, x: Option<string>, seen: set<string>)
    requires x.None? || x.value !in at || x.value in seen
    ensures IsClimb(at, x, seen, [], x)
  {
  }

  lemma {:induction false} ClimbFinite(at: Table, x: Option<string>, seen: set<string>)
    requires var end := ClimbEnd(at, x, seen); end.None? || end.value !in at
    ensures Finite(at, x)
    decreases |at.Keys - seen|
  {
    if x.None? || x.value !in at || x.value in seen {
      FiniteOutside(at, x);
    } else {
      Fewer(at.Keys, seen, x.value);
      ClimbFinite(at, ParentOf(at[x.value]), seen + {x.value});
      FiniteStep(at, x.value);
    }
  }

  /** The climb meets a repeat exactly when the chain never ends. */
  lemma ClimbCyclic(at: Table, x: Option<string>)
    ensures var end := ClimbEnd(at, x, {}); end.Some? && end.value in at <==> !Finite(at, x)
  {
    var c, end := Climb(at, x, {}), ClimbEnd(at, x, {});
    ClimbMeaning(at, x, {});
    if end.Some? && end.value in at {
      var s := set u <- c;
      forall u | u in s ensures u in at && ParentOf(at[u]).Some? && ParentOf(at[u]).value in s {
        var k :| 0 <= k < |c| && c[k] == u;
        assert k + 1 < |c| ==> ParentOf(at[c[k]]) == Some(c[k + 1]) && c[k + 1] in s;
      }
      assert Closed(at, s) && x.value in s;
      forall n: nat ensures !Ends(at, x, n) {
        ClosedNeverEnds(at, s, x.value, n);
      }
    } else {
      ClimbFinite(at, x, {});
    }
  }

  lemma ClimbStep(at: Table, x: Option<string>, seen: set<string>, climbed: seq<string>)
    ensures x.None? || x.value !in at || x.value in seen ==> Climb(at, x, seen) == [] && ClimbEnd(at, x, seen) == x
    ensures x.Some? && x.value in at && x.value !in seen ==>
      var next, more := ParentOf(at[x.value]), seen + {x.value};
      && climbed + Climb(at, x, seen) == (climbed + [x.value]) + Climb(at, next, more)
      && ClimbEnd(at, x, seen) == ClimbEnd(at, next, more)
      && |at.Keys - more| < |at.Keys - seen|
  {
    if x.Some? && x.value in at && x.value !in seen {
      Fewer(at.Keys, seen, x.value);
      var rest := Climb(at, ParentOf(at[x.value]), seen + {x.value});
      assert climbed + ([x.value] + rest) == (climbed + [x.value]) + rest;
    }
  }

  method WalkChain(at: Table, leaf: string) returns (chain: seq<string>, seen: set<string>, cyclic: bool)
    requires leaf in at
    ensures chain == Reverse(Climb(at, Some(leaf), {}))
    ensures forall u :: u in seen <==> u in chain
    ensures cyclic <==> !Finite(at, Some(leaf))
  {
    hide Finite, Climb, ClimbEnd, ParentOf, Reverse;
    var climbed: seq<string> := [];
    var current := Some(leaf);
    seen := {};
    cyclic := false;
    while current.Some? && current.value in at
      invariant forall u :: u in seen <==> u in climbed
      invariant climbed + Climb(at, current, seen) == Climb(at, Some(leaf), {})
      invariant ClimbEnd(at, Some(leaf), {}) == ClimbEnd(at, current, seen)
      decreases |at.Keys - seen|
    {
      var u := current.value;
      ClimbStep(at, current, seen, climbed);
      if u in seen {
        cyclic := true;
        break;
      }
      seen := seen + {u};
      climbed := climbed + [u];
      current := ParentOf(at[u]);
    }
    ClimbStep(at, current, seen, climbed);
    assert climbed + [] == climbed;
    ClimbCyclic(at, Some(leaf));
    chain := Reverse(climbed);
    ReverseMembers(climbed);
  }

  lemma ReverseMembers(s: seq<string>)
    ensures forall u :: u in Reverse(s) <==> u in s
    ensures Distinct(s) ==> Distinct(Reverse(s))
  {
    hide Reverse;
    forall u | u in s ensures u in Reverse(s) {
      var k :| 0 <= k < |s| && s[k] == u;
      assert Reverse(s)[|s| - 1 - k] == u;
    }
  }

  /** A chain in which each message is the parent of the next. */
  ghost predicate IsChain(at: Table, chain: seq<string>) {
    && Distinct(chain)
    && (forall u <- chain :: u in at)
    && (forall k :: 0 < k < |chain| ==> ParentOf(at[chain[k]]) == Some(chain[k - 1]))
  }

  lemma ReversedPath(at: Table, c: seq<string>)
    requires Distinct(c) && Linked(at, c)
    ensures IsChain(at, Reverse(c))
  {
    hide ParentOf, Reverse;
    ReverseMembers(c);
    var chain := Reverse(c);
    forall k | 0 < k < |chain| ensures ParentOf(at[chain[k]]) == Some(chain[k - 1]) {
      assert chain[k] == c[|c| - 1 - k] && chain[k - 1] == c[|c| - 1 - k + 1];
    }
  }

  /** On any table, cyclic or not, the chain is a duplicate-free parent path
      that ends at the leaf and starts where no unvisited parent is left. */
  lemma ChainMeaning(at: Table, leaf: string)
    requires leaf in at
    ensures var chain := Reverse(Climb(at, Some(leaf), {}));
      && IsChain(at, chain) && chain != [] && chain[|chain| - 1] == leaf
      && (var top := ParentOf(at[chain[0]]); top.None? || top.value !in at || top.value in chain)
  {
    hide Climb, ClimbEnd, ParentOf, Reverse;
    var c := Climb(at, Some(leaf), {});
    ClimbMeaning(at, Some(leaf), {});
    ClimbStep(at, Some(leaf), {}, []);
    ReversedPath(at, c);
    ReverseMembers(c);
  }
}
