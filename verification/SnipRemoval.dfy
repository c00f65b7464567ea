/** Splicing snipped messages out of a transcript: every survivor is attached
    to its nearest surviving ancestor, found with path compression. */
module SnipRemoval {
  import opened Wrappers
  import opened ClaudeRecords
  import opened ParentChains

  /** Parent of each deleted message; `None` also for one without a record. */
  type Parents = map<string, Option<string>>

  function Next(d: Parents, u: string): Option<string> {
    if u in d then d[u] else None
  }

  /** Parent fields never name the empty uuid. */
  ghost predicate Named(d: Parents) {
    forall u <- d :: NonEmpty(d[u]) == d[u]
  }

  // ----- the plain walk

  predicate Settled(removed: set<string>, x: Option<string>) {
    x.None? || x.value !in removed
  }

  /** At most `n` steps up through removed messages. */
  function Steps(d: Parents, removed: set<string>, x: Option<string>, n: nat): Option<string>
    decreases n
  {
    if n == 0 || Settled(removed, x) then x else Steps(d, removed, Next(d, x.value), n - 1)
  }

  /** The walk from `x` leaves the removed messages. */
  ghost predicate Escapes(d: Parents, removed: set<string>, x: Option<string>) {
    exists n: nat :: Settled(removed, Steps(d, removed, x, n))
  }

  /** The nearest uuid on the chain from `x` that is not removed; none when the
      chain ends first. */
  ghost function Nearest(d: Parents, removed: set<string>, x: Option<string>): (r: Option<string>)
    requires Escapes(d, removed, x)
    ensures Settled(removed, r)
  {
    var n: nat :| Settled(removed, Steps(d, removed, x, n));
    Steps(d, removed, x, n)
  }

  lemma {:induction false} StepsSettle(d: Parents, removed: set<string>, x: Option<string>, m: nat, n: nat)
    requires m <= n && Settled(removed, Steps(d, removed, x, m))
    ensures Steps(d, removed, x, n) == Steps(d, removed, x, m)
    decreases m
  {
    if !Settled(removed, x) {
      StepsSettle(d, removed, Next(d, x.value), m - 1, n - 1);
    }
  }

  /** The walk has one outcome. */
  lemma NearestIs(d: Parents, removed: set<string>, x: Option<string>, n: nat)
    requires Settled(removed, Steps(d, removed, x, n))
    ensures Escapes(d, removed, x) && Nearest(d, removed, x) == Steps(d, removed, x, n)
  {
    var m: nat :| Settled(removed, Steps(d, removed, x, m)) && Nearest(d, removed, x) == Steps(d, removed, x, m);
    if m <= n {
      StepsSettle(d, removed, x, m, n);
    } else {
      StepsSettle(d, removed, x, n, m);
    }
  }

  /** One step up does not change where the walk leads. */
  lemma NearestStep(d: Parents, removed: set<string>, u: string)
    requires u in removed
    ensures Escapes(d, removed, Some(u)) <==> Escapes(d, removed, Next(d, u))
    ensures Escapes(d, removed, Some(u)) ==> Nearest(d, removed, Some(u)) == Nearest(d, removed, Next(d, u))
  {
    if n: nat :| Settled(removed, Steps(d, removed, Next(d, u), n)) {
      NearestIs(d, removed, Next(d, u), n);
      NearestIs(d, removed, Some(u), n + 1);
    }
    if n: nat :| Settled(removed, Steps(d, removed, Some(u), n)) {
      NearestIs(d, removed, Next(d, u), n - 1);
    }
  }

  /** No walk leaves a set of removed messages that is closed under parents. */
  ghost predicate Trapped(d: Parents, removed: set<string>, s: set<string>) {
    s <= removed && forall u <- s :: Next(d, u).Some? && Next(d, u).value in s
  }

  lemma {:induction false} TrappedSteps(d: Parents, removed: set<string>, s: set<string>, u: string, n: nat)
    requires Trapped(d, removed, s) && u in s
    ensures var r := Steps(d, removed, Some(u), n); r.Some? && r.value in s
    decreases n
  {
    if n > 0 {
      TrappedSteps(d, removed, s, Next(d, u).value, n - 1);
    }
  }

  lemma TrappedNeverEscapes(d: Parents, removed: set<string>, s: set<string>, u: string)
    requires Trapped(d, removed, s) && u in s
    ensures !Escapes(d, removed, Some(u))
  {
    forall n: nat ensures !Settled(removed, Steps(d, removed, Some(u), n)) {
      TrappedSteps(d, removed, s, u, n);
    }
  }

  /** The walk stays among the removed messages exactly when its start lies in a set
      of them that is closed under parents. */
  lemma EscapesExactly(d: Parents, removed: set<string>, x: Option<string>)
    ensures !Escapes(d, removed, x) <==> x.Some? && exists s :: Trapped(d, removed, s) && x.value in s
  {
    hide Escapes;
    if !Escapes(d, removed, x) {
      var s := set u | u in removed && !Escapes(d, removed, Some(u));
      forall u | u in s ensures Next(d, u).Some? && Next(d, u).value in s {
        NearestStep(d, removed, u);
        LeavesAtOnce(d, removed, Next(d, u));
      }
      LeavesAtOnce(d, removed, x);
      assert Trapped(d, removed, s);
    }
    if x.Some? {
      forall s | Trapped(d, removed, s) && x.value in s ensures !Escapes(d, removed, x) {
        TrappedNeverEscapes(d, removed, s, x.value);
      }
    }
  }

  lemma LeavesAtOnce(d: Parents, removed: set<string>, x: Option<string>)
    ensures Settled(removed, x) ==> Escapes(d, removed, x)
  {
    assert Steps(d, removed, x, 0) == x;
  }

  // ----- path compression

  function Compress(d: Parents, path: set<string>, target: Option<string>): Parents {
    map u | u in d.Keys + path :: if u in path then target else d[u]
  }

  /** Two parent maps lead every walk to the same place. */
  ghost predicate SameWalks(d: Parents, e: Parents, removed: set<string>) {
    forall x :: SameWalk(d, e, removed, x)
  }

  ghost predicate SameWalk(d: Parents, e: Parents, removed: set<string>, x: Option<string>) {
    && (Escapes(d, removed, x) <==> Escapes(e, removed, x))
    && (Escapes(d, removed, x) && Escapes(e, removed, x) ==> Nearest(d, removed, x) == Nearest(e, removed, x))
  }

  /** Walks agree below a set where they agree, if the maps agree elsewhere. */
  lemma {:induction false} WalkAgrees(d: Parents, e: Parents, removed: set<string>, path: set<string>, x: Option<string>, n: nat)
    requires forall u :: u !in path ==> Next(d, u) == Next(e, u)
    requires forall u <- path :: SameWalk(d, e, removed, Some(u))
    requires Settled(removed, Steps(d, removed, x, n))
    ensures SameWalk(d, e, removed, x) && Escapes(e, removed, x)
    decreases n
  {
    NearestIs(d, removed, x, n);
    if Settled(removed, x) {
      NearestIs(e, removed, x, 0);
      NearestIs(d, removed, x, 0);
    } else if x.value !in path {
      WalkAgrees(d, e, removed, path, Next(d, x.value), n - 1);
      NearestStep(d, removed, x.value);
      NearestStep(e, removed, x.value);
    }
  }

  lemma WalksAgree(d: Parents, e: Parents, removed: set<string>, path: set<string>)
    requires forall u :: u !in path ==> Next(d, u) == Next(e, u)
    requires forall u <- path :: SameWalk(d, e, removed, Some(u))
    ensures SameWalks(d, e, removed)
  {
    forall x ensures SameWalk(d, e, removed, x) {
      if n: nat :| Settled(removed, Steps(d, removed, x, n)) {
        WalkAgrees(d, e, removed, path, x, n);
      } else if n: nat :| Settled(removed, Steps(e, removed, x, n)) {
        forall u | u in path ensures SameWalk(e, d, removed, Some(u)) {
          assert SameWalk(d, e, removed, Some(u));
        }
        WalkAgrees(e, d, removed, path, x, n);
      }
    }
  }

  /** Pointing a path straight at where it leads changes no walk. */
  lemma CompressSettled(d: Parents, removed: set<string>, path: set<string>, target: Option<string>)
    requires path <= removed && Settled(removed, target)
    requires forall u <- path :: Escapes(d, removed, Some(u)) && Nearest(d, removed, Some(u)) == target
    ensures SameWalks(d, Compress(d, path, target), removed)
  {
    var e := Compress(d, path, target);
    forall u | u in path ensures SameWalk(d, e, removed, Some(u)) {
      assert Next(e, u) == target && Steps(e, removed, target, 0) == target;
      NearestIs(e, removed, target, 0);
      NearestStep(e, removed, u);
    }
    WalksAgree(d, e, removed, path);
  }

  /** Neither does pointing a cyclic path at one of its own. */
  lemma CompressTrapped(d: Parents, removed: set<string>, path: set<string>, target: string)
    requires Trapped(d, removed, path) && target in path
    ensures SameWalks(d, Compress(d, path, Some(target)), removed)
  {
    var e := Compress(d, path, Some(target));
    assert Trapped(e, removed, path);
    forall u | u in path ensures SameWalk(d, e, removed, Some(u)) {
      TrappedNeverEscapes(d, removed, path, u);
      TrappedNeverEscapes(e, removed, path, u);
    }
    WalksAgree(d, e, removed, path);
  }

  // ----- resolving one parent

  /** The path walked so far leads to `current`. */
  ghost predicate LeadsTo(d: Parents, removed: set<string>, path: seq<string>, current: Option<string>) {
    forall k :: 0 <= k < |path| ==> path[k] in removed && Next(d, path[k]) == After(path, current, k)
  }

  ghost function After(path: seq<string>, current: Option<string>, k: nat): Option<string> {
    if k + 1 < |path| then Some(path[k + 1]) else current
  }

  lemma LeadsOn(d: Parents, removed: set<string>, path: seq<string>, current: string)
    requires LeadsTo(d, removed, path, Some(current)) && current in removed
    ensures LeadsTo(d, removed, path + [current], Next(d, current))
  {
    var longer := path + [current];
    forall k | 0 <= k < |longer| ensures longer[k] in removed && Next(d, longer[k]) == After(longer, Next(d, current), k) {
      if k < |path| {
        assert path[k] in removed && Next(d, path[k]) == After(path, Some(current), k);
      }
    }
  }

  lemma {:induction false} PathWalk(d: Parents, removed: set<string>, path: seq<string>, current: Option<string>, k: nat)
    requires LeadsTo(d, removed, path, current) && k < |path|
    ensures SameEnd(d, removed, Some(path[k]), current)
    decreases |path| - k
  {
    assert path[k] in removed && Next(d, path[k]) == After(path, current, k);
    NearestStep(d, removed, path[k]);
    if k + 1 < |path| {
      PathWalk(d, removed, path, current, k + 1);
    }
  }

  ghost predicate SameEnd(d: Parents, removed: set<string>, x: Option<string>, y: Option<string>) {
    && (Escapes(d, removed, x) <==> Escapes(d, removed, y))
    && (Escapes(d, removed, x) && Escapes(d, removed, y) ==> Nearest(d, removed, x) == Nearest(d, removed, y))
  }

  /** Resolve `start`, compressing the walked path. The answer is the plain
      walk's when that escapes, and otherwise a removed message. */
  method Resolve(d: Parents, removed: set<string>, start: string) returns (r: Option<string>, e: Parents)
    requires start in removed && start != [] && Named(d)
    ensures SameWalks(d, e, removed) && Named(e) && NonEmpty(r) == r
    ensures Settled(removed, r) <==> Escapes(d, removed, Some(start))
    ensures Escapes(d, removed, Some(start)) ==> r == Nearest(d, removed, Some(start))
  {
    hide SameWalks, Escapes, LeadsTo;
    ghost var path: seq<string> := [];
    var current := Some(start);
    var seen: set<string> := {};
    NoPath(d, removed, current);
    while current.Some? && current.value in removed && current.value !in seen
      invariant (forall u :: u in seen <==> u in path) && seen <= removed
      invariant LeadsTo(d, removed, path, current) && NonEmpty(current) == current
      invariant if path == [] then current == Some(start) else path[0] == start
      decreases |removed - seen|
    {
      Fewer(removed, seen, current.value);
      LeadsOn(d, removed, path, current.value);
      seen := seen + {current.value};
      path := path + [current.value];
      current := Next(d, current.value);
    }
    e := Compress(d, seen, current);
    r := current;
    ResolveOutcome(d, removed, path, seen, current);
  }

  lemma NoPath(d: Parents, removed: set<string>, current: Option<string>)
    ensures LeadsTo(d, removed, [], current)
  {
  }

  lemma ResolveOutcome(d: Parents, removed: set<string>, path: seq<string>, seen: set<string>, current: Option<string>)
    requires path != [] && LeadsTo(d, removed, path, current) && (forall u :: u in seen <==> u in path) && seen <= removed
    requires Settled(removed, current) || current.value in seen
    ensures SameWalks(d, Compress(d, seen, current), removed)
    ensures Settled(removed, current) <==> Escapes(d, removed, Some(path[0]))
    ensures Escapes(d, removed, Some(path[0])) ==> current == Nearest(d, removed, Some(path[0]))
  {
    hide SameWalks, Compress, Escapes;
    if Settled(removed, current) {
      SettledHere(d, removed, current);
      forall u | u in seen ensures Escapes(d, removed, Some(u)) && Nearest(d, removed, Some(u)) == current {
        var k :| 0 <= k < |path| && path[k] == u;
        PathWalk(d, removed, path, current, k);
      }
      CompressSettled(d, removed, seen, current);
      assert path[0] in seen;
    } else {
      PathTrapped(d, removed, path, seen, current);
      CompressTrapped(d, removed, seen, current.value);
      TrappedNeverEscapes(d, removed, seen, path[0]);
    }
  }

  lemma SettledHere(d: Parents, removed: set<string>, x: Option<string>)
    requires Settled(removed, x)
    ensures Escapes(d, removed, x) && Nearest(d, removed, x) == x
  {
    assert Steps(d, removed, x, 0) == x;
    NearestIs(d, removed, x, 0);
  }

  lemma PathTrapped(d: Parents, removed: set<string>, path: seq<string>, seen: set<string>, current: Option<string>)
    requires LeadsTo(d, removed, path, current) && (forall u :: u in seen <==> u in path) && seen <= removed
    requires current.Some? && current.value in seen
    ensures Trapped(d, removed, seen)
  {
    forall u | u in seen ensures Next(d, u).Some? && Next(d, u).value in seen {
      var k :| 0 <= k < |path| && path[k] == u;
      assert Next(d, path[k]) == After(path, current, k);
    }
  }

  // ----- removing the snipped messages

  function AllRemoved(order: seq<string>, at: Table): set<string>
    requires forall u <- order :: u in at
  {
    if order == [] then {} else at[order[0]].removes + AllRemoved(order[1..], at)
  }

  /** A message is snipped exactly when some record names it. */
  lemma {:induction false} AllRemovedMeaning(order: seq<string>, at: Table, u: string)
    requires forall v <- order :: v in at
    ensures u in AllRemoved(order, at) <==> exists v <- order :: u in at[v].removes
  {
    if order != [] {
      AllRemovedMeaning(order[1..], at, u);
      assert order == [order[0]] + order[1..];
    }
  }

  function ParentsOf(at: Table): Parents {
    map u | u in at :: ParentOf(at[u])
  }

  /** The parents the removed messages had; one without a record has none. */
  function DeletedParents(at: Table, removed: set<string>): Parents {
    map u | u in at && u in removed :: ParentOf(at[u])
  }

  /** A survivor after the removal: it keeps a surviving parent; otherwise its
      new parent is the nearest surviving uuid on its chain, or, on a chain
      caught in a cycle of removed messages, one of those. */
  ghost predicate Spliced(d: Parents, removed: set<string>, was: Record, now: Record) {
    var p := ParentOf(was);
    if Settled(removed, p) then now == was
    else if Escapes(d, removed, p) then now == SetParent(was, Nearest(d, removed, p))
    else exists r :: !Settled(removed, r) && NonEmpty(r) == r && now == SetParent(was, r)
  }

  lemma SplicedSame(d: Parents, e: Parents, removed: set<string>, was: Record, r: Option<string>)
    requires SameWalks(d, e, removed) && !Settled(removed, ParentOf(was)) && NonEmpty(r) == r
    requires Settled(removed, r) <==> Escapes(e, removed, ParentOf(was))
    requires Escapes(e, removed, ParentOf(was)) ==> r == Nearest(e, removed, ParentOf(was))
    ensures Spliced(d, removed, was, SetParent(was, r))
  {
    assert SameWalk(d, e, removed, ParentOf(was));
  }

  lemma SameWalksTransitive(a: Parents, b: Parents, c: Parents, removed: set<string>)
    requires SameWalks(a, b, removed) && SameWalks(b, c, removed)
    ensures SameWalks(a, c, removed)
  {
    hide Escapes;
    forall x ensures SameWalk(a, c, removed, x) {
      assert SameWalk(a, b, removed, x) && SameWalk(b, c, removed, x);
    }
  }

  lemma SameWalksReflexive(a: Parents, removed: set<string>)
    ensures SameWalks(a, a, removed)
  {
  }

  method CollectRemoved(m: Messages) returns (removed: set<string>)
    requires m.Valid()
    ensures removed == AllRemoved(m.order, m.at)
  {
    removed := {};
    assert m.order[0..] == m.order;
    for k := 0 to |m.order|
      invariant removed + AllRemoved(m.order[k..], m.at) == AllRemoved(m.order, m.at)
    {
      assert m.order[k..][1..] == m.order[k + 1..];
      removed := removed + m.at[m.order[k]].removes;
    }
  }

  /** Reattach one survivor. */
  method SpliceOne(m: Messages, u: string, d: Parents, removed: set<string>, ghost d0: Parents) returns (e: Parents)
    requires m.Valid() && u in m.at && Named(d) && SameWalks(d0, d, removed)
    modifies m`at
    ensures m.Valid() && Named(e) && SameWalks(d0, e, removed)
    ensures m.at.Keys == old(m.at).Keys && m.at == old(m.at)[u := m.at[u]]
    ensures Spliced(d0, removed, old(m.at)[u], m.at[u])
  {
    hide Escapes, SameWalks, Spliced, Named;
    e := d;
    var parent := ParentOf(m.at[u]);
    if parent.Some? && parent.value in removed {
      var r;
      r, e := Resolve(d, removed, parent.value);
      SplicedSame(d0, d, removed, m.at[u], r);
      SameWalksTransitive(d0, d, e, removed);
      m.Reparent(u, r);
    } else {
      KeptSpliced(d0, removed, m.at[u]);
    }
  }

  /** The first `k` survivors are reattached, the others untouched. */
  ghost predicate SplicedUpTo(order: seq<string>, k: nat, d: Parents, removed: set<string>, was: Table, now: Table)
    requires k <= |order|
  {
    && (forall j :: 0 <= j < |order| ==> order[j] in was && order[j] in now)
    && (forall j :: 0 <= j < k ==> Spliced(d, removed, was[order[j]], now[order[j]]))
    && (forall j :: k <= j < |order| ==> now[order[j]] == was[order[j]])
  }

  lemma SplicedFurther(order: seq<string>, k: nat, d: Parents, removed: set<string>, was: Table, now: Table, next: Table)
    requires k < |order| && Distinct(order) && SplicedUpTo(order, k, d, removed, was, now)
    requires order[k] in next && next == now[order[k] := next[order[k]]]
    requires Spliced(d, removed, now[order[k]], next[order[k]])
    ensures SplicedUpTo(order, k + 1, d, removed, was, next)
  {
    hide Spliced;
    assert forall j :: 0 <= j < |order| && j != k ==> order[j] != order[k];
  }

  method ApplySnipRemovals(m: Messages)
    requires m.Valid()
    modifies m
    ensures m.Valid()
    ensures var removed := AllRemoved(old(m.order), old(m.at));
      && m.order == Without(old(m.order), removed)
      && SplicedUpTo(m.order, |m.order|, DeletedParents(old(m.at), removed), removed, old(m.at), m.at)
  {
    hide Escapes, SameWalks, Spliced, Named, AllRemoved, Without;
    ghost var was := m.at;
    var removed := CollectRemoved(m);
    var d := DeletedParents(m.at, removed);
    ghost var d0 := d;
    DeletedNamed(m.at, removed);
    SameWalksReflexive(d0, removed);
    m.Pop(removed);
    ghost var order := m.order;
    hide DeletedParents, SplicedUpTo;
    NothingSpliced(order, d0, removed, was, m.at);
    for k := 0 to |m.order|
      invariant m.Valid() && m.order == order
      invariant SameWalks(d0, d, removed) && Named(d)
      invariant SplicedUpTo(order, k, d0, removed, was, m.at)
    {
      ghost var now := m.at;
      d := SpliceOne(m, m.order[k], d, removed, d0);
      SplicedFurther(order, k, d0, removed, was, now, m.at);
    }
  }

  lemma NothingSpliced(order: seq<string>, d: Parents, removed: set<string>, was: Table, now: Table)
    requires now == was - removed && forall u <- order :: u in now
    ensures SplicedUpTo(order, 0, d, removed, was, now)
  {
    forall j | 0 <= j < |order| ensures order[j] in was && order[j] in now && now[order[j]] == was[order[j]] {
      assert order[j] in order;
    }
  }

  lemma DeletedNamed(at: Table, removed: set<string>)
    ensures Named(DeletedParents(at, removed))
  {
  }

  lemma KeptSpliced(d: Parents, removed: set<string>, was: Record)
    requires Settled(removed, ParentOf(was))
    ensures Spliced(d, removed, was, was)
  {
  }

  // ----- main results

  lemma {:induction false} StepsNamed(d: Parents, removed: set<string>, x: Option<string>, n: nat)
    requires NonEmpty(x) == x && Named(d)
    ensures NonEmpty(Steps(d, removed, x, n)) == Steps(d, removed, x, n)
    decreases n
  {
    if n > 0 && !Settled(removed, x) {
      StepsNamed(d, removed, Next(d, x.value), n - 1);
    }
  }

  lemma NearestNamed(d: Parents, removed: set<string>, x: Option<string>)
    requires NonEmpty(x) == x && Named(d) && Escapes(d, removed, x)
    ensures NonEmpty(Nearest(d, removed, x)) == Nearest(d, removed, x)
  {
    var n: nat :| Settled(removed, Steps(d, removed, x, n));
    NearestIs(d, removed, x, n);
    StepsNamed(d, removed, x, n);
  }

  /** When the chain of a survivor leads out of the removed messages, it hangs
      below its nearest surviving ancestor, and nothing else changes. */
  lemma SplicedToNearest(at: Table, removed: set<string>, was: Record, now: Record)
    requires Spliced(DeletedParents(at, removed), removed, was, now)
    requires Escapes(DeletedParents(at, removed), removed, ParentOf(was))
    ensures ParentOf(now) == Nearest(DeletedParents(at, removed), removed, ParentOf(was))
    ensures now.(parent := was.parent, logical := was.logical) == was
  {
    hide Escapes, ParentOf;
    var d := DeletedParents(at, removed);
    DeletedNamed(at, removed);
    NearestNamed(d, removed, ParentOf(was));
    if Settled(removed, ParentOf(was)) {
      SettledHere(d, removed, ParentOf(was));
    }
  }

  /** A survivor stays attached to a removed message exactly when its chain never
      leaves the removed messages: its parent lies in a closed set of them. */
  lemma SplicedToRemoved(at: Table, removed: set<string>, was: Record, now: Record)
    requires Spliced(DeletedParents(at, removed), removed, was, now)
    ensures Settled(removed, ParentOf(now)) <==> Escapes(DeletedParents(at, removed), removed, ParentOf(was))
    ensures !Settled(removed, ParentOf(now)) <==>
            ParentOf(was).Some? && exists s :: Trapped(DeletedParents(at, removed), removed, s) && ParentOf(was).value in s
  {
    hide Escapes, ParentOf, Trapped;
    var d, p := DeletedParents(at, removed), ParentOf(was);
    EscapesExactly(d, removed, p);
    if Settled(removed, p) {
      SettledHere(d, removed, p);
    } else if Escapes(d, removed, p) {
      SplicedToNearest(at, removed, was, now);
    }
  }

  /** The walk over deleted parents is the walk up the original messages. */
  lemma {:induction false} StepsAreOriginal(at: Table, removed: set<string>, x: Option<string>, n: nat)
    ensures Steps(DeletedParents(at, removed), removed, x, n) == Steps(ParentsOf(at), removed, x, n)
    decreases n
  {
    if n > 0 && !Settled(removed, x) {
      assert Next(DeletedParents(at, removed), x.value) == Next(ParentsOf(at), x.value);
      StepsAreOriginal(at, removed, Next(ParentsOf(at), x.value), n - 1);
    }
  }

  /** `n` steps up the original messages lead out of the removed ones for the first time. */
  ghost predicate LeavesAt(at: Table, removed: set<string>, x: Option<string>, n: nat) {
    Settled(removed, Up(at, x, n)) && forall i: nat :: i < n ==> !Settled(removed, Up(at, x, i))
  }

  lemma {:induction false} StepsAreUp(at: Table, removed: set<string>, x: Option<string>, n: nat)
    requires forall i: nat :: i < n ==> !Settled(removed, Up(at, x, i))
    ensures Steps(DeletedParents(at, removed), removed, x, n) == Up(at, x, n)
    decreases n
  {
    if n > 0 {
      assert Up(at, x, 0) == x && !Settled(removed, x);
      if x.value in at {
        forall i: nat | i < n - 1 ensures !Settled(removed, Up(at, ParentOf(at[x.value]), i)) {
          assert Up(at, x, i + 1) == Up(at, ParentOf(at[x.value]), i);
        }
        StepsAreUp(at, removed, ParentOf(at[x.value]), n - 1);
      }
    }
  }

  lemma {:induction false} FirstLeaves(at: Table, removed: set<string>, x: Option<string>, n: nat) returns (k: nat)
    requires Settled(removed, Up(at, x, n))
    ensures k <= n && LeavesAt(at, removed, x, k)
    decreases n
  {
    if i: nat :| i < n && Settled(removed, Up(at, x, i)) {
      k := FirstLeaves(at, removed, x, i);
    } else {
      k := n;
    }
  }

  /** In terms of the original messages: the walk leaves the removed ones exactly when
      some message above is not removed, or the chain ends; and the nearest survivor is
      the first such place. */
  lemma NearestAbove(at: Table, removed: set<string>, x: Option<string>)
    ensures Escapes(DeletedParents(at, removed), removed, x) <==> exists n: nat :: LeavesAt(at, removed, x, n)
    ensures forall n: nat :: LeavesAt(at, removed, x, n) ==>
              Escapes(DeletedParents(at, removed), removed, x) && Nearest(DeletedParents(at, removed), removed, x) == Up(at, x, n)
  {
    var d := DeletedParents(at, removed);
    hide Up, DeletedParents;
    forall n: nat | LeavesAt(at, removed, x, n) ensures Escapes(d, removed, x) && Nearest(d, removed, x) == Up(at, x, n) {
      StepsAreUp(at, removed, x, n);
      NearestIs(d, removed, x, n);
    }
    if n: nat :| Settled(removed, Steps(d, removed, x, n)) {
      if forall i: nat :: i < n ==> !Settled(removed, Up(at, x, i)) {
        StepsAreUp(at, removed, x, n);
        assert LeavesAt(at, removed, x, n);
      } else {
        var i: nat :| i < n && Settled(removed, Up(at, x, i));
        var k := FirstLeaves(at, removed, x, i);
      }
    }
  }

  /** Two removed messages that name each other as parent never let go. */
  lemma CycleKeepsHold(a: string, b: string)
    requires a != [] && b != []
    ensures var d: Parents := map[a := Some(b), b := Some(a)]; !Escapes(d, {a, b}, Some(a))
  {
    var d: Parents := map[a := Some(b), b := Some(a)];
    assert Trapped(d, {a, b}, {a, b});
    TrappedNeverEscapes(d, {a, b}, {a, b}, a);
  }

  lemma ThreeRemoved(a: Record, b: Record, s: Record, order: seq<string>, at: Table)
    requires order == [a.uuid, b.uuid, s.uuid] && Distinct(order)
    requires at == map[a.uuid := a, b.uuid := b, s.uuid := s]
    ensures Lists(order, at) && AllRemoved(order, at) == a.removes + b.removes + s.removes
  {
    var two, one := [b.uuid, s.uuid], [s.uuid];
    assert order[1..] == two && two[1..] == one && one[1..] == [];
    assert order[0] in order && order[1] in order && order[2] in order;
    assert AllRemoved(one, at) == s.removes + AllRemoved([], at);
    assert AllRemoved(two, at) == b.removes + AllRemoved(one, at);
    assert AllRemoved(order, at) == a.removes + AllRemoved(two, at);
  }

  /** A transcript of two messages that name each other as parent and a third,
      below one of them, that snips both: the third keeps a removed parent. */
  lemma SurvivorHeld(a: Record, b: Record, s: Record, order: seq<string>, at: Table,
                     removed: set<string>, left: seq<string>, now: Table)
    requires order == [a.uuid, b.uuid, s.uuid] && Distinct(order) && [] !in order
    requires at == map[a.uuid := a, b.uuid := b, s.uuid := s]
    requires ParentOf(a) == Some(b.uuid) && ParentOf(b) == Some(a.uuid) && ParentOf(s) == Some(a.uuid)
    requires a.removes == b.removes == {} && s.removes == {a.uuid, b.uuid}
    requires Lists(order, at) && removed == AllRemoved(order, at) && left == Without(order, removed)
    requires SplicedUpTo(left, |left|, DeletedParents(at, removed), removed, at, now)
    ensures removed == {a.uuid, b.uuid}
    ensures s.uuid in now && !Settled(removed, ParentOf(now[s.uuid]))
  {
    hide SplicedUpTo, AllRemoved, Without, ParentOf, Escapes, Lists;
    ThreeRemoved(a, b, s, order, at);
    var d: Parents := map[a.uuid := Some(b.uuid), b.uuid := Some(a.uuid)];
    assert order[0] in order && order[1] in order && order[2] in order;
    assert DeletedParents(at, removed) == d;
    assert removed == {a.uuid, b.uuid};
    CycleKeepsHold(a.uuid, b.uuid);
    assert at[s.uuid] == s && !Escapes(d, removed, Some(a.uuid));
    HeldSurvivor(left, at, removed, now, s.uuid);
  }

  lemma HeldSurvivor(left: seq<string>, at: Table, removed: set<string>, now: Table, u: string)
    requires u in left && SplicedUpTo(left, |left|, DeletedParents(at, removed), removed, at, now)
    requires u in at && !Escapes(DeletedParents(at, removed), removed, ParentOf(at[u]))
    ensures u in now && !Settled(removed, ParentOf(now[u]))
  {
    hide Spliced, Escapes, DeletedParents, Settled, ParentOf;
    var k :| 0 <= k < |left| && left[k] == u;
    SplicedToRemoved(at, removed, at[u], now[u]);
  }
}
