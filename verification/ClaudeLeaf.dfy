/** Choosing the record a conversation is read back from: the latest record
    that speaks at the end of some branch. */
module ClaudeLeaf {
  import opened Wrappers
  import opened ClaudeRecords
  import opened ParentChains
  import opened ParallelRecovery
  import opened ClaudeChain

  predicate Speaking(at: Table, u: string) {
    u in at && !at[u].kind.SystemKind?
  }

  /** A record that is no record's parent. */
  predicate IsTip(order: seq<string>, at: Table, u: string)
    requires forall v <- order :: v in at
  {
    forall v <- order :: ParentOf(at[v]) != Some(u)
  }

  /** The nearest record at or above `x` that speaks; none when the chain ends
      or repeats first. */
  function Nearest(at: Table, x: Option<string>, seen: set<string>): (r: Option<string>)
    decreases |at.Keys - seen|
  {
    if x.None? || x.value !in at || x.value in seen then None
    else if Speaking(at, x.value) then x
    else
      Fewer(at.Keys, seen, x.value);
      Nearest(at, ParentOf(at[x.value]), seen + {x.value})
  }

  /** The ends of the branches of the first `k` records, as far as they speak. */
  function Candidates(order: seq<string>, at: Table, k: nat): (c: seq<string>)
    requires k <= |order| && forall v <- order :: v in at
  {
    if k == 0 then []
    else
      var u := order[k - 1];
      var end := if IsTip(order, at, u) then Nearest(at, Some(u), {}) else None;
      Candidates(order, at, k - 1) + if end.Some? then [end.value] else []
  }

  /** The records to choose from: branch ends, or any that speak. */
  function Choices(order: seq<string>, at: Table): seq<string>
    requires forall v <- order :: v in at
  {
    var c := Candidates(order, at, |order|);
    if c != [] then c else Select(order, u => Speaking(at, u))
  }

  lemma {:induction false} NearestSpeaks(at: Table, x: Option<string>, seen: set<string>)
    ensures var r := Nearest(at, x, seen); r.Some? ==> Speaking(at, r.value)
    decreases |at.Keys - seen|
  {
    if x.Some? && x.value in at && x.value !in seen && !Speaking(at, x.value) {
      Fewer(at.Keys, seen, x.value);
      NearestSpeaks(at, ParentOf(at[x.value]), seen + {x.value});
    }
  }

  lemma {:induction false} CandidatesSpeak(order: seq<string>, at: Table, k: nat)
    requires k <= |order| && forall v <- order :: v in at
    ensures forall u <- Candidates(order, at, k) :: Speaking(at, u)
  {
    if k > 0 {
      CandidatesSpeak(order, at, k - 1);
      NearestSpeaks(at, Some(order[k - 1]), {});
    }
  }

  /** The first of the latest records of `s`. */
  function Latest(order: seq<string>, at: Table, s: seq<string>): (u: string)
    requires s != []
    ensures u in s && forall v <- s :: Before(order, at, v, u)
  {
    if |s| == 1 then
      BeforeTotal(order, at, s[0], s[0]);
      s[0]
    else
      var best := Latest(order, at, s[..|s| - 1]);
      var last := s[|s| - 1];
      BeforeTotal(order, at, last, best);
      BeforeTotal(order, at, last, last);
      LatestStep(order, at, s, best);
      if Before(order, at, last, best) then best else last
  }

  lemma LatestStep(order: seq<string>, at: Table, s: seq<string>, best: string)
    requires |s| > 1 && forall v <- s[..|s| - 1] :: Before(order, at, v, best)
    ensures var last := s[|s| - 1];
      if Before(order, at, last, best) then forall v <- s :: Before(order, at, v, best)
      else forall v <- s :: Before(order, at, v, last)
  {
    hide Before;
    var last := s[|s| - 1];
    BeforeTotal(order, at, last, best);
    BeforeTotal(order, at, last, last);
    assert s == s[..|s| - 1] + [last];
    forall v | v in s ensures Before(order, at, v, if Before(order, at, last, best) then best else last) {
      if v in s[..|s| - 1] {
        if !Before(order, at, last, best) {
          BeforeTransitive(order, at, v, best, last);
        }
      }
    }
  }

  /** The climb from a branch end goes round in a cycle without meeting a speaker. */
  ghost predicate Lost(at: Table, u: string) {
    Nearest(at, Some(u), {}).None? && !Finite(at, Some(u))
  }

  /** Some branch end of the first `k` records is lost in a cycle. */
  ghost predicate SomeLost(order: seq<string>, at: Table, k: nat)
    requires k <= |order| && forall v <- order :: v in at
  {
    exists j :: 0 <= j < k && IsTip(order, at, order[j]) && Lost(at, order[j])
  }

  lemma SomeLostNext(order: seq<string>, at: Table, k: nat)
    requires k < |order| && forall v <- order :: v in at
    ensures SomeLost(order, at, k + 1) <==> SomeLost(order, at, k) || (IsTip(order, at, order[k]) && Lost(at, order[k]))
  {
    hide IsTip, Lost;
    if IsTip(order, at, order[k]) && Lost(at, order[k]) {
      assert SomeLost(order, at, k + 1);
    }
  }

  method FindLeaf(order: seq<string>, at: Table) returns (leaf: Option<string>, warned: bool)
    requires Lists(order, at)
    ensures leaf == if Choices(order, at) == [] then None else Some(Latest(order, at, Choices(order, at)))
    ensures warned <==> SomeLost(order, at, |order|)
  {
    hide Lost, SomeLost, IsTip;
    var candidates: seq<string> := [];
    warned := false;
    NoneLost(order, at);
    for k := 0 to |order|
      invariant candidates == Candidates(order, at, k)
      invariant warned <==> SomeLost(order, at, k)
    {
      SomeLostNext(order, at, k);
      if IsTip(order, at, order[k]) {
        var end, cyclic := FindNearest(at, order[k]);
        if cyclic {
          warned := true;
        }
        if end.Some? {
          candidates := candidates + [end.value];
        }
      }
    }
    if candidates == [] {
      candidates := Select(order, u => Speaking(at, u));
    }
    leaf := if candidates == [] then None else Some(Latest(order, at, candidates));
  }

  lemma NoneLost(order: seq<string>, at: Table)
    requires forall v <- order :: v in at
    ensures !SomeLost(order, at, 0)
  {
  }

  method FindNearest(at: Table, u: string) returns (r: Option<string>, cyclic: bool)
    ensures r == Nearest(at, Some(u), {})
    ensures cyclic <==> Lost(at, u)
  {
    hide Finite, Climb, ClimbEnd, ParentOf;
    var current := Some(u);
    var seen: set<string> := {};
    ClimbCyclic(at, Some(u));
    while current.Some? && current.value in at && current.value !in seen
      invariant Nearest(at, current, seen) == Nearest(at, Some(u), {})
      invariant ClimbEnd(at, current, seen) == ClimbEnd(at, Some(u), {})
      decreases |at.Keys - seen|
    {
      if Speaking(at, current.value) {
        return current, false;
      }
      ClimbStep(at, current, seen, []);
      Fewer(at.Keys, seen, current.value);
      seen := seen + {current.value};
      current := ParentOf(at[current.value]);
    }
    ClimbStep(at, current, seen, []);
    r, cyclic := None, current.Some? && current.value in at;
  }

  /** A leaf is found exactly when some record speaks; it speaks itself, and no
      choice is later: no branch end's speaker, nor, when no branch end has one,
      any speaker at all. */
  lemma LeafMeaning(order: seq<string>, at: Table)
    requires Lists(order, at)
    ensures var c := Choices(order, at);
      && (c != [] <==> exists u <- order :: Speaking(at, u))
      && (c != [] ==> Speaking(at, Latest(order, at, c)))
      && (c != [] ==> forall v <- c :: Before(order, at, v, Latest(order, at, c)))
      && (forall v <- Candidates(order, at, |order|) :: v in c)
      && (Candidates(order, at, |order|) == [] ==> forall v <- at :: Speaking(at, v) ==> v in c)
  {
    hide Speaking, Before;
    CandidatesSpeak(order, at, |order|);
    var c, named := Choices(order, at), Candidates(order, at, |order|);
    if named != [] {
      assert named[0] in named;
      SpeakerListed(order, at, named[0]);
    } else if c != [] {
      assert c[0] in c;
    }
  }

  // ----- the leaf in terms of the original messages

  /** A record of a user or of the assistant. */
  ghost predicate Talks(at: Table, x: Option<string>) {
    x.Some? && x.value in at && at[x.value].kind != SystemKind
  }

  /** `v` is the first record that talks at or above `x`, `n` steps up. */
  ghost predicate TalksAt(at: Table, x: Option<string>, n: nat, v: string) {
    Up(at, x, n) == Some(v) && Talks(at, Some(v)) && forall i: nat :: i < n ==> !Talks(at, Up(at, x, i))
  }

  /** `v` is the first to talk at or above a record that is nobody's parent. */
  ghost predicate EndsBranch(order: seq<string>, at: Table, v: string)
    requires forall w <- order :: w in at
  {
    exists u <- order :: (forall w <- order :: ParentOf(at[w]) != Some(u)) && exists n: nat :: TalksAt(at, Some(u), n, v)
  }

  /** What the conversation may be read back from. */
  ghost predicate Eligible(order: seq<string>, at: Table, v: string)
    requires forall w <- order :: w in at
  {
    EndsBranch(order, at, v) || (v in order && Talks(at, Some(v)) && forall w <- order :: !EndsBranch(order, at, w))
  }

  /** One step on the first talker is one step nearer, and the record left is not met again. */
  lemma TalksNext(at: Table, u: string, n: nat, v: string)
    requires u in at && n > 0 && TalksAt(at, Some(u), n, v)
    ensures TalksAt(at, ParentOf(at[u]), n - 1, v) && !OnWay(at, ParentOf(at[u]), n - 1, u)
  {
    forall i: nat ensures Up(at, Some(u), i + 1) == Up(at, ParentOf(at[u]), i) {
    }
    forall i: nat | i <= n - 1 ensures Up(at, ParentOf(at[u]), i) != Some(u) {
      if Up(at, Some(u), i + 1) == Some(u) {
        UpAdd(at, Some(u), i + 1, n - (i + 1));
      }
    }
  }

  lemma TalksInTable(at: Table, x: Option<string>, n: nat, v: string)
    requires TalksAt(at, x, n, v)
    ensures x.Some? && x.value in at && (n == 0 <==> Talks(at, x)) && (n == 0 ==> x == Some(v))
  {
    UpInTable(at, x, n);
    assert Up(at, x, 0) == x;
  }

  lemma {:induction false} NearestFound(at: Table, x: Option<string>, seen: set<string>, n: nat, v: string)
    requires TalksAt(at, x, n, v) && forall u :: OnWay(at, x, n, u) ==> u !in seen
    ensures Nearest(at, x, seen) == Some(v)
    decreases n
  {
    hide TalksAt, OnWay, Up;
    TalksInTable(at, x, n, v);
    var u := x.value;
    forall w ensures OnWay(at, x, 0, w) <==> w == u
             ensures n > 0 ==> (OnWay(at, x, n, w) <==> w == u || OnWay(at, ParentOf(at[u]), n - 1, w))
    {
      OnWayStep(at, u, n, w);
    }
    if n > 0 {
      Fewer(at.Keys, seen, u);
      TalksNext(at, u, n, v);
      NearestFound(at, ParentOf(at[u]), seen + {u}, n - 1, v);
    }
  }

  lemma {:induction false} NearestTalks(at: Table, x: Option<string>, seen: set<string>) returns (n: nat)
    requires Nearest(at, x, seen).Some?
    ensures TalksAt(at, x, n, Nearest(at, x, seen).value)
    decreases |at.Keys - seen|
  {
    if Speaking(at, x.value) {
      n := 0;
      assert Up(at, x, 0) == x;
    } else {
      Fewer(at.Keys, seen, x.value);
      var next := ParentOf(at[x.value]);
      var m := NearestTalks(at, next, seen + {x.value});
      n := m + 1;
      forall i: nat ensures Up(at, x, i + 1) == Up(at, next, i) {
      }
      forall i: nat | i < n ensures !Talks(at, Up(at, x, i)) {
        if i > 0 {
          assert !Talks(at, Up(at, next, i - 1));
        }
      }
    }
  }

  /** The climb finds the first to talk, wherever there is one. */
  lemma NearestExactly(at: Table, x: Option<string>, v: string)
    ensures Nearest(at, x, {}) == Some(v) <==> exists n: nat :: TalksAt(at, x, n, v)
  {
    hide Nearest, TalksAt;
    if Nearest(at, x, {}) == Some(v) {
      var n := NearestTalks(at, x, {});
    }
    forall n: nat | TalksAt(at, x, n, v) ensures Nearest(at, x, {}) == Some(v) {
      NearestFound(at, x, {}, n, v);
    }
  }

  lemma {:induction false} CandidatesAre(order: seq<string>, at: Table, k: nat, v: string)
    requires k <= |order| && forall w <- order :: w in at
    ensures v in Candidates(order, at, k) <==>
            exists j :: 0 <= j < k && IsTip(order, at, order[j]) && Nearest(at, Some(order[j]), {}) == Some(v)
  {
    hide IsTip, Nearest;
    if k > 0 {
      CandidatesAre(order, at, k - 1, v);
    }
  }

  lemma CandidatesExactly(order: seq<string>, at: Table, v: string)
    requires forall w <- order :: w in at
    ensures v in Candidates(order, at, |order|) <==> EndsBranch(order, at, v)
  {
    hide Nearest, TalksAt, Candidates;
    CandidatesAre(order, at, |order|, v);
    if v in Candidates(order, at, |order|) {
      var j :| 0 <= j < |order| && IsTip(order, at, order[j]) && Nearest(at, Some(order[j]), {}) == Some(v);
      NearestExactly(at, Some(order[j]), v);
      assert order[j] in order;
    }
    if EndsBranch(order, at, v) {
      var u :| u in order && (forall w <- order :: ParentOf(at[w]) != Some(u)) && exists n: nat :: TalksAt(at, Some(u), n, v);
      NearestExactly(at, Some(u), v);
      var j :| 0 <= j < |order| && order[j] == u;
      assert IsTip(order, at, order[j]);
    }
  }

  lemma EndsTalk(order: seq<string>, at: Table, v: string)
    requires Lists(order, at) && EndsBranch(order, at, v)
    ensures v in order && Talks(at, Some(v))
  {
  }

  lemma ChoicesExactly(order: seq<string>, at: Table)
    requires Lists(order, at)
    ensures forall v :: v in Choices(order, at) <==> Eligible(order, at, v)
  {
    hide EndsBranch, Candidates, Choices, Eligible;
    forall v ensures v in Choices(order, at) <==> Eligible(order, at, v) {
      ChoiceIs(order, at, v);
    }
  }

  lemma ChoiceIs(order: seq<string>, at: Table, v: string)
    requires Lists(order, at)
    ensures v in Choices(order, at) <==> Eligible(order, at, v)
  {
    hide EndsBranch, Candidates, Select;
    var named := Candidates(order, at, |order|);
    forall w ensures w in named <==> EndsBranch(order, at, w) {
      CandidatesExactly(order, at, w);
    }
    if named != [] {
      assert named[0] in named;
      EndsTalk(order, at, named[0]);
    }
  }

  /** The leaf is the last eligible record in the order of timestamps, and there is one
      exactly when somebody talks. */
  lemma LeafExactly(order: seq<string>, at: Table)
    requires Lists(order, at)
    ensures Choices(order, at) == [] <==> forall v <- order :: !Talks(at, Some(v))
    ensures Choices(order, at) != [] ==>
      var leaf := Latest(order, at, Choices(order, at));
      && Eligible(order, at, leaf) && leaf in order
      && forall v <- order :: Eligible(order, at, v) ==> Earlier(order, at, v, leaf)
  {
    hide Choices, EndsBranch, Before, Earlier;
    ChoicesExactly(order, at);
    LeafMeaning(order, at);
    var c := Choices(order, at);
    if c != [] {
      var leaf := Latest(order, at, c);
      EligibleListed(order, at, leaf);
      forall v | v in order && Eligible(order, at, v) ensures Earlier(order, at, v, leaf) {
        BeforeMeaning(order, at, v, leaf);
      }
    }
  }

  lemma EligibleListed(order: seq<string>, at: Table, v: string)
    requires Lists(order, at) && Eligible(order, at, v)
    ensures v in order
  {
    hide EndsBranch;
    if EndsBranch(order, at, v) {
      EndsTalk(order, at, v);
    }
  }

  /** In an acyclic transcript no branch end is lost: there is no warning. */
  lemma AcyclicUnwarned(order: seq<string>, at: Table)
    requires Lists(order, at) && Acyclic(at)
    ensures !SomeLost(order, at, |order|)
  {
    hide Finite, IsTip;
  }

  lemma SpeakerListed(order: seq<string>, at: Table, u: string)
    requires Lists(order, at) && Speaking(at, u)
    ensures u in order
  {
  }
}
