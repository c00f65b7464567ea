/** Putting parallel work back into a chain: assistant records that share a
    message id with one on the chain, and the tool results below any of them,
    are inserted after the last chain record of that id. */
module ParallelRecovery {
  import opened Wrappers
  import opened ClaudeRecords

  // ----- selecting and sorting

  function Select(s: seq<string>, p: string -> bool): (r: seq<string>)
    ensures forall u :: u in r <==> u in s && p(u)
    ensures Distinct(s) ==> Distinct(r)
  {
    if s == [] then []
    else
      assert Distinct(s) ==> Distinct(s[1..]) && s[0] !in s[1..];
      (if p(s[0]) then [s[0]] else []) + Select(s[1..], p)
  }

  lemma {:induction false} SelectSame(s: seq<string>, p: string -> bool, q: string -> bool)
    requires forall u <- s :: p(u) == q(u)
    ensures Select(s, p) == Select(s, q)
  {
    if s != [] {
      SelectSame(s[1..], p, q);
    }
  }

  lemma {:induction false} SelectConcat(a: seq<string>, b: seq<string>, p: string -> bool)
    ensures Select(a + b, p) == Select(a, p) + Select(b, p)
  {
    if a == [] {
      assert a + b == b;
    } else {
      assert (a + b)[1..] == a[1..] + b;
      SelectConcat(a[1..], b, p);
    }
  }

  predicate LexLeq(a: string, b: string) {
    a == [] || (b != [] && (a[0] < b[0] || (a[0] == b[0] && LexLeq(a[1..], b[1..]))))
  }

  function Position(order: seq<string>, u: string): int {
    if order == [] then -1
    else if order[0] == u then 0
    else
      var p := Position(order[1..], u);
      if p < 0 then -1 else p + 1
  }

  /** Ordering by timestamp, then by place in the transcript. */
  predicate Before(order: seq<string>, at: Table, a: string, b: string) {
    var s, t := if a in at then at[a].timestamp else [], if b in at then at[b].timestamp else [];
    if s == t then Position(order, a) <= Position(order, b) else LexLeq(s, t)
  }

  function Insert(order: seq<string>, at: Table, u: string, s: seq<string>): (r: seq<string>)
    ensures forall v :: v in r <==> v == u || v in s
    ensures |r| == |s| + 1
    ensures Distinct(s) && u !in s ==> Distinct(r)
  {
    if s == [] then [u]
    else if Before(order, at, u, s[0]) then [u] + s
    else
      assert Distinct(s) ==> Distinct(s[1..]) && s[0] !in s[1..];
      [s[0]] + Insert(order, at, u, s[1..])
  }

  function Sorted(order: seq<string>, at: Table, s: seq<string>): (r: seq<string>)
    ensures forall v :: v in r <==> v in s
    ensures |r| == |s|
    ensures Distinct(s) ==> Distinct(r)
  {
    if s == [] then []
    else
      assert Distinct(s) ==> Distinct(s[1..]) && s[0] !in s[1..];
      Insert(order, at, s[0], Sorted(order, at, s[1..]))
  }

  ghost predicate InOrder(order: seq<string>, at: Table, s: seq<string>) {
    forall i, j :: 0 <= i < j < |s| ==> Before(order, at, s[i], s[j])
  }

  lemma {:induction false} LexTotal(a: string, b: string)
    ensures LexLeq(a, b) || LexLeq(b, a)
    ensures LexLeq(a, b) && LexLeq(b, a) ==> a == b
  {
    if a != [] && b != [] && a[0] == b[0] {
      LexTotal(a[1..], b[1..]);
      assert a == [a[0]] + a[1..] && b == [b[0]] + b[1..];
    }
  }

  lemma {:induction false} LexTransitive(a: string, b: string, c: string)
    requires LexLeq(a, b) && LexLeq(b, c)
    ensures LexLeq(a, c)
  {
    if a != [] && a[0] == b[0] == c[0] {
      LexTransitive(a[1..], b[1..], c[1..]);
    }
  }

  /** At the first place where they differ, `a` has the lower character. */
  ghost predicate DiffersLower(a: string, b: string) {
    exists i :: 0 <= i < |a| && i < |b| && a[..i] == b[..i] && a[i] < b[i]
  }

  lemma LowerFront(a: string, b: string)
    requires a != [] && b != []
    ensures a[0] < b[0] ==> DiffersLower(a, b)
    ensures a[0] > b[0] ==> !DiffersLower(a, b) && !(a <= b)
    ensures a[0] == b[0] ==> (DiffersLower(a, b) <==> DiffersLower(a[1..], b[1..])) && (a <= b <==> a[1..] <= b[1..])
  {
    hide DiffersLower;
    LowerAt(a, b);
    if a[0] == b[0] {
      LowerBehind([a[0]], a[1..], b[1..]);
      assert a == [a[0]] + a[1..] && b == [a[0]] + b[1..];
    }
  }

  lemma LowerAt(a: string, b: string)
    requires a != [] && b != []
    ensures a[0] < b[0] ==> DiffersLower(a, b)
    ensures a[0] > b[0] ==> !DiffersLower(a, b) && !(a <= b)
  {
    assert a[..0] == b[..0];
    if i :| 0 <= i < |a| && i < |b| && a[..i] == b[..i] && a[i] < b[i] {
      assert i > 0 ==> a[..i][0] == a[0] && b[..i][0] == b[0];
    }
  }

  lemma LowerBehind(front: string, c: string, d: string)
    requires |front| == 1
    ensures DiffersLower(front + c, front + d) <==> DiffersLower(c, d)
    ensures front + c <= front + d <==> c <= d
  {
    var a, b := front + c, front + d;
    if i :| 0 <= i < |c| && i < |d| && c[..i] == d[..i] && c[i] < d[i] {
      assert a[..i + 1] == front + c[..i] && b[..i + 1] == front + d[..i];
      assert a[i + 1] == c[i] && b[i + 1] == d[i];
    }
    if i :| 0 <= i < |a| && i < |b| && a[..i] == b[..i] && a[i] < b[i] {
      assert i > 0;
      assert c[..i - 1] == a[..i][1..] && d[..i - 1] == b[..i][1..] && c[i - 1] == a[i] && d[i - 1] == b[i];
    }
    assert c <= d ==> b == front + c + d[|c|..];
    assert a <= b ==> d[..|c|] == b[1..|a|] == a[1..];
  }

  lemma {:induction false} LexMeaning(a: string, b: string)
    ensures LexLeq(a, b) <==> a <= b || DiffersLower(a, b)
  {
    if a != [] && b != [] {
      LowerFront(a, b);
      hide DiffersLower;
      LexMeaning(a[1..], b[1..]);
    }
  }

  lemma {:induction false} PositionIs(order: seq<string>, k: nat)
    requires Distinct(order) && k < |order|
    ensures Position(order, order[k]) == k
  {
    if k > 0 {
      assert order[0] != order[k] && order[1..][k - 1] == order[k];
      assert Distinct(order[1..]) by {
        assert forall i :: 0 <= i < |order| - 1 ==> order[1..][i] == order[i + 1];
      }
      PositionIs(order[1..], k - 1);
    }
  }

  /** The order of the transcript as its reader sees it: the lower timestamp first, and
      of equal ones the record that stands first. */
  ghost predicate Earlier(order: seq<string>, at: Table, a: string, b: string)
    requires a in at && b in at
  {
    var s, t := at[a].timestamp, at[b].timestamp;
    if s == t then exists i, j :: 0 <= i <= j < |order| && order[i] == a && order[j] == b
    else s <= t || DiffersLower(s, t)
  }

  lemma BeforeMeaning(order: seq<string>, at: Table, a: string, b: string)
    requires Distinct(order) && a in order && b in order && a in at && b in at
    ensures Before(order, at, a, b) <==> Earlier(order, at, a, b)
  {
    hide Position, LexLeq, DiffersLower;
    var i :| 0 <= i < |order| && order[i] == a;
    var j :| 0 <= j < |order| && order[j] == b;
    PositionIs(order, i);
    PositionIs(order, j);
    LexMeaning(at[a].timestamp, at[b].timestamp);
  }

  lemma BeforeTotal(order: seq<string>, at: Table, a: string, b: string)
    ensures Before(order, at, a, b) || Before(order, at, b, a)
  {
    LexTotal(if a in at then at[a].timestamp else [], if b in at then at[b].timestamp else []);
  }

  lemma BeforeTransitive(order: seq<string>, at: Table, a: string, b: string, c: string)
    requires Before(order, at, a, b) && Before(order, at, b, c)
    ensures Before(order, at, a, c)
  {
    var s, t, w := if a in at then at[a].timestamp else [], if b in at then at[b].timestamp else [], if c in at then at[c].timestamp else [];
    if s != t && t != w {
      LexTransitive(s, t, w);
      LexTotal(s, t);
    }
  }

  lemma {:induction false} InsertInOrder(order: seq<string>, at: Table, u: string, s: seq<string>)
    requires InOrder(order, at, s)
    ensures InOrder(order, at, Insert(order, at, u, s))
  {
    hide Before;
    if s != [] {
      if Before(order, at, u, s[0]) {
        forall j | 0 <= j < |s| ensures Before(order, at, u, s[j]) {
          if j > 0 {
            BeforeTransitive(order, at, u, s[0], s[j]);
          }
        }
      } else {
        BeforeTotal(order, at, u, s[0]);
        assert forall j :: 0 <= j < |s| - 1 ==> s[1..][j] == s[j + 1];
        InsertInOrder(order, at, u, s[1..]);
        var rest := Insert(order, at, u, s[1..]);
        forall j | 0 <= j < |rest| ensures Before(order, at, s[0], rest[j]) {
          assert rest[j] in rest;
          if rest[j] != u {
            var k :| 0 <= k < |s[1..]| && s[1..][k] == rest[j];
          }
        }
      }
    }
  }

  /** Recovered records come in timestamp order. */
  lemma {:induction false} SortedInOrder(order: seq<string>, at: Table, s: seq<string>)
    ensures InOrder(order, at, Sorted(order, at, s))
  {
    if s != [] {
      SortedInOrder(order, at, s[1..]);
      InsertInOrder(order, at, s[0], Sorted(order, at, s[1..]));
    }
  }

  // ----- groups

  predicate Speaks(at: Table, u: string, id: string) {
    u in at && at[u].kind.AssistantKind? && at[u].messageId == Some(id)
  }

  predicate Answers(at: Table, u: string, member: string) {
    u in at && at[u].kind.UserKind? && at[u].toolResult && ParentOf(at[u]) == Some(member)
  }

  /** The assistant records of one message id; an empty id groups nothing. */
  function Members(order: seq<string>, at: Table, id: string, self: string): seq<string> {
    if id == [] then [self] else Select(order, u => Speaks(at, u, id))
  }

  function ResultsUnder(order: seq<string>, at: Table, members: seq<string>): seq<string> {
    if members == [] then []
    else Select(order, u => Answers(at, u, members[0])) + ResultsUnder(order, at, members[1..])
  }

  lemma {:induction false} ResultsMeaning(order: seq<string>, at: Table, members: seq<string>, u: string)
    ensures u in ResultsUnder(order, at, members) <==> u in order && exists m <- members :: Answers(at, u, m)
  {
    if members != [] {
      ResultsMeaning(order, at, members[1..], u);
      assert members == [members[0]] + members[1..];
    }
  }

  lemma {:induction false} ResultsDistinct(order: seq<string>, at: Table, members: seq<string>)
    requires Distinct(order) && Distinct(members)
    ensures Distinct(ResultsUnder(order, at, members))
  {
    if members != [] {
      assert Distinct(members[1..]) && members[0] !in members[1..];
      ResultsDistinct(order, at, members[1..]);
      var a, b := Select(order, u => Answers(at, u, members[0])), ResultsUnder(order, at, members[1..]);
      forall u | u in a ensures u !in b {
        ResultsMeaning(order, at, members[1..], u);
      }
      DistinctConcat(a, b);
    }
  }

  lemma DistinctConcat(a: seq<string>, b: seq<string>)
    ensures Distinct(a + b) <==> Distinct(a) && Distinct(b) && forall u <- a :: u !in b
  {
    if Distinct(a + b) {
      DistinctParts(a, b);
    }
    var w := a + b;
    if Distinct(a) && Distinct(b) && forall u <- a :: u !in b {
      forall i, j | 0 <= i < j < |w| ensures w[i] != w[j] {
        if i < |a| <= j {
          assert w[i] == a[i] && a[i] in a && w[j] == b[j - |a|] && b[j - |a|] in b;
        }
      }
    }
  }

  lemma DistinctParts(a: seq<string>, b: seq<string>)
    requires Distinct(a + b)
    ensures Distinct(a) && Distinct(b) && forall u <- a :: u !in b
  {
    var w := a + b;
    forall i, j | 0 <= i < j < |a| ensures a[i] != a[j] {
      assert w[i] != w[j];
    }
    forall i, j | 0 <= i < j < |b| ensures b[i] != b[j] {
      assert w[|a| + i] != w[|a| + j];
    }
    forall i, j | 0 <= i < |a| && 0 <= j < |b| ensures a[i] != b[j] {
      assert w[i] != w[|a| + j];
    }
  }

  /** What a group adds beside the records already shown. */
  function Recovered(order: seq<string>, at: Table, seen: set<string>, members: seq<string>): seq<string> {
    Sorted(order, at, Select(members, u => u !in seen))
    + Sorted(order, at, Select(ResultsUnder(order, at, members), u => u !in seen))
  }

  lemma RecoveredMeaning(order: seq<string>, at: Table, seen: set<string>, members: seq<string>, u: string)
    ensures u in Recovered(order, at, seen, members) <==>
            u !in seen && (u in members || (u in order && exists m <- members :: Answers(at, u, m)))
  {
    ResultsMeaning(order, at, members, u);
  }

  ghost predicate AllSpeak(at: Table, members: seq<string>, id: string) {
    forall m <- members :: Speaks(at, m, id)
  }

  lemma RecoveredDistinct(order: seq<string>, at: Table, seen: set<string>, members: seq<string>, id: string)
    requires Distinct(order) && Distinct(members) && AllSpeak(at, members, id)
    ensures Distinct(Recovered(order, at, seen, members))
  {
    ResultsDistinct(order, at, members);
    var a := Sorted(order, at, Select(members, u => u !in seen));
    var b := Sorted(order, at, Select(ResultsUnder(order, at, members), u => u !in seen));
    forall u | u in a ensures u !in b {
      ResultsMeaning(order, at, members, u);
      assert Speaks(at, u, id);
    }
    DistinctConcat(a, b);
  }

  /** The message id a record belongs to: its own, or that of the assistant
      record it answers. */
  function OwnerId(at: Table, u: string): Option<string> {
    if u !in at then None
    else if at[u].kind.AssistantKind? then at[u].messageId
    else
      match ParentOf(at[u])
      case None => None
      case Some(p) => if p in at && at[p].kind.AssistantKind? then at[p].messageId else None
  }

  lemma RecoveredOwner(order: seq<string>, at: Table, seen: set<string>, members: seq<string>, id: string, u: string)
    requires AllSpeak(at, members, id) && u in Recovered(order, at, seen, members)
    ensures OwnerId(at, u) == Some(id) && u !in seen
  {
    RecoveredMeaning(order, at, seen, members, u);
    if u in members {
      assert Speaks(at, u, id);
    } else {
      var m :| m in members && Answers(at, u, m);
      assert Speaks(at, m, id);
    }
  }

  /** Records of other groups make no difference to what a group adds. */
  lemma RecoveredSame(order: seq<string>, at: Table, seen: set<string>, more: set<string>, members: seq<string>, id: string)
    requires AllSpeak(at, members, id) && seen <= more
    requires forall u <- more :: u in seen || OwnerId(at, u) != Some(id)
    ensures Recovered(order, at, more, members) == Recovered(order, at, seen, members)
  {
    forall u | u in members ensures (u !in more) == (u !in seen) {
      assert Speaks(at, u, id);
    }
    SelectSame(members, u => u !in more, u => u !in seen);
    var rs := ResultsUnder(order, at, members);
    forall u | u in rs ensures (u !in more) == (u !in seen) {
      ResultsMeaning(order, at, members, u);
      var m :| m in members && Answers(at, u, m);
      assert Speaks(at, m, id);
    }
    SelectSame(rs, u => u !in more, u => u !in seen);
  }

  // ----- inserting the groups into the chain

  /** The message id of the chain record at `k`, when it is an assistant's. */
  function IdAt(at: Table, chain: seq<string>, k: nat): Option<string>
    requires k < |chain|
  {
    if chain[k] in at && at[chain[k]].kind.AssistantKind? then at[chain[k]].messageId else None
  }

  /** Index of the last of the first `n` chain records with message id `id`. */
  function LastWith(at: Table, chain: seq<string>, n: nat, id: string): (k: int)
    requires n <= |chain|
    ensures -1 <= k < n
    ensures k >= 0 ==> IdAt(at, chain, k) == Some(id)
    ensures forall j :: k < j < n ==> IdAt(at, chain, j) != Some(id)
  {
    if n == 0 then -1 else if IdAt(at, chain, n - 1) == Some(id) then n - 1 else LastWith(at, chain, n - 1, id)
  }

  /** Whether a group is inserted right after the chain record at `k`. */
  predicate IsAnchor(at: Table, chain: seq<string>, k: nat)
    requires k < |chain|
  {
    var id := IdAt(at, chain, k);
    id.Some? && id.value != [] && LastWith(at, chain, |chain|, id.value) == k
  }

  function InsertedAfter(order: seq<string>, at: Table, chain: seq<string>, seen: set<string>, k: nat): seq<string>
    requires k < |chain|
  {
    if IsAnchor(at, chain, k)
    then Recovered(order, at, seen, Members(order, at, IdAt(at, chain, k).value, chain[k]))
    else []
  }

  /** The first `k` chain records, each followed by what is inserted there. */
  function Merged(order: seq<string>, at: Table, chain: seq<string>, seen: set<string>, k: nat): seq<string>
    requires k <= |chain|
  {
    if k == 0 then []
    else Merged(order, at, chain, seen, k - 1) + [chain[k - 1]] + InsertedAfter(order, at, chain, seen, k - 1)
  }

  /** The first chain assistant with an empty message id, or -1. */
  function FirstEmpty(at: Table, chain: seq<string>, n: nat): (k: int)
    requires n <= |chain|
    ensures -1 <= k < n
    ensures k >= 0 ==> IdAt(at, chain, k) == Some("")
    ensures forall j :: 0 <= j < (if k < 0 then n else k) ==> IdAt(at, chain, j) != Some("")
  {
    if n == 0 then -1
    else
      var k := FirstEmpty(at, chain, n - 1);
      if k >= 0 then k else if IdAt(at, chain, n - 1) == Some("") then n - 1 else -1
  }

  /** An off-chain result below the first assistant whose message id is the
      empty string has no anchor to be inserted after. */
  predicate LacksAnchor(order: seq<string>, at: Table, chain: seq<string>, seen: set<string>) {
    var k := FirstEmpty(at, chain, |chain|);
    k >= 0 && Recovered(order, at, seen, [chain[k]]) != []
  }

  datatype Outcome = Conversation(turns: seq<string>) | MissingAnchor

  lemma MembersSpeak(order: seq<string>, at: Table, id: string, self: string)
    requires Speaks(at, self, id)
    ensures AllSpeak(at, Members(order, at, id, self), id)
    ensures Distinct(order) ==> Distinct(Members(order, at, id, self))
  {
  }

  /** The record a group is inserted after. */
  function AnchorOf(at: Table, chain: seq<string>, id: string): Option<string> {
    var k := LastWith(at, chain, |chain|, id);
    if id == [] || k < 0 then None else Some(chain[k])
  }

  function Entry(inserts: map<string, seq<string>>, u: string): seq<string> {
    if u in inserts then inserts[u] else []
  }

  /** The table of insertions holds the groups in `done` and nothing else. */
  ghost predicate Holds(order: seq<string>, at: Table, chain: seq<string>, seen: set<string>,
                        inserts: map<string, seq<string>>, done: set<string>)
  {
    && (forall u <- inserts :: exists id <- done :: AnchorOf(at, chain, id) == Some(u))
    && (forall id <- done :: id != [] ==> AnchorOf(at, chain, id).Some?)
    && (forall id <- done :: id != [] ==> Entry(inserts, AnchorOf(at, chain, id).value) == Recovered(order, at, seen, Members(order, at, id, "")))
  }

  /** Everything shown beyond `seen` belongs to a group in `done`. */
  ghost predicate ShownBy(at: Table, seen: set<string>, shown: set<string>, done: set<string>) {
    seen <= shown && forall u <- shown :: u in seen || (OwnerId(at, u).Some? && OwnerId(at, u).value in done)
  }

  /** `done` are the message ids of the first `k` chain records. */
  ghost predicate DoneIds(at: Table, chain: seq<string>, k: nat, done: set<string>)
    requires k <= |chain|
  {
    forall id :: id in done <==> exists j :: 0 <= j < k && IdAt(at, chain, j) == Some(id)
  }

  lemma AnchorsDiffer(at: Table, chain: seq<string>, a: string, b: string)
    requires Distinct(chain) && a != b && AnchorOf(at, chain, a).Some? && AnchorOf(at, chain, b).Some?
    ensures AnchorOf(at, chain, a) != AnchorOf(at, chain, b)
  {
    hide IdAt;
    var i, j := LastWith(at, chain, |chain|, a), LastWith(at, chain, |chain|, b);
    assert i != j;
  }

  lemma AnchorExists(at: Table, chain: seq<string>, k: nat, id: string)
    requires k < |chain| && IdAt(at, chain, k) == Some(id) && id != []
    ensures AnchorOf(at, chain, id).Some?
  {
  }

  /** A new group goes into the table under its own anchor. */
  lemma HoldsMore(order: seq<string>, at: Table, chain: seq<string>, seen: set<string>,
                  inserts: map<string, seq<string>>, done: set<string>, id: string)
    requires Distinct(chain) && Holds(order, at, chain, seen, inserts, done)
    requires id !in done && AnchorOf(at, chain, id).Some?
    ensures var rec := Recovered(order, at, seen, Members(order, at, id, ""));
      Holds(order, at, chain, seen, if rec == [] then inserts else inserts[AnchorOf(at, chain, id).value := rec], done + {id})
  {
    hide Recovered, Members, AnchorOf;
    var rec := Recovered(order, at, seen, Members(order, at, id, ""));
    var anchor := AnchorOf(at, chain, id).value;
    var next := if rec == [] then inserts else inserts[anchor := rec];
    forall other | other in done && AnchorOf(at, chain, other).Some? ensures AnchorOf(at, chain, other).value != anchor {
      AnchorsDiffer(at, chain, other, id);
    }
    assert anchor !in inserts;
    forall u | u in next ensures exists other <- done + {id} :: AnchorOf(at, chain, other) == Some(u) {
      if u != anchor {
        var other :| other in done && AnchorOf(at, chain, other) == Some(u);
        assert other in done + {id};
      } else {
        assert id in done + {id};
      }
    }
  }

  /** An empty message id adds no entry. */
  lemma HoldsEmpty(order: seq<string>, at: Table, chain: seq<string>, seen: set<string>,
                   inserts: map<string, seq<string>>, done: set<string>)
    requires Holds(order, at, chain, seen, inserts, done)
    ensures Holds(order, at, chain, seen, inserts, done + {""})
  {
    hide Recovered, Members, AnchorOf;
    forall u | u in inserts ensures exists other <- done + {""} :: AnchorOf(at, chain, other) == Some(u) {
      var other :| other in done && AnchorOf(at, chain, other) == Some(u);
      assert other in done + {""};
    }
  }

  lemma ShownMore(order: seq<string>, at: Table, seen: set<string>, shown: set<string>, done: set<string>,
                  members: seq<string>, id: string, more: set<string>)
    requires ShownBy(at, seen, shown, done) && AllSpeak(at, members, id)
    requires forall u <- more :: u in Recovered(order, at, seen, members)
    ensures ShownBy(at, seen, shown + more, done + {id})
  {
    hide Recovered, OwnerId;
    forall u | u in more ensures OwnerId(at, u) == Some(id) {
      RecoveredOwner(order, at, seen, members, id, u);
    }
  }

  lemma DoneMore(at: Table, chain: seq<string>, k: nat, done: set<string>)
    requires k < |chain| && DoneIds(at, chain, k, done)
    ensures DoneIds(at, chain, k + 1, if IdAt(at, chain, k).Some? then done + {IdAt(at, chain, k).value} else done)
  {
    hide IdAt;
    var next := if IdAt(at, chain, k).Some? then done + {IdAt(at, chain, k).value} else done;
    forall id ensures id in next <==> exists j :: 0 <= j < k + 1 && IdAt(at, chain, j) == Some(id) {
      if id in done {
        var j :| 0 <= j < k && IdAt(at, chain, j) == Some(id);
      }
    }
  }

  /** The finished table says what is inserted after each chain record. */
  lemma HoldsAll(order: seq<string>, at: Table, chain: seq<string>, seen: set<string>,
                 inserts: map<string, seq<string>>, done: set<string>, k: nat)
    requires Distinct(chain) && k < |chain|
    requires Holds(order, at, chain, seen, inserts, done) && DoneIds(at, chain, |chain|, done)
    ensures Entry(inserts, chain[k]) == InsertedAfter(order, at, chain, seen, k)
  {
    hide Recovered, IdAt;
    if chain[k] in inserts {
      var id :| id in done && AnchorOf(at, chain, id) == Some(chain[k]);
      AnchorAt(at, chain, id, k);
    }
    if IsAnchor(at, chain, k) {
      var id := IdAt(at, chain, k).value;
      assert id in done && AnchorOf(at, chain, id) == Some(chain[k]);
      assert Members(order, at, id, chain[k]) == Members(order, at, id, "");
    }
  }

  lemma AnchorAt(at: Table, chain: seq<string>, id: string, k: nat)
    requires Distinct(chain) && k < |chain| && AnchorOf(at, chain, id) == Some(chain[k])
    ensures IsAnchor(at, chain, k)
  {
    hide IdAt;
    var j := LastWith(at, chain, |chain|, id);
    assert chain[j] == chain[k] && j == k;
  }

  // ----- the recovery loop

  /** Look up the group of one chain record. */
  method CollectOne(order: seq<string>, at: Table, chain: seq<string>, ghost seen: set<string>, k: nat,
                    inserts: map<string, seq<string>>, done: set<string>, shown: set<string>)
    returns (failed: bool, inserts': map<string, seq<string>>, done': set<string>, shown': set<string>)
    requires Distinct(chain) && k < |chain| && DoneIds(at, chain, k, done)
    requires Holds(order, at, chain, seen, inserts, done) && ShownBy(at, seen, shown, done)
    ensures failed <==> IdAt(at, chain, k) == Some("") && "" !in done && Recovered(order, at, seen, [chain[k]]) != []
    ensures !failed ==>
      && DoneIds(at, chain, k + 1, done')
      && Holds(order, at, chain, seen, inserts', done') && ShownBy(at, seen, shown', done')
  {
    hide Recovered, DoneIds, Holds, ShownBy, AnchorOf;
    failed, inserts', done', shown' := false, inserts, done, shown;
    DoneMore(at, chain, k, done);
    var id := IdAt(at, chain, k);
    if id.None? || id.value in done {
      assert id.Some? ==> done + {id.value} == done;
      return;
    }
    done' := done + {id.value};
    var members := Members(order, at, id.value, chain[k]);
    MembersSpeak(order, at, id.value, chain[k]);
    OthersShown(at, seen, shown, done, id.value);
    RecoveredSame(order, at, seen, shown, members, id.value);
    var recovered := Recovered(order, at, shown, members);
    if recovered != [] {
      if id.value == [] {
        failed := true;
        return;
      }
      inserts' := inserts[AnchorFor(at, chain, k, id.value) := recovered];
    }
    var more := set u <- recovered;
    ShownMore(order, at, seen, shown, done, members, id.value, more);
    shown' := shown + more;
    if id.value == [] {
      HoldsEmpty(order, at, chain, seen, inserts, done);
    } else {
      AnchorExists(at, chain, k, id.value);
      HoldsMore(order, at, chain, seen, inserts, done, id.value);
      assert Members(order, at, id.value, "") == members;
    }
  }

  function AnchorFor(at: Table, chain: seq<string>, k: nat, id: string): (u: string)
    requires k < |chain| && IdAt(at, chain, k) == Some(id) && id != []
    ensures AnchorOf(at, chain, id) == Some(u)
  {
    chain[LastWith(at, chain, |chain|, id)]
  }

  lemma OthersShown(at: Table, seen: set<string>, shown: set<string>, done: set<string>, id: string)
    requires ShownBy(at, seen, shown, done) && id !in done
    ensures seen <= shown && forall u <- shown :: u in seen || OwnerId(at, u) != Some(id)
  {
    hide OwnerId;
  }

  method RecoverParallel(order: seq<string>, at: Table, chain: seq<string>, seen: set<string>) returns (r: Outcome)
    requires Distinct(chain)
    ensures r == if LacksAnchor(order, at, chain, seen) then MissingAnchor
                 else Conversation(Merged(order, at, chain, seen, |chain|))
  {
    hide Recovered, DoneIds, Holds, ShownBy, InsertedAfter, Distinct, IdAt;
    var inserts: map<string, seq<string>> := map[];
    var done: set<string> := {};
    var shown := seen;
    NothingDone(order, at, chain, seen);
    for k := 0 to |chain|
      invariant DoneIds(at, chain, k, done)
      invariant Holds(order, at, chain, seen, inserts, done) && ShownBy(at, seen, shown, done)
      invariant FirstEmpty(at, chain, k) >= 0 ==> Recovered(order, at, seen, [chain[FirstEmpty(at, chain, k)]]) == []
    {
      EmptyDone(at, chain, k, done);
      var failed;
      failed, inserts, done, shown := CollectOne(order, at, chain, seen, k, inserts, done, shown);
      if failed {
        FirstEmptyFixed(at, chain, k + 1);
        return MissingAnchor;
      }
    }
    var turns: seq<string> := [];
    for k := 0 to |chain|
      invariant turns == Merged(order, at, chain, seen, k)
    {
      HoldsAll(order, at, chain, seen, inserts, done, k);
      turns := turns + [chain[k]] + Entry(inserts, chain[k]);
    }
    r := Conversation(turns);
  }

  lemma NothingDone(order: seq<string>, at: Table, chain: seq<string>, seen: set<string>)
    ensures DoneIds(at, chain, 0, {}) && Holds(order, at, chain, seen, map[], {}) && ShownBy(at, seen, seen, {})
  {
  }

  lemma EmptyDone(at: Table, chain: seq<string>, k: nat, done: set<string>)
    requires k <= |chain| && DoneIds(at, chain, k, done)
    ensures "" in done <==> FirstEmpty(at, chain, k) >= 0
  {
    hide IdAt;
  }

  lemma {:induction false} FirstEmptyFixed(at: Table, chain: seq<string>, k: nat)
    requires k <= |chain| && FirstEmpty(at, chain, k) >= 0
    ensures FirstEmpty(at, chain, |chain|) == FirstEmpty(at, chain, k)
    decreases |chain| - k
  {
    hide IdAt;
    if k < |chain| {
      FirstEmptyFixed(at, chain, k + 1);
    }
  }

  // ----- main results

  lemma InsertedMeaning(order: seq<string>, at: Table, chain: seq<string>, seen: set<string>, k: nat, u: string)
    requires k < |chain|
    ensures u in InsertedAfter(order, at, chain, seen, k) <==>
      IsAnchor(at, chain, k) && u !in seen && u in order &&
      (Speaks(at, u, IdAt(at, chain, k).value)
       || exists m <- order :: Speaks(at, m, IdAt(at, chain, k).value) && Answers(at, u, m))
  {
    if IsAnchor(at, chain, k) {
      var members := Members(order, at, IdAt(at, chain, k).value, chain[k]);
      RecoveredMeaning(order, at, seen, members, u);
    }
  }

  lemma InsertedOwner(order: seq<string>, at: Table, chain: seq<string>, seen: set<string>, k: nat, u: string)
    requires k < |chain| && u in InsertedAfter(order, at, chain, seen, k)
    ensures OwnerId(at, u) == IdAt(at, chain, k) && u !in seen && IsAnchor(at, chain, k)
  {
    InsertedMeaning(order, at, chain, seen, k, u);
  }

  lemma InsertedDistinct(order: seq<string>, at: Table, chain: seq<string>, seen: set<string>, k: nat)
    requires k < |chain| && Distinct(order)
    ensures Distinct(InsertedAfter(order, at, chain, seen, k))
  {
    hide Recovered, Distinct;
    if IsAnchor(at, chain, k) {
      var id := IdAt(at, chain, k).value;
      MembersSpeak(order, at, id, chain[k]);
      RecoveredDistinct(order, at, seen, Members(order, at, id, chain[k]), id);
    } else {
      EmptyDistinct();
    }
  }

  lemma EmptyDistinct()
    ensures Distinct([])
  {
  }

  lemma AnchorsDistinct(at: Table, chain: seq<string>, j: nat, k: nat)
    requires j < k < |chain| && IsAnchor(at, chain, j) && IsAnchor(at, chain, k)
    ensures IdAt(at, chain, j) != IdAt(at, chain, k)
  {
    hide IdAt;
  }

  lemma {:induction false} MergedFrom(order: seq<string>, at: Table, chain: seq<string>, seen: set<string>, k: nat, u: string)
    requires k <= |chain| && u in Merged(order, at, chain, seen, k)
    ensures u in chain[..k] || exists j :: 0 <= j < k && u in InsertedAfter(order, at, chain, seen, j)
  {
    hide InsertedAfter;
    if k > 0 && u in Merged(order, at, chain, seen, k - 1) {
      MergedFrom(order, at, chain, seen, k - 1, u);
      assert chain[..k] == chain[..k - 1] + [chain[k - 1]];
    } else if k > 0 && u == chain[k - 1] {
      assert chain[..k][k - 1] == u;
    }
  }

  /** Nothing is shown twice. */
  lemma {:induction false} MergedDistinct(order: seq<string>, at: Table, chain: seq<string>, seen: set<string>, k: nat)
    requires k <= |chain| && Distinct(order) && Distinct(chain) && forall u <- chain :: u in seen
    ensures Distinct(Merged(order, at, chain, seen, k))
  {
    hide InsertedAfter;
    if k > 0 {
      var before, u, more := Merged(order, at, chain, seen, k - 1), chain[k - 1], InsertedAfter(order, at, chain, seen, k - 1);
      MergedDistinct(order, at, chain, seen, k - 1);
      InsertedDistinct(order, at, chain, seen, k - 1);
      forall v | v in before ensures v != u && v !in more {
        MergedFrom(order, at, chain, seen, k - 1, v);
        NotAgain(order, at, chain, seen, k - 1, v);
      }
      forall v | v in more ensures v != u {
        InsertedOwner(order, at, chain, seen, k - 1, v);
      }
      DistinctConcat(before, [u]);
      DistinctConcat(before + [u], more);
    }
  }

  lemma NotAgain(order: seq<string>, at: Table, chain: seq<string>, seen: set<string>, k: nat, v: string)
    requires k < |chain| && Distinct(chain) && forall u <- chain :: u in seen
    requires v in chain[..k] || exists j :: 0 <= j < k && v in InsertedAfter(order, at, chain, seen, j)
    ensures v != chain[k] && v !in InsertedAfter(order, at, chain, seen, k)
  {
    hide InsertedAfter, OwnerId, IdAt;
    if v in InsertedAfter(order, at, chain, seen, k) {
      InsertedOwner(order, at, chain, seen, k, v);
    }
    if v in chain[..k] {
      assert v in chain;
    } else {
      var j :| 0 <= j < k && v in InsertedAfter(order, at, chain, seen, j);
      InsertedOwner(order, at, chain, seen, j, v);
      assert chain[k] in chain;
      if IsAnchor(at, chain, k) {
        AnchorsDistinct(at, chain, j, k);
      }
    }
  }

  lemma {:induction false} SelectNone(s: seq<string>, p: string -> bool)
    requires forall u <- s :: !p(u)
    ensures Select(s, p) == []
  {
    if s != [] {
      SelectNone(s[1..], p);
    }
  }

  lemma SelectOne(u: string, p: string -> bool)
    requires p(u)
    ensures Select([u], p) == [u]
  {
  }

  /** Without what was inserted, the conversation is the chain, in order. */
  lemma {:induction false} MergedKeepsChain(order: seq<string>, at: Table, chain: seq<string>, seen: set<string>, k: nat)
    requires k <= |chain| && forall u <- chain :: u in seen
    ensures Select(Merged(order, at, chain, seen, k), u => u in seen) == chain[..k]
  {
    hide InsertedAfter, IdAt, Select;
    var p := u => u in seen;
    if k > 0 {
      var before, u, more := Merged(order, at, chain, seen, k - 1), chain[k - 1], InsertedAfter(order, at, chain, seen, k - 1);
      MergedKeepsChain(order, at, chain, seen, k - 1);
      SelectConcat(before + [u], more, p);
      SelectConcat(before, [u], p);
      forall v | v in more ensures v !in seen {
        InsertedOwner(order, at, chain, seen, k - 1, v);
      }
      SelectNone(more, p);
      assert u in chain;
      SelectOne(u, p);
      assert chain[..k] == chain[..k - 1] + [u] + [];
    } else {
      SelectNone([], p);
    }
  }

  // ----- what stands where in the merged conversation

  /** Records in the order of their timestamps. */
  ghost predicate Chronological(order: seq<string>, at: Table, s: seq<string>) {
    forall i, j :: 0 <= i < j < |s| ==> s[i] in at && s[j] in at && Earlier(order, at, s[i], s[j])
  }

  ghost predicate IsSibling(order: seq<string>, at: Table, seen: set<string>, id: string, u: string) {
    u in order && u !in seen && u in at && at[u].kind == AssistantKind && at[u].messageId == Some(id)
  }

  /** An off-chain tool result below some assistant of the message id. */
  ghost predicate IsResult(order: seq<string>, at: Table, seen: set<string>, id: string, u: string) {
    && u in order && u !in seen && u in at && at[u].kind == UserKind && at[u].toolResult
    && exists m <- order :: m in at && at[m].kind == AssistantKind && at[m].messageId == Some(id) && ParentOf(at[u]) == Some(m)
  }

  /** What one message id adds: its off-chain assistants, then the off-chain results
      below any of its assistants, each once and in the order of their timestamps. */
  ghost predicate Block(order: seq<string>, at: Table, seen: set<string>, id: string, siblings: seq<string>, results: seq<string>) {
    && Distinct(siblings) && Distinct(results)
    && Chronological(order, at, siblings) && Chronological(order, at, results)
    && (forall u :: u in siblings <==> IsSibling(order, at, seen, id, u))
    && (forall u :: u in results <==> IsResult(order, at, seen, id, u))
  }

  /** The record at `k` of the chain is its last assistant of the message id. */
  ghost predicate LastOfId(at: Table, chain: seq<string>, k: nat, id: string)
    requires k < |chain|
  {
    id != [] && IdAt(at, chain, k) == Some(id) && forall j :: k < j < |chain| ==> IdAt(at, chain, j) != Some(id)
  }

  lemma ChronologicalIs(order: seq<string>, at: Table, s: seq<string>)
    requires Distinct(order) && InOrder(order, at, s) && forall u <- s :: u in order && u in at
    ensures Chronological(order, at, s)
  {
    hide Before, Earlier;
    forall i, j | 0 <= i < j < |s| ensures s[i] in at && s[j] in at && Earlier(order, at, s[i], s[j]) {
      assert s[i] in s && s[j] in s;
      BeforeMeaning(order, at, s[i], s[j]);
    }
  }

  lemma SiblingsAre(order: seq<string>, at: Table, seen: set<string>, id: string, members: seq<string>, s: seq<string>)
    requires Distinct(order) && members == Select(order, u => Speaks(at, u, id))
    requires s == Select(members, u => u !in seen)
    ensures Distinct(s) && forall u :: u in s <==> IsSibling(order, at, seen, id, u)
  {
    hide Distinct, Select;
    forall u ensures u in s <==> IsSibling(order, at, seen, id, u) {
      assert u in s <==> u in members && u !in seen;
      assert u in members <==> u in order && Speaks(at, u, id);
    }
  }

  lemma ResultsAre(order: seq<string>, at: Table, seen: set<string>, id: string, members: seq<string>, s: seq<string>)
    requires Distinct(order) && members == Select(order, u => Speaks(at, u, id))
    requires s == Select(ResultsUnder(order, at, members), u => u !in seen)
    ensures Distinct(s) && forall u :: u in s <==> IsResult(order, at, seen, id, u)
  {
    hide Distinct, Select, ResultsUnder;
    ResultsDistinct(order, at, members);
    forall u ensures u in s <==> IsResult(order, at, seen, id, u) {
      ResultsMeaning(order, at, members, u);
    }
  }

  lemma BlockIs(order: seq<string>, at: Table, chain: seq<string>, seen: set<string>, k: nat, id: string)
    returns (siblings: seq<string>, results: seq<string>)
    requires Distinct(order) && k < |chain| && LastOfId(at, chain, k, id)
    ensures InsertedAfter(order, at, chain, seen, k) == siblings + results
    ensures Block(order, at, seen, id, siblings, results)
  {
    hide Chronological, Distinct, InOrder, IdAt, IsSibling, IsResult, Select, ResultsUnder, Sorted;
    var members := Select(order, u => Speaks(at, u, id));
    var a, b := Select(members, u => u !in seen), Select(ResultsUnder(order, at, members), u => u !in seen);
    siblings, results := Sorted(order, at, a), Sorted(order, at, b);
    assert members == Members(order, at, id, chain[k]);
    SiblingsAre(order, at, seen, id, members, a);
    ResultsAre(order, at, seen, id, members, b);
    SortedInOrder(order, at, a);
    SortedInOrder(order, at, b);
    GroupListed(order, at, seen, id);
    ChronologicalIs(order, at, siblings);
    ChronologicalIs(order, at, results);
  }

  lemma GroupListed(order: seq<string>, at: Table, seen: set<string>, id: string)
    ensures forall u :: IsSibling(order, at, seen, id, u) || IsResult(order, at, seen, id, u) ==> u in order && u in at
  {
  }

  lemma {:induction false} MergedPrefix(order: seq<string>, at: Table, chain: seq<string>, seen: set<string>, j: nat, k: nat)
    requires j <= k <= |chain|
    ensures Merged(order, at, chain, seen, j) <= Merged(order, at, chain, seen, k)
    decreases k
  {
    hide InsertedAfter;
    if j < k {
      MergedPrefix(order, at, chain, seen, j, k - 1);
    }
  }

  lemma MergedStep(order: seq<string>, at: Table, chain: seq<string>, seen: set<string>, k: nat)
    requires k < |chain|
    ensures Merged(order, at, chain, seen, 0) == []
    ensures Merged(order, at, chain, seen, k + 1)
         == Merged(order, at, chain, seen, k) + [chain[k]] + InsertedAfter(order, at, chain, seen, k)
  {
  }

  /** The merged conversation around chain record `k`: it stands at `start`, before it
      only what comes with the chain records before it, and after it up to `end`, where
      the next chain record stands or the conversation ends, nothing, or the block of its
      message id when it is the last assistant of that id. */
  lemma RecoveredPlaced(order: seq<string>, at: Table, chain: seq<string>, seen: set<string>, k: nat)
    returns (start: nat, mid: nat, end: nat)
    requires Distinct(order) && k < |chain|
    ensures var turns := Merged(order, at, chain, seen, |chain|);
      && start < mid <= end <= |turns| && turns[start] == chain[k] && (k == 0 ==> start == 0)
      && (if k + 1 < |chain| then end < |turns| && turns[end] == chain[k + 1] else end == |turns|)
      && (forall id :: LastOfId(at, chain, k, id) ==> Block(order, at, seen, id, turns[start + 1..mid], turns[mid..end]))
      && ((forall id :: !LastOfId(at, chain, k, id)) ==> end == start + 1)
  {
    hide Block, LastOfId, InsertedAfter, Merged, IdAt;
    var turns := Merged(order, at, chain, seen, |chain|);
    var inserted := InsertedAfter(order, at, chain, seen, k);
    start := |Merged(order, at, chain, seen, k)|;
    end := start + 1 + |inserted|;
    mid := end;
    MergedStep(order, at, chain, seen, k);
    MergedPrefix(order, at, chain, seen, k + 1, |chain|);
    if k + 1 < |chain| {
      MergedStep(order, at, chain, seen, k + 1);
      MergedPrefix(order, at, chain, seen, k + 2, |chain|);
    }
    MiddleOf(turns, Merged(order, at, chain, seen, k), chain[k], inserted);
    if id :| LastOfId(at, chain, k, id) {
      LastOfOne(at, chain, k, id);
      var siblings, results := BlockIs(order, at, chain, seen, k, id);
      mid := start + 1 + |siblings|;
      HalvesOf(turns, start + 1, siblings, results);
    } else {
      NothingInserted(order, at, chain, seen, k);
    }
  }

  lemma MiddleOf(turns: seq<string>, front: seq<string>, u: string, more: seq<string>)
    requires front + [u] + more <= turns
    ensures turns[|front|] == u && turns[|front| + 1..|front| + 1 + |more|] == more
  {
    var w := front + [u] + more;
    assert turns[..|w|] == w && w[|front|] == u && w[|front| + 1..] == more;
  }

  lemma HalvesOf(turns: seq<string>, at: nat, a: seq<string>, b: seq<string>)
    requires at + |a| + |b| <= |turns| && turns[at..at + |a| + |b|] == a + b
    ensures turns[at..at + |a|] == a && turns[at + |a|..at + |a| + |b|] == b
  {
    var w := turns[at..at + |a| + |b|];
    assert w[..|a|] == a && w[|a|..] == b;
  }

  lemma LastOfOne(at: Table, chain: seq<string>, k: nat, id: string)
    requires k < |chain| && LastOfId(at, chain, k, id)
    ensures forall other :: LastOfId(at, chain, k, other) ==> other == id
  {
    hide IdAt;
  }

  lemma NothingInserted(order: seq<string>, at: Table, chain: seq<string>, seen: set<string>, k: nat)
    requires k < |chain| && forall id :: !LastOfId(at, chain, k, id)
    ensures InsertedAfter(order, at, chain, seen, k) == []
  {
    hide IdAt;
    assert IsAnchor(at, chain, k) ==> LastOfId(at, chain, k, IdAt(at, chain, k).value);
  }

  /** Every off-chain sibling of a chain assistant with a message id, and every
      off-chain tool result below one of that group, is shown after the last chain
      assistant of the id, with no chain record in between. */
  lemma RecoversGroup(order: seq<string>, at: Table, chain: seq<string>, seen: set<string>, k: nat, id: string, u: string)
    returns (p: nat, q: nat)
    requires Distinct(order) && k < |chain| && IdAt(at, chain, k) == Some(id) && id != []
    requires IsSibling(order, at, seen, id, u) || IsResult(order, at, seen, id, u)
    ensures var j, turns := LastWith(at, chain, |chain|, id), Merged(order, at, chain, seen, |chain|);
      && k <= j && p < q < |turns| && turns[p] == chain[j] && turns[q] == u
      && forall i :: p < i <= q ==> turns[i] !in seen
  {
    hide IdAt, Block, IsSibling, IsResult, Merged;
    var j, turns := LastWith(at, chain, |chain|, id), Merged(order, at, chain, seen, |chain|);
    assert LastOfId(at, chain, j, id);
    var start, mid, end := RecoveredPlaced(order, at, chain, seen, j);
    var siblings, results := turns[start + 1..mid], turns[mid..end];
    BlockShows(order, at, seen, id, siblings, results, u);
    p, q := start, IndexIn(siblings + results, u) + start + 1;
    assert turns[start + 1..end] == siblings + results;
    forall i | p < i <= q ensures turns[i] !in seen {
      assert turns[i] == (siblings + results)[i - start - 1];
    }
  }

  lemma BlockShows(order: seq<string>, at: Table, seen: set<string>, id: string, siblings: seq<string>, results: seq<string>, u: string)
    requires Block(order, at, seen, id, siblings, results)
    requires IsSibling(order, at, seen, id, u) || IsResult(order, at, seen, id, u)
    ensures u in siblings + results && forall v <- siblings + results :: v !in seen
  {
    hide Chronological, Distinct;
  }

  function IndexIn(s: seq<string>, u: string): (k: nat)
    requires u in s
    ensures k < |s| && s[k] == u
  {
    if s[0] == u then 0 else 1 + IndexIn(s[1..], u)
  }

  /** The recovery fails exactly when the first chain assistant whose message
      id is the empty string has an off-chain tool result below it. */
  lemma FailsExactly(order: seq<string>, at: Table, chain: seq<string>, seen: set<string>)
    requires forall u <- chain :: u in seen
    ensures LacksAnchor(order, at, chain, seen) <==>
      var k := FirstEmpty(at, chain, |chain|);
      k >= 0 && exists u <- order :: u !in seen && Answers(at, u, chain[k])
  {
    hide IdAt, Recovered, Answers;
    var k := FirstEmpty(at, chain, |chain|);
    if k >= 0 {
      var rec := Recovered(order, at, seen, [chain[k]]);
      assert chain[k] in chain;
      forall u ensures u in rec <==> u in order && u !in seen && Answers(at, u, chain[k]) {
        RecoveredMeaning(order, at, seen, [chain[k]], u);
        assert forall m :: m in [chain[k]] <==> m == chain[k];
      }
      if rec != [] {
        assert rec[0] in rec;
      }
    }
  }

  /** One assistant with an empty message id on the chain, and a tool result below it
      off the chain: the recovery fails. */
  lemma EmptyIdFails(a: Record, r: Record)
    requires a.uuid != r.uuid && a.kind == AssistantKind && a.messageId == Some("")
    requires r.kind == UserKind && r.toolResult && ParentOf(r) == Some(a.uuid)
    ensures var order, at := [a.uuid, r.uuid], map[a.uuid := a, r.uuid := r];
      Distinct(order) && LacksAnchor(order, at, [a.uuid], {a.uuid})
  {
    var order, at, chain := [a.uuid, r.uuid], map[a.uuid := a, r.uuid := r], [a.uuid];
    assert IdAt(at, chain, 0) == Some("");
    assert FirstEmpty(at, chain, 0) == -1;
    assert FirstEmpty(at, chain, 1) == 0;
    assert r.uuid in order && Answers(at, r.uuid, chain[0]) by { assert order[1] == r.uuid; }
    hide LacksAnchor, FirstEmpty;
    FailsExactly(order, at, chain, {a.uuid});
  }
}
