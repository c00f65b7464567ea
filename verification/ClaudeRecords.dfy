/** Records of a Claude transcript and the insertion-ordered table of messages
    that the reader repairs in place. */
module ClaudeRecords {
  import opened Wrappers

  datatype Kind = UserKind | AssistantKind | SystemKind

  /** Ends of the stretch a compaction preserved; each may be missing. */
  datatype Segment = Segment(head: string, anchor: string, tail: string)

  /** `parent` and `logical` are the two parent fields: `None` where the field
      holds no string; the second may also be absent altogether. */
  datatype Record = Record(
    uuid: string,
    kind: Kind,
    boundary: bool,
    segment: Option<Segment>,
    parent: Option<string>,
    logical: Option<Option<string>>,
    removes: set<string>,
    messageId: Option<string>,
    toolResult: bool,
    timestamp: string)

  function NonEmpty(s: Option<string>): Option<string> {
    if s.Some? && s.value != [] then s else None
  }

  function ParentOf(r: Record): (p: Option<string>)
    ensures p.Some? ==> p.value != []
  {
    if NonEmpty(r.parent).Some? then NonEmpty(r.parent)
    else if r.logical.Some? then NonEmpty(r.logical.value)
    else None
  }

  function SetParent(r: Record, parent: Option<string>): (s: Record)
    ensures NonEmpty(parent) == parent ==> ParentOf(s) == parent
    ensures s.uuid == r.uuid && s.kind == r.kind && s.messageId == r.messageId
    ensures s.(parent := r.parent, logical := r.logical) == r && (s.logical.Some? <==> r.logical.Some?)
  {
    r.(parent := parent, logical := if r.logical.Some? then Some(parent) else None)
  }

  /** The first of the two fields wins when it holds a non-empty string. */
  lemma ParentFields(r: Record, u: string)
    ensures u != [] && r.parent == Some(u) ==> ParentOf(r) == Some(u)
    ensures u != [] && (r.parent.None? || r.parent == Some("")) && r.logical == Some(Some(u)) ==> ParentOf(r) == Some(u)
    ensures ParentOf(r) == Some(u) ==> u != [] && (r.parent == Some(u) || r.logical == Some(Some(u)))
  {
  }

  type Table = map<string, Record>

  ghost predicate Distinct(s: seq<string>) {
    forall i, j :: 0 <= i < j < |s| ==> s[i] != s[j]
  }

  /** The keys of a table in insertion order. */
  ghost predicate Lists(order: seq<string>, t: Table) {
    Distinct(order) && (forall u :: u in order <==> u in t) && forall u <- t :: t[u].uuid == u
  }

  /** `order` without the keys in `gone`. */
  function Without(order: seq<string>, gone: set<string>): (r: seq<string>)
    ensures forall u :: u in r <==> u in order && u !in gone
    ensures |r| <= |order|
  {
    if order == [] then []
    else (if order[0] in gone then [] else [order[0]]) + Without(order[1..], gone)
  }

  /** A key that stays moves up by the keys that go before it: the order is kept. */
  lemma {:induction false} WithoutAt(order: seq<string>, gone: set<string>, k: nat)
    requires k < |order| && order[k] !in gone
    ensures var n := |Without(order[..k], gone)|; n < |Without(order, gone)| && Without(order, gone)[n] == order[k]
  {
    hide Without;
    var a, b := order[..k], order[k..];
    WithoutSplit(a, b, gone);
    assert order == a + b;
    KeptFirst(b, gone);
  }

  lemma KeptFirst(order: seq<string>, gone: set<string>)
    requires order != [] && order[0] !in gone
    ensures Without(order, gone) != [] && Without(order, gone)[0] == order[0]
  {
  }

  lemma {:induction false} WithoutSplit(a: seq<string>, b: seq<string>, gone: set<string>)
    ensures Without(a + b, gone) == Without(a, gone) + Without(b, gone)
  {
    if a == [] {
      assert a + b == b;
    } else {
      assert (a + b)[1..] == a[1..] + b;
      WithoutSplit(a[1..], b, gone);
    }
  }

  lemma {:induction false} WithoutDistinct(order: seq<string>, gone: set<string>)
    requires Distinct(order)
    ensures Distinct(Without(order, gone))
  {
    if order != [] {
      assert Distinct(order[1..]) by {
        assert forall i :: 0 <= i < |order| - 1 ==> order[1..][i] == order[i + 1];
      }
      WithoutDistinct(order[1..], gone);
      var rest := Without(order[1..], gone);
      assert order[0] !in order[1..];
      assert order[0] !in rest;
    }
  }

  class Messages {
    var order: seq<string>
    var at: Table

    ghost predicate Valid()
      reads this
    {
      Lists(order, at)
    }

    constructor (order: seq<string>, at: Table)
      requires Lists(order, at)
      ensures Valid() && this.order == order && this.at == at
    {
      this.order := order;
      this.at := at;
    }

    /** Remove the entries of `gone`; the others keep their order. */
    method Pop(gone: set<string>)
      requires Valid()
      modifies this
      ensures Valid()
      ensures at == old(at) - gone && order == Without(old(order), gone)
    {
      WithoutDistinct(order, gone);
      order := Without(order, gone);
      at := at - gone;
    }

    /** Change the parent of one entry. */
    method Reparent(uuid: string, parent: Option<string>)
      requires Valid() && uuid in at
      modifies this`at
      ensures Valid() && at == old(at)[uuid := SetParent(old(at)[uuid], parent)]
    {
      at := at[uuid := SetParent(at[uuid], parent)];
    }
  }
}
