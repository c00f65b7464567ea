/** The conversation history shared by the compaction code: one item per
    system prompt, user message, model response or tool result. */
module Conversation {
  import opened Wrappers

  datatype Part = Text(text: string) | Image(url: string)

  /** Why the runtime synthesized a user item; the reasons compaction tells
      apart, and the rest by their wire name. */
  datatype Reason =
    | AgentMessage
    | CompactionMeta
    | SystemReminder
    | ProjectInstructions
    | OtherReason(name: string)

  datatype Call = Call(id: string, name: string, arguments: string)

  /** `extra` and `json` hold the wire form of the fields that compaction
      never looks at; `native` the one that precedes the tool calls. */
  datatype Item =
    | System(text: string)
    | User(parts: seq<Part>, reason: Option<Reason>, extra: string)
    | Assistant(text: string, native: string, calls: seq<Call>, extra: string)
    | ToolResult(id: string, text: string, isError: bool, images: seq<Part>)
    | Other(json: string)

  type History = seq<Item>

  function UserText(text: string): Item { User([Text(text)], None, "") }

  function Synthetic(text: string, reason: Reason): Item { User([Text(text)], Some(reason), "") }

  function CallIds(calls: seq<Call>): (ids: set<string>)
    ensures forall c <- calls :: c.id in ids
  {
    set c <- calls :: c.id
  }

  predicate Declares(item: Item, id: string) {
    item.Assistant? && exists c <- item.calls :: c.id == id
  }

  // ----- searching and filtering a history

  /** Index of the last item satisfying `p`. */
  function LastWhere(items: History, p: Item -> bool): (r: Option<nat>)
    ensures r.Some? ==> r.value < |items| && p(items[r.value])
    ensures r.Some? ==> forall k :: r.value < k < |items| ==> !p(items[k])
    ensures r.None? ==> forall k :: 0 <= k < |items| ==> !p(items[k])
  {
    if items == [] then None
    else if p(items[|items| - 1]) then Some(|items| - 1)
    else LastWhere(items[..|items| - 1], p)
  }

  ghost predicate NoneOf(items: History, p: Item -> bool) {
    forall k :: 0 <= k < |items| ==> !p(items[k])
  }

  function Keep(items: History, p: Item -> bool): (r: History)
    ensures forall k :: 0 <= k < |r| ==> p(r[k])
    ensures r == [] <==> NoneOf(items, p)
  {
    if items == [] then []
    else if p(items[0]) then [items[0]] + Keep(items[1..], p)
    else Keep(items[1..], p)
  }

  lemma {:induction false} KeepConcat(a: History, b: History, p: Item -> bool)
    ensures Keep(a + b, p) == Keep(a, p) + Keep(b, p)
  {
    if a == [] {
      assert a + b == b;
    } else {
      assert (a + b)[1..] == a[1..] + b;
      KeepConcat(a[1..], b, p);
    }
  }

  /** Padding without matches shifts the last match and keeps the matches. */
  lemma LastWherePadded(a: History, m: History, b: History, p: Item -> bool)
    requires NoneOf(a, p) && NoneOf(b, p)
    ensures LastWhere(a + m + b, p) ==
            match LastWhere(m, p) case None => None case Some(i) => Some(|a| + i)
    ensures Keep(a + m + b, p) == Keep(m, p)
  {
    hide LastWhere, Keep;
    KeepConcat(a + m, b, p);
    KeepConcat(a, m, p);
    LastWhereBefore(a + m, b, p);
    LastWhereAfter(a, m, p);
  }

  lemma {:induction false} LastWhereBefore(a: History, b: History, p: Item -> bool)
    requires NoneOf(b, p)
    ensures LastWhere(a + b, p) == LastWhere(a, p)
  {
    if b == [] {
      assert a + b == a;
    } else {
      var b' := b[..|b| - 1];
      assert (a + b)[..|a + b| - 1] == a + b';
      LastWhereBefore(a, b', p);
    }
  }

  lemma {:induction false} LastWhereAfter(a: History, m: History, p: Item -> bool)
    requires NoneOf(a, p)
    ensures LastWhere(a + m, p) == match LastWhere(m, p) case None => None case Some(i) => Some(|a| + i)
  {
    if m == [] {
      assert a + m == a;
      assert LastWhere(a, p).None?;
    } else {
      assert (a + m)[..|a + m| - 1] == a + m[..|m| - 1];
      LastWhereAfter(a, m[..|m| - 1], p);
    }
  }

  lemma WhereInPair(x: Item, y: Item, p: Item -> bool)
    ensures LastWhere([x, y], p) == if p(y) then Some(1) else if p(x) then Some(0) else None
    ensures LastWhere([x], p) == if p(x) then Some(0) else None
    ensures Keep([x, y], p) == (if p(x) then [x] else []) + (if p(y) then [y] else [])
    ensures Keep([x], p) == if p(x) then [x] else []
  {
    assert [x, y][..1] == [x] && [x][..0] == [];
    assert [x, y][1..] == [y] && [y][1..] == [] && [x][1..] == [];
  }
}
