/** What evicting images leaves of each item: which parts go, which stay and where,
    and what becomes of the text of a tool result. */
module EvictedItems {
  import opened Text
  import opened Conversation
  import opened Json
  import opened ImageBudget

  /** How many of the first `k` images of the history item `i` holds. */
  function Gone(c: History, k: nat, i: nat): nat
    requires i < |c|
  {
    var before := AllImages(c[..i]);
    if k <= before then 0 else Min(k - before, CountImages(ImageParts(c[i])))
  }

  /** Part `j` is one of the first `gone` images. */
  ghost predicate IsGone(parts: seq<Part>, gone: nat, j: nat)
    requires j < |parts|
  {
    parts[j].Image? && CountImages(parts[..j]) < gone
  }

  /** In a user message the first images give way to the placeholder, each in its place. */
  ghost predicate Replaced(was: seq<Part>, now: seq<Part>, gone: nat, text: string) {
    |now| == |was| && forall j :: 0 <= j < |was| ==> now[j] == if IsGone(was, gone, j) then Part.Text(text) else was[j]
  }

  /** In a tool result they are taken out, and what stays moves up by as many. */
  ghost predicate Removed(was: seq<Part>, now: seq<Part>, gone: nat) {
    |now| + gone == |was| && forall j :: 0 <= j < |was| && !IsGone(was, gone, j) ==> MovedUp(was, now, gone, j)
  }

  ghost predicate MovedUp(was: seq<Part>, now: seq<Part>, gone: nat, j: nat)
    requires j < |was|
  {
    var n := Min(gone, CountImages(was[..j]));
    n <= j && j - n < |now| && now[j - n] == was[j]
  }

  /** Text that mentions the lost images: as it was if it did already, and otherwise with
      the note after an empty line. */
  ghost predicate Noted(no: Notices, was: string, now: string) {
    && (Contains(was, no.tool) ==> now == was)
    && (!Contains(was, no.tool) ==> now == was + "\n\n" + no.tool)
  }

  ghost predicate ItemEvicted(no: Notices, was: Item, now: Item, gone: nat) {
    match was
    case User(parts, reason, extra) =>
      now.User? && now.reason == reason && now.extra == extra && Replaced(parts, now.parts, gone, no.placeholder)
    case ToolResult(id, text, isError, images) =>
      && now.ToolResult? && now.id == id && now.isError == isError && Removed(images, now.images, gone)
      && (if gone == 0 then now.text == text else Noted(no, text, now.text))
    case _ => now == was
  }

  /** One part put in front: a first image counts among those that go. */
  function Left(p: Part, k: nat): nat { if k > 0 && p.Image? then k - 1 else k }

  lemma CountFront(p: Part, rest: seq<Part>, k: nat, j: nat)
    requires j <= |rest|
    ensures CountImages(([p] + rest)[..j + 1]) == (if p.Image? then 1 else 0) + CountImages(rest[..j])
    ensures IsGone([p] + rest, k, 0) == (k > 0 && p.Image?)
    ensures j < |rest| ==> IsGone([p] + rest, k, j + 1) == IsGone(rest, Left(p, k), j)
  {
    assert ([p] + rest)[..j + 1] == [p] + rest[..j];
    assert ([p] + rest)[..0] == [];
    PartsCons(p, rest[..j], 0, "");
  }

  lemma {:induction false} ReplaceFirstIs(parts: seq<Part>, k: nat, text: string)
    ensures Replaced(parts, ReplaceFirst(parts, k, text), k, text)
  {
    hide ReplaceFirst, CountImages, IsGone, Left;
    if parts == [] {
      NothingToEvict(text, k);
    } else {
      var p, rest := parts[0], parts[1..];
      assert parts == [p] + rest;
      PartsCons(p, rest, k, text);
      ReplaceFirstIs(rest, Left(p, k), text);
      ReplacedFront(p, rest, ReplaceFirst(rest, Left(p, k), text), k, text);
      LeftIs(p, k);
    }
  }

  lemma LeftIs(p: Part, k: nat)
    ensures Left(p, k) == if k > 0 && p.Image? then k - 1 else k
  {
  }

  lemma ReplacedFront(p: Part, rest: seq<Part>, now: seq<Part>, k: nat, text: string)
    requires Replaced(rest, now, Left(p, k), text)
    ensures Replaced([p] + rest, [if k > 0 && p.Image? then Part.Text(text) else p] + now, k, text)
  {
    hide IsGone, CountImages, Left;
    var parts, all := [p] + rest, [if k > 0 && p.Image? then Part.Text(text) else p] + now;
    CountFront(p, rest, k, 0);
    forall j | 0 <= j < |parts| ensures all[j] == if IsGone(parts, k, j) then Part.Text(text) else parts[j] {
      if j > 0 {
        CountFront(p, rest, k, j - 1);
      }
    }
  }

  lemma NothingToEvict(text: string, k: nat)
    ensures ReplaceFirst([], k, text) == [] && RemoveFirst([], k) == []
    ensures CountImages([]) == 0
  {
  }

  lemma {:induction false} RemoveFirstIs(images: seq<Part>, k: nat)
    requires k <= CountImages(images)
    ensures Removed(images, RemoveFirst(images, k), k)
  {
    hide RemoveFirst, CountImages, Removed;
    if images == [] {
      NothingToEvict("", k);
      NothingRemoved(images);
    } else {
      var p, rest := images[0], images[1..];
      assert images == [p] + rest;
      PartsCons(p, rest, k, "");
      RemoveFirstIs(rest, Left(p, k));
      RemovedFront(p, rest, RemoveFirst(rest, Left(p, k)), k);
    }
  }

  lemma NothingRemoved(images: seq<Part>)
    requires images == []
    ensures Removed(images, [], 0)
  {
  }

  lemma RemovedFront(p: Part, rest: seq<Part>, now: seq<Part>, k: nat)
    requires Removed(rest, now, Left(p, k))
    ensures Removed([p] + rest, if k > 0 && p.Image? then now else [p] + now, k)
  {
    hide IsGone, CountImages, MovedUp;
    var images, all := [p] + rest, if k > 0 && p.Image? then now else [p] + now;
    CountFront(p, rest, k, 0);
    forall j | 0 <= j < |images| && !IsGone(images, k, j) ensures MovedUp(images, all, k, j) {
      if j == 0 {
        FirstStays(p, rest, all, k);
      } else {
        CountFront(p, rest, k, j - 1);
        MovedUpFront(p, rest, now, k, j - 1);
      }
    }
  }

  lemma FirstStays(p: Part, rest: seq<Part>, now: seq<Part>, k: nat)
    requires now != [] && now[0] == p
    ensures MovedUp([p] + rest, now, k, 0)
  {
    assert ([p] + rest)[..0] == [];
  }

  lemma MovedUpFront(p: Part, rest: seq<Part>, now: seq<Part>, k: nat, j: nat)
    requires j < |rest| && MovedUp(rest, now, Left(p, k), j)
    ensures MovedUp([p] + rest, if k > 0 && p.Image? then now else [p] + now, k, j + 1)
  {
    hide CountImages, IsGone;
    CountFront(p, rest, k, j);
  }

  lemma WithoutFirstIs(no: Notices, item: Item, k: nat)
    requires k <= CountImages(ImageParts(item))
    ensures ItemEvicted(no, item, WithoutFirst(no, item, k), k)
  {
    hide CountImages, ReplaceFirst, RemoveFirst, Replaced, Removed;
    match item
    case User(parts, _, _) =>
      ReplaceFirstIs(parts, k, no.placeholder);
      ReplaceNone(parts, no.placeholder);
    case ToolResult(_, text, _, images) =>
      RemoveFirstIs(images, k);
      RemoveNone(images);
      assert text + "\n\n" + no.tool == text + NoteSuffix(no);
    case _ =>
  }

  lemma {:induction false} WithoutOldestAt(no: Notices, c: History, k: nat, i: nat)
    requires i < |c|
    ensures |WithoutOldest(no, c, k)| == |c|
    ensures WithoutOldest(no, c, k)[i] == WithoutFirst(no, c[i], Gone(c, k, i))
  {
    hide WithoutFirst, CountImages, ImageParts;
    var n := CountImages(ImageParts(c[0]));
    OldestLength(no, c, k);
    if i > 0 {
      WithoutOldestAt(no, c[1..], k - Min(k, n), i - 1);
      assert c[..i][1..] == c[1..][..i - 1] && c[..i][0] == c[0];
      assert AllImages(c[..i]) == n + AllImages(c[1..][..i - 1]);
    } else {
      assert c[..0] == [];
    }
  }

  lemma {:induction false} OldestLength(no: Notices, c: History, k: nat)
    ensures |WithoutOldest(no, c, k)| == |c|
  {
    hide WithoutFirst, CountImages, ImageParts;
    if c != [] {
      OldestLength(no, c[1..], k - Min(k, CountImages(ImageParts(c[0]))));
    }
  }

  /** After `k` evictions every item lacks just those of the first `k` images that it
      held. A tool result that lost one mentions it. */
  lemma EvictedHistory(no: Notices, c: History, k: nat, i: nat)
    requires k <= AllImages(c) && i < |c|
    ensures ItemEvicted(no, c[i], Evict(no, c, k)[i], Gone(c, k, i))
    ensures c[i].ToolResult? && Gone(c, k, i) > 0 ==> Contains(Evict(no, c, k)[i].text, no.tool)
  {
    hide WithoutFirst, CountImages, Evict, Contains, WithoutOldest, AllImages, Removed, Replaced, ImageParts;
    EvictIsOldest(no, c, k);
    WithoutOldestAt(no, c, k, i);
    WithoutFirstIs(no, c[i], Gone(c, k, i));
    if c[i].ToolResult? {
      NoteMentions(no, c[i].text);
    }
  }

  lemma NoteMentions(no: Notices, text: string)
    ensures Contains(text + "\n\n" + no.tool, no.tool)
  {
    OccursInConcat(text + "\n\n", no.tool, "");
    assert text + "\n\n" + no.tool + "" == text + "\n\n" + no.tool;
  }

  /** No item before `i` has an image, and the first of item `i` is its part `n`. */
  ghost predicate FirstImageAt(c: History, i: nat, n: nat) {
    && i < |c| && n < |ImageParts(c[i])| && ImageParts(c[i])[n].Image?
    && (forall k :: 0 <= k < n ==> !ImageParts(c[i])[k].Image?)
    && forall j, k :: 0 <= j < i && 0 <= k < |ImageParts(c[j])| ==> !ImageParts(c[j])[k].Image?
  }

  lemma FirstImageIs(c: History, i: nat, n: nat)
    requires FirstImageAt(c, i, n)
    ensures FirstWithImage(c) == i && FirstImage(ImageParts(c[i])) == n
  {
    hide ImageParts;
    hide FirstImage;
    forall j | 0 <= j < i ensures !HasImage(c[j]) {
    }
    assert HasImage(c[i]);
  }

  /** How one eviction moves the estimate against the true size: for a user image down by
      what it falls short of the placeholder, for a tool result up by the brackets and the
      name of the array when that was its only image part, and otherwise not at all. */
  lemma EstimateMoves(no: Notices, c: History, i: nat, n: nat, running: nat) returns (moved: int)
    requires FirstImageAt(c, i, n) && running >= BodyBytes(c)
    ensures HasImage(c[i])
    ensures moved == (NextRunning(no, c[i], running) - BodyBytes(EvictOne(no, c))) - (running - BodyBytes(c))
    ensures c[i].User? ==>
      var image, text := 25 + EncodedUrlBytes(c[i].parts[n].url), Bytes(PartJson(Part.Text(no.placeholder)));
      moved == if image < text then image - text else 0
    ensures c[i].ToolResult? ==> moved == if |c[i].images| == 1 then 12 else 0
  {
    hide BodyBytes, NextRunning, EvictOne, FirstImage, EncodedUrlBytes, PartJson;
    FirstImageIs(c, i, n);
    EstimateDrift(no, c, running);
    moved := Drift(no, c[i]);
  }
}
