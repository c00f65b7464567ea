/** Keeping inline images within the request-size limit: a size measure that
    never scans base64 tails, and eviction of the oldest images first. */
module ImageBudget {
  import opened Wrappers
  import opened Text
  import opened Conversation
  import opened Json

  /** The text that stands in for an evicted user image, and the note added
      to a tool result that loses images. */
  datatype Notices = Notices(placeholder: string, tool: string)

  const PLACEHOLDER := P1 + P2 + P3 + P4 + P5 + P6

  const P1 := "[An earlier image was removed to keep "
  const P2 := "the request within its size limit and "
  const P3 := "is no longer visible. Do not describe "
  const P4 := "or reason about its contents from "
  const P5 := "memory; ask the user to re-share it "
  const P6 := "if you need to see it again.]"

  const TOOL_NOTE :=
    "[One or more images from this tool result were removed to keep the request within its size limit and are no longer visible. Do not describe or reason about their contents from memory.]"

  function StandardNotices(): Notices { Notices(PLACEHOLDER, TOOL_NOTE) }

  const MAX_REQUEST_BYTES := 50 * 1024 * 1024
  const TRIGGER_BYTES := MAX_REQUEST_BYTES - 3 * 1024 * 1024
  const RECLAIM_TARGET_BYTES := MAX_REQUEST_BYTES / 2

  // ----- measuring without scanning base64 tails

  predicate IsBase64Header(header: string) {
    && "data:" <= header
    && |header| >= |";base64"| && header[|header| - |";base64"|..] == ";base64"
  }

  /** Index of the comma before a base64 tail. */
  function TailComma(url: string): (r: Option<nat>)
    ensures r.Some? ==> r.value < |url| && url[r.value] == ','
  {
    match Find(url, ",")
    case None => None
    case Some(k) => if IsBase64Header(url[..k]) then OccursBounds(url, ",", k); Some(k) else None
  }

  function EncodedUrlBytes(url: string): nat {
    match TailComma(url)
    case None => EscapedBytes(url)
    case Some(k) => EscapedBytes(url[..k]) + 1 + Utf8Len(url[k + 1..])
  }

  /** A base64 tail holds no character that JSON must escape. */
  ghost predicate CleanUrl(url: string) {
    match TailComma(url)
    case None => true
    case Some(k) => forall j :: k < j < |url| ==> !MustEscape(url[j])
  }

  lemma EncodedUrlBytesMeaning(url: string)
    ensures EncodedUrlBytes(url) <= EscapedBytes(url)
    ensures EncodedUrlBytes(url) == EscapedBytes(url) <==> CleanUrl(url)
  {
    hide EscapedBytes, TailComma;
    match TailComma(url)
    case None =>
    case Some(k) =>
      var tail := url[k + 1..];
      assert url == url[..k] + [','] + tail;
      EscapedBytesConcat(url[..k], [',']);
      EscapedBytesConcat(url[..k] + [','], tail);
      CommaBytes();
      EscapedBytesMeaning(tail);
      assert forall j :: k < j < |url| ==> url[j] == tail[j - k - 1];
      assert forall j :: 0 <= j < |tail| ==> tail[j] == url[j + k + 1];
  }

  lemma CommaBytes()
    ensures EscapedBytes([',']) == 1
  {
    assert Escape([',']) == [','];
  }

  function BlankPart(p: Part): Part { if p.Image? then Image("") else p }

  function BlankParts(parts: seq<Part>): seq<Part> {
    if parts == [] then [] else [BlankPart(parts[0])] + BlankParts(parts[1..])
  }

  function UrlBytes(parts: seq<Part>): nat {
    if parts == [] then 0
    else (if parts[0].Image? then EncodedUrlBytes(parts[0].url) else 0) + UrlBytes(parts[1..])
  }

  /** The parts of an item that may hold images. */
  function ImageParts(item: Item): seq<Part> {
    match item
    case User(parts, _, _) => parts
    case ToolResult(_, _, _, images) => images
    case _ => []
  }

  function WithParts(item: Item, parts: seq<Part>): Item {
    match item
    case User(_, _, _) => item.(parts := parts)
    case ToolResult(_, _, _, _) => item.(images := parts)
    case _ => item
  }

  function BlankItem(item: Item): Item { WithParts(item, BlankParts(ImageParts(item))) }

  function BlankAll(c: History): History {
    if c == [] then [] else [BlankItem(c[0])] + BlankAll(c[1..])
  }

  function AllUrlBytes(c: History): nat {
    if c == [] then 0 else UrlBytes(ImageParts(c[0])) + AllUrlBytes(c[1..])
  }

  function BodyBytes(c: History): nat {
    Bytes(HistoryJson(BlankAll(c))) + AllUrlBytes(c)
  }

  lemma BlankPartsStep(parts: seq<Part>, k: nat)
    requires k < |parts|
    ensures BlankParts(parts[k..]) == [BlankPart(parts[k])] + BlankParts(parts[k + 1..])
    ensures UrlBytes(parts[k..]) == (if parts[k].Image? then EncodedUrlBytes(parts[k].url) else 0) + UrlBytes(parts[k + 1..])
  {
    hide BlankPart, EncodedUrlBytes;
    assert parts[k..][1..] == parts[k + 1..];
  }

  method BlankImageUrls(parts: seq<Part>, imageUrlBytes: nat) returns (blanked: seq<Part>, total: nat)
    ensures blanked == BlankParts(parts) && total == imageUrlBytes + UrlBytes(parts)
  {
    hide EncodedUrlBytes, BlankParts, UrlBytes;
    blanked, total := [], imageUrlBytes;
    assert parts[0..] == parts;
    for k := 0 to |parts|
      invariant blanked + BlankParts(parts[k..]) == BlankParts(parts)
      invariant total + UrlBytes(parts[k..]) == imageUrlBytes + UrlBytes(parts)
    {
      BlankPartsStep(parts, k);
      ghost var before := blanked;
      if parts[k].Image? {
        total := total + EncodedUrlBytes(parts[k].url);
        blanked := blanked + [Image("")];
      } else {
        blanked := blanked + [parts[k]];
      }
      assert blanked + BlankParts(parts[k + 1..]) == before + ([BlankPart(parts[k])] + BlankParts(parts[k + 1..]));
    }
    NoPartsBlank();
    assert parts[|parts|..] == [] && blanked + [] == blanked;
  }

  lemma NoPartsBlank()
    ensures BlankParts([]) == [] && UrlBytes([]) == 0
  {
  }

  lemma BlankAllStep(c: History, k: nat)
    requires k < |c|
    ensures BlankAll(c[k..]) == [BlankItem(c[k])] + BlankAll(c[k + 1..])
    ensures AllUrlBytes(c[k..]) == UrlBytes(ImageParts(c[k])) + AllUrlBytes(c[k + 1..])
  {
    hide BlankItem, UrlBytes, ImageParts;
    assert c[k..][1..] == c[k + 1..];
  }

  method ConversationBodyBytes(conversation: History) returns (bytes: nat)
    ensures bytes == BodyBytes(conversation)
  {
    hide HistoryJson, Bytes, BlankAll, AllUrlBytes, ImageParts, WithParts, BlankParts, UrlBytes;
    var blanked := new Item[|conversation|](k requires 0 <= k < |conversation| => conversation[k]);
    var imageUrlBytes: nat := 0;
    for k := 0 to |conversation|
      invariant forall j :: k <= j < |conversation| ==> blanked[j] == conversation[j]
      invariant blanked[..k] + BlankAll(conversation[k..]) == BlankAll(conversation)
      invariant imageUrlBytes + AllUrlBytes(conversation[k..]) == AllUrlBytes(conversation)
    {
      BlankAllStep(conversation, k);
      var item := blanked[k];
      var parts;
      parts, imageUrlBytes := BlankImageUrls(ImageParts(item), imageUrlBytes);
      blanked[k] := WithParts(item, parts);
      assert blanked[..k + 1] == blanked[..k] + [BlankItem(item)];
    }
    NothingBlank();
    assert blanked[..|conversation|] + [] == blanked[..] && conversation[|conversation|..] == [];
    bytes := Bytes(HistoryJson(blanked[..])) + imageUrlBytes;
  }

  lemma NothingBlank()
    ensures BlankAll([]) == [] && AllUrlBytes([]) == 0
  {
  }

  // ----- the measure, item by item

  const IMAGE_FRAME := "{\"type\":\"image\",\"url\":\"\"}"

  function ImagePartBytes(url: string): nat { |IMAGE_FRAME| + EncodedUrlBytes(url) }

  function PartBytes(p: Part): nat {
    match p
    case Text(_) => Bytes(PartJson(p))
    case Image(url) => ImagePartBytes(url)
  }

  function PartsBytes(parts: seq<Part>): nat {
    if parts == [] then 0
    else PartBytes(parts[0]) + (if |parts| == 1 then 0 else 1) + PartsBytes(parts[1..])
  }

  function ImagesBytes(images: seq<Part>): nat {
    if images == [] then 0 else 12 + PartsBytes(images)
  }

  /** Bytes of an item around its image parts. */
  function FrameBytes(item: Item): nat {
    match item
    case User(_, reason, extra) => 27 + Bytes(ReasonJson(reason) + extra + "}")
    case ToolResult(id, text, isError, _) => Bytes(ResultHead(id)) + 2 + EscapedBytes(text) + Bytes(ErrorJson(isError)) + 1
    case _ => Bytes(ItemJson(item))
  }

  function ItemBytes(item: Item): nat {
    FrameBytes(item) +
    match item
    case User(parts, _, _) => PartsBytes(parts)
    case ToolResult(_, _, _, images) => ImagesBytes(images)
    case _ => 0
  }

  function ItemsBytes(c: History): nat {
    if c == [] then 0 else ItemBytes(c[0]) + (if |c| == 1 then 0 else 1) + ItemsBytes(c[1..])
  }

  lemma Utf8LenConcat3(a: string, b: string, c: string)
    ensures Utf8Len(a + b + c) == Utf8Len(a) + Utf8Len(b) + Utf8Len(c)
  {
    Utf8LenConcat(a + b, c);
    Utf8LenConcat(a, b);
  }

  lemma TextJsonBytes(text: string)
    ensures Bytes(PartJson(Part.Text(text))) == 25 + EscapedBytes(text)
  {
    hide Utf8Len;
    var frame := "{\"type\":\"text\",\"text\":";
    QuoteBytes(text);
    AsciiLength(frame);
    AsciiLength("}");
    Utf8LenConcat3(frame, Quote(text), "}");
  }

  lemma QuoteBytes(s: string)
    ensures Bytes(Quote(s)) == 2 + EscapedBytes(s)
  {
    hide Escape;
    Utf8LenConcat3("\"", Escape(s), "\"");
    assert Utf8Len("\"") == 1;
  }

  // ----- the measure is the serialized size, exactly for clean URLs

  lemma ImageJsonBytes(url: string)
    ensures Bytes(PartJson(Image(url))) == |IMAGE_FRAME| + EscapedBytes(url)
  {
    hide Utf8Len, Quote, EscapedBytes;
    var open := "{\"type\":\"image\",\"url\":";
    AsciiLength(open);
    AsciiLength("}");
    QuoteBytes(url);
    Utf8LenConcat3(open, Quote(url), "}");
  }

  lemma PartsJsonBytes(p: Part, rest: seq<Part>)
    ensures Bytes(PartsJson([p] + rest)) == Bytes(PartJson(p)) + (if rest == [] then 0 else 1) + Bytes(PartsJson(rest))
  {
    hide PartJson;
    var parts := [p] + rest;
    assert parts[1..] == rest;
    Utf8LenConcat3(PartJson(p), ",", PartsJson(rest));
    assert Utf8Len(",") == 1;
  }

  function ExactUrlBytes(parts: seq<Part>): nat {
    if parts == [] then 0
    else (if parts[0].Image? then EscapedBytes(parts[0].url) else 0) + ExactUrlBytes(parts[1..])
  }

  lemma {:induction false} PartsMeasure(parts: seq<Part>)
    ensures Bytes(PartsJson(BlankParts(parts))) + UrlBytes(parts) == PartsBytes(parts)
    ensures Bytes(PartsJson(parts)) == Bytes(PartsJson(BlankParts(parts))) + ExactUrlBytes(parts)
  {
    hide PartJson, EncodedUrlBytes, EscapedBytes, Utf8Len, PartsJson;
    if parts == [] {
      NoPartsJson();
    } else {
      var p, rest := parts[0], parts[1..];
      assert parts == [p] + rest;
      PartsMeasure(rest);
      PartsJsonBytes(p, rest);
      PartsJsonBytes(BlankPart(p), BlankParts(rest));
      if p.Image? {
        ImageJsonBytes(p.url);
        ImageJsonBytes("");
        NothingEscaped();
      }
    }
  }

  lemma NoPartsJson()
    ensures Bytes(PartsJson([])) == 0 && Bytes("") == 0
  {
  }

  lemma NothingEscaped()
    ensures EscapedBytes("") == 0
  {
  }

  lemma {:induction false} UrlBytesExact(parts: seq<Part>)
    ensures UrlBytes(parts) <= ExactUrlBytes(parts)
    ensures UrlBytes(parts) == ExactUrlBytes(parts) <==> forall p <- parts :: p.Image? ==> CleanUrl(p.url)
  {
    hide EncodedUrlBytes, EscapedBytes, CleanUrl;
    if parts != [] {
      UrlBytesExact(parts[1..]);
      assert parts == [parts[0]] + parts[1..];
      if parts[0].Image? {
        EncodedUrlBytesMeaning(parts[0].url);
      }
    }
  }

  function InnerJsonBytes(item: Item): nat {
    match item
    case User(parts, _, _) => Bytes(PartsJson(parts))
    case ToolResult(_, _, _, images) => if images == [] then 0 else 12 + Bytes(PartsJson(images))
    case _ => 0
  }

  lemma ItemJsonBytes(item: Item)
    ensures Bytes(ItemJson(item)) == FrameBytes(item) + InnerJsonBytes(item)
  {
    hide Utf8Len, Quote, ReasonJson, PartsJson, ResultHead, ErrorJson, EscapedBytes;
    match item
    case User(parts, reason, extra) =>
      var open := "{\"type\":\"user\",\"content\":[";
      var close := ReasonJson(reason) + extra + "}";
      AsciiLength(open);
      AsciiLength("]");
      Utf8LenConcat3(open, PartsJson(parts), "]");
      Utf8LenConcat(open + PartsJson(parts) + "]", close);
    case ToolResult(id, text, isError, images) =>
      AsciiLength("}");
      QuoteBytes(text);
      ImagesJsonBytes(images);
      Utf8LenConcat3(ResultHead(id), Quote(text), ErrorJson(isError));
      Utf8LenConcat3(ResultHead(id) + Quote(text) + ErrorJson(isError), ImagesJson(images), "}");
    case _ =>
  }

  lemma ImagesJsonBytes(images: seq<Part>)
    ensures Bytes(ImagesJson(images)) == if images == [] then 0 else 12 + Bytes(PartsJson(images))
  {
    hide PartsJson, Utf8Len;
    AsciiLength("");
    var open := ",\"images\":[";
    AsciiLength(open);
    AsciiLength("]");
    Utf8LenConcat3(open, PartsJson(images), "]");
  }

  lemma ItemMeasure(item: Item)
    ensures Bytes(ItemJson(BlankItem(item))) + UrlBytes(ImageParts(item)) == ItemBytes(item)
    ensures Bytes(ItemJson(item)) == Bytes(ItemJson(BlankItem(item))) + ExactUrlBytes(ImageParts(item))
  {
    hide ItemJson, PartsJson, ReasonJson, ResultHead, ErrorJson, EscapedBytes, EncodedUrlBytes, Bytes, BlankPart;
    ItemJsonBytes(item);
    ItemJsonBytes(BlankItem(item));
    PartsMeasure(ImageParts(item));
  }

  lemma ItemsJsonBytes(item: Item, rest: History)
    ensures Bytes(ItemsJson([item] + rest)) == Bytes(ItemJson(item)) + (if rest == [] then 0 else 1) + Bytes(ItemsJson(rest))
  {
    hide ItemJson;
    var items := [item] + rest;
    assert items[1..] == rest;
    Utf8LenConcat3(ItemJson(item), ",", ItemsJson(rest));
    assert Utf8Len(",") == 1;
  }

  lemma HistoryJsonBytes(items: History)
    ensures Bytes(HistoryJson(items)) == 2 + Bytes(ItemsJson(items))
  {
    hide ItemsJson;
    Utf8LenConcat3("[", ItemsJson(items), "]");
    assert Utf8Len("[") == 1 && Utf8Len("]") == 1;
  }

  function AllExactUrlBytes(c: History): nat {
    if c == [] then 0 else ExactUrlBytes(ImageParts(c[0])) + AllExactUrlBytes(c[1..])
  }

  lemma {:induction false} ItemsMeasure(c: History)
    ensures Bytes(ItemsJson(BlankAll(c))) + AllUrlBytes(c) == ItemsBytes(c)
    ensures Bytes(ItemsJson(c)) == Bytes(ItemsJson(BlankAll(c))) + AllExactUrlBytes(c)
    ensures |BlankAll(c)| == |c|
  {
    hide ItemJson, BlankItem, ItemBytes, UrlBytes, ExactUrlBytes, ImageParts, Utf8Len, ItemsJson;
    if c == [] {
      NoItemsJson();
    } else {
      var item, rest := c[0], c[1..];
      assert c == [item] + rest;
      ItemsMeasure(rest);
      ItemMeasure(item);
      ItemsJsonBytes(item, rest);
      ItemsJsonBytes(BlankItem(item), BlankAll(rest));
    }
  }

  lemma NoItemsJson()
    ensures Bytes(ItemsJson([])) == 0
  {
  }

  ghost predicate CleanItem(item: Item) {
    forall p <- ImageParts(item) :: p.Image? ==> CleanUrl(p.url)
  }

  lemma {:induction false} AllUrlBytesExact(c: History)
    ensures AllUrlBytes(c) <= AllExactUrlBytes(c)
    ensures AllUrlBytes(c) == AllExactUrlBytes(c) <==> forall k :: 0 <= k < |c| ==> CleanItem(c[k])
  {
    hide UrlBytes, ExactUrlBytes, CleanUrl;
    if c != [] {
      AllUrlBytesExact(c[1..]);
      UrlBytesExact(ImageParts(c[0]));
      assert forall k :: 1 <= k < |c| ==> c[k] == c[1..][k - 1];
      assert forall k :: 0 <= k < |c| - 1 ==> c[1..][k] == c[k + 1];
    }
  }

  /** The blank-then-add-back measure never exceeds the serialized size and
      equals it exactly when every base64 tail is free of escapes. */
  lemma BodyBytesExact(c: History)
    ensures BodyBytes(c) <= Bytes(HistoryJson(c))
    ensures BodyBytes(c) == Bytes(HistoryJson(c)) <==> forall k :: 0 <= k < |c| ==> CleanItem(c[k])
    ensures BodyBytes(c) == 2 + ItemsBytes(c)
  {
    hide *;
    BodyBytesSum(c);
    HistoryJsonBytes(c);
    ItemsMeasure(c);
    AllUrlBytesExact(c);
  }

  lemma BodyBytesSum(c: History)
    ensures BodyBytes(c) == 2 + Bytes(ItemsJson(BlankAll(c))) + AllUrlBytes(c)
  {
    hide *;
    HistoryJsonBytes(BlankAll(c));
    BodyBytesIs(c);
  }

  lemma BodyBytesIs(c: History)
    ensures BodyBytes(c) == Bytes(HistoryJson(BlankAll(c))) + AllUrlBytes(c)
  {
  }

  // ----- evicting the oldest images

  datatype Location = UserPart(item: nat, part: nat) | ToolImage(item: nat)

  datatype Found = Found(location: Location, bytes: nat)

  function UserImages(item: nat, parts: seq<Part>, from: nat): seq<Found>
    requires from <= |parts|
    decreases |parts| - from
  {
    if from == |parts| then []
    else
      (if parts[from].Image? then [Found(UserPart(item, from), ImagePartBytes(parts[from].url))] else [])
      + UserImages(item, parts, from + 1)
  }

  function ToolImages(item: nat, images: seq<Part>): seq<Found> {
    if images == [] then []
    else
      (if images[0].Image? then [Found(ToolImage(item), ImagePartBytes(images[0].url))] else [])
      + ToolImages(item, images[1..])
  }

  function ItemImages(item: nat, it: Item): seq<Found> {
    match it
    case User(parts, _, _) => UserImages(item, parts, 0)
    case ToolResult(_, _, _, images) => ToolImages(item, images)
    case _ => []
  }

  /** Every image of the history from item `from` on, in conversation order. */
  function Images(c: History, from: nat): seq<Found>
    requires from <= |c|
    decreases |c| - from
  {
    if from == |c| then [] else ItemImages(from, c[from]) + Images(c, from + 1)
  }

  function FirstImage(parts: seq<Part>): (n: nat)
    ensures n <= |parts| && forall k :: 0 <= k < n ==> !parts[k].Image?
    ensures n < |parts| ==> parts[n].Image?
  {
    if parts == [] || parts[0].Image? then 0 else 1 + FirstImage(parts[1..])
  }

  function DropAt(parts: seq<Part>, n: nat): seq<Part>
    requires n < |parts|
  {
    parts[..n] + parts[n + 1..]
  }

  function NoteSuffix(no: Notices): string { "\n\n" + no.tool }

  function WithNote(no: Notices, text: string): string {
    if Find(text, no.tool).Some? then text else text + NoteSuffix(no)
  }

  /** The item after its first image is evicted. */
  function EvictFrom(no: Notices, item: Item): Item {
    match item
    case User(parts, _, _) =>
      var n := FirstImage(parts);
      if n == |parts| then item else item.(parts := parts[n := Part.Text(no.placeholder)])
    case ToolResult(_, text, _, images) =>
      var n := FirstImage(images);
      if n == |images| then item
      else item.(text := WithNote(no, text), images := DropAt(images, n))
    case _ => item
  }

  predicate HasImage(item: Item) { FirstImage(ImageParts(item)) < |ImageParts(item)| }

  function FirstWithImage(c: History): (n: nat)
    ensures n <= |c| && forall k :: 0 <= k < n ==> !HasImage(c[k])
    ensures n < |c| ==> HasImage(c[n])
  {
    if c == [] || HasImage(c[0]) then 0 else 1 + FirstWithImage(c[1..])
  }

  /** The history after its first image is evicted. */
  function EvictOne(no: Notices, c: History): (r: History)
    ensures |r| == |c|
  {
    var n := FirstWithImage(c);
    if n == |c| then c else c[n := EvictFrom(no, c[n])]
  }

  function Evict(no: Notices, c: History, k: nat): (r: History)
    ensures |r| == |c|
    decreases k
  {
    if k == 0 then c else Evict(no, EvictOne(no, c), k - 1)
  }

  function Less(a: nat, b: nat): nat { if a < b then 0 else a - b }

  function PlaceholderBytes(no: Notices): nat { Bytes(PartJson(Part.Text(no.placeholder))) }

  function FirstImageBytes(item: Item): nat
    requires HasImage(item)
  {
    ImagePartBytes(ImageParts(item)[FirstImage(ImageParts(item))].url)
  }

  /** The running estimate after the first image of `item` is evicted. */
  function NextRunning(no: Notices, item: Item, running: nat): nat
    requires HasImage(item)
  {
    var bytes := FirstImageBytes(item);
    match item
    case User(_, _, _) => Less(running, Less(bytes, PlaceholderBytes(no)))
    case ToolResult(_, text, _, images) =>
      Less(running, bytes + if |images| == 1 then 0 else 1)
      + if WithNote(no, text) == text then 0 else EscapedBytes(NoteSuffix(no))
  }

  /** How many images the loop evicts. */
  function EvictCount(no: Notices, c: History, running: nat, target: nat): (k: nat)
    decreases |Images(c, 0)|
  {
    var n := FirstWithImage(c);
    if running <= target || n == |c| then 0
    else
      FirstImageEvicted(no, c);
      1 + EvictCount(no, EvictOne(no, c), NextRunning(no, c[n], running), target)
  }

  // ----- the list of locations stays in step with the history

  lemma {:induction false} UserImagesSame(item: nat, a: seq<Part>, b: seq<Part>, from: nat)
    requires |a| == |b| && from <= |a| && forall k :: from <= k < |a| ==> a[k] == b[k]
    ensures UserImages(item, a, from) == UserImages(item, b, from)
    decreases |a| - from
  {
    hide ImagePartBytes;
    if from < |a| {
      UserImagesSame(item, a, b, from + 1);
    }
  }

  lemma {:induction false} UserImagesSkip(item: nat, parts: seq<Part>, from: nat, n: nat)
    requires from <= n <= |parts| && forall k :: from <= k < n ==> !parts[k].Image?
    ensures UserImages(item, parts, from) == UserImages(item, parts, n)
    decreases n - from
  {
    hide ImagePartBytes;
    if from < n {
      UserImagesSkip(item, parts, from + 1, n);
    }
  }

  lemma UserImageEvicted(item: nat, parts: seq<Part>, text: string)
    requires FirstImage(parts) < |parts|
    ensures var n := FirstImage(parts);
      UserImages(item, parts, 0) ==
      [Found(UserPart(item, n), ImagePartBytes(parts[n].url))] + UserImages(item, parts[n := Part.Text(text)], 0)
  {
    hide ImagePartBytes;
    var n := FirstImage(parts);
    var after := parts[n := Part.Text(text)];
    UserImagesSkip(item, parts, 0, n);
    UserImagesSkip(item, after, 0, n + 1);
    UserImagesSame(item, parts, after, n + 1);
  }

  lemma ToolImagesCons(item: nat, p: Part, rest: seq<Part>)
    ensures p.Image? ==> ToolImages(item, [p] + rest) == [Found(ToolImage(item), ImagePartBytes(p.url))] + ToolImages(item, rest)
    ensures !p.Image? ==> ToolImages(item, [p] + rest) == ToolImages(item, rest)
    ensures FirstImage([p] + rest) == if p.Image? then 0 else 1 + FirstImage(rest)
  {
    hide ImagePartBytes;
    assert ([p] + rest)[1..] == rest;
  }

  lemma DropAtCons(p: Part, rest: seq<Part>, n: nat)
    requires n < |rest|
    ensures DropAt([p] + rest, n + 1) == [p] + DropAt(rest, n)
  {
    assert ([p] + rest)[..n + 1] == [p] + rest[..n];
    assert ([p] + rest)[n + 2..] == rest[n + 1..];
  }

  lemma {:induction false} ToolImageEvicted(item: nat, images: seq<Part>)
    requires FirstImage(images) < |images|
    ensures var n := FirstImage(images);
      ToolImages(item, images) ==
      [Found(ToolImage(item), ImagePartBytes(images[n].url))] + ToolImages(item, DropAt(images, n))
    decreases |images|
  {
    var p, rest := images[0], images[1..];
    assert images == [p] + rest;
    ToolImagesCons(item, p, rest);
    if p.Image? {
      assert DropAt(images, 0) == rest;
    } else {
      hide ImagePartBytes, ToolImages, DropAt;
      var n := FirstImage(rest);
      ToolImageEvicted(item, rest);
      DropAtCons(p, rest, n);
      ToolImagesCons(item, p, DropAt(rest, n));
      assert images[n + 1] == rest[n];
    }
  }

  function FirstFound(item: nat, it: Item): Found
    requires HasImage(it)
  {
    var n := FirstImage(ImageParts(it));
    Found(if it.User? then UserPart(item, n) else ToolImage(item), FirstImageBytes(it))
  }

  lemma ItemImageEvicted(no: Notices, item: nat, it: Item)
    ensures HasImage(it) ==> ItemImages(item, it) == [FirstFound(item, it)] + ItemImages(item, EvictFrom(no, it))
    ensures !HasImage(it) ==> ItemImages(item, it) == []
  {
    hide ImagePartBytes, WithNote;
    match it
    case User(parts, _, _) =>
      if HasImage(it) {
        UserImageEvicted(item, parts, no.placeholder);
      } else {
        UserImagesSkip(item, parts, 0, |parts|);
      }
    case ToolResult(_, _, _, images) =>
      if HasImage(it) {
        ToolImageEvicted(item, images);
      } else {
        NoToolImages(item, images);
      }
    case _ =>
  }

  lemma {:induction false} NoToolImages(item: nat, images: seq<Part>)
    requires FirstImage(images) == |images|
    ensures ToolImages(item, images) == []
  {
    if images != [] {
      NoToolImages(item, images[1..]);
    }
  }

  lemma {:induction false} ImagesSkip(no: Notices, c: History, from: nat, n: nat)
    requires from <= n <= |c| && forall k :: from <= k < n ==> !HasImage(c[k])
    ensures Images(c, from) == Images(c, n)
    decreases n - from
  {
    hide ItemImages, HasImage;
    if from < n {
      ItemImageEvicted(no, from, c[from]);
      ImagesSkip(no, c, from + 1, n);
    }
  }

  lemma {:induction false} ImagesSame(a: History, b: History, from: nat)
    requires |a| == |b| && from <= |a| && forall k :: from <= k < |a| ==> a[k] == b[k]
    ensures Images(a, from) == Images(b, from)
    decreases |a| - from
  {
    hide ItemImages;
    if from < |a| {
      ImagesSame(a, b, from + 1);
    }
  }

  lemma ImagesAt(c: History, from: nat)
    requires from < |c|
    ensures Images(c, from) == ItemImages(from, c[from]) + Images(c, from + 1)
  {
  }

  /** Evicting the first image takes the first location off the list, and the
      item it points at still is what it was found to be. */
  lemma FirstImageEvicted(no: Notices, c: History)
    ensures var n := FirstWithImage(c);
      if n == |c| then Images(c, 0) == []
      else Images(c, 0) == [FirstFound(n, c[n])] + Images(EvictOne(no, c), 0)
  {
    hide *;
    var n := FirstWithImage(c);
    NoImagesAfter(c);
    ImagesSkip(no, c, 0, n);
    if n < |c| {
      var after := EvictOne(no, c);
      EvictOneAt(no, c);
      ItemImageEvicted(no, n, c[n]);
      ImagesSame(c, after, n + 1);
      ImagesSkip(no, after, 0, n);
      ImagesAt(c, n);
      ImagesAt(after, n);
      Regroup([FirstFound(n, c[n])], ItemImages(n, after[n]), Images(after, n + 1));
    }
  }

  lemma Regroup(a: seq<Found>, b: seq<Found>, c: seq<Found>)
    ensures (a + b) + c == a + (b + c)
  {
  }

  lemma EvictOneAt(no: Notices, c: History)
    requires FirstWithImage(c) < |c|
    ensures var n, after := FirstWithImage(c), EvictOne(no, c);
      && |after| == |c| && after[n] == EvictFrom(no, c[n])
      && (forall k :: 0 <= k < n ==> after[k] == c[k] && !HasImage(after[k]))
      && (forall k :: n < k < |c| ==> after[k] == c[k])
  {
    hide HasImage, EvictFrom;
  }

  lemma NoImagesAfter(c: History)
    ensures Images(c, |c|) == []
  {
  }

  // ----- the eviction loop

  /** One turn of the loop: neither arm meets an item of the wrong kind. */
  method EvictAt(no: Notices, conversation: array<Item>, found: Found, was: nat) returns (running: nat)
    requires FirstWithImage(conversation[..]) < conversation.Length
    requires found == FirstFound(FirstWithImage(conversation[..]), conversation[..][FirstWithImage(conversation[..])])
    modifies conversation
    ensures conversation[..] == EvictOne(no, old(conversation[..]))
    ensures running == NextRunning(no, old(conversation[..])[FirstWithImage(old(conversation[..]))], was)
  {
    hide FirstWithImage, PlaceholderBytes, EscapedBytes, NoteSuffix, FirstImage, ImagePartBytes, WithNote;
    ghost var n := FirstWithImage(conversation[..]);
    assert conversation[n] == conversation[..][n] && HasImage(conversation[n]);
    match found.location {
      case UserPart(item, part) =>
        match conversation[item] {
          case User(parts, _, _) =>
            conversation[item] := conversation[item].(parts := parts[part := Part.Text(no.placeholder)]);
            running := Less(was, Less(found.bytes, PlaceholderBytes(no)));
          case _ => assert false;
        }
      case ToolImage(item) =>
        match conversation[item] {
          case ToolResult(_, text, _, images) =>
            var index := FirstImage(images);
            var rest := DropAt(images, index);
            running := Less(was, found.bytes + if rest == [] then 0 else 1);
            var noted := WithNote(no, text);
            if noted != text {
              running := running + EscapedBytes(NoteSuffix(no));
            }
            conversation[item] := conversation[item].(text := noted, images := rest);
          case _ => assert false;
        }
    }
  }

  method EvictImagesToBudget(no: Notices, conversation: array<Item>, currentBytes: nat, targetBytes: nat)
    returns (evicted: nat)
    modifies conversation
    ensures evicted == EvictCount(no, old(conversation[..]), currentBytes, targetBytes)
    ensures conversation[..] == Evict(no, old(conversation[..]), evicted)
  {
    hide Images, FirstWithImage, FirstFound, NextRunning, EvictOne, HasImage;
    ghost var was := conversation[..];
    var images := Images(conversation[..], 0);
    var running: nat := currentBytes;
    evicted := 0;
    while evicted < |images| && running > targetBytes
      invariant evicted <= |images| && images[evicted..] == Images(conversation[..], 0)
      invariant Evict(no, was, evicted) == conversation[..]
      invariant evicted + EvictCount(no, conversation[..], running, targetBytes) == EvictCount(no, was, currentBytes, targetBytes)
      decreases |images| - evicted
    {
      ghost var now := conversation[..];
      FirstImageEvicted(no, now);
      assert images[evicted] == images[evicted..][0];
      running := EvictAt(no, conversation, images[evicted], running);
      EvictSnoc(no, was, evicted);
      evicted := evicted + 1;
      assert images[evicted..] == images[evicted - 1..][1..];
    }
    FirstImageEvicted(no, conversation[..]);
  }

  lemma {:induction false} EvictSnoc(no: Notices, c: History, k: nat)
    ensures Evict(no, c, k + 1) == EvictOne(no, Evict(no, c, k))
    decreases k
  {
    hide EvictOne;
    if k > 0 {
      EvictSnoc(no, EvictOne(no, c), k - 1);
    }
  }

  // ----- exactly the oldest images go

  /** `parts` with its first `k` images replaced by the placeholder. */
  function ReplaceFirst(parts: seq<Part>, k: nat, text: string): seq<Part> {
    if parts == [] || k == 0 then parts
    else if parts[0].Image? then [Part.Text(text)] + ReplaceFirst(parts[1..], k - 1, text)
    else [parts[0]] + ReplaceFirst(parts[1..], k, text)
  }

  /** `images` without its first `k` images; text parts stay. */
  function RemoveFirst(images: seq<Part>, k: nat): seq<Part> {
    if images == [] || k == 0 then images
    else if images[0].Image? then RemoveFirst(images[1..], k - 1)
    else [images[0]] + RemoveFirst(images[1..], k)
  }

  function CountImages(parts: seq<Part>): nat {
    if parts == [] then 0 else (if parts[0].Image? then 1 else 0) + CountImages(parts[1..])
  }

  /** An item without its first `k` images; a tool result that loses any
      carries the note once. */
  function WithoutFirst(no: Notices, item: Item, k: nat): Item {
    if k == 0 then item
    else
      match item
      case User(parts, _, _) => item.(parts := ReplaceFirst(parts, k, no.placeholder))
      case ToolResult(_, text, _, images) => item.(text := WithNote(no, text), images := RemoveFirst(images, k))
      case _ => item
  }

  function Min(a: nat, b: nat): nat { if a < b then a else b }

  /** A history without its first `k` images in conversation order. */
  function WithoutOldest(no: Notices, c: History, k: nat): History {
    if c == [] then []
    else
      var n := Min(k, CountImages(ImageParts(c[0])));
      [WithoutFirst(no, c[0], n)] + WithoutOldest(no, c[1..], k - n)
  }

  function AllImages(c: History): nat {
    if c == [] then 0 else CountImages(ImageParts(c[0])) + AllImages(c[1..])
  }

  lemma PartsCons(p: Part, rest: seq<Part>, k: nat, text: string)
    ensures ReplaceFirst([p] + rest, k, text) ==
            if k > 0 && p.Image? then [Part.Text(text)] + ReplaceFirst(rest, k - 1, text) else [p] + ReplaceFirst(rest, k, text)
    ensures RemoveFirst([p] + rest, k) ==
            if k > 0 && p.Image? then RemoveFirst(rest, k - 1) else [p] + RemoveFirst(rest, k)
    ensures CountImages([p] + rest) == (if p.Image? then 1 else 0) + CountImages(rest)
    ensures FirstImage([p] + rest) == if p.Image? then 0 else 1 + FirstImage(rest)
  {
    assert ([p] + rest)[1..] == rest;
  }

  lemma {:induction false} ReplaceOneMore(parts: seq<Part>, k: nat, text: string)
    requires FirstImage(parts) < |parts|
    ensures var after := parts[FirstImage(parts) := Part.Text(text)];
      && ReplaceFirst(after, k, text) == ReplaceFirst(parts, k + 1, text)
      && CountImages(after) + 1 == CountImages(parts)
    decreases |parts|
  {
    hide ReplaceFirst, CountImages, FirstImage;
    var p, rest := parts[0], parts[1..];
    assert parts == [p] + rest;
    PartsCons(p, rest, k + 1, text);
    if p.Image? {
      assert parts[0 := Part.Text(text)] == [Part.Text(text)] + rest;
      PartsCons(Part.Text(text), rest, k, text);
    } else {
      var n := FirstImage(rest);
      assert parts[n + 1 := Part.Text(text)] == [p] + rest[n := Part.Text(text)];
      ReplaceOneMore(rest, k, text);
      PartsCons(p, rest[n := Part.Text(text)], k, text);
    }
  }

  lemma {:induction false} RemoveOneMore(images: seq<Part>, k: nat)
    requires FirstImage(images) < |images|
    ensures var after := DropAt(images, FirstImage(images));
      && RemoveFirst(after, k) == RemoveFirst(images, k + 1)
      && CountImages(after) + 1 == CountImages(images)
    decreases |images|
  {
    hide RemoveFirst, CountImages, FirstImage, DropAt;
    var p, rest := images[0], images[1..];
    assert images == [p] + rest;
    PartsCons(p, rest, k + 1, "");
    if p.Image? {
      DropFirst(p, rest);
    } else {
      var n := FirstImage(rest);
      RemoveOneMore(rest, k);
      DropAtCons(p, rest, n);
      PartsCons(p, DropAt(rest, n), k, "");
    }
  }

  lemma DropFirst(p: Part, rest: seq<Part>)
    ensures DropAt([p] + rest, 0) == rest
  {
  }

  lemma {:induction false} CountMeaning(parts: seq<Part>)
    ensures CountImages(parts) > 0 <==> FirstImage(parts) < |parts|
  {
    if parts != [] {
      CountMeaning(parts[1..]);
    }
  }

  lemma NotedOnce(no: Notices, text: string)
    ensures WithNote(no, WithNote(no, text)) == WithNote(no, text)
  {
    if Find(text, no.tool).None? {
      OccursInConcat(text + "\n\n", no.tool, "");
      assert text + "\n\n" + no.tool + "" == text + NoteSuffix(no);
    }
  }

  lemma WithoutOneMore(no: Notices, item: Item, k: nat)
    requires HasImage(item)
    ensures WithoutFirst(no, EvictFrom(no, item), k) == WithoutFirst(no, item, k + 1)
    ensures CountImages(ImageParts(EvictFrom(no, item))) + 1 == CountImages(ImageParts(item))
  {
    hide WithNote, ReplaceFirst, RemoveFirst, FirstImage;
    match item
    case User(parts, _, _) =>
      ReplaceOneMore(parts, k, no.placeholder);
      ReplaceOneMore(parts, 0, no.placeholder);
      ReplaceNone(parts[FirstImage(parts) := Part.Text(no.placeholder)], no.placeholder);
    case ToolResult(_, text, _, images) =>
      NotedOnce(no, text);
      RemoveOneMore(images, k);
      RemoveOneMore(images, 0);
      RemoveNone(DropAt(images, FirstImage(images)));
  }

  lemma ReplaceNone(parts: seq<Part>, text: string)
    ensures ReplaceFirst(parts, 0, text) == parts
  {
  }

  lemma RemoveNone(parts: seq<Part>)
    ensures RemoveFirst(parts, 0) == parts
  {
  }

  lemma {:induction false} WithoutOldestStep(no: Notices, c: History, k: nat)
    requires FirstWithImage(c) < |c|
    ensures WithoutOldest(no, EvictOne(no, c), k) == WithoutOldest(no, c, k + 1)
    ensures AllImages(EvictOne(no, c)) + 1 == AllImages(c)
  {
    hide WithoutFirst, EvictFrom, ImageParts, CountImages;
    var n, after := FirstWithImage(c), EvictOne(no, c);
    CountMeaning(ImageParts(c[0]));
    if HasImage(c[0]) {
      WithoutOneMore(no, c[0], Min(k, CountImages(ImageParts(EvictFrom(no, c[0])))));
      assert after[1..] == c[1..];
    } else {
      assert after[1..] == EvictOne(no, c[1..]);
      WithoutOldestStep(no, c[1..], k);
    }
  }

  lemma {:induction false} NoImagesLeft(no: Notices, c: History)
    ensures AllImages(c) == 0 <==> FirstWithImage(c) == |c|
    ensures WithoutOldest(no, c, 0) == c
  {
    hide ImageParts, CountImages;
    if c != [] {
      CountMeaning(ImageParts(c[0]));
      NoImagesLeft(no, c[1..]);
      assert Min(0, CountImages(ImageParts(c[0]))) == 0;
    }
  }

  /** Evicting k times removes exactly the first k images of the history. */
  lemma {:induction false} EvictIsOldest(no: Notices, c: History, k: nat)
    requires k <= AllImages(c)
    ensures Evict(no, c, k) == WithoutOldest(no, c, k)
    ensures AllImages(Evict(no, c, k)) == AllImages(c) - k
    decreases k
  {
    hide EvictOne, WithoutOldest, AllImages;
    NoImagesLeft(no, c);
    if k > 0 {
      WithoutOldestStep(no, c, k - 1);
      EvictIsOldest(no, EvictOne(no, c), k - 1);
    }
  }

  // ----- the running estimate

  lemma {:induction false} PartsBytesReplace(parts: seq<Part>, n: nat, p: Part)
    requires n < |parts|
    ensures PartsBytes(parts[n := p]) == PartsBytes(parts) - PartBytes(parts[n]) + PartBytes(p)
    ensures PartBytes(parts[n]) <= PartsBytes(parts)
  {
    hide PartBytes;
    if n == 0 {
      assert parts[0 := p][1..] == parts[1..];
    } else {
      assert parts[n := p][1..] == parts[1..][n - 1 := p];
      PartsBytesReplace(parts[1..], n - 1, p);
    }
  }

  lemma {:induction false} PartsBytesRemove(parts: seq<Part>, n: nat)
    requires n < |parts|
    ensures PartsBytes(parts) == PartsBytes(parts[..n] + parts[n + 1..]) + PartBytes(parts[n]) + if |parts| == 1 then 0 else 1
  {
    hide PartBytes;
    var after := parts[..n] + parts[n + 1..];
    if n == 0 {
      assert after == parts[1..];
    } else {
      assert after[1..] == parts[1..][..n - 1] + parts[1..][n..];
      PartsBytesRemove(parts[1..], n - 1);
    }
  }

  lemma {:induction false} ItemsBytesReplace(c: History, n: nat, it: Item)
    requires n < |c|
    ensures ItemsBytes(c[n := it]) == ItemsBytes(c) - ItemBytes(c[n]) + ItemBytes(it)
    ensures ItemBytes(c[n]) <= ItemsBytes(c)
  {
    hide ItemBytes;
    if n == 0 {
      assert c[0 := it][1..] == c[1..];
    } else {
      assert c[n := it][1..] == c[1..][n - 1 := it];
      ItemsBytesReplace(c[1..], n - 1, it);
    }
  }

  /** How far one eviction moves the estimate above the true size: up by the
      array brackets an emptied tool result no longer needs, down when a user
      image was smaller than its placeholder. */
  function Drift(no: Notices, item: Item): int
    requires HasImage(item)
  {
    match item
    case User(_, _, _) =>
      if FirstImageBytes(item) >= PlaceholderBytes(no) then 0 else FirstImageBytes(item) - PlaceholderBytes(no)
    case ToolResult(_, _, _, images) => if |images| == 1 then 12 else 0
  }

  lemma ItemDrift(no: Notices, item: Item, running: nat)
    requires HasImage(item) && running >= ItemBytes(item)
    ensures NextRunning(no, item, running) - ItemBytes(EvictFrom(no, item)) == running - ItemBytes(item) + Drift(no, item)
  {
    hide PartBytes, PartsBytes, EscapedBytes, NoteSuffix, Bytes, ReasonJson, ErrorJson, ResultHead, FirstImage, EncodedUrlBytes, WithNote;
    var parts := ImageParts(item);
    var n := FirstImage(parts);
    ImageIsPart(parts, n);
    match item
    case User(_, _, _) =>
      PartsBytesReplace(parts, n, Part.Text(no.placeholder));
      PlaceholderIsPart(no);
    case ToolResult(_, text, _, _) =>
      PartsBytesRemove(parts, n);
      NoteBytes(no, text);
      NoPartsBytes();
  }

  lemma ImageIsPart(parts: seq<Part>, n: nat)
    requires n < |parts| && parts[n].Image?
    ensures PartBytes(parts[n]) == ImagePartBytes(parts[n].url)
  {
  }

  lemma PlaceholderIsPart(no: Notices)
    ensures PartBytes(Part.Text(no.placeholder)) == PlaceholderBytes(no)
  {
  }

  lemma NoPartsBytes()
    ensures PartsBytes([]) == 0
  {
  }

  lemma NoteBytes(no: Notices, text: string)
    ensures EscapedBytes(WithNote(no, text)) == EscapedBytes(text) + if WithNote(no, text) == text then 0 else EscapedBytes(NoteSuffix(no))
  {
    hide EscapedBytes, NoteSuffix;
    if WithNote(no, text) != text {
      EscapedBytesConcat(text, NoteSuffix(no));
    }
  }

  /** Conservation: the estimate minus the true size moves by the drift. */
  lemma EstimateDrift(no: Notices, c: History, running: nat)
    requires FirstWithImage(c) < |c| && running >= BodyBytes(c)
    ensures var item := c[FirstWithImage(c)];
      NextRunning(no, item, running) - BodyBytes(EvictOne(no, c)) == running - BodyBytes(c) + Drift(no, item)
  {
    hide ItemBytes, NextRunning, Drift, EvictFrom, BodyBytes, HasImage;
    var n := FirstWithImage(c);
    BodyBytesExact(c);
    BodyBytesExact(EvictOne(no, c));
    ItemsBytesReplace(c, n, EvictFrom(no, c[n]));
    ItemDrift(no, c[n], running);
  }

  // ----- main results

  /** No user image of the item is smaller than its placeholder. */
  ghost predicate LargeItem(no: Notices, item: Item) {
    item.User? ==> forall p <- item.parts :: p.Image? ==> ImagePartBytes(p.url) >= PlaceholderBytes(no)
  }

  ghost predicate LargeImages(no: Notices, c: History) {
    forall k :: 0 <= k < |c| ==> LargeItem(no, c[k])
  }

  lemma LargeStep(no: Notices, c: History)
    requires LargeImages(no, c) && FirstWithImage(c) < |c|
    ensures LargeImages(no, EvictOne(no, c)) && Drift(no, c[FirstWithImage(c)]) >= 0
  {
    hide LargeItem, EvictFrom, Drift, HasImage;
    var item := c[FirstWithImage(c)];
    assert LargeItem(no, item) && HasImage(item);
    LargeEvicted(no, item);
  }

  lemma LargeEvicted(no: Notices, item: Item)
    requires LargeItem(no, item) && HasImage(item)
    ensures LargeItem(no, EvictFrom(no, item)) && Drift(no, item) >= 0
  {
    hide ImagePartBytes, PlaceholderBytes, FirstImage, WithNote;
    if item.User? {
      var n := FirstImage(item.parts);
      assert item.parts[n] in item.parts;
      forall p | p in item.parts[n := Part.Text(no.placeholder)] && p.Image? ensures p in item.parts {
      }
    }
  }

  /** By how much a small image falls short of its placeholder. */
  function ImageShort(no: Notices, p: Part): nat {
    if p.Image? then Less(PlaceholderBytes(no), ImagePartBytes(p.url)) else 0
  }

  function PartsShort(no: Notices, parts: seq<Part>): nat {
    if parts == [] then 0 else ImageShort(no, parts[0]) + PartsShort(no, parts[1..])
  }

  /** The summed shortfall of the user images of a history. */
  function Short(no: Notices, c: History): nat {
    if c == [] then 0
    else (if c[0].User? then PartsShort(no, c[0].parts) else 0) + Short(no, c[1..])
  }

  lemma {:induction false} PartsLarge(no: Notices, parts: seq<Part>)
    ensures PartsShort(no, parts) == 0 <==> forall p <- parts :: p.Image? ==> ImagePartBytes(p.url) >= PlaceholderBytes(no)
  {
    hide ImagePartBytes, PlaceholderBytes;
    if parts != [] {
      PartsLarge(no, parts[1..]);
      assert parts == [parts[0]] + parts[1..];
    }
  }

  /** There is no shortfall exactly when no user image is small. */
  lemma {:induction false} LargeIsNoShort(no: Notices, c: History)
    ensures Short(no, c) == 0 <==> LargeImages(no, c)
  {
    hide ImagePartBytes, PlaceholderBytes, PartsShort;
    if c != [] {
      if c[0].User? {
        PartsLarge(no, c[0].parts);
      }
      LargeIsNoShort(no, c[1..]);
      assert LargeImages(no, c) <==> LargeItem(no, c[0]) && LargeImages(no, c[1..]) by {
        assert forall k :: 1 <= k < |c| ==> c[k] == c[1..][k - 1];
        assert forall k :: 0 <= k < |c| - 1 ==> c[1..][k] == c[k + 1];
      }
    }
  }

  lemma {:induction false} PartsShortReplace(no: Notices, parts: seq<Part>, n: nat, text: string)
    requires n < |parts|
    ensures PartsShort(no, parts[n := Part.Text(text)]) + ImageShort(no, parts[n]) == PartsShort(no, parts)
  {
    hide ImagePartBytes, PlaceholderBytes;
    if n == 0 {
      assert parts[0 := Part.Text(text)][1..] == parts[1..];
    } else {
      assert parts[n := Part.Text(text)][1..] == parts[1..][n - 1 := Part.Text(text)];
      PartsShortReplace(no, parts[1..], n - 1, text);
    }
  }

  function ItemShort(no: Notices, item: Item): nat {
    if item.User? then PartsShort(no, item.parts) else 0
  }

  lemma {:induction false} ShortReplace(no: Notices, c: History, n: nat, it: Item)
    requires n < |c|
    ensures Short(no, c[n := it]) + ItemShort(no, c[n]) == Short(no, c) + ItemShort(no, it)
  {
    hide PartsShort;
    if n == 0 {
      assert c[0 := it][1..] == c[1..];
    } else {
      assert c[n := it][1..] == c[1..][n - 1 := it];
      ShortReplace(no, c[1..], n - 1, it);
    }
  }

  lemma ItemShortEvicted(no: Notices, item: Item)
    requires HasImage(item)
    ensures Drift(no, item) + ItemShort(no, item) >= ItemShort(no, EvictFrom(no, item))
    ensures ItemShort(no, EvictFrom(no, item)) <= ItemShort(no, item)
  {
    hide ImagePartBytes, PlaceholderBytes, FirstImage, WithNote, PartsShort;
    if item.User? {
      PartsShortReplace(no, item.parts, FirstImage(item.parts), no.placeholder);
    }
  }

  /** What the estimate loses, the shortfall loses too. */
  lemma ShortStep(no: Notices, c: History)
    requires FirstWithImage(c) < |c|
    ensures Drift(no, c[FirstWithImage(c)]) + Short(no, c) >= Short(no, EvictOne(no, c))
    ensures Short(no, EvictOne(no, c)) <= Short(no, c)
  {
    hide Drift, EvictFrom, HasImage, Short, ItemShort;
    var n := FirstWithImage(c);
    ItemShortEvicted(no, c[n]);
    ShortReplace(no, c, n, EvictFrom(no, c[n]));
  }

  lemma NextRunningShift(no: Notices, item: Item, low: nat, high: nat)
    requires HasImage(item) && low <= high
    ensures NextRunning(no, item, high) - NextRunning(no, item, low) <= high - low
  {
    hide FirstImageBytes, PlaceholderBytes, EscapedBytes, WithNote, HasImage;
  }

  /** From an estimate below the true size too, one eviction loses no more than the drift. */
  lemma EstimateDriftAtLeast(no: Notices, c: History, running: nat)
    requires FirstWithImage(c) < |c|
    ensures var item := c[FirstWithImage(c)];
      NextRunning(no, item, running) - BodyBytes(EvictOne(no, c)) >= running - BodyBytes(c) + Drift(no, item)
  {
    hide BodyBytes, EvictOne, NextRunning, Drift, HasImage;
    var high := if running < BodyBytes(c) then BodyBytes(c) else running;
    EstimateDrift(no, c, high);
    NextRunningShift(no, c[FirstWithImage(c)], running, high);
  }

  /** The loop never runs out of images. */
  lemma {:induction false} EvictCountBound(no: Notices, c: History, running: nat, target: nat)
    ensures EvictCount(no, c, running, target) <= AllImages(c)
    decreases AllImages(c)
  {
    hide EvictOne, NextRunning, AllImages, Images;
    NoImagesLeft(no, c);
    var n := FirstWithImage(c);
    if running > target && n < |c| {
      WithoutOldestStep(no, c, 0);
      EvictCountBound(no, EvictOne(no, c), NextRunning(no, c[n], running), target);
    }
  }

  /** On any history the loop ends at most the shortfall above the target, or with
      no image left; `slack` is how far the estimate starts below the true size. */
  lemma {:induction false} EvictWithin(no: Notices, c: History, running: nat, target: nat, slack: nat)
    requires running + slack >= BodyBytes(c)
    ensures var after := Evict(no, c, EvictCount(no, c, running, target));
      BodyBytes(after) <= target + slack + Short(no, c) || AllImages(after) == 0
    decreases AllImages(c)
  {
    hide *;
    NoImagesLeft(no, c);
    EvictNone(no, c);
    EvictCountNone(no, c, running, target);
    var n := FirstWithImage(c);
    if running > target && n < |c| {
      HasFirst(c);
      var next, more := EvictOne(no, c), NextRunning(no, c[n], running);
      ShortStep(no, c);
      EstimateDriftAtLeast(no, c, running);
      WithoutOldestStep(no, c, 0);
      EvictWithin(no, next, more, target, slack + Short(no, c) - Short(no, next));
      EvictCountStep(no, c, running, target);
      EvictFurther(no, c, EvictCount(no, next, more, target));
    }
  }

  lemma HasFirst(c: History)
    requires FirstWithImage(c) < |c|
    ensures HasImage(c[FirstWithImage(c)])
  {
    hide HasImage;
  }

  lemma EvictFurther(no: Notices, c: History, k: nat)
    ensures Evict(no, c, k + 1) == Evict(no, EvictOne(no, c), k)
  {
  }

  /** From an estimate that is not below the true size, one eviction undercounts
      exactly when it replaces a user image that falls short of its placeholder
      by more than the estimate is ahead. */
  lemma EstimateUndercounts(no: Notices, c: History, running: nat)
    requires FirstWithImage(c) < |c| && running >= BodyBytes(c)
    ensures var item := c[FirstWithImage(c)];
      NextRunning(no, item, running) < BodyBytes(EvictOne(no, c)) <==>
      item.User? && FirstImageBytes(item) + (running - BodyBytes(c)) < PlaceholderBytes(no)
  {
    hide BodyBytes, EvictOne, NextRunning, FirstImageBytes, PlaceholderBytes, HasImage;
    var item := c[FirstWithImage(c)];
    EstimateDrift(no, c, running);
    OnlyItemsWithParts(item);
  }

  lemma OnlyItemsWithParts(item: Item)
    requires HasImage(item)
    ensures item.User? || item.ToolResult?
  {
  }

  datatype Outcome = Outcome(bodyBytes: nat, bodyBytesAfter: nat, inlineImages: nat, needsCompaction: bool, evicted: nat)

  /** Number of images the budget evicts. */
  function BudgetEvictions(no: Notices, c: History, trigger: nat, target: nat): nat {
    if BodyBytes(c) >= trigger && BodyBytes(c) > target then EvictCount(no, c, BodyBytes(c), target) else 0
  }

  function Budgeted(no: Notices, c: History, trigger: nat, target: nat): History {
    Evict(no, c, BudgetEvictions(no, c, trigger, target))
  }

  method ApplyImageBudgetWithLimits(no: Notices, items: array<Item>, trigger: nat, target: nat) returns (outcome: Outcome)
    modifies items
    ensures items[..] == Budgeted(no, old(items[..]), trigger, target)
    ensures outcome == Outcome(
      BodyBytes(old(items[..])), BodyBytes(items[..]), AllImages(old(items[..])),
      BodyBytes(old(items[..])) >= trigger, BudgetEvictions(no, old(items[..]), trigger, target))
  {
    hide BodyBytes, Evict, EvictCount, AllImages;
    ghost var was := items[..];
    var bodyBytes := ConversationBodyBytes(items[..]);
    var inlineImages := AllImages(items[..]);
    var needsCompaction := bodyBytes >= trigger;
    var evicted := 0;
    if needsCompaction && bodyBytes > target {
      evicted := EvictImagesToBudget(no, items, bodyBytes, target);
    }
    EvictNone(no, was);
    var after := bodyBytes;
    if evicted != 0 {
      after := ConversationBodyBytes(items[..]);
    }
    outcome := Outcome(bodyBytes, after, inlineImages, needsCompaction, evicted);
  }

  lemma EvictNone(no: Notices, c: History)
    ensures Evict(no, c, 0) == c
  {
  }

  lemma EvictCountNone(no: Notices, c: History, running: nat, target: nat)
    ensures EvictCount(no, c, running, target) == 0 <==> FirstWithImage(c) == |c| || running <= target
  {
  }

  /** What the budget leaves, for every history: the history itself below the trigger or
      within the target, and otherwise the history without its oldest images, at least one
      if it has any, and at most the shortfall of the small user images above the target
      unless no image is left. */
  lemma BudgetMeaning(no: Notices, c: History, trigger: nat, target: nat)
    ensures var k := BudgetEvictions(no, c, trigger, target);
      && k <= AllImages(c)
      && Budgeted(no, c, trigger, target) == WithoutOldest(no, c, k)
      && AllImages(Budgeted(no, c, trigger, target)) == AllImages(c) - k
      && (k == 0 <==> BodyBytes(c) < trigger || BodyBytes(c) <= target || AllImages(c) == 0)
      && (k == 0 ==> Budgeted(no, c, trigger, target) == c)
      && (BodyBytes(c) < trigger || BodyBytes(Budgeted(no, c, trigger, target)) <= target + Short(no, c) || k == AllImages(c))
  {
    hide BodyBytes, Evict, EvictCount, AllImages, WithoutOldest, Short;
    var k := BudgetEvictions(no, c, trigger, target);
    EvictNone(no, c);
    EvictCountBound(no, c, BodyBytes(c), target);
    EvictWithin(no, c, BodyBytes(c), target, 0);
    EvictIsOldest(no, c, k);
    EvictCountNone(no, c, BodyBytes(c), target);
    NoImagesLeft(no, c);
  }

  /** Applying the budget again evicts nothing more exactly when the first time
      ended below the trigger, at the target or without images; which it does
      when no user image is small, and when the shortfall leaves the trigger
      out of reach. */
  lemma BudgetSettles(no: Notices, c: History, trigger: nat, target: nat)
    ensures var again := Budgeted(no, c, trigger, target);
      && (BudgetEvictions(no, again, trigger, target) == 0 <==>
            BodyBytes(again) < trigger || BodyBytes(again) <= target || AllImages(again) == 0)
      && (LargeImages(no, c) || target + Short(no, c) < trigger ==>
            BudgetEvictions(no, again, trigger, target) == 0 && Budgeted(no, again, trigger, target) == again)
  {
    hide BodyBytes, Evict, EvictCount, LargeImages, AllImages, WithoutOldest, Short;
    var again := Budgeted(no, c, trigger, target);
    BudgetMeaning(no, c, trigger, target);
    EvictCountNone(no, again, BodyBytes(again), target);
    NoImagesLeft(no, again);
    EvictNone(no, again);
    EvictNone(no, c);
    LargeIsNoShort(no, c);
  }

  // ----- the serialized body

  ghost predicate AllClean(c: History) {
    forall i :: 0 <= i < |c| ==> CleanItem(c[i])
  }

  lemma CleanReplaced(parts: seq<Part>, after: seq<Part>)
    requires forall p <- after :: p.Image? ==> p in parts
    requires forall p <- parts :: p.Image? ==> CleanUrl(p.url)
    ensures forall p <- after :: p.Image? ==> CleanUrl(p.url)
  {
    hide CleanUrl;
  }

  lemma CleanEvicted(no: Notices, item: Item)
    requires CleanItem(item)
    ensures CleanItem(EvictFrom(no, item))
  {
    hide CleanUrl, WithNote, FirstImage;
    CleanReplaced(ImageParts(item), ImageParts(EvictFrom(no, item)));
  }

  lemma EvictOneClean(no: Notices, c: History)
    requires AllClean(c)
    ensures AllClean(EvictOne(no, c))
  {
    hide CleanItem, EvictFrom, HasImage;
    var n := FirstWithImage(c);
    if n < |c| {
      CleanEvicted(no, c[n]);
    }
  }

  lemma {:induction false} EvictClean(no: Notices, c: History, k: nat)
    requires AllClean(c)
    ensures AllClean(Evict(no, c, k))
    decreases k
  {
    hide AllClean, EvictOne;
    if k > 0 {
      EvictOneClean(no, c);
      EvictClean(no, EvictOne(no, c), k - 1);
    }
  }

  /** With clean URLs the bound is one on the serialized body itself. */
  lemma SerializedBudget(no: Notices, c: History, trigger: nat, target: nat)
    requires AllClean(c)
    ensures var after := Budgeted(no, c, trigger, target);
      Bytes(HistoryJson(c)) < trigger || Bytes(HistoryJson(after)) <= target + Short(no, c) || AllImages(after) == 0
  {
    hide BodyBytes, Evict, EvictCount, AllImages, WithoutOldest, Short, CleanItem, HistoryJson;
    var after := Budgeted(no, c, trigger, target);
    BudgetMeaning(no, c, trigger, target);
    EvictClean(no, c, BudgetEvictions(no, c, trigger, target));
    BodyBytesExact(c);
    BodyBytesExact(after);
  }

  // ----- the production limits

  /** No image part is smaller than its frame. */
  lemma {:induction false} PartsShortBound(no: Notices, parts: seq<Part>, most: nat)
    requires PlaceholderBytes(no) <= most + 25
    ensures PartsShort(no, parts) <= most * CountImages(parts)
  {
    hide PlaceholderBytes, EncodedUrlBytes;
    if parts != [] {
      PartsShortBound(no, parts[1..], most);
      var n := CountImages(parts[1..]);
      assert most * (1 + n) == most + most * n;
    }
  }

  lemma {:induction false} ShortBound(no: Notices, c: History, most: nat)
    requires PlaceholderBytes(no) <= most + 25
    ensures Short(no, c) <= most * AllImages(c)
  {
    hide ImagePartBytes, PlaceholderBytes, PartsShort, CountImages;
    if c != [] {
      var m, n := CountImages(ImageParts(c[0])), AllImages(c[1..]);
      if c[0].User? {
        PartsShortBound(no, c[0].parts, most);
      }
      ShortBound(no, c[1..], most);
      assert most * (m + n) == most * m + most * n;
      assert most * m >= 0;
    }
  }

  lemma {:induction false} EscapedBytesBound(s: string)
    ensures EscapedBytes(s) <= 6 * |s|
  {
    if s == [] {
    } else {
      assert s == [s[0]] + s[1..];
      EscapedBytesConcat([s[0]], s[1..]);
      EscapedCharBound(s[0]);
      EscapedBytesBound(s[1..]);
    }
  }

  lemma EscapedCharBound(c: char)
    ensures EscapedBytes([c]) <= 6
  {
    var e := EscapeChar(c);
    assert Escape([c]) == e + [] == e;
    if MustEscape(c) {
      forall i | 0 <= i < |e| ensures e[i] as int < 0x80 { }
      AsciiLength(e);
    } else {
      assert Utf8Len(e) == Utf8Bytes(c) + Utf8Len(e[1..]);
    }
  }

  lemma PlaceholderBound(no: Notices)
    ensures 25 + |no.placeholder| <= PlaceholderBytes(no) <= 25 + 6 * |no.placeholder|
  {
    TextJsonBytes(no.placeholder);
    EscapedBytesBound(no.placeholder);
    EscapedBytesMeaning(no.placeholder);
    LengthBelowBytes(no.placeholder);
  }

  predicate PlainText(s: string) {
    forall i :: 0 <= i < |s| ==> s[i] as int < 0x80 && !MustEscape(s[i])
  }

  lemma PlainBytes(s: string)
    requires PlainText(s)
    ensures EscapedBytes(s) == |s|
  {
    hide EscapedBytes, Utf8Len;
    AsciiLength(s);
    EscapedBytesMeaning(s);
  }

  lemma FirstPiece(s: string)
    requires s == P1
    ensures PlainText(s) && |s| == 38
  {
  }

  lemma SecondPiece(s: string)
    requires s == P2
    ensures PlainText(s) && |s| == 38
  {
  }

  lemma ThirdPiece(s: string)
    requires s == P3
    ensures PlainText(s) && |s| == 38
  {
  }

  lemma FourthPiece(s: string)
    requires s == P4
    ensures PlainText(s) && |s| == 34
  {
  }

  lemma FifthPiece(s: string)
    requires s == P5
    ensures PlainText(s) && |s| == 36
  {
  }

  lemma SixthPiece(s: string)
    requires s == P6
    ensures PlainText(s) && |s| == 29
  {
  }

  lemma PlainConcat(a: string, b: string)
    requires PlainText(a) && PlainText(b)
    ensures PlainText(a + b)
  {
  }

  lemma StandardPlaceholder(no: Notices)
    requires no == StandardNotices()
    ensures PlaceholderBytes(no) == 238
  {
    hide MustEscape, PlainText, EscapedBytes, Bytes;
    FirstPiece(P1);
    SecondPiece(P2);
    ThirdPiece(P3);
    FourthPiece(P4);
    FifthPiece(P5);
    SixthPiece(P6);
    PlainConcat(P1, P2);
    PlainConcat(P1 + P2, P3);
    PlainConcat(P1 + P2 + P3, P4);
    PlainConcat(P1 + P2 + P3 + P4, P5);
    PlainConcat(P1 + P2 + P3 + P4 + P5, P6);
    PlainBytes(no.placeholder);
    TextJsonBytes(no.placeholder);
  }

  /** Under the production limits a history whose shortfall stays below 22 MiB settles
      after one pass, below the trigger or without images; any history of up to
      108,303 images, small ones included, is one. */
  lemma ProductionSettles(no: Notices, c: History)
    requires no == StandardNotices()
    ensures RECLAIM_TARGET_BYTES < TRIGGER_BYTES < MAX_REQUEST_BYTES
    ensures AllImages(c) <= 108_303 ==> RECLAIM_TARGET_BYTES + Short(no, c) < TRIGGER_BYTES
    ensures RECLAIM_TARGET_BYTES + Short(no, c) < TRIGGER_BYTES ==>
      var after := Budgeted(no, c, TRIGGER_BYTES, RECLAIM_TARGET_BYTES);
      && (BodyBytes(after) < TRIGGER_BYTES || AllImages(after) == 0)
      && Budgeted(no, after, TRIGGER_BYTES, RECLAIM_TARGET_BYTES) == after
  {
    hide StandardNotices, PLACEHOLDER, TOOL_NOTE, BodyBytes, Evict, EvictCount, AllImages, Short, PlaceholderBytes, Budgeted;
    StandardPlaceholder(no);
    ShortBound(no, c, 213);
    if RECLAIM_TARGET_BYTES + Short(no, c) < TRIGGER_BYTES {
      SettlesBelow(no, c, TRIGGER_BYTES, RECLAIM_TARGET_BYTES);
    }
  }

  lemma SettlesBelow(no: Notices, c: History, trigger: nat, target: nat)
    requires target + Short(no, c) < trigger
    ensures var after := Budgeted(no, c, trigger, target);
      (BodyBytes(after) < trigger || AllImages(after) == 0) && Budgeted(no, after, trigger, target) == after
  {
    hide BodyBytes, Evict, EvictCount, AllImages, WithoutOldest, Short, LargeImages;
    BudgetMeaning(no, c, trigger, target);
    BudgetSettles(no, c, trigger, target);
    EvictNone(no, c);
  }

  // ----- where the estimate misleads

  lemma EmptyImageBytes()
    ensures ImagePartBytes("") == 25
  {
    assert TailComma("").None?;
    NothingEscaped();
  }

  /** An image without a URL is smaller than any placeholder that says something:
      replacing it undercounts. */
  lemma SmallImageUndercounts(no: Notices, c: History)
    requires no.placeholder != [] && c == [User([Image("")], None, "")]
    ensures FirstWithImage(c) == 0
    ensures NextRunning(no, c[0], BodyBytes(c)) < BodyBytes(EvictOne(no, c))
  {
    EmptyImageBytes();
    PlaceholderBound(no);
    assert FirstImage(c[0].parts) == 0;
    hide BodyBytes, EvictOne, NextRunning, ImagePartBytes, PlaceholderBytes;
    EstimateUndercounts(no, c, BodyBytes(c));
  }

  lemma OneUserEvicted(no: Notices, c: History, parts: seq<Part>, n: nat)
    requires c == [User(parts, None, "")] && FirstImage(parts) == n < |parts|
    ensures FirstWithImage(c) == 0 && HasImage(c[0])
    ensures EvictOne(no, c) == [User(parts[n := Part.Text(no.placeholder)], None, "")]
    ensures FirstImageBytes(c[0]) == ImagePartBytes(parts[n].url)
    ensures Short(no, c) == PartsShort(no, parts) && AllImages(c) == CountImages(parts)
  {
    hide ImagePartBytes, FirstImage, PartsShort, CountImages;
    assert c[1..] == [];
  }

  lemma ThreeParts(no: Notices, a: Part, b: Part, z: Part)
    ensures FirstImage([a, b, z]) == if a.Image? then 0 else if b.Image? then 1 else if z.Image? then 2 else 3
    ensures CountImages([a, b, z]) == (if a.Image? then 1 else 0) + (if b.Image? then 1 else 0) + if z.Image? then 1 else 0
    ensures PartsShort(no, [a, b, z]) == ImageShort(no, a) + ImageShort(no, b) + ImageShort(no, z)
  {
    hide ImageShort;
    var s, t, r := [a, b, z], [b, z], [z];
    assert s[1..] == t && t[1..] == r && r[1..] == [];
    assert FirstImage(r) == (if z.Image? then 0 else 1) && CountImages(r) == if z.Image? then 1 else 0;
    assert PartsShort(no, r) == ImageShort(no, z) && PartsShort(no, t) == ImageShort(no, b) + PartsShort(no, r);
    assert FirstImage(t) == if b.Image? then 0 else 1 + FirstImage(r);
    assert CountImages(t) == (if b.Image? then 1 else 0) + CountImages(r);
  }

  /** Replacing a user image changes size and estimate by its own bytes and the placeholder's. */
  lemma UserStep(no: Notices, c: History, parts: seq<Part>, n: nat, running: nat)
    requires c == [User(parts, None, "")] && FirstImage(parts) == n < |parts|
    ensures var bytes := ImagePartBytes(parts[n].url);
      && BodyBytes(EvictOne(no, c)) + bytes == BodyBytes(c) + PlaceholderBytes(no)
      && NextRunning(no, c[0], running) == Less(running, Less(bytes, PlaceholderBytes(no)))
  {
    OneUserEvicted(no, c, parts, n);
    hide BodyBytes, EvictOne, ImagePartBytes, PlaceholderBytes, FirstImage, FirstImageBytes, HasImage, EvictCount;
    var high := BodyBytes(c) + ImagePartBytes(parts[n].url);
    EstimateDrift(no, c, high);
  }

  lemma EvictCountStep(no: Notices, c: History, running: nat, target: nat)
    requires FirstWithImage(c) < |c| && HasImage(c[FirstWithImage(c)]) && running > target
    ensures EvictCount(no, c, running, target)
         == 1 + EvictCount(no, EvictOne(no, c), NextRunning(no, c[FirstWithImage(c)], running), target)
  {
    hide EvictOne, NextRunning, HasImage, FirstWithImage;
  }

  /** A small image before a large one and another after it: the loop stops at
      the target it believes in, above it in truth, with an image still there. */
  lemma MissedBehind(no: Notices, url: string, c: History, target: nat)
    requires no.placeholder != [] && ImagePartBytes(url) > PlaceholderBytes(no)
    requires c == [User([Image(""), Image(url), Image("")], None, "")]
    requires target + ImagePartBytes(url) == BodyBytes(c) + PlaceholderBytes(no)
    ensures EvictCount(no, c, BodyBytes(c), target) == 2
    ensures AllImages(Evict(no, c, 2)) == 1
    ensures BodyBytes(Evict(no, c, 2)) == target + PlaceholderBytes(no) - 25 > target
  {
    var p, e, u := Part.Text(no.placeholder), Image(""), Image(url);
    EmptyImageBytes();
    PlaceholderBound(no);
    hide *;
    var c1, c2 := EvictOne(no, c), EvictOne(no, EvictOne(no, c));
    ThreeParts(no, e, u, e);
    ThreeParts(no, p, u, e);
    ThreeParts(no, p, p, e);
    assert [e, u, e][0 := p] == [p, u, e] && [p, u, e][1 := p] == [p, p, e];
    OneUserEvicted(no, c, [e, u, e], 0);
    OneUserEvicted(no, c1, [p, u, e], 1);
    OneUserEvicted(no, c2, [p, p, e], 2);
    UserStep(no, c, [e, u, e], 0, BodyBytes(c));
    UserStep(no, c1, [p, u, e], 1, BodyBytes(c));
    EvictCountStep(no, c, BodyBytes(c), target);
    EvictCountStep(no, c1, BodyBytes(c), target);
    EvictCountNone(no, c2, target, target);
    EvictSnoc(no, c, 1);
    EvictSnoc(no, c, 0);
    EvictNone(no, c);
    Subtraction(BodyBytes(c), ImagePartBytes(url), PlaceholderBytes(no));
  }

  /** A URL long enough to outweigh the placeholder. */
  function LongUrl(no: Notices): (url: string)
    ensures |url| == 6 * |no.placeholder| + 1 && forall i :: 0 <= i < |url| ==> url[i] == 'a'
  {
    seq(6 * |no.placeholder| + 1, _ => 'a')
  }

  lemma LongUrlBytes(no: Notices, url: string)
    requires url == LongUrl(no)
    ensures ImagePartBytes(url) == 25 + |url| > PlaceholderBytes(no)
  {
    hide EscapedBytes, PlaceholderBytes;
    PlainBytes(url);
    PlaceholderBound(no);
    assert TailComma(url).None? by {
      if Find(url, ",").Some? {
        OccursChar(url, ",", Find(url, ",").value, 0);
      }
    }
  }

  /** Three images, a small one, a large one and a small one: for some target the
      loop stops above it with an image still there. */
  lemma TargetMissed(no: Notices, c: History) returns (target: nat)
    requires no.placeholder != [] && c == [User([Image(""), Image(LongUrl(no)), Image("")], None, "")]
    ensures EvictCount(no, c, BodyBytes(c), target) == 2
    ensures AllImages(Evict(no, c, 2)) == 1
    ensures BodyBytes(Evict(no, c, 2)) == target + PlaceholderBytes(no) - 25 > target
  {
    var url := LongUrl(no);
    LongUrlBytes(no, url);
    hide *;
    SecondInBody(c, Image(""), url, Image(""));
    target := BodyBytes(c) + PlaceholderBytes(no) - ImagePartBytes(url);
    MissedBehind(no, url, c, target);
  }

  lemma SecondInBody(c: History, a: Part, url: string, z: Part)
    requires c == [User([a, Image(url), z], None, "")]
    ensures BodyBytes(c) >= ImagePartBytes(url)
  {
    var parts := [a, Image(url), z];
    hide BodyBytes, ImagePartBytes, PartsBytes, FrameBytes;
    BodyBytesExact(c);
    ItemsBytesReplace(c, 0, c[0]);
    PartsBytesReplace(parts, 1, a);
    ImageIsPart(parts, 1);
  }

  lemma Subtraction(a: nat, b: nat, p: nat)
    ensures Less(a, Less(25, p)) == if p >= 25 then a else Less(a, 25 - p)
    ensures b >= p && a + p >= b ==> Less(a, Less(b, p)) == a + p - b
  {
  }
}
