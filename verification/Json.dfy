/** The JSON form of a history, as the serializer writes it: string escaping
    per section 7 of RFC 8259, absent optional fields left out. */
module Json {
  import opened Wrappers
  import opened Text
  import opened Conversation

  /** Characters the serializer may not write as themselves. */
  predicate MustEscape(c: char) { c == '\"' || c == '\\' || c as int < 0x20 }

  function EscapeChar(c: char): (s: string)
    ensures if MustEscape(c) then |s| >= 2 else s == [c]
  {
    if c == '\"' then "\\\""
    else if c == '\\' then "\\\\"
    else if c as int == 0x08 then "\\b"
    else if c as int == 0x09 then "\\t"
    else if c as int == 0x0A then "\\n"
    else if c as int == 0x0C then "\\f"
    else if c as int == 0x0D then "\\r"
    else if c as int < 0x20 then "\\u00" + [HexDigit(c as int / 16), HexDigit(c as int % 16)]
    else [c]
  }

  function Escape(s: string): string {
    if s == [] then [] else EscapeChar(s[0]) + Escape(s[1..])
  }

  function Quote(s: string): string { "\"" + Escape(s) + "\"" }

  function PartJson(p: Part): string {
    match p
    case Text(text) => "{\"type\":\"text\",\"text\":" + Quote(text) + "}"
    case Image(url) => "{\"type\":\"image\",\"url\":" + Quote(url) + "}"
  }

  function PartsJson(parts: seq<Part>): string {
    if parts == [] then []
    else if |parts| == 1 then PartJson(parts[0])
    else PartJson(parts[0]) + "," + PartsJson(parts[1..])
  }

  function CallJson(c: Call): string {
    "{\"id\":" + Quote(c.id) + ",\"name\":" + Quote(c.name) + ",\"arguments\":" + Quote(c.arguments) + "}"
  }

  function CallsJson(calls: seq<Call>): string {
    if calls == [] then []
    else if |calls| == 1 then CallJson(calls[0])
    else CallJson(calls[0]) + "," + CallsJson(calls[1..])
  }

  function ReasonName(r: Reason): string {
    match r
    case AgentMessage => "agent_message"
    case CompactionMeta => "compaction_meta"
    case SystemReminder => "system_reminder"
    case ProjectInstructions => "project_instructions"
    case OtherReason(name) => name
  }

  function ReasonJson(r: Option<Reason>): string {
    match r
    case None => ""
    case Some(reason) => ",\"synthetic_reason\":" + Quote(ReasonName(reason))
  }

  function ImagesJson(images: seq<Part>): string {
    if images == [] then "" else ",\"images\":[" + PartsJson(images) + "]"
  }

  function ResultHead(id: string): string { "{\"type\":\"tool_result\",\"tool_call_id\":" + Quote(id) + ",\"content\":" }

  function ErrorJson(isError: bool): string { if isError then ",\"is_error\":true" else "" }

  function ItemJson(item: Item): string {
    match item
    case System(text) => "{\"type\":\"system\",\"content\":" + Quote(text) + "}"
    case User(parts, reason, extra) =>
      "{\"type\":\"user\",\"content\":[" + PartsJson(parts) + "]" + (ReasonJson(reason) + extra + "}")
    case Assistant(text, native, calls, extra) =>
      "{\"type\":\"assistant\",\"content\":" + Quote(text) + native
      + (if calls == [] then "" else ",\"tool_calls\":[" + CallsJson(calls) + "]") + extra + "}"
    case ToolResult(id, text, isError, images) =>
      ResultHead(id) + Quote(text) + ErrorJson(isError) + ImagesJson(images) + "}"
    case Other(json) => json
  }

  function ItemsJson(items: History): string {
    if items == [] then []
    else if |items| == 1 then ItemJson(items[0])
    else ItemJson(items[0]) + "," + ItemsJson(items[1..])
  }

  function HistoryJson(items: History): string { "[" + ItemsJson(items) + "]" }

  // ----- sizes

  function Bytes(s: string): nat { Utf8Len(s) }

  /** Bytes of the escaped form of a string, quotes not counted. */
  function EscapedBytes(s: string): nat { Utf8Len(Escape(s)) }

  lemma {:induction false} EscapeConcat(a: string, b: string)
    ensures Escape(a + b) == Escape(a) + Escape(b)
  {
    if a == [] {
      assert a + b == b;
    } else {
      assert (a + b)[1..] == a[1..] + b;
      EscapeConcat(a[1..], b);
    }
  }

  lemma EscapedBytesConcat(a: string, b: string)
    ensures EscapedBytes(a + b) == EscapedBytes(a) + EscapedBytes(b)
  {
    EscapeConcat(a, b);
    Utf8LenConcat(Escape(a), Escape(b));
  }

  /** Escaping never shrinks a string, and keeps its size exactly when no
      character must be escaped. */
  lemma {:induction false} EscapedBytesMeaning(s: string)
    ensures EscapedBytes(s) >= Utf8Len(s)
    ensures EscapedBytes(s) == Utf8Len(s) <==> forall k :: 0 <= k < |s| ==> !MustEscape(s[k])
  {
    if s != [] {
      EscapedBytesMeaning(s[1..]);
      Utf8LenConcat(EscapeChar(s[0]), Escape(s[1..]));
      EscapeCharBytes(s[0]);
      assert s == [s[0]] + s[1..];
    }
  }

  lemma EscapeCharBytes(c: char)
    ensures if MustEscape(c) then Utf8Len(EscapeChar(c)) > Utf8Bytes(c) else Utf8Len(EscapeChar(c)) == Utf8Bytes(c)
  {
    var e := EscapeChar(c);
    LengthBelowBytes(e);
    if !MustEscape(c) {
      assert e[1..] == [];
    }
  }

  lemma {:induction false} LengthBelowBytes(s: string)
    ensures |s| <= Utf8Len(s)
  {
    if s != [] {
      LengthBelowBytes(s[1..]);
    }
  }
}
