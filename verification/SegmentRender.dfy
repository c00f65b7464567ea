/** The verbatim section of a segment document: whole turns up to a byte cap,
    then a notice saying how many were left out. `preamble` is everything before
    the turns; `turns` the text each turn renders to. */
module SegmentRender {
  import opened Text

  const SEGMENT_MAX_BYTES: nat := 512 * 1024
  const PER_TURN_OVERHEAD_BYTES: nat := 64

  const NOTICE_OPEN := "\n\n[... TRUNCATED at "
  const LIMIT_SLOT := "{limit}"
  const NOTICE_MIDDLE := " bytes, "
  const OMITTED_SLOT := "{omitted}"
  const NOTICE_CLOSE := " turns omitted ...]\n"
  const TRUNCATION_NOTICE := NOTICE_OPEN + LIMIT_SLOT + NOTICE_MIDDLE + OMITTED_SLOT + NOTICE_CLOSE

  /** The notice with its two slots filled in. */
  function Notice(omitted: nat): string {
    NOTICE_OPEN + Decimal(SEGMENT_MAX_BYTES) + NOTICE_MIDDLE + Decimal(omitted) + NOTICE_CLOSE
  }

  /** Bytes left for turns after the preamble, the notice and its slack. */
  function Budget(preamble: string): nat {
    var reserved := Utf8Len(preamble) + Utf8Len(TRUNCATION_NOTICE) + PER_TURN_OVERHEAD_BYTES;
    if reserved < SEGMENT_MAX_BYTES then SEGMENT_MAX_BYTES - reserved else 0
  }

  function Bytes(turns: seq<string>): nat {
    if turns == [] then 0 else Bytes(turns[..|turns| - 1]) + Utf8Len(turns[|turns| - 1])
  }

  function Join(turns: seq<string>): string {
    if turns == [] then ""
    else if |turns| == 1 then turns[0]
    else Join(turns[..|turns| - 1]) + ("\n" + turns[|turns| - 1])
  }

  /** `k` turns are kept: they fit, and one more would not. */
  ghost predicate Keeps(turns: seq<string>, budget: nat, k: nat) {
    k <= |turns| && Bytes(turns[..k]) <= budget && (k < |turns| ==> Bytes(turns[..k + 1]) > budget)
  }

  lemma {:induction false} BytesGrow(turns: seq<string>, j: nat, k: nat)
    requires j <= k <= |turns|
    ensures Bytes(turns[..j]) <= Bytes(turns[..k])
    decreases k
  {
    if j < k {
      BytesGrow(turns, j, k - 1);
      assert turns[..k][..k - 1] == turns[..k - 1];
    }
  }

  /** The kept turns are the longest prefix that fits, so there is only one such count. */
  lemma KeepsLongest(turns: seq<string>, budget: nat, k: nat, j: nat)
    requires Keeps(turns, budget, k) && j <= |turns|
    ensures Bytes(turns[..j]) <= budget <==> j <= k
    ensures Keeps(turns, budget, j) ==> j == k
  {
    if j <= k {
      BytesGrow(turns, j, k);
    } else {
      BytesGrow(turns, k + 1, j);
    }
    if j < k {
      BytesGrow(turns, j + 1, k);
    }
  }

  /** What the document says when `k` turns are kept. */
  function Document(preamble: string, turns: seq<string>, k: nat): string
    requires k <= |turns|
  {
    preamble + (Join(turns[..k]) + if k < |turns| then Notice(|turns| - k) else "")
  }

  method RenderTurns(preamble: string, turns: seq<string>) returns (doc: string)
    ensures exists k :: Keeps(turns, Budget(preamble), k) && doc == Document(preamble, turns, k)
  {
    hide Utf8Len, Notice;
    var budget := Budget(preamble);
    var blocks: seq<string> := [];
    var used := 0;
    var truncatedAt := -1;
    var i := 0;
    while i < |turns|
      invariant i <= |turns| && blocks == turns[..i] && used == Bytes(turns[..i]) <= budget
      invariant truncatedAt == -1
    {
      var block := turns[i];
      assert turns[..i + 1][..i] == turns[..i];
      if used + Utf8Len(block) > budget {
        truncatedAt := i;
        break;
      }
      used := used + Utf8Len(block);
      blocks := blocks + [block];
      i := i + 1;
    }
    var body := Join(blocks);
    if truncatedAt >= 0 {
      var omitted := |turns| - truncatedAt;
      body := body + Notice(omitted);
    } else {
      assert body + "" == body;
    }
    doc := preamble + body;
    assert Keeps(turns, budget, i) && doc == Document(preamble, turns, i);
  }

  // ----- sizes

  /** One separator between every two kept turns. */
  function Separators(k: nat): nat { if k == 0 then 0 else k - 1 }

  lemma {:induction false} JoinBytes(turns: seq<string>)
    ensures Utf8Len(Join(turns)) == Bytes(turns) + Separators(|turns|)
  {
    hide Utf8Len;
    if |turns| == 0 {
      AsciiLength("");
    } else if |turns| == 1 {
      assert Bytes(turns[..0]) == 0;
    } else {
      var before, last := turns[..|turns| - 1], turns[|turns| - 1];
      JoinBytes(before);
      Utf8LenConcat(Join(before), "\n" + last);
      Utf8LenConcat("\n", last);
      AsciiLength("\n");
    }
  }

  /** A turn stands whole in the joined text, behind those before it, with one newline
      in front of every turn but the first. */
  lemma {:induction false} JoinAt(turns: seq<string>, k: nat)
    requires k < |turns|
    ensures var at := if k == 0 then 0 else |Join(turns[..k])| + 1;
      && at + |turns[k]| <= |Join(turns)| && Join(turns)[at..at + |turns[k]|] == turns[k]
      && (k > 0 ==> Join(turns)[at - 1] == '\n')
      && (k == |turns| - 1 ==> at + |turns[k]| == |Join(turns)|)
  {
    if |turns| > 1 {
      var before, last := turns[..|turns| - 1], turns[|turns| - 1];
      if k < |before| {
        assert before[..k] == turns[..k];
        JoinAt(before, k);
      }
    }
  }

  /** The document in full: preamble, the kept turns, and the notice with the cap and the
      number of turns left out when there are any. */
  lemma DocumentText(preamble: string, turns: seq<string>, k: nat)
    requires k <= |turns|
    ensures Document(preamble, turns, k) == preamble + Join(turns[..k]) +
      if k < |turns| then "\n\n[... TRUNCATED at 524288 bytes, " + Decimal(|turns| - k) + " turns omitted ...]\n" else ""
  {
    hide Join, Notice, Decimal;
    NoticeIs(|turns| - k);
    var body, notice := Join(turns[..k]), if k < |turns| then Notice(|turns| - k) else "";
    assert preamble + (body + notice) == preamble + body + notice;
  }

  lemma NoticeIs(omitted: nat)
    ensures Notice(omitted) == "\n\n[... TRUNCATED at 524288 bytes, " + Decimal(omitted) + " turns omitted ...]\n"
  {
    CapText();
    hide Decimal;
    NoticeText(Decimal(omitted));
  }

  lemma CapText()
    ensures Decimal(SEGMENT_MAX_BYTES) == "524288"
  {
    assert Decimal(5) == "5";
    assert Decimal(52) == "52";
    assert Decimal(524) == "524";
    assert Decimal(5242) == "5242";
    assert Decimal(52428) == "52428";
    assert Decimal(524288) == "524288";
  }

  lemma NoticeText(many: string)
    ensures NOTICE_OPEN + "524288" + NOTICE_MIDDLE + many + NOTICE_CLOSE
         == "\n\n[... TRUNCATED at 524288 bytes, " + many + " turns omitted ...]\n"
  {
    assert NOTICE_OPEN + "524288" + NOTICE_MIDDLE == "\n\n[... TRUNCATED at 524288 bytes, ";
  }

  lemma NoticeBytes(omitted: nat)
    ensures Utf8Len(Notice(omitted)) == 54 + |Decimal(omitted)|
    ensures Utf8Len(TRUNCATION_NOTICE) == 64
  {
    var limit, many := Decimal(SEGMENT_MAX_BYTES), Decimal(omitted);
    hide Decimal, Utf8Len, Utf8Bytes;
    LimitDigits();
    FixedParts(NOTICE_OPEN, LIMIT_SLOT, NOTICE_MIDDLE, OMITTED_SLOT, NOTICE_CLOSE);
    DigitsAscii(limit);
    DigitsAscii(many);
    FiveParts(NOTICE_OPEN, limit, NOTICE_MIDDLE, many, NOTICE_CLOSE);
    FiveParts(NOTICE_OPEN, LIMIT_SLOT, NOTICE_MIDDLE, OMITTED_SLOT, NOTICE_CLOSE);
  }

  /** The turns get what preamble, notice and slack leave of the cap. */
  lemma BudgetIs(preamble: string)
    ensures Budget(preamble) == if Utf8Len(preamble) + 128 < 524288 then 524288 - 128 - Utf8Len(preamble) else 0
  {
    hide Utf8Len, Notice;
    NoticeBytes(0);
  }

  lemma FiveParts(a: string, b: string, c: string, d: string, e: string)
    ensures Utf8Len(a + b + c + d + e) == Utf8Len(a) + Utf8Len(b) + Utf8Len(c) + Utf8Len(d) + Utf8Len(e)
  {
    hide Utf8Len;
    Utf8LenConcat(a, b);
    Utf8LenConcat(a + b, c);
    Utf8LenConcat(a + b + c, d);
    Utf8LenConcat(a + b + c + d, e);
  }

  lemma LimitDigits()
    ensures |Decimal(SEGMENT_MAX_BYTES)| == 6
  {
    assert Pow10(5) == 100000 && Pow10(6) == 1000000;
    DecimalLength(SEGMENT_MAX_BYTES, 5);
    DecimalLength(SEGMENT_MAX_BYTES, 6);
  }

  lemma FixedParts(open: string, limit: string, middle: string, omitted: string, close: string)
    requires open == NOTICE_OPEN && limit == LIMIT_SLOT && middle == NOTICE_MIDDLE
    requires omitted == OMITTED_SLOT && close == NOTICE_CLOSE
    ensures Utf8Len(open) == 20 && Utf8Len(limit) == 7 && Utf8Len(middle) == 8
    ensures Utf8Len(omitted) == 9 && Utf8Len(close) == 20
  {
    hide *;
    OpenBytes(open);
    SlotBytes(limit, omitted);
    MiddleBytes(middle);
    CloseBytes(close);
  }

  lemma OpenBytes(s: string)
    requires s == NOTICE_OPEN
    ensures Utf8Len(s) == 20
  {
    hide Utf8Len, Utf8Bytes;
    AsciiLength(s);
  }

  lemma MiddleBytes(s: string)
    requires s == NOTICE_MIDDLE
    ensures Utf8Len(s) == 8
  {
    hide Utf8Len, Utf8Bytes;
    AsciiLength(s);
  }

  lemma CloseBytes(s: string)
    requires s == NOTICE_CLOSE
    ensures Utf8Len(s) == 20
  {
    hide Utf8Len, Utf8Bytes;
    AsciiLength(s);
  }

  lemma SlotBytes(s: string, t: string)
    requires s == LIMIT_SLOT && t == OMITTED_SLOT
    ensures Utf8Len(s) == 7 && Utf8Len(t) == 9
  {
    hide Utf8Len, Utf8Bytes;
    AsciiLength(s);
    AsciiLength(t);
  }

  /** The exact size of a rendered document, and its bound: the cap, plus one
      byte per separator, which the budget never charges. */
  lemma DocumentBytes(preamble: string, turns: seq<string>, k: nat)
    requires Keeps(turns, Budget(preamble), k)
    ensures Utf8Len(Document(preamble, turns, k))
         == Utf8Len(preamble) + Bytes(turns[..k]) + Separators(k)
            + if k < |turns| then 54 + |Decimal(|turns| - k)| else 0
    ensures Utf8Len(preamble) + 64 + PER_TURN_OVERHEAD_BYTES <= SEGMENT_MAX_BYTES && |turns| < Pow10(74)
            ==> Utf8Len(Document(preamble, turns, k)) <= SEGMENT_MAX_BYTES + Separators(k)
  {
    var body := Join(turns[..k]);
    var notice := if k < |turns| then Notice(|turns| - k) else "";
    hide Utf8Len, Decimal, Notice, Pow10, Join, Bytes;
    JoinBytes(turns[..k]);
    Utf8LenConcat(body, notice);
    Utf8LenConcat(preamble, body + notice);
    NoticeBytes(|turns| - k);
    DecimalLength(|turns| - k, 74);
    AsciiLength("");
  }

  lemma {:induction false} OneByteTurns(turns: seq<string>)
    requires forall i :: 0 <= i < |turns| ==> Utf8Len(turns[i]) == 1
    ensures Bytes(turns) == |turns|
  {
    hide Utf8Len;
    if turns != [] {
      OneByteTurns(turns[..|turns| - 1]);
    }
  }

  /** The cap itself does not hold: as many one-byte turns as the budget admits
      outgrow it whenever the budget is over the reserve. */
  lemma CapExceeded(preamble: string, turns: seq<string>)
    requires Utf8Len(preamble) + 64 + PER_TURN_OVERHEAD_BYTES <= SEGMENT_MAX_BYTES
    requires forall i :: 0 <= i < |turns| ==> Utf8Len(turns[i]) == 1
    requires |turns| == Budget(preamble) > 0
    ensures Keeps(turns, Budget(preamble), |turns|)
    ensures Utf8Len(Document(preamble, turns, |turns|)) > SEGMENT_MAX_BYTES
       <==> Budget(preamble) > 64 + PER_TURN_OVERHEAD_BYTES + 1
  {
    hide Utf8Len, Document, Bytes;
    OneByteTurns(turns);
    assert turns[..|turns|] == turns;
    assert Keeps(turns, Budget(preamble), |turns|);
    DocumentBytes(preamble, turns, |turns|);
    NoticeBytes(0);
  }
}
