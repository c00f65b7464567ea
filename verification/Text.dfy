/** String search, replacement and trimming as the compaction code uses them.
    A string is a sequence of Unicode scalar values; where the source counts
    UTF-8 bytes, `Utf8Len` does. */
module Text {
  import opened Wrappers

  // ----- occurrences

  predicate OccursAt(s: string, p: string, i: int) {
    0 <= i <= |s| - |p| && forall k :: 0 <= k < |p| ==> s[i + k] == p[k]
  }

  ghost predicate Contains(s: string, p: string) {
    exists i :: OccursAt(s, p, i)
  }

  lemma OccursBounds(s: string, p: string, i: int)
    requires OccursAt(s, p, i)
    ensures 0 <= i && i + |p| <= |s|
  {
  }

  lemma OccursChar(s: string, p: string, i: int, k: nat)
    requires k < |p|
    ensures OccursAt(s, p, i) ==> 0 <= i + k < |s| && s[i + k] == p[k]
  {
  }

  /** Leftmost occurrence at or after `k`. */
  function FindFrom(s: string, p: string, k: nat): (r: Option<nat>)
    requires k <= |s|
    ensures r.Some? ==> k <= r.value && OccursAt(s, p, r.value)
    ensures r.Some? ==> forall i :: k <= i < r.value ==> !OccursAt(s, p, i)
    ensures r.None? ==> forall i :: k <= i ==> !OccursAt(s, p, i)
    decreases |s| - k
  {
    if OccursAt(s, p, k) then Some(k)
    else if k == |s| then None
    else FindFrom(s, p, k + 1)
  }

  function Find(s: string, p: string): (r: Option<nat>)
    ensures r.Some? ==> OccursAt(s, p, r.value) && forall i :: 0 <= i < r.value ==> !OccursAt(s, p, i)
    ensures r.None? <==> !Contains(s, p)
  {
    FindFrom(s, p, 0)
  }

  /** Rightmost occurrence at or before `k`. */
  function FindBack(s: string, p: string, k: nat): (r: Option<nat>)
    ensures r.Some? ==> r.value <= k && OccursAt(s, p, r.value)
    ensures r.Some? ==> forall i :: r.value < i <= k ==> !OccursAt(s, p, i)
    ensures r.None? ==> forall i :: i <= k ==> !OccursAt(s, p, i)
  {
    if OccursAt(s, p, k) then Some(k)
    else if k == 0 then None
    else FindBack(s, p, k - 1)
  }

  function RFind(s: string, p: string): (r: Option<nat>)
    ensures r.Some? ==> OccursAt(s, p, r.value) && forall i :: r.value < i ==> !OccursAt(s, p, i)
    ensures r.None? <==> !Contains(s, p)
  {
    FindBack(s, p, |s|)
  }

  lemma FindIs(s: string, p: string, k: nat)
    requires OccursAt(s, p, k) && forall i :: 0 <= i < k ==> !OccursAt(s, p, i)
    ensures Find(s, p) == Some(k)
  {
  }

  lemma OccursInConcat(a: string, p: string, b: string)
    ensures OccursAt(a + p + b, p, |a|)
  {
  }

  /** Equal occurrences up to a shift give equal searches up to the shift. */
  lemma FindShift(w: string, q: string, p: string, n: nat)
    requires forall i :: OccursAt(w, p, i) == OccursAt(q, p, i - n)
    ensures Find(w, p) == match Find(q, p) case None => None case Some(i) => Some(n + i)
  {
    match Find(q, p)
    case None =>
    case Some(i) => assert OccursAt(w, p, n + i);
  }

  lemma OccursInSlice(s: string, p: string, lo: nat, hi: nat, i: int)
    requires lo <= hi <= |s|
    requires OccursAt(s[lo..hi], p, i)
    ensures OccursAt(s, p, lo + i)
  {
    var t, u := s[lo..hi], s[lo + i..lo + i + |p|];
    forall k | 0 <= k < |p| ensures u[k] == p[k] {
      assert p[k] == t[i..i + |p|][k] == t[i + k];
    }
  }

  lemma OccursInPart(s: string, p: string, lo: nat, hi: nat, i: int)
    requires lo <= i && i + |p| <= hi <= |s|
    requires OccursAt(s, p, i)
    ensures OccursAt(s[lo..hi], p, i - lo)
  {
    var t, u := s[lo..hi], s[lo..hi][i - lo..i - lo + |p|];
    forall k | 0 <= k < |p| ensures u[k] == p[k] {
      assert p[k] == s[i..i + |p|][k] == s[i + k];
    }
  }

  lemma SliceContains(s: string, p: string, lo: nat, hi: nat)
    requires lo <= hi <= |s|
    ensures Contains(s[lo..hi], p) ==> Contains(s, p)
  {
    if Contains(s[lo..hi], p) {
      var i :| OccursAt(s[lo..hi], p, i);
      OccursInSlice(s, p, lo, hi, i);
    }
  }

  lemma OccursInTail(s: string, p: string, lo: nat, i: int)
    requires lo <= |s|
    ensures i >= 0 ==> (OccursAt(s[lo..], p, i) <==> OccursAt(s, p, lo + i))
  {
    assert s[lo..|s|] == s[lo..];
    if OccursAt(s[lo..], p, i) {
      OccursInSlice(s, p, lo, |s|, i);
    }
    if i >= 0 && OccursAt(s, p, lo + i) {
      OccursInPart(s, p, lo, |s|, lo + i);
    }
  }

  // ----- separators: a pattern without `c` cannot straddle a `c`

  lemma OccursShift(a: string, b: string, p: string, i: int)
    ensures OccursAt(b, p, i) ==> OccursAt(a + b, p, |a| + i)
    ensures i >= |a| && OccursAt(a + b, p, i) ==> OccursAt(b, p, i - |a|)
    ensures OccursAt(a, p, i) ==> OccursAt(a + b, p, i)
    ensures i + |p| <= |a| && OccursAt(a + b, p, i) ==> OccursAt(a, p, i)
  {
    if OccursAt(b, p, i) {
      assert (a + b)[|a| + i..|a| + i + |p|] == b[i..i + |p|];
    }
    if i >= |a| && OccursAt(a + b, p, i) {
      assert (a + b)[i..i + |p|] == b[i - |a|..i - |a| + |p|];
    }
    if 0 <= i && i + |p| <= |a| {
      assert (a + b)[i..i + |p|] == a[i..i + |p|];
    }
  }

  /** With a separator character that `p` lacks between `a` and `b`, every
      occurrence lies wholly in `a` or wholly in `b`. */
  lemma OccursAcross(a: string, c: char, b: string, p: string, i: int)
    requires p != [] && c !in p
    ensures OccursAt(a + [c] + b, p, i) <==> OccursAt(a, p, i) || OccursAt(b, p, i - |a| - 1)
  {
    OccursShift(a + [c], b, p, i);
    OccursShift(a + [c], b, p, i - |a| - 1);
    OccursShift(a, [c] + b, p, i);
    assert a + [c] + b == a + ([c] + b);
    var s := a + [c] + b;
    assert OccursAt(s, p, i) ==> forall k :: i <= k < i + |p| ==> p[k - i] == s[i..i + |p|][k - i] == s[k];
    assert s[|a|] == c;
  }

  lemma OccursAcrossTwo(w: string, a: string, c: char, q: string, b: string, p: string, i: int)
    requires p != [] && c !in p && w == a + [c] + q + [c] + b
    ensures OccursAt(w, p, i) <==>
            OccursAt(a, p, i) || OccursAt(q, p, i - |a| - 1) || OccursAt(b, p, i - |a| - |q| - 2)
  {
    assert w == (a + [c] + q) + [c] + b;
    OccursAcross(a + [c] + q, c, b, p, i);
    OccursAcross(a, c, q, p, i);
  }

  // ----- replacement

  /** Left-to-right, non-overlapping replacement. */
  function Replace(s: string, p: string, r: string): string
    requires p != []
    decreases |s|
  {
    if s == [] then []
    else if p <= s then r + Replace(s[|p|..], p, r)
    else [s[0]] + Replace(s[1..], p, r)
  }

  lemma {:induction false} ReplaceAbsent(s: string, p: string, r: string)
    requires p != [] && !Contains(s, p)
    ensures Replace(s, p, r) == s
    decreases |s|
  {
    if s != [] {
      if p <= s {
        assert OccursAt(s, p, 0);
      }
      SliceContains(s, p, 1, |s|);
      assert s[1..|s|] == s[1..];
      ReplaceAbsent(s[1..], p, r);
    }
  }

  // ----- trimming

  /** The characters Rust's `char::is_whitespace` accepts. */
  predicate IsSpace(c: char) {
    || '\U{9}' <= c <= '\U{D}' || c == ' ' || c == '\U{85}' || c == '\U{A0}' || c == '\U{1680}'
    || '\U{2000}' <= c <= '\U{200A}' || c == '\U{2028}' || c == '\U{2029}' || c == '\U{202F}'
    || c == '\U{205F}' || c == '\U{3000}'
  }

  predicate AllSpace(s: string) {
    forall i :: 0 <= i < |s| ==> IsSpace(s[i])
  }

  predicate Trimmed(s: string) {
    s != [] ==> !IsSpace(s[0]) && !IsSpace(s[|s| - 1])
  }

  function LeadingSpaces(s: string): (n: nat)
    ensures n <= |s| && AllSpace(s[..n])
    ensures n < |s| ==> !IsSpace(s[n])
  {
    if s == [] || !IsSpace(s[0]) then 0 else 1 + LeadingSpaces(s[1..])
  }

  function TrailingSpaces(s: string): (n: nat)
    ensures n <= |s| && AllSpace(s[|s| - n..])
    ensures n < |s| ==> !IsSpace(s[|s| - n - 1])
  {
    if s == [] || !IsSpace(s[|s| - 1]) then 0 else 1 + TrailingSpaces(s[..|s| - 1])
  }

  function TrimStart(s: string): string { s[LeadingSpaces(s)..] }

  function TrimEnd(s: string): string { s[..|s| - TrailingSpaces(s)] }

  function Trim(s: string): (t: string)
    ensures Trimmed(t) && |t| <= |s|
  {
    TrimEnd(TrimStart(s))
  }

  lemma TrimIsSlice(s: string) returns (lo: nat, hi: nat)
    ensures lo <= hi <= |s| && Trim(s) == s[lo..hi] && AllSpace(s[..lo]) && AllSpace(s[hi..])
  {
    hide IsSpace, LeadingSpaces, TrailingSpaces;
    lo := LeadingSpaces(s);
    var t := s[lo..];
    hi := |s| - TrailingSpaces(t);
    assert t[..|t| - TrailingSpaces(t)] == s[lo..hi];
    assert t[|t| - TrailingSpaces(t)..] == s[hi..];
  }

  lemma TrimContains(s: string, p: string)
    ensures Contains(Trim(s), p) ==> Contains(s, p)
  {
    var lo, hi := TrimIsSlice(s);
    SliceContains(s, p, lo, hi);
  }

  lemma TrimTrimmed(s: string)
    requires Trimmed(s)
    ensures Trim(s) == s
  {
  }

  ghost predicate SpaceBetween(s: string, lo: int, hi: int) {
    forall i :: lo <= i < hi && 0 <= i < |s| ==> IsSpace(s[i])
  }

  /** Trimming recovers a trimmed core from any surrounding whitespace. */
  lemma TrimPadded(a: string, s: string, b: string)
    requires AllSpace(a) && AllSpace(b) && Trimmed(s)
    ensures Trim(a + s + b) == s
  {
    hide IsSpace, LeadingSpaces, TrailingSpaces, Trim;
    var w := a + s + b;
    var lo, hi := TrimIsSlice(w);
    SlicesAreSpace(w, lo, hi);
    assert Trimmed(w[lo..hi]);
    assert forall i :: 0 <= i < |w| ==> w[i] == if i < |a| then a[i] else if i < |a| + |s| then s[i - |a|] else b[i - |a| - |s|];
    TrimBounds(w, lo, hi, |a|, |a| + |s|);
    assert w[|a|..|a| + |s|] == s;
  }

  lemma SlicesAreSpace(w: string, lo: nat, hi: nat)
    requires lo <= hi <= |w| && AllSpace(w[..lo]) && AllSpace(w[hi..])
    ensures SpaceBetween(w, 0, lo) && SpaceBetween(w, hi, |w|)
  {
    hide IsSpace;
    assert forall i :: 0 <= i < lo ==> w[i] == w[..lo][i];
    assert forall i :: hi <= i < |w| ==> w[i] == w[hi..][i - hi];
  }

  /** The trimmed core of a string is unique. */
  lemma TrimBounds(w: string, lo: nat, hi: nat, i: nat, j: nat)
    requires lo <= hi <= |w| && i <= j <= |w|
    requires SpaceBetween(w, 0, lo) && SpaceBetween(w, hi, |w|) && Trimmed(w[lo..hi])
    requires SpaceBetween(w, 0, i) && SpaceBetween(w, j, |w|) && Trimmed(w[i..j])
    ensures w[lo..hi] == w[i..j]
  {
    hide IsSpace;
    if lo < hi {
      assert !IsSpace(w[lo]) && !IsSpace(w[hi - 1]);
    }
    if i < j {
      assert !IsSpace(w[i]) && !IsSpace(w[j - 1]);
    }
  }

  // ----- UTF-8 (RFC 3629 section 3)

  function Utf8Bytes(c: char): (n: nat)
    ensures 1 <= n <= 4
  {
    var v := c as int;
    if v < 0x80 then 1 else if v < 0x800 then 2 else if v < 0x1_0000 then 3 else 4
  }

  function Utf8Len(s: string): nat {
    if s == [] then 0 else Utf8Bytes(s[0]) + Utf8Len(s[1..])
  }

  lemma {:induction false} Utf8LenConcat(a: string, b: string)
    ensures Utf8Len(a + b) == Utf8Len(a) + Utf8Len(b)
  {
    if a == [] {
      assert a + b == b;
    } else {
      assert (a + b)[1..] == a[1..] + b;
      Utf8LenConcat(a[1..], b);
    }
  }

  lemma {:induction false} AsciiLength(s: string)
    requires forall i :: 0 <= i < |s| ==> s[i] as int < 0x80
    ensures Utf8Len(s) == |s|
  {
    if s != [] {
      AsciiLength(s[1..]);
    }
  }

  // ----- decimal

  function HexDigit(d: nat): char
    requires d < 16
  {
    if d < 10 then '0' + d as char else 'a' + (d - 10) as char
  }

  function Digit(d: nat): char
    requires d < 10
  {
    '0' + d as char
  }


  function Decimal(n: nat): (s: string)
    ensures s != [] && AllDigits(s)
    ensures n > 0 ==> s[0] != '0'
  {
    if n < 10 then [Digit(n)] else Decimal(n / 10) + [Digit(n % 10)]
  }

  predicate IsDigit(c: char) { '0' <= c <= '9' }

  predicate AllDigits(s: string) {
    forall i :: 0 <= i < |s| ==> IsDigit(s[i])
  }

  /** Value of a string of digits, most significant first. */
  function DigitsValue(s: string): nat
    requires AllDigits(s)
  {
    if s == [] then 0
    else
      assert IsDigit(s[|s| - 1]);
      10 * DigitsValue(s[..|s| - 1]) + (s[|s| - 1] as int - '0' as int)
  }

  lemma {:induction false} DecimalValue(n: nat)
    ensures DigitsValue(Decimal(n)) == n
  {
    var s := Decimal(n);
    if n >= 10 {
      assert s[..|s| - 1] == Decimal(n / 10);
      DecimalValue(n / 10);
    } else {
      assert s[..|s| - 1] == [];
    }
  }

  function Pow10(k: nat): nat {
    if k == 0 then 1 else 10 * Pow10(k - 1)
  }

  /** `n` has at most `k` digits exactly when it is below ten to the `k`. */
  lemma {:induction false} DecimalLength(n: nat, k: nat)
    requires k > 0
    ensures |Decimal(n)| <= k <==> n < Pow10(k)
    decreases n
  {
    if n >= 10 {
      if k == 1 {
        assert Pow10(1) == 10;
      } else {
        DecimalLength(n / 10, k - 1);
      }
    } else {
      assert Pow10(k) >= 10 by { Pow10Positive(k - 1); }
    }
  }

  lemma Pow10Positive(k: nat)
    ensures Pow10(k) >= 1
  {
  }

  lemma {:induction false} DigitsAscii(s: string)
    requires AllDigits(s)
    ensures Utf8Len(s) == |s|
  {
    if s != [] {
      DigitsAscii(s[1..]);
    }
  }
}
