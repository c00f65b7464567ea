/** File names of compaction segments and the recognition of paths into the segment store. */
module Segments {
  import opened Wrappers
  import opened Text
  import opened Integers

  const COMPACTION_DIR := "compaction"
  const SEGMENT_PREFIX := "segment_"
  const SEGMENT_SUFFIX := ".md"
  const INDEX_FILE := "INDEX.md"

  /** Zero-padded to at least three digits. */
  function SegmentLabel(index: nat): (s: string)
    ensures |s| >= 3 && AllDigits(s)
  {
    var d := Decimal(index);
    if |d| == 1 then ['0', '0'] + d else if |d| == 2 then ['0'] + d else d
  }

  function SegmentFilename(index: nat): string {
    SEGMENT_PREFIX + SegmentLabel(index) + SEGMENT_SUFFIX
  }

  predicate IsPrefix(p: string, s: string) { |p| <= |s| && s[..|p|] == p }

  predicate IsSuffix(p: string, s: string) { |p| <= |s| && s[|s| - |p|..] == p }

  function StripPrefix(s: string, p: string): (r: Option<string>)
    ensures r.Some? <==> IsPrefix(p, s)
    ensures r.Some? ==> s == p + r.value
  {
    if IsPrefix(p, s) then Some(s[|p|..]) else None
  }

  function StripSuffix(s: string, p: string): (r: Option<string>)
    ensures r.Some? <==> IsSuffix(p, s)
    ensures r.Some? ==> s == r.value + p
  {
    if IsSuffix(p, s) then Some(s[..|s| - |p|]) else None
  }

  /** An unsigned 64-bit number: digits after an optional plus, refused on overflow. */
  function ParseU64(s: string): Option<nat> {
    var digits := if s != [] && s[0] == '+' then s[1..] else s;
    if digits == [] || !AllDigits(digits) then None
    else if DigitsValue(digits) > MAX_U64 then None
    else Some(DigitsValue(digits))
  }

  function ParseSegmentIndex(filename: string): Option<nat> {
    var a := StripPrefix(filename, SEGMENT_PREFIX);
    if a.None? then None
    else
      var b := StripSuffix(a.value, SEGMENT_SUFFIX);
      if b.None? then None else ParseU64(b.value)
  }

  datatype Artifact = Segment(index: nat) | Index | Dir

  function TrimSlashes(s: string): (r: string)
    ensures r == [] || r[|r| - 1] != '/'
    ensures |r| <= |s| && r == s[..|r|] && forall i :: |r| <= i < |s| ==> s[i] == '/'
  {
    if s != [] && s[|s| - 1] == '/' then TrimSlashes(s[..|s| - 1]) else s
  }

  predicate EndsWithSlash(s: string) { s != [] && s[|s| - 1] == '/' }

  function ClassifyCompactionPath(path: string): Option<Artifact> {
    var trimmed := TrimSlashes(path);
    var stem := StripSuffix(trimmed, COMPACTION_DIR);
    if trimmed == COMPACTION_DIR || (stem.Some? && EndsWithSlash(stem.value)) then Some(Dir)
    else
      var at := RFind(path, COMPACTION_DIR);
      if at.None? then None
      else
        var rest := StripPrefix(AfterDir(path, at.value), "/");
        if rest.None? then None
        else
          var index := ParseSegmentIndex(rest.value);
          if index.Some? then Some(Segment(index.value))
          else if rest.value == INDEX_FILE then Some(Index)
          else None
  }

  function AfterDir(path: string, at: nat): string
    requires OccursAt(path, COMPACTION_DIR, at)
  {
    path[at + |COMPACTION_DIR|..]
  }

  // ----- numbers

  lemma ZeroInFront(s: string)
    requires AllDigits(s)
    ensures AllDigits(['0'] + s) && DigitsValue(['0'] + s) == DigitsValue(s)
    decreases |s|
  {
    var w := ['0'] + s;
    if s == [] {
      assert w[..|w| - 1] == [];
    } else {
      assert w[..|w| - 1] == ['0'] + s[..|s| - 1];
      ZeroInFront(s[..|s| - 1]);
    }
  }

  lemma LabelValue(index: nat)
    ensures DigitsValue(SegmentLabel(index)) == index
  {
    hide DigitsValue, AllDigits;
    var d := Decimal(index);
    DecimalValue(index);
    ZeroInFront(d);
    ZeroInFront(['0'] + d);
    assert ['0', '0'] + d == ['0'] + (['0'] + d);
  }

  lemma LabelParsed(index: nat)
    requires index <= MAX_U64
    ensures ParseU64(SegmentLabel(index)) == Some(index)
  {
    LabelValue(index);
    var s := SegmentLabel(index);
    assert IsDigit(s[0]);
  }

  /** A label is the index in at least three digits, and in no more than it needs. */
  lemma LabelShape(index: nat)
    ensures AllDigits(SegmentLabel(index)) && DigitsValue(SegmentLabel(index)) == index
    ensures |SegmentLabel(index)| == if index < 1000 then 3 else |Decimal(index)|
    ensures |SegmentLabel(index)| > 3 ==> SegmentLabel(index)[0] != '0'
  {
    LabelValue(index);
    DecimalLength(index, 3);
    assert Pow10(3) == 1000;
  }

  /** `s` is digits, with or without a plus in front, that name `n`. */
  ghost predicate Numeral(s: string, digits: string, n: nat) {
    digits != [] && AllDigits(digits) && DigitsValue(digits) == n && (s == digits || s == ['+'] + digits)
  }

  /** What reads as a number: numerals of at most 64 bits, and nothing else. */
  lemma ParsedExactly(s: string, n: nat)
    ensures ParseU64(s) == Some(n) <==> n <= 0xFFFF_FFFF_FFFF_FFFF && exists digits :: Numeral(s, digits, n)
  {
    hide DigitsValue;
    var digits := if s != [] && s[0] == '+' then s[1..] else s;
    if ParseU64(s) == Some(n) {
      assert s[0] == '+' ==> s == ['+'] + digits;
      assert Numeral(s, digits, n);
    }
    forall d | Numeral(s, d, n) ensures d == digits {
      assert IsDigit(d[0]);
      assert (['+'] + d)[1..] == d;
    }
  }

  // ----- names

  /** The stem that makes a file name the name of segment `index`. */
  ghost predicate NamesSegment(filename: string, stem: string, index: nat) {
    filename == SEGMENT_PREFIX + stem + SEGMENT_SUFFIX && ParseU64(stem) == Some(index)
  }

  lemma StemParsed(filename: string, stem: string, p: string, q: string)
    requires filename == p + stem + q
    ensures StripPrefix(filename, p) == Some(stem + q)
    ensures StripSuffix(stem + q, q) == Some(stem)
  {
    assert filename == p + (stem + q);
  }

  lemma ParseSegmentExactly(filename: string, index: nat)
    ensures ParseSegmentIndex(filename) == Some(index) <==> exists stem :: NamesSegment(filename, stem, index)
  {
    hide ParseU64;
    var p, q := SEGMENT_PREFIX, SEGMENT_SUFFIX;
    if ParseSegmentIndex(filename) == Some(index) {
      var rest := StripPrefix(filename, p).value;
      var stem := StripSuffix(rest, q).value;
      assert filename == p + stem + q;
      assert NamesSegment(filename, stem, index);
    }
    forall stem | NamesSegment(filename, stem, index) ensures ParseSegmentIndex(filename) == Some(index) {
      StemParsed(filename, stem, p, q);
    }
  }

  /** Every index is read back from its file name, so names never collide. */
  lemma FilenameParsed(index: nat)
    requires index <= MAX_U64
    ensures ParseSegmentIndex(SegmentFilename(index)) == Some(index)
  {
    LabelParsed(index);
    hide ParseSegmentIndex, ParseU64, SegmentLabel;
    assert NamesSegment(SegmentFilename(index), SegmentLabel(index), index);
    ParseSegmentExactly(SegmentFilename(index), index);
  }

  lemma FilenamesDistinct(a: nat, b: nat)
    requires a <= MAX_U64 && b <= MAX_U64 && SegmentFilename(a) == SegmentFilename(b)
    ensures a == b
  {
    hide SegmentFilename, ParseSegmentIndex;
    FilenameParsed(a);
    FilenameParsed(b);
  }

  // ----- paths

  /** The letter that tells the directory's name from everything after it. */
  predicate NoP(s: string) { 'p' !in s }

  lemma LastDir(pre: string, dir: string, tail: string)
    requires dir == COMPACTION_DIR && NoP(tail)
    ensures RFind(pre + dir + tail, dir) == Some(|pre|)
  {
    var w := pre + dir + tail;
    assert OccursAt(w, dir, |pre|);
    forall i | |pre| + 3 < i < |w| ensures w[i] != 'p' {
      assert i < |pre| + |dir| ==> w[i] == dir[i - |pre|];
      assert i >= |pre| + |dir| ==> w[i] == tail[i - |pre| - |dir|];
    }
    forall j | |pre| < j ensures !OccursAt(w, dir, j) {
      OccursChar(w, dir, j, 3);
    }
  }

  lemma StemHasNoP(stem: string)
    requires ParseU64(stem).Some?
    ensures NoP(stem)
  {
    var digits := if stem != [] && stem[0] == '+' then stem[1..] else stem;
    forall i | 0 <= i < |stem| ensures stem[i] != 'p' {
      assert digits == stem ==> IsDigit(digits[i]);
      assert digits != stem && i > 0 ==> stem[i] == digits[i - 1] && IsDigit(digits[i - 1]);
    }
  }

  /** What follows the directory in the path of a segment. */
  lemma SegmentTail(filename: string, stem: string, index: nat, tail: string)
    requires NamesSegment(filename, stem, index) && tail == ['/'] + filename
    ensures NoP(tail) && tail[|tail| - 1] == 'd'
  {
    StemHasNoP(stem);
    hide ParseU64;
    var p, q := SEGMENT_PREFIX, SEGMENT_SUFFIX;
    assert NoP(p) && NoP(q) && q[|q| - 1] == 'd';
    assert tail == ['/'] + (p + stem + q);
  }

  lemma NotDir(path: string, dir: string)
    requires dir == COMPACTION_DIR && path != [] && path[|path| - 1] == 'd'
    ensures TrimSlashes(path) == path && path != dir && !IsSuffix(dir, path)
  {
    SuffixLast(dir, path);
    SuffixLast(path, path);
  }

  lemma SuffixLast(p: string, s: string)
    requires p != []
    ensures IsSuffix(p, s) ==> s[|s| - 1] == p[|p| - 1]
  {
  }

  /** How a path reads once its last directory component is known. */
  lemma ClassifyAt(path: string, pre: string, dir: string, rest: string)
    requires dir == COMPACTION_DIR && path == pre + dir + (['/'] + rest)
    requires NoP(rest) && rest != [] && rest[|rest| - 1] == 'd'
    ensures ClassifyCompactionPath(path) ==
            if ParseSegmentIndex(rest).Some? then Some(Segment(ParseSegmentIndex(rest).value))
            else if rest == INDEX_FILE then Some(Index) else None
  {
    hide ParseSegmentIndex, RFind, TrimSlashes;
    LastDir(pre, dir, ['/'] + rest);
    NotDir(path, dir);
    assert path[|pre| + |dir|..] == ['/'] + rest;
    assert StripPrefix(['/'] + rest, "/") == Some(rest);
  }

  ghost predicate SegmentPath(path: string, pre: string, stem: string, index: nat) {
    path == pre + COMPACTION_DIR + (['/'] + (SEGMENT_PREFIX + stem + SEGMENT_SUFFIX)) && ParseU64(stem) == Some(index)
  }

  lemma SegmentPathClassified(path: string, pre: string, stem: string, index: nat)
    requires SegmentPath(path, pre, stem, index)
    ensures ClassifyCompactionPath(path) == Some(Segment(index))
  {
    hide ParseU64, ClassifyCompactionPath, ParseSegmentIndex;
    var name := SEGMENT_PREFIX + stem + SEGMENT_SUFFIX;
    assert NamesSegment(name, stem, index);
    SegmentTail(name, stem, index, ['/'] + name);
    ParseSegmentExactly(name, index);
    assert (['/'] + name)[1..] == name;
    ClassifyAt(path, pre, COMPACTION_DIR, name);
  }

  lemma ClassifiedIsSegmentPath(path: string, index: nat)
    requires ClassifyCompactionPath(path) == Some(Segment(index))
    ensures exists pre, stem :: SegmentPath(path, pre, stem, index)
  {
    hide ParseU64, ParseSegmentIndex, RFind;
    var dir := COMPACTION_DIR;
    var at := RFind(path, dir).value;
    var rest := StripPrefix(AfterDir(path, at), "/").value;
    ParseSegmentExactly(rest, index);
    var stem :| NamesSegment(rest, stem, index);
    OccursSplit(path, dir, at);
    assert path == path[..at] + dir + (['/'] + rest);
    assert SegmentPath(path, path[..at], stem, index);
  }

  lemma OccursSplit(s: string, p: string, i: nat)
    requires OccursAt(s, p, i)
    ensures s == s[..i] + p + s[i + |p|..]
  {
    assert s[i..i + |p|] == p;
  }

  /** A path is recognized as a segment exactly when it ends in `compaction/segment_N.md`
      with `N` a 64-bit number; whatever stands before, a separator or not. */
  lemma SegmentExactly(path: string, index: nat)
    ensures ClassifyCompactionPath(path) == Some(Segment(index))
       <==> exists pre, stem :: SegmentPath(path, pre, stem, index)
  {
    hide ClassifyCompactionPath, SegmentPath;
    if ClassifyCompactionPath(path) == Some(Segment(index)) {
      ClassifiedIsSegmentPath(path, index);
    }
    forall pre, stem | SegmentPath(path, pre, stem, index)
      ensures ClassifyCompactionPath(path) == Some(Segment(index))
    {
      SegmentPathClassified(path, pre, stem, index);
    }
  }

  /** Writing a segment anywhere and reading its path back gives its index. */
  lemma PathRoundTrip(pre: string, index: nat)
    requires index <= MAX_U64
    ensures ClassifyCompactionPath(pre + COMPACTION_DIR + (['/'] + SegmentFilename(index))) == Some(Segment(index))
  {
    hide ClassifyCompactionPath, ParseU64;
    LabelParsed(index);
    SegmentPathClassified(pre + COMPACTION_DIR + (['/'] + SegmentFilename(index)), pre, SegmentLabel(index), index);
  }

  /** The index file is recognized under the same directory. */
  lemma IndexClassified(pre: string, name: string)
    requires name == INDEX_FILE
    ensures ClassifyCompactionPath(pre + COMPACTION_DIR + (['/'] + name)) == Some(Index)
  {
    assert NoP(name) && name[|name| - 1] == 'd';
    assert !IsPrefix(SEGMENT_PREFIX, name) by { assert name[0] == 'I' && SEGMENT_PREFIX[0] == 's'; }
    assert ParseSegmentIndex(name).None?;
    hide ClassifyCompactionPath, ParseSegmentIndex;
    ClassifyAt(pre + COMPACTION_DIR + (['/'] + name), pre, COMPACTION_DIR, name);
  }

  ghost predicate IndexPath(path: string, pre: string) { path == pre + "compaction/INDEX.md" }

  /** A path is the index exactly when it ends in `compaction/INDEX.md`. */
  lemma IndexExactly(path: string)
    ensures ClassifyCompactionPath(path) == Some(Index) <==> exists pre :: IndexPath(path, pre)
  {
    hide ClassifyCompactionPath;
    if ClassifyCompactionPath(path) == Some(Index) {
      ClassifiedIsIndexPath(path);
    }
    forall pre | IndexPath(path, pre) ensures ClassifyCompactionPath(path) == Some(Index) {
      IndexClassified(pre, INDEX_FILE);
      assert path == pre + COMPACTION_DIR + (['/'] + INDEX_FILE);
    }
  }

  lemma IndexTail(pre: string, dir: string, tail: string)
    requires dir == COMPACTION_DIR && StripPrefix(tail, "/") == Some(INDEX_FILE)
    ensures pre + dir + tail == pre + "compaction/INDEX.md"
  {
    assert dir + tail == "compaction/INDEX.md";
    assert pre + dir + tail == pre + (dir + tail);
  }

  lemma ClassifiedIsIndexPath(path: string)
    requires ClassifyCompactionPath(path) == Some(Index)
    ensures exists pre :: IndexPath(path, pre)
  {
    hide ParseSegmentIndex, RFind, TrimSlashes, OccursAt;
    var dir := COMPACTION_DIR;
    var at := RFind(path, dir).value;
    OccursBounds(path, dir, at);
    OccursSplit(path, dir, at);
    IndexTail(path[..at], dir, AfterDir(path, at));
    assert IndexPath(path, path[..at]);
  }

  ghost predicate DirPath(path: string, pre: string, slashes: string) {
    path == pre + COMPACTION_DIR + slashes && (pre == [] || EndsWithSlash(pre))
    && forall i :: 0 <= i < |slashes| ==> slashes[i] == '/'
  }

  /** A path is the store itself exactly when its last component is `compaction`. */
  lemma DirExactly(path: string)
    ensures ClassifyCompactionPath(path) == Some(Dir) <==> exists pre, slashes :: DirPath(path, pre, slashes)
  {
    hide ClassifyCompactionPath, DirPath;
    if ClassifyCompactionPath(path) == Some(Dir) {
      ClassifiedIsDirPath(path, COMPACTION_DIR);
    }
    forall pre, slashes | DirPath(path, pre, slashes) ensures ClassifyCompactionPath(path) == Some(Dir) {
      DirPathClassified(path, pre, COMPACTION_DIR, slashes);
    }
  }

  lemma ClassifiedIsDirPath(path: string, dir: string)
    requires dir == COMPACTION_DIR && ClassifyCompactionPath(path) == Some(Dir)
    ensures exists pre, slashes :: DirPath(path, pre, slashes)
  {
    hide RFind, ParseSegmentIndex, TrimSlashes;
    var trimmed := TrimSlashes(path);
    var slashes := path[|trimmed|..];
    assert path == trimmed + slashes;
    var stem := StripSuffix(trimmed, dir);
    var pre := if trimmed == dir then [] else stem.value;
    assert trimmed == pre + dir;
    assert DirPath(path, pre, slashes);
  }

  lemma DirPathClassified(path: string, pre: string, dir: string, slashes: string)
    requires dir == COMPACTION_DIR && DirPath(path, pre, slashes)
    ensures ClassifyCompactionPath(path) == Some(Dir)
  {
    hide RFind, ParseSegmentIndex, TrimSlashes;
    DirTrimmed(path, pre, dir, slashes);
    assert pre == [] ==> pre + dir == dir;
    assert StripSuffix(pre + dir, dir) == Some(pre);
  }

  lemma DirTrimmed(path: string, pre: string, dir: string, slashes: string)
    requires path == pre + dir + slashes && dir != [] && dir[|dir| - 1] != '/'
    requires forall i :: 0 <= i < |slashes| ==> slashes[i] == '/'
    ensures TrimSlashes(path) == pre + dir
  {
    hide TrimSlashes;
    var t, n := TrimSlashes(path), |pre + dir|;
    assert path[n - 1] == dir[|dir| - 1];
    forall i | n <= i < |path| ensures path[i] == '/' { assert path[i] == slashes[i - n]; }
    assert t != [] ==> t[|t| - 1] == path[|t| - 1];
    assert path[..n] == pre + dir;
  }
}
