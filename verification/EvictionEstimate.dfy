/** When the running estimate of the eviction loop can be trusted: exactly when it
    never falls below the true size, exactly when the loop reaches every target,
    and exactly when one application settles. */
module EvictionEstimate {
  import opened Conversation
  import opened Json
  import opened ImageBudget

  /** The estimate after one more eviction, if there is one. */
  function NextEst(no: Notices, d: History, running: nat): nat {
    var n := FirstWithImage(d);
    if n == |d| then running else NextRunning(no, d[n], running)
  }

  /** The estimate after `k` evictions. */
  function RunEst(no: Notices, c: History, running: nat, k: nat): nat {
    if k == 0 then running else NextEst(no, Evict(no, c, k - 1), RunEst(no, c, running, k - 1))
  }

  function DriftAt(no: Notices, d: History): int {
    var n := FirstWithImage(d);
    if n == |d| then 0 else Drift(no, d[n])
  }

  /** What the first `k` evictions add to the estimate beyond the truth. */
  function DriftSum(no: Notices, c: History, k: nat): int {
    if k == 0 then 0 else DriftSum(no, c, k - 1) + DriftAt(no, Evict(no, c, k - 1))
  }

  /** How far ahead of the true size the drifts put the estimate after `k` evictions. */
  function Ahead(no: Notices, c: History, running: nat, k: nat): int {
    running - BodyBytes(c) + DriftSum(no, c, k)
  }

  lemma HasImages(no: Notices, c: History, k: nat)
    requires k <= AllImages(c)
    ensures AllImages(Evict(no, c, k)) == AllImages(c) - k
    ensures FirstWithImage(Evict(no, c, k)) < |c| <==> k < AllImages(c)
  {
    hide Evict, WithoutOldest, AllImages;
    EvictIsOldest(no, c, k);
    NoImagesLeft(no, Evict(no, c, k));
  }

  lemma StepAtLeast(no: Notices, d: History, running: nat)
    requires FirstWithImage(d) < |d|
    ensures NextEst(no, d, running) - BodyBytes(EvictOne(no, d)) >= running - BodyBytes(d) + DriftAt(no, d)
    ensures running >= BodyBytes(d) ==>
      NextEst(no, d, running) - BodyBytes(EvictOne(no, d)) == running - BodyBytes(d) + DriftAt(no, d)
  {
    hide BodyBytes, EvictOne, NextRunning, Drift, HasImage;
    EstimateDriftAtLeast(no, d, running);
    if running >= BodyBytes(d) {
      EstimateDrift(no, d, running);
    }
  }

  // ----- the estimate never falls below the true size

  lemma {:induction false} EstimateFollows(no: Notices, c: History, running: nat, k: nat)
    requires running >= BodyBytes(c) && k <= AllImages(c)
    requires forall j :: 0 <= j < k ==> Ahead(no, c, running, j) >= 0
    ensures RunEst(no, c, running, k) - BodyBytes(Evict(no, c, k)) == Ahead(no, c, running, k)
  {
    hide BodyBytes, EvictOne, NextEst, DriftAt, AllImages, FirstWithImage;
    EvictNone(no, c);
    if k > 0 {
      assert Ahead(no, c, running, k - 1) >= 0;
      EstimateFollows(no, c, running, k - 1);
      HasImages(no, c, k - 1);
      StepAtLeast(no, Evict(no, c, k - 1), RunEst(no, c, running, k - 1));
      EvictSnoc(no, c, k - 1);
    }
  }

  ghost predicate NeverFalls(no: Notices, c: History, running: nat, n: nat) {
    forall k :: 0 <= k <= n ==> RunEst(no, c, running, k) >= BodyBytes(Evict(no, c, k))
  }

  ghost predicate NeverBehind(no: Notices, c: History, running: nat, n: nat) {
    forall k :: 0 <= k <= n ==> Ahead(no, c, running, k) >= 0
  }

  lemma {:induction false} FallsExactly(no: Notices, c: History, running: nat, n: nat)
    requires running >= BodyBytes(c) && n <= AllImages(c)
    ensures NeverFalls(no, c, running, n) <==> NeverBehind(no, c, running, n)
  {
    hide BodyBytes, RunEst, Evict, DriftSum, AllImages, Ahead;
    if n > 0 {
      FallsExactly(no, c, running, n - 1);
    }
    if NeverBehind(no, c, running, n) || (n > 0 && NeverBehind(no, c, running, n - 1)) {
      EstimateFollows(no, c, running, n);
    }
    if n == 0 {
      EstimateFollows(no, c, running, 0);
    }
    assert NeverFalls(no, c, running, n) <==>
      (n == 0 || NeverFalls(no, c, running, n - 1)) && RunEst(no, c, running, n) >= BodyBytes(Evict(no, c, n));
    assert NeverBehind(no, c, running, n) <==>
      (n == 0 || NeverBehind(no, c, running, n - 1)) && Ahead(no, c, running, n) >= 0;
  }

  /** The estimate never falls below the true size, however long the loop goes on,
      exactly when no initial stretch of evictions drifts behind. */
  lemma EstimateNeverFalls(no: Notices, c: History, running: nat)
    requires running >= BodyBytes(c)
    ensures NeverFalls(no, c, running, AllImages(c)) <==> NeverBehind(no, c, running, AllImages(c))
  {
    FallsExactly(no, c, running, AllImages(c));
  }

  // ----- how many images the loop evicts

  lemma {:induction false} EvictShift(no: Notices, c: History, running: nat, k: nat)
    ensures Evict(no, c, k + 1) == Evict(no, EvictOne(no, c), k)
    ensures RunEst(no, c, running, k + 1) == RunEst(no, EvictOne(no, c), NextEst(no, c, running), k)
  {
    hide EvictOne, NextEst;
    if k == 0 {
      EvictNone(no, c);
      assert RunEst(no, c, running, 0) == running;
    } else {
      EvictShift(no, c, running, k - 1);
    }
  }

  /** The loop stops at the first count at which the estimate meets the target, or
      when no image is left. */
  ghost predicate StopsAt(no: Notices, c: History, running: nat, target: nat, k: nat) {
    k <= AllImages(c)
    && (k == AllImages(c) || RunEst(no, c, running, k) <= target)
    && forall j :: 0 <= j < k ==> RunEst(no, c, running, j) > target
  }

  lemma {:induction false} EvictCountStops(no: Notices, c: History, running: nat, target: nat)
    ensures StopsAt(no, c, running, target, EvictCount(no, c, running, target))
    decreases AllImages(c)
  {
    hide EvictOne, NextRunning, AllImages, Images, Evict, RunEst, HasImage;
    NoImagesLeft(no, c);
    NoEvictions(no, c, running);
    var n := FirstWithImage(c);
    if running > target && n < |c| {
      var d, next := EvictOne(no, c), NextRunning(no, c[n], running);
      WithoutOldestStep(no, c, 0);
      EvictCountStops(no, d, next, target);
      var k := EvictCount(no, d, next, target);
      EvictShift(no, c, running, k);
      forall j | 0 <= j < k + 1 ensures RunEst(no, c, running, j) > target {
        if j > 0 {
          EvictShift(no, c, running, j - 1);
        }
      }
    }
  }

  lemma NoEvictions(no: Notices, c: History, running: nat)
    ensures RunEst(no, c, running, 0) == running
  {
  }

  /** Above both limits the budget evicts until the estimate, started at the true size,
      meets the target. */
  lemma BudgetStops(no: Notices, c: History, trigger: nat, target: nat)
    requires BodyBytes(c) >= trigger && BodyBytes(c) > target
    ensures StopsAt(no, c, BodyBytes(c), target, BudgetEvictions(no, c, trigger, target))
  {
    EvictCountStops(no, c, BodyBytes(c), target);
  }

  lemma StopsOnce(no: Notices, c: History, running: nat, target: nat, k: nat)
    requires StopsAt(no, c, running, target, k)
    ensures EvictCount(no, c, running, target) == k
  {
    hide EvictCount, RunEst, AllImages;
    EvictCountStops(no, c, running, target);
  }

  // ----- an image still to be evicted is part of the true size

  lemma {:induction false} PartsFit(item: nat, parts: seq<Part>, from: nat, f: Found)
    requires from <= |parts| && f in UserImages(item, parts, from)
    ensures f.bytes <= PartsBytes(parts[from..])
    decreases |parts| - from
  {
    hide ImagePartBytes;
    var rest := parts[from..];
    assert rest[0] == parts[from] && rest[1..] == parts[from + 1..];
    if f in UserImages(item, parts, from + 1) {
      PartsFit(item, parts, from + 1, f);
    }
  }

  lemma {:induction false} ImagesFit(item: nat, images: seq<Part>, f: Found)
    requires f in ToolImages(item, images)
    ensures f.bytes <= PartsBytes(images)
  {
    hide ImagePartBytes;
    if f in ToolImages(item, images[1..]) {
      ImagesFit(item, images[1..], f);
    }
  }

  lemma ItemFits(item: nat, it: Item, f: Found)
    requires f in ItemImages(item, it)
    ensures f.bytes <= ItemBytes(it)
  {
    hide FrameBytes, PartsBytes, UserImages, ToolImages;
    match it
    case User(parts, _, _) =>
      PartsFit(item, parts, 0, f);
      assert parts[0..] == parts;
    case ToolResult(_, _, _, images) =>
      ImagesFit(item, images, f);
      NoImageFound(item);
    case _ =>
  }

  lemma NoImageFound(item: nat)
    ensures ToolImages(item, []) == []
  {
  }

  lemma {:induction false} FoundFits(d: History, from: nat, f: Found)
    requires from <= |d| && f in Images(d, from)
    ensures f.bytes <= ItemsBytes(d[from..])
    decreases |d| - from
  {
    hide ItemBytes, ItemImages;
    var rest := d[from..];
    if from < |d| {
      assert rest[0] == d[from] && rest[1..] == d[from + 1..];
      ImagesAt(d, from);
      if f in ItemImages(from, d[from]) {
        ItemFits(from, d[from], f);
      } else {
        FoundFits(d, from + 1, f);
      }
    } else {
      NoImagesAfter(d);
    }
  }

  lemma FoundInBody(d: History, f: Found)
    requires f in Images(d, 0)
    ensures f.bytes + 2 <= BodyBytes(d)
  {
    hide BodyBytes, ItemsBytes, Images;
    FoundFits(d, 0, f);
    assert d[0..] == d;
    BodyBytesExact(d);
  }

  /** The bytes of the image that is next. */
  function NextBytes(d: History): nat
    requires FirstWithImage(d) < |d|
  {
    FirstImageBytes(d[FirstWithImage(d)])
  }

  lemma {:induction false} StillThere(no: Notices, c: History, m: nat, i: nat, f: Found)
    requires m <= i && f in Images(Evict(no, c, i), 0)
    ensures f in Images(Evict(no, c, m), 0)
    decreases i
  {
    hide Images, EvictOne, FirstWithImage, Evict, FirstFound;
    if m < i {
      EvictSnoc(no, c, i - 1);
      var d := Evict(no, c, i - 1);
      FirstImageEvicted(no, d);
      NothingEvicted(no, d);
      assert f in Images(d, 0);
      StillThere(no, c, m, i - 1, f);
    }
  }

  lemma NothingEvicted(no: Notices, d: History)
    ensures FirstWithImage(d) == |d| ==> EvictOne(no, d) == d
  {
  }

  lemma NextIsFound(no: Notices, d: History)
    requires FirstWithImage(d) < |d|
    ensures exists f :: f in Images(d, 0) && f.bytes == NextBytes(d)
  {
    hide Images, EvictOne;
    FirstImageEvicted(no, d);
    var n := FirstWithImage(d);
    var f := FirstFound(n, d[n]);
    FoundBytes(n, d[n]);
    assert f in Images(d, 0);
  }

  lemma FoundBytes(n: nat, item: Item)
    requires HasImage(item)
    ensures FirstFound(n, item).bytes == FirstImageBytes(item)
  {
  }

  /** An image evicted later counts in full in every earlier size. */
  lemma ImageInBody(no: Notices, c: History, m: nat, i: nat)
    requires m <= i && FirstWithImage(Evict(no, c, i)) < |c|
    ensures NextBytes(Evict(no, c, i)) + 2 <= BodyBytes(Evict(no, c, m))
  {
    hide Evict, Images, NextBytes, BodyBytes, FirstWithImage;
    NextIsFound(no, Evict(no, c, i));
    var f :| f in Images(Evict(no, c, i), 0) && f.bytes == NextBytes(Evict(no, c, i));
    StillThere(no, c, m, i, f);
    FoundInBody(Evict(no, c, m), f);
  }

  /** The estimate follows the drift unless it is smaller than the image it gives up. */
  lemma StepExact(no: Notices, d: History, running: nat)
    requires FirstWithImage(d) < |d| && running >= NextBytes(d) + 1
    ensures NextEst(no, d, running) - BodyBytes(EvictOne(no, d)) == running - BodyBytes(d) + DriftAt(no, d)
  {
    hide BodyBytes, EvictOne, NextRunning, Drift, HasImage, FirstImageBytes;
    var item := d[FirstWithImage(d)];
    var high := if running < BodyBytes(d) then BodyBytes(d) else running;
    RunningShift(no, item, running, high);
    EstimateDrift(no, d, high);
  }

  lemma RunningShift(no: Notices, item: Item, low: nat, high: nat)
    requires HasImage(item) && FirstImageBytes(item) + 1 <= low <= high
    ensures NextRunning(no, item, high) - NextRunning(no, item, low) == high - low
  {
    hide FirstImageBytes, PlaceholderBytes, EscapedBytes, WithNote, HasImage;
    OnlyItemsWithParts(item);
  }

  // ----- the loop reaches every target

  /** The estimate as it would be without its floor at zero. */
  function Ideal(no: Notices, c: History, running: nat, k: nat): int {
    BodyBytes(Evict(no, c, k)) + Ahead(no, c, running, k)
  }

  /** A new low of the estimate: a target at which the loop would stop here. */
  ghost predicate RecordLow(no: Notices, c: History, running: nat, k: nat) {
    forall j :: 0 <= j < k ==> Ideal(no, c, running, j) > Ideal(no, c, running, k)
  }

  /** At every new low among the first `n` counts the drifts are not behind. */
  ghost predicate HonestLows(no: Notices, c: History, running: nat, n: nat) {
    forall k :: 0 <= k < n && RecordLow(no, c, running, k) ==> Ahead(no, c, running, k) >= 0
  }

  lemma {:induction false} LowBefore(no: Notices, c: History, running: nat, i: nat) returns (m: nat)
    ensures m <= i && RecordLow(no, c, running, m)
    ensures Ideal(no, c, running, m) <= Ideal(no, c, running, i)
    decreases i
  {
    hide Ideal;
    if j: nat :| j < i && Ideal(no, c, running, j) <= Ideal(no, c, running, i) {
      m := LowBefore(no, c, running, j);
    } else {
      m := i;
    }
  }

  /** As long as the lows are honest the floor is never met. */
  lemma {:induction false} Unfloored(no: Notices, c: History, running: nat, i: nat)
    requires i <= AllImages(c) && HonestLows(no, c, running, i)
    ensures RunEst(no, c, running, i) == Ideal(no, c, running, i)
  {
    hide BodyBytes, EvictOne, NextEst, DriftAt, AllImages, FirstWithImage, Evict, RecordLow, NextBytes;
    if i == 0 {
      EvictNone(no, c);
    } else {
      assert HonestLows(no, c, running, i - 1);
      Unfloored(no, c, running, i - 1);
      var d := Evict(no, c, i - 1);
      HasImages(no, c, i - 1);
      var m := LowBefore(no, c, running, i - 1);
      ImageInBody(no, c, m, i - 1);
      StepExact(no, d, RunEst(no, c, running, i - 1));
      EvictSnoc(no, c, i - 1);
    }
  }

  ghost predicate Reaches(no: Notices, c: History, running: nat, target: nat) {
    var after := Evict(no, c, EvictCount(no, c, running, target));
    BodyBytes(after) <= target || AllImages(after) == 0
  }

  ghost predicate ReachesAll(no: Notices, c: History, running: nat) {
    forall target: nat :: Reaches(no, c, running, target)
  }

  lemma HonestReaches(no: Notices, c: History, running: nat, target: nat)
    requires HonestLows(no, c, running, AllImages(c))
    ensures Reaches(no, c, running, target)
  {
    hide BodyBytes, EvictCount, AllImages, Evict, RunEst, Ahead;
    var n, k := AllImages(c), EvictCount(no, c, running, target);
    EvictCountStops(no, c, running, target);
    HasImages(no, c, k);
    if k < n {
      forall j | 0 <= j <= k ensures RunEst(no, c, running, j) == Ideal(no, c, running, j) {
        Unfloored(no, c, running, j);
      }
      assert RecordLow(no, c, running, k);
    }
  }

  /** A dishonest low is a target that the loop believes it has reached. */
  lemma {:induction false} DishonestMisses(no: Notices, c: History, running: nat, k: nat) returns (target: nat, i: nat)
    requires k < AllImages(c) && RecordLow(no, c, running, k) && Ahead(no, c, running, k) < 0
    ensures i < AllImages(c) && EvictCount(no, c, running, target) == i
    ensures BodyBytes(Evict(no, c, i)) > target && AllImages(Evict(no, c, i)) > 0
    ensures i > 0 ==> running > target
  {
    hide BodyBytes, EvictCount, AllImages, Evict, RunEst, Ahead;
    if j: nat :| j < k && RecordLow(no, c, running, j) && Ahead(no, c, running, j) < 0 {
      target, i := DishonestMisses(no, c, running, j);
    } else {
      assert HonestLows(no, c, running, k);
      forall j | 0 <= j <= k ensures RunEst(no, c, running, j) == Ideal(no, c, running, j) {
        Unfloored(no, c, running, j);
      }
      target, i := RunEst(no, c, running, k), k;
      NoEvictions(no, c, running);
      StopsOnce(no, c, running, target, k);
      HasImages(no, c, k);
    }
  }

  /** The loop ends at or under every target, or without images, exactly when the
      drifts are not behind at any new low of the estimate. */
  lemma ReachesExactly(no: Notices, c: History, running: nat)
    ensures ReachesAll(no, c, running) <==> HonestLows(no, c, running, AllImages(c))
  {
    hide BodyBytes, EvictCount, AllImages, Evict, RecordLow, Ahead, Ideal;
    if HonestLows(no, c, running, AllImages(c)) {
      forall target: nat ensures Reaches(no, c, running, target) {
        HonestReaches(no, c, running, target);
      }
    } else {
      var k :| 0 <= k < AllImages(c) && RecordLow(no, c, running, k) && Ahead(no, c, running, k) < 0;
      var target, i := DishonestMisses(no, c, running, k);
      assert !Reaches(no, c, running, target);
    }
  }

  // ----- consequences

  lemma {:induction false} LargeAhead(no: Notices, c: History, running: nat, k: nat)
    requires LargeImages(no, c) && running >= BodyBytes(c) && k <= AllImages(c)
    ensures Ahead(no, c, running, k) >= 0 && LargeImages(no, Evict(no, c, k))
  {
    hide BodyBytes, AllImages, LargeImages, EvictOne, Drift, FirstWithImage;
    if k == 0 {
      EvictNone(no, c);
    } else {
      LargeAhead(no, c, running, k - 1);
      HasImages(no, c, k - 1);
      EvictSnoc(no, c, k - 1);
      LargeStep(no, Evict(no, c, k - 1));
    }
  }

  /** When no user image is smaller than its placeholder the estimate never falls
      behind: the loop ends at or under the target or with no image left. */
  lemma EvictReachesTarget(no: Notices, c: History, running: nat, target: nat)
    requires LargeImages(no, c) && running >= BodyBytes(c)
    ensures NeverFalls(no, c, running, AllImages(c))
    ensures var k := EvictCount(no, c, running, target);
      && k <= AllImages(c)
      && (BodyBytes(Evict(no, c, k)) <= target || AllImages(Evict(no, c, k)) == 0)
  {
    hide BodyBytes, EvictCount, AllImages, Evict, RecordLow, Ahead, LargeImages, RunEst;
    forall k | 0 <= k <= AllImages(c) ensures Ahead(no, c, running, k) >= 0 {
      LargeAhead(no, c, running, k);
    }
    EstimateNeverFalls(no, c, running);
    HonestReaches(no, c, running, target);
    EvictCountBound(no, c, running, target);
  }

  ghost predicate Settles(no: Notices, c: History, trigger: nat, target: nat) {
    BudgetEvictions(no, Budgeted(no, c, trigger, target), trigger, target) == 0
  }

  /** One application settles under all limits exactly when the loop reaches every target. */
  lemma SettlesExactly(no: Notices, c: History)
    ensures (forall trigger: nat, target: nat :: Settles(no, c, trigger, target))
       <==> HonestLows(no, c, BodyBytes(c), AllImages(c))
  {
    hide BodyBytes, EvictCount, AllImages, Evict, RecordLow, Ahead, Short, LargeImages, WithoutOldest;
    if HonestLows(no, c, BodyBytes(c), AllImages(c)) {
      forall trigger: nat, target: nat ensures Settles(no, c, trigger, target) {
        BudgetSettles(no, c, trigger, target);
        HonestReaches(no, c, BodyBytes(c), target);
        EvictNone(no, c);
      }
    } else {
      var k :| 0 <= k < AllImages(c) && RecordLow(no, c, BodyBytes(c), k) && Ahead(no, c, BodyBytes(c), k) < 0;
      var target, i := DishonestMisses(no, c, BodyBytes(c), k);
      EvictNone(no, c);
      BudgetSettles(no, c, 0, target);
      assert !Settles(no, c, 0, target);
    }
  }
}
