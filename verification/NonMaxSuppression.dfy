/** Greedy class-aware non-maximum suppression: once in the ONNX runtime, once more in the guild policy. */
module NonMaxSuppression {
  import opened Wrappers
  import opened StableSort
  import opened Reals

  datatype Box = Box(x1: real, y1: real, x2: real, y2: real)

  // ---------------------------------------------------------------- overlap

  /** The length of the intersection of two intervals. */
  function Overlap(a1: real, a2: real, b1: real, b2: real): real {
    Max(0.0, Min(a2, b2) - Max(a1, b1))
  }

  /** The sides of two boxes and of the rectangle they share. */
  datatype Sides = Sides(w: real, h: real, lw: real, lh: real, rw: real, rh: real)

  function SidesOf(l: Box, r: Box): Sides {
    Sides(Overlap(l.x1, l.x2, r.x1, r.x2), Overlap(l.y1, l.y2, r.y1, r.y2),
          Max(0.0, l.x2 - l.x1), Max(0.0, l.y2 - l.y1), Max(0.0, r.x2 - r.x1), Max(0.0, r.y2 - r.y1))
  }

  function Ratio(part: real, whole: real): real {
    if whole != 0.0 then part / whole else 0.0
  }

  function IouOf(s: Sides): real {
    var intersection := s.w * s.h;
    Ratio(intersection, s.lw * s.lh + s.rw * s.rh - intersection)
  }

  function Iou(l: Box, r: Box): real {
    IouOf(SidesOf(l, r))
  }

  /** The shared rectangle fits into both boxes. */
  predicate Fits(s: Sides) {
    0.0 <= s.w <= s.lw && s.w <= s.rw && 0.0 <= s.h <= s.lh && s.h <= s.rh
  }

  lemma SidesFit(l: Box, r: Box)
    ensures Fits(SidesOf(l, r))
  {
  }

  lemma ProductsAreMonotone(a: real, b: real, c: real, d: real)
    requires 0.0 <= a <= c && 0.0 <= b <= d
    ensures 0.0 <= a * b <= c * d
  {
    assert a * b <= c * b;
    assert c * b <= c * d;
  }

  lemma RatioWithinUnit(a: real, b: real)
    requires 0.0 <= a <= b
    ensures 0.0 <= Ratio(a, b) <= 1.0
  {
    if b > 0.0 {
      var q := a / b;
      assert q * b == a;
      assert (1.0 - q) * b == b - a;
    }
  }

  lemma RatioAbove(part: real, whole: real, t: real)
    requires 0.0 <= part <= whole && t >= 0.0
    ensures Ratio(part, whole) > t <==> part > t * whole
  {
    if whole > 0.0 {
      assert part == part / whole * whole;
      assert part - t * whole == (part / whole - t) * whole;
    }
  }

  lemma UnionIsLarger(s: Sides)
    requires Fits(s)
    ensures 0.0 <= s.w * s.h <= s.lw * s.lh + s.rw * s.rh - s.w * s.h
  {
    ProductsAreMonotone(s.w, s.h, s.lw, s.lh);
    ProductsAreMonotone(s.w, s.h, s.rw, s.rh);
  }

  lemma IouOfWithinUnit(s: Sides)
    requires Fits(s)
    ensures 0.0 <= IouOf(s) <= 1.0
  {
    UnionIsLarger(s);
    RatioWithinUnit(s.w * s.h, s.lw * s.lh + s.rw * s.rh - s.w * s.h);
  }

  lemma IouOfAbove(s: Sides, t: real)
    requires Fits(s) && t >= 0.0
    ensures IouOf(s) > t <==> s.w * s.h > t * (s.lw * s.lh + s.rw * s.rh - s.w * s.h)
  {
    UnionIsLarger(s);
    RatioAbove(s.w * s.h, s.lw * s.lh + s.rw * s.rh - s.w * s.h, t);
  }

  lemma SidesMirror(l: Box, r: Box)
    ensures SidesOf(r, l) == (var s := SidesOf(l, r); Sides(s.w, s.h, s.rw, s.rh, s.lw, s.lh))
  {
  }

  lemma IouOfMirror(s: Sides)
    ensures IouOf(s) == IouOf(Sides(s.w, s.h, s.rw, s.rh, s.lw, s.lh))
  {
    assert s.lw * s.lh + s.rw * s.rh - s.w * s.h == s.rw * s.rh + s.lw * s.lh - s.w * s.h;
  }

  /** IoU is symmetric and lies in the unit interval, whatever the corners are. */
  lemma IouProperties(l: Box, r: Box)
    ensures Iou(l, r) == Iou(r, l)
    ensures 0.0 <= Iou(l, r) <= 1.0
  {
    SidesMirror(l, r);
    IouOfMirror(SidesOf(l, r));
    SidesFit(l, r);
    IouOfWithinUnit(SidesOf(l, r));
  }

  /** `width` is the length two intervals share, and zero when they share none. */
  predicate Shared(a1: real, a2: real, b1: real, b2: real, width: real) {
    if a1 < a2 && b1 < b2 && a1 < b2 && b1 < a2
    then width == (if a2 < b2 then a2 else b2) - (if a1 > b1 then a1 else b1)
    else width == 0.0
  }

  /** The sides, measured interval by interval. */
  predicate Measured(l: Box, r: Box, s: Sides) {
    && Shared(l.x1, l.x2, r.x1, r.x2, s.w) && Shared(l.y1, l.y2, r.y1, r.y2, s.h)
    && Shared(l.x1, l.x2, l.x1, l.x2, s.lw) && Shared(l.y1, l.y2, l.y1, l.y2, s.lh)
    && Shared(r.x1, r.x2, r.x1, r.x2, s.rw) && Shared(r.y1, r.y2, r.y1, r.y2, s.rh)
  }

  lemma SidesAreMeasured(l: Box, r: Box, s: Sides)
    requires Measured(l, r, s)
    ensures s == SidesOf(l, r)
  {
  }

  /** Being above a threshold means that the shared rectangle is larger than that share of the union. */
  lemma IouAbove(l: Box, r: Box, t: real, s: Sides)
    requires t >= 0.0 && Measured(l, r, s)
    ensures Iou(l, r) > t <==> s.w * s.h > t * (s.lw * s.lh + s.rw * s.rh - s.w * s.h)
  {
    SidesAreMeasured(l, r, s);
    SidesFit(l, r);
    IouOfAbove(s, t);
  }

  /** The boxes share an area: on each axis both have a positive length and each begins before the other ends. */
  predicate Meet(l: Box, r: Box) {
    && l.x1 < l.x2 && r.x1 < r.x2 && l.x1 < r.x2 && r.x1 < l.x2
    && l.y1 < l.y2 && r.y1 < r.y2 && l.y1 < r.y2 && r.y1 < l.y2
  }

  lemma SidesOfMeeting(l: Box, r: Box)
    ensures Meet(l, r) <==> SidesOf(l, r).w > 0.0 && SidesOf(l, r).h > 0.0
  {
  }

  lemma IouOfPositiveIff(s: Sides)
    requires Fits(s)
    ensures IouOf(s) > 0.0 <==> s.w > 0.0 && s.h > 0.0
  {
    IouOfAbove(s, 0.0);
    if s.w > 0.0 && s.h > 0.0 {
      assert s.w * s.h > 0.0;
    } else {
      assert s.w == 0.0 || s.h == 0.0;
    }
  }

  lemma IouOfEqual(w: real, h: real)
    requires w > 0.0 && h > 0.0
    ensures IouOf(Sides(w, h, w, h, w, h)) == 1.0
  {
    var s := Sides(w, h, w, h, w, h);
    IouOfWithinUnit(s);
    IouOfAbove(s, IouOf(s));
    var a, t := w * h, IouOf(s);
    assert a > 0.0;
    assert a <= t * (a + a - a);
    WholeIffOne(t, a);
  }

  lemma WholeIffOne(t: real, b: real)
    requires b > 0.0
    ensures t * b >= b <==> t >= 1.0
  {
    assert (t - 1.0) * b == t * b - b;
  }

  /** The IoU is positive exactly when the boxes share an area, and one for equal boxes with an area. */
  lemma IouMeaning(l: Box, r: Box)
    ensures Iou(l, r) > 0.0 <==> Meet(l, r)
    ensures Meet(l, l) ==> Iou(l, l) == 1.0
  {
    SidesFit(l, r);
    SidesOfMeeting(l, r);
    IouOfPositiveIff(SidesOf(l, r));
    if Meet(l, l) {
      IouOfEqual(l.x2 - l.x1, l.y2 - l.y1);
      assert SidesOf(l, l) == Sides(l.x2 - l.x1, l.y2 - l.y1, l.x2 - l.x1, l.y2 - l.y1, l.x2 - l.x1, l.y2 - l.y1);
    }
  }

  // ---------------------------------------------------------------- greedy suppression

  /** `conflict(candidate, accepted)` keeps the candidate out. */
  function Nms<T>(candidates: seq<T>, conflict: (T, T) -> bool): seq<T> {
    if candidates == [] then []
    else
      var n := |candidates| - 1;
      var kept := Nms(candidates[..n], conflict);
      if exists i :: 0 <= i < |kept| && conflict(candidates[n], kept[i]) then kept else kept + [candidates[n]]
  }

  method NmsLoop<T>(candidates: seq<T>, conflict: (T, T) -> bool) returns (kept: seq<T>)
    ensures kept == Nms(candidates, conflict)
  {
    kept := [];
    for n := 0 to |candidates|
      invariant kept == Nms(candidates[..n], conflict)
    {
      assert candidates[..n + 1][..n] == candidates[..n];
      var clear := true;
      var i := 0;
      while i < |kept| && clear
        invariant i <= |kept|
        invariant clear <==> forall j :: 0 <= j < i ==> !conflict(candidates[n], kept[j])
      {
        if conflict(candidates[n], kept[i]) {
          clear := false;
        }
        i := i + 1;
      }
      if clear {
        kept := kept + [candidates[n]];
      }
    }
    assert candidates[..|candidates|] == candidates;
  }

  /** The candidates marked in `keep`. */
  function Select<T>(candidates: seq<T>, keep: seq<bool>): seq<T>
    requires |keep| == |candidates|
  {
    if candidates == [] then []
    else
      var n := |candidates| - 1;
      Select(candidates[..n], keep[..n]) + (if keep[n] then [candidates[n]] else [])
  }

  /** A kept candidate before `i` conflicts with it. */
  ghost predicate Blocked<T>(candidates: seq<T>, conflict: (T, T) -> bool, keep: seq<bool>, i: nat)
    requires i < |candidates| && i <= |keep|
  {
    exists j :: 0 <= j < i && keep[j] && conflict(candidates[i], candidates[j])
  }

  /** The kept candidates do not conflict with each other, and each dropped one conflicts with a kept one before it. */
  ghost predicate Suppresses<T>(candidates: seq<T>, conflict: (T, T) -> bool, keep: seq<bool>) {
    && |keep| == |candidates|
    && forall i {:trigger Blocked(candidates, conflict, keep, i)} ::
         0 <= i < |keep| ==> (keep[i] <==> !Blocked(candidates, conflict, keep, i))
  }

  lemma {:induction false} SelectMembers<T>(candidates: seq<T>, keep: seq<bool>, x: T) returns (i: nat)
    requires |keep| == |candidates| && x in Select(candidates, keep)
    ensures i < |keep| && keep[i] && candidates[i] == x
  {
    var n := |candidates| - 1;
    if keep[n] && candidates[n] == x {
      i := n;
    } else {
      i := SelectMembers(candidates[..n], keep[..n], x);
    }
  }

  lemma {:induction false} SelectContains<T>(candidates: seq<T>, keep: seq<bool>, i: nat)
    requires |keep| == |candidates| && i < |keep| && keep[i]
    ensures candidates[i] in Select(candidates, keep)
  {
    var n := |candidates| - 1;
    if i < n {
      SelectContains(candidates[..n], keep[..n], i);
    }
  }

  /** The marking that greedy suppression makes. */
  lemma {:induction false} NmsSuppresses<T>(candidates: seq<T>, conflict: (T, T) -> bool) returns (keep: seq<bool>)
    ensures Suppresses(candidates, conflict, keep)
    ensures Nms(candidates, conflict) == Select(candidates, keep)
  {
    keep := [];
    if candidates != [] {
      var n := |candidates| - 1;
      var before := NmsSuppresses(candidates[..n], conflict);
      var kept := Nms(candidates[..n], conflict);
      var blocked := exists i :: 0 <= i < |kept| && conflict(candidates[n], kept[i]);
      BlockedByKept(candidates, conflict, before);
      keep := before + [!blocked];
      ExtendSuppresses(candidates, conflict, before, !blocked);
      assert keep[..n] == before;
    }
  }

  lemma BlockedByKept<T>(candidates: seq<T>, conflict: (T, T) -> bool, before: seq<bool>)
    requires candidates != [] && |before| == |candidates| - 1
    ensures var kept := Select(candidates[..|before|], before);
      Blocked(candidates, conflict, before, |before|)
      <==> exists i :: 0 <= i < |kept| && conflict(candidates[|before|], kept[i])
  {
    var n := |before|;
    var kept := Select(candidates[..n], before);
    if i :| 0 <= i < |kept| && conflict(candidates[n], kept[i]) {
      var j := SelectMembers(candidates[..n], before, kept[i]);
      assert before[j] && conflict(candidates[n], candidates[j]);
    }
    if Blocked(candidates, conflict, before, n) {
      var j :| 0 <= j < n && before[j] && conflict(candidates[n], candidates[j]);
      SelectContains(candidates[..n], before, j);
      assert candidates[j] in kept;
      var i :| 0 <= i < |kept| && kept[i] == candidates[j];
      assert conflict(candidates[n], kept[i]);
    }
  }

  lemma SameBlocked<T>(a: seq<T>, b: seq<T>, conflict: (T, T) -> bool, x: seq<bool>, y: seq<bool>, i: nat)
    requires i < |a| && i < |b| && i <= |x| && i <= |y|
    requires a[i] == b[i] && forall j :: 0 <= j < i ==> a[j] == b[j] && x[j] == y[j]
    ensures Blocked(a, conflict, x, i) == Blocked(b, conflict, y, i)
  {
    if Blocked(a, conflict, x, i) {
      var j :| 0 <= j < i && x[j] && conflict(a[i], a[j]);
      assert y[j] && conflict(b[i], b[j]);
    }
    if Blocked(b, conflict, y, i) {
      var j :| 0 <= j < i && y[j] && conflict(b[i], b[j]);
      assert x[j] && conflict(a[i], a[j]);
    }
  }

  lemma ExtendSuppresses<T>(candidates: seq<T>, conflict: (T, T) -> bool, before: seq<bool>, last: bool)
    requires candidates != [] && Suppresses(candidates[..|candidates| - 1], conflict, before)
    requires last <==> !Blocked(candidates, conflict, before, |before|)
    ensures Suppresses(candidates, conflict, before + [last])
  {
    var n := |candidates| - 1;
    var keep := before + [last];
    forall i | 0 <= i < |keep| ensures keep[i] <==> !Blocked(candidates, conflict, keep, i) {
      if i < n {
        SameBlocked(candidates[..n], candidates, conflict, before, keep, i);
        assert before[i] <==> !Blocked(candidates[..n], conflict, before, i);
      } else {
        SameBlocked(candidates, candidates, conflict, before, keep, n);
      }
    }
  }

  lemma {:induction false} SameMark<T>(candidates: seq<T>, conflict: (T, T) -> bool, a: seq<bool>, b: seq<bool>, i: nat)
    requires Suppresses(candidates, conflict, a) && Suppresses(candidates, conflict, b) && i < |candidates|
    ensures a[i] == b[i]
  {
    forall j | 0 <= j < i ensures a[j] == b[j] {
      SameMark(candidates, conflict, a, b, j);
    }
    SameBlocked(candidates, candidates, conflict, a, b, i);
    assert a[i] <==> !Blocked(candidates, conflict, a, i);
    assert b[i] <==> !Blocked(candidates, conflict, b, i);
  }

  /** Only one marking suppresses, so the two conditions determine the result of greedy suppression. */
  lemma SuppressionIsUnique<T>(candidates: seq<T>, conflict: (T, T) -> bool, keep: seq<bool>)
    requires Suppresses(candidates, conflict, keep)
    ensures Nms(candidates, conflict) == Select(candidates, keep)
  {
    var greedy := NmsSuppresses(candidates, conflict);
    forall i | 0 <= i < |keep| ensures keep[i] == greedy[i] {
      SameMark(candidates, conflict, keep, greedy, i);
    }
    assert keep == greedy;
  }

  ghost predicate ConflictFree<T>(s: seq<T>, conflict: (T, T) -> bool) {
    forall i, j :: 0 <= j < i < |s| ==> !conflict(s[i], s[j])
  }

  lemma {:induction false} NmsIsConflictFree<T>(candidates: seq<T>, conflict: (T, T) -> bool)
    ensures ConflictFree(Nms(candidates, conflict), conflict)
  {
    if candidates != [] {
      NmsIsConflictFree(candidates[..|candidates| - 1], conflict);
    }
  }

  lemma {:induction false} NmsOfConflictFree<T>(s: seq<T>, conflict: (T, T) -> bool)
    requires ConflictFree(s, conflict)
    ensures Nms(s, conflict) == s
  {
    if s != [] {
      var n := |s| - 1;
      NmsOfConflictFree(s[..n], conflict);
    }
  }

  /** Suppressing twice is suppressing once. */
  lemma NmsIsIdempotent<T>(candidates: seq<T>, conflict: (T, T) -> bool)
    ensures Nms(Nms(candidates, conflict), conflict) == Nms(candidates, conflict)
  {
    NmsIsConflictFree(candidates, conflict);
    NmsOfConflictFree(Nms(candidates, conflict), conflict);
  }

  lemma {:induction false} NmsMembers<T>(candidates: seq<T>, conflict: (T, T) -> bool)
    ensures forall x :: x in Nms(candidates, conflict) ==> x in candidates
  {
    if candidates != [] {
      NmsMembers(candidates[..|candidates| - 1], conflict);
    }
  }

  // ---------------------------------------------------------------- the two passes

  datatype Detection = Detection(class': string, confidence: real, box: Option<Box>)

  datatype RuntimeConfig = RuntimeConfig(confidence: real, iou: real, maxDetections: nat)

  /** A candidate of the runtime: class index, score and box. */
  datatype Candidate = Candidate(classId: nat, confidence: real, box: Box)

  function CandidateScore(): Candidate -> real {
    (c: Candidate) => c.confidence
  }

  function DetectionScore(): Detection -> real {
    (d: Detection) => d.confidence
  }

  function RuntimeConflict(iou: real): (Candidate, Candidate) -> bool {
    (c: Candidate, accepted: Candidate) => c.classId == accepted.classId && Iou(c.box, accepted.box) > iou
  }

  function Take<T>(s: seq<T>, n: nat): seq<T> {
    if |s| > n then s[..n] else s
  }

  function Confident(threshold: real): Candidate -> bool {
    (c: Candidate) => !(c.confidence < threshold)
  }

  function Published(classes: seq<string>): Candidate -> Detection {
    (c: Candidate) => Detection(if c.classId < |classes| then classes[c.classId] else "", c.confidence, Some(c.box))
  }

  function Map<T, U>(s: seq<T>, f: T -> U): (r: seq<U>)
    ensures |r| == |s| && forall i :: 0 <= i < |r| ==> r[i] == f(s[i])
  {
    seq(|s|, i requires 0 <= i < |s| => f(s[i]))
  }

  /** The candidates the runtime keeps of the decoded rows. */
  function RuntimeKept(config: RuntimeConfig, rows: seq<Candidate>): seq<Candidate> {
    var candidates := Filter(rows, Confident(config.confidence));
    Take(Nms(SortDescending(candidates, CandidateScore()), RuntimeConflict(config.iou)), config.maxDetections)
  }

  /** The runtime pass over decoded rows. */
  function RuntimePass(config: RuntimeConfig, classes: seq<string>, rows: seq<Candidate>): seq<Detection> {
    Map(RuntimeKept(config, rows), Published(classes))
  }

  datatype ClassPolicy = ClassPolicy(enabled: bool, minConfidence: real)

  datatype YoloPolicy = YoloPolicy(classes: map<string, ClassPolicy>, confidence: real, iou: real, maxDetections: nat)

  /** Whether a detection's class is enabled and its score high enough; `fold` is the class-name normalisation. */
  function Qualifies(policy: YoloPolicy, fold: string -> string): Detection -> bool {
    (d: Detection) =>
      var name := fold(d.class');
      name in policy.classes && policy.classes[name].enabled
      && d.confidence >= Max(policy.confidence, policy.classes[name].minConfidence)
  }

  function PolicyConflict(iou: real): (Detection, Detection) -> bool {
    (d: Detection, accepted: Detection) =>
      d.class' == accepted.class' && d.box.Some? && accepted.box.Some? && Iou(d.box.value, accepted.box.value) > iou
  }

  /** The guild policy's pass over the detections of the runtime. */
  function PolicyPass(policy: YoloPolicy, fold: string -> string, detections: seq<Detection>): seq<Detection> {
    var candidates := Filter(detections, Qualifies(policy, fold));
    Take(Nms(SortDescending(candidates, DetectionScore()), PolicyConflict(policy.iou)), policy.maxDetections)
  }

  method ApplyYoloPolicy(policy: YoloPolicy, fold: string -> string, detections: seq<Detection>) returns (kept: seq<Detection>)
    ensures kept == PolicyPass(policy, fold, detections)
  {
    var candidates: seq<Detection> := [];
    for i := 0 to |detections|
      invariant candidates == Filter(detections[..i], Qualifies(policy, fold))
    {
      assert detections[..i + 1][..i] == detections[..i];
      var d := detections[i];
      if Qualifies(policy, fold)(d) {
        candidates := candidates + [d];
      }
    }
    assert detections[..|detections|] == detections;
    kept := NmsLoop(SortDescending(candidates, DetectionScore()), PolicyConflict(policy.iou));
    kept := if |kept| > policy.maxDetections then kept[..policy.maxDetections] else kept;
  }

  // ---------------------------------------------------------------- what the policy pass guarantees

  lemma {:induction false} NmsKeepsOrder<T(!new)>(s: seq<T>, conflict: (T, T) -> bool, key: T -> real)
    requires Descending(s, key)
    ensures Descending(Nms(s, conflict), key)
  {
    if s != [] {
      var n := |s| - 1;
      NmsKeepsOrder(s[..n], conflict, key);
      NmsMembers(s[..n], conflict);
      var kept := Nms(s[..n], conflict);
      forall i | 0 <= i < |kept| ensures key(kept[i]) >= key(s[n]) {
        assert kept[i] in kept;
        var j :| 0 <= j < n && s[..n][j] == kept[i];
      }
    }
  }

  /** A candidate that does not survive suppression conflicts with a survivor that scores at least as high. */
  lemma {:induction false} SuppressedByBetter<T(!new)>(s: seq<T>, conflict: (T, T) -> bool, key: T -> real, x: T)
    requires Descending(s, key) && x in s
    ensures x in Nms(s, conflict) || exists y :: y in Nms(s, conflict) && conflict(x, y) && key(y) >= key(x)
  {
    var n := |s| - 1;
    var kept := Nms(s[..n], conflict);
    NmsMembers(s[..n], conflict);
    if x in s[..n] {
      SuppressedByBetter(s[..n], conflict, key, x);
      assert forall y :: y in kept ==> y in Nms(s, conflict);
    } else {
      assert x == s[n];
      if i :| 0 <= i < |kept| && conflict(x, kept[i]) {
        assert kept[i] in kept;
        var j :| 0 <= j < n && s[..n][j] == kept[i];
        assert kept[i] in Nms(s, conflict);
      }
    }
  }

  lemma TakeHas<T>(s: seq<T>, n: nat, k: nat)
    requires k < |s|
    ensures k < n || |s| <= n ==> s[k] in Take(s, n)
  {
    if k < n || |s| <= n {
      assert Take(s, n)[k] == s[k];
    }
  }

  /** What a truncation cuts off is no better than what it leaves. */
  lemma CutOff<T(!new)>(s: seq<T>, n: nat, key: T -> real, d: T)
    requires Descending(s, key) && d in s && d !in Take(s, n)
    ensures |Take(s, n)| == n && forall y :: y in Take(s, n) ==> key(y) >= key(d)
  {
    var k :| 0 <= k < |s| && s[k] == d;
    TakeHas(s, n, k);
    forall y | y in Take(s, n) ensures key(y) >= key(d) {
      var i :| 0 <= i < n && Take(s, n)[i] == y;
      assert key(s[i]) >= key(s[k]);
    }
  }

  /** A pass that filters, sorts, suppresses and truncates. */
  function Passed<T>(items: seq<T>, keep: T -> bool, key: T -> real, conflict: (T, T) -> bool, n: nat): seq<T> {
    Take(Nms(SortDescending(Filter(items, keep), key), conflict), n)
  }

  /** What it works on: kept items, the same by descending score, and those suppression leaves. */
  lemma Survivors<T(!new)>(items: seq<T>, keep: T -> bool, key: T -> real, conflict: (T, T) -> bool)
    ensures var sorted := SortDescending(Filter(items, keep), key);
      && (forall d :: d in sorted <==> d in items && keep(d))
      && (forall d :: d in Nms(sorted, conflict) ==> d in sorted)
      && Descending(sorted, key) && Descending(Nms(sorted, conflict), key)
      && ConflictFree(Nms(sorted, conflict), conflict)
  {
    var candidates := Filter(items, keep);
    var sorted := SortDescending(candidates, key);
    FilterMembers(items, keep);
    SortMembers(candidates, key);
    SortIsDescending(candidates, key);
    NmsMembers(sorted, conflict);
    NmsKeepsOrder(sorted, conflict, key);
    NmsIsConflictFree(sorted, conflict);
  }

  /** Such a pass is sound. */
  lemma PassedIsSound<T(!new)>(items: seq<T>, keep: T -> bool, key: T -> real, conflict: (T, T) -> bool, n: nat)
    ensures var result := Passed(items, keep, key, conflict, n);
      && |result| <= n && Descending(result, key) && ConflictFree(result, conflict)
      && forall d :: d in result ==> d in items && keep(d)
  {
    Survivors(items, keep, key, conflict);
    TakeMembers(Nms(SortDescending(Filter(items, keep), key), conflict), n);
  }

  /** And complete: what it leaves out conflicts with something it returns that scores at least as high, or it
      returns as much as it may of what scores at least as high. */
  lemma PassedIsComplete<T(!new)>(items: seq<T>, keep: T -> bool, key: T -> real, conflict: (T, T) -> bool, n: nat, d: T)
    requires d in items && keep(d)
    ensures var result := Passed(items, keep, key, conflict, n);
      || d in result
      || (exists y :: y in result && conflict(d, y) && key(y) >= key(d))
      || (|result| == n && forall y :: y in result ==> key(y) >= key(d))
  {
    var sorted := SortDescending(Filter(items, keep), key);
    Survivors(items, keep, key, conflict);
    SuppressedByBetter(sorted, conflict, key, d);
    var kept := Nms(sorted, conflict);
    if d in kept {
      if d !in Take(kept, n) {
        CutOff(kept, n, key, d);
      }
    } else {
      var y :| y in kept && conflict(d, y) && key(y) >= key(d);
      if y !in Take(kept, n) {
        CutOff(kept, n, key, y);
      }
    }
  }

  /** A detection the policy lets through: its class is listed and enabled, and its score reaches both thresholds. */
  predicate LetThrough(policy: YoloPolicy, fold: string -> string, d: Detection) {
    && fold(d.class') in policy.classes
    && policy.classes[fold(d.class')].enabled
    && d.confidence >= policy.confidence
    && d.confidence >= policy.classes[fold(d.class')].minConfidence
  }

  /** Both detections name the same class and have boxes whose IoU is above the threshold. */
  predicate SameObject(d: Detection, y: Detection, iou: real) {
    d.class' == y.class' && d.box.Some? && y.box.Some? && Iou(d.box.value, y.box.value) > iou
  }

  /** The policy pass returns detections of the input that are let through, by descending score, and never two of the
      same object; one that is let through and left out is the same object as one it returns of at least its score,
      or the result is full of detections of at least its score. */
  lemma PolicyPassGuarantees(policy: YoloPolicy, fold: string -> string, detections: seq<Detection>)
    ensures var result := PolicyPass(policy, fold, detections);
      && |result| <= policy.maxDetections
      && (forall d :: d in result ==> d in detections && LetThrough(policy, fold, d))
      && (forall i, j :: 0 <= i < j < |result| ==> result[i].confidence >= result[j].confidence)
      && (forall i, j :: 0 <= i < j < |result| ==> !SameObject(result[j], result[i], policy.iou))
    ensures var result := PolicyPass(policy, fold, detections);
      forall d :: d in detections && LetThrough(policy, fold, d) ==>
        || d in result
        || (exists y :: y in result && SameObject(d, y, policy.iou) && y.confidence >= d.confidence)
        || (|result| == policy.maxDetections && forall y :: y in result ==> y.confidence >= d.confidence)
  {
    var keep, key, conflict := Qualifies(policy, fold), DetectionScore(), PolicyConflict(policy.iou);
    var result := PolicyPass(policy, fold, detections);
    PassedIsSound(detections, keep, key, conflict, policy.maxDetections);
    forall i, j | 0 <= i < j < |result|
      ensures result[i].confidence >= result[j].confidence && !SameObject(result[j], result[i], policy.iou)
    {
      assert key(result[i]) >= key(result[j]) && !conflict(result[j], result[i]);
    }
    forall d | d in detections && LetThrough(policy, fold, d)
      ensures || d in result
        || (exists y :: y in result && SameObject(d, y, policy.iou) && y.confidence >= d.confidence)
        || (|result| == policy.maxDetections && forall y :: y in result ==> y.confidence >= d.confidence)
    {
      LeftOut(policy, fold, detections, d);
    }
  }

  lemma LeftOut(policy: YoloPolicy, fold: string -> string, detections: seq<Detection>, d: Detection)
    requires d in detections && LetThrough(policy, fold, d)
    ensures var result := PolicyPass(policy, fold, detections);
      || d in result
      || (exists y :: y in result && SameObject(d, y, policy.iou) && y.confidence >= d.confidence)
      || (|result| == policy.maxDetections && forall y :: y in result ==> y.confidence >= d.confidence)
  {
    var keep, key, conflict := Qualifies(policy, fold), DetectionScore(), PolicyConflict(policy.iou);
    var result := PolicyPass(policy, fold, detections);
    PassedIsComplete(detections, keep, key, conflict, policy.maxDetections, d);
    if y :| y in result && conflict(d, y) && key(y) >= key(d) {
      assert SameObject(d, y, policy.iou);
    } else if d !in result {
      forall y | y in result ensures y.confidence >= d.confidence {
        assert key(y) >= key(d);
      }
    }
  }

  /** The runtime pass publishes rows that reach its threshold, by descending score, never two of a class with an IoU
      above its threshold, under the same two conditions for what it leaves out. */
  lemma RuntimePassGuarantees(config: RuntimeConfig, classes: seq<string>, rows: seq<Candidate>)
    ensures var kept := RuntimeKept(config, rows);
      && |RuntimePass(config, classes, rows)| == |kept| <= config.maxDetections
      && (forall i :: 0 <= i < |kept| && kept[i].classId < |classes| ==>
            RuntimePass(config, classes, rows)[i] == Detection(classes[kept[i].classId], kept[i].confidence, Some(kept[i].box)))
      && (forall c :: c in kept ==> c in rows && c.confidence >= config.confidence)
      && (forall i, j :: 0 <= i < j < |kept| ==> kept[i].confidence >= kept[j].confidence)
      && (forall i, j :: 0 <= i < j < |kept| && kept[i].classId == kept[j].classId ==> Iou(kept[j].box, kept[i].box) <= config.iou)
  {
    var keep, key, conflict := Confident(config.confidence), CandidateScore(), RuntimeConflict(config.iou);
    var kept := RuntimeKept(config, rows);
    PassedIsSound(rows, keep, key, conflict, config.maxDetections);
    forall i, j | 0 <= i < j < |kept|
      ensures kept[i].confidence >= kept[j].confidence
      ensures kept[i].classId == kept[j].classId ==> Iou(kept[j].box, kept[i].box) <= config.iou
    {
      assert key(kept[i]) >= key(kept[j]) && !conflict(kept[j], kept[i]);
    }
  }

  lemma RuntimeLeftOut(config: RuntimeConfig, rows: seq<Candidate>, c: Candidate)
    requires c in rows && c.confidence >= config.confidence
    ensures var kept := RuntimeKept(config, rows);
      || c in kept
      || (exists y :: y in kept && y.classId == c.classId && Iou(c.box, y.box) > config.iou && y.confidence >= c.confidence)
      || (|kept| == config.maxDetections && forall y :: y in kept ==> y.confidence >= c.confidence)
  {
    var keep, key, conflict := Confident(config.confidence), CandidateScore(), RuntimeConflict(config.iou);
    var kept := RuntimeKept(config, rows);
    PassedIsComplete(rows, keep, key, conflict, config.maxDetections, c);
    if y :| y in kept && conflict(c, y) && key(y) >= key(c) {
      assert y.classId == c.classId && Iou(c.box, y.box) > config.iou && y.confidence >= c.confidence;
    } else if c !in kept {
      forall y | y in kept ensures y.confidence >= c.confidence {
        assert key(y) >= key(c);
      }
    }
  }

  lemma TakeMembers<T>(s: seq<T>, n: nat)
    ensures forall x :: x in Take(s, n) ==> x in s
  {
  }

  // ---------------------------------------------------------------- an open runtime pass is invisible

  lemma {:induction false} InsertMap<T, U>(s: seq<T>, x: T, f: T -> U, key: U -> real, key': T -> real)
    requires forall t :: key'(t) == key(f(t))
    ensures Map(Insert(s, x, key'), f) == Insert(Map(s, f), f(x), key)
  {
    if s == [] || key'(s[|s| - 1]) >= key'(x) {
      assert Map(s + [x], f) == Map(s, f) + [f(x)];
    } else {
      var n := |s| - 1;
      InsertMap(s[..n], x, f, key, key');
      assert Map(s, f)[..n] == Map(s[..n], f);
      assert Map(Insert(s[..n], x, key') + [s[n]], f) == Map(Insert(s[..n], x, key'), f) + [f(s[n])];
    }
  }

  lemma {:induction false} SortMap<T, U>(s: seq<T>, f: T -> U, key: U -> real, key': T -> real)
    requires forall t :: key'(t) == key(f(t))
    ensures Map(SortDescending(s, key'), f) == SortDescending(Map(s, f), key)
  {
    if s != [] {
      var n := |s| - 1;
      SortMap(s[..n], f, key, key');
      InsertMap(SortDescending(s[..n], key'), s[n], f, key, key');
      assert Map(s, f)[..n] == Map(s[..n], f);
    }
  }

  /** With confidence threshold zero, IoU threshold one and no truncation, the runtime pass only sorts: the
      guild policy then returns exactly what it would return on the raw rows. */
  lemma OpenRuntimePassIsInvisible(
      config: RuntimeConfig, policy: YoloPolicy, fold: string -> string, classes: seq<string>, rows: seq<Candidate>)
    requires config.confidence <= 0.0 && config.iou >= 1.0 && config.maxDetections >= |rows|
    requires forall c :: c in rows ==> c.confidence >= 0.0
    ensures PolicyPass(policy, fold, RuntimePass(config, classes, rows))
         == PolicyPass(policy, fold, Map(rows, Published(classes)))
  {
    FilterNothing(rows, Confident(config.confidence));
    var sorted := SortDescending(rows, CandidateScore());
    SortMembers(rows, CandidateScore());
    forall i, j | 0 <= j < i < |sorted| ensures !RuntimeConflict(config.iou)(sorted[i], sorted[j]) {
      IouProperties(sorted[i].box, sorted[j].box);
    }
    NmsOfConflictFree(sorted, RuntimeConflict(config.iou));
    var raw := Map(rows, Published(classes));
    SortMap(rows, Published(classes), DetectionScore(), CandidateScore());
    assert RuntimePass(config, classes, rows) == SortDescending(raw, DetectionScore());
    SortFilterSort(raw, DetectionScore(), Qualifies(policy, fold));
  }
}
