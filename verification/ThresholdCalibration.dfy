/** Per-label threshold calibration: the prefix-sum search for the cutoff with the best F1,
    proved to be optimal over every real threshold. Scores are exact reals. */
module ThresholdCalibration {
  import opened Sequences
  import opened Wrappers

  /** A target of one label column: 1 when the row carries the label. */
  type Target = n: nat | n <= 1

  datatype Metrics = Metrics(precision: real, recall: real, f1: real)

  datatype Calibration = Calibration(threshold: real, metrics: Metrics)

  // ---------------------------------------------------------------- counting

  function Range(n: nat): (r: seq<nat>)
    ensures |r| == n && forall i :: 0 <= i < n ==> r[i] == i
  {
    seq(n, i => i)
  }

  ghost predicate Indices(idx: seq<nat>, n: nat) {
    forall i :: 0 <= i < |idx| ==> idx[i] < n
  }

  /** Whether a row has target `b` and prediction `p`. */
  function Hits(targets: seq<Target>, predictions: seq<bool>, b: Target, p: bool): nat -> int {
    (i: nat) => if i < |targets| && i < |predictions| && targets[i] == b && predictions[i] == p then 1 else 0
  }

  /** How many rows do. */
  function CountRows(targets: seq<Target>, predictions: seq<bool>, b: Target, p: bool): nat
    requires |predictions| == |targets|
  {
    SumNonNegative(Range(|targets|), Hits(targets, predictions, b, p));
    SumOf(Range(|targets|), Hits(targets, predictions, b, p))
  }

  /** Counting does not depend on the order in which the rows are visited. */
  lemma CountPermuted(targets: seq<Target>, predictions: seq<bool>, b: Target, p: bool, order: seq<nat>)
    requires |predictions| == |targets| && multiset(order) == multiset(Range(|targets|))
    ensures CountRows(targets, predictions, b, p) == SumOf(order, Hits(targets, predictions, b, p))
  {
    SumPermuted(order, Range(|targets|), Hits(targets, predictions, b, p));
  }

  // ---------------------------------------------------------------- metrics

  function MetricsOf(tp: nat, fp: nat, fn: nat): Metrics {
    var precision := if tp + fp != 0 then tp as real / (tp + fp) as real else 0.0;
    var recall := if tp + fn != 0 then tp as real / (tp + fn) as real else 0.0;
    var f1 := if precision + recall != 0.0 then 2.0 * precision * recall / (precision + recall) else 0.0;
    Metrics(precision, recall, f1)
  }

  function ComputeMetrics(targets: seq<Target>, predictions: seq<bool>): Metrics
    requires |predictions| == |targets|
  {
    MetricsOf(CountRows(targets, predictions, 1, true),
              CountRows(targets, predictions, 0, true),
              CountRows(targets, predictions, 1, false))
  }

  // ---------------------------------------------------------------- what the metrics mean

  /** The rows of the column. */
  function PositiveRows(targets: seq<Target>): set<nat> {
    set i | 0 <= i < |targets| && targets[i] == 1
  }

  /** The rows predicted to carry the label. */
  function PredictedRows(predictions: seq<bool>): set<nat> {
    set i | 0 <= i < |predictions| && predictions[i]
  }

  /** The rows among the first `n` with target `b` and prediction `p`. */
  function RowsWith(targets: seq<Target>, predictions: seq<bool>, b: Target, p: bool, n: nat): set<nat>
    requires n <= |targets| == |predictions|
  {
    set i | 0 <= i < n && targets[i] == b && predictions[i] == p
  }

  lemma {:induction false} CountIsSize(targets: seq<Target>, predictions: seq<bool>, b: Target, p: bool, n: nat)
    requires n <= |targets| == |predictions|
    ensures SumTo(Range(|targets|), Hits(targets, predictions, b, p), n) == |RowsWith(targets, predictions, b, p, n)|
  {
    if n == 0 {
      assert RowsWith(targets, predictions, b, p, 0) == {};
    } else {
      CountIsSize(targets, predictions, b, p, n - 1);
      RowsGrow(targets, predictions, b, p, n);
      assert Range(|targets|)[n - 1] == n - 1;
    }
  }

  lemma RowsGrow(targets: seq<Target>, predictions: seq<bool>, b: Target, p: bool, n: nat)
    requires 0 < n <= |targets| == |predictions|
    ensures |RowsWith(targets, predictions, b, p, n)|
      == |RowsWith(targets, predictions, b, p, n - 1)| + Hits(targets, predictions, b, p)(n - 1)
  {
    var before, rows := RowsWith(targets, predictions, b, p, n - 1), RowsWith(targets, predictions, b, p, n);
    if targets[n - 1] == b && predictions[n - 1] == p {
      assert rows == before + {n - 1};
    } else {
      assert rows == before;
    }
  }

  lemma SplitSize(all: set<nat>, a: set<nat>, b: set<nat>)
    requires all == a + b && a * b == {}
    ensures |all| == |a| + |b|
  {
  }

  lemma CountsBySets(targets: seq<Target>, predictions: seq<bool>)
    requires |predictions| == |targets|
    ensures var positive, predicted := PositiveRows(targets), PredictedRows(predictions);
      && CountRows(targets, predictions, 1, true) == |positive * predicted|
      && CountRows(targets, predictions, 1, true) + CountRows(targets, predictions, 0, true) == |predicted|
      && CountRows(targets, predictions, 1, true) + CountRows(targets, predictions, 1, false) == |positive|
  {
    var n := |targets|;
    CountIsSize(targets, predictions, 1, true, n);
    CountIsSize(targets, predictions, 0, true, n);
    CountIsSize(targets, predictions, 1, false, n);
    var hits := RowsWith(targets, predictions, 1, true, n);
    assert hits == PositiveRows(targets) * PredictedRows(predictions);
    SplitSize(PredictedRows(predictions), hits, RowsWith(targets, predictions, 0, true, n));
    SplitSize(PositiveRows(targets), hits, RowsWith(targets, predictions, 1, false, n));
  }

  lemma QuotientTimes(a: nat, b: nat)
    requires b > 0
    ensures a as real / b as real * b as real == a as real
  {
  }

  lemma MetricsOfCounts(tp: nat, fp: nat, fn: nat)
    ensures var m := MetricsOf(tp, fp, fn);
      && m.precision * (tp + fp) as real == tp as real && (tp + fp == 0 ==> m.precision == 0.0)
      && m.recall * (tp + fn) as real == tp as real && (tp + fn == 0 ==> m.recall == 0.0)
  {
    if tp + fp > 0 {
      QuotientTimes(tp, tp + fp);
    }
    if tp + fn > 0 {
      QuotientTimes(tp, tp + fn);
    }
  }

  lemma DiceTimes(tp: nat, fp: nat, fn: nat)
    ensures Dice(tp, fp, fn) * (2 * tp + fp + fn) as real == (2 * tp) as real
    ensures 2 * tp + fp + fn == 0 ==> Dice(tp, fp, fn) == 0.0
  {
    if 2 * tp + fp + fn > 0 {
      QuotientTimes(2 * tp, 2 * tp + fp + fn);
    }
  }

  /** Precision is the share of the predicted rows that are positive, recall the share of the positive rows that are
      predicted, and F1 twice the rows that are both over the rows of either kind; each is zero without such rows. */
  ghost predicate Measures(m: Metrics, positive: set<nat>, predicted: set<nat>) {
    && m.precision * |predicted| as real == |positive * predicted| as real
    && m.recall * |positive| as real == |positive * predicted| as real
    && m.f1 * (|positive| + |predicted|) as real == (2 * |positive * predicted|) as real
    && (predicted == {} ==> m.precision == 0.0)
    && (positive == {} ==> m.recall == 0.0)
    && (positive == {} && predicted == {} ==> m.f1 == 0.0)
  }

  /** The metrics of any predictions. */
  lemma MetricsMeaning(targets: seq<Target>, predictions: seq<bool>)
    requires |predictions| == |targets|
    ensures Measures(ComputeMetrics(targets, predictions), PositiveRows(targets), PredictedRows(predictions))
  {
    CountsBySets(targets, predictions);
    var tp, fp, fn := CountRows(targets, predictions, 1, true), CountRows(targets, predictions, 0, true),
                      CountRows(targets, predictions, 1, false);
    MetricsBySizes(tp, fp, fn, PositiveRows(targets), PredictedRows(predictions));
  }

  lemma MetricsBySizes(tp: nat, fp: nat, fn: nat, positive: set<nat>, predicted: set<nat>)
    requires |positive * predicted| == tp && |predicted| == tp + fp && |positive| == tp + fn
    ensures Measures(MetricsOf(tp, fp, fn), positive, predicted)
  {
    MetricsOfCounts(tp, fp, fn);
    HarmonicIsDice(tp, fp, fn);
    DiceTimes(tp, fp, fn);
    assert |positive| + |predicted| == 2 * tp + fp + fn;
  }

  /** The prefix-sum form of F1: zero where its denominator vanishes. */
  function Dice(tp: int, fp: int, fn: int): real {
    var denominator := 2 * tp + fp + fn;
    if denominator != 0 then (2 * tp) as real / denominator as real else 0.0
  }

  lemma HarmonicMeanOfRatios(t: real, x: real, y: real)
    requires t > 0.0 && x >= t && y >= t
    ensures t / x + t / y > 0.0
    ensures 2.0 * (t / x) * (t / y) / (t / x + t / y) == 2.0 * t / (x + y)
  {
    var p, r := t / x, t / y;
    assert p * x == t && r * y == t;
    assert p > 0.0 && r > 0.0;
    assert p * r * (x + y) == t * r + t * p by {
      assert p * r * (x + y) == (p * x) * r + (r * y) * p;
    }
    assert 2.0 * p * r * (x + y) == 2.0 * t * (p + r);
    var h := 2.0 * p * r / (p + r);
    assert h * (p + r) == 2.0 * p * r;
    assert h * (x + y) * (p + r) == 2.0 * t * (p + r) by {
      assert h * (x + y) * (p + r) == h * (p + r) * (x + y);
    }
    assert h * (x + y) == 2.0 * t by {
      assert (h * (x + y) - 2.0 * t) * (p + r) == 0.0;
    }
  }

  /** The harmonic mean of precision and recall is the prefix-sum ratio, for all counts. */
  lemma HarmonicIsDice(tp: nat, fp: nat, fn: nat)
    ensures MetricsOf(tp, fp, fn).f1 == Dice(tp, fp, fn)
  {
    if tp > 0 {
      HarmonicMeanOfRatios(tp as real, (tp + fp) as real, (tp + fn) as real);
      assert ((tp + fp) as real) + ((tp + fn) as real) == (2 * tp + fp + fn) as real;
    } else {
      var precision := if tp + fp != 0 then tp as real / (tp + fp) as real else 0.0;
      var recall := if tp + fn != 0 then tp as real / (tp + fn) as real else 0.0;
      assert precision == 0.0 && recall == 0.0;
    }
  }

  // ---------------------------------------------------------------- the search

  function AtLeast(scores: seq<real>, t: real): (r: seq<bool>)
    ensures |r| == |scores| && forall i :: 0 <= i < |r| ==> r[i] == (scores[i] >= t)
  {
    seq(|scores|, i requires 0 <= i < |scores| => scores[i] >= t)
  }

  function Gather<T>(s: seq<T>, order: seq<nat>): (r: seq<T>)
    requires Indices(order, |s|)
    ensures |r| == |order| && forall k :: 0 <= k < |r| ==> r[k] == s[order[k]]
  {
    seq(|order|, k requires 0 <= k < |order| => s[order[k]])
  }

  /** What `argsort` followed by a reversal promises: a permutation of the rows with
      non-increasing scores. Ties may come in any order. */
  ghost predicate ArgsortReversed(scores: seq<real>, order: seq<nat>) {
    && |order| == |scores|
    && multiset(order) == multiset(Range(|scores|))
    && Indices(order, |scores|)
    && forall i, j :: 0 <= i < j < |order| ==> scores[order[i]] >= scores[order[j]]
  }

  /** The positives among the first `n` targets. */
  function Positives(s: seq<Target>, n: nat): (r: nat)
    requires n <= |s|
    ensures r <= n
  {
    if n == 0 then 0 else Positives(s, n - 1) + s[n - 1]
  }

  function Cumsum(s: seq<Target>): (r: seq<nat>)
    ensures |r| == |s| && forall k :: 0 <= k < |r| ==> r[k] == Positives(s, k + 1)
  {
    seq(|s|, k requires 0 <= k < |s| => Positives(s, k + 1))
  }

  /** The indices where the mask is set, in increasing order. */
  function FlatNonzero(mask: seq<bool>): (r: seq<nat>)
    ensures forall k :: 0 <= k < |r| ==> r[k] < |mask| && mask[r[k]]
    ensures forall j, k :: 0 <= j < k < |r| ==> r[j] < r[k]
    ensures forall i :: 0 <= i < |mask| && mask[i] ==> i in r
  {
    if mask == [] then []
    else
      var n := |mask| - 1;
      FlatNonzero(mask[..n]) + (if mask[n] then [n] else [])
  }

  /** The first position of a maximum. */
  function ArgMax(values: seq<real>): (r: nat)
    requires |values| > 0
    ensures r < |values|
    ensures forall k :: 0 <= k < |values| ==> values[k] <= values[r]
    ensures forall k :: 0 <= k < r ==> values[k] < values[r]
  {
    if |values| == 1 then 0
    else
      var n := |values| - 1;
      var r := ArgMax(values[..n]);
      if values[n] > values[r] then n else r
  }

  /** The prefix-sum ratio when the first `n` rows are selected. */
  function CurveAt(targets: seq<Target>, n: nat): real
    requires n <= |targets|
  {
    var tp := Positives(targets, n);
    Dice(tp, n - tp, Positives(targets, |targets|) - tp)
  }

  function F1Curve(targets: seq<Target>): (r: seq<real>)
    ensures |r| == |targets| && forall k :: 0 <= k < |r| ==> r[k] == CurveAt(targets, k + 1)
  {
    var positives := Positives(targets, |targets|);
    var tp := Cumsum(targets);
    seq(|targets|, k requires 0 <= k < |targets| => Dice(tp[k], k + 1 - tp[k], positives - tp[k]))
  }

  /** Marks the final occurrence of every score of a sorted sequence. */
  function LastOccurrences(sorted: seq<real>): (r: seq<bool>)
    requires |sorted| > 0
    ensures |r| == |sorted|
    ensures forall k :: 0 <= k < |r| ==> r[k] == (k == |r| - 1 || sorted[k] != sorted[k + 1])
  {
    seq(|sorted| - 1, k requires 0 <= k < |sorted| - 1 => sorted[k] != sorted[k + 1]) + [true]
  }

  /** The first marked position with the largest value among the marked ones. */
  ghost predicate IsBest(mask: seq<bool>, curve: seq<real>, index: nat) {
    && index < |mask| == |curve| && mask[index]
    && (forall k :: 0 <= k < |mask| && mask[k] ==> curve[k] <= curve[index])
    && (forall k :: 0 <= k < index && mask[k] ==> curve[k] < curve[index])
  }

  /** Where the search lands. */
  function BestIndex(sorted: seq<real>, curve: seq<real>): (index: nat)
    requires |sorted| == |curve| > 0
    ensures IsBest(LastOccurrences(sorted), curve, index)
  {
    var candidates := FlatNonzero(LastOccurrences(sorted));
    LastIsCandidate(sorted);
    BestOfCandidates(LastOccurrences(sorted), candidates, curve);
    candidates[ArgMax(Gather(curve, candidates))]
  }

  lemma LastIsCandidate(sorted: seq<real>)
    requires |sorted| > 0
    ensures FlatNonzero(LastOccurrences(sorted)) != []
  {
    assert LastOccurrences(sorted)[|sorted| - 1];
  }

  /** The first maximum over the marked positions is the best of them. */
  lemma BestOfCandidates(mask: seq<bool>, candidates: seq<nat>, curve: seq<real>)
    requires |mask| == |curve| && candidates == FlatNonzero(mask) && candidates != []
    ensures Indices(candidates, |curve|)
    ensures IsBest(mask, curve, candidates[ArgMax(Gather(curve, candidates))])
  {
    var values := Gather(curve, candidates);
    var c := ArgMax(values);
    forall j | 0 <= j < |candidates|
      ensures curve[candidates[j]] <= curve[candidates[c]] && (j < c ==> curve[candidates[j]] < curve[candidates[c]])
    {
      assert values[j] == curve[candidates[j]] && values[c] == curve[candidates[c]];
    }
    FirstMaximumIsBest(mask, candidates, curve, c);
  }

  lemma FirstMaximumIsBest(mask: seq<bool>, candidates: seq<nat>, curve: seq<real>, c: nat)
    requires |mask| == |curve| && c < |candidates|
    requires forall j :: 0 <= j < |candidates| ==> candidates[j] < |mask| && mask[candidates[j]]
    requires forall j, k :: 0 <= j < k < |candidates| ==> candidates[j] < candidates[k]
    requires forall k :: 0 <= k < |mask| && mask[k] ==> k in candidates
    requires forall j :: 0 <= j < |candidates| ==> curve[candidates[j]] <= curve[candidates[c]]
    requires forall j :: 0 <= j < c ==> curve[candidates[j]] < curve[candidates[c]]
    ensures IsBest(mask, curve, candidates[c])
  {
    forall k | 0 <= k < |mask| && mask[k]
      ensures curve[k] <= curve[candidates[c]] && (k < candidates[c] ==> curve[k] < curve[candidates[c]])
    {
      var j :| 0 <= j < |candidates| && candidates[j] == k;
    }
  }

  /** `best_threshold`. The candidate list of an empty column is indexed out of range. */
  function BestThreshold(scores: seq<real>, targets: seq<Target>, order: seq<nat>): Result<Calibration>
    requires |scores| == |targets| && ArgsortReversed(scores, order)
  {
    if |scores| == 0 then Err(IndexError)
    else
      var sortedScores := Gather(scores, order);
      var threshold := sortedScores[BestIndex(sortedScores, F1Curve(Gather(targets, order)))];
      Ok(Calibration(threshold, ComputeMetrics(targets, AtLeast(scores, threshold))))
  }

  // ---------------------------------------------------------------- optimality

  /** F1 of the classifier `score >= t`, by the definition used in reports. */
  function F1(scores: seq<real>, targets: seq<Target>, t: real): real
    requires |scores| == |targets|
  {
    ComputeMetrics(targets, AtLeast(scores, t)).f1
  }

  /** Where the rows of a stretch are all selected, or all not, its confusion counts are those of its targets. */
  lemma {:induction false} CountStretch(
      targets: seq<Target>, predictions: seq<bool>, order: seq<nat>, k: nat, m: nat, selected: bool, b: Target, p: bool)
    requires |predictions| == |targets| && Indices(order, |targets|) && k <= m <= |order|
    requires forall i :: k <= i < m ==> predictions[order[i]] == selected
    ensures var g, f := Gather(targets, order), Hits(targets, predictions, b, p);
      var tp := Positives(g, m) - Positives(g, k);
      SumTo(order, f, m) - SumTo(order, f, k) == if p != selected then 0 else if b == 1 then tp else m - k - tp
    decreases m
  {
    if k < m {
      CountStretch(targets, predictions, order, k, m - 1, selected, b, p);
      assert Gather(targets, order)[m - 1] == targets[order[m - 1]];
    }
  }

  /** Exactly the first `k` sorted rows reach `t`. */
  ghost predicate SplitsAt(scores: seq<real>, order: seq<nat>, t: real, k: nat)
    requires Indices(order, |scores|)
  {
    && k <= |order|
    && (forall i :: 0 <= i < k ==> scores[order[i]] >= t)
    && (forall i :: k <= i < |order| ==> scores[order[i]] < t)
  }

  /** The sorted rows that reach `t` form a prefix. */
  lemma SplitPoint(scores: seq<real>, order: seq<nat>, t: real) returns (k: nat)
    requires ArgsortReversed(scores, order)
    ensures SplitsAt(scores, order, t, k)
  {
    k := 0;
    while k < |order| && scores[order[k]] >= t
      invariant k <= |order| && forall i :: 0 <= i < k ==> scores[order[i]] >= t
    {
      k := k + 1;
    }
  }

  /** A confusion count at `t`, read off the prefix of the sorted targets. */
  lemma CountAtSplit(scores: seq<real>, targets: seq<Target>, order: seq<nat>, t: real, k: nat, b: Target, p: bool)
    requires |scores| == |targets| && ArgsortReversed(scores, order) && SplitsAt(scores, order, t, k)
    ensures var g := Gather(targets, order);
      var tp, fn := Positives(g, k), Positives(g, |g|) - Positives(g, k);
      CountRows(targets, AtLeast(scores, t), b, p)
      == if p then if b == 1 then tp else k - tp else if b == 1 then fn else |g| - k - fn
  {
    var predictions := AtLeast(scores, t);
    CountPermuted(targets, predictions, b, p, order);
    CountStretch(targets, predictions, order, 0, k, true, b, p);
    CountStretch(targets, predictions, order, k, |order|, false, b, p);
  }

  /** When exactly the first `k` sorted rows reach `t`, the F1 at `t` is the prefix-sum ratio at `k`. */
  lemma F1AtSplit(scores: seq<real>, targets: seq<Target>, order: seq<nat>, t: real, k: nat)
    requires |scores| == |targets| && ArgsortReversed(scores, order) && SplitsAt(scores, order, t, k)
    ensures F1(scores, targets, t) == CurveAt(Gather(targets, order), k)
  {
    CountAtSplit(scores, targets, order, t, k, 1, true);
    CountAtSplit(scores, targets, order, t, k, 0, true);
    CountAtSplit(scores, targets, order, t, k, 1, false);
    F1OfCounts(targets, AtLeast(scores, t), Gather(targets, order), k);
  }

  lemma F1OfCounts(targets: seq<Target>, predictions: seq<bool>, g: seq<Target>, k: nat)
    requires |predictions| == |targets| && k <= |g|
    requires CountRows(targets, predictions, 1, true) == Positives(g, k)
    requires CountRows(targets, predictions, 0, true) == k - Positives(g, k)
    requires CountRows(targets, predictions, 1, false) == Positives(g, |g|) - Positives(g, k)
    ensures ComputeMetrics(targets, predictions).f1 == CurveAt(g, k)
  {
    var tp := Positives(g, k);
    HarmonicIsDice(tp, k - tp, Positives(g, |g|) - tp);
  }

  lemma LastOccurrenceSplits(scores: seq<real>, order: seq<nat>, index: nat)
    requires ArgsortReversed(scores, order) && index < |order|
    requires LastOccurrences(Gather(scores, order))[index]
    ensures SplitsAt(scores, order, scores[order[index]], index + 1)
  {
    var sorted := Gather(scores, order);
    forall i | index < i < |order|
      ensures sorted[i] < sorted[index]
    {
      assert sorted[index + 1] != sorted[index] && sorted[index] >= sorted[index + 1];
      assert i > index + 1 ==> sorted[index + 1] >= sorted[i];
    }
  }

  lemma ScorePosition(scores: seq<real>, order: seq<nat>, s: real) returns (k: nat)
    requires ArgsortReversed(scores, order) && s in scores
    ensures k < |order| && scores[order[k]] == s
  {
    var i :| 0 <= i < |scores| && scores[i] == s;
    assert Range(|scores|)[i] == i;
    assert i in multiset(Range(|scores|));
    assert i in multiset(order);
    k :| 0 <= k < |order| && order[k] == i;
  }

  /** A threshold reached by the first `k > 0` sorted rows splits at the final occurrence of a score,
      which is the threshold itself when the threshold is a score. */
  lemma SplitIsLastOccurrence(scores: seq<real>, order: seq<nat>, t: real, k: nat)
    requires ArgsortReversed(scores, order) && SplitsAt(scores, order, t, k)
    ensures k > 0 ==> LastOccurrences(Gather(scores, order))[k - 1]
    ensures t in scores ==> k > 0 && t == scores[order[k - 1]]
  {
    if t in scores {
      var j := ScorePosition(scores, order, t);
      assert j < k;
      assert scores[order[k - 1]] <= t;
    }
  }

  lemma {:induction false} PositivesGrow(s: seq<Target>, k: nat, n: nat)
    requires k <= n <= |s|
    ensures Positives(s, k) <= Positives(s, n)
  {
    if k < n {
      PositivesGrow(s, k, n - 1);
    }
  }

  lemma DiceOfCounts(tp: nat, fp: nat, fn: nat)
    ensures Dice(tp, fp, fn) >= 0.0 && (tp == 0 ==> Dice(tp, fp, fn) == 0.0)
  {
  }

  /** No prefix does worse than selecting nothing, which scores zero. */
  lemma CurveIsNonNegative(targets: seq<Target>, k: nat)
    requires k <= |targets|
    ensures CurveAt(targets, k) >= 0.0 && CurveAt(targets, 0) == 0.0
  {
    PositivesGrow(targets, k, |targets|);
    DiceOfCounts(Positives(targets, k), k - Positives(targets, k), Positives(targets, |targets|) - Positives(targets, k));
    DiceOfCounts(0, 0, Positives(targets, |targets|));
  }

  /** The F1 of any real threshold is zero or a point of the curve at a final occurrence. */
  lemma F1OnCurve(scores: seq<real>, targets: seq<Target>, order: seq<nat>, t: real, k: nat)
    requires |scores| == |targets| && ArgsortReversed(scores, order) && SplitsAt(scores, order, t, k)
    ensures F1(scores, targets, t) == if k == 0 then 0.0 else F1Curve(Gather(targets, order))[k - 1]
  {
    F1AtSplit(scores, targets, order, t, k);
    CurveIsNonNegative(Gather(targets, order), k);
  }

  lemma ThresholdReachesCurve(scores: seq<real>, targets: seq<Target>, order: seq<nat>, index: nat)
    requires |scores| == |targets| && ArgsortReversed(scores, order) && index < |order|
    requires LastOccurrences(Gather(scores, order))[index]
    ensures F1(scores, targets, scores[order[index]]) == F1Curve(Gather(targets, order))[index]
  {
    LastOccurrenceSplits(scores, order, index);
    F1OnCurve(scores, targets, order, scores[order[index]], index + 1);
  }

  /** No real threshold beats the search, no larger score ties with it, and no larger threshold does unless nothing
      scores above zero. */
  lemma NoThresholdBeats(scores: seq<real>, targets: seq<Target>, order: seq<nat>, t: real)
    requires |scores| == |targets| > 0 && ArgsortReversed(scores, order)
    ensures var sorted, curve := Gather(scores, order), F1Curve(Gather(targets, order));
      var index := BestIndex(sorted, curve);
      && F1(scores, targets, t) <= curve[index]
      && (t in scores && F1(scores, targets, t) == curve[index] ==> t <= sorted[index])
      && (F1(scores, targets, t) == curve[index] > 0.0 ==> t <= sorted[index])
  {
    var sorted, curve := Gather(scores, order), F1Curve(Gather(targets, order));
    var index := BestIndex(sorted, curve);
    var k := SplitPoint(scores, order, t);
    F1OnCurve(scores, targets, order, t, k);
    SplitIsLastOccurrence(scores, order, t, k);
    CurveIsNonNegative(Gather(targets, order), index + 1);
    if k > 0 {
      BestBeats(LastOccurrences(sorted), curve, index, k - 1);
      if curve[k - 1] == curve[index] {
        assert sorted[index] >= sorted[k - 1] >= t;
      }
    }
  }

  lemma BestBeats(mask: seq<bool>, curve: seq<real>, index: nat, k: nat)
    requires IsBest(mask, curve, index) && k < |mask| && mask[k]
    ensures curve[k] <= curve[index] && (curve[k] == curve[index] ==> index <= k)
  {
  }

  /** Main result: the search returns one of the scores, its F1 is the best any real threshold reaches,
      it is the largest score that reaches it, and the metrics returned are those of that threshold. */
  lemma BestThresholdIsOptimal(scores: seq<real>, targets: seq<Target>, order: seq<nat>)
    requires |scores| == |targets| && ArgsortReversed(scores, order)
    ensures BestThreshold(scores, targets, order).Ok? <==> |scores| > 0
    ensures |scores| > 0 ==>
      var best := BestThreshold(scores, targets, order).value;
      && best.threshold in scores
      && best.metrics == ComputeMetrics(targets, AtLeast(scores, best.threshold))
      && (forall t: real :: F1(scores, targets, t) <= best.metrics.f1)
      && (forall s :: s in scores && F1(scores, targets, s) == best.metrics.f1 ==> s <= best.threshold)
      && (forall t: real :: F1(scores, targets, t) == best.metrics.f1 > 0.0 ==> t <= best.threshold)
  {
    if |scores| > 0 {
      var sorted, curve := Gather(scores, order), F1Curve(Gather(targets, order));
      var index := BestIndex(sorted, curve);
      ThresholdReachesCurve(scores, targets, order, index);
      forall t: real
        ensures F1(scores, targets, t) <= curve[index]
        ensures t in scores && F1(scores, targets, t) == curve[index] ==> t <= sorted[index]
        ensures F1(scores, targets, t) == curve[index] > 0.0 ==> t <= sorted[index]
      {
        NoThresholdBeats(scores, targets, order, t);
      }
    }
  }

  /** The rows whose score reaches a threshold. */
  function Reaching(scores: seq<real>, t: real): set<nat> {
    set i | 0 <= i < |scores| && scores[i] >= t
  }

  lemma PredictedAreReaching(scores: seq<real>, t: real)
    ensures PredictedRows(AtLeast(scores, t)) == Reaching(scores, t)
  {
  }

  /** The metrics that are returned are those of the rows that reach the threshold, and some row does. */
  lemma BestMetricsMeaning(scores: seq<real>, targets: seq<Target>, order: seq<nat>)
    requires |scores| == |targets| > 0 && ArgsortReversed(scores, order)
    ensures var best := BestThreshold(scores, targets, order).value;
      Measures(best.metrics, PositiveRows(targets), Reaching(scores, best.threshold)) && Reaching(scores, best.threshold) != {}
  {
    BestThresholdIsOptimal(scores, targets, order);
    var best := BestThreshold(scores, targets, order).value;
    MetricsMeaning(targets, AtLeast(scores, best.threshold));
    PredictedAreReaching(scores, best.threshold);
    var i :| 0 <= i < |scores| && scores[i] == best.threshold;
    assert i in Reaching(scores, best.threshold);
  }

  // ---------------------------------------------------------------- rounding on export

  /** The exported threshold is rounded to six decimals, so it can move past a score. Its predictions
      are those of the calibrated threshold exactly when no score lies between the two. */
  lemma RoundedThresholdPredictions(scores: seq<real>, threshold: real, rounded: real)
    ensures AtLeast(scores, rounded) == AtLeast(scores, threshold)
      <==> forall s :: s in scores ==> !(threshold <= s < rounded) && !(rounded <= s < threshold)
  {
    var a, b := AtLeast(scores, rounded), AtLeast(scores, threshold);
    if a == b {
      forall s | s in scores
        ensures !(threshold <= s < rounded) && !(rounded <= s < threshold)
      {
        var i :| 0 <= i < |scores| && scores[i] == s;
        assert a[i] == b[i];
      }
    }
    if forall s :: s in scores ==> !(threshold <= s < rounded) && !(rounded <= s < threshold) {
      forall i | 0 <= i < |scores|
        ensures a[i] == b[i]
      {
        assert scores[i] in scores;
      }
    }
  }

  // ---------------------------------------------------------------- the exported threshold

  /** The nearest integer, the even one of two. */
  function RoundHalfEven(x: real): int {
    var below := x.Floor;
    var rest := x - below as real;
    if rest < 0.5 || (rest == 0.5 && below % 2 == 0) then below else below + 1
  }

  /** `round(x, 6)` */
  function Round6(x: real): real {
    RoundHalfEven(x * 1000000.0) as real / 1000000.0
  }

  /** It is the nearest number of millionths, the even one of two that are equally near. */
  lemma Round6Meaning(x: real) returns (n: int)
    ensures Round6(x) * 1000000.0 == n as real
    ensures n as real - 0.5 <= x * 1000000.0 <= n as real + 0.5
    ensures x * 1000000.0 == n as real - 0.5 || x * 1000000.0 == n as real + 0.5 ==> n % 2 == 0
  {
    n := RoundHalfEven(x * 1000000.0);
  }

  /** Rounding moves a threshold by at most half a millionth. */
  lemma Round6Near(x: real)
    ensures x - 0.0000005 <= Round6(x) <= x + 0.0000005
  {
    var r := RoundHalfEven(x * 1000000.0) as real;
    assert x * 1000000.0 - 0.5 <= r <= x * 1000000.0 + 0.5;
  }

  /** Exporting a calibrated threshold, which is one of the scores, keeps its predictions if and only if it is
      not rounded up and no score lies in the step it is rounded down by. */
  lemma ExportKeepsPredictionsIff(scores: seq<real>, threshold: real)
    requires threshold in scores
    ensures AtLeast(scores, Round6(threshold)) == AtLeast(scores, threshold)
      <==> Round6(threshold) <= threshold && forall s :: s in scores ==> !(Round6(threshold) <= s < threshold)
  {
    RoundedThresholdPredictions(scores, threshold, Round6(threshold));
  }

  /** Every score whose prediction changes is within half a millionth of the calibrated threshold. */
  lemma ChangedScoresAreNear(threshold: real, s: real)
    requires (s >= Round6(threshold)) != (s >= threshold)
    ensures threshold - 0.0000005 <= s <= threshold + 0.0000005
  {
    Round6Near(threshold);
  }

  lemma {:induction false} PositivesOfGather(targets: seq<Target>, order: seq<nat>, n: nat)
    requires n <= |order| && forall i :: 0 <= i < |order| ==> order[i] < |targets|
    ensures Positives(Gather(targets, order), n) > 0 <==> exists i :: 0 <= i < n && targets[order[i]] == 1
  {
    if n > 0 {
      PositivesOfGather(targets, order, n - 1);
    }
  }

  lemma PlaceOfRow(order: seq<nat>, rows: nat, i: nat) returns (j: nat)
    requires multiset(order) == multiset(Range(rows)) && i < rows
    ensures j < |order| && order[j] == i
  {
    assert Range(rows)[i] == i;
    assert i in multiset(Range(rows));
    assert i in multiset(order);
    j :| 0 <= j < |order| && order[j] == i;
  }

  /** Selecting every row scores above zero when some row is positive. */
  lemma SelectingAll(targets: seq<Target>, order: seq<nat>)
    requires multiset(order) == multiset(Range(|targets|)) && 1 in targets
    requires forall i :: 0 <= i < |order| ==> order[i] < |targets|
    ensures CurveAt(Gather(targets, order), |order|) > 0.0
  {
    var i :| 0 <= i < |targets| && targets[i] == 1;
    var j := PlaceOfRow(order, |targets|, i);
    PositivesOfGather(targets, order, |order|);
    var tp := Positives(Gather(targets, order), |order|);
    DiceIsPositive(tp, |order| - tp);
  }

  lemma DiceIsPositive(tp: nat, fp: nat)
    requires tp > 0
    ensures Dice(tp, fp, 0) > 0.0
  {
    var a, b := (2 * tp) as real, (2 * tp + fp) as real;
    assert a / b * b == a;
  }

  /** Without a positive row nothing scores above zero. */
  lemma SelectingNothingPositive(targets: seq<Target>, order: seq<nat>, k: nat)
    requires k <= |order| && 1 !in targets && forall i :: 0 <= i < |order| ==> order[i] < |targets|
    ensures CurveAt(Gather(targets, order), k) == 0.0
  {
    PositivesOfGather(targets, order, k);
    PositivesOfGather(targets, order, |order|);
  }

  /** The F1 at any threshold is on the curve, and not below zero. */
  lemma F1IsOnCurve(scores: seq<real>, targets: seq<Target>, order: seq<nat>, t: real) returns (k: nat)
    requires |scores| == |targets| && ArgsortReversed(scores, order)
    ensures k <= |order| && F1(scores, targets, t) == CurveAt(Gather(targets, order), k) >= 0.0
  {
    k := SplitPoint(scores, order, t);
    F1AtSplit(scores, targets, order, t, k);
    CurveIsNonNegative(Gather(targets, order), k);
  }

  /** The lowest score selects every row. */
  lemma F1OfLowest(scores: seq<real>, targets: seq<Target>, order: seq<nat>)
    requires |scores| == |targets| > 0 && ArgsortReversed(scores, order)
    ensures F1(scores, targets, scores[order[|order| - 1]]) == CurveAt(Gather(targets, order), |order|)
  {
    var last := scores[order[|order| - 1]];
    assert SplitsAt(scores, order, last, |order|);
    F1AtSplit(scores, targets, order, last, |order|);
  }

  /** Some threshold scores above zero exactly when some row is positive. */
  lemma SomethingScoresIff(scores: seq<real>, targets: seq<Target>, order: seq<nat>)
    requires |scores| == |targets| > 0 && ArgsortReversed(scores, order)
    ensures 1 in targets ==> F1(scores, targets, scores[order[|order| - 1]]) > 0.0
    ensures 1 !in targets ==> forall t: real :: F1(scores, targets, t) == 0.0
  {
    if 1 in targets {
      F1OfLowest(scores, targets, order);
      SelectingAll(targets, order);
    } else {
      forall t: real ensures F1(scores, targets, t) == 0.0 {
        var k := F1IsOnCurve(scores, targets, order, t);
        SelectingNothingPositive(targets, order, k);
      }
    }
  }

  /** The best F1 is above zero exactly when some row is positive. */
  lemma BestIsPositiveIff(scores: seq<real>, targets: seq<Target>, order: seq<nat>)
    requires |scores| == |targets| > 0 && ArgsortReversed(scores, order)
    ensures BestThreshold(scores, targets, order).value.metrics.f1 > 0.0 <==> 1 in targets
  {
    BestThresholdIsOptimal(scores, targets, order);
    SomethingScoresIff(scores, targets, order);
    var best := BestThreshold(scores, targets, order).value;
    assert best.metrics.f1 == F1(scores, targets, best.threshold);
  }

  /** The export never gains F1, and unless a score lies in a step it is rounded down by, it loses some exactly when
      it is rounded up and some row is positive. */
  lemma ExportLosesIff(scores: seq<real>, targets: seq<Target>, order: seq<nat>)
    requires |scores| == |targets| > 0 && ArgsortReversed(scores, order)
    ensures var best := BestThreshold(scores, targets, order).value;
      var t, r := best.threshold, Round6(best.threshold);
      && F1(scores, targets, r) <= best.metrics.f1
      && ((forall s :: s in scores ==> !(r <= s < t)) ==>
            (F1(scores, targets, r) < best.metrics.f1 <==> r > t && 1 in targets))
  {
    BestThresholdIsOptimal(scores, targets, order);
    BestIsPositiveIff(scores, targets, order);
    var best := BestThreshold(scores, targets, order).value;
    var t, r := best.threshold, Round6(best.threshold);
    if r > t {
      var k := F1IsOnCurve(scores, targets, order, r);
    } else if forall s :: s in scores ==> !(r <= s < t) {
      ExportKeepsPredictionsIff(scores, t);
    }
  }

  /** A single positive is found with a perfect F1 at the calibrated threshold, its own score, and is lost by the
      export if and only if that rounds up. */
  lemma SinglePositiveIsLostIff(scores: seq<real>, targets: seq<Target>, order: seq<nat>, threshold: real)
    requires |scores| == |targets| == 1 && targets[0] == 1 && ArgsortReversed(scores, order) && threshold in scores
    ensures F1(scores, targets, threshold) == 1.0
    ensures F1(scores, targets, Round6(threshold)) == if Round6(threshold) > threshold then 0.0 else 1.0
  {
    SinglePositive(scores, targets, order, threshold);
    SinglePositive(scores, targets, order, Round6(threshold));
  }

  /** It does at 0.1234567. */
  lemma RoundingCanLoseEverything(scores: seq<real>, targets: seq<Target>, order: seq<nat>)
    requires |scores| == |targets| == 1 && targets[0] == 1 && ArgsortReversed(scores, order) && scores[0] == 0.1234567
    ensures Round6(0.1234567) == 0.123457
    ensures F1(scores, targets, 0.1234567) == 1.0 && F1(scores, targets, Round6(0.1234567)) == 0.0
  {
    assert (123456.7).Floor == 123456;
    SinglePositiveIsLostIff(scores, targets, order, 0.1234567);
  }

  lemma SinglePositive(scores: seq<real>, targets: seq<Target>, order: seq<nat>, t: real)
    requires |scores| == |targets| == 1 && targets[0] == 1 && ArgsortReversed(scores, order)
    ensures F1(scores, targets, t) == if scores[0] >= t then 1.0 else 0.0
  {
    var k: nat := if scores[0] >= t then 1 else 0;
    assert SplitsAt(scores, order, t, k);
    F1AtSplit(scores, targets, order, t, k);
    var g := Gather(targets, order);
    assert g[0] == 1 && Positives(g, 0) == 0 && Positives(g, 1) == 1;
  }
}
