/** The moderation rule engine: filtering, weighting, per-label maxima, the clamped score, the primary
    label and the model agreement. Scores are exact reals. */
module RuleEngine {
  import opened Wrappers
  import opened ModerationLabels
  import opened Sequences
  import opened Reals

  datatype SignalSource = PREPROCESSING | RUBERT | QWEN | OCR | IMAGE | HISTORY | MANUAL | PHISHING

  datatype Signal = Signal(source: SignalSource, l: Label, confidence: real, severity: nat, riskWeight: nat)

  datatype AgreementPolicy = AgreementPolicy(enabled: bool, bonus: real, penalty: real, threshold: real)

  datatype UserRisk = UserRisk(
    enabled: bool, newAccountDays: int, newMemberDays: int, violationThreshold: int, escalationThreshold: real,
    newAccount: real, newMember: real, repeatViolation: real, escalation: real, maxMultiplier: real)

  datatype Policy = Policy(
    minScore: real,
    maxScore: real,
    sourceWeight: SignalSource -> real,
    labelWeight: Label -> real,
    severityMultipliers: map<nat, real>,
    priority: seq<Label>,
    defaultMinConfidence: real,
    sourceMinConfidence: map<SignalSource, real>,
    labelMinConfidence: map<Label, real>,
    agreement: AgreementPolicy,
    userRisk: UserRisk)

  /** The range the policy validator accepts. */
  ghost predicate ValidRange(p: Policy) {
    0.0 <= p.minScore <= p.maxScore
  }

  /** The policy the settings give when nothing is configured. */
  const DEFAULT_POLICY: Policy := Policy(
    0.0, 100.0,
    (source: SignalSource) => 1.0,
    (l: Label) => if l == SAFE then 0.0 else if l == PROFANITY then 8.0 else 10.0,
    map[], [], 0.5, map[], map[],
    AgreementPolicy(true, 0.1, 0.1, 0.8),
    UserRisk(true, 7, 7, 3, 3.0, 1.15, 1.1, 1.35, 1.35, 1.75))

  function Clamp(low: real, high: real, x: real): real {
    Max(low, Min(high, x))
  }

  // ---------------------------------------------------------------- filtering

  function Threshold(p: Policy, s: Signal): real {
    if s.l in p.labelMinConfidence then p.labelMinConfidence[s.l]
    else if s.source in p.sourceMinConfidence then p.sourceMinConfidence[s.source]
    else p.defaultMinConfidence
  }

  predicate Survives(p: Policy, s: Signal) {
    !(s.confidence < Threshold(p, s))
  }

  function Normalized(p: Policy, signals: seq<Signal>): seq<Signal> {
    if signals == [] then []
    else
      var n := |signals| - 1;
      Normalized(p, signals[..n]) + (if Survives(p, signals[n]) then [signals[n]] else [])
  }

  method Normalize(p: Policy, signals: seq<Signal>) returns (filtered: seq<Signal>)
    ensures filtered == Normalized(p, signals)
  {
    filtered := [];
    for i := 0 to |signals|
      invariant filtered == Normalized(p, signals[..i])
    {
      assert signals[..i + 1][..i] == signals[..i];
      var threshold := p.defaultMinConfidence;
      if signals[i].source in p.sourceMinConfidence {
        threshold := p.sourceMinConfidence[signals[i].source];
      }
      if signals[i].l in p.labelMinConfidence {
        threshold := p.labelMinConfidence[signals[i].l];
      }
      if signals[i].confidence >= threshold {
        filtered := filtered + [signals[i]];
      }
    }
    assert signals[..|signals|] == signals;
  }

  lemma {:induction false} NormalizedMembers(p: Policy, signals: seq<Signal>)
    ensures forall s :: s in Normalized(p, signals) <==> s in signals && Survives(p, s)
  {
    if signals != [] {
      var n := |signals| - 1;
      NormalizedMembers(p, signals[..n]);
      assert signals == signals[..n] + [signals[n]];
    }
  }

  /** A label's own threshold decides before its source's, and that before the default; reaching it is enough. */
  lemma SurvivesMeaning(p: Policy, s: Signal)
    ensures s.l in p.labelMinConfidence ==> (Survives(p, s) <==> s.confidence >= p.labelMinConfidence[s.l])
    ensures s.l !in p.labelMinConfidence && s.source in p.sourceMinConfidence ==>
      (Survives(p, s) <==> s.confidence >= p.sourceMinConfidence[s.source])
    ensures s.l !in p.labelMinConfidence && s.source !in p.sourceMinConfidence ==>
      (Survives(p, s) <==> s.confidence >= p.defaultMinConfidence)
  {
  }

  // ---------------------------------------------------------------- contributions

  function Contribution(p: Policy, s: Signal): real {
    var multiplier := if s.severity in p.severityMultipliers then p.severityMultipliers[s.severity] else 1.0;
    Max(p.labelWeight(s.l), s.riskWeight as real) * p.sourceWeight(s.source) * s.confidence * multiplier
  }

  /** A contribution is the larger of the two weights, times the source's weight, the confidence, and the multiplier of
      the severity if there is one. */
  lemma ContributionMeaning(p: Policy, s: Signal, weight: real, multiplier: real)
    requires weight >= p.labelWeight(s.l) && weight >= s.riskWeight as real
    requires weight == p.labelWeight(s.l) || weight == s.riskWeight as real
    requires s.severity in p.severityMultipliers ==> multiplier == p.severityMultipliers[s.severity]
    requires s.severity !in p.severityMultipliers ==> multiplier == 1.0
    ensures Contribution(p, s) == weight * p.sourceWeight(s.source) * s.confidence * multiplier
  {
  }

  /** The largest contribution to a label, from zero up. */
  function LabelMax(p: Policy, signals: seq<Signal>, l: Label): (r: real)
    ensures r >= 0.0
  {
    if signals == [] then 0.0
    else
      var n := |signals| - 1;
      var rest := LabelMax(p, signals[..n], l);
      if signals[n].l == l then Max(rest, Contribution(p, signals[n])) else rest
  }

  lemma {:induction false} LabelMaxBounds(p: Policy, signals: seq<Signal>, l: Label)
    ensures forall s :: s in signals && s.l == l ==> Contribution(p, s) <= LabelMax(p, signals, l)
    ensures LabelMax(p, signals, l) > 0.0 ==> exists s :: s in signals && s.l == l && Contribution(p, s) == LabelMax(p, signals, l)
  {
    if signals != [] {
      var n := |signals| - 1;
      LabelMaxBounds(p, signals[..n], l);
      assert signals == signals[..n] + [signals[n]];
      assert signals[n] in signals;
    }
  }

  ghost predicate Includes(more: seq<Signal>, fewer: seq<Signal>) {
    forall s :: s in fewer ==> s in more
  }

  /** More signals never lower a label's contribution. */
  lemma LabelMaxGrows(p: Policy, fewer: seq<Signal>, more: seq<Signal>, l: Label)
    requires Includes(more, fewer)
    ensures LabelMax(p, fewer, l) <= LabelMax(p, more, l)
  {
    LabelMaxBounds(p, fewer, l);
    LabelMaxBounds(p, more, l);
  }

  function SumOver(labels: seq<Label>, f: Label -> real): real {
    if labels == [] then 0.0 else SumOver(labels[..|labels| - 1], f) + f(labels[|labels| - 1])
  }

  function LabelMaxima(p: Policy, signals: seq<Signal>): Label -> real {
    (l: Label) => LabelMax(p, signals, l)
  }

  /** The sum of the per-label maxima. */
  function RawScore(p: Policy, signals: seq<Signal>): real {
    SumOver(ALL, LabelMaxima(p, signals))
  }

  lemma {:induction false} SumOverMonotone(labels: seq<Label>, f: Label -> real, g: Label -> real)
    requires forall l :: f(l) <= g(l)
    ensures SumOver(labels, f) <= SumOver(labels, g)
  {
    if labels != [] {
      SumOverMonotone(labels[..|labels| - 1], f, g);
    }
  }

  function Masked(keys: seq<Label>, f: Label -> real): Label -> real {
    (l: Label) => if l in keys then f(l) else 0.0
  }

  /** Adding one key to a masked sum adds its value once, because each label occurs once among all labels. */
  lemma {:induction false} MaskedStep(labels: seq<Label>, keys: seq<Label>, k: Label, f: Label -> real)
    requires forall i, j :: 0 <= i < j < |labels| ==> labels[i] != labels[j]
    requires k !in keys
    ensures SumOver(labels, Masked(keys + [k], f)) == SumOver(labels, Masked(keys, f)) + (if k in labels then f(k) else 0.0)
  {
    if labels != [] {
      var n := |labels| - 1;
      MaskedStep(labels[..n], keys, k, f);
      assert labels == labels[..n] + [labels[n]];
    }
  }

  lemma {:induction false} MaskedEmpty(labels: seq<Label>, f: Label -> real)
    ensures SumOver(labels, Masked([], f)) == 0.0
  {
    if labels != [] {
      MaskedEmpty(labels[..|labels| - 1], f);
    }
  }

  /** A sum over distinct keys, in whatever order, is the masked sum over all labels. */
  lemma {:induction false} SumOverKeys(keys: seq<Label>, f: Label -> real)
    requires forall i, j :: 0 <= i < j < |keys| ==> keys[i] != keys[j]
    ensures SumOver(keys, f) == SumOver(ALL, Masked(keys, f))
  {
    AllLabels();
    if keys == [] {
      MaskedEmpty(ALL, f);
    } else {
      var n := |keys| - 1;
      SumOverKeys(keys[..n], f);
      MaskedStep(ALL, keys[..n], keys[n], f);
      assert keys == keys[..n] + [keys[n]];
    }
  }

  lemma {:induction false} SumOverSame(labels: seq<Label>, f: Label -> real, g: Label -> real)
    requires forall l :: f(l) == g(l)
    ensures SumOver(labels, f) == SumOver(labels, g)
  {
    SumOverMonotone(labels, f, g);
    SumOverMonotone(labels, g, f);
  }

  /** Only the labels that occur contribute to the raw score. */
  lemma RawScoreOfKeys(p: Policy, signals: seq<Signal>, keys: seq<Label>)
    requires forall i, j :: 0 <= i < j < |keys| ==> keys[i] != keys[j]
    requires forall s :: s in signals ==> s.l in keys
    ensures RawScore(p, signals) == SumOver(keys, LabelMaxima(p, signals))
  {
    var f := LabelMaxima(p, signals);
    SumOverKeys(keys, f);
    forall l ensures Masked(keys, f)(l) == f(l) {
      LabelMaxBounds(p, signals, l);
    }
    SumOverSame(ALL, Masked(keys, f), f);
  }

  /** The insertion-ordered dictionary of per-label maxima: its values add up to the raw score. */
  method AggregateContributionsByLabel(p: Policy, signals: seq<Signal>)
      returns (keys: seq<Label>, maxima: map<Label, real>, total: real)
    ensures forall l :: l in maxima <==> l in keys
    ensures forall l :: l in maxima ==> maxima[l] == LabelMax(p, signals, l)
    ensures forall l :: l in keys <==> exists s :: s in signals && s.l == l
    ensures total == RawScore(p, signals)
  {
    keys, maxima := [], map[];
    for i := 0 to |signals|
      invariant forall a, b :: 0 <= a < b < |keys| ==> keys[a] != keys[b]
      invariant forall l :: l in maxima <==> l in keys
      invariant forall l :: LabelMax(p, signals[..i], l) == if l in maxima then maxima[l] else 0.0
      invariant forall l :: l in keys <==> exists s :: s in signals[..i] && s.l == l
    {
      assert signals[..i + 1][..i] == signals[..i];
      assert signals[..i + 1] == signals[..i] + [signals[i]];
      var l := signals[i].l;
      var current := if l in maxima then maxima[l] else 0.0;
      if l !in maxima {
        keys := keys + [l];
      }
      maxima := maxima[l := Max(current, Contribution(p, signals[i]))];
    }
    assert signals[..|signals|] == signals;
    total := 0.0;
    ghost var f := LabelMaxima(p, signals);
    for i := 0 to |keys|
      invariant total == SumOver(keys[..i], f)
    {
      assert keys[..i + 1][..i] == keys[..i];
      assert keys[i] in keys;
      total := total + maxima[keys[i]];
    }
    assert keys[..|keys|] == keys;
    SumOverKeys(keys, f);
    SumOverSame(ALL, Masked(keys, f), f);
  }

  /** The score before the agreement and user factors. */
  function BaseScore(p: Policy, kept: seq<Signal>): real {
    if kept == [] then 0.0 else Clamp(p.minScore, p.maxScore, RawScore(p, kept))
  }

  /** The base score is the sum of the labels' contributions, held within the range; no signals score zero. */
  lemma BaseScoreMeaning(p: Policy, kept: seq<Signal>)
    requires ValidRange(p)
    ensures kept == [] ==> BaseScore(p, kept) == 0.0
    ensures kept != [] && p.minScore <= RawScore(p, kept) <= p.maxScore ==> BaseScore(p, kept) == RawScore(p, kept)
    ensures kept != [] && RawScore(p, kept) < p.minScore ==> BaseScore(p, kept) == p.minScore
    ensures kept != [] && RawScore(p, kept) > p.maxScore ==> BaseScore(p, kept) == p.maxScore
  {
  }

  /** More signals never lower the base score, whatever the signs of the weights. */
  lemma BaseScoreGrows(p: Policy, fewer: seq<Signal>, more: seq<Signal>)
    requires ValidRange(p) && Includes(more, fewer)
    ensures BaseScore(p, fewer) <= BaseScore(p, more)
  {
    forall l ensures LabelMaxima(p, fewer)(l) <= LabelMaxima(p, more)(l) {
      LabelMaxGrows(p, fewer, more, l);
    }
    SumOverMonotone(ALL, LabelMaxima(p, fewer), LabelMaxima(p, more));
    if fewer != [] {
      assert fewer[0] in more;
    }
  }

  // ---------------------------------------------------------------- confidence, severity, labels

  function MaxConfidence(kept: seq<Signal>): real
    requires kept != []
  {
    if |kept| == 1 then kept[0].confidence
    else Max(MaxConfidence(kept[..|kept| - 1]), kept[|kept| - 1].confidence)
  }

  lemma {:induction false} MaxConfidenceMeaning(kept: seq<Signal>)
    requires kept != []
    ensures forall s :: s in kept ==> s.confidence <= MaxConfidence(kept)
    ensures exists s :: s in kept && s.confidence == MaxConfidence(kept)
  {
    var n := |kept| - 1;
    var last := kept[n];
    assert kept == kept[..n] + [last];
    assert last in kept;
    if n > 0 {
      MaxConfidenceMeaning(kept[..n]);
      var before :| before in kept[..n] && before.confidence == MaxConfidence(kept[..n]);
      var top := if before.confidence > last.confidence then before else last;
      assert top in kept && top.confidence == MaxConfidence(kept);
    }
  }

  function Confidence(kept: seq<Signal>): real {
    if kept == [] then 1.0 else MaxConfidence(kept)
  }

  /** The largest severity, from zero up. */
  function Severity(kept: seq<Signal>): nat {
    if kept == [] then 0
    else
      var rest, last := Severity(kept[..|kept| - 1]), kept[|kept| - 1].severity;
      if last > rest then last else rest
  }

  lemma {:induction false} SeverityMeaning(kept: seq<Signal>)
    ensures forall s :: s in kept ==> s.severity <= Severity(kept)
    ensures Severity(kept) > 0 ==> exists s :: s in kept && s.severity == Severity(kept)
  {
    if kept != [] {
      var n := |kept| - 1;
      SeverityMeaning(kept[..n]);
      assert kept == kept[..n] + [kept[n]];
      assert kept[n] in kept;
    }
  }

  function SignalLabels(kept: seq<Signal>): set<Label> {
    set s | s in kept :: s.l
  }

  /** The labels reported for the surviving signals. */
  function ReportedLabels(kept: seq<Signal>): set<Label> {
    var labels := SignalLabels(kept);
    if kept == [] then {SAFE} else if labels - {SAFE} != {} then labels - {SAFE} else labels
  }

  /** Every harmful label that some signal has is reported, and SAFE exactly when there is none. */
  lemma ReportedMeaning(kept: seq<Signal>, l: Label)
    ensures l != SAFE ==> (l in ReportedLabels(kept) <==> exists s :: s in kept && s.l == l)
    ensures SAFE in ReportedLabels(kept) <==> forall s :: s in kept ==> s.l == SAFE
  {
    var labels := SignalLabels(kept);
    OnlySafe(kept);
    if labels <= {SAFE} {
      assert labels - {SAFE} == {};
    } else {
      var x :| x in labels && x != SAFE;
      assert x in labels - {SAFE};
    }
    if kept != [] {
      assert kept[0] in kept && kept[0].l in labels;
    }
  }

  lemma SeverityIsOrderFree(a: seq<Signal>, b: seq<Signal>)
    requires Includes(a, b) && Includes(b, a)
    ensures Severity(a) == Severity(b)
  {
    SeverityMeaning(a);
    SeverityMeaning(b);
  }

  /** Reordering or repeating signals changes neither base score, confidence, severity nor labels. */
  lemma ReorderingIsInvisible(p: Policy, a: seq<Signal>, b: seq<Signal>)
    requires ValidRange(p) && Includes(a, b) && Includes(b, a)
    ensures BaseScore(p, a) == BaseScore(p, b)
    ensures Confidence(a) == Confidence(b)
    ensures Severity(a) == Severity(b)
    ensures ReportedLabels(a) == ReportedLabels(b)
  {
    SeverityIsOrderFree(a, b);
    BaseScoreGrows(p, a, b);
    BaseScoreGrows(p, b, a);
    if a != [] {
      assert a[0] in b;
      MaxConfidenceMeaning(a);
      MaxConfidenceMeaning(b);
    }
    if b != [] {
      assert b[0] in a;
    }
    assert SignalLabels(a) == SignalLabels(b);
  }

  // ---------------------------------------------------------------- primary label

  function PriorityBonus(p: Policy, l: Label): nat {
    var count := |p.priority|;
    var index := IndexIn(p.priority, l, count);
    if count > index then count - index else 0
  }

  /** The first label of the priority list has the largest bonus, its length, and the last one a bonus of one; a label
      that is not listed has none. */
  lemma PriorityBonusMeaning(p: Policy, l: Label)
    ensures l !in p.priority ==> PriorityBonus(p, l) == 0
    ensures forall i :: LastAt(p.priority, l, i) ==> PriorityBonus(p, l) == |p.priority| - i
  {
    IndexInMeaning(p.priority, l, |p.priority|);
  }

  function ModelBonus(s: Signal): real {
    if s.l == SAFE || s.confidence < 0.8 then 0.0
    else if s.source == RUBERT then 6.0
    else if s.source == QWEN then 8.0
    else 0.0
  }

  /** A model that is sure of a harmful label adds 6 or 8 points, and nothing else adds any. */
  lemma ModelBonusMeaning(s: Signal)
    ensures ModelBonus(s) == 6.0 <==> s.source == RUBERT && s.l != SAFE && s.confidence >= 0.8
    ensures ModelBonus(s) == 8.0 <==> s.source == QWEN && s.l != SAFE && s.confidence >= 0.8
    ensures ModelBonus(s) == 0.0 || ModelBonus(s) == 6.0 || ModelBonus(s) == 8.0
  {
  }

  /** The tuple that ranks a signal. */
  datatype Score = Score(points: real, severity: nat, bonus: nat, confidence: real)

  function ScoreOf(p: Policy, s: Signal): Score {
    var bonus := PriorityBonus(p, s.l);
    Score(Contribution(p, s) + bonus as real * 0.5 + ModelBonus(s), s.severity, bonus, s.confidence)
  }

  predicate Above(a: Score, b: Score) {
    || a.points > b.points
    || (a.points == b.points && a.severity > b.severity)
    || (a.points == b.points && a.severity == b.severity && a.bonus > b.bonus)
    || (a.points == b.points && a.severity == b.severity && a.bonus == b.bonus && a.confidence > b.confidence)
  }

  function Ranking(p: Policy): Signal -> Score {
    (s: Signal) => ScoreOf(p, s)
  }

  /** The first of the best-ranked signals: the head of the stable descending sort. */
  function Best(kept: seq<Signal>, rank: Signal -> Score): (r: Signal)
    requires kept != []
    ensures r in kept
  {
    var n := |kept| - 1;
    assert kept == kept[..n] + [kept[n]];
    if n == 0 then kept[0]
    else
      var r := Best(kept[..n], rank);
      if Above(rank(kept[n]), rank(r)) then kept[n] else r
  }

  function InitialPrimary(p: Policy, kept: seq<Signal>): Label {
    if kept == [] then SAFE else Best(kept, Ranking(p)).l
  }

  /** The points a signal is ranked by. */
  function Points(p: Policy, s: Signal): real {
    Contribution(p, s) + PriorityBonus(p, s.l) as real / 2.0 + ModelBonus(s)
  }

  /** The signal at `i` ranks no lower than the one at `j`: by points, then severity, priority bonus and confidence, and
      by position when all of these are equal. */
  predicate RanksFirst(p: Policy, kept: seq<Signal>, i: nat, j: nat)
    requires i < |kept| && j < |kept|
  {
    var a, b := kept[i], kept[j];
    && Points(p, a) >= Points(p, b)
    && (Points(p, a) == Points(p, b) ==> a.severity >= b.severity)
    && (Points(p, a) == Points(p, b) && a.severity == b.severity ==> PriorityBonus(p, a.l) >= PriorityBonus(p, b.l))
    && (Points(p, a) == Points(p, b) && a.severity == b.severity && PriorityBonus(p, a.l) == PriorityBonus(p, b.l) ==>
          a.confidence >= b.confidence && (a.confidence == b.confidence ==> i <= j))
  }

  lemma AboveBoth(a: Score, b: Score, c: Score)
    requires Above(a, b) && !Above(c, b)
    ensures Above(a, c) && !Above(c, a)
  {
  }

  lemma {:induction false} BestIsFirst(kept: seq<Signal>, rank: Signal -> Score) returns (i: nat)
    requires kept != []
    ensures i < |kept| && Best(kept, rank) == kept[i]
    ensures forall j :: 0 <= j < |kept| ==> !Above(rank(kept[j]), rank(kept[i]))
    ensures forall j :: 0 <= j < i ==> Above(rank(kept[i]), rank(kept[j]))
  {
    var n := |kept| - 1;
    if n == 0 {
      i := 0;
    } else {
      var k := BestIsFirst(kept[..n], rank);
      i := k;
      if Above(rank(kept[n]), rank(kept[k])) {
        i := n;
        forall j | 0 <= j < n ensures Above(rank(kept[n]), rank(kept[j])) && !Above(rank(kept[j]), rank(kept[n])) {
          assert kept[..n][j] == kept[j];
          AboveBoth(rank(kept[n]), rank(kept[k]), rank(kept[j]));
        }
      }
    }
  }

  /** The initial primary label is that of the surviving signal that ranks first. */
  lemma PrimaryRanksFirst(p: Policy, kept: seq<Signal>) returns (i: nat)
    requires kept != []
    ensures i < |kept| && InitialPrimary(p, kept) == kept[i].l
    ensures forall j :: 0 <= j < |kept| ==> RanksFirst(p, kept, i, j)
  {
    i := BestIsFirst(kept, Ranking(p));
    forall j | 0 <= j < |kept| ensures RanksFirst(p, kept, i, j) {
      assert !Above(Ranking(p)(kept[j]), Ranking(p)(kept[i]));
      RanksByScore(p, kept, i, j);
    }
  }

  lemma RanksByScore(p: Policy, kept: seq<Signal>, i: nat, j: nat)
    requires i < |kept| && j < |kept| && !Above(ScoreOf(p, kept[j]), ScoreOf(p, kept[i]))
    requires j < i ==> Above(ScoreOf(p, kept[i]), ScoreOf(p, kept[j]))
    ensures RanksFirst(p, kept, i, j)
  {
    assert ScoreOf(p, kept[i]).points == Points(p, kept[i]) && ScoreOf(p, kept[j]).points == Points(p, kept[j]);
  }

  /** The harmful label a SAFE conflict can resolve to: one of best priority, ties broken either way. */
  predicate BestHarmful(p: Policy, labels: set<Label>, pick: Label) {
    && pick in labels && pick != SAFE
    && forall l :: l in labels && l != SAFE ==> IndexIn(p.priority, pick, 999) <= IndexIn(p.priority, l, 999)
  }

  /** The label a SAFE conflict resolves to, if there is a harmful one at all. */
  ghost predicate BreaksTies(p: Policy, labels: set<Label>, pick: Label) {
    (exists l :: l in labels && l != SAFE) ==> BestHarmful(p, labels, pick)
  }

  /** The primary label after conflict resolution. */
  function ResolvedPrimary(labels: set<Label>, initial: Label, pick: Label): Label {
    var resolved := if SAFE in labels && |labels| > 1 && initial == SAFE then pick else initial;
    if URL in labels && SCAM in labels && resolved == URL then SCAM else resolved
  }

  datatype Conflict = SafeMixed(harmful: set<Label>) | SafeExcluded | ScamPreferred

  /** SAFE stands beside other labels. */
  predicate Mixed(labels: set<Label>) {
    SAFE in labels && |labels| > 1
  }

  /** The conflicts reported, in order. */
  function ConflictsOf(labels: set<Label>, initial: Label, pick: Label): seq<Conflict> {
    var settled := if Mixed(labels) && initial == SAFE then pick else initial;
    (if Mixed(labels) then [SafeMixed(labels - {SAFE})] else [])
    + (if Mixed(labels) && initial == SAFE then [SafeExcluded] else [])
    + (if URL in labels && SCAM in labels && settled == URL then [ScamPreferred] else [])
  }

  /** What the reported conflicts tell: whether SAFE was mixed with which labels, and exactly when the primary
      label was changed. */
  lemma ConflictsMeaning(p: Policy, labels: set<Label>, initial: Label, pick: Label)
    requires BreaksTies(p, labels, pick)
    ensures var conflicts := ConflictsOf(labels, initial, pick);
      && (forall h :: SafeMixed(h) in conflicts <==> Mixed(labels) && h == labels - {SAFE})
      && (ResolvedPrimary(labels, initial, pick) != initial <==> SafeExcluded in conflicts || ScamPreferred in conflicts)
  {
    if Mixed(labels) {
      HarmfulInMixed(labels);
    }
  }

  lemma HarmfulInMixed(labels: set<Label>)
    requires Mixed(labels)
    ensures exists l :: l in labels && l != SAFE
  {
    assert |labels - {SAFE}| == |labels| - 1;
    var l :| l in labels - {SAFE};
  }

  method ResolveConflicts(p: Policy, kept: seq<Signal>, initial: Label)
      returns (resolved: Label, conflicts: seq<Conflict>, pick: Label)
    ensures resolved == ResolvedPrimary(SignalLabels(kept), initial, pick)
    ensures BreaksTies(p, SignalLabels(kept), pick)
    ensures conflicts == ConflictsOf(SignalLabels(kept), initial, pick)
  {
    var labels := SignalLabels(kept);
    resolved, conflicts := initial, [];
    pick := BestOf(p, labels);
    if SAFE in labels && |labels| > 1 {
      conflicts := conflicts + [SafeMixed(labels - {SAFE})];
      if resolved == SAFE {
        resolved := pick;
        conflicts := conflicts + [SafeExcluded];
      }
    }
    if URL in labels && SCAM in labels {
      if resolved == URL {
        resolved := SCAM;
        conflicts := conflicts + [ScamPreferred];
      }
    }
  }

  /** The head of the harmful labels sorted by priority. */
  method BestOf(p: Policy, labels: set<Label>) returns (pick: Label)
    ensures BreaksTies(p, labels, pick)
  {
    var harmful := labels - {SAFE};
    pick := SAFE;
    if harmful != {} {
      pick := LeastByPriority(p, harmful);
    }
    assert forall l :: l in harmful <==> l in labels && l != SAFE;
  }

  method LeastByPriority(p: Policy, labels: set<Label>) returns (best: Label)
    requires labels != {}
    ensures best in labels
    ensures forall l :: l in labels ==> IndexIn(p.priority, best, 999) <= IndexIn(p.priority, l, 999)
  {
    best :| best in labels;
    var rest := labels - {best};
    while rest != {}
      invariant rest <= labels && best in labels
      invariant forall l :: l in labels - rest ==> IndexIn(p.priority, best, 999) <= IndexIn(p.priority, l, 999)
      decreases |rest|
    {
      var l :| l in rest;
      rest := rest - {l};
      if IndexIn(p.priority, l, 999) < IndexIn(p.priority, best, 999) {
        best := l;
      }
    }
  }

  /** The primary label is always one of the reported labels, is SAFE exactly when no harmful signal
      survived, and is never URL when SCAM survived. */
  lemma PrimaryIsConsistent(p: Policy, kept: seq<Signal>, pick: Label)
    requires BreaksTies(p, SignalLabels(kept), pick)
    ensures var primary := ResolvedPrimary(SignalLabels(kept), InitialPrimary(p, kept), pick);
      && primary in ReportedLabels(kept)
      && (primary == SAFE <==> forall s :: s in kept ==> s.l == SAFE)
      && (SCAM in SignalLabels(kept) ==> primary != URL)
  {
    var labels := SignalLabels(kept);
    if kept != [] {
      InitialIsSignalled(p, kept);
      ResolvedIsConsistent(p, labels, InitialPrimary(p, kept), pick);
    }
    OnlySafe(kept);
  }

  /** When SAFE ranks first beside harmful labels, it gives way to one of them that stands first in the priority list,
      and URL gives way to SCAM; nothing else does. */
  lemma PrimaryMeaning(p: Policy, labels: set<Label>, initial: Label, pick: Label)
    requires initial in labels && |p.priority| <= 999
    requires BreaksTies(p, labels, pick)
    ensures var givesWay := initial == SAFE && exists l :: l in labels && l != SAFE;
      var settled := if givesWay then pick else initial;
      && ResolvedPrimary(labels, initial, pick) == (if settled == URL && SCAM in labels then SCAM else settled)
      && (givesWay ==> pick in labels && pick != SAFE)
      && (givesWay ==> forall l, j :: l in labels && l != SAFE && LastAt(p.priority, l, j) ==>
            exists i: nat :: i <= j && LastAt(p.priority, pick, i))
  {
    if exists l :: l in labels && l != SAFE {
      if initial == SAFE {
        var other :| other in labels && other != SAFE;
        TwoLabels(labels, other);
        forall l, j | l in labels && l != SAFE && LastAt(p.priority, l, j)
          ensures exists i: nat :: i <= j && LastAt(p.priority, pick, i)
        {
          IndexInMeaning(p.priority, l, 999);
          IndexInMeaning(p.priority, pick, 999);
        }
      }
    } else {
      assert labels == {SAFE};
    }
  }

  lemma InitialIsSignalled(p: Policy, kept: seq<Signal>)
    requires kept != []
    ensures InitialPrimary(p, kept) in SignalLabels(kept)
  {
    var best := Best(kept, Ranking(p));
    assert best in kept;
  }

  lemma OnlySafe(kept: seq<Signal>)
    ensures SignalLabels(kept) <= {SAFE} <==> forall s :: s in kept ==> s.l == SAFE
  {
    if SignalLabels(kept) <= {SAFE} {
      forall s | s in kept ensures s.l == SAFE {
        assert s.l in SignalLabels(kept);
      }
    }
  }

  lemma ResolvedIsConsistent(p: Policy, labels: set<Label>, initial: Label, pick: Label)
    requires initial in labels
    requires BreaksTies(p, labels, pick)
    ensures var primary := ResolvedPrimary(labels, initial, pick);
      && primary in (if labels - {SAFE} != {} then labels - {SAFE} else labels)
      && (primary == SAFE <==> labels <= {SAFE})
      && (SCAM in labels ==> primary != URL)
  {
    if labels <= {SAFE} {
      assert labels == {SAFE};
    } else {
      var l :| l in labels && l != SAFE;
      assert l in labels - {SAFE};
      if SAFE in labels {
        TwoLabels(labels, l);
      }
    }
  }

  lemma TwoLabels(labels: set<Label>, l: Label)
    requires SAFE in labels && l in labels && l != SAFE
    ensures |labels| > 1
  {
    assert |labels| == |labels - {SAFE}| + 1;
    assert |labels - {SAFE}| == |labels - {SAFE} - {l}| + 1;
  }

  // ---------------------------------------------------------------- model agreement

  predicate ModelSignal(p: Policy, s: Signal) {
    (s.source == RUBERT || s.source == QWEN) && s.confidence >= p.agreement.threshold
  }

  /** The label a model source has the last word with. */
  function LastWord(p: Policy, kept: seq<Signal>, source: SignalSource): Option<Label> {
    if kept == [] then None
    else
      var n := |kept| - 1;
      if ModelSignal(p, kept[n]) && kept[n].source == source then Some(kept[n].l) else LastWord(p, kept[..n], source)
  }

  datatype Agreement = Agreement(score: real, disagreement: bool)

  function AgreementOf(p: Policy, kept: seq<Signal>): Agreement {
    var rubert, qwen := LastWord(p, kept, RUBERT), LastWord(p, kept, QWEN);
    if !p.agreement.enabled || rubert.None? || qwen.None? then Agreement(1.0, false)
    else if rubert == qwen then Agreement(1.0 + p.agreement.bonus, false)
    else Agreement(1.0 - p.agreement.penalty, true)
  }

  method CalculateAgreement(p: Policy, kept: seq<Signal>) returns (r: Agreement)
    ensures r == AgreementOf(p, kept)
  {
    if !p.agreement.enabled {
      return Agreement(1.0, false);
    }
    var labelsBySource: map<SignalSource, Label> := map[];
    for i := 0 to |kept|
      invariant forall source ::
        LastWord(p, kept[..i], source) == (if source in labelsBySource then Some(labelsBySource[source]) else None)
      invariant forall source :: source in labelsBySource ==> source == RUBERT || source == QWEN
    {
      assert kept[..i + 1][..i] == kept[..i];
      if ModelSignal(p, kept[i]) {
        labelsBySource := labelsBySource[kept[i].source := kept[i].l];
      }
    }
    assert kept[..|kept|] == kept;
    if RUBERT !in labelsBySource || QWEN !in labelsBySource {
      return Agreement(1.0, false);
    }
    if labelsBySource[RUBERT] == labelsBySource[QWEN] {
      return Agreement(1.0 + p.agreement.bonus, false);
    }
    return Agreement(1.0 - p.agreement.penalty, true);
  }

  lemma {:induction false} LastWordMeaning(p: Policy, kept: seq<Signal>, source: SignalSource)
    ensures LastWord(p, kept, source).None? <==> forall s :: s in kept && ModelSignal(p, s) ==> s.source != source
    ensures LastWord(p, kept, source).Some? ==>
      exists s :: s in kept && ModelSignal(p, s) && s.source == source && s.l == LastWord(p, kept, source).value
  {
    if kept != [] {
      var n := |kept| - 1;
      LastWordMeaning(p, kept[..n], source);
      assert kept == kept[..n] + [kept[n]];
      assert kept[n] in kept;
    }
  }

  /** The signal is of a model source that is sure enough to be heard. */
  predicate Heard(p: Policy, kept: seq<Signal>, source: SignalSource, i: int) {
    0 <= i < |kept| && kept[i].source == source && kept[i].confidence >= p.agreement.threshold
  }

  predicate HeardLast(p: Policy, kept: seq<Signal>, source: SignalSource, i: int) {
    Heard(p, kept, source, i) && forall j :: i < j < |kept| ==> !Heard(p, kept, source, j)
  }

  lemma HeardBefore(p: Policy, kept: seq<Signal>, source: SignalSource)
    requires kept != [] && !Heard(p, kept, source, |kept| - 1)
    ensures forall i :: Heard(p, kept[..|kept| - 1], source, i) ==> Heard(p, kept, source, i)
    ensures forall i :: HeardLast(p, kept, source, i) ==> HeardLast(p, kept[..|kept| - 1], source, i)
  {
    var init := kept[..|kept| - 1];
    forall i | HeardLast(p, kept, source, i) ensures HeardLast(p, init, source, i) {
      assert i != |kept| - 1;
      assert init[i] == kept[i];
      forall j | i < j < |init| ensures !Heard(p, init, source, j) {
        assert !Heard(p, kept, source, j) && init[j] == kept[j];
      }
    }
  }

  lemma {:induction false} LastWordAt(p: Policy, kept: seq<Signal>, source: SignalSource)
    requires source == RUBERT || source == QWEN
    ensures forall i :: HeardLast(p, kept, source, i) ==> LastWord(p, kept, source) == Some(kept[i].l)
    ensures (forall i :: !Heard(p, kept, source, i)) ==> LastWord(p, kept, source) == None
  {
    if kept != [] {
      var n := |kept| - 1;
      if Heard(p, kept, source, n) {
        assert forall i :: HeardLast(p, kept, source, i) ==> i == n;
      } else {
        HeardBefore(p, kept, source);
        LastWordAt(p, kept[..n], source);
      }
    }
  }

  /** Two heard models are compared by their last heard signals, for a bonus or for a penalty and a disagreement; with
      agreement off or a model not heard nothing changes. */
  lemma AgreementMeaning(p: Policy, kept: seq<Signal>)
    ensures !p.agreement.enabled || (forall i :: !Heard(p, kept, RUBERT, i)) || (forall i :: !Heard(p, kept, QWEN, i)) ==>
      AgreementOf(p, kept) == Agreement(1.0, false)
    ensures forall i, j :: p.agreement.enabled && HeardLast(p, kept, RUBERT, i) && HeardLast(p, kept, QWEN, j) ==>
      AgreementOf(p, kept) == if kept[i].l == kept[j].l
        then Agreement(1.0 + p.agreement.bonus, false) else Agreement(1.0 - p.agreement.penalty, true)
  {
    LastWordAt(p, kept, RUBERT);
    LastWordAt(p, kept, QWEN);
  }

  /** The labels a model source speaks with. */
  function Words(p: Policy, kept: seq<Signal>, source: SignalSource): set<Label> {
    set s | s in kept && ModelSignal(p, s) && s.source == source :: s.l
  }

  /** The order cannot matter: agreement is off, a model is silent, the models share no label, or they share
      the only one. */
  predicate OrderCannotMatter(p: Policy, kept: seq<Signal>) {
    var rubert, qwen := Words(p, kept, RUBERT), Words(p, kept, QWEN);
    || !p.agreement.enabled || rubert == {} || qwen == {} || rubert !! qwen
    || (forall x, y :: x in rubert + qwen && y in rubert + qwen ==> x == y)
  }

  /** Every reordering has the same agreement. */
  ghost predicate OrderFree(p: Policy, kept: seq<Signal>) {
    forall b :: multiset(b) == multiset(kept) ==> AgreementOf(p, b) == AgreementOf(p, kept)
  }

  lemma LastWordIsSpoken(p: Policy, kept: seq<Signal>, source: SignalSource)
    ensures LastWord(p, kept, source).None? <==> Words(p, kept, source) == {}
    ensures LastWord(p, kept, source).Some? ==> LastWord(p, kept, source).value in Words(p, kept, source)
  {
    LastWordMeaning(p, kept, source);
    if Words(p, kept, source) != {} {
      var l :| l in Words(p, kept, source);
      var s :| s in kept && ModelSignal(p, s) && s.source == source && s.l == l;
    }
    if LastWord(p, kept, source).Some? {
      var s :| s in kept && ModelSignal(p, s) && s.source == source && s.l == LastWord(p, kept, source).value;
      assert s.l in Words(p, kept, source);
    }
  }

  lemma SameWords(p: Policy, a: seq<Signal>, b: seq<Signal>, source: SignalSource)
    requires Includes(a, b) && Includes(b, a)
    ensures Words(p, a, source) == Words(p, b, source)
  {
  }

  /** Reordering or repeating signals does not change an agreement that cannot depend on their order. */
  lemma AgreementIsOrderFree(p: Policy, a: seq<Signal>, b: seq<Signal>)
    requires Includes(a, b) && Includes(b, a) && OrderCannotMatter(p, a)
    ensures AgreementOf(p, a) == AgreementOf(p, b)
  {
    SameWords(p, a, b, RUBERT);
    SameWords(p, a, b, QWEN);
    LastWordIsSpoken(p, a, RUBERT);
    LastWordIsSpoken(p, a, QWEN);
    LastWordIsSpoken(p, b, RUBERT);
    LastWordIsSpoken(p, b, QWEN);
    var rubert, qwen := Words(p, a, RUBERT), Words(p, a, QWEN);
    if p.agreement.enabled && rubert != {} && qwen != {} {
      var ra, qa := LastWord(p, a, RUBERT).value, LastWord(p, a, QWEN).value;
      var rb, qb := LastWord(p, b, RUBERT).value, LastWord(p, b, QWEN).value;
      assert ra in rubert && rb in rubert && qa in qwen && qb in qwen;
      if rubert !! qwen {
        assert ra != qa && rb != qb;
      } else {
        assert ra in rubert + qwen && rb in rubert + qwen && qa in rubert + qwen && qb in rubert + qwen;
      }
    }
  }

  /** The last word of a sequence that ends with `x` from one model and `y` from the other. */
  lemma LastTwo(p: Policy, kept: seq<Signal>, x: Signal, y: Signal)
    requires ModelSignal(p, x) && ModelSignal(p, y) && x.source != y.source
    ensures LastWord(p, kept + [x, y], x.source) == Some(x.l) && LastWord(p, kept + [x, y], y.source) == Some(y.l)
  {
    assert (kept + [x, y])[..|kept| + 1] == kept + [x] && (kept + [x])[..|kept|] == kept;
  }

  /** A reordering that ends with two given signals. */
  lemma EndWith(kept: seq<Signal>, x: Signal, y: Signal) returns (b: seq<Signal>)
    requires x in kept && y in kept && x != y
    ensures multiset(b + [x, y]) == multiset(kept)
  {
    var rest := TakeOut(kept, x);
    assert y in multiset(kept);
    assert y in multiset(rest);
    b := TakeOut(rest, y);
    assert multiset(b + [x, y]) == multiset(b) + multiset{x} + multiset{y};
  }

  lemma TakeOut(kept: seq<Signal>, x: Signal) returns (rest: seq<Signal>)
    requires x in kept
    ensures multiset(kept) == multiset(rest) + multiset{x}
  {
    var i :| 0 <= i < |kept| && kept[i] == x;
    rest := RemoveAt(kept, i);
    MultisetRemoveAt(kept, i);
  }

  /** The reordering that ends with `x` and `y` decides the agreement by their labels. */
  lemma EndDecides(p: Policy, kept: seq<Signal>, x: Signal, y: Signal) returns (b: seq<Signal>)
    requires p.agreement.enabled && x in kept && y in kept && ModelSignal(p, x) && ModelSignal(p, y) && x.source != y.source
    ensures multiset(b) == multiset(kept) && AgreementOf(p, b).disagreement == (x.l != y.l)
  {
    var start := EndWith(kept, x, y);
    b := start + [x, y];
    LastTwo(p, start, x, y);
  }

  /** A model that shares a label with the other, and one of the two that also has another label. */
  lemma SharedAndOther(p: Policy, kept: seq<Signal>) returns (x: Signal, y: Signal, z: Signal)
    requires !OrderCannotMatter(p, kept)
    ensures x in kept && y in kept && z in kept && ModelSignal(p, x) && ModelSignal(p, y) && ModelSignal(p, z)
    ensures x.source != y.source && x.l == y.l && z.source == x.source && z.l != x.l
  {
    var rubert, qwen := Words(p, kept, RUBERT), Words(p, kept, QWEN);
    var shared :| shared in rubert && shared in qwen;
    var r :| r in kept && ModelSignal(p, r) && r.source == RUBERT && r.l == shared;
    var q :| q in kept && ModelSignal(p, q) && q.source == QWEN && q.l == shared;
    var other :| other in rubert + qwen && other != shared;
    if other in rubert {
      x, y := r, q;
      z :| z in kept && ModelSignal(p, z) && z.source == RUBERT && z.l == other;
    } else {
      x, y := q, r;
      z :| z in kept && ModelSignal(p, z) && z.source == QWEN && z.l == other;
    }
  }

  /** The agreement ignores the order of the signals if and only if agreement is off, a model is silent, the
      models share no label, or they speak with one label only. */
  lemma AgreementIsOrderFreeIff(p: Policy, kept: seq<Signal>)
    ensures OrderFree(p, kept) <==> OrderCannotMatter(p, kept)
  {
    if OrderCannotMatter(p, kept) {
      forall b | multiset(b) == multiset(kept) ensures AgreementOf(p, b) == AgreementOf(p, kept) {
        SameMembers(b, kept);
        AgreementIsOrderFree(p, kept, b);
      }
    } else {
      var x, y, z := SharedAndOther(p, kept);
      var a := EndDecides(p, kept, x, y);
      var b := EndDecides(p, kept, z, y);
    }
  }

  lemma SameMembers(a: seq<Signal>, b: seq<Signal>)
    requires multiset(a) == multiset(b)
    ensures Includes(a, b) && Includes(b, a)
  {
    forall s ensures s in a <==> s in b {
      assert s in multiset(a) <==> s in multiset(b);
    }
  }

  /** A witness: when a model speaks twice, only its last word counts. */
  lemma AgreementCanDependOnOrder(p: Policy)
    requires p.agreement == AgreementPolicy(true, 0.1, 0.1, 0.8)
    ensures var x, y, z := Signal(RUBERT, TOXIC, 0.9, 3, 1), Signal(RUBERT, SPAM, 0.9, 3, 1), Signal(QWEN, TOXIC, 0.9, 3, 1);
      && AgreementOf(p, [x, y, z]) == Agreement(0.9, true)
      && AgreementOf(p, [y, x, z]) == Agreement(1.1, false)
  {
    var x, y, z := Signal(RUBERT, TOXIC, 0.9, 3, 1), Signal(RUBERT, SPAM, 0.9, 3, 1), Signal(QWEN, TOXIC, 0.9, 3, 1);
    assert [x, y, z][..2] == [x, y] && [y, x, z][..2] == [y, x];
    assert LastWord(p, [x, y, z], QWEN) == LastWord(p, [y, x, z], QWEN) == Some(TOXIC);
    assert LastWord(p, [x, y, z], RUBERT) == LastWord(p, [x, y], RUBERT) == Some(SPAM);
    assert LastWord(p, [y, x, z], RUBERT) == LastWord(p, [y, x], RUBERT) == Some(TOXIC);
  }

  // ---------------------------------------------------------------- the user factor and the final score

  /** What the engine knows about the author. */
  datatype Context = Context(accountAgeDays: Option<int>, memberAgeDays: Option<int>, recentViolations: int, escalationScore: real)

  /** The multipliers the policy validator accepts. */
  ghost predicate ValidUserRisk(u: UserRisk) {
    u.newAccount >= 1.0 && u.newMember >= 1.0 && u.repeatViolation >= 1.0 && u.escalation >= 1.0 && u.maxMultiplier >= 1.0
  }

  method UserRiskMultiplier(p: Policy, context: Option<Context>) returns (r: real)
    ensures r == UserMultiplier(p, context)
  {
    if context.None? || !p.userRisk.enabled {
      return 1.0;
    }
    var u, c := p.userRisk, context.value;
    var multiplier := 1.0;
    if c.accountAgeDays.Some? && c.accountAgeDays.value < u.newAccountDays {
      multiplier := multiplier * u.newAccount;
    }
    if c.memberAgeDays.Some? && c.memberAgeDays.value < u.newMemberDays {
      multiplier := multiplier * u.newMember;
    }
    if c.recentViolations >= u.violationThreshold {
      multiplier := multiplier * u.repeatViolation;
    }
    if c.escalationScore >= u.escalationThreshold {
      multiplier := multiplier * u.escalation;
    }
    return Min(multiplier, u.maxMultiplier);
  }

  function Factor(applies: bool, factor: real): real {
    if applies then factor else 1.0
  }

  function UserMultiplier(p: Policy, context: Option<Context>): real {
    if context.None? || !p.userRisk.enabled then 1.0
    else
      var u, c := p.userRisk, context.value;
      Min(Factor(c.accountAgeDays.Some? && c.accountAgeDays.value < u.newAccountDays, u.newAccount)
        * Factor(c.memberAgeDays.Some? && c.memberAgeDays.value < u.newMemberDays, u.newMember)
        * Factor(c.recentViolations >= u.violationThreshold, u.repeatViolation)
        * Factor(c.escalationScore >= u.escalationThreshold, u.escalation),
        u.maxMultiplier)
  }

  /** Each of the four factors counts when its condition holds and is one otherwise; their product is capped. */
  lemma UserMultiplierMeaning(p: Policy, c: Context, account: real, member: real, repeat: real, escalation: real)
    requires p.userRisk.enabled
    requires account == if exists d :: c.accountAgeDays == Some(d) && d < p.userRisk.newAccountDays
      then p.userRisk.newAccount else 1.0
    requires member == if exists d :: c.memberAgeDays == Some(d) && d < p.userRisk.newMemberDays
      then p.userRisk.newMember else 1.0
    requires repeat == if c.recentViolations >= p.userRisk.violationThreshold then p.userRisk.repeatViolation else 1.0
    requires escalation == if c.escalationScore >= p.userRisk.escalationThreshold then p.userRisk.escalation else 1.0
    ensures var product := account * member * repeat * escalation;
      && (product <= p.userRisk.maxMultiplier ==> UserMultiplier(p, Some(c)) == product)
      && (product >= p.userRisk.maxMultiplier ==> UserMultiplier(p, Some(c)) == p.userRisk.maxMultiplier)
  {
    var u := p.userRisk;
    assert account == Factor(c.accountAgeDays.Some? && c.accountAgeDays.value < u.newAccountDays, u.newAccount);
    assert member == Factor(c.memberAgeDays.Some? && c.memberAgeDays.value < u.newMemberDays, u.newMember);
    assert repeat == Factor(c.recentViolations >= u.violationThreshold, u.repeatViolation);
    assert escalation == Factor(c.escalationScore >= u.escalationThreshold, u.escalation);
    assert UserMultiplier(p, Some(c)) == Min(account * member * repeat * escalation, u.maxMultiplier);
  }

  /** Nothing is known about the author, or the factor is off. */
  lemma NoUserFactor(p: Policy, context: Option<Context>)
    requires context.None? || !p.userRisk.enabled
    ensures UserMultiplier(p, context) == 1.0
  {
  }

  lemma AtLeastOne(a: real, b: real)
    requires a >= 1.0 && b >= 1.0
    ensures a * b >= 1.0
  {
    assert (a - 1.0) * (b - 1.0) >= 0.0;
  }

  /** The author's context never lowers a score, and never raises it beyond the policy's cap. */
  lemma UserMultiplierBounds(p: Policy, context: Option<Context>)
    requires ValidUserRisk(p.userRisk)
    ensures 1.0 <= UserMultiplier(p, context) <= p.userRisk.maxMultiplier
  {
    if context.Some? && p.userRisk.enabled {
      var u, c := p.userRisk, context.value;
      var f := Factor(c.accountAgeDays.Some? && c.accountAgeDays.value < u.newAccountDays, u.newAccount);
      var g := Factor(c.memberAgeDays.Some? && c.memberAgeDays.value < u.newMemberDays, u.newMember);
      var h := Factor(c.recentViolations >= u.violationThreshold, u.repeatViolation);
      var k := Factor(c.escalationScore >= u.escalationThreshold, u.escalation);
      AtLeastOne(f, g);
      AtLeastOne(f * g, h);
      AtLeastOne(f * g * h, k);
    }
  }

  function ClampedProduct(low: real, high: real, base: real, factor: real, multiplier: real): real {
    Clamp(low, high, base * factor * multiplier)
  }

  function FinalScore(p: Policy, kept: seq<Signal>, multiplier: real): real {
    ClampedProduct(p.minScore, p.maxScore, BaseScore(p, kept), AgreementOf(p, kept).score, multiplier)
  }

  /** The final score stays within the policy's range. */
  lemma FinalScoreInRange(p: Policy, kept: seq<Signal>, multiplier: real)
    requires ValidRange(p)
    ensures p.minScore <= FinalScore(p, kept, multiplier) <= p.maxScore
  {
  }

  /** Within the range the final score is the product of base score, agreement factor and user factor. */
  lemma FinalScoreMeaning(p: Policy, kept: seq<Signal>, multiplier: real)
    requires ValidRange(p)
    ensures var product := BaseScore(p, kept) * AgreementOf(p, kept).score * multiplier;
      && (p.minScore <= product <= p.maxScore ==> FinalScore(p, kept, multiplier) == product)
      && (product < p.minScore ==> FinalScore(p, kept, multiplier) == p.minScore)
      && (product > p.maxScore ==> FinalScore(p, kept, multiplier) == p.maxScore)
  {
    ClampMeaning(p.minScore, p.maxScore, BaseScore(p, kept), AgreementOf(p, kept).score, multiplier);
  }

  lemma ClampMeaning(low: real, high: real, base: real, factor: real, multiplier: real)
    requires low <= high
    ensures var product, r := base * factor * multiplier, ClampedProduct(low, high, base, factor, multiplier);
      if product < low then r == low else if product > high then r == high else r == product
  {
  }

  /** At most one model source is heard with high confidence, or agreement is not considered. */
  ghost predicate OneVoice(p: Policy, kept: seq<Signal>) {
    !p.agreement.enabled || LastWord(p, kept, RUBERT).None? || LastWord(p, kept, QWEN).None?
  }

  function Times(a: real, m: real): real {
    a * m
  }

  lemma TimesMonotone(a: real, b: real, m: real)
    requires a <= b && m >= 0.0
    ensures Times(a, m) <= Times(b, m)
  {
  }

  /** The product that is clamped when the agreement factor is one. */
  function Scaled(p: Policy, kept: seq<Signal>, multiplier: real): real {
    Times(BaseScore(p, kept), multiplier)
  }

  lemma UnscaledScore(p: Policy, kept: seq<Signal>, multiplier: real)
    requires OneVoice(p, kept)
    ensures FinalScore(p, kept, multiplier) == Clamp(p.minScore, p.maxScore, Scaled(p, kept, multiplier))
  {
    assert AgreementOf(p, kept).score == 1.0;
    var base := BaseScore(p, kept);
    assert base * 1.0 == base;
  }

  /** The agreement settings the policy validator accepts. */
  ghost predicate ValidAgreement(p: Policy) {
    p.agreement.bonus >= 0.0 && p.agreement.penalty >= 0.0
  }

  lemma HeardInMore(p: Policy, fewer: seq<Signal>, more: seq<Signal>, source: SignalSource)
    requires Includes(more, fewer) && LastWord(p, fewer, source).Some?
    ensures LastWord(p, more, source).Some?
  {
    LastWordMeaning(p, fewer, source);
    LastWordMeaning(p, more, source);
  }

  /** The agreement factor falls only when more signals bring in a disagreement. */
  lemma FactorGrows(p: Policy, fewer: seq<Signal>, more: seq<Signal>)
    requires ValidAgreement(p) && Includes(more, fewer)
    requires AgreementOf(p, more).disagreement ==> AgreementOf(p, fewer).disagreement
    ensures AgreementOf(p, fewer).score <= AgreementOf(p, more).score
  {
    if LastWord(p, fewer, RUBERT).Some? && LastWord(p, fewer, QWEN).Some? {
      HeardInMore(p, fewer, more, RUBERT);
      HeardInMore(p, fewer, more, QWEN);
    }
  }

  /** Products with a non-negative first factor grow with their factors once they are clamped to a non-negative range,
      even below zero. */
  lemma ClampedProductGrows(low: real, high: real, a: real, b: real, f: real, g: real, m: real)
    requires 0.0 <= low && 0.0 <= a <= b && f <= g && m >= 0.0
    ensures ClampedProduct(low, high, a, f, m) <= ClampedProduct(low, high, b, g, m)
  {
    if g >= 0.0 {
      assert a * f <= a * g;
      assert a * g <= b * g;
      TimesMonotone(a * f, b * g, m);
    } else {
      assert a * f <= 0.0;
      TimesMonotone(a * f, 0.0, m);
    }
  }

  lemma BaseScoreIsNonNegative(p: Policy, kept: seq<Signal>)
    requires ValidRange(p)
    ensures BaseScore(p, kept) >= 0.0
  {
  }

  /** Adding signals never lowers the final score unless it makes the models disagree. */
  lemma FinalScoreGrows(p: Policy, fewer: seq<Signal>, more: seq<Signal>, multiplier: real)
    requires ValidRange(p) && ValidAgreement(p) && Includes(more, fewer) && multiplier >= 0.0
    requires AgreementOf(p, more).disagreement ==> AgreementOf(p, fewer).disagreement
    ensures FinalScore(p, fewer, multiplier) <= FinalScore(p, more, multiplier)
  {
    var a, b, f, g := BaseScore(p, fewer), BaseScore(p, more), AgreementOf(p, fewer).score, AgreementOf(p, more).score;
    assert 0.0 <= a <= b by {
      BaseScoreIsNonNegative(p, fewer);
      BaseScoreGrows(p, fewer, more);
    }
    assert f <= g by {
      FactorGrows(p, fewer, more);
    }
    ClampedProductGrows(p.minScore, p.maxScore, a, b, f, g, multiplier);
  }
}
