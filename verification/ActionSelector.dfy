/** From a rule evaluation to a moderation action: thresholds, the low-confidence downgrade, and modes. */
module ActionSelector {
  import opened ModerationLabels
  import opened RuleEngine
  import opened Reals
  import opened Sequences

  datatype Action = IGNORE | LOG | REVIEW | WARN | DELETE | DELETE_WARN | TIMEOUT | KICK | BAN

  /** Actions by strength. */
  function Strength(a: Action): nat {
    match a
    case IGNORE => 0
    case LOG => 1
    case REVIEW => 2
    case WARN => 3
    case DELETE => 4
    case DELETE_WARN => 5
    case TIMEOUT => 6
    case KICK => 7
    case BAN => 8
  }

  datatype Mode = PASSIVE | ACTIVE | STRICT

  datatype Thresholds = Thresholds(log: real, review: real, warn: real, delete: real, deleteWarn: real, timeout: real, ban: real)

  datatype DecisionPolicy = DecisionPolicy(
    mode: Mode,
    thresholds: Thresholds,
    minConfidence: real,
    overrides: map<Label, Action>,
    actionPriority: seq<Action>,
    riskMultiplier: real,
    confidenceReduction: real,
    maxPassiveAction: Action,
    reviewOnDisagreement: bool,
    reviewOnLowConfidence: bool)

  /** What the selector reads of an evaluation. */
  datatype Evaluation = Evaluation(primary: Label, confidence: real, risk: real, disagreement: bool)

  // ---------------------------------------------------------------- the selection

  function AdjustedRisk(policy: DecisionPolicy, risk: real): real {
    if policy.mode != STRICT then risk else Min(100.0, risk * policy.riskMultiplier)
  }

  function MinConfidence(policy: DecisionPolicy): real {
    if policy.mode == STRICT then Max(0.0, policy.minConfidence - policy.confidenceReduction) else policy.minConfidence
  }

  /** The cascade checks the strongest action first, so the thresholds need not be increasing. */
  function ByThreshold(t: Thresholds, risk: real): Action {
    if risk >= t.ban then BAN
    else if risk >= t.timeout then TIMEOUT
    else if risk >= t.deleteWarn then DELETE_WARN
    else if risk >= t.delete then DELETE
    else if risk >= t.warn then WARN
    else if risk >= t.review then REVIEW
    else if risk >= t.log then LOG
    else IGNORE
  }

  predicate Destructive(a: Action) {
    a == DELETE || a == DELETE_WARN || a == BAN || a == TIMEOUT
  }

  /** A destructive action is held back for review when the confidence is too low. */
  predicate Downgrades(policy: DecisionPolicy, a: Action, confidence: real) {
    Destructive(a) && confidence < MinConfidence(policy) && policy.reviewOnLowConfidence
  }

  function Downgraded(policy: DecisionPolicy, a: Action, confidence: real): Action {
    if Downgrades(policy, a, confidence) then REVIEW else a
  }

  /** An action that is not listed comes after all listed ones. */
  function PriorityOf(actions: seq<Action>, a: Action): nat {
    IndexIn(actions, a, 999)
  }

  /** One action precedes another when it is listed, and before the other if that is listed too. */
  lemma PriorityMeaning(actions: seq<Action>, a: Action, b: Action)
    requires |actions| <= 999
    ensures PriorityOf(actions, a) < PriorityOf(actions, b)
      <==> exists i: nat :: LastAt(actions, a, i) && forall j: nat :: LastAt(actions, b, j) ==> i < j
  {
    IndexInMeaning(actions, a, 999);
    IndexInMeaning(actions, b, 999);
    if a in actions {
      assert LastAt(actions, a, PriorityOf(actions, a));
    }
  }

  function AdjustedByMode(policy: DecisionPolicy, a: Action): Action {
    if policy.mode == PASSIVE && PriorityOf(policy.actionPriority, a) < PriorityOf(policy.actionPriority, policy.maxPassiveAction)
    then policy.maxPassiveAction else a
  }

  /** The action before the downgrade. */
  function Chosen(policy: DecisionPolicy, e: Evaluation): Action {
    if e.primary in policy.overrides then policy.overrides[e.primary]
    else ByThreshold(policy.thresholds, AdjustedRisk(policy, e.risk))
  }

  function Select(policy: DecisionPolicy, e: Evaluation): Action {
    if policy.reviewOnDisagreement && e.disagreement then REVIEW
    else AdjustedByMode(policy, Downgraded(policy, Chosen(policy, e), e.confidence))
  }

  // ---------------------------------------------------------------- thresholds

  /** A higher risk never selects a weaker action, whatever the order of the thresholds. */
  lemma ByThresholdMonotone(t: Thresholds, low: real, high: real)
    requires low <= high
    ensures Strength(ByThreshold(t, low)) <= Strength(ByThreshold(t, high))
  {
  }

  /** The strongest action whose threshold is reached, for each action the exact range; KICK is never chosen this way. */
  lemma ByThresholdMeaning(t: Thresholds, risk: real)
    ensures var a := ByThreshold(t, risk);
      && (a == BAN <==> risk >= t.ban)
      && (a == TIMEOUT <==> t.timeout <= risk < t.ban)
      && (a == DELETE_WARN <==> t.deleteWarn <= risk && risk < t.ban && risk < t.timeout)
      && (a == DELETE <==> t.delete <= risk && risk < t.ban && risk < t.timeout && risk < t.deleteWarn)
      && (a == WARN <==> t.warn <= risk && risk < t.ban && risk < t.timeout && risk < t.deleteWarn && risk < t.delete)
      && (a == REVIEW <==>
            t.review <= risk && risk < t.ban && risk < t.timeout && risk < t.deleteWarn && risk < t.delete && risk < t.warn)
      && (a == IGNORE <==> risk < t.ban && risk < t.timeout && risk < t.deleteWarn && risk < t.delete && risk < t.warn
                           && risk < t.review && risk < t.log)
      && a != KICK
  {
  }

  lemma RiskInMode(policy: DecisionPolicy, risk: real, raised: real)
    requires raised == risk * policy.riskMultiplier
    ensures AdjustedRisk(policy, risk)
      == if policy.mode != STRICT then risk else if raised > 100.0 then 100.0 else raised
  {
  }

  /** What the selector does, step by step: a disagreement may go to review; otherwise an override or the threshold
      decides, a destructive choice with too little confidence may be held back for review, and PASSIVE mode replaces
      what precedes its maximum by the maximum. STRICT mode multiplies the risk, up to 100, and lowers the confidence
      that is needed, down to zero. */
  lemma SelectMeaning(policy: DecisionPolicy, e: Evaluation, risk: real, needed: real, chosen: Action, held: Action)
    requires policy.mode != STRICT ==> risk == e.risk && needed == policy.minConfidence
    requires policy.mode == STRICT && e.risk * policy.riskMultiplier <= 100.0 ==> risk == e.risk * policy.riskMultiplier
    requires policy.mode == STRICT && e.risk * policy.riskMultiplier > 100.0 ==> risk == 100.0
    requires policy.mode == STRICT && policy.minConfidence >= policy.confidenceReduction ==>
      needed == policy.minConfidence - policy.confidenceReduction
    requires policy.mode == STRICT && policy.minConfidence < policy.confidenceReduction ==> needed == 0.0
    requires e.primary in policy.overrides ==> chosen == policy.overrides[e.primary]
    requires e.primary !in policy.overrides ==> chosen == ByThreshold(policy.thresholds, risk)
    requires chosen in {DELETE, DELETE_WARN, TIMEOUT, BAN} && e.confidence < needed && policy.reviewOnLowConfidence ==> held == REVIEW
    requires chosen !in {DELETE, DELETE_WARN, TIMEOUT, BAN} || e.confidence >= needed || !policy.reviewOnLowConfidence ==>
      held == chosen
    ensures policy.reviewOnDisagreement && e.disagreement ==> Select(policy, e) == REVIEW
    ensures !(policy.reviewOnDisagreement && e.disagreement) ==>
      Select(policy, e) == if policy.mode == PASSIVE
          && PriorityOf(policy.actionPriority, held) < PriorityOf(policy.actionPriority, policy.maxPassiveAction)
        then policy.maxPassiveAction else held
  {
    RiskInMode(policy, e.risk, e.risk * policy.riskMultiplier);
    assert AdjustedRisk(policy, e.risk) == risk;
    assert MinConfidence(policy) == needed;
    assert Chosen(policy, e) == chosen;
    assert Downgraded(policy, chosen, e.confidence) == held;
  }

  lemma AdjustedRiskMonotone(policy: DecisionPolicy, low: real, high: real)
    requires low <= high && policy.riskMultiplier >= 0.0
    ensures AdjustedRisk(policy, low) <= AdjustedRisk(policy, high)
  {
    TimesMonotone(low, high, policy.riskMultiplier);
  }

  // ---------------------------------------------------------------- the whole chain

  function Evaluate(p: Policy, signals: seq<Signal>, multiplier: real, pick: Label): Evaluation {
    var kept := Normalized(p, signals);
    Evaluation(
      ResolvedPrimary(SignalLabels(kept), InitialPrimary(p, kept), pick),
      Confidence(kept),
      FinalScore(p, kept, multiplier),
      AgreementOf(p, kept).disagreement)
  }

  /** The evaluation is that of the surviving signals: their primary label, largest confidence, final score and agreement;
      without any it is SAFE with full confidence. */
  lemma EvaluateMeaning(p: Policy, signals: seq<Signal>, multiplier: real, pick: Label)
    requires |p.priority| <= 999
    requires BreaksTies(p, SignalLabels(Normalized(p, signals)), pick)
    ensures var e, kept := Evaluate(p, signals, multiplier, pick), Normalized(p, signals);
      && e.risk == FinalScore(p, kept, multiplier) && e.disagreement == AgreementOf(p, kept).disagreement
      && (kept == [] ==> e.primary == SAFE && e.confidence == 1.0)
      && (kept != [] ==> (exists s :: s in kept && s.confidence == e.confidence))
      && (forall s :: s in kept ==> s.confidence <= e.confidence)
      && e.primary in ReportedLabels(kept)
      && (InitialPrimary(p, kept) != SAFE && InitialPrimary(p, kept) != URL ==> e.primary == InitialPrimary(p, kept))
      && (InitialPrimary(p, kept) == URL ==> e.primary == if SCAM in SignalLabels(kept) then SCAM else URL)
  {
    var kept := Normalized(p, signals);
    PrimaryIsConsistent(p, kept, pick);
    if kept != [] {
      InitialIsSignalled(p, kept);
      PrimaryMeaning(p, SignalLabels(kept), InitialPrimary(p, kept), pick);
      MaxConfidenceMeaning(kept);
    }
  }

  /** Outside PASSIVE mode and without overrides. */
  ghost predicate PlainPolicy(policy: DecisionPolicy) {
    policy.mode != PASSIVE && policy.overrides == map[] && policy.riskMultiplier >= 0.0
  }

  lemma KeptIncludes(p: Policy, fewer: seq<Signal>, more: seq<Signal>)
    requires Includes(more, fewer)
    ensures Includes(Normalized(p, more), Normalized(p, fewer))
  {
    NormalizedMembers(p, fewer);
    NormalizedMembers(p, more);
  }

  lemma RiskGrows(p: Policy, fewer: seq<Signal>, more: seq<Signal>, multiplier: real, pick: Label, pick': Label)
    requires ValidRange(p) && ValidAgreement(p) && Includes(more, fewer) && multiplier >= 0.0
    ensures var e, e' := Evaluate(p, fewer, multiplier, pick), Evaluate(p, more, multiplier, pick');
      (e'.disagreement ==> e.disagreement) ==> e.risk <= e'.risk
  {
    KeptIncludes(p, fewer, more);
    if Evaluate(p, more, multiplier, pick').disagreement ==> Evaluate(p, fewer, multiplier, pick).disagreement {
      FinalScoreGrows(p, Normalized(p, fewer), Normalized(p, more), multiplier);
    }
  }

  /** A disagreement of the models sends the message to review. */
  predicate Disputed(policy: DecisionPolicy, e: Evaluation) {
    policy.reviewOnDisagreement && e.disagreement
  }

  /** When the later action is weaker: a disputed evaluation takes away what is stronger than REVIEW, one that is no
      longer disputed may fall below REVIEW, and otherwise only the low-confidence downgrade takes anything away. */
  predicate Weakens(policy: DecisionPolicy, e: Evaluation, e': Evaluation) {
    if Disputed(policy, e') then Strength(Select(policy, e)) > Strength(REVIEW)
    else if Disputed(policy, e) then Strength(Select(policy, e')) < Strength(REVIEW)
    else Downgrades(policy, Chosen(policy, e'), e'.confidence) && Strength(Select(policy, e)) > Strength(REVIEW)
  }

  /** For undisputed evaluations the risk must not fall; for disputed ones it does not matter. */
  lemma WeakerExactly(policy: DecisionPolicy, e: Evaluation, e': Evaluation)
    requires PlainPolicy(policy) && (e.risk <= e'.risk || Disputed(policy, e) || Disputed(policy, e'))
    ensures Strength(Select(policy, e')) < Strength(Select(policy, e)) <==> Weakens(policy, e, e')
  {
    if !Disputed(policy, e) && !Disputed(policy, e') {
      AdjustedRiskMonotone(policy, e.risk, e'.risk);
      ByThresholdMonotone(policy.thresholds, AdjustedRisk(policy, e.risk), AdjustedRisk(policy, e'.risk));
    }
  }

  /** Main result: adding signals never lowers the risk unless it makes the models disagree, and it yields a weaker
      action exactly in the three cases of `Weakens`. Only a new disagreement that is not sent to review, so that
      nothing but its penalty shows, is outside the second claim. */
  lemma AddingSignals(
      p: Policy, policy: DecisionPolicy, fewer: seq<Signal>, more: seq<Signal>, multiplier: real, pick: Label, pick': Label)
    requires ValidRange(p) && ValidAgreement(p) && PlainPolicy(policy) && multiplier >= 0.0 && Includes(more, fewer)
    ensures var e, e' := Evaluate(p, fewer, multiplier, pick), Evaluate(p, more, multiplier, pick');
      && ((e'.disagreement ==> e.disagreement) ==> e.risk <= e'.risk)
      && (policy.reviewOnDisagreement || (e'.disagreement ==> e.disagreement) ==>
            (Strength(Select(policy, e')) < Strength(Select(policy, e)) <==> Weakens(policy, e, e')))
  {
    RiskGrows(p, fewer, more, multiplier, pick, pick');
    var e, e' := Evaluate(p, fewer, multiplier, pick), Evaluate(p, more, multiplier, pick');
    if policy.reviewOnDisagreement || (e'.disagreement ==> e.disagreement) {
      WeakerExactly(policy, e, e');
    }
  }

  /** What a weaker action takes away, when the later evaluation is at least as confident. */
  lemma LossByCase(policy: DecisionPolicy, e: Evaluation, e': Evaluation)
    requires PlainPolicy(policy) && Weakens(policy, e, e') && e.confidence <= e'.confidence
    ensures if Disputed(policy, e') then Select(policy, e') == REVIEW
      else if Disputed(policy, e) then Select(policy, e) == REVIEW
      else Select(policy, e) == WARN && Select(policy, e') == REVIEW
  {
  }

  /** What is lost once some signal survived: anything above REVIEW to a disagreement, REVIEW to the end of one, and
      otherwise WARN to the downgrade and nothing else. */
  lemma WhatIsLost(
      p: Policy, policy: DecisionPolicy, fewer: seq<Signal>, more: seq<Signal>, multiplier: real, pick: Label, pick': Label)
    requires ValidRange(p) && ValidAgreement(p) && PlainPolicy(policy) && multiplier >= 0.0
    requires Includes(more, fewer) && Normalized(p, fewer) != []
    requires var e, e' := Evaluate(p, fewer, multiplier, pick), Evaluate(p, more, multiplier, pick');
      && (policy.reviewOnDisagreement || (e'.disagreement ==> e.disagreement))
      && Strength(Select(policy, e')) < Strength(Select(policy, e))
    ensures var e, e' := Evaluate(p, fewer, multiplier, pick), Evaluate(p, more, multiplier, pick');
      if Disputed(policy, e') then Select(policy, e') == REVIEW
      else if Disputed(policy, e) then Select(policy, e) == REVIEW
      else Select(policy, e) == WARN && Select(policy, e') == REVIEW
  {
    AddingSignals(p, policy, fewer, more, multiplier, pick, pick');
    ConfidenceGrows(p, fewer, more);
    LossByCase(policy, Evaluate(p, fewer, multiplier, pick), Evaluate(p, more, multiplier, pick'));
  }

  lemma ConfidenceGrows(p: Policy, fewer: seq<Signal>, more: seq<Signal>)
    requires Includes(more, fewer) && Normalized(p, fewer) != []
    ensures Confidence(Normalized(p, fewer)) <= Confidence(Normalized(p, more))
  {
    var a, b := Normalized(p, fewer), Normalized(p, more);
    KeptIncludes(p, fewer, more);
    assert a[0] in b;
    MaxConfidenceMeaning(a);
    MaxConfidenceMeaning(b);
  }

  /** The decision policy the settings give when nothing is configured. */
  const DEFAULT_DECISION: DecisionPolicy := DecisionPolicy(
    ACTIVE, Thresholds(10.0, 40.0, 50.0, 70.0, 80.0, 90.0, 95.0), 0.6, map[], [], 1.0, 0.0, REVIEW, true, true)

  const UNSURE_SPAM: Signal := Signal(PREPROCESSING, SPAM, 0.5, 3, 100)
  const UNSURE_INSULT: Signal := Signal(PREPROCESSING, TOXIC, 0.5, 3, 40)

  lemma UnsureSpamAlone()
    ensures Normalized(DEFAULT_POLICY, [UNSURE_SPAM]) == [UNSURE_SPAM]
    ensures RawScore(DEFAULT_POLICY, [UNSURE_SPAM]) == 50.0 && OneVoice(DEFAULT_POLICY, [UNSURE_SPAM])
  {
    var p, kept := DEFAULT_POLICY, [UNSURE_SPAM];
    assert kept[..0] == [];
    RawScoreOfKeys(p, kept, [SPAM]);
    assert [SPAM][..0] == [];
    assert Contribution(p, UNSURE_SPAM) == 50.0;
    assert LabelMax(p, kept, SPAM) == 50.0;
    LastWordMeaning(p, kept, QWEN);
  }

  lemma UnsureSpamWithInsult()
    ensures Normalized(DEFAULT_POLICY, [UNSURE_SPAM, UNSURE_INSULT]) == [UNSURE_SPAM, UNSURE_INSULT]
    ensures RawScore(DEFAULT_POLICY, [UNSURE_SPAM, UNSURE_INSULT]) == 70.0
  {
    var p, kept := DEFAULT_POLICY, [UNSURE_SPAM, UNSURE_INSULT];
    UnsureSpamAlone();
    assert kept[..1] == [UNSURE_SPAM] && [UNSURE_SPAM][..0] == [];
    RawScoreOfKeys(p, kept, [SPAM, TOXIC]);
    assert [SPAM, TOXIC][..1] == [SPAM] && [SPAM][..0] == [];
    assert Contribution(p, UNSURE_SPAM) == 50.0 && Contribution(p, UNSURE_INSULT) == 20.0;
    assert LabelMax(p, [UNSURE_SPAM], SPAM) == 50.0 && LabelMax(p, [UNSURE_SPAM], TOXIC) == 0.0;
    assert LabelMax(p, kept, SPAM) == 50.0 && LabelMax(p, kept, TOXIC) == 20.0;
  }

  /** One voice, no user factor and a raw score within the range: that score is the risk. */
  lemma RawScoreIsRisk(p: Policy, kept: seq<Signal>)
    requires OneVoice(p, kept) && kept != [] && p.minScore <= RawScore(p, kept) <= p.maxScore
    ensures FinalScore(p, kept, 1.0) == RawScore(p, kept) && !AgreementOf(p, kept).disagreement
  {
    UnscaledScore(p, kept, 1.0);
    assert Scaled(p, kept, 1.0) == BaseScore(p, kept);
  }

  lemma NoModelSpeaks(p: Policy, kept: seq<Signal>)
    requires forall s :: s in kept ==> s.source == PREPROCESSING
    ensures OneVoice(p, kept)
  {
    LastWordMeaning(p, kept, RUBERT);
  }

  lemma SameConfidence(kept: seq<Signal>, c: real)
    requires kept != [] && forall s :: s in kept ==> s.confidence == c
    ensures Confidence(kept) == c
  {
    MaxConfidenceMeaning(kept);
  }

  /** The evaluation of surviving signals of one confidence, of which at most one model's are heard. */
  lemma EvaluatePlain(p: Policy, signals: seq<Signal>, c: real, pick: Label)
    requires signals != [] && Normalized(p, signals) == signals && OneVoice(p, signals)
    requires forall s :: s in signals ==> s.confidence == c
    requires p.minScore <= RawScore(p, signals) <= p.maxScore
    ensures var e := Evaluate(p, signals, 1.0, pick);
      e.risk == RawScore(p, signals) && e.confidence == c && !e.disagreement
  {
    RawScoreIsRisk(p, signals);
    SameConfidence(signals, c);
  }

  lemma UnsureSpamEvaluated(pick: Label)
    ensures var e := Evaluate(DEFAULT_POLICY, [UNSURE_SPAM], 1.0, pick); e.risk == 50.0 && e.confidence == 0.5 && !e.disagreement
  {
    UnsureSpamAlone();
    EvaluatePlain(DEFAULT_POLICY, [UNSURE_SPAM], 0.5, pick);
  }

  lemma UnsureBothEvaluated(pick: Label)
    ensures var e := Evaluate(DEFAULT_POLICY, [UNSURE_SPAM, UNSURE_INSULT], 1.0, pick);
      e.risk == 70.0 && e.confidence == 0.5 && !e.disagreement
  {
    UnsureSpamWithInsult();
    NoModelSpeaks(DEFAULT_POLICY, [UNSURE_SPAM, UNSURE_INSULT]);
    EvaluatePlain(DEFAULT_POLICY, [UNSURE_SPAM, UNSURE_INSULT], 0.5, pick);
  }

  /** What the default policy makes of an unsure evaluation. */
  lemma UnsureSelection(e: Evaluation)
    requires !e.disagreement && e.confidence == 0.5
    ensures e.risk == 50.0 ==> Select(DEFAULT_DECISION, e) == WARN
    ensures e.risk == 70.0 ==> Select(DEFAULT_DECISION, e) == REVIEW
  {
  }

  lemma UnsureSpamSelected(pick: Label)
    ensures Select(DEFAULT_DECISION, Evaluate(DEFAULT_POLICY, [UNSURE_SPAM], 1.0, pick)) == WARN
  {
    UnsureSpamEvaluated(pick);
    UnsureSelection(Evaluate(DEFAULT_POLICY, [UNSURE_SPAM], 1.0, pick));
  }

  lemma UnsureBothSelected(pick: Label)
    ensures Select(DEFAULT_DECISION, Evaluate(DEFAULT_POLICY, [UNSURE_SPAM, UNSURE_INSULT], 1.0, pick)) == REVIEW
  {
    UnsureBothEvaluated(pick);
    UnsureSelection(Evaluate(DEFAULT_POLICY, [UNSURE_SPAM, UNSURE_INSULT], 1.0, pick));
  }

  /** With the default policies, a second signal turns the warning for the first into a mere review. */
  lemma DowngradeCanWeaken(pick: Label)
    ensures Select(DEFAULT_DECISION, Evaluate(DEFAULT_POLICY, [UNSURE_SPAM], 1.0, pick)) == WARN
    ensures Select(DEFAULT_DECISION, Evaluate(DEFAULT_POLICY, [UNSURE_SPAM, UNSURE_INSULT], 1.0, pick)) == REVIEW
  {
    UnsureSpamSelected(pick);
    UnsureBothSelected(pick);
  }

  const SURE_SCAM: Signal := Signal(RUBERT, SCAM, 0.9, 3, 100)
  const SURE_INSULT: Signal := Signal(QWEN, TOXIC, 0.9, 3, 40)

  lemma SureScamAlone()
    ensures Normalized(DEFAULT_POLICY, [SURE_SCAM]) == [SURE_SCAM]
    ensures RawScore(DEFAULT_POLICY, [SURE_SCAM]) == 90.0 && OneVoice(DEFAULT_POLICY, [SURE_SCAM])
  {
    var p, kept := DEFAULT_POLICY, [SURE_SCAM];
    assert kept[..0] == [];
    RawScoreOfKeys(p, kept, [SCAM]);
    assert [SCAM][..0] == [];
    assert Contribution(p, SURE_SCAM) == 90.0;
    assert LabelMax(p, kept, SCAM) == 90.0;
    LastWordMeaning(p, kept, QWEN);
  }

  lemma SureModelsDisagree()
    ensures Normalized(DEFAULT_POLICY, [SURE_SCAM, SURE_INSULT]) == [SURE_SCAM, SURE_INSULT]
    ensures AgreementOf(DEFAULT_POLICY, [SURE_SCAM, SURE_INSULT]).disagreement
  {
    var p, kept := DEFAULT_POLICY, [SURE_SCAM, SURE_INSULT];
    SureScamAlone();
    assert kept[..1] == [SURE_SCAM];
    assert [] + kept == kept;
    LastTwo(p, [], SURE_SCAM, SURE_INSULT);
  }

  /** With the default policies, a confident second opinion turns the timeout for the first into a mere review. */
  lemma DisagreementCanWeaken(pick: Label)
    ensures var e, e' := Evaluate(DEFAULT_POLICY, [SURE_SCAM], 1.0, pick),
      Evaluate(DEFAULT_POLICY, [SURE_SCAM, SURE_INSULT], 1.0, pick);
      Select(DEFAULT_DECISION, e) == TIMEOUT && Select(DEFAULT_DECISION, e') == REVIEW && e'.confidence == 0.9
  {
    SureScamAlone();
    EvaluatePlain(DEFAULT_POLICY, [SURE_SCAM], 0.9, pick);
    SureModelsDisagree();
    SameConfidence([SURE_SCAM, SURE_INSULT], 0.9);
  }

  // ---------------------------------------------------------------- modes

  lemma AtLeastTimesOne(risk: real, m: real)
    requires risk >= 0.0 && m >= 1.0
    ensures risk * m >= risk
  {
    assert risk * (m - 1.0) >= 0.0;
  }

  /** STRICT mode treats no risk as a lower one, under whatever thresholds, exactly when its multiplier is at least one. */
  lemma StrictNeverLowersIff(policy: DecisionPolicy)
    requires policy.mode == STRICT
    ensures (forall t, risk :: 0.0 <= risk <= 100.0 ==>
        Strength(ByThreshold(t, risk)) <= Strength(ByThreshold(t, AdjustedRisk(policy, risk))))
      <==> policy.riskMultiplier >= 1.0
  {
    if policy.riskMultiplier >= 1.0 {
      forall t, risk | 0.0 <= risk <= 100.0
        ensures Strength(ByThreshold(t, risk)) <= Strength(ByThreshold(t, AdjustedRisk(policy, risk)))
      {
        StrictRaises(policy, risk);
        ByThresholdMonotone(t, risk, AdjustedRisk(policy, risk));
      }
    } else {
      var t := Thresholds(100.0, 100.0, 100.0, 100.0, 100.0, 100.0, 100.0);
      assert AdjustedRisk(policy, 100.0) < 100.0;
      assert Strength(ByThreshold(t, 100.0)) > Strength(ByThreshold(t, AdjustedRisk(policy, 100.0)));
    }
  }

  lemma StrictRaises(policy: DecisionPolicy, risk: real)
    requires policy.mode == STRICT && policy.riskMultiplier >= 1.0 && 0.0 <= risk <= 100.0
    ensures risk <= AdjustedRisk(policy, risk)
  {
    AtLeastTimesOne(risk, policy.riskMultiplier);
  }

  /** STRICT mode with a multiplier of at least one and a non-negative reduction never acts weaker than
      ACTIVE mode on the same evaluation, unless the raised risk is held back for review. */
  lemma StrictIsNeverWeaker(policy: DecisionPolicy, e: Evaluation)
    requires policy.mode == STRICT && policy.overrides == map[]
    requires policy.riskMultiplier >= 1.0 && policy.confidenceReduction >= 0.0 && 0.0 <= e.risk <= 100.0
    requires policy.minConfidence >= 0.0
    ensures var active := policy.(mode := ACTIVE);
      Strength(Select(policy, e)) < Strength(Select(active, e))
      <==> (!(policy.reviewOnDisagreement && e.disagreement)
            && Downgrades(policy, Chosen(policy, e), e.confidence) && Select(active, e) == WARN)
  {
    var active := policy.(mode := ACTIVE);
    StrictRaises(policy, e.risk);
    assert e.risk <= AdjustedRisk(policy, e.risk);
    ByThresholdMonotone(policy.thresholds, e.risk, AdjustedRisk(policy, e.risk));
  }

  /** In PASSIVE mode the action never precedes the configured maximum in the action priority, except that a disputed
      message goes to review although REVIEW does. */
  lemma PassiveIsCappedIff(policy: DecisionPolicy, e: Evaluation)
    requires policy.mode == PASSIVE
    ensures PriorityOf(policy.actionPriority, Select(policy, e)) >= PriorityOf(policy.actionPriority, policy.maxPassiveAction)
      <==> !Disputed(policy, e)
           || PriorityOf(policy.actionPriority, REVIEW) >= PriorityOf(policy.actionPriority, policy.maxPassiveAction)
  {
  }
}
