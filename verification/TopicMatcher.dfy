/** The sensitive-topic matcher. Regular expressions are represented by the functions that list
    their match spans in a normalised text. */
module TopicMatcher {
  import opened ModerationLabels

  datatype Span = Span(start: int, end: int)

  type Finder = string -> seq<Span>

  datatype Topic = Topic(name: string, spans: Finder)

  datatype Matcher = Matcher(
    topics: seq<Topic>,
    harm: map<string, Finder>,
    counter: string -> bool,
    groupContext: Finder,
    proximity: int,
    harmProximity: map<string, int>)

  datatype Annotation = Annotation(topics: seq<string>, labels: set<Label>, severity: nat, requiresReview: bool)

  const GROUP_TOPICS: set<string> := {"race", "gender"}

  const DIRECT_DISTANCE := 8

  // ---------------------------------------------------------------- spans

  function Gap(target: Span, other: Span): int {
    var a, b := target.start - other.end, other.start - target.end;
    if a > b then if a > 0 then a else 0 else if b > 0 then b else 0
  }

  predicate Proximate(targets: seq<Span>, others: seq<Span>, distance: int) {
    exists i, j :: 0 <= i < |targets| && 0 <= j < |others| && Gap(targets[i], others[j]) <= distance
  }

  function HarmSpans(m: Matcher, text: string, name: string): seq<Span> {
    if name in m.harm then m.harm[name](text) else []
  }

  function HarmDistance(m: Matcher, name: string): int {
    if name in m.harmProximity then m.harmProximity[name] else m.proximity
  }

  // ---------------------------------------------------------------- one topic

  /** Which harm lies near the spans of a topic, and which lies within the direct distance of them. */
  datatype Evidence = Evidence(
    group: bool, context: bool,
    threat: bool, directThreat: bool,
    sexual: bool, abuse: bool,
    degradation: bool, directDegradation: bool,
    hateAction: bool, directHateAction: bool,
    profanity: bool)

  function EvidenceFor(m: Matcher, text: string, topic: string, targets: seq<Span>): Evidence {
    var near := (name: string) => Proximate(targets, HarmSpans(m, text, name), HarmDistance(m, name));
    var direct := (name: string) => Proximate(targets, HarmSpans(m, text, name), DIRECT_DISTANCE);
    Evidence(
      topic in GROUP_TOPICS,
      Proximate(targets, m.groupContext(text), HarmDistance(m, "hate_action")),
      near("threat"), direct("threat"),
      near("sexual"), near("sexual_abuse"),
      near("degradation"), direct("degradation"),
      near("hate_action"), direct("hate_action"),
      near("profanity"))
  }

  /** Degradation or a call to act on hate, where a group topic needs context or contact for the
      former and any other topic needs contact for the latter. */
  predicate Degrading(e: Evidence) {
    || (e.degradation && (e.group && !e.context ==> e.directDegradation))
    || (e.hateAction && (!e.group ==> e.directHateAction))
  }

  /** When each label is due to a topic. */
  predicate Due(e: Evidence, l: Label) {
    match l
    case THREAT => e.threat
    case HATE => e.group && (Degrading(e) || (e.threat && (e.directThreat || e.context)))
    case TOXIC => e.threat || e.abuse || Degrading(e)
    case NSFW => e.abuse || e.sexual
    case PROFANITY => e.profanity
    case _ => false
  }

  /** The severity of a topic by its worst finding. */
  function Severity(e: Evidence): nat {
    if e.threat || e.abuse then 5
    else if e.sexual then 4
    else if Degrading(e) then if e.group then 4 else 3
    else if e.profanity then 1
    else 0
  }

  function Max(a: nat, b: nat): nat {
    if a > b then a else b
  }

  /** The body of the topic loop. */
  method FindInTopic(e: Evidence) returns (labels: set<Label>, severity: nat)
    ensures forall l :: l in labels <==> Due(e, l)
    ensures severity == Severity(e)
  {
    labels, severity := {}, 0;
    if e.threat {
      labels := labels + {THREAT, TOXIC};
      if e.group && (e.directThreat || e.context) {
        labels := labels + {HATE};
      }
      severity := Max(severity, 5);
    }
    if e.sexual {
      labels := labels + {NSFW};
      severity := Max(severity, 4);
    }
    if e.abuse {
      labels := labels + {NSFW, TOXIC};
      severity := Max(severity, 5);
    }
    var degradation, hateAction := e.degradation, e.hateAction;
    if !e.group && hateAction {
      hateAction := e.directHateAction;
    }
    if e.group && degradation && !e.context {
      degradation := e.directDegradation;
    }
    if degradation || hateAction {
      labels := labels + {TOXIC};
      severity := Max(severity, if e.group then 4 else 3);
      if e.group {
        labels := labels + {HATE};
      }
    }
    if e.profanity {
      labels := labels + {PROFANITY};
      severity := Max(severity, 1);
    }
  }

  // ---------------------------------------------------------------- a whole text

  predicate Mentioned(m: Matcher, text: string, i: nat)
    requires i < |m.topics|
  {
    m.topics[i].spans(text) != []
  }

  function TopicEvidence(m: Matcher, text: string, i: nat): Evidence
    requires i < |m.topics|
  {
    EvidenceFor(m, text, m.topics[i].name, m.topics[i].spans(text))
  }

  predicate DueTo(m: Matcher, text: string, i: nat, l: Label)
    requires i < |m.topics|
  {
    Mentioned(m, text, i) && Due(TopicEvidence(m, text, i), l)
  }

  predicate DueToAny(m: Matcher, text: string, n: nat, l: Label)
    requires n <= |m.topics|
  {
    exists i :: 0 <= i < n && DueTo(m, text, i, l)
  }

  /** The labels the matcher adds to a normalised text: supportive context silences every topic. */
  predicate Flagged(m: Matcher, text: string, l: Label) {
    !m.counter(text) && DueToAny(m, text, |m.topics|, l)
  }

  function FlaggedLabels(m: Matcher, text: string): (r: set<Label>)
    ensures forall l :: l in r <==> Flagged(m, text, l)
  {
    AllLabels();
    set l | l in ALL && Flagged(m, text, l)
  }

  function MentionSeverity(m: Matcher, text: string, i: nat): nat
    requires i < |m.topics|
  {
    if Mentioned(m, text, i) then Severity(TopicEvidence(m, text, i)) else 0
  }

  function Severities(m: Matcher, text: string): (r: seq<nat>)
    ensures |r| == |m.topics| && forall i :: 0 <= i < |r| ==> r[i] == MentionSeverity(m, text, i)
  {
    seq(|m.topics|, i requires 0 <= i < |m.topics| => MentionSeverity(m, text, i))
  }

  /** The largest element, or zero. */
  function MaxOf(s: seq<nat>): (r: nat)
    ensures forall i :: 0 <= i < |s| ==> s[i] <= r
    ensures r > 0 ==> r in s
  {
    if s == [] then 0 else Max(MaxOf(s[..|s| - 1]), s[|s| - 1])
  }

  function FlaggedSeverity(m: Matcher, text: string): nat {
    if m.counter(text) then 0 else MaxOf(Severities(m, text))
  }

  /** The names of the mentioned topics among the first `n`, in the matcher's order. */
  function MentionedTopics(m: Matcher, text: string, n: nat): seq<string>
    requires n <= |m.topics|
  {
    if n == 0 then []
    else MentionedTopics(m, text, n - 1) + (if Mentioned(m, text, n - 1) then [m.topics[n - 1].name] else [])
  }

  // ---------------------------------------------------------------- what is found near a topic

  /** A span of one kind lies within the distance of a span of the other, on whichever side. */
  predicate NearBy(targets: seq<Span>, others: seq<Span>, distance: int) {
    exists i, j :: 0 <= i < |targets| && 0 <= j < |others| && Within(targets[i], others[j], distance)
  }

  predicate Within(a: Span, b: Span, distance: int) {
    distance >= 0 && b.start <= a.end + distance && a.start <= b.end + distance
  }

  lemma ProximateMeaning(targets: seq<Span>, others: seq<Span>, distance: int)
    ensures Proximate(targets, others, distance) <==> NearBy(targets, others, distance)
  {
    if Proximate(targets, others, distance) {
      var i, j :| 0 <= i < |targets| && 0 <= j < |others| && Gap(targets[i], others[j]) <= distance;
      assert Within(targets[i], others[j], distance);
    }
    if NearBy(targets, others, distance) {
      var i, j :| 0 <= i < |targets| && 0 <= j < |others| && Within(targets[i], others[j], distance);
      assert Gap(targets[i], others[j]) <= distance;
    }
  }

  /** A harm pattern matches within the distance of a mention of topic `i`; without patterns of that name nothing does. */
  predicate FindsWithin(m: Matcher, text: string, i: nat, name: string, distance: int)
    requires i < |m.topics|
  {
    name in m.harm && NearBy(m.topics[i].spans(text), m.harm[name](text), distance)
  }

  /** Within the distance configured for that harm, or the general one. */
  predicate Finds(m: Matcher, text: string, i: nat, name: string)
    requires i < |m.topics|
  {
    if name in m.harmProximity then FindsWithin(m, text, i, name, m.harmProximity[name])
    else FindsWithin(m, text, i, name, m.proximity)
  }

  /** Within eight characters. */
  predicate Touches(m: Matcher, text: string, i: nat, name: string)
    requires i < |m.topics|
  {
    FindsWithin(m, text, i, name, 8)
  }

  predicate OfGroup(m: Matcher, i: nat)
    requires i < |m.topics|
  {
    m.topics[i].name == "race" || m.topics[i].name == "gender"
  }

  /** A group context lies as near as a call to act on hate has to. */
  predicate InContext(m: Matcher, text: string, i: nat)
    requires i < |m.topics|
  {
    NearBy(m.topics[i].spans(text), m.groupContext(text),
           if "hate_action" in m.harmProximity then m.harmProximity["hate_action"] else m.proximity)
  }

  /** The topic is degraded, or acted on with hate: for a group, degradation needs context or contact; for anything
      else, the call to act needs contact. */
  predicate Targeted(m: Matcher, text: string, i: nat)
    requires i < |m.topics|
  {
    if OfGroup(m, i) then
      || (Finds(m, text, i, "degradation") && (InContext(m, text, i) || Touches(m, text, i, "degradation")))
      || Finds(m, text, i, "hate_action")
    else
      || Finds(m, text, i, "degradation")
      || (Finds(m, text, i, "hate_action") && Touches(m, text, i, "hate_action"))
  }

  lemma FindsMeaning(m: Matcher, text: string, i: nat, name: string)
    requires i < |m.topics|
    ensures var spans := m.topics[i].spans(text);
      && (Finds(m, text, i, name) <==> Proximate(spans, HarmSpans(m, text, name), HarmDistance(m, name)))
      && (Touches(m, text, i, name) <==> Proximate(spans, HarmSpans(m, text, name), DIRECT_DISTANCE))
  {
    var spans := m.topics[i].spans(text);
    ProximateMeaning(spans, HarmSpans(m, text, name), HarmDistance(m, name));
    ProximateMeaning(spans, HarmSpans(m, text, name), DIRECT_DISTANCE);
  }

  lemma NothingFound(m: Matcher, text: string, i: nat)
    requires i < |m.topics| && !Mentioned(m, text, i)
    ensures forall name, distance :: !FindsWithin(m, text, i, name, distance)
  {
  }

  /** What the evidence of a topic says. */
  lemma EvidenceMeaning(m: Matcher, text: string, i: nat)
    requires i < |m.topics|
    ensures var e := TopicEvidence(m, text, i);
      && (e.group <==> OfGroup(m, i)) && (e.context <==> InContext(m, text, i))
      && (e.threat <==> Finds(m, text, i, "threat")) && (e.directThreat <==> Touches(m, text, i, "threat"))
      && (e.sexual <==> Finds(m, text, i, "sexual")) && (e.abuse <==> Finds(m, text, i, "sexual_abuse"))
      && (e.profanity <==> Finds(m, text, i, "profanity")) && (Degrading(e) <==> Targeted(m, text, i))
  {
    FindsMeaning(m, text, i, "threat");
    FindsMeaning(m, text, i, "sexual");
    FindsMeaning(m, text, i, "sexual_abuse");
    FindsMeaning(m, text, i, "degradation");
    FindsMeaning(m, text, i, "hate_action");
    FindsMeaning(m, text, i, "profanity");
    ProximateMeaning(m.topics[i].spans(text), m.groupContext(text), HarmDistance(m, "hate_action"));
  }

  /** What a topic is flagged for. */
  predicate Earns(m: Matcher, text: string, i: nat, l: Label)
    requires i < |m.topics|
  {
    match l
    case THREAT => Finds(m, text, i, "threat")
    case NSFW => Finds(m, text, i, "sexual") || Finds(m, text, i, "sexual_abuse")
    case PROFANITY => Finds(m, text, i, "profanity")
    case TOXIC => Finds(m, text, i, "threat") || Finds(m, text, i, "sexual_abuse") || Targeted(m, text, i)
    case HATE =>
      && OfGroup(m, i)
      && (Targeted(m, text, i) || (Finds(m, text, i, "threat") && (Touches(m, text, i, "threat") || InContext(m, text, i))))
    case _ => false
  }

  lemma EarnsMeaning(m: Matcher, text: string, i: nat, l: Label)
    requires i < |m.topics|
    ensures DueTo(m, text, i, l) <==> Earns(m, text, i, l)
  {
    if Mentioned(m, text, i) {
      EvidenceMeaning(m, text, i);
    } else {
      NothingFound(m, text, i);
    }
  }

  /** A text without supportive context gets exactly the labels that some topic earns, any other text gets none. */
  lemma FlaggedMeaning(m: Matcher, text: string, l: Label)
    ensures l in FlaggedLabels(m, text) <==> !m.counter(text) && exists i :: 0 <= i < |m.topics| && Earns(m, text, i, l)
  {
    forall i | 0 <= i < |m.topics| ensures DueTo(m, text, i, l) <==> Earns(m, text, i, l) {
      EarnsMeaning(m, text, i, l);
    }
  }

  /** The severity a topic reaches: five for threats and sexual abuse, four for sexual content and for targeting a group,
      three for targeting anything else, one for profanity. */
  predicate Reaches(m: Matcher, text: string, i: nat, severity: nat)
    requires i < |m.topics|
  {
    || (severity <= 5 && (Finds(m, text, i, "threat") || Finds(m, text, i, "sexual_abuse")))
    || (severity <= 4 && (Finds(m, text, i, "sexual") || (OfGroup(m, i) && Targeted(m, text, i))))
    || (severity <= 3 && Targeted(m, text, i))
    || (severity <= 1 && Finds(m, text, i, "profanity"))
  }

  lemma ReachesMeaning(m: Matcher, text: string, i: nat, severity: nat)
    requires i < |m.topics| && severity > 0
    ensures MentionSeverity(m, text, i) >= severity <==> Reaches(m, text, i, severity)
  {
    if Mentioned(m, text, i) {
      EvidenceMeaning(m, text, i);
    } else {
      NothingFound(m, text, i);
    }
  }

  /** A text without supportive context is as severe as its most severe topic. */
  lemma FlaggedSeverityMeaning(m: Matcher, text: string, severity: nat)
    requires severity > 0
    ensures FlaggedSeverity(m, text) >= severity
      <==> !m.counter(text) && exists i :: 0 <= i < |m.topics| && Reaches(m, text, i, severity)
  {
    var all := Severities(m, text);
    forall i | 0 <= i < |m.topics| ensures all[i] >= severity <==> Reaches(m, text, i, severity) {
      ReachesMeaning(m, text, i, severity);
    }
    if !m.counter(text) && MaxOf(all) >= severity {
      var i :| 0 <= i < |all| && all[i] == MaxOf(all);
      assert Reaches(m, text, i, severity);
    }
  }

  /** Some harm pattern matches anywhere in the text. */
  predicate AnyHarm(m: Matcher, text: string) {
    exists name :: name in m.harm && m.harm[name](text) != []
  }

  lemma {:induction false} NothingMentioned(m: Matcher, text: string, n: nat)
    requires n <= |m.topics|
    ensures MentionedTopics(m, text, n) == [] <==> forall i :: 0 <= i < n ==> !Mentioned(m, text, i)
  {
    if n > 0 {
      NothingMentioned(m, text, n - 1);
    }
  }

  /** `annotate` on an already normalised text. */
  method Annotate(m: Matcher, text: string) returns (r: Annotation)
    ensures r.labels == FlaggedLabels(m, text)
    ensures r.severity == FlaggedSeverity(m, text)
    ensures r.topics == MentionedTopics(m, text, |m.topics|)
    ensures r.requiresReview <==> r.topics != [] && (if m.counter(text) then AnyHarm(m, text) else r.labels == {})
    ensures m.counter(text) ==>
      r.labels == {} && (r.requiresReview <==> r.topics != [] && exists name :: name in m.harm && |m.harm[name](text)| > 0)
  {
    var topics: seq<string> := [];
    for i := 0 to |m.topics|
      invariant topics == MentionedTopics(m, text, i)
    {
      if Mentioned(m, text, i) {
        topics := topics + [m.topics[i].name];
      }
    }
    NothingMentioned(m, text, |m.topics|);
    if topics == [] {
      assert forall i :: 0 <= i < |m.topics| ==> MentionSeverity(m, text, i) == 0;
      return Annotation([], {}, 0, false);
    }
    if m.counter(text) {
      return Annotation(topics, {}, 0, AnyHarm(m, text));
    }
    var labels, severity := FindAll(m, text);
    NeverSafe(m, text, |m.topics|);
    labels := labels - {SAFE};
    return Annotation(topics, labels, severity, labels == {});
  }

  ghost predicate FoundUpTo(m: Matcher, text: string, n: nat, labels: set<Label>)
    requires n <= |m.topics|
  {
    forall l :: l in labels <==> DueToAny(m, text, n, l)
  }

  method FindAll(m: Matcher, text: string) returns (labels: set<Label>, severity: nat)
    ensures FoundUpTo(m, text, |m.topics|, labels)
    ensures severity == MaxOf(Severities(m, text))
  {
    labels, severity := {}, 0;
    ghost var all := Severities(m, text);
    for i := 0 to |m.topics|
      invariant FoundUpTo(m, text, i, labels)
      invariant severity == MaxOf(all[..i])
    {
      assert all[..i + 1][..i] == all[..i];
      var found, worst := {}, 0;
      if Mentioned(m, text, i) {
        found, worst := FindInTopic(TopicEvidence(m, text, i));
      }
      FoundStep(m, text, i, labels, found);
      labels := labels + found;
      severity := Max(severity, worst);
    }
    assert all[..|m.topics|] == all;
  }

  lemma FoundStep(m: Matcher, text: string, n: nat, labels: set<Label>, found: set<Label>)
    requires n < |m.topics| && FoundUpTo(m, text, n, labels)
    requires forall l :: l in found <==> DueTo(m, text, n, l)
    ensures FoundUpTo(m, text, n + 1, labels + found)
  {
    forall l ensures l in labels + found <==> DueToAny(m, text, n + 1, l) {
      DueToAnyStep(m, text, n, l);
    }
  }

  lemma DueToAnyStep(m: Matcher, text: string, n: nat, l: Label)
    requires n < |m.topics|
    ensures DueToAny(m, text, n + 1, l) <==> DueToAny(m, text, n, l) || DueTo(m, text, n, l)
  {
    if DueToAny(m, text, n, l) {
      var i :| 0 <= i < n && DueTo(m, text, i, l);
      assert DueTo(m, text, i, l);
    }
  }

  lemma NeverSafe(m: Matcher, text: string, n: nat)
    requires n <= |m.topics|
    ensures !DueToAny(m, text, n, SAFE)
  {
  }

  // ---------------------------------------------------------------- what annotations can be

  const EMITTED: set<Label> := {THREAT, TOXIC, HATE, NSFW, PROFANITY}

  /** A label and a severity arise together for every topic. */
  lemma SeverityMeansLabel(e: Evidence)
    ensures Severity(e) == 0 <==> forall l :: !Due(e, l)
    ensures Severity(e) <= 5
    ensures Due(e, THREAT) ==> Severity(e) == 5
    ensures Due(e, HATE) ==> Severity(e) >= 4
  {
    if Severity(e) != 0 {
      assert Due(e, TOXIC) || Due(e, NSFW) || Due(e, PROFANITY);
    }
  }

  /** A label found in a text: the topic it is due to, whose severity the text reaches. */
  lemma FlaggedWitness(m: Matcher, text: string, l: Label) returns (i: nat)
    requires l in FlaggedLabels(m, text)
    ensures i < |m.topics| && DueTo(m, text, i, l)
    ensures Severity(TopicEvidence(m, text, i)) <= FlaggedSeverity(m, text)
  {
    i :| 0 <= i < |m.topics| && DueTo(m, text, i, l);
    assert Severities(m, text)[i] == Severity(TopicEvidence(m, text, i));
  }

  lemma NeverFlagsSafe(m: Matcher, text: string)
    ensures SAFE !in FlaggedLabels(m, text)
  {
    NeverSafe(m, text, |m.topics|);
  }

  /** What every annotation keeps: only harmful labels, THREAT and HATE never without TOXIC, HATE only
      for a mentioned group topic, and a positive severity exactly when there is a label. */
  lemma AnnotationShape(m: Matcher, text: string)
    ensures FlaggedLabels(m, text) <= EMITTED
    ensures THREAT in FlaggedLabels(m, text) ==> TOXIC in FlaggedLabels(m, text) && FlaggedSeverity(m, text) == 5
    ensures HATE in FlaggedLabels(m, text) ==> TOXIC in FlaggedLabels(m, text) && FlaggedSeverity(m, text) >= 4
    ensures HATE in FlaggedLabels(m, text) ==>
      exists i :: 0 <= i < |m.topics| && Mentioned(m, text, i) && m.topics[i].name in GROUP_TOPICS
    ensures FlaggedLabels(m, text) == {} <==> FlaggedSeverity(m, text) == 0
    ensures FlaggedSeverity(m, text) <= 5
  {
    if THREAT in FlaggedLabels(m, text) {
      var i := FlaggedWitness(m, text, THREAT);
      assert DueTo(m, text, i, TOXIC);
    }
    if HATE in FlaggedLabels(m, text) {
      var i := FlaggedWitness(m, text, HATE);
      assert DueTo(m, text, i, TOXIC);
      assert Mentioned(m, text, i) && TopicEvidence(m, text, i).group;
    }
    FlaggedIffSevere(m, text);
  }

  lemma FlaggedIffSevere(m: Matcher, text: string)
    ensures FlaggedLabels(m, text) == {} <==> FlaggedSeverity(m, text) == 0
    ensures FlaggedSeverity(m, text) <= 5
  {
    if FlaggedSeverity(m, text) != 0 {
      assert FlaggedSeverity(m, text) in Severities(m, text);
      var k :| 0 <= k < |m.topics| && Severities(m, text)[k] == FlaggedSeverity(m, text);
      SeverityMeansLabel(TopicEvidence(m, text, k));
      var l :| Due(TopicEvidence(m, text, k), l);
      assert DueTo(m, text, k, l);
      assert l in FlaggedLabels(m, text);
    }
    if FlaggedLabels(m, text) != {} {
      var l :| l in FlaggedLabels(m, text);
      var i := FlaggedWitness(m, text, l);
      SeverityMeansLabel(TopicEvidence(m, text, i));
    }
  }
}
