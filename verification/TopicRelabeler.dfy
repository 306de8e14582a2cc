/** The relabeler: every row of a file gets the labels the topic matcher finds in its text. */
module TopicRelabeler {
  import opened Wrappers
  import opened ModerationLabels
  import opened DatasetSchema
  import opened TopicMatcher

  const REVIEW_RELEVANT: set<Label> := {TOXIC, PROFANITY, HATE, THREAT, NSFW}

  function RawText(row: RawRow): string {
    if row.text.Some? then row.text.value else ""
  }

  function RelabelRow(schema: Schema, ops: TextOps, m: Matcher, row: RawRow): Result<Row> {
    var text := ops.normalize(RawText(row));
    NormalizeRow(schema, ops, row, FlaggedLabels(m, text), FlaggedSeverity(m, text), None)
  }

  function RelabelLine(schema: Schema, ops: TextOps, m: Matcher, line: Line): Option<Result<Row>> {
    match line
    case Blank => None
    case Malformed => Some(Err(ValueError))
    case Record(row) => Some(RelabelRow(schema, ops, m, row))
  }

  function RelabelLines(schema: Schema, ops: TextOps, m: Matcher, lines: seq<Line>): (r: seq<Option<Result<Row>>>)
    ensures |r| == |lines| && forall i :: 0 <= i < |r| ==> r[i] == RelabelLine(schema, ops, m, lines[i])
  {
    seq(|lines|, i requires 0 <= i < |lines| => RelabelLine(schema, ops, m, lines[i]))
  }

  /** The rows written for a file, or the first error. */
  function RelabelAll(schema: Schema, ops: TextOps, m: Matcher, lines: seq<Line>): Result<seq<Row>> {
    Collect(RelabelLines(schema, ops, m, lines))
  }

  // ---------------------------------------------------------------- the change and review files

  /** A line of the change file. */
  datatype Change = Change(raw: RawRow, topics: seq<string>, before: set<Label>, after: Row)

  /** A line of the review file. */
  datatype Review = Review(raw: RawRow, topics: seq<string>, current: set<Label>)

  /** A blank line is nothing, a malformed one an error. */
  lemma OneLine(schema: Schema, ops: TextOps, m: Matcher, line: Line)
    ensures RelabelLine(schema, ops, m, line).Some? <==> line != Blank
    ensures line == Malformed ==> RelabelLine(schema, ops, m, line) == Some(Err(ValueError))
    ensures line.Record? ==> RelabelLine(schema, ops, m, line) == Some(RelabelRow(schema, ops, m, line.row))
  {
  }

  /** A file is relabelled when no line is malformed and every record is, and otherwise stops; blank lines are skipped. */
  lemma RelabelsIff(schema: Schema, ops: TextOps, m: Matcher, lines: seq<Line>)
    ensures RelabelAll(schema, ops, m, lines).Ok? <==> forall i :: 0 <= i < |lines| ==>
      lines[i] != Malformed && (lines[i].Record? ==> RelabelRow(schema, ops, m, lines[i].row).Ok?)
  {
    var read := RelabelLines(schema, ops, m, lines);
    CollectedFrom(read);
    forall i | 0 <= i < |lines|
      ensures (read[i].Some? ==> read[i].value.Ok?)
        <==> lines[i] != Malformed && (lines[i].Record? ==> RelabelRow(schema, ops, m, lines[i].row).Ok?)
    {
      OneLine(schema, ops, m, lines[i]);
    }
  }

  datatype RelabelReport = RelabelReport(rows: seq<Row>, changes: seq<Change>, reviews: seq<Review>)

  /** The labels a row named before. */
  function CurrentLabels(row: RawRow): set<Label> {
    var names := if row.labelNames.Some? then row.labelNames.value else [];
    var labels := set i | 0 <= i < |names| && names[i].Known? :: names[i].l;
    if labels == {} then {SAFE} else labels
  }

  function TopicsOf(m: Matcher, text: string): seq<string> {
    MentionedTopics(m, text, |m.topics|)
  }

  /** The matcher adds a label to those the row named. */
  predicate Changed(ops: TextOps, m: Matcher, row: RawRow) {
    FlaggedLabels(m, ops.normalize(RawText(row))) - CurrentLabels(row) != {}
  }

  /** A topic is mentioned, nothing is flagged although harm may be near, and the row named a label that would need it. */
  predicate NeedsReview(ops: TextOps, m: Matcher, row: RawRow) {
    var text := ops.normalize(RawText(row));
    && TopicsOf(m, text) != []
    && (if m.counter(text) then AnyHarm(m, text) else FlaggedLabels(m, text) == {})
    && CurrentLabels(row) * REVIEW_RELEVANT != {}
  }

  /** A name that is read counts; a row without any counts as SAFE. */
  lemma CurrentLabelsMeaning(row: RawRow, l: Label)
    ensures l in CurrentLabels(row)
      <==> (row.labelNames.Some? && Known(l) in row.labelNames.value)
           || (l == SAFE && (row.labelNames.None? || forall x :: Known(x) !in row.labelNames.value))
  {
    var names := if row.labelNames.Some? then row.labelNames.value else [];
    var labels := set i | 0 <= i < |names| && names[i].Known? :: names[i].l;
    forall x ensures x in labels <==> Known(x) in names {
      if Known(x) in names {
        var i :| 0 <= i < |names| && names[i] == Known(x);
        assert names[i].l in labels;
      }
    }
    if labels != {} {
      var x :| x in labels;
      assert Known(x) in names;
    }
  }

  lemma SomeTopic(m: Matcher, text: string)
    ensures TopicsOf(m, text) != [] <==> exists i :: 0 <= i < |m.topics| && m.topics[i].spans(text) != []
  {
    NothingMentioned(m, text, |m.topics|);
    forall i | 0 <= i < |m.topics| ensures Mentioned(m, text, i) <==> m.topics[i].spans(text) != [] {
    }
  }

  lemma SomeRelevant(labels: set<Label>)
    ensures labels * REVIEW_RELEVANT != {}
      <==> TOXIC in labels || PROFANITY in labels || HATE in labels || THREAT in labels || NSFW in labels
  {
    var common := labels * REVIEW_RELEVANT;
    assert forall l :: l in common <==> l in labels && (l == TOXIC || l == PROFANITY || l == HATE || l == THREAT || l == NSFW);
    if common != {} {
      var l :| l in common;
    }
  }

  /** A row goes to review when a topic is mentioned, nothing is flagged although harm may be meant, and it names one of
      the five labels that such a text may deserve. */
  lemma ReviewMeaning(ops: TextOps, m: Matcher, row: RawRow)
    ensures var text, labels := ops.normalize(RawText(row)), CurrentLabels(row);
      NeedsReview(ops, m, row)
      <==> (exists i :: 0 <= i < |m.topics| && m.topics[i].spans(text) != [])
           && FlaggedLabels(m, text) == {} && (m.counter(text) ==> AnyHarm(m, text))
           && (TOXIC in labels || PROFANITY in labels || HATE in labels || THREAT in labels || NSFW in labels)
  {
    var text := ops.normalize(RawText(row));
    SomeTopic(m, text);
    SomeRelevant(CurrentLabels(row));
    if m.counter(text) {
      assert forall l :: l !in FlaggedLabels(m, text);
    }
  }

  function ChangesOfLine(schema: Schema, ops: TextOps, m: Matcher, line: Line): seq<Change> {
    if !line.Record? || !Changed(ops, m, line.row) then []
    else
      match RelabelRow(schema, ops, m, line.row)
      case Ok(row) => [Change(line.row, TopicsOf(m, ops.normalize(RawText(line.row))), CurrentLabels(line.row), row)]
      case Err(_) => []
  }

  function Changes(schema: Schema, ops: TextOps, m: Matcher, lines: seq<Line>): seq<Change> {
    if lines == [] then []
    else
      var n := |lines| - 1;
      Changes(schema, ops, m, lines[..n]) + ChangesOfLine(schema, ops, m, lines[n])
  }

  function ReviewsOfLine(ops: TextOps, m: Matcher, line: Line): seq<Review> {
    if line.Record? && NeedsReview(ops, m, line.row)
    then [Review(line.row, TopicsOf(m, ops.normalize(RawText(line.row))), CurrentLabels(line.row))]
    else []
  }

  function Reviews(ops: TextOps, m: Matcher, lines: seq<Line>): seq<Review> {
    if lines == [] then []
    else
      var n := |lines| - 1;
      Reviews(ops, m, lines[..n]) + ReviewsOfLine(ops, m, lines[n])
  }

  /** No row is both changed and put up for review. */
  lemma ChangedOrReviewed(ops: TextOps, m: Matcher, row: RawRow)
    ensures !(Changed(ops, m, row) && NeedsReview(ops, m, row))
  {
    var text := ops.normalize(RawText(row));
    if m.counter(text) {
      assert forall l :: l !in FlaggedLabels(m, text);
    }
  }

  // ---------------------------------------------------------------- the line loop

  method RelabelFile(schema: Schema, ops: TextOps, m: Matcher, lines: seq<Line>) returns (r: Result<RelabelReport>)
    ensures match RelabelAll(schema, ops, m, lines)
      case Ok(rows) => r == Ok(RelabelReport(rows, Changes(schema, ops, m, lines), Reviews(ops, m, lines)))
      case Err(e) => r == Err(e)
  {
    var rows: seq<Row> := [];
    var changes: seq<Change> := [];
    var reviews: seq<Review> := [];
    ghost var read := RelabelLines(schema, ops, m, lines);
    for i := 0 to |lines|
      invariant Collect(read[..i]) == Ok(rows)
      invariant changes == Changes(schema, ops, m, lines[..i])
      invariant reviews == Reviews(ops, m, lines[..i])
    {
      FilesGrow(schema, ops, m, lines, i);
      CollectStep(read, i);
      var out, change, review := RelabelOne(schema, ops, m, lines[i]);
      if out.Some? && out.value.Err? {
        CollectStops(read, i);
        return Err(out.value.error);
      }
      changes := changes + change;
      reviews := reviews + review;
      if out.Some? {
        rows := rows + [out.value.value];
      }
    }
    assert lines[..|lines|] == lines && read[..|lines|] == read;
    r := Ok(RelabelReport(rows, changes, reviews));
  }

  lemma FilesGrow(schema: Schema, ops: TextOps, m: Matcher, lines: seq<Line>, i: nat)
    requires i < |lines|
    ensures Changes(schema, ops, m, lines[..i + 1])
      == Changes(schema, ops, m, lines[..i]) + ChangesOfLine(schema, ops, m, lines[i])
    ensures Reviews(ops, m, lines[..i + 1]) == Reviews(ops, m, lines[..i]) + ReviewsOfLine(ops, m, lines[i])
  {
    assert lines[..i + 1][..i] == lines[..i];
  }

  method RelabelOne(schema: Schema, ops: TextOps, m: Matcher, line: Line)
      returns (out: Option<Result<Row>>, change: seq<Change>, review: seq<Review>)
    ensures out == RelabelLine(schema, ops, m, line)
    ensures !(out.Some? && out.value.Err?) ==>
      change == ChangesOfLine(schema, ops, m, line) && review == ReviewsOfLine(ops, m, line)
  {
    out, change, review := None, [], [];
    match line {
      case Blank =>
      case Malformed =>
        out := Some(Err(ValueError));
      case Record(row) =>
        var normalized, topics, changed, reviewed := RelabelRecord(schema, ops, m, row);
        out := Some(normalized);
        if changed && normalized.Ok? {
          change := [Change(row, topics, CurrentLabels(row), normalized.value)];
        }
        if reviewed {
          review := [Review(row, topics, CurrentLabels(row))];
        }
    }
  }

  method RelabelRecord(schema: Schema, ops: TextOps, m: Matcher, row: RawRow)
      returns (normalized: Result<Row>, topics: seq<string>, changed: bool, reviewed: bool)
    ensures normalized == RelabelRow(schema, ops, m, row)
    ensures topics == TopicsOf(m, ops.normalize(RawText(row)))
    ensures changed == Changed(ops, m, row) && reviewed == NeedsReview(ops, m, row)
  {
    var annotation := Annotate(m, ops.normalize(RawText(row)));
    topics := annotation.topics;
    changed := annotation.labels - CurrentLabels(row) != {};
    reviewed := annotation.requiresReview && CurrentLabels(row) * REVIEW_RELEVANT != {};
    normalized := NormalizeRow(schema, ops, row, annotation.labels, annotation.severity, None);
  }

  function WrittenLines(rows: seq<Row>): (r: seq<Line>)
    ensures |r| == |rows| && forall i :: 0 <= i < |r| ==> r[i] == Record(Written(rows[i]))
  {
    seq(|rows|, i requires 0 <= i < |rows| => Record(Written(rows[i])))
  }

  /** A relabelled row carries a flagged label of its text exactly when the schema has the label, and keeps the key of its text. */
  lemma RelabelledRowCarries(schema: Schema, ops: TextOps, m: Matcher, row: RawRow, l: Label)
    requires Lawful(ops) && RelabelRow(schema, ops, m, row).Ok?
    requires l in FlaggedLabels(m, ops.normalize(RawText(row)))
    ensures var out := RelabelRow(schema, ops, m, row).value;
      && ops.normalize(out.text) == ops.normalize(RawText(row))
      && (l in Carried(out) <==> l in schema.labels)
  {
    var text := ops.normalize(RawText(row));
    var out := RelabelRow(schema, ops, m, row).value;
    NeverFlagsSafe(m, text);
    NormalizedLabels(schema, ops, row, FlaggedLabels(m, text), FlaggedSeverity(m, text), None);
    NormalizeSafeMeaning(ReadLabels(schema, row).value + FlaggedLabels(m, text));
  }
}
