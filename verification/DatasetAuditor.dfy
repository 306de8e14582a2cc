/** The dataset auditor and the gate that inspects its report. */
module DatasetAuditor {
  import opened Wrappers
  import opened ModerationLabels
  import opened DatasetSchema
  import opened TopicMatcher
  import opened TopicRelabeler

  datatype Report = Report(
    rows: int,
    duplicateTexts: int,
    duplicateIds: int,
    vectorMismatches: int,
    primaryMismatches: int,
    severityMismatches: int,
    ruleMisses: int,
    keys: set<string>)

  /** A record that normalises is audited as it stands. */
  function AuditLine(schema: Schema, ops: TextOps, line: Line): Option<Result<RawRow>> {
    match line
    case Blank => None
    case Malformed => Some(Err(ValueError))
    case Record(row) =>
      var normalized := NormalizePlain(schema, ops, row);
      Some(if normalized.Err? then Err(normalized.error) else if row.primary.None? then Err(KeyError) else Ok(row))
  }

  function AuditLines(schema: Schema, ops: TextOps, lines: seq<Line>): (r: seq<Option<Result<RawRow>>>)
    ensures |r| == |lines| && forall i :: 0 <= i < |r| ==> r[i] == AuditLine(schema, ops, lines[i])
  {
    seq(|lines|, i requires 0 <= i < |lines| => AuditLine(schema, ops, lines[i]))
  }

  /** The records of a file, provided that each of them can be normalised and names a primary label. */
  function AuditableRows(schema: Schema, ops: TextOps, lines: seq<Line>): Result<seq<RawRow>> {
    Collect(AuditLines(schema, ops, lines))
  }

  /** Blank lines are skipped; a file is audited when no line is malformed and every record normalises and names a
      primary label. */
  lemma AuditsIff(schema: Schema, ops: TextOps, lines: seq<Line>)
    ensures AuditableRows(schema, ops, lines).Ok? <==> forall i :: 0 <= i < |lines| ==>
      && lines[i] != Malformed
      && (lines[i].Record? ==> NormalizePlain(schema, ops, lines[i].row).Ok? && lines[i].row.primary.Some?)
  {
    CollectedFrom(AuditLines(schema, ops, lines));
  }

  datatype Check = VectorCheck | PrimaryCheck | SeverityCheck | RuleCheck

  function NamedLabels(row: RawRow): set<Label> {
    var names := if row.labelNames.Some? then row.labelNames.value else [];
    set i | 0 <= i < |names| && names[i].Known? :: names[i].l
  }

  /** Whether a row fails one of the audited conditions. */
  predicate Fails(check: Check, schema: Schema, ops: TextOps, m: Matcher, row: RawRow) {
    var normalized := NormalizePlain(schema, ops, row);
    normalized.Ok? && Differs(check, ops, m, row, normalized.value)
  }

  predicate Differs(check: Check, ops: TextOps, m: Matcher, row: RawRow, normalized: Row) {
    match check
    case VectorCheck => VectorMismatch(row, normalized)
    case PrimaryCheck => PrimaryMismatch(row, normalized)
    case SeverityCheck => SeverityMismatch(row, normalized)
    case RuleCheck => FlaggedLabels(m, ops.normalize(RawText(row))) - NamedLabels(row) != {}
  }

  function Failing(check: Check, schema: Schema, ops: TextOps, m: Matcher, rows: seq<RawRow>): (r: seq<bool>)
    ensures |r| == |rows| && forall i :: 0 <= i < |r| ==> r[i] == Fails(check, schema, ops, m, rows[i])
  {
    seq(|rows|, i requires 0 <= i < |rows| => Fails(check, schema, ops, m, rows[i]))
  }

  function CountTrue(s: seq<bool>): (r: nat)
    ensures r == 0 <==> forall i :: 0 <= i < |s| ==> !s[i]
  {
    if s == [] then 0 else CountTrue(s[..|s| - 1]) + (if s[|s| - 1] then 1 else 0)
  }

  function Failures(check: Check, schema: Schema, ops: TextOps, m: Matcher, rows: seq<RawRow>): nat {
    CountTrue(Failing(check, schema, ops, m, rows))
  }

  lemma FailuresStep(check: Check, schema: Schema, ops: TextOps, m: Matcher, rows: seq<RawRow>, row: RawRow)
    ensures Failures(check, schema, ops, m, rows + [row])
         == Failures(check, schema, ops, m, rows) + (if Fails(check, schema, ops, m, row) then 1 else 0)
  {
    var more := Failing(check, schema, ops, m, rows + [row]);
    assert more[..|rows|] == Failing(check, schema, ops, m, rows);
  }

  function KeySet(ops: TextOps, rows: seq<RawRow>): set<string> {
    set i | 0 <= i < |rows| :: ops.normalize(RawText(rows[i]))
  }

  function IdSet(rows: seq<RawRow>): set<Option<RowId>> {
    set i | 0 <= i < |rows| :: rows[i].id
  }

  /** What the report says: duplicates are the rows beyond the distinct keys and ids. */
  function ReportOf(schema: Schema, ops: TextOps, m: Matcher, rows: seq<RawRow>): Report {
    Report(
      |rows|,
      |rows| - |KeySet(ops, rows)|,
      |rows| - |IdSet(rows)|,
      Failures(VectorCheck, schema, ops, m, rows),
      Failures(PrimaryCheck, schema, ops, m, rows),
      Failures(SeverityCheck, schema, ops, m, rows),
      Failures(RuleCheck, schema, ops, m, rows),
      KeySet(ops, rows))
  }

  lemma {:induction false} CountIsSize(s: seq<bool>)
    ensures CountTrue(s) == |set i | 0 <= i < |s| && s[i]|
  {
    var all := set i | 0 <= i < |s| && s[i];
    if s == [] {
      assert all == {};
    } else {
      var n := |s| - 1;
      CountIsSize(s[..n]);
      var before := set i | 0 <= i < |s[..n]| && s[..n][i];
      if s[n] {
        assert all == before + {n};
      } else {
        assert all == before;
      }
    }
  }

  /** The rows of a kind. */
  function RowsThat(rows: seq<RawRow>, p: RawRow -> bool): set<nat> {
    set i | 0 <= i < |rows| && p(rows[i])
  }

  lemma FailuresAre(check: Check, schema: Schema, ops: TextOps, m: Matcher, rows: seq<RawRow>, p: RawRow -> bool)
    requires forall i :: 0 <= i < |rows| ==> (p(rows[i]) <==> Fails(check, schema, ops, m, rows[i]))
    ensures Failures(check, schema, ops, m, rows) == |RowsThat(rows, p)|
  {
    var failing := Failing(check, schema, ops, m, rows);
    CountIsSize(failing);
    assert (set i | 0 <= i < |failing| && failing[i]) == RowsThat(rows, p);
  }

  /** The stated vector, primary label or severity is not that of the normalised row, which `normal` gives. */
  function VectorOff(normal: RawRow -> Row): RawRow -> bool {
    (row: RawRow) => row.vector != Some(normal(row).vector)
  }

  function PrimaryOff(normal: RawRow -> Row): RawRow -> bool {
    (row: RawRow) => row.primary != Some(Known(normal(row).primary))
  }

  function SeverityOff(normal: RawRow -> Row): RawRow -> bool {
    (row: RawRow) => row.severity != Some(normal(row).severity) && !(row.severity.None? && normal(row).severity == 0)
  }

  /** The text is flagged for a label the row does not name. */
  function RuleOff(ops: TextOps, m: Matcher): RawRow -> bool {
    (row: RawRow) => exists l :: l in FlaggedLabels(m, ops.normalize(RawText(row))) && l !in NamedLabels(row)
  }

  ghost predicate Normals(schema: Schema, ops: TextOps, rows: seq<RawRow>, normal: RawRow -> Row) {
    forall i :: 0 <= i < |rows| ==> NormalizePlain(schema, ops, rows[i]) == Ok(normal(rows[i]))
  }

  lemma VectorCounts(schema: Schema, ops: TextOps, m: Matcher, rows: seq<RawRow>, normal: RawRow -> Row)
    requires Normals(schema, ops, rows, normal)
    ensures Failures(VectorCheck, schema, ops, m, rows) == |RowsThat(rows, VectorOff(normal))|
  {
    FailuresAre(VectorCheck, schema, ops, m, rows, VectorOff(normal));
  }

  lemma PrimaryCounts(schema: Schema, ops: TextOps, m: Matcher, rows: seq<RawRow>, normal: RawRow -> Row)
    requires Normals(schema, ops, rows, normal)
    ensures Failures(PrimaryCheck, schema, ops, m, rows) == |RowsThat(rows, PrimaryOff(normal))|
  {
    FailuresAre(PrimaryCheck, schema, ops, m, rows, PrimaryOff(normal));
  }

  lemma SeverityCounts(schema: Schema, ops: TextOps, m: Matcher, rows: seq<RawRow>, normal: RawRow -> Row)
    requires Normals(schema, ops, rows, normal)
    ensures Failures(SeverityCheck, schema, ops, m, rows) == |RowsThat(rows, SeverityOff(normal))|
  {
    FailuresAre(SeverityCheck, schema, ops, m, rows, SeverityOff(normal));
  }

  lemma Missing(a: set<Label>, b: set<Label>)
    ensures a - b != {} <==> exists l :: l in a && l !in b
  {
    if l :| l in a && l !in b {
      assert l in a - b;
    }
    if a - b != {} {
      var l :| l in a - b;
    }
  }

  lemma RuleCounts(schema: Schema, ops: TextOps, m: Matcher, rows: seq<RawRow>, normal: RawRow -> Row)
    requires Normals(schema, ops, rows, normal)
    ensures Failures(RuleCheck, schema, ops, m, rows) == |RowsThat(rows, RuleOff(ops, m))|
  {
    forall i | 0 <= i < |rows| ensures RuleOff(ops, m)(rows[i]) <==> Fails(RuleCheck, schema, ops, m, rows[i]) {
      Missing(FlaggedLabels(m, ops.normalize(RawText(rows[i]))), NamedLabels(rows[i]));
    }
    FailuresAre(RuleCheck, schema, ops, m, rows, RuleOff(ops, m));
  }

  /** Duplicates are the rows beyond the distinct normalised texts and the distinct ids; every other counter counts the
      rows that are off in its way. */
  lemma ReportMeaning(schema: Schema, ops: TextOps, m: Matcher, rows: seq<RawRow>, normal: RawRow -> Row)
    requires Normals(schema, ops, rows, normal)
    ensures var report := ReportOf(schema, ops, m, rows);
      && report.rows == |rows|
      && report.duplicateTexts + |report.keys| == |rows|
      && report.duplicateIds + |set i | 0 <= i < |rows| :: rows[i].id| == |rows|
      && (forall k :: k in report.keys <==> exists i :: 0 <= i < |rows| && ops.normalize(RawText(rows[i])) == k)
      && report.vectorMismatches == |RowsThat(rows, VectorOff(normal))|
      && report.primaryMismatches == |RowsThat(rows, PrimaryOff(normal))|
      && report.severityMismatches == |RowsThat(rows, SeverityOff(normal))|
      && report.ruleMisses == |RowsThat(rows, RuleOff(ops, m))|
  {
    VectorCounts(schema, ops, m, rows, normal);
    PrimaryCounts(schema, ops, m, rows, normal);
    SeverityCounts(schema, ops, m, rows, normal);
    RuleCounts(schema, ops, m, rows, normal);
  }

  /** The labels a row names. */
  lemma NamedMeaning(row: RawRow, l: Label)
    ensures l in NamedLabels(row) <==> row.labelNames.Some? && Known(l) in row.labelNames.value
  {
    if row.labelNames.Some? && Known(l) in row.labelNames.value {
      var i :| 0 <= i < |row.labelNames.value| && row.labelNames.value[i] == Known(l);
      assert row.labelNames.value[i].l in NamedLabels(row);
    }
  }

  lemma KeySetStep(ops: TextOps, rows: seq<RawRow>, row: RawRow)
    ensures KeySet(ops, rows + [row]) == KeySet(ops, rows) + {ops.normalize(RawText(row))}
  {
    var more := rows + [row];
    assert more[|rows|] == row;
    forall k | k in KeySet(ops, rows) ensures k in KeySet(ops, more) {
      var i :| 0 <= i < |rows| && ops.normalize(RawText(rows[i])) == k;
      assert more[i] == rows[i];
    }
    assert ops.normalize(RawText(more[|rows|])) in KeySet(ops, more);
  }

  lemma IdSetStep(rows: seq<RawRow>, row: RawRow)
    ensures IdSet(rows + [row]) == IdSet(rows) + {row.id}
  {
    var more := rows + [row];
    forall k | k in IdSet(rows) ensures k in IdSet(more) {
      var i :| 0 <= i < |rows| && rows[i].id == k;
      assert more[i] == rows[i];
    }
    assert more[|rows|].id in IdSet(more);
  }

  /** One row's effect on the report. */
  function Tally(schema: Schema, ops: TextOps, m: Matcher, report: Report, row: RawRow, seenId: bool): Report {
    var key := ops.normalize(RawText(row));
    var one := (check: Check) => if Fails(check, schema, ops, m, row) then 1 else 0;
    Report(
      report.rows + 1,
      report.duplicateTexts + (if key in report.keys then 1 else 0),
      report.duplicateIds + (if seenId then 1 else 0),
      report.vectorMismatches + one(VectorCheck),
      report.primaryMismatches + one(PrimaryCheck),
      report.severityMismatches + one(SeverityCheck),
      report.ruleMisses + one(RuleCheck),
      report.keys + {key})
  }

  lemma TallyIsReport(schema: Schema, ops: TextOps, m: Matcher, rows: seq<RawRow>, row: RawRow)
    ensures Tally(schema, ops, m, ReportOf(schema, ops, m, rows), row, row.id in IdSet(rows))
         == ReportOf(schema, ops, m, rows + [row])
  {
    FailuresStep(VectorCheck, schema, ops, m, rows, row);
    FailuresStep(PrimaryCheck, schema, ops, m, rows, row);
    FailuresStep(SeverityCheck, schema, ops, m, rows, row);
    FailuresStep(RuleCheck, schema, ops, m, rows, row);
    KeySetStep(ops, rows, row);
    IdSetStep(rows, row);
    var keys, ids := KeySet(ops, rows), IdSet(rows);
    var key := ops.normalize(RawText(row));
    SizeWith(keys, key);
    SizeWith(ids, row.id);
  }

  lemma SizeWith<T>(s: set<T>, x: T)
    ensures |s + {x}| == |s| + if x in s then 0 else 1
  {
    assert x in s ==> s + {x} == s;
  }

  method AuditRow(schema: Schema, ops: TextOps, m: Matcher, report: Report, ids: set<Option<RowId>>, row: RawRow,
                  ghost rows: seq<RawRow>)
      returns (report': Report, ids': set<Option<RowId>>)
    requires report == ReportOf(schema, ops, m, rows) && ids == IdSet(rows)
    ensures report' == ReportOf(schema, ops, m, rows + [row]) && ids' == IdSet(rows + [row])
  {
    report' := Tally(schema, ops, m, report, row, row.id in ids);
    ids' := ids + {row.id};
    TallyIsReport(schema, ops, m, rows, row);
    IdSetStep(rows, row);
  }

  method AuditFile(schema: Schema, ops: TextOps, m: Matcher, lines: seq<Line>) returns (r: Result<Report>)
    ensures match AuditableRows(schema, ops, lines)
      case Ok(rows) => r == Ok(ReportOf(schema, ops, m, rows))
      case Err(e) => r == Err(e)
  {
    var report := Report(0, 0, 0, 0, 0, 0, 0, {});
    var ids: set<Option<RowId>> := {};
    ghost var rows: seq<RawRow> := [];
    ghost var read := AuditLines(schema, ops, lines);
    for i := 0 to |lines|
      invariant Collect(read[..i]) == Ok(rows)
      invariant report == ReportOf(schema, ops, m, rows) && ids == IdSet(rows)
    {
      CollectStep(read, i);
      var line := AuditLine(schema, ops, lines[i]);
      if line.None? {
        continue;
      }
      if line.value.Err? {
        CollectStops(read, i);
        return Err(line.value.error);
      }
      report, ids := AuditRow(schema, ops, m, report, ids, line.value.value, rows);
      rows := rows + [line.value.value];
    }
    assert read[..|lines|] == read;
    r := Ok(report);
  }

  /** The conditions under which the curation gate raises nothing. */
  predicate CleanSplit(report: Report) {
    && report.duplicateTexts == 0
    && report.duplicateIds == 0
    && report.ruleMisses == 0
    && report.vectorMismatches == 0 && report.primaryMismatches == 0 && report.severityMismatches == 0
  }

  predicate CleanAudit(train: Report, validation: Report) {
    && train.keys * validation.keys == {}
    && CleanSplit(train) && CleanSplit(validation)
  }

  /** The gate wants no text in both splits, and in each split no duplicate, no structural issue and no missed label. */
  lemma CleanAuditMeaning(train: Report, validation: Report)
    ensures CleanAudit(train, validation)
      <==> (forall k :: k in train.keys ==> k !in validation.keys)
           && forall report :: report in [train, validation] ==>
                report.(rows := 0, keys := {}) == Report(0, 0, 0, 0, 0, 0, 0, {})
  {
    assert [train, validation][0] == train && [train, validation][1] == validation;
    if CleanAudit(train, validation) {
      forall k | k in train.keys ensures k !in validation.keys {
        assert k !in train.keys * validation.keys;
      }
    }
  }
}
