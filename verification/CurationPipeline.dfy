/** The curation run: relabel, merge, validate, audit. The audit gate is proved never to fail on
    what the merger writes, up to the one condition the schema must meet. */
module CurationPipeline {
  import opened Wrappers
  import opened ModerationLabels
  import opened BitMasks
  import opened DatasetSchema
  import opened TopicMatcher
  import opened TopicRelabeler
  import opened DatasetMerger
  import opened DatasetAuditor

  // ---------------------------------------------------------------- what every table entry keeps

  /** The entry's text has the key it is stored under, and is fit to be written again. */
  ghost predicate GoodEntry(ops: TextOps, key: string, e: Entry) {
    && ops.normalize(e.text) == key
    && e.text != "" && ops.strip(e.text) == e.text
    && e.severity >= 0
  }

  ghost predicate GoodTuples(ops: TextOps, tuples: seq<Tuple>) {
    forall i :: 0 <= i < |tuples| ==> GoodEntry(ops, tuples[i].key, tuples[i].entry)
  }

  lemma TupleIsGood(schema: Schema, ops: TextOps, row: RawRow, split: nat, rank: nat)
    requires Lawful(ops) && TupleOf(schema, ops, row, split, rank).Ok?
    ensures var t := TupleOf(schema, ops, row, split, rank).value; GoodEntry(ops, t.key, t.entry)
  {
    RowIsAssembled(schema, ops, row, {}, 0, None);
  }

  lemma FileTuplesAreGood(schema: Schema, ops: TextOps, lines: seq<Line>, split: nat, rank: nat)
    requires Lawful(ops) && FileTuples(schema, ops, lines, split, rank).Ok?
    ensures GoodTuples(ops, FileTuples(schema, ops, lines, split, rank).value)
  {
    var read := TupleLines(schema, ops, lines, split, rank);
    var tuples := FileTuples(schema, ops, lines, split, rank).value;
    CollectedFrom(read);
    forall j | 0 <= j < |tuples| ensures GoodEntry(ops, tuples[j].key, tuples[j].entry) {
      assert tuples[j] in tuples;
      var i :| 0 <= i < |read| && read[i] == Some(Ok(tuples[j]));
      TupleIsGood(schema, ops, lines[i].row, split, rank);
    }
  }

  lemma {:induction false} FlattenIsGood(ops: TextOps, parts: seq<seq<Tuple>>)
    requires forall i :: 0 <= i < |parts| ==> GoodTuples(ops, parts[i])
    ensures GoodTuples(ops, Flatten(parts))
  {
    if parts != [] {
      FlattenIsGood(ops, parts[..|parts| - 1]);
    }
  }

  lemma OneSourceIsGood(schema: Schema, ops: TextOps, source: Source, rank: nat)
    requires Lawful(ops) && OneSource(schema, ops, source, rank).Ok?
    ensures GoodTuples(ops, OneSource(schema, ops, source, rank).value)
  {
    FileTuplesAreGood(schema, ops, source.train, TRAIN_MASK, rank);
    FileTuplesAreGood(schema, ops, source.validation, VALIDATION_MASK, rank);
  }

  lemma SourceTuplesAreGood(schema: Schema, ops: TextOps, sources: seq<Source>)
    requires Lawful(ops) && SourceTuples(schema, ops, sources).Ok?
    ensures GoodTuples(ops, SourceTuples(schema, ops, sources).value)
  {
    var read := EachSource(schema, ops, sources);
    var parts := Collect(read).value;
    CollectedFrom(read);
    CollectAll(read);
    forall i | 0 <= i < |parts| ensures GoodTuples(ops, parts[i]) {
      OneSourceIsGood(schema, ops, sources[i], i);
    }
    FlattenIsGood(ops, parts);
  }

  lemma MergedEntryIsGood(ops: TextOps, tuples: seq<Tuple>, key: string)
    requires GoodTuples(ops, tuples) && key in UpsertAll(map[], tuples)
    ensures GoodEntry(ops, key, UpsertAll(map[], tuples)[key])
  {
    var w := MergedText(tuples, key);
    var v := MergedSeverity(tuples, key);
    assert GoodEntry(ops, tuples[w].key, tuples[w].entry);
    assert GoodEntry(ops, tuples[v].key, tuples[v].entry);
  }

  ghost predicate GoodTable(ops: TextOps, table: Table) {
    forall k :: k in table ==> GoodEntry(ops, k, table[k])
  }

  // ---------------------------------------------------------------- what every written row keeps

  /** A flagged label of the key reaches the entry's mask. */
  predicate Covered(schema: Schema, m: Matcher, key: string, e: Entry) {
    FlaggedLabels(m, key) <= Selected(schema, e.mask)
  }

  /** The schema has every label flagged for the key. */
  predicate WithinSchema(schema: Schema, m: Matcher, key: string) {
    FlaggedLabels(m, key) <= (set l | l in schema.labels)
  }

  /** The properties of a written row that the audit will look for. */
  ghost predicate GoodOutput(schema: Schema, ops: TextOps, m: Matcher, key: string, e: Entry, id: nat, row: Row) {
    && ops.normalize(row.text) == key
    && row.id == IntId(id)
    && NormalizePlain(schema, ops, Written(row)) == Ok(row)
    && ValidateRow(schema, ops, Written(row)) == Ok(())
    && (FlaggedLabels(m, key) - (set l | l in row.labelNames) == {} <==> Covered(schema, m, key, e))
  }

  lemma OutputRowIsGood(schema: Schema, ops: TextOps, m: Matcher, key: string, e: Entry, id: nat)
    requires Lawful(ops) && GoodEntry(ops, key, e)
    ensures OutputRow(schema, ops, e, id).Ok?
    ensures GoodOutput(schema, ops, m, key, e, id, OutputRow(schema, ops, e, id).value)
  {
    OutputRowIsStable(schema, ops, key, e, id);
    OutputLabels(schema, ops, m, key, e, id);
  }

  lemma OutputRowIsStable(schema: Schema, ops: TextOps, key: string, e: Entry, id: nat)
    requires Lawful(ops) && GoodEntry(ops, key, e)
    ensures OutputRow(schema, ops, e, id).Ok?
    ensures var row := OutputRow(schema, ops, e, id).value;
      && ops.normalize(row.text) == key
      && row.id == IntId(id)
      && NormalizePlain(schema, ops, Written(row)) == Ok(row)
      && ValidateRow(schema, ops, Written(row)) == Ok(())
  {
    var raw := OutputRaw(schema, ops, e, id);
    NormalizedRowIsStable(schema, ops, raw, {}, 0, None);
  }

  lemma OutputLabels(schema: Schema, ops: TextOps, m: Matcher, key: string, e: Entry, id: nat)
    requires OutputRow(schema, ops, e, id).Ok?
    ensures FlaggedLabels(m, key) - (set l | l in OutputRow(schema, ops, e, id).value.labelNames) == {}
      <==> Covered(schema, m, key, e)
  {
    NeverFlagsSafe(m, key);
    HarmfulLabelsSurvive(schema, ops, e, id, FlaggedLabels(m, key));
  }

  lemma HarmfulLabelsSurvive(schema: Schema, ops: TextOps, e: Entry, id: nat, flagged: set<Label>)
    requires OutputRow(schema, ops, e, id).Ok? && SAFE !in flagged
    ensures flagged - (set l | l in OutputRow(schema, ops, e, id).value.labelNames) == {}
      <==> flagged <= Selected(schema, e.mask)
  {
    forall l | l in flagged ensures l in OutputRow(schema, ops, e, id).value.labelNames <==> l in Selected(schema, e.mask) {
      OutputLabel(schema, ops, e, id, l);
    }
    NoneMissing(flagged, OutputRow(schema, ops, e, id).value.labelNames, Selected(schema, e.mask));
  }

  lemma NoneMissing(flagged: set<Label>, names: seq<Label>, selected: set<Label>)
    requires forall l :: l in flagged ==> (l in names <==> l in selected)
    ensures flagged - (set l | l in names) == {} <==> flagged <= selected
  {
    var missing := flagged - (set l | l in names);
    if missing == {} {
      forall l | l in flagged ensures l in selected {
        assert l !in missing;
      }
    }
  }

  /** The row handed to the schema for an entry; its label names are always readable. */
  lemma OutputRaw(schema: Schema, ops: TextOps, e: Entry, id: nat) returns (raw: RawRow)
    ensures raw == RawRow(Some(e.text), Some(KnownNames(MaskToLabels(schema, e.mask))), Some(e.severity), Some(IntId(id)), None, None)
    ensures ReadLabels(schema, raw) == Ok(Decoded(schema, e.mask))
  {
    raw := RawRow(Some(e.text), Some(KnownNames(MaskToLabels(schema, e.mask))), Some(e.severity), Some(IntId(id)), None, None);
    OrderedMeaning(schema.labels, NormalizeSafe(Selected(schema, e.mask)));
    ReadNames(schema, raw, MaskToLabels(schema, e.mask));
  }

  function Decoded(schema: Schema, mask: nat): set<Label> {
    var names := MaskToLabels(schema, mask);
    if names == [] then {SAFE} else set l | l in names
  }

  lemma OutputLabel(schema: Schema, ops: TextOps, e: Entry, id: nat, l: Label)
    requires l != SAFE && OutputRow(schema, ops, e, id).Ok?
    ensures l in OutputRow(schema, ops, e, id).value.labelNames <==> l in Selected(schema, e.mask)
  {
    var raw := OutputRaw(schema, ops, e, id);
    NormalizedLabels(schema, ops, raw, {}, 0, None);
    DecodedLabel(schema, e.mask, l);
  }

  /** A harmful label survives decoding exactly when it was selected. */
  lemma DecodedLabel(schema: Schema, mask: nat, l: Label)
    requires l != SAFE
    ensures (l in schema.labels && l in NormalizeSafe(Decoded(schema, mask) + {})) <==> l in Selected(schema, mask)
  {
    OrderedMeaning(schema.labels, NormalizeSafe(Selected(schema, mask)));
    NormalizeSafeMeaning(Selected(schema, mask));
    NormalizeSafeMeaning(Decoded(schema, mask) + {});
  }

  /** `rows` is what the split with these keys writes: one row per key, numbered from one. */
  ghost predicate WritesRows(schema: Schema, ops: TextOps, table: Table, keys: seq<string>, rows: seq<Row>) {
    && Lawful(ops)
    && GoodTable(ops, table)
    && (forall k :: k in keys ==> k in table)
    && (forall i, j :: 0 <= i < j < |keys| ==> keys[i] != keys[j])
    && |rows| == |keys|
    && (forall i :: 0 <= i < |rows| ==> OutputRow(schema, ops, table[keys[i]], i + 1) == Ok(rows[i]))
  }

  lemma SplitWritesRows(schema: Schema, ops: TextOps, m: Matcher, table: Table, keys: seq<string>)
    requires Lawful(ops) && GoodTable(ops, table)
    requires forall k :: k in keys ==> k in table
    requires forall i, j :: 0 <= i < j < |keys| ==> keys[i] != keys[j]
    ensures SplitRows(schema, ops, table, keys).Ok?
    ensures WritesRows(schema, ops, table, keys, SplitRows(schema, ops, table, keys).value)
  {
    var read := OutputLines(schema, ops, table, keys);
    forall i | 0 <= i < |read| ensures read[i].value.Ok? {
      OutputLineIsRow(schema, ops, m, table, keys, i);
    }
    CollectAll(read);
    CollectedOutputs(schema, ops, table, keys, Collect(read).value);
  }

  lemma OutputLineIsRow(schema: Schema, ops: TextOps, m: Matcher, table: Table, keys: seq<string>, i: nat)
    requires Lawful(ops) && GoodTable(ops, table)
    requires i < |keys| && forall k :: k in keys ==> k in table
    ensures OutputLines(schema, ops, table, keys)[i].value.Ok?
  {
    assert keys[i] in keys;
    OutputRowIsGood(schema, ops, m, keys[i], table[keys[i]], i + 1);
  }

  lemma CollectedOutputs(schema: Schema, ops: TextOps, table: Table, keys: seq<string>, rows: seq<Row>)
    requires (forall k :: k in keys ==> k in table) && |rows| == |keys|
    requires forall i :: 0 <= i < |rows| ==> OutputLines(schema, ops, table, keys)[i] == Some(Ok(rows[i]))
    ensures forall i :: 0 <= i < |rows| ==> OutputRow(schema, ops, table[keys[i]], i + 1) == Ok(rows[i])
  {
    forall i | 0 <= i < |rows| ensures OutputRow(schema, ops, table[keys[i]], i + 1) == Ok(rows[i]) {
      assert OutputLines(schema, ops, table, keys)[i] == Some(OutputRow(schema, ops, table[keys[i]], i + 1));
    }
  }

  lemma WrittenRowIsGood(schema: Schema, ops: TextOps, m: Matcher, table: Table, keys: seq<string>, rows: seq<Row>, i: nat)
    requires WritesRows(schema, ops, table, keys, rows) && i < |rows|
    ensures GoodOutput(schema, ops, m, keys[i], table[keys[i]], i + 1, rows[i])
  {
    assert keys[i] in keys;
    OutputRowIsGood(schema, ops, m, keys[i], table[keys[i]], i + 1);
  }

  // ---------------------------------------------------------------- auditing a written split

  function RawRows(rows: seq<Row>): (r: seq<RawRow>)
    ensures |r| == |rows| && forall i :: 0 <= i < |r| ==> r[i] == Written(rows[i])
  {
    seq(|rows|, i requires 0 <= i < |rows| => Written(rows[i]))
  }

  lemma WrittenRowsAreAuditable(schema: Schema, ops: TextOps, m: Matcher, table: Table, keys: seq<string>, rows: seq<Row>)
    requires WritesRows(schema, ops, table, keys, rows)
    ensures AuditableRows(schema, ops, WrittenLines(rows)) == Ok(RawRows(rows))
  {
    var read, raw := AuditLines(schema, ops, WrittenLines(rows)), RawRows(rows);
    forall i | 0 <= i < |rows| ensures read[i] == Some(Ok(raw[i])) {
      WrittenLineIsAuditable(schema, ops, m, table, keys, rows, i);
    }
    CollectIs(read, raw);
  }

  lemma WrittenLineIsAuditable(schema: Schema, ops: TextOps, m: Matcher, table: Table, keys: seq<string>, rows: seq<Row>, i: nat)
    requires WritesRows(schema, ops, table, keys, rows) && i < |rows|
    ensures AuditLine(schema, ops, WrittenLines(rows)[i]) == Some(Ok(Written(rows[i])))
  {
    WrittenRowIsGood(schema, ops, m, table, keys, rows, i);
  }

  lemma {:induction false} DistinctImage(keys: seq<string>)
    requires forall i, j :: 0 <= i < j < |keys| ==> keys[i] != keys[j]
    ensures |set k | k in keys| == |keys|
  {
    if keys != [] {
      var n := |keys| - 1;
      DistinctImage(keys[..n]);
      assert keys == keys[..n] + [keys[n]];
      assert (set k | k in keys) == (set k | k in keys[..n]) + {keys[n]};
    }
  }

  lemma KeysOfWritten(schema: Schema, ops: TextOps, m: Matcher, table: Table, keys: seq<string>, rows: seq<Row>)
    requires WritesRows(schema, ops, table, keys, rows)
    ensures KeySet(ops, RawRows(rows)) == set k | k in keys
    ensures |KeySet(ops, RawRows(rows))| == |rows|
  {
    var raw := RawRows(rows);
    forall i | 0 <= i < |rows| ensures ops.normalize(RawText(raw[i])) == keys[i] {
      WrittenRowIsGood(schema, ops, m, table, keys, rows, i);
    }
    KeySetIs(ops, raw, keys);
    DistinctImage(keys);
  }

  lemma KeySetIs(ops: TextOps, raw: seq<RawRow>, keys: seq<string>)
    requires |raw| == |keys| && forall i :: 0 <= i < |raw| ==> ops.normalize(RawText(raw[i])) == keys[i]
    ensures KeySet(ops, raw) == set k | k in keys
  {
    forall k | k in keys ensures k in KeySet(ops, raw) {
      var i :| 0 <= i < |keys| && keys[i] == k;
      assert ops.normalize(RawText(raw[i])) in KeySet(ops, raw);
    }
  }

  lemma {:induction false} IdsOfWritten(rows: seq<Row>)
    requires forall i :: 0 <= i < |rows| ==> rows[i].id == IntId(i + 1)
    ensures |IdSet(RawRows(rows))| == |rows|
  {
    if rows != [] {
      var n := |rows| - 1;
      IdsOfWritten(rows[..n]);
      assert RawRows(rows) == RawRows(rows[..n]) + [Written(rows[n])];
      IdSetStep(RawRows(rows[..n]), Written(rows[n]));
      assert Some(rows[n].id) !in IdSet(RawRows(rows[..n]));
    }
  }

  lemma NamedInWritten(row: Row)
    ensures NamedLabels(Written(row)) == set l | l in row.labelNames
  {
    var names := KnownNames(row.labelNames);
    var named := NamedLabels(Written(row));
    forall l | l in row.labelNames ensures l in named {
      var i :| 0 <= i < |row.labelNames| && row.labelNames[i] == l;
      assert names[i].l == l;
    }
  }

  /** A row that is read back unchanged fails no check but possibly that of its labels. */
  lemma StableRowFails(check: Check, schema: Schema, ops: TextOps, m: Matcher, row: Row)
    requires NormalizePlain(schema, ops, Written(row)) == Ok(row)
    ensures Fails(check, schema, ops, m, Written(row))
      <==> check == RuleCheck && FlaggedLabels(m, ops.normalize(row.text)) - (set l | l in row.labelNames) != {}
  {
    DiffersFromItself(check, ops, m, row);
  }

  lemma DiffersFromItself(check: Check, ops: TextOps, m: Matcher, row: Row)
    ensures Differs(check, ops, m, Written(row), row)
      <==> check == RuleCheck && FlaggedLabels(m, ops.normalize(row.text)) - (set l | l in row.labelNames) != {}
  {
    NamedInWritten(row);
  }

  lemma WrittenRowFails(
      check: Check, schema: Schema, ops: TextOps, m: Matcher, table: Table, keys: seq<string>, rows: seq<Row>, i: nat)
    requires WritesRows(schema, ops, table, keys, rows) && i < |rows|
    ensures Fails(check, schema, ops, m, Written(rows[i])) <==> check == RuleCheck && !Covered(schema, m, keys[i], table[keys[i]])
  {
    WrittenRowIsGood(schema, ops, m, table, keys, rows, i);
    StableRowFails(check, schema, ops, m, rows[i]);
  }

  lemma RowsAreNumbered(schema: Schema, ops: TextOps, m: Matcher, table: Table, keys: seq<string>, rows: seq<Row>)
    requires WritesRows(schema, ops, table, keys, rows)
    ensures |IdSet(RawRows(rows))| == |rows|
  {
    forall i | 0 <= i < |rows| ensures rows[i].id == IntId(i + 1) {
      WrittenRowIsGood(schema, ops, m, table, keys, rows, i);
    }
    IdsOfWritten(rows);
  }

  /** The audit of a written split finds no duplicate and no structural issue, and misses a rule
      exactly at the keys whose flagged labels no input row carried. */
  lemma AuditOfWritten(schema: Schema, ops: TextOps, m: Matcher, table: Table, keys: seq<string>, rows: seq<Row>)
    requires WritesRows(schema, ops, table, keys, rows)
    ensures var report := ReportOf(schema, ops, m, RawRows(rows));
      && report.keys == (set k | k in keys)
      && (CleanSplit(report) <==> forall k :: k in keys ==> Covered(schema, m, k, table[k]))
      && report.rows == |keys| && report.duplicateTexts == 0 && report.duplicateIds == 0
      && report.vectorMismatches == 0 && report.primaryMismatches == 0 && report.severityMismatches == 0
  {
    KeysOfWritten(schema, ops, m, table, keys, rows);
    RowsAreNumbered(schema, ops, m, table, keys, rows);
    StructureOfWritten(schema, ops, m, table, keys, rows);
    FailuresOfWritten(RuleCheck, schema, ops, m, table, keys, rows);
    ReportWithoutIssues(schema, ops, m, RawRows(rows));
  }

  lemma StructureOfWritten(schema: Schema, ops: TextOps, m: Matcher, table: Table, keys: seq<string>, rows: seq<Row>)
    requires WritesRows(schema, ops, table, keys, rows)
    ensures NoStructuralFailure(schema, ops, m, RawRows(rows))
  {
    FailuresOfWritten(VectorCheck, schema, ops, m, table, keys, rows);
    FailuresOfWritten(PrimaryCheck, schema, ops, m, table, keys, rows);
    FailuresOfWritten(SeverityCheck, schema, ops, m, table, keys, rows);
  }

  predicate NoStructuralFailure(schema: Schema, ops: TextOps, m: Matcher, raw: seq<RawRow>) {
    && Failures(VectorCheck, schema, ops, m, raw) == 0
    && Failures(PrimaryCheck, schema, ops, m, raw) == 0
    && Failures(SeverityCheck, schema, ops, m, raw) == 0
  }

  lemma ReportWithoutIssues(schema: Schema, ops: TextOps, m: Matcher, raw: seq<RawRow>)
    requires |KeySet(ops, raw)| == |raw| && |IdSet(raw)| == |raw| && NoStructuralFailure(schema, ops, m, raw)
    ensures var report := ReportOf(schema, ops, m, raw);
      && (CleanSplit(report) <==> Failures(RuleCheck, schema, ops, m, raw) == 0)
      && report.rows == |raw| && report.keys == KeySet(ops, raw)
      && report.duplicateTexts == 0 && report.duplicateIds == 0
      && report.vectorMismatches == 0 && report.primaryMismatches == 0 && report.severityMismatches == 0
  {
  }

  lemma FailuresOfWritten(check: Check, schema: Schema, ops: TextOps, m: Matcher, table: Table, keys: seq<string>, rows: seq<Row>)
    requires WritesRows(schema, ops, table, keys, rows)
    ensures Failures(check, schema, ops, m, RawRows(rows)) == 0
      <==> check != RuleCheck || forall k :: k in keys ==> Covered(schema, m, k, table[k])
  {
    var failing := Failing(check, schema, ops, m, RawRows(rows));
    forall i | 0 <= i < |rows|
      ensures failing[i] <==> check == RuleCheck && !Covered(schema, m, keys[i], table[keys[i]])
    {
      WrittenRowFails(check, schema, ops, m, table, keys, rows, i);
    }
    assert CountTrue(failing) == 0 <==> forall i :: 0 <= i < |failing| ==> !failing[i];
    if check == RuleCheck && CountTrue(failing) == 0 {
      forall k | k in keys ensures Covered(schema, m, k, table[k]) {
        var i :| 0 <= i < |keys| && keys[i] == k;
        assert !failing[i];
      }
    }
  }

  // ---------------------------------------------------------------- validation

  /** The results of validating the rows one by one. */
  function Validated(schema: Schema, ops: TextOps, rows: seq<Row>): (r: seq<Result<()>>)
    ensures |r| == |rows| && forall i :: 0 <= i < |r| ==> r[i] == ValidateRow(schema, ops, Written(rows[i]))
  {
    seq(|rows|, i requires 0 <= i < |rows| => ValidateRow(schema, ops, Written(rows[i])))
  }

  function FirstFailure(results: seq<Result<()>>): Result<()> {
    if results == [] then Ok(())
    else
      var before := FirstFailure(results[..|results| - 1]);
      if before.Err? then before else results[|results| - 1]
  }

  lemma {:induction false} NoErrorIff(results: seq<Result<()>>)
    ensures FirstFailure(results).Ok? <==> forall i :: 0 <= i < |results| ==> results[i].Ok?
  {
    if results != [] {
      NoErrorIff(results[..|results| - 1]);
    }
  }

  /** `_validate_output` on a written file. */
  function ValidateOutput(schema: Schema, ops: TextOps, rows: seq<Row>): Result<()> {
    FirstFailure(Validated(schema, ops, rows))
  }

  /** A written file validates exactly when each of its rows does. */
  lemma OutputValidatesIff(schema: Schema, ops: TextOps, rows: seq<Row>)
    ensures ValidateOutput(schema, ops, rows).Ok?
      <==> forall i :: 0 <= i < |rows| ==> ValidateRow(schema, ops, Written(rows[i])).Ok?
  {
    var results := Validated(schema, ops, rows);
    NoErrorIff(results);
    if forall i :: 0 <= i < |results| ==> results[i].Ok? {
      forall i | 0 <= i < |rows| ensures ValidateRow(schema, ops, Written(rows[i])).Ok? {
        assert results[i].Ok?;
      }
    }
  }

  // ---------------------------------------------------------------- merge, validate, audit

  datatype AuditedSplit = AuditedSplit(rows: seq<Row>, report: Report)

  /** A split of a loaded table, validated and audited, or the first error raised on the way. */
  function FinishSplit(schema: Schema, ops: TextOps, m: Matcher, table: Table, keys: seq<string>): Result<AuditedSplit>
    requires forall k :: k in keys ==> k in table
  {
    var rows := SplitRows(schema, ops, table, keys);
    if rows.Err? then Err(rows.error)
    else if ValidateOutput(schema, ops, rows.value).Err? then Err(ValueError)
    else
      var audited := AuditableRows(schema, ops, WrittenLines(rows.value));
      if audited.Err? then Err(audited.error)
      else Ok(AuditedSplit(rows.value, ReportOf(schema, ops, m, audited.value)))
  }

  lemma SplitIsGood(schema: Schema, ops: TextOps, m: Matcher, table: Table, keys: seq<string>)
    requires Lawful(ops) && GoodTable(ops, table)
    requires forall k :: k in keys ==> k in table
    requires forall i, j :: 0 <= i < j < |keys| ==> keys[i] != keys[j]
    ensures SplitRows(schema, ops, table, keys).Ok?
    ensures var rows := SplitRows(schema, ops, table, keys).value;
      && WritesRows(schema, ops, table, keys, rows)
      && ValidateOutput(schema, ops, rows) == Ok(())
  {
    SplitWritesRows(schema, ops, m, table, keys);
    var rows := SplitRows(schema, ops, table, keys).value;
    forall i | 0 <= i < |rows| ensures ValidateRow(schema, ops, Written(rows[i])) == Ok(()) {
      WrittenRowIsGood(schema, ops, m, table, keys, rows, i);
    }
    OutputValidatesIff(schema, ops, rows);
  }

  lemma FinishOfGood(schema: Schema, ops: TextOps, m: Matcher, table: Table, keys: seq<string>, rows: seq<Row>)
    requires (forall k :: k in keys ==> k in table) && SplitRows(schema, ops, table, keys) == Ok(rows)
    requires ValidateOutput(schema, ops, rows) == Ok(()) && AuditableRows(schema, ops, WrittenLines(rows)) == Ok(RawRows(rows))
    ensures FinishSplit(schema, ops, m, table, keys) == Ok(AuditedSplit(rows, ReportOf(schema, ops, m, RawRows(rows))))
  {
  }

  /** One split, written, validated and audited. */
  lemma SplitPasses(schema: Schema, ops: TextOps, m: Matcher, table: Table, keys: seq<string>)
    requires Lawful(ops) && GoodTable(ops, table)
    requires forall k :: k in keys ==> k in table
    requires forall i, j :: 0 <= i < j < |keys| ==> keys[i] != keys[j]
    ensures var r := FinishSplit(schema, ops, m, table, keys);
      && r.Ok?
      && |r.value.rows| == |keys|
      && r.value.report.keys == (set k | k in keys)
      && (CleanSplit(r.value.report) <==> forall k :: k in keys ==> Covered(schema, m, k, table[k]))
  {
    SplitIsGood(schema, ops, m, table, keys);
    var rows := SplitRows(schema, ops, table, keys).value;
    WrittenRowsAreAuditable(schema, ops, m, table, keys, rows);
    FinishOfGood(schema, ops, m, table, keys, rows);
    AuditOfWritten(schema, ops, m, table, keys, rows);
  }

  /** On any good table, writing, validating and auditing both splits raises nothing; the splits
      partition the keys, and the audit is clean exactly when every key's flagged labels are carried. */
  lemma FinishIsClean(schema: Schema, ops: TextOps, m: Matcher, table: Table, order: seq<string>)
    requires Lawful(ops) && GoodTable(ops, table) && Enumerates(order, table)
    ensures var trainKeys, validationKeys := SplitKeys(table, order, false), SplitKeys(table, order, true);
      && (forall k :: k in trainKeys ==> k in table) && (forall k :: k in validationKeys ==> k in table)
      && var train, validation :=
           FinishSplit(schema, ops, m, table, trainKeys), FinishSplit(schema, ops, m, table, validationKeys);
      && train.Ok? && validation.Ok?
      && |train.value.rows| + |validation.value.rows| == |table|
      && (CleanAudit(train.value.report, validation.value.report)
          <==> forall k :: k in table ==> Covered(schema, m, k, table[k]))
  {
    var trainKeys, validationKeys := SplitKeys(table, order, false), SplitKeys(table, order, true);
    SplitKeysMeaning(table, order, false);
    SplitKeysMeaning(table, order, true);
    SplitPasses(schema, ops, m, table, trainKeys);
    SplitPasses(schema, ops, m, table, validationKeys);
    EveryKeyIsInOneSplit(schema, m, table, order);
  }

  lemma EveryKeyIsInOneSplit(schema: Schema, m: Matcher, table: Table, order: seq<string>)
    requires Enumerates(order, table)
    ensures var trainKeys, validationKeys := SplitKeys(table, order, false), SplitKeys(table, order, true);
      && (set k | k in trainKeys) * (set k | k in validationKeys) == {}
      && (set k | k in trainKeys) + (set k | k in validationKeys) == table.Keys
      && |trainKeys| + |validationKeys| == |table|
  {
    var trainKeys, validationKeys := SplitKeys(table, order, false), SplitKeys(table, order, true);
    SplitKeysMeaning(table, order, false);
    SplitKeysMeaning(table, order, true);
    DistinctImage(trainKeys);
    DistinctImage(validationKeys);
    KeySets(table, trainKeys, validationKeys);
  }

  lemma KeySets(table: Table, train: seq<string>, validation: seq<string>)
    requires forall k :: k in train <==> k in table && !InSplit(table[k], true)
    requires forall k :: k in validation <==> k in table && InSplit(table[k], true)
    requires |set k | k in train| == |train| && |set k | k in validation| == |validation|
    ensures (set k | k in train) * (set k | k in validation) == {}
    ensures (set k | k in train) + (set k | k in validation) == table.Keys
    ensures |train| + |validation| == |table|
  {
    var a, b := (set k | k in train), (set k | k in validation);
    assert a * b == {};
    assert a + b == table.Keys;
    assert |a + b| == |a| + |b|;
  }

  // ---------------------------------------------------------------- relabelled sources

  /** A row with this key is in the file. */
  predicate FileKey(ops: TextOps, lines: seq<Line>, key: string) {
    exists i :: 0 <= i < |lines| && lines[i].Record? && ops.normalize(RawText(lines[i].row)) == key
  }

  predicate SourceKey(ops: TextOps, source: Source, key: string) {
    FileKey(ops, source.train, key) || FileKey(ops, source.validation, key)
  }

  predicate InputKey(ops: TextOps, sources: seq<Source>, key: string) {
    exists i :: 0 <= i < |sources| && SourceKey(ops, sources[i], key)
  }

  /** The tuple carries the flagged labels of its key, as far as the schema has them. */
  predicate CarriesFlagged(schema: Schema, m: Matcher, t: Tuple) {
    forall l :: l in FlaggedLabels(m, t.key) ==> (l in Selected(schema, t.entry.mask) <==> l in schema.labels)
  }

  /** The row has a label, or SAFE is one to give it. */
  predicate Packable(schema: Schema, row: Row) {
    SAFE in schema.labels || row.labelNames != []
  }

  lemma TupleOfRelabelled(schema: Schema, ops: TextOps, m: Matcher, row: RawRow, split: nat, rank: nat)
    requires Lawful(ops) && RelabelRow(schema, ops, m, row).Ok? && Packable(schema, RelabelRow(schema, ops, m, row).value)
    ensures var t := TupleOf(schema, ops, Written(RelabelRow(schema, ops, m, row).value), split, rank);
      && t.Ok? && t.value.key == ops.normalize(RawText(row)) && CarriesFlagged(schema, m, t.value)
  {
    var text := ops.normalize(RawText(row));
    var out := RelabelRow(schema, ops, m, row).value;
    RowIsAssembled(schema, ops, row, FlaggedLabels(m, text), FlaggedSeverity(m, text), None);
    NormalizedLabels(schema, ops, row, FlaggedLabels(m, text), FlaggedSeverity(m, text), None);
    TupleOfWritten(schema, ops, out, split, rank);
    var t := TupleOf(schema, ops, Written(out), split, rank).value;
    NeverFlagsSafe(m, text);
    forall l | l in FlaggedLabels(m, text) ensures l in Selected(schema, t.entry.mask) <==> l in schema.labels {
      RelabelledRowCarries(schema, ops, m, row, l);
    }
  }

  /** Reading a written row back packs exactly the harmful labels it carries. */
  lemma TupleOfWritten(schema: Schema, ops: TextOps, out: Row, split: nat, rank: nat)
    requires Lawful(ops) && Packable(schema, out)
    requires out.text != "" && ops.strip(out.text) == out.text
    requires forall l :: l in out.labelNames ==> l in schema.labels
    ensures var t := TupleOf(schema, ops, Written(out), split, rank);
      && t.Ok? && t.value.key == ops.normalize(out.text)
      && forall l :: l != SAFE ==> (l in Selected(schema, t.value.entry.mask) <==> l in Carried(out))
  {
    ReadWritten(schema, out);
    var again := NormalizePlain(schema, ops, Written(out)).value;
    NormalizedLabels(schema, ops, Written(out), {}, 0, None);
    ReadWritten(schema, again);
    PackedLabels(schema, Carried(out), again);
  }

  lemma PackedLabels(schema: Schema, carried: set<Label>, again: Row)
    requires carried <= (set l | l in schema.labels) && carried != {}
    requires forall l :: l in again.labelNames <==> l in schema.labels && l in NormalizeSafe(carried + {})
    ensures LabelsToMask(schema, Carried(again)).Ok?
    ensures forall l :: l != SAFE ==>
      (l in Selected(schema, LabelsToMask(schema, Carried(again)).value) <==> l in carried)
  {
    assert carried + {} == carried;
    NormalizeSafeMeaning(carried);
    var l :| l in NormalizeSafe(carried);
    assert l in again.labelNames;
    NormalizeSafeMeaning(Carried(again));
    SelectedOfMask(schema, NormalizeSafe(Carried(again)));
  }

  lemma SomeLabel(row: Row)
    ensures row.labelNames != [] ==> exists l :: l in row.labelNames
  {
    if row.labelNames != [] {
      assert row.labelNames[0] in row.labelNames;
    }
  }

  /** A row without labels cannot be packed when SAFE has no bit. */
  lemma UnpackableRow(schema: Schema, ops: TextOps, out: Row, split: nat, rank: nat)
    requires Lawful(ops) && !Packable(schema, out) && out.text != "" && ops.strip(out.text) == out.text
    ensures TupleOf(schema, ops, Written(out), split, rank) == Err(KeyError)
  {
    ReadWritten(schema, out);
    var again := NormalizePlain(schema, ops, Written(out)).value;
    NormalizedLabels(schema, ops, Written(out), {}, 0, None);
    NormalizeSafeMeaning({SAFE} + {});
    SomeLabel(again);
    ReadWritten(schema, again);
    NormalizeSafeMeaning({SAFE});
    assert SAFE in NormalizeSafe({SAFE});
  }

  /** The tuples keep a property, and their keys are the given ones. */
  ghost predicate Faithful(tuples: seq<Tuple>, good: Tuple -> bool, keys: string -> bool) {
    && (forall t :: t in tuples ==> good(t) && keys(t.key))
    && (forall k :: keys(k) ==> exists t :: t in tuples && t.key == k)
  }

  lemma RowOfFile(schema: Schema, ops: TextOps, m: Matcher, lines: seq<Line>, rows: seq<Row>, j: nat) returns (i: nat)
    requires RelabelAll(schema, ops, m, lines) == Ok(rows) && j < |rows|
    ensures i < |lines| && lines[i].Record? && RelabelRow(schema, ops, m, lines[i].row) == Ok(rows[j])
  {
    var relabelled := RelabelLines(schema, ops, m, lines);
    CollectedFrom(relabelled);
    assert rows[j] in rows;
    i :| 0 <= i < |lines| && relabelled[i] == Some(Ok(rows[j]));
  }

  lemma FileOfRow(schema: Schema, ops: TextOps, m: Matcher, lines: seq<Line>, rows: seq<Row>, i: nat) returns (j: nat)
    requires RelabelAll(schema, ops, m, lines) == Ok(rows) && i < |lines| && lines[i].Record?
    ensures j < |rows| && RelabelRow(schema, ops, m, lines[i].row) == Ok(rows[j])
  {
    var relabelled := RelabelLines(schema, ops, m, lines);
    CollectedFrom(relabelled);
    assert relabelled[i].value.Ok?;
    var row := relabelled[i].value.value;
    assert relabelled[i] == Some(Ok(row));
    j :| 0 <= j < |rows| && rows[j] == row;
  }

  /** The tuple of each relabelled row. */
  lemma TupleAt(schema: Schema, ops: TextOps, m: Matcher, lines: seq<Line>, rows: seq<Row>, split: nat, rank: nat, j: nat)
    requires Lawful(ops) && RelabelAll(schema, ops, m, lines) == Ok(rows) && j < |rows| && Packable(schema, rows[j])
    ensures var t := TupleOf(schema, ops, Written(rows[j]), split, rank);
      t.Ok? && CarriesFlagged(schema, m, t.value) && FileKey(ops, lines, t.value.key)
  {
    var i := RowOfFile(schema, ops, m, lines, rows, j);
    TupleOfRelabelled(schema, ops, m, lines[i].row, split, rank);
  }

  lemma TupleForKey(schema: Schema, ops: TextOps, m: Matcher, lines: seq<Line>, rows: seq<Row>, split: nat, rank: nat, key: string)
      returns (j: nat)
    requires Lawful(ops) && RelabelAll(schema, ops, m, lines) == Ok(rows)
    requires FileKey(ops, lines, key) && forall i :: 0 <= i < |rows| ==> Packable(schema, rows[i])
    ensures j < |rows|
    ensures var t := TupleOf(schema, ops, Written(rows[j]), split, rank); t.Ok? && t.value.key == key
  {
    var i :| 0 <= i < |lines| && lines[i].Record? && ops.normalize(RawText(lines[i].row)) == key;
    j := FileOfRow(schema, ops, m, lines, rows, i);
    TupleOfRelabelled(schema, ops, m, lines[i].row, split, rank);
  }

  /** No record of a relabelled file lost all its labels, unless SAFE is one to give it. */
  predicate Keeps(schema: Schema, line: Line) {
    SAFE in schema.labels || !line.Record? || line.row.labelNames != Some([])
  }

  ghost predicate FileKeeps(schema: Schema, lines: seq<Line>) {
    forall i :: 0 <= i < |lines| ==> Keeps(schema, lines[i])
  }

  ghost predicate SourceKeeps(schema: Schema, source: Source) {
    FileKeeps(schema, source.train) && FileKeeps(schema, source.validation)
  }

  ghost predicate AllKeep(schema: Schema, sources: seq<Source>) {
    forall i :: 0 <= i < |sources| ==> SourceKeeps(schema, sources[i])
  }

  lemma WrittenKeeps(schema: Schema, rows: seq<Row>)
    ensures FileKeeps(schema, WrittenLines(rows)) <==> forall j :: 0 <= j < |rows| ==> Packable(schema, rows[j])
  {
    var lines := WrittenLines(rows);
    forall j | 0 <= j < |rows| ensures Keeps(schema, lines[j]) <==> Packable(schema, rows[j]) {
      assert lines[j] == Record(Written(rows[j]));
      assert KnownNames(rows[j].labelNames) == [] <==> rows[j].labelNames == [];
    }
    if FileKeeps(schema, lines) {
      forall j | 0 <= j < |rows| ensures Packable(schema, rows[j]) {
        assert Keeps(schema, lines[j]);
      }
    }
  }

  /** A relabelled file with a record that lost its labels cannot be loaded. */
  lemma FileThatDoesNotKeep(schema: Schema, ops: TextOps, m: Matcher, lines: seq<Line>, split: nat, rank: nat)
    requires Lawful(ops) && RelabelAll(schema, ops, m, lines).Ok?
    requires !FileKeeps(schema, WrittenLines(RelabelAll(schema, ops, m, lines).value))
    ensures FileTuples(schema, ops, WrittenLines(RelabelAll(schema, ops, m, lines).value), split, rank).Err?
  {
    var rows := RelabelAll(schema, ops, m, lines).value;
    var read := TupleLines(schema, ops, WrittenLines(rows), split, rank);
    WrittenKeeps(schema, rows);
    var j :| 0 <= j < |rows| && !Packable(schema, rows[j]);
    var i := RowOfFile(schema, ops, m, lines, rows, j);
    var text := ops.normalize(RawText(lines[i].row));
    RowIsAssembled(schema, ops, lines[i].row, FlaggedLabels(m, text), FlaggedSeverity(m, text), None);
    UnpackableRow(schema, ops, rows[j], split, rank);
    assert read[j] == Some(Err(KeyError));
    CollectedFrom(read);
  }

  /** A relabelled file whose records keep labels yields tuples for exactly the keys of the original file, each
      carrying its flagged labels. */
  lemma FileOfRelabelled(
      schema: Schema, ops: TextOps, m: Matcher, lines: seq<Line>, split: nat, rank: nat, good: Tuple -> bool, keys: string -> bool)
    requires Lawful(ops) && RelabelAll(schema, ops, m, lines).Ok?
    requires FileKeeps(schema, WrittenLines(RelabelAll(schema, ops, m, lines).value))
    requires forall t :: CarriesFlagged(schema, m, t) ==> good(t)
    requires forall k :: FileKey(ops, lines, k) <==> keys(k)
    ensures var r := FileTuples(schema, ops, WrittenLines(RelabelAll(schema, ops, m, lines).value), split, rank);
      r.Ok? && Faithful(r.value, good, keys)
  {
    var rows := RelabelAll(schema, ops, m, lines).value;
    var read := TupleLines(schema, ops, WrittenLines(rows), split, rank);
    WrittenKeeps(schema, rows);
    forall j | 0 <= j < |rows|
      ensures read[j].value.Ok? && good(read[j].value.value) && keys(read[j].value.value.key)
    {
      TupleAt(schema, ops, m, lines, rows, split, rank, j);
    }
    CollectedFrom(read);
    var tuples := Collect(read).value;
    forall k | keys(k) ensures exists t :: t in tuples && t.key == k {
      var j := TupleForKey(schema, ops, m, lines, rows, split, rank, k);
      var t := read[j].value.value;
      assert read[j] == Some(Ok(t)) && t in tuples;
    }
  }

  function RelabelSource(schema: Schema, ops: TextOps, m: Matcher, source: Source): Result<Source> {
    var train := RelabelAll(schema, ops, m, source.train);
    if train.Err? then Err(train.error)
    else
      var validation := RelabelAll(schema, ops, m, source.validation);
      if validation.Err? then Err(validation.error)
      else Ok(Source(WrittenLines(train.value), WrittenLines(validation.value)))
  }

  lemma SourceOfRelabelled(schema: Schema, ops: TextOps, m: Matcher, source: Source, rank: nat, good: Tuple -> bool)
    requires Lawful(ops) && RelabelSource(schema, ops, m, source).Ok?
    requires SourceKeeps(schema, RelabelSource(schema, ops, m, source).value)
    requires forall t :: CarriesFlagged(schema, m, t) ==> good(t)
    ensures var r := OneSource(schema, ops, RelabelSource(schema, ops, m, source).value, rank);
      && r.Ok?
      && (forall t :: t in r.value ==> good(t) && SourceKey(ops, source, t.key))
      && (forall k :: SourceKey(ops, source, k) ==> exists t :: t in r.value && t.key == k)
  {
    FileOfRelabelled(schema, ops, m, source.train, TRAIN_MASK, rank, good, k => FileKey(ops, source.train, k));
    FileOfRelabelled(schema, ops, m, source.validation, VALIDATION_MASK, rank, good, k => FileKey(ops, source.validation, k));
  }

  lemma SourceThatDoesNotKeep(schema: Schema, ops: TextOps, m: Matcher, source: Source, rank: nat)
    requires Lawful(ops) && RelabelSource(schema, ops, m, source).Ok?
    requires !SourceKeeps(schema, RelabelSource(schema, ops, m, source).value)
    ensures OneSource(schema, ops, RelabelSource(schema, ops, m, source).value, rank).Err?
  {
    var relabelled := RelabelSource(schema, ops, m, source).value;
    if !FileKeeps(schema, relabelled.train) {
      FileThatDoesNotKeep(schema, ops, m, source.train, TRAIN_MASK, rank);
    } else {
      FileThatDoesNotKeep(schema, ops, m, source.validation, VALIDATION_MASK, rank);
    }
  }

  lemma {:induction false} FlattenMembers(parts: seq<seq<Tuple>>)
    ensures forall t :: t in Flatten(parts) <==> exists i :: 0 <= i < |parts| && t in parts[i]
  {
    if parts != [] {
      var n := |parts| - 1;
      FlattenMembers(parts[..n]);
      assert forall i :: 0 <= i < n ==> parts[..n][i] == parts[i];
    }
  }

  ghost predicate RelabelledFrom(schema: Schema, ops: TextOps, m: Matcher, raw: seq<Source>, relabelled: seq<Source>) {
    && |raw| == |relabelled|
    && forall i :: 0 <= i < |raw| ==> RelabelSource(schema, ops, m, raw[i]) == Ok(relabelled[i])
  }

  lemma TuplesOfRelabelled(
      schema: Schema, ops: TextOps, m: Matcher, raw: seq<Source>, relabelled: seq<Source>, good: Tuple -> bool, keys: string -> bool)
    requires Lawful(ops) && RelabelledFrom(schema, ops, m, raw, relabelled) && AllKeep(schema, relabelled)
    requires forall t :: CarriesFlagged(schema, m, t) ==> good(t)
    requires forall k :: InputKey(ops, raw, k) <==> keys(k)
    ensures SourceTuples(schema, ops, relabelled).Ok?
    ensures Faithful(SourceTuples(schema, ops, relabelled).value, good, keys)
  {
    var read := EachSource(schema, ops, relabelled);
    forall i | 0 <= i < |raw| ensures read[i].value.Ok? {
      SourceOfRelabelled(schema, ops, m, raw[i], i, good);
    }
    CollectAll(read);
    var parts := Collect(read).value;
    FlattenMembers(parts);
    var tuples := SourceTuples(schema, ops, relabelled).value;
    forall t | t in tuples ensures good(t) && keys(t.key) {
      var i :| 0 <= i < |parts| && t in parts[i];
      SourceOfRelabelled(schema, ops, m, raw[i], i, good);
      assert read[i] == Some(Ok(parts[i]));
    }
    forall k | keys(k) ensures exists t :: t in tuples && t.key == k {
      var i :| 0 <= i < |raw| && SourceKey(ops, raw[i], k);
      SourceOfRelabelled(schema, ops, m, raw[i], i, good);
      assert read[i] == Some(Ok(parts[i]));
      var t: Tuple :| t in parts[i] && t.key == k;
      assert t in tuples;
    }
  }

  /** Relabelled sources load exactly when their records keep labels. */
  lemma LoadsIffAllKeep(schema: Schema, ops: TextOps, m: Matcher, raw: seq<Source>, relabelled: seq<Source>)
    requires Lawful(ops) && RelabelledFrom(schema, ops, m, raw, relabelled)
    ensures SourceTuples(schema, ops, relabelled).Ok? <==> AllKeep(schema, relabelled)
  {
    if AllKeep(schema, relabelled) {
      TuplesOfRelabelled(schema, ops, m, raw, relabelled, t => CarriesFlagged(schema, m, t), k => InputKey(ops, raw, k));
    } else {
      var read := EachSource(schema, ops, relabelled);
      var i :| 0 <= i < |relabelled| && !SourceKeeps(schema, relabelled[i]);
      SourceThatDoesNotKeep(schema, ops, m, raw[i], i);
      assert read[i].value.Err?;
      CollectedFrom(read);
    }
  }

  // ---------------------------------------------------------------- the gate

  lemma MergedSelected(schema: Schema, tuples: seq<Tuple>, key: string, l: Label)
    requires key in UpsertAll(map[], tuples) && l in schema.labels
    ensures l in Selected(schema, UpsertAll(map[], tuples)[key].mask)
      <==> exists t :: t in tuples && t.key == key && l in Selected(schema, t.entry.mask)
  {
    var mask := UpsertAll(map[], tuples)[key].mask;
    if l in Selected(schema, mask) {
      var b :| 0 <= b < |schema.labels| && Bit(mask, b) && schema.labels[b] == l;
      MergedMask(tuples, key, b);
      var i :| SetsMask(tuples, i, key, b);
      assert tuples[i] in tuples && l in Selected(schema, tuples[i].entry.mask);
    }
    if t: Tuple :| t in tuples && t.key == key && l in Selected(schema, t.entry.mask) {
      var i :| 0 <= i < |tuples| && tuples[i] == t;
      var b :| 0 <= b < |schema.labels| && Bit(t.entry.mask, b) && schema.labels[b] == l;
      assert SetsMask(tuples, i, key, b);
      MergedMask(tuples, key, b);
    }
  }

  /** On the merge of relabelled sources, a key's flagged labels are carried exactly when the schema has them. */
  lemma RelabelledKeyIsCovered(
      schema: Schema, m: Matcher, tuples: seq<Tuple>, key: string, good: Tuple -> bool, keys: string -> bool)
    requires Faithful(tuples, good, keys)
    requires forall t :: good(t) ==> CarriesFlagged(schema, m, t)
    ensures key in UpsertAll(map[], tuples) <==> keys(key)
    ensures keys(key) ==>
      (Covered(schema, m, key, UpsertAll(map[], tuples)[key]) <==> WithinSchema(schema, m, key))
  {
    MergedKeys(tuples, key);
    if exists i :: HasKey(tuples, i, key) {
      var i :| HasKey(tuples, i, key);
      assert tuples[i] in tuples;
    }
    if keys(key) {
      var t: Tuple :| t in tuples && t.key == key;
      var j :| 0 <= j < |tuples| && tuples[j] == t;
      assert HasKey(tuples, j, key);
      var table := UpsertAll(map[], tuples);
      forall l | l in FlaggedLabels(m, key) ensures l in Selected(schema, table[key].mask) <==> l in schema.labels {
        if l in schema.labels {
          MergedSelected(schema, tuples, key, l);
          assert CarriesFlagged(schema, m, t);
        }
      }
    }
  }

  lemma MergedTableIsGood(schema: Schema, ops: TextOps, sources: seq<Source>)
    requires Lawful(ops) && SourceTuples(schema, ops, sources).Ok?
    ensures GoodTable(ops, UpsertAll(map[], SourceTuples(schema, ops, sources).value))
  {
    var tuples := SourceTuples(schema, ops, sources).value;
    SourceTuplesAreGood(schema, ops, sources);
    forall k | k in UpsertAll(map[], tuples) ensures GoodEntry(ops, k, UpsertAll(map[], tuples)[k]) {
      MergedEntryIsGood(ops, tuples, k);
    }
  }

  /** From loaded sources on: merge, write, validate and audit. */
  function Finished(schema: Schema, ops: TextOps, m: Matcher, sources: seq<Source>, order: seq<string>, validation: bool)
      : Result<AuditedSplit>
    requires SourceTuples(schema, ops, sources).Ok?
    requires Enumerates(order, UpsertAll(map[], SourceTuples(schema, ops, sources).value))
  {
    var table := UpsertAll(map[], SourceTuples(schema, ops, sources).value);
    SplitKeysMeaning(table, order, validation);
    FinishSplit(schema, ops, m, table, SplitKeys(table, order, validation))
  }

  /** The whole run raises nothing and the gate passes. */
  ghost predicate Passes(schema: Schema, ops: TextOps, m: Matcher, sources: seq<Source>, order: seq<string>)
    requires SourceTuples(schema, ops, sources).Ok? ==>
      Enumerates(order, UpsertAll(map[], SourceTuples(schema, ops, sources).value))
  {
    && SourceTuples(schema, ops, sources).Ok?
    && var train, validation :=
         Finished(schema, ops, m, sources, order, false), Finished(schema, ops, m, sources, order, true);
       train.Ok? && validation.Ok? && CleanAudit(train.value.report, validation.value.report)
  }

  /** After loading, nothing raises any more, and only a label missing from the schema stops the gate. */
  lemma GateOfLoaded(
      schema: Schema, ops: TextOps, m: Matcher, raw: seq<Source>, relabelled: seq<Source>, order: seq<string>)
    requires Lawful(ops) && RelabelledFrom(schema, ops, m, raw, relabelled) && AllKeep(schema, relabelled)
    requires SourceTuples(schema, ops, relabelled).Ok?
    requires Enumerates(order, UpsertAll(map[], SourceTuples(schema, ops, relabelled).value))
    ensures var train, validation :=
        Finished(schema, ops, m, relabelled, order, false), Finished(schema, ops, m, relabelled, order, true);
      && train.Ok? && validation.Ok?
      && |train.value.rows| + |validation.value.rows| == |UpsertAll(map[], SourceTuples(schema, ops, relabelled).value)|
      && (CleanAudit(train.value.report, validation.value.report)
          <==> forall k :: InputKey(ops, raw, k) ==> WithinSchema(schema, m, k))
  {
    var good, keys := (t: Tuple) => CarriesFlagged(schema, m, t), (k: string) => InputKey(ops, raw, k);
    TuplesOfRelabelled(schema, ops, m, raw, relabelled, good, keys);
    var tuples := SourceTuples(schema, ops, relabelled).value;
    var table := UpsertAll(map[], tuples);
    MergedTableIsGood(schema, ops, relabelled);
    FinishIsClean(schema, ops, m, table, order);
    CoverageOfRelabelled(schema, m, tuples, good, keys);
    CoverageOfTable(schema, m, table, keys);
  }

  /** Main result. Whatever the input rows are, once every source has been relabelled, the run passes the gate if and
      only if the schema has every label that the matcher flags on some input text, and has SAFE unless every
      relabelled record keeps another label. Without the latter, loading stops; otherwise nothing raises, and
      duplicates, overlaps and structural issues never occur. Holds for every matcher, every text normalisation
      with the two laws, and every key order. */
  lemma GatePassesIffSchemaCovers(
      schema: Schema, ops: TextOps, m: Matcher, raw: seq<Source>, relabelled: seq<Source>, order: seq<string>)
    requires Lawful(ops) && RelabelledFrom(schema, ops, m, raw, relabelled)
    requires SourceTuples(schema, ops, relabelled).Ok? ==>
      Enumerates(order, UpsertAll(map[], SourceTuples(schema, ops, relabelled).value))
    ensures SourceTuples(schema, ops, relabelled).Ok? <==> AllKeep(schema, relabelled)
    ensures AllKeep(schema, relabelled) ==>
      var train, validation :=
        Finished(schema, ops, m, relabelled, order, false), Finished(schema, ops, m, relabelled, order, true);
      && train.Ok? && validation.Ok?
      && |train.value.rows| + |validation.value.rows| == |UpsertAll(map[], SourceTuples(schema, ops, relabelled).value)|
    ensures Passes(schema, ops, m, relabelled, order)
      <==> AllKeep(schema, relabelled) && forall k :: InputKey(ops, raw, k) ==> WithinSchema(schema, m, k)
  {
    LoadsIffAllKeep(schema, ops, m, raw, relabelled);
    if AllKeep(schema, relabelled) {
      GateOfLoaded(schema, ops, m, raw, relabelled, order);
    }
  }

  ghost predicate CoverageAt(schema: Schema, m: Matcher, table: Table, keys: string -> bool, k: string) {
    && (k in table <==> keys(k))
    && (k in table ==> (Covered(schema, m, k, table[k]) <==> WithinSchema(schema, m, k)))
  }

  lemma CoverageOfTable(schema: Schema, m: Matcher, table: Table, keys: string -> bool)
    requires forall k :: CoverageAt(schema, m, table, keys, k)
    ensures (forall k :: k in table ==> Covered(schema, m, k, table[k]))
      <==> (forall k :: keys(k) ==> WithinSchema(schema, m, k))
  {
    if forall k :: k in table ==> Covered(schema, m, k, table[k]) {
      forall k | keys(k) ensures WithinSchema(schema, m, k) {
        assert CoverageAt(schema, m, table, keys, k);
      }
    }
    if forall k :: keys(k) ==> WithinSchema(schema, m, k) {
      forall k | k in table ensures Covered(schema, m, k, table[k]) {
        assert CoverageAt(schema, m, table, keys, k);
      }
    }
  }

  lemma CoverageOfRelabelled(schema: Schema, m: Matcher, tuples: seq<Tuple>, good: Tuple -> bool, keys: string -> bool)
    requires Faithful(tuples, good, keys)
    requires forall t :: good(t) ==> CarriesFlagged(schema, m, t)
    ensures forall k :: CoverageAt(schema, m, UpsertAll(map[], tuples), keys, k)
  {
    forall k ensures CoverageAt(schema, m, UpsertAll(map[], tuples), keys, k) {
      RelabelledKeyIsCovered(schema, m, tuples, k, good, keys);
    }
  }

  // ---------------------------------------------------------------- which split a text is written to

  /** Some source has the key in its validation file. */
  predicate InValidation(ops: TextOps, sources: seq<Source>, key: string) {
    exists i :: 0 <= i < |sources| && FileKey(ops, sources[i].validation, key)
  }

  lemma TupleKey(schema: Schema, ops: TextOps, row: RawRow, split: nat, rank: nat)
    requires Lawful(ops) && TupleOf(schema, ops, row, split, rank).Ok?
    ensures var t := TupleOf(schema, ops, row, split, rank).value;
      t.key == ops.normalize(RawText(row)) && t.entry.split == split && t.entry.rank == rank
  {
  }

  /** The tuples of a file have the keys of its records, and carry the split they were read for. */
  lemma TuplesOfFile(schema: Schema, ops: TextOps, lines: seq<Line>, split: nat, rank: nat)
    requires Lawful(ops) && FileTuples(schema, ops, lines, split, rank).Ok?
    ensures var tuples := FileTuples(schema, ops, lines, split, rank).value;
      && (forall t :: t in tuples ==> FileKey(ops, lines, t.key) && t.entry.split == split)
      && (forall k :: FileKey(ops, lines, k) ==> exists t :: t in tuples && t.key == k)
  {
    var read := TupleLines(schema, ops, lines, split, rank);
    var tuples := FileTuples(schema, ops, lines, split, rank).value;
    CollectedFrom(read);
    forall t | t in tuples ensures FileKey(ops, lines, t.key) && t.entry.split == split {
      var i :| 0 <= i < |read| && read[i] == Some(Ok(t));
      TupleKey(schema, ops, lines[i].row, split, rank);
    }
    forall k | FileKey(ops, lines, k) ensures exists t :: t in tuples && t.key == k {
      var i :| 0 <= i < |lines| && lines[i].Record? && ops.normalize(RawText(lines[i].row)) == k;
      assert read[i].value.Ok?;
      TupleKey(schema, ops, lines[i].row, split, rank);
      assert read[i] == Some(Ok(read[i].value.value));
    }
  }

  lemma TuplesOfSource(schema: Schema, ops: TextOps, source: Source, rank: nat)
    requires Lawful(ops) && OneSource(schema, ops, source, rank).Ok?
    ensures var tuples := OneSource(schema, ops, source, rank).value;
      && (forall t :: t in tuples ==>
            (t.entry.split == TRAIN_MASK && FileKey(ops, source.train, t.key))
            || (t.entry.split == VALIDATION_MASK && FileKey(ops, source.validation, t.key)))
      && (forall k :: FileKey(ops, source.train, k) ==> exists t :: t in tuples && t.key == k)
      && (forall k :: FileKey(ops, source.validation, k) ==>
            exists t :: t in tuples && t.key == k && t.entry.split == VALIDATION_MASK)
  {
    TuplesOfFile(schema, ops, source.train, TRAIN_MASK, rank);
    TuplesOfFile(schema, ops, source.validation, VALIDATION_MASK, rank);
  }

  /** Every tuple of the sources has a key of a training or of a validation file, with the mask of that split. */
  lemma TupleOfSources(schema: Schema, ops: TextOps, sources: seq<Source>, t: Tuple)
    requires Lawful(ops) && SourceTuples(schema, ops, sources).Ok? && t in SourceTuples(schema, ops, sources).value
    ensures InputKey(ops, sources, t.key)
    ensures t.entry.split == TRAIN_MASK || (t.entry.split == VALIDATION_MASK && InValidation(ops, sources, t.key))
  {
    var read := EachSource(schema, ops, sources);
    var parts := Collect(read).value;
    CollectedFrom(read);
    CollectAll(read);
    FlattenMembers(parts);
    var i :| 0 <= i < |parts| && t in parts[i];
    assert read[i] == Some(Ok(parts[i]));
    TuplesOfSource(schema, ops, sources[i], i);
    assert SourceKey(ops, sources[i], t.key);
  }

  /** Every key of a file has a tuple, and every key of a validation file one with that mask. */
  lemma TupleForSources(schema: Schema, ops: TextOps, sources: seq<Source>, i: nat, key: string) returns (t: Tuple)
    requires Lawful(ops) && SourceTuples(schema, ops, sources).Ok? && i < |sources| && SourceKey(ops, sources[i], key)
    ensures t in SourceTuples(schema, ops, sources).value && t.key == key
    ensures FileKey(ops, sources[i].validation, key) ==> t.entry.split == VALIDATION_MASK
  {
    var read := EachSource(schema, ops, sources);
    var parts := Collect(read).value;
    CollectedFrom(read);
    CollectAll(read);
    FlattenMembers(parts);
    assert read[i] == Some(Ok(parts[i]));
    TuplesOfSource(schema, ops, sources[i], i);
    if FileKey(ops, sources[i].validation, key) {
      t :| t in parts[i] && t.key == key && t.entry.split == VALIDATION_MASK;
    } else {
      t :| t in parts[i] && t.key == key;
    }
  }

  lemma SplitBits()
    ensures Bit(TRAIN_MASK, 0) && !Bit(TRAIN_MASK, 1) && !Bit(VALIDATION_MASK, 0) && Bit(VALIDATION_MASK, 1)
  {
  }

  /** The table has the keys of the files, and holds a key for validation exactly when a validation file has it. */
  lemma SplitOfKey(schema: Schema, ops: TextOps, sources: seq<Source>, key: string)
    requires Lawful(ops) && SourceTuples(schema, ops, sources).Ok?
    ensures var table := UpsertAll(map[], SourceTuples(schema, ops, sources).value);
      && (key in table <==> InputKey(ops, sources, key))
      && (key in table ==> (InSplit(table[key], true) <==> InValidation(ops, sources, key)))
  {
    var tuples := SourceTuples(schema, ops, sources).value;
    MergedKeys(tuples, key);
    SplitBits();
    if exists i :: HasKey(tuples, i, key) {
      var i :| HasKey(tuples, i, key);
      TupleOfSources(schema, ops, sources, tuples[i]);
    }
    if InputKey(ops, sources, key) {
      var i :| 0 <= i < |sources| && SourceKey(ops, sources[i], key);
      var t := TupleForSources(schema, ops, sources, i, key);
      var j :| 0 <= j < |tuples| && tuples[j] == t;
      assert HasKey(tuples, j, key);
      ValidationBit(schema, ops, sources, key);
    }
  }

  lemma ValidationBit(schema: Schema, ops: TextOps, sources: seq<Source>, key: string)
    requires Lawful(ops) && SourceTuples(schema, ops, sources).Ok?
    requires key in UpsertAll(map[], SourceTuples(schema, ops, sources).value)
    ensures Bit(UpsertAll(map[], SourceTuples(schema, ops, sources).value)[key].split, 1) <==> InValidation(ops, sources, key)
  {
    var tuples := SourceTuples(schema, ops, sources).value;
    MergedSplit(tuples, key, 1);
    SplitBits();
    if exists i :: SetsSplit(tuples, i, key, 1) {
      var i :| SetsSplit(tuples, i, key, 1);
      TupleOfSources(schema, ops, sources, tuples[i]);
    }
    if InValidation(ops, sources, key) {
      var i :| 0 <= i < |sources| && FileKey(ops, sources[i].validation, key);
      var t := TupleForSources(schema, ops, sources, i, key);
      var j :| 0 <= j < |tuples| && tuples[j] == t;
      assert SetsSplit(tuples, j, key, 1);
    }
  }

  /** The validation split gets exactly the keys of the validation files, the training split all other input keys. */
  lemma SplitsOfSources(schema: Schema, ops: TextOps, sources: seq<Source>, order: seq<string>, key: string)
    requires Lawful(ops) && SourceTuples(schema, ops, sources).Ok?
    requires Enumerates(order, UpsertAll(map[], SourceTuples(schema, ops, sources).value))
    ensures var table := UpsertAll(map[], SourceTuples(schema, ops, sources).value);
      && (key in SplitKeys(table, order, true) <==> InValidation(ops, sources, key))
      && (key in SplitKeys(table, order, false) <==> InputKey(ops, sources, key) && !InValidation(ops, sources, key))
  {
    var table := UpsertAll(map[], SourceTuples(schema, ops, sources).value);
    SplitKeysMeaning(table, order, true);
    SplitKeysMeaning(table, order, false);
    SplitOfKey(schema, ops, sources, key);
    if InValidation(ops, sources, key) {
      var i :| 0 <= i < |sources| && FileKey(ops, sources[i].validation, key);
      assert SourceKey(ops, sources[i], key);
    }
  }

  /** Some written row has this normalised text. */
  predicate HasText(ops: TextOps, rows: seq<Row>, key: string) {
    exists i :: 0 <= i < |rows| && ops.normalize(rows[i].text) == key
  }

  /** The rows of a finished split are its keys' output rows. */
  lemma FinishedRows(schema: Schema, ops: TextOps, m: Matcher, table: Table, keys: seq<string>)
    requires Lawful(ops) && GoodTable(ops, table)
    requires forall k :: k in keys ==> k in table
    requires forall i, j :: 0 <= i < j < |keys| ==> keys[i] != keys[j]
    ensures FinishSplit(schema, ops, m, table, keys).Ok?
    ensures WritesRows(schema, ops, table, keys, FinishSplit(schema, ops, m, table, keys).value.rows)
  {
    SplitIsGood(schema, ops, m, table, keys);
    var rows := SplitRows(schema, ops, table, keys).value;
    WrittenRowsAreAuditable(schema, ops, m, table, keys, rows);
    FinishOfGood(schema, ops, m, table, keys, rows);
  }

  lemma TextsOfRows(schema: Schema, ops: TextOps, m: Matcher, table: Table, keys: seq<string>, rows: seq<Row>, key: string)
    requires WritesRows(schema, ops, table, keys, rows)
    ensures HasText(ops, rows, key) <==> key in keys
  {
    forall i | 0 <= i < |rows| ensures ops.normalize(rows[i].text) == keys[i] {
      WrittenRowIsGood(schema, ops, m, table, keys, rows, i);
    }
    if key in keys {
      var i :| 0 <= i < |keys| && keys[i] == key;
      assert ops.normalize(rows[i].text) == key;
    }
  }

  lemma TextsOfSplit(schema: Schema, ops: TextOps, m: Matcher, table: Table, keys: seq<string>, key: string)
    requires Lawful(ops) && GoodTable(ops, table)
    requires forall k :: k in keys ==> k in table
    requires forall i, j :: 0 <= i < j < |keys| ==> keys[i] != keys[j]
    ensures FinishSplit(schema, ops, m, table, keys).Ok?
    ensures HasText(ops, FinishSplit(schema, ops, m, table, keys).value.rows, key) <==> key in keys
  {
    FinishedRows(schema, ops, m, table, keys);
    TextsOfRows(schema, ops, m, table, keys, FinishSplit(schema, ops, m, table, keys).value.rows, key);
  }

  /** So do the written files: a text is in the validation file exactly when some validation file had it, and in the
      training file exactly when only training files did. */
  lemma WrittenSplitsOfSources(
      schema: Schema, ops: TextOps, m: Matcher, sources: seq<Source>, order: seq<string>, key: string)
    requires Lawful(ops) && SourceTuples(schema, ops, sources).Ok?
    requires Enumerates(order, UpsertAll(map[], SourceTuples(schema, ops, sources).value))
    ensures var train, validation :=
        Finished(schema, ops, m, sources, order, false), Finished(schema, ops, m, sources, order, true);
      && train.Ok? && validation.Ok?
      && (HasText(ops, validation.value.rows, key) <==> InValidation(ops, sources, key))
      && (HasText(ops, train.value.rows, key) <==> InputKey(ops, sources, key) && !InValidation(ops, sources, key))
  {
    var table := UpsertAll(map[], SourceTuples(schema, ops, sources).value);
    MergedTableIsGood(schema, ops, sources);
    SplitKeysMeaning(table, order, true);
    SplitKeysMeaning(table, order, false);
    TextsOfSplit(schema, ops, m, table, SplitKeys(table, order, true), key);
    TextsOfSplit(schema, ops, m, table, SplitKeys(table, order, false), key);
    SplitsOfSources(schema, ops, sources, order, key);
  }

  /** Relabelling keeps the texts of a file. */
  lemma RelabelledFileKeys(schema: Schema, ops: TextOps, m: Matcher, lines: seq<Line>, key: string)
    requires Lawful(ops) && RelabelAll(schema, ops, m, lines).Ok?
    ensures FileKey(ops, WrittenLines(RelabelAll(schema, ops, m, lines).value), key) <==> FileKey(ops, lines, key)
  {
    var rows := RelabelAll(schema, ops, m, lines).value;
    var written := WrittenLines(rows);
    if FileKey(ops, written, key) {
      var j :| 0 <= j < |written| && written[j].Record? && ops.normalize(RawText(written[j].row)) == key;
      var i := RowOfFile(schema, ops, m, lines, rows, j);
      RelabelledText(schema, ops, m, lines[i].row);
    }
    if FileKey(ops, lines, key) {
      var i :| 0 <= i < |lines| && lines[i].Record? && ops.normalize(RawText(lines[i].row)) == key;
      var j := FileOfRow(schema, ops, m, lines, rows, i);
      RelabelledText(schema, ops, m, lines[i].row);
      assert written[j] == Record(Written(rows[j]));
    }
  }

  lemma RelabelledText(schema: Schema, ops: TextOps, m: Matcher, row: RawRow)
    requires Lawful(ops) && RelabelRow(schema, ops, m, row).Ok?
    ensures ops.normalize(RawText(Written(RelabelRow(schema, ops, m, row).value))) == ops.normalize(RawText(row))
  {
  }

  /** And so the raw sources decide which text is written where. */
  lemma RelabelledSplits(schema: Schema, ops: TextOps, m: Matcher, raw: seq<Source>, relabelled: seq<Source>, key: string)
    requires Lawful(ops) && RelabelledFrom(schema, ops, m, raw, relabelled)
    ensures InValidation(ops, relabelled, key) <==> InValidation(ops, raw, key)
    ensures InputKey(ops, relabelled, key) <==> InputKey(ops, raw, key)
  {
    forall i | 0 <= i < |raw|
      ensures FileKey(ops, relabelled[i].validation, key) <==> FileKey(ops, raw[i].validation, key)
      ensures SourceKey(ops, relabelled[i], key) <==> SourceKey(ops, raw[i], key)
    {
      RelabelledFileKeys(schema, ops, m, raw[i].train, key);
      RelabelledFileKeys(schema, ops, m, raw[i].validation, key);
    }
  }

  // ---------------------------------------------------------------- what a written row says about its records

  lemma PackedRow(schema: Schema, row: Row, l: Label)
    requires RowToMask(schema, Written(row)).Ok? && l != SAFE && forall x :: x in row.labelNames ==> x in schema.labels
    ensures l in Selected(schema, RowToMask(schema, Written(row)).value) <==> l in row.labelNames
  {
    ReadWritten(schema, row);
    NormalizeSafeMeaning(Carried(row));
    SelectedOfMask(schema, NormalizeSafe(Carried(row)));
  }

  /** A tuple has the text, severity and harmful labels of the record it was read from. */
  lemma TupleMeaning(schema: Schema, ops: TextOps, row: RawRow, split: nat, rank: nat, l: Label)
    requires Lawful(ops) && TupleOf(schema, ops, row, split, rank).Ok? && l != SAFE
    ensures NormalizePlain(schema, ops, row).Ok?
    ensures var t, out := TupleOf(schema, ops, row, split, rank).value, NormalizePlain(schema, ops, row).value;
      && t.entry.text == out.text && t.entry.severity == out.severity
      && (l in Selected(schema, t.entry.mask) <==> l in out.labelNames)
  {
    NormalizedLabels(schema, ops, row, {}, 0, None);
    PackedRow(schema, NormalizePlain(schema, ops, row).value, l);
  }

  /** What is written for a key: the text of the first tuple of lowest rank, the harmful labels of all its tuples, and the
      largest of their severities unless the row is SAFE alone. */
  ghost predicate Summarizes(schema: Schema, ops: TextOps, tuples: seq<Tuple>, key: string, row: Row) {
    && (exists w :: HasKey(tuples, w, key) && row.text == ops.strip(tuples[w].entry.text)
          && (forall i :: HasKey(tuples, i, key) ==> tuples[w].entry.rank <= tuples[i].entry.rank)
          && (forall i :: HasKey(tuples, i, key) && i < w ==> tuples[w].entry.rank < tuples[i].entry.rank))
    && (forall l :: l != SAFE ==>
          (l in row.labelNames <==> exists t :: t in tuples && t.key == key && l in Selected(schema, t.entry.mask)))
    && (row.labelNames == [SAFE] ==> row.severity == 0)
    && (row.labelNames != [SAFE] ==>
          && (forall i :: HasKey(tuples, i, key) ==> tuples[i].entry.severity <= row.severity)
          && (exists i :: HasKey(tuples, i, key) && tuples[i].entry.severity == row.severity))
  }

  lemma OutputSummarizes(schema: Schema, ops: TextOps, tuples: seq<Tuple>, key: string, id: nat)
    requires Lawful(ops) && GoodTuples(ops, tuples) && key in UpsertAll(map[], tuples)
    ensures OutputRow(schema, ops, UpsertAll(map[], tuples)[key], id).Ok?
    ensures Summarizes(schema, ops, tuples, key, OutputRow(schema, ops, UpsertAll(map[], tuples)[key], id).value)
  {
    var e := UpsertAll(map[], tuples)[key];
    MergedEntryIsGood(ops, tuples, key);
    OutputRowIsStable(schema, ops, key, e, id);
    var raw := OutputRaw(schema, ops, e, id);
    NormalizedSeverity(schema, ops, raw, {}, 0, None);
    var w := MergedText(tuples, key);
    var v := MergedSeverity(tuples, key);
    assert GoodEntry(ops, tuples[v].key, tuples[v].entry);
    var row := OutputRow(schema, ops, e, id).value;
    forall l | l != SAFE
      ensures l in row.labelNames <==> exists t :: t in tuples && t.key == key && l in Selected(schema, t.entry.mask)
    {
      OutputLabel(schema, ops, e, id, l);
      LabelOfKey(schema, tuples, key, l);
    }
  }

  lemma LabelOfKey(schema: Schema, tuples: seq<Tuple>, key: string, l: Label)
    requires key in UpsertAll(map[], tuples)
    ensures l in Selected(schema, UpsertAll(map[], tuples)[key].mask)
      <==> exists t :: t in tuples && t.key == key && l in Selected(schema, t.entry.mask)
  {
    if l in schema.labels {
      MergedSelected(schema, tuples, key, l);
    }
  }

  lemma SummaryOfRow(
      schema: Schema, ops: TextOps, m: Matcher, tuples: seq<Tuple>, keys: seq<string>, rows: seq<Row>, i: nat)
    requires GoodTuples(ops, tuples) && WritesRows(schema, ops, UpsertAll(map[], tuples), keys, rows) && i < |rows|
    ensures Summarizes(schema, ops, tuples, ops.normalize(rows[i].text), rows[i]) && rows[i].id == IntId(i + 1)
  {
    WrittenRowIsGood(schema, ops, m, UpsertAll(map[], tuples), keys, rows, i);
    assert keys[i] in keys;
    OutputSummarizes(schema, ops, tuples, keys[i], i + 1);
  }

  /** Every row of a finished split is the summary of its key's records, and is numbered by its place. */
  lemma WrittenRowsSummarize(
      schema: Schema, ops: TextOps, m: Matcher, sources: seq<Source>, order: seq<string>, validation: bool, i: nat)
    requires Lawful(ops) && SourceTuples(schema, ops, sources).Ok?
    requires Enumerates(order, UpsertAll(map[], SourceTuples(schema, ops, sources).value))
    ensures var finished := Finished(schema, ops, m, sources, order, validation);
      && finished.Ok?
      && (i < |finished.value.rows| ==>
            var row := finished.value.rows[i];
            && Summarizes(schema, ops, SourceTuples(schema, ops, sources).value, ops.normalize(row.text), row)
            && row.id == IntId(i + 1))
  {
    var tuples := SourceTuples(schema, ops, sources).value;
    var table := UpsertAll(map[], tuples);
    var keys := SplitKeys(table, order, validation);
    MergedTableIsGood(schema, ops, sources);
    SourceTuplesAreGood(schema, ops, sources);
    SplitKeysMeaning(table, order, validation);
    FinishedRows(schema, ops, m, table, keys);
    if i < |FinishSplit(schema, ops, m, table, keys).value.rows| {
      SummaryOfRow(schema, ops, m, tuples, keys, FinishSplit(schema, ops, m, table, keys).value.rows, i);
    }
  }
}
