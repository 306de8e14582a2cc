/** Dataset rows and the schema that normalises, validates and packs their labels. */
module DatasetSchema {
  import opened Wrappers
  import opened ModerationLabels
  import opened BitMasks

  /** Outer-whitespace stripping, and the text normalisation that dataset keys are made of. */
  datatype TextOps = TextOps(strip: string -> string, normalize: string -> string)

  ghost predicate Lawful(ops: TextOps) {
    forall s {:trigger ops.strip(s)} ::
      ops.strip(ops.strip(s)) == ops.strip(s) && ops.normalize(ops.strip(s)) == ops.normalize(s)
  }

  datatype Schema = Schema(labels: seq<Label>)

  ghost predicate ValidSchema(schema: Schema) {
    forall i, j :: 0 <= i < j < |schema.labels| ==> schema.labels[i] != schema.labels[j]
  }

  /** The record id as the auditor compares it: its type together with its value. */
  datatype RowId = IntId(n: int) | StrId(s: string)

  /** A name in a row: one of the labels, or something else. */
  datatype LabelName = Known(l: Label) | Unknown(name: string)

  /** A row as read from a file, where any field may be missing. */
  datatype RawRow = RawRow(
    text: Option<string>,
    labelNames: Option<seq<LabelName>>,
    severity: Option<int>,
    id: Option<RowId>,
    vector: Option<seq<real>>,
    primary: Option<LabelName>)

  /** A row as the schema writes it. */
  datatype Row = Row(
    text: string,
    vector: seq<real>,
    labelNames: seq<Label>,
    primary: Label,
    severity: int,
    id: RowId)

  /** One line of a JSONL file. */
  datatype Line = Blank | Malformed | Record(row: RawRow)

  function Written(row: Row): RawRow {
    RawRow(Some(row.text), Some(KnownNames(row.labelNames)), Some(row.severity), Some(row.id),
           Some(row.vector), Some(Known(row.primary)))
  }

  function KnownNames(labels: seq<Label>): (r: seq<LabelName>)
    ensures |r| == |labels| && forall i :: 0 <= i < |r| ==> r[i] == Known(labels[i])
  {
    seq(|labels|, i requires 0 <= i < |labels| => Known(labels[i]))
  }

  // ---------------------------------------------------------------- label sets

  /** SAFE stands alone: it leaves when anything else is selected, and fills an empty selection. */
  function NormalizeSafe(labels: set<Label>): set<Label> {
    var kept := if |labels| > 1 then labels - {SAFE} else labels;
    if kept == {} then {SAFE} else kept
  }

  /** SAFE is selected exactly when nothing else is. */
  lemma NormalizeSafeMeaning(labels: set<Label>)
    ensures forall l :: l in NormalizeSafe(labels) <==> if l == SAFE then labels <= {SAFE} else l in labels
  {
    if |labels| > 1 {
      if labels <= {SAFE} {
        SubsetOfOne(labels);
      }
      assert labels - {SAFE} != {};
    } else if |labels| == 1 {
      var x :| x in labels;
      assert |labels - {x}| == 0;
      assert labels == {x};
    } else {
      assert labels == {};
    }
  }

  lemma SubsetOfOne(labels: set<Label>)
    requires labels <= {SAFE}
    ensures |labels| <= 1
  {
    if SAFE in labels {
      assert labels == {SAFE};
    } else {
      assert labels == {};
    }
  }

  /** The selected labels in schema order; labels outside the schema are dropped. */
  function Ordered(labels: seq<Label>, selected: set<Label>): seq<Label> {
    if labels == [] then []
    else (if labels[0] in selected then [labels[0]] else []) + Ordered(labels[1..], selected)
  }

  lemma {:induction false} OrderedMeaning(labels: seq<Label>, selected: set<Label>)
    ensures forall l :: l in Ordered(labels, selected) <==> l in labels && l in selected
  {
    if labels != [] {
      OrderedMeaning(labels[1..], selected);
      assert labels == [labels[0]] + labels[1..];
    }
  }

  /** Only membership among the schema labels matters to the order. */
  lemma {:induction false} OrderedSame(labels: seq<Label>, a: set<Label>, b: set<Label>)
    requires forall l :: l in labels ==> (l in a <==> l in b)
    ensures Ordered(labels, a) == Ordered(labels, b)
  {
    if labels != [] {
      assert labels == [labels[0]] + labels[1..];
      OrderedSame(labels[1..], a, b);
    }
  }

  function Vector(schema: Schema, selected: set<Label>): seq<real> {
    seq(|schema.labels|, i requires 0 <= i < |schema.labels| => if schema.labels[i] in selected then 1.0 else 0.0)
  }

  // ---------------------------------------------------------------- rows

  predicate ReadableName(schema: Schema, name: LabelName) {
    name.Known? && name.l in schema.labels
  }

  /** The labels a row names: every name must be in the schema, and no names mean SAFE. */
  function ReadLabels(schema: Schema, row: RawRow): Result<set<Label>> {
    match row.labelNames
    case None => Err(ValueError)
    case Some(names) =>
      if exists i :: 0 <= i < |names| && !ReadableName(schema, names[i]) then Err(ValueError)
      else
        var selected := set i | 0 <= i < |names| && names[i].Known? :: names[i].l;
        Ok(if selected == {} then {SAFE} else selected)
  }

  method ReadLabelsLoop(schema: Schema, row: RawRow) returns (r: Result<set<Label>>)
    ensures r == ReadLabels(schema, row)
  {
    if row.labelNames.None? {
      return Err(ValueError);
    }
    var names := row.labelNames.value;
    var selected: set<Label> := {};
    for k := 0 to |names|
      invariant forall i :: 0 <= i < k ==> ReadableName(schema, names[i])
      invariant selected == set i | 0 <= i < k && names[i].Known? :: names[i].l
    {
      if !names[k].Known? || names[k].l !in schema.labels {
        assert !ReadableName(schema, names[k]);
        return Err(ValueError);
      }
      selected := selected + {names[k].l};
    }
    if selected == {} {
      selected := {SAFE};
    }
    return Ok(selected);
  }

  function NormalizeRow(
      schema: Schema, ops: TextOps, row: RawRow, added: set<Label>, minimumSeverity: int, recordId: Option<RowId>
    ): Result<Row>
  {
    if row.text.None? || ops.strip(row.text.value) == "" then Err(ValueError)
    else
      var read := ReadLabels(schema, row);
      if read.Err? then Err(read.error)
      else
        var id := if recordId.Some? then recordId else row.id;
        if id.None? then Err(ValueError)
        else
          var given := if row.severity.Some? then row.severity.value else 0;
          var severity := if given > minimumSeverity then given else minimumSeverity;
          Ok(Assembled(schema, ops.strip(row.text.value), NormalizeSafe(read.value + added), severity, id.value))
  }

  function Assembled(schema: Schema, text: string, selected: set<Label>, severity: int, id: RowId): Row {
    var ordered := Ordered(schema.labels, selected);
    Row(text, Vector(schema, selected), ordered, ResolvePrimaryLabel(ordered), if ordered == [SAFE] then 0 else severity, id)
  }

  function NormalizePlain(schema: Schema, ops: TextOps, row: RawRow): Result<Row> {
    NormalizeRow(schema, ops, row, {}, 0, None)
  }

  function BuildRow(schema: Schema, ops: TextOps, text: string, labels: seq<Label>, severity: int, id: RowId): Result<Row> {
    NormalizePlain(schema, ops, RawRow(Some(text), Some(KnownNames(labels)), Some(severity), Some(id), None, None))
  }

  predicate VectorMismatch(row: RawRow, normalized: Row) {
    row.vector != Some(normalized.vector)
  }

  predicate PrimaryMismatch(row: RawRow, normalized: Row) {
    row.primary != Some(Known(normalized.primary))
  }

  predicate SeverityMismatch(row: RawRow, normalized: Row) {
    (if row.severity.Some? then row.severity.value else 0) != normalized.severity
  }

  function ValidateRow(schema: Schema, ops: TextOps, row: RawRow): Result<()> {
    var normalized := NormalizePlain(schema, ops, row);
    if normalized.Err? then Err(normalized.error)
    else if VectorMismatch(row, normalized.value) || PrimaryMismatch(row, normalized.value)
         || SeverityMismatch(row, normalized.value) then Err(ValueError)
    else Ok(())
  }

  /** A row validates when it normalises to the vector, primary label and severity it states, where a missing severity
      states zero. */
  lemma ValidateMeaning(schema: Schema, ops: TextOps, row: RawRow)
    ensures ValidateRow(schema, ops, row) == Ok(())
      <==> NormalizePlain(schema, ops, row).Ok?
           && var out := NormalizePlain(schema, ops, row).value;
              && row.vector == Some(out.vector) && row.primary == Some(Known(out.primary))
              && (row.severity == Some(out.severity) || (row.severity == None && out.severity == 0))
    ensures NormalizePlain(schema, ops, row).Err? ==> ValidateRow(schema, ops, row) == Err(NormalizePlain(schema, ops, row).error)
  {
  }

  /** The labels a written row carries. */
  function Carried(row: Row): set<Label> {
    if row.labelNames == [] then {SAFE} else set l | l in row.labelNames
  }

  lemma ReadNames(schema: Schema, row: RawRow, labels: seq<Label>)
    requires row.labelNames == Some(KnownNames(labels))
    requires forall l :: l in labels ==> l in schema.labels
    ensures ReadLabels(schema, row) == Ok(if labels == [] then {SAFE} else set l | l in labels)
  {
    var names := KnownNames(labels);
    assert !exists i :: 0 <= i < |names| && !ReadableName(schema, names[i]);
    var selected := set i | 0 <= i < |names| && names[i].Known? :: names[i].l;
    forall l | l in labels ensures l in selected {
      var i :| 0 <= i < |labels| && labels[i] == l;
      assert names[i].l == l;
    }
    assert selected == set l | l in labels;
    if labels != [] {
      assert labels[0] in selected;
    }
  }

  lemma ReadWritten(schema: Schema, row: Row)
    requires forall l :: l in row.labelNames ==> l in schema.labels
    ensures ReadLabels(schema, Written(row)) == Ok(Carried(row))
  {
    ReadNames(schema, Written(row), row.labelNames);
  }

  lemma NormalizedLabels(schema: Schema, ops: TextOps, row: RawRow, added: set<Label>, minimumSeverity: int, recordId: Option<RowId>)
    requires NormalizeRow(schema, ops, row, added, minimumSeverity, recordId).Ok?
    ensures var out := NormalizeRow(schema, ops, row, added, minimumSeverity, recordId).value;
      && (forall l :: l in out.labelNames <==>
           l in schema.labels && l in NormalizeSafe(ReadLabels(schema, row).value + added))
  {
    OrderedMeaning(schema.labels, NormalizeSafe(ReadLabels(schema, row).value + added));
  }

  /** A row with SAFE alone has no severity; any other has the larger of its own, zero when it gives none, and the minimum. */
  lemma NormalizedSeverity(schema: Schema, ops: TextOps, row: RawRow, added: set<Label>, minimumSeverity: int, recordId: Option<RowId>)
    requires NormalizeRow(schema, ops, row, added, minimumSeverity, recordId).Ok?
    ensures var out := NormalizeRow(schema, ops, row, added, minimumSeverity, recordId).value;
      var given := if row.severity.Some? then row.severity.value else 0;
      && (out.labelNames == [SAFE] ==> out.severity == 0)
      && (out.labelNames != [SAFE] ==>
            out.severity >= given && out.severity >= minimumSeverity && (out.severity == given || out.severity == minimumSeverity))
  {
  }

  /** The other fields: the stripped text, a one in the vector for exactly the labels that are named, the primary label by
      priority, and the given id before the row's own. */
  lemma NormalizedFields(schema: Schema, ops: TextOps, row: RawRow, added: set<Label>, minimumSeverity: int, recordId: Option<RowId>)
    requires NormalizeRow(schema, ops, row, added, minimumSeverity, recordId).Ok?
    ensures var out := NormalizeRow(schema, ops, row, added, minimumSeverity, recordId).value;
      && row.text.Some? && out.text == ops.strip(row.text.value) != ""
      && |out.vector| == |schema.labels|
      && (forall i :: 0 <= i < |schema.labels| ==>
            out.vector[i] == if schema.labels[i] in out.labelNames then 1.0 else 0.0)
      && (out.labelNames != [] ==> out.primary in out.labelNames)
      && (forall l :: l in out.labelNames ==> Priority(out.primary) <= Priority(l))
      && Some(out.id) == if recordId.Some? then recordId else row.id
  {
    OrderedMeaning(schema.labels, NormalizeSafe(ReadLabels(schema, row).value + added));
  }

  /** The normalised labels that belong to the schema are normal themselves. */
  lemma KeptIsNormal(labels: set<Label>, inSchema: set<Label>)
    requires NormalizeSafe(labels) * inSchema != {}
    ensures NormalizeSafe(NormalizeSafe(labels) * inSchema) == NormalizeSafe(labels) * inSchema
  {
    NormalizeSafeMeaning(labels);
    NormalizeSafeMeaning(NormalizeSafe(labels) * inSchema);
    if SAFE in NormalizeSafe(labels) {
      assert forall l :: l in NormalizeSafe(labels) ==> l == SAFE;
    }
  }

  lemma OrderedNames(schema: Schema, kept: set<Label>)
    ensures (set l | l in Ordered(schema.labels, kept)) == kept * (set l | l in schema.labels)
    ensures Ordered(schema.labels, kept) == [] <==> kept * (set l | l in schema.labels) == {}
  {
    var names := Ordered(schema.labels, kept);
    OrderedMeaning(schema.labels, kept);
    if names != [] {
      assert names[0] in kept * (set l | l in schema.labels);
    }
  }

  /** Only membership among the schema labels matters to the row. */
  lemma AssembledSame(schema: Schema, text: string, a: set<Label>, b: set<Label>, severity: int, id: RowId)
    requires a == b * (set l | l in schema.labels)
    ensures Assembled(schema, text, a, severity, id) == Assembled(schema, text, b, severity, id)
  {
    OrderedSame(schema.labels, a, b);
    assert Vector(schema, a) == Vector(schema, b);
  }

  /** The labels read back from a row are the normalised labels the schema has. */
  lemma CarriedAgain(schema: Schema, out: Row, labels: set<Label>)
    requires out.labelNames == Ordered(schema.labels, NormalizeSafe(labels)) && out.labelNames != []
    ensures ReadLabels(schema, Written(out)) == Ok(Carried(out))
    ensures NormalizeSafe(Carried(out) + {}) == NormalizeSafe(labels) * (set l | l in schema.labels)
  {
    var inSchema := set l | l in schema.labels;
    OrderedMeaning(schema.labels, NormalizeSafe(labels));
    OrderedNames(schema, NormalizeSafe(labels));
    ReadWritten(schema, out);
    assert Carried(out) + {} == NormalizeSafe(labels) * inSchema;
    KeptIsNormal(labels, inSchema);
  }

  lemma AssembledIsStable(schema: Schema, ops: TextOps, out: Row, labels: set<Label>)
    requires out == Assembled(schema, out.text, NormalizeSafe(labels), out.severity, out.id)
    requires out.text != "" && ops.strip(out.text) == out.text && out.severity >= 0 && out.labelNames != []
    ensures NormalizePlain(schema, ops, Written(out)) == Ok(out)
  {
    CarriedAgain(schema, out, labels);
    var kept := NormalizeSafe(labels) * (set l | l in schema.labels);
    AssembledSame(schema, out.text, kept, NormalizeSafe(labels), out.severity, out.id);
    NormalizedWritten(schema, ops, out, Carried(out), kept);
  }

  lemma NormalizedWritten(schema: Schema, ops: TextOps, out: Row, carried: set<Label>, kept: set<Label>)
    requires out.text != "" && ops.strip(out.text) == out.text && out.severity >= 0
    requires ReadLabels(schema, Written(out)) == Ok(carried) && NormalizeSafe(carried + {}) == kept
    ensures NormalizePlain(schema, ops, Written(out)) == Ok(Assembled(schema, out.text, kept, out.severity, out.id))
  {
  }

  lemma SameRowValidates(schema: Schema, ops: TextOps, out: Row)
    requires NormalizePlain(schema, ops, Written(out)) == Ok(out)
    ensures ValidateRow(schema, ops, Written(out)) == Ok(())
  {
  }

  /** A row without labels is read back as a safe one. */
  lemma EmptyRowIsRefused(schema: Schema, ops: TextOps, out: Row)
    requires SAFE in schema.labels && out.labelNames == []
    requires out.vector == Vector(schema, {})
    ensures ValidateRow(schema, ops, Written(out)) != Ok(())
  {
    ReadWritten(schema, out);
    var i := IndexOf(schema.labels, SAFE);
    assert Carried(out) + {} == {SAFE};
    NormalizeSafeMeaning({SAFE});
    assert Vector(schema, NormalizeSafe({SAFE}))[i] == 1.0 && Vector(schema, {})[i] == 0.0;
  }

  /** Unless the schema has SAFE, it stays a row without labels. */
  lemma EmptyRowStays(schema: Schema, ops: TextOps, out: Row)
    requires SAFE !in schema.labels && out.labelNames == [] && out == Assembled(schema, out.text, {}, out.severity, out.id)
    requires out.text != "" && ops.strip(out.text) == out.text && out.severity >= 0
    ensures NormalizePlain(schema, ops, Written(out)) == Ok(out)
  {
    ReadWritten(schema, out);
    NormalizeSafeMeaning({SAFE});
    assert Carried(out) + {} == {SAFE} == NormalizeSafe({SAFE});
    AssembledSame(schema, out.text, {}, {SAFE}, out.severity, out.id);
    NormalizedWritten(schema, ops, out, {SAFE}, {SAFE});
  }

  /** What the schema writes it accepts, and reads back unchanged, exactly when it has one of the labels
      the row ends up with, or does not have SAFE. */
  lemma WrittenRowValidatesIff(schema: Schema, ops: TextOps, row: RawRow, added: set<Label>, minimumSeverity: int, recordId: Option<RowId>)
    requires Lawful(ops) && minimumSeverity >= 0
    requires NormalizeRow(schema, ops, row, added, minimumSeverity, recordId).Ok?
    ensures var out := NormalizeRow(schema, ops, row, added, minimumSeverity, recordId).value;
      var some := exists l :: l in NormalizeSafe(ReadLabels(schema, row).value + added) && l in schema.labels;
      && (ValidateRow(schema, ops, Written(out)) == Ok(()) <==> some || SAFE !in schema.labels)
      && (NormalizePlain(schema, ops, Written(out)) == Ok(out) <==> some || SAFE !in schema.labels)
  {
    var out := NormalizeRow(schema, ops, row, added, minimumSeverity, recordId).value;
    var labels := ReadLabels(schema, row).value + added;
    RowIsAssembled(schema, ops, row, added, minimumSeverity, recordId);
    OrderedNames(schema, NormalizeSafe(labels));
    SomeKept(schema, NormalizeSafe(labels));
    if out.labelNames != [] {
      AssembledIsStable(schema, ops, out, labels);
      SameRowValidates(schema, ops, out);
    } else {
      AssembledSame(schema, out.text, {}, NormalizeSafe(labels), out.severity, out.id);
      EmptyRowValidatesIff(schema, ops, out);
    }
  }

  lemma EmptyRowValidatesIff(schema: Schema, ops: TextOps, out: Row)
    requires out.labelNames == [] && out == Assembled(schema, out.text, {}, out.severity, out.id)
    requires out.text != "" && ops.strip(out.text) == out.text && out.severity >= 0
    ensures ValidateRow(schema, ops, Written(out)) == Ok(()) <==> SAFE !in schema.labels
    ensures NormalizePlain(schema, ops, Written(out)) == Ok(out) <==> SAFE !in schema.labels
  {
    if SAFE in schema.labels {
      EmptyRowIsRefused(schema, ops, out);
      if NormalizePlain(schema, ops, Written(out)) == Ok(out) {
        SameRowValidates(schema, ops, out);
      }
    } else {
      EmptyRowStays(schema, ops, out);
      SameRowValidates(schema, ops, out);
    }
  }

  lemma SomeKept(schema: Schema, kept: set<Label>)
    ensures (exists l :: l in kept && l in schema.labels) <==> kept * (set l | l in schema.labels) != {}
  {
    var common := kept * (set l | l in schema.labels);
    assert forall l :: l in common <==> l in kept && l in schema.labels;
    if common != {} {
      var l :| l in common;
    }
  }

  /** So it does whatever the row was, as long as every added label belongs to the schema. */
  lemma NormalizedRowIsStable(schema: Schema, ops: TextOps, row: RawRow, added: set<Label>, minimumSeverity: int, recordId: Option<RowId>)
    requires Lawful(ops) && minimumSeverity >= 0
    requires added <= (set l | l in schema.labels)
    requires NormalizeRow(schema, ops, row, added, minimumSeverity, recordId).Ok?
    ensures var out := NormalizeRow(schema, ops, row, added, minimumSeverity, recordId).value;
      && NormalizePlain(schema, ops, Written(out)) == Ok(out)
      && ValidateRow(schema, ops, Written(out)) == Ok(())
  {
    RowIsAssembled(schema, ops, row, added, minimumSeverity, recordId);
    if SAFE in schema.labels {
      var labels := ReadLabels(schema, row).value + added;
      ReadLabelsInSchema(schema, row);
      NormalizeSafeMeaning(labels);
      var l :| l in NormalizeSafe(labels);
      assert l in schema.labels;
    }
    WrittenRowValidatesIff(schema, ops, row, added, minimumSeverity, recordId);
  }

  lemma RowIsAssembled(schema: Schema, ops: TextOps, row: RawRow, added: set<Label>, minimumSeverity: int, recordId: Option<RowId>)
    requires Lawful(ops) && minimumSeverity >= 0
    requires NormalizeRow(schema, ops, row, added, minimumSeverity, recordId).Ok?
    ensures var out := NormalizeRow(schema, ops, row, added, minimumSeverity, recordId).value;
      && ReadLabels(schema, row).Ok?
      && out == Assembled(schema, out.text, NormalizeSafe(ReadLabels(schema, row).value + added), out.severity, out.id)
      && out.text != "" && ops.strip(out.text) == out.text && out.severity >= 0
  {
  }

  lemma ReadLabelsInSchema(schema: Schema, row: RawRow)
    requires SAFE in schema.labels && ReadLabels(schema, row).Ok?
    ensures ReadLabels(schema, row).value <= (set l | l in schema.labels)
    ensures ReadLabels(schema, row).value != {}
  {
    var names := row.labelNames.value;
    forall i | 0 <= i < |names| ensures names[i].Known? && names[i].l in schema.labels {
      assert ReadableName(schema, names[i]);
    }
  }

  /** A schema that lacks a label the caller adds drops it silently: the row comes back with no label
      at all, and does not survive its own validation. */
  lemma AddedLabelOutsideSchemaIsLost()
    ensures var schema, ops := Schema([SAFE]), TextOps(s => s, s => s);
      var row := RawRow(Some("x"), Some([Known(SAFE)]), Some(0), Some(IntId(1)), None, None);
      var out := NormalizeRow(schema, ops, row, {HATE}, 4, None);
      && out.Ok? && out.value.labelNames == [] && out.value.severity == 4
      && ValidateRow(schema, ops, Written(out.value)) == Err(ValueError)
  {
    var schema, ops := Schema([SAFE]), TextOps(s => s, s => s);
    var row := RawRow(Some("x"), Some([Known(SAFE)]), Some(0), Some(IntId(1)), None, None);
    var safe := Row("x", [], [SAFE], SAFE, 0, IntId(1));
    ReadWritten(schema, safe);
    assert Carried(safe) == {SAFE};
    assert KnownNames([SAFE]) == [Known(SAFE)];
    assert ReadLabels(schema, row) == Ok({SAFE});
    NormalizeSafeMeaning({SAFE} + {HATE});
    NormalizeSafeMeaning({SAFE});
    assert NormalizeSafe({SAFE} + {HATE}) == {HATE};
    assert NormalizeSafe({SAFE}) == {SAFE};
    assert Ordered([SAFE][1..], {HATE}) == [] && Ordered([SAFE], {HATE}) == [];
    assert Ordered([SAFE][1..], {SAFE}) == [] && Ordered([SAFE], {SAFE}) == [SAFE];
    var out := NormalizeRow(schema, ops, row, {HATE}, 4, None).value;
    ReadWritten(schema, out);
    assert {SAFE} + {} == {SAFE};
  }

  // ---------------------------------------------------------------- masks

  /** The mask whose bit `i` says that the label of index `i` is selected. */
  function MaskOf(labels: seq<Label>, selected: set<Label>): nat {
    if labels == [] then 0
    else 2 * MaskOf(labels[1..], selected) + (if labels[0] in selected then 1 else 0)
  }

  lemma {:induction false} BitOfMask(labels: seq<Label>, selected: set<Label>, i: nat)
    ensures Bit(MaskOf(labels, selected), i) <==> i < |labels| && labels[i] in selected
  {
    if labels == [] {
      BitOfZero(i);
    } else if i > 0 {
      BitOfMask(labels[1..], selected, i - 1);
      assert MaskOf(labels, selected) / 2 == MaskOf(labels[1..], selected);
    }
  }

  function IndexOf(labels: seq<Label>, l: Label): (i: nat)
    requires l in labels
    ensures i < |labels| && labels[i] == l
  {
    if labels[0] == l then 0 else 1 + IndexOf(labels[1..], l)
  }

  function LabelsToMask(schema: Schema, labels: set<Label>): Result<nat> {
    if forall l :: l in NormalizeSafe(labels) ==> l in schema.labels
    then Ok(MaskOf(schema.labels, NormalizeSafe(labels)))
    else Err(KeyError)
  }

  /** Setting one bit per selected label, in whatever order the set yields them. */
  method LabelsToMaskLoop(schema: Schema, labels: set<Label>) returns (r: Result<nat>)
    requires ValidSchema(schema)
    ensures r == LabelsToMask(schema, labels)
  {
    var selected := NormalizeSafe(labels);
    var rest := selected;
    var mask := 0;
    forall i: nat ensures !Bit(0, i) {
      BitOfZero(i);
    }
    while rest != {}
      invariant rest <= selected
      invariant forall l :: l in selected - rest ==> l in schema.labels
      invariant forall i: nat {:trigger Bit(mask, i)} :: Bit(mask, i) <==> i < |schema.labels| && schema.labels[i] in selected - rest
      decreases |rest|
    {
      var l :| l in rest;
      if l !in schema.labels {
        return Err(KeyError);
      }
      var index := IndexOf(schema.labels, l);
      ghost var before := mask;
      mask := Or(mask, ShiftedOne(index));
      forall i: nat
        ensures Bit(mask, i) <==> i < |schema.labels| && schema.labels[i] in selected - (rest - {l})
      {
        BitOr(before, ShiftedOne(index), i);
        BitShiftedOne(index, i);
      }
      rest := rest - {l};
    }
    assert selected - rest == selected;
    forall i: nat ensures Bit(mask, i) <==> Bit(MaskOf(schema.labels, selected), i) {
      BitOfMask(schema.labels, selected, i);
    }
    MasksAreBits(mask, MaskOf(schema.labels, selected));
    return Ok(mask);
  }

  function RowToMask(schema: Schema, row: RawRow): Result<nat> {
    var read := ReadLabels(schema, row);
    if read.Err? then Err(read.error) else LabelsToMask(schema, read.value)
  }

  /** The schema labels whose bits are set. */
  function Selected(schema: Schema, mask: nat): set<Label> {
    set i | 0 <= i < |schema.labels| && Bit(mask, i) :: schema.labels[i]
  }

  function MaskToLabels(schema: Schema, mask: nat): seq<Label> {
    Ordered(schema.labels, NormalizeSafe(Selected(schema, mask)))
  }

  lemma SelectedOfMask(schema: Schema, selected: set<Label>)
    ensures forall l :: l in Selected(schema, MaskOf(schema.labels, selected)) <==> l in schema.labels && l in selected
  {
    forall i: nat ensures Bit(MaskOf(schema.labels, selected), i) <==> i < |schema.labels| && schema.labels[i] in selected {
      BitOfMask(schema.labels, selected, i);
    }
    forall l | l in schema.labels && l in selected
      ensures l in Selected(schema, MaskOf(schema.labels, selected))
    {
      var i := IndexOf(schema.labels, l);
      assert Bit(MaskOf(schema.labels, selected), i);
    }
  }

  lemma SelectedOfOr(schema: Schema, a: nat, b: nat)
    ensures Selected(schema, Or(a, b)) == Selected(schema, a) + Selected(schema, b)
  {
    forall i: nat ensures Bit(Or(a, b), i) <==> Bit(a, i) || Bit(b, i) {
      BitOr(a, b, i);
    }
  }

  /** Packing and unpacking a label set normalises SAFE and nothing else. */
  lemma MaskRoundTrip(schema: Schema, labels: set<Label>)
    requires LabelsToMask(schema, labels).Ok?
    ensures MaskToLabels(schema, LabelsToMask(schema, labels).value) == Ordered(schema.labels, NormalizeSafe(labels))
  {
    var kept := NormalizeSafe(labels);
    SelectedOfMask(schema, kept);
    assert Selected(schema, MaskOf(schema.labels, kept)) == kept;
    NormalizeSafeMeaning(labels);
    NormalizeSafeMeaning(kept);
    assert NormalizeSafe(kept) == kept;
  }

  /** Decoding the OR of two packed label sets gives their SAFE-normalised union. */
  lemma OrDecodesToUnion(schema: Schema, a: set<Label>, b: set<Label>)
    requires LabelsToMask(schema, a).Ok? && LabelsToMask(schema, b).Ok?
    requires a != {} && b != {}
    ensures MaskToLabels(schema, Or(LabelsToMask(schema, a).value, LabelsToMask(schema, b).value))
         == Ordered(schema.labels, NormalizeSafe(a + b))
  {
    var x, y := LabelsToMask(schema, a).value, LabelsToMask(schema, b).value;
    SelectedOfOr(schema, x, y);
    SelectedOfMask(schema, NormalizeSafe(a));
    SelectedOfMask(schema, NormalizeSafe(b));
    NormalizeSafeMeaning(a);
    NormalizeSafeMeaning(b);
    NormalizeSafeMeaning(a + b);
    NormalizeSafeMeaning(Selected(schema, Or(x, y)));
    OrderedSame(schema.labels, NormalizeSafe(Selected(schema, Or(x, y))), NormalizeSafe(a + b));
  }
}
