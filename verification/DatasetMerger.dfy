/** The deduplicating merger: an upsert table keyed by normalised text, written out as two splits. */
module DatasetMerger {
  import opened Wrappers
  import opened BitMasks
  import opened DatasetSchema
  import opened Sequences

  const TRAIN_MASK: nat := 1
  const VALIDATION_MASK: nat := 2

  /** The columns of a table row besides its key. */
  datatype Entry = Entry(text: string, mask: nat, severity: int, split: nat, rank: nat)

  datatype Tuple = Tuple(key: string, entry: Entry)

  type Table = map<string, Entry>

  // ---------------------------------------------------------------- the upsert

  /** The conflict clause of the insert statement. */
  function Join(old': Entry, new': Entry): Entry {
    Entry(
      if new'.rank < old'.rank then new'.text else old'.text,
      Or(old'.mask, new'.mask),
      if new'.severity > old'.severity then new'.severity else old'.severity,
      Or(old'.split, new'.split),
      if new'.rank < old'.rank then new'.rank else old'.rank)
  }

  function Upsert(table: Table, t: Tuple): Table {
    table[t.key := if t.key in table then Join(table[t.key], t.entry) else t.entry]
  }

  function UpsertAll(table: Table, tuples: seq<Tuple>): Table {
    if tuples == [] then table
    else Upsert(UpsertAll(table, tuples[..|tuples| - 1]), tuples[|tuples| - 1])
  }

  lemma UpsertAllAppend(table: Table, tuples: seq<Tuple>, t: Tuple)
    ensures UpsertAll(table, tuples + [t]) == Upsert(UpsertAll(table, tuples), t)
  {
    assert (tuples + [t])[..|tuples|] == tuples;
  }

  lemma {:induction false} UpsertAllConcat(table: Table, a: seq<Tuple>, b: seq<Tuple>)
    ensures UpsertAll(table, a + b) == UpsertAll(UpsertAll(table, a), b)
  {
    if b == [] {
      assert a + b == a;
    } else {
      var n := |b| - 1;
      assert (a + b)[..|a| + n] == a + b[..n];
      UpsertAllConcat(table, a, b[..n]);
    }
  }

  // ---------------------------------------------------------------- reading files

  function TupleOf(schema: Schema, ops: TextOps, row: RawRow, split: nat, rank: nat): Result<Tuple> {
    var normalized := NormalizePlain(schema, ops, row);
    if normalized.Err? then Err(normalized.error)
    else
      var mask := RowToMask(schema, Written(normalized.value));
      if mask.Err? then Err(mask.error)
      else
        var text := normalized.value.text;
        Ok(Tuple(ops.normalize(text), Entry(text, mask.value, normalized.value.severity, split, rank)))
  }

  function TupleLine(schema: Schema, ops: TextOps, line: Line, split: nat, rank: nat): Option<Result<Tuple>> {
    match line
    case Blank => None
    case Malformed => Some(Err(ValueError))
    case Record(row) => Some(TupleOf(schema, ops, row, split, rank))
  }

  function TupleLines(schema: Schema, ops: TextOps, lines: seq<Line>, split: nat, rank: nat): (r: seq<Option<Result<Tuple>>>)
    ensures |r| == |lines| && forall i :: 0 <= i < |r| ==> r[i] == TupleLine(schema, ops, lines[i], split, rank)
  {
    seq(|lines|, i requires 0 <= i < |lines| => TupleLine(schema, ops, lines[i], split, rank))
  }

  /** The tuples of a file in order, or its first error. */
  function FileTuples(schema: Schema, ops: TextOps, lines: seq<Line>, split: nat, rank: nat): Result<seq<Tuple>> {
    Collect(TupleLines(schema, ops, lines, split, rank))
  }

  /** Blank lines are skipped; a file loads when no line is malformed and every record yields a tuple. */
  lemma FileLoadsIff(schema: Schema, ops: TextOps, lines: seq<Line>, split: nat, rank: nat)
    ensures FileTuples(schema, ops, lines, split, rank).Ok? <==> forall i :: 0 <= i < |lines| ==>
      lines[i] != Malformed && (lines[i].Record? ==> TupleOf(schema, ops, lines[i].row, split, rank).Ok?)
  {
    CollectedFrom(TupleLines(schema, ops, lines, split, rank));
  }

  datatype Source = Source(train: seq<Line>, validation: seq<Line>)

  /** The tuples of one source: its training file, then its validation file. */
  function OneSource(schema: Schema, ops: TextOps, source: Source, rank: nat): Result<seq<Tuple>> {
    var train := FileTuples(schema, ops, source.train, TRAIN_MASK, rank);
    if train.Err? then train
    else
      var validation := FileTuples(schema, ops, source.validation, VALIDATION_MASK, rank);
      if validation.Err? then validation else Ok(train.value + validation.value)
  }

  function EachSource(schema: Schema, ops: TextOps, sources: seq<Source>): (r: seq<Option<Result<seq<Tuple>>>>)
    ensures |r| == |sources| && forall i :: 0 <= i < |r| ==> r[i] == Some(OneSource(schema, ops, sources[i], i))
  {
    seq(|sources|, i requires 0 <= i < |sources| => Some(OneSource(schema, ops, sources[i], i)))
  }

  function Flatten(parts: seq<seq<Tuple>>): seq<Tuple> {
    if parts == [] then [] else Flatten(parts[..|parts| - 1]) + parts[|parts| - 1]
  }

  lemma UpsertPart(table: Table, parts: seq<seq<Tuple>>, part: seq<Tuple>)
    ensures UpsertAll(table, Flatten(parts + [part])) == UpsertAll(UpsertAll(table, Flatten(parts)), part)
  {
    assert (parts + [part])[..|parts|] == parts;
    UpsertAllConcat(table, Flatten(parts), part);
  }

  /** All tuples of the sources in load order, ranked by position. */
  function SourceTuples(schema: Schema, ops: TextOps, sources: seq<Source>): Result<seq<Tuple>> {
    var parts := Collect(EachSource(schema, ops, sources));
    if parts.Err? then Err(parts.error) else Ok(Flatten(parts.value))
  }

  // ---------------------------------------------------------------- writing splits

  predicate InSplit(e: Entry, validation: bool) {
    Bit(e.split, 1) == validation
  }

  /** The order in which the table yields its keys: each of them once. */
  ghost predicate Enumerates(order: seq<string>, table: Table) {
    && (forall i, j :: 0 <= i < j < |order| ==> order[i] != order[j])
    && (forall k :: k in order <==> k in table)
  }

  function SplitKeys(table: Table, order: seq<string>, validation: bool): seq<string> {
    if order == [] then []
    else
      var n := |order| - 1;
      SplitKeys(table, order[..n], validation)
      + (if order[n] in table && InSplit(table[order[n]], validation) then [order[n]] else [])
  }

  function OutputRow(schema: Schema, ops: TextOps, e: Entry, id: nat): Result<Row> {
    BuildRow(schema, ops, e.text, MaskToLabels(schema, e.mask), e.severity, IntId(id))
  }

  function OutputLines(schema: Schema, ops: TextOps, table: Table, keys: seq<string>): (r: seq<Option<Result<Row>>>)
    requires forall k :: k in keys ==> k in table
    ensures |r| == |keys|
    ensures forall i :: 0 <= i < |r| ==> r[i] == Some(OutputRow(schema, ops, table[keys[i]], i + 1))
  {
    seq(|keys|, i requires 0 <= i < |keys| => Some(OutputRow(schema, ops, table[keys[i]], i + 1)))
  }

  /** The rows of a split, numbered from one. */
  function SplitRows(schema: Schema, ops: TextOps, table: Table, keys: seq<string>): Result<seq<Row>>
    requires forall k :: k in keys ==> k in table
  {
    Collect(OutputLines(schema, ops, table, keys))
  }

  lemma {:induction false} SplitKeysMeaning(table: Table, order: seq<string>, validation: bool)
    requires forall i, j :: 0 <= i < j < |order| ==> order[i] != order[j]
    ensures var keys := SplitKeys(table, order, validation);
      && (forall k :: k in keys <==> k in order && k in table && InSplit(table[k], validation))
      && (forall i, j :: 0 <= i < j < |keys| ==> keys[i] != keys[j])
  {
    if order != [] {
      var n := |order| - 1;
      assert order == order[..n] + [order[n]];
      SplitKeysMeaning(table, order[..n], validation);
    }
  }

  /** A split keeps the order of the table. */
  lemma {:induction false} SplitKeysKeepOrder(table: Table, order: seq<string>, validation: bool)
    requires forall i, j :: 0 <= i < j < |order| ==> order[i] != order[j]
    ensures var keys := SplitKeys(table, order, validation);
      && (forall i :: 0 <= i < |keys| ==> IndexIn(order, keys[i], |order|) < |order|)
      && forall i, j :: 0 <= i < j < |keys| ==> IndexIn(order, keys[i], |order|) < IndexIn(order, keys[j], |order|)
  {
    if order != [] {
      var n := |order| - 1;
      SplitKeysKeepOrder(table, order[..n], validation);
      SplitKeysMeaning(table, order[..n], validation);
      var before := SplitKeys(table, order[..n], validation);
      forall i | 0 <= i < |before|
        ensures IndexIn(order, before[i], |order|) == IndexIn(order[..n], before[i], n) < n
      {
        assert before[i] in order[..n];
        IndexInMeaning(order[..n], before[i], n);
        IndexInMeaning(order[..n], before[i], |order|);
      }
    }
  }

  class DeduplicatingDatasetMerger {
    const schema: Schema
    const ops: TextOps
    const batchSize: nat
    var table: Table

    constructor (schema: Schema, ops: TextOps, batchSize: nat)
      ensures this.schema == schema && this.ops == ops && this.batchSize == batchSize && table == map[]
    {
      this.schema, this.ops, this.batchSize, this.table := schema, ops, batchSize, map[];
    }

    method ExecuteMany(batch: seq<Tuple>)
      modifies this`table
      ensures table == UpsertAll(old(table), batch)
    {
      for i := 0 to |batch|
        invariant table == UpsertAll(old(table), batch[..i])
      {
        assert batch[..i + 1][..i] == batch[..i];
        table := Upsert(table, batch[i]);
      }
      assert batch[..|batch|] == batch;
    }

    /** Whatever the batch size, a file that reads without error upserts its tuples in order. */
    method LoadFile(lines: seq<Line>, split: nat, rank: nat) returns (r: Result<nat>)
      modifies this`table
      ensures match FileTuples(schema, ops, lines, split, rank)
        case Ok(tuples) => r == Ok(|tuples|) && table == UpsertAll(old(table), tuples)
        case Err(e) => r == Err(e)
    {
      var batch: seq<Tuple> := [];
      var rows := 0;
      ghost var tuples: seq<Tuple> := [];
      ghost var read := TupleLines(schema, ops, lines, split, rank);
      for i := 0 to |lines|
        invariant Collect(read[..i]) == Ok(tuples) && rows == |tuples|
        invariant UpsertAll(table, batch) == UpsertAll(old(table), tuples)
      {
        CollectStep(read, i);
        var line := TupleLine(schema, ops, lines[i], split, rank);
        if line.None? {
          continue;
        }
        if line.value.Err? {
          CollectStops(read, i);
          return Err(line.value.error);
        }
        UpsertAllAppend(table, batch, line.value.value);
        UpsertAllAppend(old(table), tuples, line.value.value);
        batch := batch + [line.value.value];
        tuples := tuples + [line.value.value];
        rows := rows + 1;
        if |batch| >= batchSize {
          ExecuteMany(batch);
          batch := [];
        }
      }
      assert read[..|lines|] == read;
      ExecuteMany(batch);
      r := Ok(rows);
    }

    method LoadSource(source: Source, rank: nat) returns (r: Result<()>)
      modifies this`table
      ensures match OneSource(schema, ops, source, rank)
        case Ok(tuples) => r == Ok(()) && table == UpsertAll(old(table), tuples)
        case Err(e) => r == Err(e)
    {
      var loaded := LoadFile(source.train, TRAIN_MASK, rank);
      if loaded.Err? {
        return Err(loaded.error);
      }
      loaded := LoadFile(source.validation, VALIDATION_MASK, rank);
      if loaded.Err? {
        return Err(loaded.error);
      }
      UpsertAllConcat(old(table), FileTuples(schema, ops, source.train, TRAIN_MASK, rank).value,
                      FileTuples(schema, ops, source.validation, VALIDATION_MASK, rank).value);
      r := Ok(());
    }

    method LoadSources(sources: seq<Source>) returns (r: Result<()>)
      modifies this`table
      ensures match SourceTuples(schema, ops, sources)
        case Ok(tuples) => r == Ok(()) && table == UpsertAll(old(table), tuples)
        case Err(e) => r == Err(e)
    {
      ghost var parts: seq<seq<Tuple>> := [];
      ghost var read := EachSource(schema, ops, sources);
      for rank := 0 to |sources|
        invariant Collect(read[..rank]) == Ok(parts)
        invariant table == UpsertAll(old(table), Flatten(parts))
      {
        CollectStep(read, rank);
        var loaded := LoadSource(sources[rank], rank);
        if loaded.Err? {
          CollectStops(read, rank);
          return Err(loaded.error);
        }
        ghost var part := OneSource(schema, ops, sources[rank], rank).value;
        UpsertPart(old(table), parts, part);
        parts := parts + [part];
      }
      assert read[..|sources|] == read;
      r := Ok(());
    }

    /** The selection of a split, in the order the table yields its keys. */
    method WriteSplit(order: seq<string>, validation: bool) returns (r: Result<seq<Row>>)
      requires Enumerates(order, table)
      ensures forall k :: k in SplitKeys(table, order, validation) ==> k in table
      ensures r == SplitRows(schema, ops, table, SplitKeys(table, order, validation))
    {
      SplitKeysMeaning(table, order, validation);
      r := WriteRows(SplitKeys(table, order, validation));
    }

    method WriteRows(keys: seq<string>) returns (r: Result<seq<Row>>)
      requires forall k :: k in keys ==> k in table
      ensures r == SplitRows(schema, ops, table, keys)
    {
      var rows: seq<Row> := [];
      ghost var read := OutputLines(schema, ops, table, keys);
      for i := 0 to |keys|
        invariant Collect(read[..i]) == Ok(rows)
      {
        CollectStep(read, i);
        var row := OutputRow(schema, ops, table[keys[i]], i + 1);
        if row.Err? {
          CollectStops(read, i);
          return Err(row.error);
        }
        rows := rows + [row.value];
      }
      assert read[..|keys|] == read;
      r := Ok(rows);
    }
  }

  // ---------------------------------------------------------------- the merged table is the join of its inputs

  predicate HasKey(tuples: seq<Tuple>, i: int, key: string) {
    0 <= i < |tuples| && tuples[i].key == key
  }

  /** A key is in the table exactly when some input row has it. */
  lemma {:induction false} MergedKeys(tuples: seq<Tuple>, key: string)
    ensures key in UpsertAll(map[], tuples) <==> exists i :: HasKey(tuples, i, key)
  {
    if tuples != [] {
      var n := |tuples| - 1;
      MergedKeys(tuples[..n], key);
      if exists i :: HasKey(tuples[..n], i, key) {
        var i :| HasKey(tuples[..n], i, key);
        assert HasKey(tuples, i, key);
      }
      if exists i :: HasKey(tuples, i, key) {
        var i :| HasKey(tuples, i, key);
        assert i == n || HasKey(tuples[..n], i, key);
        assert i == n ==> tuples[n].key == key;
      }
      if tuples[n].key == key {
        assert HasKey(tuples, n, key);
      }
    } else {
      assert forall i :: !HasKey(tuples, i, key);
    }
  }

  predicate SetsMask(tuples: seq<Tuple>, i: int, key: string, b: nat) {
    HasKey(tuples, i, key) && Bit(tuples[i].entry.mask, b)
  }

  /** A mask bit is set in the table exactly when some input row of the key sets it. */
  lemma {:induction false} MergedMask(tuples: seq<Tuple>, key: string, b: nat)
    requires key in UpsertAll(map[], tuples)
    ensures Bit(UpsertAll(map[], tuples)[key].mask, b) <==> exists i :: SetsMask(tuples, i, key, b)
  {
    var n := |tuples| - 1;
    var init, t := tuples[..n], tuples[n];
    var before := UpsertAll(map[], init);
    if exists i :: SetsMask(init, i, key, b) {
      var i :| SetsMask(init, i, key, b);
      assert SetsMask(tuples, i, key, b);
    }
    assert SetsMask(tuples, n, key, b) <==> t.key == key && Bit(t.entry.mask, b);
    assert forall i :: SetsMask(tuples, i, key, b) ==> i == n || SetsMask(init, i, key, b);
    if key in before {
      MergedMask(init, key, b);
      BitOr(before[key].mask, t.entry.mask, b);
    } else {
      MergedKeys(init, key);
      assert forall i :: SetsMask(init, i, key, b) ==> HasKey(init, i, key);
    }
  }

  predicate SetsSplit(tuples: seq<Tuple>, i: int, key: string, b: nat) {
    HasKey(tuples, i, key) && Bit(tuples[i].entry.split, b)
  }

  /** A split bit is set in the table exactly when some input row of the key came from that split. */
  lemma {:induction false} MergedSplit(tuples: seq<Tuple>, key: string, b: nat)
    requires key in UpsertAll(map[], tuples)
    ensures Bit(UpsertAll(map[], tuples)[key].split, b) <==> exists i :: SetsSplit(tuples, i, key, b)
  {
    var n := |tuples| - 1;
    var init, t := tuples[..n], tuples[n];
    var before := UpsertAll(map[], init);
    if exists i :: SetsSplit(init, i, key, b) {
      var i :| SetsSplit(init, i, key, b);
      assert SetsSplit(tuples, i, key, b);
    }
    assert SetsSplit(tuples, n, key, b) <==> t.key == key && Bit(t.entry.split, b);
    assert forall i :: SetsSplit(tuples, i, key, b) ==> i == n || SetsSplit(init, i, key, b);
    if key in before {
      MergedSplit(init, key, b);
      BitOr(before[key].split, t.entry.split, b);
    } else {
      MergedKeys(init, key);
      assert forall i :: SetsSplit(init, i, key, b) ==> HasKey(init, i, key);
    }
  }

  /** The severity in the table is the largest among the input rows of the key. */
  lemma {:induction false} MergedSeverity(tuples: seq<Tuple>, key: string) returns (w: nat)
    requires key in UpsertAll(map[], tuples)
    ensures var s := UpsertAll(map[], tuples)[key].severity;
      && HasKey(tuples, w, key) && tuples[w].entry.severity == s
      && forall i :: HasKey(tuples, i, key) ==> tuples[i].entry.severity <= s
  {
    var n := |tuples| - 1;
    var init, t := tuples[..n], tuples[n];
    var before := UpsertAll(map[], init);
    assert forall i :: HasKey(tuples, i, key) ==> i == n || HasKey(init, i, key);
    if key in before {
      w := MergedSeverity(init, key);
      assert HasKey(tuples, w, key);
      if t.key == key && t.entry.severity > before[key].severity {
        w := n;
      }
    } else {
      w := n;
      MergedKeys(init, key);
    }
  }

  /** The text and rank in the table are those of the first input row, in load order, of the lowest rank. */
  lemma {:induction false} MergedText(tuples: seq<Tuple>, key: string) returns (w: nat)
    requires key in UpsertAll(map[], tuples)
    ensures var e := UpsertAll(map[], tuples)[key];
      && HasKey(tuples, w, key) && tuples[w].entry.text == e.text && tuples[w].entry.rank == e.rank
      && (forall i :: HasKey(tuples, i, key) ==> e.rank <= tuples[i].entry.rank)
      && (forall i :: HasKey(tuples, i, key) && i < w ==> e.rank < tuples[i].entry.rank)
  {
    var n := |tuples| - 1;
    var init, t := tuples[..n], tuples[n];
    var before := UpsertAll(map[], init);
    assert forall i :: HasKey(tuples, i, key) ==> i == n || HasKey(init, i, key);
    if key in before {
      w := MergedText(init, key);
      assert HasKey(tuples, w, key);
      if t.key == key && t.entry.rank < before[key].rank {
        w := n;
      }
    } else {
      w := n;
      MergedKeys(init, key);
    }
  }

  ghost predicate SameTuples(a: seq<Tuple>, b: seq<Tuple>) {
    forall t :: t in a <==> t in b
  }

  /** Reordering or repeating the input rows changes no key, mask, severity, split or rank. */
  lemma MergeIsOrderFree(a: seq<Tuple>, b: seq<Tuple>, key: string)
    requires SameTuples(a, b)
    ensures key in UpsertAll(map[], a) <==> key in UpsertAll(map[], b)
    ensures key in UpsertAll(map[], a) ==>
      var x, y := UpsertAll(map[], a)[key], UpsertAll(map[], b)[key];
      x.mask == y.mask && x.severity == y.severity && x.split == y.split && x.rank == y.rank
  {
    if key in UpsertAll(map[], b) {
      KeysTransfer(b, a, key);
    }
    if key in UpsertAll(map[], a) {
      KeysTransfer(a, b, key);
      var x, y := UpsertAll(map[], a)[key], UpsertAll(map[], b)[key];
      forall i: nat ensures Bit(x.mask, i) <==> Bit(y.mask, i) {
        MaskTransfer(a, b, key, i);
        MaskTransfer(b, a, key, i);
      }
      MasksAreBits(x.mask, y.mask);
      forall i: nat ensures Bit(x.split, i) <==> Bit(y.split, i) {
        SplitTransfer(a, b, key, i);
        SplitTransfer(b, a, key, i);
      }
      MasksAreBits(x.split, y.split);
      SeverityTransfer(a, b, key);
      SeverityTransfer(b, a, key);
    }
  }

  lemma FindTuple(a: seq<Tuple>, b: seq<Tuple>, i: nat) returns (j: nat)
    requires SameTuples(a, b) && i < |a|
    ensures j < |b| && b[j] == a[i]
  {
    assert a[i] in b;
    j :| 0 <= j < |b| && b[j] == a[i];
  }

  lemma KeysTransfer(a: seq<Tuple>, b: seq<Tuple>, key: string)
    requires SameTuples(a, b) && key in UpsertAll(map[], a)
    ensures key in UpsertAll(map[], b)
  {
    MergedKeys(a, key);
    MergedKeys(b, key);
    var i :| HasKey(a, i, key);
    var j := FindTuple(a, b, i);
    assert HasKey(b, j, key);
  }

  lemma MaskTransfer(a: seq<Tuple>, b: seq<Tuple>, key: string, bit: nat)
    requires SameTuples(a, b) && key in UpsertAll(map[], a) && key in UpsertAll(map[], b)
    ensures Bit(UpsertAll(map[], a)[key].mask, bit) ==> Bit(UpsertAll(map[], b)[key].mask, bit)
  {
    MergedMask(a, key, bit);
    MergedMask(b, key, bit);
    if i :| SetsMask(a, i, key, bit) {
      var j := FindTuple(a, b, i);
      assert SetsMask(b, j, key, bit);
    }
  }

  lemma SplitTransfer(a: seq<Tuple>, b: seq<Tuple>, key: string, bit: nat)
    requires SameTuples(a, b) && key in UpsertAll(map[], a) && key in UpsertAll(map[], b)
    ensures Bit(UpsertAll(map[], a)[key].split, bit) ==> Bit(UpsertAll(map[], b)[key].split, bit)
  {
    MergedSplit(a, key, bit);
    MergedSplit(b, key, bit);
    if i :| SetsSplit(a, i, key, bit) {
      var j := FindTuple(a, b, i);
      assert SetsSplit(b, j, key, bit);
    }
  }

  lemma SeverityTransfer(a: seq<Tuple>, b: seq<Tuple>, key: string)
    requires SameTuples(a, b) && key in UpsertAll(map[], a) && key in UpsertAll(map[], b)
    ensures UpsertAll(map[], a)[key].severity <= UpsertAll(map[], b)[key].severity
    ensures UpsertAll(map[], a)[key].rank >= UpsertAll(map[], b)[key].rank
  {
    var w := MergedSeverity(a, key);
    var w' := FindTuple(a, b, w);
    var v := MergedText(a, key);
    var v' := FindTuple(a, b, v);
    var _ := MergedSeverity(b, key);
    var _ := MergedText(b, key);
    assert HasKey(b, w', key) && HasKey(b, v', key);
  }
}
