/** The fallback configuration parser: a stack of aliased nested dictionaries, filled in place. */
module ConfigLoader {
  import opened Wrappers
  import opened ConfigText
  import opened ConfigTree
  import opened ConfigScalars

  // ---------------------------------------------------------------- dictionaries on the heap

  class Section {
    var entries: map<string, Entry>

    constructor ()
      ensures entries == map[]
    {
      entries := map[];
    }
  }

  datatype Entry = Plain(scalar: Scalar) | Sub(section: Section)

  /** The dictionary `s` holds the tree, through dictionaries of `repr`. */
  ghost predicate Represents(s: Section, t: Tree, repr: set<Section>)
    reads repr
    decreases t
  {
    && s in repr && t.Node? && t.entries.Keys == s.entries.Keys
    && forall key :: key in t.entries ==>
      match s.entries[key]
      case Plain(v) => t.entries[key] == Leaf(v)
      case Sub(c) => Represents(c, t.entries[key], repr)
  }

  /** The entry line `m` makes, given the dictionary of every section line. */
  ghost function EntryOf(scalar: string -> Scalar, lines: seq<Line>, cell: map<int, Section>, m: nat): Entry
    requires m < |lines| && (lines[m].value.None? ==> m in cell)
  {
    if lines[m].value.Some? then Plain(scalar(lines[m].value.value)) else Sub(cell[m])
  }

  /** The sections of the first `n` lines, and the root, have a dictionary each. */
  ghost predicate Cells(lines: seq<Line>, n: nat, cell: map<int, Section>)
    requires n <= |lines|
  {
    && (forall j :: -1 <= j < n ==> (OpensSection(lines, j) <==> j in cell))
    && (forall j :: j in cell ==> -1 <= j < n)
    && (forall j, k :: j in cell && k in cell && j != k ==> cell[j] != cell[k])
  }

  /** The entries of one dictionary after `n` lines. */
  ghost predicate Filled(scalar: string -> Scalar, lines: seq<Line>, n: nat, cell: map<int, Section>, j: int, entries: map<string, Entry>)
    requires n <= |lines| && Cells(lines, n, cell)
  {
    forall key :: var last := LastChild(lines, j, key, n);
      && (key in entries <==> last.Some?)
      && (last.Some? ==> entries[key] == EntryOf(scalar, lines, cell, last.value))
  }

  ghost predicate AllFilled(scalar: string -> Scalar, lines: seq<Line>, n: nat, cell: map<int, Section>)
    requires n <= |lines| && Cells(lines, n, cell)
    reads cell.Values
  {
    forall j :: j in cell ==> Filled(scalar, lines, n, cell, j, cell[j].entries)
  }

  /** When all lines are in, the dictionaries hold the trees. */
  lemma {:induction false} FilledRepresents(scalar: string -> Scalar, lines: seq<Line>, cell: map<int, Section>, j: int)
    requires Cells(lines, |lines|, cell) && AllFilled(scalar, lines, |lines|, cell) && j in cell
    ensures -1 <= j < |lines| && Represents(cell[j], TreeAt(scalar, lines, j), cell.Values)
    decreases |lines| - j
  {
    var t, s := TreeAt(scalar, lines, j), cell[j];
    assert Filled(scalar, lines, |lines|, cell, j, s.entries);
    forall key ensures key in t.entries <==> key in s.entries {
      KeyHasLine(lines, j, key);
    }
    forall key | key in t.entries
      ensures match s.entries[key]
        case Plain(v) => t.entries[key] == Leaf(v)
        case Sub(c) => Represents(c, t.entries[key], cell.Values)
    {
      KeyHasLine(lines, j, key);
      var m := LastChild(lines, j, key, |lines|).value;
      if lines[m].value.None? {
        FilledRepresents(scalar, lines, cell, m);
      }
    }
  }

  // ---------------------------------------------------------------- the stack

  type Frame = (int, Section)

  /** The stack holds the root and the open sections, in line order; `open` names their lines. */
  ghost predicate StackOk(lines: seq<Line>, n: nat, cell: map<int, Section>, stack: seq<Frame>, open: seq<int>)
    requires n <= |lines|
  {
    && |stack| == |open| > 0 && open[0] == -1
    && (forall i :: 0 <= i < |open| ==> -1 <= open[i] < n && OpenAt(lines, open[i], n))
    && (forall i :: 0 <= i < |open| ==> open[i] in cell && stack[i] == (IndentOf(lines, open[i]), cell[open[i]]))
    && (forall i, k :: 0 <= i < k < |open| ==> open[i] < open[k])
    && (forall j :: -1 <= j < n && OpenAt(lines, j, n) ==> j in open)
  }

  /** The indents on the stack increase strictly from the root's -1. */
  lemma StackIndentsIncrease(lines: seq<Line>, n: nat, cell: map<int, Section>, stack: seq<Frame>, open: seq<int>, i: nat, k: nat)
    requires n <= |lines| && StackOk(lines, n, cell, stack, open) && i < k < |stack|
    ensures stack[0].0 == -1 && stack[i].0 < stack[k].0
  {
    assert open[i] < open[k] && OpenAt(lines, open[i], n);
  }

  /** `k` frames are left when the ones that are not shallower than `indent` are popped off the top. */
  ghost predicate Unwound(stack: seq<Frame>, k: nat, indent: nat) {
    0 < k <= |stack| && stack[k - 1].0 < indent && forall i :: k <= i < |stack| ==> stack[i].0 >= indent
  }

  /** The first frame from the top with a smaller indent is the parent's. */
  lemma TopIsParent(lines: seq<Line>, n: nat, cell: map<int, Section>, stack: seq<Frame>, open: seq<int>, k: nat)
    requires n < |lines| && StackOk(lines, n, cell, stack, open)
    requires Unwound(stack, k, lines[n].indent)
    ensures Parent(lines, n) == open[k - 1]
  {
    assert CanOwn(lines, open[k - 1], n);
    OwnersAreBelow(lines, n, cell, stack, open, k);
  }

  /** No section above that frame could own the line. */
  lemma OwnersAreBelow(lines: seq<Line>, n: nat, cell: map<int, Section>, stack: seq<Frame>, open: seq<int>, k: nat)
    requires n < |lines| && StackOk(lines, n, cell, stack, open)
    requires Unwound(stack, k, lines[n].indent)
    ensures forall p :: -1 <= p < n && CanOwn(lines, p, n) ==> p <= open[k - 1]
  {
    forall p | -1 <= p < n && CanOwn(lines, p, n) ensures p <= open[k - 1] {
      assert OpenAt(lines, p, n);
      assert p in open;
      var i :| 0 <= i < |open| && open[i] == p;
      assert stack[i].0 < lines[n].indent;
    }
  }

  /** What is left of the stack after the pops are the sections that line `n` leaves open. */
  lemma PoppedStack(lines: seq<Line>, n: nat, cell: map<int, Section>, stack: seq<Frame>, open: seq<int>, k: nat)
    requires n < |lines| && StackOk(lines, n, cell, stack, open)
    requires Unwound(stack, k, lines[n].indent)
    ensures forall i :: 0 <= i < k ==> OpenAt(lines, open[i], n + 1)
    ensures forall j :: -1 <= j < n && OpenAt(lines, j, n + 1) ==> j in open[..k]
  {
    forall i | 0 <= i < k ensures OpenAt(lines, open[i], n + 1) {
      if i < k - 1 {
        StackIndentsIncrease(lines, n, cell, stack, open, i, k - 1);
      }
    }
    forall j | -1 <= j < n && OpenAt(lines, j, n + 1) ensures j in open[..k] {
      assert OpenAt(lines, j, n);
      var i :| 0 <= i < |open| && open[i] == j;
      assert lines[n].indent > IndentOf(lines, j);
      assert i < k;
      assert open[..k][i] == j;
    }
  }

  lemma StackAfterScalar(lines: seq<Line>, n: nat, cell: map<int, Section>, stack: seq<Frame>, open: seq<int>, k: nat)
    requires n < |lines| && StackOk(lines, n, cell, stack, open) && lines[n].value.Some?
    requires Unwound(stack, k, lines[n].indent)
    ensures StackOk(lines, n + 1, cell, stack[..k], open[..k])
  {
    PoppedStack(lines, n, cell, stack, open, k);
  }

  lemma StackAfterSection(lines: seq<Line>, n: nat, cell: map<int, Section>, stack: seq<Frame>, open: seq<int>, k: nat, section: Section)
    requires n < |lines| && StackOk(lines, n, cell, stack, open) && lines[n].value.None?
    requires Unwound(stack, k, lines[n].indent)
    ensures StackOk(lines, n + 1, cell[n := section], stack[..k] + [(lines[n].indent, section)], open[..k] + [n])
  {
    PoppedStack(lines, n, cell, stack, open, k);
    var open' := open[..k] + [n];
    forall j | -1 <= j < n + 1 && OpenAt(lines, j, n + 1) ensures j in open' {
      if j == n {
        assert open'[k] == n;
      } else {
        assert j in open[..k];
      }
    }
  }

  // ---------------------------------------------------------------- one line

  /** What line `n` changes in a dictionary that was filled before it. */
  lemma FilledStep(scalar: string -> Scalar, lines: seq<Line>, n: nat, cell: map<int, Section>, cell': map<int, Section>,
                   j: int, entries: map<string, Entry>, entries': map<string, Entry>)
    requires n < |lines| && Cells(lines, n, cell) && Cells(lines, n + 1, cell')
    requires forall k :: k in cell ==> k in cell' && cell'[k] == cell[k]
    requires Filled(scalar, lines, n, cell, j, entries)
    requires entries' == if Parent(lines, n) == j then entries[lines[n].key := EntryOf(scalar, lines, cell', n)] else entries
    ensures Filled(scalar, lines, n + 1, cell', j, entries')
  {
    forall key ensures var last := LastChild(lines, j, key, n + 1);
      && (key in entries' <==> last.Some?)
      && (last.Some? ==> entries'[key] == EntryOf(scalar, lines, cell', last.value))
    {
      assert LastChild(lines, j, key, n + 1) == if Sets(lines, j, key, n) then Some(n) else LastChild(lines, j, key, n);
    }
  }

  /** A new section is empty: no line up to its own belongs to it. */
  lemma NewIsFilled(scalar: string -> Scalar, lines: seq<Line>, n: nat, cell': map<int, Section>)
    requires n < |lines| && Cells(lines, n + 1, cell')
    ensures Filled(scalar, lines, n + 1, cell', n, map[])
  {
    assert forall key, m :: 0 <= m <= n ==> !Sets(lines, n, key, m);
  }

  lemma NextLine(raws: seq<string>, i: nat)
    requires i < |raws|
    ensures var read, n := ReadEach(raws), |Present(ReadEach(raws)[..i])|;
      && Present(read[..i]) <= ReadAll(raws) && Present(read[..i + 1]) <= ReadAll(raws)
      && |Present(read[..i + 1])| == n + (if ReadLine(raws[i]).Some? then 1 else 0)
      && (ReadLine(raws[i]).Some? ==> n < |ReadAll(raws)| && ReadAll(raws)[n] == ReadLine(raws[i]).value)
  {
    var read := ReadEach(raws);
    PresentPrefix(read, i);
    PresentPrefix(read, i + 1);
    assert read[..i + 1][..i] == read[..i];
  }

  /** Pop frames down to the first with a smaller indent. */
  method Unwind(stack: seq<Frame>, indent: nat) returns (popped: seq<Frame>)
    requires stack != [] && stack[0].0 == -1
    ensures Unwound(stack, |popped|, indent) && popped == stack[..|popped|]
  {
    popped := stack;
    while popped != [] && indent <= popped[|popped| - 1].0
      invariant 0 < |popped| <= |stack| && popped == stack[..|popped|]
      invariant forall i :: |popped| <= i < |stack| ==> stack[i].0 >= indent
      decreases |popped|
    {
      popped := popped[..|popped| - 1];
    }
  }

  /** `grown` has the dictionary of line `n` too, if the line opens a section. */
  ghost predicate Grown(lines: seq<Line>, n: nat, cell: map<int, Section>, grown: map<int, Section>)
    requires n < |lines|
  {
    && Cells(lines, n, cell) && Cells(lines, n + 1, grown)
    && (forall j :: j in grown <==> j in cell || (j == n && lines[n].value.None?))
    && (forall j :: j in cell ==> grown[j] == cell[j])
  }

  /** `parent[key] = entry` completes the heap for line `n`. */
  method Assign(parent: Section, key: string, entry: Entry, ghost scalar: string -> Scalar,
                ghost lines: seq<Line>, ghost n: nat, ghost cell: map<int, Section>, ghost grown: map<int, Section>)
    requires n < |lines| && Grown(lines, n, cell, grown) && AllFilled(scalar, lines, n, cell)
    requires Parent(lines, n) in cell && parent == cell[Parent(lines, n)]
    requires key == lines[n].key && entry == EntryOf(scalar, lines, grown, n)
    requires lines[n].value.None? ==> grown[n].entries == map[]
    modifies parent
    ensures AllFilled(scalar, lines, n + 1, grown)
  {
    ghost var before := Heap(cell);
    assert forall j :: j in cell ==> Filled(scalar, lines, n, cell, j, before[j]);
    parent.entries := parent.entries[key := entry];
    forall j | j in grown ensures Filled(scalar, lines, n + 1, grown, j, grown[j].entries) {
      if j in cell {
        FilledStep(scalar, lines, n, cell, grown, j, before[j], grown[j].entries);
      } else {
        NewIsFilled(scalar, lines, n, grown);
      }
    }
  }

  lemma GrownBySection(lines: seq<Line>, n: nat, cell: map<int, Section>, section: Section)
    requires n < |lines| && Cells(lines, n, cell) && lines[n].value.None? && section !in cell.Values
    ensures Grown(lines, n, cell, cell[n := section])
  {
    forall j | j in cell ensures cell[j] != section {
      assert cell[j] in cell.Values;
    }
  }

  /** File a line without a value: it opens a new dictionary below its parent. */
  method AddSection(line: Line, stack: seq<Frame>, ghost scalar: string -> Scalar,
                    ghost lines: seq<Line>, ghost n: nat, ghost cell: map<int, Section>, ghost open: seq<int>)
      returns (stack': seq<Frame>, ghost grown: map<int, Section>, ghost open': seq<int>)
    requires n < |lines| && lines[n] == line && line.value.None?
    requires Cells(lines, n, cell) && AllFilled(scalar, lines, n, cell) && StackOk(lines, n, cell, stack, open)
    modifies cell.Values
    ensures Grown(lines, n, cell, grown) && AllFilled(scalar, lines, n + 1, grown)
    ensures StackOk(lines, n + 1, grown, stack', open')
    ensures fresh(grown.Values - cell.Values)
  {
    var popped := Unwind(stack, line.indent);
    var parent := popped[|popped| - 1].1;
    TopIsParent(lines, n, cell, stack, open, |popped|);
    var section := new Section();
    GrownBySection(lines, n, cell, section);
    StackAfterSection(lines, n, cell, stack, open, |popped|, section);
    grown, open' := cell[n := section], open[..|popped|] + [n];
    stack' := popped + [(line.indent, section)];
    Assign(parent, line.key, Sub(section), scalar, lines, n, cell, grown);
  }

  /** File a line with a value. */
  method AddScalar(line: Line, value: Scalar, stack: seq<Frame>, ghost scalar: string -> Scalar,
                   ghost lines: seq<Line>, ghost n: nat, ghost cell: map<int, Section>, ghost open: seq<int>)
      returns (stack': seq<Frame>, ghost open': seq<int>)
    requires n < |lines| && lines[n] == line && line.value.Some? && value == scalar(line.value.value)
    requires Cells(lines, n, cell) && AllFilled(scalar, lines, n, cell) && StackOk(lines, n, cell, stack, open)
    modifies cell.Values
    ensures Grown(lines, n, cell, cell) && AllFilled(scalar, lines, n + 1, cell)
    ensures StackOk(lines, n + 1, cell, stack', open')
  {
    stack' := Unwind(stack, line.indent);
    var parent := stack'[|stack'| - 1].1;
    TopIsParent(lines, n, cell, stack, open, |stack'|);
    StackAfterScalar(lines, n, cell, stack, open, |stack'|);
    open' := open[..|stack'|];
    Assign(parent, line.key, Plain(value), scalar, lines, n, cell, cell);
  }

  method AddLine(numeric: string -> bool, line: Line, stack: seq<Frame>,
                 ghost lines: seq<Line>, ghost n: nat, ghost cell: map<int, Section>, ghost open: seq<int>)
      returns (stack': seq<Frame>, ghost grown: map<int, Section>, ghost open': seq<int>)
    requires n < |lines| && lines[n] == line
    requires Cells(lines, n, cell) && AllFilled(Scalars(numeric), lines, n, cell) && StackOk(lines, n, cell, stack, open)
    modifies cell.Values
    ensures Grown(lines, n, cell, grown) && AllFilled(Scalars(numeric), lines, n + 1, grown)
    ensures StackOk(lines, n + 1, grown, stack', open')
    ensures fresh(grown.Values - cell.Values)
  {
    if line.value.None? {
      stack', grown, open' := AddSection(line, stack, Scalars(numeric), lines, n, cell, open);
    } else {
      var value := ParseScalar(numeric, line.value.value);
      grown := cell;
      stack', open' := AddScalar(line, value, stack, Scalars(numeric), lines, n, cell, open);
    }
  }

  method FillRoot(numeric: string -> bool, raws: seq<string>, root: Section) returns (ghost cell: map<int, Section>)
    requires root.entries == map[]
    modifies root
    ensures Cells(ReadAll(raws), |ReadAll(raws)|, cell)
    ensures AllFilled(Scalars(numeric), ReadAll(raws), |ReadAll(raws)|, cell)
    ensures cell[-1] == root && fresh(cell.Values - {root})
  {
    ghost var lines := ReadAll(raws);
    var stack: seq<Frame> := [(-1, root)];
    ghost var open, n := [-1], 0;
    cell := map[-1 := root];
    for i := 0 to |raws|
      invariant n == |Present(ReadEach(raws)[..i])| <= |lines|
      invariant Cells(lines, n, cell) && AllFilled(Scalars(numeric), lines, n, cell)
      invariant StackOk(lines, n, cell, stack, open)
      invariant cell[-1] == root && fresh(cell.Values - {root})
    {
      NextLine(raws, i);
      var read := ReadLine(raws[i]);
      if read.Some? {
        stack, cell, open := AddLine(numeric, read.value, stack, lines, n, cell, open);
        n := n + 1;
      }
    }
    assert ReadEach(raws)[..|raws|] == ReadEach(raws);
  }

  method LoadSimpleYaml(numeric: string -> bool, raws: seq<string>) returns (root: Section, ghost repr: set<Section>)
    ensures fresh(repr) && Represents(root, TreeAt(Scalars(numeric), ReadAll(raws), -1), repr)
  {
    root := new Section();
    ghost var cell := FillRoot(numeric, raws, root);
    FilledRepresents(Scalars(numeric), ReadAll(raws), cell, -1);
    repr := cell.Values;
  }

  /** A dictionary holds at most one tree. */
  lemma {:induction false} RepresentsOne(s: Section, t: Tree, u: Tree, repr: set<Section>)
    requires Represents(s, t, repr) && Represents(s, u, repr)
    ensures t == u
    decreases t
  {
    forall key | key in t.entries ensures t.entries[key] == u.entries[key] {
      if s.entries[key].Sub? {
        RepresentsOne(s.entries[key].section, t.entries[key], u.entries[key], repr);
      }
    }
    assert t.entries == u.entries;
  }

  /** The contents of the dictionaries. */
  ghost function Heap(cell: map<int, Section>): map<int, map<string, Entry>>
    reads cell.Values
  {
    map j | j in cell :: cell[j].entries
  }
}
