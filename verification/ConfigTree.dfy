/** What a file of indented lines means: each line belongs to the nearest earlier section that is still open
    at a smaller indent. Printing a nested mapping and reading it this way gives the mapping back. */
module ConfigTree {
  import opened Wrappers
  import opened ConfigText
  import opened ConfigScalars

  datatype Tree = Leaf(scalar: Scalar) | Node(entries: map<string, Tree>)

  // ---------------------------------------------------------------- sections and parents

  /** The root counts as line -1 with indent -1. */
  function IndentOf(lines: seq<Line>, j: int): int
    requires -1 <= j < |lines|
  {
    if j == -1 then -1 else lines[j].indent
  }

  predicate OpensSection(lines: seq<Line>, j: int)
    requires -1 <= j < |lines|
  {
    j == -1 || lines[j].value.None?
  }

  /** Section `j` has not been closed by a line before `n`. */
  predicate OpenAt(lines: seq<Line>, j: int, n: nat)
    requires -1 <= j < n <= |lines|
  {
    OpensSection(lines, j) && forall m :: j < m < n ==> lines[m].indent > IndentOf(lines, j)
  }

  predicate CanOwn(lines: seq<Line>, j: int, n: nat)
    requires -1 <= j < n < |lines|
  {
    OpenAt(lines, j, n) && IndentOf(lines, j) < lines[n].indent
  }

  function ParentFrom(lines: seq<Line>, n: nat, j: int): (r: int)
    requires -1 <= j < n < |lines|
    ensures -1 <= r <= j && CanOwn(lines, r, n)
    ensures forall q :: -1 <= q <= j && q > r ==> !CanOwn(lines, q, n)
    decreases j
  {
    if j == -1 || CanOwn(lines, j, n) then j else ParentFrom(lines, n, j - 1)
  }

  /** The section a line belongs to. */
  function Parent(lines: seq<Line>, n: nat): (r: int)
    requires n < |lines|
    ensures -1 <= r < n && CanOwn(lines, r, n)
    ensures forall q :: -1 <= q < n && q > r ==> !CanOwn(lines, q, n)
  {
    ParentFrom(lines, n, n - 1)
  }

  /** Line `m` gives `key` a value in section `j`. */
  predicate Sets(lines: seq<Line>, j: int, key: string, m: nat) {
    m < |lines| && Parent(lines, m) == j && lines[m].key == key
  }

  /** The last of the first `n` lines that does. */
  function LastChild(lines: seq<Line>, j: int, key: string, n: nat): (r: Option<nat>)
    requires n <= |lines|
    ensures r.Some? ==> r.value < n && Sets(lines, j, key, r.value)
    ensures r.Some? ==> forall m :: 0 <= m < n && m > r.value ==> !Sets(lines, j, key, m)
    ensures r.None? ==> forall m :: 0 <= m < n ==> !Sets(lines, j, key, m)
  {
    if n == 0 then None else if Sets(lines, j, key, n - 1) then Some(n - 1) else LastChild(lines, j, key, n - 1)
  }

  function ChildKeys(lines: seq<Line>, j: int): set<string> {
    set m | 0 <= m < |lines| && Parent(lines, m) == j :: lines[m].key
  }

  lemma KeyHasLine(lines: seq<Line>, j: int, key: string)
    ensures key in ChildKeys(lines, j) <==> LastChild(lines, j, key, |lines|).Some?
  {
    if key in ChildKeys(lines, j) {
      var m :| 0 <= m < |lines| && Parent(lines, m) == j && lines[m].key == key;
      assert Sets(lines, j, key, m);
    }
  }

  /** The tree below line `j`. */
  function TreeAt(scalar: string -> Scalar, lines: seq<Line>, j: int): Tree
    requires -1 <= j < |lines|
    decreases |lines| - j
  {
    Node(map key | key in ChildKeys(lines, j) ::
      KeyHasLine(lines, j, key);
      var m := LastChild(lines, j, key, |lines|).value;
      if lines[m].value.Some? then Leaf(scalar(lines[m].value.value)) else TreeAt(scalar, lines, m))
  }

  // ---------------------------------------------------------------- printing a nested mapping

  /** A nested mapping with the indent chosen for each block. */
  datatype Item = Item(key: string, content: Content)
  datatype Content = Value(text: string) | Block(indent: nat, items: seq<Item>)

  function HeadLine(item: Item, indent: nat): Line {
    Line(indent, item.key, if item.content.Value? then Some(item.content.text) else None)
  }

  function ItemLines(item: Item, indent: nat): seq<Line>
    decreases item, 0
  {
    [HeadLine(item, indent)] + (if item.content.Block? then LinesOf(item.content.items, item.content.indent) else [])
  }

  function LinesOf(items: seq<Item>, indent: nat): seq<Line>
    decreases items, 1
  {
    if items == [] then []
    else
      var n := |items| - 1;
      LinesOf(items[..n], indent) + ItemLines(items[n], indent)
  }

  function MeaningOf(scalar: string -> Scalar, content: Content): Tree
    decreases content, 0
  {
    match content
    case Value(text) => Leaf(scalar(text))
    case Block(_, items) => Node(Meaning(scalar, items))
  }

  /** The dictionary the items stand for, later keys replacing earlier ones. */
  function Meaning(scalar: string -> Scalar, items: seq<Item>): map<string, Tree>
    decreases items, 1
  {
    if items == [] then map[]
    else
      var n := |items| - 1;
      Meaning(scalar, items[..n])[items[n].key := MeaningOf(scalar, items[n].content)]
  }

  /** Every block is indented more than the line that opens it. */
  predicate Deeper(items: seq<Item>, indent: nat)
    decreases items
  {
    forall i :: 0 <= i < |items| && items[i].content.Block? ==>
      items[i].content.indent > indent && Deeper(items[i].content.items, items[i].content.indent)
  }

  // ---------------------------------------------------------------- where the items are

  lemma {:induction false} NoShallowLine(items: seq<Item>, indent: nat)
    requires Deeper(items, indent)
    ensures forall l :: l in LinesOf(items, indent) ==> l.indent >= indent
    decreases items
  {
    if items != [] {
      var n := |items| - 1;
      NoShallowLine(items[..n], indent);
      if items[n].content.Block? {
        NoShallowLine(items[n].content.items, items[n].content.indent);
      }
    }
  }

  /** The offset of an item's first line. */
  function Offset(items: seq<Item>, indent: nat, i: nat): nat
    requires i <= |items|
  {
    |LinesOf(items[..i], indent)|
  }

  lemma OffsetStep(items: seq<Item>, indent: nat, i: nat)
    requires i < |items|
    ensures Offset(items, indent, i + 1) == Offset(items, indent, i) + |ItemLines(items[i], indent)|
    ensures Offset(items, indent, i + 1) > Offset(items, indent, i)
  {
    assert items[..i + 1][..i] == items[..i];
  }

  lemma {:induction false} OffsetsGrow(items: seq<Item>, indent: nat, i: nat, j: nat)
    requires i < j <= |items|
    ensures Offset(items, indent, i) + |ItemLines(items[i], indent)| <= Offset(items, indent, j)
    ensures Offset(items, indent, i) < Offset(items, indent, j)
    decreases j
  {
    OffsetStep(items, indent, j - 1);
    if i < j - 1 {
      OffsetsGrow(items, indent, i, j - 1);
    }
  }

  lemma {:induction false} ItemIsAtOffset(items: seq<Item>, indent: nat, i: nat)
    requires i < |items|
    ensures Offset(items, indent, i) + |ItemLines(items[i], indent)| <= |LinesOf(items, indent)|
    ensures LinesOf(items, indent)[Offset(items, indent, i)..Offset(items, indent, i) + |ItemLines(items[i], indent)|]
      == ItemLines(items[i], indent)
    ensures i == |items| - 1 ==> Offset(items, indent, i) + |ItemLines(items[i], indent)| == |LinesOf(items, indent)|
    decreases |items|
  {
    var n := |items| - 1;
    var before, last := LinesOf(items[..n], indent), ItemLines(items[n], indent);
    assert LinesOf(items, indent) == before + last;
    if i < n {
      ItemIsAtOffset(items[..n], indent, i);
      assert items[..n][..i] == items[..i];
      SliceOfPrefix(before, last, Offset(items, indent, i), Offset(items, indent, i) + |ItemLines(items[i], indent)|);
    } else {
      SliceOfSuffix(before, last);
    }
  }

  lemma SliceOfPrefix(a: seq<Line>, b: seq<Line>, i: nat, j: nat)
    requires i <= j <= |a|
    ensures (a + b)[i..j] == a[i..j]
  {
  }

  lemma SliceOfSuffix(a: seq<Line>, b: seq<Line>)
    ensures (a + b)[|a|..|a| + |b|] == b
  {
  }

  lemma IndexOfSlice(lines: seq<Line>, a: nat, own: seq<Line>, k: nat)
    requires k < |own| && a + |own| <= |lines| && lines[a..a + |own|] == own
    ensures lines[a + k] == own[k]
  {
    assert lines[a + k] == lines[a..a + |own|][k];
  }

  /** What follows the first line of an item is its block. */
  lemma InnerOfItem(item: Item, indent: nat, k: nat)
    requires 0 < k < |ItemLines(item, indent)|
    ensures item.content.Block? && k - 1 < |LinesOf(item.content.items, item.content.indent)|
    ensures ItemLines(item, indent)[k] == LinesOf(item.content.items, item.content.indent)[k - 1]
  {
  }

  /** Every line lies in one item. */
  lemma {:induction false} ItemOfLine(items: seq<Item>, indent: nat, x: nat) returns (i: nat)
    requires x < |LinesOf(items, indent)|
    ensures i < |items| && Offset(items, indent, i) <= x < Offset(items, indent, i) + |ItemLines(items[i], indent)|
    decreases |items|
  {
    var n := |items| - 1;
    if x < |LinesOf(items[..n], indent)| {
      i := ItemOfLine(items[..n], indent, x);
      assert items[..n][..i] == items[..i];
    } else {
      i := n;
    }
  }

  // ---------------------------------------------------------------- a printed block inside a file

  /** Line `p` opens a section whose body is exactly the printed items. */
  predicate Hosts(lines: seq<Line>, p: int, items: seq<Item>, indent: nat) {
    && -1 <= p < |lines| && OpensSection(lines, p) && IndentOf(lines, p) < indent
    && p + 1 + |LinesOf(items, indent)| <= |lines|
    && lines[p + 1..p + 1 + |LinesOf(items, indent)|] == LinesOf(items, indent)
    && EndsAt(lines, p, p + 1 + |LinesOf(items, indent)|)
  }

  /** The section's body ends here: at the end of the file or at a line that closes the section. */
  predicate EndsAt(lines: seq<Line>, p: int, e: nat)
    requires -1 <= p < |lines|
  {
    e == |lines| || (e < |lines| && lines[e].indent <= IndentOf(lines, p))
  }

  function Position(p: int, items: seq<Item>, indent: nat, i: nat): int
    requires i <= |items|
  {
    p + 1 + Offset(items, indent, i)
  }

  lemma HostedLine(lines: seq<Line>, p: int, items: seq<Item>, indent: nat, m: nat)
    requires Hosts(lines, p, items, indent) && Deeper(items, indent)
    requires p < m < p + 1 + |LinesOf(items, indent)|
    ensures lines[m].indent >= indent && lines[m] == LinesOf(items, indent)[m - p - 1]
  {
    assert lines[m] == lines[p + 1..p + 1 + |LinesOf(items, indent)|][m - p - 1];
    NoShallowLine(items, indent);
  }

  lemma HostedItem(lines: seq<Line>, p: int, items: seq<Item>, indent: nat, i: nat)
    requires Hosts(lines, p, items, indent) && i < |items|
    ensures var m, own := Position(p, items, indent, i), ItemLines(items[i], indent);
      p < m && m + |own| <= p + 1 + |LinesOf(items, indent)| && lines[m..m + |own|] == own && lines[m] == HeadLine(items[i], indent)
  {
    ItemIsAtOffset(items, indent, i);
    FirstOfItem(items[i], indent);
    SliceOfSlice(lines, p + 1, LinesOf(items, indent), Offset(items, indent, i), ItemLines(items[i], indent));
  }

  lemma FirstOfItem(item: Item, indent: nat)
    ensures |ItemLines(item, indent)| > 0 && ItemLines(item, indent)[0] == HeadLine(item, indent)
  {
  }

  lemma SliceOfSlice(lines: seq<Line>, a: nat, all: seq<Line>, b: nat, own: seq<Line>)
    requires a + |all| <= |lines| && lines[a..a + |all|] == all
    requires own != [] && b + |own| <= |all| && all[b..b + |own|] == own
    ensures lines[a + b..a + b + |own|] == own && lines[a + b] == own[0]
  {
    forall k | 0 <= k < |own| ensures lines[a + b + k] == own[k] {
      assert lines[a..a + |all|][b + k] == lines[a + b + k];
      assert all[b..b + |own|][k] == all[b + k];
    }
  }

  /** A line of an item that is not its first one is deeper than the item. */
  lemma InnerLine(lines: seq<Line>, p: int, items: seq<Item>, indent: nat, i: nat, m: nat)
    requires Hosts(lines, p, items, indent) && Deeper(items, indent) && i < |items|
    requires Position(p, items, indent, i) < m < Position(p, items, indent, i) + |ItemLines(items[i], indent)|
    ensures m < |lines| && lines[m].indent > indent && items[i].content.Block?
  {
    HostedItem(lines, p, items, indent, i);
    var h := Position(p, items, indent, i);
    IndexOfSlice(lines, h, ItemLines(items[i], indent), m - h);
    InnerOfItem(items[i], indent, m - h);
    NoShallowLine(items[i].content.items, items[i].content.indent);
  }

  /** The first line of an item belongs to the hosting section. */
  lemma HeadsBelong(lines: seq<Line>, p: int, items: seq<Item>, indent: nat, i: nat)
    requires Hosts(lines, p, items, indent) && Deeper(items, indent) && i < |items|
    ensures var m := Position(p, items, indent, i); 0 <= m < |lines| && Parent(lines, m) == p
  {
    HostedItem(lines, p, items, indent, i);
    var m := Position(p, items, indent, i);
    forall q | p < q < m ensures lines[q].indent >= indent && !CanOwn(lines, q, m) {
      HostedLine(lines, p, items, indent, q);
    }
    assert CanOwn(lines, p, m);
  }

  /** An inner line of an item belongs to something deeper. */
  lemma InnerLinesDoNot(lines: seq<Line>, p: int, items: seq<Item>, indent: nat, i: nat, m: nat)
    requires Hosts(lines, p, items, indent) && Deeper(items, indent) && i < |items|
    requires Position(p, items, indent, i) < m < Position(p, items, indent, i) + |ItemLines(items[i], indent)|
    ensures m < |lines| && Parent(lines, m) != p
  {
    HostedItem(lines, p, items, indent, i);
    var h := Position(p, items, indent, i);
    InnerLine(lines, p, items, indent, i, m);
    forall q | h < q < m ensures lines[q].indent > indent {
      InnerLine(lines, p, items, indent, i, q);
    }
    assert OpenAt(lines, h, m);
    assert CanOwn(lines, h, m);
  }

  /** Behind its body a section owns nothing. */
  lemma NothingAfterTheEnd(lines: seq<Line>, p: int, e: nat, m: nat)
    requires -1 <= p < e <= m < |lines| && EndsAt(lines, p, e)
    ensures Parent(lines, m) != p
  {
    assert !CanOwn(lines, p, m) by {
      if m > e {
        assert p < e < m && lines[e].indent <= IndentOf(lines, p);
      }
    }
  }

  /** The children of a hosting section are exactly the first lines of its items. */
  lemma Children(lines: seq<Line>, p: int, items: seq<Item>, indent: nat, m: nat)
    requires Hosts(lines, p, items, indent) && Deeper(items, indent) && m < |lines| && Parent(lines, m) == p
    ensures exists i :: 0 <= i < |items| && m == Position(p, items, indent, i)
  {
    var e := p + 1 + |LinesOf(items, indent)|;
    if m >= e {
      NothingAfterTheEnd(lines, p, e, m);
    } else {
      var i := ItemOfLine(items, indent, m - p - 1);
      if m != Position(p, items, indent, i) {
        InnerLinesDoNot(lines, p, items, indent, i, m);
      }
    }
  }

  /** A section's body ends where the next item starts. */
  lemma ItemEnds(lines: seq<Line>, p: int, items: seq<Item>, indent: nat, i: nat)
    requires Hosts(lines, p, items, indent) && i < |items|
    ensures var m := Position(p, items, indent, i);
      0 <= m < |lines| && lines[m].indent == indent && EndsAt(lines, m, m + |ItemLines(items[i], indent)|)
  {
    HostedItem(lines, p, items, indent, i);
    if i + 1 < |items| {
      HostedItem(lines, p, items, indent, i + 1);
      OffsetStep(items, indent, i);
    } else {
      ItemIsAtOffset(items, indent, i);
    }
  }

  lemma HostsBlock(lines: seq<Line>, m: nat, head: Line, items: seq<Item>, indent: nat)
    requires m < |lines| && lines[m].value.None? && lines[m].indent < indent
    requires m + 1 + |LinesOf(items, indent)| <= |lines|
    requires lines[m..m + 1 + |LinesOf(items, indent)|] == [head] + LinesOf(items, indent)
    requires EndsAt(lines, m, m + 1 + |LinesOf(items, indent)|)
    ensures Hosts(lines, m, items, indent)
  {
    TailSlice(lines, m, head, LinesOf(items, indent));
  }

  /** An item's block is hosted by the item's first line. */
  lemma ItemHosts(lines: seq<Line>, p: int, items: seq<Item>, indent: nat, i: nat)
    requires Hosts(lines, p, items, indent) && Deeper(items, indent) && i < |items| && items[i].content.Block?
    ensures Hosts(lines, Position(p, items, indent, i), items[i].content.items, items[i].content.indent)
  {
    HostedItem(lines, p, items, indent, i);
    ItemEnds(lines, p, items, indent, i);
    BlockLines(items[i], indent);
    HostsBlock(lines, Position(p, items, indent, i), HeadLine(items[i], indent), items[i].content.items, items[i].content.indent);
  }

  lemma BlockLines(item: Item, indent: nat)
    requires item.content.Block?
    ensures ItemLines(item, indent) == [HeadLine(item, indent)] + LinesOf(item.content.items, item.content.indent)
    ensures HeadLine(item, indent).value.None?
  {
  }

  lemma TailSlice(lines: seq<Line>, m: nat, head: Line, inner: seq<Line>)
    requires m + 1 + |inner| <= |lines| && lines[m..m + 1 + |inner|] == [head] + inner
    ensures lines[m + 1..m + 1 + |inner|] == inner
  {
    assert lines[m + 1..m + 1 + |inner|] == lines[m..m + 1 + |inner|][1..];
  }

  // ---------------------------------------------------------------- the round trip

  /** The last item with a key. */
  function LastItem(items: seq<Item>, key: string): (r: Option<nat>)
    ensures r.Some? ==> r.value < |items| && items[r.value].key == key && forall i :: 0 <= i < |items| && i > r.value ==> items[i].key != key
    ensures r.None? ==> forall i :: 0 <= i < |items| ==> items[i].key != key
  {
    if items == [] then None
    else if items[|items| - 1].key == key then Some(|items| - 1)
    else LastItem(items[..|items| - 1], key)
  }

  lemma {:induction false} MeaningIsLastItem(scalar: string -> Scalar, items: seq<Item>, key: string)
    ensures key in Meaning(scalar, items) <==> LastItem(items, key).Some?
    ensures key in Meaning(scalar, items) ==>
      Meaning(scalar, items)[key] == MeaningOf(scalar, items[LastItem(items, key).value].content)
  {
    if items != [] {
      MeaningIsLastItem(scalar, items[..|items| - 1], key);
    }
  }

  lemma ItemSets(lines: seq<Line>, p: int, items: seq<Item>, indent: nat, i: nat)
    requires Hosts(lines, p, items, indent) && Deeper(items, indent) && i < |items|
    ensures Position(p, items, indent, i) >= 0 && Sets(lines, p, items[i].key, Position(p, items, indent, i))
  {
    HeadsBelong(lines, p, items, indent, i);
    HostedItem(lines, p, items, indent, i);
  }

  lemma SetByItem(lines: seq<Line>, p: int, items: seq<Item>, indent: nat, key: string, m: nat) returns (i: nat)
    requires Hosts(lines, p, items, indent) && Deeper(items, indent) && Sets(lines, p, key, m)
    ensures i < |items| && m == Position(p, items, indent, i) && items[i].key == key
  {
    Children(lines, p, items, indent, m);
    i :| 0 <= i < |items| && m == Position(p, items, indent, i);
    HostedItem(lines, p, items, indent, i);
  }

  lemma LastOfBoth(lines: seq<Line>, p: int, items: seq<Item>, indent: nat, key: string, m: nat, i: nat)
    requires Hosts(lines, p, items, indent) && Deeper(items, indent)
    requires Sets(lines, p, key, m) && forall m' :: m < m' < |lines| ==> !Sets(lines, p, key, m')
    requires i < |items| && items[i].key == key && forall i' :: i < i' < |items| ==> items[i'].key != key
    ensures m == Position(p, items, indent, i)
  {
    ItemSets(lines, p, items, indent, i);
    var at := SetByItem(lines, p, items, indent, key, m);
    if at < i {
      OffsetsGrow(items, indent, at, i);
    }
  }

  lemma LastChildIsLastItem(lines: seq<Line>, p: int, items: seq<Item>, indent: nat, key: string)
    requires Hosts(lines, p, items, indent) && Deeper(items, indent)
    ensures LastChild(lines, p, key, |lines|).Some? <==> LastItem(items, key).Some?
    ensures LastItem(items, key).Some? ==>
      LastChild(lines, p, key, |lines|) == Some(Position(p, items, indent, LastItem(items, key).value))
  {
    var child, item := LastChild(lines, p, key, |lines|), LastItem(items, key);
    if item.Some? {
      assert child.Some? by {
        ItemSets(lines, p, items, indent, item.value);
      }
      LastOfBoth(lines, p, items, indent, key, child.value, item.value);
    } else if child.Some? {
      var i := SetByItem(lines, p, items, indent, key, child.value);
    }
  }

  /** The section that hosts a printed mapping holds that mapping. */
  lemma {:induction false} HostHoldsMeaning(scalar: string -> Scalar, lines: seq<Line>, p: int, items: seq<Item>, indent: nat)
    requires Hosts(lines, p, items, indent) && Deeper(items, indent)
    ensures TreeAt(scalar, lines, p) == Node(Meaning(scalar, items))
    decreases items
  {
    var entries := TreeAt(scalar, lines, p).entries;
    forall key ensures key in entries <==> key in Meaning(scalar, items)
      ensures key in entries ==> entries[key] == Meaning(scalar, items)[key]
    {
      KeyHasLine(lines, p, key);
      LastChildIsLastItem(lines, p, items, indent, key);
      MeaningIsLastItem(scalar, items, key);
      if LastItem(items, key).Some? {
        var i := LastItem(items, key).value;
        HostedItem(lines, p, items, indent, i);
        if items[i].content.Block? {
          ItemHosts(lines, p, items, indent, i);
          HostHoldsMeaning(scalar, lines, Position(p, items, indent, i), items[i].content.items, items[i].content.indent);
        }
      }
    }
    assert entries == Meaning(scalar, items);
  }

  /** Printing a nested mapping, every block indented deeper than its key by whatever amount, and reading
      the lines back gives the mapping. */
  lemma TreeRoundTrip(scalar: string -> Scalar, items: seq<Item>, indent: nat)
    requires Deeper(items, indent)
    ensures TreeAt(scalar, LinesOf(items, indent), -1) == Node(Meaning(scalar, items))
  {
    var lines := LinesOf(items, indent);
    assert lines[0..|lines|] == lines;
    HostHoldsMeaning(scalar, lines, -1, items, indent);
  }
}
