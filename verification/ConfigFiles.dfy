/** Configuration files: printing a nested mapping as text and loading the text again. */
module ConfigFiles {
  import opened ConfigText
  import opened ConfigScalars
  import opened ConfigTree

  // ---------------------------------------------------------------- mappings of raw values

  /** Keys and values that survive printing, at every level. */
  predicate Printable(items: seq<Item>)
    decreases items
  {
    forall i :: 0 <= i < |items| ==>
      && Plain(HeadLine(items[i], 0))
      && (items[i].content.Block? ==> Printable(items[i].content.items))
  }

  lemma {:induction false} PrintableLines(items: seq<Item>, indent: nat)
    requires Printable(items)
    ensures forall l :: l in LinesOf(items, indent) ==> Plain(l)
    decreases items
  {
    if items != [] {
      var n := |items| - 1;
      PrintableLines(items[..n], indent);
      assert Plain(HeadLine(items[n], 0));
      if items[n].content.Block? {
        PrintableLines(items[n].content.items, items[n].content.indent);
      }
    }
  }

  /** Printing a nested mapping as text and loading the text rebuilds the mapping, whatever deeper indent
      each block is printed at. */
  lemma FileHoldsMapping(numeric: string -> bool, items: seq<Item>, indent: nat)
    requires Printable(items) && Deeper(items, indent)
    ensures TreeAt(Scalars(numeric), ReadAll(PrintAll(LinesOf(items, indent))), -1) == Node(Meaning(Scalars(numeric), items))
  {
    PrintableLines(items, indent);
    FileRoundTrip(LinesOf(items, indent));
    TreeRoundTrip(Scalars(numeric), items, indent);
  }

  // ---------------------------------------------------------------- mappings of scalars

  /** A nested mapping of scalars with the indent chosen for each section. */
  datatype Setting = Setting(key: string, content: Held)
  datatype Held = Given(scalar: Scalar) | Section(indent: nat, settings: seq<Setting>)

  /** The dictionary the settings stand for, later keys replacing earlier ones. */
  function Mapping(settings: seq<Setting>): map<string, Tree>
    decreases settings, 1
  {
    if settings == [] then map[]
    else
      var n := |settings| - 1;
      Mapping(settings[..n])[settings[n].key := MappingOf(settings[n].content)]
  }

  function MappingOf(content: Held): Tree
    decreases content, 0
  {
    match content
    case Given(scalar) => Leaf(scalar)
    case Section(_, settings) => Node(Mapping(settings))
  }

  /** The same settings with every scalar printed. */
  function Printed(settings: seq<Setting>): (r: seq<Item>)
    ensures |r| == |settings|
    decreases settings, 1
  {
    if settings == [] then []
    else
      var n := |settings| - 1;
      Printed(settings[..n]) + [Item(settings[n].key, PrintedOf(settings[n].content))]
  }

  function PrintedOf(content: Held): Content
    decreases content, 0
  {
    match content
    case Given(scalar) => Value(PrintScalar(scalar))
    case Section(indent, settings) => Block(indent, Printed(settings))
  }

  /** A scalar the parser can give back: a bare number, a word, a text, or a list of what lists can hold. */
  predicate Readable(numeric: string -> bool, s: Scalar) {
    && (s.Number? ==> Bare(numeric, s.text))
    && (s.List? ==> forall i :: 0 <= i < |s.items| ==> Listable(numeric, s.items[i]))
  }

  predicate PlainKey(key: string) {
    Stripped(key) && ':' !in key && '#' !in key
  }

  /** What a caller has to respect: plain keys, readable scalars without a comment sign, deeper sections. */
  predicate Storable(numeric: string -> bool, settings: seq<Setting>, indent: nat)
    decreases settings, 1
  {
    forall i :: 0 <= i < |settings| ==>
      PlainKey(settings[i].key) && StorableHeld(numeric, settings[i].content, indent)
  }

  predicate StorableHeld(numeric: string -> bool, content: Held, indent: nat)
    decreases content, 0
  {
    match content
    case Given(scalar) => Readable(numeric, scalar) && '#' !in PrintScalar(scalar)
    case Section(inner, settings) => inner > indent && Storable(numeric, settings, inner)
  }

  /** A printed scalar is a value the line parser leaves alone and the scalar parser reads back. */
  lemma PrintedScalarReads(numeric: string -> bool, s: Scalar)
    requires Readable(numeric, s)
    ensures ParseScalar(numeric, PrintScalar(s)) == s
    ensures PrintScalar(s) != "" && Stripped(PrintScalar(s))
  {
    if s.List? {
      forall i | 0 <= i < |s.items| ensures Proper(numeric, s.items[i]) {
        ListableIsProper(numeric, s.items[i]);
      }
      ListRoundTrip(numeric, s.items);
      PrintedListEnds(s.items);
    } else {
      ScalarRoundTrip(numeric, s);
    }
  }

  lemma PrintedListEnds(items: seq<Scalar>)
    ensures PrintScalar(List(items)) != "" && Stripped(PrintScalar(List(items)))
  {
    var joined := Joined(PrintEach(items));
    assert PrintScalar(List(items)) == "[" + joined + "]";
  }

  lemma {:induction false} PrintedItem(settings: seq<Setting>, i: nat)
    requires i < |settings|
    ensures Printed(settings)[i] == Item(settings[i].key, PrintedOf(settings[i].content))
    decreases |settings|
  {
    var n := |settings| - 1;
    if i < n {
      PrintedItem(settings[..n], i);
    }
  }

  lemma {:induction false} PrintedIsPrintable(numeric: string -> bool, settings: seq<Setting>, indent: nat)
    requires Storable(numeric, settings, indent)
    ensures Printable(Printed(settings)) && Deeper(Printed(settings), indent)
    decreases settings
  {
    forall i | 0 <= i < |settings|
      ensures Plain(HeadLine(Printed(settings)[i], 0))
      ensures Printed(settings)[i].content.Block? ==>
        && Printable(Printed(settings)[i].content.items)
        && Printed(settings)[i].content.indent > indent
        && Deeper(Printed(settings)[i].content.items, Printed(settings)[i].content.indent)
    {
      PrintedItem(settings, i);
      var content := settings[i].content;
      if content.Given? {
        PrintedScalarReads(numeric, content.scalar);
      } else {
        PrintedIsPrintable(numeric, content.settings, content.indent);
      }
    }
  }

  lemma {:induction false} PrintedMeans(numeric: string -> bool, settings: seq<Setting>, indent: nat)
    requires Storable(numeric, settings, indent)
    ensures Meaning(Scalars(numeric), Printed(settings)) == Mapping(settings)
    decreases settings
  {
    if settings != [] {
      var n := |settings| - 1;
      PrintedMeans(numeric, settings[..n], indent);
      PrintedItem(settings, n);
      assert Printed(settings)[..n] == Printed(settings[..n]);
      var content := settings[n].content;
      if content.Given? {
        PrintedScalarReads(numeric, content.scalar);
      } else {
        PrintedMeans(numeric, content.settings, content.indent);
      }
    }
  }

  /** Printing a nested mapping of scalars and loading the text gives exactly those scalars at those paths. */
  lemma FileHoldsScalars(numeric: string -> bool, settings: seq<Setting>, indent: nat)
    requires Storable(numeric, settings, indent)
    ensures TreeAt(Scalars(numeric), ReadAll(PrintAll(LinesOf(Printed(settings), indent))), -1) == Node(Mapping(settings))
  {
    PrintedIsPrintable(numeric, settings, indent);
    FileHoldsMapping(numeric, Printed(settings), indent);
    PrintedMeans(numeric, settings, indent);
  }
}
