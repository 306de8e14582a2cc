/** The scalar values of the fallback configuration format. */
module ConfigScalars {
  import opened ConfigText

  datatype Scalar = Null | Bool(value: bool) | Number(text: string) | Text(text: string) | List(items: seq<Scalar>)

  function Inner(s: string): string {
    if |s| >= 2 then s[1..|s| - 1] else ""
  }

  predicate Quoted(s: string, first: char, last: char) {
    s != "" && s[0] == first && s[|s| - 1] == last
  }

  function Lower(s: string): string {
    seq(|s|, i requires 0 <= i < |s| => if 'A' <= s[i] <= 'Z' then s[i] + 32 as char else s[i])
  }

  function SplitAt(s: string, c: char): (r: seq<string>)
    ensures forall p :: p in r ==> |p| <= |s|
  {
    var head := Before(s, c);
    if |head| == |s| then [s] else [head] + SplitAt(s[|head| + 1..], c)
  }

  /** `numeric` says whether a text is a Python integer or float literal. */
  function ParseScalar(numeric: string -> bool, value: string): Scalar
    decreases |value| + 1, 0
  {
    if Quoted(value, '[', ']') then List(ParseItems(numeric, SplitAt(Inner(value), ','), |value|))
    else if Quoted(value, '"', '"') || Quoted(value, '\'', '\'') then Text(Inner(value))
    else if Lower(value) == "null" || Lower(value) == "none" then Null
    else if Lower(value) == "true" || Lower(value) == "false" then Bool(Lower(value) == "true")
    else if numeric(value) then Number(value) else Text(value)
  }

  function ParseItems(numeric: string -> bool, pieces: seq<string>, bound: nat): seq<Scalar>
    requires forall p :: p in pieces ==> |p| < bound
    decreases bound, |pieces|
  {
    if pieces == [] then []
    else
      var item := Strip(pieces[0]);
      StripNotLonger(pieces[0]);
      (if item == "" then [] else [ParseScalar(numeric, item)]) + ParseItems(numeric, pieces[1..], bound)
  }

  lemma StripNotLonger(s: string)
    ensures |Strip(s)| <= |s|
  {
    StripLeftShape(s);
    StripRightShape(StripLeft(s));
  }

  function Scalars(numeric: string -> bool): string -> Scalar {
    (value: string) => ParseScalar(numeric, value)
  }

  // ---------------------------------------------------------------- what values mean

  /** Equal but for the case of ASCII letters. */
  predicate SameWord(s: string, word: string) {
    |s| == |word| && forall i :: 0 <= i < |s| ==> s[i] == word[i] || ('A' <= s[i] <= 'Z' && s[i] as int + 32 == word[i] as int)
  }

  lemma LowerMeaning(s: string, word: string)
    requires forall i :: 0 <= i < |word| ==> !('A' <= word[i] <= 'Z')
    ensures Lower(s) == word <==> SameWord(s, word)
  {
    if SameWord(s, word) {
      forall i | 0 <= i < |s| ensures Lower(s)[i] == word[i] {
        assert s[i] == word[i] || ('A' <= s[i] <= 'Z' && s[i] as int + 32 == word[i] as int);
      }
    } else if |s| == |word| {
      var i :| 0 <= i < |s| && !(s[i] == word[i] || ('A' <= s[i] <= 'Z' && s[i] as int + 32 == word[i] as int));
      assert Lower(s)[i] != word[i];
    }
  }

  predicate InMarks(s: string) {
    Quoted(s, '[', ']') || Quoted(s, '"', '"') || Quoted(s, '\'', '\'')
  }

  /** Quotes of either kind give their inside as a text, whatever it is. */
  lemma QuotedMeaning(numeric: string -> bool, text: string)
    ensures ParseScalar(numeric, "\"" + text + "\"") == Text(text)
    ensures ParseScalar(numeric, "'" + text + "'") == Text(text)
  {
    var double, single := "\"" + text + "\"", "'" + text + "'";
    assert double[0] == '"' && double[|double| - 1] == '"' && Inner(double) == text;
    assert single[0] == '\'' && single[|single| - 1] == '\'' && Inner(single) == text;
  }

  /** Anything else is one of four words in any case, or a number literal, or a text as it stands. */
  lemma UnquotedMeaning(numeric: string -> bool, value: string)
    requires !InMarks(value)
    ensures var nothing := SameWord(value, "null") || SameWord(value, "none");
      var yes, no := SameWord(value, "true"), SameWord(value, "false");
      && (nothing ==> ParseScalar(numeric, value) == Null)
      && (!nothing && yes ==> ParseScalar(numeric, value) == Bool(true))
      && (!nothing && !yes && no ==> ParseScalar(numeric, value) == Bool(false))
      && (!nothing && !yes && !no ==> ParseScalar(numeric, value) == if numeric(value) then Number(value) else Text(value))
  {
    LowerMeaning(value, "null");
    LowerMeaning(value, "none");
    LowerMeaning(value, "true");
    LowerMeaning(value, "false");
  }

  // ---------------------------------------------------------------- printing scalars

  function Joined(texts: seq<string>): string {
    if texts == [] then ""
    else if |texts| == 1 then texts[0]
    else texts[0] + [','] + (" " + Joined(texts[1..]))
  }

  function PrintScalar(s: Scalar): string {
    match s
    case Null => "null"
    case Bool(b) => if b then "true" else "false"
    case Number(text) => text
    case Text(text) => "\"" + text + "\""
    case List(items) => "[" + Joined(seq(|items|, i requires 0 <= i < |items| => PrintScalar(items[i]))) + "]"
  }

  function PrintEach(items: seq<Scalar>): seq<string> {
    seq(|items|, i requires 0 <= i < |items| => PrintScalar(items[i]))
  }

  /** A number literal that is not taken for anything else. */
  predicate Bare(numeric: string -> bool, text: string) {
    && text != "" && Stripped(text) && ',' !in text && numeric(text)
    && !Quoted(text, '[', ']') && !Quoted(text, '"', '"') && !Quoted(text, '\'', '\'')
    && Lower(text) !in ["null", "none", "true", "false"]
  }

  /** A scalar whose numbers are bare, at every depth. */
  predicate Proper(numeric: string -> bool, s: Scalar) {
    match s
    case Number(text) => Bare(numeric, text)
    case List(items) => forall i :: 0 <= i < |items| ==> Proper(numeric, items[i])
    case _ => true
  }

  /** A proper scalar a list can hold: no comma in a text, and at most one item in a list inside it. */
  predicate Listable(numeric: string -> bool, s: Scalar) {
    match s
    case Number(text) => Bare(numeric, text)
    case Text(text) => ',' !in text
    case List(items) => |items| <= 1 && forall i :: 0 <= i < |items| ==> Listable(numeric, items[i])
    case _ => true
  }

  lemma {:induction false} ListableIsProper(numeric: string -> bool, s: Scalar)
    requires Listable(numeric, s)
    ensures Proper(numeric, s)
  {
    if s.List? {
      forall i | 0 <= i < |s.items| ensures Proper(numeric, s.items[i]) {
        ListableIsProper(numeric, s.items[i]);
      }
    }
  }

  lemma WordsParse(numeric: string -> bool)
    ensures ParseScalar(numeric, "null") == Null
    ensures ParseScalar(numeric, "true") == Bool(true)
    ensures ParseScalar(numeric, "false") == Bool(false)
  {
    assert Lower("null") == "null" && Lower("true") == "true" && Lower("false") == "false";
  }

  lemma SplitOnce(pad: string, first: string, c: char, rest: string)
    requires c !in pad && c !in first
    ensures SplitAt(pad + first, c) == [pad + first]
    ensures SplitAt(pad + (first + [c] + rest), c) == [pad + first] + SplitAt(rest, c)
  {
    assert pad + (first + [c] + rest) == pad + first + [c] + rest;
    BeforeOf(pad + first, c, rest);
  }

  /** The pieces that joined texts are split into again. */
  function Pieces(pad: string, texts: seq<string>): seq<string> {
    seq(|texts|, i requires 0 <= i < |texts| => (if i == 0 then pad else " ") + texts[i])
  }

  lemma {:induction false} SplitJoined(pad: string, texts: seq<string>)
    requires texts != [] && ',' !in pad && forall i :: 0 <= i < |texts| ==> ',' !in texts[i]
    ensures SplitAt(pad + Joined(texts), ',') == Pieces(pad, texts)
    decreases |texts|
  {
    if |texts| == 1 {
      SplitOnce(pad, texts[0], ',', "");
    } else {
      SplitOnce(pad, texts[0], ',', " " + Joined(texts[1..]));
      SplitJoined(" ", texts[1..]);
      PiecesStep(pad, texts);
    }
  }

  lemma PiecesStep(pad: string, texts: seq<string>)
    requires |texts| > 1
    ensures Pieces(pad, texts) == [pad + texts[0]] + Pieces(" ", texts[1..])
  {
  }

  /** Printed without a comma, and read back. */
  predicate ReadsBack(numeric: string -> bool, s: Scalar) {
    var text := PrintScalar(s);
    text != "" && Stripped(text) && ',' !in text && ParseScalar(numeric, text) == s
  }

  predicate Reads(numeric: string -> bool, piece: string, s: Scalar) {
    Strip(piece) != "" && ParseScalar(numeric, Strip(piece)) == s
  }

  lemma PieceReads(numeric: string -> bool, pad: string, s: Scalar)
    requires ReadsBack(numeric, s) && forall c :: c in pad ==> IsSpace(c)
    ensures Reads(numeric, pad + PrintScalar(s), s)
  {
    StripOf(pad, PrintScalar(s));
  }

  lemma {:induction false} AllRead(numeric: string -> bool, pieces: seq<string>, items: seq<Scalar>, bound: nat)
    requires |pieces| == |items| && forall i :: 0 <= i < |items| ==> Reads(numeric, pieces[i], items[i])
    requires forall p :: p in pieces ==> |p| < bound
    ensures ParseItems(numeric, pieces, bound) == items
    decreases |items|
  {
    if items != [] {
      AllRead(numeric, pieces[1..], items[1..], bound);
      assert Reads(numeric, pieces[0], items[0]);
      assert items == [items[0]] + items[1..];
    }
  }

  lemma {:induction false} PiecesHaveNoComma(s: string, c: char)
    ensures forall p :: p in SplitAt(s, c) ==> c !in p
    decreases |s|
  {
    var head := Before(s, c);
    if |head| < |s| {
      PiecesHaveNoComma(s[|head| + 1..], c);
      assert SplitAt(s, c) == [head] + SplitAt(s[|head| + 1..], c);
    } else {
      assert SplitAt(s, c) == [s];
    }
  }

  lemma NoCommaInside(value: string)
    requires ',' !in value
    ensures ',' !in Inner(value) && ',' !in Strip(Inner(value)) && SplitAt(Inner(value), ',') == [Inner(value)]
    ensures |value| >= 2 ==> |Strip(Inner(value))| < |value|
  {
    StripShape(Inner(value));
    StripNotLonger(Inner(value));
  }

  lemma PrintOne(x: Scalar)
    ensures PrintScalar(List([x])) == "[" + PrintScalar(x) + "]"
  {
    assert PrintEach([x]) == [PrintScalar(x)];
    assert PrintScalar(List([x])) == "[" + Joined(PrintEach([x])) + "]";
  }

  lemma EmptyListPrints()
    ensures PrintScalar(List([])) == "[]"
  {
    assert PrintEach([]) == [];
    assert PrintScalar(List([])) == "[" + Joined(PrintEach([])) + "]";
  }

  lemma OnePiece(numeric: string -> bool, piece: string, bound: nat)
    requires |piece| < bound
    ensures ParseItems(numeric, [piece], bound)
      == (if Strip(piece) == "" then [] else (StripNotLonger(piece); [ParseScalar(numeric, Strip(piece))]))
  {
    StripNotLonger(piece);
    assert [piece][1..] == [];
  }

  /** A value in brackets without commas holds one item or none. */
  lemma ShortListParses(numeric: string -> bool, value: string)
    requires ',' !in value && Quoted(value, '[', ']')
    ensures ParseScalar(numeric, value)
      == List(if Strip(Inner(value)) == "" then [] else [ParseScalar(numeric, Strip(Inner(value)))])
  {
    NoCommaInside(value);
    OnePiece(numeric, Inner(value), |value|);
  }

  /** What is parsed from a text without commas prints without commas. */
  lemma {:induction false} ParsedHasNoComma(numeric: string -> bool, value: string)
    requires ',' !in value
    ensures ',' !in PrintScalar(ParseScalar(numeric, value))
    decreases |value|
  {
    NoCommaInside(value);
    if Quoted(value, '[', ']') {
      ShortListParses(numeric, value);
      EmptyListPrints();
      if Strip(Inner(value)) != "" {
        ParsedHasNoComma(numeric, Strip(Inner(value)));
        PrintOne(ParseScalar(numeric, Strip(Inner(value))));
      }
    } else {
      PlainHasNoComma(numeric, value);
    }
  }

  lemma PlainHasNoComma(numeric: string -> bool, value: string)
    requires ',' !in value && ',' !in Inner(value) && !Quoted(value, '[', ']')
    ensures ',' !in PrintScalar(ParseScalar(numeric, value))
  {
  }

  lemma {:induction false} ParsedItemsHaveNoComma(numeric: string -> bool, pieces: seq<string>, bound: nat)
    requires forall p :: p in pieces ==> |p| < bound && ',' !in p
    ensures forall s :: s in ParseItems(numeric, pieces, bound) ==> ',' !in PrintScalar(s)
    decreases |pieces|
  {
    if pieces != [] {
      ParsedItemsHaveNoComma(numeric, pieces[1..], bound);
      StripShape(pieces[0]);
      assert pieces[0] in pieces;
      ParsedHasNoComma(numeric, Strip(pieces[0]));
    }
  }

  lemma ListParses(numeric: string -> bool, items: seq<Scalar>)
    ensures var printed, pieces := PrintScalar(List(items)), SplitAt(Joined(PrintEach(items)), ',');
      && (forall p :: p in pieces ==> |p| < |printed|)
      && ParseScalar(numeric, printed) == List(ParseItems(numeric, pieces, |printed|))
  {
    var printed := PrintScalar(List(items));
    assert printed == "[" + Joined(PrintEach(items)) + "]";
    assert printed[0] == '[' && printed[|printed| - 1] == ']' && Inner(printed) == Joined(PrintEach(items));
  }

  lemma ItemsParse(numeric: string -> bool, items: seq<Scalar>, bound: nat)
    requires forall i :: 0 <= i < |items| ==> ReadsBack(numeric, items[i])
    requires forall p :: p in SplitAt(Joined(PrintEach(items)), ',') ==> |p| < bound
    ensures ParseItems(numeric, SplitAt(Joined(PrintEach(items)), ','), bound) == items
  {
    var texts := PrintEach(items);
    if items == [] {
      assert SplitAt(Joined(texts), ',') == [""];
    } else {
      forall i | 0 <= i < |items| ensures ',' !in texts[i] && Reads(numeric, Pieces("", texts)[i], items[i]) {
        PieceReads(numeric, if i == 0 then "" else " ", items[i]);
      }
      SplitJoined("", texts);
      assert "" + Joined(texts) == Joined(texts);
      AllRead(numeric, Pieces("", texts), items, bound);
    }
  }

  /** A list of items that are read back is read back. */
  lemma ListReads(numeric: string -> bool, items: seq<Scalar>)
    requires forall i :: 0 <= i < |items| ==> ReadsBack(numeric, items[i])
    ensures ParseScalar(numeric, PrintScalar(List(items))) == List(items)
  {
    ListParses(numeric, items);
    ItemsParse(numeric, items, |PrintScalar(List(items))|);
  }

  lemma ShortListPrints(items: seq<Scalar>)
    requires |items| <= 1 && forall i :: 0 <= i < |items| ==> ',' !in PrintScalar(items[i])
    ensures var text := PrintScalar(List(items)); text != "" && Stripped(text) && ',' !in text
  {
    if items == [] {
      EmptyListPrints();
    } else {
      PrintOne(items[0]);
      assert items == [items[0]];
    }
  }

  lemma {:induction false} ListableReadsBack(numeric: string -> bool, s: Scalar)
    requires Listable(numeric, s)
    ensures ReadsBack(numeric, s)
  {
    WordsParse(numeric);
    if s.Text? {
      QuotedMeaning(numeric, s.text);
    } else if s.List? {
      forall i | 0 <= i < |s.items| ensures ReadsBack(numeric, s.items[i]) {
        ListableReadsBack(numeric, s.items[i]);
      }
      ShortListPrints(s.items);
      ListReads(numeric, s.items);
    }
  }

  lemma {:induction false} JoinedComma(texts: seq<string>, i: nat)
    requires i < |texts| && (|texts| > 1 || ',' in texts[i])
    ensures ',' in Joined(texts)
  {
    if |texts| > 1 {
      assert Joined(texts)[|texts[0]|] == ',';
    }
  }

  /** Any other proper scalar prints with a comma. */
  lemma {:induction false} UnlistablePrintsComma(numeric: string -> bool, s: Scalar)
    requires Proper(numeric, s) && !Listable(numeric, s)
    ensures ',' in PrintScalar(s)
  {
    if s.List? {
      var texts := PrintEach(s.items);
      assert PrintScalar(s) == "[" + Joined(texts) + "]";
      if |s.items| <= 1 {
        UnlistablePrintsComma(numeric, s.items[0]);
      }
      JoinedComma(texts, 0);
      var j :| 0 <= j < |Joined(texts)| && Joined(texts)[j] == ',';
      assert PrintScalar(s)[j + 1] == ',';
    } else {
      var j :| 0 <= j < |s.text| && s.text[j] == ',';
      assert PrintScalar(s)[j + 1] == ',';
    }
  }

  /** A list is read back exactly when no text in it holds a comma, quoted or not, and no list inside it has more
      than one item. */
  lemma ListRoundTrip(numeric: string -> bool, items: seq<Scalar>)
    requires forall i :: 0 <= i < |items| ==> Proper(numeric, items[i])
    ensures ParseScalar(numeric, PrintScalar(List(items))) == List(items)
      <==> forall i :: 0 <= i < |items| ==> Listable(numeric, items[i])
  {
    if forall i :: 0 <= i < |items| ==> Listable(numeric, items[i]) {
      forall i | 0 <= i < |items| ensures ReadsBack(numeric, items[i]) {
        ListableReadsBack(numeric, items[i]);
      }
      ListReads(numeric, items);
    } else {
      var i :| 0 <= i < |items| && !Listable(numeric, items[i]);
      UnlistablePrintsComma(numeric, items[i]);
      ListParses(numeric, items);
      var joined, bound := Joined(PrintEach(items)), |PrintScalar(List(items))|;
      PiecesHaveNoComma(joined, ',');
      ParsedItemsHaveNoComma(numeric, SplitAt(joined, ','), bound);
      assert items[i] in items;
    }
  }

  /** Other scalars are read back: words, bare numbers, and quoted texts whatever they contain. */
  lemma ScalarRoundTrip(numeric: string -> bool, s: Scalar)
    requires !s.List? && (s.Number? ==> Bare(numeric, s.text))
    ensures ParseScalar(numeric, PrintScalar(s)) == s
  {
    WordsParse(numeric);
    if s.Text? {
      QuotedMeaning(numeric, s.text);
    }
  }
}
