/** One line of the fallback configuration format: comment, indent, key and value. */
module ConfigText {
  import opened Wrappers

  /** A meaningful line; a line without a value opens a section. */
  datatype Line = Line(indent: nat, key: string, value: Option<string>)

  /** Python's str.isspace on one character. */
  predicate IsSpace(c: char) {
    || '\t' <= c <= '\r' || '\U{1C}' <= c <= ' ' || c == '\U{85}' || c == '\U{A0}' || c == '\U{1680}'
    || '\U{2000}' <= c <= '\U{200A}' || c == '\U{2028}' || c == '\U{2029}' || c == '\U{202F}' || c == '\U{205F}'
    || c == '\U{3000}'
  }

  /** The white space characters, one by one. */
  const SPACES: string := "\t\n\U{B}\U{C}\r\U{1C}\U{1D}\U{1E}\U{1F} \U{85}\U{A0}\U{1680}"
    + "\U{2000}\U{2001}\U{2002}\U{2003}\U{2004}\U{2005}\U{2006}\U{2007}\U{2008}\U{2009}\U{200A}"
    + "\U{2028}\U{2029}\U{202F}\U{205F}\U{3000}"

  lemma SpacesMeaning(c: char)
    ensures IsSpace(c) <==> c in SPACES
  {
  }

  function StripLeft(s: string): string {
    if s != "" && IsSpace(s[0]) then StripLeft(s[1..]) else s
  }

  function StripRight(s: string): string {
    if s != "" && IsSpace(s[|s| - 1]) then StripRight(s[..|s| - 1]) else s
  }

  function Strip(s: string): string {
    StripRight(StripLeft(s))
  }

  /** The part before the first `c`, or everything. */
  function Before(s: string, c: char): (r: string)
    ensures r <= s && c !in r
    ensures |r| < |s| ==> s[|r|] == c
    ensures c !in s ==> r == s
  {
    if s == "" || s[0] == c then "" else [s[0]] + Before(s[1..], c)
  }

  function LeadingSpaces(s: string): nat {
    if s != "" && s[0] == ' ' then 1 + LeadingSpaces(s[1..]) else 0
  }

  /** Key and value of a line without its comment. */
  function ReadEntry(indent: nat, text: string): Line {
    var key := Before(text, ':');
    var value := if |key| < |text| then Strip(text[|key| + 1..]) else "";
    Line(indent, Strip(key), if value == "" then None else Some(value))
  }

  /** What the parser makes of a raw line: nothing when it is blank, a comment, or has no colon. */
  function ReadLine(raw: string): Option<Line> {
    var line := StripRight(Before(raw, '#'));
    if Strip(line) == "" || ':' !in line then None else Some(ReadEntry(LeadingSpaces(raw), Strip(line)))
  }

  function Spaces(n: nat): (r: string)
    ensures |r| == n && forall i :: 0 <= i < n ==> r[i] == ' '
  {
    if n == 0 then "" else " " + Spaces(n - 1)
  }

  function PrintLine(l: Line): string {
    Spaces(l.indent) + l.key + ":" + (if l.value.Some? then " " + l.value.value else "")
  }

  // ---------------------------------------------------------------- stripping

  /** Neither end is white space. */
  predicate Stripped(s: string) {
    s != "" ==> !IsSpace(s[0]) && !IsSpace(s[|s| - 1])
  }

  lemma {:induction false} StripLeftShape(s: string)
    ensures var r := StripLeft(s); |r| <= |s| && r == s[|s| - |r|..] && (r != "" ==> !IsSpace(r[0]))
  {
    if s != "" && IsSpace(s[0]) {
      StripLeftShape(s[1..]);
    }
  }

  lemma {:induction false} StripRightShape(s: string)
    ensures var r := StripRight(s); r <= s && (r != "" ==> !IsSpace(r[|r| - 1]))
  {
    if s != "" && IsSpace(s[|s| - 1]) {
      StripRightShape(s[..|s| - 1]);
    }
  }

  /** Stripping yields a stripped piece of the text. */
  lemma StripShape(s: string)
    ensures Stripped(Strip(s))
    ensures forall c :: c in Strip(s) ==> c in s
  {
    StripLeftShape(s);
    StripRightShape(StripLeft(s));
    forall c | c in Strip(s) ensures c in s {
      var i :| 0 <= i < |Strip(s)| && Strip(s)[i] == c;
      assert c == StripLeft(s)[i];
    }
  }

  lemma {:induction false} StripLeftOf(pad: string, s: string)
    requires forall c :: c in pad ==> IsSpace(c)
    requires s != "" && !IsSpace(s[0])
    ensures StripLeft(pad + s) == s
  {
    if pad == "" {
      assert pad + s == s;
    } else {
      assert (pad + s)[1..] == pad[1..] + s;
      assert (pad + s)[0] == pad[0] && pad[0] in pad;
      StripLeftOf(pad[1..], s);
    }
  }

  /** Padding in front of a stripped text is all that stripping removes. */
  lemma StripOf(pad: string, s: string)
    requires forall c :: c in pad ==> IsSpace(c)
    requires s != "" && Stripped(s)
    ensures Strip(pad + s) == s && StripRight(pad + s) == pad + s
  {
    StripLeftOf(pad, s);
    assert (pad + s)[|pad + s| - 1] == s[|s| - 1];
  }

  // ---------------------------------------------------------------- reading back a printed line

  /** A line that survives printing: stripped key without colon, stripped non-empty value, no comment sign. */
  predicate Plain(l: Line) {
    && Stripped(l.key) && ':' !in l.key && '#' !in l.key
    && (l.value.Some? ==> l.value.value != "" && Stripped(l.value.value) && '#' !in l.value.value)
  }

  /** Everything the parser reads is plain. */
  lemma ReadLineIsPlain(raw: string)
    ensures ReadLine(raw).Some? ==> Plain(ReadLine(raw).value)
  {
    var cut := Before(raw, '#');
    var line := StripRight(cut);
    var text := Strip(line);
    StripRightShape(cut);
    StripShape(line);
    if ReadLine(raw).Some? {
      var key := Before(text, ':');
      assert forall c :: c in line ==> c in cut;
      StripShape(key);
      assert forall c :: c in key ==> c in text;
      if |key| < |text| {
        StripShape(text[|key| + 1..]);
        assert forall c :: c in text[|key| + 1..] ==> c in text;
      }
    }
  }

  /** The text of a line after its indent. */
  function Body(l: Line): string {
    l.key + ":" + (if l.value.Some? then " " + l.value.value else "")
  }

  lemma {:induction false} LeadingSpacesOf(n: nat, s: string)
    requires s != "" && s[0] != ' '
    ensures LeadingSpaces(Spaces(n) + s) == n
  {
    if n == 0 {
      assert Spaces(0) + s == s;
    } else {
      assert (Spaces(n) + s)[1..] == Spaces(n - 1) + s;
      LeadingSpacesOf(n - 1, s);
    }
  }

  lemma BodyShape(l: Line)
    requires Plain(l)
    ensures Body(l) != "" && Stripped(Body(l)) && '#' !in Body(l)
    ensures PrintLine(l) == Spaces(l.indent) + Body(l)
  {
  }

  lemma {:induction false} BeforeOf(head: string, c: char, rest: string)
    requires c !in head
    ensures Before(head + [c] + rest, c) == head
    ensures (head + [c] + rest)[|head| + 1..] == rest
  {
    if head != "" {
      assert (head + [c] + rest)[1..] == head[1..] + [c] + rest;
      BeforeOf(head[1..], c, rest);
    }
  }

  lemma ValueOf(l: Line)
    requires Plain(l)
    ensures Before(Body(l), ':') == l.key
    ensures Strip(Body(l)[|l.key| + 1..]) == (if l.value.Some? then l.value.value else "")
  {
    BeforeOf(l.key, ':', if l.value.Some? then " " + l.value.value else "");
    if l.value.Some? {
      StripOf(" ", l.value.value);
    }
  }

  /** Exactly the plain lines are read back as they were printed. */
  lemma LineRoundTrip(l: Line)
    ensures ReadLine(PrintLine(l)) == Some(l) <==> Plain(l)
  {
    ReadLineIsPlain(PrintLine(l));
    if Plain(l) {
      PlainLineReadsBack(l);
    }
  }

  lemma EntryReadsBack(l: Line)
    requires Plain(l)
    ensures ReadEntry(l.indent, Body(l)) == l
  {
    ValueOf(l);
    if l.key != "" {
      StripOf("", l.key);
      assert "" + l.key == l.key;
    }
  }

  lemma PlainLineReadsBack(l: Line)
    requires Plain(l)
    ensures ReadLine(PrintLine(l)) == Some(l)
  {
    BodyShape(l);
    var raw := PrintLine(l);
    assert '#' !in raw;
    assert StripRight(raw) == raw && Strip(raw) == Body(l) by {
      StripOf(Spaces(l.indent), Body(l));
    }
    assert LeadingSpaces(raw) == l.indent by {
      LeadingSpacesOf(l.indent, Body(l));
    }
    assert raw[l.indent + |l.key|] == ':';
    EntryReadsBack(l);
  }

  // ---------------------------------------------------------------- whole files

  function Present<T>(read: seq<Option<T>>): seq<T> {
    if read == [] then []
    else
      var n := |read| - 1;
      Present(read[..n]) + (if read[n].Some? then [read[n].value] else [])
  }

  function ReadEach(raws: seq<string>): seq<Option<Line>> {
    seq(|raws|, i requires 0 <= i < |raws| => ReadLine(raws[i]))
  }

  /** The meaningful lines of a file. */
  function ReadAll(raws: seq<string>): seq<Line> {
    Present(ReadEach(raws))
  }

  function PrintAll(lines: seq<Line>): seq<string> {
    seq(|lines|, i requires 0 <= i < |lines| => PrintLine(lines[i]))
  }

  lemma {:induction false} AllPresent<T>(read: seq<Option<T>>, values: seq<T>)
    requires |read| == |values| && forall i :: 0 <= i < |read| ==> read[i] == Some(values[i])
    ensures Present(read) == values
  {
    if read != [] {
      var n := |read| - 1;
      AllPresent(read[..n], values[..n]);
      assert values == values[..n] + [values[n]];
    }
  }

  /** A printed file of plain lines is read back line by line. */
  lemma FileRoundTrip(lines: seq<Line>)
    requires forall l :: l in lines ==> Plain(l)
    ensures ReadAll(PrintAll(lines)) == lines
  {
    var read := ReadEach(PrintAll(lines));
    forall i | 0 <= i < |lines| ensures read[i] == Some(lines[i]) {
      PlainLineReadsBack(lines[i]);
    }
    AllPresent(read, lines);
  }

  /** Reading on only appends. */
  lemma {:induction false} PresentPrefix<T>(read: seq<Option<T>>, i: nat)
    requires i <= |read|
    ensures Present(read[..i]) <= Present(read)
  {
    if i < |read| {
      var n := |read| - 1;
      assert read[..n][..i] == read[..i];
      PresentPrefix(read[..n], i);
    } else {
      assert read[..i] == read;
    }
  }
}
