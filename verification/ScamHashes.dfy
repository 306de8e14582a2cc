/** Perceptual hashes as hexadecimal text, and the matcher for known scam images. */
module ScamHashes {
  import opened Wrappers

  function Digit(b: bool): nat {
    if b then 1 else 0
  }

  /** The number the bits spell, most significant first. */
  function Value(bits: seq<bool>): nat {
    if bits == [] then 0 else 2 * Value(bits[..|bits| - 1]) + Digit(bits[|bits| - 1])
  }

  function HexDigit(n: nat): char
    requires n < 16
  {
    "0123456789abcdef"[n]
  }

  /** `f"{value:x}"`. */
  function Hex(value: nat): string {
    if value < 16 then [HexDigit(value)] else Hex(value / 16) + [HexDigit(value % 16)]
  }

  function Padded(s: string, width: nat): string
    decreases width - |s|
  {
    if |s| >= width then s else Padded("0" + s, width)
  }

  function BitsToHex(bits: seq<bool>): string {
    Padded(Hex(Value(bits)), 16)
  }

  method FormatBits(bits: seq<bool>) returns (s: string)
    ensures s == BitsToHex(bits)
  {
    var value := 0;
    for i := 0 to |bits|
      invariant value == Value(bits[..i])
    {
      assert bits[..i + 1][..i] == bits[..i];
      value := value * 2 + Digit(bits[i]);
    }
    assert bits[..|bits|] == bits;
    s := Padded(Hex(value), 16);
  }

  function DigitValue(c: char): Option<nat> {
    if '0' <= c <= '9' then Some((c - '0') as nat)
    else if 'a' <= c <= 'f' then Some((c - 'a') as nat + 10)
    else if 'A' <= c <= 'F' then Some((c - 'A') as nat + 10)
    else None
  }

  /** Sixteen digits, letters in either case. */
  lemma DigitMeaning(n: nat)
    requires n < 16
    ensures DigitValue("0123456789abcdef"[n]) == Some(n) && DigitValue("0123456789ABCDEF"[n]) == Some(n)
  {
  }

  predicate IsHex(s: string) {
    s != "" && forall i :: 0 <= i < |s| ==> DigitValue(s[i]).Some?
  }

  function HexValue(s: string): nat
    requires forall i :: 0 <= i < |s| ==> DigitValue(s[i]).Some?
  {
    if s == "" then 0 else 16 * HexValue(s[..|s| - 1]) + DigitValue(s[|s| - 1]).value
  }

  /** `int(s, 16)` on plain hexadecimal text. */
  function ParseHex(s: string): Result<nat> {
    if IsHex(s) then Ok(HexValue(s)) else Err(ValueError)
  }

  // ---------------------------------------------------------------- the round trip

  lemma DigitRoundTrip(n: nat)
    requires n < 16
    ensures DigitValue(HexDigit(n)) == Some(n)
  {
  }

  lemma {:induction false} HexRoundTrip(value: nat)
    ensures IsHex(Hex(value)) && HexValue(Hex(value)) == value
  {
    DigitRoundTrip(value % 16);
    if value < 16 {
      assert Hex(value)[..0] == "";
    } else {
      HexRoundTrip(value / 16);
      assert Hex(value)[..|Hex(value)| - 1] == Hex(value / 16);
    }
  }

  function Power(base: nat, k: nat): nat {
    if k == 0 then 1 else base * Power(base, k - 1)
  }

  /** A number below 16^k has at most k digits. */
  lemma {:induction false} HexLength(value: nat, k: nat)
    requires k > 0 && value < Power(16, k)
    ensures |Hex(value)| <= k
  {
    if value >= 16 {
      HexLength(value / 16, k - 1);
    }
  }

  lemma {:induction false} LeadingZero(s: string)
    requires IsHex(s)
    ensures IsHex("0" + s) && HexValue("0" + s) == HexValue(s)
  {
    var n := |s| - 1;
    assert ("0" + s)[..|s|] == "0" + s[..n];
    forall i | 0 <= i <= |s| ensures DigitValue(("0" + s)[i]).Some? {
      assert i > 0 ==> ("0" + s)[i] == s[i - 1];
    }
    if n > 0 {
      LeadingZero(s[..n]);
    } else {
      assert ("0" + s)[..1][..0] == "" && s[..0] == "";
    }
  }

  lemma {:induction false} PaddedValue(s: string, width: nat)
    requires IsHex(s) && |s| <= width
    ensures IsHex(Padded(s, width)) && HexValue(Padded(s, width)) == HexValue(s) && |Padded(s, width)| == width
    decreases width - |s|
  {
    if |s| < width {
      LeadingZero(s);
      PaddedValue("0" + s, width);
    }
  }

  lemma {:induction false} ValueBound(bits: seq<bool>)
    ensures Value(bits) < Power(2, |bits|)
  {
    if bits != [] {
      ValueBound(bits[..|bits| - 1]);
    }
  }

  lemma {:induction false} SixteenIsTwoToTheFour(k: nat)
    ensures Power(16, k) == Power(2, 4 * k)
  {
    if k > 0 {
      SixteenIsTwoToTheFour(k - 1);
      assert Power(2, 4 * k) == 2 * Power(2, 4 * k - 1) == 4 * Power(2, 4 * k - 2) == 8 * Power(2, 4 * k - 3);
    }
  }

  /** 64 bits print as exactly 16 digits, and parsing gives their number back. */
  lemma PrintParse(bits: seq<bool>)
    requires |bits| == 64
    ensures |BitsToHex(bits)| == 16 && ParseHex(BitsToHex(bits)) == Ok(Value(bits))
  {
    ValueBound(bits);
    SixteenIsTwoToTheFour(16);
    HexRoundTrip(Value(bits));
    HexLength(Value(bits), 16);
    PaddedValue(Hex(Value(bits)), 16);
  }

  /** The number determines the bits, so no two hashes print alike. */
  lemma {:induction false} ValueDeterminesBits(x: seq<bool>, y: seq<bool>)
    requires |x| == |y| && Value(x) == Value(y)
    ensures x == y
  {
    if x != [] {
      var n := |x| - 1;
      ValueDeterminesBits(x[..n], y[..n]);
      assert x == x[..n] + [x[n]] && y == y[..n] + [y[n]];
    }
  }

  /** The four bits of a digit. */
  function Nibble(n: nat): seq<bool> {
    [n / 8 % 2 == 1, n / 4 % 2 == 1, n / 2 % 2 == 1, n % 2 == 1]
  }

  /** The bits a hexadecimal text stands for. */
  function HexBits(s: string): seq<bool>
    requires forall i :: 0 <= i < |s| ==> DigitValue(s[i]).Some?
  {
    if s == "" then [] else HexBits(s[..|s| - 1]) + Nibble(DigitValue(s[|s| - 1]).value)
  }

  lemma AppendBit(bits: seq<bool>, b: bool)
    ensures Value(bits + [b]) == 2 * Value(bits) + Digit(b)
  {
    assert (bits + [b])[..|bits|] == bits;
  }

  lemma TwoBits(bits: seq<bool>, a: bool, b: bool)
    ensures Value(bits + [a] + [b]) == 4 * Value(bits) + 2 * Digit(a) + Digit(b)
  {
    AppendBit(bits, a);
    AppendBit(bits + [a], b);
  }

  lemma OneByOne(bits: seq<bool>, a: bool, b: bool, c: bool, d: bool)
    ensures bits + [a, b, c, d] == bits + [a] + [b] + [c] + [d]
  {
  }

  lemma FourBits(bits: seq<bool>, a: bool, b: bool, c: bool, d: bool)
    ensures Value(bits + [a, b, c, d]) == 16 * Value(bits) + 8 * Digit(a) + 4 * Digit(b) + 2 * Digit(c) + Digit(d)
  {
    TwoBits(bits, a, b);
    TwoBits(bits + [a] + [b], c, d);
    OneByOne(bits, a, b, c, d);
  }

  lemma NibbleSum(n: nat)
    requires n < 16
    ensures n == 8 * Digit(n / 8 % 2 == 1) + 4 * Digit(n / 4 % 2 == 1) + 2 * Digit(n / 2 % 2 == 1) + Digit(n % 2 == 1)
  {
  }

  lemma NibbleValue(bits: seq<bool>, n: nat)
    requires n < 16
    ensures Value(bits + Nibble(n)) == 16 * Value(bits) + n
  {
    FourBits(bits, n / 8 % 2 == 1, n / 4 % 2 == 1, n / 2 % 2 == 1, n % 2 == 1);
    NibbleSum(n);
  }

  lemma {:induction false} HexBitsValue(s: string)
    requires forall i :: 0 <= i < |s| ==> DigitValue(s[i]).Some?
    ensures |HexBits(s)| == 4 * |s| && Value(HexBits(s)) == HexValue(s)
  {
    if s != "" {
      HexBitsValue(s[..|s| - 1]);
      NibbleValue(HexBits(s[..|s| - 1]), DigitValue(s[|s| - 1]).value);
    }
  }

  /** Printing 64 bits and reading them back digit by digit gives the same bits. */
  lemma BitsRoundTrip(bits: seq<bool>)
    requires |bits| == 64
    ensures IsHex(BitsToHex(bits)) && HexBits(BitsToHex(bits)) == bits
  {
    PrintParse(bits);
    HexBitsValue(BitsToHex(bits));
    ValueDeterminesBits(HexBits(BitsToHex(bits)), bits);
  }

  // ---------------------------------------------------------------- Hamming distance

  function Xor(a: nat, b: nat): nat
    decreases a + b
  {
    if a == 0 && b == 0 then 0 else 2 * Xor(a / 2, b / 2) + Digit(a % 2 != b % 2)
  }

  function BitCount(n: nat): nat {
    if n == 0 then 0 else n % 2 + BitCount(n / 2)
  }

  /** The number of positions where two hashes differ. */
  function Distance(x: seq<bool>, y: seq<bool>): nat
    requires |x| == |y|
  {
    if x == [] then 0
    else
      var n := |x| - 1;
      Distance(x[..n], y[..n]) + Digit(x[n] != y[n])
  }

  lemma {:induction false} BitCountIsDistance(x: seq<bool>, y: seq<bool>)
    requires |x| == |y|
    ensures BitCount(Xor(Value(x), Value(y))) == Distance(x, y)
  {
    if x != [] {
      var n := |x| - 1;
      BitCountIsDistance(x[..n], y[..n]);
      XorStep(Value(x[..n]), Value(y[..n]), x[n], y[n]);
    }
  }

  lemma XorStep(a: nat, b: nat, p: bool, q: bool)
    ensures BitCount(Xor(2 * a + Digit(p), 2 * b + Digit(q))) == BitCount(Xor(a, b)) + Digit(p != q)
  {
    var u, v := 2 * a + Digit(p), 2 * b + Digit(q);
    assert u / 2 == a && v / 2 == b && (u % 2 != v % 2 <==> p != q);
    assert Xor(u, v) == 2 * Xor(a, b) + Digit(p != q);
    assert Xor(u, v) / 2 == Xor(a, b) && Xor(u, v) % 2 == Digit(p != q);
  }

  // ---------------------------------------------------------------- the matcher

  datatype Entry = Entry(sha256: Option<string>, phash: Option<string>)

  predicate LowerHex(s: string) {
    forall i :: 0 <= i < |s| ==> '0' <= s[i] <= '9' || 'a' <= s[i] <= 'f'
  }

  /** The shape the entry model enforces: lower-case hexadecimal of fixed length. */
  predicate ValidEntry(e: Entry) {
    && (e.sha256.Some? ==> |e.sha256.value| == 64 && LowerHex(e.sha256.value))
    && (e.phash.Some? ==> |e.phash.value| == 16 && LowerHex(e.phash.value))
  }

  lemma ValidEntryMeaning(e: Entry)
    ensures ValidEntry(e)
      <==> (e.sha256.None? || (|e.sha256.value| == 64 && forall c :: c in e.sha256.value ==> c in "0123456789abcdef"))
           && (e.phash.None? || (|e.phash.value| == 16 && forall c :: c in e.phash.value ==> c in "0123456789abcdef"))
  {
    if e.sha256.Some? {
      LowerHexMeaning(e.sha256.value);
    }
    if e.phash.Some? {
      LowerHexMeaning(e.phash.value);
    }
  }

  lemma LowerHexMeaning(s: string)
    ensures LowerHex(s) <==> forall c :: c in s ==> c in "0123456789abcdef"
  {
    forall c ensures c in "0123456789abcdef" <==> '0' <= c <= '9' || 'a' <= c <= 'f' {
    }
    if forall c :: c in s ==> c in "0123456789abcdef" {
      forall i | 0 <= i < |s| ensures '0' <= s[i] <= '9' || 'a' <= s[i] <= 'f' {
        assert s[i] in s;
      }
    }
  }

  type KnownEntry = e: Entry | ValidEntry(e) witness Entry(None, None)

  datatype Matcher = Matcher(sha256: set<string>, phashes: seq<nat>, maxDistance: nat)

  function Phashes(entries: seq<KnownEntry>): seq<nat> {
    if entries == [] then []
    else
      var n := |entries| - 1;
      Phashes(entries[..n]) + (if entries[n].phash.Some? then [HexValue(entries[n].phash.value)] else [])
  }

  function Build(entries: seq<KnownEntry>, maxDistance: int): Result<Matcher> {
    if !(0 <= maxDistance <= 64) then Err(ValueError)
    else if exists e :: e in entries && e.sha256.None? && e.phash.None? then Err(ValueError)
    else Ok(Matcher(set e | e in entries && e.sha256.Some? :: e.sha256.value, Phashes(entries), maxDistance))
  }

  function Matches(m: Matcher, sha256: string, phash: string): Result<bool> {
    if sha256 in m.sha256 then Ok(true)
    else
      match ParseHex(phash)
      case Err(e) => Err(e)
      case Ok(candidate) => Ok(exists k :: k in m.phashes && BitCount(Xor(candidate, k)) <= m.maxDistance)
  }

  lemma {:induction false} PhashesMeaning(entries: seq<KnownEntry>)
    ensures forall k :: k in Phashes(entries) <==> exists e :: e in entries && e.phash.Some? && HexValue(e.phash.value) == k
  {
    if entries != [] {
      var n := |entries| - 1;
      PhashesMeaning(entries[..n]);
      assert entries == entries[..n] + [entries[n]];
    }
  }

  /** The registered perceptual hash is close to the image's bits. */
  ghost predicate Close(e: KnownEntry, bits: seq<bool>, maxDistance: int) {
    e.phash.Some? && |HexBits(e.phash.value)| == |bits| && Distance(bits, HexBits(e.phash.value)) <= maxDistance
  }

  lemma CloseIsCount(e: KnownEntry, bits: seq<bool>, maxDistance: int)
    requires e.phash.Some? && |bits| == 64
    ensures Close(e, bits, maxDistance) <==> BitCount(Xor(Value(bits), HexValue(e.phash.value))) <= maxDistance
  {
    HexBitsValue(e.phash.value);
    BitCountIsDistance(bits, HexBits(e.phash.value));
  }

  /** An image matches exactly when its content hash is registered, or a registered perceptual hash differs
      from its own in at most the configured number of bit positions. */
  lemma MatchesMeaning(entries: seq<KnownEntry>, maxDistance: int, sha256: string, bits: seq<bool>)
    requires |bits| == 64 && Build(entries, maxDistance).Ok?
    ensures var r := Matches(Build(entries, maxDistance).value, sha256, BitsToHex(bits));
      && r.Ok?
      && (r.value <==> (exists e :: e in entries && e.sha256 == Some(sha256))
                       || (exists e :: e in entries && Close(e, bits, maxDistance)))
  {
    var m := Build(entries, maxDistance).value;
    PrintParse(bits);
    PhashesMeaning(entries);
    assert sha256 in m.sha256 <==> exists e :: e in entries && e.sha256 == Some(sha256);
    CloseKnown(entries, bits, maxDistance);
  }

  lemma CloseKnown(entries: seq<KnownEntry>, bits: seq<bool>, maxDistance: int)
    requires |bits| == 64
    ensures (exists k :: k in Phashes(entries) && BitCount(Xor(Value(bits), k)) <= maxDistance)
      <==> exists e :: e in entries && Close(e, bits, maxDistance)
  {
    ghost var near := (k: nat) => BitCount(Xor(Value(bits), k)) <= maxDistance;
    ghost var close := (e: KnownEntry) => Close(e, bits, maxDistance);
    forall e | e in entries ensures close(e) <==> e.phash.Some? && near(HexValue(e.phash.value)) {
      if e.phash.Some? {
        CloseIsCount(e, bits, maxDistance);
      }
    }
    SomePhash(entries, near, close);
    assert (exists k :: k in Phashes(entries) && near(k)) <==> exists e :: e in entries && close(e);
  }

  lemma SomePhash(entries: seq<KnownEntry>, near: nat -> bool, close: KnownEntry -> bool)
    requires forall e :: e in entries ==> (close(e) <==> e.phash.Some? && near(HexValue(e.phash.value)))
    ensures (exists k :: k in Phashes(entries) && near(k)) <==> exists e :: e in entries && close(e)
  {
    PhashesMeaning(entries);
    if k :| k in Phashes(entries) && near(k) {
      var e :| e in entries && e.phash.Some? && HexValue(e.phash.value) == k;
      assert close(e);
    }
    if e :| e in entries && close(e) {
      assert HexValue(e.phash.value) in Phashes(entries);
    }
  }

  // ---------------------------------------------------------------- registering an image

  lemma {:induction false} HexIsLower(value: nat)
    ensures LowerHex(Hex(value))
  {
    if value >= 16 {
      HexIsLower(value / 16);
    }
  }

  lemma {:induction false} PaddedIsLower(s: string, width: nat)
    requires LowerHex(s)
    ensures LowerHex(Padded(s, width))
    decreases width - |s|
  {
    if |s| < width {
      PaddedIsLower("0" + s, width);
    }
  }

  lemma {:induction false} NoDistance(x: seq<bool>)
    ensures Distance(x, x) == 0
  {
    if x != [] {
      NoDistance(x[..|x| - 1]);
    }
  }

  /** The entry that registers an image by its perceptual hash alone. */
  function Registration(bits: seq<bool>): Entry {
    Entry(None, Some(BitsToHex(bits)))
  }

  lemma RegistrationIsValid(bits: seq<bool>)
    requires |bits| == 64
    ensures ValidEntry(Registration(bits))
  {
    PrintParse(bits);
    HexIsLower(Value(bits));
    PaddedIsLower(Hex(Value(bits)), 16);
  }

  lemma RegistrationIsClose(bits: seq<bool>, maxDistance: int)
    requires |bits| == 64 && maxDistance >= 0
    ensures ValidEntry(Registration(bits)) && Close(Registration(bits), bits, maxDistance)
  {
    RegistrationIsValid(bits);
    BitsRoundTrip(bits);
    NoDistance(bits);
  }

  /** An image registered by its printed perceptual hash is matched from then on, whatever its content hash
      and the distance are. */
  lemma RegisteredImageMatches(entries: seq<KnownEntry>, maxDistance: int, sha256: string, bits: seq<bool>)
    requires |bits| == 64
    ensures ValidEntry(Registration(bits))
    ensures var m := Build(entries + [Registration(bits)], maxDistance);
      && (m.Ok? <==> Build(entries, maxDistance).Ok?)
      && (m.Ok? ==> Matches(m.value, sha256, BitsToHex(bits)) == Ok(true))
  {
    RegistrationIsValid(bits);
    var more: seq<KnownEntry> := entries + [Registration(bits)];
    assert forall e :: e in more <==> e in entries || e == Registration(bits);
    if Build(more, maxDistance).Ok? {
      RegistrationIsClose(bits, maxDistance);
      MatchesMeaning(more, maxDistance, sha256, bits);
    }
  }

  /** The entry names this content hash or exactly this perceptual hash. */
  ghost predicate Names(e: KnownEntry, sha256: string, bits: seq<bool>) {
    |bits| == 64 && (e.sha256 == Some(sha256) || Close(e, bits, 0))
  }

  /** The matcher is built exactly when the distance makes sense and every entry names some image. */
  lemma BuildAccepts(entries: seq<KnownEntry>, maxDistance: int)
    ensures Build(entries, maxDistance).Ok? <==>
      0 <= maxDistance <= 64 && forall e :: e in entries ==> exists sha256, bits :: Names(e, sha256, bits)
  {
    forall e | e in entries
      ensures (exists sha256, bits :: Names(e, sha256, bits)) <==> e.sha256.Some? || e.phash.Some?
    {
      EntryNames(e);
    }
  }

  lemma EntryNames(e: KnownEntry)
    ensures (exists sha256, bits :: Names(e, sha256, bits)) <==> e.sha256.Some? || e.phash.Some?
  {
    var blank := seq(64, _ => false);
    if e.sha256.Some? {
      assert Names(e, e.sha256.value, blank);
    } else if e.phash.Some? {
      var bits := HexBits(e.phash.value);
      HexBitsValue(e.phash.value);
      NoDistance(bits);
      assert Names(e, "", bits);
    }
  }
}
