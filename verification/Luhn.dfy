/** The payment-card check on OCR text: a left-to-right loop over index parity against the right-to-left sum of
    Annex B of ISO/IEC 7812-1. */
module Luhn {

  ghost predicate Digits(d: seq<nat>) {
    forall i :: 0 <= i < |d| ==> d[i] < 10
  }

  /** What a digit adds: doubled ones lose nine when they reach two digits. */
  function Weight(doubled: bool, digit: nat): nat {
    if !doubled then digit else if 2 * digit > 9 then 2 * digit - 9 else 2 * digit
  }

  /** A doubled digit adds the sum of the digits of its double. */
  lemma WeightIsDigitSum(digit: nat)
    requires digit < 10
    ensures Weight(true, digit) == 2 * digit / 10 + 2 * digit % 10 && Weight(false, digit) == digit
  {
  }

  /** The standard's sum: from the check digit leftwards, every second digit doubled. */
  function RightSum(d: seq<nat>, doubled: bool): nat {
    if d == [] then 0 else Weight(doubled, d[|d| - 1]) + RightSum(d[..|d| - 1], !doubled)
  }

  /** The check digit is not doubled, the digit before it is, and so on in turn. */
  lemma RightSumMeaning(d: seq<nat>, x: nat, y: nat)
    ensures RightSum([], false) == 0 && RightSum([x], false) == x
    ensures RightSum(d + [y, x], false) == x + Weight(true, y) + RightSum(d, false)
  {
    assert [x][..0] == [];
    assert (d + [y, x])[..|d| + 1] == d + [y] && (d + [y])[..|d|] == d;
  }

  /** The loop's sum over the first `n` digits: an index is doubled when it has the parity of the length. */
  function IndexSum(d: seq<nat>, parity: nat, n: nat): nat
    requires n <= |d|
  {
    if n == 0 then 0 else IndexSum(d, parity, n - 1) + Weight((n - 1) % 2 == parity, d[n - 1])
  }

  lemma {:induction false} IndexSumIsRightSum(d: seq<nat>, parity: nat, n: nat)
    requires n <= |d| && parity < 2
    ensures IndexSum(d, parity, n) == RightSum(d[..n], (n + 1) % 2 == parity)
  {
    if n > 0 {
      IndexSumIsRightSum(d, parity, n - 1);
      assert d[..n][..n - 1] == d[..n - 1];
    }
  }

  ghost predicate TwoDigits(d: seq<nat>) {
    exists i, j :: 0 <= i < j < |d| && d[i] != d[j]
  }

  /** Card-like: 13 to 19 digits, not one digit repeated, and a sum divisible by ten. */
  ghost predicate Accepted(d: seq<nat>) {
    && 13 <= |d| <= 19
    && TwoDigits(d)
    && RightSum(d, false) % 10 == 0
  }

  function Values(d: seq<nat>): set<nat> {
    set x | x in d
  }

  lemma DistinctDigits(d: seq<nat>)
    requires d != []
    ensures |Values(d)| == 1 <==> !TwoDigits(d)
  {
    var values := Values(d);
    assert d[0] in values;
    if values == {d[0]} {
      forall i | 0 <= i < |d| ensures d[i] == d[0] {
        assert d[i] in values;
      }
      assert |values| == 1;
    } else {
      var x :| x in values && x != d[0];
      var i :| 0 <= i < |d| && d[i] == x;
      assert d[0] != d[i];
      assert |values - {d[0]}| == |values - {d[0]} - {x}| + 1;
      assert TwoDigits(d);
    }
  }

  method PassesLuhn(d: seq<nat>) returns (ok: bool)
    requires Digits(d)
    ensures ok <==> Accepted(d)
    ensures ok <==>
      && |d| >= 13 && |d| <= 19 && RightSum(d, false) % 10 == 0
      && exists i, j :: 0 <= i < j < |d| && d[i] != d[j]
  {
    if !(13 <= |d| <= 19) {
      return false;
    }
    DistinctDigits(d);
    if |Values(d)| == 1 {
      return false;
    }
    var checksum, parity := 0, |d| % 2;
    for index := 0 to |d|
      invariant checksum == IndexSum(d, parity, index)
    {
      var value := d[index];
      if index % 2 == parity {
        value := value * 2;
        if value > 9 {
          value := value - 9;
        }
      }
      checksum := checksum + value;
    }
    IndexSumIsRightSum(d, parity, |d|);
    assert d[..|d|] == d;
    ok := checksum % 10 == 0;
  }

  /** For numbers of any length the loop computes the standard's sum. */
  lemma LoopIsStandard(d: seq<nat>)
    ensures IndexSum(d, |d| % 2, |d|) == RightSum(d, false)
  {
    IndexSumIsRightSum(d, |d| % 2, |d|);
    assert d[..|d|] == d;
  }

  // ---------------------------------------------------------------- detecting errors

  lemma {:induction false} ChangedSum(d: seq<nat>, parity: nat, n: nat, i: nat, v: nat)
    requires n <= |d| && i < |d|
    ensures IndexSum(d[i := v], parity, n)
      == IndexSum(d, parity, n) + (if i < n then Weight(i % 2 == parity, v) - Weight(i % 2 == parity, d[i]) else 0)
  {
    if n > 0 {
      ChangedSum(d, parity, n - 1, i, v);
    }
  }

  lemma ChangedStandardSum(d: seq<nat>, i: nat, v: nat, doubled: bool)
    requires i < |d| && (doubled <==> i % 2 == |d| % 2)
    ensures RightSum(d[i := v], false) == RightSum(d, false) + Weight(doubled, v) - Weight(doubled, d[i])
  {
    LoopIsStandard(d);
    LoopIsStandard(d[i := v]);
    ChangedSum(d, |d| % 2, |d|, i, v);
  }

  /** A number with one digit changed is never accepted together with the original. */
  lemma ChangedDigitIsRejected(d: seq<nat>, i: nat, v: nat)
    requires Digits(d) && Accepted(d) && i < |d| && v < 10 && v != d[i]
    ensures !Accepted(d[i := v])
  {
    ChangedStandardSum(d, i, v, i % 2 == |d| % 2);
    WeightsDiffer(i % 2 == |d| % 2, d[i], v);
    NotBothMultiples(RightSum(d, false), RightSum(d[i := v], false));
  }

  lemma NotBothMultiples(a: nat, b: nat)
    requires (a - b) % 10 != 0
    ensures a % 10 != 0 || b % 10 != 0
  {
  }

  lemma WeightsDiffer(doubled: bool, a: nat, b: nat)
    requires a < 10 && b < 10 && a != b
    ensures (Weight(doubled, a) - Weight(doubled, b)) % 10 != 0
  {
  }

  function Swapped(d: seq<nat>, i: nat): seq<nat>
    requires i + 1 < |d|
  {
    d[i := d[i + 1]][i + 1 := d[i]]
  }

  lemma ParityAlternates(i: nat, n: nat)
    ensures (i + 1) % 2 == n % 2 <==> i % 2 != n % 2
  {
  }

  lemma SwappedStandardSum(d: seq<nat>, i: nat, doubled: bool)
    requires i + 1 < |d| && (doubled <==> i % 2 == |d| % 2)
    ensures RightSum(Swapped(d, i), false) == RightSum(d, false)
      + (Weight(doubled, d[i + 1]) - Weight(doubled, d[i]) + Weight(!doubled, d[i]) - Weight(!doubled, d[i + 1]))
  {
    ParityAlternates(i, |d|);
    ChangedStandardSum(d, i, d[i + 1], doubled);
    ChangedStandardSum(d[i := d[i + 1]], i + 1, d[i], !doubled);
  }

  lemma SumOfMultiple(a: int, b: int)
    requires a % 10 == 0
    ensures (a + b) % 10 == 0 <==> b % 10 == 0
  {
  }

  /** Swapping two unequal neighbours of an accepted number is noticed, except for a 0 and a 9. */
  lemma SwapIsRejectedUnlessZeroNine(d: seq<nat>, i: nat)
    requires Digits(d) && Accepted(d) && i + 1 < |d| && d[i] != d[i + 1]
    ensures Accepted(Swapped(d, i)) <==> {d[i], d[i + 1]} == {0, 9}
  {
    var doubled := i % 2 == |d| % 2;
    SwappedStandardSum(d, i, doubled);
    SwappedWeights(doubled, d[i], d[i + 1]);
    SumOfMultiple(RightSum(d, false),
      Weight(doubled, d[i + 1]) - Weight(doubled, d[i]) + Weight(!doubled, d[i]) - Weight(!doubled, d[i + 1]));
    assert Swapped(d, i)[i] != Swapped(d, i)[i + 1];
    ZeroNine(d[i], d[i + 1]);
  }

  lemma SwappedWeights(doubled: bool, a: nat, b: nat)
    requires a < 10 && b < 10 && a != b
    ensures (Weight(doubled, b) - Weight(doubled, a) + Weight(!doubled, a) - Weight(!doubled, b)) % 10 == 0
      <==> (a == 0 && b == 9) || (a == 9 && b == 0)
  {
  }

  lemma ZeroNine(a: nat, b: nat)
    requires a != b
    ensures {a, b} == {0, 9} <==> (a == 0 && b == 9) || (a == 9 && b == 0)
  {
    if {a, b} == {0, 9} {
      assert a in {0, 9} && b in {0, 9};
    }
  }

  /** Every number has exactly one check digit that makes its sum divisible by ten. */
  lemma OneCheckDigit(d: seq<nat>, v: nat)
    requires v < 10
    ensures RightSum(d + [v], false) % 10 == 0 <==> v == (10 - RightSum(d, true) % 10) % 10
  {
    assert (d + [v])[..|d|] == d;
  }
}
