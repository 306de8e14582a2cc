/** Masks as unbounded non-negative integers, with the bitwise operations the dataset code uses. */
module BitMasks {

  predicate Bit(mask: nat, i: nat) {
    if i == 0 then mask % 2 == 1 else Bit(mask / 2, i - 1)
  }

  /** `a | b` */
  function Or(a: nat, b: nat): nat
    decreases a + b
  {
    if a == 0 then b
    else if b == 0 then a
    else 2 * Or(a / 2, b / 2) + (if a % 2 == 1 || b % 2 == 1 then 1 else 0)
  }

  /** `1 << i` */
  function ShiftedOne(i: nat): (r: nat)
    ensures r > 0
  {
    if i == 0 then 1 else 2 * ShiftedOne(i - 1)
  }

  lemma {:induction false} BitOfZero(i: nat)
    ensures !Bit(0, i)
  {
    if i > 0 {
      BitOfZero(i - 1);
    }
  }

  lemma {:induction false} BitOr(a: nat, b: nat, i: nat)
    ensures Bit(Or(a, b), i) <==> Bit(a, i) || Bit(b, i)
    decreases i
  {
    if a == 0 || b == 0 {
      BitOfZero(i);
    } else if i > 0 {
      var half := Or(a / 2, b / 2);
      assert Or(a, b) / 2 == half;
      BitOr(a / 2, b / 2, i - 1);
    }
  }

  lemma {:induction false} BitShiftedOne(i: nat, j: nat)
    ensures Bit(ShiftedOne(i), j) <==> i == j
  {
    if i == 0 {
      if j > 0 {
        BitOfZero(j - 1);
      }
    } else if j > 0 {
      assert ShiftedOne(i) / 2 == ShiftedOne(i - 1);
      BitShiftedOne(i - 1, j - 1);
    }
  }

  ghost predicate SameBits(a: nat, b: nat) {
    forall i {:trigger Bit(a, i)} {:trigger Bit(b, i)} :: 0 <= i ==> (Bit(a, i) <==> Bit(b, i))
  }

  /** A mask is determined by its bits. */
  lemma {:induction false} MasksAreBits(a: nat, b: nat)
    requires SameBits(a, b)
    ensures a == b
    decreases a + b
  {
    if a != 0 || b != 0 {
      assert Bit(a, 0) <==> Bit(b, 0);
      forall i: nat ensures Bit(a / 2, i) <==> Bit(b / 2, i) {
        assert Bit(a, i + 1) <==> Bit(b, i + 1);
      }
      MasksAreBits(a / 2, b / 2);
      assert a == 2 * (a / 2) + a % 2 && b == 2 * (b / 2) + b % 2;
    }
  }
}
