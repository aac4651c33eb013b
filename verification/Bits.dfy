/** The on-chain permission masks: two bits for each privilege, in an unbounded integer. */
module Bits {
  import opened Lists
  import opened Text

  /** `big.Int.Bit` of a non-negative integer. */
  function Bit(n: nat, k: nat): (b: nat)
    ensures b < 2
    decreases k
  {
    if k == 0 then n % 2 else Bit(n / 2, k - 1)
  }

  /** Bit k is the binary digit of n above its k lowest: n is high digits, that digit, and low digits. */
  lemma {:induction false} BitIsBinaryDigit(n: nat, k: nat) returns (high: nat, low: nat)
    ensures low < Pow(2, k)
    ensures n == Pow(2, k) * (2 * high + Bit(n, k)) + low
    decreases k
  {
    if k == 0 {
      high, low := n / 2, 0;
    } else {
      high, low := BitIsBinaryDigit(n / 2, k - 1);
      var digits := 2 * high + Bit(n / 2, k - 1);
      assert Pow(2, k) * digits == 2 * (Pow(2, k - 1) * digits) by {
        assert Pow(2, k) == 2 * Pow(2, k - 1);
      }
      low := 2 * low + n % 2;
    }
  }

  /** `big.Int.SetBit(n, k, 1)`. */
  function SetBit(n: nat, k: nat): nat
    decreases k
  {
    if k == 0 then n / 2 * 2 + 1 else n % 2 + 2 * SetBit(n / 2, k - 1)
  }

  /** `big.Int.And`. */
  function And(a: nat, b: nat): nat {
    if a == 0 then 0 else (if a % 2 == 1 && b % 2 == 1 then 1 else 0) + 2 * And(a / 2, b / 2)
  }

  function Pow(base: nat, e: nat): nat { if e == 0 then 1 else base * Pow(base, e - 1) }

  lemma {:induction false} BitOfSetBit(n: nat, k: nat, j: nat)
    ensures Bit(SetBit(n, k), j) == if j == k then 1 else Bit(n, j)
    decreases k
  {
    var m := SetBit(n, k);
    if k == 0 {
      assert m / 2 == n / 2;
    } else {
      assert m % 2 == n % 2 && m / 2 == SetBit(n / 2, k - 1);
      if j > 0 { BitOfSetBit(n / 2, k - 1, j - 1); }
    }
  }

  lemma {:induction false} BitOfAnd(a: nat, b: nat, j: nat)
    ensures Bit(And(a, b), j) == if Bit(a, j) == 1 && Bit(b, j) == 1 then 1 else 0
    decreases j
  {
    if a == 0 {
      ZeroBits(j);
    } else if j == 0 {
    } else {
      assert And(a, b) / 2 == And(a / 2, b / 2);
      BitOfAnd(a / 2, b / 2, j - 1);
    }
  }

  lemma {:induction false} ZeroBits(j: nat)
    ensures Bit(0, j) == 0
    decreases j
  {
    if j > 0 { ZeroBits(j - 1); }
  }

  /** A number whose bits stop before m is below 2 to the m. */
  lemma {:induction false} HighBitsZero(n: nat, m: nat)
    requires forall k :: k >= m ==> Bit(n, k) == 0
    ensures n < Pow(2, m)
    decreases m, n
  {
    if m == 0 {
      if n > 0 {
        assert Bit(n, 0) == 0;
        forall k | k >= 0 ensures Bit(n / 2, k) == 0 {
          assert Bit(n, k + 1) == Bit(n / 2, k);
        }
        HighBitsZero(n / 2, 0);
      }
    } else {
      forall k | k >= m - 1 ensures Bit(n / 2, k) == 0 {
        assert Bit(n, k + 1) == Bit(n / 2, k);
      }
      HighBitsZero(n / 2, m - 1);
    }
  }

  lemma {:induction false} FourIsTwoSquared(m: nat)
    ensures Pow(4, m) == Pow(2, 2 * m)
  {
    if m > 0 {
      FourIsTwoSquared(m - 1);
      assert Pow(2, 2 * m) == 2 * (2 * Pow(2, 2 * m - 2));
    }
  }

  // ---------- The mask ----------

  const TWO_TO_THE_63: int := 0x8000_0000_0000_0000
  const TWO_TO_THE_64: int := 0x1_0000_0000_0000_0000

  /** Go's int64, and its int on the 64-bit platforms dauth runs on. */
  type Int64 = n: int | -TWO_TO_THE_63 <= n < TWO_TO_THE_63

  /** Two's-complement wrap-around to 64 bits. */
  function Wrap(n: int): (r: Int64)
    ensures (n - r) % TWO_TO_THE_64 == 0
  {
    (n + TWO_TO_THE_63) % TWO_TO_THE_64 - TWO_TO_THE_63
  }

  /** Indices from here on double to a negative bit number. */
  const HALF: int := 0x4000_0000_0000_0000

  lemma DoublingWraps(index: Int64)
    requires index >= 0
    ensures index < HALF ==> Wrap(2 * index) == 2 * index && Wrap(2 * index + 1) == 2 * index + 1
    ensures index >= HALF ==> Wrap(2 * index) < 0
  {
  }

  /** How the conversion fails: an error return, or the panic of `SetBit` on a negative bit number. */
  datatype MaskFailure = InvalidIndex(index: int) | NegativeBit(index: int)

  predicate Convertible(indices: seq<int>, length: int) {
    forall i :: 0 <= i < |indices| ==> 0 <= indices[i] < length && indices[i] < HALF
  }

  predicate InRange(indices: seq<int>, length: int) {
    forall i :: 0 <= i < |indices| ==> 0 <= indices[i] < length
  }

  function SetPair(mask: nat, index: nat): nat { SetBit(SetBit(mask, 2 * index), 2 * index + 1) }

  lemma BitOfSetPair(mask: nat, index: nat, k: nat)
    ensures Bit(SetPair(mask, index), k) == if k / 2 == index then 1 else Bit(mask, k)
  {
    BitOfSetBit(mask, 2 * index, k);
    BitOfSetBit(SetBit(mask, 2 * index), 2 * index + 1, k);
  }

  /** `IntArrayTo2BitArray`: it errs exactly on an index out of range, panics exactly on one whose double
      overflows, whichever comes first, and otherwise the mask has bit k iff k/2 is a listed index, in any
      order and however often it is listed. */
  method IntArrayTo2BitArray(indices: seq<Int64>, length: Int64) returns (r: Result<nat, MaskFailure>)
    ensures r.Ok? <==> Convertible(indices, length)
    ensures r.Ok? ==> MaskOf(indices, r.value)
    ensures r.Ok? ==> r.value < Pow(4, if length < 0 then 0 else length)
    ensures r.Err? ==>
              exists i :: 0 <= i < |indices| && indices[i] == r.error.index && Convertible(indices[..i], length)
    ensures r.Err? ==> if r.error.InvalidIndex? then !(0 <= r.error.index < length) else HALF <= r.error.index < length
  {
    var mask: nat := 0;
    forall k: nat ensures Bit(mask, k) == 0 { ZeroBits(k); }
    for i := 0 to |indices|
      invariant Convertible(indices[..i], length)
      invariant forall k: nat :: Bit(mask, k) == 1 <==> k / 2 in indices[..i]
    {
      var index := indices[i];
      if index < 0 || index >= length {
        return Err(InvalidIndex(index));
      }
      DoublingWraps(index);
      var low := Wrap(index * 2);
      if low < 0 {
        return Err(NegativeBit(index));
      }
      forall k: nat ensures Bit(SetPair(mask, index), k) == if k / 2 == index then 1 else Bit(mask, k) {
        BitOfSetPair(mask, index, k);
      }
      mask := SetBit(mask, low);
      var high := Wrap(index * 2 + 1);
      mask := SetBit(mask, high);
      assert indices[..i + 1] == indices[..i] + [index];
    }
    assert indices[..|indices|] == indices;
    MaskBound(indices, length, mask);
    return Ok(mask);
  }

  /** What makes n the mask of the indices. */
  ghost predicate MaskOf(indices: seq<int>, n: nat) {
    forall k: nat :: Bit(n, k) == 1 <==> k / 2 in indices
  }

  lemma MaskBound(indices: seq<int>, length: int, n: nat)
    requires InRange(indices, length) && MaskOf(indices, n)
    ensures n < Pow(4, if length < 0 then 0 else length)
  {
    var m := if length < 0 then 0 else length;
    forall k | k >= 2 * m ensures Bit(n, k) == 0 {
      assert k / 2 !in indices;
    }
    HighBitsZero(n, 2 * m);
    FourIsTwoSquared(m);
  }

  /** Two masks of the same indices are the same number. */
  lemma MaskUnique(indices: seq<int>, a: nat, b: nat)
    requires MaskOf(indices, a) && MaskOf(indices, b)
    ensures a == b
  {
    forall k: nat ensures Bit(a, k) == Bit(b, k) {
      assert Bit(a, k) == 1 <==> Bit(b, k) == 1;
    }
    BitsDetermine(a, b);
  }

  lemma {:induction false} BitsDetermine(a: nat, b: nat)
    requires forall k: nat :: Bit(a, k) == Bit(b, k)
    ensures a == b
    decreases a + b
  {
    if a + b > 0 {
      assert Bit(a, 0) == Bit(b, 0);
      forall k: nat ensures Bit(a / 2, k) == Bit(b / 2, k) {
        assert Bit(a, k + 1) == Bit(b, k + 1);
      }
      BitsDetermine(a / 2, b / 2);
    }
  }

  /** The mask as a function, for the specifications that need its value. */
  function Mask(indices: seq<int>): (n: nat)
    requires forall i :: 0 <= i < |indices| ==> indices[i] >= 0
  {
    if indices == [] then 0 else SetPair(Mask(indices[..|indices| - 1]), indices[|indices| - 1])
  }

  lemma {:induction false} MaskIsMask(indices: seq<int>)
    requires forall i :: 0 <= i < |indices| ==> indices[i] >= 0
    ensures MaskOf(indices, Mask(indices))
  {
    var n := Mask(indices);
    if indices == [] {
      forall k: nat ensures Bit(n, k) == 0 { ZeroBits(k); }
    } else {
      var m := |indices| - 1;
      MaskIsMask(indices[..m]);
      forall k: nat ensures Bit(n, k) == 1 <==> k / 2 in indices {
        BitOfSetPair(Mask(indices[..m]), indices[m], k);
        assert indices == indices[..m] + [indices[m]];
      }
    }
  }

  // ---------- Checking privileges against bits ----------

  predicate Has(bits: nat, p: nat) { Bit(bits, 2 * p) == 1 && Bit(bits, 2 * p + 1) == 1 }

  /** The privileges without both of their bits, in the order they were asked for. */
  function LackingBits(privileges: seq<nat>, bits: nat): seq<nat> {
    if privileges == [] then []
    else
      var n := |privileges| - 1;
      LackingBits(privileges[..n], bits) + (if Has(bits, privileges[n]) then [] else [privileges[n]])
  }

  /** `EvaluatePermissionsBits`. */
  method EvaluatePermissionsBits(privileges: seq<nat>, bits: nat) returns (lack: seq<nat>)
    ensures lack == LackingBits(privileges, bits)
    ensures lack == [] <==> forall i :: 0 <= i < |privileges| ==> Has(bits, privileges[i])
  {
    lack := [];
    for i := 0 to |privileges|
      invariant lack == LackingBits(privileges[..i], bits)
    {
      assert privileges[..i + 1][..i] == privileges[..i];
      var p := privileges[i];
      if Bit(bits, 2 * p) != 1 || Bit(bits, 2 * p + 1) != 1 {
        lack := lack + [p];
      }
    }
    assert privileges[..|privileges|] == privileges;
    NoneLacking(privileges, bits);
  }

  lemma {:induction false} NoneLacking(privileges: seq<nat>, bits: nat)
    ensures LackingBits(privileges, bits) == [] <==> forall i :: 0 <= i < |privileges| ==> Has(bits, privileges[i])
  {
    if privileges != [] {
      var n := |privileges| - 1;
      NoneLacking(privileges[..n], bits);
      assert forall i :: 0 <= i < n ==> privileges[..n][i] == privileges[i];
    }
  }

  lemma {:induction false} SameBitsSameLacks(privileges: seq<nat>, a: nat, b: nat)
    requires forall i :: 0 <= i < |privileges| ==> (Has(a, privileges[i]) <==> Has(b, privileges[i]))
    ensures LackingBits(privileges, a) == LackingBits(privileges, b)
  {
    if privileges != [] {
      SameBitsSameLacks(privileges[..|privileges| - 1], a, b);
    }
  }

  /** Masking loses nothing: checking against (granted AND mask) gives the same ordered lacks as
      checking against everything granted, and the mask itself lacks none. */
  lemma MaskingLosesNothing(privileges: seq<nat>, granted: nat, mask: nat)
    requires forall k: nat :: Bit(mask, k) == 1 <==> k / 2 in privileges
    ensures LackingBits(privileges, And(granted, mask)) == LackingBits(privileges, granted)
    ensures LackingBits(privileges, mask) == []
  {
    forall i | 0 <= i < |privileges|
      ensures Has(mask, privileges[i])
      ensures Has(And(granted, mask), privileges[i]) <==> Has(granted, privileges[i])
    {
      var p := privileges[i];
      assert (2 * p) / 2 == p && (2 * p + 1) / 2 == p;
      BitOfAnd(granted, mask, 2 * p);
      BitOfAnd(granted, mask, 2 * p + 1);
    }
    SameBitsSameLacks(privileges, And(granted, mask), granted);
    NoneLacking(privileges, mask);
  }

  /** At the length the record check uses, masks fit the chain's 256-bit words. */
  lemma MasksFitAWord(indices: seq<int>, mask: nat)
    requires InRange(indices, 128) && MaskOf(indices, mask)
    ensures mask < Pow(2, 256)
  {
    MaskBound(indices, 128, mask);
    FourIsTwoSquared(128);
  }

  // ---------- What it takes to lack nothing ----------

  ghost predicate Within(mask: nat, bits: nat) { forall k: nat :: Bit(mask, k) == 1 ==> Bit(bits, k) == 1 }

  lemma LacksNothingHoldsMask(privileges: seq<nat>, mask: nat, bits: nat)
    requires MaskOf(privileges, mask) && LackingBits(privileges, bits) == []
    ensures Within(mask, bits)
  {
    NoneLacking(privileges, bits);
    forall k: nat | Bit(mask, k) == 1 ensures Bit(bits, k) == 1 {
      var i :| 0 <= i < |privileges| && privileges[i] == k / 2;
      assert Has(bits, privileges[i]);
      assert k == 2 * (k / 2) || k == 2 * (k / 2) + 1;
    }
  }

  lemma HoldsMaskLacksNothing(privileges: seq<nat>, mask: nat, bits: nat)
    requires MaskOf(privileges, mask) && Within(mask, bits)
    ensures LackingBits(privileges, bits) == []
  {
    NoneLacking(privileges, bits);
    forall i | 0 <= i < |privileges| ensures Has(bits, privileges[i]) {
      var p := privileges[i];
      assert (2 * p) / 2 == p && (2 * p + 1) / 2 == p;
      assert Bit(mask, 2 * p) == 1 && Bit(mask, 2 * p + 1) == 1;
    }
  }

  /** Nothing is lacking exactly when the permissions contain the whole mask. */
  lemma LacksNothingIffMaskHeld(privileges: seq<nat>, mask: nat, bits: nat)
    requires MaskOf(privileges, mask)
    ensures LackingBits(privileges, bits) == [] <==> And(bits, mask) == mask
  {
    forall k: nat ensures Bit(And(bits, mask), k) == if Bit(bits, k) == 1 && Bit(mask, k) == 1 then 1 else 0 {
      BitOfAnd(bits, mask, k);
    }
    if LackingBits(privileges, bits) == [] {
      LacksNothingHoldsMask(privileges, mask, bits);
      BitsDetermine(And(bits, mask), mask);
    }
    if And(bits, mask) == mask {
      HoldsMaskLacksNothing(privileges, mask, bits);
    }
  }

  function Lacks(bits: nat): nat -> bool { (p: nat) => Bit(bits, 2 * p) == 0 || Bit(bits, 2 * p + 1) == 0 }

  /** The report keeps the privileges that lack a bit, in order. */
  lemma {:induction false} LackingBitsKept(privileges: seq<nat>, bits: nat)
    ensures LackingBits(privileges, bits) == Keep(Lacks(bits), privileges)
  {
    if privileges != [] {
      LackingBitsKept(privileges[..|privileges| - 1], bits);
    }
  }

  /** Masking twice is masking once, and a mask holds itself. */
  lemma MaskAgain(bits: nat, mask: nat)
    ensures And(And(bits, mask), mask) == And(bits, mask)
    ensures And(mask, mask) == mask
  {
    forall k: nat
      ensures Bit(And(And(bits, mask), mask), k) == Bit(And(bits, mask), k)
      ensures Bit(And(mask, mask), k) == Bit(mask, k)
    {
      BitOfAnd(bits, mask, k);
      BitOfAnd(And(bits, mask), mask, k);
      BitOfAnd(mask, mask, k);
    }
    BitsDetermine(And(And(bits, mask), mask), And(bits, mask));
    BitsDetermine(And(mask, mask), mask);
  }

  /** Only the mask of nothing is zero. */
  lemma EmptyMask(indices: seq<nat>, mask: nat)
    requires MaskOf(indices, mask)
    ensures mask == 0 <==> indices == []
  {
    if indices == [] {
      forall k: nat ensures Bit(mask, k) == Bit(0, k) { ZeroBits(k); }
      BitsDetermine(mask, 0);
    } else {
      var k := 2 * indices[0];
      ZeroBits(k);
      assert k / 2 in indices;
    }
  }
}
