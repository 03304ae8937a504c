/** The portable count of leading zeros and the ceiling logarithm built on it. */
module LeadingZeros {
  import opened Words

  /** Bisection over the word: each step looks at the upper half of what is left. `Count |= Shift`
      adds, for count is a multiple of twice the shift. */
  method CountLeadingZeros32(word: nat) returns (count: nat)
    requires word < TWO32
    ensures word == 0 ==> count == 32
    ensures word > 0 ==> count < 32 && Pow2(31 - count) <= word < Pow2(32 - count)
  {
    hide *;
    if word == 0 {
      return 32;
    }
    count := 0;
    var value := word;
    var shift: nat := 16;
    ghost var e: nat, width: nat := 0, 32;
    WholeWord(word);
    while shift > 0
      invariant Halving(shift, width) && count + e + width == 32
      invariant value == Shr(word, e) && 0 < value < Pow2(width)
      invariant count % width == 0
    {
      var tmp := Shr(value, shift);
      NextHalf(shift, width, count);
      HalveWidth(word, value, e, shift);
      if tmp > 0 {
        value := tmp;
        e := e + shift;
      } else {
        count := count + shift;
      }
      width := shift;
      shift := shift / 2;
    }
    LastWidth(shift, width, value);
    TopBit(word, e);
  }

  /** The shifts gone through, with the number of bits that may still hold the top bit. */
  ghost predicate Halving(shift: nat, width: nat) {
    (shift == 0 && width == 1) || (shift in {1, 2, 4, 8, 16} && width == 2 * shift)
  }

  lemma WholeWord(word: nat)
    requires word < TWO32
    ensures Shr(word, 0) == word < Pow2(32) && Halving(16, 32)
  {
    Pow2Constants();
    ZeroShift(word);
  }

  lemma NextHalf(shift: nat, width: nat, count: nat)
    requires Halving(shift, width) && shift > 0 && count % width == 0
    ensures width == 2 * shift && Halving(shift / 2, shift)
    ensures count % shift == 0 && (count + shift) % shift == 0
  {
    HalfMultiple(count, shift);
  }

  lemma HalfMultiple(count: nat, shift: nat)
    requires shift >= 1 && count % (2 * shift) == 0
    ensures count % shift == 0 && (count + shift) % shift == 0
  {
    var q := count / (2 * shift);
    assert count == q * (2 * shift) == (2 * q) * shift;
    assert count + shift == (2 * q + 1) * shift;
    ModUnique(count, shift, 2 * q, 0);
    ModUnique(count + shift, shift, 2 * q + 1, 0);
  }

  lemma LastWidth(shift: nat, width: nat, value: nat)
    requires Halving(shift, width) && shift == 0 && 0 < value < Pow2(width)
    ensures width == 1 && value == 1
  {
  }

  lemma ZeroShift(word: nat)
    ensures Shr(word, 0) == word
  {
  }

  lemma HalveWidth(word: nat, value: nat, e: nat, shift: nat)
    requires value == Shr(word, e) && value < Pow2(2 * shift)
    ensures Shr(value, shift) == Shr(word, e + shift) < Pow2(shift)
    ensures Shr(value, shift) == 0 ==> value < Pow2(shift)
  {
    Pow2Add(e, shift);
    Pow2Add(shift, shift);
    hide Pow2;
    DivDiv(word, Pow2(e), Pow2(shift));
    DivBelow(value, Pow2(shift), Pow2(shift));
  }

  lemma TopBit(word: nat, e: nat)
    requires Shr(word, e) == 1
    ensures Pow2(e) <= word < Pow2(e + 1)
  {
    assert word == 1 * Pow2(e) + word % Pow2(e);
  }

  /** Log2_32_Ceil, where `Value - 1` wraps round for 0. */
  method Log2Ceil32(word: nat) returns (log: nat)
    requires word < TWO32
    ensures word == 0 ==> log == 32
    ensures word >= 1 ==> log <= 32 && word <= Pow2(log)
    ensures word >= 1 ==> forall i: nat :: word <= Pow2(i) ==> log <= i
  {
    hide *;
    WrapAround(word);
    var zeros := CountLeadingZeros32((word - 1) % TWO32);
    log := 32 - zeros;
    CeilingFromZeros(word, zeros);
  }

  lemma WrapAround(word: nat)
    requires word < TWO32
    ensures (word - 1) % TWO32 == if word == 0 then TWO32 - 1 else word - 1
    ensures 0 <= (word - 1) % TWO32 < TWO32
  {
  }

  lemma CeilingFromZeros(word: nat, zeros: nat)
    requires word < TWO32 && zeros <= 32
    requires (word - 1) % TWO32 == 0 ==> zeros == 32
    requires (word - 1) % TWO32 > 0 ==> zeros < 32 && Pow2(31 - zeros) <= (word - 1) % TWO32 < Pow2(32 - zeros)
    ensures word == 0 ==> zeros == 0
    ensures word >= 1 ==> word <= Pow2(32 - zeros)
    ensures word >= 1 ==> forall i: nat :: word <= Pow2(i) ==> 32 - zeros <= i
  {
    WrapAround(word);
    if word == 0 {
      Pow2Constants();
      if zeros > 0 {
        Pow2Monotone(32 - zeros, 31);
      }
    } else {
      hide Pow2;
      assert Pow2(0) >= 1;
      forall i: nat | word <= Pow2(i) ensures 32 - zeros <= i {
        if i < 32 - zeros {
          Pow2Monotone(i, 31 - zeros);
        }
      }
    }
  }
}
