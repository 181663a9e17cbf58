/** The hash that places thread ids in the psx thread map. Thread ids
    are non-negative C longs, so the hash is a function on naturals. */
module PsxHash {
  import opened Bits

  /** A value exclusive-ored with three right shifts of itself. */
  function MixBy(value: nat, i: nat, j: nat, k: nat): nat {
    Xor(Xor(Xor(value, ShiftRight(value, i)), ShiftRight(value, j)), ShiftRight(value, k))
  }

  /** The mixing function applied to a thread id. */
  function Mix(value: nat): nat {
    MixBy(value, 7, 13, 23)
  }

  lemma MixShift(v: nat, i: nat, j: nat, k: nat, n: nat)
    ensures ShiftRight(MixBy(v, i, j, k), n) == MixBy(ShiftRight(v, n), i, j, k)
  {
    var a, b, c := ShiftRight(v, i), ShiftRight(v, j), ShiftRight(v, k);
    XorShift(Xor(Xor(v, a), b), c, n);
    XorShift(Xor(v, a), b, n);
    XorShift(v, a, n);
    ShiftSwap(v, i, n);
    ShiftSwap(v, j, n);
    ShiftSwap(v, k, n);
  }

  /** Mixing by positive shifts loses nothing: the digits above the smallest shift agree by
      induction, then every shifted term agrees, so the low digits do too. */
  lemma {:induction false} MixByInjective(a: nat, b: nat, i: nat, j: nat, k: nat)
    requires 0 < i <= j <= k
    requires MixBy(a, i, j, k) == MixBy(b, i, j, k)
    ensures a == b
    decreases a + b
  {
    if a > 0 || b > 0 {
      var ai, bi := ShiftRight(a, i), ShiftRight(b, i);
      ShiftSmaller(a, i);
      ShiftSmaller(b, i);
      MixShift(a, i, j, k, i);
      MixShift(b, i, j, k, i);
      MixByInjective(ai, bi, i, j, k);
      ShiftAdds(a, i, j - i);
      ShiftAdds(b, i, j - i);
      ShiftAdds(a, i, k - i);
      ShiftAdds(b, i, k - i);
      var s, t := ShiftRight(a, j), ShiftRight(a, k);
      XorCancel(Xor(Xor(a, ai), s), Xor(Xor(b, ai), s), t);
      XorCancel(Xor(a, ai), Xor(b, ai), s);
      XorCancel(a, b, ai);
    }
  }

  /** Two thread ids never share a hash value. */
  lemma MixInjective(a: nat, b: nat)
    requires Mix(a) == Mix(b)
    ensures a == b
  {
    hide MixBy;
    MixByInjective(a, b, 7, 13, 23);
  }

  /** Mixing keeps a value inside any power of two that bounds it. */
  lemma MixByBelow(v: nat, i: nat, j: nat, k: nat, n: nat)
    requires v < Pow2(n)
    ensures MixBy(v, i, j, k) < Pow2(n)
  {
    var a, b, c := ShiftRight(v, i), ShiftRight(v, j), ShiftRight(v, k);
    ShiftSmaller(v, i);
    ShiftSmaller(v, j);
    ShiftSmaller(v, k);
    XorBelow(v, a, n);
    XorBelow(Xor(v, a), b, n);
    XorBelow(Xor(Xor(v, a), b), c, n);
  }

  /** Two numbers below 2^k hash to different slots of a table of 2^k entries. */
  lemma DistinctSlots(a: nat, b: nat, k: nat)
    requires a < Pow2(k) && b < Pow2(k) && a != b
    ensures Low(Mix(a), k) != Low(Mix(b), k)
  {
    hide MixBy;
    var m, n := Mix(a), Mix(b);
    if m == n {
      MixInjective(a, b);
    }
    MixByBelow(a, 7, 13, 23, k);
    MixByBelow(b, 7, 13, 23, k);
    LowOfSmall(m, k);
    LowOfSmall(n, k);
  }

  lemma {:induction false} ShiftBit(a: nat, i: nat, k: nat)
    ensures Bit(ShiftRight(a, i), k) <==> Bit(a, k + i)
    decreases i
  {
    if i > 0 {
      ShiftBit(a / 2, i - 1, k);
    }
  }

  lemma {:induction false} XorBit(a: nat, b: nat, k: nat)
    ensures Bit(Xor(a, b), k) <==> Bit(a, k) != Bit(b, k)
    decreases k
  {
    if k > 0 {
      assert Xor(a, b) / 2 == Xor(a / 2, b / 2);
      XorBit(a / 2, b / 2, k - 1);
    }
  }

  /** Each digit of the hash is the parity of four digits of the id. */
  lemma MixBits(v: nat, k: nat)
    ensures Bit(Mix(v), k) <==> ((Bit(v, k) != Bit(v, k + 7)) != (Bit(v, k + 13) != Bit(v, k + 23)))
  {
    var a, b, c := ShiftRight(v, 7), ShiftRight(v, 13), ShiftRight(v, 23);
    ShiftBit(v, 7, k);
    ShiftBit(v, 13, k);
    ShiftBit(v, 23, k);
    XorBit(v, a, k);
    XorBit(Xor(v, a), b, k);
    XorBit(Xor(Xor(v, a), b), c, k);
    assert Mix(v) == Xor(Xor(Xor(v, a), b), c);
    hide Bit, Xor, ShiftRight, Mix;
  }
}
