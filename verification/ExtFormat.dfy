/** The external form of a capability set: a magic number, a length and the three flags byte by
    byte, lowest bytes first. */
module ExtFormat {
  import opened Bits
  import opened Words
  import opened CapSet
  import opened Strings

  type Byte = b: nat | b < 256

  const MAGIC: seq<Byte> := [0x90, 0xc2, 0x01, 0x51]

  /** Byte j of a word. */
  function ByteOf(w: nat, j: nat): Byte {
    if j == 0 then w % 256 else ByteOf(w / 256, j - 1)
  }

  /** Byte r of a flag; there are only zeros beyond its words. */
  function ByteAt(flat: Flat, f: Flag, r: nat): Byte {
    if r / 4 < |flat| then ByteOf(flat[r / 4].Get(f), r % 4) else 0
  }

  function RowAt(flat: Flat, r: nat): seq<Byte> {
    [ByteAt(flat, Effective, r), ByteAt(flat, Permitted, r), ByteAt(flat, Inheritable, r)]
  }

  function Rows(flat: Flat, n: nat): (d: seq<Byte>)
    ensures |d| == 3 * n
  {
    if n == 0 then [] else Rows(flat, n - 1) + RowAt(flat, n - 1)
  }

  // ---------- the length ----------

  /** How many bytes a word needs. */
  function ByteLen(u: nat): nat {
    if u == 0 then 0 else 1 + ByteLen(u / 256)
  }

  function AnyFlag(d: Data): Word {
    OrWord(OrWord(d.eff, d.per), d.inh)
  }

  /** How many bytes each flag of a set needs. */
  function Used(flat: Flat): nat {
    if flat == [] then 0
    else
      var last := AnyFlag(flat[|flat| - 1]);
      if last == 0 then Used(flat[..|flat| - 1]) else 4 * (|flat| - 1) + ByteLen(last)
  }

  function Length(flat: Flat, min: nat): nat {
    if Used(flat) < min then min else Used(flat)
  }

  /** The exported bytes, with at least `min` bytes for each flag. */
  function External(flat: Flat, min: nat): seq<Byte>
    requires Length(flat, min) < 256
  {
    MAGIC + [Length(flat, min)] + Rows(flat, Length(flat, min))
  }

  /** From byte n on there is nothing in any flag. */
  ghost predicate Enough(flat: Flat, n: nat) {
    forall r: nat, f :: n <= r ==> ByteAt(flat, f, r) == 0
  }

  lemma {:induction false} BytesOfZero(j: nat)
    ensures ByteOf(0, j) == 0
  {
    if j > 0 {
      BytesOfZero(j - 1);
    }
  }

  /** The bytes of a word end at its length, and the last one is not zero. */
  lemma {:induction false} ByteLenIsLeast(w: nat, j: nat)
    ensures j >= ByteLen(w) ==> ByteOf(w, j) == 0
    ensures w != 0 ==> ByteLen(w) > 0 && ByteOf(w, ByteLen(w) - 1) != 0
    decreases w
  {
    if w != 0 {
      if j > 0 {
        ByteLenIsLeast(w / 256, j - 1);
      } else {
        ByteLenIsLeast(w / 256, 0);
      }
    } else {
      BytesOfZero(j);
    }
  }

  lemma {:induction false} ByteLenBelow(w: nat, n: nat)
    requires w < Pow2(8 * n)
    ensures ByteLen(w) <= n
    decreases n
  {
    if n > 0 && w != 0 {
      ShiftByte(n - 1);
      ByteLenBelow(w / 256, n - 1);
    }
  }

  lemma ShiftByte(n: nat)
    ensures Pow2(8 * (n + 1)) == 256 * Pow2(8 * n)
  {
    var k := 8 * n;
    assert Pow2(k + 1) == 2 * Pow2(k) && Pow2(k + 2) == 4 * Pow2(k) && Pow2(k + 3) == 8 * Pow2(k);
    assert Pow2(k + 4) == 16 * Pow2(k) && Pow2(k + 5) == 32 * Pow2(k) && Pow2(k + 6) == 64 * Pow2(k);
    assert Pow2(k + 7) == 128 * Pow2(k) && Pow2(k + 8) == 256 * Pow2(k);
  }

  lemma {:induction false} OrShift(a: nat, b: nat, k: nat)
    ensures ShiftRight(Or(a, b), k) == Or(ShiftRight(a, k), ShiftRight(b, k))
    decreases k
  {
    if k > 0 {
      assert Or(a, b) / 2 == Or(a / 2, b / 2);
      OrShift(a / 2, b / 2, k - 1);
    }
  }

  lemma ShiftByByte(a: nat)
    ensures ShiftRight(a, 8) == a / 256
  {
    ShiftByFour(a);
    ShiftByFour(a / 16);
    ShiftAdds(a, 4, 4);
    assert a / 16 / 16 == a / 256;
  }

  lemma ShiftByFour(a: nat)
    ensures ShiftRight(a, 4) == a / 16
  {
    assert ShiftRight(a, 4) == ShiftRight(a / 2 / 2 / 2 / 2, 0);
  }

  lemma OrZero(a: nat, b: nat)
    ensures Or(a, b) == 0 <==> a == 0 && b == 0
  {
    if a + b > 0 && Or(a, b) == 0 {
      OrAtLeast(a, b);
    }
  }

  lemma {:induction false} OrAtLeast(a: nat, b: nat)
    ensures a <= Or(a, b) && b <= Or(a, b)
    decreases a + b
  {
    if a + b > 0 {
      OrAtLeast(a / 2, b / 2);
    }
  }

  /** A union of words is as long as the longer one. */
  lemma {:induction false} OrByteLen(a: nat, b: nat)
    ensures ByteLen(Or(a, b)) == if ByteLen(a) > ByteLen(b) then ByteLen(a) else ByteLen(b)
    decreases a + b
  {
    OrZero(a, b);
    if a + b > 0 {
      OrShift(a, b, 8);
      ShiftByByte(Or(a, b));
      ShiftByByte(a);
      ShiftByByte(b);
      OrByteLen(a / 256, b / 256);
      hide Or, ShiftRight;
    }
  }

  lemma AnyFlagLen(d: Data)
    ensures AnyFlag(d) == 0 <==> d.eff == 0 && d.per == 0 && d.inh == 0
    ensures forall f :: ByteLen(d.Get(f)) <= ByteLen(AnyFlag(d))
    ensures AnyFlag(d) != 0 ==> exists f :: ByteLen(d.Get(f)) == ByteLen(AnyFlag(d)) && d.Get(f) != 0
    ensures ByteLen(AnyFlag(d)) <= 4
  {
    OrZero(d.eff, d.per);
    OrZero(OrWord(d.eff, d.per), d.inh);
    OrByteLen(d.eff, d.per);
    OrByteLen(OrWord(d.eff, d.per), d.inh);
    WordBits();
    var n := 4;
    ByteLenBelow(AnyFlag(d), n);
    hide Or, Pow2;
    if AnyFlag(d) != 0 {
      var len := ByteLen(AnyFlag(d));
      var f := if ByteLen(d.eff) == len then Effective else if ByteLen(d.per) == len then Permitted else Inheritable;
      assert ByteLen(d.Get(f)) == len;
    }
  }

  /** The length is exactly what it takes: no shorter one would do. */
  lemma {:induction false} UsedIsLeast(flat: Flat, n: nat)
    ensures Enough(flat, n) <==> n >= Used(flat)
    ensures Used(flat) <= 4 * |flat|
    decreases |flat|
  {
    if flat != [] {
      var k := |flat| - 1;
      var d := flat[k];
      AnyFlagLen(d);
      hide AnyFlag;
      if AnyFlag(d) == 0 {
        UsedIsLeast(flat[..k], n);
        EnoughWithout(flat, n);
      } else {
        LastWord(flat, n);
      }
    }
  }

  lemma EnoughWithout(flat: Flat, n: nat)
    requires flat != [] && var d := flat[|flat| - 1]; d.eff == 0 && d.per == 0 && d.inh == 0
    ensures Enough(flat, n) <==> Enough(flat[..|flat| - 1], n)
  {
    var shorter := flat[..|flat| - 1];
    forall r: nat, f
      ensures ByteAt(flat, f, r) == ByteAt(shorter, f, r)
    {
      BytesOfZero(r % 4);
    }
  }

  lemma LastWord(flat: Flat, n: nat)
    requires flat != [] && AnyFlag(flat[|flat| - 1]) != 0
    ensures Enough(flat, n) <==> n >= 4 * (|flat| - 1) + ByteLen(AnyFlag(flat[|flat| - 1]))
  {
    var k := |flat| - 1;
    var d := flat[k];
    var used := 4 * k + ByteLen(AnyFlag(d));
    AnyFlagLen(d);
    hide AnyFlag, ByteOf, ByteLen;
    if n >= used {
      forall r: nat, f | n <= r
        ensures ByteAt(flat, f, r) == 0
      {
        ByteLenIsLeast(d.Get(f), r % 4);
      }
    } else {
      var f :| ByteLen(d.Get(f)) == ByteLen(AnyFlag(d)) && d.Get(f) != 0;
      ByteLenIsLeast(d.Get(f), 0);
      var r := used - 1;
      assert r / 4 == k && r % 4 == ByteLen(d.Get(f)) - 1;
      assert ByteAt(flat, f, r) != 0;
    }
  }

  // ---------- reading ----------

  function FlagIndex(f: Flag): nat {
    match f case Effective => 0 case Permitted => 1 case Inheritable => 2
  }

  /** Byte r of a flag in the rows of some data. */
  function RowByte(d: seq<Byte>, f: Flag, r: nat): Byte
    requires 3 * r + 3 <= |d|
  {
    d[3 * r + FlagIndex(f)]
  }

  function RowByteOrZero(d: seq<Byte>, n: nat, f: Flag, r: nat): Byte
    requires 3 * n <= |d|
  {
    if r < n then RowByte(d, f, r) else 0
  }

  /** Four bytes as a word. */
  function Combine(b0: Byte, b1: Byte, b2: Byte, b3: Byte): Word {
    b0 + 0x100 * b1 + 0x1_0000 * b2 + 0x100_0000 * b3
  }

  function WordAt(d: seq<Byte>, n: nat, f: Flag, j: nat): Word
    requires 3 * n <= |d|
  {
    Combine(RowByteOrZero(d, n, f, 4 * j), RowByteOrZero(d, n, f, 4 * j + 1),
            RowByteOrZero(d, n, f, 4 * j + 2), RowByteOrZero(d, n, f, 4 * j + 3))
  }

  /** The words that n rows spell. */
  function Decoded(d: seq<Byte>, n: nat, words: nat): Flat
    requires 3 * n <= |d|
  {
    seq(words, j requires 0 <= j =>
      Data(WordAt(d, n, Effective, j), WordAt(d, n, Permitted, j), WordAt(d, n, Inheritable, j)))
  }

  /** The set that some bytes hold; bytes after the rows are ignored. */
  function Imported(d: seq<Byte>, words: nat): Option<Flat> {
    if |d| < 5 || d[..4] != MAGIC then None
    else
      var n: nat := d[4];
      if n > 4 * words || |d| < 5 + 3 * n then None else Some(Decoded(d[5..], n, words))
  }

  lemma {:induction false} RowsHold(flat: Flat, n: nat, f: Flag, r: nat)
    requires r < n
    ensures RowByte(Rows(flat, n), f, r) == ByteAt(flat, f, r)
    decreases n
  {
    if r < n - 1 {
      RowsHold(flat, n - 1, f, r);
    }
  }

  lemma BytesAre(w: nat)
    ensures ByteOf(w, 0) == w % 256 && ByteOf(w, 1) == w / 256 % 256
    ensures ByteOf(w, 2) == w / 256 / 256 % 256 && ByteOf(w, 3) == w / 256 / 256 / 256 % 256
  {
    var v := w / 256;
    assert ByteOf(v, 1) == v / 256 % 256;
    assert ByteOf(v / 256, 1) == v / 256 / 256 % 256;
    assert ByteOf(v, 2) == ByteOf(v / 256, 1);
  }

  lemma CombineBytes(w: Word)
    ensures Combine(ByteOf(w, 0), ByteOf(w, 1), ByteOf(w, 2), ByteOf(w, 3)) == w
  {
    BytesAre(w);
    hide ByteOf;
  }

  lemma WordReads(flat: Flat, n: nat, f: Flag, j: nat)
    requires Enough(flat, n) && j < |flat|
    ensures WordAt(Rows(flat, n), n, f, j) == flat[j].Get(f)
  {
    CombineBytes(flat[j].Get(f));
    hide ByteOf, Rows, Combine;
    forall b | 0 <= b < 4
      ensures RowByteOrZero(Rows(flat, n), n, f, 4 * j + b) == ByteOf(flat[j].Get(f), b)
    {
      var r := 4 * j + b;
      assert r / 4 == j && r % 4 == b;
      if r < n {
        RowsHold(flat, n, f, r);
      } else {
        assert ByteAt(flat, f, r) == 0;
      }
    }
  }

  lemma {:induction false} RowsDecode(flat: Flat, n: nat)
    requires Enough(flat, n)
    ensures Decoded(Rows(flat, n), n, |flat|) == flat
  {
    hide Rows, WordAt, Enough;
    forall j | 0 <= j < |flat|
      ensures Decoded(Rows(flat, n), n, |flat|)[j] == flat[j]
    {
      WordReads(flat, n, Effective, j);
      WordReads(flat, n, Permitted, j);
      WordReads(flat, n, Inheritable, j);
    }
  }

  /** Importing what was exported gives the set back, exactly when the length asked for is one
      that an import accepts. */
  lemma ExternalRoundTrip(flat: Flat, min: nat)
    requires Length(flat, min) < 256
    ensures Imported(External(flat, min), |flat|) == if min <= 4 * |flat| then Some(flat) else None
  {
    var n := Length(flat, min);
    UsedIsLeast(flat, n);
    RowsDecode(flat, n);
    hide Used, Decoded, Enough, Rows;
    var d := External(flat, min);
    assert d[..4] == MAGIC && d[4] == n && d[5..] == Rows(flat, n);
  }

  // ---------- the bytes themselves ----------

  /** The four bytes of a word, lowest first. */
  function LittleEndian(w: nat): (b: seq<nat>)
    ensures |b| == 4
  {
    [w % 0x100, w / 0x100 % 0x100, w / 0x1_0000 % 0x100, w / 0x100_0000 % 0x100]
  }

  lemma BytesInOrder(w: nat, k: nat)
    requires k < 4
    ensures ByteOf(w, k) == LittleEndian(w)[k]
  {
    BytesAre(w);
    assert w / 256 / 256 == w / 0x1_0000 && w / 256 / 256 / 256 == w / 0x100_0000;
  }

  lemma RowBytes(flat: Flat, r: nat)
    requires r / 4 < |flat|
    ensures ByteAt(flat, Effective, r) == LittleEndian(flat[r / 4].eff)[r % 4]
    ensures ByteAt(flat, Permitted, r) == LittleEndian(flat[r / 4].per)[r % 4]
    ensures ByteAt(flat, Inheritable, r) == LittleEndian(flat[r / 4].inh)[r % 4]
  {
    hide LittleEndian, ByteOf;
    BytesInOrder(flat[r / 4].eff, r % 4);
    BytesInOrder(flat[r / 4].per, r % 4);
    BytesInOrder(flat[r / 4].inh, r % 4);
  }

  /** One row of an export: a byte of the effective, of the permitted and of the inheritable
      flags of eight values. */
  predicate RowIs(d: seq<Byte>, flat: Flat, r: nat)
    requires 8 + 3 * r <= |d|
  {
    if r / 4 < |flat| then
      && d[5 + 3 * r] == LittleEndian(flat[r / 4].eff)[r % 4]
      && d[6 + 3 * r] == LittleEndian(flat[r / 4].per)[r % 4]
      && d[7 + 3 * r] == LittleEndian(flat[r / 4].inh)[r % 4]
    else d[5 + 3 * r] == d[6 + 3 * r] == d[7 + 3 * r] == 0
  }

  /** What an export looks like: four fixed bytes, the number of rows, and the rows, lowest
      values first. */
  lemma ExportedBytes(flat: Flat, min: nat)
    requires Length(flat, min) < 256
    ensures var d, n := External(flat, min), Length(flat, min);
      && |d| == 5 + 3 * n && d[..5] == [0x90, 0xc2, 0x01, 0x51, n]
      && forall r :: 0 <= r < n ==> RowIs(d, flat, r)
  {
    hide Length, LittleEndian, Rows, ByteAt;
    forall r | 0 <= r < Length(flat, min)
      ensures RowIs(External(flat, min), flat, r)
    {
      RowsHold(flat, Length(flat, min), Effective, r);
      RowsHold(flat, Length(flat, min), Permitted, r);
      RowsHold(flat, Length(flat, min), Inheritable, r);
      if r / 4 < |flat| {
        RowBytes(flat, r);
      } else {
        NothingThere(flat, r);
      }
    }
  }

  lemma NothingThere(flat: Flat, r: nat)
    requires r / 4 >= |flat|
    ensures forall f :: ByteAt(flat, f, r) == 0
  {
  }

  /** What follows the rows is ignored, and no row may be missing. */
  lemma RowsDecide(d: seq<Byte>, more: seq<Byte>, words: nat)
    requires Imported(d, words).Some?
    ensures Imported(d + more, words) == Imported(d, words)
    ensures var n: nat := d[4]; |d| >= 5 + 3 * n && forall k :: 0 <= k < 5 + 3 * n ==> Imported(d[..k], words) == None
  {
    var n: nat := d[4];
    var e := d + more;
    assert e[..4] == d[..4] && e[4] == d[4];
    forall f, j: nat
      ensures WordAt(e[5..], n, f, j) == WordAt(d[5..], n, f, j)
    {
      assert forall r :: 0 <= r < n ==> RowByte(e[5..], f, r) == RowByte(d[5..], f, r);
    }
    hide WordAt;
    assert Decoded(e[5..], n, words) == Decoded(d[5..], n, words);
    forall k | 0 <= k < 5 + 3 * n
      ensures Imported(d[..k], words) == None
    {
      assert k > 4 ==> d[..k][4] == d[4];
    }
  }
}
