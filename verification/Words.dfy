/** Capability vectors: 32-bit words, lowest capability values first. */
module Words {
  import opened Bits

  type Word = w: nat | w < 0x1_0000_0000

  const ALL: Word := 0xFFFF_FFFF

  lemma WordBits()
    ensures Pow2(8) == 0x100 && Pow2(32) == 0x1_0000_0000
  {
    assert Pow2(4) == 0x10 && Pow2(8) == 0x100;
    assert Pow2(12) == 0x1000 && Pow2(16) == 0x1_0000;
    assert Pow2(20) == 0x10_0000 && Pow2(24) == 0x100_0000;
    assert Pow2(28) == 0x1000_0000 && Pow2(32) == 0x1_0000_0000;
  }

  /** The mask of one bit of a word. */
  function BitMask(k: nat): Word
    requires k < 32
  {
    WordBits();
    Pow2Below(k, 32);
    Pow2(k)
  }

  /** The mask of the n lowest bits. */
  function LowMask(n: nat): Word
    requires n < 32
  {
    BitMask(n) - 1
  }

  function OrWord(a: Word, b: Word): Word {
    WordBits();
    OrBelow(a, b, 32);
    Or(a, b)
  }

  function AndWord(a: Word, b: Word): Word {
    AndSmaller(a, b);
    And(a, b)
  }

  function NotWord(a: Word): Word {
    ALL - a
  }

  lemma {:induction false} Pow2Below(k: nat, n: nat)
    requires k < n
    ensures Pow2(k) < Pow2(n)
    decreases n
  {
    if k < n - 1 {
      Pow2Below(k, n - 1);
    }
  }

  lemma BitNot(a: Word, k: nat)
    requires k < 32
    ensures Bit(NotWord(a), k) <==> !Bit(a, k)
  {
    WordBits();
    BitOfComplement(a, 32, k);
  }

  /** A word is its bits. */
  lemma WordExt(a: Word, b: Word)
    requires forall k :: 0 <= k < 32 ==> (Bit(a, k) <==> Bit(b, k))
    ensures a == b
  {
    WordBits();
    BitsExt(a, b, 32);
  }

  // ---------- vectors of words ----------

  type Vector = seq<Word>

  /** Whether a capability value is raised in a vector. */
  predicate Has(ws: Vector, v: nat) {
    v < 32 * |ws| && Bit(ws[v / 32], v % 32)
  }

  function Raise(ws: Vector, v: nat): Vector
    requires v < 32 * |ws|
  {
    ws[v / 32 := OrWord(ws[v / 32], BitMask(v % 32))]
  }

  function Lower(ws: Vector, v: nat): Vector
    requires v < 32 * |ws|
  {
    ws[v / 32 := AndWord(ws[v / 32], NotWord(BitMask(v % 32)))]
  }

  lemma HasRaise(ws: Vector, v: nat, u: nat)
    requires v < 32 * |ws|
    ensures Has(Raise(ws, v), u) <==> Has(ws, u) || u == v
  {
    hide Bit, Or, Pow2;
    if u / 32 == v / 32 {
      BitOr(ws[v / 32], BitMask(v % 32), u % 32);
      BitOfPow2(v % 32, u % 32);
    }
  }

  lemma HasLower(ws: Vector, v: nat, u: nat)
    requires v < 32 * |ws|
    ensures Has(Lower(ws, v), u) <==> Has(ws, u) && u != v
  {
    hide Bit, And, Pow2, NotWord;
    if u / 32 == v / 32 {
      BitAnd(ws[v / 32], NotWord(BitMask(v % 32)), u % 32);
      BitNot(BitMask(v % 32), u % 32);
      BitOfPow2(v % 32, u % 32);
    }
  }

  // ---------- vectors as sets of values ----------

  function Below(n: nat): (vs: set<nat>)
    ensures forall v: nat :: v in vs <==> v < n
  {
    if n == 0 then {} else Below(n - 1) + {n - 1}
  }

  /** The values of a vector. */
  function Listing(list: Vector): set<nat> {
    set v: nat | v < 32 * |list| && Has(list, v)
  }

  lemma HasInRange(list: Vector)
    ensures forall v: nat :: Has(list, v) ==> v < 32 * |list|
  {
  }

  lemma NothingListed(blks: nat)
    ensures Listing(seq(blks, _ => 0)) == {}
  {
    hide Bit;
    var list: Vector := seq(blks, _ => 0);
    forall v: nat | v < 32 * blks
      ensures !Has(list, v)
    {
      BitOfZero(v % 32);
    }
  }

  lemma ListingRaise(list: Vector, v: nat)
    requires v < 32 * |list|
    ensures Listing(Raise(list, v)) == Listing(list) + {v}
  {
    hide Has, Raise;
    forall u: nat
      ensures Has(Raise(list, v), u) <==> Has(list, u) || u == v
    {
      HasRaise(list, v, u);
    }
    RaiseLength(list, v);
    HasInRange(list);
  }

  lemma RaiseLength(list: Vector, v: nat)
    requires v < 32 * |list|
    ensures |Raise(list, v)| == |list|
  {
  }

  lemma ListingLower(list: Vector, v: nat)
    requires v < 32 * |list|
    ensures Listing(Lower(list, v)) == Listing(list) - {v} && |Lower(list, v)| == |list|
  {
    assert |Lower(list, v)| == |list|;
    hide Has, Lower;
    forall u: nat
      ensures Has(Lower(list, v), u) <==> Has(list, u) && u != v
    {
      HasLower(list, v, u);
    }
    HasInRange(list);
  }

  /** Word-by-word operations are operations on the sets. */
  lemma ListingAnd(x: Vector, y: Vector, z: Vector)
    requires |x| == |y| == |z| && forall j :: 0 <= j < |z| ==> z[j] == AndWord(x[j], y[j])
    ensures Listing(z) == Listing(x) * Listing(y)
  {
    hide Bit, And;
    forall v: nat
      ensures Has(z, v) <==> Has(x, v) && Has(y, v)
    {
      if v < 32 * |z| {
        BitAnd(x[v / 32], y[v / 32], v % 32);
      }
    }
    HasInRange(x);
  }

  lemma ListingOr(x: Vector, y: Vector, z: Vector)
    requires |x| == |y| == |z| && forall j :: 0 <= j < |z| ==> z[j] == OrWord(x[j], y[j])
    ensures Listing(z) == Listing(x) + Listing(y)
  {
    hide Bit, Or;
    forall v: nat
      ensures Has(z, v) <==> Has(x, v) || Has(y, v)
    {
      if v < 32 * |z| {
        BitOr(x[v / 32], y[v / 32], v % 32);
      }
    }
    HasInRange(x);
  }

  lemma ListingNot(x: Vector, z: Vector)
    requires |x| == |z| && forall j :: 0 <= j < |z| ==> z[j] == NotWord(x[j])
    ensures Listing(z) == Below(32 * |x|) - Listing(x)
  {
    hide Bit, NotWord;
    forall v: nat | v < 32 * |z|
      ensures Has(z, v) <==> !Has(x, v)
    {
      BitNot(x[v / 32], v % 32);
    }
  }

  /** A set is empty when all its words are zero. */
  lemma NonZero(x: Vector)
    ensures Listing(x) != {} <==> exists m :: 0 <= m < |x| && x[m] != 0
  {
    hide Bit;
    forall m | 0 <= m < |x| && x[m] != 0
      ensures Listing(x) != {}
    {
      var b := SomeBit(x[m]);
      assert Has(x, 32 * m + b);
      assert 32 * m + b in Listing(x);
    }
    forall v: nat | Has(x, v)
      ensures x[v / 32] != 0
    {
      BitOfZero(v % 32);
    }
    if Listing(x) != {} {
      var v: nat :| v in Listing(x);
      assert Has(x, v);
      assert x[v / 32] != 0;
    }
  }

  lemma SomeBit(w: Word) returns (b: nat)
    requires w != 0
    ensures b < 32 && Bit(w, b)
  {
    hide Bit;
    if forall k :: 0 <= k < 32 ==> !Bit(w, k) {
      forall k | 0 <= k < 32
        ensures Bit(w, k) <==> Bit(0, k)
      {
        BitOfZero(k);
      }
      WordExt(w, 0);
      assert false;
    }
    b :| b < 32 && Bit(w, b);
  }
}
