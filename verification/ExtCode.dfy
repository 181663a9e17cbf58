/** Exporting and importing as the two libraries do it: Go one row of three flags at a time, C
    one flag at a time. */
module ExtCode {
  import opened Bits
  import opened Words
  import opened CapSet
  import opened Strings
  import opened ExtFormat

  // ---------- Go ----------

  /** How many bytes each flag needs, word by word. */
  method CountBytes(flat: Flat) returns (n: nat)
    ensures n == Used(flat)
  {
    n := 0;
    assert flat[..0] == [];
    for i := 0 to |flat|
      invariant n == Used(flat[..i]) && n <= 4 * i
    {
      hide AnyFlag;
      assert flat[..i + 1][..i] == flat[..i] && flat[..i + 1][i] == flat[i];
      AnyFlagLen(flat[i]);
      var nn := 4 * i;
      if nn + 4 > n {
        var u: nat := AnyFlag(flat[i]);
        if u != 0 {
          n := nn;
          ghost var len := ByteLen(u);
          while u != 0
            invariant n + ByteLen(u) == nn + len
          {
            u := u / 256;
            n := n + 1;
          }
        }
      }
    }
    assert flat[..|flat|] == flat;
  }

  /** The external form of a set. */
  method Export(c: Set, min: nat) returns (r: Option<seq<Byte>>)
    requires 4 * |c.flat| < 256
    ensures min <= 255 ==> Length(c.flat, min) < 256
    ensures r == if min > 255 then None else Some(External(c.flat, min))
  {
    if min > 255 {
      return None;
    }
    var flat := c.flat;
    UsedIsLeast(flat, 0);
    var n := CountBytes(flat);
    if n < min {
      n := min;
    }
    var len: Byte := n;
    var head := MAGIC + [len];
    var b := WriteWords(flat, n, head);
    r := Some(b);
  }

  /** The words row by row, and rows of zeros after them. */
  method WriteWords(flat: Flat, len: nat, head: seq<Byte>) returns (b: seq<Byte>)
    ensures b == head + Rows(flat, len)
  {
    var n: nat := len;
    b := head;
    var j := 0;
    assert Rows(flat, 0) == [];
    while j < |flat| && n > 0
      invariant j <= |flat| && 0 <= n <= len && b == head + Rows(flat, len - n)
      invariant n > 0 ==> len - n == 4 * j
    {
      b, n := WriteWord(flat, j, n, len, head, b);
      j := j + 1;
    }
    while n > 0
      invariant 0 <= n <= len && b == head + Rows(flat, len - n)
      invariant n > 0 ==> len - n >= 4 * |flat|
    {
      assert RowAt(flat, len - n) == [0, 0, 0];
      RowsNext(head, flat, len - n, [0, 0, 0]);
      hide *;
      n := n - 1;
      b := b + [0, 0, 0];
    }
  }

  lemma RowsNext(head: seq<Byte>, flat: Flat, r: nat, row: seq<Byte>)
    requires row == RowAt(flat, r)
    ensures head + Rows(flat, r) + row == head + Rows(flat, r + 1)
  {
    hide RowAt;
    assert head + Rows(flat, r) + row == head + (Rows(flat, r) + row);
  }

  /** Up to four rows, the low byte of each flag and then the flags shifted by a byte. */
  method WriteWord(flat: Flat, j: nat, n0: nat, len: nat, head: seq<Byte>, b0: seq<Byte>) returns (b: seq<Byte>, n: nat)
    requires j < |flat| && 0 < n0 <= len && len - n0 == 4 * j && b0 == head + Rows(flat, len - n0)
    ensures n <= n0 && b == head + Rows(flat, len - n) && (n > 0 ==> len - n == 4 * (j + 1))
  {
    b, n := b0, n0;
    NoShift(flat[j]);
    hide *;
    var eff: nat, per: nat, inh: nat := flat[j].eff, flat[j].per, flat[j].inh;
    var i := 0;
    while n > 0 && i < 4
      invariant 0 <= i <= 4 && len - n == 4 * j + i && n <= n0
      invariant b == head + Rows(flat, len - n)
      invariant Rest(flat[j], i, eff, per, inh)
    {
      RestNext(flat, j, i, eff, per, inh);
      var row: seq<Byte> := [eff % 256, per % 256, inh % 256];
      RowsNext(head, flat, len - n, row);
      n := n - 1;
      b := b + row;
      eff, per, inh := eff / 256, per / 256, inh / 256;
      i := i + 1;
    }
  }

  /** What is left of a word after i bytes are shifted out. */
  ghost predicate Shifted(w: nat, i: nat, rest: nat) {
    forall k: nat :: ByteOf(rest, k) == ByteOf(w, i + k)
  }

  lemma ShiftedNext(w: nat, i: nat, rest: nat)
    requires Shifted(w, i, rest)
    ensures Shifted(w, i + 1, rest / 256) && rest % 256 == ByteOf(w, i)
  {
    assert ByteOf(rest, 0) == ByteOf(w, i + 0);
    forall k: nat
      ensures ByteOf(rest / 256, k) == ByteOf(w, i + 1 + k)
    {
      assert ByteOf(rest, k + 1) == ByteOf(w, i + (k + 1));
    }
  }

  ghost predicate Rest(d: Data, i: nat, eff: nat, per: nat, inh: nat) {
    Shifted(d.eff, i, eff) && Shifted(d.per, i, per) && Shifted(d.inh, i, inh)
  }

  lemma NoShift(d: Data)
    ensures Rest(d, 0, d.eff, d.per, d.inh)
  {
  }

  lemma RestNext(flat: Flat, j: nat, i: nat, eff: nat, per: nat, inh: nat)
    requires j < |flat| && i < 4 && Rest(flat[j], i, eff, per, inh)
    ensures RowAt(flat, 4 * j + i) == [eff % 256, per % 256, inh % 256]
    ensures Rest(flat[j], i + 1, eff / 256, per / 256, inh / 256)
  {
    ShiftedNext(flat[j].eff, i, eff);
    ShiftedNext(flat[j].per, i, per);
    ShiftedNext(flat[j].inh, i, inh);
    hide Shifted;
    assert (4 * j + i) / 4 == j && (4 * j + i) % 4 == i;
  }

  /** A new set from exported bytes. */
  method Import(d: seq<Byte>, words: nat) returns (c: Set, ok: bool)
    ensures fresh(c) && (ok <==> Imported(d, words).Some?)
    ensures ok ==> Imported(d, words) == Some(c.flat)
  {
    c := new Set(words);
    if |d| < 4 || d[..4] != MAGIC {
      return c, false;
    }
    if |d| < 5 {
      return c, false;
    }
    var n: nat := d[4];
    if n > 4 * words {
      return c, false;
    }
    ghost var len, rows := n, d[5..];
    NothingDecoded(rows, c.flat, words);
    var pos := 5;
    for i := 0 to words
      invariant 0 <= n <= len && pos == 5 + 3 * (len - n) && pos <= |d| && |c.flat| == words && fresh(c)
      invariant c.flat == Decoded(rows, len - n, words)
      invariant n > 0 ==> len - n == 4 * i
    {
      hide Decoded;
      n, pos, ok := ReadWord(c, d, i, n, len, pos, words);
      if !ok {
        return;
      }
    }
    ok := true;
  }

  /** Up to four rows of one word. */
  method ReadWord(c: Set, d: seq<Byte>, i: nat, n0: nat, ghost len: nat, pos0: nat, ghost words: nat)
    returns (n: nat, pos: nat, ok: bool)
    requires i < words == |c.flat| && n0 <= len && pos0 == 5 + 3 * (len - n0) <= |d|
    requires c.flat == Decoded(d[5..], len - n0, words) && (n0 > 0 ==> len - n0 == 4 * i)
    modifies c`flat
    ensures |c.flat| == words
    ensures !ok ==> |d| < 5 + 3 * len
    ensures ok ==> n <= n0 && pos == 5 + 3 * (len - n) <= |d| && c.flat == Decoded(d[5..], len - n, words)
    ensures ok && n > 0 ==> len - n == 4 * (i + 1)
  {
    n, pos := n0, pos0;
    var j := 0;
    while n > 0 && j < 4
      invariant 0 <= j <= 4 && |c.flat| == words && 0 <= n <= n0 && pos == 5 + 3 * (len - n) <= |d|
      invariant c.flat == Decoded(d[5..], len - n, words)
      invariant n > 0 || j > 0 ==> len - n == 4 * i + j
    {
      hide *;
      if |d| < pos + 3 {
        return n, pos, false;
      }
      ReadRow(c, d, i, j, pos, len - n, words);
      n := n - 1;
      pos := pos + 3;
      j := j + 1;
    }
    ok := true;
  }

  /** One byte of each flag. */
  method ReadRow(c: Set, d: seq<Byte>, i: nat, j: nat, pos: nat, ghost r: nat, ghost words: nat)
    requires i < words == |c.flat| && j < 4 && r == 4 * i + j && pos == 5 + 3 * r && pos + 3 <= |d|
    requires c.flat == Decoded(d[5..], r, words)
    modifies c`flat
    ensures |c.flat| == words && c.flat == Decoded(d[5..], r + 1, words)
  {
    DecodedNext(d[5..], r, words, i, j);
    hide Decoded, OrByte;
    c.flat := c.flat[i := Data(
      OrByte(c.flat[i].eff, d[pos], j), OrByte(c.flat[i].per, d[pos + 1], j), OrByte(c.flat[i].inh, d[pos + 2], j))];
  }

  /** A byte shifted to place j of a word. */
  function Place(b: Byte, j: nat): Word
    requires j < 4
  {
    if j == 0 then b else if j == 1 then 0x100 * b else if j == 2 then 0x1_0000 * b else 0x100_0000 * b
  }

  /** Or a byte into place j of a word. */
  function OrByte(w: Word, b: Byte, j: nat): Word
    requires j < 4
  {
    OrWord(w, Place(b, j))
  }

  /** The first number that does not fit below place j. */
  function Scale(j: nat): nat
    requires j < 4
  {
    if j == 0 then 1 else if j == 1 then 0x100 else if j == 2 then 0x1_0000 else 0x100_0000
  }

  lemma ScaleIsPow2(b: Byte, j: nat)
    requires j < 4
    ensures Scale(j) == Pow2(8 * j) && Place(b, j) == b * Pow2(8 * j)
  {
    assert Pow2(0) == 1;
    ShiftByte(0);
    ShiftByte(1);
    ShiftByte(2);
    hide Pow2;
    assert Pow2(8) == 0x100 && Pow2(16) == 0x1_0000 && Pow2(24) == 0x100_0000;
  }

  lemma OrByteAdds(w: Word, b: Byte, j: nat)
    requires j < 4 && w < Scale(j)
    ensures OrByte(w, b, j) == w + Place(b, j)
  {
    ScaleIsPow2(b, j);
    OrAdds(w, b, 8 * j);
    hide Pow2, Or;
  }

  lemma NothingDecoded(rows: seq<Byte>, flat: Flat, words: nat)
    requires |flat| == words && ViewOf(flat) == Empty(32 * words)
    ensures flat == Decoded(rows, 0, words)
  {
    var none := Decoded(rows, 0, words);
    assert forall i :: 0 <= i < words ==> none[i] == BLANK;
    BlankView(none);
    FlatExt(flat, none);
    hide ViewOf, Decoded;
  }

  /** One more row changes one word. */
  lemma DecodedNext(rows: seq<Byte>, r: nat, words: nat, i: nat, j: nat)
    requires r == 4 * i + j && i < words && j < 4 && 3 * (r + 1) <= |rows|
    ensures var was := Decoded(rows, r, words);
      Decoded(rows, r + 1, words) == was[i := Data(
        OrByte(was[i].eff, rows[3 * r], j), OrByte(was[i].per, rows[3 * r + 1], j), OrByte(was[i].inh, rows[3 * r + 2], j))]
  {
    hide OrByte, WordAt;
    forall m | 0 <= m < words && m != i
      ensures Decoded(rows, r + 1, words)[m] == Decoded(rows, r, words)[m]
    {
      OtherWord(rows, r, Effective, i, j, m);
      OtherWord(rows, r, Permitted, i, j, m);
      OtherWord(rows, r, Inheritable, i, j, m);
    }
    WordNext(rows, r, Effective, i, j);
    WordNext(rows, r, Permitted, i, j);
    WordNext(rows, r, Inheritable, i, j);
  }

  lemma OtherWord(rows: seq<Byte>, r: nat, f: Flag, i: nat, j: nat, m: nat)
    requires r == 4 * i + j && j < 4 && 3 * (r + 1) <= |rows| && m != i
    ensures WordAt(rows, r + 1, f, m) == WordAt(rows, r, f, m)
  {
  }

  lemma WordNext(rows: seq<Byte>, r: nat, f: Flag, i: nat, j: nat)
    requires r == 4 * i + j && j < 4 && 3 * (r + 1) <= |rows|
    ensures WordAt(rows, r + 1, f, i) == OrByte(WordAt(rows, r, f, i), RowByte(rows, f, r), j)
  {
    hide OrByte, RowByte;
    var w := WordAt(rows, r, f, i);
    assert w < Scale(j) && WordAt(rows, r + 1, f, i) == w + Place(RowByte(rows, f, r), j);
    OrByteAdds(w, RowByte(rows, f, r), j);
  }

  // ---------- C ----------

  const MIN_C := 8

  /** The size of the external form, from the highest byte in use. */
  method Size(u: Flat) returns (size: nat)
    requires |u| == 2
    ensures size == 5 + 3 * Length(u, MIN_C)
  {
    var used := 0;
    assert u[..0] == [];
    for j := 0 to 2
      invariant used == Used(u[..j])
    {
      hide AnyFlag;
      assert u[..j + 1][..j] == u[..j] && u[..j + 1][j] == u[j];
      var val := AnyFlag(u[j]);
      if val != 0 {
        LenByLimits(val);
        used := 4 * j + (if val > 0xFFFF then if val > 0xFF_FFFF then 4 else 3 else if val > 0xFF then 2 else 1);
      }
    }
    assert u[..2] == u;
    if used < MIN_C {
      used := MIN_C;
    }
    size := 5 + 3 * used;
  }

  /** C always writes the same number of bytes, those of its structure: none of its sets needs
      more than eight rows. */
  lemma CSize(u: Flat)
    requires |u| == 2
    ensures 5 + 3 * Length(u, MIN_C) == 29
  {
    UsedIsLeast(u, 0);
  }

  lemma LenByLimits(val: Word)
    requires val != 0
    ensures ByteLen(val) == if val > 0xFFFF then if val > 0xFF_FFFF then 4 else 3 else if val > 0xFF then 2 else 1
  {
    assert ByteLen(val) == 1 + ByteLen(val / 256);
    assert ByteLen(val / 256) == if val / 256 == 0 then 0 else 1 + ByteLen(val / 256 / 256);
    var w := val / 256 / 256;
    assert ByteLen(w) == if w == 0 then 0 else 1 + ByteLen(w / 256);
    var x := w / 256;
    assert ByteLen(x) == if x == 0 then 0 else 1 + ByteLen(x / 256);
    assert ByteLen(x / 256) == 0;
  }

  /** The flags before one, and its first j bytes, are in place. */
  ghost predicate Placed(d: seq<Byte>, u: Flat, i: nat, j: nat, len: nat)
    requires 5 + 3 * len <= |d|
  {
    forall f, r: nat :: r < len && (FlagIndex(f) < i || (FlagIndex(f) == i && r < j)) ==>
      RowByte(d[5..], f, r) == ByteAt(u, f, r)
  }

  lemma PlacedNext(d: seq<Byte>, u: Flat, f: Flag, j: nat, len: nat)
    requires 5 + 3 * len <= |d| && j < len && Placed(d, u, FlagIndex(f), j, len)
    ensures Placed(d[5 + 3 * j + FlagIndex(f) := ByteAt(u, f, j)], u, FlagIndex(f), j + 1, len)
  {
    hide ByteAt;
    var d' := d[5 + 3 * j + FlagIndex(f) := ByteAt(u, f, j)];
    forall g, r: nat | r < len && (FlagIndex(g) < FlagIndex(f) || (FlagIndex(g) == FlagIndex(f) && r < j + 1))
      ensures RowByte(d'[5..], g, r) == ByteAt(u, g, r)
    {
      if g == f && r == j {
        assert d'[5..][3 * r + FlagIndex(g)] == d'[5 + 3 * j + FlagIndex(f)];
      } else {
        assert 3 * r + FlagIndex(g) != 3 * j + FlagIndex(f);
        assert d'[5..][3 * r + FlagIndex(g)] == d[5..][3 * r + FlagIndex(g)];
        assert RowByte(d[5..], g, r) == ByteAt(u, g, r);
      }
    }
  }

  lemma {:induction false} AllPlaced(d: seq<Byte>, u: Flat, n: nat, len: nat)
    requires 5 + 3 * len <= |d| && n <= len && Placed(d, u, 3, 0, len)
    ensures d[5..5 + 3 * n] == Rows(u, n)
    decreases n
  {
    hide ByteAt;
    if n > 0 {
      AllPlaced(d, u, n - 1, len);
      var r := n - 1;
      assert RowByte(d[5..], Effective, r) == ByteAt(u, Effective, r);
      assert RowByte(d[5..], Permitted, r) == ByteAt(u, Permitted, r);
      assert RowByte(d[5..], Inheritable, r) == ByteAt(u, Inheritable, r);
      assert d[5..5 + 3 * n] == d[5..5 + 3 * r] + [d[5 + 3 * r], d[5 + 3 * r + 1], d[5 + 3 * r + 2]];
    }
  }

  /** Store one byte of a flag. */
  method Store(ext: array<Byte>, ghost u: Flat, f: Flag, j: nat, val: nat, ghost len: nat, ghost was: seq<Byte>)
    requires was == ext[..] && 5 + 3 * len <= ext.Length && j < len && val % 256 == ByteAt(u, f, j)
    requires Placed(was, u, FlagIndex(f), j, len)
    modifies ext
    ensures Placed(ext[..], u, FlagIndex(f), j + 1, len) && ext[..5] == was[..5]
  {
    PlacedNext(was, u, f, j, len);
    hide *;
    FlagIndexBelow(f);
    ext[5 + 3 * j + FlagIndex(f)] := val % 256;
    assert ext[..] == was[5 + 3 * j + FlagIndex(f) := val % 256];
  }

  lemma FlagIndexBelow(f: Flag)
    ensures FlagIndex(f) < 3
  {
  }

  /** The bytes of one flag, four at a time. */
  method StoreFlag(ext: array<Byte>, u: Flat, f: Flag, len: nat)
    requires len <= 4 * |u| && 5 + 3 * len <= ext.Length && Placed(ext[..], u, FlagIndex(f), 0, len)
    modifies ext
    ensures Placed(ext[..], u, FlagIndex(f), len, len) && ext[..5] == old(ext[..5])
  {
    var j := 0;
    hide Placed;
    while j < len
      invariant 0 <= j <= len && (j < len ==> j % 4 == 0)
      invariant Placed(ext[..], u, FlagIndex(f), j, len) && ext[..5] == old(ext[..5])
    {
      j := StoreWord(ext, u, f, j, len);
    }
  }

  method StoreWord(ext: array<Byte>, u: Flat, f: Flag, j0: nat, len: nat) returns (j: nat)
    requires j0 < len <= 4 * |u| && j0 % 4 == 0 && 5 + 3 * len <= ext.Length
    requires Placed(ext[..], u, FlagIndex(f), j0, len)
    modifies ext
    ensures j0 < j <= len && (j < len ==> j % 4 == 0)
    ensures Placed(ext[..], u, FlagIndex(f), j, len) && ext[..5] == old(ext[..5])
  {
    var val: nat := u[j0 / 4].Get(f);
    FourBytes(u, f, j0);
    hide *;
    j := j0;
    Store(ext, u, f, j, val, len, ext[..]);
    j := j + 1;
    if j < len {
      val := val / 256;
      Store(ext, u, f, j, val, len, ext[..]);
      j := j + 1;
    }
    if j < len {
      val := val / 256;
      Store(ext, u, f, j, val, len, ext[..]);
      j := j + 1;
    }
    if j < len {
      Store(ext, u, f, j, val / 256, len, ext[..]);
      j := j + 1;
    }
  }

  lemma FourBytes(u: Flat, f: Flag, j: nat)
    requires j % 4 == 0 && j < 4 * |u|
    ensures var val := u[j / 4].Get(f);
      && val % 256 == ByteAt(u, f, j)
      && val / 256 % 256 == ByteAt(u, f, j + 1)
      && val / 256 / 256 % 256 == ByteAt(u, f, j + 2)
      && val / 256 / 256 / 256 % 256 == ByteAt(u, f, j + 3)
  {
    var val := u[j / 4].Get(f);
    BytesAre(val);
    hide ByteOf;
    assert (j + 1) / 4 == j / 4 && (j + 1) % 4 == 1;
    assert (j + 2) / 4 == j / 4 && (j + 2) % 4 == 2;
    assert (j + 3) / 4 == j / 4 && (j + 3) % 4 == 3;
  }

  lemma NextFlag(d: seq<Byte>, u: Flat, i: nat, len: nat)
    requires 5 + 3 * len <= |d| && Placed(d, u, i, len, len)
    ensures Placed(d, u, i + 1, 0, len)
  {
  }

  /** Write the external form into a buffer, one flag after the other. */
  method CopyExt(ext: array<Byte>, u: Flat, length: nat) returns (r: Option<nat>)
    requires |u| == 2 && length <= ext.Length
    modifies ext
    ensures var size := 5 + 3 * Length(u, MIN_C);
      r == if size > length then None else Some(size)
    ensures r.Some? ==> Length(u, MIN_C) < 256 && r.value <= ext.Length && ext[..r.value] == External(u, MIN_C)
    ensures r.None? ==> ext[..] == old(ext[..])
  {
    var csz := Size(u);
    if csz > length {
      return None;
    }
    var len := (csz - 5) / 3;
    UsedIsLeast(u, 0);
    assert len == Length(u, MIN_C) <= 8;
    hide *;
    var head: Byte := len;
    ext[0], ext[1], ext[2], ext[3], ext[4] := 0x90, 0xc2, 0x01, 0x51, head;
    ghost var five := ext[..5];
    assert five == [0x90, 0xc2, 0x01, 0x51, head];
    NonePlaced(ext[..], u, len);
    for i := 0 to 3
      invariant Placed(ext[..], u, i, 0, len) && ext[..5] == five
    {
      var f := FlagNumbered(i);
      StoreFlag(ext, u, f, len);
      NextFlag(ext[..], u, i, len);
    }
    AllPlaced(ext[..], u, len, len);
    ExternalIs(ext[..], u, len);
    return Some(csz);
  }

  function FlagNumbered(i: nat): (f: Flag)
    requires i < 3
    ensures FlagIndex(f) == i
  {
    if i == 0 then Effective else if i == 1 then Permitted else Inheritable
  }

  lemma NonePlaced(d: seq<Byte>, u: Flat, len: nat)
    requires 5 + 3 * len <= |d|
    ensures Placed(d, u, 0, 0, len)
  {
  }

  lemma ExternalIs(d: seq<Byte>, u: Flat, len: nat)
    requires 5 + 3 * len <= |d| && len == Length(u, MIN_C) < 256
    requires d[..5] == [0x90, 0xc2, 0x01, 0x51, len] && d[5..5 + 3 * len] == Rows(u, len)
    ensures d[..5 + 3 * len] == External(u, MIN_C)
  {
    hide Length, Rows;
    assert d[..5 + 3 * len] == d[..5] + d[5..5 + 3 * len];
  }

  /** The set that some bytes hold; rows beyond the words are ignored. */
  function CImported(d: seq<Byte>): Option<Flat> {
    if |d| < 5 then None
    else
      var n: nat := d[4];
      if |d| < 5 + 3 * n || d[..4] != MAGIC then None else Some(Decoded(d[5..], n, 2))
  }

  /** Up to four bytes of one flag from row bno on, none from row blen on. */
  method WordOfRows(d: seq<Byte>, f: Flag, blk: nat, bno0: nat, blen: nat) returns (val: Word, bno: nat)
    requires 5 + 3 * blen <= |d| && bno0 == (if 4 * blk < blen then 4 * blk else blen)
    ensures val == WordAt(d[5..], blen, f, blk)
    ensures bno == if 4 * (blk + 1) < blen then 4 * (blk + 1) else blen
  {
    hide OrWord;
    bno, val := bno0, 0;
    if bno != blen {
      val := RowByte(d[5..], f, bno);
      bno := bno + 1;
    }
    if bno != blen {
      OrByteAdds(val, RowByte(d[5..], f, bno), 1);
      val := OrWord(val, Place(RowByte(d[5..], f, bno), 1));
      bno := bno + 1;
    }
    if bno != blen {
      OrByteAdds(val, RowByte(d[5..], f, bno), 2);
      val := OrWord(val, Place(RowByte(d[5..], f, bno), 2));
      bno := bno + 1;
    }
    if bno != blen {
      OrByteAdds(val, RowByte(d[5..], f, bno), 3);
      val := OrWord(val, Place(RowByte(d[5..], f, bno), 3));
      bno := bno + 1;
    }
  }

  /** One flag of both words from the rows; the others stay. */
  method FlagOfRows(d: seq<Byte>, f: Flag, was: Flat, blen: nat) returns (u: Flat)
    requires 5 + 3 * blen <= |d| && |was| == 2
    ensures |u| == 2
    ensures forall g, j :: 0 <= j < 2 ==> u[j].Get(g) == if g == f then WordAt(d[5..], blen, f, j) else was[j].Get(g)
  {
    u := was;
    var bno := 0;
    for blk := 0 to 2
      invariant |u| == 2 && bno == (if 4 * blk < blen then 4 * blk else blen)
      invariant forall g, j :: 0 <= j < 2 && (g != f || j >= blk) ==> u[j].Get(g) == was[j].Get(g)
      invariant forall j :: 0 <= j < blk ==> u[j].Get(f) == WordAt(d[5..], blen, f, j)
    {
      hide WordAt;
      var val: Word;
      val, bno := WordOfRows(d, f, blk, bno, blen);
      u := u[blk := u[blk].Put(f, val)];
    }
  }

  /** A new set from bytes whose stated length is right. */
  method CopyInt(d: seq<Byte>) returns (r: Option<Flat>)
    requires 5 <= |d| && var n: nat := d[4]; 5 + 3 * n <= |d|
    ensures r == CImported(d)
  {
    if d[..4] != MAGIC {
      return None;
    }
    var blen: nat := d[4];
    var u: Flat := [BLANK, BLANK];
    for number := 0 to 3
      invariant |u| == 2
      invariant forall f, j :: 0 <= j < 2 && FlagIndex(f) < number ==> u[j].Get(f) == WordAt(d[5..], blen, f, j)
    {
      hide WordAt;
      u := FlagOfRows(d, FlagNumbered(number), u, blen);
    }
    hide WordAt;
    assert u == Decoded(d[5..], blen, 2);
    return Some(u);
  }

  /** The same for bytes of any length. */
  method CopyIntCheck(d: seq<Byte>) returns (r: Option<Flat>)
    ensures r == CImported(d)
  {
    if |d| < 5 {
      return None;
    }
    var n: nat := d[4];
    if |d| < 5 + 3 * n {
      return None;
    }
    r := CopyInt(d);
  }

  // ---------- both ----------

  /** C reads back every export, whatever the length asked for; Go reads what C wrote; and with
      C's own minimum and two words both write the same bytes. */
  lemma BothRead(flat: Flat, min: nat)
    requires |flat| == 2 && Length(flat, min) < 256
    ensures CImported(External(flat, min)) == Some(flat)
    ensures Length(flat, MIN_C) < 256 && Imported(External(flat, MIN_C), 2) == Some(flat)
  {
    var n := Length(flat, min);
    UsedIsLeast(flat, n);
    RowsDecode(flat, n);
    ExternalRoundTrip(flat, MIN_C);
    hide Used, Decoded, Enough, Rows;
    var d := External(flat, min);
    assert d[..4] == MAGIC && d[4] == n && d[5..] == Rows(flat, n);
  }

  /** What Go accepts C reads as the same set. */
  lemma GoAcceptsLess(d: seq<Byte>)
    ensures Imported(d, 2).Some? ==> CImported(d) == Imported(d, 2)
  {
  }
}
