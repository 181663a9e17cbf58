/** File capabilities: how a set is packed into an extended attribute and unpacked, in Go as
    bytes and in C as a record of words. */
module VfsFormat {
  import opened Bits
  import opened Words
  import opened CapSet
  import opened Strings
  import opened ExtFormat

  const REVISION := 0x100_0000

  function Le32(w: Word): (b: seq<Byte>)
    ensures |b| == 4
  {
    [ByteOf(w, 0), ByteOf(w, 1), ByteOf(w, 2), ByteOf(w, 3)]
  }

  function Get32(d: seq<Byte>, at: nat): Word
    requires at + 4 <= |d|
  {
    Combine(d[at], d[at + 1], d[at + 2], d[at + 3])
  }

  /** Whether the effective flags can be stored in the one bit that the format has for them. */
  predicate Storable(flat: Flat) {
    (forall j :: 0 <= j < |flat| ==> flat[j].eff == 0)
    || forall j :: 0 <= j < |flat| ==> flat[j].eff == OrWord(flat[j].per, flat[j].inh)
  }

  // ---------- Go ----------

  /** Pack a set. A namespace owner chooses the revision that has one, but its id is handed to
      a writer that takes no plain int and whose refusal is ignored. */
  method Pack(c: Set) returns (r: Option<seq<Byte>>)
    ensures r == if Packable(c.flat, c.nsRoot) then Some(Packed(c.flat, c.nsRoot)) else None
  {
    var flat := c.flat;
    var magic: nat := 0;
    if |flat| == 1 {
      if c.nsRoot != 0 {
        return None;
      }
      magic := REVISION;
    } else if |flat| == 2 {
      magic := if c.nsRoot == 0 then 2 * REVISION else 3 * REVISION;
    }
    if magic == 0 {
      return None;
    }
    var hasEffective, validEffective := false, true;
    for j := 0 to |flat|
      invariant hasEffective <==> exists i :: 0 <= i < j && flat[i].eff != 0
      invariant validEffective <==> forall i :: 0 <= i < j ==> flat[i].eff == OrWord(flat[i].per, flat[i].inh)
    {
      hide OrWord;
      hasEffective := hasEffective || flat[j].eff != 0;
      validEffective := validEffective && flat[j].eff == OrWord(flat[j].per, flat[j].inh);
    }
    if hasEffective {
      if !validEffective {
        return None;
      }
      magic := magic + 1;
    }
    hide OrWord, Le32;
    var b := Le32(magic);
    assert Columns(flat, 0) == [];
    for j := 0 to |flat|
      invariant b == Le32(magic) + Columns(flat, j)
    {
      assert Le32(magic) + Columns(flat, j) + Le32(flat[j].per) + Le32(flat[j].inh) == Le32(magic) + Columns(flat, j + 1);
      b := b + Le32(flat[j].per) + Le32(flat[j].inh);
    }
    r := Some(b);
  }

  /** The permitted and inheritable words of a set, one after the other. */
  function Columns(flat: Flat, n: nat): (b: seq<Byte>)
    requires n <= |flat|
    ensures |b| == 8 * n
  {
    if n == 0 then [] else Columns(flat, n - 1) + Le32(flat[n - 1].per) + Le32(flat[n - 1].inh)
  }

  /** What Go packs: one word without an owner, or two; effective flags all or nothing. */
  predicate Packable(flat: Flat, nsRoot: int) {
    (|flat| == 2 || (|flat| == 1 && nsRoot == 0)) && Storable(flat)
  }

  predicate HasEffective(flat: Flat) {
    exists j :: 0 <= j < |flat| && flat[j].eff != 0
  }

  /** The revision tells the number of words and whether there is an owner; the lowest bit
      tells whether anything is effective. */
  function Packed(flat: Flat, nsRoot: int): seq<Byte>
    requires 1 <= |flat| <= 2
  {
    Le32(PackedMagic(flat, nsRoot)) + Columns(flat, |flat|)
  }

  function PackedMagic(flat: Flat, nsRoot: int): Word
    requires 1 <= |flat| <= 2
  {
    (if nsRoot == 0 then |flat| else 3) * REVISION + if HasEffective(flat) then 1 else 0
  }

  /** One word of each flag; the effective flag is all or nothing. */
  function Unpack(per: Word, inh: Word, effective: bool): Data {
    Data(if effective then OrWord(inh, per) else 0, per, inh)
  }

  /** What becomes of some data: a set and its owner, an error, or an index past the last word. */
  datatype Unpacked = Unpacked(flat: Flat, rootid: Word) | Malformed | NoSuchWord

  /** The set in the first sz bytes of some data: at least as many as the revision needs. A
      package for one word does not test whether the revision has two. */
  function Digested(d: seq<Byte>, sz: nat, words: nat): Unpacked
    requires 1 <= words && sz <= |d|
  {
    if sz < 12 || sz > 24 then Malformed
    else
      var magic := Get32(d, 0);
      var effective := magic % REVISION == 1;
      var blank := seq(words, _ => BLANK);
      var first := blank[0 := Unpack(Get32(d, 4), Get32(d, 8), effective)];
      if magic / REVISION == 1 then Unpacked(first, 0)
      else if magic / REVISION == 2 || magic / REVISION == 3 then
        if sz < (if magic / REVISION == 2 then 20 else 24) then Malformed
        else if words == 1 then NoSuchWord
        else
          Unpacked(first[1 := Unpack(Get32(d, 12), Get32(d, 16), effective)],
                   if magic / REVISION == 2 then 0 else Get32(d, 20))
      else Malformed
  }

  /** Unpack a set from the first sz bytes of a buffer. */
  method Digest(d: seq<Byte>, sz: nat, words: nat) returns (r: Unpacked)
    requires 1 <= words && sz <= |d|
    ensures r == Digested(d, sz, words)
  {
    var c := new Set(words);
    if sz < 12 || sz > 24 {
      return Malformed;
    }
    var magic := Get32(d, 0);
    var effective := magic % REVISION == 1;
    BlankWords(c.flat, words);
    hide Get32, OrWord;
    match magic / REVISION {
      case 1 =>
        c.flat := c.flat[0 := Unpack(Get32(d, 4), Get32(d, 8), effective)];
      case 2 =>
        if sz < 20 {
          return Malformed;
        }
        var inside := TakeWords(c, d, effective);
        if !inside {
          return NoSuchWord;
        }
      case 3 =>
        if sz < 24 {
          return Malformed;
        }
        var inside := TakeWords(c, d, effective);
        if !inside {
          return NoSuchWord;
        }
        c.nsRoot := Get32(d, 20);
      case _ =>
        return Malformed;
    }
    r := Unpacked(c.flat, c.nsRoot);
  }

  /** Two words of permitted and inheritable flags; with room for one only, the second is out
      of bounds. */
  method TakeWords(c: Set, d: seq<Byte>, effective: bool) returns (inside: bool)
    requires 1 <= |c.flat| && 20 <= |d|
    modifies c`flat
    ensures inside <==> 2 <= |old(c.flat)|
    ensures inside ==>
      c.flat == old(c.flat)[0 := Unpack(Get32(d, 4), Get32(d, 8), effective)]
                           [1 := Unpack(Get32(d, 12), Get32(d, 16), effective)]
  {
    ghost var was := c.flat;
    hide Get32, OrWord;
    for i := 0 to 2
      invariant i < 2 || 2 <= |was|
      invariant i == 0 ==> c.flat == was
      invariant i == 1 ==> c.flat == was[0 := Unpack(Get32(d, 4), Get32(d, 8), effective)]
      invariant i == 2 ==> c.flat == was[0 := Unpack(Get32(d, 4), Get32(d, 8), effective)]
                                        [1 := Unpack(Get32(d, 12), Get32(d, 16), effective)]
    {
      if i >= |c.flat| {
        return false;
      }
      c.flat := c.flat[i := Unpack(Get32(d, 4 + 8 * i), Get32(d, 8 + 8 * i), effective)];
    }
    inside := true;
  }

  lemma BlankWords(flat: Flat, words: nat)
    requires |flat| == words && ViewOf(flat) == Empty(32 * words)
    ensures flat == seq(words, _ => BLANK)
  {
    var none: Flat := seq(words, _ => BLANK);
    BlankView(none);
    FlatExt(flat, none);
    hide ViewOf;
  }

  lemma Le32Reads(w: Word, d: seq<Byte>, at: nat)
    requires at + 4 <= |d| && d[at..at + 4] == Le32(w)
    ensures Get32(d, at) == w
  {
    CombineBytes(w);
    hide ByteOf;
    var b := d[at..at + 4];
    assert d[at] == b[0] && d[at + 1] == b[1] && d[at + 2] == b[2] && d[at + 3] == b[3];
  }

  /** Unpacking what was packed gives the set back, a set of one word with an empty second one,
      exactly when the set has no namespace owner: its bytes are too few for the revision. */
  lemma GoFileRoundTrip(flat: Flat, nsRoot: int)
    requires Packable(flat, nsRoot)
    ensures var d := Packed(flat, nsRoot);
      Digested(d, |d|, 2) == if nsRoot == 0 then Unpacked(if |flat| == 1 then flat + [BLANK] else flat, 0) else Malformed
  {
    var d := Packed(flat, nsRoot);
    var effective := HasEffective(flat);
    PackedWords(flat, nsRoot);
    Unpacks(flat);
    hide Packed, Get32, OrWord, HasEffective, Storable;
    var magic := Get32(d, 0);
    assert magic / REVISION == (if nsRoot == 0 then |flat| else 3) && (magic % REVISION == 1 <==> effective);
    var blank: Flat := seq(2, _ => BLANK);
    assert blank == [BLANK, BLANK];
    assert Unpack(flat[0].per, flat[0].inh, effective) == flat[0];
    if |flat| == 1 {
      assert blank[0 := flat[0]] == flat + [BLANK];
    } else {
      assert Unpack(flat[1].per, flat[1].inh, effective) == flat[1];
      assert blank[0 := flat[0]][1 := flat[1]] == flat;
    }
  }

  lemma PackedWords(flat: Flat, nsRoot: int)
    requires 1 <= |flat| <= 2
    ensures var d := Packed(flat, nsRoot);
      && |d| == 4 + 8 * |flat|
      && Get32(d, 0) == PackedMagic(flat, nsRoot)
      && Get32(d, 4) == flat[0].per && Get32(d, 8) == flat[0].inh
      && (|flat| == 2 ==> Get32(d, 12) == flat[1].per && Get32(d, 16) == flat[1].inh)
  {
    var d := Packed(flat, nsRoot);
    var magic := PackedMagic(flat, nsRoot);
    hide Le32, OrWord, HasEffective, Get32, PackedMagic;
    assert Columns(flat, 1) == [] + Le32(flat[0].per) + Le32(flat[0].inh);
    assert d[0..4] == Le32(magic) && d[4..8] == Le32(flat[0].per) && d[8..12] == Le32(flat[0].inh);
    Le32Reads(magic, d, 0);
    Le32Reads(flat[0].per, d, 4);
    Le32Reads(flat[0].inh, d, 8);
    if |flat| == 2 {
      assert Columns(flat, 2) == Columns(flat, 1) + Le32(flat[1].per) + Le32(flat[1].inh);
      assert d[12..16] == Le32(flat[1].per) && d[16..20] == Le32(flat[1].inh);
      Le32Reads(flat[1].per, d, 12);
      Le32Reads(flat[1].inh, d, 16);
    }
  }

  lemma Unpacks(flat: Flat)
    requires Storable(flat)
    ensures forall j :: 0 <= j < |flat| ==> Unpack(flat[j].per, flat[j].inh, HasEffective(flat)) == flat[j]
  {
    forall j | 0 <= j < |flat|
      ensures Unpack(flat[j].per, flat[j].inh, HasEffective(flat)) == flat[j]
    {
      OrCommutes(flat[j].per, flat[j].inh);
    }
  }

  lemma {:induction false} OrCommutes(a: nat, b: nat)
    ensures Or(a, b) == Or(b, a)
    decreases a + b
  {
    if a + b > 0 {
      OrCommutes(a / 2, b / 2);
    }
  }

  // ---------- C ----------

  datatype Version = V1 | V2 | V3 | OtherVersion

  /** The attribute as a record: the rows beyond the revision's are not part of it. */
  datatype Raw = Raw(magic: Word, data: seq<(Word, Word)>, rootid: Word)

  datatype CapT = CapT(u: Flat, rootid: Word)

  const SIZE_1: int := 12
  const SIZE_2: int := 20
  const SIZE_3: int := 24

  predicate AnyEffective(u: Flat, n: nat)
    requires n <= |u|
  {
    exists j :: 0 <= j < n && u[j].eff != 0
  }

  /** Everything permitted or inheritable is effective too. */
  predicate Covers(d: Data) {
    AndWord(NotWord(d.eff), OrWord(d.per, d.inh)) == 0
  }

  function WordsOf(v: Version): nat {
    if v == V1 then 1 else 2
  }

  /** What the C library can save: a known version, a root id only with the latest, nothing
      beyond the version's words, and effective flags all or nothing. */
  predicate Savable(v: Version, c: CapT)
    requires |c.u| == 2
  {
    && v != OtherVersion && (c.rootid != 0 ==> v == V3)
    && (v == V1 ==> c.u[1] == BLANK)
    && (AnyEffective(c.u, WordsOf(v)) ==> forall j :: 0 <= j < WordsOf(v) ==> Covers(c.u[j]))
  }

  function Saved(v: Version, c: CapT): (Raw, int)
    requires |c.u| == 2
  {
    var n := WordsOf(v);
    var magic := if c.rootid != 0 then 3 * REVISION else n * REVISION;
    (Raw(magic + (if AnyEffective(c.u, n) then 1 else 0), seq(n, j requires 0 <= j < n => (c.u[j].per, c.u[j].inh)), c.rootid),
     if c.rootid != 0 then SIZE_3 else if n == 1 then SIZE_1 else SIZE_2)
  }

  method Save(v: Version, c: CapT) returns (r: Option<(Raw, int)>)
    requires |c.u| == 2
    ensures r == if Savable(v, c) then Some(Saved(v, c)) else None
  {
    hide AndWord, NotWord, OrWord;
    var magic: nat, tocopy: nat, bytes: int;
    match v {
      case V1 => magic, tocopy, bytes := REVISION, 1, SIZE_1;
      case V2 => magic, tocopy, bytes := 2 * REVISION, 2, SIZE_2;
      case V3 => magic, tocopy, bytes := 2 * REVISION, 2, SIZE_2;
      case OtherVersion => return None;
    }
    if c.rootid != 0 {
      if v != V3 {
        return None;
      }
      magic, tocopy, bytes := 3 * REVISION, 2, SIZE_3;
    }
    var effNotZero := EffectiveIn(c.u, tocopy);
    var i := tocopy;
    while i < 2
      invariant tocopy <= i <= 2 && forall j :: tocopy <= j < i ==> c.u[j] == BLANK
    {
      if c.u[i].eff != 0 || c.u[i].inh != 0 || c.u[i].per != 0 {
        return None;
      }
      i := i + 1;
    }
    var data: seq<(Word, Word)> := [];
    for j := 0 to tocopy
      invariant data == seq(j, k requires 0 <= k < j => (c.u[k].per, c.u[k].inh))
      invariant effNotZero ==> forall k :: 0 <= k < j ==> Covers(c.u[k])
    {
      data := data + [(c.u[j].per, c.u[j].inh)];
      if effNotZero && !Covers(c.u[j]) {
        return None;
      }
    }
    r := Some((Raw(if effNotZero then magic + 1 else magic, data, c.rootid), bytes));
  }

  method EffectiveIn(u: Flat, n: nat) returns (any: bool)
    requires n <= |u|
    ensures any <==> AnyEffective(u, n)
  {
    any := false;
    for i := 0 to n
      invariant any <==> AnyEffective(u, i)
    {
      any := any || u[i].eff != 0;
    }
  }

  /** How many words a revision has, in how many bytes. */
  function Revision(magic: Word): (nat, int) {
    if magic / REVISION == 1 then (1, SIZE_1)
    else if magic / REVISION == 2 then (2, SIZE_2)
    else if magic / REVISION == 3 then (2, SIZE_3)
    else (0, 0)
  }

  /** The set that an attribute of some bytes holds: exactly as many as its revision has. */
  function Loaded(raw: Raw, bytes: int): Option<CapT> {
    var (n, size) := Revision(raw.magic);
    if n == 0 || bytes != size || n > |raw.data| then None
    else
      var effective := raw.magic % 2 == 1;
      var first := Unpack(raw.data[0].0, raw.data[0].1, effective);
      Some(CapT([first, if n == 2 then Unpack(raw.data[1].0, raw.data[1].1, effective) else BLANK],
                if size == SIZE_3 then raw.rootid else 0))
  }

  /** Load a set from an attribute into a new one. */
  method Load(raw: Raw, bytes: int) returns (r: Option<CapT>)
    requires Revision(raw.magic).0 <= |raw.data|
    ensures r == Loaded(raw, bytes)
  {
    hide OrWord;
    var tocopy: nat, left: int, rootid: Word := 0, bytes, 0;
    match raw.magic / REVISION {
      case 1 => tocopy, left := 1, left - SIZE_1;
      case 2 => tocopy, left := 2, left - SIZE_2;
      case 3 => tocopy, left, rootid := 2, left - SIZE_3, raw.rootid;
      case _ => return None;
    }
    if left != 0 {
      return None;
    }
    var u: Flat := [BLANK, BLANK];
    var i := 0;
    while i < tocopy
      invariant 0 <= i <= tocopy && |u| == 2
      invariant forall j :: 0 <= j < i ==> u[j] == Unpack(raw.data[j].0, raw.data[j].1, raw.magic % 2 == 1)
    {
      u := u[i := Unpack(raw.data[i].0, raw.data[i].1, raw.magic % 2 == 1)];
      i := i + 1;
    }
    while i < 2
      invariant tocopy <= i <= 2 && |u| == 2
      invariant forall j :: 0 <= j < tocopy ==> u[j] == Unpack(raw.data[j].0, raw.data[j].1, raw.magic % 2 == 1)
      invariant forall j :: tocopy <= j < i ==> u[j] == BLANK
    {
      u := u[i := BLANK];
      i := i + 1;
    }
    assert u == [u[0], u[1]];
    return Some(CapT(u, rootid));
  }

  /** What a set becomes in a file: anything effective makes everything effective. */
  function Filed(c: CapT): CapT
    requires |c.u| == 2
  {
    var any := AnyEffective(c.u, 2);
    c.(u := [Unpack(c.u[0].per, c.u[0].inh, any), Unpack(c.u[1].per, c.u[1].inh, any)])
  }

  /** Loading what was saved keeps the permitted and inheritable flags and the root id, and makes
      effective flags all or nothing. */
  lemma LoadSave(v: Version, c: CapT)
    requires |c.u| == 2 && Savable(v, c)
    ensures var (raw, bytes) := Saved(v, c); Loaded(raw, bytes) == Some(Filed(c))
  {
    hide OrWord, AndWord, NotWord;
    assert v == V1 ==> (AnyEffective(c.u, 1) <==> AnyEffective(c.u, 2));
    NothingToUnpack();
  }

  lemma NothingToUnpack()
    ensures forall effective :: Unpack(0, 0, effective) == BLANK
  {
  }

  /** Filing a set again changes nothing, and what was filed can be saved again. */
  lemma FiledAgain(v: Version, c: CapT)
    requires |c.u| == 2 && Savable(v, c)
    ensures Savable(v, Filed(c)) && Filed(Filed(c)) == Filed(c)
  {
    CoversItself(c.u[0]);
    CoversItself(c.u[1]);
    var c' := Filed(c);
    hide OrWord, AndWord, NotWord;
    NothingToUnpack();
    assert AnyEffective(c'.u, 2) <==> c'.u[0].eff != 0 || c'.u[1].eff != 0;
    assert AnyEffective(c'.u, 1) <==> c'.u[0].eff != 0;
  }

  lemma CoversItself(d: Data)
    ensures Covers(Unpack(d.per, d.inh, true))
  {
    var p := OrWord(d.inh, d.per);
    OrCommutes(d.per, d.inh);
    hide Or, And, NotWord, Bit;
    var w := AndWord(NotWord(p), OrWord(d.per, d.inh));
    assert OrWord(d.per, d.inh) == p;
    forall k | 0 <= k < 32
      ensures Bit(w, k) <==> Bit(0, k)
    {
      BitAnd(NotWord(p), p, k);
      BitNot(p, k);
      BitOfZero(k);
    }
    WordExt(w, 0);
  }

  // ---------- both ----------

  /** The bytes of an attribute record. */
  function RawBytes(raw: Raw): seq<Byte>
    requires 1 <= |raw.data| <= 2
  {
    Le32(raw.magic) + Le32(raw.data[0].0) + Le32(raw.data[0].1)
    + (if |raw.data| == 2 then Le32(raw.data[1].0) + Le32(raw.data[1].1) else [])
  }

  /** The two words of a C set that a Go set of one or two words is. */
  function Widened(flat: Flat): (u: Flat)
    requires 1 <= |flat| <= 2
    ensures |u| == 2
  {
    if |flat| == 1 then flat + [BLANK] else flat
  }

  lemma StorableCovers(flat: Flat)
    requires Storable(flat)
    ensures HasEffective(flat) ==> forall j :: 0 <= j < |flat| ==> Covers(flat[j])
  {
    forall j | 0 <= j < |flat| && HasEffective(flat)
      ensures Covers(flat[j])
    {
      OrCommutes(flat[j].per, flat[j].inh);
      CoversItself(flat[j]);
      assert flat[j] == Unpack(flat[j].per, flat[j].inh, true);
    }
  }

  /** A set without a namespace owner that Go can pack C can save, as the same bytes. */
  lemma SameBytes(flat: Flat, v: Version)
    requires Packable(flat, 0) && v != OtherVersion && WordsOf(v) == |flat|
    ensures var c := CapT(Widened(flat), 0);
      && Savable(v, c)
      && RawBytes(Saved(v, c).0) == Packed(flat, 0) && Saved(v, c).1 == |Packed(flat, 0)|
  {
    var u := Widened(flat);
    StorableCovers(flat);
    SavedBytes(u, flat, v, 0);
    hide Le32, OrWord, AndWord, NotWord, Storable, Covers, RawBytes, Packed;
    assert forall j :: 0 <= j < |flat| ==> u[j] == flat[j];
    assert HasEffective(flat) <==> AnyEffective(u, |flat|);
  }

  /** The bytes of the record that C saves are those that Go packs, owner apart. */
  lemma SavedBytes(u: Flat, flat: Flat, v: Version, owner: Word)
    requires 1 <= |flat| <= 2 && |u| == 2 && u[..|flat|] == flat && WordsOf(v) == |flat| && (owner != 0 ==> |flat| == 2)
    ensures RawBytes(Saved(v, CapT(u, owner)).0) == Packed(flat, owner)
    ensures Saved(v, CapT(u, owner)).0.magic == PackedMagic(flat, owner)
  {
    hide Le32, OrWord;
    assert forall j :: 0 <= j < |flat| ==> u[j] == flat[j];
    assert HasEffective(flat) <==> AnyEffective(u, |flat|);
    hide HasEffective, AnyEffective;
    assert Columns(flat, 1) == [] + Le32(u[0].per) + Le32(u[0].inh);
    if |flat| == 2 {
      assert Columns(flat, 2) == Columns(flat, 1) + Le32(u[1].per) + Le32(u[1].inh);
    }
  }

  /** With an owner C saves four bytes more than Go, which are the owner. What Go packs then
      has the magic word that C saves, and C does not load it either. */
  lemma OwnerNotPacked(flat: Flat, owner: Word)
    requires Packable(flat, owner) && owner != 0
    ensures var raw := Saved(V3, CapT(flat, owner)).0;
      && Savable(V3, CapT(flat, owner))
      && raw.magic == PackedMagic(flat, owner) && RawBytes(raw) == Packed(flat, owner) && raw.rootid == owner
      && Saved(V3, CapT(flat, owner)).1 == |Packed(flat, owner)| + 4
      && Loaded(raw, |Packed(flat, owner)|) == None
  {
    StorableCovers(flat);
    SavedBytes(flat, flat, V3, owner);
    hide Le32, OrWord, AndWord, NotWord, Storable, Covers, RawBytes;
    assert HasEffective(flat) <==> AnyEffective(flat, 2);
  }

  // ---------- the bytes themselves ----------

  /** A word is written with its low byte first. */
  lemma LowByteFirst(w: Word)
    ensures Le32(w) == [w % 0x100, w / 0x100 % 0x100, w / 0x1_0000 % 0x100, w / 0x100_0000 % 0x100]
  {
    BytesAre(w);
    hide ByteOf;
    assert w / 256 / 256 == w / 0x1_0000 && w / 256 / 256 / 256 == w / 0x100_0000;
  }

  /** What an attribute looks like: the flag of the effective values and the revision in the first
      four bytes, then for each word its permitted and its inheritable flags. */
  lemma AttributeBytes(flat: Flat, nsRoot: int)
    requires 1 <= |flat| <= 2
    ensures var d := Packed(flat, nsRoot);
      && |d| == 4 + 8 * |flat|
      && d[..4] == [if exists j :: 0 <= j < |flat| && flat[j].eff != 0 then 1 else 0, 0, 0, if nsRoot != 0 then 3 else |flat|]
      && d[4..8] == Le32(flat[0].per) && d[8..12] == Le32(flat[0].inh)
      && (|flat| == 2 ==> d[12..16] == Le32(flat[1].per) && d[16..20] == Le32(flat[1].inh))
  {
    LowByteFirst(PackedMagic(flat, nsRoot));
    hide Le32;
    assert Columns(flat, 1) == [] + Le32(flat[0].per) + Le32(flat[0].inh);
    if |flat| == 2 {
      assert Columns(flat, 2) == Columns(flat, 1) + Le32(flat[1].per) + Le32(flat[1].inh);
    }
  }

  /** The bytes of the attribute that C stores. */
  function SavedAttribute(v: Version, c: CapT): seq<Byte>
    requires |c.u| == 2
  {
    RawBytes(Saved(v, c).0) + if c.rootid != 0 then Le32(c.rootid) else []
  }

  /** Go reads what C saved, of every revision, with its owner. */
  lemma GoReadsSaved(v: Version, c: CapT)
    requires |c.u| == 2 && Savable(v, c)
    ensures var d := SavedAttribute(v, c);
      |d| == Saved(v, c).1 && Digested(d, |d|, 2) == Unpacked(Filed(c).u, c.rootid)
  {
    var n := WordsOf(v);
    var flat := c.u[..n];
    var d := SavedAttribute(v, c);
    SavedBytes(c.u, flat, v, c.rootid);
    PackedWords(flat, c.rootid);
    var any := AnyEffective(c.u, 2);
    assert HasEffective(flat) <==> any by {
      assert v == V1 ==> (AnyEffective(c.u, 1) <==> any);
    }
    SavedWords(flat, c.rootid, d);
    hide Packed, RawBytes, Le32, Get32, OrWord, HasEffective, AnyEffective, Covers;
    var magic := Get32(d, 0);
    assert magic / REVISION == (if c.rootid == 0 then n else 3) && (magic % REVISION == 1 <==> any);
    var blank: Flat := seq(2, _ => BLANK);
    assert blank == [BLANK, BLANK];
    if n == 1 {
      NothingToUnpack();
      assert blank[0 := Unpack(c.u[0].per, c.u[0].inh, any)] == Filed(c).u;
    } else {
      assert blank[0 := Unpack(c.u[0].per, c.u[0].inh, any)][1 := Unpack(c.u[1].per, c.u[1].inh, any)] == Filed(c).u;
    }
  }

  /** The owner follows the words. */
  lemma SavedWords(flat: Flat, owner: Word, d: seq<Byte>)
    requires 1 <= |flat| <= 2 && (owner != 0 ==> |flat| == 2)
    requires d == Packed(flat, owner) + if owner != 0 then Le32(owner) else []
    ensures |d| == 4 + 8 * |flat| + if owner != 0 then 4 else 0
    ensures Get32(d, 0) == PackedMagic(flat, owner) && Get32(d, 4) == flat[0].per && Get32(d, 8) == flat[0].inh
    ensures |flat| == 2 ==> Get32(d, 12) == flat[1].per && Get32(d, 16) == flat[1].inh
    ensures owner != 0 ==> Get32(d, 20) == owner
  {
    PackedWords(flat, owner);
    var e := Packed(flat, owner);
    assert d[..|e|] == e;
    hide Packed, Le32, PackedMagic;
    assert forall k :: 0 <= k < |e| ==> d[k] == e[k];
    if owner != 0 {
      assert d[20..24] == Le32(owner);
      Le32Reads(owner, d, 20);
    }
  }

  // ---------- what is accepted ----------

  /** What Go accepts, by the fourth byte and the size. */
  lemma DigestAccepts(d: seq<Byte>, sz: nat, words: nat)
    requires 1 <= words && sz <= |d|
    ensures Digested(d, sz, words) != Malformed <==>
      12 <= sz <= 24 && (d[3] == 1 || (d[3] == 2 && sz >= 20) || (d[3] == 3 && sz == 24))
    ensures Digested(d, sz, words) == NoSuchWord <==> words == 1 && 20 <= sz <= 24 && (d[3] == 2 || (d[3] == 3 && sz == 24))
  {
    hide OrWord;
    if sz >= 12 {
      assert Get32(d, 0) / REVISION == d[3];
    }
  }

  /** What C accepts, by the highest byte of the magic word and the size. */
  lemma LoadAccepts(raw: Raw, bytes: int)
    requires Revision(raw.magic).0 <= |raw.data|
    ensures Loaded(raw, bytes).Some? <==>
      var revision := raw.magic / 0x100_0000;
      (revision == 1 && bytes == 12) || (revision == 2 && bytes == 20) || (revision == 3 && bytes == 24)
  {
    hide OrWord;
  }
}
