/** The tuple of inheritable vectors as the C library prints and reads it. */
module CIab {
  import opened Bits
  import opened Words
  import opened CapSet
  import opened Strings
  import opened TextModel
  import opened IabTuple
  import opened CText
  import opened CTextCode
  import opened CTextPrint
  import opened CTextSize

  // ---------- reading ----------

  datatype Flags = Flags(i: bool, a: bool, nb: bool)

  const NO_FLAGS := Flags(false, false, false)

  function Marked(f: Flags, c: char): Flags {
    if c == '!' then f.(nb := true) else if c == '^' then f.(i := true, a := true) else f.(i := true)
  }

  /** A value goes into each flagged vector; without any flag it is inheritable. */
  function Add(t: Tuple, f: Flags, v: nat): Tuple {
    Tuple(if f.i || f == NO_FLAGS then t.i + {v} else t.i, if f.a then t.a + {v} else t.a, if f.nb then t.nb + {v} else t.nb)
  }

  function LookupAny(b: Build, s: string): (r: Option<(nat, string)>)
    requires BuildOk(b) && s != ""
    ensures r.Some? ==> |r.value.1| < |s|
  {
    if IsWordChar(s[0]) then LookupName(b, s) else None
  }

  /** The rest of a text, with the flags read for the next name. */
  function ReadIab(b: Build, s: string, f: Flags, t: Tuple): Option<Tuple>
    requires BuildOk(b)
    decreases |s|
  {
    if s == "" then Some(t)
    else if IsMark(s[0]) then ReadIab(b, s[1..], Marked(f, s[0]), t)
    else
      match LookupAny(b, s)
      case None => None
      case Some((v, rest)) =>
        var t' := Add(t, f, v);
        if rest == "" then Some(t')
        else if rest[0] != ',' then None
        else ReadIab(b, rest[1..], NO_FLAGS, t')
  }

  // ---------- reading what was printed ----------

  /** The values that a tuple mentions, in order. */
  function Mentioned(t: Tuple, n: nat): (vs: seq<nat>)
    ensures forall v :: v in vs ==> v < n && v in t.i + t.a + t.nb
  {
    if n == 0 then [] else Mentioned(t, n - 1) + (if n - 1 in t.i + t.a + t.nb then [n - 1] else [])
  }

  function EntriesOf(names: seq<string>, t: Tuple, vs: seq<nat>): (ss: seq<string>)
    ensures |ss| == |vs|
  {
    seq(|vs|, k requires 0 <= k < |vs| => Marks(t, vs[k]) + NameOf(names, vs[k]))
  }

  lemma {:induction false} EntriesAreMentioned(names: seq<string>, t: Tuple, n: nat)
    ensures Entries(names, t, n) == EntriesOf(names, t, Mentioned(t, n))
  {
    if n > 0 {
      EntriesAreMentioned(names, t, n - 1);
      hide Marks, NameOf;
    }
  }

  function FlagsOf(t: Tuple, v: nat): Flags {
    Flags(v in t.a || (v in t.nb && v in t.i), v in t.a, v in t.nb)
  }

  function AddAll(t: Tuple, from: Tuple, vs: seq<nat>): Tuple
    decreases |vs|
  {
    if vs == [] then t else AddAll(Add(t, FlagsOf(from, vs[0]), vs[0]), from, vs[1..])
  }

  /** The marks of an entry read as its flags. */
  lemma MarksRead(b: Build, t: Tuple, v: nat, rest: string, acc: Tuple)
    requires BuildOk(b) && rest != "" && !IsMark(rest[0])
    ensures ReadIab(b, Marks(t, v) + rest, NO_FLAGS, acc) == ReadIab(b, rest, FlagsOf(t, v), acc)
  {
    var m := Marks(t, v);
    hide LookupAny;
    if |m| == 0 {
      assert m + rest == rest;
    } else if |m| == 1 {
      OneMark(b, m[0], rest, NO_FLAGS, acc);
      assert m + rest == [m[0]] + rest;
    } else {
      OneMark(b, m[1], rest, Marked(NO_FLAGS, m[0]), acc);
      OneMark(b, m[0], [m[1]] + rest, NO_FLAGS, acc);
      assert m + rest == [m[0]] + ([m[1]] + rest);
    }
  }

  lemma OneMark(b: Build, c: char, rest: string, f: Flags, acc: Tuple)
    requires BuildOk(b) && IsMark(c)
    ensures ReadIab(b, [c] + rest, f, acc) == ReadIab(b, rest, Marked(f, c), acc)
  {
    assert ([c] + rest)[1..] == rest;
  }

  lemma OneEntry(b: Build, t: Tuple, v: nat, tail: string, acc: Tuple)
    requires BuildOk(b) && v < b.maxBits && (tail == "" || tail[0] == ',')
    ensures ReadIab(b, Marks(t, v) + (NameOf(b.names, v) + tail), NO_FLAGS, acc) ==
      var acc' := Add(acc, FlagsOf(t, v), v);
      if tail == "" then Some(acc') else ReadIab(b, tail[1..], NO_FLAGS, acc')
  {
    var s := NameOf(b.names, v) + tail;
    LookupPrinted(b, v, tail);
    NamePlain(b.names, v);
    assert !IsMark(s[0]);
    hide Marks, NameOf, LookupName, FlagsOf, Add;
    MarksRead(b, t, v, s, acc);
  }

  lemma {:induction false} EntriesReadInC(b: Build, t: Tuple, vs: seq<nat>, acc: Tuple)
    requires BuildOk(b) && forall v :: v in vs ==> v < b.maxBits
    ensures ReadIab(b, Join(EntriesOf(b.names, t, vs), ','), NO_FLAGS, acc) == Some(AddAll(acc, t, vs))
    decreases |vs|
  {
    if vs == [] {
      assert EntriesOf(b.names, t, []) == [];
    } else {
      var v, rest := vs[0], vs[1..];
      assert v in vs && forall u :: u in rest ==> u in vs;
      var acc' := Add(acc, FlagsOf(t, v), v);
      EntriesReadInC(b, t, rest, acc');
      var more := Join(EntriesOf(b.names, t, rest), ',');
      var tail := if rest == [] then "" else "," + more;
      EntriesFromFirst(b.names, t, vs);
      OneEntry(b, t, v, tail, acc);
      assert AddAll(acc, t, vs) == AddAll(acc', t, rest);
      assert rest == [] ==> AddAll(acc', t, rest) == acc';
      hide *;
      assert rest != [] ==> tail[1..] == more;
    }
  }

  lemma EntriesFromFirst(names: seq<string>, t: Tuple, vs: seq<nat>)
    requires vs != []
    ensures Join(EntriesOf(names, t, vs), ',') ==
      Marks(t, vs[0]) + (NameOf(names, vs[0]) + if vs[1..] == [] then "" else "," + Join(EntriesOf(names, t, vs[1..]), ','))
  {
    hide Marks, NameOf;
    var ss := EntriesOf(names, t, vs);
    assert ss[1..] == EntriesOf(names, t, vs[1..]);
    hide EntriesOf;
    assert ss[0] == Marks(t, vs[0]) + NameOf(names, vs[0]);
  }

  lemma {:induction false} AddAllSnoc(acc: Tuple, t: Tuple, vs: seq<nat>, v: nat)
    ensures AddAll(acc, t, vs + [v]) == Add(AddAll(acc, t, vs), FlagsOf(t, v), v)
    decreases |vs|
  {
    hide Add, FlagsOf;
    if vs == [] {
      assert [v][1..] == [] && [] + [v] == [v];
      assert AddAll(Add(acc, FlagsOf(t, v), v), t, []) == Add(acc, FlagsOf(t, v), v);
    } else {
      assert (vs + [v])[1..] == vs[1..] + [v];
      AddAllSnoc(Add(acc, FlagsOf(t, vs[0]), vs[0]), t, vs[1..], v);
    }
  }

  lemma {:induction false} MentionedIsFirst(t: Tuple, n: nat)
    requires TupleOk(t)
    ensures AddAll(NOTHING, t, Mentioned(t, n)) == First(t, n)
  {
    if n > 0 {
      MentionedIsFirst(t, n - 1);
      hide AddAll;
      if n - 1 in t.i + t.a + t.nb {
        AddAllSnoc(NOTHING, t, Mentioned(t, n - 1), n - 1);
      } else {
        assert Mentioned(t, n - 1) + [] == Mentioned(t, n - 1);
      }
      FirstNext(t, n - 1);
      hide Add, FlagsOf, First;
    } else {
      assert First(t, 0) == NOTHING;
    }
  }

  lemma FirstNext(t: Tuple, v: nat)
    requires TupleOk(t)
    ensures First(t, v + 1) == if v in t.i + t.a + t.nb then Add(First(t, v), FlagsOf(t, v), v) else First(t, v)
  {
  }

  /** C reads the text of a tuple as its named part, like Go. */
  lemma CIabRoundTrip(b: Build, t: Tuple)
    requires BuildOk(b) && TupleOk(t)
    ensures ReadIab(b, IabText(b.names, t, b.maxBits), NO_FLAGS, NOTHING) == Some(First(t, b.maxBits))
  {
    EntriesAreMentioned(b.names, t, b.maxBits);
    EntriesReadInC(b, t, Mentioned(t, b.maxBits), NOTHING);
    MentionedIsFirst(t, b.maxBits);
    hide Entries, EntriesOf, Mentioned, AddAll, ReadIab;
  }

  // ---------- the code ----------

  class Iab {
    var i: Vector
    var a: Vector
    var nb: Vector

    function View(): Tuple
      reads this
    {
      Tuple(Listing(i), Listing(a), Listing(nb))
    }

    predicate Sized(blks: nat)
      reads this
    {
      |i| == |a| == |nb| == blks
    }

    constructor (blks: nat)
      ensures Sized(blks) && View() == NOTHING
    {
      i, a, nb := seq(blks, _ => 0), seq(blks, _ => 0), seq(blks, _ => 0);
      new;
      NothingListed(blks);
    }

    /** Set or lower one value; ambient values stay within the inheritable ones. */
    method SetVector(vec: Vec, bit: nat, raised: bool, maxBits: nat) returns (ok: bool)
      requires Sized(|i|) && maxBits <= 32 * |i| && TupleOk(View())
      modifies this
      ensures Sized(old(|i|)) && TupleOk(View())
      ensures ok <==> bit < maxBits && vec != NoVec
      ensures View() == if ok then SetOne(old(View()), vec, raised, bit) else old(View())
    {
      if bit >= maxBits {
        return false;
      }
      var o := bit / 32;
      ghost var t := View();
      match vec {
        case Inh =>
          PutListing(i, bit, raised);
          i := PutBit(i, bit, raised);
          AndListing(a, i, o);
          a := a[o := AndWord(a[o], i[o])];
        case Amb =>
          PutListing(a, bit, raised);
          a := PutBit(a, bit, raised);
          OrListing(i, a, o);
          i := i[o := OrWord(i[o], a[o])];
        case Bound =>
          PutListing(nb, bit, raised);
          nb := PutBit(nb, bit, raised);
        case NoVec =>
          return false;
      }
      OneWordOnly(t, View(), vec, raised, bit, o);
      ok := true;
    }
  }

  /** One bit of a vector set to a state. */
  function PutBit(x: Vector, bit: nat, raised: bool): Vector
    requires bit < 32 * |x|
  {
    var on := BitMask(bit % 32);
    x[bit / 32 := OrWord(AndWord(x[bit / 32], NotWord(on)), if raised then on else 0)]
  }

  lemma PutListing(x: Vector, bit: nat, raised: bool)
    requires bit < 32 * |x|
    ensures |PutBit(x, bit, raised)| == |x|
    ensures Listing(PutBit(x, bit, raised)) == if raised then Listing(x) + {bit} else Listing(x) - {bit}
  {
    var on := BitMask(bit % 32);
    hide Bit, Or, And, NotWord, Pow2;
    forall u: nat
      ensures Has(PutBit(x, bit, raised), u) <==> if u == bit then raised else Has(x, u)
    {
      if u / 32 == bit / 32 {
        BitOr(AndWord(x[bit / 32], NotWord(on)), if raised then on else 0, u % 32);
        BitAnd(x[bit / 32], NotWord(on), u % 32);
        BitNot(on, u % 32);
        BitOfPow2(bit % 32, u % 32);
        BitOfZero(u % 32);
      }
    }
    HasInRange(x);
  }

  lemma AndListing(x: Vector, y: Vector, o: nat)
    requires |x| == |y| && o < |x|
    ensures forall u: nat ::
      u in Listing(x[o := AndWord(x[o], y[o])]) <==> u in Listing(x) && (u / 32 == o ==> u in Listing(y))
  {
    hide Bit, And;
    forall u: nat
      ensures Has(x[o := AndWord(x[o], y[o])], u) <==> Has(x, u) && (u / 32 == o ==> Has(y, u))
    {
      if u / 32 == o {
        BitAnd(x[o], y[o], u % 32);
      }
    }
    HasInRange(x);
  }

  lemma OrListing(x: Vector, y: Vector, o: nat)
    requires |x| == |y| && o < |x|
    ensures forall u: nat ::
      u in Listing(x[o := OrWord(x[o], y[o])]) <==> u in Listing(x) || (u / 32 == o && u in Listing(y))
  {
    hide Bit, Or;
    forall u: nat
      ensures Has(x[o := OrWord(x[o], y[o])], u) <==> Has(x, u) || (u / 32 == o && Has(y, u))
    {
      if u / 32 == o {
        BitOr(x[o], y[o], u % 32);
      }
    }
    HasInRange(x);
  }

  /** Masking or mirroring one word is enough when only one value of it changed. */
  lemma OneWordOnly(t: Tuple, t': Tuple, vec: Vec, raised: bool, bit: nat, o: nat)
    requires TupleOk(t) && o == bit / 32 && vec != NoVec
    requires vec == Inh ==>
      && t'.i == (if raised then t.i + {bit} else t.i - {bit}) && t'.nb == t.nb
      && (forall u: nat :: u in t'.a <==> u in t.a && (u / 32 == o ==> u in t'.i))
    requires vec == Amb ==>
      && t'.a == (if raised then t.a + {bit} else t.a - {bit}) && t'.nb == t.nb
      && (forall u: nat :: u in t'.i <==> u in t.i || (u / 32 == o && u in t'.a))
    requires vec == Bound ==> t'.nb == (if raised then t.nb + {bit} else t.nb - {bit}) && t'.a == t.a && t'.i == t.i
    ensures t' == SetOne(t, vec, raised, bit)
  {
    var s := SetOne(t, vec, raised, bit);
    assert t'.a == s.a && t'.i == s.i && t'.nb == s.nb;
  }

  /** A new tuple for the text, or nothing when the text is bad. */
  method FromText(b: Build, blks: nat, text: string) returns (iab: Iab, ok: bool)
    requires BuildOk(b) && b.bits == 32 * blks
    ensures fresh(iab) && iab.Sized(blks)
    ensures ok <==> ReadIab(b, text, NO_FLAGS, NOTHING).Some?
    ensures ok ==> ReadIab(b, text, NO_FLAGS, NOTHING) == Some(iab.View())
  {
    iab := new Iab(blks);
    var f, at := NO_FLAGS, 0;
    assert text[0..] == text;
    hide LookupName, TableOk, Listing;
    while at < |text|
      invariant at <= |text| && fresh(iab) && iab.Sized(blks)
      invariant ReadIab(b, text, NO_FLAGS, NOTHING) == ReadIab(b, text[at..], f, iab.View())
    {
      assert text[at..][1..] == text[at + 1..];
      if IsMark(text[at]) {
        f := Marked(f, text[at]);
        at := at + 1;
        continue;
      }
      if !IsWordChar(text[at]) {
        return iab, false;
      }
      var found := Lookup(b, text, at);
      if found.None? {
        return iab, false;
      }
      LookupInRange(b, text[at..]);
      Put(iab, f, found.value.0);
      at := found.value.1;
      if at == |text| {
        return iab, true;
      }
      if text[at] != ',' {
        return iab, false;
      }
      assert text[at..][1..] == text[at + 1..];
      f := NO_FLAGS;
      at := at + 1;
    }
    ok := true;
  }

  method Put(iab: Iab, f: Flags, v: nat)
    requires iab.Sized(|iab.i|) && v < 32 * |iab.i|
    modifies iab
    ensures iab.Sized(old(|iab.i|)) && iab.View() == Add(old(iab.View()), f, v)
  {
    BothListings(iab.i, v);
    BothListings(iab.a, v);
    BothListings(iab.nb, v);
    hide Listing, Raise, Lower;
    if f.i || f == NO_FLAGS {
      iab.i := Raise(iab.i, v);
    }
    if f.a {
      iab.a := Raise(iab.a, v);
    }
    if f.nb {
      iab.nb := Raise(iab.nb, v);
    }
  }

  // ---------- printing into a buffer ----------

  /** Entries are names with at most two marks and a comma. */
  lemma {:induction false} EntriesLength(names: seq<string>, t: Tuple, n: nat)
    ensures |IabText(names, t, n)| <= Spelling(names, 0, n) + 2 * n
    decreases n
  {
    if n > 0 {
      EntriesLength(names, t, n - 1);
      var fs := Entries(names, t, n - 1);
      if n - 1 in t.i + t.a + t.nb {
        JoinSnoc(fs, Marks(t, n - 1) + NameOf(names, n - 1), ',');
        assert |Marks(t, n - 1)| <= 2;
      } else {
        assert fs + [] == fs;
      }
      hide Marks, NameOf, Join;
    }
  }

  /** With at most 41 names and 64 values every prefix of the text leaves room in the buffer. */
  lemma IabFits(names: seq<string>, t: Tuple, n: nat, size: nat)
    requires n <= 64 && |names| <= 41
    requires 10 <= size && forall v :: 0 <= v < |names| ==> |names[v]| < size
    ensures |IabText(names, t, n)| + 50 <= size * 64 + 100
  {
    EntriesLength(names, t, n);
    SpellingBound(names, size, n);
    hide *;
    RoomFor(|names|, n, size, Spelling(names, 0, n));
  }

  lemma RoomFor(k: nat, n: nat, size: nat, spelling: nat)
    requires k <= 41 && n <= 64 && 10 <= size
    requires spelling <= if n <= k then n * size else k * size + 3 * (n - k)
    ensures spelling + 2 * n + 50 <= size * 64 + 100
  {
    AtMost(if n <= k then n else k, size);
  }

  lemma AtMost(m: nat, size: nat)
    requires m <= 41
    ensures m * size <= 41 * size
  {
    assert 41 * size - m * size == (41 - m) * size;
  }

  /** What one mentioned value adds to the text. */
  ghost function Addition(names: seq<string>, t: Tuple, c: nat, first: bool): string {
    (if first then "" else ",") + (Marks(t, c) + NameOf(names, c))
  }

  lemma TextNext(names: seq<string>, t: Tuple, c: nat)
    ensures var first := Entries(names, t, c) == [];
      if c in t.i + t.a + t.nb then
        IabText(names, t, c + 1) == IabText(names, t, c) + Addition(names, t, c, first) && Entries(names, t, c + 1) != []
      else
        IabText(names, t, c + 1) == IabText(names, t, c) && Entries(names, t, c + 1) == Entries(names, t, c)
  {
    var fs := Entries(names, t, c);
    hide Marks, NameOf;
    assert fs + [] == fs;
    JoinAdds(fs, Marks(t, c) + NameOf(names, c));
    hide Join;
  }

  lemma JoinAdds(fs: seq<string>, f: string)
    ensures Join(fs + [f], ',') == Join(fs, ',') + ((if fs == [] then "" else ",") + f)
  {
    JoinSnoc(fs, f, ',');
    assert Join([], ',') == "";
    hide Join;
    assert Join(fs, ',') + [','] + f == Join(fs, ',') + ("," + f);
    assert "" + ("" + f) == f;
  }

  method PutChar(buf: array<char>, p: nat, ch: char, ghost was: string) returns (p': nat)
    requires p < buf.Length && buf[..p] == was
    modifies buf
    ensures p' == p + 1 && buf[..p'] == was + [ch]
  {
    buf[p] := ch;
    p' := p + 1;
  }

  /** One value with its separator and marks, if the tuple mentions it. */
  method PrintOne(buf: array<char>, p0: nat, iab: Iab, names: seq<string>, c: nat, first0: bool, ghost t: Tuple)
    returns (first: bool, p: nat)
    requires t == iab.View() && p0 <= buf.Length && buf[..p0] == IabText(names, t, c)
    requires first0 <==> Entries(names, t, c) == []
    requires |IabText(names, t, c + 1)| + 50 <= buf.Length
    modifies buf
    ensures p <= buf.Length && buf[..p] == IabText(names, t, c + 1)
    ensures first <==> Entries(names, t, c + 1) == []
  {
    TextNext(names, t, c);
    HasInRange(iab.i);
    HasInRange(iab.a);
    HasInRange(iab.nb);
    first, p := first0, p0;
    var ib, ab, nbb := Has(iab.i, c), Has(iab.a, c), Has(iab.nb, c);
    assert (ib <==> c in t.i) && (ab <==> c in t.a) && (nbb <==> c in t.nb);
    if !(nbb || ab || ib) {
      return;
    }
    AdditionParts(names, t, c, first0);
    hide *;
    ghost var was := buf[..p0];
    p := PrintMarks(buf, p, first, nbb, ab, ib, was);
    p := Sprintf(buf, p, NameOf(names, c));
    first := false;
  }

  lemma AdditionParts(names: seq<string>, t: Tuple, c: nat, first: bool)
    ensures var sep := if first then "" else ",";
      var marks := (if c in t.nb then "!" else "") + (if c in t.a then "^" else if c in t.nb && c in t.i then "%" else "");
      && |sep + marks| <= 3
      && Addition(names, t, c, first) == sep + marks + NameOf(names, c)
      && forall was: string :: was + (sep + marks) + NameOf(names, c) == was + Addition(names, t, c, first)
  {
    hide NameOf;
    var sep := if first then "" else ",";
    assert sep + Marks(t, c) + NameOf(names, c) == Addition(names, t, c, first);
    forall was: string
      ensures was + (sep + Marks(t, c)) + NameOf(names, c) == was + (sep + (Marks(t, c) + NameOf(names, c)))
    {
    }
  }

  /** The separator and the marks of one value. */
  method PrintMarks(buf: array<char>, p0: nat, first: bool, nbb: bool, ab: bool, ib: bool, ghost was: string) returns (p: nat)
    requires p0 + 3 < buf.Length && buf[..p0] == was
    modifies buf
    ensures
      var sep := if first then "" else ",";
      var marks := (if nbb then "!" else "") + (if ab then "^" else if nbb && ib then "%" else "");
      p == p0 + |sep + marks| && p < buf.Length && buf[..p] == was + (sep + marks)
  {
    p := p0;
    ghost var text := "";
    if !first {
      p := PutChar(buf, p, ',', was);
      text := ",";
    }
    if nbb {
      p := PutChar(buf, p, '!', was + text);
      text := text + "!";
    }
    if ab {
      p := PutChar(buf, p, '^', was + text);
      text := text + "^";
    } else if nbb && ib {
      p := PutChar(buf, p, '%', was + text);
      text := text + "%";
    }
    assert buf[..p] == was + text;
  }

  lemma StartsEmpty(names: seq<string>, t: Tuple)
    ensures IabText(names, t, 0) == "" && Entries(names, t, 0) == []
  {
  }

  /** Print a tuple without checking for room, which is never missing. */
  method ToText(iab: Iab, names: seq<string>, maxBits: nat, size: nat) returns (text: string)
    requires iab.Sized(2) && maxBits <= 64 && |names| <= 41 && TableOk(names)
    requires 10 <= size && forall v :: 0 <= v < |names| ==> |names[v]| < size
    ensures text == IabText(names, iab.View(), maxBits)
  {
    var buf := new char[size * 64 + ZONE];
    assert ZONE == 100;
    hide *;
    var p := PrintAll(buf, iab, names, maxBits, size);
    text := buf[..p];
  }

  method PrintAll(buf: array<char>, iab: Iab, names: seq<string>, maxBits: nat, size: nat) returns (p: nat)
    requires maxBits <= 64 && |names| <= 41 && buf.Length == size * 64 + 100
    requires 10 <= size && forall v :: 0 <= v < |names| ==> |names[v]| < size
    modifies buf
    ensures p <= buf.Length && buf[..p] == IabText(names, iab.View(), maxBits)
  {
    ghost var t := iab.View();
    StartsEmpty(names, t);
    p := 0;
    var first := true;
    var c := 0;
    hide *;
    while c < maxBits
      invariant 0 <= c <= maxBits && p <= buf.Length && buf[..p] == IabText(names, t, c)
      invariant first <==> Entries(names, t, c) == []
    {
      IabFits(names, t, c + 1, size);
      first, p := PrintOne(buf, p, iab, names, c, first, t);
      c := c + 1;
    }
  }

  // ---------- what marks mean ----------

  /** C reads a single entry as Go does, whatever its marks, if it knows the name. */
  lemma CEntryMeans(b: Build, marks: string, v: nat)
    requires BuildOk(b) && v < b.bits && Readable(b, v)
    requires forall k :: 0 <= k < |marks| ==> marks[k] == '!' || marks[k] == '^' || marks[k] == '%'
    ensures ReadIab(b, marks + NameOf(b.names, v), NO_FLAGS, NOTHING) == Some(Entry(marks, v))
  {
    var s := NameOf(b.names, v);
    LookupPrinted(b, v, "");
    assert s + "" == s;
    NamePlain(b.names, v);
    AllMarks(b, marks, s, NO_FLAGS);
    hide NameOf, LookupName;
    var f := AfterMarks(NO_FLAGS, marks);
    MarksAre(NO_FLAGS, marks);
    assert Add(NOTHING, f, v) == Entry(marks, v);
  }

  /** The flags after some marks. */
  function AfterMarks(f: Flags, marks: string): Flags
    decreases |marks|
  {
    if marks == "" then f else AfterMarks(Marked(f, marks[0]), marks[1..])
  }

  lemma {:induction false} AllMarks(b: Build, marks: string, rest: string, f: Flags)
    requires BuildOk(b) && forall k :: 0 <= k < |marks| ==> IsMark(marks[k])
    ensures ReadIab(b, marks + rest, f, NOTHING) == ReadIab(b, rest, AfterMarks(f, marks), NOTHING)
    decreases |marks|
  {
    hide ReadIab;
    if marks == "" {
      assert marks + rest == rest;
    } else {
      assert marks + rest == [marks[0]] + (marks[1..] + rest);
      OneMark(b, marks[0], marks[1..] + rest, f, NOTHING);
      AllMarks(b, marks[1..], rest, Marked(f, marks[0]));
    }
  }

  lemma {:induction false} MarksAre(f: Flags, marks: string)
    requires forall k :: 0 <= k < |marks| ==> IsMark(marks[k])
    ensures var g := AfterMarks(f, marks);
      && (g.nb <==> f.nb || '!' in marks) && (g.a <==> f.a || '^' in marks)
      && (g.i <==> f.i || '^' in marks || '%' in marks)
    decreases |marks|
  {
    if marks != "" {
      MarksAre(Marked(f, marks[0]), marks[1..]);
      assert forall c :: c in marks <==> c == marks[0] || c in marks[1..];
    }
  }
}
