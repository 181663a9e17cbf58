/** The tuple of inheritable vectors: inheritable, ambient and blocked values, as the Go package
    keeps, prints and reads it. */
module IabTuple {
  import opened Words
  import opened CapSet
  import opened Strings
  import opened TextModel
  import GoText

  /** Which vector a call is about; callers can pass a number that names none. */
  datatype Vec = Inh | Amb | Bound | NoVec

  datatype Tuple = Tuple(i: set<nat>, a: set<nat>, nb: set<nat>)

  const NOTHING := Tuple({}, {}, {})

  /** Ambient values are inheritable. */
  predicate TupleOk(t: Tuple) {
    t.a <= t.i
  }

  /** Raising an ambient value raises it as inheritable, lowering an inheritable value lowers it
      as ambient. */
  function SetOne(t: Tuple, vec: Vec, raised: bool, v: nat): (t': Tuple)
    ensures TupleOk(t) ==> TupleOk(t')
  {
    match vec
    case Inh => if raised then t.(i := t.i + {v}) else t.(i := t.i - {v}, a := t.a - {v})
    case Amb => if raised then t.(a := t.a + {v}, i := t.i + {v}) else t.(a := t.a - {v})
    case Bound => if raised then t.(nb := t.nb + {v}) else t.(nb := t.nb - {v})
    case NoVec => t
  }

  /** The values in order, up to the first one that is out of range. */
  function SetAll(t: Tuple, vec: Vec, raised: bool, vals: seq<nat>, maxValues: nat): (r: (Tuple, bool))
    ensures TupleOk(t) ==> TupleOk(r.0)
    ensures r.1 <==> vals == [] || (vec != NoVec && forall v :: v in vals ==> v < maxValues)
    decreases |vals|
  {
    if vals == [] then (t, true)
    else if vals[0] >= maxValues || vec == NoVec then
      assert vals[0] in vals;
      (t, false)
    else
      var r := SetAll(SetOne(t, vec, raised, vals[0]), vec, raised, vals[1..], maxValues);
      assert forall v :: v in vals <==> v == vals[0] || v in vals[1..];
      r
  }

  /** Taking a vector from the flags of a set over n values. */
  function Filled(t: Tuple, vec: Vec, vals: set<nat>, n: nat): (t': Tuple)
    ensures TupleOk(t) ==> TupleOk(t')
  {
    match vec
    case Inh => t.(i := vals, a := t.a * vals)
    case Amb => t.(a := vals, i := t.i + vals)
    case Bound => t.(nb := Below(n) - vals)
    case NoVec => t
  }

  // ---------- the text form ----------

  predicate IsMark(c: char) {
    c == '!' || c == '^' || c == '%'
  }

  function Marks(t: Tuple, v: nat): string {
    (if v in t.nb then "!" else "") + (if v in t.a then "^" else if v in t.nb && v in t.i then "%" else "")
  }

  /** One entry for each of the first n values that the tuple mentions. */
  function Entries(names: seq<string>, t: Tuple, n: nat): seq<string> {
    if n == 0 then []
    else
      Entries(names, t, n - 1)
      + (if n - 1 in t.i + t.a + t.nb then [Marks(t, n - 1) + NameOf(names, n - 1)] else [])
  }

  function IabText(names: seq<string>, t: Tuple, n: nat): string {
    Join(Entries(names, t, n), ',')
  }

  function MarksLen(s: string): (n: nat)
    ensures n <= |s|
  {
    if s == "" || !IsMark(s[0]) then 0 else 1 + MarksLen(s[1..])
  }

  /** What the marks of an entry say: without any, or with a mark other than '!', the value is
      inheritable. */
  function AddMarked(t: Tuple, marks: string, v: nat): Tuple {
    var a, nb := '^' in marks, '!' in marks;
    var i := a || '%' in marks;
    Tuple(if i || !nb then t.i + {v} else t.i, if a then t.a + {v} else t.a, if nb then t.nb + {v} else t.nb)
  }

  function AddEntry(names: seq<string>, limit: nat, t: Tuple, f: string): Option<Tuple> {
    var j := MarksLen(f);
    match GoText.FromName(names, limit, f[j..])
    case None => None
    case Some(v) => Some(AddMarked(t, f[..j], v))
  }

  function AddEntries(names: seq<string>, limit: nat, fs: seq<string>): (r: Option<Tuple>)
    ensures r.Some? ==> TupleOk(r.value)
  {
    if fs == [] then Some(NOTHING)
    else
      match AddEntries(names, limit, fs[..|fs| - 1])
      case None => None
      case Some(t) => AddEntry(names, limit, t, fs[|fs| - 1])
  }

  function Parsed(names: seq<string>, limit: nat, text: string): (r: Option<Tuple>)
    ensures r.Some? ==> TupleOk(r.value)
  {
    if text == "" then Some(NOTHING) else AddEntries(names, limit, Split(text, ','))
  }

  // ---------- reading back ----------

  function First(t: Tuple, n: nat): Tuple {
    Tuple(t.i * Below(n), t.a * Below(n), t.nb * Below(n))
  }

  lemma {:induction false} MarksLenOf(m: string, s: string)
    requires (forall k :: 0 <= k < |m| ==> IsMark(m[k])) && (s == "" || !IsMark(s[0]))
    ensures MarksLen(m + s) == |m|
  {
    if m == "" {
      assert m + s == s;
    } else {
      assert (m + s)[1..] == m[1..] + s;
      MarksLenOf(m[1..], s);
    }
  }

  lemma EntryReads(names: seq<string>, limit: nat, t: Tuple, v: nat)
    requires TableOk(names) && TupleOk(t) && v < limit && v in t.i + t.a + t.nb
    ensures var f := Marks(t, v) + NameOf(names, v);
      && f != "" && ',' !in f
      && AddEntry(names, limit, First(t, v), f) == Some(First(t, v + 1))
  {
    var m, s := Marks(t, v), NameOf(names, v);
    NamePlain(names, v);
    MarksLenOf(m, s);
    GoText.FromNameOf(names, limit, v);
    assert (m + s)[..|m|] == m && (m + s)[|m|..] == s;
    hide NameOf, MarksLen, GoText.FromName, First, AddMarked;
    assert '^' in m <==> v in t.a;
    assert '!' in m <==> v in t.nb;
    assert '%' in m <==> v in t.nb && v in t.i && v !in t.a;
    MarkedNext(t, v, m);
  }

  lemma MarkedNext(t: Tuple, v: nat, m: string)
    requires TupleOk(t) && v in t.i + t.a + t.nb
    requires '^' in m <==> v in t.a
    requires '!' in m <==> v in t.nb
    requires '%' in m <==> v in t.nb && v in t.i && v !in t.a
    ensures AddMarked(First(t, v), m, v) == First(t, v + 1)
  {
  }

  lemma NamePlain(names: seq<string>, v: nat)
    requires TableOk(names)
    ensures var s := NameOf(names, v); s != "" && !IsMark(s[0]) && ',' !in s
  {
    var s := NameOf(names, v);
    assert forall k :: 0 <= k < |s| ==> IsNameChar(s[k]) || IsDigit(s[k]);
  }

  lemma {:induction false} EntriesRead(names: seq<string>, limit: nat, t: Tuple, n: nat)
    requires TableOk(names) && TupleOk(t) && n <= limit
    ensures AddEntries(names, limit, Entries(names, t, n)) == Some(First(t, n))
    ensures forall k :: 0 <= k < |Entries(names, t, n)| ==> Entries(names, t, n)[k] != "" && ',' !in Entries(names, t, n)[k]
  {
    hide NameOf, Marks, AddEntry;
    if n == 0 {
      assert First(t, 0) == NOTHING;
    } else {
      EntriesRead(names, limit, t, n - 1);
      var fs := Entries(names, t, n - 1);
      if n - 1 in t.i + t.a + t.nb {
        EntryReads(names, limit, t, n - 1);
        var f := Marks(t, n - 1) + NameOf(names, n - 1);
        assert (fs + [f])[..|fs|] == fs;
      } else {
        assert fs + [] == fs;
        assert First(t, n) == First(t, n - 1);
      }
    }
  }

  /** The text of a tuple reads as its named part, so as the tuple exactly when that is all. */
  lemma GoIabRoundTrip(names: seq<string>, limit: nat, t: Tuple, n: nat)
    requires TableOk(names) && TupleOk(t) && n <= limit
    ensures Parsed(names, limit, IabText(names, t, n)) == Some(First(t, n))
    ensures First(t, n) == t <==> t.i + t.nb <= Below(n)
  {
    var fs := Entries(names, t, n);
    EntriesRead(names, limit, t, n);
    assert First(t, n) == t <==> t.i + t.nb <= Below(n);
    hide Entries, AddEntries, Below, Split;
    if fs != [] {
      SplitJoin(fs, ',');
      JoinNotEmpty(fs);
    }
  }

  lemma JoinNotEmpty(fs: seq<string>)
    requires fs != [] && fs[0] != ""
    ensures Join(fs, ',') != ""
  {
  }

  // ---------- the code ----------

  class IAB {
    var i: Vector
    var a: Vector
    var nb: Vector

    function View(): Tuple
      reads this
    {
      Tuple(Listing(i), Listing(a), Listing(nb))
    }

    ghost predicate Valid()
      reads this
    {
      |i| == |a| == |nb| && TupleOk(View())
    }

    constructor (words: nat)
      ensures Valid() && |i| == words && View() == NOTHING
    {
      i, a, nb := seq(words, _ => 0), seq(words, _ => 0), seq(words, _ => 0);
      new;
      NothingListed(words);
    }

    /** Set values in one vector, stopping at the first that is out of range. */
    method SetVector(vec: Vec, raised: bool, vals: seq<nat>, maxValues: nat) returns (ok: bool)
      requires Valid() && maxValues <= 32 * |i|
      modifies this
      ensures Valid() && |i| == |old(i)|
      ensures (View(), ok) == SetAll(old(View()), vec, raised, vals, maxValues)
    {
      hide Listing;
      ghost var was := View();
      assert vals[0..] == vals;
      for n := 0 to |vals|
        invariant Valid() && |i| == |old(i)|
        invariant SetAll(was, vec, raised, vals, maxValues) == SetAll(View(), vec, raised, vals[n..], maxValues)
      {
        assert vals[n..][1..] == vals[n + 1..];
        if vals[n] >= maxValues {
          return false;
        }
        if vec == NoVec {
          return false;
        }
        SetBit(vec, raised, vals[n]);
      }
      ok := true;
    }

    method SetBit(vec: Vec, raised: bool, v: nat)
      requires Valid() && v < 32 * |i| && vec != NoVec
      modifies this
      ensures Valid() && |i| == |old(i)| && View() == SetOne(old(View()), vec, raised, v)
    {
      BothListings(i, v);
      BothListings(a, v);
      BothListings(nb, v);
      hide Listing, Raise, Lower;
      match vec {
        case Inh =>
          if raised {
            i := Raise(i, v);
          } else {
            i := Lower(i, v);
            a := Lower(a, v);
          }
        case Amb =>
          if raised {
            a := Raise(a, v);
            i := Raise(i, v);
          } else {
            a := Lower(a, v);
          }
        case Bound =>
          nb := if raised then Raise(nb, v) else Lower(nb, v);
      }
    }

    /** Fill one vector from one flag of a set. */
    method Fill(vec: Vec, c: Set, flag: Flag) returns (ok: bool)
      requires Valid() && |c.flat| == |i|
      modifies this
      ensures Valid() && |i| == |old(i)|
      ensures ok <==> vec != NoVec || |i| == 0
      ensures View() == Filled(old(View()), vec, Vals(c.flat, flag), 32 * |i|)
    {
      ghost var i0, a0, nb0, col := i, a, nb, Column(c.flat, flag);
      NoneFilled(i0, a0, nb0, vec, col);
      assert |col| == |i|;
      for j := 0 to |i|
        invariant vec == NoVec ==> j == 0
        invariant FilledTo(j, i0, a0, nb0, vec, col, i, a, nb)
      {
        hide FilledTo;
        if vec == NoVec {
          SameView(i0, a0, nb0, vec, col, i, a, nb);
          return false;
        }
        FillWord(vec, j, c.flat[j].Get(flag), i0, a0, nb0, col);
      }
      AllFilled(i0, a0, nb0, c.flat, flag, vec, i, a, nb);
      ok := true;
    }

    method FillWord(vec: Vec, j: nat, flat: Word, ghost i0: Vector, ghost a0: Vector, ghost nb0: Vector, ghost col: Vector)
      requires j < |col| == |i0| == |a0| == |nb0| && vec != NoVec && flat == col[j]
      requires FilledTo(j, i0, a0, nb0, vec, col, i, a, nb)
      modifies this
      ensures FilledTo(j + 1, i0, a0, nb0, vec, col, i, a, nb)
    {
      hide OrWord, AndWord, NotWord;
      match vec {
        case Inh =>
          i := i[j := flat];
          a := a[j := AndWord(a[j], flat)];
        case Amb =>
          a := a[j := flat];
          i := i[j := OrWord(i[j], flat)];
        case Bound =>
          nb := nb[j := NotWord(flat)];
      }
    }

    /** The text of the tuple. */
    method String(names: seq<string>, maxValues: nat) returns (text: string)
      requires Valid() && maxValues <= 32 * |i|
      ensures text == IabText(names, View(), maxValues)
    {
      var vs: seq<string> := [];
      for c := 0 to maxValues
        invariant vs == Entries(names, View(), c)
      {
        hide Has, NameOf;
        var inh, amb, blocked := Has(i, c), Has(a, c), Has(nb, c);
        var cs: string := "";
        if blocked {
          cs := cs + "!";
        }
        if amb {
          cs := cs + "^";
        } else if blocked && inh {
          cs := cs + "%";
        }
        assert cs == Marks(View(), c);
        if blocked || amb || inh {
          vs := vs + [cs + NameOf(names, c)];
        }
      }
      text := Join(vs, ',');
    }
  }

  lemma BothListings(x: Vector, v: nat)
    requires v < 32 * |x|
    ensures |Raise(x, v)| == |x| == |Lower(x, v)|
    ensures Listing(Raise(x, v)) == Listing(x) + {v} && Listing(Lower(x, v)) == Listing(x) - {v}
  {
    ListingRaise(x, v);
    ListingLower(x, v);
    RaiseLength(x, v);
  }

  /** The first j words are done, the others are as they were. */
  ghost predicate FilledTo(j: nat, i0: Vector, a0: Vector, nb0: Vector, vec: Vec, col: Vector, i: Vector, a: Vector, nb: Vector)
    requires |i0| == |a0| == |nb0| == |col|
  {
    && |i| == |a| == |nb| == |col| && j <= |col|
    && (forall k :: 0 <= k < j ==> i[k] == if vec == Inh then col[k] else if vec == Amb then OrWord(i0[k], col[k]) else i0[k])
    && (forall k :: 0 <= k < j ==> a[k] == if vec == Inh then AndWord(a0[k], col[k]) else if vec == Amb then col[k] else a0[k])
    && (forall k :: 0 <= k < j ==> nb[k] == if vec == Bound then NotWord(col[k]) else nb0[k])
    && i[j..] == i0[j..] && a[j..] == a0[j..] && nb[j..] == nb0[j..]
  }

  lemma NoneFilled(i0: Vector, a0: Vector, nb0: Vector, vec: Vec, col: Vector)
    requires |i0| == |a0| == |nb0| == |col|
    ensures FilledTo(0, i0, a0, nb0, vec, col, i0, a0, nb0)
  {
  }

  lemma AllFilled(i0: Vector, a0: Vector, nb0: Vector, flat: Flat, f: Flag, vec: Vec, i: Vector, a: Vector, nb: Vector)
    requires |i0| == |a0| == |nb0| == |flat|
    requires FilledTo(|flat|, i0, a0, nb0, vec, Column(flat, f), i, a, nb)
    ensures |i| == |a| == |nb| == |flat|
    ensures Tuple(Listing(i), Listing(a), Listing(nb)) ==
      Filled(Tuple(Listing(i0), Listing(a0), Listing(nb0)), vec, Vals(flat, f), 32 * |flat|)
  {
    var col := Column(flat, f);
    ColumnListing(flat, f);
    match vec {
      case Inh =>
        assert i == col && nb == nb0;
        ListingAnd(a0, col, a);
      case Amb =>
        assert a == col && nb == nb0;
        ListingOr(i0, col, i);
      case Bound =>
        assert i == i0 && a == a0;
        ListingNot(col, nb);
      case NoVec =>
        assert i == i0 && a == a0 && nb == nb0;
    }
  }

  /** Before the first word nothing has changed. */
  lemma SameView(i0: Vector, a0: Vector, nb0: Vector, vec: Vec, col: Vector, i: Vector, a: Vector, nb: Vector)
    requires |i0| == |a0| == |nb0| == |col| && FilledTo(0, i0, a0, nb0, vec, col, i, a, nb)
    ensures i == i0 && a == a0 && nb == nb0
  {
    assert i == i[0..] && a == a[0..] && nb == nb[0..] && i0 == i0[0..] && a0 == a0[0..] && nb0 == nb0[0..];
  }

  /** The flags that the marks of an entry raise, and where its name starts. */
  method ReadMarks(f: string) returns (i: bool, a: bool, nb: bool, j: nat)
    ensures j == MarksLen(f)
    ensures (nb <==> '!' in f[..j]) && (a <==> '^' in f[..j]) && (i <==> '^' in f[..j] || '%' in f[..j])
  {
    i, a, nb, j := false, false, false, 0;
    assert f[0..] == f;
    while j < |f| && IsMark(f[j])
      invariant j <= |f| && MarksLen(f) == j + MarksLen(f[j..])
      invariant nb <==> '!' in f[..j]
      invariant a <==> '^' in f[..j]
      invariant i <==> '^' in f[..j] || '%' in f[..j]
    {
      assert f[j..][1..] == f[j + 1..] && f[..j + 1] == f[..j] + [f[j]];
      match f[j] {
        case '!' => nb := true;
        case '^' => i, a := true, true;
        case _ => i := true;
      }
      j := j + 1;
    }
  }

  /** A new tuple for the text, or nothing when the text is bad. */
  method FromText(names: seq<string>, words: nat, text: string) returns (iab: IAB, ok: bool)
    ensures fresh(iab) && |iab.i| == words && iab.Valid()
    ensures ok <==> Parsed(names, 32 * words, text).Some?
    ensures ok ==> Parsed(names, 32 * words, text) == Some(iab.View())
  {
    iab := new IAB(words);
    if text == "" {
      return iab, true;
    }
    var fs := Split(text, ',');
    assert fs[..0] == [] && fs[..|fs|] == fs;
    hide Listing;
    for n := 0 to |fs|
      invariant fresh(iab) && |iab.i| == words && iab.Valid()
      invariant AddEntries(names, 32 * words, fs[..n]) == Some(iab.View())
    {
      assert fs[..n + 1][..n] == fs[..n] && fs[..n + 1][n] == fs[n];
      ok := TakeEntry(iab, names, fs[n]);
      if !ok {
        AddEntriesFail(names, 32 * words, fs, n + 1);
        return;
      }
    }
    ok := true;
  }

  lemma {:induction false} AddEntriesFail(names: seq<string>, limit: nat, fs: seq<string>, n: nat)
    requires n <= |fs| && AddEntries(names, limit, fs[..n]) == None
    ensures AddEntries(names, limit, fs) == None
    decreases |fs|
  {
    if n < |fs| {
      assert fs[..|fs| - 1][..n] == fs[..n];
      AddEntriesFail(names, limit, fs[..|fs| - 1], n);
    } else {
      assert fs[..n] == fs;
    }
  }

  method TakeEntry(iab: IAB, names: seq<string>, f: string) returns (ok: bool)
    requires iab.Valid()
    modifies iab
    ensures iab.Valid() && |iab.i| == |old(iab.i)|
    ensures ok <==> AddEntry(names, 32 * |iab.i|, old(iab.View()), f).Some?
    ensures ok ==> AddEntry(names, 32 * |iab.i|, old(iab.View()), f) == Some(iab.View())
  {
    var i, a, nb, j := ReadMarks(f);
    var v := GoText.FromName(names, 32 * |iab.i|, f[j..]);
    if v.None? {
      return false;
    }
    assert v.value < 32 * |iab.i|;
    BothListings(iab.i, v.value);
    BothListings(iab.a, v.value);
    BothListings(iab.nb, v.value);
    hide Listing, Raise, GoText.FromName, MarksLen;
    if i || !nb {
      iab.i := Raise(iab.i, v.value);
    }
    if a {
      iab.a := Raise(iab.a, v.value);
    }
    if nb {
      iab.nb := Raise(iab.nb, v.value);
    }
    ok := true;
  }

  // ---------- every sequence of calls ----------

  datatype Call = SetCall(vec: Vec, raised: bool, vals: seq<nat>) | FillCall(vec: Vec, column: set<nat>)

  /** A tuple after some calls; a call that fails part way keeps what it did before. */
  function After(t: Tuple, calls: seq<Call>, maxValues: nat, n: nat): Tuple
    decreases |calls|
  {
    if calls == [] then t
    else
      var t' := match calls[0]
        case SetCall(vec, raised, vals) => SetAll(t, vec, raised, vals, maxValues).0
        case FillCall(vec, column) => Filled(t, vec, column, n);
      After(t', calls[1..], maxValues, n)
  }

  /** However a tuple is made and changed, its ambient values are inheritable. */
  lemma {:induction false} AmbientWithinInheritable(t: Tuple, calls: seq<Call>, maxValues: nat, n: nat)
    requires TupleOk(t)
    ensures TupleOk(After(t, calls, maxValues, n))
    decreases |calls|
  {
    if calls != [] {
      var t' := match calls[0]
        case SetCall(vec, raised, vals) => SetAll(t, vec, raised, vals, maxValues).0
        case FillCall(vec, column) => Filled(t, vec, column, n);
      AmbientWithinInheritable(t', calls[1..], maxValues, n);
    }
  }

  // ---------- what calls and marks mean ----------

  /** What one call changes, vector by vector and value by value. */
  lemma SetMeans(t: Tuple, vec: Vec, raised: bool, v: nat, u: nat)
    ensures var t' := SetOne(t, vec, raised, v);
      && (u in t'.i <==> if u == v && vec == Inh then raised else u in t.i || (u == v && vec == Amb && raised))
      && (u in t'.a <==> if u == v && vec == Amb then raised else u in t.a && !(u == v && vec == Inh && !raised))
      && (u in t'.nb <==> if u == v && vec == Bound then raised else u in t.nb)
  {
  }

  /** Filling a vector copies the flag, or its complement for the blocked values; it takes
      ambient values away or adds inheritable ones, and nothing else. */
  lemma FillMeans(t: Tuple, vec: Vec, vals: set<nat>, n: nat, u: nat)
    requires u < n
    ensures var t' := Filled(t, vec, vals, n);
      && (u in t'.i <==> if vec == Inh then u in vals else u in t.i || (vec == Amb && u in vals))
      && (u in t'.a <==> if vec == Amb then u in vals else u in t.a && (vec == Inh ==> u in vals))
      && (u in t'.nb <==> if vec == Bound then u !in vals else u in t.nb)
  {
  }

  /** The tuple of one entry: inheritable without marks or with '%' or '^', ambient with '^',
      blocked with '!'. */
  function Entry(marks: string, v: nat): Tuple {
    Tuple(if '!' in marks && '^' !in marks && '%' !in marks then {} else {v},
          if '^' in marks then {v} else {}, if '!' in marks then {v} else {})
  }

  /** A single entry reads as that, whatever its marks, their order and their number. */
  lemma EntryMeans(names: seq<string>, limit: nat, marks: string, v: nat)
    requires TableOk(names) && v < limit
    requires forall k :: 0 <= k < |marks| ==> marks[k] == '!' || marks[k] == '^' || marks[k] == '%'
    ensures Parsed(names, limit, marks + NameOf(names, v)) == Some(Entry(marks, v))
  {
    var f := marks + NameOf(names, v);
    NamePlain(names, v);
    GoText.FromNameOf(names, limit, v);
    MarksLenOf(marks, NameOf(names, v));
    SplitWhole(f, ',');
    assert f[..|marks|] == marks && f[|marks|..] == NameOf(names, v);
    hide NameOf, MarksLen, Split, GoText.FromName;
    var fs: seq<string> := [f];
    assert fs[..0] == [];
    assert AddEntries(names, limit, []) == Some(NOTHING);
    assert AddMarked(NOTHING, marks, v) == Entry(marks, v);
  }

  /** The text of a tuple that mentions one value: its name after the marks that say how. */
  lemma TextOfOne(names: seq<string>, t: Tuple, v: nat, n: nat)
    requires TupleOk(t) && v < n && t.i + t.a + t.nb == {v}
    ensures IabText(names, t, n) ==
      (if v !in t.nb then (if v in t.a then "^" else "")
       else if v in t.a then "!^" else if v in t.i then "!%" else "!") + NameOf(names, v)
  {
    OneEntry(names, t, v, n);
    hide NameOf, Entries;
    assert "!" + "" == "!" && "!" + "^" == "!^" && "!" + "%" == "!%" && "" + "^" == "^";
  }

  /** Two mentioned values have their entries in order, with a comma between them. */
  lemma TextOfTwo(names: seq<string>, t: Tuple, u: nat, v: nat, n: nat)
    requires u < v < n && t.i + t.a + t.nb == {u, v}
    ensures IabText(names, t, n) == Marks(t, u) + NameOf(names, u) + "," + (Marks(t, v) + NameOf(names, v))
  {
    TwoEntries(names, t, u, v, n);
    hide NameOf, Entries, Marks;
    var e, f := Marks(t, u) + NameOf(names, u), Marks(t, v) + NameOf(names, v);
    assert [e, f][1..] == [f];
    assert Join([e, f], ',') == e + [','] + f;
  }

  lemma {:induction false} TwoEntries(names: seq<string>, t: Tuple, u: nat, v: nat, n: nat)
    requires u < v && t.i + t.a + t.nb == {u, v}
    ensures Entries(names, t, n) ==
      (if u < n then [Marks(t, u) + NameOf(names, u)] else []) + (if v < n then [Marks(t, v) + NameOf(names, v)] else [])
  {
    if n > 0 {
      TwoEntries(names, t, u, v, n - 1);
      hide NameOf, Marks;
      assert n - 1 in t.i + t.a + t.nb <==> n - 1 == u || n - 1 == v;
    }
  }

  lemma {:induction false} OneEntry(names: seq<string>, t: Tuple, v: nat, n: nat)
    requires t.i + t.a + t.nb == {v}
    ensures Entries(names, t, n) == if v < n then [Marks(t, v) + NameOf(names, v)] else []
  {
    if n > 0 {
      OneEntry(names, t, v, n - 1);
      hide NameOf, Marks;
      assert n - 1 in t.i + t.a + t.nb <==> n - 1 == v;
    }
  }

  /** Several values in one call: those before the first that is out of range are set, each as
      by a call of its own, and no others. */
  lemma {:induction false} SetAllMeans(t: Tuple, vec: Vec, raised: bool, vals: seq<nat>, maxValues: nat, u: nat)
    requires vec != NoVec
    ensures var t' := SetAll(t, vec, raised, vals, maxValues).0; var hit := u in vals[..FirstPast(vals, maxValues)];
      && (u in t'.i <==> if hit && vec == Inh then raised else u in t.i || (hit && vec == Amb && raised))
      && (u in t'.a <==> if hit && vec == Amb then raised else u in t.a && !(hit && vec == Inh && !raised))
      && (u in t'.nb <==> if hit && vec == Bound then raised else u in t.nb)
    decreases |vals|
  {
    var n := FirstPast(vals, maxValues);
    if vals != [] && vals[0] < maxValues {
      SetAllMeans(SetOne(t, vec, raised, vals[0]), vec, raised, vals[1..], maxValues, u);
      SetMeans(t, vec, raised, vals[0], u);
      assert n == 1 + FirstPast(vals[1..], maxValues);
      assert vals[..n] == [vals[0]] + vals[1..][..n - 1];
    } else {
      assert vals[..n] == [];
    }
  }
}
