/** Capability sets: for every capability value, which of the three flags it raises. */
module CapSet {
  import opened Bits
  import opened Words

  datatype Flag = Effective | Permitted | Inheritable

  /** Thirty-two capability values of each flag, as the kernel lays them out. */
  datatype Data = Data(eff: Word, per: Word, inh: Word) {
    function Get(f: Flag): Word {
      match f
      case Effective => eff
      case Permitted => per
      case Inheritable => inh
    }

    function Put(f: Flag, w: Word): Data {
      match f
      case Effective => this.(eff := w)
      case Permitted => this.(per := w)
      case Inheritable => this.(inh := w)
    }
  }

  type Flat = seq<Data>

  const BLANK := Data(0, 0, 0)

  /** The flags that one capability value raises. */
  datatype Pat = Pat(e: bool, p: bool, i: bool) {
    function Get(f: Flag): bool {
      match f
      case Effective => e
      case Permitted => p
      case Inheritable => i
    }

    function Put(f: Flag, b: bool): Pat {
      match f
      case Effective => this.(e := b)
      case Permitted => this.(p := b)
      case Inheritable => this.(i := b)
    }
  }

  const LOWERED := Pat(false, false, false)

  /** A capability set by value: entry v holds the flags of capability value v. */
  type Caps = seq<Pat>

  predicate Raised(flat: Flat, f: Flag, v: nat) {
    v < 32 * |flat| && Bit(flat[v / 32].Get(f), v % 32)
  }

  /** The values that a flag raises. */
  function Vals(flat: Flat, f: Flag): (vs: set<nat>)
    ensures forall v: nat :: v in vs <==> Raised(flat, f, v)
  {
    set v: nat | v < 32 * |flat| && Raised(flat, f, v)
  }

  function PatAt(flat: Flat, v: nat): Pat {
    Pat(Raised(flat, Effective, v), Raised(flat, Permitted, v), Raised(flat, Inheritable, v))
  }

  function ViewOf(flat: Flat): Caps {
    seq(32 * |flat|, v requires 0 <= v => PatAt(flat, v))
  }

  function Empty(n: nat): Caps {
    seq(n, _ => LOWERED)
  }

  /** The set in which the listed values have one flag set to `enable`. */
  function WithFlag(caps: Caps, f: Flag, enable: bool, vals: seq<nat>): Caps {
    seq(|caps|, v requires 0 <= v < |caps| => if v in vals then caps[v].Put(f, enable) else caps[v])
  }

  /** The set in which one flag holds `enable` for the first `named` values and is lowered
      for the others. */
  function WithAll(caps: Caps, f: Flag, enable: bool, named: nat): Caps {
    seq(|caps|, v requires 0 <= v < |caps| => caps[v].Put(f, enable && v < named))
  }

  /** Two flats of the same length with the same flags everywhere are the same. */
  lemma FlatExt(a: Flat, b: Flat)
    requires |a| == |b| && ViewOf(a) == ViewOf(b)
    ensures a == b
  {
    hide Bit;
    forall i | 0 <= i < |a|
      ensures a[i] == b[i]
    {
      forall k | 0 <= k < 32
        ensures Bit(a[i].eff, k) <==> Bit(b[i].eff, k)
        ensures Bit(a[i].per, k) <==> Bit(b[i].per, k)
        ensures Bit(a[i].inh, k) <==> Bit(b[i].inh, k)
      {
        var v := 32 * i + k;
        assert ViewOf(a)[v] == ViewOf(b)[v];
        assert PatAt(a, v) == PatAt(b, v);
      }
      WordExt(a[i].eff, b[i].eff);
      WordExt(a[i].per, b[i].per);
      WordExt(a[i].inh, b[i].inh);
    }
  }

  /** The mask of the named values in one word. */
  function AllMask(index: nat, maxValues: nat): Word {
    var base := 32 * index;
    if maxValues <= base then 0
    else if maxValues >= 32 + base then ALL
    else LowMask(maxValues % 32)
  }

  lemma BitAllMask(index: nat, maxValues: nat, k: nat)
    requires k < 32
    ensures Bit(AllMask(index, maxValues), k) <==> 32 * index + k < maxValues
  {
    hide Bit, Pow2;
    WordBits();
    BitOfZero(k);
    BitOfPow2(32, k);
    BitOfPow2(maxValues % 32, k);
  }

  /** How a change of listed values ends: done, refused, or with an index out of bounds. */
  datatype Outcome = Stored | Refused | OutOfBounds

  /** The place of the first value in a list that is not below a limit. */
  function FirstPast(vals: seq<nat>, limit: nat): (n: nat)
    ensures n <= |vals| && (n < |vals| ==> vals[n] >= limit)
    ensures forall i :: 0 <= i < n ==> vals[i] < limit
  {
    if vals == [] || vals[0] >= limit then 0 else 1 + FirstPast(vals[1..], limit)
  }

  lemma FirstPastIs(vals: seq<nat>, limit: nat, n: nat)
    requires n < |vals| && n <= FirstPast(vals, limit)
    ensures vals[n] >= limit <==> n == FirstPast(vals, limit)
  {
  }

  lemma FirstPastNone(vals: seq<nat>, limit: nat)
    requires forall v :: v in vals ==> v < limit
    ensures FirstPast(vals, limit) == |vals| && vals[..|vals|] == vals
  {
    forall i | 0 <= i < |vals|
      ensures vals[i] < limit
    {
      assert vals[i] in vals;
    }
  }

  lemma WithOneMore(caps: Caps, f: Flag, enable: bool, vals: seq<nat>, n: nat)
    requires n < |vals| && vals[n] < |caps|
    ensures var c := WithFlag(caps, f, enable, vals[..n]);
      WithFlag(caps, f, enable, vals[..n + 1]) == c[vals[n] := c[vals[n]].Put(f, enable)]
  {
    assert vals[..n + 1] == vals[..n] + [vals[n]];
  }

  lemma FirstPastOne(v: nat, limit: nat)
    requires v < limit
    ensures FirstPast([v], limit) == 1 && [v][..1] == [v]
  {
  }

  class Set {
    var flat: Flat
    var nsRoot: int

    function View(): Caps
      reads this
    {
      ViewOf(flat)
    }

    constructor (words: nat)
      ensures |flat| == words && View() == Empty(32 * words) && nsRoot == 0
    {
      flat := seq(words, _ => BLANK);
      nsRoot := 0;
      new;
      BlankView(flat);
    }

    /** Lower everything. */
    method Clear()
      modifies this
      ensures |flat| == |old(flat)| && View() == Empty(32 * |flat|) && nsRoot == 0
    {
      flat := seq(|flat|, _ => BLANK);
      nsRoot := 0;
      BlankView(flat);
    }

    /** Set one flag of the listed values, or change nothing when a value is out of range. The
        range test of the code lets the value just past the end through, and the next line
        indexes out of bounds with what was stored so far: exactly when that value is the first
        in the list that is not in range. */
    method SetFlag(vec: Flag, enable: bool, vals: seq<nat>) returns (done: Outcome)
      modifies this`flat
      ensures |flat| == |old(flat)|
      ensures var n := FirstPast(vals, 32 * |flat|);
        && (done == Stored <==> n == |vals|)
        && (done == OutOfBounds <==> n < |vals| && vals[n] == 32 * |flat|)
        && (done == Refused ==> flat == old(flat))
        && (done != Refused ==> View() == WithFlag(old(View()), vec, enable, vals[..n]))
    {
      hide Bit, Or, And, Pow2, PatAt, FirstPast;
      var replace := seq(|flat|, i requires 0 <= i < |flat| reads this => flat[i].Get(vec));
      ghost var was := flat;
      assert WithFlag(ViewOf(was), vec, enable, vals[..0]) == ViewOf(was);
      hide WithFlag;
      done := Stored;
      for n := 0 to |vals|
        invariant |flat| == |was| && n <= FirstPast(vals, 32 * |flat|)
        invariant forall i :: 0 <= i < |flat| ==> flat[i].Put(vec, was[i].Get(vec)) == was[i]
        invariant View() == WithFlag(ViewOf(was), vec, enable, vals[..n])
      {
        var v := vals[n];
        FirstPastIs(vals, 32 * |flat|, n);
        if v > 32 * |flat| {
          done := Refused;
          break;
        }
        if v / 32 == |flat| {
          return OutOfBounds;
        }
        StoreView(flat, vec, v, enable);
        WithOneMore(ViewOf(was), vec, enable, vals, n);
        var w := flat[v / 32].Get(vec);
        var mask := BitMask(v % 32);
        flat := flat[v / 32 := flat[v / 32].Put(vec, if enable then OrWord(w, mask) else AndWord(w, NotWord(mask)))];
      }
      if done == Refused {
        RollBack(vec, replace, was);
      }
    }

    /** Put one flag back as it was. */
    method RollBack(vec: Flag, replace: seq<Word>, ghost was: Flat)
      requires |flat| == |was| == |replace| && forall j :: 0 <= j < |was| ==> replace[j] == was[j].Get(vec)
      requires forall j :: 0 <= j < |flat| ==> flat[j].Put(vec, was[j].Get(vec)) == was[j]
      modifies this`flat
      ensures flat == was
    {
      for i := 0 to |replace|
        invariant |flat| == |was|
        invariant forall j :: 0 <= j < i ==> flat[j] == was[j]
        invariant forall j :: i <= j < |flat| ==> flat[j].Put(vec, was[j].Get(vec)) == was[j]
      {
        flat := flat[i := flat[i].Put(vec, replace[i])];
      }
    }

    /** Set one flag of every named value. */
    method ForceFlag(vec: Flag, enable: bool, maxValues: nat)
      modifies this`flat
      ensures |flat| == |old(flat)| && View() == WithAll(old(View()), vec, enable, maxValues)
    {
      var m: Word := if enable then ALL else 0;
      ghost var was := flat;
      for i := 0 to |flat|
        invariant |flat| == |was|
        invariant forall j :: 0 <= j < i ==> flat[j] == was[j].Put(vec, AndWord(m, AllMask(j, maxValues)))
        invariant forall j :: i <= j < |flat| ==> flat[j] == was[j]
      {
        flat := flat[i := flat[i].Put(vec, AndWord(m, AllMask(i, maxValues)))];
      }
      ForcedView(was, flat, vec, enable, maxValues);
    }

    /** Lower one flag of every value. */
    method ClearFlag(vec: Flag)
      modifies this`flat
      ensures |flat| == |old(flat)| && Vals(flat, vec) == {}
      ensures forall f :: f != vec ==> Vals(flat, f) == Vals(old(flat), f)
    {
      ghost var was := flat;
      ForceFlag(vec, false, 0);
      ClearedFlag(was, flat, vec);
    }
  }

  lemma BlankView(flat: Flat)
    requires forall i :: 0 <= i < |flat| ==> flat[i] == BLANK
    ensures ViewOf(flat) == Empty(32 * |flat|)
  {
    hide Bit;
    forall v | 0 <= v < 32 * |flat|
      ensures PatAt(flat, v) == LOWERED
    {
      BitOfZero(v % 32);
    }
  }

  /** Or-ing in or masking out one bit changes one flag of one value. */
  lemma StoreView(flat: Flat, f: Flag, v: nat, enable: bool)
    requires v < 32 * |flat|
    ensures
      var w, mask := flat[v / 32].Get(f), BitMask(v % 32);
      var w' := if enable then OrWord(w, mask) else AndWord(w, NotWord(mask));
      ViewOf(flat[v / 32 := flat[v / 32].Put(f, w')]) == ViewOf(flat)[v := ViewOf(flat)[v].Put(f, enable)]
  {
    var w, mask := flat[v / 32].Get(f), BitMask(v % 32);
    var w' := if enable then OrWord(w, mask) else AndWord(w, NotWord(mask));
    var flat' := flat[v / 32 := flat[v / 32].Put(f, w')];
    hide Bit, Or, And, Pow2;
    forall u | 0 <= u < 32 * |flat|
      ensures PatAt(flat', u) == if u == v then PatAt(flat, v).Put(f, enable) else PatAt(flat, u)
    {
      if u / 32 == v / 32 {
        BitOr(w, mask, u % 32);
        BitAnd(w, NotWord(mask), u % 32);
        BitNot(mask, u % 32);
        BitOfPow2(v % 32, u % 32);
      }
    }
  }

  lemma ForcedView(was: Flat, flat: Flat, f: Flag, enable: bool, maxValues: nat)
    requires |flat| == |was|
    requires forall j :: 0 <= j < |flat| ==>
      flat[j] == was[j].Put(f, AndWord(if enable then ALL else 0, AllMask(j, maxValues)))
    ensures ViewOf(flat) == WithAll(ViewOf(was), f, enable, maxValues)
  {
    hide Bit, And, AllMask;
    forall v | 0 <= v < 32 * |flat|
      ensures PatAt(flat, v) == PatAt(was, v).Put(f, enable && v < maxValues)
    {
      BitAnd(if enable then ALL else 0, AllMask(v / 32, maxValues), v % 32);
      BitAllMask(v / 32, maxValues, v % 32);
      BitOfZero(v % 32);
      BitOfAll(v % 32);
    }
  }

  lemma BitOfAll(k: nat)
    requires k < 32
    ensures Bit(ALL, k)
  {
    BitOfPow2(32, k);
    WordBits();
  }

  /** One flag of a set as a vector. */
  function Column(flat: Flat, f: Flag): Vector {
    seq(|flat|, j requires 0 <= j < |flat| => flat[j].Get(f))
  }

  lemma ColumnListing(flat: Flat, f: Flag)
    ensures Listing(Column(flat, f)) == Vals(flat, f)
  {
    hide Bit;
    forall v: nat
      ensures Has(Column(flat, f), v) <==> Raised(flat, f, v)
    {
    }
    HasInRange(Column(flat, f));
  }

  lemma FlagNonZero(flat: Flat, f: Flag)
    ensures Vals(flat, f) != {} <==> exists m :: 0 <= m < |flat| && flat[m].Get(f) != 0
  {
    ColumnListing(flat, f);
    NonZero(Column(flat, f));
    hide Listing, Vals;
    assert forall m :: 0 <= m < |flat| ==> Column(flat, f)[m] == flat[m].Get(f);
  }

  lemma ClearedFlag(was: Flat, flat: Flat, vec: Flag)
    requires |flat| == |was| && ViewOf(flat) == WithAll(ViewOf(was), vec, false, 0)
    ensures Vals(flat, vec) == {}
    ensures forall f :: f != vec ==> Vals(flat, f) == Vals(was, f)
  {
    hide Bit;
    forall f, v: nat
      ensures Raised(flat, f, v) <==> f != vec && Raised(was, f, v)
    {
      if v < 32 * |flat| {
        assert ViewOf(flat)[v] == PatAt(flat, v) && ViewOf(was)[v] == PatAt(was, v);
        assert PatAt(flat, v) == PatAt(was, v).Put(vec, false);
        assert Raised(flat, f, v) <==> PatAt(flat, v).Get(f);
        assert Raised(was, f, v) <==> PatAt(was, v).Get(f);
      }
    }
    hide Raised;
    forall f | f != vec
      ensures Vals(flat, f) == Vals(was, f)
    {
    }
  }
}
