/** The psx thread map: an open table with one slot per hash value and no probing. A new
    thread whose slot is taken makes the table double until the two hash values part. */
module PsxMap {
  import opened Bits
  import opened PsxHash

  /** One table entry; tid 0 marks an empty slot. */
  datatype ThreadRef = ThreadRef(sweep: int, pending: bool, tid: nat, retval: int)

  const EMPTY := ThreadRef(0, false, 0, 0)

  /** Thread ids are positive and below a power of two that the system fixes. */
  ghost predicate IsTid(tid: nat, width: nat) {
    0 < tid < Pow2(width)
  }

  type Refs = map<nat, ThreadRef>

  /** The entries that survive a growth: those of this sweep or the previous one. */
  function Recent(refs: Refs, sweep: int): Refs {
    map t | t in refs && refs[t].sweep >= sweep - 1 :: refs[t]
  }

  function Fresh(tid: nat): ThreadRef {
    ThreadRef(0, true, tid, 0)
  }

  /** Every entry sits in the slot of its own thread id. */
  ghost predicate Placed(s: seq<ThreadRef>, bits: nat) {
    && |s| == Pow2(bits)
    && forall i :: 0 <= i < |s| ==>
         if s[i].tid == 0 then s[i] == EMPTY else i == Low(Mix(s[i].tid), bits)
  }

  ghost function Tids(s: seq<ThreadRef>): set<nat> {
    set i | 0 <= i < |s| && s[i].tid != 0 :: s[i].tid
  }

  /** The table as a map from thread ids to their entries. */
  ghost function Tracked(s: seq<ThreadRef>, bits: nat): (refs: Refs)
    requires Placed(s, bits)
    ensures forall t :: t in refs <==> t != 0 && s[Low(Mix(t), bits)].tid == t
    ensures forall t :: t in refs ==> refs[t] == s[Low(Mix(t), bits)]
  {
    map t | t in Tids(s) :: s[Low(Mix(t), bits)]
  }

  lemma StoreTracked(s: seq<ThreadRef>, bits: nat, i: nat, r: ThreadRef)
    requires Placed(s, bits) && i < |s|
    requires r.tid != 0 && i == Low(Mix(r.tid), bits)
    requires s[i].tid == 0 || s[i].tid == r.tid
    ensures Placed(s[i := r], bits)
    ensures Tracked(s[i := r], bits) == Tracked(s, bits)[r.tid := r]
  {
    hide Mix, MixBy, Low, And, Xor;
  }

  /** The slot that the code computes is the slot that placement means. */
  lemma SlotOf(tid: nat, bits: nat)
    ensures And(Mix(tid), Pow2(bits) - 1) == Low(Mix(tid), bits) < Pow2(bits)
  {
    AndMask(Mix(tid), bits);
  }

  /** Double a table size until two hash values part. */
  method Widen(oval: nat, mix: nat, entries: nat, ghost bits: nat, ghost width: nat)
    returns (size: nat, ghost wider: nat)
    requires entries == Pow2(bits) && bits <= width
    requires Low(oval, width) != Low(mix, width)
    ensures bits <= wider <= width && size == Pow2(wider)
    ensures And(Xor(oval, mix), size - 1) != 0
    ensures Low(oval, wider) != Low(mix, wider)
    ensures forall k :: bits <= k < wider ==> Low(oval, k) == Low(mix, k)
  {
    hide Mix, MixBy, Low, And, Xor;
    size, wider := entries, bits;
    MaskedXor(oval, mix, wider);
    while And(Xor(oval, mix), size - 1) == 0
      invariant bits <= wider <= width && size == Pow2(wider)
      invariant And(Xor(oval, mix), size - 1) == 0 <==> Low(oval, wider) == Low(mix, wider)
      invariant forall k :: bits <= k < wider ==> Low(oval, k) == Low(mix, k)
      decreases width - wider
    {
      size, wider := size * 2, wider + 1;
      MaskedXor(oval, mix, wider);
    }
  }

  /** Copy the recent entries of one table to their slots in another, empty one. */
  method CopyRecent(prior: array<ThreadRef>, table: array<ThreadRef>, mask: nat, ghost bits: nat, sweep: int)
    requires prior != table && table.Length == Pow2(bits) == mask + 1
    requires forall i :: 0 <= i < table.Length ==> table[i] == EMPTY
    modifies table
    ensures table[..] == Carried(old(prior[..]), bits, sweep)
  {
    hide Mix, MixBy, Low, And, Xor;
    ghost var was := prior[..];
    for i := 0 to prior.Length
      invariant table[..] == Carried(was[..i], bits, sweep)
      invariant prior[..] == was
    {
      var y := prior[i];
      assert was[..i + 1][..i] == was[..i] && was[..i + 1][i] == y;
      if y.sweep >= sweep - 1 {
        SlotOf(y.tid, bits);
        table[And(Mix(y.tid), mask)] := y;
      }
    }
    assert was[..prior.Length] == was;
  }

  class ThreadMap {
    var entries: nat
    var mask: nat
    var table: array<ThreadRef>
    ghost var bits: nat
    ghost const width: nat

    /** The table never outgrows the range of thread ids, so its size stays a C int. */
    ghost predicate Valid()
      reads this, table
    {
      && bits <= width <= 30
      && entries == table.Length == mask + 1
      && Placed(table[..], bits)
      && forall t :: t in Tracked(table[..], bits) ==> IsTid(t, width)
    }

    ghost function Contents(): Refs
      reads this, table
      requires Valid()
    {
      Tracked(table[..], bits)
    }

    constructor (ghost width: nat)
      requires 8 <= width <= 30
      ensures this.width == width && Valid() && fresh(table) && Contents() == map[]
    {
      var t := new ThreadRef[256](_ => EMPTY);
      entries, mask, table, bits := 256, 255, t, 8;
      this.width := width;
      new;
      assert Pow2(8) == 256;
    }

    /** Forget every thread, as the start of a psx call does. */
    method Clear()
      requires Valid()
      modifies table
      ensures Valid() && Contents() == map[]
    {
      for i := 0 to table.Length
        invariant forall j :: 0 <= j < i ==> table[j] == EMPTY
      {
        table[i] := EMPTY;
      }
    }

    /** No thread sits in the slot of this id. */
    ghost predicate SlotFree(tid: nat)
      reads this, table
      requires Valid()
    {
      table[Low(Mix(tid), bits)] == EMPTY
    }

    /** Look up a listed thread: whether it has an entry, and if not, whether another thread
        sits in its slot. */
    method Find(tid: nat) returns (known: bool, taken: bool)
      requires Valid() && IsTid(tid, width)
      ensures known <==> tid in Contents()
      ensures taken <==> !known && !SlotFree(tid)
    {
      hide Mix, MixBy, Low, And, Xor;
      SlotOf(tid, bits);
      var x := And(Mix(tid), mask);
      known := table[x].tid == tid;
      taken := !known && table[x].tid != 0;
    }

    /** Replace the table by one in which `tid` and the entry in its slot part, carrying
        over the entries of this sweep and the previous one. */
    method Grow(tid: nat, sweep: int)
      requires Valid() && IsTid(tid, width) && tid !in Contents() && sweep >= 2
      requires !SlotFree(tid)
      modifies this
      ensures Valid() && fresh(table)
      ensures Contents() == Recent(old(Contents()), sweep)
      ensures SlotFree(tid)
    {
      hide Mix, MixBy, Low, And, Xor, Carried, Tids;
      ghost var old_bits := bits;
      SlotOf(tid, bits);
      var mix := Mix(tid);
      var other := table[And(mix, mask)].tid;
      DistinctSlots(tid, other, width);
      var size, wider := Widen(Mix(other), mix, entries, bits, width);
      var prior := table;
      var was := table[..];
      entries, mask, bits := size, size - 1, wider;
      table := new ThreadRef[size](_ => EMPTY);
      CopyRecent(prior, table, size - 1, wider, sweep);
      CarriedTracks(was, old_bits, wider, sweep);
      NewSlotIsFree(was, old_bits, wider, sweep, tid);
    }

    /** A new entry, about to be signalled. */
    method Register(tid: nat)
      requires Valid() && IsTid(tid, width) && SlotFree(tid)
      modifies table
      ensures Valid()
      ensures tid !in old(Contents())
      ensures Contents() == old(Contents())[tid := Fresh(tid)]
    {
      hide Mix, MixBy, Low, And, Xor;
      SlotOf(tid, bits);
      var x := And(Mix(tid), mask);
      StoreTracked(table[..], bits, x, Fresh(tid));
      table[x] := table[x].(pending := true, tid := tid);
    }

    /** Note that this sweep saw the thread, and read what its actor has reported. */
    method Count(tid: nat, sweep: int) returns (pending: bool, retval: int)
      requires Valid() && tid in Contents()
      modifies table
      ensures Valid()
      ensures Contents() == old(Contents())[tid := old(Contents())[tid].(sweep := sweep)]
      ensures pending == old(Contents())[tid].pending && retval == old(Contents())[tid].retval
    {
      hide Mix, MixBy, Low, And, Xor;
      SlotOf(tid, bits);
      var x := And(Mix(tid), mask);
      StoreTracked(table[..], bits, x, table[x].(sweep := sweep));
      table[x] := table[x].(sweep := sweep);
      pending, retval := table[x].pending, table[x].retval;
    }

    /** The actor's report. The code writes to the slot without looking whose it is. A slot
        that a growth has just freed stays free. */
    method Report(tid: nat, retval: int)
      requires Valid() && tid in Contents()
      modifies table
      ensures Valid()
      ensures Contents() == old(Contents())[tid := old(Contents())[tid].(retval := retval, pending := false)]
      ensures forall other :: SlotFree(other) <==> old(SlotFree(other))
    {
      hide Mix, MixBy, Low, And, Xor;
      SlotOf(tid, bits);
      var x := And(Mix(tid), mask);
      StoreTracked(table[..], bits, x, table[x].(retval := retval, pending := false));
      table[x] := table[x].(retval := retval, pending := false);
    }
  }

  /** What the copy loop of a growth leaves in a fresh table of the given width. */
  ghost function Carried(was: seq<ThreadRef>, bits: nat, sweep: int): (s: seq<ThreadRef>)
    ensures |s| == Pow2(bits)
  {
    if was == [] then seq(Pow2(bits), _ => EMPTY)
    else
      var rest := Carried(was[..|was| - 1], bits, sweep);
      var y := was[|was| - 1];
      if y.sweep >= sweep - 1 then rest[Low(Mix(y.tid), bits) := y] else rest
  }

  /** A wider table keeps its entries apart, so nothing recent is lost or displaced. */
  lemma CarriedTracks(was: seq<ThreadRef>, bits: nat, wider: nat, sweep: int)
    requires Placed(was, bits) && bits <= wider && sweep >= 2
    ensures Placed(Carried(was, wider, sweep), wider)
    ensures Tracked(Carried(was, wider, sweep), wider) == Recent(Tracked(was, bits), sweep)
  {
    hide Mix, MixBy, Low, And, Xor;
    assert was[..|was|] == was;
    CarriedSlots(was, bits, wider, sweep, |was|);
    var s := Carried(was, wider, sweep);
    forall t | t in Recent(Tracked(was, bits), sweep)
      ensures t in Tracked(s, wider) && Tracked(s, wider)[t] == Tracked(was, bits)[t]
    {
      assert Holds(s, wider, was[Low(Mix(t), bits)]);
    }
  }

  ghost predicate Holds(s: seq<ThreadRef>, bits: nat, y: ThreadRef)
    requires |s| == Pow2(bits)
  {
    s[Low(Mix(y.tid), bits)] == y
  }

  lemma {:induction false} CarriedSlots(was: seq<ThreadRef>, bits: nat, wider: nat, sweep: int, n: nat)
    requires Placed(was, bits) && bits <= wider && sweep >= 2 && n <= |was|
    ensures Placed(Carried(was[..n], wider, sweep), wider)
    ensures forall i :: 0 <= i < n && was[i].sweep >= sweep - 1 ==> Holds(Carried(was[..n], wider, sweep), wider, was[i])
    ensures forall k :: 0 <= k < Pow2(wider) && Carried(was[..n], wider, sweep)[k] != EMPTY ==>
              exists i :: 0 <= i < n && was[i].sweep >= sweep - 1 && was[i] == Carried(was[..n], wider, sweep)[k]
  {
    hide Mix, MixBy, Low, And, Xor;
    if n > 0 {
      CarriedSlots(was, bits, wider, sweep, n - 1);
      assert was[..n][..n - 1] == was[..n - 1];
      var y := was[n - 1];
      var rest := Carried(was[..n - 1], wider, sweep);
      if y.sweep >= sweep - 1 {
        forall i | 0 <= i < n - 1 && was[i].sweep >= sweep - 1
          ensures Low(Mix(was[i].tid), wider) != Low(Mix(y.tid), wider)
        {
          if Low(Mix(was[i].tid), wider) == Low(Mix(y.tid), wider) {
            WiderMaskRefines(Mix(was[i].tid), Mix(y.tid), bits, wider);
            assert false;
          }
          assert Holds(rest, wider, was[i]);
        }
      }
    }
  }

  /** Growing frees the slot of the new thread: whatever shared it before has moved. */
  lemma NewSlotIsFree(was: seq<ThreadRef>, bits: nat, wider: nat, sweep: int, tid: nat)
    requires Placed(was, bits) && bits <= wider && sweep >= 2
    requires tid !in Tracked(was, bits)
    requires Low(Mix(was[Low(Mix(tid), bits)].tid), wider) != Low(Mix(tid), wider)
    ensures Carried(was, wider, sweep)[Low(Mix(tid), wider)] == EMPTY
  {
    hide Mix, MixBy, Low, And, Xor;
    assert was[..|was|] == was;
    CarriedSlots(was, bits, wider, sweep, |was|);
    var s := Carried(was, wider, sweep);
    var y := s[Low(Mix(tid), wider)];
    if y != EMPTY {
      WiderMaskRefines(Mix(y.tid), Mix(tid), bits, wider);
      assert false;
    }
  }
}
