/** Applying a tuple of inheritable vectors to the process: an ordered run of system calls. */
module Privilege {
  import opened Bits
  import opened Words
  import opened CapSet
  import opened Strings
  import opened Kernel
  import opened IabTuple

  // ---------- when it works ----------

  /** Some inheritable value of the tuple is neither inheritable nor permitted yet. */
  predicate Newly(s: Proc, t: Tuple) {
    !(t.i <= s.I() + s.P())
  }

  /** Some blocked value of the tuple is still in the bounding set. */
  predicate Drops(s: Proc, t: Tuple) {
    t.nb * s.bset != {}
  }

  /** The tuple can be applied: what is inheritable comes from the bounding set and, unless SETPCAP
      was effective before the call, from the inheritable and permitted sets; what needs SETPCAP
      finds it permitted; and every ambient value may be raised. */
  predicate Applicable(k: Config, s: Proc, t: Tuple) {
    var i, a := t.i * Below(k.values), t.a * Below(k.values);
    && (i <= s.I() + s.P() || SETPCAP in s.E())
    && i <= s.I() + s.bset
    && (Newly(s, t) || Drops(s, t) ==> SETPCAP in s.P())
    && a <= s.P()
    && (a != {} ==> k.ambient && !s.sec.noAmbientRaise)
  }

  /** The process after the tuple is applied. */
  ghost predicate Applied(k: Config, s: Proc, t: Tuple, s': Proc) {
    && s'.I() == t.i * Below(k.values)
    && s'.amb == t.a * Below(k.values)
    && s'.bset == s.bset - t.nb
    && s'.P() == s.P() && s'.E() == s.E() && s'.sec == s.sec
  }

  /** What even a failed application leaves alone. */
  ghost predicate Spared(k: Config, s: Proc, t: Tuple, s': Proc) {
    && s'.P() == s.P() && s'.E() == s.E() && s'.sec == s.sec
    && (s' == s || s'.I() == t.i * Below(k.values)) && s'.bset <= s.bset && s.bset - t.nb <= s'.bset
  }

  // ---------- looking first ----------

  /** The set to leave behind, and whether SETPCAP must be raised for it. */
  method NewInheritable(ps: Process, iab: IAB) returns (temp: Set, raising: bool, blocking: bool)
    requires ProcOk(ps.k, ps.proc) && iab.Valid() && |iab.i| == ps.k.words
    ensures fresh(temp) && |temp.flat| == ps.k.words
    ensures Vals(temp.flat, Effective) == ps.proc.E() && Vals(temp.flat, Permitted) == ps.proc.P()
    ensures Vals(temp.flat, Inheritable) == iab.View().i
    ensures raising <==> Newly(ps.proc, iab.View())
    ensures blocking <==> iab.View().nb != {}
  {
    temp := ps.GetProc();
    ghost var was := temp.flat;
    raising, blocking := false, false;
    for j := 0 to ps.k.words
      invariant |temp.flat| == |was|
      invariant forall m :: 0 <= m < j ==> temp.flat[m] == was[m].(inh := iab.i[m])
      invariant forall m :: j <= m < |was| ==> temp.flat[m] == was[m]
      invariant raising <==> exists m :: 0 <= m < j && Beyond(iab.i[m], was[m]) != 0
      invariant blocking <==> exists m :: 0 <= m < j && iab.nb[m] != 0
    {
      hide Beyond, Vals, Listing;
      raising := raising || Beyond(iab.i[j], temp.flat[j]) != 0;
      if iab.nb[j] != 0 {
        blocking := true;
      }
      temp.flat := temp.flat[j := temp.flat[j].(inh := iab.i[j])];
    }
    ReplacedColumn(was, iab.i, temp.flat);
    BeyondIsNewly(was, iab.i);
    NonZero(iab.nb);
    hide Beyond, Vals, Listing;
  }

  /** The values of a new inheritable word that are in neither old word. */
  function Beyond(newI: Word, d: Data): Word {
    AndWord(newI, NotWord(OrWord(d.inh, d.per)))
  }

  lemma ReplacedColumn(was: Flat, i: Vector, flat: Flat)
    requires |was| == |i| == |flat| && forall m :: 0 <= m < |was| ==> flat[m] == was[m].(inh := i[m])
    ensures Vals(flat, Effective) == Vals(was, Effective) && Vals(flat, Permitted) == Vals(was, Permitted)
    ensures Vals(flat, Inheritable) == Listing(i)
  {
    hide Bit;
    forall v: nat
      ensures Raised(flat, Effective, v) <==> Raised(was, Effective, v)
      ensures Raised(flat, Permitted, v) <==> Raised(was, Permitted, v)
      ensures Raised(flat, Inheritable, v) <==> Has(i, v)
    {
    }
    HasInRange(i);
  }

  lemma BeyondIsNewly(was: Flat, i: Vector)
    requires |was| == |i|
    ensures (exists m :: 0 <= m < |was| && Beyond(i[m], was[m]) != 0) <==>
      !(Listing(i) <= Vals(was, Inheritable) + Vals(was, Permitted))
  {
    var over: Vector := seq(|was|, m requires 0 <= m < |was| => Beyond(i[m], was[m]));
    NonZero(over);
    hide Bit, And, Or, NotWord;
    forall v: nat
      ensures Has(over, v) <==> Has(i, v) && !Raised(was, Inheritable, v) && !Raised(was, Permitted, v)
    {
      if v < 32 * |i| {
        var d := was[v / 32];
        BitAnd(i[v / 32], NotWord(OrWord(d.inh, d.per)), v % 32);
        BitNot(OrWord(d.inh, d.per), v % 32);
        BitOr(d.inh, d.per, v % 32);
      }
    }
    OverIsDifference(over, was, i);
    hide Listing, Vals, Beyond;
    assert forall m :: 0 <= m < |was| ==> over[m] == Beyond(i[m], was[m]);
    var old' := Vals(was, Inheritable) + Vals(was, Permitted);
    NothingLeft(Listing(i), old');
    assert (exists m :: 0 <= m < |was| && Beyond(i[m], was[m]) != 0) <==> exists m :: 0 <= m < |over| && over[m] != 0;
  }

  lemma NothingLeft(a: set<nat>, b: set<nat>)
    ensures a - b == {} <==> a <= b
  {
    if a - b == {} {
      forall v | v in a
        ensures v in b
      {
        assert v !in a - b;
      }
    }
  }

  lemma OverIsDifference(over: Vector, was: Flat, i: Vector)
    requires |over| == |i| == |was|
    requires forall v: nat :: Has(over, v) <==> Has(i, v) && !Raised(was, Inheritable, v) && !Raised(was, Permitted, v)
    ensures Listing(over) == Listing(i) - (Vals(was, Inheritable) + Vals(was, Permitted))
  {
    hide Has, Raised;
    HasInRange(i);
    HasInRange(over);
  }

  /** Whether some blocked value is still in the bounding set, last value first. */
  method MustDrop(ps: Process, nb: Vector) returns (drops: bool)
    requires ProcOk(ps.k, ps.proc) && |nb| == ps.k.words
    ensures drops <==> Listing(nb) * ps.proc.bset != {}
  {
    hide Has;
    HasInRange(nb);
    var c := ps.k.values;
    while c > 0
      invariant 0 <= c <= ps.k.values
      invariant forall v: nat :: c <= v ==> v !in Listing(nb) * ps.proc.bset
    {
      c := c - 1;
      if Has(nb, c) {
        var b := ps.GetBound(c);
        if b == Some(true) {
          assert c in Listing(nb) * ps.proc.bset;
          return true;
        }
      }
    }
    drops := false;
  }

  // ---------- changing the process ----------

  /** Clear the ambient set, if anything is in it. */
  method ResetAmbient(ps: Process) returns (ok: bool)
    requires ProcOk(ps.k, ps.proc)
    modifies ps
    ensures ok && ps.proc == old(ps.proc).(amb := {})
  {
    var c := 0;
    var v := false;
    hide Vals;
    while !v
      invariant 0 <= c <= ps.k.values && ps.proc == old(ps.proc)
      invariant v ==> ps.proc.amb != {}
      invariant !v ==> forall u: nat :: u < c ==> u !in ps.proc.amb
      decreases ps.k.values - c, !v
    {
      var r := ps.GetAmbient(c);
      if r.None? {
        assert ps.proc.amb == {};
        return true;
      }
      v := r.value;
      if !v {
        c := c + 1;
      }
    }
    ok := ps.ClearAllAmbient();
  }

  /** Raise the ambient and drop the blocked values, last value first, up to the first failure. */
  method RaiseAndDrop(ps: Process, a: Vector, nb: Vector, dropping: bool) returns (ok: bool)
    requires ProcOk(ps.k, ps.proc) && |a| == |nb| == ps.k.words && ps.proc.amb == {}
    requires dropping ==> SETPCAP in ps.proc.E()
    modifies ps
    ensures ps.proc.flat == old(ps.proc.flat) && ps.proc.sec == old(ps.proc.sec)
    ensures ok <==> forall v :: v in Listing(a) && v < ps.k.values ==> MayRaise(ps.k, old(ps.proc), v)
    ensures ok ==> ps.proc.amb == Listing(a) * Below(ps.k.values)
    ensures ok ==> ps.proc.bset == if dropping then old(ps.proc.bset) - Listing(nb) else old(ps.proc.bset)
    ensures ps.proc.amb <= old(ps.proc.P() * ps.proc.I()) && (!ps.k.ambient ==> ps.proc.amb == {})
    ensures old(ps.proc.bset) - Listing(nb) <= ps.proc.bset <= old(ps.proc.bset)
  {
    ghost var s := ps.proc;
    hide Has, Raised;
    HasInRange(a);
    HasInRange(nb);
    var c := ps.k.values;
    while c > 0
      invariant 0 <= c <= ps.k.values
      invariant ps.proc ==
        s.(amb := From(Listing(a), c, ps.k.values),
           bset := s.bset - (if dropping then From(Listing(nb), c, ps.k.values) else {}))
      invariant forall v :: v in From(Listing(a), c, ps.k.values) ==> MayRaise(ps.k, s, v)
    {
      c := c - 1;
      if Has(a, c) {
        ok := ps.RaiseAmb(c);
        if !ok {
          assert c in Listing(a) && !MayRaise(ps.k, s, c);
          return;
        }
      }
      if dropping && Has(nb, c) {
        ok := ps.DropBound(c);
        if !ok {
          return;
        }
      }
    }
    ok := true;
  }

  /** The values of a set from lo up, below hi. */
  function From(vs: set<nat>, lo: nat, hi: nat): set<nat> {
    set v | v in vs && lo <= v < hi
  }

  // ---------- the whole run ----------

  /** The flags to change to: SETPCAP joins the effective ones when it is needed. */
  ghost predicate Working(s: Proc, t: Tuple, flat: Flat, raising: bool) {
    && Vals(flat, Effective) == s.E() + (if raising then {SETPCAP} else {})
    && Vals(flat, Permitted) == s.P() && Vals(flat, Inheritable) == t.i
  }

  lemma RaisedFlag(was: Flat, flat: Flat, v: nat)
    requires |flat| == |was| && v < 32 * |flat|
    requires ViewOf(flat) == WithFlag(ViewOf(was), Effective, true, [v])
    ensures Vals(flat, Effective) == Vals(was, Effective) + {v}
    ensures Vals(flat, Permitted) == Vals(was, Permitted) && Vals(flat, Inheritable) == Vals(was, Inheritable)
  {
    hide Raised;
    RaisedInRange(was);
    RaisedInRange(flat);
    forall u: nat | u < 32 * |flat|
      ensures Raised(flat, Effective, u) <==> Raised(was, Effective, u) || u == v
      ensures Raised(flat, Permitted, u) <==> Raised(was, Permitted, u)
      ensures Raised(flat, Inheritable, u) <==> Raised(was, Inheritable, u)
    {
      assert ViewOf(flat)[u] == PatAt(flat, u) && ViewOf(was)[u] == PatAt(was, u);
      assert u in [v] <==> u == v;
    }
  }

  lemma RaisedInRange(flat: Flat)
    ensures forall f, v: nat :: Raised(flat, f, v) ==> v < 32 * |flat|
  {
  }

  /** When the first change of flags works, and what it makes. */
  lemma FirstChange(k: Config, s: Proc, t: Tuple, flat: Flat, raising: bool)
    requires ProcOk(k, s) && |flat| == k.words && Working(s, t, flat, raising) && SETPCAP < k.values
    ensures MayCapset(k, s, flat) <==>
      && (t.i * Below(k.values) <= s.I() + s.P() || SETPCAP in s.E())
      && t.i * Below(k.values) <= s.I() + s.bset
      && (raising ==> SETPCAP in s.P())
    ensures MayCapset(k, s, flat) ==>
      var s' := Capset(k, s, flat);
      && s'.E() == s.E() + (if raising then {SETPCAP} else {}) && s'.P() == s.P()
      && s'.I() == t.i * Below(k.values) && s'.bset == s.bset && s'.sec == s.sec && |s'.flat| == k.words
  {
    var V := Below(k.values);
    assert Vals(flat, Permitted) * V == s.P();
    assert Vals(flat, Effective) * V == s.E() + if raising then {SETPCAP} else {};
    if MayCapset(k, s, flat) {
      CapsetSets(k, s, flat);
    }
    hide Vals, Below, Masked, Capset;
  }

  /** The last change of flags cannot fail: it only lowers SETPCAP again. */
  lemma LastChange(k: Config, s: Proc, t: Tuple, s2: Proc, flat: Flat)
    requires ProcOk(k, s) && ProcOk(k, s2) && |flat| == k.words && Working(s, t, flat, false)
    requires s2.P() == s.P() && s2.I() == t.i * Below(k.values)
    ensures MayCapset(k, s2, flat)
    ensures var s' := Capset(k, s2, flat);
      && s'.E() == s.E() && s'.P() == s.P() && s'.I() == s2.I()
      && s'.amb == s2.amb && s'.bset == s2.bset && s'.sec == s2.sec && |s'.flat| == k.words
  {
    var V := Below(k.values);
    assert Vals(flat, Permitted) * V == s.P() && Vals(flat, Effective) * V == s.E();
    CapsetSets(k, s2, flat);
    hide Vals, Below, Masked, Capset;
  }

  lemma ChangeKeeps(k: Config, s: Proc, flat: Flat)
    requires ProcOk(k, s) && |flat| == k.words
    ensures ProcOk(k, Capset(k, s, flat))
  {
    WriteKeeps(k, s, WCapset(flat));
  }

  /** Every ambient value may be raised exactly under the conditions on ambient values. */
  lemma AmbientMayRise(k: Config, s: Proc, t: Tuple)
    requires TupleOk(t) && s.I() == t.i * Below(k.values)
    ensures
      (forall v :: v in t.a && v < k.values ==> MayRaise(k, s, v)) <==>
      && t.a * Below(k.values) <= s.P()
      && (t.a * Below(k.values) != {} ==> k.ambient && !s.sec.noAmbientRaise)
  {
    hide Vals;
    var a := t.a * Below(k.values);
    forall v | v in a
      ensures MayRaise(k, s, v) <==> v in s.P() && k.ambient && !s.sec.noAmbientRaise
    {
      assert v in s.I();
    }
    assert forall v :: v in a <==> v in t.a && v < k.values;
    if a != {} {
      var v :| v in a;
    }
  }

  /** Apply a tuple to the process: inheritable values first, with SETPCAP raised when it is
      needed, then ambient and bounding values, then the flags without SETPCAP. */
  method IabSetProc(ps: Process, iab: IAB) returns (ok: bool)
    requires ProcOk(ps.k, ps.proc) && iab.Valid() && |iab.i| == ps.k.words && SETPCAP < ps.k.values
    modifies ps
    ensures ok <==> Applicable(ps.k, old(ps.proc), iab.View())
    ensures ok ==> Applied(ps.k, old(ps.proc), iab.View(), ps.proc)
    ensures !ok ==> Spared(ps.k, old(ps.proc), iab.View(), ps.proc)
    ensures ProcOk(ps.k, ps.proc)
  {
    ghost var s, t := ps.proc, iab.View();
    hide Listing, Vals, ProcOk, Below, ViewOf, WithFlag, Capset, MayCapset, MayRaise;
    var temp, raising, dropping := NewInheritable(ps, iab);
    if dropping {
      dropping := MustDrop(ps, iab.nb);
      raising := raising || dropping;
    }
    var working := new Set(0);
    working.flat := temp.flat;
    if raising {
      ValueHasWord(ps.k, s);
      FirstPastOne(SETPCAP, 32 * |temp.flat|);
      var stored := working.SetFlag(Effective, true, [SETPCAP]);
      RaisedFlag(temp.flat, working.flat, SETPCAP);
    }
    assert Working(s, t, temp.flat, false) && Working(s, t, working.flat, raising);
    FirstChange(ps.k, s, t, working.flat, raising);
    ChangeKeeps(ps.k, s, working.flat);
    ok := ps.SetProc(working.flat);
    if !ok {
      UnchangedWhenDenied(ps.k, s, working.flat);
      return;
    }
    ok := Vectors(ps, iab, temp, dropping, s);
  }

  lemma ValueHasWord(k: Config, s: Proc)
    requires ProcOk(k, s) && SETPCAP < k.values
    ensures SETPCAP < 32 * k.words && 32 * k.words !in [SETPCAP]
  {
  }

  lemma UnchangedWhenDenied(k: Config, s: Proc, flat: Flat)
    requires !MayCapset(k, s, flat)
    ensures Capset(k, s, flat) == s
  {
  }

  /** The ambient and bounding values, and then the flags that are to stay. */
  method Vectors(ps: Process, iab: IAB, temp: Set, dropping: bool, ghost s: Proc) returns (ok: bool)
    requires ProcOk(ps.k, s) && ProcOk(ps.k, ps.proc) && iab.Valid() && |iab.i| == ps.k.words
    requires |temp.flat| == ps.k.words && Working(s, iab.View(), temp.flat, false)
    requires ps.proc.P() == s.P() && ps.proc.I() == iab.View().i * Below(ps.k.values)
    requires ps.proc.bset == s.bset && ps.proc.sec == s.sec
    requires (dropping <==> Drops(s, iab.View())) && (dropping ==> SETPCAP in ps.proc.E())
    modifies ps
    ensures var a := iab.View().a * Below(ps.k.values);
      ok <==> a <= s.P() && (a != {} ==> ps.k.ambient && !s.sec.noAmbientRaise)
    ensures ok ==> Applied(ps.k, s, iab.View(), ps.proc)
    ensures !ok ==> Spared(ps.k, s, iab.View(), ps.proc)
    ensures ProcOk(ps.k, ps.proc)
  {
    ghost var t := iab.View();
    ghost var s1 := ps.proc;
    AmbientMayRise(ps.k, s1, t);
    ok := ResetAmbient(ps);
    hide Vals, Below, Capset, MayCapset, MayRaise, Listing;
    ghost var s1' := ps.proc;
    assert ProcOk(ps.k, s1');
    SameAmbientRules(ps.k, s1, s1');
    ok := RaiseAndDrop(ps, iab.a, iab.nb, dropping);
    ghost var s2 := ps.proc;
    StillOk(ps.k, s1', s2);
    LastChange(ps.k, s, t, s2, temp.flat);
    ChangeKeeps(ps.k, s2, temp.flat);
    var ok2 := ps.SetProc(temp.flat);
    if ok {
      ok := ok2;
    }
    NothingDropped(s, t);
  }

  lemma SameAmbientRules(k: Config, s: Proc, s': Proc)
    requires s'.flat == s.flat && s'.sec == s.sec
    ensures forall v :: MayRaise(k, s, v) <==> MayRaise(k, s', v)
  {
  }

  lemma StillOk(k: Config, s: Proc, s': Proc)
    requires ProcOk(k, s) && s'.flat == s.flat && s'.sec == s.sec && s'.bset <= s.bset
    requires s'.amb <= s.P() * s.I() && (!k.ambient ==> s'.amb == {})
    ensures ProcOk(k, s')
  {
  }

  lemma NothingDropped(s: Proc, t: Tuple)
    ensures !Drops(s, t) ==> s.bset - t.nb == s.bset
  {
    if !Drops(s, t) {
      forall v | v in s.bset
        ensures v !in t.nb
      {
        assert v !in t.nb * s.bset;
      }
    }
  }

  // ---------- what the conditions amount to ----------

  /** The manual page asks for SETPCAP in the permitted set only. With it there, and all else in
      order, the code still fails on a value beyond the inheritable and permitted sets unless
      SETPCAP was effective before the call. */
  lemma PermittedIsNotEnough(k: Config, s: Proc, t: Tuple)
    requires ProcOk(k, s) && TupleOk(t) && SETPCAP in s.P()
    requires t.i <= Below(k.values) && t.i <= s.I() + s.bset
    requires t.a <= s.P() && (t.a != {} ==> k.ambient && !s.sec.noAmbientRaise)
    ensures Applicable(k, s, t) <==> !Newly(s, t) || SETPCAP in s.E()
  {
    hide Vals, Below;
    var V := Below(k.values);
    assert t.i * V == t.i;
    assert t.a * V == t.a;
  }

  /** The manual page's own example: a process with SETPCAP permitted but not effective, and a
      tuple that asks for nothing else than one new inheritable value. */
  lemma DocumentedCaseFails(k: Config)
    requires ConfigOk(k) && 9 <= k.values
    ensures exists s, t ::
      && ProcOk(k, s) && TupleOk(t) && t.i <= Below(k.values) && t.i <= s.I() + s.bset && t.a == {}
      && SETPCAP in s.P() && SETPCAP !in s.E() && Newly(s, t)
      && !Applicable(k, s, t)
  {
    var flat := seq(k.words, _ => BLANK)[0 := Data(0, BitMask(8), 0)];
    var sec := SECBITS_NONE;
    var s := Proc(flat, {}, {0}, sec);
    var t := Tuple({0}, {}, {});
    hide Bit, Pow2;
    forall v: nat
      ensures !Raised(flat, Effective, v) && !Raised(flat, Inheritable, v)
      ensures Raised(flat, Permitted, v) <==> v == 8
    {
      if v < 32 * k.words {
        BitOfZero(v % 32);
        BitOfPow2(8, v % 32);
      }
    }
    assert ProcOk(k, s) && SETPCAP in s.P() && SETPCAP !in s.E() && t.i <= s.I() + s.bset;
    assert 0 in t.i * Below(k.values);
    assert Newly(s, t) && TupleOk(t) && t.a == {} && t.i <= Below(k.values);
    assert !Applicable(k, s, t);
  }

  /** What the process's own tuple is. */
  function OwnTuple(k: Config, s: Proc): Tuple {
    Tuple(s.I(), s.amb, Below(k.values) - s.bset)
  }

  /** Read the tuple of the process. */
  method IabGetProc(ps: Process) returns (iab: IAB)
    requires ProcOk(ps.k, ps.proc)
    ensures fresh(iab) && iab.Valid() && |iab.i| == ps.k.words && iab.View() == OwnTuple(ps.k, ps.proc)
  {
    iab := new IAB(ps.k.words);
    var current := ps.GetProc();
    NoneFrom(ps.proc.amb, ps.k.values);
    NoneFrom(Below(ps.k.values) - ps.proc.bset, ps.k.values);
    assert Vals(current.flat, Inheritable) == ps.proc.I();
    var filled := iab.Fill(Inh, current, Inheritable);
    assert Listing(iab.a) == {} && Listing(iab.nb) == {};
    var c := ps.k.values;
    hide *;
    while c > 0
      invariant 0 <= c <= ps.k.values && |iab.i| == |iab.a| == |iab.nb| == ps.k.words
      invariant Listing(iab.i) == ps.proc.I()
      invariant Listing(iab.a) == From(ps.proc.amb, c, ps.k.values)
      invariant Listing(iab.nb) == From(Below(ps.k.values) - ps.proc.bset, c, ps.k.values)
    {
      c := c - 1;
      BothListings(iab.a, c);
      BothListings(iab.nb, c);
      FromNext(ps.proc.amb, c, ps.k.values);
      FromNext(Below(ps.k.values) - ps.proc.bset, c, ps.k.values);
      var a := ps.GetAmbient(c);
      if a == Some(true) {
        iab.a := Raise(iab.a, c);
      }
      var b := ps.GetBound(c);
      if b == Some(false) {
        iab.nb := Raise(iab.nb, c);
      }
    }
    OwnIs(ps.k, ps.proc, iab.View());
  }

  lemma NoneFrom(vs: set<nat>, hi: nat)
    ensures From(vs, hi, hi) == {}
  {
  }

  lemma FromNext(vs: set<nat>, c: nat, hi: nat)
    requires c < hi
    ensures From(vs, c, hi) == From(vs, c + 1, hi) + if c in vs then {c} else {}
  {
  }

  lemma OwnIs(k: Config, s: Proc, t: Tuple)
    requires ProcOk(k, s)
    requires t.i == s.I() && t.a == From(s.amb, 0, k.values) && t.nb == From(Below(k.values) - s.bset, 0, k.values)
    ensures t == OwnTuple(k, s) && TupleOk(t)
  {
    hide Vals, Below;
  }

  /** A process may apply its own tuple, and stays as it is, unless ambient values that it has
      may not be raised again. */
  lemma OwnTupleApplies(k: Config, s: Proc, s': Proc)
    requires ProcOk(k, s)
    ensures Applicable(k, s, OwnTuple(k, s)) <==> (s.amb != {} ==> !s.sec.noAmbientRaise)
    ensures Applied(k, s, OwnTuple(k, s), s') ==>
      s'.E() == s.E() && s'.P() == s.P() && s'.I() == s.I() && s'.amb == s.amb && s'.bset == s.bset && s'.sec == s.sec
  {
    hide Vals, Below;
    var V := Below(k.values);
    assert s.I() * V == s.I();
    assert s.amb * V == s.amb;
    assert (V - s.bset) * s.bset == {};
    assert s.bset - (V - s.bset) == s.bset;
  }
}
