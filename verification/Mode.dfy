/** Security modes: combinations of secure bits, ambient and bounding sets that are entered in a
    run of system calls and recognised by looking at the process. */
module Mode {
  import opened Words
  import opened CapSet
  import opened Strings
  import opened Kernel
  import opened Privilege

  datatype Mode = Uncertain | NoPriv | Pure1EInit | Pure1E | Hybrid | UnknownMode

  const BASIC := Secbits(true, true, true, true, false, true, false, false)
  const AMBIENT := BASIC.(noAmbientRaise := true, noAmbientRaiseLocked := true)

  predicate HasBasic(sec: Secbits) {
    sec.noRoot && sec.noRootLocked && sec.noSetuidFixup && sec.noSetuidFixupLocked && sec.keepCapsLocked
  }

  function Secured(k: Config): Secbits {
    if k.ambient then AMBIENT else BASIC
  }

  // ---------- recognising a mode ----------

  /** What a process looks like, from its state. */
  function ModeOf(k: Config, s: Proc): Mode {
    if s.sec == SECBITS_NONE then Hybrid
    else if !HasBasic(s.sec) || s.amb != {} || (k.ambient && s.sec != AMBIENT) then Uncertain
    else if s.I() != {} then Pure1E
    else if s.P() != {} || s.E() != {} then Pure1EInit
    else if s.bset != {} then Pure1EInit
    else NoPriv
  }

  /** The secure bits as the number that the kernel takes. */
  function Number(sec: Secbits): nat {
    (if sec.noRoot then 1 else 0) + (if sec.noRootLocked then 2 else 0)
    + (if sec.noSetuidFixup then 4 else 0) + (if sec.noSetuidFixupLocked then 8 else 0)
    + (if sec.keepCaps then 16 else 0) + (if sec.keepCapsLocked then 32 else 0)
    + (if sec.noAmbientRaise then 64 else 0) + (if sec.noAmbientRaiseLocked then 128 else 0)
  }

  /** The two combinations that lock everything, and the basic bits in any other. */
  lemma SecuredNumbers(sec: Secbits)
    ensures sec == BASIC <==> Number(sec) == 0x2f
    ensures sec == AMBIENT <==> Number(sec) == 0xef
    ensures HasBasic(sec) <==> Number(sec) in [0x2f, 0x3f, 0x6f, 0x7f, 0xaf, 0xbf, 0xef, 0xff]
  {
  }

  /** Secure bits that lock everything there is to lock, and no ambient value. */
  predicate Locked(k: Config, s: Proc) {
    && s.amb == {}
    && (if k.ambient then Number(s.sec) == 0xef
        else s.sec.noRoot && s.sec.noRootLocked && s.sec.noSetuidFixup && s.sec.noSetuidFixupLocked && s.sec.keepCapsLocked)
  }

  /** What each answer about a process means. */
  lemma ModeMeans(k: Config, s: Proc)
    requires ProcOk(k, s)
    ensures ModeOf(k, s) == Hybrid <==> Number(s.sec) == 0
    ensures ModeOf(k, s) == NoPriv <==> Locked(k, s) && s.E() == {} && s.P() == {} && s.I() == {} && s.bset == {}
    ensures ModeOf(k, s) == Pure1EInit <==> Locked(k, s) && s.I() == {} && (s.P() != {} || s.bset != {})
    ensures ModeOf(k, s) == Pure1E <==> Locked(k, s) && s.I() != {}
    ensures ModeOf(k, s) == Uncertain <==> !Locked(k, s) && Number(s.sec) != 0
  {
    hide Vals;
  }

  /** Whether any value is ambient; the scan ends at the first value that does not exist. */
  method AmbientClean(ps: Process, b: Secbits) returns (clean: bool)
    requires ProcOk(ps.k, ps.proc)
    ensures clean <==> ps.proc.amb == {} && (ps.k.ambient ==> b == AMBIENT)
  {
    var c := 0;
    hide Vals;
    while true
      invariant 0 <= c <= ps.k.values && (!ps.k.ambient ==> c == 0)
      invariant forall u: nat :: u < c ==> u !in ps.proc.amb
      decreases ps.k.values - c
    {
      var v := ps.GetAmbient(c);
      match v {
        case None =>
          assert ps.proc.amb == {};
          return c == 0 || b == AMBIENT;
        case Some(raised) =>
          if raised {
            return false;
          }
      }
      c := c + 1;
    }
  }

  method AnyBound(ps: Process) returns (any: bool)
    requires ProcOk(ps.k, ps.proc)
    ensures any <==> ps.proc.bset != {}
  {
    var c := 0;
    hide Vals;
    while true
      invariant 0 <= c <= ps.k.values
      invariant forall u: nat :: u < c ==> u !in ps.proc.bset
      decreases ps.k.values - c
    {
      var v := ps.GetBound(c);
      match v {
        case None =>
          assert ps.proc.bset == {};
          return false;
        case Some(bound) =>
          if bound {
            return true;
          }
      }
      c := c + 1;
    }
  }

  /** Compare a set with the empty one, flag by flag. */
  method DiffersFromEmpty(w: Set) returns (e: bool, p: bool, i: bool)
    ensures e <==> Vals(w.flat, Effective) != {}
    ensures p <==> Vals(w.flat, Permitted) != {}
    ensures i <==> Vals(w.flat, Inheritable) != {}
  {
    e, p, i := false, false, false;
    for j := 0 to |w.flat|
      invariant e <==> exists m :: 0 <= m < j && w.flat[m].eff != 0
      invariant p <==> exists m :: 0 <= m < j && w.flat[m].per != 0
      invariant i <==> exists m :: 0 <= m < j && w.flat[m].inh != 0
    {
      e := e || w.flat[j].eff != 0;
      p := p || w.flat[j].per != 0;
      i := i || w.flat[j].inh != 0;
    }
    FlagNonZero(w.flat, Effective);
    FlagNonZero(w.flat, Permitted);
    FlagNonZero(w.flat, Inheritable);
  }

  /** The mode of the process. */
  method GetMode(ps: Process) returns (m: Mode)
    requires ProcOk(ps.k, ps.proc)
    ensures m == ModeOf(ps.k, ps.proc)
  {
    hide Vals, ProcOk;
    var b := ps.GetSecbits();
    if b == SECBITS_NONE {
      return Hybrid;
    }
    if !HasBasic(b) {
      return Uncertain;
    }
    var clean := AmbientClean(ps, b);
    if !clean {
      return Uncertain;
    }
    var w := ps.GetProc();
    var e, p, i := DiffersFromEmpty(w);
    if i {
      return Pure1E;
    }
    if p || e {
      return Pure1EInit;
    }
    var any := AnyBound(ps);
    return if any then Pure1EInit else NoPriv;
  }

  // ---------- entering a mode ----------

  /** A mode can be entered when SETPCAP is permitted and no lock stands against its bits. */
  predicate Enterable(k: Config, s: Proc, m: Mode) {
    && SETPCAP in s.P()
    && match m
       case Hybrid => Respects(s.sec, SECBITS_NONE)
       case NoPriv => Respects(s.sec, Secured(k))
       case Pure1EInit => Respects(s.sec, Secured(k))
       case Pure1E => Respects(s.sec, Secured(k))
       case _ => false
  }

  /** The process after a mode was entered. */
  ghost predicate Entered(k: Config, s: Proc, m: Mode, s': Proc) {
    && s'.E() == {}
    && s'.P() == (if m == NoPriv then {} else s.P())
    && s'.I() == (if m == NoPriv || m == Pure1EInit then {} else s.I())
    && s'.bset == (if m == NoPriv then {} else s.bset)
    && s'.sec == (if m == Hybrid then SECBITS_NONE else Secured(k))
    && s'.amb == (if m == Hybrid then s.amb else {})
  }

  /** The process after a failure: SETPCAP and everything else effective is gone in any case. */
  ghost predicate NotEntered(s: Proc, s': Proc) {
    s'.E() == {} && s'.P() == s.P() && s'.I() <= s.I() && s'.bset == s.bset && s'.sec == s.sec && s'.amb <= s.amb
  }

  /** The flags that the process will be left with. */
  ghost predicate Leaves(s: Proc, m: Mode, ok: bool, w: Flat) {
    && Vals(w, Permitted) == (if ok && m == NoPriv then {} else s.P())
    && Vals(w, Inheritable) <= s.I()
    && (ok ==> Vals(w, Inheritable) == if m == NoPriv || m == Pure1EInit then {} else s.I())
  }

  /** What the steps make of the rest. */
  ghost predicate Stepped(k: Config, s: Proc, m: Mode, ok: bool, s': Proc) {
    if ok then
      && s'.sec == (if m == Hybrid then SECBITS_NONE else Secured(k))
      && s'.bset == (if m == NoPriv then {} else s.bset) && s'.amb == (if m == Hybrid then s.amb else {})
    else s'.sec == s.sec && s'.bset == s.bset && s'.amb <= s.amb
  }

  /** The steps with SETPCAP effective; the flags to leave behind are prepared in w. */
  method Steps(ps: Process, w: Set, m: Mode, ghost s: Proc) returns (ok: bool)
    requires ProcOk(ps.k, s) && ProcOk(ps.k, ps.proc) && |w.flat| == ps.k.words && SETPCAP in s.P()
    requires ps.proc == s.(flat := ps.proc.flat)
    requires ps.proc.E() == s.E() + {SETPCAP} && ps.proc.P() == s.P() && ps.proc.I() == s.I()
    requires Vals(w.flat, Permitted) == s.P() && Vals(w.flat, Inheritable) == s.I()
    modifies ps, w`flat
    ensures |w.flat| == ps.k.words && ProcOk(ps.k, ps.proc) && ps.proc.P() == s.P() && ps.proc.I() == s.I()
    ensures ok <==> Enterable(ps.k, s, m)
    ensures Leaves(s, m, ok, w.flat)
    ensures Stepped(ps.k, s, m, ok, ps.proc)
  {
    hide Vals;
    if m == Hybrid {
      ok := ps.PutSecbits(SECBITS_NONE);
      return;
    }
    if m == NoPriv || m == Pure1EInit {
      w.ClearFlag(Inheritable);
    } else if m != Pure1E {
      return false;
    }
    var sb := AMBIENT;
    var first := ps.GetAmbient(0);
    if first.None? {
      sb := BASIC;
    } else {
      ok := ResetAmbient(ps);
      if !ok {
        return;
      }
    }
    ok := ps.PutSecbits(sb);
    if !ok {
      return;
    }
    if m != NoPriv {
      return true;
    }
    DropAll(ps);
    w.ClearFlag(Permitted);
    ok := true;
  }

  /** Drop bounding values from the first up, until the kernel knows no further one. */
  method DropAll(ps: Process)
    requires ProcOk(ps.k, ps.proc) && SETPCAP in ps.proc.E()
    modifies ps
    ensures ps.proc == old(ps.proc).(bset := {})
  {
    hide Vals;
    ghost var s := ps.proc;
    var c := 0;
    while true
      invariant 0 <= c <= ps.k.values
      invariant ps.proc == s.(bset := ps.proc.bset) && ps.proc.bset <= s.bset
      invariant forall v: nat :: v < c ==> v !in ps.proc.bset
      decreases ps.k.values - c
    {
      var ok := ps.DropBound(c);
      if !ok {
        assert ps.proc.bset == {};
        return;
      }
      c := c + 1;
    }
  }

  /** Raising SETPCAP works exactly when it is permitted. */
  lemma RaiseChange(k: Config, s: Proc, flat: Flat)
    requires ProcOk(k, s) && |flat| == k.words && SETPCAP < k.values
    requires Vals(flat, Effective) == s.E() + {SETPCAP} && Vals(flat, Permitted) == s.P() && Vals(flat, Inheritable) == s.I()
    ensures MayCapset(k, s, flat) <==> SETPCAP in s.P()
    ensures var s' := Capset(k, s, flat);
      if SETPCAP in s.P() then
        && s' == s.(flat := s'.flat, amb := s'.amb) && s'.amb == s.amb
        && s'.E() == s.E() + {SETPCAP} && s'.P() == s.P() && s'.I() == s.I()
      else s' == s
  {
    var V := Below(k.values);
    assert Vals(flat, Permitted) * V == s.P() && Vals(flat, Inheritable) * V == s.I();
    assert Vals(flat, Effective) * V == s.E() + {SETPCAP};
    if MayCapset(k, s, flat) {
      CapsetSets(k, s, flat);
      assert s.amb * (s.P() * s.I()) == s.amb;
    }
    hide Vals, Below, Masked;
  }

  /** A request for fewer flags, none of them effective, is always granted. */
  lemma LessIsGranted(k: Config, s: Proc, flat: Flat)
    requires ProcOk(k, s) && |flat| == k.words && Vals(flat, Effective) == {}
    requires Vals(flat, Permitted) <= s.P() && Vals(flat, Inheritable) <= s.I()
    ensures MayCapset(k, s, flat)
    ensures var s' := Capset(k, s, flat);
      && s'.E() == {} && s'.P() == Vals(flat, Permitted) && s'.I() == Vals(flat, Inheritable)
      && s'.amb == s.amb * (s'.P() * s'.I()) && s'.bset == s.bset && s'.sec == s.sec
  {
    var V := Below(k.values);
    assert Vals(flat, Permitted) * V == Vals(flat, Permitted);
    assert Vals(flat, Inheritable) * V == Vals(flat, Inheritable);
    CapsetSets(k, s, flat);
    hide Vals, Below, Masked, Capset;
  }

  /** Drop everything effective, on every way out. */
  method Leave(ps: Process, w: Set, ghost m: Mode, ghost ok: bool, ghost s: Proc)
    requires ProcOk(ps.k, s) && ProcOk(ps.k, ps.proc) && |w.flat| == ps.k.words
    requires ps.proc.P() == s.P() && ps.proc.I() == s.I()
    requires Leaves(s, m, ok, w.flat) && Stepped(ps.k, s, m, ok, ps.proc)
    modifies ps, w`flat
    ensures ok ==> Entered(ps.k, s, m, ps.proc)
    ensures !ok ==> NotEntered(s, ps.proc)
    ensures ProcOk(ps.k, ps.proc)
  {
    hide Vals, Capset, MayCapset, Below;
    w.ClearFlag(Effective);
    LessIsGranted(ps.k, ps.proc, w.flat);
    ChangeKeeps(ps.k, ps.proc, w.flat);
    var lowered := ps.SetProc(w.flat);
  }

  /** Enter a mode; whatever happens, nothing is effective afterwards. */
  method SetMode(ps: Process, m: Mode) returns (ok: bool)
    requires ProcOk(ps.k, ps.proc) && SETPCAP < ps.k.values
    modifies ps
    ensures ok <==> Enterable(ps.k, old(ps.proc), m)
    ensures ok ==> Entered(ps.k, old(ps.proc), m, ps.proc)
    ensures !ok ==> NotEntered(old(ps.proc), ps.proc)
    ensures ProcOk(ps.k, ps.proc)
  {
    ghost var s := ps.proc;
    var w := ps.GetProc();
    ok := RaiseSetpcap(ps, w);
    hide Vals, ProcOk, Entered, NotEntered, HasBasic, Secured, Respects;
    if ok {
      ok := Steps(ps, w, m, s);
    }
    Leave(ps, w, m, ok, s);
  }

  /** Make SETPCAP effective, if it is permitted. */
  method RaiseSetpcap(ps: Process, w: Set) returns (ok: bool)
    requires ProcOk(ps.k, ps.proc) && SETPCAP < ps.k.values && w.flat == ps.proc.flat
    modifies ps, w`flat
    ensures ok <==> SETPCAP in old(ps.proc).P()
    ensures |w.flat| == ps.k.words && ProcOk(ps.k, ps.proc)
    ensures Vals(w.flat, Permitted) == old(ps.proc).P() && Vals(w.flat, Inheritable) == old(ps.proc).I()
    ensures ps.proc == old(ps.proc).(flat := ps.proc.flat)
    ensures ps.proc.P() == old(ps.proc).P() && ps.proc.I() == old(ps.proc).I()
    ensures ok ==> ps.proc.E() == old(ps.proc).E() + {SETPCAP}
  {
    ghost var s, was := ps.proc, w.flat;
    ValueHasWord(ps.k, s);
    assert |was| == ps.k.words;
    hide Vals, ProcOk, ViewOf, WithFlag, Capset, MayCapset, Below;
    FirstPastOne(SETPCAP, 32 * |was|);
    var raised := w.SetFlag(Effective, true, [SETPCAP]);
    RaisedFlag(was, w.flat, SETPCAP);
    RaiseChange(ps.k, s, w.flat);
    ChangeKeeps(ps.k, s, w.flat);
    ok := ps.SetProc(w.flat);
  }

  // ---------- what a mode is worth ----------

  /** A mode that was entered is the mode that is recognised, except that without inheritable
      values Pure1E is only the start of it. */
  lemma EnteredIsRecognised(k: Config, s: Proc, m: Mode, s': Proc)
    requires ProcOk(k, s) && Enterable(k, s, m) && Entered(k, s, m, s')
    ensures ModeOf(k, s') == if m == Pure1E && s.I() == {} then Pure1EInit else m
  {
    hide Vals;
  }

  /** Nothing left, and every secure bit locked. */
  ghost predicate Stripped(k: Config, s: Proc) {
    && ProcOk(k, s) && s.P() == {} && s.I() == {} && s.bset == {} && s.amb == {}
    && s.sec == Secured(k)
  }

  lemma EnteredNoPriv(k: Config, s: Proc, s': Proc)
    requires ProcOk(k, s') && Entered(k, s, NoPriv, s')
    ensures Stripped(k, s')
  {
    hide Vals;
  }

  lemma StrippedStep(k: Config, s: Proc, w: Write)
    requires Stripped(k, s)
    ensures Stripped(k, Apply(k, s, w))
  {
    WriteKeeps(k, s, w);
    LocksHold(k, s, w);
    hide Vals, Apply, Below;
  }

  /** Without SETPCAP the secure bits stay, and the keep-caps bit is locked. */
  lemma LocksHold(k: Config, s: Proc, w: Write)
    requires Stripped(k, s)
    ensures Apply(k, s, w).sec == s.sec
  {
    hide Vals, Below, Masked;
    assert SETPCAP !in s.P();
  }

  /** No run of writes, by the library or not, brings anything back. */
  lemma {:induction false} NoPrivIsFinal(k: Config, s: Proc, ws: seq<Write>)
    requires Stripped(k, s)
    ensures Stripped(k, Run(k, s, ws)) && Run(k, s, ws).E() == {}
    ensures ModeOf(k, Run(k, s, ws)) == NoPriv
    decreases |ws|
  {
    hide Apply, Vals, Below;
    if ws != [] {
      StrippedStep(k, s, ws[0]);
      NoPrivIsFinal(k, Apply(k, s, ws[0]), ws[1..]);
    }
  }

  lemma SecuredStep(k: Config, s: Proc, w: Write)
    requires ProcOk(k, s) && s.sec == Secured(k) && s.amb == {}
    ensures var s' := Apply(k, s, w);
      ProcOk(k, s') && s'.sec == Secured(k) && s'.amb == {}
  {
    WriteKeeps(k, s, w);
    hide Vals, Below, Masked;
  }

  /** A secured mode cannot be undone: whatever is written later, the process is in one of the
      three secured modes. */
  lemma {:induction false} SecuredForGood(k: Config, s: Proc, ws: seq<Write>)
    requires ProcOk(k, s) && s.sec == Secured(k) && s.amb == {}
    ensures var s' := Run(k, s, ws);
      && s'.sec == Secured(k) && s'.amb == {}
      && (ModeOf(k, s') == Pure1E || ModeOf(k, s') == Pure1EInit || ModeOf(k, s') == NoPriv)
    decreases |ws|
  {
    hide Apply, Vals, Below, ProcOk;
    if ws != [] {
      SecuredStep(k, s, ws[0]);
      SecuredForGood(k, Apply(k, s, ws[0]), ws[1..]);
    }
  }
}
