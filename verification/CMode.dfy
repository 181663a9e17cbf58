/** Entering a security mode as the C library does it: a failed attempt to give up everything
    still gives it up. */
module CMode {
  import opened Words
  import opened CapSet
  import opened Strings
  import opened Kernel
  import opened Privilege
  import opened Mode

  /** Everything gone but the secure bits as they were. */
  ghost predicate StrippedOnly(s: Proc, s': Proc) {
    s'.E() == {} && s'.P() == {} && s'.I() == {} && s'.bset == {} && s'.amb == {} && s'.sec == s.sec
  }

  /** A refusal of the secure bits does not stop the rest of NOPRIV. */
  predicate StripsAnyway(s: Proc, m: Mode, ok: bool) {
    !ok && m == NoPriv && SETPCAP in s.P()
  }

  /** The flags that the process will be left with. */
  ghost predicate CLeaves(s: Proc, m: Mode, ok: bool, w: Flat) {
    if StripsAnyway(s, m, ok) then Vals(w, Permitted) == {} && Vals(w, Inheritable) == {}
    else Leaves(s, m, ok, w)
  }

  ghost predicate CStepped(k: Config, s: Proc, m: Mode, ok: bool, s': Proc) {
    if StripsAnyway(s, m, ok) then s'.sec == s.sec && s'.bset == {} && s'.amb == {}
    else Stepped(k, s, m, ok, s')
  }

  /** The steps with SETPCAP effective. */
  method CSteps(ps: Process, working: Set, m: Mode, ghost s: Proc) returns (ok: bool)
    requires ProcOk(ps.k, s) && ProcOk(ps.k, ps.proc) && |working.flat| == ps.k.words && SETPCAP in s.P()
    requires ps.proc == s.(flat := ps.proc.flat)
    requires ps.proc.E() == s.E() + {SETPCAP} && ps.proc.P() == s.P() && ps.proc.I() == s.I()
    requires Vals(working.flat, Permitted) == s.P() && Vals(working.flat, Inheritable) == s.I()
    modifies ps, working`flat
    ensures |working.flat| == ps.k.words && ProcOk(ps.k, ps.proc) && ps.proc.P() == s.P() && ps.proc.I() == s.I()
    ensures ok <==> Enterable(ps.k, s, m)
    ensures CLeaves(s, m, ok, working.flat)
    ensures CStepped(ps.k, s, m, ok, ps.proc)
  {
    hide Vals;
    match m {
      case NoPriv =>
        working.ClearFlag(Inheritable);
        ok := CSecure(ps);
        CDropAll(ps);
        working.ClearFlag(Permitted);
      case Pure1EInit =>
        working.ClearFlag(Inheritable);
        ok := CSecure(ps);
      case Pure1E =>
        ok := CSecure(ps);
      case Hybrid =>
        ok := ps.PutSecbits(SECBITS_NONE);
      case _ =>
        ok := false;
    }
  }

  /** Clear the ambient set, if there is one, and lock the secure bits. */
  method CSecure(ps: Process) returns (ok: bool)
    requires ProcOk(ps.k, ps.proc) && SETPCAP in ps.proc.E()
    modifies ps
    ensures ok <==> Respects(old(ps.proc).sec, Secured(ps.k))
    ensures ps.proc == old(ps.proc).(amb := {}, sec := if ok then Secured(ps.k) else old(ps.proc).sec)
    ensures ProcOk(ps.k, ps.proc)
  {
    hide Vals;
    var secbits := AMBIENT;
    var first := ps.GetAmbient(0);
    if first.None? {
      secbits := BASIC;
    } else {
      ok := ResetAmbient(ps);
      if !ok {
        return;
      }
    }
    ok := ps.PutSecbits(secbits);
  }

  /** Drop every bounding value that the kernel knows. */
  method CDropAll(ps: Process)
    requires ProcOk(ps.k, ps.proc) && SETPCAP in ps.proc.E()
    modifies ps
    ensures ps.proc == old(ps.proc).(bset := {})
  {
    hide Vals;
    ghost var s := ps.proc;
    var c := 0;
    while true
      invariant 0 <= c <= ps.k.values
      invariant ps.proc == s.(bset := ps.proc.bset) && ps.proc.bset <= s.bset
      invariant forall v: nat :: v < c ==> v !in ps.proc.bset
      decreases ps.k.values - c
    {
      var bound := ps.GetBound(c);
      if bound.None? {
        assert ps.proc.bset == {};
        return;
      }
      var dropped := ps.DropBound(c);
      c := c + 1;
    }
  }

  /** Enter a mode; whatever happens, nothing is effective afterwards, and an attempt at NOPRIV
      by a process that may use SETPCAP leaves it with nothing even when it fails. */
  method CSetMode(ps: Process, m: Mode) returns (ok: bool)
    requires ProcOk(ps.k, ps.proc) && SETPCAP < ps.k.values
    modifies ps
    ensures ok <==> Enterable(ps.k, old(ps.proc), m)
    ensures ok ==> Entered(ps.k, old(ps.proc), m, ps.proc)
    ensures StripsAnyway(old(ps.proc), m, ok) ==> StrippedOnly(old(ps.proc), ps.proc)
    ensures !ok && !StripsAnyway(old(ps.proc), m, ok) ==> NotEntered(old(ps.proc), ps.proc)
    ensures ProcOk(ps.k, ps.proc)
  {
    ghost var s := ps.proc;
    var working := ps.GetProc();
    ok := RaiseSetpcap(ps, working);
    hide Vals, ProcOk, Entered, NotEntered, StrippedOnly, HasBasic, Secured, Respects;
    if ok {
      ok := CSteps(ps, working, m, s);
    }
    var lowered := CLeave(ps, working, m, ok, s);
    ok := lowered && ok;
  }

  method CLeave(ps: Process, working: Set, ghost m: Mode, ghost ok: bool, ghost s: Proc) returns (lowered: bool)
    requires ProcOk(ps.k, s) && ProcOk(ps.k, ps.proc) && |working.flat| == ps.k.words
    requires ps.proc.P() == s.P() && ps.proc.I() == s.I()
    requires CLeaves(s, m, ok, working.flat) && CStepped(ps.k, s, m, ok, ps.proc)
    modifies ps, working`flat
    ensures lowered
    ensures ok ==> Entered(ps.k, s, m, ps.proc)
    ensures StripsAnyway(s, m, ok) ==> StrippedOnly(s, ps.proc)
    ensures !ok && !StripsAnyway(s, m, ok) ==> NotEntered(s, ps.proc)
    ensures ProcOk(ps.k, ps.proc)
  {
    hide Vals, Capset, MayCapset, Below;
    working.ClearFlag(Effective);
    LessIsGranted(ps.k, ps.proc, working.flat);
    ChangeKeeps(ps.k, ps.proc, working.flat);
    lowered := ps.SetProc(working.flat);
  }
}
