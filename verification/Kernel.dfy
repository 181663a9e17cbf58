/** The privilege state of a process and the kernel's rules for changing it. */
module Kernel {
  import opened Bits
  import opened Words
  import opened CapSet
  import opened Strings

  const SETPCAP := 8

  /** Four settings, each with a lock. */
  datatype Secbits = Secbits(
    noRoot: bool, noRootLocked: bool,
    noSetuidFixup: bool, noSetuidFixupLocked: bool,
    keepCaps: bool, keepCapsLocked: bool,
    noAmbientRaise: bool, noAmbientRaiseLocked: bool)

  const SECBITS_NONE := Secbits(false, false, false, false, false, false, false, false)

  datatype Proc = Proc(flat: Flat, amb: set<nat>, bset: set<nat>, sec: Secbits) {
    function E(): set<nat> { Vals(flat, Effective) }
    function P(): set<nat> { Vals(flat, Permitted) }
    function I(): set<nat> { Vals(flat, Inheritable) }
  }

  /** What the kernel offers: how many values, in how many words, and whether it has an ambient
      set at all. */
  datatype Config = Config(values: nat, words: nat, ambient: bool)

  predicate ConfigOk(k: Config) {
    0 < k.values <= 32 * k.words
  }

  /** What holds of every process. */
  predicate ProcOk(k: Config, s: Proc) {
    && ConfigOk(k) && |s.flat| == k.words
    && s.E() <= s.P() && s.P() <= Below(k.values) && s.I() <= Below(k.values)
    && s.amb <= s.P() * s.I() && s.bset <= Below(k.values)
    && (!k.ambient ==> s.amb == {} && !s.sec.noAmbientRaise && !s.sec.noAmbientRaiseLocked)
  }

  // ---------- writes ----------

  /** The words of a request, cut to the values that exist. */
  function Masked(k: Config, flat: Flat): Flat {
    seq(|flat|, j requires 0 <= j < |flat| =>
      Data(AndWord(flat[j].eff, AllMask(j, k.values)),
           AndWord(flat[j].per, AllMask(j, k.values)),
           AndWord(flat[j].inh, AllMask(j, k.values))))
  }

  /** The kernel's conditions on new flags; SETPCAP counts when effective before the call. */
  predicate MayCapset(k: Config, s: Proc, flat: Flat) {
    var e := Vals(flat, Effective) * Below(k.values);
    var p := Vals(flat, Permitted) * Below(k.values);
    var i := Vals(flat, Inheritable) * Below(k.values);
    && (i <= s.I() + s.P() || SETPCAP in s.E())
    && i <= s.I() + s.bset
    && p <= s.P()
    && e <= p
  }

  function Capset(k: Config, s: Proc, flat: Flat): Proc {
    if !MayCapset(k, s, flat) then s
    else
      var flat' := Masked(k, flat);
      s.(flat := flat', amb := s.amb * (Vals(flat', Permitted) * Vals(flat', Inheritable)))
  }

  predicate MayDrop(k: Config, s: Proc, v: nat) {
    SETPCAP in s.E() && v < k.values
  }

  function Drop(k: Config, s: Proc, v: nat): Proc {
    if MayDrop(k, s, v) then s.(bset := s.bset - {v}) else s
  }

  predicate MayRaise(k: Config, s: Proc, v: nat) {
    k.ambient && v < k.values && v in s.P() && v in s.I() && !s.sec.noAmbientRaise
  }

  function RaiseAmbient(k: Config, s: Proc, v: nat): Proc {
    if MayRaise(k, s, v) then s.(amb := s.amb + {v}) else s
  }

  function LowerAmbient(k: Config, s: Proc, v: nat): Proc {
    if k.ambient && v < k.values then s.(amb := s.amb - {v}) else s
  }

  function ClearAmbient(k: Config, s: Proc): Proc {
    if k.ambient then s.(amb := {}) else s
  }

  /** A locked setting keeps its value and its lock. */
  predicate Respects(was: Secbits, s: Secbits) {
    && (was.noRootLocked ==> s.noRootLocked && s.noRoot == was.noRoot)
    && (was.noSetuidFixupLocked ==> s.noSetuidFixupLocked && s.noSetuidFixup == was.noSetuidFixup)
    && (was.keepCapsLocked ==> s.keepCapsLocked && s.keepCaps == was.keepCaps)
    && (was.noAmbientRaiseLocked ==> s.noAmbientRaiseLocked && s.noAmbientRaise == was.noAmbientRaise)
  }

  predicate MaySetSecbits(k: Config, s: Proc, sec: Secbits) {
    && SETPCAP in s.E() && Respects(s.sec, sec)
    && (!k.ambient ==> !sec.noAmbientRaise && !sec.noAmbientRaiseLocked)
  }

  function SetSecbits(k: Config, s: Proc, sec: Secbits): Proc {
    if MaySetSecbits(k, s, sec) then s.(sec := sec) else s
  }

  function KeepCaps(s: Proc, on: bool): Proc {
    if s.sec.keepCapsLocked then s else s.(sec := s.sec.(keepCaps := on))
  }

  // ---------- runs ----------

  datatype Write =
    | WCapset(flat: Flat)
    | WDrop(v: nat)
    | WRaise(v: nat)
    | WLower(v: nat)
    | WClear
    | WSecbits(sec: Secbits)
    | WKeepCaps(on: bool)

  function Apply(k: Config, s: Proc, w: Write): Proc {
    match w
    case WCapset(flat) => if |flat| == k.words then Capset(k, s, flat) else s
    case WDrop(v) => Drop(k, s, v)
    case WRaise(v) => RaiseAmbient(k, s, v)
    case WLower(v) => LowerAmbient(k, s, v)
    case WClear => ClearAmbient(k, s)
    case WSecbits(sec) => SetSecbits(k, s, sec)
    case WKeepCaps(on) => KeepCaps(s, on)
  }

  function Run(k: Config, s: Proc, ws: seq<Write>): Proc
    decreases |ws|
  {
    if ws == [] then s else Run(k, Apply(k, s, ws[0]), ws[1..])
  }

  lemma MaskedVals(k: Config, flat: Flat, f: Flag)
    ensures Vals(Masked(k, flat), f) == Vals(flat, f) * Below(k.values)
  {
    hide Bit, And, AllMask;
    forall v: nat
      ensures Raised(Masked(k, flat), f, v) <==> Raised(flat, f, v) && v < k.values
    {
      if v < 32 * |flat| {
        BitAnd(flat[v / 32].Get(f), AllMask(v / 32, k.values), v % 32);
        BitAllMask(v / 32, k.values, v % 32);
      }
    }
  }

  /** What a successful capset makes of the flags. */
  lemma CapsetSets(k: Config, s: Proc, flat: Flat)
    requires ProcOk(k, s) && |flat| == k.words && MayCapset(k, s, flat)
    ensures var s' := Capset(k, s, flat);
      && s'.E() == Vals(flat, Effective) * Below(k.values)
      && s'.P() == Vals(flat, Permitted) * Below(k.values)
      && s'.I() == Vals(flat, Inheritable) * Below(k.values)
      && s'.amb == s.amb * (s'.P() * s'.I())
      && s'.bset == s.bset && s'.sec == s.sec && |s'.flat| == k.words
  {
    MaskedVals(k, flat, Effective);
    MaskedVals(k, flat, Permitted);
    MaskedVals(k, flat, Inheritable);
    hide Vals, Below;
  }

  /** Every write keeps a process well formed, adds nothing to the permitted and the bounding
      set, adds to the inheritable set only from the bounding set, and keeps the locks. */
  lemma WriteKeeps(k: Config, s: Proc, w: Write)
    requires ProcOk(k, s)
    ensures var s' := Apply(k, s, w);
      && ProcOk(k, s') && s'.P() <= s.P() && s'.bset <= s.bset && s'.I() <= s.I() + s.bset
      && Respects(s.sec, s'.sec)
  {
    if w.WCapset? && |w.flat| == k.words && MayCapset(k, s, w.flat) {
      CapsetSets(k, s, w.flat);
    }
    hide Vals, Below, Masked;
  }

  lemma {:induction false} RunKeeps(k: Config, s: Proc, ws: seq<Write>)
    requires ProcOk(k, s)
    ensures var s' := Run(k, s, ws);
      && ProcOk(k, s') && s'.P() <= s.P() && s'.bset <= s.bset && s'.I() <= s.I() + s.bset
      && Respects(s.sec, s'.sec)
    decreases |ws|
  {
    if ws != [] {
      WriteKeeps(k, s, ws[0]);
      hide Apply, ProcOk, Vals;
      RunKeeps(k, Apply(k, s, ws[0]), ws[1..]);
    }
  }

  /** A lock that is set once stays set, and so does its setting, along every run of writes. */
  lemma LocksLast(k: Config, s: Proc, ws: seq<Write>)
    requires ProcOk(k, s)
    ensures var s' := Run(k, s, ws);
      && (s.sec.noRootLocked ==> s'.sec.noRootLocked && s'.sec.noRoot == s.sec.noRoot)
      && (s.sec.noSetuidFixupLocked ==> s'.sec.noSetuidFixupLocked && s'.sec.noSetuidFixup == s.sec.noSetuidFixup)
      && (s.sec.keepCapsLocked ==> s'.sec.keepCapsLocked && s'.sec.keepCaps == s.sec.keepCaps)
      && (s.sec.noAmbientRaiseLocked ==> s'.sec.noAmbientRaiseLocked && s'.sec.noAmbientRaise == s.sec.noAmbientRaise)
  {
    RunKeeps(k, s, ws);
    hide Run;
  }

  /** Without SETPCAP among the effective or permitted values nothing in the bounding set and no
      secure bit but an unlocked keep-caps changes any more. */
  lemma {:induction false} PowerlessRun(k: Config, s: Proc, ws: seq<Write>)
    requires ProcOk(k, s) && SETPCAP !in s.P()
    ensures var s' := Run(k, s, ws);
      s'.bset == s.bset && s'.sec == s.sec.(keepCaps := s'.sec.keepCaps) && (s.sec.keepCapsLocked ==> s'.sec == s.sec)
    decreases |ws|
  {
    if ws != [] {
      WriteKeeps(k, s, ws[0]);
      PowerlessWrite(k, s, ws[0]);
      hide Apply, ProcOk, Vals;
      PowerlessRun(k, Apply(k, s, ws[0]), ws[1..]);
    }
  }

  lemma PowerlessWrite(k: Config, s: Proc, w: Write)
    requires s.E() <= s.P() && SETPCAP !in s.P()
    ensures var s' := Apply(k, s, w);
      s'.bset == s.bset && s'.sec == s.sec.(keepCaps := s'.sec.keepCaps) && (s.sec.keepCapsLocked ==> s'.sec == s.sec)
  {
    hide Vals, Masked, MayCapset;
  }

  /** What each of the small writes changes, value by value, when it is granted. */
  lemma SmallWrites(k: Config, s: Proc, v: nat, on: bool)
    requires v < k.values
    ensures var s' := Apply(k, s, WDrop(v));
      forall u :: u in s'.bset <==> u in s.bset && (u != v || SETPCAP !in s.E())
    ensures var s' := Apply(k, s, WRaise(v));
      forall u :: u in s'.amb <==> u in s.amb || (u == v && k.ambient && v in s.P() && v in s.I() && !s.sec.noAmbientRaise)
    ensures var s' := Apply(k, s, WLower(v));
      forall u :: u in s'.amb <==> u in s.amb && (u != v || !k.ambient)
    ensures Apply(k, s, WKeepCaps(on)).sec.keepCaps == if s.sec.keepCapsLocked then s.sec.keepCaps else on
  {
    hide Vals;
  }

  // ---------- the system calls ----------

  class Process {
    var proc: Proc
    const k: Config

    constructor (k: Config, proc: Proc)
      ensures this.k == k && this.proc == proc
    {
      this.k := k;
      this.proc := proc;
    }

    method GetProc() returns (c: Set)
      ensures fresh(c) && c.flat == proc.flat
    {
      c := new Set(0);
      c.flat := proc.flat;
    }

    method SetProc(flat: Flat) returns (ok: bool)
      modifies this
      ensures proc == Capset(k, old(proc), flat) && (ok <==> MayCapset(k, old(proc), flat))
    {
      ok := MayCapset(k, proc, flat);
      proc := Capset(k, proc, flat);
    }

    /** Whether a value is in the bounding set; no answer for a value that does not exist. */
    method GetBound(v: nat) returns (r: Option<bool>)
      ensures r == if v < k.values then Some(v in proc.bset) else None
    {
      return if v < k.values then Some(v in proc.bset) else None;
    }

    method DropBound(v: nat) returns (ok: bool)
      modifies this
      ensures proc == Drop(k, old(proc), v) && (ok <==> MayDrop(k, old(proc), v))
    {
      ok := MayDrop(k, proc, v);
      proc := Drop(k, proc, v);
    }

    method GetAmbient(v: nat) returns (r: Option<bool>)
      ensures r == if k.ambient && v < k.values then Some(v in proc.amb) else None
    {
      return if k.ambient && v < k.values then Some(v in proc.amb) else None;
    }

    method RaiseAmb(v: nat) returns (ok: bool)
      modifies this
      ensures proc == RaiseAmbient(k, old(proc), v) && (ok <==> MayRaise(k, old(proc), v))
    {
      ok := MayRaise(k, proc, v);
      proc := RaiseAmbient(k, proc, v);
    }

    method ClearAllAmbient() returns (ok: bool)
      modifies this
      ensures proc == ClearAmbient(k, old(proc)) && (ok <==> k.ambient)
    {
      ok := k.ambient;
      proc := ClearAmbient(k, proc);
    }

    method GetSecbits() returns (sec: Secbits)
      ensures sec == proc.sec
    {
      sec := proc.sec;
    }

    method PutSecbits(sec: Secbits) returns (ok: bool)
      modifies this
      ensures proc == SetSecbits(k, old(proc), sec) && (ok <==> MaySetSecbits(k, old(proc), sec))
    {
      ok := MaySetSecbits(k, proc, sec);
      proc := SetSecbits(k, proc, sec);
    }
  }
}
