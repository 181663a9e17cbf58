/** The psx barrier as a transition system: the caller's sweep loop, the actors that run in
    the other threads' signal handlers, and threads that start and end at any time.

    One step is one section between psx_lock and psx_unlock, or one system call. */
module PsxBarrier {
  import opened PsxMap

  type Tid = nat

  /** Where a thread other than the caller stands with respect to the actor. */
  datatype Where = Running | Entered | Ran(retval: int) | Held(retval: int)

  /** `applied` counts how often this call's system call shaped the thread's privilege,
      by its own actor or through the thread that cloned it. */
  datatype Thread = Thread(at: Where, signalled: bool, applied: nat)

  datatype Pc =
    | SweepStart
    | Listing
    | Visiting(rest: set<Tid>)
    | Signalling(tid: Tid, rest: set<Tid>)
    | Counting(tid: Tid, rest: set<Tid>)
    | Releasing
    | Draining
    | Done

  /** The tracker, the caller's locals and the other threads. `used` holds every thread id
      met during the call, `seen` those listed in this sweep, `counted` those counted in it.
      `stray` records an actor that reported into an entry that is not its own. */
  datatype State = State(
    self: Tid, ret: int, pc: Pc,
    live: map<Tid, Thread>, used: set<Tid>,
    refs: Refs, active: bool, incomplete: int,
    sweep: int, some: nat, count: nat, verified: nat, mismatch: bool,
    seen: set<Tid>, counted: set<Tid>, stray: bool)

  /** The call begins: its own system call succeeded, the map is cleared, nobody is in the
      actor and no thread carries the effect yet. */
  ghost predicate Init(s: State) {
    && s.pc == SweepStart && s.sweep == 1 && s.verified == 0 && !s.mismatch
    && s.some == 0 && s.count == 0 && s.seen == {} && s.counted == {}
    && s.refs == map[] && !s.active && !s.stray
    && s.self != 0 && s.self !in s.used && 0 !in s.used && s.live.Keys <= s.used
    && forall t :: t in s.live ==> s.live[t] == Thread(Running, false, 0)
  }

  datatype Step =
    // the caller
    | BeginSweep
    | Batch(tids: set<Tid>)
    | EndOfList
    | Grow
    | Visit(tid: Tid)
    | Signal
    | Count
    | Release
    | Finish
    // an actor
    | Deliver(tid: Tid)
    | RunSyscall(tid: Tid, retval: int)
    | Report(tid: Tid)
    | Leave(tid: Tid)
    // other code of the process
    | Exit(tid: Tid)
    | Clone(parent: Tid, child: Tid)

  /** A batch holds ids of threads of this process, none listed before in the sweep. It is
      visited in any order; entries that are not numbers read as 0. */
  ghost predicate ListingOk(s: State, tids: set<Tid>) {
    && tids != {}
    && forall t :: t in tids ==> t == 0 || t == s.self || (t in s.used && t !in s.seen)
  }

  ghost predicate Enabled(s: State, step: Step) {
    match step
    case BeginSweep => s.pc == SweepStart
    case Batch(tids) => s.pc == Listing && ListingOk(s, tids)
    // the listing ends only when every live thread has been listed in this sweep
    case EndOfList => s.pc == Listing && s.live.Keys <= s.seen
    // a thread to be visited collides, and the table doubles before it is registered
    case Grow => s.pc.Visiting? && s.pc.rest != {}
    case Visit(t) => s.pc.Visiting? && (s.pc.rest == {} || t in s.pc.rest)
    case Signal => s.pc.Signalling?
    case Count => s.pc.Counting?
    case Release => s.pc == Releasing
    case Finish => s.pc == Draining && s.incomplete == 0
    case Deliver(t) => t in s.live && s.live[t].at == Running && s.live[t].signalled
    case RunSyscall(t, _) => t in s.live && s.live[t].at == Entered
    case Report(t) => t in s.live && s.live[t].at.Ran?
    case Leave(t) => t in s.live && s.live[t].at.Held? && !s.active
    case Exit(t) => t in s.live && s.live[t].at == Running
    case Clone(t, u) =>
      && t in s.live && s.live[t].at == Running
      && u != 0 && u != s.self && u !in s.used
  }

  ghost function Apply(s: State, step: Step): State
    requires Enabled(s, step)
  {
    match step
    case BeginSweep =>
      s.(pc := Listing, sweep := s.sweep + 1, some := 0, count := 0, seen := {}, counted := {})
    case Batch(tids) =>
      s.(pc := Visiting(tids), seen := s.seen + (tids - {0, s.self}))
    case EndOfList =>
      var verified := if s.some > 0 then 0 else s.verified + 1;
      s.(verified := verified, pc := if verified < 2 then SweepStart else Releasing)
    case Grow => s.(refs := Recent(s.refs, s.sweep))
    case Visit(t) =>
      if s.pc.rest == {} then s.(pc := Listing)
      else
        var rest := s.pc.rest - {t};
        if t == 0 || t == s.self then s.(pc := Visiting(rest))
        else if t in s.refs then s.(pc := Counting(t, rest))
        else s.(pc := Signalling(t, rest), active := true, refs := s.refs[t := Fresh(t)])
    case Signal =>
      var t := s.pc.tid;
      var live := if t in s.live then s.live[t := s.live[t].(signalled := true)] else s.live;
      s.(pc := Counting(t, s.pc.rest), live := live)
    case Count =>
      var t := s.pc.tid;
      if t !in s.refs then s.(stray := true)
      else
        var r := s.refs[t];
        s.(pc := Visiting(s.pc.rest), refs := s.refs[t := r.(sweep := s.sweep)],
           count := s.count + 1, counted := s.counted + {t},
           some := if r.pending then s.some + 1 else s.some,
           mismatch := s.mismatch || (!r.pending && r.retval != s.ret))
    case Release => s.(pc := Draining, incomplete := s.count, active := false)
    case Finish => s.(pc := Done)
    case Deliver(t) =>
      s.(live := s.live[t := s.live[t].(signalled := false, at := if s.active then Entered else Running)])
    case RunSyscall(t, r) =>
      s.(live := s.live[t := s.live[t].(at := Ran(r), applied := s.live[t].applied + 1)])
    case Report(t) =>
      if t !in s.refs then s.(stray := true)
      else s.(live := s.live[t := s.live[t].(at := Held(s.live[t].at.retval))],
              refs := s.refs[t := s.refs[t].(retval := s.live[t].at.retval, pending := false)])
    case Leave(t) =>
      s.(live := s.live[t := s.live[t].(at := Running)], incomplete := s.incomplete - 1)
    case Exit(t) => s.(live := s.live - {t})
    case Clone(t, u) =>
      s.(live := s.live[u := Thread(Running, false, s.live[t].applied)], used := s.used + {u})
  }

  // ---------- the invariant ----------

  ghost predicate Sweeping(pc: Pc) {
    pc == SweepStart || pc == Listing || pc.Visiting? || pc.Signalling? || pc.Counting?
  }

  /** The thread between registration and its first count, if there is one. */
  ghost predicate IsCurrent(pc: Pc, t: Tid) {
    (pc.Signalling? || pc.Counting?) && pc.tid == t
  }

  ghost function Rest(pc: Pc): set<Tid> {
    if pc.Visiting? || pc.Signalling? || pc.Counting? then pc.rest else {}
  }

  ghost function HeldSet(live: map<Tid, Thread>): set<Tid> {
    set t | t in live && live[t].at.Held?
  }

  ghost predicate Common(s: State) {
    && s.self != 0 && s.self !in s.used && 0 !in s.used && !s.stray
    && s.live.Keys <= s.used && s.refs.Keys <= s.used
  }

  /** Before the release, a thread is in the actor only with an entry that says so. */
  ghost predicate ActorOk(th: Thread, refs: Refs, t: Tid) {
    && (th.signalled ==> th.at == Running && t in refs && refs[t].pending)
    && match th.at
       case Running => th.applied == 0 && (t in refs ==> refs[t].pending)
       case Entered => th.applied == 0 && t in refs && refs[t].pending
       case Ran(_) => th.applied == 1 && t in refs && refs[t].pending
       case Held(r) => th.applied == 1 && t in refs && !refs[t].pending && refs[t].retval == r
  }

  ghost predicate BeforeRelease(s: State) {
    && (!s.active ==> s.refs == map[])
    && (forall t :: t in s.live ==> ActorOk(s.live[t], s.refs, t))
    && (forall t :: t in s.refs && !s.refs[t].pending ==> t in s.live && s.live[t].at.Held?)
    && s.sweep >= 1
  }

  /** What was listed is counted, current or still to visit, and only one of these. */
  ghost predicate ListOk(s: State) {
    var rest := Rest(s.pc);
    && s.counted <= s.seen <= s.used
    && (s.pc != SweepStart ==> forall t :: t in s.seen ==> t in s.counted || t in rest || IsCurrent(s.pc, t))
    && (forall t :: IsCurrent(s.pc, t) ==> t in s.refs && t !in s.counted && t in s.seen)
    && (forall t :: t in rest && t != 0 && t != s.self ==>
          t in s.seen && t !in s.counted && !IsCurrent(s.pc, t))
  }

  /** A live thread's entry was seen in this sweep or the previous one. */
  ghost predicate FreshOk(s: State) {
    && (forall t :: t in s.counted ==> t in s.refs && s.refs[t].sweep == s.sweep)
    && (forall t :: t in s.live && t in s.refs && !IsCurrent(s.pc, t) ==> s.refs[t].sweep >= s.sweep - 1)
    && (s.pc != SweepStart ==> s.sweep >= 2)
    && (s.pc == SweepStart && s.sweep >= 2 ==>
          forall t :: t in s.live && t in s.refs ==> s.refs[t].sweep == s.sweep)
    && (s.pc == SweepStart && s.sweep == 1 ==> s.refs == map[])
  }

  /** A thread about to be signalled for the first time. */
  ghost predicate SignalOk(s: State) {
    s.pc.Signalling? ==>
      && s.active
      && s.pc.tid in s.refs && s.refs[s.pc.tid].pending
      && (s.pc.tid in s.live ==> s.live[s.pc.tid].at == Running && !s.live[s.pc.tid].signalled)
  }

  /** The caller's counters speak of exactly the counted threads. */
  ghost predicate TallyOk(s: State) {
    && s.counted <= s.refs.Keys
    && s.count == |s.counted|
    && (s.some == 0 ==> forall t :: t in s.counted ==> !s.refs[t].pending)
    && (s.mismatch ==> exists t :: t in s.refs && !s.refs[t].pending && s.refs[t].retval != s.ret)
    && (s.some == 0 && !s.mismatch ==> forall t :: t in s.counted ==> s.refs[t].retval == s.ret)
  }

  ghost predicate SweepOk(s: State) {
    ListOk(s) && FreshOk(s) && SignalOk(s) && TallyOk(s)
  }

  /** The loop has exited: everyone is held, everyone is counted. */
  ghost predicate AllHeld(s: State) {
    && (forall t :: t in s.live ==> s.live[t].at.Held?)
    && s.count == |s.live.Keys|
    && (s.mismatch <==> exists t :: t in s.live && s.live[t].at.retval != s.ret)
  }

  ghost predicate AfterRelease(s: State) {
    && !s.active
    && s.incomplete == |HeldSet(s.live)|
    && (forall t :: t in s.live ==>
          && s.live[t].applied == 1 && !s.live[t].signalled
          && (s.live[t].at == Running || s.live[t].at.Held?))
  }

  ghost predicate Inv(s: State) {
    && Common(s)
    && (Sweeping(s.pc) ==> BeforeRelease(s) && SweepOk(s) && s.verified < 2)
    && (!Sweeping(s.pc) ==> s.verified == 2)
    && (s.pc == Releasing ==> BeforeRelease(s) && AllHeld(s))
    && (s.pc == Draining ==> AfterRelease(s))
    && (s.pc == Done ==> AfterRelease(s) && s.incomplete == 0)
  }

  // ---------- every step keeps it ----------

  lemma InitInv(s: State)
    requires Init(s)
    ensures Inv(s)
  {
  }

  lemma BeginSweepInv(s: State)
    requires Inv(s) && s.pc == SweepStart
    ensures Inv(Apply(s, BeginSweep))
  {
  }

  lemma BatchInv(s: State, tids: set<Tid>)
    requires Inv(s) && Enabled(s, Batch(tids))
    ensures Inv(Apply(s, Batch(tids)))
  {
  }

  lemma EndOfListInv(s: State)
    requires Inv(s) && Enabled(s, EndOfList)
    ensures Inv(Apply(s, EndOfList))
  {
    if s.some == 0 {
      NobodyPending(s);
    }
    ListEnded(s);
    hide ActorOk, AllHeld, ListOk, FreshOk, TallyOk;
  }

  lemma ListEnded(s: State)
    requires Inv(s) && Enabled(s, EndOfList)
    ensures var s' := Apply(s, EndOfList); s'.pc == SweepStart ==> ListOk(s') && FreshOk(s') && TallyOk(s')
  {
    hide ActorOk, AllHeld;
  }

  /** A list that ends with nobody pending has counted everyone, and everyone is held. */
  lemma NobodyPending(s: State)
    requires Inv(s) && Enabled(s, EndOfList) && s.some == 0
    ensures AllHeld(Apply(s, EndOfList))
  {
    assert s.counted == s.live.Keys;
    assert forall t :: t in s.counted ==> t in s.refs && s.refs[t].retval == s.live[t].at.retval;
  }

  /** Whatever a growth drops is neither live nor counted, whoever reports meanwhile. */
  lemma GrowInv(s: State)
    requires Inv(s) && Enabled(s, Grow)
    ensures Inv(Apply(s, Grow))
  {
    assert forall t :: t in s.live && t in s.refs ==> s.refs[t].sweep >= s.sweep - 1;
    GrowTally(s);
    hide TallyOk, HeldSet;
  }

  lemma GrowTally(s: State)
    requires Inv(s) && Enabled(s, Grow)
    ensures TallyOk(Apply(s, Grow))
  {
    var s' := Apply(s, Grow);
    if s.mismatch {
      var t :| t in s.refs && !s.refs[t].pending && s.refs[t].retval != s.ret;
      assert t in s.live;
      assert t in s'.refs && s'.refs[t] == s.refs[t];
    }
  }

  lemma VisitInv(s: State, t: Tid)
    requires Inv(s) && Enabled(s, Visit(t))
    ensures Inv(Apply(s, Visit(t)))
  {
    if IsNew(s, t) {
      assert t in s.seen && t !in s.counted;
      RegisterActors(s, t);
      RegisterTally(s, t);
      RegisterList(s, t);
      hide Common, BeforeRelease, ListOk, FreshOk, SignalOk, TallyOk;
    } else {
      VisitKnownInv(s, t);
    }
  }

  lemma VisitKnownInv(s: State, t: Tid)
    requires Inv(s) && Enabled(s, Visit(t)) && !IsNew(s, t)
    ensures Inv(Apply(s, Visit(t)))
  {
    VisitKnownList(s, t);
    VisitKnownFresh(s, t);
    hide ListOk, FreshOk, ActorOk, HeldSet, AllHeld, AfterRelease;
  }

  /** The thread about to be visited has no entry yet. */
  ghost predicate IsNew(s: State, t: Tid) {
    s.pc.Visiting? && t in s.pc.rest && t != 0 && t != s.self && t !in s.refs
  }

  lemma VisitKnownList(s: State, t: Tid)
    requires Common(s) && ListOk(s) && Enabled(s, Visit(t)) && !IsNew(s, t)
    ensures ListOk(Apply(s, Visit(t)))
  {
  }

  lemma VisitKnownFresh(s: State, t: Tid)
    requires FreshOk(s) && Enabled(s, Visit(t)) && !IsNew(s, t)
    ensures FreshOk(Apply(s, Visit(t)))
  {
  }

  lemma RegisterList(s: State, t: Tid)
    requires IsNew(s, t) && Common(s) && BeforeRelease(s) && ListOk(s) && FreshOk(s)
    ensures var s' := Apply(s, Visit(t)); Common(s') && ListOk(s') && SignalOk(s') && FreshOk(s')
  {
  }

  lemma RegisterActors(s: State, t: Tid)
    requires IsNew(s, t) && BeforeRelease(s)
    ensures BeforeRelease(Apply(s, Visit(t)))
  {
  }

  lemma RegisterTally(s: State, t: Tid)
    requires IsNew(s, t) && TallyOk(s)
    ensures TallyOk(Apply(s, Visit(t)))
  {
    var s' := Apply(s, Visit(t));
    assert forall u :: u in s.refs ==> u in s'.refs && s'.refs[u] == s.refs[u];
  }

  lemma SignalInv(s: State)
    requires Inv(s) && s.pc.Signalling?
    ensures Inv(Apply(s, Signal))
  {
  }

  lemma CountInv(s: State)
    requires Inv(s) && s.pc.Counting?
    ensures Inv(Apply(s, Count))
  {
  }

  lemma ReleaseInv(s: State)
    requires Inv(s) && s.pc == Releasing
    ensures Inv(Apply(s, Release))
  {
    assert HeldSet(s.live) == s.live.Keys;
  }

  lemma FinishInv(s: State)
    requires Inv(s) && Enabled(s, Finish)
    ensures Inv(Apply(s, Finish))
  {
  }

  lemma DeliverInv(s: State, t: Tid)
    requires Inv(s) && Enabled(s, Deliver(t))
    ensures Inv(Apply(s, Deliver(t)))
  {
  }

  lemma RunSyscallInv(s: State, t: Tid, r: int)
    requires Inv(s) && Enabled(s, RunSyscall(t, r))
    ensures Inv(Apply(s, RunSyscall(t, r)))
  {
  }

  lemma ReportInv(s: State, t: Tid)
    requires Inv(s) && Enabled(s, Report(t))
    ensures Inv(Apply(s, Report(t)))
  {
    assert Sweeping(s.pc) && t in s.refs && s.refs[t].pending;
    ReportTally(s, t);
    hide TallyOk;
  }

  lemma ReportTally(s: State, t: Tid)
    requires TallyOk(s) && Enabled(s, Report(t)) && t in s.refs && s.refs[t].pending
    ensures TallyOk(Apply(s, Report(t)))
  {
    var s' := Apply(s, Report(t));
    if s.mismatch {
      var u :| u in s.refs && !s.refs[u].pending && s.refs[u].retval != s.ret;
      assert u in s'.refs && s'.refs[u] == s.refs[u];
    }
  }

  lemma LeaveInv(s: State, t: Tid)
    requires Inv(s) && Enabled(s, Leave(t))
    ensures Inv(Apply(s, Leave(t)))
  {
    assert HeldSet(Apply(s, Leave(t)).live) == HeldSet(s.live) - {t};
  }

  lemma ExitInv(s: State, t: Tid)
    requires Inv(s) && Enabled(s, Exit(t))
    ensures Inv(Apply(s, Exit(t)))
  {
    assert HeldSet(Apply(s, Exit(t)).live) == HeldSet(s.live);
  }

  lemma CloneInv(s: State, t: Tid, u: Tid)
    requires Inv(s) && Enabled(s, Clone(t, u))
    ensures Inv(Apply(s, Clone(t, u)))
  {
    assert HeldSet(Apply(s, Clone(t, u)).live) == HeldSet(s.live);
  }

  lemma StepInv(s: State, step: Step)
    requires Inv(s) && Enabled(s, step)
    ensures Inv(Apply(s, step))
  {
    hide Inv;
    match step
    case BeginSweep => BeginSweepInv(s);
    case Batch(tids) => BatchInv(s, tids);
    case EndOfList => EndOfListInv(s);
    case Grow => GrowInv(s);
    case Visit(t) => VisitInv(s, t);
    case Signal => SignalInv(s);
    case Count => CountInv(s);
    case Release => ReleaseInv(s);
    case Finish => FinishInv(s);
    case Deliver(t) => DeliverInv(s, t);
    case RunSyscall(t, r) => RunSyscallInv(s, t, r);
    case Report(t) => ReportInv(s, t);
    case Leave(t) => LeaveInv(s, t);
    case Exit(t) => ExitInv(s, t);
    case Clone(t, u) => CloneInv(s, t, u);
  }

  // ---------- whole runs ----------

  ghost predicate Legal(s: State, steps: seq<Step>)
    decreases |steps|
  {
    steps == [] || (Enabled(s, steps[0]) && Legal(Apply(s, steps[0]), steps[1..]))
  }

  ghost function Exec(s: State, steps: seq<Step>): State
    requires Legal(s, steps)
    decreases |steps|
  {
    if steps == [] then s else Exec(Apply(s, steps[0]), steps[1..])
  }

  /** One more step at the end of a run. */
  lemma {:induction false} Extended(s: State, steps: seq<Step>, step: Step)
    requires Legal(s, steps) && Enabled(Exec(s, steps), step)
    ensures Legal(s, steps + [step]) && Exec(s, steps + [step]) == Apply(Exec(s, steps), step)
    decreases |steps|
  {
    hide Enabled, Apply;
    if steps == [] {
      assert ([] + [step])[1..] == [];
      assert Legal(Apply(s, step), []);
    } else {
      Extended(Apply(s, steps[0]), steps[1..], step);
      assert (steps + [step])[1..] == steps[1..] + [step];
    }
  }
}
