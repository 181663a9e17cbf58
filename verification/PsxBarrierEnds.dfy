/** The psx barrier never gets stuck: from every state that a call can reach, whatever else
    happened before, there is a way to its end. */
module PsxBarrierEnds {
  import opened PsxMap
  import opened PsxBarrier
  import opened PsxBarrierRuns

  // ---------- how far it is to the end ----------

  ghost function Signalled(live: map<Tid, Thread>): set<Tid> {
    set t | t in live && live[t].at == Running && live[t].signalled
  }

  ghost function InHandler(live: map<Tid, Thread>): set<Tid> {
    set t | t in live && live[t].at == Entered
  }

  ghost function Reporting(live: map<Tid, Thread>): set<Tid> {
    set t | t in live && live[t].at.Ran?
  }

  /** What the handlers still have to do. */
  ghost function Work(s: State): nat {
    3 * |Signalled(s.live)| + 2 * |InHandler(s.live)| + |Reporting(s.live)|
    + if s.pc == Draining then |HeldSet(s.live)| else 0
  }

  ghost predicate AllKnown(s: State) {
    s.live.Keys <= s.refs.Keys
  }

  /** A sweep that has found nobody new and nobody pending, and has only live threads to visit. */
  ghost predicate Clean(s: State) {
    && AllKnown(s) && s.some == 0 && !s.pc.Signalling?
    && Rest(s.pc) - {0, s.self} <= s.live.Keys
    && (s.pc.Counting? ==> s.pc.tid in s.live)
  }

  /** How many sweeps and later phases are left, at most. */
  ghost function Phases(s: State): nat
    requires s.verified < 2 || !Sweeping(s.pc)
  {
    match s.pc
    case Done => 0
    case Draining => 1
    case Releasing => 2
    case SweepStart => if AllKnown(s) then 3 + 2 * (2 - s.verified) else 10
    case _ => if Clean(s) then 2 + 2 * (2 - s.verified) else 9
  }

  ghost function Unlisted(s: State): nat {
    if Sweeping(s.pc) && s.pc != SweepStart then |s.live.Keys - s.seen| else 0
  }

  /** How far the caller is from the end of the batch. */
  ghost function Ahead(pc: Pc): nat {
    match pc
    case Visiting(rest) => 3 * |rest| + 1
    case Signalling(_, rest) => 3 * |rest| + 3
    case Counting(_, rest) => 3 * |rest| + 2
    case _ => 0
  }

  /** A state is closer to the end than another. */
  ghost predicate Closer(s': State, s: State)
    requires s.verified < 2 || !Sweeping(s.pc)
    requires s'.verified < 2 || !Sweeping(s'.pc)
  {
    || Phases(s') < Phases(s)
    || (Phases(s') == Phases(s) &&
        (|| Unlisted(s') < Unlisted(s)
         || (Unlisted(s') == Unlisted(s) &&
             (Ahead(s'.pc) < Ahead(s.pc) || (Ahead(s'.pc) == Ahead(s.pc) && Work(s') < Work(s))))))
  }

  // ---------- the next step ----------

  /** A handler that has something to do brings the end closer. */
  lemma HandlerNext(s: State) returns (b: Step)
    requires Inv(s) && s.pc != Done && Work(s) > 0
    ensures Enabled(s, b) && (b.Deliver? || b.RunSyscall? || b.Report? || b.Leave?)
    ensures Enabled(s, b) && Inv(Apply(s, b)) && Closer(Apply(s, b), s)
  {
    if Signalled(s.live) != {} {
      var t :| t in Signalled(s.live);
      b := Deliver(t);
      DeliverWorks(s, t);
    } else if InHandler(s.live) != {} {
      var t :| t in InHandler(s.live);
      b := RunSyscall(t, s.ret);
      RunWorks(s, t, s.ret);
    } else if Reporting(s.live) != {} {
      var t :| t in Reporting(s.live);
      b := Report(t);
      ReportWorks(s, t);
    } else {
      var t :| t in HeldSet(s.live);
      b := Leave(t);
      LeaveWorks(s, t);
    }
  }

  /** Less work with the caller where it was is closer. */
  lemma LessWork(s: State, s': State)
    requires s.verified < 2 || !Sweeping(s.pc)
    requires s'.pc == s.pc && s'.verified == s.verified && s'.some == s.some && s'.seen == s.seen && s'.self == s.self
    requires s'.live.Keys == s.live.Keys && s'.refs.Keys == s.refs.Keys && Work(s') < Work(s)
    ensures Closer(s', s)
  {
    hide Work;
  }

  // What it takes off the work when one thread moves on in its handler.

  lemma ToEntered(live: map<Tid, Thread>, live': map<Tid, Thread>, t: Tid)
    requires t in Signalled(live) && t in live' && live' == live[t := live'[t]] && live'[t].at == Entered
    ensures |Signalled(live')| == |Signalled(live)| - 1 && |InHandler(live')| == |InHandler(live)| + 1
    ensures Reporting(live') == Reporting(live) && HeldSet(live') == HeldSet(live)
  {
    assert Signalled(live') == Signalled(live) - {t} && InHandler(live') == InHandler(live) + {t};
  }

  lemma ToRan(live: map<Tid, Thread>, live': map<Tid, Thread>, t: Tid)
    requires t in InHandler(live) && t in live' && live' == live[t := live'[t]] && live'[t].at.Ran?
    ensures |InHandler(live')| == |InHandler(live)| - 1 && |Reporting(live')| == |Reporting(live)| + 1
    ensures Signalled(live') == Signalled(live) && HeldSet(live') == HeldSet(live)
  {
    assert InHandler(live') == InHandler(live) - {t} && Reporting(live') == Reporting(live) + {t};
  }

  lemma ToHeld(live: map<Tid, Thread>, live': map<Tid, Thread>, t: Tid)
    requires t in Reporting(live) && t in live' && live' == live[t := live'[t]] && live'[t].at.Held?
    ensures |Reporting(live')| == |Reporting(live)| - 1
    ensures Signalled(live') == Signalled(live) && InHandler(live') == InHandler(live)
  {
    assert Reporting(live') == Reporting(live) - {t};
  }

  lemma ToRunning(live: map<Tid, Thread>, live': map<Tid, Thread>, t: Tid)
    requires t in HeldSet(live) && t in live' && live' == live[t := live'[t]]
    requires live'[t].at == Running && !live'[t].signalled
    ensures |HeldSet(live')| == |HeldSet(live)| - 1 && Reporting(live') == Reporting(live)
    ensures Signalled(live') == Signalled(live) && InHandler(live') == InHandler(live)
  {
    assert HeldSet(live') == HeldSet(live) - {t};
  }

  lemma DeliverWorks(s: State, t: Tid)
    requires Inv(s) && t in Signalled(s.live)
    ensures Enabled(s, Deliver(t)) && Inv(Apply(s, Deliver(t))) && Closer(Apply(s, Deliver(t)), s)
  {
    assert s.active && Sweeping(s.pc) && s.verified < 2;
    StepInv(s, Deliver(t));
    hide Inv, Closer;
    ToEntered(s.live, Apply(s, Deliver(t)).live, t);
    hide Signalled, InHandler, Reporting, HeldSet;
    LessWork(s, Apply(s, Deliver(t)));
  }

  lemma RunWorks(s: State, t: Tid, r: int)
    requires Inv(s) && t in InHandler(s.live)
    ensures Enabled(s, RunSyscall(t, r)) && Inv(Apply(s, RunSyscall(t, r))) && Closer(Apply(s, RunSyscall(t, r)), s)
  {
    StepInv(s, RunSyscall(t, r));
    VerifiedSmall(s);
    hide Inv, Closer;
    ToRan(s.live, Apply(s, RunSyscall(t, r)).live, t);
    hide Signalled, InHandler, Reporting, HeldSet;
    LessWork(s, Apply(s, RunSyscall(t, r)));
  }

  lemma VerifiedSmall(s: State)
    requires Inv(s)
    ensures s.verified < 2 || !Sweeping(s.pc)
  {
  }

  lemma ReportWorks(s: State, t: Tid)
    requires Inv(s) && t in Reporting(s.live)
    ensures Enabled(s, Report(t)) && Inv(Apply(s, Report(t))) && Closer(Apply(s, Report(t)), s)
  {
    StepInv(s, Report(t));
    OwnEntry(s, t);
    hide Inv, Closer;
    ToHeld(s.live, Apply(s, Report(t)).live, t);
    hide Signalled, InHandler, Reporting, HeldSet;
    LessWork(s, Apply(s, Report(t)));
  }

  lemma OwnEntry(s: State, t: Tid)
    requires Inv(s) && t in Reporting(s.live)
    ensures Sweeping(s.pc) && t in s.refs && s.verified < 2
  {
    hide SweepOk;
  }

  lemma LeaveWorks(s: State, t: Tid)
    requires Inv(s) && s.pc == Draining && t in HeldSet(s.live)
    ensures Enabled(s, Leave(t)) && Inv(Apply(s, Leave(t))) && Closer(Apply(s, Leave(t)), s)
  {
    StepInv(s, Leave(t));
    assert !s.active && !s.live[t].signalled;
    hide Inv, Closer;
    ToRunning(s.live, Apply(s, Leave(t)).live, t);
    hide Signalled, InHandler, Reporting, HeldSet;
    LessWork(s, Apply(s, Leave(t)));
  }

  /** When no handler has anything to do, every registered thread is held, unless it is just
      about to be signalled. */
  lemma Settled(s: State)
    requires Inv(s) && Attended(s) && Work(s) == 0
    ensures Sweeping(s.pc) ==> forall t :: t in s.live && t in s.refs && !(s.pc.Signalling? && s.pc.tid == t) ==> !s.refs[t].pending
    ensures s.pc == Draining ==> s.incomplete == 0
  {
    assert Signalled(s.live) == {} && InHandler(s.live) == {} && Reporting(s.live) == {};
    NoneAtWork(s);
    hide Signalled, InHandler, Reporting, SweepOk;
  }

  lemma NoneAtWork(s: State)
    requires Signalled(s.live) == {} && InHandler(s.live) == {} && Reporting(s.live) == {}
    ensures forall t :: t in s.live ==> s.live[t].at != Entered && !s.live[t].at.Ran?
    ensures forall t :: t in s.live && s.live[t].signalled ==> s.live[t].at != Running
  {
    forall t | t in s.live
      ensures s.live[t].at != Entered && !s.live[t].at.Ran? && (s.live[t].signalled ==> s.live[t].at != Running)
    {
      assert t !in Signalled(s.live);
      assert t !in InHandler(s.live);
      assert t !in Reporting(s.live);
    }
  }

  /** The caller's next step: it never has to wait once the handlers are done. */
  lemma CallerNext(s: State) returns (b: Step)
    requires Inv(s) && Attended(s) && s.pc != Done && Work(s) == 0
    ensures Enabled(s, b) && Inv(Apply(s, b)) && Closer(Apply(s, b), s)
    ensures b == BeginSweep || b.Batch? || b == EndOfList || b.Visit? || b == Signal || b == Count || b == Release || b == Finish
  {
    Settled(s);
    hide Attended, Work, Inv, Closer, Apply, Enabled;
    match s.pc
    case SweepStart =>
      b := BeginSweep;
      BeginNext(s);
    case Listing =>
      b := if s.live.Keys <= s.seen then EndOfList else Batch(s.live.Keys - s.seen);
      if s.live.Keys <= s.seen {
        EndNext(s);
      } else {
        BatchNext(s);
      }
    case Visiting(rest) =>
      var t := AnyOf(rest);
      b := Visit(t);
      VisitNext(s, t);
    case Signalling(_, _) =>
      b := Signal;
      SignalNext(s);
    case Counting(_, _) =>
      b := Count;
      CountNext(s);
    case Releasing =>
      b := Release;
      ReleaseNext(s);
    case Draining =>
      b := Finish;
      FinishNext(s);
  }

  lemma AnyOf(tids: set<Tid>) returns (t: Tid)
    ensures tids == {} || t in tids
  {
    t := 0;
    if tids != {} {
      t :| t in tids;
    }
  }

  lemma SignalNext(s: State)
    requires Inv(s) && s.pc.Signalling?
    ensures Enabled(s, Signal) && Inv(Apply(s, Signal)) && Closer(Apply(s, Signal), s)
  {
    VerifiedSmall(s);
    hide Inv;
    StepInv(s, Signal);
    hide Work;
    var s' := Apply(s, Signal);
    assert s'.live.Keys == s.live.Keys;
    FartherAlong(s, s');
    hide Closer;
  }

  /** A caller that has moved on within its sweep is closer, unless it found out something. */
  lemma FartherAlong(s: State, s': State)
    requires Sweeping(s.pc) && Sweeping(s'.pc) && s.pc != SweepStart && s'.pc != SweepStart
    requires s.verified < 2 && s'.verified == s.verified && s'.live.Keys == s.live.Keys && s'.seen == s.seen
    requires Clean(s) ==> Clean(s')
    requires Ahead(s'.pc) < Ahead(s.pc)
    ensures Closer(s', s)
  {
    hide Clean, Work;
  }

  lemma ReleaseNext(s: State)
    requires Inv(s) && s.pc == Releasing
    ensures Enabled(s, Release) && Inv(Apply(s, Release)) && Closer(Apply(s, Release), s)
  {
    StepInv(s, Release);
    hide Inv, Work;
  }

  lemma FinishNext(s: State)
    requires Inv(s) && s.pc == Draining && s.incomplete == 0
    ensures Enabled(s, Finish) && Inv(Apply(s, Finish)) && Closer(Apply(s, Finish), s)
  {
    StepInv(s, Finish);
    hide Inv, Work;
  }

  lemma BeginNext(s: State)
    requires Inv(s) && s.pc == SweepStart
    ensures Enabled(s, BeginSweep) && Inv(Apply(s, BeginSweep)) && Closer(Apply(s, BeginSweep), s)
  {
    StepInv(s, BeginSweep);
    hide Inv, Work;
  }

  lemma EndNext(s: State)
    requires Inv(s) && s.pc == Listing && s.live.Keys <= s.seen
    ensures Enabled(s, EndOfList) && Inv(Apply(s, EndOfList)) && Closer(Apply(s, EndOfList), s)
  {
    StepInv(s, EndOfList);
    assert s.seen <= s.counted && s.counted <= s.refs.Keys;
    assert AllKnown(Apply(s, EndOfList));
    hide Inv, Work;
  }

  lemma BatchNext(s: State)
    requires Inv(s) && s.pc == Listing && !(s.live.Keys <= s.seen)
    ensures var b := Batch(s.live.Keys - s.seen); Enabled(s, b) && Inv(Apply(s, b)) && Closer(Apply(s, b), s)
  {
    var more := s.live.Keys - s.seen;
    assert more != {};
    Unmet(s);
    VerifiedSmall(s);
    hide Inv;
    StepInv(s, Batch(more));
    BatchCloser(s, more);
    hide Closer;
  }

  lemma Unmet(s: State)
    requires Inv(s)
    ensures 0 !in s.live && s.self !in s.live && s.live.Keys <= s.used
  {
  }

  lemma BatchCloser(s: State, more: set<Tid>)
    requires s.pc == Listing && s.verified < 2 && more == s.live.Keys - s.seen && more != {}
    requires 0 !in s.live && s.self !in s.live && Enabled(s, Batch(more))
    ensures Closer(Apply(s, Batch(more)), s)
  {
    hide Work;
    var s' := Apply(s, Batch(more));
    assert s'.live.Keys - s'.seen == {};
  }

  lemma VisitNext(s: State, t: Tid)
    requires Inv(s) && s.pc.Visiting? && (s.pc.rest == {} || t in s.pc.rest)
    ensures Enabled(s, Visit(t)) && Inv(Apply(s, Visit(t))) && Closer(Apply(s, Visit(t)), s)
  {
    VerifiedSmall(s);
    hide Inv;
    StepInv(s, Visit(t));
    VisitCloser(s, t);
    hide Closer;
  }

  lemma VisitCloser(s: State, t: Tid)
    requires s.pc.Visiting? && s.verified < 2 && Enabled(s, Visit(t))
    ensures Closer(Apply(s, Visit(t)), s)
  {
    var s' := Apply(s, Visit(t));
    if s.pc.rest != {} {
      assert |s.pc.rest - {t}| == |s.pc.rest| - 1;
    }
    if Clean(s) {
      StaysClean(s, t);
    }
    hide Clean;
    FartherAlong(s, s');
    hide Closer;
  }

  lemma StaysClean(s: State, t: Tid)
    requires s.pc.Visiting? && Enabled(s, Visit(t)) && Clean(s)
    ensures Clean(Apply(s, Visit(t)))
  {
  }

  lemma CountNext(s: State)
    requires Inv(s) && s.pc.Counting? && (s.pc.tid in s.live && s.pc.tid in s.refs ==> !s.refs[s.pc.tid].pending)
    ensures Enabled(s, Count) && Inv(Apply(s, Count)) && Closer(Apply(s, Count), s)
  {
    VerifiedSmall(s);
    InvGivesEntries(s);
    hide Inv;
    StepInv(s, Count);
    CountsClean(s);
    hide Clean, Work;
    var s' := Apply(s, Count);
    assert s.pc.tid in s.refs;
    FartherAlong(s, s');
    hide Closer;
  }

  lemma CountsClean(s: State)
    requires s.pc.Counting? && s.pc.tid in s.refs && (s.pc.tid in s.live ==> !s.refs[s.pc.tid].pending)
    ensures Clean(s) ==> Clean(Apply(s, Count))
  {
  }

  // ---------- the way to the end ----------

  /** What the next step may be, and that it brings the end closer. */
  lemma NextStep(s: State) returns (b: Step)
    requires Inv(s) && Attended(s) && s.pc != Done
    ensures Enabled(s, b) && !b.Exit? && !b.Clone? && b != Grow
    ensures Enabled(s, b) && Inv(Apply(s, b)) && Attended(Apply(s, b)) && Closer(Apply(s, b), s)
  {
    if Work(s) > 0 {
      b := HandlerNext(s);
    } else {
      b := CallerNext(s);
    }
    StepAttends(s, b);
  }

  lemma {:induction false} WayOut(s: State) returns (steps: seq<Step>)
    requires Inv(s) && Attended(s)
    ensures Legal(s, steps) && Exec(s, steps).pc == Done
    decreases Phases(s), Unlisted(s), Ahead(s.pc), Work(s)
  {
    if s.pc == Done {
      steps := [];
    } else {
      var b := NextStep(s);
      hide Inv, Attended, Enabled, Apply, Phases, Unlisted, Ahead, Work;
      var rest := WayOut(Apply(s, b));
      steps := [b] + rest;
      assert steps[1..] == rest;
    }
  }

  /** Whatever has happened so far, the call can be brought to its end: every thread gets its
      signal, reports, is counted and released. */
  lemma CanComplete(s: State, steps: seq<Step>)
    requires Init(s) && Legal(s, steps)
    ensures exists more :: Legal(Exec(s, steps), more) && Exec(Exec(s, steps), more).pc == Done
  {
    InitInv(s);
    RunInv(s, steps);
    NobodyForgotten(s, steps);
    hide Legal, Exec;
    var more := WayOut(Exec(s, steps));
  }
}
