/** What holds in every run of the psx barrier. */
module PsxBarrierRuns {
  import opened PsxMap
  import opened PsxBarrier

  lemma {:induction false} RunInv(s: State, steps: seq<Step>)
    requires Inv(s) && Legal(s, steps)
    ensures Inv(Exec(s, steps))
    decreases |steps|
  {
    hide Inv, Apply, Enabled;
    if steps != [] {
      StepInv(s, steps[0]);
      RunInv(Apply(s, steps[0]), steps[1..]);
    }
  }

  /** Nobody whose entry is pending is forgotten: but for the thread about to be signalled, it
      has its signal pending or is in its handler. */
  ghost predicate Attended(s: State) {
    forall t :: Sweeping(s.pc) && t in s.live && t in s.refs && s.refs[t].pending && !(s.pc.Signalling? && s.pc.tid == t) ==>
      s.live[t].signalled || s.live[t].at.Entered? || s.live[t].at.Ran?
  }

  lemma StepAttends(s: State, step: Step)
    requires Inv(s) && Attended(s) && Enabled(s, step)
    ensures Attended(Apply(s, step))
  {
    hide TallyOk, HeldSet, AllHeld, AfterRelease;
  }

  lemma {:induction false} RunAttends(s: State, steps: seq<Step>)
    requires Inv(s) && Attended(s) && Legal(s, steps)
    ensures Attended(Exec(s, steps))
    decreases |steps|
  {
    hide Inv, Attended, Apply, Enabled;
    if steps != [] {
      StepInv(s, steps[0]);
      StepAttends(s, steps[0]);
      RunAttends(Apply(s, steps[0]), steps[1..]);
    }
  }

  /** In every state of every run a registered thread has got its signal, or is about to. */
  lemma NobodyForgotten(s: State, steps: seq<Step>)
    requires Init(s) && Legal(s, steps)
    ensures Attended(Exec(s, steps))
  {
    InitInv(s);
    RunAttends(s, steps);
  }

  /** How many sweeps in a row, the last ones of a run, found nobody pending. */
  ghost function CleanSweeps(s: State, steps: seq<Step>, before: nat): nat
    requires Legal(s, steps)
    decreases |steps|
  {
    if steps == [] then before
    else CleanSweeps(Apply(s, steps[0]), steps[1..],
                     if steps[0] != EndOfList then before else if s.some == 0 then before + 1 else 0)
  }

  lemma {:induction false} VerifiedCounts(s: State, steps: seq<Step>)
    requires Legal(s, steps)
    ensures Exec(s, steps).verified == CleanSweeps(s, steps, s.verified)
    decreases |steps|
  {
    if steps != [] {
      VerifiedCounts(Apply(s, steps[0]), steps[1..]);
    }
  }

  /** The loop goes on until two sweeps in a row have found nobody pending, and no longer. */
  lemma TwoCleanSweeps(s: State, steps: seq<Step>)
    requires Init(s) && Legal(s, steps)
    ensures if Sweeping(Exec(s, steps).pc) then CleanSweeps(s, steps, 0) < 2 else CleanSweeps(s, steps, 0) == 2
  {
    InitInv(s);
    RunInv(s, steps);
    VerifiedCounts(s, steps);
  }

  /** A growth keeps the entry of every live thread and of everyone counted in this sweep, and
      forgets exactly those that neither this sweep nor the one before has counted. */
  lemma GrowthForgets(s: State, steps: seq<Step>)
    requires Init(s) && Legal(s, steps) && Enabled(Exec(s, steps), Grow)
    ensures var e := Exec(s, steps); var refs := Apply(e, Grow).refs;
      && (forall t :: t in refs ==> t in e.refs && refs[t] == e.refs[t])
      && (forall t :: t in e.refs && (t in e.live || t in e.counted) ==> t in refs)
      && (forall t :: t in e.refs ==> (t in refs <==> e.refs[t].sweep >= e.sweep - 1))
  {
    InitInv(s);
    RunInv(s, steps);
  }

  /** When the sweep loop exits, every other live thread is held in the actor and has run the
      system call exactly once, and `mismatch` says whether some result differs. */
  lemma BarrierHolds(s: State, steps: seq<Step>)
    requires Init(s) && Legal(s, steps) && Exec(s, steps).pc == Releasing
    ensures var e := Exec(s, steps);
      && (forall t :: t in e.live ==> e.live[t].at.Held? && e.live[t].applied == 1)
      && (e.mismatch <==> exists t :: t in e.live && e.live[t].at.retval != e.ret)
  {
    InitInv(s);
    RunInv(s, steps);
  }

  /** During the drain, `incomplete` is the number of actors still held: it is zero exactly
      when none is, and until then one of them can leave. */
  lemma DrainCounts(s: State, steps: seq<Step>)
    requires Init(s) && Legal(s, steps) && Exec(s, steps).pc == Draining
    ensures var e := Exec(s, steps);
      && e.incomplete == |HeldSet(e.live)|
      && (Enabled(e, Finish) <==> forall t :: t in e.live ==> e.live[t].at == Running)
      && (!Enabled(e, Finish) ==> exists t :: Enabled(e, Leave(t)))
      && (forall t :: !Enabled(e, Deliver(t)) && !Enabled(e, Report(t)))
      && (forall t, r :: !Enabled(e, RunSyscall(t, r)))
  {
    InitInv(s);
    RunInv(s, steps);
    var e := Exec(s, steps);
    NobodyRuns(e);
    hide AfterRelease;
    if e.incomplete != 0 {
      var t :| t in HeldSet(e.live);
      assert Enabled(e, Leave(t));
    } else {
      assert forall t :: t in e.live && e.live[t].at.Held? ==> t in HeldSet(e.live);
    }
  }

  lemma NobodyRuns(s: State)
    requires AfterRelease(s)
    ensures s.incomplete == |HeldSet(s.live)|
    ensures forall t :: t in s.live ==> s.live[t].at == Running || Enabled(s, Leave(t))
    ensures forall t :: !Enabled(s, Deliver(t)) && !Enabled(s, Report(t))
    ensures forall t, r :: !Enabled(s, RunSyscall(t, r))
  {
  }

  /** What the next call of the process finds, made by any of its threads, once its own
      system call has succeeded and `refs` is its map. */
  ghost function NextCall(s: State, refs: Refs, self: Tid, ret: int): State {
    var others := map t | t in s.live.Keys + {s.self} && t != self ::
      if t in s.live then s.live[t].(applied := 0) else Thread(Running, false, 0);
    State(self, ret, SweepStart, others, others.Keys, refs, s.active, s.incomplete, 1, 0, 0, 0, false, {}, {}, s.stray)
  }

  /** When the call returns, every live thread carries the effect of its system call once,
      clones made since the release included, and no actor is left to meet the next call. */
  lemma CallCompletes(s: State, steps: seq<Step>, self: Tid, ret: int)
    requires Init(s) && Legal(s, steps) && Exec(s, steps).pc == Done
    ensures var e := Exec(s, steps);
      && (forall t :: t in e.live ==> e.live[t] == Thread(Running, false, 1))
      && (self == e.self || self in e.live ==> Init(NextCall(e, map[], self, ret)))
  {
    InitInv(s);
    RunInv(s, steps);
    var e := Exec(s, steps);
    assert forall t :: t in e.live && e.live[t].at.Held? ==> t in HeldSet(e.live);
  }

  /** The entries that the code touches without looking are there, and are the right ones. */
  ghost predicate EntriesAtHand(s: State) {
    && !s.stray
    && (s.pc.Visiting? ==> s.sweep >= 2)
    && (s.pc.Counting? ==> s.pc.tid in s.refs)
    && (forall t :: t in s.live && (s.live[t].at.Entered? || s.live[t].at.Ran?) ==> t in s.refs)
    && (forall t :: Sweeping(s.pc) && t in s.live && s.live[t].at.Held? ==>
          t in s.refs && s.refs[t].retval == s.live[t].at.retval)
  }

  lemma InvGivesEntries(s: State)
    requires Inv(s)
    ensures EntriesAtHand(s)
  {
  }

  /** At every moment of every run an actor about to report finds its own entry, as does the
      caller about to count, and the entry of a held thread keeps what it reported. */
  lemma OwnEntries(s: State, steps: seq<Step>)
    requires Init(s) && Legal(s, steps)
    ensures EntriesAtHand(Exec(s, steps))
  {
    InitInv(s);
    RunInv(s, steps);
    InvGivesEntries(Exec(s, steps));
  }
}
