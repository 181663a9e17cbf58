/** Nobody blocks the psx tracker for good: from every state that a process can reach, the call
    in flight can be brought to its end and a waiting caller can have its turn. */
module PsxTrackerEnds {
  import opened PsxTracker
  import opened PsxTrackerRuns
  import B = PsxBarrier
  import BR = PsxBarrierRuns
  import BE = PsxBarrierEnds

  // ---------- one state leads to another ----------

  ghost predicate Leads(s: State, s': State) {
    exists steps :: Legal(s, steps) && Exec(s, steps) == s'
  }

  lemma LeadsNowhere(s: State)
    ensures Leads(s, s)
  {
    assert Legal(s, []) && Exec(s, []) == s;
  }

  lemma {:induction false} Extended(s: State, steps: seq<Step>, step: Step)
    requires Legal(s, steps) && Enabled(Exec(s, steps), step)
    ensures Legal(s, steps + [step]) && Exec(s, steps + [step]) == Apply(Exec(s, steps), step)
    decreases |steps|
  {
    hide Enabled, Apply;
    if steps == [] {
      assert ([] + [step])[1..] == [];
      assert Legal(Apply(s, step), []);
    } else {
      Extended(Apply(s, steps[0]), steps[1..], step);
      assert (steps + [step])[1..] == steps[1..] + [step];
    }
  }

  /** Callers that wait for their own call go on waiting meanwhile. */
  ghost predicate StillWaiting(s: State, s': State) {
    && s'.pid == s.pid
    && forall u :: u in s.threads && s.threads[u].pc == Spinning(Begin) ==> u in s'.threads && s'.threads[u].pc == Spinning(Begin)
  }

  /** From one state to another by some steps, the lock free at both ends. */
  ghost predicate Way(s: State, s': State) {
    Leads(s, s') && Touched(s') && s'.mu != s'.pid && StillWaiting(s, s')
  }

  lemma Further(s: State, s': State, step: Step)
    requires Leads(s, s') && Enabled(s', step)
    ensures Leads(s, Apply(s', step))
  {
    hide Enabled, Apply, Legal, Exec;
    var steps :| Legal(s, steps) && Exec(s, steps) == s';
    Extended(s, steps, step);
  }

  lemma {:induction false} Joined(s: State, steps: seq<Step>, more: seq<Step>)
    requires Legal(s, steps) && Legal(Exec(s, steps), more)
    ensures Legal(s, steps + more) && Exec(s, steps + more) == Exec(Exec(s, steps), more)
    decreases |steps|
  {
    hide Enabled, Apply;
    if steps == [] {
      assert [] + more == more;
    } else {
      Joined(Apply(s, steps[0]), steps[1..], more);
      assert (steps + more)[1..] == steps[1..] + more;
    }
  }

  lemma WayOn(s: State, s': State, s'': State)
    requires Way(s, s') && Way(s', s'')
    ensures Way(s, s'')
  {
    hide Legal, Exec, Touched;
    var steps :| Legal(s, steps) && Exec(s, steps) == s';
    var more :| Legal(s', more) && Exec(s', more) == s'';
    Joined(s, steps, more);
  }

  /** One step that leaves the lock alone. */
  lemma Do(s: State, step: Step)
    requires Touched(s) && s.mu != s.pid && Enabled(s, step) && !step.Section? && !step.Exchange?
    requires StillWaiting(s, Apply(s, step))
    ensures Way(s, Apply(s, step))
  {
    TouchedInv(s, step);
    hide Touched, Enabled;
    LeadsNowhere(s);
    Further(s, s, step);
    hide Leads;
    assert Apply(s, step).mu == s.mu;
  }

  /** A thread takes the lock and leaves it again. */
  lemma Served(s: State, t: Tid)
    requires Touched(s) && s.mu != s.pid && Enabled(s, Exchange(t))
    ensures Enabled(Apply(s, Exchange(t)), Section(t))
    ensures var s' := Apply(Apply(s, Exchange(t)), Section(t));
      && Leads(s, s') && Touched(s') && s'.mu != s'.pid
  {
    var s1 := Apply(s, Exchange(t));
    TouchedInv(s, Exchange(t));
    assert Enabled(s1, Section(t)) by {
      hide Touched, B.Enabled, B.Apply;
    }
    TouchedInv(s1, Section(t));
    assert s.pid != 0;
    hide Touched;
    LeadsNowhere(s);
    Further(s, s, Exchange(t));
    Further(s, s1, Section(t));
    hide Leads, B.Enabled, B.Apply;
  }

  /** A thread's own place in psx, apart from its handler. */
  ghost predicate SamePlaces(s: State, s': State) {
    && s'.pid == s.pid && s'.phase == s.phase && s'.threads.Keys == s.threads.Keys
    && forall u :: u in s.threads ==> s'.threads[u].pc == s.threads[u].pc
  }

  lemma SamePlacesWait(s: State, s': State)
    requires SamePlaces(s, s')
    ensures StillWaiting(s, s')
  {
  }

  /** A stray signal is passed on. */
  lemma StrayServed(s: State, t: Tid) returns (s': State)
    requires Touched(s) && s.mu != s.pid && t in s.threads && s.threads[t].handler == Waiting(Stray)
    ensures Way(s, s') && s'.call == s.call && SamePlaces(s, s')
    ensures s'.threads == s.threads[t := s.threads[t].(handler := NoHandler)]
  {
    Served(s, t);
    assert s.tracker_pid == s.pid;
    hide Touched, Leads, B.Enabled, B.Apply;
    s' := Apply(Apply(s, Exchange(t)), Section(t));
    assert s'.threads == s.threads[t := s.threads[t].(handler := NoHandler)];
  }

  lemma SameErrand(s: State, t: Tid, errand: Errand)
    requires t in s.threads && errand != Stray && (errand == Leave ==> !s.call.active)
    ensures var s1 := Put(s, t, s.threads[t].(handler := Locked(errand))).(mu := s.pid);
      var s' := HandlerSection(s1, t, errand).(mu := 0);
      s'.call == After(s.call, StepOf(errand, t)) && SamePlaces(s, s') && StillWaiting(s, s')
  {
    hide B.Enabled, B.Apply, After;
  }

  /** A handler does what it waits for. */
  lemma ErrandServed(s: State, t: Tid, errand: Errand) returns (s': State)
    requires Touched(s) && s.mu != s.pid && t in s.threads && s.threads[t].handler == Waiting(errand)
    requires errand != Stray && (errand == Leave ==> !s.call.active)
    ensures Way(s, s') && s'.call == After(s.call, StepOf(errand, t)) && SamePlaces(s, s')
  {
    Served(s, t);
    SameErrand(s, t, errand);
    ErrandSteps(s, t, errand);
    hide Touched, Leads, Apply, Enabled, After, HandlerSection, SamePlaces, StillWaiting, StepOf;
    s' := Apply(Apply(s, Exchange(t)), Section(t));
  }

  lemma ErrandSteps(s: State, t: Tid, errand: Errand)
    requires s.tracker_pid == s.pid && s.mu != s.pid && t in s.threads && s.threads[t].handler == Waiting(errand)
    ensures Enabled(s, Exchange(t)) && Enabled(Apply(s, Exchange(t)), Section(t))
    ensures Apply(Apply(s, Exchange(t)), Section(t)) ==
      HandlerSection(Put(s, t, s.threads[t].(handler := Locked(errand))).(mu := s.pid), t, errand).(mu := 0)
  {
    hide HandlerSection, CallerSection, B.Enabled, B.Apply;
  }

  /** The lock word has no part in what a caller's section does. */
  lemma SameSection(s: State, t: Tid, want: Want)
    requires t in s.threads && s.threads[t] == Thread(Spinning(want), NoHandler) && Granted(s, want)
    ensures var s1 := Put(s, t, Thread(Inside(want), NoHandler)).(mu := s.pid);
      && Granted(s1, want)
      && CallerSection(s1, t, want).(mu := 0) == CallerSection(s, t, want).(mu := 0)
  {
    hide B.Enabled, B.Apply;
    var s1 := Put(s, t, Thread(Inside(want), NoHandler)).(mu := s.pid);
    ghost var th := if want == Begin then Preparing else if want.Proceed? || want.Tally? then Sweeping else Outside;
    assert s1.threads[t := Thread(th, NoHandler)] == s.threads[t := Thread(th, NoHandler)];
    if want.Proceed? {
      assert Started(s1, t, want.ret) == Started(s, t, want.ret);
      hide Started;
    }
  }

  lemma SectionWaits(s: State, t: Tid, want: Want)
    requires t in s.threads && s.threads[t] == Thread(Spinning(want), NoHandler) && Granted(s, want) && want != Begin
    ensures StillWaiting(s, CallerSection(s, t, want).(mu := 0))
  {
    hide B.Enabled, B.Apply, Started;
  }

  /** A caller gets what it waits for. */
  lemma CallerServed(s: State, t: Tid, want: Want) returns (s': State)
    requires Touched(s) && s.mu != s.pid && t in s.threads && s.threads[t] == Thread(Spinning(want), NoHandler)
    requires Granted(s, want)
    ensures s' == CallerSection(s, t, want).(mu := 0)
    ensures Leads(s, s') && Touched(s') && s'.mu != s'.pid
    ensures want != Begin ==> Way(s, s')
  {
    Served(s, t);
    SameSection(s, t, want);
    if want != Begin {
      SectionWaits(s, t, want);
    }
    assert s.tracker_pid == s.pid;
    hide Touched, Leads, B.Enabled, B.Apply, Granted, CallerSection, StillWaiting;
    s' := Apply(Apply(s, Exchange(t)), Section(t));
  }

  /** A thread with at most a stray signal is rid of it. */
  lemma Cleared(s: State, t: Tid) returns (s': State)
    requires Touched(s) && s.mu != s.pid && t in s.threads && Idling(s.threads[t].handler)
    ensures Way(s, s') && s'.call == s.call && SamePlaces(s, s') && s'.threads[t].handler == NoHandler
    ensures s'.threads == s.threads[t := s.threads[t].(handler := NoHandler)]
  {
    assert !Holds(s, t);
    if s.threads[t].handler == NoHandler {
      s' := s;
      LeadsNowhere(s);
      hide Touched, Leads;
      assert s.threads[t := s.threads[t].(handler := NoHandler)] == s.threads;
    } else {
      s' := StrayServed(s, t);
    }
  }

  // ---------- the call in flight ----------

  /** A call whose owner is between its sections, or only waits for the drain or to return. */
  ghost predicate Ready(s: State) {
    && Touched(s) && s.mu != s.pid && s.phase == Syscall && BR.Attended(s.call)
    && var pc := s.threads[s.call.self].pc;
       pc == Sweeping || (pc == Spinning(Tally(B.Finish)) && s.call.pc == B.Draining)
       || (pc == Spinning(Return) && s.call.pc == B.Done)
  }

  lemma ReachedAttended(c: B.State)
    requires Reached(c)
    ensures BR.Attended(c)
  {
    var init, steps :| B.Init(init) && B.Legal(init, steps) && B.Exec(init, steps) == c;
    BR.NobodyForgotten(init, steps);
  }

  /** Where a barrier step finds its thread's handler. */
  lemma HandlerAt(s: State, t: Tid)
    requires Touched(s) && s.mu != s.pid && s.phase == Syscall && t in s.call.live
    ensures t in s.threads && t != s.call.self && !s.threads[t].pc.Inside?
    ensures Linked(s.threads[t].handler, s.call.live[t], s.cmd) && !s.threads[t].handler.Locked?
  {
    assert !Holds(s, t);
    hide Reached, PlanOk, Linked;
  }

  /** A pending signal reaches its thread. */
  lemma Interrupted(s: State, t: Tid) returns (s': State)
    requires Touched(s) && s.mu != s.pid && t in s.threads && !s.threads[t].pc.Inside?
    requires t in s.call.live && s.call.live[t].signalled && Idling(s.threads[t].handler)
    ensures Way(s, s') && s'.call == s.call && SamePlaces(s, s') && s'.threads[t].handler == Waiting(Arrive)
  {
    var s1 := Cleared(s, t);
    assert Touched(s1) && s1.mu != s1.pid;
    hide Touched, Leads, B.Enabled, B.Apply, Way;
    s' := Apply(s1, Deliver(t));
    assert s'.threads == s1.threads[t := s1.threads[t].(handler := Waiting(Arrive))];
    assert Enabled(s1, Deliver(t)) && SamePlaces(s1, s');
    hide Apply, Enabled;
    SamePlacesWait(s1, s');
    Do(s1, Deliver(t));
    WayOn(s, s1, s');
  }

  /** A signal is delivered and its handler finds out what to do. */
  lemma DeliverServed(s: State, t: Tid) returns (s': State)
    requires Ready(s) && B.Enabled(s.call, B.Deliver(t))
    ensures Way(s, s') && s'.call == B.Apply(s.call, B.Deliver(t)) && SamePlaces(s, s')
  {
    HandlerAt(s, t);
    hide Touched, Leads, B.Apply;
    if Idling(s.threads[t].handler) {
      var s1 := Interrupted(s, t);
      assert Touched(s1) && s1.mu != s1.pid;
      hide Way;
      s' := ErrandServed(s1, t, Arrive);
      WayOn(s, s1, s');
    } else {
      s' := ErrandServed(s, t, Arrive);
    }
  }

  lemma RunServed(s: State, t: Tid, r: int) returns (s': State)
    requires Ready(s) && B.Enabled(s.call, B.RunSyscall(t, r))
    ensures Way(s, s') && s'.call == B.Apply(s.call, B.RunSyscall(t, r)) && SamePlaces(s, s')
  {
    HandlerAt(s, t);
    s' := Apply(s, RunSyscall(t, r));
    SamePlacesWait(s, s');
    Do(s, RunSyscall(t, r));
  }

  lemma ReportServed(s: State, t: Tid) returns (s': State)
    requires Ready(s) && B.Enabled(s.call, B.Report(t))
    ensures Way(s, s') && s'.call == B.Apply(s.call, B.Report(t)) && SamePlaces(s, s')
  {
    HandlerAt(s, t);
    hide Touched, Leads, B.Apply;
    if s.threads[t].handler.Acting? {
      var s1 := Asked(s, t);
      assert Touched(s1) && s1.mu != s1.pid;
      hide Way;
      s' := ErrandServed(s1, t, Report);
      WayOn(s, s1, s');
    } else {
      s' := ErrandServed(s, t, Report);
    }
  }

  lemma Asked(s: State, t: Tid) returns (s': State)
    requires Touched(s) && s.mu != s.pid && t in s.threads && s.threads[t].handler.Acting?
    requires t in s.call.live && s.call.live[t].at.Ran?
    ensures Way(s, s') && s'.call == s.call && SamePlaces(s, s') && s'.threads[t].handler == Waiting(Report)
  {
    hide Touched, Leads, B.Enabled, B.Apply;
    s' := Apply(s, AskReport(t));
    assert s'.threads == s.threads[t := s.threads[t].(handler := Waiting(Report))];
    assert Enabled(s, AskReport(t)) && SamePlaces(s, s');
    hide Apply, Enabled;
    SamePlacesWait(s, s');
    Do(s, AskReport(t));
  }

  lemma LeaveServed(s: State, t: Tid) returns (s': State)
    requires Ready(s) && B.Enabled(s.call, B.Leave(t))
    ensures Way(s, s') && s'.call == B.Apply(s.call, B.Leave(t)) && SamePlaces(s, s')
  {
    HandlerAt(s, t);
    s' := ErrandServed(s, t, Leave);
  }

  /** Every step that a handler is due to take in the barrier, it can take here. */
  lemma HandlerServed(s: State, b: B.Step) returns (s': State)
    requires Ready(s) && B.Enabled(s.call, b) && IsHandlerStep(b)
    ensures Way(s, s') && s'.call == B.Apply(s.call, b) && SamePlaces(s, s')
  {
    hide Ready, Way, SamePlaces, B.Apply, B.Enabled;
    match b
    case Deliver(t) => s' := DeliverServed(s, t);
    case RunSyscall(t, r) => s' := RunServed(s, t, r);
    case Report(t) => s' := ReportServed(s, t);
    case Leave(t) => s' := LeaveServed(s, t);
  }

  /** The owner is in the call, with nothing but a stray signal on top. */
  lemma OwnerAt(s: State)
    requires Ready(s)
    ensures var self := s.call.self;
      self in s.threads && Idling(s.threads[self].handler) && self !in s.call.live && s.tracker_pid == s.pid
  {
    hide Reached, LinksOk, PlanOk;
    assert CallOk(s);
    assert LinksOk(s);
    OwnsSelf(s);
  }

  lemma OwnsSelf(s: State)
    requires LinksOk(s)
    ensures s.call.self !in s.call.live
  {
  }

  /** Every step that is due under the lock, the owner can take. */
  lemma TallyServed(s: State, b: B.Step) returns (s': State)
    requires Ready(s) && B.Enabled(s.call, b) && UnderLock(s.call, b) && s.call.pc != B.Done
    requires s.threads[s.call.self].pc != Sweeping ==> b == B.Finish
    ensures Way(s, s') && s'.call == B.Apply(s.call, b) && s'.phase == Syscall && s'.call.self == s.call.self
    ensures s'.call.self in s'.threads && s'.threads[s'.call.self].pc == Sweeping
  {
    OwnerAt(s);
    var t := s.call.self;
    CallerStep(s.call, b);
    var s1 := Cleared(s, t);
    hide Touched, Leads, B.Enabled, B.Apply;
    if s.threads[t].pc == Sweeping {
      var s2 := Apply(s1, Ask(t, Tally(b)));
      Do(s1, Ask(t, Tally(b)));
      WayOn(s, s1, s2);
      s1 := s2;
    }
    hide Way;
    s' := CallerServed(s1, t, Tally(b));
    WayOn(s, s1, s');
  }

  /** And every other one. */
  lemma WalkServed(s: State, b: B.Step) returns (s': State)
    requires Ready(s) && B.Enabled(s.call, b) && Unlocked(s.call, b) && s.threads[s.call.self].pc == Sweeping
    ensures Way(s, s') && s'.call == B.Apply(s.call, b) && s'.phase == Syscall && s'.call.self == s.call.self
    ensures s'.call.self in s'.threads && s'.threads[s'.call.self].pc == Sweeping
  {
    OwnerAt(s);
    var t := s.call.self;
    CallerStep(s.call, b);
    var s1 := Cleared(s, t);
    hide Touched, Leads, B.Enabled, B.Apply;
    s' := Apply(s1, Walk(t, b));
    Do(s1, Walk(t, b));
    WayOn(s, s1, s');
  }

  /** The barrier's next step can be taken, and the end comes closer. */
  lemma Advance(s: State) returns (s': State)
    requires Ready(s) && s.call.pc != B.Done
    ensures Way(s, s') && Ready(s') && B.Inv(s.call) && B.Inv(s'.call) && BE.Closer(s'.call, s.call)
  {
    assert Reached(s.call) && BR.Attended(s.call);
    ReachedInv(s.call);
    var b := BE.NextStep(s.call);
    hide Reached, B.Inv, BR.Attended, BE.Closer, Touched, CallOk;
    if IsHandlerStep(b) {
      HandlerStep(s.call, b);
      s' := HandlerServed(s, b);
    } else if s.threads[s.call.self].pc == Sweeping && Unlocked(s.call, b) {
      s' := WalkServed(s, b);
    } else {
      s' := TallyServed(s, b);
    }
  }

  /** A call that is done returns. */
  lemma Returned(s: State) returns (s': State)
    requires Ready(s) && s.call.pc == B.Done
    ensures Way(s, s') && s'.phase == Idle
  {
    OwnerAt(s);
    var t := s.call.self;
    var s1 := Cleared(s, t);
    hide Touched, Leads, B.Enabled, B.Apply;
    if s.threads[t].pc == Sweeping {
      var s2 := Apply(s1, Ask(t, Return));
      Do(s1, Ask(t, Return));
      WayOn(s, s1, s2);
      s1 := s2;
    }
    hide Way;
    s' := CallerServed(s1, t, Return);
    WayOn(s, s1, s');
  }

  lemma {:induction false} CallEnds(s: State) returns (s': State)
    requires Ready(s) && B.Inv(s.call)
    ensures Way(s, s') && s'.phase == Idle
    decreases BE.Phases(s.call), BE.Unlisted(s.call), BE.Ahead(s.call.pc), BE.Work(s.call)
  {
    if s.call.pc == B.Done {
      s' := Returned(s);
    } else {
      var s1 := Advance(s);
      hide Ready, Way, B.Inv, BE.Phases, BE.Unlisted, BE.Ahead, BE.Work;
      s' := CallEnds(s1);
      WayOn(s, s1, s');
    }
  }

  // ---------- from any state ----------

  /** The process is exiting, or about to. */
  ghost predicate Leaving(s: State) {
    s.phase == Exiting || (s.phase == Idle && exists t :: t in s.threads && s.threads[t].pc == Inside(Cleanup))
  }

  /** What the section of whoever holds the lock leaves alone. */
  lemma HolderLeaves(s: State, t: Tid)
    requires MutexOk(s) && Holds(s, t) && !Leaving(s)
    ensures Enabled(s, Section(t))
    ensures var s' := Apply(s, Section(t)); s'.mu == 0 && s'.phase != Exiting && StillWaiting(s, s')
  {
    var th := s.threads[t];
    assert th.handler.Locked? || (th.handler == NoHandler && th.pc.Inside?);
    if th.handler.Locked? {
      hide B.Enabled, B.Apply, After;
    } else {
      CallerLeaves(s, t, th.pc.want);
      hide B.Enabled, B.Apply, CallerSection, Granted, StillWaiting;
    }
  }

  lemma CallerLeaves(s: State, t: Tid, want: Want)
    requires t in s.threads && s.threads[t] == Thread(Inside(want), NoHandler) && !Leaving(s)
    ensures StillWaiting(s, Put(s, t, Thread(Spinning(want), NoHandler)).(mu := 0))
    ensures Granted(s, want) ==>
      var s' := CallerSection(s, t, want).(mu := 0); s'.phase != Exiting && StillWaiting(s, s')
  {
    hide B.Enabled, B.Apply, Started;
  }

  /** From any state there is a way to one with the lock free. */
  lemma Released(s: State) returns (s': State)
    requires Touched(s) && !Leaving(s)
    ensures Way(s, s') && s'.phase != Exiting
  {
    LeadsNowhere(s);
    if s.mu != s.pid {
      s' := s;
    } else {
      var t :| Holds(s, t);
      HolderLeaves(s, t);
      TouchedInv(s, Section(t));
      assert s.pid != 0;
      hide Touched, Leaving, Enabled, Apply;
      Further(s, s, Section(t));
      hide Leads, StillWaiting;
      s' := Apply(s, Section(t));
    }
  }

  /** The owner of a call finishes the section it has planned. */
  lemma MadeReady(s: State) returns (s': State)
    requires Touched(s) && s.mu != s.pid && s.phase == Syscall
    ensures Way(s, s') && Ready(s')
  {
    ReachedAttended(s.call);
    var t := s.call.self;
    assert Owner(s, t) && !Holds(s, t) && Idling(s.threads[t].handler);
    var s1 := Cleared(s, t);
    assert PlanOk(s1.threads[t].pc, s1.call);
    var pc := s1.threads[t].pc;
    if pc.Spinning? && pc.want.Tally? && B.Enabled(s1.call, pc.want.step) {
      s' := PlanServed(s1, t, pc.want.step);
      WayOn(s, s1, s');
    } else {
      hide B.Enabled, B.Apply, Reached;
      s' := s1;
    }
  }

  lemma PlanServed(s: State, t: Tid, b: B.Step) returns (s': State)
    requires Touched(s) && s.mu != s.pid && s.phase == Syscall && t == s.call.self && t in s.threads
    requires s.threads[t] == Thread(Spinning(Tally(b)), NoHandler) && B.Enabled(s.call, b) && UnderLock(s.call, b)
    ensures Way(s, s') && Ready(s')
  {
    CallerStep(s.call, b);
    s' := CallerServed(s, t, Tally(b));
    ReachedAttended(s'.call);
    hide Touched, Leads, B.Enabled, B.Apply;
  }

  /** A call that is being prepared is given up, unless it is on its way already. */
  lemma SetUp(s: State) returns (s': State)
    requires Touched(s) && s.mu != s.pid && s.phase == Setup
    ensures Way(s, s') && (s'.phase == Idle || s'.phase == Syscall)
  {
    var t :| Owner(s, t);
    assert !Holds(s, t) && s.phase == Owns(s.threads[t].pc) && Idling(s.threads[t].handler);
    var s1 := Cleared(s, t);
    hide Touched, Leads, B.Enabled, B.Apply;
    if s.threads[t].pc == Preparing {
      var s2 := Apply(s1, Ask(t, Abort));
      Do(s1, Ask(t, Abort));
      WayOn(s, s1, s2);
      s1 := s2;
    }
    hide Way;
    s' := CallerServed(s1, t, s1.threads[t].pc.want);
    WayOn(s, s1, s');
  }

  /** From any state there is a way to the idle tracker. */
  lemma Quieted(s: State) returns (s': State)
    requires Touched(s) && !Leaving(s)
    ensures Way(s, s') && s'.phase == Idle
  {
    s' := Released(s);
    assert s'.phase == Idle || s'.phase == Setup || s'.phase == Syscall;
    if s'.phase == Setup {
      assert Touched(s') && s'.mu != s'.pid;
      hide Touched, Leads;
      var s1 := SetUp(s');
      hide Way;
      WayOn(s, s', s1);
      s' := s1;
    }
    if s'.phase == Syscall {
      assert Touched(s') && s'.mu != s'.pid by {
        assert Way(s, s');
      }
      hide Touched, Leads;
      var s1 := MadeReady(s');
      assert B.Inv(s1.call) by {
        assert Touched(s1);
        ReadyInv(s1);
      }
      var s2 := CallEnds(s1);
      hide Way;
      WayOn(s, s', s1);
      WayOn(s, s1, s2);
      s' := s2;
    }
  }

  lemma ReadyInv(s: State)
    requires Ready(s)
    ensures B.Inv(s.call)
  {
    ReachedInv(s.call);
  }

  /** Whatever has happened, the call in flight can return; so can the one being prepared. */
  lemma CallCanReturn(s: State, steps: seq<Step>)
    requires Newborn(s) && Legal(s, steps)
    requires var e := Exec(s, steps); e.tracker_pid == e.pid && (e.phase == Setup || e.phase == Syscall)
    ensures var e := Exec(s, steps);
      exists more :: Legal(e, more) && Exec(e, more).phase == Idle && Exec(e, more).mu != e.pid
  {
    RunInv(s, steps);
    var e := Exec(s, steps);
    hide Legal, Exec;
    assert Touched(e);
    var e' := Quieted(e);
    assert Leads(e, e') && e'.pid == e.pid;
  }

  /** Whatever has happened, a caller that waits for the tracker can get its turn, unless the
      process is exiting. */
  lemma WaitingCallerCanStart(s: State, steps: seq<Step>, t: Tid)
    requires Newborn(s) && Legal(s, steps)
    requires var e := Exec(s, steps);
      e.tracker_pid == e.pid && !Leaving(e) && t in e.threads && e.threads[t].pc == Spinning(Begin)
    ensures var e := Exec(s, steps);
      exists more :: Legal(e, more) && t in Exec(e, more).threads && Exec(e, more).threads[t].pc == Preparing
  {
    RunInv(s, steps);
    var e := Exec(s, steps);
    hide Legal, Exec;
    assert Touched(e);
    var s1 := Quieted(e);
    assert t in s1.threads && s1.threads[t].pc == Spinning(Begin) && NobodyActs(s1);
    var s2 := Cleared(s1, t);
    WayOn(e, s1, s2);
    assert Touched(s2) && s2.mu != s2.pid;
    var s3 := CallerServed(s2, t, Begin);
    assert s3.threads[t].pc == Preparing;
    LeadsOn(e, s2, s3);
  }

  lemma LeadsOn(s: State, s': State, s'': State)
    requires Leads(s, s') && Leads(s', s'')
    ensures Leads(s, s'')
  {
    hide Legal, Exec;
    var steps :| Legal(s, steps) && Exec(s, steps) == s';
    var more :| Legal(s', more) && Exec(s', more) == s'';
    Joined(s, steps, more);
  }
}
