/** Who owns the psx tracker: the pid-valued lock word, the tracker's four states, and what
    a fork leaves behind, around the calls that the barrier describes. Any thread may call,
    and any thread that is not inside the lock may be interrupted, one that waits for its
    own call included. One step is one atomic exchange, one section under the lock, or one
    step outside it. */
module PsxTracker {
  import B = PsxBarrier
  import BR = PsxBarrierRuns

  type Tid = B.Tid

  datatype Phase = Idle | Setup | Syscall | Exiting

  /** What a caller takes the lock for. */
  datatype Want =
    | Begin                  // Idle -> Setup, the start of a psx call
    | Abort                  // Setup -> Idle, the caller's own system call failed
    | Proceed(ret: int)      // Setup -> Syscall, it returned `ret`
    | Tally(step: B.Step)    // a section of the sweeps or of the drain
    | Return                 // Syscall -> Idle, the call returns
    | Cleanup                // at exit: free the tracker's memory once it is idle

  /** Where a thread's own code stands. */
  datatype Pc =
    | Outside
    | Preparing
    | Sweeping
    | Spinning(want: Want)
    | Inside(want: Want)

  /** What a signal handler takes the lock for; `Stray` is a signal that psx did not send. */
  datatype Errand = Stray | Arrive | Report | Leave

  /** What runs on top of that; an acting handler remembers the command as it found it. */
  datatype Handler =
    | NoHandler
    | Waiting(errand: Errand)
    | Locked(errand: Errand)
    | Acting(cmd: int)

  datatype Thread = Thread(pc: Pc, handler: Handler)

  /** `call` is the barrier of the present call, or what the last one left. */
  datatype State = State(
    pid: int, mu: int, tracker_pid: int, phase: Phase, cmd: int, freed: bool,
    threads: map<Tid, Thread>, call: B.State)

  /** A process that has not used psx yet: freshly started, or forked, with the lock word and
      the tracker copied from its parent at any moment before the parent's cleanup. */
  ghost predicate Newborn(s: State) {
    && s.pid != 0 && s.mu != s.pid && s.tracker_pid != s.pid && !s.freed
    && 0 !in s.threads && NoSignals(s.call)
    && forall t :: t in s.threads ==> s.threads[t] == Thread(Outside, NoHandler)
  }

  ghost predicate NoSignals(c: B.State) {
    forall t :: t in c.live ==> !c.live[t].signalled
  }

  ghost predicate InCall(s: State) {
    s.tracker_pid == s.pid && s.phase == Syscall
  }

  datatype Step =
    // any thread's own code
    | Ask(t: Tid, want: Want)
    | Walk(t: Tid, step: B.Step)
    | WriteCmd(t: Tid, value: int)
    | Spawn(t: Tid, child: Tid)
    | Die(t: Tid)
    // its code or its handler
    | Exchange(t: Tid)
    | Section(t: Tid)
    // its handler
    | Interrupt(t: Tid)
    | Deliver(t: Tid)
    | RunSyscall(t: Tid, retval: int)
    | AskReport(t: Tid)

  /** The barrier steps that a caller takes under the lock. */
  ghost predicate UnderLock(c: B.State, step: B.Step) {
    match step
    case Grow | Count | Release | Finish => true
    case Visit(t) => B.IsNew(c, t)
    case _ => false
  }

  /** Those that it takes without it. */
  ghost predicate Unlocked(c: B.State, step: B.Step) {
    match step
    case BeginSweep | Batch(_) | EndOfList | Signal => true
    case Visit(t) => !B.IsNew(c, t)
    case _ => false
  }

  /** A caller waits in the drain until the handlers have left. */
  ghost predicate Due(c: B.State, step: B.Step) {
    UnderLock(c, step) && (B.Enabled(c, step) || (step == B.Finish && c.pc == B.Draining))
  }

  ghost predicate MayAsk(s: State, pc: Pc, want: Want) {
    match want
    case Begin | Cleanup => pc == Outside
    case Abort | Proceed(_) => pc == Preparing
    case Tally(step) => pc == Sweeping && Due(s.call, step)
    case Return => pc == Sweeping && s.call.pc == B.Done
  }

  ghost predicate Enabled(s: State, step: Step) {
    && step.t in s.threads
    && var th := s.threads[step.t];
       match step
       case Ask(_, want) => th.handler == NoHandler && MayAsk(s, th.pc, want)
       case Walk(_, b) => th == Thread(Sweeping, NoHandler) && Unlocked(s.call, b) && B.Enabled(s.call, b)
       case WriteCmd(_, _) => th == Thread(Preparing, NoHandler)
       case Spawn(_, child) =>
         && th == Thread(Outside, NoHandler) && child !in s.threads && child != 0
         && (InCall(s) ==> child !in s.call.used)
       case Die(_) => th == Thread(Outside, NoHandler)
       case Exchange(_) => th.handler.Waiting? || (th.handler == NoHandler && th.pc.Spinning?)
       case Section(_) => th.handler.Locked? || (th.handler == NoHandler && th.pc.Inside?)
       case Interrupt(_) => th.handler == NoHandler && !th.pc.Inside?
       case Deliver(t) => th.handler == NoHandler && !th.pc.Inside? && t in s.call.live && s.call.live[t].signalled
       case RunSyscall(t, _) => th.handler.Acting? && t in s.call.live && s.call.live[t].at == B.Entered
       case AskReport(t) => th.handler.Acting? && t in s.call.live && s.call.live[t].at.Ran?
  }

  ghost function Put(s: State, t: Tid, th: Thread): State {
    s.(threads := s.threads[t := th])
  }

  /** The barrier after a step that is due. */
  ghost function After(c: B.State, step: B.Step): B.State {
    if B.Enabled(c, step) then B.Apply(c, step) else c
  }

  ghost function Apply(s: State, step: Step): State
    requires Enabled(s, step)
  {
    var th := s.threads[step.t];
    match step
    case Ask(t, want) => Put(s, t, th.(pc := Spinning(want)))
    case Walk(_, b) => s.(call := B.Apply(s.call, b))
    case WriteCmd(_, v) => s.(cmd := v)
    case Spawn(t, child) =>
      Put(s, child, Thread(Outside, NoHandler)).(call := if InCall(s) then After(s.call, B.Clone(t, child)) else s.call)
    case Die(t) =>
      s.(threads := s.threads - {t}, call := if InCall(s) then After(s.call, B.Exit(t)) else s.call)
    case Exchange(t) => if s.mu == s.pid then s else Restarted(Put(s, t, Entered(th)).(mu := s.pid))
    case Section(t) =>
      (if th.handler.Locked? then HandlerSection(s, t, th.handler.errand)
       else if Granted(s, th.pc.want) then CallerSection(s, t, th.pc.want)
       else Put(s, t, th.(pc := Spinning(th.pc.want)))).(mu := 0)
    case Interrupt(t) => Put(s, t, th.(handler := Waiting(Stray)))
    case Deliver(t) => Put(s, t, th.(handler := Waiting(Arrive)))
    case RunSyscall(t, r) => s.(call := After(s.call, B.RunSyscall(t, r)))
    case AskReport(t) => Put(s, t, th.(handler := Waiting(Report)))
  }

  ghost function Entered(th: Thread): Thread
    requires th.handler.Waiting? || th.pc.Spinning?
  {
    if th.handler.Waiting? then th.(handler := Locked(th.handler.errand)) else th.(pc := Inside(th.pc.want))
  }

  /** The first lock of a process makes the tracker its own. */
  ghost function Restarted(s: State): State {
    if s.tracker_pid == s.pid then s
    else s.(tracker_pid := s.pid, phase := Idle, call := s.call.(active := false))
  }

  /** Whether a caller finds what it waits for; otherwise it takes the lock again. */
  ghost predicate Granted(s: State, want: Want) {
    match want
    case Begin => s.phase == Idle
    case Abort | Proceed(_) => s.phase == Setup
    case Tally(step) => B.Enabled(s.call, step)
    case Return => s.phase == Syscall
    case Cleanup => s.phase == Idle || s.phase == Exiting
  }

  ghost function CallerSection(s: State, t: Tid, want: Want): State
    requires t in s.threads && Granted(s, want)
  {
    var th := s.threads[t];
    match want
    case Begin => Put(s, t, th.(pc := Preparing)).(phase := Setup)
    case Abort => Put(s, t, th.(pc := Outside)).(phase := Idle)
    case Proceed(ret) => Put(s, t, th.(pc := Sweeping)).(phase := Syscall, call := Started(s, t, ret))
    case Tally(step) => Put(s, t, th.(pc := Sweeping)).(call := B.Apply(s.call, step))
    case Return => Put(s, t, th.(pc := Outside)).(phase := Idle)
    case Cleanup => Put(s, t, th.(pc := Outside)).(phase := Exiting, freed := true)
  }

  /** The barrier that a call starts with, once the map is cleared. */
  ghost function Started(s: State, self: Tid, ret: int): B.State {
    var others := map t | t in s.threads && t != self :: B.Thread(B.Running, false, 0);
    B.State(self, ret, B.SweepStart, others, others.Keys, map[], s.call.active, 0, 1, 0, 0, 0, false, {}, {}, false)
  }

  ghost function HandlerSection(s: State, t: Tid, errand: Errand): State
    requires t in s.threads
  {
    var th := s.threads[t];
    match errand
    case Stray => Put(s, t, th.(handler := NoHandler))
    case Arrive =>
      Put(s, t, th.(handler := if s.call.active then Acting(s.cmd) else NoHandler)).(call := After(s.call, B.Deliver(t)))
    case Report => Put(s, t, th.(handler := Waiting(Leave))).(call := After(s.call, B.Report(t)))
    case Leave =>
      if s.call.active then Put(s, t, th.(handler := Waiting(Leave)))
      else Put(s, t, th.(handler := NoHandler)).(call := After(s.call, B.Leave(t)))
  }

  /** The phase that a thread's own position in a call says the tracker must be in. */
  ghost function Owns(pc: Pc): Phase {
    match pc
    case Outside => Idle
    case Preparing => Setup
    case Sweeping => Syscall
    case Spinning(w) => OwnsWhile(w)
    case Inside(w) => OwnsWhile(w)
  }

  ghost function OwnsWhile(want: Want): Phase {
    match want
    case Abort | Proceed(_) => Setup
    case Tally(_) | Return => Syscall
    case Begin | Cleanup => Idle
  }

  // ---------- the invariant ----------

  ghost predicate Holds(s: State, t: Tid) {
    t in s.threads && (s.threads[t].pc.Inside? || s.threads[t].handler.Locked?)
  }

  ghost predicate Owner(s: State, t: Tid) {
    t in s.threads && Owns(s.threads[t].pc) != Idle
  }

  ghost predicate MutexOk(s: State) {
    && s.pid != 0 && 0 !in s.threads
    && (forall t :: t in s.threads && s.threads[t].handler != NoHandler ==> !s.threads[t].pc.Inside?)
    && (forall t :: Holds(s, t) ==> s.mu == s.pid)
    && (s.mu == s.pid ==> exists t :: Holds(s, t))
    && (forall t, u :: Holds(s, t) && Holds(s, u) ==> t == u)
  }

  /** A thread in a call is the only one, and the tracker's state is the one it needs. */
  ghost predicate OwnerOk(s: State) {
    && (forall t :: Owner(s, t) ==> s.phase == Owns(s.threads[t].pc))
    && (s.phase == Setup || s.phase == Syscall ==> exists t :: Owner(s, t))
    && (forall t, u :: Owner(s, t) && Owner(s, u) ==> t == u)
    && (s.freed <==> s.phase == Exiting)
  }

  /** No handler of a call. */
  ghost predicate Idling(h: Handler) {
    h == NoHandler || h == Waiting(Stray) || h == Locked(Stray)
  }

  ghost predicate NobodyActs(s: State) {
    forall t :: t in s.threads ==> Idling(s.threads[t].handler)
  }

  /** A state of the barrier that some run of it reaches. */
  ghost predicate Reached(c: B.State) {
    exists init, steps :: B.Init(init) && B.Legal(init, steps) && B.Exec(init, steps) == c
  }

  /** A handler stands where the barrier has its thread. */
  ghost predicate Linked(h: Handler, th: B.Thread, cmd: int) {
    match h
    case NoHandler => th.at == B.Running
    case Waiting(e) => LinkedErrand(e, th)
    case Locked(e) => LinkedErrand(e, th)
    case Acting(v) => v == cmd && (th.at == B.Entered || th.at.Ran?)
  }

  ghost predicate LinkedErrand(e: Errand, th: B.Thread) {
    match e
    case Stray => th.at == B.Running
    case Arrive => th.at == B.Running && th.signalled
    case Report => th.at.Ran?
    case Leave => th.at.Held?
  }

  /** The caller's next section is one that the barrier has due. */
  ghost predicate PlanOk(pc: Pc, c: B.State) {
    match pc
    case Spinning(Tally(step)) => Due(c, step)
    case Inside(Tally(step)) => Due(c, step)
    case Spinning(Return) => c.pc == B.Done
    case Inside(Return) => c.pc == B.Done
    case _ => true
  }

  ghost predicate LinksOk(s: State) {
    && s.call.self !in s.call.live
    && s.threads.Keys == s.call.live.Keys + {s.call.self}
    && forall t :: t in s.call.live ==> Linked(s.threads[t].handler, s.call.live[t], s.cmd)
  }

  ghost predicate CallOk(s: State) {
    && LinksOk(s)
    && Owner(s, s.call.self) && Idling(s.threads[s.call.self].handler)
    && PlanOk(s.threads[s.call.self].pc, s.call)
  }

  ghost predicate QuietOk(s: State) {
    !s.call.active && NobodyActs(s) && NoSignals(s.call)
  }

  ghost predicate BarrierOk(s: State) {
    if s.phase == Syscall then Reached(s.call) && CallOk(s) else QuietOk(s)
  }

  /** Until its first lock, a process only spins. */
  ghost predicate Untouched(s: State) {
    && s.pid != 0 && s.mu != s.pid && !s.freed && 0 !in s.threads && NoSignals(s.call)
    && forall t :: t in s.threads ==>
         && (s.threads[t].pc == Outside || (s.threads[t].pc.Spinning? && OwnsWhile(s.threads[t].pc.want) == Idle))
         && (s.threads[t].handler == NoHandler || s.threads[t].handler == Waiting(Stray))
  }

  ghost predicate Inv(s: State) {
    if s.tracker_pid != s.pid then Untouched(s)
    else
      MutexOk(s) && OwnerOk(s) && BarrierOk(s)
  }

  // ---------- the barrier underneath ----------

  lemma ReachedInv(c: B.State)
    requires Reached(c)
    ensures B.Inv(c)
  {
    var init, steps :| B.Init(init) && B.Legal(init, steps) && B.Exec(init, steps) == c;
    B.InitInv(init);
    BR.RunInv(init, steps);
  }

  lemma ReachedInit(c: B.State)
    requires B.Init(c)
    ensures Reached(c)
  {
    assert B.Legal(c, []) && B.Exec(c, []) == c;
  }

  lemma ReachedStep(c: B.State, step: B.Step)
    requires Reached(c) && B.Enabled(c, step)
    ensures Reached(B.Apply(c, step))
  {
    hide B.Enabled, B.Apply, B.Init;
    var init, steps :| B.Init(init) && B.Legal(init, steps) && B.Exec(init, steps) == c;
    B.Extended(init, steps, step);
  }

  ghost predicate IsHandlerStep(b: B.Step) {
    b.Deliver? || b.RunSyscall? || b.Report? || b.Leave?
  }

  /** A handler's step moves its own thread and leaves the caller its plans. */
  lemma HandlerStep(c: B.State, b: B.Step)
    requires B.Enabled(c, b) && IsHandlerStep(b)
    ensures var c' := B.Apply(c, b);
      && c'.self == c.self && c'.pc == c.pc && c'.active == c.active && c'.live.Keys == c.live.Keys
      && (forall u :: u in c.live && u != b.tid ==> c'.live[u] == c.live[u])
      && (forall step :: Due(c, step) ==> Due(c', step))
  {
  }

  /** A caller's step moves no handler. */
  lemma CallerStep(c: B.State, b: B.Step)
    requires B.Enabled(c, b) && (UnderLock(c, b) || Unlocked(c, b))
    ensures var c' := B.Apply(c, b);
      && c'.self == c.self && c'.live.Keys == c.live.Keys
      && (forall u :: u in c.live ==>
            c'.live[u].at == c.live[u].at && (c.live[u].signalled ==> c'.live[u].signalled))
  {
  }

  lemma CrowdStep(c: B.State, b: B.Step)
    requires B.Enabled(c, b) && (b.Clone? || b.Exit?) && c.live.Keys <= c.used
    ensures var c' := B.Apply(c, b);
      && c'.self == c.self && c'.pc == c.pc && c'.active == c.active
      && c'.live.Keys == (if b.Clone? then c.live.Keys + {b.child} else c.live.Keys - {b.tid})
      && (forall u :: u in c.live && u in c'.live ==> c'.live[u] == c.live[u])
      && (b.Clone? ==> c'.live[b.child].at == B.Running)
      && (forall step :: Due(c, step) ==> Due(c', step))
  {
  }

  // ---------- the lock and the owner ----------

  lemma SectionMutex(s: State, t: Tid)
    requires MutexOk(s) && Enabled(s, Section(t))
    ensures MutexOk(Apply(s, Section(t)))
  {
    hide B.Enabled, B.Apply;
    var s' := Apply(s, Section(t));
    assert Holds(s, t);
    assert s'.threads.Keys == s.threads.Keys;
    assert forall u :: u != t && u in s.threads ==> s'.threads[u] == s.threads[u];
    assert forall u :: Holds(s', u) ==> u != t && Holds(s, u);
  }

  lemma ExchangeMutex(s: State, t: Tid)
    requires MutexOk(s) && Enabled(s, Exchange(t))
    ensures MutexOk(Apply(s, Exchange(t)))
  {
    hide B.Enabled, B.Apply;
    var s' := Apply(s, Exchange(t));
    assert forall u :: u != t && u in s.threads ==> u in s'.threads && s'.threads[u] == s.threads[u];
    assert forall u :: Holds(s', u) ==> Holds(s, u) || u == t;
    assert s.mu != s.pid ==> Holds(s', t);
  }

  lemma OtherMutex(s: State, step: Step)
    requires MutexOk(s) && Enabled(s, step) && !step.Section? && !step.Exchange?
    ensures MutexOk(Apply(s, step))
  {
    hide B.Enabled, B.Apply;
    var s' := Apply(s, step);
    assert forall u :: Holds(s', u) <==> Holds(s, u);
  }

  lemma SectionOwner(s: State, t: Tid)
    requires MutexOk(s) && OwnerOk(s) && Enabled(s, Section(t))
    ensures OwnerOk(Apply(s, Section(t)))
  {
    var th := s.threads[t];
    if th.handler.Locked? || !Granted(s, th.pc.want) {
      hide B.Enabled, B.Apply, After;
      var s' := Apply(s, Section(t));
      assert s'.threads == s.threads[t := s'.threads[t]] && s'.threads[t].pc == Waited(th.pc, th.handler);
      assert s'.phase == s.phase && s'.freed == s.freed;
      hide Apply;
      SameOwners(s, s', t);
    } else {
      CallerOwner(s, t, th.pc.want);
    }
  }

  ghost function Waited(pc: Pc, handler: Handler): Pc {
    if handler.Locked? || !pc.Inside? then pc else Spinning(pc.want)
  }

  /** Leaving the lock unserved changes neither what a thread owns nor the tracker's state. */
  lemma SameOwners(s: State, s': State, t: Tid)
    requires OwnerOk(s) && t in s.threads && t in s'.threads && s'.threads == s.threads[t := s'.threads[t]]
    requires Owns(s'.threads[t].pc) == Owns(s.threads[t].pc) && s'.phase == s.phase && s'.freed == s.freed
    ensures OwnerOk(s')
  {
    hide Owns;
    assert forall u :: Owner(s', u) <==> Owner(s, u);
  }

  lemma CallerOwner(s: State, t: Tid, want: Want)
    requires OwnerOk(s) && t in s.threads && s.threads[t].pc == Inside(want) && Granted(s, want)
    ensures OwnerOk(CallerSection(s, t, want).(mu := 0))
  {
    hide B.Apply;
    var s' := CallerSection(s, t, want).(mu := 0);
    assert s'.threads == s.threads[t := s'.threads[t]];
    if Owner(s, t) {
      hide Granted;
      assert forall u :: u != t && Owner(s', u) ==> Owner(s, u);
      assert s'.phase == Setup || s'.phase == Syscall ==> Owner(s', t);
    } else if want == Begin {
      assert forall u :: !Owner(s, u);
      assert Owner(s', t);
    } else {
      assert forall u :: Owner(s', u) <==> Owner(s, u);
    }
  }

  lemma OtherOwner(s: State, step: Step)
    requires OwnerOk(s) && Enabled(s, step) && !step.Section? && s.tracker_pid == s.pid
    ensures OwnerOk(Apply(s, step))
  {
    hide B.Enabled, B.Apply;
    var s' := Apply(s, step);
    assert forall u :: Owner(s', u) <==> Owner(s, u);
    assert forall u :: Owner(s, u) ==> Owns(s'.threads[u].pc) == Owns(s.threads[u].pc);
  }

  // ---------- the handlers and the barrier ----------

  ghost predicate Touched(s: State) {
    s.tracker_pid == s.pid && MutexOk(s) && OwnerOk(s) && BarrierOk(s)
  }

  ghost predicate IsStill(step: Step) {
    step.Ask? || step.WriteCmd? || step.Exchange? || step.Interrupt? || step.Deliver? || step.AskReport?
  }

  lemma OwnerIsCaller(s: State, t: Tid)
    requires OwnerOk(s) && CallOk(s) && Owner(s, t)
    ensures t == s.call.self && s.phase == Owns(s.threads[t].pc)
  {
  }

  lemma StillBarrier(s: State, step: Step)
    requires Touched(s) && Enabled(s, step) && IsStill(step)
    ensures BarrierOk(Apply(s, step))
  {
    hide B.Enabled, B.Apply, Reached, Due;
    var s' := Apply(s, step);
    assert Owner(s, step.t) ==> s.phase == Owns(s.threads[step.t].pc);
    if s.phase == Syscall {
      assert Owner(s, step.t) ==> step.t == s.call.self;
      StillCall(s, step);
    } else {
      hide PlanOk, CallOk;
    }
  }

  lemma StillCall(s: State, step: Step)
    requires CallOk(s) && Enabled(s, step) && IsStill(step) && s.tracker_pid == s.pid
    requires Owner(s, step.t) ==> step.t == s.call.self && Owns(s.threads[step.t].pc) == Syscall
    ensures CallOk(Apply(s, step))
  {
    hide B.Enabled, B.Apply, Reached, Due;
    var s' := Apply(s, step);
    assert s'.threads == s.threads[step.t := s'.threads[step.t]] && s'.call == s.call;
    if step.t == s.call.self {
      assert PlanOk(s'.threads[step.t].pc, s.call);
    }
  }

  lemma WalkBarrier(s: State, t: Tid, b: B.Step)
    requires Touched(s) && Enabled(s, Walk(t, b))
    ensures BarrierOk(Apply(s, Walk(t, b)))
  {
    assert Owner(s, t);
    OwnerIsCaller(s, t);
    ReachedStep(s.call, b);
    CallerStep(s.call, b);
    hide B.Enabled, B.Apply, Reached, Due, Unlocked;
  }

  ghost predicate SamePlans(c: B.State, c': B.State) {
    && c'.self == c.self && c'.pc == c.pc
    && forall step :: Due(c, step) ==> Due(c', step)
  }

  /** One handler moves with its thread, all others stand still. */
  lemma OneMoved(s: State, s': State, t: Tid, h: Handler)
    requires CallOk(s) && t in s.call.live && SamePlans(s.call, s'.call)
    requires s'.phase == s.phase && s'.cmd == s.cmd && s'.threads == s.threads[t := s.threads[t].(handler := h)]
    requires s'.call.live.Keys == s.call.live.Keys && Linked(h, s'.call.live[t], s.cmd)
    requires forall u :: u in s.call.live && u != t ==> s'.call.live[u] == s.call.live[u]
    ensures CallOk(s')
  {
    hide Linked, Due, Idling;
  }

  lemma RunBarrier(s: State, t: Tid, r: int)
    requires Touched(s) && Enabled(s, RunSyscall(t, r))
    ensures BarrierOk(Apply(s, RunSyscall(t, r)))
  {
    var b := B.RunSyscall(t, r);
    var s' := Apply(s, RunSyscall(t, r));
    assert s.phase == Syscall && Linked(s.threads[t].handler, s.call.live[t], s.cmd);
    ReachedStep(s.call, b);
    HandlerStep(s.call, b);
    assert s'.call == B.Apply(s.call, b) && s'.call.live[t].at.Ran?;
    assert s'.threads == s.threads[t := s.threads[t].(handler := s.threads[t].handler)];
    OneMoved(s, s', t, s.threads[t].handler);
    hide B.Enabled, B.Apply, Reached, CallOk;
  }

  lemma SpawnBarrier(s: State, t: Tid, child: Tid)
    requires Touched(s) && Enabled(s, Spawn(t, child))
    ensures BarrierOk(Apply(s, Spawn(t, child)))
  {
    if s.phase == Syscall {
      var b := B.Clone(t, child);
      CrowdMoves(s, t);
      assert B.Enabled(s.call, b);
      ReachedStep(s.call, b);
      CrowdStep(s.call, b);
      Crowded(s, Apply(s, Spawn(t, child)), b);
      hide B.Enabled, B.Apply, Reached, CallOk;
    } else {
      hide B.Enabled, B.Apply, Reached, CallOk;
    }
  }

  lemma DieBarrier(s: State, t: Tid)
    requires Touched(s) && Enabled(s, Die(t))
    ensures BarrierOk(Apply(s, Die(t)))
  {
    if s.phase == Syscall {
      var b := B.Exit(t);
      CrowdMoves(s, t);
      assert B.Enabled(s.call, b);
      ReachedStep(s.call, b);
      CrowdStep(s.call, b);
      Crowded(s, Apply(s, Die(t)), b);
      hide B.Enabled, B.Apply, Reached, CallOk;
    } else {
      hide B.Enabled, B.Apply, Reached, CallOk;
    }
  }

  /** A thread outside psx and its handler is running for the barrier too. */
  lemma CrowdMoves(s: State, t: Tid)
    requires Touched(s) && s.phase == Syscall && t in s.threads && s.threads[t] == Thread(Outside, NoHandler)
    ensures t in s.call.live && s.call.live[t].at == B.Running && s.call.live.Keys <= s.call.used
  {
    ReachedInv(s.call);
    hide Reached;
  }

  lemma Crowded(s: State, s': State, b: B.Step)
    requires CallOk(s) && (b.Clone? || b.Exit?) && SamePlans(s.call, s'.call)
    requires b.Exit? ==> b.tid in s.call.live && s'.threads == s.threads - {b.tid} && s'.call.live.Keys == s.call.live.Keys - {b.tid}
    requires b.Clone? ==>
               && b.child !in s.threads && s'.threads == s.threads[b.child := Thread(Outside, NoHandler)]
               && s'.call.live.Keys == s.call.live.Keys + {b.child} && s'.call.live[b.child].at == B.Running
    requires s'.phase == s.phase && s'.cmd == s.cmd
    requires forall u :: u in s.call.live && u in s'.call.live ==> s'.call.live[u] == s.call.live[u]
    ensures CallOk(s')
  {
    hide Due, Idling;
  }

  /** The section of a handler is the barrier's step of its thread. */
  lemma HandlerBarrier(s: State, t: Tid)
    requires Touched(s) && Enabled(s, Section(t)) && s.threads[t].handler.Locked?
    ensures BarrierOk(Apply(s, Section(t)))
  {
    var errand := s.threads[t].handler.errand;
    if errand == Stray || (errand == Leave && s.call.active) {
      hide B.Enabled, B.Apply, Reached, Due;
    } else {
      assert s.phase == Syscall && t in s.call.live && Linked(s.threads[t].handler, s.call.live[t], s.cmd);
      HandlerSteps(s, t, errand);
    }
  }

  lemma HandlerSteps(s: State, t: Tid, errand: Errand)
    requires Reached(s.call) && CallOk(s) && t in s.call.live && s.threads[t].handler == Locked(errand)
    requires LinkedErrand(errand, s.call.live[t]) && errand != Stray && (errand == Leave ==> !s.call.active)
    ensures var s' := HandlerSection(s, t, errand).(mu := 0); Reached(s'.call) && CallOk(s')
  {
    var b := StepOf(errand, t);
    var s' := HandlerSection(s, t, errand).(mu := 0);
    HandlerMoves(s.call, t, errand);
    ReachedStep(s.call, b);
    HandlerStep(s.call, b);
    assert s'.call == B.Apply(s.call, b);
    hide B.Enabled, B.Apply, Reached, CallOk, Due;
    OneMoved(s, s', t, s'.threads[t].handler);
  }

  /** What a handler's section is to the barrier. */
  ghost function StepOf(errand: Errand, t: Tid): B.Step {
    if errand == Arrive then B.Deliver(t) else if errand == Report then B.Report(t) else B.Leave(t)
  }

  lemma HandlerMoves(c: B.State, t: Tid, errand: Errand)
    requires Reached(c) && t in c.live && LinkedErrand(errand, c.live[t]) && errand != Stray
    requires errand == Leave ==> !c.active
    ensures B.Enabled(c, StepOf(errand, t)) && t in B.Apply(c, StepOf(errand, t)).live
    ensures var at := B.Apply(c, StepOf(errand, t)).live[t].at;
      && (errand == Arrive ==> at == if c.active then B.Entered else B.Running)
      && (errand == Report ==> at.Held?)
      && (errand == Leave ==> at == B.Running)
  {
    ReachedInv(c);
    BR.InvGivesEntries(c);
    hide B.Inv;
  }

  lemma CallerBarrier(s: State, t: Tid)
    requires Touched(s) && Enabled(s, Section(t)) && !s.threads[t].handler.Locked?
    ensures BarrierOk(Apply(s, Section(t)))
  {
    var want := s.threads[t].pc.want;
    if !Granted(s, want) {
      WaitBarrier(s, t, want);
      hide B.Enabled, B.Apply, Reached, CallOk, QuietOk;
    } else if want.Tally? {
      assert Owner(s, t);
      OwnerIsCaller(s, t);
      TallyBarrier(s, t, want.step);
    } else if want.Proceed? {
      assert Owner(s, t);
      ProceedBarrier(s, t, want.ret);
    } else if want == Return {
      assert Owner(s, t);
      OwnerIsCaller(s, t);
      AtReturn(s);
      hide B.Enabled, B.Apply, Reached, Due, Linked;
    } else {
      hide B.Enabled, B.Apply, Reached, Due, Linked;
    }
  }

  lemma WaitBarrier(s: State, t: Tid, want: Want)
    requires BarrierOk(s) && t in s.threads && s.threads[t] == Thread(Inside(want), NoHandler)
    ensures BarrierOk(Put(s, t, Thread(Spinning(want), NoHandler)).(mu := 0))
  {
    hide Reached, Due;
  }

  lemma TallyBarrier(s: State, t: Tid, b: B.Step)
    requires Reached(s.call) && CallOk(s) && t == s.call.self && s.threads[t] == Thread(Inside(Tally(b)), NoHandler)
    requires B.Enabled(s.call, b)
    ensures var s' := CallerSection(s, t, Tally(b)).(mu := 0); Reached(s'.call) && CallOk(s')
  {
    ReachedStep(s.call, b);
    CallerStep(s.call, b);
    hide B.Enabled, B.Apply, Reached, Due;
  }

  lemma ProceedBarrier(s: State, t: Tid, ret: int)
    requires QuietOk(s) && 0 !in s.threads && t in s.threads && s.phase == Setup && s.threads[t].pc == Inside(Proceed(ret))
    ensures var s' := CallerSection(s, t, Proceed(ret)).(mu := 0); Reached(s'.call) && CallOk(s')
  {
    ReachedInit(Started(s, t, ret));
    hide Reached;
  }

  /** When the barrier is done, nothing of the call is left in any handler. */
  lemma AtReturn(s: State)
    requires Reached(s.call) && CallOk(s) && s.call.pc == B.Done
    ensures QuietOk(s)
    ensures forall t :: t in s.threads && t != s.call.self ==> t in s.call.live && s.call.live[t] == B.Thread(B.Running, false, 1)
  {
    var init, steps :| B.Init(init) && B.Legal(init, steps) && B.Exec(init, steps) == s.call;
    BR.CallCompletes(init, steps, s.call.self, 0);
  }

  // ---------- every step keeps it ----------

  lemma TouchedInv(s: State, step: Step)
    requires Touched(s) && Enabled(s, step)
    ensures Touched(Apply(s, step))
  {
    assert Apply(s, step).tracker_pid == Apply(s, step).pid;
    hide MutexOk, OwnerOk, BarrierOk;
    match step
    case Section(t) =>
      SectionMutex(s, t);
      SectionOwner(s, t);
      if s.threads[t].handler.Locked? {
        HandlerBarrier(s, t);
      } else {
        CallerBarrier(s, t);
      }
    case Exchange(t) =>
      ExchangeMutex(s, t);
      OtherOwner(s, step);
      StillBarrier(s, step);
    case _ =>
      OtherMutex(s, step);
      OtherOwner(s, step);
      OutsideBarrier(s, step);
  }

  lemma OutsideBarrier(s: State, step: Step)
    requires Touched(s) && Enabled(s, step) && !step.Section?
    ensures BarrierOk(Apply(s, step))
  {
    hide Touched, BarrierOk, Enabled, Apply;
    match step
    case Walk(t, b) => WalkBarrier(s, t, b);
    case RunSyscall(t, r) => RunBarrier(s, t, r);
    case Spawn(t, child) => SpawnBarrier(s, t, child);
    case Die(t) => DieBarrier(s, t);
    case _ => StillBarrier(s, step);
  }

  lemma UntouchedInv(s: State, step: Step)
    requires Untouched(s) && s.tracker_pid != s.pid && Enabled(s, step)
    ensures Inv(Apply(s, step))
  {
    hide B.Enabled, B.Apply, Reached, Due, CallOk;
    if step.Exchange? {
      FirstLock(s, step.t);
    } else {
      hide MutexOk, OwnerOk, BarrierOk;
    }
  }

  lemma FirstLock(s: State, t: Tid)
    requires Untouched(s) && s.tracker_pid != s.pid && Enabled(s, Exchange(t))
    ensures var s' := Apply(s, Exchange(t)); s'.tracker_pid == s'.pid && s'.phase == Idle && Inv(s')
  {
    hide B.Enabled, B.Apply, Reached, Due, CallOk;
    var s' := Apply(s, Exchange(t));
    assert s'.threads == s.threads[t := Entered(s.threads[t])];
    assert forall u :: Holds(s', u) ==> u == t;
    assert Holds(s', t);
    assert forall u :: !Owner(s', u);
    assert MutexOk(s');
    assert OwnerOk(s');
    assert QuietOk(s');
  }

  lemma StepInv(s: State, step: Step)
    requires Inv(s) && Enabled(s, step)
    ensures Inv(Apply(s, step))
  {
    hide Enabled, Apply, Untouched, MutexOk, OwnerOk, BarrierOk;
    if s.tracker_pid != s.pid {
      UntouchedInv(s, step);
    } else {
      TouchedInv(s, step);
    }
  }
}
