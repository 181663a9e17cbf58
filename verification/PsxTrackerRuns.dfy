/** What holds in every run of the tracker: one owner, calls that run the barrier, a stable
    command, and a fresh start after fork. */
module PsxTrackerRuns {
  import opened PsxTracker
  import B = PsxBarrier

  // ---------- whole runs ----------

  ghost predicate Legal(s: State, steps: seq<Step>)
    decreases |steps|
  {
    steps == [] || (Enabled(s, steps[0]) && Legal(Apply(s, steps[0]), steps[1..]))
  }

  ghost function Exec(s: State, steps: seq<Step>): State
    requires Legal(s, steps)
    decreases |steps|
  {
    if steps == [] then s else Exec(Apply(s, steps[0]), steps[1..])
  }

  lemma {:induction false} RunInv(s: State, steps: seq<Step>)
    requires Inv(s) && Legal(s, steps)
    ensures Inv(Exec(s, steps))
    decreases |steps|
  {
    hide Inv, Apply, Enabled;
    if steps != [] {
      StepInv(s, steps[0]);
      RunInv(Apply(s, steps[0]), steps[1..]);
    }
  }

  /** In every reachable state at most one thread is inside the lock, and a held lock has a
      holder; at most one thread is in a psx call, and it owns the tracker's state. */
  lemma OneOwner(s: State, steps: seq<Step>)
    requires Newborn(s) && Legal(s, steps)
    ensures var e := Exec(s, steps);
      && (forall t, u :: Holds(e, t) && Holds(e, u) ==> t == u)
      && (e.mu == e.pid ==> exists t :: Holds(e, t))
      && (forall t, u :: Owner(e, t) && Owner(e, u) ==> t == u)
      && (forall t :: Owner(e, t) ==> e.tracker_pid == e.pid && e.phase == Owns(e.threads[t].pc))
  {
    RunInv(s, steps);
  }

  /** However calls, waiting callers, handlers, clones and exits interleave, what goes on
      during a call is a run of the barrier from its start, with the handlers where the
      barrier has them. So what is shown of the barrier holds of every call. */
  lemma CallsRunTheBarrier(s: State, steps: seq<Step>)
    requires Newborn(s) && Legal(s, steps) && InCall(Exec(s, steps))
    ensures var e := Exec(s, steps); Reached(e.call) && CallOk(e)
  {
    RunInv(s, steps);
  }

  /** When a call returns, every other thread of the process has its effect exactly once,
      and none is still in a handler of it. */
  lemma ReturnsUniform(s: State, steps: seq<Step>, t: Tid)
    requires Newborn(s) && Legal(s, steps) && Enabled(Exec(s, steps), Section(t))
    requires Exec(s, steps).threads[t].pc == Inside(Return)
    ensures var e := Exec(s, steps);
      && NobodyActs(e)
      && (forall u :: u in e.threads && u != t ==> u in e.call.live && e.call.live[u] == B.Thread(B.Running, false, 1))
  {
    RunInv(s, steps);
    var e := Exec(s, steps);
    assert Owner(e, t);
    OwnerIsCaller(e, t);
    AtReturn(e);
  }

  /** The thread in a call finds what it needs, so it can always move on; only in the drain
      may it have to wait, and then a released handler is on its way out. */
  lemma OwnerMovesOn(s: State, steps: seq<Step>, t: Tid)
    requires Newborn(s) && Legal(s, steps) && Owner(Exec(s, steps), t)
    requires Exec(s, steps).threads[t].pc.Inside? && !Granted(Exec(s, steps), Exec(s, steps).threads[t].pc.want)
    ensures var e := Exec(s, steps);
      && e.threads[t].pc.want == Tally(B.Finish) && !e.call.active
      && exists u :: u in e.threads && e.threads[u].handler == Waiting(Leave)
  {
    RunInv(s, steps);
    hide Legal, Exec;
    CallerWaits(Exec(s, steps), t);
  }

  lemma CallerWaits(s: State, t: Tid)
    requires Inv(s) && Owner(s, t) && s.threads[t].pc.Inside? && !Granted(s, s.threads[t].pc.want)
    ensures s.threads[t].pc.want == Tally(B.Finish) && !s.call.active
    ensures exists u :: u in s.threads && s.threads[u].handler == Waiting(Leave)
  {
    assert Holds(s, t) && s.phase == Owns(s.threads[t].pc);
    if s.phase == Syscall {
      OwnerIsCaller(s, t);
      ReachedInv(s.call);
      hide Reached;
      if s.threads[t].pc.want.Tally? {
        assert Due(s.call, s.threads[t].pc.want.step);
        SomeoneLeaves(s, t);
      }
    }
  }

  lemma SomeoneLeaves(s: State, t: Tid)
    requires MutexOk(s) && CallOk(s) && Holds(s, t) && t == s.call.self
    requires B.Inv(s.call) && s.call.pc == B.Draining && s.call.incomplete != 0
    ensures !s.call.active
    ensures exists u :: u in s.threads && s.threads[u].handler == Waiting(Leave)
  {
    var u :| u in B.HeldSet(s.call.live);
    assert Linked(s.threads[u].handler, s.call.live[u], s.cmd);
    assert Holds(s, u) ==> u == t;
  }

  /** A call goes on with the result of its own system call, and with all the other threads. */
  lemma CallStarts(s: State, steps: seq<Step>, t: Tid, ret: int)
    requires Newborn(s) && Legal(s, steps) && Enabled(Exec(s, steps), Section(t))
    requires Exec(s, steps).threads[t].pc == Inside(Proceed(ret))
    ensures var e := Exec(s, steps); var call := Apply(e, Section(t)).call;
      && B.Init(call) && call.self == t && call.ret == ret && call.live.Keys == e.threads.Keys - {t}
      && InCall(Apply(e, Section(t)))
  {
    RunInv(s, steps);
    var e := Exec(s, steps);
    assert Owner(e, t) && e.phase == Setup;
    hide Legal, Exec;
  }

  /** The command last written in a run. */
  ghost function Written(cmd: int, steps: seq<Step>): int
    decreases |steps|
  {
    if steps == [] then cmd else Written(if steps[0].WriteCmd? then steps[0].value else cmd, steps[1..])
  }

  lemma CmdStep(s: State, step: Step)
    requires Enabled(s, step)
    ensures Apply(s, step).cmd == if step.WriteCmd? then step.value else s.cmd
  {
    hide B.Enabled, B.Apply, After, Started;
  }

  lemma {:induction false} CmdRun(s: State, steps: seq<Step>)
    requires Legal(s, steps)
    ensures Exec(s, steps).cmd == Written(s.cmd, steps)
    decreases |steps|
  {
    hide Enabled, Apply;
    if steps != [] {
      CmdStep(s, steps[0]);
      CmdRun(Apply(s, steps[0]), steps[1..]);
    }
  }

  /** The command is not rewritten while any handler of a call is under way, and whoever
      reads it reads the command last written, all the time. */
  lemma CommandStable(s: State, steps: seq<Step>)
    requires Newborn(s) && Legal(s, steps)
    ensures var e := Exec(s, steps);
      && (forall t, v :: Enabled(e, WriteCmd(t, v)) ==> NobodyActs(e) && !e.call.active)
      && (forall u :: u in e.threads && e.threads[u].handler.Acting? ==>
            InCall(e) && e.threads[u].handler.cmd == e.cmd == Written(s.cmd, steps))
  {
    RunInv(s, steps);
    CmdRun(s, steps);
    var e := Exec(s, steps);
    forall t, v | Enabled(e, WriteCmd(t, v))
      ensures NobodyActs(e) && !e.call.active
    {
      assert Owner(e, t);
    }
  }

  /** The tracker's memory is freed only when no call is in flight and nobody acts for one. */
  lemma FreedWhenIdle(s: State, steps: seq<Step>, step: Step)
    requires Newborn(s) && Legal(s, steps) && Enabled(Exec(s, steps), step)
    requires !Exec(s, steps).freed && Apply(Exec(s, steps), step).freed
    ensures var e := Exec(s, steps); NobodyActs(e) && NoSignals(e.call) && forall t :: !Owner(e, t)
  {
    RunInv(s, steps);
    hide Legal, Exec, B.Enabled, B.Apply, Reached, CallOk;
  }

  /** Once exiting, always exiting; no call starts again and no handler acts. */
  lemma {:induction false} ExitingIsFinal(s: State, steps: seq<Step>)
    requires Inv(s) && s.tracker_pid == s.pid && s.phase == Exiting && Legal(s, steps)
    ensures var e := Exec(s, steps); e.phase == Exiting && e.freed && NobodyActs(e) && forall t :: !Owner(e, t)
    decreases |steps|
  {
    if steps != [] {
      var s' := Apply(s, steps[0]);
      StepInv(s, steps[0]);
      StaysExiting(s, steps[0]);
      hide Inv, Apply, Enabled;
      ExitingIsFinal(s', steps[1..]);
    }
  }

  lemma StaysExiting(s: State, step: Step)
    requires Inv(s) && s.tracker_pid == s.pid && s.phase == Exiting && Enabled(s, step)
    ensures Apply(s, step).phase == Exiting && Apply(s, step).tracker_pid == Apply(s, step).pid
  {
    hide B.Enabled, B.Apply;
  }

  /** A fork copies the process, but only the forking thread lives on in the child, and no
      pending signal goes with it. */
  ghost function Forked(s: State, t: Tid, pid: int): State {
    s.(pid := pid, threads := map[t := Thread(Outside, NoHandler)], call := s.call.(live := map[]))
  }

  /** A child forked at any moment, even while another thread of its parent holds the lock
      or is in a call, takes the lock at its first try and finds an idle tracker. */
  lemma ForkedChildRestarts(s: State, t: Tid, pid: int, want: Want)
    requires t in s.threads && t != 0 && s.threads[t] == Thread(Outside, NoHandler) && !s.freed
    requires pid != 0 && pid != s.mu && pid != s.tracker_pid
    requires want == Begin || want == Cleanup
    ensures var child := Forked(s, t, pid);
      && Newborn(child)
      && Legal(child, [Ask(t, want), Exchange(t)])
      && var c := Exec(child, [Ask(t, want), Exchange(t)]);
         Holds(c, t) && c.phase == Idle && !c.call.active && c.tracker_pid == pid && Granted(c, want)
  {
    var child := Forked(s, t, pid);
    var c := Apply(child, Ask(t, want));
    assert Legal(Apply(c, Exchange(t)), []);
    assert [Exchange(t)][1..] == [];
    assert Legal(c, [Exchange(t)]);
    assert [Ask(t, want), Exchange(t)][1..] == [Exchange(t)];
    assert Exec(c, [Exchange(t)]) == Apply(c, Exchange(t));
  }
}
