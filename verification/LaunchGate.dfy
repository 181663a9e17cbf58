/** The launch gate of the Go package: a monitor that keeps process-wide privilege writes
    apart from launching threads, which deviate from the rest of the process on purpose. */
module LaunchGate {

  type Tid = nat

  /** Passed where no thread is meant. */
  const NO_THREAD: Tid := 0

  datatype LaunchState = Idle | Active | Blocked

  /** What the monitor's mutex protects. */
  datatype Monitor = Monitor(state: LaunchState, tids: set<Tid>)

  /** Whether a requested transition has to wait for another state. */
  predicate MustWait(m: Monitor, from: LaunchState, to: LaunchState) {
    m.state != from && !(m.state == Active && from == Idle && to == Active)
  }

  /** The monitor after a transition that need not wait. */
  function Moved(m: Monitor, from: LaunchState, to: LaunchState, tid: Tid): Monitor {
    if from == Idle && to == Active then Monitor(to, m.tids + {tid})
    else if from == Active && to == Idle then
      var tids := m.tids - {tid};
      Monitor(if tids == {} then to else from, tids)
    else Monitor(to, m.tids)
  }

  /** Whether a thread has to wait before it may write privilege state. */
  predicate WriteMustWait(m: Monitor, tid: Tid) {
    m.state != Idle && !(m.state == Active && tid in m.tids)
  }

  /** The monitor as the Go package holds it. Each method is one pass through the condition
      loop with the mutex held: it reports that the caller has to wait, or it completes. */
  class Gate {
    var state: LaunchState
    var tids: set<Tid>

    function View(): Monitor
      reads this
    {
      Monitor(state, tids)
    }

    constructor ()
      ensures View() == Monitor(Idle, {})
    {
      state, tids := Idle, {};
    }

    method SetState(from: LaunchState, to: LaunchState, tid: Tid) returns (waits: bool)
      modifies this
      ensures waits <==> MustWait(old(View()), from, to)
      ensures View() == if waits then old(View()) else Moved(old(View()), from, to, tid)
    {
      if state != from && !(state == Active && from == Idle && to == Active) {
        return true;
      }
      var next := to;
      if from == Idle && to == Active {
        tids := tids + {tid};
      } else if from == Active && to == Idle {
        tids := tids - {tid};
        if |tids| != 0 {
          next := from; // not actually idle
        }
      }
      state := next;
      return false;
    }

    /** Choose the system calls to write with, all threads' or this thread's, and block. */
    method StateSC(tid: Tid) returns (waits: bool, saved: LaunchState, multi: bool)
      modifies this
      ensures waits <==> WriteMustWait(old(View()), tid)
      ensures waits ==> View() == old(View())
      ensures !waits ==> saved == old(state) && View() == old(View()).(state := Blocked)
      ensures !waits ==> (multi <==> old(state) == Idle)
    {
      saved, multi := state, true;
      if state != Idle {
        if state == Active && tid in tids {
          multi := false;
        } else {
          return true, state, true;
        }
      }
      state := Blocked;
      return false, saved, multi;
    }
  }

  // ---------- threads that use the gate ----------

  /** Where a thread stands. `home` says whether it writes from inside a launch. */
  datatype Pc =
    | Free
    | WantLaunch
    | Launching
    | Exited
    | WantWrite(home: bool)
    | Writing(home: bool, saved: LaunchState, multi: bool)

  /** The monitor, every thread that uses the gate or might, and each live thread's privilege
      state; `common` is the state that the process as a whole last set. */
  datatype State = State(gate: Monitor, threads: map<Tid, Pc>, priv: map<Tid, int>, common: int)

  datatype Step =
    | AskLaunch(t: Tid)
    | Enter(t: Tid)
    | PrivateWrite(t: Tid, value: int)
    | EndThread(t: Tid)
    | Leave(t: Tid)
    | AskWrite(t: Tid)
    | BeginWrite(t: Tid)
    | Write(t: Tid, value: int)
    | EndWrite(t: Tid)
    | Spawn(parent: Tid, t: Tid)
    | Die(t: Tid)

  predicate Enabled(s: State, step: Step) {
    match step
    case AskLaunch(t) => t in s.threads && s.threads[t] == Free
    case Enter(t) => t in s.threads && s.threads[t] == WantLaunch && !MustWait(s.gate, Idle, Active)
    case PrivateWrite(t, _) => t in s.threads && s.threads[t] == Launching
    case EndThread(t) => t in s.threads && s.threads[t] == Launching
    case Leave(t) => t in s.threads && s.threads[t] == Exited && !MustWait(s.gate, Active, Idle)
    case AskWrite(t) => t in s.threads && (s.threads[t] == Free || s.threads[t] == Launching)
    case BeginWrite(t) => t in s.threads && s.threads[t].WantWrite? && !WriteMustWait(s.gate, t)
    case Write(t, _) => t in s.threads && s.threads[t].Writing?
    case EndWrite(t) => t in s.threads && s.threads[t].Writing? && !MustWait(s.gate, Blocked, s.threads[t].saved)
    case Spawn(p, t) => p in s.threads && s.threads[p] == Free && p in s.priv && t !in s.threads
    case Die(t) => t in s.threads && s.threads[t] == Free
  }

  function Apply(s: State, step: Step): State
    requires Enabled(s, step)
  {
    match step
    case AskLaunch(t) => s.(threads := s.threads[t := WantLaunch])
    case Enter(t) => s.(gate := Moved(s.gate, Idle, Active, t), threads := s.threads[t := Launching])
    case PrivateWrite(t, v) => s.(priv := s.priv[t := v])
    case EndThread(t) => s.(threads := s.threads[t := Exited], priv := s.priv - {t})
    case Leave(t) => s.(gate := Moved(s.gate, Active, Idle, t), threads := s.threads - {t})
    case AskWrite(t) => s.(threads := s.threads[t := WantWrite(s.threads[t] == Launching)])
    case BeginWrite(t) =>
      s.(gate := s.gate.(state := Blocked),
         threads := s.threads[t := Writing(s.threads[t].home, s.gate.state, s.gate.state == Idle)])
    case Write(t, v) =>
      if s.threads[t].multi then s.(priv := map u | u in s.priv :: v, common := v)
      else s.(priv := s.priv[t := v])
    case EndWrite(t) =>
      s.(gate := Moved(s.gate, Blocked, s.threads[t].saved, NO_THREAD),
         threads := s.threads[t := if s.threads[t].home then Launching else Free])
    case Spawn(p, t) => s.(threads := s.threads[t := Free], priv := s.priv[t := s.priv[p]])
    case Die(t) => s.(threads := s.threads - {t}, priv := s.priv - {t})
  }

  /** Before any launch every thread carries the process's privilege state. */
  ghost predicate Init(s: State) {
    && s.gate == Monitor(Idle, {})
    && s.priv.Keys == s.threads.Keys
    && forall t :: t in s.threads ==> s.threads[t] == Free && s.priv[t] == s.common
  }

  // ---------- the invariant ----------

  predicate Launched(pc: Pc) {
    pc == Launching || pc == Exited || (pc.WantWrite? && pc.home) || (pc.Writing? && pc.home)
  }

  ghost predicate IsWriter(s: State, t: Tid) {
    t in s.threads && s.threads[t].Writing?
  }

  /** The state that the registered threads call for while nobody writes. */
  function Settled(tids: set<Tid>): LaunchState {
    if tids == {} then Idle else Active
  }

  ghost predicate Inv(s: State) {
    && (forall t :: t in s.gate.tids <==> t in s.threads && Launched(s.threads[t]))
    && (s.gate.state != Blocked ==> s.gate.state == Settled(s.gate.tids))
    && (forall t :: IsWriter(s, t) ==>
          && s.gate.state == Blocked
          && s.threads[t].saved == Settled(s.gate.tids)
          && (s.threads[t].multi <==> s.gate.tids == {})
          && (s.threads[t].home <==> s.gate.tids != {}))
    && (s.gate.state == Blocked ==> exists t :: IsWriter(s, t))
    && (forall t, u :: IsWriter(s, t) && IsWriter(s, u) ==> t == u)
    && (forall t :: t in s.priv <==> t in s.threads && s.threads[t] != Exited)
    && (forall t :: t in s.priv && t !in s.gate.tids ==> s.priv[t] == s.common)
  }

  lemma WriterKept(s: State, step: Step)
    requires Inv(s) && Enabled(s, step) && !step.BeginWrite? && !step.EndWrite?
    ensures Apply(s, step).gate.state == Blocked <==> s.gate.state == Blocked
    ensures forall t :: IsWriter(Apply(s, step), t) <==> IsWriter(s, t)
  {
  }

  lemma BeginWriteInv(s: State, t: Tid)
    requires Inv(s) && Enabled(s, BeginWrite(t))
    ensures Inv(Apply(s, BeginWrite(t)))
  {
    var s' := Apply(s, BeginWrite(t));
    assert IsWriter(s', t);
    assert forall u :: u != t ==> !IsWriter(s', u);
  }

  lemma EndWriteInv(s: State, t: Tid)
    requires Inv(s) && Enabled(s, EndWrite(t))
    ensures Inv(Apply(s, EndWrite(t)))
  {
    assert IsWriter(s, t);
    forall u | u != t
      ensures !IsWriter(Apply(s, EndWrite(t)), u)
    {
      assert !IsWriter(s, u);
    }
  }

  lemma StepInv(s: State, step: Step)
    requires Inv(s) && Enabled(s, step)
    ensures Inv(Apply(s, step))
  {
    hide *;
    match step
    case BeginWrite(t) => BeginWriteInv(s, t);
    case EndWrite(t) => EndWriteInv(s, t);
    case Enter(t) => LaunchInv(s, step, t);
    case EndThread(t) => LaunchInv(s, step, t);
    case Leave(t) => LaunchInv(s, step, t);
    case _ => OtherInv(s, step);
  }

  lemma LaunchInv(s: State, step: Step, t: Tid)
    requires Inv(s) && Enabled(s, step) && (step == Enter(t) || step == EndThread(t) || step == Leave(t))
    ensures Inv(Apply(s, step))
  {
    WriterKept(s, step);
  }

  lemma OtherInv(s: State, step: Step)
    requires Inv(s) && Enabled(s, step)
    requires !step.BeginWrite? && !step.EndWrite? && !step.Enter? && !step.EndThread? && !step.Leave?
    ensures Inv(Apply(s, step))
  {
    WriterKept(s, step);
  }

  // ---------- whole runs ----------

  ghost predicate Legal(s: State, steps: seq<Step>)
    decreases |steps|
  {
    steps == [] || (Enabled(s, steps[0]) && Legal(Apply(s, steps[0]), steps[1..]))
  }

  ghost function Exec(s: State, steps: seq<Step>): State
    requires Legal(s, steps)
    decreases |steps|
  {
    if steps == [] then s else Exec(Apply(s, steps[0]), steps[1..])
  }

  lemma {:induction false} RunInv(s: State, steps: seq<Step>)
    requires Inv(s) && Legal(s, steps)
    ensures Inv(Exec(s, steps))
    decreases |steps|
  {
    hide Inv, Apply, Enabled;
    if steps != [] {
      StepInv(s, steps[0]);
      RunInv(Apply(s, steps[0]), steps[1..]);
    }
  }

  /** At most one thread writes, and while one does, the state it saved is the state that the
      registered launches call for: Idle when there is none, Active when there is one. */
  lemma OneWriter(s: State, steps: seq<Step>)
    requires Init(s) && Legal(s, steps)
    ensures var e := Exec(s, steps);
      && (forall t, u :: IsWriter(e, t) && IsWriter(e, u) ==> t == u)
      && (e.gate.state == Blocked <==> exists t :: IsWriter(e, t))
      && (forall t :: IsWriter(e, t) ==> e.threads[t].saved == Settled(e.gate.tids))
      && (e.gate.state == Idle ==> e.gate.tids == {})
      && (e.gate.state == Active ==> e.gate.tids != {})
  {
    RunInv(s, steps);
  }

  /** A process-wide write runs only while no launch is registered and all threads of the
      process agree on their privilege state; any other write comes from a launched thread
      and reaches that thread alone. */
  lemma ProcessWideWrites(s: State, steps: seq<Step>, t: Tid)
    requires Init(s) && Legal(s, steps) && IsWriter(Exec(s, steps), t)
    ensures var e := Exec(s, steps);
      if e.threads[t].multi then e.gate.tids == {} && forall u :: u in e.priv ==> e.priv[u] == e.common
      else t in e.gate.tids
  {
    RunInv(s, steps);
  }

  /** What a write does: a process-wide one gives its value to every live thread and to the
      process, any other one to its own thread and to nobody else. */
  lemma WritesReach(s: State, steps: seq<Step>, t: Tid, value: int)
    requires Init(s) && Legal(s, steps) && Enabled(Exec(s, steps), Write(t, value))
    ensures var e := Exec(s, steps); var e' := Apply(e, Write(t, value));
      && t in e.priv && e'.priv.Keys == e.priv.Keys && e'.gate == e.gate && e'.threads == e.threads
      && (e.threads[t].multi ==> e'.common == value && forall u :: u in e.priv ==> e'.priv[u] == value)
      && (!e.threads[t].multi ==>
            e'.common == e.common && e'.priv[t] == value && forall u :: u in e.priv && u != t ==> e'.priv[u] == e.priv[u])
  {
    RunInv(s, steps);
  }

  /** A new thread starts with the privilege of the process, and one that ends is forgotten. */
  lemma ThreadsComeAndGo(s: State, steps: seq<Step>, p: Tid, t: Tid)
    requires Init(s) && Legal(s, steps)
    ensures var e := Exec(s, steps);
      && (Enabled(e, Spawn(p, t)) ==>
            var e' := Apply(e, Spawn(p, t));
            e'.threads == e.threads[t := Free] && e'.priv == e.priv[t := e.common] && e'.gate == e.gate)
      && (Enabled(e, Die(t)) ==>
            var e' := Apply(e, Die(t));
            t !in e'.threads && t !in e'.priv && t !in e'.gate.tids && e'.common == e.common)
  {
    RunInv(s, steps);
  }

  /** Only registered launches ever deviate, and none is left when the gate is idle. */
  lemma OnlyLaunchesDeviate(s: State, steps: seq<Step>)
    requires Init(s) && Legal(s, steps)
    ensures var e := Exec(s, steps);
      && (forall u :: u in e.priv && e.priv[u] != e.common ==> u in e.gate.tids && u in e.threads && Launched(e.threads[u]))
      && (e.gate.state == Idle ==> forall u :: u in e.priv ==> e.priv[u] == e.common)
  {
    RunInv(s, steps);
  }

  /** A thread that has asked for a transition which must wait. */
  predicate Waits(s: State, t: Tid) {
    t in s.threads &&
    match s.threads[t] {
      case WantLaunch => MustWait(s.gate, Idle, Active)
      case Exited => MustWait(s.gate, Active, Idle)
      case WantWrite(_) => WriteMustWait(s.gate, t)
      case Writing(_, saved, _) => MustWait(s.gate, Blocked, saved)
      case _ => false
    }
  }

  /** The step by which a thread moves on through its launch or its write. */
  function Onward(pc: Pc, t: Tid): Step {
    match pc
    case Free => AskWrite(t)
    case WantLaunch => Enter(t)
    case Launching => EndThread(t)
    case Exited => Leave(t)
    case WantWrite(_) => BeginWrite(t)
    case Writing(_, _, _) => EndWrite(t)
  }

  lemma Someone(tids: set<Tid>) returns (t: Tid)
    requires tids != {}
    ensures t in tids
  {
    t :| t in tids;
  }

  /** Whenever a thread waits, another one that the gate concerns, a launch or the writer,
      does not wait and can move on; nobody waits at an idle gate. */
  lemma WaitersAreFreed(s: State, steps: seq<Step>, w: Tid)
    requires Init(s) && Legal(s, steps) && Waits(Exec(s, steps), w)
    ensures var e := Exec(s, steps);
      && e.gate.state != Idle
      && exists u :: u in e.threads && (IsWriter(e, u) || u in e.gate.tids) && !Waits(e, u)
           && Enabled(e, Onward(e.threads[u], u))
  {
    RunInv(s, steps);
    var e := Exec(s, steps);
    if e.gate.state == Blocked {
      var u :| IsWriter(e, u);
      assert Enabled(e, Onward(e.threads[u], u));
    } else if e.gate.state == Active {
      var u := Someone(e.gate.tids);
      assert !IsWriter(e, u);
      assert Enabled(e, Onward(e.threads[u], u));
    }
  }
}
