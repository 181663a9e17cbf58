/** The launch gate never closes for good: from every state there is a way to the idle gate,
    and from there every thread can launch, or write for the whole process. */
module LaunchGateWays {
  import opened LaunchGate

  // ---------- back to the idle gate ----------

  /** How far a thread is from having nothing to do; a smaller number is farther. */
  ghost function Stage(pc: Pc): nat {
    match pc
    case WantLaunch => 0
    case WantWrite(home) => if home then 1 else 5
    case Writing(home, _, _) => if home then 2 else 6
    case Launching => 3
    case Exited => 4
    case Free => 7
  }

  ghost function At(threads: map<Tid, Pc>, k: nat): set<Tid> {
    set t | t in threads && Stage(threads[t]) == k
  }

  /** A thread that moves to a later stage leaves one more behind. */
  lemma StageLeft(threads: map<Tid, Pc>, threads': map<Tid, Pc>, t: Tid, k: nat)
    requires t in threads
    requires threads' == threads - {t} || (t in threads' && threads' == threads[t := threads'[t]] && Stage(threads[t]) < Stage(threads'[t]))
    ensures k < Stage(threads[t]) ==> At(threads', k) == At(threads, k)
    ensures k == Stage(threads[t]) ==> |At(threads', k)| < |At(threads, k)|
  {
    if k == Stage(threads[t]) {
      assert At(threads', k) == At(threads, k) - {t};
    }
  }

  /** A thread with nothing to wait for can move on. */
  lemma CanMove(s: State, t: Tid)
    requires Inv(s) && t in s.threads && s.threads[t] != Free && !Waits(s, t)
    ensures Enabled(s, Onward(s.threads[t], t))
    ensures var s' := Apply(s, Onward(s.threads[t], t));
      && Inv(s')
      && (s'.threads == s.threads - {t}
          || (t in s'.threads && s'.threads == s.threads[t := s'.threads[t]] && Stage(s.threads[t]) < Stage(s'.threads[t])))
  {
    StepInv(s, Onward(s.threads[t], t));
    hide Inv;
  }

  /** Unless all threads are free, one can move on. */
  lemma SomeoneMoves(s: State, w: Tid) returns (t: Tid)
    requires Inv(s) && w in s.threads && s.threads[w] != Free
    ensures t in s.threads && s.threads[t] != Free && !Waits(s, t)
  {
    if !Waits(s, w) {
      t := w;
    } else if s.gate.state == Blocked {
      t :| IsWriter(s, t);
    } else if s.gate.state == Active {
      t := Someone(s.gate.tids);
      assert !IsWriter(s, t);
    } else {
      assert false;
    }
  }

  /** One thread moves on; k is the stage that it leaves. */
  lemma NextMove(s: State, w: Tid) returns (step: Step, k: nat)
    requires Inv(s) && w in s.threads && s.threads[w] != Free
    ensures Enabled(s, step) && Inv(Apply(s, step))
    ensures var threads' := Apply(s, step).threads;
      && k <= 6 && |At(threads', k)| < |At(s.threads, k)|
      && (forall j :: 0 <= j < k ==> At(threads', j) == At(s.threads, j))
      && (forall u :: u in s.threads && s.threads[u] == Free ==> u in threads' && threads'[u] == Free)
  {
    var t := SomeoneMoves(s, w);
    CanMove(s, t);
    step, k := Onward(s.threads[t], t), Stage(s.threads[t]);
    hide Inv, Enabled, Waits, Apply, At;
    StagesLeft(s.threads, Apply(s, step).threads, t);
  }

  lemma {:induction false} WayToIdle(s: State) returns (steps: seq<Step>)
    requires Inv(s)
    ensures Legal(s, steps) && Inv(Exec(s, steps))
    ensures forall t :: t in Exec(s, steps).threads ==> Exec(s, steps).threads[t] == Free
    ensures forall t :: t in s.threads && s.threads[t] == Free ==> t in Exec(s, steps).threads
    decreases |At(s.threads, 0)|, |At(s.threads, 1)|, |At(s.threads, 2)|, |At(s.threads, 3)|,
              |At(s.threads, 4)|, |At(s.threads, 5)|, |At(s.threads, 6)|
  {
    hide Inv, Enabled, Apply, Waits, At;
    if forall t :: t in s.threads ==> s.threads[t] == Free {
      steps := [];
    } else {
      var w :| w in s.threads && s.threads[w] != Free;
      var step, k := NextMove(s, w);
      assert k == 0 || k == 1 || k == 2 || k == 3 || k == 4 || k == 5 || k == 6;
      var more := WayToIdle(Apply(s, step));
      steps := [step] + more;
      assert steps[1..] == more;
    }
  }

  lemma StagesLeft(threads: map<Tid, Pc>, threads': map<Tid, Pc>, t: Tid)
    requires t in threads && threads[t] != Free
    requires threads' == threads - {t} || (t in threads' && threads' == threads[t := threads'[t]] && Stage(threads[t]) < Stage(threads'[t]))
    ensures Stage(threads[t]) <= 6 && |At(threads', Stage(threads[t]))| < |At(threads, Stage(threads[t]))|
    ensures forall k :: 0 <= k < Stage(threads[t]) ==> At(threads', k) == At(threads, k)
  {
    StageLeft(threads, threads', t, Stage(threads[t]));
    forall k | 0 <= k < Stage(threads[t])
      ensures At(threads', k) == At(threads, k)
    {
      StageLeft(threads, threads', t, k);
    }
  }

  lemma AllFreeIsIdle(s: State)
    requires Inv(s) && forall t :: t in s.threads ==> s.threads[t] == Free
    ensures s.gate == Monitor(Idle, {})
  {
    assert s.gate.tids == {};
  }

  lemma IdleGate(s: State)
    requires Inv(s) && s.gate.state == Idle
    ensures s.gate == Monitor(Idle, {})
  {
  }

  ghost predicate AtRest(s: State) {
    s.gate == Monitor(Idle, {}) && forall t :: t in s.threads ==> s.threads[t] == Free
  }

  /** Whatever launches and writes are under way, all of them can be finished. */
  lemma CanSettle(s: State, steps: seq<Step>)
    requires Init(s) && Legal(s, steps)
    ensures exists more :: Legal(Exec(s, steps), more) && AtRest(Exec(Exec(s, steps), more))
  {
    RunInv(s, steps);
    var more := WayToIdle(Exec(s, steps));
    AllFreeIsIdle(Exec(Exec(s, steps), more));
    hide Inv;
  }

  // ---------- what a thread can do at the idle gate ----------

  /** A free thread writes for the whole process. */
  lemma WriteRun(s: State, t: Tid, value: int)
    requires Inv(s) && s.gate.state == Idle && t in s.threads && s.threads[t] == Free
    ensures var steps := [AskWrite(t), BeginWrite(t), Write(t, value), EndWrite(t)];
      && Legal(s, steps)
      && var e := Exec(s, steps);
         e.gate == s.gate && e.threads == s.threads && e.common == value && e.priv == map u | u in s.priv :: value
  {
    IdleGate(s);
    hide Inv;
    var s1 := Apply(s, AskWrite(t));
    var s2 := Apply(s1, BeginWrite(t));
    var s3 := Apply(s2, Write(t, value));
    var s4 := Apply(s3, EndWrite(t));
    assert s4.threads == s.threads;
    hide Apply, Enabled;
    FourSteps(s, AskWrite(t), BeginWrite(t), Write(t, value), EndWrite(t));
  }

  lemma FourSteps(s: State, a: Step, b: Step, c: Step, d: Step)
    requires Enabled(s, a) && Enabled(Apply(s, a), b) && Enabled(Apply(Apply(s, a), b), c)
    requires Enabled(Apply(Apply(Apply(s, a), b), c), d)
    ensures Legal(s, [a, b, c, d]) && Exec(s, [a, b, c, d]) == Apply(Apply(Apply(Apply(s, a), b), c), d)
  {
    hide Apply, Enabled;
    var s1 := Apply(s, a);
    var s2 := Apply(s1, b);
    var s3 := Apply(s2, c);
    var s4 := Apply(s3, d);
    assert [a, b, c, d][1..] == [b, c, d] && [b, c, d][1..] == [c, d] && [c, d][1..] == [d] && [d][1..] == [];
    assert Legal(s4, []) && Exec(s4, []) == s4;
    assert Legal(s3, [d]) && Exec(s3, [d]) == s4;
    assert Legal(s2, [c, d]) && Exec(s2, [c, d]) == s4;
    assert Legal(s1, [b, c, d]) && Exec(s1, [b, c, d]) == s4;
  }

  lemma TwoSteps(s: State, a: Step, b: Step)
    requires Enabled(s, a) && Enabled(Apply(s, a), b)
    ensures Legal(s, [a, b]) && Exec(s, [a, b]) == Apply(Apply(s, a), b)
  {
    hide Apply, Enabled;
    var s1 := Apply(s, a);
    var s2 := Apply(s1, b);
    assert [a, b][1..] == [b] && [b][1..] == [];
    assert Legal(s2, []) && Exec(s2, []) == s2;
    assert Legal(s1, [b]) && Exec(s1, [b]) == s2;
  }

  /** Unless somebody writes, a thread enters the gate, whoever else has entered it before. */
  lemma LaunchRun(s: State, t: Tid)
    requires Inv(s) && s.gate.state != Blocked && t in s.threads && s.threads[t] == Free
    ensures Legal(s, [AskLaunch(t), Enter(t)])
    ensures Exec(s, [AskLaunch(t), Enter(t)]) ==
      s.(gate := Monitor(Active, s.gate.tids + {t}), threads := s.threads[t := Launching])
  {
    hide Inv;
    var s1 := Apply(s, AskLaunch(t));
    assert Apply(s1, Enter(t)).threads == s.threads[t := Launching];
    hide Apply, Enabled;
    TwoSteps(s, AskLaunch(t), Enter(t));
  }

  /** A launched thread deviates alone, by a write of its own. */
  lemma PrivateRun(s: State, t: Tid, value: int)
    requires t in s.threads && s.threads[t] == Launching
    ensures Enabled(s, PrivateWrite(t, value)) && Apply(s, PrivateWrite(t, value)) == s.(priv := s.priv[t := value])
  {
  }

  /** Or by the library's, which it finds turned to itself. */
  lemma HomeWriteRun(s: State, t: Tid, value: int)
    requires Inv(s) && s.gate.state == Active && t in s.threads && s.threads[t] == Launching
    ensures var steps := [AskWrite(t), BeginWrite(t), Write(t, value), EndWrite(t)];
      Legal(s, steps) && Exec(s, steps) == s.(priv := s.priv[t := value])
  {
    assert t in s.gate.tids && s.gate == Monitor(Active, s.gate.tids);
    HomeWriteSteps(s, t, value);
    hide Apply, Enabled, Inv;
    FourSteps(s, AskWrite(t), BeginWrite(t), Write(t, value), EndWrite(t));
  }

  lemma HomeWriteSteps(s: State, t: Tid, value: int)
    requires t in s.gate.tids && s.gate == Monitor(Active, s.gate.tids) && t in s.threads && s.threads[t] == Launching
    ensures Enabled(s, AskWrite(t)) && Enabled(Apply(s, AskWrite(t)), BeginWrite(t))
    ensures Enabled(Apply(Apply(s, AskWrite(t)), BeginWrite(t)), Write(t, value))
    ensures var s3 := Apply(Apply(Apply(s, AskWrite(t)), BeginWrite(t)), Write(t, value));
      Enabled(s3, EndWrite(t)) && Apply(s3, EndWrite(t)) == s.(priv := s.priv[t := value])
  {
    var s1 := Apply(s, AskWrite(t));
    var s2 := Apply(s1, BeginWrite(t));
    assert s2.gate == s.gate.(state := Blocked) && s2.threads == s.threads[t := Writing(true, Active, false)];
    var s3 := Apply(s2, Write(t, value));
    assert Apply(s3, EndWrite(t)).threads == s.threads;
  }

  /** A launched thread ends: it leaves the gate, idle if it was the last. */
  lemma EndRun(s: State, t: Tid)
    requires Inv(s) && s.gate.state == Active && t in s.threads && s.threads[t] == Launching
    ensures Legal(s, [EndThread(t), Leave(t)])
    ensures Exec(s, [EndThread(t), Leave(t)]) ==
      s.(gate := Monitor(if s.gate.tids == {t} then Idle else Active, s.gate.tids - {t}), threads := s.threads - {t}, priv := s.priv - {t})
  {
    assert t in s.gate.tids;
    hide Inv;
    var s1 := Apply(s, EndThread(t));
    assert s1.threads - {t} == s.threads - {t};
    assert s.gate.tids - {t} == {} <==> s.gate.tids == {t};
    assert Enabled(s1, Leave(t));
    hide Enabled;
    TwoSteps(s, EndThread(t), Leave(t));
  }
}
