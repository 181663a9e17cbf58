/** The hash table does what the barrier's steps ask of the thread map: in every reachable
    state each access finds its own entry and leaves the map that the step means. */
module PsxCaller {
  import opened PsxMap
  import opened PsxBarrier
  import opened PsxBarrierRuns
  import Bits
  import PsxHash

  /** A new call clears the table. Together with what the last call left behind, whichever
      thread of the process makes the new one, that is a start of the barrier. */
  method Restart(m: ThreadMap, ghost s: State, ghost steps: seq<Step>, ghost self: Tid, ghost ret: int)
    requires m.Valid() && Init(s) && Legal(s, steps) && Exec(s, steps).pc == Done
    requires self == Exec(s, steps).self || self in Exec(s, steps).live
    modifies m.table
    ensures m.Valid() && Init(NextCall(Exec(s, steps), m.Contents(), self, ret))
  {
    hide Tracked, Placed, PsxHash.Mix, Bits.Low, Bits.Pow2;
    CallCompletes(s, steps, self, ret);
    m.Clear();
  }

  /** Visiting a listed thread, when nothing comes between its sections. */
  method VisitEntry(m: ThreadMap, ghost s: State, t: Tid, sweep: int) returns (isNew: bool, grew: bool)
    requires m.Valid() && m.Contents() == s.refs && EntriesAtHand(s) && sweep == s.sweep
    requires Visits(s, t) && IsTid(t, m.width)
    modifies m, m.table
    ensures m.Valid()
    ensures var before := if grew then Apply(s, Grow) else s;
      && m.Contents() == Apply(before, Visit(t)).refs
      && (isNew <==> Apply(before, Visit(t)).pc.Signalling?)
  {
    var known;
    known, grew := FindEntry(m, s, t);
    isNew := !known;
    if grew {
      GrowEntry(m, s, t, sweep);
    }
    if isNew {
      RegisterEntry(m, if grew then Apply(s, Grow) else s, t);
    }
  }

  /** The thread that the caller is about to look up. */
  ghost predicate Visits(s: State, t: Tid) {
    s.pc.Visiting? && t in s.pc.rest && t != s.self && t != 0
  }

  /** The lookup finds out what the step does. */
  method FindEntry(m: ThreadMap, ghost s: State, t: Tid) returns (known: bool, taken: bool)
    requires m.Valid() && m.Contents() == s.refs
    requires Visits(s, t) && IsTid(t, m.width)
    ensures known <==> Apply(s, Visit(t)).pc.Counting?
    ensures !known <==> Apply(s, Visit(t)).pc.Signalling?
    ensures known ==> m.Contents() == Apply(s, Visit(t)).refs
    ensures taken <==> !known && !m.SlotFree(t)
  {
    hide Tracked, Placed, PsxHash.Mix, Bits.Low, Bits.Pow2;
    known, taken := m.Find(t);
  }

  /** The growth section. */
  method GrowEntry(m: ThreadMap, ghost s: State, t: Tid, sweep: int)
    requires m.Valid() && m.Contents() == s.refs && EntriesAtHand(s) && sweep == s.sweep
    requires Visits(s, t) && IsTid(t, m.width) && t !in s.refs && !m.SlotFree(t)
    modifies m
    ensures m.Valid() && fresh(m.table)
    ensures m.Contents() == Apply(s, Grow).refs && m.SlotFree(t)
  {
    hide Tracked, Placed, PsxHash.Mix, Bits.Low, Bits.Pow2;
    m.Grow(t, sweep);
  }

  /** The registration section, which relies on the slot that the lookup or growth saw free. */
  method RegisterEntry(m: ThreadMap, ghost s: State, t: Tid)
    requires m.Valid() && m.Contents() == s.refs
    requires Visits(s, t) && IsTid(t, m.width) && m.SlotFree(t)
    modifies m.table
    ensures m.Valid()
    ensures m.Contents() == Apply(s, Visit(t)).refs && Apply(s, Visit(t)).pc.Signalling?
  {
    hide Tracked, Placed, PsxHash.Mix, Bits.Low, Bits.Pow2;
    m.Register(t);
  }

  method CountEntry(m: ThreadMap, ghost s: State, t: Tid, sweep: int) returns (pending: bool, retval: int)
    requires m.Valid() && m.Contents() == s.refs && EntriesAtHand(s) && sweep == s.sweep
    requires s.pc.Counting? && s.pc.tid == t
    modifies m.table
    ensures m.Valid() && m.Contents() == Apply(s, Count).refs
    ensures Apply(s, Count).some == s.some + if pending then 1 else 0
    ensures Apply(s, Count).mismatch <==> s.mismatch || (!pending && retval != s.ret)
  {
    hide Tracked, Placed, PsxHash.Mix, Bits.Low, Bits.Pow2;
    pending, retval := m.Count(t, sweep);
  }

  /** A report may come between any two sections of the caller; it takes no free slot. */
  method ReportEntry(m: ThreadMap, ghost s: State, t: Tid, retval: int)
    requires m.Valid() && m.Contents() == s.refs && EntriesAtHand(s)
    requires Enabled(s, Report(t)) && s.live[t].at == Ran(retval)
    modifies m.table
    ensures m.Valid() && m.Contents() == Apply(s, Report(t)).refs
    ensures forall other :: m.SlotFree(other) <==> old(m.SlotFree(other))
  {
    hide Tracked, Placed, PsxHash.Mix, Bits.Low, Bits.Pow2;
    m.Report(t, retval);
  }
}
