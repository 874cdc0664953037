/** Building schedules of a session step by step, and the schedule of one closeOp. */
module SessionRuns {
  import opened Wrappers
  import opened Session

  /** The step is possible and leads to that state. */
  predicate Leads(s: State, step: Step, s': State) { Enabled(s, step) && Apply(s, step) == s' }

  /** A closeOp from beginning to end. */
  function CloseSteps(k: CloserID): seq<Step> { [Detach(k), Swap(k), CloseCancel(k), ReleaseRef(k)] }

  /** What it leaves of a state in which its op is stored and has no transaction. */
  function ClosedBy(s: State, k: CloserID, o: OpRef): State
    requires o in s.ops
  {
    s.SetOp(o, s.ops[o].(closed := true, cancels := s.ops[o].cancels + 1, holder := None, released := true))
     .SetCloser(k, Done).(open := s.open - {s.ops[o].reqID})
  }

  /** Half way: its op is taken out of the table, and closed, by this closeOp. */
  function HalfClosed(s: State, k: CloserID, o: OpRef): State
    requires o in s.ops
  {
    s.SetOp(o, s.ops[o].(closed := true, holder := Some(k))).SetCloser(k, Won(o)).(open := s.open - {s.ops[o].reqID})
  }

  lemma FirstHalf(s: State, k: CloserID, o: OpRef, s1: State)
    requires k in s.closers && s.closers[k].Detaching? && !s.inbox.Waiting? && o in s.ops && s.closers[k].reqID == s.ops[o].reqID
    requires s.ops[o].reqID != NIL && s.ops[o].reqID in s.open && s.open[s.ops[o].reqID] == o && !s.ops[o].closed
    requires s1 == s.SetOp(o, s.ops[o].(holder := Some(k))).SetCloser(k, Detached(o)).(open := s.open - {s.ops[o].reqID})
    ensures Leads(s, Detach(k), s1) && Leads(s1, Swap(k), HalfClosed(s, k, o))
  {
    SetTwice(s.ops, o, s1.ops[o], HalfClosed(s, k, o).ops[o]);
    SetTwice(s.closers, k, s1.closers[k], Won(o));
  }

  lemma CancelLeads(s: State, k: CloserID, o: OpRef, s1: State)
    requires o in s.ops
    requires s1 == s.SetOp(o, s.ops[o].(closed := true, holder := Some(k), cancels := s.ops[o].cancels + 1))
                    .SetCloser(k, CancelClosed(o)).(open := s.open - {s.ops[o].reqID})
    ensures Leads(HalfClosed(s, k, o), CloseCancel(k), s1)
  {
    SetTwice(s.ops, o, HalfClosed(s, k, o).ops[o], s1.ops[o]);
    SetTwice(s.closers, k, Won(o), s1.closers[k]);
  }

  lemma ReleaseLeads(s: State, k: CloserID, o: OpRef, s1: State)
    requires o in s.ops && s.ops[o].tx.None?
    requires s1 == s.SetOp(o, s.ops[o].(closed := true, holder := Some(k), cancels := s.ops[o].cancels + 1))
                    .SetCloser(k, CancelClosed(o)).(open := s.open - {s.ops[o].reqID})
    ensures Leads(s1, ReleaseRef(k), ClosedBy(s, k, o))
  {
    SetTwice(s.ops, o, s1.ops[o], ClosedBy(s, k, o).ops[o]);
    SetTwice(s.closers, k, s1.closers[k], Done);
  }

  lemma CloseRuns(s: State, k: CloserID, o: OpRef)
    requires k in s.closers && s.closers[k].Detaching? && !s.inbox.Waiting? && o in s.ops && s.closers[k].reqID == s.ops[o].reqID
    requires s.ops[o].reqID != NIL && s.ops[o].reqID in s.open && s.open[s.ops[o].reqID] == o && !s.ops[o].closed
    requires s.ops[o].tx.None?
    ensures Run(s, CloseSteps(k)) == Some(ClosedBy(s, k, o))
  {
    hide Run, Leads, HalfClosed, ClosedBy;
    var s1 := s.SetOp(o, s.ops[o].(holder := Some(k))).SetCloser(k, Detached(o)).(open := s.open - {s.ops[o].reqID});
    var s3 := s.SetOp(o, s.ops[o].(closed := true, holder := Some(k), cancels := s.ops[o].cancels + 1))
               .SetCloser(k, CancelClosed(o)).(open := s.open - {s.ops[o].reqID});
    FirstHalf(s, k, o, s1);
    CancelLeads(s, k, o, s3);
    ReleaseLeads(s, k, o, s3);
    RunNothing(s);
    RunThen(s, [], s, Detach(k), s1);
    RunThen(s, [] + [Detach(k)], s1, Swap(k), HalfClosed(s, k, o));
    RunThen(s, [] + [Detach(k)] + [Swap(k)], HalfClosed(s, k, o), CloseCancel(k), s3);
    RunThen(s, [] + [Detach(k)] + [Swap(k)] + [CloseCancel(k)], s3, ReleaseRef(k), ClosedBy(s, k, o));
    assert CloseSteps(k) == [] + [Detach(k)] + [Swap(k)] + [CloseCancel(k)] + [ReleaseRef(k)];
  }

  lemma SetTwice<K, V>(m: map<K, V>, k: K, v: V, v': V)
    ensures m[k := v][k := v'] == m[k := v']
  {
  }

  lemma RunNothing(s: State)
    ensures Run(s, []) == Some(s)
  {
  }

  lemma {:induction false} RunOn(s: State, steps: seq<Step>, mid: State, more: seq<Step>)
    requires Run(s, steps) == Some(mid)
    ensures Run(s, steps + more) == Run(mid, more)
    decreases |steps|
  {
    hide Enabled, Apply;
    if steps == [] {
      assert steps + more == more;
    } else {
      assert (steps + more)[1..] == steps[1..] + more;
      RunOn(Apply(s, steps[0]), steps[1..], mid, more);
    }
  }

  lemma RunThen(s: State, steps: seq<Step>, mid: State, step: Step, end: State)
    requires Run(s, steps) == Some(mid) && Leads(mid, step, end)
    ensures Run(s, steps + [step]) == Some(end)
  {
    hide Enabled, Apply;
    RunOn(s, steps, mid, [step]);
    assert [step][1..] == [];
    RunNothing(end);
  }
}
