/** From every reachable state of a cell, its commits can be finished and its pins brought up to date. */
module CellProgress {
  import opened Wrappers
  import opened CellSync
  import opened CellViews

  /** The steps used: nothing fails, and only a pin that has stopped is closed. */
  predicate Helps(s: State, step: Step) {
    match step
    case Store(_) => true
    case Count(_) => true
    case CopyPins(_) => true
    case TrySend(_) => true
    case Send(_) => true
    case SkipClosing(_) => true
    case AddSync(_) => true
    case LoadRev(_) => true
    case TakeSnapshot(_) => true
    case PushSnapshot(_, ok) => ok
    case PushChange(_, ok) => ok
    case Close(p) => PinInPhase(s, p, Stopped)
    case _ => false
  }

  /** No commit failed or was lost, and no pin was closed or stopped but those that had stopped. */
  ghost predicate Spared(s: State, s': State) {
    && s'.commits.Keys == s.commits.Keys
    && (forall c :: c in s.commits ==>
          && (s.commits[c].InDb() ==> s'.commits[c].InDb())
          && (s'.commits[c].phase.Failed? ==> s.commits[c].phase.Failed?))
    && (forall q :: q in s.pin ==> q in s'.pin && (s.pin[q].phase != Stopped ==>
          s'.pin[q].phase != Stopped && s'.pin[q].closing == s.pin[q].closing))
  }

  lemma StepSpares(s: State, step: Step)
    requires Enabled(s, step) && Helps(s, step)
    ensures Spared(s, Apply(s, step))
  {
    hide Upsert, Written, CellPart;
  }

  lemma SparedTwice(s: State, mid: State, end: State)
    requires Spared(s, mid) && Spared(mid, end)
    ensures Spared(s, end)
  {
  }

  /** One helpful step, then more. */
  lemma Onward(s: State, step: Step, rest: seq<Step>)
    requires Inv(s) && Enabled(s, step) && Helps(s, step)
    requires Run(Apply(s, step), rest).Some? && Spared(Apply(s, step), Run(Apply(s, step), rest).value)
    ensures Run(s, [step] + rest) == Run(Apply(s, step), rest) && Spared(s, Run(s, [step] + rest).value)
  {
    hide Enabled, Apply, Helps, Spared;
    assert ([step] + rest)[1..] == rest;
    StepSpares(s, step);
    SparedTwice(s, Apply(s, step), Run(Apply(s, step), rest).value);
  }

  lemma {:induction false} RunOn(s: State, steps: seq<Step>, mid: State, more: seq<Step>)
    requires Run(s, steps) == Some(mid)
    ensures Run(s, steps + more) == Run(mid, more)
    decreases |steps|
  {
    hide Enabled, Apply;
    if steps == [] {
      assert steps + more == more;
    } else {
      assert (steps + more)[1..] == steps[1..] + more;
      RunOn(Apply(s, steps[0]), steps[1..], mid, more);
    }
  }

  lemma SparedSelf(s: State)
    ensures Spared(s, s)
  {
  }

  // ----- a pin

  function PhaseRank(phase: PinPhase): nat {
    match phase
    case Launched => 4
    case Subscribed => 3
    case RevLoaded => 2
    case Snapped => 1
    case _ => 0
  }

  function NextOfPin(p: PinID, phase: PinPhase): Step {
    match phase
    case Launched => AddSync(p)
    case Subscribed => LoadRev(p)
    case RevLoaded => TakeSnapshot(p)
    case _ => PushSnapshot(p, true)
  }

  lemma PinGoesOn(s: State, p: PinID)
    requires p in s.pin && s.pin[p].phase != Stopped && s.pin[p].phase != Live
    ensures var step := NextOfPin(p, s.pin[p].phase);
            && Enabled(s, step) && Helps(s, step)
            && var s' := Apply(s, step);
            && p in s'.pin && s'.pin[p].phase != Stopped && PhaseRank(s'.pin[p].phase) < PhaseRank(s.pin[p].phase)
            && s'.commits == s.commits && s'.pin[p].queue == s.pin[p].queue && s'.pin[p].closing == s.pin[p].closing
  {
    hide CellPart;
  }

  /** A pin that has not stopped can go live. */
  lemma {:induction false} GoLive(s: State, p: PinID) returns (steps: seq<Step>)
    requires Inv(s) && p in s.pin && s.pin[p].phase != Stopped
    ensures Run(s, steps).Some?
    ensures var s' := Run(s, steps).value;
            && Inv(s') && Spared(s, s') && s'.commits == s.commits
            && p in s'.pin && s'.pin[p].phase == Live && s'.pin[p].queue == s.pin[p].queue && s'.pin[p].closing == s.pin[p].closing
    decreases PhaseRank(s.pin[p].phase)
  {
    hide Inv, Spared, Enabled, Apply, Helps, NextOfPin;
    if s.pin[p].phase == Live {
      steps := [];
      SparedSelf(s);
    } else {
      PinGoesOn(s, p);
      var step := NextOfPin(p, s.pin[p].phase);
      StepKeeps(s, step);
      var rest := GoLive(Apply(s, step), p);
      Onward(s, step, rest);
      steps := [step] + rest;
    }
  }

  lemma Pushed(s: State, p: PinID)
    requires PinInPhase(s, p, Live) && s.pin[p].queue != []
    ensures var step := PushChange(p, true);
            && Enabled(s, step) && Helps(s, step)
            && var s' := Apply(s, step);
            && PinInPhase(s', p, Live) && s'.pin[p].queue == s.pin[p].queue[1..] && s'.pin[p].closing == s.pin[p].closing
            && s'.commits == s.commits
  {
  }

  /** A pin that a commit waits for can be made to take its transaction, or to be passed over. */
  lemma MakeRoom(s: State, p: PinID) returns (steps: seq<Step>)
    requires Inv(s) && p in s.pin
    ensures Run(s, steps).Some?
    ensures var s' := Run(s, steps).value;
            Inv(s') && Spared(s, s') && s'.commits == s.commits && p in s'.pin && (s'.pin[p].closing || |s'.pin[p].queue| < QUEUE_CAP)
  {
    hide Inv, Spared, Enabled, Apply, Helps, Run;
    InvOfPin(s, p);
    SparedSelf(s);
    RunNothing(s);
    if s.pin[p].closing || |s.pin[p].queue| < QUEUE_CAP {
      steps := [];
    } else if s.pin[p].phase == Stopped {
      Closed(s, p);
      steps := One(s, Close(p));
    } else {
      var first := GoLive(s, p);
      var s1 := Run(s, first).value;
      Pushed(s1, p);
      var last := One(s1, PushChange(p, true));
      RunOn(s, first, s1, last);
      SparedTwice(s, s1, Run(s1, last).value);
      steps := first + last;
      assert |s1.pin[p].queue| == |s.pin[p].queue| <= QUEUE_CAP;
    }
  }

  lemma Closed(s: State, p: PinID)
    requires PinInPhase(s, p, Stopped)
    ensures Enabled(s, Close(p)) && Helps(s, Close(p))
    ensures p in Apply(s, Close(p)).pin && Apply(s, Close(p)).pin[p].closing && Apply(s, Close(p)).commits == s.commits
  {
  }

  lemma One(s: State, step: Step) returns (steps: seq<Step>)
    requires Inv(s) && Enabled(s, step) && Helps(s, step)
    ensures Run(s, steps) == Some(Apply(s, step)) && Inv(Apply(s, step)) && Spared(s, Apply(s, step))
  {
    hide Inv, Spared, Enabled, Apply, Helps;
    StepKeeps(s, step);
    SparedSelf(Apply(s, step));
    Onward(s, step, []);
    RunNothing(Apply(s, step));
    steps := [step] + [];
  }

  // ----- a commit

  function CommitRank(phase: CommitPhase): nat {
    match phase
    case Running => 3
    case Stored => 2
    case Counted => 1
    case _ => 0
  }

  function PushRank(phase: CommitPhase): nat {
    if phase.Pushing? then 2 * |phase.todo| + |phase.held| else 0
  }

  /** A commit has less to do, and the others are as they were. */
  ghost predicate Nearer(s: State, s': State, c: CommitID) {
    && c in s.commits && c in s'.commits && s'.commits == s.commits[c := s'.commits[c]]
    && var (was, now) := (s.commits[c].phase, s'.commits[c].phase);
    && !now.Failed? && s'.commits[c].tx == s.commits[c].tx
    && (CommitRank(now) < CommitRank(was) || (CommitRank(now) == CommitRank(was) && PushRank(now) < PushRank(was)))
  }

  lemma CommitGoesOn(s: State, c: CommitID) returns (step: Step)
    requires Inv(s) && c in s.commits && !s.commits[c].Done()
    requires var phase := s.commits[c].phase;
             phase.Pushing? && phase.todo == [] ==>
               phase.held[0] in s.pin && (s.pin[phase.held[0]].closing || |s.pin[phase.held[0]].queue| < QUEUE_CAP)
    ensures Enabled(s, step) && Helps(s, step) && Nearer(s, Apply(s, step), c)
  {
    hide Apply, Nearer, PinOk, PairOk;
    assert CommitOk(s, c, s.commits[c]);
    match s.commits[c].phase {
      case Running => step := Store(c);
      case Stored => step := Count(c);
      case Counted => step := CopyPins(c);
      case Pushing(todo, held) =>
        if todo != [] {
          assert todo[0] in todo + held;
          step := TrySend(c);
        } else {
          step := if s.pin[held[0]].closing then SkipClosing(c) else Send(c);
        }
    }
    StepNearer(s, step);
  }

  lemma StepNearer(s: State, step: Step)
    requires Enabled(s, step)
    requires step.Store? || step.Count? || step.CopyPins? || step.TrySend? || step.Send? || step.SkipClosing?
    ensures Nearer(s, Apply(s, step), step.c)
  {
    hide Upsert, Written;
  }

  lemma HeldIsKnown(s: State, c: CommitID)
    requires Inv(s) && c in s.commits && s.commits[c].phase.Pushing? && s.commits[c].phase.held != []
    ensures s.commits[c].phase.held[0] in s.pin
  {
    hide PinOk, PairOk;
    assert CommitOk(s, c, s.commits[c]);
    assert s.commits[c].phase.held[0] in s.commits[c].phase.todo + s.commits[c].phase.held;
  }

  lemma {:induction false} Finish(s: State, c: CommitID) returns (steps: seq<Step>)
    requires Inv(s) && c in s.commits
    ensures Run(s, steps).Some?
    ensures var s' := Run(s, steps).value;
            && Inv(s') && Spared(s, s') && c in s'.commits && s'.commits[c].Done()
            && forall d :: d in s.commits && d != c ==> d in s'.commits && s'.commits[d] == s.commits[d]
    decreases CommitRank(s.commits[c].phase), PushRank(s.commits[c].phase)
  {
    hide Inv, Spared, Enabled, Apply, Helps, Run, Commit.Done;
    RunNothing(s);
    SparedSelf(s);
    if s.commits[c].Done() {
      steps := [];
    } else {
      var s1, first := s, [];
      var phase := s.commits[c].phase;
      NotDone(s.commits[c]);
      if phase.Pushing? && phase.todo == [] {
        HeldIsKnown(s, c);
        first := MakeRoom(s, phase.held[0]);
        s1 := Run(s, first).value;
      }
      var step := CommitGoesOn(s1, c);
      var next := One(s1, step);
      var s2 := Apply(s1, step);
      var rest := Finish(s2, c);
      var s' := Run(s2, rest).value;
      RunOn(s1, next, s2, rest);
      RunOn(s, first, s1, next + rest);
      SparedTwice(s1, s2, s');
      SparedTwice(s, s1, s');
      steps := first + (next + rest);
    }
  }

  lemma NotDone(commit: Commit)
    requires !commit.Done()
    ensures commit.phase.Pushing? && commit.phase.todo == [] ==> commit.phase.held != []
  {
  }

  ghost function Unfinished(s: State): set<CommitID> { set c | c in s.commits && !s.commits[c].Done() }

  lemma {:induction false} FinishAll(s: State) returns (steps: seq<Step>)
    requires Inv(s)
    ensures Run(s, steps).Some?
    ensures var s' := Run(s, steps).value;
            Inv(s') && Spared(s, s') && forall c :: c in s'.commits ==> s'.commits[c].Done()
    decreases Unfinished(s)
  {
    hide Inv, Run, Commit.Done;
    if c :| c in s.commits && !s.commits[c].Done() {
      var first := Finish(s, c);
      var s1 := Run(s, first).value;
      assert c in Unfinished(s) && c !in Unfinished(s1) && Unfinished(s1) <= Unfinished(s);
      var rest := FinishAll(s1);
      RunOn(s, first, s1, rest);
      SparedTwice(s, s1, Run(s1, rest).value);
      steps := first + rest;
    } else {
      steps := [];
      RunNothing(s);
    }
  }

  lemma {:induction false} Drain(s: State, p: PinID) returns (steps: seq<Step>)
    requires Inv(s) && PinInPhase(s, p, Live)
    ensures Run(s, steps).Some?
    ensures var s' := Run(s, steps).value;
            && Spared(s, s') && s'.commits == s.commits && PinInPhase(s', p, Live)
            && s'.pin[p].queue == [] && s'.pin[p].closing == s.pin[p].closing
    decreases |s.pin[p].queue|
  {
    hide Inv, Spared, Enabled, Apply, Helps;
    if s.pin[p].queue == [] {
      steps := [];
      SparedSelf(s);
    } else {
      var step := PushChange(p, true);
      Pushed(s, p);
      StepKeeps(s, step);
      var rest := Drain(Apply(s, step), p);
      Onward(s, step, rest);
      steps := [step] + rest;
    }
  }

  /** Whatever happened: the commits under way can all be finished without a failure, and a pin that has neither stopped nor
      begun to close can be brought to where it has pushed all it received. Full queues block nothing for good, as long as
      pins that have stopped begin to close. */
  lemma CanBeQuiet(cell: nat, db: Elements, before: seq<Step>, p: PinID) returns (after: seq<Step>)
    requires Run(Init(cell, db), before).Some?
    requires var s := Run(Init(cell, db), before).value; p in s.pin && s.pin[p].phase != Stopped && !s.pin[p].closing
    ensures var s := Run(Init(cell, db), before).value;
            Run(s, after).Some? && Spared(s, Run(s, after).value) && Quiet(Run(s, after).value, p)
  {
    hide Inv, Run, Spared, Commit.Done;
    InitOk(cell, db);
    RunKeeps(Init(cell, db), before);
    var s := Run(Init(cell, db), before).value;
    var finish := FinishAll(s);
    var s1 := Run(s, finish).value;
    StillOpen(s, s1, p);
    var live := GoLive(s1, p);
    var s2 := Run(s1, live).value;
    var drain := Drain(s2, p);
    RunOn(s1, live, s2, drain);
    RunOn(s, finish, s1, live + drain);
    SparedTwice(s, s1, s2);
    SparedTwice(s, s2, Run(s2, drain).value);
    after := finish + (live + drain);
  }

  lemma StillOpen(s: State, s': State, p: PinID)
    requires Spared(s, s') && p in s.pin && s.pin[p].phase != Stopped
    ensures p in s'.pin && s'.pin[p].phase != Stopped && s'.pin[p].closing == s.pin[p].closing
  {
  }
}
