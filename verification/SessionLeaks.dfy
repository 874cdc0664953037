/** Which messages can leave a reference to their transaction behind, and that all others never do. */
module SessionLeaks {
  import opened Wrappers
  import opened Session
  import opened SessionRuns

  /** A continuation in which everything comes to rest, and a reference to the transaction is left. */
  ghost predicate Leaks(s: State, steps: seq<Step>, tx: TxID) {
    && Run(s, steps).Some?
    && var end := Run(s, steps).value;
    && AtRest(end) && tx in end.refs && end.refs[tx] != 0
  }

  /** An earlier request with this ID was handed to its app. */
  ghost predicate Used(s: State, id: ReqID) { exists p :: p in s.ops && s.ops[p].submitted && s.ops[p].reqID == id }

  /** What a client can see of a message before sending it: it is to be committed, it has no parent or another request that
      is open, and its ID is nil or that of an earlier request that was handed to its app. */
  ghost predicate CanLeak(s: State, msg: Msg) {
    && msg.CommitMsg?
    && (msg.parent == NIL || ParentUp(s, msg))
    && (msg.id == NIL || Used(s, msg.id))
  }

  predicate ParentUp(s: State, msg: Msg)
    requires msg.CommitMsg?
  {
    msg.parent != msg.id && IsUp(s, msg.parent)
  }

  // ----- every session can come to rest

  /** The work left to a closeOp. */
  function Rank(c: Closer): nat {
    match c
    case Detaching(_, _) => 4
    case Detached(_) => 3
    case Won(_) => 2
    case CancelClosed(_) => 1
    case Done => 0
  }

  function NextOf(k: CloserID, c: Closer): Step {
    match c
    case Detaching(_, _) => Detach(k)
    case Detached(_) => Swap(k)
    case Won(_) => CloseCancel(k)
    case _ => ReleaseRef(k)
  }

  lemma CloserGoesOn(s: State, k: CloserID)
    requires Inv(s) && k in s.closers && !s.closers[k].Done? && !s.inbox.Waiting?
    ensures Enabled(s, NextOf(k, s.closers[k]))
  {
    hide TxsOk, InboxOk;
    assert CloserOk(s, k, s.closers[k]);
    if s.closers[k].CancelClosed? {
      var o := s.closers[k].op;
      assert OpOk(s, o, s.ops[o]);
      AttachedIsKnown(s);
    } else if s.closers[k].Detaching? && s.closers[k].reqID in s.open {
      IsRegistered(s, s.closers[k].reqID);
    }
  }

  /** One closeOp got on with its work; nothing happened to the others or to the loop. */
  ghost predicate GetsOn(s: State, s': State, k: CloserID) {
    && s'.inbox == s.inbox && k in s.closers && k in s'.closers
    && s'.closers == s.closers[k := s'.closers[k]] && Rank(s'.closers[k]) < Rank(s.closers[k])
  }

  lemma CloserGetsOn(s: State, k: CloserID)
    requires k in s.closers && !s.closers[k].Done? && Enabled(s, NextOf(k, s.closers[k]))
    ensures GetsOn(s, Apply(s, NextOf(k, s.closers[k])), k)
  {
    hide GetsOn, TakenOut, Swapped, Released;
    match s.closers[k]
    case Detaching(_, _) => TakenOutGetsOn(s, k);
    case Detached(_) => SwappedGetsOn(s, k);
    case Won(_) => CancelGetsOn(s, k);
    case _ => ReleasedGetsOn(s, k);
  }

  lemma TakenOutGetsOn(s: State, k: CloserID)
    requires Enabled(s, Detach(k))
    ensures GetsOn(s, TakenOut(s, k), k)
  {
  }

  lemma SwappedGetsOn(s: State, k: CloserID)
    requires Enabled(s, Swap(k))
    ensures GetsOn(s, Swapped(s, k), k)
  {
  }

  lemma CancelGetsOn(s: State, k: CloserID)
    requires Enabled(s, CloseCancel(k))
    ensures GetsOn(s, Apply(s, CloseCancel(k)), k)
  {
  }

  lemma ReleasedGetsOn(s: State, k: CloserID)
    requires Enabled(s, ReleaseRef(k))
    ensures GetsOn(s, Released(s, k), k)
  {
  }

  lemma AttachedIsKnown(s: State)
    requires Inv(s)
    ensures forall tx :: tx in s.attached ==> tx in s.refs
  {
    hide OpsOk, ClosersOk, TableOk, InboxOk;
  }

  /** A closeOp can always run to its end. */
  lemma {:induction false} FinishOne(s: State, k: CloserID) returns (steps: seq<Step>)
    requires Inv(s) && k in s.closers && !s.inbox.Waiting?
    ensures Run(s, steps).Some?
    ensures var s' := Run(s, steps).value;
            && Inv(s') && s'.inbox == s.inbox && s'.closers.Keys == s.closers.Keys && s'.closers[k].Done?
            && forall j :: j in s.closers && j != k ==> s'.closers[j] == s.closers[j]
    decreases Rank(s.closers[k])
  {
    hide Inv, Enabled, Apply, NextOf;
    if s.closers[k].Done? {
      steps := [];
    } else {
      var step := NextOf(k, s.closers[k]);
      CloserGoesOn(s, k);
      CloserGetsOn(s, k);
      StepKeeps(s, step);
      var rest := FinishOne(Apply(s, step), k);
      steps := [step] + rest;
      assert steps[1..] == rest;
    }
  }

  ghost function NotDone(s: State): set<CloserID> { set k | k in s.closers && !s.closers[k].Done? }

  lemma {:induction false} FinishAll(s: State) returns (steps: seq<Step>)
    requires Inv(s) && !s.inbox.Waiting?
    ensures Run(s, steps).Some?
    ensures var s' := Run(s, steps).value;
            Inv(s') && s'.inbox == s.inbox && forall k :: k in s'.closers ==> s'.closers[k].Done?
    decreases NotDone(s)
  {
    hide Inv, Run;
    if k :| k in s.closers && !s.closers[k].Done? {
      var first := FinishOne(s, k);
      var s1 := Run(s, first).value;
      assert k in NotDone(s) && k !in NotDone(s1) && NotDone(s1) <= NotDone(s);
      var rest := FinishAll(s1);
      RunOn(s, first, s1, rest);
      steps := first + rest;
    } else {
      steps := [];
      RunNothing(s);
    }
  }

  lemma {:induction false} Unused(used: set<nat>) returns (k: nat)
    ensures forall j :: j in used ==> j < k
    decreases |used|
  {
    if used == {} {
      k := 0;
    } else {
      var j :| j in used;
      var k' := Unused(used - {j});
      k := if j < k' then k' else j + 1;
      forall i | i in used ensures i < k {
        assert i == j || i in used - {j};
      }
    }
  }

  lemma {:induction false} InSomeOrder(ids: set<nat>) returns (list: seq<nat>)
    ensures forall r :: r in list <==> r in ids
    decreases |ids|
  {
    if ids == {} {
      list := [];
    } else {
      var r :| r in ids;
      var rest := InSomeOrder(ids - {r});
      list := [r] + rest;
    }
  }

  /** The work left to the loop, once it is past the registration of a request. */
  function LoopRank(inbox: Inbox): nat {
    match inbox
    case Ready(_, _, _) => 3
    case Releasing(_) => 2
    case Closing(_, _) => 2
    case Idle => 1
    case _ => 0
  }

  function TodoRank(inbox: Inbox): nat {
    match inbox
    case Stopping(todo) => 2 * |todo| + 1
    case StoppingOne(todo, _) => 2 * |todo| + 2
    case _ => 0
  }

  predicate IsPast(inbox: Inbox) { !inbox.Got? && !inbox.Waiting? && !inbox.Added? }

  /** The loop's next step on the way to its end, after the closeOp that it waits for. */
  lemma LoopGoesOn(s: State) returns (steps: seq<Step>)
    requires Inv(s) && IsPast(s.inbox) && !s.inbox.Stopped?
    ensures Run(s, steps).Some?
    ensures var s' := Run(s, steps).value;
            Inv(s') && Nearer(s'.inbox, s.inbox)
  {
    hide Inv, Run;
    var s0 := s;
    steps := [];
    RunNothing(s);
    if s.inbox.Closing? || s.inbox.StoppingOne? {
      OwnIsKnown(s);
      steps := FinishOne(s, s.inbox.own);
      s0 := Run(s, steps).value;
    }
    var step := LoopStep(s0);
    StepKeeps(s0, step);
    RunOn(s, steps, s0, [step]);
    RunOne(s0, step);
    steps := steps + [step];
  }

  lemma RunOne(s: State, step: Step)
    requires Enabled(s, step)
    ensures Run(s, [step]) == Some(Apply(s, step))
  {
    hide Enabled, Apply;
    assert [step][1..] == [];
  }

  lemma OwnIsKnown(s: State)
    requires Inv(s) && (s.inbox.Closing? || s.inbox.StoppingOne?)
    ensures s.inbox.own in s.closers
  {
    hide OpsOk, ClosersOk, TableOk, TxsOk;
  }

  /** Less work is left to the loop. */
  predicate Nearer(next: Inbox, inbox: Inbox) {
    IsPast(next) && (LoopRank(next) < LoopRank(inbox) || (LoopRank(next) == LoopRank(inbox) && TodoRank(next) < TodoRank(inbox)))
  }

  lemma LoopStep(s: State) returns (step: Step)
    requires Inv(s) && IsPast(s.inbox) && !s.inbox.Stopped?
    requires s.inbox.Closing? || s.inbox.StoppingOne? ==> IsDone(s, s.inbox.own)
    ensures Enabled(s, step) && Nearer(Apply(s, step).inbox, s.inbox)
  {
    hide Inv, Nearer, Apply;
    if LoopRank(s.inbox) > 1 {
      step := RequestStep(s);
    } else {
      step := ShutdownStep(s);
    }
  }

  lemma RequestStep(s: State) returns (step: Step)
    requires Inv(s) && (s.inbox.Ready? || s.inbox.Releasing? || (s.inbox.Closing? && IsDone(s, s.inbox.own)))
    ensures Enabled(s, step) && Nearer(Apply(s, step).inbox, s.inbox)
  {
    hide OpsOk, ClosersOk, TableOk, TxsOk;
    step := if s.inbox.Ready? then Submit else ReleaseTx;
  }

  lemma ShutdownStep(s: State) returns (step: Step)
    requires s.inbox.Idle? || s.inbox.Stopping? || (s.inbox.StoppingOne? && IsDone(s, s.inbox.own))
    ensures Enabled(s, step) && Nearer(Apply(s, step).inbox, s.inbox)
  {
    match s.inbox
    case Idle =>
      var todo := InSomeOrder(s.open.Keys);
      step := Shutdown(todo);
    case Stopping(todo) =>
      if todo == [] {
        step := Stop;
      } else {
        var k := Unused(s.closers.Keys);
        step := StopNext(k);
      }
    case _ => step := StopDone;
  }

  /** Once the loop is past the registration of a request, the session can be brought to rest. */
  lemma {:induction false} CanRest(s: State) returns (steps: seq<Step>)
    requires Inv(s) && IsPast(s.inbox)
    ensures Run(s, steps).Some? && Inv(Run(s, steps).value) && AtRest(Run(s, steps).value)
    decreases LoopRank(s.inbox), TodoRank(s.inbox)
  {
    hide Inv, Run;
    if s.inbox.Stopped? {
      steps := FinishAll(s);
    } else {
      var first := LoopGoesOn(s);
      var s1 := Run(s, first).value;
      var rest := CanRest(s1);
      RunOn(s, first, s1, rest);
      steps := first + rest;
    }
  }

  // ----- a message that can leave a reference does so in some continuation

  /** Held for good: whoever closes ops, this one keeps its transaction. */
  ghost predicate HeldForGood(s: State, o: OpRef, tx: TxID) {
    o in s.ops && s.ops[o].tx == Some(tx) && (s.ops[o].late || s.ops[o].reqID == NIL)
  }

  lemma HeldToTheEnd(s: State, o: OpRef, tx: TxID, steps: seq<Step>)
    requires Inv(s) && HeldForGood(s, o, tx) && Run(s, steps).Some?
    ensures var end := Run(s, steps).value; tx in end.refs && end.refs[tx] >= 1
  {
    hide Inv, Run;
    NeverStoredAgain(s, steps, o);
    RunKeeps(s, steps);
    HeldIsCounted(Run(s, steps).value, o, tx);
  }

  lemma HeldIsCounted(s: State, o: OpRef, tx: TxID)
    requires Inv(s) && o in s.ops && s.ops[o].tx == Some(tx)
    ensures tx in s.refs && s.refs[tx] >= 1
  {
    assert OpOk(s, o, s.ops[o]);
    AttachedIsKnown(s);
    assert TxOk(s, tx, s.refs[tx]);
  }

  /** Frees the ID: a completion of the earlier request takes out whichever op is stored under it. */
  lemma FreeID(s: State, id: ReqID, p: OpRef) returns (steps: seq<Step>)
    requires Inv(s) && s.inbox.Got? && p in s.ops && s.ops[p].submitted && s.ops[p].reqID == id != NIL
    ensures Run(s, steps).Some?
    ensures var s' := Run(s, steps).value;
            && Inv(s') && s'.inbox == s.inbox && s'.open == s.open - {id}
            && forall q :: q in s.ops ==> q in s'.ops && s'.ops[q].reqID == s.ops[q].reqID && s'.ops[q].submitted == s.ops[q].submitted
  {
    hide Inv, Run;
    if id in s.open {
      IsRegistered(s, id);
      var k := Unused(s.closers.Keys);
      var s1 := Apply(s, Complete(k, p));
      StepKeeps(s, Complete(k, p));
      IsRegistered(s1, id);
      StepKeeps(s1, Detach(k));
      RunOne(s, Complete(k, p));
      RunOne(s1, Detach(k));
      RunOn(s, [Complete(k, p)], s1, [Detach(k)]);
      steps := [Complete(k, p)] + [Detach(k)];
    } else {
      steps := [];
      RunNothing(s);
    }
  }

  /** Registers the request, and goes on to where its transaction is to be attached. */
  lemma RegisterFree(s: State) returns (steps: seq<Step>, o: OpRef)
    requires Inv(s) && s.inbox.Got? && s.inbox.msg.CommitMsg? && s.inbox.msg.id !in s.open
    requires s.inbox.msg.parent == NIL || ParentUp(s, s.inbox.msg)
    ensures Run(s, steps).Some? && o !in s.ops
    ensures var s' := Run(s, steps).value;
            && Inv(s') && s'.inbox == Added(s.inbox.tx, s.inbox.msg, o) && o in s'.ops && s'.ops[o].reqID == s.inbox.msg.id
            && (s.inbox.msg.id != NIL ==> s'.Stored(o))
            && forall q :: q in s.ops ==> q in s'.ops && s'.ops[q] == s.ops[q]
  {
    hide Inv, Run;
    o := Unused(s.ops.Keys);
    var s1 := Apply(s, Register(o));
    StepKeeps(s, Register(o));
    RunOne(s, Register(o));
    steps := [Register(o)];
    if s.inbox.msg.parent != NIL {
      StepKeeps(s1, ParentReady);
      RunOne(s1, ParentReady);
      RunOn(s, steps, s1, [ParentReady]);
      steps := steps + [ParentReady];
    }
  }

  /** Steps of closeOps touch neither the loop nor a request's ID or submission, and attach nothing. */
  predicate OfCloser(step: Step) { step.Complete? || step.Detach? || step.Swap? || step.CloseCancel? || step.ReleaseRef? }

  predicate OnlyClosers(steps: seq<Step>) { forall i :: 0 <= i < |steps| ==> OfCloser(steps[i]) }

  /** A stray completion closes the new op before its transaction is attached. */
  lemma CloseEarly(s: State, o: OpRef, p: OpRef) returns (steps: seq<Step>)
    requires Inv(s) && s.inbox.Added? && s.inbox.op == o && s.Stored(o)
    requires p in s.ops && p != o && s.ops[p].submitted && s.ops[p].reqID == s.ops[o].reqID
    ensures Run(s, steps).Some?
    ensures var s' := Run(s, steps).value; Inv(s') && s'.inbox == s.inbox && o in s'.ops && s'.ops[o].released && !s'.Stored(o)
    ensures OnlyClosers(steps)
  {
    hide Inv, Run, ClosedBy;
    var k := Unused(s.closers.Keys);
    var s1 := Apply(s, Complete(k, p));
    StepKeeps(s, Complete(k, p));
    RunOne(s, Complete(k, p));
    NewOpIsOpen(s1);
    CloseRuns(s1, k, o);
    RunOn(s, [Complete(k, p)], s1, CloseSteps(k));
    steps := [Complete(k, p)] + CloseSteps(k);
    RunKeeps(s, steps);
    ClosedIsReleased(s1, k, o);
    ReleasedIsOut(ClosedBy(s1, k, o), o);
  }

  lemma ReleasedIsOut(s: State, o: OpRef)
    requires Inv(s) && o in s.ops && s.ops[o].released
    ensures !s.Stored(o)
  {
    assert OpOk(s, o, s.ops[o]);
  }

  lemma ClosedIsReleased(s: State, k: CloserID, o: OpRef)
    requires o in s.ops
    ensures ClosedBy(s, k, o).inbox == s.inbox && o in ClosedBy(s, k, o).ops && ClosedBy(s, k, o).ops[o].released
  {
  }

  lemma NewOpIsOpen(s: State)
    requires Inv(s) && s.inbox.Added? && s.Stored(s.inbox.op)
    ensures var op := s.ops[s.inbox.op]; op.reqID != NIL && !op.closed && op.tx.None? && !op.submitted
  {
    hide ClosersOk, TxsOk;
    assert OpOk(s, s.inbox.op, s.ops[s.inbox.op]);
    IsRegistered(s, s.ops[s.inbox.op].reqID);
  }

  lemma AttachHolds(s: State)
    requires Inv(s) && s.inbox.Added? && s.inbox.msg.CommitMsg? && s.inbox.op in s.ops
    requires s.ops[s.inbox.op].reqID == NIL || s.ops[s.inbox.op].released
    ensures Enabled(s, Attach) && HeldForGood(Apply(s, Attach), s.inbox.op, s.inbox.tx) && IsPast(Apply(s, Attach).inbox)
  {
    hide OpsOk, ClosersOk, TableOk, TxsOk;
  }

  lemma LeakRun(s: State, tx: TxID, msg: Msg) returns (steps: seq<Step>)
    requires Inv(s) && s.inbox == Got(tx, msg) && CanLeak(s, msg)
    ensures Leaks(s, steps, tx)
  {
    hide Inv, Run, IsPast;
    var free := [];
    RunNothing(s);
    if msg.id != NIL {
      var p :| p in s.ops && s.ops[p].submitted && s.ops[p].reqID == msg.id;
      free := FreeID(s, msg.id, p);
    } else {
      NilIsNotOpen(s);
    }
    var s1 := Run(s, free).value;
    var reg, o := RegisterFree(s1);
    var s2 := Run(s1, reg).value;
    RunOn(s, free, s1, reg);
    var early := [];
    RunNothing(s2);
    if msg.id != NIL {
      var p :| p in s1.ops && s1.ops[p].submitted && s1.ops[p].reqID == msg.id;
      early := CloseEarly(s2, o, p);
    }
    var s3 := Run(s2, early).value;
    RunOn(s, free + reg, s2, early);
    AttachHolds(s3);
    var s4 := Apply(s3, Attach);
    StepKeeps(s3, Attach);
    RunOne(s3, Attach);
    RunOn(s, free + reg + early, s3, [Attach]);
    var rest := CanRest(s4);
    RunOn(s, free + reg + early + [Attach], s4, rest);
    HeldToTheEnd(s4, o, tx, rest);
    steps := free + reg + early + [Attach] + rest;
  }

  lemma NilIsNotOpen(s: State)
    requires Inv(s)
    ensures NIL !in s.open
  {
    if NIL in s.open { IsRegistered(s, NIL); }
  }

  // ----- any other message never does

  /** The transaction is not attached, and will not be: the message is not one to commit, or its parent will not do. */
  ghost predicate Unattached(s: State, tx: TxID, msg: Msg) {
    && tx in s.refs && tx !in s.attached
    && ((s.inbox.Got? || s.inbox.HasNewOp()) && s.inbox.tx == tx ==>
          && s.inbox.msg == msg
          && (!msg.CommitMsg?
              || (s.inbox.Got? && msg.parent != NIL && !ParentUp(s, msg))
              || (s.inbox.Waiting? && !IsUp(s, msg.parent))))
  }

  /** The transaction is attached in time: until then its op is in the table, and nobody else has had the ID. */
  ghost predicate Timely(s: State, tx: TxID, msg: Msg) {
    && tx in s.refs
    && (tx in s.attached ==> s.attached[tx] in s.ops && s.ops[s.attached[tx]].reqID != NIL && !s.ops[s.attached[tx]].late)
    && ((s.inbox.Got? || s.inbox.Waiting? || s.inbox.Added?) && s.inbox.tx == tx ==>
          && s.inbox.msg == msg && msg.id != NIL && !Used(s, msg.id)
          && (s.inbox.Waiting? || s.inbox.Added? ==> s.Stored(s.inbox.op)))
  }

  lemma UnattachedStep(s: State, step: Step, tx: TxID, msg: Msg)
    requires Inv(s) && Unattached(s, tx, msg) && Enabled(s, step)
    ensures Unattached(Apply(s, step), tx, msg)
  {
    hide Inv, Unattached;
    if OfCloser(step) { UnattachedCloser(s, step, tx, msg); } else { UnattachedLoop(s, step, tx, msg); }
  }

  lemma UnattachedCloser(s: State, step: Step, tx: TxID, msg: Msg)
    requires Inv(s) && Unattached(s, tx, msg) && Enabled(s, step) && OfCloser(step)
    ensures Unattached(Apply(s, step), tx, msg)
  {
    hide OpsOk, ClosersOk, TableOk, TxsOk;
  }

  lemma UnattachedLoop(s: State, step: Step, tx: TxID, msg: Msg)
    requires Unattached(s, tx, msg) && Enabled(s, step) && !OfCloser(step)
    ensures Unattached(Apply(s, step), tx, msg)
  {
  }

  lemma {:induction false} UnattachedRun(s: State, steps: seq<Step>, tx: TxID, msg: Msg)
    requires Inv(s) && Unattached(s, tx, msg) && Run(s, steps).Some?
    ensures Inv(Run(s, steps).value) && Unattached(Run(s, steps).value, tx, msg)
    decreases |steps|
  {
    hide Inv, Unattached, Enabled, Apply;
    if steps != [] {
      StepKeeps(s, steps[0]);
      UnattachedStep(s, steps[0], tx, msg);
      UnattachedRun(Apply(s, steps[0]), steps[1..], tx, msg);
    }
  }

  lemma TimelyStep(s: State, step: Step, tx: TxID, msg: Msg)
    requires Inv(s) && Timely(s, tx, msg) && Enabled(s, step)
    ensures Timely(Apply(s, step), tx, msg)
  {
    hide Inv, Timely, Attached, TakenOut, Registered, Released;
    match step
    case Detach(k) => TimelyDetach(s, k, tx, msg);
    case Attach => TimelyAttach(s, tx, msg);
    case ReleaseRef(k) => TimelyRelease(s, k, tx, msg);
    case _ => if OfCloser(step) { TimelyCloser(s, step, tx, msg); } else { TimelyLoop(s, step, tx, msg); }
  }

  lemma TimelyDetach(s: State, k: CloserID, tx: TxID, msg: Msg)
    requires Inv(s) && Timely(s, tx, msg) && Enabled(s, Detach(k))
    ensures Timely(TakenOut(s, k), tx, msg)
  {
    hide OpsOk, TableOk, TxsOk, Used;
    assert CloserOk(s, k, s.closers[k]);
    UsedKept(s, TakenOut(s, k), msg.id);
    if s.closers[k].origin.Some? && s.closers[k].reqID == msg.id { IsUsed(s, s.closers[k].origin.value, msg.id); }
  }

  lemma IsUsed(s: State, p: OpRef, id: ReqID)
    requires p in s.ops && s.ops[p].submitted && s.ops[p].reqID == id
    ensures Used(s, id)
  {
  }

  /** No request was handed to its app in between. */
  lemma UsedKept(s: State, s': State, id: ReqID)
    requires forall q :: q in s'.ops && s'.ops[q].submitted ==> q in s.ops && s.ops[q].submitted && s.ops[q].reqID == s'.ops[q].reqID
    ensures Used(s', id) ==> Used(s, id)
  {
  }

  lemma TimelyAttach(s: State, tx: TxID, msg: Msg)
    requires Inv(s) && Timely(s, tx, msg) && Enabled(s, Attach)
    ensures Timely(Attached(s), tx, msg)
  {
    hide ClosersOk, TableOk, Used;
    assert OpOk(s, s.inbox.op, s.ops[s.inbox.op]);
    if tx in s.attached { assert TxOk(s, tx, s.refs[tx]); }
  }

  lemma TimelyRelease(s: State, k: CloserID, tx: TxID, msg: Msg)
    requires Inv(s) && Timely(s, tx, msg) && Enabled(s, ReleaseRef(k))
    ensures Timely(Released(s, k), tx, msg)
  {
    hide OpsOk, ClosersOk, TableOk, TxsOk, Used;
    UsedKept(s, Released(s, k), msg.id);
  }

  lemma TimelyCloser(s: State, step: Step, tx: TxID, msg: Msg)
    requires Inv(s) && Timely(s, tx, msg) && Enabled(s, step) && (step.Complete? || step.Swap? || step.CloseCancel?)
    ensures Timely(Apply(s, step), tx, msg)
  {
    hide OpsOk, ClosersOk, TableOk, TxsOk, Used;
    UsedKept(s, Apply(s, step), msg.id);
  }

  lemma TimelyLoop(s: State, step: Step, tx: TxID, msg: Msg)
    requires Inv(s) && Timely(s, tx, msg) && Enabled(s, step) && !OfCloser(step) && !step.Attach?
    ensures Timely(Apply(s, step), tx, msg)
  {
    hide OpsOk, ClosersOk, TableOk, TxsOk, Used;
    if !step.Submit? { UsedKept(s, Apply(s, step), msg.id); }
  }

  lemma {:induction false} TimelyRun(s: State, steps: seq<Step>, tx: TxID, msg: Msg)
    requires Inv(s) && Timely(s, tx, msg) && Run(s, steps).Some?
    ensures Inv(Run(s, steps).value) && Timely(Run(s, steps).value, tx, msg)
    decreases |steps|
  {
    hide Inv, Timely, Enabled, Apply;
    if steps != [] {
      StepKeeps(s, steps[0]);
      TimelyStep(s, steps[0], tx, msg);
      TimelyRun(Apply(s, steps[0]), steps[1..], tx, msg);
    }
  }

  lemma NoLeakAtRest(s: State, tx: TxID, msg: Msg)
    requires Inv(s) && AtRest(s) && (Unattached(s, tx, msg) || Timely(s, tx, msg))
    ensures tx in s.refs && s.refs[tx] == 0
  {
    hide OpsOk, ClosersOk, TableOk;
    assert TxOk(s, tx, s.refs[tx]);
    if tx in s.attached { RestOfOp(s, s.attached[tx]); }
  }

  lemma HarmlessMessage(s: State, tx: TxID, msg: Msg, steps: seq<Step>)
    requires Inv(s) && s.inbox == Got(tx, msg) && !CanLeak(s, msg) && Run(s, steps).Some?
    ensures var end := Run(s, steps).value; AtRest(end) ==> tx in end.refs && end.refs[tx] == 0
  {
    hide Inv, Run, Unattached, Timely;
    GotIsNew(s);
    if msg.CommitMsg? && (msg.parent == NIL || ParentUp(s, msg)) {
      assert Timely(s, tx, msg) by { TimelyAtFirst(s, tx, msg); }
      TimelyRun(s, steps, tx, msg);
    } else {
      assert Unattached(s, tx, msg) by { UnattachedAtFirst(s, tx, msg); }
      UnattachedRun(s, steps, tx, msg);
    }
    if AtRest(Run(s, steps).value) { NoLeakAtRest(Run(s, steps).value, tx, msg); }
  }

  lemma GotIsNew(s: State)
    requires Inv(s) && s.inbox.Got?
    ensures s.inbox.tx in s.refs && s.inbox.tx !in s.attached
  {
    hide OpsOk, ClosersOk, TableOk, TxsOk;
  }

  lemma TimelyAtFirst(s: State, tx: TxID, msg: Msg)
    requires s.inbox == Got(tx, msg) && tx in s.refs && tx !in s.attached && msg.id != NIL && !Used(s, msg.id)
    ensures Timely(s, tx, msg)
  {
  }

  lemma UnattachedAtFirst(s: State, tx: TxID, msg: Msg)
    requires s.inbox == Got(tx, msg) && tx in s.refs && tx !in s.attached
    requires msg.CommitMsg? ==> msg.parent != NIL && !ParentUp(s, msg)
    ensures Unattached(s, tx, msg)
  {
  }

  // ----- the exact condition

  lemma {:induction false} ClosersLeaveInbox(s: State, steps: seq<Step>)
    requires OnlyClosers(steps) && Run(s, steps).Some?
    ensures Run(s, steps).value.inbox == s.inbox
    decreases |steps|
  {
    if steps != [] { ClosersLeaveInbox(Apply(s, steps[0]), steps[1..]); }
  }

  /** While a new op waits for its transaction, completions and closeOps leave it in the table, whatever they do, exactly
      when no earlier request with its ID was handed to its app. */
  lemma SafeIffUnused(s: State)
    requires Inv(s) && s.inbox.Added? && s.Stored(s.inbox.op)
    ensures !Used(s, s.ops[s.inbox.op].reqID)
       <==> forall steps :: OnlyClosers(steps) && Run(s, steps).Some? ==> Run(s, steps).value.Stored(s.inbox.op)
  {
    hide Inv, Run, OnlyClosers;
    var o, tx, msg := s.inbox.op, s.inbox.tx, s.inbox.msg;
    AddedIsNew(s);
    NewOpIsOpen(s);
    if p :| p in s.ops && s.ops[p].submitted && s.ops[p].reqID == s.ops[o].reqID {
      var steps := CloseEarly(s, o, p);
    } else {
      assert Timely(s, tx, msg);
      forall steps | OnlyClosers(steps) && Run(s, steps).Some? ensures Run(s, steps).value.Stored(o) {
        TimelyRun(s, steps, tx, msg);
        ClosersLeaveInbox(s, steps);
      }
    }
  }

  lemma AddedIsNew(s: State)
    requires Inv(s) && s.inbox.Added?
    ensures s.inbox.tx in s.refs && s.inbox.tx !in s.attached
    ensures s.inbox.op in s.ops && s.ops[s.inbox.op].reqID == s.inbox.msg.id
  {
    hide OpsOk, ClosersOk, TableOk, TxsOk;
  }

  /** Whatever went before: once the loop takes in a message, some continuation ends with a reference to its transaction left
      exactly when the message is to be committed, has no parent or another open request as its parent, and has the nil ID
      or the ID of an earlier request that was handed to its app. */
  lemma LeaksIffReused(before: seq<Step>, tx: TxID, msg: Msg)
    requires Run(INIT, before).Some? && Enabled(Run(INIT, before).value, Receive(tx, msg))
    ensures var s := Run(INIT, before).value;
            CanLeak(s, msg) <==> exists after :: Leaks(Apply(s, Receive(tx, msg)), after, tx)
  {
    hide Inv, Run, CanLeak, Leaks;
    InitOk();
    RunKeeps(INIT, before);
    var s := Run(INIT, before).value;
    var s1 := Apply(s, Receive(tx, msg));
    StepKeeps(s, Receive(tx, msg));
    SameAfterReceive(s, tx, msg);
    if CanLeak(s1, msg) {
      var steps := LeakRun(s1, tx, msg);
    } else {
      forall after ensures !Leaks(s1, after, tx) { NeverLeaks(s1, tx, msg, after); }
    }
  }

  lemma SameAfterReceive(s: State, tx: TxID, msg: Msg)
    requires Enabled(s, Receive(tx, msg))
    ensures CanLeak(Apply(s, Receive(tx, msg)), msg) <==> CanLeak(s, msg)
  {
    var s1 := Apply(s, Receive(tx, msg));
    assert s1.ops == s.ops && s1.open == s.open;
    assert Used(s1, msg.id) <==> Used(s, msg.id);
  }

  lemma NeverLeaks(s: State, tx: TxID, msg: Msg, after: seq<Step>)
    requires Inv(s) && s.inbox == Got(tx, msg) && !CanLeak(s, msg)
    ensures !Leaks(s, after, tx)
  {
    hide Inv, Run, CanLeak, AtRest;
    if Run(s, after).Some? { HarmlessMessage(s, tx, msg, after); }
  }

  /** A session in which no message can leak when it is taken in. */
  ghost predicate Careful(s: State, steps: seq<Step>)
    requires Run(s, steps).Some?
    decreases |steps|
  {
    steps == [] ||
    ((steps[0].Receive? ==> !CanLeak(s, steps[0].msg)) && Careful(Apply(s, steps[0]), steps[1..]))
  }

  lemma {:induction false} CarefulFrom(s: State, steps: seq<Step>, tx: TxID)
    requires Inv(s) && Run(s, steps).Some? && Careful(s, steps) && tx !in s.refs
    requires var end := Run(s, steps).value; AtRest(end) && tx in end.refs
    ensures Run(s, steps).value.refs[tx] == 0
    decreases |steps|
  {
    hide Inv, CanLeak, AtRest, Enabled, Apply;
    if steps != [] {
      var s1 := Apply(s, steps[0]);
      StepKeeps(s, steps[0]);
      OnlyReceiveAdds(s, steps[0], tx);
      if tx in s1.refs {
        SameAfterReceive(s, tx, steps[0].msg);
        HarmlessMessage(s1, tx, steps[0].msg, steps[1..]);
      } else {
        CarefulFrom(s1, steps[1..], tx);
      }
    }
  }

  lemma OnlyReceiveAdds(s: State, step: Step, tx: TxID)
    requires Enabled(s, step) && tx !in s.refs
    ensures tx in Apply(s, step).refs ==> step.Receive? && step.tx == tx && Apply(s, step).inbox == Got(tx, step.msg)
  {
  }

  /** A whole session without such messages leaves no reference to any transaction. */
  lemma CarefulSessionBalances(steps: seq<Step>, tx: TxID)
    requires Run(INIT, steps).Some? && Careful(INIT, steps)
    requires var end := Run(INIT, steps).value; AtRest(end) && tx in end.refs
    ensures Run(INIT, steps).value.refs[tx] == 0
  {
    hide Inv, Run, Careful, AtRest;
    InitOk();
    CarefulFrom(INIT, steps, tx);
  }
}
