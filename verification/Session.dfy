/** The table of open requests of a session: one loop takes in messages and registers requests, while apps complete them
    and clients close them; at the end everything is closed. */
module Session {
  import opened Wrappers

  type ReqID = nat
  type TxID = nat
  /** A clientOp, as an object: two of them may have one request ID. */
  type OpRef = nat
  type CloserID = nat

  /** The ID of internal requests, which are not registered. */
  const NIL: ReqID := 0

  /** A clientOp. Its cancel channel counts how often it was closed. For the record: who took it out of the table, whether
      its closeOp is through, and whether its transaction was set after that. */
  datatype Op = Op(reqID: ReqID, closed: bool, cancels: nat, tx: Option<TxID>, submitted: bool,
                   holder: Option<CloserID>, released: bool, late: bool)

  /** A running closeOp. The loop's own have no origin; others come from OnComplete of a submitted op. */
  datatype Closer =
    | Detaching(reqID: ReqID, origin: Option<OpRef>)
    | Detached(op: OpRef)
    | Won(op: OpRef)
    | CancelClosed(op: OpRef)
    | Done
  {
    predicate Holds(o: OpRef) { !Detaching? && !Done? && op == o }
  }

  /** A message: one that closes a request, one that is refused, one to commit, or one to pin. */
  datatype Msg =
    | CloseMsg(id: ReqID)
    | BadMsg(id: ReqID)
    | CommitMsg(id: ReqID, parent: ReqID)
    | PinMsg(id: ReqID, parent: ReqID)

  /** Where the loop is: Waiting for the parent it holds the lock of the table. */
  datatype Inbox =
    | Idle
    | Got(tx: TxID, msg: Msg)
    | Waiting(tx: TxID, msg: Msg, op: OpRef)
    | Added(tx: TxID, msg: Msg, op: OpRef)
    | Ready(tx: TxID, msg: Msg, op: OpRef)
    | Closing(tx: TxID, own: CloserID)
    | Releasing(tx: TxID)
    | Stopping(todo: seq<ReqID>)
    | StoppingOne(todo: seq<ReqID>, own: CloserID)
    | Stopped
  {
    predicate HasTx() { Got? || Waiting? || Added? || Ready? || Closing? || Releasing? }

    predicate HasNewOp() { Waiting? || Added? || Ready? }
  }

  /** attached records which op holds a transaction. */
  datatype State = State(ops: map<OpRef, Op>, open: map<ReqID, OpRef>, closers: map<CloserID, Closer>,
                         refs: map<TxID, int>, attached: map<TxID, OpRef>, inbox: Inbox)
  {
    function SetOp(o: OpRef, v: Op): State { this.(ops := ops[o := v]) }

    function SetCloser(k: CloserID, v: Closer): State { this.(closers := closers[k := v]) }

    function At(next: Inbox): State { this.(inbox := next) }

    /** The loop starts a closeOp of its own. */
    function Own(k: CloserID, id: ReqID, next: Inbox): State { SetCloser(k, Detaching(id, None)).At(next) }

    predicate Stored(o: OpRef) { o in ops && ops[o].reqID in open && open[ops[o].reqID] == o }
  }

  const INIT := State(map[], map[], map[], map[], map[], Idle)

  datatype Step =
    | Receive(tx: TxID, msg: Msg)
    | CloseTarget(k: CloserID)
    | Register(o: OpRef)
    | Refuse(k: CloserID)
    | ParentReady
    | ParentFails(k: CloserID)
    | Attach
    | Submit
    | SubmitFails(k: CloserID)
    | ReleaseTx
    | Shutdown(todo: seq<ReqID>)
    | StopNext(k: CloserID)
    | StopDone
    | Stop
    | Complete(k: CloserID, o: OpRef)
    | Detach(k: CloserID)
    | Swap(k: CloserID)
    | CloseCancel(k: CloserID)
    | ReleaseRef(k: CloserID)

  predicate IsRequest(msg: Msg) { msg.CommitMsg? || msg.PinMsg? }

  predicate IsDone(s: State, k: CloserID) { k in s.closers && s.closers[k].Done? }

  /** The request is open, and was handed to its app, as one that is ready must have been. */
  predicate IsUp(s: State, id: ReqID) { id in s.open && s.open[id] in s.ops && s.ops[s.open[id]].submitted }

  predicate Enabled(s: State, step: Step) {
    match step
    case Receive(tx, _) => s.inbox.Idle? && tx !in s.refs
    case CloseTarget(k) => s.inbox.Got? && !IsRequest(s.inbox.msg) && k !in s.closers
    case Register(o) => s.inbox.Got? && IsRequest(s.inbox.msg) && s.inbox.msg.id !in s.open && o !in s.ops
    case Refuse(k) => s.inbox.Got? && IsRequest(s.inbox.msg) && s.inbox.msg.id in s.open && k !in s.closers
    case ParentReady => s.inbox.Waiting? && IsRequest(s.inbox.msg) && IsUp(s, s.inbox.msg.parent)
    case ParentFails(k) => s.inbox.Waiting? && k !in s.closers
    case Attach => s.inbox.Added? && s.inbox.op in s.ops && s.inbox.tx in s.refs
    case Submit => s.inbox.Ready? && s.inbox.op in s.ops
    case SubmitFails(k) => s.inbox.Ready? && k !in s.closers
    case ReleaseTx => (s.inbox.Releasing? || (s.inbox.Closing? && IsDone(s, s.inbox.own))) && s.inbox.tx in s.refs
    case Shutdown(todo) => s.inbox.Idle? && (forall r :: r in s.open ==> r in todo) && (forall r :: r in todo ==> r in s.open)
    case StopNext(k) => s.inbox.Stopping? && s.inbox.todo != [] && k !in s.closers
    case StopDone => s.inbox.StoppingOne? && IsDone(s, s.inbox.own)
    case Stop => s.inbox.Stopping? && s.inbox.todo == []
    case Complete(k, o) => k !in s.closers && o in s.ops && s.ops[o].submitted
    case Detach(k) => k in s.closers && s.closers[k].Detaching? && !s.inbox.Waiting?
                      && (s.closers[k].reqID in s.open ==> s.open[s.closers[k].reqID] in s.ops)
    case Swap(k) => k in s.closers && s.closers[k].Detached? && s.closers[k].op in s.ops
    case CloseCancel(k) => k in s.closers && s.closers[k].Won? && s.closers[k].op in s.ops
    case ReleaseRef(k) => k in s.closers && s.closers[k].CancelClosed? && s.closers[k].op in s.ops
                          && (s.ops[s.closers[k].op].tx.Some? ==> s.ops[s.closers[k].op].tx.value in s.refs)
  }

  function Apply(s: State, step: Step): State
    requires Enabled(s, step)
  {
    match step
    case Receive(tx, msg) => s.(refs := s.refs[tx := 1]).At(Got(tx, msg))
    case CloseTarget(k) => s.Own(k, s.inbox.msg.id, Closing(s.inbox.tx, k))
    case Register(o) => Registered(s, o)
    case Refuse(k) => s.Own(k, s.inbox.msg.id, Closing(s.inbox.tx, k))
    case ParentReady => s.At(Added(s.inbox.tx, s.inbox.msg, s.inbox.op))
    case ParentFails(k) => s.Own(k, s.inbox.msg.id, Closing(s.inbox.tx, k))
    case Attach => Attached(s)
    case Submit => s.SetOp(s.inbox.op, s.ops[s.inbox.op].(submitted := true)).At(Releasing(s.inbox.tx))
    case SubmitFails(k) => s.Own(k, s.inbox.msg.id, Closing(s.inbox.tx, k))
    case ReleaseTx => s.(refs := s.refs[s.inbox.tx := s.refs[s.inbox.tx] - 1]).At(Idle)
    case Shutdown(todo) => s.At(Stopping(todo))
    case StopNext(k) => s.Own(k, s.inbox.todo[0], StoppingOne(s.inbox.todo[1..], k))
    case StopDone => s.At(Stopping(s.inbox.todo))
    case Stop => s.At(Stopped)
    case Complete(k, o) => s.SetCloser(k, Detaching(s.ops[o].reqID, Some(o)))
    case Detach(k) => TakenOut(s, k)
    case Swap(k) => Swapped(s, k)
    case CloseCancel(k) =>
      var o := s.closers[k].op;
      s.SetOp(o, s.ops[o].(cancels := s.ops[o].cancels + 1)).SetCloser(k, CancelClosed(o))
    case ReleaseRef(k) => Released(s, k)
  }

  /** addClientOp up to the wait for the parent. */
  function Registered(s: State, o: OpRef): State
    requires s.inbox.Got? && IsRequest(s.inbox.msg)
  {
    var Got(tx, msg) := s.inbox;
    s.SetOp(o, Op(msg.id, false, 0, None, false, None, false, false))
     .(open := if msg.id == NIL then s.open else s.open[msg.id := o])
     .At(if msg.parent == NIL then Added(tx, msg, o) else Waiting(tx, msg, o))
  }

  /** A transaction to commit is kept, with a reference of its own. */
  function Attached(s: State): State
    requires s.inbox.Added? && s.inbox.op in s.ops && s.inbox.tx in s.refs
  {
    var Added(tx, msg, o) := s.inbox;
    if msg.CommitMsg? then
      s.SetOp(o, s.ops[o].(tx := Some(tx), late := s.ops[o].released))
       .(refs := s.refs[tx := s.refs[tx] + 1], attached := s.attached[tx := o]).At(Ready(tx, msg, o))
    else s.At(Ready(tx, msg, o))
  }

  /** detachOp */
  function TakenOut(s: State, k: CloserID): State
    requires k in s.closers && s.closers[k].Detaching?
    requires s.closers[k].reqID in s.open ==> s.open[s.closers[k].reqID] in s.ops
  {
    var id := s.closers[k].reqID;
    if id == NIL || id !in s.open then s.SetCloser(k, Done)
    else
      var o := s.open[id];
      s.SetOp(o, s.ops[o].(holder := Some(k))).(open := s.open - {id}).SetCloser(k, Detached(o))
  }

  /** CompareAndSwap on closed */
  function Swapped(s: State, k: CloserID): State
    requires k in s.closers && s.closers[k].Detached? && s.closers[k].op in s.ops
  {
    var o := s.closers[k].op;
    if s.ops[o].closed then s.SetCloser(k, Done)
    else s.SetOp(o, s.ops[o].(closed := true)).SetCloser(k, Won(o))
  }

  function Released(s: State, k: CloserID): State
    requires k in s.closers && s.closers[k].CancelClosed? && s.closers[k].op in s.ops
    requires s.ops[s.closers[k].op].tx.Some? ==> s.ops[s.closers[k].op].tx.value in s.refs
  {
    var o := s.closers[k].op;
    var s' := s.SetOp(o, s.ops[o].(tx := None, holder := None, released := true)).SetCloser(k, Done);
    if s.ops[o].tx.None? then s'
    else s'.(refs := s.refs[s.ops[o].tx.value := s.refs[s.ops[o].tx.value] - 1], attached := s.attached - {s.ops[o].tx.value})
  }

  function Run(s: State, steps: seq<Step>): Option<State>
    decreases |steps|
  {
    if steps == [] then Some(s)
    else if Enabled(s, steps[0]) then Run(Apply(s, steps[0]), steps[1..])
    else None
  }

  // ----- the invariant

  /** A registered op is in the table, or taken out by one closeOp that is at work on it, or closed, once. */
  ghost predicate OpOk(s: State, o: OpRef, op: Op) {
    && (if op.reqID == NIL then
          !op.closed && op.cancels == 0 && op.holder.None? && !op.released
        else if op.holder.Some? then
          && !s.Stored(o) && !op.released
          && op.holder.value in s.closers && s.closers[op.holder.value].Holds(o)
          && op.closed == !s.closers[op.holder.value].Detached?
          && op.cancels == if s.closers[op.holder.value].CancelClosed? then 1 else 0
        else if s.Stored(o) then
          !op.closed && op.cancels == 0 && !op.released
        else
          op.closed && op.cancels == 1 && op.released)
    && (op.late <==> op.tx.Some? && op.released)
    && (op.tx.Some? ==> op.tx.value in s.attached && s.attached[op.tx.value] == o)
  }

  ghost predicate CloserOk(s: State, k: CloserID, c: Closer) {
    && (c.Detached? || c.Won? || c.CancelClosed? ==> c.op in s.ops && s.ops[c.op].holder == Some(k))
    && (c.Detaching? && c.origin.Some? ==>
          c.origin.value in s.ops && s.ops[c.origin.value].submitted && s.ops[c.origin.value].reqID == c.reqID)
    && (c.Detaching? && c.origin.None? ==> (s.inbox.Closing? || s.inbox.StoppingOne?) && s.inbox.own == k)
  }

  ghost predicate OpenOk(s: State, r: ReqID, o: OpRef) { r != NIL && o in s.ops && s.ops[o].reqID == r }

  /** A reference for the loop that handles the transaction, and one for the op that keeps it. */
  ghost predicate TxOk(s: State, tx: TxID, n: int) {
    && n == (if s.inbox.HasTx() && s.inbox.tx == tx then 1 else 0) + (if tx in s.attached then 1 else 0)
    && (tx in s.attached ==> s.attached[tx] in s.ops && s.ops[s.attached[tx]].tx == Some(tx))
  }

  ghost predicate InboxOk(s: State) {
    && (s.inbox.HasTx() ==> s.inbox.tx in s.refs)
    && (s.inbox.Got? || s.inbox.Waiting? || s.inbox.Added? ==> s.inbox.tx !in s.attached)
    && (s.inbox.HasNewOp() ==> IsRequest(s.inbox.msg) && s.inbox.op in s.ops && s.ops[s.inbox.op].reqID == s.inbox.msg.id)
    && (s.inbox.Waiting? || s.inbox.Added? ==> s.ops[s.inbox.op].tx.None? && !s.ops[s.inbox.op].submitted)
    && (s.inbox.Closing? || s.inbox.StoppingOne? ==> s.inbox.own in s.closers)
    && (s.inbox.Stopping? ==> forall r :: r in s.open ==> r in s.inbox.todo)
    && (s.inbox.StoppingOne? ==> forall r :: r in s.open ==>
          r in s.inbox.todo || s.closers[s.inbox.own] == Detaching(r, None))
    && (s.inbox.Stopped? ==> s.open == map[])
  }

  ghost predicate OpsOk(s: State) { forall o :: o in s.ops ==> OpOk(s, o, s.ops[o]) }

  ghost predicate ClosersOk(s: State) { forall k :: k in s.closers ==> CloserOk(s, k, s.closers[k]) }

  ghost predicate TableOk(s: State) { forall r :: r in s.open ==> OpenOk(s, r, s.open[r]) }

  ghost predicate TxsOk(s: State) {
    && (forall tx :: tx in s.refs ==> TxOk(s, tx, s.refs[tx]))
    && (forall tx :: tx in s.attached ==> tx in s.refs)
  }

  ghost predicate Inv(s: State) { OpsOk(s) && ClosersOk(s) && TableOk(s) && TxsOk(s) && InboxOk(s) }

  // ----- steps of the loop that start no closeOp and touch no op

  predicate Moves(step: Step) {
    step.Receive? || step.ParentReady? || step.ReleaseTx? || step.Shutdown? || step.StopDone? || step.Stop?
  }

  lemma MoveKeeps(s: State, step: Step)
    requires Inv(s) && Enabled(s, step) && Moves(step)
    ensures Inv(Apply(s, step))
  {
    hide OpsOk, ClosersOk, TableOk, TxsOk, InboxOk;
    MoveKeepsOps(s, step);
    MoveKeepsClosers(s, step);
    MoveKeepsTxs(s, step);
    MoveKeepsInbox(s, step);
  }

  lemma MoveKeepsOps(s: State, step: Step)
    requires OpsOk(s) && TableOk(s) && Enabled(s, step) && Moves(step)
    ensures OpsOk(Apply(s, step)) && TableOk(Apply(s, step))
  {
  }

  lemma MoveKeepsClosers(s: State, step: Step)
    requires ClosersOk(s) && Enabled(s, step) && Moves(step)
    ensures ClosersOk(Apply(s, step))
  {
  }

  lemma MoveKeepsTxs(s: State, step: Step)
    requires TxsOk(s) && Enabled(s, step) && Moves(step)
    ensures TxsOk(Apply(s, step))
  {
  }

  lemma MoveKeepsInbox(s: State, step: Step)
    requires InboxOk(s) && TxsOk(s) && Enabled(s, step) && Moves(step)
    ensures InboxOk(Apply(s, step))
  {
  }

  // ----- steps that start a closeOp

  predicate Starts(step: Step) {
    step.CloseTarget? || step.Refuse? || step.ParentFails? || step.SubmitFails? || step.StopNext? || step.Complete?
  }

  lemma StartKeeps(s: State, step: Step)
    requires Inv(s) && Enabled(s, step) && Starts(step)
    ensures Inv(Apply(s, step))
  {
    hide OpsOk, ClosersOk, TableOk, TxsOk, InboxOk;
    StartKeepsOps(s, step);
    StartKeepsClosers(s, step);
    StartKeepsTxs(s, step);
    StartKeepsInbox(s, step);
  }

  lemma StartKeepsOps(s: State, step: Step)
    requires OpsOk(s) && TableOk(s) && Enabled(s, step) && Starts(step)
    ensures OpsOk(Apply(s, step)) && TableOk(Apply(s, step))
  {
  }

  lemma StartKeepsClosers(s: State, step: Step)
    requires ClosersOk(s) && Enabled(s, step) && Starts(step)
    ensures ClosersOk(Apply(s, step))
  {
  }

  lemma StartKeepsTxs(s: State, step: Step)
    requires TxsOk(s) && Enabled(s, step) && Starts(step)
    ensures TxsOk(Apply(s, step))
  {
  }

  lemma StartKeepsInbox(s: State, step: Step)
    requires InboxOk(s) && Enabled(s, step) && Starts(step)
    ensures InboxOk(Apply(s, step))
  {
  }

  // ----- a new op

  lemma RegisterKeeps(s: State, o: OpRef)
    requires Inv(s) && Enabled(s, Register(o))
    ensures Inv(Apply(s, Register(o)))
  {
    hide ClosersOk, TxsOk;
    RegisterKeepsClosers(s, o);
    RegisterKeepsTxs(s, o);
  }

  lemma RegisterKeepsClosers(s: State, o: OpRef)
    requires ClosersOk(s) && Enabled(s, Register(o))
    ensures ClosersOk(Registered(s, o))
  {
  }

  lemma RegisterKeepsTxs(s: State, o: OpRef)
    requires TxsOk(s) && Enabled(s, Register(o))
    ensures TxsOk(Registered(s, o))
  {
  }

  lemma AttachKeeps(s: State)
    requires Inv(s) && Enabled(s, Attach)
    ensures Inv(Attached(s))
  {
    hide ClosersOk, TxsOk, OpsOk;
    AttachKeepsOps(s);
    AttachKeepsClosers(s);
    AttachKeepsTxs(s);
  }

  lemma AttachKeepsOps(s: State)
    requires OpsOk(s) && InboxOk(s) && Enabled(s, Attach)
    ensures OpsOk(Attached(s))
  {
  }

  lemma AttachKeepsClosers(s: State)
    requires ClosersOk(s) && Enabled(s, Attach)
    ensures ClosersOk(Attached(s))
  {
  }

  lemma AttachKeepsTxs(s: State)
    requires TxsOk(s) && InboxOk(s) && Enabled(s, Attach)
    ensures TxsOk(Attached(s))
  {
  }

  lemma SubmitKeeps(s: State)
    requires Inv(s) && Enabled(s, Submit)
    ensures Inv(Apply(s, Submit))
  {
    hide ClosersOk, TxsOk;
    SubmitKeepsClosers(s);
    SubmitKeepsTxs(s);
  }

  lemma SubmitKeepsClosers(s: State)
    requires ClosersOk(s) && Enabled(s, Submit)
    ensures ClosersOk(Apply(s, Submit))
  {
  }

  lemma SubmitKeepsTxs(s: State)
    requires TxsOk(s) && Enabled(s, Submit)
    ensures TxsOk(Apply(s, Submit))
  {
  }

  // ----- the steps of a closeOp

  predicate Closes(step: Step) { step.Swap? || step.CloseCancel? || step.ReleaseRef? }

  lemma DetachKeeps(s: State, k: CloserID)
    requires Inv(s) && Enabled(s, Detach(k))
    ensures Inv(TakenOut(s, k))
  {
    hide OpsOk, ClosersOk, TableOk, TxsOk, InboxOk, TakenOut;
    DetachKeepsOps(s, k);
    DetachKeepsClosers(s, k);
    DetachKeepsTxs(s, k);
    DetachKeepsInbox(s, k);
  }

  lemma DetachKeepsOps(s: State, k: CloserID)
    requires OpsOk(s) && ClosersOk(s) && TableOk(s) && Enabled(s, Detach(k))
    ensures OpsOk(TakenOut(s, k)) && TableOk(TakenOut(s, k))
  {
  }

  lemma DetachKeepsClosers(s: State, k: CloserID)
    requires OpsOk(s) && ClosersOk(s) && TableOk(s) && Enabled(s, Detach(k))
    ensures ClosersOk(TakenOut(s, k))
  {
  }

  lemma DetachKeepsTxs(s: State, k: CloserID)
    requires TxsOk(s) && Enabled(s, Detach(k))
    ensures TxsOk(TakenOut(s, k))
  {
  }

  lemma DetachKeepsInbox(s: State, k: CloserID)
    requires InboxOk(s) && TableOk(s) && Enabled(s, Detach(k))
    ensures InboxOk(TakenOut(s, k))
  {
  }

  lemma CloseKeeps(s: State, step: Step)
    requires Inv(s) && Enabled(s, step) && Closes(step)
    ensures Inv(Apply(s, step))
  {
    hide OpsOk, ClosersOk, TableOk, TxsOk, InboxOk;
    match step {
      case Swap(k) => SwapKeepsOps(s, k);
      case CloseCancel(k) => CancelKeepsOps(s, k);
      case ReleaseRef(k) => ReleaseKeepsOps(s, k);
    }
    CloseKeepsTable(s, step);
    CloseKeepsClosers(s, step);
    if step.ReleaseRef? {
      ReleaseKeepsTxs(s, step.k);
      ReleaseKeepsInbox(s, step.k);
    } else {
      CloseKeepsTxs(s, step);
      CloseKeepsInbox(s, step);
    }
  }

  lemma SwapKeepsOps(s: State, k: CloserID)
    requires OpsOk(s) && ClosersOk(s) && Enabled(s, Swap(k))
    ensures OpsOk(Swapped(s, k))
  {
  }

  lemma CancelKeepsOps(s: State, k: CloserID)
    requires OpsOk(s) && ClosersOk(s) && Enabled(s, CloseCancel(k))
    ensures OpsOk(Apply(s, CloseCancel(k)))
  {
  }

  lemma ReleaseKeepsOps(s: State, k: CloserID)
    requires OpsOk(s) && ClosersOk(s) && Enabled(s, ReleaseRef(k))
    ensures OpsOk(Released(s, k))
  {
  }

  lemma CloseKeepsTable(s: State, step: Step)
    requires TableOk(s) && Enabled(s, step) && Closes(step)
    ensures TableOk(Apply(s, step))
  {
  }

  lemma CloseKeepsClosers(s: State, step: Step)
    requires OpsOk(s) && ClosersOk(s) && Enabled(s, step) && Closes(step)
    ensures ClosersOk(Apply(s, step))
  {
  }

  lemma CloseKeepsTxs(s: State, step: Step)
    requires TxsOk(s) && Enabled(s, step) && (step.Swap? || step.CloseCancel?)
    ensures TxsOk(Apply(s, step))
  {
  }

  lemma ReleaseKeepsTxs(s: State, k: CloserID)
    requires OpsOk(s) && TxsOk(s) && Enabled(s, ReleaseRef(k))
    ensures TxsOk(Released(s, k))
  {
  }

  lemma CloseKeepsInbox(s: State, step: Step)
    requires InboxOk(s) && Enabled(s, step) && (step.Swap? || step.CloseCancel?)
    ensures InboxOk(Apply(s, step))
  {
  }

  lemma ReleaseKeepsInbox(s: State, k: CloserID)
    requires InboxOk(s) && Enabled(s, ReleaseRef(k))
    ensures InboxOk(Released(s, k))
  {
  }

  lemma StepKeeps(s: State, step: Step)
    requires Inv(s) && Enabled(s, step)
    ensures Inv(Apply(s, step))
  {
    hide Inv, Registered, Attached, TakenOut, Swapped, Released;
    match step
    case Register(o) => RegisterKeeps(s, o);
    case Attach => AttachKeeps(s);
    case Submit => SubmitKeeps(s);
    case Detach(k) => DetachKeeps(s, k);
    case Swap(_) => CloseKeeps(s, step);
    case CloseCancel(_) => CloseKeeps(s, step);
    case ReleaseRef(_) => CloseKeeps(s, step);
    case _ => if Moves(step) { MoveKeeps(s, step); } else { StartKeeps(s, step); }
  }

  lemma {:induction false} RunKeeps(s: State, steps: seq<Step>)
    requires Inv(s) && Run(s, steps).Some?
    ensures Inv(Run(s, steps).value)
    decreases |steps|
  {
    hide Inv, Enabled, Apply;
    if steps != [] {
      StepKeeps(s, steps[0]);
      RunKeeps(Apply(s, steps[0]), steps[1..]);
    }
  }

  // ----- at most once

  /** In every interleaving: cancel of an op is closed at most once; a closed op is not in the table; whoever takes an op
      out of the table finds it not yet closed; and a transaction has one reference for the loop that handles it and one for
      the op that keeps it, so that none is released twice. */
  lemma ClosedAtMostOnce(steps: seq<Step>, o: OpRef, k: CloserID, tx: TxID)
    requires Run(INIT, steps).Some?
    ensures var s := Run(INIT, steps).value;
            && (o in s.ops ==> s.ops[o].cancels <= 1 && (s.ops[o].closed || s.ops[o].cancels > 0 ==> !s.Stored(o)))
            && (k in s.closers && s.closers[k].Detached? ==> s.closers[k].op in s.ops && !s.ops[s.closers[k].op].closed)
            && (tx in s.refs ==> s.refs[tx] == (if s.inbox.HasTx() && s.inbox.tx == tx then 1 else 0)
                                             + (if exists p :: p in s.ops && s.ops[p].tx == Some(tx) then 1 else 0))
  {
    hide Run;
    RunKeeps(INIT, steps);
    var s := Run(INIT, steps).value;
    if o in s.ops { assert OpOk(s, o, s.ops[o]); }
    if k in s.closers && s.closers[k].Detached? {
      assert CloserOk(s, k, s.closers[k]);
      assert OpOk(s, s.closers[k].op, s.ops[s.closers[k].op]);
    }
    if tx in s.refs { HeldIffAttached(s, tx); }
  }

  lemma HeldIffAttached(s: State, tx: TxID)
    requires Inv(s) && tx in s.refs
    ensures TxOk(s, tx, s.refs[tx])
    ensures tx in s.attached <==> exists p :: p in s.ops && s.ops[p].tx == Some(tx)
  {
    hide ClosersOk, TableOk, InboxOk;
    if p :| p in s.ops && s.ops[p].tx == Some(tx) { assert OpOk(s, p, s.ops[p]); }
    if tx in s.attached { assert TxOk(s, tx, s.refs[tx]); }
  }

  /** What a step does to an op that exists: it keeps its ID, is never put back into the table, and stays closed. */
  ghost predicate OpGoesOn(s: State, s': State, o: OpRef)
    requires o in s.ops
  {
    && o in s'.ops && s'.ops[o].reqID == s.ops[o].reqID && s.ops[o].cancels <= s'.ops[o].cancels
    && (s'.Stored(o) ==> s.Stored(o)) && (s.ops[o].closed ==> s'.ops[o].closed)
    && (s.ops[o].released ==> s'.ops[o].released)
    && (s.ops[o].tx.Some? && (s.ops[o].late || s.ops[o].reqID == NIL) ==> s'.ops[o].late == s.ops[o].late && s'.ops[o].tx == s.ops[o].tx)
  }

  lemma StepGoesOn(s: State, step: Step, o: OpRef)
    requires Inv(s) && Enabled(s, step) && o in s.ops
    ensures OpGoesOn(s, Apply(s, step), o)
  {
    hide Inv, OpGoesOn;
    if Moves(step) || Starts(step) {
      SameOpGoesOn(s, step, o);
    } else if Closes(step) {
      CloseGoesOn(s, step, o);
    } else {
      NewOpGoesOn(s, step, o);
    }
  }

  lemma SameOpGoesOn(s: State, step: Step, o: OpRef)
    requires Enabled(s, step) && o in s.ops && (Moves(step) || Starts(step))
    ensures OpGoesOn(s, Apply(s, step), o)
  {
  }

  lemma NewOpGoesOn(s: State, step: Step, o: OpRef)
    requires Inv(s) && Enabled(s, step) && o in s.ops && (step.Register? || step.Attach? || step.Submit? || step.Detach?)
    ensures OpGoesOn(s, Apply(s, step), o)
  {
    hide ClosersOk, TableOk, TxsOk;
    assert OpOk(s, o, s.ops[o]);
  }

  lemma CloseGoesOn(s: State, step: Step, o: OpRef)
    requires Inv(s) && Enabled(s, step) && o in s.ops && Closes(step)
    ensures OpGoesOn(s, Apply(s, step), o)
  {
    hide TableOk, TxsOk, InboxOk;
    assert OpOk(s, o, s.ops[o]) && CloserOk(s, step.k, s.closers[step.k]);
  }

  /** An op that was taken out of the table is never stored in it again. */
  lemma {:induction false} NeverStoredAgain(s: State, steps: seq<Step>, o: OpRef)
    requires Inv(s) && o in s.ops && Run(s, steps).Some?
    ensures OpGoesOn(s, Run(s, steps).value, o)
    decreases |steps|
  {
    hide Inv, Enabled, Apply;
    if steps != [] {
      StepKeeps(s, steps[0]);
      StepGoesOn(s, steps[0], o);
      NeverStoredAgain(Apply(s, steps[0]), steps[1..], o);
    }
  }

  // ----- after the shutdown

  /** closeAllReqs has returned, and so has every closeOp. */
  predicate AtRest(s: State) { s.inbox.Stopped? && forall k :: k in s.closers ==> s.closers[k].Done? }

  /** When closeAllReqs has returned the table is empty; once every closeOp has returned, too, every registered op was closed
      exactly once. */
  lemma ShutdownClosesAll(steps: seq<Step>)
    requires Run(INIT, steps).Some?
    ensures var s := Run(INIT, steps).value;
            && (s.inbox.Stopped? ==> s.open == map[])
            && (AtRest(s) ==> forall o :: o in s.ops && s.ops[o].reqID != NIL ==> s.ops[o].closed && s.ops[o].cancels == 1)
  {
    hide Run, Inv;
    InitOk();
    RunKeeps(INIT, steps);
    var s := Run(INIT, steps).value;
    if s.inbox.Stopped? { StoppedIsEmpty(s); }
    if AtRest(s) {
      forall o | o in s.ops ensures OpAtRest(s.ops[o]) { RestOfOp(s, o); }
    }
  }

  lemma InitOk()
    ensures Inv(INIT)
  {
  }

  lemma StoppedIsEmpty(s: State)
    requires Inv(s) && s.inbox.Stopped?
    ensures s.open == map[]
  {
    hide OpsOk, ClosersOk, TableOk, TxsOk;
  }

  predicate OpAtRest(op: Op) {
    && (op.reqID != NIL ==> op.closed && op.cancels == 1)
    && (op.tx.Some? ==> op.late || op.reqID == NIL)
  }

  lemma RestOfOp(s: State, o: OpRef)
    requires Inv(s) && AtRest(s) && o in s.ops
    ensures OpAtRest(s.ops[o])
  {
    hide ClosersOk, TableOk, TxsOk;
    assert OpOk(s, o, s.ops[o]);
  }

  // ----- what a closeOp ends

  lemma IsRegistered(s: State, id: ReqID)
    requires Inv(s) && id in s.open
    ensures id != NIL && s.open[id] in s.ops && s.ops[s.open[id]].reqID == id
  {
    assert OpenOk(s, id, s.open[id]);
  }

  lemma OutOfTable(s: State, o: OpRef)
    requires Inv(s) && o in s.ops && s.ops[o].reqID != NIL && !s.Stored(o)
    ensures s.ops[o].closed || s.ops[o].holder.Some?
  {
    assert OpOk(s, o, s.ops[o]);
  }

  /** While the op is still in the table, the closeOp for its ID has yet to take it out. */
  ghost predicate Ending(s: State, k: CloserID, o: OpRef) {
    && o in s.ops && s.ops[o].reqID != NIL && k in s.closers
    && (s.Stored(o) ==> s.closers[k].Detaching? && s.closers[k].reqID == s.ops[o].reqID)
  }

  /** A closeOp gets on by its own steps only. */
  predicate IsOf(step: Step, k: CloserID) { (step.Detach? || Closes(step)) && step.k == k }

  lemma OtherStep(s: State, step: Step, k: CloserID)
    requires Enabled(s, step) && k in s.closers && !IsOf(step, k)
    ensures k in Apply(s, step).closers && Apply(s, step).closers[k] == s.closers[k]
  {
  }

  lemma OwnStep(s: State, step: Step, k: CloserID)
    requires Enabled(s, step) && k in s.closers && IsOf(step, k)
    ensures var (c, s') := (s.closers[k], Apply(s, step));
            && k in s'.closers && s'.inbox == s.inbox
            && (c.Detaching? ==>
                  if s'.closers[k].Done? then s'.open == s.open && (c.reqID == NIL || c.reqID !in s.open)
                  else c.reqID in s.open && s'.closers[k] == Detached(s.open[c.reqID]) && s'.open == s.open - {c.reqID})
            && (!c.Detaching? ==> !c.Done? && (s'.closers[k].Done? || s'.closers[k].Holds(c.op)))
  {
  }

  lemma EndingStep(s: State, k: CloserID, o: OpRef, step: Step)
    requires Inv(s) && Enabled(s, step) && Ending(s, k, o)
    ensures Ending(Apply(s, step), k, o)
  {
    hide Inv, Apply, Enabled;
    StepGoesOn(s, step, o);
    if IsOf(step, k) { OwnStep(s, step, k); } else { OtherStep(s, step, k); }
  }

  lemma {:induction false} EndingGoesOn(s: State, k: CloserID, o: OpRef, steps: seq<Step>)
    requires Inv(s) && Ending(s, k, o) && Run(s, steps).Some?
    ensures Inv(Run(s, steps).value) && Ending(Run(s, steps).value, k, o)
    decreases |steps|
  {
    hide Inv, Ending, Enabled, Apply;
    if steps != [] {
      StepKeeps(s, steps[0]);
      EndingStep(s, k, o, steps[0]);
      EndingGoesOn(Apply(s, steps[0]), k, o, steps[1..]);
    }
  }

  /** Out of the table, and closed or about to be. */
  predicate IsEnded(s: State, o: OpRef) { o in s.ops && !s.Stored(o) && (s.ops[o].closed || s.ops[o].holder.Some?) }

  /** A completion ends its request: once its closeOp is through, in whatever continuation. */
  lemma CompletionEnds(s: State, k: CloserID, o: OpRef, steps: seq<Step>)
    requires Inv(s) && Enabled(s, Complete(k, o)) && s.ops[o].reqID != NIL && Run(Apply(s, Complete(k, o)), steps).Some?
    ensures var s' := Run(Apply(s, Complete(k, o)), steps).value;
            IsDone(s', k) ==> IsEnded(s', o)
  {
    hide Inv, Run;
    StepKeeps(s, Complete(k, o));
    EndingGoesOn(Apply(s, Complete(k, o)), k, o, steps);
    var s' := Run(Apply(s, Complete(k, o)), steps).value;
    if !s'.Stored(o) { OutOfTable(s', o); }
  }

  /** The steps in which the loop starts a closeOp for the ID of its message: to close that request as the client asks, or to
      report that a request is refused, has no parent that is ready, or was not taken by its app. */
  predicate ClosesOwn(step: Step) { step.CloseTarget? || step.Refuse? || step.ParentFails? || step.SubmitFails? }

  /** The closeOp can take out the op x, or nothing; and until it has, the loop waits for it. */
  ghost predicate TakesOnly(s: State, tx: TxID, k: CloserID, id: ReqID, x: Option<OpRef>) {
    && k in s.closers
    && match s.closers[k] {
         case Detaching(r, _) => r == id && s.inbox == Closing(tx, k) && (id in s.open ==> x == Some(s.open[id]))
         case Done => true
         case c => x == Some(c.op)
       }
  }

  lemma TakesOnlyStep(s: State, tx: TxID, k: CloserID, id: ReqID, x: Option<OpRef>, step: Step)
    requires Enabled(s, step) && TakesOnly(s, tx, k, id, x)
    ensures TakesOnly(Apply(s, step), tx, k, id, x)
  {
    hide Apply;
    if IsOf(step, k) {
      OwnStep(s, step, k);
    } else {
      OtherStep(s, step, k);
      if s.closers[k].Detaching? { WhileWaiting(s, step); }
    }
  }

  /** While the loop waits for its closeOp, no request is registered. */
  lemma WhileWaiting(s: State, step: Step)
    requires Enabled(s, step) && s.inbox.Closing? && !IsDone(s, s.inbox.own)
    ensures Apply(s, step).inbox == s.inbox
    ensures forall r :: r in Apply(s, step).open ==> r in s.open && Apply(s, step).open[r] == s.open[r]
  {
  }

  lemma {:induction false} TakesOnlyGoesOn(s: State, tx: TxID, k: CloserID, id: ReqID, x: Option<OpRef>, steps: seq<Step>)
    requires TakesOnly(s, tx, k, id, x) && Run(s, steps).Some?
    ensures TakesOnly(Run(s, steps).value, tx, k, id, x)
    decreases |steps|
  {
    hide TakesOnly, Enabled, Apply;
    if steps != [] {
      TakesOnlyStep(s, tx, k, id, x, steps[0]);
      TakesOnlyGoesOn(Apply(s, steps[0]), tx, k, id, x, steps[1..]);
    }
  }

  lemma HolderHolds(s: State, k: CloserID, p: OpRef)
    requires Inv(s) && p in s.ops && s.ops[p].holder == Some(k)
    ensures k in s.closers && s.closers[k].Holds(p)
  {
    assert OpOk(s, p, s.ops[p]);
  }

  lemma OwnStarts(s: State, step: Step)
    requires Inv(s) && Enabled(s, step) && ClosesOwn(step)
    ensures var (id, s1) := (s.inbox.msg.id, Apply(s, step));
            && TakesOnly(s1, s.inbox.tx, step.k, id, if id in s.open then Some(s.open[id]) else None)
            && forall o :: o in s.ops && s.ops[o].reqID == id != NIL ==> Ending(s1, step.k, o)
  {
  }

  /** A closeOp of the loop ends every request with the ID of the message, whether the client named it, it is the new one, or
      it uses the ID of a new one, and takes out no op but the one stored under that ID: in every continuation in which the
      closeOp is through, and always once the loop has gone on. */
  lemma LoopEnds(s: State, step: Step, o: OpRef, steps: seq<Step>)
    requires Inv(s) && Enabled(s, step) && ClosesOwn(step) && Run(Apply(s, step), steps).Some?
    ensures var (id, s') := (s.inbox.msg.id, Run(Apply(s, step), steps).value);
            && (IsDone(s', step.k) || s'.inbox != Closing(s.inbox.tx, step.k) ==>
                  (o in s.ops && s.ops[o].reqID == id && id != NIL ==> IsEnded(s', o)))
            && (o in s'.ops && s'.ops[o].holder == Some(step.k) ==> id in s.open && o == s.open[id])
  {
    hide Inv, Run, Apply;
    var (id, s1) := (s.inbox.msg.id, Apply(s, step));
    OwnStarts(s, step);
    StepKeeps(s, step);
    RunKeeps(s1, steps);
    TakesOnlyGoesOn(s1, s.inbox.tx, step.k, id, if id in s.open then Some(s.open[id]) else None, steps);
    var s' := Run(s1, steps).value;
    if id != NIL && o in s.ops && s.ops[o].reqID == id {
      EndingGoesOn(s1, step.k, o, steps);
      NeverStoredAgain(s1, steps, o);
      if !s'.Stored(o) { OutOfTable(s', o); }
    }
    if o in s'.ops && s'.ops[o].holder == Some(step.k) { HolderHolds(s', step.k, o); }
  }

  /** In particular, a request that is refused because its ID is in use ends the one that uses it. */
  lemma RefusalEndsTheOther(s: State, k: CloserID, steps: seq<Step>)
    requires Inv(s) && Enabled(s, Refuse(k)) && Run(Apply(s, Refuse(k)), steps).Some?
    ensures var s' := Run(Apply(s, Refuse(k)), steps).value;
            IsDone(s', k) || s'.inbox != Closing(s.inbox.tx, k) ==> IsEnded(s', s.open[s.inbox.msg.id])
  {
    hide Inv, Run;
    IsRegistered(s, s.inbox.msg.id);
    LoopEnds(s, Refuse(k), s.open[s.inbox.msg.id], steps);
  }
}
