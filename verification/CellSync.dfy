/** One mounted cell: commits race with pins that subscribe to it, read a snapshot and then receive what is committed. */
module CellSync {
  import opened Wrappers
  import opened Lists
  import opened Bytes

  // ----- transactions and the stored map

  /** The key of an element: cell, attribute, series index and edit. The nil edit is 0. */
  datatype Key = Key(cell: nat, attr: nat, index: nat, edit: nat)

  datatype Op = Op(key: Key, value: Bytes)

  type Tx = seq<Op>

  type Elements = map<Key, Bytes>

  /** Upserts, one after the other. */
  function Upsert(m: Elements, tx: Tx): Elements
    decreases |tx|
  {
    if tx == [] then m else Upsert(m[tx[0].key := tx[0].value], tx[1..])
  }

  lemma UpsertNothing(m: Elements)
    ensures Upsert(m, []) == m
  {
  }

  lemma UpsertFirst(m: Elements, tx: Tx)
    requires tx != []
    ensures Upsert(m, tx) == Upsert(m[tx[0].key := tx[0].value], tx[1..])
  {
  }

  /** The operations that a commit writes: those without an edit are left out. */
  function Written(tx: Tx): Tx {
    if tx == [] then [] else (if tx[0].key.edit == 0 then [] else [tx[0]]) + Written(tx[1..])
  }

  /** What a snapshot of a cell reads. */
  function CellPart(db: Elements, cell: nat): Elements {
    map k | k in db && k.cell == cell :: db[k]
  }

  // ----- the state

  type PinID = nat
  type CommitID = nat

  const QUEUE_CAP := 4

  datatype CommitPhase =
    | Running
    | Stored
    | Counted
      /** In pushToPins: the pins still to be tried, and those that were full. */
    | Pushing(todo: seq<PinID>, held: seq<PinID>)
    | Failed

  datatype Commit = Commit(tx: Tx, phase: CommitPhase) {
    predicate InDb() { phase.Stored? || phase.Counted? || phase.Pushing? }

    predicate Done() { phase.Failed? || (phase.Pushing? && phase.todo == [] && phase.held == []) }

    /** The commit will still hand its transaction to this pin. */
    predicate Owes(p: PinID) {
      phase.Stored? || phase.Counted? || (phase.Pushing? && p in phase.todo + phase.held)
    }
  }

  datatype PinPhase = Launched | Subscribed | RevLoaded | Snapped | Live | Stopped

  /** A pin: counted is what its rev counts, seen what its snapshot holds; then the channel of changes and what was
      already pushed to the client. */
  datatype Pin = Pin(phase: PinPhase, closing: bool, rev: nat, counted: set<CommitID>, seen: set<CommitID>,
                     snapshot: Elements, queue: seq<CommitID>, pushed: seq<CommitID>)
  {
    predicate Synced() { (phase.Snapped? || phase.Live?) && !closing }

    function Received(): seq<CommitID> { pushed + queue }
  }

  datatype State = State(cell: nat, db: Elements, rev: nat, counted: set<CommitID>, pins: seq<PinID>,
                         pin: map<PinID, Pin>, commits: map<CommitID, Commit>)
  {
    function SetPin(p: PinID, v: Pin): State { this.(pin := pin[p := v]) }

    function SetCommit(c: CommitID, v: Commit): State { this.(commits := commits[c := v]) }

    function InDb(): set<CommitID> { set c | c in commits && commits[c].InDb() }
  }

  function Init(cell: nat, db: Elements): State { State(cell, db, 0, {}, [], map[], map[]) }

  // ----- the steps

  datatype Step =
    | Begin(c: CommitID, tx: Tx)
    | Conflict(c: CommitID)
    | Fail(c: CommitID)
    | Store(c: CommitID)
    | Count(c: CommitID)
    | CopyPins(c: CommitID)
    | TrySend(c: CommitID)
    | Send(c: CommitID)
    | SkipClosing(c: CommitID)
    | Launch(p: PinID)
    | AddSync(p: PinID)
    | LoadRev(p: PinID)
    | TakeSnapshot(p: PinID)
    | PushSnapshot(p: PinID, ok: bool)
    | PushChange(p: PinID, ok: bool)
    | Close(p: PinID)
    | Leave(p: PinID)
    | RemoveSync(p: PinID)

  predicate InPhase(s: State, c: CommitID, phase: CommitPhase) { c in s.commits && s.commits[c].phase == phase }

  predicate PinInPhase(s: State, p: PinID, phase: PinPhase) { p in s.pin && s.pin[p].phase == phase }

  predicate Enabled(s: State, step: Step) {
    match step
    case Begin(c, tx) => c !in s.commits && tx != []
    case Conflict(c) => InPhase(s, c, Running)
    case Fail(c) => InPhase(s, c, Running)
    case Store(c) => InPhase(s, c, Running)
    case Count(c) => InPhase(s, c, Stored)
    case CopyPins(c) => InPhase(s, c, Counted)
    case TrySend(c) => c in s.commits && CanTry(s, s.commits[c].phase)
    case Send(c) => c in s.commits && CanSend(s, s.commits[c].phase)
    case SkipClosing(c) => c in s.commits && CanSkip(s, s.commits[c].phase)
    case Launch(p) => p !in s.pin
    case AddSync(p) => PinInPhase(s, p, Launched)
    case LoadRev(p) => PinInPhase(s, p, Subscribed)
    case TakeSnapshot(p) => PinInPhase(s, p, RevLoaded)
    case PushSnapshot(p, _) => PinInPhase(s, p, Snapped)
    case PushChange(p, _) => PinInPhase(s, p, Live) && s.pin[p].queue != []
    case Close(p) => p in s.pin
    case Leave(p) => PinInPhase(s, p, Live) && s.pin[p].closing
    case RemoveSync(p) => p in s.pin && s.pin[p].closing && p in s.pins
  }

  predicate CanTry(s: State, phase: CommitPhase) { phase.Pushing? && phase.todo != [] && phase.todo[0] in s.pin }

  /** The first of the pins that were full has room. */
  predicate CanSend(s: State, phase: CommitPhase) {
    && phase.Pushing? && phase.todo == [] && phase.held != []
    && phase.held[0] in s.pin && |s.pin[phase.held[0]].queue| < QUEUE_CAP
  }

  predicate CanSkip(s: State, phase: CommitPhase) {
    && phase.Pushing? && phase.todo == [] && phase.held != []
    && phase.held[0] in s.pin && s.pin[phase.held[0]].closing
  }

  function Apply(s: State, step: Step): State
    requires Enabled(s, step)
  {
    match step
    case Begin(c, tx) => s.SetCommit(c, Commit(tx, Running))
    case Conflict(c) => s
    case Fail(c) => s.SetCommit(c, s.commits[c].(phase := Failed))
    case Store(c) => s.SetCommit(c, s.commits[c].(phase := Stored)).(db := Upsert(s.db, Written(s.commits[c].tx)))
    case Count(c) => s.SetCommit(c, s.commits[c].(phase := Counted)).(rev := s.rev + 1, counted := s.counted + {c})
    case CopyPins(c) => s.SetCommit(c, s.commits[c].(phase := Pushing(s.pins, [])))
    case TrySend(c) => Try(s, c)
    case Send(c) => Sent(s, c, s.commits[c].phase.held[0], Pushing([], s.commits[c].phase.held[1..]))
    case SkipClosing(c) => s.SetCommit(c, s.commits[c].(phase := Pushing([], s.commits[c].phase.held[1..])))
    case Launch(p) => s.SetPin(p, Pin(Launched, false, 0, {}, {}, map[], [], []))
    case AddSync(p) => s.SetPin(p, s.pin[p].(phase := Subscribed)).(pins := s.pins + [p])
    case LoadRev(p) => s.SetPin(p, s.pin[p].(phase := RevLoaded, rev := s.rev, counted := s.counted))
    case TakeSnapshot(p) => s.SetPin(p, s.pin[p].(phase := Snapped, seen := s.InDb(), snapshot := CellPart(s.db, s.cell)))
    case PushSnapshot(p, ok) => s.SetPin(p, s.pin[p].(phase := if ok then Live else Stopped))
    case PushChange(p, ok) => s.SetPin(p, Delivered(s.pin[p], ok))
    case Close(p) => s.SetPin(p, s.pin[p].(closing := true))
    case Leave(p) => s.SetPin(p, s.pin[p].(phase := Stopped))
    case RemoveSync(p) => s.(pins := Without(s.pins, p))
  }

  /** The fast pass: a full queue is not waited for. */
  function Try(s: State, c: CommitID): State
    requires c in s.commits && CanTry(s, s.commits[c].phase)
  {
    var Pushing(todo, held) := s.commits[c].phase;
    if |s.pin[todo[0]].queue| < QUEUE_CAP then Sent(s, c, todo[0], Pushing(todo[1..], held))
    else s.SetCommit(c, s.commits[c].(phase := Pushing(todo[1..], held + [todo[0]])))
  }

  function Sent(s: State, c: CommitID, p: PinID, next: CommitPhase): State
    requires c in s.commits && p in s.pin
  {
    s.SetCommit(c, s.commits[c].(phase := next)).SetPin(p, s.pin[p].(queue := s.pin[p].queue + [c]))
  }

  function Delivered(pin: Pin, ok: bool): Pin
    requires pin.queue != []
  {
    if ok then pin.(queue := pin.queue[1..], pushed := pin.pushed + [pin.queue[0]])
    else pin.(phase := Stopped, queue := pin.queue[1..])
  }

  /** removeSync: the last pin takes the place of the one removed. */
  function Without(pins: seq<PinID>, p: PinID): seq<PinID> {
    if pins == [] then []
    else if pins[0] == p then (if |pins| == 1 then [] else [pins[|pins| - 1]] + pins[1..|pins| - 1])
    else [pins[0]] + Without(pins[1..], p)
  }

  /** Where a schedule of steps leads, if each is possible when its turn comes. */
  function Run(s: State, steps: seq<Step>): Option<State>
    decreases |steps|
  {
    if steps == [] then Some(s)
    else if Enabled(s, steps[0]) then Run(Apply(s, steps[0]), steps[1..])
    else None
  }

  // ----- the invariant

  /** A commit and a pin: the pin has received the transaction at most once, and not while it is still owed; and once the
      pin is synced, what is stored is in its snapshot, received or owed. */
  ghost predicate PairOk(p: PinID, pin: Pin, c: CommitID, commit: Commit) {
    && (c in pin.Received() ==> commit.phase.Pushing? && !commit.Owes(p))
    && (c in pin.seen ==> commit.InDb())
    && (pin.Synced() && commit.InDb() ==> c in pin.seen || c in pin.Received() || commit.Owes(p))
  }

  ghost predicate PinOk(s: State, p: PinID, pin: Pin) {
    && NoDuplicates(pin.Received()) && |pin.queue| <= QUEUE_CAP
    && (pin.phase != Launched && !pin.closing ==> p in s.pins)
    && (forall c :: c in pin.Received() || c in pin.seen ==> c in s.commits)
    && pin.counted <= s.counted && pin.rev == |pin.counted|
    && (pin.Synced() ==> pin.counted <= pin.seen)
  }

  ghost predicate CommitOk(s: State, c: CommitID, commit: Commit) {
    && (commit.phase.Pushing? ==> NoDuplicates(commit.phase.todo + commit.phase.held)
                                  && forall p :: p in commit.phase.todo + commit.phase.held ==> p in s.pin)
    && (c in s.counted <==> commit.phase.Counted? || commit.phase.Pushing?)
  }

  ghost predicate Inv(s: State) {
    && NoDuplicates(s.pins) && (forall p :: p in s.pins ==> p in s.pin && s.pin[p].phase != Launched)
    && s.rev == |s.counted| && (forall c :: c in s.counted ==> c in s.commits)
    && (forall p :: p in s.pin ==> PinOk(s, p, s.pin[p]))
    && (forall c :: c in s.commits ==> CommitOk(s, c, s.commits[c]))
    && (forall p, c :: p in s.pin && c in s.commits ==> PairOk(p, s.pin[p], c, s.commits[c]))
  }

  // ----- every step keeps the invariant

  lemma SetPinKeeps(s: State, p: PinID, v: Pin, pins: seq<PinID>)
    requires Inv(s) && NoDuplicates(pins)
    requires forall q :: q in s.pins ==> q in pins
    requires forall q :: q in pins ==> (q in s.pin || q == p) && (q == p ==> v.phase != Launched) && (q != p ==> q in s.pins)
    requires PinOk(s.SetPin(p, v).(pins := pins), p, v)
    requires forall c :: c in s.commits ==> PairOk(p, v, c, s.commits[c])
    ensures Inv(s.SetPin(p, v).(pins := pins))
  {
    hide PairOk, NoDuplicates;
    var s' := s.SetPin(p, v).(pins := pins);
    forall q | q in s'.pin ensures PinOk(s', q, s'.pin[q]) {
      if q != p { assert PinOk(s, q, s.pin[q]); }
    }
    forall c | c in s'.commits ensures CommitOk(s', c, s'.commits[c]) {
      assert CommitOk(s, c, s.commits[c]);
    }
  }

  lemma SetCommitKeeps(s: State, s': State, c: CommitID, v: Commit)
    requires Inv(s) && s'.pin == s.pin && s'.pins == s.pins && s'.commits == s.commits[c := v]
    requires s.counted <= s'.counted <= s.counted + {c} && s'.rev == |s'.counted|
    requires CommitOk(s', c, v)
    requires forall p :: p in s.pin ==> PairOk(p, s.pin[p], c, v)
    ensures Inv(s')
  {
    hide PairOk, NoDuplicates, Commit.InDb;
    forall q | q in s'.pin ensures PinOk(s', q, s'.pin[q]) {
      assert PinOk(s, q, s.pin[q]);
    }
    forall d | d in s'.commits ensures CommitOk(s', d, s'.commits[d]) {
      if d != c { assert CommitOk(s, d, s.commits[d]); }
    }
  }

  lemma CommitStepKeeps(s: State, step: Step)
    requires Inv(s) && Enabled(s, step)
    requires step.Begin? || step.Fail? || step.Store? || step.Count?
    ensures Inv(Apply(s, step))
  {
    hide NoDuplicates, Upsert, Written, Inv, PinOk;
    var c, s' := step.c, Apply(s, step);
    InvOfCommit(s, c);
    SetCommitKeeps(s, s', c, s'.commits[c]);
  }

  lemma InvOfCommit(s: State, c: CommitID)
    requires Inv(s)
    ensures s.rev == |s.counted| && NoDuplicates(s.pins)
    ensures c in s.commits ==> CommitOk(s, c, s.commits[c])
    ensures c in s.commits ==> forall p :: p in s.pin ==> PairOk(p, s.pin[p], c, s.commits[c])
    ensures c !in s.commits ==> c !in s.counted && forall p :: p in s.pin ==> c !in s.pin[p].Received() && c !in s.pin[p].seen
  {
    hide NoDuplicates, PairOk;
    forall p | p in s.pin ensures PinOk(s, p, s.pin[p]) {}
  }

  lemma CopyPinsKeeps(s: State, c: CommitID)
    requires Inv(s) && Enabled(s, CopyPins(c))
    ensures Inv(Apply(s, CopyPins(c)))
  {
    hide NoDuplicates, Inv, PairOk;
    var v := s.commits[c].(phase := Pushing(s.pins, []));
    InvOfCommit(s, c);
    assert s.pins + [] == s.pins;
    forall p | p in s.pin ensures PairOk(p, s.pin[p], c, v) {
      InvOfPin(s, p);
      CopiedPair(s, p, c);
    }
    InvOfPins(s);
    SetCommitKeeps(s, Apply(s, CopyPins(c)), c, v);
  }

  lemma CopiedPair(s: State, p: PinID, c: CommitID)
    requires c in s.commits && s.commits[c].phase == Counted && p in s.pin
    requires PairOk(p, s.pin[p], c, s.commits[c])
    requires s.pin[p].phase != Launched && !s.pin[p].closing ==> p in s.pins
    ensures PairOk(p, s.pin[p], c, s.commits[c].(phase := Pushing(s.pins, [])))
  {
    assert s.pins + [] == s.pins;
  }

  lemma InvOfPin(s: State, p: PinID)
    requires Inv(s) && p in s.pin
    ensures PinOk(s, p, s.pin[p])
  {
    hide NoDuplicates, PairOk, CommitOk;
  }

  lemma InvOfPins(s: State)
    requires Inv(s)
    ensures NoDuplicates(s.pins) && forall p :: p in s.pins ==> p in s.pin && s.pin[p].phase != Launched
  {
    hide NoDuplicates, PairOk, CommitOk, PinOk;
  }

  lemma SkipClosingKeeps(s: State, c: CommitID)
    requires Inv(s) && Enabled(s, SkipClosing(c))
    ensures Inv(Apply(s, SkipClosing(c)))
  {
    hide Inv, NoDuplicates, PinOk;
    var held := s.commits[c].phase.held;
    InvOfCommit(s, c);
    assert [] + held == held && [] + held[1..] == held[1..];
    NoDuplicatesTail(held);
    SetCommitKeeps(s, Apply(s, SkipClosing(c)), c, s.commits[c].(phase := Pushing([], held[1..])));
  }

  /** A commit hands its transaction to a pin that it owes it to. */
  lemma SentKeeps(s: State, c: CommitID, p: PinID, next: CommitPhase)
    requires Inv(s) && c in s.commits && p in s.pin && |s.pin[p].queue| < QUEUE_CAP
    requires s.commits[c].phase.Pushing? && p in s.commits[c].phase.todo + s.commits[c].phase.held
    requires next.Pushing? && NoDuplicates(next.todo + next.held) && p !in next.todo + next.held
    requires forall q :: q in s.commits[c].phase.todo + s.commits[c].phase.held <==> q == p || q in next.todo + next.held
    ensures Inv(Sent(s, c, p, next))
  {
    hide PairOk, NoDuplicates, PinOk, CommitOk;
    var s' := Sent(s, c, p, next);
    var v := s.commits[c];
    forall q | q in s.pin ensures PinOk(s', q, s'.pin[q]) {
      InvOfPin(s, q);
      SentPin(s, q, c, p, next);
    }
    forall d | d in s.commits ensures CommitOk(s', d, s'.commits[d]) {
      assert CommitOk(s, d, s.commits[d]);
      SentCommit(s, d, c, p, next);
    }
    forall q, d | q in s.pin && d in s.commits ensures PairOk(q, s'.pin[q], d, s'.commits[d]) {
      SentPair(s, q, d, c, p, next);
    }
  }

  lemma SentPin(s: State, q: PinID, c: CommitID, p: PinID, next: CommitPhase)
    requires c in s.commits && p in s.pin && q in s.pin && |s.pin[p].queue| < QUEUE_CAP
    requires PinOk(s, q, s.pin[q]) && PairOk(p, s.pin[p], c, s.commits[c]) && s.commits[c].Owes(p)
    ensures PinOk(Sent(s, c, p, next), q, Sent(s, c, p, next).pin[q])
  {
    var v := s.pin[p];
    assert v.pushed + (v.queue + [c]) == v.Received() + [c];
  }

  lemma SentCommit(s: State, d: CommitID, c: CommitID, p: PinID, next: CommitPhase)
    requires c in s.commits && p in s.pin && d in s.commits
    requires CommitOk(s, d, s.commits[d])
    requires s.commits[c].phase.Pushing? && next.Pushing? && NoDuplicates(next.todo + next.held)
    requires forall q :: q in next.todo + next.held ==> q in s.commits[c].phase.todo + s.commits[c].phase.held
    ensures CommitOk(Sent(s, c, p, next), d, Sent(s, c, p, next).commits[d])
  {
    hide NoDuplicates;
  }

  lemma SentPair(s: State, q: PinID, d: CommitID, c: CommitID, p: PinID, next: CommitPhase)
    requires c in s.commits && p in s.pin && q in s.pin && d in s.commits
    requires PairOk(q, s.pin[q], d, s.commits[d])
    requires s.commits[c].phase.Pushing? && next.Pushing? && p !in next.todo + next.held
    requires forall q :: q in s.commits[c].phase.todo + s.commits[c].phase.held <==> q == p || q in next.todo + next.held
    ensures PairOk(q, Sent(s, c, p, next).pin[q], d, Sent(s, c, p, next).commits[d])
  {
    var v := s.pin[p];
    assert v.pushed + (v.queue + [c]) == v.Received() + [c];
  }

  lemma TrySendKeeps(s: State, c: CommitID)
    requires Inv(s) && Enabled(s, TrySend(c))
    ensures Inv(Apply(s, TrySend(c)))
  {
    hide Inv, NoDuplicates, PinOk;
    var todo, held := s.commits[c].phase.todo, s.commits[c].phase.held;
    InvOfCommit(s, c);
    Shifted(todo, held);
    if |s.pin[todo[0]].queue| < QUEUE_CAP {
      SentKeeps(s, c, todo[0], Pushing(todo[1..], held));
    } else {
      SetCommitKeeps(s, Apply(s, TrySend(c)), c, s.commits[c].(phase := Pushing(todo[1..], held + [todo[0]])));
    }
  }

  lemma Shifted<T>(todo: seq<T>, held: seq<T>)
    requires todo != [] && NoDuplicates(todo + held)
    ensures NoDuplicates(todo[1..] + held) && todo[0] !in todo[1..] + held
    ensures forall x :: x in todo + held <==> x == todo[0] || x in todo[1..] + held
    ensures NoDuplicates(todo[1..] + (held + [todo[0]]))
    ensures forall x :: x in todo + held <==> x in todo[1..] + (held + [todo[0]])
  {
    NoDuplicatesTail(todo + held);
    assert (todo + held)[1..] == todo[1..] + held;
    assert todo[1..] + (held + [todo[0]]) == todo[1..] + held + [todo[0]];
  }

  lemma SendKeeps(s: State, c: CommitID)
    requires Inv(s) && Enabled(s, Send(c))
    ensures Inv(Apply(s, Send(c)))
  {
    hide Inv, NoDuplicates, PinOk, PairOk;
    var held := s.commits[c].phase.held;
    InvOfCommit(s, c);
    assert [] + held == held && [] + held[1..] == held[1..];
    NoDuplicatesTail(held);
    SentKeeps(s, c, held[0], Pushing([], held[1..]));
  }

  // ----- the steps of a pin

  /** The pin steps that leave the list of pins as it is. */
  lemma PinStepKeeps(s: State, step: Step)
    requires Inv(s) && Enabled(s, step)
    requires step.Launch? || step.LoadRev? || step.TakeSnapshot? || step.PushSnapshot? || step.Close? || step.Leave?
    ensures Inv(Apply(s, step))
  {
    hide Inv, NoDuplicates, PairOk, PinOk, CellPart;
    var p, s' := step.p, Apply(s, step);
    InvOfPins(s);
    PinStepPin(s, step);
    forall c | c in s.commits ensures PairOk(p, s'.pin[p], c, s.commits[c]) {
      InvOfPair(s, p, c);
      PinStepPair(s, step, c);
    }
    assert s' == s.SetPin(p, s'.pin[p]).(pins := s.pins);
    SetPinKeeps(s, p, s'.pin[p], s.pins);
  }

  lemma InvOfPair(s: State, p: PinID, c: CommitID)
    requires Inv(s)
    ensures p in s.pin && c in s.commits ==> PairOk(p, s.pin[p], c, s.commits[c])
  {
    hide NoDuplicates, PairOk, CommitOk, PinOk;
  }

  lemma PinStepPin(s: State, step: Step)
    requires Inv(s) && Enabled(s, step)
    requires step.Launch? || step.LoadRev? || step.TakeSnapshot? || step.PushSnapshot? || step.Close? || step.Leave?
    ensures PinOk(Apply(s, step), step.p, Apply(s, step).pin[step.p])
  {
    hide Inv, PinOk, CellPart;
    var p := step.p;
    if p in s.pin { InvOfPin(s, p); }
    CountedAreStored(s);
    match step
    case Launch(_) => LaunchPin(s, p);
    case LoadRev(_) => LoadRevPin(s, p);
    case TakeSnapshot(_) => SnapshotPin(s, p);
    case PushSnapshot(_, ok) => FlagsPin(s, p, if ok then Live else Stopped, s.pin[p].closing);
    case Close(_) => FlagsPin(s, p, s.pin[p].phase, true);
    case Leave(_) => FlagsPin(s, p, Stopped, s.pin[p].closing);
  }

  lemma CountedAreStored(s: State)
    requires Inv(s)
    ensures s.counted <= s.InDb() && s.rev == |s.counted|
  {
    hide NoDuplicates, PinOk, PairOk;
    forall c | c in s.counted ensures c in s.InDb() {
      assert CommitOk(s, c, s.commits[c]);
    }
  }

  lemma LaunchPin(s: State, p: PinID)
    requires p !in s.pin
    ensures PinOk(s.SetPin(p, Pin(Launched, false, 0, {}, {}, map[], [], [])), p, Pin(Launched, false, 0, {}, {}, map[], [], []))
  {
  }

  lemma LoadRevPin(s: State, p: PinID)
    requires p in s.pin && PinOk(s, p, s.pin[p]) && s.pin[p].phase.Subscribed? && s.rev == |s.counted|
    ensures var v := s.pin[p].(phase := RevLoaded, rev := s.rev, counted := s.counted); PinOk(s.SetPin(p, v), p, v)
  {
    hide NoDuplicates;
  }

  lemma SnapshotPin(s: State, p: PinID)
    requires p in s.pin && PinOk(s, p, s.pin[p]) && s.pin[p].phase.RevLoaded? && s.counted <= s.InDb()
    ensures var v := s.pin[p].(phase := Snapped, seen := s.InDb(), snapshot := CellPart(s.db, s.cell));
            PinOk(s.SetPin(p, v), p, v)
  {
    hide NoDuplicates, CellPart;
  }

  /** A pin that closes, stops or goes live. */
  lemma FlagsPin(s: State, p: PinID, phase: PinPhase, closing: bool)
    requires p in s.pin && PinOk(s, p, s.pin[p]) && (s.pin[p].closing ==> closing)
    requires phase == s.pin[p].phase || s.pin[p].phase.Snapped? || s.pin[p].phase.Live?
    ensures var v := s.pin[p].(phase := phase, closing := closing); PinOk(s.SetPin(p, v), p, v)
  {
    hide NoDuplicates;
  }

  lemma PinStepPair(s: State, step: Step, c: CommitID)
    requires Enabled(s, step) && c in s.commits
    requires step.Launch? || step.LoadRev? || step.TakeSnapshot? || step.PushSnapshot? || step.Close? || step.Leave?
    requires step.p in s.pin ==> PairOk(step.p, s.pin[step.p], c, s.commits[c])
    ensures PairOk(step.p, Apply(s, step).pin[step.p], c, s.commits[c])
  {
    hide CellPart;
  }

  lemma AddSyncKeeps(s: State, p: PinID)
    requires Inv(s) && Enabled(s, AddSync(p))
    ensures Inv(Apply(s, AddSync(p)))
  {
    hide Inv;
    var v := s.pin[p].(phase := Subscribed);
    InvOfPins(s);
    InvOfPin(s, p);
    forall c | c in s.commits ensures PairOk(p, v, c, s.commits[c]) {
      InvOfPair(s, p, c);
    }
    SetPinKeeps(s, p, v, s.pins + [p]);
  }

  lemma PushChangeKeeps(s: State, p: PinID, ok: bool)
    requires Inv(s) && Enabled(s, PushChange(p, ok))
    ensures Inv(Apply(s, PushChange(p, ok)))
  {
    hide Inv;
    var pin := s.pin[p];
    var v := Delivered(pin, ok);
    InvOfPins(s);
    InvOfPin(s, p);
    var got := pin.Received();
    assert ok ==> v.Received() == got;
    assert !ok ==> v.Received() == got[..|pin.pushed|] + got[|pin.pushed| + 1..];
    forall c | c in s.commits ensures PairOk(p, v, c, s.commits[c]) {
      InvOfPair(s, p, c);
    }
    assert Apply(s, PushChange(p, ok)) == s.SetPin(p, v).(pins := s.pins);
    SetPinKeeps(s, p, v, s.pins);
  }

  /** removeSync takes out that pin and no other. */
  lemma {:induction false} WithoutRemoves(pins: seq<PinID>, p: PinID)
    requires NoDuplicates(pins)
    ensures NoDuplicates(Without(pins, p))
    ensures forall q :: q in Without(pins, p) <==> q in pins && q != p
  {
    if pins != [] {
      NoDuplicatesTail(pins);
      if pins[0] == p {
        if |pins| > 1 { LastFirst(pins[1..], Without(pins, p)); }
      } else {
        WithoutRemoves(pins[1..], p);
      }
    }
  }

  lemma LastFirst(pins: seq<PinID>, moved: seq<PinID>)
    requires NoDuplicates(pins) && pins != [] && moved == [pins[|pins| - 1]] + pins[..|pins| - 1]
    ensures NoDuplicates(moved) && forall q :: q in moved <==> q in pins
  {
    assert pins == pins[..|pins| - 1] + [pins[|pins| - 1]];
  }

  lemma RemoveSyncKeeps(s: State, p: PinID)
    requires Inv(s) && Enabled(s, RemoveSync(p))
    ensures Inv(Apply(s, RemoveSync(p)))
  {
    hide PairOk, NoDuplicates, Without;
    WithoutRemoves(s.pins, p);
    var s' := Apply(s, RemoveSync(p));
    forall q | q in s'.pin ensures PinOk(s', q, s'.pin[q]) {
      assert PinOk(s, q, s.pin[q]);
    }
    forall c | c in s'.commits ensures CommitOk(s', c, s'.commits[c]) {
      assert CommitOk(s, c, s.commits[c]);
    }
  }

  lemma StepKeeps(s: State, step: Step)
    requires Inv(s) && Enabled(s, step)
    ensures Inv(Apply(s, step))
  {
    hide Inv, Enabled, Apply;
    match step
    case CopyPins(c) => CopyPinsKeeps(s, c);
    case TrySend(c) => TrySendKeeps(s, c);
    case Send(c) => SendKeeps(s, c);
    case SkipClosing(c) => SkipClosingKeeps(s, c);
    case AddSync(p) => AddSyncKeeps(s, p);
    case PushChange(p, ok) => PushChangeKeeps(s, p, ok);
    case RemoveSync(p) => RemoveSyncKeeps(s, p);
    case Conflict(c) => ConflictKeeps(s, c);
    case Begin(_, _) => CommitStepKeeps(s, step);
    case Fail(_) => CommitStepKeeps(s, step);
    case Store(_) => CommitStepKeeps(s, step);
    case Count(_) => CommitStepKeeps(s, step);
    case _ => PinStepKeeps(s, step);
  }

  lemma ConflictKeeps(s: State, c: CommitID)
    requires Inv(s) && Enabled(s, Conflict(c))
    ensures Inv(Apply(s, Conflict(c)))
  {
    hide Inv;
  }

  lemma {:induction false} RunKeeps(s: State, steps: seq<Step>)
    requires Inv(s) && Run(s, steps).Some?
    ensures Inv(Run(s, steps).value)
    decreases |steps|
  {
    hide Inv, Enabled, Apply;
    if steps != [] {
      StepKeeps(s, steps[0]);
      RunKeeps(Apply(s, steps[0]), steps[1..]);
    }
  }

  // ----- no lost update

  /** In every interleaving: once a subscribed pin that is not closing has read its snapshot, every stored transaction is
      in that snapshot, or pushed, or queued, or still owed by a running commit; no transaction reaches a pin twice; and
      what the pin's rev counts is in its snapshot. The cell's rev counts the commits that are past storing. */
  lemma NoLostUpdate(cell: nat, db: Elements, steps: seq<Step>, p: PinID, c: CommitID)
    requires Run(Init(cell, db), steps).Some?
    requires var s := Run(Init(cell, db), steps).value; p in s.pin && c in s.commits
    ensures var s := Run(Init(cell, db), steps).value;
            var (pin, commit) := (s.pin[p], s.commits[c]);
            && (pin.Synced() && commit.InDb() ==> c in pin.seen || c in pin.pushed || c in pin.queue || commit.Owes(p))
            && NoDuplicates(pin.pushed + pin.queue) && (c in pin.pushed + pin.queue ==> commit.InDb() && !commit.Owes(p))
            && |pin.queue| <= QUEUE_CAP
            && (pin.Synced() ==> pin.rev <= |pin.seen|)
            && s.rev == |set d | d in s.commits && s.commits[d].InDb() && !s.commits[d].phase.Stored?|
  {
    hide Run, Inv, NoDuplicates, PairOk, PinOk;
    InitOk(cell, db);
    RunKeeps(Init(cell, db), steps);
    var s := Run(Init(cell, db), steps).value;
    InvOfPin(s, p);
    InvOfPair(s, p, c);
    PinPairMeans(s, p, s.pin[p], c, s.commits[c]);
    RevCounts(s);
  }

  lemma RevCounts(s: State)
    requires Inv(s)
    ensures s.rev == |set d | d in s.commits && s.commits[d].InDb() && !s.commits[d].phase.Stored?|
  {
    hide NoDuplicates, PinOk, PairOk;
    var counted := set d | d in s.commits && s.commits[d].InDb() && !s.commits[d].phase.Stored?;
    forall d ensures d in counted <==> d in s.counted {
      if d in s.commits { assert CommitOk(s, d, s.commits[d]); }
    }
    assert counted == s.counted;
  }

  lemma InitOk(cell: nat, db: Elements)
    ensures Inv(Init(cell, db))
  {
  }

  lemma PinPairMeans(s: State, p: PinID, pin: Pin, c: CommitID, commit: Commit)
    requires PinOk(s, p, pin) && PairOk(p, pin, c, commit)
    ensures pin.Synced() && commit.InDb() ==> c in pin.seen || c in pin.pushed || c in pin.queue || commit.Owes(p)
    ensures NoDuplicates(pin.pushed + pin.queue) && (c in pin.pushed + pin.queue ==> commit.InDb() && !commit.Owes(p))
    ensures |pin.queue| <= QUEUE_CAP && (pin.Synced() ==> pin.rev <= |pin.seen|)
  {
    if pin.Synced() { SubsetIsSmaller(pin.counted, pin.seen); }
  }

  lemma {:induction false} SubsetIsSmaller<T>(a: set<T>, b: set<T>)
    requires a <= b
    ensures |a| <= |b|
  {
    assert |b| == |a| + |b - a| by { assert b == a + (b - a); }
  }
}
