/** What the client of a pin makes of its snapshot and the transactions pushed after it, against what is stored. */
module CellViews {
  import opened Wrappers
  import opened Bytes
  import opened CellSync

  /** The client's map: the snapshot, then the pushed transactions as upserts in the order they came. */
  function Shown(s: State, m: Elements, pushed: seq<CommitID>): Elements {
    if pushed == [] then m
    else Upsert(Shown(s, m, pushed[..|pushed| - 1]), TxOf(s, pushed[|pushed| - 1]))
  }

  function TxOf(s: State, c: CommitID): Tx { if c in s.commits then s.commits[c].tx else [] }

  /** Every commit has returned, and this pin, which is not closing, has pushed all it received. */
  predicate Quiet(s: State, p: PinID) {
    && (forall c :: c in s.commits ==> s.commits[c].Done())
    && p in s.pin && s.pin[p].phase.Live? && !s.pin[p].closing && s.pin[p].queue == []
  }

  predicate OnlyBegins(steps: seq<Step>, txs: set<Tx>) {
    forall i :: 0 <= i < |steps| && steps[i].Begin? ==> steps[i].tx in txs
  }

  /** One schedule of commits of these transactions leaves this pin, once all is quiet, with the stored map. */
  ghost predicate Converges(cell: nat, db: Elements, txs: set<Tx>, steps: seq<Step>, p: PinID) {
    OnlyBegins(steps, txs) && Run(Init(cell, db), steps).Some? ==>
      var s := Run(Init(cell, db), steps).value;
      Quiet(s, p) ==> Shown(s, s.pin[p].snapshot, s.pin[p].pushed) == CellPart(s.db, cell)
  }

  function Effects(tx: Tx): Elements { Upsert(map[], tx) }

  /** Every operation is on this cell and names an edit, and a key that several transactions set is set to one value. */
  ghost predicate Plain(cell: nat, txs: set<Tx>) {
    && (forall tx, op :: tx in txs && op in tx ==> op.key.cell == cell && op.key.edit != 0)
    && (forall a, b, k :: a in txs && b in txs && k in Effects(a) && k in Effects(b) ==> Effects(a)[k] == Effects(b)[k])
  }

  // ----- upserts as patches from one map that holds every value

  function KeysOf(tx: Tx): set<Key> { set op | op in tx :: op.key }

  /** m, with the keys K taken from all. */
  function Patch(m: Elements, all: Elements, K: set<Key>): Elements {
    map k | k in m.Keys + K :: if k in K && k in all then all[k] else if k in m then m[k] else []
  }

  lemma {:induction false} UpsertOverrides(m: Elements, tx: Tx)
    ensures Upsert(m, tx) == m + Effects(tx)
    decreases |tx|
  {
    var none: Elements := map[];
    if tx == [] {
      assert Upsert(none, tx) == none && m + none == m;
    } else {
      var one := none[tx[0].key := tx[0].value];
      UpsertOverrides(m[tx[0].key := tx[0].value], tx[1..]);
      UpsertOverrides(one, tx[1..]);
      OneMore(m, one, Effects(tx[1..]), tx[0].key, tx[0].value);
    }
  }

  lemma OneMore(m: Elements, one: Elements, rest: Elements, k: Key, v: Bytes)
    requires one == map[][k := v]
    ensures m[k := v] + rest == m + (one + rest)
  {
  }

  lemma {:induction false} EffectKeys(tx: Tx)
    ensures Effects(tx).Keys == KeysOf(tx)
    decreases |tx|
  {
    hide Upsert;
    var none: Elements := map[];
    if tx == [] {
      UpsertNothing(none);
    } else {
      var one := none[tx[0].key := tx[0].value];
      UpsertFirst(none, tx);
      UpsertOverrides(one, tx[1..]);
      EffectKeys(tx[1..]);
      assert tx == [tx[0]] + tx[1..];
      assert KeysOf(tx) == {tx[0].key} + KeysOf(tx[1..]);
    }
  }

  /** The transaction agrees with all. */
  ghost predicate Agrees(all: Elements, tx: Tx) {
    forall k :: k in Effects(tx) ==> k in all && all[k] == Effects(tx)[k]
  }

  lemma UpsertPatches(m: Elements, all: Elements, tx: Tx)
    requires Agrees(all, tx)
    ensures Upsert(m, tx) == Patch(m, all, KeysOf(tx))
  {
    hide Upsert, KeysOf;
    UpsertOverrides(m, tx);
    EffectKeys(tx);
  }

  lemma PatchTwice(m: Elements, all: Elements, K: set<Key>, L: set<Key>)
    requires K <= all.Keys && L <= all.Keys
    ensures Patch(Patch(m, all, K), all, L) == Patch(m, all, K + L)
  {
  }

  lemma PatchOfCell(db: Elements, all: Elements, K: set<Key>, cell: nat)
    requires forall k :: k in K ==> k.cell == cell
    ensures CellPart(Patch(db, all, K), cell) == Patch(CellPart(db, cell), all, K)
  {
  }

  lemma {:induction false} AllWritten(tx: Tx)
    requires forall op :: op in tx ==> op.key.edit != 0
    ensures Written(tx) == tx
  {
    if tx != [] { AllWritten(tx[1..]); }
  }

  function SomeKeys(txs: set<Tx>): set<Key> { set tx, k | tx in txs && k in Effects(tx) :: k }

  /** A map that holds the one value of every key. */
  lemma AllValues(cell: nat, txs: set<Tx>) returns (all: Elements)
    requires Plain(cell, txs)
    ensures forall tx :: tx in txs ==> Agrees(all, tx)
  {
    hide Upsert;
    all := map k | k in SomeKeys(txs) :: var tx :| tx in txs && k in Effects(tx); Effects(tx)[k];
  }

  // ----- what is stored and what snapshots hold, under plain transactions

  function KeysOfAll(s: State, cs: set<CommitID>): set<Key> {
    set c, k | c in cs && k in KeysOf(TxOf(s, c)) :: k
  }

  ghost predicate PlainTx(cell: nat, all: Elements, tx: Tx) {
    && Agrees(all, tx) && Written(tx) == tx
    && KeysOf(tx) <= all.Keys && forall k :: k in KeysOf(tx) ==> k.cell == cell
  }

  predicate HasSnapshot(pin: Pin) { pin.phase.Snapped? || pin.phase.Live? }

  /** The database and every snapshot, in terms of the commits that they hold. */
  ghost predicate DataInv(s: State, cell: nat, db: Elements, all: Elements) {
    && s.cell == cell
    && (forall c :: c in s.commits ==> PlainTx(cell, all, s.commits[c].tx))
    && s.db == Patch(db, all, KeysOfAll(s, s.InDb()))
    && (forall p :: p in s.pin && HasSnapshot(s.pin[p]) ==>
          s.pin[p].snapshot == Patch(CellPart(db, cell), all, KeysOfAll(s, s.pin[p].seen)))
  }

  /** The transactions known stay, and so do what is stored and what the snapshots hold. */
  ghost predicate SameData(s: State, s': State) {
    && s'.cell == s.cell && s'.db == s.db && s'.InDb() == s.InDb()
    && (forall c :: c in s.commits ==> c in s'.commits && s'.commits[c].tx == s.commits[c].tx)
    && (forall p :: p in s'.pin && HasSnapshot(s'.pin[p]) ==>
          p in s.pin && HasSnapshot(s.pin[p]) && s'.pin[p].snapshot == s.pin[p].snapshot && s'.pin[p].seen == s.pin[p].seen)
  }

  lemma JoinStepsKeepData(s: State, step: Step)
    requires Enabled(s, step) && (step.Launch? || step.AddSync? || step.LoadRev? || step.PushSnapshot?)
    ensures SameData(s, Apply(s, step)) && Apply(s, step).commits == s.commits
  {
    hide Commit.InDb;
    assert Apply(s, step).InDb() == s.InDb();
  }

  lemma PinStepsKeepData(s: State, step: Step)
    requires Enabled(s, step) && (step.PushChange? || step.Close? || step.Leave? || step.RemoveSync?)
    ensures SameData(s, Apply(s, step)) && Apply(s, step).commits == s.commits
  {
    hide Without, Delivered, Commit.InDb;
    if step.PushChange? { DeliveredKeeps(s.pin[step.p], step.ok); }
    assert Apply(s, step).InDb() == s.InDb();
  }

  lemma CommitStepsKeepData(s: State, step: Step)
    requires Enabled(s, step)
    requires step.Begin? || step.Conflict? || step.Fail? || step.Count? || step.CopyPins? || step.SkipClosing?
    ensures SameData(s, Apply(s, step))
    ensures forall c :: c in Apply(s, step).commits && c !in s.commits ==> step.Begin? && Apply(s, step).commits[c].tx == step.tx
  {
    var s' := Apply(s, step);
    assert forall d :: d in s'.InDb() <==> d in s.InDb();
  }

  lemma SentKeepsData(s: State, c: CommitID, p: PinID, next: CommitPhase)
    requires c in s.commits && p in s.pin && s.commits[c].phase.Pushing? && next.Pushing?
    ensures SameData(s, Sent(s, c, p, next)) && Sent(s, c, p, next).commits.Keys == s.commits.Keys
  {
    var s' := Sent(s, c, p, next);
    assert forall d :: d in s'.InDb() <==> d in s.InDb();
  }

  lemma TrySendKeepsData(s: State, c: CommitID)
    requires Enabled(s, TrySend(c))
    ensures SameData(s, Apply(s, TrySend(c))) && Apply(s, TrySend(c)).commits.Keys == s.commits.Keys
  {
    var s', todo, held := Apply(s, TrySend(c)), s.commits[c].phase.todo, s.commits[c].phase.held;
    if |s.pin[todo[0]].queue| < QUEUE_CAP {
      SentKeepsData(s, c, todo[0], Pushing(todo[1..], held));
    } else {
      assert forall d :: d in s'.InDb() <==> d in s.InDb();
    }
  }

  lemma MostStepsKeepData(s: State, step: Step)
    requires Enabled(s, step) && !step.Store? && !step.TakeSnapshot?
    ensures SameData(s, Apply(s, step))
    ensures forall c :: c in Apply(s, step).commits && c !in s.commits ==> step.Begin? && Apply(s, step).commits[c].tx == step.tx
  {
    hide SameData, Without, Delivered;
    match step
    case TrySend(c) => TrySendKeepsData(s, c);
    case Send(c) =>
      SentKeepsData(s, c, s.commits[c].phase.held[0], Pushing([], s.commits[c].phase.held[1..]));
    case Begin(_, _) => CommitStepsKeepData(s, step);
    case Conflict(_) => CommitStepsKeepData(s, step);
    case Fail(_) => CommitStepsKeepData(s, step);
    case Count(_) => CommitStepsKeepData(s, step);
    case CopyPins(_) => CommitStepsKeepData(s, step);
    case SkipClosing(_) => CommitStepsKeepData(s, step);
    case PushChange(_, _) => PinStepsKeepData(s, step);
    case Close(_) => PinStepsKeepData(s, step);
    case Leave(_) => PinStepsKeepData(s, step);
    case RemoveSync(_) => PinStepsKeepData(s, step);
    case _ => JoinStepsKeepData(s, step);
  }

  lemma DeliveredKeeps(pin: Pin, ok: bool)
    requires pin.queue != [] && pin.phase.Live?
    ensures Delivered(pin, ok).snapshot == pin.snapshot && Delivered(pin, ok).seen == pin.seen
  {
  }

  lemma SameKeys(s: State, s': State, cs: set<CommitID>)
    requires forall c :: c in cs ==> TxOf(s, c) == TxOf(s', c)
    ensures KeysOfAll(s, cs) == KeysOfAll(s', cs)
  {
    hide KeysOf;
    forall k | k in KeysOfAll(s, cs) ensures k in KeysOfAll(s', cs) {
      var c :| c in cs && k in KeysOf(TxOf(s, c));
      assert k in KeysOf(TxOf(s', c));
    }
    forall k | k in KeysOfAll(s', cs) ensures k in KeysOfAll(s, cs) {
      var c :| c in cs && k in KeysOf(TxOf(s', c));
      assert k in KeysOf(TxOf(s, c));
    }
  }

  lemma SeenAreKnown(s: State, p: PinID)
    requires Inv(s) && p in s.pin
    ensures s.pin[p].seen <= s.commits.Keys
    ensures forall c :: c in s.pin[p].pushed ==> c in s.commits
  {
    hide Inv;
    InvOfPin(s, p);
  }

  lemma SameDataKeeps(s: State, s': State, cell: nat, db: Elements, all: Elements)
    requires Inv(s) && DataInv(s, cell, db, all) && SameData(s, s')
    requires forall c :: c in s'.commits && c !in s.commits ==> PlainTx(cell, all, s'.commits[c].tx)
    ensures DataInv(s', cell, db, all)
  {
    hide Inv, PlainTx, Patch, KeysOfAll;
    SameKeys(s, s', s.InDb());
    forall p | p in s'.pin && HasSnapshot(s'.pin[p])
      ensures s'.pin[p].snapshot == Patch(CellPart(db, cell), all, KeysOfAll(s', s'.pin[p].seen))
    {
      SeenAreKnown(s, p);
      SameKeys(s, s', s.pin[p].seen);
    }
  }

  lemma StoreKeepsData(s: State, c: CommitID, cell: nat, db: Elements, all: Elements)
    requires Inv(s) && DataInv(s, cell, db, all) && Enabled(s, Store(c))
    ensures DataInv(Apply(s, Store(c)), cell, db, all)
  {
    hide Inv, Patch, KeysOfAll, Agrees, KeysOf, Upsert, Written;
    var s' := Apply(s, Store(c));
    var tx := s.commits[c].tx;
    UpsertPatches(s.db, all, tx);
    KeysAreAll(s, cell, db, all, s.InDb());
    PatchTwice(db, all, KeysOfAll(s, s.InDb()), KeysOf(tx));
    assert s'.InDb() == s.InDb() + {c};
    SameKeys(s, s', s.InDb() + {c});
    KeysOfOneMore(s, s.InDb(), c);
    forall p | p in s'.pin && HasSnapshot(s'.pin[p])
      ensures s'.pin[p].snapshot == Patch(CellPart(db, cell), all, KeysOfAll(s', s'.pin[p].seen))
    {
      SeenAreKnown(s, p);
      SameKeys(s, s', s.pin[p].seen);
    }
  }

  lemma KeysOfOneMore(s: State, cs: set<CommitID>, c: CommitID)
    ensures KeysOfAll(s, cs + {c}) == KeysOfAll(s, cs) + KeysOf(TxOf(s, c))
  {
    hide KeysOf;
  }

  lemma KeysAreAll(s: State, cell: nat, db: Elements, all: Elements, cs: set<CommitID>)
    requires DataInv(s, cell, db, all)
    ensures KeysOfAll(s, cs) <= all.Keys
    ensures forall k :: k in KeysOfAll(s, cs) ==> k.cell == cell
  {
    hide Patch, Agrees, Written;
    forall k | k in KeysOfAll(s, cs) ensures k in all && k.cell == cell {
      var c :| c in cs && k in KeysOf(TxOf(s, c));
    }
  }

  lemma SnapshotKeepsData(s: State, p: PinID, cell: nat, db: Elements, all: Elements)
    requires Inv(s) && DataInv(s, cell, db, all) && Enabled(s, TakeSnapshot(p))
    ensures DataInv(Apply(s, TakeSnapshot(p)), cell, db, all)
  {
    hide Inv, Patch, KeysOfAll, PlainTx, CellPart;
    var s' := Apply(s, TakeSnapshot(p));
    KeysAreAll(s, cell, db, all, s.InDb());
    PatchOfCell(db, all, KeysOfAll(s, s.InDb()), cell);
    assert s'.InDb() == s.InDb();
    SameKeys(s, s', s.InDb());
    forall q | q in s.pin ensures KeysOfAll(s, s.pin[q].seen) == KeysOfAll(s', s.pin[q].seen) {
      SameKeys(s, s', s.pin[q].seen);
    }
  }

  lemma {:induction false} RunKeepsData(s: State, steps: seq<Step>, cell: nat, db: Elements, all: Elements, txs: set<Tx>)
    requires Inv(s) && DataInv(s, cell, db, all) && Run(s, steps).Some?
    requires OnlyBegins(steps, txs) && forall tx :: tx in txs ==> PlainTx(cell, all, tx)
    ensures DataInv(Run(s, steps).value, cell, db, all)
    decreases |steps|
  {
    hide Inv, DataInv, Enabled, Apply, PlainTx;
    if steps != [] {
      var s' := Apply(s, steps[0]);
      StepKeeps(s, steps[0]);
      match steps[0] {
        case Store(c) => StoreKeepsData(s, c, cell, db, all);
        case TakeSnapshot(p) => SnapshotKeepsData(s, p, cell, db, all);
        case _ =>
          MostStepsKeepData(s, steps[0]);
          SameDataKeeps(s, s', cell, db, all);
      }
      RunKeepsData(s', steps[1..], cell, db, all, txs);
    }
  }

  // ----- convergence

  function Ids(cs: seq<CommitID>): set<CommitID> { set c | c in cs }

  lemma {:induction false} ShownIsPatch(s: State, m: Elements, pushed: seq<CommitID>, cell: nat, db: Elements, all: Elements)
    requires DataInv(s, cell, db, all) && forall c :: c in pushed ==> c in s.commits
    ensures Shown(s, m, pushed) == Patch(m, all, KeysOfAll(s, Ids(pushed)))
    decreases |pushed|
  {
    hide Patch, KeysOfAll, Agrees, KeysOf, Upsert, Written;
    if pushed == [] {
      NoKeys(s, m, all);
      assert Ids(pushed) == {};
    } else {
      var front, c := pushed[..|pushed| - 1], pushed[|pushed| - 1];
      var before := Ids(front);
      assert pushed == front + [c];
      assert Ids(pushed) == before + {c};
      ShownIsPatch(s, m, front, cell, db, all);
      KeysAreAll(s, cell, db, all, before);
      UpsertPatches(Shown(s, m, front), all, TxOf(s, c));
      PatchTwice(m, all, KeysOfAll(s, before), KeysOf(TxOf(s, c)));
      KeysOfOneMore(s, before, c);
    }
  }

  lemma NoKeys(s: State, m: Elements, all: Elements)
    ensures KeysOfAll(s, {}) == {} && Patch(m, all, {}) == m
  {
  }

  lemma QuietHasAll(s: State, p: PinID)
    requires Inv(s) && Quiet(s, p)
    ensures s.InDb() == s.pin[p].seen + Ids(s.pin[p].pushed)
  {
    hide Inv, PairOk;
    var pin := s.pin[p];
    InvOfPin(s, p);
    assert pin.Received() == pin.pushed;
    forall c | c in s.commits ensures c in s.InDb() <==> c in pin.seen || c in pin.pushed {
      InvOfPair(s, p, c);
      PairAtRest(p, pin, c, s.commits[c]);
    }
  }

  lemma PairAtRest(p: PinID, pin: Pin, c: CommitID, commit: Commit)
    requires PairOk(p, pin, c, commit) && commit.Done() && pin.Synced() && pin.queue == []
    ensures commit.InDb() <==> c in pin.seen || c in pin.pushed
  {
    assert pin.Received() == pin.pushed;
  }

  lemma QuietConverges(s: State, p: PinID, cell: nat, db: Elements, all: Elements)
    requires Inv(s) && DataInv(s, cell, db, all) && Quiet(s, p)
    ensures Shown(s, s.pin[p].snapshot, s.pin[p].pushed) == CellPart(s.db, cell)
  {
    hide Inv, Patch, KeysOfAll, PlainTx, CellPart;
    var pin := s.pin[p];
    var seen, pushed := KeysOfAll(s, pin.seen), KeysOfAll(s, Ids(pin.pushed));
    QuietHasAll(s, p);
    SeenAreKnown(s, p);
    ShownIsPatch(s, pin.snapshot, pin.pushed, cell, db, all);
    KeysAreAll(s, cell, db, all, pin.seen);
    KeysAreAll(s, cell, db, all, Ids(pin.pushed));
    PatchTwice(CellPart(db, cell), all, seen, pushed);
    KeysOfBoth(s, pin.seen, Ids(pin.pushed));
    KeysAreAll(s, cell, db, all, s.InDb());
    PatchOfCell(db, all, KeysOfAll(s, s.InDb()), cell);
  }

  lemma KeysOfBoth(s: State, a: set<CommitID>, b: set<CommitID>)
    ensures KeysOfAll(s, a + b) == KeysOfAll(s, a) + KeysOfAll(s, b)
  {
    hide KeysOf;
  }

  lemma PlainTxs(cell: nat, txs: set<Tx>) returns (all: Elements)
    requires Plain(cell, txs)
    ensures forall tx :: tx in txs ==> PlainTx(cell, all, tx)
  {
    hide Upsert, Written;
    all := AllValues(cell, txs);
    forall tx | tx in txs ensures PlainTx(cell, all, tx) {
      AllWritten(tx);
      EffectKeys(tx);
    }
  }

  /** Under plain transactions every schedule converges, whatever the order of delivery. */
  lemma PlainConverges(cell: nat, db: Elements, txs: set<Tx>, steps: seq<Step>, p: PinID)
    requires Plain(cell, txs)
    ensures Converges(cell, db, txs, steps, p)
  {
    hide Inv, DataInv, Plain, Run, PlainTx, Shown, CellPart;
    var all := PlainTxs(cell, txs);
    if OnlyBegins(steps, txs) && Run(Init(cell, db), steps).Some? {
      var s := Run(Init(cell, db), steps).value;
      InitOk(cell, db);
      InitData(cell, db, all);
      RunKeeps(Init(cell, db), steps);
      RunKeepsData(Init(cell, db), steps, cell, db, all, txs);
      if Quiet(s, p) { QuietConverges(s, p, cell, db, all); }
    }
  }

  lemma InitData(cell: nat, db: Elements, all: Elements)
    ensures DataInv(Init(cell, db), cell, db, all)
  {
    hide Patch, KeysOfAll;
    NoKeys(Init(cell, db), db, all);
    assert Init(cell, db).InDb() == {};
  }

  // ----- transactions that are not plain: a schedule that does not converge

  lemma {:induction false} RunThen(s: State, steps: seq<Step>, mid: State, step: Step)
    requires Run(s, steps) == Some(mid) && Enabled(mid, step)
    ensures Run(s, steps + [step]) == Some(Apply(mid, step))
    decreases |steps|
  {
    hide Enabled, Apply;
    if steps == [] {
      assert [] + [step] == [step] && [step][1..] == [];
      RunNothing(Apply(mid, step));
    } else {
      assert (steps + [step])[1..] == steps[1..] + [step];
      RunThen(Apply(s, steps[0]), steps[1..], mid, step);
    }
  }

  lemma RunNothing(s: State)
    ensures Run(s, []) == Some(s)
  {
  }

  const JOIN: seq<Step> := [] + [Launch(0)] + [AddSync(0)] + [LoadRev(0)] + [TakeSnapshot(0)] + [PushSnapshot(0, true)]

  /** One pin, and commits of two transactions. */
  function OnePin(cell: nat, db: Elements, rev: nat, counted: set<CommitID>, pins: seq<PinID>, pin: Pin,
                  commits: map<CommitID, Commit>): State
  {
    State(cell, db, rev, counted, pins, map[0 := pin], commits)
  }

  function LivePin(cell: nat, db: Elements, queue: seq<CommitID>, pushed: seq<CommitID>): Pin {
    Pin(Live, false, 0, {}, {}, CellPart(db, cell), queue, pushed)
  }

  /** The step is possible and leads to that state. */
  predicate Leads(s: State, step: Step, s': State) { Enabled(s, step) && Apply(s, step) == s' }

  lemma PinSet(v: Pin, v': Pin)
    ensures map[0 := v][0 := v'] == map[0 := v']
  {
  }

  lemma CommitSet(a: Commit, b: Commit, a': Commit, b': Commit)
    ensures map[0 := a, 1 := b][0 := a'] == map[0 := a', 1 := b]
    ensures map[0 := a, 1 := b][1 := b'] == map[0 := a, 1 := b']
  {
  }

  lemma Joins(cell: nat, db: Elements, s1: State, s2: State, s3: State)
    requires s1 == OnePin(cell, db, 0, {}, [], Pin(Launched, false, 0, {}, {}, map[], [], []), map[])
    requires s2 == OnePin(cell, db, 0, {}, [0], Pin(Subscribed, false, 0, {}, {}, map[], [], []), map[])
    requires s3 == OnePin(cell, db, 0, {}, [0], Pin(RevLoaded, false, 0, {}, {}, map[], [], []), map[])
    ensures Leads(Init(cell, db), Launch(0), s1) && Leads(s1, AddSync(0), s2) && Leads(s2, LoadRev(0), s3)
  {
    hide CellPart, Upsert, Written, Try, Sent, Delivered, Without;
    assert [] + [0] == [0];
    PinSet(s1.pin[0], s2.pin[0]);
    PinSet(s2.pin[0], s3.pin[0]);
  }

  lemma Syncs(cell: nat, db: Elements, s3: State, s4: State, s5: State)
    requires s3 == OnePin(cell, db, 0, {}, [0], Pin(RevLoaded, false, 0, {}, {}, map[], [], []), map[])
    requires s4 == OnePin(cell, db, 0, {}, [0], Pin(Snapped, false, 0, {}, {}, CellPart(db, cell), [], []), map[])
    requires s5 == OnePin(cell, db, 0, {}, [0], LivePin(cell, db, [], []), map[])
    ensures Leads(s3, TakeSnapshot(0), s4) && Leads(s4, PushSnapshot(0, true), s5)
  {
    hide CellPart, Upsert, Written, Try, Sent, Delivered, Without;
    assert s3.InDb() == {};
    PinSet(s3.pin[0], s4.pin[0]);
    PinSet(s4.pin[0], s5.pin[0]);
  }

  lemma JoinRuns(cell: nat, db: Elements)
    ensures Run(Init(cell, db), JOIN) == Some(OnePin(cell, db, 0, {}, [0], LivePin(cell, db, [], []), map[]))
  {
    hide Run, CellPart, Apply, Enabled, OnePin, LivePin;
    var s0 := Init(cell, db);
    var s1 := OnePin(cell, db, 0, {}, [], Pin(Launched, false, 0, {}, {}, map[], [], []), map[]);
    var s2 := OnePin(cell, db, 0, {}, [0], Pin(Subscribed, false, 0, {}, {}, map[], [], []), map[]);
    var s3 := OnePin(cell, db, 0, {}, [0], Pin(RevLoaded, false, 0, {}, {}, map[], [], []), map[]);
    var s4 := OnePin(cell, db, 0, {}, [0], Pin(Snapped, false, 0, {}, {}, CellPart(db, cell), [], []), map[]);
    Joins(cell, db, s1, s2, s3);
    Syncs(cell, db, s3, s4, OnePin(cell, db, 0, {}, [0], LivePin(cell, db, [], []), map[]));
    RunNothing(s0);
    RunThen(s0, [], s0, Launch(0));
    RunThen(s0, [] + [Launch(0)], s1, AddSync(0));
    RunThen(s0, [] + [Launch(0)] + [AddSync(0)], s2, LoadRev(0));
    RunThen(s0, [] + [Launch(0)] + [AddSync(0)] + [LoadRev(0)], s3, TakeSnapshot(0));
    RunThen(s0, [] + [Launch(0)] + [AddSync(0)] + [LoadRev(0)] + [TakeSnapshot(0)], s4, PushSnapshot(0, true));
  }

  /** Two transactions stored in one order and delivered in the other. */
  function Crossing(a: Tx, b: Tx): seq<Step> {
    JOIN + [Begin(0, a)] + [Begin(1, b)] + [Store(0)] + [Store(1)] + [Count(0)] + [Count(1)] + [CopyPins(0)] + [CopyPins(1)]
    + [TrySend(1)] + [TrySend(0)] + [PushChange(0, true)] + [PushChange(0, true)]
  }

  function TwoCommits(cell: nat, db: Elements, now: Elements, counted: set<CommitID>, a: Commit, b: Commit,
                      queue: seq<CommitID>, pushed: seq<CommitID>): State
  {
    OnePin(cell, now, |counted|, counted, [0], LivePin(cell, db, queue, pushed), map[0 := a, 1 := b])
  }

  lemma Begins(cell: nat, db: Elements, a: Tx, b: Tx, s1: State, s2: State, s3: State)
    requires a != [] && b != []
    requires s1 == OnePin(cell, db, 0, {}, [0], LivePin(cell, db, [], []), map[])
    requires s2 == OnePin(cell, db, 0, {}, [0], LivePin(cell, db, [], []), map[0 := Commit(a, Running)])
    requires s3 == TwoCommits(cell, db, db, {}, Commit(a, Running), Commit(b, Running), [], [])
    ensures Leads(s1, Begin(0, a), s2) && Leads(s2, Begin(1, b), s3)
  {
    hide CellPart, Upsert, Written, Try, Sent, Delivered, Without;
  }

  lemma Stores(cell: nat, db: Elements, a: Tx, b: Tx, now: Elements, s1: State, s2: State, s3: State)
    requires now == Upsert(db, Written(a))
    requires s1 == TwoCommits(cell, db, db, {}, Commit(a, Running), Commit(b, Running), [], [])
    requires s2 == TwoCommits(cell, db, now, {}, Commit(a, Stored), Commit(b, Running), [], [])
    requires s3 == TwoCommits(cell, db, Upsert(now, Written(b)), {}, Commit(a, Stored), Commit(b, Stored), [], [])
    ensures Leads(s1, Store(0), s2) && Leads(s2, Store(1), s3)
  {
    hide CellPart, Upsert, Written, Try, Sent, Delivered, Without;
    CommitSet(s1.commits[0], s1.commits[1], s2.commits[0], s2.commits[1]);
    CommitSet(s2.commits[0], s2.commits[1], s3.commits[0], s3.commits[1]);
  }

  lemma Counts(cell: nat, db: Elements, now: Elements, a: Tx, b: Tx, s1: State, s2: State, s3: State)
    requires s1 == TwoCommits(cell, db, now, {}, Commit(a, Stored), Commit(b, Stored), [], [])
    requires s2 == TwoCommits(cell, db, now, {0}, Commit(a, Counted), Commit(b, Stored), [], [])
    requires s3 == TwoCommits(cell, db, now, {0, 1}, Commit(a, Counted), Commit(b, Counted), [], [])
    ensures Leads(s1, Count(0), s2) && Leads(s2, Count(1), s3)
  {
    hide CellPart, Upsert, Written, Try, Sent, Delivered, Without;
    assert {} + {0} == {0} && {0} + {1} == {0, 1} && |{0, 1}| == 2;
    CommitSet(s1.commits[0], s1.commits[1], s2.commits[0], s2.commits[1]);
    CommitSet(s2.commits[0], s2.commits[1], s3.commits[0], s3.commits[1]);
  }

  lemma Copies(cell: nat, db: Elements, now: Elements, a: Tx, b: Tx, s1: State, s2: State, s3: State)
    requires s1 == TwoCommits(cell, db, now, {0, 1}, Commit(a, Counted), Commit(b, Counted), [], [])
    requires s2 == TwoCommits(cell, db, now, {0, 1}, Commit(a, Pushing([0], [])), Commit(b, Counted), [], [])
    requires s3 == TwoCommits(cell, db, now, {0, 1}, Commit(a, Pushing([0], [])), Commit(b, Pushing([0], [])), [], [])
    ensures Leads(s1, CopyPins(0), s2) && Leads(s2, CopyPins(1), s3)
  {
    hide CellPart, Upsert, Written, Try, Sent, Delivered, Without;
    CommitSet(s1.commits[0], s1.commits[1], s2.commits[0], s2.commits[1]);
    CommitSet(s2.commits[0], s2.commits[1], s3.commits[0], s3.commits[1]);
  }

  lemma Sends(cell: nat, db: Elements, now: Elements, a: Tx, b: Tx, s1: State, s2: State, s3: State)
    requires s1 == TwoCommits(cell, db, now, {0, 1}, Commit(a, Pushing([0], [])), Commit(b, Pushing([0], [])), [], [])
    requires s2 == TwoCommits(cell, db, now, {0, 1}, Commit(a, Pushing([0], [])), Commit(b, Pushing([], [])), [1], [])
    requires s3 == TwoCommits(cell, db, now, {0, 1}, Commit(a, Pushing([], [])), Commit(b, Pushing([], [])), [1, 0], [])
    ensures Leads(s1, TrySend(1), s2) && Leads(s2, TrySend(0), s3)
  {
    hide CellPart, Upsert, Written, Delivered, Without;
    var one: seq<PinID> := [0];
    assert one[1..] == [] && [] + [1] == [1] && [1] + [0] == [1, 0];
    CommitSet(s1.commits[0], s1.commits[1], s2.commits[0], s2.commits[1]);
    CommitSet(s2.commits[0], s2.commits[1], s3.commits[0], s3.commits[1]);
    PinSet(s1.pin[0], s2.pin[0]);
    PinSet(s2.pin[0], s3.pin[0]);
  }

  lemma Pushes(cell: nat, db: Elements, now: Elements, a: Commit, b: Commit, s1: State, s2: State, s3: State)
    requires s1 == TwoCommits(cell, db, now, {0, 1}, a, b, [1, 0], [])
    requires s2 == TwoCommits(cell, db, now, {0, 1}, a, b, [0], [1])
    requires s3 == TwoCommits(cell, db, now, {0, 1}, a, b, [], [1, 0])
    ensures Leads(s1, PushChange(0, true), s2) && Leads(s2, PushChange(0, true), s3)
  {
    hide CellPart, Upsert, Written, Try, Sent, Without;
    assert [1, 0][1..] == [0] && [0][1..] == [] && [] + [1] == [1] && [1] + [0] == [1, 0];
    PinSet(s1.pin[0], s2.pin[0]);
    PinSet(s2.pin[0], s3.pin[0]);
  }

  /** Where the crossing schedule ends. */
  function Crossed(cell: nat, db: Elements, a: Tx, b: Tx): State {
    TwoCommits(cell, db, Upsert(Upsert(db, Written(a)), Written(b)), {0, 1}, Commit(a, Pushing([], [])), Commit(b, Pushing([], [])),
               [], [1, 0])
  }

  lemma CrossingRuns(cell: nat, db: Elements, a: Tx, b: Tx)
    requires a != [] && b != []
    ensures Run(Init(cell, db), Crossing(a, b)) == Some(Crossed(cell, db, a, b))
  {
    hide Run, CellPart, Apply, Enabled, OnePin, LivePin, TwoCommits, JOIN;
    var now1 := Upsert(db, Written(a));
    var now := Upsert(now1, Written(b));
    var pa, pb := Commit(a, Pushing([0], [])), Commit(b, Pushing([0], []));
    var doneA, doneB := Commit(a, Pushing([], [])), Commit(b, Pushing([], []));
    var s0, r0 := Init(cell, db), JOIN;
    var s1 := OnePin(cell, db, 0, {}, [0], LivePin(cell, db, [], []), map[]);
    var s2 := OnePin(cell, db, 0, {}, [0], LivePin(cell, db, [], []), map[0 := Commit(a, Running)]);
    var s3 := TwoCommits(cell, db, db, {}, Commit(a, Running), Commit(b, Running), [], []);
    var s4 := TwoCommits(cell, db, now1, {}, Commit(a, Stored), Commit(b, Running), [], []);
    var s5 := TwoCommits(cell, db, now, {}, Commit(a, Stored), Commit(b, Stored), [], []);
    var s6 := TwoCommits(cell, db, now, {0}, Commit(a, Counted), Commit(b, Stored), [], []);
    var s7 := TwoCommits(cell, db, now, {0, 1}, Commit(a, Counted), Commit(b, Counted), [], []);
    var s8 := TwoCommits(cell, db, now, {0, 1}, pa, Commit(b, Counted), [], []);
    var s9 := TwoCommits(cell, db, now, {0, 1}, pa, pb, [], []);
    var s10 := TwoCommits(cell, db, now, {0, 1}, pa, doneB, [1], []);
    var s11 := TwoCommits(cell, db, now, {0, 1}, doneA, doneB, [1, 0], []);
    var s12 := TwoCommits(cell, db, now, {0, 1}, doneA, doneB, [0], [1]);
    JoinRuns(cell, db);
    Begins(cell, db, a, b, s1, s2, s3);
    Stores(cell, db, a, b, now1, s3, s4, s5);
    Counts(cell, db, now, a, b, s5, s6, s7);
    Copies(cell, db, now, a, b, s7, s8, s9);
    Sends(cell, db, now, a, b, s9, s10, s11);
    Pushes(cell, db, now, doneA, doneB, s11, s12, Crossed(cell, db, a, b));
    RunThen(s0, r0, s1, Begin(0, a));
    RunThen(s0, r0 + [Begin(0, a)], s2, Begin(1, b));
    var r3 := r0 + [Begin(0, a)] + [Begin(1, b)];
    RunThen(s0, r3, s3, Store(0));
    RunThen(s0, r3 + [Store(0)], s4, Store(1));
    var r5 := r3 + [Store(0)] + [Store(1)];
    RunThen(s0, r5, s5, Count(0));
    RunThen(s0, r5 + [Count(0)], s6, Count(1));
    var r7 := r5 + [Count(0)] + [Count(1)];
    RunThen(s0, r7, s7, CopyPins(0));
    RunThen(s0, r7 + [CopyPins(0)], s8, CopyPins(1));
    var r9 := r7 + [CopyPins(0)] + [CopyPins(1)];
    RunThen(s0, r9, s9, TrySend(1));
    RunThen(s0, r9 + [TrySend(1)], s10, TrySend(0));
    var r11 := r9 + [TrySend(1)] + [TrySend(0)];
    RunThen(s0, r11, s11, PushChange(0, true));
    RunThen(s0, r11 + [PushChange(0, true)], s12, PushChange(0, true));
  }

  lemma CrossingBegins(a: Tx, b: Tx, txs: set<Tx>)
    requires a in txs && b in txs
    ensures OnlyBegins(Crossing(a, b), txs)
  {
    var steps := Crossing(a, b);
    forall i | 0 <= i < |steps| && steps[i].Begin? ensures steps[i].tx in txs {
      assert JOIN == [Launch(0), AddSync(0), LoadRev(0), TakeSnapshot(0), PushSnapshot(0, true)];
      assert steps == JOIN + [Begin(0, a), Begin(1, b)] + steps[7..];
    }
  }

  lemma CrossedShows(cell: nat, db: Elements, a: Tx, b: Tx)
    ensures var s := Crossed(cell, db, a, b);
            && Quiet(s, 0)
            && s.pin[0].snapshot == CellPart(db, cell)
            && Shown(s, s.pin[0].snapshot, s.pin[0].pushed) == Upsert(Upsert(CellPart(db, cell), b), a)
  {
    hide Upsert, CellPart, Written, Shown;
    ShownTwo(Crossed(cell, db, a, b), CellPart(db, cell), 1, 0);
  }

  lemma ShownTwo(s: State, m: Elements, first: CommitID, second: CommitID)
    ensures Shown(s, m, [first, second]) == Upsert(Upsert(m, TxOf(s, first)), TxOf(s, second))
  {
    hide Upsert, TxOf;
    assert [first, second][..1] == [first] && [first][..0] == [];
    assert Shown(s, m, []) == m && Shown(s, m, [first]) == Upsert(m, TxOf(s, first));
  }

  lemma {:induction false} WrittenNamesEdits(tx: Tx)
    ensures forall op :: op in Written(tx) ==> op.key.edit != 0
  {
    if tx != [] { WrittenNamesEdits(tx[1..]); }
  }

  /** After a crossing of a and b the client has a's value of a key they disagree on, and any key of theirs. */
  lemma CrossingDiffers(cell: nat, db: Elements, txs: set<Tx>, a: Tx, b: Tx)
    requires a in txs && b in txs && a != [] && b != []
    requires forall k :: k in db ==> k.edit != 0
    requires || (exists k :: k in Effects(a) && (k.cell != cell || k.edit == 0))
             || (Plain(cell, {a}) && Plain(cell, {b}) && exists k :: k in Effects(a) && k in Effects(b) && Effects(a)[k] != Effects(b)[k])
    ensures !Converges(cell, db, txs, Crossing(a, b), 0)
  {
    hide Run, Upsert, Crossing, Written;
    CrossingRuns(cell, db, a, b);
    CrossingBegins(a, b, txs);
    CrossedShows(cell, db, a, b);
    var now1 := Upsert(db, Written(a));
    UpsertOverrides(Upsert(CellPart(db, cell), b), a);
    UpsertOverrides(now1, Written(b));
    UpsertOverrides(db, Written(a));
    if k :| k in Effects(a) && (k.cell != cell || k.edit == 0) {
      EffectKeys(Written(a));
      EffectKeys(Written(b));
      WrittenNamesEdits(a);
      WrittenNamesEdits(b);
      assert k !in CellPart(Upsert(now1, Written(b)), cell);
    } else {
      var k :| k in Effects(a) && k in Effects(b) && Effects(a)[k] != Effects(b)[k];
      AllWritten(b);
    }
  }

  /** Every pin, in every schedule of commits of these transactions, ends with the stored map: exactly when they are plain. */
  lemma ViewsConverge(cell: nat, db: Elements, txs: set<Tx>)
    requires forall k :: k in db ==> k.edit != 0
    ensures Plain(cell, txs) <==> forall steps, p :: Converges(cell, db, txs, steps, p)
  {
    hide Converges;
    if Plain(cell, txs) {
      forall steps, p ensures Converges(cell, db, txs, steps, p) {
        PlainConverges(cell, db, txs, steps, p);
      }
    } else {
      var a, b := NotPlain(cell, txs);
      CrossingDiffers(cell, db, txs, a, b);
    }
  }

  lemma NotPlain(cell: nat, txs: set<Tx>) returns (a: Tx, b: Tx)
    requires !Plain(cell, txs)
    ensures a in txs && b in txs && a != [] && b != []
    ensures || (exists k :: k in Effects(a) && (k.cell != cell || k.edit == 0))
            || (Plain(cell, {a}) && Plain(cell, {b}) && exists k :: k in Effects(a) && k in Effects(b) && Effects(a)[k] != Effects(b)[k])
  {
    hide Upsert;
    if tx, op :| tx in txs && op in tx && (op.key.cell != cell || op.key.edit == 0) {
      a, b := tx, tx;
      EffectKeys(tx);
      assert op.key in Effects(tx);
    } else {
      var a', b', k :| a' in txs && b' in txs && k in Effects(a') && k in Effects(b') && Effects(a')[k] != Effects(b')[k];
      a, b := a', b';
      UpsertNothing(map[]);
    }
  }
}
