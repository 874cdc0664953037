/** What a schedule did: the fate of its commits, what they left in the database, and what a pin got, in order. */
module CellHistory {
  import opened Wrappers
  import opened Bytes
  import opened CellSync

  // ----- the fate of a commit

  ghost predicate Began(steps: seq<Step>, c: CommitID) { exists tx :: Begin(c, tx) in steps }

  predicate IsInDb(s: State, c: CommitID) { c in s.commits && s.commits[c].InDb() }

  lemma StepFate(s: State, step: Step, c: CommitID)
    requires Enabled(s, step)
    ensures var s' := Apply(s, step);
            && (c in s'.commits <==> c in s.commits || (step.Begin? && step.c == c))
            && (c in s.commits ==> s'.commits[c].tx == s.commits[c].tx)
            && (c in s'.commits && c !in s.commits ==> s'.commits[c].tx == step.tx)
            && (IsInDb(s', c) <==> IsInDb(s, c) || step == Store(c))
            && (InPhase(s', c, Failed) <==> InPhase(s, c, Failed) || step == Fail(c))
  {
    hide Without, Upsert, Written, CellPart, Delivered;
    if step.Send? || step.TrySend? {
      SendFate(s, step, c);
    }
  }

  lemma SendFate(s: State, step: Step, c: CommitID)
    requires Enabled(s, step) && (step.Send? || step.TrySend?)
    ensures var s' := Apply(s, step);
            && (c in s'.commits <==> c in s.commits)
            && (c in s.commits ==> s'.commits[c].tx == s.commits[c].tx)
            && (IsInDb(s', c) <==> IsInDb(s, c)) && (InPhase(s', c, Failed) <==> InPhase(s, c, Failed))
  {
  }

  lemma {:induction false} RunFate(s: State, steps: seq<Step>, c: CommitID)
    requires Run(s, steps).Some?
    ensures var s' := Run(s, steps).value;
            && (c in s'.commits <==> c in s.commits || Began(steps, c))
            && (c in s.commits ==> s'.commits[c].tx == s.commits[c].tx)
            && (forall tx :: Begin(c, tx) in steps ==> c in s'.commits && s'.commits[c].tx == tx)
            && (IsInDb(s', c) <==> IsInDb(s, c) || Store(c) in steps)
            && (InPhase(s', c, Failed) <==> InPhase(s, c, Failed) || Fail(c) in steps)
    decreases |steps|
  {
    hide Apply, IsInDb;
    if steps != [] {
      StepFate(s, steps[0], c);
      RunFate(Apply(s, steps[0]), steps[1..], c);
      assert steps == [steps[0]] + steps[1..];
      assert Enabled(s, steps[0]);
      if Began(steps, c) && c !in s.commits && !steps[0].Begin? {
        var tx :| Begin(c, tx) in steps;
        assert Begin(c, tx) in steps[1..];
      }
    }
  }

  /** In every interleaving: a commit that began keeps its transaction; it is in the database exactly when it was stored, and
      it failed exactly when it met an error that is not a conflict. So one that is over without such an error was stored. */
  lemma CommitFate(cell: nat, db: Elements, steps: seq<Step>, c: CommitID)
    requires Run(Init(cell, db), steps).Some?
    ensures var s := Run(Init(cell, db), steps).value;
            && (c in s.commits <==> Began(steps, c))
            && (forall tx :: Begin(c, tx) in steps ==> s.commits[c].tx == tx)
            && (IsInDb(s, c) <==> Store(c) in steps)
            && (InPhase(s, c, Failed) <==> Fail(c) in steps)
            && (c in s.commits && s.commits[c].Done() && Fail(c) !in steps ==> Store(c) in steps && s.commits[c].InDb())
  {
    RunFate(Init(cell, db), steps, c);
  }

  /** However often it conflicts, a commit can go on to be stored, as if it had not. */
  lemma {:induction false} RetriedUntilStored(s: State, c: CommitID, n: nat)
    requires InPhase(s, c, Running)
    ensures Run(s, seq(n, _ => Conflict(c)) + [Store(c)]) == Run(s, [Store(c)])
    ensures Run(s, [Store(c)]).Some? && IsInDb(Run(s, [Store(c)]).value, c)
    decreases n
  {
    hide Upsert, Written;
    var store: seq<Step>, retries: seq<Step> := [Store(c)], seq(n, _ => Conflict(c));
    assert store[1..] == [];
    if n == 0 {
      assert retries + store == store;
    } else {
      RetriedUntilStored(s, c, n - 1);
      assert (retries + store)[1..] == seq(n - 1, _ => Conflict(c)) + store;
      assert (retries + store)[0] == Conflict(c);
    }
  }

  // ----- what the commits leave in the database

  /** The operations without an edit are left out, and no other; the rest keep their order. */
  lemma {:induction false} WrittenKeeps(tx: Tx, op: Op)
    ensures multiset(Written(tx))[op] == if op.key.edit == 0 then 0 else multiset(tx)[op]
  {
    if tx != [] {
      WrittenKeeps(tx[1..], op);
      assert tx == [tx[0]] + tx[1..];
    }
  }

  lemma WrittenFirst(tx: Tx)
    ensures Written(tx) == if tx == [] then [] else (if tx[0].key.edit == 0 then [] else [tx[0]]) + Written(tx[1..])
  {
  }

  lemma {:induction false} WrittenAppend(a: Tx, b: Tx)
    ensures Written(a + b) == Written(a) + Written(b)
  {
    hide Written;
    WrittenFirst(a);
    WrittenFirst(a + b);
    if a == [] {
      assert a + b == b;
    } else {
      WrittenAppend(a[1..], b);
      assert (a + b)[1..] == a[1..] + b;
    }
  }

  lemma {:induction false} UpsertAppend(m: Elements, a: Tx, b: Tx)
    ensures Upsert(m, a + b) == Upsert(Upsert(m, a), b)
    decreases |a|
  {
    if a == [] {
      assert a + b == b;
    } else {
      UpsertAppend(m[a[0].key := a[0].value], a[1..], b);
      assert (a + b)[1..] == a[1..] + b;
    }
  }

  /** A key holds the value of the last operation on it; without one, what it held in m, if anything. */
  ghost predicate HoldsLast(m: Elements, tx: Tx, k: Key, m': Elements) {
    if forall op :: op in tx ==> op.key != k then (k in m' <==> k in m) && (k in m ==> m'[k] == m[k])
    else k in m' && exists i :: 0 <= i < |tx| && tx[i] == Op(k, m'[k]) && forall j :: i < j < |tx| ==> tx[j].key != k
  }

  lemma HoldsLastAfter(m: Elements, tx: Tx, last: Op, k: Key, m': Elements)
    requires HoldsLast(m, tx, k, m')
    ensures HoldsLast(m, tx + [last], k, m'[last.key := last.value])
  {
    var all := tx + [last];
    assert all[|tx|] == last && forall i :: 0 <= i < |tx| ==> all[i] == tx[i];
    if last.key == k {
      assert all[|tx|] == Op(k, last.value);
    } else if op :| op in tx && op.key == k {
      assert op in all;
    }
  }

  lemma {:induction false} UpsertHoldsLast(m: Elements, tx: Tx, k: Key)
    ensures HoldsLast(m, tx, k, Upsert(m, tx))
    decreases |tx|
  {
    hide Upsert;
    UpsertNothing(m);
    if tx != [] {
      hide HoldsLast;
      var (last, rest) := (tx[|tx| - 1], tx[..|tx| - 1]);
      assert tx == rest + [last];
      UpsertHoldsLast(m, rest, k);
      HoldsLastAfter(m, rest, last, k, Upsert(m, rest));
      UpsertAppend(m, rest, [last]);
      UpsertFirst(Upsert(m, rest), [last]);
      assert [last][1..] == [];
      UpsertNothing(Upsert(m, rest)[last.key := last.value]);
    }
  }

  /** What the Store steps of a schedule wrote, in their order. */
  function StoredOps(commits: map<CommitID, Commit>, steps: seq<Step>): Tx {
    if steps == [] then []
    else (if steps[0].Store? && steps[0].c in commits then Written(commits[steps[0].c].tx) else []) + StoredOps(commits, steps[1..])
  }

  lemma StepDb(s: State, step: Step)
    requires Enabled(s, step)
    ensures Apply(s, step).db == if step.Store? then Upsert(s.db, Written(s.commits[step.c].tx)) else s.db
    ensures Apply(s, step).cell == s.cell
  {
    hide Without, Upsert, Written, CellPart, Delivered;
  }

  lemma {:induction false} RunDb(s: State, steps: seq<Step>)
    requires Run(s, steps).Some?
    ensures Run(s, steps).value.db == Upsert(s.db, StoredOps(Run(s, steps).value.commits, steps))
    ensures Run(s, steps).value.cell == s.cell
    decreases |steps|
  {
    hide Apply, Upsert, Written;
    if steps == [] {
      UpsertNothing(s.db);
    } else {
      var (s1, s') := (Apply(s, steps[0]), Run(s, steps).value);
      StepDb(s, steps[0]);
      RunDb(s1, steps[1..]);
      if steps[0].Store? {
        RunFate(s, steps, steps[0].c);
        UpsertAppend(s.db, Written(s.commits[steps[0].c].tx), StoredOps(s'.commits, steps[1..]));
      } else {
        assert [] + StoredOps(s'.commits, steps[1..]) == StoredOps(s'.commits, steps[1..]);
      }
    }
  }

  /** In every interleaving the database holds the last value that a stored commit wrote for a key, and else what it held;
      what they wrote are their operations with an edit. */
  lemma DbHoldsWhatWasStored(cell: nat, db: Elements, steps: seq<Step>, k: Key)
    requires Run(Init(cell, db), steps).Some?
    ensures var s := Run(Init(cell, db), steps).value;
            var ops := StoredOps(s.commits, steps);
            && HoldsLast(db, ops, k, s.db)
            && forall op :: op in ops
                       <==> exists c :: Store(c) in steps && c in s.commits && op in s.commits[c].tx && op.key.edit != 0
  {
    hide Run, Upsert, StoredOps, HoldsLast;
    RunDb(Init(cell, db), steps);
    var s := Run(Init(cell, db), steps).value;
    UpsertHoldsLast(db, StoredOps(s.commits, steps), k);
    StoredOpsAre(s.commits, steps);
  }

  lemma {:induction false} StoredOpsAre(commits: map<CommitID, Commit>, steps: seq<Step>)
    ensures forall op :: op in StoredOps(commits, steps)
                    <==> exists c :: Store(c) in steps && c in commits && op in commits[c].tx && op.key.edit != 0
  {
    hide Written;
    if steps != [] {
      var (first, rest) := (steps[0], steps[1..]);
      assert steps == [first] + rest;
      StoredOpsAre(commits, rest);
      forall op
        ensures op in StoredOps(commits, steps)
           <==> exists c :: Store(c) in steps && c in commits && op in commits[c].tx && op.key.edit != 0
      {
        if first.Store? && first.c in commits { WrittenKeeps(commits[first.c].tx, op); }
        if op in StoredOps(commits, rest) {
          var c :| Store(c) in rest && c in commits && op in commits[c].tx && op.key.edit != 0;
          assert Store(c) in steps;
        }
      }
    }
  }

  // ----- what a pin got

  /** The snapshot of a pin is read. */
  predicate HasRead(pin: Pin) { pin.phase !in {Launched, Subscribed, RevLoaded} }

  ghost predicate GoesOn(pin: Pin, pin': Pin, failed: bool) {
    && pin.pushed <= pin'.pushed
    && (!failed ==> pin.Received() <= pin'.Received())
    && (HasRead(pin) ==> HasRead(pin') && pin'.snapshot == pin.snapshot && pin'.seen == pin.seen)
  }

  lemma DeliveredGoesOn(pin: Pin, ok: bool)
    requires pin.queue != [] && HasRead(pin)
    ensures GoesOn(pin, Delivered(pin, ok), !ok)
  {
    var pin' := Delivered(pin, ok);
    if ok {
      assert pin.Received() == pin.pushed + ([pin.queue[0]] + pin.queue[1..]) == pin'.Received();
    }
  }

  lemma QueuedGoesOn(pin: Pin, c: CommitID)
    ensures GoesOn(pin, pin.(queue := pin.queue + [c]), false)
  {
    assert pin.(queue := pin.queue + [c]).Received() == pin.Received() + [c];
  }

  lemma StepHistory(s: State, step: Step, p: PinID)
    requires Enabled(s, step) && p in s.pin
    ensures p in Apply(s, step).pin && GoesOn(s.pin[p], Apply(s, step).pin[p], step == PushChange(p, false))
  {
    hide Without, Upsert, Written, CellPart, Delivered, GoesOn;
    if step.PushChange? && step.p == p {
      DeliveredGoesOn(s.pin[p], step.ok);
    } else if step.Send? || step.TrySend? {
      QueuedGoesOn(s.pin[p], step.c);
      StaysOn(s.pin[p], s.pin[p]);
    } else {
      QuietStep(s, step, p);
      StaysOn(s.pin[p], Apply(s, step).pin[p]);
    }
  }

  lemma QuietStep(s: State, step: Step, p: PinID)
    requires Enabled(s, step) && p in s.pin && !step.Send? && !step.TrySend? && !(step.PushChange? && step.p == p)
    ensures p in Apply(s, step).pin
    ensures var (pin, pin') := (s.pin[p], Apply(s, step).pin[p]);
            && pin'.pushed == pin.pushed && pin'.queue == pin.queue
            && (HasRead(pin) ==> HasRead(pin') && pin'.snapshot == pin.snapshot && pin'.seen == pin.seen)
  {
    hide Without, Upsert, Written, CellPart, Delivered;
  }

  lemma StaysOn(pin: Pin, pin': Pin)
    requires pin'.pushed == pin.pushed && pin'.queue == pin.queue
    requires HasRead(pin) ==> HasRead(pin') && pin'.snapshot == pin.snapshot && pin'.seen == pin.seen
    ensures GoesOn(pin, pin', false) && GoesOn(pin, pin', true)
  {
  }

  /** Whatever goes on: what a pin was pushed is neither taken back nor reordered; its snapshot stays what it was; and until a
      push fails, it is pushed what it was sent, in the order it was sent. */
  lemma {:induction false} RunHistory(s: State, steps: seq<Step>, p: PinID)
    requires Run(s, steps).Some? && p in s.pin
    ensures p in Run(s, steps).value.pin
         && GoesOn(s.pin[p], Run(s, steps).value.pin[p], PushChange(p, false) in steps)
    decreases |steps|
  {
    hide Apply, Enabled, Pin.Received;
    if steps != [] {
      StepHistory(s, steps[0], p);
      RunHistory(Apply(s, steps[0]), steps[1..], p);
      assert steps == [steps[0]] + steps[1..];
    }
  }

  lemma StoppedStep(s: State, step: Step, p: PinID)
    requires Enabled(s, step) && PinInPhase(s, p, Stopped)
    ensures PinInPhase(Apply(s, step), p, Stopped) && Apply(s, step).pin[p].pushed == s.pin[p].pushed
  {
    hide Without, Upsert, Written, CellPart;
  }

  lemma {:induction false} StaysStopped(s: State, steps: seq<Step>, p: PinID)
    requires PinInPhase(s, p, Stopped) && Run(s, steps).Some?
    ensures PinInPhase(Run(s, steps).value, p, Stopped) && Run(s, steps).value.pin[p].pushed == s.pin[p].pushed
    decreases |steps|
  {
    hide Apply, Enabled;
    if steps != [] {
      StoppedStep(s, steps[0], p);
      StaysStopped(Apply(s, steps[0]), steps[1..], p);
    }
  }

  /** Once a pin has left its loop, on closing or because a push failed, nothing is pushed to its client any more. */
  lemma NothingAfterTheLoop(s: State, step: Step, p: PinID, steps: seq<Step>)
    requires Enabled(s, step) && step in {Leave(p), PushChange(p, false), PushSnapshot(p, false)}
    requires Run(Apply(s, step), steps).Some?
    ensures var s' := Run(Apply(s, step), steps).value;
            PinInPhase(s', p, Stopped) && s'.pin[p].pushed == s.pin[p].pushed
  {
    hide Run;
    StaysStopped(Apply(s, step), steps, p);
  }

  ghost predicate IsRemoved(s: State, p: PinID) { p in s.pin && s.pin[p].phase != Launched && p !in s.pins }

  lemma ListStep(s: State, step: Step)
    requires Enabled(s, step)
    ensures Apply(s, step).pins
         == if step.AddSync? then s.pins + [step.p] else if step.RemoveSync? then Without(s.pins, step.p) else s.pins
  {
    hide Upsert, Written, CellPart, Without, Delivered;
  }

  lemma NotLaunchedAgain(s: State, step: Step, p: PinID)
    requires Enabled(s, step) && p in s.pin && s.pin[p].phase != Launched
    ensures p in Apply(s, step).pin && Apply(s, step).pin[p].phase != Launched && step != AddSync(p)
  {
    hide Upsert, Written, CellPart, Without;
  }

  lemma RemovedStep(s: State, step: Step, p: PinID)
    requires Inv(s) && Enabled(s, step) && IsRemoved(s, p)
    ensures IsRemoved(Apply(s, step), p)
  {
    hide Inv, Enabled, Apply, Without;
    ListStep(s, step);
    NotLaunchedAgain(s, step, p);
    InvOfPins(s);
    if step.RemoveSync? { WithoutRemoves(s.pins, step.p); }
  }

  lemma {:induction false} StaysRemoved(s: State, steps: seq<Step>, p: PinID)
    requires Inv(s) && IsRemoved(s, p) && Run(s, steps).Some?
    ensures IsRemoved(Run(s, steps).value, p)
    decreases |steps|
  {
    hide Inv, IsRemoved, Apply, Enabled;
    if steps != [] {
      StepKeeps(s, steps[0]);
      RemovedStep(s, steps[0], p);
      StaysRemoved(Apply(s, steps[0]), steps[1..], p);
    }
  }

  /** A pin that was removed from the cell's list is never in it again; the others stay. */
  lemma RemovedForGood(s: State, p: PinID, steps: seq<Step>)
    requires Inv(s) && Enabled(s, RemoveSync(p)) && Run(Apply(s, RemoveSync(p)), steps).Some?
    ensures p !in Run(Apply(s, RemoveSync(p)), steps).value.pins
    ensures forall q :: q in s.pins && q != p ==> q in Apply(s, RemoveSync(p)).pins
  {
    hide Inv, Run, Without;
    InvOfPins(s);
    WithoutRemoves(s.pins, p);
    StepKeeps(s, RemoveSync(p));
    StaysRemoved(Apply(s, RemoveSync(p)), steps, p);
  }
}
