/** Concurrent calls of GetSymbolID: each reads in a snapshot, issues an ID, and commits or, on a conflict, tries again with
    a transaction that writes without having read. */
module SymbolCalls {
  import opened Wrappers
  import opened Bytes
  import opened SymbolTable

  type CallID = nat

  /** Where a call is. A call is clean while nothing was committed for its value since its snapshot. */
  datatype Phase =
    | Looked(clean: bool)
    | Issued(id: ID, clean: bool)
    | Retrying(id: ID)
    | Returned(id: ID)

  datatype Call = Call(val: Bytes, phase: Phase) {
    predicate Pending() { !phase.Returned? }

    predicate Clean() { (phase.Looked? || phase.Issued?) && phase.clean }

    predicate HasID() { phase.Issued? || phase.Retrying? }

    function Soiled(): Call {
      if phase.Looked? || phase.Issued? then this.(phase := phase.(clean := false)) else this
    }
  }

  datatype State = State(table: Table, calls: map<CallID, Call>) {
    function Set(c: CallID, call: Call): State { this.(calls := calls[c := call]) }
  }

  function Init(initsAt: ID): State { State(Table(map[], map[], initsAt), map[]) }

  datatype Step =
    | Begin(c: CallID, val: Bytes, autoIssue: bool)
    | Issue(c: CallID, id: ID)
    | Commit(c: CallID)
    | Conflict(c: CallID)
    | Retry(c: CallID)

  /** A commit may always fail with a conflict, and must when the value was committed since the snapshot. */
  predicate Enabled(s: State, step: Step) {
    match step
    case Begin(c, _, _) => c !in s.calls
    case Issue(c, id) => c in s.calls && s.calls[c].phase.Looked? && id >= s.table.next
    case Commit(c) => c in s.calls && s.calls[c].phase.Issued? && s.calls[c].phase.clean
    case Conflict(c) => c in s.calls && s.calls[c].phase.Issued?
    case Retry(c) => c in s.calls && s.calls[c].phase.Retrying?
  }

  function Apply(s: State, step: Step): State
    requires Enabled(s, step)
  {
    match step
    case Begin(c, val, autoIssue) => s.Set(c, Call(val, FirstPhase(s.table, val, autoIssue)))
    case Issue(c, id) =>
      State(s.table.(next := id + 1), s.calls[c := s.calls[c].(phase := Issued(id, s.calls[c].phase.clean))])
    case Commit(c) => Committed(s, c)
    case Conflict(c) => s.Set(c, s.calls[c].(phase := Retrying(s.calls[c].phase.id)))
    case Retry(c) => Committed(s, c)
  }

  function FirstPhase(t: Table, val: Bytes, autoIssue: bool): Phase {
    if val == [] then Returned(0)
    else if t.IDOf(val) != 0 then Returned(t.IDOf(val))
    else if autoIssue then Looked(true)
    else Returned(0)
  }

  /** Both assignments are written, and other calls for the value are no longer clean. */
  function Committed(s: State, c: CallID): State
    requires c in s.calls && s.calls[c].HasID()
  {
    var Call(val, phase) := s.calls[c];
    State(s.table.SetBoth(val, phase.id),
          map d | d in s.calls :: if d == c then Call(val, Returned(phase.id))
                                  else if s.calls[d].val == val then s.calls[d].Soiled() else s.calls[d])
  }

  function Run(s: State, steps: seq<Step>): Option<State>
    decreases |steps|
  {
    if steps == [] then Some(s)
    else if Enabled(s, steps[0]) then Run(Apply(s, steps[0]), steps[1..])
    else None
  }

  // ----- the invariant

  ghost predicate CallOk(t: Table, call: Call) {
    && (call.HasID() ==> 0 < call.phase.id < t.next && call.phase.id !in t.byID)
    && (call.phase.Returned? && call.phase.id != 0 ==> call.phase.id in t.byID && t.byID[call.phase.id] == call.val)
    && (call.Pending() ==> call.val != [])
    && (call.Clean() ==> call.val !in t.byValue)
  }

  ghost predicate Inv(s: State) {
    && s.table.Consistent()
    && (forall c :: c in s.calls ==> CallOk(s.table, s.calls[c]))
    && (forall c, d :: c in s.calls && d in s.calls && c != d && s.calls[c].HasID() && s.calls[d].HasID() ==>
          s.calls[c].phase.id != s.calls[d].phase.id)
  }

  /** What was returned and what is assigned to an ID stays. */
  ghost predicate Settled(s: State, s': State) {
    && (forall c :: c in s.calls && s.calls[c].phase.Returned? ==> c in s'.calls && s'.calls[c] == s.calls[c])
    && (forall id :: id in s.table.byID ==> id in s'.table.byID && s'.table.byID[id] == s.table.byID[id])
  }

  lemma CommittedKeeps(s: State, c: CallID)
    requires Inv(s) && c in s.calls && s.calls[c].HasID()
    ensures Inv(Committed(s, c)) && Settled(s, Committed(s, c))
  {
    hide Committed, CallOk, Call.Pending, Call.Clean, Call.Soiled, Table.SetBoth;
    var s' := Committed(s, c);
    assert CallOk(s.table, s.calls[c]);
    CommittedTable(s.table, s.calls[c]);
    CommittedCalls(s, c);
    forall d | d in s'.calls ensures CallOk(s'.table, s'.calls[d]) {
      assert CallOk(s.table, s.calls[d]);
      CommittedCall(s, c, d);
    }
  }

  lemma CommittedTable(t: Table, call: Call)
    requires t.Consistent() && CallOk(t, call) && call.HasID()
    ensures t.SetBoth(call.val, call.phase.id).Consistent()
    ensures forall id :: id in t.byID ==> id in t.SetBoth(call.val, call.phase.id).byID
                                          && t.SetBoth(call.val, call.phase.id).byID[id] == t.byID[id]
  {
  }

  lemma CommittedCalls(s: State, c: CallID)
    requires c in s.calls && s.calls[c].HasID()
    ensures Committed(s, c).table == s.table.SetBoth(s.calls[c].val, s.calls[c].phase.id)
    ensures Committed(s, c).calls.Keys == s.calls.Keys
    ensures Committed(s, c).calls[c] == Call(s.calls[c].val, Returned(s.calls[c].phase.id))
    ensures forall d :: d in s.calls && d != c ==> var (was, now) := (s.calls[d], Committed(s, c).calls[d]);
              now.val == was.val && now.HasID() == was.HasID() && (was.HasID() ==> now.phase.id == was.phase.id)
              && now.Pending() == was.Pending() && (was.phase.Returned? ==> now == was)
  {
  }

  lemma CommittedCall(s: State, c: CallID, d: CallID)
    requires c in s.calls && s.calls[c].HasID() && d in s.calls
    requires CallOk(s.table, s.calls[c]) && CallOk(s.table, s.calls[d])
    requires c != d && s.calls[d].HasID() ==> s.calls[c].phase.id != s.calls[d].phase.id
    ensures CallOk(Committed(s, c).table, Committed(s, c).calls[d])
  {
  }

  lemma BeginKeeps(s: State, c: CallID, val: Bytes, autoIssue: bool)
    requires Inv(s) && Enabled(s, Begin(c, val, autoIssue))
    ensures Inv(Apply(s, Begin(c, val, autoIssue))) && Settled(s, Apply(s, Begin(c, val, autoIssue)))
  {
    hide Call.Clean;
    var s' := Apply(s, Begin(c, val, autoIssue));
    assert CallOk(s'.table, s'.calls[c]) by { BeginOk(s.table, val, autoIssue); }
    forall d | d in s'.calls && d != c ensures CallOk(s'.table, s'.calls[d]) {
      assert CallOk(s.table, s.calls[d]);
    }
    assert !s'.calls[c].HasID();
  }

  lemma BeginOk(t: Table, val: Bytes, autoIssue: bool)
    requires t.Consistent()
    ensures CallOk(t, Call(val, FirstPhase(t, val, autoIssue)))
  {
  }

  lemma IssueKeeps(s: State, c: CallID, id: ID)
    requires Inv(s) && Enabled(s, Issue(c, id))
    ensures Inv(Apply(s, Issue(c, id))) && Settled(s, Apply(s, Issue(c, id)))
  {
    var s' := Apply(s, Issue(c, id));
    forall d | d in s'.calls ensures CallOk(s'.table, s'.calls[d]) {
      assert CallOk(s.table, s.calls[d]);
    }
  }

  lemma ConflictKeeps(s: State, c: CallID)
    requires Inv(s) && Enabled(s, Conflict(c))
    ensures Inv(Apply(s, Conflict(c))) && Settled(s, Apply(s, Conflict(c)))
  {
    var s' := Apply(s, Conflict(c));
    forall d | d in s'.calls ensures CallOk(s'.table, s'.calls[d]) {
      assert CallOk(s.table, s.calls[d]);
    }
  }

  lemma StepKeeps(s: State, step: Step)
    requires Inv(s) && Enabled(s, step)
    ensures Inv(Apply(s, step)) && Settled(s, Apply(s, step))
  {
    hide Inv, Committed, Settled, FirstPhase;
    match step
    case Begin(c, val, autoIssue) => BeginKeeps(s, c, val, autoIssue);
    case Issue(c, id) => IssueKeeps(s, c, id);
    case Commit(c) => CommittedKeeps(s, c);
    case Conflict(c) => ConflictKeeps(s, c);
    case Retry(c) => CommittedKeeps(s, c);
  }

  lemma {:induction false} RunKeeps(s: State, steps: seq<Step>)
    requires Inv(s) && Run(s, steps).Some?
    ensures Inv(Run(s, steps).value) && Settled(s, Run(s, steps).value)
    decreases |steps|
  {
    hide Inv, Enabled, Apply;
    if steps != [] {
      StepKeeps(s, steps[0]);
      RunKeeps(Apply(s, steps[0]), steps[1..]);
    }
  }

  // ----- IDs are permanent

  /** In every interleaving, an ID that a call returned resolves to its value then and ever after, and calls for distinct
      values never return the same ID. */
  lemma IDsArePermanent(initsAt: ID, before: seq<Step>, after: seq<Step>, c: CallID, d: CallID)
    requires initsAt > 0 && Run(Init(initsAt), before).Some? && Run(Run(Init(initsAt), before).value, after).Some?
    requires var s := Run(Init(initsAt), before).value;
             && c in s.calls && s.calls[c].phase.Returned? && s.calls[c].phase.id != 0
             && d in s.calls && s.calls[d].phase.Returned? && s.calls[d].phase.id != 0
    ensures var (s, s') := (Run(Init(initsAt), before).value, Run(Run(Init(initsAt), before).value, after).value);
            && s'.table.Symbol(s.calls[c].phase.id) == Some(s.calls[c].val)
            && (s.calls[c].val != s.calls[d].val ==> s.calls[c].phase.id != s.calls[d].phase.id)
  {
    hide Run;
    var s := Run(Init(initsAt), before).value;
    RunKeeps(Init(initsAt), before);
    RunKeeps(s, after);
    assert CallOk(s.table, s.calls[c]) && CallOk(s.table, s.calls[d]);
  }

  // ----- when a value is given another ID

  /** Every value keeps the ID it has. */
  ghost predicate KeepsIDs(t: Table, t': Table) {
    forall v :: v in t.byValue ==> v in t'.byValue && t'.byValue[v] == t.byValue[v]
  }

  /** A step gives a value another ID exactly when it is a retry for a value that has one. */
  lemma OnlyRetriesReassign(s: State, step: Step)
    requires Inv(s) && Enabled(s, step)
    ensures !KeepsIDs(s.table, Apply(s, step).table) <==> step.Retry? && s.calls[step.c].val in s.table.byValue
  {
    hide FirstPhase;
    if step.Commit? || step.Retry? {
      assert CallOk(s.table, s.calls[step.c]);
      var v := s.calls[step.c].val;
      if v in s.table.byValue { assert s.table.byValue[v] in s.table.byID; }
    }
  }

  /** No pending call is for a value that has an ID, and no two are for one value. */
  ghost predicate NoOverlap(s: State) {
    && (forall c :: c in s.calls && s.calls[c].Pending() ==> s.calls[c].val !in s.table.byValue)
    && (forall c, d :: c in s.calls && d in s.calls && c != d && s.calls[c].Pending() && s.calls[d].Pending() ==>
          s.calls[c].val != s.calls[d].val)
  }

  predicate NoBegin(steps: seq<Step>) { forall i :: 0 <= i < |steps| ==> !steps[i].Begin? }

  /** Along one schedule in which the pending calls go on, and no other begins, no value is given another ID. */
  ghost predicate Undisturbed(s: State, a: seq<Step>, b: seq<Step>) {
    NoBegin(a) && NoBegin(b) && Run(s, a).Some? && Run(Run(s, a).value, b).Some? ==>
      KeepsIDs(Run(s, a).value.table, Run(Run(s, a).value, b).value.table)
  }

  lemma NoOverlapKeeps(s: State, step: Step)
    requires Inv(s) && NoOverlap(s) && Enabled(s, step)
    requires step.Begin? ==> forall d :: d in s.calls && s.calls[d].Pending() ==> s.calls[d].val != step.val
    ensures NoOverlap(Apply(s, step)) && KeepsIDs(s.table, Apply(s, step).table)
  {
    hide CallOk, Committed;
    OnlyRetriesReassign(s, step);
    if step.Commit? || step.Retry? {
      CommittedNoOverlap(s, step.c);
    }
  }

  lemma CommittedNoOverlap(s: State, c: CallID)
    requires NoOverlap(s) && c in s.calls && s.calls[c].HasID()
    ensures NoOverlap(Committed(s, c))
  {
    hide Committed;
    var s' := Committed(s, c);
    CommittedCalls(s, c);
    forall d | d in s'.calls && s'.calls[d].Pending() ensures s'.calls[d].val !in s'.table.byValue {
      assert d != c && s.calls[d].Pending();
    }
    forall d, e | d in s'.calls && e in s'.calls && d != e && s'.calls[d].Pending() && s'.calls[e].Pending()
      ensures s'.calls[d].val != s'.calls[e].val
    {
      assert d != c && e != c && s.calls[d].Pending() && s.calls[e].Pending();
    }
  }

  lemma {:induction false} NoOverlapRun(s: State, steps: seq<Step>)
    requires Inv(s) && NoOverlap(s) && NoBegin(steps) && Run(s, steps).Some?
    ensures Inv(Run(s, steps).value) && NoOverlap(Run(s, steps).value) && KeepsIDs(s.table, Run(s, steps).value.table)
    decreases |steps|
  {
    hide Inv, Enabled, Apply, NoOverlap;
    if steps != [] {
      StepKeeps(s, steps[0]);
      NoOverlapKeeps(s, steps[0]);
      NoOverlapRun(Apply(s, steps[0]), steps[1..]);
    }
  }

  // ----- overlapping calls

  /** The rest of a pending call, with a conflict on the way. */
  function Rest(s: State, c: CallID): seq<Step>
    requires c in s.calls && s.calls[c].Pending()
  {
    match s.calls[c].phase
    case Looked(_) => [Issue(c, s.table.next), Conflict(c), Retry(c)]
    case Issued(_, _) => [Conflict(c), Retry(c)]
    case _ => [Retry(c)]
  }

  /** It gives the value an ID that no value had, and leaves the other calls pending. */
  ghost predicate Assigns(s: State, c: CallID, s': State)
    requires c in s.calls
  {
    && s.calls[c].val in s'.table.byValue && s'.table.byValue[s.calls[c].val] !in s.table.byID
    && (forall d :: d in s.calls && d != c && s.calls[d].Pending() ==>
          d in s'.calls && s'.calls[d].Pending() && s'.calls[d].val == s.calls[d].val)
  }

  lemma RetryAssigns(s: State, c: CallID)
    requires Inv(s) && c in s.calls && s.calls[c].phase.Retrying?
    ensures Assigns(s, c, Apply(s, Retry(c)))
  {
    hide Committed;
    CommittedCalls(s, c);
    assert CallOk(s.table, s.calls[c]);
  }

  /** Steps of one call that come before its commit. */
  lemma NotYet(s: State, c: CallID, step: Step, s': State)
    requires c in s.calls && (step == Issue(c, s.table.next) || step == Conflict(c)) && Enabled(s, step)
    ensures var s1 := Apply(s, step); c in s1.calls && s1.calls[c].val == s.calls[c].val && (Assigns(s1, c, s') ==> Assigns(s, c, s'))
  {
  }

  lemma {:induction false} RestAssigns(s: State, c: CallID)
    requires Inv(s) && c in s.calls && s.calls[c].Pending()
    ensures NoBegin(Rest(s, c)) && Run(s, Rest(s, c)).Some? && Assigns(s, c, Run(s, Rest(s, c)).value)
    decreases |Rest(s, c)|
  {
    hide Inv, Committed, Assigns;
    var steps := Rest(s, c);
    StepKeeps(s, steps[0]);
    var s1 := Apply(s, steps[0]);
    if s.calls[c].phase.Retrying? {
      RetryAssigns(s, c);
      assert Run(s1, steps[1..]) == Some(s1);
    } else {
      assert steps[1..] == Rest(s1, c);
      RestAssigns(s1, c);
      NotYet(s, c, steps[0], Run(s1, steps[1..]).value);
    }
  }

  lemma OverlapDisturbs(s: State, c: CallID, d: CallID) returns (a: seq<Step>, b: seq<Step>)
    requires Inv(s) && c in s.calls && d in s.calls && c != d && s.calls[c].Pending() && s.calls[d].Pending()
    requires s.calls[c].val == s.calls[d].val
    ensures !Undisturbed(s, a, b)
  {
    hide Inv, Run, Rest, NoBegin;
    a := Rest(s, c);
    RestAssigns(s, c);
    RunKeeps(s, a);
    var s1 := Run(s, a).value;
    b := Rest(s1, d);
    RestAssigns(s1, d);
    AssignedAnew(s1, d, Run(s1, b).value);
  }

  lemma LateCallDisturbs(s: State, c: CallID)
    requires Inv(s) && c in s.calls && s.calls[c].Pending() && s.calls[c].val in s.table.byValue
    ensures !Undisturbed(s, [], Rest(s, c))
  {
    hide Inv, Rest, Assigns;
    RestAssigns(s, c);
    AssignedAnew(s, c, Run(s, Rest(s, c)).value);
  }

  lemma AssignedAnew(s: State, c: CallID, s': State)
    requires Inv(s) && c in s.calls && s.calls[c].val in s.table.byValue && Assigns(s, c, s')
    ensures !KeepsIDs(s.table, s'.table)
  {
    hide CallOk;
    assert s.table.byValue[s.calls[c].val] in s.table.byID;
  }

  /** The pending calls can go on in every order without any value being given another ID exactly when they do not overlap:
      none is for a value that has an ID, and no two are for one value. */
  lemma StableIffNoOverlap(s: State)
    requires Inv(s)
    ensures NoOverlap(s) <==> forall a, b :: Undisturbed(s, a, b)
  {
    hide Inv, Run, Rest, NoBegin, KeepsIDs;
    if NoOverlap(s) {
      forall a, b ensures Undisturbed(s, a, b) {
        if NoBegin(a) && NoBegin(b) && Run(s, a).Some? && Run(Run(s, a).value, b).Some? {
          NoOverlapRun(s, a);
          NoOverlapRun(Run(s, a).value, b);
        }
      }
    } else if c :| c in s.calls && s.calls[c].Pending() && s.calls[c].val in s.table.byValue {
      LateCallDisturbs(s, c);
    } else {
      var c, d :| c in s.calls && d in s.calls && c != d && s.calls[c].Pending() && s.calls[d].Pending()
                  && s.calls[c].val == s.calls[d].val;
      var a, b := OverlapDisturbs(s, c, d);
    }
  }

  /** A call that runs alone does what the sequential method does. */
  lemma AloneIsSequential(s: State, c: CallID, val: Bytes, autoIssue: bool)
    requires Inv(s) && c !in s.calls
    ensures var s1 := Apply(s, Begin(c, val, autoIssue));
            var (t, id) := GetSet(s.table, val, 0, autoIssue);
            if s1.calls[c].Pending() then
              && Run(s1, [Issue(c, s.table.next), Commit(c)]).Some?
              && var s' := Run(s1, [Issue(c, s.table.next), Commit(c)]).value;
              s'.table == t && c in s'.calls && s'.calls[c].phase == Returned(id)
            else
              s1.table == t && s1.calls[c].phase == Returned(id)
  {
    hide Inv;
    var s1 := Apply(s, Begin(c, val, autoIssue));
    if s1.calls[c].Pending() {
      var steps := [Issue(c, s.table.next), Commit(c)];
      var s2 := Apply(s1, steps[0]);
      var s3 := Apply(s2, steps[1]);
      assert steps[1..] == [Commit(c)] && steps[1..][1..] == [];
      assert Run(s3, []) == Some(s3);
      assert Run(s2, steps[1..]) == Some(s3);
    }
  }

  /** Two calls for one value: both return an ID that resolves to it, but not the same, and the first is replaced. */
  lemma TwoIDsForOneValue(val: Bytes)
    requires val != []
    ensures var steps := [Begin(0, val, true), Begin(1, val, true), Issue(0, 1), Issue(1, 2), Commit(0), Conflict(1), Retry(1)];
            Run(Init(1), steps) == Some(State(Table(map[val := 2], map[1 := val, 2 := val], 3),
                                              map[0 := Call(val, Returned(1)), 1 := Call(val, Returned(2))]))
  {
    hide Apply, Enabled, Run;
    var looked := Call(val, Looked(true));
    var s2 := State(Table(map[], map[], 1), map[0 := looked, 1 := looked]);
    var s4 := State(Table(map[], map[], 3), map[0 := Call(val, Issued(1, true)), 1 := Call(val, Issued(2, true))]);
    var more := [Commit(0), Conflict(1), Retry(1)];
    var first := [Issue(0, 1), Issue(1, 2)] + more;
    BothBegin(val, s2, first);
    BothIssue(val, s2, s4, more);
    SecondReplacesFirst(val, s4);
    assert [Begin(0, val, true), Begin(1, val, true)] + first
        == [Begin(0, val, true), Begin(1, val, true), Issue(0, 1), Issue(1, 2), Commit(0), Conflict(1), Retry(1)];
  }

  lemma BothBegin(val: Bytes, s2: State, rest: seq<Step>)
    requires val != []
    requires s2 == State(Table(map[], map[], 1), map[0 := Call(val, Looked(true)), 1 := Call(val, Looked(true))])
    ensures Run(Init(1), [Begin(0, val, true), Begin(1, val, true)] + rest) == Run(s2, rest)
  {
    var steps := [Begin(0, val, true), Begin(1, val, true)] + rest;
    assert Apply(Apply(Init(1), Begin(0, val, true)), Begin(1, val, true)).calls == s2.calls;
    assert steps[1..][1..] == rest;
  }

  lemma BothIssue(val: Bytes, s2: State, s4: State, rest: seq<Step>)
    requires s2 == State(Table(map[], map[], 1), map[0 := Call(val, Looked(true)), 1 := Call(val, Looked(true))])
    requires s4 == State(Table(map[], map[], 3), map[0 := Call(val, Issued(1, true)), 1 := Call(val, Issued(2, true))])
    ensures Run(s2, [Issue(0, 1), Issue(1, 2)] + rest) == Run(s4, rest)
  {
    var steps := [Issue(0, 1), Issue(1, 2)] + rest;
    assert Apply(Apply(s2, Issue(0, 1)), Issue(1, 2)).calls == s4.calls;
    assert steps[1..][1..] == rest;
  }

  lemma SecondReplacesFirst(val: Bytes, s: State)
    requires s == State(Table(map[], map[], 3), map[0 := Call(val, Issued(1, true)), 1 := Call(val, Issued(2, true))])
    ensures Run(s, [Commit(0), Conflict(1), Retry(1)])
         == Some(State(Table(map[val := 2], map[1 := val, 2 := val], 3),
                       map[0 := Call(val, Returned(1)), 1 := Call(val, Returned(2))]))
  {
    var s1 := State(Table(map[val := 1], map[1 := val], 3), map[0 := Call(val, Returned(1)), 1 := Call(val, Issued(2, false))]);
    var s2 := State(Table(map[val := 1], map[1 := val], 3), map[0 := Call(val, Returned(1)), 1 := Call(val, Retrying(2))]);
    var s3 := State(Table(map[val := 2], map[1 := val, 2 := val], 3), map[0 := Call(val, Returned(1)), 1 := Call(val, Returned(2))]);
    var steps, last := [Commit(0), Conflict(1), Retry(1)], [Retry(1)];
    assert Apply(s, Commit(0)).calls == s1.calls && Apply(s, Commit(0)) == s1;
    assert Apply(s1, Conflict(1)).calls == s2.calls && Apply(s1, Conflict(1)) == s2;
    assert s2.table.SetBoth(val, 2) == s3.table;
    assert Apply(s2, Retry(1)).calls == s3.calls && Apply(s2, Retry(1)) == s3;
    assert Run(s3, []) == Some(s3) && last[1..] == [];
    assert Run(s2, last) == Some(s3);
    assert steps[1..][1..] == last;
  }
}
