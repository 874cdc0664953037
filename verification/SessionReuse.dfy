/** A session in which a request ID is used again while a second completion of the first request is still on its way. */
module SessionReuse {
  import opened Wrappers
  import opened Session
  import opened SessionRuns

  // ----- the run: the first request with ID 7, and the second

  const A0 := Op(7, false, 0, None, false, None, false, false)
  const A1 := Op(7, false, 0, None, true, None, false, false)
  const A2 := Op(7, true, 1, None, true, None, true, false)
  const B0: Op := Op(7, false, 0, None, false, None, false, false)
  const B1: Op := Op(7, true, 1, None, false, None, true, false)
  const B2: Op := Op(7, true, 1, Some(2), false, None, true, true)
  const B3: Op := Op(7, true, 1, Some(2), true, None, true, true)

  const S1: State := State(map[], map[], map[], map[1 := 1], map[], Got(1, PinMsg(7, NIL)))
  const S2: State := State(map[1 := A0], map[7 := 1], map[], map[1 := 1], map[], Added(1, PinMsg(7, NIL), 1))
  const S3: State := State(map[1 := A0], map[7 := 1], map[], map[1 := 1], map[], Ready(1, PinMsg(7, NIL), 1))
  const S4: State := State(map[1 := A1], map[7 := 1], map[], map[1 := 1], map[], Releasing(1))
  const S5: State := State(map[1 := A1], map[7 := 1], map[], map[1 := 0], map[], Idle)
  const S6: State := State(map[1 := A1], map[7 := 1], map[1 := Detaching(7, Some(1))], map[1 := 0], map[], Idle)
  const S7: State :=
    State(map[1 := A1], map[7 := 1], map[1 := Detaching(7, Some(1)), 2 := Detaching(7, Some(1))],
          map[1 := 0], map[], Idle)
  const S8: State := State(map[1 := A2], map[], map[1 := Detaching(7, Some(1)), 2 := Done], map[1 := 0], map[], Idle)
  const S9: State :=
    State(map[1 := A2], map[], map[1 := Detaching(7, Some(1)), 2 := Done],
          map[1 := 0, 2 := 1], map[], Got(2, CommitMsg(7, NIL)))
  const S10: State :=
    State(map[1 := A2, 2 := B0], map[7 := 2], map[1 := Detaching(7, Some(1)), 2 := Done],
          map[1 := 0, 2 := 1], map[], Added(2, CommitMsg(7, NIL), 2))
  const S11: State :=
    State(map[1 := A2, 2 := B1], map[], map[1 := Done, 2 := Done],
          map[1 := 0, 2 := 1], map[], Added(2, CommitMsg(7, NIL), 2))
  const S12: State :=
    State(map[1 := A2, 2 := B2], map[], map[1 := Done, 2 := Done],
          map[1 := 0, 2 := 2], map[2 := 2], Ready(2, CommitMsg(7, NIL), 2))
  const S13: State :=
    State(map[1 := A2, 2 := B3], map[], map[1 := Done, 2 := Done],
          map[1 := 0, 2 := 2], map[2 := 2], Releasing(2))
  const S14: State :=
    State(map[1 := A2, 2 := B3], map[], map[1 := Done, 2 := Done],
          map[1 := 0, 2 := 1], map[2 := 2], Idle)
  const S15: State :=
    State(map[1 := A2, 2 := B3], map[], map[1 := Done, 2 := Done],
          map[1 := 0, 2 := 1], map[2 := 2], Stopping([]))
  const S16: State :=
    State(map[1 := A2, 2 := B3], map[], map[1 := Done, 2 := Done],
          map[1 := 0, 2 := 1], map[2 := 2], Stopped)

  /** The first request is completed twice; the second completion closes the next request that has its ID, before its
      transaction is attached. */
  const REUSE: seq<Step> := []
    + [Receive(1, PinMsg(7, NIL))] + [Register(1)] + [Attach] + [Submit] + [ReleaseTx]
    + [Complete(1, 1)] + [Complete(2, 1)] + CloseSteps(2) + [Receive(2, CommitMsg(7, NIL))] + [Register(2)]
    + CloseSteps(1) + [Attach] + [Submit] + [ReleaseTx] + [Shutdown([])]
    + [Stop]

  lemma Set1<V>(a: V, a': V)
    ensures map[1 := a][1 := a'] == map[1 := a']
  {
  }

  lemma Set2<V>(a: V, b: V, b': V)
    ensures map[1 := a, 2 := b][2 := b'] == map[1 := a, 2 := b']
    ensures map[1 := a, 2 := b][1 := b'] == map[1 := b', 2 := b]
  {
  }

  lemma FirstRegistered()
    ensures Leads(INIT, Receive(1, PinMsg(7, NIL)), S1)
    ensures Leads(S1, Register(1), S2)
    ensures Leads(S2, Attach, S3)
  {
  }

  lemma FirstSubmitted()
    ensures Leads(S3, Submit, S4)
    ensures Leads(S4, ReleaseTx, S5)
  {
    Set1(A0, A1);
    Set1(1, 0);
  }

  lemma CompletedTwice()
    ensures Leads(S5, Complete(1, 1), S6)
    ensures Leads(S6, Complete(2, 1), S7)
  {
  }

  lemma SecondRegistered()
    ensures Leads(S8, Receive(2, CommitMsg(7, NIL)), S9)
    ensures Leads(S9, Register(2), S10)
  {
  }

  lemma SecondAttached()
    ensures Leads(S11, Attach, S12)
    ensures Leads(S12, Submit, S13)
    ensures Leads(S13, ReleaseTx, S14)
  {
    Set2(A2, B1, B2);
    Set2(A2, B2, B3);
    Set2(0, 1, 2);
    Set2(0, 2, 1);
  }

  lemma Ends()
    ensures Leads(S14, Shutdown([]), S15)
    ensures Leads(S15, Stop, S16)
  {
  }

  lemma FirstClosed()
    ensures Run(S7, CloseSteps(2)) == Some(S8)
  {
    hide Run;
    CloseRuns(S7, 2, 1);
    Set1(A1, A2);
    Set2(Detaching(7, Some(1)), Detaching(7, Some(1)), Done);
    assert S7.open - {7} == map[];
  }

  lemma SecondClosed()
    ensures Run(S10, CloseSteps(1)) == Some(S11)
  {
    hide Run;
    CloseRuns(S10, 1, 2);
    Set2(A2, B0, B1);
    Set2(Detaching(7, Some(1)), Done, Done);
    assert S10.open - {7} == map[];
  }

  /** A run with a reused ID leaves a reference to a transaction when everything has come to rest. */
  lemma ReuseLeaks()
    ensures Run(INIT, REUSE) == Some(S16) && AtRest(S16) && S16.ops[1].reqID == S16.ops[2].reqID && S16.refs[2] == 1
  {
    ReuseRuns();
  }

  lemma ReuseRuns()
    ensures Run(INIT, REUSE) == Some(S16)
  {
    hide Run, Leads, CloseSteps;
    FirstRegistered();
    FirstSubmitted();
    CompletedTwice();
    SecondRegistered();
    SecondAttached();
    Ends();
    FirstClosed();
    SecondClosed();
    RunNothing(INIT);
    var r0: seq<Step> := [];
    RunThen(INIT, r0, INIT, Receive(1, PinMsg(7, NIL)), S1);
    var r1 := r0 + [Receive(1, PinMsg(7, NIL))];
    RunThen(INIT, r1, S1, Register(1), S2);
    var r2 := r1 + [Register(1)];
    RunThen(INIT, r2, S2, Attach, S3);
    var r3 := r2 + [Attach];
    RunThen(INIT, r3, S3, Submit, S4);
    var r4 := r3 + [Submit];
    RunThen(INIT, r4, S4, ReleaseTx, S5);
    var r5 := r4 + [ReleaseTx];
    RunThen(INIT, r5, S5, Complete(1, 1), S6);
    var r6 := r5 + [Complete(1, 1)];
    RunThen(INIT, r6, S6, Complete(2, 1), S7);
    var r7 := r6 + [Complete(2, 1)];
    RunOn(INIT, r7, S7, CloseSteps(2));
    var r8 := r7 + CloseSteps(2);
    RunThen(INIT, r8, S8, Receive(2, CommitMsg(7, NIL)), S9);
    var r9 := r8 + [Receive(2, CommitMsg(7, NIL))];
    RunThen(INIT, r9, S9, Register(2), S10);
    var r10 := r9 + [Register(2)];
    RunOn(INIT, r10, S10, CloseSteps(1));
    var r11 := r10 + CloseSteps(1);
    RunThen(INIT, r11, S11, Attach, S12);
    var r12 := r11 + [Attach];
    RunThen(INIT, r12, S12, Submit, S13);
    var r13 := r12 + [Submit];
    RunThen(INIT, r13, S13, ReleaseTx, S14);
    var r14 := r13 + [ReleaseTx];
    RunThen(INIT, r14, S14, Shutdown([]), S15);
    var r15 := r14 + [Shutdown([])];
    RunThen(INIT, r15, S15, Stop, S16);
  }
}
