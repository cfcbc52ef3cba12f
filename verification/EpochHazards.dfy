/**
 Why a safe run of the swap-out protocol is what it is.  `swap_cmd_finish_if_epoch`
 re-checks the epoch and then stores `completed` and `action` separately, and
 `shm_manager_init_state` stores `completed` on every vNPU allocation.  The lemmas here
 show that leaving out either condition of `EpochProtocol.Safe` breaks the protocol, and
 that the conditions are exact.
 */
module EpochHazards {
  import opened EpochProtocol
  import opened EpochTheorems

  /** What the resolver and the processes rely on: a completed command is owed by no
      slot, and a pending one is still published as a swap-out. */
  predicate Sound(s: Shm) {
    (s.completed ==> s.NoneOwes()) && (!s.completed ==> s.action == SwapOut)
  }

  lemma InvIsSound(st: State)
    requires Inv(st)
    ensures Sound(st.shm)
  {
    assert forall i :: 0 <= i < |st.shm.marker| && st.shm.Owes(i) ==> !st.shm.completed;
  }

  lemma IssueMarks(st: State, v: nat, i: nat)
    requires Inv(st) && Enabled(st, Issue(v)) && i < |st.threads| && Marks(st.shm, v, i)
    ensures var s := Apply(st, Issue(v)).shm; !s.completed && s.Owes(i)
  {
    IssueCount(st, v, |st.fates|);
  }

  /** Issuing a command that marks some slot is sound, whatever happens next, exactly
      when no process is between its re-check and its last store. */
  lemma IssueSafeIff(st: State, v: nat, i: nat)
    requires Inv(st) && Enabled(st, Issue(v)) && i < |st.threads| && Marks(st.shm, v, i)
    ensures var next := Apply(st, Issue(v));
            Safe(st, Issue(v)) <==>
              forall step :: Enabled(next, step) && Safe(next, step) ==> Sound(Apply(next, step).shm)
  {
    var next := Apply(st, Issue(v));
    IssueMarks(st, v, i);
    if Safe(st, Issue(v)) {
      IssueKeepsInv(st, v);
      forall step | Enabled(next, step) && Safe(next, step)
        ensures Sound(Apply(next, step).shm)
      {
        StepKeepsInv(next, step);
        InvIsSound(Apply(next, step));
      }
    } else {
      var p :| 0 <= p < |st.threads| && Finisher(st.threads[p]);
      assert next.threads == st.threads;
      var store := if st.threads[p].pc.Finishing? then StoreCompleted(p) else StoreAction(p);
      assert Enabled(next, store) && Safe(next, store);
      assert Apply(next, store).shm.Owes(i);
    }
  }

  /** Every safe continuation from `st` stays sound. */
  ghost predicate StaysSound(st: State) {
    forall steps :: SafeRun(st, steps) && Executable(st, steps) ==> Sound(Run(st, steps).shm)
  }

  /** Provisioning a vNPU keeps the protocol's invariant, and every safe continuation
      sound, exactly when no slot owes the current command. */
  lemma ProvisionSafeIff(st: State)
    requires Inv(st)
    ensures Inv(Apply(st, Provision)) <==> st.shm.NoneOwes()
    ensures StaysSound(Apply(st, Provision)) <==> st.shm.NoneOwes()
  {
    var next := Apply(st, Provision);
    if st.shm.NoneOwes() {
      ProvisionKeepsInv(st);
      forall steps | SafeRun(next, steps) && Executable(next, steps)
        ensures Sound(Run(next, steps).shm)
      {
        SafeRunKeepsInv(next, steps);
        InvIsSound(Run(next, steps));
      }
    } else {
      var i :| 0 <= i < |st.shm.marker| && Owing(st.shm.marker[i], st.shm.cmdSeq);
      assert next.shm.Owes(i) && next.shm.completed;
      assert SafeRun(next, []) && Executable(next, []) && Run(next, []) == next;
      assert !Sound(next.shm);
    }
  }

  // ---------------------------------------------------------------------------
  // A stalled command
  // ---------------------------------------------------------------------------

  /** Pending, no longer published, and nobody about to complete it. */
  predicate Stalled(st: State) {
    && Sized(st)
    && !st.shm.completed
    && st.shm.action != SwapOut
    && forall i :: 0 <= i < |st.threads| ==> !(st.threads[i].alive && st.threads[i].pc.Finishing?)
  }

  lemma StalledStep(st: State, step: Step)
    requires Stalled(st) && Enabled(st, step) && !step.Provision?
    ensures Stalled(Apply(st, step))
  {
    var st' := Apply(st, step);
    assert Sized(st') && !st'.shm.completed && st'.shm.action != SwapOut;
  }

  /** No process, proxy acknowledgement or watchdog poll ever completes it. */
  lemma {:induction false} StalledForever(st: State, steps: seq<Step>)
    requires Stalled(st) && Executable(st, steps) && Provision !in steps
    ensures !Run(st, steps).shm.completed
    decreases |steps|
  {
    if steps != [] {
      StalledStep(st, steps[0]);
      StalledForever(Apply(st, steps[0]), steps[1..]);
    }
  }

  // ---------------------------------------------------------------------------
  // Both failures are reachable
  // ---------------------------------------------------------------------------

  ghost predicate Reachable(vnpu: seq<nat>, st: State) {
    exists steps :: SafeRun(Init(vnpu), steps) && Executable(Init(vnpu), steps) && Run(Init(vnpu), steps) == st
  }

  lemma ReachInit(vnpu: seq<nat>)
    ensures Reachable(vnpu, Init(vnpu))
  {
    assert SafeRun(Init(vnpu), []) && Executable(Init(vnpu), []) && Run(Init(vnpu), []) == Init(vnpu);
  }

  lemma ReachStep(vnpu: seq<nat>, st: State, step: Step)
    requires Reachable(vnpu, st) && Enabled(st, step) && Safe(st, step)
    ensures Reachable(vnpu, Apply(st, step))
  {
    var steps :| SafeRun(Init(vnpu), steps) && Executable(Init(vnpu), steps) && Run(Init(vnpu), steps) == st;
    InitInv(vnpu);
    SafeRunKeepsInv(Init(vnpu), steps);
    One(st, step);
    RunConcat(Init(vnpu), steps, [step]);
    SafeConcat(Init(vnpu), steps, [step]);
  }

  lemma ReachableInv(vnpu: seq<nat>, st: State)
    requires Reachable(vnpu, st)
    ensures Inv(st)
  {
    var steps :| SafeRun(Init(vnpu), steps) && Executable(Init(vnpu), steps) && Run(Init(vnpu), steps) == st;
    InitInv(vnpu);
    SafeRunKeepsInv(Init(vnpu), steps);
  }

  const PAIR: seq<nat> := [0, 0]
  const SILENT := Fate(true, 0, 0)
  const SOLO := Fate(true, 1, 0)

  /** Two processes of vNPU 0 and command 1, pending or not. */
  function Pair(action: Action, completed: bool, refcount: int, markers: seq<nat>, a: Pc, b: Pc,
                fates: seq<Fate>): State
  {
    State(Shm(1, action, completed, refcount, 0, PAIR, [true, true], markers),
          [Thread(true, 1, a), Thread(true, 1, b)], fates, 0, 0, 0)
  }

  function Registered(): State {
    State(Shm(0, NoAction, true, 0, 0, PAIR, [true, true], [0, 0]),
          [Thread(true, 0, Polling), Thread(true, 0, Polling)], [Fate(false, 0, 0), Fate(false, 0, 0)], 0, 0, 0)
  }

  lemma ReachRegistered()
    ensures Reachable(PAIR, Registered())
  {
    var s0 := Init(PAIR);
    ReachInit(PAIR);
    ReachStep(PAIR, s0, Register(0));
    var s1 := Apply(s0, Register(0));
    assert s1.shm.marker == [0, 0] && s1.fates == s0.fates == [Fate(false, 0, 0), Fate(false, 0, 0)];
    ReachStep(PAIR, s1, Register(1));
    assert Apply(s1, Register(1)) == Registered();
  }

  function Issued(): State {
    State(Shm(1, SwapOut, false, 2, 0, PAIR, [true, true], [1, 1]),
          [Thread(true, 0, Polling), Thread(true, 0, Polling)], [SILENT, SILENT], 0, 0, 0)
  }

  lemma ReachIssued()
    ensures Reachable(PAIR, Issued())
  {
    ReachRegistered();
    var s := Registered();
    assert ActiveCount(s.shm, 0, 1) == 1 && ActiveCount(s.shm, 0, 2) == 2;
    ReachStep(PAIR, s, Issue(0));
    assert Apply(s, Issue(0)).shm.marker == [1, 1];
    assert Apply(s, Issue(0)).fates == [SILENT, SILENT];
    assert Apply(s, Issue(0)) == Issued();
  }

  /** A vNPU is provisioned while both processes owe command 1, which nobody has
      acknowledged: it counts as completed, and command 2 can be issued in its place. */
  lemma ProvisionDropsCommand() returns (st: State)
    ensures Reachable(PAIR, st) && Enabled(st, Provision) && !Safe(st, Provision)
    ensures var broken := Apply(st, Provision);
            && |broken.shm.marker| == 2 && broken.shm.completed && broken.shm.Owes(0) && broken.shm.Owes(1)
            && broken.fates == [SILENT, SILENT]
            && Enabled(broken, Issue(0)) && Safe(broken, Issue(0)) && Apply(broken, Issue(0)).shm.cmdSeq == 2
  {
    st := Issued();
    ReachIssued();
    assert Owing(st.shm.marker[0], st.shm.cmdSeq);
  }

  lemma ReachAcking()
    ensures Reachable(PAIR, Pair(SwapOut, false, 2, [1, 1], Acking(1), Acking(1), [SILENT, SILENT]))
  {
    ReachIssued();
    ReachStep(PAIR, Issued(), Observe(0));
    ReachStep(PAIR, Apply(Issued(), Observe(0)), Observe(1));
    assert Apply(Apply(Issued(), Observe(0)), Observe(1))
        == Pair(SwapOut, false, 2, [1, 1], Acking(1), Acking(1), [SILENT, SILENT]);
  }

  lemma ReachExchanged()
    ensures Reachable(PAIR, Pair(SwapOut, false, 2, [0, 0], Exchanged(1), Exchanged(1), [SOLO, SOLO]))
  {
    ReachAcking();
    var s := Pair(SwapOut, false, 2, [1, 1], Acking(1), Acking(1), [SILENT, SILENT]);
    var m := Pair(SwapOut, false, 2, [0, 1], Exchanged(1), Acking(1), [SOLO, SILENT]);
    ReachStep(PAIR, s, Exchange(0));
    assert Apply(s, Exchange(0)) == m;
    ReachStep(PAIR, m, Exchange(1));
    assert Apply(m, Exchange(1)) == Pair(SwapOut, false, 2, [0, 0], Exchanged(1), Exchanged(1), [SOLO, SOLO]);
  }

  lemma ReachDecremented()
    ensures Reachable(PAIR, Pair(SwapOut, false, 0, [0, 0], Decremented(1), Decremented(1), [SOLO, SOLO]))
  {
    ReachExchanged();
    var s := Pair(SwapOut, false, 2, [0, 0], Exchanged(1), Exchanged(1), [SOLO, SOLO]);
    ReachStep(PAIR, s, Decrement(0));
    var m := Pair(SwapOut, false, 1, [0, 0], Decremented(1), Exchanged(1), [SOLO, SOLO]);
    assert Apply(s, Decrement(0)) == m;
    ReachStep(PAIR, m, Decrement(1));
    assert Apply(m, Decrement(1)) == Pair(SwapOut, false, 0, [0, 0], Decremented(1), Decremented(1), [SOLO, SOLO]);
  }

  function Both(action: Action, completed: bool, a: Pc, b: Pc): State {
    Pair(action, completed, 0, [0, 0], a, b, [SOLO, SOLO])
  }

  lemma ReachFinishing()
    ensures Reachable(PAIR, Both(SwapOut, false, Finishing(1), Finishing(1)))
  {
    ReachDecremented();
    var s := Both(SwapOut, false, Decremented(1), Decremented(1));
    ReachStep(PAIR, s, Recheck(0));
    var m := Both(SwapOut, false, Finishing(1), Decremented(1));
    assert Apply(s, Recheck(0)) == m;
    ReachStep(PAIR, m, Recheck(1));
    assert Apply(m, Recheck(1)) == Both(SwapOut, false, Finishing(1), Finishing(1));
  }

  lemma ReachOneLate()
    ensures Reachable(PAIR, Both(NoAction, true, Polling, Finishing(1)))
    ensures Reachable(PAIR, Both(NoAction, true, Polling, Closing))
  {
    ReachFinishing();
    var s := Both(SwapOut, false, Finishing(1), Finishing(1));
    ReachStep(PAIR, s, StoreCompleted(0));
    var m := Both(SwapOut, true, Closing, Finishing(1));
    assert Apply(s, StoreCompleted(0)) == m;
    ReachStep(PAIR, m, StoreAction(0));
    var n := Both(NoAction, true, Polling, Finishing(1));
    assert Apply(m, StoreAction(0)) == n;
    ReachStep(PAIR, n, StoreCompleted(1));
    assert Apply(n, StoreCompleted(1)) == Both(NoAction, true, Polling, Closing);
  }

  /** Process 0 has finished command 1 while process 1 has only passed its re-check, in
      a safe run.  The resolver may now issue command 2, and process 1's late store
      completes command 2 with slot 0 still owing it. */
  lemma LateStoreCompletesTooEarly() returns (st: State)
    ensures Reachable(PAIR, st) && Enabled(st, Issue(0)) && !Safe(st, Issue(0))
    ensures var issued := Apply(st, Issue(0));
            && Enabled(issued, StoreCompleted(1))
            && var broken := Apply(issued, StoreCompleted(1)).shm;
               |broken.marker| == 2 && broken.cmdSeq == 2 && broken.completed && broken.Owes(0)
  {
    st := Both(NoAction, true, Polling, Finishing(1));
    ReachOneLate();
    ReachableInv(PAIR, st);
    assert Finisher(st.threads[1]);
    IssueMarks(st, 0, 0);
  }

  /** The other late store: process 1 has stored `completed` but not yet `action` when
      command 2 is issued.  Its store withdraws command 2, which then never completes. */
  lemma LateStoreStalls() returns (st: State)
    ensures Reachable(PAIR, st) && Enabled(st, Issue(0)) && !Safe(st, Issue(0))
    ensures var issued := Apply(st, Issue(0));
            && Enabled(issued, StoreAction(1))
            && var stalled := Apply(issued, StoreAction(1));
               && Stalled(stalled) && stalled.shm.cmdSeq == 2
               && forall more :: Executable(stalled, more) && Provision !in more ==> !Run(stalled, more).shm.completed
  {
    st := Both(NoAction, true, Polling, Closing);
    ReachOneLate();
    ReachableInv(PAIR, st);
    assert Finisher(st.threads[1]);
    IssueMarks(st, 0, 0);
    var stalled := Apply(Apply(st, Issue(0)), StoreAction(1));
    forall more | Executable(stalled, more) && Provision !in more
      ensures !Run(stalled, more).shm.completed
    {
      StalledForever(stalled, more);
    }
  }
}
