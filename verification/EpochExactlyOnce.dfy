/**
 When a marked slot is acknowledged exactly once, and when the refcount is what is owed.

 Neither holds in all runs of the swap-out protocol of `EpochProtocol`: registration
 clears whatever marker it finds (`vcann-rt/src/npu_manager.c`), a reset of a timed-out
 vNPU does so too, and an acknowledgement of an older epoch exchanges a newer marker away
 (`vcann-rt/src/shm_manager.c`).  Here are the exact conditions, and runs that miss them.
 */
module EpochExactlyOnce {
  import opened EpochProtocol
  import opened EpochTheorems
  import opened EpochHazards

  // ---------------------------------------------------------------------------
  // A marked slot is acknowledged exactly once if and only if its marker is not erased
  // ---------------------------------------------------------------------------

  /** The exchange of an acknowledgement that was begun for another epoch. */
  predicate StaleExchange(st: State, step: Step, k: nat)
    requires Enabled(st, step)
  {
    step == Exchange(k) && st.threads[k].pc.epoch != st.shm.cmdSeq
  }

  /** The step takes away the marker of slot `k` although the slot owes the command. */
  predicate Erases(st: State, step: Step, k: nat)
    requires Enabled(st, step) && k < |st.threads|
  {
    st.shm.Owes(k) && (step == Register(k) || step == Reset(k) || StaleExchange(st, step, k))
  }

  lemma StepKeepsSize(st: State, step: Step)
    requires Enabled(st, step)
    ensures |Apply(st, step).threads| == |st.threads|
  {
  }

  predicate EverErases(st: State, steps: seq<Step>, k: nat)
    requires Executable(st, steps) && k < |st.threads|
    decreases |steps|
  {
    steps != [] &&
    (Erases(st, steps[0], k) ||
     (StepKeepsSize(st, steps[0]); EverErases(Apply(st, steps[0]), steps[1..], k)))
  }

  /** The steps belong to one command. */
  predicate SameCommand(steps: seq<Step>) { forall i :: 0 <= i < |steps| ==> !steps[i].Issue? }

  /** The history after the step: the same slot marked, one more marker lost if erased. */
  predicate Tracks(st: State, step: Step, k: nat)
    requires Enabled(st, step) && k < |st.threads|
  {
    var st' := Apply(st, step);
    && Sized(st') && |st'.threads| == |st.threads|
    && st'.fates[k].marked == st.fates[k].marked
    && st'.fates[k].lost == st.fates[k].lost + Bit(Erases(st, step, k))
  }

  predicate Clears(step: Step) { step.Register? || step.Reset? || step.Exchange? }

  lemma ClearingTracks(st: State, step: Step, k: nat)
    requires Enabled(st, step) && k < |st.threads| && Clears(step)
    ensures Tracks(st, step, k)
  {
  }

  lemma ProxyTracks(st: State, step: Step, k: nat)
    requires Enabled(st, step) && k < |st.threads| && step.Proxy?
    ensures Tracks(st, step, k)
  {
  }

  lemma OtherTracks(st: State, step: Step, k: nat)
    requires Enabled(st, step) && k < |st.threads| && !Clears(step) && !step.Proxy? && !step.Issue?
    ensures Tracks(st, step, k)
  {
  }

  lemma {:induction false} LostIffErased(st: State, steps: seq<Step>, k: nat)
    requires Sized(st) && k < |st.threads| && Executable(st, steps) && SameCommand(steps)
    ensures var end := Run(st, steps);
            && Sized(end) && |end.threads| == |st.threads|
            && end.fates[k].marked == st.fates[k].marked
            && end.fates[k].lost >= st.fates[k].lost
            && (end.fates[k].lost == st.fates[k].lost <==> !EverErases(st, steps, k))
    decreases |steps|
  {
    if steps != [] {
      if Clears(steps[0]) {
        ClearingTracks(st, steps[0], k);
      } else if steps[0].Proxy? {
        ProxyTracks(st, steps[0], k);
      } else {
        OtherTracks(st, steps[0], k);
      }
      assert SameCommand(steps[1..]);
      LostIffErased(Apply(st, steps[0]), steps[1..], k);
    }
  }

  lemma IssueMarksOnce(st: State, v: nat, k: nat)
    requires Inv(st) && Enabled(st, Issue(v)) && Safe(st, Issue(v)) && k < |st.threads| && Marks(st.shm, v, k)
    ensures var next := Apply(st, Issue(v));
            Inv(next) && |next.threads| == |st.threads| && next.shm.Owes(k) && next.fates[k] == Fate(true, 0, 0)
  {
    IssueKeepsInv(st, v);
    IssueMarks(st, v, k);
  }

  /** In every safe run after a safe command that marks slot `k`, up to the next command:
      once the slot owes nothing, and so whenever the command is completed, it has been
      acknowledged exactly once if and only if no step has erased its marker.  More than
      once it is never acknowledged. */
  lemma AckedOnceIff(st: State, v: nat, k: nat, steps: seq<Step>)
    requires Inv(st) && Enabled(st, Issue(v)) && Safe(st, Issue(v)) && k < |st.threads| && Marks(st.shm, v, k)
    requires SafeRun(Apply(st, Issue(v)), steps) && SameCommand(steps)
    ensures Executable(Apply(st, Issue(v)), steps) && |Apply(st, Issue(v)).threads| == |st.threads|
    ensures var next := Apply(st, Issue(v));
            var end := Run(next, steps);
            && Sized(end) && |end.threads| == |st.threads|
            && end.fates[k].acks <= 1
            && (end.shm.completed ==> !end.shm.Owes(k))
            && (!end.shm.Owes(k) ==> (end.fates[k].acks == 1 <==> !EverErases(next, steps, k)))
  {
    IssueMarksOnce(st, v, k);
    SafeRunKeepsInv(Apply(st, Issue(v)), steps);
    LostIffErased(Apply(st, Issue(v)), steps, k);
  }

  // ---------------------------------------------------------------------------
  // What the issuer can see
  // ---------------------------------------------------------------------------

  /** The process of slot `k` is about to exchange its marker for an epoch it has read. */
  predicate Acker(t: Thread) { t.alive && t.pc.Acking? }

  /** The slot does not change hands. */
  predicate Keeps(steps: seq<Step>, k: nat) {
    forall i :: 0 <= i < |steps| ==> steps[i] != Register(k) && steps[i] != Reset(k)
  }

  /** An acker of slot `k`, if there is one, has read the current epoch. */
  predicate AcksCurrent(st: State, k: nat)
    requires Sized(st) && k < |st.threads|
  {
    Acker(st.threads[k]) ==> st.threads[k].pc.epoch == st.shm.cmdSeq
  }

  lemma StepAcksCurrent(st: State, step: Step, k: nat)
    requires Enabled(st, step) && k < |st.threads| && !step.Issue? && AcksCurrent(st, k)
    requires step != Register(k) && step != Reset(k)
    ensures var st' := Apply(st, step);
            Sized(st') && |st'.threads| == |st.threads| && AcksCurrent(st', k) && !Erases(st, step, k)
  {
  }

  lemma {:induction false} NeverErased(st: State, steps: seq<Step>, k: nat)
    requires Sized(st) && k < |st.threads| && AcksCurrent(st, k)
    requires Executable(st, steps) && SameCommand(steps) && Keeps(steps, k)
    ensures !EverErases(st, steps, k)
    decreases |steps|
  {
    if steps != [] {
      StepAcksCurrent(st, steps[0], k);
      assert SameCommand(steps[1..]) && Keeps(steps[1..], k);
      NeverErased(Apply(st, steps[0]), steps[1..], k);
    }
  }

  /** Whatever happens to the command, short of the slot changing hands, slot `k` is
      acknowledged exactly once by the time it owes nothing. */
  ghost predicate AckedOnce(next: State, k: nat)
    requires Sized(next) && k < |next.threads|
  {
    forall steps :: SafeRun(next, steps) && Executable(next, steps) && SameCommand(steps) && Keeps(steps, k) ==>
      var end := Run(next, steps);
      Sized(end) && |end.threads| == |next.threads| && (!end.shm.Owes(k) ==> end.fates[k].acks == 1)
  }

  lemma StaleAckerErases(st: State, v: nat, k: nat)
    requires Inv(st) && Enabled(st, Issue(v)) && Safe(st, Issue(v)) && k < |st.threads| && Marks(st.shm, v, k)
    requires Acker(st.threads[k])
    ensures var next := Apply(st, Issue(v));
            && Enabled(next, Exchange(k)) && |next.threads| == |st.threads|
            && var end := Apply(next, Exchange(k));
               Sized(end) && !end.shm.Owes(k) && end.fates[k] == Fate(true, 0, 1) && end.threads[k].pc == Polling
  {
    IssueMarksOnce(st, v, k);
    assert PcOk(st, k);
  }

  /** A command acknowledges slot `k` exactly once in all its safe continuations, slots
      changing hands apart, if and only if it is issued while the process of the slot is not
      about to acknowledge another. */
  lemma IssueAcksOnceIff(st: State, v: nat, k: nat)
    requires Inv(st) && Enabled(st, Issue(v)) && Safe(st, Issue(v)) && k < |st.threads| && Marks(st.shm, v, k)
    ensures Sized(Apply(st, Issue(v))) && |Apply(st, Issue(v)).threads| == |st.threads|
    ensures AckedOnce(Apply(st, Issue(v)), k) <==> !Acker(st.threads[k])
  {
    var next := Apply(st, Issue(v));
    IssueMarksOnce(st, v, k);
    if Acker(st.threads[k]) {
      StaleAckerErases(st, v, k);
      One(next, Exchange(k));
      assert SameCommand([Exchange(k)]) && Keeps([Exchange(k)], k);
    } else {
      forall steps | SafeRun(next, steps) && Executable(next, steps) && SameCommand(steps) && Keeps(steps, k)
        ensures var end := Run(next, steps);
                Sized(end) && |end.threads| == |next.threads| && (!end.shm.Owes(k) ==> end.fates[k].acks == 1)
      {
        AckedOnceIff(st, v, k, steps);
        NeverErased(next, steps, k);
      }
    }
  }

  // ---------------------------------------------------------------------------
  // The refcount
  // ---------------------------------------------------------------------------

  /** Slots that owe the command. */
  function Owed(st: State, k: nat): nat
    requires Sized(st) && k <= |st.fates|
  {
    if k == 0 then 0 else Owed(st, k - 1) + Bit(st.shm.Owes(k - 1))
  }

  /** Acknowledgements between their exchange and their decrement. */
  function InFlight(st: State, k: nat): nat
    requires Sized(st) && k <= |st.fates|
  {
    if k == 0 then 0 else InFlight(st, k - 1) + Bit(st.threads[k - 1].pc == Exchanged(st.shm.cmdSeq))
  }

  /** Markers erased. */
  function LostMarkers(st: State, k: nat): nat
    requires Sized(st) && k <= |st.fates|
  {
    if k == 0 then 0 else LostMarkers(st, k - 1) + st.fates[k - 1].lost
  }

  lemma {:induction false} OutstandingSplits(st: State, k: nat)
    requires Sized(st) && k <= |st.fates|
    ensures TotalOutstanding(st, k) == Owed(st, k) + InFlight(st, k) + LostMarkers(st, k)
  {
    if k > 0 {
      OutstandingSplits(st, k - 1);
    }
  }

  /** In every safe run the refcount is what is owed and what is in flight if and only if
      the decrements that landed one epoch late make up for the erased markers and the
      decrements that will never come. */
  lemma RefcountExactIff(vnpu: seq<nat>, steps: seq<Step>)
    requires SafeRun(Init(vnpu), steps)
    ensures Executable(Init(vnpu), steps)
    ensures var st := Run(Init(vnpu), steps);
            var n := |st.fates|;
            && Sized(st)
            && (st.shm.refcount == Owed(st, n) + InFlight(st, n) <==> st.late == LostMarkers(st, n) + st.stuck)
  {
    InitInv(vnpu);
    SafeRunKeepsInv(Init(vnpu), steps);
    var st := Run(Init(vnpu), steps);
    OutstandingSplits(st, |st.fates|);
  }

  // ---------------------------------------------------------------------------
  // A slot that changes hands before the watchdog visits
  // ---------------------------------------------------------------------------

  const LONE: seq<nat> := [0]
  const NEW := Fate(false, 0, 0)

  /** One slot, served by `t`; nothing is late, stuck or gone. */
  function Lone(cmdSeq: nat, action: Action, completed: bool, refcount: int, active: bool, marker: nat, t: Thread,
                fate: Fate): State
  {
    State(Shm(cmdSeq, action, completed, refcount, 0, LONE, [active], [marker]), [t], [fate], 0, 0, 0)
  }

  lemma ReachLone(st: State, step: Step, next: State)
    requires Reachable(LONE, st) && Enabled(st, step) && Safe(st, step) && Apply(st, step) == next
    ensures Reachable(LONE, next)
  {
    ReachStep(LONE, st, step);
  }

  lemma ReachLoneIssued()
    ensures Reachable(LONE, Lone(1, SwapOut, false, 1, true, 1, Thread(true, 0, Polling), SILENT))
  {
    var s0 := Lone(0, NoAction, true, 0, false, 0, Thread(false, 0, Polling), NEW);
    var s1 := Lone(0, NoAction, true, 0, true, 0, Thread(true, 0, Polling), NEW);
    var s2 := Lone(1, SwapOut, false, 1, true, 1, Thread(true, 0, Polling), SILENT);
    ReachInit(LONE);
    assert Init(LONE) == s0;
    ReachLone(s0, Register(0), s1);
    assert ActiveCount(s1.shm, 0, 1) == 1;
    assert Apply(s1, Issue(0)).shm.marker == [1] && Apply(s1, Issue(0)).fates == [SILENT];
    ReachLone(s1, Issue(0), s2);
  }

  function Reused(): State {
    Lone(1, SwapOut, false, 1, true, 0, Thread(true, 1, Polling), Fate(true, 0, 1))
  }

  lemma ReachReused()
    ensures Reachable(LONE, Reused())
  {
    var s2 := Lone(1, SwapOut, false, 1, true, 1, Thread(true, 0, Polling), SILENT);
    var s3 := Lone(1, SwapOut, false, 1, false, 1, Thread(false, 0, Polling), SILENT);
    ReachLoneIssued();
    ReachLone(s2, Unregister(0), s3);
    ReachLone(s3, Register(0), Reused());
  }

  /** The process that owes command 1 unregisters, and another takes its slot before the
      watchdog has acknowledged for it.  Nobody owes the command, nobody is about to
      complete it, and yet it is pending with a refcount of one; the next poll completes
      it, never acknowledged. */
  lemma ReusedSlotLosesAck() returns (st: State)
    ensures Reachable(LONE, st) && Sized(st) && |st.fates| == 1
    ensures st.shm.NoneOwes() && !SomeMidAck(st.threads, st.shm.cmdSeq) && !st.shm.completed && Disturbed(st)
    ensures st.shm.refcount == 1
    ensures Reachable(LONE, Apply(st, Poll))
    ensures var end := Apply(st, Poll); end.shm.completed && |end.fates| == 1 && end.fates[0] == Fate(true, 0, 1)
  {
    st := Reused();
    ReachReused();
    assert st.fates[0].lost > 0;
    ReachStep(LONE, st, Poll);
  }

  lemma ReachLoneExchanged()
    ensures Reachable(LONE, Lone(1, NoAction, true, 1, true, 0, Thread(true, 1, Exchanged(1)), SOLO))
  {
    var s2 := Lone(1, SwapOut, false, 1, true, 1, Thread(true, 0, Polling), SILENT);
    var s3 := Lone(1, SwapOut, false, 1, true, 1, Thread(true, 1, Acking(1)), SILENT);
    var s4 := Lone(1, SwapOut, false, 1, true, 0, Thread(true, 1, Exchanged(1)), SOLO);
    ReachLoneIssued();
    ReachLone(s2, Observe(0), s3);
    ReachLone(s3, Exchange(0), s4);
    ReachLone(s4, Poll, Lone(1, NoAction, true, 1, true, 0, Thread(true, 1, Exchanged(1)), SOLO));
  }

  /** A decrement that lands one epoch late: command 2 is owed by slot 0, and its refcount is
      zero. */
  lemma LateDecrementHidesDebt() returns (st: State)
    ensures Reachable(LONE, st) && Sized(st) && |st.fates| == 1
    ensures st.shm.cmdSeq == 2 && !st.shm.completed && st.shm.Owes(0) && st.shm.refcount == 0 && st.late == 1
  {
    var s5 := Lone(1, NoAction, true, 1, true, 0, Thread(true, 1, Exchanged(1)), SOLO);
    var s6 := Lone(2, SwapOut, false, 1, true, 2, Thread(true, 1, Exchanged(1)), SILENT);
    st := Lone(2, SwapOut, false, 0, true, 2, Thread(true, 1, Decremented(1)), SILENT).(late := 1);
    ReachLoneExchanged();
    assert ActiveCount(s5.shm, 0, 1) == 1;
    assert Apply(s5, Issue(0)).shm.marker == [2] && Apply(s5, Issue(0)).fates == [SILENT];
    ReachLone(s5, Issue(0), s6);
    ReachLone(s6, Decrement(0), st);
  }

  // ---------------------------------------------------------------------------
  // An acknowledgement that hits the marker of the next command
  // ---------------------------------------------------------------------------

  const TWO: seq<nat> := [0, 1]

  /** Processes 0 and 1 of vNPUs 0 and 1. */
  function Twins(cmdSeq: nat, action: Action, completed: bool, refcount: int, target: nat, markers: seq<nat>, a: Thread,
                b: Thread, fates: seq<Fate>): State
  {
    State(Shm(cmdSeq, action, completed, refcount, target, TWO, [true, true], markers), [a, b], fates, 0, 0, 0)
  }

  lemma ReachTwo(st: State, step: Step, next: State)
    requires Reachable(TWO, st) && Enabled(st, step) && Safe(st, step) && Apply(st, step) == next
    ensures Reachable(TWO, next)
  {
    ReachStep(TWO, st, step);
  }

  lemma ReachTwoIssued()
    ensures Reachable(TWO, Twins(1, SwapOut, false, 1, 1, [0, 1], Thread(true, 0, Polling), Thread(true, 0, Polling),
                                [NEW, SILENT]))
  {
    var s0 := Init(TWO);
    ReachInit(TWO);
    ReachStep(TWO, s0, Register(0));
    var s1 := Apply(s0, Register(0));
    assert s1.shm.marker == [0, 0] && s1.fates == s0.fates == [NEW, NEW];
    var t := Thread(true, 0, Polling);
    var s2 := Twins(0, NoAction, true, 0, 0, [0, 0], t, t, [NEW, NEW]);
    assert Apply(s1, Register(1)) == s2;
    ReachTwo(s1, Register(1), s2);
    assert ActiveCount(s2.shm, 1, 1) == 0 && ActiveCount(s2.shm, 1, 2) == 1;
    assert Apply(s2, Issue(1)).shm.marker == [0, 1] && Apply(s2, Issue(1)).fates == [NEW, SILENT];
    ReachTwo(s2, Issue(1), Twins(1, SwapOut, false, 1, 1, [0, 1], t, t, [NEW, SILENT]));
  }

  lemma ReachTwoAcked()
    ensures Reachable(TWO, Twins(1, SwapOut, false, 0, 1, [0, 0], Thread(true, 1, Acking(1)),
                                Thread(true, 1, Decremented(1)), [NEW, SOLO]))
  {
    ReachTwoIssued();
    var t, a := Thread(true, 0, Polling), Thread(true, 1, Acking(1));
    var s3 := Twins(1, SwapOut, false, 1, 1, [0, 1], t, t, [NEW, SILENT]);
    var s4 := Twins(1, SwapOut, false, 1, 1, [0, 1], a, t, [NEW, SILENT]);
    var s5 := Twins(1, SwapOut, false, 1, 1, [0, 1], a, a, [NEW, SILENT]);
    var s6 := Twins(1, SwapOut, false, 1, 1, [0, 0], a, Thread(true, 1, Exchanged(1)), [NEW, SOLO]);
    var s7 := Twins(1, SwapOut, false, 0, 1, [0, 0], a, Thread(true, 1, Decremented(1)), [NEW, SOLO]);
    ReachTwo(s3, Observe(0), s4);
    ReachTwo(s4, Observe(1), s5);
    ReachTwo(s5, Exchange(1), s6);
    ReachTwo(s6, Decrement(1), s7);
  }

  lemma ReachTwoDone()
    ensures Reachable(TWO, Twins(1, NoAction, true, 0, 1, [0, 0], Thread(true, 1, Acking(1)),
                                Thread(true, 1, Polling), [NEW, SOLO]))
  {
    ReachTwoAcked();
    var a := Thread(true, 1, Acking(1));
    var s7 := Twins(1, SwapOut, false, 0, 1, [0, 0], a, Thread(true, 1, Decremented(1)), [NEW, SOLO]);
    var s8 := Twins(1, SwapOut, false, 0, 1, [0, 0], a, Thread(true, 1, Finishing(1)), [NEW, SOLO]);
    var s9 := Twins(1, SwapOut, true, 0, 1, [0, 0], a, Thread(true, 1, Closing), [NEW, SOLO]);
    ReachTwo(s7, Recheck(1), s8);
    ReachTwo(s8, StoreCompleted(1), s9);
    ReachTwo(s9, StoreAction(1), Twins(1, NoAction, true, 0, 1, [0, 0], a, Thread(true, 1, Polling), [NEW, SOLO]));
  }

  /** Process 0 has read epoch 1, which was for the other vNPU, when command 2 marks it.  Its
      exchange takes the new marker for the old one: command 2 completes although process 0
      is alive and has never seen it. */
  lemma StaleAckLosesCommand() returns (st: State)
    ensures Reachable(TWO, st) && Enabled(st, Issue(0)) && Safe(st, Issue(0))
    ensures |st.threads| == 2 && Acker(st.threads[0])
    ensures var issued := Apply(st, Issue(0));
            && Enabled(issued, Exchange(0))
            && var end := Apply(Apply(issued, Exchange(0)), Poll);
               && Reachable(TWO, end) && |end.threads| == |end.fates| == 2
               && end.shm.cmdSeq == 2 && end.shm.completed
               && end.threads[0].alive && end.threads[0].lastSeen == 1 && end.fates[0] == Fate(true, 0, 1)
  {
    ReachTwoDone();
    var a, b := Thread(true, 1, Acking(1)), Thread(true, 1, Polling);
    st := Twins(1, NoAction, true, 0, 1, [0, 0], a, b, [NEW, SOLO]);
    var issued := Twins(2, SwapOut, false, 1, 0, [2, 0], a, b, [SILENT, NEW]);
    assert ActiveCount(st.shm, 0, 1) == 1 && ActiveCount(st.shm, 0, 2) == 1;
    assert Apply(st, Issue(0)).shm.marker == [2, 0] && Apply(st, Issue(0)).fates == [SILENT, NEW];
    ReachTwo(st, Issue(0), issued);
    var lost := Twins(2, SwapOut, false, 1, 0, [0, 0], b, b, [Fate(true, 0, 1), NEW]);
    ReachTwo(issued, Exchange(0), lost);
    ReachStep(TWO, lost, Poll);
  }
}
