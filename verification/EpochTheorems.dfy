/**
 What holds of the swap-out protocol of `EpochProtocol` over whole runs: safety, no lost
 completion, convergence of the watchdog, and that completion stays possible.
 */
module EpochTheorems {
  import opened EpochProtocol

  /** Safety, over every safe run of any number of slots: a completed command has no
      slot that still owes it, each marked slot is acknowledged exactly once (or still
      owes, or had its marker erased), and the refcount is what is owed, in flight,
      lost or stuck, less the late decrements of older epochs. */
  lemma EpochSafety(vnpu: seq<nat>, steps: seq<Step>)
    requires SafeRun(Init(vnpu), steps)
    ensures Executable(Init(vnpu), steps)
    ensures var st := Run(Init(vnpu), steps);
            && Sized(st)
            && (st.shm.completed ==> st.shm.NoneOwes())
            && ExactlyOnce(st)
            && Counted(st)
  {
    InitInv(vnpu);
    SafeRunKeepsInv(Init(vnpu), steps);
    var st := Run(Init(vnpu), steps);
    assert forall i :: 0 <= i < |st.shm.marker| && st.shm.Owes(i) ==> !st.shm.completed;
  }

  /** No lost completion: when no slot owes the command and no acker is between its
      exchange and its finish, the command is completed, unless a marker was erased or
      a dead acker's slot was reused; and then one watchdog poll completes it. */
  lemma NoLostCompletion(vnpu: seq<nat>, steps: seq<Step>)
    requires SafeRun(Init(vnpu), steps)
    ensures Executable(Init(vnpu), steps)
    ensures var st := Run(Init(vnpu), steps);
            && Sized(st)
            && (st.shm.NoneOwes() && !SomeMidAck(st.threads, st.shm.cmdSeq) && !Disturbed(st) ==> st.shm.completed)
            && (st.shm.NoneOwes() <==> Apply(st, Poll).shm.completed)
  {
    InitInv(vnpu);
    SafeRunKeepsInv(Init(vnpu), steps);
    var st := Run(Init(vnpu), steps);
    PollCompletesIff(st);
  }

  lemma PollCompletesIff(st: State)
    requires Inv(st)
    ensures st.shm.NoneOwes() <==> Apply(st, Poll).shm.completed
  {
    if st.shm.completed {
      assert forall i :: 0 <= i < |st.shm.marker| && st.shm.Owes(i) ==> !st.shm.completed;
    } else {
      AckDoneMeansNoneOwes(st);
    }
  }

  /** A slot that is unregistered, reaped or reset is marked by no later command and, once
      its process takes no further step, can be registered; then it is marked again. */
  lemma FreedSlotIsFree(st: State, step: Step, v: nat)
    requires Enabled(st, step) && (step.Unregister? || step.Reap? || step.Reset?)
    ensures var st' := Apply(st, step);
            && Sized(st') && |st'.threads| == |st.threads| && !Marks(st'.shm, v, step.i)
            && (!st'.threads[step.i].alive ==>
                  && Enabled(st', Register(step.i))
                  && var again := Apply(st', Register(step.i));
                     Sized(again) && |again.threads| == |st.threads| && again.threads[step.i].alive
                     && Marks(again.shm, again.shm.vnpu[step.i], step.i))
            && (step.Unregister? ==> !st'.threads[step.i].alive)
  {
  }

  /** A process that has died takes no step of its own, and leaves shared memory as it was. */
  lemma CrashedTakesNoStep(st: State, i: nat, step: Step)
    requires Enabled(st, Crash(i))
    requires step in {Unregister(i), Crash(i), Observe(i), Exchange(i), Decrement(i), Recheck(i), StoreCompleted(i),
                      StoreAction(i)}
    ensures !Enabled(Apply(st, Crash(i)), step) && Apply(st, Crash(i)).shm == st.shm
  {
  }

  /** The watchdog's visit to one slot: acknowledge if its process is gone. */
  function Visit(st: State, i: nat): (r: State)
    requires Sized(st) && i < |st.threads|
    ensures Sized(r) && r.threads == st.threads
  {
    if !st.threads[i].alive && st.shm.marker[i] != 0 then ProxyStep(st, i) else st
  }

  /** The watchdog's pass over the first `k` slots. */
  function Sweep(st: State, k: nat): (r: State)
    requires Sized(st) && k <= |st.threads|
    ensures Sized(r) && r.threads == st.threads
  {
    if k == 0 then st else Visit(Sweep(st, k - 1), k - 1)
  }

  lemma VisitEffect(st: State, i: nat)
    requires Inv(st) && i < |st.threads|
    ensures Inv(Visit(st, i)) && Visit(st, i).shm.cmdSeq == st.shm.cmdSeq
    ensures Visit(st, i).shm.marker == if st.threads[i].alive then st.shm.marker else st.shm.marker[i := 0]
  {
    if !st.threads[i].alive {
      if st.shm.Owes(i) {
        ProxyKeepsInv(st, i);
        ProxyOwed(st, i);
      } else {
        assert st.shm.marker[i] == 0;
        assert st.shm.marker[i := 0] == st.shm.marker;
      }
    }
  }

  /** The markers once the first `k` gone processes have been acknowledged for. */
  function Cleared(marker: seq<nat>, threads: seq<Thread>, k: nat): (r: seq<nat>)
    requires |marker| == |threads| && k <= |threads|
    ensures |r| == |marker|
    ensures forall i :: 0 <= i < |r| ==> r[i] == if i < k && !threads[i].alive then 0 else marker[i]
  {
    if k == 0 then marker else
      var before := Cleared(marker, threads, k - 1);
      if threads[k - 1].alive then before else before[k - 1 := 0]
  }

  /** What a pass over the first `k` slots makes of `st`. */
  predicate Swept(st: State, after: State, k: nat)
    requires Sized(st) && k <= |st.threads|
  {
    && Inv(after)
    && after.threads == st.threads
    && after.shm.cmdSeq == st.shm.cmdSeq
    && after.shm.marker == Cleared(st.shm.marker, st.threads, k)
  }

  lemma VisitExtends(st: State, before: State, k: nat)
    requires Sized(st) && k < |st.threads| && Swept(st, before, k)
    ensures Swept(st, Visit(before, k), k + 1)
  {
    VisitEffect(before, k);
  }

  lemma {:induction false} SweepClears(st: State, k: nat)
    requires Inv(st) && k <= |st.threads|
    ensures Swept(st, Sweep(st, k), k)
  {
    if k > 0 {
      SweepClears(st, k - 1);
      VisitExtends(st, Sweep(st, k - 1), k - 1);
    }
  }

  /** After any mix of deaths, unregistrations and resets, once only gone processes owe
      the command, one watchdog pass and its closing poll complete it. */
  lemma WatchdogConverges(vnpu: seq<nat>, steps: seq<Step>)
    requires SafeRun(Init(vnpu), steps)
    ensures Executable(Init(vnpu), steps)
    ensures var st := Run(Init(vnpu), steps);
            && Sized(st)
            && ((forall i :: 0 <= i < |st.threads| && st.shm.Owes(i) ==> !st.threads[i].alive) ==>
                  Apply(Sweep(st, |st.threads|), Poll).shm.completed)
  {
    InitInv(vnpu);
    SafeRunKeepsInv(Init(vnpu), steps);
    var st := Run(Init(vnpu), steps);
    if forall i :: 0 <= i < |st.threads| && st.shm.Owes(i) ==> !st.threads[i].alive {
      var swept := Sweep(st, |st.threads|);
      SweepClears(st, |st.threads|);
      forall i | 0 <= i < |swept.shm.marker|
        ensures !Owing(swept.shm.marker[i], swept.shm.cmdSeq)
      {
        assert st.shm.Owes(i) ==> !st.threads[i].alive;
      }
      PollCompletesIff(swept);
    }
  }

  // ---------------------------------------------------------------------------
  // A pending command can always be driven to completion
  // ---------------------------------------------------------------------------

  predicate Fewer(st: State, st': State) {
    && Sized(st) && Sized(st') && |st.threads| == |st'.threads|
    && forall j :: 0 <= j < |st.threads| && st'.shm.Owes(j) ==> st.shm.Owes(j)
  }

  lemma {:induction false} RunConcat(st: State, a: seq<Step>, b: seq<Step>)
    requires Executable(st, a) && Executable(Run(st, a), b)
    ensures Executable(st, a + b) && Run(st, a + b) == Run(Run(st, a), b)
    decreases |a|
  {
    if a == [] {
      assert a + b == b;
    } else {
      assert (a + b)[0] == a[0] && (a + b)[1..] == a[1..] + b;
      var next := Apply(st, a[0]);
      RunConcat(next, a[1..], b);
    }
  }

  lemma {:induction false} SafeConcat(st: State, a: seq<Step>, b: seq<Step>)
    requires SafeRun(st, a) && Executable(st, a) && SafeRun(Run(st, a), b)
    ensures SafeRun(st, a + b)
    decreases |a|
  {
    if a == [] {
      assert a + b == b;
    } else {
      assert (a + b)[0] == a[0] && (a + b)[1..] == a[1..] + b;
      var next := Apply(st, a[0]);
      SafeConcat(next, a[1..], b);
    }
  }

  lemma One(st: State, step: Step)
    requires Inv(st) && Enabled(st, step) && Safe(st, step)
    ensures SafeRun(st, [step]) && Executable(st, [step]) && Run(st, [step]) == Apply(st, step)
    ensures Inv(Apply(st, step))
  {
    StepKeepsInv(st, step);
    assert SafeRun(Apply(st, step), []) && Executable(Apply(st, step), []);
    assert [step][1..] == [];
  }

  function Rank(pc: Pc): nat {
    match pc
    case Acking(_) => 1
    case Polling => 2
    case Decremented(_) => 3
    case Exchanged(_) => 4
    case _ => 0
  }

  /** The next step that brings slot `i` closer to owing nothing. */
  function NextStep(t: Thread, i: nat): Step {
    if !t.alive then Proxy(i) else
      match t.pc
      case Acking(_) => Exchange(i)
      case Polling => Observe(i)
      case Decremented(_) => Recheck(i)
      case _ => Decrement(i)
  }

  lemma NextStepHelps(st: State, i: nat)
    requires Inv(st) && i < |st.threads| && st.shm.Owes(i)
    ensures Enabled(st, NextStep(st.threads[i], i)) && Safe(st, NextStep(st.threads[i], i))
    ensures var next := Apply(st, NextStep(st.threads[i], i));
            && Fewer(st, next)
            && (next.shm.Owes(i) ==> Rank(next.threads[i].pc) < Rank(st.threads[i].pc))
  {
    assert PcOk(st, i) && !st.shm.NoneOwes() && !st.shm.completed;
    if !st.threads[i].alive {
      ProxyOwed(st, i);
    }
  }

  /** Whatever a slot's process is doing, a few of its own steps (or one proxy
      acknowledgement, if it is gone) leave the slot owing nothing. */
  lemma {:induction false} Settle(st: State, i: nat) returns (steps: seq<Step>)
    requires Inv(st) && i < |st.threads|
    ensures SafeRun(st, steps) && Executable(st, steps)
    ensures Inv(Run(st, steps)) && Fewer(st, Run(st, steps)) && !Run(st, steps).shm.Owes(i)
    decreases Bit(st.shm.Owes(i)), Rank(st.threads[i].pc)
  {
    if !st.shm.Owes(i) {
      return [];
    }
    var step := NextStep(st.threads[i], i);
    NextStepHelps(st, i);
    One(st, step);
    var rest := Settle(Apply(st, step), i);
    RunConcat(st, [step], rest);
    SafeConcat(st, [step], rest);
    steps := [step] + rest;
  }

  lemma {:induction false} SettleAll(st: State, k: nat) returns (steps: seq<Step>)
    requires Inv(st) && k <= |st.threads|
    ensures SafeRun(st, steps) && Executable(st, steps)
    ensures Inv(Run(st, steps)) && Fewer(st, Run(st, steps))
    ensures forall i :: 0 <= i < k ==> !Run(st, steps).shm.Owes(i)
  {
    if k == 0 {
      return [];
    }
    var before := SettleAll(st, k - 1);
    var mid := Run(st, before);
    var last := Settle(mid, k - 1);
    RunConcat(st, before, last);
    SafeConcat(st, before, last);
    steps := before + last;
  }

  /** From every state of every safe run the pending command can still be completed, by
      steps of the owing processes, proxy acknowledgements for the gone ones and a poll. */
  lemma CompletionStaysPossible(vnpu: seq<nat>, steps: seq<Step>) returns (more: seq<Step>)
    requires SafeRun(Init(vnpu), steps)
    ensures Executable(Init(vnpu), steps)
    ensures var st := Run(Init(vnpu), steps);
            SafeRun(st, more) && Executable(st, more) && Run(st, more).shm.completed
  {
    InitInv(vnpu);
    SafeRunKeepsInv(Init(vnpu), steps);
    var st := Run(Init(vnpu), steps);
    var settle := SettleAll(st, |st.threads|);
    var quiet := Run(st, settle);
    forall i | 0 <= i < |quiet.shm.marker|
      ensures !Owing(quiet.shm.marker[i], quiet.shm.cmdSeq)
    {
      assert !quiet.shm.Owes(i);
    }
    PollCompletesIff(quiet);
    One(quiet, Poll);
    RunConcat(st, settle, [Poll]);
    SafeConcat(st, settle, [Poll]);
    more := settle + [Poll];
  }
}
