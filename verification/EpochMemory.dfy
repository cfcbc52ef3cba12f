/**
 The swap-command operations as the code runs them on shared memory, in place, each
 proved against the step functions of `EpochProtocol`.
 */
module EpochMemory {
  import opened EpochProtocol
  import opened EpochTheorems

  /** `shm_try_ack_swap_cmd` when nobody else moves: one slot acknowledges `epoch`. */
  function AckAlone(s: Shm, i: nat, epoch: nat): Shm
    requires s.Wf() && i < |s.marker|
  {
    var cleared := s.(marker := s.marker[i := 0]);
    if epoch == 0 then s else if s.marker[i] != epoch then cleared else
      var acked := cleared.(refcount := s.refcount - 1);
      if s.cmdSeq == epoch && s.action == SwapOut && acked.AckDone(s.vnpu[i], epoch) then Complete(acked) else acked
  }

  class Die {
    const vnpu: seq<nat>
    const active: array<bool>
    const marker: array<nat>
    var cmdSeq: nat
    var action: Action
    var completed: bool
    var refcount: int
    var target: nat

    predicate Valid() {
      active.Length == marker.Length == |vnpu|
    }

    function View(): (s: Shm)
      requires Valid()
      reads this, active, marker
      ensures s.Wf()
    {
      Shm(cmdSeq, action, completed, refcount, target, vnpu, active[..], marker[..])
    }

    constructor (vnpu: seq<nat>)
      ensures Valid() && fresh(active) && fresh(marker)
      ensures View() == Init(vnpu).shm
    {
      this.vnpu := vnpu;
      active := new bool[|vnpu|](_ => false);
      marker := new nat[|vnpu|](_ => 0);
      cmdSeq, action, completed, refcount, target := 0, NoAction, true, 0, 0;
    }

    /** `shm_swap_ack_done` and `swap_cmd_has_pending_ack_locked`. */
    method AckDone(v: nat, epoch: nat) returns (done: bool)
      requires Valid()
      ensures done <==> View().AckDone(v, epoch)
    {
      if epoch == 0 {
        return true;
      }
      for i := 0 to marker.Length
        invariant forall j :: 0 <= j < i && vnpu[j] == v ==> marker[j] != epoch
      {
        if vnpu[i] == v && marker[i] == epoch {
          assert View().marker[i] == epoch;
          return false;
        }
      }
      return true;
    }

    method AckSwapCmd()
      requires Valid()
      modifies this
      ensures View() == Complete(old(View()))
    {
      completed := true;
      action := NoAction;
    }

    /** `shm_manager_write_swap_cmd` with a swap-out action. */
    method WriteSwapOut(v: nat)
      requires Valid()
      modifies this, marker
      ensures View() == IssueOut(old(View()), v)
      ensures forall i :: 0 <= i < marker.Length ==>
                marker[i] == if vnpu[i] == v && active[i] then cmdSeq else old(marker[i])
    {
      ghost var before := View();
      target := v;
      cmdSeq := cmdSeq + 1;
      var count := 0;
      for i := 0 to marker.Length
        invariant count == ActiveCount(before, v, i)
        invariant forall j :: 0 <= j < i ==> marker[j] == if Marks(before, v, j) then cmdSeq else before.marker[j]
        invariant forall j :: i <= j < marker.Length ==> marker[j] == before.marker[j]
        invariant active[..] == before.active
        invariant cmdSeq == before.cmdSeq + 1 && target == v
      {
        if vnpu[i] == v && active[i] {
          marker[i] := cmdSeq;
          count := count + 1;
        }
      }
      refcount := count;
      completed := count == 0;
      action := SwapOut;
      assert marker[..] == IssueOut(before, v).marker;
    }

    /** `shm_manager_proxy_ack_process`. */
    method ProxyAckProcess(i: nat)
      requires Valid() && i < marker.Length
      modifies this, marker
      ensures View() == ProxyAck(old(View()), i)
    {
      if action != SwapOut || cmdSeq == 0 {
        return;
      }
      var was := marker[i];
      marker[i] := 0;
      if was != cmdSeq {
        return;
      }
      refcount := refcount - 1;
      var done := AckDone(vnpu[i], cmdSeq);
      if done {
        AckSwapCmd();
      }
    }

    /** `shm_manager_try_complete_swap_cmd`. */
    method TryCompleteSwapCmd()
      requires Valid()
      modifies this
      ensures View() == TryComplete(old(View()))
    {
      if completed || action != SwapOut || cmdSeq == 0 {
        return;
      }
      var done := AckDone(target, cmdSeq);
      if done {
        AckSwapCmd();
      }
    }

    /** `shm_try_ack_swap_cmd`; a negative result means there was nothing to acknowledge. */
    method TryAckSwapCmd(i: nat, epoch: nat) returns (remain: int)
      requires Valid() && i < marker.Length
      modifies this, marker
      ensures View() == AckAlone(old(View()), i, epoch)
      ensures remain < 0 <==> epoch == 0 || old(marker[i]) != epoch
    {
      if epoch == 0 {
        return -1;
      }
      var was := marker[i];
      marker[i] := 0;
      if was != epoch {
        return -1;
      }
      var prev := refcount;
      refcount := refcount - 1;
      remain := if prev > 0 then prev - 1 else 0;
      if cmdSeq == epoch && action == SwapOut {
        var done := AckDone(vnpu[i], epoch);
        if done {
          AckSwapCmd();
        }
      }
    }

    /** The swap part of one `pod_watchdog_poll_and_cleanup`: acknowledge for every gone
        process, then the closing completion scan. */
    method PollAndCleanup(gone: seq<bool>)
      requires Valid() && |gone| == marker.Length
      modifies this, marker
      ensures View() == TryComplete(VisitAll(old(View()), gone, |gone|))
    {
      ghost var before := View();
      for i := 0 to marker.Length
        invariant View() == VisitAll(before, gone, i)
      {
        if gone[i] && marker[i] != 0 {
          ProxyAckProcess(i);
        }
      }
      TryCompleteSwapCmd();
    }
  }

  function VisitAll(s: Shm, gone: seq<bool>, k: nat): (r: Shm)
    requires s.Wf() && k <= |gone| == |s.marker|
    ensures r.Wf() && |r.marker| == |s.marker|
  {
    if k == 0 then s else
      var before := VisitAll(s, gone, k - 1);
      if gone[k - 1] && before.marker[k - 1] != 0 then ProxyAck(before, k - 1) else before
  }

  // ---------------------------------------------------------------------------
  // The methods and the protocol
  // ---------------------------------------------------------------------------

  function Gone(st: State): seq<bool> {
    seq(|st.threads|, i requires 0 <= i < |st.threads| => !st.threads[i].alive)
  }

  lemma VisitIsProxy(st: State, i: nat)
    requires Sized(st) && i < |st.threads|
    ensures Visit(st, i).shm ==
      if !st.threads[i].alive && st.shm.marker[i] != 0 then ProxyAck(st.shm, i) else st.shm
  {
  }

  /** The watchdog's loop is the protocol's pass over the slots. */
  lemma {:induction false} VisitAllIsSweep(st: State, k: nat)
    requires Sized(st) && k <= |st.threads|
    ensures Sweep(st, k).shm == VisitAll(st.shm, Gone(st), k)
  {
    if k > 0 {
      VisitAllIsSweep(st, k - 1);
      var before := Sweep(st, k - 1);
      VisitIsProxy(before, k - 1);
      assert Gone(st)[k - 1] == !before.threads[k - 1].alive;
      assert Sweep(st, k).shm == Visit(before, k - 1).shm;
    }
  }

  predicate ReadyToAck(st: State, i: nat) {
    Sized(st) && i < |st.threads| && st.threads[i].alive && st.threads[i].pc.Acking? && st.threads[i].pc.epoch != 0
  }

  /** The steps of one thread from its re-check until it polls again. */
  function FinishSteps(st: State, i: nat): State
    requires Sized(st) && i < |st.threads| && st.threads[i].alive && st.threads[i].pc.Decremented?
  {
    var checked := Apply(st, Recheck(i));
    if checked.threads[i].pc.Polling? then checked else
      Apply(Apply(checked, StoreCompleted(i)), StoreAction(i))
  }

  /** The steps of one thread from its exchange until it polls again. */
  function AckSteps(st: State, i: nat): State
    requires ReadyToAck(st, i)
  {
    var s1 := Apply(st, Exchange(i));
    if s1.threads[i].pc.Polling? then s1 else FinishSteps(Apply(s1, Decrement(i)), i)
  }

  lemma FinishStepsComplete(st: State, i: nat)
    requires Sized(st) && i < |st.threads| && st.threads[i].alive && st.threads[i].pc.Decremented?
    ensures var s, epoch := st.shm, st.threads[i].pc.epoch;
            FinishSteps(st, i).shm ==
              if s.cmdSeq == epoch && s.action == SwapOut && s.AckDone(s.vnpu[i], epoch) then Complete(s) else s
  {
  }

  /** An undisturbed acknowledgement is the method's effect: the thread's steps, run
      back to back, leave shared memory as `AckAlone` says. */
  lemma StepsAckAlone(st: State, i: nat)
    requires ReadyToAck(st, i)
    ensures AckSteps(st, i).shm == AckAlone(st.shm, i, st.threads[i].pc.epoch)
  {
    var s1 := Apply(st, Exchange(i));
    if st.shm.marker[i] == st.threads[i].pc.epoch {
      FinishStepsComplete(Apply(s1, Decrement(i)), i);
    }
  }
}
