/**
 The launch gate of MCS (`mcs/src/mcs_sched.c`): a normal-priority launch waits while a
 high-priority vNPU is active, unless `limit` high-priority launches have been counted;
 passing the gate resets the count.

 The activity check, the read of the counter and the reset are separate steps, and the
 steps of the processes interleave freely.
 */
module McsGate {
  import opened Sums

  // ---------------------------------------------------------------------------
  // Activity
  // ---------------------------------------------------------------------------

  const NO_TASK_TIMEOUT_NS: nat := 5000000

  /** For a normal vNPU: another vNPU of high priority has launched within five milliseconds
      of `now`, on either side of the clock. */
  predicate HighActive(priority: seq<int>, last: seq<nat>, me: int, now: nat)
    requires |priority| == |last|
  {
    && 0 <= me < |priority| && priority[me] == 0
    && exists i :: 0 <= i < |priority| && i != me && priority[i] == 1 && last[i] != 0
                   && now - 5000000 <= last[i] <= now + 5000000
  }

  /** `mcs_has_high_priority_active`. */
  method HasHighPriorityActive(priority: seq<int>, last: seq<nat>, me: int, now: nat) returns (active: bool)
    requires |priority| == |last|
    ensures active <==> HighActive(priority, last, me, now)
  {
    if me < 0 || me >= |priority| || priority[me] != 0 {
      return false;
    }
    for i := 0 to |priority|
      invariant forall j :: 0 <= j < i && j != me && priority[j] == 1 && last[j] != 0 ==>
                  !(now - 5000000 <= last[j] <= now + 5000000)
    {
      if i != me && priority[i] == 1 && last[i] != 0 {
        if now >= last[i] && now - last[i] <= NO_TASK_TIMEOUT_NS {
          return true;
        }
        if now < last[i] && last[i] - now <= NO_TASK_TIMEOUT_NS {
          return true;
        }
      }
    }
    active := false;
  }

  // ---------------------------------------------------------------------------
  // The gate as a state machine
  // ---------------------------------------------------------------------------

  /** `Passed(contended)`: through the gate, about to reset; contended when it got through
      on the counter and not because no high-priority vNPU was active. */
  datatype Phase = Outside | SawActive | Passed(contended: bool)

  /** One normal process: its contended launches so far, and the number of high-priority
      launches at its last reset. */
  datatype Proc = Proc(phase: Phase, launches: nat, mark: nat)

  /** The shared counter, all high-priority launches so far, and the normal processes. */
  datatype State = State(count: nat, highs: nat, procs: seq<Proc>)

  datatype Step = High | Check(p: nat, active: bool) | ReadCount(p: nat) | Reset(p: nat)

  predicate Enabled(st: State, s: Step) {
    match s
    case High => true
    case Check(p, _) => p < |st.procs| && st.procs[p].phase == Outside
    case ReadCount(p) => p < |st.procs| && st.procs[p].phase == SawActive
    case Reset(p) => p < |st.procs| && st.procs[p].phase.Passed?
  }

  function Apply(st: State, s: Step, limit: nat): State
    requires Enabled(st, s)
  {
    match s
    case High => st.(count := st.count + 1, highs := st.highs + 1)
    case Check(p, active) =>
      st.(procs := st.procs[p := st.procs[p].(phase := if active then SawActive else Passed(false))])
    case ReadCount(p) =>
      st.(procs := st.procs[p := st.procs[p].(phase := if st.count < limit then Outside else Passed(true))])
    case Reset(p) =>
      var pr := st.procs[p];
      st.(count := 0,
          procs := st.procs[p := Proc(Outside, pr.launches + (if pr.phase.contended then 1 else 0), st.highs)])
  }

  predicate Executes(st: State, steps: seq<Step>, limit: nat)
    decreases |steps|
  {
    |steps| == 0 || (Enabled(st, steps[0]) && Executes(Apply(st, steps[0], limit), steps[1..], limit))
  }

  function Run(st: State, steps: seq<Step>, limit: nat): State
    requires Executes(st, steps, limit)
    decreases |steps|
  {
    if |steps| == 0 then st else Run(Apply(st, steps[0], limit), steps[1..], limit)
  }

  function Init(n: nat): State { State(0, 0, seq(n, _ => Proc(Outside, 0, 0))) }

  function Launches(pr: Proc): int { pr.launches }

  /** Contended launches of all normal processes together. */
  function Total(st: State): int { Sum(st.procs, Launches) }

  // ---------------------------------------------------------------------------
  // What the gate lets through
  // ---------------------------------------------------------------------------

  /** One turn of the waiting loop, nobody else moving: the check, and the read of the
      counter if the check saw activity. */
  function Round(st: State, p: nat, active: bool, limit: nat): State
    requires Enabled(st, Check(p, active))
  {
    var checked := Apply(st, Check(p, active), limit);
    if Enabled(checked, ReadCount(p)) then Apply(checked, ReadCount(p), limit) else checked
  }

  /** From every state a waiter gets through exactly when no high-priority vNPU is active or
      the counter has reached the limit, in the first case whatever the counter shows; it
      can then launch, which starts the count again.  Otherwise everything is as before. */
  lemma RoundPassesIff(st: State, p: nat, active: bool, limit: nat)
    requires Enabled(st, Check(p, active))
    ensures var st' := Round(st, p, active, limit);
            && |st'.procs| == |st.procs|
            && (Enabled(st', Reset(p)) <==> !active || st.count >= limit)
            && (Enabled(st', Reset(p)) ==>
                  && st'.procs[p].phase == Passed(active)
                  && Apply(st', Reset(p), limit).count == 0
                  && Apply(st', Reset(p), limit).procs[p].phase == Outside)
            && (!Enabled(st', Reset(p)) ==> st' == st)
  {
    assert st.procs[p := st.procs[p]] == st.procs;
  }

  /** The condition of the waiting loop of `mcs_before_launch`. */
  method MustWait(priority: seq<int>, last: seq<nat>, me: int, now: nat, count: nat, limit: nat) returns (wait: bool)
    requires |priority| == |last|
    ensures wait <==> HighActive(priority, last, me, now) && count < limit
    ensures forall st, p :: Enabled(st, Check(p, HighActive(priority, last, me, now))) && st.count == count ==>
              (wait <==> !Enabled(Round(st, p, HighActive(priority, last, me, now), limit), Reset(p)))
  {
    wait := HasHighPriorityActive(priority, last, me, now);
    ghost var active := wait;
    wait := wait && count < limit;
    forall st, p | Enabled(st, Check(p, active)) && st.count == count
      ensures wait <==> !Enabled(Round(st, p, active, limit), Reset(p))
    {
      RoundPassesIff(st, p, active, limit);
    }
  }

  // ---------------------------------------------------------------------------
  // The bound for each process
  // ---------------------------------------------------------------------------

  /** Since its last reset at most `highs - mark` launches were counted. */
  predicate ProcOk(pr: Proc, count: nat, highs: nat, limit: nat) {
    && count + pr.mark <= highs
    && pr.launches * limit <= pr.mark
    && (pr.phase == Passed(true) ==> (pr.launches + 1) * limit <= highs)
  }

  predicate Inv(st: State, limit: nat) {
    forall p :: 0 <= p < |st.procs| ==> ProcOk(st.procs[p], st.count, st.highs, limit)
  }

  lemma OneMore(launches: nat, limit: nat)
    ensures (launches + 1) * limit == launches * limit + limit
  {
  }

  lemma StepKeepsInv(st: State, s: Step, limit: nat)
    requires Inv(st, limit) && Enabled(st, s)
    ensures Inv(Apply(st, s, limit), limit)
  {
    var st' := Apply(st, s, limit);
    forall p | 0 <= p < |st'.procs|
      ensures ProcOk(st'.procs[p], st'.count, st'.highs, limit)
    {
      assert ProcOk(st.procs[p], st.count, st.highs, limit);
      OneMore(st.procs[p].launches, limit);
    }
  }

  lemma {:induction false} RunKeepsInv(st: State, steps: seq<Step>, limit: nat)
    requires Inv(st, limit) && Executes(st, steps, limit)
    ensures Inv(Run(st, steps, limit), limit)
    decreases |steps|
  {
    if |steps| > 0 {
      StepKeepsInv(st, steps[0], limit);
      RunKeepsInv(Apply(st, steps[0], limit), steps[1..], limit);
    }
  }

  lemma {:induction false} RunKeepsProcs(st: State, steps: seq<Step>, limit: nat)
    requires Executes(st, steps, limit)
    ensures |Run(st, steps, limit).procs| == |st.procs|
    decreases |steps|
  {
    if |steps| > 0 {
      RunKeepsProcs(Apply(st, steps[0], limit), steps[1..], limit);
    }
  }

  lemma {:induction false} SumAtMost(procs: seq<Proc>, limit: nat, highs: nat)
    requires forall pr :: pr in procs ==> pr.launches * limit <= highs
    ensures Sum(procs, Launches) * limit <= |procs| * highs
  {
    if |procs| > 0 {
      var n := |procs| - 1;
      SumAtMost(procs[..n], limit, highs);
      assert Sum(procs, Launches) * limit == Sum(procs[..n], Launches) * limit + procs[n].launches * limit;
      assert |procs| * highs == n * highs + highs;
    }
  }

  /** In every interleaving of `n` normal processes, each one's contended launches are
      paid for by `limit` high-priority launches apiece; together they are within `n`
      times that. */
  lemma AntiStarvationBound(n: nat, steps: seq<Step>, limit: nat)
    requires Executes(Init(n), steps, limit)
    ensures var st := Run(Init(n), steps, limit);
            && (forall pr :: pr in st.procs ==> pr.launches * limit <= st.highs)
            && Total(st) * limit <= n * st.highs
  {
    RunKeepsInv(Init(n), steps, limit);
    RunKeepsProcs(Init(n), steps, limit);
    var st := Run(Init(n), steps, limit);
    forall pr | pr in st.procs
      ensures pr.launches * limit <= st.highs
    {
      var p :| 0 <= p < |st.procs| && st.procs[p] == pr;
      assert ProcOk(st.procs[p], st.count, st.highs, limit);
    }
    SumAtMost(st.procs, limit, st.highs);
  }

  // ---------------------------------------------------------------------------
  // The bound for all processes when gate and reset do not overlap
  // ---------------------------------------------------------------------------

  function Pending(pr: Proc): int { if pr.phase == Passed(true) then 1 else 0 }

  /** No two processes are ever between passing on the counter and resetting it, as when
      the read and the reset were one atomic operation. */
  predicate Exclusive(st: State, steps: seq<Step>, limit: nat)
    requires Executes(st, steps, limit)
    decreases |steps|
  {
    |steps| == 0 ||
    ((steps[0].ReadCount? && st.count >= limit ==> Sum(st.procs, Pending) == 0) &&
     Exclusive(Apply(st, steps[0], limit), steps[1..], limit))
  }

  /** Launches done or entitled are paid for, and what the counter shows is not yet spent. */
  predicate Paid(st: State, limit: nat) {
    && 0 <= Sum(st.procs, Pending) <= 1
    && (Total(st) + Sum(st.procs, Pending)) * limit + (if Sum(st.procs, Pending) == 0 then st.count else 0) <= st.highs
  }

  lemma StepKeepsPaid(st: State, s: Step, limit: nat)
    requires Paid(st, limit) && Enabled(st, s)
    requires s.ReadCount? && st.count >= limit ==> Sum(st.procs, Pending) == 0
    ensures Paid(Apply(st, s, limit), limit)
  {
    var st' := Apply(st, s, limit);
    if !s.High? {
      var pr := st'.procs[s.p];
      assert st'.procs == st.procs[s.p := pr];
      SumUpdate(st.procs, s.p, pr, Pending);
      SumUpdate(st.procs, s.p, pr, Launches);
      SumNonNegative(st'.procs, Pending);
      assert (Total(st) + 1) * limit == Total(st) * limit + limit;
    }
  }

  lemma {:induction false} RunKeepsPaid(st: State, steps: seq<Step>, limit: nat)
    requires Paid(st, limit) && Executes(st, steps, limit) && Exclusive(st, steps, limit)
    ensures Paid(Run(st, steps, limit), limit)
    decreases |steps|
  {
    if |steps| > 0 {
      StepKeepsPaid(st, steps[0], limit);
      RunKeepsPaid(Apply(st, steps[0], limit), steps[1..], limit);
    }
  }

  /** With gate and reset as one step the bound holds for all normal launches together. */
  lemma ExclusiveBound(n: nat, steps: seq<Step>, limit: nat)
    requires Executes(Init(n), steps, limit) && Exclusive(Init(n), steps, limit)
    ensures Total(Run(Init(n), steps, limit)) * limit <= Run(Init(n), steps, limit).highs
  {
    var st := Init(n);
    SumZero(st.procs, Pending);
    SumZero(st.procs, Launches);
    RunKeepsPaid(st, steps, limit);
    var last := Run(st, steps, limit);
    assert (Total(last) + 1) * limit == Total(last) * limit + limit;
  }

  // ---------------------------------------------------------------------------
  // One launch per burst: only with a single waiter
  // ---------------------------------------------------------------------------

  /** In every run, all contended launches together are within one per `limit`
      high-priority launches. */
  ghost predicate OnePerBurst(n: nat, limit: nat) {
    forall steps :: Executes(Init(n), steps, limit) ==>
      Total(Run(Init(n), steps, limit)) * limit <= Run(Init(n), steps, limit).highs
  }

  ghost predicate Reached(n: nat, limit: nat, st: State) {
    exists steps :: Executes(Init(n), steps, limit) && Run(Init(n), steps, limit) == st
  }

  lemma {:induction false} Extend(from: State, steps: seq<Step>, s: Step, limit: nat)
    requires Executes(from, steps, limit) && Enabled(Run(from, steps, limit), s)
    ensures Executes(from, steps + [s], limit)
    ensures Run(from, steps + [s], limit) == Apply(Run(from, steps, limit), s, limit)
    decreases |steps|
  {
    if |steps| > 0 {
      assert (steps + [s])[0] == steps[0] && (steps + [s])[1..] == steps[1..] + [s];
      Extend(Apply(from, steps[0], limit), steps[1..], s, limit);
    } else {
      assert steps + [s] == [s];
      assert Run(Apply(from, s, limit), [], limit) == Apply(from, s, limit);
    }
  }

  lemma Reach(n: nat, limit: nat, st: State, s: Step)
    requires Reached(n, limit, st) && Enabled(st, s)
    ensures Reached(n, limit, Apply(st, s, limit))
  {
    var steps :| Executes(Init(n), steps, limit) && Run(Init(n), steps, limit) == st;
    Extend(Init(n), steps, s, limit);
  }

  /** The first `i` of `n` processes have passed, then the first `j` have reset. */
  function Waiters(n: nat, i: nat, j: nat, highs: nat): seq<Proc> {
    seq(n, p => if p < j then Proc(Outside, 1, highs) else if p < i then Proc(Passed(true), 0, 0)
                else Proc(Outside, 0, 0))
  }

  lemma {:induction false} Burst(n: nat, limit: nat, k: nat)
    ensures Reached(n, limit, State(k, k, Waiters(n, 0, 0, limit)))
  {
    var st := State(k, k, Waiters(n, 0, 0, limit));
    if k == 0 {
      assert Executes(Init(n), [], limit) && Run(Init(n), [], limit) == Init(n);
      assert Init(n).procs == st.procs;
    } else {
      Burst(n, limit, k - 1);
      Reach(n, limit, State(k - 1, k - 1, Waiters(n, 0, 0, limit)), High);
    }
  }

  lemma {:induction false} AllPass(n: nat, limit: nat, i: nat)
    requires i <= n
    ensures Reached(n, limit, State(limit, limit, Waiters(n, i, 0, limit)))
  {
    if i == 0 {
      Burst(n, limit, limit);
    } else {
      AllPass(n, limit, i - 1);
      var st := State(limit, limit, Waiters(n, i - 1, 0, limit));
      Reach(n, limit, st, Check(i - 1, true));
      var mid := Apply(st, Check(i - 1, true), limit);
      Reach(n, limit, mid, ReadCount(i - 1));
      assert Apply(mid, ReadCount(i - 1), limit).procs == Waiters(n, i, 0, limit);
    }
  }

  lemma {:induction false} AllReset(n: nat, limit: nat, j: nat)
    requires 1 <= j <= n
    ensures Reached(n, limit, State(0, limit, Waiters(n, n, j, limit)))
  {
    var st := State(if j == 1 then limit else 0, limit, Waiters(n, n, j - 1, limit));
    if j == 1 {
      AllPass(n, limit, n);
    } else {
      AllReset(n, limit, j - 1);
    }
    Reach(n, limit, st, Reset(j - 1));
    assert Apply(st, Reset(j - 1), limit).procs == Waiters(n, n, j, limit);
  }

  lemma {:induction false} OneEach(procs: seq<Proc>)
    requires forall p :: 0 <= p < |procs| ==> procs[p].launches == 1
    ensures Sum(procs, Launches) == |procs|
  {
    if |procs| > 0 {
      OneEach(procs[..|procs| - 1]);
    }
  }

  /** The bound of `AntiStarvationBound` is attained: `limit` high-priority launches can
      entitle every one of `n` waiters. */
  lemma BoundIsTight(n: nat, limit: nat)
    requires n > 0
    ensures exists steps :: Executes(Init(n), steps, limit) &&
              Total(Run(Init(n), steps, limit)) == n && Run(Init(n), steps, limit).highs == limit
  {
    AllReset(n, limit, n);
    var st := State(0, limit, Waiters(n, n, n, limit));
    var steps :| Executes(Init(n), steps, limit) && Run(Init(n), steps, limit) == st;
    OneEach(st.procs);
  }

  /** At most one normal launch per burst, as documented, holds exactly when there is at
      most one normal process. */
  lemma OnePerBurstIff(n: nat, limit: nat)
    requires limit > 0
    ensures OnePerBurst(n, limit) <==> n <= 1
  {
    if n <= 1 {
      forall steps | Executes(Init(n), steps, limit)
        ensures Total(Run(Init(n), steps, limit)) * limit <= Run(Init(n), steps, limit).highs
      {
        AntiStarvationBound(n, steps, limit);
      }
    } else {
      BoundIsTight(n, limit);
      var steps :| Executes(Init(n), steps, limit) &&
        Total(Run(Init(n), steps, limit)) == n && Run(Init(n), steps, limit).highs == limit;
      assert n * limit >= 2 * limit;
    }
  }

  // ---------------------------------------------------------------------------
  // No starvation
  // ---------------------------------------------------------------------------

  function HighSteps(steps: seq<Step>): nat {
    if |steps| == 0 then 0 else (if steps[0].High? then 1 else 0) + HighSteps(steps[1..])
  }

  /** After `limit` high-priority launches with no reset in between, the next read of the
      counter lets the waiter through. */
  lemma {:induction false} WaiterPasses(st: State, steps: seq<Step>, limit: nat, p: nat)
    requires Executes(st, steps, limit) && (forall s :: s in steps ==> !s.Reset?)
    requires st.count + HighSteps(steps) >= limit
    requires Enabled(Run(st, steps, limit), ReadCount(p))
    ensures Apply(Run(st, steps, limit), ReadCount(p), limit).procs[p].phase == Passed(true)
    decreases |steps|
  {
    if |steps| > 0 {
      WaiterPasses(Apply(st, steps[0], limit), steps[1..], limit, p);
    }
  }
}
