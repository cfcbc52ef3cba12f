/**
 The swap-out command protocol of one die: the manager issues a command epoch and
 marks the slots that owe an acknowledgement, each process acknowledges its own slot,
 and the watchdog acknowledges for processes that are gone
 (`vcann-rt/src/shm_manager.c`, `enpu-manager/core/src/shm_manager.c`,
 `enpu-manager/core/src/pod_watchdog.c`).

 Manager and watchdog operations run under the manager's lock and are one step each.
 A process takes no lock: its acknowledgement is five steps, one per atomic access
 (the final re-check of epoch, action and markers is one).  Registration is one step.
 */
module EpochProtocol {

  // ---------------------------------------------------------------------------
  // Shared memory
  // ---------------------------------------------------------------------------

  datatype Action = NoAction | SwapOut

  /** `swap_cmd` and, per process slot, its vNPU, `active` and `ack_pending_seq`. */
  datatype Shm = Shm(
    cmdSeq: nat,
    action: Action,
    completed: bool,
    refcount: int,
    target: nat,
    vnpu: seq<nat>,
    active: seq<bool>,
    marker: seq<nat>)
  {
    predicate Wf() { |vnpu| == |active| == |marker| }

    /** Slot `i` owes the current epoch an acknowledgement. */
    predicate Owes(i: int)
      requires 0 <= i < |marker|
    {
      Owing(marker[i], cmdSeq)
    }

    predicate NoneOwes() { NoneOwing(marker, cmdSeq) }

    /** `shm_swap_ack_done`: no slot of vNPU `v` still carries marker `epoch`. */
    predicate AckDone(v: nat, epoch: nat)
      requires Wf()
    {
      epoch == 0 || forall i :: 0 <= i < |marker| && vnpu[i] == v ==> marker[i] != epoch
    }
  }

  predicate Owing(m: nat, epoch: nat) { m != 0 && m == epoch }

  predicate NoneOwing(marker: seq<nat>, epoch: nat) {
    forall i :: 0 <= i < |marker| ==> !Owing(marker[i], epoch)
  }

  predicate Marks(s: Shm, v: nat, i: int)
    requires s.Wf() && 0 <= i < |s.marker|
  {
    s.vnpu[i] == v && s.active[i]
  }

  /** How many of the first `k` slots are active on vNPU `v`. */
  function ActiveCount(s: Shm, v: nat, k: nat): nat
    requires s.Wf() && k <= |s.marker|
  {
    if k == 0 then 0 else ActiveCount(s, v, k - 1) + (if Marks(s, v, k - 1) then 1 else 0)
  }

  /** `shm_manager_write_swap_cmd` for a swap-out of vNPU `v`. */
  function IssueOut(s: Shm, v: nat): Shm
    requires s.Wf()
  {
    var epoch := s.cmdSeq + 1;
    var count := ActiveCount(s, v, |s.marker|);
    s.(cmdSeq := epoch, target := v, refcount := count, completed := count == 0, action := SwapOut,
       marker := seq(|s.marker|, i requires 0 <= i < |s.marker| => if Marks(s, v, i) then epoch else s.marker[i]))
  }

  function Complete(s: Shm): Shm {
    s.(completed := true, action := NoAction)
  }

  /** `shm_manager_proxy_ack_process`. */
  function ProxyAck(s: Shm, i: nat): Shm
    requires s.Wf() && i < |s.marker|
  {
    if s.action != SwapOut || s.cmdSeq == 0 then s else
      var cleared := s.(marker := s.marker[i := 0]);
      if s.marker[i] != s.cmdSeq then cleared else
        var acked := cleared.(refcount := s.refcount - 1);
        if acked.AckDone(s.vnpu[i], s.cmdSeq) then Complete(acked) else acked
  }

  /** `shm_manager_try_complete_swap_cmd`. */
  function TryComplete(s: Shm): Shm
    requires s.Wf()
  {
    if s.completed || s.action != SwapOut || s.cmdSeq == 0 || !s.AckDone(s.target, s.cmdSeq) then s
    else Complete(s)
  }

  // ---------------------------------------------------------------------------
  // Processes, history and steps
  // ---------------------------------------------------------------------------

  /** The monitor thread that serves a slot.  `Acking` holds the epoch it read;
      `Exchanged` has cleared its marker; `Decremented` has lowered the refcount;
      `Finishing` has passed the re-check; `Closing` has stored `completed`. */
  datatype Pc = Polling | Acking(epoch: nat) | Exchanged(epoch: nat) | Decremented(epoch: nat)
              | Finishing(epoch: nat) | Closing

  datatype Thread = Thread(alive: bool, lastSeen: nat, pc: Pc)

  /** What became of a slot in the current epoch: whether it was marked, how often it
      was acknowledged, and how often its marker was erased without one. */
  datatype Fate = Fate(marked: bool, acks: nat, lost: nat)

  /** `late` counts refcount decrements of older epochs that landed on this one, `stuck`
      acknowledgements whose decrement will never come, and `gone` ackers that vanished
      after it; both arise when a slot is reused after its process died mid-step. */
  datatype State = State(shm: Shm, threads: seq<Thread>, fates: seq<Fate>, late: nat, stuck: nat, gone: nat)

  datatype Step =
    | Issue(v: nat)          // resolver thread, only when the last command is completed
    | Proxy(i: nat)          // watchdog, for a process it takes to be gone
    | Poll                   // watchdog's closing completion scan
    | Provision              // shm_manager_init_state, run by every vNPU allocation
    | Register(i: nat)
    | Unregister(i: nat)
    | Reap(i: nat)           // watchdog frees the slot of a process it takes to be gone
    | Reset(i: nat)          // watchdog clears a slot of a timed-out vNPU
    | Crash(i: nat)
    | Observe(i: nat)        // monitor thread sees a new epoch
    | Exchange(i: nat)
    | Decrement(i: nat)
    | Recheck(i: nat)
    | StoreCompleted(i: nat)
    | StoreAction(i: nat)

  predicate Sized(st: State) {
    st.shm.Wf() && |st.threads| == |st.fates| == |st.shm.marker|
  }

  predicate Runs(st: State, i: nat)
    requires Sized(st)
  {
    i < |st.threads| && st.threads[i].alive
  }

  predicate Enabled(st: State, step: Step) {
    Sized(st) &&
    match step
    case Issue(_) => st.shm.completed
    case Proxy(i) => i < |st.threads|
    case Poll => true
    case Provision => true
    case Register(i) => i < |st.threads| && !st.shm.active[i] && !st.threads[i].alive
    case Unregister(i) => Runs(st, i) && st.threads[i].pc.Polling?
    case Reap(i) => i < |st.threads|
    case Reset(i) => i < |st.threads|
    case Crash(i) => Runs(st, i)
    case Observe(i) => Runs(st, i) && st.threads[i].pc.Polling? && st.threads[i].lastSeen != st.shm.cmdSeq
    case Exchange(i) => Runs(st, i) && st.threads[i].pc.Acking?
    case Decrement(i) => Runs(st, i) && st.threads[i].pc.Exchanged?
    case Recheck(i) => Runs(st, i) && st.threads[i].pc.Decremented?
    case StoreCompleted(i) => Runs(st, i) && st.threads[i].pc.Finishing?
    case StoreAction(i) => Runs(st, i) && st.threads[i].pc.Closing?
  }

  function Acked(f: Fate): Fate { f.(acks := f.acks + 1) }
  function Lost(f: Fate): Fate { f.(lost := f.lost + 1) }

  function At(st: State, i: nat, pc: Pc): State
    requires i < |st.threads|
  {
    st.(threads := st.threads[i := st.threads[i].(pc := pc)])
  }

  /** The slot's marker goes to zero outside an acknowledgement. */
  function EraseMarker(st: State, i: nat): State
    requires Sized(st) && i < |st.threads|
  {
    st.(shm := st.shm.(marker := st.shm.marker[i := 0]),
        fates := if st.shm.Owes(i) then st.fates[i := Lost(st.fates[i])] else st.fates)
  }

  function ProxyStep(st: State, i: nat): State
    requires Sized(st) && i < |st.threads|
  {
    st.(shm := ProxyAck(st.shm, i),
        fates := if st.shm.action == SwapOut && st.shm.Owes(i) then st.fates[i := Acked(st.fates[i])] else st.fates)
  }

  function Apply(st: State, step: Step): State
    requires Enabled(st, step)
  {
    var s := st.shm;
    match step
    case Issue(v) =>
      st.(shm := IssueOut(s, v), late := 0, stuck := 0, gone := 0,
          fates := seq(|s.marker|, i requires 0 <= i < |s.marker| => Fate(Marks(s, v, i), 0, 0)))
    case Proxy(i) =>
      ProxyStep(st, i)
    case Poll =>
      st.(shm := TryComplete(s))
    case Provision =>
      st.(shm := s.(completed := true))
    case Register(i) =>
      var pc := st.threads[i].pc;
      var erased := EraseMarker(st, i);
      erased.(shm := erased.shm.(active := s.active[i := true]),
              threads := st.threads[i := Thread(true, s.cmdSeq, Polling)],
              stuck := if pc == Exchanged(s.cmdSeq) then st.stuck + 1 else st.stuck,
              gone := if pc == Decremented(s.cmdSeq) || pc == Finishing(s.cmdSeq) then st.gone + 1 else st.gone)
    case Unregister(i) =>
      st.(shm := s.(active := s.active[i := false]), threads := st.threads[i := st.threads[i].(alive := false)])
    case Reap(i) =>
      st.(shm := s.(active := s.active[i := false]))
    case Reset(i) =>
      var erased := EraseMarker(st, i);
      erased.(shm := erased.shm.(active := s.active[i := false]))
    case Crash(i) =>
      st.(threads := st.threads[i := st.threads[i].(alive := false)])
    case Observe(i) =>
      st.(threads := st.threads[i := Thread(true, s.cmdSeq, Acking(s.cmdSeq))])
    case Exchange(i) =>
      var epoch := st.threads[i].pc.epoch;
      if s.marker[i] == epoch && epoch != 0 then
        At(st, i, Exchanged(epoch)).(
          shm := s.(marker := s.marker[i := 0]),
          fates := if s.Owes(i) then st.fates[i := Acked(st.fates[i])] else st.fates)
      else
        At(EraseMarker(st, i), i, Polling)
    case Decrement(i) =>
      var epoch := st.threads[i].pc.epoch;
      At(st, i, Decremented(epoch)).(
        shm := s.(refcount := s.refcount - 1),
        late := if epoch == s.cmdSeq then st.late else st.late + 1)
    case Recheck(i) =>
      var epoch := st.threads[i].pc.epoch;
      if s.cmdSeq == epoch && s.action == SwapOut && s.AckDone(s.vnpu[i], epoch)
      then At(st, i, Finishing(epoch)) else At(st, i, Polling)
    case StoreCompleted(i) =>
      At(st, i, Closing).(shm := s.(completed := true))
    case StoreAction(i) =>
      At(st, i, Polling).(shm := s.(action := NoAction))
  }

  predicate Finisher(t: Thread) {
    t.alive && (t.pc.Finishing? || t.pc.Closing?)
  }

  /** The two hazards that a safe run avoids: issuing a command while some process is
      between its re-check and its last store, and provisioning a vNPU while some slot
      owes the command. */
  predicate Safe(st: State, step: Step)
    requires Sized(st)
  {
    match step
    case Issue(_) => forall i :: 0 <= i < |st.threads| ==> !Finisher(st.threads[i])
    case Provision => st.shm.NoneOwes()
    case _ => true
  }

  predicate Executable(st: State, steps: seq<Step>)
    decreases |steps|
  {
    steps == [] || (Enabled(st, steps[0]) && Executable(Apply(st, steps[0]), steps[1..]))
  }

  predicate SafeRun(st: State, steps: seq<Step>)
    decreases |steps|
  {
    steps == [] ||
    (Enabled(st, steps[0]) && Safe(st, steps[0]) && SafeRun(Apply(st, steps[0]), steps[1..]))
  }

  function Run(st: State, steps: seq<Step>): State
    requires Executable(st, steps)
    decreases |steps|
  {
    if steps == [] then st else Run(Apply(st, steps[0]), steps[1..])
  }

  function Init(vnpu: seq<nat>): State {
    var n := |vnpu|;
    State(Shm(0, NoAction, true, 0, 0, vnpu, seq(n, _ => false), seq(n, _ => 0)),
          seq(n, _ => Thread(false, 0, Polling)), seq(n, _ => Fate(false, 0, 0)), 0, 0, 0)
  }

  // ---------------------------------------------------------------------------
  // What every safe run keeps
  // ---------------------------------------------------------------------------

  function Bit(b: bool): nat { if b then 1 else 0 }

  /** Each marked slot is acknowledged exactly once, or still owes, or lost its marker. */
  predicate ExactlyOnce(st: State)
    requires Sized(st)
  {
    forall i :: 0 <= i < |st.fates| ==>
      Bit(st.shm.Owes(i)) + st.fates[i].acks + st.fates[i].lost == Bit(st.fates[i].marked)
  }

  /** What slot `i` still has outstanding on the refcount: an owed acknowledgement, one
      in flight between exchange and decrement, or a lost marker. */
  function Outstanding(st: State, i: int): nat
    requires Sized(st) && 0 <= i < |st.fates|
  {
    Bit(st.shm.Owes(i)) + Bit(st.threads[i].pc == Exchanged(st.shm.cmdSeq)) + st.fates[i].lost
  }

  function TotalOutstanding(st: State, k: nat): nat
    requires Sized(st) && k <= |st.fates|
  {
    if k == 0 then 0 else TotalOutstanding(st, k - 1) + Outstanding(st, k - 1)
  }

  predicate Counted(st: State)
    requires Sized(st)
  {
    st.shm.refcount + st.late == TotalOutstanding(st, |st.fates|) + st.stuck
  }

  predicate MarkersCurrent(st: State)
    requires Sized(st)
  {
    forall i :: 0 <= i < |st.fates| ==>
      (st.shm.marker[i] == 0 || st.shm.marker[i] == st.shm.cmdSeq)
      && (st.shm.Owes(i) ==> st.shm.vnpu[i] == st.shm.target && !st.shm.completed)
  }

  /** An acker of `epoch` that has cleared its marker but not yet finished. */
  predicate MidAck(pc: Pc, epoch: nat) {
    pc == Exchanged(epoch) || pc == Decremented(epoch) || pc == Finishing(epoch)
  }

  predicate SomeMidAck(threads: seq<Thread>, epoch: nat) {
    exists i :: 0 <= i < |threads| && MidAck(threads[i].pc, epoch)
  }

  predicate SomeLost(fates: seq<Fate>) {
    exists i :: 0 <= i < |fates| && fates[i].lost > 0
  }

  predicate PcOk(st: State, i: int)
    requires Sized(st) && 0 <= i < |st.threads|
  {
    var t := st.threads[i];
    && t.lastSeen <= st.shm.cmdSeq
    && (t.pc.Polling? || t.pc.Closing? || 0 < t.pc.epoch <= st.shm.cmdSeq)
    && (MidAck(t.pc, st.shm.cmdSeq) ==> st.shm.vnpu[i] == st.shm.target)
    && (t.alive && t.pc.Finishing? ==> t.pc.epoch == st.shm.cmdSeq && st.shm.NoneOwes())
    && (t.alive && t.pc.Closing? ==> st.shm.completed)
    && (t.alive && st.shm.Owes(i) ==> t.lastSeen < st.shm.cmdSeq || t.pc == Acking(st.shm.cmdSeq))
  }

  predicate Threads(st: State)
    requires Sized(st)
  {
    forall i :: 0 <= i < |st.threads| ==> PcOk(st, i)
  }

  /** Some marker was erased, or some acker vanished and its slot was reused. */
  predicate Disturbed(st: State) {
    st.stuck > 0 || st.gone > 0 || SomeLost(st.fates)
  }

  /** A pending command is a swap-out that somebody still has to bring to its end. */
  predicate Driven(st: State)
    requires Sized(st)
  {
    !st.shm.completed ==>
      && st.shm.action == SwapOut
      && st.shm.cmdSeq > 0
      && (!st.shm.NoneOwes() || Disturbed(st) || SomeMidAck(st.threads, st.shm.cmdSeq))
  }

  predicate Inv(st: State) {
    Sized(st) && ExactlyOnce(st) && Counted(st) && MarkersCurrent(st) && Threads(st) && Driven(st)
  }

  lemma {:induction false} TotalDelta(st: State, st': State, p: nat, k: nat)
    requires Sized(st) && Sized(st') && |st.fates| == |st'.fates| && k <= |st.fates| && p < |st.fates|
    requires forall i :: 0 <= i < |st.fates| && i != p ==> Outstanding(st', i) == Outstanding(st, i)
    ensures TotalOutstanding(st', k)
         == TotalOutstanding(st, k) + (if p < k then Outstanding(st', p) - Outstanding(st, p) else 0)
  {
    if k > 0 {
      TotalDelta(st, st', p, k - 1);
    }
  }

  lemma {:induction false} TotalSame(st: State, st': State, k: nat)
    requires Sized(st) && Sized(st') && |st.fates| == |st'.fates| && k <= |st.fates|
    requires forall i :: 0 <= i < |st.fates| ==> Outstanding(st', i) == Outstanding(st, i)
    ensures TotalOutstanding(st', k) == TotalOutstanding(st, k)
  {
    if k > 0 {
      TotalSame(st, st', k - 1);
    }
  }

  lemma {:induction false} IssueCount(st: State, v: nat, k: nat)
    requires Inv(st) && Enabled(st, Issue(v)) && k <= |st.fates|
    ensures TotalOutstanding(Apply(st, Issue(v)), k) == ActiveCount(st.shm, v, k)
    ensures ActiveCount(st.shm, v, k) > 0 <==> exists i :: 0 <= i < k && Marks(st.shm, v, i)
  {
    if k > 0 {
      IssueCount(st, v, k - 1);
      assert PcOk(st, k - 1);
      assert !st.shm.Owes(k - 1);
    }
  }

  lemma {:induction false} CountIsSize(s: Shm, v: nat, k: nat)
    requires s.Wf() && k <= |s.marker|
    ensures ActiveCount(s, v, k) == |set i | 0 <= i < k && s.vnpu[i] == v && s.active[i]|
  {
    var here := set i | 0 <= i < k && s.vnpu[i] == v && s.active[i];
    if k == 0 {
      assert here == {};
    } else {
      CountIsSize(s, v, k - 1);
      var before := set i | 0 <= i < k - 1 && s.vnpu[i] == v && s.active[i];
      assert here == if s.vnpu[k - 1] == v && s.active[k - 1] then before + {k - 1} else before;
    }
  }

  /** A command for a vNPU marks its active slots and no others, counts them, and is
      completed at once exactly when there are none. */
  lemma IssueMarksActive(s: Shm, v: nat)
    requires s.Wf()
    ensures var s' := IssueOut(s, v);
            && s'.cmdSeq == s.cmdSeq + 1 && s'.target == v && s'.action == SwapOut
            && s'.vnpu == s.vnpu && s'.active == s.active && |s'.marker| == |s.marker|
            && (forall i :: 0 <= i < |s.marker| ==>
                  s'.marker[i] == if s.vnpu[i] == v && s.active[i] then s.cmdSeq + 1 else s.marker[i])
            && s'.refcount == |set i | 0 <= i < |s.marker| && s.vnpu[i] == v && s.active[i]|
            && (s'.completed <==> forall i :: 0 <= i < |s.marker| ==> !(s.vnpu[i] == v && s.active[i]))
  {
    CountIsSize(s, v, |s.marker|);
    var marked := set i | 0 <= i < |s.marker| && s.vnpu[i] == v && s.active[i];
    if |marked| == 0 {
      assert marked == {};
      forall i | 0 <= i < |s.marker|
        ensures !(s.vnpu[i] == v && s.active[i])
      {
        assert i !in marked;
      }
    } else {
      var i :| i in marked;
    }
  }

  lemma IssueKeepsInv(st: State, v: nat)
    requires Inv(st) && Enabled(st, Issue(v)) && Safe(st, Issue(v))
    ensures Inv(Apply(st, Issue(v)))
  {
    var st' := Apply(st, Issue(v));
    IssueCount(st, v, |st.fates|);
    forall i | 0 <= i < |st.fates|
      ensures st'.shm.Owes(i) <==> Marks(st.shm, v, i)
    {
      assert !st.shm.Owes(i);
    }
    forall i | 0 <= i < |st.threads|
      ensures PcOk(st', i)
    {
      assert PcOk(st, i) && !Finisher(st.threads[i]);
    }
  }

  /** Threads other than `i` stay as they were while the epoch stays, no new marker
      appears and `completed` is not withdrawn. */
  lemma ThreadsFrame(st: State, st': State, i: nat)
    requires Sized(st) && Threads(st) && Sized(st') && i < |st.threads| == |st'.threads|
    requires st'.threads == st.threads[i := st'.threads[i]]
    requires st'.shm.cmdSeq == st.shm.cmdSeq && st'.shm.target == st.shm.target && st'.shm.vnpu == st.shm.vnpu
    requires forall j :: 0 <= j < |st.threads| && st'.shm.Owes(j) ==> st.shm.Owes(j)
    requires st.shm.completed ==> st'.shm.completed
    requires PcOk(st', i)
    ensures Threads(st')
    ensures SomeMidAck(st.threads, st.shm.cmdSeq) ==>
              SomeMidAck(st'.threads, st.shm.cmdSeq) || MidAck(st.threads[i].pc, st.shm.cmdSeq)
  {
    if !st'.shm.NoneOwes() {
      var j :| 0 <= j < |st.threads| && Owing(st'.shm.marker[j], st'.shm.cmdSeq);
      assert st'.shm.Owes(j);
    }
    forall j | 0 <= j < |st.threads|
      ensures PcOk(st', j)
    {
      assert PcOk(st, j);
    }
    if SomeMidAck(st.threads, st.shm.cmdSeq) && !MidAck(st.threads[i].pc, st.shm.cmdSeq) {
      var j :| 0 <= j < |st.threads| && MidAck(st.threads[j].pc, st.shm.cmdSeq);
      assert st'.threads[j] == st.threads[j];
    }
  }

  lemma ProxyOwed(st: State, i: nat)
    requires Inv(st) && Enabled(st, Proxy(i)) && st.shm.Owes(i)
    ensures var s' := ProxyAck(st.shm, i);
            && s'.marker == st.shm.marker[i := 0]
            && s' == st.shm.(marker := s'.marker, refcount := st.shm.refcount - 1,
                             completed := s'.completed, action := s'.action)
            && (s'.completed <==> s'.NoneOwes())
            && (!s'.completed ==> s'.action == SwapOut)
  {
    var s' := ProxyAck(st.shm, i);
    if s'.completed {
      forall j | 0 <= j < |s'.marker|
        ensures !Owing(s'.marker[j], s'.cmdSeq)
      {
        assert st.shm.Owes(j) ==> st.shm.vnpu[j] == st.shm.vnpu[i];
      }
    } else {
      var j :| 0 <= j < |s'.marker| && st.shm.vnpu[j] == st.shm.vnpu[i] && s'.marker[j] == st.shm.cmdSeq;
      assert Owing(s'.marker[j], s'.cmdSeq);
    }
  }

  lemma ProxyKeepsInv(st: State, i: nat)
    requires Inv(st) && Enabled(st, Proxy(i))
    ensures Inv(Apply(st, Proxy(i)))
  {
    var st' := Apply(st, Proxy(i));
    if st.shm.Owes(i) {
      ProxyOwed(st, i);
      assert PcOk(st, i);
      ThreadsFrame(st, st', i);
      TotalDelta(st, st', i, |st.fates|);
    } else {
      assert st.shm.marker[i] == 0;
      assert st'.shm.marker == st.shm.marker;
      assert st' == st;
    }
  }

  lemma PollKeepsInv(st: State)
    requires Inv(st)
    ensures Inv(Apply(st, Poll))
  {
    var st' := Apply(st, Poll);
    if st' != st {
      assert st.shm.NoneOwes();
      TotalSame(st, st', |st.fates|);
      forall j | 0 <= j < |st.threads|
        ensures PcOk(st', j)
      {
        assert PcOk(st, j);
      }
    }
  }

  /** Provisioning completes the command for good when no slot owes it. */
  lemma ProvisionKeepsInv(st: State)
    requires Inv(st) && st.shm.NoneOwes()
    ensures Inv(Apply(st, Provision))
  {
    var st' := Apply(st, Provision);
    TotalSame(st, st', |st.fates|);
    forall j | 0 <= j < |st.threads|
      ensures PcOk(st', j)
    {
      assert PcOk(st, j);
    }
  }

  /** Erasing a marker turns an owed acknowledgement into a lost one, nothing else. */
  lemma EraseKeepsInv(st: State, i: nat)
    requires Inv(st) && i < |st.threads|
    ensures Inv(EraseMarker(st, i))
  {
    var st' := EraseMarker(st, i);
    TotalDelta(st, st', i, |st.fates|);
    assert PcOk(st, i);
    ThreadsFrame(st, st', i);
    if st.shm.Owes(i) {
      assert st'.fates[i].lost > 0;
    } else {
      assert st.shm.marker[i] == 0;
      assert st'.shm.marker == st.shm.marker;
    }
  }

  /** Changing only `active` flags, and stopping threads, keeps the invariant. */
  lemma QuietKeepsInv(st: State, st': State, i: nat)
    requires Inv(st)
    requires Sized(st') && i < |st'.threads| == |st.threads|
    requires st'.shm == st.shm.(active := st'.shm.active)
    requires st' == st.(shm := st'.shm, threads := st'.threads)
    requires st'.threads == st.threads[i := st'.threads[i]]
    requires st'.threads[i] == st.threads[i] || st'.threads[i] == st.threads[i].(alive := false)
    ensures Inv(st')
  {
    TotalSame(st, st', |st.fates|);
    assert PcOk(st, i);
    ThreadsFrame(st, st', i);
    if MidAck(st.threads[i].pc, st.shm.cmdSeq) {
      assert MidAck(st'.threads[i].pc, st.shm.cmdSeq);
    }
  }

  lemma RegisterKeepsInv(st: State, i: nat)
    requires Inv(st) && Enabled(st, Register(i))
    ensures Inv(Apply(st, Register(i)))
  {
    EraseKeepsInv(st, i);
    var mid := EraseMarker(st, i);
    var st' := Apply(st, Register(i));
    assert st'.shm == mid.shm.(active := st'.shm.active);
    TotalDelta(mid, st', i, |st.fates|);
    ThreadsFrame(mid, st', i);
  }

  lemma ResetKeepsInv(st: State, i: nat)
    requires Inv(st) && Enabled(st, Reset(i))
    ensures Inv(Apply(st, Reset(i)))
  {
    EraseKeepsInv(st, i);
    QuietKeepsInv(EraseMarker(st, i), Apply(st, Reset(i)), i);
  }

  lemma ExchangeWins(st: State, i: nat)
    requires Inv(st) && Enabled(st, Exchange(i)) && st.shm.marker[i] == st.threads[i].pc.epoch
    ensures Inv(Apply(st, Exchange(i)))
  {
    var st' := Apply(st, Exchange(i));
    assert PcOk(st, i);
    assert st.shm.Owes(i);
    assert st'.shm == st.shm.(marker := st.shm.marker[i := 0]);
    assert st'.fates == st.fates[i := Acked(st.fates[i])];
    assert MidAck(st'.threads[i].pc, st.shm.cmdSeq);
    ThreadsFrame(st, st', i);
    TotalDelta(st, st', i, |st.fates|);
  }

  lemma ExchangeLoses(st: State, i: nat)
    requires Inv(st) && Enabled(st, Exchange(i)) && st.shm.marker[i] != st.threads[i].pc.epoch
    ensures Inv(Apply(st, Exchange(i)))
  {
    var st' := Apply(st, Exchange(i));
    EraseKeepsInv(st, i);
    var mid := EraseMarker(st, i);
    assert PcOk(mid, i);
    assert st' == At(mid, i, Polling);
    ThreadsFrame(mid, st', i);
    TotalDelta(mid, st', i, |st.fates|);
  }

  lemma ExchangeKeepsInv(st: State, i: nat)
    requires Inv(st) && Enabled(st, Exchange(i))
    ensures Inv(Apply(st, Exchange(i)))
  {
    if st.shm.marker[i] == st.threads[i].pc.epoch {
      ExchangeWins(st, i);
    } else {
      ExchangeLoses(st, i);
    }
  }

  lemma DecrementKeepsInv(st: State, i: nat)
    requires Inv(st) && Enabled(st, Decrement(i))
    ensures Inv(Apply(st, Decrement(i)))
  {
    var st' := Apply(st, Decrement(i));
    assert PcOk(st, i);
    ThreadsFrame(st, st', i);
    TotalDelta(st, st', i, |st.fates|);
    assert MidAck(st.threads[i].pc, st.shm.cmdSeq) ==> MidAck(st'.threads[i].pc, st.shm.cmdSeq);
  }

  lemma AckDoneMeansNoneOwes(st: State)
    requires Inv(st) && st.shm.cmdSeq > 0
    ensures st.shm.AckDone(st.shm.target, st.shm.cmdSeq) <==> st.shm.NoneOwes()
  {
    if !st.shm.NoneOwes() {
      var i :| 0 <= i < |st.shm.marker| && Owing(st.shm.marker[i], st.shm.cmdSeq);
      assert st.shm.Owes(i);
    }
  }

  lemma RecheckKeepsInv(st: State, i: nat)
    requires Inv(st) && Enabled(st, Recheck(i))
    ensures Inv(Apply(st, Recheck(i)))
  {
    var st' := Apply(st, Recheck(i));
    var epoch := st.threads[i].pc.epoch;
    assert PcOk(st, i);
    AckDoneMeansNoneOwes(st);
    if st'.threads[i].pc.Finishing? {
      assert MidAck(st.threads[i].pc, st.shm.cmdSeq) && MidAck(st'.threads[i].pc, st.shm.cmdSeq);
    }
    ThreadsFrame(st, st', i);
    TotalSame(st, st', |st.fates|);
  }

  lemma StoresKeepInv(st: State, step: Step)
    requires Inv(st) && Enabled(st, step) && (step.StoreCompleted? || step.StoreAction? || step.Observe?)
    ensures Inv(Apply(st, step))
  {
    var st' := Apply(st, step);
    assert PcOk(st, step.i);
    ThreadsFrame(st, st', step.i);
    TotalSame(st, st', |st.fates|);
  }

  lemma StepKeepsInv(st: State, step: Step)
    requires Inv(st) && Enabled(st, step) && Safe(st, step)
    ensures Inv(Apply(st, step))
  {
    match step
    case Issue(v) => IssueKeepsInv(st, v);
    case Proxy(i) => ProxyKeepsInv(st, i);
    case Poll => PollKeepsInv(st);
    case Provision => ProvisionKeepsInv(st);
    case Register(i) => RegisterKeepsInv(st, i);
    case Unregister(i) => QuietKeepsInv(st, Apply(st, step), i);
    case Reap(i) => QuietKeepsInv(st, Apply(st, step), i);
    case Reset(i) => ResetKeepsInv(st, i);
    case Crash(i) => QuietKeepsInv(st, Apply(st, step), i);
    case Observe(_) => StoresKeepInv(st, step);
    case Exchange(i) => ExchangeKeepsInv(st, i);
    case Decrement(i) => DecrementKeepsInv(st, i);
    case Recheck(i) => RecheckKeepsInv(st, i);
    case StoreCompleted(_) => StoresKeepInv(st, step);
    case StoreAction(_) => StoresKeepInv(st, step);
  }

  lemma {:induction false} SafeRunKeepsInv(st: State, steps: seq<Step>)
    requires Inv(st) && SafeRun(st, steps)
    ensures Executable(st, steps) && Inv(Run(st, steps))
    decreases |steps|
  {
    if steps != [] {
      StepKeepsInv(st, steps[0]);
      SafeRunKeepsInv(Apply(st, steps[0]), steps[1..]);
    }
  }

  lemma InitInv(vnpu: seq<nat>)
    ensures Inv(Init(vnpu))
  {
    InitTotal(vnpu, |vnpu|);
  }

  lemma {:induction false} InitTotal(vnpu: seq<nat>, k: nat)
    requires k <= |vnpu|
    ensures TotalOutstanding(Init(vnpu), k) == 0
  {
    if k > 0 {
      InitTotal(vnpu, k - 1);
    }
  }
}
