/**
 Two-level device-memory accounting of one vNPU: every process slot has a counter
 `hbm_used`, and so has the vNPU (`vcann-rt/src/swap_hook.c`,
 `vcann-rt/src/swap_monitor_thread.c`, `vcann-rt/src/npu_manager.c`,
 `enpu-manager/core/src/pod_watchdog.c`).

 Each counter update is a step of its own.  Updates of different processes, and of
 different threads of one process, interleave freely; the tracker lock is held from
 the start of a swap-out or swap-in to its end.

 Counters are modelled as integers.  The source keeps them in 64 unsigned bits, so a
 counter below zero is read as a number above any that a swap-out moves.
 */
module Accounting {
  import opened Sums

  /** How far the counting of a tracked allocation got. */
  datatype Phase = Fresh | OwnCounted | Counted

  datatype Rec = Rec(size: nat, phase: Phase, swapped: bool)

  /** An allocation already untracked, whose counters are still to be lowered. */
  datatype Free = Free(size: nat, ownDone: bool)

  /** Where a swap-out or swap-in holding the tracker lock stands. */
  datatype Mid =
    | Open
    | OutMoved(act: nat)
    | OutRead(act: nat, dec: nat)
    | OutOwn(act: nat)
    | OutReadTotal(act: nat, dec: nat)
    | InMoved(back: nat)
    | InOwn(back: nat)

  /** One process slot with the records of the process that owns it.  `kept` and
      `keptTotal` are history: the bytes that its swap-outs moved but did not take off the
      process counter and the vNPU counter, because they clamped. */
  datatype Proc = Proc(active: bool, recs: seq<Rec>, frees: seq<Free>, used: int, swapSize: nat,
                       swapped: bool, mid: Mid, kept: nat, keptTotal: nat)

  /** The vNPU's counter and its process slots; `left` is history: what processes that are
      gone left behind in the vNPU counter. */
  datatype State = State(total: int, left: int, procs: seq<Proc>)

  const EMPTY := Proc(false, [], [], 0, 0, false, Open, 0, 0)

  datatype Action =
    | Track(size: nat)
    | CountOwn(i: nat)
    | CountTotal(i: nat)
    | Untrack(i: nat)
    | FreeOwn(i: nat)
    | FreeTotal(i: nat)
    | Collect(moved: seq<bool>)
    | ReadOwn
    | LowerOwn
    | ReadTotal
    | LowerTotal
    | Restore
    | RaiseOwn
    | RaiseTotal
    | SetSwapSize(n: nat)
    | Register
    | Release

  datatype Step = Act(p: nat, a: Action) | Reset

  // ---------------------------------------------------------------------------
  // Steps
  // ---------------------------------------------------------------------------

  function MarkOne(r: Rec, moved: bool): Rec { if moved then r.(swapped := true) else r }

  function Mark(recs: seq<Rec>, moved: seq<bool>): (r: seq<Rec>)
    requires |recs| == |moved|
    ensures |r| == |recs|
  {
    if |recs| == 0 then [] else
      var n := |recs| - 1;
      Mark(recs[..n], moved[..n]) + [MarkOne(recs[n], moved[n])]
  }

  /** Bytes a swap-out moves when it copies the records named in `moved`. */
  function MovedSize(recs: seq<Rec>, moved: seq<bool>): nat
    requires |recs| == |moved|
  {
    if |recs| == 0 then 0 else
      var n := |recs| - 1;
      MovedSize(recs[..n], moved[..n]) + (if moved[n] && !recs[n].swapped then recs[n].size else 0)
  }

  function Unmark(recs: seq<Rec>): (r: seq<Rec>)
    ensures |r| == |recs|
  {
    if |recs| == 0 then [] else
      Unmark(recs[..|recs| - 1]) + [recs[|recs| - 1].(swapped := false)]
  }

  predicate Locked(pr: Proc) { pr.mid != Open }

  predicate Enabled(pr: Proc, a: Action) {
    if a.Register? then !pr.active else pr.active && EnabledActive(pr, a)
  }

  predicate EnabledActive(pr: Proc, a: Action) {
    match a
    case Track(size) => size > 0 && !Locked(pr)
    case CountOwn(i) => i < |pr.recs| && pr.recs[i].phase == Fresh
    case CountTotal(i) => i < |pr.recs| && pr.recs[i].phase == OwnCounted
    case Untrack(i) => i < |pr.recs| && pr.recs[i].phase == Counted && !pr.recs[i].swapped && !Locked(pr)
    case FreeOwn(i) => i < |pr.frees| && !pr.frees[i].ownDone
    case FreeTotal(i) => i < |pr.frees| && pr.frees[i].ownDone
    case Collect(moved) => !Locked(pr) && !pr.swapped && |moved| == |pr.recs|
    case ReadOwn => pr.mid.OutMoved?
    case LowerOwn => pr.mid.OutRead?
    case ReadTotal => pr.mid.OutOwn?
    case LowerTotal => pr.mid.OutReadTotal?
    case Restore => !Locked(pr) && pr.swapped
    case RaiseOwn => pr.mid.InMoved?
    case RaiseTotal => pr.mid.InOwn?
    case SetSwapSize(n) => !Locked(pr) && !pr.swapped
    case Register => false
    case Release => true
  }

  /** The slot after the action, and the vNPU counter. */
  function Do(pr: Proc, total: int, a: Action): (Proc, int)
    requires Enabled(pr, a)
  {
    match a
    case Track(size) => (pr.(recs := pr.recs + [Rec(size, Fresh, false)]), total)
    case CountOwn(i) =>
      var r := pr.recs[i];
      (pr.(recs := pr.recs[i := r.(phase := OwnCounted)], used := pr.used + r.size), total)
    case CountTotal(i) =>
      var r := pr.recs[i];
      (pr.(recs := pr.recs[i := r.(phase := Counted)]), total + r.size)
    case Untrack(i) =>
      (pr.(recs := Without(pr.recs, i), frees := pr.frees + [Free(pr.recs[i].size, false)]), total)
    case FreeOwn(i) =>
      var f := pr.frees[i];
      (pr.(frees := pr.frees[i := f.(ownDone := true)], used := pr.used - f.size), total)
    case FreeTotal(i) => (pr.(frees := Without(pr.frees, i)), total - pr.frees[i].size)
    case Collect(moved) => (StartOut(pr, moved), total)
    case ReadOwn => (pr.(mid := OutRead(pr.mid.act, ClampedDec(pr.mid.act, pr.used))), total)
    case LowerOwn =>
      (pr.(mid := OutOwn(pr.mid.act), used := pr.used - pr.mid.dec, kept := pr.kept + Unlowered(pr.mid)), total)
    case ReadTotal => (pr.(mid := OutReadTotal(pr.mid.act, ClampedDec(pr.mid.act, total))), total)
    case LowerTotal =>
      (pr.(mid := Open, swapped := true, keptTotal := pr.keptTotal + Unlowered(pr.mid)), total - pr.mid.dec)
    case Restore => (pr.(recs := Unmark(pr.recs), mid := InMoved(pr.swapSize)), total)
    case RaiseOwn => (pr.(mid := InOwn(pr.mid.back), used := pr.used + pr.mid.back), total)
    case RaiseTotal => (pr.(mid := Open, swapped := false), total + pr.mid.back)
    case SetSwapSize(n) => (pr.(swapSize := n), total)
    case Register => (EMPTY.(active := true), total)
    case Release => (EMPTY, total - pr.used)
  }

  /** The amount a swap-out subtracts from a counter of value `used`. */
  function ClampedDec(act: nat, used: int): nat { if 0 <= used < act then used else act }

  /** The moved bytes that the pending subtraction will not take off. */
  function Unlowered(mid: Mid): nat
    requires mid.OutRead? || mid.OutReadTotal?
  {
    if mid.dec < mid.act then mid.act - mid.dec else 0
  }

  function StartOut(pr: Proc, moved: seq<bool>): Proc
    requires |moved| == |pr.recs|
  {
    var act := MovedSize(pr.recs, moved);
    if act == 0 then pr else pr.(recs := Mark(pr.recs, moved), swapSize := act, mid := OutMoved(act))
  }

  predicate Executable(st: State, s: Step) {
    match s
    case Act(p, a) => p < |st.procs| && Enabled(st.procs[p], a)
    case Reset => true
  }

  function Apply(st: State, s: Step): State
    requires Executable(st, s)
  {
    match s
    case Act(p, a) =>
      var (pr, total) := Do(st.procs[p], st.total, a);
      State(total, st.left + (if a.Release? then Remainder(st.procs[p]) else 0), st.procs[p := pr])
    case Reset => State(0, 0, seq(|st.procs|, _ => EMPTY))
  }

  predicate Executes(st: State, steps: seq<Step>)
    decreases |steps|
  {
    |steps| == 0 || (Executable(st, steps[0]) && Executes(Apply(st, steps[0]), steps[1..]))
  }

  function Run(st: State, steps: seq<Step>): State
    requires Executes(st, steps)
    decreases |steps|
  {
    if |steps| == 0 then st else Run(Apply(st, steps[0]), steps[1..])
  }

  // ---------------------------------------------------------------------------
  // What a process that goes away leaves behind
  // ---------------------------------------------------------------------------

  function RecSkew(r: Rec): int { if r.phase == OwnCounted then r.size else 0 }

  function FreeSkew(f: Free): int { if f.ownDone then 0 - f.size else 0 }

  function MidSkew(mid: Mid): int {
    match mid
    case OutOwn(act) => 0 - act
    case OutReadTotal(act, _) => 0 - act
    case InOwn(back) => back
    case _ => 0
  }

  /** What the process has applied to its own counter but not yet to the vNPU's. */
  function Skew(pr: Proc): int { Sum(pr.recs, RecSkew) + Sum(pr.frees, FreeSkew) + MidSkew(pr.mid) }

  /** What stays in the vNPU counter when the process goes: half-applied updates, and
      clamped bytes as far as the two counters clamped differently. */
  function Remainder(pr: Proc): int { pr.keptTotal - pr.kept - Skew(pr) }

  // ---------------------------------------------------------------------------
  // The law
  // ---------------------------------------------------------------------------

  function RecSwapped(r: Rec): int { if r.swapped then r.size else 0 }

  function RecUnswapped(r: Rec): int { if r.swapped then 0 else r.size }

  /** What a record adds to the process counter; a record swapped out before it was counted
      counts negatively, until its counting catches up. */
  function RecOwn(r: Rec): int { (if r.phase == Fresh then 0 else r.size) - RecSwapped(r) }

  /** What a record adds to the vNPU counter. */
  function RecTotal(r: Rec): int { (if r.phase == Counted then r.size else 0) - RecSwapped(r) }

  function FreeOwnPart(f: Free): int { if f.ownDone then 0 else f.size }

  function FreeTotalPart(f: Free): int { f.size }

  function MidOwn(mid: Mid): int {
    match mid
    case OutMoved(act) => act
    case OutRead(act, _) => act
    case InMoved(back) => 0 - back
    case _ => 0
  }

  function MidTotal(mid: Mid): int {
    match mid
    case Open => 0
    case InMoved(back) => 0 - back
    case InOwn(back) => 0 - back
    case _ => mid.act
  }

  /** What the process counter holds: the records as far as counted, what pending updates
      still have to take away or add, and what clamping kept. */
  function Own(pr: Proc): int {
    Sum(pr.recs, RecOwn) + Sum(pr.frees, FreeOwnPart) + MidOwn(pr.mid) + pr.kept
  }

  /** The part of the vNPU counter that stems from this process. */
  function Share(pr: Proc): int {
    Sum(pr.recs, RecTotal) + Sum(pr.frees, FreeTotalPart) + MidTotal(pr.mid) + pr.keptTotal
  }

  /** The bytes out on the host, against `swap_size` and the phase of the swap. */
  predicate MidOk(mid: Mid, swapSize: nat, swapped: bool, out: int) {
    match mid
    case Open => out == if swapped then swapSize else 0
    case InMoved(_) => swapped && out == 0
    case InOwn(_) => swapped && out == 0
    case _ => !swapped && mid.act == swapSize == out && (mid.OutRead? || mid.OutReadTotal? ==> mid.dec <= mid.act)
  }

  predicate ProcOk(pr: Proc) {
    && (!pr.active ==> pr == EMPTY)
    && (forall r :: r in pr.recs ==> r.size > 0)
    && pr.used == Own(pr)
    && MidOk(pr.mid, pr.swapSize, pr.swapped, Sum(pr.recs, RecSwapped))
  }

  predicate Inv(st: State) {
    && (forall pr :: pr in st.procs ==> ProcOk(pr))
    && st.total == Sum(st.procs, Share) + st.left
  }

  // ---------------------------------------------------------------------------
  // Each action keeps the law and moves the vNPU counter by the change of its share
  // ---------------------------------------------------------------------------

  predicate Keeps(pr: Proc, total: int, a: Action)
    requires Enabled(pr, a)
  {
    var (pr', total') := Do(pr, total, a);
    ProcOk(pr') && total' - total == Share(pr') - Share(pr)
  }

  lemma TrackKeeps(pr: Proc, total: int, a: Action)
    requires ProcOk(pr) && Enabled(pr, a) && a.Track?
    ensures Keeps(pr, total, a)
  {
    var r := Rec(a.size, Fresh, false);
    SumAppend(pr.recs, r, RecOwn);
    SumAppend(pr.recs, r, RecTotal);
    SumAppend(pr.recs, r, RecSwapped);
  }

  lemma RephaseSums(recs: seq<Rec>, i: nat, r: Rec)
    requires i < |recs|
    ensures Sum(recs[i := r], RecOwn) == Sum(recs, RecOwn) - RecOwn(recs[i]) + RecOwn(r)
    ensures Sum(recs[i := r], RecTotal) == Sum(recs, RecTotal) - RecTotal(recs[i]) + RecTotal(r)
    ensures Sum(recs[i := r], RecSwapped) == Sum(recs, RecSwapped) - RecSwapped(recs[i]) + RecSwapped(r)
  {
    SumUpdate(recs, i, r, RecOwn);
    SumUpdate(recs, i, r, RecTotal);
    SumUpdate(recs, i, r, RecSwapped);
  }

  lemma CountKeeps(pr: Proc, total: int, a: Action)
    requires ProcOk(pr) && Enabled(pr, a) && (a.CountOwn? || a.CountTotal?)
    ensures Keeps(pr, total, a)
  {
    RephaseSums(pr.recs, a.i, pr.recs[a.i].(phase := if a.CountOwn? then OwnCounted else Counted));
  }

  lemma UntrackKeeps(pr: Proc, total: int, a: Action)
    requires ProcOk(pr) && Enabled(pr, a) && a.Untrack?
    ensures Keeps(pr, total, a)
  {
    SumWithout(pr.recs, a.i, RecOwn);
    SumWithout(pr.recs, a.i, RecTotal);
    SumWithout(pr.recs, a.i, RecSwapped);
    var f := Free(pr.recs[a.i].size, false);
    SumAppend(pr.frees, f, FreeOwnPart);
    SumAppend(pr.frees, f, FreeTotalPart);
  }

  lemma FreeKeeps(pr: Proc, total: int, a: Action)
    requires ProcOk(pr) && Enabled(pr, a) && (a.FreeOwn? || a.FreeTotal?)
    ensures Keeps(pr, total, a)
  {
    if a.FreeOwn? {
      var f := pr.frees[a.i].(ownDone := true);
      SumUpdate(pr.frees, a.i, f, FreeOwnPart);
      SumUpdate(pr.frees, a.i, f, FreeTotalPart);
    } else {
      SumWithout(pr.frees, a.i, FreeOwnPart);
      SumWithout(pr.frees, a.i, FreeTotalPart);
    }
  }

  /** Marking turns exactly the copied bytes into bytes out on the host. */
  lemma {:induction false} MarkSums(recs: seq<Rec>, moved: seq<bool>)
    requires |recs| == |moved|
    ensures Sum(Mark(recs, moved), RecOwn) == Sum(recs, RecOwn) - MovedSize(recs, moved)
    ensures Sum(Mark(recs, moved), RecTotal) == Sum(recs, RecTotal) - MovedSize(recs, moved)
    ensures Sum(Mark(recs, moved), RecSwapped) == Sum(recs, RecSwapped) + MovedSize(recs, moved)
  {
    if |recs| > 0 {
      var n := |recs| - 1;
      MarkSums(recs[..n], moved[..n]);
      var init, last := Mark(recs[..n], moved[..n]), MarkOne(recs[n], moved[n]);
      SumAppend(init, last, RecOwn);
      SumAppend(init, last, RecTotal);
      SumAppend(init, last, RecSwapped);
    }
  }

  lemma {:induction false} MarkKeepsRecords(recs: seq<Rec>, moved: seq<bool>)
    requires |recs| == |moved|
    ensures forall i :: 0 <= i < |recs| ==>
              Mark(recs, moved)[i].size == recs[i].size && Mark(recs, moved)[i].phase == recs[i].phase
  {
    if |recs| > 0 {
      var n := |recs| - 1;
      MarkKeepsRecords(recs[..n], moved[..n]);
    }
  }

  lemma MarkKeepsSizes(recs: seq<Rec>, moved: seq<bool>)
    requires |recs| == |moved| && forall r :: r in recs ==> r.size > 0
    ensures forall r :: r in Mark(recs, moved) ==> r.size > 0
  {
    MarkKeepsRecords(recs, moved);
  }

  lemma MovedKeeps(pr: Proc, recs: seq<Rec>, act: nat)
    requires ProcOk(pr) && pr.active && pr.mid == Open && !pr.swapped
    requires forall r :: r in recs ==> r.size > 0
    requires Sum(recs, RecOwn) == Sum(pr.recs, RecOwn) - act
    requires Sum(recs, RecTotal) == Sum(pr.recs, RecTotal) - act
    requires Sum(recs, RecSwapped) == Sum(pr.recs, RecSwapped) + act
    ensures var pr' := pr.(recs := recs, swapSize := act, mid := OutMoved(act));
            ProcOk(pr') && Share(pr') == Share(pr)
  {
  }

  lemma CollectKeeps(pr: Proc, total: int, a: Action)
    requires ProcOk(pr) && Enabled(pr, a) && a.Collect?
    ensures Keeps(pr, total, a)
  {
    MarkSums(pr.recs, a.moved);
    MarkKeepsSizes(pr.recs, a.moved);
    MovedKeeps(pr, Mark(pr.recs, a.moved), MovedSize(pr.recs, a.moved));
  }

  lemma SwapOutKeeps(pr: Proc, total: int, a: Action)
    requires ProcOk(pr) && Enabled(pr, a) && (a.ReadOwn? || a.LowerOwn? || a.ReadTotal? || a.LowerTotal?)
    ensures Keeps(pr, total, a)
  {
  }

  lemma {:induction false} UnmarkSums(recs: seq<Rec>)
    ensures Sum(Unmark(recs), RecOwn) == Sum(recs, RecOwn) + Sum(recs, RecSwapped)
    ensures Sum(Unmark(recs), RecTotal) == Sum(recs, RecTotal) + Sum(recs, RecSwapped)
    ensures Sum(Unmark(recs), RecSwapped) == 0
  {
    if |recs| > 0 {
      var n := |recs| - 1;
      UnmarkSums(recs[..n]);
      var init, last := Unmark(recs[..n]), recs[n].(swapped := false);
      SumAppend(init, last, RecOwn);
      SumAppend(init, last, RecTotal);
      SumAppend(init, last, RecSwapped);
    }
  }

  lemma {:induction false} UnmarkKeepsRecords(recs: seq<Rec>)
    ensures forall i :: 0 <= i < |recs| ==> Unmark(recs)[i] == recs[i].(swapped := false)
  {
    if |recs| > 0 {
      UnmarkKeepsRecords(recs[..|recs| - 1]);
    }
  }

  lemma RestoreKeeps(pr: Proc, total: int, a: Action)
    requires ProcOk(pr) && Enabled(pr, a) && a.Restore?
    ensures Keeps(pr, total, a)
  {
    UnmarkSums(pr.recs);
    UnmarkKeepsSizes(pr.recs);
    RestoredKeeps(pr, Unmark(pr.recs));
  }

  lemma UnmarkKeepsSizes(recs: seq<Rec>)
    requires forall r :: r in recs ==> r.size > 0
    ensures forall r :: r in Unmark(recs) ==> r.size > 0
  {
    UnmarkKeepsRecords(recs);
  }

  lemma RestoredKeeps(pr: Proc, recs: seq<Rec>)
    requires ProcOk(pr) && pr.active && pr.mid == Open && pr.swapped
    requires forall r :: r in recs ==> r.size > 0
    requires Sum(recs, RecOwn) == Sum(pr.recs, RecOwn) + pr.swapSize
    requires Sum(recs, RecTotal) == Sum(pr.recs, RecTotal) + pr.swapSize
    requires Sum(recs, RecSwapped) == 0
    ensures var pr' := pr.(recs := recs, mid := InMoved(pr.swapSize));
            ProcOk(pr') && Share(pr') == Share(pr)
  {
  }

  predicate OfAllocation(a: Action) {
    a.Track? || a.CountOwn? || a.CountTotal? || a.Untrack? || a.FreeOwn? || a.FreeTotal?
  }

  lemma AllocationKeeps(pr: Proc, total: int, a: Action)
    requires ProcOk(pr) && Enabled(pr, a) && OfAllocation(a)
    ensures Keeps(pr, total, a)
  {
    if a.Track? {
      TrackKeeps(pr, total, a);
    } else if a.Untrack? {
      UntrackKeeps(pr, total, a);
    } else if a.CountOwn? || a.CountTotal? {
      CountKeeps(pr, total, a);
    } else {
      FreeKeeps(pr, total, a);
    }
  }

  lemma ActionKeeps(pr: Proc, total: int, a: Action)
    requires ProcOk(pr) && Enabled(pr, a) && !a.Release?
    ensures Keeps(pr, total, a)
  {
    if OfAllocation(a) {
      AllocationKeeps(pr, total, a);
    } else if a.Collect? {
      CollectKeeps(pr, total, a);
    } else if a.ReadOwn? || a.LowerOwn? || a.ReadTotal? || a.LowerTotal? {
      SwapOutKeeps(pr, total, a);
    } else if a.Restore? {
      RestoreKeeps(pr, total, a);
    }
  }

  /** The two counters of one process differ by what only one of them was told. */
  lemma OwnMinusShare(pr: Proc)
    requires ProcOk(pr)
    ensures Share(pr) - pr.used == Remainder(pr)
  {
    SumMinus(pr.recs, RecOwn, RecTotal, RecSkew);
    SumMinus(pr.frees, FreeOwnPart, FreeTotalPart, FreeSkew);
  }

  lemma EmptyIsOk()
    ensures ProcOk(EMPTY) && Share(EMPTY) == 0
  {
  }

  // ---------------------------------------------------------------------------
  // Runs
  // ---------------------------------------------------------------------------

  lemma ActKeepsInv(st: State, p: nat, a: Action)
    requires Inv(st) && Executable(st, Act(p, a))
    ensures Inv(Apply(st, Act(p, a)))
  {
    var pr := Do(st.procs[p], st.total, a).0;
    if a.Release? {
      OwnMinusShare(st.procs[p]);
      EmptyIsOk();
    } else {
      ActionKeeps(st.procs[p], st.total, a);
    }
    SumUpdate(st.procs, p, pr, Share);
  }

  lemma StepKeepsInv(st: State, s: Step)
    requires Inv(st) && Executable(st, s)
    ensures Inv(Apply(st, s))
  {
    match s
    case Act(p, a) => ActKeepsInv(st, p, a);
    case Reset =>
      EmptyIsOk();
      SumZero(Apply(st, s).procs, Share);
  }

  lemma {:induction false} RunKeepsInv(st: State, steps: seq<Step>)
    requires Inv(st) && Executes(st, steps)
    ensures Inv(Run(st, steps))
    decreases |steps|
  {
    if |steps| > 0 {
      StepKeepsInv(st, steps[0]);
      RunKeepsInv(Apply(st, steps[0]), steps[1..]);
    }
  }

  function Init(slots: nat): State { State(0, 0, seq(slots, _ => EMPTY)) }

  lemma InitInv(slots: nat)
    ensures Inv(Init(slots))
  {
    EmptyIsOk();
    SumZero(Init(slots).procs, Share);
  }

  predicate AllCounted(recs: seq<Rec>) { forall r :: r in recs ==> r.phase == Counted }

  /** No update of the process is under way. */
  predicate Quiet(pr: Proc) { AllCounted(pr.recs) && pr.frees == [] && pr.mid == Open }

  predicate AllQuiet(st: State) { forall pr :: pr in st.procs ==> Quiet(pr) }

  function UnswappedSize(pr: Proc): int { Sum(pr.recs, RecUnswapped) }

  function KeptTotal(pr: Proc): int { pr.keptTotal }

  lemma QuietCounts(pr: Proc)
    requires ProcOk(pr) && Quiet(pr)
    ensures pr.used == UnswappedSize(pr) + pr.kept
    ensures Share(pr) - UnswappedSize(pr) == pr.keptTotal
  {
    SumSame(pr.recs, RecOwn, RecUnswapped);
    SumSame(pr.recs, RecTotal, RecUnswapped);
  }

  /** In every run of any processes and threads: the counter of a quiet process is the size
      of its unswapped records plus what its swap-outs clamped; when all are quiet, the
      vNPU counter is the size of all unswapped records plus what swap-outs clamped there
      plus what departed processes left behind. */
  lemma AccountingLaw(slots: nat, steps: seq<Step>)
    requires Executes(Init(slots), steps)
    ensures var st := Run(Init(slots), steps);
            && (forall pr :: pr in st.procs && Quiet(pr) ==> pr.used == UnswappedSize(pr) + pr.kept)
            && (AllQuiet(st) ==> st.total == Sum(st.procs, UnswappedSize) + Sum(st.procs, KeptTotal) + st.left)
  {
    InitInv(slots);
    RunKeepsInv(Init(slots), steps);
    QuietState(Run(Init(slots), steps));
  }

  lemma QuietState(st: State)
    requires Inv(st)
    ensures forall pr :: pr in st.procs && Quiet(pr) ==> pr.used == UnswappedSize(pr) + pr.kept
    ensures AllQuiet(st) ==> st.total == Sum(st.procs, UnswappedSize) + Sum(st.procs, KeptTotal) + st.left
  {
    forall pr | pr in st.procs && Quiet(pr)
      ensures pr.used == UnswappedSize(pr) + pr.kept && Share(pr) - UnswappedSize(pr) == KeptTotal(pr)
    {
      QuietCounts(pr);
    }
    if AllQuiet(st) {
      SumMinus(st.procs, Share, UnswappedSize, KeptTotal);
    }
  }

  // ---------------------------------------------------------------------------
  // The counters are exact if and only if no swap-out clamped
  // ---------------------------------------------------------------------------

  /** The step takes less off the process counter than the swap-out of slot `p` moved. */
  predicate ClampsOwn(st: State, s: Step, p: nat)
    requires Executable(st, s)
  {
    s == Act(p, LowerOwn) && st.procs[p].mid.dec < st.procs[p].mid.act
  }

  predicate ClampsTotal(st: State, s: Step, p: nat)
    requires Executable(st, s)
  {
    s == Act(p, LowerTotal) && st.procs[p].mid.dec < st.procs[p].mid.act
  }

  predicate EverClampsOwn(st: State, steps: seq<Step>, p: nat)
    requires Executes(st, steps)
    decreases |steps|
  {
    |steps| > 0 && (ClampsOwn(st, steps[0], p) || EverClampsOwn(Apply(st, steps[0]), steps[1..], p))
  }

  predicate EverClampsTotal(st: State, steps: seq<Step>, p: nat)
    requires Executes(st, steps)
    decreases |steps|
  {
    |steps| > 0 && (ClampsTotal(st, steps[0], p) || EverClampsTotal(Apply(st, steps[0]), steps[1..], p))
  }

  /** Slot `p` keeps its owner throughout. */
  predicate Stays(steps: seq<Step>, p: nat) {
    forall k :: 0 <= k < |steps| ==> steps[k] != Reset && steps[k] != Act(p, Release)
  }

  /** No slot loses its owner. */
  predicate NoneGoes(steps: seq<Step>) {
    forall k :: 0 <= k < |steps| ==> steps[k].Act? && !steps[k].a.Release?
  }

  lemma StepKept(st: State, s: Step, p: nat)
    requires Inv(st) && Executable(st, s) && p < |st.procs| && s != Reset && s != Act(p, Release)
    ensures var st' := Apply(st, s);
            && |st'.procs| == |st.procs|
            && st'.procs[p].kept >= st.procs[p].kept && st'.procs[p].keptTotal >= st.procs[p].keptTotal
            && (st'.procs[p].kept == st.procs[p].kept <==> !ClampsOwn(st, s, p))
            && (st'.procs[p].keptTotal == st.procs[p].keptTotal <==> !ClampsTotal(st, s, p))
  {
    assert st.procs[p] in st.procs;
  }

  /** The history grows exactly when a swap-out of the slot clamps. */
  lemma {:induction false} KeptGrowsIff(st: State, steps: seq<Step>, p: nat)
    requires Inv(st) && Executes(st, steps) && p < |st.procs| && Stays(steps, p)
    ensures var st' := Run(st, steps);
            && |st'.procs| == |st.procs|
            && st'.procs[p].kept >= st.procs[p].kept && st'.procs[p].keptTotal >= st.procs[p].keptTotal
            && (st'.procs[p].kept == st.procs[p].kept <==> !EverClampsOwn(st, steps, p))
            && (st'.procs[p].keptTotal == st.procs[p].keptTotal <==> !EverClampsTotal(st, steps, p))
    decreases |steps|
  {
    if |steps| > 0 {
      assert Stays(steps[1..], p);
      StepKept(st, steps[0], p);
      StepKeepsInv(st, steps[0]);
      KeptGrowsIff(Apply(st, steps[0]), steps[1..], p);
    }
  }

  /** From a free slot on: a process that is quiet counts exactly its unswapped records if
      and only if no swap-out of it has clamped on the process counter. */
  lemma OwnExactIff(st: State, steps: seq<Step>, p: nat)
    requires Inv(st) && Executes(st, steps) && p < |st.procs| && !st.procs[p].active && Stays(steps, p)
    ensures var st' := Run(st, steps);
            && p < |st'.procs|
            && (Quiet(st'.procs[p]) ==>
                  (st'.procs[p].used == UnswappedSize(st'.procs[p]) <==> !EverClampsOwn(st, steps, p)))
  {
    assert st.procs[p] in st.procs;
    KeptGrowsIff(st, steps, p);
    RunKeepsInv(st, steps);
    QuietState(Run(st, steps));
  }

  predicate NeverClampsTotal(st: State, steps: seq<Step>)
    requires Executes(st, steps)
  {
    forall p :: 0 <= p < |st.procs| ==> !EverClampsTotal(st, steps, p)
  }

  lemma NoneKeptIff(slots: nat, steps: seq<Step>)
    requires Executes(Init(slots), steps) && NoneGoes(steps)
    ensures Sum(Run(Init(slots), steps).procs, KeptTotal) == 0 <==> NeverClampsTotal(Init(slots), steps)
  {
    var st := Run(Init(slots), steps);
    InitInv(slots);
    NothingLeft(Init(slots), steps);
    forall p | 0 <= p < slots
      ensures st.procs[p].keptTotal == 0 <==> !EverClampsTotal(Init(slots), steps, p)
    {
      assert Stays(steps, p);
      KeptGrowsIff(Init(slots), steps, p);
    }
    SumZeroIff(st.procs);
  }

  /** While no process has gone: a quiet vNPU counts exactly the unswapped records if and
      only if no swap-out of any process has clamped on the vNPU counter. */
  lemma TotalExactIff(slots: nat, steps: seq<Step>)
    requires Executes(Init(slots), steps) && NoneGoes(steps)
    ensures var st := Run(Init(slots), steps);
            AllQuiet(st) ==>
              (st.total == Sum(st.procs, UnswappedSize) <==> NeverClampsTotal(Init(slots), steps))
  {
    AccountingLaw(slots, steps);
    NothingLeft(Init(slots), steps);
    NoneKeptIff(slots, steps);
  }

  /** What a step adds to the vNPU counter beyond the unswapped records: the bytes that a
      swap-out clamps; less, for a process that goes, the bytes clamped on its own counter
      and its half-applied updates. */
  function Drift(pr: Proc, a: Action): int
    requires Enabled(pr, a)
  {
    if a.LowerTotal? then Unlowered(pr.mid) else if a.Release? then 0 - pr.kept - Skew(pr) else 0
  }

  function Overcount(st: State, steps: seq<Step>, sofar: int): int
    requires Executes(st, steps)
    decreases |steps|
  {
    if |steps| == 0 then sofar else
      var s := steps[0];
      Overcount(Apply(st, s), steps[1..], if s.Reset? then 0 else sofar + Drift(st.procs[s.p], s.a))
  }

  function Excess(st: State): int { Sum(st.procs, KeptTotal) + st.left }

  lemma StepDrifts(st: State, s: Step)
    requires Inv(st) && Executable(st, s)
    ensures Excess(Apply(st, s)) == if s.Reset? then 0 else Excess(st) + Drift(st.procs[s.p], s.a)
  {
    match s
    case Act(p, a) =>
      assert st.procs[p] in st.procs;
      SumUpdate(st.procs, p, Do(st.procs[p], st.total, a).0, KeptTotal);
    case Reset => SumZero(Apply(st, s).procs, KeptTotal);
  }

  lemma {:induction false} OvercountIsExcess(st: State, steps: seq<Step>)
    requires Inv(st) && Executes(st, steps)
    ensures Overcount(st, steps, Excess(st)) == Excess(Run(st, steps))
    decreases |steps|
  {
    if |steps| > 0 {
      StepDrifts(st, steps[0]);
      StepKeepsInv(st, steps[0]);
      OvercountIsExcess(Apply(st, steps[0]), steps[1..]);
    }
  }

  /** In every run, processes gone or not: a quiet vNPU counter is off by exactly what its
      steps have drifted, and so exact if and only if their drifts add up to nothing. */
  lemma TotalIsOffBy(slots: nat, steps: seq<Step>)
    requires Executes(Init(slots), steps)
    ensures var st := Run(Init(slots), steps);
            AllQuiet(st) ==> st.total == Sum(st.procs, UnswappedSize) + Overcount(Init(slots), steps, 0)
  {
    InitInv(slots);
    SumZero(Init(slots).procs, KeptTotal);
    OvercountIsExcess(Init(slots), steps);
    AccountingLaw(slots, steps);
  }

  lemma {:induction false} NothingLeft(st: State, steps: seq<Step>)
    requires Executes(st, steps) && NoneGoes(steps)
    ensures Run(st, steps).left == st.left && |Run(st, steps).procs| == |st.procs|
    decreases |steps|
  {
    if |steps| > 0 {
      NothingLeft(Apply(st, steps[0]), steps[1..]);
    }
  }

  lemma {:induction false} SumZeroIff(procs: seq<Proc>)
    ensures Sum(procs, KeptTotal) >= 0
    ensures Sum(procs, KeptTotal) == 0 <==> forall p :: 0 <= p < |procs| ==> procs[p].keptTotal == 0
  {
    if |procs| > 0 {
      SumZeroIff(procs[..|procs| - 1]);
    }
  }
}
