/**
 When the counters of `Accounting` go wrong: the exact condition for each clamp and for
 each departing process, a class of runs free of both, and runs that meet them.
 */
module AccountingClamps {
  import opened Accounting
  import opened Sums

  // ---------------------------------------------------------------------------
  // Exactly when a swap-out clamps
  // ---------------------------------------------------------------------------

  function RecLeft(r: Rec): int { if r.phase != Fresh && !r.swapped then r.size else 0 }

  function RecEarly(r: Rec): int { if r.phase == Fresh && r.swapped then r.size else 0 }

  /** A swap-out takes too little off the process counter exactly when, at its read, more
      bytes have been moved uncounted than are counted and stay, and yet not so many that
      the counter has dropped below zero. */
  lemma OwnClampsIff(pr: Proc, total: int)
    requires ProcOk(pr) && pr.mid.OutMoved?
    ensures var stay := Sum(pr.recs, RecLeft) + Sum(pr.frees, FreeOwnPart) + pr.kept;
            var early := Sum(pr.recs, RecEarly);
            Do(pr, total, ReadOwn).0.mid.dec < pr.mid.act <==> stay < early <= stay + pr.mid.act
  {
    SumMinus(pr.recs, RecLeft, RecEarly, RecOwn);
  }

  function RecLeftTotal(r: Rec): int { if r.phase == Counted && !r.swapped then r.size else 0 }

  function RecEarlyTotal(r: Rec): int { if r.phase != Counted && r.swapped then r.size else 0 }

  /** The bytes of a process that the vNPU counter holds. */
  function Holds(pr: Proc): int {
    Sum(pr.recs, RecLeftTotal) + Sum(pr.frees, FreeTotalPart) + pr.keptTotal
    + (if pr.mid.Open? || pr.mid.InMoved? || pr.mid.InOwn? then 0 else pr.mid.act)
  }

  /** The bytes of a process that the vNPU counter lost or lacks ahead of their counting. */
  function Lacks(pr: Proc): int {
    Sum(pr.recs, RecEarlyTotal) + (if pr.mid.InMoved? || pr.mid.InOwn? then pr.mid.back else 0)
  }

  lemma HoldsMinusLacks(pr: Proc)
    ensures Holds(pr) - Lacks(pr) == Share(pr)
  {
    SumMinus(pr.recs, RecLeftTotal, RecEarlyTotal, RecTotal);
  }

  /** A swap-out takes too little off the vNPU counter exactly when, at its read, all the
      processes together lack more there than they hold besides the bytes just moved. */
  lemma TotalClampsIff(st: State, p: nat)
    requires Inv(st) && Executable(st, Act(p, ReadTotal))
    ensures var act := st.procs[p].mid.act;
            var holds, lacks := Sum(st.procs, Holds) + st.left, Sum(st.procs, Lacks);
            Do(st.procs[p], st.total, ReadTotal).0.mid.dec < act <==> holds - act < lacks <= holds
  {
    forall pr | pr in st.procs
      ensures Holds(pr) - Lacks(pr) == Share(pr)
    {
      HoldsMinusLacks(pr);
    }
    SumMinus(st.procs, Holds, Lacks, Share);
  }

  /** Bytes in the records a swap-out would move that the process counter lacks. */
  function UncountedMoved(recs: seq<Rec>, moved: seq<bool>): nat
    requires |recs| == |moved|
  {
    if |recs| == 0 then 0 else
      var n := |recs| - 1;
      UncountedMoved(recs[..n], moved[..n]) + (if moved[n] && recs[n].phase == Fresh then recs[n].size else 0)
  }

  /** Bytes of the counted records that it would leave. */
  function CountedLeft(recs: seq<Rec>, moved: seq<bool>): nat
    requires |recs| == |moved|
  {
    if |recs| == 0 then 0 else
      var n := |recs| - 1;
      CountedLeft(recs[..n], moved[..n]) + (if !moved[n] && recs[n].phase != Fresh then recs[n].size else 0)
  }

  lemma {:induction false} OwnSplits(recs: seq<Rec>, moved: seq<bool>)
    requires |recs| == |moved| && forall r :: r in recs ==> !r.swapped
    ensures Sum(recs, RecOwn) - MovedSize(recs, moved) == CountedLeft(recs, moved) - UncountedMoved(recs, moved)
    ensures Sum(recs, RecOwn) >= 0
  {
    if |recs| > 0 {
      var n := |recs| - 1;
      OwnSplits(recs[..n], moved[..n]);
    }
  }

  lemma {:induction false} NoneSwappedFromSum(recs: seq<Rec>)
    requires Sum(recs, RecSwapped) == 0 && forall r :: r in recs ==> r.size > 0
    ensures forall r :: r in recs ==> !r.swapped
  {
    if |recs| > 0 {
      SumNonNegative(recs[..|recs| - 1], RecSwapped);
      NoneSwappedFromSum(recs[..|recs| - 1]);
    }
  }

  /** Foreseen before the swap-out starts: if no update comes in between, it takes too
      little off the process counter exactly when it moves more uncounted bytes than there
      are counted bytes it leaves, freed bytes not yet taken off and bytes kept before. */
  lemma ClampBitesIff(pr: Proc, total: int, moved: seq<bool>)
    requires ProcOk(pr) && Enabled(pr, Collect(moved)) && MovedSize(pr.recs, moved) > 0
    ensures var out := Do(pr, total, Collect(moved)).0;
            && out.mid.OutMoved?
            && (Do(out, total, ReadOwn).0.mid.dec < out.mid.act <==>
                UncountedMoved(pr.recs, moved) > CountedLeft(pr.recs, moved) + Sum(pr.frees, FreeOwnPart) + pr.kept)
  {
    NoneSwappedFromSum(pr.recs);
    OwnSplits(pr.recs, moved);
    SumNonNegative(pr.frees, FreeOwnPart);
  }

  /** Unregistering or reaping a process leaves nothing of it in the vNPU counter exactly
      when its half-applied updates and its clamped bytes cancel out. */
  lemma ReleaseKeepsIff(st: State, p: nat)
    requires Inv(st) && p < |st.procs| && st.procs[p].active
    ensures var st' := Apply(st, Act(p, Release));
            st'.total == Sum(st'.procs, Share) + st.left <==>
            Skew(st.procs[p]) == st.procs[p].keptTotal - st.procs[p].kept
  {
    ActKeepsInv(st, p, Release);
  }

  // ---------------------------------------------------------------------------
  // Runs in which swap-out and exit fall between two counted allocations never clamp
  // ---------------------------------------------------------------------------

  /** The process has updated its own counter exactly as often as the vNPU's. */
  predicate InStep(pr: Proc) {
    && (forall r :: r in pr.recs ==> r.phase != OwnCounted)
    && (forall f :: f in pr.frees ==> !f.ownDone)
    && !pr.mid.OutOwn? && !pr.mid.OutReadTotal? && !pr.mid.InOwn?
  }

  predicate Calm(pr: Proc, a: Action) {
    && (a.Collect? ==> AllCounted(pr.recs))
    && (a.Release? ==> InStep(pr))
  }

  predicate CalmStep(st: State, s: Step)
    requires Executable(st, s)
  {
    s.Act? ==> Calm(st.procs[s.p], s.a)
  }

  predicate CalmRun(st: State, steps: seq<Step>)
    requires Executes(st, steps)
    decreases |steps|
  {
    |steps| == 0 || (CalmStep(st, steps[0]) && CalmRun(Apply(st, steps[0]), steps[1..]))
  }

  /** Only counted records are out, and a swap under way has the bytes it needs. */
  predicate CalmMid(mid: Mid, recs: seq<Rec>) {
    match mid
    case Open => true
    case InMoved(back) => back <= Sum(recs, RecOwn) && back <= Sum(recs, RecTotal)
    case InOwn(back) => back <= Sum(recs, RecTotal)
    case _ => AllCounted(recs) && (mid.OutRead? || mid.OutReadTotal? ==> mid.dec == mid.act)
  }

  predicate CalmOk(pr: Proc) {
    && pr.kept == 0 && pr.keptTotal == 0
    && (forall r :: r in pr.recs ==> (r.swapped ==> r.phase == Counted))
    && CalmMid(pr.mid, pr.recs)
  }

  predicate CalmInv(st: State) { Inv(st) && st.left == 0 && forall pr :: pr in st.procs ==> CalmOk(pr) }

  lemma PartsNonNegative(pr: Proc)
    requires CalmOk(pr)
    ensures Sum(pr.recs, RecOwn) >= 0 && Sum(pr.recs, RecTotal) >= 0
    ensures Sum(pr.frees, FreeOwnPart) >= 0 && Sum(pr.frees, FreeTotalPart) >= 0
  {
    SumNonNegative(pr.recs, RecOwn);
    SumNonNegative(pr.recs, RecTotal);
    SumNonNegative(pr.frees, FreeOwnPart);
    SumNonNegative(pr.frees, FreeTotalPart);
  }

  /** Neither counter is below zero; during a swap-out each still holds all the bytes that
      it is about to lose. */
  lemma CountersNonNegative(pr: Proc)
    requires ProcOk(pr) && CalmOk(pr)
    ensures pr.used >= 0 && Share(pr) >= 0
    ensures pr.mid.OutMoved? ==> pr.used >= pr.mid.act
    ensures pr.mid.OutOwn? ==> Share(pr) >= pr.mid.act
  {
    PartsNonNegative(pr);
  }

  lemma CalmAllocation(pr: Proc, total: int, a: Action)
    requires ProcOk(pr) && CalmOk(pr) && Enabled(pr, a) && OfAllocation(a)
    ensures CalmOk(Do(pr, total, a).0)
  {
    if a.CountOwn? || a.CountTotal? {
      RephaseSums(pr.recs, a.i, pr.recs[a.i].(phase := if a.CountOwn? then OwnCounted else Counted));
    }
  }

  lemma CalmSwap(pr: Proc, total: int, a: Action)
    requires ProcOk(pr) && CalmOk(pr) && Enabled(pr, a) && Calm(pr, a) && total >= Share(pr)
    requires !OfAllocation(a) && !a.Release?
    ensures CalmOk(Do(pr, total, a).0)
  {
    CountersNonNegative(pr);
    if a.Collect? {
      MarkKeepsRecords(pr.recs, a.moved);
    } else if a.Restore? {
      PartsNonNegative(pr);
      UnmarkSums(pr.recs);
      UnmarkKeepsRecords(pr.recs);
    }
  }

  lemma CalmReleaseLeavesNothing(pr: Proc)
    requires ProcOk(pr) && CalmOk(pr) && InStep(pr)
    ensures Remainder(pr) == 0
  {
    SumZero(pr.recs, RecSkew);
    SumZero(pr.frees, FreeSkew);
  }

  lemma ShareAtMostTotal(st: State, p: nat)
    requires CalmInv(st) && p < |st.procs|
    ensures Share(st.procs[p]) <= st.total
  {
    forall pr | pr in st.procs
      ensures Share(pr) >= 0
    {
      CountersNonNegative(pr);
    }
    TermAtMostSum(st.procs, p, Share);
  }

  lemma CalmStepKeeps(st: State, s: Step)
    requires CalmInv(st) && Executable(st, s) && CalmStep(st, s)
    ensures CalmInv(Apply(st, s))
  {
    StepKeepsInv(st, s);
    if s.Act? {
      var pr := st.procs[s.p];
      if s.a.Release? {
        CalmReleaseLeavesNothing(pr);
      } else if OfAllocation(s.a) {
        CalmAllocation(pr, st.total, s.a);
      } else {
        ShareAtMostTotal(st, s.p);
        CalmSwap(pr, st.total, s.a);
      }
    }
  }

  lemma {:induction false} CalmRunKeeps(st: State, steps: seq<Step>)
    requires CalmInv(st) && Executes(st, steps) && CalmRun(st, steps)
    ensures CalmInv(Run(st, steps))
    decreases |steps|
  {
    if |steps| > 0 {
      CalmStepKeeps(st, steps[0]);
      CalmRunKeeps(Apply(st, steps[0]), steps[1..]);
    }
  }

  /** In every calm run nothing is ever clamped or left behind, so the counters are exact;
      no counter is ever negative; and at its reads a swap-out finds at least the bytes it
      moved. */
  lemma CalmRunsAreExact(slots: nat, steps: seq<Step>)
    requires Executes(Init(slots), steps) && CalmRun(Init(slots), steps)
    ensures var st := Run(Init(slots), steps);
            && st.total >= 0 && st.left == 0
            && (forall pr :: pr in st.procs ==> pr.used >= 0 && pr.kept == 0 && pr.keptTotal == 0)
            && (forall pr :: pr in st.procs && Quiet(pr) ==> pr.used == UnswappedSize(pr))
            && (AllQuiet(st) ==> st.total == Sum(st.procs, UnswappedSize))
            && (forall pr :: pr in st.procs && pr.mid.OutMoved? ==> pr.used >= pr.mid.act)
            && (forall pr :: pr in st.procs && pr.mid.OutOwn? ==> st.total >= pr.mid.act)
  {
    InitInv(slots);
    CalmRunKeeps(Init(slots), steps);
    var st := Run(Init(slots), steps);
    QuietState(st);
    forall pr | pr in st.procs
      ensures pr.used >= 0 && Share(pr) >= 0
      ensures pr.mid.OutMoved? ==> pr.used >= pr.mid.act
      ensures pr.mid.OutOwn? ==> st.total >= pr.mid.act
    {
      CountersNonNegative(pr);
      var p :| 0 <= p < |st.procs| && st.procs[p] == pr;
      ShareAtMostTotal(st, p);
    }
    SumNonNegative(st.procs, Share);
    SumZero(st.procs, KeptTotal);
  }

  // ---------------------------------------------------------------------------
  // Runs that clamp, and a run that leaves something behind
  // ---------------------------------------------------------------------------

  function One(recs: seq<Rec>, used: int, swapSize: nat, swapped: bool, mid: Mid, kept: nat, keptTotal: nat): Proc {
    Proc(true, recs, [], used, swapSize, swapped, mid, kept, keptTotal)
  }

  ghost predicate Reached(st: State) {
    exists steps :: Executes(Init(1), steps) && Run(Init(1), steps) == st
  }

  lemma {:induction false} Extend(from: State, steps: seq<Step>, s: Step)
    requires Executes(from, steps) && Executable(Run(from, steps), s)
    ensures Executes(from, steps + [s]) && Run(from, steps + [s]) == Apply(Run(from, steps), s)
    decreases |steps|
  {
    if |steps| > 0 {
      assert (steps + [s])[0] == steps[0] && (steps + [s])[1..] == steps[1..] + [s];
      Extend(Apply(from, steps[0]), steps[1..], s);
    } else {
      assert steps + [s] == [s];
      assert Run(Apply(from, s), []) == Apply(from, s);
    }
  }

  lemma Reach(pr: Proc, total: int, a: Action, next: Proc, total': int)
    requires Reached(State(total, 0, [pr])) && Enabled(pr, a) && !a.Release?
    requires Do(pr, total, a) == (next, total')
    ensures Reached(State(total', 0, [next]))
  {
    var st := State(total, 0, [pr]);
    var steps :| Executes(Init(1), steps) && Run(Init(1), steps) == st;
    Extend(Init(1), steps, Act(0, a));
    assert st.procs[0 := next] == [next];
  }

  lemma TrackedNotCounted(s: nat)
    requires s > 0
    ensures Reached(State(0, 0, [One([Rec(s, Fresh, false)], 0, 0, false, Open, 0, 0)]))
  {
    assert Executes(Init(1), []) && Run(Init(1), []) == Init(1);
    assert Init(1).procs == [EMPTY];
    assert [] + [Rec(s, Fresh, false)] == [Rec(s, Fresh, false)];
    Reach(EMPTY, 0, Register, EMPTY.(active := true), 0);
    Reach(EMPTY.(active := true), 0, Track(s), One([Rec(s, Fresh, false)], 0, 0, false, Open, 0, 0), 0);
  }

  lemma OneMoved(r: Rec)
    requires !r.swapped
    ensures MovedSize([r], [true]) == r.size && Mark([r], [true]) == [r.(swapped := true)]
  {
    assert [r][..0] == [] && [true][..0] == [];
    assert Mark([], []) == [];
    assert [] + [r.(swapped := true)] == [r.(swapped := true)];
  }

  lemma OneRestored(r: Rec)
    ensures Unmark([r]) == [r.(swapped := false)]
  {
    assert [r][..0] == [];
    assert Unmark([]) == [];
  }

  /** The whole swap-out of a single record, from a process counter `used` that is either 0
      or the record's size and a vNPU counter of 0. */
  lemma SwappedOut(s: nat, phase: Phase, used: nat)
    requires s > 0 && (used == 0 || used == s)
    requires Reached(State(0, 0, [One([Rec(s, phase, false)], used, 0, false, Open, 0, 0)]))
    ensures Reached(State(0, 0, [One([Rec(s, phase, true)], 0, s, true, Open, s - used, s)]))
  {
    var before, r := [Rec(s, phase, false)], [Rec(s, phase, true)];
    OneMoved(before[0]);
    Reach(One(before, used, 0, false, Open, 0, 0), 0, Collect([true]), One(r, used, s, false, OutMoved(s), 0, 0), 0);
    Reach(One(r, used, s, false, OutMoved(s), 0, 0), 0, ReadOwn, One(r, used, s, false, OutRead(s, used), 0, 0), 0);
    Reach(One(r, used, s, false, OutRead(s, used), 0, 0), 0, LowerOwn, One(r, 0, s, false, OutOwn(s), s - used, 0), 0);
    Reach(One(r, 0, s, false, OutOwn(s), s - used, 0), 0, ReadTotal,
          One(r, 0, s, false, OutReadTotal(s, 0), s - used, 0), 0);
    Reach(One(r, 0, s, false, OutReadTotal(s, 0), s - used, 0), 0, LowerTotal,
          One(r, 0, s, true, Open, s - used, s), 0);
  }

  /** The whole swap-in of a single record that has been counted meanwhile. */
  lemma SwappedIn(s: nat, used: nat, total: nat, kept: nat, keptTotal: nat)
    requires Reached(State(total, 0, [One([Rec(s, Counted, true)], used, s, true, Open, kept, keptTotal)]))
    ensures Reached(State(total + s, 0, [One([Rec(s, Counted, false)], used + s, s, false, Open, kept, keptTotal)]))
  {
    var out, back := [Rec(s, Counted, true)], [Rec(s, Counted, false)];
    OneRestored(out[0]);
    Reach(One(out, used, s, true, Open, kept, keptTotal), total, Restore,
          One(back, used, s, true, InMoved(s), kept, keptTotal), total);
    Reach(One(back, used, s, true, InMoved(s), kept, keptTotal), total, RaiseOwn,
          One(back, used + s, s, true, InOwn(s), kept, keptTotal), total);
    Reach(One(back, used + s, s, true, InOwn(s), kept, keptTotal), total, RaiseTotal,
          One(back, used + s, s, false, Open, kept, keptTotal), total + s);
  }

  ghost predicate EndsQuiet(s: nat, used: int, total: int) {
    exists st :: Reached(st) && |st.procs| == 1 && Quiet(st.procs[0]) && st.total == total
                 && st.procs[0].used == used && UnswappedSize(st.procs[0]) == s
  }

  lemma EndedQuiet(s: nat, used: int, total: int, kept: nat, keptTotal: nat)
    requires Reached(State(total, 0, [One([Rec(s, Counted, false)], used, s, false, Open, kept, keptTotal)]))
    ensures EndsQuiet(s, used, total)
  {
    SumOne(Rec(s, Counted, false), RecUnswapped);
  }

  /** An allocation of any size that is tracked but not yet counted when its process is
      swapped out, and counted later: after swap-in both counters show it twice. */
  lemma CountedTwice(s: nat)
    requires s > 0
    ensures EndsQuiet(s, s + s, s + s)
  {
    TrackedNotCounted(s);
    SwappedOut(s, Fresh, 0);
    var r, one, two := [Rec(s, Fresh, true)], [Rec(s, OwnCounted, true)], [Rec(s, Counted, true)];
    assert r[0 := one[0]] == one && one[0 := two[0]] == two;
    Reach(One(r, 0, s, true, Open, s, s), 0, CountOwn(0), One(one, s, s, true, Open, s, s), 0);
    Reach(One(one, s, s, true, Open, s, s), 0, CountTotal(0), One(two, s, s, true, Open, s, s), s);
    SwappedIn(s, s, s, s, s);
    EndedQuiet(s, s + s, s + s, s, s);
  }

  lemma CountedByTheProcess(s: nat)
    requires s > 0
    ensures Reached(State(0, 0, [One([Rec(s, OwnCounted, false)], s, 0, false, Open, 0, 0)]))
  {
    TrackedNotCounted(s);
    var r, one := [Rec(s, Fresh, false)], [Rec(s, OwnCounted, false)];
    assert r[0 := one[0]] == one;
    Reach(One(r, 0, 0, false, Open, 0, 0), 0, CountOwn(0), One(one, s, 0, false, Open, 0, 0), 0);
  }

  /** The same one update later: only the vNPU counter shows the allocation twice. */
  lemma CountedTwiceInTotal(s: nat)
    requires s > 0
    ensures EndsQuiet(s, s, s + s)
  {
    CountedByTheProcess(s);
    SwappedOut(s, OwnCounted, s);
    var one, two := [Rec(s, OwnCounted, true)], [Rec(s, Counted, true)];
    assert one[0 := two[0]] == two;
    Reach(One(one, 0, s, true, Open, 0, s), 0, CountTotal(0), One(two, 0, s, true, Open, 0, s), s);
    SwappedIn(s, 0, s, 0, s);
    EndedQuiet(s, s, s + s, 0, s);
  }

  /** A process that goes between its two counter updates takes off bytes that the vNPU
      counter never got: with no process left, the counter is below zero. */
  lemma GoneHalfCounted(s: nat)
    requires s > 0
    ensures Reached(State(0 - s, 0 - s, [EMPTY]))
  {
    CountedByTheProcess(s);
    var r := [Rec(s, OwnCounted, false)];
    var st := State(0, 0, [One(r, s, 0, false, Open, 0, 0)]);
    var steps :| Executes(Init(1), steps) && Run(Init(1), steps) == st;
    Extend(Init(1), steps, Act(0, Release));
    SumOne(r[0], RecSkew);
    assert Skew(st.procs[0]) == s;
    assert st.procs[0 := EMPTY] == [EMPTY];
  }
}
