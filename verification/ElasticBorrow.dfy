/**
 Elastic memory admission (`vcann-rt/src/mem_limiter.c`, `vcann-rt/src/shm_manager.c`,
 `vcann-rt/src/npu_manager.c`): beyond its request a vNPU may borrow what the others leave.

 Sizes are in bytes and aligned; the device reports as used what the shared counters say.
 Admission and counting are separate steps: the guard's file lock is released before the
 allocation is counted.
 */
module ElasticBorrow {
  import opened Sums

  /** `limit` and `request` quota of a vNPU, and its use. */
  datatype Vnpu = Vnpu(limit: nat, request: nat, used: nat)

  function Used(v: Vnpu): int { v.used }

  function Request(v: Vnpu): int { v.request }

  /** Use beyond the request. */
  function Borrowed(v: Vnpu): int { if v.used > v.request then v.used - v.request else 0 }

  /** What is left for borrowing: the total without all requests and all that is borrowed. */
  function DynamicFree(vs: seq<Vnpu>, total: nat): nat {
    var left := total - Sum(vs, Request) - Sum(vs, Borrowed);
    if left > 0 then left else 0
  }

  /** `shm_get_dynamic_free`. */
  method GetDynamicFree(vs: seq<Vnpu>, total: nat) returns (free: nat)
    ensures free == DynamicFree(vs, total)
  {
    var borrowed, requested := 0, 0;
    for i := 0 to |vs|
      invariant borrowed == Sum(vs[..i], Borrowed)
      invariant requested == Sum(vs[..i], Request)
    {
      SumPrefix(vs, i, Borrowed);
      SumPrefix(vs, i, Request);
      if vs[i].used > vs[i].request {
        borrowed := borrowed + (vs[i].used - vs[i].request);
      }
      requested := requested + vs[i].request;
    }
    assert vs[..|vs|] == vs;
    BorrowedNonNegative(vs);
    if total <= requested {
      return 0;
    }
    free := if total - requested > borrowed then total - requested - borrowed else 0;
  }

  lemma BorrowedNonNegative(vs: seq<Vnpu>)
    ensures Sum(vs, Borrowed) >= 0
  {
    SumNonNegative(vs, Borrowed);
  }

  /** The branch that admits an allocation of a vNPU: within its request, which asks the
      device for room, or borrowing. */
  datatype Verdict = Rejected | WithinRequest | Borrows

  predicate DeviceHasRoom(vs: seq<Vnpu>, total: nat, size: nat) { Sum(vs, Used) + size <= total }

  /** `memory_check_elastic`, after any swap-out it has triggered. */
  function Check(vs: seq<Vnpu>, total: nat, v: nat, size: nat): Verdict
    requires v < |vs|
  {
    var me := vs[v];
    var sum := me.used + size;
    if sum > me.limit then Rejected
    else if me.request == 0 || sum <= me.request then
      if DeviceHasRoom(vs, total, size) then WithinRequest else Rejected
    else
      var needed := if me.used > me.request then size else sum - me.request;
      if needed > DynamicFree(vs, total) then Rejected else Borrows
  }

  function Grow(vs: seq<Vnpu>, v: nat, size: nat): seq<Vnpu>
    requires v < |vs|
  {
    vs[v := vs[v].(used := vs[v].used + size)]
  }

  lemma {:induction false} UsedSplits(vs: seq<Vnpu>)
    ensures Sum(vs, Used) <= Sum(vs, Request) + Sum(vs, Borrowed)
  {
    if |vs| > 0 {
      UsedSplits(vs[..|vs| - 1]);
    }
  }

  lemma GrowSums(vs: seq<Vnpu>, v: nat, size: nat)
    requires v < |vs|
    ensures Sum(Grow(vs, v, size), Used) == Sum(vs, Used) + size
    ensures Sum(Grow(vs, v, size), Request) == Sum(vs, Request)
    ensures Sum(Grow(vs, v, size), Borrowed) ==
            Sum(vs, Borrowed) - Borrowed(vs[v]) + Borrowed(vs[v].(used := vs[v].used + size))
  {
    var w := vs[v].(used := vs[v].used + size);
    SumUpdate(vs, v, w, Used);
    SumUpdate(vs, v, w, Request);
    SumUpdate(vs, v, w, Borrowed);
  }

  /** Every admitted borrowing allocation leaves all that is borrowed within the total
      without the requests, whatever the state before; every admitted allocation leaves
      the use within the total. */
  lemma AdmittedFits(vs: seq<Vnpu>, total: nat, v: nat, size: nat)
    requires v < |vs| && !Check(vs, total, v, size).Rejected? && size > 0
    ensures Check(vs, total, v, size).Borrows? ==>
              Sum(Grow(vs, v, size), Borrowed) <= total - Sum(vs, Request)
    ensures Sum(Grow(vs, v, size), Used) <= total
    ensures Grow(vs, v, size)[v].used <= vs[v].limit
  {
    GrowSums(vs, v, size);
    UsedSplits(Grow(vs, v, size));
  }

  /** Beyond a positive request and within the limit, admission is exact: it is granted
      exactly when all that is then borrowed fits beside the requests. */
  lemma BorrowsIff(vs: seq<Vnpu>, total: nat, v: nat, size: nat)
    requires v < |vs| && size > 0 && 0 < vs[v].request < vs[v].used + size <= vs[v].limit
    ensures Check(vs, total, v, size).Borrows? <==> Sum(Grow(vs, v, size), Borrowed) <= total - Sum(vs, Request)
  {
    GrowSums(vs, v, size);
  }

  /** Within the limit, and within the request or without one, an allocation is granted
      exactly when the device has room; beyond the limit it never is. */
  lemma WithinRequestIff(vs: seq<Vnpu>, total: nat, v: nat, size: nat)
    requires v < |vs|
    ensures vs[v].used + size > vs[v].limit ==> Check(vs, total, v, size).Rejected?
    ensures vs[v].used + size <= vs[v].limit && (vs[v].request == 0 || vs[v].used + size <= vs[v].request) ==>
              (!Check(vs, total, v, size).Rejected? <==> Sum(Grow(vs, v, size), Used) <= total)
  {
    GrowSums(vs, v, size);
  }

  /** An allocation within a positive request borrows nothing; with a request of zero the
      borrowed sum grows unchecked and stays within its bound exactly when the dynamic free
      memory would have covered it. */
  lemma WithinRequestBorrows(vs: seq<Vnpu>, total: nat, v: nat, size: nat)
    requires v < |vs| && Check(vs, total, v, size).WithinRequest? && size > 0
    ensures vs[v].request > 0 ==> Sum(Grow(vs, v, size), Borrowed) == Sum(vs, Borrowed)
    ensures vs[v].request == 0 ==>
              (Sum(Grow(vs, v, size), Borrowed) <= total - Sum(vs, Request) <==> size <= DynamicFree(vs, total))
  {
    GrowSums(vs, v, size);
  }

  // ---------------------------------------------------------------------------
  // Runs
  // ---------------------------------------------------------------------------

  /** An admitted allocation that is not counted yet. */
  datatype Pending = Pending(v: nat, size: nat)

  datatype State = State(total: nat, vs: seq<Vnpu>, pending: seq<Pending>)

  /** `SwapIn` asks the device for room and restores swapped memory; `Shrink` is a free or
      a swap-out. */
  datatype Step = Admit(v: nat, size: nat) | SwapIn(v: nat, size: nat) | Count(i: nat) | Shrink(v: nat, size: nat)

  predicate Enabled(st: State, s: Step) {
    match s
    case Admit(v, size) => v < |st.vs| && size > 0 && !Check(st.vs, st.total, v, size).Rejected?
    case SwapIn(v, size) => v < |st.vs| && DeviceHasRoom(st.vs, st.total, size)
    case Count(i) => i < |st.pending| && st.pending[i].v < |st.vs|
    case Shrink(v, size) => v < |st.vs| && size <= st.vs[v].used
  }

  function Apply(st: State, s: Step): State
    requires Enabled(st, s)
  {
    match s
    case Admit(v, size) => st.(pending := st.pending + [Pending(v, size)])
    case SwapIn(v, size) => st.(pending := st.pending + [Pending(v, size)])
    case Count(i) =>
      State(st.total, Grow(st.vs, st.pending[i].v, st.pending[i].size), Without(st.pending, i))
    case Shrink(v, size) => st.(vs := st.vs[v := st.vs[v].(used := st.vs[v].used - size)])
  }

  /** Whatever is admitted can be counted, and whatever is counted can be given back. */
  lemma CountedAndFreed(st: State, i: nat, size: nat)
    requires i < |st.pending| && st.pending[i].v < |st.vs|
    ensures Enabled(st, Count(i))
    ensures var v, st' := st.pending[i].v, Apply(st, Count(i));
            && |st'.vs| == |st.vs| && |st'.pending| == |st.pending| - 1
            && st'.vs[v].used == st.vs[v].used + st.pending[i].size
            && (size <= st'.vs[v].used ==>
                  Enabled(st', Shrink(v, size)) && Apply(st', Shrink(v, size)).vs[v].used == st'.vs[v].used - size)
  {
  }

  predicate Executes(st: State, steps: seq<Step>)
    decreases |steps|
  {
    |steps| == 0 || (Enabled(st, steps[0]) && Executes(Apply(st, steps[0]), steps[1..]))
  }

  function Run(st: State, steps: seq<Step>): State
    requires Executes(st, steps)
    decreases |steps|
  {
    if |steps| == 0 then st else Run(Apply(st, steps[0]), steps[1..])
  }

  predicate Adds(s: Step) { s.Admit? || s.SwapIn? }

  /** At no time are more than `k` admitted allocations not yet counted. */
  predicate AtMost(k: nat, st: State, steps: seq<Step>)
    requires Executes(st, steps)
    decreases |steps|
  {
    |steps| == 0 || ((Adds(steps[0]) ==> |st.pending| < k) && AtMost(k, Apply(st, steps[0]), steps[1..]))
  }

  function SizeOf(p: Pending): int { p.size }

  /** Use, counted or not, is within the total. */
  predicate Fits(st: State) { Sum(st.vs, Used) + Sum(st.pending, SizeOf) <= st.total }

  lemma StepKeepsFit(st: State, s: Step)
    requires Fits(st) && Enabled(st, s) && (Adds(s) ==> st.pending == [])
    ensures Fits(Apply(st, s))
  {
    match s
    case Admit(v, size) =>
      AdmittedFits(st.vs, st.total, v, size);
      GrowSums(st.vs, v, size);
      SumAppend(st.pending, Pending(v, size), SizeOf);
    case SwapIn(v, size) => SumAppend(st.pending, Pending(v, size), SizeOf);
    case Count(i) =>
      GrowSums(st.vs, st.pending[i].v, st.pending[i].size);
      SumWithout(st.pending, i, SizeOf);
    case Shrink(v, size) => SumUpdate(st.vs, v, st.vs[v].(used := st.vs[v].used - size), Used);
  }

  lemma {:induction false} RunKeepsFit(st: State, steps: seq<Step>)
    requires Fits(st) && Executes(st, steps) && AtMost(1, st, steps)
    ensures Fits(Run(st, steps))
    decreases |steps|
  {
    if |steps| > 0 {
      StepKeepsFit(st, steps[0]);
      RunKeepsFit(Apply(st, steps[0]), steps[1..]);
    }
  }

  function Empty(total: nat, vs: seq<Vnpu>): State { State(total, vs, []) }

  predicate Unused(vs: seq<Vnpu>) { forall v :: v in vs ==> v.used == 0 }

  /** In every run of admissions, swap-ins, frees and swap-outs from an unused device in
      which each admission is counted before the next, the use never exceeds the total. */
  lemma UseWithinTotal(total: nat, vs: seq<Vnpu>, steps: seq<Step>)
    requires Unused(vs) && Executes(Empty(total, vs), steps) && AtMost(1, Empty(total, vs), steps)
    ensures Sum(Run(Empty(total, vs), steps).vs, Used) <= Run(Empty(total, vs), steps).total
  {
    SumZero(vs, Used);
    RunKeepsFit(Empty(total, vs), steps);
    SumNonNegative(Run(Empty(total, vs), steps).pending, SizeOf);
  }

  // ---------------------------------------------------------------------------
  // Overlapping admissions
  // ---------------------------------------------------------------------------

  lemma {:induction false} AtMostGrows(k: nat, l: nat, st: State, steps: seq<Step>)
    requires k <= l && Executes(st, steps) && AtMost(k, st, steps)
    ensures AtMost(l, st, steps)
    decreases |steps|
  {
    if |steps| > 0 {
      AtMostGrows(k, l, Apply(st, steps[0]), steps[1..]);
    }
  }

  ghost predicate Reached(k: nat, from: State, st: State) {
    exists steps :: Executes(from, steps) && AtMost(k, from, steps) && Run(from, steps) == st
  }

  lemma {:induction false} Extend(k: nat, from: State, steps: seq<Step>, s: Step)
    requires Executes(from, steps) && AtMost(k, from, steps) && Enabled(Run(from, steps), s)
    requires Adds(s) ==> |Run(from, steps).pending| < k
    ensures Executes(from, steps + [s]) && AtMost(k, from, steps + [s])
    ensures Run(from, steps + [s]) == Apply(Run(from, steps), s)
    decreases |steps|
  {
    if |steps| > 0 {
      assert (steps + [s])[0] == steps[0] && (steps + [s])[1..] == steps[1..] + [s];
      Extend(k, Apply(from, steps[0]), steps[1..], s);
    } else {
      assert steps + [s] == [s];
      assert Run(Apply(from, s), []) == Apply(from, s);
    }
  }

  lemma Reach(k: nat, from: State, st: State, s: Step, next: State)
    requires Reached(k, from, st) && Enabled(st, s) && (Adds(s) ==> |st.pending| < k) && next == Apply(st, s)
    ensures Reached(k, from, next)
  {
    var steps :| Executes(from, steps) && AtMost(k, from, steps) && Run(from, steps) == st;
    Extend(k, from, steps, s);
  }

  /** Two vNPUs with a request of `r` each on a device with `f` bytes to borrow. */
  function Two(r: nat, f: nat, a: nat, b: nat, pending: seq<Pending>): State {
    State(r + r + f, [Vnpu(r + f, r, a), Vnpu(r + f, r, b)], pending)
  }

  lemma TwoSums(r: nat, f: nat, a: nat, b: nat)
    ensures var vs := Two(r, f, a, b, []).vs;
            && Sum(vs, Used) == a + b && Sum(vs, Request) == r + r
            && Sum(vs, Borrowed) == Borrowed(vs[0]) + Borrowed(vs[1])
  {
    var vs := Two(r, f, a, b, []).vs;
    SumTwo(vs[0], vs[1], Used);
    SumTwo(vs[0], vs[1], Request);
    SumTwo(vs[0], vs[1], Borrowed);
  }

  lemma AdmitOne(from: State, r: nat, f: nat, a: nat, b: nat, pending: seq<Pending>, v: nat, size: nat)
    requires Reached(2, from, Two(r, f, a, b, pending)) && |pending| < 2 && v < 2 && size > 0
    requires !Check(Two(r, f, a, b, []).vs, r + r + f, v, size).Rejected?
    ensures Reached(2, from, Two(r, f, a, b, pending + [Pending(v, size)]))
  {
    Reach(2, from, Two(r, f, a, b, pending), Admit(v, size), Two(r, f, a, b, pending + [Pending(v, size)]));
  }

  lemma CountOne(from: State, r: nat, f: nat, a: nat, b: nat, v: nat, size: nat, rest: seq<Pending>)
    requires Reached(2, from, Two(r, f, a, b, [Pending(v, size)] + rest)) && v < 2
    ensures Reached(2, from, if v == 0 then Two(r, f, a + size, b, rest) else Two(r, f, a, b + size, rest))
  {
    var pending := [Pending(v, size)] + rest;
    var st, next := Two(r, f, a, b, pending),
                    if v == 0 then Two(r, f, a + size, b, rest) else Two(r, f, a, b + size, rest);
    assert Without(pending, 0) == rest;
    assert Grow(st.vs, v, size) == next.vs;
    Reach(2, from, st, Count(0), next);
  }

  lemma Grants(r: nat, f: nat, a: nat, b: nat)
    requires r > 0 && f > 0 && (a == 0 || a == r) && (b == 0 || b == r)
    ensures var vs := Two(r, f, a, b, []).vs;
            && (a == 0 ==> !Check(vs, r + r + f, 0, r).Rejected?)
            && (b == 0 ==> !Check(vs, r + r + f, 1, r).Rejected?)
            && (a == r ==> !Check(vs, r + r + f, 0, f).Rejected?)
            && (b == r ==> !Check(vs, r + r + f, 1, f).Rejected?)
  {
    TwoSums(r, f, a, b);
  }

  lemma AdmitAndCount(from: State, r: nat, f: nat, a: nat, b: nat, v: nat, size: nat)
    requires Reached(2, from, Two(r, f, a, b, [])) && v < 2 && size > 0
    requires !Check(Two(r, f, a, b, []).vs, r + r + f, v, size).Rejected?
    ensures Reached(2, from, if v == 0 then Two(r, f, a + size, b, []) else Two(r, f, a, b + size, []))
  {
    AdmitOne(from, r, f, a, b, [], v, size);
    assert [] + [Pending(v, size)] == [Pending(v, size)] + [];
    CountOne(from, r, f, a, b, v, size, []);
  }

  lemma ReachedAtOnce(from: State)
    ensures Reached(2, from, from)
  {
    assert Executes(from, []) && AtMost(2, from, []) && Run(from, []) == from;
  }

  /** Each vNPU allocates its request, one admission at a time. */
  lemma RequestsUsed(r: nat, f: nat)
    requires r > 0 && f > 0
    ensures Reached(2, Two(r, f, 0, 0, []), Two(r, f, r, r, []))
  {
    var s0 := Two(r, f, 0, 0, []);
    ReachedAtOnce(s0);
    Grants(r, f, 0, 0);
    AdmitAndCount(s0, r, f, 0, 0, 0, r);
    Grants(r, f, r, 0);
    AdmitAndCount(s0, r, f, r, 0, 1, r);
  }

  /** Then each is granted the same `f` bytes, one after the other before either is counted. */
  lemma BothGranted(r: nat, f: nat)
    requires r > 0 && f > 0
    ensures Reached(2, Two(r, f, 0, 0, []), Two(r, f, r, r, [Pending(0, f)] + [Pending(1, f)]))
  {
    RequestsUsed(r, f);
    Grants(r, f, r, r);
    var s0 := Two(r, f, 0, 0, []);
    AdmitOne(s0, r, f, r, r, [], 0, f);
    assert [] + [Pending(0, f)] == [Pending(0, f)];
    AdmitOne(s0, r, f, r, r, [Pending(0, f)], 1, f);
  }

  /** Once both are counted, a run from the unused device has taken the use beyond the
      total, by all that there was to borrow. */
  lemma OverlapOvercommits(r: nat, f: nat)
    requires r > 0 && f > 0
    ensures Reached(2, Two(r, f, 0, 0, []), Two(r, f, r + f, r + f, []))
    ensures Unused(Two(r, f, 0, 0, []).vs)
    ensures Sum(Two(r, f, r + f, r + f, []).vs, Used) == Two(r, f, r + f, r + f, []).total + f
  {
    BothGranted(r, f);
    var s0 := Two(r, f, 0, 0, []);
    CountOne(s0, r, f, r, r, 0, f, [Pending(1, f)]);
    assert [Pending(1, f)] == [Pending(1, f)] + [];
    CountOne(s0, r, f, r + f, r, 1, f, []);
    TwoSums(r, f, r + f, r + f);
  }

  /** No run from an unused device, with at most `k` uncounted admissions at a time, takes
      the use beyond the total. */
  ghost predicate KeepsTotal(k: nat) {
    forall total: nat, vs, steps ::
      Unused(vs) && Executes(Empty(total, vs), steps) && AtMost(k, Empty(total, vs), steps) ==>
      Sum(Run(Empty(total, vs), steps).vs, Used) <= total
  }

  lemma {:induction false} TotalIsFixed(st: State, steps: seq<Step>)
    requires Executes(st, steps)
    ensures Run(st, steps).total == st.total
    decreases |steps|
  {
    if |steps| > 0 {
      TotalIsFixed(Apply(st, steps[0]), steps[1..]);
    }
  }

  /** The use is safe exactly when an admission is counted before the next is made. */
  lemma KeepsTotalIff(k: nat)
    ensures KeepsTotal(k) <==> k <= 1
  {
    if k <= 1 {
      forall total: nat, vs, steps |
        Unused(vs) && Executes(Empty(total, vs), steps) && AtMost(k, Empty(total, vs), steps)
        ensures Sum(Run(Empty(total, vs), steps).vs, Used) <= total
      {
        AtMostGrows(k, 1, Empty(total, vs), steps);
        UseWithinTotal(total, vs, steps);
        TotalIsFixed(Empty(total, vs), steps);
      }
    } else {
      OverlapOvercommits(1, 1);
      var s0 := Two(1, 1, 0, 0, []);
      var steps :| Executes(s0, steps) && AtMost(2, s0, steps) && Run(s0, steps) == Two(1, 1, 2, 2, []);
      AtMostGrows(2, k, s0, steps);
      assert s0 == Empty(3, s0.vs);
    }
  }
}
