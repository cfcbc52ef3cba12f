/**
 The per-vNPU time-slice ledger of the vCANN-RT scheduler
 (`vcann-rt/src/core_limiter.c`).

 Every process of a vNPU runs the same scheduler loop.  The two sections under
 `vnpu_schedule_mutex` are one step each; everything else is one step per atomic
 access to shared memory, so steps of sibling processes interleave freely.  A
 process may die outside the mutex at any point (`Crash`) and be replaced.
 */
module TimeSliceLedger {
  import opened Arithmetic

  const WORD := 0x1_0000_0000_0000_0000
  const SIGN := 0x8000_0000_0000_0000
  const NOBODY: int := -1

  /** `uint_fast8_t` turn counters, `uint_fast64_t` nanosecond counters. */
  type Turn = t: int | 0 <= t < 256
  type Word = w: int | 0 <= w < WORD
  /** A measured duration, or a quota: small enough to survive the `int64_t` cast. */
  type Ns = w: int | 0 <= w < SIGN

  function AddWrap(a: Word, b: Word): Word { (a + b) % WORD }
  function SubWrap(a: Word, b: Word): Word { (a - b) % WORD }
  function AsSigned(a: Word): int { if a < SIGN then a else a - WORD }

  lemma WrapIsExact(a: Word, b: Word)
    ensures -SIGN <= AsSigned(a) + b < SIGN ==> AsSigned(AddWrap(a, b)) == AsSigned(a) + b
    ensures -SIGN <= AsSigned(a) - b < SIGN ==> AsSigned(SubWrap(a, b)) == AsSigned(a) - b
  {
  }

  // ---------------------------------------------------------------------------
  // Shared memory of one vNPU
  // ---------------------------------------------------------------------------

  datatype Shared = Shared(
    turn: Turn,          // vnpu_schedule_turn
    injectedFor: Turn,   // vnpu_quota_injected_for_turn
    quota: Ns,           // vnpu_quota_timeslice
    cur: Word,           // vnpu_cur_timeslice
    slice: Word,         // vnpu_timeslice_for_turn
    maxSync: Word,       // vnpu_turn_max_sync
    expected: int,       // vnpu_sync_expected
    completed: int)      // vnpu_sync_completed

  /** What the first process of a turn does inside the mutex; later ones do nothing. */
  function Inject(s: Shared): Shared {
    if s.turn == s.injectedFor then s else
      var topped := AddWrap(s.cur, s.quota);
      var ts := if AsSigned(topped) > 0 then topped else 0;
      s.(expected := 0, completed := 0, maxSync := 0,
         cur := SubWrap(topped, ts), slice := ts, injectedFor := s.turn)
  }

  function EnterSection(s: Shared): Shared {
    var i := Inject(s);
    i.(expected := i.expected + 1)
  }

  /** The leader section: only the process whose turn is still current acts. */
  function CloseSection(s: Shared, id: Turn, ts: Word): Shared {
    if s.turn != id then s else
      s.(cur := if ts > 0 then SubWrap(s.cur, s.maxSync) else s.cur, turn := (id + 1) % 256)
  }

  /** The shared structure as the code mutates it, field by field; `owner` is the vNPU whose
      turn it is on the device. */
  class SchedContext {
    var owner: int
    var turn: Turn
    var injectedFor: Turn
    var quota: Ns
    var cur: Word
    var slice: Word
    var maxSync: Word
    var expected: int
    var completed: int

    function View(): Shared
      reads this
    {
      Shared(turn, injectedFor, quota, cur, slice, maxSync, expected, completed)
    }

    /** `share_mem_init`, then the quota of `vnpu_scheduler_init`. */
    constructor (q: Ns)
      ensures View() == InitShared(q) && owner == NOBODY
    {
      owner := NOBODY;
      turn, injectedFor, quota, cur := 0, 255, q, 0;
      slice, maxSync, expected, completed := 0, 0, 0, 0;
    }

    /** The mutex section of `add_and_consume_time_slice`. */
    method AddAndConsume() returns (turnId: Turn)
      modifies this
      ensures View() == EnterSection(old(View())) && owner == old(owner)
      ensures turnId == old(turn)
    {
      turnId := turn;
      if turnId != injectedFor {
        expected, completed, maxSync := 0, 0, 0;
        cur := AddWrap(cur, quota);
        var afterInject := AsSigned(cur);
        var ts := if afterInject > 0 then cur else 0;
        if ts > 0 {
          cur := SubWrap(cur, ts);
        } else {
          assert SubWrap(cur, 0) == cur;
        }
        slice := ts;
        injectedFor := turnId;
      }
      expected := expected + 1;
    }

    /** The leader section of `vnpu_scheduler_thread`, which hands the device to `next`. */
    method CloseTurn(turnId: Turn, timeslice: Word, next: int) returns (led: bool)
      modifies this
      ensures View() == CloseSection(old(View()), turnId, timeslice)
      ensures led <==> old(turn) == turnId
      ensures owner == if led && next != NOBODY then next else old(owner)
    {
      led := turn == turnId;
      if led {
        if timeslice > 0 {
          cur := SubWrap(cur, maxSync);
        }
        if next != NOBODY {
          owner := next;
        }
        turn := (turnId + 1) % 256;
      }
    }
  }

  // ---------------------------------------------------------------------------
  // All processes of the vNPU
  // ---------------------------------------------------------------------------

  /** Where a process is in one pass of the scheduler loop.  `id` is the 8-bit
      turn it remembers; `at` is the number of that turn counted without
      wrap-around, a history variable that no step reads. */
  datatype Phase =
    | Idle
    | Entered(id: Turn, at: nat)
    | Loaded(id: Turn, at: nat, ts: Word)
    | Fresh(id: Turn, at: nat, ts: Word, sync: Ns)
    | Posted(id: Turn, at: nat, ts: Word)
    | Waiting(id: Turn, at: nat, ts: Word)

  /** Shared memory, the processes, and history: turns closed, the number and the
      sum of quotas injected, slices granted, debts charged, and the longest sync
      posted so far. */
  datatype State = State(
    shared: Shared,
    procs: seq<Phase>,
    turns: nat,
    injections: nat,
    injected: nat,
    granted: nat,
    charged: nat,
    worst: nat)

  datatype Step =
    | Enter(p: nat)
    | Load(p: nat)
    | Check(p: nat, measured: Ns)
    | Post(p: nat)
    | Report(p: nat)
    | Close(p: nat)
    | Crash(p: nat)

  function InitShared(q: Ns): Shared {
    Shared(0, 255, q, 0, 0, 0, 0, 0)
  }

  function Init(q: Ns, n: nat): State {
    State(InitShared(q), seq(n, _ => Idle), 0, 0, 0, 0, 0, 0)
  }

  predicate Enabled(st: State, step: Step) {
    step.p < |st.procs| &&
    match step
    case Enter(p) => st.procs[p].Idle?
    case Load(p) => st.procs[p].Entered?
    case Check(p, _) => st.procs[p].Loaded?
    case Post(p) => st.procs[p].Fresh?
    case Report(p) => st.procs[p].Posted?
    case Close(p) => st.procs[p].Waiting?
    case Crash(_) => true
  }

  /** In every state each process has exactly one next step of its loop, and may die. */
  lemma EachPhaseHasItsStep(st: State, p: nat, measured: Ns)
    requires p < |st.procs|
    ensures Enabled(st, Crash(p))
    ensures match st.procs[p]
            case Idle => Enabled(st, Enter(p))
            case Entered(_, _) => Enabled(st, Load(p))
            case Loaded(_, _, _) => Enabled(st, Check(p, measured))
            case Fresh(_, _, _, _) => Enabled(st, Post(p))
            case Posted(_, _, _) => Enabled(st, Report(p))
            case Waiting(_, _, _) => Enabled(st, Close(p))
  {
  }

  function Max(a: int, b: int): int { if a < b then b else a }

  function Apply(st: State, step: Step): State
    requires Enabled(st, step)
  {
    var s := st.shared;
    match step
    case Enter(p) =>
      var injects := s.turn != s.injectedFor;
      var s' := EnterSection(s);
      st.(shared := s',
          procs := st.procs[p := Entered(s.turn, st.turns)],
          injections := if injects then st.injections + 1 else st.injections,
          injected := if injects then st.injected + s.quota else st.injected,
          granted := if injects then st.granted + s'.slice else st.granted)
    case Load(p) =>
      var q := st.procs[p];
      st.(procs := st.procs[p := Loaded(q.id, q.at, s.slice)])
    case Check(p, measured) =>
      var q := st.procs[p];
      if q.ts == 0 then
        st.(shared := s.(completed := s.completed + 1), procs := st.procs[p := Waiting(q.id, q.at, 0)])
      else if s.turn == q.id then
        st.(procs := st.procs[p := Fresh(q.id, q.at, q.ts, measured)])
      else
        st.(procs := st.procs[p := Idle])
    case Post(p) =>
      var q := st.procs[p];
      st.(shared := s.(maxSync := Max(s.maxSync, q.sync)),
          procs := st.procs[p := Posted(q.id, q.at, q.ts)],
          worst := Max(st.worst, q.sync))
    case Report(p) =>
      var q := st.procs[p];
      st.(shared := s.(completed := s.completed + 1), procs := st.procs[p := Waiting(q.id, q.at, q.ts)])
    case Close(p) =>
      var q := st.procs[p];
      var leads := s.turn == q.id;
      st.(shared := CloseSection(s, q.id, q.ts),
          procs := st.procs[p := Idle],
          turns := if leads then st.turns + 1 else st.turns,
          charged := if leads && q.ts > 0 then st.charged + s.maxSync else st.charged)
    case Crash(p) =>
      st.(procs := st.procs[p := Idle])
  }

  /** No process still holds a turn 256 or more turns old, so that the 8-bit
      comparison `turn == id` means what it says. */
  predicate LagFree(st: State) {
    forall p :: 0 <= p < |st.procs| && !st.procs[p].Idle? ==> st.turns - st.procs[p].at < 256
  }

  predicate Executable(st: State, steps: seq<Step>)
    decreases |steps|
  {
    steps == [] || (Enabled(st, steps[0]) && Executable(Apply(st, steps[0]), steps[1..]))
  }

  predicate LagFreeRun(st: State, steps: seq<Step>)
    decreases |steps|
  {
    LagFree(st) && (steps == [] || (Enabled(st, steps[0]) && LagFreeRun(Apply(st, steps[0]), steps[1..])))
  }

  function Run(st: State, steps: seq<Step>): State
    requires Executable(st, steps)
    decreases |steps|
  {
    if steps == [] then st else Run(Apply(st, steps[0]), steps[1..])
  }

  // ---------------------------------------------------------------------------
  // The law
  // ---------------------------------------------------------------------------

  /** Time owed by the vNPU: how far the ledger is below zero. */
  function Debt(st: State): int { -AsSigned(st.shared.cur) }

  /** Quota goes in exactly once per turn, the injected-for marker is the current
      turn or its predecessor modulo 256, and time is conserved: what was granted
      plus what was charged is what was injected plus what is owed, and no more is
      owed than one overrun. */
  predicate Law(st: State) {
    && OncePerTurn(st)
    && st.injected == st.injections * st.shared.quota
    && Balanced(st)
  }

  predicate OncePerTurn(st: State) {
    && st.shared.turn == st.turns % 256
    && (if st.injections == st.turns + 1 then st.shared.injectedFor == st.shared.turn
        else st.injections == st.turns && (st.shared.injectedFor + 1) % 256 == st.shared.turn)
  }

  predicate Balanced(st: State) {
    && st.granted + st.charged == st.injected + Debt(st)
    && 0 <= Debt(st) <= st.worst < SIGN
  }

  predicate PhaseOk(st: State, q: Phase) {
    q.Idle? ||
    (&& q.at <= st.turns
     && q.id == q.at % 256
     && (q.at == st.turns ==>
           && st.injections == st.turns + 1
           && (!q.Entered? ==> q.ts == st.shared.slice)))
  }

  predicate Inv(st: State) {
    && Law(st)
    && st.shared.maxSync <= st.worst
    && (st.injections == st.turns + 1 && st.shared.slice > 0 ==> st.shared.cur == 0)
    && forall p :: 0 <= p < |st.procs| ==> PhaseOk(st, st.procs[p])
  }

  /** Injection in plain integers: the slice is the positive part of the topped-up
      ledger, and the non-positive part stays behind as debt. */
  lemma InjectInIntegers(s: Shared, worst: nat)
    requires s.turn != s.injectedFor
    requires 0 <= -AsSigned(s.cur) <= worst < SIGN
    ensures var i := Inject(s);
            && i.slice == Max(0, AsSigned(s.cur) + s.quota)
            && AsSigned(i.cur) == AsSigned(s.cur) + s.quota - i.slice
            && 0 <= -AsSigned(i.cur) <= worst
            && (i.slice > 0 ==> i.cur == 0)
  {
    WrapIsExact(s.cur, s.quota);
    WrapIsExact(AddWrap(s.cur, s.quota), Inject(s).slice);
  }

  lemma OneMore(k: nat, q: int)
    ensures (k + 1) * q == k * q + q
  {
  }

  lemma EnterKeepsLaw(st: State, p: nat)
    requires Inv(st) && Enabled(st, Enter(p))
    ensures Law(Apply(st, Enter(p)))
  {
    var s := st.shared;
    if s.turn != s.injectedFor {
      InjectInIntegers(s, st.worst);
      OneMore(st.injections, s.quota);
    }
  }

  lemma EnterKeepsInv(st: State, p: nat)
    requires Inv(st) && Enabled(st, Enter(p))
    ensures Inv(Apply(st, Enter(p)))
  {
    EnterKeepsLaw(st, p);
    var st' := Apply(st, Enter(p));
    if st.shared.turn != st.shared.injectedFor {
      InjectInIntegers(st.shared, st.worst);
    }
    forall r | 0 <= r < |st'.procs|
      ensures PhaseOk(st', st'.procs[r])
    {
      assert PhaseOk(st, st.procs[r]);
    }
  }

  lemma NextTurn(n: nat)
    ensures (n % 256 + 1) % 256 == (n + 1) % 256
    ensures n > 0 ==> n % 256 != (n - 1) % 256
  {
    var q, r := Divide(n, 256);
    if r < 255 {
      DivUnique(n + 1, 256, q, r + 1);
    } else {
      DivUnique(n + 1, 256, q + 1, 0);
    }
    if r > 0 {
      DivUnique(n - 1, 256, q, r - 1);
    } else if n > 0 {
      DivUnique(n - 1, 256, q - 1, 255);
    }
  }

  /** Turns less than 256 apart are told apart by their lowest eight bits. */
  lemma SameTurn(a: nat, b: nat)
    requires a <= b < a + 256 && a % 256 == b % 256
    ensures a == b
  {
    var q, r := Divide(a, 256);
    var k, l := Divide(b, 256);
    assert b - a == (k - q) * 256;
  }

  lemma CloseKeepsLaw(st: State, p: nat)
    requires Inv(st) && Enabled(st, Close(p)) && st.procs[p].id == st.shared.turn && st.procs[p].at == st.turns
    ensures Law(Apply(st, Close(p)))
  {
    assert PhaseOk(st, st.procs[p]);
    NextTurn(st.turns);
    WrapIsExact(st.shared.cur, st.shared.maxSync);
  }

  lemma CloseKeepsInv(st: State, p: nat)
    requires Inv(st) && LagFree(st) && Enabled(st, Close(p))
    ensures Inv(Apply(st, Close(p)))
  {
    var q := st.procs[p];
    assert PhaseOk(st, q);
    if st.shared.turn == q.id {
      SameTurn(q.at, st.turns);
      CloseKeepsLaw(st, p);
    }
  }

  lemma StepKeepsInv(st: State, step: Step)
    requires Inv(st) && LagFree(st) && Enabled(st, step)
    ensures Inv(Apply(st, step))
  {
    match step
    case Enter(p) => EnterKeepsInv(st, p);
    case Close(p) => CloseKeepsInv(st, p);
    case Load(p) => assert PhaseOk(st, st.procs[p]);
    case Check(p, _) => assert PhaseOk(st, st.procs[p]);
    case Post(p) => assert PhaseOk(st, st.procs[p]);
    case Report(p) => assert PhaseOk(st, st.procs[p]);
    case Crash(p) =>
  }

  lemma {:induction false} RunKeepsInv(st: State, steps: seq<Step>)
    requires Inv(st) && LagFreeRun(st, steps)
    ensures Executable(st, steps) && Inv(Run(st, steps))
    decreases |steps|
  {
    if steps != [] {
      StepKeepsInv(st, steps[0]);
      RunKeepsInv(Apply(st, steps[0]), steps[1..]);
    }
  }

  /** The ledger law, over every lag-free interleaving of any number of processes. */
  lemma LedgerLaw(q: Ns, n: nat, steps: seq<Step>)
    requires LagFreeRun(Init(q, n), steps)
    ensures Executable(Init(q, n), steps) && Law(Run(Init(q, n), steps))
  {
    RunKeepsInv(Init(q, n), steps);
  }

  /** Between turns the vNPU has had its exact share: with `k` turns closed, the time
      granted and charged is at least `k` quotas and at most one overrun more. */
  lemma ShareBetweenTurns(q: Ns, n: nat, steps: seq<Step>)
    requires LagFreeRun(Init(q, n), steps)
    ensures Executable(Init(q, n), steps)
    ensures var st := Run(Init(q, n), steps);
            st.shared.turn != st.shared.injectedFor ==>
              st.turns * q <= st.granted + st.charged <= st.turns * q + st.worst
  {
    RunKeepsInv(Init(q, n), steps);
    QuotaIsConstant(Init(q, n), steps);
  }

  lemma {:induction false} QuotaIsConstant(st: State, steps: seq<Step>)
    requires Executable(st, steps)
    ensures Run(st, steps).shared.quota == st.shared.quota
    decreases |steps|
  {
    if steps != [] {
      QuotaIsConstant(Apply(st, steps[0]), steps[1..]);
    }
  }

  // ---------------------------------------------------------------------------
  // Each turn is charged its own longest sync
  // ---------------------------------------------------------------------------

  /** What the steps since the last injection add up to: the longest sync posted, the
      processes that entered and those that reported; and the debts of the turns closed
      so far, each with its own longest sync. */
  datatype Tally = Tally(longest: nat, entered: nat, reported: nat, debts: nat)

  /** The first entry of a turn. */
  predicate Opens(st: State, step: Step) { step.Enter? && st.shared.turn != st.shared.injectedFor }

  /** A leader closes a turn in which it held a slice. */
  predicate Charges(st: State, step: Step)
    requires Enabled(st, step)
  {
    step.Close? && st.procs[step.p].id == st.shared.turn && st.procs[step.p].ts > 0
  }

  function Count(st: State, step: Step, t: Tally): Tally
    requires Enabled(st, step)
  {
    if Opens(st, step) then Tally(0, 1, 0, t.debts)
    else if step.Enter? then t.(entered := t.entered + 1)
    else if step.Post? then t.(longest := Max(t.longest, st.procs[step.p].sync))
    else if step.Report? || (step.Check? && st.procs[step.p].ts == 0) then t.(reported := t.reported + 1)
    else if Charges(st, step) then t.(debts := t.debts + t.longest)
    else t
  }

  function CountAll(st: State, steps: seq<Step>, t: Tally): Tally
    requires Executable(st, steps)
    decreases |steps|
  {
    if steps == [] then t else CountAll(Apply(st, steps[0]), steps[1..], Count(st, steps[0], t))
  }

  predicate Tallies(st: State, t: Tally) {
    && st.shared.maxSync == t.longest
    && st.shared.expected == t.entered
    && st.shared.completed == t.reported
    && st.charged == t.debts
  }

  lemma StepTallies(st: State, step: Step, t: Tally)
    requires Enabled(st, step) && Tallies(st, t)
    ensures Tallies(Apply(st, step), Count(st, step, t))
  {
  }

  lemma {:induction false} RunTallies(st: State, steps: seq<Step>, t: Tally)
    requires Executable(st, steps) && Tallies(st, t)
    ensures Tallies(Run(st, steps), CountAll(st, steps, t))
    decreases |steps|
  {
    if steps != [] {
      StepTallies(st, steps[0], t);
      RunTallies(Apply(st, steps[0]), steps[1..], Count(st, steps[0], t));
    }
  }

  /** In every run, lagging or not: the turn's maximum is the longest sync posted since its
      injection, the barrier counters are the processes that entered and reported since, and
      what has been charged is the sum over the closed turns of the longest sync of each. */
  lemma TurnsChargeTheirLongestSync(q: Ns, n: nat, steps: seq<Step>)
    requires Executable(Init(q, n), steps)
    ensures var st, t := Run(Init(q, n), steps), CountAll(Init(q, n), steps, Tally(0, 0, 0, 0));
            && st.shared.maxSync == t.longest
            && st.shared.expected == t.entered && st.shared.completed == t.reported
            && st.charged == t.debts
  {
    RunTallies(Init(q, n), steps, Tally(0, 0, 0, 0));
  }

  // ---------------------------------------------------------------------------
  // The bound is tight, and the lag condition is needed
  // ---------------------------------------------------------------------------

  function OneTurn(p: nat, sync: Ns): seq<Step> {
    [Enter(p)] + ([Load(p)] + ([Check(p, sync)] + ([Post(p)] + ([Report(p)] + [Close(p)]))))
  }

  lemma {:induction false} RunConcat(st: State, a: seq<Step>, b: seq<Step>)
    requires Executable(st, a) && Executable(Run(st, a), b)
    ensures Executable(st, a + b) && Run(st, a + b) == Run(Run(st, a), b)
    decreases |a|
  {
    if a == [] {
      assert a + b == b;
    } else {
      assert (a + b)[0] == a[0] && (a + b)[1..] == a[1..] + b;
      var next := Apply(st, a[0]);
      RunConcat(next, a[1..], b);
    }
  }

  lemma Prepend(st: State, step: Step, rest: seq<Step>)
    requires Enabled(st, step) && Executable(Apply(st, step), rest)
    ensures Executable(st, [step] + rest) && Run(st, [step] + rest) == Run(Apply(st, step), rest)
    ensures LagFree(st) && LagFreeRun(Apply(st, step), rest) ==> LagFreeRun(st, [step] + rest)
  {
    assert ([step] + rest)[1..] == rest;
  }

  lemma JustClose(st: State, p: nat)
    requires Enabled(st, Close(p))
    ensures Executable(st, [Close(p)]) && Run(st, [Close(p)]) == Apply(st, Close(p))
    ensures LagFree(st) && LagFree(Apply(st, Close(p))) ==> LagFreeRun(st, [Close(p)])
  {
    assert LagFree(Apply(st, Close(p))) ==> LagFreeRun(Apply(st, Close(p)), []);
  }

  /** One whole pass of a process that has a slice to spend, when no sibling moves. */
  lemma OneTurnRuns(st: State, p: nat, sync: Ns)
    requires Enabled(st, Enter(p)) && EnterSection(st.shared).slice > 0
    ensures Executable(st, OneTurn(p, sync))
    ensures var posted := Apply(st, Enter(p));
            var m := Max(posted.shared.maxSync, sync);
            var end := Run(st, OneTurn(p, sync));
            && end == posted.(
                 shared := CloseSection(posted.shared.(maxSync := m, completed := posted.shared.completed + 1),
                                        st.shared.turn, posted.shared.slice),
                 procs := st.procs[p := Idle], worst := Max(st.worst, sync),
                 turns := st.turns + 1, charged := st.charged + m)
            && (LagFree(st) && LagFree(end) ==> LagFreeRun(st, OneTurn(p, sync)))
  {
    var s1 := Apply(st, Enter(p));
    var s2 := Apply(s1, Load(p));
    var s3 := Apply(s2, Check(p, sync));
    var s4 := Apply(s3, Post(p));
    var s5 := Apply(s4, Report(p));
    var s6 := Apply(s5, Close(p));
    assert s6.procs == st.procs[p := Idle];
    JustClose(s5, p);
    Prepend(s4, Report(p), [Close(p)]);
    Prepend(s3, Post(p), [Report(p)] + [Close(p)]);
    Prepend(s2, Check(p, sync), [Post(p)] + ([Report(p)] + [Close(p)]));
    Prepend(s1, Load(p), [Check(p, sync)] + ([Post(p)] + ([Report(p)] + [Close(p)])));
    Prepend(st, Enter(p), [Load(p)] + ([Check(p, sync)] + ([Post(p)] + ([Report(p)] + [Close(p)]))));
  }

  /** A pass in a turn that grants no slice: nothing is posted or charged, and the turn is
      closed all the same. */
  lemma EmptyTurnRuns(st: State, p: nat)
    requires Enabled(st, Enter(p)) && EnterSection(st.shared).slice == 0
    ensures var steps := [Enter(p)] + ([Load(p)] + ([Check(p, 0)] + [Close(p)]));
            && Executable(st, steps)
            && var end := Run(st, steps);
               && end.procs == st.procs[p := Idle] && end.turns == st.turns + 1
               && end.shared.turn == (st.shared.turn + 1) % 256
               && end.charged == st.charged && end.shared.cur == EnterSection(st.shared).cur
  {
    var s1 := Apply(st, Enter(p));
    var s2 := Apply(s1, Load(p));
    var s3 := Apply(s2, Check(p, 0));
    var s4 := Apply(s3, Close(p));
    assert s4.procs == st.procs[p := Idle];
    JustClose(s3, p);
    Prepend(s2, Check(p, 0), [Close(p)]);
    Prepend(s1, Load(p), [Check(p, 0)] + [Close(p)]);
    Prepend(st, Enter(p), [Load(p)] + ([Check(p, 0)] + [Close(p)]));
  }

  /** The overrun bound is reached: one turn whose sync takes `d` leaves a debt of `d`. */
  lemma DebtBoundIsTight(q: Ns, d: Ns)
    requires q > 0
    ensures LagFreeRun(Init(q, 1), OneTurn(0, d)) && Executable(Init(q, 1), OneTurn(0, d))
    ensures var st := Run(Init(q, 1), OneTurn(0, d));
            st.turns == 1 && Debt(st) == d == st.worst && st.granted == q && st.charged == d
  {
    FirstSlice(InitShared(q));
    WrapIsExact(0, d);
    OneTurnRuns(Init(q, 1), 0, d);
  }

  /** Process 0 parked just before its leader section of turn 0, process 1 idle, the
      others at `rest`, and `n` turns closed by process 1 on its own. */
  predicate Parked(st: State, q: Ns, n: nat, rest: seq<Phase>) {
    && st.procs == [Waiting(0, 0, q), Idle] + rest
    && st.worst == 0
    && st.turns == n
    && st.shared.turn == n % 256
    && st.shared.quota == q
    && st.shared.cur == 0 && st.shared.slice == q && st.shared.maxSync == 0
    && (if n == 0 then st.injections == 1 && st.shared.injectedFor == 0
        else st.injections == n && st.shared.injectedFor == (n - 1) % 256)
  }

  /** With nothing owed, a turn grants exactly the quota. */
  lemma FirstSlice(s: Shared)
    requires s.cur == 0
    ensures s.turn != s.injectedFor ==> Inject(s).slice == s.quota && Inject(s).cur == 0
  {
    WrapIsExact(0, s.quota);
    WrapIsExact(s.quota, s.quota);
  }

  lemma SoloTurn(st: State, q: Ns, n: nat, rest: seq<Phase>)
    requires q > 0 && Parked(st, q, n, rest)
    ensures Executable(st, OneTurn(1, 0)) && Parked(Run(st, OneTurn(1, 0)), q, n + 1, rest)
  {
    NextTurn(n);
    FirstSlice(st.shared);
    var i := EnterSection(st.shared);
    assert i.slice == q && i.cur == 0 && i.maxSync == 0 && i.injectedFor == i.turn == n % 256;
    OneTurnRuns(st, 1, 0);
    var end := Run(st, OneTurn(1, 0));
    assert SubWrap(0, 0) == 0;
    assert end.shared.cur == 0 && end.shared.turn == (n + 1) % 256;
    assert end.procs == [Waiting(0, 0, q), Idle] + rest;
  }

  lemma {:induction false} SoloTurns(st: State, q: Ns, n: nat, rest: seq<Phase>) returns (steps: seq<Step>)
    requires q > 0 && Parked(st, q, 0, rest)
    ensures Executable(st, steps) && Parked(Run(st, steps), q, n, rest)
  {
    if n == 0 {
      steps := [];
    } else {
      var before := SoloTurns(st, q, n - 1, rest);
      SoloTurn(Run(st, before), q, n - 1, rest);
      RunConcat(st, before, OneTurn(1, 0));
      steps := before + OneTurn(1, 0);
    }
  }

  /** The closer may act: it is not the leader, or the turn has its quota and what it
      charges, if it holds a slice, adds up with the debt to no more than one overrun. */
  predicate MayClose(st: State, q: Phase)
    requires q.Waiting?
  {
    q.id == st.shared.turn ==>
      && st.shared.turn == st.shared.injectedFor
      && (q.ts > 0 ==> Debt(st) + st.shared.maxSync <= st.worst)
  }

  lemma ChargeIsBalancedIff(st: State, p: nat)
    requires Balanced(st) && Enabled(st, Close(p)) && st.procs[p].id == st.shared.turn && st.procs[p].ts > 0
    ensures Balanced(Apply(st, Close(p))) <==> Debt(st) + st.shared.maxSync <= st.worst
  {
    if Debt(st) + st.shared.maxSync <= SIGN {
      WrapIsExact(st.shared.cur, st.shared.maxSync);
    }
  }

  lemma CloseOncePerTurnIff(st: State, p: nat)
    requires OncePerTurn(st) && Enabled(st, Close(p))
    ensures OncePerTurn(Apply(st, Close(p))) <==>
            (st.procs[p].id == st.shared.turn ==> st.shared.turn == st.shared.injectedFor)
  {
    NextTurn(st.turns);
  }

  /** Exactly when a close keeps the law, lag or no lag. */
  lemma CloseKeepsLawIff(st: State, p: nat)
    requires Law(st) && Enabled(st, Close(p))
    ensures Law(Apply(st, Close(p))) <==> MayClose(st, st.procs[p])
  {
    CloseOncePerTurnIff(st, p);
    if st.procs[p].id == st.shared.turn && st.procs[p].ts > 0 {
      ChargeIsBalancedIff(st, p);
    }
  }

  /** In a turn that has its quota, only a closer that holds a slice of another turn, and
      only when the current turn has none, can charge too much. */
  lemma SliceProtects(st: State, p: nat)
    requires Inv(st) && Enabled(st, Close(p)) && !MayClose(st, st.procs[p])
    ensures st.shared.turn != st.shared.injectedFor || (st.procs[p].ts > 0 && st.shared.slice == 0)
    ensures st.turns - st.procs[p].at >= 256
  {
    assert PhaseOk(st, st.procs[p]);
  }

  /** Process 0 goes through turn 0 up to its leader section. */
  lemma Park(st: State, q: Ns, rest: seq<Phase>) returns (park: seq<Step>)
    requires q > 0 && st.procs == [Idle, Idle] + rest && st.turns == 0 && st.worst == 0
    requires var i := EnterSection(st.shared);
             && i.turn == i.injectedFor == 0 && i.quota == i.slice == q && i.cur == 0 && i.maxSync == 0
    requires st.injections == if st.shared.turn == st.shared.injectedFor then 1 else 0
    ensures Executable(st, park) && Parked(Run(st, park), q, 0, rest)
  {
    var s1 := Apply(st, Enter(0));
    var s2 := Apply(s1, Load(0));
    var s3 := Apply(s2, Check(0, 0));
    var s4 := Apply(s3, Post(0));
    var s5 := Apply(s4, Report(0));
    assert s5.procs == [Waiting(0, 0, q), Idle] + rest;
    Prepend(s4, Report(0), []);
    Prepend(s3, Post(0), [Report(0)] + []);
    Prepend(s2, Check(0, 0), [Post(0)] + ([Report(0)] + []));
    Prepend(s1, Load(0), [Check(0, 0)] + ([Post(0)] + ([Report(0)] + [])));
    Prepend(st, Enter(0), [Load(0)] + ([Check(0, 0)] + ([Post(0)] + ([Report(0)] + []))));
    park := [Enter(0)] + ([Load(0)] + ([Check(0, 0)] + ([Post(0)] + ([Report(0)] + []))));
  }

  /** Without the lag condition the law fails for every quota: a process that sleeps
      through 256 turns closes a turn into which no quota was ever injected. */
  lemma LagBreaksTheLaw(q: Ns) returns (steps: seq<Step>)
    requires q > 0
    ensures Executable(Init(q, 2), steps) && !LagFreeRun(Init(q, 2), steps)
    ensures var st := Run(Init(q, 2), steps);
            st.turns == 257 && st.injections == 256 && !Law(st)
  {
    var s0 := Init(q, 2);
    assert s0.procs == [Idle, Idle] + [];
    FirstSlice(s0.shared);
    var park := Park(s0, q, []);
    var nap := SoloTurns(Run(s0, park), q, 256, []);
    RunConcat(s0, park, nap);
    var slept := Run(s0, park + nap);
    JustClose(slept, 0);
    RunConcat(s0, park + nap, [Close(0)]);
    steps := park + nap + [Close(0)];
    if LagFreeRun(s0, steps) {
      LedgerLaw(q, 2, steps);
      assert false;
    }
  }

  /** Process 2 stops before it posts a sync of two quotas, process 0 before its leader
      section of turn 0. */
  lemma ParkTwo(q: Ns) returns (park: seq<Step>)
    requires q > 0 && q + q < SIGN
    ensures Executable(Init(q, 3), park) && Parked(Run(Init(q, 3), park), q, 0, [Phase.Fresh(0, 0, q, q + q)])
  {
    var s0 := Init(q, 3);
    FirstSlice(s0.shared);
    var s1 := Apply(s0, Enter(2));
    var s2 := Apply(s1, Load(2));
    var s3 := Apply(s2, Check(2, q + q));
    var rest := [Phase.Fresh(0, 0, q, q + q)];
    assert s3.procs == [Idle, Idle] + rest;
    Prepend(s2, Check(2, q + q), []);
    Prepend(s1, Load(2), [Check(2, q + q)] + []);
    Prepend(s0, Enter(2), [Load(2)] + ([Check(2, q + q)] + []));
    var first := [Enter(2)] + ([Load(2)] + ([Check(2, q + q)] + []));
    var more := Park(s3, q, rest);
    RunConcat(s0, first, more);
    park := first + more;
  }

  /** 255 quiet turns later, one turn overruns by two quotas, and the next has its quota
      swallowed by the debt. */
  lemma Overrun(st: State, q: Ns)
    requires q > 0 && q + q < SIGN && Parked(st, q, 255, [Phase.Fresh(0, 0, q, q + q)])
    ensures Executable(st, OneTurn(1, q + q)) && Enabled(Run(st, OneTurn(1, q + q)), Enter(1))
    ensures var end := Apply(Run(st, OneTurn(1, q + q)), Enter(1));
            && end.procs == [Waiting(0, 0, q), Entered(0, 256), Phase.Fresh(0, 0, q, q + q)]
            && end.shared.turn == end.shared.injectedFor == 0
            && end.turns == 256 && end.injections == 257 && end.shared.maxSync == 0
            && end.shared.slice == 0 && AsSigned(end.shared.cur) == 0 - q && end.worst == q + q
  {
    NextTurn(255);
    FirstSlice(st.shared);
    var i := EnterSection(st.shared);
    assert i.slice == q && i.cur == 0 && i.maxSync == 0 && i.injectedFor == i.turn == 255;
    OneTurnRuns(st, 1, q + q);
    var mid := Run(st, OneTurn(1, q + q));
    WrapIsExact(0, q + q);
    assert AsSigned(mid.shared.cur) == 0 - (q + q) && mid.shared.turn == 0;
    InjectInIntegers(mid.shared, q + q);
  }

  /** A second way to break the law, with a quota in every turn: processes 0 and 2 sleep
      through 256 turns; then process 2 posts its old sync and process 0 charges it to a
      turn without a slice, so that the vNPU owes more than any overrun. */
  lemma LateChargeBreaksTheLaw(q: Ns) returns (steps: seq<Step>)
    requires q > 0 && q + q + q < SIGN
    ensures Executable(Init(q, 3), steps)
    ensures var st := Run(Init(q, 3), steps);
            OncePerTurn(st) && Debt(st) == q + q + q && st.worst == q + q && !Law(st)
  {
    var s0 := Init(q, 3);
    var rest := [Phase.Fresh(0, 0, q, q + q)];
    var park := ParkTwo(q);
    var nap := SoloTurns(Run(s0, park), q, 255, rest);
    RunConcat(s0, park, nap);
    var slept := Run(s0, park + nap);
    Overrun(slept, q);
    var over := Run(slept, OneTurn(1, q + q));
    LateCharge(Apply(over, Enter(1)), q);
    Prepend(over, Enter(1), [Post(2)] + [Close(0)]);
    RunConcat(slept, OneTurn(1, q + q), [Enter(1)] + ([Post(2)] + [Close(0)]));
    var tail := OneTurn(1, q + q) + ([Enter(1)] + ([Post(2)] + [Close(0)]));
    RunConcat(s0, park + nap, tail);
    steps := park + nap + tail;
  }

  lemma LateCharge(st: State, q: Ns)
    requires q > 0 && q + q + q < SIGN
    requires st.procs == [Waiting(0, 0, q), Entered(0, 256), Phase.Fresh(0, 0, q, q + q)]
    requires st.shared.turn == st.shared.injectedFor == 0 && st.turns == 256 && st.injections == 257
    requires st.shared.maxSync == 0 && AsSigned(st.shared.cur) == 0 - q && st.worst == q + q
    ensures Executable(st, [Post(2)] + [Close(0)])
    ensures var end := Run(st, [Post(2)] + [Close(0)]);
            OncePerTurn(end) && Debt(end) == q + q + q && end.worst == q + q
  {
    var posted := Apply(st, Post(2));
    JustClose(posted, 0);
    Prepend(st, Post(2), [Close(0)]);
    WrapIsExact(st.shared.cur, q + q);
  }
}
