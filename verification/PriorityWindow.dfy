/**
 Admission of launches by priority class (`vcann-rt/src/core_limiter.c`): while the other
 class has recent demand, normal-priority launches are admitted in a short window at the
 start of every fairness period and high-priority launches in the rest of it.

 Times are in ns.  Period and window are parameters with `0 < window < period`; the
 source has one second and ten milliseconds.
 */
module PriorityWindow {
  import opened Arithmetic

  const TIMEOUT_PERIOD: nat := 3000000
  const NO_TASK_TIMEOUT_PERIOD: nat := 5000000

  datatype Priority = Normal | High

  /** What the shared scheduler state says of one vNPU. */
  datatype Vnpu = Vnpu(priority: Priority, alive: nat, kernel: nat)

  /** Written at all, and within the timeout of `now` on either side: a publisher may have
      written just after the clock was read. */
  predicate Recent(t: nat, now: nat, timeout: nat) {
    t != 0 && (if t <= now then now - t else t - now) <= timeout
  }

  predicate Demands(v: Vnpu, p: Priority, now: nat) {
    && v.priority == p
    && Recent(v.alive, now, TIMEOUT_PERIOD)
    && Recent(v.kernel, now, NO_TASK_TIMEOUT_PERIOD)
  }

  /** Some vNPU of class `p` is alive and has submitted recently. */
  predicate Active(vs: seq<Vnpu>, p: Priority, now: nat) { exists v :: v in vs && Demands(v, p, now) }

  predicate InWindow(now: nat, period: nat, window: nat)
    requires 0 < window < period
  {
    now % period < window
  }

  /** Whether a launch of class `p` may be submitted. */
  predicate Admitted(vs: seq<Vnpu>, p: Priority, now: nat, period: nat, window: nat)
    requires 0 < window < period
  {
    Active(vs, Opposite(p), now) ==> (InWindow(now, period, window) <==> p == Normal)
  }

  function Opposite(p: Priority): Priority { if p == High then Normal else High }

  /** A launch is admitted unless a vNPU of the other class has shown itself within three
      milliseconds and submitted within five; then it is admitted in the part of the period
      that belongs to its class. */
  lemma AdmittedIff(vs: seq<Vnpu>, p: Priority, now: nat, period: nat, window: nat)
    requires 0 < window < period
    ensures Admitted(vs, p, now, period, window) <==>
            ((exists v :: v in vs && v.priority != p && v.alive != 0 && v.kernel != 0
                          && now - 3000000 <= v.alive <= now + 3000000
                          && now - 5000000 <= v.kernel <= now + 5000000) ==>
             (now % period < window <==> p == Normal))
  {
    forall v
      ensures Demands(v, Opposite(p), now) <==>
              && v.priority != p && v.alive != 0 && v.kernel != 0
              && now - 3000000 <= v.alive <= now + 3000000
              && now - 5000000 <= v.kernel <= now + 5000000
    {
    }
  }

  /** `priority_admission_allowed`. */
  method AdmissionAllowed(vs: seq<Vnpu>, p: Priority, now: nat, period: nat, window: nat) returns (ok: bool)
    requires 0 < window < period
    ensures ok <==> Admitted(vs, p, now, period, window)
    ensures ok <==>
            ((exists v :: v in vs && v.priority != p && v.alive != 0 && v.kernel != 0
                          && now - 3000000 <= v.alive <= now + 3000000
                          && now - 5000000 <= v.kernel <= now + 5000000) ==>
             (now % period < window <==> p == Normal))
  {
    AdmittedIff(vs, p, now, period, window);
    for i := 0 to |vs|
      invariant forall j :: 0 <= j < i ==> !Demands(vs[j], Opposite(p), now)
    {
      if vs[i].priority == Opposite(p) && Recent(vs[i].alive, now, TIMEOUT_PERIOD)
         && Recent(vs[i].kernel, now, NO_TASK_TIMEOUT_PERIOD) {
        assert Demands(vs[i], Opposite(p), now);
        assert Active(vs, Opposite(p), now);
        var inWindow := now % period < window;
        return if p == High then !inWindow else inWindow;
      }
    }
    ok := true;
  }

  /** Under contention exactly one class is admitted at every instant; a class without a
      competitor always is. */
  lemma ExactlyOneAdmitted(vs: seq<Vnpu>, now: nat, period: nat, window: nat)
    requires 0 < window < period
    ensures Active(vs, Normal, now) && Active(vs, High, now) ==>
              (Admitted(vs, Normal, now, period, window) <==> !Admitted(vs, High, now, period, window))
    ensures forall p :: !Active(vs, Opposite(p), now) ==> Admitted(vs, p, now, period, window)
  {
  }

  // ---------------------------------------------------------------------------
  // Shares of a period
  // ---------------------------------------------------------------------------

  /** What the shared state shows at every instant. */
  type World = nat -> seq<Vnpu>

  /** Both classes have recent demand throughout `[from, from + n)`. */
  predicate Contended(world: World, from: nat, n: nat) {
    forall t :: from <= t < from + n ==> Active(world(t), Normal, t) && Active(world(t), High, t)
  }

  /** Instants of `[from, from + n)` at which class `p` is admitted. */
  function AdmittedTime(world: World, p: Priority, from: nat, n: nat, period: nat, window: nat): nat
    requires 0 < window < period
  {
    if n == 0 then 0 else
      var t := from + n - 1;
      AdmittedTime(world, p, from, n - 1, period, window) + (if Admitted(world(t), p, t, period, window) then 1 else 0)
  }

  /** Instants of `[from, from + n)` inside the normal window. */
  function WindowTime(from: nat, n: nat, period: nat, window: nat): nat
    requires 0 < window < period
  {
    if n == 0 then 0 else
      WindowTime(from, n - 1, period, window) + (if InWindow(from + n - 1, period, window) then 1 else 0)
  }

  lemma {:induction false} AdmittedIsWindow(world: World, from: nat, n: nat, period: nat, window: nat)
    requires 0 < window < period && Contended(world, from, n)
    ensures AdmittedTime(world, Normal, from, n, period, window) == WindowTime(from, n, period, window)
    ensures AdmittedTime(world, High, from, n, period, window) == n - WindowTime(from, n, period, window)
  {
    if n > 0 {
      AdmittedIsWindow(world, from, n - 1, period, window);
      var t := from + n - 1;
      assert Active(world(t), Normal, t) && Active(world(t), High, t);
    }
  }

  function Min(a: nat, b: nat): nat { if a < b then a else b }

  /** Window instants before `q * period + r`. */
  lemma {:induction false} WindowTimeFromZero(n: nat, period: nat, window: nat, q: nat, r: nat)
    requires 0 < window < period && n == q * period + r && r < period
    ensures WindowTime(0, n, period, window) == q * window + Min(r, window)
  {
    if n > 0 {
      if r > 0 {
        DivUnique(n - 1, period, q, r - 1);
        WindowTimeFromZero(n - 1, period, window, q, r - 1);
      } else {
        assert q > 0;
        assert q * period == (q - 1) * period + period;
        assert q * window == (q - 1) * window + window;
        DivUnique(n - 1, period, q - 1, period - 1);
        WindowTimeFromZero(n - 1, period, window, q - 1, period - 1);
      }
    } else {
      DivUnique(0, period, q, r);
      DivUnique(0, period, 0, 0);
    }
  }

  lemma {:induction false} WindowTimeSplits(from: nat, n: nat, period: nat, window: nat)
    requires 0 < window < period
    ensures WindowTime(0, from + n, period, window) ==
            WindowTime(0, from, period, window) + WindowTime(from, n, period, window)
  {
    if n > 0 {
      WindowTimeSplits(from, n - 1, period, window);
    }
  }

  lemma PeriodHasOneWindow(from: nat, period: nat, window: nat)
    requires 0 < window < period
    ensures WindowTime(from, period, period, window) == window
  {
    var q, r := Divide(from, period);
    Distribute(q, 1, period);
    Distribute(q, 1, window);
    WindowTimeFromZero(from, period, window, q, r);
    WindowTimeFromZero(from + period, period, window, q + 1, r);
    WindowTimeSplits(from, period, period, window);
  }

  /** Under continuous contention any stretch of one period, wherever it starts, admits the
      normal class for exactly the window and the high class for the rest. */
  lemma PeriodGivesWindow(world: World, from: nat, period: nat, window: nat)
    requires 0 < window < period && Contended(world, from, period)
    ensures AdmittedTime(world, Normal, from, period, period, window) == window
    ensures AdmittedTime(world, High, from, period, period, window) == period - window
  {
    AdmittedIsWindow(world, from, period, period, window);
    PeriodHasOneWindow(from, period, window);
  }

  // ---------------------------------------------------------------------------
  // Bounded waits
  // ---------------------------------------------------------------------------

  /** Poll times that go on, at most `gap` apart, until `until` or later. */
  predicate Polls(ts: seq<nat>, gap: nat, until: nat) {
    && |ts| > 0 && ts[|ts| - 1] >= until
    && forall i :: 0 <= i < |ts| - 1 ==> ts[i] <= ts[i + 1] <= ts[i] + gap
  }

  lemma {:induction false} FirstPollAfter(ts: seq<nat>, gap: nat, until: nat) returns (i: nat)
    requires Polls(ts, gap, until) && ts[0] < until
    ensures 0 < i < |ts| && until <= ts[i] < until + gap
  {
    i := 1;
    if ts[1] < until {
      assert Polls(ts[1..], gap, until);
      var j := FirstPollAfter(ts[1..], gap, until);
      i := j + 1;
    }
  }

  lemma InWindowAfter(start: nat, period: nat, window: nat, q: nat, t: nat)
    requires 0 < window < period && start == q * period && start <= t < start + period
    ensures InWindow(t, period, window) <==> t < start + window
  {
    DivUnique(t, period, q, t - start);
  }

  /** A normal-priority waiter that polls at least once per window length is admitted
      within one period of its first poll, whatever the others do. */
  lemma NormalWaitIsBounded(world: World, ts: seq<nat>, gap: nat, period: nat, window: nat) returns (i: nat)
    requires 0 < window < period && gap <= window && |ts| > 0 && Polls(ts, gap, ts[0] + period)
    ensures i < |ts| && Admitted(world(ts[i]), Normal, ts[i], period, window) && ts[i] < ts[0] + period
  {
    i := 0;
    var q, r := Divide(ts[0], period);
    if r >= window {
      var start := (q + 1) * period;
      Distribute(q, 1, period);
      assert Polls(ts, gap, start);
      i := FirstPollAfter(ts, gap, start);
      InWindowAfter(start, period, window, q + 1, ts[i]);
    }
  }

  /** A high-priority waiter that polls at least once per rest of the period is admitted
      within the window's length and one such gap. */
  lemma HighWaitIsBounded(world: World, ts: seq<nat>, gap: nat, period: nat, window: nat) returns (i: nat)
    requires 0 < window < period && gap <= period - window && |ts| > 0 && Polls(ts, gap, ts[0] + window)
    ensures i < |ts| && Admitted(world(ts[i]), High, ts[i], period, window) && ts[i] < ts[0] + window + gap
  {
    i := 0;
    var q, r := Divide(ts[0], period);
    if r < window {
      var start := q * period;
      assert Polls(ts, gap, start + window);
      i := FirstPollAfter(ts, gap, start + window);
      InWindowAfter(start, period, window, q, ts[i]);
    }
  }
}
