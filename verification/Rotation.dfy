/**
 Owner rotation of the time-slice scheduler and the length of a fixed-share cycle
 (`vcann-rt/src/core_limiter.c`).

 `e[v]` says that vNPU `v` is alive and of normal priority; a cycle is a stretch of
 handovers during which `e` does not change.
 */
module Rotation {
  import opened Arithmetic

  // ---------------------------------------------------------------------------
  // The next owner
  // ---------------------------------------------------------------------------

  const NO_OWNER: int := -1

  function Candidate(v: int, d: nat, m: nat): (r: nat)
    requires v >= NO_OWNER && d >= 1 && m > 0
    ensures r < m
  {
    (v + d) % m
  }

  /** The `d`-th candidate after `v` is eligible and none before it is. */
  predicate FirstAt(e: seq<bool>, v: int, d: nat)
    requires v >= NO_OWNER
  {
    && 1 <= d <= |e| && e[Candidate(v, d, |e|)]
    && forall c :: 1 <= c < d ==> !e[Candidate(v, c, |e|)]
  }

  function NextFrom(e: seq<bool>, v: int, d: nat): int
    requires v >= NO_OWNER && 1 <= d <= |e| + 1
    decreases |e| - d
  {
    if d > |e| then NO_OWNER
    else if e[Candidate(v, d, |e|)] then Candidate(v, d, |e|)
    else NextFrom(e, v, d + 1)
  }

  function Next(e: seq<bool>, v: int): int
    requires v >= NO_OWNER
  {
    NextFrom(e, v, 1)
  }

  lemma {:induction false} NextIsFirst(e: seq<bool>, v: int, d: nat, c: nat)
    requires v >= NO_OWNER && FirstAt(e, v, d) && 1 <= c <= d
    ensures NextFrom(e, v, c) == Candidate(v, d, |e|)
    decreases d - c
  {
    if c < d {
      NextIsFirst(e, v, d, c + 1);
    }
  }

  /** Every vNPU is a candidate, at one of the first `m` places after `v`. */
  lemma CandidateFor(v: int, i: nat, m: nat) returns (d: nat)
    requires v >= NO_OWNER && i < m
    ensures 1 <= d <= m && Candidate(v, d, m) == i
  {
    var q, r := Divide(v + 1, m);
    if i >= r {
      d := i - r + 1;
      DivUnique(v + d, m, q, i);
    } else {
      d := i + m - r + 1;
      Distribute(q, 1, m);
      DivUnique(v + d, m, q + 1, i);
    }
  }

  lemma {:induction false} NextFromFinds(e: seq<bool>, v: int, d: nat)
    requires v >= NO_OWNER && 1 <= d <= |e| + 1
    requires forall c :: 1 <= c < d ==> !e[Candidate(v, c, |e|)]
    ensures NextFrom(e, v, d) == NO_OWNER ==> forall c :: 1 <= c <= |e| ==> !e[Candidate(v, c, |e|)]
    ensures NextFrom(e, v, d) != NO_OWNER ==> exists c :: FirstAt(e, v, c) && NextFrom(e, v, d) == Candidate(v, c, |e|)
    decreases |e| + 1 - d
  {
    if d <= |e| {
      if e[Candidate(v, d, |e|)] {
        assert FirstAt(e, v, d);
      } else {
        NextFromFinds(e, v, d + 1);
      }
    }
  }

  /** There is no next owner exactly when nobody is eligible; otherwise it is the first
      eligible vNPU after the owner in cyclic order. */
  lemma NextOrNone(e: seq<bool>, v: int)
    requires v >= NO_OWNER
    ensures Next(e, v) == NO_OWNER <==> forall i :: 0 <= i < |e| ==> !e[i]
    ensures Next(e, v) != NO_OWNER ==> exists d :: FirstAt(e, v, d) && Next(e, v) == Candidate(v, d, |e|)
  {
    NextFromFinds(e, v, 1);
    if Next(e, v) == NO_OWNER {
      forall i | 0 <= i < |e|
        ensures !e[i]
      {
        var d := CandidateFor(v, i, |e|);
      }
    }
  }

  /** `select_next_owner`. */
  method SelectNextOwner(e: seq<bool>, v: int) returns (next: int)
    requires v >= NO_OWNER
    ensures next == Next(e, v)
    ensures next == NO_OWNER <==> forall i :: 0 <= i < |e| ==> !e[i]
  {
    NextOrNone(e, v);
    for d := 1 to |e| + 1
      invariant NextFrom(e, v, 1) == NextFrom(e, v, d)
    {
      if e[Candidate(v, d, |e|)] {
        return Candidate(v, d, |e|);
      }
    }
    next := NO_OWNER;
  }

  // ---------------------------------------------------------------------------
  // The members of the rotation
  // ---------------------------------------------------------------------------

  /** The eligible vNPUs below `n`, in increasing order. */
  function Below(e: seq<bool>, n: nat): seq<nat>
    requires n <= |e|
  {
    if n == 0 then [] else Below(e, n - 1) + (if e[n - 1] then [n - 1] else [])
  }

  function Members(e: seq<bool>): seq<nat> { Below(e, |e|) }

  lemma {:induction false} BelowSorted(e: seq<bool>, n: nat)
    requires n <= |e|
    ensures forall i :: 0 <= i < |Below(e, n)| ==> Below(e, n)[i] < n && e[Below(e, n)[i]]
    ensures forall i, j :: 0 <= i < j < |Below(e, n)| ==> Below(e, n)[i] < Below(e, n)[j]
    ensures forall v :: 0 <= v < n && e[v] ==> v in Below(e, n)
  {
    if n > 0 {
      BelowSorted(e, n - 1);
    }
  }

  /** Between two neighbouring members, and outside all of them, nothing is eligible. */
  lemma NothingBetween(e: seq<bool>, i: nat, v: nat)
    requires i < |Members(e)| && v < |e|
    requires if i + 1 < |Members(e)| then Members(e)[i] < v < Members(e)[i + 1]
             else v > Members(e)[i] || v < Members(e)[0]
    ensures !e[v]
  {
    BelowSorted(e, |e|);
    var s := Members(e);
    if v in s {
      var j :| 0 <= j < |s| && s[j] == v;
      assert false;
    }
  }

  lemma AddMod(v: nat, d: nat, m: nat)
    requires m > 0 && v < m && d <= m
    ensures (v + d) % m == if v + d < m then v + d else v + d - m
  {
    if v + d < m {
      DivUnique(v + d, m, 0, v + d);
    } else {
      DivUnique(v + d, m, 1, v + d - m);
    }
  }

  lemma NextInside(e: seq<bool>, i: nat)
    requires i + 1 < |Members(e)|
    ensures Next(e, Members(e)[i]) == Members(e)[i + 1]
  {
    BelowSorted(e, |e|);
    var v, w := Members(e)[i], Members(e)[i + 1];
    AddMod(v, w - v, |e|);
    forall c | 1 <= c < w - v
      ensures !e[Candidate(v, c, |e|)]
    {
      AddMod(v, c, |e|);
      NothingBetween(e, i, v + c);
    }
    NextIsFirst(e, v, w - v, 1);
  }

  lemma NextWraps(e: seq<bool>)
    requires |Members(e)| > 0
    ensures Next(e, Members(e)[|Members(e)| - 1]) == Members(e)[0]
  {
    BelowSorted(e, |e|);
    var m := |e|;
    var v, w := Members(e)[|Members(e)| - 1], Members(e)[0];
    var d := m - v + w;
    AddMod(v, d, m);
    forall c | 1 <= c < d
      ensures !e[Candidate(v, c, m)]
    {
      AddMod(v, c, m);
      NothingBetween(e, |Members(e)| - 1, if v + c < m then v + c else v + c - m);
    }
    NextIsFirst(e, v, d, 1);
  }

  /** Ownership moves to the next member in cyclic order. */
  lemma NextMember(e: seq<bool>, i: nat)
    requires i < |Members(e)|
    ensures Next(e, Members(e)[i]) == Members(e)[(i + 1) % |Members(e)|]
  {
    var k := |Members(e)|;
    AddMod(i, 1, k);
    if i + 1 < k {
      NextInside(e, i);
    } else {
      NextWraps(e);
    }
  }

  // ---------------------------------------------------------------------------
  // Many handovers
  // ---------------------------------------------------------------------------

  /** The owner after `n` handovers. */
  function Owner(e: seq<bool>, v: int, n: nat): (r: int)
    requires v >= NO_OWNER
    ensures r >= NO_OWNER
  {
    if n == 0 then v else NextAtLeast(e, Owner(e, v, n - 1)); Next(e, Owner(e, v, n - 1))
  }

  lemma NextAtLeast(e: seq<bool>, v: int)
    requires v >= NO_OWNER
    ensures Next(e, v) >= NO_OWNER
  {
    NextFromAtLeast(e, v, 1);
  }

  lemma {:induction false} NextFromAtLeast(e: seq<bool>, v: int, d: nat)
    requires v >= NO_OWNER && 1 <= d <= |e| + 1
    ensures NextFrom(e, v, d) >= NO_OWNER
    decreases |e| - d
  {
    if d <= |e| && !e[Candidate(v, d, |e|)] {
      NextFromAtLeast(e, v, d + 1);
    }
  }

  /** Handovers among the first `n` after which the new owner is not above the old one;
      the fixed-share policy idles at exactly these. */
  function Wraps(e: seq<bool>, v: int, n: nat): nat
    requires v >= NO_OWNER
  {
    if n == 0 then 0 else
      Wraps(e, v, n - 1) + (if Owner(e, v, n) <= Owner(e, v, n - 1) then 1 else 0)
  }

  lemma NextIndex(a: nat, k: nat)
    requires k > 0
    ensures (a + 1) % k == (a % k + 1) % k
    ensures (a + 1) / k == a / k + (if a % k == k - 1 then 1 else 0)
    ensures a % k < k - 1 ==> (a + 1) % k == a % k + 1
    ensures a % k == k - 1 ==> (a + 1) % k == 0
  {
    var q, r := a / k, a % k;
    assert a == q * k + r;
    AddMod(r, 1, k);
    if r == k - 1 {
      assert a + 1 == (q + 1) * k + 0;
      DivUnique(a + 1, k, q + 1, 0);
    } else {
      DivUnique(a + 1, k, q, r + 1);
    }
  }

  /** After `n` handovers from the `i`-th member the owner is the `(i + n)`-th, cyclically,
      and the rotation has wrapped as often as that index has passed the end. */
  lemma {:induction false} AfterHandovers(e: seq<bool>, i: nat, n: nat)
    requires i < |Members(e)|
    ensures var k := |Members(e)|;
            && Owner(e, Members(e)[i], n) == Members(e)[(i + n) % k]
            && Wraps(e, Members(e)[i], n) == (i + n) / k
  {
    var k := |Members(e)|;
    if n == 0 {
      DivUnique(i, k, 0, i);
    } else {
      AfterHandovers(e, i, n - 1);
      var j := (i + n - 1) % k;
      NextMember(e, j);
      NextIndex(i + n - 1, k);
      BelowSorted(e, |e|);
    }
  }

  /** Any `k` consecutive handovers of a rotation of `k` members visit each member exactly
      once, end where they began, and wrap exactly once. */
  lemma FairRotation(e: seq<bool>, i: nat, j: nat)
    requires i < |Members(e)| && j < |Members(e)|
    ensures var k := |Members(e)|;
            && Owner(e, Members(e)[i], k) == Members(e)[i]
            && Wraps(e, Members(e)[i], k) == 1
            && (exists n :: 1 <= n <= k && Owner(e, Members(e)[i], n) == Members(e)[j])
            && (forall n, m :: 1 <= n < m <= k ==> Owner(e, Members(e)[i], n) != Owner(e, Members(e)[i], m))
  {
    var k := |Members(e)|;
    var v := Members(e)[i];
    BelowSorted(e, |e|);
    AfterHandovers(e, i, k);
    DivUnique(i + k, k, 1, i);
    var n := if j > i then j - i else j - i + k;
    AddMod(i, n, k);
    AfterHandovers(e, i, n);
    assert Owner(e, v, n) == Members(e)[j];
    forall n, m | 1 <= n < m <= k
      ensures Owner(e, v, n) != Owner(e, v, m)
    {
      AfterHandovers(e, i, n);
      AfterHandovers(e, i, m);
      AddMod(i, n, k);
      AddMod(i, m, k);
    }
  }

  // ---------------------------------------------------------------------------
  // Slices and idling
  // ---------------------------------------------------------------------------

  const HUNDRED: nat := 100

  /** The slice that a quota in percent yields in one period. */
  function Slice(quota: nat, period: nat): nat { quota * period / HUNDRED }

  /** Sum of the quotas of the eligible vNPUs below `n`. */
  function QuotaSum(e: seq<bool>, quota: seq<nat>, n: nat): nat
    requires n <= |e| == |quota|
  {
    if n == 0 then 0 else QuotaSum(e, quota, n - 1) + (if e[n - 1] then quota[n - 1] else 0)
  }

  lemma {:induction false} QuotaSumMonotone(e: seq<bool>, quota: seq<nat>, n: nat, m: nat)
    requires n <= m <= |e| == |quota|
    ensures QuotaSum(e, quota, n) <= QuotaSum(e, quota, m)
  {
    if n < m {
      QuotaSumMonotone(e, quota, n, m - 1);
    }
  }

  /** How long a wrap idles: what the quotas leave of the period, nothing when they exceed
      it. */
  function Idle(e: seq<bool>, quota: seq<nat>, period: nat): nat
    requires |e| == |quota|
  {
    var total := QuotaSum(e, quota, |e|);
    if total > HUNDRED then 0 else Slice(HUNDRED - total, period)
  }

  /** `vnpu_idling`: gives up as soon as the running sum exceeds the period. */
  method VnpuIdling(e: seq<bool>, quota: seq<nat>, period: nat) returns (sleep: nat)
    requires |e| == |quota|
    ensures sleep == Idle(e, quota, period)
    ensures var total := QuotaSum(e, quota, |e|);
            if total > 100 then sleep == 0 else 100 * sleep <= (100 - total) * period < 100 * sleep + 100
  {
    var total := 0;
    for i := 0 to |e|
      invariant total == QuotaSum(e, quota, i) <= HUNDRED
    {
      if e[i] {
        total := total + quota[i];
      }
      if total > HUNDRED {
        QuotaSumMonotone(e, quota, i + 1, |e|);
        return 0;
      }
    }
    sleep := Slice(HUNDRED - total, period);
  }

  /** The slices of the eligible vNPUs below `n`, in increasing order of id. */
  function Slices(e: seq<bool>, quota: seq<nat>, period: nat, n: nat): seq<nat>
    requires n <= |e| == |quota|
  {
    if n == 0 then [] else
      Slices(e, quota, period, n - 1) + (if e[n - 1] then [Slice(quota[n - 1], period)] else [])
  }

  lemma {:induction false} SliceOfMember(e: seq<bool>, quota: seq<nat>, period: nat, n: nat)
    requires n <= |e| == |quota|
    ensures |Slices(e, quota, period, n)| == |Below(e, n)|
    ensures forall j :: 0 <= j < |Below(e, n)| ==>
              Below(e, n)[j] < n && Slices(e, quota, period, n)[j] == Slice(quota[Below(e, n)[j]], period)
  {
    if n > 0 {
      SliceOfMember(e, quota, period, n - 1);
    }
  }

  function PrefixSum(ss: seq<nat>, n: nat): nat
    requires n <= |ss|
  {
    if n == 0 then 0 else PrefixSum(ss, n - 1) + ss[n - 1]
  }

  lemma {:induction false} PrefixSumOfPrefix(a: seq<nat>, b: seq<nat>, n: nat)
    requires n <= |a| <= |b| && a == b[..|a|]
    ensures PrefixSum(a, n) == PrefixSum(b, n)
  {
    if n > 0 {
      PrefixSumOfPrefix(a, b, n - 1);
    }
  }

  function Lost(quota: nat, period: nat): nat { quota * period % HUNDRED }

  /** Hundredths that rounding takes from the slices of the eligible vNPUs below `n`. */
  function LostSum(e: seq<bool>, quota: seq<nat>, period: nat, n: nat): nat
    requires n <= |e| == |quota|
  {
    if n == 0 then 0 else LostSum(e, quota, period, n - 1) + (if e[n - 1] then Lost(quota[n - 1], period) else 0)
  }

  lemma SliceExact(quota: nat, period: nat)
    ensures HUNDRED * Slice(quota, period) + Lost(quota, period) == quota * period
    ensures Lost(quota, period) < HUNDRED
  {
  }

  lemma {:induction false} SlicesExact(e: seq<bool>, quota: seq<nat>, period: nat, n: nat)
    requires n <= |e| == |quota|
    ensures var ss := Slices(e, quota, period, n);
            && |ss| == |Below(e, n)|
            && HUNDRED * PrefixSum(ss, |ss|) + LostSum(e, quota, period, n) == QuotaSum(e, quota, n) * period
    ensures LostSum(e, quota, period, n) <= (HUNDRED - 1) * |Below(e, n)|
  {
    if n > 0 {
      SlicesExact(e, quota, period, n - 1);
      var a, b := Slices(e, quota, period, n - 1), Slices(e, quota, period, n);
      if e[n - 1] {
        PrefixSumOfPrefix(a, b, |a|);
        SliceExact(quota[n - 1], period);
        Distribute(QuotaSum(e, quota, n - 1), quota[n - 1], period);
      } else {
        assert a == b;
      }
    }
  }

  /** One cycle of a fixed-share rotation: every member's slice and one idle. */
  function CycleTime(ss: seq<nat>, idle: nat): nat { PrefixSum(ss, |ss|) + idle }

  lemma NoLoss(quota: nat, period: nat)
    requires period % HUNDRED == 0
    ensures Lost(quota, period) == 0
  {
    var c := period / HUNDRED;
    assert period == c * HUNDRED;
    assert quota * period == (quota * c) * HUNDRED;
    DivUnique(quota * period, HUNDRED, quota * c, 0);
  }

  lemma {:induction false} NoLosses(e: seq<bool>, quota: seq<nat>, period: nat, n: nat)
    requires n <= |e| == |quota| && period % HUNDRED == 0
    ensures LostSum(e, quota, period, n) == 0
  {
    if n > 0 {
      NoLosses(e, quota, period, n - 1);
      NoLoss(quota[n - 1], period);
    }
  }

  /** Rounding `k` slices and the idle down loses at most `k` in all. */
  lemma RoundingGap(slices: nat, idle: nat, lost: nat, lostIdle: nat, k: nat, period: nat)
    requires HUNDRED * slices + lost + HUNDRED * idle + lostIdle == HUNDRED * period
    requires lost <= (HUNDRED - 1) * k && lostIdle < HUNDRED
    ensures period - k <= slices + idle <= period
    ensures lost == lostIdle == 0 ==> slices + idle == period
  {
  }

  lemma Accounted(e: seq<bool>, quota: seq<nat>, period: nat, total: nat)
    requires |e| == |quota| && total == QuotaSum(e, quota, |e|) <= HUNDRED
    ensures var ss := Slices(e, quota, period, |e|);
            && |ss| == |Members(e)|
            && HUNDRED * PrefixSum(ss, |ss|) + LostSum(e, quota, period, |e|)
               + HUNDRED * Slice(HUNDRED - total, period) + Lost(HUNDRED - total, period) == HUNDRED * period
  {
    SlicesExact(e, quota, period, |e|);
    SliceExact(HUNDRED - total, period);
    Distribute(total, HUNDRED - total, period);
  }

  /** When the quotas of the `k` members sum to at most 100, a cycle lies within `k` ns
      below the period, and is the period exactly when 100 divides it, as it does for the
      100 ms period. */
  lemma CycleNearPeriod(e: seq<bool>, quota: seq<nat>, period: nat)
    requires |e| == |quota| && QuotaSum(e, quota, |e|) <= HUNDRED
    ensures var cycle := CycleTime(Slices(e, quota, period, |e|), Idle(e, quota, period));
            && period - |Members(e)| <= cycle <= period
            && (period % HUNDRED == 0 ==> cycle == period)
  {
    var rest := HUNDRED - QuotaSum(e, quota, |e|);
    var ss := Slices(e, quota, period, |e|);
    Accounted(e, quota, period, HUNDRED - rest);
    SlicesExact(e, quota, period, |e|);
    SliceExact(rest, period);
    RoundingGap(PrefixSum(ss, |ss|), Slice(rest, period), LostSum(e, quota, period, |e|), Lost(rest, period),
                |Members(e)|, period);
    if period % HUNDRED == 0 {
      NoLosses(e, quota, period, |e|);
      NoLoss(rest, period);
    }
  }

  // ---------------------------------------------------------------------------
  // Cycles in time
  // ---------------------------------------------------------------------------

  /** Time of the first `n` turns of a rotation with the slices `ss` starting with the
      `i`-th member: each owner uses its slice, and a handover that wraps idles. */
  function Spent(ss: seq<nat>, idle: nat, i: nat, n: nat): nat
    requires i < |ss|
  {
    if n == 0 then 0 else
      var j := (i + n - 1) % |ss|;
      Spent(ss, idle, i, n - 1) + ss[j] + (if j == |ss| - 1 then idle else 0)
  }

  lemma {:induction false} SpentByIndex(ss: seq<nat>, idle: nat, i: nat, n: nat, q: nat, r: nat)
    requires i < |ss| && r < |ss| && i + n == q * |ss| + r
    ensures Spent(ss, idle, i, n) + PrefixSum(ss, i) == q * CycleTime(ss, idle) + PrefixSum(ss, r)
  {
    var k := |ss|;
    if n == 0 {
      DivUnique(i, k, 0, i);
      DivUnique(i, k, q, r);
    } else if r > 0 {
      DivUnique(i + n - 1, k, q, r - 1);
      SpentByIndex(ss, idle, i, n - 1, q, r - 1);
    } else {
      assert q > 0;
      Distribute(q - 1, 1, k);
      Distribute(q - 1, 1, CycleTime(ss, idle));
      DivUnique(i + n - 1, k, q - 1, k - 1);
      SpentByIndex(ss, idle, i, n - 1, q - 1, k - 1);
    }
  }

  /** `c` cycles from any member take `c` cycle times; with a period such as 100 ms and
      quotas of at most 100 together, exactly `c` periods. */
  lemma CyclesTakePeriods(e: seq<bool>, quota: seq<nat>, period: nat, i: nat, c: nat)
    requires |e| == |quota| && i < |Members(e)|
    ensures var ss, idle := Slices(e, quota, period, |e|), Idle(e, quota, period);
            && |ss| == |Members(e)|
            && Spent(ss, idle, i, c * |ss|) == c * CycleTime(ss, idle)
            && (QuotaSum(e, quota, |e|) <= HUNDRED && period % HUNDRED == 0 ==>
                  Spent(ss, idle, i, c * |ss|) == c * period)
  {
    var ss, idle := Slices(e, quota, period, |e|), Idle(e, quota, period);
    SliceOfMember(e, quota, period, |e|);
    SpentByIndex(ss, idle, i, c * |ss|, c, i);
    if QuotaSum(e, quota, |e|) <= HUNDRED {
      CycleNearPeriod(e, quota, period);
    }
  }
}
