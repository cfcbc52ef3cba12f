/**
 Windowed statistics (`vcann-rt/src/vnpu_stats.c`): a ring of time buckets that keeps, for
 each residue, the newest bucket only, against the sum over the full log.

 A ring holds one of the two summed quantities, block dimensions or launch counts; both
 are kept in the same way.  Recording is one step.
 */
module BucketRing {
  import opened Arithmetic
  import opened Sums

  /** The number of buckets, their duration and the length of the queried window. */
  datatype Shape = Shape(buckets: nat, duration: nat, window: nat)

  predicate ShapeOk(sh: Shape) { sh.buckets > 0 && sh.duration > 0 }

  datatype Event = Event(time: nat, amount: nat)

  datatype Bucket = Bucket(start: nat, sum: nat)

  /** Start of the bucket of an instant. */
  function Start(t: nat, sh: Shape): (s: nat)
    requires ShapeOk(sh)
    ensures s <= t < s + sh.duration
  {
    t - t % sh.duration
  }

  function Index(start: nat, sh: Shape): (i: nat)
    requires ShapeOk(sh)
    ensures i < sh.buckets
  {
    (start / sh.duration) % sh.buckets
  }

  function Record(ring: seq<Bucket>, e: Event, sh: Shape): (r: seq<Bucket>)
    requires ShapeOk(sh) && |ring| == sh.buckets
    ensures |r| == |ring|
  {
    var start := Start(e.time, sh);
    var i := Index(start, sh);
    if ring[i].start != start then ring[i := Bucket(start, e.amount)]
    else ring[i := Bucket(start, ring[i].sum + e.amount)]
  }

  function EmptyRing(n: nat): seq<Bucket> { seq(n, _ => Bucket(0, 0)) }

  function RingOf(log: seq<Event>, sh: Shape): (r: seq<Bucket>)
    requires ShapeOk(sh)
    ensures |r| == sh.buckets
  {
    if |log| == 0 then EmptyRing(sh.buckets) else Record(RingOf(log[..|log| - 1], sh), log[|log| - 1], sh)
  }

  /** The bucket starts that a query at `now` takes. */
  predicate Taken(start: nat, now: nat, sh: Shape) {
    start != 0 && start >= (if now >= sh.window then now - sh.window else 0) && start <= now
  }

  function QueryFirst(ring: seq<Bucket>, now: nat, sh: Shape, n: nat): nat
    requires n <= |ring|
  {
    if n == 0 then 0 else
      QueryFirst(ring, now, sh, n - 1) + (if Taken(ring[n - 1].start, now, sh) then ring[n - 1].sum else 0)
  }

  function Query(ring: seq<Bucket>, now: nat, sh: Shape): nat { QueryFirst(ring, now, sh, |ring|) }

  /** A query passes over buckets never used, older than the window, or dated after it. */
  lemma {:induction false} QueryPassesOver(ring: seq<Bucket>, now: nat, sh: Shape, n: nat)
    requires n <= |ring|
    requires forall i :: 0 <= i < n ==> !(0 < ring[i].start <= now <= ring[i].start + sh.window)
    ensures QueryFirst(ring, now, sh, n) == 0
  {
    if n > 0 {
      QueryPassesOver(ring, now, sh, n - 1);
    }
  }

  /** The reference: all events of the log whose bucket starts at a positive time, no more
      than the window before `now` and not after it. */
  function InWindow(now: nat, sh: Shape): Event -> int
    requires ShapeOk(sh)
  {
    (e: Event) => if 0 < Start(e.time, sh) <= now <= Start(e.time, sh) + sh.window then e.amount else 0
  }

  predicate Monotone(log: seq<Event>, now: nat) {
    && (forall i, j :: 0 <= i < j < |log| ==> log[i].time <= log[j].time)
    && (forall e :: e in log ==> e.time <= now)
  }

  // ---------------------------------------------------------------------------
  // What the ring holds
  // ---------------------------------------------------------------------------

  function AtStart(start: nat, sh: Shape): Event -> int
    requires ShapeOk(sh)
  {
    (e: Event) => if Start(e.time, sh) == start then e.amount else 0
  }

  /** Start of the newest bucket with index `i`, zero if there is none. */
  function Newest(log: seq<Event>, i: nat, sh: Shape): nat
    requires ShapeOk(sh)
  {
    if |log| == 0 then 0 else
      var s := Start(log[|log| - 1].time, sh);
      if Index(s, sh) == i then s else Newest(log[..|log| - 1], i, sh)
  }

  lemma StartMonotone(t: nat, u: nat, sh: Shape)
    requires ShapeOk(sh) && t <= u
    ensures Start(t, sh) <= Start(u, sh)
  {
    var d := sh.duration;
    var q, r := Divide(t, d);
    var q', r' := Divide(u, d);
    if q > q' {
      assert q == q' + (q - q');
      Distribute(q', q - q', d);
      MultipleIsFar(q - q', d);
      assert false;
    }
    Distribute(q, q' - q, d);
  }

  lemma {:induction false} NewestIsLast(log: seq<Event>, i: nat, sh: Shape, now: nat)
    requires ShapeOk(sh) && Monotone(log, now)
    ensures forall e :: e in log && Index(Start(e.time, sh), sh) == i ==> Start(e.time, sh) <= Newest(log, i, sh)
    ensures Newest(log, i, sh) != 0 ==> Index(Newest(log, i, sh), sh) == i
    ensures Newest(log, i, sh) <= now
  {
    if |log| > 0 {
      var n := |log| - 1;
      NewestIsLast(log[..n], i, sh, now);
      assert log[n] in log;
      forall e | e in log
        ensures Start(e.time, sh) <= Start(log[n].time, sh)
      {
        var j :| 0 <= j < |log| && log[j] == e;
        StartMonotone(e.time, log[n].time, sh);
      }
    }
  }

  /** Events strictly later than all events before them start a bucket of their own sum. */
  lemma {:induction false} NothingAtStart(log: seq<Event>, start: nat, sh: Shape)
    requires ShapeOk(sh) && forall e :: e in log ==> Start(e.time, sh) != start
    ensures Sum(log, AtStart(start, sh)) == 0
  {
    if |log| > 0 {
      NothingAtStart(log[..|log| - 1], start, sh);
    }
  }

  lemma FreshBucket(log: seq<Event>, i: nat, sh: Shape, now: nat)
    requires ShapeOk(sh) && |log| > 0 && Monotone(log, now)
    requires Index(Start(log[|log| - 1].time, sh), sh) == i
    requires Newest(log[..|log| - 1], i, sh) != Start(log[|log| - 1].time, sh)
    ensures Sum(log[..|log| - 1], AtStart(Start(log[|log| - 1].time, sh), sh)) == 0
  {
    var n := |log| - 1;
    forall e | e in log[..n]
      ensures Start(e.time, sh) != Start(log[n].time, sh)
    {
      NewestBelow(log, n, i, sh, now, e);
    }
    NothingAtStart(log[..n], Start(log[n].time, sh), sh);
  }

  lemma SumLast(log: seq<Event>, start: nat, sh: Shape)
    requires ShapeOk(sh) && |log| > 0
    ensures var n := |log| - 1;
            Sum(log, AtStart(start, sh)) ==
            Sum(log[..n], AtStart(start, sh)) + (if Start(log[n].time, sh) == start then log[n].amount else 0)
  {
  }

  /** Bucket `i` holds the newest start of index `i` and the sum of the events in it. */
  lemma {:induction false} RingHolds(log: seq<Event>, i: nat, sh: Shape, now: nat)
    requires ShapeOk(sh) && Monotone(log, now) && i < sh.buckets
    ensures RingOf(log, sh)[i].start == Newest(log, i, sh)
    ensures Newest(log, i, sh) != 0 ==> RingOf(log, sh)[i].sum == Sum(log, AtStart(Newest(log, i, sh), sh))
  {
    if |log| > 0 {
      var n := |log| - 1;
      var s := Start(log[n].time, sh);
      RingHolds(log[..n], i, sh, now);
      SumLast(log, Newest(log, i, sh), sh);
      if Index(s, sh) != i {
        NewestIsLast(log[..n], i, sh, now);
      } else if Newest(log[..n], i, sh) != s {
        FreshBucket(log, i, sh, now);
      }
    }
  }

  lemma NewestBelow(log: seq<Event>, n: nat, i: nat, sh: Shape, now: nat, e: Event)
    requires ShapeOk(sh) && Monotone(log, now) && n < |log| && e in log[..n]
    requires Index(Start(log[n].time, sh), sh) == i && Newest(log[..n], i, sh) != Start(log[n].time, sh)
    ensures Start(e.time, sh) != Start(log[n].time, sh)
  {
    NewestIsLast(log[..n], i, sh, now);
    NewestIsOfEvent(log[..n], i, sh);
    var s := Start(log[n].time, sh);
    if Newest(log[..n], i, sh) != 0 {
      var f :| f in log[..n] && Start(f.time, sh) == Newest(log[..n], i, sh);
      var j :| 0 <= j < n && log[j] == f;
      StartMonotone(f.time, log[n].time, sh);
    }
  }

  lemma {:induction false} NewestIsOfEvent(log: seq<Event>, i: nat, sh: Shape)
    requires ShapeOk(sh)
    ensures Newest(log, i, sh) != 0 ==> exists f :: f in log && Start(f.time, sh) == Newest(log, i, sh)
  {
    if |log| > 0 {
      assert log[|log| - 1] in log;
      NewestIsOfEvent(log[..|log| - 1], i, sh);
    }
  }

  // ---------------------------------------------------------------------------
  // What a query counts
  // ---------------------------------------------------------------------------

  /** The event lies in the newest bucket of its index. */
  predicate NotOverwritten(log: seq<Event>, e: Event, sh: Shape)
    requires ShapeOk(sh)
  {
    Start(e.time, sh) == Newest(log, Index(Start(e.time, sh), sh), sh)
  }

  /** Events of the first `n` indices in buckets that are taken and not overwritten. */
  function Kept(log: seq<Event>, now: nat, sh: Shape, n: nat): Event -> int
    requires ShapeOk(sh)
  {
    (e: Event) => if Index(Start(e.time, sh), sh) < n && Taken(Start(e.time, sh), now, sh) && NotOverwritten(log, e, sh)
                  then e.amount else 0
  }

  function OfIndex(log: seq<Event>, now: nat, sh: Shape, i: nat): Event -> int
    requires ShapeOk(sh)
  {
    (e: Event) => if Taken(Newest(log, i, sh), now, sh) && Start(e.time, sh) == Newest(log, i, sh) then e.amount else 0
  }

  lemma BucketCounts(log: seq<Event>, now: nat, sh: Shape, i: nat)
    requires ShapeOk(sh) && Monotone(log, now) && i < sh.buckets
    ensures var b := RingOf(log, sh)[i];
            (if Taken(b.start, now, sh) then b.sum else 0) == Sum(log, OfIndex(log, now, sh, i))
  {
    RingHolds(log, i, sh, now);
    if Taken(Newest(log, i, sh), now, sh) {
      SumSame(log, AtStart(Newest(log, i, sh), sh), OfIndex(log, now, sh, i));
    } else {
      SumZero(log, OfIndex(log, now, sh, i));
    }
  }

  lemma {:induction false} QueryCountsFirst(log: seq<Event>, now: nat, sh: Shape, n: nat)
    requires ShapeOk(sh) && Monotone(log, now) && n <= sh.buckets
    ensures QueryFirst(RingOf(log, sh), now, sh, n) == Sum(log, Kept(log, now, sh, n))
  {
    if n == 0 {
      SumZero(log, Kept(log, now, sh, 0));
    } else {
      QueryCountsFirst(log, now, sh, n - 1);
      BucketCounts(log, now, sh, n - 1);
      NewestIsLast(log, n - 1, sh, now);
      SumMinus(log, Kept(log, now, sh, n), Kept(log, now, sh, n - 1), OfIndex(log, now, sh, n - 1));
    }
  }

  /** For every shape and every monotone log, a query counts exactly the events in buckets
      that it takes and that no later bucket of the same index has overwritten. */
  lemma QueryCounts(log: seq<Event>, now: nat, sh: Shape)
    requires ShapeOk(sh) && Monotone(log, now)
    ensures Query(RingOf(log, sh), now, sh) == Sum(log, Kept(log, now, sh, sh.buckets))
  {
    QueryCountsFirst(log, now, sh, sh.buckets);
  }

  // ---------------------------------------------------------------------------
  // When that is the whole window
  // ---------------------------------------------------------------------------

  /** Every query of every monotone log returns the sum over the window. */
  ghost predicate Exact(sh: Shape)
    requires ShapeOk(sh)
  {
    forall log, now :: Monotone(log, now) ==> Query(RingOf(log, sh), now, sh) == Sum(log, InWindow(now, sh))
  }

  /** Two different starts of the same index lie at least a whole ring apart. */
  lemma SameIndexFarApart(t: nat, u: nat, sh: Shape)
    requires ShapeOk(sh) && Index(Start(t, sh), sh) == Index(Start(u, sh), sh) && Start(t, sh) < Start(u, sh)
    ensures Start(t, sh) + sh.buckets * sh.duration <= Start(u, sh)
  {
    var d, b := sh.duration, sh.buckets;
    var q, r := Divide(t, d);
    var q', r' := Divide(u, d);
    StartNumber(t, q, r, sh);
    StartNumber(u, q', r', sh);
    var m, s := Divide(q, b);
    var m', s' := Divide(q', b);
    assert s == s';
    if q' <= q {
      Distribute(q', q - q', d);
      assert false;
    }
    if m' <= m {
      Distribute(m', m - m', b);
      assert false;
    }
    Distribute(m, m' - m, b);
    MultipleIsFar(m' - m, b);
    assert q' >= q + b;
    Distribute(q + b, q' - q - b, d);
    Distribute(q, b, d);
  }

  lemma StartNumber(t: nat, q: nat, r: nat, sh: Shape)
    requires ShapeOk(sh) && t == q * sh.duration + r && r < sh.duration
    ensures Start(t, sh) == q * sh.duration && Index(Start(t, sh), sh) == q % sh.buckets
  {
    DivUnique(t, sh.duration, q, r);
    DivUnique(q * sh.duration, sh.duration, q, 0);
  }

  lemma WideRingKeeps(log: seq<Event>, now: nat, sh: Shape, e: Event)
    requires ShapeOk(sh) && Monotone(log, now) && e in log && Taken(Start(e.time, sh), now, sh)
    requires sh.buckets * sh.duration > sh.window
    ensures NotOverwritten(log, e, sh)
  {
    var s := Start(e.time, sh);
    var i := Index(s, sh);
    NewestIsLast(log, i, sh, now);
    NewestIsOfEvent(log, i, sh);
    var f :| f in log && Start(f.time, sh) == Newest(log, i, sh);
    if s < Newest(log, i, sh) {
      SameIndexFarApart(e.time, f.time, sh);
      assert false;
    }
  }

  lemma WideRingIsExact(log: seq<Event>, now: nat, sh: Shape)
    requires ShapeOk(sh) && Monotone(log, now) && sh.buckets * sh.duration > sh.window
    ensures Query(RingOf(log, sh), now, sh) == Sum(log, InWindow(now, sh))
  {
    QueryCounts(log, now, sh);
    forall e | e in log
      ensures Kept(log, now, sh, sh.buckets)(e) == InWindow(now, sh)(e)
    {
      if Taken(Start(e.time, sh), now, sh) {
        WideRingKeeps(log, now, sh, e);
      }
    }
    SumSame(log, Kept(log, now, sh, sh.buckets), InWindow(now, sh));
  }

  lemma MultipleOfTurn(sh: Shape, m: nat)
    requires ShapeOk(sh)
    ensures var t := m * (sh.buckets * sh.duration); Start(t, sh) == t && Index(t, sh) == 0
  {
    var q := m * sh.buckets;
    assert m * (sh.buckets * sh.duration) == q * sh.duration;
    StartNumber(q * sh.duration, q, 0, sh);
    DivUnique(q, sh.buckets, m, 0);
  }

  /** Two events a whole ring apart: the second overwrites the bucket of the first. */
  function Pair(turn: nat): seq<Event> { [Event(turn, 1), Event(2 * turn, 1)] }

  lemma NarrowRingLoses(sh: Shape, turn: nat)
    requires ShapeOk(sh) && turn == sh.buckets * sh.duration <= sh.window && turn > 0
    ensures Monotone(Pair(turn), 2 * turn)
    ensures Query(RingOf(Pair(turn), sh), 2 * turn, sh) == 1
    ensures Sum(Pair(turn), InWindow(2 * turn, sh)) == 2
  {
    var log, now := Pair(turn), 2 * turn;
    MultipleOfTurn(sh, 1);
    MultipleOfTurn(sh, 2);
    assert Newest(log, 0, sh) == now;
    SumTwo(log[0], log[1], InWindow(now, sh));
    SumTwo(log[0], log[1], Kept(log, now, sh, sh.buckets));
    QueryCounts(log, now, sh);
  }

  /** The ring agrees with the full log on every query exactly when it spans more than the
      window. */
  lemma ExactIff(sh: Shape)
    requires ShapeOk(sh)
    ensures Exact(sh) <==> sh.buckets * sh.duration > sh.window
  {
    if sh.buckets * sh.duration > sh.window {
      forall log, now | Monotone(log, now)
        ensures Query(RingOf(log, sh), now, sh) == Sum(log, InWindow(now, sh))
      {
        WideRingIsExact(log, now, sh);
      }
    } else {
      var turn := sh.buckets * sh.duration;
      MultipleIsFar(sh.buckets, sh.duration);
      NarrowRingLoses(sh, turn);
      assert Query(RingOf(Pair(turn), sh), 2 * turn, sh) != Sum(Pair(turn), InWindow(2 * turn, sh));
    }
  }

  const NS_PER_MS: nat := 1000000

  /** Twelve buckets of 50 ms for a window of 1000 ms. */
  const SHIPPED := Shape(12, 50 * NS_PER_MS, 1000 * NS_PER_MS)

  /** The shipped ring spans 600 ms, so it is not exact. */
  lemma ShippedIsNotExact()
    ensures !Exact(SHIPPED)
  {
    ExactIff(SHIPPED);
  }

  // ---------------------------------------------------------------------------
  // The buckets, updated in place
  // ---------------------------------------------------------------------------

  /** The buckets of one vNPU with both sums. */
  class Stats {
    const shape: Shape
    const start: array<nat>
    const blockDim: array<nat>
    const launches: array<nat>

    ghost predicate Valid()
      reads this
    {
      && ShapeOk(shape) && start.Length == blockDim.Length == launches.Length == shape.buckets
      && start != blockDim && start != launches && blockDim != launches
    }

    /** The ring of block dimensions. */
    ghost function Dims(): seq<Bucket>
      requires Valid()
      reads this, start, blockDim
    {
      seq(shape.buckets, i requires 0 <= i < shape.buckets reads this, start, blockDim requires Valid() =>
        Bucket(start[i], blockDim[i]))
    }

    /** The ring of launch counts. */
    ghost function Counts(): seq<Bucket>
      requires Valid()
      reads this, start, launches
    {
      seq(shape.buckets, i requires 0 <= i < shape.buckets reads this, start, launches requires Valid() =>
        Bucket(start[i], launches[i]))
    }

    constructor (shape: Shape)
      requires ShapeOk(shape)
      ensures Valid() && this.shape == shape
      ensures Dims() == EmptyRing(shape.buckets) && Counts() == EmptyRing(shape.buckets)
      ensures fresh(start) && fresh(blockDim) && fresh(launches)
    {
      this.shape := shape;
      start := new nat[shape.buckets](_ => 0);
      blockDim := new nat[shape.buckets](_ => 0);
      launches := new nat[shape.buckets](_ => 0);
    }

    /** `vnpu_stats_record`. */
    method RecordLaunches(now: nat, dim: nat, count: nat)
      requires Valid()
      modifies start, blockDim, launches
      ensures Dims() == Record(old(Dims()), Event(now, dim), shape)
      ensures Counts() == Record(old(Counts()), Event(now, count), shape)
    {
      var s := Start(now, shape);
      var i := Index(s, shape);
      if start[i] != s {
        start[i] := s;
        blockDim[i] := dim;
        launches[i] := count;
      } else {
        blockDim[i] := blockDim[i] + dim;
        launches[i] := launches[i] + count;
      }
    }

    /** `vnpu_stats_query`. */
    method QueryStats(now: nat) returns (dim: nat, count: nat)
      requires Valid()
      ensures dim == Query(Dims(), now, shape)
      ensures count == Query(Counts(), now, shape)
    {
      dim, count := 0, 0;
      var windowStart := if now >= shape.window then now - shape.window else 0;
      for i := 0 to shape.buckets
        invariant dim == QueryFirst(Dims(), now, shape, i)
        invariant count == QueryFirst(Counts(), now, shape, i)
      {
        var s := start[i];
        if !(s == 0 || s < windowStart || s > now) {
          dim := dim + blockDim[i];
          count := count + launches[i];
        }
      }
    }
  }
}
