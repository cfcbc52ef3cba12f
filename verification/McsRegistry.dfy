/**
 The live-allocation registry of MCS and the usage counter behind the memory quota
 (`mcs/common/memory.c`, `mcs/src/mcs_mem.c`, `mcs/common/mem_limiter.c`).

 The table is open-addressed and erases without leaving a tombstone.  Its size `n` is
 65536 in the source; everything here holds for every size and every hash function.
 */
module McsRegistry {
  import opened Arithmetic
  import opened Search
  import opened Sums

  /** A zero key is an empty slot. */
  datatype Slot = Slot(key: nat, size: nat)

  const EMPTY := Slot(0, 0)

  /** Any hash function; results outside the table count as zero. */
  type Hash = nat -> nat

  /** The hash of the source.  Its multiplication wraps at a multiple of the table size,
      which the reduction hides. */
  function ShippedHash(n: nat): Hash
    requires n > 0
  {
    (key: nat) => (key / 16 * 2654435761) % n
  }

  function Home(h: Hash, key: nat, n: nat): (r: nat)
    requires n > 0
    ensures r < n
  {
    if h(key) < n then h(key) else 0
  }

  /** The `j`-th slot to look at, wrapping around. */
  function Probe(h: Hash, key: nat, j: nat, n: nat): (r: nat)
    requires j < n
    ensures r < n
  {
    var i := Home(h, key, n) + j;
    if i < n then i else i - n
  }

  /** Where probing for a key ends. */
  datatype Place = Found(i: nat) | Vacant(i: nat) | Full

  function Locate(h: Hash, t: seq<Slot>, key: nat, j: nat): (p: Place)
    requires |t| > 0 && j <= |t|
    ensures p.Found? ==> p.i < |t| && t[p.i].key == key
    ensures p.Vacant? ==> p.i < |t| && t[p.i].key == 0
    decreases |t| - j
  {
    if j == |t| then Full else
      var i := Probe(h, key, j, |t|);
      if t[i].key == 0 then Vacant(i)
      else if t[i].key == key then Found(i)
      else Locate(h, t, key, j + 1)
  }

  function Insert(h: Hash, t: seq<Slot>, key: nat, size: nat): seq<Slot>
    requires |t| > 0
  {
    match Locate(h, t, key, 0)
    case Full => t
    case Found(i) => t[i := Slot(key, size)]
    case Vacant(i) => t[i := Slot(key, size)]
  }

  /** What the usage counter grows by. */
  function Delta(h: Hash, t: seq<Slot>, key: nat, size: nat): nat
    requires |t| > 0
  {
    match Locate(h, t, key, 0)
    case Full => 0
    case Found(i) => if size > t[i].size then size - t[i].size else 0
    case Vacant(_) => size
  }

  function Erase(h: Hash, t: seq<Slot>, key: nat): seq<Slot>
    requires |t| > 0
  {
    var p := Locate(h, t, key, 0);
    if p.Found? then t[p.i := EMPTY] else t
  }

  function ErasedSize(h: Hash, t: seq<Slot>, key: nat): nat
    requires |t| > 0
  {
    var p := Locate(h, t, key, 0);
    if p.Found? then t[p.i].size else 0
  }

  // ---------------------------------------------------------------------------
  // Runs of hooked allocations and frees
  // ---------------------------------------------------------------------------

  /** The table, the counter, and the allocations that are live and were recorded. */
  datatype State = State(table: seq<Slot>, used: nat, live: seq<Slot>)

  datatype Config = Config(hash: Hash, quota: nat)

  /** The runtime hands out `key`; or it frees it. */
  datatype Step = Alloc(key: nat, size: nat) | Free(key: nat)

  /** Position of `key` in the list of live allocations, or its length. */
  function Find(live: seq<Slot>, key: nat): (i: nat)
    ensures i <= |live| && (forall j :: 0 <= j < i ==> live[j].key != key) && (i < |live| ==> live[i].key == key)
  {
    First(live, (l: Slot) => l.key == key)
  }

  function Record(live: seq<Slot>, key: nat, size: nat): seq<Slot> {
    var i := Find(live, key);
    if i < |live| then live[i := Slot(key, size)] else live + [Slot(key, size)]
  }

  function Forget(live: seq<Slot>, key: nat): seq<Slot> {
    var i := Find(live, key);
    if i < |live| then Without(live, i) else live
  }

  /** A refused allocation, and one that does not fit the table, change nothing here. */
  function Apply(st: State, s: Step, cfg: Config): State
    requires |st.table| > 0
  {
    match s
    case Alloc(key, size) =>
      if key == 0 || st.used + size > cfg.quota || Locate(cfg.hash, st.table, key, 0).Full? then st else
        State(Insert(cfg.hash, st.table, key, size), st.used + Delta(cfg.hash, st.table, key, size),
              Record(st.live, key, size))
    case Free(key) =>
      if key == 0 then st else
        var size := ErasedSize(cfg.hash, st.table, key);
        State(Erase(cfg.hash, st.table, key), if size > st.used then 0 else st.used - size, Forget(st.live, key))
  }

  lemma ApplyKeepsLength(st: State, s: Step, cfg: Config)
    requires |st.table| > 0
    ensures |Apply(st, s, cfg).table| == |st.table|
  {
  }

  function Run(st: State, steps: seq<Step>, cfg: Config): State
    requires |st.table| > 0
    decreases |steps|
  {
    if |steps| == 0 then st else
      ApplyKeepsLength(st, steps[0], cfg);
      Run(Apply(st, steps[0], cfg), steps[1..], cfg)
  }

  function Init(n: nat): State { State(seq(n, _ => EMPTY), 0, []) }

  function SizeOf(s: Slot): int { s.size }

  // ---------------------------------------------------------------------------
  // The one-sided bound
  // ---------------------------------------------------------------------------

  predicate DistinctKeys(live: seq<Slot>) { forall i, j :: 0 <= i < j < |live| ==> live[i].key != live[j].key }

  /** Every live allocation has a slot of its own, although it may have lost its probe run. */
  predicate Held(live: seq<Slot>, t: seq<Slot>) { forall l :: l in live ==> l.key != 0 && l in t }

  predicate Inv(st: State, cfg: Config) {
    && |st.table| > 0
    && DistinctKeys(st.live) && Held(st.live, st.table)
    && Sum(st.table, SizeOf) <= st.used <= cfg.quota
  }

  lemma {:induction false} LiveWithinTable(live: seq<Slot>, t: seq<Slot>)
    requires DistinctKeys(live) && Held(live, t)
    ensures Sum(live, SizeOf) <= Sum(t, SizeOf)
  {
    if |live| == 0 {
      SumNonNegative(t, SizeOf);
    } else {
      var n := |live| - 1;
      assert live[n] in live;
      var i :| 0 <= i < |t| && t[i] == live[n];
      var rest := t[i := EMPTY];
      forall l | l in live[..n]
        ensures l.key != 0 && l in rest
      {
        assert l in live;
        var j :| 0 <= j < |t| && t[j] == l;
        assert l.key != live[n].key;
        assert rest[j] == l;
      }
      LiveWithinTable(live[..n], rest);
      SumUpdate(t, i, EMPTY, SizeOf);
    }
  }

  lemma RecordKeepsDistinct(live: seq<Slot>, key: nat, size: nat)
    requires DistinctKeys(live)
    ensures DistinctKeys(Record(live, key, size))
    ensures forall l :: l in Record(live, key, size) ==> l == Slot(key, size) || (l in live && l.key != key)
  {
    var i := Find(live, key);
    if i < |live| {
      assert forall j :: 0 <= j < |live| && j != i ==> live[j].key != key;
    }
  }

  lemma ForgetKeepsDistinct(live: seq<Slot>, key: nat)
    requires DistinctKeys(live)
    ensures DistinctKeys(Forget(live, key))
    ensures forall l :: l in Forget(live, key) ==> l in live && l.key != key
  {
    var i := Find(live, key);
    if i < |live| {
      var w := Without(live, i);
      forall m | 0 <= m < |w|
        ensures w[m] in live && w[m].key != key
      {
        assert w[m] == live[if m < i then m else m + 1];
      }
    }
  }

  /** A slot of another key survives an update of one slot that was vacant or held `key`. */
  lemma OtherKeyStays(t: seq<Slot>, i: nat, s: Slot, key: nat, l: Slot)
    requires i < |t| && (t[i].key == 0 || t[i].key == key) && l in t && l.key != 0 && l.key != key
    ensures l in t[i := s]
  {
    var j :| 0 <= j < |t| && t[j] == l;
    assert t[i := s][j] == l;
  }

  lemma AllocKeepsInv(st: State, s: Step, cfg: Config)
    requires Inv(st, cfg) && s.Alloc?
    ensures Inv(Apply(st, s, cfg), cfg)
  {
    var st' := Apply(st, s, cfg);
    var p := Locate(cfg.hash, st.table, s.key, 0);
    if s.key != 0 && st.used + s.size <= cfg.quota && !p.Full? {
      RecordKeepsDistinct(st.live, s.key, s.size);
      SumUpdate(st.table, p.i, Slot(s.key, s.size), SizeOf);
      assert p.Vacant? ==> st.table[p.i].size >= 0;
      forall l | l in st'.live
        ensures l.key != 0 && l in st'.table
      {
        if l == Slot(s.key, s.size) {
          assert st'.table[p.i] == l;
        } else {
          OtherKeyStays(st.table, p.i, Slot(s.key, s.size), s.key, l);
        }
      }
    }
  }

  lemma FreeKeepsInv(st: State, s: Step, cfg: Config)
    requires Inv(st, cfg) && s.Free?
    ensures Inv(Apply(st, s, cfg), cfg)
  {
    var st' := Apply(st, s, cfg);
    var p := Locate(cfg.hash, st.table, s.key, 0);
    if s.key != 0 {
      ForgetKeepsDistinct(st.live, s.key);
      forall l | l in st'.live
        ensures l.key != 0 && l in st'.table
      {
        if p.Found? {
          OtherKeyStays(st.table, p.i, EMPTY, s.key, l);
        }
      }
      if p.Found? {
        SumUpdate(st.table, p.i, EMPTY, SizeOf);
        SumNonNegative(st'.table, SizeOf);
      }
    }
  }

  lemma {:induction false} RunKeepsInv(st: State, steps: seq<Step>, cfg: Config)
    requires Inv(st, cfg)
    ensures Inv(Run(st, steps, cfg), cfg)
    decreases |steps|
  {
    if |steps| > 0 {
      if steps[0].Alloc? {
        AllocKeepsInv(st, steps[0], cfg);
      } else {
        FreeKeepsInv(st, steps[0], cfg);
      }
      RunKeepsInv(Apply(st, steps[0], cfg), steps[1..], cfg);
    }
  }

  /** In every run of allocations and frees, keys recurring or not, the counter is at least
      the bytes of all recorded live allocations and never above the quota. */
  lemma LiveUsageBound(n: nat, steps: seq<Step>, cfg: Config)
    requires n > 0
    ensures var st := Run(Init(n), steps, cfg); Sum(st.live, SizeOf) <= st.used <= cfg.quota
  {
    SumZero(Init(n).table, SizeOf);
    RunKeepsInv(Init(n), steps, cfg);
    var st := Run(Init(n), steps, cfg);
    LiveWithinTable(st.live, st.table);
  }

  // ---------------------------------------------------------------------------
  // When the counter is exact
  // ---------------------------------------------------------------------------

  /** Every key is found in the slot that holds it. */
  predicate Intact(h: Hash, t: seq<Slot>) {
    && |t| > 0
    && forall i {:trigger Locate(h, t, t[i].key, 0)} :: 0 <= i < |t| && t[i].key != 0 ==>
         Locate(h, t, t[i].key, 0) == Found(i)
  }

  /** Probing for `key` looks at slot `i` before it ends elsewhere. */
  predicate Crosses(h: Hash, t: seq<Slot>, key: nat, j: nat, i: nat)
    requires |t| > 0 && j <= |t|
    decreases |t| - j
  {
    if j == |t| then false else
      var k := Probe(h, key, j, |t|);
      t[k].key != 0 && t[k].key != key && (k == i || Crosses(h, t, key, j + 1, i))
  }

  lemma {:induction false} FillingKeeps(h: Hash, t: seq<Slot>, key: nat, j: nat, i: nat, s: Slot, k: nat)
    requires |t| > 0 && j <= |t| && i < |t| && t[i].key == 0 && Locate(h, t, key, j) == Found(k)
    ensures Locate(h, t[i := s], key, j) == Found(k)
    decreases |t| - j
  {
    if t[Probe(h, key, j, |t|)].key != key {
      FillingKeeps(h, t, key, j + 1, i, s, k);
    }
  }

  lemma {:induction false} FilledIsFound(h: Hash, t: seq<Slot>, key: nat, j: nat, i: nat, size: nat)
    requires |t| > 0 && j <= |t| && key != 0 && Locate(h, t, key, j) == Vacant(i)
    ensures Locate(h, t[i := Slot(key, size)], key, j) == Found(i)
    decreases |t| - j
  {
    if Probe(h, key, j, |t|) != i {
      FilledIsFound(h, t, key, j + 1, i, size);
    }
  }

  lemma {:induction false} ResizingKeeps(h: Hash, t: seq<Slot>, key: nat, j: nat, i: nat, s: Slot)
    requires |t| > 0 && j <= |t| && i < |t| && s.key == t[i].key
    ensures Locate(h, t[i := s], key, j) == Locate(h, t, key, j)
    decreases |t| - j
  {
    if j < |t| {
      ResizingKeeps(h, t, key, j + 1, i, s);
    }
  }

  /** Recording an allocation never breaks a probe run. */
  lemma InsertKeepsIntact(h: Hash, t: seq<Slot>, key: nat, size: nat)
    requires Intact(h, t) && key != 0
    ensures Intact(h, Insert(h, t, key, size))
  {
    var p := Locate(h, t, key, 0);
    if !p.Full? {
      var t' := Insert(h, t, key, size);
      forall k | 0 <= k < |t'| && t'[k].key != 0
        ensures Locate(h, t', t'[k].key, 0) == Found(k)
      {
        if p.Found? {
          ResizingKeeps(h, t, t[k].key, 0, p.i, Slot(key, size));
        } else if k == p.i {
          FilledIsFound(h, t, key, 0, p.i, size);
        } else {
          FillingKeeps(h, t, t[k].key, 0, p.i, Slot(key, size), k);
        }
      }
    }
  }

  lemma {:induction false} ErasingBreaksIff(h: Hash, t: seq<Slot>, key: nat, j: nat, i: nat, k: nat)
    requires |t| > 0 && j <= |t| && i < |t| && i != k && t[i].key != key && t[i].key != 0
    requires Locate(h, t, key, j) == Found(k)
    ensures Locate(h, t[i := EMPTY], key, j) == Found(k) <==> !Crosses(h, t, key, j, i)
    ensures Crosses(h, t, key, j, i) ==> Locate(h, t[i := EMPTY], key, j) == Vacant(i)
    decreases |t| - j
  {
    var m := Probe(h, key, j, |t|);
    if m != i && t[m].key != key {
      ErasingBreaksIff(h, t, key, j + 1, i, k);
    }
  }

  /** No other key's probe run goes through the slot of `key`. */
  predicate Clear(h: Hash, t: seq<Slot>, key: nat)
    requires |t| > 0
  {
    var p := Locate(h, t, key, 0);
    p.Found? ==> forall k :: 0 <= k < |t| && k != p.i && t[k].key != 0 ==> !Crosses(h, t, t[k].key, 0, p.i)
  }

  /** Erasing leaves every other key reachable exactly when no other probe run goes
      through the erased slot. */
  lemma EraseKeepsIntactIff(h: Hash, t: seq<Slot>, key: nat)
    requires Intact(h, t) && key != 0
    ensures Intact(h, Erase(h, t, key)) <==> Clear(h, t, key)
  {
    var p := Locate(h, t, key, 0);
    if p.Found? {
      var t' := Erase(h, t, key);
      forall k | 0 <= k < |t| && k != p.i && t[k].key != 0
        ensures t'[k] == t[k]
        ensures Locate(h, t', t[k].key, 0) == Found(k) <==> !Crosses(h, t, t[k].key, 0, p.i)
      {
        assert Locate(h, t, t[k].key, 0) == Found(k);
        ErasingBreaksIff(h, t, t[k].key, 0, p.i, k);
      }
    }
  }

  /** The table and the live allocations agree. */
  predicate Agrees(t: seq<Slot>, live: seq<Slot>) {
    && (forall s :: s in t && s.key != 0 ==> s in live)
    && (forall l :: l in live ==> l.key != 0 && l in t)
  }

  predicate ExactInv(h: Hash, st: State) {
    Intact(h, st.table) && DistinctKeys(st.live) && Agrees(st.table, st.live) && st.used == Sum(st.live, SizeOf)
  }

  /** Each allocation gets a key that is not live, fits the table, and each free is clear. */
  predicate Tidy(h: Hash, st: State, s: Step)
    requires |st.table| > 0
  {
    match s
    case Alloc(key, _) => Find(st.live, key) == |st.live|
    case Free(key) => Clear(h, st.table, key)
  }

  predicate TidyRun(st: State, steps: seq<Step>, cfg: Config)
    requires |st.table| > 0
    decreases |steps|
  {
    |steps| == 0 || (Tidy(cfg.hash, st, steps[0]) && TidyRun(Apply(st, steps[0], cfg), steps[1..], cfg))
  }

  lemma NotLiveIsVacant(h: Hash, st: State, key: nat)
    requires ExactInv(h, st) && Find(st.live, key) == |st.live|
    ensures !Locate(h, st.table, key, 0).Found? || key == 0
  {
    var p := Locate(h, st.table, key, 0);
    assert p.Found? ==> st.table[p.i] in st.table;
  }

  lemma FillingAgrees(t: seq<Slot>, live: seq<Slot>, i: nat, slot: Slot)
    requires Agrees(t, live) && i < |t| && t[i].key == 0 && slot.key != 0
    requires forall l :: l in live ==> l.key != slot.key
    ensures Agrees(t[i := slot], live + [slot])
  {
    var t' := t[i := slot];
    forall l | l in live + [slot]
      ensures l.key != 0 && l in t'
    {
      if l in live {
        OtherKeyStays(t, i, slot, slot.key, l);
      } else {
        assert t'[i] == l;
      }
    }
    forall x | x in t' && x.key != 0
      ensures x in live + [slot]
    {
      var m :| 0 <= m < |t'| && t'[m] == x;
      assert m == i || t[m] == x;
    }
  }

  lemma RecordFresh(live: seq<Slot>, key: nat, size: nat)
    requires DistinctKeys(live) && Find(live, key) == |live|
    ensures Record(live, key, size) == live + [Slot(key, size)] && DistinctKeys(live + [Slot(key, size)])
    ensures forall l :: l in live ==> l.key != key
  {
  }

  lemma AllocRecords(st: State, key: nat, size: nat, cfg: Config, i: nat)
    requires |st.table| > 0 && key != 0 && st.used + size <= cfg.quota
    requires Locate(cfg.hash, st.table, key, 0) == Vacant(i)
    requires Record(st.live, key, size) == st.live + [Slot(key, size)]
    ensures Insert(cfg.hash, st.table, key, size) == st.table[i := Slot(key, size)]
    ensures Apply(st, Alloc(key, size), cfg) ==
            State(st.table[i := Slot(key, size)], st.used + size, st.live + [Slot(key, size)])
  {
  }

  lemma RecordedIsExact(h: Hash, st: State, i: nat, slot: Slot)
    requires ExactInv(h, st) && slot.key != 0 && Locate(h, st.table, slot.key, 0) == Vacant(i)
    requires Find(st.live, slot.key) == |st.live|
    ensures Agrees(st.table[i := slot], st.live + [slot]) && DistinctKeys(st.live + [slot])
    ensures st.used + slot.size == Sum(st.live + [slot], SizeOf)
  {
    RecordFresh(st.live, slot.key, slot.size);
    FillingAgrees(st.table, st.live, i, slot);
    SumAppend(st.live, slot, SizeOf);
  }

  lemma TidyAllocKeeps(st: State, s: Step, cfg: Config)
    requires ExactInv(cfg.hash, st) && s.Alloc? && Tidy(cfg.hash, st, s)
    ensures ExactInv(cfg.hash, Apply(st, s, cfg))
  {
    var p := Locate(cfg.hash, st.table, s.key, 0);
    NotLiveIsVacant(cfg.hash, st, s.key);
    if s.key != 0 && st.used + s.size <= cfg.quota && !p.Full? {
      RecordFresh(st.live, s.key, s.size);
      AllocRecords(st, s.key, s.size, cfg, p.i);
      RecordedIsExact(cfg.hash, st, p.i, Slot(s.key, s.size));
      InsertKeepsIntact(cfg.hash, st.table, s.key, s.size);
    }
  }

  lemma LiveIsFound(h: Hash, st: State, key: nat)
    requires ExactInv(h, st) && key != 0
    ensures var f := Find(st.live, key);
            var p := Locate(h, st.table, key, 0);
            if f < |st.live| then p.Found? && st.table[p.i] == st.live[f] else !p.Found?
  {
    var f := Find(st.live, key);
    if f < |st.live| {
      assert st.live[f] in st.live;
      var i :| 0 <= i < |st.table| && st.table[i] == st.live[f];
      assert Locate(h, st.table, key, 0) == Found(i);
    } else {
      NotLiveIsVacant(h, st, key);
    }
  }

  lemma ErasedIsGone(h: Hash, t: seq<Slot>, key: nat, x: Slot)
    requires Intact(h, t) && key != 0 && x in Erase(h, t, key) && x.key != 0
    ensures x in t && x.key != key
  {
    var t' := Erase(h, t, key);
    var m :| 0 <= m < |t'| && t'[m] == x;
    assert t[m] == x && Locate(h, t, x.key, 0) == Found(m);
  }

  lemma KeptIsForgotten(live: seq<Slot>, key: nat, x: Slot)
    requires x in live && x.key != key
    ensures x in Forget(live, key)
  {
    var f := Find(live, key);
    var j :| 0 <= j < |live| && live[j] == x;
    if f < |live| {
      assert Without(live, f)[if j < f then j else j - 1] == x;
    }
  }

  lemma TidyFreeKeeps(st: State, s: Step, cfg: Config)
    requires ExactInv(cfg.hash, st) && s.Free? && Tidy(cfg.hash, st, s)
    ensures ExactInv(cfg.hash, Apply(st, s, cfg))
  {
    var st' := Apply(st, s, cfg);
    if s.key != 0 {
      EraseKeepsIntactIff(cfg.hash, st.table, s.key);
      ForgetKeepsDistinct(st.live, s.key);
      LiveIsFound(cfg.hash, st, s.key);
      var f := Find(st.live, s.key);
      if f < |st.live| {
        SumWithout(st.live, f, SizeOf);
        SumNonNegative(Without(st.live, f), SizeOf);
      }
      forall x | x in st'.table && x.key != 0
        ensures x in st'.live
      {
        ErasedIsGone(cfg.hash, st.table, s.key, x);
        KeptIsForgotten(st.live, s.key, x);
      }
      forall l | l in st'.live
        ensures l.key != 0 && l in st'.table
      {
        var p := Locate(cfg.hash, st.table, s.key, 0);
        if p.Found? {
          OtherKeyStays(st.table, p.i, EMPTY, s.key, l);
        }
      }
    }
  }

  lemma {:induction false} TidyRunKeeps(st: State, steps: seq<Step>, cfg: Config)
    requires ExactInv(cfg.hash, st) && TidyRun(st, steps, cfg)
    ensures ExactInv(cfg.hash, Run(st, steps, cfg))
    decreases |steps|
  {
    if |steps| > 0 {
      if steps[0].Alloc? {
        TidyAllocKeeps(st, steps[0], cfg);
      } else {
        TidyFreeKeeps(st, steps[0], cfg);
      }
      TidyRunKeeps(Apply(st, steps[0], cfg), steps[1..], cfg);
    }
  }

  /** In every tidy run the counter is exactly the bytes of the recorded live allocations. */
  lemma TidyUsageIsExact(n: nat, steps: seq<Step>, cfg: Config)
    requires n > 0 && TidyRun(Init(n), steps, cfg)
    ensures var st := Run(Init(n), steps, cfg); st.used == Sum(st.live, SizeOf)
  {
    TidyRunKeeps(Init(n), steps, cfg);
  }

  predicate Exact(st: State) { st.used == Sum(st.live, SizeOf) }

  /** A slot that holds no live allocation is counted on top of the live ones. */
  lemma NotLiveIsExtra(st: State, cfg: Config, i: nat)
    requires Inv(st, cfg) && i < |st.table| && st.table[i] !in st.live
    ensures Sum(st.live, SizeOf) + st.table[i].size <= st.used
  {
    var rest := st.table[i := EMPTY];
    forall l | l in st.live
      ensures l.key != 0 && l in rest
    {
      var j :| 0 <= j < |st.table| && st.table[j] == l;
      assert rest[j] == l;
    }
    LiveWithinTable(st.live, rest);
    SumUpdate(st.table, i, EMPTY, SizeOf);
  }

  /** While the counter is exact, only slots of live allocations have a size to give back. */
  lemma ErasedWhenExact(st: State, key: nat, cfg: Config)
    requires Inv(st, cfg) && Exact(st) && key != 0
    ensures var f, p := Find(st.live, key), Locate(cfg.hash, st.table, key, 0);
            var size := ErasedSize(cfg.hash, st.table, key);
            && size <= st.used
            && size == if p.Found? && f < |st.live| && st.table[p.i] == st.live[f] then st.live[f].size else 0
  {
    var p := Locate(cfg.hash, st.table, key, 0);
    if p.Found? {
      TermAtMostSum(st.table, p.i, SizeOf);
      if st.table[p.i] !in st.live {
        NotLiveIsExtra(st, cfg, p.i);
      }
    }
  }

  /** From every state that a run can reach with an exact counter: a free keeps it exact if
      and only if the key is not live, or of size zero, or found in the table as recorded. */
  lemma FreeKeepsExactIff(st: State, key: nat, cfg: Config)
    requires Inv(st, cfg) && Exact(st) && key != 0
    ensures var f, p := Find(st.live, key), Locate(cfg.hash, st.table, key, 0);
            Exact(Apply(st, Free(key), cfg)) <==>
            f == |st.live| || st.live[f].size == 0 || (p.Found? && st.table[p.i] == st.live[f])
  {
    ErasedWhenExact(st, key, cfg);
    var f := Find(st.live, key);
    if f < |st.live| {
      SumWithout(st.live, f, SizeOf);
    }
  }

  predicate Accepted(st: State, key: nat, size: nat, cfg: Config)
    requires |st.table| > 0
  {
    key != 0 && st.used + size <= cfg.quota && !Locate(cfg.hash, st.table, key, 0).Full?
  }

  lemma RecordSum(live: seq<Slot>, key: nat, size: nat)
    ensures var f := Find(live, key);
            Sum(Record(live, key, size), SizeOf) ==
            Sum(live, SizeOf) + size - (if f < |live| then live[f].size else 0)
  {
    var f := Find(live, key);
    if f < |live| {
      SumUpdate(live, f, Slot(key, size), SizeOf);
    } else {
      SumAppend(live, Slot(key, size), SizeOf);
    }
  }

  /** From every state that a run can reach with an exact counter: an accepted allocation
      keeps it exact if and only if its key is not live, or had no size, or is found as
      recorded and does not shrink. */
  lemma AllocKeepsExactIff(st: State, key: nat, size: nat, cfg: Config)
    requires Inv(st, cfg) && Exact(st) && Accepted(st, key, size, cfg)
    ensures var f, p := Find(st.live, key), Locate(cfg.hash, st.table, key, 0);
            Exact(Apply(st, Alloc(key, size), cfg)) <==>
            || f == |st.live| || st.live[f].size == 0
            || (p.Found? && st.table[p.i] == st.live[f] && size >= st.live[f].size)
  {
    ErasedWhenExact(st, key, cfg);
    RecordSum(st.live, key, size);
  }

  /** A key handed out again with a smaller size: the counter keeps the larger one. */
  lemma ShrunkStillCounted(cfg: Config, n: nat, k: nat, a: nat, b: nat)
    requires n > 0 && k != 0 && b < a && a + b <= cfg.quota
    ensures var st := Run(Init(n), [Alloc(k, a)] + ([Alloc(k, b)] + []), cfg);
            st.used == a && st.live == [Slot(k, b)] && Sum(st.live, SizeOf) == b
  {
    var i := Home(cfg.hash, k, n);
    var one := State(None(n)[i := Slot(k, a)], a, [Slot(k, a)]);
    assert [] + [Slot(k, a)] == [Slot(k, a)];
    assert Apply(Init(n), Alloc(k, a), cfg) == one;
    assert Find(one.live, k) == 0;
    assert one.live[0 := Slot(k, b)] == [Slot(k, b)];
    Unroll(Init(n), Alloc(k, a), [Alloc(k, b)] + [], cfg);
    Unroll(one, Alloc(k, b), [], cfg);
    SumOne(Slot(k, b), SizeOf);
  }

  // ---------------------------------------------------------------------------
  // A free that is not clear
  // ---------------------------------------------------------------------------

  predicate Spares(steps: seq<Step>, key: nat) { forall i :: 0 <= i < |steps| ==> steps[i].key != key }

  /** The slot of a key that is not live stays, and stays counted, in every run that neither
      hands the key out again nor frees it. */
  lemma {:induction false} CountedUntilTouched(st: State, steps: seq<Step>, cfg: Config, l: Slot)
    requires Inv(st, cfg) && l in st.table && l.key != 0 && Find(st.live, l.key) == |st.live| && Spares(steps, l.key)
    ensures var st' := Run(st, steps, cfg); l in st'.table && Sum(st'.live, SizeOf) + l.size <= st'.used
    decreases |steps|
  {
    if |steps| == 0 {
      var i :| 0 <= i < |st.table| && st.table[i] == l;
      NotLiveIsExtra(st, cfg, i);
    } else {
      StepSpares(st, steps[0], cfg, l);
      assert Spares(steps[1..], l.key);
      CountedUntilTouched(Apply(st, steps[0], cfg), steps[1..], cfg, l);
    }
  }

  lemma StepSpares(st: State, s: Step, cfg: Config, l: Slot)
    requires Inv(st, cfg) && l in st.table && l.key != 0 && Find(st.live, l.key) == |st.live| && s.key != l.key
    ensures var st' := Apply(st, s, cfg);
            Inv(st', cfg) && l in st'.table && Find(st'.live, l.key) == |st'.live|
  {
    var p := Locate(cfg.hash, st.table, s.key, 0);
    if !p.Full? {
      OtherKeyStays(st.table, p.i, if s.Alloc? then Slot(s.key, s.size) else EMPTY, s.key, l);
    }
    if s.Alloc? {
      AllocKeepsInv(st, s, cfg);
      RecordKeepsDistinct(st.live, s.key, s.size);
    } else {
      FreeKeepsInv(st, s, cfg);
      ForgetKeepsDistinct(st.live, s.key);
    }
  }

  function None(n: nat): seq<Slot> { seq(n, _ => EMPTY) }

  /** Two different keys that start probing at the same slot. */
  predicate Collide(cfg: Config, n: nat, k: nat, l: nat) {
    n > 1 && k != 0 && l != 0 && k != l && Home(cfg.hash, k, n) == Home(cfg.hash, l, n)
  }

  /** The slot where both start, and the one after it. */
  function Start(cfg: Config, n: nat, k: nat): nat
    requires n > 1
  {
    Home(cfg.hash, k, n)
  }

  function Second(cfg: Config, n: nat, k: nat): (r: nat)
    requires n > 1
    ensures r < n && r != Start(cfg, n, k)
  {
    Probe(cfg.hash, k, 1, n)
  }

  lemma FirstIn(cfg: Config, n: nat, k: nat, l: nat, a: nat)
    requires Collide(cfg, n, k, l) && a <= cfg.quota
    ensures Apply(Init(n), Alloc(k, a), cfg) == State(None(n)[Start(cfg, n, k) := Slot(k, a)], a, [Slot(k, a)])
  {
    assert [] + [Slot(k, a)] == [Slot(k, a)];
  }

  lemma SecondIn(cfg: Config, n: nat, k: nat, l: nat, a: nat, b: nat)
    requires Collide(cfg, n, k, l) && a + b <= cfg.quota
    ensures var i, j := Start(cfg, n, k), Second(cfg, n, k);
            Apply(State(None(n)[i := Slot(k, a)], a, [Slot(k, a)]), Alloc(l, b), cfg) ==
            State(None(n)[i := Slot(k, a)][j := Slot(l, b)], a + b, [Slot(k, a), Slot(l, b)])
  {
    var t := None(n)[Start(cfg, n, k) := Slot(k, a)];
    assert Locate(cfg.hash, t, l, 1) == Vacant(Second(cfg, n, k));
    assert Find([Slot(k, a)], l) == 1;
    assert [Slot(k, a)] + [Slot(l, b)] == [Slot(k, a), Slot(l, b)];
  }

  lemma FirstOut(cfg: Config, n: nat, k: nat, l: nat, a: nat, b: nat)
    requires Collide(cfg, n, k, l)
    ensures var i, j := Start(cfg, n, k), Second(cfg, n, k);
            Apply(State(None(n)[i := Slot(k, a)][j := Slot(l, b)], a + b, [Slot(k, a), Slot(l, b)]), Free(k), cfg) ==
            State(None(n)[j := Slot(l, b)], b, [Slot(l, b)])
  {
    var i, j := Start(cfg, n, k), Second(cfg, n, k);
    assert None(n)[i := Slot(k, a)][j := Slot(l, b)][i := EMPTY] == None(n)[j := Slot(l, b)];
    assert Without([Slot(k, a), Slot(l, b)], 0) == [Slot(l, b)];
  }

  lemma SecondOut(cfg: Config, n: nat, k: nat, l: nat, b: nat)
    requires Collide(cfg, n, k, l)
    ensures var j := Second(cfg, n, k);
            Apply(State(None(n)[j := Slot(l, b)], b, [Slot(l, b)]), Free(l), cfg) ==
            State(None(n)[j := Slot(l, b)], b, [])
  {
    assert Without([Slot(l, b)], 0) == [];
  }

  lemma Unroll(st: State, s: Step, rest: seq<Step>, cfg: Config)
    requires |st.table| > 0
    ensures |Apply(st, s, cfg).table| > 0
    ensures Run(st, [s] + rest, cfg) == Run(Apply(st, s, cfg), rest, cfg)
  {
    ApplyKeepsLength(st, s, cfg);
    assert ([s] + rest)[0] == s && ([s] + rest)[1..] == rest;
  }

  function InOrder(k: nat, l: nat, a: nat, b: nat): seq<Step> {
    [Alloc(k, a)] + ([Alloc(l, b)] + ([Free(k)] + ([Free(l)] + [])))
  }

  /** Two colliding keys freed in the order they came: nothing is live, yet the size of the
      second stays in use, and its slot taken. */
  lemma FreedButStillCounted(cfg: Config, n: nat, k: nat, l: nat, a: nat, b: nat)
    requires Collide(cfg, n, k, l) && a + b <= cfg.quota
    ensures Run(Init(n), InOrder(k, l, a, b), cfg) == State(None(n)[Second(cfg, n, k) := Slot(l, b)], b, [])
  {
    FirstIn(cfg, n, k, l, a);
    SecondIn(cfg, n, k, l, a, b);
    FirstOut(cfg, n, k, l, a, b);
    SecondOut(cfg, n, k, l, b);
    var i, j := Start(cfg, n, k), Second(cfg, n, k);
    var one := None(n)[i := Slot(k, a)];
    Unroll(Init(n), Alloc(k, a), [Alloc(l, b)] + ([Free(k)] + ([Free(l)] + [])), cfg);
    Unroll(State(one, a, [Slot(k, a)]), Alloc(l, b), [Free(k)] + ([Free(l)] + []), cfg);
    Unroll(State(one[j := Slot(l, b)], a + b, [Slot(k, a), Slot(l, b)]), Free(k), [Free(l)] + [], cfg);
    Unroll(State(None(n)[j := Slot(l, b)], b, [Slot(l, b)]), Free(l), [], cfg);
  }

  /** And so it stays in every continuation that neither hands out that key again nor frees
      it a second time. */
  lemma CountedInEveryContinuation(cfg: Config, n: nat, k: nat, l: nat, a: nat, b: nat, steps: seq<Step>)
    requires Collide(cfg, n, k, l) && a + b <= cfg.quota && Spares(steps, l)
    ensures var st := Run(Init(n), InOrder(k, l, a, b), cfg);
            && |st.table| > 0
            && var st' := Run(st, steps, cfg); Sum(st'.live, SizeOf) + b <= st'.used
  {
    FreedButStillCounted(cfg, n, k, l, a, b);
    var j := Second(cfg, n, k);
    var st := State(None(n)[j := Slot(l, b)], b, []);
    SumZero(Init(n).table, SizeOf);
    RunKeepsInv(Init(n), InOrder(k, l, a, b), cfg);
    assert st.table[j] == Slot(l, b);
    CountedUntilTouched(st, steps, cfg, Slot(l, b));
  }

  /** Under the shipped hash all multiples of sixteen times the table size collide. */
  lemma ShippedHashCollides(n: nat, quota: nat)
    requires n > 1
    ensures Collide(Config(ShippedHash(n), quota), n, 16 * n, 32 * n)
  {
    var h := ShippedHash(n);
    assert 16 * n / 16 == n && 32 * n / 16 == 2 * n;
    assert n * 2654435761 == 2654435761 * n && 2 * n * 2654435761 == 5308871522 * n;
    DivUnique(2654435761 * n, n, 2654435761, 0);
    DivUnique(5308871522 * n, n, 5308871522, 0);
  }

  // ---------------------------------------------------------------------------
  // The registry and the counter, in place
  // ---------------------------------------------------------------------------

  class Tracker {
    const hash: Hash
    const slots: array<Slot>
    var used: nat

    constructor (hash: Hash, n: nat)
      ensures this.hash == hash && fresh(slots) && slots.Length == n && slots[..] == Init(n).table && used == 0
    {
      this.hash := hash;
      slots := new Slot[n](_ => EMPTY);
      used := 0;
    }

    /** `mem_track_insert`; `counted` is false when the table is full. */
    method TrackInsert(key: nat, size: nat) returns (counted: bool, delta: nat)
      requires slots.Length > 0 && key != 0
      modifies slots
      ensures slots[..] == Insert(hash, old(slots[..]), key, size)
      ensures counted <==> !Locate(hash, old(slots[..]), key, 0).Full?
      ensures delta == Delta(hash, old(slots[..]), key, size)
    {
      ghost var t := slots[..];
      for probe := 0 to slots.Length
        invariant slots[..] == t
        invariant Locate(hash, t, key, 0) == Locate(hash, t, key, probe)
      {
        var i := Probe(hash, key, probe, slots.Length);
        assert t[i] == slots[i];
        if slots[i].key == 0 {
          slots[i] := Slot(key, size);
          return true, size;
        }
        if slots[i].key == key {
          delta := if size > slots[i].size then size - slots[i].size else 0;
          slots[i] := Slot(key, size);
          return true, delta;
        }
      }
      return false, 0;
    }

    /** `mem_track_erase`. */
    method TrackErase(key: nat) returns (size: nat)
      requires slots.Length > 0 && key != 0
      modifies slots
      ensures slots[..] == Erase(hash, old(slots[..]), key)
      ensures size == ErasedSize(hash, old(slots[..]), key)
    {
      ghost var t := slots[..];
      for probe := 0 to slots.Length
        invariant slots[..] == t
        invariant Locate(hash, t, key, 0) == Locate(hash, t, key, probe)
      {
        var i := Probe(hash, key, probe, slots.Length);
        assert t[i] == slots[i];
        if slots[i].key == 0 {
          return 0;
        }
        if slots[i].key == key {
          size := slots[i].size;
          slots[i] := EMPTY;
          return;
        }
      }
      return 0;
    }

    ghost function View(live: seq<Slot>): State
      reads this, slots
    {
      State(slots[..], used, live)
    }

    /** The hooked allocation: the guard, the runtime's answer `key` (zero if it failed),
        and the recording; `live` is what the runtime knows to be live. */
    method OnAlloc(key: nat, size: nat, quota: nat, ghost live: seq<Slot>)
      returns (admitted: bool, ghost live': seq<Slot>)
      requires slots.Length > 0
      modifies this, slots
      ensures admitted <==> old(used) + size <= quota
      ensures View(live') == Apply(old(View(live)), Alloc(key, size), Config(hash, quota))
    {
      admitted := used + size <= quota;
      live' := live;
      if admitted && key != 0 {
        var counted, delta := TrackInsert(key, size);
        if counted {
          used := used + delta;
          live' := Record(live, key, size);
        }
      }
    }

    /** The hooked free. */
    method OnFree(key: nat, quota: nat, ghost live: seq<Slot>) returns (ghost live': seq<Slot>)
      requires slots.Length > 0
      modifies this, slots
      ensures View(live') == Apply(old(View(live)), Free(key), Config(hash, quota))
    {
      live' := live;
      if key != 0 {
        var size := TrackErase(key);
        used := if size > used then 0 else used - size;
        live' := Forget(live, key);
      }
    }
  }
}
