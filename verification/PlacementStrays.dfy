/**
 Runs of `Placement` in which registrations fail to persist.  Such an allocation is rolled
 back except for its registry entry (`enpu-manager/core/src/allocation_registry.c`): a
 stray, which names a die and an id that the allocator takes for free.
 */
module PlacementStrays {
  import opened DieChoice
  import opened DieNode
  import opened Placement
  import opened Rollback
  import opened Search
  import opened Sums

  /** The registry without the entries of the keys in `strays`. */
  function Clean(r: seq<Alloc>, strays: set<Key>): seq<Alloc> {
    if |r| == 0 then [] else
      var n := |r| - 1;
      Clean(r[..n], strays) + (if r[n].key in strays then [] else [r[n]])
  }

  function CleanHost(h: Host, strays: set<Key>): Host { h.(registry := Clean(h.registry, strays)) }

  /** The keys of the strays after a step. */
  function After(strays: set<Key>, s: Step): set<Key> {
    match s
    case Allocate(_, key, _, end) => if end.PersistFails? then strays + {key} else strays
    case Release(key) => strays - {key}
  }

  function Entry(h: Host, key: Key): Alloc
    requires Registered(h, key)
  {
    FindRegistered(h.registry, key);
    h.registry[FindAlloc(h.registry, key)]
  }

  /** The step does not release a stray whose id another vNPU has been given. */
  predicate Careful(cfg: Config, h: Host, strays: set<Key>, s: Step)
    requires Enabled(cfg, h, s)
  {
    s.Release? && s.key in strays ==> Entry(h, s.key).id in h.dies[Entry(h, s.key).die].free
  }

  predicate CarefulRun(cfg: Config, h: Host, strays: set<Key>, steps: seq<Step>)
    requires Executes(cfg, h, steps)
    decreases |steps|
  {
    |steps| == 0 ||
    (Careful(cfg, h, strays, steps[0]) && CarefulRun(cfg, Apply(cfg, h, steps[0]), After(strays, steps[0]), steps[1..]))
  }

  function StraysAfter(strays: set<Key>, steps: seq<Step>): set<Key>
    decreases |steps|
  {
    if |steps| == 0 then strays else StraysAfter(After(strays, steps[0]), steps[1..])
  }

  predicate DistinctKeys(r: seq<Alloc>) { forall i, j :: 0 <= i < j < |r| ==> r[i].key != r[j].key }

  /** Every key is registered once, those of the strays among them. */
  predicate Tracked(r: seq<Alloc>, dies: nat, strays: set<Key>) {
    && DistinctKeys(r)
    && (forall a :: a in r ==> a.die < dies && a.id < MASK_BITS)
    && (forall k :: k in strays ==> HasKey(r, k))
  }

  /** The law, of the registry without its strays. */
  predicate StrayInv(cfg: Config, h: Host, strays: set<Key>) {
    Inv(cfg, CleanHost(h, strays)) && Tracked(h.registry, |h.dies|, strays)
  }

  // ---------------------------------------------------------------------------
  // Cleaning
  // ---------------------------------------------------------------------------

  lemma {:induction false} CleanMembers(r: seq<Alloc>, strays: set<Key>)
    ensures forall a :: a in Clean(r, strays) <==> a in r && a.key !in strays
  {
    if |r| > 0 {
      var n := |r| - 1;
      CleanMembers(r[..n], strays);
      assert r == r[..n] + [r[n]];
    }
  }

  lemma {:induction false} CleanOfNothing(r: seq<Alloc>)
    ensures Clean(r, {}) == r
  {
    if |r| > 0 {
      CleanOfNothing(r[..|r| - 1]);
    }
  }

  /** Entries whose keys no set names are cleaned alike. */
  lemma {:induction false} CleanAlike(r: seq<Alloc>, strays: set<Key>, key: Key)
    requires !HasKey(r, key)
    ensures Clean(r, strays + {key}) == Clean(r, strays) == Clean(r, strays - {key})
  {
    if |r| > 0 {
      var n := |r| - 1;
      assert r[n] in r;
      assert !HasKey(r[..n], key);
      CleanAlike(r[..n], strays, key);
    }
  }

  lemma CleanAppend(r: seq<Alloc>, a: Alloc, strays: set<Key>)
    ensures Clean(r + [a], strays) == Clean(r, strays) + (if a.key in strays then [] else [a])
  {
    assert (r + [a])[..|r|] == r;
  }

  lemma OthersLackKey(r: seq<Alloc>, i: nat)
    requires i < |r| && DistinctKeys(r)
    ensures !HasKey(Without(r, i), r[i].key)
  {
    var w := Without(r, i);
    forall a | a in w
      ensures a.key != r[i].key
    {
      var m :| 0 <= m < |w| && w[m] == a;
      assert w[m] == r[if m < i then m else m + 1];
    }
  }

  /** Taking a stray out leaves the clean registry as it is, wherever the stray stands. */
  lemma {:induction false} CleanWithoutStray(r: seq<Alloc>, i: nat, strays: set<Key>)
    requires i < |r| && DistinctKeys(r) && r[i].key in strays
    ensures Clean(Without(r, i), strays - {r[i].key}) == Clean(r, strays)
  {
    var n := |r| - 1;
    if i == n {
      assert Without(r, i) == r[..n];
      OthersLackKey(r, i);
      CleanAlike(r[..n], strays, r[i].key);
    } else {
      CleanWithoutStray(r[..n], i, strays);
      assert Without(r, i) == Without(r[..n], i) + [r[n]];
      CleanAppend(Without(r[..n], i), r[n], strays - {r[i].key});
    }
  }

  /** Taking another entry out takes it out of the clean registry. */
  lemma {:induction false} CleanWithoutOther(r: seq<Alloc>, i: nat, strays: set<Key>)
    requires i < |r| && DistinctKeys(r) && r[i].key !in strays
    ensures Clean(Without(r, i), strays) == Unregister(Clean(r, strays), r[i].key)
  {
    var n := |r| - 1;
    assert r == r[..n] + [r[n]];
    if i == n {
      WithoutLast(r[..n], r[n]);
      CleanMembers(r[..n], strays);
      assert forall a :: a in r[..n] ==> a.key != r[n].key;
      UnregisterLast(Clean(r[..n], strays), r[n]);
    } else {
      CleanWithoutOther(r[..n], i, strays);
      CleanGrows(r[..n], i, r[n], strays);
    }
  }

  lemma CleanGrows(r: seq<Alloc>, i: nat, a: Alloc, strays: set<Key>)
    requires i < |r| && r[i].key !in strays
    requires Clean(Without(r, i), strays) == Unregister(Clean(r, strays), r[i].key)
    ensures Clean(Without(r + [a], i), strays) == Unregister(Clean(r + [a], strays), r[i].key)
  {
    WithoutAppend(r, a, i);
    CleanAppend(Without(r, i), a, strays);
    CleanAppend(r, a, strays);
    CleanHasKey(r, i, strays);
    UnregisterAppend(Clean(r, strays), a, r[i].key);
    assert Clean(r, strays) + [] == Clean(r, strays);
    assert Clean(Without(r, i), strays) + [] == Clean(Without(r, i), strays);
  }

  lemma CleanHasKey(r: seq<Alloc>, i: nat, strays: set<Key>)
    requires i < |r| && r[i].key !in strays
    ensures HasKey(Clean(r, strays), r[i].key)
  {
    CleanMembers(r, strays);
    assert r[i] in Clean(r, strays);
  }

  lemma UnregisterLast(r: seq<Alloc>, a: Alloc)
    requires forall b :: b in r ==> b.key != a.key
    ensures Unregister(r + [a], a.key) == r
  {
    FirstAppend(r, a, HasName(a.key));
    WithoutLast(r, a);
  }

  lemma UnregisterAppend(r: seq<Alloc>, a: Alloc, key: Key)
    requires HasKey(r, key)
    ensures Unregister(r + [a], key) == Unregister(r, key) + [a]
  {
    FindRegistered(r, key);
    FirstAppend(r, a, HasName(key));
    WithoutAppend(r, a, FindAlloc(r, key));
  }

  lemma FoundAt(r: seq<Alloc>, i: nat)
    requires i < |r| && DistinctKeys(r)
    ensures FindAlloc(r, r[i].key) == i
  {
  }

  // ---------------------------------------------------------------------------
  // Allocations
  // ---------------------------------------------------------------------------

  lemma UnregisteredIsClean(h: Host, strays: set<Key>, key: Key)
    requires !Registered(h, key) && Tracked(h.registry, |h.dies|, strays)
    ensures !Registered(CleanHost(h, strays), key) && key !in strays && !HasKey(h.registry, key)
  {
    CleanMembers(h.registry, strays);
    assert Registered(h, key) == HasKey(h.registry, key);
  }

  lemma AppendedTracked(r: seq<Alloc>, dies: nat, strays: set<Key>, a: Alloc)
    requires Tracked(r, dies, strays) && !HasKey(r, a.key) && a.die < dies && a.id < MASK_BITS
    ensures Tracked(r + [a], dies, strays) && Tracked(r + [a], dies, strays + {a.key})
  {
    assert a in r + [a];
    forall k | k in strays
      ensures HasKey(r + [a], k)
    {
      var b :| b in r && b.key == k;
      assert b in r + [a];
    }
    assert forall j :: 0 <= j < |r| ==> r[j] in r;
  }

  lemma DoneKeeps(cfg: Config, h: Host, strays: set<Key>, q: Request, key: Key, d: nat)
    requires StrayInv(cfg, h, strays) && !Registered(h, key)
    requires Accepts(cfg, h, q, d) && q.aicore >= 0 && q.hbm <= q.limit
    ensures FreshPlace(h, AllocOf(h, q, key, d)) && StrayInv(cfg, Placed(h, AllocOf(h, q, key, d)), strays)
  {
    var a, c := AllocOf(h, q, key, d), CleanHost(h, strays);
    UnregisteredIsClean(h, strays, key);
    PlacedKeepsInv(cfg, c, q, key, d);
    assert AllocOf(c, q, key, d) == a;
    CleanAppend(h.registry, a, strays);
    assert CleanHost(Placed(h, a), strays) == Placed(c, a);
    AppendedTracked(h.registry, |h.dies|, strays, a);
  }

  lemma RaiseKeeps(cfg: Config, h: Host, strays: set<Key>, x: set<nat>)
    requires StrayInv(cfg, h, strays)
    ensures StrayInv(cfg, Raise(h, x), strays)
  {
    InvIgnoresParents(cfg, CleanHost(h, strays), x);
    assert CleanHost(Raise(h, x), strays) == Raise(CleanHost(h, strays), x);
  }

  lemma StrayAppears(cfg: Config, h: Host, strays: set<Key>, a: Alloc)
    requires StrayInv(cfg, h, strays) && !Registered(h, a.key) && a.die < |h.dies| && a.id < MASK_BITS
    ensures StrayInv(cfg, h.(registry := h.registry + [a]), strays + {a.key})
  {
    UnregisteredIsClean(h, strays, a.key);
    CleanAppend(h.registry, a, strays + {a.key});
    CleanAlike(h.registry, strays, a.key);
    AppendedTracked(h.registry, |h.dies|, strays, a);
    var h' := h.(registry := h.registry + [a]);
    assert CleanHost(h', strays + {a.key}) == CleanHost(h, strays);
  }

  lemma AllocateKeeps(cfg: Config, h: Host, strays: set<Key>, s: Step)
    requires StrayInv(cfg, h, strays) && Enabled(cfg, h, s) && s.Allocate?
    ensures StrayInv(cfg, Apply(cfg, h, s), After(strays, s))
  {
    var q := Prepare(s.raw).q;
    var a := AllocOf(h, q, s.key, s.d);
    match s.end
    case Done =>
      DoneKeeps(cfg, h, strays, q, s.key, s.d);
      AllSteps(h, a);
    case FailsAfter(k) =>
      FailedAllocationUndone(h, a, k);
      RaiseKeeps(cfg, h, strays, {a.die});
    case PersistFails => PersistFailureKeeps(cfg, h, strays, a);
  }

  lemma PersistFailureKeeps(cfg: Config, h: Host, strays: set<Key>, a: Alloc)
    requires StrayInv(cfg, h, strays) && !Registered(h, a.key) && a.die < |h.dies| && a.id < MASK_BITS
    requires Possibles(h, StepsOf(a))
    ensures StrayInv(cfg, Allocated(h, a, PersistFails), strays + {a.key})
  {
    PersistFailureLeavesEntry(h, a);
    RaiseKeeps(cfg, h, strays, {a.die});
    StrayAppears(cfg, Raise(h, {a.die}), strays, a);
  }

  // ---------------------------------------------------------------------------
  // Releases
  // ---------------------------------------------------------------------------

  lemma WithoutTracked(r: seq<Alloc>, dies: nat, strays: set<Key>, i: nat)
    requires Tracked(r, dies, strays) && i < |r|
    ensures Tracked(Without(r, i), dies, strays - {r[i].key})
  {
    WithoutMembers(r, i);
    forall k | k in strays - {r[i].key}
      ensures HasKey(Without(r, i), k)
    {
      var b :| b in r && b.key == k;
      var j :| 0 <= j < |r| && r[j] == b;
      assert r[j] in Without(r, i);
    }
  }

  /** Releasing a vNPU does to the clean registry what it does to the whole. */
  lemma ReleaseOther(cfg: Config, h: Host, strays: set<Key>, i: nat)
    requires StrayInv(cfg, h, strays) && i < |h.registry| && h.registry[i].key !in strays
    requires Enabled(cfg, h, Release(h.registry[i].key))
    ensures StrayInv(cfg, Released(h, h.registry[i]), strays - {h.registry[i].key})
  {
    CleanReleaseKeeps(cfg, h, strays, i);
    CleanReleased(h, strays, i);
    assert strays - {h.registry[i].key} == strays;
    WithoutTracked(h.registry, |h.dies|, strays, i);
  }

  lemma CleanReleaseKeeps(cfg: Config, h: Host, strays: set<Key>, i: nat)
    requires Inv(cfg, CleanHost(h, strays)) && i < |h.registry| && h.registry[i].key !in strays
    requires Enabled(cfg, h, Release(h.registry[i].key))
    ensures Inv(cfg, Released(CleanHost(h, strays), h.registry[i]))
  {
    var a, c := h.registry[i], CleanHost(h, strays);
    CleanMembers(h.registry, strays);
    assert a in c.registry;
    KeyIsUnique(c.registry, a);
    ReleasedKeepsInv(cfg, c, a.key);
  }

  lemma CleanReleased(h: Host, strays: set<Key>, i: nat)
    requires i < |h.registry| && h.registry[i].key !in strays && DistinctKeys(h.registry)
    requires var a := h.registry[i]; a.die < |h.dies| == |h.slots| && a.id < |h.slots[a.die]|
    ensures var a := h.registry[i];
            && CleanHost(Released(h, a), strays) == Released(CleanHost(h, strays), a)
            && Released(h, a).registry == Without(h.registry, i) && |Released(h, a).dies| == |h.dies|
  {
    FoundAt(h.registry, i);
    CleanWithoutOther(h.registry, i, strays);
  }

  lemma KeyIsUnique(r: seq<Alloc>, a: Alloc)
    requires a in r && DistinctKeys(r)
    ensures FindAlloc(r, a.key) < |r| && r[FindAlloc(r, a.key)] == a
  {
    var i :| 0 <= i < |r| && r[i] == a;
    FoundAt(r, i);
  }

  /** A stray whose id is free disappears, and nothing else changes. */
  lemma ReleaseFreeStray(cfg: Config, h: Host, strays: set<Key>, i: nat)
    requires StrayInv(cfg, h, strays) && i < |h.registry| && h.registry[i].key in strays
    requires h.registry[i].id in h.dies[h.registry[i].die].free
    ensures |h.dies| == |h.slots| && h.registry[i].id < |h.slots[h.registry[i].die]|
    ensures Released(h, h.registry[i]) == h.(registry := Without(h.registry, i))
    ensures StrayInv(cfg, Released(h, h.registry[i]), strays - {h.registry[i].key})
  {
    var a, c := h.registry[i], CleanHost(h, strays);
    InvAt(cfg, c, a.die);
    CleanMembers(h.registry, strays);
    FreeStrayReleased(h, i);
    CleanWithoutStray(h.registry, i, strays);
    WithoutTracked(h.registry, |h.dies|, strays, i);
    assert CleanHost(h.(registry := Without(h.registry, i)), strays - {a.key}) == c;
  }

  lemma FreeStrayReleased(h: Host, i: nat)
    requires i < |h.registry| && DistinctKeys(h.registry) && |h.dies| == |h.slots|
    requires var a := h.registry[i];
             && a.die < |h.dies| && a.id < |h.slots[a.die]| && a.id in h.dies[a.die].free
             && h.slots[a.die][a.id] == Unset && a.key !in h.configs
    ensures Released(h, h.registry[i]) == h.(registry := Without(h.registry, i))
  {
    var a := h.registry[i];
    FoundAt(h.registry, i);
    assert h.slots[a.die][a.id := Unset] == h.slots[a.die];
    assert h.slots[a.die := h.slots[a.die]] == h.slots;
  }

  /** A stray whose id is taken takes that vNPU's place with it. */
  lemma ReleaseTakenStray(cfg: Config, h: Host, strays: set<Key>, i: nat)
    requires StrayInv(cfg, h, strays) && i < |h.registry| && h.registry[i].key in strays
    requires h.registry[i].id !in h.dies[h.registry[i].die].free
    ensures |h.dies| == |h.slots| && h.registry[i].id < |h.slots[h.registry[i].die]|
    ensures PlaceLost(Released(h, h.registry[i]), strays - {h.registry[i].key}, h.registry[i])
  {
    var a, c := h.registry[i], CleanHost(h, strays);
    FoundAt(h.registry, i);
    InvAt(cfg, c, a.die);
    CleanWithoutStray(h.registry, i, strays);
    assert a.id in FULL_MASK && a.id in IdsOn(c.registry, a.die);
    assert Released(h, a).registry == Without(h.registry, i);
  }

  /** The place of `a` is registered to a vNPU that is no stray, yet its id is free and its
      shared-memory entry gone. */
  predicate PlaceLost(h: Host, strays: set<Key>, a: Alloc) {
    && a.die < |h.dies| == |h.slots| && a.id < |h.slots[a.die]|
    && a.id in h.dies[a.die].free && a.id in IdsOn(Clean(h.registry, strays), a.die)
    && h.slots[a.die][a.id] == Unset
  }

  lemma PlaceLostBreaks(cfg: Config, h: Host, strays: set<Key>, a: Alloc)
    requires PlaceLost(h, strays, a)
    ensures !Inv(cfg, CleanHost(h, strays))
  {
    if Inv(cfg, CleanHost(h, strays)) {
      InvAt(cfg, CleanHost(h, strays), a.die);
    }
  }

  /** Whatever has been allocated and released since, and wherever the stray stands in the
      registry: its release keeps the law exactly when its id has not been given to
      another vNPU. */
  lemma StrayReleaseIff(cfg: Config, h: Host, strays: set<Key>, key: Key)
    requires StrayInv(cfg, h, strays) && key in strays
    ensures Enabled(cfg, h, Release(key))
    ensures StrayInv(cfg, Apply(cfg, h, Release(key)), strays - {key}) <==>
            Entry(h, key).id in h.dies[Entry(h, key).die].free
  {
    assert HasKey(h.registry, key);
    ReleaseIsEnabled(cfg, h, strays, key);
    var i := FindAlloc(h.registry, key);
    if Entry(h, key).id in h.dies[Entry(h, key).die].free {
      ReleaseFreeStray(cfg, h, strays, i);
    } else {
      ReleaseTakenStray(cfg, h, strays, i);
      PlaceLostBreaks(cfg, Released(h, h.registry[i]), strays - {key}, h.registry[i]);
    }
  }

  lemma ReleaseIsEnabled(cfg: Config, h: Host, strays: set<Key>, key: Key)
    requires StrayInv(cfg, h, strays) && Registered(h, key)
    ensures Enabled(cfg, h, Release(key)) && FindAlloc(h.registry, key) < |h.registry|
  {
    FindRegistered(h.registry, key);
    forall a | a in h.registry
      ensures a.id < |h.slots[a.die]|
    {
      InvAt(cfg, CleanHost(h, strays), a.die);
    }
  }

  // ---------------------------------------------------------------------------
  // Runs
  // ---------------------------------------------------------------------------

  lemma NoStrays(cfg: Config, h: Host)
    requires Inv(cfg, h)
    ensures StrayInv(cfg, h, {})
  {
    CleanOfNothing(h.registry);
    assert CleanHost(h, {}) == h;
  }

  lemma StepKeeps(cfg: Config, h: Host, strays: set<Key>, s: Step)
    requires StrayInv(cfg, h, strays) && Enabled(cfg, h, s) && Careful(cfg, h, strays, s)
    ensures StrayInv(cfg, Apply(cfg, h, s), After(strays, s))
  {
    if s.Allocate? {
      AllocateKeeps(cfg, h, strays, s);
    } else if s.key in strays {
      StrayReleaseIff(cfg, h, strays, s.key);
    } else {
      FindRegistered(h.registry, s.key);
      ReleaseOther(cfg, h, strays, FindAlloc(h.registry, s.key));
    }
  }

  lemma {:induction false} RunKeeps(cfg: Config, h: Host, strays: set<Key>, steps: seq<Step>)
    requires StrayInv(cfg, h, strays) && Executes(cfg, h, steps) && CarefulRun(cfg, h, strays, steps)
    ensures StrayInv(cfg, Run(cfg, h, steps), StraysAfter(strays, steps))
    decreases |steps|
  {
    if |steps| > 0 {
      StepKeeps(cfg, h, strays, steps[0]);
      RunKeeps(cfg, Apply(cfg, h, steps[0]), After(strays, steps[0]), steps[1..]);
    }
  }

  /** Every run from empty dies, persistence failures included, keeps every die sound for
      the registry without its strays, as long as no stray whose id is taken is released. */
  lemma StrayLaw(cfg: Config, parents: set<nat>, steps: seq<Step>, d: nat)
    requires ConfigOk(cfg) && Executes(cfg, Init(cfg, parents), steps)
    requires CarefulRun(cfg, Init(cfg, parents), {}, steps) && d < |cfg.phys|
    ensures var h := CleanHost(Run(cfg, Init(cfg, parents), steps), StraysAfter({}, steps));
            |h.dies| == |h.slots| == |cfg.phys| && DieSound(cfg, h, d)
  {
    InitInv(cfg, parents);
    NoStrays(cfg, Init(cfg, parents));
    RunKeeps(cfg, Init(cfg, parents), {}, steps);
    InvIsSound(cfg, CleanHost(Run(cfg, Init(cfg, parents), steps), StraysAfter({}, steps)), d);
  }

  // ---------------------------------------------------------------------------
  // A run that breaks the law
  // ---------------------------------------------------------------------------

  /** An allocation that fails to persist, another that gets the same id, and the release of
      the stray. */
  function TakeAway(raw: Request, stray: Key, key: Key, d: nat): seq<Step> {
    [Allocate(raw, stray, d, PersistFails), Allocate(raw, key, d, Done), Release(stray)]
  }

  lemma FailsFirst(cfg: Config, h: Host, raw: Request, stray: Key, d: nat)
    requires Inv(cfg, h) && Prepare(raw).Ready? && Accepts(cfg, h, Prepare(raw).q, d) && !Registered(h, stray)
    ensures var s, a := Allocate(raw, stray, d, PersistFails), AllocOf(h, Prepare(raw).q, stray, d);
            && Enabled(cfg, h, s) && Apply(cfg, h, s) == Raise(h, {d}).(registry := h.registry + [a])
  {
    AcceptedCanProceed(cfg, h, raw, stray, d);
    assert Enabled(cfg, h, Allocate(raw, stray, d, PersistFails));
    PersistFailureLeavesEntry(h, AllocOf(h, Prepare(raw).q, stray, d));
  }

  lemma FirstLeavesStray(cfg: Config, h: Host, raw: Request, stray: Key, d: nat)
    requires Inv(cfg, h) && Enabled(cfg, h, Allocate(raw, stray, d, PersistFails))
    ensures StrayInv(cfg, Apply(cfg, h, Allocate(raw, stray, d, PersistFails)), {stray})
  {
    NoStrays(cfg, h);
    AllocateKeeps(cfg, h, {}, Allocate(raw, stray, d, PersistFails));
    assert {} + {stray} == {stray};
  }

  lemma SucceedsNext(cfg: Config, h: Host, raw: Request, stray: Key, key: Key, d: nat)
    requires StrayInv(cfg, h, {stray}) && Prepare(raw).Ready? && Accepts(cfg, h, Prepare(raw).q, d)
    requires !Registered(h, key)
    ensures var s, a := Allocate(raw, key, d, Done), AllocOf(h, Prepare(raw).q, key, d);
            && a.id < |h.slots[d]| && Enabled(cfg, h, s) && Apply(cfg, h, s) == Placed(h, a)
            && StrayInv(cfg, Placed(h, a), {stray})
  {
    DoneKeeps(cfg, h, {stray}, Prepare(raw).q, key, d);
    AllSteps(h, AllocOf(h, Prepare(raw).q, key, d));
  }

  lemma EntryIsLast(h: Host, r: seq<Alloc>, a: Alloc, b: Alloc)
    requires h.registry == r + [a] + [b] && !HasKey(r, a.key)
    ensures Registered(h, a.key) && Entry(h, a.key) == a && FindAlloc(h.registry, a.key) < |h.registry|
  {
    assert h.registry[|r|] == a;
    FindRegistered(h.registry, a.key);
    assert forall j :: 0 <= j < |r| ==> h.registry[j] in r;
  }

  lemma ThenReleased(cfg: Config, h: Host, stray: Key)
    requires StrayInv(cfg, h, {stray}) && Registered(h, stray)
    requires Entry(h, stray).id !in h.dies[Entry(h, stray).die].free
    ensures Enabled(cfg, h, Release(stray))
    ensures PlaceLost(Apply(cfg, h, Release(stray)), {}, Entry(h, stray))
    ensures !Inv(cfg, Apply(cfg, h, Release(stray)))
  {
    ReleaseIsEnabled(cfg, h, {stray}, stray);
    var h' := Apply(cfg, h, Release(stray));
    ReleaseTakenStray(cfg, h, {stray}, FindAlloc(h.registry, stray));
    assert {stray} - {stray} == {};
    PlaceLostBreaks(cfg, h', {}, Entry(h, stray));
    CleanOfNothing(h'.registry);
    assert CleanHost(h', {}) == h';
  }

  lemma ThreeSteps(cfg: Config, h: Host, a: Step, b: Step, c: Step)
    requires Enabled(cfg, h, a) && Enabled(cfg, Apply(cfg, h, a), b)
    requires Enabled(cfg, Apply(cfg, Apply(cfg, h, a), b), c)
    ensures Executes(cfg, h, [a, b, c])
    ensures Run(cfg, h, [a, b, c]) == Apply(cfg, Apply(cfg, Apply(cfg, h, a), b), c)
  {
    var h1 := Apply(cfg, h, a);
    var h2 := Apply(cfg, h1, b);
    var h3 := Apply(cfg, h2, c);
    assert Executes(cfg, h3, []) && Run(cfg, h3, []) == h3;
    assert [c][1..] == [] && [b, c][1..] == [c] && [a, b, c][1..] == [b, c];
    assert Executes(cfg, h2, [c]) && Run(cfg, h2, [c]) == h3;
    assert Executes(cfg, h1, [b, c]) && Run(cfg, h1, [b, c]) == h3;
  }

  /** The second and the third step, once the first has left the stray `a`. */
  lemma AfterStray(cfg: Config, h: Host, r: seq<Alloc>, a: Alloc, raw: Request, key: Key)
    requires StrayInv(cfg, h, {a.key}) && h.registry == r + [a] && !HasKey(r, a.key)
    requires Prepare(raw).Ready? && Accepts(cfg, h, Prepare(raw).q, a.die) && !Registered(h, key)
    requires a.id == AllocOf(h, Prepare(raw).q, key, a.die).id
    ensures var s := Allocate(raw, key, a.die, Done);
            && Enabled(cfg, h, s) && Enabled(cfg, Apply(cfg, h, s), Release(a.key))
            && !Inv(cfg, Apply(cfg, Apply(cfg, h, s), Release(a.key)))
            && PlaceLost(Apply(cfg, Apply(cfg, h, s), Release(a.key)), {}, a)
  {
    SucceedsNext(cfg, h, raw, a.key, key, a.die);
    var b := AllocOf(h, Prepare(raw).q, key, a.die);
    EntryIsLast(Placed(h, b), r, a, b);
    ThenReleased(cfg, Placed(h, b), a.key);
  }

  /** From every state that keeps the law and every request that some die accepts, the
      three steps can be carried out and end with a registered vNPU whose id is free and
      whose shared-memory entry is gone. */
  lemma StrayTakesPlaceAway(cfg: Config, h: Host, raw: Request, stray: Key, key: Key, d: nat)
    requires Inv(cfg, h) && Prepare(raw).Ready? && Accepts(cfg, h, Prepare(raw).q, d)
    requires stray != key && !Registered(h, stray) && !Registered(h, key)
    ensures var steps := TakeAway(raw, stray, key, d);
            && Executes(cfg, h, steps) && !Inv(cfg, Run(cfg, h, steps))
            && PlaceLost(Run(cfg, h, steps), {}, AllocOf(h, Prepare(raw).q, stray, d))
  {
    var a := AllocOf(h, Prepare(raw).q, stray, d);
    FailsFirst(cfg, h, raw, stray, d);
    FirstLeavesStray(cfg, h, raw, stray, d);
    var h1 := Raise(h, {d}).(registry := h.registry + [a]);
    assert !Registered(h1, key);
    AfterStray(cfg, h1, h.registry, a, raw, key);
    ThreeSteps(cfg, h, Allocate(raw, stray, d, PersistFails), Allocate(raw, key, d, Done), Release(stray));
  }

  const SMALL := Config([0], [100], [1000], [1000], [0.0])
  const TENTH := Request(10, 100, 100, FIXED_SHARE, PRIORITY_NORMAL, -1)

  lemma EmptyDieAccepts()
    ensures ConfigOk(SMALL) && Prepare(TENTH) == Ready(TENTH) && Accepts(SMALL, Init(SMALL, {}), TENTH, 0)
  {
    var h := Init(SMALL, {});
    SumZero(NoSlots(), LimitOf);
    assert h.slots[0] == NoSlots();
    assert 0 in h.dies[0].free;
  }

  /** Such a run exists from empty dies. */
  lemma StrayBreaksTheLaw(stray: Key, key: Key)
    requires stray != key
    ensures var steps := TakeAway(TENTH, stray, key, 0);
            && ConfigOk(SMALL) && Executes(SMALL, Init(SMALL, {}), steps)
            && !Inv(SMALL, Run(SMALL, Init(SMALL, {}), steps))
  {
    EmptyDieAccepts();
    InitInv(SMALL, {});
    StrayTakesPlaceAway(SMALL, Init(SMALL, {}), TENTH, stray, key, 0);
  }
}
