/**
 Runs of vNPU allocation and release (`enpu-manager/core/src/npu_allocator.c`) over the
 tree, the shared-memory entries, the config files and the registry.

 An allocation evaluates, then applies six logged steps; a step that fails rolls back the
 steps before it.  The manager's lock makes each call one step of a run.
 */
module Placement {
  import opened DieChoice
  import opened DieNode
  import opened Rollback
  import opened Search
  import opened Sums

  const ELASTIC: int := 2
  const MAX_AICORE: int := 100

  /** What the hardware and the configuration fix about each die. */
  datatype Config = Config(phys: seq<int>, aicores: seq<nat>, hbms: seq<nat>, totalMbs: seq<nat>, ratios: seq<real>)

  predicate ConfigOk(cfg: Config) {
    && |cfg.aicores| == |cfg.hbms| == |cfg.totalMbs| == |cfg.ratios| == |cfg.phys| <= MAX_CANDIDATES
    && forall r :: r in cfg.ratios ==> r >= 0.0
  }

  function LimitOf(s: Slot): int { if s.Limit? then s.mb else 0 }

  function LeafOf(cfg: Config, h: Host, d: nat): Leaf
    requires ConfigOk(cfg) && d < |cfg.phys| == |h.dies| == |h.slots|
  {
    Leaf(cfg.phys[d], cfg.phys[d], h.dies[d], cfg.totalMbs[d], cfg.ratios[d], Sum(h.slots[d], LimitOf))
  }

  datatype Prepared = Refused | Ready(q: Request)

  /** The checks of an allocation request before evaluation: high priority reserves no AI
      core and takes the best-effort policy; fixed-share must request what it may use. */
  function Prepare(raw: Request): (r: Prepared)
    ensures r.Ready? ==> 0 <= r.q.aicore <= MAX_AICORE && r.q.hbm <= r.q.limit
    ensures r.Ready? && r.q.policy == FIXED_SHARE ==> 0 < r.q.hbm == r.q.limit
    ensures r.Ready? ==> (r.q.priority == PRIORITY_HIGH <==> r.q.aicore == 0)
    ensures r.Ready? ==>
              && r.q.hbm == raw.hbm && r.q.limit == raw.limit
              && r.q.priority == raw.priority && r.q.wanted == raw.wanted
              && (raw.priority == PRIORITY_NORMAL ==> r.q.aicore == raw.aicore && r.q.policy == raw.policy)
              && (raw.priority == PRIORITY_HIGH ==> r.q.policy == BEST_EFFORT)
    ensures r.Ready? <==>
            || (raw.priority == PRIORITY_HIGH && raw.hbm <= raw.limit)
            || (&& raw.priority == PRIORITY_NORMAL && 0 < raw.aicore <= 100
                && (|| (raw.policy == FIXED_SHARE && 0 < raw.hbm == raw.limit)
                    || (raw.policy in {ELASTIC, BEST_EFFORT} && raw.hbm <= raw.limit)))
  {
    if raw.priority != PRIORITY_NORMAL && raw.priority != PRIORITY_HIGH then Refused
    else if raw.priority == PRIORITY_NORMAL && raw.aicore <= 0 then Refused
    else
      var q := if raw.priority == PRIORITY_HIGH then raw.(aicore := 0, policy := BEST_EFFORT) else raw;
      if q.aicore > MAX_AICORE then Refused
      else if q.policy == FIXED_SHARE then (if q.hbm == 0 || q.hbm != q.limit then Refused else Ready(q))
      else if q.policy == ELASTIC || q.policy == BEST_EFFORT then (if q.hbm > q.limit then Refused else Ready(q))
      else Refused
  }

  /** Of the requests that pass, the evaluation turns down exactly those without memory. */
  lemma PreparedIsValidIff(raw: Request)
    requires Prepare(raw).Ready?
    ensures ValidRequest(Prepare(raw).q) <==> raw.hbm > 0
  {
  }

  // ---------------------------------------------------------------------------
  // Steps
  // ---------------------------------------------------------------------------

  /** How an allocation ends: all six steps done; a step after the first `k` fails; or
      registration adds its entry but cannot persist it. */
  datatype End = Done | FailsAfter(k: nat) | PersistFails

  datatype Step = Allocate(raw: Request, key: Key, d: nat, end: End) | Release(key: Key)

  function AllocOf(h: Host, q: Request, key: Key, d: nat): Alloc
    requires d < |h.dies| && h.dies[d].free != {} && MaskOk(h.dies[d].free) && q.aicore >= 0
  {
    Alloc(key, d, Least(h.dies[d].free), q.aicore, q.hbm, q.limit, q.policy, q.priority == PRIORITY_HIGH)
  }

  /** The steps an allocation performs and logs, in order. */
  function StepsOf(a: Alloc): (r: seq<LogStep>)
    ensures |r| == 6
  {
    [MarkOccupied(a.die, a.id), UpdateQuota(a.die, 0 - a.aicore, 0 - a.hbm),
     AttachPolicy(a.die, Policy(a.id, a.policy, a.high)), CreateShm(a.die, a.id, a.limit),
     WriteConfig(a.key), SaveCheckpoint(a)]
  }

  /** The evaluation accepts die `d` for the request. */
  predicate Accepts(cfg: Config, h: Host, q: Request, d: nat) {
    && ConfigOk(cfg) && d < |cfg.phys| == |h.dies| == |h.slots|
    && ValidRequest(q) && Eligible(q, LeafOf(cfg, h, d)) && PolicyOk(q, h.dies[d])
    && MaskOk(h.dies[d].free)
  }

  predicate Enabled(cfg: Config, h: Host, s: Step) {
    match s
    case Allocate(raw, key, d, end) =>
      && Prepare(raw).Ready? && !Registered(h, key) && Accepts(cfg, h, Prepare(raw).q, d)
      && Possibles(h, StepsOf(AllocOf(h, Prepare(raw).q, key, d)))
      && (end.FailsAfter? ==> 1 <= end.k <= 5)
    case Release(key) =>
      && Registered(h, key)
      && forall a :: a in h.registry ==> a.die < |h.dies| == |h.slots| && a.id < |h.slots[a.die]|
  }

  function Allocated(h: Host, a: Alloc, end: End): Host
    requires Possibles(h, StepsOf(a)) && (end.FailsAfter? ==> end.k <= 6)
  {
    var steps := StepsOf(a);
    match end
    case Done => ForwardAll(h, steps)
    case FailsAfter(k) =>
      PrefixPossible(h, steps, k);
      LoggedInRange(h, steps[..k]);
      UndoAll(ForwardAll(h, steps[..k]), steps[..k])
    case PersistFails =>
      LoggedInRange(h, steps);
      assert forall s :: s in steps[..5] ==> s in steps;
      UndoAll(ForwardAll(h, steps), steps[..5])
  }

  lemma {:induction false} PrefixPossible(h: Host, steps: seq<LogStep>, k: nat)
    requires Possibles(h, steps) && k <= |steps|
    ensures Possibles(h, steps[..k])
    decreases |steps|
  {
    if k < |steps| {
      SplitLast(h, steps);
      PrefixPossible(h, steps[..|steps| - 1], k);
      assert steps[..|steps| - 1][..k] == steps[..k];
    } else {
      assert steps[..k] == steps;
    }
  }

  /** `npu_allocator_release` for the registry entry `a`. */
  function Released(h: Host, a: Alloc): Host
    requires a.die < |h.dies| == |h.slots| && a.id < |h.slots[a.die]|
  {
    var die := h.dies[a.die];
    var h1 := if a.id in die.free then h else
                h.(dies := h.dies[a.die := Vacate(AddQuota(Detach(die, a.id), a.aicore, a.hbm), a.id)],
                   parents := h.parents + {a.die});
    h1.(slots := h1.slots[a.die := h1.slots[a.die][a.id := Unset]],
        configs := h1.configs - {a.key},
        registry := Unregister(h1.registry, a.key))
  }

  lemma FindRegistered(r: seq<Alloc>, key: Key)
    requires exists a :: a in r && a.key == key
    ensures FindAlloc(r, key) < |r|
  {
    var a :| a in r && a.key == key;
    var i :| 0 <= i < |r| && r[i] == a;
  }

  function Apply(cfg: Config, h: Host, s: Step): Host
    requires Enabled(cfg, h, s)
  {
    match s
    case Allocate(raw, key, d, end) => Allocated(h, AllocOf(h, Prepare(raw).q, key, d), end)
    case Release(key) =>
      FindRegistered(h.registry, key);
      Released(h, h.registry[FindAlloc(h.registry, key)])
  }

  predicate Executes(cfg: Config, h: Host, steps: seq<Step>)
    decreases |steps|
  {
    |steps| == 0 || (Enabled(cfg, h, steps[0]) && Executes(cfg, Apply(cfg, h, steps[0]), steps[1..]))
  }

  function Run(cfg: Config, h: Host, steps: seq<Step>): Host
    requires Executes(cfg, h, steps)
    decreases |steps|
  {
    if |steps| == 0 then h else Run(cfg, Apply(cfg, h, steps[0]), steps[1..])
  }

  predicate NoPersistFailure(steps: seq<Step>) {
    forall s :: s in steps && s.Allocate? ==> !s.end.PersistFails?
  }

  // ---------------------------------------------------------------------------
  // The law
  // ---------------------------------------------------------------------------

  function AicoreOn(d: nat): Alloc -> int { (a: Alloc) => if a.die == d then a.aicore else 0 }

  function HbmOn(d: nat): Alloc -> int { (a: Alloc) => if a.die == d then a.hbm else 0 }

  function PolicyOf(a: Alloc): Policy { Policy(a.id, a.policy, a.high) }

  /** The policies of the vNPUs on a die in the order of their registration. */
  function PoliciesOn(r: seq<Alloc>, d: nat): seq<Policy> {
    if |r| == 0 then [] else
      var n := |r| - 1;
      if r[n].die == d then PoliciesOn(r[..n], d) + [PolicyOf(r[n])] else PoliciesOn(r[..n], d)
  }

  function IdsOn(r: seq<Alloc>, d: nat): set<nat> { set a | a in r && a.die == d :: a.id }

  predicate RegistryOk(r: seq<Alloc>, dies: nat) {
    && (forall a :: a in r ==> a.die < dies && a.id < MASK_BITS)
    && (forall i, j :: 0 <= i < j < |r| ==> r[i].key != r[j].key)
    && DistinctPlaces(r)
  }

  predicate OnePolicy(ps: seq<Policy>) {
    forall p, q :: p in ps && q in ps && !p.high && !q.high ==> p.policy == q.policy
  }

  /** The ledger of die `d` against the registry: quotas add up to the totals, the free
      ids are the unregistered ones, and the policies are those registered, in order and
      with one policy among the normal-priority vNPUs. */
  predicate Ledger(die: Die, r: seq<Alloc>, d: nat, aicores: nat, hbms: nat) {
    && die.aicore + Sum(r, AicoreOn(d)) == aicores && die.aicore >= 0
    && die.hbm + Sum(r, HbmOn(d)) == hbms && die.hbm >= 0
    && die.free == FULL_MASK - IdsOn(r, d)
    && die.policies == PoliciesOn(r, d)
    && die.count == |die.policies|
    && OnePolicy(die.policies)
  }

  /** The limits of the die's shared-memory entries stay within the threshold. */
  predicate WithinLimit(slots: seq<Slot>, ratio: real, totalMb: nat) {
    Sum(slots, LimitOf) <= Threshold(ratio, totalMb)
  }

  predicate DieLaw(cfg: Config, h: Host, d: nat)
    requires ConfigOk(cfg) && d < |cfg.phys| == |h.dies| == |h.slots|
  {
    && Ledger(h.dies[d], h.registry, d, cfg.aicores[d], cfg.hbms[d])
    && WithinLimit(h.slots[d], cfg.ratios[d], cfg.totalMbs[d])
  }

  /** The shared-memory entries of die `d` are those of its registered vNPUs. */
  predicate SlotsLaw(slots: seq<Slot>, r: seq<Alloc>, d: nat) {
    && |slots| == MAX_VNPU_PER_DIE
    && (forall a :: a in r && a.die == d ==> a.id < |slots| && slots[a.id] == Limit(a.limit))
    && (forall v :: 0 <= v < |slots| && slots[v] != Unset ==> v in IdsOn(r, d))
  }

  /** A vNPU requests no more than its limit, its limit fits its die, and it is limited
      above its request only on an oversubscribed die. */
  predicate AllocFits(cfg: Config, a: Alloc)
    requires ConfigOk(cfg)
  {
    && a.die < |cfg.phys| && a.hbm <= a.limit <= cfg.totalMbs[a.die]
    && (a.hbm < a.limit ==> cfg.ratios[a.die] > 0.0)
  }

  predicate HasKey(r: seq<Alloc>, key: Key) { exists a :: a in r && a.key == key }

  predicate ConfigsLaw(configs: set<Key>, r: seq<Alloc>) { forall k :: k in configs ==> HasKey(r, k) }

  predicate Inv(cfg: Config, h: Host) {
    && ConfigOk(cfg) && |h.slots| == |h.dies| == |cfg.phys|
    && RegistryOk(h.registry, |h.dies|)
    && (forall d :: 0 <= d < |h.dies| ==> DieLaw(cfg, h, d) && SlotsLaw(h.slots[d], h.registry, d))
    && ConfigsLaw(h.configs, h.registry)
    && (forall a :: a in h.registry ==> AllocFits(cfg, a))
  }

  // ---------------------------------------------------------------------------
  // The registry changes by one entry
  // ---------------------------------------------------------------------------

  lemma AppendPolicies(r: seq<Alloc>, a: Alloc, d: nat)
    ensures PoliciesOn(r + [a], d) == PoliciesOn(r, d) + (if a.die == d then [PolicyOf(a)] else [])
    ensures IdsOn(r + [a], d) == IdsOn(r, d) + (if a.die == d then {a.id} else {})
  {
    assert (r + [a])[..|r|] == r;
    assert forall b :: b in r + [a] <==> b in r || b == a;
  }

  lemma {:induction false} PoliciesAreOfRegistered(r: seq<Alloc>, d: nat)
    ensures forall p :: p in PoliciesOn(r, d) ==> exists a :: a in r && a.die == d && p == PolicyOf(a)
    ensures forall a :: a in r && a.die == d ==> PolicyOf(a) in PoliciesOn(r, d)
  {
    if |r| > 0 {
      var n := |r| - 1;
      PoliciesAreOfRegistered(r[..n], d);
      assert forall a :: a in r <==> a in r[..n] || a == r[n];
      assert r[n] in r;
    }
  }

  predicate DistinctPlaces(r: seq<Alloc>) {
    forall i, j :: 0 <= i < j < |r| ==> r[i].die != r[j].die || r[i].id != r[j].id
  }

  lemma LastIsFresh(r: seq<Alloc>, d: nat)
    requires |r| > 0 && DistinctPlaces(r) && r[|r| - 1].die == d
    ensures forall p :: p in PoliciesOn(r[..|r| - 1], d) ==> p.id != r[|r| - 1].id
  {
    var n := |r| - 1;
    PoliciesAreOfRegistered(r[..n], d);
    forall p | p in PoliciesOn(r[..n], d)
      ensures p.id != r[n].id
    {
      var a :| a in r[..n] && a.die == d && p == PolicyOf(a);
      var i :| 0 <= i < n && r[i] == a;
    }
  }

  lemma WithoutLastPolicy(r: seq<Alloc>, d: nat)
    requires |r| > 0 && DistinctPlaces(r) && r[|r| - 1].die == d
    ensures var n := |r| - 1;
            var ps := PoliciesOn(r, d);
            Find(ps, r[n].id) < |ps| && PoliciesOn(r[..n], d) == Without(ps, Find(ps, r[n].id))
  {
    var n := |r| - 1;
    var ps := PoliciesOn(r[..n], d);
    LastIsFresh(r, d);
    FirstAppend(ps, PolicyOf(r[n]), HasId(r[n].id));
    assert Without(ps + [PolicyOf(r[n])], |ps|) == ps;
  }

  lemma WithoutBeforeLast(ps: seq<Policy>, p: Policy, id: nat)
    requires Find(ps, id) < |ps|
    ensures Find(ps + [p], id) < |ps + [p]|
    ensures Without(ps + [p], Find(ps + [p], id)) == Without(ps, Find(ps, id)) + [p]
  {
    FirstAppend(ps, p, HasId(id));
    WithoutAppend(ps, p, Find(ps, id));
  }

  /** Removing a registered vNPU removes the first policy entry of its id on its die and
      nothing from the others. */
  lemma {:induction false} WithoutPolicies(r: seq<Alloc>, i: nat, d: nat)
    requires i < |r| && DistinctPlaces(r)
    ensures var ps := PoliciesOn(r, d);
            if r[i].die == d then
              Find(ps, r[i].id) < |ps| && PoliciesOn(Without(r, i), d) == Without(ps, Find(ps, r[i].id))
            else PoliciesOn(Without(r, i), d) == ps
  {
    var n := |r| - 1;
    if i == n {
      assert Without(r, i) == r[..n];
      if r[n].die == d {
        WithoutLastPolicy(r, d);
      }
    } else {
      WithoutPolicies(r[..n], i, d);
      assert Without(r, i) == Without(r[..n], i) + [r[n]];
      AppendPolicies(Without(r[..n], i), r[n], d);
      if r[i].die == d && r[n].die == d {
        WithoutBeforeLast(PoliciesOn(r[..n], d), PolicyOf(r[n]), r[i].id);
      }
    }
  }

  lemma WithoutMembers(r: seq<Alloc>, i: nat)
    requires i < |r|
    ensures forall a :: a in Without(r, i) ==> a in r
    ensures forall j :: 0 <= j < |r| && j != i ==> r[j] in Without(r, i)
    ensures DistinctPlaces(r) ==> r[i] !in Without(r, i)
  {
    var w := Without(r, i);
    forall j | 0 <= j < |r| && j != i
      ensures r[j] in w
    {
      assert w[if j < i then j else j - 1] == r[j];
    }
  }

  lemma IdStays(r: seq<Alloc>, i: nat, d: nat, v: nat)
    requires i < |r| && v in IdsOn(r, d) && !(r[i].die == d && r[i].id == v)
    ensures v in IdsOn(Without(r, i), d)
  {
    WithoutMembers(r, i);
    var a :| a in r && a.die == d && a.id == v;
    var j :| 0 <= j < |r| && r[j] == a;
    assert r[j] in Without(r, i);
  }

  lemma IdWas(r: seq<Alloc>, i: nat, d: nat, v: nat)
    requires i < |r| && DistinctPlaces(r) && v in IdsOn(Without(r, i), d)
    ensures v in IdsOn(r, d) && !(r[i].die == d && r[i].id == v)
  {
    var w := Without(r, i);
    var a :| a in w && a.die == d && a.id == v;
    var m :| 0 <= m < |w| && w[m] == a;
    assert r[if m < i then m else m + 1] == a;
  }

  lemma WithoutIds(r: seq<Alloc>, i: nat, d: nat)
    requires i < |r| && DistinctPlaces(r)
    ensures IdsOn(Without(r, i), d) == IdsOn(r, d) - (if r[i].die == d then {r[i].id} else {})
  {
    forall v | v in IdsOn(r, d) && !(r[i].die == d && r[i].id == v)
      ensures v in IdsOn(Without(r, i), d)
    {
      IdStays(r, i, d, v);
    }
    forall v | v in IdsOn(Without(r, i), d)
      ensures v in IdsOn(r, d) && !(r[i].die == d && r[i].id == v)
    {
      IdWas(r, i, d, v);
    }
  }

  lemma WithoutRegistryOk(r: seq<Alloc>, i: nat, dies: nat)
    requires i < |r| && RegistryOk(r, dies)
    ensures RegistryOk(Without(r, i), dies)
  {
    WithoutMembers(r, i);
  }

  // ---------------------------------------------------------------------------
  // A completed allocation
  // ---------------------------------------------------------------------------

  /** The die after the three tree steps of an allocation. */
  function Taken(die: Die, a: Alloc): Die {
    Attach(AddQuota(Occupy(die, a.id), 0 - a.aicore, 0 - a.hbm), PolicyOf(a))
  }

  function Placed(h: Host, a: Alloc): Host
    requires a.die < |h.dies| == |h.slots| && a.id < |h.slots[a.die]|
  {
    Host(h.dies[a.die := Taken(h.dies[a.die], a)], h.parents - {a.die},
         h.slots[a.die := h.slots[a.die][a.id := Limit(a.limit)]], h.configs + {a.key}, h.registry + [a])
  }

  /** What the allocation starts from. */
  predicate FreshPlace(h: Host, a: Alloc) {
    && a.die < |h.dies| == |h.slots| && a.id < MASK_BITS && a.id < |h.slots[a.die]|
    && a.id in h.dies[a.die].free
    && (forall p :: p in h.dies[a.die].policies ==> p.id != a.id)
    && h.slots[a.die][a.id] == Unset
    && a.key !in h.configs && !Registered(h, a.key)
  }

  lemma TreeSteps(h: Host, a: Alloc)
    requires FreshPlace(h, a)
    ensures var s := StepsOf(a);
            var h1 := h.(dies := h.dies[a.die := Occupy(h.dies[a.die], a.id)], parents := h.parents - {a.die});
            var h2 := h1.(dies := h.dies[a.die := AddQuota(Occupy(h.dies[a.die], a.id), 0 - a.aicore, 0 - a.hbm)]);
            && Possible(h, s[0]) && Forward(h, s[0]) == h1
            && Possible(h1, s[1]) && Forward(h1, s[1]) == h2
            && Possible(h2, s[2]) && Forward(h2, s[2]) == h2.(dies := h.dies[a.die := Taken(h.dies[a.die], a)])
  {
    var d1 := Occupy(h.dies[a.die], a.id);
    var d2 := AddQuota(d1, 0 - a.aicore, 0 - a.hbm);
    assert h.dies[a.die := d1][a.die := d2] == h.dies[a.die := d2];
    assert h.dies[a.die := d2][a.die := Taken(h.dies[a.die], a)] == h.dies[a.die := Taken(h.dies[a.die], a)];
  }

  lemma {:induction false} Unroll(h: Host, s: LogStep, rest: seq<LogStep>)
    requires Possible(h, s) && Possibles(Forward(h, s), rest)
    ensures Possibles(h, [s] + rest) && ForwardAll(h, [s] + rest) == ForwardAll(Forward(h, s), rest)
  {
    assert ([s] + rest)[0] == s && ([s] + rest)[1..] == rest;
  }

  lemma HostSteps(h: Host, a: Alloc)
    requires a.die < |h.slots| && a.id < |h.slots[a.die]| && h.slots[a.die][a.id] == Unset
    requires a.key !in h.configs && !Registered(h, a.key)
    ensures var rest := StepsOf(a)[3..];
            && Possibles(h, rest)
            && ForwardAll(h, rest) == h.(slots := h.slots[a.die := h.slots[a.die][a.id := Limit(a.limit)]],
                                         configs := h.configs + {a.key}, registry := h.registry + [a])
  {
    var s := StepsOf(a);
    var h1 := Forward(h, s[3]);
    var h2 := Forward(h1, s[4]);
    var h3 := Forward(h2, s[5]);
    assert !Registered(h2, a.key);
    assert Possibles(h3, []) && ForwardAll(h3, []) == h3;
    Unroll(h2, s[5], []);
    Unroll(h1, s[4], [s[5]] + []);
    Unroll(h, s[3], [s[4]] + ([s[5]] + []));
    assert s[3..] == [s[3]] + ([s[4]] + ([s[5]] + []));
  }

  /** From a fresh place all six steps succeed, and this is their joint effect. */
  lemma AllSteps(h: Host, a: Alloc)
    requires FreshPlace(h, a)
    ensures Possibles(h, StepsOf(a)) && ForwardAll(h, StepsOf(a)) == Placed(h, a)
  {
    TreeSteps(h, a);
    var s := StepsOf(a);
    var h1 := Forward(h, s[0]);
    var h2 := Forward(h1, s[1]);
    var h3 := Forward(h2, s[2]);
    assert !Registered(h3, a.key);
    HostSteps(h3, a);
    var rest := s[3..];
    Unroll(h2, s[2], rest);
    Unroll(h1, s[1], [s[2]] + rest);
    Unroll(h, s[0], [s[1]] + ([s[2]] + rest));
    assert s == [s[0]] + ([s[1]] + ([s[2]] + rest));
  }

  /** Every id that the evaluation hands out is a fresh place. */
  lemma AcceptedIsFresh(cfg: Config, h: Host, q: Request, key: Key, d: nat)
    requires Inv(cfg, h) && Accepts(cfg, h, q, d) && q.aicore >= 0 && !Registered(h, key)
    ensures FreshPlace(h, AllocOf(h, q, key, d))
  {
    var a := AllocOf(h, q, key, d);
    assert DieLaw(cfg, h, d) && SlotsLaw(h.slots[d], h.registry, d);
    PoliciesAreOfRegistered(h.registry, d);
    assert a.id in h.dies[d].free;
    assert Registered(h, key) == HasKey(h.registry, key);
  }

  // ---------------------------------------------------------------------------
  // Counting
  // ---------------------------------------------------------------------------

  lemma SubsetSize(a: set<nat>, b: set<nat>)
    requires a <= b
    ensures |a| <= |b| && |b - a| == |b| - |a|
  {
    assert b == a + (b - a);
  }

  lemma LastIdIsFresh(r: seq<Alloc>)
    requires |r| > 0 && DistinctPlaces(r)
    ensures r[|r| - 1].id !in IdsOn(r[..|r| - 1], r[|r| - 1].die)
  {
    var n := |r| - 1;
    forall a | a in r[..n] && a.die == r[n].die
      ensures a.id != r[n].id
    {
      var i :| 0 <= i < n && r[i] == a;
    }
  }

  /** As many policy entries as ids. */
  lemma {:induction false} AsManyPoliciesAsIds(r: seq<Alloc>, d: nat)
    requires DistinctPlaces(r)
    ensures |PoliciesOn(r, d)| == |IdsOn(r, d)|
  {
    if |r| > 0 {
      var n := |r| - 1;
      AsManyPoliciesAsIds(r[..n], d);
      assert r == r[..n] + [r[n]];
      AppendPolicies(r[..n], r[n], d);
      LastIdIsFresh(r);
    } else {
      assert IdsOn(r, d) == {};
    }
  }

  /** The occupied bits, the policy entries and the vNPU count of a die agree and never
      exceed the 64 ids. */
  lemma CountLaw(die: Die, r: seq<Alloc>, d: nat, aicores: nat, hbms: nat, dies: nat)
    requires Ledger(die, r, d, aicores, hbms) && RegistryOk(r, dies)
    ensures die.count == |die.policies| == |FULL_MASK - die.free| <= MASK_BITS
    ensures die.free <= FULL_MASK
  {
    var ids := IdsOn(r, d);
    AsManyPoliciesAsIds(r, d);
    SizeBelow(FULL_MASK, MASK_BITS);
    assert ids <= FULL_MASK;
    SubsetSize(ids, FULL_MASK);
    assert FULL_MASK - (FULL_MASK - ids) == ids;
  }

  // ---------------------------------------------------------------------------
  // A completed allocation keeps the law
  // ---------------------------------------------------------------------------

  lemma OnePolicyExtends(die: Die, p: Policy)
    requires OnePolicy(die.policies) && (p.high || Compatible(die, p.policy))
    ensures OnePolicy(die.policies + [p])
  {
  }

  lemma LedgerTaken(die: Die, r: seq<Alloc>, a: Alloc, aicores: nat, hbms: nat)
    requires Ledger(die, r, a.die, aicores, hbms) && |die.policies| < MAX_VNPU_PER_DIE
    requires a.aicore <= die.aicore && a.hbm <= die.hbm && (a.high || Compatible(die, a.policy))
    ensures Ledger(Taken(die, a), r + [a], a.die, aicores, hbms)
  {
    SumAppend(r, a, AicoreOn(a.die));
    SumAppend(r, a, HbmOn(a.die));
    AppendPolicies(r, a, a.die);
    OnePolicyExtends(die, PolicyOf(a));
    assert FULL_MASK - (IdsOn(r, a.die) + {a.id}) == die.free - {a.id};
  }

  lemma LedgerElsewhere(die: Die, r: seq<Alloc>, a: Alloc, d: nat, aicores: nat, hbms: nat)
    requires Ledger(die, r, d, aicores, hbms) && a.die != d
    ensures Ledger(die, r + [a], d, aicores, hbms)
  {
    SumAppend(r, a, AicoreOn(d));
    SumAppend(r, a, HbmOn(d));
    AppendPolicies(r, a, d);
  }

  lemma SlotsTaken(slots: seq<Slot>, r: seq<Alloc>, a: Alloc, d: nat)
    requires SlotsLaw(slots, r, d) && a.id < |slots| && (a.die == d ==> a.id !in IdsOn(r, d))
    ensures SlotsLaw(if a.die == d then slots[a.id := Limit(a.limit)] else slots, r + [a], d)
  {
    AppendPolicies(r, a, d);
    forall b | b in r && b.die == d && a.die == d
      ensures b.id != a.id
    {
      assert b.id in IdsOn(r, d);
    }
  }

  lemma ConfigsTaken(configs: set<Key>, r: seq<Alloc>, a: Alloc)
    requires ConfigsLaw(configs, r)
    ensures ConfigsLaw(configs + {a.key}, r + [a])
  {
    assert a in r + [a];
    forall k | k in configs
      ensures HasKey(r + [a], k)
    {
      var b :| b in r && b.key == k;
      assert b in r + [a];
    }
  }

  lemma RegistryTaken(r: seq<Alloc>, a: Alloc, dies: nat)
    requires RegistryOk(r, dies) && a.die < dies && a.id < MASK_BITS
    requires !HasKey(r, a.key) && a.id !in IdsOn(r, a.die)
    ensures RegistryOk(r + [a], dies)
  {
    forall b | b in r
      ensures b.key != a.key && (b.die != a.die || b.id != a.id)
    {
      assert HasKey(r, b.key);
      assert b.id in IdsOn(r, b.die);
    }
  }

  lemma PlacedKeepsInv(cfg: Config, h: Host, q: Request, key: Key, d: nat)
    requires Inv(cfg, h) && Accepts(cfg, h, q, d) && q.aicore >= 0 && q.hbm <= q.limit && !Registered(h, key)
    ensures FreshPlace(h, AllocOf(h, q, key, d)) && Inv(cfg, Placed(h, AllocOf(h, q, key, d)))
  {
    AcceptedIsFresh(cfg, h, q, key, d);
    var a := AllocOf(h, q, key, d);
    var h' := Placed(h, a);
    assert !HasKey(h.registry, key);
    assert DieLaw(cfg, h, d);
    assert AllocFits(cfg, a);
    RegistryTaken(h.registry, a, |h.dies|);
    ConfigsTaken(h.configs, h.registry, a);
    forall e | 0 <= e < |h.dies|
      ensures DieLaw(cfg, h', e) && SlotsLaw(h'.slots[e], h'.registry, e)
    {
      assert DieLaw(cfg, h, e) && SlotsLaw(h.slots[e], h.registry, e);
      SlotsTaken(h.slots[e], h.registry, a, e);
      if e == d {
        CountLaw(h.dies[d], h.registry, d, cfg.aicores[d], cfg.hbms[d], |h.dies|);
        LedgerTaken(h.dies[d], h.registry, a, cfg.aicores[d], cfg.hbms[d]);
        SumUpdate(h.slots[d], a.id, Limit(a.limit), LimitOf);
      } else {
        LedgerElsewhere(h.dies[e], h.registry, a, e, cfg.aicores[e], cfg.hbms[e]);
      }
    }
  }

  // ---------------------------------------------------------------------------
  // A release keeps the law
  // ---------------------------------------------------------------------------

  /** The die after a release. */
  function Given(die: Die, a: Alloc): Die {
    Vacate(AddQuota(Detach(die, a.id), a.aicore, a.hbm), a.id)
  }

  lemma SumOnNonNegative(r: seq<Alloc>, d: nat)
    ensures Sum(r, AicoreOn(d)) >= 0 && Sum(r, HbmOn(d)) >= 0
  {
    SumNonNegative(r, AicoreOn(d));
    SumNonNegative(r, HbmOn(d));
  }

  lemma OnePolicyShrinks(ps: seq<Policy>, i: nat)
    requires OnePolicy(ps) && i < |ps|
    ensures OnePolicy(Without(ps, i))
  {
    assert forall p :: p in Without(ps, i) ==> p in ps;
  }

  lemma LedgerGiven(die: Die, r: seq<Alloc>, i: nat, aicores: nat, hbms: nat, dies: nat)
    requires i < |r| && Ledger(die, r, r[i].die, aicores, hbms) && RegistryOk(r, dies)
    ensures Ledger(Given(die, r[i]), Without(r, i), r[i].die, aicores, hbms)
  {
    var a := r[i];
    var ids := IdsOn(r, a.die);
    SumWithout(r, i, AicoreOn(a.die));
    SumWithout(r, i, HbmOn(a.die));
    WithoutPolicies(r, i, a.die);
    WithoutIds(r, i, a.die);
    OnePolicyShrinks(die.policies, Find(die.policies, a.id));
    assert a.id in FULL_MASK && a.id in ids;
    assert FULL_MASK - (ids - {a.id}) == FULL_MASK - ids + {a.id};
  }

  lemma LedgerGivenElsewhere(die: Die, r: seq<Alloc>, i: nat, d: nat, aicores: nat, hbms: nat)
    requires i < |r| && Ledger(die, r, d, aicores, hbms) && DistinctPlaces(r) && r[i].die != d
    ensures Ledger(die, Without(r, i), d, aicores, hbms)
  {
    SumWithout(r, i, AicoreOn(d));
    SumWithout(r, i, HbmOn(d));
    WithoutPolicies(r, i, d);
    WithoutIds(r, i, d);
  }

  lemma SlotsGiven(slots: seq<Slot>, r: seq<Alloc>, i: nat, d: nat)
    requires i < |r| && SlotsLaw(slots, r, d) && DistinctPlaces(r) && r[i].id < |slots|
    ensures SlotsLaw(if r[i].die == d then slots[r[i].id := Unset] else slots, Without(r, i), d)
  {
    WithoutIds(r, i, d);
    WithoutMembers(r, i);
    forall b | b in Without(r, i) && b.die == d && r[i].die == d
      ensures b.id != r[i].id
    {
      assert b.id in IdsOn(Without(r, i), d);
    }
  }

  lemma ConfigsGiven(configs: set<Key>, r: seq<Alloc>, i: nat)
    requires i < |r| && ConfigsLaw(configs, r)
    ensures ConfigsLaw(configs - {r[i].key}, Without(r, i))
  {
    WithoutMembers(r, i);
    forall k | k in configs - {r[i].key}
      ensures HasKey(Without(r, i), k)
    {
      var b :| b in r && b.key == k;
      var j :| 0 <= j < |r| && r[j] == b;
      assert r[j] in Without(r, i);
    }
  }

  lemma LimitShrinks(slots: seq<Slot>, v: nat, ratio: real, totalMb: nat)
    requires v < |slots| && WithinLimit(slots, ratio, totalMb)
    ensures WithinLimit(slots[v := Unset], ratio, totalMb)
  {
    SumUpdate(slots, v, Unset, LimitOf);
  }

  lemma ReleasedParts(h: Host, i: nat)
    requires i < |h.registry| && FindAlloc(h.registry, h.registry[i].key) == i
    requires var a := h.registry[i]; a.die < |h.dies| == |h.slots| && a.id < |h.slots[a.die]|
    requires h.registry[i].id !in h.dies[h.registry[i].die].free
    ensures var a, h' := h.registry[i], Released(h, h.registry[i]);
            && h'.dies == h.dies[a.die := Given(h.dies[a.die], a)]
            && h'.slots == h.slots[a.die := h.slots[a.die][a.id := Unset]]
            && h'.configs == h.configs - {a.key} && h'.registry == Without(h.registry, i)
  {
  }

  lemma GivenUndoesTaken(die: Die, a: Alloc)
    requires a.id in die.free && forall p :: p in die.policies ==> p.id != a.id
    ensures Given(Taken(die, a), a) == die
  {
    AttachUndone(AddQuota(Occupy(die, a.id), 0 - a.aicore, 0 - a.hbm), PolicyOf(a));
    assert die.free - {a.id} + {a.id} == die.free;
  }

  /** Releasing what has just been placed restores everything: masks, quotas, policies,
      shared memory, config files and registry; the die's bit in the parent mask is set. */
  lemma ReleaseUndoesPlacement(h: Host, a: Alloc)
    requires FreshPlace(h, a)
    ensures Released(Placed(h, a), a) == Raise(h, {a.die})
  {
    var g := Placed(h, a);
    var r := Released(g, a);
    GivenUndoesTaken(h.dies[a.die], a);
    assert a.id !in g.dies[a.die].free;
    assert r.dies == h.dies;
    assert r.slots[a.die] == h.slots[a.die];
    assert r.slots == h.slots;
    assert r.configs == h.configs;
    FirstAppend(h.registry, a, HasName(a.key));
    WithoutLast(h.registry, a);
    assert forall b :: b in h.registry ==> b.key != a.key;
    assert r.parents == h.parents + {a.die};
  }

  lemma ReleasedDie(cfg: Config, h: Host, i: nat, e: nat)
    requires Inv(cfg, h) && i < |h.registry| && e < |h.dies|
    ensures var a, r := h.registry[i], Without(h.registry, i);
            var slots := if e == a.die then h.slots[e][a.id := Unset] else h.slots[e];
            && Ledger(if e == a.die then Given(h.dies[e], a) else h.dies[e], r, e, cfg.aicores[e], cfg.hbms[e])
            && WithinLimit(slots, cfg.ratios[e], cfg.totalMbs[e]) && SlotsLaw(slots, r, e)
  {
    assert DieLaw(cfg, h, e) && SlotsLaw(h.slots[e], h.registry, e);
    SlotsGiven(h.slots[e], h.registry, i, e);
    if e == h.registry[i].die {
      LedgerGiven(h.dies[e], h.registry, i, cfg.aicores[e], cfg.hbms[e], |h.dies|);
      LimitShrinks(h.slots[e], h.registry[i].id, cfg.ratios[e], cfg.totalMbs[e]);
    } else {
      LedgerGivenElsewhere(h.dies[e], h.registry, i, e, cfg.aicores[e], cfg.hbms[e]);
    }
  }

  lemma ReleasedKeepsInv(cfg: Config, h: Host, key: Key)
    requires Inv(cfg, h) && Enabled(cfg, h, Release(key))
    ensures Inv(cfg, Apply(cfg, h, Release(key)))
  {
    FindRegistered(h.registry, key);
    var i := FindAlloc(h.registry, key);
    var a := h.registry[i];
    var h' := Released(h, a);
    assert DieLaw(cfg, h, a.die) && a.id in IdsOn(h.registry, a.die);
    ReleasedParts(h, i);
    WithoutRegistryOk(h.registry, i, |h.dies|);
    WithoutMembers(h.registry, i);
    ConfigsGiven(h.configs, h.registry, i);
    forall e | 0 <= e < |h.dies|
      ensures DieLaw(cfg, h', e) && SlotsLaw(h'.slots[e], h'.registry, e)
    {
      ReleasedDie(cfg, h, i, e);
    }
  }

  // ---------------------------------------------------------------------------
  // Runs
  // ---------------------------------------------------------------------------

  lemma InvIgnoresParents(cfg: Config, h: Host, x: set<nat>)
    requires Inv(cfg, h)
    ensures Inv(cfg, Raise(h, x))
  {
    var h' := Raise(h, x);
    forall d | 0 <= d < |h.dies|
      ensures DieLaw(cfg, h', d)
    {
      assert DieLaw(cfg, h, d);
    }
  }

  /** An allocation whose later step fails leaves everything as it was but the die's bit
      in the parent mask. */
  lemma FailedAllocationUndone(h: Host, a: Alloc, k: nat)
    requires Possibles(h, StepsOf(a)) && 1 <= k <= 5
    ensures Allocated(h, a, FailsAfter(k)) == Raise(h, {a.die})
  {
    var steps := StepsOf(a);
    PrefixPossible(h, steps, k);
    RollbackIsInverse(h, steps[..k]);
    assert steps[..k][0] == MarkOccupied(a.die, a.id);
    assert MarkedBy(steps[..k]) == {a.die};
  }

  lemma StepKeepsInv(cfg: Config, h: Host, s: Step)
    requires Inv(cfg, h) && Enabled(cfg, h, s) && (s.Allocate? ==> !s.end.PersistFails?)
    ensures Inv(cfg, Apply(cfg, h, s))
  {
    match s
    case Allocate(raw, key, d, end) =>
      var q := Prepare(raw).q;
      var a := AllocOf(h, q, key, d);
      if end.Done? {
        PlacedKeepsInv(cfg, h, q, key, d);
        AllSteps(h, a);
      } else {
        FailedAllocationUndone(h, a, end.k);
        InvIgnoresParents(cfg, h, {a.die});
      }
    case Release(key) => ReleasedKeepsInv(cfg, h, key);
  }

  lemma {:induction false} RunKeepsInv(cfg: Config, h: Host, steps: seq<Step>)
    requires Inv(cfg, h) && Executes(cfg, h, steps) && NoPersistFailure(steps)
    ensures Inv(cfg, Run(cfg, h, steps))
    decreases |steps|
  {
    if |steps| > 0 {
      StepKeepsInv(cfg, h, steps[0]);
      RunKeepsInv(cfg, Apply(cfg, h, steps[0]), steps[1..]);
    }
  }

  /** All dies empty. */
  function Init(cfg: Config, parents: set<nat>): Host
    requires ConfigOk(cfg)
  {
    Host(seq(|cfg.phys|, d requires 0 <= d < |cfg.phys| => Die(FULL_MASK, cfg.aicores[d], cfg.hbms[d], 0, [])),
         parents, seq(|cfg.phys|, _ => NoSlots()), {}, [])
  }

  lemma EmptyLedger(d: nat, aicores: nat, hbms: nat)
    ensures Ledger(Die(FULL_MASK, aicores, hbms, 0, []), [], d, aicores, hbms)
  {
    assert IdsOn([], d) == {};
    assert FULL_MASK - {} == FULL_MASK;
  }

  function NoSlots(): seq<Slot> { seq(MAX_VNPU_PER_DIE, _ => Unset) }

  lemma EmptySlots(d: nat, ratio: real, totalMb: nat)
    requires ratio >= 0.0
    ensures SlotsLaw(NoSlots(), [], d) && WithinLimit(NoSlots(), ratio, totalMb)
  {
    SumZero(NoSlots(), LimitOf);
    ThresholdNonNegative(ratio, totalMb);
  }

  lemma InitInv(cfg: Config, parents: set<nat>)
    requires ConfigOk(cfg)
    ensures Inv(cfg, Init(cfg, parents))
  {
    var h := Init(cfg, parents);
    forall d | 0 <= d < |h.dies|
      ensures DieLaw(cfg, h, d) && SlotsLaw(h.slots[d], h.registry, d)
    {
      EmptyLedger(d, cfg.aicores[d], cfg.hbms[d]);
      assert cfg.ratios[d] in cfg.ratios;
      EmptySlots(d, cfg.ratios[d], cfg.totalMbs[d]);
      assert h.slots[d] == NoSlots();
    }
  }

  lemma ThresholdNonNegative(ratio: real, totalMb: nat)
    requires ratio >= 0.0
    ensures Threshold(ratio, totalMb) >= totalMb
  {
    assert ratio * (totalMb as real) >= 0.0;
  }

  /** What an operator can rely on for die `d`: the available and the registered quotas add
      up to the totals and are never negative; the limits of the shared-memory entries stay
      within floor((1 + ratio) * total), each within the total and above its request only
      where the ratio is positive; normal-priority vNPUs share one policy; the vNPU count,
      the policy entries and the occupied bits agree; every id is below 64. */
  predicate DieSound(cfg: Config, h: Host, d: nat)
    requires ConfigOk(cfg) && d < |cfg.phys| == |h.dies| == |h.slots|
  {
    var die := h.dies[d];
    && 0 <= die.aicore == cfg.aicores[d] - Sum(h.registry, AicoreOn(d)) <= cfg.aicores[d]
    && 0 <= die.hbm == cfg.hbms[d] - Sum(h.registry, HbmOn(d)) <= cfg.hbms[d]
    && Sum(h.slots[d], LimitOf) <= ((1.0 + cfg.ratios[d]) * (cfg.totalMbs[d] as real)).Floor
    && OnePolicy(die.policies)
    && die.count == |die.policies| == |FULL_MASK - die.free|
    && (forall a :: a in h.registry && a.die == d ==>
          && a.id < MASK_BITS && a.id < |h.slots[d]| && h.slots[d][a.id] == Limit(a.limit)
          && a.hbm <= a.limit <= cfg.totalMbs[d] && (a.hbm < a.limit ==> cfg.ratios[d] > 0.0))
  }

  lemma InvIsSound(cfg: Config, h: Host, d: nat)
    requires Inv(cfg, h) && d < |h.dies|
    ensures DieSound(cfg, h, d)
  {
    assert DieLaw(cfg, h, d) && SlotsLaw(h.slots[d], h.registry, d);
    CountLaw(h.dies[d], h.registry, d, cfg.aicores[d], cfg.hbms[d], |h.dies|);
    SumOnNonNegative(h.registry, d);
  }

  /** Every run without a persistence failure keeps every die sound. */
  lemma PlacementLaw(cfg: Config, parents: set<nat>, steps: seq<Step>, d: nat)
    requires ConfigOk(cfg) && Executes(cfg, Init(cfg, parents), steps) && NoPersistFailure(steps)
    requires d < |cfg.phys|
    ensures var h := Run(cfg, Init(cfg, parents), steps);
            |h.dies| == |h.slots| == |cfg.phys| && DieSound(cfg, h, d)
  {
    InitInv(cfg, parents);
    RunKeepsInv(cfg, Init(cfg, parents), steps);
    InvIsSound(cfg, Run(cfg, Init(cfg, parents), steps), d);
  }

  /** In a state that keeps the law every accepted allocation can be carried out: none of
      its six steps finds something of the same name in its way. */
  lemma AcceptedCanProceed(cfg: Config, h: Host, raw: Request, key: Key, d: nat)
    requires Inv(cfg, h) && Prepare(raw).Ready? && Accepts(cfg, h, Prepare(raw).q, d) && !Registered(h, key)
    ensures forall end: End :: (end.FailsAfter? ==> 1 <= end.k <= 5) ==> Enabled(cfg, h, Allocate(raw, key, d, end))
  {
    AcceptedIsFresh(cfg, h, Prepare(raw).q, key, d);
    AllSteps(h, AllocOf(h, Prepare(raw).q, key, d));
  }

  // ---------------------------------------------------------------------------
  // A registration that cannot be persisted
  // ---------------------------------------------------------------------------

  /** Its rollback does not take the entry out of the registry again. */
  lemma PersistFailureLeavesEntry(h: Host, a: Alloc)
    requires Possibles(h, StepsOf(a))
    ensures Allocated(h, a, PersistFails) == Raise(h, {a.die}).(registry := h.registry + [a])
  {
    var steps := StepsOf(a);
    SplitLast(h, steps);
    var g := ForwardAll(h, steps[..5]);
    RollbackIsInverse(h, steps[..5]);
    UndoIgnoresRegistry(g, steps[..5], g.registry + [a]);
    TreeKeepsRegistry(h, steps[..5]);
    assert steps[..5][0] == MarkOccupied(a.die, a.id);
    assert MarkedBy(steps[..5]) == {a.die};
  }

  lemma {:induction false} TreeKeepsRegistry(h: Host, steps: seq<LogStep>)
    requires Possibles(h, steps) && forall s :: s in steps ==> !s.SaveCheckpoint?
    ensures ForwardAll(h, steps).registry == h.registry
    decreases |steps|
  {
    if |steps| > 0 {
      TreeKeepsRegistry(Forward(h, steps[0]), steps[1..]);
    }
  }

  lemma OneUndoIgnoresRegistry(h: Host, s: LogStep, r: seq<Alloc>)
    requires InRange(h, s) && !s.SaveCheckpoint?
    ensures InRange(h.(registry := r), s) && Undo(h.(registry := r), s) == Undo(h, s).(registry := r)
  {
  }

  lemma {:induction false} UndoIgnoresRegistry(h: Host, steps: seq<LogStep>, r: seq<Alloc>)
    requires AllInRange(h, steps) && forall s :: s in steps ==> !s.SaveCheckpoint?
    ensures AllInRange(h.(registry := r), steps)
    ensures UndoAll(h.(registry := r), steps) == UndoAll(h, steps).(registry := r)
    decreases |steps|
  {
    if |steps| > 0 {
      var n := |steps| - 1;
      UndoAllInRange(h, steps);
      assert steps[n] in steps;
      OneUndoIgnoresRegistry(h, steps[n], r);
      UndoIgnoresRegistry(Undo(h, steps[n]), steps[..n], r);
    }
  }

  lemma InvAt(cfg: Config, h: Host, d: nat)
    requires Inv(cfg, h) && d < |h.dies|
    ensures h.dies[d].free == FULL_MASK - IdsOn(h.registry, d)
    ensures SlotsLaw(h.slots[d], h.registry, d)
  {
    assert DieLaw(cfg, h, d);
  }

  // ---------------------------------------------------------------------------
  // The evaluator's choice
  // ---------------------------------------------------------------------------

  function Leaves(cfg: Config, h: Host): seq<Leaf>
    requires ConfigOk(cfg) && |cfg.phys| == |h.dies| == |h.slots|
  {
    seq(|h.dies|, d requires 0 <= d < |h.dies| => LeafOf(cfg, h, d))
  }

  /** The die and id that the evaluator returns, in either mode, are accepted and are the
      ones the allocation uses. */
  lemma ChoiceIsAccepted(cfg: Config, h: Host, raw: Request, key: Key, st: Strategy, r: Result)
    requires Inv(cfg, h) && Prepare(raw).Ready? && r.Chosen? && LeavesOk(Leaves(cfg, h))
    requires var q := Prepare(raw).q;
             if q.wanted < 0 then IsAutomaticChoice(q, Leaves(cfg, h), st, r) else IsWantedChoice(q, Leaves(cfg, h), r)
    ensures Accepts(cfg, h, Prepare(raw).q, r.leaf)
    ensures AllocOf(h, Prepare(raw).q, key, r.leaf).id == r.id
  {
    assert Leaves(cfg, h)[r.leaf] in Leaves(cfg, h);
  }
}
