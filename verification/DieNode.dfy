/**
 A die of the NPU tree (`enpu-manager/core/src/npu_tree.c`): the mask of free vNPU ids,
 the two available quotas, and the scheduling policies of the vNPUs placed on it.

 The 64-bit mask is the set of its one bits.
 */
module DieNode {
  import opened Search
  import opened Sums

  const MASK_BITS: nat := 64
  const MAX_VNPU_PER_DIE: nat := 128
  const FULL_MASK: set<nat> := set i: nat | i < MASK_BITS

  lemma {:induction false} SizeBelow(s: set<nat>, n: nat)
    requires forall i: nat :: i in s <==> i < n
    ensures |s| == n
  {
    if n > 0 {
      SizeBelow(s - {n - 1}, n - 1);
    } else {
      assert s == {};
    }
  }

  datatype Policy = Policy(id: nat, policy: int, high: bool)

  datatype Die = Die(free: set<nat>, aicore: int, hbm: int, count: int, policies: seq<Policy>)

  // ---------------------------------------------------------------------------
  // What the operations compute
  // ---------------------------------------------------------------------------

  function Occupy(d: Die, id: nat): Die { d.(free := d.free - {id}) }

  function Vacate(d: Die, id: nat): Die { d.(free := d.free + {id}) }

  function AddQuota(d: Die, aicore: int, hbm: int): Die {
    d.(aicore := d.aicore + aicore, hbm := d.hbm + hbm)
  }

  function Attach(d: Die, p: Policy): Die {
    if |d.policies| < MAX_VNPU_PER_DIE then d.(policies := d.policies + [p], count := d.count + 1) else d
  }

  function HasId(id: nat): Policy -> bool { (p: Policy) => p.id == id }

  /** Position of the first entry of `id`, or the length. */
  function Find(ps: seq<Policy>, id: nat): (r: nat)
    ensures r <= |ps| && (forall i :: 0 <= i < r ==> ps[i].id != id) && (r < |ps| ==> ps[r].id == id)
  {
    First(ps, HasId(id))
  }

  function Detach(d: Die, id: nat): Die {
    var i := Find(d.policies, id);
    if i < |d.policies| then d.(policies := Without(d.policies, i), count := d.count - 1) else d
  }

  /** Every vNPU on the die of normal priority has this policy. */
  predicate Compatible(d: Die, policy: int) {
    forall p :: p in d.policies ==> p.high || p.policy == policy
  }

  datatype Choice = NoId | Id(id: nat)

  /** The least free id, if any. */
  predicate IsLeastFree(free: set<nat>, c: Choice) {
    match c
    case NoId => free == {}
    case Id(id) => id in free && forall j :: j in free ==> id <= j
  }

  predicate MaskOk(free: set<nat>) { forall i :: i in free ==> i < MASK_BITS }

  // ---------------------------------------------------------------------------
  // Undoing
  // ---------------------------------------------------------------------------

  lemma OccupyUndone(d: Die, id: nat)
    requires id in d.free
    ensures Vacate(Occupy(d, id), id) == d
  {
    assert d.free - {id} + {id} == d.free;
  }

  /** Attaching a policy for an id that has none, then detaching, restores the entries in
      their order; this also covers a full table, where attaching did nothing. */
  lemma AttachUndone(d: Die, p: Policy)
    requires forall q :: q in d.policies ==> q.id != p.id
    ensures Detach(Attach(d, p), p.id) == d
  {
    if |d.policies| < MAX_VNPU_PER_DIE {
      FirstAppend(d.policies, p, HasId(p.id));
      assert Without(d.policies + [p], |d.policies|) == d.policies;
    } else {
      assert Find(d.policies, p.id) == |d.policies|;
    }
  }

  // ---------------------------------------------------------------------------
  // The node, updated in place
  // ---------------------------------------------------------------------------

  class Node {
    var free: set<nat>
    var aicore: int
    var hbm: int
    var count: int
    const entries: array<Policy>
    var used: nat
    var parentBit: bool   // the die's bit in the mask of its parent node

    ghost predicate Valid()
      reads this, entries
    {
      entries.Length == MAX_VNPU_PER_DIE && used <= entries.Length && MaskOk(free)
    }

    ghost function View(): Die
      requires Valid()
      reads this, entries
    {
      Die(free, aicore, hbm, count, entries[..used])
    }

    constructor (aicore: int, hbm: int)
      ensures Valid() && View() == Die(FULL_MASK, aicore, hbm, 0, []) && parentBit
      ensures fresh(entries)
    {
      free := FULL_MASK;
      this.aicore := aicore;
      this.hbm := hbm;
      count := 0;
      entries := new Policy[MAX_VNPU_PER_DIE](_ => Policy(0, 0, false));
      used := 0;
      parentBit := true;
    }

    /** `npu_tree_mark_vnpu_occupied`; refuses an id that is not free. */
    method MarkVnpuOccupied(id: nat) returns (ok: bool)
      requires Valid() && id < MASK_BITS
      modifies this`free, this`parentBit
      ensures Valid()
      ensures ok <==> id in old(free)
      ensures View() == if ok then Occupy(old(View()), id) else old(View())
      ensures parentBit == (!ok && old(parentBit))
    {
      ok := id in free;
      if ok {
        free := free - {id};
        parentBit := false;
      }
    }

    /** `npu_tree_mark_vnpu_free`; an id that is free already leaves the parent alone. */
    method MarkVnpuFree(id: nat)
      requires Valid() && id < MASK_BITS
      modifies this`free, this`parentBit
      ensures Valid() && View() == Vacate(old(View()), id)
      ensures parentBit == (id !in old(free) || old(parentBit))
    {
      if id !in free {
        free := free + {id};
        parentBit := true;
      }
      assert id in old(free) ==> old(free) + {id} == old(free);
    }

    /** `npu_tree_update_quota`. */
    method UpdateQuota(aicoreDelta: int, hbmDelta: int)
      requires Valid()
      modifies this`aicore, this`hbm
      ensures Valid() && View() == AddQuota(old(View()), aicoreDelta, hbmDelta)
    {
      aicore := aicore + aicoreDelta;
      hbm := hbm + hbmDelta;
    }

    /** `npu_tree_attach_policy`. */
    method AttachPolicy(p: Policy)
      requires Valid()
      modifies this`used, this`count, entries
      ensures Valid() && View() == Attach(old(View()), p)
    {
      if used < MAX_VNPU_PER_DIE {
        entries[used] := p;
        used := used + 1;
        count := count + 1;
        assert entries[..used] == old(entries[..used]) + [p];
      }
    }

    method IndexOf(id: nat) returns (i: nat)
      requires Valid()
      ensures i == Find(View().policies, id)
    {
      i := 0;
      while i < used && entries[i].id != id
        invariant i <= used
        invariant forall j :: 0 <= j < i ==> entries[j].id != id
      {
        i := i + 1;
      }
      assert forall j :: 0 <= j < used ==> entries[..used][j] == entries[j];
    }

    /** Moves the entries behind `at` down by one. */
    method ShiftDown(at: nat, n: nat)
      requires at < n <= entries.Length
      modifies entries
      ensures entries[..n - 1] == Without(old(entries[..n]), at)
    {
      ghost var was := entries[..n];
      ghost var rest := Without(was, at);
      for i := at to n - 1
        invariant forall j :: 0 <= j < i ==> entries[j] == rest[j]
        invariant forall j :: i <= j < n ==> entries[j] == was[j]
      {
        assert rest[i] == was[i + 1] == entries[i + 1];
        entries[i] := entries[i + 1];
      }
      assert entries[..n - 1] == rest;
    }

    /** `npu_tree_detach_policy`. */
    method DetachPolicy(id: nat)
      requires Valid()
      modifies this`used, this`count, entries
      ensures Valid() && View() == Detach(old(View()), id)
    {
      ghost var ps := entries[..used];
      var at := IndexOf(id);
      assert at == Find(ps, id);
      if at < used {
        ShiftDown(at, used);
        used := used - 1;
        count := count - 1;
        assert entries[..used] == Without(ps, at);
      }
    }

    /** `npu_tree_get_available_vnpu_id`: scans from 0; since the mask has 64 bits the
        scan stops below 64 whenever the mask is not empty. */
    method AvailableVnpuId() returns (c: Choice)
      requires Valid()
      ensures IsLeastFree(free, c)
      ensures c.Id? ==> c.id < MASK_BITS
    {
      if free == {} {
        return NoId;
      }
      for i := 0 to MASK_BITS
        invariant forall j :: j in free ==> i <= j
      {
        if i in free {
          return Id(i);
        }
      }
      c := NoId;
      if j :| j in free {
        assert false;
      }
    }

    /** `npu_node_validate_policy`. */
    method ValidatePolicy(policy: int) returns (ok: bool)
      requires Valid()
      ensures ok <==> Compatible(View(), policy)
    {
      for i := 0 to used
        invariant forall j :: 0 <= j < i ==> entries[j].high || entries[j].policy == policy
      {
        if !entries[i].high && entries[i].policy != policy {
          assert entries[i] in entries[..used];
          return false;
        }
      }
      ok := true;
    }
  }
}
