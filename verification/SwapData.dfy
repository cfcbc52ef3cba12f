/**
 Moving a process's device memory out to the host swap buffer and back
 (`vcann-rt/src/swap_executor.c`, `vcann-rt/src/swap_hook.c`).

 Device calls are abstract: for each record of a swap-out an `Outcome` says how far the
 calls got.  Swap-in is modelled for the case that its device calls succeed.
 */
module SwapData {
  import opened Arithmetic

  type Byte = b: int | 0 <= b < 256

  /** `memory_record_t`; a zero `ptr` is NULL. */
  datatype Record = Record(ptr: nat, size: nat, handle: nat, swapped: bool, physical: bool, offset: nat)

  /** The tracked records, the memory mapped on the device by pointer, and the buffer. */
  datatype Mem = Mem(records: seq<Record>, device: map<nat, seq<Byte>>, buffer: seq<Byte>)

  /** How the device calls for one record ended: before the copy, after it (leaving the
      memory mapped or not), or all well. */
  datatype Outcome = CopyFails | LateFails(unmapped: bool) | Moved

  // ---------------------------------------------------------------------------
  // Allocation granularity
  // ---------------------------------------------------------------------------

  function Align(size: nat, g: nat): nat
    requires g > 0
  {
    ((size + g - 1) / g) * g
  }

  /** Rounding up leaves exactly the multiples of the granularity unchanged. */
  lemma AlignFixedIff(size: nat, g: nat)
    requires g > 0
    ensures Align(size, g) == size <==> size % g == 0
  {
    var q, r := size / g, size % g;
    assert size == q * g + r;
    if r == 0 {
      DivUnique(size + g - 1, g, q, g - 1);
    } else {
      assert size + g - 1 == (q + 1) * g + (r - 1);
      DivUnique(size + g - 1, g, q + 1, r - 1);
      assert (q + 1) * g == q * g + g;
    }
  }

  lemma AlignIsMultiple(size: nat, g: nat)
    requires g > 0
    ensures Align(size, g) % g == 0 && Align(Align(size, g), g) == Align(size, g) && Align(size, g) >= size
  {
    var k := (size + g - 1) / g;
    DivUnique(k * g, g, k, 0);
    assert k * g == ((k * g) / g) * g + (k * g) % g;
    AlignFixedIff(k * g, g);
    assert size + g - 1 == k * g + (size + g - 1) % g;
  }

  lemma AlignIsLeast(size: nat, g: nat)
    requires g > 0
    ensures Align(size, g) < size + g
  {
    var k, r := Divide(size + g - 1, g);
    DivUnique(size + g - 1, g, k, r);
  }

  // ---------------------------------------------------------------------------
  // Swap-out
  // ---------------------------------------------------------------------------

  datatype Pass = Pass(mem: Mem, cur: nat)

  function Overwrite(buffer: seq<Byte>, at: nat, bytes: seq<Byte>): (r: seq<Byte>)
    requires at + |bytes| <= |buffer|
    ensures |r| == |buffer|
  {
    buffer[..at] + bytes + buffer[at + |bytes|..]
  }

  /** The copy of record `i` can be carried out. */
  predicate CanCopy(p: Pass, i: nat) {
    && i < |p.mem.records|
    && var r := p.mem.records[i];
       r.ptr in p.mem.device && |p.mem.device[r.ptr]| == r.size && p.cur + r.size <= |p.mem.buffer|
  }

  predicate Skips(r: Record) { r.ptr == 0 || r.swapped }

  /** One turn of the loop of `swap_executor_swap_out`; a copy that cannot be carried
      out fails. */
  function OutOne(p: Pass, i: nat, o: Outcome): Pass
    requires i < |p.mem.records|
  {
    var r := p.mem.records[i];
    if Skips(r) || o.CopyFails? || !CanCopy(p, i) then p else
      var copied := p.mem.(buffer := Overwrite(p.mem.buffer, p.cur, p.mem.device[r.ptr]));
      if o.LateFails? then
        p.(mem := if o.unmapped then copied.(device := copied.device - {r.ptr}) else copied)
      else
        Pass(copied.(device := copied.device - {r.ptr},
                     records := copied.records[i := r.(swapped := true, offset := p.cur)]),
             p.cur + r.size)
  }

  predicate OutReady(m: Mem, os: seq<Outcome>, at: nat) {
    && |os| == |m.records|
    && DistinctPtrs(m.records)
    && (forall i :: 0 <= i < |m.records| && !Skips(m.records[i]) && !os[i].CopyFails? ==>
          m.records[i].ptr in m.device && |m.device[m.records[i].ptr]| == m.records[i].size)
    && at + TotalSize(m.records, |m.records|) <= |m.buffer|
  }

  predicate DistinctPtrs(rs: seq<Record>) {
    forall i, j :: 0 <= i < j < |rs| ==> rs[i].ptr != rs[j].ptr
  }

  function TotalSize(rs: seq<Record>, k: nat): nat
    requires k <= |rs|
  {
    if k == 0 then 0 else TotalSize(rs, k - 1) + rs[k - 1].size
  }

  /** Bytes of the swapped-out records among the first `k`. */
  function SwappedSize(rs: seq<Record>, k: nat): nat
    requires k <= |rs|
  {
    if k == 0 then 0 else SwappedSize(rs, k - 1) + (if rs[k - 1].swapped then rs[k - 1].size else 0)
  }

  lemma {:induction false} SwappedSizeFrame(a: seq<Record>, b: seq<Record>, k: nat)
    requires k <= |a| && k <= |b| && a[..k] == b[..k]
    ensures SwappedSize(a, k) == SwappedSize(b, k)
  {
    if k > 0 {
      assert a[..k - 1] == a[..k][..k - 1] == b[..k][..k - 1] == b[..k - 1];
      assert a[k - 1] == a[..k][k - 1] == b[..k][k - 1] == b[k - 1];
      SwappedSizeFrame(a, b, k - 1);
    }
  }

  lemma {:induction false} SwappedSizeMonotone(rs: seq<Record>, i: nat, j: nat)
    requires i < j <= |rs|
    ensures SwappedSize(rs, i) + (if rs[i].swapped then rs[i].size else 0) <= SwappedSize(rs, j)
  {
    if i + 1 < j {
      SwappedSizeMonotone(rs, i, j - 1);
    }
  }

  /** Where record `i` stands after the pass has gone over it. */
  predicate Placed(m0: Mem, p: Pass, at: nat, i: nat)
    requires i < |m0.records| == |p.mem.records|
  {
    var r0, r := m0.records[i], p.mem.records[i];
    r == r0 ||
    (&& !Skips(r0)
     && r == r0.(swapped := true, offset := at + SwappedSize(p.mem.records, i))
     && r0.ptr in m0.device && r0.ptr !in p.mem.device
     && |m0.device[r0.ptr]| == r0.size
     && r.offset + r.size <= p.cur <= |p.mem.buffer|
     && p.mem.buffer[r.offset..r.offset + r.size] == m0.device[r0.ptr])
  }

  /** What holds after the first `k` records, none of which was swapped before. */
  predicate OutInv(m0: Mem, p: Pass, at: nat, k: nat) {
    && k <= |m0.records| == |p.mem.records|
    && |p.mem.buffer| == |m0.buffer|
    && (forall i :: 0 <= i < k ==> Placed(m0, p, at, i))
    && (forall i :: k <= i < |m0.records| ==> p.mem.records[i] == m0.records[i])
    && (forall q :: q in p.mem.device ==> q in m0.device && p.mem.device[q] == m0.device[q])
    && (forall i :: k <= i < |m0.records| && m0.records[i].ptr in m0.device ==> m0.records[i].ptr in p.mem.device)
    && p.cur == at + SwappedSize(p.mem.records, k)
    && p.cur <= at + TotalSize(m0.records, k)
  }

  predicate NoneSwapped(rs: seq<Record>) {
    forall i :: 0 <= i < |rs| ==> !rs[i].swapped
  }

  lemma {:induction false} TotalSizeMonotone(rs: seq<Record>, i: nat, j: nat)
    requires i <= j <= |rs|
    ensures TotalSize(rs, i) <= TotalSize(rs, j)
  {
    if i < j {
      TotalSizeMonotone(rs, i, j - 1);
    }
  }

  lemma OutOneReady(m0: Mem, os: seq<Outcome>, at: nat, p: Pass, k: nat)
    requires OutReady(m0, os, at) && OutInv(m0, p, at, k) && k < |os|
    ensures Skips(p.mem.records[k]) || os[k].CopyFails? || CanCopy(p, k)
  {
    TotalSizeMonotone(m0.records, k + 1, |m0.records|);
  }

  lemma OverwriteOutside(buffer: seq<Byte>, at: nat, bytes: seq<Byte>, lo: nat, hi: nat)
    requires at + |bytes| <= |buffer| && lo <= hi <= at
    ensures Overwrite(buffer, at, bytes)[lo..hi] == buffer[lo..hi]
    ensures Overwrite(buffer, at, bytes)[at..at + |bytes|] == bytes
  {
  }

  /** A turn writes to the buffer from `p.cur` on and changes at most its own record. */
  lemma OutOneFrame(p: Pass, k: nat, o: Outcome, lo: nat, hi: nat)
    requires k < |p.mem.records| && lo <= hi <= p.cur <= |p.mem.buffer|
    ensures var m := OutOne(p, k, o).mem;
            && |m.buffer| == |p.mem.buffer| && m.buffer[lo..hi] == p.mem.buffer[lo..hi]
            && m.records[..k] == p.mem.records[..k]
            && (forall q :: q in m.device ==> q in p.mem.device && m.device[q] == p.mem.device[q])
            && p.cur <= OutOne(p, k, o).cur <= |m.buffer|
  {
    if !Skips(p.mem.records[k]) && !o.CopyFails? && CanCopy(p, k) {
      OverwriteOutside(p.mem.buffer, p.cur, p.mem.device[p.mem.records[k].ptr], lo, hi);
    }
  }

  /** Records placed earlier lie below `p.cur` and are not touched by the next turn. */
  lemma PlacedStays(m0: Mem, at: nat, p: Pass, k: nat, o: Outcome, i: nat)
    requires OutInv(m0, p, at, k) && i < k < |m0.records| && p.cur <= |p.mem.buffer|
    ensures Placed(m0, OutOne(p, k, o), at, i)
  {
    var rs, rs' := p.mem.records, OutOne(p, k, o).mem.records;
    assert Placed(m0, p, at, i);
    OutOneFrame(p, k, o, 0, 0);
    assert rs'[i] == rs'[..k][i] == rs[..k][i] == rs[i];
    assert rs'[..i] == rs'[..k][..i] == rs[..k][..i] == rs[..i];
    SwappedSizeFrame(rs', rs, i);
    if rs[i] != m0.records[i] {
      OutOneFrame(p, k, o, rs[i].offset, rs[i].offset + rs[i].size);
    }
  }

  lemma MovedIsPlaced(m0: Mem, os: seq<Outcome>, at: nat, p: Pass, k: nat)
    requires OutReady(m0, os, at) && NoneSwapped(m0.records) && OutInv(m0, p, at, k) && k < |os|
    requires !Skips(p.mem.records[k]) && os[k].Moved? && CanCopy(p, k)
    ensures Placed(m0, OutOne(p, k, os[k]), at, k)
  {
    var p' := OutOne(p, k, os[k]);
    var rs, rs' := p.mem.records, p'.mem.records;
    assert rs'[..k] == rs[..k];
    SwappedSizeFrame(rs', rs, k);
    OverwriteOutside(p.mem.buffer, p.cur, p.mem.device[rs[k].ptr], 0, 0);
  }

  lemma OutOneKeeps(m0: Mem, os: seq<Outcome>, at: nat, p: Pass, k: nat)
    requires OutReady(m0, os, at) && NoneSwapped(m0.records) && OutInv(m0, p, at, k) && k < |os|
    ensures OutInv(m0, OutOne(p, k, os[k]), at, k + 1)
  {
    var p' := OutOne(p, k, os[k]);
    TotalSizeMonotone(m0.records, k, |m0.records|);
    forall i | 0 <= i < k
      ensures Placed(m0, p', at, i)
    {
      PlacedStays(m0, at, p, k, os[k], i);
    }
    if !Skips(p.mem.records[k]) && os[k].Moved? && CanCopy(p, k) {
      MovedIsPlaced(m0, os, at, p, k);
    }
    assert p'.mem.records[..k] == p.mem.records[..k];
    SwappedSizeFrame(p'.mem.records, p.mem.records, k);
    assert forall i :: k < i < |m0.records| ==> m0.records[i].ptr != m0.records[k].ptr;
  }

  predicate PassReady(m: Mem, os: seq<Outcome>, at: nat) {
    OutReady(m, os, at) && NoneSwapped(m.records)
  }

  /** The first `k` turns of the loop. */
  function OutPass(m: Mem, os: seq<Outcome>, at: nat, k: nat): (p: Pass)
    requires k <= |os| == |m.records|
    ensures |p.mem.records| == |m.records|
  {
    if k == 0 then Pass(m, at) else OutOne(OutPass(m, os, at, k - 1), k - 1, os[k - 1])
  }

  function SwapOut(m: Mem, os: seq<Outcome>, at: nat): Pass
    requires |os| == |m.records|
  {
    OutPass(m, os, at, |os|)
  }

  lemma {:induction false} OutPassInv(m: Mem, os: seq<Outcome>, at: nat, k: nat)
    requires PassReady(m, os, at) && k <= |os|
    ensures OutInv(m, OutPass(m, os, at, k), at, k)
  {
    if k > 0 {
      OutPassInv(m, os, at, k - 1);
      OutOneKeeps(m, os, at, OutPass(m, os, at, k - 1), k - 1);
    }
  }

  /** Swapped records sit back to back from the start offset, whatever failed in
      between, so their ranges are disjoint; and the reported amount is their total. */
  lemma SwapOutLayout(m: Mem, os: seq<Outcome>, at: nat)
    requires PassReady(m, os, at)
    ensures var p := SwapOut(m, os, at);
            var rs := p.mem.records;
            && |rs| == |m.records|
            && p.cur - at == SwappedSize(rs, |rs|)
            && (forall i :: 0 <= i < |rs| && rs[i].swapped ==>
                  && rs[i].offset == at + SwappedSize(rs, i)
                  && rs[i].offset + rs[i].size <= p.cur <= |p.mem.buffer|
                  && m.records[i].ptr in m.device
                  && p.mem.buffer[rs[i].offset..rs[i].offset + rs[i].size] == m.device[m.records[i].ptr])
            && (forall i, j :: 0 <= i < j < |rs| && rs[i].swapped && rs[j].swapped ==>
                  rs[i].offset + rs[i].size <= rs[j].offset)
  {
    OutPassInv(m, os, at, |os|);
    var p := SwapOut(m, os, at);
    var rs := p.mem.records;
    forall i | 0 <= i < |rs| && rs[i].swapped
      ensures rs[i].offset == at + SwappedSize(rs, i) && Placed(m, p, at, i)
    {
      assert Placed(m, p, at, i);
    }
    forall i, j | 0 <= i < j < |rs| && rs[i].swapped && rs[j].swapped
      ensures rs[i].offset + rs[i].size <= rs[j].offset
    {
      assert Placed(m, p, at, i) && Placed(m, p, at, j);
      SwappedSizeMonotone(rs, i, j);
    }
  }

  predicate Leaves(r: Record, o: Outcome) { r.ptr != 0 && (o.Moved? || (o.LateFails? && o.unmapped)) }

  /** Pointers of the first `k` records that a pass takes off the device. */
  function LeftPtrs(rs: seq<Record>, os: seq<Outcome>, k: nat): set<nat>
    requires k <= |rs| == |os|
  {
    if k == 0 then {} else
      LeftPtrs(rs, os, k - 1) + (if Leaves(rs[k - 1], os[k - 1]) then {rs[k - 1].ptr} else {})
  }

  /** The pass marks exactly the records, tracked or physical, whose calls all succeeded. */
  lemma {:induction false} SwapOutMarks(m: Mem, os: seq<Outcome>, at: nat, k: nat, i: nat)
    requires PassReady(m, os, at) && i < k <= |os|
    ensures OutPass(m, os, at, k).mem.records[i].swapped <==> m.records[i].ptr != 0 && os[i].Moved?
  {
    OutPassInv(m, os, at, k - 1);
    if i < k - 1 {
      SwapOutMarks(m, os, at, k - 1, i);
    } else {
      OutOneReady(m, os, at, OutPass(m, os, at, k - 1), k - 1);
    }
  }

  /** Bytes of the first `k` records that have a pointer and whose calls all succeed. */
  function MovedBytes(rs: seq<Record>, os: seq<Outcome>, k: nat): nat
    requires k <= |rs| == |os|
  {
    if k == 0 then 0 else
      MovedBytes(rs, os, k - 1) + (if rs[k - 1].ptr != 0 && os[k - 1].Moved? then rs[k - 1].size else 0)
  }

  lemma {:induction false} SwappedIsMoved(m: Mem, os: seq<Outcome>, at: nat, k: nat)
    requires PassReady(m, os, at) && k <= |os|
    ensures SwappedSize(SwapOut(m, os, at).mem.records, k) == MovedBytes(m.records, os, k)
  {
    if k > 0 {
      SwappedIsMoved(m, os, at, k - 1);
      SwapOutMarks(m, os, at, |os|, k - 1);
      OutPassInv(m, os, at, |os|);
      assert Placed(m, SwapOut(m, os, at), at, k - 1);
    }
  }

  /** The reported amount is the bytes of exactly those records. */
  lemma SwapOutReports(m: Mem, os: seq<Outcome>, at: nat)
    requires PassReady(m, os, at)
    ensures SwapOut(m, os, at).cur - at == MovedBytes(m.records, os, |os|)
  {
    SwapOutLayout(m, os, at);
    SwappedIsMoved(m, os, at, |os|);
  }

  /** Without any condition on the rest: a record that is swapped out already, or has no
      pointer, stays as it is. */
  lemma {:induction false} SkippedStays(m: Mem, os: seq<Outcome>, at: nat, k: nat, i: nat)
    requires i < |m.records| == |os| && k <= |os| && (m.records[i].swapped || m.records[i].ptr == 0)
    ensures OutPass(m, os, at, k).mem.records[i] == m.records[i]
  {
    if k > 0 {
      SkippedStays(m, os, at, k - 1, i);
    }
  }

  lemma OneTurnUnmaps(p: Pass, k: nat, o: Outcome, r: Record)
    requires k < |p.mem.records| && p.mem.records[k] == r && !r.swapped
    requires r.ptr == 0 || o.CopyFails? || CanCopy(p, k)
    ensures OutOne(p, k, o).mem.device == p.mem.device - (if Leaves(r, o) then {r.ptr} else {})
  {
  }

  lemma RemoveTwice(d: map<nat, seq<Byte>>, a: set<nat>, b: set<nat>)
    ensures d - a - b == d - (a + b)
  {
  }

  /** The pass takes off the device exactly the memory of those records and of the ones
      whose calls failed after unmapping. */
  lemma {:induction false} SwapOutUnmaps(m: Mem, os: seq<Outcome>, at: nat, k: nat)
    requires PassReady(m, os, at) && k <= |os|
    ensures OutPass(m, os, at, k).mem.device == m.device - LeftPtrs(m.records, os, k)
  {
    if k > 0 {
      var p := OutPass(m, os, at, k - 1);
      SwapOutUnmaps(m, os, at, k - 1);
      OutPassInv(m, os, at, k - 1);
      OutOneReady(m, os, at, p, k - 1);
      var r, o := m.records[k - 1], os[k - 1];
      OneTurnUnmaps(p, k - 1, o, r);
      RemoveTwice(m.device, LeftPtrs(m.records, os, k - 1), if Leaves(r, o) then {r.ptr} else {});
    }
  }

  // ---------------------------------------------------------------------------
  // Swap-in
  // ---------------------------------------------------------------------------

  /** The size a record is restored with: physical records as recorded, others rounded
      up to the allocation granularity. */
  function InSize(r: Record, g: nat): nat
    requires g > 0
  {
    if r.physical then r.size else Align(r.size, g)
  }

  predicate InBounds(m: Mem, g: nat, r: Record)
    requires g > 0
  {
    r.offset + InSize(r, g) <= |m.buffer|
  }

  function Restored(r: Record, g: nat, h: nat): Record
    requires g > 0
  {
    if r.swapped then r.(size := InSize(r, g), handle := h, swapped := false, offset := 0) else r
  }

  function BytesOf(m: Mem, g: nat, r: Record): seq<Byte>
    requires g > 0 && InBounds(m, g, r)
  {
    m.buffer[r.offset..r.offset + InSize(r, g)]
  }

  /** One turn of the loop of `swap_hook_check_and_swap_in`, its device calls succeeding. */
  function InOne(m: Mem, g: nat, i: nat, h: nat): Mem
    requires g > 0 && i < |m.records|
    requires m.records[i].swapped ==> InBounds(m, g, m.records[i])
  {
    var r := m.records[i];
    if !r.swapped then m else
      m.(device := m.device[r.ptr := BytesOf(m, g, r)], records := m.records[i := Restored(r, g, h)])
  }

  predicate InReady(m: Mem, g: nat, hs: seq<nat>) {
    && g > 0 && |hs| == |m.records|
    && forall i :: 0 <= i < |m.records| && m.records[i].swapped ==> InBounds(m, g, m.records[i])
  }

  /** What the first `k` turns of the loop have changed, one record at a time. */
  predicate InDone(m0: Mem, m: Mem, g: nat, hs: seq<nat>, k: nat)
    requires InReady(m0, g, hs)
  {
    && k <= |m0.records| == |m.records|
    && m.buffer == m0.buffer
    && forall i :: 0 <= i < |m0.records| ==>
         m.records[i] == if i < k then Restored(m0.records[i], g, hs[i]) else m0.records[i]
  }

  function InPass(m: Mem, g: nat, hs: seq<nat>, k: nat): (r: Mem)
    requires InReady(m, g, hs) && k <= |hs|
    ensures InDone(m, r, g, hs, k)
  {
    if k == 0 then m else InOne(InPass(m, g, hs, k - 1), g, k - 1, hs[k - 1])
  }

  function SwapInAll(m: Mem, g: nat, hs: seq<nat>): Mem
    requires InReady(m, g, hs)
  {
    InPass(m, g, hs, |hs|)
  }

  function SwappedPtrs(rs: seq<Record>, k: nat): set<nat>
    requires k <= |rs|
  {
    if k == 0 then {} else SwappedPtrs(rs, k - 1) + (if rs[k - 1].swapped then {rs[k - 1].ptr} else {})
  }

  lemma {:induction false} SwappedPtrsHas(rs: seq<Record>, k: nat, i: nat)
    requires i < k <= |rs| && rs[i].swapped
    ensures rs[i].ptr in SwappedPtrs(rs, k)
  {
    if i < k - 1 {
      SwappedPtrsHas(rs, k - 1, i);
    }
  }

  lemma {:induction false} SwappedPtrsAt(rs: seq<Record>, k: nat, q: nat) returns (i: nat)
    requires k <= |rs| && q in SwappedPtrs(rs, k)
    ensures i < k && rs[i].swapped && rs[i].ptr == q
  {
    if rs[k - 1].swapped && rs[k - 1].ptr == q {
      i := k - 1;
    } else {
      i := SwappedPtrsAt(rs, k - 1, q);
    }
  }

  /** Swap-in maps exactly the swapped pointers back and touches no other memory. */
  lemma {:induction false} SwapInMaps(m: Mem, g: nat, hs: seq<nat>, k: nat)
    requires InReady(m, g, hs) && k <= |hs|
    ensures var d := InPass(m, g, hs, k).device;
            && d.Keys == m.device.Keys + SwappedPtrs(m.records, k)
            && (forall q :: q in m.device && q !in SwappedPtrs(m.records, k) ==> d[q] == m.device[q])
  {
    if k > 0 {
      SwapInMaps(m, g, hs, k - 1);
      assert InPass(m, g, hs, k - 1).records[k - 1] == m.records[k - 1];
    }
  }

  /** Swap-in gives each swapped record the bytes of its own range of the buffer. */
  lemma {:induction false} SwapInBytes(m: Mem, g: nat, hs: seq<nat>, k: nat, i: nat)
    requires InReady(m, g, hs) && DistinctPtrs(m.records) && i < k <= |hs| && m.records[i].swapped
    ensures var d := InPass(m, g, hs, k).device;
            m.records[i].ptr in d && d[m.records[i].ptr] == BytesOf(m, g, m.records[i])
  {
    assert InPass(m, g, hs, k - 1).records[k - 1] == m.records[k - 1];
    if i < k - 1 {
      SwapInBytes(m, g, hs, k - 1, i);
      assert m.records[i].ptr != m.records[k - 1].ptr;
    }
  }

  /** Each restored record has the size of the memory it gets: as recorded for physical
      memory, else the next multiple of the granularity. */
  lemma SwapInSizes(m: Mem, g: nat, hs: seq<nat>, i: nat)
    requires InReady(m, g, hs) && DistinctPtrs(m.records) && i < |hs| && m.records[i].swapped
    ensures var r, m' := m.records[i], SwapInAll(m, g, hs);
            && r.ptr in m'.device && |m'.device[r.ptr]| == m'.records[i].size
            && r.size <= m'.records[i].size < r.size + g
            && (if r.physical then m'.records[i].size == r.size else m'.records[i].size % g == 0)
            && !m'.records[i].swapped && m'.records[i].handle == hs[i]
  {
    SwapInBytes(m, g, hs, |hs|, i);
    AlignIsMultiple(m.records[i].size, g);
    AlignIsLeast(m.records[i].size, g);
  }

  // ---------------------------------------------------------------------------
  // Round trip
  // ---------------------------------------------------------------------------

  predicate SizesAligned(rs: seq<Record>, g: nat)
    requires g > 0
  {
    forall i :: 0 <= i < |rs| && !rs[i].physical ==> rs[i].size % g == 0
  }

  lemma SwapOutLeavesReady(m: Mem, os: seq<Outcome>, at: nat, g: nat, hs: seq<nat>)
    requires PassReady(m, os, at) && g > 0 && SizesAligned(m.records, g) && |hs| == |m.records|
    ensures InReady(SwapOut(m, os, at).mem, g, hs) && DistinctPtrs(SwapOut(m, os, at).mem.records)
    ensures forall i :: 0 <= i < |m.records| && SwapOut(m, os, at).mem.records[i].swapped ==>
              var r := SwapOut(m, os, at).mem.records[i];
              && r == m.records[i].(swapped := true, offset := r.offset)
              && m.records[i].ptr in m.device
              && InSize(r, g) == r.size
              && BytesOf(SwapOut(m, os, at).mem, g, r) == m.device[m.records[i].ptr]
  {
    OutPassInv(m, os, at, |os|);
    var p := SwapOut(m, os, at);
    forall i | 0 <= i < |p.mem.records|
      ensures p.mem.records[i].ptr == m.records[i].ptr
      ensures p.mem.records[i].swapped ==>
                && p.mem.records[i] == m.records[i].(swapped := true, offset := p.mem.records[i].offset)
                && m.records[i].ptr in m.device
                && InSize(p.mem.records[i], g) == p.mem.records[i].size
                && InBounds(p.mem, g, p.mem.records[i])
                && BytesOf(p.mem, g, p.mem.records[i]) == m.device[m.records[i].ptr]
    {
      assert Placed(m, p, at, i);
      AlignFixedIff(m.records[i].size, g);
    }
  }

  /** Out and back, the records: all as before, with new handles for those moved. */
  lemma RecordsRoundTrip(m: Mem, os: seq<Outcome>, at: nat, g: nat, hs: seq<nat>)
    requires PassReady(m, os, at) && g > 0 && SizesAligned(m.records, g) && |hs| == |m.records|
    ensures InReady(SwapOut(m, os, at).mem, g, hs)
    ensures var back := SwapInAll(SwapOut(m, os, at).mem, g, hs).records;
            && |back| == |m.records|
            && forall i :: 0 <= i < |m.records| ==>
                 back[i] == if m.records[i].ptr != 0 && os[i].Moved?
                            then m.records[i].(handle := hs[i], offset := 0) else m.records[i]
  {
    SwapOutLeavesReady(m, os, at, g, hs);
    OutPassInv(m, os, at, |os|);
    var p := SwapOut(m, os, at);
    var back := SwapInAll(p.mem, g, hs);
    forall i | 0 <= i < |m.records|
      ensures back.records[i] == if m.records[i].ptr != 0 && os[i].Moved?
                                 then m.records[i].(handle := hs[i], offset := 0) else m.records[i]
    {
      assert back.records[i] == Restored(p.mem.records[i], g, hs[i]);
      assert Placed(m, p, at, i);
      SwapOutMarks(m, os, at, |os|, i);
    }
  }

  /** Out and back, the bytes: whatever failed on the way out, the device holds again
      exactly what it held, except what a failed free had already unmapped. */
  lemma BytesRoundTrip(m: Mem, os: seq<Outcome>, at: nat, g: nat, hs: seq<nat>)
    requires PassReady(m, os, at) && g > 0 && SizesAligned(m.records, g) && |hs| == |m.records|
    ensures InReady(SwapOut(m, os, at).mem, g, hs)
    ensures SwapInAll(SwapOut(m, os, at).mem, g, hs).device == m.device - LostPtrs(m.records, os)
  {
    SwapOutLeavesReady(m, os, at, g, hs);
    SwapOutUnmaps(m, os, at, |os|);
    var p := SwapOut(m, os, at).mem;
    SwapInMaps(p, g, hs, |hs|);
    var d := SwapInAll(p, g, hs).device;
    var want := m.device - LostPtrs(m.records, os);
    forall q | q in d
      ensures q in want && d[q] == m.device[q]
    {
      if q in SwappedPtrs(p.records, |hs|) {
        var i := SwappedPtrsAt(p.records, |hs|, q);
        assert p.records[i] == m.records[i].(swapped := true, offset := p.records[i].offset);
        SwapOutMarks(m, os, at, |os|, i);
        SwapInBytes(p, g, hs, |hs|, i);
      } else {
        StillMapped(m.records, os, q);
      }
    }
    forall q | q in want
      ensures q in d
    {
      if q !in p.device {
        var i := LeftAt(m.records, os, |os|, q);
        SwapOutMarks(m, os, at, |os|, i);
        assert p.records[i].swapped && p.records[i].ptr == q;
        SwappedPtrsHas(p.records, |hs|, i);
      }
    }
  }

  /** Pointers whose memory a pass unmapped without marking their record swapped. */
  function LostPtrs(rs: seq<Record>, os: seq<Outcome>): set<nat>
    requires |rs| == |os|
  {
    set i | 0 <= i < |rs| && rs[i].ptr != 0 && os[i] == LateFails(true) :: rs[i].ptr
  }

  lemma {:induction false} LeftAt(rs: seq<Record>, os: seq<Outcome>, k: nat, q: nat) returns (i: nat)
    requires k <= |rs| == |os| && q in LeftPtrs(rs, os, k) && q !in LostPtrs(rs, os)
    ensures i < k && rs[i].ptr != 0 && os[i].Moved? && rs[i].ptr == q
  {
    if Leaves(rs[k - 1], os[k - 1]) && rs[k - 1].ptr == q {
      i := k - 1;
    } else {
      i := LeftAt(rs, os, k - 1, q);
    }
  }

  lemma {:induction false} LeftHas(rs: seq<Record>, os: seq<Outcome>, k: nat, i: nat)
    requires i < k <= |rs| == |os| && Leaves(rs[i], os[i])
    ensures rs[i].ptr in LeftPtrs(rs, os, k)
  {
    if i < k - 1 {
      LeftHas(rs, os, k - 1, i);
    }
  }

  lemma StillMapped(rs: seq<Record>, os: seq<Outcome>, q: nat)
    requires |rs| == |os| && q !in LeftPtrs(rs, os, |os|)
    ensures q !in LostPtrs(rs, os)
  {
    if q in LostPtrs(rs, os) {
      var i :| 0 <= i < |rs| && rs[i].ptr != 0 && os[i] == LateFails(true) && rs[i].ptr == q;
      LeftHas(rs, os, |os|, i);
    }
  }

  // ---------------------------------------------------------------------------
  // The executor, in place
  // ---------------------------------------------------------------------------

  /** The records of the tracker, the device and the swap buffer as the executor changes
      them. */
  class Executor {
    var records: seq<Record>
    var device: map<nat, seq<Byte>>
    const buffer: array<Byte>

    constructor (records: seq<Record>, device: map<nat, seq<Byte>>, buffer: array<Byte>)
      ensures this.records == records && this.device == device && this.buffer == buffer
    {
      this.records := records;
      this.device := device;
      this.buffer := buffer;
    }

    ghost function View(): Mem
      reads this, buffer
    {
      Mem(records, device, buffer[..])
    }

    method CopyToHost(at: nat, bytes: seq<Byte>)
      requires at + |bytes| <= buffer.Length
      modifies buffer
      ensures buffer[..] == Overwrite(old(buffer[..]), at, bytes)
    {
      for i := 0 to |bytes|
        invariant buffer[..at] == old(buffer[..at])
        invariant buffer[at..at + i] == bytes[..i]
        invariant buffer[at + i..] == old(buffer[at + i..])
      {
        buffer[at + i] := bytes[i];
      }
      assert buffer[..] == buffer[..at] + buffer[at..at + |bytes|] + buffer[at + |bytes|..];
    }

    method SwapOutOne(i: nat, o: Outcome, cur: nat) returns (next: nat)
      requires i < |records|
      modifies this, buffer
      ensures Pass(View(), next) == OutOne(Pass(old(View()), cur), i, o)
    {
      next := cur;
      var r := records[i];
      if r.ptr == 0 || r.swapped || o.CopyFails? {
        return;
      }
      if r.ptr !in device || |device[r.ptr]| != r.size || cur + r.size > buffer.Length {
        return;
      }
      CopyToHost(cur, device[r.ptr]);
      if o.Moved? || o.unmapped {
        device := device - {r.ptr};
      }
      if o.Moved? {
        records := records[i := r.(swapped := true, offset := cur)];
        next := cur + r.size;
      }
    }

    /** `swap_executor_swap_out`. */
    method SwapOutRecords(os: seq<Outcome>, at: nat) returns (actSwapped: nat)
      requires |os| == |records|
      modifies this, buffer
      ensures View() == SwapOut(old(View()), os, at).mem
      ensures at + actSwapped == SwapOut(old(View()), os, at).cur
    {
      var cur := at;
      for i := 0 to |os|
        invariant |records| == |os|
        invariant at <= cur
        invariant Pass(View(), cur) == OutPass(old(View()), os, at, i)
      {
        cur := SwapOutOne(i, os[i], cur);
      }
      actSwapped := cur - at;
    }

    /** The restore loop of `swap_hook_check_and_swap_in`. */
    method SwapInRecords(g: nat, hs: seq<nat>)
      requires InReady(View(), g, hs)
      modifies this
      ensures View() == SwapInAll(old(View()), g, hs)
    {
      for i := 0 to |hs|
        invariant |records| == |hs|
        invariant View() == InPass(old(View()), g, hs, i)
      {
        var r := records[i];
        assert r == old(records)[i];
        if r.swapped {
          var size := InSize(r, g);
          device := device[r.ptr := buffer[r.offset..r.offset + size]];
          records := records[i := r.(size := size, handle := hs[i], swapped := false, offset := 0)];
        }
      }
    }
  }
}
