/**
 The memory tracker of a process (`vcann-rt/src/memory_tracker.c`): a growing array of
 records with a hash index from pointer to position.

 The hash map is an abstract map whose operations succeed; growing the array may fail.
 */
module TrackerTable {
  import opened Search
  import opened Sums

  datatype Rec = Rec(ptr: nat, size: nat, handle: nat, physical: bool)

  // ---------------------------------------------------------------------------
  // Linear search, and what the index must agree with
  // ---------------------------------------------------------------------------

  function HasPtr(ptr: nat): Rec -> bool { (r: Rec) => r.ptr == ptr }

  /** Position of the first record of `ptr`, or the length. */
  function Find(rs: seq<Rec>, ptr: nat): (r: nat)
    ensures r <= |rs| && (forall i :: 0 <= i < r ==> rs[i].ptr != ptr) && (r < |rs| ==> rs[r].ptr == ptr)
  {
    First(rs, HasPtr(ptr))
  }

  /** The index answers every lookup as a linear search would. */
  ghost predicate Agrees(rs: seq<Rec>, index: map<nat, nat>) {
    forall p :: if p in index then index[p] == Find(rs, p) < |rs| else Find(rs, p) == |rs|
  }

  predicate Distinct(rs: seq<Rec>) { forall i, j :: 0 <= i < j < |rs| ==> rs[i].ptr != rs[j].ptr }

  lemma FindUnique(rs: seq<Rec>, i: nat)
    requires Distinct(rs) && i < |rs|
    ensures Find(rs, rs[i].ptr) == i
  {
    var r := Find(rs, rs[i].ptr);
    assert r <= i;
  }

  /** Adding a record keeps the index in agreement exactly when its pointer is new. */
  lemma AddKeepsAgreementIff(rs: seq<Rec>, index: map<nat, nat>, r: Rec)
    requires Agrees(rs, index)
    ensures Agrees(rs + [r], index[r.ptr := |rs|]) <==> Find(rs, r.ptr) == |rs|
  {
    FirstAppend(rs, r, HasPtr(r.ptr));
    if Find(rs, r.ptr) == |rs| {
      forall p
        ensures var ix := index[r.ptr := |rs|];
                if p in ix then ix[p] == Find(rs + [r], p) < |rs + [r]| else Find(rs + [r], p) == |rs + [r]|
      {
        FirstAppend(rs, r, HasPtr(p));
      }
    } else {
      assert index[r.ptr := |rs|][r.ptr] == |rs| != Find(rs + [r], r.ptr);
    }
  }

  /** A pointer added twice in a row, to any table: the index leads to the second record,
      a search to the first. */
  lemma AddedTwiceDisagrees(rs: seq<Rec>, index: map<nat, nat>, r: Rec)
    requires Agrees(rs, index) && Find(rs, r.ptr) == |rs|
    ensures Agrees(rs + [r], index[r.ptr := |rs|])
    ensures !Agrees(rs + [r] + [r], index[r.ptr := |rs|][r.ptr := |rs| + 1])
  {
    AddKeepsAgreementIff(rs, index, r);
    FirstAppend(rs, r, HasPtr(r.ptr));
    AddKeepsAgreementIff(rs + [r], index[r.ptr := |rs|], r);
  }

  lemma AgreesFromPositions(rs: seq<Rec>, index: map<nat, nat>)
    requires Distinct(rs)
    requires forall i :: 0 <= i < |rs| ==> rs[i].ptr in index && index[rs[i].ptr] == i
    requires forall p :: p in index ==> Find(rs, p) < |rs|
    ensures Agrees(rs, index)
  {
    forall p
      ensures if p in index then index[p] == Find(rs, p) < |rs| else Find(rs, p) == |rs|
    {
      var i := Find(rs, p);
      if i < |rs| {
        assert rs[i].ptr == p;
      }
    }
  }

  lemma FindWithout(rs: seq<Rec>, at: nat, p: nat)
    requires Distinct(rs) && at < |rs| && p != rs[at].ptr && Find(rs, p) < |rs|
    ensures Find(Without(rs, at), p) < |rs| - 1
  {
    var i := Find(rs, p);
    var w := Without(rs, at);
    assert w[if i < at then i else i - 1] == rs[i];
  }

  lemma DistinctWithout(rs: seq<Rec>, at: nat)
    requires Distinct(rs) && at < |rs|
    ensures Distinct(Without(rs, at)) && Find(Without(rs, at), rs[at].ptr) == |rs| - 1
  {
    var w := Without(rs, at);
    forall i | 0 <= i < |w|
      ensures w[i].ptr != rs[at].ptr
    {
      assert w[i] == rs[if i < at then i else i + 1];
    }
  }

  // ---------------------------------------------------------------------------
  // What the operations compute
  // ---------------------------------------------------------------------------

  /** The live records, the capacity of their array, and the index. */
  datatype Table = Table(rs: seq<Rec>, capacity: nat, index: map<nat, nat>)

  /** The index after entering the records one after the other. */
  function Entered(index: map<nat, nat>, rs: seq<Rec>, from: nat, to: nat): map<nat, nat>
    requires from <= to <= |rs|
  {
    if from == to then index else Entered(index, rs, from, to - 1)[rs[to - 1].ptr := to - 1]
  }

  /** `memory_tracker_expand` to twice the capacity. */
  function Grown(t: Table): Table { Table(t.rs, 2 * t.capacity, Entered(map[], t.rs, 0, |t.rs|)) }

  predicate Refused(t: Table, r: Rec) { r.ptr == 0 || r.size == 0 || |t.rs| >= t.capacity }

  /** `memory_tracker_add`; `granted` says whether growing finds memory. */
  function Added(t: Table, r: Rec, granted: bool): Table {
    if Refused(t, r) then t else
      var t1 := Table(t.rs + [r], t.capacity, t.index[r.ptr := |t.rs|]);
      if t.capacity <= 2 * |t1.rs| && granted then Grown(t1) else t1
  }

  predicate AddReports(t: Table, r: Rec, granted: bool) {
    !Refused(t, r) && (t.capacity <= 2 * (|t.rs| + 1) ==> granted)
  }

  /** `memory_tracker_remove`: the later records move down one by one and are entered at
      their new positions; the pointer is dropped from the index last. */
  function Removed(t: Table, ptr: nat): Table {
    var at := Find(t.rs, ptr);
    if at == |t.rs| then t else
      var rs := Without(t.rs, at);
      Table(rs, t.capacity, Entered(t.index, rs, at, |rs|) - {ptr})
  }

  datatype Op = Add(r: Rec, granted: bool) | Remove(ptr: nat)

  function Apply(t: Table, op: Op): Table {
    match op
    case Add(r, granted) => Added(t, r, granted)
    case Remove(ptr) => Removed(t, ptr)
  }

  function Run(t: Table, ops: seq<Op>): Table
    decreases |ops|
  {
    if |ops| == 0 then t else Run(Apply(t, ops[0]), ops[1..])
  }

  /** Only pointers that are not live are added. */
  predicate FreshAdds(t: Table, ops: seq<Op>)
    decreases |ops|
  {
    |ops| == 0 ||
    ((ops[0].Add? ==> Find(t.rs, ops[0].r.ptr) == |t.rs|) && FreshAdds(Apply(t, ops[0]), ops[1..]))
  }

  predicate AllGranted(ops: seq<Op>) { forall op :: op in ops && op.Add? ==> op.granted }

  // ---------------------------------------------------------------------------
  // Agreement and room over runs
  // ---------------------------------------------------------------------------

  ghost predicate Inv(t: Table) { Distinct(t.rs) && Agrees(t.rs, t.index) }

  predicate Roomy(t: Table) { 2 * |t.rs| <= t.capacity && 1 <= t.capacity }

  lemma {:induction false} EnteredPosition(index: map<nat, nat>, rs: seq<Rec>, from: nat, to: nat, i: nat)
    requires from <= i < to <= |rs| && Distinct(rs)
    ensures var ix := Entered(index, rs, from, to); rs[i].ptr in ix && ix[rs[i].ptr] == i
  {
    if i < to - 1 {
      EnteredPosition(index, rs, from, to - 1, i);
    }
  }

  lemma {:induction false} EnteredKeeps(index: map<nat, nat>, rs: seq<Rec>, from: nat, to: nat, p: nat)
    requires from <= to <= |rs| && p in index && forall i :: from <= i < to ==> rs[i].ptr != p
    ensures var ix := Entered(index, rs, from, to); p in ix && ix[p] == index[p]
  {
    if from < to {
      EnteredKeeps(index, rs, from, to - 1, p);
    }
  }

  lemma {:induction false} EnteredKeys(index: map<nat, nat>, rs: seq<Rec>, from: nat, to: nat, p: nat)
    requires from <= to <= |rs| && p in Entered(index, rs, from, to)
    ensures p in index || Find(rs, p) < |rs|
  {
    if from < to && rs[to - 1].ptr != p {
      EnteredKeys(index, rs, from, to - 1, p);
    }
  }

  lemma GrowingKeeps(t: Table)
    requires Distinct(t.rs)
    ensures Inv(Grown(t))
  {
    var ix := Grown(t).index;
    forall i | 0 <= i < |t.rs|
      ensures t.rs[i].ptr in ix && ix[t.rs[i].ptr] == i
    {
      EnteredPosition(map[], t.rs, 0, |t.rs|, i);
    }
    forall p | p in ix
      ensures Find(t.rs, p) < |t.rs|
    {
      EnteredKeys(map[], t.rs, 0, |t.rs|, p);
    }
    AgreesFromPositions(t.rs, ix);
  }

  lemma AddedKeeps(t: Table, r: Rec, granted: bool)
    requires Inv(t) && Find(t.rs, r.ptr) == |t.rs|
    ensures Inv(Added(t, r, granted))
  {
    if !Refused(t, r) {
      AddKeepsAgreementIff(t.rs, t.index, r);
      var t1 := Table(t.rs + [r], t.capacity, t.index[r.ptr := |t.rs|]);
      assert Distinct(t1.rs);
      if t.capacity <= 2 * |t1.rs| && granted {
        GrowingKeeps(t1);
      }
    }
  }

  lemma RemovedPositions(t: Table, ptr: nat, i: nat)
    requires Inv(t) && Find(t.rs, ptr) < |t.rs| && i < |t.rs| - 1
    ensures var r := Removed(t, ptr); r.rs[i].ptr in r.index && r.index[r.rs[i].ptr] == i
  {
    var at := Find(t.rs, ptr);
    var rs := Without(t.rs, at);
    DistinctWithout(t.rs, at);
    assert rs[i].ptr != ptr;
    if i < at {
      assert rs[i] == t.rs[i];
      FindUnique(t.rs, i);
      EnteredKeeps(t.index, rs, at, |rs|, rs[i].ptr);
    } else {
      EnteredPosition(t.index, rs, at, |rs|, i);
    }
  }

  lemma RemovedKeeps(t: Table, ptr: nat)
    requires Inv(t)
    ensures Inv(Removed(t, ptr))
  {
    var at := Find(t.rs, ptr);
    if at < |t.rs| {
      var rs := Without(t.rs, at);
      var r := Removed(t, ptr);
      DistinctWithout(t.rs, at);
      forall i | 0 <= i < |rs|
        ensures rs[i].ptr in r.index && r.index[rs[i].ptr] == i
      {
        RemovedPositions(t, ptr, i);
      }
      forall p | p in r.index
        ensures Find(rs, p) < |rs|
      {
        EnteredKeys(t.index, rs, at, |rs|, p);
        if p in t.index {
          FindWithout(t.rs, at, p);
        }
      }
      AgreesFromPositions(rs, r.index);
    }
  }

  lemma {:induction false} RunKeeps(t: Table, ops: seq<Op>)
    requires Inv(t) && FreshAdds(t, ops)
    ensures Inv(Run(t, ops))
    decreases |ops|
  {
    if |ops| > 0 {
      if ops[0].Add? {
        AddedKeeps(t, ops[0].r, ops[0].granted);
      } else {
        RemovedKeeps(t, ops[0].ptr);
      }
      RunKeeps(Apply(t, ops[0]), ops[1..]);
    }
  }

  lemma {:induction false} RunKeepsRoom(t: Table, ops: seq<Op>)
    requires Roomy(t) && AllGranted(ops)
    ensures Roomy(Run(t, ops))
    decreases |ops|
  {
    if |ops| > 0 {
      assert ops[0] in ops;
      assert Roomy(Apply(t, ops[0]));
      RunKeepsRoom(Apply(t, ops[0]), ops[1..]);
    }
  }

  function Empty(capacity: nat): Table { Table([], capacity, map[]) }

  /** After every sequence of adds of fresh pointers and removes, whether or not growing
      ever succeeded, the index finds what a linear search finds. */
  lemma IndexAgreesWithSearch(capacity: nat, ops: seq<Op>, p: nat)
    requires FreshAdds(Empty(capacity), ops)
    ensures var t := Run(Empty(capacity), ops);
            if p in t.index then t.index[p] == Find(t.rs, p) < |t.rs| else Find(t.rs, p) == |t.rs|
  {
    RunKeeps(Empty(capacity), ops);
  }

  /** What an add does: a record with a pointer and a size is appended if there is room; the
      array then doubles if at least half of it is in use and memory is found; and success
      is reported unless the record was not appended or a needed doubling failed. */
  lemma AddEffect(t: Table, r: Rec, granted: bool)
    ensures var room := r.ptr != 0 && r.size != 0 && |t.rs| < t.capacity;
            var half := 2 * |t.rs| + 2 >= t.capacity;
            && Added(t, r, granted).rs == (if room then t.rs + [r] else t.rs)
            && Added(t, r, granted).capacity ==
               (if room && half && granted then t.capacity + t.capacity else t.capacity)
            && (AddReports(t, r, granted) <==> room && (half ==> granted))
  {
  }

  /** As long as growing succeeds no add ever fails for want of room. */
  lemma AddsNeverLackRoom(capacity: nat, ops: seq<Op>, r: Rec)
    requires capacity >= 1 && AllGranted(ops) && r.ptr != 0 && r.size != 0
    ensures var t := Run(Empty(capacity), ops);
            |t.rs| < t.capacity && Added(t, r, true).rs == t.rs + [r] && AddReports(t, r, true)
  {
    RunKeepsRoom(Empty(capacity), ops);
  }

  // ---------------------------------------------------------------------------
  // The tracker, in place
  // ---------------------------------------------------------------------------

  class Tracker {
    var records: array<Rec>
    var count: nat
    var index: map<nat, nat>

    ghost predicate Valid()
      reads this
    {
      count <= records.Length
    }

    ghost function View(): Table
      requires Valid()
      reads this, records
    {
      Table(records[..count], records.Length, index)
    }

    constructor (capacity: nat)
      ensures Valid() && View() == Empty(capacity) && fresh(records)
    {
      records := new Rec[capacity](_ => Rec(0, 0, 0, false));
      count := 0;
      index := map[];
    }

    /** `memory_tracker_expand`. */
    method Expand()
      requires Valid()
      modifies this
      ensures Valid() && fresh(records) && View() == Grown(old(View()))
    {
      ghost var rs := records[..count];
      var bigger := new Rec[2 * records.Length](_ => Rec(0, 0, 0, false));
      var n, from := count, records;
      forall i | 0 <= i < n {
        bigger[i] := from[i];
      }
      assert bigger[..n] == rs;
      var rebuilt: map<nat, nat> := map[];
      for i := 0 to n
        invariant bigger[..n] == rs
        invariant rebuilt == Entered(map[], rs, 0, i)
      {
        assert rs[i] == bigger[..n][i];
        rebuilt := rebuilt[bigger[i].ptr := i];
      }
      index := rebuilt;
      records := bigger;
    }

    /** `memory_tracker_add`. */
    method AddRecord(r: Rec, granted: bool) returns (ok: bool)
      requires Valid()
      modifies this, records
      ensures Valid() && View() == Added(old(View()), r, granted)
      ensures ok <==> AddReports(old(View()), r, granted)
    {
      if r.ptr == 0 || r.size == 0 || count >= records.Length {
        return false;
      }
      records[count] := r;
      index := index[r.ptr := count];
      count := count + 1;
      assert records[..count] == old(records[..count]) + [r];
      ok := true;
      if records.Length <= 2 * count {
        if granted {
          Expand();
        } else {
          ok := false;
        }
      }
    }

    /** Linear search for the record to remove. */
    method Search(ptr: nat) returns (at: nat)
      requires Valid()
      ensures at == Find(records[..count], ptr)
    {
      at := 0;
      while at < count && records[at].ptr != ptr
        invariant at <= count
        invariant forall i :: 0 <= i < at ==> records[i].ptr != ptr
      {
        at := at + 1;
      }
      assert forall i :: 0 <= i < count ==> records[..count][i] == records[i];
    }

    /** Moves the records behind `at` down by one, entering each at its new position. */
    method ShiftDown(at: nat, n: nat) returns (ix: map<nat, nat>)
      requires at < n <= records.Length
      modifies records
      ensures records[..n - 1] == Without(old(records[..n]), at)
      ensures ix == Entered(index, Without(old(records[..n]), at), at, n - 1)
    {
      ghost var was := records[..n];
      ghost var rs := Without(was, at);
      ix := index;
      for i := at to n - 1
        invariant forall j :: 0 <= j < i ==> records[j] == rs[j]
        invariant forall j :: i <= j < n ==> records[j] == was[j]
        invariant ix == Entered(index, rs, at, i)
      {
        assert rs[i] == was[i + 1] == records[i + 1];
        records[i] := records[i + 1];
        ix := ix[records[i].ptr := i];
      }
      assert records[..n - 1] == rs;
    }

    /** `memory_tracker_remove`. */
    method RemoveRecord(ptr: nat)
      requires Valid()
      modifies this, records
      ensures Valid() && View() == Removed(old(View()), ptr)
    {
      var at := Search(ptr);
      if at < count {
        var ix := ShiftDown(at, count);
        index := ix - {ptr};
        count := count - 1;
      }
    }

    /** `memory_tracker_find`: through the index alone. */
    method FindRecord(ptr: nat) returns (found: bool, r: Rec)
      requires Valid() && Inv(View())
      ensures found <==> Find(View().rs, ptr) < count
      ensures found ==> r == records[Find(View().rs, ptr)]
    {
      found := ptr in index;
      assert found ==> index[ptr] == Find(View().rs, ptr) < count;
      r := if found then records[index[ptr]] else Rec(0, 0, 0, false);
    }
  }
}
