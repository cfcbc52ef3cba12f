/**
 The undo log of an allocation (`enpu-manager/core/src/rollback_log.c`) over the state
 that the manager changes step by step while it places a vNPU.
 */
module Rollback {
  import opened DieNode
  import opened Search
  import opened Sums

  /** Pod uid and container name. */
  datatype Key = Key(pod: string, container: string)

  /** `allocation_t`. */
  datatype Alloc = Alloc(key: Key, die: nat, id: nat, aicore: nat, hbm: nat, limit: nat, policy: int, high: bool)

  /** One vNPU entry of a die's shared memory: not in the bitmap, or with its limit. */
  datatype Slot = Unset | Limit(mb: nat)

  /** The dies, the dies whose bit is set in the mask of their parent node, the shared
      memory entries of each die, the config files and the registry. */
  datatype Host = Host(dies: seq<Die>, parents: set<nat>, slots: seq<seq<Slot>>, configs: set<Key>,
                       registry: seq<Alloc>)

  datatype LogStep =
    | MarkOccupied(die: nat, id: nat)
    | UpdateQuota(die: nat, aicore: int, hbm: int)
    | AttachPolicy(die: nat, p: Policy)
    | CreateShm(die: nat, id: nat, mb: nat)
    | WriteConfig(key: Key)
    | SaveCheckpoint(a: Alloc)

  predicate InRange(h: Host, s: LogStep) {
    match s
    case MarkOccupied(d, id) => d < |h.dies| && id < MASK_BITS
    case UpdateQuota(d, _, _) => d < |h.dies|
    case AttachPolicy(d, _) => d < |h.dies|
    case CreateShm(d, id, _) => d < |h.slots| && id < |h.slots[d]|
    case _ => true
  }

  predicate Registered(h: Host, key: Key) { exists a :: a in h.registry && a.key == key }

  /** The step succeeds and starts from nothing of the same name. */
  predicate Possible(h: Host, s: LogStep) {
    && InRange(h, s)
    && match s
       case MarkOccupied(d, id) => id in h.dies[d].free
       case UpdateQuota(_, _, _) => true
       case AttachPolicy(d, p) => forall q :: q in h.dies[d].policies ==> q.id != p.id
       case CreateShm(d, id, _) => h.slots[d][id] == Unset
       case WriteConfig(key) => key !in h.configs
       case SaveCheckpoint(a) => !Registered(h, a.key)
  }

  function Forward(h: Host, s: LogStep): Host
    requires InRange(h, s)
  {
    match s
    case MarkOccupied(d, id) => h.(dies := h.dies[d := Occupy(h.dies[d], id)], parents := h.parents - {d})
    case UpdateQuota(d, a, m) => h.(dies := h.dies[d := AddQuota(h.dies[d], a, m)])
    case AttachPolicy(d, p) => h.(dies := h.dies[d := Attach(h.dies[d], p)])
    case CreateShm(d, id, mb) => h.(slots := h.slots[d := h.slots[d][id := Limit(mb)]])
    case WriteConfig(key) => h.(configs := h.configs + {key})
    case SaveCheckpoint(a) => h.(registry := h.registry + [a])
  }

  function HasName(key: Key): Alloc -> bool { (a: Alloc) => a.key == key }

  /** Position of the first registry entry of `key`, or the length. */
  function FindAlloc(r: seq<Alloc>, key: Key): (i: nat)
    ensures i <= |r| && (forall j :: 0 <= j < i ==> r[j].key != key) && (i < |r| ==> r[i].key == key)
  {
    First(r, HasName(key))
  }

  /** `allocation_registry_release`. */
  function Unregister(r: seq<Alloc>, key: Key): seq<Alloc> {
    var i := FindAlloc(r, key);
    if i < |r| then Without(r, i) else r
  }

  function Undo(h: Host, s: LogStep): Host
    requires InRange(h, s)
  {
    match s
    case MarkOccupied(d, id) =>
      if id in h.dies[d].free then h else
        h.(dies := h.dies[d := Vacate(h.dies[d], id)], parents := h.parents + {d})
    case UpdateQuota(d, a, m) => h.(dies := h.dies[d := AddQuota(h.dies[d], -a, -m)])
    case AttachPolicy(d, p) => h.(dies := h.dies[d := Detach(h.dies[d], p.id)])
    case CreateShm(d, id, _) => h.(slots := h.slots[d := h.slots[d][id := Unset]])
    case WriteConfig(key) => h.(configs := h.configs - {key})
    case SaveCheckpoint(a) => h.(registry := Unregister(h.registry, a.key))
  }

  predicate Possibles(h: Host, steps: seq<LogStep>)
    decreases |steps|
  {
    |steps| == 0 || (Possible(h, steps[0]) && Possibles(Forward(h, steps[0]), steps[1..]))
  }

  function ForwardAll(h: Host, steps: seq<LogStep>): Host
    requires Possibles(h, steps)
    decreases |steps|
  {
    if |steps| == 0 then h else ForwardAll(Forward(h, steps[0]), steps[1..])
  }

  predicate AllInRange(h: Host, steps: seq<LogStep>) { forall s :: s in steps ==> InRange(h, s) }

  lemma UndoKeepsRange(h: Host, s: LogStep, t: LogStep)
    requires InRange(h, s)
    ensures InRange(h, t) ==> InRange(Undo(h, s), t)
    ensures InRange(h, t) ==> InRange(Forward(h, s), t)
  {
  }

  /** Undoes from the last step to the first. */
  function UndoAll(h: Host, steps: seq<LogStep>): Host
    requires AllInRange(h, steps)
    decreases |steps|
  {
    if |steps| == 0 then h else
      var n := |steps| - 1;
      var h' := Undo(h, steps[n]);
      assert AllInRange(h', steps[..n]) by {
        forall t | t in steps[..n]
          ensures InRange(h', t)
        {
          UndoKeepsRange(h, steps[n], t);
        }
      }
      UndoAll(h', steps[..n])
  }

  // ---------------------------------------------------------------------------
  // One step and its undo
  // ---------------------------------------------------------------------------

  function Marked(s: LogStep): set<nat> { if s.MarkOccupied? then {s.die} else {} }

  function Raise(h: Host, dies: set<nat>): Host { h.(parents := h.parents + dies) }

  lemma StepUndone(h: Host, s: LogStep)
    requires Possible(h, s)
    ensures InRange(Forward(h, s), s)
    ensures Undo(Forward(h, s), s) == Raise(h, Marked(s))
  {
    var u := Undo(Forward(h, s), s);
    match s
    case MarkOccupied(d, id) =>
      OccupyUndone(h.dies[d], id);
      assert u.dies == h.dies && u.parents == h.parents + {d};
    case UpdateQuota(d, a, m) =>
      assert u.dies == h.dies && u.parents == h.parents + {};
    case AttachPolicy(d, p) =>
      AttachUndone(h.dies[d], p);
      assert u.dies == h.dies && u.parents == h.parents + {};
    case CreateShm(d, id, mb) =>
      assert u.slots[d] == h.slots[d];
      assert u.slots == h.slots && u.parents == h.parents + {};
    case WriteConfig(key) =>
      assert u.configs == h.configs && u.parents == h.parents + {};
    case SaveCheckpoint(a) =>
      FirstAppend(h.registry, a, HasName(a.key));
      assert Without(h.registry + [a], |h.registry|) == h.registry;
      assert u.registry == h.registry && u.parents == h.parents + {};
  }

  // ---------------------------------------------------------------------------
  // Whole logs
  // ---------------------------------------------------------------------------

  function MarkedBy(steps: seq<LogStep>): set<nat> { set s | s in steps && s.MarkOccupied? :: s.die }

  lemma UndoCommutesWithRaise(h: Host, s: LogStep, x: set<nat>)
    requires InRange(h, s)
    ensures Undo(Raise(h, x), s) == Raise(Undo(h, s), x)
  {
    if s.MarkOccupied? {
      assert h.parents + x + {s.die} == h.parents + {s.die} + x;
    }
  }

  lemma {:induction false} UndoAllCommutesWithRaise(h: Host, steps: seq<LogStep>, x: set<nat>)
    requires AllInRange(h, steps)
    ensures AllInRange(Raise(h, x), steps) && UndoAll(Raise(h, x), steps) == Raise(UndoAll(h, steps), x)
    decreases |steps|
  {
    if |steps| > 0 {
      var n := |steps| - 1;
      UndoCommutesWithRaise(h, steps[n], x);
      forall t | t in steps[..n]
        ensures InRange(Undo(h, steps[n]), t)
      {
        UndoKeepsRange(h, steps[n], t);
      }
      UndoAllCommutesWithRaise(Undo(h, steps[n]), steps[..n], x);
    }
  }

  lemma {:induction false} SplitLast(h: Host, steps: seq<LogStep>)
    requires |steps| > 0 && Possibles(h, steps)
    ensures var n := |steps| - 1;
            && Possibles(h, steps[..n])
            && Possible(ForwardAll(h, steps[..n]), steps[n])
            && ForwardAll(h, steps) == Forward(ForwardAll(h, steps[..n]), steps[n])
    decreases |steps|
  {
    var n := |steps| - 1;
    if n > 0 {
      SplitLast(Forward(h, steps[0]), steps[1..]);
      assert steps[1..][..n - 1] == steps[..n][1..];
      assert steps[1..][n - 1] == steps[n];
    }
  }

  lemma {:induction false} LoggedInRange(h: Host, steps: seq<LogStep>)
    requires Possibles(h, steps)
    ensures AllInRange(ForwardAll(h, steps), steps)
    decreases |steps|
  {
    if |steps| > 0 {
      var n := |steps| - 1;
      SplitLast(h, steps);
      LoggedInRange(h, steps[..n]);
      forall s | s in steps
        ensures InRange(ForwardAll(h, steps), s)
      {
        UndoKeepsRange(ForwardAll(h, steps[..n]), steps[n], s);
        if s != steps[n] {
          var i :| 0 <= i < |steps| && steps[i] == s;
          assert steps[..n][i] == s;
        }
      }
    }
  }

  /** Undoing the last step first leaves the rest to undo, its parent bit raised. */
  lemma LastUndone(h: Host, steps: seq<LogStep>)
    requires |steps| > 0 && Possibles(h, steps)
    ensures var n := |steps| - 1;
            && Possibles(h, steps[..n]) && AllInRange(ForwardAll(h, steps), steps)
            && AllInRange(ForwardAll(h, steps[..n]), steps[..n])
            && UndoAll(ForwardAll(h, steps), steps) ==
               Raise(UndoAll(ForwardAll(h, steps[..n]), steps[..n]), Marked(steps[n]))
  {
    var n := |steps| - 1;
    SplitLast(h, steps);
    LoggedInRange(h, steps);
    LoggedInRange(h, steps[..n]);
    var g := ForwardAll(h, steps[..n]);
    StepUndone(g, steps[n]);
    UndoAllCommutesWithRaise(g, steps[..n], Marked(steps[n]));
  }

  /** For every log of steps that succeeded, over any dies and in any order, undoing it
      restores masks, quotas, policy lists in order, shared-memory entries, config files
      and registry; only the parent masks may differ, by the bits of the marked dies. */
  lemma {:induction false} RollbackIsInverse(h: Host, steps: seq<LogStep>)
    requires Possibles(h, steps)
    ensures AllInRange(ForwardAll(h, steps), steps)
    ensures UndoAll(ForwardAll(h, steps), steps) == Raise(h, MarkedBy(steps))
    decreases |steps|
  {
    LoggedInRange(h, steps);
    if |steps| == 0 {
      assert Raise(h, {}).parents == h.parents;
    } else {
      var n := |steps| - 1;
      LastUndone(h, steps);
      RollbackIsInverse(h, steps[..n]);
      assert MarkedBy(steps) == MarkedBy(steps[..n]) + Marked(steps[n]);
      assert h.parents + MarkedBy(steps[..n]) + Marked(steps[n]) == h.parents + MarkedBy(steps);
    }
  }

  /** The parent masks too are restored exactly when the bits of all marked dies were set
      before the steps. */
  lemma ParentMaskRestoredIff(h: Host, steps: seq<LogStep>)
    requires Possibles(h, steps)
    ensures AllInRange(ForwardAll(h, steps), steps)
    ensures UndoAll(ForwardAll(h, steps), steps) == h <==> MarkedBy(steps) <= h.parents
  {
    RollbackIsInverse(h, steps);
    assert MarkedBy(steps) <= h.parents <==> h.parents + MarkedBy(steps) == h.parents;
  }

  /** A second vNPU marked on a die whose bit the first has cleared: undoing it sets the
      bit, although the first is still there. */
  lemma SecondUndoSetsBit(h: Host, d: nat, a: nat, b: nat)
    requires d < |h.dies| && a != b && a < MASK_BITS && b < MASK_BITS && a in h.dies[d].free && b in h.dies[d].free
    ensures var g := Forward(h, MarkOccupied(d, a));
            && Possible(g, MarkOccupied(d, b))
            && d !in g.parents && d in Undo(Forward(g, MarkOccupied(d, b)), MarkOccupied(d, b)).parents
  {
  }

  // ---------------------------------------------------------------------------
  // What the rollback reports
  // ---------------------------------------------------------------------------

  /** Whether the undo of one step reports success.  Deleting a config file returns the
      length of the pod's directory path instead of a status, which reads as failure. */
  predicate Reports(h: Host, s: LogStep)
    requires InRange(h, s)
  {
    match s
    case CreateShm(d, id, _) => h.slots[d][id] != Unset
    case WriteConfig(_) => false
    case SaveCheckpoint(a) => Registered(h, a.key)
    case _ => true
  }

  predicate ReportsAll(h: Host, steps: seq<LogStep>)
    requires AllInRange(h, steps)
    decreases |steps|
  {
    if |steps| == 0 then true else
      var n := |steps| - 1;
      UndoAllInRange(h, steps);
      Reports(h, steps[n]) && ReportsAll(Undo(h, steps[n]), steps[..n])
  }

  lemma UndoAllInRange(h: Host, steps: seq<LogStep>)
    requires |steps| > 0 && AllInRange(h, steps)
    ensures AllInRange(Undo(h, steps[|steps| - 1]), steps[..|steps| - 1])
  {
    var n := |steps| - 1;
    forall t | t in steps[..n]
      ensures InRange(Undo(h, steps[n]), t)
    {
      UndoKeepsRange(h, steps[n], t);
    }
  }

  lemma {:induction false} ReportsIgnoresRaise(h: Host, steps: seq<LogStep>, x: set<nat>)
    requires AllInRange(h, steps)
    ensures AllInRange(Raise(h, x), steps) && (ReportsAll(Raise(h, x), steps) <==> ReportsAll(h, steps))
    decreases |steps|
  {
    if |steps| > 0 {
      var n := |steps| - 1;
      UndoAllInRange(h, steps);
      UndoCommutesWithRaise(h, steps[n], x);
      ReportsIgnoresRaise(Undo(h, steps[n]), steps[..n], x);
    }
  }

  /** Although everything is undone, the rollback reports success exactly when no config
      file had been written yet. */
  lemma {:induction false} RollbackReportsIff(h: Host, steps: seq<LogStep>)
    requires Possibles(h, steps)
    ensures AllInRange(ForwardAll(h, steps), steps)
    ensures ReportsAll(ForwardAll(h, steps), steps) <==> forall s :: s in steps ==> !s.WriteConfig?
    decreases |steps|
  {
    LoggedInRange(h, steps);
    if |steps| > 0 {
      var n := |steps| - 1;
      SplitLast(h, steps);
      var g := ForwardAll(h, steps[..n]);
      StepUndone(g, steps[n]);
      RollbackReportsIff(h, steps[..n]);
      ReportsIgnoresRaise(g, steps[..n], Marked(steps[n]));
      assert forall s :: s in steps <==> s in steps[..n] || s == steps[n];
      LastReports(g, steps[n]);
    }
  }

  lemma LastReports(g: Host, s: LogStep)
    requires Possible(g, s)
    ensures InRange(Forward(g, s), s) && (Reports(Forward(g, s), s) <==> !s.WriteConfig?)
  {
    if s.SaveCheckpoint? {
      assert s.a in Forward(g, s).registry;
    }
  }

  // ---------------------------------------------------------------------------
  // The log, updated in place
  // ---------------------------------------------------------------------------

  const MAX_STEPS: nat := 16

  class Log {
    const steps: array<LogStep>
    var count: nat

    ghost predicate Valid()
      reads this, steps
    {
      steps.Length == MAX_STEPS && count <= MAX_STEPS
    }

    ghost function Contents(): seq<LogStep>
      requires Valid()
      reads this, steps
    {
      steps[..count]
    }

    constructor ()
      ensures Valid() && Contents() == [] && fresh(steps)
    {
      steps := new LogStep[MAX_STEPS](_ => MarkOccupied(0, 0));
      count := 0;
    }

    /** `rollback_log_append`: refuses the 17th step. */
    method Append(s: LogStep) returns (ok: bool)
      requires Valid()
      modifies this, steps
      ensures Valid()
      ensures ok <==> old(count) < MAX_STEPS
      ensures Contents() == if ok then old(Contents()) + [s] else old(Contents())
    {
      ok := count < MAX_STEPS;
      if ok {
        steps[count] := s;
        count := count + 1;
        assert steps[..count] == old(steps[..count]) + [s];
      }
    }

    /** `rollback_log_rollback`: from the last step to the first, going on after a failed
        undo; the log ends empty. */
    method RollBack(h: Host) returns (r: Host, ok: bool)
      requires Valid() && AllInRange(h, Contents())
      modifies this
      ensures Valid() && Contents() == []
      ensures r == UndoAll(h, old(Contents()))
      ensures ok <==> ReportsAll(h, old(Contents()))
    {
      r := h;
      var log := steps[..count];
      var failed := 0;
      assert log[..|log|] == log;
      for i := |log| downto 0
        invariant AllInRange(r, log[..i])
        invariant UndoAll(r, log[..i]) == UndoAll(h, log)
        invariant failed >= 0
        invariant (failed == 0 && ReportsAll(r, log[..i])) <==> ReportsAll(h, log)
      {
        OneBack(r, log, i);
        if !Succeeds(r, log[i]) {
          failed := failed + 1;
        }
        r := Undo(r, log[i]);
      }
      count := 0;
      ok := failed == 0;
    }
  }

  /** One turn of the reverse loop. */
  lemma OneBack(h: Host, log: seq<LogStep>, i: nat)
    requires i < |log| && AllInRange(h, log[..i + 1])
    ensures InRange(h, log[i]) && AllInRange(Undo(h, log[i]), log[..i])
    ensures UndoAll(h, log[..i + 1]) == UndoAll(Undo(h, log[i]), log[..i])
    ensures ReportsAll(h, log[..i + 1]) <==> Reports(h, log[i]) && ReportsAll(Undo(h, log[i]), log[..i])
  {
    var done := log[..i + 1];
    assert done[i] == log[i] && done[i] in done && done[..i] == log[..i];
    UndoAllInRange(h, done);
  }

  /** `Reports`, computed by searching the registry. */
  predicate Succeeds(h: Host, s: LogStep)
    requires InRange(h, s)
    ensures Succeeds(h, s) <==> Reports(h, s)
  {
    match s
    case CreateShm(d, id, _) => h.slots[d][id] != Unset
    case WriteConfig(_) => false
    case SaveCheckpoint(a) =>
      var i := FindAlloc(h.registry, a.key);
      assert i < |h.registry| ==> h.registry[i] in h.registry;
      i < |h.registry|
    case _ => true
  }
}
