/**
 Choosing a die for a vNPU (`enpu-manager/core/src/evaluator_share.c`): the filter of the
 candidate dies, the comparators, and the selection.

 Oversubscription ratios are exact reals.
 */
module DieChoice {
  import opened DieNode

  const MAX_CANDIDATES: nat := 16
  const PRIORITY_NORMAL: int := 0
  const PRIORITY_HIGH: int := 1
  const FIXED_SHARE: int := 1
  const BEST_EFFORT: int := 3

  datatype Strategy = Compact | AntiFragment

  /** `eval_request_t`; a negative `wanted` lets the evaluator choose. */
  datatype Request = Request(aicore: int, hbm: nat, limit: nat, policy: int, priority: int, wanted: int)

  /** A leaf of the tree with what the evaluator reads about it. */
  datatype Leaf = Leaf(phy: int, minor: int, die: Die, totalMb: nat, ratio: real, limitSum: int)

  datatype Candidate = Candidate(leaf: nat, id: nat, aicore: int, hbm: int, count: int, minor: int,
                                 high: bool, policyOk: bool, oversub: bool)

  // ---------------------------------------------------------------------------
  // Comparators
  // ---------------------------------------------------------------------------

  function CompareCompact(a: Candidate, b: Candidate): int {
    if a.count != b.count then b.count - a.count
    else if a.aicore != b.aicore then a.aicore - b.aicore
    else a.minor - b.minor
  }

  function CompareAntiFragment(a: Candidate, b: Candidate): int {
    if a.count != b.count then a.count - b.count
    else if a.aicore != b.aicore then b.aicore - a.aicore
    else a.minor - b.minor
  }

  function CompareLoadBalance(a: Candidate, b: Candidate): int {
    if a.count != b.count then a.count - b.count
    else if a.hbm != b.hbm then (if a.hbm < b.hbm then 1 else -1)
    else a.minor - b.minor
  }

  function Compare(st: Strategy, a: Candidate, b: Candidate): int {
    if a.high then CompareLoadBalance(a, b)
    else if a.oversub != b.oversub then (if a.oversub then 1 else -1)
    else if st == Compact then CompareCompact(a, b)
    else CompareAntiFragment(a, b)
  }

  predicate Before(st: Strategy, a: Candidate, b: Candidate) { Compare(st, a, b) < 0 }

  /** The candidates of one request on different dies. */
  predicate OneRequest(cs: seq<Candidate>) {
    && (forall i, j :: 0 <= i < |cs| && 0 <= j < |cs| ==> cs[i].high == cs[j].high)
    && (forall i, j :: 0 <= i < j < |cs| ==> cs[i].minor != cs[j].minor)
  }

  /** What a candidate is ranked by, most important first; smaller is better.  A
      high-priority request spreads over the dies, then takes the one with most memory.
      A normal one keeps off oversubscribed dies, then either packs (most vNPUs, fewest
      AI cores left) or spreads (fewest vNPUs, most AI cores left).  The lower minor id
      decides ties. */
  function Rank(st: Strategy, c: Candidate): seq<int> {
    if c.high then [0, c.count, -c.hbm, c.minor]
    else [if c.oversub then 1 else 0] +
         (if st == Compact then [-c.count, c.aicore, c.minor] else [c.count, -c.aicore, c.minor])
  }

  /** Lexicographic order of equally long lists. */
  predicate LexLess(a: seq<int>, b: seq<int>)
    requires |a| == |b|
  {
    |a| > 0 && (a[0] < b[0] || (a[0] == b[0] && LexLess(a[1..], b[1..])))
  }

  /** Each comparator puts first exactly the candidate of lexicographically smaller rank. */
  lemma BeforeIsSmallerRank(st: Strategy, a: Candidate, b: Candidate)
    requires a.high == b.high
    ensures |Rank(st, a)| == |Rank(st, b)| && (Before(st, a, b) <==> LexLess(Rank(st, a), Rank(st, b)))
  {
    var r, s := Rank(st, a), Rank(st, b);
    LexFour(r, s);
  }

  lemma LexFour(a: seq<int>, b: seq<int>)
    requires |a| == |b| == 4
    ensures LexLess(a, b) <==>
            a[0] < b[0] ||
            (a[0] == b[0] && (a[1] < b[1] || (a[1] == b[1] && (a[2] < b[2] || (a[2] == b[2] && a[3] < b[3])))))
  {
    assert LexLess(a[1..], b[1..]) <==>
           a[1] < b[1] || (a[1] == b[1] && LexLess(a[1..][1..], b[1..][1..]));
    assert LexLess(a[1..][1..], b[1..][1..]) <==>
           a[2] < b[2] || (a[2] == b[2] && LexLess(a[1..][1..][1..], b[1..][1..][1..]));
    assert LexLess(a[1..][1..][1..], b[1..][1..][1..]) <==> a[3] < b[3];
  }

  /** On the candidates of one request each comparator is a strict total order: it is
      irreflexive, total, antisymmetric in its sign and transitive. */
  lemma StrictTotalOrder(st: Strategy, a: Candidate, b: Candidate, c: Candidate)
    requires a.high == b.high == c.high
    ensures !Before(st, a, a)
    ensures a.minor != b.minor ==> Before(st, a, b) || Before(st, b, a)
    ensures Before(st, a, b) <==> Compare(st, b, a) > 0
    ensures Before(st, a, b) && Before(st, b, c) ==> Before(st, a, c)
  {
  }

  /** The comparator looks at the priority of its first argument only, so between requests
      of different priority it is not antisymmetric.  The evaluator never compares such:
      it gives all its candidates the priority of the one request. */
  lemma MixedPrioritiesConflict(st: Strategy)
    ensures exists a: Candidate, b: Candidate :: a.minor != b.minor && Before(st, a, b) && Before(st, b, a)
  {
    var a := Candidate(0, 0, 0, 0, 0, 0, true, true, true);
    var b := Candidate(1, 0, 0, 0, 1, 1, false, true, false);
    assert Before(st, a, b) && Before(st, b, a);
  }

  // ---------------------------------------------------------------------------
  // Filter
  // ---------------------------------------------------------------------------

  function Threshold(ratio: real, totalMb: nat): int { ((1.0 + ratio) * (totalMb as real)).Floor }

  predicate ValidRequest(q: Request) {
    && (q.priority == PRIORITY_NORMAL || q.priority == PRIORITY_HIGH)
    && !((q.priority == PRIORITY_NORMAL && q.aicore <= 0) || q.hbm == 0)
    && (q.priority == PRIORITY_NORMAL ==> FIXED_SHARE <= q.policy <= BEST_EFFORT)
  }

  predicate Eligible(q: Request, l: Leaf) {
    && (q.wanted >= 0 ==> l.phy == q.wanted)
    && 0 <= l.phy < MAX_CANDIDATES
    && !(q.hbm < q.limit && !(l.ratio > 0.0))
    && q.limit <= l.totalMb
    && l.limitSum + q.limit <= Threshold(l.ratio, l.totalMb)
    && l.die.aicore >= q.aicore && l.die.hbm >= q.hbm
    && l.die.free != {}
  }

  /** The least element of a non-empty set of ids. */
  function Least(free: set<nat>): (r: nat)
    requires free != {} && MaskOk(free)
    ensures IsLeastFree(free, Id(r)) && r < MASK_BITS
  {
    LeastFrom(free, 0)
  }

  function LeastFrom(free: set<nat>, i: nat): (r: nat)
    requires free != {} && MaskOk(free) && i <= MASK_BITS && forall j :: j in free ==> i <= j
    ensures IsLeastFree(free, Id(r)) && r < MASK_BITS
    decreases MASK_BITS - i
  {
    assert exists j :: j in free;
    if i in free then i else LeastFrom(free, i + 1)
  }

  predicate PolicyOk(q: Request, d: Die) { q.priority == PRIORITY_HIGH || Compatible(d, q.policy) }

  function CandidateOf(q: Request, l: Leaf, i: nat): Candidate
    requires Eligible(q, l) && MaskOk(l.die.free)
  {
    Candidate(i, Least(l.die.free), l.die.aicore, l.die.hbm, l.die.count, l.minor,
              q.priority == PRIORITY_HIGH, PolicyOk(q, l.die), l.ratio > 0.0)
  }

  predicate LeavesOk(ls: seq<Leaf>) { forall l :: l in ls ==> MaskOk(l.die.free) }

  predicate DistinctMinors(ls: seq<Leaf>) { forall i, j :: 0 <= i < j < |ls| ==> ls[i].minor != ls[j].minor }

  function Candidates(q: Request, ls: seq<Leaf>): seq<Candidate>
    requires LeavesOk(ls)
  {
    if |ls| == 0 then [] else
      var n := |ls| - 1;
      Candidates(q, ls[..n]) + (if Eligible(q, ls[n]) then [CandidateOf(q, ls[n], n)] else [])
  }

  lemma {:induction false} EligibleIsCandidate(q: Request, ls: seq<Leaf>, i: nat)
    requires LeavesOk(ls) && i < |ls| && Eligible(q, ls[i])
    ensures CandidateOf(q, ls[i], i) in Candidates(q, ls)
  {
    var n := |ls| - 1;
    if i < n {
      assert ls[..n][i] == ls[i];
      EligibleIsCandidate(q, ls[..n], i);
    }
  }

  lemma {:induction false} CandidatesInOrder(q: Request, ls: seq<Leaf>)
    requires LeavesOk(ls)
    ensures var cs := Candidates(q, ls);
            && |cs| <= |ls|
            && (forall i :: 0 <= i < |cs| ==>
                  && cs[i].leaf < |ls| && Eligible(q, ls[cs[i].leaf])
                  && cs[i] == CandidateOf(q, ls[cs[i].leaf], cs[i].leaf))
            && (forall i, j :: 0 <= i < j < |cs| ==> cs[i].leaf < cs[j].leaf)
  {
    if |ls| > 0 {
      CandidatesInOrder(q, ls[..|ls| - 1]);
    }
  }

  /** The candidates are exactly the eligible leaves, each once. */
  lemma CandidatesAreEligible(q: Request, ls: seq<Leaf>)
    requires LeavesOk(ls)
    ensures |Candidates(q, ls)| <= |ls|
    ensures forall c :: c in Candidates(q, ls) ==>
              c.leaf < |ls| && Eligible(q, ls[c.leaf]) && c == CandidateOf(q, ls[c.leaf], c.leaf)
    ensures forall i :: 0 <= i < |ls| && Eligible(q, ls[i]) ==> CandidateOf(q, ls[i], i) in Candidates(q, ls)
    ensures forall i, j :: 0 <= i < j < |Candidates(q, ls)| ==> Candidates(q, ls)[i].leaf < Candidates(q, ls)[j].leaf
  {
    CandidatesInOrder(q, ls);
    forall i | 0 <= i < |ls| && Eligible(q, ls[i])
      ensures CandidateOf(q, ls[i], i) in Candidates(q, ls)
    {
      EligibleIsCandidate(q, ls, i);
    }
  }

  lemma CandidatesOneRequest(q: Request, ls: seq<Leaf>)
    requires LeavesOk(ls) && DistinctMinors(ls)
    ensures OneRequest(Candidates(q, ls))
  {
    CandidatesAreEligible(q, ls);
    var cs := Candidates(q, ls);
    forall i, j | 0 <= i < j < |cs|
      ensures cs[i].minor != cs[j].minor
    {
      assert cs[i] in cs && cs[j] in cs && cs[i].leaf < cs[j].leaf;
    }
    assert forall i :: 0 <= i < |cs| ==> cs[i] in cs;
  }

  // ---------------------------------------------------------------------------
  // Selection
  // ---------------------------------------------------------------------------

  predicate Sorted(st: Strategy, cs: seq<Candidate>) {
    forall i, j :: 0 <= i < j < |cs| ==> Compare(st, cs[i], cs[j]) <= 0
  }

  datatype Pick = NoPick | Picked(c: Candidate)

  /** `p` is the policy-compatible candidate that comes before all others, if any is. */
  predicate IsLeastCompatible(st: Strategy, cs: multiset<Candidate>, p: Pick) {
    match p
    case NoPick => forall c :: c in cs ==> !c.policyOk
    case Picked(p) => p in cs && p.policyOk && forall c :: c in cs && c.policyOk && c != p ==> Before(st, p, c)
  }

  lemma PermutationOneRequest(cs: seq<Candidate>, sorted: seq<Candidate>)
    requires OneRequest(cs) && multiset(cs) == multiset(sorted)
    ensures forall a, b :: a in sorted && b in sorted ==> a.high == b.high && (a.minor == b.minor ==> a == b)
  {
    forall a, b | a in sorted && b in sorted
      ensures a.high == b.high && (a.minor == b.minor ==> a == b)
    {
      assert a in multiset(cs) && b in multiset(cs);
      var i :| 0 <= i < |cs| && cs[i] == a;
      var j :| 0 <= j < |cs| && cs[j] == b;
    }
  }

  /** The scan of the sorted candidates for the first one whose policy fits. */
  method PickFirst(sorted: seq<Candidate>) returns (p: Pick)
    ensures p.NoPick? ==> forall i :: 0 <= i < |sorted| ==> !sorted[i].policyOk
    ensures p.Picked? ==> exists i :: 0 <= i < |sorted| && IsFirstOk(sorted, i) && sorted[i] == p.c
  {
    for i := 0 to |sorted|
      invariant forall j :: 0 <= j < i ==> !sorted[j].policyOk
    {
      if sorted[i].policyOk {
        assert IsFirstOk(sorted, i);
        return Picked(sorted[i]);
      }
    }
    p := NoPick;
  }

  predicate IsFirstOk(sorted: seq<Candidate>, i: nat) {
    i < |sorted| && sorted[i].policyOk && forall j :: 0 <= j < i ==> !sorted[j].policyOk
  }

  /** Whatever permutation the sort produces, its first compatible candidate is the least
      compatible one of all. */
  lemma FirstIsLeast(st: Strategy, cs: seq<Candidate>, sorted: seq<Candidate>, i: nat)
    requires OneRequest(cs) && multiset(cs) == multiset(sorted) && Sorted(st, sorted) && IsFirstOk(sorted, i)
    ensures IsLeastCompatible(st, multiset(cs), Picked(sorted[i]))
  {
    PermutationOneRequest(cs, sorted);
    var p := sorted[i];
    assert p in multiset(sorted);
    forall c | c in multiset(cs) && c.policyOk && c != p
      ensures Before(st, p, c)
    {
      assert c in sorted;
      var j :| 0 <= j < |sorted| && sorted[j] == c;
      assert i < j;
      StrictTotalOrder(st, p, c, c);
    }
  }

  lemma NoneIsLeast(st: Strategy, cs: seq<Candidate>, sorted: seq<Candidate>)
    requires multiset(cs) == multiset(sorted) && forall i :: 0 <= i < |sorted| ==> !sorted[i].policyOk
    ensures IsLeastCompatible(st, multiset(cs), NoPick)
  {
    forall c | c in multiset(cs)
      ensures !c.policyOk
    {
      assert c in multiset(sorted);
      assert c in sorted;
    }
  }

  /** The least compatible candidate is unique, so the choice does not depend on how the
      sort breaks ties or on the order in which the leaves were scanned. */
  lemma LeastIsUnique(st: Strategy, cs: seq<Candidate>, p: Pick, p': Pick)
    requires OneRequest(cs)
    requires IsLeastCompatible(st, multiset(cs), p) && IsLeastCompatible(st, multiset(cs), p')
    ensures p == p'
  {
    PermutationOneRequest(cs, cs);
    if p.Picked? && p'.Picked? {
      assert p.c in cs && p'.c in cs;
      assert p.c != p'.c ==> Before(st, p.c, p'.c) && Before(st, p'.c, p.c);
      StrictTotalOrder(st, p.c, p'.c, p.c);
    }
  }

  datatype Result = Invalid | NoResource | Chosen(leaf: nat, id: nat)

  /** What an evaluation in automatic-selection mode returns: the leaf that comes first
      among those eligible with a compatible policy, with its least free id. */
  ghost predicate IsAutomaticChoice(q: Request, ls: seq<Leaf>, st: Strategy, r: Result)
    requires LeavesOk(ls)
  {
    match r
    case Invalid => !ValidRequest(q)
    case NoResource => ValidRequest(q) && forall i :: 0 <= i < |ls| && Eligible(q, ls[i]) ==> !PolicyOk(q, ls[i].die)
    case Chosen(k, id) =>
      && ValidRequest(q)
      && k < |ls| && Eligible(q, ls[k]) && PolicyOk(q, ls[k].die) && id == Least(ls[k].die.free)
      && forall i :: 0 <= i < |ls| && i != k && Eligible(q, ls[i]) && PolicyOk(q, ls[i].die) ==>
           Before(st, CandidateOf(q, ls[k], k), CandidateOf(q, ls[i], i))
  }

  /** Sorting and picking yields the automatic choice over the leaves. */
  lemma PickIsAutomaticChoice(q: Request, ls: seq<Leaf>, st: Strategy, p: Pick)
    requires ValidRequest(q) && LeavesOk(ls) && IsLeastCompatible(st, multiset(Candidates(q, ls)), p)
    ensures IsAutomaticChoice(q, ls, st, if p.NoPick? then NoResource else Chosen(p.c.leaf, p.c.id))
  {
    CandidatesAreEligible(q, ls);
    var cs := Candidates(q, ls);
    forall i | 0 <= i < |ls| && Eligible(q, ls[i])
      ensures CandidateOf(q, ls[i], i) in multiset(cs)
    {
      assert CandidateOf(q, ls[i], i) in cs;
    }
    if p.Picked? {
      assert p.c in cs;
    }
  }

  /** The scan of the leaves, at most `MAX_CANDIDATES` of which exist. */
  method CollectCandidates(q: Request, ls: seq<Leaf>) returns (cs: seq<Candidate>)
    requires LeavesOk(ls) && |ls| <= MAX_CANDIDATES
    ensures cs == Candidates(q, ls)
  {
    cs := [];
    for i := 0 to |ls|
      invariant |cs| <= i
      invariant cs == Candidates(q, ls[..i])
    {
      assert ls[..i + 1][..i] == ls[..i] && ls[..i + 1][i] == ls[i];
      if |cs| < MAX_CANDIDATES && Eligible(q, ls[i]) {
        cs := cs + [CandidateOf(q, ls[i], i)];
      }
    }
    assert ls[..|ls|] == ls;
  }

  /** What a leaf is ranked by for a request, most important first; smaller is better. */
  function LeafRank(q: Request, st: Strategy, l: Leaf): seq<int> {
    if q.priority == PRIORITY_HIGH then [0, l.die.count, 0 - l.die.hbm, l.minor]
    else if st == Compact then [if l.ratio > 0.0 then 1 else 0, 0 - l.die.count, l.die.aicore, l.minor]
    else [if l.ratio > 0.0 then 1 else 0, l.die.count, 0 - l.die.aicore, l.minor]
  }

  /** Leaf `k` has the least rank of all that are eligible with a compatible policy. */
  predicate HasLeastRank(q: Request, ls: seq<Leaf>, st: Strategy, k: nat)
    requires k < |ls|
  {
    forall i :: 0 <= i < |ls| && i != k && Eligible(q, ls[i]) && PolicyOk(q, ls[i].die) ==>
      LexLess(LeafRank(q, st, ls[k]), LeafRank(q, st, ls[i]))
  }

  lemma BeforeByLeaf(q: Request, st: Strategy, l: Leaf, i: nat, l': Leaf, i': nat)
    requires Eligible(q, l) && Eligible(q, l') && MaskOk(l.die.free) && MaskOk(l'.die.free)
    ensures Before(st, CandidateOf(q, l, i), CandidateOf(q, l', i')) <==>
            LexLess(LeafRank(q, st, l), LeafRank(q, st, l'))
  {
    var a, b := CandidateOf(q, l, i), CandidateOf(q, l', i');
    BeforeIsSmallerRank(st, a, b);
    assert Rank(st, a) == LeafRank(q, st, l) && Rank(st, b) == LeafRank(q, st, l');
  }

  lemma ChoiceHasLeastRank(q: Request, ls: seq<Leaf>, st: Strategy, r: Result)
    requires LeavesOk(ls) && IsAutomaticChoice(q, ls, st, r)
    ensures r.Chosen? ==> HasLeastRank(q, ls, st, r.leaf)
  {
    if r.Chosen? {
      forall i | 0 <= i < |ls| && i != r.leaf && Eligible(q, ls[i]) && PolicyOk(q, ls[i].die)
        ensures LexLess(LeafRank(q, st, ls[r.leaf]), LeafRank(q, st, ls[i]))
      {
        BeforeByLeaf(q, st, ls[r.leaf], r.leaf, ls[i], i);
      }
    }
  }

  /** A die can take a request exactly when it is a wanted one, has the card number of a
      candidate, grants more memory than requested only if oversubscribed, and has room in
      each of its four resources: the limits of all vNPUs stay within (1 + ratio) times
      the memory, and no quota and no free id is overdrawn. */
  lemma EligibleIff(q: Request, l: Leaf)
    ensures Eligible(q, l) <==>
            && (q.wanted < 0 || q.wanted == l.phy) && 0 <= l.phy <= 15
            && (q.limit > q.hbm ==> l.ratio > 0.0) && l.totalMb - q.limit >= 0
            && (l.limitSum + q.limit) as real <= (1.0 + l.ratio) * (l.totalMb as real)
            && l.die.aicore - q.aicore >= 0 && l.die.hbm - q.hbm >= 0
            && exists id :: id in l.die.free
  {
    var x, n := (1.0 + l.ratio) * (l.totalMb as real), l.limitSum + q.limit;
    assert x.Floor as real <= x < (x.Floor + 1) as real;
    assert n <= x.Floor <==> n as real <= x;
    assert l.die.free != {} <==> exists id :: id in l.die.free;
  }

  // ---------------------------------------------------------------------------
  // Independence of the order of the leaves
  // ---------------------------------------------------------------------------

  lemma SameLeaf(ls: seq<Leaf>, ls': seq<Leaf>, i: nat) returns (j: nat)
    requires multiset(ls) == multiset(ls') && i < |ls|
    ensures j < |ls'| && ls'[j] == ls[i]
  {
    assert ls[i] in multiset(ls');
    assert ls[i] in ls';
    j :| 0 <= j < |ls'| && ls'[j] == ls[i];
  }

  /** The die chosen is the same for every order of the leaves. */
  lemma ChoiceIgnoresLeafOrder(q: Request, ls: seq<Leaf>, ls': seq<Leaf>, st: Strategy, r: Result, r': Result)
    requires multiset(ls) == multiset(ls') && LeavesOk(ls) && LeavesOk(ls') && DistinctMinors(ls)
    requires IsAutomaticChoice(q, ls, st, r) && IsAutomaticChoice(q, ls', st, r')
    ensures r.Chosen? <==> r'.Chosen?
    ensures r.Chosen? ==> ls[r.leaf] == ls'[r'.leaf] && r.id == r'.id
    ensures !r.Chosen? ==> r == r'
  {
    if r.Chosen? {
      var j := SameLeaf(ls, ls', r.leaf);
      assert r'.Chosen?;
    }
    if r'.Chosen? {
      var i := SameLeaf(ls', ls, r'.leaf);
      assert r.Chosen?;
      var j := SameLeaf(ls, ls', r.leaf);
      BothFirst(q, ls, ls', st, r, r', i, j);
    }
  }

  lemma BothFirst(q: Request, ls: seq<Leaf>, ls': seq<Leaf>, st: Strategy, r: Result, r': Result, i: nat, j: nat)
    requires LeavesOk(ls) && LeavesOk(ls') && r.Chosen? && r'.Chosen?
    requires IsAutomaticChoice(q, ls, st, r) && IsAutomaticChoice(q, ls', st, r')
    requires i < |ls| && j < |ls'| && ls[i] == ls'[r'.leaf] && ls'[j] == ls[r.leaf]
    ensures ls[r.leaf] == ls'[r'.leaf] && r.id == r'.id
  {
    var a, b := CandidateOf(q, ls[r.leaf], r.leaf), CandidateOf(q, ls[i], i);
    var a', b' := CandidateOf(q, ls'[j], j), CandidateOf(q, ls'[r'.leaf], r'.leaf);
    assert i != r.leaf ==> Before(st, a, b);
    assert j != r'.leaf ==> Before(st, b', a');
    StrictTotalOrder(st, a, b, a);
    StrictTotalOrder(st, b', a', b');
  }

  // ---------------------------------------------------------------------------
  // The evaluator
  // ---------------------------------------------------------------------------

  predicate SamePriority(cs: seq<Candidate>) {
    forall a, b :: a in cs && b in cs ==> a.high == b.high
  }

  /** Stands for the library sort: any sorted permutation would do. */
  function Insert(st: Strategy, cs: seq<Candidate>, c: Candidate): seq<Candidate> {
    if |cs| == 0 || Compare(st, c, cs[0]) <= 0 then [c] + cs else [cs[0]] + Insert(st, cs[1..], c)
  }

  lemma {:induction false} InsertPermutes(st: Strategy, cs: seq<Candidate>, c: Candidate)
    ensures multiset(Insert(st, cs, c)) == multiset(cs) + multiset{c}
  {
    if !(|cs| == 0 || Compare(st, c, cs[0]) <= 0) {
      InsertPermutes(st, cs[1..], c);
      assert cs == [cs[0]] + cs[1..];
    }
  }

  lemma InsertMembers(st: Strategy, cs: seq<Candidate>, c: Candidate, x: Candidate)
    requires x in Insert(st, cs, c)
    ensures x in cs || x == c
  {
    InsertPermutes(st, cs, c);
    assert x in multiset(Insert(st, cs, c));
  }

  predicate NotBelow(st: Strategy, a: Candidate, cs: seq<Candidate>) {
    forall x :: x in cs ==> Compare(st, a, x) <= 0
  }

  lemma SortedCons(st: Strategy, a: Candidate, cs: seq<Candidate>)
    requires Sorted(st, cs) && NotBelow(st, a, cs)
    ensures Sorted(st, [a] + cs)
  {
  }

  lemma {:induction false} InsertSorts(st: Strategy, cs: seq<Candidate>, c: Candidate)
    requires (forall x :: x in cs ==> x.high == c.high) && Sorted(st, cs)
    ensures Sorted(st, Insert(st, cs, c))
  {
    if |cs| == 0 {
      SortedCons(st, c, cs);
    } else if Compare(st, c, cs[0]) <= 0 {
      forall x | x in cs
        ensures Compare(st, c, x) <= 0
      {
        NotAfter(st, c, cs[0], x);
      }
      SortedCons(st, c, cs);
    } else {
      InsertSorts(st, cs[1..], c);
      var rest := Insert(st, cs[1..], c);
      forall x | x in rest
        ensures Compare(st, cs[0], x) <= 0
      {
        InsertMembers(st, cs[1..], c, x);
        StrictTotalOrder(st, cs[0], c, c);
      }
      SortedCons(st, cs[0], rest);
    }
  }

  lemma NotAfter(st: Strategy, a: Candidate, b: Candidate, c: Candidate)
    requires a.high == b.high == c.high && Compare(st, a, b) <= 0 && Compare(st, b, c) <= 0
    ensures Compare(st, a, c) <= 0
  {
  }

  method SortCandidates(st: Strategy, cs: seq<Candidate>) returns (sorted: seq<Candidate>)
    requires SamePriority(cs)
    ensures multiset(sorted) == multiset(cs) && Sorted(st, sorted)
  {
    sorted := [];
    for i := 0 to |cs|
      invariant multiset(sorted) == multiset(cs[..i]) && Sorted(st, sorted)
    {
      assert cs[..i + 1] == cs[..i] + [cs[i]];
      forall x | x in sorted
        ensures x.high == cs[i].high
      {
        assert x in multiset(cs[..i]);
        assert x in cs[..i];
      }
      InsertSorts(st, sorted, cs[i]);
      InsertPermutes(st, sorted, cs[i]);
      sorted := Insert(st, sorted, cs[i]);
    }
    assert cs[..|cs|] == cs;
  }

  /** With a wanted card, the first eligible leaf is taken or the request fails. */
  ghost predicate IsWantedChoice(q: Request, ls: seq<Leaf>, r: Result)
    requires LeavesOk(ls)
  {
    match r
    case Invalid => !ValidRequest(q)
    case NoResource =>
      && ValidRequest(q)
      && forall i: nat :: FirstEligible(q, ls, i) ==> !PolicyOk(q, ls[i].die)
    case Chosen(k, id) =>
      ValidRequest(q) && FirstEligible(q, ls, k) && PolicyOk(q, ls[k].die) && id == Least(ls[k].die.free)
  }

  predicate FirstEligible(q: Request, ls: seq<Leaf>, k: nat) {
    k < |ls| && Eligible(q, ls[k]) && forall i :: 0 <= i < k ==> !Eligible(q, ls[i])
  }

  lemma HeadIsFirstEligible(q: Request, ls: seq<Leaf>)
    requires LeavesOk(ls)
    ensures var cs := Candidates(q, ls);
            if |cs| == 0 then forall i :: 0 <= i < |ls| ==> !Eligible(q, ls[i]) else
              FirstEligible(q, ls, cs[0].leaf) && cs[0] == CandidateOf(q, ls[cs[0].leaf], cs[0].leaf)
  {
    CandidatesAreEligible(q, ls);
    var cs := Candidates(q, ls);
    forall i | 0 <= i < |ls| && Eligible(q, ls[i])
      ensures |cs| > 0 && cs[0].leaf <= i
    {
      var c := CandidateOf(q, ls[i], i);
      assert c in cs;
      var m :| 0 <= m < |cs| && cs[m] == c;
    }
    if |cs| > 0 {
      assert cs[0] in cs;
    }
  }

  /** Sorts the candidates and takes the first that fits. */
  method PickLeast(q: Request, ls: seq<Leaf>, st: Strategy, cs: seq<Candidate>) returns (p: Pick)
    requires LeavesOk(ls) && DistinctMinors(ls) && cs == Candidates(q, ls)
    ensures IsLeastCompatible(st, multiset(cs), p)
  {
    CandidatesOneRequest(q, ls);
    var sorted := SortCandidates(st, cs);
    p := PickFirst(sorted);
    if p.NoPick? {
      NoneIsLeast(st, cs, sorted);
    } else {
      ghost var i :| 0 <= i < |sorted| && IsFirstOk(sorted, i) && sorted[i] == p.c;
      FirstIsLeast(st, cs, sorted, i);
    }
  }

  /** `evaluator_share_evaluate`. */
  method EvaluateShare(q: Request, ls: seq<Leaf>, st: Strategy) returns (r: Result)
    requires LeavesOk(ls) && DistinctMinors(ls) && |ls| <= MAX_CANDIDATES
    ensures r.Invalid? <==>
            !(q.hbm > 0 && (q.priority == 1 || (q.priority == 0 && q.aicore > 0 && q.policy in {1, 2, 3})))
    ensures q.wanted < 0 ==> IsAutomaticChoice(q, ls, st, r)
    ensures q.wanted < 0 && r.Chosen? ==> r.leaf < |ls| && HasLeastRank(q, ls, st, r.leaf)
    ensures q.wanted >= 0 ==> IsWantedChoice(q, ls, r)
  {
    if !ValidRequest(q) {
      return Invalid;
    }
    var cs := CollectCandidates(q, ls);
    HeadIsFirstEligible(q, ls);
    if |cs| == 0 {
      return NoResource;
    }
    if q.wanted >= 0 {
      return if cs[0].policyOk then Chosen(cs[0].leaf, cs[0].id) else NoResource;
    }
    var p := PickLeast(q, ls, st, cs);
    PickIsAutomaticChoice(q, ls, st, p);
    r := if p.NoPick? then NoResource else Chosen(p.c.leaf, p.c.id);
    ChoiceHasLeastRank(q, ls, st, r);
  }
}
