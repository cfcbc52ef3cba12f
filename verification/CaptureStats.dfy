/**
 Attribution of kernel launches to single operators, captured graphs and task groups
 (`vcann-rt/src/core_limiter.c`).

 The counters that the runtime keeps are compared with a book that keeps the launches
 themselves.  Handles are numbers, zero being NULL; allocation of map entries succeeds.
 */
module CaptureStats {
  import opened Sums

  const MAX_GRPS_PER_CAPTURE: nat := 64

  datatype Launch = Launch(id: nat, dim: nat)

  datatype Mode = Idle | InGroup | InUpdate(handle: nat)

  datatype Event =
    | Dispatch(s: nat, l: Launch, capturing: bool)
    | GroupBegin(s: nat)
    | GroupEnd(s: nat, handle: nat)
    | UpdateBegin(s: nat, handle: nat)
    | UpdateEnd(s: nat)
    | Transfer(s: nat, m: nat)

  // ---------------------------------------------------------------------------
  // The counters
  // ---------------------------------------------------------------------------

  /** `stats_buffer_t`. */
  datatype Buffer = Buffer(dim: nat, count: nat, groups: seq<nat>)

  /** The task-group state and the capture buffer of a stream. */
  datatype Stream = Stream(mode: Mode, tmpDim: nat, tmpCount: nat, buf: Buffer)

  datatype Stats = Stats(streams: seq<Stream>, models: seq<Buffer>, groupDim: map<nat, nat>,
                         singleDim: nat, singleCount: nat)

  predicate InRange(e: Event, streams: nat, models: nat) { e.s < streams && (e.Transfer? ==> e.m < models) }

  function Take(handles: seq<nat>): (r: seq<nat>)
    ensures |r| <= MAX_GRPS_PER_CAPTURE
  {
    if |handles| <= MAX_GRPS_PER_CAPTURE then handles else handles[..MAX_GRPS_PER_CAPTURE]
  }

  function SetGroup<T>(m: map<nat, T>, handle: nat, x: T): map<nat, T> { if handle == 0 then m else m[handle := x] }

  function CountLaunch(st: Stats, s: nat, dim: nat, capturing: bool): Stats
    requires s < |st.streams|
  {
    var x := st.streams[s];
    if x.mode != Idle then
      st.(streams := st.streams[s := x.(tmpDim := x.tmpDim + dim, tmpCount := x.tmpCount + 1)])
    else if capturing then
      st.(streams := st.streams[s := x.(buf := x.buf.(dim := x.buf.dim + dim, count := x.buf.count + 1))])
    else st.(singleDim := st.singleDim + dim, singleCount := st.singleCount + 1)
  }

  function EndGroup(x: Stream, handle: nat): Stream {
    Stream(Idle, 0, 0, Buffer(x.buf.dim, x.buf.count + x.tmpCount, Take(x.buf.groups + [handle])))
  }

  function Moved(from: Buffer, to: Buffer): Buffer {
    Buffer(to.dim + from.dim, to.count + from.count, Take(to.groups + from.groups))
  }

  function Apply(st: Stats, e: Event): Stats
    requires InRange(e, |st.streams|, |st.models|)
  {
    var x := st.streams[e.s];
    match e
    case Dispatch(s, l, capturing) => CountLaunch(st, s, l.dim, capturing)
    case GroupBegin(s) => st.(streams := st.streams[s := Stream(InGroup, 0, 0, x.buf)])
    case GroupEnd(s, handle) =>
      if x.mode != InGroup then st else
        st.(streams := st.streams[s := EndGroup(x, handle)], groupDim := SetGroup(st.groupDim, handle, x.tmpDim))
    case UpdateBegin(s, handle) => st.(streams := st.streams[s := Stream(InUpdate(handle), 0, 0, x.buf)])
    case UpdateEnd(s) =>
      if !x.mode.InUpdate? then st else
        st.(streams := st.streams[s := Stream(Idle, 0, 0, x.buf)],
            groupDim := SetGroup(st.groupDim, x.mode.handle, x.tmpDim))
    case Transfer(s, m) =>
      st.(streams := st.streams[s := x.(buf := Buffer(0, 0, []))],
          models := st.models[m := Moved(x.buf, st.models[m])])
  }

  function GroupDim(groupDim: map<nat, nat>, handle: nat): nat {
    if handle != 0 && handle in groupDim then groupDim[handle] else 0
  }

  function GroupDims(groupDim: map<nat, nat>, handles: seq<nat>): nat {
    if |handles| == 0 then 0 else
      GroupDims(groupDim, handles[..|handles| - 1]) + GroupDim(groupDim, handles[|handles| - 1])
  }

  /** `model_stats_total_block_dim`. */
  method ModelTotalBlockDim(buf: Buffer, groupDim: map<nat, nat>) returns (total: nat)
    ensures total == buf.dim + GroupDims(groupDim, buf.groups)
  {
    total := buf.dim;
    for i := 0 to |buf.groups|
      invariant total == buf.dim + GroupDims(groupDim, buf.groups[..i])
    {
      assert buf.groups[..i + 1][..i] == buf.groups[..i];
      total := total + GroupDim(groupDim, buf.groups[i]);
    }
    assert buf.groups[..|buf.groups|] == buf.groups;
  }

  // ---------------------------------------------------------------------------
  // The book
  // ---------------------------------------------------------------------------

  /** Launches captured directly, launches in finished groups, and the groups' handles. */
  datatype Bin = Bin(direct: seq<Launch>, grouped: seq<Launch>, handles: seq<nat>)

  datatype Page = Page(mode: Mode, tmp: seq<Launch>, bin: Bin)

  /** `latest` holds, for every group, the launches of its latest build or update. */
  datatype Book = Book(pages: seq<Page>, models: seq<Bin>, latest: map<nat, seq<Launch>>, singles: seq<Launch>)

  function Enter(b: Book, s: nat, l: Launch, capturing: bool): Book
    requires s < |b.pages|
  {
    var x := b.pages[s];
    if x.mode != Idle then b.(pages := b.pages[s := x.(tmp := x.tmp + [l])])
    else if capturing then b.(pages := b.pages[s := x.(bin := x.bin.(direct := x.bin.direct + [l]))])
    else b.(singles := b.singles + [l])
  }

  function Write(b: Book, e: Event): Book
    requires InRange(e, |b.pages|, |b.models|)
  {
    var x := b.pages[e.s];
    match e
    case Dispatch(s, l, capturing) => Enter(b, s, l, capturing)
    case GroupBegin(s) => b.(pages := b.pages[s := Page(InGroup, [], x.bin)])
    case GroupEnd(s, handle) =>
      if x.mode != InGroup then b else
        b.(pages := b.pages[s := Page(Idle, [], Bin(x.bin.direct, x.bin.grouped + x.tmp, x.bin.handles + [handle]))],
           latest := SetGroup(b.latest, handle, x.tmp))
    case UpdateBegin(s, handle) => b.(pages := b.pages[s := Page(InUpdate(handle), [], x.bin)])
    case UpdateEnd(s) =>
      if !x.mode.InUpdate? then b else
        b.(pages := b.pages[s := Page(Idle, [], x.bin)], latest := SetGroup(b.latest, x.mode.handle, x.tmp))
    case Transfer(s, m) =>
      var to := b.models[m];
      b.(pages := b.pages[s := x.(bin := Bin([], [], []))],
         models := b.models[m := Bin(to.direct + x.bin.direct, to.grouped + x.bin.grouped, to.handles + x.bin.handles)])
  }

  // ---------------------------------------------------------------------------
  // The counters are the sums of the book
  // ---------------------------------------------------------------------------

  function Dims(ls: seq<Launch>): nat {
    if |ls| == 0 then 0 else Dims(ls[..|ls| - 1]) + ls[|ls| - 1].dim
  }

  function BufferOf(bin: Bin): Buffer { Buffer(Dims(bin.direct), |bin.direct| + |bin.grouped|, Take(bin.handles)) }

  function StreamOf(p: Page): Stream { Stream(p.mode, Dims(p.tmp), |p.tmp|, BufferOf(p.bin)) }

  function Streams(ps: seq<Page>): (r: seq<Stream>)
    ensures |r| == |ps|
  {
    seq(|ps|, i requires 0 <= i < |ps| => StreamOf(ps[i]))
  }

  function Models(bs: seq<Bin>): (r: seq<Buffer>)
    ensures |r| == |bs|
  {
    seq(|bs|, i requires 0 <= i < |bs| => BufferOf(bs[i]))
  }

  function LatestDims(latest: map<nat, seq<Launch>>): map<nat, nat> { map h | h in latest :: Dims(latest[h]) }

  /** The counters that a book stands for. */
  function Totals(b: Book): Stats {
    Stats(Streams(b.pages), Models(b.models), LatestDims(b.latest), Dims(b.singles), |b.singles|)
  }

  lemma {:induction false} DimsConcat(a: seq<Launch>, b: seq<Launch>)
    ensures Dims(a + b) == Dims(a) + Dims(b)
  {
    if |b| == 0 {
      assert a + b == a;
    } else {
      var n := |b| - 1;
      DimsConcat(a, b[..n]);
      assert (a + b)[..|a| + n] == a + b[..n];
    }
  }

  lemma DimsAppend(a: seq<Launch>, l: Launch)
    ensures Dims(a + [l]) == Dims(a) + l.dim
  {
    assert (a + [l])[..|a|] == a;
  }

  /** Cutting the two parts of a list of groups before joining loses nothing that cutting
      the joined list keeps. */
  lemma TakeConcat(a: seq<nat>, b: seq<nat>)
    ensures Take(Take(a) + Take(b)) == Take(a + b)
  {
    var n := MAX_GRPS_PER_CAPTURE;
    if |a| <= n && |b| > n {
      assert (a + b[..n])[..n] == (a + b)[..n];
    } else if |a| > n {
      assert (a[..n] + Take(b))[..n] == a[..n] == (a + b)[..n];
    }
  }

  lemma TakeAppend(a: seq<nat>, h: nat)
    ensures Take(Take(a) + [h]) == Take(a + [h])
  {
    TakeConcat(a, [h]);
  }

  lemma StreamsUpdate(ps: seq<Page>, s: nat, p: Page)
    requires s < |ps|
    ensures Streams(ps[s := p]) == Streams(ps)[s := StreamOf(p)]
  {
  }

  lemma ModelsUpdate(bs: seq<Bin>, m: nat, b: Bin)
    requires m < |bs|
    ensures Models(bs[m := b]) == Models(bs)[m := BufferOf(b)]
  {
  }

  lemma LatestUpdate(latest: map<nat, seq<Launch>>, handle: nat, ls: seq<Launch>)
    ensures LatestDims(SetGroup(latest, handle, ls)) == SetGroup(LatestDims(latest), handle, Dims(ls))
  {
  }

  lemma GroupLaunchRefines(b: Book, s: nat, l: Launch, capturing: bool)
    requires s < |b.pages| && b.pages[s].mode != Idle
    ensures CountLaunch(Totals(b), s, l.dim, capturing) == Totals(Enter(b, s, l, capturing))
  {
    var x := b.pages[s];
    DimsAppend(x.tmp, l);
    StreamsUpdate(b.pages, s, x.(tmp := x.tmp + [l]));
  }

  lemma CapturedLaunchRefines(b: Book, s: nat, l: Launch)
    requires s < |b.pages| && b.pages[s].mode == Idle
    ensures CountLaunch(Totals(b), s, l.dim, true) == Totals(Enter(b, s, l, true))
  {
    var x := b.pages[s];
    DimsAppend(x.bin.direct, l);
    StreamsUpdate(b.pages, s, x.(bin := x.bin.(direct := x.bin.direct + [l])));
  }

  lemma SingleLaunchRefines(b: Book, s: nat, l: Launch)
    requires s < |b.pages| && b.pages[s].mode == Idle
    ensures CountLaunch(Totals(b), s, l.dim, false) == Totals(Enter(b, s, l, false))
  {
    DimsAppend(b.singles, l);
  }

  lemma DispatchRefines(b: Book, s: nat, l: Launch, capturing: bool)
    requires s < |b.pages|
    ensures CountLaunch(Totals(b), s, l.dim, capturing) == Totals(Enter(b, s, l, capturing))
  {
    if b.pages[s].mode != Idle {
      GroupLaunchRefines(b, s, l, capturing);
    } else if capturing {
      CapturedLaunchRefines(b, s, l);
    } else {
      SingleLaunchRefines(b, s, l);
    }
  }

  lemma GroupEndRefines(b: Book, s: nat, handle: nat)
    requires s < |b.pages|
    ensures Apply(Totals(b), GroupEnd(s, handle)) == Totals(Write(b, GroupEnd(s, handle)))
  {
    var x := b.pages[s];
    if x.mode == InGroup {
      TakeAppend(x.bin.handles, handle);
      StreamsUpdate(b.pages, s, Write(b, GroupEnd(s, handle)).pages[s]);
      LatestUpdate(b.latest, handle, x.tmp);
    }
  }

  lemma UpdateEndRefines(b: Book, s: nat)
    requires s < |b.pages|
    ensures Apply(Totals(b), UpdateEnd(s)) == Totals(Write(b, UpdateEnd(s)))
  {
    var x := b.pages[s];
    if x.mode.InUpdate? {
      StreamsUpdate(b.pages, s, Write(b, UpdateEnd(s)).pages[s]);
      LatestUpdate(b.latest, x.mode.handle, x.tmp);
    }
  }

  lemma TransferRefines(b: Book, s: nat, m: nat)
    requires s < |b.pages| && m < |b.models|
    ensures Apply(Totals(b), Transfer(s, m)) == Totals(Write(b, Transfer(s, m)))
  {
    var x, to := b.pages[s].bin, b.models[m];
    var b' := Write(b, Transfer(s, m));
    DimsConcat(to.direct, x.direct);
    TakeConcat(to.handles, x.handles);
    StreamsUpdate(b.pages, s, b'.pages[s]);
    ModelsUpdate(b.models, m, b'.models[m]);
  }

  /** Every event changes the counters exactly as it changes the sums of the book. */
  lemma EventRefines(b: Book, e: Event)
    requires InRange(e, |b.pages|, |b.models|)
    ensures Apply(Totals(b), e) == Totals(Write(b, e))
  {
    match e
    case Dispatch(s, l, capturing) => DispatchRefines(b, s, l, capturing);
    case GroupBegin(s) => StreamsUpdate(b.pages, s, Page(InGroup, [], b.pages[s].bin));
    case GroupEnd(s, handle) => GroupEndRefines(b, s, handle);
    case UpdateBegin(s, handle) => StreamsUpdate(b.pages, s, Page(InUpdate(handle), [], b.pages[s].bin));
    case UpdateEnd(s) => UpdateEndRefines(b, s);
    case Transfer(s, m) => TransferRefines(b, s, m);
  }

  predicate AllInRange(es: seq<Event>, streams: nat, models: nat) {
    forall e :: e in es ==> InRange(e, streams, models)
  }

  function Run(st: Stats, es: seq<Event>): (r: Stats)
    requires AllInRange(es, |st.streams|, |st.models|)
    ensures |r.streams| == |st.streams| && |r.models| == |st.models|
    decreases |es|
  {
    if |es| == 0 then st else Run(Apply(st, es[0]), es[1..])
  }

  function WriteAll(b: Book, es: seq<Event>): (r: Book)
    requires AllInRange(es, |b.pages|, |b.models|)
    ensures |r.pages| == |b.pages| && |r.models| == |b.models|
    decreases |es|
  {
    if |es| == 0 then b else WriteAll(Write(b, es[0]), es[1..])
  }

  /** Over every run, bracketed or not, the counters are the sums of the book. */
  lemma {:induction false} RunRefines(b: Book, es: seq<Event>)
    requires AllInRange(es, |b.pages|, |b.models|)
    ensures Run(Totals(b), es) == Totals(WriteAll(b, es))
    decreases |es|
  {
    if |es| > 0 {
      EventRefines(b, es[0]);
      RunRefines(Write(b, es[0]), es[1..]);
    }
  }

  // ---------------------------------------------------------------------------
  // Every launch is attributed once
  // ---------------------------------------------------------------------------

  /** Any measure of launches, summed over what a bin holds. */
  function BinMeasure(b: Bin, w: Launch -> int): int { Sum(b.direct, w) + Sum(b.grouped, w) }

  /** The same for a stream; launches of an update interval only refresh a group. */
  function PageMeasure(p: Page, w: Launch -> int): int {
    (if p.mode.InUpdate? then 0 else Sum(p.tmp, w)) + BinMeasure(p.bin, w)
  }

  function OfBin(w: Launch -> int): Bin -> int { (b: Bin) => BinMeasure(b, w) }

  function OfPage(w: Launch -> int): Page -> int { (p: Page) => PageMeasure(p, w) }

  /** The measure of all launches attributed to anything. */
  function Attributed(b: Book, w: Launch -> int): int {
    Sum(b.singles, w) + Sum(b.pages, OfPage(w)) + Sum(b.models, OfBin(w))
  }

  predicate Tidy(b: Book) { forall p :: p in b.pages ==> (p.mode == Idle ==> p.tmp == []) }

  /** Groups and updates begin only outside of groups and updates. */
  predicate Bracketed(b: Book, e: Event)
    requires InRange(e, |b.pages|, |b.models|)
  {
    e.GroupBegin? || e.UpdateBegin? ==> b.pages[e.s].mode == Idle
  }

  /** The event is a launch outside of an update interval. */
  predicate IsOutside(b: Book, e: Event)
    requires InRange(e, |b.pages|, |b.models|)
  {
    e.Dispatch? && !b.pages[e.s].mode.InUpdate?
  }

  lemma WriteKeepsTidy(b: Book, e: Event)
    requires InRange(e, |b.pages|, |b.models|) && Tidy(b)
    ensures Tidy(Write(b, e))
  {
    assert b.pages[e.s] in b.pages;
  }

  lemma DispatchAttributes(b: Book, e: Event, w: Launch -> int)
    requires InRange(e, |b.pages|, |b.models|) && e.Dispatch?
    ensures Attributed(Write(b, e), w) == Attributed(b, w) + (if IsOutside(b, e) then w(e.l) else 0)
  {
    var x := b.pages[e.s];
    if x.mode != Idle {
      SumAppend(x.tmp, e.l, w);
      SumUpdate(b.pages, e.s, x.(tmp := x.tmp + [e.l]), OfPage(w));
    } else if e.capturing {
      SumAppend(x.bin.direct, e.l, w);
      SumUpdate(b.pages, e.s, x.(bin := x.bin.(direct := x.bin.direct + [e.l])), OfPage(w));
    } else {
      SumAppend(b.singles, e.l, w);
    }
  }

  lemma TransferAttributes(b: Book, e: Event, w: Launch -> int)
    requires InRange(e, |b.pages|, |b.models|) && e.Transfer?
    ensures Attributed(Write(b, e), w) == Attributed(b, w)
  {
    var from, to := b.pages[e.s].bin, b.models[e.m];
    var b' := Write(b, e);
    SumConcat(to.direct, from.direct, w);
    SumConcat(to.grouped, from.grouped, w);
    SumUpdate(b.pages, e.s, b'.pages[e.s], OfPage(w));
    SumUpdate(b.models, e.m, b'.models[e.m], OfBin(w));
  }

  /** The launches of an open group that a begin throws away. */
  function DroppedBy(b: Book, e: Event): seq<Launch>
    requires InRange(e, |b.pages|, |b.models|)
  {
    if (e.GroupBegin? || e.UpdateBegin?) && b.pages[e.s].mode == InGroup then b.pages[e.s].tmp else []
  }

  lemma BracketChangesPage(b: Book, e: Event, w: Launch -> int)
    requires InRange(e, |b.pages|, |b.models|) && Tidy(b) && !e.Dispatch? && !e.Transfer?
    ensures PageMeasure(Write(b, e).pages[e.s], w) == PageMeasure(b.pages[e.s], w) - Sum(DroppedBy(b, e), w)
  {
    var x := b.pages[e.s];
    assert x in b.pages;
    assert Sum([], w) == 0;
    SumConcat(x.bin.grouped, x.tmp, w);
  }

  lemma BracketAttributes(b: Book, e: Event, w: Launch -> int)
    requires InRange(e, |b.pages|, |b.models|) && Tidy(b) && !e.Dispatch? && !e.Transfer?
    ensures Attributed(Write(b, e), w) == Attributed(b, w) - Sum(DroppedBy(b, e), w)
  {
    var p := Write(b, e).pages[e.s];
    BracketChangesPage(b, e, w);
    SumUpdate(b.pages, e.s, p, OfPage(w));
    assert Write(b, e).pages == b.pages[e.s := p];
  }

  lemma EventAttributes(b: Book, e: Event, w: Launch -> int)
    requires InRange(e, |b.pages|, |b.models|) && Tidy(b)
    ensures Attributed(Write(b, e), w) + Sum(DroppedBy(b, e), w) ==
            Attributed(b, w) + (if IsOutside(b, e) then w(e.l) else 0)
  {
    if e.Dispatch? {
      DispatchAttributes(b, e, w);
    } else if e.Transfer? {
      TransferAttributes(b, e, w);
    } else {
      BracketAttributes(b, e, w);
    }
  }

  /** A begin keeps what is attributed, by every measure, exactly when the stream has no
      open group with launches in it. */
  lemma BeginKeepsIff(b: Book, e: Event)
    requires InRange(e, |b.pages|, |b.models|) && Tidy(b) && (e.GroupBegin? || e.UpdateBegin?)
    ensures (forall w :: Attributed(Write(b, e), w) == Attributed(b, w)) <==>
            (b.pages[e.s].mode == InGroup ==> b.pages[e.s].tmp == [])
  {
    forall w
      ensures Attributed(Write(b, e), w) == Attributed(b, w) - Sum(DroppedBy(b, e), w)
    {
      BracketAttributes(b, e, w);
    }
    SumOnes(DroppedBy(b, e));
    if DroppedBy(b, e) != [] {
      assert Attributed(Write(b, e), One) != Attributed(b, One);
    }
  }

  predicate BracketedRun(b: Book, es: seq<Event>)
    requires AllInRange(es, |b.pages|, |b.models|)
    decreases |es|
  {
    |es| == 0 || (Bracketed(b, es[0]) && BracketedRun(Write(b, es[0]), es[1..]))
  }

  /** The launch of an event outside of an update interval, if it is one. */
  function OutsideLaunch(b: Book, e: Event): seq<Launch>
    requires InRange(e, |b.pages|, |b.models|)
  {
    if IsOutside(b, e) then [e.l] else []
  }

  /** The launches of a run outside of update intervals, in order. */
  function OutsideLaunches(b: Book, es: seq<Event>): seq<Launch>
    requires AllInRange(es, |b.pages|, |b.models|)
    decreases |es|
  {
    if |es| == 0 then [] else OutsideLaunch(b, es[0]) + OutsideLaunches(Write(b, es[0]), es[1..])
  }

  lemma OutsideSum(b: Book, e: Event, w: Launch -> int)
    requires InRange(e, |b.pages|, |b.models|)
    ensures Sum(OutsideLaunch(b, e), w) == if IsOutside(b, e) then w(e.l) else 0
  {
    if IsOutside(b, e) {
      SumCons(e.l, [], w);
      assert [e.l] + [] == [e.l];
    }
  }

  /** All that begins throw away in a run. */
  function Dropped(b: Book, es: seq<Event>): seq<Launch>
    requires AllInRange(es, |b.pages|, |b.models|)
    decreases |es|
  {
    if |es| == 0 then [] else DroppedBy(b, es[0]) + Dropped(Write(b, es[0]), es[1..])
  }

  lemma {:induction false} BracketedDropsNothing(b: Book, es: seq<Event>)
    requires AllInRange(es, |b.pages|, |b.models|) && BracketedRun(b, es)
    ensures Dropped(b, es) == []
    decreases |es|
  {
    if |es| > 0 {
      BracketedDropsNothing(Write(b, es[0]), es[1..]);
    }
  }

  lemma {:induction false} RunAttributes(b: Book, es: seq<Event>, w: Launch -> int)
    requires AllInRange(es, |b.pages|, |b.models|) && Tidy(b)
    ensures Attributed(WriteAll(b, es), w) + Sum(Dropped(b, es), w) ==
            Attributed(b, w) + Sum(OutsideLaunches(b, es), w)
    decreases |es|
  {
    if |es| > 0 {
      var b' := Write(b, es[0]);
      WriteKeepsTidy(b, es[0]);
      EventAttributes(b, es[0], w);
      OutsideSum(b, es[0], w);
      SumConcat(OutsideLaunch(b, es[0]), OutsideLaunches(b', es[1..]), w);
      SumConcat(DroppedBy(b, es[0]), Dropped(b', es[1..]), w);
      RunAttributes(b', es[1..], w);
    }
  }

  function Blank(streams: nat, models: nat): Book {
    Book(seq(streams, _ => Page(Idle, [], Bin([], [], []))), seq(models, _ => Bin([], [], [])), map[], [])
  }

  lemma BlankIsZero(w: Launch -> int)
    ensures OfBin(w)(Bin([], [], [])) == 0 && OfPage(w)(Page(Idle, [], Bin([], [], []))) == 0
  {
    assert Sum([], w) == 0;
  }

  /** In every run, bracketed or not, and whatever is measured of launches (their number,
      their block dimensions, the occurrences of one of them): what is attributed to single
      operators, streams and models, and what begins inside open groups threw away, is what
      was launched outside of update intervals. */
  lemma AttributedOrDropped(streams: nat, models: nat, es: seq<Event>, w: Launch -> int)
    requires AllInRange(es, streams, models)
    ensures var blank := Blank(streams, models);
            Attributed(WriteAll(blank, es), w) + Sum(Dropped(blank, es), w) == Sum(OutsideLaunches(blank, es), w)
  {
    var blank := Blank(streams, models);
    BlankIsZero(w);
    SumZero(blank.pages, OfPage(w));
    SumZero(blank.models, OfBin(w));
    RunAttributes(blank, es, w);
  }

  /** So in every bracketed run each such launch is attributed exactly once. */
  lemma AttributedOnce(streams: nat, models: nat, es: seq<Event>, w: Launch -> int)
    requires AllInRange(es, streams, models) && BracketedRun(Blank(streams, models), es)
    ensures var blank := Blank(streams, models);
            Attributed(WriteAll(blank, es), w) == Sum(OutsideLaunches(blank, es), w)
  {
    AttributedOrDropped(streams, models, es, w);
    BracketedDropsNothing(Blank(streams, models), es);
  }

  // The counters count the launches.

  function One(l: Launch): int { 1 }

  function StreamCount(x: Stream): int { x.buf.count + (if x.mode.InUpdate? then 0 else x.tmpCount) }

  function ModelCount(b: Buffer): int { b.count }

  lemma {:induction false} SumOnes(ls: seq<Launch>)
    ensures Sum(ls, One) == |ls|
  {
    if |ls| > 0 {
      SumOnes(ls[..|ls| - 1]);
    }
  }

  lemma {:induction false} StreamCountsAreSizes(ps: seq<Page>)
    ensures Sum(Streams(ps), StreamCount) == Sum(ps, OfPage(One))
  {
    if |ps| > 0 {
      var n := |ps| - 1;
      StreamCountsAreSizes(ps[..n]);
      assert Streams(ps)[..n] == Streams(ps[..n]) && Streams(ps)[n] == StreamOf(ps[n]);
      SumOnes(ps[n].tmp);
      SumOnes(ps[n].bin.direct);
      SumOnes(ps[n].bin.grouped);
      assert StreamCount(StreamOf(ps[n])) == PageMeasure(ps[n], One);
    }
  }

  lemma {:induction false} ModelCountsAreSizes(bs: seq<Bin>)
    ensures Sum(Models(bs), ModelCount) == Sum(bs, OfBin(One))
  {
    if |bs| > 0 {
      var n := |bs| - 1;
      ModelCountsAreSizes(bs[..n]);
      assert Models(bs)[..n] == Models(bs[..n]) && Models(bs)[n] == BufferOf(bs[n]);
      SumOnes(bs[n].direct);
      SumOnes(bs[n].grouped);
    }
  }

  /** In every run all counters together equal the number of launches outside of update
      intervals if and only if no begin fell into an open group with launches in it. */
  lemma CountsAddUpIff(streams: nat, models: nat, es: seq<Event>)
    requires AllInRange(es, streams, models)
    ensures var st := Run(Totals(Blank(streams, models)), es);
            (st.singleCount + Sum(st.streams, StreamCount) + Sum(st.models, ModelCount) ==
             |OutsideLaunches(Blank(streams, models), es)|) <==> Dropped(Blank(streams, models), es) == []
  {
    var blank := Blank(streams, models);
    var b := WriteAll(blank, es);
    AttributedOrDropped(streams, models, es, One);
    RunRefines(blank, es);
    StreamCountsAreSizes(b.pages);
    ModelCountsAreSizes(b.models);
    SumOnes(b.singles);
    SumOnes(OutsideLaunches(blank, es));
    SumOnes(Dropped(blank, es));
  }

  /** In every bracketed run they do. */
  lemma CountsAddUp(streams: nat, models: nat, es: seq<Event>)
    requires AllInRange(es, streams, models) && BracketedRun(Blank(streams, models), es)
    ensures var st := Run(Totals(Blank(streams, models)), es);
            st.singleCount + Sum(st.streams, StreamCount) + Sum(st.models, ModelCount) ==
            |OutsideLaunches(Blank(streams, models), es)|
  {
    CountsAddUpIff(streams, models, es);
    BracketedDropsNothing(Blank(streams, models), es);
  }

  /** A group begun again before it ends loses the launch it had. */
  lemma BegunTwiceDrops(l: Launch)
    ensures var es := [GroupBegin(0), Dispatch(0, l, true), GroupBegin(0)];
            AllInRange(es, 1, 1) && Dropped(Blank(1, 1), es) == [l]
  {
    var b0, es := Blank(1, 1), [GroupBegin(0), Dispatch(0, l, true), GroupBegin(0)];
    var b1 := Write(b0, es[0]);
    var b2 := Write(b1, es[1]);
    var b3 := Write(b2, es[2]);
    assert b2.pages[0].tmp == [l];
    assert es[1..][1..] == [GroupBegin(0)] && es[1..][1..][1..] == [];
    assert Dropped(b3, []) == [];
    assert Dropped(b2, [GroupBegin(0)]) == [l];
    assert Dropped(b1, es[1..]) == [l];
  }

  // ---------------------------------------------------------------------------
  // The block dimension of a model
  // ---------------------------------------------------------------------------

  function LatestOf(latest: map<nat, seq<Launch>>, handle: nat): seq<Launch> {
    if handle != 0 && handle in latest then latest[handle] else []
  }

  /** Block dimensions of the latest build or update of each group. */
  function GroupSum(latest: map<nat, seq<Launch>>, handles: seq<nat>): nat {
    if |handles| == 0 then 0 else
      GroupSum(latest, handles[..|handles| - 1]) + Dims(LatestOf(latest, handles[|handles| - 1]))
  }

  lemma {:induction false} GroupDimsAreSums(latest: map<nat, seq<Launch>>, handles: seq<nat>)
    ensures GroupDims(LatestDims(latest), handles) == GroupSum(latest, handles)
  {
    if |handles| > 0 {
      GroupDimsAreSums(latest, handles[..|handles| - 1]);
    }
  }

  lemma {:induction false} GroupSumConcat(latest: map<nat, seq<Launch>>, a: seq<nat>, b: seq<nat>)
    ensures GroupSum(latest, a + b) == GroupSum(latest, a) + GroupSum(latest, b)
  {
    if |b| == 0 {
      assert a + b == a;
    } else {
      var n := |b| - 1;
      GroupSumConcat(latest, a, b[..n]);
      assert (a + b)[..|a| + n] == a + b[..n];
    }
  }

  /** After every run, the total of a model is the block dimensions of its directly captured
      launches and of the latest build or update of its groups, exactly when the groups
      beyond the 64th have none; so always within the limit. */
  lemma ModelTotalIff(b: Book, es: seq<Event>, m: nat)
    requires AllInRange(es, |b.pages|, |b.models|) && m < |b.models|
    ensures var st, w := Run(Totals(b), es), WriteAll(b, es);
            var over := w.models[m].handles[|Take(w.models[m].handles)|..];
            (st.models[m].dim + GroupDims(st.groupDim, st.models[m].groups) ==
             Dims(w.models[m].direct) + GroupSum(w.latest, w.models[m].handles)) <==> GroupSum(w.latest, over) == 0
  {
    RunRefines(b, es);
    var w := WriteAll(b, es);
    var hs := w.models[m].handles;
    GroupDimsAreSums(w.latest, Take(hs));
    GroupSumConcat(w.latest, Take(hs), hs[|Take(hs)|..]);
    assert Take(hs) + hs[|Take(hs)|..] == hs;
  }

  /** The same, each group counted once however often its handle occurs. */
  function DistinctSum(latest: map<nat, seq<Launch>>, handles: seq<nat>): nat {
    DistinctSumBeyond(latest, [], handles)
  }

  /** The groups in `handles` that do not occur in `seen`, each counted once. */
  function DistinctSumBeyond(latest: map<nat, seq<Launch>>, seen: seq<nat>, handles: seq<nat>): nat {
    if |handles| == 0 then 0 else
      var n := |handles| - 1;
      DistinctSumBeyond(latest, seen, handles[..n])
      + (if handles[n] in seen || handles[n] in handles[..n] then 0 else Dims(LatestOf(latest, handles[n])))
  }

  /** What counting every occurrence counts more than once. */
  function RepeatedSum(latest: map<nat, seq<Launch>>, handles: seq<nat>): nat {
    if |handles| == 0 then 0 else
      var n := |handles| - 1;
      RepeatedSum(latest, handles[..n])
      + (if handles[n] in handles[..n] then Dims(LatestOf(latest, handles[n])) else 0)
  }

  lemma {:induction false} GroupSumSplits(latest: map<nat, seq<Launch>>, handles: seq<nat>)
    ensures GroupSum(latest, handles) == DistinctSum(latest, handles) + RepeatedSum(latest, handles)
  {
    if |handles| > 0 {
      GroupSumSplits(latest, handles[..|handles| - 1]);
    }
  }

  lemma {:induction false} DistinctSumConcat(latest: map<nat, seq<Launch>>, a: seq<nat>, b: seq<nat>)
    ensures DistinctSum(latest, a + b) == DistinctSum(latest, a) + DistinctSumBeyond(latest, a, b)
  {
    if |b| == 0 {
      assert a + b == a;
    } else {
      var n := |b| - 1;
      DistinctSumConcat(latest, a, b[..n]);
      assert (a + b)[..|a| + n] == a + b[..n];
    }
  }

  /** With every group counted once, the total of a model is right exactly when what it
      counts again among the first 64 handles equals what it misses beyond them; so within
      the limit, exactly when no group with launches occurs twice. */
  lemma ModelTotalDistinctIff(b: Book, es: seq<Event>, m: nat)
    requires AllInRange(es, |b.pages|, |b.models|) && m < |b.models|
    ensures var st, w := Run(Totals(b), es), WriteAll(b, es);
            var taken := Take(w.models[m].handles);
            (st.models[m].dim + GroupDims(st.groupDim, st.models[m].groups) ==
             Dims(w.models[m].direct) + DistinctSum(w.latest, w.models[m].handles)) <==>
            RepeatedSum(w.latest, taken) == DistinctSumBeyond(w.latest, taken, w.models[m].handles[|taken|..])
  {
    RunRefines(b, es);
    var w := WriteAll(b, es);
    var hs := w.models[m].handles;
    GroupDimsAreSums(w.latest, Take(hs));
    GroupSumSplits(w.latest, Take(hs));
    DistinctSumConcat(w.latest, Take(hs), hs[|Take(hs)|..]);
    assert Take(hs) + hs[|Take(hs)|..] == hs;
  }

  /** No group with launches occurs twice. */
  predicate NoneTwice(latest: map<nat, seq<Launch>>, handles: seq<nat>) {
    forall i, j :: 0 <= i < j < |handles| && handles[i] == handles[j] ==> Dims(LatestOf(latest, handles[i])) == 0
  }

  lemma {:induction false} NothingRepeatedIff(latest: map<nat, seq<Launch>>, handles: seq<nat>)
    ensures RepeatedSum(latest, handles) == 0 <==> NoneTwice(latest, handles)
  {
    if |handles| > 0 {
      var n := |handles| - 1;
      NothingRepeatedIff(latest, handles[..n]);
      if handles[n] in handles[..n] {
        var i :| 0 <= i < n && handles[i] == handles[n];
      }
    }
  }

  /** Within the limit of 64 handles the total is right, every group counted once, exactly
      when no group with launches occurs twice. */
  lemma ModelTotalWithinLimitIff(b: Book, es: seq<Event>, m: nat)
    requires AllInRange(es, |b.pages|, |b.models|) && m < |b.models|
    requires |WriteAll(b, es).models[m].handles| <= MAX_GRPS_PER_CAPTURE
    ensures var st, w := Run(Totals(b), es), WriteAll(b, es);
            (st.models[m].dim + GroupDims(st.groupDim, st.models[m].groups) ==
             Dims(w.models[m].direct) + DistinctSum(w.latest, w.models[m].handles)) <==>
            NoneTwice(w.latest, w.models[m].handles)
  {
    ModelTotalDistinctIff(b, es, m);
    NothingRepeatedIff(WriteAll(b, es).latest, WriteAll(b, es).models[m].handles);
  }

  /** A stream with its open launches, its handles and the value of one group. */
  function Capture(mode: Mode, tmp: seq<Launch>, grouped: seq<Launch>, handles: seq<nat>, model: Bin,
                   latest: map<nat, seq<Launch>>): Book
  {
    Book([Page(mode, tmp, Bin([], grouped, handles))], [model], latest, [])
  }

  function OneGroup(l: Launch, h: nat): seq<Event> { [GroupBegin(0)] + ([Dispatch(0, l, true)] + [GroupEnd(0, h)]) }

  lemma WriteFirst(b: Book, e: Event, es: seq<Event>)
    requires InRange(e, |b.pages|, |b.models|) && AllInRange(es, |b.pages|, |b.models|)
    ensures AllInRange([e] + es, |b.pages|, |b.models|)
    ensures WriteAll(b, [e] + es) == WriteAll(Write(b, e), es)
  {
    assert ([e] + es)[0] == e && ([e] + es)[1..] == es;
  }

  lemma OneGroupWrites(grouped: seq<Launch>, handles: seq<nat>, latest: map<nat, seq<Launch>>, l: Launch, h: nat)
    requires h != 0
    ensures AllInRange(OneGroup(l, h), 1, 1)
    ensures WriteAll(Capture(Idle, [], grouped, handles, Bin([], [], []), latest), OneGroup(l, h)) ==
            Capture(Idle, [], grouped + [l], handles + [h], Bin([], [], []), latest[h := [l]])
  {
    var none := Bin([], [], []);
    var b0 := Capture(Idle, [], grouped, handles, none, latest);
    var b1 := Capture(InGroup, [], grouped, handles, none, latest);
    var b2 := Capture(InGroup, [l], grouped, handles, none, latest);
    var b3 := Capture(Idle, [], grouped + [l], handles + [h], none, latest[h := [l]]);
    assert Write(b0, GroupBegin(0)) == b1;
    assert [] + [l] == [l];
    assert Write(b1, Dispatch(0, l, true)) == b2;
    assert Write(b2, GroupEnd(0, h)) == b3;
    assert WriteAll(b3, []) == b3;
    assert [GroupEnd(0, h)] == [GroupEnd(0, h)] + [];
    WriteFirst(b2, GroupEnd(0, h), []);
    WriteFirst(b1, Dispatch(0, l, true), [GroupEnd(0, h)]);
    WriteFirst(b0, GroupBegin(0), [Dispatch(0, l, true)] + [GroupEnd(0, h)]);
  }

  lemma {:induction false} WriteConcat(b: Book, es: seq<Event>, fs: seq<Event>)
    requires AllInRange(es, |b.pages|, |b.models|) && AllInRange(fs, |b.pages|, |b.models|)
    ensures AllInRange(es + fs, |b.pages|, |b.models|)
    ensures WriteAll(b, es + fs) == WriteAll(WriteAll(b, es), fs)
    decreases |es|
  {
    if |es| == 0 {
      assert es + fs == fs;
    } else {
      assert (es + fs)[0] == es[0] && (es + fs)[1..] == es[1..] + fs;
      WriteConcat(Write(b, es[0]), es[1..], fs);
    }
  }

  function GroupTwice(l: Launch, h: nat): seq<Event> { OneGroup(l, h) + OneGroup(l, h) + [Transfer(0, 0)] }

  lemma GroupTwiceWrites(l: Launch, h: nat)
    requires h != 0
    ensures AllInRange(GroupTwice(l, h), 1, 1)
    ensures WriteAll(Blank(1, 1), GroupTwice(l, h)) ==
            Capture(Idle, [], [], [], Bin([], [l, l], [h, h]), map[h := [l]])
  {
    var none := Bin([], [], []);
    assert Blank(1, 1) == Capture(Idle, [], [], [], none, map[]);
    OneGroupWrites([], [], map[], l, h);
    assert [] + [l] == [l] && [] + [h] == [h];
    OneGroupWrites([l], [h], map[h := [l]], l, h);
    assert [l] + [l] == [l, l] && [h] + [h] == [h, h] && map[h := [l]][h := [l]] == map[h := [l]];
    WriteConcat(Blank(1, 1), OneGroup(l, h), OneGroup(l, h));
    var b := Capture(Idle, [], [l, l], [h, h], none, map[h := [l]]);
    var end := Capture(Idle, [], [], [], Bin([], [l, l], [h, h]), map[h := [l]]);
    assert [] + [l, l] == [l, l] && [] + [h, h] == [h, h];
    var b' := Write(b, Transfer(0, 0));
    assert none.direct + none.direct == none.direct;
    assert b'.pages == end.pages && b'.models == end.models;
    assert b' == end;
    WriteFirst(b, Transfer(0, 0), []);
    assert WriteAll(end, []) == end && [Transfer(0, 0)] + [] == [Transfer(0, 0)];
    WriteConcat(Blank(1, 1), OneGroup(l, h) + OneGroup(l, h), [Transfer(0, 0)]);
  }

  /** A model that holds the same group twice counts its launch twice. */
  lemma GroupTwiceCountsTwice(l: Launch, h: nat)
    requires h != 0
    ensures AllInRange(GroupTwice(l, h), 1, 1)
    ensures var st, w := Run(Totals(Blank(1, 1)), GroupTwice(l, h)), WriteAll(Blank(1, 1), GroupTwice(l, h));
            && st.models[0].dim + GroupDims(st.groupDim, st.models[0].groups) == l.dim + l.dim
            && Dims(w.models[0].direct) + DistinctSum(w.latest, w.models[0].handles) == l.dim
  {
    GroupTwiceWrites(l, h);
    RunRefines(Blank(1, 1), GroupTwice(l, h));
    var latest: map<nat, seq<Launch>> := map[h := [l]];
    assert [l][..0] == [] && [h][..0] == [] && [h, h][..1] == [h];
    assert Dims([l]) == l.dim;
    GroupDimsAreSums(latest, [h, h]);
    assert GroupSum(latest, [h]) == l.dim;
    assert DistinctSumBeyond(latest, [], [h]) == l.dim;
  }

  // ---------------------------------------------------------------------------
  // The counters, updated in place
  // ---------------------------------------------------------------------------

  /** The maps of capture buffers, task-group states, models and groups. */
  class Keeper {
    var streams: seq<Stream>
    var models: seq<Buffer>
    var groupDim: map<nat, nat>
    var singleDim: nat
    var singleCount: nat

    ghost function View(): Stats
      reads this
    {
      Stats(streams, models, groupDim, singleDim, singleCount)
    }

    constructor (streamCount: nat, modelCount: nat)
      ensures View() == Totals(Blank(streamCount, modelCount))
    {
      streams := seq(streamCount, _ => Stream(Idle, 0, 0, Buffer(0, 0, [])));
      models := seq(modelCount, _ => Buffer(0, 0, []));
      groupDim := map[];
      singleDim, singleCount := 0, 0;
    }

    /** `launch_stats_dispatch` with `capture_stats_add`. */
    method DispatchLaunch(s: nat, l: Launch, capturing: bool)
      requires s < |streams|
      modifies this
      ensures View() == Apply(old(View()), Dispatch(s, l, capturing))
    {
      var x := streams[s];
      if x.mode != Idle {
        streams := streams[s := x.(tmpDim := x.tmpDim + l.dim, tmpCount := x.tmpCount + 1)];
      } else if capturing {
        streams := streams[s := x.(buf := x.buf.(dim := x.buf.dim + l.dim, count := x.buf.count + 1))];
      } else {
        singleDim, singleCount := singleDim + l.dim, singleCount + 1;
      }
    }

    method StoreGroup(handle: nat, dim: nat)
      modifies this`groupDim
      ensures groupDim == SetGroup(old(groupDim), handle, dim)
    {
      if handle != 0 {
        groupDim := groupDim[handle := dim];
      }
    }

    /** `task_grp_begin`. */
    method BeginGroup(s: nat)
      requires s < |streams|
      modifies this
      ensures View() == Apply(old(View()), GroupBegin(s))
    {
      streams := streams[s := Stream(InGroup, 0, 0, streams[s].buf)];
    }

    /** `task_grp_end`. */
    method FinishGroup(s: nat, handle: nat)
      requires s < |streams|
      modifies this
      ensures View() == Apply(old(View()), GroupEnd(s, handle))
    {
      var x := streams[s];
      if x.mode == InGroup {
        StoreGroup(handle, x.tmpDim);
        var groups := x.buf.groups;
        if |groups| < MAX_GRPS_PER_CAPTURE {
          groups := groups + [handle];
        } else {
          assert Take(groups + [handle]) == Take(groups);
        }
        streams := streams[s := Stream(Idle, 0, 0, Buffer(x.buf.dim, x.buf.count + x.tmpCount, Take(groups)))];
      }
    }

    /** `task_update_begin`. */
    method BeginUpdate(s: nat, handle: nat)
      requires s < |streams|
      modifies this
      ensures View() == Apply(old(View()), UpdateBegin(s, handle))
    {
      streams := streams[s := Stream(InUpdate(handle), 0, 0, streams[s].buf)];
    }

    /** `task_update_end`. */
    method FinishUpdate(s: nat)
      requires s < |streams|
      modifies this
      ensures View() == Apply(old(View()), UpdateEnd(s))
    {
      var x := streams[s];
      if x.mode.InUpdate? {
        StoreGroup(x.mode.handle, x.tmpDim);
        streams := streams[s := Stream(Idle, 0, 0, x.buf)];
      }
    }

    /** `capture_stats_transfer_to_model`: adds the sums, appends group handles up to the
        limit, and clears the stream. */
    method TransferToModel(s: nat, m: nat)
      requires s < |streams| && m < |models|
      requires |models[m].groups| <= MAX_GRPS_PER_CAPTURE
      modifies this
      ensures View() == Apply(old(View()), Transfer(s, m))
    {
      var from, to := streams[s].buf, models[m];
      var groups := to.groups;
      var i := 0;
      while i < |from.groups| && |groups| < MAX_GRPS_PER_CAPTURE
        invariant i <= |from.groups| && |groups| <= MAX_GRPS_PER_CAPTURE
        invariant groups == to.groups + from.groups[..i]
      {
        groups := groups + [from.groups[i]];
        i := i + 1;
      }
      assert groups == Take(to.groups + from.groups);
      models := models[m := Buffer(to.dim + from.dim, to.count + from.count, groups)];
      streams := streams[s := streams[s].(buf := Buffer(0, 0, []))];
    }
  }
}
