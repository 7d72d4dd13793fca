/** Which sources may run: trailing_dts, unchoke_for_stream, schedule_update_locked
    and every operation that writes what they read (fftools/ffmpeg_sched.c). */
module Scheduling {
  import opened Common
  import opened TranscodeGraph
  import opened UpstreamWalks

  const SCHEDULE_TOLERANCE: int := 100 * 1000

  datatype MuxStream = MuxStream(srcSched: Node, lastDts: int, sourceFinished: bool)

  /** What the scheduling decision depends on; dts is the trailing timestamp it last computed. */
  datatype Sched = Sched(
    g: Graph,
    best: seq<nat>,
    demuxExited: seq<bool>,
    filterExited: seq<bool>,
    mux: seq<seq<MuxStream>>,
    dts: int)

  ghost predicate NodeOk(s: Sched, n: Node) {
    match n
    case Demux(d) => d < |s.demuxExited|
    case FilterOut(f) => f < |s.g|
  }

  ghost predicate InMux(mux: seq<seq<MuxStream>>, i: nat, j: nat) {
    i < |mux| && j < |mux[i]|
  }

  /** What start_prepare leaves behind when it succeeds. */
  ghost predicate Prepared(s: Sched) {
    && WellFormed(s.g) && BestOk(s.g, s.best) && |s.filterExited| == |s.g|
    && (forall f, j | 0 <= f < |s.g| && 0 <= j < |s.g[f]| :: NodeOk(s, s.g[f][j]))
    && (forall i: nat, j: nat | InMux(s.mux, i, j) ::
          && NodeOk(s, s.mux[i][j].srcSched)
          && (s.mux[i][j].srcSched.FilterOut? ==> !CycleFrom(s.g, s.mux[i][j].srcSched.idx))
          && NOPTS <= s.mux[i][j].lastDts <= INT64_MAX)
  }

  // ----- the policy -----

  ghost predicate Unfinished(mux: seq<seq<MuxStream>>, i: nat, j: nat) {
    Counts(mux, false, i, j)
  }

  /** Does trailing_dts look at this stream? */
  ghost predicate Counts(mux: seq<seq<MuxStream>>, countFinished: bool, i: nat, j: nat) {
    InMux(mux, i, j) && (countFinished || !mux[i][j].sourceFinished)
  }

  /** dts is the least timestamp among the streams that count, none if one of them has none yet. */
  ghost predicate IsTrailing(mux: seq<seq<MuxStream>>, countFinished: bool, dts: int) {
    if exists i: nat, j: nat :: Counts(mux, countFinished, i, j) && mux[i][j].lastDts == NOPTS
    then dts == NOPTS
    else
      && (forall i: nat, j: nat | Counts(mux, countFinished, i, j) ::
            if dts == NOPTS then mux[i][j].lastDts >= INT64_MAX else dts <= mux[i][j].lastDts)
      && (dts != NOPTS ==>
            && dts < INT64_MAX
            && exists i: nat, j: nat :: Counts(mux, countFinished, i, j) && mux[i][j].lastDts == dts)
  }

  lemma TrailingIsUnique(mux: seq<seq<MuxStream>>, countFinished: bool, a: int, b: int)
    requires IsTrailing(mux, countFinished, a) && IsTrailing(mux, countFinished, b)
    ensures a == b
  {
  }

  predicate Eligible(ms: MuxStream, dts: int) {
    && !ms.sourceFinished
    && !(dts == NOPTS && ms.lastDts != NOPTS)
    && !(dts != NOPTS && ms.lastDts - dts >= SCHEDULE_TOLERANCE)
  }

  ghost predicate HasTarget(s: Sched, src: Node, n: Node)
    requires Prepared(s) && NodeOk(s, src)
  {
    Resolve(s.g, s.best, src, |s.g|) == [n]
  }

  /** Stream j of muxer i is eligible and its source resolves to n. */
  ghost predicate Feeds(s: Sched, i: nat, j: nat, n: Node)
    requires Prepared(s)
  {
    InMux(s.mux, i, j) && Eligible(s.mux[i][j], s.dts) && HasTarget(s, s.mux[i][j].srcSched, n)
  }

  ghost predicate SomeEligible(s: Sched) {
    exists i: nat, j: nat :: InMux(s.mux, i, j) && Eligible(s.mux[i][j], s.dts)
  }

  ghost predicate FirstAlive(s: Sched, n: Node) {
    match n
    case Demux(d) => d < |s.demuxExited| && !s.demuxExited[d] && forall k | 0 <= k < d :: s.demuxExited[k]
    case FilterOut(f) =>
      && f < |s.filterExited| && !s.filterExited[f]
      && (forall k | 0 <= k < |s.demuxExited| :: s.demuxExited[k])
      && forall k | 0 <= k < f :: s.filterExited[k]
  }

  /** The policy: a source may run iff it feeds an eligible stream, or nothing is eligible and
      it is the first task that has not exited. */
  ghost predicate MayRun(s: Sched, n: Node)
    requires Prepared(s)
  {
    (exists i: nat, j: nat :: Feeds(s, i, j, n)) || (!SomeEligible(s) && FirstAlive(s, n))
  }

  // ----- what the policy guarantees -----

  lemma WalkTarget(s: Sched, src: Node) returns (n: Node)
    requires Prepared(s) && NodeOk(s, src) && (src.FilterOut? ==> !CycleFrom(s.g, src.idx))
    ensures NodeOk(s, n) && HasTarget(s, src, n)
  {
    if src.FilterOut? { WalkEndsIffAcyclic(s.g, src.idx); }
    n := Resolve(s.g, s.best, src, |s.g|)[0];
    ResolvesInside(s, src, |s.g|);
  }

  /** Which node that is: the one at the end of the walk that follows wanted inputs upstream from the source
      until it comes to a demuxer or to a filtergraph that wants to be scheduled itself. */
  lemma TargetIff(s: Sched, src: Node, n: Node)
    requires Prepared(s) && NodeOk(s, src) && (src.FilterOut? ==> !CycleFrom(s.g, src.idx))
    ensures HasTarget(s, src, n) <==> exists p :: LeadsTo(s.g, s.best, src, n, p)
  {
    var m := WalkTarget(s, src);
    var p := ResolveFollows(s.g, s.best, src, |s.g|);
    assert LeadsTo(s.g, s.best, src, m, p);
    if q :| LeadsTo(s.g, s.best, src, n, q) { OneWalk(s.g, s.best, src, m, p, n, q); }
  }

  /** The policy said without its own terms: a source may run iff it is where the walk from some eligible
      stream's source ends, or no stream is eligible and it is the first task that has not exited. */
  lemma MayRunIff(s: Sched, n: Node)
    requires Prepared(s)
    ensures MayRun(s, n) <==>
      || (exists i: nat, j: nat, p :: InMux(s.mux, i, j) && Eligible(s.mux[i][j], s.dts)
                                      && LeadsTo(s.g, s.best, s.mux[i][j].srcSched, n, p))
      || (!SomeEligible(s) && FirstAlive(s, n))
  {
    forall i: nat, j: nat | InMux(s.mux, i, j)
      ensures HasTarget(s, s.mux[i][j].srcSched, n) <==> exists p :: LeadsTo(s.g, s.best, s.mux[i][j].srcSched, n, p)
    {
      TargetIff(s, s.mux[i][j].srcSched, n);
    }
    hide HasTarget, LeadsTo, Eligible, FirstAlive;
    if i: nat, j: nat, p :| InMux(s.mux, i, j) && Eligible(s.mux[i][j], s.dts)
                            && LeadsTo(s.g, s.best, s.mux[i][j].srcSched, n, p) {
      assert Feeds(s, i, j, n);
    }
  }

  /** Every stream's source resolves to exactly one demuxer or self-scheduled filtergraph. */
  lemma StreamHasOneTarget(s: Sched, i: nat, j: nat) returns (n: Node)
    requires Prepared(s) && InMux(s.mux, i, j)
    ensures NodeOk(s, n) && (n.FilterOut? ==> s.best[n.idx] == |s.g[n.idx]|)
    ensures forall m :: HasTarget(s, s.mux[i][j].srcSched, m) <==> m == n
  {
    n := WalkTarget(s, s.mux[i][j].srcSched);
    assert n in Resolve(s.g, s.best, s.mux[i][j].srcSched, |s.g|);
  }

  lemma {:induction false} ResolvesInside(s: Sched, src: Node, hops: nat)
    requires Prepared(s) && NodeOk(s, src)
    ensures forall n <- Resolve(s.g, s.best, src, hops) :: NodeOk(s, n)
    decreases hops
  {
    if src.FilterOut? && s.best[src.idx] < |s.g[src.idx]| && hops > 0 {
      ResolvesInside(s, s.g[src.idx][s.best[src.idx]], hops - 1);
    }
  }

  /** Some stream is eligible exactly when an unfinished stream has not reached the end of time. */
  lemma EligibleIff(s: Sched)
    requires Prepared(s) && IsTrailing(s.mux, false, s.dts)
    ensures SomeEligible(s) <==> exists i: nat, j: nat :: Unfinished(s.mux, i, j) && s.mux[i][j].lastDts != INT64_MAX
  {
    if i: nat, j: nat :| Unfinished(s.mux, i, j) && s.mux[i][j].lastDts != INT64_MAX {
      if s.dts != NOPTS {
        var k: nat, l: nat :| Counts(s.mux, false, k, l) && s.mux[k][l].lastDts == s.dts;
        assert Eligible(s.mux[k][l], s.dts);
      } else {
        var k: nat, l: nat :| Counts(s.mux, false, k, l) && s.mux[k][l].lastDts == NOPTS;
        assert Eligible(s.mux[k][l], s.dts);
      }
    }
  }

  /** No unfinished stream is behind this one; a stream without a timestamp is behind all others. */
  ghost predicate MostLagging(mux: seq<seq<MuxStream>>, i: nat, j: nat) {
    Unfinished(mux, i, j) && forall k: nat, l: nat | Unfinished(mux, k, l) :: mux[i][j].lastDts <= mux[k][l].lastDts
  }

  lemma MostLaggingRuns(s: Sched, i: nat, j: nat) returns (n: Node)
    requires Prepared(s) && IsTrailing(s.mux, false, s.dts)
    requires MostLagging(s.mux, i, j) && s.mux[i][j].lastDts != INT64_MAX
    ensures Eligible(s.mux[i][j], s.dts) && HasTarget(s, s.mux[i][j].srcSched, n) && MayRun(s, n)
  {
    n := StreamHasOneTarget(s, i, j);
    assert Unfinished(s.mux, i, j);
    assert Eligible(s.mux[i][j], s.dts);
    assert Feeds(s, i, j, n);
  }

  /** A stream let through on its own account has no timestamp yet or is less than the tolerance
      ahead of every unfinished stream. */
  lemma EligibleIsClose(s: Sched, i: nat, j: nat, k: nat, l: nat)
    requires Prepared(s) && IsTrailing(s.mux, false, s.dts)
    requires InMux(s.mux, i, j) && Eligible(s.mux[i][j], s.dts) && Unfinished(s.mux, k, l)
    ensures s.mux[i][j].lastDts == NOPTS
         || (s.mux[k][l].lastDts != NOPTS && s.mux[i][j].lastDts - s.mux[k][l].lastDts < SCHEDULE_TOLERANCE)
  {
  }

  /** Exactly which streams are let through on their own account: those without a dts, and those less than
      100000 us ahead of every unfinished stream, all of which have a dts and not all the last one there is. */
  lemma EligibleIffClose(s: Sched, i: nat, j: nat)
    requires Prepared(s) && IsTrailing(s.mux, false, s.dts) && InMux(s.mux, i, j)
    ensures Eligible(s.mux[i][j], s.dts) <==>
      && !s.mux[i][j].sourceFinished
      && (|| s.mux[i][j].lastDts == NOPTS
          || (&& (exists k: nat, l: nat :: Unfinished(s.mux, k, l) && s.mux[k][l].lastDts != INT64_MAX)
              && forall k: nat, l: nat | Unfinished(s.mux, k, l) ::
                   s.mux[k][l].lastDts != NOPTS && s.mux[i][j].lastDts - s.mux[k][l].lastDts < 100000))
  {
    if s.mux[i][j].sourceFinished {
    } else {
      assert Unfinished(s.mux, i, j);
      if s.mux[i][j].lastDts != NOPTS && s.dts != NOPTS {
        var k: nat, l: nat :| Counts(s.mux, false, k, l) && s.mux[k][l].lastDts == s.dts;
        assert Unfinished(s.mux, k, l);
      }
    }
  }

  lemma {:induction false} FirstFalse(b: seq<bool>) returns (k: nat)
    ensures k <= |b| && (forall i | 0 <= i < k :: b[i]) && (k < |b| ==> !b[k])
  {
    k := 0;
    while k < |b| && b[k]
      invariant k <= |b| && forall i | 0 <= i < k :: b[i]
    {
      k := k + 1;
    }
  }

  /** Some source may run iff a stream is eligible or a task is left that has not exited.  That does not
      mean progress: a demuxer without streams is never started and so never exits, and once nothing is
      eligible the fallback may open that one and no other (FallbackOpensOne). */
  lemma SomebodyRunsIff(s: Sched)
    requires Prepared(s)
    ensures (exists n :: NodeOk(s, n) && MayRun(s, n)) <==>
            (SomeEligible(s) || (exists d :: 0 <= d < |s.demuxExited| && !s.demuxExited[d])
                             || (exists f :: 0 <= f < |s.filterExited| && !s.filterExited[f]))
  {
    if SomeEligible(s) {
      var i: nat, j: nat :| InMux(s.mux, i, j) && Eligible(s.mux[i][j], s.dts);
      var n := StreamHasOneTarget(s, i, j);
      assert Feeds(s, i, j, n);
      assert NodeOk(s, n) && MayRun(s, n);
    } else {
      var d := FirstFalse(s.demuxExited);
      var f := FirstFalse(s.filterExited);
      if d < |s.demuxExited| {
        assert FirstAlive(s, Demux(d)) && NodeOk(s, Demux(d)) && MayRun(s, Demux(d));
      } else if f < |s.filterExited| {
        assert FirstAlive(s, FilterOut(f)) && NodeOk(s, FilterOut(f)) && MayRun(s, FilterOut(f));
      }
    }
  }

  /** With nothing eligible exactly one source is open, the first task that has not exited. */
  lemma FallbackOpensOne(s: Sched, n: Node)
    requires Prepared(s) && !SomeEligible(s) && FirstAlive(s, n)
    ensures forall m :: MayRun(s, m) <==> m == n
  {
    forall m | MayRun(s, m) ensures m == n {
      assert FirstAlive(s, m);
    }
  }

  // ----- the scheduler -----

  datatype Waiter = Waiter(choked: bool, chokedPrev: bool, chokedNext: bool)

  /** Reading order of the two nested loops over the muxers and their streams. */
  ghost predicate Before(k: nat, l: nat, i: nat, j: nat) {
    k < i || (k == i && l < j)
  }

  /** Some eligible stream before (i, j) resolves to n. */
  ghost predicate FeedsBefore(s: Sched, i: nat, j: nat, n: Node)
    requires Prepared(s)
  {
    exists k: nat, l: nat :: Before(k, l, i, j) && Feeds(s, k, l, n)
  }

  ghost predicate EligibleBefore(s: Sched, i: nat, j: nat) {
    exists k: nat, l: nat :: Before(k, l, i, j) && InMux(s.mux, k, l) && Eligible(s.mux[k][l], s.dts)
  }

  lemma NextStream(s: Sched, i: nat, j: nat)
    requires Prepared(s) && InMux(s.mux, i, j)
    ensures forall n :: FeedsBefore(s, i, j + 1, n) <==> FeedsBefore(s, i, j, n) || Feeds(s, i, j, n)
    ensures EligibleBefore(s, i, j + 1) <==> EligibleBefore(s, i, j) || Eligible(s.mux[i][j], s.dts)
  {
    assert Before(i, j, i, j + 1);
    forall n ensures FeedsBefore(s, i, j + 1, n) <==> FeedsBefore(s, i, j, n) || Feeds(s, i, j, n) {
      if k: nat, l: nat :| Before(k, l, i, j) && Feeds(s, k, l, n) { assert Before(k, l, i, j + 1); }
    }
    if k: nat, l: nat :| Before(k, l, i, j) && InMux(s.mux, k, l) && Eligible(s.mux[k][l], s.dts) {
      assert Before(k, l, i, j + 1);
    }
  }

  lemma NextMuxer(s: Sched, i: nat)
    requires Prepared(s) && i < |s.mux|
    ensures forall n :: FeedsBefore(s, i, |s.mux[i]|, n) <==> FeedsBefore(s, i + 1, 0, n)
    ensures EligibleBefore(s, i, |s.mux[i]|) <==> EligibleBefore(s, i + 1, 0)
  {
    assert forall k: nat, l: nat | InMux(s.mux, k, l) :: Before(k, l, i, |s.mux[i]|) <==> Before(k, l, i + 1, 0);
  }

  lemma AllStreams(s: Sched)
    requires Prepared(s)
    ensures forall n :: FeedsBefore(s, |s.mux|, 0, n) <==> exists i: nat, j: nat :: Feeds(s, i, j, n)
    ensures EligibleBefore(s, |s.mux|, 0) <==> SomeEligible(s)
  {
    assert forall k: nat, l: nat | InMux(s.mux, k, l) :: Before(k, l, |s.mux|, 0);
  }

  /** The scheduling state right after a successful start_prepare. */
  ghost function InitialState(g: Graph, nbDemux: nat, sources: seq<seq<Node>>): Sched {
    Sched(g, seq(|g|, _ => 0), seq(nbDemux, _ => false), seq(|g|, _ => false),
          seq(|sources|, i requires 0 <= i < |sources| =>
                seq(|sources[i]|, j requires 0 <= j < |sources[i]| => MuxStream(sources[i][j], NOPTS, false))),
          0)
  }

  ghost predicate InSources(sources: seq<seq<Node>>, i: nat, j: nat) {
    i < |sources| && j < |sources[i]|
  }

  /** In the beginning no stream has a dts or is finished, so all are eligible: what may run is exactly what
      the walks from the sources of streams lead to, each filtergraph wanting its first input. */
  lemma AllRunAtFirst(g: Graph, best: seq<nat>, nbDemux: nat, sources: seq<seq<Node>>, s: Sched, n: Node)
    requires |best| == |g| && forall f | 0 <= f < |g| :: best[f] == 0
    requires s == InitialState(g, nbDemux, sources).(dts := s.dts) && Prepared(s) && IsTrailing(s.mux, false, s.dts)
    requires exists i: nat, j: nat :: InSources(sources, i, j)
    ensures MayRun(s, n) <==>
      exists i: nat, j: nat, p :: InSources(sources, i, j) && LeadsTo(g, best, sources[i][j], n, p)
  {
    assert s.best == best;
    assert forall i: nat, j: nat | InMux(s.mux, i, j) :: s.mux[i][j] == MuxStream(sources[i][j], NOPTS, false);
    var i: nat, j: nat :| InSources(sources, i, j);
    assert InMux(s.mux, i, j);
    forall k: nat, l: nat | InMux(s.mux, k, l) ensures Eligible(s.mux[k][l], s.dts) {
      EligibleIffClose(s, k, l);
    }
    assert forall k: nat, l: nat :: InMux(s.mux, k, l) <==> InSources(sources, k, l);
    MayRunIff(s, n);
    hide LeadsTo, MayRun, Eligible, IsTrailing, FirstAlive, InSources, InMux;
  }

  class Scheduler {
    const g: Graph
    var best: seq<nat>
    var demuxExited: seq<bool>
    var filterExited: seq<bool>
    var mux: seq<seq<MuxStream>>
    var terminate: bool
    var lastDts: int
    const demuxWaiter: array<Waiter>
    const filterWaiter: array<Waiter>

    ghost function State(): Sched
      reads this
    {
      Sched(g, best, demuxExited, filterExited, mux, lastDts)
    }

    ghost predicate Valid()
      reads this
    {
      && Prepared(State())
      && |demuxExited| == demuxWaiter.Length && |g| == filterWaiter.Length && demuxWaiter != filterWaiter
    }

    /** Every choked flag says what the policy says. */
    ghost predicate Synced()
      requires Valid()
      reads this, demuxWaiter, filterWaiter
    {
      && IsTrailing(mux, false, lastDts)
      && (forall d | 0 <= d < demuxWaiter.Length :: !demuxWaiter[d].choked <==> MayRun(State(), Demux(d)))
      && (forall f | 0 <= f < filterWaiter.Length :: !filterWaiter[f].choked <==> MayRun(State(), FilterOut(f)))
    }

    /** The components as sch_add_* and start_prepare leave them: all streams without a dts, every
        filtergraph wanting its first input, nothing choked. */
    constructor (g: Graph, nbDemux: nat, sources: seq<seq<Node>>)
      requires Prepared(InitialState(g, nbDemux, sources))
      ensures Valid() && !terminate && State() == InitialState(g, nbDemux, sources)
      ensures fresh(demuxWaiter) && fresh(filterWaiter)
      ensures forall w <- demuxWaiter[..] + filterWaiter[..] :: !w.choked
    {
      this.g := g;
      best, filterExited := seq(|g|, _ => 0), seq(|g|, _ => false);
      demuxExited := seq(nbDemux, _ => false);
      mux := seq(|sources|, i requires 0 <= i < |sources| =>
                   seq(|sources[i]|, j requires 0 <= j < |sources[i]| => MuxStream(sources[i][j], NOPTS, false)));
      terminate, lastDts := false, 0;
      demuxWaiter := new Waiter[nbDemux](_ => Waiter(false, false, false));
      filterWaiter := new Waiter[|g|](_ => Waiter(false, false, false));
      new;
      assert State() == InitialState(g, nbDemux, sources);
    }

    method TrailingDts(countFinished: bool) returns (dts: int)
      requires Valid()
      ensures IsTrailing(mux, countFinished, dts)
    {
      var minDts := INT64_MAX;
      for i := 0 to |mux|
        invariant Lowest(i, 0, countFinished, minDts)
      {
        for j := 0 to |mux[i]|
          invariant Lowest(i, j, countFinished, minDts)
        {
          var ms := mux[i][j];
          assert InMux(mux, i, j);
          if ms.sourceFinished && !countFinished {
            continue;
          }
          if ms.lastDts == NOPTS {
            return NOPTS;
          }
          minDts := if ms.lastDts < minDts then ms.lastDts else minDts;
        }
      }
      dts := if minDts == INT64_MAX then NOPTS else minDts;
    }

    ghost predicate Lowest(i: nat, j: nat, countFinished: bool, minDts: int)
      reads this
    {
      && NOPTS < minDts <= INT64_MAX
      && (forall k: nat, l: nat | Counts(mux, countFinished, k, l) && Before(k, l, i, j) ::
            mux[k][l].lastDts != NOPTS && minDts <= mux[k][l].lastDts)
      && (minDts == INT64_MAX ||
          exists k: nat, l: nat :: Counts(mux, countFinished, k, l) && mux[k][l].lastDts == minDts)
    }

    ghost predicate NextOpen(n: Node)
      requires Valid() && NodeOk(State(), n)
      reads this, demuxWaiter, filterWaiter
    {
      match n
      case Demux(d) => !demuxWaiter[d].chokedNext
      case FilterOut(f) => !filterWaiter[f].chokedNext
    }

    /** unchoke_for_stream: opens the one source this one resolves to. */
    method UnchokeForStream(from: Node) returns (ghost target: Node)
      requires Valid() && NodeOk(State(), from) && (from.FilterOut? ==> !CycleFrom(g, from.idx))
      modifies demuxWaiter, filterWaiter
      ensures NodeOk(State(), target) && HasTarget(State(), from, target)
      ensures forall n | NodeOk(State(), n) :: NextOpen(n) <==> n == target || old(NextOpen(n))
      ensures SameButNext()
    {
      var src := from;
      ghost var hops: nat := |g|;
      target := WalkTarget(State(), from);
      while true
        invariant NodeOk(State(), src) && Resolve(g, best, src, hops) == [target]
        invariant demuxWaiter[..] == old(demuxWaiter[..]) && filterWaiter[..] == old(filterWaiter[..])
        decreases hops
      {
        if src.Demux? {
          demuxWaiter[src.idx] := demuxWaiter[src.idx].(chokedNext := false);
          return;
        }
        if best[src.idx] == |g[src.idx]| {
          filterWaiter[src.idx] := filterWaiter[src.idx].(chokedNext := false);
          return;
        }
        src := g[src.idx][best[src.idx]];
        hops := hops - 1;
      }
    }

    twostate predicate SameButNext()
      reads demuxWaiter, filterWaiter
    {
      && (forall d | 0 <= d < demuxWaiter.Length ::
            demuxWaiter[d] == old(demuxWaiter[d]).(chokedNext := demuxWaiter[d].chokedNext))
      && (forall f | 0 <= f < filterWaiter.Length ::
            filterWaiter[f] == old(filterWaiter[f]).(chokedNext := filterWaiter[f].chokedNext))
    }

    method BeginRound(w: array<Waiter>)
      modifies w
      ensures forall k | 0 <= k < w.Length :: w[k] == Waiter(old(w[k]).choked, old(w[k]).choked, true)
    {
      for k := 0 to w.Length
        invariant forall l | 0 <= l < k :: w[l] == Waiter(old(w[l]).choked, old(w[l]).choked, true)
        invariant forall l | k <= l < w.Length :: w[l] == old(w[l])
      {
        w[k] := w[k].(chokedPrev := w[k].choked, chokedNext := true);
      }
    }

    /** The waiters whose decision changed are set; the others agree with it already. */
    method EndRound(w: array<Waiter>)
      requires forall k | 0 <= k < w.Length :: w[k].choked == w[k].chokedPrev
      modifies w
      ensures forall k | 0 <= k < w.Length :: w[k] == old(w[k]).(choked := old(w[k]).chokedNext)
    {
      for k := 0 to w.Length
        invariant forall l | 0 <= l < k :: w[l] == old(w[l]).(choked := old(w[l]).chokedNext)
        invariant forall l | k <= l < w.Length :: w[l] == old(w[l])
      {
        if w[k].chokedPrev != w[k].chokedNext {
          w[k] := w[k].(choked := w[k].chokedNext);
        }
      }
    }

    ghost predicate RoundInv(i: nat, j: nat, haveUnchoked: bool)
      requires Valid()
      reads this, demuxWaiter, filterWaiter
    {
      && (forall n | NodeOk(State(), n) :: NextOpen(n) <==> FeedsBefore(State(), i, j, n))
      && (haveUnchoked <==> EligibleBefore(State(), i, j))
      && (forall d | 0 <= d < demuxWaiter.Length :: demuxWaiter[d].choked == demuxWaiter[d].chokedPrev)
      && (forall f | 0 <= f < filterWaiter.Length :: filterWaiter[f].choked == filterWaiter[f].chokedPrev)
    }

    /** The body of the loop over the streams, for one stream. */
    method ConsiderStream(i: nat, j: nat, haveUnchoked: bool) returns (have: bool)
      requires Valid() && InMux(mux, i, j) && RoundInv(i, j, haveUnchoked)
      modifies demuxWaiter, filterWaiter
      ensures RoundInv(i, j + 1, have)
    {
      NextStream(State(), i, j);
      have := haveUnchoked;
      var ms := mux[i][j];
      if ms.sourceFinished {
        return;
      }
      if lastDts == NOPTS && ms.lastDts != NOPTS {
        return;
      }
      if lastDts != NOPTS && ms.lastDts - lastDts >= SCHEDULE_TOLERANCE {
        return;
      }
      ghost var target := UnchokeForStream(ms.srcSched);
      have := true;
    }

    /** The loop over all streams of all muxers. */
    method ConsiderAll() returns (have: bool)
      requires Valid() && RoundInv(0, 0, false)
      modifies demuxWaiter, filterWaiter
      ensures RoundInv(|mux|, 0, have)
    {
      have := false;
      for i := 0 to |mux|
        invariant RoundInv(i, 0, have)
      {
        for j := 0 to |mux[i]|
          invariant RoundInv(i, j, have)
        {
          have := ConsiderStream(i, j, have);
        }
        NextMuxer(State(), i);
      }
    }

    /** The fallback: with nothing unchoked, the first task that has not exited is. */
    method UnchokeFirstAlive()
      requires Valid() && forall n | NodeOk(State(), n) :: !NextOpen(n)
      modifies demuxWaiter, filterWaiter
      ensures forall n | NodeOk(State(), n) :: NextOpen(n) <==> FirstAlive(State(), n)
      ensures SameButNext()
    {
      for d := 0 to demuxWaiter.Length
        invariant forall k | 0 <= k < d :: demuxExited[k]
        invariant demuxWaiter[..] == old(demuxWaiter[..]) && filterWaiter[..] == old(filterWaiter[..])
      {
        if !demuxExited[d] {
          demuxWaiter[d] := demuxWaiter[d].(chokedNext := false);
          return;
        }
      }
      for f := 0 to filterWaiter.Length
        invariant forall k | 0 <= k < f :: filterExited[k]
        invariant demuxWaiter[..] == old(demuxWaiter[..]) && filterWaiter[..] == old(filterWaiter[..])
      {
        if !filterExited[f] {
          filterWaiter[f] := filterWaiter[f].(chokedNext := false);
          return;
        }
      }
    }

    /** The decision has been taken and not published yet. */
    ghost predicate Decided()
      requires Valid()
      reads this, demuxWaiter, filterWaiter
    {
      && IsTrailing(mux, false, lastDts)
      && (forall n | NodeOk(State(), n) :: NextOpen(n) <==> MayRun(State(), n))
      && (forall d | 0 <= d < demuxWaiter.Length :: demuxWaiter[d].choked == demuxWaiter[d].chokedPrev)
      && (forall f | 0 <= f < filterWaiter.Length :: filterWaiter[f].choked == filterWaiter[f].chokedPrev)
    }

    method Decide()
      requires Valid() && IsTrailing(mux, false, lastDts)
      modifies demuxWaiter, filterWaiter
      ensures Decided()
    {
      BeginRound(demuxWaiter);
      BeginRound(filterWaiter);
      var haveUnchoked := ConsiderAll();
      AllStreams(State());
      if !haveUnchoked {
        UnchokeFirstAlive();
      }
    }

    method Publish()
      requires Valid() && Decided()
      modifies demuxWaiter, filterWaiter
      ensures Synced()
    {
      assert forall d | 0 <= d < demuxWaiter.Length :: NextOpen(Demux(d)) <==> MayRun(State(), Demux(d));
      assert forall f | 0 <= f < filterWaiter.Length :: NextOpen(FilterOut(f)) <==> MayRun(State(), FilterOut(f));
      hide MayRun;
      EndRound(demuxWaiter);
      EndRound(filterWaiter);
    }

    /** schedule_update_locked: from whatever the flags were to what the policy says. */
    method ScheduleUpdate()
      requires Valid()
      modifies this`lastDts, demuxWaiter, filterWaiter
      ensures Valid()
      ensures terminate ==> lastDts == old(lastDts)
      ensures terminate ==> demuxWaiter[..] == old(demuxWaiter[..]) && filterWaiter[..] == old(filterWaiter[..])
      ensures !terminate ==> Synced()
    {
      if terminate {
        return;
      }
      lastDts := TrailingDts(false);
      Decide();
      Publish();
    }

    // ----- the operations that write what the policy reads -----

    ghost predicate AllChoked()
      reads demuxWaiter, filterWaiter
    {
      && (forall d | 0 <= d < demuxWaiter.Length :: demuxWaiter[d].choked)
      && (forall f | 0 <= f < filterWaiter.Length :: filterWaiter[f].choked)
    }

    /** What every release of schedule_lock leaves: the policy until termination is requested,
        everything choked from then on. */
    ghost predicate Settled()
      requires Valid()
      reads this, demuxWaiter, filterWaiter
    {
      if terminate then AllChoked() else Synced()
    }

    /** The end of sch_start. */
    method Start()
      requires Valid() && (terminate ==> AllChoked())
      modifies this`lastDts, demuxWaiter, filterWaiter
      ensures Valid() && Settled()
    {
      ScheduleUpdate();
    }

    /** The update_schedule tail of send_to_mux, for a packet with this dts or for EOF. */
    method MuxSent(i: nat, j: nat, eof: bool, dts: int)
      requires Valid() && InMux(mux, i, j) && NOPTS <= dts <= INT64_MAX
      requires terminate ==> AllChoked()
      modifies this`mux, this`lastDts, demuxWaiter, filterWaiter
      ensures Valid() && (eof || dts != NOPTS || old(Settled()) ==> Settled())
      ensures terminate ==> AllChoked()
      ensures mux == old(mux)[i := old(mux)[i][j := old(mux)[i][j].(
                       lastDts := if eof || dts == NOPTS then old(mux)[i][j].lastDts else dts,
                       sourceFinished := eof || old(mux)[i][j].sourceFinished)]]
    {
      if dts != NOPTS || eof {
        var ms := mux[i][j];
        ms := if eof then ms.(sourceFinished := true) else ms.(lastDts := dts);
        SetStream(i, j, ms);
        ScheduleUpdate();
      } else {
        assert mux[i] == mux[i][j := mux[i][j]];
      }
    }

    method SetStream(i: nat, j: nat, ms: MuxStream)
      requires Valid() && InMux(mux, i, j)
      requires ms.srcSched == mux[i][j].srcSched && NOPTS <= ms.lastDts <= INT64_MAX
      modifies this`mux
      ensures Valid() && mux == old(mux)[i := old(mux)[i][j := ms]]
    {
      mux := mux[i := mux[i][j := ms]];
      forall k: nat, l: nat | InMux(mux, k, l)
        ensures mux[k][l].srcSched == old(mux)[k][l].srcSched && NOPTS <= mux[k][l].lastDts <= INT64_MAX
      {
        assert InMux(old(mux), k, l);
      }
    }

    /** source_finished set by a sync-queue EOF or by sch_mux_receive_finish. */
    method SourceFinished(i: nat, j: nat)
      requires Valid() && InMux(mux, i, j) && (terminate ==> AllChoked())
      modifies this`mux, this`lastDts, demuxWaiter, filterWaiter
      ensures Valid() && Settled()
      ensures mux == old(mux)[i := old(mux)[i][j := old(mux)[i][j].(sourceFinished := true)]]
    {
      SetStream(i, j, mux[i][j].(sourceFinished := true));
      ScheduleUpdate();
    }

    /** mux_done: no stream of the muxer takes input any more. */
    method MuxDone(i: nat)
      requires Valid() && i < |mux| && (terminate ==> AllChoked())
      modifies this`mux, this`lastDts, demuxWaiter, filterWaiter
      ensures Valid() && Settled()
      ensures |mux| == |old(mux)| && (forall k | 0 <= k < |mux| && k != i :: mux[k] == old(mux)[k])
      ensures |mux[i]| == |old(mux)[i]|
      ensures forall l | 0 <= l < |mux[i]| :: mux[i][l] == old(mux)[i][l].(sourceFinished := true)
    {
      for j := 0 to |mux[i]|
        invariant terminate ==> AllChoked()
        invariant Valid() && |mux| == |old(mux)| && (forall k | 0 <= k < |mux| && k != i :: mux[k] == old(mux)[k])
        invariant |mux[i]| == |old(mux)[i]|
        invariant forall l | 0 <= l < |mux[i]| ::
          mux[i][l] == if l < j then old(mux)[i][l].(sourceFinished := true) else old(mux)[i][l]
      {
        SetStream(i, j, mux[i][j].(sourceFinished := true));
      }
      ScheduleUpdate();
    }

    /** The end of demux_done. */
    method DemuxDone(d: nat)
      requires Valid() && d < |demuxExited| && (terminate ==> AllChoked())
      modifies this`demuxExited, this`lastDts, demuxWaiter, filterWaiter
      ensures Valid() && Settled() && demuxExited == old(demuxExited)[d := true]
    {
      demuxExited := demuxExited[d := true];
      ScheduleUpdate();
    }

    /** The end of filter_done. */
    method FilterDone(f: nat)
      requires Valid() && f < |filterExited| && (terminate ==> AllChoked())
      modifies this`filterExited, this`lastDts, demuxWaiter, filterWaiter
      ensures Valid() && Settled() && filterExited == old(filterExited)[f := true]
    {
      filterExited := filterExited[f := true];
      ScheduleUpdate();
    }

    /** The start of sch_filter_receive: the filtergraph names the input it wants, or itself. */
    method FilterWants(f: nat, input: nat)
      requires Valid() && f < |g| && input <= |g[f]|
      requires terminate ==> AllChoked()
      modifies this`best, this`lastDts, demuxWaiter, filterWaiter
      ensures Valid() && (input != old(best)[f] || old(Settled()) ==> Settled())
      ensures terminate ==> AllChoked()
      ensures best == old(best)[f := input]
    {
      if input != best[f] {
        best := best[f := input];
        ScheduleUpdate();
      } else {
        assert best == best[f := input];
      }
    }

    /** The termination request of sch_stop: every waiter is choked and none is opened again. */
    method RequestStop()
      requires Valid()
      modifies this`terminate, demuxWaiter, filterWaiter
      ensures Valid() && terminate && Settled()
    {
      terminate := true;
      for f := 0 to filterWaiter.Length
        invariant Valid() && terminate
        invariant forall k | 0 <= k < f :: filterWaiter[k].choked
      {
        filterWaiter[f] := filterWaiter[f].(choked := true);
      }
      for d := 0 to demuxWaiter.Length
        invariant Valid() && terminate
        invariant forall k | 0 <= k < filterWaiter.Length :: filterWaiter[k].choked
        invariant forall k | 0 <= k < d :: demuxWaiter[k].choked
      {
        demuxWaiter[d] := demuxWaiter[d].(choked := true);
      }
    }
  }
}
