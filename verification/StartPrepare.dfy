/** start_prepare (fftools/ffmpeg_sched.c): from the connections made by sch_connect to the scheduling
    sources of muxer streams and filtergraph inputs, and the state scheduling begins in. */
module StartPrepare {
  import opened Common
  import opened TranscodeGraph
  import opened Scheduling

  /** A SchedulerNode as a source. */
  datatype Src = NoSrc | FromDemux(idx: nat) | FromDec(idx: nat) | FromEnc(idx: nat) | FromFilter(idx: nat)

  /** The sources sch_connect recorded, and how many destinations each component got. */
  datatype Plan = Plan(
    demuxDsts: seq<seq<nat>>,
    decSrc: seq<Src>, decDsts: seq<nat>,
    encSrc: seq<Src>, encDsts: seq<nat>,
    muxSrc: seq<seq<Src>>,
    filterSrc: seq<seq<Src>>, filterOutConnected: seq<seq<bool>>)

  /** The source types sch_connect allows. */
  ghost predicate Typed(p: Plan) {
    && |p.decDsts| == |p.decSrc| && |p.encDsts| == |p.encSrc| && |p.filterOutConnected| == |p.filterSrc|
    && (forall s <- p.decSrc :: match s
          case NoSrc => true
          case FromDemux(d) => d < |p.demuxDsts|
          case FromEnc(e) => e < |p.encSrc|
          case _ => false)
    && (forall s <- p.encSrc :: match s
          case NoSrc => true
          case FromDec(d) => d < |p.decSrc|
          case FromFilter(f) => f < |p.filterSrc|
          case _ => false)
    && (forall streams <- p.muxSrc :: forall s <- streams :: match s
          case NoSrc => true
          case FromDemux(d) => d < |p.demuxDsts|
          case FromEnc(e) => e < |p.encSrc|
          case _ => false)
    && (forall inputs <- p.filterSrc :: forall s <- inputs :: match s
          case NoSrc => true
          case FromDec(d) => d < |p.decSrc|
          case _ => false)
  }

  /** Everything has a source and a destination. */
  ghost predicate AllConnected(p: Plan) {
    && (forall streams <- p.demuxDsts :: forall n <- streams :: n > 0)
    && (forall s <- p.decSrc :: s != NoSrc) && (forall n <- p.decDsts :: n > 0)
    && (forall s <- p.encSrc :: s != NoSrc) && (forall n <- p.encDsts :: n > 0)
    && (forall streams <- p.muxSrc :: forall s <- streams :: s != NoSrc)
    && (forall inputs <- p.filterSrc :: forall s <- inputs :: s != NoSrc)
    && (forall outs <- p.filterOutConnected :: forall b <- outs :: b)
  }

  /** A muxer stream encoded straight from a loopback decoder: start_prepare asserts that there is none. */
  ghost predicate LoopsToMuxer(p: Plan, s: Src) {
    && s.FromEnc? && s.idx < |p.encSrc|
    && var enc := p.encSrc[s.idx];
       enc.FromDec? && enc.idx < |p.decSrc| && p.decSrc[enc.idx].FromEnc?
  }

  ghost predicate NoneLoops(p: Plan) {
    forall streams <- p.muxSrc :: forall s <- streams :: !LoopsToMuxer(p, s)
  }

  /** A filtergraph input fed by the loopback decoder of an encoder that is itself fed by a decoder:
      start_prepare gives it that decoder as its scheduling source. */
  ghost predicate LoopsToFilter(p: Plan, s: Src) {
    && s.FromDec? && s.idx < |p.decSrc| && p.decSrc[s.idx].FromEnc?
    && p.decSrc[s.idx].idx < |p.encSrc| && p.encSrc[p.decSrc[s.idx].idx].FromDec?
  }

  ghost predicate AllScheduled(p: Plan) {
    forall inputs <- p.filterSrc :: forall s <- inputs :: !LoopsToFilter(p, s)
  }

  /** The demuxer or filtergraph found by following sources upstream through decoders and encoders. */
  ghost predicate Origin(p: Plan, s: Src, n: Node, hops: nat)
    decreases hops
  {
    match s
    case NoSrc => false
    case FromDemux(d) => n == Demux(d)
    case FromFilter(f) => n == FilterOut(f)
    case FromDec(d) => hops > 0 && d < |p.decSrc| && Origin(p, p.decSrc[d], n, hops - 1)
    case FromEnc(e) => hops > 0 && e < |p.encSrc| && Origin(p, p.encSrc[e], n, hops - 1)
  }

  ghost predicate Origins(p: Plan, srcs: seq<Src>, nodes: seq<Node>) {
    |nodes| == |srcs| && forall j | 0 <= j < |srcs| :: Origin(p, srcs[j], nodes[j], 2) && NodeIn(p, nodes[j])
  }

  ghost predicate NodeIn(p: Plan, n: Node) {
    match n
    case Demux(d) => d < |p.demuxDsts|
    case FilterOut(f) => f < |p.filterSrc|
  }

  ghost predicate AllOrigins(p: Plan, srcs: seq<seq<Src>>, nodes: seq<seq<Node>>) {
    |nodes| == |srcs| && forall i | 0 <= i < |srcs| :: Origins(p, srcs[i], nodes[i])
  }

  /** Aborted stands for a failed assertion, Unscheduled for a filtergraph input whose scheduling source is
      neither a demuxer nor a filtergraph: the cycle check and the upstream walk assert, wherever they meet
      one, that there is none. */
  datatype Outcome = Ready(g: Graph, mux: seq<seq<Node>>) | Invalid | Aborted | Unscheduled

  datatype StreamOrigins = AllFound(nodes: seq<Node>) | Missing | AssertFails

  method AllPositive(s: seq<nat>) returns (ok: bool)
    ensures ok <==> forall n <- s :: n > 0
  {
    for i := 0 to |s|
      invariant forall k | 0 <= k < i :: s[k] > 0
    {
      if s[i] == 0 {
        assert s[i] in s;
        return false;
      }
    }
    return true;
  }

  method AllSet(s: seq<Src>) returns (ok: bool)
    ensures ok <==> forall n <- s :: n != NoSrc
  {
    for i := 0 to |s|
      invariant forall k | 0 <= k < i :: s[k] != NoSrc
    {
      if s[i] == NoSrc {
        assert s[i] in s;
        return false;
      }
    }
    return true;
  }

  /** The switch over a muxer stream's source; None if its assertion fails. */
  method MuxStreamOrigin(p: Plan, s: Src) returns (n: Option<Node>)
    requires Typed(p) && (forall x <- p.decSrc :: x != NoSrc) && (forall x <- p.encSrc :: x != NoSrc)
    requires (s.FromDemux? && s.idx < |p.demuxDsts|) || (s.FromEnc? && s.idx < |p.encSrc|)
    ensures n.None? <==> LoopsToMuxer(p, s)
    ensures n.Some? ==> Origin(p, s, n.value, 2) && NodeIn(p, n.value)
  {
    if s.FromEnc? {
      var enc := p.encSrc[s.idx];
      assert enc in p.encSrc;
      if enc.FromDec? {
        var dec := p.decSrc[enc.idx];
        assert dec in p.decSrc;
        n := if dec.FromDemux? then Some(Demux(dec.idx)) else None;
      } else {
        assert enc.FromFilter?;
        n := Some(FilterOut(enc.idx));
      }
    } else {
      n := Some(Demux(s.idx));
    }
  }

  /** The switch over the decoder of a filtergraph input; None stands for a decoder as scheduling source. */
  method FilterInputOrigin(p: Plan, s: Src) returns (n: Option<Node>)
    requires Typed(p) && (forall x <- p.decSrc :: x != NoSrc) && (forall x <- p.encSrc :: x != NoSrc)
    requires s.FromDec? && s.idx < |p.decSrc|
    ensures n.None? <==> LoopsToFilter(p, s)
    ensures n.Some? ==> Origin(p, s, n.value, 2) && NodeIn(p, n.value)
  {
    var dec := p.decSrc[s.idx];
    assert dec in p.decSrc;
    if dec.FromDemux? {
      n := Some(Demux(dec.idx));
    } else {
      var enc := p.encSrc[dec.idx];
      assert enc in p.encSrc;
      n := if enc.FromFilter? then Some(FilterOut(enc.idx)) else None;
    }
  }

  method MuxOrigins(p: Plan, streams: seq<Src>) returns (r: StreamOrigins)
    requires Typed(p) && (forall x <- p.decSrc :: x != NoSrc) && (forall x <- p.encSrc :: x != NoSrc)
    requires streams in p.muxSrc
    ensures r.AllFound? ==> Origins(p, streams, r.nodes) && forall s <- streams :: s != NoSrc && !LoopsToMuxer(p, s)
    ensures r.Missing? ==> NoSrc in streams
    ensures r.AssertFails? ==> exists s <- streams :: LoopsToMuxer(p, s)
  {
    var nodes := [];
    for j := 0 to |streams|
      invariant |nodes| == j && forall k | 0 <= k < j ::
          && streams[k] != NoSrc && !LoopsToMuxer(p, streams[k])
          && Origin(p, streams[k], nodes[k], 2) && NodeIn(p, nodes[k])
    {
      assert streams[j] in streams;
      if streams[j] == NoSrc {
        return Missing;
      }
      var n := MuxStreamOrigin(p, streams[j]);
      if n.None? {
        return AssertFails;
      }
      nodes := nodes + [n.value];
    }
    r := AllFound(nodes);
  }

  method FilterOrigins(p: Plan, inputs: seq<Src>) returns (ok: bool, scheduled: bool, nodes: seq<Node>)
    requires Typed(p) && (forall x <- p.decSrc :: x != NoSrc) && (forall x <- p.encSrc :: x != NoSrc)
    requires inputs in p.filterSrc
    ensures ok <==> forall s <- inputs :: s != NoSrc
    ensures ok ==> (scheduled <==> forall s <- inputs :: !LoopsToFilter(p, s))
    ensures ok && scheduled ==> Origins(p, inputs, nodes)
  {
    nodes, scheduled := [], true;
    for j := 0 to |inputs|
      invariant forall k | 0 <= k < j :: inputs[k] != NoSrc
      invariant scheduled <==> forall k | 0 <= k < j :: !LoopsToFilter(p, inputs[k])
      invariant scheduled ==> |nodes| == j && forall k | 0 <= k < j ::
          Origin(p, inputs[k], nodes[k], 2) && NodeIn(p, nodes[k])
    {
      assert inputs[j] in inputs;
      if inputs[j] == NoSrc {
        return false, scheduled, nodes;
      }
      var n := FilterInputOrigin(p, inputs[j]);
      if n.None? {
        scheduled := false;
      } else {
        nodes := nodes + [n.value];
      }
    }
    ok := true;
  }

  method FilterSources(p: Plan) returns (ok: bool, scheduled: bool, g: seq<seq<Node>>)
    requires Typed(p) && (forall x <- p.decSrc :: x != NoSrc) && (forall x <- p.encSrc :: x != NoSrc)
    ensures ok <==> (forall inputs <- p.filterSrc :: forall s <- inputs :: s != NoSrc)
                    && forall outs <- p.filterOutConnected :: forall b <- outs :: b
    ensures ok ==> (scheduled <==> AllScheduled(p))
    ensures ok && scheduled ==> AllOrigins(p, p.filterSrc, g)
  {
    g, scheduled := [], true;
    for i := 0 to |p.filterSrc|
      invariant |g| == i && (scheduled ==> forall k | 0 <= k < i :: Origins(p, p.filterSrc[k], g[k]))
      invariant scheduled <==> forall k | 0 <= k < i :: forall s <- p.filterSrc[k] :: !LoopsToFilter(p, s)
      invariant forall k | 0 <= k < i ::
        (forall s <- p.filterSrc[k] :: s != NoSrc) && forall b <- p.filterOutConnected[k] :: b
    {
      assert p.filterSrc[i] in p.filterSrc && p.filterOutConnected[i] in p.filterOutConnected;
      var ok1, here, nodes := FilterOrigins(p, p.filterSrc[i]);
      if !ok1 {
        return false, scheduled, g;
      }
      scheduled := scheduled && here;
      if j :| 0 <= j < |p.filterOutConnected[i]| && !p.filterOutConnected[i][j] {
        assert p.filterOutConnected[i][j] in p.filterOutConnected[i];
        return false, scheduled, g;
      }
      g := g + [nodes];
    }
    if !scheduled {
      ghost var k :| 0 <= k < |p.filterSrc| && !forall s <- p.filterSrc[k] :: !LoopsToFilter(p, s);
      assert p.filterSrc[k] in p.filterSrc;
    }
    ok := true;
  }

  method ResolveSources(p: Plan) returns (out: Outcome)
    requires Typed(p)
    ensures out.Ready? ==> AllConnected(p) && NoneLoops(p) && AllScheduled(p)
    ensures out.Invalid? ==> !AllConnected(p)
    ensures out.Aborted? ==> !NoneLoops(p)
    ensures out.Unscheduled? ==> AllConnected(p) && NoneLoops(p) && !AllScheduled(p)
    ensures out.Ready? ==> AllOrigins(p, p.filterSrc, out.g) && AllOrigins(p, p.muxSrc, out.mux)
  {
    for i := 0 to |p.demuxDsts|
      invariant forall k | 0 <= k < i :: forall n <- p.demuxDsts[k] :: n > 0
    {
      var ok := AllPositive(p.demuxDsts[i]);
      if !ok {
        assert p.demuxDsts[i] in p.demuxDsts;
        return Invalid;
      }
    }
    var decOk := AllSet(p.decSrc);
    var decDstOk := AllPositive(p.decDsts);
    var encOk := AllSet(p.encSrc);
    var encDstOk := AllPositive(p.encDsts);
    if !decOk || !decDstOk || !encOk || !encDstOk {
      return Invalid;
    }
    var mux := [];
    for i := 0 to |p.muxSrc|
      invariant |mux| == i && forall k | 0 <= k < i ::
          Origins(p, p.muxSrc[k], mux[k]) && forall s <- p.muxSrc[k] :: s != NoSrc && !LoopsToMuxer(p, s)
    {
      assert p.muxSrc[i] in p.muxSrc;
      var r := MuxOrigins(p, p.muxSrc[i]);
      if r.Missing? {
        return Invalid;
      }
      if r.AssertFails? {
        return Aborted;
      }
      mux := mux + [r.nodes];
    }
    var ok, scheduled, g := FilterSources(p);
    return if !ok then Invalid else if scheduled then Ready(g, mux) else Unscheduled;
  }

  /** The origins there can be, one by one: a muxer stream's demuxer, or the filtergraph or demuxer behind its
      encoder; a filtergraph input's demuxer, or the filtergraph behind its loopback decoder. */
  lemma OriginExactly(p: Plan, s: Src, n: Node)
    requires Typed(p)
    ensures Origin(p, s, n, 2) <==>
      || (s.FromDemux? && n == Demux(s.idx))
      || (s.FromFilter? && n == FilterOut(s.idx))
      || (s.FromEnc? && s.idx < |p.encSrc| && p.encSrc[s.idx].FromFilter? && n == FilterOut(p.encSrc[s.idx].idx))
      || (s.FromEnc? && s.idx < |p.encSrc| && p.encSrc[s.idx].FromDec? && p.encSrc[s.idx].idx < |p.decSrc|
          && p.decSrc[p.encSrc[s.idx].idx].FromDemux? && n == Demux(p.decSrc[p.encSrc[s.idx].idx].idx))
      || (s.FromDec? && s.idx < |p.decSrc| && p.decSrc[s.idx].FromDemux? && n == Demux(p.decSrc[s.idx].idx))
      || (s.FromDec? && s.idx < |p.decSrc| && p.decSrc[s.idx].FromEnc? && p.decSrc[s.idx].idx < |p.encSrc|
          && p.encSrc[p.decSrc[s.idx].idx].FromFilter? && n == FilterOut(p.encSrc[p.decSrc[s.idx].idx].idx))
  {
    TypedSources(p);
    hide Typed;
    Direct(p, s, n);
    if s.FromEnc? && s.idx < |p.encSrc| {
      var enc := p.encSrc[s.idx];
      assert enc in p.encSrc;
      OneHop(p, enc, n);
      if enc.FromDec? && enc.idx < |p.decSrc| {
        assert p.decSrc[enc.idx] in p.decSrc;
        Direct(p, p.decSrc[enc.idx], n);
      }
    }
    if s.FromDec? && s.idx < |p.decSrc| {
      var dec := p.decSrc[s.idx];
      assert dec in p.decSrc;
      OneHop(p, dec, n);
      if dec.FromEnc? && dec.idx < |p.encSrc| {
        assert p.encSrc[dec.idx] in p.encSrc;
        Direct(p, p.encSrc[dec.idx], n);
      }
    }
  }

  lemma TypedSources(p: Plan)
    requires Typed(p)
    ensures forall x <- p.encSrc :: !x.FromDemux? && !x.FromEnc?
    ensures forall x <- p.decSrc :: !x.FromDec? && !x.FromFilter?
  {
  }

  lemma Direct(p: Plan, s: Src, n: Node)
    ensures Origin(p, s, n, 0) <==> (s.FromDemux? && n == Demux(s.idx)) || (s.FromFilter? && n == FilterOut(s.idx))
  {
  }

  lemma OneHop(p: Plan, s: Src, n: Node)
    ensures Origin(p, s, n, 1) <==>
      || (s.FromDemux? && n == Demux(s.idx))
      || (s.FromFilter? && n == FilterOut(s.idx))
      || (s.FromEnc? && s.idx < |p.encSrc| && Origin(p, p.encSrc[s.idx], n, 0))
      || (s.FromDec? && s.idx < |p.decSrc| && Origin(p, p.decSrc[s.idx], n, 0))
  {
  }

  /** A component has one origin. */
  lemma {:induction false} OriginUnique(p: Plan, s: Src, a: Node, b: Node, hops: nat)
    requires Origin(p, s, a, hops) && Origin(p, s, b, hops)
    ensures a == b
    decreases hops
  {
    match s
    case FromDec(d) => OriginUnique(p, p.decSrc[d], a, b, hops - 1);
    case FromEnc(e) => OriginUnique(p, p.encSrc[e], a, b, hops - 1);
    case _ =>
  }

  lemma OriginsUnique(p: Plan, srcs: seq<seq<Src>>, a: seq<seq<Node>>, b: seq<seq<Node>>)
    requires AllOrigins(p, srcs, a) && AllOrigins(p, srcs, b)
    ensures a == b
  {
    forall i | 0 <= i < |srcs| ensures a[i] == b[i] {
      assert Origins(p, srcs[i], a[i]) && Origins(p, srcs[i], b[i]);
      forall j | 0 <= j < |srcs[i]| ensures a[i][j] == b[i][j] {
        OriginUnique(p, srcs[i][j], a[i][j], b[i][j], 2);
      }
    }
  }

  lemma OriginsInside(p: Plan, g: Graph, mux: seq<seq<Node>>)
    requires AllOrigins(p, p.filterSrc, g) && AllOrigins(p, p.muxSrc, mux)
    ensures WellFormed(g) && SourcesOk(g, mux)
    ensures forall f, j | 0 <= f < |g| && 0 <= j < |g[f]| :: NodeIn(p, g[f][j])
    ensures forall i, j | 0 <= i < |mux| && 0 <= j < |mux[i]| :: NodeIn(p, mux[i][j])
  {
    assert forall f | 0 <= f < |g| :: Origins(p, p.filterSrc[f], g[f]);
    assert forall i | 0 <= i < |mux| :: Origins(p, p.muxSrc[i], mux[i]);
  }

  /** The connections give a graph, the only one they give, and it has a cycle. */
  ghost predicate Cyclic(p: Plan) {
    && (exists g, mux :: AllOrigins(p, p.filterSrc, g) && AllOrigins(p, p.muxSrc, mux) && !Acyclic(g, mux))
    && forall g, mux :: AllOrigins(p, p.filterSrc, g) && AllOrigins(p, p.muxSrc, mux) ==> !Acyclic(g, mux)
  }

  /** What start_prepare does with every plan; for a connected one exactly one of the four cases applies. */
  method Prepare(p: Plan) returns (out: Outcome)
    requires Typed(p)
    ensures out.Ready? ==> AllConnected(p) && NoneLoops(p) && AllScheduled(p) && Acyclic(out.g, out.mux)
    ensures out.Ready? ==> AllOrigins(p, p.filterSrc, out.g) && AllOrigins(p, p.muxSrc, out.mux)
    ensures out.Aborted? ==> !NoneLoops(p)
    ensures out.Unscheduled? ==> AllConnected(p) && NoneLoops(p) && !AllScheduled(p)
    ensures out.Invalid? && AllConnected(p) ==> NoneLoops(p) && AllScheduled(p) && Cyclic(p)
  {
    out := ResolveSources(p);
    if out.Ready? {
      OriginsInside(p, out.g, out.mux);
      var ok := CheckAcyclic(out.g, out.mux);
      if !ok {
        OneGraph(p, out.g, out.mux);
        out := Invalid;
      }
    }
  }

  lemma OneGraph(p: Plan, g: Graph, mux: seq<seq<Node>>)
    requires AllOrigins(p, p.filterSrc, g) && AllOrigins(p, p.muxSrc, mux) && !Acyclic(g, mux)
    ensures Cyclic(p)
  {
    forall g', mux' | AllOrigins(p, p.filterSrc, g') && AllOrigins(p, p.muxSrc, mux') ensures !Acyclic(g', mux') {
      OriginsUnique(p, p.filterSrc, g', g);
      OriginsUnique(p, p.muxSrc, mux', mux);
    }
  }

  /** It can be asked for: a loopback decoder of one encoder feeding another encoder. */
  lemma LoopExample(p: Plan)
    requires p == Plan([[1]], [FromDemux(0), FromEnc(0)], [1, 1], [FromFilter(0), FromDec(1)], [1, 1],
                       [[FromEnc(1)]], [[FromDec(0)]], [[true]])
    ensures Typed(p) && AllConnected(p) && AllScheduled(p) && !NoneLoops(p)
  {
    assert p.muxSrc[0] in p.muxSrc && FromEnc(1) in p.muxSrc[0] && LoopsToMuxer(p, FromEnc(1));
  }

  /** The tools themselves give an encoder no decoder but the one of its input stream, and so never abort here. */
  lemma OwnDecodersNeverLoop(p: Plan)
    requires Typed(p)
    requires forall s <- p.encSrc :: s.FromDec? ==> s.idx < |p.decSrc| && p.decSrc[s.idx].FromDemux?
    ensures NoneLoops(p)
  {
  }

  /** A plan that passes is all the scheduler asks for: every invariant of scheduling starts from here. */
  lemma PreparedAfterPrepare(p: Plan, g: Graph, mux: seq<seq<Node>>)
    requires Typed(p) && AllOrigins(p, p.filterSrc, g) && AllOrigins(p, p.muxSrc, mux) && Acyclic(g, mux)
    ensures Prepared(InitialState(g, |p.demuxDsts|, mux))
  {
    OriginsInside(p, g, mux);
    var s := InitialState(g, |p.demuxDsts|, mux);
    forall i: nat, j: nat | InMux(s.mux, i, j)
      ensures NodeOk(s, s.mux[i][j].srcSched)
      ensures s.mux[i][j].srcSched.FilterOut? ==> !CycleFrom(g, s.mux[i][j].srcSched.idx)
    {
      assert s.mux[i][j].srcSched == mux[i][j];
    }
  }

  /** sch_start as scheduling sees it: a plan that passes becomes a scheduler whose choked flags follow the
      policy from its first update on; a plan that does not makes none. */
  method NewScheduler(p: Plan) returns (out: Outcome, sch: Scheduler?)
    requires Typed(p)
    ensures out.Ready? <==> sch != null
    ensures out.Ready? ==> AllConnected(p) && NoneLoops(p) && AllScheduled(p) && Acyclic(out.g, out.mux)
    ensures out.Ready? ==>
      && fresh(sch) && fresh(sch.demuxWaiter) && fresh(sch.filterWaiter) && sch.Valid() && sch.Settled()
      && sch.g == out.g && |sch.demuxExited| == |p.demuxDsts| && !sch.terminate
      && sch.mux == InitialState(out.g, |p.demuxDsts|, out.mux).mux
    ensures AllConnected(p) && NoneLoops(p) && AllScheduled(p) && out.Invalid? ==> Cyclic(p)
    ensures AllConnected(p) && NoneLoops(p) && AllScheduled(p) ==> out.Ready? || out.Invalid?
  {
    out := Prepare(p);
    sch := null;
    if out.Ready? {
      PreparedAfterPrepare(p, out.g, out.mux);
      hide Prepared, Acyclic, AllOrigins, AllConnected, NoneLoops, AllScheduled, Cyclic;
      sch := new Scheduler(out.g, |p.demuxDsts|, out.mux);
      sch.Start();
    }
  }

  // ----- demuxers without streams -----

  /** sch_start starts no demuxer without streams; every other task is started. */
  ghost predicate Started(p: Plan, n: Node) {
    match n
    case Demux(d) => d < |p.demuxDsts| && p.demuxDsts[d] != []
    case FilterOut(f) => true
  }

  /** A state of this plan's scheduler: what was never started has not exited. */
  ghost predicate StateOf(p: Plan, s: Sched) {
    && Prepared(s) && |s.demuxExited| == |p.demuxDsts|
    && forall d | 0 <= d < |p.demuxDsts| && p.demuxDsts[d] == [] :: !s.demuxExited[d]
  }

  ghost predicate Exited(s: Sched, n: Node)
    requires NodeOk(s, n) && |s.filterExited| == |s.g|
  {
    match n
    case Demux(d) => s.demuxExited[d]
    case FilterOut(f) => s.filterExited[f]
  }

  /** With nothing eligible, a started task may run iff one has not exited that comes before every demuxer
      without streams; otherwise the fallback opens such a demuxer, or nothing is left to open. */
  lemma FallbackOpensStartedIff(p: Plan, s: Sched)
    requires StateOf(p, s) && !SomeEligible(s)
    ensures (exists n :: NodeOk(s, n) && Started(p, n) && MayRun(s, n)) <==>
            exists n :: NodeOk(s, n) && Started(p, n) && !Exited(s, n)
              && forall d | 0 <= d < |p.demuxDsts| && p.demuxDsts[d] == [] :: n.Demux? && n.idx < d
  {
    if n :| NodeOk(s, n) && Started(p, n) && MayRun(s, n) {
      assert FirstAlive(s, n);
      assert !Exited(s, n);
    }
    if n :| NodeOk(s, n) && Started(p, n) && !Exited(s, n)
            && forall d | 0 <= d < |p.demuxDsts| && p.demuxDsts[d] == [] :: n.Demux? && n.idx < d {
      var d := FirstFalse(s.demuxExited);
      var f := FirstFalse(s.filterExited);
      var first := if d < |s.demuxExited| then Demux(d) else FilterOut(f);
      assert FirstAlive(s, first) && NodeOk(s, first);
      assert Started(p, first) && MayRun(s, first);
    }
  }

  /** It happens: an unused input comes first, the only output stream has been finished, and the demuxer that
      is still running is not let on. */
  lemma SilentDemuxerExample(p: Plan, s: Sched)
    requires p == Plan([[], [1]], [], [], [], [], [[FromDemux(1)]], [], [])
    requires s == Sched([], [], [false, false], [], [[MuxStream(Demux(1), 0, true)]], NOPTS)
    ensures Typed(p) && AllConnected(p) && StateOf(p, s) && !SomeEligible(s)
    ensures forall n :: MayRun(s, n) <==> n == Demux(0)
    ensures !Started(p, Demux(0)) && Started(p, Demux(1))
  {
    assert Prepared(s);
    assert FirstAlive(s, Demux(0));
    FallbackOpensOne(s, Demux(0));
  }
}
