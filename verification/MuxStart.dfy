/** The two-phase start of the muxers (mux_init, mux_task_start, sch_mux_stream_ready, sch_start)
    and the packets sent to them meanwhile (send_to_mux), as a state machine over its steps.

    A step ends where another thread can be scheduled.  Events carry what the callbacks and
    system calls answer. */
module MuxStart {
  datatype Item = Packet(id: nat) | Eof

  /** Where a stream's one sending thread is inside send_to_mux. */
  datatype Sender = Idle | WantsLock(item: Item) | Sending(item: Item)

  datatype Stream = Stream(
    preMux: seq<Item>,      // the pre-muxing fifo
    initEof: bool,
    recvFinished: bool,     // the muxer thread takes no more of this stream
    sender: Sender,
    accepted: seq<Item>,    // what send_to_mux has taken
    handed: seq<Item>)      // what has reached the thread queue while it was wanted

  datatype Mux = Mux(
    nbReady: nat,
    streams: seq<Stream>,
    inits: nat,             // calls of the init callback
    header: bool,           // ... that succeeded
    threads: nat,           // threads started
    muxStarted: bool)

  /** sch_start has not begun, is at this muxer of its loop, is done, or has failed. */
  datatype Phase = Before | Starting(next: nat) | Running | Failed

  /** Flushing(todo, i): the holder of mux_ready_lock (or sch_start) has started the thread of
      muxer todo[0] and is at stream i of its pre-muxing queues; the rest of todo follows. */
  datatype Holder = Free | Flushing(todo: seq<nat>, i: nat)

  datatype State = State(sdp: bool, phase: Phase, nbMuxReady: nat, muxes: seq<Mux>, holder: Holder)

  datatype Event =
    | StreamReady(m: nat, initOk: bool, sdpOk: bool, threadOk: bool)
    | StartBegin
    | StartNext(initOk: bool, sdpOk: bool, threadOk: bool)
    | FlushStep(threadOk: bool)
    | SendCheck(m: nat, s: nat, item: Item)
    | SendLocked(m: nat, s: nat, roomOk: bool)
    | SendDirect(m: nat, s: nat)
    | ReceiveFinish(m: nat, s: nat)

  function Init(sdp: bool, sizes: seq<nat>): State {
    State(sdp, Before, 0,
          seq(|sizes|, m requires 0 <= m < |sizes| =>
                Mux(0, seq(sizes[m], _ => Stream([], false, false, Idle, [], [])), 0, false, 0, false)),
          Free)
  }

  predicate AtMux(s: State, m: nat) { m < |s.muxes| }

  predicate At(s: State, m: nat, j: nat) { m < |s.muxes| && j < |s.muxes[m].streams| }

  function SetMux(s: State, m: nat, mux: Mux): (r: State)
    requires AtMux(s, m)
    ensures r.sdp == s.sdp && |r.muxes| == |s.muxes|
  {
    s.(muxes := s.muxes[m := mux])
  }

  function SetStream(s: State, m: nat, j: nat, st: Stream): (r: State)
    requires At(s, m, j)
    ensures r.sdp == s.sdp && |r.muxes| == |s.muxes|
  {
    SetMux(s, m, s.muxes[m].(streams := s.muxes[m].streams[j := st]))
  }

  // ----- starting -----

  /** An error in sch_start ends it; elsewhere the caller just reports it. */
  function Fail(s: State): State {
    s.(holder := Free, phase := if s.phase.Starting? then Failed else s.phase)
  }

  /** task_start on the first muxer of the list, if any is left; it asserts that no thread runs yet. */
  function StartThread(s: State, todo: seq<nat>, threadOk: bool): (r: State)
    requires forall m <- todo :: AtMux(s, m)
    ensures r.sdp == s.sdp && |r.muxes| == |s.muxes|
  {
    if todo == [] then s.(holder := Free)
    else if assert AtMux(s, todo[0]); !threadOk then Fail(s)
    else SetMux(s, todo[0], s.muxes[todo[0]].(threads := s.muxes[todo[0]].threads + 1)).(holder := Flushing(todo, 0))
  }

  function All(n: nat): (r: seq<nat>)
    ensures |r| == n && forall i | 0 <= i < n :: r[i] == i
  {
    seq(n, i => i)
  }

  function MuxInit(s: State, m: nat, initOk: bool, sdpOk: bool, threadOk: bool): (r: State)
    requires AtMux(s, m)
    ensures r.sdp == s.sdp && |r.muxes| == |s.muxes|
  {
    var s1 := SetMux(s, m, s.muxes[m].(inits := s.muxes[m].inits + 1, header := s.muxes[m].header || initOk));
    if !initOk then Fail(s1)
    else
      var s2 := s1.(nbMuxReady := s.nbMuxReady + 1);
      if s.sdp then
        if s2.nbMuxReady < |s.muxes| then s2
        else if !sdpOk then Fail(s2)
        else StartThread(s2, All(|s.muxes|), threadOk)
      else StartThread(s2, [m], threadOk)
  }

  /** One step of the flush: the next packet of the current stream, the next stream, or the end. */
  function Flush(s: State, threadOk: bool): (r: State)
    requires s.holder.Flushing? && s.holder.todo != [] && forall m <- s.holder.todo :: AtMux(s, m)
    ensures r.sdp == s.sdp && |r.muxes| == |s.muxes|
  {
    var m, i := s.holder.todo[0], s.holder.i;
    assert AtMux(s, m);
    if i >= |s.muxes[m].streams| then
      var s1 := SetMux(s, m, s.muxes[m].(muxStarted := true));
      var rest := s.holder.todo[1..];
      assert forall k <- rest :: k in s.holder.todo && AtMux(s, k);
      StartThread(s1, rest, threadOk)
    else
      var st := s.muxes[m].streams[i];
      if st.preMux == [] then s.(holder := Flushing(s.holder.todo, i + 1))
      else SetStream(s, m, i, FlushItem(st))
  }

  function FlushItem(st: Stream): Stream
    requires st.preMux != []
  {
    var st1 := st.(preMux := st.preMux[1..]);
    if st.recvFinished then st1.(initEof := st.initEof || st.preMux[0].Packet?)
    else st1.(handed := st.handed + [st.preMux[0]])
  }

  // ----- sending -----

  ghost predicate Closed(st: Stream) {
    Eof in st.accepted || st.sender != Idle
  }

  /** The unlocked look at mux_started. */
  function Check(st: Stream, muxStarted: bool, item: Item): Stream {
    st.(sender := if muxStarted then Sending(item) else WantsLock(item))
  }

  /** The second look, with mux_ready_lock held. */
  function Locked(st: Stream, muxStarted: bool, roomOk: bool): Stream
    requires st.sender.WantsLock?
  {
    if muxStarted then st.(sender := Sending(st.sender.item))
    else if !roomOk then st.(sender := Idle)
    else st.(sender := Idle, preMux := st.preMux + [st.sender.item], accepted := st.accepted + [st.sender.item])
  }

  /** The normal path: tq_send, or tq_send_finish for the EOF. */
  function Direct(st: Stream): Stream
    requires st.sender.Sending?
  {
    var item := st.sender.item;
    if item.Packet? && (st.initEof || st.recvFinished) then st.(sender := Idle)
    else if st.recvFinished then st.(sender := Idle, accepted := st.accepted + [item])
    else st.(sender := Idle, accepted := st.accepted + [item], handed := st.handed + [item])
  }

  ghost predicate Enabled(s: State, e: Event) {
    match e
    case StreamReady(m, _, _, _) =>
      // the assertion that a muxer does not get more ready streams than it has
      && AtMux(s, m) && s.holder.Free? && (s.phase.Before? || s.phase.Running?)
      && s.muxes[m].nbReady < |s.muxes[m].streams|
    case StartBegin => s.phase.Before?
    case StartNext(_, _, _) => s.phase.Starting? && s.holder.Free?
    case FlushStep(_) => s.holder.Flushing?
    // tasks that send run only after sch_start
    case SendCheck(m, j, _) => At(s, m, j) && s.phase.Running? && !Closed(s.muxes[m].streams[j])
    case SendLocked(m, j, _) => At(s, m, j) && s.holder.Free? && s.muxes[m].streams[j].sender.WantsLock?
    case SendDirect(m, j) => At(s, m, j) && s.muxes[m].streams[j].sender.Sending?
    case ReceiveFinish(m, j) => At(s, m, j) && 0 < s.muxes[m].threads
  }

  ghost predicate HolderOk(s: State) {
    s.holder.Flushing? ==> s.holder.todo != [] && forall m <- s.holder.todo :: AtMux(s, m)
  }

  ghost function Step(s: State, e: Event): State
    requires HolderOk(s) && Enabled(s, e)
  {
    match e
    case StreamReady(m, initOk, sdpOk, threadOk) =>
      var s1 := SetMux(s, m, s.muxes[m].(nbReady := s.muxes[m].nbReady + 1));
      if s1.muxes[m].nbReady == |s1.muxes[m].streams| && s.phase.Running?
      then MuxInit(s1, m, initOk, sdpOk, threadOk) else s1
    case StartBegin => s.(phase := Starting(0))
    case StartNext(initOk, sdpOk, threadOk) =>
      var m := s.phase.next;
      if m >= |s.muxes| then s.(phase := Running)
      else
        var s1 := s.(phase := Starting(m + 1));
        if s.muxes[m].nbReady == |s.muxes[m].streams| then MuxInit(s1, m, initOk, sdpOk, threadOk) else s1
    case FlushStep(threadOk) => Flush(s, threadOk)
    case SendCheck(m, j, item) => SetStream(s, m, j, Check(s.muxes[m].streams[j], s.muxes[m].muxStarted, item))
    case SendLocked(m, j, roomOk) => SetStream(s, m, j, Locked(s.muxes[m].streams[j], s.muxes[m].muxStarted, roomOk))
    case SendDirect(m, j) => SetStream(s, m, j, Direct(s.muxes[m].streams[j]))
    case ReceiveFinish(m, j) =>
      SetStream(s, m, j, s.muxes[m].streams[j].(recvFinished := true))
  }

  // ----- the invariant -----

  /** A stream of a muxer: nothing accepted is lost, doubled or reordered while it is wanted. */
  ghost predicate StreamOk(st: Stream, threads: nat, muxStarted: bool) {
    && (st.sender.Sending? ==> muxStarted)
    && (muxStarted ==> st.preMux == [])
    && (st.recvFinished ==> threads == 1)
    && (st.initEof ==> st.recvFinished)
    && (if st.recvFinished then st.handed <= st.accepted else st.accepted == st.handed + st.preMux)
    && (forall k | 0 <= k < |st.accepted| - 1 :: st.accepted[k].Packet?)
    && (st.sender != Idle ==> Eof !in st.accepted)
  }

  ghost predicate MuxOk(sdp: bool, allHeaders: bool, phase: Phase, m: nat, mux: Mux) {
    && mux.inits <= 1 && mux.threads <= 1
    && mux.nbReady <= |mux.streams|
    && (mux.inits == 1 ==> mux.nbReady == |mux.streams|)
    && (mux.header ==> mux.inits == 1)
    && (mux.threads == 1 ==> mux.header && (sdp ==> allHeaders))
    && (mux.muxStarted ==> mux.threads == 1)
    && (phase.Before? ==> mux.inits == 0)
    && (phase.Starting? ==> mux.inits == (if m < phase.next && mux.nbReady == |mux.streams| then 1 else 0))
    && (phase.Running? && mux.nbReady == |mux.streams| ==> mux.inits == 1)
    && forall j | 0 <= j < |mux.streams| :: StreamOk(mux.streams[j], mux.threads, mux.muxStarted)
  }

  function Headers(muxes: seq<Mux>): (n: nat)
    ensures n <= |muxes|
  {
    if muxes == [] then 0 else Headers(muxes[1..]) + if muxes[0].header then 1 else 0
  }

  ghost predicate MuxesOk(s: State) {
    && s.nbMuxReady == Headers(s.muxes)
    && forall m | 0 <= m < |s.muxes| :: MuxOk(s.sdp, s.nbMuxReady == |s.muxes|, s.phase, m, s.muxes[m])
  }

  /** Muxers whose thread is about to be started: their header is written, no thread runs yet. */
  ghost predicate Startable(s: State, todo: seq<nat>) {
    && (forall k | 0 <= k < |todo| :: AtMux(s, todo[k]) && s.muxes[todo[k]].header && s.muxes[todo[k]].threads == 0)
    && (forall k, l | 0 <= k < l < |todo| :: todo[k] != todo[l])
    && (s.sdp && todo != [] ==> s.nbMuxReady == |s.muxes|)
  }

  ghost predicate Inv(s: State) {
    && MuxesOk(s)
    && (s.holder.Flushing? ==>
          && (s.phase.Starting? || s.phase.Running?)
          && s.holder.todo != [] && AtMux(s, s.holder.todo[0])
          && Startable(s, s.holder.todo[1..]) && s.holder.todo[0] !in s.holder.todo[1..]
          && var mux := s.muxes[s.holder.todo[0]];
             mux.threads == 1 && !mux.muxStarted
             && forall j | 0 <= j < s.holder.i && j < |mux.streams| :: mux.streams[j].preMux == [])
  }

  lemma InvHolderOk(s: State)
    requires Inv(s)
    ensures HolderOk(s)
  {
    if s.holder.Flushing? {
      var rest := s.holder.todo[1..];
      assert s.holder.todo == [s.holder.todo[0]] + rest;
      assert forall k | 0 <= k < |rest| :: AtMux(s, rest[k]);
    }
  }

  lemma {:induction false} HeadersSet(muxes: seq<Mux>, m: nat, mux: Mux)
    requires m < |muxes|
    ensures Headers(muxes[m := mux]) ==
            Headers(muxes) + (if mux.header then 1 else 0) - (if muxes[m].header then 1 else 0)
  {
    if m == 0 {
    } else {
      assert muxes[m := mux][1..] == muxes[1..][m - 1 := mux];
      HeadersSet(muxes[1..], m - 1, mux);
    }
  }

  lemma {:induction false} HeadersAll(muxes: seq<Mux>)
    ensures Headers(muxes) == |muxes| <==> forall m | 0 <= m < |muxes| :: muxes[m].header
  {
    if muxes == [] {
    } else {
      HeadersAll(muxes[1..]);
      assert forall m | 1 <= m < |muxes| :: muxes[m] == muxes[1..][m - 1];
    }
  }

  /** Replacing a muxer by one that is as good keeps the rest of the invariant. */
  lemma SetMuxOk(s: State, m: nat, mux: Mux)
    requires MuxesOk(s) && AtMux(s, m) && mux.header == s.muxes[m].header
    requires MuxOk(s.sdp, s.nbMuxReady == |s.muxes|, s.phase, m, mux)
    ensures MuxesOk(SetMux(s, m, mux))
  {
    HeadersSet(s.muxes, m, mux);
  }

  lemma SetStreamOk(s: State, m: nat, j: nat, st: Stream)
    requires MuxesOk(s) && At(s, m, j)
    requires StreamOk(st, s.muxes[m].threads, s.muxes[m].muxStarted)
    ensures MuxesOk(SetStream(s, m, j, st))
  {
    SetMuxOk(s, m, s.muxes[m].(streams := s.muxes[m].streams[j := st]));
  }

  /** A stream step that leaves its pre-muxing fifo no fuller than the flush needs keeps everything. */
  lemma SetStreamInv(s: State, m: nat, j: nat, st: Stream)
    requires Inv(s) && At(s, m, j)
    requires StreamOk(st, s.muxes[m].threads, s.muxes[m].muxStarted)
    requires s.holder.Free? || st.preMux == s.muxes[m].streams[j].preMux
    ensures Inv(SetStream(s, m, j, st))
  {
    SetStreamOk(s, m, j, st);
  }

  lemma StartThreadInv(s: State, todo: seq<nat>, threadOk: bool)
    requires MuxesOk(s) && Startable(s, todo) && (s.phase.Starting? || s.phase.Running?)
    requires forall m <- todo :: AtMux(s, m)
    ensures Inv(StartThread(s, todo, threadOk))
  {
    if todo != [] && threadOk {
      var m := todo[0];
      assert AtMux(s, m) && s.muxes[m].header && s.muxes[m].threads == 0;
      SetMuxOk(s, m, s.muxes[m].(threads := 1));
      var s1 := StartThread(s, todo, threadOk);
      forall k | 0 <= k < |todo[1..]|
        ensures AtMux(s1, todo[1..][k]) && s1.muxes[todo[1..][k]].header && s1.muxes[todo[1..][k]].threads == 0
      {
        assert todo[k + 1] != m;
      }
    }
  }

  /** All is well but for the init call that is about to be made for this muxer. */
  ghost predicate AwaitsInit(s: State, m: nat) {
    && AtMux(s, m) && s.holder.Free? && (s.phase.Starting? || s.phase.Running?)
    && s.muxes[m].inits == 0 && !s.muxes[m].header
    && MuxesOk(SetMux(s, m, s.muxes[m].(inits := 1)))
  }

  function WithHeader(s: State, m: nat): State
    requires AtMux(s, m)
  {
    SetMux(s, m, s.muxes[m].(inits := s.muxes[m].inits + 1, header := true)).(nbMuxReady := s.nbMuxReady + 1)
  }

  /** Writing a header that was missing: until then, with an SDP wanted, no thread could run. */
  lemma HeaderWritten(s: State, m: nat)
    requires AwaitsInit(s, m)
    ensures MuxesOk(WithHeader(s, m))
    ensures WithHeader(s, m).nbMuxReady == |s.muxes| <==>
        forall k | 0 <= k < |s.muxes| :: WithHeader(s, m).muxes[k].header
    ensures forall k | 0 <= k < |s.muxes| :: s.sdp || k == m ==> WithHeader(s, m).muxes[k].threads == 0
  {
    hide StreamOk;
    var s0, s2 := SetMux(s, m, s.muxes[m].(inits := 1)), WithHeader(s, m);
    assert s2.muxes == s0.muxes[m := s2.muxes[m]];
    HeadersSet(s0.muxes, m, s2.muxes[m]);
    HeadersAll(s0.muxes);
    HeadersAll(s2.muxes);
    assert !s0.muxes[m].header;
    forall k | 0 <= k < |s2.muxes|
      ensures MuxOk(s2.sdp, s2.nbMuxReady == |s2.muxes|, s2.phase, k, s2.muxes[k])
      ensures s.sdp || k == m ==> s2.muxes[k].threads == 0
    {
      assert MuxOk(s0.sdp, s0.nbMuxReady == |s0.muxes|, s0.phase, k, s0.muxes[k]);
    }
  }

  lemma FailOk(s: State)
    requires MuxesOk(s)
    ensures MuxesOk(Fail(s))
  {
    hide StreamOk;
  }

  lemma MuxInitInv(s: State, m: nat, initOk: bool, sdpOk: bool, threadOk: bool)
    requires AwaitsInit(s, m)
    ensures Inv(MuxInit(s, m, initOk, sdpOk, threadOk))
  {
    hide MuxOk;
    if initOk {
      HeaderWritten(s, m);
      var s2 := WithHeader(s, m);
      FailOk(s2);
      if !s.sdp {
        StartThreadInv(s2, [m], threadOk);
      } else if s2.nbMuxReady == |s.muxes| && sdpOk {
        StartThreadInv(s2, All(|s.muxes|), threadOk);
      }
    } else {
      FailOk(SetMux(s, m, s.muxes[m].(inits := 1)));
      assert s.muxes[m].(inits := 1) ==
             s.muxes[m].(inits := s.muxes[m].inits + 1, header := s.muxes[m].header || initOk);
    }
  }

  lemma StartableAfter(s: State, todo: seq<nat>, m: nat, mux: Mux)
    requires Startable(s, todo) && AtMux(s, m) && m !in todo
    ensures Startable(SetMux(s, m, mux), todo) && forall k <- todo :: AtMux(s, k)
  {
    assert forall k | 0 <= k < |todo| :: todo[k] in todo && AtMux(s, todo[k]);
  }

  lemma FlushItemOk(st: Stream, threads: nat)
    requires StreamOk(st, threads, false) && st.preMux != []
    ensures StreamOk(FlushItem(st), threads, false)
  {
    assert st.recvFinished || st.accepted == (st.handed + [st.preMux[0]]) + st.preMux[1..];
  }

  lemma FlushInv(s: State, threadOk: bool)
    requires Inv(s) && HolderOk(s) && s.holder.Flushing?
    ensures Inv(Flush(s, threadOk))
  {
    var m, i, rest := s.holder.todo[0], s.holder.i, s.holder.todo[1..];
    var mux := s.muxes[m];
    assert MuxOk(s.sdp, s.nbMuxReady == |s.muxes|, s.phase, m, mux);
    if i >= |mux.streams| {
      SetMuxOk(s, m, mux.(muxStarted := true));
      StartableAfter(s, rest, m, mux.(muxStarted := true));
      StartThreadInv(SetMux(s, m, mux.(muxStarted := true)), rest, threadOk);
    } else if mux.streams[i].preMux != [] {
      FlushItemOk(mux.streams[i], mux.threads);
      hide StreamOk;
      SetStreamOk(s, m, i, FlushItem(mux.streams[i]));
      StartableAfter(s, rest, m, Flush(s, threadOk).muxes[m]);
    }
  }

  lemma ReadyAwaitsInit(s: State, m: nat)
    requires Inv(s) && AtMux(s, m) && s.holder.Free? && s.phase.Running?
    requires s.muxes[m].nbReady + 1 == |s.muxes[m].streams|
    ensures AwaitsInit(SetMux(s, m, s.muxes[m].(nbReady := s.muxes[m].nbReady + 1)), m)
  {
    var ready := s.muxes[m].(nbReady := s.muxes[m].nbReady + 1);
    var s1 := SetMux(s, m, ready);
    assert MuxOk(s.sdp, s.nbMuxReady == |s.muxes|, s.phase, m, s.muxes[m]);
    SetMuxOk(s, m, ready.(inits := 1));
    assert SetMux(s1, m, ready.(inits := 1)) == SetMux(s, m, ready.(inits := 1));
  }

  lemma StreamReadyInv(s: State, m: nat, initOk: bool, sdpOk: bool, threadOk: bool)
    requires Inv(s) && HolderOk(s) && Enabled(s, StreamReady(m, initOk, sdpOk, threadOk))
    ensures Inv(Step(s, StreamReady(m, initOk, sdpOk, threadOk)))
  {
    var ready := s.muxes[m].(nbReady := s.muxes[m].nbReady + 1);
    if ready.nbReady == |ready.streams| && s.phase.Running? {
      ReadyAwaitsInit(s, m);
      MuxInitInv(SetMux(s, m, ready), m, initOk, sdpOk, threadOk);
    } else {
      SetMuxOk(s, m, ready);
    }
  }

  lemma NextAwaitsInit(s: State)
    requires Inv(s) && s.phase.Starting? && s.holder.Free?
    requires s.phase.next < |s.muxes| && s.muxes[s.phase.next].nbReady == |s.muxes[s.phase.next].streams|
    ensures AwaitsInit(s.(phase := Starting(s.phase.next + 1)), s.phase.next)
  {
    var m := s.phase.next;
    HeadersSet(s.muxes, m, s.muxes[m].(inits := 1));
    assert MuxOk(s.sdp, s.nbMuxReady == |s.muxes|, s.phase, m, s.muxes[m]);
  }

  lemma StartNextInv(s: State, initOk: bool, sdpOk: bool, threadOk: bool)
    requires Inv(s) && HolderOk(s) && Enabled(s, StartNext(initOk, sdpOk, threadOk))
    ensures Inv(Step(s, StartNext(initOk, sdpOk, threadOk)))
  {
    var m := s.phase.next;
    if m < |s.muxes| && s.muxes[m].nbReady == |s.muxes[m].streams| {
      NextAwaitsInit(s);
      MuxInitInv(s.(phase := Starting(m + 1)), m, initOk, sdpOk, threadOk);
    }
  }

  lemma StreamSteps(st: Stream, threads: nat, muxStarted: bool)
    requires StreamOk(st, threads, muxStarted)
    ensures forall item :: !Closed(st) ==> StreamOk(Check(st, muxStarted, item), threads, muxStarted)
    ensures forall roomOk :: st.sender.WantsLock? ==> StreamOk(Locked(st, muxStarted, roomOk), threads, muxStarted)
    ensures st.sender.Sending? ==> StreamOk(Direct(st), threads, muxStarted)
    ensures threads == 1 ==> StreamOk(st.(recvFinished := true), threads, muxStarted)
  {
  }

  lemma SendInv(s: State, e: Event)
    requires Inv(s) && HolderOk(s) && Enabled(s, e)
    requires e.SendCheck? || e.SendLocked? || e.SendDirect? || e.ReceiveFinish?
    ensures Inv(Step(s, e))
  {
    var mux := s.muxes[e.m];
    assert MuxOk(s.sdp, s.nbMuxReady == |s.muxes|, s.phase, e.m, mux);
    var st := mux.streams[e.s];
    StreamSteps(st, mux.threads, mux.muxStarted);
    hide StreamOk;
    match e
    case SendCheck(m, j, item) => SetStreamInv(s, m, j, Check(st, mux.muxStarted, item));
    case SendLocked(m, j, roomOk) => SetStreamInv(s, m, j, Locked(st, mux.muxStarted, roomOk));
    case SendDirect(m, j) => SetStreamInv(s, m, j, Direct(st));
    case ReceiveFinish(m, j) => SetStreamInv(s, m, j, st.(recvFinished := true));
  }

  lemma StepKeepsInv(s: State, e: Event)
    requires Inv(s) && HolderOk(s) && Enabled(s, e)
    ensures Inv(Step(s, e))
  {
    match e
    case StreamReady(m, initOk, sdpOk, threadOk) => StreamReadyInv(s, m, initOk, sdpOk, threadOk);
    case StartBegin =>
    case StartNext(initOk, sdpOk, threadOk) => StartNextInv(s, initOk, sdpOk, threadOk);
    case FlushStep(threadOk) => FlushInv(s, threadOk);
    case SendCheck(m, j, item) => SendInv(s, e);
    case SendLocked(m, j, roomOk) => SendInv(s, e);
    case SendDirect(m, j) => SendInv(s, e);
    case ReceiveFinish(m, j) => SendInv(s, e);
  }

  // ----- what holds over every run -----

  ghost predicate IsRun(ss: seq<State>, evs: seq<Event>, sdp: bool, sizes: seq<nat>) {
    && |ss| == |evs| + 1 && ss[0] == Init(sdp, sizes)
    && forall k | 0 <= k < |evs| :: HolderOk(ss[k]) && Enabled(ss[k], evs[k]) && ss[k + 1] == Step(ss[k], evs[k])
  }

  lemma {:induction false} NoHeaders(muxes: seq<Mux>)
    requires forall m | 0 <= m < |muxes| :: !muxes[m].header
    ensures Headers(muxes) == 0
  {
    if muxes == [] {
    } else {
      NoHeaders(muxes[1..]);
    }
  }

  lemma {:induction false} RunInv(ss: seq<State>, evs: seq<Event>, sdp: bool, sizes: seq<nat>, k: nat)
    requires IsRun(ss, evs, sdp, sizes) && k <= |evs|
    ensures Inv(ss[k]) && ss[k].sdp == sdp && |ss[k].muxes| == |sizes|
  {
    if k == 0 {
      NoHeaders(ss[0].muxes);
    } else {
      RunInv(ss, evs, sdp, sizes, k - 1);
      StepKeepsInv(ss[k - 1], evs[k - 1]);
      StepKeepsShape(ss[k - 1], evs[k - 1]);
    }
  }

  lemma StepKeepsShape(s: State, e: Event)
    requires HolderOk(s) && Enabled(s, e)
    ensures Step(s, e).sdp == s.sdp && |Step(s, e).muxes| == |s.muxes|
  {
  }

  /** Over every order of stream-ready calls, sch_start, sends and flush steps, whatever the callbacks
      answer: a muxer is initialised at most once and its thread started at most once; when an SDP is
      wanted, no muxer thread runs before every muxer has written its header. */
  lemma StartProtocol(ss: seq<State>, evs: seq<Event>, sdp: bool, sizes: seq<nat>, k: nat, m: nat)
    requires IsRun(ss, evs, sdp, sizes) && k <= |evs| && m < |sizes|
    ensures |ss[k].muxes| == |sizes|
    ensures ss[k].muxes[m].inits <= 1 && ss[k].muxes[m].threads <= 1
    ensures ss[k].muxes[m].threads == 1 ==> ss[k].muxes[m].header
    ensures sdp && ss[k].muxes[m].threads == 1 ==> forall l | 0 <= l < |sizes| :: ss[k].muxes[l].header
  {
    RunInv(ss, evs, sdp, sizes, k);
    HeadersAll(ss[k].muxes);
  }

  /** For every stream, at every point of every run: what send_to_mux has accepted is what the thread
      queue was handed followed by what still waits in the pre-muxing fifo, in order, until the muxer
      is done with the stream; from then on what was handed stays a prefix of what was accepted. */
  lemma StartKeepsOrder(ss: seq<State>, evs: seq<Event>, sdp: bool, sizes: seq<nat>, k: nat, m: nat, j: nat)
    requires IsRun(ss, evs, sdp, sizes) && k <= |evs| && At(ss[k], m, j)
    ensures var st := ss[k].muxes[m].streams[j];
      && (!st.recvFinished ==> st.accepted == st.handed + st.preMux)
      && st.handed <= st.accepted
      && (ss[k].muxes[m].muxStarted ==> st.preMux == [])
      && (forall i | 0 <= i < |st.accepted| - 1 :: st.accepted[i].Packet?)
  {
    RunInv(ss, evs, sdp, sizes, k);
  }
}
