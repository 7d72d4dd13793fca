/** What the start of the muxers does with every item sent and every ready call, said in terms of the events of
    a run (fftools/ffmpeg_sched.c). */
module MuxStartLaws {
  import opened MuxStart

  // ----- sending -----

  ghost predicate IsSendOf(e: Event, m: nat, j: nat) {
    (e.SendCheck? || e.SendLocked? || e.SendDirect?) && e.m == m && e.s == j
  }

  /** The muxer is done with the stream: some ReceiveFinish came before. */
  ghost predicate Shut(evs: seq<Event>, m: nat, j: nat) {
    ReceiveFinish(m, j) in evs
  }

  /** What is on its way: the item of the latest SendCheck, until a later step of that send has completed it. */
  ghost function Underway(ss: seq<State>, evs: seq<Event>, m: nat, j: nat): seq<Item>
    requires |ss| == |evs| + 1
  {
    if evs == [] then []
    else
      var n := |evs| - 1;
      var before := Underway(ss[..n + 1], evs[..n], m, j);
      match evs[n]
      case SendCheck(m', j', item) => if m' == m && j' == j then [item] else before
      case SendLocked(m', j', _) =>
        if m' == m && j' == j && !(AtMux(ss[n], m) && ss[n].muxes[m].muxStarted) then [] else before
      case SendDirect(m', j') => if m' == m && j' == j then [] else before
      case _ => before
  }

  /** What the sends completed so far have had accepted: before the start whatever there was room for, after it
      every packet unless the muxer was done with the stream, and the end of the stream in any case. */
  ghost function Took(ss: seq<State>, evs: seq<Event>, m: nat, j: nat): seq<Item>
    requires |ss| == |evs| + 1
  {
    if evs == [] then []
    else
      var n := |evs| - 1;
      var before, item := Took(ss[..n + 1], evs[..n], m, j), Underway(ss[..n + 1], evs[..n], m, j);
      match evs[n]
      case SendLocked(m', j', roomOk) =>
        if m' == m && j' == j && !(AtMux(ss[n], m) && ss[n].muxes[m].muxStarted) && roomOk then before + item
        else before
      case SendDirect(m', j') =>
        if m' == m && j' == j && !(Shut(evs[..n], m, j) && forall x <- item :: x.Packet?) then before + item else before
      case _ => before
  }

  /** A stream as the events describe it. */
  ghost predicate Told(st: Stream, ss: seq<State>, evs: seq<Event>, m: nat, j: nat)
    requires |ss| == |evs| + 1
  {
    && st.accepted == Took(ss, evs, m, j)
    && Underway(ss, evs, m, j) == (if st.sender.Idle? then [] else [st.sender.item])
    && (st.recvFinished <==> Shut(evs, m, j))
  }

  lemma MuxInitLeavesIt(s: State, n: nat, initOk: bool, sdpOk: bool, threadOk: bool, m: nat, j: nat)
    requires AtMux(s, n) && At(s, m, j)
    ensures At(MuxInit(s, n, initOk, sdpOk, threadOk), m, j)
    ensures MuxInit(s, n, initOk, sdpOk, threadOk).muxes[m].streams == s.muxes[m].streams
  {
  }

  lemma FlushLeavesIt(s: State, threadOk: bool, m: nat, j: nat)
    requires HolderOk(s) && s.holder.Flushing? && At(s, m, j)
    ensures At(Flush(s, threadOk), m, j)
    ensures var st, st' := s.muxes[m].streams[j], Flush(s, threadOk).muxes[m].streams[j];
      st'.accepted == st.accepted && st'.sender == st.sender && st'.recvFinished == st.recvFinished
  {
  }

  /** Nothing but its own sends and the muxer's end of it changes these three. */
  lemma OthersLeaveIt(s: State, e: Event, m: nat, j: nat)
    requires HolderOk(s) && Enabled(s, e) && At(s, m, j) && !IsSendOf(e, m, j)
    ensures At(Step(s, e), m, j)
    ensures var st, st' := s.muxes[m].streams[j], Step(s, e).muxes[m].streams[j];
      && st'.accepted == st.accepted && st'.sender == st.sender
      && st'.recvFinished == (st.recvFinished || e == ReceiveFinish(m, j))
  {
    hide MuxInit, Flush;
    match e
    case StreamReady(n, initOk, sdpOk, threadOk) =>
      MuxInitLeavesIt(SetMux(s, n, s.muxes[n].(nbReady := s.muxes[n].nbReady + 1)), n, initOk, sdpOk, threadOk, m, j);
    case StartBegin =>
    case StartNext(initOk, sdpOk, threadOk) =>
      if AtMux(s, s.phase.next) {
        MuxInitLeavesIt(s.(phase := Starting(s.phase.next + 1)), s.phase.next, initOk, sdpOk, threadOk, m, j);
      }
    case FlushStep(threadOk) => FlushLeavesIt(s, threadOk, m, j);
    case SendCheck(_, _, _) =>
    case SendLocked(_, _, _) =>
    case SendDirect(_, _) =>
    case ReceiveFinish(_, _) =>
  }

  /** What the three steps of a send do to the stream it is for: a look at mux_started; before the start, the
      item queued if there is room and dropped if not; after it, the item accepted unless it is a packet and
      the muxer is done with the stream. */
  ghost predicate SendDone(st: Stream, st': Stream, started: bool, e: Event) {
    && st'.recvFinished == st.recvFinished
    && match e
       case SendCheck(_, _, item) =>
         st'.accepted == st.accepted && st'.sender == if started then Sending(item) else WantsLock(item)
       case SendLocked(_, _, roomOk) =>
         && st.sender.WantsLock?
         && (if started then st'.accepted == st.accepted && st'.sender == Sending(st.sender.item)
             else
               && st'.sender == Idle
               && st'.accepted == (if roomOk then st.accepted + [st.sender.item] else st.accepted)
               && st'.preMux == (if roomOk then st.preMux + [st.sender.item] else st.preMux))
       case SendDirect(_, _) =>
         && st.sender.Sending? && st'.sender == Idle
         && st'.accepted ==
            (if st.sender.item.Packet? && st.recvFinished then st.accepted else st.accepted + [st.sender.item])
       case _ => false
  }

  lemma SendSteps(s: State, e: Event, m: nat, j: nat)
    requires HolderOk(s) && Enabled(s, e) && At(s, m, j) && IsSendOf(e, m, j)
    requires StreamOk(s.muxes[m].streams[j], s.muxes[m].threads, s.muxes[m].muxStarted)
    ensures At(Step(s, e), m, j)
    ensures SendDone(s.muxes[m].streams[j], Step(s, e).muxes[m].streams[j], s.muxes[m].muxStarted, e)
  {
  }

  /** Over every run: a stream has accepted, in order, exactly the items of its completed sends that were not
      refused room before the start nor turned away after it; what is on its way is the item of the latest
      send; and the muxer is done with the stream iff it said so. */
  lemma {:induction false} AcceptedIsWhatWasSent(ss: seq<State>, evs: seq<Event>, sdp: bool, sizes: seq<nat>,
                                                 k: nat, m: nat, j: nat)
    requires IsRun(ss, evs, sdp, sizes) && k <= |evs| && m < |sizes| && j < sizes[m]
    ensures At(ss[k], m, j) && Told(ss[k].muxes[m].streams[j], ss[..k + 1], evs[..k], m, j)
  {
    if k == 0 {
    } else {
      AcceptedIsWhatWasSent(ss, evs, sdp, sizes, k - 1, m, j);
      RunInv(ss, evs, sdp, sizes, k - 1);
      RunStep(ss, evs, sdp, sizes, k - 1);
      hide IsRun, Inv, Step, Enabled, HolderOk, Told, SendDone;
      assert ss[..k + 1][..k] == ss[..k] && evs[..k][..k - 1] == evs[..k - 1];
      if IsSendOf(evs[k - 1], m, j) {
        StreamIsOk(ss[k - 1], m, j);
        SendSteps(ss[k - 1], evs[k - 1], m, j);
        ToldAfterSend(ss[k], ss[..k + 1], evs[..k], m, j);
      } else {
        OthersLeaveIt(ss[k - 1], evs[k - 1], m, j);
        ToldAfterOther(ss[k], ss[..k + 1], evs[..k], m, j);
      }
    }
  }

  lemma RunStep(ss: seq<State>, evs: seq<Event>, sdp: bool, sizes: seq<nat>, k: nat)
    requires IsRun(ss, evs, sdp, sizes) && k < |evs|
    ensures HolderOk(ss[k]) && Enabled(ss[k], evs[k]) && ss[k + 1] == Step(ss[k], evs[k])
  {
  }

  lemma StreamIsOk(s: State, m: nat, j: nat)
    requires Inv(s) && At(s, m, j)
    ensures StreamOk(s.muxes[m].streams[j], s.muxes[m].threads, s.muxes[m].muxStarted)
  {
    assert MuxOk(s.sdp, s.nbMuxReady == |s.muxes|, s.phase, m, s.muxes[m]);
  }

  lemma ToldAfterSend(s': State, ss: seq<State>, evs: seq<Event>, m: nat, j: nat)
    requires |ss| == |evs| + 1 >= 2 && At(ss[|evs| - 1], m, j) && At(s', m, j)
    requires Told(ss[|evs| - 1].muxes[m].streams[j], ss[..|evs|], evs[..|evs| - 1], m, j)
    requires IsSendOf(evs[|evs| - 1], m, j)
    requires SendDone(ss[|evs| - 1].muxes[m].streams[j], s'.muxes[m].streams[j],
                      ss[|evs| - 1].muxes[m].muxStarted, evs[|evs| - 1])
    ensures Told(s'.muxes[m].streams[j], ss, evs, m, j)
  {
    assert evs == evs[..|evs| - 1] + [evs[|evs| - 1]];
    assert Shut(evs, m, j) <==> Shut(evs[..|evs| - 1], m, j);
  }

  lemma ToldAfterOther(s': State, ss: seq<State>, evs: seq<Event>, m: nat, j: nat)
    requires |ss| == |evs| + 1 >= 2 && At(ss[|evs| - 1], m, j) && At(s', m, j)
    requires Told(ss[|evs| - 1].muxes[m].streams[j], ss[..|evs|], evs[..|evs| - 1], m, j)
    requires !IsSendOf(evs[|evs| - 1], m, j)
    requires var st, st' := ss[|evs| - 1].muxes[m].streams[j], s'.muxes[m].streams[j];
      && st'.accepted == st.accepted && st'.sender == st.sender
      && st'.recvFinished == (st.recvFinished || evs[|evs| - 1] == ReceiveFinish(m, j))
    ensures Told(s'.muxes[m].streams[j], ss, evs, m, j)
  {
    var e := evs[|evs| - 1];
    assert evs == evs[..|evs| - 1] + [e];
    assert Shut(evs, m, j) <==> Shut(evs[..|evs| - 1], m, j) || e == ReceiveFinish(m, j);
  }

  /** A flush step that finds a packet for a stream the muxer is done with: tq_send answers EOF. */
  ghost predicate TurnedAway(s: State, e: Event, m: nat, j: nat) {
    && e.FlushStep? && HolderOk(s) && s.holder.Flushing? && s.holder.todo[0] == m && s.holder.i == j && At(s, m, j)
    && var st := s.muxes[m].streams[j]; st.recvFinished && st.preMux != [] && st.preMux[0].Packet?
  }

  lemma FlushInitEof(s: State, threadOk: bool, m: nat, j: nat)
    requires HolderOk(s) && s.holder.Flushing? && At(s, m, j)
    ensures At(Flush(s, threadOk), m, j)
    ensures Flush(s, threadOk).muxes[m].streams[j].initEof <==>
            s.muxes[m].streams[j].initEof || TurnedAway(s, FlushStep(threadOk), m, j)
  {
  }

  lemma StepInitEof(s: State, e: Event, m: nat, j: nat)
    requires HolderOk(s) && Enabled(s, e) && At(s, m, j)
    ensures At(Step(s, e), m, j)
    ensures Step(s, e).muxes[m].streams[j].initEof <==> s.muxes[m].streams[j].initEof || TurnedAway(s, e, m, j)
  {
    hide MuxInit, Flush;
    match e
    case StreamReady(n, initOk, sdpOk, threadOk) =>
      MuxInitLeavesIt(SetMux(s, n, s.muxes[n].(nbReady := s.muxes[n].nbReady + 1)), n, initOk, sdpOk, threadOk, m, j);
    case StartBegin =>
    case StartNext(initOk, sdpOk, threadOk) =>
      if AtMux(s, s.phase.next) {
        MuxInitLeavesIt(s.(phase := Starting(s.phase.next + 1)), s.phase.next, initOk, sdpOk, threadOk, m, j);
      }
    case FlushStep(threadOk) => FlushInitEof(s, threadOk, m, j);
    case SendCheck(_, _, _) =>
    case SendLocked(_, _, _) =>
    case SendDirect(_, _) =>
    case ReceiveFinish(_, _) =>
  }

  /** Over every run: init_eof is set iff a packet was turned away by the flush. */
  lemma {:induction false} InitEofIff(ss: seq<State>, evs: seq<Event>, sdp: bool, sizes: seq<nat>,
                                      k: nat, m: nat, j: nat)
    requires IsRun(ss, evs, sdp, sizes) && k <= |evs| && m < |sizes| && j < sizes[m]
    ensures At(ss[k], m, j)
    ensures ss[k].muxes[m].streams[j].initEof <==> exists n :: 0 <= n < k && TurnedAway(ss[n], evs[n], m, j)
  {
    if k == 0 {
    } else {
      InitEofIff(ss, evs, sdp, sizes, k - 1, m, j);
      RunStep(ss, evs, sdp, sizes, k - 1);
      hide IsRun, Step, Enabled, HolderOk, TurnedAway;
      StepInitEof(ss[k - 1], evs[k - 1], m, j);
    }
  }

  // ----- starting -----

  /** The callbacks and system calls of this step succeed. */
  predicate Succeeds(e: Event) {
    match e
    case StreamReady(_, initOk, sdpOk, threadOk) => initOk && sdpOk && threadOk
    case StartNext(initOk, sdpOk, threadOk) => initOk && sdpOk && threadOk
    case FlushStep(threadOk) => threadOk
    case _ => true
  }

  ghost predicate AllSucceed(evs: seq<Event>) {
    forall e <- evs :: Succeeds(e)
  }

  lemma AllSucceedInit(evs: seq<Event>, k: nat)
    requires 0 < k <= |evs| && AllSucceed(evs[..k])
    ensures AllSucceed(evs[..k - 1]) && Succeeds(evs[k - 1])
  {
    assert evs[..k] == evs[..k - 1] + [evs[k - 1]];
  }

  /** How many of a muxer's streams have been reported ready. */
  function Readies(evs: seq<Event>, m: nat): nat {
    if evs == [] then 0
    else
      var e := evs[|evs| - 1];
      Readies(evs[..|evs| - 1], m) + if e.StreamReady? && e.m == m then 1 else 0
  }

  /** How many turns sch_start's loop has taken, the last one that ends it included. */
  function Turns(evs: seq<Event>): nat {
    if evs == [] then 0 else Turns(evs[..|evs| - 1]) + if evs[|evs| - 1].StartNext? then 1 else 0
  }

  lemma MuxInitReadies(s: State, n: nat, initOk: bool, sdpOk: bool, threadOk: bool, m: nat)
    requires AtMux(s, n) && AtMux(s, m)
    ensures AtMux(MuxInit(s, n, initOk, sdpOk, threadOk), m)
    ensures MuxInit(s, n, initOk, sdpOk, threadOk).muxes[m].nbReady == s.muxes[m].nbReady
    ensures MuxInit(s, n, initOk, sdpOk, threadOk).muxes[m].streams == s.muxes[m].streams
  {
  }

  lemma FlushReadies(s: State, threadOk: bool, m: nat)
    requires HolderOk(s) && s.holder.Flushing? && AtMux(s, m)
    ensures AtMux(Flush(s, threadOk), m)
    ensures Flush(s, threadOk).muxes[m].nbReady == s.muxes[m].nbReady
    ensures |Flush(s, threadOk).muxes[m].streams| == |s.muxes[m].streams|
  {
  }

  lemma StepReadies(s: State, e: Event, m: nat)
    requires HolderOk(s) && Enabled(s, e) && AtMux(s, m)
    ensures AtMux(Step(s, e), m)
    ensures Step(s, e).muxes[m].nbReady == s.muxes[m].nbReady + if e.StreamReady? && e.m == m then 1 else 0
    ensures |Step(s, e).muxes[m].streams| == |s.muxes[m].streams|
  {
    hide MuxInit, Flush;
    match e
    case StreamReady(n, initOk, sdpOk, threadOk) =>
      MuxInitReadies(SetMux(s, n, s.muxes[n].(nbReady := s.muxes[n].nbReady + 1)), n, initOk, sdpOk, threadOk, m);
    case StartBegin =>
    case StartNext(initOk, sdpOk, threadOk) =>
      if AtMux(s, s.phase.next) {
        MuxInitReadies(s.(phase := Starting(s.phase.next + 1)), s.phase.next, initOk, sdpOk, threadOk, m);
      }
    case FlushStep(threadOk) => FlushReadies(s, threadOk, m);
    case SendCheck(_, _, _) =>
    case SendLocked(_, _, _) =>
    case SendDirect(_, _) =>
    case ReceiveFinish(_, _) =>
  }

  lemma {:induction false} ReadyCount(ss: seq<State>, evs: seq<Event>, sdp: bool, sizes: seq<nat>, k: nat, m: nat)
    requires IsRun(ss, evs, sdp, sizes) && k <= |evs| && m < |sizes|
    ensures AtMux(ss[k], m) && ss[k].muxes[m].nbReady == Readies(evs[..k], m) && |ss[k].muxes[m].streams| == sizes[m]
  {
    if k == 0 {
    } else {
      ReadyCount(ss, evs, sdp, sizes, k - 1, m);
      RunStep(ss, evs, sdp, sizes, k - 1);
      hide IsRun, Step, Enabled, HolderOk;
      StepReadies(ss[k - 1], evs[k - 1], m);
      assert evs[..k][..k - 1] == evs[..k - 1];
    }
  }

  /** Muxer m as it has to be while everything succeeds: its thread runs iff its header is written and, with an
      SDP wanted, all are, unless it is still on the list of those being started; and it is started iff its
      thread runs and is past the flush. */
  ghost predicate OnItsWay(s: State, m: nat)
    requires AtMux(s, m) && HolderOk(s)
  {
    var mux := s.muxes[m];
    && (mux.header <==> mux.inits == 1)
    && (mux.threads == 1 <==>
          && mux.header && (s.sdp ==> s.nbMuxReady == |s.muxes|)
          && !(s.holder.Flushing? && m in s.holder.todo[1..]))
    && (mux.muxStarted <==> mux.threads == 1 && !(s.holder.Flushing? && m == s.holder.todo[0]))
  }

  ghost predicate AllOnTheirWay(s: State)
    requires HolderOk(s)
  {
    !s.phase.Failed? && forall m: nat | AtMux(s, m) :: OnItsWay(s, m)
  }

  lemma MuxInitOnItsWay(s: State, n: nat)
    requires AwaitsInit(s, n) && HolderOk(s) && forall m: nat | AtMux(s, m) :: OnItsWay(s, m)
    ensures HolderOk(MuxInit(s, n, true, true, true)) && AllOnTheirWay(MuxInit(s, n, true, true, true))
  {
    HeaderWritten(s, n);
    var s2, s' := WithHeader(s, n), MuxInit(s, n, true, true, true);
    hide StreamOk, MuxOk, MuxesOk, AwaitsInit;
    assert s' == if !s.sdp then StartThread(s2, [n], true)
                 else if s2.nbMuxReady < |s.muxes| then s2 else StartThread(s2, All(|s.muxes|), true);
    forall m: nat | AtMux(s', m) ensures OnItsWay(s', m) {
      assert OnItsWay(s, m);
      if s'.holder.Flushing? { assert m in All(|s.muxes|)[1..] <==> m > 0 by { InTail(|s.muxes|, m); } }
    }
  }

  lemma InTail(n: nat, m: nat)
    requires m < n
    ensures m in All(n)[1..] <==> m > 0
  {
    if m > 0 { assert All(n)[1..][m - 1] == m; }
  }

  lemma StreamReadyOnItsWay(s: State, n: nat)
    requires Inv(s) && HolderOk(s) && Enabled(s, StreamReady(n, true, true, true)) && AllOnTheirWay(s)
    ensures var s' := Step(s, StreamReady(n, true, true, true)); HolderOk(s') && AllOnTheirWay(s')
  {
    var s1 := SetMux(s, n, s.muxes[n].(nbReady := s.muxes[n].nbReady + 1));
    assert forall m: nat | AtMux(s1, m) :: OnItsWay(s, m) ==> OnItsWay(s1, m);
    if s1.muxes[n].nbReady == |s1.muxes[n].streams| && s.phase.Running? {
      ReadyAwaitsInit(s, n);
      hide Inv, MuxInit, OnItsWay, AwaitsInit;
      MuxInitOnItsWay(s1, n);
    }
  }

  lemma StartNextOnItsWay(s: State)
    requires Inv(s) && HolderOk(s) && Enabled(s, StartNext(true, true, true)) && AllOnTheirWay(s)
    ensures var s' := Step(s, StartNext(true, true, true)); HolderOk(s') && AllOnTheirWay(s')
  {
    var n := s.phase.next;
    if n < |s.muxes| {
      var s1 := s.(phase := Starting(n + 1));
      assert forall m: nat | AtMux(s1, m) :: OnItsWay(s, m) ==> OnItsWay(s1, m);
      if s.muxes[n].nbReady == |s.muxes[n].streams| {
        NextAwaitsInit(s);
        hide Inv, MuxInit, OnItsWay, AwaitsInit;
        MuxInitOnItsWay(s1, n);
      }
    } else {
      assert forall m: nat | AtMux(s, m) :: OnItsWay(s, m) ==> OnItsWay(s.(phase := Running), m);
    }
  }

  /** The next thread on the list starts, or nobody is left to start. */
  lemma NextOnItsWay(s: State, n: nat, rest: seq<nat>, m: nat)
    requires HolderOk(s) && s.holder.Flushing? && s.holder.todo == [n] + rest && AtMux(s, n) && n !in rest
    requires Startable(s, rest) && (forall k <- rest :: AtMux(s, k)) && AtMux(s, m) && OnItsWay(s, m)
    ensures var s' := StartThread(SetMux(s, n, s.muxes[n].(muxStarted := true)), rest, true);
      HolderOk(s') && s'.phase == s.phase && AtMux(s', m) && (s.muxes[n].threads == 1 ==> OnItsWay(s', m))
  {
    assert s.holder.todo[1..] == rest;
    if rest == [] {
    } else {
      assert AtMux(s, rest[0]) && s.muxes[rest[0]].header && s.muxes[rest[0]].threads == 0;
      hide Startable;
      Tails(rest, m);
    }
  }

  lemma Tails(rest: seq<nat>, m: nat)
    requires rest != []
    ensures m in rest <==> m == rest[0] || m in rest[1..]
    ensures forall k <- rest[1..] :: k in rest
  {
    assert rest == [rest[0]] + rest[1..];
  }

  lemma FlushOnItsWay(s: State)
    requires Inv(s) && HolderOk(s) && s.holder.Flushing? && AllOnTheirWay(s)
    ensures HolderOk(Flush(s, true)) && AllOnTheirWay(Flush(s, true))
  {
    var n, i, rest := s.holder.todo[0], s.holder.i, s.holder.todo[1..];
    var s' := Flush(s, true);
    hide StreamOk, MuxOk, MuxesOk;
    assert s.holder.todo == [n] + rest;
    if i >= |s.muxes[n].streams| {
      assert forall k <- rest :: k in s.holder.todo;
      hide OnItsWay, Startable, StartThread;
      assert s' == StartThread(SetMux(s, n, s.muxes[n].(muxStarted := true)), rest, true);
      forall m: nat | AtMux(s', m) ensures HolderOk(s') && OnItsWay(s', m) {
        NextOnItsWay(s, n, rest, m);
      }
      NextOnItsWay(s, n, rest, n);
    } else {
      forall m: nat | AtMux(s', m) ensures OnItsWay(s', m) {
        assert OnItsWay(s, m);
      }
    }
  }

  lemma SendOnItsWay(s: State, e: Event)
    requires Inv(s) && HolderOk(s) && Enabled(s, e) && AllOnTheirWay(s)
    requires e.SendCheck? || e.SendLocked? || e.SendDirect? || e.ReceiveFinish?
    ensures HolderOk(Step(s, e)) && AllOnTheirWay(Step(s, e))
  {
    var s' := Step(s, e);
    hide Inv;
    forall m: nat | AtMux(s', m) ensures OnItsWay(s', m) {
      assert OnItsWay(s, m);
    }
  }

  lemma StepOnItsWay(s: State, e: Event)
    requires Inv(s) && HolderOk(s) && Enabled(s, e) && Succeeds(e) && AllOnTheirWay(s)
    ensures HolderOk(Step(s, e)) && AllOnTheirWay(Step(s, e))
  {
    match e
    case StreamReady(m, _, _, _) => StreamReadyOnItsWay(s, m);
    case StartBegin => assert forall m: nat | AtMux(s, m) :: OnItsWay(s, m) ==> OnItsWay(Step(s, e), m);
    case StartNext(_, _, _) => StartNextOnItsWay(s);
    case FlushStep(_) => FlushOnItsWay(s);
    case SendCheck(_, _, _) => SendOnItsWay(s, e);
    case SendLocked(_, _, _) => SendOnItsWay(s, e);
    case SendDirect(_, _) => SendOnItsWay(s, e);
    case ReceiveFinish(_, _) => SendOnItsWay(s, e);
  }

  lemma {:induction false} RunOnItsWay(ss: seq<State>, evs: seq<Event>, sdp: bool, sizes: seq<nat>, k: nat)
    requires IsRun(ss, evs, sdp, sizes) && k <= |evs| && AllSucceed(evs[..k])
    ensures HolderOk(ss[k]) && AllOnTheirWay(ss[k])
  {
    if k == 0 {
    } else {
      AllSucceedInit(evs, k);
      RunOnItsWay(ss, evs, sdp, sizes, k - 1);
      RunInv(ss, evs, sdp, sizes, k - 1);
      RunStep(ss, evs, sdp, sizes, k - 1);
      hide IsRun, Inv, Step, Enabled, HolderOk, AllOnTheirWay, AllSucceed;
      StepOnItsWay(ss[k - 1], evs[k - 1]);
    }
  }

  /** A muxer is ready when each of its streams has been reported so. */
  ghost predicate Ready(evs: seq<Event>, sizes: seq<nat>, m: nat)
    requires m < |sizes|
  {
    Readies(evs, m) == sizes[m]
  }

  /** Once sch_start is done and nobody is in the middle of starting threads, if all callbacks and system calls
      have succeeded: exactly those muxers are started that are ready, or, with an SDP wanted, all of them as
      soon as all are ready; each with its thread running, its header written and its pre-muxing fifos empty. */
  lemma StartsWhenReady(ss: seq<State>, evs: seq<Event>, sdp: bool, sizes: seq<nat>, k: nat, m: nat)
    requires IsRun(ss, evs, sdp, sizes) && k <= |evs| && m < |sizes| && AllSucceed(evs[..k])
    requires ss[k].phase.Running? && ss[k].holder.Free?
    ensures |ss[k].muxes| == |sizes|
    ensures ss[k].muxes[m].muxStarted <==>
            Ready(evs[..k], sizes, m) && (sdp ==> forall l | 0 <= l < |sizes| :: Ready(evs[..k], sizes, l))
    ensures ss[k].muxes[m].threads == 1 <==> ss[k].muxes[m].muxStarted
    ensures ss[k].muxes[m].muxStarted ==> ss[k].muxes[m].header
    ensures ss[k].muxes[m].muxStarted ==>
            forall j | 0 <= j < sizes[m] :: At(ss[k], m, j) && ss[k].muxes[m].streams[j].preMux == []
  {
    RunOnItsWay(ss, evs, sdp, sizes, k);
    RunInv(ss, evs, sdp, sizes, k);
    HeadersAll(ss[k].muxes);
    forall l: nat | l < |sizes|
      ensures AtMux(ss[k], l) && (ss[k].muxes[l].header <==> Ready(evs[..k], sizes, l)) && OnItsWay(ss[k], l)
      ensures |ss[k].muxes[l].streams| == sizes[l]
    {
      ReadyCount(ss, evs, sdp, sizes, k, l);
      assert MuxOk(sdp, ss[k].nbMuxReady == |ss[k].muxes|, ss[k].phase, l, ss[k].muxes[l]);
    }
    forall j: nat | j < sizes[m]
      ensures At(ss[k], m, j) && (ss[k].muxes[m].muxStarted ==> ss[k].muxes[m].streams[j].preMux == [])
    {
      StreamIsOk(ss[k], m, j);
    }
    hide IsRun, Inv, Step, Readies;
  }

  /** A step in which something fails starts no thread, and no header is written if that is what fails. */
  lemma FailedStartsNothing(s: State, e: Event, m: nat)
    requires HolderOk(s) && Enabled(s, e) && AtMux(s, m)
    requires
      || (e.FlushStep? && !e.threadOk)
      || ((e.StreamReady? || e.StartNext?) && (!e.initOk || !e.threadOk || (s.sdp && !e.sdpOk)))
    ensures AtMux(Step(s, e), m) && Step(s, e).muxes[m].threads == s.muxes[m].threads
    ensures !e.FlushStep? && !e.initOk ==> Step(s, e).muxes[m].header == s.muxes[m].header
  {
  }

  /** A failure while sch_start starts a muxer ends it. */
  lemma FailedStartEnds(s: State, initOk: bool, sdpOk: bool, threadOk: bool)
    requires HolderOk(s) && Enabled(s, StartNext(initOk, sdpOk, threadOk)) && AtMux(s, s.phase.next)
    requires s.muxes[s.phase.next].nbReady == |s.muxes[s.phase.next].streams|
    requires !initOk || (!s.sdp && !threadOk) || (s.sdp && s.nbMuxReady + 1 >= |s.muxes| && (!sdpOk || !threadOk))
    ensures Step(s, StartNext(initOk, sdpOk, threadOk)).phase.Failed?
    ensures Step(s, StartNext(initOk, sdpOk, threadOk)).holder.Free?
  {
  }

  lemma StepPhase(s: State, e: Event)
    requires HolderOk(s) && Enabled(s, e) && Succeeds(e)
    ensures Step(s, e).phase ==
            if e.StartBegin? then Starting(0)
            else if !e.StartNext? then s.phase
            else if s.phase.next < |s.muxes| then Starting(s.phase.next + 1) else Running
  {
  }

  function PhaseAfter(evs: seq<Event>, n: nat): Phase {
    if StartBegin !in evs then Before else if Turns(evs) <= n then Starting(Turns(evs)) else Running
  }

  lemma PhaseNext(evs: seq<Event>, e: Event, n: nat)
    requires StartBegin !in evs ==> Turns(evs) == 0
    requires e.StartBegin? ==> StartBegin !in evs
    requires e.StartNext? ==> PhaseAfter(evs, n).Starting?
    ensures StartBegin !in evs + [e] ==> Turns(evs + [e]) == 0
    ensures PhaseAfter(evs + [e], n) ==
            if e.StartBegin? then Starting(0)
            else if !e.StartNext? then PhaseAfter(evs, n)
            else if PhaseAfter(evs, n).next < n then Starting(PhaseAfter(evs, n).next + 1) else Running
  {
    assert (evs + [e])[..|evs|] == evs;
  }

  lemma OneMoreTurn(s: State, e: Event, evs: seq<Event>)
    requires HolderOk(s) && Enabled(s, e) && Succeeds(e) && s.phase == PhaseAfter(evs, |s.muxes|)
    requires StartBegin !in evs ==> Turns(evs) == 0
    ensures Step(s, e).phase == PhaseAfter(evs + [e], |s.muxes|)
    ensures StartBegin !in evs + [e] ==> Turns(evs + [e]) == 0
  {
    StepPhase(s, e);
    assert e.StartBegin? ==> s.phase.Before?;
    assert e.StartNext? ==> s.phase.Starting?;
    hide Step, Enabled, HolderOk, Succeeds, Turns;
    BeforeBegin(evs, |s.muxes|);
    hide PhaseAfter;
    PhaseNext(evs, e, |s.muxes|);
  }

  lemma BeforeBegin(evs: seq<Event>, n: nat)
    ensures PhaseAfter(evs, n).Before? <==> StartBegin !in evs
  {
  }

  ghost predicate PhaseTold(s: State, evs: seq<Event>, n: nat) {
    s.phase == PhaseAfter(evs, n) && (StartBegin !in evs ==> Turns(evs) == 0)
  }

  lemma PhaseToldAtFirst(ss: seq<State>, evs: seq<Event>, sdp: bool, sizes: seq<nat>)
    requires IsRun(ss, evs, sdp, sizes)
    ensures PhaseTold(ss[0], evs[..0], |sizes|)
  {
  }

  lemma PhaseToldNext(ss: seq<State>, evs: seq<Event>, sdp: bool, sizes: seq<nat>, k: nat)
    requires IsRun(ss, evs, sdp, sizes) && k < |evs| && Succeeds(evs[k]) && PhaseTold(ss[k], evs[..k], |sizes|)
    ensures PhaseTold(ss[k + 1], evs[..k + 1], |sizes|)
  {
    RunInv(ss, evs, sdp, sizes, k);
    RunStep(ss, evs, sdp, sizes, k);
    hide IsRun, Inv, Step, Enabled, HolderOk, Succeeds, PhaseAfter, Turns;
    OneMoreTurn(ss[k], evs[k], evs[..k]);
    assert evs[..k + 1] == evs[..k] + [evs[k]];
  }

  /** If all succeed, sch_start looks at every muxer in turn and is then done. */
  lemma {:induction false} StartTurns(ss: seq<State>, evs: seq<Event>, sdp: bool, sizes: seq<nat>, k: nat)
    requires IsRun(ss, evs, sdp, sizes) && k <= |evs| && AllSucceed(evs[..k])
    ensures PhaseTold(ss[k], evs[..k], |sizes|)
  {
    assert |ss| == |evs| + 1;
    hide *;
    if k == 0 {
      PhaseToldAtFirst(ss, evs, sdp, sizes);
    } else {
      AllSucceedInit(evs, k);
      StartTurns(ss, evs, sdp, sizes, k - 1);
      PhaseToldNext(ss, evs, sdp, sizes, k - 1);
    }
  }
}
