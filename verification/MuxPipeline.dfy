/** A muxer's start and its thread queue together: what the muxer thread receives is what was sent to it
    (send_to_mux and mux_task_start in fftools/ffmpeg_sched.c over fftools/thread_queue.c). */
module MuxPipelines {
  import M = MuxStart
  import Q = ThreadQueueModel

  /** All muxers, the thread queue of one of them, and what that queue has returned so far. */
  datatype Joint = Joint(s: M.State, q: Q.Queue<nat>, outs: seq<Q.Outcome<nat>>)

  /** A step of the start, of the queue, or of both at once. */
  datatype Event = Mux(me: M.Event) | Queue(qe: Q.Event<nat>) | Both(me: M.Event, qe: Q.Event<nat>)

  ghost predicate MuxStep(a: Joint, e: M.Event, b: Joint) {
    M.HolderOk(a.s) && M.Enabled(a.s, e) && b.s == M.Step(a.s, e)
  }

  ghost predicate QueueStep(a: Joint, e: Q.Event<nat>, b: Joint) {
    && Q.StreamsOk(a.q) && Q.Enabled(a.q, e)
    && b.q == Q.Step(a.q, e).0 && b.outs == a.outs + [Q.Step(a.q, e).1]
  }

  /** What a queue step takes in for a stream: the packet a tq_send has queued, or the end of the stream. */
  function TakenIn(e: Q.Event<nat>, out: Q.Outcome<nat>, j: nat): seq<M.Item> {
    if out.Sent? && out.stream == j then [M.Packet(out.item)]
    else if e == Q.SendFinish(j) then [M.Eof]
    else []
  }

  ghost predicate QueueIdle(a: Joint, b: Joint) { b.q == a.q && b.outs == a.outs }

  ghost predicate SameStreams(m: nat, a: Joint, b: Joint) {
    M.AtMux(a.s, m) && M.AtMux(b.s, m) && |b.s.muxes[m].streams| == |a.s.muxes[m].streams|
  }

  /** The start hands an item over in the very step in which the queue takes it in, while the muxer still
      wants the stream, and the muxer is done with a stream when the queue's RECV flag says so. */
  ghost predicate InStep(m: nat, a: Joint, e: Event, b: Joint, j: nat)
    requires SameStreams(m, a, b) && j < |a.s.muxes[m].streams| == |b.q.finished|
    requires !e.Mux? ==> b.outs != []
  {
    var st, st' := a.s.muxes[m].streams[j], b.s.muxes[m].streams[j];
    if e.Mux? then st'.handed == st.handed && st'.recvFinished == st.recvFinished
    else
      && st'.handed == st.handed + (if st.recvFinished then [] else TakenIn(e.qe, b.outs[|b.outs| - 1], j))
      && (st'.recvFinished <==> b.q.finished[j].recv)
  }

  ghost predicate Next(m: nat, a: Joint, e: Event, b: Joint) {
    && (if e.Queue? then b.s == a.s else MuxStep(a, e.me, b))
    && (if e.Mux? then QueueIdle(a, b) else QueueStep(a, e.qe, b))
    && SameStreams(m, a, b) && |a.s.muxes[m].streams| == |b.q.finished|
    && forall j: nat | j < |b.q.finished| :: InStep(m, a, e, b, j)
  }

  ghost predicate Init(m: nat, x: Joint, sdp: bool, sizes: seq<nat>, capacity: nat) {
    && m < |sizes| && 0 < capacity
    && x == Joint(M.Init(sdp, sizes), Q.Init(capacity, sizes[m]), [])
  }

  /** The packets among what was accepted or handed over. */
  function Ids(items: seq<M.Item>): seq<nat> {
    if items == [] then []
    else Ids(items[..|items| - 1]) + if items[|items| - 1].Packet? then [items[|items| - 1].id] else []
  }

  lemma {:induction false} IdsConcat(a: seq<M.Item>, b: seq<M.Item>)
    ensures Ids(a + b) == Ids(a) + Ids(b)
  {
    if b == [] {
      assert a + b == a;
    } else {
      assert (a + b)[..|a + b| - 1] == a + b[..|b| - 1];
      IdsConcat(a, b[..|b| - 1]);
    }
  }

  lemma IdsPrefix(a: seq<M.Item>, b: seq<M.Item>)
    requires a <= b
    ensures Ids(a) <= Ids(b)
  {
    assert b == a + b[|a|..];
    IdsConcat(a, b[|a|..]);
  }

  // ----- the invariant -----

  /** What ties a stream of the muxer to its stream in the queue. */
  ghost predicate Linked(st: M.Stream, q: Q.Queue<nat>, outs: seq<Q.Outcome<nat>>, j: nat)
    requires j < |q.finished|
  {
    && (st.recvFinished <==> q.finished[j].recv)
    && Ids(st.handed) == Q.Accepted(outs, j)
    && (q.finished[j].send && !q.finished[j].recv ==> M.Eof in st.handed)
  }

  ghost predicate Inv(m: nat, x: Joint) {
    && M.Inv(x.s) && M.AtMux(x.s, m) && Q.Inv(x.q) && |x.q.finished| == |x.s.muxes[m].streams|
    && forall j: nat | j < |x.q.finished| ::
         Linked(x.s.muxes[m].streams[j], x.q, x.outs, j) && Q.History(x.q, x.outs, j)
  }

  lemma SendEofMeansRecv(q: Q.Queue<nat>, e: Q.Event<nat>, j: nat)
    requires Q.StreamsOk(q) && Q.Enabled(q, e) && j < |q.finished| && Q.Step(q, e).1 == Q.SendEof(j)
    ensures q.finished[j].recv
  {
    hide Q.Skip, Q.FirstSendOnly, Q.AllRecv;
  }

  lemma AcceptedNext(outs: seq<Q.Outcome<nat>>, out: Q.Outcome<nat>, j: nat)
    ensures Q.Accepted(outs + [out], j) == Q.Accepted(outs, j) + if out.Sent? && out.stream == j then [out.item] else []
  {
    assert (outs + [out])[..|outs|] == outs;
  }

  lemma TakenInIds(e: Q.Event<nat>, out: Q.Outcome<nat>, j: nat)
    ensures Ids(TakenIn(e, out, j)) == if out.Sent? && out.stream == j then [out.item] else []
  {
    var items := TakenIn(e, out, j);
    assert items != [] ==> items[..|items| - 1] == [];
  }

  lemma FinishIsNotSent(q: Q.Queue<nat>, e: Q.Event<nat>, j: nat)
    requires Q.StreamsOk(q) && Q.Enabled(q, e) && e == Q.SendFinish(j)
    ensures !Q.Step(q, e).1.Sent?
  {
  }

  lemma HandedNext(st: M.Stream, q: Q.Queue<nat>, e: Q.Event<nat>, outs: seq<Q.Outcome<nat>>, j: nat)
    requires Q.StreamsOk(q) && Q.Enabled(q, e) && j < |q.finished| && Linked(st, q, outs, j)
    ensures var out := Q.Step(q, e).1;
      Ids(st.handed + if st.recvFinished then [] else TakenIn(e, out, j)) == Q.Accepted(outs + [out], j)
  {
    hide Q.Step, Q.Enabled, Q.StreamsOk, Ids, Q.Accepted, TakenIn;
    var out := Q.Step(q, e).1;
    Q.StepFlags(q, e, j);
    AcceptedNext(outs, out, j);
    TakenInIds(e, out, j);
    IdsConcat(st.handed, TakenIn(e, out, j));
    assert st.handed + [] == st.handed;
  }

  lemma OwesEofNext(st: M.Stream, q: Q.Queue<nat>, e: Q.Event<nat>, outs: seq<Q.Outcome<nat>>, j: nat)
    requires Q.StreamsOk(q) && Q.Enabled(q, e) && j < |q.finished| && Linked(st, q, outs, j)
    ensures var (q', out) := Q.Step(q, e);
      && |q'.finished| == |q.finished|
      && (q'.finished[j].send && !q'.finished[j].recv ==>
            M.Eof in st.handed + if st.recvFinished then [] else TakenIn(e, out, j))
  {
    Q.StepFlags(q, e, j);
    Q.StepSendFlag(q, e, j);
    if Q.Step(q, e).1 == Q.SendEof(j) { SendEofMeansRecv(q, e, j); }
    if e == Q.SendFinish(j) { FinishIsNotSent(q, e, j); }
    hide Q.Step, Q.Enabled, Q.StreamsOk, Ids, Q.Accepted;
  }

  lemma LinkedNext(st: M.Stream, st': M.Stream, q: Q.Queue<nat>, e: Q.Event<nat>, outs: seq<Q.Outcome<nat>>, j: nat)
    requires Q.StreamsOk(q) && Q.Enabled(q, e) && j < |q.finished| && Linked(st, q, outs, j)
    requires st'.handed == st.handed + if st.recvFinished then [] else TakenIn(e, Q.Step(q, e).1, j)
    requires st'.recvFinished <==> Q.Step(q, e).0.finished[j].recv
    ensures Linked(st', Q.Step(q, e).0, outs + [Q.Step(q, e).1], j)
  {
    HandedNext(st, q, e, outs, j);
    OwesEofNext(st, q, e, outs, j);
    hide Q.Step, Q.Enabled, Q.StreamsOk, Ids, Q.Accepted, TakenIn;
  }

  lemma QueueKeeps(m: nat, a: Joint, e: Event, b: Joint, j: nat)
    requires Inv(m, a) && Next(m, a, e, b) && !e.Mux? && j < |b.q.finished|
    ensures Linked(b.s.muxes[m].streams[j], b.q, b.outs, j) && Q.History(b.q, b.outs, j)
  {
    assert InStep(m, a, e, b, j);
    hide M.Inv, Q.Inv, Q.Step, M.Step, M.Enabled, M.HolderOk, Linked, Q.History, TakenIn;
    assert b.outs[|b.outs| - 1] == Q.Step(a.q, e.qe).1;
    LinkedNext(a.s.muxes[m].streams[j], b.s.muxes[m].streams[j], a.q, e.qe, a.outs, j);
    Q.StepHistory(a.q, e.qe, a.outs, j);
  }

  lemma NextKeepsInv(m: nat, a: Joint, e: Event, b: Joint)
    requires Inv(m, a) && Next(m, a, e, b)
    ensures Inv(m, b)
  {
    hide M.Inv, Q.Inv, Q.Step, M.Step, M.Enabled, M.HolderOk, Linked, Q.History, Q.Enabled;
    if !e.Queue? { M.StepKeepsInv(a.s, e.me); }
    if !e.Mux? { Q.StepKeepsInv(a.q, e.qe); }
    forall j: nat | j < |b.q.finished|
      ensures Linked(b.s.muxes[m].streams[j], b.q, b.outs, j) && Q.History(b.q, b.outs, j)
    {
      if e.Mux? {
        assert InStep(m, a, e, b, j);
        LinkedSame(a.s.muxes[m].streams[j], b.s.muxes[m].streams[j], a.q, a.outs, j);
      } else {
        QueueKeeps(m, a, e, b, j);
      }
    }
  }

  lemma LinkedSame(st: M.Stream, st': M.Stream, q: Q.Queue<nat>, outs: seq<Q.Outcome<nat>>, j: nat)
    requires j < |q.finished| && Linked(st, q, outs, j)
    requires st'.handed == st.handed && st'.recvFinished == st.recvFinished
    ensures Linked(st', q, outs, j)
  {
  }

  // ----- what the muxer thread receives -----

  /** A run of the two: the states before and after every event. */
  ghost predicate IsRun(m: nat, xs: seq<Joint>, evs: seq<Event>, sdp: bool, sizes: seq<nat>, capacity: nat) {
    && |xs| == |evs| + 1 && Init(m, xs[0], sdp, sizes, capacity)
    && forall k | 0 <= k < |evs| :: NextAt(m, xs, evs, k)
  }

  ghost predicate NextAt(m: nat, xs: seq<Joint>, evs: seq<Event>, k: nat)
    requires |xs| == |evs| + 1 && k < |evs|
  {
    Next(m, xs[k], evs[k], xs[k + 1])
  }

  lemma InitInv(m: nat, x: Joint, sdp: bool, sizes: seq<nat>, capacity: nat)
    requires Init(m, x, sdp, sizes, capacity)
    ensures Inv(m, x)
  {
    M.NoHeaders(x.s.muxes);
  }

  lemma {:induction false} RunInv(m: nat, xs: seq<Joint>, evs: seq<Event>, sdp: bool, sizes: seq<nat>, capacity: nat,
                                  k: nat)
    requires IsRun(m, xs, evs, sdp, sizes, capacity) && k <= |evs|
    ensures Inv(m, xs[k])
  {
    if k == 0 {
      InitInv(m, xs[0], sdp, sizes, capacity);
    } else {
      RunInv(m, xs, evs, sdp, sizes, capacity, k - 1);
      hide Inv, Next, Init;
      assert NextAt(m, xs, evs, k - 1);
      NextKeepsInv(m, xs[k - 1], evs[k - 1], xs[k]);
    }
  }

  /** From send_to_mux to the muxer thread, the start in between included: at every point of every run the
      packets received of a stream are the first ones that were accepted for it, in order. */
  lemma ReceivedIsPrefix(m: nat, xs: seq<Joint>, evs: seq<Event>, sdp: bool, sizes: seq<nat>, capacity: nat,
                         k: nat, j: nat)
    requires IsRun(m, xs, evs, sdp, sizes, capacity) && k <= |evs|
    requires M.At(xs[k].s, m, j)
    ensures Q.Delivered(xs[k].outs, j) <= Ids(xs[k].s.muxes[m].streams[j].accepted)
  {
    RunInv(m, xs, evs, sdp, sizes, capacity, k);
    PrefixNow(m, xs[k], j);
  }

  lemma StreamIsOk(s: M.State, m: nat, j: nat)
    requires M.Inv(s) && M.At(s, m, j)
    ensures M.StreamOk(s.muxes[m].streams[j], s.muxes[m].threads, s.muxes[m].muxStarted)
  {
    assert M.MuxOk(s.sdp, s.nbMuxReady == |s.muxes|, s.phase, m, s.muxes[m]);
  }

  lemma PrefixNow(m: nat, x: Joint, j: nat)
    requires Inv(m, x) && M.At(x.s, m, j)
    ensures Q.Delivered(x.outs, j) <= Ids(x.s.muxes[m].streams[j].accepted)
  {
    StreamIsOk(x.s, m, j);
    var st := x.s.muxes[m].streams[j];
    assert Linked(st, x.q, x.outs, j) && Q.History(x.q, x.outs, j);
    hide M.Inv, Q.Inv, Ids, Q.Delivered, Q.Accepted, Q.Pending;
    IdsPrefix(st.handed, st.accepted);
  }

  /** And the stream's EOF, when it comes, comes after every packet accepted: none is lost on the way. */
  lemma EofAfterEverything(m: nat, xs: seq<Joint>, evs: seq<Event>, sdp: bool, sizes: seq<nat>, capacity: nat,
                           k: nat, j: nat)
    requires IsRun(m, xs, evs, sdp, sizes, capacity) && k < |evs| && M.At(xs[k].s, m, j)
    requires !evs[k].Mux? && xs[k + 1].outs == xs[k].outs + [Q.StreamEof(j)]
    ensures Q.Delivered(xs[k].outs, j) == Ids(xs[k].s.muxes[m].streams[j].accepted)
    ensures M.Eof in xs[k].s.muxes[m].streams[j].accepted
  {
    RunInv(m, xs, evs, sdp, sizes, capacity, k);
    hide Inv, Next;
    assert NextAt(m, xs, evs, k);
    EofNow(m, xs[k], evs[k], xs[k + 1], j);
  }

  lemma EofNow(m: nat, a: Joint, e: Event, b: Joint, j: nat)
    requires Inv(m, a) && Next(m, a, e, b) && !e.Mux? && b.outs == a.outs + [Q.StreamEof(j)] && M.At(a.s, m, j)
    ensures Q.Delivered(a.outs, j) == Ids(a.s.muxes[m].streams[j].accepted)
    ensures M.Eof in a.s.muxes[m].streams[j].accepted
  {
    StreamIsOk(a.s, m, j);
    var st := a.s.muxes[m].streams[j];
    assert Linked(st, a.q, a.outs, j) && Q.History(a.q, a.outs, j);
    hide M.Inv, Q.Step, M.Step, M.Enabled, Ids, Q.Delivered, Q.Accepted;
    assert b.outs[|a.outs|] == Q.StreamEof(j) == Q.Step(a.q, e.qe).1;
    Q.StepFlags(a.q, e.qe, j);
    Q.StepMoves(a.q, e.qe, j);
    hide Q.Inv, Next, InStep;
    NothingAfterEof(st);
  }

  lemma NothingAfterEof(st: M.Stream)
    requires M.Eof in st.handed && st.accepted == st.handed + st.preMux
    requires forall k | 0 <= k < |st.accepted| - 1 :: st.accepted[k].Packet?
    ensures st.accepted == st.handed && M.Eof in st.accepted
  {
    var i :| 0 <= i < |st.handed| && st.handed[i] == M.Eof;
    assert st.accepted[i] == M.Eof;
  }

  lemma QueueTakesIn(q: Q.Queue<nat>, t: Q.Tid, j: nat, x: nat)
    requires Q.Inv(q) && t !in q.waiting && j < |q.finished| && !q.finished[j].send && !q.finished[j].recv
    requires |q.fifo| < q.capacity
    ensures Q.Enabled(q, Q.Send(t, j, x))
    ensures Q.Step(q, Q.Send(t, j, x)).1 == Q.Sent(j, x) && Q.Step(q, Q.Send(t, j, x)).0.finished == q.finished
  {
  }

  lemma MuxHandsOver(s: M.State, m: nat, j: nat, x: nat)
    requires M.HolderOk(s) && M.At(s, m, j) && s.muxes[m].streams[j].sender == M.Sending(M.Packet(x))
    requires !s.muxes[m].streams[j].recvFinished && !s.muxes[m].streams[j].initEof
    ensures M.Enabled(s, M.SendDirect(m, j))
    ensures var st, s' := s.muxes[m].streams[j], M.Step(s, M.SendDirect(m, j));
      && s'.muxes == s.muxes[m := s.muxes[m].(streams := s.muxes[m].streams[j := M.Direct(st)])]
      && M.Direct(st).handed == st.handed + [M.Packet(x)] && M.Direct(st).recvFinished == st.recvFinished
  {
  }

  /** The two do move together: a sender past mux_started whose stream is wanted, with room in the queue, hands
      its packet over in the step in which the queue takes it in. */
  lemma DirectSendInStep(m: nat, a: Joint, j: nat, t: Q.Tid, x: nat) returns (b: Joint)
    requires Inv(m, a) && M.HolderOk(a.s) && M.At(a.s, m, j) && t !in a.q.waiting
    requires a.s.muxes[m].streams[j].sender == M.Sending(M.Packet(x)) && !a.s.muxes[m].streams[j].recvFinished
    requires |a.q.fifo| < a.q.capacity && !a.q.finished[j].send
    ensures Next(m, a, Both(M.SendDirect(m, j), Q.Send(t, j, x)), b)
    ensures b.outs == a.outs + [Q.Sent(j, x)]
    ensures b.s.muxes[m].streams[j].handed == a.s.muxes[m].streams[j].handed + [M.Packet(x)]
  {
    var me, qe := M.SendDirect(m, j), Q.Send(t, j, x);
    StreamIsOk(a.s, m, j);
    assert forall i: nat | i < |a.q.finished| :: Linked(a.s.muxes[m].streams[i], a.q, a.outs, i);
    QueueTakesIn(a.q, t, j, x);
    MuxHandsOver(a.s, m, j, x);
    hide M.Inv, Q.Inv, M.Step, Q.Step, M.Direct, M.Enabled, M.HolderOk, Q.Accepted, Q.History, Ids;
    b := Joint(M.Step(a.s, me), Q.Step(a.q, qe).0, a.outs + [Q.Step(a.q, qe).1]);
    forall i: nat | i < |b.q.finished| ensures InStep(m, a, Both(me, qe), b, i) {
      assert i != j ==> b.s.muxes[m].streams[i] == a.s.muxes[m].streams[i];
    }
  }
}
